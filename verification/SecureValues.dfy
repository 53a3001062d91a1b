/** What an accessory reads from an encrypted read or write, and what the caller gets back, through any retries. */
module SecureValues {
  import opened Bytes
  import opened Primitives
  import opened PairVerify
  import opened Sessions
  import opened BlePdu
  import opened SecureReads
  import Tlv8

  // ---- What the accessory reads ----

  /** A request as it lies in the PDU: control, opcode, transaction id, instance id, and with a body its length and bytes. */
  predicate RequestPdu(pdu: bytes, op: byte, tid: byte, iid: u16, body: bytes)
  {
    if body == [] then pdu == [0x00, op, tid, iid % 256, iid / 256]
    else |body| <= 0xFFFF && pdu == [0x00, op, tid, iid % 256, iid / 256, |body| % 256, |body| / 256] + body
  }

  lemma {:induction false} RequestLayout(op: byte, tid: byte, iid: u16, body: bytes)
    requires |body| <= 0xFFFF
    ensures RequestPdu(EncodeRequest(op, tid, iid, body), op, tid, iid, body)
  {
  }

  /** A peer with the session's key, counting from the session's start, opens and reassembles all of a request's frames to this. */
  ghost predicate Delivers(c: Suite, i: Issued, op: byte, iid: u16, body: bytes)
  {
    var opened_ := OpenAll(c, i.key, i.firstSealed, i.frames);
    opened_.Some? && Reassemble(opened_.value).Ok? && RequestPdu(Reassemble(opened_.value).value, op, i.tid, iid, body)
  }

  /** The request is cut from this query's PDU. */
  predicate MadeOf(q: Query, i: Issued)
  {
    i.plain == RequestFragments(q.op, i.tid, q.iid, q.body, q.fragSize)
  }

  lemma {:induction false} FramesOpen(c: Suite, i: Issued)
    requires SealLaw(c) && SealedInTurn(SealerOf(c), i) && |i.frames| == |i.plain|
    ensures OpenAll(c, i.key, i.firstSealed, i.frames) == Some(i.plain)
  {
    var frames := SealedFrom(c, i.key, i.firstSealed, i.plain);
    forall k | 0 <= k < |frames| ensures frames[k] == i.frames[k] { assert SealerOf(c)(i.key, i.firstSealed + k, i.plain[k]) == i.frames[k]; }
    assert frames == i.frames;
    OpenAllSealed(c, i.key, i.firstSealed, i.plain);
  }

  lemma {:induction false} IssuedDelivers(c: Suite, i: Issued, q: Query)
    requires SealLaw(c) && SealedInTurn(SealerOf(c), i) && |i.frames| == |i.plain| && |q.body| <= 0xFFFF && MadeOf(q, i)
    ensures Delivers(c, i, q.op, q.iid, q.body)
  {
    FramesOpen(c, i);
    FragmentRoundTrip(EncodeRequest(q.op, i.tid, q.iid, q.body), Max(q.fragSize - 16, 1));
    RequestLayout(q.op, i.tid, q.iid, q.body);
  }

  /** Every request of a call, first or retried, is made of this query. */
  ghost predicate Makes(attempt: Attempter, q: Query)
  {
    forall s: Secure, t: Turn :: MadeOf(q, attempt(s, t).1)
  }

  ghost predicate AllMadeOf(q: Query, issued: seq<Issued>)
  {
    forall i :: 0 <= i < |issued| ==> MadeOf(q, issued[i])
  }

  lemma {:induction false} LoopMakes(attempt: Attempter, q: Query, s: Secure, turns: seq<Turn>, tries: nat)
    requires Makes(attempt, q)
    ensures AllMadeOf(q, RetryLoop(attempt, s, turns, tries).issued)
    decreases |turns|
  {
    if turns != [] && Revive(s, turns[0]).Ok? {
      var t := turns[0];
      var (next, issued, r) := attempt(Revive(s, t).value, t);
      assert MadeOf(q, attempt(Revive(s, t).value, t).1) && MadeOf(q, issued);
      if r.Err? && tries + 1 < MAX_REVIVE_RETRIES && t.after > next.generation {
        LoopMakes(attempt, q, next, turns[1..], tries + 1);
        var rest := RetryLoop(attempt, next, turns[1..], tries + 1).issued;
        assert RetryLoop(attempt, s, turns, tries).issued == [issued] + rest;
        forall i | 0 <= i < |[issued] + rest| ensures MadeOf(q, ([issued] + rest)[i]) { if i > 0 { assert MadeOf(q, rest[i - 1]); } }
      } else {
        assert RetryLoop(attempt, s, turns, tries).issued == [issued];
      }
    }
  }

  lemma {:induction false} RequesterMakes(c: Suite, q: Query)
    ensures Makes(Requester(c, q), q)
  {
  }

  lemma {:induction false} CallDelivers(c: Suite, s: Secure, q: Query, turns: seq<Turn>, i: nat)
    requires SealLaw(c) && Counted(s) && |q.body| <= 0xFFFF
    requires var issued := RetryLoop(Requester(c, q), s, turns, 0).issued; i < |issued| && |issued[i].frames| == |issued[i].plain|
    ensures Delivers(c, RetryLoop(Requester(c, q), s, turns, 0).issued[i], q.op, q.iid, q.body)
  {
    RequesterKeeps(c, q);
    LoopChains(Requester(c, q), SealerOf(c), Counted, s, turns, 0);
    RequesterMakes(c, q);
    LoopMakes(Requester(c, q), q, s, turns, 0);
    IssuedDelivers(c, RetryLoop(Requester(c, q), s, turns, 0).issued[i], q);
  }

  lemma {:induction false} WriteBodyReads(value: bytes)
    ensures Tlv8.Parse(WriteBody(value)).Ok?
    ensures Tlv8.Get(Tlv8.Parse(WriteBody(value)).value, 0x01) == Some(value) && Tlv8.Get(Tlv8.Parse(WriteBody(value)).value, 0x09) == Some([1])
  {
    var items := [Tlv8.Item(RETURN_RESPONSE, [1]), Tlv8.Item(VALUE, value)];
    Tlv8.RoundTripExactly(items);
    Tlv8.GetIsFirst(items, 0x09, 0);
    Tlv8.GetIsFirst(items, 0x01, 1);
  }

  /**
   * However often it is retried, a write whose frames all went out tells the accessory opcode 2, this instance id, and
   * a body whose Value is exactly the value written and whose Return-Response is 1.
   */
  lemma {:induction false} WriteIsDelivered(c: Suite, s: Secure, iid: u16, value: bytes, fragSize: nat, turns: seq<Turn>, i: nat) returns (body: bytes)
    requires SealLaw(c) && Counted(s) && |WriteBody(value)| <= 0xFFFF
    requires var issued := RetryLoop(Requester(c, Query(0x02, iid, WriteBody(value), fragSize)), s, turns, 0).issued;
             i < |issued| && |issued[i].frames| == |issued[i].plain|
    ensures Delivers(c, RetryLoop(Requester(c, Query(0x02, iid, WriteBody(value), fragSize)), s, turns, 0).issued[i], 2, iid, body)
    ensures Tlv8.Parse(body).Ok?
    ensures Tlv8.Get(Tlv8.Parse(body).value, 0x01) == Some(value) && Tlv8.Get(Tlv8.Parse(body).value, 0x09) == Some([1])
  {
    body := WriteBody(value);
    CallDelivers(c, s, Query(0x02, iid, body, fragSize), turns, i);
    WriteBodyReads(value);
  }

  /** And a read tells it opcode 3 and this instance id, with no body. */
  lemma {:induction false} ReadIsDelivered(c: Suite, s: Secure, iid: u16, fragSize: nat, turns: seq<Turn>, i: nat)
    requires SealLaw(c) && Counted(s)
    requires var issued := RetryLoop(Requester(c, Query(0x03, iid, [], fragSize)), s, turns, 0).issued;
             i < |issued| && |issued[i].frames| == |issued[i].plain|
    ensures Delivers(c, RetryLoop(Requester(c, Query(0x03, iid, [], fragSize)), s, turns, 0).issued[i], 3, iid, [])
  {
    CallDelivers(c, s, Query(0x03, iid, [], fragSize), turns, i);
  }

  // ---- What the caller gets back ----

  /** The session before turn `k`, if every turn before it was a request. */
  function StateAt(attempt: Attempter, s: Secure, turns: seq<Turn>, k: nat): Secure
    requires k <= |turns|
    decreases k
  {
    if k == 0 || Revive(s, turns[0]).Err? then s else StateAt(attempt, attempt(Revive(s, turns[0]).value, turns[0]).0, turns[1..], k - 1)
  }

  /** A turn whose request fails on a link that has reconnected meanwhile. */
  predicate FailsOver(attempt: Attempter, s: Secure, t: Turn)
  {
    Revive(s, t).Ok? && var (next, _, r) := attempt(Revive(s, t).value, t); r.Err? && t.after > next.generation
  }

  ghost predicate AllFailOver(attempt: Attempter, s: Secure, turns: seq<Turn>, k: nat)
    requires k <= |turns|
  {
    forall j :: 0 <= j < k ==> FailsOver(attempt, StateAt(attempt, s, turns, j), turns[j])
  }

  /**
   * Exactly when a call goes on: after `k` turns that failed over, fewer than three in all, the next turn is taken; it
   * is the last one unless it fails over too and two or fewer have been taken, and its outcome is then the call's.
   */
  lemma {:induction false} RetriesExactly(attempt: Attempter, s: Secure, turns: seq<Turn>, tries: nat, k: nat)
    requires k < |turns| && tries + k < 3 && AllFailOver(attempt, s, turns, k)
    ensures var live := Revive(StateAt(attempt, s, turns, k), turns[k]);
            var o := RetryLoop(attempt, s, turns, tries);
            && (live.Err? ==> o.result == Err(live.error) && |o.issued| == k)
            && (live.Ok? && !(tries + k < 2 && FailsOver(attempt, StateAt(attempt, s, turns, k), turns[k])) ==>
                  (o.secure, o.result) == (attempt(live.value, turns[k]).0, attempt(live.value, turns[k]).2) && |o.issued| == k + 1)
    decreases k
  {
    if k > 0 {
      assert FailsOver(attempt, StateAt(attempt, s, turns, 0), turns[0]);
      var next := attempt(Revive(s, turns[0]).value, turns[0]).0;
      forall j | 0 <= j < k - 1 ensures FailsOver(attempt, StateAt(attempt, next, turns[1..], j), turns[1..][j]) {
        assert FailsOver(attempt, StateAt(attempt, s, turns, j + 1), turns[j + 1]);
      }
      RetriesExactly(attempt, next, turns[1..], tries + 1, k - 1);
    }
  }

  /** In this turn the link takes the whole request and brings this answer, sealed by a peer in step and readably split. */
  ghost predicate Answered(c: Suite, live: Secure, q: Query, t: Turn, control: byte, answer: Response, split: seq<bytes>)
  {
    && |RequestFragments(q.op, NextTid(live.tid), q.iid, q.body, q.fragSize)| <= t.writesLeft
    && t.replies == Arriving(SealedFrom(c, live.keys.read, live.recv, split))
    && |answer.body| <= 0xFFFF && Readable(split) && Reassemble(split) == Ok(EncodeResponse(control, answer, true))
  }

  lemma {:induction false} AnsweredTurn(c: Suite, live: Secure, q: Query, t: Turn, control: byte, answer: Response, split: seq<bytes>)
    requires SealLaw(c) && Answered(c, live, q, t, control, answer, split)
    ensures Attempt(c, live, q, t).2 == Ok(answer)
  {
    AnswerRecovered(c, live.keys.read, live.recv, control, answer, split);
  }

  lemma {:induction false} CallAnswered(c: Suite, s: Secure, q: Query, turns: seq<Turn>, k: nat, control: byte, answer: Response, split: seq<bytes>)
    requires SealLaw(c) && k < 3 && k < |turns| && AllFailOver(Requester(c, q), s, turns, k)
    requires Revive(StateAt(Requester(c, q), s, turns, k), turns[k]).Ok?
    requires Answered(c, Revive(StateAt(Requester(c, q), s, turns, k), turns[k]).value, q, turns[k], control, answer, split)
    ensures RetryLoop(Requester(c, q), s, turns, 0).result == Ok(answer)
  {
    AnsweredTurn(c, Revive(StateAt(Requester(c, q), s, turns, k), turns[k]).value, q, turns[k], control, answer, split);
    RetriesExactly(Requester(c, q), s, turns, 0, k);
  }

  /**
   * A read whose first turns fail over, up to two of them, and whose next turn is answered with a Value, returns
   * exactly the bytes of that Value.
   */
  lemma {:induction false} ReadIsAnswered(c: Suite, s: Secure, iid: u16, fragSize: nat, turns: seq<Turn>, k: nat, control: byte, answer: Response, split: seq<bytes>, value: bytes)
    requires SealLaw(c) && k < 3 && k < |turns|
    requires AllFailOver(Requester(c, Query(0x03, iid, [], fragSize)), s, turns, k)
    requires var live := Revive(StateAt(Requester(c, Query(0x03, iid, [], fragSize)), s, turns, k), turns[k]);
             live.Ok? && Answered(c, live.value, Query(0x03, iid, [], fragSize), turns[k], control, answer, split)
    requires Tlv8.Parse(answer.body).Ok? && Tlv8.Get(Tlv8.Parse(answer.body).value, 0x01) == Some(value)
    ensures RetryLoop(Requester(c, Query(0x03, iid, [], fragSize)), s, turns, 0).result == Ok(answer) && ValueParam(answer.body) == Ok(value)
  {
    CallAnswered(c, s, Query(0x03, iid, [], fragSize), turns, k, control, answer, split);
  }

  /** A read's value is that of its first Value item; without one, or in a body that does not parse, there is none. */
  lemma {:induction false} ValueExactly(body: bytes, value: bytes)
    ensures ValueParam(body) == Ok(value) <==> Tlv8.Parse(body).Ok? && Tlv8.Get(Tlv8.Parse(body).value, 0x01) == Some(value)
    ensures ValueParam(body).Err? ==> ValueParam(body) == Err(MalformedPdu)
  {
  }

  // ---- Transaction ids ----

  /** The next transaction id of the session the last request ran on, or 1 on a session of its own. */
  predicate FollowsId(mint: nat, tid: byte, i: Issued)
  {
    i.tid == if i.mint == mint then (tid + 1) % 256 else 1
  }

  predicate IdAt(mint: nat, tid: byte, issued: seq<Issued>, i: nat)
    requires i < |issued|
  {
    if i == 0 then FollowsId(mint, tid, issued[0]) else FollowsId(issued[i - 1].mint, issued[i - 1].tid, issued[i])
  }

  ghost predicate IdsCountUp(mint: nat, tid: byte, issued: seq<Issued>)
  {
    forall i: nat :: i < |issued| ==> IdAt(mint, tid, issued, i)
  }

  /** The session stands where the last request left it. */
  predicate EndsAt(s: Secure, issued: seq<Issued>, end: Secure)
  {
    if issued == [] then end.mint == s.mint && end.tid == s.tid
    else var last := issued[|issued| - 1]; end.mint == last.mint && end.tid == last.tid
  }

  lemma IdsJoin(a: Secure, xs: seq<Issued>, b: Secure, ys: seq<Issued>, end: Secure)
    requires IdsCountUp(a.mint, a.tid, xs) && EndsAt(a, xs, b) && IdsCountUp(b.mint, b.tid, ys) && EndsAt(b, ys, end)
    ensures IdsCountUp(a.mint, a.tid, xs + ys) && EndsAt(a, xs + ys, end)
  {
    var all := xs + ys;
    forall i: nat | i < |all| ensures IdAt(a.mint, a.tid, all, i) {
      if i < |xs| { assert IdAt(a.mint, a.tid, xs, i); } else { assert IdAt(b.mint, b.tid, ys, i - |xs|); }
    }
  }

  ghost predicate GivesIds(attempt: Attempter)
  {
    forall s: Secure, t: Turn :: GivesId(s, attempt(s, t).0, attempt(s, t).1)
  }

  predicate GivesId(s: Secure, next: Secure, i: Issued)
  {
    FollowsId(s.mint, s.tid, i) && i.mint == s.mint == next.mint && next.tid == i.tid
  }

  lemma {:induction false} LoopIds(attempt: Attempter, s: Secure, turns: seq<Turn>, tries: nat)
    requires GivesIds(attempt)
    ensures var o := RetryLoop(attempt, s, turns, tries);
            IdsCountUp(s.mint, s.tid, o.issued) && EndsAt(s, o.issued, o.secure)
    decreases |turns|
  {
    if turns != [] && Revive(s, turns[0]).Ok? {
      var live := Revive(s, turns[0]).value;
      var (next, issued, r) := attempt(live, turns[0]);
      assert GivesId(live, next, issued);
      assert FollowsId(s.mint, s.tid, issued) by { RevivesExactly(s, turns[0]); }
      assert IdAt(s.mint, s.tid, [issued], 0);
      if r.Err? && tries + 1 < 3 && turns[0].after > next.generation {
        LoopIds(attempt, next, turns[1..], tries + 1);
        var rest := RetryLoop(attempt, next, turns[1..], tries + 1);
        IdsJoin(s, [issued], next, rest.issued, rest.secure);
      }
    }
  }

  /**
   * Over every run of reads, writes, failures, retries and re-verifies, the requests of a session are numbered 1, 2
   * and on, modulo 256.
   */
  lemma {:induction false} TransactionIds(c: Suite, s: Secure, ops: seq<Operation>)
    ensures var (end, issued) := RunAll(c, s, ops);
            IdsCountUp(s.mint, s.tid, issued) && EndsAt(s, issued, end)
    decreases |ops|
  {
    if ops != [] {
      var attempt := Requester(c, ops[0].query);
      assert GivesIds(attempt);
      LoopIds(attempt, s, ops[0].turns, ops[0].tries);
      var o := RetryLoop(attempt, s, ops[0].turns, ops[0].tries);
      TransactionIds(c, o.secure, ops[1..]);
      var (end, rest) := RunAll(c, o.secure, ops[1..]);
      IdsJoin(s, o.issued, o.secure, rest, end);
    }
  }
}
