/** Runs of calls on one CoAP session: what a lost reply does to every later one. */
module ThreadRuns {
  import opened Bytes
  import opened Primitives
  import opened Sessions
  import opened ThreadPdu
  import opened LightBulb
  import opened ThreadAccessory
  import BlockTransfer
  import Pairing
  import PairVerify
  import SetupRuns
  import Tlv8

  /** Both ends of a session. */
  datatype Ends = Ends(end: Endpoint, device: Device)

  /** A batch, and the other peers' datagrams before each of its continuations. */
  datatype Call = Call(reqs: seq<Request>, others: seq<seq<Incoming>>)

  function Encoded(reqs: seq<Request>): bytes
  {
    EncodeBatch(seq(|reqs|, _ => 0), reqs)
  }

  type Caller = (Ends, Call) -> Posted

  function CallerOf(g: Setting, me: nat): Caller
  {
    (e: Ends, call: Call) => Post(g.suite, g, me, e.end, e.device, Encoded(call.reqs), call.others)
  }

  function AfterCall(post: Caller, e: Ends, call: Call): Ends
  {
    Ends(post(e, call).end, post(e, call).device)
  }

  function AfterCalls(post: Caller, e: Ends, calls: seq<Call>): Ends
  {
    if calls == [] then e
    else AfterCall(post, AfterCalls(post, e, calls[..|calls| - 1]), calls[|calls| - 1])
  }

  /** What call `i` of a run came to. */
  function PostOf(post: Caller, e: Ends, calls: seq<Call>, i: nat): Posted
    requires i < |calls|
  {
    post(AfterCalls(post, e, calls[..i]), calls[i])
  }

  /** How many calls of a run failed. */
  function Failures(post: Caller, e: Ends, calls: seq<Call>): nat
  {
    if calls == [] then 0
    else
      var n := |calls| - 1;
      Failures(post, e, calls[..n]) + (if PostOf(post, e, calls, n).result.Ok? then 0 else 1)
  }

  // ---- Other peers that leave the session alone ----

  /** Not a request on the session, and not the end of a Pair Verify. */
  predicate Quiet(g: Setting, m: Incoming)
  {
    IsContinuation(g, m) || (m.path != SecurePath && (m.path == PairVerifyPath ==> SetupRuns.MessageState(m.payload) != Some(3)))
  }

  ghost predicate AllQuiet(g: Setting, others: seq<seq<Incoming>>)
  {
    forall k: nat, i: nat :: k < |others| && i < |others[k]| ==> Quiet(g, others[k][i])
  }

  lemma QuietKeeps(g: Setting, d: Device, m: Incoming)
    requires Quiet(g, m)
    ensures Receive(g, d, m).0.session == d.session
  {
  }

  lemma {:induction false} AllQuietKeep(g: Setting, d: Device, ms: seq<Incoming>)
    requires forall i :: 0 <= i < |ms| ==> Quiet(g, ms[i])
    ensures ReceiveAll(ReceiverOf(g), d, ms).session == d.session
    decreases |ms|
  {
    if ms != [] {
      QuietKeeps(g, d, ms[0]);
      AllQuietKeep(g, Receive(g, d, ms[0]).0, ms[1..]);
    }
  }

  lemma {:induction false} QuietActs(g: Setting, others: seq<seq<Incoming>>, d: Device, from: nat, asked: nat)
    requires AllQuiet(g, others)
    ensures BlockTransfer.Acts(OthersAct(ReceiverOf(g), others), d, from, asked).session == d.session
    decreases asked - from
  {
    if from <= asked {
      AllQuietKeep(g, d, Before(others, from));
      QuietActs(g, others, OthersAct(ReceiverOf(g), others)(d, from), from + 1, asked);
    }
  }

  // ---- The lag ----

  /** The accessory expects the next request, and is `lag` replies ahead of the one the controller expects. */
  predicate Lags(e: Ends, lag: nat)
  {
    e.device.session == Some(Session(e.end.keys, e.end.send, (e.end.recv + lag) % U64))
  }

  ghost predicate CallFits(g: Setting, me: nat, call: Call)
  {
    BatchFits(call.reqs) && Foreign(call.others, me) && AllQuiet(g, call.others)
  }

  lemma LagStep(recv: u64, lag: nat)
    ensures Next((recv + lag) % U64) == (recv + (lag + 1)) % U64 == (Next(recv) + lag) % U64
  {
    NextCounts(recv + lag);
    ModAdd(recv + 1, lag, U64);
  }

  /** A pull that completes has this reply, if its blocks can be told apart. */
  predicate Pulls(f: BlockTransfer.Framing, outcome: BlockTransfer.Outcome, reply: bytes)
  {
    BlockTransfer.Sound(f, reply) && outcome.Complete? ==> outcome == BlockTransfer.Complete(BlockTransfer.Changed, reply)
  }

  /** The accessory expects the request the controller sends next. */
  predicate Meets(e: Ends)
  {
    e.device.session.Some? && e.device.session.value.keys == e.end.keys && e.device.session.value.recv == e.end.send
  }

  /**
   * A call is served whatever becomes of its reply: both of the accessory's counters and the controller's send
   * counter move, and the controller opens what it pulled under its receive counter.
   */
  predicate Serves(c: Suite, f: BlockTransfer.Framing, e: Ends, call: Call, p: Posted)
    requires Meets(e)
  {
    var s := e.device.session.value;
    && p.end.keys == e.end.keys && p.end.send == Next(e.end.send)
    && p.device.session == Some(Session(s.keys, Next(s.recv), Next(s.send)))
    && Pulls(f, p.outcome, SealedReply(c, s, e.device.bulb, call.reqs))
    && (p.result, p.end.recv) == PostResult(c, e.end.keys, e.end.recv, p.outcome)
  }

  ghost predicate AlwaysServes(g: Setting, me: nat, post: Caller)
  {
    forall e: Ends, call: Call :: CallFits(g, me, call) && Meets(e) ==> Serves(g.suite, g.framing, e, call, post(e, call))
  }

  lemma CallServed(g: Setting, me: nat, e: Ends, call: Call)
    requires SealLaw(g.suite) && BlockTransfer.ValidFraming(g.framing) && CallFits(g, me, call) && Meets(e)
    ensures Serves(g.suite, g.framing, e, call, Post(g.suite, g, me, e.end, e.device, Encoded(call.reqs), call.others))
  {
    var s := e.device.session.value;
    BatchReceived(g, e.device, me, seq(|call.reqs|, _ => 0), call.reqs);
    ReplyLags(g, me, call, e.device, ServedDevice(g, e.device, me, call.reqs), SealedReply(g.suite, s, e.device.bulb, call.reqs));
  }

  lemma CallerServes(g: Setting, me: nat)
    requires SealLaw(g.suite) && BlockTransfer.ValidFraming(g.framing)
    ensures AlwaysServes(g, me, CallerOf(g, me))
  {
    forall e: Ends, call: Call | CallFits(g, me, call) && Meets(e)
      ensures Serves(g.suite, g.framing, e, call, CallerOf(g, me)(e, call))
    {
      CallServed(g, me, e, call);
    }
  }

  /** Pulling a reply leaves the session as serving it did. */
  lemma ReplyLags(g: Setting, me: nat, call: Call, d: Device, served: Device, reply: bytes)
    requires BlockTransfer.ValidFraming(g.framing) && CallFits(g, me, call)
    requires served.cache == BlockTransfer.Respond(g.framing, d.cache, me, BlockTransfer.Changed, reply).0
    ensures var first := BlockTransfer.Respond(g.framing, d.cache, me, BlockTransfer.Changed, reply).1;
            var p := BlockTransfer.Pull(Asking(ReceiverOf(g), me, call.others), served, first);
            p.state.session == served.session && Pulls(g.framing, p.outcome, reply)
  {
    ReceiveTransfers(g, me);
    ReplyPulled(ReceiverOf(g), g.framing, me, call.others, d.cache, served, BlockTransfer.Changed, reply);
    var first := BlockTransfer.Respond(g.framing, d.cache, me, BlockTransfer.Changed, reply).1;
    var p := BlockTransfer.Pull(Asking(ReceiverOf(g), me, call.others), served, first);
    QuietActs(g, call.others, Core(served), 1, p.asked);
  }

  ghost predicate AllFit(g: Setting, me: nat, calls: seq<Call>)
  {
    forall i :: 0 <= i < |calls| ==> CallFits(g, me, calls[i])
  }

  /** The controller's counter moves only if the call succeeds. */
  lemma CallLags(c: Suite, f: BlockTransfer.Framing, e: Ends, call: Call, p: Posted, lag: nat)
    requires Lags(e, lag) && Serves(c, f, e, call, p)
    ensures Lags(Ends(p.end, p.device), if p.result.Ok? then lag else lag + 1)
  {
    LagStep(e.end.recv, lag);
  }

  /** In every run from sessions in step, the controller has fallen behind by exactly the calls that failed. */
  lemma {:induction false} LagIsFailures(g: Setting, me: nat, post: Caller, e: Ends, calls: seq<Call>)
    requires AlwaysServes(g, me, post) && AllFit(g, me, calls) && Lags(e, 0)
    ensures Lags(AfterCalls(post, e, calls), Failures(post, e, calls))
  {
    if calls != [] {
      var n := |calls| - 1;
      LagIsFailures(g, me, post, e, calls[..n]);
      var before := AfterCalls(post, e, calls[..n]);
      CallLags(g.suite, g.framing, before, calls[n], post(before, calls[n]), Failures(post, e, calls[..n]));
    }
  }

  // ---- Which replies the controller can open ----

  /** Whatever was cut can be put together: replies go out whole, or in blocks of an expressible size. */
  predicate Expressible(f: BlockTransfer.Framing)
  {
    BlockTransfer.ValidFraming(f) && (f.blockwise.Some? ==> f.encodes(f.blockwise.value))
  }

  /** The nonces a reply is sealed and opened under are the same if and only if the lag is a multiple of 2^64. */
  lemma NoncesMeetExactly(recv: u64, lag: nat)
    ensures CounterNonce((recv + lag) % U64) == CounterNonce(recv) <==> lag % U64 == 0
  {
    CounterNonceInjective((recv + lag) % U64, recv);
    LagVanishes(recv, lag);
  }

  lemma LagVanishes(recv: u64, lag: nat)
    ensures (recv + lag) % U64 == recv <==> lag % U64 == 0
  {
    ModAdd(lag, recv, U64);
  }

  lemma FailuresStep(post: Caller, e: Ends, calls: seq<Call>, i: nat)
    requires i < |calls|
    ensures Failures(post, e, calls[..i + 1]) == Failures(post, e, calls[..i]) + (if PostOf(post, e, calls, i).result.Ok? then 0 else 1)
  {
    assert calls[..i + 1][..i] == calls[..i];
  }

  ghost predicate NoneFailed(post: Caller, e: Ends, calls: seq<Call>, i: nat)
    requires i <= |calls|
  {
    forall j :: 0 <= j < i ==> PostOf(post, e, calls, j).result.Ok?
  }

  lemma {:induction false} FailuresCount(post: Caller, e: Ends, calls: seq<Call>, i: nat)
    requires i <= |calls|
    ensures Failures(post, e, calls[..i]) <= i && (Failures(post, e, calls[..i]) == 0 <==> NoneFailed(post, e, calls, i))
  {
    if i > 0 {
      FailuresCount(post, e, calls, i - 1);
      FailuresStep(post, e, calls, i - 1);
    }
  }

  /**
   * In every run from sessions in step, the reply to call `i` is sealed under the nonce the controller opens it with
   * if and only if the calls that failed before it are a multiple of 2^64: below that many, if none did.
   */
  lemma ReplyNonceExactly(g: Setting, me: nat, e: Ends, calls: seq<Call>, i: nat)
    requires SealLaw(g.suite) && BlockTransfer.ValidFraming(g.framing) && AllFit(g, me, calls) && Lags(e, 0) && i < |calls|
    ensures var before := AfterCalls(CallerOf(g, me), e, calls[..i]);
            && Meets(before) && Serves(g.suite, g.framing, before, calls[i], PostOf(CallerOf(g, me), e, calls, i))
            && (CounterNonce(before.device.session.value.send) == CounterNonce(before.end.recv) <==>
                Failures(CallerOf(g, me), e, calls[..i]) % U64 == 0)
            && (Failures(CallerOf(g, me), e, calls[..i]) == 0 <==> NoneFailed(CallerOf(g, me), e, calls, i))
  {
    CallerServes(g, me);
    FailuresCount(CallerOf(g, me), e, calls, i);
    LagIsFailures(g, me, CallerOf(g, me), e, calls[..i]);
    LaggingNonces(AfterCalls(CallerOf(g, me), e, calls[..i]), Failures(CallerOf(g, me), e, calls[..i]));
  }

  lemma LaggingNonces(e: Ends, lag: nat)
    requires Lags(e, lag)
    ensures CounterNonce(e.device.session.value.send) == CounterNonce(e.end.recv) <==> lag % U64 == 0
  {
    NoncesMeetExactly(e.end.recv, lag);
  }

  /** A call succeeds exactly if its pull completed on sessions in step. */
  ghost predicate Succeeds(e: Ends, call: Call, p: Posted, lag: nat)
  {
    && CallSucceeded(p, lag)
    && (p.result.Ok? ==> p.result.value == EncodeResponses(Answers(Answering(), e.device.bulb, call.reqs)))
  }

  lemma OpensExactly(c: Suite, key: bytes, n: bytes, n': bytes, p: bytes)
    requires SealLaw(c) && NonceLaw(c) && |n| == |n'| == 12
    ensures c.open(key, n', c.seal(key, n, p)) == if n == n' then Some(p) else None
  {
  }

  lemma CallOpens(c: Suite, f: BlockTransfer.Framing, e: Ends, call: Call, p: Posted, lag: nat)
    requires SealLaw(c) && NonceLaw(c) && Expressible(f) && Lags(e, lag) && lag < U64 && Serves(c, f, e, call, p)
    ensures Succeeds(e, call, p, lag)
  {
    LaggingNonces(e, lag);
    var s := e.device.session.value;
    OpensExactly(c, s.keys.read, CounterNonce(s.send), CounterNonce(e.end.recv), EncodeResponses(Answers(Answering(), e.device.bulb, call.reqs)));
  }

  ghost predicate AllPulled(post: Caller, e: Ends, calls: seq<Call>, i: nat)
    requires i <= |calls|
  {
    forall j :: 0 <= j < i ==> PostOf(post, e, calls, j).outcome.Complete?
  }

  lemma CallSucceeds(g: Setting, me: nat, post: Caller, e: Ends, calls: seq<Call>, i: nat)
    requires AlwaysServes(g, me, post) && AllFit(g, me, calls) && Lags(e, 0) && i < |calls| && i < U64
    requires SealLaw(g.suite) && NonceLaw(g.suite) && Expressible(g.framing)
    ensures Succeeds(AfterCalls(post, e, calls[..i]), calls[i], PostOf(post, e, calls, i), Failures(post, e, calls[..i]))
  {
    LagIsFailures(g, me, post, e, calls[..i]);
    FailuresCount(post, e, calls, i);
    CallOpens(g.suite, g.framing, AfterCalls(post, e, calls[..i]), calls[i], PostOf(post, e, calls, i), Failures(post, e, calls[..i]));
  }

  /** Each of the first `i` calls succeeds exactly if its pull completed and no call before it failed. */
  ghost predicate EachSucceeds(post: Caller, e: Ends, calls: seq<Call>, i: nat)
    requires i <= |calls|
  {
    forall j :: 0 <= j < i ==> CallSucceeded(PostOf(post, e, calls, j), Failures(post, e, calls[..j]))
  }

  predicate CallSucceeded(p: Posted, lag: nat)
  {
    p.result.Ok? <==> p.outcome.Complete? && lag == 0
  }

  lemma {:induction false} NoneFailedExactly(post: Caller, e: Ends, calls: seq<Call>, i: nat)
    requires i <= |calls| && EachSucceeds(post, e, calls, i)
    ensures Failures(post, e, calls[..i]) == 0 <==> AllPulled(post, e, calls, i)
  {
    if i > 0 {
      NoneFailedExactly(post, e, calls, i - 1);
      assert CallSucceeded(PostOf(post, e, calls, i - 1), Failures(post, e, calls[..i - 1]));
      FailuresStep(post, e, calls, i - 1);
    }
  }

  /**
   * With a cipher that opens a frame only under its own nonce: a call succeeds, with the answers to its batch, if and
   * only if its own pull and every pull before it on the session completed. One lost reply stops the session, until
   * a new Pair Verify sets both counters to zero.
   */
  lemma SucceedsExactly(g: Setting, me: nat, e: Ends, calls: seq<Call>, i: nat)
    requires SealLaw(g.suite) && NonceLaw(g.suite) && Expressible(g.framing) && AllFit(g, me, calls) && Lags(e, 0) && i < |calls| && i < U64
    ensures var p := PostOf(CallerOf(g, me), e, calls, i);
            && (p.result.Ok? <==> AllPulled(CallerOf(g, me), e, calls, i + 1))
            && (p.result.Ok? ==>
                  var bulb := AfterCalls(CallerOf(g, me), e, calls[..i]).device.bulb;
                  p.result.value == EncodeResponses(Answers(Answering(), bulb, calls[i].reqs)))
  {
    CallerServes(g, me);
    forall j | 0 <= j <= i
      ensures Succeeds(AfterCalls(CallerOf(g, me), e, calls[..j]), calls[j], PostOf(CallerOf(g, me), e, calls, j), Failures(CallerOf(g, me), e, calls[..j]))
    {
      CallSucceeds(g, me, CallerOf(g, me), e, calls, j);
    }
    NoneFailedExactly(CallerOf(g, me), e, calls, i);
  }

  // ---- A reply that is lost ----

  /** The datagram that starts another peer's Pair Verify. */
  function Knock(c: Suite, peer: nat, scalar: bytes, eph: bytes): Incoming
  {
    Incoming(peer, PairVerifyPath, Tlv8.EncodeAll(PairVerify.M1Items(c, scalar)), None, [], 0, eph)
  }

  lemma KnockState(c: Suite, scalar: bytes)
    ensures SetupRuns.MessageState(Tlv8.EncodeAll(PairVerify.M1Items(c, scalar))) == Some(1)
  {
    var items := PairVerify.M1Items(c, scalar);
    Pairing.MessageParses(items);
    Pairing.LookupState(items, 1);
  }

  /** It takes over the cache: its answer is longer than the smallest block. */
  lemma KnockEvicts(g: Setting, d: Device, peer: nat, scalar: bytes, eph: bytes)
    requires DhLaw(g.suite) && g.framing.blockwise == Some(16)
    ensures var next := Receive(g, d, Knock(g.suite, peer, scalar, eph)).0;
            next.cache.Some? && next.cache.value.peer == peer
  {
    KnockState(g.suite, scalar);
    PairVerify.ServesM1(g.suite, g.setup.me, scalar, eph);
    var shared := g.suite.xShared(eph, g.suite.xPublic(scalar));
    var items := PairVerify.M2Items(g.suite, g.setup.me, PairVerify.PvKey(g.suite, shared), g.suite.xPublic(eph), g.suite.xPublic(scalar));
    assert |items[1].value| == 32;
    assert |Tlv8.EncodeAll(items)| > 16 by {
      assert items[1..][0] == items[1];
      assert |Tlv8.EncodeAll(items)| >= |Tlv8.EncodeAll(items[1..])| >= |Tlv8.Encode(items[1].ty, items[1].value)|;
    }
  }

  /** A pull whose reply another peer's has replaced gets no answer to its first continuation. */
  lemma EvictedPull(receive: Receiver, f: BlockTransfer.Framing, me: nat, m: Incoming, served: Device, cache: Option<BlockTransfer.Cached>,
                    code: Code, reply: bytes)
    requires f.blockwise == Some(16) && f.encodes(16) && |reply| > 16 && ServesFromCache(receive, f, me)
    requires receive(served, m).0.cache.Some? && receive(served, m).0.cache.value.peer != me
    ensures BlockTransfer.Pull(Asking(receive, me, [[], [m]]), served, BlockTransfer.Respond(f, cache, me, code, reply).1).outcome == BlockTransfer.NoAnswer
  {
    var before := receive(served, m).0;
    assert [m][1..] == [] && ReceiveAll(receive, served, [m]) == ReceiveAll(receive, before, []) == before;
    assert Before([[], [m]], 1) == [m];
    assert Continued(f, me, before, 1, receive(before, Continuation(me, 1)));
  }

  lemma ReplyIsLong(c: Suite, s: Session, bulb: Bulb, reqs: seq<Request>)
    requires SealLaw(c) && reqs != []
    ensures |SealedReply(c, s, bulb, reqs)| > 16
  {
    AnswersAt(Answering(), bulb, reqs, 0);
  }

  /**
   * A run in which it happens: with blocks of 16 bytes, another peer starts a Pair Verify while the controller pulls
   * the reply to any batch. The call fails, and from then on the sessions are one reply apart.
   */
  lemma LostReply(g: Setting, me: nat, e: Ends, reqs: seq<Request>, peer: nat, scalar: bytes, eph: bytes) returns (call: Call)
    requires SealLaw(g.suite) && DhLaw(g.suite) && g.framing.blockwise == Some(16) && g.framing.encodes(16)
    requires BatchFits(reqs) && reqs != [] && peer != me && Lags(e, 0)
    ensures call.reqs == reqs && CallFits(g, me, call)
    ensures var p := CallerOf(g, me)(e, call);
            p.outcome == BlockTransfer.NoAnswer && p.result.Err? && Lags(AfterCall(CallerOf(g, me), e, call), 1)
  {
    var m := Knock(g.suite, peer, scalar, eph);
    call := Call(reqs, [[], [m]]);
    KnockFits(g, me, reqs, m, peer, scalar, eph);
    LostPull(g, me, e, reqs, m, peer, scalar, eph);
    CallerServes(g, me);
    UnansweredLags(g, me, CallerOf(g, me), e, call);
  }

  lemma UnansweredLags(g: Setting, me: nat, post: Caller, e: Ends, call: Call)
    requires AlwaysServes(g, me, post) && CallFits(g, me, call) && Lags(e, 0) && post(e, call).outcome == BlockTransfer.NoAnswer
    ensures post(e, call).result.Err? && Lags(AfterCall(post, e, call), 1)
  {
    CallLags(g.suite, g.framing, e, call, post(e, call), 0);
  }

  lemma KnockFits(g: Setting, me: nat, reqs: seq<Request>, m: Incoming, peer: nat, scalar: bytes, eph: bytes)
    requires BatchFits(reqs) && peer != me && m == Knock(g.suite, peer, scalar, eph)
    ensures CallFits(g, me, Call(reqs, [[], [m]]))
  {
    KnockState(g.suite, scalar);
  }

  lemma LostPull(g: Setting, me: nat, e: Ends, reqs: seq<Request>, m: Incoming, peer: nat, scalar: bytes, eph: bytes)
    requires SealLaw(g.suite) && DhLaw(g.suite) && g.framing.blockwise == Some(16) && g.framing.encodes(16)
    requires BatchFits(reqs) && reqs != [] && peer != me && Lags(e, 0) && m == Knock(g.suite, peer, scalar, eph)
    ensures Post(g.suite, g, me, e.end, e.device, Encoded(reqs), [[], [m]]).outcome == BlockTransfer.NoAnswer
  {
    var s := e.device.session.value;
    BatchReceived(g, e.device, me, seq(|reqs|, _ => 0), reqs);
    var served := ServedDevice(g, e.device, me, reqs);
    KnockEvicts(g, served, peer, scalar, eph);
    ReplyIsLong(g.suite, s, e.device.bulb, reqs);
    ReceiveServesFromCache(g, me);
    EvictedPull(ReceiverOf(g), g.framing, me, m, served, e.device.cache, BlockTransfer.Changed, SealedReply(g.suite, s, e.device.bulb, reqs));
  }
}
