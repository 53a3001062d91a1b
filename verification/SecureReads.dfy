/** Encrypted reads and writes over a link that drops: re-verify, retry, and never reuse a counter. */
module SecureReads {
  import opened Bytes
  import opened Primitives
  import opened PairVerify
  import opened Sessions
  import opened BlePdu
  import Tlv8

  const MAX_REVIVE_RETRIES := 3

  /** What the link does during one turn of the retry loop. */
  datatype Turn = Turn(
    before: nat,                      // generation read before the request
    verified: Result<Keys, BleError>, // what a Pair Verify would yield
    verifiedAt: nat,                  // generation read after that Pair Verify
    writesLeft: nat,                  // how many fragment writes succeed
    replies: seq<Option<bytes>>,      // what the reads return
    after: nat)                       // generation read after a failed request

  /** `Secure`, with the number of Pair Verify runs so far and of fragments sealed under the current one. */
  datatype Secure = Secure(mint: nat, sealed: nat, keys: Keys, send: u64, recv: u64, tid: byte, generation: nat)

  datatype Query = Query(op: byte, iid: u16, body: bytes, fragSize: nat)

  /**
   * One request as issued: which session, under which key and transaction id, how many fragments the session
   * had sealed before it, its plaintext fragments, and the frames sealed from them.
   */
  datatype Issued = Issued(mint: nat, key: bytes, tid: byte, firstSealed: nat, plain: seq<bytes>, frames: seq<bytes>)

  datatype Exchanged = Exchanged(secure: Secure, issued: seq<Issued>, result: Result<Response, BleError>)

  function NextTid(tid: byte): byte
  {
    (tid + 1) % 256
  }

  /** A no-op while the link generation has not moved past the session's. */
  function Revive(s: Secure, t: Turn): Result<Secure, BleError>
  {
    if t.before <= s.generation then Ok(s)
    else if t.verified.Err? then Err(t.verified.error)
    else Ok(Secure(s.mint + 1, 0, t.verified.value, 0, 0, 0, t.verifiedAt))
  }

  /** The request a query makes on the current session, with the frames the writes let it seal. */
  function IssuedBy(c: Suite, s: Secure, q: Query, writesLeft: nat): Issued
  {
    var tid := NextTid(s.tid);
    var frags := RequestFragments(q.op, tid, q.iid, q.body, q.fragSize);
    Issued(s.mint, s.keys.write, tid, s.sealed, frags, FramesSealed(c, s.keys.write, s.send, frags, writesLeft))
  }

  /** One sealed request on the current session. */
  function Attempt(c: Suite, s: Secure, q: Query, t: Turn): (Secure, Issued, Result<Response, BleError>)
  {
    var issued := IssuedBy(c, s, q, t.writesLeft);
    var e := ExchangeFrom(c, s.keys, s.send, s.recv, issued.plain, t.writesLeft, t.replies);
    (Secure(s.mint, s.sealed + |issued.frames|, s.keys, e.send, e.recv, issued.tid, s.generation), issued, e.result)
  }

  type Attempter = (Secure, Turn) -> (Secure, Issued, Result<Response, BleError>)

  function Requester(c: Suite, q: Query): Attempter
  {
    (s: Secure, t: Turn) => Attempt(c, s, q, t)
  }

  /** The retry loop after `tries` failed attempts. The script runs out when the caller gives up waiting. */
  function RetryLoop(attempt: Attempter, s: Secure, turns: seq<Turn>, tries: nat): Exchanged
    decreases |turns|
  {
    if turns == [] then Exchanged(s, [], Err(Gatt))
    else
      var t := turns[0];
      match Revive(s, t)
      case Err(e) => Exchanged(s, [], Err(e))
      case Ok(live) =>
        var (next, issued, r) := attempt(live, t);
        if r.Err? && tries + 1 < MAX_REVIVE_RETRIES && t.after > next.generation then
          var rest := RetryLoop(attempt, next, turns[1..], tries + 1);
          rest.(issued := [issued] + rest.issued)
        else Exchanged(next, [issued], r)
  }

  /** The same loop, appending to a log as it goes. */
  function RetryFrom(attempt: Attempter, s: Secure, turns: seq<Turn>, tries: nat, log: seq<Issued>): Exchanged
    decreases |turns|
  {
    if turns == [] then Exchanged(s, log, Err(Gatt))
    else
      match Revive(s, turns[0])
      case Err(e) => Exchanged(s, log, Err(e))
      case Ok(live) =>
        var (next, issued, r) := attempt(live, turns[0]);
        if r.Err? && tries + 1 < MAX_REVIVE_RETRIES && turns[0].after > next.generation
        then RetryFrom(attempt, next, turns[1..], tries + 1, log + [issued])
        else Exchanged(next, log + [issued], r)
  }

  lemma {:induction false} RetryFromIsLoop(attempt: Attempter, s: Secure, turns: seq<Turn>, tries: nat, log: seq<Issued>)
    ensures var o := RetryLoop(attempt, s, turns, tries);
            RetryFrom(attempt, s, turns, tries, log) == o.(issued := log + o.issued)
    decreases |turns|
  {
    if turns == [] {
      assert log + [] == log;
    } else if Revive(s, turns[0]).Ok? {
      var (next, issued, r) := attempt(Revive(s, turns[0]).value, turns[0]);
      if r.Err? && tries + 1 < MAX_REVIVE_RETRIES && turns[0].after > next.generation {
        RetryFromIsLoop(attempt, next, turns[1..], tries + 1, log + [issued]);
        var rest := RetryLoop(attempt, next, turns[1..], tries + 1);
        assert log + [issued] + rest.issued == log + ([issued] + rest.issued);
      }
    }
  }

  /** The shared session behind its lock. */
  class SecureLink {
    const suite: Suite
    var session: BleSession
    var tid: byte
    var generation: nat
    ghost var mint: nat
    ghost var sealed: nat

    ghost predicate Valid()
      reads this, session
    {
      session.suite == suite
    }

    ghost function Model(): Secure
      reads this, session
    {
      Secure(mint, sealed, session.keys, session.sendCounter, session.recvCounter, tid, generation)
    }

    constructor (suite: Suite, keys: Keys, generation: nat)
      ensures Valid() && fresh(session) && Model() == Secure(0, 0, keys, 0, 0, 0, generation)
    {
      this.suite := suite;
      session := new BleSession(suite, keys);
      tid := 0;
      this.generation := generation;
      mint := 0;
      sealed := 0;
    }

    /** Adopts the keys of a fresh Pair Verify when the link has reconnected. */
    method ReviveIfStale(t: Turn) returns (r: Result<(), BleError>)
      requires Valid()
      modifies this
      ensures Valid() && (session == old(session) || fresh(session))
      ensures match Revive(old(Model()), t)
              case Err(e) => r == Err(e) && Model() == old(Model())
              case Ok(live) => r == Ok(()) && Model() == live
    {
      if t.before <= generation { return Ok(()); }
      if t.verified.Err? { return Err(t.verified.error); }
      session := new BleSession(suite, t.verified.value);
      tid := 0;
      generation := t.verifiedAt;
      mint := mint + 1;
      sealed := 0;
      return Ok(());
    }

    /** The frames that reached the link are those of the request, up to the write that failed. */
    method Request(q: Query, t: Turn) returns (r: Result<Response, BleError>, ghost issued: Issued, written: seq<bytes>)
      requires Valid()
      modifies this`tid, this`sealed, session
      ensures Valid() && session == old(session)
      ensures (Model(), issued, r) == Requester(suite, q)(old(Model()), t)
      ensures written == issued.frames[..Min(|issued.frames|, t.writesLeft)]
    {
      tid := (tid + 1) % 256;
      var gatt := new GattLink(t.replies, t.writesLeft);
      ghost var frags := RequestFragments(q.op, tid, q.iid, q.body, q.fragSize);
      ghost var frames;
      r, frames := RequestSecure(gatt, session, q.op, tid, q.iid, q.body, q.fragSize);
      issued := Issued(mint, session.keys.write, tid, sealed, frags, frames);
      sealed := sealed + |frames|;
      written := gatt.written;
    }

    /** Re-verify if stale, send, and retry a failed request only if the link has reconnected meanwhile. */
    method Exchange(q: Query, turns: seq<Turn>) returns (r: Result<Response, BleError>, ghost log: seq<Issued>)
      requires Valid()
      modifies this, session
      ensures Valid() && (session == old(session) || fresh(session))
      ensures Exchanged(Model(), log, r) == RetryLoop(Requester(suite, q), old(Model()), turns, 0)
    {
      log := [];
      ghost var attempt := Requester(suite, q);
      ghost var all := RetryLoop(attempt, Model(), turns, 0);
      RetryFromIsLoop(attempt, Model(), turns, 0, []);
      var attempts := 0;
      var i := 0;
      while true
        invariant Valid() && (session == old(session) || fresh(session))
        invariant 0 <= i <= |turns| && attempts == i
        invariant RetryFrom(attempt, Model(), turns[i..], attempts, log) == all
        decreases |turns| - i
      {
        if i == |turns| { return Err(Gatt), log; }
        var t := turns[i];
        assert turns[i..][0] == t && turns[i..][1..] == turns[i + 1..];
        var revived := ReviveIfStale(t);
        if revived.Err? { return Err(revived.error), log; }
        ghost var issued;
        var written;
        r, issued, written := Request(q, t);
        log := log + [issued];
        i := i + 1;
        if r.Ok? { return r, log; }
        attempts := attempts + 1;
        if !(attempts < MAX_REVIVE_RETRIES && t.after > generation) { return r, log; }
      }
    }

    /** `read_char_raw`: an instance id over 16 bits fails before anything is sent. */
    method ReadCharRaw(iid: nat, fragSize: nat, turns: seq<Turn>) returns (r: Result<bytes, BleError>, ghost log: seq<Issued>)
      requires Valid()
      modifies this, session
      ensures Valid() && (session == old(session) || fresh(session))
      ensures iid > 0xFFFF ==> r == Err(NotFound) && log == [] && Model() == old(Model())
      ensures iid <= 0xFFFF ==>
                var o := RetryLoop(Requester(suite, Query(0x03, iid, [], fragSize)), old(Model()), turns, 0);
                && Model() == o.secure && log == o.issued
                && r == match o.result
                        case Err(e) => Err(e)
                        case Ok(resp) => ValueParam(resp.body)
    {
      if iid > 0xFFFF { return Err(NotFound), []; }
      var resp;
      resp, log := Exchange(Query(0x03, iid, [], fragSize), turns);
      if resp.Err? { return Err(resp.error), log; }
      r := ValueParam(resp.value.body);
    }

    /** `write_char_raw`: a non-zero status is an error that is not retried. */
    method WriteCharRaw(iid: nat, value: bytes, fragSize: nat, turns: seq<Turn>) returns (r: Result<(), BleError>, ghost log: seq<Issued>)
      requires Valid()
      modifies this, session
      ensures Valid() && (session == old(session) || fresh(session))
      ensures iid > 0xFFFF ==> r == Err(NotFound) && log == [] && Model() == old(Model())
      ensures iid <= 0xFFFF ==>
                var o := RetryLoop(Requester(suite, Query(0x02, iid, WriteBody(value), fragSize)), old(Model()), turns, 0);
                && Model() == o.secure && log == o.issued
                && r == match o.result
                        case Err(e) => Err(e)
                        case Ok(resp) => if resp.status != 0 then Err(RequestRejected(resp.status)) else Ok(())
    {
      if iid > 0xFFFF { return Err(NotFound), []; }
      var resp;
      resp, log := Exchange(Query(0x02, iid, WriteBody(value), fragSize), turns);
      if resp.Err? { return Err(resp.error), log; }
      if resp.value.status != 0 { return Err(RequestRejected(resp.value.status)), log; }
      r := Ok(());
    }
  }

  const RETURN_RESPONSE: byte := 0x09
  const VALUE: byte := 0x01

  function WriteBody(value: bytes): bytes
  {
    Tlv8.EncodeAll([Tlv8.Item(RETURN_RESPONSE, [1]), Tlv8.Item(VALUE, value)])
  }

  function ValueParam(body: bytes): Result<bytes, BleError>
  {
    match Tlv8.Parse(body)
    case Err(_) => Err(MalformedPdu)
    case Ok(items) =>
      match Tlv8.Get(items, VALUE)
      case None => Err(MalformedPdu)
      case Some(v) => Ok(v)
  }

  // ---- Every run of requests ----

  /** A read or write starts at no failed tries; a request without a retry loop starts at the last one. */
  datatype Operation = Operation(query: Query, turns: seq<Turn>, tries: nat)

  function RunAll(c: Suite, s: Secure, ops: seq<Operation>): (Secure, seq<Issued>)
    decreases |ops|
  {
    if ops == [] then (s, [])
    else
      var o := RetryLoop(Requester(c, ops[0].query), s, ops[0].turns, ops[0].tries);
      var (end, rest) := RunAll(c, o.secure, ops[1..]);
      (end, o.issued + rest)
  }

  /** `b` seals nothing that `a` sealed: it runs on a later session, or further on in the same one. */
  predicate Before(a: Issued, b: Issued)
  {
    a.mint < b.mint || (a.mint == b.mint && a.key == b.key && a.firstSealed + |a.frames| <= b.firstSealed)
  }

  predicate NotYetSealed(s: Secure, i: Issued)
  {
    s.mint < i.mint || (s.mint == i.mint && s.keys.write == i.key && s.sealed <= i.firstSealed)
  }

  predicate AlreadySealed(i: Issued, s: Secure)
  {
    i.mint < s.mint || (i.mint == s.mint && i.key == s.keys.write && i.firstSealed + |i.frames| <= s.sealed)
  }

  /** The issued requests follow one another between two session states. */
  ghost predicate Chain(from: Secure, issued: seq<Issued>, to: Secure)
  {
    && (from.mint < to.mint || (from.mint == to.mint && from.keys == to.keys && from.sealed <= to.sealed))
    && (forall i :: 0 <= i < |issued| ==> NotYetSealed(from, issued[i]) && AlreadySealed(issued[i], to))
    && (forall i, j :: 0 <= i < j < |issued| ==> Before(issued[i], issued[j]))
  }

  lemma ChainJoin(a: Secure, xs: seq<Issued>, b: Secure, ys: seq<Issued>, c: Secure)
    requires Chain(a, xs, b) && Chain(b, ys, c)
    ensures Chain(a, xs + ys, c)
  {
    forall i, j | 0 <= i < j < |xs + ys|
      ensures Before((xs + ys)[i], (xs + ys)[j])
    {
      if i < |xs| <= j {
        assert AlreadySealed(xs[i], b) && NotYetSealed(b, ys[j - |xs|]);
      }
    }
  }

  /** Fragment number `n` of a session as sealed under its key. */
  type Sealer = (bytes, nat, bytes) -> bytes

  function SealerOf(c: Suite): Sealer
  {
    (key: bytes, n: nat, plain: bytes) => Frame(c, key, n, plain)
  }

  /** Frame `k` of a request is its fragment `k`, sealed as the session's fragment `firstSealed + k`. */
  ghost predicate SealedInTurn(seal: Sealer, i: Issued)
  {
    && |i.frames| <= |i.plain|
    && forall k :: 0 <= k < |i.frames| ==> i.frames[k] == seal(i.key, i.firstSealed + k, i.plain[k])
  }

  ghost predicate AllInTurn(seal: Sealer, issued: seq<Issued>)
  {
    forall i :: 0 <= i < |issued| ==> SealedInTurn(seal, issued[i])
  }

  /** The session's counter counts the fragments it has sealed. */
  predicate Counted(s: Secure)
  {
    s.send == s.sealed % U64
  }

  /** A request on a session in good order takes up where it stands and leaves it in good order. */
  ghost predicate TurnLaw(attempt: Attempter, seal: Sealer, good: Secure -> bool)
  {
    && (forall s: Secure, t: Turn :: good(s) ==> TurnKeeps(seal, good, s, attempt(s, t).0, attempt(s, t).1))
    && (forall mint: nat, keys: Keys, generation: nat :: good(Secure(mint, 0, keys, 0, 0, 0, generation)))
  }

  ghost predicate TurnKeeps(seal: Sealer, good: Secure -> bool, s: Secure, next: Secure, issued: Issued)
  {
    good(next) && Chain(s, [issued], next) && SealedInTurn(seal, issued)
  }

  lemma FramesInTurn(c: Suite, key: bytes, sealed: nat, send: u64, frags: seq<bytes>, writesLeft: nat, k: nat)
    requires send == sealed % U64 && k < |FramesSealed(c, key, send, frags, writesLeft)|
    ensures FramesSealed(c, key, send, frags, writesLeft)[k] == SealerOf(c)(key, sealed + k, frags[k])
  {
    ModAdd(sealed, k, U64);
    assert SealedFrom(c, key, send, frags)[k] == Frame(c, key, send + k, frags[k]);
  }

  lemma AllFramesInTurn(c: Suite, key: bytes, sealed: nat, send: u64, frags: seq<bytes>, writesLeft: nat)
    requires send == sealed % U64
    ensures var frames := FramesSealed(c, key, send, frags, writesLeft);
            forall k :: 0 <= k < |frames| ==> frames[k] == SealerOf(c)(key, sealed + k, frags[k])
  {
    forall k | 0 <= k < |FramesSealed(c, key, send, frags, writesLeft)|
      ensures FramesSealed(c, key, send, frags, writesLeft)[k] == SealerOf(c)(key, sealed + k, frags[k])
    {
      FramesInTurn(c, key, sealed, send, frags, writesLeft, k);
    }
  }

  lemma TurnSeals(c: Suite, s: Secure, q: Query, writesLeft: nat)
    requires Counted(s)
    ensures SealedInTurn(SealerOf(c), IssuedBy(c, s, q, writesLeft))
  {
    var frags := RequestFragments(q.op, NextTid(s.tid), q.iid, q.body, q.fragSize);
    AllFramesInTurn(c, s.keys.write, s.sealed, s.send, frags, writesLeft);
  }

  lemma OneTurn(c: Suite, s: Secure, q: Query, t: Turn)
    requires Counted(s)
    ensures var (next, issued, _) := Attempt(c, s, q, t);
            TurnKeeps(SealerOf(c), Counted, s, next, issued)
  {
    TurnSeals(c, s, q, t.writesLeft);
    ModAdd(s.sealed, |IssuedBy(c, s, q, t.writesLeft).frames|, U64);
  }

  lemma RequesterKeeps(c: Suite, q: Query)
    ensures TurnLaw(Requester(c, q), SealerOf(c), Counted)
  {
    forall s: Secure, t: Turn | Counted(s)
      ensures TurnKeeps(SealerOf(c), Counted, s, Requester(c, q)(s, t).0, Requester(c, q)(s, t).1)
    {
      OneTurn(c, s, q, t);
    }
  }

  lemma RevivedTurn(attempt: Attempter, seal: Sealer, good: Secure -> bool, s: Secure, t: Turn)
    requires TurnLaw(attempt, seal, good) && good(s) && Revive(s, t).Ok?
    ensures var (next, issued, _) := attempt(Revive(s, t).value, t); TurnKeeps(seal, good, s, next, issued)
  {
    var live := Revive(s, t).value;
    var (next, issued, _) := attempt(live, t);
    assert TurnKeeps(seal, good, live, next, issued);
    ChainJoin(s, [], live, [issued], next);
    assert [] + [issued] == [issued];
  }

  lemma {:induction false} LoopChains(attempt: Attempter, seal: Sealer, good: Secure -> bool, s: Secure, turns: seq<Turn>, tries: nat)
    requires TurnLaw(attempt, seal, good) && good(s)
    ensures var o := RetryLoop(attempt, s, turns, tries);
            Chain(s, o.issued, o.secure) && AllInTurn(seal, o.issued) && good(o.secure)
    decreases |turns|
  {
    if turns != [] && Revive(s, turns[0]).Ok? {
      var t := turns[0];
      RevivedTurn(attempt, seal, good, s, t);
      var (next, issued, r) := attempt(Revive(s, t).value, t);
      if r.Err? && tries + 1 < MAX_REVIVE_RETRIES && t.after > next.generation {
        LoopChains(attempt, seal, good, next, turns[1..], tries + 1);
        var rest := RetryLoop(attempt, next, turns[1..], tries + 1);
        ChainJoin(s, [issued], next, rest.issued, rest.secure);
      }
    }
  }

  lemma {:induction false} RunChains(c: Suite, s: Secure, ops: seq<Operation>)
    requires Counted(s)
    ensures var (end, issued) := RunAll(c, s, ops);
            Chain(s, issued, end) && AllInTurn(SealerOf(c), issued) && Counted(end)
    decreases |ops|
  {
    if ops != [] {
      var attempt := Requester(c, ops[0].query);
      RequesterKeeps(c, ops[0].query);
      LoopChains(attempt, SealerOf(c), Counted, s, ops[0].turns, ops[0].tries);
      var o := RetryLoop(attempt, s, ops[0].turns, ops[0].tries);
      RunChains(c, o.secure, ops[1..]);
      var (end, rest) := RunAll(c, o.secure, ops[1..]);
      ChainJoin(s, o.issued, o.secure, rest, end);
    }
  }

  /** The nonce frame `k` of a request is sealed under. */
  function NonceOf(i: Issued, k: nat): bytes
  {
    CounterNonce((i.firstSealed + k) % U64)
  }

  /**
   * Frame `k` of one request and frame `l` of a later one, or of the same one: each is its fragment sealed under
   * its session's key and the nonce of its place in the session; and on one session the key is one and the same
   * and the nonces differ, short of 2^64 frames between them.
   */
  ghost predicate NeverShared(c: Suite, a: Issued, k: nat, b: Issued, l: nat)
    requires k < |a.frames| && l < |b.frames|
  {
    && k < |a.plain| && a.frames[k] == c.seal(a.key, NonceOf(a, k), a.plain[k])
    && l < |b.plain| && b.frames[l] == c.seal(b.key, NonceOf(b, l), b.plain[l])
    && (a.mint == b.mint ==>
          && a.key == b.key && a.firstSealed + k < b.firstSealed + l
          && (NonceOf(a, k) == NonceOf(b, l) ==> b.firstSealed + l - (a.firstSealed + k) >= U64))
  }

  /** Over every run of reads, writes, failures, retries and re-verifies from a fresh session, no two frames share a nonce. */
  lemma CountersNeverReused(c: Suite, keys: Keys, generation: nat, ops: seq<Operation>, i: nat, k: nat, j: nat, l: nat)
    requires var (_, issued) := RunAll(c, Secure(0, 0, keys, 0, 0, 0, generation), ops);
             i <= j < |issued| && k < |issued[i].frames| && l < |issued[j].frames| && (i == j ==> k < l)
    ensures var (end, issued) := RunAll(c, Secure(0, 0, keys, 0, 0, 0, generation), ops);
            Counted(end) && NeverShared(c, issued[i], k, issued[j], l)
  {
    var s := Secure(0, 0, keys, 0, 0, 0, generation);
    RunChains(c, s, ops);
    var (_, issued) := RunAll(c, s, ops);
    FramesApart(c, issued[i], k, issued[j], l);
  }

  lemma FramesApart(c: Suite, a: Issued, k: nat, b: Issued, l: nat)
    requires SealedInTurn(SealerOf(c), a) && SealedInTurn(SealerOf(c), b) && k < |a.frames| && l < |b.frames|
    requires Before(a, b) || (a == b && k < l)
    ensures NeverShared(c, a, k, b, l)
  {
    FrameAt(c, a, k);
    FrameAt(c, b, l);
    if a.mint == b.mint { NonceGap(a.firstSealed + k, b.firstSealed + l); }
  }

  lemma FrameAt(c: Suite, i: Issued, k: nat)
    requires SealedInTurn(SealerOf(c), i) && k < |i.frames|
    ensures k < |i.plain| && i.frames[k] == c.seal(i.key, NonceOf(i, k), i.plain[k])
  {
  }

  lemma NonceGap(m: nat, n: nat)
    requires m < n
    ensures CounterNonce(m % U64) == CounterNonce(n % U64) ==> n - m >= U64
  {
    NonceReuseExactly(m, n);
    if m % U64 == n % U64 { ModGap(m, n, U64); }
  }

  // ---- Each retry runs on a session of its own ----

  /** What one turn reads of the link generation never goes back, from `seen` on. */
  predicate Monotone(seen: nat, turns: seq<Turn>)
    decreases |turns|
  {
    turns == [] ||
    (var t := turns[0];
     seen <= t.before <= t.verifiedAt <= t.after && Monotone(t.after, turns[1..]))
  }

  /** Every request after the first is the first one of the session minted right before it. */
  ghost predicate FreshRetries(issued: seq<Issued>)
  {
    forall i :: 1 <= i < |issued| ==>
      issued[i].mint == issued[i - 1].mint + 1 && issued[i].tid == 1 && issued[i].firstSealed == 0
  }

  /** A request runs on the session it is given, under its next transaction id, after what it has sealed. */
  ghost predicate InPlace(attempt: Attempter)
  {
    forall s: Secure, t: Turn :: RunsOn(s, attempt(s, t).0, attempt(s, t).1)
  }

  predicate RunsOn(s: Secure, next: Secure, i: Issued)
  {
    && next.mint == s.mint && next.generation == s.generation
    && i.mint == s.mint && i.tid == NextTid(s.tid) && i.firstSealed == s.sealed
  }

  lemma RequesterInPlace(c: Suite, q: Query)
    ensures InPlace(Requester(c, q))
  {
  }

  lemma {:induction false} LoopRetries(attempt: Attempter, s: Secure, turns: seq<Turn>, tries: nat, seen: nat)
    requires InPlace(attempt) && tries < MAX_REVIVE_RETRIES && Monotone(seen, turns)
    ensures var o := RetryLoop(attempt, s, turns, tries);
            && |o.issued| + tries <= MAX_REVIVE_RETRIES
            && FreshRetries(o.issued)
            && (o.issued != [] ==>
                  if turns[0].before > s.generation
                  then o.issued[0].mint == s.mint + 1 && o.issued[0].tid == 1 && o.issued[0].firstSealed == 0
                  else o.issued[0].mint == s.mint && o.issued[0].tid == NextTid(s.tid) && o.issued[0].firstSealed == s.sealed)
    decreases |turns|
  {
    if turns != [] && Revive(s, turns[0]).Ok? {
      var t := turns[0];
      var live := Revive(s, t).value;
      var (next, issued, r) := attempt(live, t);
      assert RunsOn(live, next, issued);
      if r.Err? && tries + 1 < MAX_REVIVE_RETRIES && t.after > next.generation {
        LoopRetries(attempt, next, turns[1..], tries + 1, t.after);
      }
    }
  }

  /**
   * A read or write issues at most three requests; each retry runs under the Pair Verify run just
   * before it, from transaction id 1 and counter 0; and none reuses a session seen before the call,
   * except the first request while the link has not moved on.
   */
  lemma RetriesRunOnFreshSessions(c: Suite, s: Secure, q: Query, turns: seq<Turn>, seen: nat)
    requires Monotone(seen, turns)
    ensures var o := RetryLoop(Requester(c, q), s, turns, 0);
            && |o.issued| <= 3
            && FreshRetries(o.issued)
            && (forall i :: 0 <= i < |o.issued| && (i > 0 || turns[0].before > s.generation) ==> o.issued[i].mint > s.mint)
  {
    RequesterInPlace(c, q);
    LoopRetries(Requester(c, q), s, turns, 0, seen);
    var issued := RetryLoop(Requester(c, q), s, turns, 0).issued;
    assert |issued| > 1 ==> issued[1].mint == issued[0].mint + 1;
    assert |issued| > 2 ==> issued[2].mint == issued[1].mint + 1;
  }

  /** A session is replaced exactly when the link has moved past it: by the keys just verified, everything else from zero. */
  lemma {:induction false} RevivesExactly(s: Secure, t: Turn)
    ensures t.before <= s.generation ==> Revive(s, t) == Ok(s)
    ensures t.before > s.generation ==>
              match t.verified
              case Err(e) => Revive(s, t) == Err(e)
              case Ok(keys) => Revive(s, t) == Ok(Secure(s.mint + 1, 0, keys, 0, 0, 0, t.verifiedAt))
  {
  }
}
