/** HAP-BLE PDU framing and the sealed request/response exchange over it. */
module BlePdu {
  import opened Bytes
  import opened Primitives
  import opened Sessions
  import opened PairVerify

  datatype BleError = MalformedPdu | Gatt | Crypto | RequestRejected(status: byte) | NotFound

  // ---- Requests and their fragments ----

  /** Header, then (only with a body) its length, capped at 65535, and the body. */
  function EncodeRequest(op: byte, tid: byte, iid: u16, body: bytes): (pdu: bytes)
    ensures |pdu| >= 5 && pdu[2] == tid
  {
    var header := [0x00, op, tid] + Le16(iid);
    if body == [] then header
    else header + Le16(if |body| <= 0xFFFF then |body| else 0xFFFF) + body
  }

  function Max(a: int, b: int): int
  {
    if a < b then b else a
  }

  function Min(a: int, b: int): int
  {
    if a < b then a else b
  }

  const CONTINUATION: byte := 0x80

  function Continuations(tid: byte, rest: bytes, payload: nat): seq<bytes>
    requires payload > 0
    decreases |rest|
  {
    if rest == [] then []
    else
      var take := Min(|rest|, payload);
      [[CONTINUATION, tid] + rest[..take]] + Continuations(tid, rest[take..], payload)
  }

  /** A PDU cut to fragments of at most `max(fragSize, 3)` bytes. */
  function Fragments(pdu: bytes, fragSize: nat): seq<bytes>
    requires |pdu| >= 3
  {
    var size := Max(fragSize, 3);
    if |pdu| <= size then [pdu]
    else [pdu[..size]] + Continuations(pdu[2], pdu[size..], Max(size - 2, 1))
  }

  method Fragment(pdu: bytes, fragSize: nat) returns (frags: seq<bytes>)
    requires |pdu| >= 3
    ensures frags == Fragments(pdu, fragSize)
  {
    var size := if fragSize < 3 then 3 else fragSize;
    if |pdu| <= size { return [pdu]; }
    var tid := pdu[2];
    frags := [pdu[..size]];
    var rest := pdu[size..];
    var payload := Max(size - 2, 1);
    while rest != []
      invariant frags + Continuations(tid, rest, payload) == Fragments(pdu, fragSize)
      decreases |rest|
    {
      var take := Min(|rest|, payload);
      frags := frags + [[CONTINUATION, tid] + rest[..take]];
      rest := rest[take..];
    }
  }

  /** The chunks of a list of continuations, each without its two-byte header. */
  function Chunks(conts: seq<bytes>): Option<bytes>
  {
    if conts == [] then Some([])
    else if |conts[0]| < 2 then None
    else
      match Chunks(conts[1..])
      case None => None
      case Some(rest) => Some(conts[0][2..] + rest)
  }

  /** The first fragment, then each continuation's chunk. */
  function Reassemble(frags: seq<bytes>): Result<bytes, BleError>
  {
    if frags == [] then Err(MalformedPdu)
    else
      match Chunks(frags[1..])
      case None => Err(MalformedPdu)
      case Some(rest) => Ok(frags[0] + rest)
  }

  lemma {:induction false} ChunksConcat(a: seq<bytes>, b: seq<bytes>)
    ensures Chunks(a + b).Some? <==> Chunks(a).Some? && Chunks(b).Some?
    ensures Chunks(a + b).Some? ==> Chunks(a + b).value == Chunks(a).value + Chunks(b).value
  {
    if a == [] {
      assert a + b == b;
    } else {
      ChunksConcat(a[1..], b);
      assert (a + b)[1..] == a[1..] + b;
    }
  }

  lemma ChunkOne(f: bytes)
    ensures Chunks([f]) == if |f| < 2 then None else Some(f[2..])
  {
    var none: seq<bytes> := [];
    assert [f][1..] == none;
    if |f| >= 2 { assert f[2..] + [] == f[2..]; }
  }

  lemma ReassembleOne(f: bytes)
    ensures Reassemble([f]) == Ok(f)
  {
    var none: seq<bytes> := [];
    assert [f][1..] == none;
    assert f + [] == f;
  }

  /** One more continuation: its payload is added, or the whole list is bad. */
  lemma ChunksStep(frags: seq<bytes>, i: nat, done: bytes)
    requires 1 <= i < |frags| && Chunks(frags[1..i]) == Some(done)
    ensures |frags[i]| >= 2 ==> Chunks(frags[1..i + 1]) == Some(done + frags[i][2..])
    ensures |frags[i]| < 2 ==> Chunks(frags[1..]) == None
  {
    ChunkOne(frags[i]);
    ChunksConcat(frags[1..i], [frags[i]]);
    assert frags[1..i + 1] == frags[1..i] + [frags[i]];
    if |frags[i]| < 2 {
      ChunksConcat(frags[1..i + 1], frags[i + 1..]);
      assert frags[1..] == frags[1..i + 1] + frags[i + 1..];
    }
  }

  method ReassembleLoop(frags: seq<bytes>) returns (r: Result<bytes, BleError>)
    ensures r == Reassemble(frags)
  {
    if frags == [] { return Err(MalformedPdu); }
    var out := frags[0];
    ghost var done: bytes := [];
    var i := 1;
    while i < |frags|
      invariant 1 <= i <= |frags|
      invariant out == frags[0] + done && Chunks(frags[1..i]) == Some(done)
    {
      ChunksStep(frags, i, done);
      if |frags[i]| < 2 { return Err(MalformedPdu); }
      done := done + frags[i][2..];
      out := out + frags[i][2..];
      i := i + 1;
    }
    assert frags[1..i] == frags[1..];
    return Ok(out);
  }

  lemma {:induction false} ContinuationsFit(tid: byte, rest: bytes, payload: nat)
    requires payload > 0
    ensures forall i :: 0 <= i < |Continuations(tid, rest, payload)| ==> |Continuations(tid, rest, payload)[i]| <= payload + 2
    decreases |rest|
  {
    if rest != [] {
      ContinuationsFit(tid, rest[Min(|rest|, payload)..], payload);
    }
  }

  /** The chunks of the continuations of `rest` are `rest`. */
  lemma {:induction false} ContinuationsCarry(tid: byte, rest: bytes, payload: nat)
    requires payload > 0
    ensures Chunks(Continuations(tid, rest, payload)) == Some(rest)
    decreases |rest|
  {
    if rest == [] {
      assert Continuations(tid, rest, payload) == [];
    } else {
      var take := Min(|rest|, payload);
      ContinuationsCarry(tid, rest[take..], payload);
      assert ([CONTINUATION, tid] + rest[..take])[2..] == rest[..take];
      assert rest[..take] + rest[take..] == rest;
    }
  }

  /** Reassembly undoes fragmentation at every fragment size, and no fragment is over size. */
  lemma FragmentRoundTrip(pdu: bytes, fragSize: nat)
    requires |pdu| >= 3
    ensures Reassemble(Fragments(pdu, fragSize)) == Ok(pdu)
    ensures forall i :: 0 <= i < |Fragments(pdu, fragSize)| ==> |Fragments(pdu, fragSize)[i]| <= Max(fragSize, 3)
    ensures |Fragments(pdu, fragSize)[0]| == Min(|pdu|, Max(fragSize, 3))
  {
    var size := Max(fragSize, 3);
    ReassembleOne(pdu);
    if |pdu| > size {
      ContinuationsFit(pdu[2], pdu[size..], size - 2);
      ContinuationsCarry(pdu[2], pdu[size..], size - 2);
      assert Fragments(pdu, fragSize)[1..] == Continuations(pdu[2], pdu[size..], size - 2);
      assert pdu[..size] + pdu[size..] == pdu;
    }
  }

  // ---- Responses ----

  datatype Response = Response(tid: byte, status: byte, body: bytes)

  /** The total PDU length a first fragment declares. */
  function DeclaredTotal(first: bytes): nat
  {
    if |first| >= 5 then 5 + FromLe16(first[3..5]) else |first|
  }

  function DecodeResponse(pdu: bytes): Result<Response, BleError>
  {
    if |pdu| < 3 then Err(MalformedPdu)
    else if |pdu| == 3 then Ok(Response(pdu[1], pdu[2], []))
    else if |pdu| < 5 then Err(MalformedPdu)
    else
      var len := FromLe16(pdu[3..5]);
      if |pdu| < 5 + len then Err(MalformedPdu) else Ok(Response(pdu[1], pdu[2], pdu[5..5 + len]))
  }

  /** A response as an accessory encodes it: three bytes without a body, or a length and a body. */
  function EncodeResponse(control: byte, r: Response, withBody: bool): bytes
    requires |r.body| <= 0xFFFF
  {
    [control, r.tid, r.status] + if withBody then Le16(|r.body|) + r.body else []
  }

  const MAX_RESPONSE_FRAGMENTS := 64

  // ---- The sealed exchange ----

  /** Frames `ctr`, `ctr + 1`, ... sealed from a list of fragments. */
  function SealedFrom(c: Suite, key: bytes, ctr: nat, frags: seq<bytes>): (s: seq<bytes>)
    ensures |s| == |frags|
    ensures forall i :: 0 <= i < |frags| ==> s[i] == Frame(c, key, ctr + i, frags[i])
  {
    seq(|frags|, i requires 0 <= i < |frags| => Frame(c, key, ctr + i, frags[i]))
  }

  /** What the read loop makes of the queued replies, how many it takes, and where it leaves the counter. */
  datatype Reading = Reading(result: Result<Response, BleError>, consumed: nat, recv: u64)

  /** What the loop does with the fragments so far: stop with a result, or read another. */
  function Verdict(frags: seq<bytes>): Option<Result<Response, BleError>>
  {
    if frags == [] then None
    else
      match Reassemble(frags)
      case Err(_) => Some(Err(MalformedPdu))
      case Ok(pdu) =>
        if |pdu| >= DeclaredTotal(frags[0]) then Some(DecodeResponse(pdu))
        else if |frags| >= MAX_RESPONSE_FRAGMENTS then Some(Err(MalformedPdu))
        else None
  }

  /** The read loop, for any rule to stop and any way to open frame number `n`. */
  function ReadLoop(verdict: seq<bytes> -> Option<Result<Response, BleError>>, open: (u64, bytes) -> Option<bytes>,
                    recv: u64, replies: seq<Option<bytes>>, frags: seq<bytes>): Reading
    decreases |replies|
  {
    match verdict(frags)
    case Some(r) => Reading(r, 0, recv)
    case None =>
      if replies == [] then Reading(Err(Gatt), 0, recv)
      else if replies[0].None? then Reading(Err(Gatt), 1, recv)
      else
        match open(recv, replies[0].value)
        case None => Reading(Err(Crypto), 1, recv)
        case Some(p) =>
          var rest := ReadLoop(verdict, open, Next(recv), replies[1..], frags + [p]);
          rest.(consumed := rest.consumed + 1)
  }

  function Opener(c: Suite, key: bytes): (u64, bytes) -> Option<bytes>
  {
    (n: u64, data: bytes) => c.open(key, CounterNonce(n), data)
  }

  function ReadFrom(c: Suite, key: bytes, recv: u64, replies: seq<Option<bytes>>, frags: seq<bytes>): Reading
  {
    ReadLoop(Verdict, Opener(c, key), recv, replies, frags)
  }

  /** The GATT link: what was written, the replies still to be read, and how many more writes succeed. */
  class GattLink {
    var written: seq<bytes>
    var replies: seq<Option<bytes>>
    var writesLeft: nat

    constructor (replies: seq<Option<bytes>>, writesLeft: nat)
      ensures written == [] && this.replies == replies && this.writesLeft == writesLeft
    {
      written := [];
      this.replies := replies;
      this.writesLeft := writesLeft;
    }

    method Write(data: bytes) returns (ok: bool)
      modifies this`written, this`writesLeft
      ensures ok == (old(writesLeft) > 0)
      ensures if ok then written == old(written) + [data] && writesLeft == old(writesLeft) - 1
              else written == old(written) && writesLeft == old(writesLeft)
    {
      ok := writesLeft > 0;
      if ok {
        written := written + [data];
        writesLeft := writesLeft - 1;
      }
    }

    method Read() returns (r: Option<bytes>)
      modifies this`replies
      ensures old(replies) == [] ==> r == None && replies == []
      ensures old(replies) != [] ==> r == old(replies)[0] && replies == old(replies)[1..]
    {
      if replies == [] { return None; }
      r := replies[0];
      replies := replies[1..];
    }
  }

  /** The plaintext fragments of one request at a GATT write size. */
  function RequestFragments(op: byte, tid: byte, iid: u16, body: bytes, fragSize: nat): seq<bytes>
  {
    Fragments(EncodeRequest(op, tid, iid, body), Max(fragSize - 16, 1))
  }

  /** The frames of a request as far as the writes let it go: a failed write has spent its frame. */
  function FramesSealed(c: Suite, key: bytes, ctr: nat, frags: seq<bytes>, writesLeft: nat): (s: seq<bytes>)
    ensures |s| == Min(|frags|, writesLeft + 1)
  {
    SealedFrom(c, key, ctr, frags)[..Min(|frags|, writesLeft + 1)]
  }

  /** The frame of a session that has counted to `n`. */
  method SealNumber(session: BleSession, frag: bytes, ghost n: nat) returns (frame: bytes)
    requires session.sendCounter == n % U64
    modifies session`sendCounter
    ensures frame == Frame(session.suite, session.keys.write, n, frag) && session.sendCounter == (n + 1) % U64
  {
    NextCounts(n);
    frame := session.Seal(frag);
  }

  method WriteSealed(gatt: GattLink, session: BleSession, frags: seq<bytes>) returns (ok: bool, ghost frames: seq<bytes>)
    modifies gatt`written, gatt`writesLeft, session`sendCounter
    ensures frames == FramesSealed(session.suite, session.keys.write, old(session.sendCounter), frags, old(gatt.writesLeft))
    ensures gatt.written == old(gatt.written) + frames[..Min(|frags|, old(gatt.writesLeft))]
    ensures session.sendCounter == (old(session.sendCounter) + |frames|) % U64
    ensures ok == (|frags| <= old(gatt.writesLeft))
  {
    ghost var start := session.sendCounter;
    ghost var all := SealedFrom(session.suite, session.keys.write, start, frags);
    frames := [];
    var i := 0;
    while i < |frags|
      invariant 0 <= i <= |frags| && i <= old(gatt.writesLeft)
      invariant gatt.writesLeft == old(gatt.writesLeft) - i
      invariant session.sendCounter == (start + i) % U64
      invariant frames == all[..i] && gatt.written == old(gatt.written) + frames
    {
      var frame := SealNumber(session, frags[i], start + i);
      assert frame == all[i];
      frames := frames + [frame];
      var wrote := gatt.Write(frame);
      if !wrote { return false, frames; }
      i := i + 1;
    }
    return true, frames;
  }

  method ReadResponse(gatt: GattLink, session: BleSession) returns (r: Result<Response, BleError>)
    modifies gatt`replies, session`recvCounter
    ensures var reading := ReadFrom(session.suite, session.keys.read, old(session.recvCounter), old(gatt.replies), []);
            && r == reading.result && session.recvCounter == reading.recv
            && reading.consumed <= |old(gatt.replies)| && gatt.replies == old(gatt.replies)[reading.consumed..]
  {
    ghost var all := gatt.replies;
    ghost var whole := ReadFrom(session.suite, session.keys.read, session.recvCounter, all, []);
    ghost var taken := 0;
    var frags: seq<bytes> := [];
    while true
      invariant taken <= |all| && gatt.replies == all[taken..] && (frags == [] || |frags| <= MAX_RESPONSE_FRAGMENTS)
      invariant var rest := ReadFrom(session.suite, session.keys.read, session.recvCounter, gatt.replies, frags);
                whole == rest.(consumed := rest.consumed + taken)
      decreases |gatt.replies|
    {
      if frags != [] {
        var so := ReassembleLoop(frags);
        if so.Err? { return Err(MalformedPdu); }
        if |so.value| >= DeclaredTotal(frags[0]) {
          r := DecodeResponse(so.value);
          return;
        }
        if |frags| >= MAX_RESPONSE_FRAGMENTS { return Err(MalformedPdu); }
      }
      if gatt.replies == [] { return Err(Gatt); }
      var reply := gatt.Read();
      taken := taken + 1;
      if reply.None? { return Err(Gatt); }
      var p := session.Open(reply.value);
      if p.None? { return Err(Crypto); }
      frags := frags + [p.value];
    }
  }

  /** What one sealed exchange leaves behind: the frames it sealed, the counters, and its result. */
  datatype Exchange = Exchange(frames: seq<bytes>, send: u64, recv: u64, result: Result<Response, BleError>)

  /** A write failure stops the exchange before anything is read. */
  function ExchangeFrom(c: Suite, keys: Keys, send: u64, recv: u64, frags: seq<bytes>, writesLeft: nat, replies: seq<Option<bytes>>): Exchange
  {
    var frames := FramesSealed(c, keys.write, send, frags, writesLeft);
    if writesLeft < |frags| then Exchange(frames, (send + |frames|) % U64, recv, Err(Gatt))
    else
      var reading := ReadFrom(c, keys.read, recv, replies, []);
      Exchange(frames, (send + |frames|) % U64, reading.recv, reading.result)
  }

  /**
   Seals and writes the request fragment by fragment, then opens the reply fragment by fragment.
   Every fragment sealed advances the send counter, also the one whose write fails.
   */
  method RequestSecure(gatt: GattLink, session: BleSession, op: byte, tid: byte, iid: u16, body: bytes, fragSize: nat)
    returns (r: Result<Response, BleError>, ghost frames: seq<bytes>)
    modifies gatt, session
    ensures var frags := RequestFragments(op, tid, iid, body, fragSize);
            && Exchange(frames, session.sendCounter, session.recvCounter, r) ==
                 ExchangeFrom(session.suite, session.keys, old(session.sendCounter), old(session.recvCounter), frags, old(gatt.writesLeft), old(gatt.replies))
            && gatt.written == old(gatt.written) + frames[..Min(|frags|, old(gatt.writesLeft))]
  {
    var pdu := EncodeRequest(op, tid, iid, body);
    var frags := Fragment(pdu, Max(fragSize - 16, 1));
    var ok;
    ok, frames := WriteSealed(gatt, session, frags);
    if !ok { return Err(Gatt), frames; }
    r := ReadResponse(gatt, session);
  }

  // ---- Both directions recover what was sent ----

  /** A peer that opens a run of frames one by one. */
  function OpenAll(c: Suite, key: bytes, ctr: nat, frames: seq<bytes>): Option<seq<bytes>>
  {
    if frames == [] then Some([])
    else
      var n := |frames| - 1;
      match (OpenAll(c, key, ctr, frames[..n]), c.open(key, CounterNonce((ctr + n) % U64), frames[n]))
      case (Some(before), Some(p)) => Some(before + [p])
      case _ => None
  }

  lemma {:induction false} OpenAllSealed(c: Suite, key: bytes, ctr: nat, frags: seq<bytes>)
    requires SealLaw(c)
    ensures OpenAll(c, key, ctr, SealedFrom(c, key, ctr, frags)) == Some(frags)
  {
    if frags != [] {
      var n := |frags| - 1;
      var frames := SealedFrom(c, key, ctr, frags);
      OpenAllSealed(c, key, ctr, frags[..n]);
      assert frames[..n] == SealedFrom(c, key, ctr, frags[..n]);
      FrameOpens(c, key, ctr + n, frags[n]);
      assert frags == frags[..n] + [frags[n]];
    }
  }

  lemma FrameOpens(c: Suite, key: bytes, i: nat, plaintext: bytes)
    requires SealLaw(c)
    ensures c.open(key, CounterNonce(i % U64), Frame(c, key, i, plaintext)) == Some(plaintext)
  {
  }

  /**
   A peer that opens the sealed fragments and reassembles them has the exact request PDU, whatever
   the body and the write size; and the sealed fragments all fit the write size exactly when it is
   at least 19 bytes.
   */
  lemma RequestRecovered(c: Suite, key: bytes, ctr: nat, op: byte, tid: byte, iid: u16, body: bytes, fragSize: nat)
    requires SealLaw(c)
    ensures var frames := SealedFrom(c, key, ctr, RequestFragments(op, tid, iid, body, fragSize));
            var got := OpenAll(c, key, ctr, frames);
            && got.Some? && Reassemble(got.value) == Ok(EncodeRequest(op, tid, iid, body))
            && ((forall i :: 0 <= i < |frames| ==> |frames[i]| <= fragSize) <==> fragSize >= 19)
  {
    var frags := RequestFragments(op, tid, iid, body, fragSize);
    var frames := SealedFrom(c, key, ctr, frags);
    OpenAllSealed(c, key, ctr, frags);
    FragmentRoundTrip(EncodeRequest(op, tid, iid, body), Max(fragSize - 16, 1));
    forall i | 0 <= i < |frames|
      ensures |frames[i]| == |frags[i]| + TAG_LEN
    {
      assert frames[i] == Frame(c, key, ctr + i, frags[i]);
    }
    assert |frames[0]| == |frags[0]| + TAG_LEN;
  }

  /** The request's fields as its receiver reads them. */
  function ParseRequest(pdu: bytes): Result<(byte, byte, u16, bytes), BleError>
  {
    if |pdu| < 5 then Err(MalformedPdu)
    else if |pdu| == 5 then Ok((pdu[1], pdu[2], FromLe16(pdu[3..5]), []))
    else if |pdu| < 7 || |pdu| != 7 + FromLe16(pdu[5..7]) then Err(MalformedPdu)
    else Ok((pdu[1], pdu[2], FromLe16(pdu[3..5]), pdu[7..]))
  }

  /** The fields survive exactly when the body fits the 16-bit length. */
  lemma RequestFieldsExactly(op: byte, tid: byte, iid: u16, body: bytes)
    ensures ParseRequest(EncodeRequest(op, tid, iid, body)) == Ok((op, tid, iid, body)) <==> |body| <= 0xFFFF
  {
    var pdu := EncodeRequest(op, tid, iid, body);
    assert pdu[3..5] == Le16(iid);
    if body != [] {
      var len := if |body| <= 0xFFFF then |body| else 0xFFFF;
      assert pdu[5..7] == Le16(len);
      assert pdu[7..] == body;
    }
  }

  /** `stop` fragments is the first point at which the rule stops. */
  ghost predicate FirstVerdict(verdict: seq<bytes> -> Option<Result<Response, BleError>>, frags: seq<bytes>, stop: nat)
  {
    && stop <= |frags|
    && (forall j :: 0 <= j < stop ==> verdict(frags[..j]).None?)
    && verdict(frags[..stop]).Some?
  }

  /** The loop reads one fragment per turn, from turn `k`, until the verdict at turn `stop`. */
  lemma {:induction false} ReadsUpTo(verdict: seq<bytes> -> Option<Result<Response, BleError>>, open: (u64, bytes) -> Option<bytes>,
                                     recv: u64, frags: seq<bytes>, replies: seq<Option<bytes>>, k: nat, stop: nat)
    requires k <= stop && FirstVerdict(verdict, frags, stop) && Carries(open, recv, frags, replies)
    ensures ReadLoop(verdict, open, (recv + k) % U64, replies[k..], frags[..k])
         == Reading(verdict(frags[..stop]).value, stop - k, (recv + stop) % U64)
    decreases stop - k
  {
    if k < stop {
      ReadsUpTo(verdict, open, recv, frags, replies, k + 1, stop);
      assert frags[..k + 1] == frags[..k] + [frags[k]];
      assert replies[k..][1..] == replies[k + 1..];
      NextCounts(recv + k);
    }
  }

  /** The queue starts with frames that open to the fragments at counters `recv`, `recv + 1`, ... */
  ghost predicate Carries(open: (u64, bytes) -> Option<bytes>, recv: u64, frags: seq<bytes>, replies: seq<Option<bytes>>)
  {
    && |frags| <= |replies|
    && forall i :: 0 <= i < |frags| ==> replies[i].Some? && open((recv + i) % U64, replies[i].value) == Some(frags[i])
  }

  /** What a peer seals under the same key and counter is carried. */
  lemma SealedCarries(c: Suite, key: bytes, recv: u64, frags: seq<bytes>, replies: seq<Option<bytes>>)
    requires SealLaw(c) && |frags| <= |replies|
    requires forall i :: 0 <= i < |frags| ==> replies[i] == Some(SealedFrom(c, key, recv, frags)[i])
    ensures Carries(Opener(c, key), recv, frags, replies)
  {
    forall i | 0 <= i < |frags|
      ensures replies[i].Some? && Opener(c, key)((recv + i) % U64, replies[i].value) == Some(frags[i])
    {
      var nonce := CounterNonce((recv + i) % U64);
      assert c.open(key, nonce, c.seal(key, nonce, frags[i])) == Some(frags[i]);
    }
  }

  /** Reading a carried split ends with its first verdict. */
  lemma ReadsCarried(c: Suite, key: bytes, recv: u64, frags: seq<bytes>, replies: seq<Option<bytes>>, stop: nat)
    requires Carries(Opener(c, key), recv, frags, replies) && FirstVerdict(Verdict, frags, stop)
    ensures ReadFrom(c, key, recv, replies, []) == Reading(Verdict(frags[..stop]).value, stop, (recv + stop) % U64)
  {
    ReadsUpTo(Verdict, Opener(c, key), recv, frags, replies, 0, stop);
    assert replies[0..] == replies && frags[..0] == [];
  }

  /** A prefix reassembles to a prefix, a proper one when the last fragment carries something. */
  lemma PrefixesReassemble(frags: seq<bytes>, k: nat)
    requires Reassemble(frags).Ok? && 1 <= k <= |frags|
    ensures Reassemble(frags[..k]).Ok? && Reassemble(frags[..k]).value <= Reassemble(frags).value
    ensures k < |frags| && |frags[|frags| - 1]| > 2 ==> |Reassemble(frags[..k]).value| < |Reassemble(frags).value|
    ensures k < |frags| ==> |frags[|frags| - 1]| >= 2
    ensures k == |frags| - 1 && |frags[k]| <= 2 ==> Reassemble(frags[..k]).value == Reassemble(frags).value
  {
    var head, tail := frags[1..k], frags[k..];
    assert frags[1..] == head + tail && frags[..k][1..] == head;
    ChunksConcat(head, tail);
    if k < |frags| {
      var n := |frags| - 1;
      assert tail == frags[k..n] + [frags[n]];
      ChunkOne(frags[n]);
      ChunksConcat(frags[k..n], [frags[n]]);
    }
  }

  /** The splits a controller can take in: at most 64 fragments, the length in the first, the last not empty. */
  predicate Readable(frags: seq<bytes>)
  {
    1 <= |frags| <= 64 && |frags[0]| >= 5 && (|frags| == 1 || |frags[|frags| - 1]| > 2)
  }

  lemma DeclaredIsTotal(frags: seq<bytes>, control: byte, r: Response)
    requires |r.body| <= 0xFFFF && Reassemble(frags) == Ok(EncodeResponse(control, r, true))
    requires |frags[0]| >= 5
    ensures DeclaredTotal(frags[0]) == |EncodeResponse(control, r, true)|
    ensures DecodeResponse(EncodeResponse(control, r, true)) == Ok(r)
  {
    var pdu := EncodeResponse(control, r, true);
    assert pdu[3..5] == Le16(|r.body|);
    assert frags[0][3..5] == pdu[..|frags[0]|][3..5] == pdu[3..5];
    assert pdu[5..5 + |r.body|] == r.body;
  }

  /** The loop asks for more after every proper prefix of a readable split. */
  lemma ReadableVerdicts(frags: seq<bytes>, control: byte, r: Response)
    requires |r.body| <= 0xFFFF && Readable(frags)
    requires Reassemble(frags) == Ok(EncodeResponse(control, r, true))
    ensures FirstVerdict(Verdict, frags, |frags|) && Verdict(frags[..|frags|]) == Some(Ok(r))
  {
    DeclaredIsTotal(frags, control, r);
    assert frags[..|frags|] == frags;
    forall j | 1 <= j < |frags| ensures Verdict(frags[..j]).None? {
      PrefixesReassemble(frags, j);
      assert frags[..j][0] == frags[0];
    }
  }

  lemma LoneFragment(frags: seq<bytes>)
    requires frags != []
    ensures |frags| == 1 ==> Reassemble(frags) == Ok(frags[0])
  {
    ReassembleOne(frags[0]);
    assert |frags| == 1 ==> frags == [frags[0]];
  }

  /** It stops before the end of one that is not. */
  lemma UnreadableVerdict(frags: seq<bytes>, control: byte, r: Response) returns (stop: nat)
    requires |r.body| <= 0xFFFF && frags != [] && !Readable(frags)
    requires Reassemble(frags) == Ok(EncodeResponse(control, r, true))
    ensures stop < |frags| && FirstVerdict(Verdict, frags, stop)
  {
    stop := 1;
    LoneFragment(frags);
    while Verdict(frags[..stop]).None?
      invariant 1 <= stop < |frags|
      invariant forall j :: 0 <= j < stop ==> Verdict(frags[..j]).None?
      decreases |frags| - stop
    {
      StopsByLast(frags, stop, control, r);
      stop := stop + 1;
    }
  }

  lemma StopsByLast(frags: seq<bytes>, k: nat, control: byte, r: Response)
    requires |r.body| <= 0xFFFF && !Readable(frags) && 1 <= k < |frags|
    requires Reassemble(frags) == Ok(EncodeResponse(control, r, true)) && Verdict(frags[..k]).None?
    ensures k + 1 < |frags|
  {
    PrefixesReassemble(frags, k);
    assert frags[..k][0] == frags[0];
    assert |frags[0]| >= 5;
    DeclaredIsTotal(frags, control, r);
  }

  /**
   A response with a body, however split, is recovered with every fragment read and the counter
   advanced once per fragment, exactly when the split is readable; otherwise the loop stops with
   fragments left unread.
   */
  lemma ResponseRecoveredExactly(c: Suite, key: bytes, recv: u64, frags: seq<bytes>, replies: seq<Option<bytes>>, control: byte, r: Response)
    requires |r.body| <= 0xFFFF && frags != [] && Carries(Opener(c, key), recv, frags, replies)
    requires Reassemble(frags) == Ok(EncodeResponse(control, r, true))
    ensures Readable(frags) ==> ReadFrom(c, key, recv, replies, []) == Reading(Ok(r), |frags|, (recv + |frags|) % U64)
    ensures !Readable(frags) ==> ReadFrom(c, key, recv, replies, []).consumed < |frags|
  {
    if Readable(frags) {
      ReadableVerdicts(frags, control, r);
      ReadsCarried(c, key, recv, frags, replies, |frags|);
    } else {
      var stop := UnreadableVerdict(frags, control, r);
      ReadsCarried(c, key, recv, frags, replies, stop);
    }
  }

  /** A bodyless response is one three-byte fragment. */
  lemma BodylessRecovered(c: Suite, key: bytes, recv: u64, replies: seq<Option<bytes>>, control: byte, tid: byte, status: byte)
    requires Carries(Opener(c, key), recv, [[control, tid, status]], replies)
    ensures ReadFrom(c, key, recv, replies, []) == Reading(Ok(Response(tid, status, [])), 1, Next(recv))
  {
    var frags := [[control, tid, status]];
    assert frags[..1] == frags && frags[..0] == [];
    ReadsCarried(c, key, recv, frags, replies, 1);
  }

  /** A queue of frames as replies that arrive. */
  function Arriving(frames: seq<bytes>): (replies: seq<Option<bytes>>)
    ensures |replies| == |frames| && forall i :: 0 <= i < |frames| ==> replies[i] == Some(frames[i])
  {
    seq(|frames|, i requires 0 <= i < |frames| => Some(frames[i]))
  }

  /**
   A whole exchange with a peer that holds the same keys and counters. It opens what was written and has the
   exact request; it seals its answer, split in any readable way; and the controller returns exactly that
   answer, with both counters advanced by the fragments exchanged.
   */
  lemma ExchangeRecovered(c: Suite, keys: Keys, send: u64, recv: u64, op: byte, tid: byte, iid: u16, body: bytes, fragSize: nat,
                          control: byte, answer: Response, split: seq<bytes>)
    requires SealLaw(c) && |answer.body| <= 0xFFFF && Readable(split)
    requires Reassemble(split) == Ok(EncodeResponse(control, answer, true))
    ensures var frags := RequestFragments(op, tid, iid, body, fragSize);
            var replies := Arriving(SealedFrom(c, keys.read, recv, split));
            var e := ExchangeFrom(c, keys, send, recv, frags, |frags|, replies);
            var opened_ := OpenAll(c, keys.write, send, e.frames);
            && opened_.Some? && Reassemble(opened_.value) == Ok(EncodeRequest(op, tid, iid, body))
            && e == Exchange(SealedFrom(c, keys.write, send, frags), (send + |frags|) % U64, (recv + |split|) % U64, Ok(answer))
  {
    ExchangeAnswered(c, keys, send, recv, RequestFragments(op, tid, iid, body, fragSize), control, answer, split);
    RequestRecovered(c, keys.write, send, op, tid, iid, body, fragSize);
  }

  /** The controller's half of it, for any fragments written. */
  lemma ExchangeAnswered(c: Suite, keys: Keys, send: u64, recv: u64, frags: seq<bytes>, control: byte, answer: Response, split: seq<bytes>)
    requires SealLaw(c) && |answer.body| <= 0xFFFF && Readable(split)
    requires Reassemble(split) == Ok(EncodeResponse(control, answer, true))
    ensures ExchangeFrom(c, keys, send, recv, frags, |frags|, Arriving(SealedFrom(c, keys.read, recv, split)))
         == Exchange(SealedFrom(c, keys.write, send, frags), (send + |frags|) % U64, (recv + |split|) % U64, Ok(answer))
  {
    AllWritten(c, keys, send, recv, frags, Arriving(SealedFrom(c, keys.read, recv, split)));
    AnswerRecovered(c, keys.read, recv, control, answer, split);
  }

  lemma AnswerRecovered(c: Suite, key: bytes, recv: u64, control: byte, answer: Response, split: seq<bytes>)
    requires SealLaw(c) && |answer.body| <= 0xFFFF && Readable(split)
    requires Reassemble(split) == Ok(EncodeResponse(control, answer, true))
    ensures ReadFrom(c, key, recv, Arriving(SealedFrom(c, key, recv, split)), []) == Reading(Ok(answer), |split|, (recv + |split|) % U64)
  {
    var replies := Arriving(SealedFrom(c, key, recv, split));
    SealedCarries(c, key, recv, split, replies);
    ResponseRecoveredExactly(c, key, recv, split, replies, control, answer);
  }

  /** With every write succeeding, the exchange is the request's frames and then the reading. */
  lemma AllWritten(c: Suite, keys: Keys, send: u64, recv: u64, frags: seq<bytes>, replies: seq<Option<bytes>>)
    ensures var reading := ReadFrom(c, keys.read, recv, replies, []);
            ExchangeFrom(c, keys, send, recv, frags, |frags|, replies) ==
            Exchange(SealedFrom(c, keys.write, send, frags), (send + |frags|) % U64, reading.recv, reading.result)
  {
    var all := SealedFrom(c, keys.write, send, frags);
    assert all[..|frags|] == all;
  }

  // ---- Layout, and everything that fails ----

  lemma {:induction false} ContinuationAt(tid: byte, rest: bytes, payload: nat, i: nat)
    requires payload > 0 && i < |Continuations(tid, rest, payload)|
    ensures var f := Continuations(tid, rest, payload)[i];
            && |f| >= 3 && f[0] == 0x80 && f[1] == tid
            && (i < |Continuations(tid, rest, payload)| - 1 ==> |f| == payload + 2)
    decreases |rest|
  {
    if i > 0 {
      var take := Min(|rest|, payload);
      assert Continuations(tid, rest, payload)[i] == Continuations(tid, rest[take..], payload)[i - 1];
      ContinuationAt(tid, rest[take..], payload, i - 1);
    }
  }

  /** After the first, every fragment starts with 0x80 and the transaction id, and carries something; only the last is not full. */
  lemma {:induction false} FragmentAt(pdu: bytes, fragSize: nat, i: nat)
    requires |pdu| >= 3 && 0 < i < |Fragments(pdu, fragSize)|
    ensures var f := Fragments(pdu, fragSize)[i];
            |f| >= 3 && f[0] == 0x80 && f[1] == pdu[2] && (i < |Fragments(pdu, fragSize)| - 1 ==> |f| == Max(fragSize, 3))
  {
    var size := Max(fragSize, 3);
    ContinuationAt(pdu[2], pdu[size..], size - 2, i - 1);
  }

  /** Exactly the PDUs that hold a response, and which: three bytes alone, or five, the length in the last two, and the body. */
  lemma {:induction false} DecodesExactly(pdu: bytes, r: Response)
    ensures DecodeResponse(pdu) == Ok(r) <==>
            || (|pdu| == 3 && pdu[1..] == [r.tid, r.status] && r.body == [])
            || (|pdu| >= 5 && pdu[1] == r.tid && pdu[2] == r.status && |r.body| == (pdu[3] as int) + 256 * (pdu[4] as int)
                && |pdu| >= 5 + |r.body| && pdu[5..5 + |r.body|] == r.body)
    ensures DecodeResponse(pdu).Err? ==> DecodeResponse(pdu) == Err(MalformedPdu)
  {
    if |pdu| == 3 { assert pdu[1..] == [pdu[1], pdu[2]]; }
    if |pdu| >= 5 { assert FromLe16(pdu[3..5]) == (pdu[3] as int) + 256 * (pdu[4] as int); }
  }

  /** Where a reading stands after the fragments it could take in, none of which was enough. */
  lemma {:induction false} ReadsInto(verdict: seq<bytes> -> Option<Result<Response, BleError>>, open: (u64, bytes) -> Option<bytes>,
                                     recv: u64, frags: seq<bytes>, replies: seq<Option<bytes>>, k: nat)
    requires k <= |frags| && Carries(open, recv, frags, replies) && forall j :: 0 <= j <= |frags| ==> verdict(frags[..j]).None?
    ensures var rest := ReadLoop(verdict, open, (recv + |frags|) % U64, replies[|frags|..], frags);
            ReadLoop(verdict, open, (recv + k) % U64, replies[k..], frags[..k]) == rest.(consumed := rest.consumed + (|frags| - k))
    decreases |frags| - k
  {
    if k < |frags| {
      ReadsInto(verdict, open, recv, frags, replies, k + 1);
      assert frags[..k + 1] == frags[..k] + [frags[k]] && replies[k..][1..] == replies[k + 1..];
      assert verdict(frags[..k]).None?;
      NextCounts(recv + k);
    } else {
      assert frags[..k] == frags;
    }
  }

  /**
   A response that does not come whole: a read that fails, or that never comes, ends it as a link error, and a fragment
   that does not open as a crypto error, the counter standing where the last one that opened left it.
   */
  lemma {:induction false} ReadFails(c: Suite, key: bytes, recv: u64, frags: seq<bytes>, replies: seq<Option<bytes>>)
    requires Carries(Opener(c, key), recv, frags, replies) && forall j :: 0 <= j <= |frags| ==> Verdict(frags[..j]).None?
    ensures var n := |frags|;
            && (n == |replies| ==> ReadFrom(c, key, recv, replies, []) == Reading(Err(Gatt), n, (recv + n) % U64))
            && (n < |replies| && replies[n].None? ==> ReadFrom(c, key, recv, replies, []) == Reading(Err(Gatt), n + 1, (recv + n) % U64))
            && (n < |replies| && replies[n].Some? && c.open(key, CounterNonce((recv + n) % U64), replies[n].value).None? ==>
                  ReadFrom(c, key, recv, replies, []) == Reading(Err(Crypto), n + 1, (recv + n) % U64))
  {
    ReadsInto(Verdict, Opener(c, key), recv, frags, replies, 0);
    assert replies[0..] == replies && frags[..0] == [] && frags[..|frags|] == frags;
    ModUnique(recv, U64, 0, recv);
  }

  /** A write that fails ends the exchange as a link error: its frame is spent, nothing is read. */
  lemma {:induction false} WriteFails(c: Suite, keys: Keys, send: u64, recv: u64, frags: seq<bytes>, writesLeft: nat, replies: seq<Option<bytes>>)
    requires writesLeft < |frags|
    ensures ExchangeFrom(c, keys, send, recv, frags, writesLeft, replies) ==
            Exchange(SealedFrom(c, keys.write, send, frags)[..writesLeft + 1], (send + writesLeft + 1) % U64, recv, Err(Gatt))
  {
  }

  /** A reading that the next fragment decides. */
  lemma {:induction false} ReadDecided(verdict: seq<bytes> -> Option<Result<Response, BleError>>, open: (u64, bytes) -> Option<bytes>,
                                       recv: u64, frags: seq<bytes>, last: bytes, replies: seq<Option<bytes>>)
    requires Carries(open, recv, frags + [last], replies) && verdict(frags + [last]).Some?
    requires forall j :: 0 <= j <= |frags| ==> verdict(frags[..j]).None?
    ensures ReadLoop(verdict, open, recv, replies, []) == Reading(verdict(frags + [last]).value, |frags| + 1, (recv + |frags| + 1) % U64)
  {
    var n, all := |frags|, frags + [last];
    assert all[n] == last;
    assert Carries(open, recv, frags, replies) by {
      forall j | 0 <= j < n ensures all[j] == frags[j] {}
    }
    ReadsInto(verdict, open, recv, frags, replies, 0);
    assert replies[0..] == replies && frags[..0] == [];
    ModUnique(recv, U64, 0, recv);
    assert verdict(frags[..n]).None? && frags[..n] == frags;
    NextCounts(recv + n);
  }

  /** A continuation too short for its header ends the reading as malformed, whatever is still to come. */
  lemma {:induction false} ShortContinuationFails(c: Suite, key: bytes, recv: u64, frags: seq<bytes>, last: bytes, replies: seq<Option<bytes>>)
    requires frags != [] && |last| < 2 && Carries(Opener(c, key), recv, frags + [last], replies)
    requires forall j :: 0 <= j <= |frags| ==> Verdict(frags[..j]).None?
    ensures ReadFrom(c, key, recv, replies, []) == Reading(Err(MalformedPdu), |frags| + 1, (recv + |frags| + 1) % U64)
  {
    ChunksConcat(frags[1..], [last]);
    assert (frags + [last])[1..] == frags[1..] + [last];
    ReadDecided(Verdict, Opener(c, key), recv, frags, last, replies);
  }
}
