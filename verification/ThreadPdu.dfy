/** The batched PDUs of HAP over CoAP, and the accessory's answers to them. */
module ThreadPdu {
  import opened Bytes
  import Tlv8

  datatype PduError = Truncated | NotResponse | WrongTid

  // ---- A payload of concatenated PDUs ----

  /** Reads PDU number `i` off the front of a payload: the PDU and its length. */
  type Reader<!T> = (bytes, nat) -> Result<(T, nat), PduError>

  function ReadAll<T>(read: Reader<T>, pdu: bytes, i: nat): Result<seq<T>, PduError>
    decreases |pdu|
  {
    if pdu == [] then Ok([])
    else
      match read(pdu, i)
      case Err(e) => Err(e)
      case Ok(x) =>
        if 0 < x.1 <= |pdu| then Prepend([x.0], ReadAll(read, pdu[x.1..], i + 1)) else Err(Truncated)
  }

  method ReadLoop<T>(read: Reader<T>, pdu: bytes) returns (r: Result<seq<T>, PduError>)
    ensures r == ReadAll(read, pdu, 0)
  {
    var out: seq<T> := [];
    var off := 0;
    assert pdu[0..] == pdu && (ReadAll(read, pdu, 0).Ok? ==> out + ReadAll(read, pdu, 0).value == ReadAll(read, pdu, 0).value);
    while off < |pdu|
      invariant 0 <= off <= |pdu|
      invariant ReadAll(read, pdu, 0) == Prepend(out, ReadAll(read, pdu[off..], |out|))
    {
      var rest := pdu[off..];
      var front := read(rest, |out|);
      if front.Err? { return Err(front.error); }
      var (x, len) := front.value;
      if len == 0 || len > |rest| { return Err(Truncated); }
      assert rest[len..] == pdu[off + len..];
      PrependStep(out, x, ReadAll(read, rest[len..], |out| + 1));
      out := out + [x];
      off := off + len;
    }
    assert pdu[off..] == [] && out + [] == out;
    r := Ok(out);
  }

  function Prepend<T>(front: seq<T>, rest: Result<seq<T>, PduError>): Result<seq<T>, PduError>
  {
    match rest
    case Err(e) => Err(e)
    case Ok(xs) => Ok(front + xs)
  }

  lemma PrependStep<T>(front: seq<T>, x: T, rest: Result<seq<T>, PduError>)
    ensures Prepend(front + [x], rest) == Prepend(front, Prepend([x], rest))
  {
    if rest.Ok? { assert front + [x] + rest.value == front + ([x] + rest.value); }
  }

  // ---- Requests ----

  datatype Request = Request(opcode: byte, tid: byte, iid: u16, body: bytes)

  predicate RequestFits(r: Request)
  {
    |r.body| <= 0xFFFF
  }

  predicate BatchFits(reqs: seq<Request>)
  {
    forall i :: 0 <= i < |reqs| ==> RequestFits(reqs[i])
  }

  /** A length field, capped at 65535. */
  function LenField(n: nat): u16
  {
    if n <= 0xFFFF then n else 0xFFFF
  }

  function EncodeRequest(control: byte, r: Request): bytes
  {
    [control, r.opcode, r.tid] + Le16(r.iid) + Le16(LenField(|r.body|)) + r.body
  }

  /** Concatenated requests, each under a control byte. */
  function EncodeBatch(controls: seq<byte>, reqs: seq<Request>): bytes
    requires |controls| == |reqs|
  {
    if reqs == [] then [] else EncodeRequest(controls[0], reqs[0]) + EncodeBatch(controls[1..], reqs[1..])
  }

  /** The request at the front of `pdu`. */
  function FrontRequest(pdu: bytes): (r: Option<Request>)
    ensures r.Some? ==> RequestFits(r.value) && 7 + |r.value.body| <= |pdu|
  {
    if |pdu| < 7 then None
    else
      var len := FromLe16(pdu[5..7]);
      if |pdu| < 7 + len then None
      else Some(Request(pdu[1], pdu[2], FromLe16(pdu[3..5]), pdu[7..7 + len]))
  }

  function ReadRequest(pdu: bytes): Result<(Request, nat), PduError>
  {
    match FrontRequest(pdu)
    case None => Err(Truncated)
    case Some(r) => Ok((r, 7 + |r.body|))
  }

  function RequestReader(): Reader<Request>
  {
    (pdu: bytes, i: nat) => ReadRequest(pdu)
  }

  function Decode(pdu: bytes): Result<seq<Request>, PduError>
  {
    ReadAll(RequestReader(), pdu, 0)
  }

  method DecodeRequests(pdu: bytes) returns (r: Result<seq<Request>, PduError>)
    ensures r == Decode(pdu)
  {
    r := ReadLoop(RequestReader(), pdu);
  }

  lemma RequestAtFront(control: byte, r: Request, rest: bytes)
    requires RequestFits(r)
    ensures FrontRequest(EncodeRequest(control, r) + rest) == Some(r)
    ensures (EncodeRequest(control, r) + rest)[7 + |r.body|..] == rest
  {
    var pdu := EncodeRequest(control, r) + rest;
    assert pdu[3..5] == Le16(r.iid) && pdu[5..7] == Le16(|r.body|);
    assert pdu[7..7 + |r.body|] == r.body;
  }

  lemma FrontIsEncoded(pdu: bytes)
    requires FrontRequest(pdu).Some?
    ensures var r := FrontRequest(pdu).value; pdu == EncodeRequest(pdu[0], r) + pdu[7 + |r.body|..]
  {
    var r := FrontRequest(pdu).value;
    Le16OfFrom(pdu[3..5]);
    Le16OfFrom(pdu[5..7]);
    assert pdu == pdu[..3] + pdu[3..5] + pdu[5..7] + pdu[7..7 + |r.body|] + pdu[7 + |r.body|..];
    assert pdu[..3] == [pdu[0], r.opcode, r.tid];
  }

  lemma Le16OfFrom(s: bytes)
    requires |s| == 2
    ensures Le16(FromLe16(s)) == s
  {
  }

  /** A payload decodes to a batch exactly when it is that batch encoded, under any control bytes. */
  lemma DecodesExactly(pdu: bytes, reqs: seq<Request>)
    ensures Decode(pdu) == Ok(reqs) <==>
            BatchFits(reqs) && exists controls: seq<byte> :: |controls| == |reqs| && pdu == EncodeBatch(controls, reqs)
  {
    if Decode(pdu) == Ok(reqs) {
      var controls := DecodedIsBatch(pdu, reqs, 0);
    }
    if controls: seq<byte> :| BatchFits(reqs) && |controls| == |reqs| && pdu == EncodeBatch(controls, reqs) {
      BatchDecodes(controls, reqs);
    }
  }

  lemma BatchDecodes(controls: seq<byte>, reqs: seq<Request>)
    requires |controls| == |reqs| && BatchFits(reqs)
    ensures Decode(EncodeBatch(controls, reqs)) == Ok(reqs)
  {
    BatchReads(controls, reqs, 0);
  }

  lemma {:induction false} BatchReads(controls: seq<byte>, reqs: seq<Request>, i: nat)
    requires |controls| == |reqs| && BatchFits(reqs)
    ensures ReadAll(RequestReader(), EncodeBatch(controls, reqs), i) == Ok(reqs)
    decreases |reqs|
  {
    if reqs != [] {
      RequestAtFront(controls[0], reqs[0], EncodeBatch(controls[1..], reqs[1..]));
      BatchReads(controls[1..], reqs[1..], i + 1);
      assert reqs == [reqs[0]] + reqs[1..];
    }
  }

  lemma {:induction false} DecodedIsBatch(pdu: bytes, reqs: seq<Request>, i: nat) returns (controls: seq<byte>)
    requires ReadAll(RequestReader(), pdu, i) == Ok(reqs)
    ensures BatchFits(reqs) && |controls| == |reqs| && pdu == EncodeBatch(controls, reqs)
    decreases |pdu|
  {
    if pdu == [] {
      controls := [];
    } else {
      var r := FrontRequest(pdu).value;
      FrontIsEncoded(pdu);
      assert reqs[1..] == ReadAll(RequestReader(), pdu[7 + |r.body|..], i + 1).value;
      var rest := DecodedIsBatch(pdu[7 + |r.body|..], reqs[1..], i + 1);
      controls := [pdu[0]] + rest;
      assert controls[1..] == rest;
    }
  }

  // ---- Responses ----

  datatype Response = Response(tid: byte, status: byte, body: bytes)

  function EncodeResponse(r: Response): bytes
  {
    [0x02, r.tid, r.status] + Le16(LenField(|r.body|)) + r.body
  }

  function EncodeResponses(rs: seq<Response>): bytes
  {
    if rs == [] then [] else EncodeResponse(rs[0]) + EncodeResponses(rs[1..])
  }

  /** Bits 1 to 3 of the control byte must read exactly 1. */
  predicate ResponseControl(control: byte)
  {
    control / 2 % 8 == 1
  }

  function FrontResponse(pdu: bytes): (r: Result<Response, PduError>)
    ensures r.Ok? ==> 5 + |r.value.body| <= |pdu|
  {
    if |pdu| < 5 then Err(Truncated)
    else if !ResponseControl(pdu[0]) then Err(NotResponse)
    else
      var len := FromLe16(pdu[3..5]);
      if |pdu| < 5 + len then Err(Truncated) else Ok(Response(pdu[1], pdu[2], pdu[5..5 + len]))
  }

  /** The transaction id of entry `i` of a batch. */
  function TidAt(i: nat): byte
  {
    if i <= 0xFF then i else 0xFF
  }

  /** The controller takes the answers only in the order of its batch. */
  function ReadReply(pdu: bytes, i: nat): Result<(Response, nat), PduError>
  {
    match FrontResponse(pdu)
    case Err(e) => Err(e)
    case Ok(r) => if r.tid != TidAt(i) then Err(WrongTid) else Ok((r, 5 + |r.body|))
  }

  function ReplyReader(): Reader<Response>
  {
    (pdu: bytes, i: nat) => ReadReply(pdu, i)
  }

  function DecodeReplies(pdu: bytes, i: nat): Result<seq<Response>, PduError>
  {
    ReadAll(ReplyReader(), pdu, i)
  }

  method DecodeAll(pdu: bytes) returns (r: Result<seq<Response>, PduError>)
    ensures r == DecodeReplies(pdu, 0)
  {
    r := ReadLoop(ReplyReader(), pdu);
  }

  lemma ResponseAtFront(r: Response, rest: bytes)
    requires |r.body| <= 0xFFFF
    ensures FrontResponse(EncodeResponse(r) + rest) == Ok(r)
    ensures (EncodeResponse(r) + rest)[5 + |r.body|..] == rest
  {
    var pdu := EncodeResponse(r) + rest;
    assert pdu[3..5] == Le16(|r.body|);
    assert pdu[5..5 + |r.body|] == r.body;
  }

  predicate InOrder(rs: seq<Response>, i: nat)
  {
    forall k :: 0 <= k < |rs| ==> rs[k].tid == if i + k < 256 then i + k else 255
  }

  /** Encoded answers are read back exactly when their transaction ids count up from the batch's start. */
  lemma {:induction false} RepliesDecodeExactly(rs: seq<Response>, i: nat)
    requires forall k :: 0 <= k < |rs| ==> |rs[k].body| <= 0xFFFF
    ensures DecodeReplies(EncodeResponses(rs), i) == Ok(rs) <==> InOrder(rs, i)
    ensures !InOrder(rs, i) ==> DecodeReplies(EncodeResponses(rs), i) == Err(WrongTid)
    decreases |rs|
  {
    if rs != [] {
      ResponseAtFront(rs[0], EncodeResponses(rs[1..]));
      RepliesDecodeExactly(rs[1..], i + 1);
      assert rs == [rs[0]] + rs[1..];
      assert InOrder(rs, i) <==> rs[0].tid == TidAt(i) && InOrder(rs[1..], i + 1) by {
        assert rs[0].tid == TidAt(i) && InOrder(rs[1..], i + 1) ==>
               forall k :: 0 < k < |rs| ==> rs[k] == rs[1..][k - 1] && rs[k].tid == TidAt(i + k);
      }
    }
  }

  // ---- Layout ----

  /** A request and a response as they lie in the payload. */
  lemma {:induction false} Layout(control: byte, q: Request, r: Response)
    requires RequestFits(q) && |r.body| <= 0xFFFF
    ensures EncodeRequest(control, q) == [control, q.opcode, q.tid, q.iid % 256, q.iid / 256, |q.body| % 256, |q.body| / 256] + q.body
    ensures EncodeResponse(r) == [0x02, r.tid, r.status, |r.body| % 256, |r.body| / 256] + r.body
  {
  }

  /** Concatenated responses under any control bytes that mark one. */
  function EncodeReplies(controls: seq<byte>, rs: seq<Response>): bytes
    requires |controls| == |rs| && forall k :: 0 <= k < |rs| ==> |rs[k].body| <= 0xFFFF
  {
    if rs == [] then []
    else [controls[0], rs[0].tid, rs[0].status, |rs[0].body| % 256, |rs[0].body| / 256] + rs[0].body + EncodeReplies(controls[1..], rs[1..])
  }

  ghost predicate AreReplies(pdu: bytes, rs: seq<Response>, i: nat)
  {
    && (forall k :: 0 <= k < |rs| ==> |rs[k].body| <= 0xFFFF) && InOrder(rs, i)
    && exists controls: seq<byte> :: |controls| == |rs| && (forall k :: 0 <= k < |rs| ==> controls[k] / 2 % 8 == 1) && pdu == EncodeReplies(controls, rs)
  }

  /** The controller takes exactly the payloads that are responses, in the order of its batch, and nothing else. */
  lemma {:induction false} RepliesReadExactly(pdu: bytes, rs: seq<Response>, i: nat)
    ensures DecodeReplies(pdu, i) == Ok(rs) <==> AreReplies(pdu, rs, i)
  {
    if DecodeReplies(pdu, i) == Ok(rs) {
      var controls := ReadAreReplies(pdu, rs, i);
    }
    if controls: seq<byte> :| (forall k :: 0 <= k < |rs| ==> |rs[k].body| <= 0xFFFF) && InOrder(rs, i) && |controls| == |rs|
                              && (forall k :: 0 <= k < |rs| ==> controls[k] / 2 % 8 == 1) && pdu == EncodeReplies(controls, rs) {
      RepliesAreRead(controls, rs, i);
    }
  }

  lemma {:induction false} RepliesAreRead(controls: seq<byte>, rs: seq<Response>, i: nat)
    requires |controls| == |rs| && (forall k :: 0 <= k < |rs| ==> |rs[k].body| <= 0xFFFF) && InOrder(rs, i)
    requires forall k :: 0 <= k < |rs| ==> controls[k] / 2 % 8 == 1
    ensures DecodeReplies(EncodeReplies(controls, rs), i) == Ok(rs)
    decreases |rs|
  {
    if rs != [] {
      var pdu, r := EncodeReplies(controls, rs), rs[0];
      assert pdu[3..5] == Le16(|r.body|) && pdu[5..5 + |r.body|] == r.body && pdu[5 + |r.body|..] == EncodeReplies(controls[1..], rs[1..]);
      assert FrontResponse(pdu) == Ok(r) && r.tid == TidAt(i + 0);
      assert forall k :: 0 <= k < |rs[1..]| ==> rs[1..][k] == rs[k + 1] && rs[1..][k].tid == TidAt(i + 1 + k);
      RepliesAreRead(controls[1..], rs[1..], i + 1);
      assert rs == [r] + rs[1..];
    }
  }

  lemma {:induction false} ReadAreReplies(pdu: bytes, rs: seq<Response>, i: nat) returns (controls: seq<byte>)
    requires DecodeReplies(pdu, i) == Ok(rs)
    ensures (forall k :: 0 <= k < |rs| ==> |rs[k].body| <= 0xFFFF) && InOrder(rs, i)
    ensures |controls| == |rs| && (forall k :: 0 <= k < |rs| ==> controls[k] / 2 % 8 == 1) && pdu == EncodeReplies(controls, rs)
    decreases |pdu|
  {
    controls := [];
    if pdu != [] {
      var r := FrontResponse(pdu).value;
      var end := 5 + |r.body|;
      assert rs == [r] + DecodeReplies(pdu[end..], i + 1).value && rs[1..] == DecodeReplies(pdu[end..], i + 1).value;
      var rest := ReadAreReplies(pdu[end..], rs[1..], i + 1);
      controls := [pdu[0]] + rest;
      assert controls[1..] == rest;
      FrontIsReply(pdu);
      InOrderFrom(r, rs[1..], i);
    }
  }

  lemma {:induction false} FrontIsReply(pdu: bytes)
    requires FrontResponse(pdu).Ok?
    ensures var r := FrontResponse(pdu).value;
            && |r.body| <= 0xFFFF && pdu[0] / 2 % 8 == 1
            && pdu == [pdu[0], r.tid, r.status, |r.body| % 256, |r.body| / 256] + r.body + pdu[5 + |r.body|..]
  {
    var r := FrontResponse(pdu).value;
    Le16OfFrom(pdu[3..5]);
    assert pdu == pdu[..3] + pdu[3..5] + pdu[5..5 + |r.body|] + pdu[5 + |r.body|..] && pdu[..3] == [pdu[0], r.tid, r.status];
  }

  lemma {:induction false} InOrderFrom(r: Response, rest: seq<Response>, i: nat)
    requires r.tid == TidAt(i) && InOrder(rest, i + 1) && |r.body| <= 0xFFFF && forall k :: 0 <= k < |rest| ==> |rest[k].body| <= 0xFFFF
    ensures InOrder([r] + rest, i) && forall k :: 0 <= k < |[r] + rest| ==> |([r] + rest)[k].body| <= 0xFFFF
  {
    forall k | 0 <= k < |[r] + rest| ensures ([r] + rest)[k].tid == TidAt(i + k) {
      if k > 0 { assert rest[k - 1].tid == TidAt(i + 1 + (k - 1)); }
    }
  }
}
