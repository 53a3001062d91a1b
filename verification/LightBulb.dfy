/** The reference accessory's characteristic service: one batch of requests against a lightbulb. */
module LightBulb {
  import opened Bytes
  import opened ThreadPdu
  import Tlv8

  const ON_IID: u16 := 9

  const CHAR_WRITE: byte := 0x02
  const CHAR_READ: byte := 0x03
  const READ_DATABASE: byte := 0x09
  const SUBSCRIBE: byte := 0x0B
  const UNSUBSCRIBE: byte := 0x0C

  const SUCCESS: byte := 0
  const UNSUPPORTED: byte := 1
  const INVALID_INSTANCE_ID: byte := 4

  const PARAM_VALUE: byte := 0x01

  datatype Bulb = Bulb(on: bool, subscriptions: set<u16>)

  function ValueBody(value: bytes): bytes
  {
    Tlv8.EncodeAll([Tlv8.Item(PARAM_VALUE, value)])
  }

  function ExtractValue(body: bytes): Option<bytes>
  {
    match Tlv8.Parse(body)
    case Err(_) => None
    case Ok(items) => Tlv8.Get(items, PARAM_VALUE)
  }

  function SyntheticDatabase(): (db: bytes)
    ensures |db| == 2000
  {
    seq<byte>(2000, i requires 0 <= i < 2000 => i % 251)
  }

  function OnByte(on: bool): bytes
  {
    [if on then 1 else 0]
  }

  /** A database read answers whatever the instance id; everything else needs the bulb's own. */
  function Answer(b: Bulb, r: Request): (Bulb, Response)
  {
    if r.opcode == READ_DATABASE then (b, Response(r.tid, SUCCESS, SyntheticDatabase()))
    else if r.iid != ON_IID then (b, Response(r.tid, INVALID_INSTANCE_ID, []))
    else if r.opcode == CHAR_READ then (b, Response(r.tid, SUCCESS, ValueBody(OnByte(b.on))))
    else if r.opcode == CHAR_WRITE then
      match ExtractValue(r.body)
      case Some(value) => (b.(on := value != [] && value[0] != 0), Response(r.tid, SUCCESS, []))
      case None => (b, Response(r.tid, UNSUPPORTED, []))
    else if r.opcode == SUBSCRIBE then (b.(subscriptions := b.subscriptions + {r.iid}), Response(r.tid, SUCCESS, []))
    else if r.opcode == UNSUBSCRIBE then (b.(subscriptions := b.subscriptions - {r.iid}), Response(r.tid, SUCCESS, []))
    else (b, Response(r.tid, UNSUPPORTED, []))
  }

  type Answerer = (Bulb, Request) -> (Bulb, Response)

  function Answering(): Answerer
  {
    (b: Bulb, r: Request) => Answer(b, r)
  }

  function After(answer: Answerer, b: Bulb, reqs: seq<Request>): Bulb
    decreases |reqs|
  {
    if reqs == [] then b else After(answer, answer(b, reqs[0]).0, reqs[1..])
  }

  function Answers(answer: Answerer, b: Bulb, reqs: seq<Request>): (rs: seq<Response>)
    ensures |rs| == |reqs|
    decreases |reqs|
  {
    if reqs == [] then [] else [answer(b, reqs[0]).1] + Answers(answer, answer(b, reqs[0]).0, reqs[1..])
  }

  /** Answer `i` is the answer to request `i` in the state the requests before it left. */
  lemma {:induction false} AnswersAt(answer: Answerer, b: Bulb, reqs: seq<Request>, i: nat)
    requires i < |reqs|
    ensures Answers(answer, b, reqs)[i] == answer(After(answer, b, reqs[..i]), reqs[i]).1
    decreases |reqs|
  {
    if i > 0 {
      AnswersAt(answer, answer(b, reqs[0]).0, reqs[1..], i - 1);
      assert reqs[..i][0] == reqs[0] && reqs[..i][1..] == reqs[1..][..i - 1];
    }
  }

  lemma {:induction false} AfterConcat(answer: Answerer, b: Bulb, xs: seq<Request>, ys: seq<Request>)
    ensures After(answer, b, xs + ys) == After(answer, After(answer, b, xs), ys)
    decreases |xs|
  {
    if xs == [] {
      assert xs + ys == ys;
    } else {
      assert (xs + ys)[0] == xs[0] && (xs + ys)[1..] == xs[1..] + ys;
      AfterConcat(answer, answer(b, xs[0]).0, xs[1..], ys);
    }
  }

  // ---- The state as the last request that sets it ----

  /** A write that sets `On`, and what it sets. */
  function Written(r: Request): Option<bool>
  {
    if r.opcode != CHAR_WRITE || r.iid != ON_IID then None
    else
      match ExtractValue(r.body)
      case None => None
      case Some(value) => Some(value != [] && value[0] != 0)
  }

  predicate Subscribes(r: Request, iid: u16)
  {
    (r.opcode == SUBSCRIBE || r.opcode == UNSUBSCRIBE) && r.iid == ON_IID == iid
  }

  lemma AnswerSets(b: Bulb, r: Request, iid: u16)
    ensures var after := Answer(b, r).0;
            && after.on == (if Written(r).Some? then Written(r).value else b.on)
            && (iid in after.subscriptions <==> if Subscribes(r, iid) then r.opcode == SUBSCRIBE else iid in b.subscriptions)
  {
  }

  lemma {:induction false} Unset(b: Bulb, reqs: seq<Request>, iid: u16)
    ensures (forall i :: 0 <= i < |reqs| ==> Written(reqs[i]).None?) ==> After(Answering(), b, reqs).on == b.on
    ensures (forall i :: 0 <= i < |reqs| ==> !Subscribes(reqs[i], iid)) ==>
              (iid in After(Answering(), b, reqs).subscriptions <==> iid in b.subscriptions)
    decreases |reqs|
  {
    if reqs != [] {
      AnswerSets(b, reqs[0], iid);
      Unset(Answer(b, reqs[0]).0, reqs[1..], iid);
    }
  }

  /** `On` is what the last valid write of the batch set, and what it was if there is none. */
  lemma OnIsLastWritten(b: Bulb, reqs: seq<Request>, k: nat)
    requires k < |reqs| && Written(reqs[k]).Some? && forall i :: k < i < |reqs| ==> Written(reqs[i]).None?
    ensures After(Answering(), b, reqs).on == Written(reqs[k]).value
  {
    LastSets(b, reqs, k, ON_IID);
  }

  /** An instance id is subscribed to if the batch's last word on it says so, and as before if it has none. */
  lemma SubscribedIsLastAsked(b: Bulb, reqs: seq<Request>, k: nat, iid: u16)
    requires k < |reqs| && Subscribes(reqs[k], iid) && forall i :: k < i < |reqs| ==> !Subscribes(reqs[i], iid)
    ensures iid in After(Answering(), b, reqs).subscriptions <==> reqs[k].opcode == SUBSCRIBE
  {
    LastSets(b, reqs, k, iid);
  }

  lemma LastSets(b: Bulb, reqs: seq<Request>, k: nat, iid: u16)
    requires k < |reqs|
    ensures Written(reqs[k]).Some? && (forall i :: k < i < |reqs| ==> Written(reqs[i]).None?) ==>
              After(Answering(), b, reqs).on == Written(reqs[k]).value
    ensures Subscribes(reqs[k], iid) && (forall i :: k < i < |reqs| ==> !Subscribes(reqs[i], iid)) ==>
              (iid in After(Answering(), b, reqs).subscriptions <==> reqs[k].opcode == SUBSCRIBE)
  {
    var before := After(Answering(), b, reqs[..k]);
    var rest := reqs[k..];
    assert reqs == reqs[..k] + rest && rest[0] == reqs[k];
    AfterConcat(Answering(), b, reqs[..k], rest);
    AnswerSets(before, reqs[k], iid);
    assert forall i :: 0 <= i < |rest[1..]| ==> rest[1..][i] == reqs[k + 1 + i];
    Unset(Answer(before, reqs[k]).0, rest[1..], iid);
  }

  /** A request the bulb carries out. */
  predicate Served(r: Request)
  {
    || r.opcode == READ_DATABASE
    || (r.iid == ON_IID && (r.opcode in {CHAR_READ, SUBSCRIBE, UNSUBSCRIBE} || Written(r).Some?))
  }

  /** Success is reported for exactly the requests carried out; the others change nothing and say why. */
  lemma StatusExactly(b: Bulb, r: Request)
    ensures var (next, answer) := Answer(b, r);
            && (answer.status == SUCCESS <==> Served(r))
            && (answer.status != SUCCESS ==> next == b && answer.body == [])
            && (answer.status == INVALID_INSTANCE_ID <==> !Served(r) && r.iid != ON_IID)
            && (answer.body != [] ==> r.opcode in {READ_DATABASE, CHAR_READ} && next == b)
  {
  }

  // ---- The answers as the controller reads them ----

  lemma ValueReads(x: byte)
    ensures ExtractValue(ValueBody([x])) == Some([x]) && |ValueBody([x])| <= 0xFFFF
  {
    var items := [Tlv8.Item(PARAM_VALUE, [x])];
    Tlv8.RoundTripExactly(items);
  }

  lemma AnswerFits(b: Bulb, r: Request)
    ensures Answer(b, r).1.tid == r.tid && |Answer(b, r).1.body| <= 0xFFFF
  {
    ValueReads(0);
    ValueReads(1);
  }

  /** The transaction ids a controller gives a batch. */
  predicate Numbered(reqs: seq<Request>)
  {
    forall i :: 0 <= i < |reqs| ==> reqs[i].tid == if i < 256 then i else 255
  }

  /**
   * The reply to a batch decodes to one answer per request, in order and with its transaction id, exactly
   * when the batch is numbered as the controller numbers it.
   */
  lemma ReplyDecodesExactly(b: Bulb, reqs: seq<Request>)
    ensures forall i :: 0 <= i < |reqs| ==> Answers(Answering(), b, reqs)[i].tid == reqs[i].tid
    ensures DecodeReplies(EncodeResponses(Answers(Answering(), b, reqs)), 0) == Ok(Answers(Answering(), b, reqs)) <==> Numbered(reqs)
  {
    var rs := Answers(Answering(), b, reqs);
    forall i | 0 <= i < |reqs| ensures rs[i].tid == reqs[i].tid && |rs[i].body| <= 0xFFFF {
      AnswersAt(Answering(), b, reqs, i);
      AnswerFits(After(Answering(), b, reqs[..i]), reqs[i]);
    }
    RepliesDecodeExactly(rs, 0);
  }

  /** A read of `On` is answered with its value after the requests before it. */
  lemma ReadAnswered(b: Bulb, reqs: seq<Request>, i: nat)
    requires i < |reqs| && reqs[i].opcode == CHAR_READ && reqs[i].iid == ON_IID
    ensures var r := Answers(Answering(), b, reqs)[i];
            r.status == SUCCESS && ExtractValue(r.body) == Some(OnByte(After(Answering(), b, reqs[..i]).on))
  {
    AnswersAt(Answering(), b, reqs, i);
    ValueReads(0);
    ValueReads(1);
  }

  /** What the two reads answer with: the database, whatever the instance id, and the bulb's value as one item. */
  lemma {:induction false} BodiesExactly(b: Bulb, r: Request)
    ensures r.opcode == 0x09 ==>
              var (next, answer) := Answer(b, r);
              next == b && answer.tid == r.tid && answer.status == 0 && |answer.body| == 2000 && forall i :: 0 <= i < 2000 ==> answer.body[i] == i % 251
    ensures r.opcode == 0x03 && r.iid == 9 ==> Answer(b, r) == (b, Response(r.tid, 0, [0x01, 1, if b.on then 1 else 0]))
    ensures r.opcode !in {0x03, 0x09} ==> Answer(b, r).1.body == []
  {
    var items := [Tlv8.Item(PARAM_VALUE, OnByte(b.on))];
    var value: byte := if b.on then 1 else 0;
    assert items[1..] == [] && Tlv8.EncodeAll(items) == Tlv8.Encode(PARAM_VALUE, [value]) + [];
    assert ValueBody(OnByte(b.on)) == [0x01, 1, value];
    forall i | 0 <= i < 2000 ensures SyntheticDatabase()[i] == i % 251 { }
  }
}
