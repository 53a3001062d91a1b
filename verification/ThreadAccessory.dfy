/** The reference accessory's resources: Pair Setup, Pair Verify and sealed batches over one set of fields. */
module ThreadAccessory {
  import opened Bytes
  import opened Primitives
  import opened Pairing
  import opened Sessions
  import opened ThreadPdu
  import opened LightBulb
  import BlockTransfer
  import PairSetup
  import PairVerify
  import SetupRuns

  type Code = BlockTransfer.Code

  // ---- The secure resource ----

  /** What serving one sealed payload leaves behind. */
  datatype Served = Served(code: Code, reply: bytes, recv: u64, send: u64, bulb: Bulb)

  function ServeSecure(c: Suite, keys: PairVerify.Keys, recv: u64, send: u64, bulb: Bulb, payload: bytes): Served
  {
    match c.open(keys.write, CounterNonce(recv), payload)
    case None => Served(BlockTransfer.Unauthorized, [], recv, send, bulb)
    case Some(plaintext) =>
      match Decode(plaintext)
      case Err(_) => Served(BlockTransfer.BadRequest, [], Next(recv), send, bulb)
      case Ok(reqs) =>
        var reply := EncodeResponses(Answers(Answering(), bulb, reqs));
        Served(BlockTransfer.Changed, c.seal(keys.read, CounterNonce(send), reply), Next(recv), Next(send),
               After(Answering(), bulb, reqs))
  }

  lemma {:induction false} EncodeResponsesAppend(rs: seq<Response>, r: Response)
    ensures EncodeResponses(rs + [r]) == EncodeResponses(rs) + EncodeResponse(r)
  {
    if rs == [] {
      assert [] + [r] == [r] && [r][1..] == [];
    } else {
      assert (rs + [r])[0] == rs[0] && (rs + [r])[1..] == rs[1..] + [r];
      EncodeResponsesAppend(rs[1..], r);
    }
  }

  /** Answering a batch takes one request at a time off its front. */
  lemma BatchStep(answer: Answerer, b: Bulb, reqs: seq<Request>, i: nat, done: seq<Response>)
    requires i < |reqs|
    ensures var (next, response) := answer(b, reqs[i]);
            && After(answer, b, reqs[i..]) == After(answer, next, reqs[i + 1..])
            && done + Answers(answer, b, reqs[i..]) == done + [response] + Answers(answer, next, reqs[i + 1..])
  {
    assert reqs[i..][0] == reqs[i] && reqs[i..][1..] == reqs[i + 1..];
  }

  /** A session as the request and response counters see it. */
  datatype Session = Session(keys: PairVerify.Keys, recv: u64, send: u64)

  /** The `/2` slot and the session it yields. */
  datatype VerifyState = VerifyState(slot: Option<PairVerify.InProgress>, session: Option<Session>)

  /** One request to `/2`. An M3 empties the slot before it is looked at; a new session replaces the old. */
  function ServeVerify(c: Suite, me: Identity, controller: Option<Peer>, s: VerifyState, payload: bytes, eph: bytes)
    : (VerifyState, Code, bytes)
  {
    match SetupRuns.MessageState(payload)
    case Some(state) =>
      if state == 1 then
        match PairVerify.VerifyM1(c, me, payload, eph)
        case Ok(r) => (s.(slot := Some(r.1)), BlockTransfer.Changed, r.0)
        case Err(_) => (s, BlockTransfer.BadRequest, [])
      else if state == 3 then
        if s.slot.None? || controller.None? then (s.(slot := None), BlockTransfer.BadRequest, [])
        else
          match PairVerify.VerifyM3(c, s.slot.value, controller.value, payload)
          case Ok(r) => (VerifyState(None, if r.1.Some? then Some(Session(r.1.value, 0, 0)) else s.session), BlockTransfer.Changed, r.0)
          case Err(_) => (s.(slot := None), BlockTransfer.BadRequest, [])
      else (s, BlockTransfer.BadRequest, [])
    case None => (s, BlockTransfer.BadRequest, [])
  }

  /** A request to `/2`, the randomness an accepted M1 would draw, and the controller paired at the time. */
  datatype VerifyRequest = VerifyRequest(payload: bytes, eph: bytes, controller: Option<Peer>)

  function VerifyNext(c: Suite, me: Identity, s: VerifyState, r: VerifyRequest): VerifyState
  {
    ServeVerify(c, me, r.controller, s, r.payload, r.eph).0
  }

  function VerifyAll(c: Suite, me: Identity, reqs: seq<VerifyRequest>): VerifyState
  {
    if reqs == [] then VerifyState(None, None)
    else VerifyNext(c, me, VerifyAll(c, me, reqs[..|reqs| - 1]), reqs[|reqs| - 1])
  }

  /** The exchange an accepted M1 opens. */
  function Opens(c: Suite, me: Identity, r: VerifyRequest): Option<PairVerify.InProgress>
  {
    if SetupRuns.MessageState(r.payload) != Some(1) then None
    else
      match PairVerify.VerifyM1(c, me, r.payload, r.eph)
      case Err(_) => None
      case Ok(answer) => Some(answer.1)
  }

  predicate Takes(r: VerifyRequest)
  {
    SetupRuns.MessageState(r.payload) == Some(3)
  }

  lemma VerifyStep(c: Suite, me: Identity, s: VerifyState, r: VerifyRequest)
    ensures var next := VerifyNext(c, me, s, r);
            && next.slot == (if Opens(c, me, r).Some? then Opens(c, me, r) else if Takes(r) then None else s.slot)
            && (next.session != s.session ==>
                  Takes(r) && s.slot.Some? && r.controller.Some? && next.session.Some? &&
                  var answer := PairVerify.VerifyM3(c, s.slot.value, r.controller.value, r.payload);
                  answer.Ok? && answer.value.1.Some? && next.session.value == Session(answer.value.1.value, 0, 0))
  {
  }

  type Opener = VerifyRequest -> Option<PairVerify.InProgress>

  function OpenerOf(c: Suite, me: Identity): Opener
  {
    (r: VerifyRequest) => Opens(c, me, r)
  }

  /** Request `i` opened this exchange, and nothing since has opened or taken one. */
  ghost predicate PendingSince(opens: Opener, takes: VerifyRequest -> bool, reqs: seq<VerifyRequest>, i: nat, p: PairVerify.InProgress)
  {
    && i < |reqs| && opens(reqs[i]) == Some(p)
    && forall j :: i < j < |reqs| ==> opens(reqs[j]).None? && !takes(reqs[j])
  }

  /** The slot holds an exchange if and only if it is that of the last accepted M1, with no M3 since. */
  lemma {:induction false} SlotIsLastOpened(c: Suite, me: Identity, reqs: seq<VerifyRequest>, p: PairVerify.InProgress)
    ensures VerifyAll(c, me, reqs).slot == Some(p) <==> exists i :: PendingSince(OpenerOf(c, me), Takes, reqs, i, p)
  {
    if reqs != [] {
      var n := |reqs| - 1;
      SlotIsLastOpened(c, me, reqs[..n], p);
      VerifyStep(c, me, VerifyAll(c, me, reqs[..n]), reqs[n]);
      PendingStep(OpenerOf(c, me), Takes, reqs[..n], reqs[n], VerifyAll(c, me, reqs[..n]).slot, p);
      assert reqs[..n] + [reqs[n]] == reqs;
    }
  }

  lemma PendingStep(opens: Opener, takes: VerifyRequest -> bool, reqs: seq<VerifyRequest>, r: VerifyRequest,
                    slot: Option<PairVerify.InProgress>, p: PairVerify.InProgress)
    requires slot == Some(p) <==> exists i :: PendingSince(opens, takes, reqs, i, p)
    ensures var next := if opens(r).Some? then opens(r) else if takes(r) then None else slot;
            next == Some(p) <==> exists i :: PendingSince(opens, takes, reqs + [r], i, p)
  {
    if opens(r).Some? {
      assert opens(r) == Some(p) ==> PendingSince(opens, takes, reqs + [r], |reqs|, p);
    } else if !takes(r) && slot == Some(p) {
      var i :| PendingSince(opens, takes, reqs, i, p);
      assert PendingSince(opens, takes, reqs + [r], i, p);
    }
    if i: nat :| PendingSince(opens, takes, reqs + [r], i, p) {
      assert (reqs + [r])[|reqs|] == r;
      if i < |reqs| {
        assert forall j :: i < j < |reqs| ==> (reqs + [r])[j] == reqs[j];
        assert PendingSince(opens, takes, reqs, i, p);
      }
    }
  }

  /** The exchange request `j` meets, and the accepted M1 that opened it. */
  lemma ExchangeMet(c: Suite, me: Identity, reqs: seq<VerifyRequest>, j: nat) returns (i: nat)
    requires j < |reqs| && VerifyAll(c, me, reqs[..j]).slot.Some?
    ensures PendingSince(OpenerOf(c, me), Takes, reqs[..j], i, VerifyAll(c, me, reqs[..j]).slot.value)
  {
    var p := VerifyAll(c, me, reqs[..j]).slot.value;
    SlotIsLastOpened(c, me, reqs[..j], p);
    i :| PendingSince(OpenerOf(c, me), Takes, reqs[..j], i, p);
  }

  /** Two M3s that each find an exchange find those of two different M1s: the first uses its own up. */
  lemma ExchangeConsumedOnce(c: Suite, me: Identity, reqs: seq<VerifyRequest>, j: nat, j': nat) returns (i: nat, i': nat)
    requires j < j' < |reqs| && Takes(reqs[j]) && Takes(reqs[j'])
    requires VerifyAll(c, me, reqs[..j]).slot.Some? && VerifyAll(c, me, reqs[..j']).slot.Some?
    ensures i < j < i' < j'
    ensures PendingSince(OpenerOf(c, me), Takes, reqs[..j], i, VerifyAll(c, me, reqs[..j]).slot.value)
    ensures PendingSince(OpenerOf(c, me), Takes, reqs[..j'], i', VerifyAll(c, me, reqs[..j']).slot.value)
  {
    i := ExchangeMet(c, me, reqs, j);
    i' := ExchangeMet(c, me, reqs, j');
    assert reqs[..j'][j] == reqs[j] && Opens(c, me, reqs[j]).None?;
  }

  /**
   * Over every sequence of `/2` requests, a session changes hands only on an M3 that carries the signature of the
   * controller then paired over the exchange of the last accepted M1, with no other M3 between them; its keys are
   * those of that exchange and its counters start at zero.
   */
  lemma SessionIsVerified(c: Suite, me: Identity, reqs: seq<VerifyRequest>, last: VerifyRequest)
    returns (i: nat, progress: PairVerify.InProgress, sig: bytes)
    requires VerifyAll(c, me, reqs + [last]).session != VerifyAll(c, me, reqs).session
    ensures PendingSince(OpenerOf(c, me), Takes, reqs, i, progress)
    ensures Takes(last) && last.controller.Some?
    ensures PairVerify.Proves(c, progress.pvKey, "PV-Msg03", last.payload, last.controller.value, progress.ctrlEph, progress.accEph, sig)
    ensures VerifyAll(c, me, reqs + [last]).session == Some(Session(PairVerify.DeriveKeys(c, progress.shared), 0, 0))
  {
    assert (reqs + [last])[..|reqs|] == reqs;
    VerifyStep(c, me, VerifyAll(c, me, reqs), last);
    progress := VerifyAll(c, me, reqs).slot.value;
    SlotIsLastOpened(c, me, reqs, progress);
    i :| PendingSince(OpenerOf(c, me), Takes, reqs, i, progress);
    sig := PairVerify.AcceptedM3Proves(c, progress, last.controller.value, last.payload);
  }

  // ---- The accessory as a whole ----

  datatype Setting = Setting(suite: Suite, setup: SetupRuns.Config, framing: BlockTransfer.Framing)

  /** Everything a datagram can change. */
  datatype Device = Device(
    setup: SetupRuns.Slot,
    controller: Option<Peer>,
    verify: Option<PairVerify.InProgress>,
    session: Option<Session>,
    bulb: Bulb,
    cache: Option<BlockTransfer.Cached>)

  datatype Path = Identify | PairSetupPath | PairVerifyPath | SecurePath | UnknownPath

  /** A request datagram with its Block2 number, if any, and the randomness its handler would draw. */
  datatype Incoming = Incoming(peer: nat, path: Path, payload: bytes, block: Option<nat>, salt: bytes, b: nat, eph: bytes)

  function CodeOf(code: SetupRuns.Code): Code
  {
    match code
    case Changed => BlockTransfer.Changed
    case BadRequest => BlockTransfer.BadRequest
    case NotFound => BlockTransfer.NotFound
  }

  /** The handler of a path. */
  function Handle(g: Setting, d: Device, m: Incoming): (Device, Code, bytes)
  {
    match m.path
    case Identify => (d, BlockTransfer.Changed, [])
    case PairSetupPath =>
      var (next, code, reply) :=
        SetupRuns.Serve(g.suite, g.setup, SetupRuns.Accessory(d.setup, d.controller), SetupRuns.Request(m.payload, m.salt, m.b));
      (d.(setup := next.slot, controller := next.controller), CodeOf(code), reply)
    case PairVerifyPath =>
      var (next, code, reply) := ServeVerify(g.suite, g.setup.me, d.controller, VerifyState(d.verify, d.session), m.payload, m.eph);
      (d.(verify := next.slot, session := next.session), code, reply)
    case SecurePath =>
      if d.session.None? then (d, BlockTransfer.Unauthorized, [])
      else
        var s := d.session.value;
        var served := ServeSecure(g.suite, s.keys, s.recv, s.send, d.bulb, m.payload);
        (d.(session := Some(Session(s.keys, served.recv, served.send)), bulb := served.bulb), served.code, served.reply)
    case UnknownPath => (d, BlockTransfer.NotFound, [])
  }

  predicate IsContinuation(g: Setting, m: Incoming)
  {
    g.framing.blockwise.Some? && m.block.Some? && m.block.value > 0
  }

  /** One datagram: a continuation is served from the cache without running a handler. */
  function Receive(g: Setting, d: Device, m: Incoming): (Device, Option<BlockTransfer.Datagram>)
  {
    if IsContinuation(g, m) then
      var (cache, out) := BlockTransfer.Continue(g.framing, d.cache, m.peer, m.block.value);
      (d.(cache := cache), out)
    else
      var (next, code, reply) := Handle(g, d, m);
      var (cache, out) := BlockTransfer.Respond(g.framing, next.cache, m.peer, code, reply);
      (next.(cache := cache), Some(out))
  }

  type Receiver = (Device, Incoming) -> (Device, Option<BlockTransfer.Datagram>)

  function ReceiverOf(g: Setting): Receiver
  {
    (d: Device, m: Incoming) => Receive(g, d, m)
  }

  function ReceiveAll(receive: Receiver, d: Device, ms: seq<Incoming>): Device
    decreases |ms|
  {
    if ms == [] then d else ReceiveAll(receive, receive(d, ms[0]).0, ms[1..])
  }

  class ReferenceAccessory {
    const suite: Suite
    const setupConfig: SetupRuns.Config
    const blocks: BlockTransfer.BlockServer
    var setup: SetupRuns.Slot
    var controller: Option<Peer>
    var verify: Option<PairVerify.InProgress>
    var session: AccessorySession?
    var on: bool
    var subscriptions: set<u16>

    ghost predicate Valid()
      reads this
    {
      session != null ==> session.suite == suite
    }

    ghost function BulbState(): Bulb
      reads this
    {
      Bulb(on, subscriptions)
    }

    ghost function SessionState(): Option<Session>
      reads this, session
    {
      if session == null then None else Some(Session(session.keys, session.recvCtr, session.sendCtr))
    }

    ghost function Model(): Device
      reads this, session, blocks
    {
      Device(setup, controller, verify, SessionState(), BulbState(), blocks.cache)
    }

    ghost function Config(): Setting
    {
      Setting(suite, setupConfig, blocks.framing)
    }

    constructor (suite: Suite, setupConfig: SetupRuns.Config, framing: BlockTransfer.Framing)
      requires BlockTransfer.ValidFraming(framing)
      ensures Valid() && fresh(blocks) && Config() == Setting(suite, setupConfig, framing)
      ensures Model() == Device(SetupRuns.Empty, None, None, None, Bulb(false, {}), None)
    {
      this.suite := suite;
      this.setupConfig := setupConfig;
      blocks := new BlockTransfer.BlockServer(framing);
      setup, controller, verify, session := SetupRuns.Empty, None, None, null;
      on, subscriptions := false, {};
    }

    /** The serve loop's turn for one datagram. */
    method ReceiveDatagram(m: Incoming) returns (out: Option<BlockTransfer.Datagram>)
      requires Valid()
      modifies this, session, blocks
      ensures Valid() && (session == old(session) || fresh(session))
      ensures (Model(), out) == Receive(Config(), old(Model()), m)
    {
      if blocks.framing.blockwise.Some? && m.block.Some? && m.block.value > 0 {
        out := blocks.ServeCachedBlock(m.peer, m.block.value);
        return;
      }
      var code, reply := HandlePath(m);
      var d := blocks.SendResponse(m.peer, code, reply);
      out := Some(d);
    }

    method HandlePath(m: Incoming) returns (code: Code, reply: bytes)
      requires Valid()
      modifies this, session
      ensures Valid() && (session == old(session) || fresh(session))
      ensures (Model(), code, reply) == Handle(Config(), old(Model()), m)
    {
      match m.path {
        case Identify => return BlockTransfer.Changed, [];
        case PairSetupPath =>
          var answer;
          answer, reply := AnswerSetup(SetupRuns.Request(m.payload, m.salt, m.b));
          return CodeOf(answer), reply;
        case PairVerifyPath => code, reply := AnswerVerify(m.payload, m.eph);
        case SecurePath => code, reply := SecurePdu(m.payload);
        case UnknownPath => return BlockTransfer.NotFound, [];
      }
    }

    /** `/1`: the slot is taken before an M3 or an M5 is looked at. */
    method AnswerSetup(req: SetupRuns.Request) returns (code: SetupRuns.Code, reply: bytes)
      requires Valid()
      modifies this`setup, this`controller
      ensures Valid()
      ensures (SetupRuns.Accessory(setup, controller), code, reply)
           == SetupRuns.Serve(suite, setupConfig, SetupRuns.Accessory(old(setup), old(controller)), req)
    {
      if setupConfig.code.None? { return SetupRuns.NotFound, []; }
      var state := SetupRuns.MessageState(req.payload);
      if state == Some(1) {
        code, reply := AnswerM1(req);
      } else if state == Some(3) {
        code, reply := AnswerM3(req);
      } else if state == Some(5) {
        code, reply := AnswerM5(req);
      } else {
        return SetupRuns.BadRequest, [];
      }
    }

    method AnswerM1(req: SetupRuns.Request) returns (code: SetupRuns.Code, reply: bytes)
      requires setupConfig.code.Some?
      modifies this`setup
      ensures match SetupRuns.AnswerM1(suite, setupConfig, req)
              case Err(_) => setup == old(setup) && code.BadRequest? && reply == []
              case Ok(r) => setup == SetupRuns.AwaitM3(r.1) && code.Changed? && reply == r.0
    {
      var answer := SetupRuns.AnswerM1(suite, setupConfig, req);
      if answer.Err? { return SetupRuns.BadRequest, []; }
      setup := SetupRuns.AwaitM3(answer.value.1);
      return SetupRuns.Changed, answer.value.0;
    }

    method AnswerM3(req: SetupRuns.Request) returns (code: SetupRuns.Code, reply: bytes)
      modifies this`setup
      ensures !old(setup).AwaitM3? ==> setup.Empty? && code.BadRequest? && reply == []
      ensures old(setup).AwaitM3? ==>
                match PairSetup.SetupM3(suite, old(setup).server, req.payload)
                case Err(_) => setup.Empty? && code.BadRequest? && reply == []
                case Ok(r) => setup == (if r.1.Some? then SetupRuns.AwaitM5(r.1.value) else SetupRuns.Empty) && code.Changed? && reply == r.0
    {
      var progress := setup;
      setup := SetupRuns.Empty;
      if !progress.AwaitM3? { return SetupRuns.BadRequest, []; }
      var answer := PairSetup.SetupM3(suite, progress.server, req.payload);
      if answer.Err? { return SetupRuns.BadRequest, []; }
      if answer.value.1.Some? { setup := SetupRuns.AwaitM5(answer.value.1.value); }
      return SetupRuns.Changed, answer.value.0;
    }

    method AnswerM5(req: SetupRuns.Request) returns (code: SetupRuns.Code, reply: bytes)
      modifies this`setup, this`controller
      ensures setup.Empty?
      ensures !old(setup).AwaitM5? ==> controller == old(controller) && code.BadRequest? && reply == []
      ensures old(setup).AwaitM5? ==>
                match PairSetup.SetupM5(suite, old(setup).key, setupConfig.me, req.payload)
                case Err(_) => controller == old(controller) && code.BadRequest? && reply == []
                case Ok(r) => controller == (if r.1.Some? then r.1 else old(controller)) && code.Changed? && reply == r.0
    {
      var progress := setup;
      setup := SetupRuns.Empty;
      if !progress.AwaitM5? { return SetupRuns.BadRequest, []; }
      var answer := PairSetup.SetupM5(suite, progress.key, setupConfig.me, req.payload);
      if answer.Err? { return SetupRuns.BadRequest, []; }
      if answer.value.1.Some? { controller := answer.value.1; }
      return SetupRuns.Changed, answer.value.0;
    }

    /** `/2`: a verified M3 installs a session with its counters at zero. */
    method AnswerVerify(payload: bytes, eph: bytes) returns (code: Code, reply: bytes)
      requires Valid()
      modifies this`verify, this`session
      ensures Valid()
      ensures session == old(session) || (fresh(session) && session.recvCtr == session.sendCtr == session.eventCtr == 0)
      ensures (VerifyState(verify, SessionState()), code, reply)
           == ServeVerify(suite, setupConfig.me, controller, VerifyState(old(verify), old(SessionState())), payload, eph)
    {
      var state := SetupRuns.MessageState(payload);
      if state == Some(1) {
        var answer := PairVerify.VerifyM1(suite, setupConfig.me, payload, eph);
        if answer.Err? { return BlockTransfer.BadRequest, []; }
        verify := Some(answer.value.1);
        return BlockTransfer.Changed, answer.value.0;
      } else if state == Some(3) {
        var progress := verify;
        verify := None;
        if progress.None? || controller.None? { return BlockTransfer.BadRequest, []; }
        var answer := PairVerify.VerifyM3(suite, progress.value, controller.value, payload);
        if answer.Err? { return BlockTransfer.BadRequest, []; }
        if answer.value.1.Some? { session := new AccessorySession(suite, answer.value.1.value); }
        return BlockTransfer.Changed, answer.value.0;
      }
      return BlockTransfer.BadRequest, [];
    }

    /** One characteristic request, as its encoded response. */
    method HandleChar(r: Request) returns (pdu: bytes)
      modifies this`on, this`subscriptions
      ensures BulbState() == Answering()(old(BulbState()), r).0 && pdu == EncodeResponse(Answering()(old(BulbState()), r).1)
    {
      if r.opcode == READ_DATABASE { return EncodeResponse(Response(r.tid, SUCCESS, SyntheticDatabase())); }
      if r.iid != ON_IID { return EncodeResponse(Response(r.tid, INVALID_INSTANCE_ID, [])); }
      if r.opcode == CHAR_READ {
        pdu := EncodeResponse(Response(r.tid, SUCCESS, ValueBody(OnByte(on))));
      } else if r.opcode == CHAR_WRITE {
        var value := ExtractValue(r.body);
        if value.None? { return EncodeResponse(Response(r.tid, UNSUPPORTED, [])); }
        on := value.value != [] && value.value[0] != 0;
        pdu := EncodeResponse(Response(r.tid, SUCCESS, []));
      } else if r.opcode == SUBSCRIBE {
        subscriptions := subscriptions + {r.iid};
        pdu := EncodeResponse(Response(r.tid, SUCCESS, []));
      } else if r.opcode == UNSUBSCRIBE {
        subscriptions := subscriptions - {r.iid};
        pdu := EncodeResponse(Response(r.tid, SUCCESS, []));
      } else {
        pdu := EncodeResponse(Response(r.tid, UNSUPPORTED, []));
      }
    }

    method HandleBatch(reqs: seq<Request>) returns (responses: bytes)
      modifies this`on, this`subscriptions
      ensures BulbState() == After(Answering(), old(BulbState()), reqs)
      ensures responses == EncodeResponses(Answers(Answering(), old(BulbState()), reqs))
    {
      responses := [];
      ghost var done: seq<Response> := [];
      ghost var b := BulbState();
      var i := 0;
      while i < |reqs|
        invariant 0 <= i <= |reqs| && responses == EncodeResponses(done)
        invariant After(Answering(), BulbState(), reqs[i..]) == After(Answering(), b, reqs)
        invariant done + Answers(Answering(), BulbState(), reqs[i..]) == Answers(Answering(), b, reqs)
      {
        BatchStep(Answering(), BulbState(), reqs, i, done);
        ghost var answer := Answering()(BulbState(), reqs[i]).1;
        var pdu := HandleChar(reqs[i]);
        EncodeResponsesAppend(done, answer);
        done := done + [answer];
        responses := responses + pdu;
        i := i + 1;
      }
      assert reqs[i..] == [] && done + [] == done;
    }

    /** `/`: a payload that does not open costs nothing; one that does not decode has spent a receive counter. */
    method SecurePdu(payload: bytes) returns (code: Code, reply: bytes)
      requires Valid()
      modifies this`on, this`subscriptions, session
      ensures Valid()
      ensures session == null ==> code == BlockTransfer.Unauthorized && reply == [] && BulbState() == old(BulbState())
      ensures session != null ==>
                Served(code, reply, session.recvCtr, session.sendCtr, BulbState()) ==
                  ServeSecure(suite, session.keys, old(if session == null then 0 else session.recvCtr),
                              old(if session == null then 0 else session.sendCtr), old(BulbState()), payload)
    {
      if session == null { return BlockTransfer.Unauthorized, []; }
      var plaintext := session.OpenRequest(payload);
      if plaintext.None? { return BlockTransfer.Unauthorized, []; }
      var reqs := DecodeRequests(plaintext.value);
      if reqs.Err? { return BlockTransfer.BadRequest, []; }
      var responses := HandleBatch(reqs.value);
      reply := session.SealResponse(responses);
      code := BlockTransfer.Changed;
    }
  }

  // ---- Continuations leave no trace but in the cache ----

  /** The device but for its cache. */
  function Core(d: Device): Device
  {
    d.(cache := None)
  }

  lemma HandleIgnoresCache(g: Setting, d: Device, m: Incoming)
    ensures var (next, code, reply) := Handle(g, d, m);
            var (next', code', reply') := Handle(g, Core(d), m);
            next.cache == d.cache && Core(next) == Core(next') && code == code' && reply == reply'
  {
  }

  /** A receiver that neither reads nor keeps anything of the cache in the rest. */
  ghost predicate CoreOnly(receive: Receiver)
  {
    forall d: Device, m: Incoming :: Core(receive(d, m).0) == Core(receive(Core(d), m).0)
  }

  lemma ReceiveCoreOnly(g: Setting)
    ensures CoreOnly(ReceiverOf(g))
  {
    forall d: Device, m: Incoming ensures Core(Receive(g, d, m).0) == Core(Receive(g, Core(d), m).0) {
      HandleIgnoresCache(g, d, m);
    }
  }

  lemma {:induction false} RunCoreOnly(receive: Receiver, d: Device, d': Device, ms: seq<Incoming>)
    requires CoreOnly(receive) && Core(d) == Core(d')
    ensures Core(ReceiveAll(receive, d, ms)) == Core(ReceiveAll(receive, d', ms))
    decreases |ms|
  {
    if ms != [] {
      assert Core(receive(d, ms[0]).0) == Core(receive(Core(d), ms[0]).0);
      assert Core(receive(d', ms[0]).0) == Core(receive(Core(d'), ms[0]).0);
      RunCoreOnly(receive, receive(d, ms[0]).0, receive(d', ms[0]).0, ms[1..]);
    }
  }

  // ---- A transfer, with other peers' datagrams between its own ----

  /** The puller's continuation for a block. */
  function Continuation(me: nat, num: nat): Incoming
  {
    Incoming(me, SecurePath, [], Some(num), [], 0, [])
  }

  function Before(others: seq<seq<Incoming>>, k: nat): seq<Incoming>
  {
    if k < |others| then others[k] else []
  }

  /** The accessory as the puller meets it: `others[k]` arrive before its continuation `k`. */
  function Asking(receive: Receiver, me: nat, others: seq<seq<Incoming>>): BlockTransfer.Asker<Device>
  {
    (d: Device, k: nat, num: nat) => receive(ReceiveAll(receive, d, Before(others, k)), Continuation(me, num))
  }

  ghost predicate Foreign(others: seq<seq<Incoming>>, me: nat)
  {
    forall k: nat, i: nat :: k < |others| && i < |others[k]| ==> others[k][i].peer != me
  }

  /** What is cached for `me` is this reply, or nothing is. */
  predicate HoldsFor(cache: Option<BlockTransfer.Cached>, me: nat, code: Code, reply: bytes)
  {
    cache.Some? && cache.value.peer == me ==> cache.value == BlockTransfer.Cached(me, code, reply)
  }

  /** Other peers can take a reply away, but never put another one in its place for this peer. */
  ghost predicate KeepsFor(receive: Receiver, me: nat)
  {
    forall d: Device, m: Incoming, code: Code, reply: bytes ::
      m.peer != me && HoldsFor(d.cache, me, code, reply) ==> HoldsFor(receive(d, m).0.cache, me, code, reply)
  }

  /** A continuation is served from the cache and changes nothing else. */
  ghost predicate ServesFromCache(receive: Receiver, f: BlockTransfer.Framing, me: nat)
  {
    forall d: Device, num: nat :: num >= 1 ==> Continued(f, me, d, num, receive(d, Continuation(me, num)))
  }

  predicate Continued(f: BlockTransfer.Framing, me: nat, d: Device, num: nat, out: (Device, Option<BlockTransfer.Datagram>))
  {
    out == (d.(cache := BlockTransfer.Continue(f, d.cache, me, num).0), BlockTransfer.Continue(f, d.cache, me, num).1)
  }

  lemma ReceiveKeepsFor(g: Setting, me: nat)
    ensures KeepsFor(ReceiverOf(g), me)
  {
    forall d: Device, m: Incoming, code: Code, reply: bytes | m.peer != me && HoldsFor(d.cache, me, code, reply)
      ensures HoldsFor(Receive(g, d, m).0.cache, me, code, reply)
    {
      HandleIgnoresCache(g, d, m);
    }
  }

  lemma ReceiveServesFromCache(g: Setting, me: nat)
    requires g.framing.blockwise.Some?
    ensures ServesFromCache(ReceiverOf(g), g.framing, me)
  {
  }

  lemma {:induction false} OthersKeep(receive: Receiver, d: Device, ms: seq<Incoming>, me: nat, code: Code, reply: bytes)
    requires KeepsFor(receive, me) && HoldsFor(d.cache, me, code, reply) && forall i :: 0 <= i < |ms| ==> ms[i].peer != me
    ensures HoldsFor(ReceiveAll(receive, d, ms).cache, me, code, reply)
    decreases |ms|
  {
    if ms != [] { OthersKeep(receive, receive(d, ms[0]).0, ms[1..], me, code, reply); }
  }

  function Holding(me: nat, code: Code, reply: bytes): Device -> bool
  {
    (d: Device) => HoldsFor(d.cache, me, code, reply)
  }

  lemma DeviceServes(receive: Receiver, f: BlockTransfer.Framing, me: nat, others: seq<seq<Incoming>>, code: Code, reply: bytes)
    requires f.blockwise.Some? && Foreign(others, me) && KeepsFor(receive, me) && ServesFromCache(receive, f, me)
    ensures BlockTransfer.Serves(Asking(receive, me, others), Holding(me, code, reply), f.encodes, code, reply, f.blockwise.value)
  {
    forall d: Device, k: nat, num: nat | HoldsFor(d.cache, me, code, reply) && num >= 1
      ensures var (next, out) := Asking(receive, me, others)(d, k, num);
              && HoldsFor(next.cache, me, code, reply)
              && (out.Some? ==> out.value == BlockTransfer.BlockAt(f.encodes, code, reply, num, f.blockwise.value))
    {
      var before := ReceiveAll(receive, d, Before(others, k));
      OthersKeep(receive, d, Before(others, k), me, code, reply);
      assert Continued(f, me, before, num, receive(before, Continuation(me, num)));
    }
  }

  /** What other peers' datagrams before continuation `k` do to the device but for its cache. */
  function OthersAct(receive: Receiver, others: seq<seq<Incoming>>): (Device, nat) -> Device
  {
    (d: Device, k: nat) => Core(ReceiveAll(receive, d, Before(others, k)))
  }

  lemma AskActs(receive: Receiver, f: BlockTransfer.Framing, me: nat, others: seq<seq<Incoming>>, d: Device, k: nat, num: nat)
    requires CoreOnly(receive) && ServesFromCache(receive, f, me) && num >= 1
    ensures Core(Asking(receive, me, others)(d, k, num).0) == OthersAct(receive, others)(Core(d), k)
  {
    RunCoreOnly(receive, d, Core(d), Before(others, k));
    var before := ReceiveAll(receive, d, Before(others, k));
    assert Continued(f, me, before, num, receive(before, Continuation(me, num)));
  }

  /** After a pull, the device is what the other peers' datagrams alone would have made of it, but for the cache. */
  lemma PullLeavesOthersAlone(receive: Receiver, f: BlockTransfer.Framing, me: nat, others: seq<seq<Incoming>>, d: Device, first: BlockTransfer.Datagram)
    requires first.block.None? || (CoreOnly(receive) && ServesFromCache(receive, f, me))
    ensures var p := BlockTransfer.Pull(Asking(receive, me, others), d, first);
            Core(p.state) == BlockTransfer.Acts(OthersAct(receive, others), Core(d), 1, p.asked)
  {
    if first.block.Some? && first.block.value.1 {
      forall t: Device, k: nat, n: nat | n >= 1
        ensures Core(Asking(receive, me, others)(t, k, n).0) == OthersAct(receive, others)(Core(t), k)
      {
        AskActs(receive, f, me, others, t, k, n);
      }
      BlockTransfer.PullActs(Asking(receive, me, others), Core, OthersAct(receive, others), d, first.block.value.0, first.payload, 1);
    }
  }

  /** A receiver with all of that, as far as replies are cut into blocks. */
  ghost predicate Transfers(receive: Receiver, f: BlockTransfer.Framing, me: nat)
  {
    && BlockTransfer.ValidFraming(f) && CoreOnly(receive) && KeepsFor(receive, me)
    && (f.blockwise.Some? ==> ServesFromCache(receive, f, me))
  }

  lemma ReceiveTransfers(g: Setting, me: nat)
    requires BlockTransfer.ValidFraming(g.framing)
    ensures Transfers(ReceiverOf(g), g.framing, me)
  {
    ReceiveCoreOnly(g);
    ReceiveKeepsFor(g, me);
    if g.framing.blockwise.Some? { ReceiveServesFromCache(g, me); }
  }

  /** What holds of the pull of a reply just sent: the outcome, and the device but for its cache. */
  ghost predicate PulledWell(receive: Receiver, f: BlockTransfer.Framing, others: seq<seq<Incoming>>, served: Device,
                             reply: BlockTransfer.Outcome, p: BlockTransfer.Pulled<Device>)
    requires reply.Complete?
  {
    && Core(p.state) == BlockTransfer.Acts(OthersAct(receive, others), Core(served), 1, p.asked)
    && (BlockTransfer.Sound(f, reply.payload) ==> p.outcome.Complete? ==> p.outcome == reply)
    && (!BlockTransfer.Sound(f, reply.payload) ==>
          f.blockwise.Some? && f.blockwise.value < |reply.payload| && p.asked == 0 &&
          p.outcome == BlockTransfer.Complete(reply.code, reply.payload[..f.blockwise.value]))
  }

  lemma ReplyPulled(receive: Receiver, f: BlockTransfer.Framing, me: nat, others: seq<seq<Incoming>>, cache: Option<BlockTransfer.Cached>,
                    served: Device, code: Code, reply: bytes)
    requires Transfers(receive, f, me) && Foreign(others, me)
    requires served.cache == BlockTransfer.Respond(f, cache, me, code, reply).0
    ensures PulledWell(receive, f, others, served, BlockTransfer.Complete(code, reply),
                       BlockTransfer.Pull(Asking(receive, me, others), served, BlockTransfer.Respond(f, cache, me, code, reply).1))
  {
    var first := BlockTransfer.Respond(f, cache, me, code, reply).1;
    if f.blockwise.Some? && |reply| > f.blockwise.value {
      DeviceServes(receive, f, me, others, code, reply);
      BlockTransfer.PullIsExactWhenSound(f, cache, me, code, reply, Asking(receive, me, others), Holding(me, code, reply), served);
    }
    PullLeavesOthersAlone(receive, f, me, others, served, first);
  }

  // ---- A whole exchange ----

  function Request0(me: nat, payload: bytes): Incoming
  {
    Incoming(me, SecurePath, payload, None, [], 0, [])
  }

  /** The reply an accessory in this state seals for a batch. */
  function SealedReply(c: Suite, s: Session, bulb: Bulb, reqs: seq<Request>): bytes
  {
    c.seal(s.keys.read, CounterNonce(s.send), EncodeResponses(Answers(Answering(), bulb, reqs)))
  }

  /** Serving a sealed batch, once: the reply, both counters advanced by one, the bulb after the batch, nothing else. */
  lemma BatchServed(g: Setting, d: Device, me: nat, controls: seq<byte>, reqs: seq<Request>)
    requires SealLaw(g.suite) && |controls| == |reqs| && BatchFits(reqs) && d.session.Some?
    ensures var s := d.session.value;
            var payload := g.suite.seal(s.keys.write, CounterNonce(s.recv), EncodeBatch(controls, reqs));
            Handle(g, d, Request0(me, payload)) ==
              (d.(session := Some(Session(s.keys, Next(s.recv), Next(s.send))), bulb := After(Answering(), d.bulb, reqs)),
               BlockTransfer.Changed, SealedReply(g.suite, s, d.bulb, reqs))
  {
    BatchDecodes(controls, reqs);
    var s := d.session.value;
    assert g.suite.open(s.keys.write, CounterNonce(s.recv), g.suite.seal(s.keys.write, CounterNonce(s.recv), EncodeBatch(controls, reqs)))
        == Some(EncodeBatch(controls, reqs));
  }

  /** The device after serving the batch, with the reply's remaining blocks cached. */
  function ServedDevice(g: Setting, d: Device, me: nat, reqs: seq<Request>): Device
    requires d.session.Some?
  {
    var s := d.session.value;
    d.(session := Some(Session(s.keys, Next(s.recv), Next(s.send))),
       bulb := After(Answering(), d.bulb, reqs),
       cache := BlockTransfer.Respond(g.framing, d.cache, me, BlockTransfer.Changed, SealedReply(g.suite, s, d.bulb, reqs)).0)
  }

  lemma BatchReceived(g: Setting, d: Device, me: nat, controls: seq<byte>, reqs: seq<Request>)
    requires SealLaw(g.suite) && |controls| == |reqs| && BatchFits(reqs) && d.session.Some?
    ensures var s := d.session.value;
            var payload := g.suite.seal(s.keys.write, CounterNonce(s.recv), EncodeBatch(controls, reqs));
            Receive(g, d, Request0(me, payload)) ==
              (ServedDevice(g, d, me, reqs),
               Some(BlockTransfer.Respond(g.framing, d.cache, me, BlockTransfer.Changed, SealedReply(g.suite, s, d.bulb, reqs)).1))
  {
    BatchServed(g, d, me, controls, reqs);
  }

  /**
   * A numbered batch sealed, served and pulled block by block while any datagrams of other peers arrive between.
   * Its handler runs once: apart from the cache, the device ends as the batch and then the other peers' datagrams
   * leave it, the continuations adding nothing. A pull that completes has exactly the sealed reply, which opens
   * and decodes to one answer per request in order, if and only if the reply goes out whole or its block size can be
   * expressed; otherwise the pull ends with the first block alone.
   */
  lemma BatchExchange(g: Setting, d: Device, me: nat, controls: seq<byte>, reqs: seq<Request>, others: seq<seq<Incoming>>)
    requires SealLaw(g.suite) && BlockTransfer.ValidFraming(g.framing) && Foreign(others, me) && d.session.Some?
    requires |controls| == |reqs| && BatchFits(reqs) && Numbered(reqs)
    ensures var s := d.session.value;
            var payload := g.suite.seal(s.keys.write, CounterNonce(s.recv), EncodeBatch(controls, reqs));
            var (served, first) := Receive(g, d, Request0(me, payload));
            && first.Some?
            && Core(served) == Core(d).(session := Some(Session(s.keys, Next(s.recv), Next(s.send))), bulb := After(Answering(), d.bulb, reqs))
            && PulledWell(ReceiverOf(g), g.framing, others, served, BlockTransfer.Complete(BlockTransfer.Changed, SealedReply(g.suite, s, d.bulb, reqs)),
                          BlockTransfer.Pull(Asking(ReceiverOf(g), me, others), served, first.value))
            && ReplyReads(g.suite, s, d.bulb, reqs)
  {
    BatchReceived(g, d, me, controls, reqs);
    ReplyIsRead(g.suite, d.session.value, d.bulb, reqs);
    ReceiveTransfers(g, me);
    ReplyPulled(ReceiverOf(g), g.framing, me, others, d.cache, ServedDevice(g, d, me, reqs), BlockTransfer.Changed,
                SealedReply(g.suite, d.session.value, d.bulb, reqs));
  }

  /** The controller's session opens the reply, and it decodes to one answer per request. */
  ghost predicate ReplyReads(c: Suite, s: Session, bulb: Bulb, reqs: seq<Request>)
  {
    var plain := c.open(s.keys.read, CounterNonce(s.send), SealedReply(c, s, bulb, reqs));
    plain.Some? && DecodeReplies(plain.value, 0) == Ok(Answers(Answering(), bulb, reqs))
  }

  lemma ReplyIsRead(c: Suite, s: Session, bulb: Bulb, reqs: seq<Request>)
    requires SealLaw(c) && Numbered(reqs)
    ensures ReplyReads(c, s, bulb, reqs)
  {
    ReplyDecodesExactly(bulb, reqs);
  }

  // ---- An exchange nobody disturbs ----

  function HoldingExactly(me: nat, code: Code, reply: bytes): Device -> bool
  {
    (d: Device) => d.cache == Some(BlockTransfer.Cached(me, code, reply))
  }

  lemma DeviceAnswers(receive: Receiver, f: BlockTransfer.Framing, me: nat, others: seq<seq<Incoming>>, code: Code, reply: bytes)
    requires f.blockwise.Some? && ServesFromCache(receive, f, me) && others == []
    ensures BlockTransfer.Answers(Asking(receive, me, others), HoldingExactly(me, code, reply), f.encodes, code, reply, f.blockwise.value)
  {
    forall d: Device, k: nat, num: nat | d.cache == Some(BlockTransfer.Cached(me, code, reply)) && num >= 1
      ensures var (next, out) := Asking(receive, me, others)(d, k, num);
              && out == Some(BlockTransfer.BlockAt(f.encodes, code, reply, num, f.blockwise.value))
              && (BlockTransfer.More(reply, num, f.blockwise.value) ==> next.cache == d.cache)
    {
      assert ReceiveAll(receive, d, Before(others, k)) == d;
      assert Continued(f, me, d, num, receive(d, Continuation(me, num)));
    }
  }

  lemma {:induction false} ActsNothing(receive: Receiver, others: seq<seq<Incoming>>, d: Device, from: nat, asked: nat)
    requires others == [] && Core(d) == d
    ensures BlockTransfer.Acts(OthersAct(receive, others), d, from, asked) == d
    decreases asked - from
  {
    if from <= asked {
      assert OthersAct(receive, others)(d, from) == Core(ReceiveAll(receive, d, Before(others, from))) == d;
      ActsNothing(receive, others, d, from + 1, asked);
    }
  }

  /** The four ways an undisturbed transfer of a reply can end. */
  function TransferOutcome(f: BlockTransfer.Framing, code: Code, reply: bytes): BlockTransfer.Outcome
  {
    if f.blockwise.None? || |reply| <= f.blockwise.value then BlockTransfer.Complete(code, reply)
    else if !f.encodes(f.blockwise.value) then BlockTransfer.Complete(code, reply[..f.blockwise.value])
    else if |reply| <= 1024 * f.blockwise.value then BlockTransfer.Complete(code, reply)
    else BlockTransfer.TooMany
  }

  lemma UndisturbedReply(receive: Receiver, f: BlockTransfer.Framing, me: nat, others: seq<seq<Incoming>>, cache: Option<BlockTransfer.Cached>,
                         served: Device, code: Code, reply: bytes)
    requires Transfers(receive, f, me) && others == []
    requires served.cache == BlockTransfer.Respond(f, cache, me, code, reply).0
    ensures var p := BlockTransfer.Pull(Asking(receive, me, others), served, BlockTransfer.Respond(f, cache, me, code, reply).1);
            p.outcome == TransferOutcome(f, code, reply) && Core(p.state) == Core(served)
  {
    var first := BlockTransfer.Respond(f, cache, me, code, reply).1;
    PullLeavesOthersAlone(receive, f, me, others, served, first);
    ActsNothing(receive, others, Core(served), 1, BlockTransfer.Pull(Asking(receive, me, others), served, first).asked);
    if f.blockwise.Some? && |reply| > f.blockwise.value {
      DeviceAnswers(receive, f, me, others, code, reply);
      BlockTransfer.AnsweredPull(f, cache, me, code, reply, Asking(receive, me, others), HoldingExactly(me, code, reply), served);
    }
  }

  /**
   * Undisturbed, the device ends, but for its cache, exactly as the batch leaves it, each counter one further; and
   * the pull has the whole reply if and only if it goes out whole or in at most 1024 blocks of an expressible size.
   */
  lemma UndisturbedExchange(g: Setting, d: Device, me: nat, controls: seq<byte>, reqs: seq<Request>)
    requires SealLaw(g.suite) && BlockTransfer.ValidFraming(g.framing) && d.session.Some?
    requires |controls| == |reqs| && BatchFits(reqs)
    ensures var s := d.session.value;
            var payload := g.suite.seal(s.keys.write, CounterNonce(s.recv), EncodeBatch(controls, reqs));
            var (served, first) := Receive(g, d, Request0(me, payload));
            && first.Some?
            && var p := BlockTransfer.Pull(Asking(ReceiverOf(g), me, []), served, first.value);
               && Core(p.state) == Core(d).(session := Some(Session(s.keys, Next(s.recv), Next(s.send))), bulb := After(Answering(), d.bulb, reqs))
               && p.outcome == TransferOutcome(g.framing, BlockTransfer.Changed, SealedReply(g.suite, s, d.bulb, reqs))
  {
    BatchReceived(g, d, me, controls, reqs);
    ReceiveTransfers(g, me);
    UndisturbedReply(ReceiverOf(g), g.framing, me, [], d.cache, ServedDevice(g, d, me, reqs), BlockTransfer.Changed,
                     SealedReply(g.suite, d.session.value, d.bulb, reqs));
  }

  // ---- The controller's end ----

  method ReceiveMany(acc: ReferenceAccessory, ms: seq<Incoming>)
    requires acc.Valid()
    modifies acc, acc.session, acc.blocks
    ensures acc.Valid() && (acc.session == old(acc.session) || fresh(acc.session))
    ensures acc.Model() == ReceiveAll(ReceiverOf(acc.Config()), old(acc.Model()), ms)
  {
    ghost var receive := ReceiverOf(acc.Config());
    ghost var end := ReceiveAll(receive, acc.Model(), ms);
    var i := 0;
    while i < |ms|
      invariant 0 <= i <= |ms| && acc.Valid() && (acc.session == old(acc.session) || fresh(acc.session))
      invariant ReceiveAll(receive, acc.Model(), ms[i..]) == end
    {
      assert ms[i..][0] == ms[i] && ms[i..][1..] == ms[i + 1..];
      ghost var before := acc.Model();
      var _ := acc.ReceiveDatagram(ms[i]);
      assert acc.Model() == receive(before, ms[i]).0;
      i := i + 1;
    }
  }

  method AskNext(acc: ReferenceAccessory, me: nat, k: nat, num: nat, others: seq<seq<Incoming>>) returns (d: Option<BlockTransfer.Datagram>)
    requires acc.Valid()
    modifies acc, acc.session, acc.blocks
    ensures acc.Valid() && (acc.session == old(acc.session) || fresh(acc.session))
    ensures (acc.Model(), d) == Asking(ReceiverOf(acc.Config()), me, others)(old(acc.Model()), k, num)
  {
    ReceiveMany(acc, Before(others, k));
    ghost var before := acc.Model();
    d := acc.ReceiveDatagram(Continuation(me, num));
    assert (acc.Model(), d) == ReceiverOf(acc.Config())(before, Continuation(me, num));
  }

  /** The controller's loop over the blocks after the first. */
  method PullAll(acc: ReferenceAccessory, me: nat, first: BlockTransfer.Datagram, others: seq<seq<Incoming>>)
    returns (r: BlockTransfer.Outcome, ghost asked: nat)
    requires acc.Valid()
    modifies acc, acc.session, acc.blocks
    ensures acc.Valid() && (acc.session == old(acc.session) || fresh(acc.session))
    ensures BlockTransfer.Pulled(acc.Model(), asked, r) ==
            BlockTransfer.Pull(Asking(ReceiverOf(acc.Config()), me, others), old(acc.Model()), first)
  {
    if first.block.None? { return BlockTransfer.Complete(first.code, first.payload), 0; }
    var num: nat, more: bool := first.block.value.0, first.block.value.1;
    var full, code := first.payload, first.code;
    var fetched := 1;
    ghost var ask := Asking(ReceiverOf(acc.Config()), me, others);
    ghost var all := BlockTransfer.Pull(ask, acc.Model(), first);
    while more
      invariant 1 <= fetched <= BlockTransfer.MAX_BLOCKS && acc.Valid() && (acc.session == old(acc.session) || fresh(acc.session))
      invariant all == if more then BlockTransfer.PullFrom(ask, acc.Model(), num, full, fetched)
                       else BlockTransfer.Pulled(acc.Model(), fetched - 1, BlockTransfer.Complete(code, full))
      decreases BlockTransfer.MAX_BLOCKS - fetched, more
    {
      if fetched >= BlockTransfer.MAX_BLOCKS { return BlockTransfer.TooMany, fetched - 1; }
      var d := AskNext(acc, me, fetched, num + 1, others);
      if d.None? { return BlockTransfer.NoAnswer, fetched; }
      code := d.value.code;
      full := full + d.value.payload;
      fetched := fetched + 1;
      if d.value.block.None? { return BlockTransfer.Complete(code, full), fetched - 1; }
      num, more := d.value.block.value.0, d.value.block.value.1;
    }
    return BlockTransfer.Complete(code, full), fetched - 1;
  }

  datatype PostError = Transport | SessionExpired | Status | Undecryptable | BadReply

  /** What the controller makes of a pull: only a `2.04` is opened, and only what opens advances its counter. */
  function PostResult(c: Suite, keys: PairVerify.Keys, recv: u64, outcome: BlockTransfer.Outcome): (Result<bytes, PostError>, u64)
  {
    match outcome
    case NoAnswer => (Err(Transport), recv)
    case TooMany => (Err(Transport), recv)
    case Complete(code, payload) =>
      if !code.Changed? then (Err(if code.NotFound? then SessionExpired else Status), recv)
      else
        match c.open(keys.read, CounterNonce(recv), payload)
        case None => (Err(Undecryptable), recv)
        case Some(plain) => (Ok(plain), Next(recv))
  }

  /** The controller's session as its request and response counters see it. */
  datatype Endpoint = Endpoint(keys: PairVerify.Keys, send: u64, recv: u64)

  /** Both ends after a post, with what was pulled and what was made of it. */
  datatype Posted = Posted(end: Endpoint, device: Device, asked: nat, outcome: BlockTransfer.Outcome, result: Result<bytes, PostError>)

  /** Seal, post, pull and open: the request costs a send counter, and a receive counter only what opens. */
  function Post(c: Suite, g: Setting, me: nat, e: Endpoint, d: Device, pdu: bytes, others: seq<seq<Incoming>>): Posted
  {
    var sealed := c.seal(e.keys.write, CounterNonce(e.send), pdu);
    var (served, first) := Receive(g, d, Request0(me, sealed));
    var p := BlockTransfer.Pull(Asking(ReceiverOf(g), me, others), served, first.value);
    var (result, recv) := PostResult(c, e.keys, e.recv, p.outcome);
    Posted(Endpoint(e.keys, Next(e.send), recv), p.state, p.asked, p.outcome, result)
  }

  ghost function EndpointOf(ctl: CoapSession): Endpoint
    reads ctl
  {
    Endpoint(ctl.keys, ctl.sendCtr, ctl.recvCtr)
  }

  method PostSecure(ctl: CoapSession, acc: ReferenceAccessory, me: nat, pdu: bytes, others: seq<seq<Incoming>>)
    returns (r: Result<bytes, PostError>, ghost asked: nat, ghost outcome: BlockTransfer.Outcome)
    requires acc.Valid()
    modifies ctl, acc, acc.session, acc.blocks
    ensures acc.Valid()
    ensures Posted(EndpointOf(ctl), acc.Model(), asked, outcome, r) ==
            Post(ctl.suite, acc.Config(), me, old(EndpointOf(ctl)), old(acc.Model()), pdu, others)
  {
    var sealed := ctl.SealRequest(pdu);
    var first := acc.ReceiveDatagram(Request0(me, sealed));
    var pulled;
    pulled, asked := PullAll(acc, me, first.value, others);
    outcome := pulled;
    if !pulled.Complete? { return Err(Transport), asked, outcome; }
    if pulled.code.NotFound? { return Err(SessionExpired), asked, outcome; }
    if !pulled.code.Changed? { return Err(Status), asked, outcome; }
    var plain := ctl.OpenResponse(pulled.payload);
    if plain.None? { return Err(Undecryptable), asked, outcome; }
    r := Ok(plain.value);
  }

  /** The two sessions of a pair in step: the same keys, and each counter where its peer's is. */
  ghost predicate InStepWith(ctl: CoapSession, acc: ReferenceAccessory)
    reads ctl, acc, acc.session
  {
    && acc.session != null && ctl.suite == acc.suite && ctl.keys == acc.session.keys
    && ctl.sendCtr == acc.session.recvCtr && ctl.recvCtr == acc.session.sendCtr
  }

  /**
   * A batch as a controller's call makes it, on the session objects of both ends, with other peers' datagrams
   * between the blocks. If the reply goes out whole or its block size can be expressed, the call returns exactly one
   * answer per request or fails; it has spent one send counter, and one receive counter exactly if it succeeded; and
   * undisturbed, with a reply of at most 1024 blocks, it succeeds and leaves the sessions in step and the bulb
   * after the batch.
   */
  method ExchangeBatch(ctl: CoapSession, acc: ReferenceAccessory, me: nat, reqs: seq<Request>, others: seq<seq<Incoming>>)
    returns (r: Result<seq<Response>, PostError>)
    requires acc.Valid() && InStepWith(ctl, acc) && SealLaw(ctl.suite) && BlockTransfer.ValidFraming(acc.blocks.framing)
    requires BatchFits(reqs) && Numbered(reqs) && Foreign(others, me)
    modifies ctl, acc, acc.session, acc.blocks
    ensures acc.Valid() && ctl.sendCtr == Next(old(ctl.sendCtr))
    ensures var reply := SealedReply(ctl.suite, old(acc.SessionState()).value, old(acc.BulbState()), reqs);
            var answers := Answers(Answering(), old(acc.BulbState()), reqs);
            BlockTransfer.Sound(acc.blocks.framing, reply) ==>
              && (r.Ok? ==> r.value == answers)
              && ctl.recvCtr == (if r.Ok? then Next(old(ctl.recvCtr)) else old(ctl.recvCtr))
              && (others == [] && TransferOutcome(acc.blocks.framing, BlockTransfer.Changed, reply).Complete? ==>
                    r.Ok? && InStepWith(ctl, acc) && acc.BulbState() == After(Answering(), old(acc.BulbState()), reqs))
  {
    ghost var g, d := acc.Config(), acc.Model();
    var controls: seq<byte> := seq(|reqs|, _ => 0);
    var pdu := EncodeBatch(controls, reqs);
    BatchExchange(g, d, me, controls, reqs, others);
    if others == [] { UndisturbedExchange(g, d, me, controls, reqs); }
    var plain;
    ghost var asked, outcome;
    plain, asked, outcome := PostSecure(ctl, acc, me, pdu, others);
    if plain.Err? { return Err(plain.error); }
    var decoded := DecodeAll(plain.value);
    if decoded.Err? { return Err(BadReply); }
    r := Ok(decoded.value);
  }
}
