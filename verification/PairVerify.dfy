/** Pair Verify M1-M4: both ends, the derived keys, and whole runs. */
module PairVerify {
  import opened Bytes
  import opened Primitives
  import opened Pairing
  import Tlv8

  const PV_ENCRYPT_SALT := Ascii("Pair-Verify-Encrypt-Salt")
  const PV_ENCRYPT_INFO := Ascii("Pair-Verify-Encrypt-Info")
  const CONTROL_SALT := Ascii("Control-Salt")
  const CONTROL_READ_INFO := Ascii("Control-Read-Encryption-Key")
  const CONTROL_WRITE_INFO := Ascii("Control-Write-Encryption-Key")
  const EVENT_SALT := Ascii("Event-Salt")
  const EVENT_READ_INFO := Ascii("Event-Read-Encryption-Key")

  const NONCE_M2 := "PV-Msg02"
  const NONCE_M3 := "PV-Msg03"

  /** Read keys protect accessory-to-controller traffic, write keys the other way, event keys pushed events. */
  datatype Keys = Keys(read: bytes, write: bytes, event: bytes)

  function DeriveKeys(c: Suite, shared: bytes): Keys
  {
    Keys(c.hkdf(shared, CONTROL_SALT, CONTROL_READ_INFO),
         c.hkdf(shared, CONTROL_SALT, CONTROL_WRITE_INFO),
         c.hkdf(shared, EVENT_SALT, EVENT_READ_INFO))
  }

  // ---- The controller ----

  datatype State = Init | AwaitM2 | AwaitM4 | Finished

  datatype Progress = Progress(state: State, shared: Option<bytes>)

  /** The controller's identity, the stored accessory and the ephemeral secret of this run. */
  datatype Controller = Controller(me: Identity, accessory: Peer, eph: bytes)

  datatype Step = Send(message: bytes) | Established(keys: Keys)

  function M1Items(c: Suite, eph: bytes): seq<Tlv8.Item>
  {
    [Tlv8.Item(STATE, [1]), Tlv8.Item(PUBLIC_KEY, c.xPublic(eph))]
  }

  function CheckError(items: seq<Tlv8.Item>): Result<(), PairingError>
  {
    match Tlv8.Get(items, ERROR)
    case None => Ok(())
    case Some(v) => if v == [] then Ok(()) else Err(Encoding)
  }

  function PvKey(c: Suite, shared: bytes): bytes
  {
    c.hkdf(shared, PV_ENCRYPT_SALT, PV_ENCRYPT_INFO)
  }

  /** The sub-TLV proving an identity: a signature over `own ephemeral || id || peer ephemeral`. */
  function SignedSession(c: Suite, who: Identity, own: bytes, peer: bytes): seq<Tlv8.Item>
  {
    [Tlv8.Item(IDENTIFIER, who.id), Tlv8.Item(SIGNATURE, c.edSign(who.seed, own + who.id + peer))]
  }

  function M3Items(c: Suite, cl: Controller, pvKey: bytes, accEph: bytes): seq<Tlv8.Item>
  {
    [Tlv8.Item(STATE, [3]),
     Tlv8.Item(ENCRYPTED_DATA, SealTlv(c, pvKey, NONCE_M3, SignedSession(c, cl.me, c.xPublic(cl.eph), accEph)))]
  }

  /** The accessory's identifier and signature out of M2's sealed part. */
  function OpenM2(c: Suite, pvKey: bytes, sealed: bytes): Result<(bytes, bytes), PairingError>
  {
    var plain :- OpenTlv(c, pvKey, NONCE_M2, sealed);
    var sub :- ParseTlv(plain);
    var id :- Require(sub, IDENTIFIER);
    var sig :- RequireWidth(sub, SIGNATURE, 64);
    Ok((id, sig))
  }

  /** M2: the shared secret and M3, once the accessory's identity and signature check. */
  function HandleM2(c: Suite, cl: Controller, items: seq<Tlv8.Item>): Result<(bytes, bytes), PairingError>
  {
    var _ :- CheckError(items);
    var _ :- ControllerExpects(items, 2);
    var accEph :- RequireWidth(items, PUBLIC_KEY, 32);
    var sealed :- Require(items, ENCRYPTED_DATA);
    var shared := c.xShared(cl.eph, accEph);
    var pvKey := PvKey(c, shared);
    var proof :- OpenM2(c, pvKey, sealed);
    if proof.0 != cl.accessory.id then Err(Encoding)
    else if !c.edVerify(cl.accessory.ltpk, accEph + proof.0 + c.xPublic(cl.eph), proof.1) then Err(Signature)
    else Ok((shared, Tlv8.EncodeAll(M3Items(c, cl, pvKey, accEph))))
  }

  function HandleM4(items: seq<Tlv8.Item>): Result<(), PairingError>
  {
    var _ :- CheckError(items);
    ControllerExpects(items, 4)
  }

  /** One `handle` call; a failure leaves the progress unchanged. */
  function ClientHandle(c: Suite, cl: Controller, p: Progress, response: bytes): (Progress, Result<Step, PairingError>)
  {
    match p.state
    case Init => (p, Err(Encoding))
    case Finished => (p, Err(Encoding))
    case AwaitM2 =>
      (match ParseTlv(response)
       case Err(e) => (p, Err(e))
       case Ok(items) =>
         match HandleM2(c, cl, items)
         case Err(e) => (p, Err(e))
         case Ok(r) => (Progress(AwaitM4, Some(r.0)), Ok(Send(r.1))))
    case AwaitM4 =>
      match ParseTlv(response)
      case Err(e) => (p, Err(e))
      case Ok(items) =>
        match HandleM4(items)
        case Err(e) => (p, Err(e))
        case Ok(_) =>
          if p.shared.None? then (p, Err(Encoding))
          else (p.(state := Finished), Ok(Established(DeriveKeys(c, p.shared.value))))
  }

  class PairVerifyClient {
    const suite: Suite
    const cl: Controller
    var state: State
    var shared: Option<bytes>

    constructor (suite: Suite, cl: Controller)
      ensures this.suite == suite && this.cl == cl && state == Init && shared == None
    {
      this.suite := suite;
      this.cl := cl;
      state := Init;
      shared := None;
    }

    method Start() returns (message: bytes)
      modifies this`state
      ensures state == AwaitM2 && message == Tlv8.EncodeAll(M1Items(suite, cl.eph))
    {
      message := WriteTwo(Tlv8.Item(STATE, [1]), Tlv8.Item(PUBLIC_KEY, suite.xPublic(cl.eph)));
      state := AwaitM2;
    }

    method Handle(response: bytes) returns (r: Result<Step, PairingError>)
      modifies this
      ensures (Progress(state, shared), r) == ClientHandle(suite, cl, old(Progress(state, shared)), response)
    {
      match state {
        case Init => r := Err(Encoding);
        case AwaitM2 => r := TakeM2(response);
        case AwaitM4 => r := TakeM4(response);
        case Finished => r := Err(Encoding);
      }
    }

    method TakeM2(response: bytes) returns (r: Result<Step, PairingError>)
      requires state == AwaitM2
      modifies this
      ensures (Progress(state, shared), r) == ClientHandle(suite, cl, old(Progress(state, shared)), response)
    {
      var parsed := ParseTlv(response);
      if parsed.Err? { return Err(parsed.error); }
      var items := parsed.value;
      var checked := CheckError(items);
      if checked.Err? { return Err(checked.error); }
      var expected := ControllerExpects(items, 2);
      if expected.Err? { return Err(expected.error); }
      var accEph := RequireWidth(items, PUBLIC_KEY, 32);
      if accEph.Err? { return Err(accEph.error); }
      var sealed := Require(items, ENCRYPTED_DATA);
      if sealed.Err? { return Err(sealed.error); }
      var own := suite.xPublic(cl.eph);
      var secret := suite.xShared(cl.eph, accEph.value);
      var pvKey := PvKey(suite, secret);
      var proof := OpenM2(suite, pvKey, sealed.value);
      if proof.Err? { return Err(proof.error); }
      if proof.value.0 != cl.accessory.id { return Err(Encoding); }
      if !suite.edVerify(cl.accessory.ltpk, accEph.value + proof.value.0 + own, proof.value.1) { return Err(Signature); }
      var m3 := BuildM3(pvKey, own, accEph.value);
      shared := Some(secret);
      state := AwaitM4;
      r := Ok(Send(m3));
    }

    method BuildM3(pvKey: bytes, own: bytes, accEph: bytes) returns (m3: bytes)
      requires own == suite.xPublic(cl.eph)
      ensures m3 == Tlv8.EncodeAll(M3Items(suite, cl, pvKey, accEph))
    {
      var signature := suite.edSign(cl.me.seed, own + cl.me.id + accEph);
      var sub := WriteTwo(Tlv8.Item(IDENTIFIER, cl.me.id), Tlv8.Item(SIGNATURE, signature));
      var sealed := suite.seal(pvKey, Nonce(Ascii(NONCE_M3)), sub);
      m3 := WriteTwo(Tlv8.Item(STATE, [3]), Tlv8.Item(ENCRYPTED_DATA, sealed));
    }

    method TakeM4(response: bytes) returns (r: Result<Step, PairingError>)
      requires state == AwaitM4
      modifies this
      ensures (Progress(state, shared), r) == ClientHandle(suite, cl, old(Progress(state, shared)), response)
    {
      var parsed := ParseTlv(response);
      if parsed.Err? { return Err(parsed.error); }
      var checked := HandleM4(parsed.value);
      if checked.Err? { return Err(checked.error); }
      if shared.None? { return Err(Encoding); }
      var keys := DeriveKeys(suite, shared.value);
      state := Finished;
      r := Ok(Established(keys));
    }
  }

  /** The key of the sealed parts, by its labels. */
  function SessionKey(c: Suite, shared: bytes): bytes
  {
    c.hkdf(shared, Ascii("Pair-Verify-Encrypt-Salt"), Ascii("Pair-Verify-Encrypt-Info"))
  }

  /** The sealed part of a message names this identity, with its signature over the two ephemeral keys. */
  predicate Proves(c: Suite, pvKey: bytes, label8: string, message: bytes, who: Peer, own: bytes, peer: bytes, sig: bytes)
    requires |label8| == 8
  {
    var sub := SealedPart(c, pvKey, label8, message);
    && sub.Some? && Tlv8.Get(sub.value, 0x01) == Some(who.id) && Tlv8.Get(sub.value, 0x0A) == Some(sig)
    && c.edVerify(who.ltpk, own + who.id + peer, sig)
  }

  // ---- The accessory ----

  /** What the accessory keeps between M1 and M3. */
  datatype InProgress = InProgress(accEph: bytes, ctrlEph: bytes, shared: bytes, pvKey: bytes)

  function VerifyM1(c: Suite, me: Identity, payload: bytes, eph: bytes): Result<(bytes, InProgress), PairingError>
  {
    var items :- ParseTlv(payload);
    var _ :- AccessoryExpects(items, 1);
    var ctrlEph :- RequireWidth(items, PUBLIC_KEY, 32);
    var accEph := c.xPublic(eph);
    var shared := c.xShared(eph, ctrlEph);
    var pvKey := PvKey(c, shared);
    Ok((Tlv8.EncodeAll(M2Items(c, me, pvKey, accEph, ctrlEph)), InProgress(accEph, ctrlEph, shared, pvKey)))
  }

  function M2Items(c: Suite, me: Identity, pvKey: bytes, accEph: bytes, ctrlEph: bytes): seq<Tlv8.Item>
  {
    [Tlv8.Item(STATE, [2]), Tlv8.Item(PUBLIC_KEY, accEph),
     Tlv8.Item(ENCRYPTED_DATA, SealTlv(c, pvKey, NONCE_M2, SignedSession(c, me, accEph, ctrlEph)))]
  }

  const ERROR_M4 := Tlv8.EncodeAll([Tlv8.Item(STATE, [4]), Tlv8.Item(ERROR, [ERROR_AUTHENTICATION])])

  const OK_M4_ITEMS := [Tlv8.Item(STATE, [4])]

  /** M3: session keys if the paired controller's signature checks, an in-band error otherwise. */
  function VerifyM3(c: Suite, progress: InProgress, controller: Peer, payload: bytes): Result<(bytes, Option<Keys>), PairingError>
  {
    var items :- ParseTlv(payload);
    var _ :- AccessoryExpects(items, 3);
    var sealed :- Require(items, ENCRYPTED_DATA);
    match OpenTlv(c, progress.pvKey, NONCE_M3, sealed)
    case Err(_) => Ok((ERROR_M4, None))
    case Ok(plain) =>
      var sub :- ParseTlv(plain);
      var id :- Require(sub, IDENTIFIER);
      var sig := RequireWidth(sub, SIGNATURE, 64);
      if sig.Err? || id != controller.id
         || !c.edVerify(controller.ltpk, progress.ctrlEph + id + progress.accEph, sig.value)
      then Ok((ERROR_M4, None))
      else Ok((Tlv8.EncodeAll(OK_M4_ITEMS), Some(DeriveKeys(c, progress.shared))))
  }

  /** Keys come only with an M3 in which the paired controller signed this exchange. */
  lemma AcceptedM3Proves(c: Suite, progress: InProgress, controller: Peer, payload: bytes) returns (sig: bytes)
    requires VerifyM3(c, progress, controller, payload).Ok? && VerifyM3(c, progress, controller, payload).value.1.Some?
    ensures Proves(c, progress.pvKey, "PV-Msg03", payload, controller, progress.ctrlEph, progress.accEph, sig)
    ensures VerifyM3(c, progress, controller, payload).value.1 == Some(DeriveKeys(c, progress.shared))
  {
    sig := Require(SealedPart(c, progress.pvKey, NONCE_M3, payload).value, SIGNATURE).value;
  }

  // ---- Whole runs ----

  lemma SessionReads(c: Suite, who: Identity, own: bytes, peer: bytes)
    requires SignLaw(c)
    ensures var sub := SignedSession(c, who, own, peer);
            && ParseTlv(Tlv8.EncodeAll(sub)) == Ok(sub)
            && Require(sub, IDENTIFIER) == Ok(who.id)
            && RequireWidth(sub, SIGNATURE, 64) == Ok(c.edSign(who.seed, own + who.id + peer))
            && c.edVerify(Ltpk(c, who), own + who.id + peer, c.edSign(who.seed, own + who.id + peer))
  {
    var sub := SignedSession(c, who, own, peer);
    MessageParses(sub);
    Lookup(sub, IDENTIFIER);
    Lookup(sub, SIGNATURE);
    assert sub[0].ty == IDENTIFIER && sub[1].ty == SIGNATURE;
  }

  lemma ServesM1(c: Suite, me: Identity, ctrlEph: bytes, eph: bytes)
    requires DhLaw(c)
    ensures var accEph, own := c.xPublic(eph), c.xPublic(ctrlEph);
            var shared := c.xShared(eph, own);
            VerifyM1(c, me, Tlv8.EncodeAll(M1Items(c, ctrlEph)), eph) ==
            Ok((Tlv8.EncodeAll(M2Items(c, me, PvKey(c, shared), accEph, own)), InProgress(accEph, own, shared, PvKey(c, shared))))
  {
    var items := M1Items(c, ctrlEph);
    MessageParses(items);
    LookupState(items, 1);
    Lookup(items, PUBLIC_KEY);
    assert items[1].ty == PUBLIC_KEY;
  }

  lemma M2Opens(c: Suite, me: Identity, pvKey: bytes, accEph: bytes, ctrlEph: bytes)
    requires SealLaw(c) && SignLaw(c)
    ensures var sub := SignedSession(c, me, accEph, ctrlEph);
            OpenM2(c, pvKey, SealTlv(c, pvKey, NONCE_M2, sub)) == Ok((me.id, c.edSign(me.seed, accEph + me.id + ctrlEph)))
  {
    SealedMessageOpens(c, pvKey, NONCE_M2, SignedSession(c, me, accEph, ctrlEph));
    SessionReads(c, me, accEph, ctrlEph);
  }

  lemma M2Reads(c: Suite, me: Identity, pvKey: bytes, accEph: bytes, ctrlEph: bytes)
    requires |accEph| == 32
    ensures var items := M2Items(c, me, pvKey, accEph, ctrlEph);
            && ParseTlv(Tlv8.EncodeAll(items)) == Ok(items)
            && CheckError(items) == Ok(()) && ControllerExpects(items, 2) == Ok(())
            && RequireWidth(items, PUBLIC_KEY, 32) == Ok(accEph)
            && Require(items, ENCRYPTED_DATA) == Ok(SealTlv(c, pvKey, NONCE_M2, SignedSession(c, me, accEph, ctrlEph)))
  {
    var items := M2Items(c, me, pvKey, accEph, ctrlEph);
    MessageParses(items);
    LookupState(items, 2);
    Lookup(items, ERROR);
    Lookup(items, PUBLIC_KEY);
    Lookup(items, ENCRYPTED_DATA);
    assert items[1].ty == PUBLIC_KEY && items[2].ty == ENCRYPTED_DATA;
  }

  lemma HandlesM2(c: Suite, cl: Controller, acc: Identity, accEph: bytes)
    requires Laws(c) && |accEph| == 32 && cl.accessory == Peer(acc.id, Ltpk(c, acc))
    ensures var shared := c.xShared(cl.eph, accEph);
            var pvKey := PvKey(c, shared);
            ClientHandle(c, cl, Progress(AwaitM2, None), Tlv8.EncodeAll(M2Items(c, acc, pvKey, accEph, c.xPublic(cl.eph)))) ==
            (Progress(AwaitM4, Some(shared)), Ok(Send(Tlv8.EncodeAll(M3Items(c, cl, pvKey, accEph)))))
  {
    var own := c.xPublic(cl.eph);
    var pvKey := PvKey(c, c.xShared(cl.eph, accEph));
    M2Reads(c, acc, pvKey, accEph, own);
    M2Opens(c, acc, pvKey, accEph, own);
    SessionReads(c, acc, accEph, own);
  }

  lemma ServesM3(c: Suite, cl: Controller, progress: InProgress, controller: Peer)
    requires Laws(c) && controller == Peer(cl.me.id, Ltpk(c, cl.me)) && progress.ctrlEph == c.xPublic(cl.eph)
    ensures VerifyM3(c, progress, controller, Tlv8.EncodeAll(M3Items(c, cl, progress.pvKey, progress.accEph)))
         == Ok((Tlv8.EncodeAll(OK_M4_ITEMS), Some(DeriveKeys(c, progress.shared))))
  {
    var items := M3Items(c, cl, progress.pvKey, progress.accEph);
    var sub := SignedSession(c, cl.me, progress.ctrlEph, progress.accEph);
    MessageParses(items);
    LookupState(items, 3);
    Lookup(items, ENCRYPTED_DATA);
    assert items[1].ty == ENCRYPTED_DATA;
    SealedMessageOpens(c, progress.pvKey, NONCE_M3, sub);
    SessionReads(c, cl.me, progress.ctrlEph, progress.accEph);
  }

  lemma HandlesM4(c: Suite, cl: Controller, shared: bytes)
    ensures ClientHandle(c, cl, Progress(AwaitM4, Some(shared)), Tlv8.EncodeAll(OK_M4_ITEMS))
         == (Progress(Finished, Some(shared)), Ok(Established(DeriveKeys(c, shared))))
  {
    MessageParses(OK_M4_ITEMS);
    LookupState(OK_M4_ITEMS, 4);
    Lookup(OK_M4_ITEMS, ERROR);
  }

  /** What each end holds after M1 to M4; `None` where the run stopped. */
  datatype Outcome = Outcome(controller: Option<Keys>, accessory: Option<Keys>)

  function Run(c: Suite, cl: Controller, acc: Identity, paired: Peer, accEph: bytes): Outcome
  {
    match VerifyM1(c, acc, Tlv8.EncodeAll(M1Items(c, cl.eph)), accEph)
    case Err(_) => Outcome(None, None)
    case Ok(m2) =>
      var s2 := ClientHandle(c, cl, Progress(AwaitM2, None), m2.0);
      if s2.1.Err? || !s2.1.value.Send? then Outcome(None, None)
      else
        match VerifyM3(c, m2.1, paired, s2.1.value.message)
        case Err(_) => Outcome(None, None)
        case Ok(m4) =>
          var s4 := ClientHandle(c, cl, s2.0, m4.0);
          Outcome(if s4.1.Ok? && s4.1.value.Established? then Some(s4.1.value.keys) else None, m4.1)
  }

  /**
   Every run between two ends that hold each other's pairing gives both the same three keys,
   derived from the Diffie-Hellman secret under the labels of the specification.
   */
  lemma HonestRun(c: Suite, cl: Controller, acc: Identity, accEph: bytes)
    requires Laws(c) && cl.accessory == Peer(acc.id, Ltpk(c, acc))
    ensures var shared := c.xShared(cl.eph, c.xPublic(accEph));
            var keys := Keys(c.hkdf(shared, Ascii("Control-Salt"), Ascii("Control-Read-Encryption-Key")),
                             c.hkdf(shared, Ascii("Control-Salt"), Ascii("Control-Write-Encryption-Key")),
                             c.hkdf(shared, Ascii("Event-Salt"), Ascii("Event-Read-Encryption-Key")));
            Run(c, cl, acc, Peer(cl.me.id, Ltpk(c, cl.me)), accEph) == Outcome(Some(keys), Some(keys))
  {
    var own, accPub := c.xPublic(cl.eph), c.xPublic(accEph);
    var shared := c.xShared(cl.eph, accPub);
    ServesM1(c, acc, cl.eph, accEph);
    assert c.xShared(accEph, own) == shared;
    HandlesM2(c, cl, acc, accPub);
    ServesM3(c, cl, InProgress(accPub, own, shared, PvKey(c, shared)), Peer(cl.me.id, Ltpk(c, cl.me)));
    HandlesM4(c, cl, shared);
  }

  // ---- The controller against any peer ----

  datatype Input = Begins | Answer(body: bytes)

  /** The progress after a sequence of calls, for any way of handling a response. */
  function RunInputs(handle: (Progress, bytes) -> Progress, inputs: seq<Input>): Progress
  {
    if inputs == [] then Progress(Init, None)
    else
      var p := RunInputs(handle, inputs[..|inputs| - 1]);
      match inputs[|inputs| - 1]
      case Begins => p.(state := AwaitM2)
      case Answer(body) => handle(p, body)
  }

  function Handler(c: Suite, cl: Controller): (Progress, bytes) -> Progress
  {
    (p: Progress, body: bytes) => ClientHandle(c, cl, p, body).0
  }

  /**
   The response carries this ephemeral key and, sealed under the secret shared with it, the stored accessory's id
   and signature over it and the controller's own.
   */
  predicate SignsSession(c: Suite, cl: Controller, body: bytes, accEph: bytes, sig: bytes)
  {
    && ParseTlv(body).Ok? && Tlv8.Get(ParseTlv(body).value, 0x03) == Some(accEph)
    && Proves(c, SessionKey(c, c.xShared(cl.eph, accEph)), "PV-Msg02", body, cl.accessory, accEph, c.xPublic(cl.eph), sig)
  }

  /** The response is such an M2, and the secret is the one shared with that ephemeral key. */
  ghost predicate Backs(c: Suite, cl: Controller, body: bytes, shared: bytes)
  {
    exists accEph: bytes, sig: bytes :: SignsSession(c, cl, body, accEph, sig) && shared == c.xShared(cl.eph, accEph)
  }

  ghost function Backer(c: Suite, cl: Controller): (bytes, bytes) -> bool
  {
    (body: bytes, shared: bytes) => Backs(c, cl, body, shared)
  }

  /** A controller comes to await M4 only by a response that backs the secret it then holds. */
  ghost predicate Orderly(handle: (Progress, bytes) -> Progress, backs: (bytes, bytes) -> bool)
  {
    forall p: Progress, body: bytes :: Arrives(backs, p, body, handle(p, body))
  }

  ghost predicate Arrives(backs: (bytes, bytes) -> bool, p: Progress, body: bytes, next: Progress)
  {
    next.state.AwaitM4? ==> next == p || (next.shared.Some? && backs(body, next.shared.value))
  }

  lemma M2Backs(c: Suite, cl: Controller, body: bytes)
    requires ParseTlv(body).Ok? && HandleM2(c, cl, ParseTlv(body).value).Ok?
    ensures Backs(c, cl, body, HandleM2(c, cl, ParseTlv(body).value).value.0)
  {
    var items := ParseTlv(body).value;
    var accEph := RequireWidth(items, PUBLIC_KEY, 32).value;
    var shared := c.xShared(cl.eph, accEph);
    var proof := OpenM2(c, PvKey(c, shared), Require(items, ENCRYPTED_DATA).value).value;
    assert SignsSession(c, cl, body, accEph, proof.1);
  }

  lemma ControllerIsOrderly(c: Suite, cl: Controller)
    ensures Orderly(Handler(c, cl), Backer(c, cl))
  {
    forall p: Progress, body: bytes ensures Arrives(Backer(c, cl), p, body, ClientHandle(c, cl, p, body).0) {
      if p.state.AwaitM2? && ParseTlv(body).Ok? && HandleM2(c, cl, ParseTlv(body).value).Ok? {
        M2Backs(c, cl, body);
      }
    }
  }

  ghost predicate NoStartAfter(inputs: seq<Input>, i: nat)
  {
    forall k :: i < k < |inputs| ==> inputs[k] != Begins
  }

  lemma {:induction false} AwaitM4Traced(handle: (Progress, bytes) -> Progress, backs: (bytes, bytes) -> bool, inputs: seq<Input>) returns (i: nat)
    requires Orderly(handle, backs) && RunInputs(handle, inputs).state.AwaitM4?
    ensures i < |inputs| && NoStartAfter(inputs, i) && inputs[i].Answer?
    ensures RunInputs(handle, inputs).shared.Some? && backs(inputs[i].body, RunInputs(handle, inputs).shared.value)
    decreases |inputs|
  {
    var t := |inputs| - 1;
    var prior := RunInputs(handle, inputs[..t]);
    assert Arrives(backs, prior, inputs[t].body, handle(prior, inputs[t].body));
    if prior == RunInputs(handle, inputs) {
      i := AwaitM4Traced(handle, backs, inputs[..t]);
      assert forall k :: i < k < t ==> inputs[..t][k] == inputs[k];
    } else {
      i := t;
    }
  }

  /** The session keys of a shared secret, by their labels. */
  function KeysOf(c: Suite, shared: bytes): Keys
  {
    Keys(c.hkdf(shared, Ascii("Control-Salt"), Ascii("Control-Read-Encryption-Key")),
         c.hkdf(shared, Ascii("Control-Salt"), Ascii("Control-Write-Encryption-Key")),
         c.hkdf(shared, Ascii("Event-Salt"), Ascii("Event-Read-Encryption-Key")))
  }

  lemma {:induction false} CleanExactly(message: bytes, state: byte)
    requires state != 0
    ensures Clean(message, state) <==>
            ParseTlv(message).Ok? && CheckError(ParseTlv(message).value).Ok? && ControllerExpects(ParseTlv(message).value, state).Ok?
  {
    if ParseTlv(message).Ok? { StateExactly(ParseTlv(message).value, state); }
  }

  /** Awaiting M4, keys come out exactly for a response with no error and, if any, State 4; any other changes nothing. */
  lemma {:induction false} M4Exactly(c: Suite, cl: Controller, shared: bytes, body: bytes)
    ensures ClientHandle(c, cl, Progress(AwaitM4, Some(shared)), body).0 == Progress(if Clean(body, 4) then Finished else AwaitM4, Some(shared))
    ensures if Clean(body, 4) then ClientHandle(c, cl, Progress(AwaitM4, Some(shared)), body).1 == Ok(Established(KeysOf(c, shared)))
            else ClientHandle(c, cl, Progress(AwaitM4, Some(shared)), body).1.Err?
  {
    CleanExactly(body, 4);
  }

  /**
   Whatever responses a controller is fed, it reports keys only on an M4 without error, after one response carried an
   ephemeral key and, sealed under the secret shared with it, the stored accessory's id and signature over it and the
   controller's own; the keys are those of that very secret, and there was no restart since.
   */
  lemma {:induction false} KeysAreBacked(c: Suite, cl: Controller, inputs: seq<Input>, body: bytes, keys: Keys) returns (i: nat, accEph: bytes, sig: bytes)
    requires ClientHandle(c, cl, RunInputs(Handler(c, cl), inputs), body).1 == Ok(Established(keys))
    ensures Clean(body, 4)
    ensures i < |inputs| && NoStartAfter(inputs, i) && inputs[i].Answer?
    ensures SignsSession(c, cl, inputs[i].body, accEph, sig)
    ensures keys == KeysOf(c, c.xShared(cl.eph, accEph))
  {
    ControllerIsOrderly(c, cl);
    i := AwaitM4Traced(Handler(c, cl), Backer(c, cl), inputs);
    var shared := RunInputs(Handler(c, cl), inputs).shared.value;
    assert Backs(c, cl, inputs[i].body, shared);
    accEph, sig :| SignsSession(c, cl, inputs[i].body, accEph, sig) && shared == c.xShared(cl.eph, accEph);
    M4Exactly(c, cl, shared, body);
  }
}
