/** Pair Setup M1-M6: the controller's state machine and the accessory's handlers. */
module PairSetup {
  import opened Bytes
  import opened Primitives
  import opened Pairing
  import opened Srp
  import Tlv8

  const ENCRYPT_SALT := Ascii("Pair-Setup-Encrypt-Salt")
  const ENCRYPT_INFO := Ascii("Pair-Setup-Encrypt-Info")
  const CONTROLLER_SIGN_SALT := Ascii("Pair-Setup-Controller-Sign-Salt")
  const CONTROLLER_SIGN_INFO := Ascii("Pair-Setup-Controller-Sign-Info")
  const ACCESSORY_SIGN_SALT := Ascii("Pair-Setup-Accessory-Sign-Salt")
  const ACCESSORY_SIGN_INFO := Ascii("Pair-Setup-Accessory-Sign-Info")
  const USERNAME := Ascii("Pair-Setup")

  const NONCE_M5 := "PS-Msg05"
  const NONCE_M6 := "PS-Msg06"

  // ---- Setup codes ----

  predicate IsDigit(b: byte)
  {
    0x30 <= b <= 0x39
  }

  /** The ASCII digits of a code, in order. */
  function DigitsOf(code: bytes): (d: bytes)
    ensures forall i :: 0 <= i < |d| ==> IsDigit(d[i])
  {
    if code == [] then []
    else (if IsDigit(code[0]) then [code[0]] else []) + DigitsOf(code[1..])
  }

  const HYPHEN: byte := 0x2D

  /** Exactly eight digits are regrouped as `XXX-XX-XXX`; anything else is used verbatim. */
  function NormalizeSetupCode(code: bytes): bytes
  {
    var d := DigitsOf(code);
    if |d| == 8 then d[0..3] + [HYPHEN] + d[3..5] + [HYPHEN] + d[5..8] else code
  }

  lemma {:induction false} DigitsOfConcat(a: bytes, b: bytes)
    ensures DigitsOf(a + b) == DigitsOf(a) + DigitsOf(b)
  {
    if a == [] {
      assert a + b == b;
    } else {
      DigitsOfConcat(a[1..], b);
      assert (a + b)[1..] == a[1..] + b;
    }
  }

  lemma {:induction false} DigitsOfDigits(d: bytes)
    requires forall i :: 0 <= i < |d| ==> IsDigit(d[i])
    ensures DigitsOf(d) == d
  {
    if d != [] {
      DigitsOfDigits(d[1..]);
      assert d == [d[0]] + d[1..];
    }
  }

  /** The canonical form keeps the digits, so normalizing again changes nothing. */
  lemma NormalizeIdempotent(code: bytes)
    ensures DigitsOf(NormalizeSetupCode(code)) == DigitsOf(code)
    ensures NormalizeSetupCode(NormalizeSetupCode(code)) == NormalizeSetupCode(code)
  {
    var d := DigitsOf(code);
    if |d| == 8 {
      var x, y, z := d[0..3], d[3..5], d[5..8];
      DigitsOfDigits(x);
      DigitsOfDigits(y);
      DigitsOfDigits(z);
      assert DigitsOf([HYPHEN]) == [];
      DigitsOfConcat(x, [HYPHEN]);
      DigitsOfConcat(x + [HYPHEN], y);
      DigitsOfConcat(x + [HYPHEN] + y, [HYPHEN]);
      DigitsOfConcat(x + [HYPHEN] + y + [HYPHEN], z);
      assert x + y + z == d;
    }
  }

  /** The digits of a code are its bytes from `0` to `9`, in order. */
  lemma {:induction false} DigitsKept(code: bytes, b: byte)
    ensures DigitsOf([]) == [] && DigitsOf(code + [b]) == DigitsOf(code) + (if 0x30 <= b <= 0x39 then [b] else [])
  {
    DigitsOfConcat(code, [b]);
    assert [b][1..] == [];
  }

  /** Eight digits, wherever they stand in a code, become `XXX-XX-XXX`; any other code stays as it is. */
  lemma {:induction false} NormalForm(code: bytes)
    ensures var n, d := NormalizeSetupCode(code), DigitsOf(code);
            if |d| == 8 then n == [d[0], d[1], d[2], 0x2D, d[3], d[4], 0x2D, d[5], d[6], d[7]] else n == code
  {
    var d := DigitsOf(code);
    if |d| == 8 { Grouped(d); }
  }

  lemma {:induction false} Grouped(d: bytes)
    requires |d| == 8
    ensures d[0..3] + [HYPHEN] + d[3..5] + [HYPHEN] + d[5..8] == [d[0], d[1], d[2], 0x2D, d[3], d[4], 0x2D, d[5], d[6], d[7]]
  {
    assert d[0..3] == [d[0], d[1], d[2]] && d[3..5] == [d[3], d[4]] && d[5..8] == [d[5], d[6], d[7]];
  }

  // ---- The controller ----

  datatype State = Initial | AwaitingM2 | AwaitingM4(key: bytes, m1: bytes) | AwaitingM6(key: bytes) | Done

  datatype Step = Send(message: bytes) | Established(peer: Peer)

  datatype Controller = Controller(password: bytes, me: Identity, srp: Srp.Client)

  function NewSetupClient(grp: Group, code: bytes, me: Identity, a: nat): Result<Controller, Srp.Fault>
  {
    var srp :- NewClient(grp, USERNAME, a);
    Ok(Controller(NormalizeSetupCode(code), me, srp))
  }

  const M1_ITEMS := [Tlv8.Item(STATE, [1]), Tlv8.Item(METHOD, [METHOD_PAIR_SETUP])]

  function CheckError(items: seq<Tlv8.Item>): Result<(), PairingError>
  {
    match Tlv8.Get(items, ERROR)
    case None => Ok(())
    case Some(v) =>
      if v == [] then Ok(())
      else if v == [2] then Err(SrpError(ProofMismatch))
      else Err(Encoding)
  }

  function M3Items(cl: Controller, m1: bytes): seq<Tlv8.Item>
  {
    [Tlv8.Item(STATE, [3]), Tlv8.Item(PUBLIC_KEY, PadN(cl.srp.grp, cl.srp.aPub)), Tlv8.Item(PROOF, m1)]
  }

  function HandleM2(c: Suite, cl: Controller, items: seq<Tlv8.Item>): Result<(State, bytes), PairingError>
  {
    var _ :- ControllerExpects(items, 2);
    var salt :- Require(items, SALT);
    var bBytes :- Require(items, PUBLIC_KEY);
    var bPub := FromBe(bBytes);
    match Premaster(c.hash, cl.srp, salt, cl.password, bPub)
    case Err(e) => Err(SrpError(e))
    case Ok(secret) =>
      var key := ClientKey(c.hash, cl.srp, secret);
      var m1 := ClientM1(c.hash, cl.srp, salt, bPub, key);
      Ok((AwaitingM4(key, m1), Tlv8.EncodeAll(M3Items(cl, m1))))
  }

  /** An identity's sub-TLV: id, long-term key and a signature over `x || id || ltpk`. */
  function SignedIdentity(c: Suite, x: bytes, who: Identity): seq<Tlv8.Item>
  {
    [Tlv8.Item(IDENTIFIER, who.id), Tlv8.Item(PUBLIC_KEY, Ltpk(c, who)),
     Tlv8.Item(SIGNATURE, c.edSign(who.seed, x + who.id + Ltpk(c, who)))]
  }

  function SealedItems(state: byte, sealed: bytes): seq<Tlv8.Item>
  {
    [Tlv8.Item(STATE, [state]), Tlv8.Item(ENCRYPTED_DATA, sealed)]
  }

  function HandleM4(c: Suite, cl: Controller, key: bytes, m1: bytes, items: seq<Tlv8.Item>): Result<(State, bytes), PairingError>
  {
    var _ :- ControllerExpects(items, 4);
    var proof :- Require(items, PROOF);
    if !ClientAccepts(c.hash, cl.srp, m1, key, proof) then Err(SrpError(ProofMismatch))
    else
      var encKey := c.hkdf(key, ENCRYPT_SALT, ENCRYPT_INFO);
      var x := c.hkdf(key, CONTROLLER_SIGN_SALT, CONTROLLER_SIGN_INFO);
      var sealed := SealTlv(c, encKey, NONCE_M5, SignedIdentity(c, x, cl.me));
      Ok((AwaitingM6(key), Tlv8.EncodeAll(SealedItems(5, sealed))))
  }

  /** The accessory's identity out of M6, once its signature verifies. */
  function HandleM6(c: Suite, key: bytes, items: seq<Tlv8.Item>): Result<Peer, PairingError>
  {
    var sealed :- Require(items, ENCRYPTED_DATA);
    var encKey := c.hkdf(key, ENCRYPT_SALT, ENCRYPT_INFO);
    var plain :- OpenTlv(c, encKey, NONCE_M6, sealed);
    var sub :- ParseTlv(plain);
    var id :- Require(sub, IDENTIFIER);
    var ltpk :- RequireWidth(sub, PUBLIC_KEY, 32);
    var sig :- RequireWidth(sub, SIGNATURE, 64);
    if !c.utf8(id) then Err(Encoding)
    else
      var x := c.hkdf(key, ACCESSORY_SIGN_SALT, ACCESSORY_SIGN_INFO);
      if !c.edVerify(ltpk, x + id + ltpk, sig) then Err(Signature)
      else Ok(Peer(id, ltpk))
  }

  /** One `handle` call: a failed M2 or M4 leaves the state as it was, an M6 that passes the state check ends it. */
  function ClientHandle(c: Suite, cl: Controller, st: State, response: bytes): (State, Result<Step, PairingError>)
  {
    match ParseTlv(response)
    case Err(e) => (st, Err(e))
    case Ok(items) =>
      match CheckError(items)
      case Err(e) => (st, Err(e))
      case Ok(_) =>
        match st
        case Initial => (st, Err(Encoding))
        case Done => (st, Err(Encoding))
        case AwaitingM2 =>
          (match HandleM2(c, cl, items)
           case Err(e) => (st, Err(e))
           case Ok(next) => (next.0, Ok(Send(next.1))))
        case AwaitingM4(key, m1) =>
          (match HandleM4(c, cl, key, m1, items)
           case Err(e) => (st, Err(e))
           case Ok(next) => (next.0, Ok(Send(next.1))))
        case AwaitingM6(key) =>
          match ControllerExpects(items, 6)
          case Err(e) => (st, Err(e))
          case Ok(_) =>
            match HandleM6(c, key, items)
            case Err(e) => (Done, Err(e))
            case Ok(peer) => (Done, Ok(Established(peer)))
  }

  /** The state machine as the source keeps it: an object whose `state` each call updates. */
  class PairSetupClient {
    const suite: Suite
    const cl: Controller
    var state: State

    constructor (suite: Suite, cl: Controller)
      ensures this.suite == suite && this.cl == cl && state == Initial
    {
      this.suite := suite;
      this.cl := cl;
      state := Initial;
    }

    /** Emits M1. The state becomes `AwaitingM2` whatever it was. */
    method Start() returns (message: bytes)
      modifies this
      ensures state == AwaitingM2 && message == Tlv8.EncodeAll(M1_ITEMS)
    {
      state := AwaitingM2;
      message := WriteTwo(Tlv8.Item(STATE, [1]), Tlv8.Item(METHOD, [METHOD_PAIR_SETUP]));
    }

    method Handle(response: bytes) returns (r: Result<Step, PairingError>)
      modifies this
      ensures (state, r) == ClientHandle(suite, cl, old(state), response)
    {
      var items := ParseTlv(response);
      if items.Err? { return Err(items.error); }
      var checked := CheckError(items.value);
      if checked.Err? { return Err(checked.error); }
      match state {
        case Initial => r := Err(Encoding);
        case AwaitingM2 => r := TakeM2(items.value);
        case AwaitingM4(key, m1) => r := TakeM4(items.value);
        case AwaitingM6(key) => r := TakeM6(items.value);
        case Done => r := Err(Encoding);
      }
    }

    method TakeM2(items: seq<Tlv8.Item>) returns (r: Result<Step, PairingError>)
      modifies this
      ensures match HandleM2(suite, cl, items)
              case Err(e) => state == old(state) && r == Err(e)
              case Ok(next) => state == next.0 && r == Ok(Send(next.1))
    {
      var expected := ControllerExpects(items, 2);
      if expected.Err? { return Err(expected.error); }
      var salt := Require(items, SALT);
      if salt.Err? { return Err(salt.error); }
      var bBytes := Require(items, PUBLIC_KEY);
      if bBytes.Err? { return Err(bBytes.error); }
      var bPub := FromBe(bBytes.value);
      var secret := Premaster(suite.hash, cl.srp, salt.value, cl.password, bPub);
      if secret.Err? { return Err(SrpError(secret.error)); }
      var key := ClientKey(suite.hash, cl.srp, secret.value);
      var m1 := ClientM1(suite.hash, cl.srp, salt.value, bPub, key);
      var out := WriteThree(Tlv8.Item(STATE, [3]), Tlv8.Item(PUBLIC_KEY, PadN(cl.srp.grp, cl.srp.aPub)), Tlv8.Item(PROOF, m1));
      state := AwaitingM4(key, m1);
      r := Ok(Send(out));
    }

    method TakeM4(items: seq<Tlv8.Item>) returns (r: Result<Step, PairingError>)
      requires state.AwaitingM4?
      modifies this
      ensures match HandleM4(suite, cl, old(state).key, old(state).m1, items)
              case Err(e) => state == old(state) && r == Err(e)
              case Ok(next) => state == next.0 && r == Ok(Send(next.1))
    {
      var expected := ControllerExpects(items, 4);
      if expected.Err? { return Err(expected.error); }
      var key, m1 := state.key, state.m1;
      var proof := Require(items, PROOF);
      if proof.Err? { return Err(proof.error); }
      if !ClientAccepts(suite.hash, cl.srp, m1, key, proof.value) { return Err(SrpError(ProofMismatch)); }
      var encKey := suite.hkdf(key, ENCRYPT_SALT, ENCRYPT_INFO);
      var x := suite.hkdf(key, CONTROLLER_SIGN_SALT, CONTROLLER_SIGN_INFO);
      var ltpk := Ltpk(suite, cl.me);
      var signature := suite.edSign(cl.me.seed, x + cl.me.id + ltpk);
      var sub := WriteThree(Tlv8.Item(IDENTIFIER, cl.me.id), Tlv8.Item(PUBLIC_KEY, ltpk), Tlv8.Item(SIGNATURE, signature));
      var sealed := suite.seal(encKey, Nonce(Ascii(NONCE_M5)), sub);
      var out := WriteTwo(Tlv8.Item(STATE, [5]), Tlv8.Item(ENCRYPTED_DATA, sealed));
      state := AwaitingM6(key);
      r := Ok(Send(out));
    }

    /** Past the state check, the exchange is over whatever M6 turns out to hold. */
    method TakeM6(items: seq<Tlv8.Item>) returns (r: Result<Step, PairingError>)
      requires state.AwaitingM6?
      modifies this
      ensures match ControllerExpects(items, 6)
              case Err(e) => state == old(state) && r == Err(e)
              case Ok(_) =>
                state == Done &&
                r == match HandleM6(suite, old(state).key, items)
                     case Err(e) => Err(e)
                     case Ok(peer) => Ok(Established(peer))
    {
      var expected := ControllerExpects(items, 6);
      if expected.Err? { return Err(expected.error); }
      var key := state.key;
      state := Done;
      var sealed := Require(items, ENCRYPTED_DATA);
      if sealed.Err? { return Err(sealed.error); }
      var plain := OpenTlv(suite, suite.hkdf(key, ENCRYPT_SALT, ENCRYPT_INFO), NONCE_M6, sealed.value);
      if plain.Err? { return Err(plain.error); }
      var sub := ParseTlv(plain.value);
      if sub.Err? { return Err(sub.error); }
      var id := Require(sub.value, IDENTIFIER);
      if id.Err? { return Err(id.error); }
      var ltpk := RequireWidth(sub.value, PUBLIC_KEY, 32);
      if ltpk.Err? { return Err(ltpk.error); }
      var sig := RequireWidth(sub.value, SIGNATURE, 64);
      if sig.Err? { return Err(sig.error); }
      if !suite.utf8(id.value) { return Err(Encoding); }
      var x := suite.hkdf(key, ACCESSORY_SIGN_SALT, ACCESSORY_SIGN_INFO);
      if !suite.edVerify(ltpk.value, x + id.value + ltpk.value, sig.value) { return Err(Signature); }
      r := Ok(Established(Peer(id.value, ltpk.value)));
    }
  }

  // ---- The accessory's handlers ----

  function SetupM2Items(sv: Server): seq<Tlv8.Item>
  {
    [Tlv8.Item(STATE, [2]), Tlv8.Item(SALT, sv.salt), Tlv8.Item(PUBLIC_KEY, PadN(sv.grp, sv.bPub))]
  }

  /** M1: the method must be Pair Setup or absent. The salt and exponent come from the random source. */
  function SetupM1(c: Suite, grp: Group, code: bytes, payload: bytes, salt: bytes, b: nat): Result<(bytes, Server), PairingError>
  {
    var items :- ParseTlv(payload);
    var _ :- AccessoryExpects(items, 1);
    match Tlv8.GetU8(items, METHOD)
    case Err(e) => Err(Tlv8Error(e))
    case Ok(m) =>
      if m != None && m != Some(METHOD_PAIR_SETUP) then Err(Encoding)
      else
        var sv := NewServer(c.hash, grp, USERNAME, NormalizeSetupCode(code), salt, b);
        Ok((Tlv8.EncodeAll(SetupM2Items(sv)), sv))
  }

  function ErrorReply(state: byte): bytes
  {
    Tlv8.EncodeAll([Tlv8.Item(STATE, [state]), Tlv8.Item(ERROR, [ERROR_AUTHENTICATION])])
  }

  function SetupM4Items(proof: bytes): seq<Tlv8.Item>
  {
    [Tlv8.Item(STATE, [4]), Tlv8.Item(PROOF, proof)]
  }

  /** M3: a bad `A` or proof is answered in band, with no session key. */
  function SetupM3(c: Suite, sv: Server, payload: bytes): Result<(bytes, Option<bytes>), PairingError>
  {
    var items :- ParseTlv(payload);
    var _ :- AccessoryExpects(items, 3);
    var aBytes :- Require(items, PUBLIC_KEY);
    var m1 :- Require(items, PROOF);
    var aPub := FromBe(aBytes);
    match ServerKey(c.hash, sv, aPub)
    case Err(_) => Ok((ErrorReply(4), None))
    case Ok(key) =>
      match ServerVerify(c.hash, sv, aPub, key, m1)
      case Err(_) => Ok((ErrorReply(4), None))
      case Ok(proof) => Ok((Tlv8.EncodeAll(SetupM4Items(proof)), Some(key)))
  }

  /** M5: the controller's identity once its signature verifies, and the accessory's own in reply. */
  function SetupM5(c: Suite, key: bytes, me: Identity, payload: bytes): Result<(bytes, Option<Peer>), PairingError>
  {
    var items :- ParseTlv(payload);
    var _ :- AccessoryExpects(items, 5);
    var sealed :- Require(items, ENCRYPTED_DATA);
    var encKey := c.hkdf(key, ENCRYPT_SALT, ENCRYPT_INFO);
    match OpenTlv(c, encKey, NONCE_M5, sealed)
    case Err(_) => Ok((ErrorReply(6), None))
    case Ok(plain) =>
      var sub :- ParseTlv(plain);
      var id :- Require(sub, IDENTIFIER);
      var ltpk, sig := RequireWidth(sub, PUBLIC_KEY, 32), RequireWidth(sub, SIGNATURE, 64);
      if ltpk.Err? || sig.Err? then Ok((ErrorReply(6), None))
      else
        var x := c.hkdf(key, CONTROLLER_SIGN_SALT, CONTROLLER_SIGN_INFO);
        if !c.edVerify(ltpk.value, x + id + ltpk.value, sig.value) || !c.utf8(id) then Ok((ErrorReply(6), None))
        else
          var ax := c.hkdf(key, ACCESSORY_SIGN_SALT, ACCESSORY_SIGN_INFO);
          var reply := SealTlv(c, encKey, NONCE_M6, SignedIdentity(c, ax, me));
          Ok((Tlv8.EncodeAll(SealedItems(6, reply)), Some(Peer(id, ltpk.value))))
  }
}
