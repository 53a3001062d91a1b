/** Types, constants and message helpers common to Pair Setup and Pair Verify, both ends. */
module Pairing {
  import opened Bytes
  import opened Primitives
  import Tlv8
  import Srp

  datatype PairingError =
    | Tlv8Error(e: Tlv8.Error)
    | SrpError(s: Srp.Fault)
    | Encoding
    | Aead
    | Signature

  /** An Ed25519 identity: the pairing id (the bytes of a `String`) and the seed. */
  datatype Identity = Identity(id: bytes, seed: bytes)

  function Ltpk(c: Suite, who: Identity): bytes
  {
    c.edPublic(who.seed)
  }

  /** A peer's pairing id and long-term public key. */
  datatype Peer = Peer(id: bytes, ltpk: bytes)

  const METHOD: byte := 0x00
  const IDENTIFIER: byte := 0x01
  const SALT: byte := 0x02
  const PUBLIC_KEY: byte := 0x03
  const PROOF: byte := 0x04
  const ENCRYPTED_DATA: byte := 0x05
  const STATE: byte := 0x06
  const ERROR: byte := 0x07
  const SIGNATURE: byte := 0x0A

  const METHOD_PAIR_SETUP: byte := 0x00
  const ERROR_AUTHENTICATION: byte := 0x02

  function ParseTlv(s: bytes): Result<seq<Tlv8.Item>, PairingError>
  {
    match Tlv8.Parse(s)
    case Ok(items) => Ok(items)
    case Err(e) => Err(Tlv8Error(e))
  }

  function Require(items: seq<Tlv8.Item>, ty: byte): Result<bytes, PairingError>
  {
    match Tlv8.Get(items, ty)
    case Some(v) => Ok(v)
    case None => Err(Encoding)
  }

  /** A field that must be present with exactly `width` bytes. */
  function RequireWidth(items: seq<Tlv8.Item>, ty: byte, width: nat): Result<bytes, PairingError>
  {
    var v :- Require(items, ty);
    if |v| == width then Ok(v) else Err(Encoding)
  }

  function StateOf(items: seq<Tlv8.Item>): Result<Option<byte>, PairingError>
  {
    match Tlv8.GetU8(items, STATE)
    case Ok(s) => Ok(s)
    case Err(e) => Err(Tlv8Error(e))
  }

  /** The controller tolerates a missing state. */
  function ControllerExpects(items: seq<Tlv8.Item>, want: byte): Result<(), PairingError>
  {
    var s :- StateOf(items);
    if s.None? || s.value == want then Ok(()) else Err(Encoding)
  }

  /** The accessory does not. */
  function AccessoryExpects(items: seq<Tlv8.Item>, want: byte): Result<(), PairingError>
  {
    var s :- StateOf(items);
    if s == Some(want) then Ok(()) else Err(Encoding)
  }

  function OpenTlv(c: Suite, key: bytes, label8: string, sealed: bytes): Result<bytes, PairingError>
    requires |label8| == 8
  {
    match c.open(key, Nonce(Ascii(label8)), sealed)
    case Some(p) => Ok(p)
    case None => Err(Aead)
  }

  function SealTlv(c: Suite, key: bytes, label8: string, items: seq<Tlv8.Item>): bytes
    requires |label8| == 8
  {
    c.seal(key, Nonce(Ascii(label8)), Tlv8.EncodeAll(items))
  }

  /** The items inside a message's sealed part, as they open under this key. */
  function SealedPart(c: Suite, key: bytes, label8: string, message: bytes): Option<seq<Tlv8.Item>>
    requires |label8| == 8
  {
    if ParseTlv(message).Err? then None
    else
      var sealed := Tlv8.Get(ParseTlv(message).value, ENCRYPTED_DATA);
      if sealed.None? then None
      else
        var plain := c.open(key, Nonce(Ascii(label8)), sealed.value);
        if plain.None? || ParseTlv(plain.value).Err? then None else Some(ParseTlv(plain.value).value)
  }

  // ---- Reading back what was written ----

  ghost predicate PairingTypes(items: seq<Tlv8.Item>)
  {
    forall i :: 0 <= i < |items| ==> items[i].ty != Tlv8.SEPARATOR
  }

  lemma MessageParses(items: seq<Tlv8.Item>)
    requires PairingTypes(items)
    ensures ParseTlv(Tlv8.EncodeAll(items)) == Ok(items)
  {
    Tlv8.RoundTripExactly(items);
  }

  lemma SealedMessageOpens(c: Suite, key: bytes, label8: string, items: seq<Tlv8.Item>)
    requires SealLaw(c) && |label8| == 8
    ensures OpenTlv(c, key, label8, SealTlv(c, key, label8, items)) == Ok(Tlv8.EncodeAll(items))
  {
  }

  /** First-match lookup in a list of at most three items of distinct types. */
  lemma Lookup(items: seq<Tlv8.Item>, ty: byte)
    requires |items| <= 3
    requires forall i, j :: 0 <= i < j < |items| ==> items[i].ty != items[j].ty
    ensures forall i :: 0 <= i < |items| && items[i].ty == ty ==> Tlv8.Get(items, ty) == Some(items[i].value)
    ensures (forall i :: 0 <= i < |items| ==> items[i].ty != ty) ==> Tlv8.Get(items, ty) == None
  {
    if Tlv8.Get(items, ty).Some? {
      assert Tlv8.Item(ty, Tlv8.Get(items, ty).value) in items;
    }
  }

  lemma LookupState(items: seq<Tlv8.Item>, s: byte)
    requires |items| > 0 && items[0] == Tlv8.Item(STATE, [s])
    ensures StateOf(items) == Ok(Some(s))
  {
  }

  /** The items of a message that parses. */
  function ItemsOf(message: bytes): seq<Tlv8.Item>
  {
    if ParseTlv(message).Ok? then ParseTlv(message).value else []
  }

  /** A reply that parses and carries no error and, if any, the expected state. */
  predicate Clean(message: bytes, state: byte)
  {
    ParseTlv(message).Ok? && Tlv8.Get(ItemsOf(message), 0x07) in {None, Some([])} && Tlv8.Get(ItemsOf(message), 0x06) in {None, Some([state])}
  }

  /** The in-band refusal as it goes over the wire: the state, then error 2. */
  lemma {:induction false} RefusalParses(state: byte)
    ensures Tlv8.EncodeAll([Tlv8.Item(0x06, [state]), Tlv8.Item(0x07, [2])]) == [0x06, 1, state, 0x07, 1, 2]
    ensures ParseTlv([0x06, 1, state, 0x07, 1, 2]) == Ok([Tlv8.Item(0x06, [state]), Tlv8.Item(0x07, [2])])
    ensures Tlv8.Get(ItemsOf([0x06, 1, state, 0x07, 1, 2]), 0x07) == Some([2])
  {
    var items := [Tlv8.Item(0x06, [state]), Tlv8.Item(0x07, [2])];
    EncodeTwo(items[0], items[1]);
    MessageParses(items);
    Lookup(items, 0x07);
  }

  /** Exactly which messages carry the state they should, for each end. */
  lemma StateExactly(items: seq<Tlv8.Item>, want: byte)
    requires want != 0
    ensures AccessoryExpects(items, want).Ok? <==> Tlv8.Get(items, 0x06) == Some([want])
    ensures ControllerExpects(items, want).Ok? <==> Tlv8.Get(items, 0x06) in {None, Some([want])}
  {
    var state := Tlv8.Get(items, 0x06);
    if state.Some? && |state.value| == 1 { assert state.value == [state.value[0]]; }
  }

  lemma EncodeTwo(a: Tlv8.Item, b: Tlv8.Item)
    ensures Tlv8.EncodeAll([a, b]) == Tlv8.Encode(a.ty, a.value) + Tlv8.Encode(b.ty, b.value)
  {
    assert [a, b][1..] == [b] && [b][1..] == [];
    assert Tlv8.EncodeAll([b]) == Tlv8.Encode(b.ty, b.value) + [];
  }

  lemma EncodeThree(a: Tlv8.Item, b: Tlv8.Item, d: Tlv8.Item)
    ensures Tlv8.EncodeAll([a, b, d])
         == Tlv8.Encode(a.ty, a.value) + Tlv8.Encode(b.ty, b.value) + Tlv8.Encode(d.ty, d.value)
  {
    assert [a, b, d][1..] == [b, d];
    EncodeTwo(b, d);
  }

  /** Writes a message of two or three items. */
  method WriteTwo(a: Tlv8.Item, b: Tlv8.Item) returns (out: bytes)
    ensures out == Tlv8.EncodeAll([a, b])
  {
    var w := new Tlv8.Writer();
    w.Push(a.ty, a.value);
    w.Push(b.ty, b.value);
    EncodeTwo(a, b);
    out := w.out;
  }

  method WriteThree(a: Tlv8.Item, b: Tlv8.Item, d: Tlv8.Item) returns (out: bytes)
    ensures out == Tlv8.EncodeAll([a, b, d])
  {
    var w := new Tlv8.Writer();
    w.Push(a.ty, a.value);
    w.Push(b.ty, b.value);
    w.Push(d.ty, d.value);
    EncodeThree(a, b, d);
    out := w.out;
  }
}
