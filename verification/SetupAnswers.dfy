/** Pair Setup, message by message: exactly what each end accepts, and what it answers. */
module SetupAnswers {
  import opened Bytes
  import opened Primitives
  import opened Pairing
  import opened Srp
  import opened PairSetup
  import opened SetupRuns
  import ModArith
  import Tlv8

  // ---- The accessory ----

  /** An M1 is accepted exactly with State 1 and the Pair Setup method, or none; M2 carries the salt and `B`. */
  lemma {:induction false} M1Exactly(c: Suite, grp: Group, code: bytes, payload: bytes, salt: bytes, b: nat)
    ensures var sv := NewServer(c.hash, grp, Ascii("Pair-Setup"), NormalizeSetupCode(code), salt, b);
            var items := ItemsOf(payload);
            && (SetupM1(c, grp, code, payload, salt, b).Ok? <==>
                ParseTlv(payload).Ok? && Tlv8.Get(items, 0x06) == Some([1]) && Tlv8.Get(items, 0x00) in {None, Some([]), Some([0])})
            && (SetupM1(c, grp, code, payload, salt, b).Ok? ==>
                SetupM1(c, grp, code, payload, salt, b).value ==
                (Tlv8.EncodeAll([Tlv8.Item(0x06, [2]), Tlv8.Item(0x02, salt), Tlv8.Item(0x03, PadN(grp, sv.bPub))]), sv))
  {
    var items := ItemsOf(payload);
    StateExactly(items, 1);
    var m := Tlv8.Get(items, 0x00);
    if m.Some? && |m.value| == 1 { assert m.value == [m.value[0]]; }
  }

  /** An M5 has a sealed part to look at, and if that opens, a readable identity in it. */
  predicate WellFormedM5(c: Suite, key: bytes, message: bytes)
  {
    && ParseTlv(message).Ok? && Tlv8.Get(ItemsOf(message), 0x06) == Some([5]) && Tlv8.Get(ItemsOf(message), 0x05).Some?
    && var plain := c.open(EncryptKey(c, key), Nonce(Ascii("PS-Msg05")), Tlv8.Get(ItemsOf(message), 0x05).value);
       plain.Some? ==> ParseTlv(plain.value).Ok? && Tlv8.Get(ParseTlv(plain.value).value, 0x01).Some?
  }

  function EncryptKey(c: Suite, key: bytes): bytes
  {
    c.hkdf(key, Ascii("Pair-Setup-Encrypt-Salt"), Ascii("Pair-Setup-Encrypt-Info"))
  }

  /** The identity an M5 carries, if it is one the accessory takes. */
  ghost predicate Enrols(c: Suite, key: bytes, message: bytes, peer: Peer)
  {
    && |peer.ltpk| == 32 && c.utf8(peer.id)
    && exists sig: bytes :: |sig| == 64 && SignsIdentity(c, key, "PS-Msg05", message, peer, ControllerMaterial(c, key), sig)
  }

  lemma {:induction false} M5WellFormedExactly(c: Suite, key: bytes, me: Identity, payload: bytes)
    ensures SetupM5(c, key, me, payload).Ok? <==> WellFormedM5(c, key, payload)
  {
    if ParseTlv(payload).Ok? { StateExactly(ParseTlv(payload).value, 5); }
  }

  lemma {:induction false} M5Enrols(c: Suite, key: bytes, me: Identity, payload: bytes, peer: Peer)
    requires WellFormedM5(c, key, payload)
    ensures SetupM5(c, key, me, payload).Ok?
    ensures SetupM5(c, key, me, payload).value.1 == Some(peer) <==> Enrols(c, key, payload, peer)
    ensures SetupM5(c, key, me, payload).value.1 == None ==> SetupM5(c, key, me, payload).value.0 == [0x06, 1, 6, 0x07, 1, 2]
  {
    M5WellFormedExactly(c, key, me, payload);
    RefusalBytes(6);
    if SetupM5(c, key, me, payload).value.1 == Some(peer) {
      var sig := AcceptedM5Signed(c, key, me, payload, peer);
      assert |sig| == 64;
    }
  }

  /** A message of this state that carries this identity, signed and sealed under the key. */
  predicate Carries(c: Suite, key: bytes, message: bytes, state: byte, label8: string, who: Identity, material: bytes)
    requires |label8| == 8
  {
    && ParseTlv(message).Ok? && Tlv8.Get(ItemsOf(message), 0x06) == Some([state])
    && SignsIdentity(c, key, label8, message, Peer(who.id, c.edPublic(who.seed)), material,
                     c.edSign(who.seed, material + who.id + c.edPublic(who.seed)))
  }

  lemma {:induction false} IdentityCarried(c: Suite, key: bytes, who: Identity, state: byte, label8: string, material: bytes)
    requires SealLaw(c) && SignLaw(c) && |label8| == 8
    ensures Carries(c, key, Tlv8.EncodeAll(SealedItems(state, SealTlv(c, EncryptKey(c, key), label8, SignedIdentity(c, material, who)))),
                    state, label8, who, material)
  {
    var sealed := SealTlv(c, EncryptKey(c, key), label8, SignedIdentity(c, material, who));
    SealedReads(state, sealed);
    SealedMessageOpens(c, EncryptKey(c, key), label8, SignedIdentity(c, material, who));
    IdentityReads(c, material, who);
  }

  /** The answer to an M5 that is taken carries the accessory's own identity, signed and sealed under the same key. */
  lemma {:induction false} M6Carries(c: Suite, key: bytes, me: Identity, payload: bytes)
    requires SealLaw(c) && SignLaw(c) && SetupM5(c, key, me, payload).Ok? && SetupM5(c, key, me, payload).value.1.Some?
    ensures Carries(c, key, SetupM5(c, key, me, payload).value.0, 6, "PS-Msg06", me, AccessoryMaterial(c, key))
  {
    IdentityCarried(c, key, me, 6, "PS-Msg06", AccessoryMaterial(c, key));
  }

  /** The reply to each `/1` request: the handler's answer, or nothing under an error code. */
  lemma {:induction false} RepliesExactly(c: Suite, cfg: Config, acc: Accessory, req: Request)
    ensures var (_, code, reply) := Serve(c, cfg, acc, req);
            if cfg.code.None? then code == NotFound && reply == []
            else if AcceptedM1(c, cfg, req) then code == Changed && reply == AnswerM1(c, cfg, req).value.0
            else if Is(cfg, req, 3) && acc.slot.AwaitM3? && WellFormedM3(req.payload)
            then code == Changed && reply == SetupM3(c, acc.slot.server, req.payload).value.0
            else if Is(cfg, req, 5) && acc.slot.AwaitM5? && WellFormedM5(c, acc.slot.key, req.payload)
            then code == Changed && reply == SetupM5(c, acc.slot.key, cfg.me, req.payload).value.0
            else code == BadRequest && reply == []
  {
    if acc.slot.AwaitM3? { M3WellFormedExactly(c, acc.slot.server, req.payload); }
    if acc.slot.AwaitM5? { M5WellFormedExactly(c, acc.slot.key, cfg.me, req.payload); }
  }

  // ---- The controller ----

  lemma {:induction false} CleanExactly(message: bytes, state: byte)
    requires state != 0
    ensures Clean(message, state) <==>
            ParseTlv(message).Ok? && CheckError(ParseTlv(message).value).Ok? && ControllerExpects(ParseTlv(message).value, state).Ok?
  {
    if ParseTlv(message).Ok? { StateExactly(ParseTlv(message).value, state); }
  }

  /** The premaster secret a client computes from any salt and `B`, from the hash and its inputs alone. */
  function SecretFrom(h: Hash, cl: Controller, salt: bytes, bPub: nat): nat
  {
    var n, g := cl.srp.grp.n, cl.srp.grp.g;
    var x := FromBe(h(salt + h(cl.srp.username + [0x3A] + cl.password)));
    var u := FromBe(h(PadN(cl.srp.grp, cl.srp.aPub) + PadN(cl.srp.grp, bPub)));
    var k := FromBe(h(ToBe(n) + PadN(cl.srp.grp, g)));
    ModArith.ModPow((bPub + n - (k * ModArith.ModPow(g, x, n)) % n) % n, cl.srp.a + u * x, n)
  }

  /** An M2 with a salt and a `B` that neither it nor the scrambler aborts. */
  predicate GoodM2(c: Suite, cl: Controller, message: bytes)
  {
    && Clean(message, 2) && Tlv8.Get(ItemsOf(message), 0x02).Some? && Tlv8.Get(ItemsOf(message), 0x03).Some?
    && var bPub := FromBe(Tlv8.Get(ItemsOf(message), 0x03).value);
       bPub % cl.srp.grp.n != 0 && FromBe(c.hash(PadN(cl.srp.grp, cl.srp.aPub) + PadN(cl.srp.grp, bPub))) != 0
  }

  lemma {:induction false} SecretIs(h: Hash, cl: Controller, salt: bytes, bPub: nat)
    requires bPub % cl.srp.grp.n != 0 && FromBe(h(PadN(cl.srp.grp, cl.srp.aPub) + PadN(cl.srp.grp, bPub))) != 0
    ensures Premaster(h, cl.srp, salt, cl.password, bPub) == Ok(SecretFrom(h, cl, salt, bPub))
  {
  }

  /** The client's proof for a key, from the hash and its inputs alone. */
  function ProofFrom(h: Hash, cl: Controller, salt: bytes, bPub: nat, key: bytes): bytes
  {
    h(XorBytes(h(ToBe(cl.srp.grp.n)), h(ToBe(cl.srp.grp.g))) + h(cl.srp.username) + salt + PadN(cl.srp.grp, cl.srp.aPub) + PadN(cl.srp.grp, bPub) + key)
  }

  /** A good M2 is taken, with its own key and proof. */
  lemma {:induction false} ClientTakesM2(c: Suite, cl: Controller, message: bytes, salt: bytes, bPub: nat)
    requires GoodM2(c, cl, message) && Tlv8.Get(ItemsOf(message), 0x02) == Some(salt) && bPub == FromBe(Tlv8.Get(ItemsOf(message), 0x03).value)
    ensures var key := c.hash(PadN(cl.srp.grp, SecretFrom(c.hash, cl, salt, bPub)));
            var m1 := ProofFrom(c.hash, cl, salt, bPub, key);
            ClientHandle(c, cl, AwaitingM2, message) ==
            (AwaitingM4(key, m1),
             Ok(Send(Tlv8.EncodeAll([Tlv8.Item(0x06, [3]), Tlv8.Item(0x03, PadN(cl.srp.grp, cl.srp.aPub)), Tlv8.Item(0x04, m1)]))))
  {
    CleanExactly(message, 2);
    SecretIs(c.hash, cl, salt, bPub);
  }

  /** Any other leaves the client where it was. */
  lemma {:induction false} ClientRefusesM2(c: Suite, cl: Controller, message: bytes)
    requires !GoodM2(c, cl, message)
    ensures ClientHandle(c, cl, AwaitingM2, message).0 == AwaitingM2 && ClientHandle(c, cl, AwaitingM2, message).1.Err?
  {
    CleanExactly(message, 2);
  }

  predicate GoodM4(c: Suite, cl: Controller, key: bytes, m1: bytes, message: bytes)
  {
    Clean(message, 4) && ProvesKey(c, cl, message, key, m1)
  }

  /** Exactly an M4 with the accessory's proof is answered, with the controller's own identity; another changes nothing. */
  lemma {:induction false} ClientM4Exactly(c: Suite, cl: Controller, key: bytes, m1: bytes, message: bytes) returns (m5: bytes)
    requires SealLaw(c) && SignLaw(c)
    ensures ClientHandle(c, cl, AwaitingM4(key, m1), message).0 == if GoodM4(c, cl, key, m1, message) then AwaitingM6(key) else AwaitingM4(key, m1)
    ensures if GoodM4(c, cl, key, m1, message) then ClientHandle(c, cl, AwaitingM4(key, m1), message).1 == Ok(Send(m5))
            else ClientHandle(c, cl, AwaitingM4(key, m1), message).1.Err?
    ensures ParseTlv(m5).Ok? && Tlv8.Get(ItemsOf(m5), 0x06) == Some([5])
    ensures SignsIdentity(c, key, "PS-Msg05", m5, Peer(cl.me.id, c.edPublic(cl.me.seed)), ControllerMaterial(c, key),
                          c.edSign(cl.me.seed, ControllerMaterial(c, key) + cl.me.id + c.edPublic(cl.me.seed)))
  {
    CleanExactly(message, 4);
    IdentityCarried(c, key, cl.me, 5, "PS-Msg05", ControllerMaterial(c, key));
    m5 := Tlv8.EncodeAll(SealedItems(5, SealTlv(c, EncryptKey(c, key), "PS-Msg05", SignedIdentity(c, ControllerMaterial(c, key), cl.me))));
  }

  ghost predicate Reveals(c: Suite, key: bytes, message: bytes, peer: Peer)
  {
    && |peer.ltpk| == 32 && c.utf8(peer.id)
    && exists sig: bytes :: |sig| == 64 && SignsIdentity(c, key, "PS-Msg06", message, peer, AccessoryMaterial(c, key), sig)
  }

  /** A pairing is reported exactly on an M6 that reveals it; any clean M6 ends the exchange, revealing or not. */
  lemma {:induction false} ClientM6Exactly(c: Suite, cl: Controller, key: bytes, message: bytes, peer: Peer)
    ensures ClientHandle(c, cl, AwaitingM6(key), message).0 == if Clean(message, 6) then Done else AwaitingM6(key)
    ensures ClientHandle(c, cl, AwaitingM6(key), message).1 == Ok(Established(peer)) <==> Clean(message, 6) && Reveals(c, key, message, peer)
    ensures ClientHandle(c, cl, AwaitingM6(key), message).1.Ok? ==> ClientHandle(c, cl, AwaitingM6(key), message).1.value.Established?
  {
    CleanExactly(message, 6);
    if ClientHandle(c, cl, AwaitingM6(key), message).1 == Ok(Established(peer)) {
      var sig := AcceptedM6Signed(c, key, message, peer);
      assert |sig| == 64;
    }
  }

  /** Before it starts and after it ends, the client answers nothing. */
  lemma {:induction false} ClientIdle(c: Suite, cl: Controller, st: State, message: bytes)
    requires st.Initial? || st.Done?
    ensures ClientHandle(c, cl, st, message).0 == st && ClientHandle(c, cl, st, message).1.Err?
  {
  }
}
