/** Pair Verify, message by message: exactly what each end accepts, and what it answers. */
module VerifyAnswers {
  import opened Bytes
  import opened Primitives
  import opened Pairing
  import opened PairVerify
  import Tlv8

  // ---- The accessory ----

  predicate GoodM1(message: bytes)
  {
    && ParseTlv(message).Ok? && Tlv8.Get(ItemsOf(message), 0x06) == Some([1])
    && Tlv8.Get(ItemsOf(message), 0x03).Some? && |Tlv8.Get(ItemsOf(message), 0x03).value| == 32
  }

  /** Exactly an M1 with an ephemeral key opens an exchange, and its M2 proves the accessory's identity for it. */
  lemma {:induction false} M1Exactly(c: Suite, me: Identity, payload: bytes, eph: bytes)
    requires SealLaw(c) && SignLaw(c) && DhLaw(c)
    ensures VerifyM1(c, me, payload, eph).Ok? <==> GoodM1(payload)
    ensures GoodM1(payload) ==>
              var own, peer := c.xPublic(eph), Tlv8.Get(ItemsOf(payload), 0x03).value;
              var key := SessionKey(c, c.xShared(eph, peer));
              var (m2, progress) := VerifyM1(c, me, payload, eph).value;
              && progress == InProgress(own, peer, c.xShared(eph, peer), key)
              && Clean(m2, 2) && Tlv8.Get(ItemsOf(m2), 0x03) == Some(own)
              && Proves(c, key, "PV-Msg02", m2, Peer(me.id, c.edPublic(me.seed)), own, peer, c.edSign(me.seed, own + me.id + peer))
  {
    if ParseTlv(payload).Ok? { StateExactly(ParseTlv(payload).value, 1); }
    if GoodM1(payload) {
      var own, peer := c.xPublic(eph), Tlv8.Get(ItemsOf(payload), 0x03).value;
      var key := SessionKey(c, c.xShared(eph, peer));
      M2Reads(c, me, key, own, peer);
      CleanExactly(Tlv8.EncodeAll(M2Items(c, me, key, own, peer)), 2);
      SealedMessageOpens(c, key, "PV-Msg02", SignedSession(c, me, own, peer));
      SessionReads(c, me, own, peer);
    }
  }

  /** An M3 has a sealed part to look at, and if that opens, an identifier in it. */
  predicate WellFormedM3(c: Suite, progress: InProgress, message: bytes)
  {
    && ParseTlv(message).Ok? && Tlv8.Get(ItemsOf(message), 0x06) == Some([3]) && Tlv8.Get(ItemsOf(message), 0x05).Some?
    && var plain := c.open(progress.pvKey, Nonce(Ascii("PV-Msg03")), Tlv8.Get(ItemsOf(message), 0x05).value);
       plain.Some? ==> ParseTlv(plain.value).Ok? && Tlv8.Get(ParseTlv(plain.value).value, 0x01).Some?
  }

  lemma {:induction false} M3WellFormedExactly(c: Suite, progress: InProgress, controller: Peer, payload: bytes)
    ensures VerifyM3(c, progress, controller, payload).Ok? <==> WellFormedM3(c, progress, payload)
  {
    if ParseTlv(payload).Ok? { StateExactly(ParseTlv(payload).value, 3); }
  }

  /** The paired controller signed this exchange. */
  ghost predicate Signed(c: Suite, progress: InProgress, controller: Peer, message: bytes)
  {
    exists sig: bytes :: |sig| == 64 && Proves(c, progress.pvKey, "PV-Msg03", message, controller, progress.ctrlEph, progress.accEph, sig)
  }

  /** A signed M3 is answered State 4 and yields the keys; another is refused with State 4 and Error 2, and yields none. */
  lemma {:induction false} M3AnsweredExactly(c: Suite, progress: InProgress, controller: Peer, payload: bytes)
    requires WellFormedM3(c, progress, payload)
    ensures VerifyM3(c, progress, controller, payload) ==
            if Signed(c, progress, controller, payload) then Ok(([0x06, 1, 4], Some(KeysOf(c, progress.shared))))
            else Ok(([0x06, 1, 4, 0x07, 1, 2], None))
  {
    M3WellFormedExactly(c, progress, controller, payload);
    RefusalParses(4);
    OkM4Bytes();
    var keys := VerifyM3(c, progress, controller, payload).value.1;
    if keys.Some? {
      var sig := AcceptedM3Proves(c, progress, controller, payload);
      assert |sig| == 64;
    }
  }

  lemma {:induction false} OkM4Bytes()
    ensures Tlv8.EncodeAll(OK_M4_ITEMS) == [0x06, 1, 4]
  {
    assert OK_M4_ITEMS[1..] == [];
    assert Tlv8.EncodeAll(OK_M4_ITEMS) == Tlv8.Encode(STATE, [4]) + [];
  }

  /** Whenever the accessory refuses an M3, its own reply makes a controller that awaits it fail, with no keys. */
  lemma {:induction false} RefusalFails(c: Suite, cl: Controller, shared: bytes, progress: InProgress, controller: Peer, payload: bytes)
    requires VerifyM3(c, progress, controller, payload).Ok? && VerifyM3(c, progress, controller, payload).value.1.None?
    ensures var reply := VerifyM3(c, progress, controller, payload).value.0;
            var (next, r) := ClientHandle(c, cl, Progress(AwaitM4, Some(shared)), reply);
            r.Err? && next == Progress(AwaitM4, Some(shared))
  {
    M3WellFormedExactly(c, progress, controller, payload);
    M3AnsweredExactly(c, progress, controller, payload);
    RefusalParses(4);
    M4Exactly(c, cl, shared, [0x06, 1, 4, 0x07, 1, 2]);
  }

  // ---- The controller ----

  ghost predicate GoodM2(c: Suite, cl: Controller, message: bytes, accEph: bytes)
  {
    Clean(message, 2) && |accEph| == 32 && exists sig: bytes :: |sig| == 64 && SignsSession(c, cl, message, accEph, sig)
  }

  /** Exactly an M2 in which the stored accessory signed this session is taken; any other changes nothing. */
  lemma {:induction false} M2TakenExactly(c: Suite, cl: Controller, shared: Option<bytes>, message: bytes)
    ensures ClientHandle(c, cl, Progress(AwaitM2, shared), message).1.Ok? <==> exists accEph: bytes :: GoodM2(c, cl, message, accEph)
    ensures ClientHandle(c, cl, Progress(AwaitM2, shared), message).1.Err? ==>
              ClientHandle(c, cl, Progress(AwaitM2, shared), message).0 == Progress(AwaitM2, shared)
  {
    CleanExactly(message, 2);
    if ClientHandle(c, cl, Progress(AwaitM2, shared), message).1.Ok? {
      var items := ParseTlv(message).value;
      var accEph := RequireWidth(items, PUBLIC_KEY, 32).value;
      var proof := OpenM2(c, PvKey(c, c.xShared(cl.eph, accEph)), Require(items, ENCRYPTED_DATA).value).value;
      assert SignsSession(c, cl, message, accEph, proof.1) && |proof.1| == 64;
      assert GoodM2(c, cl, message, accEph);
    }
  }

  /** Its M3 proves the controller's own identity under the secret it then holds. */
  lemma {:induction false} M3Sent(c: Suite, cl: Controller, shared: Option<bytes>, message: bytes, accEph: bytes) returns (m3: bytes)
    requires SealLaw(c) && SignLaw(c) && GoodM2(c, cl, message, accEph)
    ensures ClientHandle(c, cl, Progress(AwaitM2, shared), message) == (Progress(AwaitM4, Some(c.xShared(cl.eph, accEph))), Ok(Send(m3)))
    ensures ParseTlv(m3).Ok? && Tlv8.Get(ItemsOf(m3), 0x06) == Some([3])
    ensures var own := c.xPublic(cl.eph);
            Proves(c, SessionKey(c, c.xShared(cl.eph, accEph)), "PV-Msg03", m3, Peer(cl.me.id, c.edPublic(cl.me.seed)), own, accEph,
                   c.edSign(cl.me.seed, own + cl.me.id + accEph))
  {
    CleanExactly(message, 2);
    m3 := Tlv8.EncodeAll(M3Items(c, cl, SessionKey(c, c.xShared(cl.eph, accEph)), accEph));
    M3Carries(c, cl, SessionKey(c, c.xShared(cl.eph, accEph)), accEph);
  }

  lemma {:induction false} M3Carries(c: Suite, cl: Controller, key: bytes, accEph: bytes)
    requires SealLaw(c) && SignLaw(c)
    ensures var m3, own := Tlv8.EncodeAll(M3Items(c, cl, key, accEph)), c.xPublic(cl.eph);
            && ParseTlv(m3).Ok? && Tlv8.Get(ItemsOf(m3), 0x06) == Some([3])
            && Proves(c, key, "PV-Msg03", m3, Peer(cl.me.id, c.edPublic(cl.me.seed)), own, accEph, c.edSign(cl.me.seed, own + cl.me.id + accEph))
  {
    var items, own := M3Items(c, cl, key, accEph), c.xPublic(cl.eph);
    MessageParses(items);
    Tlv8.GetIsFirst(items, 0x06, 0);
    Tlv8.GetIsFirst(items, 0x05, 1);
    SealedMessageOpens(c, key, "PV-Msg03", SignedSession(c, cl.me, own, accEph));
    SessionReads(c, cl.me, own, accEph);
  }

  /** Before it starts and after it ends, the client answers nothing. */
  lemma {:induction false} ClientIdle(c: Suite, cl: Controller, p: Progress, message: bytes)
    requires p.state.Init? || p.state.Finished?
    ensures ClientHandle(c, cl, p, message).0 == p && ClientHandle(c, cl, p, message).1.Err?
  {
  }
}
