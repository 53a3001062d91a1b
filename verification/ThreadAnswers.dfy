/** The reference accessory's replies: exactly which code and payload every datagram gets, and what it changes. */
module ThreadAnswers {
  import opened Bytes
  import opened Primitives
  import opened Pairing
  import opened Sessions
  import opened ThreadPdu
  import opened LightBulb
  import opened ThreadAccessory
  import BlockTransfer
  import PairVerify
  import VerifyAnswers
  import SetupRuns

  /** Every `/2` request: the handler's answer, or nothing under an error code; only an M1 that is taken and an M3 change anything. */
  lemma {:induction false} VerifyRepliesExactly(c: Suite, me: Identity, controller: Option<Peer>, s: VerifyState, payload: bytes, eph: bytes)
    requires Laws(c)
    ensures var (next, code, reply) := ServeVerify(c, me, controller, s, payload, eph);
            var state := SetupRuns.MessageState(payload);
            if state == Some(1) && VerifyAnswers.GoodM1(payload)
            then (code, reply) == (BlockTransfer.Changed, PairVerify.VerifyM1(c, me, payload, eph).value.0) && next.session == s.session
            else if state == Some(3) && s.slot.Some? && controller.Some? && VerifyAnswers.WellFormedM3(c, s.slot.value, payload)
            then if VerifyAnswers.Signed(c, s.slot.value, controller.value, payload)
                 then (next, code, reply) == (VerifyState(None, Some(Session(PairVerify.KeysOf(c, s.slot.value.shared), 0, 0))), BlockTransfer.Changed, [0x06, 1, 4])
                 else (next, code, reply) == (s.(slot := None), BlockTransfer.Changed, [0x06, 1, 4, 0x07, 1, 2])
            else (next, code, reply) == (if state == Some(3) then s.(slot := None) else s, BlockTransfer.BadRequest, [])
  {
    VerifyAnswers.M1Exactly(c, me, payload, eph);
    if s.slot.Some? && controller.Some? {
      VerifyAnswers.M3WellFormedExactly(c, s.slot.value, controller.value, payload);
      if VerifyAnswers.WellFormedM3(c, s.slot.value, payload) { VerifyAnswers.M3AnsweredExactly(c, s.slot.value, controller.value, payload); }
    }
  }

  /** A sealed payload that does not open is unauthorized and costs nothing; one that opens but does not decode is bad and has spent a receive counter. */
  lemma {:induction false} SecureRefusals(c: Suite, keys: PairVerify.Keys, recv: u64, send: u64, bulb: Bulb, payload: bytes)
    ensures var plain := c.open(keys.write, CounterNonce(recv), payload);
            && (plain.None? ==> ServeSecure(c, keys, recv, send, bulb, payload) == Served(BlockTransfer.Unauthorized, [], recv, send, bulb))
            && (plain.Some? && Decode(plain.value).Err? ==>
                  ServeSecure(c, keys, recv, send, bulb, payload) == Served(BlockTransfer.BadRequest, [], Next(recv), send, bulb))
            && (plain.Some? && Decode(plain.value).Ok? ==> ServeSecure(c, keys, recv, send, bulb, payload).code == BlockTransfer.Changed)
  {
  }

  /** The paths that need nothing: `/0` is acknowledged, one that is not known is not found, and `/` without a session is unauthorized. */
  lemma {:induction false} PlainPaths(g: Setting, d: Device, m: Incoming)
    ensures m.path.Identify? ==> Handle(g, d, m) == (d, BlockTransfer.Changed, [])
    ensures m.path.UnknownPath? ==> Handle(g, d, m) == (d, BlockTransfer.NotFound, [])
    ensures m.path.SecurePath? && d.session.None? ==> Handle(g, d, m) == (d, BlockTransfer.Unauthorized, [])
  {
  }

  /** `/1` answers under the code its handler gives. */
  lemma {:induction false} SetupPath(g: Setting, d: Device, m: Incoming)
    requires m.path.PairSetupPath?
    ensures var (next, code, reply) :=
              SetupRuns.Serve(g.suite, g.setup, SetupRuns.Accessory(d.setup, d.controller), SetupRuns.Request(m.payload, m.salt, m.b));
            var (device, got, sent) := Handle(g, d, m);
            && device == d.(setup := next.slot, controller := next.controller) && sent == reply
            && (got.Changed? <==> code.Changed?) && (got.BadRequest? <==> code.BadRequest?) && (got.NotFound? <==> code.NotFound?)
  {
  }

  /** Each path touches its own part: `/1` the setup slot and the controller, `/2` the verify slot and the session, `/` the session's counters and the bulb. */
  lemma {:induction false} PathsApart(g: Setting, d: Device, m: Incoming)
    ensures var next := Handle(g, d, m).0;
            && next.cache == d.cache
            && (!m.path.PairSetupPath? ==> next.setup == d.setup && next.controller == d.controller)
            && (!m.path.PairVerifyPath? ==> next.verify == d.verify && (next.session.Some? <==> d.session.Some?))
            && (next.session.Some? && d.session.Some? && !m.path.PairVerifyPath? ==> next.session.value.keys == d.session.value.keys)
            && (!m.path.SecurePath? ==> next.bulb == d.bulb)
            && (!m.path.SecurePath? && !m.path.PairVerifyPath? ==> next.session == d.session)
  {
  }

  /** The controller opens only what comes as `2.04`; `4.04` means the session has expired, and any other code is an error; nothing else moves its counter. */
  lemma {:induction false} PostedExactly(c: Suite, keys: PairVerify.Keys, recv: u64, outcome: BlockTransfer.Outcome, plain: bytes)
    ensures PostResult(c, keys, recv, outcome).0 == Ok(plain) <==>
            outcome.Complete? && outcome.code.Changed? && c.open(keys.read, CounterNonce(recv), outcome.payload) == Some(plain)
    ensures PostResult(c, keys, recv, outcome).1 == if PostResult(c, keys, recv, outcome).0.Ok? then Next(recv) else recv
    ensures PostResult(c, keys, recv, outcome).0 == Err(SessionExpired) <==> outcome.Complete? && outcome.code.NotFound?
  {
  }

  /**
   Exactly a datagram that asks for a block after the first, of an accessory that answers in blocks, is served from the
   cache, and then runs no handler; any other runs its handler once, even one that asks for block 0.
   */
  lemma {:induction false} ContinuationExactly(g: Setting, d: Device, m: Incoming)
    ensures var (next, out) := Receive(g, d, m);
            if g.framing.blockwise.Some? && m.block.Some? && m.block.value > 0
            then next == d.(cache := next.cache) && (next.cache, out) == BlockTransfer.Continue(g.framing, d.cache, m.peer, m.block.value)
            else
              var (handled, code, reply) := Handle(g, d, m);
              next == handled.(cache := next.cache) && out.Some? && (next.cache, out.value) == BlockTransfer.Respond(g.framing, handled.cache, m.peer, code, reply)
  {
  }
}
