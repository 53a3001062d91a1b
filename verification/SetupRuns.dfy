/** Whole runs of Pair Setup: the accessory's `/1` slot, honest exchanges, and what an M5 depends on. */
module SetupRuns {
  import opened Bytes
  import opened Primitives
  import opened Pairing
  import opened Srp
  import opened PairSetup
  import Tlv8

  // ---- The `/1` resource ----

  datatype Slot = Empty | AwaitM3(server: Server) | AwaitM5(key: bytes)

  datatype Accessory = Accessory(slot: Slot, controller: Option<Peer>)

  datatype Config = Config(grp: Group, code: Option<bytes>, me: Identity)

  /** A request body with the randomness an accepted M1 would draw. */
  datatype Request = Request(payload: bytes, salt: bytes, b: nat)

  datatype Code = Changed | BadRequest | NotFound

  /** The state a message claims, if it parses. */
  function MessageState(payload: bytes): Option<byte>
  {
    match ParseTlv(payload)
    case Err(_) => None
    case Ok(items) =>
      match StateOf(items)
      case Err(_) => None
      case Ok(s) => s
  }

  function AnswerM1(c: Suite, cfg: Config, req: Request): Result<(bytes, Server), PairingError>
    requires cfg.code.Some?
  {
    SetupM1(c, cfg.grp, cfg.code.value, req.payload, req.salt, req.b)
  }

  /** One request to `/1`. An M3 or an M5 empties the slot before it is looked at. */
  function Serve(c: Suite, cfg: Config, acc: Accessory, req: Request): (Accessory, Code, bytes)
  {
    if cfg.code.None? then (acc, NotFound, [])
    else
      match MessageState(req.payload)
      case Some(s) =>
        if s == 1 then
          match AnswerM1(c, cfg, req)
          case Ok(r) => (acc.(slot := AwaitM3(r.1)), Changed, r.0)
          case Err(_) => (acc, BadRequest, [])
        else if s == 3 then
          if !acc.slot.AwaitM3? then (acc.(slot := Empty), BadRequest, [])
          else
            match SetupM3(c, acc.slot.server, req.payload)
            case Ok(r) => (acc.(slot := if r.1.Some? then AwaitM5(r.1.value) else Empty), Changed, r.0)
            case Err(_) => (acc.(slot := Empty), BadRequest, [])
        else if s == 5 then
          if !acc.slot.AwaitM5? then (acc.(slot := Empty), BadRequest, [])
          else
            match SetupM5(c, acc.slot.key, cfg.me, req.payload)
            case Ok(r) => (Accessory(Empty, if r.1.Some? then r.1 else acc.controller), Changed, r.0)
            case Err(_) => (acc.(slot := Empty), BadRequest, [])
        else (acc, BadRequest, [])
      case None => (acc, BadRequest, [])
  }

  type Responder = (Accessory, Request) -> Accessory

  function ResponderOf(c: Suite, cfg: Config): Responder
  {
    (acc: Accessory, req: Request) => Serve(c, cfg, acc, req).0
  }

  function ServeAll(serve: Responder, acc: Accessory, reqs: seq<Request>): Accessory
  {
    if reqs == [] then acc
    else serve(ServeAll(serve, acc, reqs[..|reqs| - 1]), reqs[|reqs| - 1])
  }

  /** What holds of no requests and is kept by one more holds of every sequence. */
  lemma {:induction false} ServedKeeps(serve: Responder, start: Accessory, reqs: seq<Request>, holds: (Accessory, seq<Request>) -> bool)
    requires holds(start, [])
    requires forall acc: Accessory, rs: seq<Request>, r: Request :: holds(acc, rs) ==> holds(serve(acc, r), rs + [r])
    ensures holds(ServeAll(serve, start, reqs), reqs)
  {
    if reqs != [] {
      var front, last := reqs[..|reqs| - 1], reqs[|reqs| - 1];
      ServedKeeps(serve, start, front, holds);
      assert holds(serve(ServeAll(serve, start, front), last), front + [last]);
      assert front + [last] == reqs;
    }
  }

  // ---- What the slot holds, read off the history alone ----

  predicate AcceptedM1(c: Suite, cfg: Config, req: Request)
  {
    cfg.code.Some? && MessageState(req.payload) == Some(1) && AnswerM1(c, cfg, req).Ok?
  }

  predicate Is(cfg: Config, req: Request, state: byte)
  {
    cfg.code.Some? && MessageState(req.payload) == Some(state)
  }

  predicate SlotChanging(c: Suite, cfg: Config, req: Request)
  {
    AcceptedM1(c, cfg, req) || Is(cfg, req, 3) || Is(cfg, req, 5)
  }

  /** The index of the last slot-changing request, or -1. */
  function Last(c: Suite, cfg: Config, reqs: seq<Request>): (i: int)
    ensures -1 <= i < |reqs|
    ensures i >= 0 ==> SlotChanging(c, cfg, reqs[i])
    ensures forall j :: i < j < |reqs| ==> !SlotChanging(c, cfg, reqs[j])
  {
    if reqs == [] then -1
    else if SlotChanging(c, cfg, reqs[|reqs| - 1]) then |reqs| - 1
    else Last(c, cfg, reqs[..|reqs| - 1])
  }

  /** The SRP server of the accepted M1 that is the last slot-changing request, if that is what it is. */
  function PendingServer(c: Suite, cfg: Config, reqs: seq<Request>): Option<Server>
  {
    var i := Last(c, cfg, reqs);
    if i >= 0 && AcceptedM1(c, cfg, reqs[i]) then Some(AnswerM1(c, cfg, reqs[i]).value.1) else None
  }

  /**
   The key an M5 may use: the last two slot-changing requests are an accepted M1 and an M3
   whose proof verifies against that M1's server.
   */
  function PendingKey(c: Suite, cfg: Config, reqs: seq<Request>): Option<bytes>
  {
    var j := Last(c, cfg, reqs);
    if j < 0 || !Is(cfg, reqs[j], 3) then None
    else
      match PendingServer(c, cfg, reqs[..j])
      case None => None
      case Some(sv) =>
        match SetupM3(c, sv, reqs[j].payload)
        case Err(_) => None
        case Ok(r) => r.1
  }

  /** The controller the last request stores, if it is an M5 that may. */
  function Stores(c: Suite, cfg: Config, reqs: seq<Request>): Option<Peer>
    requires reqs != []
  {
    var t := |reqs| - 1;
    if !Is(cfg, reqs[t], 5) then None
    else
      match PendingKey(c, cfg, reqs[..t])
      case None => None
      case Some(key) =>
        match SetupM5(c, key, cfg.me, reqs[t].payload)
        case Err(_) => None
        case Ok(r) => r.1
  }

  function LastStored(c: Suite, cfg: Config, start: Option<Peer>, reqs: seq<Request>): Option<Peer>
  {
    if reqs == [] then start
    else if Stores(c, cfg, reqs).Some? then Stores(c, cfg, reqs)
    else LastStored(c, cfg, start, reqs[..|reqs| - 1])
  }

  /** The slot holds exactly what the history permits. */
  predicate SlotMatches(c: Suite, cfg: Config, slot: Slot, reqs: seq<Request>)
  {
    && PendingServer(c, cfg, reqs) == (if slot.AwaitM3? then Some(slot.server) else None)
    && PendingKey(c, cfg, reqs) == (if slot.AwaitM5? then Some(slot.key) else None)
  }

  function Follows(c: Suite, cfg: Config, start: Option<Peer>): (Accessory, seq<Request>) -> bool
  {
    (acc: Accessory, reqs: seq<Request>) => SlotMatches(c, cfg, acc.slot, reqs) && acc.controller == LastStored(c, cfg, start, reqs)
  }

  /**
   Over every sequence of requests, the slot holds exactly what the history permits, and the
   stored controller is the one of the last M5 backed by an M1 and M3 of the same exchange.
   */
  lemma SlotFollowsHistory(c: Suite, cfg: Config, start: Option<Peer>, reqs: seq<Request>)
    ensures var acc := ServeAll(ResponderOf(c, cfg), Accessory(Empty, start), reqs);
            SlotMatches(c, cfg, acc.slot, reqs) && acc.controller == LastStored(c, cfg, start, reqs)
  {
    forall acc: Accessory, rs: seq<Request>, r: Request | Follows(c, cfg, start)(acc, rs)
      ensures Follows(c, cfg, start)(ResponderOf(c, cfg)(acc, r), rs + [r])
    {
      StepFollows(c, cfg, start, acc, rs, r);
    }
    var none: seq<Request> := [];
    assert SlotMatches(c, cfg, Empty, none) by { assert Last(c, cfg, none) == -1; }
    assert Follows(c, cfg, start)(Accessory(Empty, start), none);
    ServedKeeps(ResponderOf(c, cfg), Accessory(Empty, start), reqs, Follows(c, cfg, start));
  }

  lemma StepFollows(c: Suite, cfg: Config, start: Option<Peer>, acc: Accessory, rs: seq<Request>, r: Request)
    requires SlotMatches(c, cfg, acc.slot, rs) && acc.controller == LastStored(c, cfg, start, rs)
    ensures var next := Serve(c, cfg, acc, r).0;
            SlotMatches(c, cfg, next.slot, rs + [r]) && next.controller == LastStored(c, cfg, start, rs + [r])
  {
    LastStoredStep(c, cfg, start, rs, r);
    if SlotChanging(c, cfg, r) {
      ChangeFollows(c, cfg, acc, rs, r);
    } else {
      NoChangeFollows(c, cfg, acc, rs, r);
    }
  }

  lemma LastStoredStep(c: Suite, cfg: Config, start: Option<Peer>, rs: seq<Request>, r: Request)
    ensures LastStored(c, cfg, start, rs + [r]) ==
            if Stores(c, cfg, rs + [r]).Some? then Stores(c, cfg, rs + [r]) else LastStored(c, cfg, start, rs)
  {
    assert (rs + [r])[..|rs|] == rs;
  }

  lemma ChangeFollows(c: Suite, cfg: Config, acc: Accessory, rs: seq<Request>, r: Request)
    requires SlotMatches(c, cfg, acc.slot, rs) && SlotChanging(c, cfg, r)
    ensures var next := Serve(c, cfg, acc, r).0;
            && SlotMatches(c, cfg, next.slot, rs + [r])
            && next.controller == if Stores(c, cfg, rs + [r]).Some? then Stores(c, cfg, rs + [r]) else acc.controller
  {
    assert (rs + [r])[..|rs|] == rs;
    SlotAfterChange(c, cfg, acc, rs + [r]);
  }

  lemma NoChangeFollows(c: Suite, cfg: Config, acc: Accessory, rs: seq<Request>, r: Request)
    requires SlotMatches(c, cfg, acc.slot, rs) && !SlotChanging(c, cfg, r)
    ensures var next := Serve(c, cfg, acc, r).0;
            && SlotMatches(c, cfg, next.slot, rs + [r])
            && next.controller == if Stores(c, cfg, rs + [r]).Some? then Stores(c, cfg, rs + [r]) else acc.controller
  {
    assert (rs + [r])[..|rs|] == rs;
    SlotAfterNoChange(c, cfg, rs + [r]);
    NoChangeServes(c, cfg, acc, r);
  }

  lemma NoChangeServes(c: Suite, cfg: Config, acc: Accessory, r: Request)
    requires !SlotChanging(c, cfg, r)
    ensures Serve(c, cfg, acc, r).0 == acc
  {
  }

  lemma SlotAfterNoChange(c: Suite, cfg: Config, reqs: seq<Request>)
    requires reqs != [] && !SlotChanging(c, cfg, reqs[|reqs| - 1])
    ensures PendingServer(c, cfg, reqs) == PendingServer(c, cfg, reqs[..|reqs| - 1])
    ensures PendingKey(c, cfg, reqs) == PendingKey(c, cfg, reqs[..|reqs| - 1])
    ensures Stores(c, cfg, reqs) == None
  {
    var prior := reqs[..|reqs| - 1];
    var j := Last(c, cfg, prior);
    assert Last(c, cfg, reqs) == j;
    if j >= 0 {
      assert prior[j] == reqs[j];
      assert prior[..j] == reqs[..j];
    }
  }

  lemma SlotAfterChange(c: Suite, cfg: Config, before: Accessory, reqs: seq<Request>)
    requires reqs != [] && SlotChanging(c, cfg, reqs[|reqs| - 1])
    requires SlotMatches(c, cfg, before.slot, reqs[..|reqs| - 1])
    ensures var acc := Serve(c, cfg, before, reqs[|reqs| - 1]).0;
            && SlotMatches(c, cfg, acc.slot, reqs)
            && acc.controller == if Stores(c, cfg, reqs).Some? then Stores(c, cfg, reqs) else before.controller
  {
    var t := |reqs| - 1;
    assert Last(c, cfg, reqs) == t;
  }

  /** The slot request number `j` meets. */
  function SlotMet(c: Suite, cfg: Config, start: Option<Peer>, reqs: seq<Request>, j: nat): Slot
    requires j <= |reqs|
  {
    ServeAll(ResponderOf(c, cfg), Accessory(Empty, start), reqs[..j]).slot
  }

  ghost predicate NoChangeBetween(c: Suite, cfg: Config, reqs: seq<Request>, i: nat, j: nat)
    requires j <= |reqs|
  {
    forall k :: i < k < j ==> !SlotChanging(c, cfg, reqs[k])
  }

  /** The SRP server request `j` meets is the one the accepted M1 at `i` made, with nothing since. */
  ghost predicate FilledByM1(c: Suite, cfg: Config, start: Option<Peer>, reqs: seq<Request>, i: nat, j: nat)
    requires j <= |reqs|
  {
    && i < j && AcceptedM1(c, cfg, reqs[i]) && NoChangeBetween(c, cfg, reqs, i, j)
    && SlotMet(c, cfg, start, reqs, j) == AwaitM3(AnswerM1(c, cfg, reqs[i]).value.1)
  }

  /** The key request `j` meets is the one the M3 at `i` proved against the server it met, with nothing since. */
  ghost predicate FilledByM3(c: Suite, cfg: Config, start: Option<Peer>, reqs: seq<Request>, i: nat, j: nat)
    requires j <= |reqs|
  {
    && i < j && Is(cfg, reqs[i], 3) && NoChangeBetween(c, cfg, reqs, i, j)
    && SlotMet(c, cfg, start, reqs, i).AwaitM3? && SlotMet(c, cfg, start, reqs, j).AwaitM5?
    && var answer := SetupM3(c, SlotMet(c, cfg, start, reqs, i).server, reqs[i].payload);
       answer.Ok? && answer.value.1 == Some(SlotMet(c, cfg, start, reqs, j).key)
  }

  lemma ServerFilled(c: Suite, cfg: Config, start: Option<Peer>, reqs: seq<Request>, j: nat) returns (i: nat)
    requires j <= |reqs| && SlotMet(c, cfg, start, reqs, j).AwaitM3?
    ensures FilledByM1(c, cfg, start, reqs, i, j)
  {
    SlotFollowsHistory(c, cfg, start, reqs[..j]);
    i := Last(c, cfg, reqs[..j]);
    assert forall k :: i < k < j ==> reqs[..j][k] == reqs[k];
  }

  lemma PendingKeyTraced(c: Suite, cfg: Config, reqs: seq<Request>) returns (i: nat, server: Server)
    requires PendingKey(c, cfg, reqs).Some?
    ensures i < |reqs| && Is(cfg, reqs[i], 3) && NoChangeBetween(c, cfg, reqs, i, |reqs|)
    ensures PendingServer(c, cfg, reqs[..i]) == Some(server)
    ensures var answer := SetupM3(c, server, reqs[i].payload); answer.Ok? && answer.value.1 == PendingKey(c, cfg, reqs)
  {
    i := Last(c, cfg, reqs);
    server := PendingServer(c, cfg, reqs[..i]).value;
  }

  lemma KeyFilled(c: Suite, cfg: Config, start: Option<Peer>, reqs: seq<Request>, j: nat) returns (i: nat)
    requires j <= |reqs| && SlotMet(c, cfg, start, reqs, j).AwaitM5?
    ensures FilledByM3(c, cfg, start, reqs, i, j)
  {
    var server;
    KeyMet(c, cfg, start, reqs, j);
    i, server := PendingKeyFrom(c, cfg, reqs, j);
    ServerMet(c, cfg, start, reqs, i, server);
  }

  lemma {:induction false} PendingKeyFrom(c: Suite, cfg: Config, reqs: seq<Request>, j: nat) returns (i: nat, server: Server)
    requires j <= |reqs| && PendingKey(c, cfg, reqs[..j]).Some?
    ensures i < j && Is(cfg, reqs[i], 3) && NoChangeBetween(c, cfg, reqs, i, j)
    ensures PendingServer(c, cfg, reqs[..i]) == Some(server)
    ensures var answer := SetupM3(c, server, reqs[i].payload); answer.Ok? && answer.value.1 == PendingKey(c, cfg, reqs[..j])
  {
    i, server := PendingKeyTraced(c, cfg, reqs[..j]);
    NoChangeWithin(c, cfg, reqs, i, j);
  }

  lemma {:induction false} NoChangeWithin(c: Suite, cfg: Config, reqs: seq<Request>, i: nat, j: nat)
    requires i < j <= |reqs| && NoChangeBetween(c, cfg, reqs[..j], i, j)
    ensures NoChangeBetween(c, cfg, reqs, i, j) && reqs[..j][..i] == reqs[..i] && reqs[..j][i] == reqs[i]
  {
    forall k | i < k < j ensures !SlotChanging(c, cfg, reqs[k]) { assert reqs[..j][k] == reqs[k]; }
  }

  lemma KeyMet(c: Suite, cfg: Config, start: Option<Peer>, reqs: seq<Request>, j: nat)
    requires j <= |reqs| && SlotMet(c, cfg, start, reqs, j).AwaitM5?
    ensures PendingKey(c, cfg, reqs[..j]) == Some(SlotMet(c, cfg, start, reqs, j).key)
  {
    SlotFollowsHistory(c, cfg, start, reqs[..j]);
  }

  lemma ServerMet(c: Suite, cfg: Config, start: Option<Peer>, reqs: seq<Request>, i: nat, server: Server)
    requires i <= |reqs| && PendingServer(c, cfg, reqs[..i]) == Some(server)
    ensures SlotMet(c, cfg, start, reqs, i) == AwaitM3(server)
  {
    SlotFollowsHistory(c, cfg, start, reqs[..i]);
  }

  /** What fills the slot for `j'` came after `j`, if `j` changed it and they are different messages. */
  lemma FillerIsLater(c: Suite, cfg: Config, reqs: seq<Request>, i': nat, j: nat, j': nat, taker: byte, filler: byte)
    requires j < j' < |reqs| && i' < j' && NoChangeBetween(c, cfg, reqs, i', j') && SlotChanging(c, cfg, reqs[j])
    requires Is(cfg, reqs[j], taker) && Is(cfg, reqs[i'], filler) && taker != filler
    ensures j < i'
  {
  }

  /** Two M3s that find an SRP server find the servers of different M1s: the first uses its own up. */
  lemma ServerConsumedOnce(c: Suite, cfg: Config, start: Option<Peer>, reqs: seq<Request>, j: nat, j': nat) returns (i: nat, i': nat)
    requires j < j' < |reqs| && Is(cfg, reqs[j], 3) && Is(cfg, reqs[j'], 3)
    requires SlotMet(c, cfg, start, reqs, j).AwaitM3? && SlotMet(c, cfg, start, reqs, j').AwaitM3?
    ensures i < j < i' < j' && FilledByM1(c, cfg, start, reqs, i, j) && FilledByM1(c, cfg, start, reqs, i', j')
  {
    i := ServerFilled(c, cfg, start, reqs, j);
    i' := ServerFilled(c, cfg, start, reqs, j');
    FillerIsLater(c, cfg, reqs, i', j, j', 3, 1);
  }

  /** Two M5s that find a key find the keys of different M3s. */
  lemma KeyConsumedOnce(c: Suite, cfg: Config, start: Option<Peer>, reqs: seq<Request>, j: nat, j': nat) returns (i: nat, i': nat)
    requires j < j' < |reqs| && Is(cfg, reqs[j], 5) && Is(cfg, reqs[j'], 5)
    requires SlotMet(c, cfg, start, reqs, j).AwaitM5? && SlotMet(c, cfg, start, reqs, j').AwaitM5?
    ensures i < j < i' < j' && FilledByM3(c, cfg, start, reqs, i, j) && FilledByM3(c, cfg, start, reqs, i', j')
  {
    i := KeyFilled(c, cfg, start, reqs, j);
    i' := KeyFilled(c, cfg, start, reqs, j');
    FillerIsLater(c, cfg, reqs, i', j, j', 5, 3);
  }

  // ---- What a stored controller rests on ----

  /**
   The message's sealed part, opened under the key's encryption key, holds this identity and its signature over
   itself and material derived from the key.
   */
  predicate SignsIdentity(c: Suite, key: bytes, label8: string, message: bytes, who: Peer, material: bytes, sig: bytes)
    requires |label8| == 8
  {
    var sub := SealedPart(c, c.hkdf(key, Ascii("Pair-Setup-Encrypt-Salt"), Ascii("Pair-Setup-Encrypt-Info")), label8, message);
    && sub.Some? && Tlv8.Get(sub.value, 0x01) == Some(who.id) && Tlv8.Get(sub.value, 0x03) == Some(who.ltpk)
    && Tlv8.Get(sub.value, 0x0A) == Some(sig) && c.edVerify(who.ltpk, material + who.id + who.ltpk, sig)
  }

  /** What a controller, and an accessory, signs beside its identity. */
  function ControllerMaterial(c: Suite, key: bytes): bytes
  {
    c.hkdf(key, Ascii("Pair-Setup-Controller-Sign-Salt"), Ascii("Pair-Setup-Controller-Sign-Info"))
  }

  function AccessoryMaterial(c: Suite, key: bytes): bytes
  {
    c.hkdf(key, Ascii("Pair-Setup-Accessory-Sign-Salt"), Ascii("Pair-Setup-Accessory-Sign-Info"))
  }

  /** The message carries a public value and the proof of the key this server shares with it. */
  predicate ProvesToServer(c: Suite, server: Server, message: bytes, key: bytes)
  {
    && ParseTlv(message).Ok?
    && var items := ParseTlv(message).value;
       && Tlv8.Get(items, 0x03).Some?
       && var aPub := FromBe(Tlv8.Get(items, 0x03).value);
          var u := FromBe(c.hash(PadN(server.grp, aPub) + PadN(server.grp, server.bPub)));
          && aPub % server.grp.n != 0 && u != 0
          && key == c.hash(PadN(server.grp, ServerSecret(server.grp, server.v, u, server.b, aPub)))
          && Tlv8.Get(items, 0x04) == Some(ProofM1(c.hash, server.grp, server.username, server.salt, aPub, server.bPub, key))
  }

  lemma AcceptedM3Proves(c: Suite, server: Server, payload: bytes, key: bytes)
    requires SetupM3(c, server, payload).Ok? && SetupM3(c, server, payload).value.1 == Some(key)
    ensures ProvesToServer(c, server, payload, key)
  {
  }

  lemma AcceptedM5Signed(c: Suite, key: bytes, me: Identity, payload: bytes, peer: Peer) returns (sig: bytes)
    requires SetupM5(c, key, me, payload).Ok? && SetupM5(c, key, me, payload).value.1 == Some(peer)
    ensures SignsIdentity(c, key, "PS-Msg05", payload, peer, ControllerMaterial(c, key), sig)
  {
    sig := Tlv8.Get(SealedPart(c, c.hkdf(key, ENCRYPT_SALT, ENCRYPT_INFO), NONCE_M5, payload).value, SIGNATURE).value;
  }

  /** The accessory met the proof of this key at `j`, against the server it made at `i`, with no other change up to `t`. */
  ghost predicate Proved(c: Suite, cfg: Config, reqs: seq<Request>, i: nat, j: nat, t: nat, key: bytes)
    requires t <= |reqs|
  {
    && i < j < t && NoChangeBetween(c, cfg, reqs, i, j) && NoChangeBetween(c, cfg, reqs, j, t)
    && AcceptedM1(c, cfg, reqs[i]) && Is(cfg, reqs[j], 3) && ProvesToServer(c, AnswerM1(c, cfg, reqs[i]).value.1, reqs[j].payload, key)
  }

  lemma PendingServerTraced(c: Suite, cfg: Config, reqs: seq<Request>) returns (i: nat)
    requires PendingServer(c, cfg, reqs).Some?
    ensures i < |reqs| && AcceptedM1(c, cfg, reqs[i]) && NoChangeBetween(c, cfg, reqs, i, |reqs|)
    ensures PendingServer(c, cfg, reqs) == Some(AnswerM1(c, cfg, reqs[i]).value.1)
  {
    i := Last(c, cfg, reqs);
  }

  lemma PendingKeyProved(c: Suite, cfg: Config, reqs: seq<Request>, t: nat) returns (i: nat, j: nat, key: bytes)
    requires t <= |reqs| && PendingKey(c, cfg, reqs[..t]).Some?
    ensures PendingKey(c, cfg, reqs[..t]) == Some(key) && Proved(c, cfg, reqs, i, j, t, key)
  {
    var server;
    j, server := PendingKeyFrom(c, cfg, reqs, t);
    key := PendingKey(c, cfg, reqs[..t]).value;
    i := PendingServerTraced(c, cfg, reqs[..j]);
    assert forall k :: i <= k < j ==> reqs[..j][k] == reqs[k];
    AcceptedM3Proves(c, server, reqs[j].payload, key);
  }

  /**
   Whatever requests an accessory is sent, the controller it stores changes only by an M5 that carries that very
   identity, signed under a key which an M3 proved against the server of an accepted M1, with nothing else between.
   */
  lemma StoredIsBacked(c: Suite, cfg: Config, start: Option<Peer>, reqs: seq<Request>, t: nat)
    returns (i: nat, j: nat, key: bytes, peer: Peer, sig: bytes)
    requires t < |reqs|
    requires ServeAll(ResponderOf(c, cfg), Accessory(Empty, start), reqs[..t + 1]).controller
          != ServeAll(ResponderOf(c, cfg), Accessory(Empty, start), reqs[..t]).controller
    ensures ServeAll(ResponderOf(c, cfg), Accessory(Empty, start), reqs[..t + 1]).controller == Some(peer)
    ensures Proved(c, cfg, reqs, i, j, t, key)
    ensures SignsIdentity(c, key, "PS-Msg05", reqs[t].payload, peer, ControllerMaterial(c, key), sig)
  {
    SlotFollowsHistory(c, cfg, start, reqs[..t]);
    SlotFollowsHistory(c, cfg, start, reqs[..t + 1]);
    assert reqs[..t + 1] == reqs[..t] + [reqs[t]];
    LastStoredStep(c, cfg, start, reqs[..t], reqs[t]);
    assert reqs[..t + 1][..t] == reqs[..t];
    peer := Stores(c, cfg, reqs[..t + 1]).value;
    i, j, key := PendingKeyProved(c, cfg, reqs, t);
    sig := AcceptedM5Signed(c, key, cfg.me, reqs[t].payload, peer);
  }

  // ---- Honest runs ----

  /** How many messages the controller may still send. */
  function Remaining(st: State): nat
  {
    match st
    case AwaitingM2 => 2
    case AwaitingM4(_, _) => 1
    case _ => 0
  }

  lemma SendsDecrease(c: Suite, cl: Controller, st: State, response: bytes)
    ensures var (next, r) := ClientHandle(c, cl, st, response);
            r.Ok? && r.value.Send? ==> Remaining(next) < Remaining(st)
  {
  }

  /** What each end holds when the exchange stops. */
  datatype Outcome = Outcome(learned: Option<Peer>, accessory: Accessory, finalState: State)

  /** The controller's driver loop: send, hand the reply to the state machine, until it finishes or fails. */
  function Exchange(c: Suite, cfg: Config, cl: Controller, st: State, acc: Accessory, req: Request): Outcome
    decreases Remaining(st)
  {
    var served := Serve(c, cfg, acc, req);
    var handled := ClientHandle(c, cl, st, served.2);
    SendsDecrease(c, cl, st, served.2);
    if handled.1.Err? then Outcome(None, served.0, handled.0)
    else if handled.1.value.Established? then Outcome(Some(handled.1.value.peer), served.0, handled.0)
    else Exchange(c, cfg, cl, handled.0, served.0, req.(payload := handled.1.value.message))
  }

  const M1 := Tlv8.EncodeAll(M1_ITEMS)

  lemma ServesM1(c: Suite, cfg: Config, acc: Accessory, req: Request)
    requires cfg.code.Some? && req.payload == M1
    ensures var sv := NewServer(c.hash, cfg.grp, USERNAME, NormalizeSetupCode(cfg.code.value), req.salt, req.b);
            Serve(c, cfg, acc, req) == (acc.(slot := AwaitM3(sv)), Changed, Tlv8.EncodeAll(SetupM2Items(sv)))
  {
    MessageParses(M1_ITEMS);
    LookupState(M1_ITEMS, 1);
    Lookup(M1_ITEMS, METHOD);
    assert M1_ITEMS[1].ty == METHOD;
  }

  lemma M2Reads(sv: Server)
    ensures var items := SetupM2Items(sv);
            && ParseTlv(Tlv8.EncodeAll(items)) == Ok(items) && StateOf(items) == Ok(Some(2))
            && Require(items, SALT) == Ok(sv.salt) && Require(items, PUBLIC_KEY) == Ok(PadN(sv.grp, sv.bPub))
            && Tlv8.Get(items, ERROR) == None
  {
    var items := SetupM2Items(sv);
    MessageParses(items);
    LookupState(items, 2);
    Lookup(items, ERROR);
    Lookup(items, SALT);
    Lookup(items, PUBLIC_KEY);
    assert items[1].ty == SALT && items[2].ty == PUBLIC_KEY;
  }

  lemma HandlesM2(c: Suite, cl: Controller, sv: Server, bPub: nat, key: bytes, m1: bytes)
    requires sv.grp == cl.srp.grp && bPub == FromBe(PadN(sv.grp, sv.bPub))
    requires Premaster(c.hash, cl.srp, sv.salt, cl.password, bPub).Ok?
    requires key == ClientKey(c.hash, cl.srp, Premaster(c.hash, cl.srp, sv.salt, cl.password, bPub).value)
    requires m1 == ClientM1(c.hash, cl.srp, sv.salt, bPub, key)
    ensures ClientHandle(c, cl, AwaitingM2, Tlv8.EncodeAll(SetupM2Items(sv)))
         == (AwaitingM4(key, m1), Ok(Send(Tlv8.EncodeAll(M3Items(cl, m1)))))
  {
    M2Reads(sv);
  }

  lemma RejectsM2(c: Suite, cl: Controller, sv: Server)
    requires sv.grp == cl.srp.grp
    requires Premaster(c.hash, cl.srp, sv.salt, cl.password, FromBe(PadN(sv.grp, sv.bPub))).Err?
    ensures ClientHandle(c, cl, AwaitingM2, Tlv8.EncodeAll(SetupM2Items(sv))).0 == AwaitingM2
    ensures ClientHandle(c, cl, AwaitingM2, Tlv8.EncodeAll(SetupM2Items(sv))).1.Err?
  {
    M2Reads(sv);
  }

  lemma ServesM3(c: Suite, cfg: Config, acc: Accessory, cl: Controller, req: Request, m1: bytes, key: bytes, proof: bytes)
    requires cfg.code.Some? && acc.slot.AwaitM3? && req.payload == Tlv8.EncodeAll(M3Items(cl, m1))
    requires var aPub := FromBe(PadN(cl.srp.grp, cl.srp.aPub));
             ServerKey(c.hash, acc.slot.server, aPub) == Ok(key) && ServerVerify(c.hash, acc.slot.server, aPub, key, m1) == Ok(proof)
    ensures Serve(c, cfg, acc, req) == (acc.(slot := AwaitM5(key)), Changed, Tlv8.EncodeAll(SetupM4Items(proof)))
  {
    M3Reads(PadN(cl.srp.grp, cl.srp.aPub), m1);
  }

  lemma M3Reads(a: bytes, m1: bytes)
    ensures var items := [Tlv8.Item(STATE, [3]), Tlv8.Item(PUBLIC_KEY, a), Tlv8.Item(PROOF, m1)];
            && ParseTlv(Tlv8.EncodeAll(items)) == Ok(items) && MessageState(Tlv8.EncodeAll(items)) == Some(3)
            && AccessoryExpects(items, 3).Ok? && Require(items, PUBLIC_KEY) == Ok(a) && Require(items, PROOF) == Ok(m1)
  {
    var items := [Tlv8.Item(STATE, [3]), Tlv8.Item(PUBLIC_KEY, a), Tlv8.Item(PROOF, m1)];
    MessageParses(items);
    LookupState(items, 3);
    Lookup(items, PUBLIC_KEY);
    Lookup(items, PROOF);
    assert items[1].ty == PUBLIC_KEY && items[2].ty == PROOF;
  }

  function M5Sealed(c: Suite, cl: Controller, key: bytes): bytes
  {
    var x := c.hkdf(key, CONTROLLER_SIGN_SALT, CONTROLLER_SIGN_INFO);
    SealTlv(c, c.hkdf(key, ENCRYPT_SALT, ENCRYPT_INFO), NONCE_M5, SignedIdentity(c, x, cl.me))
  }

  lemma HandlesM4(c: Suite, cl: Controller, m1: bytes, key: bytes, proof: bytes)
    requires ClientAccepts(c.hash, cl.srp, m1, key, proof)
    ensures ClientHandle(c, cl, AwaitingM4(key, m1), Tlv8.EncodeAll(SetupM4Items(proof)))
         == (AwaitingM6(key), Ok(Send(Tlv8.EncodeAll(SealedItems(5, M5Sealed(c, cl, key))))))
  {
    var items := SetupM4Items(proof);
    MessageParses(items);
    LookupState(items, 4);
    Lookup(items, ERROR);
    Lookup(items, PROOF);
    assert items[1].ty == PROOF;
  }

  /** A signed identity reads back as itself, and its signature verifies. */
  lemma IdentityReads(c: Suite, x: bytes, who: Identity)
    requires SignLaw(c)
    ensures var sub := SignedIdentity(c, x, who);
            && ParseTlv(Tlv8.EncodeAll(sub)) == Ok(sub)
            && Require(sub, IDENTIFIER) == Ok(who.id)
            && RequireWidth(sub, PUBLIC_KEY, 32) == Ok(Ltpk(c, who))
            && RequireWidth(sub, SIGNATURE, 64) == Ok(c.edSign(who.seed, x + who.id + Ltpk(c, who)))
            && c.edVerify(Ltpk(c, who), x + who.id + Ltpk(c, who), c.edSign(who.seed, x + who.id + Ltpk(c, who)))
  {
    var sub := SignedIdentity(c, x, who);
    MessageParses(sub);
    Lookup(sub, IDENTIFIER);
    Lookup(sub, PUBLIC_KEY);
    Lookup(sub, SIGNATURE);
    assert sub[0].ty == IDENTIFIER && sub[1].ty == PUBLIC_KEY && sub[2].ty == SIGNATURE;
  }

  function M6Sealed(c: Suite, me: Identity, key: bytes): bytes
  {
    var x := c.hkdf(key, ACCESSORY_SIGN_SALT, ACCESSORY_SIGN_INFO);
    SealTlv(c, c.hkdf(key, ENCRYPT_SALT, ENCRYPT_INFO), NONCE_M6, SignedIdentity(c, x, me))
  }

  lemma SealedReads(state: byte, sealed: bytes)
    ensures var items := SealedItems(state, sealed);
            && ParseTlv(Tlv8.EncodeAll(items)) == Ok(items) && StateOf(items) == Ok(Some(state))
            && Require(items, ENCRYPTED_DATA) == Ok(sealed) && Tlv8.Get(items, ERROR) == None
  {
    var items := SealedItems(state, sealed);
    MessageParses(items);
    LookupState(items, state);
    Lookup(items, ERROR);
    Lookup(items, ENCRYPTED_DATA);
    assert items[1].ty == ENCRYPTED_DATA;
  }

  lemma ServesM5(c: Suite, cfg: Config, acc: Accessory, cl: Controller, req: Request)
    requires SealLaw(c) && SignLaw(c) && c.utf8(cl.me.id)
    requires cfg.code.Some? && acc.slot.AwaitM5?
    requires req.payload == Tlv8.EncodeAll(SealedItems(5, M5Sealed(c, cl, acc.slot.key)))
    ensures Serve(c, cfg, acc, req)
         == (Accessory(Empty, Some(Peer(cl.me.id, Ltpk(c, cl.me)))), Changed,
             Tlv8.EncodeAll(SealedItems(6, M6Sealed(c, cfg.me, acc.slot.key))))
  {
    var key := acc.slot.key;
    var x := c.hkdf(key, CONTROLLER_SIGN_SALT, CONTROLLER_SIGN_INFO);
    SealedReads(5, M5Sealed(c, cl, key));
    SealedMessageOpens(c, c.hkdf(key, ENCRYPT_SALT, ENCRYPT_INFO), NONCE_M5, SignedIdentity(c, x, cl.me));
    IdentityReads(c, x, cl.me);
  }

  lemma HandlesM6(c: Suite, cl: Controller, me: Identity, key: bytes)
    requires SealLaw(c) && SignLaw(c) && c.utf8(me.id)
    ensures ClientHandle(c, cl, AwaitingM6(key), Tlv8.EncodeAll(SealedItems(6, M6Sealed(c, me, key))))
         == (Done, Ok(Established(Peer(me.id, Ltpk(c, me)))))
  {
    var x := c.hkdf(key, ACCESSORY_SIGN_SALT, ACCESSORY_SIGN_INFO);
    SealedReads(6, M6Sealed(c, me, key));
    SealedMessageOpens(c, c.hkdf(key, ENCRYPT_SALT, ENCRYPT_INFO), NONCE_M6, SignedIdentity(c, x, me));
    IdentityReads(c, x, me);
  }

  /** The two ends share a setup code, up to normalization, and hold well-formed ids. */
  ghost predicate Honest(c: Suite, cfg: Config, cl: Controller, code: bytes, a: nat)
  {
    && cfg.code.Some? && NormalizeSetupCode(code) == NormalizeSetupCode(cfg.code.value)
    && NewSetupClient(cfg.grp, code, cl.me, a) == Ok(cl)
    && c.utf8(cl.me.id) && c.utf8(cfg.me.id)
  }

  /** The SRP abort condition of one exchange: `B` or the scrambler is zero. */
  predicate SrpAborts(c: Suite, cl: Controller, sv: Server)
  {
    sv.bPub == 0 || ComputeU(c.hash, cl.srp.grp, cl.srp.aPub, sv.bPub) == 0
  }

  /**
   Every honest run completes unless SRP aborts: the controller learns exactly the accessory's id
   and key and the accessory stores exactly the controller's. An aborting run changes neither.
   */
  lemma HonestRun(c: Suite, cfg: Config, cl: Controller, code: bytes, a: nat, acc: Accessory, req: Request)
    requires Laws(c) && Honest(c, cfg, cl, code, a) && req.payload == M1
    ensures var sv := NewServer(c.hash, cfg.grp, USERNAME, NormalizeSetupCode(code), req.salt, req.b);
            Exchange(c, cfg, cl, AwaitingM2, acc, req) ==
              if SrpAborts(c, cl, sv) then Outcome(None, Accessory(AwaitM3(sv), acc.controller), AwaitingM2)
              else Outcome(Some(Peer(cfg.me.id, Ltpk(c, cfg.me))), Accessory(Empty, Some(Peer(cl.me.id, Ltpk(c, cl.me)))), Done)
  {
    var sv := NewServer(c.hash, cfg.grp, USERNAME, NormalizeSetupCode(code), req.salt, req.b);
    ServesM1(c, cfg, acc, req);
    Srp.Agreement(c.hash, cl.srp, sv, USERNAME, cl.password, req.salt, a, req.b);
    if SrpAborts(c, cl, sv) {
      RejectsM2(c, cl, sv);
    } else {
      FinishRun(c, cfg, cl, acc.(slot := AwaitM3(sv)), req, sv);
    }
  }

  /** From an answered M1 with no SRP abort to the end of the run. */
  lemma FinishRun(c: Suite, cfg: Config, cl: Controller, acc: Accessory, req: Request, sv: Server)
    requires Laws(c) && cfg.code.Some? && c.utf8(cl.me.id) && c.utf8(cfg.me.id)
    requires acc.slot == AwaitM3(sv) && sv.grp == cl.srp.grp
    requires var bPub := FromBe(PadN(sv.grp, sv.bPub));
             var aPub := FromBe(PadN(sv.grp, cl.srp.aPub));
             var secret := Premaster(c.hash, cl.srp, sv.salt, cl.password, bPub);
             && secret.Ok?
             && var key := ClientKey(c.hash, cl.srp, secret.value);
                var m1 := ClientM1(c.hash, cl.srp, sv.salt, bPub, key);
                var m2 := ServerVerify(c.hash, sv, aPub, key, m1);
                ServerKey(c.hash, sv, aPub) == Ok(key) && m2.Ok? && ClientAccepts(c.hash, cl.srp, m1, key, m2.value)
    ensures var handled := ClientHandle(c, cl, AwaitingM2, Tlv8.EncodeAll(SetupM2Items(sv)));
            && handled.1.Ok? && handled.1.value.Send?
            && Exchange(c, cfg, cl, handled.0, acc, req.(payload := handled.1.value.message))
            == Outcome(Some(Peer(cfg.me.id, Ltpk(c, cfg.me))), Accessory(Empty, Some(Peer(cl.me.id, Ltpk(c, cl.me)))), Done)
  {
    var bPub := FromBe(PadN(sv.grp, sv.bPub));
    var key := ClientKey(c.hash, cl.srp, Premaster(c.hash, cl.srp, sv.salt, cl.password, bPub).value);
    var m1 := ClientM1(c.hash, cl.srp, sv.salt, bPub, key);
    var proof := ServerVerify(c.hash, sv, FromBe(PadN(sv.grp, cl.srp.aPub)), key, m1).value;
    HandlesM2(c, cl, sv, bPub, key, m1);
    ServesM3(c, cfg, acc, cl, req.(payload := Tlv8.EncodeAll(M3Items(cl, m1))), m1, key, proof);
    HandlesM4(c, cl, m1, key, proof);
    var acc4 := acc.(slot := AwaitM5(key));
    var req5 := req.(payload := Tlv8.EncodeAll(SealedItems(5, M5Sealed(c, cl, key))));
    ServesM5(c, cfg, acc4, cl, req5);
    HandlesM6(c, cl, cfg.me, key);
    LastRound(c, cfg, cl, key, acc4, req5);
  }

  lemma LastRound(c: Suite, cfg: Config, cl: Controller, key: bytes, acc: Accessory, req: Request)
    requires var served := Serve(c, cfg, acc, req);
             var handled := ClientHandle(c, cl, AwaitingM6(key), served.2);
             handled.1.Ok? && handled.1.value.Established?
    ensures var served := Serve(c, cfg, acc, req);
            var handled := ClientHandle(c, cl, AwaitingM6(key), served.2);
            Exchange(c, cfg, cl, AwaitingM6(key), acc, req) == Outcome(Some(handled.1.value.peer), served.0, handled.0)
  {
  }

  // ---- Refusals ----

  lemma {:induction false} RefusalBytes(state: byte)
    ensures ErrorReply(state) == [0x06, 1, state, 0x07, 1, 2]
  {
    RefusalParses(state);
  }

  /** A controller fails on it, as for a wrong setup code, and stays where it is. */
  lemma RefusalFails(c: Suite, cl: Controller, st: State, state: byte)
    ensures ClientHandle(c, cl, st, [0x06, 1, state, 0x07, 1, 2]) == (st, Err(SrpError(ProofMismatch)))
  {
    RefusalParses(state);
  }

  /** An M3 has a public value and a proof to look at. */
  predicate WellFormedM3(message: bytes)
  {
    && ParseTlv(message).Ok?
    && var items := ParseTlv(message).value;
       Tlv8.Get(items, 0x06) == Some([3]) && Tlv8.Get(items, 0x03).Some? && Tlv8.Get(items, 0x04).Some?
  }

  /** Exactly which messages are looked at, and answered in band. */
  lemma {:induction false} M3WellFormedExactly(c: Suite, server: Server, payload: bytes)
    ensures SetupM3(c, server, payload).Ok? <==> WellFormedM3(payload)
  {
    if ParseTlv(payload).Ok? { StateExactly(ParseTlv(payload).value, 3); }
  }

  /** A proof that verifies is answered with the proof over it. */
  lemma {:induction false} M3ProofAnswered(c: Suite, server: Server, payload: bytes, key: bytes)
    requires WellFormedM3(payload) && ProvesToServer(c, server, payload, key)
    ensures var items := ParseTlv(payload).value;
            var aPub, m1 := FromBe(Tlv8.Get(items, 0x03).value), Tlv8.Get(items, 0x04).value;
            SetupM3(c, server, payload) ==
            Ok((Tlv8.EncodeAll([Tlv8.Item(0x06, [4]), Tlv8.Item(0x04, c.hash(PadN(server.grp, aPub) + m1 + key))]), Some(key)))
  {
  }

  /** One that does not is answered with exactly State 4 and Error 2, and no key. */
  lemma {:induction false} M3Refused(c: Suite, server: Server, payload: bytes)
    requires WellFormedM3(payload) && forall key: bytes :: !ProvesToServer(c, server, payload, key)
    ensures SetupM3(c, server, payload) == Ok(([0x06, 1, 4, 0x07, 1, 2], None))
  {
    RefusalBytes(4);
    var key := SetupM3(c, server, payload).value.1;
    if key.Some? { AcceptedM3Proves(c, server, payload, key.value); }
  }

  // ---- Any two setup codes ----

  /** The input of the client's proof but for the key. */
  function ProofFront(c: Suite, grp: Group, salt: bytes, aPub: nat, bPub: nat): bytes
  {
    XorBytes(c.hash(ToBe(grp.n)), c.hash(ToBe(grp.g))) + c.hash(USERNAME) + salt + PadN(grp, aPub) + PadN(grp, bPub)
  }

  /** The hash tells apart the two keys, and the two proofs, of a run whose ends hold these premaster secrets. */
  predicate RunApart(c: Suite, grp: Group, front: bytes, mine: nat, theirs: nat)
  {
    && Apart(c.hash, PadN(grp, mine), PadN(grp, theirs))
    && Apart(c.hash, front + c.hash(PadN(grp, mine)), front + c.hash(PadN(grp, theirs)))
  }

  /** The accessory refuses the proof of another key. */
  lemma RefusesM3(c: Suite, cfg: Config, acc: Accessory, cl: Controller, req: Request, m1: bytes, theirs: bytes)
    requires cfg.code.Some? && acc.slot.AwaitM3? && req.payload == Tlv8.EncodeAll(M3Items(cl, m1))
    requires var aPub := FromBe(PadN(cl.srp.grp, cl.srp.aPub));
             ServerKey(c.hash, acc.slot.server, aPub) == Ok(theirs) && ServerVerify(c.hash, acc.slot.server, aPub, theirs, m1).Err?
    ensures Serve(c, cfg, acc, req) == (acc.(slot := Empty), Changed, [0x06, 1, 4, 0x07, 1, 2])
  {
    M3Reads(PadN(cl.srp.grp, cl.srp.aPub), m1);
    RefusalBytes(4);
    assert SetupM3(c, acc.slot.server, req.payload) == Ok((ErrorReply(4), None));
  }

  /** Where a run ends that the accessory refuses at M3. */
  function Refused(acc: Accessory, key: bytes, m1: bytes): Outcome
  {
    Outcome(None, acc.(slot := Empty), AwaitingM4(key, m1))
  }

  /** From an answered M1 to the end of a run whose ends hold different premaster secrets. */
  lemma RefusedRun(c: Suite, cfg: Config, cl: Controller, acc: Accessory, req: Request, sv: Server, mine: nat, theirs: nat)
    requires cfg.code.Some? && acc.slot == AwaitM3(sv) && sv.grp == cl.srp.grp && sv.username == cl.srp.username == USERNAME
    requires Premaster(c.hash, cl.srp, sv.salt, cl.password, FromBe(PadN(sv.grp, sv.bPub))) == Ok(mine) && mine != theirs
    requires ServerKey(c.hash, sv, FromBe(PadN(sv.grp, cl.srp.aPub))) == Ok(c.hash(PadN(sv.grp, theirs)))
    requires RunApart(c, sv.grp, ProofFront(c, sv.grp, sv.salt, cl.srp.aPub, sv.bPub), mine, theirs)
    ensures var key := c.hash(PadN(sv.grp, mine));
            var m1 := ClientM1(c.hash, cl.srp, sv.salt, sv.bPub, key);
            var handled := ClientHandle(c, cl, AwaitingM2, Tlv8.EncodeAll(SetupM2Items(sv)));
            && handled == (AwaitingM4(key, m1), Ok(Send(Tlv8.EncodeAll(M3Items(cl, m1)))))
            && Serve(c, cfg, acc, req.(payload := Tlv8.EncodeAll(M3Items(cl, m1)))) == (acc.(slot := Empty), Changed, [0x06, 1, 4, 0x07, 1, 2])
            && Exchange(c, cfg, cl, AwaitingM4(key, m1), acc, req.(payload := Tlv8.EncodeAll(M3Items(cl, m1)))) == Refused(acc, key, m1)
  {
    PadRoundTrip(sv.bPub, NLen(sv.grp));
    PadRoundTrip(cl.srp.aPub, NLen(sv.grp));
    var key, other := c.hash(PadN(sv.grp, mine)), c.hash(PadN(sv.grp, theirs));
    var m1 := ClientM1(c.hash, cl.srp, sv.salt, sv.bPub, key);
    ProofsDiffer(c, sv, cl.srp.aPub, mine, theirs);
    HandlesM2(c, cl, sv, sv.bPub, key, m1);
    RefusesM3(c, cfg, acc, cl, req.(payload := Tlv8.EncodeAll(M3Items(cl, m1))), m1, other);
    RefusalFails(c, cl, AwaitingM4(key, m1), 4);
  }

  lemma ProofsDiffer(c: Suite, sv: Server, aPub: nat, mine: nat, theirs: nat)
    requires sv.username == USERNAME && mine != theirs && RunApart(c, sv.grp, ProofFront(c, sv.grp, sv.salt, aPub, sv.bPub), mine, theirs)
    ensures ProofM1(c.hash, sv.grp, sv.username, sv.salt, aPub, sv.bPub, c.hash(PadN(sv.grp, mine)))
         != ProofM1(c.hash, sv.grp, sv.username, sv.salt, aPub, sv.bPub, c.hash(PadN(sv.grp, theirs)))
  {
    PadsDiffer(mine, theirs, NLen(sv.grp));
    SuffixesDiffer(ProofFront(c, sv.grp, sv.salt, aPub, sv.bPub), c.hash(PadN(sv.grp, mine)), c.hash(PadN(sv.grp, theirs)));
  }

  /** The server an accepted M1 makes. */
  function ServerOf(c: Suite, cfg: Config, req: Request): Server
    requires cfg.code.Some?
  {
    NewServer(c.hash, cfg.grp, USERNAME, NormalizeSetupCode(cfg.code.value), req.salt, req.b)
  }

  /** The ends of a run that does not abort hold these premaster secrets, and the hash tells apart what they make of them. */
  predicate Secrets(c: Suite, cl: Controller, sv: Server, mine: nat, theirs: nat)
  {
    && Premaster(c.hash, cl.srp, sv.salt, cl.password, sv.bPub) == Ok(mine)
    && theirs == ServerSecret(sv.grp, sv.v, ComputeU(c.hash, sv.grp, cl.srp.aPub, sv.bPub), sv.b, cl.srp.aPub)
    && RunApart(c, sv.grp, ProofFront(c, sv.grp, sv.salt, cl.srp.aPub, sv.bPub), mine, theirs)
  }

  lemma {:induction false} ServerHolds(c: Suite, cfg: Config, cl: Controller, code: bytes, a: nat, sv: Server)
    requires NewSetupClient(cfg.grp, code, cl.me, a) == Ok(cl) && sv.grp == cfg.grp && !SrpAborts(c, cl, sv)
    ensures var u := ComputeU(c.hash, sv.grp, cl.srp.aPub, sv.bPub);
            ServerKey(c.hash, sv, FromBe(PadN(sv.grp, cl.srp.aPub))) ==
            Ok(c.hash(PadN(sv.grp, ServerSecret(sv.grp, sv.v, u, sv.b, cl.srp.aPub))))
    ensures FromBe(PadN(sv.grp, sv.bPub)) == sv.bPub && FromBe(PadN(sv.grp, cl.srp.aPub)) == cl.srp.aPub
  {
    PadRoundTrip(sv.bPub, NLen(sv.grp));
    PadRoundTrip(cl.srp.aPub, NLen(sv.grp));
  }

  /** The accessory's half of a run, from an M1 already answered. */
  lemma {:induction false} SecretsDecide(c: Suite, cfg: Config, cl: Controller, code: bytes, a: nat, acc: Accessory, req: Request, sv: Server, mine: nat, theirs: nat)
    requires Laws(c) && cfg.code.Some? && NewSetupClient(cfg.grp, code, cl.me, a) == Ok(cl) && c.utf8(cl.me.id) && c.utf8(cfg.me.id)
    requires sv == ServerOf(c, cfg, req) && acc.slot == AwaitM3(sv) && !SrpAborts(c, cl, sv) && Secrets(c, cl, sv, mine, theirs)
    ensures var handled := ClientHandle(c, cl, AwaitingM2, Tlv8.EncodeAll(SetupM2Items(sv)));
            && handled.1.Ok? && handled.1.value.Send?
            && Exchange(c, cfg, cl, handled.0, acc, req.(payload := handled.1.value.message)) == Settled(c, cfg, cl, acc, sv, mine, theirs)
  {
    ServerHolds(c, cfg, cl, code, a, sv);
    if mine == theirs {
      FinishRun(c, cfg, cl, acc, req, sv);
    } else {
      RefusedRun(c, cfg, cl, acc, req, sv, mine, theirs);
    }
  }

  /** Both ends paired, or the refusal of M3 and nothing stored. */
  function Settled(c: Suite, cfg: Config, cl: Controller, acc: Accessory, sv: Server, mine: nat, theirs: nat): Outcome
  {
    var key := c.hash(PadN(sv.grp, mine));
    if mine == theirs then Outcome(Some(Peer(cfg.me.id, Ltpk(c, cfg.me))), Accessory(Empty, Some(Peer(cl.me.id, Ltpk(c, cl.me)))), Done)
    else Outcome(None, Accessory(Empty, acc.controller), AwaitingM4(key, ClientM1(c.hash, cl.srp, sv.salt, sv.bPub, key)))
  }

  /**
   A run between any two setup codes, if the hash tells its two keys and two proofs apart: unless SRP aborts, it pairs
   both ends if the premaster secrets agree, and otherwise M3 is refused, the slot is empty and neither end has stored
   a peer.
   */
  lemma {:induction false} RunExactly(c: Suite, cfg: Config, cl: Controller, code: bytes, a: nat, acc: Accessory, req: Request, mine: nat, theirs: nat)
    requires Laws(c) && cfg.code.Some? && NewSetupClient(cfg.grp, code, cl.me, a) == Ok(cl)
    requires c.utf8(cl.me.id) && c.utf8(cfg.me.id) && req.payload == M1
    requires SrpAborts(c, cl, ServerOf(c, cfg, req)) || Secrets(c, cl, ServerOf(c, cfg, req), mine, theirs)
    ensures Exchange(c, cfg, cl, AwaitingM2, acc, req) ==
              if SrpAborts(c, cl, ServerOf(c, cfg, req)) then Outcome(None, Accessory(AwaitM3(ServerOf(c, cfg, req)), acc.controller), AwaitingM2)
              else Settled(c, cfg, cl, acc, ServerOf(c, cfg, req), mine, theirs)
  {
    var sv := ServerOf(c, cfg, req);
    ServesM1(c, cfg, acc, req);
    if SrpAborts(c, cl, sv) {
      AbortRejects(c, cl, sv);
    } else {
      SecretsDecide(c, cfg, cl, code, a, acc.(slot := AwaitM3(sv)), req, sv, mine, theirs);
    }
  }

  lemma {:induction false} AbortRejects(c: Suite, cl: Controller, sv: Server)
    requires sv.grp == cl.srp.grp && SrpAborts(c, cl, sv)
    ensures ClientHandle(c, cl, AwaitingM2, Tlv8.EncodeAll(SetupM2Items(sv))).0 == AwaitingM2
    ensures ClientHandle(c, cl, AwaitingM2, Tlv8.EncodeAll(SetupM2Items(sv))).1.Err?
  {
    PadRoundTrip(sv.bPub, NLen(sv.grp));
    if sv.bPub == 0 { assert sv.bPub % sv.grp.n == 0; }
    RejectsM2(c, cl, sv);
  }

  /** The hash tells apart the inputs that carry the two codes, and what it gives for the last ones is of one length. */
  predicate CodesApart(c: Suite, salt: bytes, mine: bytes, theirs: bytes)
  {
    var inner, inner' := Ascii("Pair-Setup") + [0x3A] + mine, Ascii("Pair-Setup") + [0x3A] + theirs;
    && Apart(c.hash, inner, inner') && Apart(c.hash, salt + c.hash(inner), salt + c.hash(inner'))
    && |c.hash(salt + c.hash(inner))| == |c.hash(salt + c.hash(inner'))|
  }

  /**
   A controller with a wrong setup code: if the hash does not collide on the inputs of the run, the two ends have
   different `x`; and if the premaster secrets then differ, its M3 is answered State 4 and Error 2, on which it fails,
   the slot is empty and neither end has stored a peer.
   */
  lemma {:induction false} WrongCode(c: Suite, cfg: Config, cl: Controller, code: bytes, a: nat, acc: Accessory, req: Request, mine: nat, theirs: nat)
    returns (m3: bytes)
    requires Laws(c) && cfg.code.Some? && NewSetupClient(cfg.grp, code, cl.me, a) == Ok(cl)
    requires c.utf8(cl.me.id) && c.utf8(cfg.me.id) && req.payload == M1
    requires NormalizeSetupCode(code) != NormalizeSetupCode(cfg.code.value)
    requires CodesApart(c, req.salt, NormalizeSetupCode(code), NormalizeSetupCode(cfg.code.value))
    requires !SrpAborts(c, cl, ServerOf(c, cfg, req)) && Secrets(c, cl, ServerOf(c, cfg, req), mine, theirs)
    ensures FromBe(c.hash(req.salt + c.hash(Ascii("Pair-Setup") + [0x3A] + NormalizeSetupCode(code))))
         != FromBe(c.hash(req.salt + c.hash(Ascii("Pair-Setup") + [0x3A] + NormalizeSetupCode(cfg.code.value))))
    ensures mine != theirs ==>
              var acc3 := acc.(slot := AwaitM3(ServerOf(c, cfg, req)));
              && Serve(c, cfg, acc3, req.(payload := m3)) == (acc.(slot := Empty), Changed, [0x06, 1, 4, 0x07, 1, 2])
              && Exchange(c, cfg, cl, AwaitingM2, acc, req).learned == None
              && Exchange(c, cfg, cl, AwaitingM2, acc, req).accessory == acc.(slot := Empty)
  {
    PasswordsApart(c.hash, req.salt, USERNAME, NormalizeSetupCode(code), NormalizeSetupCode(cfg.code.value));
    RunExactly(c, cfg, cl, code, a, acc, req, mine, theirs);
    var sv := ServerOf(c, cfg, req);
    ServerHolds(c, cfg, cl, code, a, sv);
    m3 := Tlv8.EncodeAll(M3Items(cl, ClientM1(c.hash, cl.srp, sv.salt, sv.bPub, c.hash(PadN(sv.grp, mine)))));
    if mine != theirs { RefusedRun(c, cfg, cl, acc.(slot := AwaitM3(sv)), req, sv, mine, theirs); }
  }

  // ---- The controller against any peer ----

  datatype Input = Start | Response(body: bytes)

  /** The state after a sequence of calls, for any way of handling a response. */
  function RunInputs(handle: (State, bytes) -> State, inputs: seq<Input>): State
  {
    if inputs == [] then Initial
    else
      var st := RunInputs(handle, inputs[..|inputs| - 1]);
      match inputs[|inputs| - 1]
      case Start => AwaitingM2
      case Response(body) => handle(st, body)
  }

  /** A controller comes to await M4 only from awaiting M2, and M6 only on a proof of the key it holds. */
  ghost predicate Orderly(handle: (State, bytes) -> State, proves: (bytes, bytes, bytes) -> bool)
  {
    forall st: State, body: bytes ::
      var next := handle(st, body);
      && (next.AwaitingM4? ==> next == st || st == AwaitingM2)
      && (next.AwaitingM6? ==> next == st || (st.AwaitingM4? && st.key == next.key && proves(body, st.key, st.m1)))
  }

  ghost predicate NoStartAfter(inputs: seq<Input>, i: nat)
  {
    forall k :: i < k < |inputs| ==> inputs[k] != Start
  }

  lemma {:induction false} AwaitingM4Traced(handle: (State, bytes) -> State, proves: (bytes, bytes, bytes) -> bool, inputs: seq<Input>) returns (i: nat)
    requires Orderly(handle, proves) && RunInputs(handle, inputs).AwaitingM4?
    ensures i < |inputs| && NoStartAfter(inputs, i)
    ensures inputs[i].Response? && handle(AwaitingM2, inputs[i].body) == RunInputs(handle, inputs)
    decreases |inputs|
  {
    var t := |inputs| - 1;
    var prior := RunInputs(handle, inputs[..t]);
    if prior == AwaitingM2 {
      i := t;
    } else {
      i := AwaitingM4Traced(handle, proves, inputs[..t]);
      assert forall k :: i < k < t ==> inputs[..t][k] == inputs[k];
    }
  }

  lemma {:induction false} AwaitingM6Traced(handle: (State, bytes) -> State, proves: (bytes, bytes, bytes) -> bool, inputs: seq<Input>)
    returns (i: nat, j: nat, m1: bytes)
    requires Orderly(handle, proves) && RunInputs(handle, inputs).AwaitingM6?
    ensures i < j < |inputs| && NoStartAfter(inputs, i) && inputs[i].Response? && inputs[j].Response?
    ensures var key := RunInputs(handle, inputs).key;
            handle(AwaitingM2, inputs[i].body) == AwaitingM4(key, m1) && proves(inputs[j].body, key, m1)
    decreases |inputs|
  {
    var t := |inputs| - 1;
    var prior := RunInputs(handle, inputs[..t]);
    if prior.AwaitingM6? {
      i, j, m1 := AwaitingM6Traced(handle, proves, inputs[..t]);
    } else {
      i := AwaitingM4Traced(handle, proves, inputs[..t]);
      j, m1 := t, prior.m1;
    }
    assert forall k :: i < k < t ==> inputs[..t][k] == inputs[k];
  }

  function Handler(c: Suite, cl: Controller): (State, bytes) -> State
  {
    (st: State, body: bytes) => ClientHandle(c, cl, st, body).0
  }

  /** The reply carries the accessory's proof of `key` in answer to `m1`. */
  predicate ProvesKey(c: Suite, cl: Controller, body: bytes, key: bytes, m1: bytes)
  {
    var items := ParseTlv(body);
    items.Ok? && Tlv8.Get(items.value, 0x04) == Some(c.hash(PadN(cl.srp.grp, cl.srp.aPub) + m1 + key))
  }

  function Prover(c: Suite, cl: Controller): (bytes, bytes, bytes) -> bool
  {
    (body: bytes, key: bytes, m1: bytes) => ProvesKey(c, cl, body, key, m1)
  }

  lemma Arrivals(c: Suite, cl: Controller, st: State, body: bytes)
    ensures var next := ClientHandle(c, cl, st, body).0;
            && (next.AwaitingM4? ==> next == st || st == AwaitingM2)
            && (next.AwaitingM6? ==> next == st || (st.AwaitingM4? && st.key == next.key && ProvesKey(c, cl, body, st.key, st.m1)))
  {
  }

  lemma ControllerIsOrderly(c: Suite, cl: Controller)
    ensures Orderly(Handler(c, cl), Prover(c, cl))
  {
    forall st: State, body: bytes
      ensures var next := Handler(c, cl)(st, body);
              && (next.AwaitingM4? ==> next == st || st == AwaitingM2)
              && (next.AwaitingM6? ==> next == st || (st.AwaitingM4? && st.key == next.key && Prover(c, cl)(body, st.key, st.m1)))
    {
      Arrivals(c, cl, st, body);
    }
  }

  lemma EstablishedByM6(c: Suite, cl: Controller, st: State, body: bytes, peer: Peer)
    requires ClientHandle(c, cl, st, body).1 == Ok(Established(peer))
    ensures st.AwaitingM6? && ParseTlv(body).Ok? && HandleM6(c, st.key, ParseTlv(body).value) == Ok(peer)
  {
  }

  /** An accepted M6 carries the identity it reports, signed under material derived from the key. */
  lemma AcceptedM6Signed(c: Suite, key: bytes, body: bytes, peer: Peer) returns (sig: bytes)
    requires ParseTlv(body).Ok? && HandleM6(c, key, ParseTlv(body).value) == Ok(peer)
    ensures SignsIdentity(c, key, "PS-Msg06", body, peer, AccessoryMaterial(c, key), sig)
  {
    sig := Tlv8.Get(SealedPart(c, c.hkdf(key, ENCRYPT_SALT, ENCRYPT_INFO), NONCE_M6, body).value, SIGNATURE).value;
  }

  /**
   Whatever replies a controller is fed, it reports a pairing only after an M2 fixed a session key,
   a later reply proved that same key, and the last one carried the reported identity, sealed under
   that key and signed under material derived from it, with no restart in between.
   */
  lemma EstablishedIsBacked(c: Suite, cl: Controller, inputs: seq<Input>, body: bytes, peer: Peer)
    returns (i: nat, j: nat, key: bytes, m1: bytes, sig: bytes)
    requires ClientHandle(c, cl, RunInputs(Handler(c, cl), inputs), body).1 == Ok(Established(peer))
    ensures i < j < |inputs| && NoStartAfter(inputs, i) && inputs[i].Response? && inputs[j].Response?
    ensures ClientHandle(c, cl, AwaitingM2, inputs[i].body).0 == AwaitingM4(key, m1)
    ensures ProvesKey(c, cl, inputs[j].body, key, m1)
    ensures SignsIdentity(c, key, "PS-Msg06", body, peer, AccessoryMaterial(c, key), sig)
  {
    var st := RunInputs(Handler(c, cl), inputs);
    EstablishedByM6(c, cl, st, body, peer);
    sig := AcceptedM6Signed(c, st.key, body, peer);
    ControllerIsOrderly(c, cl);
    key := st.key;
    i, j, m1 := AwaitingM6Traced(Handler(c, cl), Prover(c, cl), inputs);
    assert Handler(c, cl)(AwaitingM2, inputs[i].body) == AwaitingM4(key, m1);
  }
}
