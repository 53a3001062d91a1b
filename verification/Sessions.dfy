/** The record layer after Pair Verify: sealed frames numbered per direction. */
module Sessions {
  import opened Bytes
  import opened Primitives
  import opened PairVerify
  import Pairing

  /** A `u64` frame counter. */
  type u64 = n: int | 0 <= n < U64

  /** The counter after one more frame: it wraps at 2^64. */
  function Next(counter: u64): u64
  {
    (counter + 1) % U64
  }

  /** The BLE session of the controller. */
  class BleSession {
    const suite: Suite
    const keys: Keys
    var sendCounter: u64
    var recvCounter: u64

    constructor (suite: Suite, keys: Keys)
      ensures this.suite == suite && this.keys == keys && sendCounter == 0 && recvCounter == 0
    {
      this.suite := suite;
      this.keys := keys;
      sendCounter := 0;
      recvCounter := 0;
    }

    method Seal(pdu: bytes) returns (sealed: bytes)
      modifies this`sendCounter
      ensures sealed == suite.seal(keys.write, CounterNonce(old(sendCounter)), pdu)
      ensures sendCounter == Next(old(sendCounter))
    {
      sealed := suite.seal(keys.write, CounterNonce(sendCounter), pdu);
      sendCounter := (sendCounter + 1) % U64;
    }

    /** A frame that does not open leaves the counter where it was. */
    method Open(data: bytes) returns (r: Option<bytes>)
      modifies this`recvCounter
      ensures r == suite.open(keys.read, CounterNonce(old(recvCounter)), data)
      ensures recvCounter == if r.Some? then Next(old(recvCounter)) else old(recvCounter)
    {
      r := suite.open(keys.read, CounterNonce(recvCounter), data);
      if r.Some? { recvCounter := (recvCounter + 1) % U64; }
    }
  }

  /** The controller's CoAP session: three keys, three counters. */
  class CoapSession {
    const suite: Suite
    const keys: Keys
    var sendCtr: u64
    var recvCtr: u64
    var eventCtr: u64

    constructor (suite: Suite, keys: Keys)
      ensures this.suite == suite && this.keys == keys && sendCtr == recvCtr == eventCtr == 0
    {
      this.suite := suite;
      this.keys := keys;
      sendCtr := 0;
      recvCtr := 0;
      eventCtr := 0;
    }

    method SealRequest(plaintext: bytes) returns (sealed: bytes)
      modifies this`sendCtr
      ensures sealed == suite.seal(keys.write, CounterNonce(old(sendCtr)), plaintext) && sendCtr == Next(old(sendCtr))
    {
      sealed := suite.seal(keys.write, CounterNonce(sendCtr), plaintext);
      sendCtr := (sendCtr + 1) % U64;
    }

    method OpenResponse(data: bytes) returns (r: Option<bytes>)
      modifies this`recvCtr
      ensures r == suite.open(keys.read, CounterNonce(old(recvCtr)), data)
      ensures recvCtr == if r.Some? then Next(old(recvCtr)) else old(recvCtr)
    {
      r := suite.open(keys.read, CounterNonce(recvCtr), data);
      if r.Some? { recvCtr := (recvCtr + 1) % U64; }
    }

    method OpenEvent(data: bytes) returns (r: Option<bytes>)
      modifies this`eventCtr
      ensures r == suite.open(keys.event, CounterNonce(old(eventCtr)), data)
      ensures eventCtr == if r.Some? then Next(old(eventCtr)) else old(eventCtr)
    {
      r := suite.open(keys.event, CounterNonce(eventCtr), data);
      if r.Some? { eventCtr := (eventCtr + 1) % U64; }
    }
  }

  /** The accessory's session: it opens what the controller's write key sealed, and so on. */
  class AccessorySession {
    const suite: Suite
    const keys: Keys
    var recvCtr: u64
    var sendCtr: u64
    var eventCtr: u64

    constructor (suite: Suite, keys: Keys)
      ensures this.suite == suite && this.keys == keys && recvCtr == sendCtr == eventCtr == 0
    {
      this.suite := suite;
      this.keys := keys;
      recvCtr := 0;
      sendCtr := 0;
      eventCtr := 0;
    }

    method OpenRequest(data: bytes) returns (r: Option<bytes>)
      modifies this`recvCtr
      ensures r == suite.open(keys.write, CounterNonce(old(recvCtr)), data)
      ensures recvCtr == if r.Some? then Next(old(recvCtr)) else old(recvCtr)
    {
      r := suite.open(keys.write, CounterNonce(recvCtr), data);
      if r.Some? { recvCtr := (recvCtr + 1) % U64; }
    }

    method SealResponse(plaintext: bytes) returns (sealed: bytes)
      modifies this`sendCtr
      ensures sealed == suite.seal(keys.read, CounterNonce(old(sendCtr)), plaintext) && sendCtr == Next(old(sendCtr))
    {
      sealed := suite.seal(keys.read, CounterNonce(sendCtr), plaintext);
      sendCtr := (sendCtr + 1) % U64;
    }

    method SealEvent(plaintext: bytes) returns (sealed: bytes)
      modifies this`eventCtr
      ensures sealed == suite.seal(keys.event, CounterNonce(old(eventCtr)), plaintext) && eventCtr == Next(old(eventCtr))
    {
      sealed := suite.seal(keys.event, CounterNonce(eventCtr), plaintext);
      eventCtr := (eventCtr + 1) % U64;
    }
  }

  // ---- Two sessions and the frames between them ----

  datatype Direction = Requests | Responses | Events

  /** One direction: the sender's key and counter, the receiver's, the frames in flight, and the two ends' logs. */
  datatype Lane = Lane(txKey: bytes, txCtr: u64, rxKey: bytes, rxCtr: u64, wire: seq<bytes>, sent: seq<bytes>, got: seq<Option<bytes>>)

  datatype Link = Link(request: Lane, response: Lane, event: Lane)

  datatype Action = Transmit(dir: Direction, plaintext: bytes) | Deliver(dir: Direction)

  function EmptyLane(txKey: bytes, rxKey: bytes): Lane
  {
    Lane(txKey, 0, rxKey, 0, [], [], [])
  }

  /** A fresh pair of sessions, one from each end's keys. */
  function NewLink(controller: Keys, accessory: Keys): Link
  {
    Link(EmptyLane(controller.write, accessory.write), EmptyLane(accessory.read, controller.read),
         EmptyLane(accessory.event, controller.event))
  }

  function LaneStep(c: Suite, lane: Lane, a: Action): Lane
  {
    match a
    case Transmit(_, p) =>
      lane.(txCtr := Next(lane.txCtr), wire := lane.wire + [c.seal(lane.txKey, CounterNonce(lane.txCtr), p)], sent := lane.sent + [p])
    case Deliver(_) =>
      if lane.wire == [] then lane
      else
        var r := c.open(lane.rxKey, CounterNonce(lane.rxCtr), lane.wire[0]);
        lane.(rxCtr := if r.Some? then Next(lane.rxCtr) else lane.rxCtr, wire := lane.wire[1..], got := lane.got + [r])
  }

  function LinkStep(c: Suite, l: Link, a: Action): Link
  {
    match a.dir
    case Requests => l.(request := LaneStep(c, l.request, a))
    case Responses => l.(response := LaneStep(c, l.response, a))
    case Events => l.(event := LaneStep(c, l.event, a))
  }

  function LinkRun(c: Suite, l: Link, actions: seq<Action>): Link
  {
    if actions == [] then l
    else LinkStep(c, LinkRun(c, l, actions[..|actions| - 1]), actions[|actions| - 1])
  }

  function LaneOf(l: Link, d: Direction): Lane
  {
    match d
    case Requests => l.request
    case Responses => l.response
    case Events => l.event
  }

  /** The plaintexts sent in one direction of a run. */
  function SentIn(actions: seq<Action>, d: Direction): seq<bytes>
  {
    if actions == [] then []
    else
      var a := actions[|actions| - 1];
      var before := SentIn(actions[..|actions| - 1], d);
      if a.Transmit? && a.dir == d then before + [a.plaintext] else before
  }

  /** Frame number `i` of a direction. */
  function Frame(c: Suite, key: bytes, i: nat, plaintext: bytes): bytes
  {
    c.seal(key, CounterNonce(i % U64), plaintext)
  }

  type Framer = (nat, bytes) -> bytes

  function FramerOf(c: Suite, key: bytes): Framer
  {
    (i: nat, plaintext: bytes) => Frame(c, key, i, plaintext)
  }

  /** The frames in flight are those of the plaintexts after the first `got`. */
  ghost predicate InFlight(frame: Framer, wire: seq<bytes>, sent: seq<bytes>, got: nat)
  {
    && got + |wire| == |sent|
    && forall i :: 0 <= i < |wire| ==> wire[i] == frame(got + i, sent[got + i])
  }

  lemma FrameSent(frame: Framer, wire: seq<bytes>, sent: seq<bytes>, got: nat, p: bytes)
    requires InFlight(frame, wire, sent, got)
    ensures InFlight(frame, wire + [frame(|sent|, p)], sent + [p], got)
  {
  }

  lemma FrameTaken(frame: Framer, wire: seq<bytes>, sent: seq<bytes>, got: nat)
    requires InFlight(frame, wire, sent, got) && wire != []
    ensures wire[0] == frame(got, sent[got])
    ensures InFlight(frame, wire[1..], sent, got + 1)
  {
    assert wire[0] == frame(got + 0, sent[got + 0]);
    forall i | 0 <= i < |wire[1..]| ensures wire[1..][i] == frame(got + 1 + i, sent[got + 1 + i]) {
      assert wire[i + 1] == frame(got + (i + 1), sent[got + (i + 1)]);
      assert got + (i + 1) == got + 1 + i;
    }
  }

  /** Everything received is what was sent, in order, and both counters count frames. */
  ghost predicate InStep(c: Suite, lane: Lane)
  {
    && lane.txKey == lane.rxKey
    && lane.txCtr == |lane.sent| % U64 && lane.rxCtr == |lane.got| % U64
    && InFlight(FramerOf(c, lane.txKey), lane.wire, lane.sent, |lane.got|)
    && (forall i :: 0 <= i < |lane.got| ==> lane.got[i] == Some(lane.sent[i]))
  }

  lemma NextCounts(n: nat)
    ensures Next(n % U64) == (n + 1) % U64
  {
  }

  lemma TransmitInStep(c: Suite, lane: Lane, a: Action)
    requires InStep(c, lane) && a.Transmit?
    ensures InStep(c, LaneStep(c, lane, a))
  {
    NextCounts(|lane.sent|);
    FrameSent(FramerOf(c, lane.txKey), lane.wire, lane.sent, |lane.got|, a.plaintext);
  }

  lemma FrameOpens(c: Suite, key: bytes, i: nat, plaintext: bytes)
    requires SealLaw(c)
    ensures c.open(key, CounterNonce(i % U64), FramerOf(c, key)(i, plaintext)) == Some(plaintext)
  {
  }

  lemma DeliverInStep(c: Suite, lane: Lane, a: Action)
    requires SealLaw(c) && InStep(c, lane) && a.Deliver? && lane.wire != []
    ensures InStep(c, LaneStep(c, lane, a))
  {
    var g := |lane.got|;
    NextCounts(g);
    FrameTaken(FramerOf(c, lane.txKey), lane.wire, lane.sent, g);
    FrameOpens(c, lane.txKey, g, lane.sent[g]);
  }

  lemma LaneStaysInStep(c: Suite, lane: Lane, a: Action)
    requires SealLaw(c) && InStep(c, lane)
    ensures InStep(c, LaneStep(c, lane, a))
  {
    if a.Transmit? {
      TransmitInStep(c, lane, a);
    } else if lane.wire != [] {
      DeliverInStep(c, lane, a);
    }
  }

  /**
   After any interleaving of sends and in-order deliveries in the three directions, every frame
   delivered has opened to the plaintext sent in its place, and each end's counter is the number
   of frames it has handled, modulo 2^64.
   */
  lemma {:induction false} FramesOpenInOrder(c: Suite, keys: Keys, actions: seq<Action>, d: Direction)
    requires SealLaw(c)
    ensures var lane := LaneOf(LinkRun(c, NewLink(keys, keys), actions), d);
            && InStep(c, lane) && lane.sent == SentIn(actions, d)
    decreases |actions|
  {
    if actions != [] {
      var prior := actions[..|actions| - 1];
      var a := actions[|actions| - 1];
      FramesOpenInOrder(c, keys, prior, d);
      if a.dir == d {
        LaneStaysInStep(c, LaneOf(LinkRun(c, NewLink(keys, keys), prior), d), a);
      }
    }
  }

  /** Two frames of one direction share a nonce only when their numbers agree modulo 2^64. */
  lemma NonceReuseExactly(i: nat, j: nat)
    ensures CounterNonce(i % U64) == CounterNonce(j % U64) <==> i % U64 == j % U64
  {
    CounterNonceInjective(i % U64, j % U64);
  }

  /** From stored pairings to traffic: the keys of an honest Pair Verify run carry every interleaving. */
  lemma VerifiedTraffic(c: Suite, cl: Controller, acc: Pairing.Identity, accEph: bytes, actions: seq<Action>, d: Direction)
    requires Laws(c) && cl.accessory == Pairing.Peer(acc.id, Pairing.Ltpk(c, acc))
    ensures var o := Run(c, cl, acc, Pairing.Peer(cl.me.id, Pairing.Ltpk(c, cl.me)), accEph);
            && o.controller.Some? && o.accessory.Some?
            && var lane := LaneOf(LinkRun(c, NewLink(o.controller.value, o.accessory.value), actions), d);
               InStep(c, lane) && lane.sent == SentIn(actions, d)
  {
    HonestRun(c, cl, acc, accEph);
    var keys := Run(c, cl, acc, Pairing.Peer(cl.me.id, Pairing.Ltpk(c, cl.me)), accEph).controller.value;
    FramesOpenInOrder(c, keys, actions, d);
  }

  // ---- The sessions themselves, driven over a run ----

  /** What one direction has in flight and what its ends have sent and got. */
  datatype Traffic = Traffic(wire: seq<bytes>, sent: seq<bytes>, got: seq<Option<bytes>>)

  const QUIET := Traffic([], [], [])

  function Sends(t: Traffic, frame: bytes, plaintext: bytes): Traffic
  {
    Traffic(t.wire + [frame], t.sent + [plaintext], t.got)
  }

  function Takes(t: Traffic, r: Option<bytes>): Traffic
    requires t.wire != []
  {
    Traffic(t.wire[1..], t.sent, t.got + [r])
  }

  function LaneWith(txKey: bytes, txCtr: u64, rxKey: bytes, rxCtr: u64, t: Traffic): Lane
  {
    Lane(txKey, txCtr, rxKey, rxCtr, t.wire, t.sent, t.got)
  }

  /** A CoAP controller session and an accessory session, with the traffic between them, as a link. */
  ghost function CoapLink(ctl: CoapSession, acc: AccessorySession, requests: Traffic, responses: Traffic, events: Traffic): Link
    reads ctl, acc
  {
    Link(LaneWith(ctl.keys.write, ctl.sendCtr, acc.keys.write, acc.recvCtr, requests),
         LaneWith(acc.keys.read, acc.sendCtr, ctl.keys.read, ctl.recvCtr, responses),
         LaneWith(acc.keys.event, acc.eventCtr, ctl.keys.event, ctl.eventCtr, events))
  }

  method CoapTransmit(ctl: CoapSession, acc: AccessorySession, requests: Traffic, responses: Traffic, events: Traffic, a: Action)
    returns (requests': Traffic, responses': Traffic, events': Traffic)
    requires ctl.suite == acc.suite && a.Transmit?
    modifies ctl, acc
    ensures CoapLink(ctl, acc, requests', responses', events') ==
            LinkStep(ctl.suite, old(CoapLink(ctl, acc, requests, responses, events)), a)
  {
    requests', responses', events' := requests, responses, events;
    match a.dir {
      case Requests =>
        var frame := ctl.SealRequest(a.plaintext);
        requests' := Sends(requests, frame, a.plaintext);
      case Responses =>
        var frame := acc.SealResponse(a.plaintext);
        responses' := Sends(responses, frame, a.plaintext);
      case Events =>
        var frame := acc.SealEvent(a.plaintext);
        events' := Sends(events, frame, a.plaintext);
    }
  }

  method CoapDeliver(ctl: CoapSession, acc: AccessorySession, requests: Traffic, responses: Traffic, events: Traffic, a: Action)
    returns (requests': Traffic, responses': Traffic, events': Traffic)
    requires ctl.suite == acc.suite && a.Deliver?
    modifies ctl, acc
    ensures CoapLink(ctl, acc, requests', responses', events') ==
            LinkStep(ctl.suite, old(CoapLink(ctl, acc, requests, responses, events)), a)
  {
    requests', responses', events' := requests, responses, events;
    match a.dir {
      case Requests =>
        if requests.wire == [] { return; }
        var r := acc.OpenRequest(requests.wire[0]);
        requests' := Takes(requests, r);
      case Responses =>
        if responses.wire == [] { return; }
        var r := ctl.OpenResponse(responses.wire[0]);
        responses' := Takes(responses, r);
      case Events =>
        if events.wire == [] { return; }
        var r := ctl.OpenEvent(events.wire[0]);
        events' := Takes(events, r);
    }
  }

  /** Every delivered frame of a direction opened to the plaintext sent in its place; both counters count frames. */
  ghost predicate Delivered(c: Suite, l: Link, actions: seq<Action>)
  {
    forall d: Direction :: InStep(c, LaneOf(l, d)) && LaneOf(l, d).sent == SentIn(actions, d)
  }

  lemma LinkDelivers(c: Suite, keys: Keys, actions: seq<Action>)
    requires SealLaw(c)
    ensures Delivered(c, LinkRun(c, NewLink(keys, keys), actions), actions)
  {
    forall d: Direction
      ensures var lane := LaneOf(LinkRun(c, NewLink(keys, keys), actions), d); InStep(c, lane) && lane.sent == SentIn(actions, d)
    {
      FramesOpenInOrder(c, keys, actions, d);
    }
  }

  lemma RunExtends(c: Suite, l: Link, actions: seq<Action>, i: nat)
    requires i < |actions|
    ensures LinkRun(c, l, actions[..i + 1]) == LinkStep(c, LinkRun(c, l, actions[..i]), actions[i])
  {
    assert actions[..i + 1][..i] == actions[..i];
  }

  /** Two fresh sessions over any run: they follow the link step by step, so with shared keys all traffic arrives. */
  method DriveCoap(ctl: CoapSession, acc: AccessorySession, actions: seq<Action>)
    returns (requests: Traffic, responses: Traffic, events: Traffic)
    requires ctl.suite == acc.suite && ctl.sendCtr == ctl.recvCtr == ctl.eventCtr == 0 && acc.recvCtr == acc.sendCtr == acc.eventCtr == 0
    modifies ctl, acc
    ensures CoapLink(ctl, acc, requests, responses, events) == LinkRun(ctl.suite, NewLink(ctl.keys, acc.keys), actions)
    ensures SealLaw(ctl.suite) && ctl.keys == acc.keys ==> Delivered(ctl.suite, CoapLink(ctl, acc, requests, responses, events), actions)
  {
    requests, responses, events := QUIET, QUIET, QUIET;
    ghost var start := NewLink(ctl.keys, acc.keys);
    var i := 0;
    while i < |actions|
      invariant 0 <= i <= |actions|
      invariant CoapLink(ctl, acc, requests, responses, events) == LinkRun(ctl.suite, start, actions[..i])
    {
      RunExtends(ctl.suite, start, actions, i);
      if actions[i].Transmit? {
        requests, responses, events := CoapTransmit(ctl, acc, requests, responses, events, actions[i]);
      } else {
        requests, responses, events := CoapDeliver(ctl, acc, requests, responses, events, actions[i]);
      }
      i := i + 1;
    }
    assert actions[..i] == actions;
    if SealLaw(ctl.suite) && ctl.keys == acc.keys { LinkDelivers(ctl.suite, ctl.keys, actions); }
  }

  /** A BLE controller session, which has no events, and its peer. */
  ghost function BleLink(ctl: BleSession, acc: AccessorySession, requests: Traffic, responses: Traffic): Link
    reads ctl, acc
  {
    Link(LaneWith(ctl.keys.write, ctl.sendCounter, acc.keys.write, acc.recvCtr, requests),
         LaneWith(acc.keys.read, acc.sendCtr, ctl.keys.read, ctl.recvCounter, responses),
         EmptyLane(acc.keys.event, ctl.keys.event))
  }

  method BleStep(ctl: BleSession, acc: AccessorySession, requests: Traffic, responses: Traffic, a: Action)
    returns (requests': Traffic, responses': Traffic)
    requires ctl.suite == acc.suite && !a.dir.Events?
    modifies ctl, acc
    ensures BleLink(ctl, acc, requests', responses') == LinkStep(ctl.suite, old(BleLink(ctl, acc, requests, responses)), a)
  {
    requests', responses' := requests, responses;
    if a.Transmit? && a.dir.Requests? {
      var frame := ctl.Seal(a.plaintext);
      requests' := Sends(requests, frame, a.plaintext);
    } else if a.Transmit? {
      var frame := acc.SealResponse(a.plaintext);
      responses' := Sends(responses, frame, a.plaintext);
    } else if a.dir.Requests? {
      if requests.wire == [] { return; }
      var r := acc.OpenRequest(requests.wire[0]);
      requests' := Takes(requests, r);
    } else {
      if responses.wire == [] { return; }
      var r := ctl.Open(responses.wire[0]);
      responses' := Takes(responses, r);
    }
  }

  method DriveBle(ctl: BleSession, acc: AccessorySession, actions: seq<Action>) returns (requests: Traffic, responses: Traffic)
    requires ctl.suite == acc.suite && ctl.sendCounter == ctl.recvCounter == 0 && acc.recvCtr == acc.sendCtr == 0
    requires forall i :: 0 <= i < |actions| ==> !actions[i].dir.Events?
    modifies ctl, acc
    ensures BleLink(ctl, acc, requests, responses) == LinkRun(ctl.suite, NewLink(ctl.keys, acc.keys), actions)
    ensures SealLaw(ctl.suite) && ctl.keys == acc.keys ==> Delivered(ctl.suite, BleLink(ctl, acc, requests, responses), actions)
  {
    requests, responses := QUIET, QUIET;
    ghost var start := NewLink(ctl.keys, acc.keys);
    var i := 0;
    while i < |actions|
      invariant 0 <= i <= |actions|
      invariant BleLink(ctl, acc, requests, responses) == LinkRun(ctl.suite, start, actions[..i])
    {
      RunExtends(ctl.suite, start, actions, i);
      requests, responses := BleStep(ctl, acc, requests, responses, actions[i]);
      i := i + 1;
    }
    assert actions[..i] == actions;
    if SealLaw(ctl.suite) && ctl.keys == acc.keys { LinkDelivers(ctl.suite, ctl.keys, actions); }
  }
}
