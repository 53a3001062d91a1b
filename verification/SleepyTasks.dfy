/** The advert task and the poll task of a sleeping accessory's watch, in every interleaving. */
module SleepyTasks {
  import opened Bytes
  import opened SleepyEvents
  import opened Primitives
  import Broadcast

  datatype Target = Target(aid: nat, iid: nat)

  /** What the watch was armed with: poll targets, known formats, the broadcast key and the value decoder. */
  datatype Config = Config(
    targets: seq<Target>,
    formats: set<nat>,
    open: (u16, bytes) -> Option<bytes>,
    decode: (nat, bytes) -> Option<bytes>)

  datatype Advert = Regular(ours: bool, gsn: u16) | Notification(ours: bool, payload: bytes) | Foreign

  datatype Event = Event(aid: nat, iid: nat, value: bytes)

  /** Where the advert task waits: between two locks, sends or searches. */
  datatype AdvertPc =
    | Listening
    | Searching(start: u16, payload: bytes)
    | Sending(gsn: u16)
    | Deduping(iid: nat, gsn: u16, value: bytes)

  datatype PollPc = Waiting | Reading(gsn: u16, i: nat) | Settling(gsn: u16, i: nat, value: bytes)

  /** The shared state and the two program counters. The watch channel holds its latest value and a version. */
  datatype Engine = Engine(
    lastGsn: u16,
    channel: u16,
    version: nat,
    seen: nat,
    emitted: map<nat, u16>,
    advert: AdvertPc,
    poll: PollPc,
    events: seq<Event>)

  function Emit(e: Engine, emit: bool, event: Event): Engine
  {
    if emit then e.(events := e.events + [event]) else e
  }

  function OnAdvert(e: Engine, advert: Advert): Engine
  {
    if !e.advert.Listening? then e
    else
      match advert
      case Regular(ours, gsn) =>
        if !ours || !GsnIsNewer(gsn, e.lastGsn) then e else e.(lastGsn := gsn, advert := Sending(gsn))
      case Notification(ours, payload) =>
        if !ours then e else e.(advert := Searching(e.lastGsn, payload))
      case Foreign => e
  }

  function Opener(cfg: Config, payload: bytes): u16 -> Option<bytes>
  {
    (gsn: u16) => cfg.open(gsn, payload)
  }

  /** The state number a broadcast is accepted at. */
  function Accepted(cfg: Config, start: u16, payload: bytes): (r: Option<u16>)
    ensures r.Some? ==> Answers(Opener(cfg, payload), r.value) && GsnIsNewer(r.value, start)
  {
    SearchAmong(Opener(cfg, payload), start, Candidates(start))
  }

  /** What an accepted broadcast has to say: nothing for an unknown characteristic or an undecodable value. */
  function Carried(cfg: Config, pt: bytes, gsn: u16): AdvertPc
    requires |pt| >= 12
  {
    var iid := FromLe16(pt[2..4]);
    if iid !in cfg.formats then Listening
    else
      match cfg.decode(iid, pt[4..12])
      case None => Listening
      case Some(value) => Deduping(iid, gsn, value)
  }

  function AdvertGo(cfg: Config, e: Engine): Engine
  {
    match e.advert
    case Listening => e
    case Sending(gsn) =>
      if cfg.targets == [] then e.(advert := Listening)
      else e.(channel := gsn, version := e.version + 1, advert := Listening)
    case Searching(start, payload) =>
      (match Accepted(cfg, start, payload)
       case None => e.(advert := Listening)
       case Some(gsn) => e.(lastGsn := gsn, advert := Carried(cfg, cfg.open(gsn, payload).value, gsn)))
    case Deduping(iid, gsn, value) =>
      var (records, emit) := Dedup(e.emitted, iid, gsn);
      Emit(e.(emitted := records, advert := Listening), emit, Event(1, iid, value))
  }

  function NextTarget(cfg: Config, gsn: u16, i: nat): PollPc
  {
    if i + 1 < |cfg.targets| then Reading(gsn, i + 1) else Waiting
  }

  /** One step of the poll task; `read` is what the read of the current target returns. */
  function PollGo(cfg: Config, e: Engine, read: Option<bytes>): Engine
  {
    match e.poll
    case Waiting => if e.seen < e.version then e.(seen := e.version, poll := Reading(e.channel, 0)) else e
    case Reading(gsn, i) =>
      if read.None? || i >= |cfg.targets| then e.(poll := NextTarget(cfg, gsn, i))
      else
        (match cfg.decode(cfg.targets[i].iid, read.value)
         case None => e.(poll := NextTarget(cfg, gsn, i))
         case Some(value) => e.(poll := Settling(gsn, i, value)))
    case Settling(gsn, i, value) =>
      if i >= |cfg.targets| then e.(poll := Waiting)
      else
        var (records, emit) := Dedup(e.emitted, cfg.targets[i].iid, gsn);
        Emit(e.(emitted := records, poll := NextTarget(cfg, gsn, i)), emit, Event(cfg.targets[i].aid, cfg.targets[i].iid, value))
  }

  datatype Step = Hear(advert: Advert) | RunAdvert | RunPoll(read: Option<bytes>)

  function Next(cfg: Config, e: Engine, step: Step): Engine
  {
    match step
    case Hear(advert) => OnAdvert(e, advert)
    case RunAdvert => AdvertGo(cfg, e)
    case RunPoll(read) => PollGo(cfg, e, read)
  }

  // ---- The same steps on the shared objects ----

  class Watch {
    const cfg: Config
    var lastGsn: u16
    var channel: u16
    var version: nat
    var seen: nat
    var emitted: map<nat, u16>
    var advert: AdvertPc
    var poll: PollPc
    var events: seq<Event>

    ghost function State(): Engine
      reads this
    {
      Engine(lastGsn, channel, version, seen, emitted, advert, poll, events)
    }

    constructor (cfg: Config, initialGsn: u16)
      ensures this.cfg == cfg && State() == Armed(initialGsn)
    {
      this.cfg := cfg;
      lastGsn := initialGsn;
      channel, version, seen := 0, 0, 0;
      emitted := map[];
      advert, poll := Listening, Waiting;
      events := [];
    }

    method DedupShouldEmit(iid: nat, gsn: u16) returns (emit: bool)
      modifies this`emitted
      ensures (emitted, emit) == Dedup(old(emitted), iid, gsn)
    {
      if iid in emitted && emitted[iid] == gsn { return false; }
      if iid !in emitted || GsnIsNewer(gsn, emitted[iid]) {
        emitted := emitted[iid := gsn];
      }
      emit := true;
    }

    method Receive(heard: Advert)
      modifies this`lastGsn, this`advert
      ensures State() == OnAdvert(old(State()), heard)
    {
      if !advert.Listening? { return; }
      match heard
      case Regular(ours, gsn) =>
        if !ours || !GsnIsNewer(gsn, lastGsn) { return; }
        lastGsn := gsn;
        advert := Sending(gsn);
      case Notification(ours, payload) =>
        if !ours { return; }
        advert := Searching(lastGsn, payload);
      case Foreign =>
    }

    method ContinueAdvert()
      modifies this
      ensures State() == AdvertGo(cfg, old(State()))
    {
      match advert
      case Listening =>
      case Sending(gsn) =>
        if cfg.targets != [] {
          channel := gsn;
          version := version + 1;
        }
        advert := Listening;
      case Searching(start, payload) =>
        var found := SearchCandidates(Opener(cfg, payload), start);
        advert := Listening;
        if found.Some? {
          lastGsn := found.value;
          var pt := cfg.open(found.value, payload).value;
          var iid := FromLe16(pt[2..4]);
          if iid in cfg.formats {
            var value := cfg.decode(iid, pt[4..12]);
            if value.Some? { advert := Deduping(iid, found.value, value.value); }
          }
        }
      case Deduping(iid, gsn, value) =>
        var emit := DedupShouldEmit(iid, gsn);
        if emit { events := events + [Event(1, iid, value)]; }
        advert := Listening;
    }

    method ContinuePoll(read: Option<bytes>)
      modifies this
      ensures State() == PollGo(cfg, old(State()), read)
    {
      match poll
      case Waiting =>
        if seen < version {
          seen := version;
          poll := Reading(channel, 0);
        }
      case Reading(gsn, i) =>
        poll := NextTarget(cfg, gsn, i);
        if read.Some? && i < |cfg.targets| {
          var value := cfg.decode(cfg.targets[i].iid, read.value);
          if value.Some? { poll := Settling(gsn, i, value.value); }
        }
      case Settling(gsn, i, value) =>
        if i < |cfg.targets| {
          var target := cfg.targets[i];
          var emit := DedupShouldEmit(target.iid, gsn);
          if emit { events := events + [Event(target.aid, target.iid, value)]; }
          poll := NextTarget(cfg, gsn, i);
        } else {
          poll := Waiting;
        }
    }
  }

  function Armed(initialGsn: u16): Engine
  {
    Engine(initialGsn, 0, 0, 0, map[], Listening, Waiting, [])
  }

  /**
   * A broadcast sealed at `gsn` and opening at no other number moves `last_gsn` to `gsn` exactly when its
   * text is well formed and `gsn` is 1 to 100 ahead; otherwise nothing changes.
   */
  lemma BroadcastAcceptedExactly(c: Suite, key: bytes, id: bytes, cfg: Config, e: Engine, gsn: u16, pt: bytes)
    requires MacLaw(c) && forall g: u16, p: bytes :: cfg.open(g, p) == Broadcast.Unsealed(c, key, g, p, id)
    requires e.advert.Searching? && e.advert.start == e.lastGsn
    requires e.advert.payload == Broadcast.Sealed(c, key, gsn, pt, id) && OpensOnlyAt(Opener(cfg, e.advert.payload), gsn)
    ensures AdvertGo(cfg, e) ==
            if |pt| >= 12 && FromLe16(pt[..2]) == gsn && 1 <= Distance(gsn, e.lastGsn) <= 100
            then e.(lastGsn := gsn, advert := Carried(cfg, pt, gsn))
            else e.(advert := Listening)
  {
    Broadcast.OpensExactlyTheSealed(c, key, gsn, e.advert.payload, pt, id);
    assert cfg.open(gsn, e.advert.payload) == Some(pt);
    SearchAcceptsWindow(Opener(cfg, e.advert.payload), e.lastGsn, gsn);
  }
}
