/** What holds in every run of the advert and poll tasks, in unwrapped state numbers. */
module SleepyRuns {
  import opened Bytes
  import opened SleepyEvents
  import opened SleepyTasks

  /**
   * The history of a run. `last` is the unwrapped `last_gsn`; `bumps` and `casts` are the numbers accepted
   * from regular adverts and from broadcasts; `sent` and `polling` are the numbers in the channel and under
   * poll; `rounds` lists the bumps polled, counted from 1; `pulls` and `heard` are the decodable values the poll
   * task read and the advert task decrypted; `log` says which dedup call each event came from.
   */
  datatype History = History(
    last: nat,
    bumps: seq<nat>,
    casts: seq<nat>,
    sent: nat,
    polling: nat,
    rounds: seq<nat>,
    pulls: seq<Ask>,
    heard: seq<Ask>,
    asks: seq<Ask>,
    log: seq<nat>)

  function Asked(h: History, ask: Ask, emit: bool): History
  {
    h.(asks := h.asks + [ask], log := if emit then h.log + [|h.asks|] else h.log)
  }

  function AskedLast(h: History, taken: seq<Ask>, emit: bool): History
  {
    if taken == [] then h else Asked(h, taken[|taken| - 1], emit)
  }

  function HistoryOnAdvert(e: Engine, h: History, advert: Advert): History
  {
    if e.advert.Listening? && advert.Regular? && advert.ours && GsnIsNewer(advert.gsn, e.lastGsn) then
      var number := h.last + Distance(advert.gsn, e.lastGsn);
      h.(last := number, bumps := h.bumps + [number])
    else h
  }

  function HistoryAdvertGo(cfg: Config, e: Engine, h: History): History
  {
    match e.advert
    case Listening => h
    case Sending(_) => if cfg.targets == [] then h else h.(sent := h.last)
    case Searching(start, payload) =>
      (match Accepted(cfg, start, payload)
       case None => h
       case Some(gsn) =>
         var number := h.last + Distance(gsn, start);
         var pt := cfg.open(gsn, payload).value;
         var found := Carried(cfg, pt, gsn);
         h.(last := number, casts := h.casts + [number],
            heard := if found.Deduping? then h.heard + [Ask(1, found.iid, number, false, pt[4..12])] else h.heard))
    case Deduping(iid, gsn, _) => AskedLast(h, h.heard, Dedup(e.emitted, iid, gsn).1)
  }

  function HistoryPollGo(cfg: Config, e: Engine, h: History, read: Option<bytes>): History
  {
    match e.poll
    case Waiting => if e.seen < e.version then h.(polling := h.sent, rounds := h.rounds + [e.version]) else h
    case Reading(_, i) =>
      if read.None? || i >= |cfg.targets| || cfg.decode(cfg.targets[i].iid, read.value).None? then h
      else h.(pulls := h.pulls + [Ask(cfg.targets[i].aid, cfg.targets[i].iid, h.polling, true, read.value)])
    case Settling(gsn, i, _) =>
      if i >= |cfg.targets| then h else AskedLast(h, h.pulls, Dedup(e.emitted, cfg.targets[i].iid, gsn).1)
  }

  datatype World = World(e: Engine, h: History)

  function WorldNext(cfg: Config, w: World, step: Step): World
  {
    World(Next(cfg, w.e, step),
          match step
          case Hear(advert) => HistoryOnAdvert(w.e, w.h, advert)
          case RunAdvert => HistoryAdvertGo(cfg, w.e, w.h)
          case RunPoll(read) => HistoryPollGo(cfg, w.e, w.h, read))
  }

  function Run(cfg: Config, w: World, steps: seq<Step>): World
    decreases |steps|
  {
    if steps == [] then w else Run(cfg, WorldNext(cfg, w, steps[0]), steps[1..])
  }

  function Start(initialGsn: u16): World
  {
    World(Armed(initialGsn), History(initialGsn, [], [], 0, 0, [], [], [], [], []))
  }

  // ---- The invariant ----

  ghost predicate Increasing(s: seq<nat>)
  {
    forall i, j :: 0 <= i < j < |s| ==> s[i] < s[j]
  }

  ghost predicate AtMost(s: seq<nat>, top: nat)
  {
    forall i :: 0 <= i < |s| ==> s[i] <= top
  }

  /** Accepted numbers only go up, and each is accepted once, by one of the two paths. */
  ghost predicate Numbers(e: Engine, h: History)
  {
    && Wrap(h.last) == e.lastGsn
    && Increasing(h.bumps) && Increasing(h.casts) && AtMost(h.bumps, h.last) && AtMost(h.casts, h.last)
    && (forall n: nat :: n in h.bumps ==> n !in h.casts)
    && (e.advert.Searching? ==> e.advert.start == e.lastGsn)
    && (e.advert.Sending? ==> h.bumps != [] && h.bumps[|h.bumps| - 1] == h.last && e.advert.gsn == e.lastGsn)
    && (e.advert.Deduping? ==> h.casts != [] && h.casts[|h.casts| - 1] == h.last && e.advert.gsn == e.lastGsn)
  }

  /** The channel holds the last bump sent, under its number in order. */
  ghost predicate Channel(cfg: Config, e: Engine, h: History)
  {
    && e.seen <= e.version
    && (cfg.targets == [] ==> e.version == 0)
    && (cfg.targets != [] ==> e.version + (if e.advert.Sending? then 1 else 0) == |h.bumps|)
    && (e.version > 0 ==> e.version <= |h.bumps| && h.sent == h.bumps[e.version - 1] && e.channel == Wrap(h.sent))
  }

  /** The poll task works on the last round's bump, and rounds take ever later bumps. */
  ghost predicate Polling(cfg: Config, e: Engine, h: History)
  {
    && Increasing(h.rounds) && AtMost(h.rounds, e.seen)
    && (e.seen == 0 ==> h.rounds == [] && e.poll.Waiting?)
    && (e.seen > 0 ==> h.rounds != [] && h.rounds[|h.rounds| - 1] == e.seen && e.seen <= |h.bumps| && h.polling == h.bumps[e.seen - 1])
    && (forall k :: 0 <= k < |h.rounds| ==> 1 <= h.rounds[k])
    && (!e.poll.Waiting? ==> e.poll.i < |cfg.targets| && e.poll.gsn == Wrap(h.polling))
  }

  /** The round is past every target with this characteristic. */
  ghost predicate Past(cfg: Config, poll: PollPc, iid: nat)
  {
    !poll.Waiting? ==> forall j :: poll.i <= j < |cfg.targets| ==> cfg.targets[j].iid != iid
  }

  ghost predicate AskFits(cfg: Config, e: Engine, h: History, ask: Ask)
  {
    if ask.polled
    then ask.number in h.bumps && e.seen > 0 && ask.number <= h.polling && (ask.number == h.polling ==> Past(cfg, e.poll, ask.iid))
    else ask.number in h.casts && (e.advert.Deduping? ==> ask.number < h.last)
  }

  ghost predicate Apart(a: Ask, b: Ask)
  {
    a.iid != b.iid || a.number != b.number
  }

  /** No two dedup calls are for the same characteristic at the same number. */
  ghost predicate Asks(cfg: Config, e: Engine, h: History)
  {
    && (forall k :: 0 <= k < |h.asks| ==> AskFits(cfg, e, h, h.asks[k]))
    && (forall j, k :: 0 <= j < k < |h.asks| ==> Apart(h.asks[j], h.asks[k]))
  }

  /** The calls of one of the two tasks. */
  function Of(asks: seq<Ask>, polled: bool): seq<Ask>
  {
    if asks == [] then []
    else
      var n := |asks| - 1;
      Of(asks[..n], polled) + (if asks[n].polled == polled then [asks[n]] else [])
  }

  lemma OfAppend(asks: seq<Ask>, ask: Ask, polled: bool)
    ensures Of(asks + [ask], polled) == Of(asks, polled) + (if ask.polled == polled then [ask] else [])
  {
    assert (asks + [ask])[..|asks|] == asks;
  }

  /** The last value taken is the one about to be reported. */
  ghost predicate LastTaken(cfg: Config, taken: seq<Ask>, aid: nat, iid: nat, number: nat, polled: bool, value: bytes)
  {
    && taken != []
    && var ask := taken[|taken| - 1];
       ask == Ask(aid, iid, number, polled, ask.raw) && cfg.decode(iid, ask.raw) == Some(value)
  }

  /** Each task reports every decodable value it takes, in order, the last one being perhaps still to come. */
  ghost predicate Taken(cfg: Config, e: Engine, h: History)
  {
    && h.pulls == Of(h.asks, true) + (if e.poll.Settling? && h.pulls != [] then [h.pulls[|h.pulls| - 1]] else [])
    && h.heard == Of(h.asks, false) + (if e.advert.Deduping? && h.heard != [] then [h.heard[|h.heard| - 1]] else [])
    && (e.poll.Settling? ==> e.poll.i < |cfg.targets|)
    && (e.poll.Settling? ==>
          LastTaken(cfg, h.pulls, cfg.targets[e.poll.i].aid, cfg.targets[e.poll.i].iid, h.polling, true, e.poll.value))
    && (e.advert.Deduping? ==> LastTaken(cfg, h.heard, 1, e.advert.iid, h.last, false, e.advert.value))
  }

  /** The event a call is for. */
  function EventOf(cfg: Config, ask: Ask): Event
  {
    Event(ask.aid, ask.iid, if cfg.decode(ask.iid, ask.raw).Some? then cfg.decode(ask.iid, ask.raw).value else [])
  }

  /** The map and the events are what the dedup calls make of them. */
  ghost predicate Records(cfg: Config, e: Engine, h: History)
  {
    && Holds(e.emitted, DedupRun(Settle, h.asks).records)
    && |h.log| == |e.events| && Increasing(h.log)
    && (forall j :: 0 <= j < |h.log| ==> h.log[j] < |h.asks| && e.events[j] == EventOf(cfg, h.asks[h.log[j]]))
    && (forall k :: 0 <= k < |h.asks| ==> (DedupRun(Settle, h.asks).emitted[k] <==> k in h.log))
  }

  ghost predicate DistinctTargets(cfg: Config)
  {
    forall i, j :: 0 <= i < j < |cfg.targets| ==> cfg.targets[i].iid != cfg.targets[j].iid
  }

  ghost predicate Inv(cfg: Config, w: World)
  {
    Numbers(w.e, w.h) && Channel(cfg, w.e, w.h) && Polling(cfg, w.e, w.h) && Asks(cfg, w.e, w.h) && Records(cfg, w.e, w.h) && Taken(cfg, w.e, w.h)
  }

  // ---- What each part of it depends on ----

  lemma NumbersFrame(e: Engine, h: History, e': Engine, h': History)
    requires Numbers(e, h) && e'.lastGsn == e.lastGsn && h'.last == h.last && h'.bumps == h.bumps && h'.casts == h.casts
    requires e'.advert == e.advert || e'.advert.Listening? || (e'.advert.Searching? && e'.advert.start == e.lastGsn)
    ensures Numbers(e', h')
  {
  }

  lemma ChannelFrame(cfg: Config, e: Engine, h: History, e': Engine, h': History)
    requires Channel(cfg, e, h) && e'.seen == e.seen && e'.version == e.version && e'.channel == e.channel
    requires e'.advert.Sending? == e.advert.Sending? && h'.bumps == h.bumps && h'.sent == h.sent
    ensures Channel(cfg, e', h')
  {
  }

  lemma PollingFrame(cfg: Config, e: Engine, h: History, e': Engine, h': History)
    requires Polling(cfg, e, h) && e'.seen == e.seen && h'.rounds == h.rounds && h'.polling == h.polling && h.bumps <= h'.bumps
    requires e'.poll.Waiting? || (!e.poll.Waiting? && e'.poll.gsn == e.poll.gsn && e'.poll.i < |cfg.targets|)
    ensures Polling(cfg, e', h')
  {
  }

  lemma RecordsFrame(cfg: Config, e: Engine, h: History, e': Engine, h': History)
    requires Records(cfg, e, h) && e'.emitted == e.emitted && e'.events == e.events && h'.log == h.log && h'.asks == h.asks
    ensures Records(cfg, e', h')
  {
  }

  lemma TakenFrame(cfg: Config, e: Engine, h: History, e': Engine, h': History)
    requires Taken(cfg, e, h) && !e.advert.Deduping? && !e'.advert.Deduping? && e'.poll == e.poll
    requires h'.asks == h.asks && h'.pulls == h.pulls && h'.heard == h.heard && h'.polling == h.polling
    ensures Taken(cfg, e', h')
  {
  }

  // ---- Each step keeps it ----

  lemma HearKeeps(cfg: Config, w: World, advert: Advert)
    requires Inv(cfg, w)
    ensures Inv(cfg, WorldNext(cfg, w, Hear(advert)))
  {
    var w' := WorldNext(cfg, w, Hear(advert));
    if w'.h != w.h {
      BumpKeeps(cfg, w, advert);
    } else if w'.e != w.e {
      ListenKeeps(cfg, w, w');
    }
  }

  lemma ListenKeeps(cfg: Config, w: World, w': World)
    requires Inv(cfg, w) && w.e.advert.Listening? && w'.h == w.h
    requires w'.e.advert.Searching? && w'.e == w.e.(advert := w'.e.advert) && w'.e.advert.start == w.e.lastGsn
    ensures Inv(cfg, w')
  {
    NumbersFrame(w.e, w.h, w'.e, w'.h);
    ChannelFrame(cfg, w.e, w.h, w'.e, w'.h);
    PollingFrame(cfg, w.e, w.h, w'.e, w'.h);
    AskedStays(cfg, w, w');
    RecordsFrame(cfg, w.e, w.h, w'.e, w'.h);
    TakenFrame(cfg, w.e, w.h, w'.e, w'.h);
  }

  lemma BumpKeeps(cfg: Config, w: World, advert: Advert)
    requires Inv(cfg, w) && WorldNext(cfg, w, Hear(advert)).h != w.h
    ensures Inv(cfg, WorldNext(cfg, w, Hear(advert)))
  {
    var w' := WorldNext(cfg, w, Hear(advert));
    BumpNumbers(cfg, w, advert);
    BumpChannel(cfg, w, advert);
    AskedStays(cfg, w, w');
    TakenFrame(cfg, w.e, w.h, w'.e, w'.h);
  }

  lemma BumpChannel(cfg: Config, w: World, advert: Advert)
    requires Channel(cfg, w.e, w.h) && Polling(cfg, w.e, w.h) && Records(cfg, w.e, w.h)
    ensures var w' := WorldNext(cfg, w, Hear(advert));
            w'.h != w.h ==> Channel(cfg, w'.e, w'.h) && Polling(cfg, w'.e, w'.h) && Records(cfg, w'.e, w'.h)
  {
  }

  lemma BumpNumbers(cfg: Config, w: World, advert: Advert)
    requires Numbers(w.e, w.h)
    ensures var w' := WorldNext(cfg, w, Hear(advert));
            w'.h != w.h ==> Numbers(w'.e, w'.h) && w'.e.advert.Sending?
  {
    var w' := WorldNext(cfg, w, Hear(advert));
    if w'.h != w.h {
      Advance(w.h.last, advert.gsn);
      Append(w.h.bumps, w.h.last, w'.h.last);
    }
  }

  lemma Append(s: seq<nat>, last: nat, number: nat)
    requires Increasing(s) && AtMost(s, last) && last < number
    ensures Increasing(s + [number]) && AtMost(s + [number], number) && number !in s
  {
  }

  /** Growing the accepted numbers leaves every ask fitting, if no broadcast is left pending. */
  lemma AskedStays(cfg: Config, w: World, w': World)
    requires Asks(cfg, w.e, w.h)
    requires w'.h.asks == w.h.asks && w'.e.seen == w.e.seen && w'.e.poll == w.e.poll && w'.h.polling == w.h.polling
    requires w.h.bumps <= w'.h.bumps && w.h.casts <= w'.h.casts
    requires w'.e.advert.Deduping? ==> AtMost(w.h.casts, w.h.last) && w.h.last < w'.h.last
    ensures Asks(cfg, w'.e, w'.h)
  {
    forall k | 0 <= k < |w'.h.asks| ensures AskFits(cfg, w'.e, w'.h, w'.h.asks[k]) {
      assert AskFits(cfg, w.e, w.h, w.h.asks[k]);
    }
  }

  lemma SendKeeps(cfg: Config, w: World)
    requires Inv(cfg, w) && w.e.advert.Sending?
    ensures Inv(cfg, WorldNext(cfg, w, RunAdvert))
  {
    AskedStays(cfg, w, WorldNext(cfg, w, RunAdvert));
  }

  lemma SearchTakes(cfg: Config, w: World)
    requires Taken(cfg, w.e, w.h) && w.e.advert.Searching?
    ensures var w' := WorldNext(cfg, w, RunAdvert); Taken(cfg, w'.e, w'.h)
  {
  }

  lemma SearchNumbers(cfg: Config, w: World)
    requires Numbers(w.e, w.h) && w.e.advert.Searching?
    ensures var w' := WorldNext(cfg, w, RunAdvert); Numbers(w'.e, w'.h) && (w'.e.advert.Deduping? ==> w.h.last < w'.h.last)
  {
    var found := Accepted(cfg, w.e.advert.start, w.e.advert.payload);
    if found.Some? {
      Advance(w.h.last, found.value);
      Append(w.h.casts, w.h.last, w.h.last + Distance(found.value, w.e.advert.start));
    }
  }

  lemma SearchKeeps(cfg: Config, w: World)
    requires Inv(cfg, w) && w.e.advert.Searching?
    ensures Inv(cfg, WorldNext(cfg, w, RunAdvert))
  {
    SearchTakes(cfg, w);
    SearchNumbers(cfg, w);
    SearchRest(cfg, w);
    SearchAsks(cfg, w);
  }

  lemma SearchRest(cfg: Config, w: World)
    requires Channel(cfg, w.e, w.h) && Polling(cfg, w.e, w.h) && Records(cfg, w.e, w.h) && w.e.advert.Searching?
    ensures var w' := WorldNext(cfg, w, RunAdvert); Channel(cfg, w'.e, w'.h) && Polling(cfg, w'.e, w'.h) && Records(cfg, w'.e, w'.h)
  {
    var w' := WorldNext(cfg, w, RunAdvert);
    ChannelFrame(cfg, w.e, w.h, w'.e, w'.h);
    PollingFrame(cfg, w.e, w.h, w'.e, w'.h);
    RecordsFrame(cfg, w.e, w.h, w'.e, w'.h);
  }

  lemma SearchAsks(cfg: Config, w: World)
    requires Asks(cfg, w.e, w.h) && AtMost(w.h.casts, w.h.last) && w.e.advert.Searching?
    requires var w' := WorldNext(cfg, w, RunAdvert); w'.e.advert.Deduping? ==> w.h.last < w'.h.last
    ensures var w' := WorldNext(cfg, w, RunAdvert); Asks(cfg, w'.e, w'.h)
  {
    AskedStays(cfg, w, WorldNext(cfg, w, RunAdvert));
  }

  /** One more dedup call: the map and the log go with it. */
  lemma RecordsKeep(cfg: Config, e: Engine, h: History, ask: Ask, e': Engine)
    requires Records(cfg, e, h)
    requires var (records, emit) := Dedup(e.emitted, ask.iid, Wrap(ask.number));
             && e'.emitted == records
             && e'.events == (if emit then e.events + [EventOf(cfg, ask)] else e.events)
    ensures Records(cfg, e', Asked(h, ask, Dedup(e.emitted, ask.iid, Wrap(ask.number)).1))
  {
    DedupFollows(e.emitted, h.asks, ask);
    var emit := Dedup(e.emitted, ask.iid, Wrap(ask.number)).1;
    var h' := Asked(h, ask, emit);
    var d, d' := DedupRun(Settle, h.asks), DedupRun(Settle, h'.asks);
    forall k | 0 <= k < |h'.asks| ensures d'.emitted[k] <==> k in h'.log {
      if k < |h.asks| { assert d'.emitted[k] == d.emitted[k]; }
    }
  }

  lemma CastTakes(cfg: Config, w: World)
    requires Taken(cfg, w.e, w.h) && w.e.advert.Deduping?
    ensures var w' := WorldNext(cfg, w, RunAdvert); Taken(cfg, w'.e, w'.h)
  {
    var ask := w.h.heard[|w.h.heard| - 1];
    OfAppend(w.h.asks, ask, true);
    OfAppend(w.h.asks, ask, false);
  }

  lemma CastFits(cfg: Config, w: World)
    requires Numbers(w.e, w.h) && Asks(cfg, w.e, w.h) && Taken(cfg, w.e, w.h) && w.e.advert.Deduping?
    ensures var w' := WorldNext(cfg, w, RunAdvert); Asks(cfg, w'.e, w'.h)
  {
    var (e, h) := (w.e, w.h);
    var w' := WorldNext(cfg, w, RunAdvert);
    var ask := h.heard[|h.heard| - 1];
    assert h.last in h.casts;
    forall k | 0 <= k < |w'.h.asks| ensures AskFits(cfg, w'.e, w'.h, w'.h.asks[k]) {
      if k < |h.asks| { assert AskFits(cfg, e, h, h.asks[k]); }
    }
    forall k | 0 <= k < |h.asks| ensures Apart(h.asks[k], ask) { assert AskFits(cfg, e, h, h.asks[k]); }
  }

  lemma CastRecords(cfg: Config, w: World)
    requires Numbers(w.e, w.h) && Records(cfg, w.e, w.h) && Taken(cfg, w.e, w.h) && w.e.advert.Deduping?
    ensures var w' := WorldNext(cfg, w, RunAdvert); Records(cfg, w'.e, w'.h)
  {
    RecordsKeep(cfg, w.e, w.h, w.h.heard[|w.h.heard| - 1], WorldNext(cfg, w, RunAdvert).e);
  }

  lemma CastRest(cfg: Config, w: World)
    requires Numbers(w.e, w.h) && Channel(cfg, w.e, w.h) && Polling(cfg, w.e, w.h) && w.e.advert.Deduping?
    ensures var w' := WorldNext(cfg, w, RunAdvert); Numbers(w'.e, w'.h) && Channel(cfg, w'.e, w'.h) && Polling(cfg, w'.e, w'.h)
  {
    var w' := WorldNext(cfg, w, RunAdvert);
    NumbersFrame(w.e, w.h, w'.e, w'.h);
    ChannelFrame(cfg, w.e, w.h, w'.e, w'.h);
    PollingFrame(cfg, w.e, w.h, w'.e, w'.h);
  }

  lemma CastKeeps(cfg: Config, w: World)
    requires Inv(cfg, w) && w.e.advert.Deduping?
    ensures Inv(cfg, WorldNext(cfg, w, RunAdvert))
  {
    CastTakes(cfg, w);
    CastFits(cfg, w);
    CastRecords(cfg, w);
    CastRest(cfg, w);
  }

  lemma WakeFits(cfg: Config, w: World, read: Option<bytes>)
    requires Numbers(w.e, w.h) && Channel(cfg, w.e, w.h) && Polling(cfg, w.e, w.h) && Asks(cfg, w.e, w.h) && w.e.poll.Waiting?
    ensures var w' := WorldNext(cfg, w, RunPoll(read)); Asks(cfg, w'.e, w'.h)
  {
    var w' := WorldNext(cfg, w, RunPoll(read));
    forall k | 0 <= k < |w'.h.asks| ensures AskFits(cfg, w'.e, w'.h, w'.h.asks[k]) {
      assert AskFits(cfg, w.e, w.h, w.h.asks[k]);
    }
  }

  lemma WakeRest(cfg: Config, w: World, read: Option<bytes>)
    requires Numbers(w.e, w.h) && Records(cfg, w.e, w.h) && Taken(cfg, w.e, w.h) && w.e.poll.Waiting?
    ensures var w' := WorldNext(cfg, w, RunPoll(read)); Numbers(w'.e, w'.h) && Records(cfg, w'.e, w'.h) && Taken(cfg, w'.e, w'.h)
  {
    var w' := WorldNext(cfg, w, RunPoll(read));
    NumbersFrame(w.e, w.h, w'.e, w'.h);
    RecordsFrame(cfg, w.e, w.h, w'.e, w'.h);
  }

  lemma WakeRounds(cfg: Config, w: World, read: Option<bytes>)
    requires Channel(cfg, w.e, w.h) && Polling(cfg, w.e, w.h) && w.e.poll.Waiting?
    ensures var w' := WorldNext(cfg, w, RunPoll(read)); Channel(cfg, w'.e, w'.h) && Polling(cfg, w'.e, w'.h)
  {
  }

  lemma WakeKeeps(cfg: Config, w: World, read: Option<bytes>)
    requires Inv(cfg, w) && w.e.poll.Waiting?
    ensures Inv(cfg, WorldNext(cfg, w, RunPoll(read)))
  {
    WakeFits(cfg, w, read);
    WakeRest(cfg, w, read);
    WakeRounds(cfg, w, read);
  }

  lemma ReadTakes(cfg: Config, w: World, read: Option<bytes>)
    requires Taken(cfg, w.e, w.h) && w.e.poll.Reading?
    ensures var w' := WorldNext(cfg, w, RunPoll(read)); Taken(cfg, w'.e, w'.h)
  {
    var w' := WorldNext(cfg, w, RunPoll(read));
    if w'.e.poll.Settling? {
      PullTaken(cfg, w.e, w.h, w'.e, w'.h);
    } else {
      NoneTaken(cfg, w.e, w.h, w'.e, w'.h);
    }
  }

  lemma PullTaken(cfg: Config, e: Engine, h: History, e': Engine, h': History)
    requires Taken(cfg, e, h) && !e.poll.Settling? && e'.advert == e.advert && e'.poll.Settling? && e'.poll.i < |cfg.targets|
    requires h'.pulls != [] && h'.pulls[..|h'.pulls| - 1] == h.pulls && h'.asks == h.asks && h'.heard == h.heard && h'.last == h.last
    requires LastTaken(cfg, h'.pulls, cfg.targets[e'.poll.i].aid, cfg.targets[e'.poll.i].iid, h'.polling, true, e'.poll.value)
    ensures Taken(cfg, e', h')
  {
    var n := |h'.pulls| - 1;
    assert h'.pulls == h'.pulls[..n] + [h'.pulls[n]];
  }

  lemma NoneTaken(cfg: Config, e: Engine, h: History, e': Engine, h': History)
    requires Taken(cfg, e, h) && !e.poll.Settling? && !e'.poll.Settling? && e'.advert == e.advert && h' == h
    ensures Taken(cfg, e', h')
  {
  }

  lemma ReadFits(cfg: Config, w: World, read: Option<bytes>)
    requires Asks(cfg, w.e, w.h) && w.e.poll.Reading?
    ensures var w' := WorldNext(cfg, w, RunPoll(read)); Asks(cfg, w'.e, w'.h)
  {
    var w' := WorldNext(cfg, w, RunPoll(read));
    forall k | 0 <= k < |w'.h.asks| ensures AskFits(cfg, w'.e, w'.h, w'.h.asks[k]) {
      assert AskFits(cfg, w.e, w.h, w.h.asks[k]);
    }
  }

  lemma ReadKeeps(cfg: Config, w: World, read: Option<bytes>)
    requires Inv(cfg, w) && w.e.poll.Reading?
    ensures Inv(cfg, WorldNext(cfg, w, RunPoll(read)))
  {
    ReadTakes(cfg, w, read);
    ReadFits(cfg, w, read);
    ReadRest(cfg, w, read);
  }

  lemma ReadRest(cfg: Config, w: World, read: Option<bytes>)
    requires Numbers(w.e, w.h) && Channel(cfg, w.e, w.h) && Polling(cfg, w.e, w.h) && Records(cfg, w.e, w.h) && w.e.poll.Reading?
    ensures var w' := WorldNext(cfg, w, RunPoll(read));
            Numbers(w'.e, w'.h) && Channel(cfg, w'.e, w'.h) && Polling(cfg, w'.e, w'.h) && Records(cfg, w'.e, w'.h)
  {
    var w' := WorldNext(cfg, w, RunPoll(read));
    NumbersFrame(w.e, w.h, w'.e, w'.h);
    ChannelFrame(cfg, w.e, w.h, w'.e, w'.h);
    PollingFrame(cfg, w.e, w.h, w'.e, w'.h);
    RecordsFrame(cfg, w.e, w.h, w'.e, w'.h);
  }

  lemma SettleTakes(cfg: Config, w: World, read: Option<bytes>)
    requires Taken(cfg, w.e, w.h) && w.e.poll.Settling?
    ensures var w' := WorldNext(cfg, w, RunPoll(read)); Taken(cfg, w'.e, w'.h)
  {
    var ask := w.h.pulls[|w.h.pulls| - 1];
    OfAppend(w.h.asks, ask, true);
    OfAppend(w.h.asks, ask, false);
  }

  lemma SettleFits(cfg: Config, w: World, read: Option<bytes>)
    requires Numbers(w.e, w.h) && Polling(cfg, w.e, w.h) && Asks(cfg, w.e, w.h) && Taken(cfg, w.e, w.h)
    requires w.e.poll.Settling? && DistinctTargets(cfg)
    ensures var w' := WorldNext(cfg, w, RunPoll(read)); Asks(cfg, w'.e, w'.h)
  {
    var (e, h) := (w.e, w.h);
    var w' := WorldNext(cfg, w, RunPoll(read));
    var ask := h.pulls[|h.pulls| - 1];
    assert h.polling in h.bumps;
    forall k | 0 <= k < |w'.h.asks| ensures AskFits(cfg, w'.e, w'.h, w'.h.asks[k]) {
      if k < |h.asks| { assert AskFits(cfg, e, h, h.asks[k]); }
    }
    forall k | 0 <= k < |h.asks| ensures Apart(h.asks[k], ask) { assert AskFits(cfg, e, h, h.asks[k]); }
  }

  lemma SettleRecords(cfg: Config, w: World, read: Option<bytes>)
    requires Polling(cfg, w.e, w.h) && Records(cfg, w.e, w.h) && Taken(cfg, w.e, w.h) && w.e.poll.Settling?
    ensures var w' := WorldNext(cfg, w, RunPoll(read)); Records(cfg, w'.e, w'.h)
  {
    RecordsKeep(cfg, w.e, w.h, w.h.pulls[|w.h.pulls| - 1], WorldNext(cfg, w, RunPoll(read)).e);
  }

  lemma SettleRest(cfg: Config, w: World, read: Option<bytes>)
    requires Numbers(w.e, w.h) && Channel(cfg, w.e, w.h) && Polling(cfg, w.e, w.h) && w.e.poll.Settling?
    ensures var w' := WorldNext(cfg, w, RunPoll(read)); Numbers(w'.e, w'.h) && Channel(cfg, w'.e, w'.h) && Polling(cfg, w'.e, w'.h)
  {
    var w' := WorldNext(cfg, w, RunPoll(read));
    NumbersFrame(w.e, w.h, w'.e, w'.h);
    ChannelFrame(cfg, w.e, w.h, w'.e, w'.h);
    PollingFrame(cfg, w.e, w.h, w'.e, w'.h);
  }

  lemma SettleKeeps(cfg: Config, w: World, read: Option<bytes>)
    requires Inv(cfg, w) && w.e.poll.Settling? && DistinctTargets(cfg)
    ensures Inv(cfg, WorldNext(cfg, w, RunPoll(read)))
  {
    SettleTakes(cfg, w, read);
    SettleFits(cfg, w, read);
    SettleRecords(cfg, w, read);
    SettleRest(cfg, w, read);
  }

  lemma StepKeeps(cfg: Config, w: World, step: Step)
    requires Inv(cfg, w) && DistinctTargets(cfg)
    ensures Inv(cfg, WorldNext(cfg, w, step))
    ensures WorldNext(cfg, w, step).h.last >= w.h.last
  {
    match step
    case Hear(advert) => HearKeeps(cfg, w, advert);
    case RunAdvert =>
      if w.e.advert.Sending? { SendKeeps(cfg, w); }
      else if w.e.advert.Searching? { SearchKeeps(cfg, w); }
      else if w.e.advert.Deduping? { CastKeeps(cfg, w); }
    case RunPoll(read) =>
      if w.e.poll.Waiting? { WakeKeeps(cfg, w, read); }
      else if w.e.poll.Reading? { ReadKeeps(cfg, w, read); }
      else { SettleKeeps(cfg, w, read); }
  }

  lemma {:induction false} RunKeeps(cfg: Config, w: World, steps: seq<Step>)
    requires Inv(cfg, w) && DistinctTargets(cfg)
    ensures Inv(cfg, Run(cfg, w, steps)) && Run(cfg, w, steps).h.last >= w.h.last
    decreases |steps|
  {
    if steps != [] {
      StepKeeps(cfg, w, steps[0]);
      RunKeeps(cfg, WorldNext(cfg, w, steps[0]), steps[1..]);
    }
  }

  // ---- What every run keeps ----

  /** Every state some run from arming reaches. */
  ghost predicate Reachable(cfg: Config, w: World)
  {
    exists initialGsn: u16, steps: seq<Step> :: w == Run(cfg, Start(initialGsn), steps)
  }

  lemma ReachableKeeps(cfg: Config, w: World)
    requires Reachable(cfg, w) && DistinctTargets(cfg)
    ensures Inv(cfg, w)
  {
    var initialGsn: u16, steps: seq<Step> :| w == Run(cfg, Start(initialGsn), steps);
    StartKeeps(cfg, initialGsn);
    RunKeeps(cfg, Start(initialGsn), steps);
  }

  lemma StartKeeps(cfg: Config, initialGsn: u16)
    ensures Inv(cfg, Start(initialGsn))
  {
  }

  /** Two events for one characteristic at one unwrapped state number. */
  ghost predicate Repeats(w: World)
  {
    exists j, k :: 0 <= j < k < |w.e.events| && SameEvent(w, j, k)
  }

  predicate SameEvent(w: World, j: nat, k: nat)
  {
    && j < |w.e.events| && k < |w.e.events| && |w.h.log| == |w.e.events|
    && w.h.log[j] < |w.h.asks| && w.h.log[k] < |w.h.asks|
    && w.e.events[j].iid == w.e.events[k].iid
    && w.h.asks[w.h.log[j]].number == w.h.asks[w.h.log[k]].number
  }

  /**
   * In every interleaving, across any number of wraps: no event repeats, `last_gsn` is the wrapped newest
   * number, and from here on that number only moves forward, each accepted advert taking a new larger one.
   */
  lemma EachEventOnce(cfg: Config, w: World, more: seq<Step>)
    requires Reachable(cfg, w) && DistinctTargets(cfg)
    ensures !Repeats(w)
    ensures Wrap(w.h.last) == w.e.lastGsn && w.h.last <= Run(cfg, w, more).h.last
    ensures Increasing(w.h.bumps) && Increasing(w.h.casts) && forall n: nat :: n in w.h.bumps ==> n !in w.h.casts
  {
    ReachableKeeps(cfg, w);
    RunKeeps(cfg, w, more);
    forall j, k | 0 <= j < k < |w.e.events| ensures !SameEvent(w, j, k) {
      assert Apart(w.h.asks[w.h.log[j]], w.h.asks[w.h.log[k]]);
    }
  }

  // ---- Nothing is suppressed but by a wrap ----

  lemma {:induction false} RecordWasAsked(asks: seq<Ask>, iid: nat)
    requires iid in DedupRun(Settle, asks).records
    ensures exists k :: 0 <= k < |asks| && asks[k].iid == iid && asks[k].number == DedupRun(Settle, asks).records[iid]
  {
    var n := |asks| - 1;
    var front := asks[..n];
    var before := DedupRun(Settle, front).records;
    var record := DedupRun(Settle, asks).records[iid];
    if iid in before && before[iid] == record {
      RecordWasAsked(front, iid);
      var k :| 0 <= k < |front| && front[k].iid == iid && front[k].number == before[iid];
      assert asks[k] == front[k];
    } else {
      assert asks[n].iid == iid && asks[n].number == record;
    }
  }

  /**
   * In a run, a dedup call is suppressed exactly when its characteristic's record is a different number,
   * 65536 or a multiple of it away.
   */
  lemma SuppressedOnlyByWrap(cfg: Config, w: World, step: Step)
    requires Reachable(cfg, w) && DistinctTargets(cfg)
    requires |WorldNext(cfg, w, step).h.asks| > |w.h.asks|
    ensures var w' := WorldNext(cfg, w, step);
            var ask := w'.h.asks[|w.h.asks|];
            var record := RecordOf(DedupRun(Settle, w.h.asks).records, ask.iid);
            && (w'.e.events == w.e.events <==> record.Some? && (ask.number - record.value) % WRAP == 0)
            && (record.Some? ==> ask.number != record.value)
  {
    AskOutcome(cfg, w, step);
    var asks, longer := w.h.asks, WorldNext(cfg, w, step).h.asks;
    AskIsNew(asks, longer);
    RecordCollides(DedupRun(Settle, asks).records, longer[|asks|]);
  }

  lemma RecordCollides(records: map<nat, nat>, ask: Ask)
    ensures ask.iid in records ==> (Wrap(records[ask.iid]) == Wrap(ask.number) <==> (ask.number - records[ask.iid]) % WRAP == 0)
  {
    if ask.iid in records { SameExactly(ask.number, records[ask.iid]); }
  }

  ghost predicate AllApart(asks: seq<Ask>)
  {
    forall j, k :: 0 <= j < k < |asks| ==> Apart(asks[j], asks[k])
  }

  lemma AskOutcome(cfg: Config, w: World, step: Step)
    requires Reachable(cfg, w) && DistinctTargets(cfg) && |WorldNext(cfg, w, step).h.asks| > |w.h.asks|
    ensures var w' := WorldNext(cfg, w, step);
            && |w'.h.asks| == |w.h.asks| + 1 && w'.h.asks[..|w.h.asks|] == w.h.asks && AllApart(w'.h.asks)
            && var ask := w'.h.asks[|w.h.asks|];
               var records := DedupRun(Settle, w.h.asks).records;
               (w'.e.events == w.e.events <==> ask.iid in records && Wrap(records[ask.iid]) == Wrap(ask.number))
  {
    ReachableKeeps(cfg, w);
    StepKeeps(cfg, w, step);
    AskVerdict(cfg, w, step);
  }

  lemma AskVerdict(cfg: Config, w: World, step: Step)
    requires Numbers(w.e, w.h) && Polling(cfg, w.e, w.h) && Records(cfg, w.e, w.h) && Taken(cfg, w.e, w.h)
    requires |WorldNext(cfg, w, step).h.asks| > |w.h.asks|
    ensures var w' := WorldNext(cfg, w, step);
            && |w'.h.asks| == |w.h.asks| + 1 && w'.h.asks[..|w.h.asks|] == w.h.asks
            && var ask := w'.h.asks[|w.h.asks|];
               var records := DedupRun(Settle, w.h.asks).records;
               (w'.e.events == w.e.events <==> ask.iid in records && Wrap(records[ask.iid]) == Wrap(ask.number))
  {
  }

  lemma AskIsNew(asks: seq<Ask>, longer: seq<Ask>)
    requires |longer| == |asks| + 1 && longer[..|asks|] == asks && AllApart(longer)
    ensures var ask := longer[|asks|];
            var records := DedupRun(Settle, asks).records;
            ask.iid in records ==> records[ask.iid] != ask.number
  {
    var ask := longer[|asks|];
    var records := DedupRun(Settle, asks).records;
    if ask.iid in records {
      RecordWasAsked(asks, ask.iid);
      var k :| 0 <= k < |asks| && asks[k].iid == ask.iid && asks[k].number == records[ask.iid];
      assert longer[k] == longer[..|asks|][k];
      assert Apart(longer[k], longer[|asks|]);
    }
  }

  /**
   * So while the calls stay within the window, the events are exactly the values read or decrypted: one per dedup
   * call, in the order of the calls, which for each task are the values it took, in order, up to one still to report.
   */
  lemma NothingLostWithinWindow(cfg: Config, w: World)
    requires Reachable(cfg, w) && DistinctTargets(cfg) && WithinWindow(Settle, w.h.asks)
    ensures |w.e.events| == |w.h.asks| && forall k :: 0 <= k < |w.h.asks| ==> w.e.events[k] == EventOf(cfg, w.h.asks[k])
    ensures w.h.pulls == Of(w.h.asks, true) + (if w.e.poll.Settling? && w.h.pulls != [] then [w.h.pulls[|w.h.pulls| - 1]] else [])
    ensures w.h.heard == Of(w.h.asks, false) + (if w.e.advert.Deduping? && w.h.heard != [] then [w.h.heard[|w.h.heard| - 1]] else [])
  {
    ReachableKeeps(cfg, w);
    AllEmitted(w.h.asks);
    IncreasingOnto(w.h.log, |w.h.asks|);
  }

  lemma {:induction false} AllEmitted(asks: seq<Ask>)
    requires WithinWindow(Settle, asks) && forall j, k :: 0 <= j < k < |asks| ==> Apart(asks[j], asks[k])
    ensures forall k :: 0 <= k < |asks| ==> DedupRun(Settle, asks).emitted[k]
  {
    if asks != [] {
      var n := |asks| - 1;
      AllEmitted(asks[..n]);
      RecordIsNewest(asks);
      if asks[n].iid in DedupRun(Settle, asks[..n]).records {
        RecordWasAsked(asks[..n], asks[n].iid);
      }
    }
  }

  /** An increasing sequence of all the numbers below `n` is the identity. */
  lemma {:induction false} IncreasingOnto(s: seq<nat>, n: nat)
    requires Increasing(s) && (forall i :: 0 <= i < |s| ==> s[i] < n) && (forall k: nat :: k < n ==> k in s)
    ensures |s| == n && forall i :: 0 <= i < n ==> s[i] == i
  {
    assert |s| > 0 ==> s[0] < n;
    if n > 0 {
      assert n - 1 in s;
      var last := |s| - 1;
      assert s[last] == n - 1;
      var front := s[..last];
      forall k: nat | k < n - 1 ensures k in front { assert k in s; }
      IncreasingOnto(front, n - 1);
    }
  }

  // ---- The poll task follows the bumps ----

  /**
   * Polled bumps are an in-order subsequence of the accepted ones; and when the poll task idles with no
   * unseen change, the last one polled is the last accepted, unless the advert task is about to send it.
   */
  lemma PollsFollowBumps(cfg: Config, w: World)
    requires Reachable(cfg, w) && DistinctTargets(cfg) && cfg.targets != []
    ensures Increasing(w.h.rounds) && forall k :: 0 <= k < |w.h.rounds| ==> 1 <= w.h.rounds[k] <= |w.h.bumps|
    ensures w.e.poll.Waiting? && w.e.seen == w.e.version && w.h.bumps != [] ==>
              (w.h.rounds != [] && w.h.rounds[|w.h.rounds| - 1] == |w.h.bumps| <==> !w.e.advert.Sending?)
  {
    ReachableKeeps(cfg, w);
  }

  /** How many of its own steps the poll task takes at most before it is back at the channel. */
  function Work(cfg: Config, poll: PollPc): nat
  {
    match poll
    case Waiting => 0
    case Reading(_, i) => if i < |cfg.targets| then 2 * (|cfg.targets| - i) else 1
    case Settling(_, i, _) => if i < |cfg.targets| then 2 * (|cfg.targets| - i) - 1 else 1
  }

  function PollSteps(steps: seq<Step>): nat
    decreases |steps|
  {
    if steps == [] then 0 else (if steps[0].RunPoll? then 1 else 0) + PollSteps(steps[1..])
  }

  /** A round has polled bump number `bump` (counted from 1) or a later one. */
  ghost predicate PolledFrom(w: World, bump: nat)
  {
    exists k :: 0 <= k < |w.h.rounds| && w.h.rounds[k] >= bump
  }

  lemma StepsPoll(cfg: Config, w: World, step: Step, bump: nat)
    requires Channel(cfg, w.e, w.h) && Polling(cfg, w.e, w.h) && 1 <= bump <= w.e.version
    ensures var w' := WorldNext(cfg, w, step);
            && bump <= w'.e.version
            && (PolledFrom(w, bump) ==> PolledFrom(w', bump))
            && (PolledFrom(w', bump) || (bump > w.e.seen && Work(cfg, w'.e.poll) + (if step.RunPoll? then 1 else 0) <= Work(cfg, w.e.poll)))
  {
    var w' := WorldNext(cfg, w, step);
    if PolledFrom(w, bump) {
      var k :| 0 <= k < |w.h.rounds| && w.h.rounds[k] >= bump;
      assert w'.h.rounds[k] == w.h.rounds[k];
    } else if step.RunPoll? && w.e.poll.Waiting? && w.e.seen < w.e.version {
      assert w'.h.rounds[|w.h.rounds|] == w.e.version;
    } else if w.e.seen > 0 {
      assert w.h.rounds[|w.h.rounds| - 1] == w.e.seen;
    }
  }

  lemma {:induction false} SentIsPolled(cfg: Config, w: World, steps: seq<Step>, bump: nat)
    requires Inv(cfg, w) && DistinctTargets(cfg) && 1 <= bump <= w.e.version
    requires PolledFrom(w, bump) || PollSteps(steps) > Work(cfg, w.e.poll)
    ensures PolledFrom(Run(cfg, w, steps), bump)
    decreases |steps|
  {
    if steps != [] {
      StepKeeps(cfg, w, steps[0]);
      StepsPoll(cfg, w, steps[0], bump);
      SentIsPolled(cfg, WorldNext(cfg, w, steps[0]), steps[1..], bump);
    }
  }

  lemma {:induction false} AcceptedIsSent(cfg: Config, w: World, steps: seq<Step>, bump: nat)
    requires Inv(cfg, w) && DistinctTargets(cfg) && cfg.targets != []
    requires bump <= w.e.version || (bump <= |w.h.bumps| && RunAdvert in steps)
    ensures Run(cfg, w, steps).e.version >= bump
    decreases |steps|
  {
    if steps != [] {
      StepKeeps(cfg, w, steps[0]);
      StepSends(cfg, w, steps[0]);
      assert steps == [steps[0]] + steps[1..];
      AcceptedIsSent(cfg, WorldNext(cfg, w, steps[0]), steps[1..], bump);
    }
  }

  lemma StepSends(cfg: Config, w: World, step: Step)
    requires Channel(cfg, w.e, w.h) && cfg.targets != []
    ensures var w' := WorldNext(cfg, w, step);
            && w'.e.version >= w.e.version && |w'.h.bumps| >= |w.h.bumps|
            && (step.RunAdvert? ==> w'.e.version >= |w.h.bumps|)
  {
  }

  /**
   * Every accepted bump is polled, itself or by a later round, in every continuation that gives the advert
   * task one step and then the poll task two steps per target and one more, whatever else happens between.
   */
  lemma EveryBumpIsPolled(cfg: Config, w: World, first: seq<Step>, then_: seq<Step>, bump: nat)
    requires Reachable(cfg, w) && DistinctTargets(cfg) && cfg.targets != []
    requires 1 <= bump <= |w.h.bumps| && RunAdvert in first && PollSteps(then_) > 2 * |cfg.targets|
    ensures PolledFrom(Run(cfg, Run(cfg, w, first), then_), bump)
  {
    ReachableKeeps(cfg, w);
    RunKeeps(cfg, w, first);
    AcceptedIsSent(cfg, w, first, bump);
    SentIsPolled(cfg, Run(cfg, w, first), then_, bump);
  }

  // ---- Exactly-once needs distinct poll targets ----

  lemma {:induction false} RunConcat(cfg: Config, w: World, xs: seq<Step>, ys: seq<Step>)
    ensures Run(cfg, w, xs + ys) == Run(cfg, Run(cfg, w, xs), ys)
    decreases |xs|
  {
    if xs == [] {
      assert xs + ys == ys;
    } else {
      assert (xs + ys)[0] == xs[0] && (xs + ys)[1..] == xs[1..] + ys;
      RunConcat(cfg, WorldNext(cfg, w, xs[0]), xs[1..], ys);
    }
  }

  lemma ReachNext(cfg: Config, w: World, step: Step)
    requires Reachable(cfg, w)
    ensures Reachable(cfg, WorldNext(cfg, w, step))
  {
    var initialGsn: u16, steps: seq<Step> :| w == Run(cfg, Start(initialGsn), steps);
    RunConcat(cfg, Start(initialGsn), steps, [step]);
    assert Run(cfg, w, [step]) == Run(cfg, WorldNext(cfg, w, step), []);
    assert WorldNext(cfg, w, step) == Run(cfg, Start(initialGsn), steps + [step]);
  }

  /** A round whose reads fail moves on without a trace. */
  lemma {:induction false} SkipTo(cfg: Config, w: World, i: nat)
    requires Reachable(cfg, w) && w.e.poll.Reading? && w.e.poll.i <= i < |cfg.targets|
    ensures Reachable(cfg, World(w.e.(poll := Reading(w.e.poll.gsn, i)), w.h))
    decreases i - w.e.poll.i
  {
    if w.e.poll.i < i {
      ReachNext(cfg, w, RunPoll(None));
      SkipTo(cfg, WorldNext(cfg, w, RunPoll(None)), i);
    } else {
      assert w == World(w.e.(poll := Reading(w.e.poll.gsn, i)), w.h);
    }
  }

  function PolledAsk(cfg: Config, i: nat): Ask
    requires i < |cfg.targets|
  {
    Ask(cfg.targets[i].aid, cfg.targets[i].iid, 1, true, [])
  }

  /** The poll task reads target `i` in round 1 and reports it, its record being 2 or none. */
  lemma PollEmits(cfg: Config, w: World, i: nat) returns (w': World)
    requires Reachable(cfg, w) && w.e.poll == Reading(1, i) && i < |cfg.targets| && w.h.polling == 1
    requires cfg.decode(cfg.targets[i].iid, []) == Some([])
    requires cfg.targets[i].iid in w.e.emitted ==> w.e.emitted[cfg.targets[i].iid] == 2
    ensures Reachable(cfg, w') && w'.e.poll == NextTarget(cfg, 1, i)
    ensures w'.e.events == w.e.events + [Event(cfg.targets[i].aid, cfg.targets[i].iid, [])]
    ensures w'.h == Asked(w.h.(pulls := w.h.pulls + [PolledAsk(cfg, i)]), PolledAsk(cfg, i), true)
    ensures w'.e.lastGsn == w.e.lastGsn && w'.e.advert == w.e.advert
    ensures w'.e.emitted == if cfg.targets[i].iid in w.e.emitted then w.e.emitted else w.e.emitted[cfg.targets[i].iid := 1]
  {
    ReachNext(cfg, w, RunPoll(Some([])));
    var settling := WorldNext(cfg, w, RunPoll(Some([])));
    assert !GsnIsNewer(1, 2);
    ReachNext(cfg, settling, RunPoll(None));
    w' := WorldNext(cfg, settling, RunPoll(None));
  }

  function CastText(iid: u16): bytes
  {
    Le16(2) + Le16(iid) + Zeros(8)
  }

  /** A setting in which any read succeeds and one broadcast, numbered 2, reports `iid`. */
  function Lively(targets: seq<Target>, iid: u16): Config
  {
    Config(targets, {iid}, (g: u16, p: bytes) => if g == 2 then Some(CastText(iid)) else None, (x: nat, b: bytes) => Some([]))
  }

  /** The broadcast is heard while the poll task is in the middle of round 1. */
  lemma CastEmits(targets: seq<Target>, iid: u16, w: World) returns (w': World)
    requires var cfg := Lively(targets, iid); Reachable(cfg, w)
    requires w.e.advert.Listening? && w.e.lastGsn == 1 && w.h.last == 1 && iid in w.e.emitted && w.e.emitted[iid] == 1
    ensures Reachable(Lively(targets, iid), w')
    ensures w'.e.poll == w.e.poll && w'.h.polling == w.h.polling && w'.e.emitted == w.e.emitted[iid := 2]
    ensures w'.e.events == w.e.events + [Event(1, iid, [])]
    ensures w'.h.asks == w.h.asks + [Ask(1, iid, 2, false, Zeros(8))] && w'.h.log == w.h.log + [|w.h.asks|]
  {
    var cfg := Lively(targets, iid);
    ReachNext(cfg, w, Hear(Notification(true, [])));
    var searching := WorldNext(cfg, w, Hear(Notification(true, [])));
    CastFound(cfg, targets, iid);
    ReachNext(cfg, searching, RunAdvert);
    var deduping := WorldNext(cfg, searching, RunAdvert);
    assert deduping.e.advert == Deduping(iid, 2, []) && deduping.h.last == 2;
    assert GsnIsNewer(2, 1);
    ReachNext(cfg, deduping, RunAdvert);
    w' := WorldNext(cfg, deduping, RunAdvert);
  }

  lemma CastFound(cfg: Config, targets: seq<Target>, iid: u16)
    requires cfg == Lively(targets, iid)
    ensures Accepted(cfg, 1, []) == Some(2) && Carried(cfg, CastText(iid), 2) == Deduping(iid, 2, []) && CastText(iid)[4..12] == Zeros(8)
  {
    assert CastText(iid)[..2] == Le16(2) && CastText(iid)[2..4] == Le16(iid) && CastText(iid)[4..12] == Zeros(8);
    assert Answers(Opener(cfg, []), 2);
    assert Candidates(1)[0] == 2;
    assert GsnIsNewer(2, 1);
  }

  /** The start of round 1, polling number 1. */
  lemma FirstRound(cfg: Config) returns (w: World)
    requires cfg.targets != []
    ensures Reachable(cfg, w)
    ensures w == World(Engine(1, 1, 1, 1, map[], Listening, Reading(1, 0), []), History(1, [1], [], 1, 1, [1], [], [], [], []))
  {
    w := Start(0);
    assert w == Run(cfg, Start(0), []);
    assert GsnIsNewer(1, 0);
    ReachNext(cfg, w, Hear(Regular(true, 1)));
    w := WorldNext(cfg, w, Hear(Regular(true, 1)));
    ReachNext(cfg, w, RunAdvert);
    w := WorldNext(cfg, w, RunAdvert);
    ReachNext(cfg, w, RunPoll(None));
    w := WorldNext(cfg, w, RunPoll(None));
  }

  /** A broadcast between the reads of two targets for one characteristic makes the second read repeat the first. */
  lemma DuplicateTargetRepeats(targets: seq<Target>, i: nat, j: nat) returns (cfg: Config, w: World)
    requires i < j < |targets| && targets[i].iid == targets[j].iid <= 0xFFFF
    ensures cfg.targets == targets && Reachable(cfg, w) && Repeats(w)
  {
    var iid: u16 := targets[i].iid;
    cfg := Lively(targets, iid);
    w := FirstRound(cfg);
    SkipTo(cfg, w, i);
    w := PollEmits(cfg, World(w.e.(poll := Reading(1, i)), w.h), i);
    w := CastEmits(targets, iid, w);
    SkipTo(cfg, w, j);
    w := PollEmits(cfg, World(w.e.(poll := Reading(1, j)), w.h), j);
    assert w.h.asks == [PolledAsk(cfg, i), Ask(1, iid, 2, false, Zeros(8)), PolledAsk(cfg, j)] && w.h.log == [0, 1, 2];
    assert SameEvent(w, 0, 2);
  }

  /** For any poll targets of a BLE accessory, events never repeat if and only if no characteristic is listed twice. */
  lemma OnceExactlyWhenDistinct(targets: seq<Target>)
    requires forall i :: 0 <= i < |targets| ==> targets[i].iid <= 0xFFFF
    ensures (forall i, j :: 0 <= i < j < |targets| ==> targets[i].iid != targets[j].iid) <==>
            (forall cfg: Config, w: World :: cfg.targets == targets && Reachable(cfg, w) ==> !Repeats(w))
  {
    if forall i, j :: 0 <= i < j < |targets| ==> targets[i].iid != targets[j].iid {
      forall cfg: Config, w: World | cfg.targets == targets && Reachable(cfg, w) ensures !Repeats(w) {
        EachEventOnce(cfg, w, []);
      }
    } else {
      var i, j :| 0 <= i < j < |targets| && targets[i].iid == targets[j].iid;
      var cfg, w := DuplicateTargetRepeats(targets, i, j);
    }
  }

  // ---- An event lost to a wrap ----

  /** One poll target that always decodes, and no broadcasts. */
  const LONE := Config([Target(1, 5)], {}, (g: u16, p: bytes) => None, (x: nat, b: bytes) => Some([]))

  ghost predicate AtRest(w: World, events: nat)
  {
    && Reachable(LONE, w) && w.e.advert.Listening? && w.e.poll.Waiting? && w.e.seen == w.e.version
    && Wrap(w.h.last) == w.e.lastGsn && |w.e.events| == events
  }

  /** A regular advert, its bump sent, and the poll task woken by it. */
  lemma BumpAndWake(w: World, gsn: u16, events: nat) returns (w': World)
    requires AtRest(w, events) && GsnIsNewer(gsn, w.e.lastGsn)
    ensures Reachable(LONE, w') && w'.h.last == w.h.last + Distance(gsn, w.e.lastGsn) == w'.h.polling && w'.e.lastGsn == gsn
    ensures w'.e.advert.Listening? && w'.e.poll == Reading(gsn, 0) && w'.e.seen == w'.e.version
    ensures w'.e.emitted == w.e.emitted && w'.h.asks == w.h.asks && w'.e.events == w.e.events
  {
    ReachNext(LONE, w, Hear(Regular(true, gsn)));
    w' := WorldNext(LONE, w, Hear(Regular(true, gsn)));
    ReachNext(LONE, w', RunAdvert);
    w' := WorldNext(LONE, w', RunAdvert);
    ReachNext(LONE, w', RunPoll(None));
    w' := WorldNext(LONE, w', RunPoll(None));
  }

  /** A bump whose read fails. */
  lemma BumpUnread(w: World, gsn: u16, events: nat) returns (w': World)
    requires AtRest(w, events) && GsnIsNewer(gsn, w.e.lastGsn)
    ensures AtRest(w', events) && w'.h.last == w.h.last + Distance(gsn, w.e.lastGsn) && w'.e.lastGsn == gsn
    ensures w'.e.emitted == w.e.emitted && w'.h.asks == w.h.asks
  {
    w' := BumpAndWake(w, gsn, events);
    Advance(w.h.last, gsn);
    ReachNext(LONE, w', RunPoll(None));
    w' := WorldNext(LONE, w', RunPoll(None));
  }

  /** A bump whose read succeeds, up to the report. */
  lemma BumpRead(w: World, gsn: u16, events: nat) returns (w': World)
    requires AtRest(w, events) && GsnIsNewer(gsn, w.e.lastGsn)
    ensures Reachable(LONE, w') && w'.e.poll == Settling(gsn, 0, []) && w'.e.advert.Listening? && w'.e.seen == w'.e.version
    ensures w'.h.last == w.h.last + Distance(gsn, w.e.lastGsn) && w'.e.lastGsn == gsn && Wrap(w'.h.last) == gsn
    ensures w'.e.emitted == w.e.emitted && w'.h.asks == w.h.asks && w'.e.events == w.e.events
    ensures w'.h.pulls != [] && w'.h.pulls[|w'.h.pulls| - 1] == Ask(1, 5, w'.h.last, true, [])
  {
    w' := BumpAndWake(w, gsn, events);
    Advance(w.h.last, gsn);
    ReachNext(LONE, w', RunPoll(Some([])));
    w' := WorldNext(LONE, w', RunPoll(Some([])));
  }

  /**
   * A reachable state whose next step is a dedup call, for a value read at number 65537, that is suppressed: the
   * record is the event of number 1, the numbers between having been accepted but not read.
   */
  lemma WrapLosesEvent() returns (w: World)
    ensures Reachable(LONE, w) && DistinctTargets(LONE)
    ensures var w' := WorldNext(LONE, w, RunPoll(None));
            && w'.h.asks == w.h.asks + [Ask(1, 5, 65537, true, [])] && w'.e.events == w.e.events
            && RecordOf(DedupRun(Settle, w.h.asks).records, 5) == Some(1)
  {
    w := Start(0);
    assert w == Run(LONE, Start(0), []);
    assert GsnIsNewer(1, 0) && GsnIsNewer(32768, 1) && GsnIsNewer(65535, 32768) && GsnIsNewer(1, 65535);
    w := BumpRead(w, 1, 0);
    ReachNext(LONE, w, RunPoll(None));
    w := WorldNext(LONE, w, RunPoll(None));
    assert w.h.asks == [Ask(1, 5, 1, true, [])] && w.e.emitted == map[5 := 1];
    w := BumpUnread(w, 32768, 1);
    w := BumpUnread(w, 65535, 1);
    w := BumpRead(w, 1, 1);
    assert w.h.last == 65537;
    FirstAskRecorded(Ask(1, 5, 1, true, []));
  }

  lemma FirstAskRecorded(ask: Ask)
    ensures RecordOf(DedupRun(Settle, [ask]).records, ask.iid) == Some(ask.number)
  {
    assert [ask][..0] == [];
  }
}
