/** What a sleeping accessory's watch reads, and what it makes of a broadcast, whatever comes of each. */
module SleepyReads {
  import opened Bytes
  import opened SleepyEvents
  import opened SleepyTasks

  type Stepper = (Engine, Step) -> Engine

  function StepperOf(cfg: Config): Stepper
  {
    (e: Engine, step: Step) => Next(cfg, e, step)
  }

  function Run(next: Stepper, e: Engine, steps: seq<Step>): Engine
    decreases |steps|
  {
    if steps == [] then e else Run(next, next(e, steps[0]), steps[1..])
  }

  /** The target a step reads, by its place in the list. */
  function ReadOf(e: Engine, step: Step): seq<nat>
  {
    if step.RunPoll? && e.poll.Reading? then [e.poll.i] else []
  }

  /** The targets read in a run, in order. */
  function Reads(next: Stepper, e: Engine, steps: seq<Step>): seq<nat>
    decreases |steps|
  {
    if steps == [] then [] else ReadOf(e, steps[0]) + Reads(next, next(e, steps[0]), steps[1..])
  }

  predicate Starts(e: Engine, step: Step)
  {
    step.RunPoll? && e.poll.Waiting? && e.seen < e.version
  }

  /** How many rounds a run starts. */
  function Rounds(next: Stepper, e: Engine, steps: seq<Step>): nat
    decreases |steps|
  {
    if steps == [] then 0 else (if Starts(e, steps[0]) then 1 else 0) + Rounds(next, next(e, steps[0]), steps[1..])
  }

  predicate Fits(n: nat, poll: PollPc)
  {
    poll.Waiting? || poll.i < n
  }

  /** The place of the next read, in this round or the next one. */
  function Place(n: nat, poll: PollPc): nat
  {
    match poll
    case Waiting => 0
    case Reading(_, i) => i
    case Settling(_, i, _) => if i + 1 < n then i + 1 else 0
  }

  /** How many reads the round has still to come. */
  function Left(n: nat, poll: PollPc): int
  {
    match poll
    case Waiting => 0
    case Reading(_, i) => n - i
    case Settling(_, i, _) => n - i - 1
  }

  /** A step reads the target whose turn it is, or none, and the turn passes only with a read. */
  ghost predicate TakesTurns(n: nat, next: Stepper)
  {
    forall e: Engine, step: Step :: Fits(n, e.poll) ==> TakesTurn(n, e, step, next(e, step).poll)
  }

  predicate TakesTurn(n: nat, e: Engine, step: Step, poll: PollPc)
  {
    && Fits(n, poll)
    && Place(n, poll) == (if ReadOf(e, step) == [] then Place(n, e.poll) else if e.poll.i + 1 < n then e.poll.i + 1 else 0)
    && Left(n, poll) == Left(n, e.poll) + (if Starts(e, step) then n else 0) - |ReadOf(e, step)|
  }

  lemma {:induction false} TasksTakeTurns(cfg: Config)
    requires cfg.targets != []
    ensures TakesTurns(|cfg.targets|, StepperOf(cfg))
  {
  }

  lemma {:induction false} ReadsInTurn(n: nat, next: Stepper, e: Engine, steps: seq<Step>, k: nat)
    requires n > 0 && TakesTurns(n, next) && Fits(n, e.poll) && k < |Reads(next, e, steps)|
    ensures Reads(next, e, steps)[k] == (Place(n, e.poll) + k) % n
    decreases |steps|
  {
    assert TakesTurn(n, e, steps[0], next(e, steps[0]).poll);
    if ReadOf(e, steps[0]) == [] {
      ReadsInTurn(n, next, next(e, steps[0]), steps[1..], k);
    } else if k > 0 {
      ReadsInTurn(n, next, next(e, steps[0]), steps[1..], k - 1);
      NextPlace(n, e.poll.i, k - 1);
    } else {
      ModUnique(e.poll.i, n, 0, e.poll.i);
    }
  }

  lemma {:induction false} NextPlace(n: nat, i: nat, k: nat)
    requires i < n
    ensures ((if i + 1 < n then i + 1 else 0) + k) % n == (i + (k + 1)) % n
  {
    if i + 1 == n {
      ModAdd(n, k, n);
      ModUnique(n, n, 1, 0);
    }
  }

  lemma {:induction false} ReadsCount(n: nat, next: Stepper, e: Engine, steps: seq<Step>)
    requires TakesTurns(n, next) && Fits(n, e.poll)
    ensures |Reads(next, e, steps)| == Left(n, e.poll) + Rounds(next, e, steps) * n - Left(n, Run(next, e, steps).poll)
    decreases |steps|
  {
    if steps != [] {
      assert TakesTurn(n, e, steps[0], next(e, steps[0]).poll);
      ReadsCount(n, next, next(e, steps[0]), steps[1..]);
      OneMore(Rounds(next, next(e, steps[0]), steps[1..]), n);
    }
  }

  lemma OneMore(m: nat, n: nat)
    ensures (1 + m) * n == n + m * n
  {
  }

  /**
   * In every run of the two tasks, whatever each read and each decoding gives: the poll task reads the targets in
   * turn, read number `k` being of target `k` modulo their number; and the rounds started account for every read but
   * those the last one has still to come. So a round reads every target once, in order.
   */
  lemma {:induction false} RoundsReadEveryTarget(cfg: Config, initialGsn: u16, steps: seq<Step>)
    requires cfg.targets != []
    ensures var places := Reads(StepperOf(cfg), Armed(initialGsn), steps);
            && (forall k :: 0 <= k < |places| ==> places[k] == k % |cfg.targets|)
            && Rounds(StepperOf(cfg), Armed(initialGsn), steps) * |cfg.targets|
               == |places| + Left(|cfg.targets|, Run(StepperOf(cfg), Armed(initialGsn), steps).poll)
  {
    var e, next := Armed(initialGsn), StepperOf(cfg);
    TasksTakeTurns(cfg);
    forall k | 0 <= k < |Reads(next, e, steps)| ensures Reads(next, e, steps)[k] == k % |cfg.targets| {
      ReadsInTurn(|cfg.targets|, next, e, steps, k);
    }
    ReadsCount(|cfg.targets|, next, e, steps);
  }

  // ---- Broadcasts ----

  /** Only an advert of the watched accessory is looked at, and only while the advert task listens. */
  lemma {:induction false} ForeignIsIgnored(e: Engine, advert: Advert)
    requires advert.Foreign? || !advert.ours || !e.advert.Listening?
    ensures OnAdvert(e, advert) == e
  {
  }

  /**
   * A broadcast whose text opens at an accepted number: `last_gsn` moves there, and then an event comes out exactly if
   * the characteristic, bytes 2 and 3, has a known format, the value, bytes 4 to 11, decodes, and the pair of
   * characteristic and number was not the last one reported; it carries accessory 1, that characteristic and value.
   */
  lemma {:induction false} BroadcastReported(cfg: Config, e: Engine, gsn: u16, pt: bytes, iid: nat)
    requires e.advert.Searching? && Accepted(cfg, e.advert.start, e.advert.payload) == Some(gsn) && cfg.open(gsn, e.advert.payload) == Some(pt)
    requires |pt| >= 12 && iid == (pt[2] as int) + 256 * (pt[3] as int)
    ensures var next := AdvertGo(cfg, AdvertGo(cfg, e));
            var value := cfg.decode(iid, pt[4..12]);
            && next.lastGsn == gsn && next.advert.Listening? && next.poll == e.poll && next.channel == e.channel && next.version == e.version
            && next.events == e.events + (if iid in cfg.formats && value.Some? && !(iid in e.emitted && e.emitted[iid] == gsn)
                                          then [Event(1, iid, value.value)] else [])
  {
    assert FromLe16(pt[2..4]) == iid;
  }
}
