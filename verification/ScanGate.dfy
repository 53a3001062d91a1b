/** The radio gate between connects and the advert scan, with any number of pausers and one scan task. */
module ScanGate {

  /** A call of `pause` and the guard it returns. `Acquired` holds the permit, `Releasing` has dropped all but that. */
  datatype Pauser = Idle | WaitLock | Acquired | AckWait | Holding(acked: bool) | Releasing

  /** The scan task, by what it does next. `Stopping` still has its stream; `Stopped` has only to say so. */
  datatype Scanner =
    | Unborn
    | Check
    | HoldOff
    | Starting
    | Started
    | Live
    | Changed
    | Stopping(forPause: bool)
    | Stopped(forPause: bool)
    | Done

  datatype State = State(
    pausers: seq<Pauser>,
    locked: bool,
    paused: bool,
    version: nat,
    scanning: bool,
    scanner: Scanner,
    seen: nat)

  function Pausing(s: State, p: nat, next: Pauser): State
  {
    if p < |s.pausers| then s.(pausers := s.pausers[p := next]) else s
  }

  function SendPause(s: State, value: bool): State
  {
    s.(paused := value, version := s.version + 1)
  }

  /** What a pauser may do: a timeout or a cancellation can come at any wait. */
  datatype Move = Enter | TakeLock | Request | Ack | Timeout | Cancel | DropGuard | Release

  function PauserStep(s: State, p: nat, move: Move): State
  {
    if p >= |s.pausers| then s
    else
      match (s.pausers[p], move)
      case (Idle, Enter) => Pausing(s, p, WaitLock)
      case (WaitLock, TakeLock) => if s.locked then s else Pausing(s.(locked := true), p, Acquired)
      case (WaitLock, Cancel) => Pausing(s, p, Idle)
      case (Acquired, Request) => Pausing(SendPause(s, true), p, AckWait)
      case (AckWait, Ack) => if s.scanning then s else Pausing(s, p, Holding(true))
      case (AckWait, Timeout) => Pausing(s, p, Holding(false))
      case (AckWait, Cancel) => Pausing(SendPause(s, false), p, Releasing)
      case (Holding(_), DropGuard) => Pausing(SendPause(s, false), p, Releasing)
      case (Releasing, Release) => Pausing(s.(locked := false), p, Idle)
      case _ => s
  }

  /** What the adapter answers: a scan starts or not, and a live one goes on, ends, or loses its reader. */
  function ScannerStep(s: State, ok: bool): State
  {
    match s.scanner
    case Unborn => s.(seen := s.version, scanner := Check)
    case Check => s.(seen := s.version, scanner := if s.paused then HoldOff else Starting)
    case HoldOff => if s.seen < s.version then s.(seen := s.version, scanner := Check) else s
    case Starting => s.(scanner := if ok then Started else Done)
    case Started => s.(scanning := true, scanner := Live)
    case Live =>
      if !ok then s.(scanner := Stopping(false))
      else if s.seen < s.version then s.(seen := s.version, scanner := Changed)
      else s
    case Changed => s.(seen := s.version, scanner := if s.paused then Stopping(true) else Live)
    case Stopping(forPause) => s.(scanner := Stopped(forPause))
    case Stopped(forPause) => s.(scanning := false, scanner := if forPause then Check else Done)
    case Done => s
  }

  datatype Step = PauserMoves(p: nat, move: Move) | ScannerMoves(ok: bool)

  function Next(s: State, step: Step): State
  {
    match step
    case PauserMoves(p, move) => PauserStep(s, p, move)
    case ScannerMoves(ok) => ScannerStep(s, ok)
  }

  function Run(s: State, steps: seq<Step>): State
    decreases |steps|
  {
    if steps == [] then s else Run(Next(s, steps[0]), steps[1..])
  }

  function Fresh(n: nat): State
  {
    State(seq(n, _ => Idle), false, false, 0, false, Unborn, 0)
  }

  // ---- The same steps on the shared gate ----

  class Gate {
    var pausers: seq<Pauser>
    var locked: bool
    var paused: bool
    var version: nat
    var scanning: bool
    var scanner: Scanner
    var seen: nat

    ghost function Model(): State
      reads this
    {
      State(pausers, locked, paused, version, scanning, scanner, seen)
    }

    constructor (n: nat)
      ensures Model() == Fresh(n)
    {
      pausers := seq(n, _ => Idle);
      locked, paused, version, scanning := false, false, 0, false;
      scanner, seen := Unborn, 0;
    }

    method SendReplace(value: bool)
      modifies this`paused, this`version
      ensures Model() == SendPause(old(Model()), value)
    {
      paused := value;
      version := version + 1;
    }

    method Pause(p: nat, move: Move)
      modifies this`pausers, this`locked, this`paused, this`version
      ensures Model() == PauserStep(old(Model()), p, move)
    {
      if p >= |pausers| { return; }
      match pausers[p]
      case Idle =>
        if move.Enter? { pausers := pausers[p := WaitLock]; }
      case WaitLock =>
        if move.TakeLock? && !locked {
          locked := true;
          pausers := pausers[p := Acquired];
        } else if move.Cancel? {
          pausers := pausers[p := Idle];
        }
      case Acquired =>
        if move.Request? {
          SendReplace(true);
          pausers := pausers[p := AckWait];
        }
      case AckWait =>
        if move.Ack? && !scanning {
          pausers := pausers[p := Holding(true)];
        } else if move.Timeout? {
          pausers := pausers[p := Holding(false)];
        } else if move.Cancel? {
          SendReplace(false);
          pausers := pausers[p := Releasing];
        }
      case Holding(_) =>
        if move.DropGuard? {
          SendReplace(false);
          pausers := pausers[p := Releasing];
        }
      case Releasing =>
        if move.Release? {
          locked := false;
          pausers := pausers[p := Idle];
        }
    }

    method Scan(ok: bool)
      modifies this`scanning, this`scanner, this`seen
      ensures Model() == ScannerStep(old(Model()), ok)
    {
      match scanner
      case Unborn =>
        seen := version;
        scanner := Check;
      case Check =>
        seen := version;
        scanner := if paused then HoldOff else Starting;
      case HoldOff =>
        if seen < version {
          seen := version;
          scanner := Check;
        }
      case Starting =>
        scanner := if ok then Started else Done;
      case Started =>
        scanning := true;
        scanner := Live;
      case Live =>
        if !ok {
          scanner := Stopping(false);
        } else if seen < version {
          seen := version;
          scanner := Changed;
        }
      case Changed =>
        seen := version;
        scanner := if paused then Stopping(true) else Live;
      case Stopping(forPause) =>
        scanner := Stopped(forPause);
      case Stopped(forPause) =>
        scanning := false;
        scanner := if forPause then Check else Done;
      case Done =>
    }
  }

  // ---- What every run keeps ----

  predicate HasPermit(p: Pauser)
  {
    p.Acquired? || p.AckWait? || p.Holding? || p.Releasing?
  }

  /** Between the pause request and the drop of the guard. */
  predicate Owns(p: Pauser)
  {
    p.AckWait? || p.Holding?
  }

  /** A scan stream exists. */
  predicate ScanLive(s: Scanner)
  {
    s.Started? || s.Live? || s.Changed? || s.Stopping?
  }

  ghost predicate OneHolder(s: State)
  {
    && (forall p, q :: 0 <= p < |s.pausers| && 0 <= q < |s.pausers| && HasPermit(s.pausers[p]) && HasPermit(s.pausers[q]) ==> p == q)
    && (s.locked <==> exists p :: 0 <= p < |s.pausers| && HasPermit(s.pausers[p]))
  }

  ghost predicate PausedByOwner(s: State)
  {
    s.paused <==> exists p :: 0 <= p < |s.pausers| && Owns(s.pausers[p])
  }

  ghost predicate ScannerInv(s: State)
  {
    && s.seen <= s.version
    && (s.scanning <==> s.scanner.Live? || s.scanner.Changed? || s.scanner.Stopping? || s.scanner.Stopped?)
    && ((s.scanner.Starting? || s.scanner.Started? || s.scanner.Live?) && s.paused ==> s.seen < s.version)
    && (s.scanner.HoldOff? && !s.paused ==> s.seen < s.version)
  }

  ghost predicate Inv(s: State)
  {
    OneHolder(s) && PausedByOwner(s) && ScannerInv(s)
  }

  /** One pauser changes its state while it is the only one that may hold the permit. */
  lemma HolderMoves(s: State, p: nat, s': State)
    requires OneHolder(s) && PausedByOwner(s) && p < |s.pausers| == |s'.pausers|
    requires s'.pausers == s.pausers[p := s'.pausers[p]]
    requires HasPermit(s.pausers[p]) || !s.locked || s'.pausers[p] in {Idle, WaitLock}
    requires s'.locked == (if HasPermit(s.pausers[p]) || HasPermit(s'.pausers[p]) then HasPermit(s'.pausers[p]) else s.locked)
    requires s'.paused == (if Owns(s.pausers[p]) || Owns(s'.pausers[p]) then Owns(s'.pausers[p]) else s.paused)
    ensures OneHolder(s') && PausedByOwner(s')
  {
    forall q | 0 <= q < |s.pausers| && q != p ensures s'.pausers[q] == s.pausers[q] { }
    if s.locked {
      var h :| 0 <= h < |s.pausers| && HasPermit(s.pausers[h]);
      if h != p { assert HasPermit(s'.pausers[h]); }
    }
    if s.paused {
      var o :| 0 <= o < |s.pausers| && Owns(s.pausers[o]);
      if o != p { assert Owns(s'.pausers[o]); }
    }
    if HasPermit(s'.pausers[p]) { assert s'.locked; }
  }

  lemma PauserKeeps(s: State, p: nat, move: Move)
    requires Inv(s)
    ensures Inv(PauserStep(s, p, move))
  {
    var s' := PauserStep(s, p, move);
    if s' != s {
      assert s'.pausers == s.pausers[p := s'.pausers[p]];
      HolderMoves(s, p, s');
    }
  }

  lemma {:induction false} RunKeeps(s: State, steps: seq<Step>)
    requires Inv(s)
    ensures Inv(Run(s, steps))
    decreases |steps|
  {
    if steps != [] {
      if steps[0].PauserMoves? { PauserKeeps(s, steps[0].p, steps[0].move); }
      RunKeeps(Next(s, steps[0]), steps[1..]);
    }
  }

  /**
   * In every run: the pause flag is up exactly while one pauser, and no other, is between its request and
   * its guard's drop; a scan starting or live while paused has an unseen pause change to notice, unless it
   * is looking at the flag right now; and a scan held off while not paused has one to wake it.
   */
  lemma PauseFlagIsOwned(n: nat, steps: seq<Step>)
    ensures var s := Run(Fresh(n), steps);
            && (s.paused <==> exists p :: 0 <= p < |s.pausers| && Owns(s.pausers[p]))
            && (forall p, q :: 0 <= p < |s.pausers| && 0 <= q < |s.pausers| && Owns(s.pausers[p]) && Owns(s.pausers[q]) ==> p == q)
            && (s.paused && (s.scanner.Starting? || s.scanner.Started? || s.scanner.Live?) ==> s.seen < s.version)
            && (!s.paused && s.scanner.HoldOff? ==> s.seen < s.version)
  {
    RunKeeps(Fresh(n), steps);
  }

  // ---- What an acknowledgement is worth ----

  predicate MidStart(s: Scanner)
  {
    s.Starting? || s.Started?
  }

  predicate Keeps(p: nat, steps: seq<Step>)
  {
    PauserMoves(p, DropGuard) !in steps
  }

  /** The holder keeps its guard and the scan task is not on its way to a scan. */
  ghost predicate Quiet(s: State, p: nat)
  {
    && Inv(s) && p < |s.pausers| && s.pausers[p].Holding?
    && (s.scanner.Unborn? || s.scanner.Check? || s.scanner.HoldOff? || s.scanner.Done?)
  }

  lemma QuietStep(s: State, p: nat, step: Step)
    requires Quiet(s, p) && step != PauserMoves(p, DropGuard)
    ensures Quiet(Next(s, step), p)
  {
    assert Owns(s.pausers[p]) && HasPermit(s.pausers[p]);
    if step.PauserMoves? {
      PauserKeeps(s, step.p, step.move);
      if step.p != p && step.p < |s.pausers| { assert !HasPermit(s.pausers[step.p]); }
    }
  }

  lemma {:induction false} QuietRun(s: State, p: nat, steps: seq<Step>)
    requires Quiet(s, p) && Keeps(p, steps)
    ensures Quiet(Run(s, steps), p)
    decreases |steps|
  {
    if steps != [] {
      QuietStep(s, p, steps[0]);
      QuietRun(Next(s, steps[0]), p, steps[1..]);
    }
  }

  /**
   * When `pause` returns on the scanner's word, no scan is live until that guard drops, whatever the others
   * do, if and only if the scan task was not in the middle of starting one.
   */
  lemma AckIsQuietExactly(n: nat, steps: seq<Step>, p: nat)
    requires var s := Run(Fresh(n), steps);
             p < |s.pausers| && s.pausers[p].AckWait? && !s.scanning
    ensures var s := Next(Run(Fresh(n), steps), PauserMoves(p, Ack));
            && s.pausers[p] == Holding(true)
            && (!MidStart(s.scanner) <==> forall more :: Keeps(p, more) ==> !ScanLive(Run(s, more).scanner))
  {
    var before := Run(Fresh(n), steps);
    RunKeeps(Fresh(n), steps);
    PauserKeeps(before, p, Ack);
    var s := Next(before, PauserMoves(p, Ack));
    if !MidStart(s.scanner) {
      forall more | Keeps(p, more) ensures !ScanLive(Run(s, more).scanner) {
        QuietRun(s, p, more);
      }
    } else {
      var more := [ScannerMoves(true)];
      assert Keeps(p, more) && Run(s, more) == Run(Next(s, more[0]), []);
      assert ScanLive(Run(s, more).scanner);
    }
  }

  // ---- The scan comes back ----

  /** The scan task is over, or about to be. */
  predicate Ending(s: Scanner)
  {
    s.Done? || s == Stopping(false) || s == Stopped(false)
  }

  function Scans(n: nat): seq<Step>
  {
    seq(n, _ => ScannerMoves(true))
  }

  lemma {:induction false} ScanSteps(s: State, n: nat)
    ensures Run(s, Scans(n)) == if n == 0 then s else Run(ScannerStep(s, true), Scans(n - 1))
  {
    if n > 0 { assert Scans(n)[0] == ScannerMoves(true) && Scans(n)[1..] == Scans(n - 1); }
  }

  /** How many steps a scan is from being live with nothing unseen, while the flag is down. */
  function Away(s: State): nat
  {
    match s.scanner
    case Live => if s.seen == s.version then 0 else 2
    case Changed => 1
    case Started => if s.seen == s.version then 1 else 3
    case Starting => if s.seen == s.version then 2 else 4
    case Check => 3
    case HoldOff => 4
    case Unborn => 4
    case Stopped(_) => 4
    case Stopping(_) => 5
    case Done => 0
  }

  ghost predicate ComesBack(s: State)
  {
    ScannerInv(s) && !s.paused && !Ending(s.scanner)
  }

  lemma {:induction false} ScanStepNearer(s: State)
    requires ComesBack(s)
    ensures ComesBack(ScannerStep(s, true)) && Away(ScannerStep(s, true)) == if Away(s) == 0 then 0 else Away(s) - 1
  {
  }

  lemma {:induction false} Resumes(s: State, n: nat)
    requires ComesBack(s) && Away(s) <= n
    ensures var t := Run(s, Scans(n)); t.scanner.Live? && t.scanning && t.seen == t.version
    decreases n
  {
    ScanSteps(s, n);
    if n > 0 {
      ScanStepNearer(s);
      Resumes(ScannerStep(s, true), n - 1);
    }
  }

  /**
   * From every reachable state in which the pause flag is down and the scan task is neither over nor stopping for
   * good, five steps of it bring the scan back, or keep it: live and reported so. A held-off scan wakes by itself.
   */
  lemma {:induction false} ScanResumes(n: nat, steps: seq<Step>)
    requires var s := Run(Fresh(n), steps); !s.paused && !Ending(s.scanner)
    ensures var s := Run(Run(Fresh(n), steps), Scans(5)); s.scanner.Live? && s.scanning && s.seen == s.version
  {
    RunKeeps(Fresh(n), steps);
    Resumes(Run(Fresh(n), steps), 5);
  }

  // ---- A pause comes through, and ends ----

  /**
   * In every run, a pauser that finds the lock free holds its guard after three moves of its own at most, the scan
   * asked to pause, whether or not the scan task answers: at once if no scan is live, by the timeout otherwise.
   */
  lemma {:induction false} PauseComesThrough(n: nat, steps: seq<Step>, p: nat)
    requires var s := Run(Fresh(n), steps); p < |s.pausers| && s.pausers[p].WaitLock? && !s.locked
    ensures var s := Run(Fresh(n), steps);
            var asked := Next(Next(s, PauserMoves(p, TakeLock)), PauserMoves(p, Request));
            && asked == s.(locked := true, paused := true, version := s.version + 1, pausers := s.pausers[p := AckWait])
            && Next(asked, PauserMoves(p, Timeout)) == asked.(pausers := s.pausers[p := Holding(false)])
            && Next(asked, PauserMoves(p, Ack)) == if s.scanning then asked else asked.(pausers := s.pausers[p := Holding(true)])
  {
    var s := Run(Fresh(n), steps);
    assert s.pausers[p := Acquired][p := AckWait] == s.pausers[p := AckWait];
    assert s.pausers[p := AckWait][p := Holding(false)] == s.pausers[p := Holding(false)];
    assert s.pausers[p := AckWait][p := Holding(true)] == s.pausers[p := Holding(true)];
  }

  /** A pauser that drops its guard, or is cancelled while it waits for the answer, is gone: the flag down, the scan told, the lock free. */
  lemma {:induction false} PauseEnds(s: State, p: nat, move: Move)
    requires p < |s.pausers|
    requires (s.pausers[p].Holding? && move == DropGuard) || (s.pausers[p].AckWait? && move == Cancel)
    ensures Next(Next(s, PauserMoves(p, move)), PauserMoves(p, Release))
         == s.(paused := false, version := s.version + 1, locked := false, pausers := s.pausers[p := Idle])
  {
    assert s.pausers[p := Releasing][p := Idle] == s.pausers[p := Idle];
  }

  /** A pauser that still waits for the lock can go, and leaves everything as it was. */
  lemma {:induction false} WaiterGoes(s: State, p: nat)
    requires p < |s.pausers| && s.pausers[p].WaitLock?
    ensures Next(s, PauserMoves(p, Cancel)) == s.(pausers := s.pausers[p := Idle])
  {
  }

  // ---- The scan ends ----

  /** A step in which a scan fails to start, or the stream of a live one ends. */
  predicate Fails(s: State, step: Step)
  {
    step == ScannerMoves(false) && (s.scanner.Starting? || s.scanner.Live?)
  }

  /** Whether such a step was taken. */
  predicate Failed(s: State, steps: seq<Step>)
    decreases |steps|
  {
    steps != [] && (Fails(s, steps[0]) || Failed(Next(s, steps[0]), steps[1..]))
  }

  lemma {:induction false} EndsExactly(s: State, steps: seq<Step>)
    ensures Ending(Run(s, steps).scanner) <==> Ending(s.scanner) || Failed(s, steps)
    decreases |steps|
  {
    if steps != [] {
      EndStep(s, steps[0]);
      EndsExactly(Next(s, steps[0]), steps[1..]);
    }
  }

  lemma {:induction false} EndStep(s: State, step: Step)
    ensures Ending(Next(s, step).scanner) <==> Ending(s.scanner) || Fails(s, step)
  {
  }

  /** In every run, the scan task is over, or about to be, if and only if a scan failed to start or a stream ended. */
  lemma {:induction false} EndsByFailureExactly(n: nat, steps: seq<Step>)
    ensures Ending(Run(Fresh(n), steps).scanner) <==> Failed(Fresh(n), steps)
  {
    EndsExactly(Fresh(n), steps);
  }

  /** Two more steps of a task that is about to be over, and it is, the scan reported gone; and so it stays. */
  lemma {:induction false} EndingEnds(n: nat, steps: seq<Step>, ok: bool)
    requires Ending(Run(Fresh(n), steps).scanner)
    ensures var s := ScannerStep(ScannerStep(Run(Fresh(n), steps), ok), ok);
            s.scanner.Done? && !s.scanning && ScannerStep(s, ok) == s
  {
    RunKeeps(Fresh(n), steps);
  }
}
