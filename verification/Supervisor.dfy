/** The self-healing IP session: one supervisor task and any number of foreground requests. */
module Supervisor {
  import opened Bytes

  type Id = (nat, nat)

  /** The supervisor, by what it does next. Sessions are numbered as they are minted; 0 is the first. */
  datatype Task =
    | Draining
    | Reconnecting
    | Snapshotting(session: nat)
    | Resubscribing(session: nat, todo: seq<Id>)

  /** What a foreground request is for: `subscribe` and `unsubscribe` record their id once they are answered. */
  datatype Purpose = Plain | Subscribes(id: Id) | Unsubscribes(id: Id)

  /** A foreground request and the sessions it has been sent to. A confirmed one has its id still to record. */
  datatype Request = Unsent | First(session: nat) | AwaitFresh(dead: nat) | Second(dead: nat, session: nat) | Confirmed | Finished

  /** A request as a session sees it: a subscribe from the supervisor, or a foreground request. */
  datatype Sent = Resubscribe(session: nat, id: Id) | Foreground(session: nat, request: nat)

  /**
   * The shared state and the history of a run: `configs` since the last refetch, what the supervisor
   * saw subscribed when it prepared each session, and every request sent.
   */
  datatype State = State(
    current: nat,
    minted: nat,
    task: Task,
    subscribed: set<Id>,
    lastConfig: Option<nat>,
    needsRefresh: bool,
    configs: seq<nat>,
    purposes: seq<Purpose>,
    requests: seq<Request>,
    snapshots: map<nat, set<Id>>,
    log: seq<Sent>)

  // ---- The supervisor task ----

  datatype Event = Died | ReconnectFailed | Reconnected(config: Option<nat>) | Snapshot(order: seq<Id>) | Advance

  function Elements(order: seq<Id>): set<Id>
  {
    set i | 0 <= i < |order| :: order[i]
  }

  /** A config number that differs from the last known one asks for a refresh. */
  function Refreshed(s: State, config: Option<nat>): State
  {
    match config
    case None => s
    case Some(c) =>
      s.(lastConfig := Some(c), configs := s.configs + [c],
         needsRefresh := s.needsRefresh || (s.lastConfig.Some? && s.lastConfig.value != c))
  }

  function TaskStep(s: State, event: Event): State
  {
    match (s.task, event)
    case (Draining, Died) => s.(task := Reconnecting)
    case (Reconnecting, Reconnected(config)) => Refreshed(s, config).(minted := s.minted + 1, task := Snapshotting(s.minted))
    case (Snapshotting(session), Snapshot(order)) =>
      if Elements(order) == s.subscribed
      then s.(task := Resubscribing(session, order), snapshots := s.snapshots[session := s.subscribed])
      else s
    case (Resubscribing(session, todo), Advance) =>
      if todo == [] then s.(current := session, task := Draining)
      else s.(task := Resubscribing(session, todo[1..]), log := s.log + [Resubscribe(session, todo[0])])
    case _ => s
  }

  // ---- Foreground requests ----

  /** How a wait of a request ends: an answer, good or not, a dead session, the request timeout, a new session, or giving up. */
  datatype Outcome = Begin | Answered(ok: bool) | Dead | TimedOut | Woken | GaveUp

  function PurposeOf(s: State, r: nat): Purpose
  {
    if r < |s.purposes| then s.purposes[r] else Plain
  }

  /** Where a good or bad answer leaves a request. */
  function AfterAnswer(s: State, r: nat, ok: bool): Request
  {
    if ok && !PurposeOf(s, r).Plain? then Confirmed else Finished
  }

  function SendTo(s: State, r: nat, request: Request, session: nat): State
    requires r < |s.requests|
  {
    s.(requests := s.requests[r := request], log := s.log + [Foreground(session, r)])
  }

  function RequestStep(s: State, r: nat, outcome: Outcome): State
  {
    if r >= |s.requests| then s
    else
      match (s.requests[r], outcome)
      case (Unsent, Begin) => SendTo(s, r, First(s.current), s.current)
      case (First(_), Answered(ok)) => s.(requests := s.requests[r := AfterAnswer(s, r, ok)])
      case (First(session), Dead) => s.(requests := s.requests[r := AwaitFresh(session)])
      case (First(session), TimedOut) =>
        if s.current == session then s.(requests := s.requests[r := Finished])
        else SendTo(s, r, Second(session, s.current), s.current)
      case (AwaitFresh(dead), Woken) =>
        if s.current == dead then s else SendTo(s, r, Second(dead, s.current), s.current)
      case (AwaitFresh(_), GaveUp) => s.(requests := s.requests[r := Finished])
      case (Second(_, _), Answered(ok)) => s.(requests := s.requests[r := AfterAnswer(s, r, ok)])
      case _ => s
  }

  /** An answered `subscribe` or `unsubscribe` updates the ids to restore. */
  function RecordStep(s: State, r: nat): State
  {
    if r >= |s.requests| || !s.requests[r].Confirmed? then s
    else
      var done := s.(requests := s.requests[r := Finished]);
      match PurposeOf(s, r)
      case Plain => done
      case Subscribes(id) => done.(subscribed := s.subscribed + {id})
      case Unsubscribes(id) => done.(subscribed := s.subscribed - {id})
  }

  /** The supervisor, a request's wait, a request's recording, or `accessories` taking a pending refresh. */
  datatype Step = Supervise(event: Event) | Request(r: nat, outcome: Outcome) | Record(r: nat) | Refetch

  function Next(s: State, step: Step): State
  {
    match step
    case Supervise(event) => TaskStep(s, event)
    case Request(r, outcome) => RequestStep(s, r, outcome)
    case Record(r) => RecordStep(s, r)
    case Refetch => s.(needsRefresh := false, configs := if s.configs == [] then [] else s.configs[|s.configs| - 1..])
  }

  function Run(s: State, steps: seq<Step>): State
    decreases |steps|
  {
    if steps == [] then s else Run(Next(s, steps[0]), steps[1..])
  }

  function Built(purposes: seq<Purpose>): State
  {
    State(0, 1, Draining, {}, None, false, [], purposes, seq(|purposes|, _ => Unsent), map[], [])
  }

  // ---- The same steps on the shared connection ----

  class Connection {
    var current: nat
    var minted: nat
    var task: Task
    var subscribed: set<Id>
    var lastConfig: Option<nat>
    var needsRefresh: bool
    ghost var configs: seq<nat>
    const purposes: seq<Purpose>
    var requests: seq<Request>
    ghost var snapshots: map<nat, set<Id>>
    ghost var log: seq<Sent>

    ghost function Model(): State
      reads this
    {
      State(current, minted, task, subscribed, lastConfig, needsRefresh, configs, purposes, requests, snapshots, log)
    }

    constructor (purposes: seq<Purpose>)
      ensures Model() == Built(purposes)
    {
      current, minted, task, subscribed := 0, 1, Draining, {};
      lastConfig, needsRefresh, configs := None, false, [];
      this.purposes := purposes;
      requests := seq(|purposes|, _ => Unsent);
      snapshots, log := map[], [];
    }

    method Supervise(event: Event)
      modifies this
      ensures Model() == TaskStep(old(Model()), event)
    {
      match task
      case Draining =>
        if event.Died? { task := Reconnecting; }
      case Reconnecting =>
        if event.Reconnected? {
          task := Snapshotting(minted);
          minted := minted + 1;
          if event.config.Some? {
            if lastConfig.Some? && lastConfig != event.config { needsRefresh := true; }
            lastConfig := event.config;
            configs := configs + [event.config.value];
          }
        }
      case Snapshotting(session) =>
        if event.Snapshot? && Elements(event.order) == subscribed {
          task := Resubscribing(session, event.order);
          snapshots := snapshots[session := subscribed];
        }
      case Resubscribing(session, todo) =>
        if event.Advance? {
          if todo == [] {
            current := session;
            task := Draining;
          } else {
            log := log + [Resubscribe(session, todo[0])];
            task := Resubscribing(session, todo[1..]);
          }
        }
    }

    method Foreground(r: nat, outcome: Outcome)
      modifies this`requests, this`log
      ensures Model() == RequestStep(old(Model()), r, outcome)
    {
      if r >= |requests| { return; }
      match requests[r]
      case Unsent =>
        if outcome.Begin? { Send(r, First(current)); }
      case First(session) =>
        if outcome.Answered? {
          requests := requests[r := Answered(r, outcome.ok)];
        } else if outcome.Dead? {
          requests := requests[r := AwaitFresh(session)];
        } else if outcome.TimedOut? {
          if current == session {
            requests := requests[r := Finished];
          } else {
            Send(r, Second(session, current));
          }
        }
      case AwaitFresh(dead) =>
        if outcome.Woken? && current != dead {
          Send(r, Second(dead, current));
        } else if outcome.GaveUp? {
          requests := requests[r := Finished];
        }
      case Second(_, _) =>
        if outcome.Answered? { requests := requests[r := Answered(r, outcome.ok)]; }
      case Confirmed =>
      case Finished =>
    }

    function Answered(r: nat, ok: bool): Request
    {
      if ok && r < |purposes| && !purposes[r].Plain? then Confirmed else Finished
    }

    method RecordSubscription(r: nat)
      modifies this`requests, this`subscribed
      ensures Model() == RecordStep(old(Model()), r)
    {
      if r >= |requests| || !requests[r].Confirmed? { return; }
      requests := requests[r := Finished];
      if r < |purposes| {
        match purposes[r]
        case Plain =>
        case Subscribes(id) => subscribed := subscribed + {id};
        case Unsubscribes(id) => subscribed := subscribed - {id};
      }
    }

    /** The config-number check of `accessories`: whether its cached tree must go. */
    method TakeRefresh() returns (stale: bool)
      modifies this`needsRefresh, this`configs
      ensures stale == old(needsRefresh) && Model() == Next(old(Model()), Refetch)
    {
      stale := needsRefresh;
      needsRefresh := false;
      configs := if configs == [] then [] else configs[|configs| - 1..];
    }

    method Send(r: nat, request: Request)
      requires r < |requests|
      modifies this`requests, this`log
      ensures Model() == SendTo(old(Model()), r, request, current)
    {
      requests := requests[r := request];
      log := log + [Sent.Foreground(current, r)];
    }
  }

  // ---- What every run keeps ----

  /** The sessions a request was sent to, in order. */
  function SentTo(log: seq<Sent>, r: nat): seq<nat>
  {
    if log == [] then []
    else
      var n := |log| - 1;
      SentTo(log[..n], r) + (if log[n].Foreground? && log[n].request == r then [log[n].session] else [])
  }

  lemma SentToAppend(log: seq<Sent>, x: Sent, r: nat)
    ensures SentTo(log + [x], r) == SentTo(log, r) + (if x.Foreground? && x.request == r then [x.session] else [])
  {
    assert (log + [x])[..|log|] == log;
  }

  /** A request went nowhere, to one session, or to one and then a later one. */
  ghost predicate RequestFits(s: State, r: nat)
    requires r < |s.requests|
  {
    var sent := SentTo(s.log, r);
    match s.requests[r]
    case Unsent => sent == []
    case First(session) => sent == [session] && session <= s.current
    case AwaitFresh(dead) => sent == [dead] && dead <= s.current
    case Second(dead, session) => sent == [dead, session] && dead < session
    case Confirmed => 1 <= |sent| <= 2 && (|sent| == 2 ==> sent[0] < sent[1])
    case Finished => |sent| <= 2 && (|sent| == 2 ==> sent[0] < sent[1])
  }

  ghost predicate Requests(s: State)
  {
    && (forall r :: 0 <= r < |s.requests| ==> RequestFits(s, r))
    && (forall k :: 0 <= k < |s.log| && s.log[k].Foreground? ==> s.log[k].request < |s.requests| && s.log[k].session <= s.current)
  }

  /** Every id of the session's snapshot has been subscribed on it within `log`. */
  ghost predicate Restored(s: State, session: nat, log: seq<Sent>)
  {
    session in s.snapshots && forall id :: id in s.snapshots[session] ==> Resubscribe(session, id) in log
  }

  ghost predicate InSnapshot(s: State, x: Sent)
    requires x.Resubscribe?
  {
    x.session in s.snapshots && x.id in s.snapshots[x.session] && x.session < s.minted &&
    (s.task.Snapshotting? ==> x.session != s.task.session)
  }

  /** The session being prepared is the newest, and published only when its snapshot is subscribed. */
  ghost predicate Prepared(s: State)
  {
    && s.minted == s.current + (if s.task.Snapshotting? || s.task.Resubscribing? then 2 else 1)
    && (s.task.Snapshotting? || s.task.Resubscribing? ==> s.task.session == s.current + 1)
    && (s.task.Resubscribing? ==> s.task.session in s.snapshots)
    && (s.task.Resubscribing? ==> forall id :: id in s.task.todo ==> id in s.snapshots[s.task.session])
    && (s.task.Resubscribing? ==> forall id :: id in s.snapshots[s.task.session] ==>
          id in s.task.todo || Resubscribe(s.task.session, id) in s.log)
    && (forall k :: 0 <= k < |s.log| && s.log[k].Resubscribe? ==> InSnapshot(s, s.log[k]))
    && (forall session :: 1 <= session <= s.current ==> Restored(s, session, s.log))
  }

  /** At every foreground send, the session it went to was already restored. */
  ghost predicate SentAfter(s: State)
  {
    forall k :: 0 <= k < |s.log| && s.log[k].Foreground? && s.log[k].session > 0 ==> Restored(s, s.log[k].session, s.log[..k])
  }

  /** A refresh is due exactly when two of the config numbers the supervisor has seen, since the tree was fetched, differ. */
  ghost predicate Refreshes(s: State)
  {
    && s.lastConfig == (if s.configs == [] then None else Some(s.configs[|s.configs| - 1]))
    && (s.needsRefresh <==> exists i :: 0 < i < |s.configs| && s.configs[i - 1] != s.configs[i])
  }

  ghost predicate Inv(s: State)
  {
    Requests(s) && Prepared(s) && SentAfter(s) && Refreshes(s)
  }

  lemma PrefixKeeps(log: seq<Sent>, x: Sent, k: nat)
    requires k <= |log|
    ensures (log + [x])[..k] == log[..k]
  {
  }

  lemma SendKeeps(s: State, r: nat, request: Request)
    requires Inv(s) && r < |s.requests|
    requires (request == First(s.current) && s.requests[r].Unsent?)
          || (request.Second? && request.session == s.current && request.dead < s.current &&
              (s.requests[r] == First(request.dead) || s.requests[r] == AwaitFresh(request.dead)))
    ensures Inv(SendTo(s, r, request, s.current))
  {
    var x := Sent.Foreground(s.current, r);
    var s' := SendTo(s, r, request, s.current);
    SendRestored(s, s', x);
    forall q | 0 <= q < |s'.requests| ensures RequestFits(s', q) {
      assert RequestFits(s, q);
      SentToAppend(s.log, x, q);
    }
  }

  /** A foreground send on the current session finds it restored, and takes nothing back. */
  lemma SendRestored(s: State, s': State, x: Sent)
    requires Prepared(s) && SentAfter(s) && x.Foreground? && x.session == s.current
    requires s' == s.(requests := s'.requests, log := s.log + [x])
    ensures Prepared(s') && SentAfter(s')
  {
    forall k | 0 <= k < |s'.log| && s'.log[k].Foreground? && s'.log[k].session > 0
      ensures Restored(s', s'.log[k].session, s'.log[..k])
    {
      PrefixKeeps(s.log, x, k);
      if k < |s.log| {
        assert Restored(s, s.log[k].session, s.log[..k]);
      } else {
        assert s.log[..k] == s.log;
        assert Restored(s, s.current, s.log);
      }
    }
    forall session | 1 <= session <= s'.current ensures Restored(s', session, s'.log) {
      assert Restored(s, session, s.log);
    }
  }

  lemma SettleKeeps(s: State, r: nat, request: Request)
    requires Inv(s) && r < |s.requests|
    requires (s.requests[r].First? && (request.Finished? || request.Confirmed? || request == AwaitFresh(s.requests[r].session)))
          || (s.requests[r].Second? && (request.Finished? || request.Confirmed?))
          || ((s.requests[r].AwaitFresh? || s.requests[r].Confirmed?) && request.Finished?)
    ensures Inv(s.(requests := s.requests[r := request]))
  {
    var s' := s.(requests := s.requests[r := request]);
    forall q | 0 <= q < |s'.requests| ensures RequestFits(s', q) { assert RequestFits(s, q); }
    forall session | 1 <= session <= s'.current ensures Restored(s', session, s'.log) { assert Restored(s, session, s.log); }
    forall k | 0 <= k < |s'.log| && s'.log[k].Foreground? && s'.log[k].session > 0
      ensures Restored(s', s'.log[k].session, s'.log[..k]) { assert Restored(s, s.log[k].session, s.log[..k]); }
  }

  lemma RequestKeeps(s: State, r: nat, outcome: Outcome)
    requires Inv(s)
    ensures Inv(RequestStep(s, r, outcome))
  {
    if r < |s.requests| {
      assert RequestFits(s, r);
      match (s.requests[r], outcome)
      case (Unsent, Begin) => SendKeeps(s, r, First(s.current));
      case (First(_), Answered(ok)) => SettleKeeps(s, r, AfterAnswer(s, r, ok));
      case (First(session), Dead) => SettleKeeps(s, r, AwaitFresh(session));
      case (First(session), TimedOut) =>
        if s.current == session { SettleKeeps(s, r, Finished); }
        else { SendKeeps(s, r, Second(session, s.current)); }
      case (AwaitFresh(dead), Woken) => if s.current != dead { SendKeeps(s, r, Second(dead, s.current)); }
      case (AwaitFresh(_), GaveUp) => SettleKeeps(s, r, Finished);
      case (Second(_, _), Answered(ok)) => SettleKeeps(s, r, AfterAnswer(s, r, ok));
      case _ =>
    }
  }

  lemma RecordKeeps(s: State, r: nat)
    requires Inv(s)
    ensures Inv(RecordStep(s, r))
  {
    if r < |s.requests| && s.requests[r].Confirmed? {
      SettleKeeps(s, r, Finished);
      var settled := s.(requests := s.requests[r := Finished]);
      var s' := RecordStep(s, r);
      QuietKeeps(settled, s');
      forall session | 1 <= session <= s'.current ensures Restored(s', session, s'.log) { assert Restored(settled, session, settled.log); }
    }
  }

  /** A step that leaves the requests, the log and old snapshots alone, and does not take the current session back. */
  lemma QuietKeeps(s: State, s': State)
    requires Requests(s) && SentAfter(s)
    requires s'.requests == s.requests && s'.log == s.log && s.current <= s'.current
    requires forall session :: session <= s.current && session in s.snapshots ==>
               session in s'.snapshots && s'.snapshots[session] == s.snapshots[session]
    ensures Requests(s') && SentAfter(s')
  {
    forall r | 0 <= r < |s'.requests| ensures RequestFits(s', r) { assert RequestFits(s, r); }
    forall k | 0 <= k < |s'.log| && s'.log[k].Foreground? && s'.log[k].session > 0
      ensures Restored(s', s'.log[k].session, s'.log[..k]) { assert Restored(s, s.log[k].session, s.log[..k]); }
  }

  lemma ResubscribeKeeps(s: State, event: Event)
    requires Inv(s) && s.task.Resubscribing? && s.task.todo != [] && event.Advance?
    ensures Inv(TaskStep(s, event))
  {
    var s' := TaskStep(s, event);
    var x := Resubscribe(s.task.session, s.task.todo[0]);
    assert s'.log == s.log + [x];
    forall r | 0 <= r < |s'.requests| ensures RequestFits(s', r) {
      assert RequestFits(s, r);
      SentToAppend(s.log, x, r);
    }
    forall k | 0 <= k < |s'.log| && s'.log[k].Foreground? && s'.log[k].session > 0
      ensures Restored(s', s'.log[k].session, s'.log[..k])
    {
      PrefixKeeps(s.log, x, k);
      assert Restored(s, s.log[k].session, s.log[..k]);
    }
    forall session | 1 <= session <= s'.current ensures Restored(s', session, s'.log) { assert Restored(s, session, s.log); }
    forall id | id in s'.snapshots[s'.task.session] ensures id in s'.task.todo || Resubscribe(s'.task.session, id) in s'.log {
      if id in s.task.todo && id != s.task.todo[0] { assert s.task.todo == [s.task.todo[0]] + s.task.todo[1..]; }
    }
  }

  lemma RefreshKeeps(s: State, config: Option<nat>)
    requires Refreshes(s)
    ensures Refreshes(Refreshed(s, config))
  {
    var s' := Refreshed(s, config);
    if s.needsRefresh {
      var i :| 0 < i < |s.configs| && s.configs[i - 1] != s.configs[i];
      assert s'.configs[i - 1] != s'.configs[i];
    } else if config.Some? && s'.needsRefresh {
      var n := |s.configs|;
      assert s'.configs[n - 1] != s'.configs[n];
    }
  }

  lemma TaskKeeps(s: State, event: Event)
    requires Inv(s)
    ensures Inv(TaskStep(s, event))
  {
    var s' := TaskStep(s, event);
    if s'.log != s.log {
      ResubscribeKeeps(s, event);
    } else {
      QuietTaskKeeps(s, event);
    }
  }

  lemma QuietTaskKeeps(s: State, event: Event)
    requires Inv(s) && TaskStep(s, event).log == s.log
    ensures Inv(TaskStep(s, event))
  {
    var s' := TaskStep(s, event);
    if event.Reconnected? { RefreshKeeps(s, event.config); }
    QuietKeeps(s, s');
    QuietPrepared(s, event);
  }

  lemma QuietPrepared(s: State, event: Event)
    requires Prepared(s) && TaskStep(s, event).log == s.log
    ensures Prepared(TaskStep(s, event))
  {
    var s' := TaskStep(s, event);
    forall session | 1 <= session <= s'.current ensures Restored(s', session, s'.log) {
      if session <= s.current { assert Restored(s, session, s.log); }
    }
  }

  lemma StepKeeps(s: State, step: Step)
    requires Inv(s)
    ensures Inv(Next(s, step))
  {
    match step
    case Supervise(event) => TaskKeeps(s, event);
    case Request(r, outcome) => RequestKeeps(s, r, outcome);
    case Record(r) => RecordKeeps(s, r);
    case Refetch =>
      var s' := Next(s, step);
      QuietKeeps(s, s');
      forall session | 1 <= session <= s'.current ensures Restored(s', session, s'.log) { assert Restored(s, session, s.log); }
  }

  lemma {:induction false} RunKeeps(s: State, steps: seq<Step>)
    requires Inv(s)
    ensures Inv(Run(s, steps))
    decreases |steps|
  {
    if steps != [] {
      StepKeeps(s, steps[0]);
      RunKeeps(Next(s, steps[0]), steps[1..]);
    }
  }

  /** In every run, a foreground request is sent to at most two sessions, the second minted after the first. */
  lemma AtMostTwoSessions(purposes: seq<Purpose>, steps: seq<Step>, r: nat)
    requires r < |Run(Built(purposes), steps).requests|
    ensures var sent := SentTo(Run(Built(purposes), steps).log, r);
            |sent| <= 2 && (|sent| == 2 ==> sent[0] < sent[1])
  {
    RunKeeps(Built(purposes), steps);
    assert RequestFits(Run(Built(purposes), steps), r);
  }

  /**
   * In every run, by the time a foreground request reaches a session after the first, every id of the
   * supervisor's snapshot has had its subscribe request issued on that session.
   */
  lemma RestoredBeforeUse(purposes: seq<Purpose>, steps: seq<Step>, k: nat)
    requires var log := Run(Built(purposes), steps).log;
             k < |log| && log[k].Foreground? && log[k].session > 0
    ensures var s := Run(Built(purposes), steps);
            && s.log[k].session in s.snapshots
            && forall id :: id in s.snapshots[s.log[k].session] ==> Resubscribe(s.log[k].session, id) in s.log[..k]
  {
    RunKeeps(Built(purposes), steps);
    assert Restored(Run(Built(purposes), steps), Run(Built(purposes), steps).log[k].session, Run(Built(purposes), steps).log[..k]);
  }

  /**
   * When the supervisor publishes a session, a subscribed id has been restored on it exactly when the
   * snapshot had it. An id recorded between the snapshot and the publication has not.
   */
  lemma RestoredExactly(purposes: seq<Purpose>, steps: seq<Step>, id: Id)
    requires Run(Built(purposes), steps).task.Resubscribing? && Run(Built(purposes), steps).task.todo == []
    ensures var s := Run(Built(purposes), steps);
            && s.task.session in s.snapshots
            && (Resubscribe(s.task.session, id) in s.log <==> id in s.snapshots[s.task.session])
  {
    RunKeeps(Built(purposes), steps);
  }

  /** A subscribe answered on the first session, and recorded after the next one's snapshot, is not restored on it. */
  lemma LateSubscribeIsMissed(id: Id) returns (steps: seq<Step>)
    ensures var s := Run(Built([Subscribes(id)]), steps);
            && s.requests == [Finished] && SentTo(s.log, 0) == [0]
            && s.current == 1 && id in s.subscribed && Resubscribe(1, id) !in s.log
  {
    var s0 := Built([Subscribes(id)]);
    steps := [Request(0, Begin), Request(0, Answered(true)), Supervise(Died), Supervise(Reconnected(None)),
              Supervise(Snapshot([])), Record(0), Supervise(Advance)];
    var s2 := Next(Next(s0, steps[0]), steps[1]);
    var s4 := Next(Next(s2, steps[2]), steps[3]);
    var s6 := Next(Next(s4, steps[4]), steps[5]);
    var s7 := Next(s6, steps[6]);
    assert s6.task == Resubscribing(1, []) && s6.subscribed == {id};
    RunTwo(s0, steps, 0);
    RunTwo(s2, steps, 2);
    RunTwo(s4, steps, 4);
    assert steps[6..] == [steps[6]] && Run(s6, steps[6..]) == Run(s7, []);
    assert steps[0..] == steps;
    assert s7.log == [Sent.Foreground(0, 0)];
    SentToAppend([], Sent.Foreground(0, 0), 0);
    assert [] + [Sent.Foreground(0, 0)] == s7.log;
  }

  lemma RunTwo(s: State, steps: seq<Step>, i: nat)
    requires i + 2 <= |steps|
    ensures Run(s, steps[i..]) == Run(Next(Next(s, steps[i]), steps[i + 1]), steps[i + 2..])
  {
    assert steps[i..][0] == steps[i] && steps[i..][1..] == steps[i + 1..];
    assert steps[i + 1..][0] == steps[i + 1] && steps[i + 1..][1..] == steps[i + 2..];
  }

  /** Request `r` asked for `id` and was sent and answered. */
  ghost predicate Recorder(s: State, id: Id, r: nat)
  {
    r < |s.requests| && PurposeOf(s, r) == Subscribes(id) && s.requests[r].Finished? && SentTo(s.log, r) != []
  }

  ghost predicate AllRecorded(s: State)
  {
    forall id :: id in s.subscribed ==> exists r :: Recorder(s, id, r)
  }

  /** Requests that are finished stay so, and the log only grows, by one at a time. */
  ghost predicate Grows(s: State, s': State)
  {
    && s'.purposes == s.purposes && |s'.requests| == |s.requests|
    && (forall r :: 0 <= r < |s.requests| && s.requests[r].Finished? ==> s'.requests[r].Finished?)
    && (s'.log == s.log || (|s'.log| == |s.log| + 1 && s'.log == s.log + [s'.log[|s.log|]]))
  }

  lemma TaskGrows(s: State, event: Event)
    ensures Grows(s, TaskStep(s, event))
  {
  }

  lemma RequestGrows(s: State, r: nat, outcome: Outcome)
    ensures Grows(s, RequestStep(s, r, outcome))
  {
  }

  lemma StepGrows(s: State, step: Step)
    ensures Grows(s, Next(s, step))
  {
    match step
    case Supervise(event) => TaskGrows(s, event);
    case Request(r, outcome) => RequestGrows(s, r, outcome);
    case Record(_) =>
    case Refetch =>
  }

  lemma SentStays(log: seq<Sent>, x: Sent, r: nat)
    requires SentTo(log, r) != []
    ensures SentTo(log + [x], r) != []
  {
    SentToAppend(log, x, r);
  }

  lemma RecorderStays(s: State, step: Step, id: Id, r: nat)
    requires Recorder(s, id, r)
    ensures Recorder(Next(s, step), id, r)
  {
    StepGrows(s, step);
    var log := Next(s, step).log;
    if log != s.log { SentStays(s.log, log[|s.log|], r); }
  }

  lemma RecordedStep(s: State, step: Step)
    requires Inv(s) && AllRecorded(s)
    ensures AllRecorded(Next(s, step))
  {
    var s' := Next(s, step);
    forall id | id in s'.subscribed ensures exists r :: Recorder(s', id, r) {
      if id in s.subscribed {
        var r :| Recorder(s, id, r);
        RecorderStays(s, step, id, r);
      } else {
        assert RequestFits(s, step.r);
        assert Recorder(s', id, step.r);
      }
    }
  }

  lemma {:induction false} RunRecords(s: State, steps: seq<Step>)
    requires Inv(s) && AllRecorded(s)
    ensures AllRecorded(Run(s, steps))
    decreases |steps|
  {
    if steps != [] {
      StepKeeps(s, steps[0]);
      RecordedStep(s, steps[0]);
      RunRecords(Next(s, steps[0]), steps[1..]);
    }
  }

  /** In every run, an id is restored after a reconnect only if a subscribe for it was sent and answered. */
  lemma SubscribedWasAnswered(purposes: seq<Purpose>, steps: seq<Step>)
    ensures AllRecorded(Run(Built(purposes), steps))
  {
    RunRecords(Built(purposes), steps);
  }

  /** A refetch is asked for exactly when two config numbers seen since the last fetch differ. */
  lemma RefreshExactly(purposes: seq<Purpose>, steps: seq<Step>)
    ensures var s := Run(Built(purposes), steps);
            s.needsRefresh <==> exists i, j :: 0 <= i < j < |s.configs| && s.configs[i] != s.configs[j]
  {
    RunKeeps(Built(purposes), steps);
    var s := Run(Built(purposes), steps);
    if i, j :| 0 <= i < j < |s.configs| && s.configs[i] != s.configs[j] {
      AdjacentDiffer(s.configs, i, j);
    }
    if s.needsRefresh {
      var k :| 0 < k < |s.configs| && s.configs[k - 1] != s.configs[k];
      var i := k - 1;
      assert 0 <= i < k < |s.configs| && s.configs[i] != s.configs[k];
    }
  }

  lemma AdjacentDiffer(xs: seq<nat>, i: nat, j: nat)
    requires i < j < |xs| && xs[i] != xs[j]
    ensures exists k :: 0 < k < |xs| && xs[k - 1] != xs[k]
    decreases j
  {
    if xs[j - 1] == xs[j] { AdjacentDiffer(xs, i, j - 1); }
  }

  ghost predicate Differ(configs: seq<nat>)
  {
    exists i, j :: 0 <= i < j < |configs| && configs[i] != configs[j]
  }

  /**
   * The supervisor does not know the config number in force when the tree was fetched, unless it saw it at a reconnect.
   * So if that number was `fetched`, the flag tells of every change since then if and only if there has been no
   * reconnect with a number, the first one brought that same number, or two of them differ among themselves.
   */
  lemma RefreshToldExactly(purposes: seq<Purpose>, steps: seq<Step>, fetched: nat)
    ensures var s := Run(Built(purposes), steps);
            (s.needsRefresh <==> Differ([fetched] + s.configs)) <==>
            (s.configs == [] || s.configs[0] == fetched || Differ(s.configs))
  {
    RefreshExactly(purposes, steps);
    var configs := Run(Built(purposes), steps).configs;
    var all := [fetched] + configs;
    if i, j :| 0 <= i < j < |configs| && configs[i] != configs[j] { assert all[i + 1] != all[j + 1]; }
    if i, j :| 0 <= i < j < |all| && all[i] != all[j] {
      assert i > 0 ==> configs[i - 1] != configs[j - 1];
      assert i == 0 ==> configs[j - 1] != fetched;
    }
    if configs != [] && configs[0] != fetched { assert all[0] != all[1]; }
  }

  /** A change across the first reconnect is never told. */
  lemma FirstChangeIsMissed(fetched: nat, config: nat)
    requires fetched != config
    ensures var s := Run(Built([]), [Supervise(Died), Supervise(Reconnected(Some(config)))]);
            s.configs == [config] && !s.needsRefresh && Differ([fetched] + s.configs)
  {
    var steps := [Supervise(Died), Supervise(Reconnected(Some(config)))];
    RunTwo(Built([]), steps, 0);
    assert steps[0..] == steps;
    var all := [fetched] + [config];
    assert all[0] != all[1];
  }
}
