/** What becomes of a foreground request, of a recorded id and of a dead session, over every run. */
module SupervisorRuns {
  import opened Bytes
  import opened Supervisor

  lemma {:induction false} RunConcat(s: State, a: seq<Step>, b: seq<Step>)
    ensures Run(s, a + b) == Run(Run(s, a), b)
    decreases |a|
  {
    if a == [] {
      assert a + b == b;
    } else {
      assert (a + b)[0] == a[0] && (a + b)[1..] == a[1..] + b;
      RunConcat(Next(s, a[0]), a[1..], b);
    }
  }

  lemma {:induction false} RunPrefix(s: State, steps: seq<Step>, i: nat)
    requires i < |steps|
    ensures Run(s, steps[..i + 1]) == Next(Run(s, steps[..i]), steps[i])
    ensures Run(s, steps) == Run(Run(s, steps[..i + 1]), steps[i + 1..])
  {
    RunConcat(s, steps[..i], [steps[i]]);
    assert steps[..i + 1] == steps[..i] + [steps[i]];
    var end := Run(s, steps[..i]);
    assert Run(end, [steps[i]]) == Run(Next(end, steps[i]), []);
    RunConcat(s, steps[..i + 1], steps[i + 1..]);
    assert steps == steps[..i + 1] + steps[i + 1..];
  }

  // ---- A request that was sent ----

  predicate Settled(q: Request)
  {
    q.Second? || q.Confirmed? || q.Finished?
  }

  /** What a step does not touch of a request: its state and where it has been sent. */
  ghost predicate Untouched(s: State, s': State, r: nat)
    requires r < |s.requests|
  {
    |s'.requests| == |s.requests| && s'.requests[r] == s.requests[r] && SentTo(s'.log, r) == SentTo(s.log, r)
  }

  lemma {:induction false} TaskLeaves(s: State, event: Event, r: nat)
    requires r < |s.requests|
    ensures Untouched(s, TaskStep(s, event), r)
  {
    if s.task.Resubscribing? && s.task.todo != [] { SentToAppend(s.log, Resubscribe(s.task.session, s.task.todo[0]), r); }
  }

  /** A request's step changes its own state, and at most adds its own sending to the log. */
  ghost predicate OwnStep(s: State, s': State, q: nat)
  {
    && |s'.requests| == |s.requests| && (forall r :: 0 <= r < |s.requests| && r != q ==> s'.requests[r] == s.requests[r])
    && (s'.log == s.log || s'.log == s.log + [Sent.Foreground(s.current, q)])
  }

  lemma {:induction false} RequestIsOwn(s: State, q: nat, outcome: Outcome)
    ensures OwnStep(s, RequestStep(s, q, outcome), q)
  {
  }

  lemma {:induction false} OwnLeaves(s: State, s': State, q: nat, r: nat)
    requires r < |s.requests| && q != r && OwnStep(s, s', q)
    ensures Untouched(s, s', r)
  {
    SentToAppend(s.log, Sent.Foreground(s.current, q), r);
  }

  lemma {:induction false} OthersLeave(s: State, step: Step, r: nat)
    requires r < |s.requests| && (step.Request? || step.Record? ==> step.r != r)
    ensures Untouched(s, Next(s, step), r)
  {
    match step
    case Supervise(event) => TaskLeaves(s, event, r);
    case Request(q, outcome) =>
      RequestIsOwn(s, q, outcome);
      OwnLeaves(s, Next(s, step), q, r);
    case Record(_) =>
    case Refetch =>
  }

  lemma {:induction false} SettledStays(s: State, step: Step, r: nat)
    requires r < |s.requests| && Settled(s.requests[r])
    ensures var s' := Next(s, step); r < |s'.requests| && Settled(s'.requests[r]) && SentTo(s'.log, r) == SentTo(s.log, r)
  {
    if !((step.Request? || step.Record?) && step.r == r) { OthersLeave(s, step, r); }
  }

  /** Once it has been sent again, or is over, a request is sent nowhere else. */
  lemma {:induction false} SettledRun(s: State, steps: seq<Step>, r: nat)
    requires r < |s.requests| && Settled(s.requests[r])
    ensures SentTo(Run(s, steps).log, r) == SentTo(s.log, r)
    decreases |steps|
  {
    if steps != [] {
      SettledStays(s, steps[0], r);
      SettledRun(Next(s, steps[0]), steps[1..], r);
    }
  }

  /** What ends the wait of a request whose session died: giving up, or waking to another session. */
  predicate Decides(s: State, step: Step, r: nat, dead: nat)
  {
    step == Request(r, GaveUp) || (step == Request(r, Woken) && s.current != dead)
  }

  lemma {:induction false} AwaitStays(s: State, step: Step, r: nat, dead: nat)
    requires r < |s.requests| && s.requests[r] == AwaitFresh(dead) && !Decides(s, step, r, dead)
    ensures var s' := Next(s, step); r < |s'.requests| && s'.requests[r] == AwaitFresh(dead) && SentTo(s'.log, r) == SentTo(s.log, r)
  {
    if !((step.Request? || step.Record?) && step.r == r) { OthersLeave(s, step, r); }
  }

  lemma {:induction false} AwaitRun(s: State, steps: seq<Step>, r: nat, dead: nat, j: nat)
    requires r < |s.requests| && s.requests[r] == AwaitFresh(dead)
    requires j <= |steps| && forall i :: 0 <= i < j ==> !Decides(Run(s, steps[..i]), steps[i], r, dead)
    ensures var t := Run(s, steps[..j]);
            r < |t.requests| && t.requests[r] == AwaitFresh(dead) && SentTo(t.log, r) == SentTo(s.log, r)
  {
    if j > 0 {
      AwaitRun(s, steps, r, dead, j - 1);
      RunPrefix(s, steps, j - 1);
      AwaitStays(Run(s, steps[..j - 1]), steps[j - 1], r, dead);
    }
  }

  /** Nothing up to step `j` ends the request's wait. */
  ghost predicate Waiting(s: State, steps: seq<Step>, r: nat, dead: nat, j: nat)
  {
    j <= |steps| && forall i :: 0 <= i < j ==> !Decides(Run(s, steps[..i]), steps[i], r, dead)
  }

  /** How a wait from `s` goes on over `steps`, if nothing before step `j` ends it. */
  ghost predicate WaitEnds(s: State, steps: seq<Step>, r: nat, dead: nat, j: nat)
    requires j <= |steps|
  {
    var sent := SentTo(Run(s, steps).log, r);
    if j == |steps| then r < |Run(s, steps).requests| && Run(s, steps).requests[r] == AwaitFresh(dead) && sent == [dead]
    else if steps[j] == Request(r, GaveUp) then r < |Run(s, steps[..j + 1]).requests| && Run(s, steps[..j + 1]).requests[r] == Finished && sent == [dead]
    else Decides(Run(s, steps[..j]), steps[j], r, dead) ==>
      var current := Run(s, steps[..j]).current;
      current != dead && sent == [dead, current] && Run(s, steps[..j + 1]).log == Run(s, steps[..j]).log + [Sent.Foreground(current, r)]
  }

  /**
   * A request told that its session is dead, in any run: until it gives up or wakes to another session it waits, sent
   * once; if it gives up first, it is over and was sent once; and if it wakes first while another session is current,
   * it is sent to that one, then, and nowhere else ever.
   */
  lemma {:induction false} DeadIsRetried(purposes: seq<Purpose>, before: seq<Step>, after: seq<Step>, r: nat, dead: nat, j: nat)
    requires var s := Run(Built(purposes), before); r < |s.requests| && s.requests[r] == First(dead)
    requires Waiting(Next(Run(Built(purposes), before), Request(r, Dead)), after, r, dead, j)
    ensures WaitEnds(Next(Run(Built(purposes), before), Request(r, Dead)), after, r, dead, j)
  {
    var s := Run(Built(purposes), before);
    RunKeeps(Built(purposes), before);
    assert RequestFits(s, r);
    WaitGoesOn(Next(s, Request(r, Dead)), after, r, dead, j);
  }

  lemma {:induction false} WaitGoesOn(s: State, steps: seq<Step>, r: nat, dead: nat, j: nat)
    requires r < |s.requests| && s.requests[r] == AwaitFresh(dead) && SentTo(s.log, r) == [dead] && Waiting(s, steps, r, dead, j)
    ensures WaitEnds(s, steps, r, dead, j)
  {
    AwaitRun(s, steps, r, dead, j);
    if j < |steps| {
      RunPrefix(s, steps, j);
      if Decides(Run(s, steps[..j]), steps[j], r, dead) { Decided(Run(s, steps[..j]), steps[j], steps[j + 1..], r, dead); }
    } else {
      assert steps[..j] == steps;
    }
  }

  lemma {:induction false} Decided(s: State, step: Step, rest: seq<Step>, r: nat, dead: nat)
    requires r < |s.requests| && s.requests[r] == AwaitFresh(dead) && Decides(s, step, r, dead) && SentTo(s.log, r) == [dead]
    ensures SentTo(Run(Next(s, step), rest).log, r) == [dead] + (if step == Request(r, GaveUp) then [] else [s.current])
    ensures if step == Request(r, GaveUp) then Next(s, step).requests[r] == Finished else Next(s, step).log == s.log + [Sent.Foreground(s.current, r)]
  {
    if step != Request(r, GaveUp) { SentToAppend(s.log, Sent.Foreground(s.current, r), r); }
    SettledRun(Next(s, step), rest, r);
  }

  /** A request that timed out is sent again, at once and to the current session, if and only if that has moved. */
  lemma {:induction false} TimedOutIsRetriedExactly(purposes: seq<Purpose>, before: seq<Step>, after: seq<Step>, r: nat, session: nat)
    requires var s := Run(Built(purposes), before); r < |s.requests| && s.requests[r] == First(session)
    ensures var s := Run(Built(purposes), before);
            SentTo(Run(Next(s, Request(r, TimedOut)), after).log, r) == if s.current == session then [session] else [session, s.current]
  {
    var s := Run(Built(purposes), before);
    RunKeeps(Built(purposes), before);
    assert RequestFits(s, r);
    TimedOutSends(s, r, session);
    SettledRun(Next(s, Request(r, TimedOut)), after, r);
  }

  lemma {:induction false} TimedOutSends(s: State, r: nat, session: nat)
    requires r < |s.requests| && s.requests[r] == First(session) && SentTo(s.log, r) == [session]
    ensures var s' := Next(s, Request(r, TimedOut));
            r < |s'.requests| && Settled(s'.requests[r]) && SentTo(s'.log, r) == if s.current == session then [session] else [session, s.current]
  {
    SentToAppend(s.log, Sent.Foreground(s.current, r), r);
  }

  /** A request is first sent to the current session, and one that is answered is sent nowhere else. */
  lemma {:induction false} AnsweredIsOver(purposes: seq<Purpose>, before: seq<Step>, after: seq<Step>, r: nat, ok: bool)
    requires r < |Run(Built(purposes), before).requests|
    ensures var s := Run(Built(purposes), before);
            && (s.requests[r].Unsent? ==> Next(s, Request(r, Begin)).log == s.log + [Sent.Foreground(s.current, r)])
            && (s.requests[r].First? || s.requests[r].Second? ==>
                  SentTo(Run(Next(s, Request(r, Answered(ok))), after).log, r) == SentTo(s.log, r))
  {
    var s := Run(Built(purposes), before);
    if s.requests[r].First? || s.requests[r].Second? { SettledRun(Next(s, Request(r, Answered(ok))), after, r); }
  }

  // ---- What is recorded ----

  /** A good answer to a `subscribe` or an `unsubscribe` waits to be recorded; any other ends the request. */
  lemma {:induction false} AnsweredExactly(s: State, r: nat, ok: bool)
    requires r < |s.requests| && (s.requests[r].First? || s.requests[r].Second?)
    ensures Next(s, Request(r, Answered(ok))) ==
            s.(requests := s.requests[r := if ok && r < |s.purposes| && !s.purposes[r].Plain? then Confirmed else Finished])
  {
  }

  /** What a run records, in order. */
  function Recorded(s: State, steps: seq<Step>): seq<Purpose>
    decreases |steps|
  {
    if steps == [] then [] else WordOf(s, steps[0]) + Recorded(Next(s, steps[0]), steps[1..])
  }

  /** The last word on an id, after `was`. */
  function LastWord(was: bool, words: seq<Purpose>, id: Id): bool
    decreases |words|
  {
    if words == [] then was
    else LastWord(if words[0] == Subscribes(id) then true else if words[0] == Unsubscribes(id) then false else was, words[1..], id)
  }

  /** The word a step records, if it does. */
  function WordOf(s: State, step: Step): seq<Purpose>
  {
    if step.Record? && step.r < |s.requests| && s.requests[step.r].Confirmed? && step.r < |s.purposes| then [s.purposes[step.r]] else []
  }

  lemma {:induction false} WordRecorded(s: State, step: Step, id: Id)
    ensures id in Next(s, step).subscribed <==> LastWord(id in s.subscribed, WordOf(s, step), id)
  {
    var word := WordOf(s, step);
    if word != [] { assert word[1..] == []; }
  }

  lemma {:induction false} LastWordConcat(was: bool, a: seq<Purpose>, b: seq<Purpose>, id: Id)
    ensures LastWord(was, a + b, id) == LastWord(LastWord(was, a, id), b, id)
    decreases |a|
  {
    if a == [] {
      assert a + b == b;
    } else {
      assert (a + b)[0] == a[0] && (a + b)[1..] == a[1..] + b;
      LastWordConcat(if a[0] == Subscribes(id) then true else if a[0] == Unsubscribes(id) then false else was, a[1..], b, id);
    }
  }

  lemma {:induction false} RecordedRun(s: State, steps: seq<Step>, id: Id)
    ensures id in Run(s, steps).subscribed <==> LastWord(id in s.subscribed, Recorded(s, steps), id)
    decreases |steps|
  {
    if steps != [] {
      WordRecorded(s, steps[0], id);
      RecordedRun(Next(s, steps[0]), steps[1..], id);
      LastWordConcat(id in s.subscribed, WordOf(s, steps[0]), Recorded(Next(s, steps[0]), steps[1..]), id);
    }
  }

  /** In every run, the ids to restore are exactly those whose last recorded request is a `subscribe`. */
  lemma {:induction false} SubscribedIsLastRecorded(purposes: seq<Purpose>, steps: seq<Step>, id: Id)
    ensures id in Run(Built(purposes), steps).subscribed <==>
            exists i :: 0 <= i < |Recorded(Built(purposes), steps)| && Recorded(Built(purposes), steps)[i] == Subscribes(id)
                        && Unsubscribes(id) !in Recorded(Built(purposes), steps)[i..]
  {
    RecordedRun(Built(purposes), steps, id);
    LastWordExactly(false, Recorded(Built(purposes), steps), id);
  }

  lemma {:induction false} LastWordExactly(was: bool, words: seq<Purpose>, id: Id)
    ensures LastWord(was, words, id) <==>
            (was && Unsubscribes(id) !in words)
            || exists i :: 0 <= i < |words| && words[i] == Subscribes(id) && Unsubscribes(id) !in words[i..]
    decreases |words|
  {
    if words != [] {
      LastWordExactly(if words[0] == Subscribes(id) then true else if words[0] == Unsubscribes(id) then false else was, words[1..], id);
      assert words == [words[0]] + words[1..];
      if i :| 0 <= i < |words[1..]| && words[1..][i] == Subscribes(id) && Unsubscribes(id) !in words[1..][i..] {
        assert words[i + 1..] == words[1..][i..];
        assert words[i + 1] == Subscribes(id) && Unsubscribes(id) !in words[i + 1..];
      }
      if i :| 0 <= i < |words| && words[i] == Subscribes(id) && Unsubscribes(id) !in words[i..] {
        if i > 0 { assert words[1..][i - 1..] == words[i..] && words[1..][i - 1] == Subscribes(id); }
        else { assert words[0..] == words; }
      }
      assert words[0..] == words;
    }
  }

  // ---- Recovery ----

  function Advances(n: nat): seq<Step>
  {
    seq(n, _ => Supervise(Advance))
  }

  function Resubscribes(session: nat, ids: seq<Id>): seq<Sent>
  {
    seq(|ids|, i requires 0 <= i < |ids| => Resubscribe(session, ids[i]))
  }

  lemma {:induction false} AdvanceAll(s: State, session: nat, todo: seq<Id>)
    requires s.task == Resubscribing(session, todo)
    ensures Run(s, Advances(|todo| + 1)) == s.(current := session, task := Draining, log := s.log + Resubscribes(session, todo))
    decreases |todo|
  {
    var steps := Advances(|todo| + 1);
    assert steps[1..] == Advances(|todo|) && steps[0] == Supervise(Advance);
    if todo == [] {
      assert s.log + Resubscribes(session, todo) == s.log;
      assert Run(s, steps) == Run(Next(s, steps[0]), []);
    } else {
      AdvanceAll(Next(s, steps[0]), session, todo[1..]);
      assert s.log + [Resubscribe(session, todo[0])] + Resubscribes(session, todo[1..]) == s.log + Resubscribes(session, todo);
    }
  }

  /**
   * A session that dies is replaced: whatever the run before, once a reconnect succeeds, after any failed ones, the
   * supervisor subscribes every id to restore on a new session, in the order it took them, and then publishes it.
   */
  lemma {:induction false} DeadIsReplaced(purposes: seq<Purpose>, before: seq<Step>, failures: nat, config: Option<nat>, order: seq<Id>)
    requires Run(Built(purposes), before).task.Draining? && Elements(order) == Run(Built(purposes), before).subscribed
    ensures var s := Run(Built(purposes), before);
            var failed: seq<Step> := seq(failures, _ => Supervise(ReconnectFailed));
            var t := Run(s, [Supervise(Died)] + failed + [Supervise(Reconnected(config)), Supervise(Snapshot(order))] + Advances(|order| + 1));
            && t.current == s.current + 1 && t.task.Draining? && t.subscribed == s.subscribed
            && t.log == s.log + Resubscribes(s.current + 1, order)
            && t.configs == s.configs + (if config.Some? then [config.value] else [])
  {
    var s := Run(Built(purposes), before);
    RunKeeps(Built(purposes), before);
    var failed: seq<Step> := seq(failures, _ => Supervise(ReconnectFailed));
    var two := [Supervise(Reconnected(config)), Supervise(Snapshot(order))];
    var s1 := s.(task := Reconnecting);
    assert [Supervise(Died)][1..] == [] && Run(s, [Supervise(Died)]) == Run(s1, []);
    RunConcat(s, [Supervise(Died)], failed);
    FailuresWait(s1, failures);
    RunConcat(s, [Supervise(Died)] + failed, two);
    RunTwo(s1, two, 0);
    assert two[0..] == two && two[2..] == [];
    RunConcat(s, [Supervise(Died)] + failed + two, Advances(|order| + 1));
    AdvanceAll(Run(s1, two), s.current + 1, order);
  }

  lemma {:induction false} FailuresWait(s: State, failures: nat)
    requires s.task.Reconnecting?
    ensures Run(s, seq(failures, _ => Supervise(ReconnectFailed))) == s
  {
    if failures > 0 {
      var steps: seq<Step> := seq(failures, _ => Supervise(ReconnectFailed));
      var rest: seq<Step> := seq(failures - 1, _ => Supervise(ReconnectFailed));
      assert steps[0] == Supervise(ReconnectFailed) && steps[1..] == rest;
      FailuresWait(s, failures - 1);
    }
  }
}
