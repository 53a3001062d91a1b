/** Concurrent store operations on cloned handles: every interleaving is some one-at-a-time execution. */
module StoreRuns {
  import opened Bytes
  import opened Store

  /** A call, by how far it has got: the write lock, the document it read, its outcome. */
  datatype Phase = Waiting | Locked | HasDoc(doc: Document) | Unlocking(ok: bool) | Finished(ok: bool)

  /** Calls `0..|phases|` run the operations of the same number; `committed` lists those that took effect, in order. */
  datatype System = System(disk: Option<Document>, holder: Option<nat>, phases: seq<Phase>, committed: seq<nat>)

  datatype Step = Acquire(t: nat) | Read(t: nat, ioOk: bool) | Write(t: nat, ioOk: bool) | Release(t: nat)

  function Moved(s: System, t: nat, phase: Phase): System
    requires t < |s.phases|
  {
    s.(phases := s.phases[t := phase])
  }

  function Next(ops: seq<Op>, s: System, step: Step): System
    requires |ops| == |s.phases|
  {
    var t := step.t;
    if t >= |s.phases| then s
    else
      match (s.phases[t], step)
      case (Waiting, Acquire(_)) => if s.holder.Some? then s else Moved(s.(holder := Some(t)), t, Locked)
      case (Locked, Read(_, ioOk)) =>
        (match ReadDoc(s.disk, ioOk)
         case Err(_) => Moved(s, t, Unlocking(false))
         case Ok(doc) => Moved(s, t, HasDoc(doc)))
      case (HasDoc(doc), Write(_, ioOk)) =>
        if WritesNothing(doc, ops[t]) then Moved(s.(committed := s.committed + [t]), t, Unlocking(true))
        else if !ioOk then Moved(s, t, Unlocking(false))
        else Moved(s.(disk := Some(Apply(doc, ops[t])), committed := s.committed + [t]), t, Unlocking(true))
      case (Unlocking(ok), Release(_)) => Moved(s.(holder := None), t, Finished(ok))
      case _ => s
  }

  lemma NextKeepsCount(ops: seq<Op>, s: System, step: Step)
    requires |ops| == |s.phases|
    ensures |Next(ops, s, step).phases| == |s.phases| && s.committed <= Next(ops, s, step).committed
  {
  }

  function Run(ops: seq<Op>, s: System, steps: seq<Step>): (r: System)
    requires |ops| == |s.phases|
    ensures |r.phases| == |ops|
    decreases |steps|
  {
    if steps == [] then s
    else
      NextKeepsCount(ops, s, steps[0]);
      Run(ops, Next(ops, s, steps[0]), steps[1..])
  }

  function Opened(ops: seq<Op>, disk: Option<Document>): System
  {
    System(disk, None, seq(|ops|, _ => Waiting), [])
  }

  /**
   * A call with nothing between its four steps is one operation of the store: the same disk and, once it has
   * finished, the same outcome.
   */
  lemma OneCallIsExec(ops: seq<Op>, s: System, t: nat, readOk: bool, writeOk: bool)
    requires |ops| == |s.phases| && t < |ops| && s.phases[t].Waiting? && s.holder.None?
    ensures var end := Run(ops, s, [Acquire(t), Read(t, readOk), Write(t, writeOk), Release(t)]);
            var (disk, r) := Exec(s.disk, ops[t], readOk, writeOk);
            && end.disk == disk && end.holder.None?
            && end.phases == s.phases[t := Finished(r.Ok?)]
            && end.committed == (if r.Ok? then s.committed + [t] else s.committed)
  {
    var steps := [Acquire(t), Read(t, readOk), Write(t, writeOk), Release(t)];
    var s1 := Next(ops, s, steps[0]);
    var s2 := Next(ops, s1, steps[1]);
    var s3 := Next(ops, s2, steps[2]);
    var s4 := Next(ops, s3, steps[3]);
    assert steps[1..][1..] == steps[2..] && steps[2..][1..] == steps[3..] && steps[3..][1..] == [];
    assert Run(ops, s3, steps[3..]) == s4;
    assert Run(ops, s2, steps[2..]) == s4;
    assert Run(ops, s1, steps[1..]) == s4;
    assert Run(ops, s, steps) == s4;
  }

  // ---- The one-at-a-time execution ----

  predicate Calls(ops: seq<Op>, order: seq<nat>)
  {
    forall i :: 0 <= i < |order| ==> order[i] < |ops|
  }

  /** The operations of the listed calls, one after another. */
  function ApplyAll(doc: Document, ops: seq<Op>, order: seq<nat>): Document
    requires Calls(ops, order)
  {
    if order == [] then doc
    else Apply(ApplyAll(doc, ops, order[..|order| - 1]), ops[order[|order| - 1]])
  }

  predicate HasLock(p: Phase)
  {
    p.Locked? || p.HasDoc? || p.Unlocking?
  }

  predicate TookEffect(p: Phase)
  {
    p == Unlocking(true) || p == Finished(true)
  }

  ghost predicate OneHolder(s: System)
  {
    && (s.holder.Some? ==> s.holder.value < |s.phases|)
    && (forall t :: 0 <= t < |s.phases| ==> (HasLock(s.phases[t]) <==> s.holder == Some(t)))
  }

  /** The document a call has read is still the one on disk. */
  ghost predicate NoStaleRead(s: System)
  {
    forall t :: 0 <= t < |s.phases| && s.phases[t].HasDoc? ==> ReadDoc(s.disk, true) == Ok(s.phases[t].doc)
  }

  ghost predicate Ordered(ops: seq<Op>, s: System)
  {
    && Calls(ops, s.committed)
    && (forall t :: 0 <= t < |s.phases| ==> (t in s.committed <==> TookEffect(s.phases[t])))
    && (forall i, j :: 0 <= i < j < |s.committed| ==> s.committed[i] != s.committed[j])
  }

  ghost predicate Inv(ops: seq<Op>, initial: Option<Document>, s: System)
  {
    && |ops| == |s.phases| && OneHolder(s) && NoStaleRead(s) && Ordered(ops, s)
    && Content(s.disk) == ApplyAll(Content(initial), ops, s.committed)
  }

  /** What a step does to the call that takes it, and to the rest. */
  lemma StepEffect(ops: seq<Op>, initial: Option<Document>, s: System, step: Step)
    requires Inv(ops, initial, s)
    ensures var s' := Next(ops, s, step);
            var t := step.t;
            s' != s ==>
              t < |s.phases| == |s'.phases| && s'.phases == s.phases[t := s'.phases[t]] && Transition(s, s', t, ops[t])
  {
  }

  ghost predicate Transition(s: System, s': System, t: nat, op: Op)
    requires t < |s.phases| == |s'.phases|
  {
    var (p, p') := (s.phases[t], s'.phases[t]);
    || (s.holder.None? && s'.holder == Some(t) && p.Waiting? && p'.Locked? && s'.disk == s.disk && s'.committed == s.committed)
    || (s'.holder == s.holder && p.Locked? && s'.disk == s.disk && s'.committed == s.committed &&
        (p' == Unlocking(false) || (p'.HasDoc? && ReadDoc(s.disk, true) == Ok(p'.doc))))
    || (s'.holder == s.holder && p.HasDoc? && p' == Unlocking(false) && s'.disk == s.disk && s'.committed == s.committed)
    || (s'.holder == s.holder && p.HasDoc? && p' == Unlocking(true) && s'.committed == s.committed + [t] &&
        Content(s'.disk) == Apply(p.doc, op))
    || (s'.holder.None? && p.Unlocking? && p' == Finished(p.ok) && s'.disk == s.disk && s'.committed == s.committed)
  }

  lemma StepKeeps(ops: seq<Op>, initial: Option<Document>, s: System, step: Step)
    requires Inv(ops, initial, s)
    ensures Inv(ops, initial, Next(ops, s, step))
  {
    NextKeepsCount(ops, s, step);
    StepEffect(ops, initial, s, step);
    if Next(ops, s, step) != s { TransitionKeeps(ops, initial, s, Next(ops, s, step), step.t); }
  }

  lemma TransitionKeeps(ops: seq<Op>, initial: Option<Document>, s: System, s': System, t: nat)
    requires Inv(ops, initial, s) && t < |s.phases| == |s'.phases| && s'.phases == s.phases[t := s'.phases[t]]
    requires Transition(s, s', t, ops[t])
    ensures Inv(ops, initial, s')
  {
    assert HasLock(s.phases[t]) <==> s.holder == Some(t);
    if s'.committed != s.committed {
      assert s'.committed[..|s.committed|] == s.committed;
      assert Content(s.disk) == s.phases[t].doc;
    }
  }

  lemma {:induction false} RunKeeps(ops: seq<Op>, initial: Option<Document>, s: System, steps: seq<Step>)
    requires Inv(ops, initial, s)
    ensures Inv(ops, initial, Run(ops, s, steps)) && s.committed <= Run(ops, s, steps).committed
    decreases |steps|
  {
    if steps != [] {
      StepKeeps(ops, initial, s, steps[0]);
      NextKeepsCount(ops, s, steps[0]);
      RunKeeps(ops, initial, Next(ops, s, steps[0]), steps[1..]);
    }
  }

  /**
   * In every interleaving, with any I/O failures, the disk holds what running the effective calls one at a
   * time would leave; a call that returned took effect, once, exactly if it returned success; and one that
   * has not read yet has not.
   */
  lemma EveryRunIsSequential(ops: seq<Op>, initial: Option<Document>, steps: seq<Step>)
    ensures var s := Run(ops, Opened(ops, initial), steps);
            && Calls(ops, s.committed)
            && Content(s.disk) == ApplyAll(Content(initial), ops, s.committed)
            && (forall i, j :: 0 <= i < j < |s.committed| ==> s.committed[i] != s.committed[j])
            && (forall t :: 0 <= t < |ops| && s.phases[t].Finished? ==> (t in s.committed <==> s.phases[t].ok))
            && (forall t :: 0 <= t < |ops| && (s.phases[t].Waiting? || s.phases[t].Locked?) ==> t !in s.committed)
  {
    RunKeeps(ops, initial, Opened(ops, initial), steps);
  }

  lemma {:induction false} RunConcat(ops: seq<Op>, s: System, xs: seq<Step>, ys: seq<Step>)
    requires |ops| == |s.phases|
    ensures Run(ops, s, xs + ys) == Run(ops, Run(ops, s, xs), ys)
    decreases |xs|
  {
    if xs == [] {
      assert xs + ys == ys;
    } else {
      NextKeepsCount(ops, s, xs[0]);
      assert (xs + ys)[0] == xs[0] && (xs + ys)[1..] == xs[1..] + ys;
      RunConcat(ops, Next(ops, s, xs[0]), xs[1..], ys);
    }
  }

  /** The sequential order is the real-time order: a call that returned before another started comes first. */
  lemma OrderIsRealTime(ops: seq<Op>, initial: Option<Document>, xs: seq<Step>, ys: seq<Step>, t: nat, u: nat) returns (i: nat, j: nat)
    requires t < |ops| && u < |ops|
    requires var mid := Run(ops, Opened(ops, initial), xs); mid.phases[t] == Finished(true) && mid.phases[u].Waiting?
    requires u in Run(ops, Opened(ops, initial), xs + ys).committed
    ensures var s := Run(ops, Opened(ops, initial), xs + ys);
            i < j < |s.committed| && s.committed[i] == t && s.committed[j] == u
  {
    var mid := Run(ops, Opened(ops, initial), xs);
    RunKeeps(ops, initial, Opened(ops, initial), xs);
    RunKeeps(ops, initial, mid, ys);
    RunConcat(ops, Opened(ops, initial), xs, ys);
    var s := Run(ops, mid, ys);
    assert t in mid.committed && u !in mid.committed;
    i :| 0 <= i < |mid.committed| && mid.committed[i] == t;
    j :| 0 <= j < |s.committed| && s.committed[j] == u;
    assert s.committed[..|mid.committed|] == mid.committed;
    assert forall k :: 0 <= k < |mid.committed| ==> s.committed[k] == mid.committed[k];
  }

  // ---- The store as a map of accessories ----

  /** One id's accessory under the listed calls, one after another. */
  function CellAfter(cell: Option<StoredAccessory>, ops: seq<Op>, order: seq<nat>, id: string): Option<StoredAccessory>
    requires Calls(ops, order)
  {
    if order == [] then cell
    else CellStep(CellAfter(cell, ops, order[..|order| - 1], id), ops[order[|order| - 1]], id)
  }

  lemma {:induction false} ApplyAllIsCellwise(doc: Document, ops: seq<Op>, order: seq<nat>, id: string)
    requires Loads(doc) && Calls(ops, order) && forall op :: op in ops ==> OpFits(op)
    ensures Loads(ApplyAll(doc, ops, order))
    ensures Loaded(ApplyAll(doc, ops, order), id) == CellAfter(Loaded(doc, id), ops, order, id)
  {
    if order != [] {
      var front := order[..|order| - 1];
      ApplyAllIsCellwise(doc, ops, front, id);
      ApplyIsCellwise(ApplyAll(doc, ops, front), ops[order[|order| - 1]], id);
    }
  }

  /**
   * Starting from a loadable document, every interleaving leaves one, with ids unique, in which each id's
   * accessory is exactly what the effective calls, in their order, make of its own cell: no update is lost
   * and no call touches another id's accessory.
   */
  lemma StoreIsAMap(ops: seq<Op>, initial: Option<Document>, steps: seq<Step>, id: string)
    requires Loads(Content(initial)) && forall op :: op in ops ==> OpFits(op)
    ensures var s := Run(ops, Opened(ops, initial), steps);
            && Calls(ops, s.committed)
            && Loads(Content(s.disk))
            && Loaded(Content(s.disk), id) == CellAfter(Loaded(Content(initial), id), ops, s.committed, id)
  {
    EveryRunIsSequential(ops, initial, steps);
    ApplyAllIsCellwise(Content(initial), ops, Run(ops, Opened(ops, initial), steps).committed, id);
  }
}
