/** What the past of a run must have looked like: how tasks became done, and what became of their
    dependencies since. */
module BoardHistory {
  import opened DependencyGraph
  import opened BoardModel
  import opened TaskRules
  import opened TaskFacts
  import opened BoardRuns

  // ----- Becoming done ----------------------------------------------------------------------------

  /** Every step that finishes an existing task is an update of it that meets all the board's
      conditions; no reconciliation, deletion or other request finishes a task. */
  lemma OnlyGatedUpdatesFinish(s: System, act: Action, t: Id)
    requires Consistent(s.db) && t in s.db.tasks && !IsDone(s.db, t) && IsDone(Next(s, act).db, t)
    ensures act.Update? && act.t == t && MayFinish(s.db, Next(s, act).db, t)
  {
    match act
    case Update(actor, x, patch, now) =>
      FirstCommitEffect(s.db, actor, x, patch, now);
      var after := FirstCommit(s.db, actor, x, patch, now).value.0;
      BlockersDependOn(after, Next(s, act).db, t);
    case Finish(i, now) =>
      var job, seen := s.pending[i].job, s.pending[i].seen.value;
      ReconcileEffect(s.db, job.task, job.before, seen.status, seen.title, job.actor, now);
    case Create(x, payload, lead, now) =>
      StoreTaskEffect(s.db, x, payload, lead, now);
    case Announce(_, _) =>
    case Refresh(_) =>
    case Comment(_, _) =>
    case Delete(_) =>
    case OpenApproval(_, _, _, _) =>
    case ResolveApproval(_, _, _) =>
    case Configure(_, _, _, _, _) =>
  }

  /** A task that a step makes done, or creates done, has no unfinished dependency then. */
  lemma FinishedTasksWereReady(s: System, act: Action, t: Id)
    requires Consistent(s.db) && !IsDone(s.db, t) && IsDone(Next(s, act).db, t)
    ensures BlockersOf(Next(s, act).db, t) == {}
  {
    if t in s.db.tasks {
      OnlyGatedUpdatesFinish(s, act, t);
    } else if act.Create? {
      StoreTaskEffect(s.db, act.t, act.payload, act.lead, act.now);
    } else if act.Update? && FirstCommit(s.db, act.actor, act.t, act.patch, act.now).Ok? {
      FirstCommitEffect(s.db, act.actor, act.t, act.patch, act.now);
    } else if act.Finish? && act.i < |s.pending| && Ready(s.pending[act.i]) && s.pending[act.i].job.task in s.db.tasks {
      var job, seen := s.pending[act.i].job, s.pending[act.i].seen.value;
      ReconcileEffect(s.db, job.task, job.before, seen.status, seen.title, job.actor, act.now);
    }
  }

  /** While a task stays done its dependencies only go away, by deletion. */
  lemma DoneTasksGainNoDependency(s: System, act: Action, t: Id, d: Id)
    requires Consistent(s.db) && IsDone(s.db, t) && IsDone(Next(s, act).db, t)
    requires (t, d) in Next(s, act).db.edges
    ensures (t, d) in s.db.edges
  {
    match act
    case Update(actor, x, patch, now) =>
      if FirstCommit(s.db, actor, x, patch, now).Ok? {
        FirstCommitEffect(s.db, actor, x, patch, now);
      }
    case Finish(i, now) =>
      if i < |s.pending| && Ready(s.pending[i]) {
        var job, seen := s.pending[i].job, s.pending[i].seen.value;
        ReconcileEffect(s.db, job.task, job.before, seen.status, seen.title, job.actor, now);
      }
    case Create(x, payload, lead, now) =>
      if StoreTask(s.db, x, payload, lead, now).Ok? {
        StoreTaskEffect(s.db, x, payload, lead, now);
      }
    case Announce(_, _) =>
    case Refresh(_) =>
    case Comment(_, _) =>
    case Delete(_) =>
    case OpenApproval(_, _, _, _) =>
    case ResolveApproval(_, _, _) =>
    case Configure(_, _, _, _, _) =>
  }

  // ----- Histories --------------------------------------------------------------------------------

  /** The rows after each commit of a run, from the start on. */
  ghost function Trace(s: System, acts: seq<Action>): (tr: seq<Db>)
    ensures |tr| == |acts| + 1
  {
    if acts == [] then [s.db] else Trace(s, acts[..|acts| - 1]) + [Run(s, acts).db]
  }

  lemma {:induction false} TraceIsRun(s: System, acts: seq<Action>, k: nat)
    requires k <= |acts|
    ensures Trace(s, acts)[k] == Run(s, acts[..k]).db
  {
    if k == |acts| {
      assert acts[..k] == acts;
    } else {
      TraceIsRun(s, acts[..|acts| - 1], k);
      assert acts[..|acts| - 1][..k] == acts[..k];
    }
  }

  ghost predicate DoneLaw(db: Db, after: Db, t: Id) {
    && (!IsDone(db, t) && IsDone(after, t) ==> BlockersOf(after, t) == {})
    && (IsDone(db, t) && IsDone(after, t) ==> forall d :: (t, d) in after.edges ==> (t, d) in db.edges)
  }

  lemma StepObeysDoneLaw(s: System, act: Action, t: Id)
    requires Consistent(s.db)
    ensures DoneLaw(s.db, Next(s, act).db, t)
  {
    if !IsDone(s.db, t) && IsDone(Next(s, act).db, t) {
      FinishedTasksWereReady(s, act, t);
    }
    forall d | IsDone(s.db, t) && IsDone(Next(s, act).db, t) && (t, d) in Next(s, act).db.edges
      ensures (t, d) in s.db.edges
    {
      DoneTasksGainNoDependency(s, act, t, d);
    }
  }

  ghost predicate Lawful(tr: seq<Db>, t: Id) {
    forall k, l | 0 <= k < l < |tr| && l == k + 1 :: DoneLaw(tr[k], tr[l], t)
  }

  lemma {:induction false} TraceIsLawful(s: System, acts: seq<Action>, t: Id)
    requires Consistent(s.db)
    ensures Lawful(Trace(s, acts), t)
  {
    if acts != [] {
      var front := acts[..|acts| - 1];
      TraceIsLawful(s, front, t);
      RunsStayConsistent(s, front);
      StepObeysDoneLaw(Run(s, front), acts[|acts| - 1], t);
      TraceIsRun(s, front, |front|);
      assert front[..|front|] == front;
    }
  }

  /** The step at which a done task last became done: from it on the task stayed done, and all
      that it depends on at the end was done at that moment. */
  ghost predicate BecameDoneAt(tr: seq<Db>, t: Id, i: nat)
    requires i + 1 < |tr|
  {
    && !IsDone(tr[i], t)
    && (forall k :: i < k < |tr| ==> IsDone(tr[k], t))
    && (forall d :: (t, d) in tr[|tr| - 1].edges ==> IsDone(tr[i + 1], d))
  }

  lemma UnblockedMeansAllDone(db: Db, t: Id)
    ensures BlockersOf(db, t) == {} <==> forall d :: (t, d) in db.edges ==> IsDone(db, d)
  {
    forall d | (t, d) in db.edges ensures IsDone(db, d) || d in BlockersOf(db, t) {
      assert IsDone(db, d) || (t, d).1 in BlockersOf(db, t);
    }
    if d :| d in BlockersOf(db, t) {
      assert (t, d) in db.edges && !IsDone(db, d);
    }
  }

  lemma {:induction false} LastBecameDone(tr: seq<Db>, t: Id) returns (i: nat)
    requires |tr| > 0 && Lawful(tr, t) && !IsDone(tr[0], t) && IsDone(tr[|tr| - 1], t)
    ensures i + 1 < |tr| && BecameDoneAt(tr, t, i)
  {
    var n := |tr| - 1;
    var front := tr[..n];
    assert DoneLaw(tr[n - 1], tr[n], t);
    if !IsDone(tr[n - 1], t) {
      i := n - 1;
      UnblockedMeansAllDone(tr[n], t);
    } else {
      i := LastBecameDone(front, t);
    }
  }

  /** Between a moment when `d` is done and a later one when it is not, some step reopens it. */
  lemma {:induction false} ReopenedBetween(tr: seq<Db>, d: Id, lo: nat, hi: nat) returns (j: nat)
    requires lo < hi < |tr| && IsDone(tr[lo], d) && !IsDone(tr[hi], d)
    ensures lo <= j < hi && IsDone(tr[j], d) && !IsDone(tr[j + 1], d)
    decreases hi - lo
  {
    if IsDone(tr[hi - 1], d) {
      j := hi - 1;
    } else {
      j := ReopenedBetween(tr, d, lo, hi - 1);
    }
  }

  /** In every run, interleaved or not and with every kind of update: if a done task has an
      unfinished dependency, that dependency was done when the task last became done (or was
      created done), and was reopened afterwards. */
  lemma OpenDependencyWasReopened(s: System, acts: seq<Action>, t: Id, d: Id) returns (i: nat, j: nat)
    requires Fresh(s)
    requires var db := Run(s, acts).db; IsDone(db, t) && (t, d) in db.edges && !IsDone(db, d)
    ensures var tr := Trace(s, acts);
            && i < j < |acts| && BecameDoneAt(tr, t, i) && IsDone(tr[i + 1], d)
            && IsDone(tr[j], d) && !IsDone(tr[j + 1], d)
  {
    FreshIsConsistent(s);
    TraceIsLawful(s, acts, t);
    TraceIsRun(s, acts, 0);
    TraceIsRun(s, acts, |acts|);
    assert acts[..|acts|] == acts;
    i := LastBecameDone(Trace(s, acts), t);
    j := ReopenedBetween(Trace(s, acts), d, i + 1, |acts|);
  }
}
