/** What each endpoint guarantees about one step, stated over the rows before and after. */
module TaskFacts {
  import opened Wrappers
  import opened DependencyGraph
  import opened BoardModel
  import opened TaskRules
  import opened ApprovalRules

  ghost predicate EdgesOfOthersKept(before: Edges, after: Edges, t: Id) {
    forall x: Id, d: Id :: x != t ==> ((x, d) in after <==> (x, d) in before)
  }

  // ----- Dependency edits ----------------------------------------------------------------------

  /** An accepted edit keeps the graph inside the board, without self edges and acyclic, and
      touches only the edges of the edited task; a finished task's edges are not edited. */
  lemma DependencyEdit(db: Db, t: Id, u: TaskUpdate)
    requires t in db.tasks && WellFormed(db) && Acyclic(db.edges) && ApplyDependencies(db, t, u).Ok?
    ensures var after := ApplyDependencies(db, t, u).value;
            && after == db.(edges := after.edges)
            && WellFormed(after) && Acyclic(after.edges)
            && EdgesOfOthersKept(db.edges, after.edges, t)
            && (u.dependsOn.None? || IsDone(db, t) ==> after == db)
            && (u.dependsOn.Some? ==> DependenciesOf(after, t) == ToSet(u.dependsOn.value))
  {
    var after := ApplyDependencies(db, t, u).value;
    if u.dependsOn.Some? {
      var deps := ToSet(u.dependsOn.value);
      assert forall d :: d in deps ==> (t, d) in after.edges;
      if deps == {} {
        FewerEdgesStayAcyclic(db.edges, after.edges);
      }
    }
  }

  /** The edges that a new task brings. */
  lemma DependencyStart(db: Db, t: Id, requested: seq<Id>)
    requires t !in db.tasks && WellFormed(db) && Acyclic(db.edges) && CheckDependencies(db, t, requested).Ok?
    ensures var deps := CheckDependencies(db, t, requested).value;
            var edges := WithDependencies(db.edges, t, deps);
            && deps <= db.tasks.Keys && t !in deps && deps == ToSet(requested)
            && (forall e :: e in edges <==> e in db.edges || (e.0 == t && e.1 in deps))
            && Acyclic(edges)
  {
    var deps := CheckDependencies(db, t, requested).value;
    if deps == {} {
      FewerEdgesStayAcyclic(db.edges, WithDependencies(db.edges, t, deps));
    }
  }

  // ----- Reconciliation -------------------------------------------------------------------------

  /** One level is enough: reopening `d` parks exactly its unfinished dependents. */
  lemma ReconcileEffect(db: Db, d: Id, before: Status, after: Status, title: string, actor: Option<Id>, now: int)
    ensures var db' := AfterTransition(db, d, before, after, title, actor, now);
            && db' == db.(tasks := db'.tasks, events := db'.events)
            && db'.tasks.Keys == db.tasks.Keys
            && (forall x :: x in db.tasks ==>
                  db'.tasks[x] == if before.Done? && !after.Done? && (x, d) in db.edges && !IsDone(db, x)
                                  then ParkTask(db.tasks[x], now) else db.tasks[x])
  {
    var dependents := OpenDependents(db, d);
    forall x | x in db.tasks
      ensures x in dependents <==> (x, d) in db.edges && !IsDone(db, x)
    {
      if (x, d) in db.edges && !IsDone(db, x) {
        assert (x, d).0 in dependents;
      }
    }
  }

  // ----- The three update paths ------------------------------------------------------------------

  /** A first commit stores one task and that task's edges, tags and fields, nothing else. */
  ghost predicate TouchesOnly(db: Db, after: Db, t: Id) {
    && after == db.(edges := after.edges, tags := after.tags, fieldRows := after.fieldRows, tasks := after.tasks)
    && t in after.tasks && after.tasks == db.tasks[t := after.tasks[t]]
    && EdgesOfOthersKept(db.edges, after.edges, t)
    && (forall x :: x != t ==> (x in after.tags <==> x in db.tags) && (x in db.tags ==> after.tags[x] == db.tags[x]))
    && (forall x :: x != t ==> RowsOf(after, x) == RowsOf(db, x))
  }

  /** What it takes to move a task from unfinished to done. */
  ghost predicate MayFinish(db: Db, after: Db, t: Id) {
    && BlockersOf(after, t) == {}
    && (db.flags.requireReview ==> t in db.tasks && db.tasks[t].status.Review?)
    && (db.flags.requireApproval ==> HasApprovedApproval(db, t))
  }

  lemma BlockersAfterCommit(db: Db, after: Db, t: Id)
    requires WellFormed(after) && TouchesOnly(db, after, t)
    ensures BlockersOf(after, t) == BlockersOf(db.(edges := after.edges), t)
  {
    var mid := db.(edges := after.edges);
    forall e | e in after.edges && e.0 == t
      ensures IsDone(after, e.1) <==> IsDone(mid, e.1)
    {
    }
  }

  lemma StoreUpdateEffect(db: Db, edges: Edges, t: Id, ruled: Task, status: Option<Status>,
                          assignee: Option<Option<Id>>, tags: Option<seq<Id>>, u: TaskUpdate,
                          actor: Option<Id>, now: int)
    requires t in db.tasks && WellFormed(db)
    requires EdgesOfOthersKept(db.edges, edges, t)
    requires StoreUpdate(db, edges, t, ruled, status, assignee, tags, u, actor, now).Ok?
    ensures var (after, job) := StoreUpdate(db, edges, t, ruled, status, assignee, tags, u, actor, now).value;
            var task := after.tasks[t];
            && TouchesOnly(db, after, t) && after.edges == edges
            && task.status == status.GetOr(ruled.status)
            && task.inProgressAt == ruled.inProgressAt
            && (!task.status.Review? || db.tasks[t].status.Review? ==> task.assignee == assignee.GetOr(ruled.assignee))
            && job == Job(t, db.tasks[t].status, task.status, actor, u.comment)
            && Gates(db, t, db.tasks[t].status, task.status, StatusRequested(db.tasks[t], u)).None?
  {
    FinalTaskEffect(db, t, db.tasks[t], ruled, status, assignee, u);
  }

  lemma FinalTaskEffect(db: Db, t: Id, prior: Task, ruled: Task, status: Option<Status>,
                        assignee: Option<Option<Id>>, u: TaskUpdate)
    requires FinalTask(db, t, prior, ruled, status, assignee, u).Ok?
    ensures var task := FinalTask(db, t, prior, ruled, status, assignee, u).value;
            && task.status == status.GetOr(ruled.status) && task.inProgressAt == ruled.inProgressAt
            && (!task.status.Review? || prior.status.Review? ==> task.assignee == assignee.GetOr(ruled.assignee))
            && Gates(db, t, prior.status, task.status, StatusRequested(prior, u)).None?
  {
  }

  lemma UserUpdateEffect(db: Db, t: Id, u: TaskUpdate, now: int)
    requires t in db.tasks && WellFormed(db) && Acyclic(db.edges) && UserUpdate(db, t, u, now).Ok?
    ensures var (after, job) := UserUpdate(db, t, u, now).value;
            && TouchesOnly(db, after, t) && WellFormed(after) && Acyclic(after.edges)
            && (IsDone(db, t) ==> after.edges == db.edges)
            && job.task == t && job.before == db.tasks[t].status && job.after == after.tasks[t].status
            && job.actor == None
            && (BlockersOf(after, t) != {} ==> Parked(after.tasks[t]) || (IsDone(db, t) && IsDone(after, t)))
            && (!IsDone(db, t) && IsDone(after, t) ==> MayFinish(db, after, t))
  {
    var task := db.tasks[t];
    DependencyEdit(db, t, u);
    var d1 := ApplyDependencies(db, t, u).value;
    var target := u.status.GetOr(task.status);
    var rewritten := BlockersOf(d1, t) != {} && !(task.status.Done? && target.Done?);
    var status := if rewritten then Some(Inbox) else u.status;
    var assignee := if rewritten then Some(None) else u.assignee;
    var base := if rewritten then task.(status := Inbox, assignee := None, inProgressAt := None) else task;
    var ruled :=
      if status == Some(Inbox) || status == Some(Review) then LeaveWork(base)
      else if status == Some(InProgress) then base.(inProgressAt := Some(now))
      else base;
    var tags := CheckOptionalTags(db, u.tagIds).value;
    StoreUpdateEffect(db, d1.edges, t, ruled, status, assignee, tags, u, None, now);
    BlockersAfterEdit(db, d1, UserUpdate(db, t, u, now).value.0, t);
  }

  lemma BlockersAfterEdit(db: Db, edited: Db, after: Db, t: Id)
    requires WellFormed(edited) && edited == db.(edges := edited.edges)
    requires TouchesOnly(db, after, t) && after.edges == edited.edges && t in db.tasks
    ensures WellFormed(after) && BlockersOf(after, t) == BlockersOf(edited, t)
  {
    BlockersAfterCommit(db, after, t);
  }

  lemma WorkerUpdateEffect(db: Db, a: Id, t: Id, u: TaskUpdate, now: int)
    requires t in db.tasks && a in db.agents && WellFormed(db) && WorkerUpdate(db, a, t, u, now).Ok?
    ensures var (after, job) := WorkerUpdate(db, a, t, u, now).value;
            && TouchesOnly(db, after, t) && after.edges == db.edges
            && job.task == t && job.before == db.tasks[t].status && job.after == after.tasks[t].status
            && job.actor == Some(a)
            && (BlockersOf(after, t) != {} ==>
                  || Parked(after.tasks[t])
                  || after.tasks[t].(updatedAt := 0) == db.tasks[t].(updatedAt := 0))
            && (!IsDone(db, t) && IsDone(after, t) ==> MayFinish(db, after, t))
  {
    var task := db.tasks[t];
    var ruled :=
      if u.status.None? then task
      else
        match u.status.value
        case Inbox => LeaveWork(task)
        case Review => LeaveWork(task)
        case InProgress => task.(assignee := Some(a), inProgressAt := Some(now))
        case Done => task.(assignee := Some(a));
    StoreUpdateEffect(db, db.edges, t, ruled, u.status, None, None, u, Some(a), now);
    var (after, job) := WorkerUpdate(db, a, t, u, now).value;
    assert db == db.(edges := after.edges);
    BlockersAfterCommit(db, after, t);
  }

  /** A PATCH that gives dependencies but neither a status nor an assignee. */
  predicate DependencyOnly(u: TaskUpdate) {
    u.dependsOn.Some? && u.status.None? && u.assignee.None?
  }

  /** The frame of a lead's update: the rows it stores before the event and the dependents. */
  lemma LeadStoreFrame(db: Db, lead: Id, t: Id, u: TaskUpdate, now: int)
    requires t in db.tasks && WellFormed(db) && Acyclic(db.edges) && LeadStore(db, lead, t, u, now).Ok?
    ensures var stored := LeadStore(db, lead, t, u, now).value;
            && TouchesOnly(db, stored, t) && WellFormed(stored) && Acyclic(stored.edges)
            && ApplyDependencies(db, t, u).Ok? && stored.edges == ApplyDependencies(db, t, u).value.edges
  {
    DependencyEdit(db, t, u);
  }

  /** What a lead's update does to the task itself. */
  lemma LeadStoreTask(db: Db, lead: Id, t: Id, u: TaskUpdate, now: int)
    requires t in db.tasks && WellFormed(db) && LeadStore(db, lead, t, u, now).Ok?
    ensures var stored := LeadStore(db, lead, t, u, now).value;
            var task := stored.tasks[t];
            && task.status == u.status.GetOr(db.tasks[t].status)
            && (task.status.Review? || db.tasks[t].status.Done? ==> task.status == db.tasks[t].status)
            && (u.status.None? && u.assignee.None? ==> task.(updatedAt := 0) == db.tasks[t].(updatedAt := 0))
            && Gates(db, t, db.tasks[t].status, task.status, StatusRequested(db.tasks[t], u)).None?
  {
  }

  /** A lead's transition or assignment is accepted only on an unblocked task. */
  lemma LeadStoreUnblocked(db: Db, lead: Id, t: Id, u: TaskUpdate, now: int)
    requires t in db.tasks && WellFormed(db) && LeadStore(db, lead, t, u, now).Ok?
    requires u.status.Some? || u.assignee.Some?
    ensures BlockersOf(db.(edges := LeadStore(db, lead, t, u, now).value.edges), t) == {}
  {
    var d1 := ApplyDependencies(db, t, u).value;
    assert d1 == db.(edges := LeadStore(db, lead, t, u, now).value.edges);
  }

  /** A lead never reopens a task, so after its rows are stored only events are added. */
  lemma LeadUpdateLogs(db: Db, lead: Id, t: Id, u: TaskUpdate, now: int)
    requires t in db.tasks && WellFormed(db) && LeadUpdate(db, lead, t, u, now).Ok?
    ensures LeadStore(db, lead, t, u, now).Ok?
    ensures LeadUpdate(db, lead, t, u, now).value.(events := db.events)
            == LeadStore(db, lead, t, u, now).value.(events := db.events)
  {
    LeadStoreTask(db, lead, t, u, now);
    var stored := LeadStore(db, lead, t, u, now).value;
    ReconcileEffect(stored, t, db.tasks[t].status, stored.tasks[t].status, stored.tasks[t].title, Some(lead), now);
    assert LeadUpdate(db, lead, t, u, now).value.tasks == stored.tasks;
  }

  lemma LeadUpdateEffect(db: Db, lead: Id, t: Id, u: TaskUpdate, now: int)
    requires t in db.tasks && WellFormed(db) && Acyclic(db.edges) && LeadUpdate(db, lead, t, u, now).Ok?
    ensures var after := LeadUpdate(db, lead, t, u, now).value;
            && TouchesOnly(db, after.(events := db.events), t) && WellFormed(after) && Acyclic(after.edges)
            && (IsDone(db, t) ==> after.edges == db.edges && IsDone(after, t))
            && (u.dependsOn.None? ==> after.edges == db.edges)
            && (u.dependsOn.Some? ==> DependenciesOf(after, t) == ToSet(u.dependsOn.value))
            && (BlockersOf(after, t) != {} ==>
                  u.status.None? && u.assignee.None?
                  && after.tasks[t].(updatedAt := 0) == db.tasks[t].(updatedAt := 0))
            && (!IsDone(db, t) && IsDone(after, t) ==> MayFinish(db, after, t))
  {
    LeadUpdateLogs(db, lead, t, u, now);
    LeadStoreFrame(db, lead, t, u, now);
    LeadStoreTask(db, lead, t, u, now);
    if u.status.Some? || u.assignee.Some? {
      LeadStoreUnblocked(db, lead, t, u, now);
    }
    DependencyEdit(db, t, u);
    var after, stored := LeadUpdate(db, lead, t, u, now).value, LeadStore(db, lead, t, u, now).value;
    BlockersAfterCommit(db, stored, t);
    BlockersDependOn(after, stored, t);
  }

  lemma BlockersDependOn(db: Db, other: Db, t: Id)
    requires db.edges == other.edges && db.tasks == other.tasks
    ensures BlockersOf(db, t) == BlockersOf(other, t) && DependenciesOf(db, t) == DependenciesOf(other, t)
  {
  }

  lemma StoreTaskEffect(db: Db, t: Id, c: TaskCreate, lead: Option<Id>, now: int)
    requires WellFormed(db) && Acyclic(db.edges) && StoreTask(db, t, c, lead, now).Ok?
    ensures var after := StoreTask(db, t, c, lead, now).value;
            && t !in db.tasks
            && after == db.(tasks := after.tasks, edges := after.edges, tags := after.tags,
                            fieldRows := after.fieldRows)
            && t in after.tasks && after.tasks == db.tasks[t := after.tasks[t]]
            && EdgesOfOthersKept(db.edges, after.edges, t)
            && WellFormed(after) && Acyclic(after.edges)
            && (BlockersOf(after, t) != {} ==> Parked(after.tasks[t]))
  {
    DependencyStart(db, t, c.dependsOn);
    var after := StoreTask(db, t, c, lead, now).value;
    var deps := CheckDependencies(db, t, c.dependsOn).value;
    forall d | d in BlockersOf(after, t) ensures d in deps && !IsDone(db, d) {
      assert (t, d) in after.edges;
    }
  }

  lemma CreateTaskEffect(db: Db, t: Id, c: TaskCreate, lead: Option<Id>, now: int)
    requires WellFormed(db) && Acyclic(db.edges) && CreateTask(db, t, c, lead, now).Ok?
    ensures var after := CreateTask(db, t, c, lead, now).value;
            && t !in db.tasks
            && after == db.(tasks := after.tasks, edges := after.edges, tags := after.tags,
                            fieldRows := after.fieldRows, events := after.events)
            && after.events == db.events + [CreatedEvent(t, c.title, lead, now)]
            && t in after.tasks && after.tasks == db.tasks[t := after.tasks[t]]
            && EdgesOfOthersKept(db.edges, after.edges, t)
            && WellFormed(after) && Acyclic(after.edges)
            && (BlockersOf(after, t) != {} ==> Parked(after.tasks[t]))
  {
    StoreTaskEffect(db, t, c, lead, now);
    var stored, after := StoreTask(db, t, c, lead, now).value, CreateTask(db, t, c, lead, now).value;
    assert BlockersOf(after, t) == BlockersOf(stored, t);
  }

  // ----- The pending-approval gate ------------------------------------------------------------------

  predicate LeavesBlocked(db: Db, t: Id, u: TaskUpdate) {
    if u.dependsOn.Some? then exists d :: d in u.dependsOn.value && !IsDone(db, d)
    else BlockersOf(db, t) != {}
  }

  /** A user's edit of an active task that asks for no other status but leaves it blocked. */
  predicate RewritesActiveTask(db: Db, actor: Actor, t: Id, u: TaskUpdate)
    requires t in db.tasks
  {
    && actor.User? && !StatusRequested(db.tasks[t], u) && LeavesBlocked(db, t, u)
    && (db.tasks[t].status.InProgress? || db.tasks[t].status.Review?)
  }

  lemma BlockedAfterEdit(db: Db, t: Id, u: TaskUpdate)
    requires t in db.tasks && WellFormed(db) && Acyclic(db.edges) && ApplyDependencies(db, t, u).Ok?
    ensures BlockersOf(ApplyDependencies(db, t, u).value, t) != {} <==> LeavesBlocked(db, t, u)
  {
    var d1 := ApplyDependencies(db, t, u).value;
    DependencyEdit(db, t, u);
    if u.dependsOn.Some? {
      if d :| d in u.dependsOn.value && !IsDone(db, d) {
        assert d in DependenciesOf(d1, t);
        assert (t, d) in d1.edges;
        assert (t, d).1 in BlockersOf(d1, t);
      }
      if d :| d in BlockersOf(d1, t) {
        assert (t, d).1 in DependenciesOf(d1, t);
      }
    }
  }

  /** Under the board rule "no status change while an approval is pending" the first commit still
      moves the task in one case, and in all of that case: a user's edit that asks for no other
      status but leaves an active task blocked is rewritten to the inbox without the gate. */
  lemma FirstCommitMovesHeldTaskIff(db: Db, actor: Actor, t: Id, u: TaskUpdate, now: int)
    requires WellFormed(db) && Acyclic(db.edges) && FirstCommit(db, actor, t, u, now).Ok?
    requires db.flags.blockWithPending && HasPendingApproval(db, t)
    ensures var after := FirstCommit(db, actor, t, u, now).value.0;
            && t in db.tasks && t in after.tasks
            && (after.tasks[t].status != db.tasks[t].status
                <==> RewritesActiveTask(db, actor, t, u))
  {
    match actor
    case User =>
      UserUpdateGate(db, t, u, now);
    case AgentActor(a) =>
      if db.agents[a].isLead {
        LeadStoreFrame(db, a, t, u, now);
        LeadStoreTask(db, a, t, u, now);
        var stored := LeadStore(db, a, t, u, now).value;
        ReconcileEffect(stored, t, db.tasks[t].status, stored.tasks[t].status, stored.tasks[t].title, Some(a), now);
      } else {
        WorkerUpdateEffect(db, a, t, u, now);
        WorkerUpdateGate(db, a, t, u, now);
      }
  }

  lemma UserUpdateGate(db: Db, t: Id, u: TaskUpdate, now: int)
    requires t in db.tasks && WellFormed(db) && Acyclic(db.edges) && UserUpdate(db, t, u, now).Ok?
    requires db.flags.blockWithPending && HasPendingApproval(db, t)
    ensures t in UserUpdate(db, t, u, now).value.0.tasks
    ensures UserUpdate(db, t, u, now).value.0.tasks[t].status != db.tasks[t].status
            <==> !StatusRequested(db.tasks[t], u) && LeavesBlocked(db, t, u)
                 && (db.tasks[t].status.InProgress? || db.tasks[t].status.Review?)
  {
    BlockedAfterEdit(db, t, u);
  }

  lemma WorkerUpdateGate(db: Db, a: Id, t: Id, u: TaskUpdate, now: int)
    requires t in db.tasks && a in db.agents && WellFormed(db) && WorkerUpdate(db, a, t, u, now).Ok?
    requires db.flags.blockWithPending && HasPendingApproval(db, t)
    ensures t in WorkerUpdate(db, a, t, u, now).value.0.tasks
    ensures WorkerUpdate(db, a, t, u, now).value.0.tasks[t].status == db.tasks[t].status
  {
  }

  lemma DeleteKeepsWellFormed(db: Db, t: Id)
    requires WellFormed(db) && Acyclic(db.edges)
    ensures WellFormed(DeleteTask(db, t)) && Acyclic(DeleteTask(db, t).edges)
  {
    FewerEdgesStayAcyclic(db.edges, DeleteTask(db, t).edges);
  }

  // ----- Deleting a task ---------------------------------------------------------------------------

  lemma {:induction false} SelectIs(es: seq<Event>, keep: Event -> bool)
    ensures forall e :: e in Select(es, keep) <==> e in es && keep(e)
    ensures (forall e | e in es :: keep(e)) ==> Select(es, keep) == es
  {
    if es != [] {
      SelectIs(es[..|es| - 1], keep);
      assert es == es[..|es| - 1] + [es[|es| - 1]];
    }
  }

  /** No row that survives names the deleted task. */
  lemma DeleteLeavesNoTrace(db: Db, t: Id)
    requires LinksConsistent(db)
    ensures var after := DeleteTask(db, t);
            && t !in after.tasks && t !in after.tags && t !in after.fieldRows
            && (forall e :: e in after.edges ==> e.0 != t && e.1 != t)
            && (forall e :: e in after.events ==> e.task != t)
            && (forall f :: f in after.fingerprints ==> f.1 != t)
            && (forall l :: l in after.links ==> l.task != t)
            && (forall a :: a in after.approvals ==> after.approvals[a].task != Some(t))
  {
    SelectIs(db.events, NotAbout(t));
    LinksWithoutAre(db.links, t);
    forall a | a in DeleteTask(db, t).approvals ensures DeleteTask(db, t).approvals[a].task != Some(t) {
      DeletedApproval(db, t, a);
    }
  }

  /** Everything that does not name the deleted task is as before, and an approval with another
      linked task survives with its primary task among its links. */
  lemma DeleteKeepsTheRest(db: Db, t: Id)
    requires LinksConsistent(db)
    ensures var after := DeleteTask(db, t);
            && (forall x :: x in db.tasks && x != t ==> x in after.tasks && after.tasks[x] == db.tasks[x])
            && (forall x :: x in db.tags && x != t ==> x in after.tags && after.tags[x] == db.tags[x])
            && (forall x :: x in db.fieldRows && x != t ==>
                x in after.fieldRows && after.fieldRows[x] == db.fieldRows[x])
            && (forall e :: e in db.edges && e.0 != t && e.1 != t ==> e in after.edges)
            && (forall e :: e in db.events && e.task != t ==> e in after.events)
            && (forall f :: f in db.fingerprints && f.1 != t ==> f in after.fingerprints)
            && (forall l :: l in db.links && l.task != t ==> l in after.links)
            && (forall a :: a in db.approvals && db.approvals[a].task != Some(t) ==>
                  a in after.approvals && after.approvals[a] == db.approvals[a])
            && (forall l :: l in db.links && l.task != t ==>
                  l.approval in after.approvals && after.approvals[l.approval].task.Some?
                  && Link(l.approval, after.approvals[l.approval].task.value) in after.links)
            && (forall a :: a in after.approvals ==>
                  a in db.approvals && after.approvals[a] == db.approvals[a].(task := after.approvals[a].task))
            && after == db.(events := after.events, fingerprints := after.fingerprints, links := after.links,
                            approvals := after.approvals, edges := after.edges, tags := after.tags,
                            fieldRows := after.fieldRows, tasks := after.tasks)
  {
    var after := DeleteTask(db, t);
    SelectIs(db.events, NotAbout(t));
    LinksWithoutAre(db.links, t);
    forall a | a in db.approvals && db.approvals[a].task != Some(t)
      ensures a in after.approvals && after.approvals[a] == db.approvals[a]
    {
      DeletedApproval(db, t, a);
    }
    forall l | l in db.links && l.task != t
      ensures l.approval in after.approvals && after.approvals[l.approval].task.Some?
              && Link(l.approval, after.approvals[l.approval].task.value) in after.links
    {
      assert HasLinks(after, l.approval);
      DeletedApproval(db, t, l.approval);
    }
  }
}
