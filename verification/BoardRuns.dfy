/** Runs of the board: any interleaving of commits by any number of requests, and what every
    run keeps. A user's or worker's update is split at its commits and where it reads its task
    again, a creation at its commits; the rest are one commit. */
module BoardRuns {
  import opened Wrappers
  import opened DependencyGraph
  import opened BoardModel
  import opened TaskRules
  import opened ApprovalRules
  import opened TaskFacts
  import CustomFields

  /** An update whose first commit has happened, and what it saw when it read its task again. */
  datatype UnderWay = UnderWay(job: Job, seen: Option<Snapshot>, commentLeft: bool)

  /** A new task whose event is still to be logged. */
  datatype Created = Created(task: Id, lead: Option<Id>)

  datatype System = System(db: Db, pending: seq<UnderWay>, created: seq<Created>)

  datatype Action =
    | Create(t: Id, payload: TaskCreate, lead: Option<Id>, now: int)
    | Announce(i: nat, now: int)
    | Update(actor: Actor, t: Id, patch: TaskUpdate, now: int)
    | Refresh(i: nat)
    | Comment(i: nat, now: int)
    | Finish(i: nat, now: int)
    | Delete(t: Id)
    | OpenApproval(a: Id, tasks: seq<Id>, status: ApprovalStatus, now: int)
    | ResolveApproval(a: Id, resolution: Option<ApprovalStatus>, now: int)
    | Configure(flags: Flags, agents: map<Id, Agent>, orgTags: set<Id>, fields: CustomFields.Definitions,
                fingerprints: set<(Id, Id)>)

  function WithoutIndex<T>(s: seq<T>, i: nat): seq<T>
    requires i < |s|
  {
    s[..i] + s[i + 1..]
  }

  function Started(job: Job): UnderWay {
    UnderWay(job, None, job.comment.Some?)
  }

  /** Nothing but the last commit is left to do. */
  predicate Ready(u: UnderWay) {
    u.seen.Some? && !u.commentLeft
  }

  /** The request reads its task again. If that has been deleted the request fails here. */
  function Refreshed(db: Db, pending: seq<UnderWay>, i: nat): seq<UnderWay>
    requires i < |pending|
  {
    match Reread(db, pending[i].job.task)
    case None => WithoutIndex(pending, i)
    case Some(seen) => pending[i := pending[i].(seen := Some(seen))]
  }

  /** The comment's commit is done. If the task has been deleted the request fails here. */
  function Commented(db: Db, pending: seq<UnderWay>, i: nat): seq<UnderWay>
    requires i < |pending|
  {
    if pending[i].job.task in db.tasks then pending[i := pending[i].(commentLeft := false)]
    else WithoutIndex(pending, i)
  }

  ghost function Committed(s: System, r: Result<Db, Refusal>): System {
    if r.Ok? then s.(db := r.value) else s
  }

  /** One commit, or one refresh. A refused request changes nothing. (Field definitions have distinct ids in
      every run, see `WellFormed`.) */
  ghost function Next(s: System, act: Action): System {
    if CustomFields.DistinctIds(s.db.fields) then Commit(s, act) else s
  }

  ghost function Commit(s: System, act: Action): System
    requires CustomFields.DistinctIds(s.db.fields)
  {
    match act
    case Create(t, payload, lead, now) =>
      (match StoreTask(s.db, t, payload, lead, now)
       case Err(_) => s
       case Ok(db) => s.(db := db, created := s.created + [Created(t, lead)]))
    case Announce(i, now) =>
      if i < |s.created|
      then s.(db := AnnounceTask(s.db, s.created[i].task, s.created[i].lead, now),
              created := WithoutIndex(s.created, i))
      else s
    case Update(actor, t, patch, now) =>
      (match FirstCommit(s.db, actor, t, patch, now)
       case Err(_) => s
       case Ok((db, job)) =>
         s.(db := db, pending := if job.None? then s.pending else s.pending + [Started(job.value)]))
    case Refresh(i) =>
      if i < |s.pending| && s.pending[i].seen.None? then s.(pending := Refreshed(s.db, s.pending, i)) else s
    case Comment(i, now) =>
      if i < |s.pending| && s.pending[i].seen.Some? && s.pending[i].commentLeft
      then s.(db := PostComment(s.db, s.pending[i].job, now), pending := Commented(s.db, s.pending, i))
      else s
    case Finish(i, now) =>
      if i < |s.pending| && Ready(s.pending[i])
      then s.(db := FinishUpdate(s.db, s.pending[i].job, s.pending[i].seen.value, now),
              pending := WithoutIndex(s.pending, i))
      else s
    case Delete(t) => if t in s.db.tasks then s.(db := DeleteTask(s.db, t)) else s
    case OpenApproval(a, tasks, status, now) => Committed(s, CreateApproval(s.db, a, tasks, status, now))
    case ResolveApproval(a, status, now) => Committed(s, UpdateApproval(s.db, a, status, now))
    case Configure(flags, agents, orgTags, fields, fingerprints) =>
      if CustomFields.DistinctIds(fields)
      then s.(db := s.db.(flags := flags, agents := agents, orgTags := orgTags, fields := fields,
                          fingerprints := fingerprints))
      else s
  }

  // ----- Consistency of the rows ---------------------------------------------------------------

  /** The dependency graph is acyclic within the board, and each task has at most one pending
      approval. */
  ghost predicate Consistent(db: Db) {
    WellFormed(db) && Acyclic(db.edges) && LinksConsistent(db) && AtMostOnePending(db)
  }

  ghost predicate SameApprovals(db: Db, after: Db) {
    db.approvals == after.approvals && db.links == after.links && db.tasks.Keys <= after.tasks.Keys
  }

  lemma SameApprovalsStayConsistent(db: Db, after: Db)
    requires LinksConsistent(db) && AtMostOnePending(db) && SameApprovals(db, after)
    ensures LinksConsistent(after) && AtMostOnePending(after)
  {
    assert forall a :: HasLinks(after, a) <==> HasLinks(db, a);
    forall a, b, t | PendingFor(after, a, t) && PendingFor(after, b, t) ensures a == b {
      assert PendingFor(db, a, t) && PendingFor(db, b, t);
    }
  }

  lemma UpdateKeepsConsistent(s: System, actor: Actor, t: Id, u: TaskUpdate, now: int)
    requires Consistent(s.db)
    ensures Consistent(Next(s, Update(actor, t, u, now)).db)
  {
    var r := FirstCommit(s.db, actor, t, u, now);
    if r.Ok? {
      FirstCommitEffect(s.db, actor, t, u, now);
      SameApprovalsStayConsistent(s.db, r.value.0);
    }
  }

  /** The shared facts about every accepted first commit, whoever the actor is. */
  lemma FirstCommitEffect(db: Db, actor: Actor, t: Id, u: TaskUpdate, now: int)
    requires WellFormed(db) && Acyclic(db.edges) && FirstCommit(db, actor, t, u, now).Ok?
    ensures var (after, job) := FirstCommit(db, actor, t, u, now).value;
            && t in db.tasks && TouchesOnly(db, after.(events := db.events), t)
            && SameApprovals(db, after) && WellFormed(after) && Acyclic(after.edges)
            && (IsDone(db, t) ==> after.edges == db.edges)
            && (!IsDone(db, t) && IsDone(after, t) ==> MayFinish(db, after, t))
            && (IsDone(db, t) && !IsDone(after, t) ==>
                  job.Some? && job.value.task == t && job.value.before.Done? && !job.value.after.Done?)
            && (BlockersOf(after, t) != {} ==>
                  || Parked(after.tasks[t]) || (IsDone(db, t) && IsDone(after, t))
                  || after.tasks[t].(updatedAt := 0) == db.tasks[t].(updatedAt := 0))
  {
    match actor
    case User =>
      UserUpdateEffect(db, t, u, now);
    case AgentActor(a) =>
      if db.agents[a].isLead {
        LeadUpdateEffect(db, a, t, u, now);
      } else {
        WorkerUpdateEffect(db, a, t, u, now);
        SameEdgesStayWellFormed(db, FirstCommit(db, actor, t, u, now).value.0);
      }
  }

  lemma SameEdgesStayWellFormed(db: Db, after: Db)
    requires WellFormed(db) && after.edges == db.edges && after.fields == db.fields && db.tasks.Keys <= after.tasks.Keys
    ensures WellFormed(after)
  {
  }

  lemma FinishKeepsConsistent(db: Db, job: Job, seen: Snapshot, now: int)
    requires Consistent(db)
    ensures Consistent(FinishUpdate(db, job, seen, now))
  {
    var after := FinishUpdate(db, job, seen, now);
    if job.task in db.tasks {
      ReconcileEffect(db, job.task, job.before, seen.status, seen.title, job.actor, now);
    }
    SameApprovalsStayConsistent(db, after);
  }

  lemma CreateKeepsConsistent(s: System, t: Id, payload: TaskCreate, lead: Option<Id>, now: int)
    requires Consistent(s.db)
    ensures Consistent(Next(s, Create(t, payload, lead, now)).db)
  {
    if StoreTask(s.db, t, payload, lead, now).Ok? {
      StoreTaskEffect(s.db, t, payload, lead, now);
      SameApprovalsStayConsistent(s.db, Next(s, Create(t, payload, lead, now)).db);
    }
  }

  lemma DeleteKeepsConsistent(s: System, t: Id)
    requires Consistent(s.db)
    ensures Consistent(Next(s, Delete(t)).db)
  {
    if t in s.db.tasks {
      DeleteTaskKeepsOnePending(s.db, t);
      FewerEdgesStayAcyclic(s.db.edges, DeleteTask(s.db, t).edges);
    }
  }

  lemma CommitKeepsConsistent(s: System, act: Action)
    requires Consistent(s.db)
    ensures Consistent(Next(s, act).db)
  {
    var db := s.db;
    var after := Next(s, act).db;
    match act
    case Create(t, payload, lead, now) =>
      CreateKeepsConsistent(s, t, payload, lead, now);
    case Announce(i, now) =>
      SameApprovalsStayConsistent(db, after);
    case Update(actor, t, patch, now) =>
      UpdateKeepsConsistent(s, actor, t, patch, now);
    case Refresh(i) =>
    case Comment(i, now) =>
      SameApprovalsStayConsistent(db, after);
    case Finish(i, now) =>
      if i < |s.pending| && Ready(s.pending[i]) {
        FinishKeepsConsistent(db, s.pending[i].job, s.pending[i].seen.value, now);
      }
    case Delete(t) =>
      DeleteKeepsConsistent(s, t);
    case OpenApproval(a, tasks, status, now) =>
      if CreateApproval(db, a, tasks, status, now).Ok? {
        CreateApprovalConcerns(db, a, tasks, status, now);
        CreateApprovalKeepsOnePending(db, a, tasks, status, now);
      }
    case ResolveApproval(a, status, now) =>
      if UpdateApproval(db, a, status, now).Ok? {
        UpdateApprovalKeepsOnePending(db, a, status, now);
      }
    case Configure(_, _, _, _, _) =>
      SameApprovalsStayConsistent(db, after);
  }

  lemma FinishKeepsTasks(s: System, i: nat, now: int)
    requires Consistent(s.db)
    ensures s.db.tasks.Keys <= Next(s, Finish(i, now)).db.tasks.Keys
  {
    if i < |s.pending| && Ready(s.pending[i]) && s.pending[i].job.task in s.db.tasks {
      var job, seen := s.pending[i].job, s.pending[i].seen.value;
      ReconcileEffect(s.db, job.task, job.before, seen.status, seen.title, job.actor, now);
    }
  }

  // ----- Runs -----------------------------------------------------------------------------------

  /** A board without tasks, approvals or requests under way. */
  ghost predicate Fresh(s: System) {
    && s.pending == [] && s.created == [] && s.db.tasks == map[] && s.db.edges == {} && s.db.approvals == map[]
    && s.db.links == [] && s.db.events == [] && CustomFields.DistinctIds(s.db.fields)
  }

  ghost function Run(s: System, acts: seq<Action>): System {
    if acts == [] then s else Next(Run(s, acts[..|acts| - 1]), acts[|acts| - 1])
  }

  lemma RunLast(s: System, front: seq<Action>, last: Action)
    ensures Run(s, front + [last]) == Next(Run(s, front), last)
  {
    assert (front + [last])[..|front|] == front;
  }

  lemma FreshIsConsistent(s: System)
    requires Fresh(s)
    ensures Consistent(s.db)
  {
    forall p ensures !IsCycle(s.db.edges, p) {
      assert |p| >= 2 ==> (p[0], p[1]) !in s.db.edges;
    }
  }

  /** In every run the graph stays acyclic and each task has at most one pending approval. */
  lemma {:induction false} RunsStayConsistent(s: System, acts: seq<Action>)
    requires Consistent(s.db)
    ensures Consistent(Run(s, acts).db)
  {
    if acts != [] {
      RunsStayConsistent(s, acts[..|acts| - 1]);
      CommitKeepsConsistent(Run(s, acts[..|acts| - 1]), acts[|acts| - 1]);
    }
  }

  /** So a board never deadlocks on its dependencies: while some task is unfinished, one of the
      unfinished tasks has nothing left to wait for. */
  lemma SomeTaskCanProceed(s: System, acts: seq<Action>, t: Id) returns (ready: Id)
    requires Fresh(s)
    requires t in Run(s, acts).db.tasks && !IsDone(Run(s, acts).db, t)
    ensures var db := Run(s, acts).db;
            ready in db.tasks && !IsDone(db, ready) && BlockersOf(db, ready) == {}
  {
    FreshIsConsistent(s);
    RunsStayConsistent(s, acts);
    ready := AcyclicBoardHasReadyTask(Run(s, acts).db, t);
  }

  lemma AcyclicBoardHasReadyTask(db: Db, t: Id) returns (ready: Id)
    requires WellFormed(db) && Acyclic(db.edges) && t in db.tasks && !IsDone(db, t)
    ensures ready in db.tasks && !IsDone(db, ready) && BlockersOf(db, ready) == {}
  {
    var open := set x | x in db.tasks && !IsDone(db, x);
    assert t in open;
    ready := AcyclicHasSource(db.edges, open);
    assert forall d :: d in BlockersOf(db, ready) ==> (ready, d) in db.edges && d in open;
  }

  // ----- Blocked tasks are parked, up to reconciliations still to run ------------------------------

  /** This update will park the dependents of `d`, unless `d` is done again when it reads it: it
      found `d` done, and has not read it again or has seen that it is not. */
  predicate WillPark(u: UnderWay, d: Id) {
    u.job.task == d && u.job.before.Done? && (u.seen.Some? ==> !u.seen.value.status.Done?)
  }

  /** A reconciliation for `d` that has not been committed yet. */
  ghost predicate Reopening(s: System, d: Id) {
    exists i :: 0 <= i < |s.pending| && WillPark(s.pending[i], d)
  }

  ghost predicate BlockedParkedOrDue(s: System) {
    forall t, d :: (t, d) in s.db.edges && t in s.db.tasks && !IsDone(s.db, t) && !IsDone(s.db, d) ==>
      Parked(s.db.tasks[t]) || Reopening(s, d)
  }

  ghost predicate BlockedParked(db: Db) {
    forall t :: t in db.tasks && !IsDone(db, t) && BlockersOf(db, t) != {} ==> Parked(db.tasks[t])
  }

  /** The one kind of step that can leave a blocked task at work: a lead's dependency-only
      PATCH. */
  ghost predicate LeadDependencyEdit(db: Db, act: Action) {
    && act.Update? && act.actor.AgentActor? && act.actor.id in db.agents && db.agents[act.actor.id].isLead
    && DependencyOnly(act.patch)
  }

  ghost predicate NoLeadDependencyEdits(s: System, acts: seq<Action>) {
    forall k :: 0 <= k < |acts| ==> !LeadDependencyEdit(Run(s, acts[..k]).db, acts[k])
  }

  lemma ReopeningGrows(s: System, s': System, d: Id)
    requires s.pending <= s'.pending && Reopening(s, d)
    ensures Reopening(s', d)
  {
    var i :| 0 <= i < |s.pending| && WillPark(s.pending[i], d);
    assert s'.pending[i] == s.pending[i];
  }

  lemma UpdateKeepsBlockedParked(s: System, actor: Actor, t: Id, u: TaskUpdate, now: int)
    requires Consistent(s.db) && BlockedParkedOrDue(s)
    requires !LeadDependencyEdit(s.db, Update(actor, t, u, now))
    ensures BlockedParkedOrDue(Next(s, Update(actor, t, u, now)))
  {
    var act := Update(actor, t, u, now);
    var s' := Next(s, act);
    var r := FirstCommit(s.db, actor, t, u, now);
    if r.Ok? {
      FirstCommitEffect(s.db, actor, t, u, now);
      forall x, d | (x, d) in s'.db.edges && x in s'.db.tasks && !IsDone(s'.db, x) && !IsDone(s'.db, d)
        ensures Parked(s'.db.tasks[x]) || Reopening(s', d)
      {
        if x == t {
          assert (t, d).1 in BlockersOf(s'.db, t);
          if !Parked(s'.db.tasks[t]) {
            UnchangedTaskKeepsEdges(s.db, actor, t, u, now);
            assert (t, d) in s.db.edges && Reopening(s, d);
            ReopeningGrows(s, s', d);
          }
        } else if d == t && IsDone(s.db, t) {
          assert s'.pending[|s.pending|] == Started(r.value.1.value);
        } else if !Parked(s'.db.tasks[x]) {
          assert (x, d) in s.db.edges && Reopening(s, d);
          ReopeningGrows(s, s', d);
        }
      }
    }
  }

  /** If a blocked task is stored as it was then its edges are as they were too, but for a
      lead's dependency-only PATCH. */
  lemma UnchangedTaskKeepsEdges(db: Db, actor: Actor, t: Id, u: TaskUpdate, now: int)
    requires WellFormed(db) && Acyclic(db.edges) && FirstCommit(db, actor, t, u, now).Ok?
    requires var after := FirstCommit(db, actor, t, u, now).value.0;
             !IsDone(after, t) && BlockersOf(after, t) != {} && !Parked(after.tasks[t])
    requires !LeadDependencyEdit(db, Update(actor, t, u, now))
    ensures var after := FirstCommit(db, actor, t, u, now).value.0;
            after.edges == db.edges && after.tasks[t].(updatedAt := 0) == db.tasks[t].(updatedAt := 0)
  {
    match actor
    case User =>
      UserUpdateEffect(db, t, u, now);
    case AgentActor(a) =>
      if db.agents[a].isLead {
        LeadUpdateEffect(db, a, t, u, now);
      } else {
        WorkerUpdateEffect(db, a, t, u, now);
      }
  }

  /** Without the update at `i`, what other updates will do is still to come. */
  lemma OthersStayDue(s: System, s': System, i: nat, d: Id)
    requires i < |s.pending| && s'.pending == WithoutIndex(s.pending, i)
    requires Reopening(s, d) && !WillPark(s.pending[i], d)
    ensures Reopening(s', d)
  {
    var j :| 0 <= j < |s.pending| && WillPark(s.pending[j], d);
    assert s'.pending[if j < i then j else j - 1] == s.pending[j];
  }

  lemma FinishKeepsBlockedParked(s: System, s': System, i: nat, now: int)
    requires Consistent(s.db) && BlockedParkedOrDue(s) && i < |s.pending| && Ready(s.pending[i])
    requires s'.db == FinishUpdate(s.db, s.pending[i].job, s.pending[i].seen.value, now)
    requires s'.pending == WithoutIndex(s.pending, i)
    ensures BlockedParkedOrDue(s')
  {
    var job, seen := s.pending[i].job, s.pending[i].seen.value;
    if job.task in s.db.tasks {
      ReconcileEffect(s.db, job.task, job.before, seen.status, seen.title, job.actor, now);
    }
    forall x, d | (x, d) in s'.db.edges && x in s'.db.tasks && !IsDone(s'.db, x) && !IsDone(s'.db, d)
      ensures Parked(s'.db.tasks[x]) || Reopening(s', d)
    {
      if !Parked(s'.db.tasks[x]) {
        OthersStayDue(s, s', i, d);
      }
    }
  }

  /** An update that sees its task done is due no more, but then the task is done. */
  lemma RefreshKeepsBlockedParked(s: System, s': System, i: nat)
    requires Consistent(s.db) && BlockedParkedOrDue(s) && i < |s.pending| && s.pending[i].seen.None?
    requires s'.db == s.db && s'.pending == Refreshed(s.db, s.pending, i)
    ensures BlockedParkedOrDue(s')
  {
    forall d | Reopening(s, d) && d in s.db.tasks && !IsDone(s.db, d) ensures Reopening(s', d) {
      if s.pending[i].job.task in s.db.tasks {
        var j :| 0 <= j < |s.pending| && WillPark(s.pending[j], d);
        assert WillPark(s'.pending[j], d);
      } else {
        OthersStayDue(s, s', i, d);
      }
    }
  }

  lemma CommentKeepsBlockedParked(s: System, s': System, i: nat)
    requires Consistent(s.db) && BlockedParkedOrDue(s) && i < |s.pending|
    requires s'.db == s.db.(events := s'.db.events) && s'.pending == Commented(s.db, s.pending, i)
    ensures BlockedParkedOrDue(s')
  {
    forall d | Reopening(s, d) && d in s.db.tasks ensures Reopening(s', d) {
      if s.pending[i].job.task in s.db.tasks {
        var j :| 0 <= j < |s.pending| && WillPark(s.pending[j], d);
        assert WillPark(s'.pending[j], d);
      } else {
        OthersStayDue(s, s', i, d);
      }
    }
  }

  lemma CommitKeepsBlockedParked(s: System, act: Action)
    requires Consistent(s.db) && BlockedParkedOrDue(s) && !LeadDependencyEdit(s.db, act)
    ensures BlockedParkedOrDue(Next(s, act))
  {
    var s' := Next(s, act);
    match act
    case Update(actor, t, patch, now) =>
      UpdateKeepsBlockedParked(s, actor, t, patch, now);
    case Refresh(i) =>
      if i < |s.pending| && s.pending[i].seen.None? {
        RefreshKeepsBlockedParked(s, s', i);
      }
    case Comment(i, now) =>
      if i < |s.pending| && s.pending[i].seen.Some? && s.pending[i].commentLeft {
        CommentKeepsBlockedParked(s, s', i);
      }
    case Finish(i, now) =>
      if i < |s.pending| && Ready(s.pending[i]) {
        FinishKeepsBlockedParked(s, s', i, now);
      }
    case Create(t, payload, lead, now) =>
      CreateKeepsBlockedParked(s, t, payload, lead, now);
    case Announce(_, _) =>
      SamePendingSameReopening(s, s');
    case Delete(t) =>
      SamePendingSameReopening(s, s');
    case OpenApproval(_, _, _, _) =>
      SamePendingSameReopening(s, s');
    case ResolveApproval(_, _, _) =>
      SamePendingSameReopening(s, s');
    case Configure(_, _, _, _, _) =>
      SamePendingSameReopening(s, s');
  }

  lemma CreateKeepsBlockedParked(s: System, t: Id, payload: TaskCreate, lead: Option<Id>, now: int)
    requires Consistent(s.db) && BlockedParkedOrDue(s)
    ensures BlockedParkedOrDue(Next(s, Create(t, payload, lead, now)))
  {
    if StoreTask(s.db, t, payload, lead, now).Ok? {
      var s' := Next(s, Create(t, payload, lead, now));
      StoreTaskEffect(s.db, t, payload, lead, now);
      SamePendingSameReopening(s, s');
      forall x, d | (x, d) in s'.db.edges && !IsDone(s'.db, x) && !IsDone(s'.db, d)
        ensures x in s'.db.tasks && (Parked(s'.db.tasks[x]) || Reopening(s', d))
      {
        if x == t {
          assert (t, d).1 in BlockersOf(s'.db, t);
        }
      }
    }
  }

  lemma SamePendingSameReopening(s: System, s': System)
    requires s.pending == s'.pending
    ensures forall d :: Reopening(s, d) <==> Reopening(s', d)
  {
  }

  /** In every run, however the commits interleave, an unfinished task with an unfinished
      dependency is parked, or that dependency's reconciliation is still to run. */
  lemma {:induction false} BlockedTasksParkedOrDue(s: System, acts: seq<Action>)
    requires Consistent(s.db) && BlockedParkedOrDue(s) && NoLeadDependencyEdits(s, acts)
    ensures BlockedParkedOrDue(Run(s, acts))
  {
    if acts != [] {
      var front := acts[..|acts| - 1];
      forall k | 0 <= k < |front| ensures !LeadDependencyEdit(Run(s, front[..k]).db, front[k]) {
        assert front[..k] == acts[..k];
      }
      BlockedTasksParkedOrDue(s, front);
      RunsStayConsistent(s, front);
      CommitKeepsBlockedParked(Run(s, front), acts[|acts| - 1]);
    }
  }

  /** Whenever no update is under way, every blocked unfinished task is parked. With requests
      that run one after the other that is after every request. */
  lemma QuietBoardParksBlockedTasks(s: System, acts: seq<Action>)
    requires Fresh(s) && NoLeadDependencyEdits(s, acts)
    requires Run(s, acts).pending == []
    ensures BlockedParked(Run(s, acts).db)
  {
    FreshIsConsistent(s);
    RunsStayConsistent(s, acts);
    BlockedTasksParkedOrDue(s, acts);
    var db := Run(s, acts).db;
    forall t | t in db.tasks && !IsDone(db, t) && BlockersOf(db, t) != {} ensures Parked(db.tasks[t]) {
      var d :| d in BlockersOf(db, t);
      assert (t, d) in db.edges;
    }
  }

  /** The exception is exact: from a board where every blocked task is parked, an accepted
      lead's update breaks that just when it is dependency-only, its new dependencies are not
      all done, and the task is at work. A caller can check all three beforehand. */
  lemma LeadUpdateKeepsBlockedParkedIff(db: Db, lead: Id, t: Id, u: TaskUpdate, now: int)
    requires Consistent(db) && BlockedParked(db) && t in db.tasks && LeadUpdate(db, lead, t, u, now).Ok?
    ensures BlockedParked(LeadUpdate(db, lead, t, u, now).value)
            <==> !(DependencyOnly(u) && (exists d :: d in u.dependsOn.value && !IsDone(db, d))
                   && !Parked(db.tasks[t]))
  {
    var after := LeadUpdate(db, lead, t, u, now).value;
    LeadUpdateEffect(db, lead, t, u, now);
    forall x | x in db.tasks && x != t
      ensures BlockersOf(after, x) != {} ==> BlockersOf(db, x) != {}
    {
      if d :| d in BlockersOf(after, x) {
        assert (x, d) in after.edges;
        assert (x, d).1 in BlockersOf(db, x);
      }
    }
    if u.dependsOn.Some? {
      NewBlockers(db, after, t, u.dependsOn.value);
    } else {
      BlockersOnlyByStatus(db, after, t);
    }
  }

  lemma NewBlockers(db: Db, after: Db, t: Id, deps: seq<Id>)
    requires WellFormed(after) && TouchesOnly(db, after.(events := db.events), t)
    requires DependenciesOf(after, t) == ToSet(deps)
    ensures BlockersOf(after, t) != {} <==> exists d :: d in deps && !IsDone(db, d)
  {
    if d :| d in deps && !IsDone(db, d) {
      assert d in DependenciesOf(after, t);
      assert (t, d) in after.edges;
      assert (t, d).1 in BlockersOf(after, t);
    }
    if d :| d in BlockersOf(after, t) {
      assert (t, d).1 in DependenciesOf(after, t);
      assert d in ToSet(deps);
    }
  }

  lemma BlockersOnlyByStatus(db: Db, after: Db, t: Id)
    requires WellFormed(after) && TouchesOnly(db, after.(events := db.events), t) && after.edges == db.edges
    ensures BlockersOf(after, t) == BlockersOf(db, t)
  {
    forall e | e in after.edges && e.0 == t ensures IsDone(after, e.1) <==> IsDone(db, e.1) {
    }
  }
}
