/** The endpoints as they run: statements on a database session whose pending changes become
    visible at a commit and vanish when a rule refuses the request. */
module BoardSession {
  import opened Wrappers
  import opened DependencyGraph
  import opened BoardModel
  import opened TaskRules
  import opened ApprovalRules
  import opened TaskFacts
  import opened BoardRuns
  import CustomFields

  method Listing(s: set<Id>) returns (q: seq<Id>)
    ensures ToSet(q) == s
  {
    q := [];
    var todo := s;
    while todo != {}
      invariant todo <= s && ToSet(q) == s - todo
      decreases todo
    {
      var x :| x in todo;
      assert forall y :: y in q + [x] <==> y in q || y == x;
      assert forall y :: y in q <==> y in ToSet(q);
      q := q + [x];
      todo := todo - {x};
    }
  }

  method Least(s: set<Id>) returns (least: Id)
    requires s != {}
    ensures least in s && forall x :: x in s ==> least <= x
  {
    LeastExists(s);
    least :| least in s && forall x | x in s :: least <= x;
  }

  lemma LeastComesFirst(s: set<Id>, least: Id)
    requires least in s && forall x :: x in s ==> least <= x
    ensures SortedIds(s) == [least] + SortedIds(s - {least})
  {
  }

  class Session {
    var persisted: Db
    var work: Db

    constructor (db: Db)
      ensures persisted == db && work == db
    {
      persisted, work := db, db;
    }

    /** Between requests nothing is pending. */
    ghost predicate Valid()
      reads this
    {
      work == persisted && WellFormed(persisted)
    }

    method Commit()
      modifies this`persisted
      ensures persisted == work
    {
      persisted := work;
    }

    method Rollback()
      modifies this`work
      ensures work == persisted
    {
      work := persisted;
    }

    // ----- Dependencies -------------------------------------------------------------------------

    /** `validate_dependency_update`: rebuild the board's graph with the edit and search it. */
    method ValidateDependencies(t: Id, requested: seq<Id>) returns (r: Result<set<Id>, Refusal>)
      requires WellFormed(work)
      ensures r == CheckDependencies(work, t, requested)
    {
      var deps := set x | x in requested;
      if t in deps {
        return Err(SelfDependency);
      }
      if deps == {} {
        return Ok({});
      }
      if !(deps <= work.tasks.Keys) {
        return Err(MissingDependencies(deps - work.tasks.Keys));
      }
      var edges := WithDependencies(work.edges, t, deps);
      var sources := set e | e in edges :: e.0;
      var graph := map n | n in sources :: set e | e in edges && e.0 == n :: e.1;
      GraphOfEdges(edges, sources, graph);
      var nodes := Listing(work.tasks.Keys);
      var search := new CycleSearch(graph);
      var cyclic := search.Run(nodes);
      LassoIffCycle(edges, work.tasks.Keys);
      r := if cyclic then Err(DependencyCycle) else Ok(deps);
    }

    /** Replaces the dependencies that a PATCH names. The edges change before later rules run. */
    method ReplaceDependencies(t: Id, u: TaskUpdate) returns (refusal: Option<Refusal>)
      requires WellFormed(work) && t in work.tasks
      modifies this`work
      ensures refusal.None? ==> ApplyDependencies(old(work), t, u) == Ok(work)
      ensures refusal.Some? ==> ApplyDependencies(old(work), t, u) == Err(refusal.value)
      ensures refusal.None? ==> WellFormed(work) && work == old(work).(edges := work.edges)
    {
      if u.dependsOn.None? {
        return None;
      }
      if work.tasks[t].status.Done? {
        return Some(DoneDependencies);
      }
      var checked := ValidateDependencies(t, u.dependsOn.value);
      if checked.Err? {
        return Some(checked.error);
      }
      work := work.(edges := WithDependencies(work.edges, t, checked.value));
      refusal := None;
    }

    // ----- Custom fields ------------------------------------------------------------------------

    method StoreFields(t: Id, patch: Option<CustomFields.Patch>) returns (refusal: Option<Refusal>)
      requires CustomFields.DistinctIds(work.fields)
      modifies this`work
      ensures refusal.None? ==>
                WithFields(old(work), t, patch).Ok?
                && work == old(work).(fieldRows := WithFields(old(work), t, patch).value)
      ensures refusal.Some? ==> WithFields(old(work), t, patch) == Err(refusal.value)
    {
      if patch.None? {
        return None;
      }
      var rows := CustomFields.SetForUpdate(work.fields, RowsOf(work, t), patch.value);
      if rows.Err? {
        return Some(CustomField(rows.error));
      }
      work := work.(fieldRows := work.fieldRows[t := rows.value]);
      refusal := None;
    }

    // ----- Reconciliation -----------------------------------------------------------------------

    /** `_reconcile_dependents_for_dependency_toggle`, dependent by dependent. */
    method ReconcileDependents(d: Id, before: Status, after: Status, title: string, actor: Option<Id>, now: int)
      requires WellFormed(work)
      modifies this`work
      ensures work == Reconcile(old(work), d, before, after, title, actor, now)
    {
      if before.Done? == after.Done? {
        return;
      }
      ghost var start := work;
      ghost var open := OpenDependents(start, d);
      var dependents := set e | e in work.edges && e.1 == d && e.0 in work.tasks :: e.0;
      var todo := dependents;
      var reopened := before.Done?;
      ghost var logged: seq<Id> := [];
      ReconcileStarts(start, d, dependents, reopened, title, actor, now);
      while todo != {}
        invariant todo <= dependents
        invariant PartlyReconciled(start, work, open, todo, logged, reopened, title, actor, now)
        decreases todo
      {
        var t := Least(todo);
        if work.tasks[t].status.Done? {
          SkipFinished(start, work, open, todo, logged, reopened, title, actor, now, t);
        } else {
          ghost var earlier := work;
          LogDependent(t, reopened, title, actor, now);
          ReconcileOneMore(start, earlier, work, open, todo, logged, reopened, title, actor, now, t);
          logged := logged + [t];
        }
        todo := todo - {t};
      }
      ReconcileEnds(start, work, d, logged, before, after, title, actor, now);
    }

    /** One dependent: park it if its dependency was reopened and it is not parked yet, and log. */
    method LogDependent(t: Id, reopened: bool, title: string, actor: Option<Id>, now: int)
      requires t in work.tasks
      modifies this`work
      ensures var task := old(work).tasks[t];
              work == old(work).(
                tasks := if reopened then old(work).tasks[t := ParkTask(task, now)] else old(work).tasks,
                events := old(work).events + [DependencyEvent(task, t, reopened, title, actor, now)])
    {
      var task := work.tasks[t];
      if reopened && !Parked(task) {
        work := work.(tasks := work.tasks[t := task.(status := Inbox, assignee := None,
                                                      inProgressAt := None, updatedAt := now)]);
      }
      work := work.(events := work.events + [DependencyEvent(task, t, reopened, title, actor, now)]);
      assert work.tasks == if reopened then old(work).tasks[t := ParkTask(task, now)] else old(work).tasks;
    }

    method LogTransition(t: Id, before: Status, after: Status, title: string, actor: Option<Id>, now: int)
      requires WellFormed(work)
      modifies this`work
      ensures work == AfterTransition(old(work), t, before, after, title, actor, now)
    {
      work := work.(events := work.events + [TransitionEvent(t, before, after, title, actor, now)]);
      ReconcileDependents(t, before, after, title, actor, now);
    }

    // ----- A board lead's update --------------------------------------------------------------------

    method SetTask(t: Id, task: Task)
      requires t in work.tasks
      modifies this`work
      ensures work == old(work).(tasks := old(work).tasks[t := task])
    {
      work := work.(tasks := work.tasks[t := task]);
    }

    /** `_lead_apply_assignment` */
    method LeadApplyAssignment(t: Id, u: TaskUpdate) returns (refusal: Option<Refusal>)
      requires t in work.tasks
      modifies this`work
      ensures refusal == CheckAssignee(old(work), u.assignee.GetOr(None), false)
      ensures refusal.None? ==>
                var task := old(work).tasks[t];
                work == old(work).(tasks := old(work).tasks[t := task.(assignee := u.assignee.GetOr(task.assignee))])
    {
      refusal := None;
      if u.assignee.None? {
        assert work.tasks == work.tasks[t := work.tasks[t]];
        return;
      }
      if u.assignee.value.None? {
        SetTask(t, work.tasks[t].(assignee := None));
        return;
      }
      var a := u.assignee.value.value;
      if a !in work.agents {
        return Some(UnknownAgent);
      }
      if work.agents[a].isLead {
        return Some(AssigneeIsLead);
      }
      if work.agents[a].board.Some? && work.agents[a].board.value != work.boardId {
        return Some(AssigneeOnOtherBoard);
      }
      SetTask(t, work.tasks[t].(assignee := Some(a)));
    }

    /** `_last_worker_who_moved_task_to_review`: walk the recorded moves, newest first. */
    method LastWorkerWhoMovedToReview(t: Id, lead: Id) returns (worker: Option<Id>)
      ensures worker == LastReviewer(work, t, lead)
    {
      var candidates := NewestFirst(Select(work.events, ReviewMove(t)));
      var i := 0;
      while i < |candidates|
        invariant 0 <= i <= |candidates|
        invariant FirstTaker(work, lead, candidates) == FirstTaker(work, lead, candidates[i..])
      {
        var agent := candidates[i].agent;
        if agent.Some? && agent.value != lead && agent.value in work.agents {
          var candidate := work.agents[agent.value];
          if candidate.board == Some(work.boardId) && !candidate.isLead {
            return agent;
          }
        }
        i := i + 1;
      }
      worker := None;
    }

    /** `_lead_apply_status` */
    method LeadApplyStatus(lead: Id, t: Id, u: TaskUpdate) returns (refusal: Option<Refusal>)
      requires t in work.tasks
      modifies this`work
      ensures refusal.None? ==>
                LeadStatus(old(work), lead, t, old(work).tasks[t], u).Ok?
                && work == old(work).(tasks := old(work).tasks[t := LeadStatus(old(work), lead, t, old(work).tasks[t],
                    u).value])
      ensures refusal.Some? ==> LeadStatus(old(work), lead, t, old(work).tasks[t], u) == Err(refusal.value)
    {
      refusal := None;
      if u.status.None? {
        assert work.tasks == work.tasks[t := work.tasks[t]];
        return;
      }
      var task := work.tasks[t];
      var target := u.status.value;
      if !task.status.Review? {
        var assigning := u.assignee.Some? && u.assignee.value.Some?;
        if task.status.Inbox? && target.InProgress? && assigning {
          SetTask(t, task.(status := target));
          return;
        }
        return Some(LeadStatusGate);
      }
      if !target.Done? && !target.Inbox? {
        return Some(LeadTargetGate);
      }
      if target.Inbox? {
        var worker := LastWorkerWhoMovedToReview(t, lead);
        task := task.(assignee := worker, inProgressAt := None);
      }
      SetTask(t, task.(status := target));
    }

    /** The first part of `_apply_lead_task_update`: payload, dependencies, tags, blockers. */
    method LeadCheckRequest(t: Id, u: TaskUpdate) returns (refusal: Option<Refusal>, tags: Option<seq<Id>>)
      requires WellFormed(work) && t in work.tasks
      modifies this`work
      ensures refusal.None? ==>
                WellFormed(work) && work == old(work).(edges := work.edges) && LeadAdmit(old(work), t, u)
                    == Ok((work, tags))
      ensures refusal.Some? ==> LeadAdmit(old(work), t, u) == Err(refusal.value)
    {
      tags := None;
      if u.comment.Some? {
        return Some(LeadComment), tags;
      }
      if u.title.Some? || u.details.Some? {
        return Some(LeadFields), tags;
      }
      refusal := ReplaceDependencies(t, u);
      if refusal.Some? {
        return;
      }
      var checked := CheckOptionalTags(work, u.tagIds);
      if checked.Err? {
        return Some(checked.error), tags;
      }
      tags := checked.value;
      var blockers := BlockersOf(work, t);
      if blockers != {} && (u.assignee.Some? || u.status.Some?) {
        return Some(BlockedTask(blockers)), tags;
      }
    }

    /** The second part: assignment, then transition. */
    method LeadChangeTask(lead: Id, t: Id, u: TaskUpdate) returns (refusal: Option<Refusal>)
      requires t in work.tasks
      modifies this`work
      ensures refusal.None? ==>
                LeadChange(old(work), lead, t, u).Ok?
                && work == old(work).(tasks := old(work).tasks[t := LeadChange(old(work), lead, t, u).value])
      ensures refusal.Some? ==> LeadChange(old(work), lead, t, u) == Err(refusal.value)
    {
      ghost var start := work;
      refusal := LeadApplyAssignment(t, u);
      if refusal.Some? {
        return;
      }
      ghost var reassigned := work;
      LeadStatusDependsOn(start, reassigned, lead, t, u);
      refusal := LeadApplyStatus(lead, t, u);
      if refusal.None? {
        assert work.tasks == start.tasks[t := work.tasks[t]];
      }
    }

    /** Both of them, then the gates. */
    method LeadPassGates(lead: Id, t: Id, u: TaskUpdate) returns (refusal: Option<Refusal>)
      requires t in work.tasks
      modifies this`work
      ensures var moved := LeadChange(old(work), lead, t, u);
              if moved.Err? then refusal == Some(moved.error)
              else
                var before := old(work).tasks[t];
                && refusal == Gates(old(work), t, before.status, moved.value.status, StatusRequested(before, u))
                && work == old(work).(tasks := old(work).tasks[t := moved.value])
    {
      ghost var start := work;
      var before := work.tasks[t].status;
      var requested := StatusRequested(work.tasks[t], u);
      refusal := LeadChangeTask(lead, t, u);
      if refusal.None? {
        refusal := Gates(work, t, before, work.tasks[t].status, requested);
        GatesDependOn(start, work, t, before, work.tasks[t].status, requested);
      }
    }

    /** All of it up to the point where the event is recorded: gates, tags and fields. */
    method LeadStoreChanges(lead: Id, t: Id, u: TaskUpdate, now: int) returns (refusal: Option<Refusal>)
      requires WellFormed(work) && t in work.tasks
      modifies this`work
      ensures refusal.None? ==> LeadStore(old(work), lead, t, u, now) == Ok(work)
      ensures refusal.Some? ==> LeadStore(old(work), lead, t, u, now) == Err(refusal.value)
    {
      ghost var start := work;
      var tags;
      refusal, tags := LeadCheckRequest(t, u);
      if refusal.Some? {
        return;
      }
      ghost var admitted := work;
      LeadChangeDependsOn(start, admitted, lead, t, u);
      if LeadChange(start, lead, t, u).Ok? {
        LeadGatesDependOn(start, admitted, lead, t, u);
      }
      refusal := LeadPassGates(lead, t, u);
      if refusal.Some? {
        return;
      }
      work := work.(tags := WithTags(work.tags, t, tags));
      refusal := StoreFields(t, u.fields);
      if refusal.None? {
        SetTask(t, work.tasks[t].(updatedAt := now));
        assert work.tasks == start.tasks[t := work.tasks[t]];
      }
    }

    method ApplyLeadUpdate(lead: Id, t: Id, u: TaskUpdate, now: int) returns (refusal: Option<Refusal>)
      requires WellFormed(work) && Acyclic(work.edges) && t in work.tasks
      modifies this`work
      ensures refusal.None? ==> LeadUpdate(old(work), lead, t, u, now) == Ok(work)
      ensures refusal.Some? ==> LeadUpdate(old(work), lead, t, u, now) == Err(refusal.value)
    {
      var before := work.tasks[t].status;
      refusal := LeadStoreChanges(lead, t, u, now);
      if refusal.None? {
        LeadStoreFrame(old(work), lead, t, u, now);
        LogTransition(t, before, work.tasks[t].status, work.tasks[t].title, Some(lead), now);
      }
    }

    // ----- Users and workers --------------------------------------------------------------------------

    /** The first part of `_finalize_updated_task`: set the fields, pass the gates, hand a task
        that enters review to the lead. */
    method FinishRules(t: Id, prior: Task, status: Option<Status>, assignee: Option<Option<Id>>, u: TaskUpdate)
      returns (r: Result<Task, Refusal>)
      requires t in work.tasks
      ensures r == FinalTask(work, t, prior, work.tasks[t], status, assignee, u)
    {
      var task := work.tasks[t];
      if u.title.Some? { task := task.(title := u.title.value); }
      if u.details.Some? { task := task.(details := u.details.value); }
      if status.Some? { task := task.(status := status.value); }
      if assignee.Some? { task := task.(assignee := assignee.value); }
      var gate := Gates(work, t, prior.status, task.status, StatusRequested(prior, u));
      if gate.Some? {
        return Err(gate.value);
      }
      if status == Some(Review) && work.flags.commentForReview {
        var author := if task.assignee.Some? then task.assignee else prior.assignee;
        var since := if task.previousInProgressAt.Some? then task.previousInProgressAt else prior.inProgressAt;
        if u.comment.None? && !HasRecentComment(work, t, author, since) {
          return Err(CommentRequired);
        }
      }
      if task.status.Review? && !prior.status.Review? {
        var lead := FindLead();
        if lead.Some? {
          task := task.(assignee := lead);
        }
      }
      r := Ok(task);
    }

    /** The second part, up to the first commit. The caller's rules have already changed the task
        and its edges; `prior` is the task as the request found it. */
    method StoreRuledTask(ghost start: Db, prior: Task, t: Id, status: Option<Status>, assignee: Option<Option<Id>>,
                          tags: Option<seq<Id>>, u: TaskUpdate, actor: Option<Id>, now: int)
      returns (r: Result<Job, Refusal>)
      requires t in start.tasks && prior == start.tasks[t] && t in work.tasks
      requires CustomFields.DistinctIds(start.fields)
      requires work == start.(edges := work.edges, tasks := start.tasks[t := work.tasks[t]])
      modifies this`work
      ensures var spec := StoreUpdate(start, old(work).edges, t, old(work).tasks[t], status, assignee, tags, u, actor,
              now);
              && (r.Ok? ==> spec == Ok((work, r.value)))
              && (r.Err? ==> spec == Err(r.error))
    {
      FinalTaskDependsOn(start, work, t, prior, work.tasks[t], status, assignee, u);
      var final := FinishRules(t, prior, status, assignee, u);
      if final.Err? {
        return Err(final.error);
      }
      var task := final.value;
      work := work.(tags := WithTags(work.tags, t, tags));
      var refusal := StoreFields(t, u.fields);
      if refusal.Some? {
        return Err(refusal.value);
      }
      SetTask(t, task.(updatedAt := now));
      assert work.tasks == start.tasks[t := work.tasks[t]];
      r := Ok(Job(t, prior.status, task.status, actor, u.comment));
    }

    method FindLead() returns (lead: Option<Id>)
      ensures lead == BoardLead(work)
    {
      var leads := set a | a in work.agents && work.agents[a].board == Some(work.boardId) && work.agents[a].isLead;
      if leads == {} {
        return None;
      }
      var least := Least(leads);
      LeastComesFirst(leads, least);
      lead := Some(least);
    }

    /** `_apply_admin_task_rules` and then the shared part. */
    method ApplyUserUpdate(t: Id, u: TaskUpdate, now: int) returns (r: Result<Job, Refusal>)
      requires WellFormed(work) && t in work.tasks
      modifies this`work
      ensures r.Ok? ==> UserUpdate(old(work), t, u, now) == Ok((work, r.value))
      ensures r.Err? ==> UserUpdate(old(work), t, u, now) == Err(r.error)
    {
      ghost var start := work;
      var prior := work.tasks[t];
      var tags := CheckOptionalTags(work, u.tagIds);
      if tags.Err? {
        return Err(tags.error);
      }
      var refusal := ReplaceDependencies(t, u);
      if refusal.Some? {
        return Err(refusal.value);
      }
      var task, status, assignee := prior, u.status, u.assignee;
      var target := u.status.GetOr(prior.status);
      if BlockersOf(work, t) != {} && !(prior.status.Done? && target.Done?) {
        task := task.(status := Inbox, assignee := None, inProgressAt := None);
        status, assignee := Some(Inbox), Some(None);
      }
      if status == Some(Inbox) || status == Some(Review) {
        task := LeaveWork(task);
      } else if status == Some(InProgress) {
        task := task.(inProgressAt := Some(now));
      }
      SetTask(t, task);
      var bad := CheckAssignee(work, assignee.GetOr(None), true);
      if bad.Some? {
        return Err(bad.value);
      }
      r := StoreRuledTask(start, prior, t, status, assignee, tags.value, u, None, now);
    }

    /** `_apply_non_lead_agent_task_rules` and then the shared part. */
    method ApplyWorkerUpdate(a: Id, t: Id, u: TaskUpdate, now: int) returns (r: Result<Job, Refusal>)
      requires WellFormed(work) && t in work.tasks && a in work.agents
      modifies this`work
      ensures r.Ok? ==> WorkerUpdate(old(work), a, t, u, now) == Ok((work, r.value))
      ensures r.Err? ==> WorkerUpdate(old(work), a, t, u, now) == Err(r.error)
    {
      ghost var start := work;
      var prior := work.tasks[t];
      if work.agents[a].board.Some? && work.agents[a].board.value != work.boardId {
        return Err(OtherBoard);
      }
      if prior.assignee.Some? && prior.assignee.value != a && u.status.Some? {
        return Err(AssigneeMismatch);
      }
      if u.dependsOn.Some? || u.tagIds.Some? || u.title.Some? || u.details.Some? || u.assignee.Some? {
        return Err(WorkerFields);
      }
      var task := prior;
      if u.status.Some? {
        if work.flags.onlyLeadChangesStatus {
          return Err(OnlyLeadChangesStatus);
        }
        var blockers := BlockersOf(work, t);
        if !u.status.value.Inbox? && blockers != {} {
          return Err(BlockedTask(blockers));
        }
        if u.status.value.Inbox? || u.status.value.Review? {
          task := LeaveWork(task);
        } else {
          task := task.(assignee := Some(a));
          if u.status.value.InProgress? {
            task := task.(inProgressAt := Some(now));
          }
        }
      }
      SetTask(t, task);
      r := StoreRuledTask(start, prior, t, u.status, None, None, u, Some(a), now);
    }

    // ----- The update endpoint ---------------------------------------------------------------------------

    /** Everything up to the first commit. A refused request leaves no trace, although the task
        and its edges may have been changed on the way. */
    method UpdateFirstCommit(actor: Actor, t: Id, u: TaskUpdate, now: int) returns (r: Result<Option<Job>, Refusal>)
      requires Valid() && Acyclic(persisted.edges)
      modifies this
      ensures work == persisted
      ensures r.Ok? ==> FirstCommit(old(persisted), actor, t, u, now) == Ok((persisted, r.value))
      ensures r.Err? ==> FirstCommit(old(persisted), actor, t, u, now) == Err(r.error) && persisted == old(persisted)
    {
      if t !in work.tasks {
        return Err(NotFound);
      }
      if actor.User? {
        var job := ApplyUserUpdate(t, u, now);
        r := if job.Ok? then Ok(Some(job.value)) else Err(job.error);
      } else {
        var a := actor.id;
        if a !in work.agents {
          return Err(Unauthorized);
        }
        if work.agents[a].board.Some? && work.agents[a].board.value != work.boardId {
          return Err(OtherBoard);
        }
        if work.agents[a].isLead {
          var refusal := ApplyLeadUpdate(a, t, u, now);
          r := if refusal.None? then Ok(None) else Err(refusal.value);
        } else {
          var job := ApplyWorkerUpdate(a, t, u, now);
          r := if job.Ok? then Ok(Some(job.value)) else Err(job.error);
        }
      }
      if r.Ok? {
        Commit();
      } else {
        Rollback();
      }
    }

    /** `refresh`: what another request has committed since the first commit is seen here. */
    method RefreshTask(t: Id) returns (seen: Option<Snapshot>)
      requires work == persisted
      ensures seen == Reread(persisted, t)
    {
      if t !in work.tasks {
        return None;
      }
      seen := Some(Snapshot(work.tasks[t].status, work.tasks[t].title));
    }

    /** The comment's own commit. */
    method CommitComment(job: Job, now: int)
      requires work == persisted
      modifies this
      ensures persisted == work == PostComment(old(persisted), job, now)
    {
      if job.comment.Some? && job.task in work.tasks {
        work := work.(events := work.events + [Event(TaskComment, job.comment.value, job.actor, job.task, now)]);
      }
      Commit();
    }

    /** The last commit: the transition's event and the dependents. */
    method CommitTransition(job: Job, seen: Snapshot, now: int)
      requires Valid()
      modifies this
      ensures persisted == work == FinishUpdate(old(persisted), job, seen, now)
    {
      if job.task in work.tasks {
        LogTransition(job.task, job.before, seen.status, seen.title, job.actor, now);
      }
      Commit();
    }

    /** `update_task` without interruption. */
    method UpdateTaskRequest(actor: Actor, t: Id, u: TaskUpdate, now: int) returns (refusal: Option<Refusal>)
      requires Valid() && Acyclic(persisted.edges)
      modifies this
      ensures Valid() && Acyclic(persisted.edges)
      ensures refusal.None? ==> UpdateTask(old(persisted), actor, t, u, now) == Ok(persisted)
      ensures refusal.Some? ==>
                UpdateTask(old(persisted), actor, t, u, now) == Err(refusal.value) && persisted == old(persisted)
    {
      var first := UpdateFirstCommit(actor, t, u, now);
      if first.Err? {
        return Some(first.error);
      }
      FirstCommitKeepsWellFormed(old(persisted), actor, t, u, now);
      if first.value.Some? {
        var job := first.value.value;
        ghost var stored := persisted;
        var seen := RefreshTask(job.task);
        if seen.Some? {
          CommitComment(job, now);
          CommentKeepsWellFormed(stored, job, now);
          ghost var commented := persisted;
          CommitTransition(job, seen.value, now);
          FinishKeepsWellFormed(commented, job, seen.value, now);
        }
      }
      refusal := None;
    }

    // ----- Creating and deleting tasks ----------------------------------------------------------------------

    /** The checks before a new task is stored. */
    method AdmitNewTask(t: Id, c: TaskCreate, lead: Option<Id>) returns (r: Result<(set<Id>, seq<Id>), Refusal>)
      requires WellFormed(work)
      ensures r == AdmitTask(work, t, c, lead)
    {
      if lead.Some? {
        if lead.value !in work.agents || !work.agents[lead.value].isLead {
          return Err(Unauthorized);
        }
        if work.agents[lead.value].board.Some? && work.agents[lead.value].board.value != work.boardId {
          return Err(OtherBoard);
        }
      }
      var deps := ValidateDependencies(t, c.dependsOn);
      if deps.Err? {
        return Err(deps.error);
      }
      var tags := CheckTags(work, c.tagIds);
      if tags.Err? {
        return Err(tags.error);
      }
      var blockers := set d | d in deps.value && !IsDone(work, d);
      if blockers != {} && (c.assignee.Some? || !c.status.Inbox?) {
        return Err(BlockedTask(blockers));
      }
      if lead.Some? {
        var bad := CheckAssignee(work, c.assignee, false);
        if bad.Some? {
          return Err(bad.value);
        }
      }
      if t in work.tasks || (c.assignee.Some? && c.assignee.value !in work.agents) {
        return Err(ForeignKey);
      }
      r := Ok((deps.value, tags.value));
    }

    /** `create_task` of the user's router and of the lead's. */
    method CreateTaskRequest(t: Id, c: TaskCreate, lead: Option<Id>, now: int) returns (refusal: Option<Refusal>)
      requires Valid() && Acyclic(persisted.edges)
      modifies this
      ensures Valid() && Acyclic(persisted.edges)
      ensures refusal.None? ==> CreateTask(old(persisted), t, c, lead, now) == Ok(persisted)
      ensures refusal.Some? ==>
                CreateTask(old(persisted), t, c, lead, now) == Err(refusal.value) && persisted == old(persisted)
    {
      var admitted := AdmitNewTask(t, c, lead);
      if admitted.Err? {
        return Some(admitted.error);
      }
      var (deps, tags) := admitted.value;
      work := work.(tasks := work.tasks[t := Task(c.title, c.details, c.status, c.assignee, None, None, now)]);
      var rows := CustomFields.SetForCreate(work.fields, c.fields);
      if rows.Err? {
        Rollback();
        return Some(CustomField(rows.error));
      }
      work := work.(fieldRows := work.fieldRows[t := rows.value],
                    edges := WithDependencies(work.edges, t, deps),
                    tags := work.tags[t := tags]);
      Commit();
      var seen := RefreshTask(t);
      if seen.Some? {
        work := work.(events := work.events + [CreatedEvent(t, seen.value.title, lead, now)]);
        Commit();
      }
      refusal := None;
      CreateKeepsWellFormed(old(persisted), t, c, lead, now);
    }

    /** `delete_task_and_related_records`: one table after the other, then commit. */
    method DeleteTaskRequest(t: Id) returns (refusal: Option<Refusal>)
      requires Valid() && Acyclic(persisted.edges)
      modifies this
      ensures Valid() && Acyclic(persisted.edges)
      ensures refusal.None? ==> t in old(persisted).tasks && persisted == DeleteTask(old(persisted), t)
      ensures refusal.Some? ==> t !in old(persisted).tasks && persisted == old(persisted)
    {
      if t !in work.tasks {
        return Some(NotFound);
      }
      DeleteKeepsWellFormed(persisted, t);
      DeleteRows(t);
      Commit();
      refusal := None;
    }

    method DeleteRows(t: Id)
      modifies this`work
      ensures work == DeleteTask(old(work), t)
    {
      work := work.(events := Select(work.events, NotAbout(t)));
      work := work.(fingerprints := set f | f in work.fingerprints && f.1 != t);
      var primary := set a | a in work.approvals && work.approvals[a].task == Some(t);
      work := work.(links := LinksWithout(work.links, t));
      MovePrimaryTasks(t, primary);
      work := work.(edges := set e | e in work.edges && e.0 != t && e.1 != t);
      work := work.(tags := work.tags - {t});
      work := work.(fieldRows := work.fieldRows - {t});
      work := work.(tasks := work.tasks - {t});
    }

    /** The loop over the approvals whose primary task is being deleted. */
    method MovePrimaryTasks(t: Id, primary: set<Id>)
      requires primary == set a | a in work.approvals && work.approvals[a].task == Some(t)
      modifies this`work
      ensures work == old(work).(approvals := ApprovalsWithout(old(work).approvals, old(work).links, t))
    {
      ghost var start := work;
      var todo := primary;
      while todo != {}
        invariant todo <= primary
        invariant work == start.(approvals := work.approvals)
        invariant forall a :: a in work.approvals <==>
                    a in start.approvals && (a !in primary || a in todo || LinkedTasks(start.links, a) != [])
        invariant forall a :: a in work.approvals ==>
                    work.approvals[a] == if a in primary && a !in todo
                                         then start.approvals[a].(task := Some(LinkedTasks(start.links, a)[0]))
                                         else start.approvals[a]
        decreases todo
      {
        var a :| a in todo;
        var remaining := LinkedTasks(work.links, a);
        if remaining != [] {
          work := work.(approvals := work.approvals[a := work.approvals[a].(task := Some(remaining[0]))]);
        } else {
          work := work.(approvals := work.approvals - {a});
        }
        todo := todo - {a};
      }
      assert work.approvals == ApprovalsWithout(start.approvals, start.links, t);
    }

    // ----- Approvals ----------------------------------------------------------------------------------------

    /** `create_approval` */
    method CreateApprovalRequest(a: Id, requested: seq<Id>, status: ApprovalStatus, now: int)
      returns (refusal: Option<Refusal>)
      requires work == persisted
      modifies this
      ensures work == persisted
      ensures refusal.None? ==> CreateApproval(old(persisted), a, requested, status, now) == Ok(persisted)
      ensures refusal.Some? ==>
                CreateApproval(old(persisted), a, requested, status, now) == Err(refusal.value)
                && persisted == old(persisted)
    {
      var ids := Dedupe(requested);
      refusal := AdmitApproval(work, a, ids, status);
      if refusal.Some? {
        return;
      }
      var primary := if ids == [] then None else Some(ids[0]);
      work := work.(approvals := work.approvals[a := Approval(primary, status, now, None)]);
      work := work.(links := LinksOfOthers(work.links, a));
      work := work.(links := work.links + LinkRows(a, ids));
      assert CreateApproval(old(work), a, requested, status, now) == Ok(work);
      Commit();
      refusal := None;
    }

    /** `update_approval` */
    method UpdateApprovalRequest(a: Id, status: Option<ApprovalStatus>, now: int) returns (refusal: Option<Refusal>)
      requires work == persisted
      modifies this
      ensures work == persisted
      ensures refusal.None? ==> UpdateApproval(old(persisted), a, status, now) == Ok(persisted)
      ensures refusal.Some? ==>
                UpdateApproval(old(persisted), a, status, now) == Err(refusal.value) && persisted == old(persisted)
    {
      if a !in work.approvals {
        return Some(NotFound);
      }
      if status.Some? {
        var approval := work.approvals[a];
        if status.value.Pending? && !approval.status.Pending? {
          var conflicts := Conflicts(work, TasksOf(work, a), Some(a));
          if conflicts != {} {
            return Some(PendingConflict(conflicts));
          }
        }
        approval := approval.(status := status.value);
        if !approval.status.Pending? {
          approval := approval.(resolvedAt := Some(now));
        }
        work := work.(approvals := work.approvals[a := approval]);
      }
      Commit();
      refusal := None;
    }
  }

  lemma CreateKeepsWellFormed(db: Db, t: Id, c: TaskCreate, lead: Option<Id>, now: int)
    requires WellFormed(db) && Acyclic(db.edges) && CreateTask(db, t, c, lead, now).Ok?
    ensures var after := CreateTask(db, t, c, lead, now).value;
            WellFormed(after) && Acyclic(after.edges)
  {
    CreateTaskEffect(db, t, c, lead, now);
  }

  lemma FirstCommitKeepsWellFormed(db: Db, actor: Actor, t: Id, u: TaskUpdate, now: int)
    requires WellFormed(db) && Acyclic(db.edges) && FirstCommit(db, actor, t, u, now).Ok?
    ensures var after := FirstCommit(db, actor, t, u, now).value.0;
            WellFormed(after) && Acyclic(after.edges)
  {
    FirstCommitEffect(db, actor, t, u, now);
  }

  lemma CommentKeepsWellFormed(db: Db, job: Job, now: int)
    requires WellFormed(db)
    ensures WellFormed(PostComment(db, job, now)) && PostComment(db, job, now).edges == db.edges
  {
  }

  lemma FinishKeepsWellFormed(db: Db, job: Job, seen: Snapshot, now: int)
    requires WellFormed(db)
    ensures var after := FinishUpdate(db, job, seen, now);
            WellFormed(after) && after.edges == db.edges
  {
    if job.task in db.tasks {
      ReconcileEffect(db, job.task, job.before, seen.status, seen.title, job.actor, now);
    }
  }

  lemma GatesDependOn(db: Db, other: Db, t: Id, before: Status, after: Status, requested: bool)
    requires db.approvals == other.approvals && db.links == other.links && db.flags == other.flags
    ensures Gates(db, t, before, after, requested) == Gates(other, t, before, after, requested)
  {
    assert forall a :: HasLinks(db, a) == HasLinks(other, a);
    assert forall a :: Concerns(db, a, t) == Concerns(other, a, t);
  }

  lemma FinalTaskDependsOn(db: Db, other: Db, t: Id, prior: Task, ruled: Task, status: Option<Status>,
                           assignee: Option<Option<Id>>, u: TaskUpdate)
    requires db == other.(edges := db.edges, tasks := db.tasks)
    ensures FinalTask(db, t, prior, ruled, status, assignee, u)
            == FinalTask(other, t, prior, ruled, status, assignee, u)
  {
    GatesDependOn(db, other, t, prior.status, status.GetOr(ruled.status), StatusRequested(prior, u));
  }

  lemma LeadStatusDependsOn(db: Db, other: Db, lead: Id, t: Id, u: TaskUpdate)
    requires db.events == other.events && db.agents == other.agents && db.boardId == other.boardId && t in other.tasks
    ensures LeadStatus(db, lead, t, other.tasks[t], u) == LeadStatus(other, lead, t, other.tasks[t], u)
  {
    FirstTakerDependsOn(db, other, lead, NewestFirst(Select(db.events, ReviewMove(t))));
  }

  lemma LeadChangeDependsOn(db: Db, other: Db, lead: Id, t: Id, u: TaskUpdate)
    requires db.events == other.events && db.agents == other.agents && db.boardId == other.boardId
    requires db.tasks == other.tasks && t in db.tasks
    ensures LeadChange(db, lead, t, u) == LeadChange(other, lead, t, u)
  {
    FirstTakerDependsOn(db, other, lead, NewestFirst(Select(db.events, ReviewMove(t))));
  }

  lemma LeadGatesDependOn(db: Db, other: Db, lead: Id, t: Id, u: TaskUpdate)
    requires db.approvals == other.approvals && db.links == other.links && db.flags == other.flags
    requires db.tasks == other.tasks && t in db.tasks && LeadChange(db, lead, t, u).Ok?
    ensures var before, after := db.tasks[t], LeadChange(db, lead, t, u).value;
            Gates(db, t, before.status, after.status, StatusRequested(before, u))
            == Gates(other, t, before.status, after.status, StatusRequested(before, u))
  {
    var before, after := db.tasks[t], LeadChange(db, lead, t, u).value;
    GatesDependOn(db, other, t, before.status, after.status, StatusRequested(before, u));
  }

  lemma {:induction false} FirstTakerDependsOn(db: Db, other: Db, lead: Id, candidates: seq<Event>)
    requires db.agents == other.agents && db.boardId == other.boardId
    ensures FirstTaker(db, lead, candidates) == FirstTaker(other, lead, candidates)
  {
    if candidates != [] {
      FirstTakerDependsOn(db, other, lead, candidates[1..]);
    }
  }

  lemma GraphOfEdges(edges: Edges, sources: set<Id>, graph: map<Id, set<Id>>)
    requires sources == set e | e in edges :: e.0
    requires graph == map n | n in sources :: set e | e in edges && e.0 == n :: e.1
    ensures EdgesOf(graph) == edges
  {
    forall e | e in edges ensures e in EdgesOf(graph) {
      assert e.0 in graph && e.1 in graph[e.0];
      assert e == (e.0, e.1);
    }
  }

  function PartlyParked(tasks: map<Id, Task>, parked: set<Id>, now: int): map<Id, Task> {
    map x | x in tasks :: if x in parked then ParkTask(tasks[x], now) else tasks[x]
  }

  lemma OneMoreParked(tasks: map<Id, Task>, parked: set<Id>, t: Id, now: int)
    requires t in tasks && t !in parked
    ensures PartlyParked(tasks, parked + {t}, now) == PartlyParked(tasks, parked, now)[t := ParkTask(tasks[t], now)]
    ensures PartlyParked(tasks, {}, now) == tasks
  {
  }

  lemma OneMoreEvent(tasks: map<Id, Task>, ids: seq<Id>, t: Id, reopened: bool, title: string, actor: Option<Id>,
      now: int)
    requires t in tasks && forall x :: x in ids ==> x in tasks
    ensures forall x :: x in ids + [t] ==> x in tasks
    ensures DependencyEvents(tasks, ids + [t], reopened, title, actor, now)
            == DependencyEvents(tasks, ids, reopened, title, actor, now)
               + [DependencyEvent(tasks[t], t, reopened, title, actor, now)]
  {
    assert (ids + [t])[..|ids|] == ids;
  }

  /** The state of reconciliation when the dependents in `todo` are still to come. */
  ghost predicate PartlyReconciled(start: Db, db: Db, open: set<Id>, todo: set<Id>, logged: seq<Id>, reopened: bool,
                                   title: string, actor: Option<Id>, now: int)
  {
    && logged + SortedIds(todo * open) == SortedIds(open)
    && (forall x :: x in logged ==> x in start.tasks)
    && (forall x :: x in open ==> x in start.tasks && !start.tasks[x].status.Done?)
    && (forall x :: x in todo && x in start.tasks && !start.tasks[x].status.Done? ==> x in open)
    && todo <= start.tasks.Keys
    && db == start.(tasks := PartlyParked(start.tasks, if reopened then open - todo else {}, now),
                    events := start.events + DependencyEvents(start.tasks, logged, reopened, title, actor, now))
  }

  lemma ReconcileStarts(start: Db, d: Id, dependents: set<Id>, reopened: bool, title: string, actor: Option<Id>,
      now: int)
    requires dependents == set e | e in start.edges && e.1 == d && e.0 in start.tasks :: e.0
    ensures PartlyReconciled(start, start, OpenDependents(start, d), dependents, [], reopened, title, actor, now)
  {
    var open := OpenDependents(start, d);
    assert dependents * open == open && open - dependents == {};
    assert [] + SortedIds(open) == SortedIds(open);
    assert PartlyParked(start.tasks, {}, now) == start.tasks;
    assert start.events + [] == start.events;
  }

  lemma ReconcileEnds(start: Db, db: Db, d: Id, logged: seq<Id>, before: Status, after: Status, title: string,
                      actor: Option<Id>, now: int)
    requires before.Done? != after.Done?
    requires PartlyReconciled(start, db, OpenDependents(start, d), {}, logged, before.Done?, title, actor, now)
    ensures db == Reconcile(start, d, before, after, title, actor, now)
  {
    var open := OpenDependents(start, d);
    assert {} * open == {} && open - {} == open;
    assert logged + [] == logged;
    assert db.tasks == map t | t in start.tasks ::
                         if before.Done? && t in open then ParkTask(start.tasks[t], now) else start.tasks[t];
  }

  lemma SkipFinished(start: Db, db: Db, open: set<Id>, todo: set<Id>, logged: seq<Id>, reopened: bool,
                     title: string, actor: Option<Id>, now: int, t: Id)
    requires PartlyReconciled(start, db, open, todo, logged, reopened, title, actor, now)
    requires t in todo && db.tasks[t].status.Done?
    ensures PartlyReconciled(start, db, open, todo - {t}, logged, reopened, title, actor, now)
  {
    assert t !in open;
    assert (todo - {t}) * open == todo * open && open - (todo - {t}) == open - todo;
  }

  lemma ReconcileOneMore(start: Db, db: Db, after: Db, open: set<Id>, todo: set<Id>, logged: seq<Id>, reopened: bool,
                         title: string, actor: Option<Id>, now: int, t: Id)
    requires PartlyReconciled(start, db, open, todo, logged, reopened, title, actor, now)
    requires t in todo && (forall x :: x in todo ==> t <= x) && t in db.tasks && !db.tasks[t].status.Done?
    requires after == db.(tasks := if reopened then db.tasks[t := ParkTask(db.tasks[t], now)] else db.tasks,
                          events := db.events + [DependencyEvent(db.tasks[t], t, reopened, title, actor, now)])
    ensures PartlyReconciled(start, after, open, todo - {t}, logged + [t], reopened, title, actor, now)
  {
    assert t in open && db.tasks[t] == start.tasks[t];
    NextInOrder(open, todo, logged, t);
    OneMoreEvent(start.tasks, logged, t, reopened, title, actor, now);
    OneMoreOfOpen(start.tasks, open, todo, t, reopened, now);
  }

  lemma NextInOrder(open: set<Id>, todo: set<Id>, logged: seq<Id>, t: Id)
    requires logged + SortedIds(todo * open) == SortedIds(open)
    requires t in todo && t in open && forall x :: x in todo ==> t <= x
    ensures (logged + [t]) + SortedIds((todo - {t}) * open) == SortedIds(open)
  {
    LeastComesFirst(todo * open, t);
    assert (todo - {t}) * open == todo * open - {t};
    OneMoreInFront(logged, t, SortedIds(todo * open - {t}));
  }

  lemma OneMoreInFront(logged: seq<Id>, t: Id, rest: seq<Id>)
    ensures (logged + [t]) + rest == logged + ([t] + rest)
  {
  }

  lemma OneMoreOfOpen(tasks: map<Id, Task>, open: set<Id>, todo: set<Id>, t: Id, reopened: bool, now: int)
    requires t in todo && t in open && t in tasks
    ensures var before := PartlyParked(tasks, if reopened then open - todo else {}, now);
            PartlyParked(tasks, if reopened then open - (todo - {t}) else {}, now)
            == if reopened then before[t := ParkTask(tasks[t], now)] else before
  {
    assert open - (todo - {t}) == open - todo + {t};
    OneMoreParked(tasks, open - todo, t, now);
  }
}
