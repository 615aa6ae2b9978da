/** Where the board's rules do not do what they say: exact conditions over whole requests and
    single commits, and boards on which they fail. */
module BoardExceptions {
  import opened Wrappers
  import opened DependencyGraph
  import opened BoardModel
  import opened TaskRules
  import opened TaskFacts
  import opened BoardRuns

  // ----- No status change while an approval is pending --------------------------------------------

  /** The task is held: the board's rule says that its status must not change. */
  ghost predicate Held(db: Db, x: Id) {
    db.flags.blockWithPending && x in db.tasks && HasPendingApproval(db, x)
  }

  /** The request takes the finished task `t` out of done. */
  predicate Reopens(db: Db, t: Id, u: TaskUpdate) {
    IsDone(db, t) && u.status.Some? && !u.status.value.Done?
  }

  /** Reopening `d` sends `x` back to the inbox: an unfinished dependent that is elsewhere. */
  predicate SentBack(db: Db, d: Id, x: Id)
    requires x in db.tasks
  {
    (x, d) in db.edges && (db.tasks[x].status.InProgress? || db.tasks[x].status.Review?)
  }

  /** The two ways in which an accepted update moves a held task. */
  predicate MovesHeld(db: Db, actor: Actor, t: Id, u: TaskUpdate, x: Id)
    requires x in db.tasks
  {
    (x == t && RewritesActiveTask(db, actor, t, u)) || (Reopens(db, t, u) && SentBack(db, t, x))
  }

  /** What the first commit does to the status of any held task, and whether a reopening follows. */
  lemma FirstCommitHeld(db: Db, actor: Actor, t: Id, u: TaskUpdate, now: int, x: Id)
    requires WellFormed(db) && Acyclic(db.edges) && FirstCommit(db, actor, t, u, now).Ok? && Held(db, x)
    ensures var (mid, job) := FirstCommit(db, actor, t, u, now).value;
            && x in mid.tasks
            && (mid.tasks[x].status != db.tasks[x].status <==> x == t && RewritesActiveTask(db, actor, t, u))
            && (x != t ==> mid.tasks[x] == db.tasks[x])
  {
    FirstCommitEffect(db, actor, t, u, now);
    if x == t {
      FirstCommitMovesHeldTaskIff(db, actor, t, u, now);
    }
  }

  /** The job that a first commit leaves names the transition, and it is a reopening exactly if
      the payload takes a finished task out of done; a lead's is never one. */
  lemma JobReopensIff(db: Db, actor: Actor, t: Id, u: TaskUpdate, now: int)
    requires WellFormed(db) && Acyclic(db.edges) && FirstCommit(db, actor, t, u, now).Ok?
    ensures var (mid, job) := FirstCommit(db, actor, t, u, now).value;
            && (job.Some? ==> job.value.task == t && job.value.before == db.tasks[t].status
                              && t in mid.tasks && job.value.after == mid.tasks[t].status)
            && (Reopens(db, t, u) <==> job.Some? && job.value.before.Done? && !job.value.after.Done?)
  {
    match actor
    case User =>
      UserUpdateEffect(db, t, u, now);
      UserReopensIff(db, t, u, now);
    case AgentActor(a) =>
      if db.agents[a].isLead {
        LeadUpdateEffect(db, a, t, u, now);
        LeadStoreTask(db, a, t, u, now);
        LeadUpdateLogs(db, a, t, u, now);
      } else {
        WorkerUpdateEffect(db, a, t, u, now);
        WorkerReopensIff(db, a, t, u, now);
      }
  }

  lemma UserReopensIff(db: Db, t: Id, u: TaskUpdate, now: int)
    requires t in db.tasks && WellFormed(db) && UserUpdate(db, t, u, now).Ok?
    ensures IsDone(db, t) ==>
            (UserUpdate(db, t, u, now).value.1.after.Done? <==> u.status.None? || u.status.value.Done?)
  {
  }

  lemma WorkerReopensIff(db: Db, a: Id, t: Id, u: TaskUpdate, now: int)
    requires t in db.tasks && a in db.agents && WellFormed(db) && WorkerUpdate(db, a, t, u, now).Ok?
    ensures IsDone(db, t) ==>
            (WorkerUpdate(db, a, t, u, now).value.1.after.Done? <==> u.status.None? || u.status.value.Done?)
  {
  }

  /** Parking changes the status of a task exactly if the task is at work. */
  lemma ReconcileSendsBackIff(db: Db, d: Id, before: Status, after: Status, title: string, actor: Option<Id>,
      now: int, x: Id)
    requires x in db.tasks
    ensures var db' := AfterTransition(db, d, before, after, title, actor, now);
            && x in db'.tasks
            && (db'.tasks[x].status != db.tasks[x].status <==> before.Done? && !after.Done? && SentBack(db, d, x))
  {
    ReconcileEffect(db, d, before, after, title, actor, now);
  }

  /** The rest of an accepted update, after its first commit. */
  lemma RestSendsBackIff(mid: Db, job: Job, now: int, x: Id)
    requires x in mid.tasks
    ensures var after := RestOfUpdate(mid, job, now);
            && x in after.tasks
            && (after.tasks[x].status != mid.tasks[x].status
                <==> job.task in mid.tasks && job.before.Done? && !IsDone(mid, job.task) && SentBack(mid, job.task, x))
  {
    if job.task in mid.tasks {
      var seen := Reread(mid, job.task).value;
      ReconcileSendsBackIff(PostComment(mid, job, now), job.task, job.before, seen.status, seen.title, job.actor, now,
          x);
    }
  }

  /** "No status change while an approval is pending": an accepted update breaks it for a task
      exactly if it is a user's edit that leaves that task, which was at work, blocked without asking
      for another status, or if it takes a finished task out of done on which that task, which was
      at work, depends. The payload and the rows before the request decide. */
  lemma UpdateMovesHeldIff(db: Db, actor: Actor, t: Id, u: TaskUpdate, now: int, x: Id)
    requires WellFormed(db) && Acyclic(db.edges) && UpdateTask(db, actor, t, u, now).Ok? && Held(db, x)
    ensures var after := UpdateTask(db, actor, t, u, now).value;
            && t in db.tasks && x in after.tasks
            && (after.tasks[x].status != db.tasks[x].status <==> MovesHeld(db, actor, t, u, x))
  {
    var (mid, job) := FirstCommit(db, actor, t, u, now).value;
    FirstCommitEffect(db, actor, t, u, now);
    FirstCommitHeld(db, actor, t, u, now, x);
    JobReopensIff(db, actor, t, u, now);
    if job.Some? {
      RestSendsBackIff(mid, job.value, now, x);
    }
  }

  /** The same for a single commit of any interleaved run. The last commit of an update goes by the
      status that the request saw when it read its task again, whoever had set that. */
  ghost predicate CommitMovesHeld(s: System, act: Action, x: Id)
    requires x in s.db.tasks
  {
    match act
    case Update(actor, t, u, now) =>
      WellFormed(s.db) && FirstCommit(s.db, actor, t, u, now).Ok? && x == t && RewritesActiveTask(s.db, actor, t, u)
    case Finish(i, _) =>
      && i < |s.pending| && Ready(s.pending[i])
      && var job, seen := s.pending[i].job, s.pending[i].seen.value;
         job.task in s.db.tasks && job.before.Done? && !seen.status.Done? && SentBack(s.db, job.task, x)
    case _ => false
  }

  lemma FinishMovesIff(s: System, i: nat, now: int, x: Id)
    requires Consistent(s.db) && x in s.db.tasks && x in Next(s, Finish(i, now)).db.tasks
    ensures Next(s, Finish(i, now)).db.tasks[x].status != s.db.tasks[x].status
            <==> CommitMovesHeld(s, Finish(i, now), x)
  {
    if i < |s.pending| && Ready(s.pending[i]) && s.pending[i].job.task in s.db.tasks {
      var job, seen := s.pending[i].job, s.pending[i].seen.value;
      ReconcileSendsBackIff(s.db, job.task, job.before, seen.status, seen.title, job.actor, now, x);
    }
  }

  lemma CommitMovesHeldIff(s: System, act: Action, x: Id)
    requires Consistent(s.db) && Held(s.db, x) && x in Next(s, act).db.tasks
    ensures Next(s, act).db.tasks[x].status != s.db.tasks[x].status <==> CommitMovesHeld(s, act, x)
  {
    match act
    case Update(actor, t, u, now) =>
      if FirstCommit(s.db, actor, t, u, now).Ok? {
        FirstCommitHeld(s.db, actor, t, u, now, x);
      }
    case Finish(i, now) =>
      FinishMovesIff(s, i, now, x);
    case Create(t, c, lead, now) =>
      if StoreTask(s.db, t, c, lead, now).Ok? {
        StoreTaskEffect(s.db, t, c, lead, now);
      }
    case _ =>
  }

  // ----- Boards on which the rules fail -------------------------------------------------------------

  const PLAIN := TaskUpdate(None, None, None, None, None, None, None, None)

  const AGENTS: map<Id, Agent> := map[9 := Agent(Some(0), true)]

  function BareTask(status: Status): Task {
    Task("", "", status, None, None, None, 0)
  }

  /** Task 2 is in progress and has a pending approval; task 1 has none. The board holds such tasks. */
  function HeldBoard(first: Task, edges: Edges): Db {
    Db(0, Flags(false, false, false, true, false), AGENTS, {}, map[],
       map[1 := first, 2 := BareTask(InProgress)], edges, map[], map[], {},
       map[5 := Approval(Some(2), Pending, 0, None)], [Link(5, 2)], [])
  }

  lemma OneEdgeIsAcyclic(e: Edges)
    requires e <= {(2, 1)}
    ensures Acyclic(e)
  {
    forall p ensures !IsCycle(e, p) {
      if |p| >= 2 && (p[0], p[1]) in e && p[|p| - 1] == p[0] {
        assert p[0] == 2 && p[|p| - 1] != 1;
        assert |p| > 2 ==> (p[1], p[2]) !in e;
      }
    }
  }

  lemma HeldBoardIsConsistent(first: Task, edges: Edges)
    requires edges <= {(2, 1)}
    ensures Consistent(HeldBoard(first, edges))
    ensures Held(HeldBoard(first, edges), 2) && !HasPendingApproval(HeldBoard(first, edges), 1)
  {
    var db := HeldBoard(first, edges);
    OneEdgeIsAcyclic(edges);
    assert Link(5, 2) in db.links;
    assert HasLinks(db, 5);
    assert Concerns(db, 5, 2);
  }

  /** A user reopens task 1, on which the held task 2 depends: task 2 goes to the inbox. */
  lemma ReopeningMovesHeldTask(now: int)
    ensures var db, u := HeldBoard(BareTask(Done), {(2, 1)}), PLAIN.(status := Some(Inbox));
            && Consistent(db) && Held(db, 2) && UpdateTask(db, User, 1, u, now).Ok?
            && var after := UpdateTask(db, User, 1, u, now).value;
               2 in after.tasks && after.tasks[2].status != db.tasks[2].status
  {
    var db, u := HeldBoard(BareTask(Done), {(2, 1)}), PLAIN.(status := Some(Inbox));
    HeldBoardIsConsistent(BareTask(Done), {(2, 1)});
    assert BlockersOf(db, 1) == {};
    assert UserUpdate(db, 1, u, now).Ok?;
    UpdateMovesHeldIff(db, User, 1, u, now, 2);
  }

  /** A user makes the held task 2 wait for the unfinished task 1: task 2 goes to the inbox. */
  lemma NewDependencyMovesHeldTask(now: int)
    ensures var db, u := HeldBoard(BareTask(Inbox), {}), PLAIN.(dependsOn := Some([1]));
            && Consistent(db) && Held(db, 2) && UpdateTask(db, User, 2, u, now).Ok?
            && var after := UpdateTask(db, User, 2, u, now).value;
               2 in after.tasks && after.tasks[2].status != db.tasks[2].status
  {
    var db, u := HeldBoard(BareTask(Inbox), {}), PLAIN.(dependsOn := Some([1]));
    HeldBoardIsConsistent(BareTask(Inbox), {});
    NewDependencyIsAdmitted(db, u);
    assert LeavesBlocked(db, 2, u) by { assert 1 in u.dependsOn.value && !IsDone(db, 1); }
    BlockedAfterEdit(db, 2, u);
    assert UserUpdate(db, 2, u, now).Ok?;
    UpdateMovesHeldIff(db, User, 2, u, now, 2);
  }

  lemma FinishedTaskEdited(now: int)
    ensures var edges := {(2, 1)};
            UserUpdate(HeldBoard(BareTask(Done), edges), 1, PLAIN.(title := Some("x")), now)
            == Ok((HeldBoard(BareTask(Done).(title := "x", updatedAt := now), edges), Job(1, Done, Done, None, None)))
  {
    var db, u := HeldBoard(BareTask(Done), {(2, 1)}), PLAIN.(title := Some("x"));
    assert BlockersOf(db, 1) == {};
    var (after, job) := UserUpdate(db, 1, u, now).value;
    assert after.tasks == map[1 := BareTask(Done).(title := "x", updatedAt := now), 2 := BareTask(InProgress)];
  }

  lemma FinishedTaskReopened(first: Task, now: int)
    requires first.status.Done?
    ensures var db, u := HeldBoard(first, {(2, 1)}), PLAIN.(status := Some(Inbox));
            && UserUpdate(db, 1, u, now).Ok?
            && var (after, job) := UserUpdate(db, 1, u, now).value;
               && job == Job(1, Done, Inbox, None, None) && 1 in after.tasks && after.tasks[1].status.Inbox?
               && 2 in after.tasks && after.tasks[2].status.InProgress? && after.edges == {(2, 1)}
               && Consistent(after) && Held(after, 2)
  {
    var db, u := HeldBoard(first, {(2, 1)}), PLAIN.(status := Some(Inbox));
    HeldBoardIsConsistent(first, {(2, 1)});
    assert BlockersOf(db, 1) == {};
    assert UserUpdate(db, 1, u, now).Ok?;
    UserUpdateEffect(db, 1, u, now);
    var after := UserUpdate(db, 1, u, now).value.0;
    SameApprovalsStayConsistent(db, after);
    assert HasLinks(after, 5) && Concerns(after, 5, 2);
  }

  /** A user gives the finished task 1 another title, and before this request reads the task again
      another one reopens it. The last commit of the edit, which has kept task 1 done, then sends the
      held task 2 to the inbox, before the reopening has come that far. */
  lemma EditMovesHeldTask(now: int)
    ensures var s := System(HeldBoard(BareTask(Done), {(2, 1)}), [], []);
            var edit, reopening := PLAIN.(title := Some("x")), PLAIN.(status := Some(Inbox));
            var before := Run(s, [Update(User, 1, edit, now), Update(User, 1, reopening, now), Refresh(0)]);
            var after := Next(before, Finish(0, now));
            && Consistent(s.db) && Consistent(before.db) && Held(before.db, 2)
            && |before.pending| == 2 && before.pending[0].job.after.Done? && after.pending == [before.pending[1]]
            && 2 in before.db.tasks && 2 in after.db.tasks
            && after.db.tasks[2].status != before.db.tasks[2].status
  {
    var edit, reopening := Update(User, 1, PLAIN.(title := Some("x")), now),
                           Update(User, 1, PLAIN.(status := Some(Inbox)), now);
    var s0 := System(HeldBoard(BareTask(Done), {(2, 1)}), [], []);
    HeldBoardIsConsistent(BareTask(Done), {(2, 1)});
    var s2 := EditedAndReopened(s0, edit, reopening, now);
    RunOfThree(s0, edit, reopening, Refresh(0));
    StaleEditParks(s2, Next(s2, Refresh(0)), now);
  }

  lemma RunOfThree(s: System, a: Action, b: Action, c: Action)
    ensures Run(s, [a, b, c]) == Next(Next(Next(s, a), b), c)
  {
    RunLast(s, [], a);
    RunLast(s, [a], b);
    RunLast(s, [a, b], c);
    assert [] + [a] == [a] && [a] + [b] == [a, b] && [a, b] + [c] == [a, b, c];
  }

  /** Task 1 was done and is not, and the held task 2 depends on it. */
  ghost predicate ReopenedBoard(db: Db) {
    && Consistent(db) && Held(db, 2) && 1 in db.tasks && db.tasks[1].status.Inbox?
    && 2 in db.tasks && db.tasks[2].status.InProgress? && db.edges == {(2, 1)}
  }

  lemma EditedAndReopened(s: System, edit: Action, reopening: Action, now: int) returns (s2: System)
    requires s == System(HeldBoard(BareTask(Done), {(2, 1)}), [], [])
    requires edit == Update(User, 1, PLAIN.(title := Some("x")), now)
    requires reopening == Update(User, 1, PLAIN.(status := Some(Inbox)), now)
    ensures s2 == Next(Next(s, edit), reopening) && ReopenedBoard(s2.db)
    ensures s2.pending == [Started(Job(1, Done, Done, None, None)), Started(Job(1, Done, Inbox, None, None))]
  {
    FinishedTaskEdited(now);
    var renamed := BareTask(Done).(title := "x", updatedAt := now);
    var s1 := System(HeldBoard(renamed, {(2, 1)}), [Started(Job(1, Done, Done, None, None))], []);
    assert Next(s, edit) == s1;
    FinishedTaskReopened(renamed, now);
    s2 := Next(s1, reopening);
  }

  lemma StaleEditParks(s: System, before: System, now: int)
    requires ReopenedBoard(s.db) && |s.pending| == 2 && before == Next(s, Refresh(0))
    requires s.pending[0] == Started(Job(1, Done, Done, None, None))
    ensures var after := Next(before, Finish(0, now));
            && before.db == s.db && |before.pending| == 2 && before.pending[0].job == s.pending[0].job
            && after.pending == [before.pending[1]]
            && 2 in after.db.tasks && after.db.tasks[2].status != before.db.tasks[2].status
  {
    assert Ready(before.pending[0]) && SentBack(before.db, 1, 2);
    FinishKeepsTasks(before, 0, now);
    CommitMovesHeldIff(before, Finish(0, now), 2);
  }

  lemma NewDependencyIsAdmitted(db: Db, u: TaskUpdate)
    requires db == HeldBoard(BareTask(Inbox), {}) && u.dependsOn == Some([1])
    ensures ApplyDependencies(db, 2, u).Ok?
  {
    assert WithDependencies(db.edges, 2, {1}) == {(2, 1)};
    OneEdgeIsAcyclic({(2, 1)});
    assert ToSet([1]) == {1};
  }

  // ----- Blocked tasks are parked -------------------------------------------------------------------

  /** A lead makes task 2, which is in progress, wait for the unfinished task 1, and names nothing
      else: the update is accepted and task 2 stays in progress though it is blocked. */
  lemma LeadLeavesBlockedTaskAtWork(now: int)
    ensures var db, u := HeldBoard(BareTask(Inbox), {}), PLAIN.(dependsOn := Some([1]));
            && Consistent(db) && BlockedParked(db) && LeadUpdate(db, 9, 2, u, now).Ok?
            && !BlockedParked(LeadUpdate(db, 9, 2, u, now).value)
  {
    var db, u := HeldBoard(BareTask(Inbox), {}), PLAIN.(dependsOn := Some([1]));
    HeldBoardIsConsistent(BareTask(Inbox), {});
    NewDependencyIsAdmitted(db, u);
    assert LeadStore(db, 9, 2, u, now).Ok?;
    assert 1 in u.dependsOn.value && !IsDone(db, 1);
    LeadUpdateKeepsBlockedParkedIff(db, 9, 2, u, now);
  }
}
