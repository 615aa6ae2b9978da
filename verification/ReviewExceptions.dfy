/** Runs in which another request comes between an agent's first commit and the moment when it reads
    its task again: a move into review that the log never names, and one that it gives to the wrong
    agent. */
module ReviewExceptions {
  import opened Wrappers
  import opened DependencyGraph
  import opened BoardModel
  import opened TaskRules
  import opened TaskFacts
  import opened BoardRuns
  import opened ReviewHistory
  import CustomFields

  const PATCH := TaskUpdate(None, None, None, None, None, None, None, None)

  const TO_INBOX := PATCH.(status := Some(Inbox))
  const TO_REVIEW := PATCH.(status := Some(Review))

  /** Worker 7 and lead 9. */
  const STAFF: map<Id, Agent> := map[7 := Agent(Some(0), false), 9 := Agent(Some(0), true)]

  const EMPTY := Db(0, Flags(false, false, false, false, false), STAFF, {}, map[], map[], {}, map[], map[], {},
                    map[], [], [])

  /** One free-standing task, number 1, on a board without rules and approvals. */
  ghost predicate OneTask(db: Db, status: Status) {
    && db.boardId == 0 && db.flags == EMPTY.flags && db.agents == STAFF && db.fields == map[] && db.edges == {}
    && db.approvals == map[] && db.links == [] && db.tasks.Keys == {1} && db.tasks[1].status == status
  }

  lemma OneTaskIsConsistent(db: Db, status: Status)
    requires OneTask(db, status)
    ensures Consistent(db) && BlockersOf(db, 1) == {}
  {
    forall p ensures !IsCycle(db.edges, p) {
      assert |p| >= 2 ==> (p[0], p[1]) !in db.edges;
    }
  }

  lemma CreatedBoard(c: TaskCreate, now: int)
    requires c == TaskCreate("x", "", InProgress, None, [], [], map[])
    ensures var s := Next(System(EMPTY, [], []), Create(1, c, None, now));
            && OneTask(s.db, InProgress) && s.pending == [] && s.db.events == [] && s.db.tasks[1].assignee.None?
  {
    CreatedRows(c, now);
  }

  lemma CreatedRows(c: TaskCreate, now: int)
    requires c == TaskCreate("x", "", InProgress, None, [], [], map[])
    ensures StoreTask(EMPTY, 1, c, None, now).Ok?
    ensures var db := StoreTask(EMPTY, 1, c, None, now).value;
            OneTask(db, InProgress) && db.events == [] && db.tasks[1].assignee.None?
  {
    CreationAdmitted(c);
    NoFieldsStored();
  }

  lemma NoFieldsStored()
    ensures CustomFields.ForCreate(map[], map[]).Ok?
  {
  }

  lemma CreationAdmitted(c: TaskCreate)
    requires c == TaskCreate("x", "", InProgress, None, [], [], map[])
    ensures AdmitTask(EMPTY, 1, c, None) == Ok(({}, []))
  {
    assert ToSet([]) == {};
  }

  /** A user sets the status. */
  lemma UserSets(db: Db, before: Status, target: Status, now: int)
    requires OneTask(db, before) && (target.Inbox? || target.Review?)
    ensures var u := PATCH.(status := Some(target));
            && FirstCommit(db, User, 1, u, now).Ok?
            && var (mid, job) := FirstCommit(db, User, 1, u, now).value;
               OneTask(mid, target) && job == Some(Job(1, before, target, None, None)) && mid.events == db.events
  {
    OneTaskIsConsistent(db, before);
    var u := PATCH.(status := Some(target));
    assert UserUpdate(db, 1, u, now).Ok?;
    UserUpdateEffect(db, 1, u, now);
  }

  /** Worker 7 moves its task into review, or changes no status. */
  lemma WorkerPatches(db: Db, u: TaskUpdate, now: int)
    requires OneTask(db, InProgress) && db.tasks[1].assignee.None?
    requires u == PATCH.(status := Some(Review)) || u == PATCH.(fields := Some(map[]))
    ensures FirstCommit(db, AgentActor(7), 1, u, now).Ok?
    ensures var (mid, job) := FirstCommit(db, AgentActor(7), 1, u, now).value;
            var after := if u.status.Some? then Review else InProgress;
            OneTask(mid, after) && job == Some(Job(1, InProgress, after, Some(7), None)) && mid.events == db.events
  {
    OneTaskIsConsistent(db, InProgress);
    WorkerAccepted(db, u, now);
    WorkerUpdateEffect(db, 7, 1, u, now);
  }

  lemma WorkerAccepted(db: Db, u: TaskUpdate, now: int)
    requires OneTask(db, InProgress) && db.tasks[1].assignee.None? && BlockersOf(db, 1) == {}
    requires u == PATCH.(status := Some(Review)) || u == PATCH.(fields := Some(map[]))
    ensures WorkerUpdate(db, 7, 1, u, now).Ok?
  {
  }

  const START := System(EMPTY, [], [])

  /** Where a run from the empty board leads, and the moves of task 1 made and logged on the way. */
  ghost predicate LeadsTo(acts: seq<Action>, s: System, moves: seq<Id>, logged: seq<Id>) {
    && s == Run(START, acts) && Orderly(START, acts, 1)
    && ReviewMoves(START, acts, 1) == moves && LoggedMoves(START, acts, 1) == logged
  }

  lemma OneMoreStep(acts: seq<Action>, s: System, act: Action, after: System, moves: seq<Id>, logged: seq<Id>)
    requires LeadsTo(acts, s, moves, logged) && after == Next(s, act) && 1 in after.db.tasks
    requires s.pending == [] || !(MovesToReview(s, act, 1) || act.Create?)
    ensures LeadsTo(acts + [act], after, moves + (if MovesToReview(s, act, 1) then [act.actor.id] else []),
                    logged + (if LogsMove(s, act, 1) then [s.pending[act.i].job.actor.value] else []))
  {
    RunLast(START, acts, act);
    var longer := acts + [act];
    assert longer[..|longer| - 1] == acts && longer[|longer| - 1] == act;
    forall k | 0 <= k < |longer| && (MovesToReview(Run(START, longer[..k]), longer[k], 1)
                                     || (longer[k].Create? && longer[k].t == 1))
      ensures Unlogged(Run(START, longer[..k]).pending, 1) == []
    {
      if k < |acts| {
        assert longer[..k] == acts[..k] && longer[k] == acts[k];
      }
    }
  }

  const TASK := TaskCreate("x", "", InProgress, None, [], [], map[])

  lemma CreationLeadsTo(create: Action) returns (acts: seq<Action>, s: System)
    requires create == Create(1, TASK, None, 0)
    ensures acts == [create]
    ensures LeadsTo(acts, s, [], []) && OneTask(s.db, InProgress) && s.pending == []
    ensures s.db.tasks[1].assignee.None?
  {
    s := Next(START, create);
    CreatedBoard(TASK, 0);
    OneMoreStep([], START, create, s, [], []);
    acts := [create];
    assert [] + [create] == acts;
  }

  /** The two updates of worker 7 that are looked at: what they store and whether they are moves. */
  ghost predicate AgentPatch(u: TaskUpdate, stored: Status, moves: seq<Id>) {
    || (u == TO_REVIEW && stored.Review? && moves == [7])
    || (u == PATCH.(fields := Some(map[])) && stored.InProgress? && moves == [])
  }

  /** The first commit of the agent's update. */
  lemma AgentStarts(acts: seq<Action>, s: System, u: TaskUpdate, stored: Status, moves: seq<Id>)
    returns (longer: seq<Action>, after: System)
    requires LeadsTo(acts, s, [], []) && OneTask(s.db, InProgress) && s.pending == [] && s.db.tasks[1].assignee.None?
    requires AgentPatch(u, stored, moves)
    ensures longer == acts + [Update(AgentActor(7), 1, u, 0)] && LeadsTo(longer, after, moves, [])
    ensures OneTask(after.db, stored) && after.pending == [Started(Job(1, InProgress, stored, Some(7), None))]
  {
    var act := Update(AgentActor(7), 1, u, 0);
    after := Next(s, act);
    WorkerPatches(s.db, u, 0);
    OneMoreStep(acts, s, act, after, [], []);
    longer := acts + [act];
  }

  lemma UserComesBetween(acts: seq<Action>, s: System, before: Status, target: Status, moves: seq<Id>, logged: seq<Id>)
    returns (longer: seq<Action>, after: System)
    requires LeadsTo(acts, s, moves, logged) && OneTask(s.db, before) && (target.Inbox? || target.Review?)
    ensures longer == acts + [Update(User, 1, PATCH.(status := Some(target)), 0)]
    ensures LeadsTo(longer, after, moves, logged)
    ensures OneTask(after.db, target) && after.pending == s.pending + [Started(Job(1, before, target, None, None))]
  {
    var act := Update(User, 1, PATCH.(status := Some(target)), 0);
    after := Next(s, act);
    UserSets(s.db, before, target, 0);
    OneMoreStep(acts, s, act, after, moves, logged);
    longer := acts + [act];
    assert moves + [] == moves && logged + [] == logged;
  }

  lemma AgentRereads(acts: seq<Action>, s: System, status: Status, moves: seq<Id>)
    returns (longer: seq<Action>, after: System)
    requires LeadsTo(acts, s, moves, []) && OneTask(s.db, status) && |s.pending| == 2
    requires s.pending[0].seen.None? && s.pending[0].job.task == 1
    ensures longer == acts + [Refresh(0)] && LeadsTo(longer, after, moves, [])
    ensures after == System(s.db, [s.pending[0].(seen := Reread(s.db, 1)), s.pending[1]], s.created)
  {
    after := Next(s, Refresh(0));
    OneMoreStep(acts, s, Refresh(0), after, moves, []);
    longer := acts + [Refresh(0)];
    assert moves + [] == moves;
  }

  lemma AgentLogs(acts: seq<Action>, s: System, status: Status, moves: seq<Id>)
    returns (longer: seq<Action>, after: System)
    requires LeadsTo(acts, s, moves, []) && OneTask(s.db, status) && |s.pending| == 2
    requires Ready(s.pending[0]) && s.pending[0].seen.value.status == status
    requires var job := s.pending[0].job; job.task == 1 && job.before.InProgress? && job.actor == Some(7)
    ensures longer == acts + [Finish(0, 0)] && LeadsTo(longer, after, moves, if status.Review? then [7] else [])
    ensures OneTask(after.db, status) && after.pending == [s.pending[1]]
  {
    after := Next(s, Finish(0, 0));
    OneTaskIsConsistent(s.db, status);
    LastCommitHere(s, after, status);
    OneMoreStep(acts, s, Finish(0, 0), after, moves, []);
    longer := acts + [Finish(0, 0)];
    assert moves + [] == moves;
  }

  /** The agent's request reads the task again and makes its last commit. */
  lemma AgentEnds(acts: seq<Action>, s: System, status: Status, stored: Status, moves: seq<Id>)
    returns (longer: seq<Action>, after: System)
    requires LeadsTo(acts, s, moves, []) && OneTask(s.db, status) && |s.pending| == 2
    requires s.pending[0] == Started(Job(1, InProgress, stored, Some(7), None))
    ensures longer == acts + [Refresh(0), Finish(0, 0)]
    ensures LeadsTo(longer, after, moves, if status.Review? then [7] else [])
    ensures OneTask(after.db, status) && after.pending == [s.pending[1]]
  {
    var mid, between := AgentRereads(acts, s, status, moves);
    longer, after := AgentLogs(mid, between, status, moves);
  }

  lemma LastCommitHere(s: System, after: System, status: Status)
    requires OneTask(s.db, status) && Consistent(s.db) && |s.pending| == 2 && Ready(s.pending[0])
    requires s.pending[0].job.task == 1 && after == Next(s, Finish(0, 0))
    ensures OneTask(after.db, status) && after.pending == [s.pending[1]]
  {
    var job, seen := s.pending[0].job, s.pending[0].seen.value;
    ReconcileEffect(s.db, 1, job.before, seen.status, seen.title, job.actor, 0);
  }

  lemma LeadReturns(db: Db)
    requires OneTask(db, Review)
    ensures LeadUpdate(db, 9, 1, TO_INBOX, 0).Ok?
    ensures CanTakeBack(db, 9, 7)
  {
    OneTaskIsConsistent(db, Review);
    assert LeadStore(db, 9, 1, TO_INBOX, 0).Ok?;
  }

  /** After this run the lead may return the task, which goes to the agent that the log names and
      not to the one that moved it. */
  ghost predicate ReturnGoesWrong(acts: seq<Action>, moves: seq<Id>, logged: seq<Id>, to: Option<Id>) {
    var db := Run(START, acts).db;
    && Fresh(START) && Ticking(acts) && Orderly(START, acts, 1) && Unlogged(Run(START, acts).pending, 1) == []
    && ReviewMoves(START, acts, 1) == moves && LoggedMoves(START, acts, 1) == logged
    && OneTask(db, Review) && LeadUpdate(db, 9, 1, TO_INBOX, 0).Ok?
    && var after := LeadUpdate(db, 9, 1, TO_INBOX, 0).value;
       1 in after.tasks && after.tasks[1].assignee == to && to != LastTaker(db, 9, moves)
  }

  lemma UsersAreNotLogged(pending: seq<UnderWay>)
    requires |pending| <= 2 && forall u :: u in pending ==> u.job.actor.None?
    ensures Unlogged(pending, 1) == []
  {
    assert forall k: nat | k < |pending| :: pending[k] in pending;
  }

  lemma LastTakerOfOne(db: Db, moves: seq<Id>)
    requires |moves| <= 1 && (moves == [] || moves == [7]) && CanTakeBack(db, 9, 7)
    ensures LastTaker(db, 9, moves) == if moves == [] then None else Some(7)
  {
  }

  lemma LeadReturnsWrong(acts: seq<Action>, s: System, moves: seq<Id>, logged: seq<Id>)
    requires LeadsTo(acts, s, moves, logged) && OneTask(s.db, Review) && Ticking(acts)
    requires (moves == [7] && logged == []) || (moves == [] && logged == [7])
    requires |s.pending| <= 2 && forall u :: u in s.pending ==> u.job.actor.None?
    ensures ReturnGoesWrong(acts, moves, logged, if logged == [] then None else Some(7))
  {
    UsersAreNotLogged(s.pending);
    LeadReturns(s.db);
    LastTakerOfOne(s.db, moves);
    LastTakerOfOne(s.db, logged);
    ReturnGoesToLastLogged(START, acts, 9, 1, TO_INBOX, 0);
  }

  lemma OneLastCommit(front: seq<Action>, rest: seq<Action>, acts: seq<Action>)
    requires |front| == 3 && front[0].Create? && front[1].Update? && front[2].Update? && acts == front + rest
    requires forall k :: 0 <= k < |rest| && rest[k].Finish? ==> k == 1
    ensures Ticking(acts)
  {
    forall k | 0 <= k < |acts| && acts[k].Finish? ensures k == 4 {
      assert k >= 3 ==> acts[k] == rest[k - 3];
    }
  }

  lemma WorkerStarts(u: TaskUpdate, stored: Status, moves: seq<Id>) returns (acts: seq<Action>, s: System)
    requires AgentPatch(u, stored, moves)
    ensures acts == [Create(1, TASK, None, 0), Update(AgentActor(7), 1, u, 0)]
    ensures LeadsTo(acts, s, moves, []) && OneTask(s.db, stored)
    ensures s.pending == [Started(Job(1, InProgress, stored, Some(7), None))]
  {
    var one, created := CreationLeadsTo(Create(1, TASK, None, 0));
    acts, s := AgentStarts(one, created, u, stored, moves);
  }

  /** Worker 7's update and a user's, in between its first commit and its refresh. */
  lemma WorkerThenUser(u: TaskUpdate, stored: Status, moves: seq<Id>, target: Status)
    returns (acts: seq<Action>, s: System)
    requires AgentPatch(u, stored, moves) && (target.Inbox? || target.Review?)
    ensures acts == [Create(1, TASK, None, 0), Update(AgentActor(7), 1, u, 0),
                     Update(User, 1, PATCH.(status := Some(target)), 0)]
    ensures LeadsTo(acts, s, moves, []) && OneTask(s.db, target)
    ensures s.pending == [Started(Job(1, InProgress, stored, Some(7), None)),
                          Started(Job(1, stored, target, None, None))]
  {
    var two, started := WorkerStarts(u, stored, moves);
    acts, s := UserComesBetween(two, started, stored, target, moves, []);
  }

  /** Worker 7 moves the task into review, and a user takes it back to the inbox before that request
      reads the task again: the log never names worker 7. When the task, in review once more, is
      returned by the lead, it goes to nobody. */
  lemma MoveIsLost() returns (acts: seq<Action>)
    ensures acts == [Create(1, TASK, None, 0), Update(AgentActor(7), 1, TO_REVIEW, 0), Update(User, 1, TO_INBOX, 0)]
                    + [Refresh(0), Finish(0, 0), Update(User, 1, TO_REVIEW, 0)]
    ensures ReturnGoesWrong(acts, [7], [], None)
  {
    var taken, s := WorkerThenUser(TO_REVIEW, Review, [7], Inbox);
    acts := LostAfter(taken, s);
  }

  lemma LostAfter(taken: seq<Action>, s: System) returns (acts: seq<Action>)
    requires LeadsTo(taken, s, [7], []) && OneTask(s.db, Inbox)
    requires |taken| == 3 && taken[0].Create? && taken[1].Update? && taken[2].Update?
    requires s.pending == [Started(Job(1, InProgress, Review, Some(7), None)),
                           Started(Job(1, Review, Inbox, None, None))]
    ensures acts == taken + [Refresh(0), Finish(0, 0), Update(User, 1, TO_REVIEW, 0)]
    ensures ReturnGoesWrong(acts, [7], [], None)
  {
    var after;
    acts, after := UserTakesOver(taken, s, [7]);
    assert [Refresh(0), Finish(0, 0)] + [Update(User, 1, TO_REVIEW, 0)]
        == [Refresh(0), Finish(0, 0), Update(User, 1, TO_REVIEW, 0)];
    OneLastCommit(taken, [Refresh(0), Finish(0, 0), Update(User, 1, TO_REVIEW, 0)], acts);
    LeadReturnsWrong(acts, after, [7], []);
  }

  lemma UserTakesOver(taken: seq<Action>, s: System, moves: seq<Id>) returns (acts: seq<Action>, after: System)
    requires LeadsTo(taken, s, moves, []) && OneTask(s.db, Inbox)
    requires s.pending == [Started(Job(1, InProgress, Review, Some(7), None)),
                           Started(Job(1, Review, Inbox, None, None))]
    ensures acts == taken + [Refresh(0), Finish(0, 0)] + [Update(User, 1, TO_REVIEW, 0)]
    ensures LeadsTo(acts, after, moves, []) && OneTask(after.db, Review)
    ensures after.pending == [Started(Job(1, Review, Inbox, None, None)), Started(Job(1, Inbox, Review, None, None))]
  {
    var ended, mid := AgentEnds(taken, s, Inbox, Review, moves);
    acts, after := UserComesBetween(ended, mid, Inbox, Review, moves, []);
  }

  /** Worker 7 stores a custom field of its task, and a user moves the task into review before that
      request reads the task again: the log says that worker 7 moved it, and so it goes back to worker
      7 although no agent has moved it. */
  lemma MoveIsAscribed() returns (acts: seq<Action>)
    ensures acts == [Create(1, TASK, None, 0), Update(AgentActor(7), 1, PATCH.(fields := Some(map[])), 0),
                     Update(User, 1, TO_REVIEW, 0)] + [Refresh(0), Finish(0, 0)]
    ensures ReturnGoesWrong(acts, [], [7], Some(7))
  {
    var moved, s := WorkerThenUser(PATCH.(fields := Some(map[])), InProgress, [], Review);
    acts := AscribedAfter(moved, s);
  }

  lemma AscribedAfter(moved: seq<Action>, s: System) returns (acts: seq<Action>)
    requires LeadsTo(moved, s, [], []) && OneTask(s.db, Review)
    requires |moved| == 3 && moved[0].Create? && moved[1].Update? && moved[2].Update?
    requires s.pending == [Started(Job(1, InProgress, InProgress, Some(7), None)),
                           Started(Job(1, InProgress, Review, None, None))]
    ensures acts == moved + [Refresh(0), Finish(0, 0)]
    ensures ReturnGoesWrong(acts, [], [7], Some(7))
  {
    var after;
    acts, after := AgentEndsOnce(moved, s);
    LeadReturnsWrong(acts, after, [], [7]);
  }

  lemma AgentEndsOnce(moved: seq<Action>, s: System) returns (acts: seq<Action>, after: System)
    requires LeadsTo(moved, s, [], []) && OneTask(s.db, Review)
    requires |moved| == 3 && moved[0].Create? && moved[1].Update? && moved[2].Update?
    requires s.pending == [Started(Job(1, InProgress, InProgress, Some(7), None)),
                           Started(Job(1, InProgress, Review, None, None))]
    ensures acts == moved + [Refresh(0), Finish(0, 0)] && Ticking(acts)
    ensures LeadsTo(acts, after, [], [7]) && OneTask(after.db, Review)
    ensures after.pending == [Started(Job(1, InProgress, Review, None, None))]
  {
    acts, after := AgentEnds(moved, s, Review, InProgress, []);
    OneLastCommit(moved, [Refresh(0), Finish(0, 0)], acts);
  }
}
