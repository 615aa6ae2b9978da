/** Moves into review, in any interleaving of commits: the event log agrees with the history, so a
    task that the lead returns goes back to the right worker. */
module ReviewHistory {
  import opened Wrappers
  import opened DependencyGraph
  import opened BoardModel
  import opened TaskRules
  import opened TaskFacts
  import opened BoardRuns
  import CustomFields

  /** One update or creation from its first commit to its last with nothing in between. */
  ghost function Serve(db: Db, act: Action): Db
    requires (act.Update? || act.Create?) && CustomFields.DistinctIds(db.fields)
  {
    var r := if act.Update? then UpdateTask(db, act.actor, act.t, act.patch, act.now)
             else CreateTask(db, act.t, act.payload, act.lead, act.now);
    if r.Ok? then r.value else db
  }

  /** The commits, and the refresh, of such a request. */
  ghost function Commits(db: Db, act: Action): seq<Action>
    requires (act.Update? || act.Create?) && CustomFields.DistinctIds(db.fields)
  {
    if act.Create? then [act, Announce(0, act.now)]
    else
      match FirstCommit(db, act.actor, act.t, act.patch, act.now)
      case Err(_) => [act]
      case Ok((_, job)) => if job.None? then [act] else [act] + RestOfCommits(job.value, act.now)
  }

  ghost function RestOfCommits(job: Job, now: int): seq<Action> {
    [Refresh(0)] + (if job.comment.Some? then [Comment(0, now)] else []) + [Finish(0, now)]
  }

  /** Serving a request is one particular run, which leaves nothing under way. */
  lemma ServeIsARun(db: Db, act: Action)
    requires (act.Update? || act.Create?) && Consistent(db)
    ensures Run(System(db, [], []), Commits(db, act)) == System(Serve(db, act), [], [])
  {
    var s := System(db, [], []);
    RunOne(s, act);
    if act.Create? {
      RunSplit(s, act, [Announce(0, act.now)]);
      RunOne(Next(s, act), Announce(0, act.now));
      assert [act] + [Announce(0, act.now)] == [act, Announce(0, act.now)];
      CreationRuns(s, act);
    } else {
      var first := FirstCommit(db, act.actor, act.t, act.patch, act.now);
      if first.Ok? && first.value.1.Some? {
        UpdateStarts(db, act, first.value.0, first.value.1.value);
        RunSplit(s, act, RestOfCommits(first.value.1.value, act.now));
        RunRest(Next(s, act), first.value.1.value, act.now);
      }
    }
  }

  lemma CreationRuns(s: System, act: Action)
    requires act.Create? && Consistent(s.db) && s.pending == [] && s.created == []
    ensures Next(Next(s, act), Announce(0, act.now)) == System(Serve(s.db, act), [], [])
  {
  }

  lemma UpdateStarts(db: Db, act: Action, first: Db, job: Job)
    requires act.Update? && Consistent(db)
    requires FirstCommit(db, act.actor, act.t, act.patch, act.now) == Ok((first, Some(job)))
    ensures Next(System(db, [], []), act) == System(first, [Started(job)], [])
    ensures Consistent(first) && job.task in first.tasks
    ensures Serve(db, act) == RestOfUpdate(first, job, act.now)
  {
    UpdateKeepsConsistent(System(db, [], []), act.actor, act.t, act.patch, act.now);
    FirstCommitEffect(db, act.actor, act.t, act.patch, act.now);
    JobNames(db, act.actor, act.t, act.patch, act.now);
  }

  lemma JobNames(db: Db, actor: Actor, t: Id, u: TaskUpdate, now: int)
    requires WellFormed(db) && Acyclic(db.edges) && FirstCommit(db, actor, t, u, now).Ok?
    ensures var (mid, job) := FirstCommit(db, actor, t, u, now).value;
            job.Some? ==>
              && job.value.task == t && t in mid.tasks && job.value.before == db.tasks[t].status
              && job.value.after == mid.tasks[t].status
              && job.value.actor == (if actor.AgentActor? then Some(actor.id) else None)
  {
    match actor
    case User => UserUpdateEffect(db, t, u, now);
    case AgentActor(a) =>
      if !db.agents[a].isLead {
        WorkerUpdateEffect(db, a, t, u, now);
      }
  }

  /** From the point where just this update is under way. */
  lemma RunRest(s: System, job: Job, now: int)
    requires Consistent(s.db) && s == System(s.db, [Started(job)], []) && job.task in s.db.tasks
    ensures Run(s, RestOfCommits(job, now)) == System(RestOfUpdate(s.db, job, now), [], [])
  {
    var seen := Reread(s.db, job.task).value;
    var s1 := System(s.db, [UnderWay(job, Some(seen), job.comment.Some?)], []);
    assert Next(s, Refresh(0)) == s1;
    var rest := (if job.comment.Some? then [Comment(0, now)] else []) + [Finish(0, now)];
    assert RestOfCommits(job, now) == [Refresh(0)] + rest;
    RunSplit(s, Refresh(0), rest);
    RunLastCommits(s1, job, seen, now);
  }

  lemma RunLastCommits(s: System, job: Job, seen: Snapshot, now: int)
    requires Consistent(s.db) && s == System(s.db, [UnderWay(job, Some(seen), job.comment.Some?)], [])
    requires job.task in s.db.tasks
    ensures Run(s, (if job.comment.Some? then [Comment(0, now)] else []) + [Finish(0, now)])
            == System(FinishUpdate(PostComment(s.db, job, now), job, seen, now), [], [])
  {
    if job.comment.Some? {
      var s2 := System(PostComment(s.db, job, now), [UnderWay(job, Some(seen), false)], []);
      CommentRuns(s, s2, job, seen, now);
      RunSplit(s, Comment(0, now), [Finish(0, now)]);
      LastCommitRuns(s2, job, seen, now);
    } else {
      LastCommitRuns(s, job, seen, now);
      assert [] + [Finish(0, now)] == [Finish(0, now)];
    }
  }

  lemma CommentRuns(s: System, s2: System, job: Job, seen: Snapshot, now: int)
    requires CustomFields.DistinctIds(s.db.fields) && job.task in s.db.tasks
    requires s == System(s.db, [UnderWay(job, Some(seen), true)], [])
    requires s2 == System(PostComment(s.db, job, now), [UnderWay(job, Some(seen), false)], [])
    ensures Next(s, Comment(0, now)) == s2 && CustomFields.DistinctIds(s2.db.fields)
  {
  }

  lemma LastCommitRuns(s: System, job: Job, seen: Snapshot, now: int)
    requires CustomFields.DistinctIds(s.db.fields) && s == System(s.db, [UnderWay(job, Some(seen), false)], [])
    ensures Run(s, [Finish(0, now)]) == System(FinishUpdate(s.db, job, seen, now), [], [])
  {
    RunOne(s, Finish(0, now));
    assert WithoutIndex(s.pending, 0) == [];
  }

  lemma RunOne(s: System, act: Action)
    ensures Run(s, [act]) == Next(s, act)
  {
    assert [act][..0] == [];
  }

  lemma {:induction false} RunSplit(s: System, act: Action, rest: seq<Action>)
    ensures Run(s, [act] + rest) == Run(Next(s, act), rest)
  {
    if rest == [] {
      RunOne(s, act);
      assert [act] + rest == [act];
    } else {
      var front, last := rest[..|rest| - 1], rest[|rest| - 1];
      RunSplit(s, act, front);
      RunLast(s, [act] + front, last);
      RunLast(Next(s, act), front, last);
      assert rest == front + [last] && [act] + rest == ([act] + front) + [last];
    }
  }

  // ----- Which events say "moved to review" -------------------------------------------------------

  /** The log's record of moves of `t` into review by agents, oldest first. */
  function Reviews(db: Db, t: Id): seq<Event> {
    Select(db.events, ReviewMove(t))
  }

  lemma {:induction false} SelectConcat(a: seq<Event>, b: seq<Event>, keep: Event -> bool)
    ensures Select(a + b, keep) == Select(a, keep) + Select(b, keep)
  {
    if b == [] {
      assert a + b == a;
    } else {
      var front := b[..|b| - 1];
      assert (a + b)[..|a + b| - 1] == a + front;
      SelectConcat(a, front, keep);
      assert (a + b)[|a + b| - 1] == b[|b| - 1];
    }
  }

  lemma {:induction false} SelectTwice(es: seq<Event>, first: Event -> bool, second: Event -> bool)
    ensures (forall e :: second(e) ==> first(e)) ==> Select(Select(es, first), second) == Select(es, second)
    ensures (forall e :: second(e) ==> !first(e)) ==> Select(Select(es, first), second) == []
  {
    if es != [] {
      SelectTwice(es[..|es| - 1], first, second);
      var last := es[|es| - 1];
      var kept := if first(last) then [last] else [];
      SelectConcat(Select(es[..|es| - 1], first), kept, second);
    }
  }

  lemma SelectNone(es: seq<Event>, keep: Event -> bool)
    requires forall e :: e in es ==> !keep(e)
    ensures Select(es, keep) == []
  {
    SelectIs(es, keep);
    SomeMember(Select(es, keep));
  }

  lemma SomeMember(es: seq<Event>)
    ensures es == [] || exists e :: e in es
  {
    if es != [] {
      assert es[0] in es;
    }
  }

  /** The text of a transition's event matches the pattern exactly for moves to review. */
  lemma TransitionText(s: Status, title: string)
    ensures MOVED_TO_REVIEW <= "Task moved to " + StatusText(s) + ": " + title + "." <==> s.Review?
  {
    var text := "Task moved to " + StatusText(s) + ": " + title + ".";
    assert |"Task moved to "| == 14;
    assert text[14] == StatusText(s)[0];
    assert MOVED_TO_REVIEW[14] == 'r';
    if s.Review? {
      assert "Task moved to " + "review" + ": " == MOVED_TO_REVIEW + " ";
      assert text == MOVED_TO_REVIEW + (" " + title + ".");
    }
  }

  lemma ReturnText(title: string)
    ensures !(MOVED_TO_REVIEW <= "Task returned to inbox: dependency reopened (" + title + ").")
  {
    var text := "Task returned to inbox: dependency reopened (" + title + ").";
    assert text[5] == 'r' && MOVED_TO_REVIEW[5] == 'm';
  }

  lemma {:induction false} DependencyEventsAreNoReviews(tasks: map<Id, Task>, ids: seq<Id>, reopened: bool,
      title: string, actor: Option<Id>, now: int, t: Id)
    requires forall x :: x in ids ==> x in tasks
    ensures Select(DependencyEvents(tasks, ids, reopened, title, actor, now), ReviewMove(t)) == []
  {
    if ids != [] {
      var x := ids[|ids| - 1];
      var front := DependencyEvents(tasks, ids[..|ids| - 1], reopened, title, actor, now);
      var e := DependencyEvent(tasks[x], x, reopened, title, actor, now);
      DependencyEventsAreNoReviews(tasks, ids[..|ids| - 1], reopened, title, actor, now, t);
      SelectConcat(front, [e], ReviewMove(t));
      ReturnText(title);
      SelectNone([e], ReviewMove(t));
    }
  }

  /** Of all that a transition logs, at most its own event is a move to review. */
  lemma TransitionReviews(db: Db, x: Id, before: Status, after: Status, title: string, actor: Option<Id>, now: int,
      t: Id)
    ensures var moved := x == t && before != after && after.Review? && actor.Some?;
            Reviews(AfterTransition(db, x, before, after, title, actor, now), t)
            == Reviews(db, t) + (if moved then [TransitionEvent(x, before, after, title, actor, now)] else [])
  {
    var e := TransitionEvent(x, before, after, title, actor, now);
    var logged := db.(events := db.events + [e]);
    TransitionText(after, title);
    SelectConcat(db.events, [e], ReviewMove(t));
    assert [e][..0] == [];
    if before.Done? != after.Done? {
      var ids := SortedIds(OpenDependents(logged, x));
      assert forall y :: y in ids ==> y in ToSet(ids);
      var rest := DependencyEvents(logged.tasks, ids, before.Done?, title, actor, now);
      DependencyEventsAreNoReviews(logged.tasks, ids, before.Done?, title, actor, now, t);
      SelectConcat(logged.events, rest, ReviewMove(t));
    }
  }

  // ----- What one commit logs -----------------------------------------------------------------------

  /** The update moved `t` into review, and an agent made it. */
  predicate EnteringJob(job: Job, t: Id) {
    job.task == t && job.before != job.after && job.after.Review? && job.actor.Some?
  }

  /** An agent's update found `t` out of review and, reading it again, in review. */
  predicate SeenEntering(job: Job, seen: Snapshot, t: Id) {
    job.task == t && job.before != seen.status && seen.status.Review? && job.actor.Some?
  }

  /** The last commit of an update of `t` that is still there. */
  ghost predicate Finishes(s: System, act: Action, t: Id) {
    && act.Finish? && act.i < |s.pending| && Ready(s.pending[act.i]) && t in s.db.tasks
    && s.pending[act.i].job.task == t
  }

  /** The commit logs that `t` was moved into review. */
  ghost predicate LogsMove(s: System, act: Action, t: Id) {
    Finishes(s, act, t) && SeenEntering(s.pending[act.i].job, s.pending[act.i].seen.value, t)
  }

  function Authors(es: seq<Event>): seq<Id> {
    if es == [] then []
    else
      var last := es[|es| - 1];
      Authors(es[..|es| - 1]) + (if last.agent.Some? then [last.agent.value] else [])
  }

  /** What a commit adds to the record of moves of `t` into review. */
  ghost predicate Recorded(db: Db, after: Db, t: Id, logged: bool, e: Event) {
    && (t in after.tasks ==> Reviews(after, t) == Reviews(db, t) + (if logged then [e] else []))
    && (t !in after.tasks ==>
        !logged && (Reviews(after, t) == [] || (t !in db.tasks && Reviews(after, t) == Reviews(db, t))))
  }

  lemma SameEventsRecorded(db: Db, after: Db, t: Id, e: Event)
    requires after.events == db.events && after.tasks.Keys == db.tasks.Keys
    ensures Recorded(db, after, t, false, e)
  {
    assert t in after.tasks <==> t in after.tasks.Keys;
    assert Reviews(db, t) + [] == Reviews(db, t);
  }

  lemma LeadReviews(db: Db, lead: Id, t: Id, u: TaskUpdate, now: int, x: Id)
    requires Consistent(db) && t in db.tasks && LeadUpdate(db, lead, t, u, now).Ok?
    ensures var after := LeadUpdate(db, lead, t, u, now).value;
            Reviews(after, x) == Reviews(db, x) && after.tasks.Keys == db.tasks.Keys
            && (x in db.tasks && after.tasks[x].status.Review? ==> db.tasks[x].status.Review?)
  {
    LeadStoreFrame(db, lead, t, u, now);
    LeadStoreTask(db, lead, t, u, now);
    LeadUpdateLogs(db, lead, t, u, now);
    var stored := LeadStore(db, lead, t, u, now).value;
    TransitionReviews(stored, t, db.tasks[t].status, stored.tasks[t].status, stored.tasks[t].title, Some(lead), now, x);
  }

  lemma UpdateRecorded(s: System, actor: Actor, t: Id, u: TaskUpdate, now: int, x: Id, e: Event)
    requires Consistent(s.db)
    ensures Recorded(s.db, Next(s, Update(actor, t, u, now)).db, x, false, e)
  {
    var after := Next(s, Update(actor, t, u, now)).db;
    if FirstCommit(s.db, actor, t, u, now).Ok? {
      FirstCommitEffect(s.db, actor, t, u, now);
      if actor.AgentActor? && s.db.agents[actor.id].isLead {
        LeadReviews(s.db, actor.id, t, u, now, x);
        assert Reviews(s.db, x) + [] == Reviews(s.db, x);
        assert x in after.tasks <==> x in after.tasks.Keys;
      } else {
        FirstCommitLogsNothing(s.db, actor, t, u, now);
        SameEventsRecorded(s.db, after, x, e);
      }
    } else {
      SameEventsRecorded(s.db, after, x, e);
    }
  }

  lemma FirstCommitLogsNothing(db: Db, actor: Actor, t: Id, u: TaskUpdate, now: int)
    requires CustomFields.DistinctIds(db.fields) && FirstCommit(db, actor, t, u, now).Ok?
    requires actor.AgentActor? ==> !db.agents[actor.id].isLead
    ensures var mid := FirstCommit(db, actor, t, u, now).value.0;
            mid.events == db.events && mid.tasks.Keys == db.tasks.Keys
  {
  }

  lemma CommentRecorded(db: Db, job: Job, now: int, x: Id, e: Event)
    ensures Recorded(db, PostComment(db, job, now), x, false, e)
  {
    assert Reviews(db, x) + [] == Reviews(db, x);
    if job.comment.Some? {
      var said := Event(TaskComment, job.comment.value, job.actor, job.task, now);
      SelectConcat(db.events, [said], ReviewMove(x));
      SelectNone([said], ReviewMove(x));
    }
  }

  lemma FinishRecorded(db: Db, job: Job, seen: Snapshot, now: int, x: Id)
    ensures Recorded(db, FinishUpdate(db, job, seen, now), x, SeenEntering(job, seen, x) && x in db.tasks,
                     TransitionEvent(x, job.before, seen.status, seen.title, job.actor, now))
  {
    assert Reviews(db, x) + [] == Reviews(db, x);
    if job.task in db.tasks {
      TransitionReviews(db, job.task, job.before, seen.status, seen.title, job.actor, now, x);
      ReconcileEffect(db, job.task, job.before, seen.status, seen.title, job.actor, now);
      assert x in FinishUpdate(db, job, seen, now).tasks <==> x in FinishUpdate(db, job, seen, now).tasks.Keys;
    }
  }

  lemma CreateRecorded(db: Db, t: Id, c: TaskCreate, lead: Option<Id>, now: int, x: Id)
    requires CustomFields.DistinctIds(db.fields) && StoreTask(db, t, c, lead, now).Ok?
    ensures var after := StoreTask(db, t, c, lead, now).value;
            after.events == db.events && (x in db.tasks ==> x in after.tasks)
  {
  }

  lemma AnnounceRecorded(db: Db, t: Id, lead: Option<Id>, now: int, x: Id, e: Event)
    ensures Recorded(db, AnnounceTask(db, t, lead, now), x, false, e)
  {
    assert Reviews(db, x) + [] == Reviews(db, x);
    if t in db.tasks {
      var created := CreatedEvent(t, db.tasks[t].title, lead, now);
      SelectConcat(db.events, [created], ReviewMove(x));
      SelectNone([created], ReviewMove(x));
    }
  }

  lemma DeleteRecorded(db: Db, t: Id, x: Id)
    ensures Reviews(DeleteTask(db, t), x) == if x == t then [] else Reviews(db, x)
  {
    SelectTwice(db.events, NotAbout(t), ReviewMove(x));
  }

  /** The event by which a commit logs a move of `t` into review, if it logs one. */
  ghost function MoveEvent(s: System, act: Action, t: Id): Event {
    if LogsMove(s, act, t) then
      var job, seen := s.pending[act.i].job, s.pending[act.i].seen.value;
      TransitionEvent(t, job.before, seen.status, seen.title, job.actor, act.now)
    else Event(TaskUpdated, "", None, t, 0)
  }

  /** Every commit of every request: it logs a move of `t` into review exactly if it is the last
      commit of an agent's update that found `t` out of review and then, reading it again, in review,
      whoever had moved it there. */
  lemma CommitRecorded(s: System, act: Action, t: Id)
    requires Consistent(s.db)
    ensures Recorded(s.db, Next(s, act).db, t, LogsMove(s, act, t), MoveEvent(s, act, t))
  {
    var db, e := s.db, MoveEvent(s, act, t);
    assert Reviews(db, t) + [] == Reviews(db, t);
    match act
    case Update(actor, x, u, now) => UpdateRecorded(s, actor, x, u, now, t, e);
    case Announce(i, now) =>
      if i < |s.created| {
        AnnounceRecorded(db, s.created[i].task, s.created[i].lead, now, t, e);
      }
    case Comment(i, now) =>
      if i < |s.pending| {
        CommentRecorded(db, s.pending[i].job, now, t, e);
      }
    case Finish(i, now) =>
      if i < |s.pending| && Ready(s.pending[i]) {
        FinishRecorded(db, s.pending[i].job, s.pending[i].seen.value, now, t);
      }
    case Create(x, payload, lead, now) =>
      if StoreTask(db, x, payload, lead, now).Ok? {
        CreateRecorded(db, x, payload, lead, now, t);
      }
    case Delete(x) => DeleteRecorded(db, x, t);
    case _ => LogUntouched(s, act);
  }

  lemma LogUntouched(s: System, act: Action)
    requires act.Refresh? || act.OpenApproval? || act.ResolveApproval? || act.Configure?
    ensures Next(s, act).db.events == s.db.events && Next(s, act).db.tasks == s.db.tasks
  {
  }

  // ----- The log over a run ---------------------------------------------------------------------------

  /** The agents whose moves of `t` into review were logged, in that order, since `t` was created. */
  ghost function LoggedMoves(s: System, acts: seq<Action>, t: Id): seq<Id> {
    if acts == [] || t !in Run(s, acts).db.tasks then []
    else
      var front, act := acts[..|acts| - 1], acts[|acts| - 1];
      var before := Run(s, front);
      LoggedMoves(s, front, t)
      + if LogsMove(before, act, t) then [before.pending[act.i].job.actor.value] else []
  }

  /** The last commits of a run happen at strictly increasing times. */
  ghost predicate Ticking(acts: seq<Action>) {
    forall i, j :: 0 <= i < j < |acts| && acts[i].Finish? && acts[j].Finish? ==> acts[i].now < acts[j].now
  }

  ghost predicate OldestFirst(es: seq<Event>) {
    forall i, j :: 0 <= i < j < |es| ==> es[i].at < es[j].at
  }

  ghost predicate HasFinishAt(acts: seq<Action>, at: int) {
    exists i :: 0 <= i < |acts| && acts[i].Finish? && acts[i].now == at
  }

  /** `record` lists the agents `moves`, oldest first, at times of `acts`. */
  ghost predicate Agrees(record: seq<Event>, moves: seq<Id>, acts: seq<Action>) {
    && Authors(record) == moves && OldestFirst(record)
    && forall e :: e in record ==> e.agent.Some? && HasFinishAt(acts, e.at)
  }

  lemma AgreesLater(record: seq<Event>, moves: seq<Id>, front: seq<Action>, act: Action)
    requires Agrees(record, moves, front)
    ensures Agrees(record, moves, front + [act])
  {
    forall f | f in record ensures HasFinishAt(front + [act], f.at) {
      var i :| 0 <= i < |front| && front[i].Finish? && front[i].now == f.at;
      assert (front + [act])[i] == front[i];
    }
  }

  lemma AgreesWithOneMore(record: seq<Event>, moves: seq<Id>, front: seq<Action>, act: Action, e: Event)
    requires Agrees(record, moves, front) && Ticking(front + [act])
    requires act.Finish? && e.agent.Some? && e.at == act.now
    ensures Agrees(record + [e], moves + [e.agent.value], front + [act])
  {
    AgreesLater(record, moves, front, act);
    var acts := front + [act];
    assert acts[|front|].Finish? && acts[|front|].now == e.at;
    assert (record + [e])[..|record|] == record;
    forall f | f in record ensures f.at < e.at {
      var i :| 0 <= i < |front| && front[i].Finish? && front[i].now == f.at;
      assert acts[i] == front[i];
    }
  }

  lemma AgreesStep(before: Db, after: Db, t: Id, logged: bool, e: Event, moves: seq<Id>, front: seq<Action>,
      act: Action)
    requires Agrees(Reviews(before, t), moves, front) && (t !in before.tasks ==> Reviews(before, t) == [])
    requires Recorded(before, after, t, logged, e) && Ticking(front + [act])
    requires logged ==> act.Finish? && e.agent.Some? && e.at == act.now
    ensures var now := if t !in after.tasks then [] else if logged then moves + [e.agent.value] else moves;
            Agrees(Reviews(after, t), now, front + [act])
    ensures t !in after.tasks ==> Reviews(after, t) == []
  {
    AgreesLater(Reviews(before, t), moves, front, act);
    assert Reviews(before, t) + [] == Reviews(before, t);
    if logged {
      AgreesWithOneMore(Reviews(before, t), moves, front, act, e);
    }
  }

  /** In every run, however the commits interleave, the log's record of moves into review is what
      was logged, in that order and in order of time. */
  lemma {:induction false} LogAgreesWithHistory(s: System, acts: seq<Action>, t: Id)
    requires Fresh(s) && Ticking(acts)
    ensures Agrees(Reviews(Run(s, acts).db, t), LoggedMoves(s, acts, t), acts)
    ensures t !in Run(s, acts).db.tasks ==> Reviews(Run(s, acts).db, t) == []
  {
    if acts != [] {
      var front, act := acts[..|acts| - 1], acts[|acts| - 1];
      assert acts == front + [act];
      LogAgreesWithHistory(s, front, t);
      FreshIsConsistent(s);
      RunsStayConsistent(s, front);
      var before, after := Run(s, front), Run(s, acts);
      CommitRecorded(before, act, t);
      AgreesStep(before.db, after.db, t, LogsMove(before, act, t), MoveEvent(before, act, t),
          LoggedMoves(s, front, t), front, act);
      assert LoggedMoves(s, front, t) + [] == LoggedMoves(s, front, t);
    }
  }

  // ----- The log and the moves themselves ------------------------------------------------------------

  /** The commit by which an agent moves `t` into review. */
  ghost predicate MovesToReview(s: System, act: Action, t: Id) {
    && act.Update? && act.actor.AgentActor?
    && t in s.db.tasks && !s.db.tasks[t].status.Review?
    && t in Next(s, act).db.tasks && Next(s, act).db.tasks[t].status.Review?
  }

  /** The agents that moved `t` into review, in that order, since `t` was created. */
  ghost function ReviewMoves(s: System, acts: seq<Action>, t: Id): seq<Id> {
    if acts == [] || t !in Run(s, acts).db.tasks then []
    else
      var front, act := acts[..|acts| - 1], acts[|acts| - 1];
      ReviewMoves(s, front, t) + if MovesToReview(Run(s, front), act, t) then [act.actor.id] else []
  }

  /** The agents whose moves of `t` into review have not come to their last commit. */
  function Unlogged(pending: seq<UnderWay>, t: Id): seq<Id> {
    if pending == [] then []
    else
      var job := pending[|pending| - 1].job;
      Unlogged(pending[..|pending| - 1], t) + if EnteringJob(job, t) then [job.actor.value] else []
  }

  lemma {:induction false} UnloggedConcat(a: seq<UnderWay>, b: seq<UnderWay>, t: Id)
    ensures Unlogged(a + b, t) == Unlogged(a, t) + Unlogged(b, t)
  {
    if b == [] {
      assert a + b == a;
    } else {
      assert (a + b)[..|a + b| - 1] == a + b[..|b| - 1];
      UnloggedConcat(a, b[..|b| - 1], t);
    }
  }

  lemma UnloggedOne(u: UnderWay, t: Id)
    ensures Unlogged([u], t) == if EnteringJob(u.job, t) then [u.job.actor.value] else []
  {
    assert [u][..0] == [];
  }

  lemma UnloggedWithout(pending: seq<UnderWay>, i: nat, t: Id)
    requires i < |pending|
    ensures EnteringJob(pending[i].job, t) && |Unlogged(pending, t)| <= 1 ==>
              Unlogged(pending, t) == [pending[i].job.actor.value] && Unlogged(WithoutIndex(pending, i), t) == []
    ensures !EnteringJob(pending[i].job, t) ==> Unlogged(WithoutIndex(pending, i), t) == Unlogged(pending, t)
  {
    var a, b := pending[..i], pending[i + 1..];
    assert pending == a + [pending[i]] + b;
    UnloggedConcat(a + [pending[i]], b, t);
    UnloggedConcat(a, [pending[i]], t);
    UnloggedConcat(a, b, t);
    UnloggedOne(pending[i], t);
    assert Unlogged(a, t) + [] == Unlogged(a, t);
  }

  lemma UnloggedSameJob(pending: seq<UnderWay>, i: nat, u: UnderWay, t: Id)
    requires i < |pending| && u.job == pending[i].job
    ensures Unlogged(pending[i := u], t) == Unlogged(pending, t)
  {
    var a, b := pending[..i], pending[i + 1..];
    assert pending == a + [pending[i]] + b && pending[i := u] == a + [u] + b;
    UnloggedConcat(a + [pending[i]], b, t);
    UnloggedConcat(a, [pending[i]], t);
    UnloggedConcat(a + [u], b, t);
    UnloggedConcat(a, [u], t);
    UnloggedOne(pending[i], t);
    UnloggedOne(u, t);
  }

  /** The job that a first commit leaves is an entering one exactly if the commit is a move. */
  lemma JobEntersIff(s: System, actor: Actor, x: Id, u: TaskUpdate, now: int, t: Id)
    requires Consistent(s.db) && FirstCommit(s.db, actor, x, u, now).Ok?
    ensures var job := FirstCommit(s.db, actor, x, u, now).value.1;
            && (MovesToReview(s, Update(actor, x, u, now), t) <==> job.Some? && EnteringJob(job.value, t))
            && (job.Some? && EnteringJob(job.value, t) ==> actor == AgentActor(job.value.actor.value))
  {
    FirstCommitEffect(s.db, actor, x, u, now);
    JobNames(s.db, actor, x, u, now);
    if actor.AgentActor? && s.db.agents[actor.id].isLead {
      LeadReviews(s.db, actor.id, x, u, now, t);
    }
  }

  lemma UnloggedAfterUpdate(s: System, actor: Actor, x: Id, u: TaskUpdate, now: int, t: Id)
    requires Consistent(s.db)
    ensures var act := Update(actor, x, u, now);
            Unlogged(Next(s, act).pending, t)
            == Unlogged(s.pending, t) + if MovesToReview(s, act, t) then [actor.id] else []
  {
    assert Unlogged(s.pending, t) + [] == Unlogged(s.pending, t);
    if FirstCommit(s.db, actor, x, u, now).Ok? {
      JobEntersIff(s, actor, x, u, now, t);
      var job := FirstCommit(s.db, actor, x, u, now).value.1;
      if job.Some? {
        UnloggedConcat(s.pending, [Started(job.value)], t);
        UnloggedOne(Started(job.value), t);
      }
    }
  }

  /** No agent moves `t` into review, and `t` is not created, while an earlier such move has not
      come to its last commit. */
  ghost predicate Orderly(s: System, acts: seq<Action>, t: Id) {
    forall k | 0 <= k < |acts| ::
      MovesToReview(Run(s, acts[..k]), acts[k], t) || (acts[k].Create? && acts[k].t == t) ==>
        Unlogged(Run(s, acts[..k]).pending, t) == []
  }

  /** The commit logs a move of `t` into review exactly if it is the last one of an update that made
      such a move. */
  ghost predicate LogsOwn(s: System, act: Action, t: Id) {
    LogsMove(s, act, t) <==> Finishes(s, act, t) && EnteringJob(s.pending[act.i].job, t)
  }

  ghost predicate AllLogOwn(s: System, acts: seq<Action>, t: Id) {
    forall k | 0 <= k < |acts| :: LogsOwn(Run(s, acts[..k]), acts[k], t)
  }

  /** The moves are those logged and those that have not come to their last commit. */
  ghost predicate MovesMatch(s: System, acts: seq<Action>, t: Id) {
    t in Run(s, acts).db.tasks ==>
      ReviewMoves(s, acts, t) == LoggedMoves(s, acts, t) + Unlogged(Run(s, acts).pending, t)
  }

  ghost predicate AlwaysMatch(s: System, acts: seq<Action>, t: Id) {
    forall k | 0 <= k <= |acts| :: MovesMatch(s, acts[..k], t)
  }

  lemma Prefixes<T>(acts: seq<T>, n: nat)
    requires n <= |acts|
    ensures acts[..|acts|] == acts
    ensures forall k | 0 <= k <= n :: acts[..n][..k] == acts[..k]
    ensures forall k | 0 <= k < n :: acts[..n][k] == acts[k]
  {
  }

  /** What a commit other than an update does to the moves that have not come to their last one. */
  lemma UnloggedAfterOther(s: System, act: Action, t: Id)
    requires !act.Update? && |Unlogged(s.pending, t)| <= 1 && CustomFields.DistinctIds(s.db.fields)
    ensures |Unlogged(Next(s, act).pending, t)| <= 1
    ensures t in s.db.tasks ==>
              if Finishes(s, act, t) && EnteringJob(s.pending[act.i].job, t)
              then
                && Unlogged(s.pending, t) == [s.pending[act.i].job.actor.value]
                && Unlogged(Next(s, act).pending, t) == []
              else Unlogged(Next(s, act).pending, t) == Unlogged(s.pending, t)
  {
    match act
    case Refresh(i) =>
      if i < |s.pending| {
        UnloggedAfterRefresh(s, i, t);
      }
    case Comment(i, now) =>
      if i < |s.pending| {
        UnloggedAfterComment(s, i, now, t);
      }
    case Finish(i, _) =>
      if i < |s.pending| {
        UnloggedWithout(s.pending, i, t);
      }
    case _ =>
  }

  /** If the task is still there. Otherwise the request fails and counts no more. */
  lemma UnloggedAfterRefresh(s: System, i: nat, t: Id)
    requires i < |s.pending| && |Unlogged(s.pending, t)| <= 1 && CustomFields.DistinctIds(s.db.fields)
    ensures var after := Unlogged(Next(s, Refresh(i)).pending, t);
            |after| <= 1 && (t in s.db.tasks ==> after == Unlogged(s.pending, t))
  {
    var u := s.pending[i];
    UnloggedWithout(s.pending, i, t);
    UnloggedSameJob(s.pending, i, u.(seen := Reread(s.db, u.job.task)), t);
  }

  lemma UnloggedAfterComment(s: System, i: nat, now: int, t: Id)
    requires i < |s.pending| && |Unlogged(s.pending, t)| <= 1 && CustomFields.DistinctIds(s.db.fields)
    ensures var after := Unlogged(Next(s, Comment(i, now)).pending, t);
            |after| <= 1 && (t in s.db.tasks ==> after == Unlogged(s.pending, t))
  {
    UnloggedWithout(s.pending, i, t);
    UnloggedSameJob(s.pending, i, s.pending[i].(commentLeft := false), t);
  }

  lemma MovesStep(s: System, act: Action, t: Id, logged: seq<Id>, moves: seq<Id>)
    requires Consistent(s.db) && |Unlogged(s.pending, t)| <= 1
    requires if t in s.db.tasks then moves == logged + Unlogged(s.pending, t) else moves == [] && logged == []
    requires MovesToReview(s, act, t) || (act.Create? && act.t == t) ==> Unlogged(s.pending, t) == []
    ensures |Unlogged(Next(s, act).pending, t)| <= 1
    ensures t in Next(s, act).db.tasks ==>
              (moves + (if MovesToReview(s, act, t) then [act.actor.id] else [])
                 == logged + (if LogsMove(s, act, t) then [s.pending[act.i].job.actor.value] else [])
                      + Unlogged(Next(s, act).pending, t)
               <==> LogsOwn(s, act, t))
  {
    UnloggedAtMostOne(s, act, t);
    if act.Update? {
      UnloggedAfterUpdate(s, act.actor, act.t, act.patch, act.now, t);
      UpdateKeepsTasks(s, act);
      assert logged + [] == logged && moves + [] == moves;
    } else {
      OtherMovesStep(s, act, t, logged, moves);
    }
  }

  lemma OtherMovesStep(s: System, act: Action, t: Id, logged: seq<Id>, moves: seq<Id>)
    requires Consistent(s.db) && |Unlogged(s.pending, t)| <= 1 && !act.Update?
    requires if t in s.db.tasks then moves == logged + Unlogged(s.pending, t) else moves == [] && logged == []
    requires act.Create? && act.t == t ==> Unlogged(s.pending, t) == []
    ensures t in Next(s, act).db.tasks ==>
              (moves == logged + (if LogsMove(s, act, t) then [s.pending[act.i].job.actor.value] else [])
                          + Unlogged(Next(s, act).pending, t)
               <==> LogsOwn(s, act, t))
  {
    assert logged + [] == logged;
    UnloggedAfterOther(s, act, t);
    if t in Next(s, act).db.tasks && t !in s.db.tasks {
      TasksAppearByCreation(s, act, t);
    }
  }

  lemma UpdateKeepsTasks(s: System, act: Action)
    requires Consistent(s.db) && act.Update?
    ensures forall t :: t in Next(s, act).db.tasks <==> t in s.db.tasks
  {
    if FirstCommit(s.db, act.actor, act.t, act.patch, act.now).Ok? {
      FirstCommitEffect(s.db, act.actor, act.t, act.patch, act.now);
    }
  }

  lemma TasksAppearByCreation(s: System, act: Action, t: Id)
    requires Consistent(s.db) && !act.Update? && t in Next(s, act).db.tasks && t !in s.db.tasks
    ensures act.Create? && act.t == t
  {
  }

  lemma UnloggedAtMostOne(s: System, act: Action, t: Id)
    requires Consistent(s.db) && |Unlogged(s.pending, t)| <= 1
    requires MovesToReview(s, act, t) ==> Unlogged(s.pending, t) == []
    ensures |Unlogged(Next(s, act).pending, t)| <= 1
  {
    if act.Update? {
      UnloggedAfterUpdate(s, act.actor, act.t, act.patch, act.now, t);
    } else {
      UnloggedAfterOther(s, act, t);
    }
  }

  lemma {:induction false} OneUnlogged(s: System, acts: seq<Action>, t: Id)
    requires Fresh(s) && Orderly(s, acts, t)
    ensures |Unlogged(Run(s, acts).pending, t)| <= 1
  {
    if acts != [] {
      var n := |acts| - 1;
      Prefixes(acts, n);
      OneUnlogged(s, acts[..n], t);
      FreshIsConsistent(s);
      RunsStayConsistent(s, acts[..n]);
      UnloggedAtMostOne(Run(s, acts[..n]), acts[n], t);
    }
  }

  lemma NoTaskNoMoves(s: System, acts: seq<Action>, t: Id)
    requires t !in Run(s, acts).db.tasks
    ensures ReviewMoves(s, acts, t) == LoggedMoves(s, acts, t) == []
  {
  }

  /** One commit more: the moves go on matching exactly if the commit logs what it should. */
  lemma MatchStep(s: System, front: seq<Action>, act: Action, t: Id)
    requires Consistent(Run(s, front).db) && |Unlogged(Run(s, front).pending, t)| <= 1 && MovesMatch(s, front, t)
    requires MovesToReview(Run(s, front), act, t) || (act.Create? && act.t == t) ==>
               Unlogged(Run(s, front).pending, t) == []
    ensures MovesMatch(s, front + [act], t)
            <==> t in Run(s, front + [act]).db.tasks ==> LogsOwn(Run(s, front), act, t)
  {
    var acts := front + [act];
    assert acts[..|acts| - 1] == front && acts[|acts| - 1] == act;
    if t !in Run(s, front).db.tasks {
      NoTaskNoMoves(s, front, t);
    }
    MovesStep(Run(s, front), act, t, LoggedMoves(s, front, t), ReviewMoves(s, front, t));
  }

  lemma LogsOwnIfGone(s: System, act: Action, t: Id)
    requires Consistent(s.db) && t !in Next(s, act).db.tasks
    ensures LogsOwn(s, act, t)
  {
    if act.Finish? && act.i < |s.pending| && Ready(s.pending[act.i]) {
      FinishKeepsTasks(s, act.i, act.now);
    }
  }

  /** In an orderly run the moves always are those logged, in that order, and at most one that has
      not come to its last commit, exactly if every last commit logs its own update's move. */
  lemma {:induction false} MovesAreLoggedIff(s: System, acts: seq<Action>, t: Id)
    requires Fresh(s) && Orderly(s, acts, t)
    ensures |Unlogged(Run(s, acts).pending, t)| <= 1
    ensures AlwaysMatch(s, acts, t) <==> AllLogOwn(s, acts, t)
  {
    OneUnlogged(s, acts, t);
    FreshIsConsistent(s);
    if acts == [] {
      assert acts[..0] == [];
    } else {
      var n := |acts| - 1;
      Prefixes(acts, n);
      assert acts == acts[..n] + [acts[n]];
      MovesAreLoggedIff(s, acts[..n], t);
      RunsStayConsistent(s, acts[..n]);
      AlwaysOneMore(s, acts, n, t);
      if AlwaysMatch(s, acts[..n], t) {
        MatchStep(s, acts[..n], acts[n], t);
        if t !in Run(s, acts).db.tasks {
          LogsOwnIfGone(Run(s, acts[..n]), acts[n], t);
        }
      }
    }
  }

  lemma AlwaysOneMore(s: System, acts: seq<Action>, n: nat, t: Id)
    requires |acts| == n + 1
    ensures AlwaysMatch(s, acts, t) <==> AlwaysMatch(s, acts[..n], t) && MovesMatch(s, acts, t)
    ensures AlwaysMatch(s, acts[..n], t) ==> MovesMatch(s, acts[..n], t)
    ensures AllLogOwn(s, acts, t) <==> AllLogOwn(s, acts[..n], t) && LogsOwn(Run(s, acts[..n]), acts[n], t)
  {
    MatchOneMore(s, acts, n, t);
    OwnOneMore(s, acts, n, t);
  }

  lemma OwnOneMore(s: System, acts: seq<Action>, n: nat, t: Id)
    requires |acts| == n + 1
    ensures AllLogOwn(s, acts, t) <==> AllLogOwn(s, acts[..n], t) && LogsOwn(Run(s, acts[..n]), acts[n], t)
  {
    var owns := (front: seq<Action>, act: Action) => LogsOwn(Run(s, front), act, t);
    StepsOneMore(acts, n, owns);
    assert AllLogOwn(s, acts, t) <==> forall k | 0 <= k <= n :: owns(acts[..k], acts[k]);
    assert AllLogOwn(s, acts[..n], t) <==> forall k | 0 <= k < n :: owns(acts[..n][..k], acts[..n][k]);
  }

  lemma MatchOneMore(s: System, acts: seq<Action>, n: nat, t: Id)
    requires |acts| == n + 1
    ensures AlwaysMatch(s, acts, t) <==> AlwaysMatch(s, acts[..n], t) && MovesMatch(s, acts, t)
    ensures AlwaysMatch(s, acts[..n], t) ==> MovesMatch(s, acts[..n], t)
  {
    var matches := (front: seq<Action>) => MovesMatch(s, front, t);
    PrefixesOneMore(acts, n, matches);
    assert AlwaysMatch(s, acts, t) <==> forall k | 0 <= k <= n + 1 :: matches(acts[..k]);
    assert AlwaysMatch(s, acts[..n], t) <==> forall k | 0 <= k <= n :: matches(acts[..n][..k]);
  }

  lemma PrefixesOneMore<T(!new)>(acts: seq<T>, n: nat, holds: seq<T> -> bool)
    requires |acts| == n + 1
    ensures (forall k | 0 <= k <= n + 1 :: holds(acts[..k]))
            <==> (forall k | 0 <= k <= n :: holds(acts[..n][..k])) && holds(acts)
    ensures (forall k | 0 <= k <= n :: holds(acts[..n][..k])) ==> holds(acts[..n])
  {
    Prefixes(acts, n);
    assert acts[..n + 1] == acts && acts[..n][..n] == acts[..n];
    forall k | 0 <= k <= n && forall j | 0 <= j <= n + 1 :: holds(acts[..j]) ensures holds(acts[..n][..k]) {
      assert holds(acts[..k]);
    }
    forall k | 0 <= k <= n && forall j | 0 <= j <= n :: holds(acts[..n][..j]) ensures holds(acts[..k]) {
      assert holds(acts[..n][..k]);
    }
  }

  lemma StepsOneMore<T(!new)>(acts: seq<T>, n: nat, holds: (seq<T>, T) -> bool)
    requires |acts| == n + 1
    ensures (forall k | 0 <= k <= n :: holds(acts[..k], acts[k]))
            <==> (forall k | 0 <= k < n :: holds(acts[..n][..k], acts[..n][k])) && holds(acts[..n], acts[n])
  {
    Prefixes(acts, n);
    forall k | 0 <= k < n && forall j | 0 <= j <= n :: holds(acts[..j], acts[j])
      ensures holds(acts[..n][..k], acts[..n][k])
    {
      assert holds(acts[..k], acts[k]);
    }
    forall k | 0 <= k <= n && (forall j | 0 <= j < n :: holds(acts[..n][..j], acts[..n][j]))
               && holds(acts[..n], acts[n])
      ensures holds(acts[..k], acts[k])
    {
      assert k < n ==> holds(acts[..n][..k], acts[..n][k]);
    }
  }

  // ----- When a last commit logs its own update's move -----------------------------------------------

  /** What an agent's update of `t` sees makes the log record a move into review exactly if `t` was
      not in review before the update and is when it is read again. For the update's own move that
      is so unless another commit has taken `t` out of review since; otherwise it is so only if
      another commit has put `t` there since. */
  lemma RefreshRecordsIff(s: System, i: nat, t: Id)
    requires CustomFields.DistinctIds(s.db.fields) && i < |s.pending| && s.pending[i].seen.None? && t in s.db.tasks
    requires s.pending[i].job.task == t && s.pending[i].job.actor.Some?
    ensures var u := Next(s, Refresh(i)).pending[i];
            && u.seen.Some? && u.job == s.pending[i].job
            && (SeenEntering(u.job, u.seen.value, t) <==> !u.job.before.Review? && s.db.tasks[t].status.Review?)
            && ((SeenEntering(u.job, u.seen.value, t) <==> EnteringJob(u.job, t))
                <==> u.job.before.Review? || (s.db.tasks[t].status.Review? <==> u.job.after.Review?))
  {
  }

  function StatusIn(db: Db, t: Id): Option<Status> {
    if t in db.tasks then Some(db.tasks[t].status) else None
  }

  /** An agent's update of `t` that has not read it again. */
  predicate Awaits(u: UnderWay, t: Id) {
    u.job.task == t && u.job.actor.Some? && u.seen.None?
  }

  ghost predicate Awaited(s: System, t: Id) {
    exists i :: 0 <= i < |s.pending| && Awaits(s.pending[i], t)
  }

  /** No commit changes the status of `t` between the first commit of an agent's update and the
      moment when that update reads `t` again. */
  ghost predicate Undisturbed(s: System, acts: seq<Action>, t: Id) {
    forall k | 0 <= k < |acts| ::
      Awaited(Run(s, acts[..k]), t) ==>
        StatusIn(Run(s, acts[..k + 1]).db, t) == StatusIn(Run(s, acts[..k]).db, t)
  }

  /** What an agent's update of `t` goes by is the status that it stored. */
  predicate TrueToOwn(db: Db, u: UnderWay, t: Id) {
    u.job.task == t && u.job.actor.Some? ==>
      if u.seen.None? then StatusIn(db, t) == Some(u.job.after) else u.seen.value.status == u.job.after
  }

  ghost predicate AllTrueToOwn(s: System, t: Id) {
    forall i :: 0 <= i < |s.pending| ==> TrueToOwn(s.db, s.pending[i], t)
  }

  lemma TrueToOwnStep(s: System, act: Action, t: Id)
    requires Consistent(s.db) && AllTrueToOwn(s, t)
    requires Awaited(s, t) ==> StatusIn(Next(s, act).db, t) == StatusIn(s.db, t)
    ensures AllTrueToOwn(Next(s, act), t)
  {
    var s' := Next(s, act);
    if act.Update? && FirstCommit(s.db, act.actor, act.t, act.patch, act.now).Ok? {
      JobNames(s.db, act.actor, act.t, act.patch, act.now);
    }
    forall j | 0 <= j < |s'.pending| ensures TrueToOwn(s'.db, s'.pending[j], t) {
      if j < |s.pending| {
        assert Awaits(s.pending[j], t) ==> Awaited(s, t);
        assert TrueToOwn(s.db, s.pending[j], t);
      }
      if j + 1 < |s.pending| {
        assert Awaits(s.pending[j + 1], t) ==> Awaited(s, t);
        assert TrueToOwn(s.db, s.pending[j + 1], t);
      }
    }
  }

  lemma {:induction false} UndisturbedIsTrue(s: System, acts: seq<Action>, t: Id)
    requires Fresh(s) && Undisturbed(s, acts, t)
    ensures AllTrueToOwn(Run(s, acts), t) && AllLogOwn(s, acts, t)
  {
    if acts != [] {
      var n := |acts| - 1;
      Prefixes(acts, n);
      UndisturbedIsTrue(s, acts[..n], t);
      FreshIsConsistent(s);
      RunsStayConsistent(s, acts[..n]);
      TrueToOwnStep(Run(s, acts[..n]), acts[n], t);
      forall k | 0 <= k < |acts| ensures LogsOwn(Run(s, acts[..k]), acts[k], t) {
        assert k < n ==> LogsOwn(Run(s, acts[..n][..k]), acts[..n][k], t);
      }
    }
  }

  // ----- A lead's return ---------------------------------------------------------------------------

  /** The most recent agent of a history that may take the task back. */
  function LastTaker(db: Db, lead: Id, moves: seq<Id>): Option<Id> {
    if moves == [] then None
    else if CanTakeBack(db, lead, moves[|moves| - 1]) then Some(moves[|moves| - 1])
    else LastTaker(db, lead, moves[..|moves| - 1])
  }

  function Reversed(es: seq<Event>): seq<Event> {
    if es == [] then [] else [es[|es| - 1]] + Reversed(es[..|es| - 1])
  }

  lemma {:induction false} NewestFirstReverses(es: seq<Event>)
    requires OldestFirst(es)
    ensures NewestFirst(es) == Reversed(es)
  {
    if es != [] {
      var front := es[..|es| - 1];
      NewestFirstReverses(front);
      if front != [] {
        assert Reversed(front)[0] == front[|front| - 1];
        assert es[|es| - 2] == front[|front| - 1];
      }
    }
  }

  lemma {:induction false} FirstTakerIsLast(db: Db, lead: Id, es: seq<Event>)
    requires forall e :: e in es ==> e.agent.Some?
    ensures FirstTaker(db, lead, Reversed(es)) == LastTaker(db, lead, Authors(es))
  {
    if es != [] {
      var front := es[..|es| - 1];
      assert es[|es| - 1] in es;
      assert forall e :: e in front ==> e in es;
      FirstTakerIsLast(db, lead, front);
      assert Reversed(es)[1..] == Reversed(front);
      assert Authors(es)[..|Authors(es)| - 1] == Authors(front);
    }
  }

  /** In every run, however the commits interleave, a lead's return from review to the inbox gives the
      task to the agent whose move into review was logged last, among those that are now workers of
      this board, and to nobody if there is none. */
  lemma ReturnGoesToLastLogged(s: System, acts: seq<Action>, lead: Id, t: Id, u: TaskUpdate, now: int)
    requires Fresh(s) && Ticking(acts) && CustomFields.DistinctIds(Run(s, acts).db.fields)
    requires var db := Run(s, acts).db;
             && t in db.tasks && db.tasks[t].status.Review? && u.status == Some(Inbox)
             && LeadUpdate(db, lead, t, u, now).Ok?
    ensures var db := Run(s, acts).db;
            var after := LeadUpdate(db, lead, t, u, now).value;
            && t in after.tasks && after.tasks[t].status.Inbox?
            && after.tasks[t].assignee == LastTaker(db, lead, LoggedMoves(s, acts, t))
  {
    var db := Run(s, acts).db;
    FreshIsConsistent(s);
    RunsStayConsistent(s, acts);
    LogAgreesWithHistory(s, acts, t);
    NewestFirstReverses(Reviews(db, t));
    FirstTakerIsLast(db, lead, Reviews(db, t));
    LeadReturn(db, lead, t, u, now);
  }

  /** That is the agent that most recently moved it into review, if no two such moves of this task
      overlap, every last commit logs its own update's move, and none is still to come when the lead
      returns the task. */
  lemma ReturnGoesToLastWorker(s: System, acts: seq<Action>, lead: Id, t: Id, u: TaskUpdate, now: int)
    requires Fresh(s) && Ticking(acts) && CustomFields.DistinctIds(Run(s, acts).db.fields)
    requires Orderly(s, acts, t) && AllLogOwn(s, acts, t) && Unlogged(Run(s, acts).pending, t) == []
    requires var db := Run(s, acts).db;
             && t in db.tasks && db.tasks[t].status.Review? && u.status == Some(Inbox)
             && LeadUpdate(db, lead, t, u, now).Ok?
    ensures var db := Run(s, acts).db;
            var after := LeadUpdate(db, lead, t, u, now).value;
            && t in after.tasks && after.tasks[t].status.Inbox?
            && after.tasks[t].assignee == LastTaker(db, lead, ReviewMoves(s, acts, t))
  {
    MovesAreLoggedIff(s, acts, t);
    Prefixes(acts, |acts|);
    assert MovesMatch(s, acts[..|acts|], t);
    ReturnGoesToLastLogged(s, acts, lead, t, u, now);
    assert LoggedMoves(s, acts, t) + [] == LoggedMoves(s, acts, t);
  }

  lemma LeadReturn(db: Db, lead: Id, t: Id, u: TaskUpdate, now: int)
    requires WellFormed(db) && t in db.tasks && db.tasks[t].status.Review? && u.status == Some(Inbox)
    requires LeadUpdate(db, lead, t, u, now).Ok?
    ensures var after := LeadUpdate(db, lead, t, u, now).value;
            t in after.tasks && after.tasks[t].status.Inbox? && after.tasks[t].assignee == LastReviewer(db, t, lead)
  {
  }

  /** What `LastTaker` picks: an eligible agent of the history after whom nobody eligible comes. */
  lemma {:induction false} LastTakerIs(db: Db, lead: Id, moves: seq<Id>)
    ensures LastTaker(db, lead, moves).None? <==> forall i :: 0 <= i < |moves| ==> !CanTakeBack(db, lead, moves[i])
    ensures LastTaker(db, lead, moves).Some? ==>
              exists i :: 0 <= i < |moves| && LastTaker(db, lead, moves) == Some(moves[i])
                          && CanTakeBack(db, lead, moves[i])
                          && forall j :: i < j < |moves| ==> !CanTakeBack(db, lead, moves[j])
  {
    if moves != [] {
      var n := |moves| - 1;
      LastTakerIs(db, lead, moves[..n]);
      if CanTakeBack(db, lead, moves[n]) {
        assert LastTaker(db, lead, moves) == Some(moves[n]);
      } else if LastTaker(db, lead, moves).Some? {
        var i :| 0 <= i < n && LastTaker(db, lead, moves[..n]) == Some(moves[..n][i])
                 && CanTakeBack(db, lead, moves[..n][i])
                 && forall j :: i < j < n ==> !CanTakeBack(db, lead, moves[..n][j]);
        forall j | i < j < |moves| ensures !CanTakeBack(db, lead, moves[j]) {
          assert j < n ==> moves[..n][j] == moves[j];
        }
        assert LastTaker(db, lead, moves) == Some(moves[i]);
      } else {
        forall i | 0 <= i < |moves| ensures !CanTakeBack(db, lead, moves[i]) {
          assert i < n ==> moves[..n][i] == moves[i];
        }
      }
    }
  }
}
