/** What each kind of actor can bring about: which transitions, which assignees and which fields,
    over the whole path of an accepted update. */
module TaskPermissions {
  import opened Wrappers
  import opened DependencyGraph
  import opened BoardModel
  import opened TaskRules
  import opened TaskFacts

  /** A known agent that is no lead and not on another board. */
  predicate IsWorkerHere(db: Db, a: Id) {
    a in db.agents && !db.agents[a].isLead && (db.agents[a].board.None? || db.agents[a].board == Some(db.boardId))
  }

  lemma {:induction false} TakerIsWorkerHere(db: Db, lead: Id, candidates: seq<Event>)
    ensures FirstTaker(db, lead, candidates).Some? ==>
              IsWorkerHere(db, FirstTaker(db, lead, candidates).value) && FirstTaker(db, lead, candidates) != Some(lead)
  {
    if candidates != [] {
      TakerIsWorkerHere(db, lead, candidates[1..]);
    }
  }

  /** The transitions open to a lead: out of review, or a start together with an assignment. */
  predicate LeadMoves(before: Task, after: Task) {
    || (before.status.Review? && (after.status.Inbox? || after.status.Done?))
    || (before.status.Inbox? && after.status.InProgress? && after.assignee.Some?)
  }

  lemma LeadAssigns(db: Db, lead: Id, t: Id, u: TaskUpdate)
    requires t in db.tasks && LeadChange(db, lead, t, u).Ok?
    ensures var before, after := db.tasks[t], LeadChange(db, lead, t, u).value;
            && after.title == before.title && after.details == before.details
            && (after.status != before.status ==> LeadMoves(before, after))
            && (after.assignee != before.assignee && after.assignee.Some? ==> IsWorkerHere(db, after.assignee.value))
            && (after.inProgressAt == before.inProgressAt || (after.inProgressAt.None? && after.status.Inbox?))
  {
    TakerIsWorkerHere(db, lead, NewestFirst(Select(db.events, ReviewMove(t))));
  }

  /** A lead's accepted update leaves title and details alone, makes no transition but those open
      to a lead, hands the task to nobody but a worker of this board, and sets no start time. */
  lemma LeadBringsAbout(db: Db, lead: Id, t: Id, u: TaskUpdate, now: int)
    requires t in db.tasks && WellFormed(db) && LeadUpdate(db, lead, t, u, now).Ok?
    ensures t in LeadUpdate(db, lead, t, u, now).value.tasks
    ensures var before, after := db.tasks[t], LeadUpdate(db, lead, t, u, now).value.tasks[t];
            && after.title == before.title && after.details == before.details
            && (after.status != before.status ==> LeadMoves(before, after))
            && (after.assignee != before.assignee && after.assignee.Some? ==> IsWorkerHere(db, after.assignee.value))
            && (after.inProgressAt == before.inProgressAt || (after.inProgressAt.None? && after.status.Inbox?))
  {
    LeadAssigns(db, lead, t, u);
    LeadUpdateLogs(db, lead, t, u, now);
    assert LeadUpdate(db, lead, t, u, now).value.tasks == LeadStore(db, lead, t, u, now).value.tasks;
  }

  /** The lead that reviewed tasks are handed to is a lead of this board, if it has one. */
  lemma BoardLeadIs(db: Db)
    ensures BoardLead(db).Some? ==>
              var a := BoardLead(db).value;
              a in db.agents && db.agents[a].isLead && db.agents[a].board == Some(db.boardId)
    ensures BoardLead(db).None? ==>
              forall a :: a in db.agents && db.agents[a].isLead ==> db.agents[a].board != Some(db.boardId)
  {
    var leads := set a | a in db.agents && db.agents[a].board == Some(db.boardId) && db.agents[a].isLead;
    var ids := SortedIds(leads);
    assert ids != [] ==> ids[0] in ToSet(ids);
    forall a | a in db.agents && db.agents[a].isLead && db.agents[a].board == Some(db.boardId) ensures ids != [] {
      assert a in leads && a in ToSet(ids);
    }
  }

  /** Whom an update that asks for `status` leaves the task with, unless it names an assignee. */
  ghost function LeftWith(db: Db, before: Task, status: Option<Status>, doer: Option<Id>): Option<Id> {
    match status
    case None => before.assignee
    case Some(Inbox) => None
    case Some(Review) => if before.status.Review? then None else BoardLead(db)
    case Some(_) => doer
  }

  /** A worker's accepted update leaves title, details, tags and dependencies alone, changes the
      status only as asked, only if the board lets workers, and only of a task that was free or
      the worker's own; the task then rests with the worker, the lead or nobody. */
  lemma WorkerBringsAbout(db: Db, a: Id, t: Id, u: TaskUpdate, now: int)
    requires t in db.tasks && a in db.agents && WellFormed(db) && WorkerUpdate(db, a, t, u, now).Ok?
    ensures var mid := WorkerUpdate(db, a, t, u, now).value.0;
            && mid.edges == db.edges && mid.tags == db.tags && t in mid.tasks
            && mid.tasks[t].title == db.tasks[t].title && mid.tasks[t].details == db.tasks[t].details
            && mid.tasks[t].status == u.status.GetOr(db.tasks[t].status)
            && mid.tasks[t].assignee == LeftWith(db, db.tasks[t], u.status, Some(a))
    ensures u.status.Some? ==>
            !db.flags.onlyLeadChangesStatus && (db.tasks[t].assignee.None? || db.tasks[t].assignee == Some(a))
  {
  }

  /** A user's accepted update does as asked on a task that it leaves unblocked, and otherwise
      sends the task to the inbox with nobody assigned, whatever was asked, unless the task was
      done and stays done. */
  lemma UserBringsAbout(db: Db, t: Id, u: TaskUpdate, now: int)
    requires t in db.tasks && WellFormed(db) && Acyclic(db.edges) && UserUpdate(db, t, u, now).Ok?
    ensures var mid, before := UserUpdate(db, t, u, now).value.0, db.tasks[t];
            && t in mid.tasks
            && mid.tasks[t].title == u.title.GetOr(before.title) && mid.tasks[t].details
                == u.details.GetOr(before.details)
            && if LeavesBlocked(db, t, u) && !(before.status.Done? && u.status.GetOr(Done).Done?)
               then Parked(mid.tasks[t])
               else mid.tasks[t].status == u.status.GetOr(before.status)
                    && mid.tasks[t].assignee ==
                         if mid.tasks[t].status.Review? && !before.status.Review? && BoardLead(db).Some?
                             then BoardLead(db)
                         else u.assignee.GetOr(if u.status == Some(Inbox) || u.status == Some(Review) then None
                             else before.assignee)
  {
    BlockedAfterEdit(db, t, u);
  }
}
