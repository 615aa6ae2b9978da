/** What every task endpoint does to the board, as functions of the rows before it.
    A refusal returns no rows at all: the transaction is rolled back. */
module TaskRules {
  import opened Wrappers
  import opened DependencyGraph
  import opened BoardModel
  import Text
  import CustomFields

  // ----- Dependencies and tags -------------------------------------------------------------

  function WithDependencies(edges: Edges, t: Id, deps: set<Id>): Edges {
    (set e | e in edges && e.0 != t) + (set d | d in deps :: (t, d))
  }

  ghost function CheckDependencies(db: Db, t: Id, requested: seq<Id>): Result<set<Id>, Refusal> {
    var deps := ToSet(requested);
    if t in deps then Err(SelfDependency)
    else if deps == {} then Ok({})
    else if !(deps <= db.tasks.Keys) then Err(MissingDependencies(deps - db.tasks.Keys))
    else if !Acyclic(WithDependencies(db.edges, t, deps)) then Err(DependencyCycle)
    else Ok(deps)
  }

  /** A PATCH that names dependencies replaces them, unless the task is done. */
  ghost function ApplyDependencies(db: Db, t: Id, u: TaskUpdate): Result<Db, Refusal> {
    if u.dependsOn.None? then Ok(db)
    else if IsDone(db, t) then Err(DoneDependencies)
    else
      var deps :- CheckDependencies(db, t, u.dependsOn.value);
      Ok(db.(edges := WithDependencies(db.edges, t, deps)))
  }

  function CheckTags(db: Db, requested: seq<Id>): Result<seq<Id>, Refusal> {
    var unknown := set x | x in requested && x !in db.orgTags;
    if unknown != {} then Err(UnknownTags(unknown)) else Ok(Dedupe(requested))
  }

  function CheckOptionalTags(db: Db, requested: Option<seq<Id>>): Result<Option<seq<Id>>, Refusal> {
    if requested.None? then Ok(None)
    else
      var ids :- CheckTags(db, requested.value);
      Ok(Some(ids))
  }

  function WithTags(tags: map<Id, seq<Id>>, t: Id, ids: Option<seq<Id>>): map<Id, seq<Id>> {
    if ids.None? then tags else tags[t := ids.value]
  }

  ghost function WithFields(db: Db, t: Id, patch: Option<CustomFields.Patch>)
    : Result<map<Id, CustomFields.Rows>, Refusal>
    requires CustomFields.DistinctIds(db.fields)
  {
    if patch.None? then Ok(db.fieldRows)
    else
      match CustomFields.ForUpdate(db.fields, RowsOf(db, t), patch.value)
      case Err(e) => Err(CustomField(e))
      case Ok(rows) => Ok(db.fieldRows[t := rows])
  }

  // ----- The gates shared by all three update paths ----------------------------------------

  predicate HasLinks(db: Db, a: Id) {
    exists l :: l in db.links && l.approval == a
  }

  /** An approval concerns a task through a link row or, when it has no link rows at all,
      through its own `task_id`. */
  predicate Concerns(db: Db, a: Id, t: Id) {
    a in db.approvals && (Link(a, t) in db.links || (db.approvals[a].task == Some(t) && !HasLinks(db, a)))
  }

  predicate HasPendingApproval(db: Db, t: Id) {
    exists a :: a in db.approvals && db.approvals[a].status.Pending? && Concerns(db, a, t)
  }

  predicate HasApprovedApproval(db: Db, t: Id) {
    exists a :: a in db.approvals && db.approvals[a].status.Approved?
                && (db.approvals[a].task == Some(t) || Link(a, t) in db.links)
  }

  function PendingGate(db: Db, t: Id, before: Status, after: Status, requested: bool): Option<Refusal> {
    if requested && before != after && db.flags.blockWithPending && HasPendingApproval(db, t)
    then Some(PendingApproval) else None
  }

  function ReviewGate(db: Db, before: Status, after: Status): Option<Refusal> {
    if !before.Done? && after.Done? && db.flags.requireReview && !before.Review?
    then Some(ReviewRequired) else None
  }

  function ApprovalGate(db: Db, t: Id, before: Status, after: Status): Option<Refusal> {
    if !before.Done? && after.Done? && db.flags.requireApproval && !HasApprovedApproval(db, t)
    then Some(ApprovalRequired) else None
  }

  function Gates(db: Db, t: Id, before: Status, after: Status, requested: bool): Option<Refusal> {
    var pending := PendingGate(db, t, before, after, requested);
    var review := ReviewGate(db, before, after);
    if pending.Some? then pending
    else if review.Some? then review
    else ApprovalGate(db, t, before, after)
  }

  predicate StatusRequested(task: Task, u: TaskUpdate) {
    u.status.Some? && u.status.value != task.status
  }

  // ----- Queries of the event log ----------------------------------------------------------

  function InsertNewest(es: seq<Event>, e: Event): seq<Event> {
    if es == [] || es[0].at <= e.at then [e] + es else [es[0]] + InsertNewest(es[1..], e)
  }

  /** Order by time, newest first. */
  function NewestFirst(es: seq<Event>): seq<Event> {
    if es == [] then [] else InsertNewest(NewestFirst(es[..|es| - 1]), es[|es| - 1])
  }

  function Select(es: seq<Event>, keep: Event -> bool): seq<Event> {
    if es == [] then []
    else
      var last := es[|es| - 1];
      Select(es[..|es| - 1], keep) + (if keep(last) then [last] else [])
  }

  const MOVED_TO_REVIEW := "Task moved to review:"

  function ReviewMove(t: Id): Event -> bool {
    (e: Event) => e.task == t && e.kind.StatusChanged? && MOVED_TO_REVIEW <= e.message && e.agent.Some?
  }

  /** An agent other than the acting lead that is now a worker of this board. */
  predicate CanTakeBack(db: Db, lead: Id, a: Id) {
    a != lead && a in db.agents && db.agents[a].board == Some(db.boardId) && !db.agents[a].isLead
  }

  function FirstTaker(db: Db, lead: Id, candidates: seq<Event>): Option<Id> {
    if candidates == [] then None
    else if candidates[0].agent.Some? && CanTakeBack(db, lead, candidates[0].agent.value)
    then candidates[0].agent
    else FirstTaker(db, lead, candidates[1..])
  }

  function LastReviewer(db: Db, t: Id, lead: Id): Option<Id> {
    FirstTaker(db, lead, NewestFirst(Select(db.events, ReviewMove(t))))
  }

  function CommentBy(t: Id, agent: Id, since: int): Event -> bool {
    (e: Event) => e.task == t && e.kind.TaskComment? && e.agent == Some(agent) && e.at >= since
  }

  predicate HasRecentComment(db: Db, t: Id, agent: Option<Id>, since: Option<int>) {
    && agent.Some? && since.Some?
    && var found := NewestFirst(Select(db.events, CommentBy(t, agent.value, since.value)));
       found != [] && !Text.Blank(found[0].message)
  }

  // ----- Reconciling the dependents of a task that became done or was reopened --------------

  ghost function SortedIds(s: set<Id>): (ids: seq<Id>)
    ensures ToSet(ids) == s
  {
    if s == {} then []
    else
      LeastExists(s);
      var least :| least in s && forall x :: x in s ==> least <= x;
      var rest := SortedIds(s - {least});
      assert forall x :: x in rest <==> x in ToSet(rest);
      assert forall x :: x in [least] + rest <==> x in s;
      [least] + rest
  }

  lemma {:induction false} LeastExists(s: set<Id>)
    requires s != {}
    ensures exists least :: least in s && forall x :: x in s ==> least <= x
  {
    var y :| y in s;
    if s != {y} {
      LeastExists(s - {y});
      var m :| m in s - {y} && forall x :: x in s - {y} ==> m <= x;
      var least := if y < m then y else m;
      assert forall x :: x in s ==> x == y || x in s - {y};
      assert least in s && forall x :: x in s ==> least <= x;
    } else {
      assert y in s && forall x :: x in s ==> y <= x;
    }
  }

  /** The dependents of `d` that reconciliation looks at: finished ones are left alone. */
  function OpenDependents(db: Db, d: Id): set<Id> {
    set e | e in db.edges && e.1 == d && e.0 in db.tasks && !db.tasks[e.0].status.Done? :: e.0
  }

  function ParkTask(task: Task, now: int): Task {
    if Parked(task) then task
    else task.(status := Inbox, assignee := None, inProgressAt := None, updatedAt := now)
  }

  function DependencyEvent(task: Task, t: Id, reopened: bool, title: string, actor: Option<Id>, now: int): Event {
    if reopened && !Parked(task)
    then Event(StatusChanged, "Task returned to inbox: dependency reopened (" + title + ").", actor, t, now)
    else Event(TaskUpdated, "Dependency completion changed: " + title + ".", actor, t, now)
  }

  function DependencyEvents(tasks: map<Id, Task>, ids: seq<Id>, reopened: bool, title: string,
                            actor: Option<Id>, now: int): seq<Event>
    requires forall x :: x in ids ==> x in tasks
  {
    if ids == [] then []
    else
      var t := ids[|ids| - 1];
      DependencyEvents(tasks, ids[..|ids| - 1], reopened, title, actor, now)
      + [DependencyEvent(tasks[t], t, reopened, title, actor, now)]
  }

  ghost function Reconcile(db: Db, d: Id, before: Status, after: Status, title: string,
                           actor: Option<Id>, now: int): Db
  {
    if before.Done? == after.Done? then db
    else
      var dependents := OpenDependents(db, d);
      var ids := SortedIds(dependents);
      assert forall x :: x in ids ==> x in ToSet(ids);
      db.(tasks := map t | t in db.tasks ::
                     if before.Done? && t in dependents then ParkTask(db.tasks[t], now) else db.tasks[t],
          events := db.events + DependencyEvents(db.tasks, ids, before.Done?, title, actor, now))
  }

  function TransitionEvent(t: Id, before: Status, after: Status, title: string, actor: Option<Id>, now: int): Event {
    if before != after
    then Event(StatusChanged, "Task moved to " + StatusText(after) + ": " + title + ".", actor, t, now)
    else Event(TaskUpdated, "Task updated: " + title + ".", actor, t, now)
  }

  /** Log the transition of `t`, then reconcile its dependents. */
  ghost function AfterTransition(db: Db, t: Id, before: Status, after: Status, title: string,
                                 actor: Option<Id>, now: int): Db
  {
    Reconcile(db.(events := db.events + [TransitionEvent(t, before, after, title, actor, now)]),
              t, before, after, title, actor, now)
  }

  // ----- A board lead's update: one commit --------------------------------------------------

  function CheckAssignee(db: Db, assignee: Option<Id>, leadsAllowed: bool): Option<Refusal> {
    if assignee.None? then None
    else if assignee.value !in db.agents then Some(UnknownAgent)
    else
      var agent := db.agents[assignee.value];
      if agent.isLead && !leadsAllowed then Some(AssigneeIsLead)
      else if agent.board.Some? && agent.board.value != db.boardId then Some(AssigneeOnOtherBoard)
      else None
  }

  function LeadStatus(db: Db, lead: Id, t: Id, task: Task, u: TaskUpdate): Result<Task, Refusal> {
    if u.status.None? then Ok(task)
    else
      var target := u.status.value;
      if !task.status.Review? then
        if task.status.Inbox? && target.InProgress? && u.assignee.Some? && u.assignee.value.Some?
        then Ok(task.(status := InProgress))
        else Err(LeadStatusGate)
      else if target.Inbox?
      then Ok(task.(assignee := LastReviewer(db, t, lead), inProgressAt := None, status := Inbox))
      else if target.Done? then Ok(task.(status := Done))
      else Err(LeadTargetGate)
  }

  /** May this lead's update touch the task at all: the board with its new edges, and the tags. */
  ghost function LeadAdmit(db: Db, t: Id, u: TaskUpdate): Result<(Db, Option<seq<Id>>), Refusal> {
    if u.comment.Some? then Err(LeadComment)
    else if u.title.Some? || u.details.Some? then Err(LeadFields)
    else
      var d1 :- ApplyDependencies(db, t, u);
      var tags :- CheckOptionalTags(db, u.tagIds);
      var blockers := BlockersOf(d1, t);
      if blockers != {} && (u.assignee.Some? || u.status.Some?) then Err(BlockedTask(blockers))
      else Ok((d1, tags))
  }

  /** The task as the lead's assignment and then the lead's transition leave it. */
  function LeadChange(db: Db, lead: Id, t: Id, u: TaskUpdate): Result<Task, Refusal>
    requires t in db.tasks
  {
    var task := db.tasks[t];
    var badAssignee := CheckAssignee(db, u.assignee.GetOr(None), false);
    if badAssignee.Some? then Err(badAssignee.value)
    else LeadStatus(db, lead, t, task.(assignee := u.assignee.GetOr(task.assignee)), u)
  }

  /** The rows that a lead's update stores, before the event and the dependents. */
  ghost function LeadStore(db: Db, lead: Id, t: Id, u: TaskUpdate, now: int): (r: Result<Db, Refusal>)
    requires t in db.tasks && CustomFields.DistinctIds(db.fields)
    ensures r.Ok? ==> t in r.value.tasks
  {
    var task := db.tasks[t];
    var (d1, tags) :- LeadAdmit(db, t, u);
    var moved :- LeadChange(db, lead, t, u);
    var gate := Gates(db, t, task.status, moved.status, StatusRequested(task, u));
    if gate.Some? then Err(gate.value)
    else
      var rows :- WithFields(db, t, u.fields);
      Ok(d1.(tags := WithTags(db.tags, t, tags), fieldRows := rows,
             tasks := db.tasks[t := moved.(updatedAt := now)]))
  }

  ghost function LeadUpdate(db: Db, lead: Id, t: Id, u: TaskUpdate, now: int): Result<Db, Refusal>
    requires t in db.tasks && CustomFields.DistinctIds(db.fields)
  {
    var stored :- LeadStore(db, lead, t, u, now);
    Ok(AfterTransition(stored, t, db.tasks[t].status, stored.tasks[t].status, stored.tasks[t].title, Some(lead), now))
  }

  // ----- Users and workers: a first commit and what is left to do after it ------------------

  ghost function BoardLead(db: Db): Option<Id> {
    var leads := SortedIds(set a | a in db.agents && db.agents[a].board == Some(db.boardId) && db.agents[a].isLead);
    if leads == [] then None else Some(leads[0])
  }

  /** The task as users' and workers' updates finally leave it, if every gate lets it pass.
      `prior` is the task before the request and `ruled` the task as the caller's rules left it;
      `status` and `assignee` are the fields to set after those rules. */
  ghost function FinalTask(db: Db, t: Id, prior: Task, ruled: Task, status: Option<Status>,
                           assignee: Option<Option<Id>>, u: TaskUpdate): Result<Task, Refusal>
  {
    var set1 := ruled.(title := u.title.GetOr(ruled.title), details := u.details.GetOr(ruled.details),
                       status := status.GetOr(ruled.status), assignee := assignee.GetOr(ruled.assignee));
    var gate := Gates(db, t, prior.status, set1.status, StatusRequested(prior, u));
    var author := if set1.assignee.Some? then set1.assignee else prior.assignee;
    var since := if set1.previousInProgressAt.Some? then set1.previousInProgressAt else prior.inProgressAt;
    if gate.Some? then Err(gate.value)
    else if status == Some(Review) && db.flags.commentForReview && u.comment.None?
            && !HasRecentComment(db, t, author, since)
    then Err(CommentRequired)
    else
      var lead := BoardLead(db);
      Ok(if set1.status.Review? && !prior.status.Review? && lead.Some? then set1.(assignee := lead) else set1)
  }

  /** The rows of the first commit, and what is left to do after it. */
  ghost function StoreUpdate(db: Db, edges: Edges, t: Id, ruled: Task, status: Option<Status>,
                             assignee: Option<Option<Id>>, tags: Option<seq<Id>>, u: TaskUpdate,
                             actor: Option<Id>, now: int): Result<(Db, Job), Refusal>
    requires t in db.tasks && CustomFields.DistinctIds(db.fields)
  {
    var task :- FinalTask(db, t, db.tasks[t], ruled, status, assignee, u);
    var rows :- WithFields(db, t, u.fields);
    Ok((db.(edges := edges, tags := WithTags(db.tags, t, tags), fieldRows := rows,
            tasks := db.tasks[t := task.(updatedAt := now)]),
        Job(t, db.tasks[t].status, task.status, actor, u.comment)))
  }

  function LeaveWork(task: Task): Task {
    task.(previousInProgressAt := task.inProgressAt, assignee := None, inProgressAt := None)
  }

  ghost function UserUpdate(db: Db, t: Id, u: TaskUpdate, now: int): Result<(Db, Job), Refusal>
    requires t in db.tasks && CustomFields.DistinctIds(db.fields)
  {
    var task := db.tasks[t];
    var tags :- CheckOptionalTags(db, u.tagIds);
    var d1 :- ApplyDependencies(db, t, u);
    var target := u.status.GetOr(task.status);
    // A blocked edit is rewritten, except on a done task that stays done.
    var rewritten := BlockersOf(d1, t) != {} && !(task.status.Done? && target.Done?);
    var status := if rewritten then Some(Inbox) else u.status;
    var assignee := if rewritten then Some(None) else u.assignee;
    var base := if rewritten then task.(status := Inbox, assignee := None, inProgressAt := None) else task;
    var ruled :=
      if status == Some(Inbox) || status == Some(Review) then LeaveWork(base)
      else if status == Some(InProgress) then base.(inProgressAt := Some(now))
      else base;
    var badAssignee := CheckAssignee(db, assignee.GetOr(None), true);
    if badAssignee.Some? then Err(badAssignee.value)
    else StoreUpdate(db, d1.edges, t, ruled, status, assignee, tags, u, None, now)
  }

  ghost function WorkerUpdate(db: Db, a: Id, t: Id, u: TaskUpdate, now: int): Result<(Db, Job), Refusal>
    requires t in db.tasks && a in db.agents && CustomFields.DistinctIds(db.fields)
  {
    var task := db.tasks[t];
    if db.agents[a].board.Some? && db.agents[a].board.value != db.boardId then Err(OtherBoard)
    else if task.assignee.Some? && task.assignee.value != a && u.status.Some? then Err(AssigneeMismatch)
    else if u.dependsOn.Some? || u.tagIds.Some? || u.title.Some? || u.details.Some? || u.assignee.Some?
    then Err(WorkerFields)
    else if u.status.Some? && db.flags.onlyLeadChangesStatus then Err(OnlyLeadChangesStatus)
    else if u.status.Some? && !u.status.value.Inbox? && BlockersOf(db, t) != {}
    then Err(BlockedTask(BlockersOf(db, t)))
    else
      var ruled :=
        if u.status.None? then task
        else
          match u.status.value
          case Inbox => LeaveWork(task)
          case Review => LeaveWork(task)
          case InProgress => task.(assignee := Some(a), inProgressAt := Some(now))
          case Done => task.(assignee := Some(a));
      StoreUpdate(db, db.edges, t, ruled, u.status, None, None, u, Some(a), now)
  }

  /** The task as the request reads it again, by `refresh`; none if it has been deleted, and then
      the request fails. */
  function Reread(db: Db, t: Id): Option<Snapshot> {
    if t in db.tasks then Some(Snapshot(db.tasks[t].status, db.tasks[t].title)) else None
  }

  /** The second commit of an update that carried a comment. */
  function PostComment(db: Db, job: Job, now: int): Db {
    if job.comment.Some? && job.task in db.tasks
    then db.(events := db.events + [Event(TaskComment, job.comment.value, job.actor, job.task, now)])
    else db
  }

  /** The last commit: the event and the dependents, for the transition to the status that was
      `seen`, whoever made it. If the task has been deleted in the meantime the event cannot be
      inserted and nothing happens. */
  ghost function FinishUpdate(db: Db, job: Job, seen: Snapshot, now: int): Db {
    if job.task in db.tasks
    then AfterTransition(db, job.task, job.before, seen.status, seen.title, job.actor, now)
    else db
  }

  // ----- Dispatch ----------------------------------------------------------------------------

  ghost function FirstCommit(db: Db, actor: Actor, t: Id, u: TaskUpdate, now: int): Result<(Db, Option<Job>), Refusal>
    requires CustomFields.DistinctIds(db.fields)
  {
    if t !in db.tasks then Err(NotFound)
    else
      match actor
      case User =>
        var r :- UserUpdate(db, t, u, now);
        Ok((r.0, Some(r.1)))
      case AgentActor(a) =>
        if a !in db.agents then Err(Unauthorized)
        else if db.agents[a].board.Some? && db.agents[a].board.value != db.boardId then Err(OtherBoard)
        else if db.agents[a].isLead then
          var after :- LeadUpdate(db, a, t, u, now);
          Ok((after, None))
        else
          var r :- WorkerUpdate(db, a, t, u, now);
          Ok((r.0, Some(r.1)))
  }

  /** All that follows the first commit, if nothing comes in between. */
  ghost function RestOfUpdate(db: Db, job: Job, now: int): Db {
    match Reread(db, job.task)
    case None => db
    case Some(seen) => FinishUpdate(PostComment(db, job, now), job, seen, now)
  }

  /** A request that nothing interrupts. */
  ghost function UpdateTask(db: Db, actor: Actor, t: Id, u: TaskUpdate, now: int): Result<Db, Refusal>
    requires CustomFields.DistinctIds(db.fields)
  {
    var first :- FirstCommit(db, actor, t, u, now);
    Ok(if first.1.None? then first.0 else RestOfUpdate(first.0, first.1.value, now))
  }

  // ----- Creating and deleting -----------------------------------------------------------------

  /** May this task be created: its dependencies and tags. `lead` is the creating board lead,
      or `None` when a user creates the task. */
  ghost function AdmitTask(db: Db, t: Id, c: TaskCreate, lead: Option<Id>): Result<(set<Id>, seq<Id>), Refusal> {
    if lead.Some? && (lead.value !in db.agents || !db.agents[lead.value].isLead) then Err(Unauthorized)
    else if lead.Some? && db.agents[lead.value].board.Some? && db.agents[lead.value].board.value != db.boardId
    then Err(OtherBoard)
    else
      var deps :- CheckDependencies(db, t, c.dependsOn);
      var tags :- CheckTags(db, c.tagIds);
      var blockers := set d | d in deps && !IsDone(db, d);
      if blockers != {} && (c.assignee.Some? || !c.status.Inbox?) then Err(BlockedTask(blockers))
      else
        var badAssignee := if lead.Some? then CheckAssignee(db, c.assignee, false) else None;
        if badAssignee.Some? then Err(badAssignee.value)
        else if t in db.tasks || (c.assignee.Some? && c.assignee.value !in db.agents) then Err(ForeignKey)
        else Ok((deps, tags))
  }

  function CreatedEvent(t: Id, title: string, lead: Option<Id>, now: int): Event {
    Event(TaskCreated, (if lead.Some? then "Task created by lead: " else "Task created: ") + title + ".", lead, t, now)
  }

  /** The first commit of a creation: the rows of the new task. */
  ghost function StoreTask(db: Db, t: Id, c: TaskCreate, lead: Option<Id>, now: int): Result<Db, Refusal>
    requires CustomFields.DistinctIds(db.fields)
  {
    var (deps, tags) :- AdmitTask(db, t, c, lead);
    match CustomFields.ForCreate(db.fields, c.fields)
    case Err(e) => Err(CustomField(e))
    case Ok(rows) =>
      Ok(db.(tasks := db.tasks[t := Task(c.title, c.details, c.status, c.assignee, None, None, now)],
             edges := WithDependencies(db.edges, t, deps),
             tags := db.tags[t := tags],
             fieldRows := db.fieldRows[t := rows]))
  }

  /** The second commit: the event, with the title read again. */
  function AnnounceTask(db: Db, t: Id, lead: Option<Id>, now: int): Db {
    match Reread(db, t)
    case None => db
    case Some(seen) => db.(events := db.events + [CreatedEvent(t, seen.title, lead, now)])
  }

  /** A creation that nothing interrupts. */
  ghost function CreateTask(db: Db, t: Id, c: TaskCreate, lead: Option<Id>, now: int): Result<Db, Refusal>
    requires CustomFields.DistinctIds(db.fields)
  {
    var stored :- StoreTask(db, t, c, lead, now);
    Ok(AnnounceTask(stored, t, lead, now))
  }

  function LinkedTasks(links: seq<Link>, a: Id): seq<Id> {
    if links == [] then []
    else
      var last := links[|links| - 1];
      LinkedTasks(links[..|links| - 1], a) + (if last.approval == a then [last.task] else [])
  }

  function LinksWithout(links: seq<Link>, t: Id): seq<Link> {
    if links == [] then []
    else
      var last := links[|links| - 1];
      LinksWithout(links[..|links| - 1], t) + (if last.task == t then [] else [last])
  }

  /** An approval whose primary task goes away moves on to its first remaining link, or goes too. */
  function ApprovalsWithout(approvals: map<Id, Approval>, links: seq<Link>, t: Id): map<Id, Approval> {
    map a | a in approvals && (approvals[a].task != Some(t) || LinkedTasks(links, a) != []) ::
      if approvals[a].task == Some(t) then approvals[a].(task := Some(LinkedTasks(links, a)[0])) else approvals[a]
  }

  function NotAbout(t: Id): Event -> bool {
    (e: Event) => e.task != t
  }

  function DeleteTask(db: Db, t: Id): Db {
    var links := LinksWithout(db.links, t);
    db.(events := Select(db.events, NotAbout(t)),
        fingerprints := (set f | f in db.fingerprints && f.1 != t),
        links := links,
        approvals := ApprovalsWithout(db.approvals, links, t),
        edges := (set e | e in db.edges && e.0 != t && e.1 != t),
        tags := db.tags - {t},
        fieldRows := db.fieldRows - {t},
        tasks := db.tasks - {t})
  }
}
