/** One board's rows as the task, dependency and approval endpoints see them. */
module BoardModel {
  import opened Wrappers
  import opened DependencyGraph
  import CustomFields

  datatype Status = Inbox | InProgress | Review | Done

  datatype Task = Task(
    title: string, details: string, status: Status, assignee: Option<Id>,
    inProgressAt: Option<int>, previousInProgressAt: Option<int>, updatedAt: int)

  datatype Agent = Agent(board: Option<Id>, isLead: bool)

  datatype Flags = Flags(
    requireApproval: bool, requireReview: bool, commentForReview: bool,
    blockWithPending: bool, onlyLeadChangesStatus: bool)

  datatype ApprovalStatus = Pending | Approved | Rejected
  datatype Approval = Approval(task: Option<Id>, status: ApprovalStatus, createdAt: int, resolvedAt: Option<int>)
  datatype Link = Link(approval: Id, task: Id)

  datatype EventKind = TaskCreated | TaskUpdated | StatusChanged | TaskComment
  datatype Event = Event(kind: EventKind, message: string, agent: Option<Id>, task: Id, at: int)

  /** Everything the endpoints read or write. `links` and `events` are in insertion order. */
  datatype Db = Db(
    boardId: Id, flags: Flags, agents: map<Id, Agent>,
    orgTags: set<Id>, fields: CustomFields.Definitions,
    tasks: map<Id, Task>, edges: Edges, tags: map<Id, seq<Id>>,
    fieldRows: map<Id, CustomFields.Rows>, fingerprints: set<(Id, Id)>,
    approvals: map<Id, Approval>, links: seq<Link>, events: seq<Event>)

  /** The fields present in a PATCH payload; absent ones are `None`. An assignee of
      `Some(None)` asks for no assignee. A comment is never blank (the payload schema
      turns a blank one into an absent one). */
  datatype TaskUpdate = TaskUpdate(
    title: Option<string>, details: Option<string>, status: Option<Status>,
    assignee: Option<Option<Id>>, comment: Option<string>, dependsOn: Option<seq<Id>>,
    tagIds: Option<seq<Id>>, fields: Option<CustomFields.Patch>)

  datatype TaskCreate = TaskCreate(
    title: string, details: string, status: Status, assignee: Option<Id>,
    dependsOn: seq<Id>, tagIds: seq<Id>, fields: CustomFields.Patch)

  /** What a user's or worker's update still has to do after its first commit, which found the
      task in status `before` and stored it in status `after`. */
  datatype Job = Job(task: Id, before: Status, after: Status, actor: Option<Id>, comment: Option<string>)

  /** What such an update finds when it reads the task again after its first commit. */
  datatype Snapshot = Snapshot(status: Status, title: string)

  datatype Actor = User | AgentActor(id: Id)

  datatype Refusal =
    | NotFound | Unauthorized | OtherBoard
    | DoneDependencies | SelfDependency | MissingDependencies(ids: set<Id>) | DependencyCycle
    | UnknownTags(ids: set<Id>) | BlockedTask(ids: set<Id>) | CustomField(error: CustomFields.FieldError)
    | UnknownAgent | AssigneeIsLead | AssigneeOnOtherBoard
    | LeadComment | LeadFields | LeadStatusGate | LeadTargetGate
    | AssigneeMismatch | WorkerFields | OnlyLeadChangesStatus
    | PendingApproval | ReviewRequired | ApprovalRequired | CommentRequired
    | PendingConflict(tasks: set<Id>) | ForeignKey

  function StatusText(s: Status): string {
    match s
    case Inbox => "inbox"
    case InProgress => "in_progress"
    case Review => "review"
    case Done => "done"
  }

  predicate IsDone(db: Db, t: Id) {
    t in db.tasks && db.tasks[t].status.Done?
  }

  function DependenciesOf(db: Db, t: Id): set<Id> {
    set e | e in db.edges && e.0 == t :: e.1
  }

  /** A task's unfinished dependencies. */
  function BlockersOf(db: Db, t: Id): set<Id> {
    set e | e in db.edges && e.0 == t && !IsDone(db, e.1) :: e.1
  }

  /** Out of the way: in the inbox, with nobody assigned and no start time. */
  predicate Parked(t: Task) {
    t.status.Inbox? && t.assignee.None? && t.inProgressAt.None?
  }

  function RowsOf(db: Db, t: Id): CustomFields.Rows {
    if t in db.fieldRows then db.fieldRows[t] else map[]
  }

  /** Facts that the database schema itself maintains. */
  ghost predicate WellFormed(db: Db) {
    && (forall e :: e in db.edges ==> e.0 in db.tasks && e.1 in db.tasks && e.0 != e.1)
    && CustomFields.DistinctIds(db.fields)
  }

  /** Keep the first occurrence of every element. */
  function Dedupe(ids: seq<Id>): seq<Id> {
    if ids == [] then []
    else
      var front := Dedupe(ids[..|ids| - 1]);
      if ids[|ids| - 1] in front then front else front + [ids[|ids| - 1]]
  }

  lemma {:induction false} DedupeKeepsElements(ids: seq<Id>)
    ensures forall x :: x in Dedupe(ids) <==> x in ids
    ensures forall i, j :: 0 <= i < j < |Dedupe(ids)| ==> Dedupe(ids)[i] != Dedupe(ids)[j]
  {
    if ids != [] {
      var last := ids[|ids| - 1];
      DedupeKeepsElements(ids[..|ids| - 1]);
      assert ids == ids[..|ids| - 1] + [last];
    }
  }
}
