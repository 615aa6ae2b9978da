/** Creating and resolving approvals: at most one pending approval for each task. */
module ApprovalRules {
  import opened Wrappers
  import opened DependencyGraph
  import opened BoardModel
  import opened TaskRules

  predicate MayConflict(db: Db, a: Id, exclude: Option<Id>) {
    a in db.approvals && db.approvals[a].status.Pending? && Some(a) != exclude
  }

  /** The query over link rows: a requested task and a pending approval linked to it. */
  function LinkedConflicts(db: Db, ids: seq<Id>, exclude: Option<Id>): set<(Id, Id)> {
    set l | l in db.links && l.task in ids && MayConflict(db, l.approval, exclude) :: (l.task, l.approval)
  }

  /** The query over the approvals' own `task_id`, for pending approvals without any link row. */
  function LegacyConflicts(db: Db, ids: seq<Id>, exclude: Option<Id>): set<(Id, Id)> {
    set a | a in db.approvals && MayConflict(db, a, exclude) && db.approvals[a].task.Some?
            && db.approvals[a].task.value in ids && !HasLinks(db, a) :: (db.approvals[a].task.value, a)
  }

  /** The requested tasks for which one of the two queries finds an approval. */
  function Conflicts(db: Db, ids: seq<Id>, exclude: Option<Id>): set<Id> {
    set r | r in LinkedConflicts(db, ids, exclude) + LegacyConflicts(db, ids, exclude) :: r.0
  }

  function LinksOfOthers(links: seq<Link>, a: Id): seq<Link> {
    if links == [] then []
    else
      var last := links[|links| - 1];
      LinksOfOthers(links[..|links| - 1], a) + (if last.approval == a then [] else [last])
  }

  function LinkRows(a: Id, ids: seq<Id>): seq<Link> {
    seq(|ids|, i requires 0 <= i < |ids| => Link(a, ids[i]))
  }

  function AdmitApproval(db: Db, a: Id, ids: seq<Id>, status: ApprovalStatus): Option<Refusal> {
    var conflicts := if status.Pending? then Conflicts(db, ids, None) else {};
    if conflicts != {} then Some(PendingConflict(conflicts))
    else if a in db.approvals || exists t :: t in ids && t !in db.tasks then Some(ForeignKey)
    else None
  }

  /** `requested` merges the explicit task ids with those found in the payload. */
  function CreateApproval(db: Db, a: Id, requested: seq<Id>, status: ApprovalStatus, now: int): Result<Db, Refusal> {
    var ids := Dedupe(requested);
    var refusal := AdmitApproval(db, a, ids, status);
    if refusal.Some? then Err(refusal.value)
    else
      var primary := if ids == [] then None else Some(ids[0]);
      Ok(db.(approvals := db.approvals[a := Approval(primary, status, now, None)],
             links := LinksOfOthers(db.links, a) + LinkRows(a, ids)))
  }

  /** The tasks of an approval: its links, or its legacy `task_id` when it has none. */
  function TasksOf(db: Db, a: Id): seq<Id>
    requires a in db.approvals
  {
    var linked := LinkedTasks(db.links, a);
    if linked != [] then linked
    else if db.approvals[a].task.Some? then [db.approvals[a].task.value]
    else []
  }

  function UpdateApproval(db: Db, a: Id, status: Option<ApprovalStatus>, now: int): Result<Db, Refusal> {
    if a !in db.approvals then Err(NotFound)
    else if status.None? then Ok(db)
    else
      var prior := db.approvals[a];
      var conflicts :=
        if status.value.Pending? && !prior.status.Pending? then Conflicts(db, TasksOf(db, a), Some(a)) else {};
      if conflicts != {} then Err(PendingConflict(conflicts))
      else
        var resolvedAt := if status.value.Pending? then prior.resolvedAt else Some(now);
        Ok(db.(approvals := db.approvals[a := prior.(status := status.value, resolvedAt := resolvedAt)]))
  }

  // ----- What every run keeps ----------------------------------------------------------------

  /** Rows refer to rows that exist, and an approval with links has its primary task among them. */
  ghost predicate LinksConsistent(db: Db) {
    && (forall l :: l in db.links ==> l.approval in db.approvals && l.task in db.tasks)
    && (forall a :: a in db.approvals && db.approvals[a].task.Some? ==> db.approvals[a].task.value in db.tasks)
    && (forall a :: a in db.approvals && HasLinks(db, a) ==>
          db.approvals[a].task.Some? && Link(a, db.approvals[a].task.value) in db.links)
  }

  predicate PendingFor(db: Db, a: Id, t: Id) {
    Concerns(db, a, t) && db.approvals[a].status.Pending?
  }

  ghost predicate AtMostOnePending(db: Db) {
    forall a, b, t :: PendingFor(db, a, t) && PendingFor(db, b, t) ==> a == b
  }

  lemma {:induction false} LinkedTasksAre(links: seq<Link>, a: Id)
    ensures forall t :: t in LinkedTasks(links, a) <==> Link(a, t) in links
  {
    if links != [] {
      LinkedTasksAre(links[..|links| - 1], a);
      assert links == links[..|links| - 1] + [links[|links| - 1]];
    }
  }

  lemma {:induction false} LinksOfOthersAre(links: seq<Link>, a: Id)
    ensures forall l :: l in LinksOfOthers(links, a) <==> l in links && l.approval != a
  {
    if links != [] {
      LinksOfOthersAre(links[..|links| - 1], a);
      assert links == links[..|links| - 1] + [links[|links| - 1]];
    }
  }

  lemma {:induction false} LinksWithoutAre(links: seq<Link>, t: Id)
    ensures forall l :: l in LinksWithout(links, t) <==> l in links && l.task != t
  {
    if links != [] {
      LinksWithoutAre(links[..|links| - 1], t);
      assert links == links[..|links| - 1] + [links[|links| - 1]];
    }
  }

  lemma LinkRowsAre(a: Id, ids: seq<Id>)
    ensures forall l :: l in LinkRows(a, ids) <==> l.approval == a && l.task in ids
  {
    forall l: Link | l.approval == a && l.task in ids ensures l in LinkRows(a, ids) {
      var i :| 0 <= i < |ids| && ids[i] == l.task;
      assert LinkRows(a, ids)[i] == l;
    }
  }

  /** `TasksOf` lists exactly the tasks that the approval concerns. */
  lemma TasksOfAreConcerned(db: Db, a: Id)
    requires a in db.approvals
    ensures forall t :: t in TasksOf(db, a) <==> Concerns(db, a, t)
  {
    LinkedTasksAre(db.links, a);
    if LinkedTasks(db.links, a) != [] {
      assert Link(a, LinkedTasks(db.links, a)[0]) in db.links;
    } else {
      forall l | l in db.links ensures l.approval != a {
        assert l == Link(l.approval, l.task);
      }
    }
  }

  /** The two queries together find exactly the requested tasks that some other pending approval
      concerns, and no approval is found by both. */
  lemma ConflictsAreExact(db: Db, ids: seq<Id>, exclude: Option<Id>)
    ensures forall t :: t in Conflicts(db, ids, exclude)
                        <==> t in ids && exists a: Id :: PendingFor(db, a, t) && Some(a) != exclude
    ensures forall r: (Id, Id), r': (Id, Id) ::
              r in LinkedConflicts(db, ids, exclude) && r' in LegacyConflicts(db, ids, exclude) ==> r.1 != r'.1
  {
    var linked, legacy := LinkedConflicts(db, ids, exclude), LegacyConflicts(db, ids, exclude);
    forall t
      ensures t in Conflicts(db, ids, exclude)
              <==> t in ids && exists a: Id :: PendingFor(db, a, t) && Some(a) != exclude
    {
      if t in Conflicts(db, ids, exclude) {
        var r: (Id, Id) :| r in linked + legacy && r.0 == t;
        assert r in linked ==> Link(r.1, r.0) in db.links;
        assert PendingFor(db, r.1, t);
      }
      if a: Id :| t in ids && PendingFor(db, a, t) && Some(a) != exclude {
        ConflictFound(db, ids, exclude, a, t);
      }
    }
  }

  lemma ConflictFound(db: Db, ids: seq<Id>, exclude: Option<Id>, b: Id, t: Id)
    requires t in ids && PendingFor(db, b, t) && Some(b) != exclude
    ensures t in Conflicts(db, ids, exclude)
  {
    if Link(b, t) in db.links {
      assert (t, b) in LinkedConflicts(db, ids, exclude);
    } else {
      assert (t, b) in LegacyConflicts(db, ids, exclude);
    }
    assert (t, b).0 in Conflicts(db, ids, exclude);
  }

  /** An admitted approval is new and its tasks exist. */
  lemma AdmittedApproval(db: Db, a: Id, ids: seq<Id>, status: ApprovalStatus)
    requires AdmitApproval(db, a, ids, status).None?
    ensures a !in db.approvals && forall t :: t in ids ==> t in db.tasks
    ensures status.Pending? ==> Conflicts(db, ids, None) == {}
  {
  }

  lemma CreatedLinks(db: Db, a: Id, requested: seq<Id>)
    requires LinksConsistent(db) && a !in db.approvals
    ensures forall l :: l in LinksOfOthers(db.links, a) + LinkRows(a, Dedupe(requested))
                        <==> l in db.links || (l.approval == a && l.task in requested)
  {
    DedupeKeepsElements(requested);
    LinksOfOthersAre(db.links, a);
    LinkRowsAre(a, Dedupe(requested));
  }

  lemma CreateApprovalConcerns(db: Db, a: Id, requested: seq<Id>, status: ApprovalStatus, now: int)
    requires LinksConsistent(db) && CreateApproval(db, a, requested, status, now).Ok?
    ensures var after := CreateApproval(db, a, requested, status, now).value;
            && (forall t :: Concerns(after, a, t) <==> t in requested)
            && (forall b, t :: b != a ==> (Concerns(after, b, t) <==> Concerns(db, b, t)))
            && LinksConsistent(after)
  {
    var after := CreateApproval(db, a, requested, status, now).value;
    var ids := Dedupe(requested);
    AdmittedApproval(db, a, ids, status);
    CreatedLinks(db, a, requested);
    DedupeKeepsElements(requested);
    forall b | b != a ensures HasLinks(after, b) <==> HasLinks(db, b) {
    }
    if ids != [] {
      assert ids[0] in requested;
      assert Link(a, ids[0]) in after.links;
    }
  }

  lemma CreateApprovalKeepsOnePending(db: Db, a: Id, requested: seq<Id>, status: ApprovalStatus, now: int)
    requires LinksConsistent(db) && AtMostOnePending(db) && CreateApproval(db, a, requested, status, now).Ok?
    ensures AtMostOnePending(CreateApproval(db, a, requested, status, now).value)
  {
    var after := CreateApproval(db, a, requested, status, now).value;
    CreateApprovalConcerns(db, a, requested, status, now);
    AdmittedApproval(db, a, Dedupe(requested), status);
    DedupeKeepsElements(requested);
    forall b, t | PendingFor(after, a, t) && PendingFor(after, b, t) ensures b == a {
      if b != a {
        ConflictFound(db, Dedupe(requested), None, b, t);
      }
    }
    forall b, c, t | PendingFor(after, b, t) && PendingFor(after, c, t) ensures b == c {
      if b != a && c != a {
        assert PendingFor(db, b, t) && PendingFor(db, c, t);
      }
    }
  }

  lemma UpdateApprovalKeepsOnePending(db: Db, a: Id, status: Option<ApprovalStatus>, now: int)
    requires LinksConsistent(db) && AtMostOnePending(db) && UpdateApproval(db, a, status, now).Ok?
    ensures var after := UpdateApproval(db, a, status, now).value;
            LinksConsistent(after) && AtMostOnePending(after)
  {
    var after := UpdateApproval(db, a, status, now).value;
    forall b, t ensures Concerns(after, b, t) <==> Concerns(db, b, t) {
      assert HasLinks(after, b) <==> HasLinks(db, b);
    }
    TasksOfAreConcerned(db, a);
    forall b, t | PendingFor(after, a, t) && PendingFor(after, b, t) ensures b == a {
      assert db.approvals[a].status.Pending? ==> PendingFor(db, a, t);
      assert b != a ==> PendingFor(db, b, t);
      if b != a && !db.approvals[a].status.Pending? {
        ConflictFound(db, TasksOf(db, a), Some(a), b, t);
      }
    }
    forall b, c, t | PendingFor(after, b, t) && PendingFor(after, c, t) ensures b == c {
      if b != a && c != a {
        assert PendingFor(db, b, t) && PendingFor(db, c, t);
      }
    }
  }

  lemma DeletedLinks(db: Db, t: Id, a: Id)
    ensures var after := DeleteTask(db, t);
            && (forall x :: Link(a, x) in after.links <==> Link(a, x) in db.links && x != t)
            && (HasLinks(after, a) <==> LinkedTasks(after.links, a) != [])
            && (HasLinks(after, a) ==> Link(a, LinkedTasks(after.links, a)[0]) in after.links)
  {
    var after := DeleteTask(db, t);
    LinksWithoutAre(db.links, t);
    LinkedTasksAre(after.links, a);
    if LinkedTasks(after.links, a) != [] {
      assert Link(a, LinkedTasks(after.links, a)[0]) in after.links;
    } else {
      forall l | l in after.links ensures l.approval != a {
        assert l == Link(l.approval, l.task);
      }
    }
  }

  /** What becomes of one approval when a task is deleted. */
  lemma DeletedApproval(db: Db, t: Id, a: Id)
    requires LinksConsistent(db)
    ensures var after := DeleteTask(db, t);
            && (a in after.approvals <==> a in db.approvals && (db.approvals[a].task != Some(t) || HasLinks(after, a)))
            && (a in after.approvals ==>
                  && after.approvals[a].status == db.approvals[a].status
                  && (db.approvals[a].task != Some(t) ==> after.approvals[a] == db.approvals[a])
                  && after.approvals[a].task != Some(t))
            && (a in after.approvals && HasLinks(after, a) ==>
                  after.approvals[a].task.Some? && Link(a, after.approvals[a].task.value) in after.links)
  {
    var after := DeleteTask(db, t);
    DeletedLinks(db, t, a);
    if a in after.approvals && HasLinks(after, a) {
      var l :| l in after.links && l.approval == a;
      LinksWithoutAre(db.links, t);
      assert HasLinks(db, a);
    }
  }

  /** Deleting a task never makes an approval concern a task that it did not concern before:
      an approval that loses its last link had the deleted task as its primary and goes too. */
  lemma DeleteTaskConcerns(db: Db, t: Id, a: Id, x: Id)
    requires LinksConsistent(db)
    ensures Concerns(DeleteTask(db, t), a, x) <==> Concerns(db, a, x) && x != t
  {
    var after := DeleteTask(db, t);
    DeletedLinks(db, t, a);
    DeletedApproval(db, t, a);
    LinksWithoutAre(db.links, t);
    if a in db.approvals && HasLinks(db, a) {
      assert Link(a, db.approvals[a].task.value) in db.links;
    }
    if l :| l in after.links && l.approval == a {
      assert HasLinks(db, a);
    }
  }

  lemma DeleteTaskKeepsOnePending(db: Db, t: Id)
    requires LinksConsistent(db) && AtMostOnePending(db)
    ensures LinksConsistent(DeleteTask(db, t)) && AtMostOnePending(DeleteTask(db, t))
  {
    var after := DeleteTask(db, t);
    forall a, b, x | PendingFor(after, a, x) && PendingFor(after, b, x) ensures a == b {
      DeleteTaskConcerns(db, t, a, x);
      DeleteTaskConcerns(db, t, b, x);
      DeletedApproval(db, t, a);
      DeletedApproval(db, t, b);
      assert PendingFor(db, a, x) && PendingFor(db, b, x);
    }
    DeleteKeepsLinksConsistent(db, t);
  }

  lemma DeleteKeepsLinksConsistent(db: Db, t: Id)
    requires LinksConsistent(db)
    ensures LinksConsistent(DeleteTask(db, t))
  {
    var after := DeleteTask(db, t);
    LinksWithoutAre(db.links, t);
    forall l | l in after.links ensures l.approval in after.approvals && l.task in after.tasks {
      DeletedApproval(db, t, l.approval);
      assert HasLinks(after, l.approval);
    }
    forall a | a in after.approvals
      ensures after.approvals[a].task.Some? ==> after.approvals[a].task.value in after.tasks
      ensures HasLinks(after, a) ==>
                after.approvals[a].task.Some? && Link(a, after.approvals[a].task.value) in after.links
    {
      DeletedApproval(db, t, a);
      DeletedLinks(db, t, a);
    }
  }
}
