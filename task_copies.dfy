/**
 * The two operations of services/handlers/taskHandler.js that copy a task tree, as
 * functions on the store: `cloneTask` copies every node of a subtree for the acting
 * user, and `processTaskRecurrence` creates the next occurrence of a recurring task,
 * copies its Assignment and Subscription rows onto it and recurses into the subtasks
 * with the occurrence as their parent. Both visit the subtree the first lookup
 * returned, each node before its subtasks, subtasks in listing order.
 */
module TaskCopies {
  import opened Wrappers
  import opened Errors
  import opened Dates
  import opened Recurrence
  import opened Model
  import opened Forest
  import opened Repository

  /** The number of nodes of a tree. */
  function Size(tree: TaskTree): nat
    decreases tree, 1
  {
    1 + SizeKids(tree, |tree.subTasks|)
  }

  /** The number of nodes below the first n subtasks. */
  function SizeKids(tree: TaskTree, n: nat): nat
    requires n <= |tree.subTasks|
    decreases tree, 0, n
  {
    if n == 0 then 0 else SizeKids(tree, n - 1) + Size(tree.subTasks[n - 1])
  }

  /** Every row of db is still in db', unchanged. */
  ghost predicate KeepsRows(db: Db, db': Db) {
    forall id :: id in db.tasks ==> id in db'.tasks && db'.tasks[id] == db.tasks[id]
  }

  /** Every stored id was handed out before the generator's current state, so the
      next minted id is free. */
  ghost predicate IdsIssued(db: Db) {
    forall id :: id in db.tasks ==> IssuedBefore(id, db.nextSerial)
  }

  /** The parent id is stored, or there is none, so `createTask` succeeds. */
  predicate ParentStored(db: Db, parentId: Option<TaskId>) {
    OrNull(parentId).Some? ==> OrNull(parentId).value in db.tasks
  }

  // ---- cloneTask ----

  /** The row `createTask(actor, t.title, t.description, t.deadline, parentId)` stores as
      the n-th task: nothing of t but its title, description and deadline. */
  function CloneRow(n: nat, t: Task, actor: UserId, parentId: Option<TaskId>): Task {
    Task(MintId(n), t.title, t.description, t.deadline, Open, false, actor, OrNull(parentId), None, None, None, None, None)
  }

  /** The copy `cloneTask` makes of tree under parentId when the generator stands at n:
      the root's copy first, then the copies of the subtasks in order, each hung under
      the root's copy. */
  function CloneCopy(tree: TaskTree, actor: UserId, parentId: Option<TaskId>, n: nat): TaskTree
    decreases tree, 1
  {
    var row := CloneRow(n, tree.task, actor, parentId);
    Node(row, CopyKids(tree, actor, row.id, n + 1, |tree.subTasks|))
  }

  /** The copies of the first m subtasks, the first one made when the generator stands
      at n. */
  function CopyKids(tree: TaskTree, actor: UserId, pid: TaskId, n: nat, m: nat): (r: seq<TaskTree>)
    requires m <= |tree.subTasks|
    ensures |r| == m
    decreases tree, 0, m
  {
    if m == 0 then []
    else CopyKids(tree, actor, pid, n, m - 1) + [CloneCopy(tree.subTasks[m - 1], actor, Some(pid), n + SizeKids(tree, m - 1))]
  }

  /** The store after `cloneTask` copied tree under parentId. Creating the copy of the
      root fails when parentId names no stored task, and then nothing is stored. */
  function Clone(db: Db, tree: TaskTree, actor: UserId, parentId: Option<TaskId>): (r: Db)
    ensures r.assignments == db.assignments && r.subscriptions == db.subscriptions
    ensures r.applications == db.applications && r.invitations == db.invitations
    ensures r.users == db.users && r.emails == db.emails && r.completions == db.completions
    ensures !ParentStored(db, parentId) ==> r == db
    decreases tree, 1
  {
    if !ParentStored(db, parentId) then db
    else
      var row := CloneRow(db.nextSerial, tree.task, actor, parentId);
      CloneKids(Inserted(db, row), tree, actor, row.id, |tree.subTasks|)
  }

  /** The state after copying the first n subtasks of tree under the copy pid. */
  function CloneKids(db: Db, tree: TaskTree, actor: UserId, pid: TaskId, n: nat): (r: Db)
    requires n <= |tree.subTasks|
    ensures r.assignments == db.assignments && r.subscriptions == db.subscriptions
    ensures r.applications == db.applications && r.invitations == db.invitations
    ensures r.users == db.users && r.emails == db.emails && r.completions == db.completions
    decreases tree, 0, n
  {
    if n == 0 then db
    else Clone(CloneKids(db, tree, actor, pid, n - 1), tree.subTasks[n - 1], actor, Some(pid))
  }

  /** Cloning only adds rows, under ids the generator had not handed out, and takes
      one id per node of the tree. */
  lemma {:induction false} CloneKeepsRows(db: Db, tree: TaskTree, actor: UserId, parentId: Option<TaskId>)
    requires IdsIssued(db)
    ensures var r := Clone(db, tree, actor, parentId);
      && KeepsRows(db, r) && IdsIssued(r)
      && (ParentStored(db, parentId) ==> r.nextSerial == db.nextSerial + Size(tree))
    decreases tree, 1
  {
    if ParentStored(db, parentId) {
      var row := CloneRow(db.nextSerial, tree.task, actor, parentId);
      CloneKidsKeepsRows(Inserted(db, row), tree, actor, row.id, |tree.subTasks|);
    }
  }

  lemma {:induction false} CloneKidsKeepsRows(db: Db, tree: TaskTree, actor: UserId, pid: TaskId, n: nat)
    requires IdsIssued(db) && n <= |tree.subTasks| && pid in db.tasks
    ensures var r := CloneKids(db, tree, actor, pid, n);
      KeepsRows(db, r) && IdsIssued(r) && r.nextSerial == db.nextSerial + SizeKids(tree, n)
    decreases tree, 0, n
  {
    if n > 0 {
      CloneKidsKeepsRows(db, tree, actor, pid, n - 1);
      CloneKeepsRows(CloneKids(db, tree, actor, pid, n - 1), tree.subTasks[n - 1], actor, Some(pid));
    }
  }

  /** Under a parent id that names no stored task no copy is made, however many
      subtasks are cloned. */
  lemma {:induction false} CloneKidsOrphan(db: Db, tree: TaskTree, actor: UserId, pid: TaskId, n: nat)
    requires n <= |tree.subTasks| && pid != [] && pid !in db.tasks
    ensures CloneKids(db, tree, actor, pid, n) == db
  {
    if n > 0 {
      CloneKidsOrphan(db, tree, actor, pid, n - 1);
    }
  }

  /** When the copy of subtask i fails, pid was never stored, so the state after it is
      already the state after all subtasks. */
  lemma CloneChildFailed(db: Db, tree: TaskTree, actor: UserId, pid: TaskId, i: nat)
    requires i < |tree.subTasks|
    requires !ParentStored(CloneKids(db, tree, actor, pid, i), Some(pid))
    requires pid in db.tasks ==> pid in CloneKids(db, tree, actor, pid, i).tasks
    ensures pid !in db.tasks
    ensures CloneKids(db, tree, actor, pid, |tree.subTasks|) == Clone(CloneKids(db, tree, actor, pid, i), tree.subTasks[i], actor, Some(pid))
  {
    CloneKidsOrphan(db, tree, actor, pid, i + 1);
    CloneKidsOrphan(db, tree, actor, pid, |tree.subTasks|);
  }

  /** Cloning a subtask below a stored task keeps that task stored. */
  lemma CloneKeepsParent(db: Db, kid: TaskTree, actor: UserId, pid: TaskId)
    requires WellFormed(db) && pid in db.tasks
    ensures pid in Clone(db, kid, actor, Some(pid)).tasks
  {
    assert IdsIssued(db);
    CloneKeepsRows(db, kid, actor, Some(pid));
  }

  /** copy has tree's shape; each node carries the title, description and deadline of
      its original, is created by actor, is open, private and without completion or
      recurrence, and the copies of its subtasks point to it as their parent. */
  predicate Mirrors(copy: TaskTree, tree: TaskTree, actor: UserId)
    decreases tree
  {
    && copy.task.title == tree.task.title
    && copy.task.description == tree.task.description
    && copy.task.deadline == tree.task.deadline
    && copy.task.creatorId == actor
    && copy.task.status == Open && !copy.task.isPublic
    && copy.task.completedById.None? && copy.task.completedAt.None?
    && copy.task.recurrenceType.None? && copy.task.recurrenceExpiresAt.None? && copy.task.recurrences.None?
    && |copy.subTasks| == |tree.subTasks|
    && forall k :: 0 <= k < |tree.subTasks| ==>
         copy.subTasks[k].task.parentTaskId == Some(copy.task.id) && Mirrors(copy.subTasks[k], tree.subTasks[k], actor)
  }

  /** The copy is a mirror image of the tree, hung under parentId. */
  lemma {:induction false} CloneMirrors(tree: TaskTree, actor: UserId, parentId: Option<TaskId>, n: nat)
    ensures Mirrors(CloneCopy(tree, actor, parentId, n), tree, actor)
    ensures CloneCopy(tree, actor, parentId, n).task.parentTaskId == OrNull(parentId)
    decreases tree, 1
  {
    var row := CloneRow(n, tree.task, actor, parentId);
    CopyKidsMirror(tree, actor, row.id, n + 1, |tree.subTasks|);
  }

  /** The copies of the first m subtasks mirror them and point to pid. */
  lemma {:induction false} CopyKidsMirror(tree: TaskTree, actor: UserId, pid: TaskId, n: nat, m: nat)
    requires m <= |tree.subTasks| && pid != []
    ensures forall k :: 0 <= k < m ==>
      CopyKids(tree, actor, pid, n, m)[k].task.parentTaskId == Some(pid)
      && Mirrors(CopyKids(tree, actor, pid, n, m)[k], tree.subTasks[k], actor)
    decreases tree, 0, m
  {
    if m > 0 {
      var before := CopyKids(tree, actor, pid, n, m - 1);
      var last := CloneCopy(tree.subTasks[m - 1], actor, Some(pid), n + SizeKids(tree, m - 1));
      var all := CopyKids(tree, actor, pid, n, m);
      assert all == before + [last];
      CopyKidsMirror(tree, actor, pid, n, m - 1);
      CloneMirrors(tree.subTasks[m - 1], actor, Some(pid), n + SizeKids(tree, m - 1));
      forall k | 0 <= k < m
        ensures all[k].task.parentTaskId == Some(pid) && Mirrors(all[k], tree.subTasks[k], actor)
      {
        if k < m - 1 {
          assert all[k] == before[k];
        } else {
          assert all[k] == last;
        }
      }
    }
  }

  /** Every node of the copy is a row of the store, under an id at or above `from`
      that the generator had not handed out before. */
  ghost predicate StoredFrom(db: Db, copy: TaskTree, from: nat)
    decreases copy
  {
    && copy.task.id in db.tasks && db.tasks[copy.task.id] == copy.task
    && (exists n :: from <= n < db.nextSerial && copy.task.id == MintId(n))
    && forall k :: 0 <= k < |copy.subTasks| ==> StoredFrom(db, copy.subTasks[k], from)
  }

  /** A copy stored in db stays stored in any later store that keeps db's rows, and
      under any lower bound. */
  lemma {:induction false} StoredFromKept(db: Db, db': Db, copy: TaskTree, from: nat, lower: nat)
    requires StoredFrom(db, copy, from) && KeepsRows(db, db') && db.nextSerial <= db'.nextSerial && lower <= from
    ensures StoredFrom(db', copy, lower)
    decreases copy
  {
    forall k | 0 <= k < |copy.subTasks|
      ensures StoredFrom(db', copy.subTasks[k], lower)
    {
      StoredFromKept(db, db', copy.subTasks[k], from, lower);
    }
  }

  /** Copies stored in db stay stored in a later store that keeps db's rows, and one
      more copy stored there joins them at the end. */
  lemma {:induction false} StoredAllSnoc(db: Db, db': Db, copies: seq<TaskTree>, copy: TaskTree, from: nat)
    requires forall k :: 0 <= k < |copies| ==> StoredFrom(db, copies[k], from)
    requires KeepsRows(db, db') && db.nextSerial <= db'.nextSerial && StoredFrom(db', copy, from)
    ensures forall k :: 0 <= k < |copies| + 1 ==> StoredFrom(db', (copies + [copy])[k], from)
  {
    forall k | 0 <= k < |copies| + 1
      ensures StoredFrom(db', (copies + [copy])[k], from)
    {
      if k < |copies| {
        StoredFromKept(db, db', copies[k], from, from);
        assert (copies + [copy])[k] == copies[k];
      }
    }
  }

  /** `cloneTask` stores every node of the copy as a new row. */
  lemma {:induction false} CloneStores(db: Db, tree: TaskTree, actor: UserId, parentId: Option<TaskId>)
    requires IdsIssued(db) && ParentStored(db, parentId)
    ensures StoredFrom(Clone(db, tree, actor, parentId), CloneCopy(tree, actor, parentId, db.nextSerial), db.nextSerial)
    decreases tree, 1
  {
    var row := CloneRow(db.nextSerial, tree.task, actor, parentId);
    var db1 := Inserted(db, row);
    var r := Clone(db, tree, actor, parentId);
    CloneKidsStore(db1, tree, actor, row.id, |tree.subTasks|, db.nextSerial);
    CloneKidsKeepsRows(db1, tree, actor, row.id, |tree.subTasks|);
    assert r.tasks[row.id] == row;
  }

  /** The copies of the first m subtasks are stored in the state after them. */
  lemma {:induction false} CloneKidsStore(db: Db, tree: TaskTree, actor: UserId, pid: TaskId, m: nat, from: nat)
    requires IdsIssued(db) && m <= |tree.subTasks| && pid in db.tasks && from <= db.nextSerial
    ensures var r := CloneKids(db, tree, actor, pid, m);
      forall k :: 0 <= k < m ==> StoredFrom(r, CopyKids(tree, actor, pid, db.nextSerial, m)[k], from)
    decreases tree, 0, m
  {
    if m > 0 {
      var done := CloneKids(db, tree, actor, pid, m - 1);
      CloneKidsKeepsRows(db, tree, actor, pid, m - 1);
      assert done.nextSerial == db.nextSerial + SizeKids(tree, m - 1);
      CloneKidsStore(db, tree, actor, pid, m - 1, from);
      var r := Clone(done, tree.subTasks[m - 1], actor, Some(pid));
      CloneKidStored(done, tree.subTasks[m - 1], actor, pid, from);
      var copy := CloneCopy(tree.subTasks[m - 1], actor, Some(pid), done.nextSerial);
      var before := CopyKids(tree, actor, pid, db.nextSerial, m - 1);
      StoredAllSnoc(done, r, before, copy, from);
      CopyKidsSnoc(tree, actor, pid, db.nextSerial, m, done.nextSerial);
    }
  }

  /** One subtask cloned below a stored copy: its copy is stored in the state after it,
      which keeps the rows of the state before. */
  lemma {:induction false} CloneKidStored(db: Db, kid: TaskTree, actor: UserId, pid: TaskId, from: nat)
    requires IdsIssued(db) && pid in db.tasks && from <= db.nextSerial
    ensures var r := Clone(db, kid, actor, Some(pid));
      && KeepsRows(db, r) && db.nextSerial <= r.nextSerial
      && StoredFrom(r, CloneCopy(kid, actor, Some(pid), db.nextSerial), from)
    decreases kid, 2
  {
    var r := Clone(db, kid, actor, Some(pid));
    CloneStores(db, kid, actor, Some(pid));
    CloneKeepsRows(db, kid, actor, Some(pid));
    StoredFromKept(r, r, CloneCopy(kid, actor, Some(pid), db.nextSerial), db.nextSerial, from);
  }

  /** The copies of m subtasks are those of the first m - 1 and then the last one's. */
  lemma CopyKidsSnoc(tree: TaskTree, actor: UserId, pid: TaskId, n: nat, m: nat, last: nat)
    requires 0 < m <= |tree.subTasks| && last == n + SizeKids(tree, m - 1)
    ensures CopyKids(tree, actor, pid, n, m) == CopyKids(tree, actor, pid, n, m - 1) + [CloneCopy(tree.subTasks[m - 1], actor, Some(pid), last)]
  {
  }

  // ---- processTaskRecurrence ----

  /** The nodes the recurrence visits: a task without a recurrence type is skipped
      together with its subtasks. */
  function Occurrences(tree: TaskTree): nat
    decreases tree, 1
  {
    if tree.task.recurrenceType.None? then 0 else 1 + OccurrencesKids(tree, |tree.subTasks|)
  }

  function OccurrencesKids(tree: TaskTree, n: nat): nat
    requires n <= |tree.subTasks|
    decreases tree, 0, n
  {
    if n == 0 then 0 else OccurrencesKids(tree, n - 1) + Occurrences(tree.subTasks[n - 1])
  }

  /** The record a task's schedule is read from: for a PARENT-typed task the row of the
      parent's occurrence, otherwise the task itself. */
  function ScheduleSource(t: Task, parentRec: Option<Task>): Task
    requires t.recurrenceType == Some(Parent) ==> parentRec.Some?
  {
    if t.recurrenceType == Some(Parent) then parentRec.value else t
  }

  /** `parentId || task.parentTaskId`: the parent's occurrence (whose id is never
      empty), or at the top the task's own parent. */
  function ParentArg(t: Task, parentRec: Option<Task>): Option<TaskId> {
    if parentRec.Some? then Some(parentRec.value.id) else t.parentTaskId
  }

  /** The occurrence `createTask` stores as the n-th task. */
  function SuccessorRow(n: nat, t: Task, parentRec: Option<Task>): (r: Task)
    requires t.recurrenceType == Some(Parent) ==> parentRec.Some?
    ensures r.id == MintId(n)
    ensures r.creatorId == t.creatorId && r.title == t.title && r.description == t.description
    ensures r.parentTaskId == OrNull(ParentArg(t, parentRec))
    ensures var src := ScheduleSource(t, parentRec);
      && r.deadline == CalculateNextDeadline(t.deadline, src.recurrenceType)
      && RecurrenceOptions(r.recurrenceType, r.recurrenceExpiresAt, r.recurrences)
         == CalculateRecurrenceOptions(src.recurrenceType, src.recurrenceExpiresAt, src.recurrences)
    ensures r.status == Open && !r.isPublic && r.completedById.None? && r.completedAt.None?
  {
    var src := ScheduleSource(t, parentRec);
    var o := CalculateRecurrenceOptions(src.recurrenceType, src.recurrenceExpiresAt, src.recurrences);
    Task(MintId(n), t.title, t.description, CalculateNextDeadline(t.deadline, src.recurrenceType), Open, false,
         t.creatorId, OrNull(ParentArg(t, parentRec)), None, None, o.recurrenceType, o.recurrenceExpiresAt, o.recurrences)
  }

  /** The store after the occurrence of t is created and t's rows are copied onto it. */
  function WithSuccessor(db: Db, t: Task, succ: Task): Db {
    var db1 := Inserted(db, succ);
    db1.(assignments := db.assignments + Relink(RowsForTask(db.assignments, t.id), succ.id),
         subscriptions := db.subscriptions + Relink(RowsForTask(db.subscriptions, t.id), succ.id))
  }

  /** The store after `processTaskRecurrence` ran on tree below the occurrence
      parentRec (None at the top). A task without a recurrence type is left alone, and
      so are its subtasks; creating the occurrence fails, storing nothing, when its
      parent names no stored task. */
  function Recur(db: Db, tree: TaskTree, parentRec: Option<Task>): (r: Db)
    requires tree.task.recurrenceType == Some(Parent) ==> parentRec.Some?
    ensures tree.task.recurrenceType.None? || !ParentStored(db, ParentArg(tree.task, parentRec)) ==> r == db
    ensures r.applications == db.applications && r.invitations == db.invitations
    ensures r.users == db.users && r.emails == db.emails && r.completions == db.completions
    ensures db.assignments <= r.assignments && db.subscriptions <= r.subscriptions
    decreases tree, 1
  {
    if tree.task.recurrenceType.None? || !ParentStored(db, ParentArg(tree.task, parentRec)) then db
    else
      var succ := SuccessorRow(db.nextSerial, tree.task, parentRec);
      RecurKids(WithSuccessor(db, tree.task, succ), tree, succ, |tree.subTasks|)
  }

  /** The state after the first n subtasks were processed below the occurrence succ. */
  function RecurKids(db: Db, tree: TaskTree, succ: Task, n: nat): (r: Db)
    requires n <= |tree.subTasks|
    ensures r.applications == db.applications && r.invitations == db.invitations
    ensures r.users == db.users && r.emails == db.emails && r.completions == db.completions
    ensures db.assignments <= r.assignments && db.subscriptions <= r.subscriptions
    decreases tree, 0, n
  {
    if n == 0 then db
    else Recur(RecurKids(db, tree, succ, n - 1), tree.subTasks[n - 1], Some(succ))
  }

  /** The recurrence only adds rows, under ids the generator had not handed out, and
      takes one id per occurrence. */
  lemma {:induction false} RecurKeepsRows(db: Db, tree: TaskTree, parentRec: Option<Task>)
    requires IdsIssued(db)
    requires tree.task.recurrenceType == Some(Parent) ==> parentRec.Some?
    ensures KeepsRows(db, Recur(db, tree, parentRec)) && IdsIssued(Recur(db, tree, parentRec))
    ensures ParentStored(db, ParentArg(tree.task, parentRec)) ==>
      Recur(db, tree, parentRec).nextSerial == db.nextSerial + Occurrences(tree)
    ensures ParentStored(db, ParentArg(tree.task, parentRec)) ==>
      |Recur(db, tree, parentRec).tasks| == |db.tasks| + Occurrences(tree)
    decreases tree, 1
  {
    if tree.task.recurrenceType.Some? && ParentStored(db, ParentArg(tree.task, parentRec)) {
      var succ := SuccessorRow(db.nextSerial, tree.task, parentRec);
      var db1 := WithSuccessor(db, tree.task, succ);
      assert succ.id !in db.tasks;
      assert IdsIssued(db1) && KeepsRows(db, db1) && succ.id in db1.tasks;
      assert |db1.tasks| == |db.tasks| + 1 && db1.nextSerial == db.nextSerial + 1;
      RecurKidsKeepsRows(db1, tree, succ, |tree.subTasks|);
    }
  }

  lemma {:induction false} RecurKidsKeepsRows(db: Db, tree: TaskTree, succ: Task, n: nat)
    requires IdsIssued(db) && n <= |tree.subTasks|
    ensures KeepsRows(db, RecurKids(db, tree, succ, n)) && IdsIssued(RecurKids(db, tree, succ, n))
    ensures succ.id in db.tasks ==> RecurKids(db, tree, succ, n).nextSerial == db.nextSerial + OccurrencesKids(tree, n)
    ensures succ.id in db.tasks ==> |RecurKids(db, tree, succ, n).tasks| == |db.tasks| + OccurrencesKids(tree, n)
    decreases tree, 0, n
  {
    if n > 0 {
      RecurKidsKeepsRows(db, tree, succ, n - 1);
      RecurKeepsRows(RecurKids(db, tree, succ, n - 1), tree.subTasks[n - 1], Some(succ));
    }
  }

  /** The effect of `processTaskRecurrence(id)` called without a parent, the way
      `updateTask` calls it: 400 for a blank id, 404 for a missing task, nothing for a
      task without a recurrence type or with type PARENT, a database error when the
      occurrence's parent (the task's own) is no longer stored; otherwise the
      recurrence over the task's subtree. */
  ghost function ProcessRecurrence(db: Db, id: TaskId): (r: Result<Db>)
    requires Acyclic(db.tasks)
    ensures r.Ok? ==> r.value.users == db.users && r.value.completions == db.completions
  {
    if IsBlank(id) then Fail(400)
    else if id !in db.tasks then Fail(404)
    else
      var t := db.tasks[id];
      if t.recurrenceType.None? || t.recurrenceType == Some(Parent) then Ok(db)
      else if !ParentStored(db, t.parentTaskId) then Err(RuntimeError)
      else Ok(Recur(db, Node(t, SubTasksOf(db.tasks, db.order, id)), None))
  }

  /** A recurrence that goes through only adds rows, one per occurrence. */
  lemma {:induction false} ProcessRecurrenceKeepsRows(db: Db, id: TaskId)
    requires Acyclic(db.tasks) && IdsIssued(db) && ProcessRecurrence(db, id).Ok?
    ensures KeepsRows(db, ProcessRecurrence(db, id).value) && IdsIssued(ProcessRecurrence(db, id).value)
    ensures id in db.tasks ==>
      var t := db.tasks[id];
      ProcessRecurrence(db, id).value.nextSerial
        == db.nextSerial + (if t.recurrenceType == Some(Parent) then 0
                            else Occurrences(Node(t, SubTasksOf(db.tasks, db.order, id))))
  {
    var t := db.tasks[id];
    if t.recurrenceType.Some? && t.recurrenceType != Some(Parent) {
      RecurKeepsRows(db, Node(t, SubTasksOf(db.tasks, db.order, id)), None);
    }
  }

  /** The occurrence of a recurring task is stored under the next id, and right after
      the rows that were there before come one Assignment and one Subscription row per
      row of the task, relinked to the occurrence. */
  lemma {:induction false} RecurSuccessor(db: Db, tree: TaskTree, parentRec: Option<Task>)
    requires IdsIssued(db) && tree.task.recurrenceType.Some?
    requires tree.task.recurrenceType == Some(Parent) ==> parentRec.Some?
    requires ParentStored(db, ParentArg(tree.task, parentRec))
    ensures var succ := SuccessorRow(db.nextSerial, tree.task, parentRec);
      var r := Recur(db, tree, parentRec);
      var copiedA := db.assignments + Relink(RowsForTask(db.assignments, tree.task.id), succ.id);
      var copiedS := db.subscriptions + Relink(RowsForTask(db.subscriptions, tree.task.id), succ.id);
      && succ.id !in db.tasks && succ.id in r.tasks && r.tasks[succ.id] == succ
      && copiedA <= r.assignments && copiedS <= r.subscriptions
  {
    var succ := SuccessorRow(db.nextSerial, tree.task, parentRec);
    var db2 := WithSuccessor(db, tree.task, succ);
    assert IdsIssued(db2);
    assert succ.id in db2.tasks;
    RecurKidsKeepsRows(db2, tree, succ, |tree.subTasks|);
  }

  /** What the recurrence makes of one node of the tree: nothing for a task without a
      recurrence type, whose subtasks are skipped with it, or the occurrence stored for
      it together with what became of each of its subtasks, in order. */
  datatype Outcome = Skipped | Occurred(row: Task, kids: seq<Outcome>)

  /** The outcome of `processTaskRecurrence` on tree below the occurrence parentRec when
      the generator stands at n. */
  function OutcomeOf(tree: TaskTree, parentRec: Option<Task>, n: nat): Outcome
    requires tree.task.recurrenceType == Some(Parent) ==> parentRec.Some?
    decreases tree, 1
  {
    if tree.task.recurrenceType.None? then Skipped
    else
      var succ := SuccessorRow(n, tree.task, parentRec);
      Occurred(succ, OutcomeKids(tree, succ, n + 1, |tree.subTasks|))
  }

  /** The outcomes of the first m subtasks below the occurrence succ, the first one
      made when the generator stands at n. */
  function OutcomeKids(tree: TaskTree, succ: Task, n: nat, m: nat): (r: seq<Outcome>)
    requires m <= |tree.subTasks|
    ensures |r| == m
    decreases tree, 0, m
  {
    if m == 0 then []
    else OutcomeKids(tree, succ, n, m - 1) + [OutcomeOf(tree.subTasks[m - 1], Some(succ), n + OccurrencesKids(tree, m - 1))]
  }

  /** o is what the recurrence promises for tree below parentRec: a task is skipped
      exactly when it has no recurrence type; otherwise its occurrence is its successor
      row under some id, with parentRec as the parent and schedule source, and each
      subtask's outcome hangs below that occurrence. */
  ghost predicate Recurs(o: Outcome, tree: TaskTree, parentRec: Option<Task>)
    decreases tree
  {
    && (o.Skipped? <==> tree.task.recurrenceType.None?)
    && (o.Occurred? ==>
          && (tree.task.recurrenceType == Some(Parent) ==> parentRec.Some?)
          && (exists n :: o.row == SuccessorRow(n, tree.task, parentRec))
          && |o.kids| == |tree.subTasks|
          && forall k :: 0 <= k < |tree.subTasks| ==> Recurs(o.kids[k], tree.subTasks[k], Some(o.row)))
  }

  /** The outcome of the recurrence is the one it promises, node by node. */
  lemma {:induction false} OutcomeRecurs(tree: TaskTree, parentRec: Option<Task>, n: nat)
    requires tree.task.recurrenceType == Some(Parent) ==> parentRec.Some?
    ensures Recurs(OutcomeOf(tree, parentRec, n), tree, parentRec)
    decreases tree, 1
  {
    if tree.task.recurrenceType.Some? {
      var succ := SuccessorRow(n, tree.task, parentRec);
      OutcomeKidsRecur(tree, succ, n + 1, |tree.subTasks|);
    }
  }

  /** The outcomes of the first m subtasks are the promised ones below succ. */
  lemma {:induction false} OutcomeKidsRecur(tree: TaskTree, succ: Task, n: nat, m: nat)
    requires m <= |tree.subTasks|
    ensures forall k :: 0 <= k < m ==> Recurs(OutcomeKids(tree, succ, n, m)[k], tree.subTasks[k], Some(succ))
    decreases tree, 0, m
  {
    if m > 0 {
      var before := OutcomeKids(tree, succ, n, m - 1);
      var last := OutcomeOf(tree.subTasks[m - 1], Some(succ), n + OccurrencesKids(tree, m - 1));
      var all := OutcomeKids(tree, succ, n, m);
      assert all == before + [last];
      OutcomeKidsRecur(tree, succ, n, m - 1);
      OutcomeRecurs(tree.subTasks[m - 1], Some(succ), n + OccurrencesKids(tree, m - 1));
      forall k | 0 <= k < m
        ensures Recurs(all[k], tree.subTasks[k], Some(succ))
      {
        if k < m - 1 {
          assert all[k] == before[k];
        } else {
          assert all[k] == last;
        }
      }
    }
  }

  /** db' holds every occurrence of o as a row, under an id at or above `from` that the
      generator had not handed out before, and holds for each Assignment and
      Subscription row db had for the occurrence's task one row relinked to the
      occurrence. */
  ghost predicate OutcomeStored(db: Db, db': Db, o: Outcome, tree: TaskTree, from: nat)
    decreases tree
  {
    o.Occurred? ==>
      && o.row.id in db'.tasks && db'.tasks[o.row.id] == o.row
      && (exists n :: from <= n < db'.nextSerial && o.row.id == MintId(n))
      && (forall l :: l in db.assignments && l.taskId == tree.task.id ==> Link(o.row.id, l.userId) in db'.assignments)
      && (forall l :: l in db.subscriptions && l.taskId == tree.task.id ==> Link(o.row.id, l.userId) in db'.subscriptions)
      && |o.kids| == |tree.subTasks|
      && forall k :: 0 <= k < |tree.subTasks| ==> OutcomeStored(db, db', o.kids[k], tree.subTasks[k], from)
  }

  /** db' only adds to db: it keeps every task row, the generator has not gone back, and
      the link tables only grow at the end. */
  ghost predicate Grows(db: Db, db': Db) {
    KeepsRows(db, db') && db.nextSerial <= db'.nextSerial
    && db.assignments <= db'.assignments && db.subscriptions <= db'.subscriptions
  }

  /** Occurrences stored in db' stay stored in any later store that only adds to it,
      measured against any earlier store and any lower bound. */
  lemma {:induction false} OutcomeStoredKept(db0: Db, db: Db, db': Db, db'': Db, o: Outcome, tree: TaskTree, from: nat, lower: nat)
    requires OutcomeStored(db, db', o, tree, from) && Grows(db0, db) && Grows(db', db'') && lower <= from
    ensures OutcomeStored(db0, db'', o, tree, lower)
    decreases tree
  {
    if o.Occurred? {
      forall k | 0 <= k < |tree.subTasks|
        ensures OutcomeStored(db0, db'', o.kids[k], tree.subTasks[k], lower)
      {
        OutcomeStoredKept(db0, db, db', db'', o.kids[k], tree.subTasks[k], from, lower);
      }
    }
  }

  /** A later store that only adds to an intermediate one only adds to the first. */
  lemma GrowsTrans(db: Db, db': Db, db'': Db)
    requires Grows(db, db') && Grows(db', db'')
    ensures Grows(db, db'')
  {
    assert db.assignments == db'.assignments[..|db.assignments|] == db''.assignments[..|db.assignments|];
    assert db.subscriptions == db'.subscriptions[..|db.subscriptions|] == db''.subscriptions[..|db.subscriptions|];
  }

  /** Each row of task t becomes one relinked row of the copy. */
  lemma RelinkHas(rows: seq<Link>, t: TaskId, l: Link, to: TaskId)
    requires l in rows && l.taskId == t
    ensures Link(to, l.userId) in Relink(RowsForTask(rows, t), to)
  {
    var found := RowsForTask(rows, t);
    var i :| 0 <= i < |found| && found[i] == l;
    assert Relink(found, to)[i] == Link(to, l.userId);
  }

  /** A table that starts with rows followed by the rows of t relinked to `to` holds a
      relinked row for each row of t. */
  lemma CopiedKept(rows: seq<Link>, t: TaskId, to: TaskId, later: seq<Link>)
    requires rows + Relink(RowsForTask(rows, t), to) <= later
    ensures forall l :: l in rows && l.taskId == t ==> Link(to, l.userId) in later
  {
    var copied := rows + Relink(RowsForTask(rows, t), to);
    forall l | l in rows && l.taskId == t
      ensures Link(to, l.userId) in later
    {
      RelinkHas(rows, t, l, to);
      var j :| 0 <= j < |Relink(RowsForTask(rows, t), to)| && Relink(RowsForTask(rows, t), to)[j] == Link(to, l.userId);
      assert copied[|rows| + j] == Link(to, l.userId);
      assert later[|rows| + j] == copied[|rows| + j];
    }
  }

  /** Each of the outcomes os of the first |os| trees of kids is stored in db'. */
  ghost predicate AllStored(db0: Db, db': Db, os: seq<Outcome>, kids: seq<TaskTree>, from: nat) {
    |os| <= |kids| && forall k :: 0 <= k < |os| ==> OutcomeStored(db0, db', os[k], kids[k], from)
  }

  /** Outcomes stored before a later store that only adds stay stored there, and one
      more stored outcome joins them at the end. */
  lemma {:induction false} OutcomeAllSnoc(db0: Db, db: Db, db': Db, os: seq<Outcome>, o: Outcome, kids: seq<TaskTree>, from: nat)
    requires |os| < |kids| && Grows(db, db')
    requires AllStored(db0, db, os, kids, from)
    requires OutcomeStored(db0, db', o, kids[|os|], from)
    ensures AllStored(db0, db', os + [o], kids, from)
  {
    assert Grows(db0, db0);
    forall k | 0 <= k < |os| + 1
      ensures OutcomeStored(db0, db', (os + [o])[k], kids[k], from)
    {
      if k < |os| {
        OutcomeStoredKept(db0, db0, db, db', os[k], kids[k], from, from);
        assert (os + [o])[k] == os[k];
      }
    }
  }

  /** `processTaskRecurrence` stores every occurrence of the outcome under a fresh id and
      copies the rows of each occurrence's task onto it. */
  lemma {:induction false} RecurStores(db: Db, tree: TaskTree, parentRec: Option<Task>)
    requires IdsIssued(db)
    requires tree.task.recurrenceType == Some(Parent) ==> parentRec.Some?
    requires ParentStored(db, ParentArg(tree.task, parentRec))
    ensures OutcomeStored(db, Recur(db, tree, parentRec), OutcomeOf(tree, parentRec, db.nextSerial), tree, db.nextSerial)
    decreases tree, 1
  {
    if tree.task.recurrenceType.Some? {
      var succ := SuccessorRow(db.nextSerial, tree.task, parentRec);
      var db1 := WithSuccessor(db, tree.task, succ);
      var r := Recur(db, tree, parentRec);
      assert IdsIssued(db1);
      assert Grows(db, db1);
      RecurKidsStore(db, db1, tree, succ, |tree.subTasks|, db.nextSerial);
      RecurKidsKeepsRows(db1, tree, succ, |tree.subTasks|);
      assert r.tasks[succ.id] == succ;
      CopiedKept(db.assignments, tree.task.id, succ.id, r.assignments);
      CopiedKept(db.subscriptions, tree.task.id, succ.id, r.subscriptions);
    }
  }

  /** The outcomes of the first m subtasks below succ are stored in the state after
      them, with the rows db0 had for their tasks. */
  lemma {:induction false} RecurKidsStore(db0: Db, db: Db, tree: TaskTree, succ: Task, m: nat, from: nat)
    requires IdsIssued(db) && m <= |tree.subTasks| && succ.id in db.tasks && from <= db.nextSerial && Grows(db0, db)
    ensures AllStored(db0, RecurKids(db, tree, succ, m), OutcomeKids(tree, succ, db.nextSerial, m), tree.subTasks, from)
    decreases tree, 0, m
  {
    if m > 0 {
      var done := RecurKids(db, tree, succ, m - 1);
      var kid := tree.subTasks[m - 1];
      RecurKidsGrows(db0, db, tree, succ, m - 1);
      RecurKidsStore(db0, db, tree, succ, m - 1, from);
      var r := Recur(done, kid, Some(succ));
      RecurKidStored(db0, done, kid, succ, from);
      StoredKidsSnoc(db0, db, done, r, tree, succ, m, from);
      assert RecurKids(db, tree, succ, m) == r;
    }
  }

  /** The state after some subtasks were processed below a stored occurrence only adds
      to the state before, keeps the occurrence and advanced the generator by one id per
      occurrence. */
  lemma RecurKidsGrows(db0: Db, db: Db, tree: TaskTree, succ: Task, n: nat)
    requires IdsIssued(db) && n <= |tree.subTasks| && succ.id in db.tasks && Grows(db0, db)
    ensures var done := RecurKids(db, tree, succ, n);
      && IdsIssued(done) && succ.id in done.tasks && Grows(db0, done)
      && done.nextSerial == db.nextSerial + OccurrencesKids(tree, n)
  {
    var done := RecurKids(db, tree, succ, n);
    RecurKidsKeepsRows(db, tree, succ, n);
    assert Grows(db, done);
    GrowsTrans(db0, db, done);
  }

  /** The outcome of subtask m - 1, stored in r, joins the stored outcomes of the first
      m - 1 subtasks. */
  lemma StoredKidsSnoc(db0: Db, db: Db, done: Db, r: Db, tree: TaskTree, succ: Task, m: nat, from: nat)
    requires 0 < m <= |tree.subTasks| && done.nextSerial == db.nextSerial + OccurrencesKids(tree, m - 1)
    requires AllStored(db0, done, OutcomeKids(tree, succ, db.nextSerial, m - 1), tree.subTasks, from)
    requires Grows(done, r)
    requires OutcomeStored(db0, r, OutcomeOf(tree.subTasks[m - 1], Some(succ), done.nextSerial), tree.subTasks[m - 1], from)
    ensures AllStored(db0, r, OutcomeKids(tree, succ, db.nextSerial, m), tree.subTasks, from)
  {
    var o := OutcomeOf(tree.subTasks[m - 1], Some(succ), done.nextSerial);
    OutcomeAllSnoc(db0, done, r, OutcomeKids(tree, succ, db.nextSerial, m - 1), o, tree.subTasks, from);
    OutcomeKidsSnoc(tree, succ, db.nextSerial, m, done.nextSerial);
  }

  /** One subtask processed below a stored occurrence: its outcome is stored in the
      state after it, which only adds to the state before. */
  lemma {:induction false} RecurKidStored(db0: Db, db: Db, kid: TaskTree, succ: Task, from: nat)
    requires IdsIssued(db) && succ.id in db.tasks && from <= db.nextSerial && Grows(db0, db)
    ensures var r := Recur(db, kid, Some(succ));
      Grows(db, r) && OutcomeStored(db0, r, OutcomeOf(kid, Some(succ), db.nextSerial), kid, from)
    decreases kid, 2
  {
    var r := Recur(db, kid, Some(succ));
    RecurStores(db, kid, Some(succ));
    RecurKeepsRows(db, kid, Some(succ));
    assert Grows(db, r) && Grows(r, r);
    OutcomeStoredKept(db0, db, r, r, OutcomeOf(kid, Some(succ), db.nextSerial), kid, db.nextSerial, from);
  }

  /** The outcomes of m subtasks are those of the first m - 1 and then the last one's. */
  lemma OutcomeKidsSnoc(tree: TaskTree, succ: Task, n: nat, m: nat, last: nat)
    requires 0 < m <= |tree.subTasks| && last == n + OccurrencesKids(tree, m - 1)
    ensures OutcomeKids(tree, succ, n, m) == OutcomeKids(tree, succ, n, m - 1) + [OutcomeOf(tree.subTasks[m - 1], Some(succ), last)]
  {
  }

  /** A recurrence that goes through stores one occurrence for each recurring task of
      the subtree and nothing else: every occurrence is its task's successor, hung below
      the occurrence of its parent task and carrying the task's rows, and the store
      holds exactly `Occurrences` more tasks. */
  lemma ProcessRecurrenceOutcome(db: Db, id: TaskId)
    requires Acyclic(db.tasks) && IdsIssued(db) && !IsBlank(id) && id in db.tasks
    requires db.tasks[id].recurrenceType.Some? && db.tasks[id].recurrenceType != Some(Parent)
    requires ParentStored(db, db.tasks[id].parentTaskId)
    ensures ProcessRecurrence(db, id).Ok?
    ensures var tree := Node(db.tasks[id], SubTasksOf(db.tasks, db.order, id));
      var o := OutcomeOf(tree, None, db.nextSerial);
      var r := ProcessRecurrence(db, id).value;
      && o.Occurred? && Recurs(o, tree, None) && OutcomeStored(db, r, o, tree, db.nextSerial)
      && |r.tasks| == |db.tasks| + Occurrences(tree)
  {
    var tree := Node(db.tasks[id], SubTasksOf(db.tasks, db.order, id));
    OutcomeRecurs(tree, None, db.nextSerial);
    RecurStores(db, tree, None);
    RecurKeepsRows(db, tree, None);
  }
}
