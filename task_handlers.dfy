/**
 * The task handlers of services/handlers/taskHandler.js: reading one task (in full, or
 * as `{id, title}` without view access), creating, updating, deleting, cloning and
 * completing tasks, the recurrence that a completion triggers, and the access guards
 * of the note and objective handlers.
 */
module TaskHandlers {
  import opened Wrappers
  import opened Errors
  import opened Dates
  import opened Recurrence
  import opened Model
  import opened Forest
  import opened Access
  import opened Repository
  import opened TaskCopies

  /** The result of the `getTaskById` handler. */
  datatype TaskView = Full(tree: TaskTree) | Summary(id: TaskId, title: string)

  /** An access verdict as a handler outcome: false throws 403, a broken walk a TypeError. */
  function Verdict(w: Walk): (r: Result<()>)
    ensures r.Ok? <==> w == Granted
    ensures w == Denied ==> r == Fail(403)
    ensures w == Broken ==> r == Err(RuntimeError)
  {
    match w
    case Granted => Ok(())
    case Denied => Fail(403)
    case Broken => Err(RuntimeError)
  }

  // ---- Fetching ----

  /** `getTaskById`: a caller who may not view the task still learns its id and title. */
  method GetTaskById(s: Store, actorId: UserId, taskId: TaskId) returns (r: Result<TaskView>)
    requires s.Valid()
    ensures IsBlank(taskId) ==> r == Fail(400)
    ensures !IsBlank(taskId) && taskId !in s.tasks ==> r == Fail(404)
    ensures taskId in s.tasks && AccessWalk(s.State(), View, actorId, taskId) == Broken ==> r == Err(RuntimeError)
    ensures taskId in s.tasks && AccessWalk(s.State(), View, actorId, taskId) == Granted ==>
              r == Ok(Full(Node(s.tasks[taskId], SubTasksOf(s.tasks, s.order, taskId))))
    ensures taskId in s.tasks && AccessWalk(s.State(), View, actorId, taskId) == Denied ==>
              r == Ok(Summary(taskId, s.tasks[taskId].title))
  {
    if IsBlank(taskId) {
      return Fail(400);
    }
    var task := s.GetTaskById(taskId);
    if task.None? {
      return Fail(404);
    }
    var hasAccess := s.HasAccessToView(actorId, task.value.task.id);
    if hasAccess == Broken {
      return Err(RuntimeError);
    }
    if hasAccess == Denied {
      return Ok(Summary(task.value.task.id, task.value.task.title));
    }
    return Ok(Full(task.value));
  }

  // ---- Modifying ----

  /** `parentTask?.creatorId || user.id`: a subtask belongs to its parent's creator. */
  function CreatorFor(parent: Option<Task>, actorId: UserId): UserId {
    if parent.Some? && parent.value.creatorId != [] then parent.value.creatorId else actorId
  }

  /** `createTask`: a top-level task of the actor, or a subtask of a task the actor may
      edit, owned by that task's creator. */
  method CreateTask(s: Store, actorId: UserId, title: string, description: Option<string>,
                    deadline: Option<CalendarDate>, parentTaskId: Option<TaskId>) returns (r: Result<Task>)
    requires s.Valid()
    modifies s
    ensures s.Valid()
    ensures r.Err? ==> s.State() == old(s.State())
    ensures IsBlank(title) ==> r == Fail(400)
    ensures !IsBlank(title) && OrNull(parentTaskId).Some? && OrNull(parentTaskId).value !in old(s.tasks) ==> r == Fail(404)
    ensures (!IsBlank(title) && OrNull(parentTaskId).Some? && OrNull(parentTaskId).value in old(s.tasks)
             && AccessWalk(old(s.State()), Edit, actorId, OrNull(parentTaskId).value) == Broken) ==> r == Err(RuntimeError)
    ensures (!IsBlank(title) && OrNull(parentTaskId).Some? && OrNull(parentTaskId).value in old(s.tasks)
             && AccessWalk(old(s.State()), Edit, actorId, OrNull(parentTaskId).value) == Denied) ==> r == Fail(403)
    ensures r.Ok? <==> !IsBlank(title) && (OrNull(parentTaskId).Some? ==>
                          OrNull(parentTaskId).value in old(s.tasks)
                          && AccessWalk(old(s.State()), Edit, actorId, OrNull(parentTaskId).value) == Granted)
    ensures r.Ok? ==>
              r.value.creatorId == CreatorFor(if OrNull(parentTaskId).Some? then Some(old(s.tasks)[OrNull(parentTaskId).value]) else None, actorId)
    ensures r.Ok? ==> r.value.parentTaskId == OrNull(parentTaskId) && r.value.title == title
    ensures r.Ok? ==> r.value.description == description && r.value.deadline == deadline
    ensures r.Ok? ==> r.value.id !in old(s.tasks) && s.State() == Inserted(old(s.State()), r.value)
    // whoever creates a task may edit it
    ensures r.Ok? ==> AccessWalk(s.State(), Edit, actorId, r.value.id) == Granted
  {
    ghost var db := s.State();
    if IsBlank(title) {
      return Fail(400);
    }
    var parentTask: Option<Task> := None;
    if OrNull(parentTaskId).Some? {
      var found := s.GetTaskById(OrNull(parentTaskId).value);
      if found.None? {
        return Fail(404);
      }
      var access := s.HasAccessToEdit(actorId, found.value.task.id);
      if access == Broken {
        return Err(RuntimeError);
      }
      if access == Denied {
        return Fail(403);
      }
      parentTask := Some(found.value.task);
    }
    NextIdUnused(db);
    r := s.CreateTask(CreatorFor(parentTask, actorId), title, description, deadline, parentTaskId, None, None, None);
    if parentTask.Some? {
      WalkAfterInsert(db, s.State(), r.value, Edit, actorId, parentTask.value.id);
    }
  }

  /** The request fields of `updateTask`; None stands for a field left undefined, and
      `description` may be given as null. */
  datatype UpdateRequest = UpdateRequest(
    title: Option<string>,
    description: Option<Option<string>>,
    deadline: Option<CalendarDate>,
    status: Option<Status>,
    isPublic: Option<bool>,
    recurrenceType: Option<RecurrenceType>,
    recurrenceExpiresAt: Option<CalendarDate>,
    recurrences: Option<int>)

  /** `updateData`: a field is written when the request's value is truthy, except
      `description` and `isPublic`, which are written whenever they are defined. So an
      empty title and a count of 0 are ignored, while `isPublic = false` and a null
      description are written. */
  function BuildUpdateData(req: UpdateRequest): (d: UpdateData)
    ensures d.title.Some? <==> req.title.Some? && req.title.value != []
    ensures d.recurrences.Some? <==> req.recurrences.Some? && req.recurrences.value != 0
    ensures d.title.Some? ==> d.title == req.title
    ensures d.recurrences.Some? ==> d.recurrences == req.recurrences
    ensures d.description == req.description && d.isPublic == req.isPublic
    ensures d.deadline == req.deadline && d.status == req.status
    ensures d.recurrenceType == req.recurrenceType && d.recurrenceExpiresAt == req.recurrenceExpiresAt
  {
    UpdateData(
      if req.title.Some? && req.title.value != [] then req.title else None,
      req.description,
      req.deadline,
      req.status,
      req.isPublic,
      req.recurrenceExpiresAt,
      req.recurrenceType,
      if req.recurrences.Some? && req.recurrences.value != 0 then req.recurrences else None)
  }

  /** The store after `markTaskAsCompleted(id, actor)` and `incrementUserStat(actor,
      "tasksCompleted")`. */
  function Completed(db: Db, id: TaskId, actorId: UserId, now: CalendarDate): Db
    requires id in db.tasks
  {
    db.(tasks := db.tasks[id := db.tasks[id].(completedById := Some(actorId), completedAt := Some(now))],
        completions := db.completions[actorId := CompletionsOf(db.completions, actorId) + 1])
  }

  /** What `updateTask` does once the caller may edit the task. Status DONE records the
      completion, counts it and runs the recurrence, all on the stored fields from
      before the update; any other request on a DONE task clears the completion. The
      update itself comes last. */
  ghost predicate UpdateOutcome(db: Db, id: TaskId, actorId: UserId, req: UpdateRequest, now: CalendarDate,
                                r: Result<Task>, db': Db)
    requires id in db.tasks
  {
    if req.status == Some(Done) then DoneOutcome(db, id, actorId, req, now, r, db')
    else PlainOutcome(db, id, req, r, db')
  }

  /** Any other status: a DONE task loses its completion, then the fields are written. */
  ghost predicate PlainOutcome(db: Db, id: TaskId, req: UpdateRequest, r: Result<Task>, db': Db)
    requires id in db.tasks
  {
    var t := if db.tasks[id].status == Done then db.tasks[id].(completedById := None, completedAt := None)
             else db.tasks[id];
    r == Ok(ApplyUpdate(t, BuildUpdateData(req))) && db' == db.(tasks := db.tasks[id := ApplyUpdate(t, BuildUpdateData(req))])
  }

  /** The DONE case: a failing recurrence leaves the completion recorded and counted and
      skips the update. */
  ghost predicate DoneOutcome(db: Db, id: TaskId, actorId: UserId, req: UpdateRequest, now: CalendarDate,
                              r: Result<Task>, db': Db)
    requires id in db.tasks
  {
    var db1 := Completed(db, id, actorId, now);
    && Acyclic(db1.tasks)
    && match ProcessRecurrence(db1, id)
       case Err(e) => r == Err(e) && db' == db1
       case Ok(db2) => id in db2.tasks && r == Ok(ApplyUpdate(db2.tasks[id], BuildUpdateData(req)))
                       && db' == db2.(tasks := db2.tasks[id := ApplyUpdate(db2.tasks[id], BuildUpdateData(req))])
  }

  /** `updateTask`; `now` is the time the completion is recorded at. */
  method UpdateTask(s: Store, actorId: UserId, taskId: TaskId, req: UpdateRequest, now: CalendarDate) returns (r: Result<Task>)
    requires s.Valid()
    modifies s
    ensures s.Valid()
    ensures taskId !in old(s.tasks) ==> r == Fail(404) && s.State() == old(s.State())
    ensures taskId in old(s.tasks) && AccessWalk(old(s.State()), Edit, actorId, taskId) == Broken ==>
              r == Err(RuntimeError) && s.State() == old(s.State())
    ensures taskId in old(s.tasks) && AccessWalk(old(s.State()), Edit, actorId, taskId) == Denied ==>
              r == Fail(403) && s.State() == old(s.State())
    ensures taskId in old(s.tasks) && AccessWalk(old(s.State()), Edit, actorId, taskId) == Granted ==>
              UpdateOutcome(old(s.State()), taskId, actorId, req, now, r, s.State())
    ensures r.Ok? && req.status == Some(Done) ==> r.value.status == Done && r.value.completedById == Some(actorId)
    ensures r.Ok? && req.status != Some(Done) && old(s.tasks)[taskId].status == Done ==>
              r.value.completedById.None? && r.value.completedAt.None?
  {
    var foundTask := s.GetTaskById(taskId);
    if foundTask.None? {
      return Fail(404);
    }
    var canEdit := s.HasAccessToEdit(actorId, foundTask.value.task.id);
    if canEdit == Broken {
      return Err(RuntimeError);
    }
    if canEdit == Denied {
      return Fail(403);
    }
    r := ApplyTaskUpdate(s, actorId, taskId, req, now);
  }

  /** The part of `updateTask` after the access check. */
  method ApplyTaskUpdate(s: Store, actorId: UserId, taskId: TaskId, req: UpdateRequest, now: CalendarDate) returns (r: Result<Task>)
    requires s.Valid() && taskId in s.tasks
    modifies s
    ensures s.Valid()
    ensures UpdateOutcome(old(s.State()), taskId, actorId, req, now, r, s.State())
    ensures r.Ok? && req.status == Some(Done) ==> r.value.status == Done && r.value.completedById == Some(actorId)
    ensures r.Ok? && req.status != Some(Done) && old(s.tasks)[taskId].status == Done ==>
              r.value.completedById.None? && r.value.completedAt.None?
  {
    if req.status == Some(Done) {
      r := UpdateDone(s, actorId, taskId, req, now);
    } else {
      r := UpdatePlain(s, taskId, req);
    }
  }

  /** Writing a row twice leaves the second value. */
  lemma RewriteTwice(m: map<TaskId, Task>, k: TaskId, a: Task, b: Task)
    ensures m[k := a][k := b] == m[k := b]
  {
  }

  /** `updateTask` with any other status, after the access check. */
  method UpdatePlain(s: Store, taskId: TaskId, req: UpdateRequest) returns (r: Result<Task>)
    requires s.Valid() && taskId in s.tasks
    modifies s
    ensures s.Valid()
    ensures PlainOutcome(old(s.State()), taskId, req, r, s.State())
    ensures r.Ok? && old(s.tasks)[taskId].status == Done ==> r.value.completedById.None? && r.value.completedAt.None?
  {
    ghost var db := s.State();
    if s.tasks[taskId].status == Done {
      var _ := s.UnmarkTaskAsCompleted(taskId);
    }
    ghost var t := s.tasks[taskId];
    r := s.UpdateTask(taskId, BuildUpdateData(req));
    RewriteTwice(db.tasks, taskId, t, r.value);
  }

  /** `updateTask` with status DONE, after the access check. */
  method UpdateDone(s: Store, actorId: UserId, taskId: TaskId, req: UpdateRequest, now: CalendarDate) returns (r: Result<Task>)
    requires s.Valid() && taskId in s.tasks
    modifies s
    ensures s.Valid()
    ensures DoneOutcome(old(s.State()), taskId, actorId, req, now, r, s.State())
    ensures r.Ok? && req.status == Some(Done) ==> r.value.status == Done && r.value.completedById == Some(actorId)
  {
    var recurrence := CompleteTask(s, actorId, taskId, now);
    if recurrence.Err? {
      return Err(recurrence.error);
    }
    r := s.UpdateTask(taskId, BuildUpdateData(req));
  }

  /** `markTaskAsCompleted` and `incrementUserStat(actor, "tasksCompleted")`. */
  method RecordCompletion(s: Store, actorId: UserId, taskId: TaskId, now: CalendarDate)
    requires s.Valid() && taskId in s.tasks
    modifies s
    ensures s.Valid()
    ensures s.State() == Completed(old(s.State()), taskId, actorId, now)
  {
    ghost var db := s.State();
    var marked := s.MarkTaskAsCompleted(taskId, actorId, now);
    ghost var db1 := s.State();
    assert db1 == db.(tasks := Completed(db, taskId, actorId, now).tasks);
    s.IncrementTasksCompleted(actorId);
    assert s.State() == db1.(completions := Completed(db, taskId, actorId, now).completions);
  }

  /** The DONE branch of `updateTask`: the completion is recorded and counted, then the
      recurrence runs; the task itself keeps its row. */
  method CompleteTask(s: Store, actorId: UserId, taskId: TaskId, now: CalendarDate) returns (r: Result<()>)
    requires s.Valid() && taskId in s.tasks
    modifies s
    ensures s.Valid()
    ensures Acyclic(Completed(old(s.State()), taskId, actorId, now).tasks)
    ensures match ProcessRecurrence(Completed(old(s.State()), taskId, actorId, now), taskId)
            case Err(e) => r == Err(e) && s.State() == Completed(old(s.State()), taskId, actorId, now)
            case Ok(db2) => r.Ok? && s.State() == db2
    ensures r.Ok? ==> taskId in s.tasks && s.tasks[taskId] == Completed(old(s.State()), taskId, actorId, now).tasks[taskId]
  {
    RecordCompletion(s, actorId, taskId, now);
    ghost var db1 := s.State();
    assert IdsIssued(db1);
    var recurrence := ProcessTaskRecurrence(s, taskId);
    if recurrence.Err? {
      return Err(recurrence.error);
    }
    ProcessRecurrenceKeepsRows(db1, taskId);
    return Ok(());
  }

  /** `deleteTask`: only the row goes; its subtasks keep pointing at it. */
  method DeleteTask(s: Store, actorId: UserId, taskId: TaskId) returns (r: Result<Task>)
    requires s.Valid()
    modifies s
    ensures s.Valid()
    ensures r.Err? ==> s.State() == old(s.State())
    ensures taskId !in old(s.tasks) ==> r == Fail(404)
    ensures taskId in old(s.tasks) && AccessWalk(old(s.State()), Edit, actorId, taskId) == Broken ==> r == Err(RuntimeError)
    ensures taskId in old(s.tasks) && AccessWalk(old(s.State()), Edit, actorId, taskId) == Denied ==> r == Fail(403)
    ensures r.Ok? <==> taskId in old(s.tasks) && AccessWalk(old(s.State()), Edit, actorId, taskId) == Granted
    ensures r.Ok? ==> r.value == old(s.tasks)[taskId]
    ensures r.Ok? ==> s.State() == old(s.State()).(tasks := old(s.tasks) - {taskId}, order := RemoveId(old(s.order), taskId))
  {
    var task := s.GetTaskById(taskId);
    if task.None? {
      return Fail(404);
    }
    var canEdit := s.HasAccessToEdit(actorId, task.value.task.id);
    if canEdit == Broken {
      return Err(RuntimeError);
    }
    if canEdit == Denied {
      return Fail(403);
    }
    r := s.DeleteTask(taskId);
  }

  /** Once a parent is deleted, the walk from a subtask that does not itself grant u
      access throws. */
  lemma {:induction false} OrphanWalkBreaks(db: Db, m: Mode, u: UserId, c: TaskId)
    requires Acyclic(db.tasks) && c in db.tasks && !Grants(db, m, u, c)
    requires db.tasks[c].parentTaskId.Some? && db.tasks[c].parentTaskId.value !in db.tasks
    ensures AccessWalk(db, m, u, c) == Broken
  {
  }

  /** `cloneTask(actor, id, parentId)`: after the checks on the root, the tree is copied
      for the actor under the caller's parentId. */
  method CloneTask(s: Store, actorId: UserId, taskId: TaskId, parentId: Option<TaskId>) returns (r: Result<()>)
    requires s.Valid()
    modifies s
    ensures s.Valid()
    ensures r.Err? ==> s.State() == old(s.State())
    ensures IsBlank(taskId) ==> r == Fail(400)
    ensures !IsBlank(taskId) && taskId !in old(s.tasks) ==> r == Fail(404)
    ensures taskId in old(s.tasks) && AccessWalk(old(s.State()), View, actorId, taskId) == Broken ==> r == Err(RuntimeError)
    ensures taskId in old(s.tasks) && AccessWalk(old(s.State()), View, actorId, taskId) == Denied ==> r == Fail(403)
    ensures (taskId in old(s.tasks) && AccessWalk(old(s.State()), View, actorId, taskId) == Granted
             && !ParentStored(old(s.State()), parentId)) ==> r == Err(RuntimeError)
    ensures r.Ok? <==> && taskId in old(s.tasks) && AccessWalk(old(s.State()), View, actorId, taskId) == Granted
                       && ParentStored(old(s.State()), parentId)
    ensures r.Ok? ==> s.State() == Clone(old(s.State()), Node(old(s.tasks)[taskId], SubTasksOf(old(s.tasks), old(s.order), taskId)),
                                         actorId, parentId)
    // the stored copy mirrors the tree
    ensures r.Ok? ==>
      var copy := CloneCopy(Node(old(s.tasks)[taskId], SubTasksOf(old(s.tasks), old(s.order), taskId)), actorId, parentId, old(s.nextSerial));
      && Mirrors(copy, Node(old(s.tasks)[taskId], SubTasksOf(old(s.tasks), old(s.order), taskId)), actorId)
      && StoredFrom(s.State(), copy, old(s.nextSerial))
  {
    if IsBlank(taskId) {
      return Fail(400);
    }
    var task := s.GetTaskById(taskId);
    if task.None? {
      return Fail(404);
    }
    var canView := s.HasAccessToView(actorId, task.value.task.id);
    if canView == Broken {
      return Err(RuntimeError);
    }
    if canView == Denied {
      return Fail(403);
    }
    ghost var db := s.State();
    r := CloneSubtree(s, task.value, actorId, parentId);
    if r.Ok? {
      CloneMirrors(task.value, actorId, parentId, db.nextSerial);
      CloneStores(db, task.value, actorId, parentId);
    }
  }

  /** The copying part of `cloneTask`, which the recursive calls (`verify = false`)
      consist of: create the node's copy, then copy each subtask under it. */
  method CloneSubtree(s: Store, tree: TaskTree, actorId: UserId, parentId: Option<TaskId>) returns (r: Result<()>)
    requires s.Valid()
    modifies s
    ensures s.Valid()
    ensures r.Ok? <==> ParentStored(old(s.State()), parentId)
    ensures r.Err? ==> r.error == RuntimeError
    ensures s.State() == Clone(old(s.State()), tree, actorId, parentId)
    decreases tree, 1
  {
    var created := s.CreateTask(actorId, tree.task.title, tree.task.description, tree.task.deadline, parentId, None, None, None);
    if created.Err? {
      return Err(RuntimeError);
    }
    var clonedTask := created.value;
    var copied := CloneChildren(s, tree, actorId, clonedTask.id);
    // the children hang under the copy just stored, so their awaited calls succeed
    assert copied.Ok?;
    return copied;
  }

  /** The loop over the subtasks, each copied under the copy pid and awaited, so that a
      failing copy ends the loop with its error. The copy of a subtask fails only when
      pid names no stored task, and then nothing is stored at all. */
  method CloneChildren(s: Store, tree: TaskTree, actorId: UserId, pid: TaskId) returns (r: Result<()>)
    requires s.Valid()
    modifies s
    ensures s.Valid()
    ensures s.State() == CloneKids(old(s.State()), tree, actorId, pid, |tree.subTasks|)
    ensures pid in old(s.tasks) ==> r.Ok?
    ensures r.Err? ==> pid !in old(s.tasks) && r.error == RuntimeError
    decreases tree, 0
  {
    ghost var db := s.State();
    for i := 0 to |tree.subTasks|
      invariant s.Valid()
      invariant s.State() == CloneKids(db, tree, actorId, pid, i)
      invariant pid in db.tasks ==> pid in s.tasks
    {
      ghost var before := s.State();
      var copied := CloneSubtree(s, tree.subTasks[i], actorId, Some(pid));
      if copied.Err? {
        CloneChildFailed(db, tree, actorId, pid, i);
        return copied;
      }
      if pid in before.tasks {
        CloneKeepsParent(before, tree.subTasks[i], actorId, pid);
      }
    }
    return Ok(());
  }

  /** `markTaskCompleted`: records who completed the task and when, but leaves its
      status as it was. */
  method MarkTaskCompleted(s: Store, actorId: UserId, taskId: TaskId, now: CalendarDate) returns (r: Result<Task>)
    requires s.Valid()
    modifies s
    ensures s.Valid()
    ensures r.Err? ==> s.State() == old(s.State())
    ensures IsBlank(taskId) ==> r == Fail(400)
    ensures !IsBlank(taskId) && taskId !in old(s.tasks) ==> r == Fail(404)
    ensures taskId in old(s.tasks) && AccessWalk(old(s.State()), Edit, actorId, taskId) == Broken ==> r == Err(RuntimeError)
    ensures taskId in old(s.tasks) && AccessWalk(old(s.State()), Edit, actorId, taskId) == Denied ==> r == Fail(403)
    ensures (taskId in old(s.tasks) && AccessWalk(old(s.State()), Edit, actorId, taskId) == Granted
             && old(s.tasks)[taskId].status == Done) ==> r == Fail(400)
    ensures r.Ok? <==> && taskId in old(s.tasks) && AccessWalk(old(s.State()), Edit, actorId, taskId) == Granted
                       && old(s.tasks)[taskId].status != Done
    ensures r.Ok? ==> r.value == old(s.tasks)[taskId].(completedById := Some(actorId), completedAt := Some(now))
    ensures r.Ok? ==> r.value.status == old(s.tasks)[taskId].status
    ensures r.Ok? ==> s.State() == old(s.State()).(tasks := old(s.tasks)[taskId := r.value])
  {
    if IsBlank(taskId) {
      return Fail(400);
    }
    var task := s.GetTaskById(taskId);
    if task.None? {
      return Fail(404);
    }
    var hasAccess := s.HasAccessToEdit(actorId, task.value.task.id);
    if hasAccess == Broken {
      return Err(RuntimeError);
    }
    if hasAccess == Denied {
      return Fail(403);
    }
    if task.value.task.status == Done {
      return Fail(400);
    }
    r := s.MarkTaskAsCompleted(taskId, actorId, now);
  }

  // ---- Recurrence ----

  /** `processTaskRecurrence(taskId)` as `updateTask` calls it, without a parent. */
  method ProcessTaskRecurrence(s: Store, taskId: TaskId) returns (r: Result<Option<Task>>)
    requires s.Valid()
    modifies s
    ensures s.Valid()
    ensures ProcessRecurrence(old(s.State()), taskId).Err? ==>
              r.Err? && r.error == ProcessRecurrence(old(s.State()), taskId).error && s.State() == old(s.State())
    ensures ProcessRecurrence(old(s.State()), taskId).Ok? ==>
              r.Ok? && s.State() == ProcessRecurrence(old(s.State()), taskId).value
    ensures r.Ok? && r.value.Some? ==>
              && taskId in old(s.tasks) && old(s.tasks)[taskId].recurrenceType != Some(Parent)
              && r.value.value == SuccessorRow(old(s.nextSerial), old(s.tasks)[taskId], None)
  {
    if IsBlank(taskId) {
      return Fail(400);
    }
    var task := s.GetTaskById(taskId);
    if task.None? {
      return Fail(404);
    }
    if task.value.task.recurrenceType == Some(Parent) {
      return Ok(None);
    }
    // the parent row the source fetches here is read only for PARENT-typed tasks
    r := RecurSubtree(s, task.value, None);
  }

  /** One call of `processTaskRecurrence` on the task of tree below the occurrence
      parentRec: the occurrence, its copied rows, then the subtasks with the occurrence
      as their parent. */
  method RecurSubtree(s: Store, tree: TaskTree, parentRec: Option<Task>) returns (r: Result<Option<Task>>)
    requires s.Valid()
    requires tree.task.recurrenceType == Some(Parent) ==> parentRec.Some?
    modifies s
    ensures s.Valid()
    ensures s.State() == Recur(old(s.State()), tree, parentRec)
    ensures r.Err? <==> tree.task.recurrenceType.Some? && !ParentStored(old(s.State()), ParentArg(tree.task, parentRec))
    ensures r.Err? ==> r.error == RuntimeError
    ensures r == Ok(None) <==> tree.task.recurrenceType.None?
    ensures r.Ok? && r.value.Some? ==> r.value.value == SuccessorRow(old(s.nextSerial), tree.task, parentRec)
    decreases tree, 1
  {
    ghost var db := s.State();
    var task := tree.task;
    if task.recurrenceType.None? {
      return Ok(None);
    }
    var created := CreateOccurrence(s, task, parentRec);
    if created.Err? {
      return Err(RuntimeError);
    }
    var taskRecurrence := created.value;
    var assignments := s.GetTaskAssignments(task.id);
    var subscriptions := s.GetTaskSubscriptions(task.id);
    CopyAssignments(s, assignments, taskRecurrence.id);
    CopySubscriptions(s, subscriptions, taskRecurrence.id);
    RecurChildren(s, tree, taskRecurrence);
    return Ok(Some(taskRecurrence));
  }

  /** The occurrence of a recurring task: its schedule (the parent's for type PARENT)
      moved on by one period, under the parent's occurrence or the task's own parent. */
  method CreateOccurrence(s: Store, task: Task, parentRec: Option<Task>) returns (r: Result<Task>)
    requires s.Valid()
    requires task.recurrenceType == Some(Parent) ==> parentRec.Some?
    modifies s
    ensures s.Valid()
    ensures r.Err? <==> !ParentStored(old(s.State()), ParentArg(task, parentRec))
    ensures r.Err? ==> r.error == RuntimeError && s.State() == old(s.State())
    ensures r.Ok? ==> r.value == SuccessorRow(old(s.nextSerial), task, parentRec) && s.State() == Inserted(old(s.State()), r.value)
  {
    var source := ScheduleSource(task, parentRec);
    var recurrenceOptions := CalculateRecurrenceOptions(source.recurrenceType, source.recurrenceExpiresAt, source.recurrences);
    var newDeadline := CalculateNextDeadline(task.deadline, source.recurrenceType);
    r := s.CreateTask(task.creatorId, task.title, task.description, newDeadline, ParentArg(task, parentRec),
                      recurrenceOptions.recurrenceType, recurrenceOptions.recurrenceExpiresAt,
                      recurrenceOptions.recurrences);
  }

  /** The loop over the subtasks: each is processed below the occurrence succ. The
      calls are not awaited in the source, so their outcomes are dropped. */
  method RecurChildren(s: Store, tree: TaskTree, succ: Task)
    requires s.Valid()
    modifies s
    ensures s.Valid()
    ensures s.State() == RecurKids(old(s.State()), tree, succ, |tree.subTasks|)
    decreases tree, 0
  {
    ghost var db := s.State();
    for i := 0 to |tree.subTasks|
      invariant s.Valid()
      invariant s.State() == RecurKids(db, tree, succ, i)
    {
      var _ := RecurSubtree(s, tree.subTasks[i], Some(succ));
    }
  }

  /** `createAssignment(to, a.userId)` for each row a, in order. */
  method CopyAssignments(s: Store, rows: seq<Link>, to: TaskId)
    requires s.Valid()
    modifies s
    ensures s.Valid()
    ensures s.State() == old(s.State()).(assignments := old(s.assignments) + Relink(rows, to))
  {
    ghost var db := s.State();
    for i := 0 to |rows|
      invariant s.Valid()
      invariant s.State() == db.(assignments := db.assignments + Relink(rows[..i], to))
    {
      var _ := s.CreateAssignment(to, rows[i].userId);
      assert Relink(rows[..i + 1], to) == Relink(rows[..i], to) + [Link(to, rows[i].userId)];
    }
    assert rows[..|rows|] == rows;
  }

  /** `createSubscription(to, a.userId)` for each row a, in order. */
  method CopySubscriptions(s: Store, rows: seq<Link>, to: TaskId)
    requires s.Valid()
    modifies s
    ensures s.Valid()
    ensures s.State() == old(s.State()).(subscriptions := old(s.subscriptions) + Relink(rows, to))
  {
    ghost var db := s.State();
    for i := 0 to |rows|
      invariant s.Valid()
      invariant s.State() == db.(subscriptions := db.subscriptions + Relink(rows[..i], to))
    {
      var _ := s.CreateSubscription(to, rows[i].userId);
      assert Relink(rows[..i + 1], to) == Relink(rows[..i], to) + [Link(to, rows[i].userId)];
    }
    assert rows[..|rows|] == rows;
  }

  // ---- Notes and objectives ----

  /** The note and objective handlers; their effects on the note and objective tables
      are not modelled, only the guards in front of them. */
  datatype AnnexOp = CreateNote | GetNotes | DeleteNote | CreateObjective | GetObjectives | DeleteObjective

  /** What a handler demands of the caller. */
  datatype Need = ViewAccess | EditAccess | DirectCreator

  function NeedOf(op: AnnexOp): Need {
    match op
    case CreateNote => ViewAccess
    case GetNotes => ViewAccess
    case GetObjectives => EditAccess
    case DeleteNote => DirectCreator
    case CreateObjective => DirectCreator
    case DeleteObjective => DirectCreator
  }

  /** The handlers that also reject a blank note text, note id or objective. */
  predicate ChecksArgument(op: AnnexOp) {
    op == CreateNote || op == DeleteNote || op == CreateObjective
  }

  /** The verdict on a stored task. */
  ghost function Permission(db: Db, actorId: UserId, id: TaskId, need: Need): Result<()>
    requires Acyclic(db.tasks) && id in db.tasks
  {
    match need
    case ViewAccess => Verdict(AccessWalk(db, View, actorId, id))
    case EditAccess => Verdict(AccessWalk(db, Edit, actorId, id))
    case DirectCreator => if db.tasks[id].creatorId == actorId then Ok(()) else Fail(403)
  }

  /** The guard chain of a note or objective handler: 400 for a blank task id, 400 for
      a blank argument where it is checked, 404, then the handler's own demand. */
  method AnnexGuard(s: Store, actorId: UserId, op: AnnexOp, taskId: TaskId, arg: string) returns (r: Result<()>)
    requires s.Valid()
    ensures IsBlank(taskId) ==> r == Fail(400)
    ensures !IsBlank(taskId) && ChecksArgument(op) && IsBlank(arg) ==> r == Fail(400)
    ensures (!IsBlank(taskId) && !(ChecksArgument(op) && IsBlank(arg)) && taskId !in s.tasks) ==> r == Fail(404)
    ensures (taskId in s.tasks && !(ChecksArgument(op) && IsBlank(arg))) ==> r == Permission(s.State(), actorId, taskId, NeedOf(op))
  {
    if IsBlank(taskId) {
      return Fail(400);
    }
    if ChecksArgument(op) && IsBlank(arg) {
      return Fail(400);
    }
    var task := s.GetTaskById(taskId);
    if task.None? {
      return Fail(404);
    }
    match NeedOf(op)
    case ViewAccess =>
      var w := s.HasAccessToView(actorId, task.value.task.id);
      r := Verdict(w);
    case EditAccess =>
      var w := s.HasAccessToEdit(actorId, task.value.task.id);
      r := Verdict(w);
    case DirectCreator =>
      r := if task.value.task.creatorId == actorId then Ok(()) else Fail(403);
  }
}
