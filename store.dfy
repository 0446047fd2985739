/**
 * The store the repositories read and write (services/repositories/taskRepository.js,
 * services/repositories/accessRepository.js), as one object whose fields are the
 * tables. Each repository function is a method; the Prisma query it issues becomes a
 * direct read or update of the fields.
 */
module Repository {
  import opened Wrappers
  import opened Errors
  import opened Dates
  import opened Recurrence
  import opened Model
  import opened Forest
  import opened Access

  /** The tasks `ids` names, in that order, each with its subtree. */
  ghost predicate ListsTrees(tasks: map<TaskId, Task>, order: seq<TaskId>, ids: seq<TaskId>, r: seq<TaskTree>)
    requires Acyclic(tasks)
  {
    |r| == |ids| &&
    forall k :: 0 <= k < |ids| ==> ids[k] in tasks && r[k] == Node(tasks[ids[k]], SubTasksOf(tasks, order, ids[k]))
  }

  /** One more tree at the end of the list: the loop step of the repository's listings. */
  lemma ListsTreesSnoc(tasks: map<TaskId, Task>, order: seq<TaskId>, ids: seq<TaskId>, i: nat, r: seq<TaskTree>)
    requires Acyclic(tasks) && i < |ids| && ids[i] in tasks && ListsTrees(tasks, order, ids[..i], r)
    ensures ListsTrees(tasks, order, ids[..i + 1], r + [Node(tasks[ids[i]], SubTasksOf(tasks, order, ids[i]))])
  {
  }

  /** The task ids of a list of rows, row by row. */
  function TaskIdsOf(rows: seq<Link>): (ids: seq<TaskId>)
    ensures |ids| == |rows| && forall k :: 0 <= k < |rows| ==> ids[k] == rows[k].taskId
  {
    seq(|rows|, k requires 0 <= k < |rows| => rows[k].taskId)
  }

  /** Every row names a stored task. */
  predicate RowsStored(tasks: map<TaskId, Task>, rows: seq<Link>) {
    forall k :: 0 <= k < |rows| ==> rows[k].taskId in tasks
  }

  /** The store with task t added under its id. */
  function Inserted(db: Db, t: Task): Db {
    db.(tasks := db.tasks[t.id := t], order := db.order + [t.id], nextSerial := db.nextSerial + 1)
  }

  /** Adding a task with the next id whose parent, if any, is stored keeps the store
      well formed, and ranking it above its parent (returned as rank') keeps the links
      acyclic. */
  lemma {:induction false} InsertKeepsValid(db: Db, rank: map<TaskId, nat>, t: Task) returns (rank': map<TaskId, nat>)
    requires WellFormed(db) && Ranked(db.tasks, rank)
    requires t.id == MintId(db.nextSerial)
    requires t.parentTaskId.Some? ==> t.parentTaskId.value in db.tasks
    ensures t.id !in db.tasks
    ensures WellFormed(Inserted(db, t))
    ensures Ranked(Inserted(db, t).tasks, rank')
  {
    NextIdUnused(db);
    rank' := rank[t.id := if t.parentTaskId.Some? then rank[t.parentTaskId.value] + 1 else 0];
    var db' := Inserted(db, t);
    forall x | x in db'.tasks && ParentIn(db'.tasks, x)
      ensures rank'[db'.tasks[x].parentTaskId.value] < rank'[x]
    {
      if x != t.id {
        assert ParentIn(db.tasks, x);
      }
    }
    assert Distinct(db'.order) by {
      assert t.id !in db.order;
    }
  }

  /** Removing a row keeps the ranking. */
  lemma {:induction false} RemoveKeepsRanked(tasks: map<TaskId, Task>, rank: map<TaskId, nat>, id: TaskId)
    requires Ranked(tasks, rank)
    ensures Ranked(tasks - {id}, rank)
  {
    var tasks' := tasks - {id};
    forall x | x in tasks' && ParentIn(tasks', x)
      ensures rank[tasks'[x].parentTaskId.value] < rank[x]
    {
      assert ParentIn(tasks, x);
    }
  }

  /** Editing a task's fields other than its parent keeps the ranking. */
  lemma {:induction false} RankedAfterEdit(tasks: map<TaskId, Task>, rank: map<TaskId, nat>, id: TaskId, t: Task)
    requires Ranked(tasks, rank) && id in tasks && t.parentTaskId == tasks[id].parentTaskId
    ensures Ranked(tasks[id := t], rank)
  {
    var tasks' := tasks[id := t];
    forall x | x in tasks' && ParentIn(tasks', x)
      ensures rank[tasks'[x].parentTaskId.value] < rank[x]
    {
      assert ParentIn(tasks, x);
    }
  }

  class Store {
    var tasks: map<TaskId, Task>
    var order: seq<TaskId>
    var applications: seq<Link>
    var invitations: seq<Invitation>
    var assignments: seq<Link>
    var subscriptions: seq<Link>
    var users: map<UserId, UserRecord>
    var emails: map<string, UserId>
    var completions: map<UserId, nat>
    var nextSerial: nat
    /** A ranking witnessing that the parent links are acyclic. */
    ghost var rank: map<TaskId, nat>

    function State(): Db
      reads this
    {
      Db(tasks, order, applications, invitations, assignments, subscriptions, users, emails, completions, nextSerial)
    }

    ghost predicate Valid()
      reads this
      ensures Valid() ==> Acyclic(tasks)
    {
      WellFormed(State()) && Ranked(tasks, rank)
    }

    /** A store holding the given users and no tasks. */
    constructor (users: map<UserId, UserRecord>, emails: map<string, UserId>)
      ensures Valid()
      ensures State() == Db(map[], [], [], [], [], [], users, emails, map[], 0)
    {
      tasks, order := map[], [];
      applications, invitations, assignments, subscriptions := [], [], [], [];
      this.users, this.emails := users, emails;
      completions, nextSerial := map[], 0;
      rank := map[];
    }

    // ---- Reading tasks ----

    /** `getSubTasksRecursively(id)`: the stored children of id, in listing order, each
        given its own subtasks in turn. */
    method SubTasksRecursively(id: TaskId) returns (subTasks: seq<TaskTree>)
      requires Acyclic(tasks) && id in tasks
      ensures subTasks == SubTasksOf(tasks, order, id)
      decreases |tasks.Keys - AncestorSet(tasks, id)|
    {
      var kids := ChildIds(tasks, order, id);
      subTasks := [];
      for i := 0 to |kids|
        invariant ListsTrees(tasks, order, kids[..i], subTasks)
      {
        var c := kids[i];
        assert c in kids;
        PoolShrinks(tasks, id, c);
        var sub := SubTasksRecursively(c);
        ListsTreesSnoc(tasks, order, kids, i, subTasks);
        subTasks := subTasks + [Node(tasks[c], sub)];
      }
      assert kids[..|kids|] == kids;
      SubTasksUnfold(tasks, order, id);
    }

    /** `getTaskById(id)`: the task with its subtree, or null. */
    method GetTaskById(id: TaskId) returns (r: Option<TaskTree>)
      requires Acyclic(tasks)
      ensures r.Some? <==> id in tasks
      ensures r.Some? ==> r.value == Node(tasks[id], SubTasksOf(tasks, order, id))
    {
      if id in tasks {
        var sub := SubTasksRecursively(id);
        r := Some(Node(tasks[id], sub));
      } else {
        r := None;
      }
    }

    /** `getAllOwnedTasks(u)`: every task u created, in listing order, with its subtree. */
    method GetAllOwnedTasks(u: UserId) returns (r: seq<TaskTree>)
      requires Valid()
      ensures ListsTrees(tasks, order, OwnedIds(tasks, order, u), r)
      ensures forall k :: 0 <= k < |r| ==> r[k].task.creatorId == u
      ensures forall id :: id in tasks && tasks[id].creatorId == u ==> exists k :: 0 <= k < |r| && r[k].task.id == id
    {
      var ids := OwnedIds(tasks, order, u);
      r := [];
      for i := 0 to |ids|
        invariant ListsTrees(tasks, order, ids[..i], r)
      {
        assert ids[i] in ids;
        var sub := SubTasksRecursively(ids[i]);
        ListsTreesSnoc(tasks, order, ids, i, r);
        r := r + [Node(tasks[ids[i]], sub)];
      }
      assert ids[..|ids|] == ids;
      forall id | id in tasks && tasks[id].creatorId == u
        ensures exists k :: 0 <= k < |r| && r[k].task.id == id
      {
        assert id in ids;
        var k :| 0 <= k < |ids| && ids[k] == id;
        assert r[k].task.id == id;
      }
    }

    /** The two loops of `getAllAssignedTasks` / `getAllSubscribedTasks`: look up the task
        of every row (null when it is gone), then attach each one's subtree, which throws
        at the first null. */
    method TasksOfRows(rows: seq<Link>) returns (r: Result<seq<TaskTree>>)
      requires Valid()
      ensures r.Ok? <==> RowsStored(tasks, rows)
      ensures r.Ok? ==> ListsTrees(tasks, order, TaskIdsOf(rows), r.value)
      ensures r.Err? ==> r.error == RuntimeError
    {
      var found: seq<Option<Task>> := [];
      for i := 0 to |rows|
        invariant |found| == i
        invariant forall k :: 0 <= k < i ==>
          found[k] == if rows[k].taskId in tasks then Some(tasks[rows[k].taskId]) else None
      {
        var t := if rows[i].taskId in tasks then Some(tasks[rows[i].taskId]) else None;
        found := found + [t];
      }
      ghost var ids := TaskIdsOf(rows);
      var trees: seq<TaskTree> := [];
      for i := 0 to |found|
        invariant ListsTrees(tasks, order, ids[..i], trees)
      {
        if found[i].None? {
          return Err(RuntimeError);
        }
        var sub := SubTasksRecursively(found[i].value.id);
        ListsTreesSnoc(tasks, order, ids, i, trees);
        trees := trees + [Node(found[i].value, sub)];
      }
      assert ids[..|ids|] == ids;
      return Ok(trees);
    }

    /** `getAllAssignedTasks(u)`: one task per Assignment row of u, in row order. */
    method GetAllAssignedTasks(u: UserId) returns (r: Result<seq<TaskTree>>)
      requires Valid()
      ensures r.Ok? <==> RowsStored(tasks, RowsForUser(assignments, u))
      ensures r.Ok? ==> ListsTrees(tasks, order, TaskIdsOf(RowsForUser(assignments, u)), r.value)
      ensures r.Err? ==> r.error == RuntimeError
    {
      var rows := RowsForUser(assignments, u);
      r := TasksOfRows(rows);
    }

    /** `getAllSubscribedTasks(u)`: one task per Subscription row of u, in row order. */
    method GetAllSubscribedTasks(u: UserId) returns (r: Result<seq<TaskTree>>)
      requires Valid()
      ensures r.Ok? <==> RowsStored(tasks, RowsForUser(subscriptions, u))
      ensures r.Ok? ==> ListsTrees(tasks, order, TaskIdsOf(RowsForUser(subscriptions, u)), r.value)
      ensures r.Err? ==> r.error == RuntimeError
    {
      var rows := RowsForUser(subscriptions, u);
      r := TasksOfRows(rows);
    }
  
    // ---- Writing tasks ----

    /** `createTask(...)`: a new row with a fresh id, status OPEN, not public, no
        completion; an absent or empty parent id is stored as null. The database
        refuses a parent id that names no stored task. */
    method CreateTask(creatorId: UserId, title: string, description: Option<string>, deadline: Option<CalendarDate>,
                      parentTaskId: Option<TaskId>, recurrenceType: Option<RecurrenceType>,
                      recurrenceExpiresAt: Option<CalendarDate>, recurrences: Option<int>) returns (r: Result<Task>)
      requires Valid()
      modifies this
      ensures Valid()
      ensures r.Err? <==> OrNull(parentTaskId).Some? && OrNull(parentTaskId).value !in old(tasks)
      ensures r.Err? ==> r.error == RuntimeError && State() == old(State())
      ensures r.Ok? ==>
        && r.value == Task(MintId(old(nextSerial)), title, description, deadline, Open, false, creatorId,
                           OrNull(parentTaskId), None, None, recurrenceType, recurrenceExpiresAt, recurrences)
        && r.value.id !in old(tasks)
        && State() == Inserted(old(State()), r.value)
    {
      var parent := OrNull(parentTaskId);
      if parent.Some? && parent.value !in tasks {
        return Err(RuntimeError);
      }
      var task := Task(MintId(nextSerial), title, description, deadline, Open, false, creatorId, parent, None, None,
                       recurrenceType, recurrenceExpiresAt, recurrences);
      InsertRow(task);
      r := Ok(task);
    }

    /** `prisma.task.create`: stores t under the generator's next id. */
    method InsertRow(t: Task)
      requires Valid()
      requires t.id == MintId(nextSerial)
      requires t.parentTaskId.Some? ==> t.parentTaskId.value in tasks
      modifies this
      ensures Valid()
      ensures t.id !in old(tasks)
      ensures State() == Inserted(old(State()), t)
    {
      ghost var db := State();
      ghost var rank' := InsertKeepsValid(db, rank, t);
      tasks, order, nextSerial, rank := tasks[t.id := t], order + [t.id], nextSerial + 1, rank';
      assert State() == Inserted(db, t);
    }

    /** `updateTask(id, data)`: the row's supplied fields are overwritten; a missing row
        makes the database throw. */
    method UpdateTask(id: TaskId, data: UpdateData) returns (r: Result<Task>)
      requires Valid()
      modifies this
      ensures Valid()
      ensures r.Err? <==> id !in old(tasks)
      ensures r.Err? ==> r.error == RuntimeError && State() == old(State())
      ensures r.Ok? ==> r.value == ApplyUpdate(old(tasks)[id], data)
      ensures r.Ok? ==> State() == old(State()).(tasks := old(tasks)[id := r.value])
    {
      if id !in tasks {
        return Err(RuntimeError);
      }
      var task := ApplyUpdate(tasks[id], data);
      RankedAfterEdit(tasks, rank, id, task);
      tasks := tasks[id := task];
      r := Ok(task);
    }

    /** `deleteTask(id)`: that row alone goes; its subtasks and relationship rows stay. */
    method DeleteTask(id: TaskId) returns (r: Result<Task>)
      requires Valid()
      modifies this
      ensures Valid()
      ensures r.Err? <==> id !in old(tasks)
      ensures r.Err? ==> r.error == RuntimeError && State() == old(State())
      ensures r.Ok? ==> r.value == old(tasks)[id]
      ensures r.Ok? ==> State() == old(State()).(tasks := old(tasks) - {id}, order := RemoveId(old(order), id))
    {
      if id !in tasks {
        return Err(RuntimeError);
      }
      r := Ok(tasks[id]);
      RemoveKeepsRanked(tasks, rank, id);
      tasks := tasks - {id};
      order := RemoveId(order, id);
    }

    /** `markTaskAsCompleted(id, completedBy)` at time `now`: records who completed the task and
        when; the status and every other field stay as they were. */
    method MarkTaskAsCompleted(id: TaskId, completedBy: UserId, now: CalendarDate) returns (r: Result<Task>)
      requires Valid()
      modifies this
      ensures Valid()
      ensures r.Err? <==> id !in old(tasks)
      ensures r.Err? ==> r.error == RuntimeError && State() == old(State())
      ensures r.Ok? ==> r.value == old(tasks)[id].(completedById := Some(completedBy), completedAt := Some(now))
      ensures r.Ok? ==> State() == old(State()).(tasks := old(tasks)[id := r.value])
    {
      if id !in tasks {
        return Err(RuntimeError);
      }
      var task := tasks[id].(completedById := Some(completedBy), completedAt := Some(now));
      RankedAfterEdit(tasks, rank, id, task);
      tasks := tasks[id := task];
      r := Ok(task);
    }

    /** `unmarkTaskAsCompleted(id)`: clears exactly the two completion fields. */
    method UnmarkTaskAsCompleted(id: TaskId) returns (r: Result<Task>)
      requires Valid()
      modifies this
      ensures Valid()
      ensures r.Err? <==> id !in old(tasks)
      ensures r.Err? ==> r.error == RuntimeError && State() == old(State())
      ensures r.Ok? ==> r.value == old(tasks)[id].(completedById := None, completedAt := None)
      ensures r.Ok? ==> State() == old(State()).(tasks := old(tasks)[id := r.value])
    {
      if id !in tasks {
        return Err(RuntimeError);
      }
      var task := tasks[id].(completedById := None, completedAt := None);
      RankedAfterEdit(tasks, rank, id, task);
      tasks := tasks[id := task];
      r := Ok(task);
    }

    // ---- Access control ----

    /** `hasAccessToEdit(u, t)`: climbs from t through the parents, reading each task's
        Assignment rows, until a task u created or is assigned to, or a root. */
    method HasAccessToEdit(u: UserId, t: TaskId) returns (w: Walk)
      requires Valid()
      ensures w == AccessWalk(State(), Edit, u, t)
    {
      var current := GetTaskById(t);
      if current.None? {
        return Broken;
      }
      var task := current.value.task;
      var assignmentRows := RowsForTask(assignments, task.id);
      while true
        invariant task.id in tasks && tasks[task.id] == task
        invariant assignmentRows == RowsForTask(assignments, task.id)
        invariant AccessWalk(State(), Edit, u, task.id) == AccessWalk(State(), Edit, u, t)
        decreases rank[task.id]
      {
        SomeRowForTask(assignments, task.id, u);
        if task.creatorId == u || SomeRowFor(assignmentRows, u) {
          return Granted;
        }
        if task.parentTaskId.Some? {
          var parent := GetTaskById(task.parentTaskId.value);
          if parent.None? {
            return Broken;
          }
          assert ParentIn(tasks, task.id);
          task := parent.value.task;
          assignmentRows := RowsForTask(assignments, task.id);
        } else {
          break;
        }
      }
      return Denied;
    }

    /** `hasAccessToView(u, t)`: a public task grants at once; otherwise the climb of
        `hasAccessToEdit`, where Subscription rows and public ancestors grant too. */
    method HasAccessToView(u: UserId, t: TaskId) returns (w: Walk)
      requires Valid()
      ensures w == AccessWalk(State(), View, u, t)
    {
      var current := GetTaskById(t);
      if current.None? {
        return Broken;
      }
      var task := current.value.task;
      if task.isPublic {
        return Granted;
      }
      var subscriptionRows := RowsForTask(subscriptions, task.id);
      var assignmentRows := RowsForTask(assignments, task.id);
      while true
        invariant task.id in tasks && tasks[task.id] == task
        invariant subscriptionRows == RowsForTask(subscriptions, task.id)
        invariant assignmentRows == RowsForTask(assignments, task.id)
        invariant AccessWalk(State(), View, u, task.id) == AccessWalk(State(), View, u, t)
        decreases rank[task.id]
      {
        SomeRowForTask(subscriptions, task.id, u);
        SomeRowForTask(assignments, task.id, u);
        if task.creatorId == u || SomeRowFor(subscriptionRows, u) || SomeRowFor(assignmentRows, u) || task.isPublic {
          return Granted;
        }
        if task.parentTaskId.Some? {
          var parent := GetTaskById(task.parentTaskId.value);
          if parent.None? {
            return Broken;
          }
          assert ParentIn(tasks, task.id);
          task := parent.value.task;
          subscriptionRows := RowsForTask(subscriptions, task.id);
          assignmentRows := RowsForTask(assignments, task.id);
        } else {
          break;
        }
      }
      return Denied;
    }
  
    // ---- Relationship rows ----

    /** `getUserInvites(u)`: the invitations addressed to u. */
    method GetUserInvites(u: UserId) returns (r: seq<Invitation>)
      ensures forall x :: x in r <==> x in invitations && x.invitedId == u
      ensures r == InvitationsOf(invitations, u)
    {
      r := InvitationsOf(invitations, u);
    }

    /** `hasAppliedToTask(u, t)`: the application row of u for t, or null. */
    method HasAppliedToTask(u: UserId, t: TaskId) returns (r: Option<Link>)
      ensures r.Some? <==> Link(t, u) in applications
      ensures r.Some? ==> r.value == Link(t, u)
    {
      r := if Link(t, u) in applications then Some(Link(t, u)) else None;
    }

    /** `hasBeenInvitedToTask(u, t)`: whether an invitation of u to t exists, whoever
        sent it. */
    method HasBeenInvitedToTask(u: UserId, t: TaskId) returns (b: bool)
      ensures b <==> Invited(invitations, u, t)
      ensures b <==> exists x :: x in invitations && x.taskId == t && x.invitedId == u
    {
      b := exists i :: 0 <= i < |invitations| && InvitationMatches(invitations[i], u, t);
      if b {
        var i :| 0 <= i < |invitations| && InvitationMatches(invitations[i], u, t);
        assert invitations[i] in invitations;
      }
      if exists x :: x in invitations && x.taskId == t && x.invitedId == u {
        var x :| x in invitations && x.taskId == t && x.invitedId == u;
        var i :| 0 <= i < |invitations| && invitations[i] == x;
      }
    }

    method CreateInvitation(t: TaskId, inviterId: UserId, invitedId: UserId) returns (r: Invitation)
      requires Valid()
      modifies this
      ensures Valid()
      ensures r == Invitation(t, inviterId, invitedId)
      ensures State() == old(State()).(invitations := old(invitations) + [r])
    {
      r := Invitation(t, inviterId, invitedId);
      invitations := invitations + [r];
    }

    /** `deleteInvitation(u, t)`: removes every invitation of u to t and returns how many
        went. */
    method DeleteInvitation(u: UserId, t: TaskId) returns (count: nat)
      requires Valid()
      modifies this
      ensures Valid()
      ensures State() == old(State()).(invitations := WithoutInvitations(old(invitations), u, t))
      ensures count == |old(invitations)| - |invitations|
    {
      var kept := WithoutInvitations(invitations, u, t);
      DeletionCount(invitations, u, t);
      count := |invitations| - |kept|;
      invitations := kept;
    }

    method CreateApplication(u: UserId, t: TaskId) returns (r: Link)
      requires Valid()
      modifies this
      ensures Valid()
      ensures r == Link(t, u)
      ensures State() == old(State()).(applications := old(applications) + [r])
    {
      r := Link(t, u);
      applications := applications + [r];
    }

    /** `deleteApplication(u, t)`: removes every application of u to t. */
    method DeleteApplication(u: UserId, t: TaskId) returns (count: nat)
      requires Valid()
      modifies this
      ensures Valid()
      ensures State() == old(State()).(applications := WithoutLink(old(applications), Link(t, u)))
      ensures count == |old(applications)| - |applications|
    {
      var kept := WithoutLink(applications, Link(t, u));
      WithoutLinkCounts(applications, Link(t, u));
      count := |applications| - |kept|;
      applications := kept;
    }

    /** `getTaskApplications(t)`. */
    method GetTaskApplications(t: TaskId) returns (r: seq<Link>)
      ensures forall x :: x in r <==> x in applications && x.taskId == t
      ensures r == RowsForTask(applications, t)
    {
      r := RowsForTask(applications, t);
    }

    method CreateSubscription(t: TaskId, u: UserId) returns (r: Link)
      requires Valid()
      modifies this
      ensures Valid()
      ensures r == Link(t, u)
      ensures State() == old(State()).(subscriptions := old(subscriptions) + [r])
    {
      r := Link(t, u);
      subscriptions := subscriptions + [r];
    }

    /** `getTaskSubscriptions(t)`. */
    method GetTaskSubscriptions(t: TaskId) returns (r: seq<Link>)
      ensures forall x :: x in r <==> x in subscriptions && x.taskId == t
      ensures r == RowsForTask(subscriptions, t)
    {
      r := RowsForTask(subscriptions, t);
    }

    method CreateAssignment(t: TaskId, u: UserId) returns (r: Link)
      requires Valid()
      modifies this
      ensures Valid()
      ensures r == Link(t, u)
      ensures State() == old(State()).(assignments := old(assignments) + [r])
    {
      r := Link(t, u);
      assignments := assignments + [r];
    }

    /** `getTaskAssignments(t)`. */
    method GetTaskAssignments(t: TaskId) returns (r: seq<Link>)
      ensures forall x :: x in r <==> x in assignments && x.taskId == t
      ensures r == RowsForTask(assignments, t)
    {
      r := RowsForTask(assignments, t);
    }

    /** `unlinkUserFromTask(t, u)`: every Subscription and every Assignment row of u for
        t goes; no other row changes. */
    method UnlinkUserFromTask(t: TaskId, u: UserId)
      requires Valid()
      modifies this
      ensures Valid()
      ensures State() == old(State()).(subscriptions := WithoutLink(old(subscriptions), Link(t, u)),
                                       assignments := WithoutLink(old(assignments), Link(t, u)))
      ensures Link(t, u) !in subscriptions && Link(t, u) !in assignments
    {
      subscriptions := WithoutLink(subscriptions, Link(t, u));
      assignments := WithoutLink(assignments, Link(t, u));
    }

    // ---- The user directory ----

    method GetUserById(id: UserId) returns (r: Option<UserRecord>)
      ensures r.Some? <==> id in users
      ensures r.Some? ==> r.value == users[id]
    {
      r := if id in users then Some(users[id]) else None;
    }

    method GetUserByEmail(email: string) returns (r: Option<UserRecord>)
      ensures r.Some? <==> email in emails && emails[email] in users
      ensures r.Some? ==> r.value == users[emails[email]]
    {
      r := if email in emails && emails[email] in users then Some(users[emails[email]]) else None;
    }

    /** `incrementUserStat(u, "tasksCompleted")`. */
    method IncrementTasksCompleted(u: UserId)
      requires Valid()
      modifies this
      ensures Valid()
      ensures State() == old(State()).(completions := old(completions)[u := CompletionsOf(old(completions), u) + 1])
    {
      completions := completions[u := CompletionsOf(completions, u) + 1];
    }
  }
}
