/**
 * The older access checks of services/handlers/authHandler.js. They climb from a task
 * object to its ancestors as the repository walk does, but decide on the task object
 * alone: its creator, its `assignedUsers` list when the object carries one, and (when
 * viewing) its `isPublic` flag. Each parent is fetched by id; the fetch is a lookup in
 * `tasks`, and `lists` holds the `assignedUsers` list of those fetched objects that
 * carry one.
 */
module LegacyAuth {
  import opened Wrappers
  import opened Model
  import opened Forest
  import opened Access

  /** A task object as the check sees it: the row and its optional `assignedUsers`. */
  datatype Fetched = Fetched(task: Task, assignedUsers: Option<seq<UserId>>)

  /** The object the parent fetch returns for a stored id. */
  function FetchOf(tasks: map<TaskId, Task>, lists: map<TaskId, seq<UserId>>, id: TaskId): Fetched
    requires id in tasks
  {
    Fetched(tasks[id], if id in lists then Some(lists[id]) else None)
  }

  /** The test applied to one object. Editing: u created it, or it lists u in
      `assignedUsers` (read with `?.`, so a missing list matches nobody). Viewing: u
      created it; otherwise the list is read without `?.`, so a missing list throws;
      otherwise u is listed or the task is public. */
  function LegacyTest(m: Mode, f: Fetched, u: UserId): (w: Walk)
    ensures m.Edit? ==> w != Broken
    ensures w == Granted ==> f.task.creatorId == u || (f.assignedUsers.Some? && u in f.assignedUsers.value)
                             || (m.View? && f.task.isPublic)
    ensures w == Broken <==> m.View? && f.task.creatorId != u && f.assignedUsers.None?
  {
    if f.task.creatorId == u then Granted
    else if f.assignedUsers.None? then (if m.Edit? then Denied else Broken)
    else if u in f.assignedUsers.value || (m.View? && f.task.isPublic) then Granted
    else Denied
  }

  /** How far the climb from f can still go: one past the rank of f's stored parent. */
  ghost function Height(tasks: map<TaskId, Task>, f: Fetched): nat
    requires Acyclic(tasks)
  {
    var p := f.task.parentTaskId;
    if p.Some? && p.value in tasks then RankOf(tasks)[p.value] + 1 else 0
  }

  /** The outcome of the climb from f: a test that is not a plain "no" decides, as does
      the test of a root (the check after the loop); otherwise the parent is fetched, and a
      parent that is not stored is null, whose property read throws. */
  ghost function LegacyWalk(tasks: map<TaskId, Task>, lists: map<TaskId, seq<UserId>>,
                            m: Mode, u: UserId, f: Fetched): Walk
    requires Acyclic(tasks)
    decreases Height(tasks, f)
  {
    var w := LegacyTest(m, f, u);
    if f.task.parentTaskId.None? || w != Denied then w
    else if f.task.parentTaskId.value !in tasks then Broken
    else
      var p := f.task.parentTaskId.value;
      assert ParentIn(tasks, p) ==> RankOf(tasks)[tasks[p].parentTaskId.value] < RankOf(tasks)[p];
      LegacyWalk(tasks, lists, m, u, FetchOf(tasks, lists, p))
  }

  /** The objects the climb from f can reach: f, then each fetched parent while it is
      stored. */
  ghost function LegacyChain(tasks: map<TaskId, Task>, lists: map<TaskId, seq<UserId>>,
                             f: Fetched): (c: seq<Fetched>)
    requires Acyclic(tasks)
    ensures |c| >= 1 && c[0] == f
    decreases Height(tasks, f)
  {
    var p := f.task.parentTaskId;
    if p.Some? && p.value in tasks then
      assert ParentIn(tasks, p.value) ==> RankOf(tasks)[tasks[p.value].parentTaskId.value] < RankOf(tasks)[p.value];
      [f] + LegacyChain(tasks, lists, FetchOf(tasks, lists, p.value))
    else [f]
  }

  /** The last object of a chain ends it: it is a root, or its parent is not stored. */
  ghost predicate EndsAtRoot(c: seq<Fetched>)
    requires |c| >= 1
  {
    c[|c| - 1].task.parentTaskId.None?
  }

  /** `hasAccessToEdit(user, task)`: the loop tests each non-root object and fetches its
      parent; the root's test is the answer. */
  method HasAccessToEdit(tasks: map<TaskId, Task>, lists: map<TaskId, seq<UserId>>,
                         u: UserId, task: Fetched) returns (w: Walk)
    requires Acyclic(tasks)
    ensures w == LegacyWalk(tasks, lists, Edit, u, task)
  {
    var current := task;
    while current.task.parentTaskId.Some?
      invariant LegacyWalk(tasks, lists, Edit, u, current) == LegacyWalk(tasks, lists, Edit, u, task)
      decreases Height(tasks, current)
    {
      if current.task.creatorId == u || (current.assignedUsers.Some? && u in current.assignedUsers.value) {
        return Granted;
      }
      var p := current.task.parentTaskId.value;
      if p !in tasks {
        // the fetch yields null and reading its title throws
        return Broken;
      }
      assert ParentIn(tasks, p) ==> RankOf(tasks)[tasks[p].parentTaskId.value] < RankOf(tasks)[p];
      current := FetchOf(tasks, lists, p);
    }
    if current.task.creatorId == u || (current.assignedUsers.Some? && u in current.assignedUsers.value) {
      return Granted;
    }
    return Denied;
  }

  /** `hasAccessToView(user, task)`: the same climb with the view test. */
  method HasAccessToView(tasks: map<TaskId, Task>, lists: map<TaskId, seq<UserId>>,
                         u: UserId, task: Fetched) returns (w: Walk)
    requires Acyclic(tasks)
    ensures w == LegacyWalk(tasks, lists, View, u, task)
  {
    var current := task;
    while current.task.parentTaskId.Some?
      invariant LegacyWalk(tasks, lists, View, u, current) == LegacyWalk(tasks, lists, View, u, task)
      decreases Height(tasks, current)
    {
      if current.task.creatorId == u {
        return Granted;
      }
      if current.assignedUsers.None? {
        // `currentTask.assignedUsers.some` on undefined throws
        return Broken;
      }
      if u in current.assignedUsers.value || current.task.isPublic {
        return Granted;
      }
      var p := current.task.parentTaskId.value;
      if p !in tasks {
        // the next `currentTask.parentTaskId` reads null
        return Broken;
      }
      assert ParentIn(tasks, p) ==> RankOf(tasks)[tasks[p].parentTaskId.value] < RankOf(tasks)[p];
      current := FetchOf(tasks, lists, p);
    }
    if current.task.creatorId == u {
      return Granted;
    }
    if current.assignedUsers.None? {
      return Broken;
    }
    if u in current.assignedUsers.value || current.task.isPublic {
      return Granted;
    }
    return Denied;
  }

  /** Past f, the chain goes on with the chain of f's stored parent. */
  lemma ChainStep(tasks: map<TaskId, Task>, lists: map<TaskId, seq<UserId>>, f: Fetched)
    requires Acyclic(tasks)
    requires f.task.parentTaskId.Some? && f.task.parentTaskId.value in tasks
    ensures LegacyChain(tasks, lists, f)[1..] == LegacyChain(tasks, lists, FetchOf(tasks, lists, f.task.parentTaskId.value))
  {
  }

  /** The i-th object of c decides the climb in favour of u: its test grants access and
      every object before it says a plain "no". */
  ghost predicate DecidedAt(m: Mode, c: seq<Fetched>, u: UserId, i: int)
    requires 0 <= i < |c|
  {
    LegacyTest(m, c[i], u) == Granted && forall j :: 0 <= j < i ==> LegacyTest(m, c[j], u) == Denied
  }

  /** Every object of c says a plain "no". */
  ghost predicate AllDeny(m: Mode, c: seq<Fetched>, u: UserId) {
    forall i :: 0 <= i < |c| ==> LegacyTest(m, c[i], u) == Denied
  }

  /** Behind a first object that says "no", deciding at i + 1 is deciding at i of the rest. */
  lemma DecidedShift(m: Mode, c: seq<Fetched>, u: UserId, i: int)
    requires 0 <= i < |c| - 1 && LegacyTest(m, c[0], u) == Denied
    ensures DecidedAt(m, c, u, i + 1) <==> DecidedAt(m, c[1..], u, i)
  {
    if DecidedAt(m, c[1..], u, i) {
      forall j | 0 <= j < i + 1 ensures LegacyTest(m, c[j], u) == Denied {
        if j > 0 { assert c[j] == c[1..][j - 1]; }
      }
    }
    if DecidedAt(m, c, u, i + 1) {
      forall j | 0 <= j < i ensures LegacyTest(m, c[1..][j], u) == Denied {
        assert c[1..][j] == c[j + 1];
      }
    }
  }

  /** The climb grants access exactly when some object on the chain decides it in u's
      favour: its test grants access and every object before it says a plain "no". */
  lemma {:induction false} LegacyGrantedChain(tasks: map<TaskId, Task>, lists: map<TaskId, seq<UserId>>,
                                              m: Mode, u: UserId, f: Fetched)
    requires Acyclic(tasks)
    ensures var c := LegacyChain(tasks, lists, f);
      LegacyWalk(tasks, lists, m, u, f) == Granted <==> exists i :: 0 <= i < |c| && DecidedAt(m, c, u, i)
    decreases Height(tasks, f)
  {
    var c := LegacyChain(tasks, lists, f);
    var p := f.task.parentTaskId;
    if LegacyTest(m, f, u) == Denied {
      assert !DecidedAt(m, c, u, 0);
      if p.Some? && p.value in tasks {
        assert ParentIn(tasks, p.value) ==> RankOf(tasks)[tasks[p.value].parentTaskId.value] < RankOf(tasks)[p.value];
        var g := FetchOf(tasks, lists, p.value);
        LegacyGrantedChain(tasks, lists, m, u, g);
        ChainStep(tasks, lists, f);
        if exists k :: 0 <= k < |c[1..]| && DecidedAt(m, c[1..], u, k) {
          var k :| 0 <= k < |c[1..]| && DecidedAt(m, c[1..], u, k);
          DecidedShift(m, c, u, k);
        }
        if exists i :: 0 <= i < |c| && DecidedAt(m, c, u, i) {
          var i :| 0 <= i < |c| && DecidedAt(m, c, u, i);
          DecidedShift(m, c, u, i - 1);
        }
      } else {
        assert c == [f];
      }
    } else {
      assert c[0] == f;
      if LegacyTest(m, f, u) == Broken {
        forall i | 0 <= i < |LegacyChain(tasks, lists, f)| ensures !DecidedAt(m, LegacyChain(tasks, lists, f), u, i) {
          assert LegacyTest(m, c[0], u) == Broken;
        }
      } else {
        assert 0 < |LegacyChain(tasks, lists, f)| && DecidedAt(m, LegacyChain(tasks, lists, f), u, 0);
      }
    }
  }

  /** Behind a first object that says "no", all of c says "no" when all of the rest does. */
  lemma AllDenyShift(m: Mode, c: seq<Fetched>, u: UserId)
    requires |c| >= 1 && LegacyTest(m, c[0], u) == Denied
    ensures AllDeny(m, c, u) <==> AllDeny(m, c[1..], u)
  {
    if AllDeny(m, c[1..], u) {
      forall i | 0 <= i < |c| ensures LegacyTest(m, c[i], u) == Denied {
        if i > 0 { assert c[i] == c[1..][i - 1]; }
      }
    }
  }

  /** The climb denies access exactly when every object on the chain says a plain "no"
      and the chain ends at a root; it breaks in every other case where it does not grant. */
  lemma {:induction false} LegacyDeniedChain(tasks: map<TaskId, Task>, lists: map<TaskId, seq<UserId>>,
                                             m: Mode, u: UserId, f: Fetched)
    requires Acyclic(tasks)
    ensures var c := LegacyChain(tasks, lists, f);
      LegacyWalk(tasks, lists, m, u, f) == Denied <==> AllDeny(m, c, u) && EndsAtRoot(c)
    decreases Height(tasks, f)
  {
    var c := LegacyChain(tasks, lists, f);
    var p := f.task.parentTaskId;
    if LegacyTest(m, f, u) == Denied && p.Some? && p.value in tasks {
      assert ParentIn(tasks, p.value) ==> RankOf(tasks)[tasks[p.value].parentTaskId.value] < RankOf(tasks)[p.value];
      var g := FetchOf(tasks, lists, p.value);
      LegacyDeniedChain(tasks, lists, m, u, g);
      ChainStep(tasks, lists, f);
      assert c[|c| - 1] == c[1..][|c| - 2];
      AllDenyShift(m, c, u);
    } else if LegacyTest(m, f, u) == Denied {
      assert c == [f];
    } else {
      assert c[0] == f;
    }
  }

  /** With every object on the chain carrying its `assignedUsers` list, whoever may
      edit a task may view it. */
  lemma {:induction false} LegacyEditImpliesView(tasks: map<TaskId, Task>, lists: map<TaskId, seq<UserId>>,
                                                 u: UserId, f: Fetched)
    requires Acyclic(tasks)
    requires forall g :: g in LegacyChain(tasks, lists, f) ==> g.assignedUsers.Some?
    requires LegacyWalk(tasks, lists, Edit, u, f) == Granted
    ensures LegacyWalk(tasks, lists, View, u, f) == Granted
    decreases Height(tasks, f)
  {
    var p := f.task.parentTaskId;
    if LegacyTest(Edit, f, u) == Denied && p.Some? && p.value in tasks {
      assert ParentIn(tasks, p.value) ==> RankOf(tasks)[tasks[p.value].parentTaskId.value] < RankOf(tasks)[p.value];
      var g := FetchOf(tasks, lists, p.value);
      assert LegacyChain(tasks, lists, f) == [f] + LegacyChain(tasks, lists, g);
      if LegacyTest(View, f, u) == Denied {
        LegacyEditImpliesView(tasks, lists, u, g);
      }
    } else {
      assert f in LegacyChain(tasks, lists, f);
    }
  }

  /** Without the list the implication fails: a task someone else created, carrying no
      `assignedUsers`, under a root u created, may be edited by u but viewing it throws. */
  lemma LegacyViewBreaksWithoutList(u: UserId, other: UserId, root: Task, child: Task)
    requires u != other && root.creatorId == u && root.parentTaskId.None?
    requires child.creatorId == other && child.parentTaskId == Some(root.id)
    ensures Acyclic(map[root.id := root])
    ensures LegacyWalk(map[root.id := root], map[], Edit, u, Fetched(child, None)) == Granted
    ensures LegacyWalk(map[root.id := root], map[], View, u, Fetched(child, None)) == Broken
  {
    var tasks := map[root.id := root];
    assert Ranked(tasks, map[root.id := 0]);
  }

  /** The name the role enum stores for each role. */
  function RoleName(r: Role): string {
    match r
    case Admin => "ADMIN"
    case User => "USER"
  }

  /** `isAdmin(user)` as written: it compares the role with the lower-case "admin", which
      neither stored name equals, so it never holds. */
  function IsAdmin(user: UserRecord): (b: bool)
    ensures !b
  {
    RoleName(user.role) == "admin"
  }

  /** The check `isAdmin` evidently means: the user's role is ADMIN. */
  function IsAdminRole(user: UserRecord): (b: bool)
    ensures b <==> user.role == Admin
  {
    RoleName(user.role) == "ADMIN"
  }

  /** A resource object with the optional owner fields `isOwner` reads. */
  datatype Resource = Resource(creatorId: Option<UserId>, userId: Option<UserId>)

  /** `isOwner(user, resource)`: either owner field names the user. */
  function IsOwner(u: UserId, r: Resource): bool {
    r.creatorId == Some(u) || r.userId == Some(u)
  }

  /** A task viewed as a resource: it has a creator and no `userId`. */
  function TaskResource(t: Task): Resource {
    Resource(Some(t.creatorId), None)
  }

  /** The owner of a task, in `isOwner`'s sense, is its creator, and both legacy checks
      grant the owner access at the first test. */
  lemma {:induction false} OwnerHasLegacyAccess(tasks: map<TaskId, Task>, lists: map<TaskId, seq<UserId>>,
                                                m: Mode, u: UserId, f: Fetched)
    requires Acyclic(tasks)
    ensures IsOwner(u, TaskResource(f.task)) <==> f.task.creatorId == u
    ensures IsOwner(u, TaskResource(f.task)) ==> LegacyWalk(tasks, lists, m, u, f) == Granted
  {
  }
}
