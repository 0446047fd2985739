/**
 * The task forest: tasks linked to their parents through `parentTaskId`. Links are
 * acyclic (each row has a rank below its children's), the chain of a task climbs
 * those links, and a task's subtree is what services/repositories/taskRepository.js
 * builds with `getSubTasksRecursively`.
 */
module Forest {
  import opened Wrappers
  import opened Model

  /** The task's parent is a stored task. */
  predicate ParentIn(tasks: map<TaskId, Task>, id: TaskId)
    requires id in tasks
  {
    tasks[id].parentTaskId.Some? && tasks[id].parentTaskId.value in tasks
  }

  /** `rank` strictly increases from each stored parent to its child. */
  ghost predicate Ranked(tasks: map<TaskId, Task>, rank: map<TaskId, nat>) {
    tasks.Keys <= rank.Keys &&
    forall id :: id in tasks && ParentIn(tasks, id) ==> rank[tasks[id].parentTaskId.value] < rank[id]
  }

  ghost predicate Acyclic(tasks: map<TaskId, Task>) {
    exists rank :: Ranked(tasks, rank)
  }

  ghost function RankOf(tasks: map<TaskId, Task>): (rank: map<TaskId, nat>)
    requires Acyclic(tasks)
    ensures Ranked(tasks, rank)
  {
    var rank :| Ranked(tasks, rank); rank
  }

  /** The ids from `id` up through stored parents, ending at a root or at the last task
      whose parent is missing. */
  ghost function Chain(tasks: map<TaskId, Task>, id: TaskId): (c: seq<TaskId>)
    requires Acyclic(tasks) && id in tasks
    ensures |c| >= 1 && c[0] == id
    ensures forall x :: x in c ==> x in tasks && RankOf(tasks)[x] <= RankOf(tasks)[id]
    decreases RankOf(tasks)[id]
  {
    [id] + if ParentIn(tasks, id) then Chain(tasks, tasks[id].parentTaskId.value) else []
  }

  ghost function AncestorSet(tasks: map<TaskId, Task>, id: TaskId): set<TaskId>
    requires Acyclic(tasks) && id in tasks
  {
    set x | x in Chain(tasks, id)
  }

  /** The chain ends at a task whose `parentTaskId` names no stored task. */
  ghost predicate Dangles(tasks: map<TaskId, Task>, id: TaskId)
    requires Acyclic(tasks) && id in tasks
    decreases RankOf(tasks)[id]
  {
    if ParentIn(tasks, id) then Dangles(tasks, tasks[id].parentTaskId.value)
    else tasks[id].parentTaskId.Some?
  }

  /** A child is never on its parent's chain: its rank is above all of them. */
  lemma {:induction false} ChildNotAncestor(tasks: map<TaskId, Task>, id: TaskId, c: TaskId)
    requires Acyclic(tasks) && id in tasks && c in tasks && tasks[c].parentTaskId == Some(id)
    ensures c !in AncestorSet(tasks, id)
    ensures AncestorSet(tasks, c) == {c} + AncestorSet(tasks, id)
  {
    assert ParentIn(tasks, c);
    assert Chain(tasks, c) == [c] + Chain(tasks, id);
  }

  /** Fewer tasks lie off the chain of a child than off the chain of its parent. */
  lemma {:induction false} PoolShrinks(tasks: map<TaskId, Task>, id: TaskId, c: TaskId)
    requires Acyclic(tasks) && id in tasks && c in tasks && tasks[c].parentTaskId == Some(id)
    ensures |tasks.Keys - AncestorSet(tasks, c)| < |tasks.Keys - AncestorSet(tasks, id)|
  {
    ChildNotAncestor(tasks, id, c);
    var pool := tasks.Keys - AncestorSet(tasks, id);
    assert tasks.Keys - AncestorSet(tasks, c) == pool - {c};
    assert c in pool;
  }

  /** A strict ancestor's chain does not reach back to the descendant. */
  lemma {:induction false} NotOnAncestorChain(tasks: map<TaskId, Task>, d: TaskId, a: TaskId)
    requires Acyclic(tasks) && d in tasks && a in Chain(tasks, d) && a != d
    ensures d !in Chain(tasks, a)
    decreases RankOf(tasks)[d]
  {
    var c := Chain(tasks, d);
    assert ParentIn(tasks, d);
    var p := tasks[d].parentTaskId.value;
    assert RankOf(tasks)[p] < RankOf(tasks)[d];
    assert a in Chain(tasks, p);
    assert RankOf(tasks)[a] <= RankOf(tasks)[p];
  }

  // ---- Subtrees ----

  /** The subtrees of the tasks listed in `kids` that are still in `pool`; `pool` holds
      the ids not yet on the path from the top, which makes the recursion finite. */
  function ForestOf(tasks: map<TaskId, Task>, order: seq<TaskId>, kids: seq<TaskId>, pool: set<TaskId>): seq<TaskTree>
    decreases |pool|, 0, |kids|
  {
    if kids == [] then []
    else
      var c := kids[0];
      (if c in pool && c in tasks then [Node(tasks[c], SubForest(tasks, order, c, pool - {c}))] else [])
        + ForestOf(tasks, order, kids[1..], pool)
  }

  /** `getSubTasksRecursively(id)` over the tasks in `pool`. */
  function SubForest(tasks: map<TaskId, Task>, order: seq<TaskId>, id: TaskId, pool: set<TaskId>): seq<TaskTree>
    decreases |pool|, 1
  {
    ForestOf(tasks, order, ChildIds(tasks, order, id), pool)
  }

  /** The subtasks of `id`, each with its own subtasks. */
  ghost function SubTasksOf(tasks: map<TaskId, Task>, order: seq<TaskId>, id: TaskId): seq<TaskTree>
    requires Acyclic(tasks) && id in tasks
  {
    SubForest(tasks, order, id, tasks.Keys - AncestorSet(tasks, id))
  }

  lemma {:induction false} ForestOfKids(tasks: map<TaskId, Task>, order: seq<TaskId>, kids: seq<TaskId>, pool: set<TaskId>)
    requires forall c :: c in kids ==> c in tasks && c in pool
    ensures var f := ForestOf(tasks, order, kids, pool);
      |f| == |kids| &&
      forall k :: 0 <= k < |kids| ==> f[k] == Node(tasks[kids[k]], SubForest(tasks, order, kids[k], pool - {kids[k]}))
    decreases |kids|
  {
    if kids != [] {
      ForestOfKids(tasks, order, kids[1..], pool);
    }
  }

  /** `getSubTasksRecursively(id)` returns exactly the tasks whose `parentTaskId` is
      `id`, in listing order, each carrying its own subtree. */
  lemma {:induction false} SubTasksUnfold(tasks: map<TaskId, Task>, order: seq<TaskId>, id: TaskId)
    requires Acyclic(tasks) && id in tasks
    ensures var f := SubTasksOf(tasks, order, id);
      var kids := ChildIds(tasks, order, id);
      |f| == |kids| &&
      forall k :: 0 <= k < |kids| ==>
        kids[k] in tasks && f[k].task == tasks[kids[k]] && f[k].subTasks == SubTasksOf(tasks, order, kids[k])
  {
    var kids := ChildIds(tasks, order, id);
    var pool := tasks.Keys - AncestorSet(tasks, id);
    forall c | c in kids
      ensures c in tasks && c in pool
    {
      ChildNotAncestor(tasks, id, c);
    }
    ForestOfKids(tasks, order, kids, pool);
    forall k | 0 <= k < |kids|
      ensures pool - {kids[k]} == tasks.Keys - AncestorSet(tasks, kids[k])
    {
      ChildNotAncestor(tasks, id, kids[k]);
    }
  }

  lemma {:induction false} SubTasksLength(tasks: map<TaskId, Task>, order: seq<TaskId>, id: TaskId)
    requires Acyclic(tasks) && id in tasks
    ensures |SubTasksOf(tasks, order, id)| == |ChildIds(tasks, order, id)|
  {
    SubTasksUnfold(tasks, order, id);
  }

  /** The k-th subtree of id is the k-th child, found below id, with its own subtree;
      the walk down to it has fewer tasks left to visit. */
  lemma {:induction false} SubTaskAt(tasks: map<TaskId, Task>, order: seq<TaskId>, id: TaskId, k: nat)
    requires Acyclic(tasks) && id in tasks && k < |ChildIds(tasks, order, id)|
    ensures var c := ChildIds(tasks, order, id)[k];
      && c in tasks && tasks[c].parentTaskId == Some(id)
      && |SubTasksOf(tasks, order, id)| == |ChildIds(tasks, order, id)|
      && SubTasksOf(tasks, order, id)[k] == Node(tasks[c], SubTasksOf(tasks, order, c))
      && |tasks.Keys - AncestorSet(tasks, c)| < |tasks.Keys - AncestorSet(tasks, id)|
  {
    var kids := ChildIds(tasks, order, id);
    assert kids[k] in kids;
    SubTasksUnfold(tasks, order, id);
    PoolShrinks(tasks, id, kids[k]);
  }
}
