/**
 * The ancestor walk of `hasAccessToEdit` / `hasAccessToView`
 * (services/repositories/accessRepository.js): starting at a task, grant access when
 * the task itself grants it, otherwise move to the parent and try again; a root that
 * grants nothing denies. Reading a parent that is no longer stored is a TypeError in
 * the source (`currentTask.id` of null), which the walk reports as Broken.
 */
module Access {
  import opened Wrappers
  import opened Model
  import opened Forest

  datatype Mode = Edit | View

  /** The outcome of a walk: `true`, `false`, or a thrown TypeError. */
  datatype Walk = Granted | Denied | Broken

  /** What one task on the chain grants u. Editing: u created it or holds an Assignment
      row for it. Viewing: the same, or a Subscription row for it, or it is public. */
  predicate Grants(db: Db, m: Mode, u: UserId, id: TaskId)
    requires id in db.tasks
  {
    var t := db.tasks[id];
    t.creatorId == u || Link(id, u) in db.assignments
    || (m == View && (Link(id, u) in db.subscriptions || t.isPublic))
  }

  /** The walk from task id upwards. */
  ghost function AccessWalk(db: Db, m: Mode, u: UserId, id: TaskId): Walk
    requires Acyclic(db.tasks)
    decreases if id in db.tasks then RankOf(db.tasks)[id] + 1 else 0
  {
    if id !in db.tasks then Broken
    else if Grants(db, m, u, id) then Granted
    else match db.tasks[id].parentTaskId
      case None => Denied
      case Some(p) => AccessWalk(db, m, u, p)
  }

  /** Some task on the chain from id upwards grants u access. */
  ghost predicate GrantedOnChain(db: Db, m: Mode, u: UserId, id: TaskId)
    requires Acyclic(db.tasks) && id in db.tasks
  {
    exists x :: x in Chain(db.tasks, id) && Grants(db, m, u, x)
  }

  /** The walk grants access exactly when some task on the chain, the root included,
      grants it; otherwise it breaks exactly when the chain ends at a parent that is
      not stored, and denies when it ends at a root. */
  lemma {:induction false} WalkChain(db: Db, m: Mode, u: UserId, id: TaskId)
    requires Acyclic(db.tasks) && id in db.tasks
    ensures AccessWalk(db, m, u, id) == Granted <==> GrantedOnChain(db, m, u, id)
    ensures AccessWalk(db, m, u, id) == Broken <==> !GrantedOnChain(db, m, u, id) && Dangles(db.tasks, id)
    ensures AccessWalk(db, m, u, id) == Denied <==> !GrantedOnChain(db, m, u, id) && !Dangles(db.tasks, id)
    decreases RankOf(db.tasks)[id]
  {
    var c := Chain(db.tasks, id);
    if Grants(db, m, u, id) {
      assert c[0] == id;
    } else if ParentIn(db.tasks, id) {
      var p := db.tasks[id].parentTaskId.value;
      WalkChain(db, m, u, p);
      assert c == [id] + Chain(db.tasks, p);
      if GrantedOnChain(db, m, u, p) {
        var x :| x in Chain(db.tasks, p) && Grants(db, m, u, x);
        assert x in c;
      }
      if GrantedOnChain(db, m, u, id) {
        var x :| x in c && Grants(db, m, u, x);
        assert x in Chain(db.tasks, p);
      }
    } else {
      assert c == [id];
    }
  }

  /** Whatever lets u edit lets u view: a walk that does not grant viewing ends the same
      way for editing (denied, or broken at the same missing parent). */
  lemma {:induction false} EditImpliesView(db: Db, u: UserId, id: TaskId)
    requires Acyclic(db.tasks)
    ensures AccessWalk(db, Edit, u, id) == Granted ==> AccessWalk(db, View, u, id) == Granted
    ensures AccessWalk(db, View, u, id) != Granted ==> AccessWalk(db, Edit, u, id) == AccessWalk(db, View, u, id)
    decreases if id in db.tasks then RankOf(db.tasks)[id] + 1 else 0
  {
    if id in db.tasks && !Grants(db, View, u, id) && db.tasks[id].parentTaskId.Some? {
      EditImpliesView(db, u, db.tasks[id].parentTaskId.value);
    }
  }

  /** Access on an ancestor is access on every task below it: the walk from a descendant
      is granted, or ends exactly as the walk from the ancestor does. */
  lemma {:induction false} AncestorAccessInherited(db: Db, m: Mode, u: UserId, id: TaskId, a: TaskId)
    requires Acyclic(db.tasks) && id in db.tasks && a in Chain(db.tasks, id)
    ensures AccessWalk(db, m, u, id) == Granted || AccessWalk(db, m, u, id) == AccessWalk(db, m, u, a)
    ensures AccessWalk(db, m, u, a) == Granted ==> AccessWalk(db, m, u, id) == Granted
    decreases RankOf(db.tasks)[id]
  {
    if a != id && !Grants(db, m, u, id) {
      assert ParentIn(db.tasks, id);
      AncestorAccessInherited(db, m, u, db.tasks[id].parentTaskId.value, a);
    }
  }

  /** The walk from a depends only on what the tasks of a's chain grant. */
  lemma {:induction false} WalkFramed(db: Db, db': Db, m: Mode, u: UserId, a: TaskId)
    requires Acyclic(db.tasks) && db'.tasks == db.tasks && a in db.tasks
    requires forall x :: x in Chain(db.tasks, a) ==> (Grants(db', m, u, x) <==> Grants(db, m, u, x))
    ensures AccessWalk(db', m, u, a) == AccessWalk(db, m, u, a)
    decreases RankOf(db.tasks)[a]
  {
    assert a in Chain(db.tasks, a);
    if ParentIn(db.tasks, a) {
      var p := db.tasks[a].parentTaskId.value;
      assert Chain(db.tasks, a) == [a] + Chain(db.tasks, p);
      WalkFramed(db, db', m, u, p);
    }
  }

  /** The edit walk reads only the tasks and the Assignment rows; the view walk reads
      the Subscription rows as well. */
  lemma {:induction false} WalkReads(db: Db, db': Db, m: Mode, u: UserId, id: TaskId)
    requires Acyclic(db.tasks) && db'.tasks == db.tasks && db'.assignments == db.assignments
    requires m == View ==> db'.subscriptions == db.subscriptions
    ensures AccessWalk(db', m, u, id) == AccessWalk(db, m, u, id)
  {
    if id in db.tasks {
      WalkFramed(db, db', m, u, id);
    }
  }

  /** Storing a new task under an id no row refers to leaves every existing task's walk
      as it was. */
  lemma {:induction false} WalkAfterInsert(db: Db, db': Db, t: Task, m: Mode, u: UserId, a: TaskId)
    requires Acyclic(db.tasks) && Acyclic(db'.tasks) && Unused(db.tasks, t.id) && a in db.tasks
    requires db'.tasks == db.tasks[t.id := t]
    requires db'.assignments == db.assignments && db'.subscriptions == db.subscriptions
    ensures AccessWalk(db', m, u, a) == AccessWalk(db, m, u, a)
    decreases RankOf(db.tasks)[a]
  {
    assert db'.tasks[a] == db.tasks[a];
    if !Grants(db, m, u, a) && db.tasks[a].parentTaskId.Some? {
      var p := db.tasks[a].parentTaskId.value;
      if p in db.tasks {
        assert ParentIn(db.tasks, a);
        WalkAfterInsert(db, db', t, m, u, p);
      } else {
        assert p !in db'.tasks;
      }
    }
  }

  /** Subscription rows never grant editing. */
  lemma {:induction false} EditIgnoresSubscriptions(db: Db, subscriptions: seq<Link>, u: UserId, id: TaskId)
    requires Acyclic(db.tasks)
    ensures AccessWalk(db.(subscriptions := subscriptions), Edit, u, id) == AccessWalk(db, Edit, u, id)
  {
    WalkReads(db, db.(subscriptions := subscriptions), Edit, u, id);
  }

  /** `(await hasAccessToEdit(u, t)) || (await hasAccessToView(u, t))`: the view walk
      runs only when the edit walk returns false. */
  ghost function EditOrView(db: Db, u: UserId, id: TaskId): Walk
    requires Acyclic(db.tasks)
  {
    match AccessWalk(db, Edit, u, id)
    case Granted => Granted
    case Broken => Broken
    case Denied => AccessWalk(db, View, u, id)
  }

  /** The disjunction holds exactly when u may view the task, and it throws exactly
      when the edit walk does. */
  lemma {:induction false} EditOrViewIsView(db: Db, u: UserId, id: TaskId)
    requires Acyclic(db.tasks)
    ensures EditOrView(db, u, id) == Broken <==> AccessWalk(db, Edit, u, id) == Broken
    ensures EditOrView(db, u, id) == Granted <==> AccessWalk(db, View, u, id) == Granted && AccessWalk(db, Edit, u, id) != Broken
    ensures EditOrView(db, u, id) == Denied <==> AccessWalk(db, View, u, id) == Denied
  {
    EditImpliesView(db, u, id);
  }

  /** Access is not granted upwards: rows that give u a relationship to a task c leave
      the walk from every strict ancestor of c as it was. */
  lemma {:induction false} NoUpwardGrant(db: Db, m: Mode, u: UserId, c: TaskId, a: TaskId)
    requires Acyclic(db.tasks) && c in db.tasks && a in Chain(db.tasks, c) && a != c
    ensures var db' := db.(assignments := db.assignments + [Link(c, u)],
                           subscriptions := db.subscriptions + [Link(c, u)]);
      AccessWalk(db', m, u, a) == AccessWalk(db, m, u, a)
  {
    var db' := db.(assignments := db.assignments + [Link(c, u)],
                   subscriptions := db.subscriptions + [Link(c, u)]);
    NotOnAncestorChain(db.tasks, c, a);
    forall x | x in Chain(db.tasks, a)
      ensures Grants(db', m, u, x) <==> Grants(db, m, u, x)
    {
      assert x != c;
    }
    WalkFramed(db, db', m, u, a);
  }

  /** `rows.some((a) => a.userId === u)` over the rows of task t says whether the row
      (t, u) exists. */
  lemma {:induction false} SomeRowForTask(rows: seq<Link>, t: TaskId, u: UserId)
    ensures SomeRowFor(RowsForTask(rows, t), u) <==> Link(t, u) in rows
  {
    var r := RowsForTask(rows, t);
    if Link(t, u) in rows {
      assert Link(t, u) in r;
      var i :| 0 <= i < |r| && r[i] == Link(t, u);
    }
    if SomeRowFor(r, u) {
      var i :| 0 <= i < |r| && r[i].userId == u;
      assert r[i] in r;
    }
  }
}
