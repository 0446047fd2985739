/**
 * The records of the task manager's store: tasks, the four relationship tables
 * (Application, Invitation, Assignment, Subscription), the user directory, and the
 * operations on rows that the Prisma calls of the repositories perform.
 */
module Model {
  import opened Wrappers
  import opened Dates
  import opened Recurrence

  type UserId = string
  type TaskId = string

  /** The characters JavaScript's `String.prototype.trim` removes. */
  predicate IsJsWhitespace(c: char) {
    c == ' ' || c == '\t' || c == '\n' || c == '\r' || c == '\U{000B}' || c == '\U{000C}'
    || c == '\U{00A0}' || c == '\U{1680}' || ('\U{2000}' <= c <= '\U{200A}')
    || c == '\U{2028}' || c == '\U{2029}' || c == '\U{202F}' || c == '\U{205F}'
    || c == '\U{3000}' || c == '\U{FEFF}'
  }

  /** `!s || s.trim() === ""`: empty, or nothing but whitespace. */
  predicate IsBlank(s: string) {
    forall i :: 0 <= i < |s| ==> IsJsWhitespace(s[i])
  }

  datatype Status = Open | Done

  datatype Task = Task(
    id: TaskId,
    title: string,
    description: Option<string>,
    deadline: Option<CalendarDate>,
    status: Status,
    isPublic: bool,
    creatorId: UserId,
    parentTaskId: Option<TaskId>,
    completedById: Option<UserId>,
    completedAt: Option<CalendarDate>,
    recurrenceType: Option<RecurrenceType>,
    recurrenceExpiresAt: Option<CalendarDate>,
    recurrences: Option<int>)

  /** A row of the Application, Assignment or Subscription table. */
  datatype Link = Link(taskId: TaskId, userId: UserId)

  /** A row of the Invitation table. */
  datatype Invitation = Invitation(taskId: TaskId, inviterId: UserId, invitedId: UserId)

  /** The user role of the identity provider's schema; new users get USER. */
  datatype Role = Admin | User

  datatype UserRecord = UserRecord(id: UserId, email: string, name: Option<string>, image: Option<string>, role: Role)

  /** A task together with its subtasks, as the repository returns it (`task.subTasks`). */
  datatype TaskTree = Node(task: Task, subTasks: seq<TaskTree>)

  /** The whole store. `order` is the order in which the database lists task rows,
      `completions` the `tasksCompleted` statistic, `nextSerial` the state of the
      database's id generator. */
  datatype Db = Db(
    tasks: map<TaskId, Task>,
    order: seq<TaskId>,
    applications: seq<Link>,
    invitations: seq<Invitation>,
    assignments: seq<Link>,
    subscriptions: seq<Link>,
    users: map<UserId, UserRecord>,
    emails: map<string, UserId>,
    completions: map<UserId, nat>,
    nextSerial: nat)

  /** The id the database gives the n-th created task. Only its freshness matters. */
  function MintId(n: nat): (id: TaskId)
    ensures |id| == n + 1 && id[0] == 't'
  {
    "t" + seq(n, _ => '1')
  }

  /** JavaScript's `s || null` on an optional string: the empty string counts as absent. */
  function OrNull(s: Option<string>): (r: Option<string>)
    ensures r.Some? <==> s.Some? && s.value != ""
    ensures r.Some? ==> r == s
  {
    if s == Some("") then None else s
  }

  /** The fields an `updateTask` call writes; a field that is None is not written.
      `description` may be written as null, hence the nested option. */
  datatype UpdateData = UpdateData(
    title: Option<string>,
    description: Option<Option<string>>,
    deadline: Option<CalendarDate>,
    status: Option<Status>,
    isPublic: Option<bool>,
    recurrenceExpiresAt: Option<CalendarDate>,
    recurrenceType: Option<RecurrenceType>,
    recurrences: Option<int>)

  /** `prisma.task.update({ data })` on one row. */
  function ApplyUpdate(t: Task, d: UpdateData): (r: Task)
    ensures r.id == t.id && r.creatorId == t.creatorId && r.parentTaskId == t.parentTaskId
    ensures r.completedById == t.completedById && r.completedAt == t.completedAt
  {
    t.(title := d.title.GetOr(t.title),
       description := d.description.GetOr(t.description),
       deadline := d.deadline.OrElse(t.deadline),
       status := d.status.GetOr(t.status),
       isPublic := d.isPublic.GetOr(t.isPublic),
       recurrenceExpiresAt := d.recurrenceExpiresAt.OrElse(t.recurrenceExpiresAt),
       recurrenceType := d.recurrenceType.OrElse(t.recurrenceType),
       recurrences := d.recurrences.OrElse(t.recurrences))
  }

  /** Writing the same data twice is writing it once, and writing nothing changes
      nothing. */
  lemma {:induction false} ApplyUpdateIdempotent(t: Task, d: UpdateData)
    ensures ApplyUpdate(ApplyUpdate(t, d), d) == ApplyUpdate(t, d)
    ensures ApplyUpdate(t, UpdateData(None, None, None, None, None, None, None, None)) == t
  {
  }

  // ---- Rows ----

  /** `deleteMany` on (taskId, userId): every matching row goes, all others stay in order. */
  function WithoutLink(rows: seq<Link>, l: Link): (r: seq<Link>)
    ensures forall x :: x in r <==> x in rows && x != l
  {
    if rows == [] then []
    else (if rows[0] == l then [] else [rows[0]]) + WithoutLink(rows[1..], l)
  }

  /** Deleting the rows equal to l keeps every other row as many times as before. */
  lemma {:induction false} WithoutLinkCounts(rows: seq<Link>, l: Link)
    ensures multiset(WithoutLink(rows, l)) == multiset(rows)[l := 0]
    ensures |WithoutLink(rows, l)| == |rows| - multiset(rows)[l]
  {
    if rows != [] {
      var head := if rows[0] == l then [] else [rows[0]];
      assert WithoutLink(rows, l) == head + WithoutLink(rows[1..], l);
      assert rows == [rows[0]] + rows[1..];
      assert multiset(head) == multiset([rows[0]])[l := 0];
      WithoutLinkCounts(rows[1..], l);
    }
  }

  /** `findMany({ where: { taskId } })`. */
  function RowsForTask(rows: seq<Link>, t: TaskId): (r: seq<Link>)
    ensures forall x :: x in r <==> x in rows && x.taskId == t
  {
    if rows == [] then []
    else (if rows[0].taskId == t then [rows[0]] else []) + RowsForTask(rows[1..], t)
  }

  /** `findMany({ where: { userId } })`. */
  function RowsForUser(rows: seq<Link>, u: UserId): (r: seq<Link>)
    ensures forall x :: x in r <==> x in rows && x.userId == u
  {
    if rows == [] then []
    else (if rows[0].userId == u then [rows[0]] else []) + RowsForUser(rows[1..], u)
  }

  /** `rows.some((a) => a.userId === u)`. */
  predicate SomeRowFor(rows: seq<Link>, u: UserId) {
    exists i :: 0 <= i < |rows| && rows[i].userId == u
  }

  /** The rows of the task's table read by user: one per row, for the task `to`. */
  function Relink(rows: seq<Link>, to: TaskId): (r: seq<Link>)
    ensures |r| == |rows|
    ensures forall i :: 0 <= i < |rows| ==> r[i] == Link(to, rows[i].userId)
  {
    seq(|rows|, i requires 0 <= i < |rows| => Link(to, rows[i].userId))
  }

  predicate InvitationMatches(inv: Invitation, invitedId: UserId, taskId: TaskId) {
    inv.invitedId == invitedId && inv.taskId == taskId
  }

  /** `invitation.deleteMany({ where: { invitedId, taskId } })`: whoever the inviter. */
  function WithoutInvitations(invs: seq<Invitation>, invitedId: UserId, taskId: TaskId): (r: seq<Invitation>)
    ensures forall x :: x in r <==> x in invs && !InvitationMatches(x, invitedId, taskId)
  {
    if invs == [] then []
    else
      (if InvitationMatches(invs[0], invitedId, taskId) then [] else [invs[0]])
        + WithoutInvitations(invs[1..], invitedId, taskId)
  }

  /** Deleting the invitations of one user to one task keeps every other row as many
      times as before. */
  lemma {:induction false} WithoutInvitationsCounts(invs: seq<Invitation>, invitedId: UserId, taskId: TaskId)
    ensures forall x ::
      multiset(WithoutInvitations(invs, invitedId, taskId))[x] == if InvitationMatches(x, invitedId, taskId) then 0 else multiset(invs)[x]
  {
    if invs != [] {
      WithoutInvitationsCounts(invs[1..], invitedId, taskId);
      assert invs == [invs[0]] + invs[1..];
    }
  }

  /** `invitation.findMany({ where: { invitedId } })`. */
  function InvitationsOf(invs: seq<Invitation>, invitedId: UserId): (r: seq<Invitation>)
    ensures forall x :: x in r <==> x in invs && x.invitedId == invitedId
  {
    if invs == [] then []
    else (if invs[0].invitedId == invitedId then [invs[0]] else []) + InvitationsOf(invs[1..], invitedId)
  }

  /** Removing the invitations of u to t removes at least one row exactly when one
      exists. */
  lemma {:induction false} DeletionCount(invs: seq<Invitation>, u: UserId, t: TaskId)
    ensures |WithoutInvitations(invs, u, t)| <= |invs|
    ensures |WithoutInvitations(invs, u, t)| == |invs| <==> !Invited(invs, u, t)
  {
    if invs != [] {
      DeletionCount(invs[1..], u, t);
      if Invited(invs[1..], u, t) {
        var i :| 0 <= i < |invs[1..]| && InvitationMatches(invs[1..][i], u, t);
        assert InvitationMatches(invs[i + 1], u, t);
      }
      if Invited(invs, u, t) && !InvitationMatches(invs[0], u, t) {
        var i :| 0 <= i < |invs| && InvitationMatches(invs[i], u, t);
        assert InvitationMatches(invs[1..][i - 1], u, t);
      }
    }
  }

  /** The `tasksCompleted` statistic of u (0 before the first completion). */
  function CompletionsOf(completions: map<UserId, nat>, u: UserId): nat {
    if u in completions then completions[u] else 0
  }

  /** An invitation row for (invited user, task) exists. */
  predicate Invited(invs: seq<Invitation>, u: UserId, t: TaskId) {
    exists i :: 0 <= i < |invs| && InvitationMatches(invs[i], u, t)
  }

  // ---- Task rows in database order ----

  predicate Distinct(s: seq<TaskId>) {
    forall i, j :: 0 <= i < j < |s| ==> s[i] != s[j]
  }

  /** The listing order once a row is deleted. */
  function RemoveId(order: seq<TaskId>, id: TaskId): (r: seq<TaskId>)
    ensures forall x :: x in r <==> x in order && x != id
    ensures Distinct(order) ==> Distinct(r)
  {
    if order == [] then []
    else
      var rest := RemoveId(order[1..], id);
      if order[0] == id then rest
      else
        assert Distinct(order) ==> order[0] !in rest;
        [order[0]] + rest
  }

  /** The ids, in listing order, of the tasks whose `parentTaskId` is `id`. */
  function ChildIds(tasks: map<TaskId, Task>, ids: seq<TaskId>, id: TaskId): (r: seq<TaskId>)
    ensures forall c :: c in r <==> c in ids && c in tasks && tasks[c].parentTaskId == Some(id)
    ensures Distinct(ids) ==> Distinct(r)
  {
    if ids == [] then []
    else
      var rest := ChildIds(tasks, ids[1..], id);
      if ids[0] in tasks && tasks[ids[0]].parentTaskId == Some(id) then
        assert Distinct(ids) ==> ids[0] !in rest;
        [ids[0]] + rest
      else rest
  }

  /** The ids, in listing order, of the tasks created by u. */
  function OwnedIds(tasks: map<TaskId, Task>, ids: seq<TaskId>, u: UserId): (r: seq<TaskId>)
    ensures forall c :: c in r <==> c in ids && c in tasks && tasks[c].creatorId == u
  {
    if ids == [] then []
    else
      (if ids[0] in tasks && tasks[ids[0]].creatorId == u then [ids[0]] else [])
        + OwnedIds(tasks, ids[1..], u)
  }

  // ---- Well-formedness of the store ----

  /** The generator's n-th id is the only one of length n + 1, so the ids it handed out
      before reaching serial n are those of length at most n. */
  predicate IssuedBefore(id: TaskId, n: nat) {
    |id| <= n
  }

  /** No task has this id and none points to it as its parent. */
  ghost predicate Unused(tasks: map<TaskId, Task>, id: TaskId) {
    id !in tasks && forall x :: x in tasks ==> tasks[x].parentTaskId != Some(id)
  }

  /** Each row is keyed by its id, which is never blank; every id stored as a key or as
      a parent reference was handed out by the generator; `order` lists each row once. */
  ghost predicate WellFormed(db: Db) {
    && (forall id :: id in db.tasks ==>
          && db.tasks[id].id == id && !IsBlank(id) && IssuedBefore(id, db.nextSerial)
          && (db.tasks[id].parentTaskId.Some? ==> IssuedBefore(db.tasks[id].parentTaskId.value, db.nextSerial)))
    && (forall id :: id in db.tasks <==> id in db.order)
    && Distinct(db.order)
  }

  /** The next id the generator hands out is unused. */
  lemma {:induction false} NextIdUnused(db: Db)
    requires WellFormed(db)
    ensures Unused(db.tasks, MintId(db.nextSerial))
    ensures !IsBlank(MintId(db.nextSerial))
  {
    var id := MintId(db.nextSerial);
    assert !IsJsWhitespace(id[0]);
  }
}
