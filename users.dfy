/**
 * The user handlers of services/handlers/userHandler.js: the admin and self-service
 * rules of `getAllUsers`, `getUserById`, `updateUser` and `deleteUser` over the user
 * directory, and the choice of achievements `checkAndUnlockAchievements` unlocks.
 */
module Users {
  import opened Wrappers
  import opened Errors
  import opened Model

  type Directory = map<UserId, UserRecord>

  // ---- JavaScript's String.prototype.trim ----

  /** s without its leading whitespace. */
  function TrimStart(s: string): (t: string)
    ensures |t| <= |s| && t == s[|s| - |t|..]
    ensures t == [] || !IsJsWhitespace(t[0])
    ensures forall i :: 0 <= i < |s| - |t| ==> IsJsWhitespace(s[i])
  {
    if |s| > 0 && IsJsWhitespace(s[0]) then TrimStart(s[1..]) else s
  }

  /** s without its trailing whitespace. */
  function TrimEnd(s: string): (t: string)
    ensures |t| <= |s| && t == s[..|t|]
    ensures t == [] || !IsJsWhitespace(t[|t| - 1])
    ensures forall i :: |t| <= i < |s| ==> IsJsWhitespace(s[i])
  {
    if |s| > 0 && IsJsWhitespace(s[|s| - 1]) then TrimEnd(s[..|s| - 1]) else s
  }

  /** `s.trim()`: s with whitespace removed at both ends. */
  function Trim(s: string): (t: string)
    ensures t == [] || (!IsJsWhitespace(t[0]) && !IsJsWhitespace(t[|t| - 1]))
    ensures |t| <= |s|
  {
    TrimEnd(TrimStart(s))
  }

  /** `s.trim() === ""` holds exactly for blank strings. */
  lemma {:induction false} TrimEmptyIffBlank(s: string)
    ensures Trim(s) == "" <==> IsBlank(s)
  {
    var a := TrimStart(s);
    if a != [] {
      assert !IsJsWhitespace(a[0]);
      assert a[0] == s[|s| - |a|];
    }
  }

  // ---- The handlers ----

  /** `getAllUsers(user)`: only an admin gets the directory. Reading the role of a
      missing user throws. */
  function GetAllUsers(users: Directory, user: Option<UserRecord>): (r: Result<Directory>)
    ensures user.None? ==> r == Err(RuntimeError)
    ensures user.Some? && user.value.role != Admin ==> r == Fail(403)
    ensures r.Ok? <==> user.Some? && user.value.role == Admin
    ensures r.Ok? ==> r.value == users
  {
    match user
    case None => Err(RuntimeError)
    case Some(u) => if u.role != Admin then Fail(403) else Ok(users)
  }

  /** What `getUserById` returns: the whole record, or the public fields only. */
  datatype UserView = FullUser(record: UserRecord)
                    | PublicUser(id: UserId, email: string, name: Option<string>, image: Option<string>)

  /** The fields of a record everybody may see. */
  function PublicFields(r: UserRecord): UserView {
    PublicUser(r.id, r.email, r.name, r.image)
  }

  /** `getUserById(user, userId)`: 401 without a caller, 400 for an absent or blank id,
      404 when no user has the trimmed id; an admin or the user themself gets the whole
      record, anybody else its public fields. */
  function GetUserById(users: Directory, user: Option<UserRecord>, userId: Option<string>): (r: Result<UserView>)
    ensures user.None? <==> r == Fail(401)
    ensures user.Some? && (userId.None? || IsBlank(userId.value)) ==> r == Fail(400)
    ensures user.Some? && userId.Some? && !IsBlank(userId.value) && Trim(userId.value) !in users ==> r == Fail(404)
    ensures r.Ok? <==> user.Some? && userId.Some? && !IsBlank(userId.value) && Trim(userId.value) in users
    ensures r.Ok? ==> var found := users[Trim(userId.value)];
      (r.value == FullUser(found) <==> user.value.role == Admin || found.id == user.value.id) &&
      (r.value != FullUser(found) ==> r.value == PublicFields(found))
  {
    if user.None? then Fail(401)
    else if userId.None? || userId.value == "" || Trim(userId.value) == "" then
      TrimEmptyIffBlank(userId.GetOr(""));
      Fail(400)
    else
      var id := Trim(userId.value);
      TrimEmptyIffBlank(userId.value);
      if id !in users then Fail(404)
      else
        var found := users[id];
        if user.value.role != Admin && found.id != user.value.id then Ok(PublicFields(found))
        else Ok(FullUser(found))
  }

  /** The keys whose presence in the update makes the repository drop the user's
      sessions. */
  const SensitiveKeys: seq<string> := ["password", "email", "role", "name"]

  /** `sensitiveKeys.some((key) => key in userToUpdateData)`. */
  function DeletesSessions(fields: map<string, JsValue>): (b: bool)
    ensures b <==> "password" in fields || "email" in fields || "role" in fields || "name" in fields
  {
    assert SensitiveKeys[0] == "password" && SensitiveKeys[1] == "email";
    assert SensitiveKeys[2] == "role" && SensitiveKeys[3] == "name";
    exists i :: 0 <= i < |SensitiveKeys| && SensitiveKeys[i] in fields
  }

  /** The `updateUserDb(userToUpdateData, deleteSessions)` call the handler makes: the
      repository writes `fields` to the user whose id is `fields.id`. */
  datatype UserWrite = UserWrite(fields: map<string, JsValue>, deleteSessions: bool)

  /** The object `updateUser` was given, which it changes in place. */
  class RequestBody {
    var fields: map<string, JsValue>

    constructor (fields: map<string, JsValue>)
      ensures this.fields == fields
    {
      this.fields := fields;
    }
  }

  /** `if (!userToUpdateData?.id) userToUpdateData.id = userToUpdateId`. */
  function DefaultId(fields: map<string, JsValue>, target: UserId): (f: map<string, JsValue>)
    requires target != ""
    ensures "id" in f && !Falsy(f["id"])
    ensures "id" in fields && !Falsy(fields["id"]) ==> f == fields
    ensures !("id" in fields && !Falsy(fields["id"])) ==> f == fields["id" := Str(target)]
  {
    if "id" in fields && !Falsy(fields["id"]) then fields else fields["id" := Str(target)]
  }

  /** The caller may change the user `target`: an admin may change anyone, anybody else
      only themself. */
  predicate MayUpdate(user: UserRecord, target: Option<string>) {
    user.role == Admin || target == Some(user.id)
  }

  /** The decision of `updateUser(user, userToUpdateId, userToUpdateData)` on the data it
      is given: 401 without a caller, then 403 unless `MayUpdate`, then 400 for an absent
      target id or body, then 404 for an unknown target; otherwise the write call, with
      `id` defaulted to the target and the session flag from the keys present. */
  function UpdateUserCall(users: Directory, user: Option<UserRecord>, target: Option<string>,
                          fields: Option<map<string, JsValue>>): (r: Result<UserWrite>)
    ensures user.None? <==> r == Fail(401)
    ensures user.Some? && !MayUpdate(user.value, target) ==> r == Fail(403)
    ensures user.Some? && MayUpdate(user.value, target) && (target.None? || target == Some("") || fields.None?)
            ==> r == Fail(400)
    ensures (user.Some? && MayUpdate(user.value, target) && target.Some? && target.value != "" && fields.Some?
             && target.value !in users) ==> r == Fail(404)
    ensures r.Ok? <==> user.Some? && MayUpdate(user.value, target) && target.Some? && target.value != ""
                       && fields.Some? && target.value in users
    ensures r.Ok? ==> r.value == UserWrite(DefaultId(fields.value, target.value), DeletesSessions(fields.value))
  {
    if user.None? then Fail(401)
    else if user.value.role != Admin && target != Some(user.value.id) then Fail(403)
    else if target.None? || target.value == "" || fields.None? then Fail(400)
    else if target.value !in users then Fail(404)
    else
      // `id` is added only when it was missing or falsy, and "id" is no sensitive key
      Ok(UserWrite(DefaultId(fields.value, target.value), DeletesSessions(fields.value)))
  }

  /** `updateUser` itself: the decision above, with the default id written into the
      caller's object before the target is looked up. */
  method UpdateUser(users: Directory, user: Option<UserRecord>, target: Option<string>, body: RequestBody?)
    returns (r: Result<UserWrite>)
    modifies body
    ensures r == UpdateUserCall(users, user, target, if body == null then None else Some(old(body.fields)))
    ensures body != null && r.Ok? ==> body.fields == r.value.fields
    ensures body != null && (r.Err? && r != Fail(404)) ==> body.fields == old(body.fields)
    ensures body != null && r == Fail(404) ==> target.Some? && target.value != ""
                                               && body.fields == DefaultId(old(body.fields), target.value)
  {
    if user.None? {
      return Fail(401);
    }
    if user.value.role != Admin && target != Some(user.value.id) {
      return Fail(403);
    }
    if target.None? || target.value == "" || body == null {
      return Fail(400);
    }
    var sessions := DeletesSessions(body.fields);
    body.fields := DefaultId(body.fields, target.value);
    if target.value !in users {
      return Fail(404);
    }
    return Ok(UserWrite(body.fields, sessions));
  }

  /** The user the write changes: the `id` the written fields carry. */
  function WriteTarget(w: UserWrite): JsValue {
    if "id" in w.fields then w.fields["id"] else Undefined
  }

  /** The guard looks at `userToUpdateId` but the write goes to the body's `id`: a user
      who names themself as the target and someone else in the body gets that other
      user's record written, with an admin role if the body says so. */
  lemma UpdateUserWritesUnchecked(users: Directory, caller: UserRecord, victim: UserId)
    requires caller.role == User && victim != caller.id && caller.id != "" && victim != ""
    requires caller.id in users && victim in users
    ensures var r := UpdateUserCall(users, Some(caller), Some(caller.id),
                                    Some(map["id" := Str(victim), "role" := Str("ADMIN")]));
      r.Ok? && WriteTarget(r.value) == Str(victim) && !MayUpdate(caller, Some(victim))
  {
  }

  /** The write `updateUser` evidently means: the body's `id` is always the checked
      target. */
  function UpdateUserCallChecked(users: Directory, user: Option<UserRecord>, target: Option<string>,
                                 fields: Option<map<string, JsValue>>): (r: Result<UserWrite>)
    ensures user.None? <==> r == Fail(401)
    ensures user.Some? && !MayUpdate(user.value, target) ==> r == Fail(403)
    ensures r.Ok? ==> user.Some? && target.Some? && WriteTarget(r.value) == Str(target.value)
                      && MayUpdate(user.value, Some(target.value)) && target.value in users
  {
    match UpdateUserCall(users, user, target, fields)
    case Ok(w) => Ok(w.(fields := w.fields["id" := Str(target.value)]))
    case Err(e) => Err(e)
  }

  /** `deleteUser(user, userToDeleteId)`: 401 without a caller, 403 for a non-admin, 400
      for an absent id, 404 for an unknown one; otherwise the deleted record and the
      directory without it. */
  function DeleteUser(users: Directory, user: Option<UserRecord>, target: Option<string>)
    : (r: Result<(UserRecord, Directory)>)
    ensures user.None? <==> r == Fail(401)
    ensures user.Some? && user.value.role != Admin ==> r == Fail(403)
    ensures user.Some? && user.value.role == Admin && (target.None? || target == Some("")) ==> r == Fail(400)
    ensures (user.Some? && user.value.role == Admin && target.Some? && target.value != ""
             && target.value !in users) ==> r == Fail(404)
    ensures r.Ok? <==> user.Some? && user.value.role == Admin && target.Some? && target.value != ""
                       && target.value in users
    ensures r.Ok? ==> r.value.0 == users[target.value] && r.value.1.Keys == users.Keys - {target.value}
                      && forall id :: id in r.value.1 ==> r.value.1[id] == users[id]
  {
    if user.None? then Fail(401)
    else if user.value.role != Admin then Fail(403)
    else if target.None? || target.value == "" then Fail(400)
    else if target.value !in users then Fail(404)
    else Ok((users[target.value], users - {target.value}))
  }

  /** Only an admin ever gets a whole directory or deletes a user, and a non-admin who
      updates a user with a checked write changes only themself. */
  lemma {:induction false} AdminOnly(users: Directory, user: Option<UserRecord>, target: Option<string>,
                                     fields: Option<map<string, JsValue>>)
    ensures GetAllUsers(users, user).Ok? || DeleteUser(users, user, target).Ok? ==> user.value.role == Admin
    ensures UpdateUserCallChecked(users, user, target, fields).Ok? && user.value.role != Admin
            ==> WriteTarget(UpdateUserCallChecked(users, user, target, fields).value) == Str(user.value.id)
  {
    if UpdateUserCallChecked(users, user, target, fields).Ok? && user.value.role != Admin {
      assert target == Some(user.value.id);
    }
  }

  // ---- Achievements ----

  /** An achievement definition: its code and the `type`, `required` and `requiredTasks`
      properties, each of which a definition may lack. */
  datatype AchievementDef = AchievementDef(code: string, achType: Option<string>, required: Option<int>,
                                           requiredTasks: Option<int>)

  /** The statistics `getUserStats` returns. */
  datatype UserStats = UserStats(tasksCompleted: int, reviewsGiven: int, tasksAccepted: int)

  const TaskCompletion: string := "TASK_COMPLETION"
  const TaskReview: string := "TASK_REVIEW"
  const TaskAccept: string := "TASK_ACCEPT"

  /** The statistic an achievement type is compared with, `userStats?.x`: absent when
      there are no statistics. */
  function StatFor(stats: Option<UserStats>, ty: string): Option<int> {
    match stats
    case None => None
    case Some(s) =>
      if ty == TaskCompletion then Some(s.tasksCompleted)
      else if ty == TaskReview then Some(s.reviewsGiven)
      else Some(s.tasksAccepted)
  }

  /** `achievement.type === ty && stat >= achievement.required`; comparing with an
      undefined operand is false. */
  predicate Eligible(d: AchievementDef, ty: string, stat: Option<int>) {
    d.achType == Some(ty) && stat.Some? && d.required.Some? && stat.value >= d.required.value
  }

  /** `defs.filter(...)` for one achievement type. */
  function Matching(defs: seq<AchievementDef>, ty: string, stat: Option<int>): (r: seq<AchievementDef>)
    ensures forall d :: d in r <==> d in defs && Eligible(d, ty, stat)
    ensures |r| <= |defs|
    ensures (forall i :: 0 <= i < |defs| ==> !Eligible(defs[i], ty, stat)) ==> r == []
  {
    if defs == [] then []
    else (if Eligible(defs[0], ty, stat) then [defs[0]] else []) + Matching(defs[1..], ty, stat)
  }

  /** Filtering keeps the order of the definitions: filtering two lists one after the
      other is filtering their concatenation. */
  lemma {:induction false} MatchingAppend(a: seq<AchievementDef>, b: seq<AchievementDef>, ty: string, stat: Option<int>)
    ensures Matching(a + b, ty, stat) == Matching(a, ty, stat) + Matching(b, ty, stat)
  {
    if a == [] {
      assert a + b == b;
    } else {
      var x := if Eligible(a[0], ty, stat) then [a[0]] else [];
      MatchingHead(a, b, ty, stat);
      MatchingAppend(a[1..], b, ty, stat);
      assert x + (Matching(a[1..], ty, stat) + Matching(b, ty, stat))
          == (x + Matching(a[1..], ty, stat)) + Matching(b, ty, stat);
    }
  }

  /** The first step of filtering a + b looks at a's first element. */
  lemma MatchingHead(a: seq<AchievementDef>, b: seq<AchievementDef>, ty: string, stat: Option<int>)
    requires a != []
    ensures Matching(a + b, ty, stat) == (if Eligible(a[0], ty, stat) then [a[0]] else []) + Matching(a[1..] + b, ty, stat)
  {
    assert (a + b)[0] == a[0];
    assert (a + b)[1..] == a[1..] + b;
  }

  /** The list the handler unlocks: the completion achievements earned, then the review
      ones, then the accept ones. */
  function AchievementsToUnlock(defs: seq<AchievementDef>, stats: Option<UserStats>): seq<AchievementDef> {
    Matching(defs, TaskCompletion, StatFor(stats, TaskCompletion))
    + Matching(defs, TaskReview, StatFor(stats, TaskReview))
    + Matching(defs, TaskAccept, StatFor(stats, TaskAccept))
  }

  /** Where a type comes in the unlocking order. */
  function TypeRank(d: AchievementDef): nat {
    if d.achType == Some(TaskCompletion) then 0 else if d.achType == Some(TaskReview) then 1 else 2
  }

  /** d has one of the three types and the user's statistic for that type reaches
      `required`. */
  predicate Earned(d: AchievementDef, stats: Option<UserStats>) {
    d.achType.Some? && (d.achType.value == TaskCompletion || d.achType.value == TaskReview || d.achType.value == TaskAccept)
    && Eligible(d, d.achType.value, StatFor(stats, d.achType.value))
  }

  /** A definition is unlocked exactly when it is earned. */
  lemma {:induction false} UnlockChoice(defs: seq<AchievementDef>, stats: Option<UserStats>, d: AchievementDef)
    ensures d in AchievementsToUnlock(defs, stats) <==> d in defs && Earned(d, stats)
  {
    var c := Matching(defs, TaskCompletion, StatFor(stats, TaskCompletion));
    var v := Matching(defs, TaskReview, StatFor(stats, TaskReview));
    var a := Matching(defs, TaskAccept, StatFor(stats, TaskAccept));
    assert d in c + v + a <==> d in c || d in v || d in a;
  }

  /** The unlocked list runs through the completion achievements, then the review ones,
      then the accept ones. */
  lemma {:induction false} UnlockOrder(defs: seq<AchievementDef>, stats: Option<UserStats>)
    ensures var r := AchievementsToUnlock(defs, stats);
      forall i, j :: 0 <= i < j < |r| ==> TypeRank(r[i]) <= TypeRank(r[j])
  {
    MatchingRank(defs, TaskCompletion, StatFor(stats, TaskCompletion), 0);
    MatchingRank(defs, TaskReview, StatFor(stats, TaskReview), 1);
    MatchingRank(defs, TaskAccept, StatFor(stats, TaskAccept), 2);
    RanksInBlocks(Matching(defs, TaskCompletion, StatFor(stats, TaskCompletion)),
                  Matching(defs, TaskReview, StatFor(stats, TaskReview)),
                  Matching(defs, TaskAccept, StatFor(stats, TaskAccept)));
  }

  /** Every definition of s sits at rank n. */
  predicate AtRank(s: seq<AchievementDef>, n: nat) {
    forall i :: 0 <= i < |s| ==> TypeRank(s[i]) == n
  }

  /** What one filter keeps has the filter's type, hence its rank. */
  lemma MatchingRank(defs: seq<AchievementDef>, ty: string, stat: Option<int>, n: nat)
    requires n == TypeRank(AchievementDef("", Some(ty), None, None))
    ensures AtRank(Matching(defs, ty, stat), n)
  {
    var r := Matching(defs, ty, stat);
    forall i | 0 <= i < |r| ensures TypeRank(r[i]) == n {
      assert r[i] in r;
    }
  }

  /** Three blocks of ranks 0, 1 and 2, one after the other, are in rank order. */
  lemma RanksInBlocks(c: seq<AchievementDef>, v: seq<AchievementDef>, a: seq<AchievementDef>)
    requires AtRank(c, 0) && AtRank(v, 1) && AtRank(a, 2)
    ensures var r := c + v + a;
      forall i, j :: 0 <= i < j < |r| ==> TypeRank(r[i]) <= TypeRank(r[j])
  {
    var r := c + v + a;
    forall i | 0 <= i < |r| ensures TypeRank(r[i]) == if i < |c| then 0 else if i < |c| + |v| then 1 else 2 {
      if i < |c| {
        assert r[i] == c[i];
      } else if i < |c| + |v| {
        assert r[i] == v[i - |c|];
      } else {
        assert r[i] == a[i - |c| - |v|];
      }
    }
  }


  /** One `unlockAchievement(userId, code)` call. */
  datatype Unlock = Unlock(userId: UserId, code: string)

  /** The unlock calls for a list of definitions, in order. */
  function UnlocksFor(userId: UserId, ds: seq<AchievementDef>): (r: seq<Unlock>)
    ensures |r| == |ds| && forall i :: 0 <= i < |ds| ==> r[i] == Unlock(userId, ds[i].code)
  {
    seq(|ds|, i requires 0 <= i < |ds| => Unlock(userId, ds[i].code))
  }

  /** The calls for one more definition are the calls so far and one more call. */
  lemma UnlocksForSnoc(userId: UserId, ds: seq<AchievementDef>, i: int)
    requires 0 <= i < |ds|
    ensures UnlocksFor(userId, ds[..i + 1]) == UnlocksFor(userId, ds[..i]) + [Unlock(userId, ds[i].code)]
  {
  }

  /** The record of the unlock calls made so far. */
  class AchievementLedger {
    var unlocked: seq<Unlock>

    constructor ()
      ensures unlocked == []
    {
      unlocked := [];
    }

    /** `checkAndUnlockAchievements(userId)` with the statistics and the definitions as
        parameters: one unlock call per chosen definition, in the chosen order. */
    method CheckAndUnlockAchievements(userId: UserId, defs: seq<AchievementDef>, stats: Option<UserStats>)
      modifies this
      ensures unlocked == old(unlocked) + UnlocksFor(userId, AchievementsToUnlock(defs, stats))
    {
      var toUnlock := AchievementsToUnlock(defs, stats);
      for i := 0 to |toUnlock|
        invariant unlocked == old(unlocked) + UnlocksFor(userId, toUnlock[..i])
      {
        UnlocksForSnoc(userId, toUnlock, i);
        unlocked := unlocked + [Unlock(userId, toUnlock[i].code)];
      }
      assert toUnlock[..|toUnlock|] == toUnlock;
    }
  }

  /** The definitions utils/achievements.js ships: a code and `requiredTasks`, with no
      `type` and no `required`. */
  const ShippedDefinitions: seq<AchievementDef> := [
    AchievementDef("1-TASK", None, None, Some(1)),
    AchievementDef("5-TASK", None, None, Some(5)),
    AchievementDef("10-TASK", None, None, Some(10)),
    AchievementDef("25-TASK", None, None, Some(25)),
    AchievementDef("50-TASK", None, None, Some(50)),
    AchievementDef("100-TASK", None, None, Some(100))
  ]

  /** Definitions without a `type` are never unlocked, whatever the statistics. */
  lemma {:induction false} UntypedUnlockNothing(defs: seq<AchievementDef>, stats: Option<UserStats>)
    requires forall i :: 0 <= i < |defs| ==> defs[i].achType.None?
    ensures AchievementsToUnlock(defs, stats) == []
  {
    assert forall ty, stat :: Matching(defs, ty, stat) == [];
  }

  /** The definitions shipped carry no `type`, so with them nothing is ever unlocked. */
  lemma {:induction false} ShippedUnlockNothing(stats: Option<UserStats>)
    ensures AchievementsToUnlock(ShippedDefinitions, stats) == []
  {
    UntypedUnlockNothing(ShippedDefinitions, stats);
  }

  /** The definitions as the handler reads them: completion achievements whose
      `required` is the shipped `requiredTasks`. */
  function TypedDefinitions(defs: seq<AchievementDef>): (r: seq<AchievementDef>)
    ensures |r| == |defs|
    ensures forall i :: 0 <= i < |defs| ==>
      r[i] == defs[i].(achType := Some(TaskCompletion), required := defs[i].requiredTasks)
  {
    seq(|defs|, i requires 0 <= i < |defs| => defs[i].(achType := Some(TaskCompletion), required := defs[i].requiredTasks))
  }

  /** With typed definitions a user with statistics unlocks exactly the achievements
      whose task count they have reached. */
  lemma {:induction false} TypedUnlock(defs: seq<AchievementDef>, stats: UserStats, d: AchievementDef)
    requires forall i :: 0 <= i < |defs| ==> defs[i].requiredTasks.Some?
    ensures d in AchievementsToUnlock(TypedDefinitions(defs), Some(stats)) <==>
      d in TypedDefinitions(defs) && d.requiredTasks.value <= stats.tasksCompleted
  {
    var typed := TypedDefinitions(defs);
    UnlockChoice(typed, Some(stats), d);
    if d in typed {
      var i :| 0 <= i < |typed| && typed[i] == d;
      assert d.achType == Some(TaskCompletion) && d.required == d.requiredTasks && d.requiredTasks.Some?;
    }
  }
}
