/**
 * The handlers of services/handlers/accessHandler.js: applying to a task and the owner
 * accepting or rejecting the application, invitations by e-mail and their acceptance
 * or rejection, unlinking a viewer or assignee, and listing a task's rows. Each handler
 * is a method on the store; a `throwError(code)` becomes `Fail(code)`, and a resolver
 * walk reaching a deleted parent (a TypeError in the source) becomes `RuntimeError`.
 * No handler changes the store on a path that throws.
 */
module AccessHandlers {
  import opened Wrappers
  import opened Errors
  import opened Model
  import opened Forest
  import opened Access
  import opened Repository

  /** `(await hasAccessToEdit(u, t)) || (await hasAccessToView(u, t))`. */
  method EditOrViewAccess(s: Store, u: UserId, t: TaskId) returns (w: Walk)
    requires s.Valid()
    ensures w == EditOrView(s.State(), u, t)
  {
    w := s.HasAccessToEdit(u, t);
    if w == Denied {
      w := s.HasAccessToView(u, t);
    }
  }

  // ---- Applications ----

  /** `applyToTask`: a user with no access yet asks to follow a task. */
  method ApplyToTask(s: Store, actorId: UserId, taskId: TaskId) returns (r: Result<Link>)
    requires s.Valid()
    modifies s
    ensures s.Valid()
    ensures r.Err? ==> s.State() == old(s.State())
    ensures IsBlank(taskId) ==> r == Fail(400)
    ensures !IsBlank(taskId) && taskId !in old(s.tasks) ==> r == Fail(404)
    ensures taskId in old(s.tasks) && EditOrView(old(s.State()), actorId, taskId) == Broken ==> r == Err(RuntimeError)
    ensures taskId in old(s.tasks) && EditOrView(old(s.State()), actorId, taskId) == Granted ==> r == Fail(409)
    ensures (taskId in old(s.tasks) && EditOrView(old(s.State()), actorId, taskId) == Denied
             && Link(taskId, actorId) in old(s.applications)) ==> r == Fail(409)
    ensures r.Ok? <==> !IsBlank(taskId) && taskId in old(s.tasks) && EditOrView(old(s.State()), actorId, taskId) == Denied
                       && Link(taskId, actorId) !in old(s.applications)
    ensures r.Ok? ==> r.value == Link(taskId, actorId)
    ensures r.Ok? ==> s.State() == old(s.State()).(applications := old(s.applications) + [r.value])
    // applying grants nothing
    ensures r.Ok? ==> EditOrView(s.State(), actorId, taskId) == Denied
  {
    ghost var db := s.State();
    if IsBlank(taskId) {
      return Fail(400);
    }
    var task := s.GetTaskById(taskId);
    if task.None? {
      return Fail(404);
    }
    var linked := EditOrViewAccess(s, actorId, taskId);
    if linked == Broken {
      return Err(RuntimeError);
    }
    if linked == Granted {
      return Fail(409);
    }
    var applied := s.HasAppliedToTask(actorId, taskId);
    if applied.Some? {
      return Fail(409);
    }
    var row := s.CreateApplication(actorId, taskId);
    WalkReads(db, s.State(), Edit, actorId, taskId);
    WalkReads(db, s.State(), View, actorId, taskId);
    return Ok(row);
  }

  /** `acceptUserApplication`: an editor of the task turns an application into a
      subscription, which lets the applicant view the task. */
  method AcceptUserApplication(s: Store, actorId: UserId, taskId: TaskId, userId: UserId) returns (r: Result<Link>)
    requires s.Valid()
    modifies s
    ensures s.Valid()
    ensures r.Err? ==> s.State() == old(s.State())
    ensures IsBlank(taskId) || IsBlank(userId) ==> r == Fail(400)
    ensures !IsBlank(taskId) && !IsBlank(userId) && (taskId !in old(s.tasks) || userId !in old(s.users)) ==> r == Fail(404)
    ensures taskId in old(s.tasks) && userId in old(s.users) && !IsBlank(userId) ==>
              (AccessWalk(old(s.State()), Edit, actorId, taskId) == Broken ==> r == Err(RuntimeError))
    ensures taskId in old(s.tasks) && userId in old(s.users) && !IsBlank(userId) ==>
              (AccessWalk(old(s.State()), Edit, actorId, taskId) == Denied ==> r == Fail(403))
    ensures taskId in old(s.tasks) && userId in old(s.users) && !IsBlank(userId)
            && AccessWalk(old(s.State()), Edit, actorId, taskId) == Granted ==>
              (Link(taskId, userId) !in old(s.applications) ==> r == Fail(400))
    ensures taskId in old(s.tasks) && userId in old(s.users) && !IsBlank(userId)
            && AccessWalk(old(s.State()), Edit, actorId, taskId) == Granted && Link(taskId, userId) in old(s.applications) ==>
              (EditOrView(old(s.State()), userId, taskId) == Broken ==> r == Err(RuntimeError))
    ensures taskId in old(s.tasks) && userId in old(s.users) && !IsBlank(userId)
            && AccessWalk(old(s.State()), Edit, actorId, taskId) == Granted && Link(taskId, userId) in old(s.applications) ==>
              (EditOrView(old(s.State()), userId, taskId) == Granted ==> r == Fail(409))
    ensures r.Ok? <==> && !IsBlank(taskId) && !IsBlank(userId) && taskId in old(s.tasks) && userId in old(s.users)
                       && AccessWalk(old(s.State()), Edit, actorId, taskId) == Granted
                       && Link(taskId, userId) in old(s.applications)
                       && EditOrView(old(s.State()), userId, taskId) == Denied
    ensures r.Ok? ==> r.value == Link(taskId, userId)
    ensures r.Ok? ==> s.State() == old(s.State()).(applications := WithoutLink(old(s.applications), Link(taskId, userId)),
                                                   subscriptions := old(s.subscriptions) + [r.value])
    // the applicant becomes a viewer, not an editor
    ensures r.Ok? ==> AccessWalk(s.State(), View, userId, taskId) == Granted
    ensures r.Ok? ==> AccessWalk(s.State(), Edit, userId, taskId) == Denied
  {
    ghost var db := s.State();
    if IsBlank(taskId) {
      return Fail(400);
    }
    if IsBlank(userId) {
      return Fail(400);
    }
    var task := s.GetTaskById(taskId);
    var userToAssign := s.GetUserById(userId);
    if task.None? {
      return Fail(404);
    }
    if userToAssign.None? {
      return Fail(404);
    }
    var canEdit := s.HasAccessToEdit(actorId, task.value.task.id);
    if canEdit == Broken {
      return Err(RuntimeError);
    }
    if canEdit == Denied {
      return Fail(403);
    }
    var application := s.HasAppliedToTask(userId, taskId);
    if application.None? {
      return Fail(400);
    }
    var linked := EditOrViewAccess(s, userId, taskId);
    if linked == Broken {
      return Err(RuntimeError);
    }
    if linked == Granted {
      return Fail(409);
    }
    EditOrViewIsView(db, userId, taskId);
    EditImpliesView(db, userId, taskId);
    var _ := s.DeleteApplication(userId, taskId);
    var sub := s.CreateSubscription(taskId, userId);
    WalkReads(db, s.State(), Edit, userId, taskId);
    assert Grants(s.State(), View, userId, taskId);
    return Ok(sub);
  }

  /** `rejectUserApplication`: the task's direct creator drops applications; it returns
      the number of rows deleted. */
  method RejectUserApplication(s: Store, actorId: UserId, taskId: TaskId, userId: UserId) returns (r: Result<nat>)
    requires s.Valid()
    modifies s
    ensures s.Valid()
    ensures r.Err? ==> s.State() == old(s.State())
    ensures IsBlank(taskId) || IsBlank(userId) ==> r == Fail(400)
    ensures !IsBlank(taskId) && !IsBlank(userId) && (taskId !in old(s.tasks) || userId !in old(s.users)) ==> r == Fail(404)
    ensures (taskId in old(s.tasks) && userId in old(s.users) && !IsBlank(userId)
             && old(s.tasks)[taskId].creatorId != actorId) ==> r == Fail(403)
    ensures r.Ok? <==> && !IsBlank(taskId) && !IsBlank(userId) && taskId in old(s.tasks) && userId in old(s.users)
                       && old(s.tasks)[taskId].creatorId == actorId
    ensures r.Ok? ==> s.State() == old(s.State()).(applications := WithoutLink(old(s.applications), Link(taskId, userId)))
    ensures r.Ok? ==> r.value == |old(s.applications)| - |s.applications|
    ensures r.Ok? ==> Link(taskId, userId) !in s.applications
  {
    if IsBlank(taskId) {
      return Fail(400);
    }
    if IsBlank(userId) {
      return Fail(400);
    }
    var task := s.GetTaskById(taskId);
    if task.None? {
      return Fail(404);
    }
    var user := s.GetUserById(userId);
    if user.None? {
      return Fail(404);
    }
    if task.value.task.creatorId != actorId {
      return Fail(403);
    }
    var count := s.DeleteApplication(userId, taskId);
    return Ok(count);
  }

  /** `getTaskApplications`: only the task's direct creator may list them. */
  method GetTaskApplications(s: Store, actorId: UserId, taskId: TaskId) returns (r: Result<seq<Link>>)
    requires s.Valid()
    ensures IsBlank(taskId) ==> r == Fail(400)
    ensures !IsBlank(taskId) && taskId !in s.tasks ==> r == Fail(404)
    ensures taskId in s.tasks && s.tasks[taskId].creatorId != actorId ==> r == Fail(403)
    ensures r.Ok? <==> !IsBlank(taskId) && taskId in s.tasks && s.tasks[taskId].creatorId == actorId
    ensures r.Ok? ==> forall x :: x in r.value <==> x in s.applications && x.taskId == taskId
  {
    if IsBlank(taskId) {
      return Fail(400);
    }
    var task := s.GetTaskById(taskId);
    if task.None? {
      return Fail(404);
    }
    if task.value.task.creatorId != actorId {
      return Fail(403);
    }
    var rows := s.GetTaskApplications(taskId);
    return Ok(rows);
  }

  // ---- Invitations ----

  /** `inviteUserToTask`: the task's direct creator invites a user found by e-mail.
      Only an empty id or e-mail is refused with 400 (no trimming here). */
  method InviteUserToTask(s: Store, actorId: UserId, taskId: TaskId, email: string) returns (r: Result<Invitation>)
    requires s.Valid()
    modifies s
    ensures s.Valid()
    ensures r.Err? ==> s.State() == old(s.State())
    ensures taskId == [] || email == [] ==> r == Fail(400)
    ensures taskId != [] && email != [] && taskId !in old(s.tasks) ==> r == Fail(404)
    ensures email != [] && taskId in old(s.tasks) && old(s.tasks)[taskId].creatorId != actorId ==> r == Fail(403)
    ensures (email != [] && taskId in old(s.tasks) && old(s.tasks)[taskId].creatorId == actorId
             && !(email in old(s.emails) && old(s.emails)[email] in old(s.users))) ==> r == Fail(404)
    ensures r.Ok? <==> && taskId != [] && email != [] && taskId in old(s.tasks) && old(s.tasks)[taskId].creatorId == actorId
                       && email in old(s.emails) && old(s.emails)[email] in old(s.users)
                       && var invited := old(s.users)[old(s.emails)[email]].id;
                          && !Invited(old(s.invitations), invited, taskId)
                          && AccessWalk(old(s.State()), Edit, invited, taskId) == Denied
    ensures (taskId != [] && email != [] && taskId in old(s.tasks) && old(s.tasks)[taskId].creatorId == actorId
             && email in old(s.emails) && old(s.emails)[email] in old(s.users))
            ==> var invited := old(s.users)[old(s.emails)[email]].id;
                && (Invited(old(s.invitations), invited, taskId) ==> r == Fail(409))
                && (!Invited(old(s.invitations), invited, taskId) && AccessWalk(old(s.State()), Edit, invited, taskId) == Granted
                    ==> r == Fail(409))
                && (!Invited(old(s.invitations), invited, taskId) && AccessWalk(old(s.State()), Edit, invited, taskId) == Broken
                    ==> r == Err(RuntimeError))
    ensures r.Ok? ==> r.value == Invitation(taskId, actorId, old(s.users)[old(s.emails)[email]].id)
    ensures r.Ok? ==> s.State() == old(s.State()).(invitations := old(s.invitations) + [r.value])
    ensures r.Ok? ==> Invited(s.invitations, r.value.invitedId, taskId)
  {
    if taskId == [] || email == [] {
      return Fail(400);
    }
    var task := s.GetTaskById(taskId);
    if task.None? {
      return Fail(404);
    }
    if task.value.task.creatorId != actorId {
      return Fail(403);
    }
    var userToInvite := s.GetUserByEmail(email);
    if userToInvite.None? {
      return Fail(404);
    }
    var invited := userToInvite.value.id;
    var alreadyInvited := s.HasBeenInvitedToTask(invited, taskId);
    if alreadyInvited {
      return Fail(409);
    }
    var alreadyAssigned := s.HasAccessToEdit(invited, taskId);
    if alreadyAssigned == Broken {
      return Err(RuntimeError);
    }
    if alreadyAssigned == Granted {
      return Fail(409);
    }
    var invitation := s.CreateInvitation(taskId, actorId, invited);
    assert s.invitations[|s.invitations| - 1] == invitation;
    return Ok(invitation);
  }

  /** `rejectTaskInvitation`: the invited user drops every invitation of theirs to the
      task; it returns the number of rows deleted. */
  method RejectTaskInvitation(s: Store, actorId: UserId, taskId: TaskId) returns (r: Result<nat>)
    requires s.Valid()
    modifies s
    ensures s.Valid()
    ensures r.Err? ==> s.State() == old(s.State())
    ensures IsBlank(taskId) ==> r == Fail(400)
    ensures !IsBlank(taskId) && taskId !in old(s.tasks) ==> r == Fail(404)
    ensures taskId in old(s.tasks) && !Invited(old(s.invitations), actorId, taskId) ==> r == Fail(403)
    ensures r.Ok? <==> !IsBlank(taskId) && taskId in old(s.tasks) && Invited(old(s.invitations), actorId, taskId)
    ensures r.Ok? ==> s.State() == old(s.State()).(invitations := WithoutInvitations(old(s.invitations), actorId, taskId))
    ensures r.Ok? ==> r.value == |old(s.invitations)| - |s.invitations| && r.value > 0
    ensures r.Ok? ==> !Invited(s.invitations, actorId, taskId)
  {
    if IsBlank(taskId) {
      return Fail(400);
    }
    var task := s.GetTaskById(taskId);
    if task.None? {
      return Fail(404);
    }
    var isInvited := s.HasBeenInvitedToTask(actorId, taskId);
    if !isInvited {
      return Fail(403);
    }
    DeletionCount(s.invitations, actorId, taskId);
    var count := s.DeleteInvitation(actorId, taskId);
    return Ok(count);
  }

  /** `acceptTaskInvitation`: the invited user's invitations to the task become an
      assignment, which lets them edit it. */
  method AcceptTaskInvitation(s: Store, actorId: UserId, taskId: TaskId) returns (r: Result<Link>)
    requires s.Valid()
    modifies s
    ensures s.Valid()
    ensures r.Err? ==> s.State() == old(s.State())
    ensures IsBlank(taskId) ==> r == Fail(400)
    ensures !IsBlank(taskId) && taskId !in old(s.tasks) ==> r == Fail(404)
    ensures taskId in old(s.tasks) && !Invited(old(s.invitations), actorId, taskId) ==> r == Fail(403)
    ensures r.Ok? <==> !IsBlank(taskId) && taskId in old(s.tasks) && Invited(old(s.invitations), actorId, taskId)
    ensures r.Ok? ==> r.value == Link(taskId, actorId)
    ensures r.Ok? ==> s.State() == old(s.State()).(invitations := WithoutInvitations(old(s.invitations), actorId, taskId),
                                                   assignments := old(s.assignments) + [r.value])
    // the invited user becomes an editor
    ensures r.Ok? ==> AccessWalk(s.State(), Edit, actorId, taskId) == Granted
  {
    if IsBlank(taskId) {
      return Fail(400);
    }
    var task := s.GetTaskById(taskId);
    if task.None? {
      return Fail(404);
    }
    var isInvited := s.HasBeenInvitedToTask(actorId, taskId);
    if !isInvited {
      return Fail(403);
    }
    var _ := s.DeleteInvitation(actorId, taskId);
    var row := s.CreateAssignment(taskId, actorId);
    assert Grants(s.State(), Edit, actorId, taskId);
    return Ok(row);
  }

  // ---- Unlinking ----

  /** `unlinkUserFromTask`: removes a viewer's or assignee's rows. The guard meant to
      restrict this to the creator compares a boolean with a string and never fires, so
      any actor may unlink anybody but the task's direct creator. */
  method UnlinkUserFromTask(s: Store, actorId: UserId, taskId: TaskId, userId: UserId) returns (r: Result<()>)
    requires s.Valid()
    modifies s
    ensures s.Valid()
    ensures r.Err? ==> s.State() == old(s.State())
    ensures IsBlank(taskId) || IsBlank(userId) ==> r == Fail(400)
    ensures !IsBlank(taskId) && !IsBlank(userId) && (taskId !in old(s.tasks) || userId !in old(s.users)) ==> r == Fail(404)
    ensures (taskId in old(s.tasks) && userId in old(s.users) && !IsBlank(userId)
             && old(s.tasks)[taskId].creatorId == userId) ==> r == Fail(403)
    ensures taskId in old(s.tasks) && userId in old(s.users) && !IsBlank(userId) && old(s.tasks)[taskId].creatorId != userId ==>
              (EditOrView(old(s.State()), userId, taskId) == Broken ==> r == Err(RuntimeError))
    ensures taskId in old(s.tasks) && userId in old(s.users) && !IsBlank(userId) && old(s.tasks)[taskId].creatorId != userId ==>
              (EditOrView(old(s.State()), userId, taskId) == Denied ==> r == Fail(403))
    ensures r.Ok? <==> && !IsBlank(taskId) && !IsBlank(userId) && taskId in old(s.tasks) && userId in old(s.users)
                       && old(s.tasks)[taskId].creatorId != userId
                       && EditOrView(old(s.State()), userId, taskId) == Granted
    ensures r.Ok? ==> s.State() == old(s.State()).(subscriptions := WithoutLink(old(s.subscriptions), Link(taskId, userId)),
                                                   assignments := WithoutLink(old(s.assignments), Link(taskId, userId)))
    // the task itself no longer grants the user anything beyond what a public task grants everyone
    ensures r.Ok? ==> !Grants(s.State(), Edit, userId, taskId)
    ensures r.Ok? ==> (Grants(s.State(), View, userId, taskId) <==> s.tasks[taskId].isPublic)
  {
    if IsBlank(taskId) {
      return Fail(400);
    }
    if IsBlank(userId) {
      return Fail(400);
    }
    var task := s.GetTaskById(taskId);
    if task.None? {
      return Fail(404);
    }
    var user := s.GetUserById(userId);
    if user.None? {
      return Fail(404);
    }
    if task.value.task.creatorId == userId {
      return Fail(403);
    }
    var linked := EditOrViewAccess(s, userId, taskId);
    if linked == Broken {
      return Err(RuntimeError);
    }
    if linked == Denied {
      return Fail(403);
    }
    s.UnlinkUserFromTask(taskId, userId);
    return Ok(());
  }

  // ---- Listing a task's rows ----

  /** `getTaskAssignments`: anyone who may view the task may list its assignees. */
  method GetTaskAssignments(s: Store, actorId: UserId, taskId: TaskId) returns (r: Result<seq<Link>>)
    requires s.Valid()
    ensures IsBlank(taskId) ==> r == Fail(400)
    ensures !IsBlank(taskId) && taskId !in s.tasks ==> r == Fail(404)
    ensures taskId in s.tasks && AccessWalk(s.State(), View, actorId, taskId) == Broken ==> r == Err(RuntimeError)
    ensures taskId in s.tasks && AccessWalk(s.State(), View, actorId, taskId) == Denied ==> r == Fail(403)
    ensures r.Ok? <==> !IsBlank(taskId) && taskId in s.tasks && AccessWalk(s.State(), View, actorId, taskId) == Granted
    ensures r.Ok? ==> forall x :: x in r.value <==> x in s.assignments && x.taskId == taskId
  {
    if IsBlank(taskId) {
      return Fail(400);
    }
    var task := s.GetTaskById(taskId);
    if task.None? {
      return Fail(404);
    }
    var hasAccess := s.HasAccessToView(actorId, task.value.task.id);
    if hasAccess == Broken {
      return Err(RuntimeError);
    }
    if hasAccess == Denied {
      return Fail(403);
    }
    var rows := s.GetTaskAssignments(taskId);
    return Ok(rows);
  }

  /** `getTaskSubscriptions`: anyone who may view the task may list its subscribers. */
  method GetTaskSubscriptions(s: Store, actorId: UserId, taskId: TaskId) returns (r: Result<seq<Link>>)
    requires s.Valid()
    ensures IsBlank(taskId) ==> r == Fail(400)
    ensures !IsBlank(taskId) && taskId !in s.tasks ==> r == Fail(404)
    ensures taskId in s.tasks && AccessWalk(s.State(), View, actorId, taskId) == Broken ==> r == Err(RuntimeError)
    ensures taskId in s.tasks && AccessWalk(s.State(), View, actorId, taskId) == Denied ==> r == Fail(403)
    ensures r.Ok? <==> !IsBlank(taskId) && taskId in s.tasks && AccessWalk(s.State(), View, actorId, taskId) == Granted
    ensures r.Ok? ==> forall x :: x in r.value <==> x in s.subscriptions && x.taskId == taskId
  {
    if IsBlank(taskId) {
      return Fail(400);
    }
    var task := s.GetTaskById(taskId);
    if task.None? {
      return Fail(404);
    }
    var hasAccess := s.HasAccessToView(actorId, taskId);
    if hasAccess == Broken {
      return Err(RuntimeError);
    }
    if hasAccess == Denied {
      return Fail(403);
    }
    var rows := s.GetTaskSubscriptions(taskId);
    return Ok(rows);
  }
}
