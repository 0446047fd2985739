# A verified model of a collaborative task manager's core

The system is a web back end for shared to-do lists. Tasks form a forest: each task has at
most one parent. Besides its creator, a task can be shared three ways:

- an **assignment** makes a user an editor;
- a **subscription** makes a user a viewer;
- a public task is visible to everyone.

Access is inherited along the parent chain. Users apply to tasks and owners accept or
reject them. Owners invite users by e-mail, and the invited user accepts or rejects. A
task may recur (daily, weekly, monthly, or following its parent's schedule). Completing
it through an update stores the next occurrence of the whole subtree. A subtree can also
be cloned.

The model covers these parts of the source:

- The task and access repositories. These are one `Repository.Store` class whose
  fields are the tables: tasks, the listing order, applications, invitations,
  assignments, subscriptions, the user directory and the completion counters.
- The access resolver, which walks up the parent chain (`Access.AccessWalk`). Its
  result is one of three outcomes:
  - `Granted`;
  - `Denied`;
  - `Broken`: the walk reached a parent that is not stored, and the JavaScript code
    dereferences `null` there.
- The access handlers and task handlers, including update-with-completion, recurrence
  and clone. These are methods over the store. Each method states every error code,
  exactly when it succeeds, and its whole new state.
- The pure recurrence calculations, over a Gregorian calendar model (`Dates`).
- The error helpers.
- The legacy resolver in `authHandler.js`.
- The user handlers.

Module layout:

| module | file | models |
|---|---|---|
| `Wrappers` | wrappers.dfy | `Option` |
| `Errors` | errors.dfy | `services/errorHandler.js`, plus the JS truthiness test |
| `Model` | model.dfy | rows, ids, blank strings, update data, row filters |
| `Forest` | forest.dfy | parent links: acyclicity, chains, the recursive subtask tree |
| `Dates` | dates.dfy | `Date.setDate` / `Date.setMonth` arithmetic |
| `Recurrence` | recurrence.dfy | `utils/recurrenceCalculations.js` |
| `Access` | access.dfy | the resolver's specification and its laws |
| `Repository` | store.dfy | `services/repositories/taskRepository.js`, `services/repositories/accessRepository.js`, the user lookups|
| `TaskCopies` | task_copies.dfy | what clone and recurrence do to the store, as functions |
| `AccessHandlers` | access_handlers.dfy | `services/handlers/accessHandler.js` |
| `TaskHandlers` | task_handlers.dfy | `services/handlers/taskHandler.js` |
| `LegacyAuth` | legacy_auth.dfy | `services/handlers/authHandler.js` |
| `Users` | users.dfy | `services/handlers/userHandler.js` |

Where the documented behaviour and the code differ, the model follows the code:

- Marking a task complete a second time is rejected with 400, not 409.
- Unlinking the task's creator is rejected with 403.
- `markTaskCompleted` neither creates the next occurrence nor counts the completion.
  Only `updateTask` with status DONE does both.
- There is no depth guard on the parent walk. The model keeps parent links acyclic as a
  store invariant (`Store.Valid`).
- The remaining-occurrences counter is decremented with no floor. `null - 1` gives -1.
- `processTaskRecurrence` has a 400 guard for a missing id. A top-level task whose type is
  PARENT returns without doing anything.

## Model

| member | source | states |
|---|---|---|
| `Errors.ThrowError` | services/errorHandler.js:8-32 | the error carries the given code, and has a non-empty message exactly for 400, 401, 403, 404, 409 and 500 |
| `Errors.KnownMessagesDistinct` | services/errorHandler.js:11-30 | two different known codes never share a message |
| `Errors.ErrorObject.HandleError` | services/errorHandler.js:1-6 | an error with a status code keeps it, one without gets 500, and the message is untouched |
| `Errors.ValidateFields` | services/errorHandler.js:34-36 | fails exactly when some field is falsy, and then with 400 |
| `Dates.AddDaysIndex` | utils/recurrenceCalculations.js:4 | adding k days with roll-over moves the absolute day number by exactly k |
| `Dates.AddMonthIndex` | utils/recurrenceCalculations.js:14 | adding a month lands day-1 days after the first of the next month; a day the month lacks rolls into the month after |
| `Dates.FirstOfNextMonth` | utils/recurrenceCalculations.js:13-15 | the first of the next month is the month's length after the first of this month |
| `Recurrence.CalculateNextDeadline` | utils/recurrenceCalculations.js:1-17 | a deadline results exactly for DAILY, WEEKLY and MONTHLY; otherwise undefined |
| `Recurrence.NextDeadlineDays` | utils/recurrenceCalculations.js:2-11 | DAILY moves the deadline (the epoch when none) 1 day on, WEEKLY 7 days, counted on the absolute day number |
| `Recurrence.NextDeadlineMonthly` | utils/recurrenceCalculations.js:13-16 | MONTHLY keeps the day of month, counted from the first of the next month |
| `Recurrence.CalculateRecurrenceOptions` | utils/recurrenceCalculations.js:19-37 | the type is passed through; with an expiry date the options are unchanged, without one the expiry is null and the count is decremented (null counts as 0) |
| `Recurrence.IterateCount` | utils/recurrenceCalculations.js:19-37 | n successive occurrences keep the type; with an expiry nothing changes, without one the count drops by n |
| `Model.ApplyUpdateIdempotent` | services/repositories/taskRepository.js:155-166 | applying the same update twice is applying it once, and the empty update changes nothing |
| `Model.ApplyUpdate` | services/repositories/taskRepository.js:155-166 | an update never touches id, creator, parent or completion fields |
| `Model.WithoutLinkCounts` | services/repositories/accessRepository.js:72-80 | deleting a (task, user) row removes every copy of it and nothing else, so the count drops by its multiplicity |
| `Model.WithoutInvitationsCounts` | services/repositories/accessRepository.js:55-60 | deleting invitations removes every row for that invited user and task, whoever the inviter, and keeps the rest |
| `Model.DeletionCount` | services/repositories/accessRepository.js:55-60 | the deletion count is positive exactly when an invitation existed |
| `Model.NextIdUnused` | services/repositories/taskRepository.js:118-153 | the next generated id is not a stored task and no task names it as parent |
| `Model.RemoveId` | services/repositories/taskRepository.js:168-174 | the listing order after a delete holds exactly the other ids, still without repeats |
| `Model.ChildIds` | services/repositories/taskRepository.js:3-21 | the children are exactly the stored tasks whose parent is the given id, in listing order |
| `Model.OwnedIds` | services/repositories/taskRepository.js:23-43 | the owned ids are exactly the stored tasks created by the user |
| `Model.OrNull` | services/repositories/taskRepository.js:133 | an empty parent id becomes null, any other is kept |
| `Forest.SubTasksUnfold` | services/repositories/taskRepository.js:3-21 | each subtask tree holds a child, in order, with its own subtask tree below it |
| `Forest.SubTaskAt` | services/repositories/taskRepository.js:8-19 | one step of the recursion: the k-th child is a stored child, and the recursion's measure shrinks |
| `Forest.ChildNotAncestor` | services/repositories/taskRepository.js:3-21 | a child is never among its parent's ancestors, so the recursion terminates on an acyclic store |
| `Forest.NotOnAncestorChain` | services/repositories/accessRepository.js:175-195 | a proper ancestor's chain never reaches back to its descendant |
| `Access.WalkChain` | services/repositories/accessRepository.js:165-247 | the walk grants exactly when some task on the parent chain grants; it breaks exactly when nothing grants and the chain ends at a parent that is not stored; otherwise it denies |
| `Access.EditImpliesView` | services/repositories/accessRepository.js:165-247 | edit access implies view access; without view access, both checks give the same result |
| `Access.AncestorAccessInherited` | services/repositories/accessRepository.js:183-191 | access to an ancestor gives the same access to every descendant |
| `Access.NoUpwardGrant` | services/repositories/accessRepository.js:165-247 | a row on a subtask grants nothing on its ancestors |
| `Access.WalkReads` | services/repositories/accessRepository.js:165-247 | the walk reads only tasks and assignments, plus subscriptions for view |
| `Access.WalkFramed` | services/repositories/accessRepository.js:176-179 | two stores that grant alike on every task of the chain give the same result |
| `Access.WalkAfterInsert` | services/repositories/taskRepository.js:118-153 | storing a new task changes no existing task's access |
| `Access.EditIgnoresSubscriptions` | services/repositories/accessRepository.js:165-198 | subscriptions never give edit access |
| `Access.EditOrViewIsView` | services/handlers/accessHandler.js:39-41 | the "already assigned" test (edit, or else view) amounts to view access, except that a broken edit walk throws first |
| `Access.SomeRowForTask` | services/handlers/accessHandler.js:76-79 | a user has a row among a task's rows exactly when the (task, user) row exists |
| `Repository.InsertKeepsValid` | services/repositories/taskRepository.js:118-153 | storing a task whose parent is stored keeps the store well formed and acyclic |
| `Repository.RankedAfterEdit` | services/repositories/taskRepository.js:155-196 | rewriting a task without changing its parent keeps the links acyclic |
| `Repository.RemoveKeepsRanked` | services/repositories/taskRepository.js:168-174 | deleting a task keeps the links acyclic |
| `Repository.Store.SubTasksRecursively` | services/repositories/taskRepository.js:3-21 | returns the recursive subtask tree of the task |
| `Repository.Store.GetTaskById` | services/repositories/taskRepository.js:87-116 | null exactly for an unknown id, otherwise the task with its whole subtask tree |
| `Repository.Store.GetAllOwnedTasks` | services/repositories/taskRepository.js:23-43 | lists every task the user created, only those, each with its subtask tree, in listing order |
| `Repository.Store.TasksOfRows` | services/repositories/taskRepository.js:45-85 | one tree per row, in row order; a type error when a row names a deleted task |
| `Repository.Store.GetAllAssignedTasks` | services/repositories/taskRepository.js:45-64 | the trees of the user's assignment rows, in order; a type error on a dangling row |
| `Repository.Store.GetAllSubscribedTasks` | services/repositories/taskRepository.js:66-85 | the trees of the user's subscription rows, in order; a type error on a dangling row |
| `Repository.Store.CreateTask` | services/repositories/taskRepository.js:118-153 | fails, changing nothing, exactly when the parent id names no task; otherwise stores an open, private, uncompleted task with a fresh id and the given fields |
| `Repository.Store.UpdateTask` | services/repositories/taskRepository.js:155-166 | fails exactly for an unknown id; otherwise rewrites only that row with the update |
| `Repository.Store.DeleteTask` | services/repositories/taskRepository.js:168-174 | fails exactly for an unknown id; otherwise removes only that row and returns it, leaving its children and rows in place |
| `Repository.Store.MarkTaskAsCompleted` | services/repositories/taskRepository.js:176-185 | records who completed the task and when, and touches nothing else |
| `Repository.Store.UnmarkTaskAsCompleted` | services/repositories/taskRepository.js:187-196 | clears both completion fields, and touches nothing else |
| `Repository.Store.HasAccessToEdit` | services/repositories/accessRepository.js:165-198 | the loop computes the edit walk |
| `Repository.Store.HasAccessToView` | services/repositories/accessRepository.js:200-247 | the loop computes the view walk |
| `Repository.Store.GetUserInvites` | services/repositories/accessRepository.js:5-20 | the rows are exactly the invitations addressed to the user |
| `Repository.Store.HasAppliedToTask` | services/repositories/accessRepository.js:24-32 | finds a row exactly when the user applied to the task |
| `Repository.Store.HasBeenInvitedToTask` | services/repositories/accessRepository.js:34-42 | true exactly when some invitation addresses the user for the task |
| `Repository.Store.CreateInvitation` | services/repositories/accessRepository.js:44-53 | appends the invitation to its table and keeps every other table |
| `Repository.Store.DeleteInvitation` | services/repositories/accessRepository.js:55-60 | removes the matching invitations and returns how many |
| `Repository.Store.CreateApplication` | services/repositories/accessRepository.js:62-70 | appends the application and keeps every other table |
| `Repository.Store.DeleteApplication` | services/repositories/accessRepository.js:72-80 | removes the (task, user) application rows and returns how many |
| `Repository.Store.GetTaskApplications` | services/repositories/accessRepository.js:81-93 | exactly the task's applications |
| `Repository.Store.CreateSubscription` | services/repositories/accessRepository.js:96-105 | appends the subscription and keeps every other table |
| `Repository.Store.GetTaskSubscriptions` | services/repositories/accessRepository.js:108-122 | exactly the task's subscriptions |
| `Repository.Store.CreateAssignment` | services/repositories/accessRepository.js:124-132 | appends the assignment and keeps every other table |
| `Repository.Store.GetTaskAssignments` | services/repositories/accessRepository.js:134-146 | exactly the task's assignments |
| `Repository.Store.UnlinkUserFromTask` | services/repositories/accessRepository.js:148-161 | removes the user's subscription and assignment rows for the task, and nothing else |
| `Repository.Store.GetUserById` | services/repositories/userRepository.js:8-11 | finds the user exactly when the id is known |
| `Repository.Store.GetUserByEmail` | services/repositories/userRepository.js:13-19 | finds the user exactly when the e-mail is known |
| `Repository.Store.IncrementTasksCompleted` | services/handlers/taskHandler.js:151 | adds one to the user's completion count, an absent count being 0 |
| `TaskCopies.SuccessorRow` | services/handlers/taskHandler.js:407-438 | the next occurrence keeps creator, title and description, hangs under the parent's occurrence, and takes its deadline and options from its own schedule (its parent's for PARENT); it is open, private and uncompleted |
| `TaskCopies.Recur` | services/handlers/taskHandler.js:387-465 | a task with no recurrence type, or whose occurrence would have no stored parent, leaves the store as it is; only tasks and the assignment and subscription tables grow |
| `TaskCopies.RecurKeepsRows` | services/handlers/taskHandler.js:429-460 | recurrence keeps every existing task, takes one fresh id per recurring task of the subtree (stopping below a task with no type), and the store holds exactly that many more tasks |
| `TaskCopies.OutcomeRecurs` | services/handlers/taskHandler.js:405-462 | node by node, a task is skipped exactly when it has no recurrence type, and otherwise its occurrence is its successor row below the occurrence of its parent task |
| `TaskCopies.OutcomeKidsRecur` | services/handlers/taskHandler.js:458-460 | the outcome of each subtask, in order, is its promised one below the parent's occurrence |
| `TaskCopies.RecurStores` | services/handlers/taskHandler.js:428-460 | every occurrence of the subtree is stored under a fresh id, and each assignment and subscription row its task had is copied onto it |
| `TaskCopies.RecurKidsStore` | services/handlers/taskHandler.js:458-460 | after the loop over the subtasks, the occurrences of all of them are stored, with their rows copied |
| `TaskCopies.ProcessRecurrenceOutcome` | services/handlers/taskHandler.js:387-465 | a recurrence that goes through stores exactly one occurrence per recurring task of the subtree, each placed and relinked as promised |
| `TaskCopies.RecurSuccessor` | services/handlers/taskHandler.js:429-456 | the occurrence is stored under a fresh id, and the task's assignment and subscription rows are copied onto it |
| `TaskCopies.ProcessRecurrenceKeepsRows` | services/handlers/taskHandler.js:387-465 | processing a task keeps all rows; a PARENT-typed task at the top adds nothing |
| `TaskCopies.Clone` | services/handlers/taskHandler.js:175-208 | cloning only adds tasks, and changes nothing when the target parent is not stored |
| `TaskCopies.CloneKeepsRows` | services/handlers/taskHandler.js:175-208 | the clone keeps every existing task and adds one fresh task per node of the tree |
| `TaskCopies.CloneMirrors` | services/handlers/taskHandler.js:195-207 | the copy has the tree's shape, with title, description and deadline of each node, owned by the cloning user, the root under the requested parent |
| `TaskCopies.CopyKidsMirror` | services/handlers/taskHandler.js:205-207 | each copied child hangs under its parent's copy and mirrors its original |
| `TaskCopies.CloneStores` | services/handlers/taskHandler.js:175-208 | every node of the copy is stored after the clone |
| `TaskCopies.CloneKidsStore` | services/handlers/taskHandler.js:205-207 | the copies of all children are stored after the loop |
| `AccessHandlers.EditOrViewAccess` | services/handlers/accessHandler.js:39-41 | computes edit-or-view (the edit walk, then the view walk when it denies) |
| `AccessHandlers.ApplyToTask` | services/handlers/accessHandler.js:29-53 | 400, 404, a type error, 409 when the user already has access or has applied; otherwise one application is added and no access comes with it |
| `AccessHandlers.AcceptUserApplication` | services/handlers/accessHandler.js:55-90 | 400, 404, 403 without edit access, 400 without an application, 409 when the applicant already has access; otherwise the application becomes a subscription, granting view but not edit |
| `AccessHandlers.RejectUserApplication` | services/handlers/accessHandler.js:92-117 | 400, 404, 403 unless the actor created the task; otherwise the application rows are gone and their count returned |
| `AccessHandlers.GetTaskApplications` | services/handlers/accessHandler.js:119-135 | 400, 404, 403 unless the creator asks; otherwise exactly the task's applications |
| `AccessHandlers.InviteUserToTask` | services/handlers/accessHandler.js:139-175 | 400 for an empty id or e-mail, 404, 403 unless the creator invites, 404 for an unknown e-mail, 409 when already invited, then 409 when already an editor, or the type error when the edit walk breaks; otherwise one invitation is added |
| `AccessHandlers.RejectTaskInvitation` | services/handlers/accessHandler.js:177-195 | 400, 404, 403 without an invitation; otherwise all invitations of the user for the task are gone |
| `AccessHandlers.AcceptTaskInvitation` | services/handlers/accessHandler.js:197-216 | 400, 404, 403 without an invitation; otherwise the invitations become one assignment and the user can edit |
| `AccessHandlers.UnlinkUserFromTask` | services/handlers/accessHandler.js:219-254 | 400, 404, 403 for the creator or a user without access; otherwise the rows are removed and the task itself grants the user nothing beyond public visibility |
| `AccessHandlers.GetTaskAssignments` | services/handlers/accessHandler.js:257-273 | 400, 404, 403 or a type error without view access; otherwise exactly the task's assignments |
| `AccessHandlers.GetTaskSubscriptions` | services/handlers/accessHandler.js:275-297 | 400, 404, 403 or a type error without view access; otherwise exactly the task's subscriptions |
| `TaskHandlers.Verdict` | services/handlers/taskHandler.js:101-104 | a walk is accepted exactly when granted; a denial is 403, a broken walk a type error |
| `TaskHandlers.GetTaskById` | services/handlers/taskHandler.js:59-79 | 400, 404, the full tree with view access, only id and title without it |
| `TaskHandlers.CreateTask` | services/handlers/taskHandler.js:83-115 | 400 for a blank title, 404 for an unknown parent, 403 without edit access to it; otherwise a new task owned by the parent's creator (or the actor), which the actor can edit |
| `TaskHandlers.BuildUpdateData` | services/handlers/taskHandler.js:129-138 | an empty title and a zero count are dropped, every other field is passed through |
| `TaskHandlers.UpdateTask` | services/handlers/taskHandler.js:117-159 | 404, 403 or a type error without edit access, changing nothing; otherwise the outcome of the update |
| `TaskHandlers.ApplyTaskUpdate` | services/handlers/taskHandler.js:149-157 | status DONE completes the task with the actor as completer; leaving DONE clears the completion |
| `TaskHandlers.UpdatePlain` | services/handlers/taskHandler.js:154-157 | an update without DONE clears a previous completion and writes the data |
| `TaskHandlers.UpdateDone` | services/handlers/taskHandler.js:149-157 | completion, counting and recurrence run first; the data is written only when they succeed |
| `TaskHandlers.RecordCompletion` | services/handlers/taskHandler.js:150-151 | marks the task completed by the actor now and counts the completion |
| `TaskHandlers.CompleteTask` | services/handlers/taskHandler.js:149-152 | completion is kept even when recurrence fails, and the failure is passed on |
| `TaskHandlers.DeleteTask` | services/handlers/taskHandler.js:161-173 | 404, 403 or a type error without edit access; otherwise only that task row is removed |
| `TaskHandlers.OrphanWalkBreaks` | services/repositories/accessRepository.js:183-191 | after a parent is deleted, a child that does not grant by itself breaks the walk |
| `TaskHandlers.CloneTask` | services/handlers/taskHandler.js:175-208 | 400, 404, 403 or a type error without view access, a type error for an unknown target parent; otherwise the stored copy mirrors the task's tree |
| `TaskHandlers.CloneSubtree` | services/handlers/taskHandler.js:195-207 | the recursion computes `TaskCopies.Clone` |
| `TaskHandlers.CloneChildren` | services/handlers/taskHandler.js:205-207 | the loop clones and awaits the children in order; a failing copy ends it with its error, which happens only when the parent is not stored, and then nothing is stored |
| `TaskHandlers.MarkTaskCompleted` | services/handlers/taskHandler.js:210-231 | 400, 404, 403 or a type error without edit access, 400 when already DONE; otherwise only the completion fields change and the status is kept |
| `TaskHandlers.ProcessTaskRecurrence` | services/handlers/taskHandler.js:387-465 | computes `TaskCopies.ProcessRecurrence`; a returned occurrence is the task's successor |
| `TaskHandlers.RecurSubtree` | services/handlers/taskHandler.js:401-460 | fails exactly when a recurring task's occurrence has no stored parent; returns null exactly for a task with no recurrence type |
| `TaskHandlers.CreateOccurrence` | services/handlers/taskHandler.js:407-438 | stores the successor row, or fails, changing nothing, when its parent is not stored |
| `TaskHandlers.RecurChildren` | services/handlers/taskHandler.js:458-460 | the loop processes the children in order below the new occurrence |
| `TaskHandlers.CopyAssignments` | services/handlers/taskHandler.js:440-447 | appends a copy of each given assignment row for the new occurrence |
| `TaskHandlers.CopySubscriptions` | services/handlers/taskHandler.js:449-456 | appends a copy of each given subscription row for the new occurrence |
| `TaskHandlers.AnnexGuard` | services/handlers/taskHandler.js:233-385 | the notes and objectives handlers: 400 for a blank id or argument, 404, then view access, edit access or being the creator, as each handler requires |
| `LegacyAuth.LegacyTest` | services/handlers/authHandler.js:11-21 | the edit test never crashes; a grant comes from the creator, the assigned list, or (for view) a public task; view crashes exactly when a non-creator's task has no list |
| `LegacyAuth.HasAccessToEdit` | services/handlers/authHandler.js:9-26 | the loop computes the legacy edit walk |
| `LegacyAuth.HasAccessToView` | services/handlers/authHandler.js:35-53 | the loop computes the legacy view walk |
| `LegacyAuth.LegacyGrantedChain` | services/handlers/authHandler.js:9-53 | the legacy walk grants exactly when some object on the chain grants and every object before it denies |
| `LegacyAuth.LegacyDeniedChain` | services/handlers/authHandler.js:22-25 | the legacy walk denies exactly when every object denies and the chain ends at a root |
| `LegacyAuth.LegacyEditImpliesView` | services/handlers/authHandler.js:9-53 | when every object on the chain has its list, legacy edit access implies legacy view access |
| `LegacyAuth.LegacyViewBreaksWithoutList` | services/handlers/authHandler.js:40 | an owner's edit check grants while the view check crashes on the same object |
| `LegacyAuth.IsAdmin` | services/handlers/authHandler.js:59-61 | as written it never holds |
| `LegacyAuth.IsAdminRole` | services/handlers/authHandler.js:59-61 | holds exactly for the ADMIN role |
| `LegacyAuth.OwnerHasLegacyAccess` | services/handlers/authHandler.js:66-68 | a task's owner is its creator, and the owner always passes both legacy checks |
| `Users.Trim` | services/handlers/userHandler.js:31 | the result has no whitespace at either end and is no longer than the input |
| `Users.TrimEmptyIffBlank` | services/handlers/userHandler.js:27-31 | trimming gives the empty string exactly for a blank string |
| `Users.GetAllUsers` | services/handlers/userHandler.js:14-21 | a type error without a caller, 403 for a non-admin, otherwise every user |
| `Users.GetUserById` | services/handlers/userHandler.js:23-45 | 401, 400 for an absent or blank id, 404; the full record exactly for an admin or the user themself, the public fields otherwise |
| `Users.DeletesSessions` | services/handlers/userHandler.js:69-70 | true exactly when the body changes password, e-mail, role or name |
| `Users.DefaultId` | services/handlers/userHandler.js:60-62 | the body's id is kept when truthy, otherwise set to the target |
| `Users.UpdateUserCall` | services/handlers/userHandler.js:47-74 | 401, 403 unless admin or self, 400, 404; otherwise the write of the body with its id defaulted and the session flag |
| `Users.UpdateUser` | services/handlers/userHandler.js:47-74 | the call's outcome; the caller's body object gets the id default when the call succeeds or fails with 404, and is unchanged on any other error |
| `Users.UpdateUserWritesUnchecked` | services/handlers/userHandler.js:52-72 | a non-admin who targets themself can have another user's record written |
| `Users.UpdateUserCallChecked` | services/handlers/userHandler.js:52-72 | the corrected call writes only the authorised target |
| `Users.DeleteUser` | services/handlers/userHandler.js:76-96 | 401, 403 for a non-admin, 400, 404; otherwise the deleted record and the directory without it |
| `Users.AdminOnly` | services/handlers/userHandler.js:14-96 | listing and deleting users succeed only for an admin; a non-admin's corrected update writes only their own record |
| `Users.Matching` | services/handlers/userHandler.js:107-125 | the filter keeps exactly the eligible definitions |
| `Users.MatchingAppend` | services/handlers/userHandler.js:107-125 | filtering preserves order and distributes over concatenation |
| `Users.UnlockChoice` | services/handlers/userHandler.js:103-135 | a definition is unlocked exactly when it is present and earned by the user's statistic for its type |
| `Users.UnlockOrder` | services/handlers/userHandler.js:131-135 | completion achievements come first, then review, then accept |
| `Users.AchievementLedger.CheckAndUnlockAchievements` | services/handlers/userHandler.js:137-139 | the loop records one unlock per earned definition, in order |
| `Users.UntypedUnlockNothing` | services/handlers/userHandler.js:107-125 | definitions without a type unlock nothing |
| `Users.ShippedUnlockNothing` | utils/achievements.js:18-55 | the shipped definitions never unlock anything, whatever the statistics |
| `Users.TypedDefinitions` | utils/achievements.js:18-55 | the intended definitions: task-completion type, `requiredTasks` as the threshold |
| `Users.TypedUnlock` | utils/achievements.js:18-55 | with the intended definitions, an achievement is unlocked exactly when its required task count is reached |

## Left out

- HTTP routing, the authentication middleware, e-mail and the database connection are
  not modelled. A handler's caller is a parameter.
- The wall clock. `new Date()` is the `now` parameter of `MarkTaskAsCompleted`,
  `UpdateTask` and `RecordCompletion`.
- Deadlines are calendar days. Time of day and time zones are not modelled.
- Prisma `include`/`select` projections are not modelled. A fetched task is the row with
  its subtask tree.
- Statistics and unlocks as separate storage are not modelled:
  - `getUserStats` is a parameter;
  - `incrementUserStat` is the per-user completion counter;
  - `unlockAchievement` is an append to `Users.AchievementLedger.unlocked`.
- The notes and objectives tables are not modelled. `TaskHandlers.AnnexGuard` models
  the guards of those six handlers, but not the rows they read or write, nor the review
  counter some of them increase.
- `processTaskRecurrence` starts its recursive calls on the subtasks without awaiting
  them. The model runs them one after another, and a child's failure is not reported to
  the caller. `cloneTask` awaits each child's copy, and the model passes a failing copy
  on (`TaskHandlers.CloneChildren`). Those copies cannot fail, because their parent is
  the copy just stored.
- `TaskHandlers.BuildUpdateData`: request values are assumed well typed. A `null`
  `isPublic`, which `updateTask` would pass on to the database, is not modelled;
  `UpdateRequest.isPublic` is an `Option<bool>`, absent when undefined.
- The recursive clone and recurrence work from the subtree fetched at the start. This
  equals the source except when a task is cloned under its own descendant, where the
  source keeps copying newly stored rows and does not terminate.
- The database schema is not part of this model, so its constraints and referential
  actions are not modelled. The model assumes these database behaviours:
  - a new task gets a fresh id, status OPEN and `isPublic` false;
  - inserting a task whose parent id names no task fails, with an error that is not a
    thrown code;
  - an update, mark, unmark or delete of an unknown task id fails in the same way.
- `Repository.Store.DeleteTask`: removes only the task row, with no referential action.
  Its children keep the deleted id as their parent, and its relationship rows stay. A
  foreign key would refuse, cascade or null such a delete instead; which one depends on
  the schema. So the model keeps the dangling parents that the `Broken` walk and
  `TaskHandlers.OrphanWalkBreaks` describe, and it does not promise that a delete
  removes a subtree.
- The handler passes a third argument to `calculateNextDeadline`, which ignores it. The
  model has the function's two parameters.
- `authHandler.js` imports `getTaskById` from `databaseService.js`, which does not
  export one. The lookup is a parameter: a map of tasks plus, per task, its assigned
  list when the fetch includes one.
- `taskHandler.js` imports `incrementUserStat`, and `userHandler.js` imports
  `getUserStats` and `unlockAchievement`, from `userRepository.js`, which exports none of
  them. The model stands them in as the line on statistics above describes.
- `userRepository.updateUser` is modelled only as the write it is called for. It takes
  one parameter and deletes sessions whatever the flag says.
- `userRepository.isAdmin` is not modelled.
- The handlers that only pass a fetch through are modelled by the repository methods
  they call: `getUserTasks`, `getAssignedTasks`, `getTrackedTasks` and `getUserInvites`.
- `LegacyAuth.IsOwner` has no contract of its own. `LegacyAuth.OwnerHasLegacyAccess`
  states what it means for a task.
- `LegacyAuth.LegacyEditImpliesView`: requires that every object on the chain carries its
  assigned list. The view check dereferences the list without `?.` and crashes where the
  edit check does not (`LegacyAuth.LegacyViewBreaksWithoutList`).
- `Access.EditImpliesView` covers the repository resolver. There, a dangling parent
  breaks both walks alike (`TaskHandlers.OrphanWalkBreaks`).

## Findings

| source | as written | input that shows it | evidently intended | confidence | as-written member | corrected member |
|---|---|---|---|---|---|---|
| services/handlers/authHandler.js:59-61 | `isAdmin` compares the role with lower-case "admin" | any user, including one whose stored role is ADMIN | true for the ADMIN role | high; not executed | `LegacyAuth.IsAdmin` | `LegacyAuth.IsAdminRole` |
| services/handlers/userHandler.js:52-72 | the 403 guard checks `userToUpdateId`, but the write goes to the row named by the body's `id` | a non-admin u updates target u with body `{id: v, role: "ADMIN"}` | only the authorised target is written | high; not executed | `Users.UpdateUserWritesUnchecked` (on `Users.UpdateUserCall`) | `Users.UpdateUserCallChecked` |
| utils/achievements.js:18-55 | the definitions carry only `requiredTasks`, while the unlock filter reads `type` and `required` | any statistics, e.g. 100 completed tasks | task-count achievements unlock at their `requiredTasks` | medium; not executed | `Users.ShippedUnlockNothing` | `Users.TypedUnlock` (with `Users.TypedDefinitions`) |
