# Task manager backend: a Dafny model of its three controllers

This project models the request handlers of a task-manager REST backend (Express and Mongoose)
that admins and members of one organization share.

- **Task handlers.** These list tasks, scoped by role and optionally filtered by status, with a
  status summary. They fetch, create, update and delete tasks. They change a task's status. They
  merge a submitted to-do checklist, applying the per-item ownership rules and recomputing
  progress and status. They build the admin and member dashboards and the per-user checkpoint
  statistics of one task.
- **Account handlers.** These cover registration through a pending record, its one-time password
  (OTP) and the organization code. They cover the password reset through an OTP and a short-lived
  token, the profile update, and the role and organization update.
- **User handlers.** These list members with their task counts, look up a user by id, and delete
  a user, which also pulls the user's id out of every task's assignees. The answered user records
  drop only the password hash, so they carry the password-reset OTP and token and their expiries;
  the lookup by id is open to any signed-in caller.

Modules follow the controllers:

- `Common`: ids, roles, the caller, HTTP errors, and the `||` fallback and `$pull` helpers.
- `Checklist`: to-do items, the merge rule, progress and status.
- `Tasks`: the `Task` class and its handlers.
- `Reports`: listings, counts, charts, dashboards and checkpoint statistics.
- `Auth`: the `User` class, pending registrations, and the `Accounts` store with its handlers.
- `Users`: the user-management handlers.

A task or a user that the source saves in place is a class whose methods update its fields.
Read-only handlers are functions over sequences of those objects. The store of users and pending
registrations is the class `Accounts`. The clock (`now`), generated OTPs, reset tokens, password
hashes, new ids and the server configuration (organization code, admin invite token) are
parameters. A JavaScript value that is missing or falsy is modelled as the empty string or
`None`.

## Model

| member | source | states |
|---|---|---|
| Common.Pull | controllers/userController.js:63-67 | `$pull` removes every occurrence of the id, keeps every other id, never lengthens the list, and leaves a list without the id unchanged |
| Common.PullMultiset | controllers/userController.js:63-67 | after `$pull` every other id keeps its multiplicity and the pulled id occurs zero times |
| Common.OrElse | controllers/taskController.js:171-172 | the `given \|\| current` fallback: a non-empty given value wins, otherwise the current value is kept; the result is empty only when both are |
| Checklist.ItemStep | controllers/taskController.js:301-323 | one submitted flag against one stored item: a non-admin may not complete an item completed by someone else, nor uncheck one they did not complete (403 with the source's messages); otherwise the text is kept, completing records the caller, unchecking clears the completer, and an unchanged flag leaves the item as it was |
| Checklist.Merge | controllers/taskController.js:299-324 | merging the submitted flags keeps the length and every item's text, leaves items beyond the submitted list untouched, and can only fail with 403 for a non-admin |
| Checklist.MergePointwise | controllers/taskController.js:299-324 | the merge succeeds iff every paired item's step succeeds, and then each paired item is exactly its step's result |
| Checklist.MergeFirstRefusal | controllers/taskController.js:299-324 | when the first refused item is at index i, the whole request fails with that item's error (the loop returns at the first refusal) |
| Checklist.ResubmitIsNoOp | controllers/taskController.js:299-324 | submitting the checklist's own flags succeeds for every caller and changes nothing |
| Checklist.MergeIdempotent | controllers/taskController.js:299-324 | applying an accepted submission a second time accepts it again with the same result |
| Checklist.StaleOwnerCannotComplete | controllers/taskController.js:304-311 | an open item that still names the caller as its completer stays open when that caller, admin or not, asks to complete it: the request succeeds with no change and no error |
| Checklist.RoundPercent | controllers/taskController.js:332 | the rounded percentage of c of n items lies in 0..100 and is within half a unit of 100·c/n |
| Checklist.Progress | controllers/taskController.js:326-332 | the progress of a checklist is at most 100 |
| Checklist.ProgressBounds | controllers/taskController.js:326-332 | progress is 100 iff at least 99.5% of the items are completed, and 0 iff fewer than 0.5% are |
| Checklist.OpenItemCanReadCompleted | controllers/taskController.js:332-336 | with 200 or more items and one left open, the task is still marked Completed |
| Checklist.CheckedItemCanReadPending | controllers/taskController.js:332-341 | with more than 200 items and one completed, the task is still marked Pending |
| Checklist.ProgressExtremes | controllers/taskController.js:326-332 | a fully completed non-empty checklist gives 100 and one with nothing completed gives 0 |
| Checklist.StatusFromItems | controllers/taskController.js:334-341 | the status derived from the checklist is Completed iff progress is 100, Pending iff it is 0, and In-Progress otherwise |
| Checklist.CompleteAll | controllers/taskController.js:272-275 | marking a task Completed sets every item completed and changes nothing else about the items |
| Checklist.ResetAll | controllers/taskController.js:183-188 | resetting the checklist on reassignment unchecks every item and clears its completer, keeping the texts |
| Checklist.CompleteAllProgress | controllers/taskController.js:272-275 | after completing all items the progress is 100, or 0 for an empty checklist |
| Checklist.ResetAllProgress | controllers/taskController.js:183-188 | after the reset no item is completed and the progress is 0 |
| Tasks.NewlyAssigned | controllers/taskController.js:192-194 | the users to notify are exactly the new assignees not assigned before; none exist iff every new assignee was already assigned |
| Tasks.SwapOneAssignee | controllers/taskController.js:181-194 | replacing one assignee counts as a change and notifies only the newcomer |
| Tasks.ReorderedAssignees | controllers/taskController.js:181-188 | the same assignees in another order count as no change and notify nobody |
| Tasks.Task.UpdateChecklist | controllers/taskController.js:284-353 | a caller who is neither admin nor assignee gets 403; a missing checklist is a server error; a refused merge changes nothing; an accepted one stores the merged checklist and sets progress to its percentage and the status to Completed, In-Progress or Pending accordingly |
| Tasks.Task.UpdateStatus | controllers/taskController.js:257-282 | only an admin or an assignee may change the status (403 otherwise, with nothing changed); the status takes the requested value or keeps the old one; Completed completes every item and sets progress to 100, and any other status keeps checklist and progress |
| Tasks.Task.Update | controllers/taskController.js:159-241 | a caller who is neither admin nor assignee gets 403; an assignee field that is not an array gives 400; otherwise each given field replaces the stored one, a given id list replaces the assignees and, when it is a different multiset of ids, unchecks every checklist item and clears its completer (progress is kept), and exactly the newly assigned users are notified |
| Tasks.CreateTask | controllers/taskController.js:89-114 | an admin's request with a non-array assignee field gives 400; otherwise a fresh Pending task at progress 0 with the given fields, the caller as creator and the given checklist, and every assignee is notified |
| Tasks.GetTaskById | controllers/taskController.js:68-87 | 404 iff no task has the id; the task found is returned exactly when the caller is an admin or one of its assignees, and every other caller gets 403 |
| Tasks.DeleteTask | controllers/taskController.js:243-255 | 404 iff no task has the id; otherwise exactly that task leaves the collection (one fewer, same multiset otherwise) |
| Reports.AssignedTo | controllers/taskController.js:21-22 | the tasks assigned to a user are exactly those whose assignees include the user |
| Reports.Scope | controllers/taskController.js:15-25 | an admin sees every task and a member exactly the tasks assigned to them |
| Reports.StatusPartition | controllers/taskController.js:38-58 | the Pending, In-Progress and Completed counts sum to the number of tasks |
| Reports.PriorityPartition | controllers/taskController.js:387-401 | the Low, Medium and High counts sum to the number of tasks |
| Reports.CountOverdue | controllers/taskController.js:362-365 | the overdue count (tasks not Completed whose due date is set and earlier than now) is at most the number of tasks, and is 0 iff no task is overdue |
| Reports.OverdueNotCompleted | controllers/taskController.js:362-365 | overdue tasks and completed tasks never overlap, so together they never exceed the total |
| Reports.CountOverdueSplit | controllers/taskController.js:362-365 | the overdue count is additive over concatenated runs of tasks |
| Reports.StatusCountIsListing | controllers/taskController.js:359-361 | a dashboard status counter equals the number of tasks the listing returns with that status as its query |
| Reports.Filtered | controllers/taskController.js:7-12 | the status filter keeps exactly the tasks whose status equals the query, or every task when there is no query |
| Reports.WithCounts | controllers/taskController.js:27-35 | each listed task carries the number of its completed checklist items |
| Reports.GetTasks | controllers/taskController.js:5-66 | the listing holds exactly the caller's visible tasks that match the status query, each with its completed count; the summary counts all visible tasks and splits them by status, ignoring the query |
| Reports.Insert | controllers/taskController.js:404-407 | insertion into the recent list adds exactly one element and keeps the others |
| Reports.InsertNewestFirst | controllers/taskController.js:404-407 | inserting into a list ordered by creation time, newest first, keeps it ordered |
| Reports.SortNewestFirst | controllers/taskController.js:404-407 | the sort by creation time descending is ordered and a permutation of its input |
| Reports.TakeNewest | controllers/taskController.js:404-407 | a prefix of the sorted list stays sorted, and no element left out is newer than an element kept |
| Reports.Recent | controllers/taskController.js:404-407 | the recent list has min(total, 10) entries, is ordered newest first, and is drawn from the tasks' summaries |
| Reports.RecentIsNewest | controllers/taskController.js:404-407 | the recent tasks are min(total, 10) of the tasks, newest first, and no task left out is newer than one shown |
| Reports.ResponseKey | controllers/taskController.js:380 | the response key drops every space and hyphen of the status name and keeps every other character |
| Reports.ResponseKeyPlain | controllers/taskController.js:380 | a name without spaces or hyphens is its own key |
| Reports.ResponseKeyDropsSeparator | controllers/taskController.js:380 | one separator between two plain words is removed and the words are joined |
| Reports.StatusKeyIsResponseKey | controllers/taskController.js:379-384 | the chart keys are Pending, InProgress and Completed, the formatted forms of the three status names |
| Reports.StatusGroups | controllers/taskController.js:370-377 | grouping by status yields a key exactly for each status present, with its count |
| Reports.PriorityGroups | controllers/taskController.js:389-396 | grouping by priority yields a key exactly for each priority present, with its count |
| Reports.Distribution | controllers/taskController.js:367-385 | the status chart has exactly the keys Pending, InProgress, Completed and All; each status key holds the number of tasks with that status (0 when `$group` has no entry for it) and All holds the total |
| Reports.StatusChartAddsUp | controllers/taskController.js:367-385 | the three status entries of the chart add up to its All entry |
| Reports.PriorityLevels | controllers/taskController.js:387-401 | the priority chart has exactly the keys Low, Medium and High, each holding the number of tasks with that priority (0 when absent) |
| Reports.PriorityChartAddsUp | controllers/taskController.js:387-401 | the three priority entries add up to the number of tasks |
| Reports.AdminStatistics | controllers/taskController.js:358-366 | the admin statistics have exactly the five counters; totalTasks is the number of tasks, each status counter is the number of tasks in that status, overdueTasks is the number of overdue tasks, the status counters add up to the total, and overdue tasks are among the unfinished ones |
| Reports.MemberStatistics | controllers/taskController.js:432-447 | the member statistics have exactly the four counters (no in-progress count); pending and completed are the numbers of tasks in those statuses, overdueTasks is the number of overdue tasks, pending and completed never exceed the total, and overdue tasks are among the unfinished ones |
| Reports.DashboardData | controllers/taskController.js:355-428 | the admin dashboard's statistics are the admin statistics block and its status chart is the distribution: each status counter and each status chart entry is the number of tasks in that status, total = All = the number of tasks, overdueTasks is the number of overdue tasks; the priority chart has exactly the three priorities, each with its number of tasks; the recent list is `Recent` of all tasks, at most 10 newest first |
| Reports.UserDashboardData | controllers/taskController.js:430-499 | the member dashboard counts exactly the tasks assigned to the member: its statistics are the member statistics block over them, each status chart entry and status counter is the number of the member's tasks in that status, total = All, overdueTasks is the number of the member's overdue tasks, the priority chart holds the member's count per priority, and the recent list is `Recent` of the member's tasks, at most 10 newest first |
| Reports.UserRecentAreAssigned | controllers/taskController.js:476-479 | every recent task on a member dashboard is one assigned to that member |
| Reports.EmptyDashboard | controllers/taskController.js:355-421 | with no tasks, every statistic and chart value is 0 and there are no recent tasks |
| Reports.TextsByLength | controllers/taskController.js:518-519 | a user has one checkpoint text per item they completed |
| Reports.StatsOfTexts | controllers/taskController.js:509-524 | each entry of the statistics lists exactly the texts of the items its user completed, in checklist order |
| Reports.FirstCompletedExists | controllers/taskController.js:510-514 | a user has a first completed item in the checklist exactly when they completed at least one item |
| Reports.StatsOfOrder | controllers/taskController.js:509-524 | the entries come in the order in which their users first completed an item, as the object's insertion order gives |
| Reports.StatsOfCounts | controllers/taskController.js:509-524 | the statistics `StatsOf` folds from the checklist hold one entry per distinct completer, exactly for users who completed an item, whose count is the number of items they completed and equals the number of listed checkpoints |
| Reports.Tally | controllers/taskController.js:510-522 | one loop iteration adds exactly one item's contribution to the statistics (a new entry on a completer's first item, otherwise their entry grows by one text) and keeps the completer-to-position index exact |
| Reports.CheckpointStats | controllers/taskController.js:502-528 | an unknown task id gives 404; otherwise the loop over the checklist yields exactly the per-user statistics in order of first appearance |
| Auth.CheckOrgCode | controllers/authController.js:26-35 | the organization code is accepted iff it is exactly 14 digits and equals the configured code; a missing code, a malformed one and a wrong one get their own 400 messages, checked in that order |
| Auth.MisconfiguredCodeRejectsAll | controllers/authController.js:30-35 | when the configured code is unset or not 14 digits, every submitted code is refused |
| Auth.RoleFor | controllers/authController.js:48-51 | a registrant is admin only with a non-empty invite token equal to the configured one |
| Auth.RoleForAdmin | controllers/authController.js:48-51 | the registration role is admin iff the token is non-empty and matches the configuration |
| Auth.RoleAndOrg | controllers/authController.js:362-381 | the update succeeds iff the code passes and the token is absent or correct; a wrong token is a 400; success keeps the role without a token and makes the user admin with one |
| Auth.RoleAndOrgNeverDemotes | controllers/authController.js:372-381 | an accepted role update never turns an admin into a member, and with a token it gives the role registration would give |
| Auth.Admit | controllers/authController.js:21-51 | registration passes iff the image is given, the organization code passes, and the email is neither registered nor pending; each failure is its own 400 in the source's order; the role is the invite-token role |
| Auth.Forgot | controllers/authController.js:255-257 | requesting a reset stores the OTP with a 10-minute expiry and keeps the token fields |
| Auth.ConfirmOtp | controllers/authController.js:308-320 | OTP verification succeeds iff an OTP was requested, matches, and has not expired (expiry equal to now still accepts); success clears the OTP and issues the token with a 15-minute expiry |
| Auth.ClearToken | controllers/authController.js:343-344 | after a reset the token accepts nothing |
| Auth.OtpSingleUse | controllers/authController.js:315-320 | a verified OTP cannot be verified again: a second attempt answers that no OTP was requested |
| Auth.ForgotThenConfirm | controllers/authController.js:255-313 | right after a reset request, verification succeeds iff the same OTP is given within 10 minutes |
| Auth.ConfirmedTokenWindow | controllers/authController.js:316-337 | the issued token is accepted iff it is presented strictly within 15 minutes of the verification |
| Auth.ExpiryBoundaries | controllers/authController.js:311-336 | at the very expiry instant the OTP is still accepted but the reset token is not |
| Auth.FindByToken | controllers/authController.js:334-337 | the reset lookup finds the first user whose token equals the given one and has not expired, and finds none iff no such user exists |
| Auth.ApplyDetails | controllers/authController.js:215-227 | a profile update fails with 400 iff neither the body nor the profile has an image; otherwise each given field replaces the stored one and a given password is replaced by its hash |
| Auth.ApplyDetailsIdempotent | controllers/authController.js:220-227 | repeating an accepted update is accepted again and keeps the same name, email and image; a repeated password is stored under its fresh hash, so only a repeat without a password leaves the profile as it was; an empty body changes nothing |
| Auth.User.FromPending | controllers/authController.js:130-138 | a verified registration creates a user with the pending record's details, role and organization code and no reset state |
| Auth.User.RequestOtp | controllers/authController.js:255-258 | the user's reset state becomes the reset-request state |
| Auth.User.CheckOtp | controllers/authController.js:308-321 | a refused OTP changes nothing and answers with the refusal; an accepted one stores the verified state |
| Auth.User.CompleteReset | controllers/authController.js:341-345 | the new hash is stored and the token is cleared |
| Auth.User.UpdateDetails | controllers/authController.js:215-229 | a refused update changes nothing; an accepted one stores the updated profile |
| Auth.User.UpdateRoleAndOrg | controllers/authController.js:362-381 | a refused request leaves role and organization unchanged; an accepted one stores the code and the resulting role |
| Auth.RegistrationRetryIsPending | controllers/authController.js:38-108 | once a registration's pending record is stored (even when its mail failed), another registration with the same email is refused, as already pending when its other checks pass |
| Auth.Accounts.Register | controllers/authController.js:17-108 | a refused registration stores nothing; an accepted one appends a pending record with the hashed password, the invite-token role, the code and an OTP expiring in 10 minutes, and answers 500 when the OTP mail fails, with the record kept; pending emails stay unique |
| Auth.Accounts.VerifyRegistration | controllers/authController.js:119-140 | without a pending record, or with a wrong or expired OTP, nothing changes; otherwise a fresh user with the pending record's details, role and organization code and no reset state joins the store, and the pending record is removed |
| Auth.Accounts.ForgotPassword | controllers/authController.js:247-294 | an unknown email gives 404 and changes nothing; otherwise only that user's reset state changes, to the reset-request state (details, role and organization kept), and a failed OTP mail answers 500 with the OTP kept |
| Auth.Accounts.VerifyOtp | controllers/authController.js:304-321 | an unknown email answers that no OTP was requested; otherwise only that user's reset state changes, as OTP verification prescribes, with details, role and organization kept |
| Auth.Accounts.ResetPassword | controllers/authController.js:331-345 | no user with an unexpired matching token gives 400 and changes nothing; otherwise that user's password hash is replaced and the token can no longer be used, with name, email, image, role and organization kept |
| Auth.Accounts.UpdateUserDetails | controllers/authController.js:207-229 | an unknown caller gives 404; otherwise only the caller's profile changes, as the profile update prescribes, with reset state, role and organization kept |
| Auth.Accounts.UpdateRoleAndOrg | controllers/authController.js:355-381 | an unknown caller gives 404; otherwise only the caller's role and organization change, as the role update prescribes, with profile and reset state kept |
| Users.GetUserById | controllers/userController.js:27-37 | 404 iff no user has the id; otherwise that user's record with every field but the password, including the reset OTP, the reset token and their expiries |
| Users.Row | controllers/userController.js:9-19 | a member's pending, in-progress and completed counts are each the number of tasks assigned to them in that status, and they sum to the number of assigned tasks |
| Users.GetUsers | controllers/userController.js:5-26 | the listing holds only members, every member's row appears, and each row's three counts are the numbers of the member's assigned tasks in each status |
| Users.GetUsersFromStore | controllers/userController.js:7-20 | every row of the listing is the row of a member of the store |
| Users.RowMatchesDashboard | controllers/userController.js:9-11 | a member's row in the listing has the same pending, in-progress and completed counts as that member's own dashboard |
| Users.DeleteCheck | controllers/userController.js:41-61 | deletion may proceed iff the caller is an admin, is not the target, and the target exists and is a member; each refusal has its status and message, checked in the source's order |
| Users.RemoveUserAt | controllers/userController.js:69 | removing the target's record removes exactly the target and keeps user ids unique |
| Users.DeleteUser | controllers/userController.js:38-84 | a refused deletion changes nothing; an accepted one pulls the id from every task's assignees, changes no other task field, and removes exactly the target user |

## Left out

- Rounding: `Math.round(c / n * 100)` is floating point. The model rounds the exact quotient half up, `(200c + n) / (2n)`. For a few ratios, such as 23 of 40 items, floating-point error rounds to the other neighbour: `23 / 40 * 100` falls just below 57.5 in floating point and rounds to 57, where the exact quotient gives 58.
- Email: the mail contents and templates are not modelled. The task notifications are computed (who is notified) and sent without waiting, so their failures are ignored. The registration and reset OTP mails are awaited after the pending record or the OTP is saved; the model takes whether that send succeeded as a parameter and answers 500 when it failed, with the saved state kept.
- Hashing, tokens and randomness: bcrypt hashing, JWT issuing and the random OTP and reset-token generation are parameters of the handlers.
- Persistence: Mongoose persistence, `populate`, schema validation and schema defaults are not modelled; models/Task.js and models/User.js are not part of this model. Tasks and users are objects in sequences, and ids are natural numbers rather than ObjectId strings.
- Deleted completers: a deleted completer whose `completedBy` populates to `null` is skipped by the checkpoint statistics. That case is not modelled, because the model has no populate step.
- Object key order: the checkpoint statistics keep first-appearance order. Object.values of keys that look like ObjectId strings follows insertion order, which this matches.
- Unchecked inputs: a status or priority string outside the three allowed values is rejected by Mongoose validation, and body values that are not strings are coerced by JavaScript; the model accepts only the three values and takes strings.
- Separators in keys: the regex `[\s-]+` also removes other Unicode whitespace. The model treats space, tab, newline, carriage return and hyphen as separators, which covers the three fixed status names.
- Recent tasks with equal times: the order among tasks with equal `createdAt` is whatever MongoDB returns. The model proves only the descending order and which tasks are kept.
- Time: dates are integer milliseconds. Date formatting and `createdAt`/`updatedAt` stamping are left out.
- Concurrency: concurrent requests are not modelled, including the race between the email-uniqueness checks and the insert during registration. Each handler runs atomically.
- Reset without a token: `resetPassword` with no token in the body queries `resetPasswordToken: undefined`. The model takes a token string.
- loginUser and getUserDetails: these account handlers are outside the modelled core.
- Route guards: the route-level `adminOnly` guards on createTask, deleteTask, getTaskCheckpointStats and getUsers (routes/taskRoutes.js:12, 14, 17; routes/userRoutes.js:8) are preconditions `actor.IsAdmin()`. The failing middleware path (403 before the handler) is not modelled.
- Tasks.NewlyAssigned: like the source's filter, it lists a new id once per occurrence in the submitted assignees. The emails go to the users `User.find` with `$in` returns, each user once, so a repeated id in the body does not send a second email; the model does not collapse repeats. Both here and in `Tasks.CreateTask`, `notify` holds every submitted id; the source mails only the users that `populate` or `User.find` returns, so an id with no user gets no email. The model has no user lookup there and does not drop such ids.
- Users.DeleteUser: the source comment says the user is also removed from `createdBy`, but the code pulls only from `assignedTo`. The model follows the code, so `createdBy` is unchanged.
- Task lookup: the 404 of updateTask, updateTaskStatus and updateTaskCheckList comes from the lookup `Tasks.FindTask` models; the three `Task` methods act on the task found.
- Server errors: errors thrown by the database (the 500 path of every handler) are not modelled. The 500 cases the model keeps are a checklist update without a checklist in the body, and a failed OTP mail in registration and in the password-reset request.
