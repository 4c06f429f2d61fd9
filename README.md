# To-do backend: access rules and store effects

This project models the core of a to-do REST backend (an Express and
Mongoose service). The model keeps the access and ownership rules of each
operation and what it does to the database. It leaves out the Mongoose
calls, HTTP, tokens and hashing.

The database is one object, `Db.Store`. It holds a map of users and a map
of tasks, keyed by document id, and a counter that hands out fresh ids.
Operations that change the store are methods with `modifies db`. Read-only
operations are functions that `reads db`, except `AdminController.GetUserById`,
a method because the source fills its statistics in a loop. All of them report failure with
one error type: `NotFound`, `Authorization`, `Validation`, `Conflict` or
`Authentication`, each carrying the message the service throws.

Modules, one per file:

- `Domain` (domain.dfy): the records, the error type and the role names.
- `Query` (query.dfy): the database primitives the services rely on.
  - `Find` filters a map and sorts it newest first, like `find(query).sort({ createdAt: -1 })`.
  - `GroupBy` counts documents per field value, like `$match` followed by `$group` with `$sum: 1`.
  - `ReduceFrom` folds buckets into a dictionary, like the `reduce` and `forEach` over them.
  - `Page`, `PageCount` and `Paginate` do skip/limit pagination.
- `Db` (store.dfy): the store class.
- `TaskService` (task_service.dfy): create, list, get, update and delete tasks under the owner-or-admin rule, plus per-status and per-priority counts.
- `AdminController` (admin_controller.dfy): the admin routes.
- `AuthService` (auth_service.dfy): register, login, profile read and profile update.
- `AuthMiddleware` (auth_middleware.dfy): token extraction, `protect` and `authorize`.
- `ErrorHandler` (error_handler.dfy): the error-to-response mapping and `notFound`.

Identifiers are one type compared with plain equality. The task service
writes its owner test as `task.owner._id.toString() !== userId` in
`getTaskById` and as `task.owner.toString() !== userId` in `updateTask` and
`deleteTask`. Its callers
pass the caller's id object, not its string form. As written, that strict
comparison never finds the two equal, so no non-admin could touch even
their own task. The model follows the evident intent, owner equality; the
comment on `TaskService.CanAccess` records the difference.

Every admin route is mounted behind `protect` and `authorize('admin')`
(backend/src/routes/adminRoutes.js:16-17). The two admin operations that
take the caller's id, `UpdateUserRole` and `DeleteUser`, therefore require
that their caller is an active admin; the other admin operations do not
look at the caller. `AuthMiddleware.AdminGate`
proves that this guard chain admits exactly such callers.

## Model

| member | source | states |
|---|---|---|
| Db.Store.NewId | backend/src/services/taskService.js:6-9 | a created document gets an id no user or task has yet, and the store invariant (every id below the counter) is kept |
| Query.IdsWhere | backend/src/services/taskService.js:25 | the scan lists, in increasing order, exactly the ids whose document satisfies the query |
| Query.InsertNewest | backend/src/services/taskService.js:28 | inserting into a newest-first listing keeps it newest first and adds exactly that id to the multiset |
| Query.SortNewest | backend/src/services/taskService.js:28 | the result is newest first by `createdAt` and a permutation of the input |
| Query.Find | backend/src/services/taskService.js:25-28 | `find(query).sort({ createdAt: -1 })`: every matching document exactly once, no other, newest first; its length is the number of matches |
| Query.CountOf | backend/src/controllers/adminController.js:227 | `find(k)?.count \|\| 0`: 0 when the value has no bucket, positive when it has one and counts are positive |
| Query.CountOfFirst | backend/src/controllers/adminController.js:227 | the lookup returns the count of the first bucket with that key |
| Query.AddOneCount | backend/src/services/taskService.js:89 | counting one more document raises exactly its value's count by one |
| Query.AddOne | backend/src/services/taskService.js:89 | `$sum: 1` for one more document: keys stay distinct and positive, its value becomes a key, and the total rises by one |
| Query.Group | backend/src/services/taskService.js:87-90 | one bucket per distinct value, counting that value's occurrences; the counts add up to the number of documents |
| Query.GroupBy | backend/src/services/taskService.js:84-92 | the buckets have distinct keys and positive counts |
| Query.GroupByCounts | backend/src/services/taskService.js:84-92 | a value's bucket count is the number of matching documents with that value; a value has a bucket iff some matching document has it; the bucket counts add up to the number of matches |
| Query.ReduceFrom | backend/src/services/taskService.js:105-108 | folding buckets into a dictionary adds exactly their keys, sets each to its bucket's count, and keeps the other entries |
| Query.ReduceSum | backend/src/services/taskService.js:105-108 | the values of the folded dictionary add up to the buckets' total |
| Query.Page | backend/src/controllers/adminController.js:23-26 | the page is the listing after skipping `(page-1)*limit` entries, at most `limit` long, in order |
| Query.PageCount | backend/src/controllers/adminController.js:37 | `Math.ceil(total / limit)`: the least page count that holds `total` entries |
| Query.PagesCoverAll | backend/src/controllers/adminController.js:23-37 | concatenating pages 1 to `pages` gives back the whole listing |
| Query.Paginate | backend/src/controllers/adminController.js:30-39 | the response echoes page and limit, `total` counts the whole listing, `pages` is its page count, and the data is the whole requested window: exactly the entries after the skipped ones, up to `limit`, none dropped |
| TaskService.CanAccess | backend/src/services/taskService.js:42-73 | an admin may access every task and an owner their own; a non-admin may access only tasks they own |
| TaskService.ScopeQuery | backend/src/services/taskService.js:15 | a task matches the base query iff the caller may access it: an admin sees all tasks, anyone else only their own |
| TaskService.ListQuery | backend/src/services/taskService.js:14-23 | the listing query matches iff the caller may access the task and every supplied status or priority filter equals the task's |
| TaskService.CreateTask | backend/src/services/taskService.js:5-12 | the new task is stored under a fresh id, its owner is the caller whatever the input says, the other fields come from the input, and no other task or user changes |
| TaskService.GetAllTasks | backend/src/services/taskService.js:14-31 | the listing holds exactly the accessible tasks passing the supplied filters, each once, newest first |
| TaskService.CheckAccess | backend/src/services/taskService.js:50-58 | NotFound iff the task is absent, which is decided before access; Authorization iff it exists and the caller is neither admin nor owner; otherwise the stored task |
| TaskService.GetTaskById | backend/src/services/taskService.js:33-47 | NotFound for an absent task; "You do not have access to this task" iff a non-admin asks for another user's task; otherwise the stored task |
| TaskService.ApplyPatch | backend/src/services/taskService.js:60 | `Object.assign(task, updateData)`: each field the patch carries takes the patch's value, every other field keeps the task's, and `createdAt` never changes |
| TaskService.ApplyPatchLaws | backend/src/services/taskService.js:60 | `Object.assign` with a patch is idempotent, an empty patch changes nothing, a patch without `owner` keeps the owner, `createdAt` never changes |
| TaskService.UpdateTask | backend/src/services/taskService.js:49-64 | on failure the access check's error and an unchanged store; on success exactly that task becomes the patched task and nothing else changes |
| TaskService.DeleteTask | backend/src/services/taskService.js:66-79 | on failure the access check's error and an unchanged store; on success exactly that task is removed |
| TaskService.GetTaskStats | backend/src/services/taskService.js:81-113 | every count in `byStatus` and `byPriority` is at least 1, and the two dictionaries' counts add up to the same number of tasks |
| TaskService.GroupCountsVisible | backend/src/services/taskService.js:81-113 | a field value is a key of the folded counts iff some visible task has it, mapped to the number of such tasks; the counts add up to the number of visible tasks |
| TaskService.TaskStatsCounts | backend/src/services/taskService.js:81-113 | the same for both `byStatus` and `byPriority` of `getTaskStats` |
| AdminController.UserMatches | backend/src/controllers/adminController.js:10-21 | with neither filter every user matches; a role filter admits only that role; a search admits only users whose name or email matches it |
| AdminController.UserListing | backend/src/controllers/adminController.js:10-26 | every user matching the search and role filters exactly once, newest first |
| AdminController.GetAllUsers | backend/src/controllers/adminController.js:7-40 | the whole requested window of the user listing (`Query.PageOf`), and `total` is the number of matching users whatever the page |
| AdminController.DefaultStats | backend/src/controllers/adminController.js:61-66 | the four statuses start at 0 |
| AdminController.ReduceSnoc | backend/src/controllers/adminController.js:68-70 | one more `forEach` step sets exactly that bucket's key to its count |
| AdminController.FilledStats | backend/src/controllers/adminController.js:61-70 | after the fill, the dictionary has each of the four statuses plus every status the user has, each mapped to the user's task count for it |
| AdminController.GetUserById | backend/src/controllers/adminController.js:43-79 | NotFound iff the user is absent; otherwise the user, and task stats that always hold the four statuses, each the number of that user's tasks with it (0 if none) |
| AdminController.UpdateUserRole | backend/src/controllers/adminController.js:82-113 | a role outside {user, admin} is rejected before the lookup; then NotFound; then the self-demotion guard; on success only the target's role changes; the caller stays an active admin |
| AdminController.WithoutOwner | backend/src/controllers/adminController.js:129 | `deleteMany({ owner })` keeps exactly the tasks of other owners, unchanged |
| AdminController.DeleteUser | backend/src/controllers/adminController.js:116-137 | NotFound, then the self-deletion guard, and nothing deleted on either; on success the user is removed, no task of theirs remains, and every other user and task is unchanged |
| AdminController.AdminTaskQuery | backend/src/controllers/adminController.js:143-147 | a task matches iff it equals each supplied status, priority and owner filter, and no other constraint applies |
| AdminController.TaskListing | backend/src/controllers/adminController.js:143-153 | every matching task exactly once, newest first |
| AdminController.GetAllTasks | backend/src/controllers/adminController.js:140-167 | the whole requested window of the admin task listing (`Query.PageOf`), and `total` is the number of matching tasks |
| AdminController.GetTasksByUser | backend/src/controllers/adminController.js:170-191 | NotFound iff the user is absent; otherwise the user's name and email and exactly that user's tasks, each once, newest first |
| AdminController.GetPlatformStats | backend/src/controllers/adminController.js:194-254 | the overview's user and task totals are the counts of all users and all tasks, and the week's signups never exceed all users |
| AdminController.UserGroupCount | backend/src/controllers/adminController.js:227-228 | a role's count from the grouped users is the number of users with that role, 0 when there are none |
| AdminController.TaskGroupCount | backend/src/controllers/adminController.js:234-237 | a status's count from the grouped tasks is the number of tasks with that status, 0 when there are none |
| AdminController.PlatformUserCounts | backend/src/controllers/adminController.js:216-230 | user totals, admins, regular users, and signups within seven days of `now` are those exact counts |
| AdminController.PlatformTaskCounts | backend/src/controllers/adminController.js:232-238 | the task total and the four per-status counts are those exact counts |
| AdminController.PlatformCompletionRate | backend/src/controllers/adminController.js:245-251 | the completion rate is 0 when there are no tasks and always lies between 0 and 100 |
| AdminController.RolePartition | backend/src/controllers/adminController.js:225-229 | if every stored role is `user` or `admin`, admins plus regular users equals all users |
| AuthService.FindByEmail | backend/src/services/authService.js:13 | absent iff no user has the email; a result holds the email; with unique emails it is that user |
| AuthService.RoleOrDefault | backend/src/services/authService.js:22 | `role \|\| 'user'`: a supplied role is kept, an absent or empty one becomes `user` |
| AuthService.Register | backend/src/services/authService.js:10-33 | Conflict iff the email is taken, with the store unchanged; otherwise exactly one new active user with the given fields and the defaulted role; email uniqueness is preserved |
| AuthService.Login | backend/src/services/authService.js:35-54 | an unknown email or a wrong password gives "Invalid email or password", checked before the active flag; a correct password on an inactive account gives "Account is deactivated"; success only for the active owner of the email |
| AuthService.GetProfile | backend/src/services/authService.js:56-62 | an absent user is an Authentication error, not NotFound; otherwise the stored user |
| AuthService.ApplyProfile | backend/src/services/authService.js:74-78 | only name and email change, and only those the body supplies |
| AuthService.UpdateProfile | backend/src/services/authService.js:64-81 | Conflict iff a supplied email belongs to another user, so one's own email is allowed; an absent caller changes nothing; otherwise only the caller's name and email change; email uniqueness is preserved |
| AuthMiddleware.Split | backend/src/middleware/auth.js:10 | `split(' ')` gives pieces without the separator that join back to the header |
| AuthMiddleware.BearerToken | backend/src/middleware/auth.js:7-15 | a token exists only for a header starting with `Bearer`, and exactly when its second space-separated piece exists and is non-empty; the token is that whole piece |
| AuthMiddleware.BearerRoundTrip | backend/src/middleware/auth.js:9-10 | `Bearer <t>` yields `t` for every non-empty token without spaces |
| AuthMiddleware.SchemeWithoutSpace | backend/src/middleware/auth.js:9-10 | for every space-free first word starting with `Bearer` and every non-empty space-free `t`, `<word> t` yields `t`: the prefix test does not require a space after `Bearer` |
| AuthMiddleware.SchemeRunOn | backend/src/middleware/auth.js:9-10 | `Bearerx abc` yields `abc` |
| AuthMiddleware.Authenticate | backend/src/middleware/auth.js:6-30 | no token gives "Not authorized to access this route"; every later failure, including an unknown or inactive user, gives "Invalid or expired token"; success iff the token names a stored active user |
| AuthMiddleware.Protect | backend/src/middleware/auth.js:6-30 | the outcome is `Authenticate`'s; on success `req.user` is the stored active user the token names; on failure the request is unchanged |
| AuthMiddleware.Authorize | backend/src/middleware/auth.js:32-41 | passes iff the role is listed; otherwise Authorization with the message naming the role |
| AuthMiddleware.AdminGate | backend/src/routes/adminRoutes.js:16-17 | `protect` then `authorize('admin')` admits a caller iff the token names a stored, active admin |
| ErrorHandler.StatusOrDefault | backend/src/middleware/errorHandler.js:7 | `err.statusCode \|\| 500` |
| ErrorHandler.Capitalise | backend/src/middleware/errorHandler.js:24 | same length, first character upper-cased, the rest unchanged |
| ErrorHandler.FieldErrors | backend/src/middleware/errorHandler.js:30-33 | one `{ field, message }` entry per sub-error, in order |
| ErrorHandler.HandleError | backend/src/middleware/errorHandler.js:4-54 | the last matching rule wins, in this order: TokenExpiredError, JsonWebTokenError, ValidationError, duplicate key 11000, CastError, then the error's own status (or 500) and message; the response never reports success; errors stay empty except for a validation error or an error carrying its own list |
| ErrorHandler.NotFoundError | backend/src/middleware/errorHandler.js:56-59 | a 404 error with message `Route <url> not found` |
| ErrorHandler.NotFoundResponse | backend/src/middleware/errorHandler.js:56-59 | passed to the responder, an unmatched route yields a 404 with that message, whatever the error's class name, unless the name is one the responder recognises |

## Left out

- Mongoose and MongoDB: queries, `populate` projections, `save`, hooks and schema validators are not modelled. Operations act on the two in-memory maps.
- Schema defaults are not shown in the source. The model assumes new users are active and stamps `createdAt` from a `now` parameter.
- Clock: `Date.now()` is the `now` parameter of `GetPlatformStats`, and `createdAt` comes from a parameter.
- Foreign predicates: the case-insensitive regular-expression user search is the `regex` predicate of `UserQuery`. JWT verification is the `verify` parameter. `comparePassword` is the `matches` parameter.
- JWT issuing is left out: `generateAccessToken` and `generateRefreshToken`, and the tokens in the register and login responses. Login returns the user's id.
- Password hashing is not part of this model: the stored `password` is whatever the user model would store.
- `AdminController.GetPlatformStats`: `completionRate` is a real number. The `toFixed(2)` rounding to a string is not modelled.
- Pagination: `page` and `limit` arrive as strings, default to 1 and 10, and are coerced by `*` and `Number`. `Query.Paginate`, `AdminController.GetAllUsers` and `AdminController.GetAllTasks` require both to be whole numbers of at least 1. Non-numeric, zero and negative values are not modelled.
- `ErrorHandler.HandleError` requires a duplicate-key error to name at least one key field. With an empty `keyPattern`, the source fails inside the handler.
- `ErrorHandler.HandleError`: the response's `status` field (`error.status || 'error'`) and the development-only `stack` are left out. The `AppError` class is not part of this model.
- The HTTP status of each domain error class and the domain error classes' `name` values are not part of this model. So no lemma composes a service error with the responder.
- `ErrorHandler.Capitalise` upper-cases ASCII letters only. JavaScript's `toUpperCase` also maps other Unicode letters, some to more than one character.
- `ErrorHandler.HandleError`: an error named `ValidationError` is assumed to carry an `errors` object (`subErrors` is always a list). Without one, `Object.values(err.errors)` throws inside the handler; whether the controllers' own `ValidationError` class has that name is not shown, since backend/src/utils/errors.js is not part of this model.
- `TaskService.CreateTask`: the create input always carries `status` and `priority`. A body without them gets the task schema's defaults, which are not shown and not modelled.
- `AuthService.UpdateProfile`: a body field set to `null` is not modelled. A field is either absent or given.
- `AuthService.UpdateProfile` preserves email uniqueness only when the email is not the empty string. An empty email skips the uniqueness check, as in the source.
- Ids are always well-formed. A malformed id string makes Mongoose raise a `CastError`, which the responder maps to 404; the services never see such an id in the model.
- Email comparison is exact. Any lower-casing or trimming the user schema may apply is not part of this model.
- Response envelopes (`success`, `data`, `message` wrappers in the controllers), logging, wiring, route files and the frontend are not modelled.
- Concurrency: `Promise.all` and the non-atomic delete cascade are modelled as sequential steps.
- The task `update` body validator is not part of this model. The patch may name any field, `owner` included, and the model does not claim that `owner` is immutable.
