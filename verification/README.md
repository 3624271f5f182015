# Task-board API: the request handlers as a state machine

This project models the decision logic of a small Kanban-style REST backend,
written in Dafny. Each user owns columns, and each column holds tasks. Update
and delete look up one row by id and owner together. Listing filters by owner.
Creation and registration check a few fields. The rows live in a relational
store.

In the model:

- The store is three immutable maps (`Board.Store`). Users are keyed by their
  unique username. Columns and tasks are keyed by id.
- Every route handler is a transition. It takes the store and the request
  fields, and returns a `Board.Reply`: the HTTP status, the store after the
  request, and the JSON body.
  - Update, delete, register, login and the token guard are pure functions.
  - Listing and creation are methods. They scan a table the way the store's
    `findMany … orderBy position asc` and `findFirst … orderBy position desc`
    queries do (`Listing.CollectSorted`, `Listing.FindLast`). Their loop
    invariants carry the sorting and maximum proofs.
- New columns and tasks get positions from the append allocator
  (`Positions`). The first sibling gets 1000. Every later one gets the
  highest sibling position plus 1000. `Positions.AppendedAfter` is the
  reference definition stated over the set of sibling positions.
- The bearer-token guard (`Guard`) splits the `Authorization` header on single
  spaces and takes the second field as the token. It then rejects with 401,
  rejects with 403, or attaches the decoded identity.

Some services sit outside the model. The password hash, the hash comparison,
token signing and token verification are function-valued parameters. The
lemmas that need facts about them take those facts as explicit predicates:

- a password matches its own hash (`Auth.HashMatches`);
- verification decodes what was signed (`Auth.VerifiesSigned`);
- signed tokens are non-empty and contain no space (`Auth.CompactTokens`).

Identifiers the store generates are passed in as `newId`, with a freshness
precondition. `Board.Valid` is the store invariant: every key agrees with its
record, and user ids are unique. Every mutating handler preserves it.

Some behaviour is worth stating explicitly:

- **The column join is not filtered by owner.** The column listing includes
  every task whose `columnId` names the column. Task creation does not check
  that the column belongs to the caller. So a column's joined tasks can include
  other users' tasks. `Columns.GetColumns` states exactly this.
- **Task creation does not check the title or the column.** The handler passes
  both to the store as given.
- **Column creation does not store a colour.** It reads only `title` from the
  body.
- **Column update ignores `color`.** It changes only `title` and `position`.
- **There is no password-reset or reset-token flow.** `src/routes/authRoutes.ts`
  names `forgotPassword` and `resetPassword`, and the controller defines neither.
- **Deleting a column keeps its tasks in the model.** The controller shows no
  cascade. The schema's referential action is not modelled.

The task list, update and delete handlers never test `req.user` themselves.
They rely on the router mounting the guard first. So they take
`requires user.Some?`. The other handlers model their own `!userId` check: an
absent user or an empty user id gives 401 (`Board.SignedIn`).

`Walkthrough.Session` walks one whole session: register, a refused duplicate,
login, the token through the guard, two columns at positions 1000 and 2000, a
task with the default priority, deleting the first column, and a final listing
that holds only the second column.

## Model

| member | source | states |
|---|---|---|
| Listing.CollectSorted | src/controllers/taskController.ts:17-20 | a `findMany` with ascending position order returns every row the filter accepts and nothing else, each once, in ascending position order |
| Listing.FindLast | src/controllers/columnController.ts:45-48 | a `findFirst` with descending position order finds no row exactly when no row matches, and otherwise a matching row whose position is maximal |
| Positions.NextPositionAppends | src/controllers/columnController.ts:50 | given a correct "last sibling" answer, `last ? last + 1000 : 1000` meets the set-based reference definition, so the new position is above every sibling |
| Positions.AppendedIsFresh | src/controllers/taskController.ts:49-51 | a position placed by the allocator collides with no sibling's position and is above all of them |
| Tasks.GetTasks | src/controllers/taskController.ts:12-25 | the reply lists exactly the caller's tasks, each once, ascending by position, with the caller's username as `owner`; the store is unchanged |
| Tasks.CreateTask | src/controllers/taskController.ts:38-64 | 401 with nothing created when no user id is attached; otherwise exactly one task is added under the new id and owned by the caller; its title and column are taken as given (unchecked); its priority is the supplied one when truthy, else "medium"; its position is 1000 past the caller's highest task in that column, so above every sibling and equal to none |
| Tasks.UpdateTask | src/controllers/taskController.ts:76-103 | 404 with the store untouched unless the task exists and belongs to the caller; otherwise only that task changes, each supplied field takes the given value, each absent field keeps its value, and the id and owner are kept |
| Tasks.DeleteTask | src/controllers/taskController.ts:116-135 | only a task with that id owned by the caller is removed, and every other row is kept; otherwise 404 with the store untouched |
| Tasks.DeleteTaskTwice | src/controllers/taskController.ts:122-135 | deleting the same id twice: the first succeeds exactly when the caller owns the task, and the second answers 404 |
| Tasks.UpdateTaskIdempotent | src/controllers/taskController.ts:92-101 | repeating the same task update yields the same reply and store |
| Tasks.EmptyPatchIsIdentity | src/controllers/taskController.ts:92-101 | an update body with no recognised field leaves the store as it was and echoes the stored task |
| Tasks.ForeignTaskIsHidden | src/controllers/taskController.ts:81-89 | another user's task is reported exactly like a missing one (404, store unchanged) by both update and delete |
| Columns.GetColumns | src/controllers/columnController.ts:11-24 | 401 without a user id; otherwise exactly the caller's columns, each once, ascending by position; each column carries every task naming it (of any owner), ascending by position |
| Columns.CreateColumn | src/controllers/columnController.ts:37-60 | 401 before 400, and a falsy title gives 400; neither creates anything; otherwise one column with the title, the caller as owner and no colour, placed 1000 past the caller's highest column, so above all of them and equal to none |
| Columns.UpdateColumn | src/controllers/columnController.ts:73-97 | 401 without a user id; 404 with the store untouched unless the caller owns the column; otherwise only title and position can change; colour, owner and all other rows are kept |
| Columns.DeleteColumn | src/controllers/columnController.ts:110-125 | 401 without a user id; removes only the caller's column with that id, leaving tasks and users alone; otherwise 404 with the store untouched |
| Columns.DeleteColumnTwice | src/controllers/columnController.ts:115-125 | deleting the same column twice: the first succeeds exactly when the caller owns it, and the second answers 404 |
| Columns.UpdateColumnIdempotent | src/controllers/columnController.ts:89-95 | repeating the same column update yields the same reply and store |
| Columns.ForeignColumnIsHidden | src/controllers/columnController.ts:79-87 | another user's column is reported exactly like a missing one by both update and delete |
| Columns.AppendedColumnListedLast | src/controllers/columnController.ts:45-58 | a column appended above all of the caller's columns comes last in any listing of the resulting store |
| Columns.CreateThenList | src/controllers/columnController.ts:52-60 | creating a column and then listing shows the created column, with its title, as the last entry |
| Guard.Split | src/middlewares/authMiddleware.ts:20 | `split(" ")` yields at least one field; no field contains a space; joining the fields with single spaces gives back the header |
| Guard.SplitJoin | src/middlewares/authMiddleware.ts:20 | splitting a space-joined list of space-free fields gives back that list |
| Guard.ExtractToken | src/middlewares/authMiddleware.ts:19-20 | a token exists only when a header was sent, and it never contains a space |
| Guard.TokenIsSecondField | src/middlewares/authMiddleware.ts:19-20 | the token is the field between the first and second space, whatever the first word is |
| Guard.NoSpaceNoToken | src/middlewares/authMiddleware.ts:20-26 | a non-empty header with no space yields no token |
| Guard.EmptySecondField | src/middlewares/authMiddleware.ts:20-26 | "Bearer " and "Bearer  x" (a doubled space) yield the empty token |
| Guard.MissingTokenIs401 | src/middlewares/authMiddleware.ts:19-26 | no header, an empty header, or a header without a space is rejected with 401 and never reaches the handler |
| Guard.AuthenticateToken | src/middlewares/authMiddleware.ts:13-45 | exactly one outcome: 401 when the token is missing or empty; 403 when verification fails; otherwise `next` with `req.user` equal to the decoded payload |
| Auth.Register | src/controllers/authController.ts:9-38 | a falsy field gives 400, a taken username gives 400, and both leave the store unchanged; otherwise exactly one user is added, storing `hash(password)`; the reply exposes only id and username |
| Auth.Login | src/controllers/authController.ts:46-65 | the store is never changed; an unknown user and a wrong password get the identical 401 reply; success signs exactly `{userId, username}` of the stored user with a one-day lifetime |
| Auth.RegisterThenLogin | src/controllers/authController.ts:25-65 | when a password matches its own hash, a user who just registered can log in with that password, and the token names the new user |
| Auth.RegisterTwice | src/controllers/authController.ts:19-22 | registering the same username again is refused with "Username already exists" and changes nothing |
| Auth.LoginTokenPassesGuard | src/controllers/authController.ts:61-65 | the login token, sent as `Bearer <token>`, passes the guard, which attaches exactly the logged-in user's id and username |
| Walkthrough.Session | src/controllers/columnController.ts:50-60 | in one session the statuses run 201, 400, 200, 201, 201, 201, 200, 200; the columns get 1000 and 2000; the task gets "medium" and 1000; the final listing is non-empty and every entry is the surviving column |

## Left out

- The 500 catch-all of every handler is not modelled. Store failures, library exceptions and logging have no counterpart here.
- Login with a missing `username` or `password` field is not modelled, so `Auth.Login` takes both as plain strings. A missing username makes the store's `findUnique` throw, and the request ends in the 500 path. A missing password for an unknown username still gets the 401 "Invalid credentials" reply, because the handler returns before the comparison runs. A missing password for a known username makes the comparison throw, and the request ends in the 500 path.
- Task creation with a missing `title` or `columnId` is not modelled. Whether the store accepts it depends on a schema that is not part of this model, so `Tasks.CreateTask` takes both as plain strings.
- Tasks.CreateTask, Tasks.UpdateTask: a `columnId` that names no column is stored as given, and the reply is 201 or 200. `Task.columnId` is a relation to `Column`. Whether the store's foreign key rejects such a write, so that the handler answers 500, depends on a schema that is not part of this model.
- Request body fields are modelled as optional strings and integers. JSON values of other types, and their JavaScript truthiness, are not modelled.
- Positions are integers, not floating point. A caller-supplied position in an update is taken as an integer, and floating-point precision is not modelled.
- Equal positions keep the order of the scan. The store leaves that order open, and no tie-break is specified.
- Auth.Register: states that the stored password is `hash(password)`, not that it differs from the plain text. The hash is an uninterpreted parameter. The bcrypt cost factor and salt randomness are not modelled.
- Token expiry, the clock and the signing secret are folded into the `sign`/`verify` parameters. JWT claims beyond `userId` and `username` (`iat`, `exp`) are not modelled.
- The password-reset routes name handlers that do not exist in the controller. Reset tokens are therefore not modelled.
- Route wiring and server start-up are not modelled. The one fact they contribute, that the guard runs before every column and task handler, is the `user.Some?` precondition of the task handlers.
- Concurrent requests and last-write-wins races are not modelled. Every transition is one sequential step on one store.
- Columns.DeleteColumn: the model keeps a deleted column's tasks. Whether the store cascades the delete, refuses it, or orphans the tasks depends on the schema's referential action, which is not part of this model.
- `src/utils/errorHandler.ts` and `src/test-db.ts` are not part of this model. The first is an unused 500 helper. The second is a database smoke script.
