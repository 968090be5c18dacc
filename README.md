# Kanban board store: a Dafny model

This project models the core of a small kanban web service. Tasks are kept in
fixed workflow columns (Recurring, Backlog, In Progress, Review, Done) and
users in a second list. Each list is persisted as one JSON file that is read
in full and rewritten in full on every change. The model covers:

- **The record store** (`storage.dfy`, module `Storage`). The JSON file is a
  `FileState`: `Missing`, `Corrupt` (present but not valid JSON text) or `Stored(records)`.
  - A read of a missing or corrupt file yields the empty list.
  - Initialisation writes `[]` only when the file is missing.
  - `JsonFile<T>` is the shared file object. `TaskStorage` and `UserStorage`
    are classes that hold one and whose methods read, scan and write it back.
  - Each method is proved against a pure function of the list it read:
    `FindById`, `FindByUsername` (built on `FirstIndex`, the first match),
    `Select` (an order-keeping filter), and `ApplyUpdate`/`Merge` (the partial
    update).
  - `TaskStorage.GetAll` is `get_all`: the decoded list.
- **The task routes** (`task_routes.dfy`, module `TaskRoutes`).
  - The `get_tasks` filters (`FilterTasks`).
  - The sorted, duplicate-free category list (`Categories`, over the string
    order of `string_order.dfy`).
  - The board grouped by column (`GetBoard`).
  - The create, update, move, delete and get handlers. They return
    `Ok`, `NotFound` or `BadRequest` and are proved to check in the source's
    order and to touch the store only when every check passes.
- **The records** (`models.dfy`, module `Models`): tasks, updates, moves and
  users, with their field bounds and defaults.
  - Request validation is a `Parse…` function from a JSON body whose fields
    are `Absent`, `Null` or `Present`.
  - Each `Parse…` function states which bodies it accepts and which field
    values come out.
  - For task creation and task update, a `…BodyOf` function writes a valid
    record back as a body. Parsing is proved to give only valid records and
    to give back every valid record from its own body.
- **Configuration** (`config.dfy`): the `Columns` and `Priorities` constants.

Identifiers and timestamps are opaque strings. The fresh id and the current
time are parameters of the operations that need them.

The model follows the code, including these behaviours:

- Task ids and usernames are not checked for uniqueness on create.
  `CreateThenGet` and `CreateUserThenGet` show that an appended duplicate is
  shadowed by the earlier record. `UniqueIds` is proved to be preserved only
  when the caller supplies a fresh id.
- The category list holds only the categories used by tasks. No stored
  categories are merged in.
- `update_task` lets the empty column `""` through its check and the store
  writes it, so the task leaves the board (`UpdateEmptyColumnLeavesBoard`).
- The store's update reports a missing id as `None`. The handlers turn that
  into NotFound by looking the id up before they update.

## Model

| member | source | states |
|---|---|---|
| `Models.ParsePriority` | app/models.py:13 | accepts exactly the configured priority names, and the parsed priority's name is the input |
| `Models.PriorityRoundTrip` | app/config.py:27 | every priority's name is one of the configured priorities and parses back to that priority |
| `Models.ParseTaskCreate` | app/models.py:9-20 | a create body is accepted iff the title is present with 1-200 characters, a present description has at most 2000, a present category at most 50, the priority is absent or a configured name, and neither priority nor column is null; a present priority or column is carried over and a missing one becomes Medium or Backlog; title, description, category and due date are the body's, with missing or null as none |
| `Models.TaskCreateRoundTrip` | app/models.py:9-20 | every valid create request is accepted from its own body and comes back unchanged |
| `Models.NewTaskFromRequest` | app/routes/tasks.py:91 | `NewTask`, the task built from a valid request, is valid, carries the request's fields unchanged, the given id, and the given time as both timestamps |
| `Models.ParseTaskUpdate` | app/models.py:23-30 | every update field is optional; the body is accepted iff each present field obeys the task bounds (column unconstrained); each field of the result is the body's value, with a missing or null field (and a missing priority) as "no change" |
| `Models.TaskUpdateRoundTrip` | app/models.py:23-30 | every valid update is accepted from its own body and comes back unchanged |
| `Models.ParseTaskMove` | app/models.py:46-49 | a move body is accepted iff the column is present; a present position is carried over and a missing or null one becomes none |
| `Models.ParseUser` | app/models.py:52-57 | a user is accepted iff the name and hash are present and neither flag is null; the user carries the body's name, hash and present flags, and missing `disabled` and `is_admin` default to false |
| `Models.ParseUserCreate` | app/models.py:60-63 | accepted iff the username has 3-50 characters and the password at least 6 |
| `Models.ParsePasswordChange` | app/models.py:77-80 | accepted iff both fields are present and the new password has at least 8 characters |
| `StringOrder.LessIrreflexive` | app/routes/tasks.py:51 | no string sorts before itself |
| `StringOrder.LessTransitive` | app/routes/tasks.py:51 | the string order used by `sorted` is transitive |
| `StringOrder.LessTotal` | app/routes/tasks.py:51 | any two distinct strings are ordered one way or the other |
| `StringOrder.InsertSpec` | app/routes/tasks.py:50-51 | inserting into a strictly ascending list keeps it strictly ascending and adds exactly the new string |
| `StringOrder.AscendingUnique` | app/routes/tasks.py:50-51 | two strictly ascending lists with the same elements are equal, so sorting a set has one result |
| `Storage.EnsureSpec` | app/storage.py:21-34 | `Ensure` (initialisation) leaves no file missing, never changes an existing (even corrupt) file, is idempotent, and does not change what a read yields; a read (`Decode`, returned by `JsonFile.ReadData`, `TaskStorage.GetAll` and `UserStorage.Users`) gives the stored list, or the empty list for a missing or corrupt file |
| `Storage.JsonFile.constructor` | app/storage.py:16-25 | the file after construction is the disk state with a missing file replaced by `[]` |
| `Storage.JsonFile.WriteData` | app/storage.py:36-40 | a write replaces the whole file content with the given list |
| `Storage.FirstIndex` | app/storage.py:54-60 | returns none iff the key does not occur, otherwise a position holding the key with no earlier occurrence |
| `Storage.Select` | app/storage.py:62-65 | the filtered list holds exactly the tasks that satisfy the condition, is no longer than the input, and is as long iff every task satisfies it |
| `Storage.SelectAppend` | app/storage.py:100 | filtering distributes over concatenation, i.e. keeps the stored order |
| `Storage.MergeSpec` | app/storage.py:82-91 | `Merge`: each non-None field overwrites, each None field is kept, id and creation time are unchanged, `updated_at` becomes `now`; merging twice equals merging once; an empty update changes only `updated_at` |
| `Storage.MoveMerge` | app/storage.py:106-108 | a move changes exactly the column and `updated_at` |
| `Storage.MergeKeepsValid` | app/storage.py:85-90 | a valid update merged into a valid task gives a valid task |
| `Storage.ApplyUpdateSpec` | app/storage.py:79-94 | `ApplyUpdate` writes nothing iff the id is absent; otherwise it keeps the length and all ids, changes only the position of the first record with the id (a duplicate of that record further on is kept as it was), and a lookup afterwards returns the old record merged with the update |
| `Storage.UpdateKeepsIdsUnique` | app/storage.py:82-93 | an update keeps unique ids unique |
| `Storage.CreateThenGet` | app/storage.py:54-77 | after an append, an id not stored before finds the appended task, and an id already stored still finds the earlier task |
| `Storage.CreateKeepsIdsUnique` | app/storage.py:67-77 | appending a task with a fresh id keeps ids unique |
| `Storage.DeleteRemovesEvery` | app/storage.py:96-104 | after a delete no task has the id, so a second delete of it reports false |
| `Storage.DeleteRemovesOne` | app/storage.py:96-104 | with unique ids, deleting a present id shortens the list by exactly one |
| `Storage.DeleteKeepsIdsUnique` | app/storage.py:100 | deleting keeps unique ids unique |
| `Storage.CreateUserThenGet` | app/storage.py:117-130 | after appending a user, a new name finds that user and a taken name still finds the earlier one |
| `Storage.TaskStorage.constructor` | app/storage.py:46-47 | the task store starts on its own file, initialised as above |
| `Storage.TaskStorage.GetById` | app/storage.py:54-60 | the scan returns `FindById` of the stored list: the first stored task with the id, and none iff no task has it |
| `Storage.TaskStorage.GetByColumn` | app/storage.py:62-65 | returns exactly the stored tasks whose column is the given one |
| `Storage.TaskStorage.Create` | app/storage.py:67-77 | returns its argument and writes the old list with the task appended at the end |
| `Storage.TaskStorage.Update` | app/storage.py:79-94 | an absent id returns none and writes nothing; otherwise writes the list with the first match merged and returns what a lookup of the id then gives |
| `Storage.TaskStorage.Delete` | app/storage.py:96-104 | reports true iff some task had the id; then writes the list without every such task in the original order; otherwise writes nothing |
| `Storage.TaskStorage.Move` | app/storage.py:106-108 | behaves exactly as an update that supplies only the column; the position has no effect |
| `Storage.UserStorage.constructor` | app/storage.py:114-115 | the user store starts on its own file, initialised as above |
| `Storage.UserStorage.GetByUsername` | app/storage.py:117-123 | the scan returns `FindByUsername` of the stored list: the first stored user with the name, or none |
| `Storage.UserStorage.Create` | app/storage.py:125-130 | returns its argument and writes the old list with the user appended, with no uniqueness check |
| `Storage.UserStorage.Exists` | app/storage.py:132-134 | true iff a lookup of the name finds a user, i.e. iff some stored user has the name |
| `TaskRoutes.FilterTasksSpec` | app/routes/tasks.py:22-31 | `FilterTasks`: a task is listed iff it is stored and matches every given, non-empty filter; with no such filter the whole list is returned |
| `TaskRoutes.FilterTasksAppend` | app/routes/tasks.py:24-29 | the listing distributes over concatenation, i.e. keeps the stored order |
| `TaskRoutes.FilterTasksSingle` | app/routes/tasks.py:24-29 | a single task is listed iff it matches |
| `TaskRoutes.CategoriesSpec` | app/routes/tasks.py:49-51 | `Categories`, the category list, is strictly ascending and holds exactly the non-empty categories of stored tasks |
| `TaskRoutes.CategoriesUnique` | app/routes/tasks.py:50-51 | any strictly ascending list of those categories is the category list |
| `TaskRoutes.GetBoard` | app/routes/tasks.py:57-64 | the keys are exactly the configured columns; each list holds that column's tasks in stored order; a task in an unknown column is in no list; every task in a configured column is in its list |
| `TaskRoutes.GetTask` | app/routes/tasks.py:67-76 | NotFound iff no stored task has the id; otherwise the first task with the id |
| `TaskRoutes.CreateTask` | app/routes/tasks.py:79-92 | a column outside the board gives BadRequest and no change; otherwise the new task is appended and returned |
| `TaskRoutes.UpdateTask` | app/routes/tasks.py:95-117 | a missing id gives NotFound before the column check; a given non-empty column outside the board gives BadRequest with no change; otherwise the update is applied as given |
| `TaskRoutes.MoveTask` | app/routes/tasks.py:120-141 | a missing id gives NotFound even with a bad column; a bad column gives BadRequest with no change; otherwise the task is moved and returned with the new column |
| `TaskRoutes.DeleteTask` | app/routes/tasks.py:144-151 | NotFound iff the store removed nothing, with no write; otherwise every task with the id is removed |
| `TaskRoutes.CreateKeepsOnBoard` | app/routes/tasks.py:85-92 | a create that passes the column check keeps every task in a configured column |
| `TaskRoutes.UpdateKeepsOnBoard` | app/routes/tasks.py:134-140 | an update or move to a configured column keeps every task in a configured column |
| `TaskRoutes.UpdateEmptyColumnLeavesBoard` | app/routes/tasks.py:109-116 | the update check lets the empty column through, and the updated task then sits in no configured column |

## Left out

- The lock in the store is concurrency and is not modelled. The store is
  modelled sequentially. The source locks each read and each write
  separately, not the read-modify-write cycle.
- Real file I/O is not modelled: directory creation, opening files, and JSON
  encoding and decoding. The file is the abstract `FileState`. A failing
  write, which would raise, is not modelled.
- A file that holds valid JSON other than a list of records (such as `null`,
  `{}` or `3`), or bytes that are not valid text, makes the source raise on
  read or on create. `FileState` has no such state, so the model does not
  capture those failures.
- Conversion of datetimes to ISO text is not modelled. Timestamps are opaque
  strings.
- New ids and the current time are parameters. `NewTask` gives `created_at`
  and `updated_at` the same `now`, while the source reads the clock once per
  field.
- Records are not validated again when read back (`Task(**item)`). A stored
  record that fails validation would raise in the source. The model assumes
  stored records are well formed.
- The store's `update` accepts any dictionary. The model takes a
  `TaskUpdate`, which is what both callers pass: the update handler and
  `move`.
- Validation errors (HTTP 422) are modelled by the `Parse…` functions
  returning none. The handlers take already validated records.
- Authentication and the auth routes are not modelled: password hashing,
  tokens, the current-user dependency, login, register and me. The module
  they rely on is not part of this model.
- The column and priority listing endpoints, application start-up, static
  files, health checks and reading the environment are not modelled. Only
  the `Columns` and `Priorities` constants are used.
- `TaskRoutes.GetBoard`: the board is a `map`, so it does not record the key
  order of the source's dictionary, which follows `Columns`.
- Date parsing is not modelled. A due date is any opaque timestamp.
- The following are not in the source and are not modelled: a separate
  category store, listing, deleting and updating users, the change-password
  operation, and a category list merged with stored categories.
