# solAgent task lifecycle, modelled in Dafny

The agent keeps requested work in a local SQLite table `tasks(id, type,
status, data)`, where `id` is an `INTEGER PRIMARY KEY AUTOINCREMENT`. A poll
loop repeatedly calls `processTasks`. Each pass takes a snapshot of the
pending tasks and handles them one at a time. A `transfer` task sends SOL, a
`dex_trade` task performs a Raydium swap, and every task is then given a
terminal status (`completed` or `failed`).

This project models that lifecycle in four modules:

- `Tasks` (`tasks.dfy`): the `Task` record, the `Store` (rows in rowid order
  plus the AUTOINCREMENT counter), and the table invariant `Valid`.
- `TaskStore` (`task_store.dfy`): `addTask`, `getPendingTasks` and
  `updateTaskStatus` as pure functions on a `Store`. Each takes an `ok` flag
  that is false when the database raises. The source catches and logs those
  errors, so a failed insert or update leaves the table unchanged, and a
  failed query returns no tasks.
- `Executor` (`executor.dfy`): the body of the `processTasks` loop for one
  task. The network calls are not modelled. Instead, an `Outcome` value says
  what they did: whether the stored payload is `null`, whether the
  recipient address parsed, whether the transfer was confirmed, whether the
  swap went through, and which status writes the storage layer rejected. Given a task and its `Outcome`, the executor
  computes the path taken through the dispatch, the status writes it issues
  in order, and their effect on the table.
- `PollLoop` (`poll_loop.dfy`): one `processTasks` pass. It is a method that
  loops over the snapshot and applies the executor to each task. It also
  returns a log of the status writes it issued. The proofs follow the loop
  one task at a time, through the table (`PassTable`) and the log
  (`PassWrites`) after the first j tasks.

The model keeps the status rules exactly as the code has them:

- A failed transfer writes `failed` and then `continue`s, which skips the
  shared `completed` write. When the payload is `null`, the handler throws
  before any address is parsed, and its error report throws again, so the
  outer handler writes `failed` instead; the shared write is skipped too.
- A failed `dex_trade` writes `failed` and then reaches the shared write,
  which overwrites it with `completed`. So a `dex_trade` row ends `failed`
  only when that second write is itself lost (`TradeEndsFailedOnlyIfOverwriteLost`).
- A task of any other type runs no handler and ends `completed`.

Three further facts about index.js shape the model:

- A failed trade's `failed` write is always followed by the shared
  `completed` write (index.js:166-172); nothing skips it.
- The pending-task query has no `ORDER BY` (index.js:91), so SQLite returns
  rows in rowid order. Rows are never deleted, so rowid order is insertion
  order, which is id order, and the model takes the snapshot in that order.
- `updateTaskStatus` swallows storage errors (index.js:112-114), so a row
  keeps the status of the last write that landed (`LastApplied`), and a
  task whose writes were all lost is left `pending` after a pass
  (`LostWritesKeepPending`). `ProcessTasks` therefore
  states that every pending task ends `completed` or `failed` only for the
  tasks whose last status write reaches the table (`AllWritesLand` for all
  of them).

## Model

| member | source | states |
|---|---|---|
| Tasks.Empty | index.js:48 | the freshly created table has no rows and satisfies the table invariant (ids ascending, each between 1 and the AUTOINCREMENT counter) |
| Tasks.IdNamesOneRow | index.js:48 | in a valid table, the primary key names at most one row |
| TaskStore.AddTask | index.js:77-86 | a successful insert appends exactly one row, after the old rows, which stay unchanged; the new row has the given type and data, status `pending`, and an id that is the new counter value and above the old one; a storage error or an exhausted counter leaves the table unchanged; the table invariant is preserved |
| TaskStore.AddTaskIssuesFreshId | index.js:48 | the id of a newly inserted task is strictly greater than every id already in the table |
| TaskStore.AddedTaskIsPendingLast | index.js:77-104 | after a successful insert, the next query returns the tasks that were already pending, followed by the new task |
| TaskStore.PendingOf | index.js:90-93 | the filter keeps a row exactly when the row is `pending` (both directions) and never returns more rows than the table holds |
| TaskStore.GetPendingTasks | index.js:88-104 | a task is returned exactly when the query succeeds, the task is in the table and it is `pending`; so no `completed` or `failed` task is ever returned, and a failed query returns nothing |
| TaskStore.PendingOfAscending | index.js:90-99 | filtering keeps table order: when the ids of the rows ascend, so do the ids of the result |
| TaskStore.PendingTasksInTableOrder | index.js:88-104 | the pending tasks of a valid table come back in id order, each at most once |
| TaskStore.NothingPendingQueriesEmpty | index.js:90-93 | a table with no `pending` row yields an empty query |
| TaskStore.SetStatus | index.js:108-111 | the `UPDATE ... WHERE id = ?` keeps the length and every row's id, type and data; it changes only the status of the rows with that id, and sets it to the given value |
| TaskStore.UpdateTaskStatus | index.js:106-115 | only the status of the row with the given id changes, to the given value; every other row and the counter are untouched; a storage error or a missing id is a no-op; the table invariant is preserved |
| TaskStore.UpdatedTaskLeavesPending | index.js:88-115 | after a task is marked `completed` or `failed`, the next query does not return it |
| Executor.Dispatch | index.js:121-172 | the handler that runs depends only on `type`: `transfer` takes a transfer path, `dex_trade` a trade path, any other type no handler; a transfer with a `null` payload always escapes to the outer handler, and then `transferSol` is never attempted; otherwise `transferSol` is attempted exactly when the address parses; the transfer takes the success path exactly when the payload is present, the address parses and the transfer is confirmed; a trade takes the success path exactly when every Raydium call succeeded and the swap was confirmed |
| Executor.StatusWrites | index.js:121-176 | the status writes issued for one task, in order: a failed transfer (a `null` payload, an address that does not parse, or an unconfirmed transfer) writes only `failed`, either before `continue` or in the outer handler, so the shared write is skipped; a successful transfer writes `completed`; a failed trade writes `failed` and then `completed`; a confirmed trade and an unknown type write `completed`; every task gets one or two writes, none of them `pending` |
| Executor.FinalStatus | index.js:117-178 | a task's last written status is never `pending`; a transfer ends `failed` exactly when its payload is `null`, its address does not parse or its transfer is not confirmed, and an escaped transfer always ends `failed`; every other type ends `completed` |
| Executor.LastApplied | index.js:106-115 | a row written by a sequence of writes, some of which the table rejected, ends in the status of the last write that landed; when none landed it keeps the status it had; when the last write landed it holds that write's status |
| Executor.Issue | index.js:106-115 | issuing a task's writes in order changes only the status of the rows with that task's id; that status becomes the one of the last write that landed, or stays as it was when every write was lost; the log has one entry per write, in order, saying whether the table took it |
| Executor.TaskWrites | index.js:119-177 | the writes one task issues do not depend on the table: there are as many as status writes, each for this task and terminal, and the last one is the write of the task's final status, flagged with whether it landed |
| Executor.TaskWritesInOrder | index.js:119-177 | entry a of a task's log is its status write a, in the order the code issues them (so a failed trade logs `failed` before `completed`), flagged with whether the table took it |
| Executor.ProcessTask | index.js:106-177 | one loop iteration changes only the status of the row with the task's id; that row holds the status of the task's last write that landed, so the task's final status when the last write lands, and the row is unchanged when every write was lost; its log is the task's writes; the table invariant is preserved |
| Executor.TradeEndsFailedOnlyIfOverwriteLost | index.js:131-172 | a pending `dex_trade` row ends `failed` exactly when the trade failed, the `failed` write landed and the `completed` write after it was lost; it stays `pending` exactly when every write was lost |
| PollLoop.NextTaskIsNew | index.js:88-104 | in a snapshot taken in id order from a valid table, the next task is none of the earlier ones, and the only rows with its id are that task |
| PollLoop.KeptRowsStep | index.js:119-177 | handling the next snapshot task writes only that task's row, and only its status; every row of a task not yet handled stays as it was |
| PollLoop.DoneRowsStep | index.js:106-177 | after the next snapshot task is handled, its row and the rows of the tasks before it each hold the status of that task's last write that landed |
| PollLoop.PassOutcome | index.js:117-178 | after the whole snapshot is handled, rows outside the snapshot are unchanged; each snapshot row holds the status of its last write that landed, or is still `pending` when none did, so one whose last write landed holds its final status; if the query succeeded and every last write landed, no task is left `pending` |
| PollLoop.PrefixKept | index.js:119-177 | after the first j snapshot tasks, only the rows of those tasks have been written, and only in their status |
| PollLoop.PrefixDone | index.js:106-177 | after the first j snapshot tasks, each of their rows holds the status of its last write that landed |
| PollLoop.PrefixRows | index.js:119-177 | after the first j snapshot tasks, only the rows of those tasks have been written, only in their status, and each holds the status of its last write that landed |
| PollLoop.PrefixLogSorted | index.js:119 | the writes logged for the first j snapshot tasks are in id order |
| PollLoop.PrefixLogTerminal | index.js:119-177 | every write logged for the first j snapshot tasks is a terminal status for a row that is `pending` |
| PollLoop.PrefixLogCovers | index.js:119-177 | the log of the first j snapshot tasks holds, for each of them, the write of its final status |
| PollLoop.LogCoverage | index.js:117-119 | once the whole snapshot is handled, every task that was `pending` when the query succeeded has its final write in the log |
| PollLoop.LostWritesKeepPending | index.js:106-115 | after a pass, a task that was `pending` and all of whose status writes the table rejected is still exactly the row it was |
| PollLoop.ProcessTasks | index.js:117-178 | one pass writes only rows that were `pending` when the snapshot was taken, and only their status; a failed query changes nothing and logs nothing; each snapshot row ends in the status of its last write that landed, so in the final status its type and outcome decide when that write is the last one, and stays `pending` when every write was lost; if every last write lands, the next query is empty; the write log is in snapshot (id) order, every write is a terminal status for a task that was pending, and for every task that was pending the log holds the write of its final status |

## Left out

- The environment checks and `process.exit(1)` at index.js:5-33: startup plumbing with no task logic.
- Building the keypair from the secret key, the `Connection`, `getBalance` and the balance printout (index.js:35-38, 56-60): library and network calls.
- `transferSol` (index.js:62-75) and the Raydium pool, market, swap, send and confirm calls (index.js:133-165): network calls in a foreign library. Only their success or failure enters the model, through `Outcome`.
- The conversion `amount * LAMPORTS_PER_SOL` (index.js:67): floating-point arithmetic. A transfer's amount and recipient are part of the opaque `data`.
- `JSON.stringify` and `JSON.parse` of `data` (index.js:81, 98): `data` is opaque text. A payload that fails to parse makes the whole query fail, so it is folded into the query's `ok` flag.
- Whether the stored payload is `null` is not derived from `data`. It is the `payloadNull` field of `Outcome`. A `null` payload makes reading `task.data.to` throw, both at index.js:124 and again in the error report at index.js:127, so it always escapes to the outer handler.
- Executor.Dispatch: a `to` value with no string form (for example an object whose `toString` is not callable) also escapes to the outer handler, because the error report at index.js:127 throws while formatting it after anything in the handler threw (`new PublicKey` at index.js:124 or `transferSol` at index.js:125). It ends with the same single `failed` write, and the model labels it `TransferRejected(addressValid)`, so the escape itself is not recorded in `Path`.
- Database initialisation and libsql connection handling (index.js:42-53): storage setup. `Tasks.Empty` stands for the freshly created table.
- `main` (index.js:180-197): it seeds one transfer task and one `dex_trade` task and then repeats `processTasks` every 10 seconds forever. The model covers the operations it calls (`AddTask`, one `ProcessTasks` pass). The non-terminating loop and the timer are not modelled.
- Console logging throughout.
- generate-wallet.js: it only generates a keypair and prints it.
