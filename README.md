# csv_generator job engine in Dafny

This project models the job engine of the csv_generator web application in Dafny and proves properties of the model.

The backend takes a list of columns and a row count. It splits the rows into chunks of at most 10,000. A pool of worker threads generates each chunk into its own temporary CSV file. WebSocket broadcasts report a job's `starting` event and then its `completed` or `failed` event.

The frontend has two parts in the model:
- the row-count panel, which validates the requested count, shows a chunk estimate and prints numbers with thousands separators;
- the application state, which merges progress messages into the displayed status and edits the list of columns.

Modules, one per source file:

| module | file | source |
|---|---|---|
| `Js` | `js.dfy` | JavaScript semantics the others share: truthiness, `??`, `Math.ceil(n / d)`, truncating `%`, `String(n)`, `padStart`, `Array.prototype.filter` |
| `Messages` | `messages.dfy` | the field descriptor, a chunk task's payload and a worker's reply |
| `Pool` | `worker_pool.dfy` | `backend/worker-pool.js` |
| `Worker` | `worker.dfy` | `backend/worker.js` |
| `Server` | `server.dfy` | `backend/server.js` |
| `GenerationPanel` | `generation_panel.dfy` | `frontend/src/components/GenerationPanel.jsx` |
| `App` | `app.dfy` | `frontend/src/App.jsx` |

The worker pool is imperative in the source, and so is the model:
- `Pool.WorkerPool` is a class. It has the idle list, the task queue, the `activeWorkers` counter and a per-worker `currentTask` map as fields, and its methods update them in place.
- Node runs the pool's handlers one at a time, so the pool is a sequential state machine. Its events are a task submitted (`RunTask`), a worker's reply (`Complete`) and a worker's crash (`Crash`).
- Every method is specified by a step function on a `PoolState` snapshot. The pool's invariants are lemmas about those step functions:
  - the counter and the idle list add up to the pool size;
  - queued and running tasks are distinct and unsettled;
  - no task is lost;
  - an idle worker exists only when the queue is empty.

Two other parts are loops in the source and methods with loop invariants in the model:
- the planner (`Pool.DistributeCSVGeneration`);
- the row loop (`Worker.GenerateCSVChunk`).

The WebSocket client registry is a class too (`Server.ClientRegistry`). Its `BroadcastProgress` sweeps the clients in order. It delivers to open clients and deletes the others, exactly as `clients.forEach` with `clients.delete` does.

The frontend code is pure, and so is its model. React state setters become functions from the old state to the new one.

## Model

| member | source | states |
|---|---|---|
| Js.CeilDiv | frontend/src/components/GenerationPanel.jsx:88 | `Math.ceil(n / d)` is the least q with n <= q*d, for any sign of n |
| Js.NatToStringRoundTrip | backend/worker.js:9 | the decimal text of a non-negative index reads back as that index |
| Js.IntToString | backend/worker.js:9 | `${index}` renders non-negative numbers as their digits and puts a leading minus exactly on negative ones |
| Js.IntToStringInjective | backend/worker.js:9-11 | distinct indices render to distinct texts |
| Js.JsRem | backend/worker.js:12-13 | JavaScript `%` agrees with the mathematical remainder on non-negative operands, and keeps the dividend's sign otherwise |
| Js.PadStart | backend/worker.js:12 | `padStart(n, c)` keeps the text as a suffix, pads with `c` only, and reaches exactly length max(len, n) |
| Js.FilterMember | backend/server.js:145 | an element survives `filter` iff it was present and the predicate holds |
| Js.FilterIdempotent | frontend/src/App.jsx:156 | filtering twice by the same predicate is filtering once |
| Pool.ChunkCount | backend/worker-pool.js:109 | the number of chunks is the least k with totalRows <= 10000*k, and 0 for a non-positive count |
| Pool.Plan | backend/worker-pool.js:107-126 | the planner returns `ceil(totalRows/10000)` tasks with chunkIndex 0..k-1 in order, each of size `min(10000, totalRows - i*10000)` in 1..10000, all full except the last, each carrying the job's fields, totalRows, jobId and totalChunks |
| Pool.PlanPrefixSum | backend/worker-pool.js:112-124 | the first j chunk sizes add up to min(totalRows, 10000*j) |
| Pool.PlanCoversAllRows | backend/worker-pool.js:107-126 | the chunk sizes add up to exactly totalRows (0 for a non-positive count) |
| Pool.Plan25000 | backend/worker-pool.js:107-126 | 25,000 rows give chunks of 10,000, 10,000 and 5,000 rows |
| Pool.DistributeCSVGeneration | backend/worker-pool.js:107-127 | the planner's loop returns exactly the plan |
| Pool.Settle | backend/worker-pool.js:89-95 | a task's promise fulfils with the reply iff `result.success`, and otherwise rejects with `result.error` |
| Pool.InitialStateIsValid | backend/worker-pool.js:7-21 | after construction there are exactly poolSize idle workers, an empty queue and `activeWorkers == 0`, and every invariant holds |
| Pool.AddWorkerStepEffect | backend/worker-pool.js:23-76 | a worker with a fresh id and no task joins the live set and the back of the idle list; the queue, the counter, the tasks and the other workers are unchanged |
| Pool.RunTaskStepEffect | backend/worker-pool.js:85-105 | a submission records its payload under a fresh id; the front idle worker takes it and leaves the idle list, or, with no idle worker, it joins the back of the queue; counter plus idle list is conserved and no other binding changes |
| Pool.CompleteStepEffect | backend/worker-pool.js:28-47 | a reply settles the worker's task with `Settle(result)` unless it has settled already; the worker takes the queue's front task (FIFO) or, with an empty queue, rejoins the back of the idle list and the counter drops; other bindings are unchanged |
| Pool.CrashStepEffect | backend/worker-pool.js:50-64 | a crash drops the counter by one, swaps the dead worker for one fresh idle worker at the back of the idle list, leaves the queue alone, and rejects the dead worker's unsettled task with the error |
| Pool.RunTaskKeepsCounting | backend/worker-pool.js:85-105 | submitting a task keeps `activeWorkers + |idle| == poolSize` and "a live unbound worker is idle" |
| Pool.RunTaskKeepsBinding | backend/worker-pool.js:85-105 | after a submission, queued and running tasks are still submitted, unsettled and distinct, and no two live workers share a task |
| Pool.RunTaskKeepsNoLoss | backend/worker-pool.js:85-105 | after a submission every submitted task, the new one included, has settled, is queued or is running |
| Pool.RunTaskKeepsValid | backend/worker-pool.js:85-105 | submitting a task keeps the counting, binding and no-loss invariants and "idle worker ⇒ empty queue" |
| Pool.CompleteKeepsCounting | backend/worker-pool.js:28-47 | a reply keeps `activeWorkers + |idle| == poolSize` and "a live unbound worker is idle" |
| Pool.CompleteKeepsBinding | backend/worker-pool.js:28-47 | after a reply, queued and running tasks are still submitted, unsettled and distinct, and no two live workers share a task |
| Pool.CompleteKeepsNoLoss | backend/worker-pool.js:28-47 | after a reply, every submitted task has still settled, is queued or is running |
| Pool.CompleteKeepsValid | backend/worker-pool.js:28-47 | a reply settles a task that was unsettled, and keeps all invariants including "idle worker ⇒ empty queue" |
| Pool.CrashKeepsCounting | backend/worker-pool.js:50-64 | a busy worker's crash keeps `activeWorkers + |idle| == poolSize` and "a live unbound worker is idle" |
| Pool.CrashKeepsBinding | backend/worker-pool.js:50-64 | after a busy worker's crash, the tasks still running on live workers are distinct, unsettled and not queued |
| Pool.CrashKeepsNoLoss | backend/worker-pool.js:50-64 | after a busy worker's crash, every submitted task has settled (the crashed one by rejection), is queued or is running |
| Pool.CrashOfBusyWorkerKeepsValid | backend/worker-pool.js:50-64 | a busy worker's crash keeps every invariant, and the only new settlement is its own task rejected with the error |
| Pool.CrashOfIdleWorkerBreaksValid | backend/worker-pool.js:50-64 | an idle worker's crash leaves the dead worker in the idle list and makes `activeWorkers` one less than the number of busy workers |
| Pool.CrashStrandsQueuedTask | backend/worker-pool.js:50-64 | as written, when the only worker crashes while tasks wait, the replacement sits idle beside the unchanged queue and no worker is busy, so no reply is pending that would dequeue them |
| Pool.LaterTaskOvertakesStranded | backend/worker-pool.js:98-100 | after that crash, the next submission runs at once on the idle replacement, and only its reply hands the front queued task over: a later task overtakes every queued one, breaking FIFO order (also lines 36-38) |
| Pool.OneWorkerTwoTasks | backend/worker-pool.js:85-105 | a pool of one given two tasks runs the first and queues the second, which is the state the crash above strands |
| Pool.Without | backend/worker-pool.js:50-64 | dropping a worker from a distinct idle list removes exactly it and keeps the list distinct |
| Pool.IdleCrashFixedKeepsCounting | backend/worker-pool.js:50-64 | the corrected handler keeps the counting invariant when an idle worker dies |
| Pool.IdleCrashFixedKeepsBinding | backend/worker-pool.js:50-64 | the corrected handler keeps every binding when an idle worker dies |
| Pool.IdleCrashFixedKeepsNoLoss | backend/worker-pool.js:50-64 | the corrected handler loses no task when an idle worker dies |
| Pool.DrainKeepsValid | backend/worker-pool.js:36-38 | handing the front queued task to the front idle worker keeps every invariant and restores "idle worker ⇒ empty queue" after a one-worker gap |
| Pool.CrashFixedKeepsValid | backend/worker-pool.js:50-64 | the corrected crash handler, for a busy or an idle worker, keeps every invariant and "idle worker ⇒ empty queue" |
| Pool.CrashFixedRunsQueuedTask | backend/worker-pool.js:50-64 | with the corrected handler, the replacement worker runs the task the crash would have stranded |
| Pool.ActiveWorkersAreBusy | backend/worker-pool.js:29 | under the counting invariant `activeWorkers` is exactly the number of busy live workers, between 0 and poolSize (also lines 52, 79) |
| Pool.RunAllRecords | backend/worker-pool.js:129-135 | submitting a batch gives the tasks consecutive ids in order, records each one's payload, and touches nothing else recorded |
| Pool.RunAll | backend/worker-pool.js:129-133 | a batch of n submissions uses the next n task ids, settles nothing and leaves the live workers alone |
| Pool.RunAllQueues | backend/worker-pool.js:98-103 | a batch takes min(n, idle) idle workers from the front and appends the remaining tasks' ids to the back of the queue |
| Pool.RunAllBinds | backend/worker-pool.js:98-100 | the j-th idle worker runs the j-th task of the batch, and every other binding is unchanged (also lines 78-81) |
| Pool.RunAllKeepsValid | backend/worker-pool.js:129-135 | submitting a batch keeps every invariant and "idle worker ⇒ empty queue" |
| Pool.WorkerPool.constructor | backend/worker-pool.js:7-21 | the new pool is the initial state: poolSize idle workers, empty queue, zero counter |
| Pool.WorkerPool.AddWorker | backend/worker-pool.js:23-76 | a fresh worker with no task joins the back of the idle list |
| Pool.WorkerPool.ExecuteTask | backend/worker-pool.js:78-83 | the counter goes up by one and the worker is bound to the task |
| Pool.WorkerPool.RunTask | backend/worker-pool.js:85-105 | submitting returns a fresh task id and performs exactly the submit step, keeping the invariants |
| Pool.WorkerPool.Complete | backend/worker-pool.js:28-47 | a reply performs exactly the completion step, keeping the invariants |
| Pool.WorkerPool.Crash | backend/worker-pool.js:50-64 | a crash performs exactly the crash step; the invariants survive a busy worker's crash and fail after an idle worker's |
| Pool.WorkerPool.ExecuteParallel | backend/worker-pool.js:129-135 | one submission per task, in task order, with consecutive ids |
| Pool.WorkerPool.SubmitAll | backend/worker-pool.js:130-132 | the `tasks.map` loop returns consecutive fresh ids and leaves exactly the state of the batch's submissions, in order |
| Pool.WorkerPool.AllSettled | backend/worker-pool.js:134 | `Promise.allSettled` resolves iff every task has settled, and then gives one outcome per task in task order |
| Pool.WorkerPool.Destroy | backend/worker-pool.js:137-141 | the idle workers are terminated and the idle list and the queue are emptied |
| Worker.EmbeddedIndexIsUnique | backend/worker.js:9-11 | the `id`, `username`, `email`, `first_name`, `last_name` and default generators never give two row indices the same value (also lines 24-25, 42) |
| Worker.UsernameDecodes | backend/worker.js:10 | `username` is `user` followed by the index's digits |
| Worker.EmailIsUsernameAtExample | backend/worker.js:11 | `email` is the username followed by `@example.com` |
| Worker.StatusAlternates | backend/worker.js:13 | `status` is `Active` iff the index is even, and `Inactive` iff it is odd |
| Worker.DepartmentCycles | backend/worker.js:20-23 | `department` is the (index mod 6)-th name, repeating every six rows |
| Worker.PhoneShape | backend/worker.js:12 | `phone` is always 10 characters: `+91837` then the four digits of 1000 + (index mod 9000) |
| Worker.Phone | backend/worker.js:12 | for any index, the phone number has at least 10 characters and starts with `+91837` |
| Worker.FieldValue | backend/worker.js:8-26 | a kind with no generator gives `value_<index>`; only `score` and `created_date` are left unmodelled; `department` gives one of the six names for a non-negative index, and `undefined` only for a negative one (also lines 37-43) |
| Worker.BuildRowKeys | backend/worker.js:33-44 | a row has exactly one key per distinct field name |
| Worker.BuildRowLastWins | backend/worker.js:36-44 | under a duplicated name, the row holds the last such field's generator value |
| Worker.BuildRow | backend/worker.js:33-44 | every cell of a row sits under some field's name and holds that field's generator value for the row index |
| Worker.GenerateCSVChunk | backend/worker.js:29-50 | exactly max(0, n) rows, row i built for rowIndex startRow + i |
| Worker.FillRow | backend/worker.js:36-44 | the `fields.forEach` loop builds exactly the row `BuildRow` describes |
| Worker.ChunkFileNamesDistinct | backend/worker.js:71 | two chunks of a job never share a file name |
| Worker.ProcessCSVGeneration | backend/worker.js:52-98 | the chunk starts at chunkIndex*chunkSize and holds min(chunkSize, totalRows - startRow) rows; success carries chunkIndex, rowsGenerated and the `<jobId>_part_<chunkIndex>.csv` path, a failure carries chunkIndex and the message |
| Worker.PlannedChunkGeneratedInFull | backend/worker.js:55 | for every planned task, `rowsGenerated` equals its planned chunk size (also line 87) |
| Worker.Chunk25000Offset | backend/worker.js:54-55 | for 25,000 rows the third chunk starts at row 10,000 and holds 5,000 rows |
| Worker.LastRowNeverGenerated | backend/worker.js:54 | as written, when the count exceeds 10,000 and is not a multiple of it, no chunk generates the last row |
| Worker.IntendedChunksTile | backend/worker.js:54 | with startRow = chunkIndex*10000, every row 0..totalRows-1 lies in exactly one planned chunk |
| Server.HandleGenerateCsv | backend/server.js:114-129 | 400 `Fields required` and no job iff fields is missing, not an array or empty; otherwise success with a fresh jobId and a job for those fields and the row count |
| Server.EffectiveRowCount | backend/server.js:115 | a given number is kept, an absent count becomes 1000, and `null` plans no chunk |
| Server.NoServerRowCeiling | backend/server.js:115 | any row count with fields starts a job for that count, and an absent count means 1000 (also lines 122-128) |
| Server.RejectedFilterNonEmpty | backend/server.js:145 | the `rejected` filter is non-empty iff some chunk was rejected |
| Server.TerminalProgress | backend/server.js:145-159 | the terminal event is `failed`, at 0 with `Worker task failed`, iff some chunk was rejected, and `completed` at 100 otherwise |
| Server.JobEvents | backend/server.js:134-161 | a job emits `starting` at 0, then exactly one terminal event; `completed` iff every chunk was fulfilled, and never when one was rejected |
| Server.EmptyJobCompletes | backend/server.js:142-152 | a non-positive row count plans no chunk and completes |
| Server.ProgressMessage | backend/server.js:84-88 | the message holds `type: 'progress'` and `jobId`, then every progress field, which override them |
| Server.JobMessageCarriesEvent | backend/server.js:84-88 | every job event's message carries `type`, `jobId`, `status`, `progress` and `message` (also lines 136-159) |
| Server.OpenOnly | backend/server.js:90-96 | the sweep keeps only clients that were registered and are open, never more than there were |
| Server.Deliver | backend/server.js:90-92 | a broadcast only appends: every inbox keeps what it had as a prefix, and only an open client of the registry gains a new inbox |
| Server.OpenOnlySweeps | backend/server.js:90-96 | after the sweep the registry holds exactly the open clients, still distinct, and a second sweep changes nothing |
| Server.DeliverSkipsOthers | backend/server.js:90-95 | a client that is not open receives nothing |
| Server.DeliverReachesOpen | backend/server.js:90-92 | every open client receives the message exactly once |
| Server.RemoveIdDrops | backend/server.js:74-76 | a disconnect removes exactly the closed client |
| Server.ClientRegistry.constructor | backend/server.js:69-71 | the registry starts empty |
| Server.ClientRegistry.Connect | backend/server.js:69-71 | a new connection is appended open, at the end of the registry's order |
| Server.ClientRegistry.Disconnect | backend/server.js:74-77 | a `close` removes that client and keeps the ids distinct |
| Server.ClientRegistry.BroadcastProgress | backend/server.js:83-97 | the sweep leaves exactly the open clients, in order, and sends the message to each of them and to no one else |
| Server.StartJob | backend/server.js:134-143 | a job broadcasts `starting`, then submits its plan's tasks to the pool in order |
| Server.FinishJob | backend/server.js:145-159 | once the results have settled, the job broadcasts its single terminal event |
| GenerationPanel.ReplaceIsGrouped | frontend/src/components/GenerationPanel.jsx:28 | the regex replace inserts commas exactly as grouping by threes from the right does |
| GenerationPanel.GroupedDigits | frontend/src/components/GenerationPanel.jsx:27-29 | deleting the commas gives back the digits |
| GenerationPanel.GroupedCommas | frontend/src/components/GenerationPanel.jsx:28 | no leading comma; the first group has 1 to 3 digits and every later group exactly 3 |
| GenerationPanel.FormatNumber | frontend/src/components/GenerationPanel.jsx:27-29 | `formatNumber(n)` is n's digits grouped by threes from the right: deleting the commas gives back the digits, and commas stand exactly every fourth place from the end |
| GenerationPanel.FormatMaxRows | frontend/src/components/GenerationPanel.jsx:12 | the maximum 100000 prints as `100,000` (also line 73) |
| GenerationPanel.RequestedRows | frontend/src/components/GenerationPanel.jsx:10 | a non-empty custom input wins; with an empty input the selected count is used |
| GenerationPanel.HandleGenerate | frontend/src/components/GenerationPanel.jsx:9-20 | `onGenerate` is called iff 1 <= rows <= maxRows, with exactly the requested rows; over the maximum the `Maximum … rows allowed` alert, below 1 the `Please enter at least 1 row` alert |
| GenerationPanel.QuickSelect | frontend/src/components/GenerationPanel.jsx:22-25 | a quick pick sets the count and clears the custom input |
| GenerationPanel.CustomInput | frontend/src/components/GenerationPanel.jsx:69-72 | typing stores the input, and a non-empty input also becomes the selected count |
| GenerationPanel.ClearingKeepsTypedCount | frontend/src/components/GenerationPanel.jsx:10 | after a number is typed and cleared, the requested rows are still that number (also lines 69-72) |
| GenerationPanel.ChunkEstimate | frontend/src/components/GenerationPanel.jsx:88 | the estimate k is the least with rows <= 10000*k, and equals the server's chunk count for any count of at least 1 |
| GenerationPanel.EstimateMatchesPlan | frontend/src/components/GenerationPanel.jsx:88 | for every count the panel lets through, the shown estimate equals the number of chunks the server plans |
| GenerationPanel.QuickPickEstimates | frontend/src/components/GenerationPanel.jsx:49 | the quick picks show 1, 1, 1 and 5 chunks (also line 88) |
| App.HandleProgressUpdate | frontend/src/App.jsx:120-140 | a new job's status has exactly the seven keys, with falsy inputs replaced by their defaults; for the same job, data's keys override, the others are kept, and progress falls back to the previous one only when it is null or undefined |
| App.FreshStatus | frontend/src/App.jsx:122-131 | a new job's status has exactly the seven keys, carries data's jobId, and replaces falsy `status`, `progress` and the other fields by `processing`, 0 and the empty string |
| App.MergedStatus | frontend/src/App.jsx:133-138 | for the same job, the keys are prev's, data's and `progress`; data's values win, prev's other values stay, and progress falls back to prev's only when data's is null or undefined |
| App.SameJobUpdateIdempotent | frontend/src/App.jsx:133-138 | receiving the same message twice for the job on screen is receiving it once |
| App.OtherJobForgetsPrevious | frontend/src/App.jsx:122-131 | a message for another job ignores the previous status entirely |
| App.AddField | frontend/src/App.jsx:145-153 | appends one field `field_<n+1>` of type `id` and order n, and keeps the existing fields |
| App.RemoveField | frontend/src/App.jsx:155-157 | no field with the removed id remains, every remaining field was in the list, and the list never grows |
| App.RemoveFieldKeepsOrder | frontend/src/App.jsx:155-157 | removing an id from a concatenation is removing it from each part, in order, so the survivors keep their list order and their repeats |
| App.RemoveFieldSingle | frontend/src/App.jsx:156 | a single field survives iff its id differs; with the order lemma this fixes the result of `filter` on every list |
| App.RemoveFieldDrops | frontend/src/App.jsx:155-157 | a field survives iff it was present and has another id |
| App.RemoveFieldIdempotent | frontend/src/App.jsx:155-157 | removing an id twice is removing it once |
| App.RemoveUndoesAdd | frontend/src/App.jsx:145-157 | removing the field just added with a fresh id restores the list |
| App.UpdateField | frontend/src/App.jsx:159-161 | length and order are preserved, fields with another id are unchanged, and matching fields take exactly the given properties |
| App.UpdateFieldIdempotent | frontend/src/App.jsx:159-161 | applying the same update twice is applying it once |
| App.FormatFields | frontend/src/App.jsx:174-178 | the sent fields keep name and type, renumber `order` to list position, and drop the id |
| App.GenerateCSV | frontend/src/App.jsx:170-197 | the status is set to `starting` at 0 iff the server accepts the fields, and stays null with the `Fields required` alert otherwise |
| App.GenerateStartsListedFields | frontend/src/App.jsx:180-183 | an accepted submission starts a job for the listed fields, in list order, and for the requested rows |
| App.ReceiveShowsEvent | frontend/src/App.jsx:120-140 | a broadcast for the job on screen shows that event's status, progress and message and keeps the job id |
| App.PanelShowsJobOutcome | frontend/src/App.jsx:120-140 | when the axios reply is handled before the job's two broadcasts, the status shows the job's terminal event, `completed` at 100 iff every chunk was fulfilled, and "Generate" is enabled again (also lines 185-191) |
| App.LateReplyHidesOutcome | frontend/src/App.jsx:180-191 | when both broadcasts are handled before the axios reply, the terminal event is shown first and then overwritten by `starting`, which keeps "Generate" disabled (GenerationPanel.jsx line 95) whatever the outcome |

## Left out

- Thread transport and file I/O are not modelled: `new Worker`, `postMessage`, directory creation and the `csv-writer` write. A worker's reply and a crash are input events to the pool. The write's outcome is an input to `Worker.ProcessCSVGeneration`: no error, or the error message.
- Pool.InitialStateIsValid: the pool size is taken as non-negative (`nat`). A negative `poolSize` makes the constructor's loop add no worker while `poolSize` stays negative; this is not modelled.
- Real parallelism is not modelled. The pool is a sequential state machine over submit, reply and crash events. The `'exit'` handler only logs and is omitted.
- Pool.WorkerPool.Crash: the worker's `error.message` is a string input, and the console output is dropped.
- Worker.GenerateCSVChunk: the `score` and `created_date` generators read `Math.random` and the clock, so their cells are `Unmodelled(kind)`.
- Worker.FieldValue: the lookup `fieldGenerators[field.type]` is modelled over the ten generator names only. A `type` naming an inherited `Object` property such as `toString` is not modelled.
- Worker.BuildRowKeys: a row is modelled as a plain map from name to cell. A field named `__proto__` makes `row[field.name] = …` (backend/worker.js:39, 42) call the prototype setter, which ignores a string, so the real row has no such key; the model gives it one.
- Worker.ProcessCSVGeneration: `path.join(tempDir, name)` is modelled as `tempDir + "/" + name`, without path normalisation. The worker's outer message listener and its uncaught-exception reply are not modelled.
- Server.HandleGenerateCsv: `rowCount` is absent, `null` or an integer. Strings, fractions and other JSON values are not modelled. Express routing, CORS and the MongoDB calls are left out.
- Server.HandleGenerateCsv: the route accepts any non-empty array (backend/server.js:118), but `Server.FieldsArg.ArrayOf` holds only well-formed field records. An item `null` makes the worker throw at `field.type` (backend/worker.js:37), which its catch turns into a failed chunk; an item `{}` writes the key `undefined`. Neither is modelled.
- Server.NoServerRowCeiling: row counts, indices and chunk arithmetic are unbounded integers. JavaScript numbers are doubles: `${index}` switches to exponent form from 1e21, and arithmetic is inexact beyond 2^53. "Any row count" means any count below those bounds.
- Server.StartJob: the route's fire-and-forget call and the `await` on `Promise.allSettled` split the job into `Server.StartJob` (broadcast `starting`, then submit the plan) and `Server.FinishJob` (broadcast the terminal event once the results have settled). The await in between is not modelled.
- Server.ClientRegistry.BroadcastProgress: `JSON.stringify` is not modelled, so a message is the object before serialisation. `ws.send` is an append to that client's inbox. A socket's `readyState` is an input the environment sets (`SetState`).
- GenerationPanel.HandleGenerate: `maxRows.toLocaleString()` is modelled as the en-US grouping `GenerationPanel.FormatNumber`.
- GenerationPanel.CustomInput: the custom input is modelled by its decimal value, so the panel's comparisons, its estimate and `parseInt` all see the same number. That holds for plain decimal digit text only. Exponent text such as `5e4` is compared and estimated as 50000 (5 chunks) while `parseInt` gives 5, so 5 rows are requested; `GenerationPanel.EstimateMatchesPlan` and `GenerationPanel.CustomInput` do not cover such input. A fractional input such as `1.5` is likewise compared as a fraction and truncated by `parseInt`; this is not modelled.
- App.HandleProgressUpdate: `!==` on `jobId` compares values structurally. The source compares objects by reference, but jobIds are always strings.
- App.GenerateCSV: the axios call is replaced by the server's route function, and a network error is not modelled. The requested rows are a decimal value, and `parseInt(rowCount)` is taken to give that value back, which holds for plain decimal digit text but not for exponent text such as `5e4` (see `GenerationPanel.CustomInput`).
- App.PanelShowsJobOutcome: fixes one interleaving: the axios reply is handled first, then the `starting` broadcast, then the terminal one. The route replies before it starts the job, but the broadcasts travel on the WebSocket and may be handled before the awaited reply; `App.LateReplyHidesOutcome` covers the order with both broadcasts first. The orders where the reply falls between the two broadcasts are not modelled.
- `reorderFields` is not modelled. It replaces the list with the result of a drag-and-drop library that is not part of this model.
- Not modelled: the history and worker-status panels, `formatTime` (floating point), the field-manager UI, the health check, the download route, the WebSocket reconnect, the MongoDB schema, `run.js` and the build configuration. They are rendering, persistence or plumbing.
- No merge step is modelled: the code writes chunk files and never concatenates them.

## Findings

| source | as written | input that shows it | evidently intended | confidence | as-written member | corrected member |
|---|---|---|---|---|---|---|
| backend/worker-pool.js:50-64 | The `'error'` handler pushes a replacement worker onto the idle list without taking a queued task. An idle worker that dies stays in the idle list. | A pool of one worker gets two tasks, and the busy worker crashes. Task 1 waits in the queue beside the idle replacement, and no reply is pending. It waits until a later submission's task completes, and that task overtakes it (FIFO broken). With no later submission the job's `Promise.allSettled` never settles. | The dead worker leaves the idle list. The replacement takes the front queued task, as the `'message'` handler does. | medium, not executed | Pool.CrashStrandsQueuedTask | Pool.CrashFixedKeepsValid |
| backend/worker.js:54 | `startRow = chunkIndex * chunkSize` uses the chunk's own size, which the planner sets to `min(10000, remaining)` (backend/worker-pool.js:113-118). | totalRows = 25000: chunk 2 has size 5000 and starts at row 10000, so rows 10000..14999 are generated twice and rows 20000..24999 never. | `startRow = chunkIndex * 10000`, so that the chunks tile rows 0..totalRows-1. | high, not executed | Worker.LastRowNeverGenerated | Worker.IntendedChunksTile |

Both halves of each finding are in the model:
- The pool class `Pool.WorkerPool` and the worker method `Worker.ProcessCSVGeneration` keep the behaviour as written, because they model the program.
- The corrected definitions stand beside them with their properties proved:
  - `Pool.CrashFixedStep` and `Pool.CrashFixedRunsQueuedTask`;
  - `Worker.IntendedStartRow` with `Worker.IntendedChunksTile`.
- `Pool.OneWorkerTwoTasks` shows that a pool of one given two tasks reaches the state that `Pool.CrashStrandsQueuedTask` strands.
- `Pool.LaterTaskOvertakesStranded` shows what frees the stranded task as written: a later submission runs first on the idle replacement, and its reply hands the queued task over.
- `Pool.CrashOfIdleWorkerBreaksValid` shows the idle-worker half of the first finding.
