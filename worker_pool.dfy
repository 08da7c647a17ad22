/** The chunk planner and the worker pool of `backend/worker-pool.js`.

    The planner splits a row count into chunks of at most 10,000 rows. The pool
    owns a list of idle workers, a FIFO queue of waiting tasks, a counter of busy
    workers and, per worker, the task it is running. Node delivers the pool's
    handlers one at a time, so the pool is a sequential state machine driven by
    three events: a task is submitted (`RunTask`), a worker replies (`Complete`,
    the `'message'` handler) and a worker crashes (`Crash`, the `'error'`
    handler). A task's promise is modelled by the `settled` map: a task id
    appears there, with its outcome, once its callback has run. */
module Pool {
  import opened Js
  import opened Messages

  // ---------------------------------------------------------------------------
  // Chunk planner: distributeCSVGeneration
  // ---------------------------------------------------------------------------

  const MaxChunkSize: int := 10000

  /** How many times the planner's loop runs: `Math.ceil(totalRows / 10000)`,
      and none at all when that is not positive. */
  function ChunkCount(totalRows: int): (k: nat)
    ensures totalRows <= 0 ==> k == 0
    ensures totalRows > 0 ==> (k - 1) * MaxChunkSize < totalRows <= k * MaxChunkSize
  {
    Max(0, CeilDiv(totalRows, MaxChunkSize))
  }

  function PlannedChunkSize(totalRows: int, i: nat): int {
    Min(MaxChunkSize, totalRows - i * MaxChunkSize)
  }

  function PlannedTask(fields: seq<Field>, totalRows: int, jobId: string, i: nat): TaskData {
    TaskData(fields, totalRows, PlannedChunkSize(totalRows, i), jobId, i, CeilDiv(totalRows, MaxChunkSize))
  }

  /** The task list the planner returns for one job. */
  function Plan(fields: seq<Field>, totalRows: int, jobId: string): (tasks: seq<TaskData>)
    ensures |tasks| == ChunkCount(totalRows)
    ensures forall i :: 0 <= i < |tasks| ==>
      && tasks[i].chunkIndex == i
      && tasks[i].fields == fields && tasks[i].totalRows == totalRows && tasks[i].jobId == jobId
      && tasks[i].totalChunks == |tasks|
      && 1 <= tasks[i].chunkSize <= MaxChunkSize
      && tasks[i].chunkSize == Min(MaxChunkSize, totalRows - i * MaxChunkSize)
      && (i < |tasks| - 1 ==> tasks[i].chunkSize == MaxChunkSize)
  {
    var k := ChunkCount(totalRows);
    seq(k, i requires 0 <= i < k => PlannedTask(fields, totalRows, jobId, i))
  }

  function SumChunkSizes(tasks: seq<TaskData>): int {
    if tasks == [] then 0 else SumChunkSizes(tasks[..|tasks| - 1]) + tasks[|tasks| - 1].chunkSize
  }

  lemma {:induction false} PlanPrefixSum(fields: seq<Field>, totalRows: int, jobId: string, j: nat)
    requires j <= ChunkCount(totalRows)
    ensures SumChunkSizes(Plan(fields, totalRows, jobId)[..j]) == Min(Max(0, totalRows), j * MaxChunkSize)
  {
    var tasks := Plan(fields, totalRows, jobId);
    if j > 0 {
      PlanPrefixSum(fields, totalRows, jobId, j - 1);
      assert tasks[..j][..j - 1] == tasks[..j - 1];
      var k := ChunkCount(totalRows);
      var before := (j - 1) * MaxChunkSize;
      assert before <= (k - 1) * MaxChunkSize < totalRows;
      assert SumChunkSizes(tasks[..j - 1]) == before;
      assert tasks[j - 1].chunkSize == Min(MaxChunkSize, totalRows - before);
      assert SumChunkSizes(tasks[..j]) == SumChunkSizes(tasks[..j - 1]) + tasks[j - 1].chunkSize;
      assert j * MaxChunkSize == before + MaxChunkSize;
    }
  }

  /** The chunk sizes add up to the requested row count (to nothing when it is not positive). */
  lemma PlanCoversAllRows(fields: seq<Field>, totalRows: int, jobId: string)
    ensures SumChunkSizes(Plan(fields, totalRows, jobId)) == Max(0, totalRows)
  {
    var tasks := Plan(fields, totalRows, jobId);
    PlanPrefixSum(fields, totalRows, jobId, |tasks|);
    assert tasks[..|tasks|] == tasks;
  }

  /** The worked example: 25,000 rows become chunks of 10,000, 10,000 and 5,000 rows. */
  lemma Plan25000(fields: seq<Field>, jobId: string)
    ensures var tasks := Plan(fields, 25000, jobId);
      |tasks| == 3 && tasks[0].chunkSize == 10000 && tasks[1].chunkSize == 10000 && tasks[2].chunkSize == 5000
  {
    assert ChunkCount(25000) == 3;
  }

  /** distributeCSVGeneration: a loop that appends one task per chunk. */
  method DistributeCSVGeneration(fields: seq<Field>, totalRows: int, jobId: string) returns (tasks: seq<TaskData>)
    ensures tasks == Plan(fields, totalRows, jobId)
  {
    var totalChunks := CeilDiv(totalRows, MaxChunkSize);
    tasks := [];
    var i := 0;
    while i < totalChunks
      invariant 0 <= i <= ChunkCount(totalRows)
      invariant |tasks| == i
      invariant forall j :: 0 <= j < i ==> tasks[j] == PlannedTask(fields, totalRows, jobId, j)
    {
      var chunkSize := Min(MaxChunkSize, totalRows - i * MaxChunkSize);
      tasks := tasks + [TaskData(fields, totalRows, chunkSize, jobId, i, totalChunks)];
      i := i + 1;
    }
  }

  // ---------------------------------------------------------------------------
  // Worker pool
  // ---------------------------------------------------------------------------

  type WorkerId = nat
  type TaskId = nat

  /** One entry of `Promise.allSettled`'s result. */
  datatype Outcome = Fulfilled(value: WorkerResult) | Rejected(reason: string)

  /** The callback `runTask` stores with each task: resolve on success, reject with the error otherwise. */
  function Settle(result: WorkerResult): (o: Outcome)
    ensures o.Fulfilled? <==> result.Success?
    ensures o.Fulfilled? ==> o.value == result
    ensures o.Rejected? ==> o.reason == result.error
  {
    if result.Success? then Fulfilled(result) else Rejected(result.error)
  }

  predicate Distinct<T(==)>(s: seq<T>) {
    forall i, j :: 0 <= i < j < |s| ==> s[i] != s[j]
  }

  function Elements<T>(s: seq<T>): set<T> {
    set x | x in s
  }

  lemma {:induction false} DistinctCard<T>(s: seq<T>)
    requires Distinct(s)
    ensures |Elements(s)| == |s|
  {
    if s != [] {
      var t := s[..|s| - 1];
      DistinctCard(t);
      assert Elements(s) == Elements(t) + {s[|s| - 1]};
      assert s[|s| - 1] !in t;
    }
  }

  /** A snapshot of the pool's fields (see class WorkerPool). */
  datatype PoolState = PoolState(
    poolSize: nat,
    idle: seq<WorkerId>,
    taskQueue: seq<TaskId>,
    activeWorkers: int,
    currentTask: map<WorkerId, Option<TaskId>>,
    live: set<WorkerId>,
    nextWorker: nat,
    nextTask: nat,
    taskData: map<TaskId, TaskData>,
    settled: map<TaskId, Outcome>)
  {
    /** Structure every event keeps, whatever happens: fresh ids are fresh, live
        workers have a binding slot, and the idle list holds distinct unbound workers. */
    ghost predicate Wf() {
      && (forall w :: w in currentTask ==> w < nextWorker)
      && (forall t :: t in taskData ==> t < nextTask)
      && live <= currentTask.Keys
      && Distinct(idle)
      && (forall i :: 0 <= i < |idle| ==> idle[i] in currentTask && currentTask[idle[i]] == None)
    }

    /** The pool keeps `poolSize` live workers; a live worker is idle exactly when it
        has no task, and the counter plus the idle list make up the pool. */
    ghost predicate Counting() {
      && Wf()
      && |live| == poolSize
      && activeWorkers + |idle| == poolSize
      && (forall i :: 0 <= i < |idle| ==> idle[i] in live)
      && (forall w :: w in live && currentTask[w] == None ==> w in idle)
    }

    /** Queued and bound tasks are submitted and not yet settled; no task is both
        queued and bound, and no two live workers share a task. */
    ghost predicate Binding() {
      && Wf()
      && Distinct(taskQueue)
      && (forall i :: 0 <= i < |taskQueue| ==> taskQueue[i] in taskData && taskQueue[i] !in settled)
      && (forall t :: t in settled ==> t in taskData)
      && (forall w :: w in live && currentTask[w].Some? ==>
            currentTask[w].value in taskData && currentTask[w].value !in settled && currentTask[w].value !in taskQueue)
      && (forall w1, w2 :: w1 in live && w2 in live && w1 != w2 && currentTask[w1].Some? ==> currentTask[w1] != currentTask[w2])
    }

    /** No task is lost: every submitted task has settled, waits in the queue or runs on a live worker. */
    ghost predicate NoLoss() {
      && Wf()
      && forall t :: t in taskData ==> t in settled || t in taskQueue || exists w :: w in live && currentTask[w] == Some(t)
    }

    ghost predicate Valid() {
      Counting() && Binding() && NoLoss()
    }

    /** An idle worker exists only when no task waits. */
    predicate Drained() {
      idle != [] ==> taskQueue == []
    }

    /** The live workers that are running a task. */
    function Busy(): set<WorkerId> {
      set w | w in live && w in currentTask && currentTask[w].Some?
    }
  }

  function Range(n: nat): (r: seq<WorkerId>)
    ensures |r| == n && forall i :: 0 <= i < n ==> r[i] == i
  {
    seq(n, i requires 0 <= i => i)
  }

  /** The state right after the constructor: workers 0 .. poolSize-1, all idle, in order. */
  function InitialState(poolSize: nat): PoolState {
    var ids := Range(poolSize);
    PoolState(poolSize, ids, [], 0,
      (map w | w in Elements(ids) :: None), Elements(ids),
      poolSize, 0, map[], map[])
  }

  /** The constructor's loop: one more `addWorker` extends the initial state by one worker. */
  lemma InitialStateGrows(i: nat, poolSize: nat)
    ensures AddWorkerStep(InitialState(i).(poolSize := poolSize)) == InitialState(i + 1).(poolSize := poolSize)
  {
    assert Range(i + 1) == Range(i) + [i];
    assert Elements(Range(i + 1)) == Elements(Range(i)) + {i};
  }

  /** addWorker: a fresh worker joins the back of the idle list. */
  function AddWorkerStep(s: PoolState): PoolState
  {
    s.(nextWorker := s.nextWorker + 1,
       live := s.live + {s.nextWorker},
       currentTask := s.currentTask[s.nextWorker := None],
       idle := s.idle + [s.nextWorker])
  }

  /** runTask: the new task gets the next id; the front idle worker takes it, or it
      joins the back of the queue. */
  function RunTaskStep(s: PoolState, data: TaskData): PoolState
  {
    var t := s.nextTask;
    var s1 := s.(nextTask := t + 1, taskData := s.taskData[t := data]);
    if s.idle != [] then
      s1.(idle := s.idle[1..], activeWorkers := s.activeWorkers + 1, currentTask := s.currentTask[s.idle[0] := Some(t)])
    else
      s1.(taskQueue := s.taskQueue + [t])
  }

  /** The `'message'` handler: the worker's binding is cleared and the worker takes the
      front queued task or rejoins the idle list; then the finished task's callback
      settles its promise (a promise that has settled ignores it). */
  function CompleteStep(s: PoolState, w: WorkerId, result: WorkerResult): PoolState
    requires w in s.currentTask && s.currentTask[w].Some?
  {
    var t := s.currentTask[w].value;
    var settled := if t in s.settled then s.settled else s.settled[t := Settle(result)];
    if s.taskQueue != [] then
      s.(taskQueue := s.taskQueue[1..], currentTask := s.currentTask[w := Some(s.taskQueue[0])], settled := settled)
    else
      s.(idle := s.idle + [w], currentTask := s.currentTask[w := None], activeWorkers := s.activeWorkers - 1, settled := settled)
  }

  /** The `'error'` handler: the counter drops, the dead worker leaves the live set, a
      fresh worker joins the idle list (the queue is not drained), and the task the
      dead worker was bound to, if any, is rejected with the crash message. The dead
      worker keeps its stale binding and, if it was idle, its place in the idle list. */
  function CrashStep(s: PoolState, w: WorkerId, error: string): PoolState
    requires w in s.currentTask
  {
    var s1 := AddWorkerStep(s.(live := s.live - {w}, activeWorkers := s.activeWorkers - 1));
    match s.currentTask[w]
    case None => s1
    case Some(t) => if t in s.settled then s1 else s1.(settled := s.settled[t := Settle(Failure(None, error))])
  }

  /** What `addWorker` does: a worker with a fresh id and no task joins the live set and
      the back of the idle list, and nothing else changes. */
  lemma AddWorkerStepEffect(s: PoolState)
    ensures var r := AddWorkerStep(s);
      && r.idle == s.idle + [s.nextWorker] && r.live == s.live + {s.nextWorker}
      && r.nextWorker > s.nextWorker && s.nextWorker in r.currentTask && r.currentTask[s.nextWorker] == None
      && (s.Wf() ==> s.nextWorker !in s.currentTask && r.currentTask.Keys == s.currentTask.Keys + {s.nextWorker})
      && (forall w :: w in s.currentTask && w != s.nextWorker ==> w in r.currentTask && r.currentTask[w] == s.currentTask[w])
      && r.taskQueue == s.taskQueue && r.activeWorkers == s.activeWorkers && r.settled == s.settled && r.taskData == s.taskData
  {
  }

  /** What `runTask` does: the payload is recorded under a fresh id; the front idle worker
      takes the task, or it joins the back of the queue; counter plus idle list is
      conserved and no other binding changes. */
  lemma RunTaskStepEffect(s: PoolState, data: TaskData)
    ensures var r := RunTaskStep(s, data);
      && r.nextTask == s.nextTask + 1 && r.taskData == s.taskData[s.nextTask := data]
      && (s.idle != [] ==>
            && r.idle == s.idle[1..] && r.taskQueue == s.taskQueue
            && s.idle[0] in r.currentTask && r.currentTask[s.idle[0]] == Some(s.nextTask))
      && (s.idle == [] ==> r.idle == [] && r.taskQueue == s.taskQueue + [s.nextTask] && r.currentTask == s.currentTask)
      && r.activeWorkers + |r.idle| == s.activeWorkers + |s.idle|
      && (forall w :: w in s.currentTask && (s.idle == [] || w != s.idle[0]) ==> w in r.currentTask && r.currentTask[w] == s.currentTask[w])
      && r.settled == s.settled && r.live == s.live && r.poolSize == s.poolSize && r.nextWorker == s.nextWorker
  {
  }

  /** What the `'message'` handler does: the finished task settles unless it already had;
      the worker takes the front queued task (FIFO) or, with an empty queue, rejoins the
      back of the idle list and the counter drops; other bindings are unchanged. */
  lemma CompleteStepEffect(s: PoolState, w: WorkerId, result: WorkerResult)
    requires w in s.currentTask && s.currentTask[w].Some?
    ensures var r := CompleteStep(s, w, result);
      var t := s.currentTask[w].value;
      && r.settled.Keys == s.settled.Keys + {t}
      && (t !in s.settled ==> r.settled[t] == Settle(result))
      && (forall u :: u in s.settled ==> r.settled[u] == s.settled[u])
      && (s.taskQueue != [] ==>
            && w in r.currentTask && r.currentTask[w] == Some(s.taskQueue[0])
            && r.taskQueue == s.taskQueue[1..] && r.idle == s.idle && r.activeWorkers == s.activeWorkers)
      && (s.taskQueue == [] ==>
            && w in r.currentTask && r.currentTask[w] == None
            && r.idle == s.idle + [w] && r.taskQueue == [] && r.activeWorkers == s.activeWorkers - 1)
      && (forall v :: v in s.currentTask && v != w ==> v in r.currentTask && r.currentTask[v] == s.currentTask[v])
      && r.live == s.live && r.taskData == s.taskData && r.nextTask == s.nextTask && r.nextWorker == s.nextWorker
  {
  }

  /** What the `'error'` handler does: the counter drops by one, one fresh idle worker
      joins the back of the idle list, the queue is left alone, the dead worker keeps its
      binding, and its unsettled task is rejected with the error. */
  lemma CrashStepEffect(s: PoolState, w: WorkerId, error: string)
    requires w in s.currentTask
    ensures var r := CrashStep(s, w, error);
      && r.activeWorkers == s.activeWorkers - 1
      && r.live == (s.live - {w}) + {s.nextWorker} && r.idle == s.idle + [s.nextWorker]
      && r.taskQueue == s.taskQueue && r.taskData == s.taskData
      && s.nextWorker in r.currentTask && r.currentTask[s.nextWorker] == None
      && (w != s.nextWorker ==> w in r.currentTask && r.currentTask[w] == s.currentTask[w])
      && (s.currentTask[w].Some? && s.currentTask[w].value !in s.settled ==>
            r.settled == s.settled[s.currentTask[w].value := Rejected(error)])
      && (s.currentTask[w].None? || s.currentTask[w].value in s.settled ==> r.settled == s.settled)
  {
  }

  lemma InitialStateIsValid(poolSize: nat)
    ensures var s := InitialState(poolSize);
      && s.Valid() && s.Drained()
      && |s.idle| == poolSize && s.taskQueue == [] && s.activeWorkers == 0 && s.Busy() == {}
  {
    var s := InitialState(poolSize);
    DistinctCard(s.idle);
  }

  lemma AddWorkerKeepsWf(s: PoolState)
    requires s.Wf()
    ensures AddWorkerStep(s).Wf()
  {
  }

  /** runTask keeps the structure. */
  lemma RunTaskKeepsWf(s: PoolState, data: TaskData)
    requires s.Wf()
    ensures RunTaskStep(s, data).Wf()
    ensures s.Drained() ==> RunTaskStep(s, data).Drained()
  {
    if s.idle != [] {
      var s' := RunTaskStep(s, data);
      forall i | 0 <= i < |s'.idle|
        ensures s'.idle[i] in s'.currentTask && s'.currentTask[s'.idle[i]] == None
      {
        assert s'.idle[i] == s.idle[i + 1] != s.idle[0];
      }
    }
  }

  lemma RunTaskKeepsCounting(s: PoolState, data: TaskData)
    requires s.Counting()
    ensures RunTaskStep(s, data).Counting()
  {
    RunTaskKeepsWf(s, data);
    if s.idle != [] {
      var s' := RunTaskStep(s, data);
      forall w | w in s'.live && s'.currentTask[w] == None
        ensures w in s'.idle
      {
        assert w in s.idle && w != s.idle[0];
      }
    }
  }

  lemma RunTaskKeepsBinding(s: PoolState, data: TaskData)
    requires s.Counting() && s.Binding()
    ensures RunTaskStep(s, data).Binding()
  {
    RunTaskKeepsWf(s, data);
    assert s.nextTask !in s.taskData;
  }

  lemma RunTaskKeepsNoLoss(s: PoolState, data: TaskData)
    requires s.Counting() && s.NoLoss()
    ensures RunTaskStep(s, data).NoLoss()
  {
    RunTaskKeepsWf(s, data);
    var s' := RunTaskStep(s, data);
    var t := s.nextTask;
    forall u | u in s'.taskData
      ensures u in s'.settled || u in s'.taskQueue || exists v :: v in s'.live && s'.currentTask[v] == Some(u)
    {
      if u == t {
        if s.idle != [] {
          assert s'.currentTask[s.idle[0]] == Some(u);
        }
      } else if u !in s.settled && u !in s.taskQueue {
        var v :| v in s.live && s.currentTask[v] == Some(u);
        assert s'.currentTask[v] == Some(u);
      }
    }
  }

  /** runTask keeps the invariant, and keeps "an idle worker means an empty queue". */
  lemma RunTaskKeepsValid(s: PoolState, data: TaskData)
    requires s.Valid()
    ensures RunTaskStep(s, data).Valid()
    ensures s.Drained() ==> RunTaskStep(s, data).Drained()
  {
    RunTaskKeepsCounting(s, data);
    RunTaskKeepsBinding(s, data);
    RunTaskKeepsNoLoss(s, data);
  }

  lemma CompleteKeepsCounting(s: PoolState, w: WorkerId, result: WorkerResult)
    requires s.Counting() && w in s.live && s.currentTask[w].Some?
    ensures CompleteStep(s, w, result).Counting()
  {
    var s' := CompleteStep(s, w, result);
    assert w !in s.idle;
    forall v | v in s'.live && s'.currentTask[v] == None
      ensures v in s'.idle
    {
      if v != w {
        assert v in s.idle;
      }
    }
  }

  lemma CompleteKeepsBinding(s: PoolState, w: WorkerId, result: WorkerResult)
    requires s.Counting() && s.Binding() && w in s.live && s.currentTask[w].Some?
    ensures CompleteStep(s, w, result).Binding()
  {
    var s' := CompleteStep(s, w, result);
    var t := s.currentTask[w].value;
    assert w !in s.idle;
    if s.taskQueue != [] {
      var q := s.taskQueue[0];
      assert q !in s.taskQueue[1..];
      forall v | v in s'.live && s'.currentTask[v].Some?
        ensures s'.currentTask[v].value in s'.taskData && s'.currentTask[v].value !in s'.settled
        ensures s'.currentTask[v].value !in s'.taskQueue
      {
        if v != w {
          assert s.currentTask[v] != s.currentTask[w];
        }
      }
    }
  }

  lemma CompleteKeepsNoLoss(s: PoolState, w: WorkerId, result: WorkerResult)
    requires s.Counting() && s.Binding() && s.NoLoss() && w in s.live && s.currentTask[w].Some?
    ensures CompleteStep(s, w, result).NoLoss()
  {
    var s' := CompleteStep(s, w, result);
    var t := s.currentTask[w].value;
    assert w !in s.idle;
    forall u | u in s'.taskData
      ensures u in s'.settled || u in s'.taskQueue || exists v :: v in s'.live && s'.currentTask[v] == Some(u)
    {
      if u == t || u in s.settled {
      } else if u in s.taskQueue {
        if u == s.taskQueue[0] {
          assert s'.currentTask[w] == Some(u);
        } else {
          assert u in s.taskQueue[1..];
        }
      } else {
        var v :| v in s.live && s.currentTask[v] == Some(u);
        assert v != w && s'.currentTask[v] == Some(u);
      }
    }
  }

  /** Completion keeps the structure, and "an idle worker means an empty queue". */
  lemma CompleteKeepsWf(s: PoolState, w: WorkerId, result: WorkerResult)
    requires s.Wf() && w in s.currentTask && s.currentTask[w].Some?
    ensures CompleteStep(s, w, result).Wf()
    ensures s.Drained() ==> CompleteStep(s, w, result).Drained()
  {
    assert w !in s.idle;
  }

  /** On completion the finished task had not settled before (it settles exactly once),
      and the invariant and "an idle worker means an empty queue" are kept. */
  lemma CompleteKeepsValid(s: PoolState, w: WorkerId, result: WorkerResult)
    requires s.Valid() && w in s.live && s.currentTask[w].Some?
    ensures s.currentTask[w].value !in s.settled
    ensures CompleteStep(s, w, result).Valid()
    ensures s.Drained() ==> CompleteStep(s, w, result).Drained()
  {
    CompleteKeepsCounting(s, w, result);
    CompleteKeepsBinding(s, w, result);
    CompleteKeepsNoLoss(s, w, result);
  }

  /** A crash keeps the structure. */
  lemma CrashKeepsWf(s: PoolState, w: WorkerId, error: string)
    requires s.Wf() && w in s.currentTask
    ensures CrashStep(s, w, error).Wf()
  {
    AddWorkerKeepsWf(s.(live := s.live - {w}, activeWorkers := s.activeWorkers - 1));
  }

  /** Replacing one member of a set by a newcomer keeps its size. */
  lemma SwapKeepsCard(a: set<WorkerId>, out: WorkerId, in_: WorkerId)
    requires out in a && in_ !in a
    ensures |a - {out} + {in_}| == |a|
  {
    var rest := a - {out};
    assert a == rest + {out};
  }

  lemma CrashKeepsCounting(s: PoolState, w: WorkerId, error: string)
    requires s.Counting() && w in s.live && s.currentTask[w].Some?
    ensures CrashStep(s, w, error).Counting()
  {
    var s' := CrashStep(s, w, error);
    var nw := s.nextWorker;
    assert nw !in s.live;
    assert w !in s.idle;
    CrashKeepsWf(s, w, error);
    SwapKeepsCard(s.live, w, nw);
    forall v | v in s'.live && s'.currentTask[v] == None
      ensures v in s'.idle
    {
      if v != nw {
        assert v in s.idle;
      }
    }
  }

  lemma CrashKeepsBinding(s: PoolState, w: WorkerId, error: string)
    requires s.Counting() && s.Binding() && w in s.live && s.currentTask[w].Some?
    ensures CrashStep(s, w, error).Binding()
  {
    var s' := CrashStep(s, w, error);
    var nw := s.nextWorker;
    assert nw !in s.live;
    CrashKeepsWf(s, w, error);
    forall v | v in s'.live && s'.currentTask[v].Some?
      ensures s'.currentTask[v].value in s'.taskData && s'.currentTask[v].value !in s'.settled
      ensures s'.currentTask[v].value !in s'.taskQueue
    {
      assert v != w && v != nw;
      assert s.currentTask[v] != s.currentTask[w];
    }
  }

  lemma CrashKeepsNoLoss(s: PoolState, w: WorkerId, error: string)
    requires s.Counting() && s.NoLoss() && w in s.live && s.currentTask[w].Some?
    ensures CrashStep(s, w, error).NoLoss()
  {
    var s' := CrashStep(s, w, error);
    var t := s.currentTask[w].value;
    var nw := s.nextWorker;
    assert nw !in s.live;
    CrashKeepsWf(s, w, error);
    forall u | u in s'.taskData
      ensures u in s'.settled || u in s'.taskQueue || exists v :: v in s'.live && s'.currentTask[v] == Some(u)
    {
      if u == t || u in s.settled || u in s.taskQueue {
      } else {
        var v :| v in s.live && s.currentTask[v] == Some(u);
        assert v != w && v != nw && s'.currentTask[v] == Some(u);
      }
    }
  }

  /** A crash of a busy worker keeps the invariant: the pool is back to `poolSize`
      live workers, and the crashed task is the only one whose promise settles. */
  lemma CrashOfBusyWorkerKeepsValid(s: PoolState, w: WorkerId, error: string)
    requires s.Valid() && w in s.live && s.currentTask[w].Some?
    ensures var s' := CrashStep(s, w, error);
      && s'.Valid()
      && s'.settled == s.settled[s.currentTask[w].value := Rejected(error)]
  {
    CrashKeepsCounting(s, w, error);
    CrashKeepsBinding(s, w, error);
    CrashKeepsNoLoss(s, w, error);
  }

  /** A crash of an idle worker leaves the dead worker in the idle list and the counter
      one below the number of busy workers. */
  lemma CrashOfIdleWorkerBreaksValid(s: PoolState, w: WorkerId, error: string)
    requires s.Valid() && w in s.live && s.currentTask[w] == None
    ensures var s' := CrashStep(s, w, error);
      && !s'.Valid()
      && w in s'.idle && w !in s'.live
      && s'.activeWorkers == |s'.Busy()| - 1
  {
    var s' := CrashStep(s, w, error);
    var i :| 0 <= i < |s.idle| && s.idle[i] == w;
    assert s'.idle[i] == w && w !in s'.live;
    assert s'.Busy() == s.Busy();
    ActiveWorkersAreBusy(s);
  }

  /** As written, a crash of the only worker while a task waits leaves the pool with an
      idle replacement, the same non-empty queue and no busy worker. No reply is pending,
      so the queued tasks wait for a later submission (see `LaterTaskOvertakesStranded`);
      with no later submission they never run and their promises never settle. */
  lemma CrashStrandsQueuedTask(s: PoolState, w: WorkerId, error: string)
    requires s.Valid() && s.poolSize == 1 && w in s.live && s.currentTask[w].Some? && s.taskQueue != []
    ensures var s' := CrashStep(s, w, error);
      && s'.Valid() && s'.idle == [s.nextWorker] && s'.taskQueue == s.taskQueue
      && s'.Busy() == {} && !s'.Drained()
  {
    assert s.live == {w} by {
      var rest := s.live - {w};
      assert s.live == rest + {w};
    }
    assert s.idle == [] by {
      ActiveWorkersAreBusy(s);
      assert w in s.Busy();
    }
    CrashOfBusyWorkerKeepsValid(s, w, error);
    var s' := CrashStep(s, w, error);
    assert s'.Busy() == {} by {
      assert s'.live == {s.nextWorker} && s'.currentTask[s.nextWorker] == None;
    }
  }

  /** What frees the stranded tasks: the next submission takes the idle replacement and
      runs at once, and its reply hands the front queued task to the worker. The later
      task thus overtakes every queued one, which breaks the queue's FIFO order. */
  lemma LaterTaskOvertakesStranded(s: PoolState, w: WorkerId, error: string, data: TaskData, result: WorkerResult)
    requires s.Valid() && s.poolSize == 1 && w in s.live && s.currentTask[w].Some? && s.taskQueue != []
    ensures var s2 := RunTaskStep(CrashStep(s, w, error), data);
      && s.nextWorker in s2.currentTask && s2.currentTask[s.nextWorker] == Some(s.nextTask)
      && s2.taskQueue == s.taskQueue
      && (forall i :: 0 <= i < |s.taskQueue| ==> s.taskQueue[i] < s.nextTask)
      && var s3 := CompleteStep(s2, s.nextWorker, result);
        && s.nextTask in s3.settled
        && s3.currentTask[s.nextWorker] == Some(s.taskQueue[0]) && s3.taskQueue == s.taskQueue[1..]
  {
    CrashStrandsQueuedTask(s, w, error);
    var s1 := CrashStep(s, w, error);
    RunTaskStepEffect(s1, data);
    var s2 := RunTaskStep(s1, data);
    assert s2.taskQueue == s.taskQueue && s2.currentTask[s.nextWorker] == Some(s.nextTask);
    CompleteStepEffect(s2, s.nextWorker, result);
    assert forall i :: 0 <= i < |s.taskQueue| ==> s.taskQueue[i] < s.nextTask by {
      assert s.Binding() && s.Wf();
    }
  }

  /** That state is reached by one worker and two submissions: the first task runs, the
      second waits. */
  lemma OneWorkerTwoTasks(data: TaskData)
    ensures var s2 := RunTaskStep(RunTaskStep(InitialState(1), data), data);
      && s2.Valid() && s2.poolSize == 1 && s2.idle == [] && s2.taskQueue == [1] && s2.live == {0}
      && s2.currentTask[0] == Some(0) && s2.nextWorker == 1
  {
    InitialStateIsValid(1);
    var s1 := RunTaskStep(InitialState(1), data);
    RunTaskKeepsValid(InitialState(1), data);
    RunTaskKeepsValid(s1, data);
    assert InitialState(1).idle == [0];
  }

  /** The idle list without one worker. */
  function Without(ws: seq<WorkerId>, w: WorkerId): (r: seq<WorkerId>)
    ensures Elements(r) == Elements(ws) - {w}
    ensures Distinct(ws) ==> Distinct(r)
    ensures Distinct(ws) ==> |r| == if w in ws then |ws| - 1 else |ws|
  {
    if ws == [] then []
    else
      var rest := Without(ws[1..], w);
      assert Elements(ws) == {ws[0]} + Elements(ws[1..]);
      if ws[0] == w then rest
      else
        var r := [ws[0]] + rest;
        assert Elements(r) == {ws[0]} + Elements(rest) && r[1..] == rest;
        assert Distinct(ws) ==> ws[0] !in Elements(ws[1..]);
        r
  }

  /** A crash of an idle worker as evidently intended: the dead worker leaves the idle
      list, the counter is untouched, and a fresh worker joins the idle list. */
  function IdleCrashFixedStep(s: PoolState, w: WorkerId): PoolState {
    AddWorkerStep(s.(live := s.live - {w}, idle := Without(s.idle, w)))
  }

  /** One hand-off: when a worker is idle and a task waits, the front idle worker takes
      the front queued task. */
  function DrainStep(s: PoolState): PoolState {
    if s.idle != [] && s.taskQueue != [] then
      s.(idle := s.idle[1..], taskQueue := s.taskQueue[1..], activeWorkers := s.activeWorkers + 1,
         currentTask := s.currentTask[s.idle[0] := Some(s.taskQueue[0])])
    else s
  }

  /** The `'error'` handler as evidently intended: the dead worker is dropped whether it
      was busy or idle, and a queued task is handed to the idle pool after the replacement
      joins it. */
  function CrashFixedStep(s: PoolState, w: WorkerId, error: string): PoolState
    requires w in s.currentTask
  {
    DrainStep(if s.currentTask[w].Some? then CrashStep(s, w, error) else IdleCrashFixedStep(s, w))
  }

  lemma IdleCrashFixedKeepsCounting(s: PoolState, w: WorkerId)
    requires s.Counting() && w in s.live && s.currentTask[w] == None
    ensures IdleCrashFixedStep(s, w).Counting()
  {
    var s' := IdleCrashFixedStep(s, w);
    var nw := s.nextWorker;
    var kept := Without(s.idle, w);
    assert nw !in s.live && nw !in Elements(s.idle);
    assert w in s.idle && w in Elements(s.idle);
    var rest := s.live - {w};
    assert s.live == rest + {w};
    assert s'.live == rest + {nw};
    forall i | 0 <= i < |kept|
      ensures kept[i] in rest && s.currentTask[kept[i]] == None
    {
      assert kept[i] in Elements(kept);
      var j :| 0 <= j < |s.idle| && s.idle[j] == kept[i];
    }
    forall v | v in s'.live && s'.currentTask[v] == None
      ensures v in s'.idle
    {
      if v != nw {
        assert v in s.idle && v in Elements(s.idle);
        assert v in Elements(kept);
      }
    }
  }

  lemma IdleCrashFixedKeepsBinding(s: PoolState, w: WorkerId)
    requires s.Counting() && s.Binding() && w in s.live && s.currentTask[w] == None
    ensures IdleCrashFixedStep(s, w).Binding()
  {
    IdleCrashFixedKeepsCounting(s, w);
    assert s.nextWorker !in s.live;
  }

  lemma IdleCrashFixedKeepsNoLoss(s: PoolState, w: WorkerId)
    requires s.Counting() && s.NoLoss() && w in s.live && s.currentTask[w] == None
    ensures IdleCrashFixedStep(s, w).NoLoss()
  {
    IdleCrashFixedKeepsCounting(s, w);
    var s' := IdleCrashFixedStep(s, w);
    var nw := s.nextWorker;
    assert nw !in s.live;
    forall u | u in s'.taskData
      ensures u in s'.settled || u in s'.taskQueue || exists v :: v in s'.live && s'.currentTask[v] == Some(u)
    {
      if u !in s.settled && u !in s.taskQueue {
        var v :| v in s.live && s.currentTask[v] == Some(u);
        assert v != w && v != nw && s'.currentTask[v] == Some(u);
      }
    }
  }

  lemma DrainKeepsCounting(s: PoolState)
    requires s.Counting() && s.idle != [] && s.taskQueue != []
    ensures DrainStep(s).Counting()
  {
    var w := s.idle[0];
    assert w !in s.idle[1..];
  }

  lemma DrainKeepsBinding(s: PoolState)
    requires s.Counting() && s.Binding() && s.idle != [] && s.taskQueue != []
    ensures DrainStep(s).Binding()
  {
    DrainKeepsCounting(s);
    var s' := DrainStep(s);
    var w := s.idle[0];
    var q := s.taskQueue[0];
    assert q !in s.taskQueue[1..];
    forall v | v in s'.live && s'.currentTask[v].Some?
      ensures s'.currentTask[v].value in s'.taskData && s'.currentTask[v].value !in s'.settled
      ensures s'.currentTask[v].value !in s'.taskQueue
    {
    }
  }

  lemma DrainKeepsNoLoss(s: PoolState)
    requires s.Counting() && s.NoLoss() && s.idle != [] && s.taskQueue != []
    ensures DrainStep(s).NoLoss()
  {
    DrainKeepsCounting(s);
    var s' := DrainStep(s);
    var w := s.idle[0];
    var q := s.taskQueue[0];
    forall u | u in s'.taskData
      ensures u in s'.settled || u in s'.taskQueue || exists v :: v in s'.live && s'.currentTask[v] == Some(u)
    {
      if u == q {
        assert s'.currentTask[w] == Some(u);
      } else if u in s.taskQueue {
        assert u in s.taskQueue[1..];
      } else if u !in s.settled {
        var v :| v in s.live && s.currentTask[v] == Some(u);
        assert v != w && s'.currentTask[v] == Some(u);
      }
    }
  }

  /** A hand-off keeps the invariant, and with at most one idle worker leaves none idle
      while a task waits. */
  lemma DrainKeepsValid(s: PoolState)
    requires s.Valid()
    ensures DrainStep(s).Valid()
    ensures |s.idle| <= 1 || s.taskQueue == [] ==> DrainStep(s).Drained()
  {
    if s.idle != [] && s.taskQueue != [] {
      DrainKeepsCounting(s);
      DrainKeepsBinding(s);
      DrainKeepsNoLoss(s);
    }
  }

  /** The corrected handler keeps the invariant for a crash of any live worker, busy or
      idle, and keeps "an idle worker means an empty queue". */
  lemma CrashFixedKeepsValid(s: PoolState, w: WorkerId, error: string)
    requires s.Valid() && w in s.live
    ensures CrashFixedStep(s, w, error).Valid()
    ensures s.Drained() ==> CrashFixedStep(s, w, error).Drained()
  {
    if s.currentTask[w].Some? {
      CrashOfBusyWorkerKeepsValid(s, w, error);
      DrainKeepsValid(CrashStep(s, w, error));
    } else {
      IdleCrashFixedKeepsCounting(s, w);
      IdleCrashFixedKeepsBinding(s, w);
      IdleCrashFixedKeepsNoLoss(s, w);
      DrainKeepsValid(IdleCrashFixedStep(s, w));
    }
  }

  /** With the correction, the one-worker scenario above hands the queued task to the
      replacement. */
  lemma CrashFixedRunsQueuedTask(data: TaskData, error: string)
    ensures var s := CrashFixedStep(RunTaskStep(RunTaskStep(InitialState(1), data), data), 0, error);
      && s.Valid() && s.Drained() && s.taskQueue == [] && s.currentTask[1] == Some(1)
  {
    OneWorkerTwoTasks(data);
    CrashFixedKeepsValid(RunTaskStep(RunTaskStep(InitialState(1), data), data), 0, error);
  }

  /** At any time, the counter equals the number of busy live workers, so at most
      `poolSize` tasks run at once. */
  lemma ActiveWorkersAreBusy(s: PoolState)
    requires s.Counting()
    ensures s.activeWorkers == |s.Busy()|
    ensures 0 <= s.activeWorkers <= s.poolSize
  {
    var idleSet := Elements(s.idle);
    DistinctCard(s.idle);
    assert s.live == s.Busy() + idleSet;
    assert s.Busy() * idleSet == {};
  }

  /** Consecutive task ids from `start`. */
  function Ids(start: nat, n: nat): (r: seq<TaskId>)
    ensures |r| == n && forall i :: 0 <= i < n ==> r[i] == start + i
  {
    seq(n, i requires 0 <= i => start + i)
  }

  lemma IdsSnoc(start: nat, n: nat)
    ensures Ids(start, n + 1) == Ids(start, n) + [start + n]
  {
  }

  /** executeParallel's submissions: runTask on every task, in order. */
  function RunAll(s: PoolState, tasks: seq<TaskData>): (r: PoolState)
    ensures r.nextTask == s.nextTask + |tasks|
    ensures r.settled == s.settled && r.live == s.live
    decreases |tasks|
  {
    if tasks == [] then s else RunTaskStep(RunAll(s, tasks[..|tasks| - 1]), tasks[|tasks| - 1])
  }

  /** `r`, reached from `s` by submitting `tasks`, has the structure, holds every task
      under consecutive fresh ids, keeps the older tasks, and has the same settled
      promises, live workers and set of workers. */
  ghost predicate Recorded(s: PoolState, tasks: seq<TaskData>, r: PoolState) {
    && r.Wf()
    && r.nextTask == s.nextTask + |tasks|
    && (forall t :: s.nextTask <= t < s.nextTask + |tasks| ==> t in r.taskData && r.taskData[t] == tasks[t - s.nextTask])
    && (forall t :: t in s.taskData ==> t in r.taskData && r.taskData[t] == s.taskData[t])
    && r.settled == s.settled && r.live == s.live
    && r.nextWorker == s.nextWorker
    && r.currentTask.Keys == s.currentTask.Keys
  }

  /** The inductive step of `RunAllRecords`: one more submission. */
  lemma RunAllRecordsStep(s: PoolState, tasks: seq<TaskData>, p: PoolState)
    requires tasks != [] && Recorded(s, tasks[..|tasks| - 1], p)
    ensures Recorded(s, tasks, RunTaskStep(p, tasks[|tasks| - 1]))
  {
    var n := |tasks|;
    var front := tasks[..n - 1];
    RunTaskKeepsWf(p, tasks[n - 1]);
    var r := RunTaskStep(p, tasks[n - 1]);
    forall t | s.nextTask <= t < s.nextTask + n
      ensures t in r.taskData && r.taskData[t] == tasks[t - s.nextTask]
    {
      if t < s.nextTask + n - 1 {
        assert front[t - s.nextTask] == tasks[t - s.nextTask];
      }
    }
  }

  /** Submitting a batch records every task under consecutive fresh ids and touches
      neither the settled promises, the live workers nor the set of workers. */
  lemma {:induction false} RunAllRecords(s: PoolState, tasks: seq<TaskData>)
    requires s.Wf()
    ensures Recorded(s, tasks, RunAll(s, tasks))
  {
    if tasks != [] {
      var front := tasks[..|tasks| - 1];
      RunAllRecords(s, front);
      RunAllRecordsStep(s, tasks, RunAll(s, front));
    }
  }

  /** Submitting a batch: the first tasks take the idle workers front first and the
      rest join the back of the queue in submission order. */
  lemma {:induction false} RunAllQueues(s: PoolState, tasks: seq<TaskData>)
    ensures RunAll(s, tasks).idle == s.idle[Min(|tasks|, |s.idle|)..]
    ensures RunAll(s, tasks).taskQueue == s.taskQueue + Ids(s.nextTask + Min(|tasks|, |s.idle|), |tasks| - Min(|tasks|, |s.idle|))
    ensures RunAll(s, tasks).activeWorkers == s.activeWorkers + Min(|tasks|, |s.idle|)
  {
    var n := |tasks|;
    if n > 0 {
      var front := tasks[..n - 1];
      RunAllQueues(s, front);
      var p := RunAll(s, front);
      assert RunAll(s, tasks) == RunTaskStep(p, tasks[n - 1]);
      var k := Min(n, |s.idle|);
      if p.idle != [] {
        assert s.idle[n - 1..][1..] == s.idle[n..];
      } else {
        assert Ids(s.nextTask + k, n - 1 - k) + [s.nextTask + n - 1] == Ids(s.nextTask + k, n - k);
      }
    }
  }

  /** In `r`, reached from `s` by submitting `k` tasks, the j-th idle worker of `s` runs
      the j-th task and no other worker's binding has changed. */
  ghost predicate Bound(s: PoolState, k: nat, r: PoolState) {
    && r.currentTask.Keys == s.currentTask.Keys
    && (forall j :: 0 <= j < Min(k, |s.idle|) ==> s.idle[j] in r.currentTask && r.currentTask[s.idle[j]] == Some(s.nextTask + j))
    && (forall v :: v in s.currentTask && v !in s.idle[..Min(k, |s.idle|)] ==> r.currentTask[v] == s.currentTask[v])
  }

  /** The inductive step of `RunAllBinds`: the n-th submission binds the n-th idle worker, if any. */
  lemma RunAllBindsStep(s: PoolState, n: nat, p: PoolState, data: TaskData)
    requires s.Wf() && n >= 1 && Bound(s, n - 1, p)
    requires p.idle == s.idle[Min(n - 1, |s.idle|)..] && p.nextTask == s.nextTask + n - 1
    ensures Bound(s, n, RunTaskStep(p, data))
  {
    var r := RunTaskStep(p, data);
    if p.idle != [] {
      assert p.idle[0] == s.idle[n - 1];
      assert s.idle[..n] == s.idle[..n - 1] + [s.idle[n - 1]];
      forall j | 0 <= j < n
        ensures r.currentTask[s.idle[j]] == Some(s.nextTask + j)
      {
        if j < n - 1 {
          assert s.idle[j] != s.idle[n - 1];
        }
      }
      forall v | v in s.currentTask && v !in s.idle[..n]
        ensures r.currentTask[v] == s.currentTask[v]
      {
        assert v !in s.idle[..n - 1] && v != s.idle[n - 1];
      }
    }
  }

  /** Submitting a batch: the j-th idle worker runs the j-th task, and no other
      worker's binding changes. */
  lemma {:induction false} RunAllBinds(s: PoolState, tasks: seq<TaskData>)
    requires s.Wf()
    ensures Bound(s, |tasks|, RunAll(s, tasks))
  {
    var n := |tasks|;
    if n > 0 {
      var front := tasks[..n - 1];
      RunAllBinds(s, front);
      RunAllQueues(s, front);
      RunAllBindsStep(s, n, RunAll(s, front), tasks[n - 1]);
    }
  }

  /** Submitting a batch keeps the invariant and "an idle worker means an empty queue". */
  lemma {:induction false} RunAllKeepsValid(s: PoolState, tasks: seq<TaskData>)
    requires s.Valid()
    ensures RunAll(s, tasks).Valid()
    ensures s.Drained() ==> RunAll(s, tasks).Drained()
  {
    if tasks != [] {
      var front := tasks[..|tasks| - 1];
      RunAllKeepsValid(s, front);
      RunTaskKeepsValid(RunAll(s, front), tasks[|tasks| - 1]);
    }
  }

  class WorkerPool {
    const poolSize: nat
    /** `workers`: the idle workers, front first. */
    var idle: seq<WorkerId>
    /** `taskQueue`: tasks waiting for a worker, oldest first. */
    var taskQueue: seq<TaskId>
    var activeWorkers: int
    /** Each worker object's `currentTask` field, for every worker ever created. */
    var currentTask: map<WorkerId, Option<TaskId>>
    /** Workers that have neither crashed nor been terminated. */
    var live: set<WorkerId>
    var nextWorker: nat
    var nextTask: nat
    /** The `data` of every task submitted so far. */
    var taskData: map<TaskId, TaskData>
    /** The outcome of every task whose promise has settled. */
    var settled: map<TaskId, Outcome>

    ghost function State(): PoolState
      reads this
    {
      PoolState(poolSize, idle, taskQueue, activeWorkers, currentTask, live, nextWorker, nextTask, taskData, settled)
    }

    ghost predicate Wf()
      reads this
    {
      State().Wf()
    }

    ghost predicate Valid()
      reads this
    {
      State().Valid()
    }

    predicate Drained()
      reads this
    {
      idle != [] ==> taskQueue == []
    }

    constructor (poolSize: nat)
      ensures State() == InitialState(poolSize)
      ensures Valid() && Drained()
    {
      this.poolSize := poolSize;
      idle := [];
      taskQueue := [];
      activeWorkers := 0;
      currentTask := map[];
      live := {};
      nextWorker := 0;
      nextTask := 0;
      taskData := map[];
      settled := map[];
      new;
      var i := 0;
      while i < poolSize
        invariant 0 <= i <= poolSize && this.poolSize == poolSize
        invariant State() == InitialState(i).(poolSize := poolSize)
      {
        AddWorker();
        InitialStateGrows(i, poolSize);
        i := i + 1;
      }
      InitialStateIsValid(poolSize);
    }

    /** addWorker: a fresh worker joins the back of the idle list. */
    method AddWorker()
      modifies this`nextWorker, this`live, this`currentTask, this`idle
      ensures State() == AddWorkerStep(old(State()))
    {
      var w := nextWorker;
      nextWorker := nextWorker + 1;
      live := live + {w};
      currentTask := currentTask[w := None];
      idle := idle + [w];
    }

    /** executeTask: bind the task to the worker and count the worker as busy. */
    method ExecuteTask(w: WorkerId, t: TaskId)
      modifies this`activeWorkers, this`currentTask
      ensures activeWorkers == old(activeWorkers) + 1
      ensures currentTask == old(currentTask)[w := Some(t)]
    {
      activeWorkers := activeWorkers + 1;
      currentTask := currentTask[w := Some(t)];
    }

    /** runTask: returns the new task's id, the handle of its promise. */
    method RunTask(data: TaskData) returns (t: TaskId)
      requires Wf()
      modifies this
      ensures t == old(nextTask) && t !in old(taskData)
      ensures State() == RunTaskStep(old(State()), data)
      ensures Wf()
      ensures old(Valid()) ==> Valid()
      ensures old(Drained()) ==> Drained()
    {
      ghost var s0 := State();
      t := nextTask;
      nextTask := nextTask + 1;
      taskData := taskData[t := data];
      if |idle| > 0 {
        var w := idle[0];
        idle := idle[1..];
        ExecuteTask(w, t);
      } else {
        taskQueue := taskQueue + [t];
      }
      assert State() == RunTaskStep(s0, data);
      RunTaskKeepsWf(s0, data);
      if s0.Valid() {
        RunTaskKeepsValid(s0, data);
      }
    }

    /** The `'message'` handler for a reply from a busy worker. */
    method Complete(w: WorkerId, result: WorkerResult)
      requires Wf() && w in live && currentTask[w].Some?
      modifies this
      ensures State() == CompleteStep(old(State()), w, result)
      ensures Wf()
      ensures old(Valid()) ==> Valid()
      ensures old(Drained()) ==> Drained()
    {
      ghost var s0 := State();
      Reply(w, result);
      CompleteKeepsWf(s0, w, result);
      if s0.Valid() {
        CompleteKeepsValid(s0, w, result);
      }
    }

    /** The body of the `'message'` handler: free or rebind the worker, then settle the
        finished task's promise. */
    method Reply(w: WorkerId, result: WorkerResult)
      requires w in currentTask && currentTask[w].Some?
      modifies this`activeWorkers, this`currentTask, this`taskQueue, this`idle, this`settled
      ensures State() == CompleteStep(old(State()), w, result)
    {
      activeWorkers := activeWorkers - 1;
      var finished := currentTask[w].value;
      currentTask := currentTask[w := None];
      if |taskQueue| > 0 {
        var next := taskQueue[0];
        taskQueue := taskQueue[1..];
        ExecuteTask(w, next);
      } else {
        idle := idle + [w];
      }
      if finished !in settled {
        settled := settled[finished := Settle(result)];
      }
    }

    /** The `'error'` handler for a crash of a live worker. */
    method Crash(w: WorkerId, error: string)
      requires Wf() && w in live
      modifies this
      ensures State() == CrashStep(old(State()), w, error)
      ensures Wf()
      ensures old(Valid()) && old(currentTask[w]).Some? ==> Valid()
      ensures old(Valid()) && old(currentTask[w]).None? ==> !Valid()
    {
      ghost var s0 := State();
      activeWorkers := activeWorkers - 1;
      var failed := currentTask[w];
      live := live - {w};
      AddWorker();
      if failed.Some? && failed.value !in settled {
        settled := settled[failed.value := Settle(Failure(None, error))];
      }
      assert State() == CrashStep(s0, w, error);
      CrashKeepsWf(s0, w, error);
      if s0.Valid() {
        if failed.Some? {
          CrashOfBusyWorkerKeepsValid(s0, w, error);
        } else {
          CrashOfIdleWorkerBreaksValid(s0, w, error);
        }
      }
    }

    /** executeParallel: submit every task in order (`tasks.map(runTask)`); the
        handles name the promises that `Promise.allSettled` waits for. */
    method ExecuteParallel(tasks: seq<TaskData>) returns (ids: seq<TaskId>)
      requires Wf()
      modifies this
      ensures ids == Ids(old(nextTask), |tasks|)
      ensures State() == RunAll(old(State()), tasks)
      ensures Wf()
      ensures old(Valid()) ==> Valid()
      ensures old(Valid() && Drained()) ==> Drained()
    {
      ghost var s0 := State();
      ids := SubmitAll(tasks);
      if s0.Valid() {
        RunAllKeepsValid(s0, tasks);
      }
    }

    /** The `tasks.map(task => this.runTask(task.data))` loop. */
    method SubmitAll(tasks: seq<TaskData>) returns (ids: seq<TaskId>)
      requires Wf()
      modifies this
      ensures ids == Ids(old(nextTask), |tasks|)
      ensures State() == RunAll(old(State()), tasks)
      ensures Wf()
    {
      ghost var s0 := State();
      ids := [];
      var i := 0;
      while i < |tasks|
        invariant 0 <= i <= |tasks|
        invariant State() == RunAll(s0, tasks[..i])
        invariant ids == Ids(s0.nextTask, i)
        invariant Wf()
      {
        assert tasks[..i + 1][..i] == tasks[..i];
        ghost var before := State();
        assert before.nextTask == s0.nextTask + i;
        var t := RunTask(tasks[i]);
        IdsSnoc(s0.nextTask, i);
        ids := ids + [t];
        i := i + 1;
      }
      assert tasks[..i] == tasks;
    }

    /** `Promise.allSettled`: once every handle has settled, one outcome per task, in task order. */
    function AllSettled(ids: seq<TaskId>): (r: Option<seq<Outcome>>)
      reads this
      ensures r.Some? <==> forall i :: 0 <= i < |ids| ==> ids[i] in settled
      ensures r.Some? ==> |r.value| == |ids| && forall i :: 0 <= i < |ids| ==> r.value[i] == settled[ids[i]]
    {
      if ids == [] then Some([])
      else if ids[0] !in settled then None
      else match AllSettled(ids[1..])
        case None => None
        case Some(rest) => Some([settled[ids[0]]] + rest)
    }

    /** destroy: terminate the idle workers and empty both lists. Busy workers keep
        running; queued tasks are dropped and their promises never settle. */
    method Destroy()
      modifies this`live, this`idle, this`taskQueue
      ensures live == old(live) - Elements(old(idle))
      ensures idle == [] && taskQueue == []
    {
      var i := 0;
      while i < |idle|
        invariant 0 <= i <= |idle| && idle == old(idle)
        invariant live == old(live) - Elements(idle[..i])
      {
        assert Elements(idle[..i + 1]) == Elements(idle[..i]) + {idle[i]} by {
          assert idle[..i + 1] == idle[..i] + [idle[i]];
        }
        live := live - {idle[i]};
        i := i + 1;
      }
      assert idle[..i] == idle;
      idle := [];
      taskQueue := [];
    }
  }
}
