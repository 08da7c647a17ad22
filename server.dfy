/** The job side of `backend/server.js`: validation of `POST /api/generate-csv`,
    the progress events of a job, and the client registry that `broadcastProgress`
    sweeps. The WebSocket transport is reduced to a per-client inbox of messages
    (before `JSON.stringify`), and a socket's `readyState` is an input the
    environment changes. */
module Server {
  import opened Js
  import opened Messages
  import opened Pool

  // ---------------------------------------------------------------------------
  // POST /api/generate-csv
  // ---------------------------------------------------------------------------

  /** `req.body.fields`: an array of field descriptors, or any other JSON value. */
  datatype FieldsArg = ArrayOf(items: seq<Field>) | NotArray(value: JsValue)

  /** `req.body.rowCount`: absent, `null`, or an integer. */
  datatype RowCountArg = Absent | Null | Number(n: int)

  /** A job the route starts: `processCSVGeneration(jobId, fields, rowCount)`. */
  datatype JobRequest = JobRequest(jobId: string, fields: seq<Field>, rowCount: int)

  datatype Reply = Reply(status: int, body: map<string, JsValue>, job: Option<JobRequest>)

  const DefaultRowCount: int := 1000

  /** The destructuring default applies to an absent `rowCount` only; `null` reaches the
      planner, whose arithmetic reads it as 0. */
  function EffectiveRowCount(rowCount: RowCountArg): (n: int)
    ensures rowCount.Number? ==> n == rowCount.n
    ensures rowCount.Absent? ==> n == DefaultRowCount
    ensures rowCount.Null? ==> ChunkCount(n) == 0
  {
    match rowCount
    case Absent => DefaultRowCount
    case Null => 0
    case Number(n) => n
  }

  /** The route handler, with the fresh `uuidv4()` as the input `jobId`. */
  function HandleGenerateCsv(fields: FieldsArg, rowCount: RowCountArg, jobId: string): (r: Reply)
    ensures r.status == 400 <==> !(fields.ArrayOf? && |fields.items| > 0)
    ensures r.status == 400 ==>
      r.job == None && r.body == map["success" := Bool(false), "error" := Str("Fields required")]
    ensures r.status != 400 ==>
      && r.status == 200
      && r.job == Some(JobRequest(jobId, fields.items, EffectiveRowCount(rowCount)))
      && Get(r.body, "success") == Bool(true) && Get(r.body, "jobId") == Str(jobId)
  {
    var ok := match fields
      case NotArray(_) => false
      case ArrayOf(items) => |items| != 0;
    if !ok then
      Reply(400, map["success" := Bool(false), "error" := Str("Fields required")], None)
    else
      Reply(200,
        map["success" := Bool(true), "jobId" := Str(jobId), "message" := Str("CSV generation started")],
        Some(JobRequest(jobId, fields.items, EffectiveRowCount(rowCount))))
  }

  /** The server imposes no ceiling on the row count: any request with fields starts a
      job for the requested number of rows, and an absent count means 1,000 rows. */
  lemma NoServerRowCeiling(items: seq<Field>, n: int, jobId: string)
    requires |items| > 0
    ensures HandleGenerateCsv(ArrayOf(items), Number(n), jobId).job.Some?
    ensures HandleGenerateCsv(ArrayOf(items), Number(n), jobId).job.value.rowCount == n
    ensures HandleGenerateCsv(ArrayOf(items), Absent, jobId).job.value.rowCount == 1000
  {
  }

  // ---------------------------------------------------------------------------
  // Progress events of one job
  // ---------------------------------------------------------------------------

  datatype Progress = Progress(status: string, progress: int, message: string)

  /** The `progress` object passed to `broadcastProgress`. */
  function ProgressFields(p: Progress): map<string, JsValue> {
    map["status" := Str(p.status), "progress" := Num(p.progress), "message" := Str(p.message)]
  }

  const Starting: Progress := Progress("starting", 0, "Starting CSV generation...")
  const Completed: Progress := Progress("completed", 100, "CSV generation completed!")

  predicate IsRejected(o: Outcome) {
    o.Rejected?
  }

  /** The filter `results.filter(r => r.status === 'rejected')` is non-empty exactly
      when some chunk was rejected. */
  lemma RejectedFilterNonEmpty(results: seq<Outcome>)
    ensures |Filter(results, IsRejected)| > 0 <==> exists i :: 0 <= i < |results| && results[i].Rejected?
  {
    var f := Filter(results, IsRejected);
    if |f| > 0 {
      FilterMember(results, IsRejected, f[0]);
    }
    if i :| 0 <= i < |results| && results[i].Rejected? {
      FilterMember(results, IsRejected, results[i]);
    }
  }

  /** The event after `Promise.allSettled`: `completed` when nothing was rejected,
      otherwise the thrown `Worker task failed` caught as `failed`. */
  function TerminalProgress(results: seq<Outcome>): (p: Progress)
    ensures p.status == "failed" <==> exists i :: 0 <= i < |results| && results[i].Rejected?
    ensures p.status == "failed" ==> p == Progress("failed", 0, "Worker task failed")
    ensures p.status != "failed" ==> p == Completed
  {
    RejectedFilterNonEmpty(results);
    if |Filter(results, IsRejected)| > 0 then Progress("failed", 0, "Worker task failed") else Completed
  }

  /** The events a job broadcasts, given its settled results: `starting`, then exactly
      one terminal event. */
  function JobEvents(results: seq<Outcome>): (events: seq<Progress>)
    ensures |events| == 2 && events[0] == Starting
    ensures events[1] == Completed <==> forall i :: 0 <= i < |results| ==> results[i].Fulfilled?
    ensures Completed !in events <==> exists i :: 0 <= i < |results| && results[i].Rejected?
  {
    [Starting, TerminalProgress(results)]
  }

  /** A job for no rows plans no chunk and completes. */
  lemma EmptyJobCompletes(fields: seq<Field>, rowCount: int, jobId: string)
    requires rowCount <= 0
    ensures Plan(fields, rowCount, jobId) == []
    ensures JobEvents([])[1] == Completed
  {
  }

  // ---------------------------------------------------------------------------
  // broadcastProgress and the client registry
  // ---------------------------------------------------------------------------

  type ClientId = string

  datatype ReadyState = Connecting | Open | Closing | Closed

  /** An entry of the `clients` Map, which keeps insertion order. */
  datatype Client = Client(id: ClientId, state: ReadyState)

  type Message = map<string, JsValue>

  /** `{type: 'progress', jobId, ...progress}`: the spread comes last, so its keys win. */
  function ProgressMessage(jobId: string, progress: map<string, JsValue>): (m: Message)
    ensures m.Keys == {"type", "jobId"} + progress.Keys
    ensures forall k :: k in progress ==> m[k] == progress[k]
    ensures "type" !in progress ==> m["type"] == Str("progress")
    ensures "jobId" !in progress ==> m["jobId"] == Str(jobId)
  {
    map["type" := Str("progress"), "jobId" := Str(jobId)] + progress
  }

  /** Every job event names its job and carries its status, progress and message. */
  lemma JobMessageCarriesEvent(jobId: string, p: Progress)
    ensures var m := ProgressMessage(jobId, ProgressFields(p));
      && m["type"] == Str("progress") && m["jobId"] == Str(jobId)
      && m["status"] == Str(p.status) && m["progress"] == Num(p.progress) && m["message"] == Str(p.message)
  {
  }

  predicate DistinctIds(cs: seq<Client>) {
    forall i, j :: 0 <= i < j < |cs| ==> cs[i].id != cs[j].id
  }

  predicate IsOpen(c: Client) {
    c.state == Open
  }

  function Id(c: Client): ClientId {
    c.id
  }

  /** The registry after a sweep: the open clients, in their order. */
  function OpenOnly(cs: seq<Client>): (r: seq<Client>)
    ensures |r| <= |cs|
    ensures forall i :: 0 <= i < |r| ==> r[i].state == Open && r[i] in cs
  {
    var r := Filter(cs, IsOpen);
    forall i | 0 <= i < |r|
      ensures r[i].state == Open && r[i] in cs
    {
      FilterMember(cs, IsOpen, r[i]);
    }
    r
  }

  /** A sweep keeps exactly the open clients, keeps ids distinct, and a second sweep
      with no state change in between removes nobody. */
  lemma OpenOnlySweeps(cs: seq<Client>)
    requires DistinctIds(cs)
    ensures forall c :: c in OpenOnly(cs) <==> c in cs && c.state == Open
    ensures DistinctIds(OpenOnly(cs))
    ensures OpenOnly(OpenOnly(cs)) == OpenOnly(cs)
  {
    forall c
      ensures c in OpenOnly(cs) <==> c in cs && c.state == Open
    {
      FilterMember(cs, IsOpen, c);
    }
    FilterKeepsInjective(cs, IsOpen, Id);
    FilterIdempotent(cs, IsOpen);
  }

  /** The inboxes after a broadcast of `m`: every open client of `cs` receives `m` once. */
  function Deliver(inbox: map<ClientId, seq<Message>>, cs: seq<Client>, m: Message): (r: map<ClientId, seq<Message>>)
    ensures forall id :: id in inbox ==> id in r && inbox[id] <= r[id]
    ensures forall id :: id in r && id !in inbox ==> exists c :: c in cs && c.id == id && c.state == Open
  {
    if cs == [] then inbox
    else
      var before := Deliver(inbox, cs[..|cs| - 1], m);
      var c := cs[|cs| - 1];
      if c.state == Open then before[c.id := Inbox(before, c.id) + [m]] else before
  }

  function Inbox(inbox: map<ClientId, seq<Message>>, id: ClientId): seq<Message> {
    if id in inbox then inbox[id] else []
  }

  /** The inbox of a client that is not an open member of `cs` is left alone. */
  lemma {:induction false} DeliverSkipsOthers(inbox: map<ClientId, seq<Message>>, cs: seq<Client>, m: Message, id: ClientId)
    requires forall i :: 0 <= i < |cs| && cs[i].id == id ==> cs[i].state != Open
    ensures Inbox(Deliver(inbox, cs, m), id) == Inbox(inbox, id)
  {
    if cs != [] {
      DeliverSkipsOthers(inbox, cs[..|cs| - 1], m, id);
    }
  }

  /** Every open client receives the message exactly once, after what it had. */
  lemma {:induction false} DeliverReachesOpen(inbox: map<ClientId, seq<Message>>, cs: seq<Client>, m: Message, i: nat)
    requires DistinctIds(cs) && i < |cs| && cs[i].state == Open
    ensures Inbox(Deliver(inbox, cs, m), cs[i].id) == Inbox(inbox, cs[i].id) + [m]
  {
    var front := cs[..|cs| - 1];
    if i < |cs| - 1 {
      DeliverReachesOpen(inbox, front, m, i);
    } else {
      DeliverSkipsOthers(inbox, front, m, cs[i].id);
    }
  }

  lemma DeliverStep(inbox: map<ClientId, seq<Message>>, cs: seq<Client>, i: nat, m: Message)
    requires i < |cs|
    ensures var before := Deliver(inbox, cs[..i], m);
      Deliver(inbox, cs[..i + 1], m) ==
        if cs[i].state == Open then before[cs[i].id := Inbox(before, cs[i].id) + [m]] else before
  {
    assert cs[..i + 1][..i] == cs[..i];
  }

  /** `clients.delete(id)` on the insertion-ordered registry. */
  function RemoveId(cs: seq<Client>, id: ClientId): seq<Client> {
    Filter(cs, NotId(id))
  }

  /** The test `(client, clientId) => clientId !== id`. */
  function NotId(id: ClientId): Client -> bool {
    (c: Client) => c.id != id
  }

  /** Deleting a key drops exactly the entry with that id and keeps ids distinct. */
  lemma RemoveIdDrops(cs: seq<Client>, id: ClientId)
    requires DistinctIds(cs)
    ensures forall c :: c in RemoveId(cs, id) <==> c in cs && c.id != id
    ensures DistinctIds(RemoveId(cs, id))
  {
    forall c
      ensures c in RemoveId(cs, id) <==> c in cs && c.id != id
    {
      FilterMember(cs, NotId(id), c);
    }
    FilterKeepsInjective(cs, NotId(id), Id);
  }

  /** The sweep's kept prefix grows by the visited client exactly when it is open. */
  lemma SweepKeeps(snapshot: seq<Client>, i: nat)
    requires i < |snapshot|
    ensures OpenOnly(snapshot[..i + 1]) == OpenOnly(snapshot[..i]) + (if snapshot[i].state == Open then [snapshot[i]] else [])
    ensures snapshot[i].state == Open ==>
      OpenOnly(snapshot[..i]) + snapshot[i..] == OpenOnly(snapshot[..i + 1]) + snapshot[i + 1..]
  {
    assert snapshot[..i + 1][..i] == snapshot[..i];
    assert snapshot[i..] == [snapshot[i]] + snapshot[i + 1..];
  }

  /** Deleting a visited client that is not open from the registry leaves the kept
      prefix followed by the unvisited rest. */
  lemma SweepDeletes(snapshot: seq<Client>, i: nat)
    requires DistinctIds(snapshot) && i < |snapshot| && snapshot[i].state != Open
    ensures RemoveId(OpenOnly(snapshot[..i]) + snapshot[i..], snapshot[i].id) == OpenOnly(snapshot[..i]) + snapshot[i + 1..]
  {
    var kept := OpenOnly(snapshot[..i]);
    var c := snapshot[i];
    var rest := snapshot[i + 1..];
    var notC := NotId(c.id);
    assert Filter(kept, notC) == kept by {
      forall j | 0 <= j < |kept|
        ensures notC(kept[j])
      {
        FilterMember(snapshot[..i], IsOpen, kept[j]);
        var k :| 0 <= k < i && snapshot[..i][k] == kept[j];
        assert snapshot[k] == kept[j];
      }
      FilterKeepsAll(kept, notC);
    }
    assert Filter(rest, notC) == rest by {
      forall j | 0 <= j < |rest|
        ensures notC(rest[j])
      {
        assert rest[j] == snapshot[i + 1 + j];
      }
      FilterKeepsAll(rest, notC);
    }
    assert snapshot[i..] == [c] + rest;
    FilterDropsOne(kept, c, rest, notC);
  }

  /** Visiting client `i` of the snapshot: an open client is sent the message and
      stays; any other is deleted. Either way the registry and the inboxes move from
      the sweep of the first `i` clients to that of the first `i + 1`. */
  lemma SweepVisit(snapshot: seq<Client>, i: nat, inbox0: map<ClientId, seq<Message>>, m: Message,
                   clients: seq<Client>, inbox: map<ClientId, seq<Message>>)
    requires DistinctIds(snapshot) && i < |snapshot|
    requires clients == OpenOnly(snapshot[..i]) + snapshot[i..]
    requires inbox == Deliver(inbox0, snapshot[..i], m)
    ensures var c := snapshot[i];
      && (c.state == Open ==>
            && clients == OpenOnly(snapshot[..i + 1]) + snapshot[i + 1..]
            && inbox[c.id := Inbox(inbox, c.id) + [m]] == Deliver(inbox0, snapshot[..i + 1], m))
      && (c.state != Open ==>
            && RemoveId(clients, c.id) == OpenOnly(snapshot[..i + 1]) + snapshot[i + 1..]
            && inbox == Deliver(inbox0, snapshot[..i + 1], m))
  {
    SweepKeeps(snapshot, i);
    DeliverStep(inbox0, snapshot, i, m);
    if snapshot[i].state != Open {
      SweepDeletes(snapshot, i);
    }
  }

  /** Before the sweep nothing is visited; after it, every client has been. */
  lemma SweepStarts(snapshot: seq<Client>)
    ensures snapshot[..0] == [] && OpenOnly(snapshot[..0]) + snapshot[0..] == snapshot
  {
    assert snapshot[..0] == [];
  }

  lemma SweepEnds(snapshot: seq<Client>)
    requires DistinctIds(snapshot)
    ensures snapshot[..|snapshot|] == snapshot
    ensures OpenOnly(snapshot[..|snapshot|]) + snapshot[|snapshot|..] == OpenOnly(snapshot)
    ensures DistinctIds(OpenOnly(snapshot))
  {
    assert snapshot[..|snapshot|] == snapshot && snapshot[|snapshot|..] == [];
    OpenOnlySweeps(snapshot);
  }

  class ClientRegistry {
    /** The `clients` Map, in insertion order. */
    var clients: seq<Client>
    /** What each socket has been sent, for every client ever connected. */
    var inbox: map<ClientId, seq<Message>>

    ghost predicate Valid()
      reads this
    {
      DistinctIds(clients)
    }

    constructor ()
      ensures clients == [] && inbox == map[] && Valid()
    {
      clients := [];
      inbox := map[];
    }

    /** The `'connection'` handler: a fresh id is registered with its open socket. */
    method Connect(id: ClientId)
      requires Valid() && forall c :: c in clients ==> c.id != id
      modifies this`clients
      ensures clients == old(clients) + [Client(id, Open)] && Valid()
    {
      clients := clients + [Client(id, Open)];
    }

    /** A socket changes its `readyState` (the environment's move). */
    method SetState(i: nat, state: ReadyState)
      requires Valid() && i < |clients|
      modifies this`clients
      ensures clients == old(clients)[i := Client(old(clients)[i].id, state)] && Valid()
    {
      clients := clients[i := Client(clients[i].id, state)];
    }

    /** The `'close'` handler: `clients.delete(clientId)`. */
    method Disconnect(id: ClientId)
      requires Valid()
      modifies this`clients
      ensures clients == RemoveId(old(clients), id)
      ensures Valid()
    {
      RemoveIdDrops(clients, id);
      clients := RemoveId(clients, id);
    }

    /** One turn of the sweep: client `i` of the snapshot is sent the message if its
        socket is open and is deleted from the registry otherwise. */
    method Visit(snapshot: seq<Client>, i: nat, ghost inbox0: map<ClientId, seq<Message>>, message: Message)
      requires DistinctIds(snapshot) && i < |snapshot|
      requires clients == OpenOnly(snapshot[..i]) + snapshot[i..]
      requires inbox == Deliver(inbox0, snapshot[..i], message)
      modifies this`clients, this`inbox
      ensures clients == OpenOnly(snapshot[..i + 1]) + snapshot[i + 1..]
      ensures inbox == Deliver(inbox0, snapshot[..i + 1], message)
    {
      var client := snapshot[i];
      SweepVisit(snapshot, i, inbox0, message, clients, inbox);
      if client.state == Open {
        inbox := inbox[client.id := Inbox(inbox, client.id) + [message]];
      } else {
        clients := RemoveId(clients, client.id);
      }
    }

    /** broadcastProgress: send the message to every open client and delete every other
        client from the registry as the sweep passes it. */
    method BroadcastProgress(jobId: string, progress: map<string, JsValue>)
      requires Valid()
      modifies this`clients, this`inbox
      ensures clients == OpenOnly(old(clients))
      ensures inbox == Deliver(old(inbox), old(clients), ProgressMessage(jobId, progress))
      ensures Valid()
    {
      var message := ProgressMessage(jobId, progress);
      Sweep(message);
    }

    /** The `clients.forEach` sweep of broadcastProgress for a prepared message. */
    method Sweep(message: Message)
      requires Valid()
      modifies this`clients, this`inbox
      ensures clients == OpenOnly(old(clients))
      ensures inbox == Deliver(old(inbox), old(clients), message)
      ensures Valid()
    {
      var snapshot := clients;
      ghost var inbox0 := inbox;
      SweepStarts(snapshot);
      var i := 0;
      while i < |snapshot|
        invariant 0 <= i <= |snapshot|
        invariant clients == OpenOnly(snapshot[..i]) + snapshot[i..]
        invariant inbox == Deliver(inbox0, snapshot[..i], message)
      {
        Visit(snapshot, i, inbox0, message);
        i := i + 1;
      }
      SweepEnds(snapshot);
    }
  }

  // ---------------------------------------------------------------------------
  // processCSVGeneration
  // ---------------------------------------------------------------------------

  /** processCSVGeneration up to its `await`: announce `starting`, plan the chunks and
      submit them all to the pool. The returned handles name the promises that
      `Promise.allSettled` waits for. */
  method StartJob(pool: WorkerPool, registry: ClientRegistry, job: JobRequest) returns (ids: seq<TaskId>)
    requires pool.Wf() && registry.Valid()
    modifies pool, registry
    ensures registry.clients == OpenOnly(old(registry.clients))
    ensures registry.inbox ==
      Deliver(old(registry.inbox), old(registry.clients), ProgressMessage(job.jobId, ProgressFields(Starting)))
    ensures ids == Ids(old(pool.nextTask), |Plan(job.fields, job.rowCount, job.jobId)|)
    ensures pool.State() == RunAll(old(pool.State()), Plan(job.fields, job.rowCount, job.jobId))
    ensures registry.Valid() && pool.Wf()
    ensures old(pool.Valid()) ==> pool.Valid()
  {
    registry.BroadcastProgress(job.jobId, ProgressFields(Starting));
    var tasks := DistributeCSVGeneration(job.fields, job.rowCount, job.jobId);
    ids := pool.ExecuteParallel(tasks);
  }

  /** processCSVGeneration after `Promise.allSettled` resolves with `results`: announce
      `failed` if any chunk was rejected, `completed` otherwise. */
  method FinishJob(registry: ClientRegistry, jobId: string, results: seq<Outcome>)
    requires registry.Valid()
    modifies registry
    ensures registry.clients == OpenOnly(old(registry.clients))
    ensures registry.inbox ==
      Deliver(old(registry.inbox), old(registry.clients), ProgressMessage(jobId, ProgressFields(JobEvents(results)[1])))
    ensures registry.Valid()
  {
    var failed := Filter(results, IsRejected);
    RejectedFilterNonEmpty(results);
    if |failed| > 0 {
      registry.BroadcastProgress(jobId, ProgressFields(Progress("failed", 0, "Worker task failed")));
    } else {
      registry.BroadcastProgress(jobId, ProgressFields(Completed));
    }
  }
}
