/** The state logic of `frontend/src/App.jsx`: the generation status that the
    WebSocket's progress messages update, the field list the field manager edits,
    and the request "Generate" sends. React's state setters are modelled as
    functions from the old state to the new one. */
module App {
  import opened Js
  import opened Messages
  import opened Pool
  import opened Server
  import GenerationPanel

  // ---------------------------------------------------------------------------
  // handleProgressUpdate
  // ---------------------------------------------------------------------------

  /** The `generationStatus` object; `null` is `None`. */
  type Status = map<string, JsValue>

  /** `v || fallback` */
  function Or(v: JsValue, fallback: JsValue): (r: JsValue)
    ensures Truthy(v) ==> r == v
    ensures !Truthy(v) ==> r == fallback
  {
    if Truthy(v) then v else fallback
  }

  /** The keys of the status built for a job the panel has not shown yet. */
  const FreshKeys: set<string> :=
    {"jobId", "status", "progress", "message", "fileSize", "processingTime", "downloadUrl"}

  /** `!prev || prev.jobId !== data.jobId` */
  predicate IsNewJob(prev: Option<Status>, data: Status) {
    prev.None? || Get(prev.value, "jobId") != Get(data, "jobId")
  }

  function FreshStatus(data: Status): (s: Status)
    ensures Get(s, "jobId") == Get(data, "jobId")
    ensures s.Keys == FreshKeys
    ensures s["status"] == Or(Get(data, "status"), Str("processing"))
    ensures s["progress"] == Or(Get(data, "progress"), Num(0))
    ensures forall k :: k in FreshKeys - {"jobId", "status", "progress"} ==> s[k] == Or(Get(data, k), Str(""))
  {
    map[
      "jobId" := Get(data, "jobId"),
      "status" := Or(Get(data, "status"), Str("processing")),
      "progress" := Or(Get(data, "progress"), Num(0)),
      "message" := Or(Get(data, "message"), Str("")),
      "fileSize" := Or(Get(data, "fileSize"), Str("")),
      "processingTime" := Or(Get(data, "processingTime"), Str("")),
      "downloadUrl" := Or(Get(data, "downloadUrl"), Str(""))]
  }

  /** `{...prev, ...data, progress: data.progress ?? prev.progress}` */
  function MergedStatus(prev: Status, data: Status): (s: Status)
    ensures Get(prev, "jobId") == Get(data, "jobId") ==> Get(s, "jobId") == Get(data, "jobId")
    ensures s.Keys == prev.Keys + data.Keys + {"progress"}
    ensures forall k :: k in data && k != "progress" ==> s[k] == data[k]
    ensures forall k :: k in prev && k !in data && k != "progress" ==> s[k] == prev[k]
    ensures s["progress"] == (if Nullish(Get(data, "progress")) then Get(prev, "progress") else data["progress"])
  {
    (prev + data)["progress" := if Nullish(Get(data, "progress")) then Get(prev, "progress") else Get(data, "progress")]
  }

  /** The state update for one message `data` received on the WebSocket. */
  function HandleProgressUpdate(prev: Option<Status>, data: Status): (s: Status)
    ensures Get(s, "jobId") == Get(data, "jobId")
    // a new job: exactly the seven keys, falsy inputs replaced by their defaults
    ensures IsNewJob(prev, data) ==>
      && s.Keys == FreshKeys
      && s["status"] == Or(Get(data, "status"), Str("processing"))
      && s["progress"] == Or(Get(data, "progress"), Num(0))
      && (forall k :: k in FreshKeys - {"jobId", "status", "progress"} ==> s[k] == Or(Get(data, k), Str("")))
    // the same job: data's keys win, the others are kept, progress falls back only on null
    ensures !IsNewJob(prev, data) ==>
      && s.Keys == prev.value.Keys + data.Keys + {"progress"}
      && (forall k :: k in data && k != "progress" ==> s[k] == data[k])
      && (forall k :: k in prev.value && k !in data && k != "progress" ==> s[k] == prev.value[k])
      && s["progress"] == (if Nullish(Get(data, "progress")) then Get(prev.value, "progress") else data["progress"])
  {
    if IsNewJob(prev, data) then FreshStatus(data) else MergedStatus(prev.value, data)
  }

  /** Receiving the same message twice for the job on screen changes nothing the second
      time. */
  lemma SameJobUpdateIdempotent(prev: Status, data: Status)
    requires Get(prev, "jobId") == Get(data, "jobId")
    ensures var once := HandleProgressUpdate(Some(prev), data);
      HandleProgressUpdate(Some(once), data) == once
  {
    var once := HandleProgressUpdate(Some(prev), data);
    var twice := HandleProgressUpdate(Some(once), data);
    assert !IsNewJob(Some(once), data);
    assert twice.Keys == once.Keys;
    forall k | k in once ensures twice[k] == once[k] {
      if k == "progress" {
        if Nullish(Get(data, "progress")) {
          assert Get(once, "progress") == Get(prev, "progress");
        }
      }
    }
  }

  /** A message for another job replaces the status outright: nothing of the previous
      job's status survives beyond what the message itself carries. */
  lemma OtherJobForgetsPrevious(prev: Status, other: Status, data: Status)
    requires Get(prev, "jobId") != Get(data, "jobId") && Get(other, "jobId") != Get(data, "jobId")
    ensures HandleProgressUpdate(Some(prev), data) == HandleProgressUpdate(Some(other), data)
    ensures HandleProgressUpdate(Some(prev), data) == HandleProgressUpdate(None, data)
  {
  }

  // ---------------------------------------------------------------------------
  // The field list: addField, removeField, updateField
  // ---------------------------------------------------------------------------

  /** A field as the field manager holds it: an id (`Date.now().toString()`), a header
      name, a generator kind (`type`) and an order. */
  datatype UiField = UiField(id: string, name: string, kind: string, order: int)

  /** `addField`, with the fresh id as an input. */
  function AddField(fields: seq<UiField>, id: string): (r: seq<UiField>)
    ensures |r| == |fields| + 1 && r[..|fields|] == fields
    ensures r[|fields|] == UiField(id, "field_" + NatToString(|fields| + 1), "id", |fields|)
  {
    fields + [UiField(id, "field_" + NatToString(|fields| + 1), "id", |fields|)]
  }

  function NotField(id: string): UiField -> bool {
    (f: UiField) => f.id != id
  }

  /** `removeField`: `fields.filter(f => f.id !== id)`. */
  function RemoveField(fields: seq<UiField>, id: string): (r: seq<UiField>)
    ensures |r| <= |fields|
    ensures forall i :: 0 <= i < |r| ==> r[i].id != id && r[i] in fields
  {
    var r := Filter(fields, NotField(id));
    forall i | 0 <= i < |r|
      ensures r[i].id != id && r[i] in fields
    {
      FilterMember(fields, NotField(id), r[i]);
    }
    r
  }

  /** A field survives `removeField` exactly when it was there and has another id. */
  lemma RemoveFieldDrops(fields: seq<UiField>, id: string, f: UiField)
    ensures f in RemoveField(fields, id) <==> f in fields && f.id != id
  {
    FilterMember(fields, NotField(id), f);
  }

  /** `removeField` works field by field and keeps the survivors in list order: removing
      from a concatenation is removing from each part, in the same order. */
  lemma RemoveFieldKeepsOrder(a: seq<UiField>, b: seq<UiField>, id: string)
    ensures RemoveField(a + b, id) == RemoveField(a, id) + RemoveField(b, id)
  {
    FilterAppend(a, b, NotField(id));
  }

  /** On a single field, `removeField` keeps it iff it has another id; with the lemma
      above this fixes the result on every list, order and repeats included. */
  lemma RemoveFieldSingle(f: UiField, id: string)
    ensures RemoveField([f], id) == if f.id != id then [f] else []
  {
    assert [f][..0] == [];
  }

  /** Removing a field and removing it again is removing it once. */
  lemma RemoveFieldIdempotent(fields: seq<UiField>, id: string)
    ensures RemoveField(RemoveField(fields, id), id) == RemoveField(fields, id)
  {
    FilterIdempotent(fields, NotField(id));
  }

  /** Removing the field just added, when its id was fresh, restores the list. */
  lemma RemoveUndoesAdd(fields: seq<UiField>, id: string)
    requires forall i :: 0 <= i < |fields| ==> fields[i].id != id
    ensures RemoveField(AddField(fields, id), id) == fields
  {
    var f := UiField(id, "field_" + NatToString(|fields| + 1), "id", |fields|);
    FilterAppend(fields, [f], NotField(id));
    FilterKeepsAll(fields, NotField(id));
    assert Filter([f], NotField(id)) == [];
  }

  /** `updates`: the properties the field editor sets; a missing one is `None`. */
  datatype FieldUpdate = FieldUpdate(
    newId: Option<string>, name: Option<string>, kind: Option<string>, order: Option<int>)

  function Pick<T>(update: Option<T>, current: T): T {
    if update.Some? then update.value else current
  }

  /** `{...f, ...updates}` */
  function Merge(f: UiField, u: FieldUpdate): UiField {
    UiField(Pick(u.newId, f.id), Pick(u.name, f.name), Pick(u.kind, f.kind), Pick(u.order, f.order))
  }

  /** `updateField`: `fields.map(f => f.id === id ? {...f, ...updates} : f)`. */
  function UpdateField(fields: seq<UiField>, id: string, u: FieldUpdate): (r: seq<UiField>)
    ensures |r| == |fields|
    ensures forall i :: 0 <= i < |fields| && fields[i].id != id ==> r[i] == fields[i]
    ensures forall i :: 0 <= i < |fields| && fields[i].id == id ==>
      r[i].id == Pick(u.newId, id) && r[i].name == Pick(u.name, fields[i].name)
      && r[i].kind == Pick(u.kind, fields[i].kind) && r[i].order == Pick(u.order, fields[i].order)
  {
    seq(|fields|, i requires 0 <= i < |fields| => if fields[i].id == id then Merge(fields[i], u) else fields[i])
  }

  /** Applying the same update twice is applying it once. */
  lemma UpdateFieldIdempotent(fields: seq<UiField>, id: string, u: FieldUpdate)
    ensures UpdateField(UpdateField(fields, id, u), id, u) == UpdateField(fields, id, u)
  {
    var once := UpdateField(fields, id, u);
    var twice := UpdateField(once, id, u);
    forall i | 0 <= i < |fields| ensures twice[i] == once[i] {
      if fields[i].id == id && once[i].id == id {
        assert once[i] == Merge(fields[i], u);
      }
    }
  }

  /** An update that sets nothing leaves the list as it was. */
  lemma EmptyUpdateChangesNothing(fields: seq<UiField>, id: string)
    ensures UpdateField(fields, id, FieldUpdate(None, None, None, None)) == fields
  {
  }

  // ---------------------------------------------------------------------------
  // generateCSV
  // ---------------------------------------------------------------------------

  /** The fields sent to the server: name and type, with `order` renumbered to the
      position in the list and the id dropped. */
  function FormatFields(fields: seq<UiField>): (r: seq<Field>)
    ensures |r| == |fields|
    ensures forall i :: 0 <= i < |r| ==> r[i] == Field(fields[i].name, fields[i].kind, i)
  {
    seq(|fields|, i requires 0 <= i < |fields| => Field(fields[i].name, fields[i].kind, i))
  }

  /** The stored order never reaches the server: lists that differ only in ids and
      orders are sent alike. */
  lemma FormatIgnoresIdAndOrder(a: seq<UiField>, b: seq<UiField>)
    requires |a| == |b|
    requires forall i :: 0 <= i < |a| ==> a[i].name == b[i].name && a[i].kind == b[i].kind
    ensures FormatFields(a) == FormatFields(b)
  {
  }

  /** What "Generate" leaves behind: the status shown, and an alert when the request
      was refused. */
  datatype Submission = Submission(request: Reply, status: Option<Status>, alert: Option<string>)

  /** The status set after the server accepts a job. */
  function StartingStatus(jobId: JsValue): Status {
    map["jobId" := jobId, "status" := Str("starting"), "progress" := Num(0),
        "message" := Str("Starting CSV generation...")]
  }

  /** `generateCSV(rowCount)`: the status is reset to `null`, the formatted fields and
      `parseInt(rowCount)` (the decimal value itself) are posted, and on success the
      status becomes `starting`. A 400 reply rejects the axios call and its `error` is
      alerted. The route's fresh `uuidv4()` is the input `jobId`. */
  function GenerateCSV(fields: seq<UiField>, rows: int, jobId: string): (sub: Submission)
    ensures sub.request == HandleGenerateCsv(ArrayOf(FormatFields(fields)), Number(rows), jobId)
    ensures sub.status.Some? <==> |fields| > 0
    ensures sub.status.Some? ==> sub.status.value == StartingStatus(Str(jobId))
    ensures sub.status.None? ==> sub.alert == Some("Fields required")
    ensures sub.status.Some? ==> sub.alert == None
  {
    var reply := HandleGenerateCsv(ArrayOf(FormatFields(fields)), Number(rows), jobId);
    if reply.status != 200 then
      Submission(reply, None, match Get(reply.body, "error") case Str(e) => Some(e) case _ => None)
    else if Truthy(Get(reply.body, "success")) then
      Submission(reply, Some(StartingStatus(Get(reply.body, "jobId"))), None)
    else
      Submission(reply, None, None)
  }

  /** An accepted submission starts the job for exactly the fields on screen, in their
      list order, and for the requested rows. */
  lemma GenerateStartsListedFields(fields: seq<UiField>, rows: int, jobId: string)
    requires |fields| > 0
    ensures GenerateCSV(fields, rows, jobId).request.job == Some(JobRequest(jobId, FormatFields(fields), rows))
  {
  }

  // ---------------------------------------------------------------------------
  // A job as the panel sees it
  // ---------------------------------------------------------------------------

  /** The status after a message of the server's `broadcastProgress(jobId, p)`. */
  function Receive(prev: Option<Status>, jobId: string, p: Progress): Status {
    HandleProgressUpdate(prev, ProgressMessage(jobId, ProgressFields(p)))
  }

  /** A broadcast for the job on screen shows that event's status, progress and message. */
  lemma ReceiveShowsEvent(prev: Status, jobId: string, p: Progress)
    requires Get(prev, "jobId") == Str(jobId)
    ensures var s := Receive(Some(prev), jobId, p);
      && Get(s, "jobId") == Str(jobId)
      && s["status"] == Str(p.status) && s["progress"] == Num(p.progress) && s["message"] == Str(p.message)
  {
    var m := ProgressMessage(jobId, ProgressFields(p));
    JobMessageCarriesEvent(jobId, p);
    assert !IsNewJob(Some(prev), m);
  }

  /** After an accepted submission and the job's two broadcasts, the panel shows the
      job's terminal event: `completed` at 100 when every chunk settled fulfilled,
      `failed` at 0 with the error message otherwise. */
  lemma PanelShowsJobOutcome(fields: seq<UiField>, rows: int, jobId: string, results: seq<Outcome>)
    requires |fields| > 0
    ensures var events := JobEvents(results);
      var started := GenerateCSV(fields, rows, jobId).status;
      var s := Receive(Some(Receive(started, jobId, events[0])), jobId, events[1]);
      && Get(s, "jobId") == Str(jobId)
      && s["status"] == Str(TerminalProgress(results).status)
      && s["progress"] == Num(TerminalProgress(results).progress)
      && s["message"] == Str(TerminalProgress(results).message)
      && (s["status"] == Str("completed") <==> forall i :: 0 <= i < |results| ==> results[i].Fulfilled?)
      && !GenerationPanel.GenerateDisabled(Some(s))
  {
    var events := JobEvents(results);
    var started := GenerateCSV(fields, rows, jobId).status;
    var st := StartingStatus(Str(jobId));
    assert started == Some(st);
    assert Get(st, "jobId") == Str(jobId);
    ReceiveShowsEvent(st, jobId, events[0]);
    var s0 := Receive(started, jobId, events[0]);
    ReceiveShowsEvent(s0, jobId, events[1]);
    var p := TerminalProgress(results);
    assert events[1] == p;
    if p.status == "completed" {
      assert p == Completed;
    }
  }

  /** The order above is not the only one. The route replies before it starts the job,
      but the broadcasts travel on the WebSocket, so both can be handled before the
      awaited axios reply. The reply then overwrites the terminal status with `starting`,
      and "Generate" stays disabled whatever the job's outcome. */
  lemma LateReplyHidesOutcome(fields: seq<UiField>, rows: int, jobId: string, results: seq<Outcome>)
    requires |fields| > 0
    ensures var events := JobEvents(results);
      var shown := Receive(Some(Receive(None, jobId, events[0])), jobId, events[1]);
      var after := GenerateCSV(fields, rows, jobId).status;
      && shown["status"] == Str(TerminalProgress(results).status)
      && !GenerationPanel.GenerateDisabled(Some(shown))
      && after == Some(StartingStatus(Str(jobId)))
      && GenerationPanel.GenerateDisabled(after)
  {
    var events := JobEvents(results);
    JobMessageCarriesEvent(jobId, events[0]);
    var s0 := Receive(None, jobId, events[0]);
    ReceiveShowsEvent(s0, jobId, events[1]);
    var p := TerminalProgress(results);
    assert events[1] == p;
  }
}
