/** The chunk worker of `backend/worker.js`: the deterministic field generators,
    the row loop of `generateCSVChunk`, and the offset and size arithmetic and the
    reply of `processCSVGeneration`. The file write is an input: the model is told
    whether it failed and with which message. */
module Worker {
  import opened Js
  import opened Messages
  import opened Pool

  // ---------------------------------------------------------------------------
  // Field generators
  // ---------------------------------------------------------------------------

  /** A CSV cell: generated text, `undefined` (the department lookup with a negative
      index), or the value of a generator that reads the clock or `Math.random`. */
  datatype Cell = Text(s: string) | Missing | Unmodelled(kind: string)

  const Departments: seq<string> := ["Engineering", "Marketing", "Sales", "Support", "HR", "Finance"]

  /** The keys of `fieldGenerators`. */
  const GeneratorKinds: set<string> :=
    {"id", "username", "email", "phone", "status", "score", "created_date", "department", "first_name", "last_name"}

  /** `+91837` and `1000 + (index % 9000)` padded to four digits. */
  function Phone(index: int): (p: string)
    ensures |p| >= 10 && p[..6] == "+91837"
  {
    "+91837" + PadStart(IntToString(1000 + JsRem(index, 9000)), 4, '0')
  }

  /** The generator for `kind` applied to the row index, or the default
      `value_<index>` when `fieldGenerators` has no entry for the kind. */
  function FieldValue(kind: string, index: int): (c: Cell)
    ensures kind !in GeneratorKinds ==> c == Text("value_" + IntToString(index))
    ensures c.Unmodelled? <==> kind == "score" || kind == "created_date"
    ensures c.Missing? ==> kind == "department" && index < 0
    ensures kind == "department" && index >= 0 ==> c.Text? && c.s in Departments
  {
    match kind
    case "id" => Text(IntToString(index))
    case "username" => Text("user" + IntToString(index))
    case "email" => Text("user" + IntToString(index) + "@example.com")
    case "phone" => Text(Phone(index))
    case "status" => Text(if JsRem(index, 2) == 0 then "Active" else "Inactive")
    case "score" => Unmodelled(kind)
    case "created_date" => Unmodelled(kind)
    case "department" =>
      var r := JsRem(index, |Departments|);
      if r >= 0 then Text(Departments[r]) else Missing
    case "first_name" => Text("fname" + IntToString(index))
    case "last_name" => Text("lname" + IntToString(index))
    case _ => Text("value_" + IntToString(index))
  }

  /** The generators that embed the index as text. */
  predicate EmbedsIndex(kind: string) {
    kind in {"id", "username", "email", "first_name", "last_name"} || kind !in GeneratorKinds
  }

  /** Each of these generators gives every row index its own value, so such a column
      never repeats within a file. */
  lemma EmbeddedIndexIsUnique(kind: string, a: int, b: int)
    requires EmbedsIndex(kind) && FieldValue(kind, a) == FieldValue(kind, b)
    ensures a == b
  {
    var sa, sb := IntToString(a), IntToString(b);
    if kind == "username" {
      PrefixCancel("user", sa, sb);
    } else if kind == "email" {
      SuffixCancel("user" + sa, "user" + sb, "@example.com");
      PrefixCancel("user", sa, sb);
    } else if kind == "first_name" {
      PrefixCancel("fname", sa, sb);
    } else if kind == "last_name" {
      PrefixCancel("lname", sa, sb);
    } else if kind != "id" {
      PrefixCancel("value_", sa, sb);
    }
    IntToStringInjective(a, b);
  }

  /** A non-negative index can be read back from the username. */
  lemma UsernameDecodes(index: nat)
    ensures FieldValue("username", index).Text?
    ensures var s := FieldValue("username", index).s;
      s[..4] == "user" && AllDigits(s[4..]) && DigitsValue(s[4..]) == index
  {
    var s := FieldValue("username", index).s;
    assert s[4..] == NatToString(index);
    NatToStringRoundTrip(index);
  }

  /** The e-mail is the username at `example.com`. */
  lemma EmailIsUsernameAtExample(index: int)
    ensures FieldValue("email", index) == Text(FieldValue("username", index).s + "@example.com")
  {
  }

  /** Status alternates with the parity of the index, negative indices included. */
  lemma StatusAlternates(index: int)
    ensures FieldValue("status", index) == Text("Active") <==> index % 2 == 0
    ensures FieldValue("status", index) == Text("Inactive") <==> index % 2 != 0
  {
  }

  /** For a non-negative index the department cycles through the six names. */
  lemma DepartmentCycles(index: nat)
    ensures FieldValue("department", index) == Text(Departments[index % 6])
    ensures FieldValue("department", index + 6) == FieldValue("department", index)
  {
  }

  /** For a non-negative index the phone number is always ten characters: the
      prefix and four digits spelling `1000 + index % 9000`. */
  lemma {:induction false} PhoneShape(index: nat)
    ensures var p := Phone(index);
      && |p| == 10 && p[..6] == "+91837"
      && AllDigits(p[6..]) && DigitsValue(p[6..]) == 1000 + index % 9000
  {
    var n := 1000 + index % 9000;
    FourDigits(n);
    NatToStringRoundTrip(n);
    var p := Phone(index);
    assert PadStart(NatToString(n), 4, '0') == NatToString(n);
    assert p[6..] == NatToString(n);
  }

  // ---------------------------------------------------------------------------
  // generateCSVChunk
  // ---------------------------------------------------------------------------

  /** A row object: field name to cell. */
  type Row = map<string, Cell>

  /** The row `fields.forEach` builds for one index: each field in turn writes its
      cell under its name, so a later field overwrites an earlier one of the same name. */
  function BuildRow(fields: seq<Field>, index: int): (row: Row)
    ensures forall k :: k in row ==>
      exists j :: 0 <= j < |fields| && fields[j].name == k && row[k] == FieldValue(fields[j].kind, index)
  {
    if fields == [] then map[]
    else
      var front := fields[..|fields| - 1];
      var last := fields[|fields| - 1];
      var row := BuildRow(front, index)[last.name := FieldValue(last.kind, index)];
      assert forall k :: k in row && k != last.name ==>
        exists j :: 0 <= j < |front| && front[j].name == k && row[k] == FieldValue(front[j].kind, index);
      row
  }

  function Names(fields: seq<Field>): set<string> {
    set f | f in fields :: f.name
  }

  /** A row has exactly one column per distinct field name. */
  lemma {:induction false} BuildRowKeys(fields: seq<Field>, index: int)
    ensures BuildRow(fields, index).Keys == Names(fields)
  {
    if fields != [] {
      var front := fields[..|fields| - 1];
      BuildRowKeys(front, index);
      assert fields == front + [fields[|fields| - 1]];
      assert Names(fields) == Names(front) + {fields[|fields| - 1].name};
    }
  }

  /** Under each name stands the value of the last field with that name. */
  lemma {:induction false} BuildRowLastWins(fields: seq<Field>, index: int, j: nat)
    requires j < |fields|
    requires forall k :: j < k < |fields| ==> fields[k].name != fields[j].name
    ensures fields[j].name in BuildRow(fields, index)
    ensures BuildRow(fields, index)[fields[j].name] == FieldValue(fields[j].kind, index)
  {
    var front := fields[..|fields| - 1];
    if j < |fields| - 1 {
      BuildRowLastWins(front, index, j);
    }
  }

  /** The body of the row loop: `fields.forEach` writes each field's cell in turn. */
  method FillRow(fields: seq<Field>, rowIndex: int) returns (row: Row)
    ensures row == BuildRow(fields, rowIndex)
  {
    row := map[];
    var j := 0;
    while j < |fields|
      invariant 0 <= j <= |fields|
      invariant row == BuildRow(fields[..j], rowIndex)
    {
      assert fields[..j + 1][..j] == fields[..j];
      row := row[fields[j].name := FieldValue(fields[j].kind, rowIndex)];
      j := j + 1;
    }
    assert fields[..j] == fields;
  }

  /** generateCSVChunk: `chunkSize` rows (none when it is not positive); row `i` is
      built for index `startRow + i`. */
  method GenerateCSVChunk(fields: seq<Field>, startRow: int, chunkSize: int) returns (data: seq<Row>)
    ensures |data| == Max(0, chunkSize)
    ensures forall i :: 0 <= i < |data| ==> data[i] == BuildRow(fields, startRow + i)
  {
    data := [];
    var i := 0;
    while i < chunkSize
      invariant 0 <= i <= Max(0, chunkSize) && |data| == i
      invariant forall k :: 0 <= k < i ==> data[k] == BuildRow(fields, startRow + k)
    {
      var row := FillRow(fields, startRow + i);
      data := data + [row];
      i := i + 1;
    }
  }

  // ---------------------------------------------------------------------------
  // processCSVGeneration
  // ---------------------------------------------------------------------------

  /** The first row index of a chunk, as the worker computes it from the chunk's own size. */
  function StartRow(data: TaskData): int {
    data.chunkIndex * data.chunkSize
  }

  /** The number of rows the worker generates and reports. */
  function CurrentChunkSize(data: TaskData): int {
    Min(data.chunkSize, data.totalRows - StartRow(data))
  }

  /** The part file's name, `<jobId>_part_<chunkIndex>.csv`. */
  function ChunkFileName(jobId: string, chunkIndex: nat): string {
    jobId + "_part_" + NatToString(chunkIndex) + ".csv"
  }

  /** Within one job, distinct chunks write distinct files. */
  lemma ChunkFileNamesDistinct(jobId: string, a: nat, b: nat)
    requires ChunkFileName(jobId, a) == ChunkFileName(jobId, b)
    ensures a == b
  {
    SuffixCancel(jobId + "_part_" + NatToString(a), jobId + "_part_" + NatToString(b), ".csv");
    PrefixCancel(jobId + "_part_", NatToString(a), NatToString(b));
    NatToStringInjective(a, b);
  }

  function ChunkPath(tempDir: string, jobId: string, chunkIndex: nat): string {
    tempDir + "/" + ChunkFileName(jobId, chunkIndex)
  }

  /** processCSVGeneration: generate the chunk's rows, write them (the write's failure,
      if any, is the input `writeError`), and reply. */
  method ProcessCSVGeneration(data: TaskData, tempDir: string, writeError: Option<string>)
    returns (records: seq<Row>, result: WorkerResult)
    ensures |records| == Max(0, CurrentChunkSize(data))
    ensures forall i :: 0 <= i < |records| ==> records[i] == BuildRow(data.fields, StartRow(data) + i)
    ensures writeError.None? ==>
      result == Success(data.chunkIndex, CurrentChunkSize(data), ChunkPath(tempDir, data.jobId, data.chunkIndex))
    ensures writeError.Some? ==> result == Failure(Some(data.chunkIndex), writeError.value)
  {
    var startRow := data.chunkIndex * data.chunkSize;
    var currentChunkSize := Min(data.chunkSize, data.totalRows - startRow);
    records := GenerateCSVChunk(data.fields, startRow, currentChunkSize);
    if writeError.Some? {
      result := Failure(Some(data.chunkIndex), writeError.value);
    } else {
      result := Success(data.chunkIndex, currentChunkSize, ChunkPath(tempDir, data.jobId, data.chunkIndex));
    }
  }

  // ---------------------------------------------------------------------------
  // The worker against the planner
  // ---------------------------------------------------------------------------

  /** Row `r` is one the worker generates for this task. */
  predicate GeneratesRow(data: TaskData, r: int) {
    StartRow(data) <= r < StartRow(data) + CurrentChunkSize(data)
  }

  /** For every planned task the worker generates, and reports, exactly the planned
      number of rows. */
  lemma PlannedChunkGeneratedInFull(fields: seq<Field>, totalRows: int, jobId: string, i: nat)
    requires i < |Plan(fields, totalRows, jobId)|
    ensures CurrentChunkSize(Plan(fields, totalRows, jobId)[i]) == Plan(fields, totalRows, jobId)[i].chunkSize
  {
    var t := Plan(fields, totalRows, jobId)[i];
    var k := ChunkCount(totalRows);
    assert i * t.chunkSize <= i * MaxChunkSize;
    if i < k - 1 {
      assert t.chunkSize == MaxChunkSize;
      assert (i + 1) * MaxChunkSize <= (k - 1) * MaxChunkSize;
    }
  }

  /** The worked example: of 25,000 rows, the third chunk starts at row 10,000, not 20,000. */
  lemma Chunk25000Offset(fields: seq<Field>, jobId: string)
    ensures var t := Plan(fields, 25000, jobId)[2];
      StartRow(t) == 10000 && CurrentChunkSize(t) == 5000
  {
    Plan25000(fields, jobId);
  }

  /** As written, when the rows do not divide into whole chunks and there is more than
      one chunk, the last row of the file is generated by no chunk. */
  lemma LastRowNeverGenerated(fields: seq<Field>, totalRows: int, jobId: string)
    requires totalRows > MaxChunkSize && totalRows % MaxChunkSize != 0
    ensures forall t :: t in Plan(fields, totalRows, jobId) ==> !GeneratesRow(t, totalRows - 1)
  {
    var tasks := Plan(fields, totalRows, jobId);
    forall t | t in tasks
      ensures !GeneratesRow(t, totalRows - 1)
    {
      var i :| 0 <= i < |tasks| && tasks[i] == t;
      ChunkMissesLastRow(fields, totalRows, jobId, i);
    }
  }

  lemma ChunkMissesLastRow(fields: seq<Field>, totalRows: int, jobId: string, i: nat)
    requires totalRows > MaxChunkSize && totalRows % MaxChunkSize != 0
    requires i < |Plan(fields, totalRows, jobId)|
    ensures !GeneratesRow(Plan(fields, totalRows, jobId)[i], totalRows - 1)
  {
    var t := Plan(fields, totalRows, jobId)[i];
    var k := ChunkCount(totalRows);
    PlannedChunkGeneratedInFull(fields, totalRows, jobId, i);
    assert (k - 1) * MaxChunkSize < totalRows <= k * MaxChunkSize;
    if i < k - 1 {
      EarlyChunkEndsBefore(i, k, MaxChunkSize, totalRows);
    } else {
      LastChunkEndsBefore(k, t.chunkSize, MaxChunkSize, totalRows);
    }
  }

  /** A full chunk before the last ends at or before the last chunk's start. */
  lemma EarlyChunkEndsBefore(i: nat, k: nat, m: nat, n: int)
    requires i < k - 1 && (k - 1) * m < n
    ensures i * m + m <= n - 1
  {
    assert (i + 1) * m <= (k - 1) * m;
  }

  /** With the worker's offset `chunkIndex * chunkSize`, a short last chunk of `c`
      rows at index `k - 1` ends `(k - 1) * (m - c)` rows early. */
  lemma LastChunkEndsBefore(k: nat, c: int, m: int, n: int)
    requires k >= 2 && 0 < c < m && n == (k - 1) * m + c
    ensures (k - 1) * c + c <= n - 1
  {
    assert (k - 1) * c < (k - 1) * m;
  }

  /** The first row of a chunk as evidently intended: the chunk index times the
      planner's fixed chunk size. */
  function IntendedStartRow(data: TaskData): int {
    data.chunkIndex * MaxChunkSize
  }

  /** With the intended offset the planned chunks tile the rows: row `r` of the file
      is generated by chunk `r / 10000` and by no other. */
  lemma IntendedChunksTile(fields: seq<Field>, totalRows: int, jobId: string, r: int)
    requires 0 <= r < totalRows
    ensures var tasks := Plan(fields, totalRows, jobId);
      forall i :: 0 <= i < |tasks| ==>
        (IntendedStartRow(tasks[i]) <= r < IntendedStartRow(tasks[i]) + tasks[i].chunkSize <==> i == r / MaxChunkSize)
    ensures r / MaxChunkSize < |Plan(fields, totalRows, jobId)|
  {
    var tasks := Plan(fields, totalRows, jobId);
    var k := |tasks|;
    var q := r / MaxChunkSize;
    assert q * MaxChunkSize <= r < (q + 1) * MaxChunkSize;
    assert q < k;
    forall i | 0 <= i < k
      ensures IntendedStartRow(tasks[i]) <= r < IntendedStartRow(tasks[i]) + tasks[i].chunkSize <==> i == q
    {
      if i < q {
        assert (i + 1) * MaxChunkSize <= q * MaxChunkSize;
      } else if i > q {
        assert (q + 1) * MaxChunkSize <= i * MaxChunkSize;
      }
    }
  }
}
