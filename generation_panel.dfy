/** The row-count logic of `frontend/src/components/GenerationPanel.jsx`: which row
    count a click on "Generate" requests, the checks against the maximum, the quick
    picks, the chunk estimate, and `formatNumber`'s thousands separators. */
module GenerationPanel {
  import opened Js
  import opened Messages
  import opened Pool

  // ---------------------------------------------------------------------------
  // formatNumber
  // ---------------------------------------------------------------------------

  /** The regular expression `\B(?=(\d{3})+(?!\d))` on a string of digits of length
      `len` matches at position `p` exactly when `p` is strictly inside the string
      (`\B`) and a positive multiple of three digits runs from `p` to the end. */
  predicate CommaBefore(len: nat, p: nat) {
    0 < p < len && (len - p) % 3 == 0
  }

  /** The first `k` characters of `s` after `replace(..., ',')`: each character,
      preceded by a comma where the expression matches. */
  function ReplaceUpTo(s: string, k: nat): string
    requires k <= |s|
  {
    if k == 0 then ""
    else ReplaceUpTo(s, k - 1) + (if CommaBefore(|s|, k - 1) then "," else "") + [s[k - 1]]
  }

  /** `num.toString().replace(/\B(?=(\d{3})+(?!\d))/g, ',')` for a non-negative integer:
      the number's digits grouped by threes from the right, with nothing but commas added. */
  function FormatNumber(n: nat): (r: string)
    ensures r == Grouped(NatToString(n))
    ensures Filter(r, NotComma) == NatToString(n)
    ensures CommasEveryFourth(r)
  {
    var s := NatToString(n);
    ReplaceIsGrouped(s);
    GroupedDigits(s);
    GroupedCommas(s);
    ReplaceUpTo(s, |s|)
  }

  /** Grouping from the right: the last three digits form a group, preceded by the
      grouped rest. */
  function Grouped(s: string): (r: string)
    decreases |s|
  {
    if |s| <= 3 then s else Grouped(s[..|s| - 3]) + "," + s[|s| - 3..]
  }

  /** The scan agrees on a prefix whose length differs from the whole by a multiple of three. */
  lemma {:induction false} ReplacePrefix(s: string, t: string, k: nat)
    requires |t| <= |s| && t == s[..|t|] && (|s| - |t|) % 3 == 0 && k <= |t|
    ensures ReplaceUpTo(s, k) == ReplaceUpTo(t, k)
  {
    if k > 0 {
      ReplacePrefix(s, t, k - 1);
      assert s[k - 1] == t[k - 1];
      assert CommaBefore(|s|, k - 1) == CommaBefore(|t|, k - 1) by {
        assert (|s| - (k - 1)) == (|s| - |t|) + (|t| - (k - 1));
      }
    }
  }

  /** A string of at most three digits gets no comma. */
  lemma {:induction false} ReplaceShort(s: string, k: nat)
    requires |s| <= 3 && k <= |s|
    ensures ReplaceUpTo(s, k) == s[..k]
  {
    if k > 0 {
      ReplaceShort(s, k - 1);
      assert s[..k] == s[..k - 1] + [s[k - 1]];
    }
  }

  /** The expression matches three digits before the end and not one or two before. */
  lemma LastGroupMatches(n: nat)
    requires n > 3
    ensures CommaBefore(n, n - 3) && !CommaBefore(n, n - 2) && !CommaBefore(n, n - 1)
  {
  }

  lemma LastThree(s: string)
    requires |s| >= 3
    ensures s[|s| - 3..] == [s[|s| - 3], s[|s| - 2], s[|s| - 1]]
  {
  }

  lemma AppendThree(a0: string, a1: string, a2: string, h: string, x: char, y: char, z: char)
    requires a2 == h + "," + [x] && a1 == a2 + [y] && a0 == a1 + [z]
    ensures a0 == h + "," + [x, y, z]
  {
  }

  /** One step of the scan. */
  lemma ReplaceStep(s: string, k: nat)
    requires k < |s|
    ensures CommaBefore(|s|, k) ==> ReplaceUpTo(s, k + 1) == ReplaceUpTo(s, k) + "," + [s[k]]
    ensures !CommaBefore(|s|, k) ==> ReplaceUpTo(s, k + 1) == ReplaceUpTo(s, k) + [s[k]]
  {
    assert ReplaceUpTo(s, k) + "" == ReplaceUpTo(s, k);
  }

  /** The scan's last three steps on a string of more than three digits: a comma, then
      the final group. */
  lemma ReplaceLastGroup(s: string)
    requires |s| > 3
    ensures ReplaceUpTo(s, |s|) == ReplaceUpTo(s, |s| - 3) + "," + s[|s| - 3..]
  {
    var n := |s|;
    LastGroupMatches(n);
    ReplaceStep(s, n - 3);
    ReplaceStep(s, n - 2);
    ReplaceStep(s, n - 1);
    LastThree(s);
    AppendThree(ReplaceUpTo(s, n), ReplaceUpTo(s, n - 1), ReplaceUpTo(s, n - 2), ReplaceUpTo(s, n - 3),
      s[n - 3], s[n - 2], s[n - 1]);
  }

  /** The inductive step: if the scan groups the digits before the last three, it groups
      the whole string. */
  lemma ReplaceGroupedStep(s: string)
    requires |s| > 3
    requires ReplaceUpTo(s[..|s| - 3], |s| - 3) == Grouped(s[..|s| - 3])
    ensures ReplaceUpTo(s, |s|) == Grouped(s)
  {
    var n := |s|;
    var t := s[..n - 3];
    ReplacePrefix(s, t, n - 3);
    ReplaceLastGroup(s);
  }

  /** The regular expression's replacement is the grouping from the right. */
  lemma {:induction false} ReplaceIsGrouped(s: string)
    ensures ReplaceUpTo(s, |s|) == Grouped(s)
    decreases |s|
  {
    if |s| <= 3 {
      ReplaceShort(s, |s|);
      assert s[..|s|] == s;
    } else {
      ReplaceIsGrouped(s[..|s| - 3]);
      ReplaceGroupedStep(s);
    }
  }

  predicate NotComma(c: char) {
    c != ','
  }

  /** Deleting the commas of a string of digits changes nothing. */
  lemma DigitsHaveNoComma(s: string)
    requires AllDigits(s)
    ensures Filter(s, NotComma) == s
  {
    forall i | 0 <= i < |s| ensures NotComma(s[i]) {
      assert IsDigit(s[i]);
    }
    FilterKeepsAll(s, NotComma);
  }

  /** Deleting the commas of one more group: the comma goes, the digits stay. */
  lemma FilterJoin(g: string, tail: string)
    requires AllDigits(tail)
    ensures Filter(g + "," + tail, NotComma) == Filter(g, NotComma) + tail
  {
    DigitsHaveNoComma(tail);
    FilterAppend(g + ",", tail, NotComma);
    FilterAppend(g, ",", NotComma);
    assert Filter(",", NotComma) == [];
    assert Filter(g, NotComma) + [] == Filter(g, NotComma);
  }

  /** The inductive step of `GroupedDigits`. */
  lemma GroupedDigitsStep(s: string)
    requires AllDigits(s) && |s| > 3
    requires Filter(Grouped(s[..|s| - 3]), NotComma) == s[..|s| - 3]
    ensures Filter(Grouped(s), NotComma) == s
  {
    var t := s[..|s| - 3];
    var tail := s[|s| - 3..];
    assert AllDigits(tail) by {
      forall i | 0 <= i < |tail| ensures IsDigit(tail[i]) {
        assert tail[i] == s[|s| - 3 + i];
      }
    }
    FilterJoin(Grouped(t), tail);
    assert s == t + tail;
  }

  /** Deleting the commas of a grouped digit string gives the digits back. */
  lemma {:induction false} GroupedDigits(s: string)
    requires AllDigits(s)
    ensures Filter(Grouped(s), NotComma) == s
    decreases |s|
  {
    if |s| <= 3 {
      DigitsHaveNoComma(s);
    } else {
      assert AllDigits(s[..|s| - 3]);
      GroupedDigits(s[..|s| - 3]);
      GroupedDigitsStep(s);
    }
  }

  /** Where a grouped string has its commas: exactly at the positive positions a
      multiple of four from the end. */
  predicate CommasEveryFourth(r: string) {
    && |r| % 4 != 0
    && forall i :: 0 <= i < |r| ==> (r[i] == ',' <==> i > 0 && (|r| - i) % 4 == 0)
  }

  /** Appending a comma and three digits keeps the commas every fourth place. */
  lemma CommasJoin(g: string, tail: string)
    requires CommasEveryFourth(g) && |tail| == 3 && AllDigits(tail)
    ensures CommasEveryFourth(g + "," + tail)
  {
    var r := g + "," + tail;
    forall i | 0 <= i < |r|
      ensures r[i] == ',' <==> i > 0 && (|r| - i) % 4 == 0
    {
      if i < |g| {
        assert r[i] == g[i];
        assert |r| - i == (|g| - i) + 4;
      } else if i > |g| {
        assert r[i] == tail[i - |g| - 1];
        assert IsDigit(tail[i - |g| - 1]);
      }
    }
  }

  /** The inductive step of `GroupedCommas`. */
  lemma GroupedCommasStep(s: string)
    requires AllDigits(s) && |s| > 3
    requires CommasEveryFourth(Grouped(s[..|s| - 3]))
    ensures CommasEveryFourth(Grouped(s))
  {
    var tail := s[|s| - 3..];
    assert AllDigits(tail) by {
      forall i | 0 <= i < |tail| ensures IsDigit(tail[i]) {
        assert tail[i] == s[|s| - 3 + i];
      }
    }
    CommasJoin(Grouped(s[..|s| - 3]), tail);
  }

  /** Grouping a digit string puts a comma exactly at the positions a positive
      multiple of four from the end, other than the first, so one to three digits
      precede the first comma and exactly three follow each. */
  lemma {:induction false} GroupedCommas(s: string)
    requires AllDigits(s) && |s| >= 1
    ensures CommasEveryFourth(Grouped(s))
    decreases |s|
  {
    if |s| <= 3 {
      var r := Grouped(s);
      forall i | 0 <= i < |r|
        ensures r[i] == ',' <==> i > 0 && (|r| - i) % 4 == 0
      {
        assert IsDigit(s[i]);
      }
    } else {
      assert AllDigits(s[..|s| - 3]);
      GroupedCommas(s[..|s| - 3]);
      GroupedCommasStep(s);
    }
  }

  /** The maximum the app passes, as the panel prints it. */
  lemma FormatMaxRows()
    ensures FormatNumber(100000) == "100,000"
  {
    GroupedMaxRows();
  }

  lemma GroupedMaxRows()
    ensures Grouped(NatToString(100000)) == "100,000"
  {
    var s := NatToString(100000);
    assert s == "100000";
    assert Grouped(s) == s[..3] + "," + s[3..];
  }

  // ---------------------------------------------------------------------------
  // handleGenerate, handleQuickSelect, the custom input and the estimate
  // ---------------------------------------------------------------------------

  /** The panel's state: the selected `rowCount`, and the custom input, empty (`''`) or
      holding a number, modelled by its decimal value. */
  datatype PanelState = PanelState(rowCount: int, customRows: Option<int>)

  const InitialPanel: PanelState := PanelState(1000, None)

  /** `customRows || rowCount`: the empty string is the only falsy input value. */
  function RequestedRows(s: PanelState): (rows: int)
    ensures s.customRows.Some? ==> rows == s.customRows.value
    ensures s.customRows.None? ==> rows == s.rowCount
  {
    match s.customRows
    case Some(n) => n
    case None => s.rowCount
  }

  /** The "Generate" button's `disabled`: the status shown is `processing` or `starting`
      (`generationStatus?.status` of `null` is `undefined`). */
  predicate GenerateDisabled(status: Option<map<string, JsValue>>) {
    status.Some? && (Get(status.value, "status") == Str("processing") || Get(status.value, "status") == Str("starting"))
  }

  /** What a click on "Generate" does: an alert, or `onGenerate(rows)`. */
  datatype Decision = Alert(message: string) | Generate(rows: int)

  function HandleGenerate(s: PanelState, maxRows: nat): (d: Decision)
    ensures d.Generate? <==> 1 <= RequestedRows(s) <= maxRows
    ensures d.Generate? ==> d.rows == RequestedRows(s)
    ensures RequestedRows(s) > maxRows ==> d == Alert("Maximum " + FormatNumber(maxRows) + " rows allowed")
    ensures RequestedRows(s) < 1 ==> d == Alert("Please enter at least 1 row")
  {
    var rows := RequestedRows(s);
    if rows > maxRows then Alert("Maximum " + FormatNumber(maxRows) + " rows allowed")
    else if rows < 1 then Alert("Please enter at least 1 row")
    else Generate(rows)
  }

  /** handleQuickSelect: pick a preset and clear the custom input. */
  function QuickSelect(s: PanelState, count: int): (s': PanelState)
    ensures RequestedRows(s') == count && s'.customRows == None
  {
    PanelState(count, None)
  }

  /** The custom input's `onChange`: store the input, and when it is non-empty also make
      it the selected count. The input is modelled by its decimal value, which
      `parseInt(value) || 0` gives back when the text is plain decimal digits. */
  function CustomInput(s: PanelState, value: Option<int>): (s': PanelState)
    ensures s'.customRows == value
    ensures RequestedRows(s') == if value.Some? then value.value else s.rowCount
  {
    match value
    case Some(n) => PanelState(n, value)
    case None => PanelState(s.rowCount, None)
  }

  /** After clearing the custom input, the last typed number stays selected. */
  lemma ClearingKeepsTypedCount(s: PanelState, n: int)
    ensures RequestedRows(CustomInput(CustomInput(s, Some(n)), None)) == n
  {
  }

  /** The chunk estimate the panel shows: `Math.ceil(rows / 10000)`. */
  function ChunkEstimate(s: PanelState): (k: int)
    ensures (k - 1) * MaxChunkSize < RequestedRows(s) <= k * MaxChunkSize
    ensures RequestedRows(s) >= 1 ==> k == ChunkCount(RequestedRows(s))
  {
    CeilDiv(RequestedRows(s), MaxChunkSize)
  }

  /** For every count the panel lets through, the estimate is the number of chunks the
      server plans. */
  lemma EstimateMatchesPlan(s: PanelState, maxRows: nat, fields: seq<Field>, jobId: string)
    requires HandleGenerate(s, maxRows).Generate?
    ensures ChunkEstimate(s) == |Plan(fields, HandleGenerate(s, maxRows).rows, jobId)|
  {
  }

  /** The quick picks' estimates: 1, 1, 1 and 5 chunks for 1,000, 5,000, 10,000 and 50,000 rows. */
  lemma QuickPickEstimates(s: PanelState)
    ensures ChunkEstimate(QuickSelect(s, 1000)) == 1 && ChunkEstimate(QuickSelect(s, 5000)) == 1
    ensures ChunkEstimate(QuickSelect(s, 10000)) == 1 && ChunkEstimate(QuickSelect(s, 50000)) == 5
  {
  }
}
