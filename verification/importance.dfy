/** The two table filters of oncosensepy.py: important_L keeps the analysis
    columns with enough significant values, filter_by_col keeps the rows
    whose value in one column is listed. */
module Importance {
  import opened Exceptions
  import opened Frames
  import opened Validation

  const ThresholdMessage := "Threshold should be positive number"

  /** The first analysis column: the one after `time`. */
  const FirstAnalysisColumn: nat := TimeColumn + 1

  function Abs(v: real): real {
    if v < 0.0 then -v else v
  }

  /** `abs(cell) > err_limit`: a missing value (NaN) compares false, and a
      text cell makes abs() raise. */
  predicate Above(c: Cell, limit: real) {
    c.Num? && Abs(c.value) > limit
  }

  /** The number of cells above the limit in absolute value. */
  function CountAbove(cells: seq<Cell>, limit: real): (r: Result<nat>)
    ensures r.Ok? <==> forall k :: 0 <= k < |cells| ==> !cells[k].Str?
    ensures r.Err? ==> r.error == TypeError
    ensures r.Ok? ==> r.value <= |cells|
    ensures r.Ok? ==> (r.value == 0 <==> forall k :: 0 <= k < |cells| ==> !Above(cells[k], limit))
    ensures r.Ok? ==> (r.value == |cells| <==> forall k :: 0 <= k < |cells| ==> Above(cells[k], limit))
  {
    if |cells| == 0 then Ok(0)
    else
      var init := cells[..|cells| - 1];
      var last := cells[|cells| - 1];
      assert forall k :: 0 <= k < |init| ==> init[k] == cells[k];
      var n :- CountAbove(init, limit);
      if last.Str? then Err(TypeError)
      else Ok(n + if Above(last, limit) then 1 else 0)
  }

  /** The counting loop of important_L, cell by cell. */
  method CountAboveLimit(cells: seq<Cell>, limit: real) returns (r: Result<nat>)
    ensures r == CountAbove(cells, limit)
  {
    var count := 0;
    var i := 0;
    while i < |cells|
      invariant 0 <= i <= |cells|
      invariant CountAbove(cells[..i], limit) == Ok(count)
    {
      assert cells[..i + 1][..i] == cells[..i];
      if cells[i].Str? {
        assert cells[..i + 1][i].Str?;
        ValueOfErr(cells[..i + 1], cells, limit);
        return Err(TypeError);
      }
      if Above(cells[i], limit) {
        count := count + 1;
      }
      i := i + 1;
    }
    assert cells[..i] == cells;
    r := Ok(count);
  }

  /** A text cell anywhere makes the whole count fail. */
  lemma ValueOfErr(prefix: seq<Cell>, cells: seq<Cell>, limit: real)
    requires prefix <= cells && CountAbove(prefix, limit).Err?
    ensures CountAbove(cells, limit) == Err(TypeError)
  {
    var k :| 0 <= k < |prefix| && prefix[k].Str?;
    assert cells[k].Str?;
  }

  /** Raising the limit never raises the count. */
  lemma {:induction false} CountAboveAntitone(cells: seq<Cell>, lo: real, hi: real)
    requires lo <= hi && CountAbove(cells, lo).Ok?
    ensures CountAbove(cells, hi).Ok? && CountAbove(cells, hi).value <= CountAbove(cells, lo).value
  {
    if |cells| > 0 {
      var init := cells[..|cells| - 1];
      assert forall k :: 0 <= k < |init| ==> init[k] == cells[k];
      CountAboveAntitone(init, lo, hi);
    }
  }

  /* ----- the corrected important_L ----- */

  /** `s` lists, in table order, exactly the columns from `j` on with at
      least `threshold` cells above the limit. */
  predicate KeptAt(t: Table, limit: real, threshold: int, j: nat, s: seq<nat>)
    requires WellFormed(t) && j <= |t.columns|
  {
    && (forall k :: 0 <= k < |s| ==> j <= s[k] < |t.columns|)
    && (forall a, b :: 0 <= a < b < |s| ==> s[a] < s[b])
    && (forall c :: j <= c < |t.columns| ==>
          CountAbove(Column(t, c), limit).Ok?
          && (c in s <==> CountAbove(Column(t, c), limit).value >= threshold))
  }

  /** The positions, from `j` on, of the analysis columns kept: those with
      at least `threshold` cells above the limit, in table order. Any text
      cell in an analysis column raises TypeError. */
  function KeptFrom(t: Table, limit: real, threshold: int, j: nat): (r: Result<seq<nat>>)
    requires WellFormed(t) && j <= |t.columns|
    ensures r.Err? ==> r.error == TypeError
    ensures r.Err? <==> exists c :: j <= c < |t.columns| && CountAbove(Column(t, c), limit).Err?
    ensures r.Ok? ==> KeptAt(t, limit, threshold, j, r.value)
    decreases |t.columns| - j
  {
    if j == |t.columns| then Ok([])
    else
      var here := CountAbove(Column(t, j), limit);
      var rest := KeptFrom(t, limit, threshold, j + 1);
      if here.Err? then Err(TypeError)
      else if rest.Err? then Err(TypeError)
      else
        KeptStep(t, limit, threshold, j, rest.value);
        Ok(if here.value >= threshold then [j] + rest.value else rest.value)
  }

  /** Deciding on column `j` extends the decision on the columns after it. */
  lemma KeptStep(t: Table, limit: real, threshold: int, j: nat, rest: seq<nat>)
    requires WellFormed(t) && j < |t.columns| && CountAbove(Column(t, j), limit).Ok?
    requires KeptAt(t, limit, threshold, j + 1, rest)
    ensures KeptAt(t, limit, threshold, j,
              if CountAbove(Column(t, j), limit).value >= threshold then [j] + rest else rest)
  {
    assert j !in rest;
  }

  function KeptColumns(t: Table, limit: real, threshold: int): (r: Result<seq<nat>>)
    requires WellFormed(t) && |t.columns| >= FirstAnalysisColumn
    ensures r.Err? <==> exists c :: FirstAnalysisColumn <= c < |t.columns| && CountAbove(Column(t, c), limit).Err?
    ensures r.Ok? ==> forall k :: 0 <= k < |r.value| ==> FirstAnalysisColumn <= r.value[k] < |t.columns|
    ensures r.Ok? ==> forall a, b :: 0 <= a < b < |r.value| ==> r.value[a] < r.value[b]
    ensures r.Ok? ==> forall c :: FirstAnalysisColumn <= c < |t.columns| ==>
              (c in r.value <==> CountAbove(Column(t, c), limit).value >= threshold)
  {
    var r := KeptFrom(t, limit, threshold, FirstAnalysisColumn);
    assert r.Ok? ==> KeptAt(t, limit, threshold, FirstAnalysisColumn, r.value);
    r
  }

  /** important_L with its first selection read as "the six identifier
      columns": validate, reject a negative threshold, then the identifier
      columns followed by the kept analysis columns, rows unchanged. */
  function ImportantL(t: Table, limit: real, threshold: int): (r: Result<Table>)
    requires WellFormed(t)
    ensures IsValidL(t).Err? ==> r == Err(IsValidL(t).error)
    ensures IsValidL(t).Ok? && threshold < 0 ==> r == Err(NegativeNumberException(ThresholdMessage))
    ensures IsValidL(t).Ok? && threshold >= 0 ==>
              (r.Ok? <==> KeptColumns(t, limit, threshold).Ok?)
    ensures r.Ok? ==> WellFormed(r.value) && |r.value.rows| == |t.rows|
    ensures r.Ok? ==> var kept := KeptColumns(t, limit, threshold).value;
              |r.value.columns| == FirstAnalysisColumn + |kept|
              && r.value.columns[..FirstAnalysisColumn] == t.columns[..FirstAnalysisColumn]
              && (forall k :: 0 <= k < |kept| ==> r.value.columns[FirstAnalysisColumn + k] == t.columns[kept[k]])
              && (forall k :: 0 <= k < |kept| ==>
                    Column(r.value, FirstAnalysisColumn + k) == Column(t, kept[k]))
              && (forall k :: 0 <= k < FirstAnalysisColumn ==> Column(r.value, k) == Column(t, k))
  {
    var _ :- IsValidL(t);
    if threshold < 0 then Err(NegativeNumberException(ThresholdMessage))
    else
      var kept :- KeptColumns(t, limit, threshold);
      ProjectAfterPrefix(t, kept);
      Ok(Project(t, Range(FirstAnalysisColumn) + kept))
  }

  /** Selecting the identifier columns followed by `kept`. */
  lemma ProjectAfterPrefix(t: Table, kept: seq<nat>)
    requires WellFormed(t) && |t.columns| >= FirstAnalysisColumn && IndicesIn(kept, |t.columns|)
    ensures IndicesIn(Range(FirstAnalysisColumn) + kept, |t.columns|)
    ensures var r := Project(t, Range(FirstAnalysisColumn) + kept);
              |r.columns| == FirstAnalysisColumn + |kept|
              && r.columns[..FirstAnalysisColumn] == t.columns[..FirstAnalysisColumn]
              && (forall k :: 0 <= k < |kept| ==> r.columns[FirstAnalysisColumn + k] == t.columns[kept[k]])
              && (forall k :: 0 <= k < |kept| ==> Column(r, FirstAnalysisColumn + k) == Column(t, kept[k]))
              && (forall k :: 0 <= k < FirstAnalysisColumn ==> Column(r, k) == Column(t, k))
  {
    var idx := Range(FirstAnalysisColumn) + kept;
    var r := Project(t, idx);
    assert forall k :: 0 <= k < |kept| ==> idx[FirstAnalysisColumn + k] == kept[k];
    assert forall k :: 0 <= k < FirstAnalysisColumn ==> idx[k] == k;
    assert r.columns[..FirstAnalysisColumn] == t.columns[..FirstAnalysisColumn];
  }

  /** With threshold 0 every analysis column is kept. */
  lemma ZeroThresholdKeepsAll(t: Table, limit: real)
    requires WellFormed(t) && |t.columns| >= FirstAnalysisColumn
    requires KeptColumns(t, limit, 0).Ok?
    ensures KeptColumns(t, limit, 0).value == seq(|t.columns| - FirstAnalysisColumn, k requires 0 <= k => FirstAnalysisColumn + k)
  {
    var kept := KeptColumns(t, limit, 0).value;
    StrictlyIncreasingIsRange(kept, FirstAnalysisColumn, |t.columns|);
  }

  /** A strictly increasing sequence inside [lo, hi) that holds every value
      of the range is the range itself. */
  lemma {:induction false} StrictlyIncreasingIsRange(s: seq<nat>, lo: nat, hi: nat)
    requires lo <= hi
    requires forall k :: 0 <= k < |s| ==> lo <= s[k] < hi
    requires forall a, b :: 0 <= a < b < |s| ==> s[a] < s[b]
    requires forall c :: lo <= c < hi ==> c in s
    ensures s == seq(hi - lo, k requires 0 <= k => lo + k)
    decreases hi - lo
  {
    assert |s| > 0 ==> lo <= s[0] < hi;
    if lo < hi {
      TailCoversRest(s, lo, hi);
      StrictlyIncreasingIsRange(s[1..], lo + 1, hi);
      RangeCons(lo, hi);
      assert s == [s[0]] + s[1..];
    }
  }

  /** The smallest value of the range comes first, and the rest of the
      range lies in the tail. */
  lemma TailCoversRest(s: seq<nat>, lo: nat, hi: nat)
    requires lo < hi
    requires forall k :: 0 <= k < |s| ==> lo <= s[k] < hi
    requires forall a, b :: 0 <= a < b < |s| ==> s[a] < s[b]
    requires forall c :: lo <= c < hi ==> c in s
    ensures |s| > 0 && s[0] == lo
    ensures forall k :: 0 <= k < |s[1..]| ==> lo + 1 <= s[1..][k] < hi
    ensures forall c :: lo + 1 <= c < hi ==> c in s[1..]
  {
    assert lo in s;
    forall c | lo + 1 <= c < hi ensures c in s[1..] {
      assert c in s;
      var m :| 0 <= m < |s| && s[m] == c;
      assert s[1..][m - 1] == c;
    }
  }

  lemma RangeCons(lo: nat, hi: nat)
    requires lo < hi
    ensures seq(hi - lo, k requires 0 <= k => lo + k) == [lo] + seq(hi - (lo + 1), k requires 0 <= k => lo + 1 + k)
  {
  }

  /** A threshold above the number of rows keeps no analysis column. */
  lemma HighThresholdKeepsNone(t: Table, limit: real, threshold: int)
    requires WellFormed(t) && |t.columns| >= FirstAnalysisColumn && threshold > |t.rows|
    requires KeptColumns(t, limit, threshold).Ok?
    ensures forall c :: c !in KeptColumns(t, limit, threshold).value
  {
    var kept := KeptColumns(t, limit, threshold).value;
    forall c | FirstAnalysisColumn <= c < |t.columns| ensures c !in kept {
      assert |Column(t, c)| == |t.rows|;
    }
  }

  /* ----- important_L as written: a label slice ----- */

  /** The label that `loc[:, :5]` slices up to. */
  const SliceBound := Number(5.0)

  /** important_L as written. `loc[:, :5]` selects by label: every column up
      to and including the one labelled 5, or TypeError when no column has
      that label. Kept analysis columns inside that prefix are already
      present; the others are appended in table order. */
  function ImportantLAsWritten(t: Table, limit: real, threshold: int): (r: Result<Table>)
    requires WellFormed(t)
    ensures IsValidL(t).Err? ==> r == Err(IsValidL(t).error)
    ensures IsValidL(t).Ok? && threshold < 0 ==> r == Err(NegativeNumberException(ThresholdMessage))
    ensures IsValidL(t).Ok? && threshold >= 0 && SliceBound !in t.columns ==> r == Err(TypeError)
    ensures r.Ok? ==> IsValidL(t).Ok? && threshold >= 0 && KeptColumns(t, limit, threshold).Ok?
    ensures r.Ok? ==> WellFormed(r.value) && |r.value.rows| == |t.rows|
    ensures r.Ok? ==> var b := IndexOf(t.columns, SliceBound).value;
              |r.value.columns| > b && r.value.columns[..b + 1] == t.columns[..b + 1]
  {
    var _ :- IsValidL(t);
    if threshold < 0 then Err(NegativeNumberException(ThresholdMessage))
    else
      match IndexOf(t.columns, SliceBound)
      case None => Err(TypeError)
      case Some(b) =>
        var kept :- KeptColumns(t, limit, threshold);
        var idx := Range(b + 1) + After(kept, b);
        var r := Project(t, idx);
        assert r.columns[..b + 1] == t.columns[..b + 1];
        Ok(r)
  }

  /** The positions of `s` beyond `b`, in order. */
  function After(s: seq<nat>, b: nat): (r: seq<nat>)
    ensures forall k :: 0 <= k < |r| ==> r[k] in s && r[k] > b
  {
    if |s| == 0 then []
    else if s[0] > b then [s[0]] + After(s[1..], b)
    else After(s[1..], b)
  }

  /** As written, a valid table without a column labelled 5 is refused,
      while the corrected selection accepts it. */
  lemma AsWrittenRefusesTableWithoutLabelFive(t: Table, limit: real, threshold: int)
    requires WellFormed(t) && IsValidL(t).Ok? && threshold >= 0
    requires KeptColumns(t, limit, threshold).Ok? && SliceBound !in t.columns
    ensures ImportantLAsWritten(t, limit, threshold) == Err(TypeError)
    ensures ImportantL(t, limit, threshold).Ok?
  {
  }

  /** As written, an analysis column placed before the column labelled 5
      survives even when it has too few significant values; the corrected
      selection drops it. */
  lemma AsWrittenKeepsInsignificantColumn(t: Table, limit: real, threshold: int, j: nat)
    requires WellFormed(t) && ImportantLAsWritten(t, limit, threshold).Ok?
    requires FirstAnalysisColumn <= j < |t.columns| && SliceBound !in t.columns[..j]
    requires CountAbove(Column(t, j), limit).Ok? && CountAbove(Column(t, j), limit).value < threshold
    requires SliceBound in t.columns[j..]
    ensures ImportantLAsWritten(t, limit, threshold).value.columns[j] == t.columns[j]
    ensures ImportantL(t, limit, threshold).Ok? && j !in KeptColumns(t, limit, threshold).value
  {
    var b := IndexOf(t.columns, SliceBound).value;
    var k :| j <= k < |t.columns| && t.columns[k] == SliceBound;
    assert t.columns[k] == t.columns[j..][k - j];
    var r := ImportantLAsWritten(t, limit, threshold).value;
    assert r.columns[..b + 1][j] == r.columns[j];
    assert ImportantL(t, limit, threshold).Ok?;
    assert j !in KeptColumns(t, limit, threshold).value;
  }

  /* ----- filter_by_col ----- */

  /** The rows whose cell at position `j` is one of `values`, in order. */
  function FilterRows(rows: seq<seq<Cell>>, j: nat, values: seq<Cell>): (r: seq<seq<Cell>>)
    requires forall i :: 0 <= i < |rows| ==> j < |rows[i]|
    ensures |r| <= |rows|
    ensures forall row :: row in r <==> row in rows && row[j] in values
    ensures forall i :: 0 <= i < |r| ==> j < |r[i]|
  {
    if |rows| == 0 then []
    else
      var init := rows[..|rows| - 1];
      var last := rows[|rows| - 1];
      assert rows == init + [last];
      var r := FilterRows(init, j, values);
      if last[j] in values then r + [last] else r
  }

  /** Filtering distributes over concatenation: the rows keep their order. */
  lemma {:induction false} FilterRowsAppend(a: seq<seq<Cell>>, b: seq<seq<Cell>>, j: nat, values: seq<Cell>)
    requires forall i :: 0 <= i < |a| ==> j < |a[i]|
    requires forall i :: 0 <= i < |b| ==> j < |b[i]|
    ensures forall i :: 0 <= i < |a + b| ==> j < |(a + b)[i]|
    ensures FilterRows(a + b, j, values) == FilterRows(a, j, values) + FilterRows(b, j, values)
  {
    if |b| > 0 {
      var init := b[..|b| - 1];
      assert (a + b)[..|a + b| - 1] == a + init;
      FilterRowsAppend(a, init, j, values);
    } else {
      assert a + b == a;
    }
  }

  /** Filtering the filtered rows again by the same list changes nothing. */
  lemma {:induction false} FilterRowsIdempotent(rows: seq<seq<Cell>>, j: nat, values: seq<Cell>)
    requires forall i :: 0 <= i < |rows| ==> j < |rows[i]|
    ensures FilterRows(FilterRows(rows, j, values), j, values) == FilterRows(rows, j, values)
  {
    if |rows| > 0 {
      var init := rows[..|rows| - 1];
      var last := rows[|rows| - 1];
      FilterRowsIdempotent(init, j, values);
      var r := FilterRows(init, j, values);
      if last[j] in values {
        FilterRowsAppend(r, [last], j, values);
        assert [last][..0] == [];
      }
    }
  }

  /** Filtering by one list and then by another keeps the rows whose cell is
      in both lists. */
  lemma {:induction false} FilterRowsTwice(rows: seq<seq<Cell>>, j: nat, a: seq<Cell>, b: seq<Cell>, both: seq<Cell>)
    requires forall i :: 0 <= i < |rows| ==> j < |rows[i]|
    requires forall c :: c in both <==> c in a && c in b
    ensures FilterRows(FilterRows(rows, j, a), j, b) == FilterRows(rows, j, both)
  {
    if |rows| > 0 {
      var init := rows[..|rows| - 1];
      var last := rows[|rows| - 1];
      FilterRowsTwice(init, j, a, b, both);
      var r := FilterRows(init, j, a);
      if last[j] in a {
        FilterRowsAppend(r, [last], j, b);
        assert [last][..0] == [];
      }
    }
  }

  /** filter_by_col: validate, find the column (KeyError when it is absent),
      then keep the rows whose value there is listed. */
  function FilterByCol(t: Table, col: Label, values: seq<Cell>): (r: Result<Table>)
    requires WellFormed(t)
    ensures IsValidL(t).Err? ==> r == Err(IsValidL(t).error)
    ensures IsValidL(t).Ok? && col !in t.columns ==> r == Err(KeyError)
    ensures r.Ok? <==> IsValidL(t).Ok? && col in t.columns
    ensures r.Ok? ==> WellFormed(r.value) && r.value.columns == t.columns
    ensures r.Ok? ==> r.value.rows == FilterRows(t.rows, IndexOf(t.columns, col).value, values)
    ensures r.Ok? ==> var j := IndexOf(t.columns, col).value;
              forall row :: row in r.value.rows <==> row in t.rows && row[j] in values
    ensures r.Ok? && |values| == 0 ==> r.value.rows == []
  {
    var _ :- IsValidL(t);
    match IndexOf(t.columns, col)
    case None => Err(KeyError)
    case Some(j) =>
      var rows := FilterRows(t.rows, j, values);
      assert forall i :: 0 <= i < |rows| ==> rows[i] in t.rows;
      assert |rows| > 0 ==> rows[0] in rows;
      Ok(Table(t.columns, rows))
  }
}
