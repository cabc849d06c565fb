/** DataFrames as immutable values: a header of column labels and a sequence
    of rows, each row holding one cell per column. */
module Frames {
  import opened Exceptions

  /** A column label. pandas reads a header cell as text or as a number. */
  datatype Label = Name(text: string) | Number(value: real)

  /** One cell: text, a number, or a missing value (NaN). */
  datatype Cell = Str(text: string) | Num(value: real) | Missing

  datatype Table = Table(columns: seq<Label>, rows: seq<seq<Cell>>)

  /** Every row has exactly one cell per column. */
  predicate WellFormed(t: Table) {
    forall i :: 0 <= i < |t.rows| ==> |t.rows[i]| == |t.columns|
  }

  /** The position of the first column labelled `l`: where `df[l]` looks. */
  function IndexOf(labels: seq<Label>, l: Label): (r: Option<nat>)
    ensures r.None? <==> l !in labels
    ensures r.Some? ==> r.value < |labels| && labels[r.value] == l
    ensures r.Some? ==> forall k :: 0 <= k < r.value ==> labels[k] != l
  {
    if |labels| == 0 then None
    else if labels[0] == l then Some(0)
    else match IndexOf(labels[1..], l)
      case None => None
      case Some(k) => Some(k + 1)
  }

  /** The cells of column `j`, top to bottom. */
  function Column(t: Table, j: nat): seq<Cell>
    requires WellFormed(t) && j < |t.columns|
  {
    seq(|t.rows|, i requires 0 <= i < |t.rows| => t.rows[i][j])
  }

  /** 0, 1, ..., n - 1. */
  function Range(n: nat): seq<nat> {
    seq(n, k requires 0 <= k => k as nat)
  }

  predicate IndicesIn(idx: seq<nat>, n: nat) {
    forall k :: 0 <= k < |idx| ==> idx[k] < n
  }

  /** The table made of the columns at positions `idx`, in that order, with
      every row kept. */
  function Project(t: Table, idx: seq<nat>): (r: Table)
    requires WellFormed(t) && IndicesIn(idx, |t.columns|)
    ensures WellFormed(r) && |r.rows| == |t.rows| && |r.columns| == |idx|
    ensures forall k :: 0 <= k < |idx| ==> r.columns[k] == t.columns[idx[k]]
    ensures forall k :: 0 <= k < |idx| ==> Column(r, k) == Column(t, idx[k])
  {
    Table(seq(|idx|, k requires 0 <= k < |idx| => t.columns[idx[k]]),
          seq(|t.rows|, i requires 0 <= i < |t.rows| =>
            seq(|idx|, k requires 0 <= k < |idx| => t.rows[i][idx[k]])))
  }
}
