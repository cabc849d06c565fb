/** The clean-up get_LGE_data applies after reading the sheets: missing
    values become 0, and a 0 in four identifier columns becomes that
    column's placeholder text. Reading the workbook is not modelled. */
module Loading {
  import opened Exceptions
  import opened Frames
  import Parsing

  /** `fillna(0)` on one cell. */
  function FillNa(c: Cell): Cell {
    if c.Missing? then Num(0.0) else c
  }

  /** `lambda x: sentinel if x == 0 else x`: only a numeric zero is
      replaced; text never equals 0. */
  function Substitute(c: Cell, sentinel: string): (r: Cell)
    ensures r != Num(0.0)
    ensures c != Num(0.0) ==> r == c
  {
    if c == Num(0.0) then Str(sentinel) else c
  }

  /** The identifier columns that get a placeholder, in the order they are
      rewritten, each with its placeholder. */
  const Placeholders: seq<(string, string)> :=
    [("compound_name", "CONTROL"), ("2D_3D", Parsing.NoDosage), ("dosage", Parsing.NoDosage), ("time", "0hr")]

  /** `fillna(0)` on the whole table. */
  function FillNaTable(t: Table): (r: Table)
    requires WellFormed(t)
    ensures WellFormed(r) && r.columns == t.columns && |r.rows| == |t.rows|
    ensures forall i, j :: 0 <= i < |t.rows| && 0 <= j < |t.columns| ==> r.rows[i][j] == FillNa(t.rows[i][j])
  {
    Table(t.columns, seq(|t.rows|, i requires 0 <= i < |t.rows| =>
      seq(|t.columns|, j requires 0 <= j < |t.columns| => FillNa(t.rows[i][j]))))
  }

  /** `df[label] = df[label].apply(...)` on column `j`. */
  function SubstituteColumn(t: Table, j: nat, sentinel: string): (r: Table)
    requires WellFormed(t) && j < |t.columns|
    ensures WellFormed(r) && r.columns == t.columns && |r.rows| == |t.rows|
    ensures forall i, k :: 0 <= i < |t.rows| && 0 <= k < |t.columns| ==>
              r.rows[i][k] == if k == j then Substitute(t.rows[i][k], sentinel) else t.rows[i][k]
  {
    Table(t.columns, seq(|t.rows|, i requires 0 <= i < |t.rows| =>
      t.rows[i][j := Substitute(t.rows[i][j], sentinel)]))
  }

  /** The placeholder column `j` receives among the passes from `k` on: the
      first whose label is found at `j`. */
  function PlaceholderAt(columns: seq<Label>, j: nat, k: nat): Option<string>
    requires k <= |Placeholders|
    decreases |Placeholders| - k
  {
    if k == |Placeholders| then None
    else if IndexOf(columns, Name(Placeholders[k].0)) == Some(j) then Some(Placeholders[k].1)
    else PlaceholderAt(columns, j, k + 1)
  }

  /** What a cell becomes under the placeholder passes from `k` on. */
  function Placed(columns: seq<Label>, j: nat, k: nat, c: Cell): Cell
    requires k <= |Placeholders|
  {
    match PlaceholderAt(columns, j, k)
    case Some(s) => Substitute(c, s)
    case None => c
  }

  /** The placeholder passes from `k` on; KeyError at the first label the
      table does not have. */
  function SubstituteFrom(t: Table, k: nat): (r: Result<Table>)
    requires WellFormed(t) && k <= |Placeholders|
    ensures r.Ok? <==> forall m :: k <= m < |Placeholders| ==> Name(Placeholders[m].0) in t.columns
    ensures r.Err? ==> r.error == KeyError
    ensures r.Ok? ==> WellFormed(r.value) && r.value.columns == t.columns && |r.value.rows| == |t.rows|
    ensures r.Ok? ==> forall i, j :: 0 <= i < |t.rows| && 0 <= j < |t.columns| ==>
              r.value.rows[i][j] == Placed(t.columns, j, k, t.rows[i][j])
    decreases |Placeholders| - k
  {
    if k == |Placeholders| then Ok(t)
    else
      match IndexOf(t.columns, Name(Placeholders[k].0))
      case None => Err(KeyError)
      case Some(j) =>
        var once := SubstituteColumn(t, j, Placeholders[k].1);
        var rest :- SubstituteFrom(once, k + 1);
        assert forall i, c :: 0 <= i < |t.rows| && 0 <= c < |t.columns| ==>
                 rest.rows[i][c] == Placed(t.columns, c, k, t.rows[i][c]) by {
          forall i, c | 0 <= i < |t.rows| && 0 <= c < |t.columns|
            ensures rest.rows[i][c] == Placed(t.columns, c, k, t.rows[i][c])
          {
            PlacedStep(t.columns, c, j, k, t.rows[i][c]);
          }
        }
        Ok(rest)
  }

  /** One placeholder pass followed by the later ones is the passes from
      `k` on: a cell already given a placeholder is not zero any more. */
  lemma PlacedStep(columns: seq<Label>, c: nat, j: nat, k: nat, x: Cell)
    requires k < |Placeholders| && IndexOf(columns, Name(Placeholders[k].0)) == Some(j)
    ensures Placed(columns, c, k + 1, if c == j then Substitute(x, Placeholders[k].1) else x)
         == Placed(columns, c, k, x)
  {
  }

  /** get_LGE_data on the L sheet: fill the missing values, then the four
      placeholder passes; looking up `cell_line_name` raises KeyError when
      it is absent. A cell line name that is 0 is not reported: the
      exception at that point is built and dropped. */
  function CleanL(t: Table): (r: Result<Table>)
    requires WellFormed(t)
    ensures r.Ok? <==> Name("cell_line_name") in t.columns
                       && forall m :: 0 <= m < |Placeholders| ==> Name(Placeholders[m].0) in t.columns
    ensures r.Err? ==> r.error == KeyError
    ensures r.Ok? ==> WellFormed(r.value) && r.value.columns == t.columns && |r.value.rows| == |t.rows|
    ensures r.Ok? ==> forall i, j :: 0 <= i < |t.rows| && 0 <= j < |t.columns| ==>
              r.value.rows[i][j] == Placed(t.columns, j, 0, FillNa(t.rows[i][j]))
  {
    var filled := FillNaTable(t);
    var placed :- SubstituteFrom(filled, 0);
    if Name("cell_line_name") !in t.columns then Err(KeyError) else Ok(placed)
  }

  /** get_LGE_data on the G sheet: fill the missing values; looking up
      `UID` raises KeyError when it is absent, and a UID that is 0 is not
      reported either. */
  function CleanG(t: Table): (r: Result<Table>)
    requires WellFormed(t)
    ensures r.Ok? <==> Name("UID") in t.columns
    ensures r.Err? ==> r.error == KeyError
    ensures r.Ok? ==> WellFormed(r.value) && r.value.columns == t.columns && |r.value.rows| == |t.rows|
    ensures r.Ok? ==> forall i, j :: 0 <= i < |t.rows| && 0 <= j < |t.columns| ==>
              r.value.rows[i][j] == FillNa(t.rows[i][j])
  {
    if Name("UID") !in t.columns then Err(KeyError) else Ok(FillNaTable(t))
  }

  /** The three values get_LGE_data returns: the cleaned L and G sheets and
      the error limit, the first header cell of the third sheet (IndexError
      when that sheet has no column). */
  function GetLGEData(l: Table, g: Table, limitHeader: seq<Label>): (r: Result<(Table, Table, Label)>)
    requires WellFormed(l) && WellFormed(g)
    ensures r.Ok? <==> CleanL(l).Ok? && CleanG(g).Ok? && |limitHeader| > 0
    ensures r.Ok? ==> r.value.0 == CleanL(l).value && r.value.1 == CleanG(g).value && r.value.2 == limitHeader[0]
    ensures CleanL(l).Err? ==> r == Err(CleanL(l).error)
    ensures CleanL(l).Ok? && CleanG(g).Err? ==> r == Err(CleanG(g).error)
    ensures CleanL(l).Ok? && CleanG(g).Ok? && |limitHeader| == 0 ==> r == Err(IndexError)
  {
    var lClean :- CleanL(l);
    var gClean :- CleanG(g);
    if |limitHeader| == 0 then Err(IndexError) else Ok((lClean, gClean, limitHeader[0]))
  }

  /** Placeholders are never zero and never missing, so cleaning twice is
      cleaning once. */
  lemma PlacedIsFixed(columns: seq<Label>, j: nat, c: Cell)
    ensures var once := Placed(columns, j, 0, FillNa(c));
      Placed(columns, j, 0, FillNa(once)) == once
  {
  }

  lemma CleanLIdempotent(t: Table)
    requires WellFormed(t) && CleanL(t).Ok?
    ensures CleanL(CleanL(t).value) == CleanL(t)
  {
    var once := CleanL(t).value;
    var twice := CleanL(once).value;
    forall i | 0 <= i < |t.rows| ensures twice.rows[i] == once.rows[i] {
      forall j | 0 <= j < |t.columns| ensures twice.rows[i][j] == once.rows[i][j] {
        PlacedIsFixed(t.columns, j, t.rows[i][j]);
      }
    }
    assert twice.rows == once.rows;
  }

  /** Each placeholder column: a zero or missing cell becomes the
      placeholder, every other cell is kept. */
  lemma PlaceholderColumn(t: Table, m: nat, i: nat)
    requires WellFormed(t) && CleanL(t).Ok? && m < |Placeholders| && i < |t.rows|
    ensures var j := IndexOf(t.columns, Name(Placeholders[m].0)).value;
      var c := t.rows[i][j];
      CleanL(t).value.rows[i][j] == if c == Num(0.0) || c.Missing? then Str(Placeholders[m].1) else c
  {
    var j := IndexOf(t.columns, Name(Placeholders[m].0)).value;
    FirstPlaceholder(t.columns, j, m);
  }

  /** The labels of the passes differ, so the column found for pass `m` is
      found by no other pass. */
  lemma FirstPlaceholder(columns: seq<Label>, j: nat, m: nat)
    requires m < |Placeholders| && IndexOf(columns, Name(Placeholders[m].0)) == Some(j)
    ensures PlaceholderAt(columns, j, 0) == Some(Placeholders[m].1)
  {
    assert columns[j] == Name(Placeholders[m].0);
    assert forall n :: 0 <= n < |Placeholders| && n != m ==> Placeholders[n].0 != Placeholders[m].0;
  }

  /** A cell of a column that gets no placeholder only loses its missing
      values: a zero or missing cell line name passes unreported. */
  lemma OtherColumnsOnlyFilled(t: Table, i: nat, j: nat)
    requires WellFormed(t) && CleanL(t).Ok? && i < |t.rows| && j < |t.columns|
    requires forall m :: 0 <= m < |Placeholders| ==> t.columns[j] != Name(Placeholders[m].0)
    ensures CleanL(t).value.rows[i][j] == FillNa(t.rows[i][j])
  {
    NoPlaceholder(t.columns, j, 0);
  }

  lemma {:induction false} NoPlaceholder(columns: seq<Label>, j: nat, k: nat)
    requires j < |columns| && k <= |Placeholders|
    requires forall m :: 0 <= m < |Placeholders| ==> columns[j] != Name(Placeholders[m].0)
    ensures PlaceholderAt(columns, j, k) == None
    decreases |Placeholders| - k
  {
    if k < |Placeholders| {
      NoPlaceholder(columns, j, k + 1);
    }
  }
}
