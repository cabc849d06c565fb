/** The control flow of analyze_L for one cell line: four passes over a
    fixed flag schedule, the compound roles asked for only while none are
    known, and per pass the keys that keep a result. The statistics, the
    pair building and the table assembly come from a helper library that is
    not part of this model; they enter as the functions of `Helpers`. */
module AnalyzeL {
  import opened Exceptions
  import opened Frames
  import opened Roles
  import opened SheetNames
  import opened PlotSelection
  import Importance

  /* ----- the pass schedule ----- */

  datatype Flags = Flags(onlyAvg: bool, controlTreatment: bool)

  /** The flag changes made at the top of pass `iter`: passes 1 to 3 each
      flip one flag, the others leave both alone. */
  function Advance(iter: nat, f: Flags): (r: Flags)
    ensures r.onlyAvg == f.onlyAvg || r.controlTreatment == f.controlTreatment
    ensures iter == 0 || iter > 3 ==> r == f
    ensures iter == 1 ==> !r.onlyAvg
    ensures iter == 2 ==> r.controlTreatment
    ensures iter == 3 ==> r.onlyAvg
  {
    if iter == 1 then f.(onlyAvg := false)
    else if iter == 2 then f.(controlTreatment := true)
    else if iter == 3 then f.(onlyAvg := true)
    else f
  }

  /** The flags of pass `iter`, starting from only_avg = True,
      control_treatment = False. */
  function FlagsAt(iter: nat): (r: Flags)
    ensures r.onlyAvg <==> iter == 0 || iter >= 3
    ensures r.controlTreatment <==> iter >= 2
  {
    if iter == 0 then Advance(0, Flags(true, false)) else Advance(iter, FlagsAt(iter - 1))
  }

  const PassCount: nat := 4

  /** The passes run (T,F), (F,F), (F,T), (T,T). */
  lemma Schedule()
    ensures FlagsAt(0) == Flags(true, false) && FlagsAt(1) == Flags(false, false)
    ensures FlagsAt(2) == Flags(false, true) && FlagsAt(3) == Flags(true, true)
  {
  }

  /** Each flag combination is run exactly once. */
  lemma EachCombinationOnce(f: Flags)
    ensures exists i :: 0 <= i < PassCount && FlagsAt(i) == f
    ensures forall i, j :: 0 <= i < PassCount && 0 <= j < PassCount && FlagsAt(i) == f && FlagsAt(j) == f ==> i == j
  {
    Schedule();
    if f == Flags(true, false) { assert FlagsAt(0) == f; }
    else if f == Flags(false, false) { assert FlagsAt(1) == f; }
    else if f == Flags(false, true) { assert FlagsAt(2) == f; }
    else { assert FlagsAt(3) == f; }
  }

  function PassSheetName(cellLine: string, iter: nat, fixedCol: string): string {
    GetSheetName(cellLine, FlagsAt(iter).onlyAvg, FlagsAt(iter).controlTreatment, fixedCol)
  }

  /** The four passes of a cell line write four different sheets. */
  lemma PassSheetNamesDistinct(cellLine: string, fixedCol: string, i: nat, j: nat)
    requires i < PassCount && j < PassCount && i != j
    ensures PassSheetName(cellLine, i, fixedCol) != PassSheetName(cellLine, j, fixedCol)
  {
    Schedule();
    assert FlagsAt(i) != FlagsAt(j);
    DecodeGetSheetName(cellLine, FlagsAt(i).onlyAvg, FlagsAt(i).controlTreatment, fixedCol);
    DecodeGetSheetName(cellLine, FlagsAt(j).onlyAvg, FlagsAt(j).controlTreatment, fixedCol);
  }

  /* ----- the compound roles ----- */

  predicate NoRoles(r: Roles) {
    |r.controls| == 0 && |r.inhibitors| == 0
  }

  /** The roles used by pass `iter` and the number of compound dialogs
      opened up to then. `answers(n)` is how the n-th dialog ends; a closed
      dialog gives back the default split it was opened with. */
  function RolesAt(defaults: Roles, answers: nat -> Dialog<Roles>, iter: nat): (r: (Roles, nat))
    ensures 1 <= r.1 <= iter + 1
  {
    if iter == 0 then (Outcome(defaults, answers(0)), 1)
    else
      var (prev, asked) := RolesAt(defaults, answers, iter - 1);
      if NoRoles(prev) then (Outcome(defaults, answers(asked)), asked + 1) else (prev, asked)
  }

  /** Once a pass has roles, no dialog opens again and every later pass
      uses the same roles. */
  lemma {:induction false} RolesSettle(defaults: Roles, answers: nat -> Dialog<Roles>, k: nat, m: nat)
    requires k <= m && !NoRoles(RolesAt(defaults, answers, k).0)
    ensures RolesAt(defaults, answers, m) == RolesAt(defaults, answers, k)
    decreases m - k
  {
    if k < m {
      RolesSettle(defaults, answers, k, m - 1);
    }
  }

  /** A dialog opens at pass `iter` exactly when the roles before it are
      both empty. */
  lemma AskedIffEmpty(defaults: Roles, answers: nat -> Dialog<Roles>, iter: nat)
    requires iter > 0
    ensures RolesAt(defaults, answers, iter).1 > RolesAt(defaults, answers, iter - 1).1
        <==> NoRoles(RolesAt(defaults, answers, iter - 1).0)
  {
  }

  /** Closing the first dialog on a cell line with compounds keeps the
      default split for all four passes, and asks only once. */
  lemma ClosedFirstDialogKeepsDefaults(defaults: Roles, answers: nat -> Dialog<Roles>, iter: nat)
    requires answers(0) == Closed && !NoRoles(defaults)
    ensures RolesAt(defaults, answers, iter) == (defaults, 1)
  {
    RolesSettle(defaults, answers, 0, iter);
  }

  /* ----- one pass ----- */

  /** What the comparisons of one pass depend on besides the key: the role
      lists df_to_dict hands back, the control_treatment flag and the fixed
      column. */
  datatype Context = Context(roles: Roles, controlTreatment: bool, fixedCol: string)

  /** The helper-library functions analyze_L calls, as opaque values; the
      p-value and the error limit are fixed for a whole run and live inside
      them. */
  datatype Helpers = Helpers(
    /** df_to_dict: the pairs dictionary of a cell line for a role split,
        and the role lists the comparisons then use. */
    toPairs: (Table, string, Roles, bool, string) -> (seq<Entry>, Roles),
    /** get_analysis_columns of one pair frame. */
    analysisColumns: Table -> seq<Label>,
    /** get_comparison_data then create_reason_dataframe: the reason row of
        one process, or None. */
    reasonRow: (Entry, Label, Context) -> Option<Table>,
    /** The means of the two compared samples. */
    means: (Entry, Label, Context) -> (real, real))

  type Averages = map<Label, (real, real)>

  predicate Produces(h: Helpers, e: Entry, p: Label, c: Context) {
    h.reasonRow(e, p, c).Some?
  }

  /** The processes of `ps` with a reason row, in process order. */
  function ProducingProcesses(h: Helpers, e: Entry, c: Context, ps: seq<Label>): (r: seq<Label>)
    ensures forall p :: p in r <==> p in ps && Produces(h, e, p, c)
  {
    if |ps| == 0 then []
    else
      var p := ps[|ps| - 1];
      assert ps == ps[..|ps| - 1] + [p];
      var init := ProducingProcesses(h, e, c, ps[..|ps| - 1]);
      if Produces(h, e, p, c) then init + [p] else init
  }

  /** `rows` are the reason rows of the producing processes of `ps`, one
      each, in process order. */
  predicate RowsFor(h: Helpers, e: Entry, c: Context, ps: seq<Label>, rows: seq<Table>) {
    var producing := ProducingProcesses(h, e, c, ps);
    |rows| == |producing| && forall k :: 0 <= k < |rows| ==> h.reasonRow(e, producing[k], c) == Some(rows[k])
  }

  /** The loop over the processes of one key: the reason rows found, and
      the averages updated for every process with a row. The averages are
      shared by all keys of a pass. */
  function AnalyzeProcesses(h: Helpers, e: Entry, c: Context, ps: seq<Label>, averages: Averages): (r: (seq<Table>, Averages))
    ensures |r.0| <= |ps|
    ensures |r.0| == 0 <==> forall k :: 0 <= k < |ps| ==> !Produces(h, e, ps[k], c)
    ensures RowsFor(h, e, c, ps, r.0)
    ensures forall p :: p in r.1 <==> p in averages || (p in ps && Produces(h, e, p, c))
    ensures forall p :: p in ps && Produces(h, e, p, c) ==> r.1[p] == h.means(e, p, c)
    ensures forall p :: p in averages && !(p in ps && Produces(h, e, p, c)) ==> r.1[p] == averages[p]
  {
    if |ps| == 0 then ([], averages)
    else
      var p := ps[|ps| - 1];
      var init := ps[..|ps| - 1];
      assert ps == init + [p];
      var (rows, avg) := AnalyzeProcesses(h, e, c, init, averages);
      match h.reasonRow(e, p, c)
      case Some(row) => (rows + [row], avg[p := h.means(e, p, c)])
      case None => (rows, avg)
  }

  /** Whether some process of the key produces a reason row. */
  predicate KeyProduces(h: Helpers, e: Entry, c: Context) {
    exists m :: 0 <= m < |h.analysisColumns(e.frame)| && Produces(h, e, h.analysisColumns(e.frame)[m], c)
  }

  /** A reference filter: the entries of `es` whose key produces a reason
      row (`keep`) or none (`!keep`), in dictionary order. */
  function KeysWhere(h: Helpers, c: Context, es: seq<Entry>, keep: bool): (r: seq<Entry>)
    ensures forall e :: e in r <==> e in es && KeyProduces(h, e, c) == keep
  {
    if |es| == 0 then []
    else
      var e := es[|es| - 1];
      assert es == es[..|es| - 1] + [e];
      var init := KeysWhere(h, c, es[..|es| - 1], keep);
      if KeyProduces(h, e, c) == keep then init + [e] else init
  }

  /** What one pass leaves: the entries that keep a result with their
      reason rows, the entries whose key is removed, and the averages. */
  datatype PassResult = PassResult(kept: seq<Entry>, rows: seq<seq<Table>>, removed: seq<Entry>, averages: Averages)

  /** The loop over the keys of the pairs dictionary. */
  function AnalyzeKeys(h: Helpers, c: Context, es: seq<Entry>, averages: Averages): (r: PassResult)
    ensures |r.kept| == |r.rows| && |r.kept| + |r.removed| == |es|
    ensures forall k :: 0 <= k < |r.rows| ==> |r.rows[k]| > 0
    ensures forall e :: e in r.kept <==> e in es && KeyProduces(h, e, c)
    ensures forall e :: e in r.removed <==> e in es && !KeyProduces(h, e, c)
  {
    if |es| == 0 then PassResult([], [], [], averages)
    else
      var e := es[|es| - 1];
      var init := es[..|es| - 1];
      assert es == init + [e];
      var prev := AnalyzeKeys(h, c, init, averages);
      var (rows, avg) := AnalyzeProcesses(h, e, c, h.analysisColumns(e.frame), prev.averages);
      if |rows| == 0 then PassResult(prev.kept, prev.rows, prev.removed + [e], avg)
      else PassResult(prev.kept + [e], prev.rows + [rows], prev.removed, avg)
  }

  /** The kept keys are the reference filter of the dictionary, in its
      order, each with the reason rows of its producing processes in process
      order; the removed keys are the rest, also in order. */
  lemma {:induction false} AnalyzeKeysOrder(h: Helpers, c: Context, es: seq<Entry>, averages: Averages)
    ensures AnalyzeKeys(h, c, es, averages).kept == KeysWhere(h, c, es, true)
    ensures AnalyzeKeys(h, c, es, averages).removed == KeysWhere(h, c, es, false)
    ensures var r := AnalyzeKeys(h, c, es, averages);
              forall k :: 0 <= k < |r.rows| ==> RowsFor(h, r.kept[k], c, h.analysisColumns(r.kept[k].frame), r.rows[k])
  {
    if |es| > 0 {
      var e := es[|es| - 1];
      var init := es[..|es| - 1];
      assert es == init + [e];
      AnalyzeKeysOrder(h, c, init, averages);
      var prev := AnalyzeKeys(h, c, init, averages);
      var rows := AnalyzeProcesses(h, e, c, h.analysisColumns(e.frame), prev.averages).0;
      assert |rows| == 0 <==> !KeyProduces(h, e, c);
    }
  }

  /** Entry `i` has process `p` and a reason row for it. */
  predicate ProducesAt(h: Helpers, c: Context, es: seq<Entry>, i: int, p: Label)
    requires 0 <= i < |es|
  {
    p in h.analysisColumns(es[i].frame) && Produces(h, es[i], p, c)
  }

  /** Entry `i` is the last one to set `averages[p]`. */
  predicate LastProducer(h: Helpers, c: Context, es: seq<Entry>, p: Label, i: int) {
    0 <= i < |es| && ProducesAt(h, c, es, i, p) && forall j :: i < j < |es| ==> !ProducesAt(h, c, es, j, p)
  }

  predicate NoProducer(h: Helpers, c: Context, es: seq<Entry>, p: Label) {
    forall j :: 0 <= j < |es| ==> !ProducesAt(h, c, es, j, p)
  }

  /** A process no key of the pass produces keeps the average it came in
      with, or stays absent. */
  lemma {:induction false} AnalyzeKeysKeepsAverage(h: Helpers, c: Context, es: seq<Entry>, averages: Averages, p: Label)
    requires NoProducer(h, c, es, p)
    ensures p in AnalyzeKeys(h, c, es, averages).averages <==> p in averages
    ensures p in averages ==> AnalyzeKeys(h, c, es, averages).averages[p] == averages[p]
  {
    if |es| > 0 {
      var n := |es| - 1;
      var init := es[..n];
      assert es == init + [es[n]];
      assert !ProducesAt(h, c, es, n, p);
      forall j | 0 <= j < n ensures !ProducesAt(h, c, init, j, p) {
        assert !ProducesAt(h, c, es, j, p);
        assert init[j] == es[j];
      }
      AnalyzeKeysKeepsAverage(h, c, init, averages, p);
    }
  }

  /** The averages left by a pass: for each process, the means of the last
      key that produced a reason row for it. */
  lemma {:induction false} AnalyzeKeysLastWriter(h: Helpers, c: Context, es: seq<Entry>, averages: Averages, p: Label, i: int)
    requires LastProducer(h, c, es, p, i)
    ensures p in AnalyzeKeys(h, c, es, averages).averages
    ensures AnalyzeKeys(h, c, es, averages).averages[p] == h.means(es[i], p, c)
  {
    var n := |es| - 1;
    var init := es[..n];
    assert es == init + [es[n]];
    if i < n {
      assert !ProducesAt(h, c, es, n, p);
      assert init[i] == es[i];
      forall j | i < j < n ensures !ProducesAt(h, c, init, j, p) {
        assert !ProducesAt(h, c, es, j, p);
        assert init[j] == es[j];
      }
      AnalyzeKeysLastWriter(h, c, init, averages, p, i);
    }
  }

  /** A pass of one cell line: the sheet it writes, whether anything is
      exported (some key kept), and whether graphs are drawn (only in the
      first pass, and only when exporting). */
  datatype PassOutcome = PassOutcome(sheetName: string, result: PassResult, exported: bool, plotted: bool)

  /** The pairs dictionary of pass `iter` and the context its comparisons use. */
  function PassPairs(h: Helpers, cellDf: Table, cellLine: string, fixedCol: string, roles: Roles, iter: nat): (seq<Entry>, Context) {
    var ct := FlagsAt(iter).controlTreatment;
    var (pairs, used) := h.toPairs(cellDf, cellLine, roles, ct, fixedCol);
    (pairs, Context(used, ct, fixedCol))
  }

  /** The key analysis of pass `iter`. */
  function PassKeys(h: Helpers, cellDf: Table, cellLine: string, fixedCol: string, roles: Roles, iter: nat): PassResult {
    var (pairs, c) := PassPairs(h, cellDf, cellLine, fixedCol, roles, iter);
    AnalyzeKeys(h, c, pairs, map[])
  }

  /** One pass. Exporting in pass 0 first runs create_plots on the kept
      keys, whose sort raises for a pair with an undecodable key before the
      sheet is written; that error ends analyze_L. */
  function RunPass(h: Helpers, cellDf: Table, cellLine: string, fixedCol: string, roles: Roles, iter: nat): (r: Result<PassOutcome>)
    ensures var (pairs, c) := PassPairs(h, cellDf, cellLine, fixedCol, roles, iter);
              var kept := PassKeys(h, cellDf, cellLine, fixedCol, roles, iter).kept;
              r.Err? <==> iter == 0 && (exists e :: e in pairs && KeyProduces(h, e, c))
                          && PlotError(kept, fixedCol).Some?
    ensures r.Err? ==> Some(r.error) == PlotError(PassKeys(h, cellDf, cellLine, fixedCol, roles, iter).kept, fixedCol)
    ensures r.Ok? ==> r.value.sheetName == PassSheetName(cellLine, iter, fixedCol)
    ensures r.Ok? ==> r.value.result == PassKeys(h, cellDf, cellLine, fixedCol, roles, iter)
    ensures var (pairs, c) := PassPairs(h, cellDf, cellLine, fixedCol, roles, iter);
              r.Ok? ==> (r.value.exported <==> exists e :: e in pairs && KeyProduces(h, e, c))
    ensures r.Ok? ==> (r.value.plotted <==> r.value.exported && iter == 0)
  {
    var result := PassKeys(h, cellDf, cellLine, fixedCol, roles, iter);
    var exported := |result.kept| > 0;
    assert exported ==> result.kept[0] in result.kept;
    if exported && iter == 0 && PlotError(result.kept, fixedCol).Some? then
      Err(PlotError(result.kept, fixedCol).value)
    else
      Ok(PassOutcome(PassSheetName(cellLine, iter, fixedCol), result, exported, exported && iter == 0))
  }

  /** The rows of one cell line: `important_l['cell_line_name'] == cell_line`. */  function CellRows(t: Table, cellLine: string): (r: Result<Table>)
    requires WellFormed(t)
    ensures r.Ok? <==> Name("cell_line_name") in t.columns
    ensures r.Err? ==> r == Err(KeyError)
    ensures r.Ok? ==> WellFormed(r.value) && r.value.columns == t.columns
    ensures r.Ok? ==> var j := IndexOf(t.columns, Name("cell_line_name")).value;
              r.value.rows == Importance.FilterRows(t.rows, j, [Str(cellLine)])
    ensures r.Ok? ==> var j := IndexOf(t.columns, Name("cell_line_name")).value;
              forall row :: row in r.value.rows <==> row in t.rows && row[j] == Str(cellLine)
  {
    match IndexOf(t.columns, Name("cell_line_name"))
    case None => Err(KeyError)
    case Some(j) =>
      var rows := Importance.FilterRows(t.rows, j, [Str(cellLine)]);
      assert forall i :: 0 <= i < |rows| ==> rows[i] in t.rows;
      Ok(Table(t.columns, rows))
  }

  /** The default role split of a cell line's compounds; KeyError without a
      compound_name column. */
  function CellDefaults(cellDf: Table): (r: Result<Roles>)
    requires WellFormed(cellDf)
    ensures r.Ok? <==> Name("compound_name") in cellDf.columns
    ensures r.Err? ==> r == Err(KeyError)
    ensures r.Ok? ==> r.value == DefaultRoles(Column(cellDf, IndexOf(cellDf.columns, Name("compound_name")).value))
  {
    match IndexOf(cellDf.columns, Name("compound_name"))
    case None => Err(KeyError)
    case Some(j) => Ok(DefaultRoles(Column(cellDf, j)))
  }

  /** The four passes of one cell line: pass `i` runs on the cell line's
      rows with the roles known at that pass. Only pass 0 can fail, and its
      failure stops the cell line before any sheet is written. */
  function AnalyzeCellLine(h: Helpers, t: Table, cellLine: string, fixedCol: string,
                           answers: nat -> Dialog<Roles>): (r: Result<seq<PassOutcome>>)
    requires WellFormed(t)
    ensures r.Ok? <==> Name("cell_line_name") in t.columns && Name("compound_name") in t.columns
                       && var cellDf := CellRows(t, cellLine).value;
                          RunPass(h, cellDf, cellLine, fixedCol, RolesAt(CellDefaults(cellDf).value, answers, 0).0, 0).Ok?
    ensures CellRows(t, cellLine).Err? || CellDefaults(CellRows(t, cellLine).value).Err? ==> r == Err(KeyError)
    ensures r.Ok? ==> |r.value| == PassCount
    ensures r.Ok? ==> var cellDf := CellRows(t, cellLine).value;
              var defaults := CellDefaults(cellDf).value;
              forall i :: 0 <= i < PassCount ==>
                Ok(r.value[i]) == RunPass(h, cellDf, cellLine, fixedCol, RolesAt(defaults, answers, i).0, i)
    ensures r.Ok? ==> forall i :: 0 <= i < PassCount ==> r.value[i].sheetName == PassSheetName(cellLine, i, fixedCol)
    ensures r.Ok? ==> forall i :: 0 < i < PassCount ==> !r.value[i].plotted
  {
    var cellDf :- CellRows(t, cellLine);
    var defaults :- CellDefaults(cellDf);
    var first :- RunPass(h, cellDf, cellLine, fixedCol, RolesAt(defaults, answers, 0).0, 0);
    Ok(seq(PassCount, i requires 0 <= i < PassCount =>
      if i == 0 then first else RunPass(h, cellDf, cellLine, fixedCol, RolesAt(defaults, answers, i).0, i).value))
  }

  /** analyze_L on each chosen cell line on its own: `answers(k)` are the
      dialog outcomes of the k-th line. */
  function LineResults(h: Helpers, t: Table, lines: seq<string>, fixedCol: string,
                       answers: nat -> nat -> Dialog<Roles>): (r: seq<Result<seq<PassOutcome>>>)
    requires WellFormed(t)
    ensures |r| == |lines|
    ensures forall k :: 0 <= k < |lines| ==> r[k] == AnalyzeCellLine(h, t, lines[k], fixedCol, answers(k))
  {
    seq(|lines|, k requires 0 <= k < |lines| => AnalyzeCellLine(h, t, lines[k], fixedCol, answers(k)))
  }

  /** The loop over the chosen cell lines. The first error ends the whole
      run: the later lines are not analysed. */
  function AnalyzeLines(h: Helpers, t: Table, lines: seq<string>, fixedCol: string,
                        answers: nat -> nat -> Dialog<Roles>): (r: Result<seq<seq<PassOutcome>>>)
    requires WellFormed(t)
    ensures var outcomes := LineResults(h, t, lines, fixedCol, answers);
              r.Ok? <==> forall k :: 0 <= k < |lines| ==> outcomes[k].Ok?
    ensures r.Ok? ==> |r.value| == |lines|
    ensures var outcomes := LineResults(h, t, lines, fixedCol, answers);
              r.Ok? ==> forall k :: 0 <= k < |lines| ==> outcomes[k] == Ok(r.value[k])
    ensures var outcomes := LineResults(h, t, lines, fixedCol, answers);
              r.Err? ==> exists k :: 0 <= k < |lines| && outcomes[k] == Err(r.error)
                           && forall m :: 0 <= m < k ==> outcomes[m].Ok?
  {
    var outcomes := LineResults(h, t, lines, fixedCol, answers);
    assert |outcomes| == |lines|;
    Sequence(outcomes)
  }
}
