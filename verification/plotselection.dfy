/** The selection half of create_plots: which compound pairs get graphs,
    in which order their condition keys are drawn, and which per-process
    value pairs are collected. The drawing itself is not modelled. */
module PlotSelection {
  import opened Exceptions
  import opened Frames
  import opened Parsing
  import opened Sorting

  /** A key of the pairs dictionary: the cell line, the two compounds of the
      pair, and the value of the fixed column (a time or a dosage). */
  datatype Key = Key(cellLine: string, first: string, second: string, fixedValue: string)

  /** One entry of the pairs dictionary, in insertion order. */
  datatype Entry = Entry(key: Key, frame: Table)

  type Pair = (string, string)

  predicate FramesWellFormed(entries: seq<Entry>) {
    forall i :: 0 <= i < |entries| ==> WellFormed(entries[i].frame)
  }

  /* ----- pairs and matching keys ----- */

  predicate Distinct(k: Key) {
    k.first != k.second
  }

  predicate Matches(k: Key, pair: Pair) {
    k.first == pair.0 && k.second == pair.1
  }

  /** The pairs considered: every (first, second) of a key whose two
      compounds differ. */
  function CandidatePairs(entries: seq<Entry>): (r: set<Pair>)
    ensures forall i :: 0 <= i < |entries| && Distinct(entries[i].key) ==>
              (entries[i].key.first, entries[i].key.second) in r
    ensures forall p :: p in r ==> p.0 != p.1
    ensures forall p :: p in r ==> exists i :: 0 <= i < |entries| && Matches(entries[i].key, p)
  {
    set i | 0 <= i < |entries| && Distinct(entries[i].key) :: (entries[i].key.first, entries[i].key.second)
  }

  /** The entries whose key matches `pair`, in dictionary order. */
  function Matching(entries: seq<Entry>, pair: Pair): (r: seq<Entry>)
    ensures |r| <= |entries|
    ensures forall e :: e in r <==> e in entries && Matches(e.key, pair)
  {
    if |entries| == 0 then []
    else
      var init := Matching(entries[..|entries| - 1], pair);
      var last := entries[|entries| - 1];
      assert entries == entries[..|entries| - 1] + [last];
      if Matches(last.key, pair) then init + [last] else init
  }

  /** Matching keeps the dictionary order: it distributes over
      concatenation. */
  lemma {:induction false} MatchingAppend(a: seq<Entry>, b: seq<Entry>, pair: Pair)
    ensures Matching(a + b, pair) == Matching(a, pair) + Matching(b, pair)
  {
    if |b| == 0 {
      assert a + b == a;
    } else {
      var init := b[..|b| - 1];
      assert (a + b)[..|a + b| - 1] == a + init;
      MatchingAppend(a, init, pair);
    }
  }

  lemma MatchingWellFormed(entries: seq<Entry>, pair: Pair)
    requires FramesWellFormed(entries)
    ensures FramesWellFormed(Matching(entries, pair))
  {
    var r := Matching(entries, pair);
    forall i | 0 <= i < |r| ensures WellFormed(r[i].frame) {
      assert r[i] in r;
    }
  }

  /* ----- ordering by the fixed column ----- */

  /** The decoded fixed value: minutes when the fixed column is `time`,
      the concentration otherwise. */
  function FixedValue(fixedCol: string, k: Key): (r: Result<real>)
    ensures fixedCol == "time" ==> (r.Ok? <==> ParseTime(k.fixedValue).Ok?)
    ensures fixedCol == "time" && r.Ok? ==> r.value == ParseTime(k.fixedValue).value as real
    ensures fixedCol != "time" ==> r == ParseMeasurement(k.fixedValue)
  {
    if fixedCol == "time" then
      match ParseTime(k.fixedValue)
      case Ok(minutes) => Ok(minutes as real)
      case Err(e) => Err(e)
    else ParseMeasurement(k.fixedValue)
  }

  /** The sort key; only consulted once every key has decoded. */
  function SortKey(fixedCol: string): (r: Entry -> real)
    ensures forall e: Entry :: FixedValue(fixedCol, e.key).Ok? ==> r(e) == FixedValue(fixedCol, e.key).value
  {
    (e: Entry) => var v := FixedValue(fixedCol, e.key); if v.Ok? then v.value else 0.0
  }

  /** The error `sorted` raises: that of the first key, in list order, that
      does not decode. */
  function FirstKeyError(fixedCol: string, es: seq<Entry>): (r: Option<Exception>)
    ensures r.None? <==> forall i :: 0 <= i < |es| ==> FixedValue(fixedCol, es[i].key).Ok?
    ensures r.Some? ==> exists i :: 0 <= i < |es| && FixedValue(fixedCol, es[i].key) == Err(r.value)
                          && forall j :: 0 <= j < i ==> FixedValue(fixedCol, es[j].key).Ok?
  {
    if |es| == 0 then None
    else
      var v := FixedValue(fixedCol, es[0].key);
      if v.Err? then
        Some(v.error)
      else
        var rest := FirstKeyError(fixedCol, es[1..]);
        assert forall i :: 1 <= i < |es| ==> es[i] == es[1..][i - 1];
        if rest.Some? then
          var i :| 0 <= i < |es[1..]| && FixedValue(fixedCol, es[1..][i].key) == Err(rest.value)
                   && forall j :: 0 <= j < i ==> FixedValue(fixedCol, es[1..][j].key).Ok?;
          assert FixedValue(fixedCol, es[i + 1].key) == Err(rest.value);
          rest
        else
          rest
  }

  predicate AllDecode(fixedCol: string, es: seq<Entry>) {
    forall i :: 0 <= i < |es| ==> FixedValue(fixedCol, es[i].key).Ok?
  }

  lemma PermutationDecodes(fixedCol: string, es: seq<Entry>, s: seq<Entry>)
    requires AllDecode(fixedCol, es) && multiset(s) == multiset(es)
    ensures AllDecode(fixedCol, s)
  {
    forall i | 0 <= i < |s| ensures FixedValue(fixedCol, s[i].key).Ok? {
      assert s[i] in multiset(es);
    }
  }

  lemma SortedByDecodedValue(fixedCol: string, s: seq<Entry>)
    requires AllDecode(fixedCol, s) && SortedBy(s, SortKey(fixedCol))
    ensures forall i, j :: 0 <= i < j < |s| ==>
              FixedValue(fixedCol, s[i].key).value <= FixedValue(fixedCol, s[j].key).value
  {
    forall i, j | 0 <= i < j < |s|
      ensures FixedValue(fixedCol, s[i].key).value <= FixedValue(fixedCol, s[j].key).value
    {
      assert SortKey(fixedCol)(s[i]) <= SortKey(fixedCol)(s[j]);
    }
  }

  /** The matching entries sorted ascending by their decoded fixed value,
      stably; or the error of the first key that does not decode. */
  function SortMatching(fixedCol: string, es: seq<Entry>): (r: Result<seq<Entry>>)
    ensures r.Err? <==> !AllDecode(fixedCol, es)
    ensures r.Err? ==> FirstKeyError(fixedCol, es) == Some(r.error)
    ensures r.Ok? ==> multiset(r.value) == multiset(es)
    ensures r.Ok? ==> AllDecode(fixedCol, r.value) && forall i, j :: 0 <= i < j < |r.value| ==>
              FixedValue(fixedCol, r.value[i].key).value <= FixedValue(fixedCol, r.value[j].key).value
    ensures r.Ok? ==> forall v :: KeyFilter(r.value, SortKey(fixedCol), v) == KeyFilter(es, SortKey(fixedCol), v)
  {
    match FirstKeyError(fixedCol, es)
    case Some(e) => Err(e)
    case None =>
      var s := SortBy(es, SortKey(fixedCol));
      PermutationDecodes(fixedCol, es, s);
      SortedByDecodedValue(fixedCol, s);
      Ok(s)
  }

  /* ----- collecting the values of each process ----- */

  /** The processes of one frame: `df.columns[3:]`. */
  function Processes(t: Table): seq<Label> {
    if |t.columns| <= 3 then [] else t.columns[3..]
  }

  /** `df[p].tolist()[:2]`: the first two values of column `p`. */
  function ValueHead(t: Table, p: Label): (r: seq<Cell>)
    requires WellFormed(t) && p in t.columns
    ensures |r| == if |t.rows| < 2 then |t.rows| else 2
    ensures r == Column(t, IndexOf(t.columns, p).value)[..|r|]
  {
    var j := IndexOf(t.columns, p).value;
    var c := Column(t, j);
    if |c| < 2 then c else c[..2]
  }

  type Values = map<Label, seq<seq<Cell>>>

  /** The list collected so far for `p`; absent means none. */
  function Get(m: Values, p: Label): seq<seq<Cell>> {
    if p in m then m[p] else []
  }

  /** One pass of the inner loop over the processes `ps` of frame `t`. */
  function AddProcesses(m: Values, t: Table, ps: seq<Label>): (r: Values)
    requires WellFormed(t) && forall k :: 0 <= k < |ps| ==> ps[k] in t.columns
    ensures forall p :: p in r <==> p in m || p in ps
    ensures forall p :: p in m && p !in ps ==> r[p] == m[p]
  {
    if |ps| == 0 then m
    else
      var p := ps[|ps| - 1];
      var init := ps[..|ps| - 1];
      assert ps == init + [p];
      var m' := AddProcesses(m, t, init);
      m'[p := Get(m', p) + [ValueHead(t, p)]]
  }

  /** Some frame among `es` has `p` as a process. */
  predicate OccursIn(es: seq<Entry>, p: Label) {
    exists i :: 0 <= i < |es| && p in Processes(es[i].frame)
  }

  lemma OccursInStep(es: seq<Entry>, p: Label)
    requires |es| > 0
    ensures OccursIn(es, p) <==> OccursIn(es[..|es| - 1], p) || p in Processes(es[|es| - 1].frame)
  {
    OccursInGrows(es, p);
    OccursInSplits(es, p);
  }

  lemma OccursInGrows(es: seq<Entry>, p: Label)
    requires |es| > 0
    ensures OccursIn(es[..|es| - 1], p) || p in Processes(es[|es| - 1].frame) ==> OccursIn(es, p)
  {
    var n := |es| - 1;
    if p in Processes(es[n].frame) {
      assert 0 <= n < |es| && p in Processes(es[n].frame);
    } else if OccursIn(es[..n], p) {
      var i :| 0 <= i < n && p in Processes(es[..n][i].frame);
      assert es[..n][i] == es[i];
      assert 0 <= i < |es| && p in Processes(es[i].frame);
    }
  }

  lemma OccursInSplits(es: seq<Entry>, p: Label)
    requires |es| > 0
    ensures OccursIn(es, p) ==> OccursIn(es[..|es| - 1], p) || p in Processes(es[|es| - 1].frame)
  {
    var n := |es| - 1;
    if OccursIn(es, p) && !(p in Processes(es[n].frame)) {
      var i :| 0 <= i < |es| && p in Processes(es[i].frame);
      assert i < n;
      assert es[..n][i] == es[i];
      assert 0 <= i < |es[..n]| && p in Processes(es[..n][i].frame);
    }
  }

  /** The outer loop over the sorted keys: it holds a list for exactly the
      processes of its frames. */
  function Accumulate(es: seq<Entry>): (r: Values)
    requires FramesWellFormed(es)
    ensures forall p :: p in r <==> OccursIn(es, p)
  {
    if |es| == 0 then map[]
    else
      var t := es[|es| - 1].frame;
      var ps := Processes(t);
      assert forall k :: 0 <= k < |ps| ==> ps[k] == t.columns[k + 3];
      assert forall p {:trigger OccursIn(es, p)} :: OccursIn(es, p) <==> OccursIn(es[..|es| - 1], p) || p in ps by {
        forall p ensures OccursIn(es, p) <==> OccursIn(es[..|es| - 1], p) || p in ps {
          OccursInStep(es, p);
        }
      }
      AddProcesses(Accumulate(es[..|es| - 1]), t, ps)
  }

  /** The number of times `p` occurs in `ps`. */
  function Count(ps: seq<Label>, p: Label): nat {
    if |ps| == 0 then 0
    else Count(ps[..|ps| - 1], p) + (if ps[|ps| - 1] == p then 1 else 0)
  }

  function Repeat<T>(x: T, n: nat): (r: seq<T>)
    ensures |r| == n && forall k :: 0 <= k < n ==> r[k] == x
  {
    if n == 0 then [] else Repeat(x, n - 1) + [x]
  }

  /** A per-process reference: what process `p` collects from the entries
      `es`, one value head per occurrence of `p` among a frame's processes,
      frame by frame. */
  function Collected(es: seq<Entry>, p: Label): seq<seq<Cell>>
    requires FramesWellFormed(es)
  {
    if |es| == 0 then []
    else
      var t := es[|es| - 1].frame;
      var n := Count(Processes(t), p);
      CountPositive(Processes(t), p);
      Collected(es[..|es| - 1], p) + (if n == 0 then [] else Repeat(ValueHead(t, p), n))
  }

  /** The number of occurrences of `p` among the processes of `es`. */
  function Appearances(es: seq<Entry>, p: Label): nat {
    if |es| == 0 then 0
    else Appearances(es[..|es| - 1], p) + Count(Processes(es[|es| - 1].frame), p)
  }

  lemma CountPositive(ps: seq<Label>, p: Label)
    ensures Count(ps, p) > 0 <==> p in ps
  {
    if |ps| > 0 {
      assert ps == ps[..|ps| - 1] + [ps[|ps| - 1]];
      CountPositive(ps[..|ps| - 1], p);
    }
  }

  /** The inner loop appends one value head per occurrence of `p`. */
  lemma {:induction false} AddProcessesSpec(m: Values, t: Table, ps: seq<Label>, p: Label)
    requires WellFormed(t) && forall k :: 0 <= k < |ps| ==> ps[k] in t.columns
    ensures Count(ps, p) > 0 ==> p in t.columns
    ensures Get(AddProcesses(m, t, ps), p)
         == Get(m, p) + (if Count(ps, p) == 0 then [] else Repeat(ValueHead(t, p), Count(ps, p)))
  {
    CountPositive(ps, p);
    if |ps| > 0 {
      var q := ps[|ps| - 1];
      var init := ps[..|ps| - 1];
      AddProcessesSpec(m, t, init, p);
      if q == p {
        var n := Count(init, p);
        if n > 0 {
          assert Repeat(ValueHead(t, p), n + 1) == Repeat(ValueHead(t, p), n) + [ValueHead(t, p)];
        } else {
          assert Repeat(ValueHead(t, p), 1) == [ValueHead(t, p)];
        }
      }
    }
  }

  /** The two loops collect, for every process, exactly its per-process
      reference list; a process is present iff it occurs in some frame. */
  lemma {:induction false} AccumulateSpec(es: seq<Entry>, p: Label)
    requires FramesWellFormed(es)
    ensures p in Accumulate(es) <==> Appearances(es, p) > 0
    ensures Get(Accumulate(es), p) == Collected(es, p)
    ensures |Collected(es, p)| == Appearances(es, p)
  {
    if |es| > 0 {
      var init := es[..|es| - 1];
      var t := es[|es| - 1].frame;
      var ps := Processes(t);
      assert FramesWellFormed(init);
      AccumulateSpec(init, p);
      assert forall k :: 0 <= k < |ps| ==> ps[k] == t.columns[k + 3];
      AddProcessesSpec(Accumulate(init), t, ps, p);
      CountPositive(ps, p);
    }
  }

  /** The processes with more than one collected value pair, with their
      lists. */
  function ProcessSum(m: Values): (r: Values)
    ensures forall p :: p in r <==> p in m && |m[p]| > 1
    ensures forall p :: p in r ==> r[p] == m[p]
  {
    map p | p in m && |m[p]| > 1 :: m[p]
  }

  /** A process is graphed iff it occurs at least twice among the
      processes of the sorted keys. */
  lemma ProcessSumOfAccumulate(es: seq<Entry>, p: Label)
    requires FramesWellFormed(es)
    ensures p in ProcessSum(Accumulate(es)) <==> Appearances(es, p) >= 2
  {
    AccumulateSpec(es, p);
  }

  /** AccumulateSpec and ProcessSumOfAccumulate for every process at once. */
  lemma AccumulateAll(es: seq<Entry>)
    requires FramesWellFormed(es)
    ensures forall p :: Get(Accumulate(es), p) == Collected(es, p)
    ensures forall p :: p in ProcessSum(Accumulate(es)) <==> Appearances(es, p) >= 2
  {
    forall p ensures Get(Accumulate(es), p) == Collected(es, p)
                  && (p in ProcessSum(Accumulate(es)) <==> Appearances(es, p) >= 2) {
      ProcessSumOfAccumulate(es, p);
      AccumulateSpec(es, p);
    }
  }

  /* ----- one pair ----- */

  /** What create_plots computes for one pair: nothing when at most one key
      matches; otherwise the sorted keys, every process's value pairs, and
      those of processes seen more than once. */
  datatype PairPlot =
    | Skipped
    | Plotted(sorted: seq<Entry>, processValues: Values, processSum: Values)

  function PlotPair(entries: seq<Entry>, fixedCol: string, pair: Pair): (r: Result<PairPlot>)
    requires FramesWellFormed(entries)
    ensures r == Ok(Skipped) <==> |Matching(entries, pair)| <= 1
    ensures r.Err? <==> |Matching(entries, pair)| > 1 && !AllDecode(fixedCol, Matching(entries, pair))
    ensures r.Err? ==> FirstKeyError(fixedCol, Matching(entries, pair)) == Some(r.error)
    ensures r.Err? ==> exists i :: 0 <= i < |entries| && Matches(entries[i].key, pair)
                          && FixedValue(fixedCol, entries[i].key).Err?
    ensures r.Ok? && r.value.Plotted? ==>
              |r.value.sorted| > 1 && multiset(r.value.sorted) == multiset(Matching(entries, pair))
    ensures r.Ok? && r.value.Plotted? ==> r.value.sorted == SortMatching(fixedCol, Matching(entries, pair)).value
    ensures r.Ok? && r.value.Plotted? ==> FramesWellFormed(r.value.sorted)
    ensures r.Ok? && r.value.Plotted? ==> r.value.processValues == Accumulate(r.value.sorted)
    ensures r.Ok? && r.value.Plotted? ==> r.value.processSum == ProcessSum(r.value.processValues)
    ensures r.Ok? && r.value.Plotted? ==> forall p :: Get(r.value.processValues, p) == Collected(r.value.sorted, p)
    ensures r.Ok? && r.value.Plotted? ==> forall p :: p in r.value.processSum <==> Appearances(r.value.sorted, p) >= 2
  {
    var matching := Matching(entries, pair);
    if |matching| <= 1 then Ok(Skipped)
    else
      MatchingWellFormed(entries, pair);
      var sorted :- SortMatching(fixedCol, matching);
      assert |sorted| == |multiset(sorted)| == |multiset(matching)|;
      assert forall i :: 0 <= i < |sorted| ==> sorted[i] in multiset(matching);
      var values := Accumulate(sorted);
      AccumulateAll(sorted);
      Ok(Plotted(sorted, values, ProcessSum(values)))
  }

  /* ----- the error that aborts create_plots ----- */

  /** The pair's iteration raises: more than one key matches and one of
      them does not decode. */
  predicate PairFails(entries: seq<Entry>, fixedCol: string, pair: Pair) {
    |Matching(entries, pair)| > 1 && !AllDecode(fixedCol, Matching(entries, pair))
  }

  function PairOf(k: Key): Pair {
    (k.first, k.second)
  }

  /** The error of the first failing pair met from position `i` on, pairs
      taken in the order their first key appears. */
  function PlotErrorFrom(entries: seq<Entry>, fixedCol: string, i: nat): (r: Option<Exception>)
    requires i <= |entries|
    ensures r.None? <==> forall j :: i <= j < |entries| && Distinct(entries[j].key) ==>
                           !PairFails(entries, fixedCol, PairOf(entries[j].key))
    ensures r.Some? ==> exists j :: i <= j < |entries| && Distinct(entries[j].key)
                          && PairFails(entries, fixedCol, PairOf(entries[j].key))
                          && SortMatching(fixedCol, Matching(entries, PairOf(entries[j].key))) == Err(r.value)
    decreases |entries| - i
  {
    if i == |entries| then None
    else
      var pair := PairOf(entries[i].key);
      if Distinct(entries[i].key) && PairFails(entries, fixedCol, pair) then
        Some(SortMatching(fixedCol, Matching(entries, pair)).error)
      else PlotErrorFrom(entries, fixedCol, i + 1)
  }

  /** The error create_plots raises, if any. Python raises that of the
      first failing pair in set order; the model names one failing pair's. */
  function PlotError(entries: seq<Entry>, fixedCol: string): (r: Option<Exception>)
    ensures r.None? <==> forall p :: p in CandidatePairs(entries) ==> !PairFails(entries, fixedCol, p)
    ensures r.Some? ==> exists p :: p in CandidatePairs(entries) && PairFails(entries, fixedCol, p)
                          && SortMatching(fixedCol, Matching(entries, p)) == Err(r.value)
  {
    var r := PlotErrorFrom(entries, fixedCol, 0);
    assert forall p :: p in CandidatePairs(entries) ==>
             exists j :: 0 <= j < |entries| && Distinct(entries[j].key) && PairOf(entries[j].key) == p;
    r
  }

  /** Whether any pair produces graphs: `graphs` at the end of the loop. */
  predicate AnyGraphs(results: map<Pair, Result<PairPlot>>) {
    exists p :: p in results && results[p].Ok? && results[p].value.Plotted? && |results[p].value.processSum| > 0
  }

  /** create_plots over every candidate pair. The order in which the pairs
      of a Python set are visited is not modelled, so the outcome is given
      per pair. */
  function CreatePlots(entries: seq<Entry>, fixedCol: string): (r: map<Pair, Result<PairPlot>>)
    requires FramesWellFormed(entries)
    ensures r.Keys == CandidatePairs(entries)
    ensures forall p :: p in r ==> r[p] == PlotPair(entries, fixedCol, p)
  {
    map p | p in CandidatePairs(entries) :: PlotPair(entries, fixedCol, p)
  }

  /** create_plots completes iff no pair's iteration raises, and the error
      it reports is one of those pairs' errors. */
  lemma CreatePlotsFails(entries: seq<Entry>, fixedCol: string)
    requires FramesWellFormed(entries)
    ensures PlotError(entries, fixedCol).None? <==>
              forall p :: p in CreatePlots(entries, fixedCol) ==> CreatePlots(entries, fixedCol)[p].Ok?
    ensures PlotError(entries, fixedCol).Some? ==>
              exists p :: p in CreatePlots(entries, fixedCol)
                && CreatePlots(entries, fixedCol)[p] == Err(PlotError(entries, fixedCol).value)
  {
    var r := CreatePlots(entries, fixedCol);
    forall p | p in r ensures r[p].Err? <==> PairFails(entries, fixedCol, p) {
    }
    if PlotError(entries, fixedCol).Some? {
      var p :| p in CandidatePairs(entries) && PairFails(entries, fixedCol, p)
               && SortMatching(fixedCol, Matching(entries, p)) == Err(PlotError(entries, fixedCol).value);
      assert r[p] == PlotPair(entries, fixedCol, p);
    }
  }
}
