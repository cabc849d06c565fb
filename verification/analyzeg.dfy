/** The sort-and-align step of analyze_G: for every process, the G values
    sorted ascending, and the UIDs put in the same order, so that the k-th
    name and the k-th value still come from one row. Plotting, the edge
    search and the CSV export are not modelled. */
module AnalyzeG {
  import opened Exceptions
  import opened Frames
  import opened Sorting

  /** `to_dict()` of a column with the default row index, as its items in
      index order; `dict(sorted(...))` keeps the sorted order of its items. */
  type Items<T> = seq<(nat, T)>

  function ItemsOf<T>(s: seq<T>): (r: Items<T>)
    ensures |r| == |s| && forall i :: 0 <= i < |s| ==> r[i] == (i, s[i])
  {
    seq(|s|, i requires 0 <= i < |s| => (i, s[i]))
  }

  /** `d[key]` on a dict given by its items; 0 when the key is absent, which
      does not arise below. */
  function Lookup(items: Items<real>, key: nat): real {
    if |items| == 0 then 0.0
    else if items[0].0 == key then items[0].1
    else Lookup(items[1..], key)
  }

  /** The values of process column `p`; KeyError when G has no such column,
      TypeError when a cell is not a number. */
  function ProcessValues(g: Table, p: Label): (r: Result<seq<real>>)
    requires WellFormed(g)
    ensures r.Ok? <==> p in g.columns && forall i :: 0 <= i < |g.rows| ==> g.rows[i][IndexOf(g.columns, p).value].Num?
    ensures r.Ok? ==> |r.value| == |g.rows|
    ensures r.Ok? ==> forall i :: 0 <= i < |g.rows| ==> Num(r.value[i]) == g.rows[i][IndexOf(g.columns, p).value]
  {
    match IndexOf(g.columns, p)
    case None => Err(KeyError)
    case Some(j) =>
      var c := Column(g, j);
      assert forall i :: 0 <= i < |g.rows| ==> c[i] == g.rows[i][j];
      if exists i :: 0 <= i < |c| && !c[i].Num? then Err(TypeError)
      else Ok(seq(|c|, i requires 0 <= i < |c| => c[i].value))
  }

  function ValueKey(): ((nat, real)) -> real {
    (item: (nat, real)) => item.1
  }

  /** `sorted(values_g.items(), key=lambda item: item[1])`. */
  function SortedValueItems(values: seq<real>): (r: Items<real>)
    ensures multiset(r) == multiset(ItemsOf(values))
    ensures SortedBy(r, ValueKey())
  {
    SortBy(ItemsOf(values), ValueKey())
  }

  /** The key of the names sort: the value stored for the index in the
      sorted values dict. */
  function NameKey<T>(sortedValues: Items<real>): ((nat, T)) -> real {
    (item: (nat, T)) => Lookup(sortedValues, item.0)
  }

  /** `sorted(names_g.items(), key=lambda item: sorted_values_g[item[0]])`. */
  function SortedNameItems<T>(names: seq<T>, values: seq<real>): (r: Items<T>)
    ensures multiset(r) == multiset(ItemsOf(names))
    ensures SortedBy(r, NameKey(SortedValueItems(values)))
  {
    SortBy(ItemsOf(names), NameKey(SortedValueItems(values)))
  }

  /** Keys of `items` are pairwise different. */
  predicate UniqueKeys<T>(items: Items<T>) {
    forall a, b :: 0 <= a < b < |items| ==> items[a].0 != items[b].0
  }

  lemma {:induction false} LookupFinds(items: Items<real>, k: nat)
    requires UniqueKeys(items) && k < |items|
    ensures Lookup(items, items[k].0) == items[k].1
  {
    if k > 0 {
      assert items[0].0 != items[k].0;
      LookupFinds(items[1..], k - 1);
    }
  }

  /** A permutation of the items of `values` still maps each index to its
      value. */
  lemma LookupSorted(values: seq<real>, i: nat)
    requires i < |values|
    ensures Lookup(SortedValueItems(values), i) == values[i]
  {
    var items := ItemsOf(values);
    var s := SortedValueItems(values);
    assert items[i] in multiset(s);
    var k :| 0 <= k < |s| && s[k] == items[i];
    forall a, b | 0 <= a < b < |s| ensures s[a].0 != s[b].0 {
      assert s[a] in multiset(items) && s[b] in multiset(items);
      if s[a].0 == s[b].0 {
        assert s[a] == s[b];
        SameTwiceInMultiset(s, a, b);
        OnceInItems(values, s[a]);
      }
    }
    LookupFinds(s, k);
  }

  /** An item found twice in a permutation of `ItemsOf(values)` would occur
      there twice, and it occurs once. */
  lemma SameTwiceInMultiset<T>(s: seq<T>, a: nat, b: nat)
    requires a < b < |s| && s[a] == s[b]
    ensures multiset(s)[s[a]] >= 2
  {
    assert s == s[..a] + [s[a]] + s[a + 1..b] + [s[b]] + s[b + 1..];
  }

  /** Every item of `ItemsOf(values)` occurs there once. */
  lemma OnceInItems(values: seq<real>, x: (nat, real))
    ensures multiset(ItemsOf(values))[x] <= 1
  {
    UniqueOnce(ItemsOf(values), x);
  }

  lemma {:induction false} UniqueOnce<T>(items: Items<T>, x: (nat, T))
    requires UniqueKeys(items)
    ensures multiset(items)[x] <= 1
  {
    if |items| > 0 {
      var rest := items[1..];
      assert items == [items[0]] + rest;
      assert UniqueKeys(rest) by {
        forall a, b | 0 <= a < b < |rest| ensures rest[a].0 != rest[b].0 {
          assert rest[a] == items[a + 1] && rest[b] == items[b + 1];
        }
      }
      UniqueOnce(rest, x);
      if x == items[0] {
        assert forall k :: 0 <= k < |rest| ==> rest[k] == items[k + 1] && rest[k].0 != items[0].0;
        assert x !in rest;
      }
    }
  }

  /** The row indices of a sequence of items, in order. */
  function Indices<T>(items: Items<T>): seq<nat> {
    Map((item: (nat, T)) => item.0, items)
  }

  /** The key of a row index: its value. */
  function IndexKey(values: seq<real>): nat -> real {
    (i: nat) => if i < |values| then values[i] else 0.0
  }

  lemma IndicesOfItems<T>(s: seq<T>)
    ensures Indices(ItemsOf(s)) == Range(|s|)
  {
  }

  /** The two sorts order the rows the same way: the names are permuted
      exactly like the values. */
  lemma NamesFollowValues<T>(names: seq<T>, values: seq<real>)
    requires |names| == |values|
    ensures Indices(SortedNameItems(names, values)) == Indices(SortedValueItems(values))
  {
    var key := IndexKey(values);
    var vs := ItemsOf(values);
    var ns := ItemsOf(names);
    MapSortBy(vs, ValueKey(), (item: (nat, real)) => item.0, key);
    forall y | y in ns ensures NameKey(SortedValueItems(values))(y) == key(y.0) {
      var i :| 0 <= i < |ns| && ns[i] == y;
      LookupSorted(values, i);
    }
    MapSortBy(ns, NameKey(SortedValueItems(values)), (item: (nat, T)) => item.0, key);
    IndicesOfItems(names);
    IndicesOfItems(values);
  }

  /** The order analyze_G puts the rows of one process in. */
  function SortOrder(values: seq<real>): (o: seq<nat>)
    ensures |o| == |values|
    ensures multiset(o) == multiset(Range(|values|))
    ensures forall a, b :: 0 <= a < b < |o| ==> o[a] < |values| && o[b] < |values| && values[o[a]] <= values[o[b]]
  {
    var s := SortedValueItems(values);
    var o := Indices(s);
    OrderFacts(values);
    o
  }

  lemma OrderFacts(values: seq<real>)
    ensures var s := SortedValueItems(values);
      |s| == |values|
      && (forall k :: 0 <= k < |s| ==> s[k].0 < |values| && s[k] == (s[k].0, values[s[k].0]))
      && multiset(Indices(s)) == multiset(Range(|values|))
      && forall a, b :: 0 <= a < b < |s| ==> s[a].1 <= s[b].1
  {
    var s := SortedValueItems(values);
    var items := ItemsOf(values);
    assert |s| == |multiset(s)| == |items|;
    forall k | 0 <= k < |s| ensures s[k].0 < |values| && s[k] == (s[k].0, values[s[k].0]) {
      assert s[k] in multiset(items);
    }
    MapSortBy(items, ValueKey(), (item: (nat, real)) => item.0, IndexKey(values));
    IndicesOfItems(values);
    assert Indices(s) == SortBy(Range(|values|), IndexKey(values));
    forall a, b | 0 <= a < b < |s| ensures s[a].1 <= s[b].1 {
      assert ValueKey()(s[a]) <= ValueKey()(s[b]);
    }
  }

  /** The sorted UIDs and values of one process, as the two lists that go
      into the output: row `SortOrder(values)[k]` lands at position k in
      both. */
  function SortProcess(names: seq<Cell>, values: seq<real>): (r: (seq<Cell>, seq<real>))
    requires |names| == |values|
    ensures |r.0| == |values| && |r.1| == |values|
    ensures forall k :: 0 <= k < |values| ==>
              (SortOrder(values)[k] < |values|
               && r.0[k] == names[SortOrder(values)[k]] && r.1[k] == values[SortOrder(values)[k]])
    ensures forall a, b :: 0 <= a < b < |r.1| ==> r.1[a] <= r.1[b]
    ensures multiset(r.1) == multiset(values)
  {
    var vs := SortedValueItems(values);
    var ns := SortedNameItems(names, values);
    OrderFacts(values);
    NamesFollowValues(names, values);
    NameItemsFacts(names, values);
    var r := (Map((item: (nat, Cell)) => item.1, ns), Map((item: (nat, real)) => item.1, vs));
    assert r.1 == Map((item: (nat, real)) => item.1, vs);
    ValuesPermuted(values);
    r
  }

  lemma NameItemsFacts(names: seq<Cell>, values: seq<real>)
    requires |names| == |values|
    ensures var s := SortedNameItems(names, values);
      |s| == |names| && forall k :: 0 <= k < |s| ==> s[k].0 < |names| && s[k] == (s[k].0, names[s[k].0])
  {
    var s := SortedNameItems(names, values);
    var items := ItemsOf(names);
    assert |s| == |multiset(s)| == |items|;
    forall k | 0 <= k < |s| ensures s[k].0 < |names| && s[k] == (s[k].0, names[s[k].0]) {
      assert s[k] in multiset(items);
    }
  }

  /** The sorted values are a permutation of the values. */
  lemma ValuesPermuted(values: seq<real>)
    ensures multiset(Map((item: (nat, real)) => item.1, SortedValueItems(values))) == multiset(values)
  {
    var second := (item: (nat, real)) => item.1;
    var items := ItemsOf(values);
    assert Map(second, items) == values;
    MapPermutation(second, SortedValueItems(values), items);
  }

  lemma {:induction false} MapPermutation<A, B>(f: A -> B, s: seq<A>, t: seq<A>)
    requires multiset(s) == multiset(t)
    ensures multiset(Map(f, s)) == multiset(Map(f, t))
    decreases |s|
  {
    if |s| > 0 {
      assert s[0] in multiset(t);
      var i :| 0 <= i < |t| && t[i] == s[0];
      var t' := t[..i] + t[i + 1..];
      RemoveOne(s, t, i);
      MapPermutation(f, s[1..], t');
      MapRemoveOne(f, s, t, i);
    }
  }

  lemma RemoveOne<A>(s: seq<A>, t: seq<A>, i: nat)
    requires multiset(s) == multiset(t) && 0 < |s| && i < |t| && t[i] == s[0]
    ensures multiset(s[1..]) == multiset(t[..i] + t[i + 1..])
  {
    var x := s[0];
    assert s == [x] + s[1..];
    assert t == t[..i] + [x] + t[i + 1..];
    calc {
      multiset(s[1..]);
      multiset(s) - multiset{x};
      multiset(t) - multiset{x};
      multiset(t[..i]) + multiset(t[i + 1..]);
      multiset(t[..i] + t[i + 1..]);
    }
  }

  lemma MapRemoveOne<A, B>(f: A -> B, s: seq<A>, t: seq<A>, i: nat)
    requires 0 < |s| && i < |t| && t[i] == s[0]
    ensures multiset(Map(f, s)) == multiset{f(s[0])} + multiset(Map(f, s[1..]))
    ensures multiset(Map(f, t)) == multiset{f(s[0])} + multiset(Map(f, t[..i] + t[i + 1..]))
  {
    assert Map(f, s) == [f(s[0])] + Map(f, s[1..]);
    assert Map(f, t) == Map(f, t[..i]) + [f(s[0])] + Map(f, t[i + 1..]);
    assert Map(f, t[..i] + t[i + 1..]) == Map(f, t[..i]) + Map(f, t[i + 1..]);
  }

  /** The UID column, looked up for every process; KeyError when absent. */
  function Uids(g: Table): (r: Result<seq<Cell>>)
    requires WellFormed(g)
    ensures r.Ok? <==> Name("UID") in g.columns
    ensures r.Ok? ==> r.value == Column(g, IndexOf(g.columns, Name("UID")).value)
  {
    match IndexOf(g.columns, Name("UID"))
    case None => Err(KeyError)
    case Some(j) => Ok(Column(g, j))
  }

  predicate AllNumeric(g: Table, processes: seq<Label>)
    requires WellFormed(g)
  {
    forall k :: 0 <= k < |processes| ==> ProcessValues(g, processes[k]).Ok?
  }

  function AnalyzeG(g: Table, processes: seq<Label>): (r: Result<seq<(seq<Cell>, seq<real>)>>)
    requires WellFormed(g)
    ensures r.Ok? <==> (|processes| == 0 || (Uids(g).Ok? && AllNumeric(g, processes)))
    ensures |processes| > 0 && Uids(g).Err? ==> r == Err(KeyError)
    ensures r.Ok? ==> |r.value| == |processes|
  {
    if |processes| == 0 then Ok([])
    else if Uids(g).Err? then Err(KeyError)
    else
      var values := ProcessValues(g, processes[0]);
      if values.Err? then Err(values.error)
      else
        var rest := AnalyzeG(g, processes[1..]);
        assert AllNumeric(g, processes) <==> values.Ok? && AllNumeric(g, processes[1..]) by {
          assert forall k :: 1 <= k < |processes| ==> processes[k] == processes[1..][k - 1];
        }
        if rest.Err? then rest
        else Ok([SortProcess(Uids(g).value, values.value)] + rest.value)
  }

  /** The k-th result is the k-th process sorted with its UIDs. */
  lemma {:induction false} AnalyzeGAt(g: Table, processes: seq<Label>, k: nat)
    requires WellFormed(g) && AnalyzeG(g, processes).Ok? && k < |processes|
    ensures Uids(g).Ok? && ProcessValues(g, processes[k]).Ok?
    ensures |Uids(g).value| == |ProcessValues(g, processes[k]).value|
    ensures AnalyzeG(g, processes).value[k] == SortProcess(Uids(g).value, ProcessValues(g, processes[k]).value)
  {
    if k > 0 {
      AnalyzeGAt(g, processes[1..], k - 1);
    }
  }
}
