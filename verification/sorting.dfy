/** Python's `sorted(xs, key=f)`: ascending by key and stable, so elements
    with equal keys keep their input order. Modelled as insertion sort. */
module Sorting {

  predicate SortedBy<T>(s: seq<T>, key: T -> real) {
    forall i, j :: 0 <= i < j < |s| ==> key(s[i]) <= key(s[j])
  }

  /** The elements of `s` whose key is `v`, in the order of `s`. */
  function KeyFilter<T>(s: seq<T>, key: T -> real, v: real): seq<T> {
    if |s| == 0 then []
    else KeyFilter(s[..|s| - 1], key, v) + (if key(s[|s| - 1]) == v then [s[|s| - 1]] else [])
  }

  lemma KeyFilterAppend<T>(s: seq<T>, x: T, key: T -> real, v: real)
    ensures KeyFilter(s + [x], key, v) == KeyFilter(s, key, v) + (if key(x) == v then [x] else [])
  {
    assert (s + [x])[..|s|] == s;
  }

  /** `x` placed into `s` after the last element whose key is at most its
      own; in a sorted `s` that is after every such element. */
  function Insert<T>(x: T, s: seq<T>, key: T -> real): (r: seq<T>)
    ensures multiset(r) == multiset(s) + multiset{x}
  {
    if |s| == 0 then [x]
    else
      var last := s[|s| - 1];
      assert s == s[..|s| - 1] + [last];
      if key(last) <= key(x) then s + [x]
      else Insert(x, s[..|s| - 1], key) + [last]
  }

  lemma {:induction false} InsertSorted<T>(x: T, s: seq<T>, key: T -> real)
    requires SortedBy(s, key)
    ensures SortedBy(Insert(x, s, key), key)
  {
    if |s| > 0 {
      var last := s[|s| - 1];
      var init := s[..|s| - 1];
      if key(x) < key(last) {
        InsertSorted(x, init, key);
        var t := Insert(x, init, key);
        forall i | 0 <= i < |t| ensures key(t[i]) <= key(last) {
          assert t[i] in multiset(t);
          assert t[i] in multiset(init) || t[i] == x;
        }
      }
    }
  }

  /** Among the elements with any one key, `x` comes last: insertion is
      stable. */
  lemma {:induction false} InsertKeyFilter<T>(x: T, s: seq<T>, key: T -> real, v: real)
    ensures KeyFilter(Insert(x, s, key), key, v) == KeyFilter(s, key, v) + (if key(x) == v then [x] else [])
  {
    if |s| == 0 {
      KeyFilterAppend([], x, key, v);
      assert [] + [x] == [x];
    } else {
      var last := s[|s| - 1];
      var init := s[..|s| - 1];
      assert s == init + [last];
      if key(last) <= key(x) {
        KeyFilterAppend(s, x, key, v);
      } else {
        InsertKeyFilter(x, init, key, v);
        KeyFilterAppend(Insert(x, init, key), last, key, v);
        KeyFilterAppend(init, last, key, v);
      }
    }
  }

  /** sorted(s, key=key): ascending, a permutation, and stable. */
  function SortBy<T>(s: seq<T>, key: T -> real): (r: seq<T>)
    ensures SortedBy(r, key)
    ensures multiset(r) == multiset(s)
    ensures forall v :: KeyFilter(r, key, v) == KeyFilter(s, key, v)
  {
    if |s| == 0 then []
    else
      var init := s[..|s| - 1];
      assert s == init + [s[|s| - 1]];
      var sorted := SortBy(init, key);
      InsertSorted(s[|s| - 1], sorted, key);
      var r := Insert(s[|s| - 1], sorted, key);
      forall v ensures KeyFilter(r, key, v) == KeyFilter(s, key, v) {
        InsertKeyFilter(s[|s| - 1], sorted, key, v);
        KeyFilterAppend(init, s[|s| - 1], key, v);
      }
      r
  }

  function Map<A, B>(f: A -> B, s: seq<A>): (r: seq<B>)
    ensures |r| == |s| && forall i :: 0 <= i < |s| ==> r[i] == f(s[i])
  {
    seq(|s|, i requires 0 <= i < |s| => f(s[i]))
  }

  /** Inserting and then renaming is renaming and then inserting, as long
      as the renaming keeps every key. */
  lemma {:induction false} MapInsert<A, B>(x: A, s: seq<A>, keyA: A -> real, f: A -> B, keyB: B -> real)
    requires keyA(x) == keyB(f(x)) && forall y :: y in s ==> keyA(y) == keyB(f(y))
    ensures Map(f, Insert(x, s, keyA)) == Insert(f(x), Map(f, s), keyB)
  {
    if |s| > 0 {
      var last := s[|s| - 1];
      var init := s[..|s| - 1];
      assert last in s;
      assert Map(f, s)[..|s| - 1] == Map(f, init);
      if keyA(last) > keyA(x) {
        MapInsert(x, init, keyA, f, keyB);
        assert Map(f, Insert(x, init, keyA) + [last]) == Map(f, Insert(x, init, keyA)) + [f(last)];
      }
    }
  }

  /** Sorting commutes with a renaming that keeps every key: the same
      permutation is applied. */
  lemma {:induction false} MapSortBy<A, B>(s: seq<A>, keyA: A -> real, f: A -> B, keyB: B -> real)
    requires forall y :: y in s ==> keyA(y) == keyB(f(y))
    ensures Map(f, SortBy(s, keyA)) == SortBy(Map(f, s), keyB)
  {
    if |s| > 0 {
      var init := s[..|s| - 1];
      var last := s[|s| - 1];
      var sorted := SortBy(init, keyA);
      assert s == init + [last];
      KeysAgreeOnPart(s, init, keyA, f, keyB);
      MapSortBy(init, keyA, f, keyB);
      KeysAgreeOnPart(s, sorted, keyA, f, keyB);
      assert last in s;
      MapInsert(last, sorted, keyA, f, keyB);
      MapInit(f, s);
    }
  }

  lemma KeysAgreeOnPart<A, B>(s: seq<A>, t: seq<A>, keyA: A -> real, f: A -> B, keyB: B -> real)
    requires forall y :: y in s ==> keyA(y) == keyB(f(y))
    requires multiset(t) <= multiset(s)
    ensures forall y :: y in t ==> keyA(y) == keyB(f(y))
  {
    forall y | y in t ensures keyA(y) == keyB(f(y)) {
      assert y in multiset(t);
    }
  }

  lemma MapInit<A, B>(f: A -> B, s: seq<A>)
    requires |s| > 0
    ensures Map(f, s)[..|s| - 1] == Map(f, s[..|s| - 1])
    ensures Map(f, s)[|s| - 1] == f(s[|s| - 1])
  {
  }
}
