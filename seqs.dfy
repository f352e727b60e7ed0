/**
 * Sequence operations that the source takes from its libraries: Kotlin's `filter`,
 * `sortedByDescending` (a stable sort) and `take`, and the ORDER BY / LIMIT of SQL queries.
 */
module Seqs {

  /** The elements of `s` that satisfy `p`, in their original order (Kotlin `filter`). */
  function Filter<T>(s: seq<T>, p: T -> bool): seq<T> {
    if s == [] then []
    else (if p(s[0]) then [s[0]] else []) + Filter(s[1..], p)
  }

  /** What a filter keeps: exactly the elements of `s` that satisfy `p`, never more copies. */
  lemma {:induction false} FilterMembers<T>(s: seq<T>, p: T -> bool)
    ensures |Filter(s, p)| <= |s|
    ensures forall i :: 0 <= i < |Filter(s, p)| ==> Filter(s, p)[i] in s && p(Filter(s, p)[i])
    ensures forall i :: 0 <= i < |s| && p(s[i]) ==> s[i] in Filter(s, p)
    ensures multiset(Filter(s, p)) <= multiset(s)
  {
    var r := Filter(s, p);
    FilterShrinks(s, p);
    forall i | 0 <= i < |r| ensures r[i] in s && p(r[i]) {
      FilterCount(s, p, r[i]);
      assert r[i] in multiset(r);
    }
    forall i | 0 <= i < |s| && p(s[i]) ensures s[i] in r {
      FilterCount(s, p, s[i]);
      assert s[i] in multiset(s);
    }
  }

  /** A filter keeps every copy of an element it accepts and no copy of one it rejects. */
  lemma {:induction false} FilterCount<T>(s: seq<T>, p: T -> bool, x: T)
    ensures multiset(Filter(s, p))[x] == if p(x) then multiset(s)[x] else 0
  {
    if s != [] {
      FilterCount(s[1..], p, x);
      assert s == [s[0]] + s[1..];
    }
  }

  lemma {:induction false} FilterShrinks<T>(s: seq<T>, p: T -> bool)
    ensures |Filter(s, p)| <= |s|
    ensures multiset(Filter(s, p)) <= multiset(s)
  {
    if s != [] {
      FilterShrinks(s[1..], p);
      assert s == [s[0]] + s[1..];
    }
  }

  /** Filtering distributes over concatenation, so a filter never reorders what it keeps. */
  lemma {:induction false} FilterConcat<T>(a: seq<T>, b: seq<T>, p: T -> bool)
    ensures Filter(a + b, p) == Filter(a, p) + Filter(b, p)
  {
    if a == [] {
      assert a + b == b;
    } else {
      var head := if p(a[0]) then [a[0]] else [];
      assert (a + b)[0] == a[0];
      assert (a + b)[1..] == a[1..] + b;
      assert Filter(a + b, p) == head + Filter(a[1..] + b, p);
      FilterConcat(a[1..], b, p);
      assert Filter(a, p) == head + Filter(a[1..], p);
    }
  }

  /** A filter that accepts every element keeps the sequence as it is. */
  lemma {:induction false} FilterAllKept<T>(s: seq<T>, p: T -> bool)
    requires forall i :: 0 <= i < |s| ==> p(s[i])
    ensures Filter(s, p) == s
  {
    if s != [] {
      FilterAllKept(s[1..], p);
      assert s == [s[0]] + s[1..];
    }
  }

  /** The negation of a predicate. */
  function Not<T>(p: T -> bool): T -> bool {
    x => !p(x)
  }

  /** Splitting by `p` and by its negation loses and duplicates nothing. */
  lemma {:induction false} FilterPartition<T>(s: seq<T>, p: T -> bool)
    ensures multiset(Filter(s, p)) + multiset(Filter(s, Not(p))) == multiset(s)
  {
    if s != [] {
      FilterPartition(s[1..], p);
      assert s == [s[0]] + s[1..];
    }
  }

  /** No two positions of `s` share a key (a primary key column). */
  predicate DistinctKeys<T, K(==)>(s: seq<T>, key: T -> K) {
    forall i, j :: 0 <= i < j < |s| ==> key(s[i]) != key(s[j])
  }

  /** Deleting rows never makes two rows share a key. */
  lemma {:induction false} FilterKeepsDistinct<T, K>(s: seq<T>, p: T -> bool, key: T -> K)
    requires DistinctKeys(s, key)
    ensures DistinctKeys(Filter(s, p), key)
  {
    if s != [] {
      FilterKeepsDistinct(s[1..], p, key);
      var rest := Filter(s[1..], p);
      FilterMembers(s[1..], p);
      forall j | 0 <= j < |rest| ensures key(s[0]) != key(rest[j]) {
        var k :| 0 <= k < |s[1..]| && s[1..][k] == rest[j];
        assert s[k + 1] == rest[j];
      }
    }
  }

  /** Filtering by a stronger predicate after a weaker one is the same as filtering by the stronger one. */
  lemma {:induction false} FilterNarrow<T>(s: seq<T>, p: T -> bool, q: T -> bool)
    requires forall x :: q(x) ==> p(x)
    ensures Filter(Filter(s, p), q) == Filter(s, q)
  {
    if s != [] {
      FilterNarrow(s[1..], p, q);
      var head := if p(s[0]) then [s[0]] else [];
      FilterConcat(head, Filter(s[1..], p), q);
    }
  }

  /** The predicate "has key k", used to state stability of a sort. */
  function KeyIs<T>(key: T -> int, k: int): T -> bool {
    x => key(x) == k
  }

  /** `s` is ordered by non-increasing key. */
  predicate SortedDesc<T>(s: seq<T>, key: T -> int) {
    forall i, j :: 0 <= i < j < |s| ==> key(s[i]) >= key(s[j])
  }

  /** Every key in `s` is at most `b`. */
  predicate AllAtMost<T>(s: seq<T>, key: T -> int, b: int) {
    forall i :: 0 <= i < |s| ==> key(s[i]) <= b
  }

  /**
   * Inserts `x` before the first element whose key is not greater than its own, so that
   * `x` precedes the elements of equal key that follow it in the input.
   */
  function InsertDesc<T>(x: T, s: seq<T>, key: T -> int): seq<T> {
    if s == [] || key(x) >= key(s[0]) then [x] + s
    else [s[0]] + InsertDesc(x, s[1..], key)
  }

  /** A stable sort by non-increasing key (Kotlin `sortedByDescending`). */
  function SortDesc<T>(s: seq<T>, key: T -> int): seq<T> {
    if s == [] then [] else InsertDesc(s[0], SortDesc(s[1..], key), key)
  }

  lemma {:induction false} InsertDescBound<T>(x: T, s: seq<T>, key: T -> int, b: int)
    requires AllAtMost(s, key, b) && key(x) <= b
    ensures AllAtMost(InsertDesc(x, s, key), key, b)
  {
    if s != [] && key(x) < key(s[0]) {
      InsertDescBound(x, s[1..], key, b);
    }
  }

  lemma SortedCons<T>(h: T, t: seq<T>, key: T -> int)
    requires SortedDesc(t, key) && AllAtMost(t, key, key(h))
    ensures SortedDesc([h] + t, key)
  {
  }

  lemma {:induction false} InsertDescSorted<T>(x: T, s: seq<T>, key: T -> int)
    requires SortedDesc(s, key)
    ensures SortedDesc(InsertDesc(x, s, key), key)
  {
    if s == [] || key(x) >= key(s[0]) {
      SortedCons(x, s, key);
    } else {
      InsertDescSorted(x, s[1..], key);
      InsertDescBound(x, s[1..], key, key(s[0]));
      SortedCons(s[0], InsertDesc(x, s[1..], key), key);
    }
  }

  lemma {:induction false} InsertDescPerm<T>(x: T, s: seq<T>, key: T -> int)
    ensures multiset(InsertDesc(x, s, key)) == multiset(s) + multiset{x}
    ensures |InsertDesc(x, s, key)| == |s| + 1
  {
    if s != [] && key(x) < key(s[0]) {
      InsertDescPerm(x, s[1..], key);
      assert s == [s[0]] + s[1..];
    }
  }

  lemma {:induction false} SortDescSorted<T>(s: seq<T>, key: T -> int)
    ensures SortedDesc(SortDesc(s, key), key)
  {
    if s != [] {
      SortDescSorted(s[1..], key);
      InsertDescSorted(s[0], SortDesc(s[1..], key), key);
    }
  }

  lemma {:induction false} SortDescPerm<T>(s: seq<T>, key: T -> int)
    ensures multiset(SortDesc(s, key)) == multiset(s)
    ensures |SortDesc(s, key)| == |s|
  {
    if s != [] {
      SortDescPerm(s[1..], key);
      InsertDescPerm(s[0], SortDesc(s[1..], key), key);
      assert s == [s[0]] + s[1..];
    }
  }

  /** The sort orders by non-increasing key and is a permutation of its input. */
  lemma SortDescCorrect<T>(s: seq<T>, key: T -> int)
    ensures SortedDesc(SortDesc(s, key), key)
    ensures multiset(SortDesc(s, key)) == multiset(s)
    ensures |SortDesc(s, key)| == |s|
  {
    SortDescSorted(s, key);
    SortDescPerm(s, key);
  }

  /** A sort keeps exactly the elements it was given. */
  lemma SortDescMembers<T>(s: seq<T>, key: T -> int)
    ensures forall x :: x in SortDesc(s, key) <==> x in s
  {
    SortDescCorrect(s, key);
    forall x ensures x in SortDesc(s, key) <==> x in s {
      assert x in SortDesc(s, key) <==> x in multiset(SortDesc(s, key));
      assert x in s <==> x in multiset(s);
    }
  }

  /** Membership in a filter: in the input and accepted. */
  lemma FilterIn<T>(s: seq<T>, p: T -> bool)
    ensures forall x :: x in Filter(s, p) <==> x in s && p(x)
  {
    forall x ensures x in Filter(s, p) <==> x in s && p(x) {
      FilterCount(s, p, x);
      assert x in Filter(s, p) <==> x in multiset(Filter(s, p));
      assert x in s <==> x in multiset(s);
    }
  }

  lemma SortedFilterMember<T>(s: seq<T>, p: T -> bool, key: T -> int, x: T)
    requires x in SortDesc(Filter(s, p), key)
    ensures x in s && p(x)
  {
    SortDescMembers(Filter(s, p), key);
    FilterIn(s, p);
  }

  /** Every element of a filtered and sorted sequence comes from the input and satisfies the filter. */
  lemma SortedFilterSatisfies<T>(s: seq<T>, p: T -> bool, key: T -> int)
    ensures forall i :: 0 <= i < |SortDesc(Filter(s, p), key)| ==>
      SortDesc(Filter(s, p), key)[i] in s && p(SortDesc(Filter(s, p), key)[i])
  {
    var r := SortDesc(Filter(s, p), key);
    forall i | 0 <= i < |r| ensures r[i] in s && p(r[i]) {
      SortedFilterMember(s, p, key, r[i]);
    }
  }

  lemma FilterSingle<T>(a: T, p: T -> bool)
    ensures Filter([a], p) == if p(a) then [a] else []
  {
    assert [a][1..] == [];
  }

  lemma {:induction false} InsertDescStable<T>(x: T, s: seq<T>, key: T -> int, k: int)
    ensures Filter(InsertDesc(x, s, key), KeyIs(key, k)) == Filter([x] + s, KeyIs(key, k))
  {
    var p := KeyIs(key, k);
    if s != [] && key(x) < key(s[0]) {
      var ins := InsertDesc(x, s[1..], key);
      InsertDescStable(x, s[1..], key, k);
      FilterConcat([s[0]], ins, p);
      FilterConcat([x], s[1..], p);
      FilterConcat([x], s, p);
      FilterConcat([s[0]], s[1..], p);
      assert s == [s[0]] + s[1..];
      FilterSingle(x, p);
      FilterSingle(s[0], p);
      // the keys of x and s[0] differ, so at most one of them is kept
      assert Filter([x], p) == [] || Filter([s[0]], p) == [];
      calc {
        Filter(InsertDesc(x, s, key), p);
        Filter([s[0]], p) + Filter(ins, p);
        Filter([s[0]], p) + (Filter([x], p) + Filter(s[1..], p));
        Filter([x], p) + (Filter([s[0]], p) + Filter(s[1..], p));
        Filter([x] + s, p);
      }
    }
  }

  /**
   * Stability: the elements of any one key come out in the order they went in, so the
   * sort only moves an element past elements of a different key.
   */
  lemma {:induction false} SortDescStable<T>(s: seq<T>, key: T -> int, k: int)
    ensures Filter(SortDesc(s, key), KeyIs(key, k)) == Filter(s, KeyIs(key, k))
  {
    if s != [] {
      var p := KeyIs(key, k);
      var rest := SortDesc(s[1..], key);
      SortDescStable(s[1..], key, k);
      InsertDescStable(s[0], rest, key, k);
      FilterConcat([s[0]], rest, p);
      FilterConcat([s[0]], s[1..], p);
      assert s == [s[0]] + s[1..];
    }
  }

  /** The first `n` elements, or all of them when there are fewer (Kotlin `take`). */
  function Take<T>(s: seq<T>, n: nat): (r: seq<T>)
    ensures |r| == if n < |s| then n else |s|
    ensures r <= s
  {
    if n < |s| then s[..n] else s
  }

  /** Taking a prefix never adds an element or a copy of one. */
  lemma TakeSubMultiset<T>(s: seq<T>, n: nat)
    ensures multiset(Take(s, n)) <= multiset(s)
  {
    var t := Take(s, n);
    assert s == t + s[|t|..];
  }

  /**
   * Taking the first `n` of a sequence sorted by non-increasing key yields the `n`
   * largest keys: everything left behind has a key no larger than anything taken.
   */
  lemma TakeSortedIsTop<T>(s: seq<T>, key: T -> int, n: nat)
    requires SortedDesc(s, key)
    ensures multiset(s) == multiset(Take(s, n)) + multiset(s[|Take(s, n)|..])
    ensures forall x, y :: x in s[|Take(s, n)|..] && y in Take(s, n) ==> key(x) <= key(y)
  {
    var t := Take(s, n);
    assert s == t + s[|t|..];
    forall x, y | x in s[|t|..] && y in t ensures key(x) <= key(y) {
      var i :| 0 <= i < |s[|t|..]| && s[|t|..][i] == x;
      var j :| 0 <= j < |t| && t[j] == y;
      assert s[j] == y && s[|t| + i] == x;
    }
  }

  /** What a sort-then-take leaves behind is no larger in key than anything it keeps. */
  lemma TopOfSortedKeepsLargest<T>(s: seq<T>, key: T -> int, n: nat, x: T, y: T)
    requires x in s && x !in Take(SortDesc(s, key), n) && y in Take(SortDesc(s, key), n)
    ensures key(x) <= key(y)
  {
    var sorted := SortDesc(s, key);
    var t := Take(sorted, n);
    SortDescMembers(s, key);
    SortDescSorted(s, key);
    TakeSortedIsTop(sorted, key, n);
    assert sorted == t + sorted[|t|..];
    assert x in sorted[|t|..];
  }
}
