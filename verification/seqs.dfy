/**
 Order-preserving filtering and sorting by a numeric key, the two sequence
 operations the chat backend and client perform on lists of records.
 */
module Seqs {

  /** The elements of `s` that satisfy `p`, in their original order. */
  function Filter<T(==,!new)>(p: T -> bool, s: seq<T>): (r: seq<T>)
    ensures |r| <= |s|
    ensures forall i :: 0 <= i < |r| ==> p(r[i])
    decreases |s|
  {
    if s == [] then []
    else if p(s[0]) then [s[0]] + Filter(p, s[1..])
    else Filter(p, s[1..])
  }

  /** Filtering keeps every element satisfying `p` exactly as often as it occurs, and nothing else. */
  lemma {:induction false} FilterMultiset<T(!new)>(p: T -> bool, s: seq<T>)
    ensures forall x :: multiset(Filter(p, s))[x] == if p(x) then multiset(s)[x] else 0
    decreases |s|
  {
    if s != [] {
      FilterMultiset(p, s[1..]);
      assert s == [s[0]] + s[1..];
      assert multiset(s) == multiset{s[0]} + multiset(s[1..]);
      if p(s[0]) {
        assert multiset([s[0]] + Filter(p, s[1..])) == multiset{s[0]} + multiset(Filter(p, s[1..]));
      }
    }
  }

  /** Filtering a concatenation filters each part: the kept elements stay in order. */
  lemma {:induction false} FilterAppend<T(!new)>(p: T -> bool, a: seq<T>, b: seq<T>)
    ensures Filter(p, a + b) == Filter(p, a) + Filter(p, b)
    decreases |a|
  {
    if a == [] {
      assert a + b == b;
    } else {
      assert (a + b)[0] == a[0] && (a + b)[1..] == a[1..] + b;
      FilterUnfold(p, a + b);
      FilterUnfold(p, a);
      FilterAppend(p, a[1..], b);
    }
  }

  /** One step of `Filter`: the head is kept or dropped, then the tail is filtered. */
  lemma FilterUnfold<T(!new)>(p: T -> bool, s: seq<T>)
    requires s != []
    ensures Filter(p, s) == (if p(s[0]) then [s[0]] else []) + Filter(p, s[1..])
  {
  }

  /** Two predicates that agree on every element of `s` keep the same elements. */
  lemma {:induction false} FilterCongruent<T(!new)>(p: T -> bool, q: T -> bool, s: seq<T>)
    requires forall i :: 0 <= i < |s| ==> p(s[i]) == q(s[i])
    ensures Filter(p, s) == Filter(q, s)
    decreases |s|
  {
    if s != [] {
      assert p(s[0]) == q(s[0]);
      FilterCongruent(p, q, s[1..]);
    }
  }

  /** `s` is in non-decreasing order of `key`. */
  predicate SortedBy<T>(key: T -> int, s: seq<T>) {
    forall i, j :: 0 <= i < j < |s| ==> key(s[i]) <= key(s[j])
  }

  /** Insert `x` into sorted `s` before the first element whose key is not smaller. */
  function Insert<T(==,!new)>(key: T -> int, x: T, s: seq<T>): (r: seq<T>)
    requires SortedBy(key, s)
    ensures SortedBy(key, r)
    ensures multiset(r) == multiset(s) + multiset{x}
    decreases |s|
  {
    if s == [] || key(x) <= key(s[0]) then
      assert forall i :: 0 <= i < |s| ==> key(x) <= key(s[i]);
      SortedCons(key, x, s);
      assert multiset([x] + s) == multiset{x} + multiset(s);
      [x] + s
    else
      SortedTail(key, s);
      var rest := Insert(key, x, s[1..]);
      assert s == [s[0]] + s[1..];
      assert multiset(s) == multiset{s[0]} + multiset(s[1..]);
      assert multiset([s[0]] + rest) == multiset{s[0]} + multiset(rest);
      AllAtLeast(key, key(s[0]), rest, s[1..], x);
      SortedCons(key, s[0], rest);
      [s[0]] + rest
  }

  /** The tail of a sorted sequence is sorted and bounded below by its head. */
  lemma SortedTail<T>(key: T -> int, s: seq<T>)
    requires s != [] && SortedBy(key, s)
    ensures SortedBy(key, s[1..])
    ensures forall i :: 0 <= i < |s[1..]| ==> key(s[0]) <= key(s[1..][i])
  {
  }

  /** A head no larger than anything in a sorted tail gives a sorted sequence. */
  lemma SortedCons<T>(key: T -> int, a: T, rest: seq<T>)
    requires SortedBy(key, rest)
    requires forall i :: 0 <= i < |rest| ==> key(a) <= key(rest[i])
    ensures SortedBy(key, [a] + rest)
  {
  }

  /** A permutation of `s` plus `x` keeps a lower bound that `x` and every element of `s` meet. */
  lemma AllAtLeast<T(!new)>(key: T -> int, bound: int, r: seq<T>, s: seq<T>, x: T)
    requires forall i :: 0 <= i < |s| ==> bound <= key(s[i])
    requires bound <= key(x)
    requires multiset(r) == multiset(s) + multiset{x}
    ensures forall j :: 0 <= j < |r| ==> bound <= key(r[j])
  {
    forall j | 0 <= j < |r|
      ensures bound <= key(r[j])
    {
      assert r[j] in multiset(r);
      if r[j] != x {
        assert r[j] in multiset(s);
        var k :| 0 <= k < |s| && s[k] == r[j];
      }
    }
  }

  /** `s` sorted by `key`: a permutation of `s` in non-decreasing key order. */
  function SortBy<T(==,!new)>(key: T -> int, s: seq<T>): (r: seq<T>)
    ensures SortedBy(key, r)
    ensures multiset(r) == multiset(s)
    ensures |r| == |s|
    decreases |s|
  {
    if s == [] then []
    else
      assert s == [s[0]] + s[1..];
      assert multiset(s) == multiset{s[0]} + multiset(s[1..]);
      var r := Insert(key, s[0], SortBy(key, s[1..]));
      assert |r| == |multiset(r)|;
      r
  }
}
