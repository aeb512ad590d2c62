/** Sequence operations shared by the hooks and pages: JavaScript's
    `Array.prototype.filter`, `reverse`, a stable `sort` with a descending
    comparator, and sums. */
module Seqs {

  /** `a` is obtained from `b` by deleting elements, keeping the order of the rest. */
  ghost predicate SubsequenceOf<T>(a: seq<T>, b: seq<T>)
    decreases |b|
  {
    if a == [] then true
    else if b == [] then false
    else (a[0] == b[0] && SubsequenceOf(a[1..], b[1..])) || SubsequenceOf(a, b[1..])
  }

  /** `Array.prototype.filter`: the elements of `s` satisfying `p`, in order. */
  function Filter<T>(s: seq<T>, p: T -> bool): (r: seq<T>)
    ensures |r| <= |s|
    ensures forall x :: x in r ==> x in s && p(x)
    ensures forall x :: x in s && p(x) ==> x in r
    ensures multiset(r) <= multiset(s)
  {
    if s == [] then []
    else
      var rest := Filter(s[1..], p);
      assert s == [s[0]] + s[1..];
      if p(s[0]) then [s[0]] + rest else rest
  }

  /** A filter keeps the order of what it keeps. */
  lemma {:induction false} FilterSubsequence<T>(s: seq<T>, p: T -> bool)
    ensures SubsequenceOf(Filter(s, p), s)
  {
    if s != [] {
      FilterSubsequence(s[1..], p);
      FilterHead(s, p);
      var r := Filter(s, p);
      if p(s[0]) {
        assert r[0] == s[0] && r[1..] == Filter(s[1..], p);
      }
    }
  }

  /** Filtering a non-empty sequence: its head, when it passes, then the
      filtered tail. */
  lemma {:induction false} FilterHead<T>(s: seq<T>, p: T -> bool)
    requires s != []
    ensures Filter(s, p) == (if p(s[0]) then [s[0]] else []) + Filter(s[1..], p)
  {
  }

  /** Filtering one more element appends it when it passes. */
  lemma {:induction false} FilterAppend<T>(s: seq<T>, x: T, p: T -> bool)
    ensures Filter(s + [x], p) == Filter(s, p) + (if p(x) then [x] else [])
  {
    if s == [] {
      assert [] + [x] == [x];
      assert [x][1..] == [];
    } else {
      assert (s + [x])[0] == s[0];
      assert (s + [x])[1..] == s[1..] + [x];
      FilterAppend(s[1..], x, p);
    }
  }

  /** Filtering by `p` and then by `q` is filtering by both at once. */
  lemma {:induction false} FilterFilter<T>(s: seq<T>, p: T -> bool, q: T -> bool, both: T -> bool)
    requires forall x :: both(x) == (p(x) && q(x))
    ensures Filter(Filter(s, p), q) == Filter(s, both)
  {
    if s != [] {
      FilterFilter(s[1..], p, q, both);
      if p(s[0]) {
        assert Filter(s, p) == [s[0]] + Filter(s[1..], p);
        assert Filter(s, p)[1..] == Filter(s[1..], p);
      }
    }
  }

  /** A filter that keeps everything returns the sequence unchanged. */
  lemma {:induction false} FilterKeepsAll<T>(s: seq<T>, p: T -> bool)
    requires forall i :: 0 <= i < |s| ==> p(s[i])
    ensures Filter(s, p) == s
  {
    if s != [] {
      FilterKeepsAll(s[1..], p);
    }
  }

  /** Two tests that agree on every element filter alike. */
  lemma {:induction false} FilterCongruent<T>(s: seq<T>, p: T -> bool, q: T -> bool)
    requires forall x :: p(x) == q(x)
    ensures Filter(s, p) == Filter(s, q)
  {
    if s != [] {
      FilterCongruent(s[1..], p, q);
    }
  }

  /** An element and its complement split a sequence: the two filters'
      lengths add up to the whole. */
  lemma {:induction false} FilterSplit<T>(s: seq<T>, p: T -> bool, notP: T -> bool)
    requires forall x :: notP(x) == !p(x)
    ensures |Filter(s, p)| + |Filter(s, notP)| == |s|
  {
    if s != [] {
      FilterSplit(s[1..], p, notP);
    }
  }

  /** `Math.min`, the length `slice(0, n)` keeps. */
  function Min(a: nat, b: nat): nat {
    if a < b then a else b
  }

  /** `Array.prototype.reverse`. */
  function Reverse<T>(s: seq<T>): (r: seq<T>)
    ensures |r| == |s|
    ensures forall i :: 0 <= i < |s| ==> r[i] == s[|s| - 1 - i]
  {
    if s == [] then [] else Reverse(s[1..]) + [s[0]]
  }

  /** Non-increasing by `key`. */
  ghost predicate SortedDesc<T>(s: seq<T>, key: T -> int) {
    forall i, j :: 0 <= i < j < |s| ==> key(s[i]) >= key(s[j])
  }

  /** Inserts `x` in front of the first element whose key does not exceed
      its own: an element inserted this way stays ahead of every later
      element with an equal key, which is what a stable sort does. */
  function InsertDesc<T>(x: T, s: seq<T>, key: T -> int): (r: seq<T>)
    requires SortedDesc(s, key)
    ensures |r| == |s| + 1
    ensures multiset(r) == multiset(s) + multiset{x}
    ensures SortedDesc(r, key)
  {
    if s == [] || key(x) >= key(s[0]) then [x] + s
    else
      var rest := InsertDesc(x, s[1..], key);
      assert s == [s[0]] + s[1..];
      HeadDominates(s[0], x, s[1..], rest, key);
      [s[0]] + rest
  }

  /** The head of a sorted sequence is at least every element that `InsertDesc`
      places after it. */
  lemma {:induction false} HeadDominates<T>(h: T, x: T, tail: seq<T>, rest: seq<T>, key: T -> int)
    requires SortedDesc([h] + tail, key)
    requires key(h) > key(x)
    requires SortedDesc(rest, key)
    requires multiset(rest) == multiset(tail) + multiset{x}
    ensures SortedDesc([h] + rest, key)
  {
    forall i | 0 <= i < |rest|
      ensures key(h) >= key(rest[i])
    {
      assert rest[i] in multiset(rest);
      if rest[i] != x {
        assert rest[i] in multiset(tail);
        var j :| 0 <= j < |tail| && tail[j] == rest[i];
        assert ([h] + tail)[0] == h;
        assert ([h] + tail)[j + 1] == tail[j];
      }
    }
    var r := [h] + rest;
    forall i, j | 0 <= i < j < |r|
      ensures key(r[i]) >= key(r[j])
    {
      if i > 0 {
        assert r[i] == rest[i - 1] && r[j] == rest[j - 1];
      } else {
        assert r[j] == rest[j - 1];
      }
    }
  }

  /** `Array.prototype.sort` with a comparator `(a, b) => key(b) - key(a)`:
      a stable sort into non-increasing key order. */
  function SortDesc<T>(s: seq<T>, key: T -> int): (r: seq<T>)
    ensures |r| == |s|
    ensures multiset(r) == multiset(s)
    ensures SortedDesc(r, key)
  {
    if s == [] then []
    else
      assert s == [s[0]] + s[1..];
      InsertDesc(s[0], SortDesc(s[1..], key), key)
  }

  /** Sorting keeps every element. */
  lemma {:induction false} SortDescKeeps<T>(s: seq<T>, key: T -> int, i: int)
    requires 0 <= i < |s|
    ensures s[i] in SortDesc(s, key)
  {
    assert s[i] in multiset(s);
  }

  /** Sorting adds no element. */
  lemma {:induction false} SortDescFrom<T>(s: seq<T>, key: T -> int, x: T)
    requires x in SortDesc(s, key)
    ensures exists i :: 0 <= i < |s| && s[i] == x
  {
    assert x in multiset(SortDesc(s, key));
  }

  /** Sum of a sequence of natural numbers. */
  function Sum(s: seq<nat>): nat {
    if s == [] then 0 else s[0] + Sum(s[1..])
  }

  /** Sum of `f` over a sequence, the `reduce((a, b) => a + b, 0)` idiom. */
  function SumOf<T>(s: seq<T>, f: T -> int): int {
    if s == [] then 0 else f(s[0]) + SumOf(s[1..], f)
  }

  /** Adding one to one entry adds one to the sum. */
  lemma {:induction false} SumIncrement(s: seq<nat>, j: nat)
    requires j < |s|
    ensures Sum(s[j := s[j] + 1]) == Sum(s) + 1
  {
    if j == 0 {
      assert s[j := s[j] + 1][1..] == s[1..];
    } else {
      assert s[j := s[j] + 1][1..] == s[1..][j - 1 := s[j] + 1];
      SumIncrement(s[1..], j - 1);
    }
  }

  /** Inserting an element adds its term to the sum. */
  lemma {:induction false} SumOfInsert<T>(x: T, s: seq<T>, key: T -> int, f: T -> int)
    requires SortedDesc(s, key)
    ensures SumOf(InsertDesc(x, s, key), f) == f(x) + SumOf(s, f)
  {
    if s != [] && key(x) < key(s[0]) {
      var r := InsertDesc(x, s, key);
      assert r == [s[0]] + InsertDesc(x, s[1..], key);
      assert r[0] == s[0] && r[1..] == InsertDesc(x, s[1..], key);
      SumOfInsert(x, s[1..], key, f);
    } else {
      var r := [x] + s;
      assert r[0] == x && r[1..] == s;
    }
  }

  /** Sorting does not change a sum. */
  lemma {:induction false} SumOfSort<T>(s: seq<T>, key: T -> int, f: T -> int)
    ensures SumOf(SortDesc(s, key), f) == SumOf(s, f)
  {
    if s != [] {
      SumOfSort(s[1..], key, f);
      SumOfInsert(s[0], SortDesc(s[1..], key), key, f);
    }
  }
}
