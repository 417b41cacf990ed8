/** Sequence facts the pipeline stages are specified with: sums,
    sortedness by a key, subsequences, and the in-place sort. */
module Seqs {

  /** The sum of a sequence of integers, accumulated from the front as a
      running total does. */
  function Sum(xs: seq<int>): int
  {
    if |xs| == 0 then 0 else Sum(xs[..|xs| - 1]) + xs[|xs| - 1]
  }

  /** A sum of |xs| values that all lie in [lo, hi] lies in
      [|xs| * lo, |xs| * hi]. */
  lemma {:induction false} SumBounds(xs: seq<int>, lo: int, hi: int)
    requires forall i :: 0 <= i < |xs| ==> lo <= xs[i] <= hi
    ensures |xs| * lo <= Sum(xs) <= |xs| * hi
  {
    if |xs| > 0 {
      var n := |xs| - 1;
      var p := xs[..n];
      assert forall i :: 0 <= i < |p| ==> p[i] == xs[i];
      SumBounds(p, lo, hi);
      assert Sum(xs) == Sum(p) + xs[n];
      assert |xs| * lo == n * lo + lo by { MulSucc(n, lo); }
      assert |xs| * hi == n * hi + hi by { MulSucc(n, hi); }
    }
  }

  lemma MulSucc(n: int, c: int)
    ensures (n + 1) * c == n * c + c
  {
  }

  /** Adding d to every element adds |xs| * d to the sum. */
  lemma {:induction false} SumShift(xs: seq<int>, ys: seq<int>, d: int)
    requires |xs| == |ys|
    requires forall i :: 0 <= i < |xs| ==> ys[i] == xs[i] + d
    ensures Sum(ys) == Sum(xs) + |xs| * d
  {
    if |xs| > 0 {
      var n := |xs| - 1;
      SumShift(xs[..n], ys[..n], d);
      assert |xs| * d == n * d + d;
    }
  }

  /** The sum of n copies of c. */
  lemma {:induction false} SumConstant(xs: seq<int>, c: int)
    requires forall i :: 0 <= i < |xs| ==> xs[i] == c
    ensures Sum(xs) == |xs| * c
  {
    if |xs| > 0 {
      var n := |xs| - 1;
      SumConstant(xs[..n], c);
      assert |xs| * c == n * c + c;
    }
  }

  /** s is in non-decreasing order of key. */
  ghost predicate SortedBy<T>(s: seq<T>, key: T -> int)
  {
    forall i, j :: 0 <= i < j < |s| ==> key(s[i]) <= key(s[j])
  }

  /** The identity key, for sorting plain integers. */
  function IntKey(x: int): int { x }

  /** a is the subsequence of b at the strictly increasing positions idx. */
  ghost predicate SubsequenceAt<T>(a: seq<T>, b: seq<T>, idx: seq<int>)
  {
    |idx| == |a| &&
    (forall k :: 0 <= k < |idx| ==> 0 <= idx[k] < |b| && a[k] == b[idx[k]]) &&
    (forall k, l :: 0 <= k < l < |idx| ==> idx[k] < idx[l])
  }

  /** A subsequence of all but the last element of b is a subsequence of b
      at the same positions. */
  lemma SubsequenceAtWiden<T>(a: seq<T>, b: seq<T>, idx: seq<int>)
    requires |b| > 0 && SubsequenceAt(a, b[..|b| - 1], idx)
    ensures SubsequenceAt(a, b, idx)
  {
    forall k | 0 <= k < |idx| ensures 0 <= idx[k] < |b| && a[k] == b[idx[k]] {
      assert b[..|b| - 1][idx[k]] == b[idx[k]];
    }
  }

  /** Extending such a subsequence by the last element of b extends its
      positions by the last position. */
  lemma SubsequenceAtSnoc<T>(a: seq<T>, b: seq<T>, idx: seq<int>)
    requires |b| > 0 && SubsequenceAt(a, b[..|b| - 1], idx)
    ensures SubsequenceAt(a + [b[|b| - 1]], b, idx + [|b| - 1])
  {
    SubsequenceAtWiden(a, b, idx);
    var a2, idx2 := a + [b[|b| - 1]], idx + [|b| - 1];
    forall k | 0 <= k < |idx2| ensures 0 <= idx2[k] < |b| && a2[k] == b[idx2[k]] {
      if k < |idx| {
        assert idx2[k] == idx[k] && a2[k] == a[k];
      }
    }
    forall k, l | 0 <= k < l < |idx2| ensures idx2[k] < idx2[l] {
      if l < |idx| {
        assert idx2[k] == idx[k] && idx2[l] == idx[l];
      } else {
        assert idx2[k] == idx[k] && 0 <= idx[k] < |b| - 1;
      }
    }
  }

  /** Exchanges two adjacent elements of an array. */
  method SwapAdjacent<T>(a: array<T>, j: int)
    requires 0 < j < a.Length
    modifies a
    ensures a[j - 1] == old(a[j]) && a[j] == old(a[j - 1])
    ensures forall m :: 0 <= m < a.Length && m != j - 1 && m != j ==> a[m] == old(a[m])
    ensures multiset(a[..]) == multiset(old(a[..]))
  {
    a[j - 1], a[j] := a[j], a[j - 1];
  }

  /** Sorts the array in place by key (an insertion sort; the order of
      elements with equal keys is not specified). */
  method SortByKey<T>(a: array<T>, key: T -> int)
    modifies a
    ensures SortedBy(a[..], key)
    ensures multiset(a[..]) == multiset(old(a[..]))
  {
    var i := 0;
    while i < a.Length
      invariant 0 <= i <= a.Length
      invariant forall p, q :: 0 <= p < q < i ==> key(a[p]) <= key(a[q])
      invariant multiset(a[..]) == multiset(old(a[..]))
    {
      var j := i;
      while j > 0 && key(a[j - 1]) > key(a[j])
        invariant 0 <= j <= i
        invariant forall p, q :: 0 <= p < q <= i && p != j && q != j ==> key(a[p]) <= key(a[q])
        invariant forall q :: j < q <= i ==> key(a[j]) <= key(a[q])
        invariant multiset(a[..]) == multiset(old(a[..]))
      {
        SwapAdjacent(a, j);
        j := j - 1;
      }
      i := i + 1;
    }
  }

  /** Inserts x into an ascending sequence of integers. */
  function Insert(x: int, s: seq<int>): (r: seq<int>)
    requires SortedBy(s, IntKey)
    ensures SortedBy(r, IntKey)
    ensures multiset(r) == multiset(s) + multiset{x}
    ensures |r| == |s| + 1
    ensures r[0] == if |s| == 0 || x <= s[0] then x else s[0]
  {
    if |s| == 0 then [x]
    else if x <= s[0] then
      ConsSorted(x, s);
      [x] + s
    else
      assert s == [s[0]] + s[1..];
      TailOfSorted(s);
      var t := Insert(x, s[1..]);
      ConsSorted(s[0], t);
      [s[0]] + t
  }

  /** Putting an element no greater than the first in front of an
      ascending sequence keeps it ascending. */
  lemma ConsSorted(h: int, t: seq<int>)
    requires SortedBy(t, IntKey) && (|t| > 0 ==> h <= t[0])
    ensures SortedBy([h] + t, IntKey)
  {
    var r := [h] + t;
    forall i, j | 0 <= i < j < |r| ensures IntKey(r[i]) <= IntKey(r[j]) {
      if i > 0 {
        assert r[i] == t[i - 1] && r[j] == t[j - 1];
      } else if j > 1 {
        assert IntKey(t[0]) <= IntKey(t[j - 1]);
      }
    }
  }

  /** A reference sort of integers (insertion sort), used to name "the"
      sorted order of a sequence of integers. */
  function SortInts(xs: seq<int>): (r: seq<int>)
    ensures SortedBy(r, IntKey)
    ensures multiset(r) == multiset(xs)
  {
    if |xs| == 0 then []
    else
      assert xs == [xs[0]] + xs[1..];
      Insert(xs[0], SortInts(xs[1..]))
  }

  /** The first element of an ascending sequence is at most every element
      of any sequence with the same elements. */
  lemma AscendingHeadIsLeast(a: seq<int>, b: seq<int>)
    requires SortedBy(a, IntKey) && |a| > 0 && |b| > 0
    requires multiset(a) == multiset(b)
    ensures a[0] <= b[0]
  {
    assert b[0] in multiset(b);
    assert b[0] in a;
    var k :| 0 <= k < |a| && a[k] == b[0];
  }

  /** Dropping the first element removes one copy of it from the multiset
      and keeps the rest in order. */
  lemma TailOfSorted(a: seq<int>)
    requires |a| > 0 && SortedBy(a, IntKey)
    ensures multiset(a[1..]) == multiset(a) - multiset{a[0]}
    ensures SortedBy(a[1..], IntKey)
  {
    assert a == [a[0]] + a[1..];
    forall i, j | 0 <= i < j < |a| - 1 ensures IntKey(a[1..][i]) <= IntKey(a[1..][j]) {
      assert a[1..][i] == a[i + 1] && a[1..][j] == a[j + 1];
    }
  }

  /** Two ascending sequences with the same elements agree on their first
      element, and what follows it is again ascending with equal elements. */
  lemma SortedHeadsAgree(a: seq<int>, b: seq<int>)
    requires SortedBy(a, IntKey) && SortedBy(b, IntKey)
    requires multiset(a) == multiset(b) && |a| > 0
    ensures |b| > 0 && a[0] == b[0]
    ensures SortedBy(a[1..], IntKey) && SortedBy(b[1..], IntKey)
    ensures multiset(a[1..]) == multiset(b[1..])
  {
    assert |a| == |multiset(a)| == |multiset(b)| == |b|;
    AscendingHeadIsLeast(a, b);
    AscendingHeadIsLeast(b, a);
    TailOfSorted(a);
    TailOfSorted(b);
  }

  /** Two ascending sequences of integers with the same elements are
      equal: the sorted order of a sequence of integers is unique. */
  lemma {:induction false} AscendingUnique(a: seq<int>, b: seq<int>)
    requires SortedBy(a, IntKey) && SortedBy(b, IntKey)
    requires multiset(a) == multiset(b)
    ensures a == b
  {
    if |a| == 0 {
      assert |multiset(b)| == 0;
    } else {
      SortedHeadsAgree(a, b);
      AscendingUnique(a[1..], b[1..]);
      assert a == [a[0]] + a[1..] && b == [b[0]] + b[1..];
    }
  }
}
