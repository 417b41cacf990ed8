/** The summary of the offsets: their mean and their median, as exact
    rational numbers. */
module Summary {
  import opened Records
  import opened Seqs
  import opened Align
  import Clock

  /** The arithmetic mean. */
  function Mean(xs: seq<int>): real
    requires |xs| > 0
  {
    Sum(xs) as real / |xs| as real
  }

  /** The midpoint rule on an ascending sequence: the middle element for
      an odd count, the average of the two middle elements for an even one. */
  function MedianOfSorted(ys: seq<int>): real
    requires |ys| > 0
  {
    var n := |ys|;
    if n % 2 == 0 then (ys[n / 2 - 1] as real + ys[n / 2] as real) / 2.0
    else ys[n / 2] as real
  }

  /** The median: the midpoint rule applied to the values in ascending
      order. */
  function Median(xs: seq<int>): real
    requires |xs| > 0
  {
    var ys := SortInts(xs);
    assert |ys| == |multiset(ys)| == |multiset(xs)| == |xs|;
    MedianOfSorted(ys)
  }

  /** Computes the mean and the median of the record offsets; the median is
      taken from a sorted copy of the offsets, and the records themselves are
      not reordered. */
  method Summarize(stats: seq<Stats>) returns (mean: real, median: real)
    requires |stats| > 0
    ensures mean == Mean(Offsets(stats))
    ensures median == Median(Offsets(stats))
  {
    var sumAbsolute := 0;
    var absoluteValues: seq<int> := [];
    var i := 0;
    while i < |stats|
      invariant 0 <= i <= |stats|
      invariant absoluteValues == Offsets(stats)[..i]
      invariant sumAbsolute == Sum(absoluteValues)
    {
      assert Offsets(stats)[..i + 1] == Offsets(stats)[..i] + [stats[i].absolute];
      sumAbsolute := sumAbsolute + stats[i].absolute;
      absoluteValues := absoluteValues + [stats[i].absolute];
      i := i + 1;
    }
    assert absoluteValues == Offsets(stats);
    mean := sumAbsolute as real / |stats| as real;
    median := MedianOfSortedCopy(absoluteValues);
  }

  /** Sorts a copy of the values in place; the copy comes out as the one
      ascending arrangement of the values. */
  method SortedCopy(values: seq<int>) returns (sorted: seq<int>)
    ensures sorted == SortInts(values)
  {
    var a := new int[|values|](k requires 0 <= k < |values| => values[k]);
    assert a[..] == values;
    SortByKey(a, IntKey);
    sorted := a[..];
    AscendingUnique(sorted, SortInts(values));
  }

  /** Applies the midpoint rule to a sorted copy of the values. */
  method MedianOfSortedCopy(values: seq<int>) returns (median: real)
    requires |values| > 0
    ensures median == Median(values)
  {
    var sorted := SortedCopy(values);
    assert |sorted| == |multiset(sorted)| == |multiset(values)| == |values|;
    var n := |sorted|;
    if n % 2 == 0 {
      median := (sorted[n / 2 - 1] as real + sorted[n / 2] as real) / 2.0;
    } else {
      median := sorted[n / 2] as real;
    }
  }

  /** The median depends on the values only, not on their order. */
  lemma MedianIgnoresOrder(xs: seq<int>, ys: seq<int>)
    requires |xs| > 0 && multiset(xs) == multiset(ys)
    ensures |ys| == |xs| && Median(xs) == Median(ys)
  {
    assert |ys| == |multiset(ys)| == |multiset(xs)| == |xs|;
    AscendingUnique(SortInts(xs), SortInts(ys));
  }

  /** On values already in ascending order the median is the midpoint rule
      applied to them as they stand. */
  lemma MedianOfAscending(xs: seq<int>)
    requires |xs| > 0 && SortedBy(xs, IntKey)
    ensures Median(xs) == MedianOfSorted(xs)
  {
    AscendingUnique(xs, SortInts(xs));
  }

  /** The midpoint rule on an even count: [1, 2, 3, 4] gives 2.5. */
  lemma MedianEvenExample()
    ensures Median([1, 2, 3, 4]) == 2.5
  {
    var xs := [1, 2, 3, 4];
    assert SortedBy(xs, IntKey);
    MedianOfAscending(xs);
    assert MedianOfSorted(xs) == (2 as real + 3 as real) / 2.0;
  }

  /** The midpoint rule on an odd count: [1, 2, 3] gives 2. */
  lemma MedianOddExample()
    ensures Median([1, 2, 3]) == 2.0
  {
    var ys := [1, 2, 3];
    assert SortedBy(ys, IntKey);
    MedianOfAscending(ys);
  }

  /** The values are sorted before the midpoint rule applies: [3, 1, 2]
      gives 2, not 1. */
  lemma MedianUnsortedExample()
    ensures Median([3, 1, 2]) == 2.0
  {
    var xs, ys := [3, 1, 2], [1, 2, 3];
    assert multiset(xs) == multiset(ys);
    MedianIgnoresOrder(ys, xs);
    MedianOddExample();
  }

  /** The mean lies between the least and the greatest value. */
  lemma MeanBounds(xs: seq<int>, lo: int, hi: int)
    requires |xs| > 0
    requires forall i :: 0 <= i < |xs| ==> lo <= xs[i] <= hi
    ensures lo as real <= Mean(xs) <= hi as real
  {
    SumBounds(xs, lo, hi);
    var n := |xs| as real;
    Clock.IntProductAsReal(|xs|, lo);
    Clock.IntProductAsReal(|xs|, hi);
    Clock.MulLeImpliesLeDiv(lo as real, Sum(xs) as real, n);
    Clock.DivLeImpliesLeMul(hi as real, Sum(xs) as real, n);
  }

  /** The median lies between the least and the greatest value. */
  lemma MedianBounds(xs: seq<int>, lo: int, hi: int)
    requires |xs| > 0
    requires forall i :: 0 <= i < |xs| ==> lo <= xs[i] <= hi
    ensures lo as real <= Median(xs) <= hi as real
  {
    var ys := SortInts(xs);
    assert |ys| == |multiset(ys)| == |multiset(xs)| == |xs|;
    forall k | 0 <= k < |ys| ensures lo <= ys[k] <= hi {
      assert ys[k] in multiset(ys);
      assert ys[k] in xs;
    }
  }

  /** When every offset is the same value c, both the mean and the median
      are c. */
  lemma ConstantOffsets(xs: seq<int>, c: int)
    requires |xs| > 0
    requires forall i :: 0 <= i < |xs| ==> xs[i] == c
    ensures Mean(xs) == c as real && Median(xs) == c as real
  {
    MeanBounds(xs, c, c);
    MedianBounds(xs, c, c);
  }
}
