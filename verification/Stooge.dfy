/** Stooge sort: three overlapping sorts of two thirds. */
module Stooge {
  import opened Sorting

  lemma PrefixBelow(s: seq<int>, v: int, k: nat)
    requires Sorted(s) && k < |s| && s[k] < v
    ensures CountBelow(s, v) > k
  {
    hide CountBelow;
    CountBelowConcat(s[..k + 1], s[k + 1..], v);
    assert s == s[..k + 1] + s[k + 1..];
    CountBelowAll(s[..k + 1], v);
  }

  /** A sorted run with at least `n` elements not below `v` ends with `n` of them. */
  lemma TopOfRun(s: seq<int>, v: int, n: nat)
    requires Sorted(s) && n <= |s| && CountBelow(s, v) + n <= |s|
    ensures forall k :: |s| - n <= k < |s| ==> s[k] >= v
  {
    forall k | |s| - n <= k < |s| ensures s[k] >= v {
      if s[k] < v { PrefixBelow(s, v, k); }
    }
  }

  /** The heart of the algorithm. `s` is sorted on its first two thirds, `t` rearranges its last two
      thirds into order: then no element is above one of the last third of `t`. */
  lemma OverlapSuffices(s: seq<int>, t: seq<int>, l: nat, h: nat, third: nat)
    requires l + 3 * third <= h <= |s|
    requires SortedRange(s, l, h - third)
    requires Rearranged(s, t, l + third, h) && SortedRange(t, l + third, h)
    ensures forall i, j :: l <= i < h - third <= j < h ==> t[i] <= t[j]
  {
    RearrangedCells(s, t, l + third, h);
    forall i, j | l <= i < h - third <= j < h ensures t[i] <= t[j] {
      if i < l + third {
        FirstThirdBelow(s, t, l, h, third, i);
      }
    }
  }

  lemma FirstThirdBelow(s: seq<int>, t: seq<int>, l: nat, h: nat, third: nat, i: nat)
    requires l <= i < l + third && l + 3 * third <= h <= |s|
    requires SortedRange(s, l, h - third)
    requires Rearranged(s, t, l + third, h) && SortedRange(t, l + third, h)
    ensures t[i] == s[i] && forall j :: h - third <= j < h ==> t[i] <= t[j]
  {
    RearrangedCells(s, t, l + third, h);
    var v := s[i];
    var before, after := s[l + third..h], t[l + third..h];
    var middle := s[l + third..h - third];
    assert before == middle + s[h - third..h];
    CountBelowConcat(middle, s[h - third..h], v);
    CountBelowAll(middle, v);
    CountBelowMultiset(before, after, v);
    TopOfRun(after, v, third);
    forall j | h - third <= j < h ensures v <= t[j] {
      assert t[j] == after[j - (l + third)];
    }
  }

  /** Sorting the first two thirds again finishes. */
  lemma FinishSorted(t: seq<int>, u: seq<int>, l: nat, m: nat, h: nat)
    requires l <= m <= h <= |t| == |u|
    requires forall i, j :: l <= i < m <= j < h ==> t[i] <= t[j]
    requires SortedRange(t, m, h)
    requires Rearranged(t, u, l, m) && SortedRange(u, l, m)
    ensures SortedRange(u, l, h)
  {
    hide Rearranged;
    RearrangedCells(t, u, l, m);
    forall i, j | l <= i < j < h ensures u[i] <= u[j] {
      if i < m <= j {
        var k :| l <= k < m && t[k] == u[i];
      }
    }
  }

  /** Sorts the cells l..h, both included. */
  method StoogeSortRec(a: array<int>, l: int, h: int)
    requires 0 <= l <= h + 1 <= a.Length
    modifies a
    ensures Rearranged(old(a[..]), a[..], l, h + 1)
    ensures SortedRange(a[..], l, h + 1)
    decreases h - l, 1
  {
    hide Rearranged, SortedRange;
    if l >= h {
      AtMostOne(a[..], l, h + 1);
      return;
    }
    OrderEnds(a, l, h);
    if h - l + 1 > 2 {
      SortThirds(a, l, h, old(a[..]));
    }
  }

  lemma AtMostOne(s: seq<int>, lo: int, hi: int)
    requires 0 <= lo <= hi <= |s| && hi <= lo + 1
    ensures Rearranged(s, s, lo, hi) && SortedRange(s, lo, hi)
  {
  }

  method OrderEnds(a: array<int>, l: int, h: int)
    requires 0 <= l < h < a.Length
    modifies a
    ensures Rearranged(old(a[..]), a[..], l, h + 1)
    ensures h == l + 1 ==> SortedRange(a[..], l, h + 1)
  {
    hide Rearranged, SortedRange, Swapped;
    RearrangedRefl(a[..], l, h + 1);
    TwoCells(a[..], l, h);
    if a[l] > a[h] {
      SwappedRearranges(a[..], l, h, l, h + 1);
      Swap(a, l, h);
    }
  }

  lemma TwoCells(s: seq<int>, l: int, h: int)
    requires 0 <= l < h < |s|
    ensures h == l + 1 ==> SortedRange(if s[l] > s[h] then Swapped(s, l, h) else s, l, h + 1)
  {
  }

  /** The three recursive calls of stooge_sort_rec. */
  method SortThirds(a: array<int>, l: int, h: int, ghost s: seq<int>)
    requires 0 <= l && l + 2 <= h < a.Length
    requires Rearranged(s, a[..], l, h + 1)
    modifies a
    ensures Rearranged(s, a[..], l, h + 1)
    ensures SortedRange(a[..], l, h + 1)
    decreases h - l, 0
  {
    hide Rearranged, SortedRange;
    ghost var s0 := a[..];
    var t := (h - l + 1) / 3;
    StoogeSortRec(a, l, h - t);
    ghost var s1 := a[..];
    StoogeSortRec(a, l + t, h);
    ghost var s2 := a[..];
    StoogeSortRec(a, l, h - t);
    SameLengths(s, s0, l, h + 1);
    ThreePasses(s, s0, s1, s2, a[..], l, h + 1, t);
  }

  lemma SameLengths(s: seq<int>, t: seq<int>, lo: int, hi: int)
    requires Rearranged(s, t, lo, hi)
    ensures |s| == |t|
  {
  }

  lemma ThreePasses(s: seq<int>, s0: seq<int>, s1: seq<int>, s2: seq<int>, s3: seq<int>, l: nat, h: nat, third: nat)
    requires l + 3 * third <= h <= |s| == |s0| == |s1| == |s2| == |s3|
    requires Rearranged(s, s0, l, h)
    requires Rearranged(s0, s1, l, h - third) && SortedRange(s1, l, h - third)
    requires Rearranged(s1, s2, l + third, h) && SortedRange(s2, l + third, h)
    requires Rearranged(s2, s3, l, h - third) && SortedRange(s3, l, h - third)
    ensures Rearranged(s, s3, l, h) && SortedRange(s3, l, h)
  {
    hide Rearranged, SortedRange;
    LastThird(s2, l, h, third);
    OverlapSuffices(s1, s2, l, h, third);
    FinishSorted(s2, s3, l, h - third, h);
    RearrangedWiden(s0, s1, l, h - third, l, h);
    RearrangedWiden(s1, s2, l + third, h, l, h);
    RearrangedWiden(s2, s3, l, h - third, l, h);
    RearrangedTrans(s, s0, s1, l, h);
    RearrangedTrans(s, s1, s2, l, h);
    RearrangedTrans(s, s2, s3, l, h);
  }

  lemma LastThird(s: seq<int>, l: nat, h: nat, third: nat)
    requires l + 3 * third <= h <= |s| && SortedRange(s, l + third, h)
    ensures SortedRange(s, h - third, h)
  {
  }

  method StoogeSort(a: array<int>)
    modifies a
    ensures Sorted(a[..]) && multiset(a[..]) == multiset(old(a[..]))
  {
    if a.Length <= 1 {
      return;
    }
    StoogeSortRec(a, 0, a.Length - 1);
    WholeRange(old(a[..]), a[..]);
  }

}
