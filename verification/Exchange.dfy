/** Sorts that swap out-of-order pairs: gnome, comb and odd-even transposition sort. They end
    because every such swap, at any distance, lowers the number of inversions. */
module Exchange {
  import opened Sorting

  // ----- inversions -----

  function Inversions(s: seq<int>): nat {
    if s == [] then 0 else CountBelow(s[1..], s[0]) + Inversions(s[1..])
  }

  /** The pairs of an element of `u` above an element of `v`. */
  function Cross(u: seq<int>, v: seq<int>): nat {
    if u == [] then 0 else CountBelow(v, u[0]) + Cross(u[1..], v)
  }

  lemma {:induction false} InversionsConcat(u: seq<int>, v: seq<int>)
    ensures Inversions(u + v) == Inversions(u) + Inversions(v) + Cross(u, v)
  {
    if u == [] {
      assert u + v == v;
    } else {
      assert (u + v)[1..] == u[1..] + v;
      CountBelowConcat(u[1..], v, u[0]);
      InversionsConcat(u[1..], v);
    }
  }

  lemma {:induction false} CrossConcat(t: seq<int>, u: seq<int>, v: seq<int>)
    ensures Cross(t + u, v) == Cross(t, v) + Cross(u, v)
  {
    if t == [] {
      assert t + u == u;
    } else {
      assert (t + u)[1..] == t[1..] + u;
      CrossConcat(t[1..], u, v);
    }
  }

  lemma {:induction false} CrossMultiset(u: seq<int>, v: seq<int>, v': seq<int>)
    requires multiset(v) == multiset(v')
    ensures Cross(u, v) == Cross(u, v')
  {
    if u != [] {
      CountBelowMultiset(v, v', u[0]);
      CrossMultiset(u[1..], v, v');
    }
  }

  lemma {:induction false} CountBelowMonotone(s: seq<int>, v: int, w: int)
    requires v <= w
    ensures CountBelow(s, v) <= CountBelow(s, w)
  {
    if s != [] { CountBelowMonotone(s[1..], v, w); }
  }

  lemma {:induction false} CrossSingleMonotone(u: seq<int>, v: int, w: int)
    requires v <= w
    ensures Cross(u, [w]) <= Cross(u, [v])
  {
    if u != [] {
      Singleton(v, u[0]);
      Singleton(w, u[0]);
      CrossSingleMonotone(u[1..], v, w);
    }
  }

  lemma Singleton(x: int, v: int)
    ensures CountBelow([x], v) == (if x < v then 1 else 0) && Inversions([x]) == 0
  {
    assert [x][1..] == [];
  }

  lemma Prepend(x: int, s: seq<int>)
    ensures Inversions([x] + s) == CountBelow(s, x) + Inversions(s)
  {
    assert ([x] + s)[1..] == s;
  }

  lemma Append(s: seq<int>, y: int)
    ensures Inversions(s + [y]) == Inversions(s) + Cross(s, [y])
  {
    InversionsConcat(s, [y]);
    Singleton(y, 0);
  }

  /** The two ends of a segment, exchanged when out of order. */
  lemma EndsLower(x: int, b: seq<int>, y: int)
    requires x > y
    ensures Inversions([y] + (b + [x])) < Inversions([x] + (b + [y]))
  {
    hide Inversions, Cross, CountBelow;
    Prepend(y, b + [x]);
    Prepend(x, b + [y]);
    Append(b, x);
    Append(b, y);
    CountBelowConcat(b, [x], y);
    CountBelowConcat(b, [y], x);
    Singleton(x, y);
    Singleton(y, x);
    CountBelowMonotone(b, y, x);
    CrossSingleMonotone(b, y, x);
  }

  /** The same segment inside a longer sequence. */
  lemma SegmentLower(a: seq<int>, m: seq<int>, m': seq<int>, c: seq<int>)
    requires multiset(m) == multiset(m') && Cross(m, c) == Cross(m', c) && Inversions(m') < Inversions(m)
    ensures Inversions(a + (m' + c)) < Inversions(a + (m + c))
  {
    hide Inversions, Cross;
    InversionsConcat(a, m + c);
    InversionsConcat(a, m' + c);
    InversionsConcat(m, c);
    InversionsConcat(m', c);
    CrossMultiset(a, m + c, m' + c);
  }

  lemma EndsCross(x: int, b: seq<int>, y: int, c: seq<int>)
    ensures Cross([x] + (b + [y]), c) == Cross([y] + (b + [x]), c)
  {
    CrossConcat([x], b + [y], c);
    CrossConcat([y], b + [x], c);
    CrossConcat(b, [y], c);
    CrossConcat(b, [x], c);
  }

  /** Swapping any out-of-order pair, however far apart, strictly lowers the inversion count. */
  lemma SwapLowers(s: seq<int>, i: nat, j: nat)
    requires i < j < |s| && s[i] > s[j]
    ensures Inversions(Swapped(s, i, j)) < Inversions(s)
  {
    hide Inversions, Cross, CountBelow;
    var a, b, c := s[..i], s[i + 1..j], s[j + 1..];
    var m, m' := [s[i]] + (b + [s[j]]), [s[j]] + (b + [s[i]]);
    SwapPieces(s, i, j);
    EndsLower(s[i], b, s[j]);
    EndsCross(s[i], b, s[j], c);
    assert multiset(m) == multiset{s[i], s[j]} + multiset(b) == multiset(m');
    SegmentLower(a, m, m', c);
  }

  lemma SwapPieces(s: seq<int>, i: nat, j: nat)
    requires i < j < |s|
    ensures s == s[..i] + (([s[i]] + (s[i + 1..j] + [s[j]])) + s[j + 1..])
    ensures Swapped(s, i, j) == s[..i] + (([s[j]] + (s[i + 1..j] + [s[i]])) + s[j + 1..])
  {
  }

  /** One exchange: a rearrangement with fewer inversions. */
  lemma ExchangeStep(s: seq<int>, t: seq<int>, i: nat, j: nat)
    requires Rearranged(s, t, 0, |s|) && i < j < |s| && t[i] > t[j]
    ensures Rearranged(s, Swapped(t, i, j), 0, |s|) && Inversions(Swapped(t, i, j)) < Inversions(t)
  {
    hide Rearranged, Inversions;
    RearrangedLength(s, t, 0, |s|);
    SwapLowers(t, i, j);
    SwappedRearranges(t, i, j, 0, |t|);
    RearrangedTrans(s, t, Swapped(t, i, j), 0, |s|);
  }

  ghost predicate Neighbours(s: seq<int>, i: int) {
    0 <= i && i + 1 < |s| ==> s[i] <= s[i + 1]
  }

  /** In order next to each other, in order throughout. */
  lemma {:induction false} NeighboursSort(s: seq<int>, hi: nat)
    requires hi <= |s| && forall i :: 0 <= i < hi - 1 ==> Neighbours(s, i)
    ensures SortedRange(s, 0, hi)
  {
    if hi > 1 {
      NeighboursSort(s, hi - 1);
      assert Neighbours(s, hi - 2);
    }
  }

  // ----- gnome sort -----

  /** A swap at the edge of a sorted prefix leaves a prefix one cell shorter sorted. */
  lemma StepBack(s: seq<int>, index: nat)
    requires 0 < index < |s| && SortedRange(s, 0, index)
    ensures SortedRange(Swapped(s, index, index - 1), 0, index - 1)
    ensures Swapped(s, index, index - 1) == Swapped(s, index - 1, index)
  {
  }

  lemma StepOn(s: seq<int>, index: nat)
    requires 0 < index < |s| && SortedRange(s, 0, index) && s[index] >= s[index - 1]
    ensures SortedRange(s, 0, index + 1)
  {
  }

  method GnomeSort(a: array<int>)
    modifies a
    ensures Sorted(a[..]) && multiset(a[..]) == multiset(old(a[..]))
  {
    hide Inversions, Rearranged, SortedRange, Sorted, Swapped;
    ghost var before := a[..];
    RearrangedRefl(before, 0, |before|);
    if a.Length <= 1 {
      NeighboursSort(before, |before|);
      WholeRange(before, before);
      return;
    }
    var index := 0;
    assert SortedRange(a[..], 0, 0) by { NeighboursSort(a[..], 0); }
    while index < a.Length
      invariant 0 <= index <= a.Length
      invariant SortedRange(a[..], 0, index)
      invariant Rearranged(before, a[..], 0, a.Length)
      decreases Inversions(a[..]), a.Length - index
    {
      if index == 0 {
        NeighboursSort(a[..], 1);
        index := index + 1;
      }
      if a[index] >= a[index - 1] {
        StepOn(a[..], index);
        index := index + 1;
      } else {
        StepBack(a[..], index);
        ExchangeStep(before, a[..], index - 1, index);
        Swap(a, index, index - 1);
        index := index - 1;
      }
    }
    WholeRange(before, a[..]);
  }

  // ----- comb sort -----

  function NextGap(gap: nat): (next: nat)
    ensures next >= 1 && (gap > 1 ==> next < gap)
  {
    if gap * 10 / 13 < 1 then 1 else gap * 10 / 13
  }

  /** No pair at this distance is out of order, left of `hi`. */
  ghost predicate Combed(s: seq<int>, gap: nat, hi: int) {
    forall i {:trigger s[i]} :: 0 <= i < hi && i + gap < |s| ==> s[i] <= s[i + gap]
  }

  lemma CombedByOne(s: seq<int>)
    requires Combed(s, 1, |s| - 1)
    ensures SortedRange(s, 0, |s|)
  {
    NeighboursSort(s, |s|);
  }

  lemma CombedNone(s: seq<int>, gap: nat, hi: int)
    requires hi <= 0
    ensures Combed(s, gap, hi)
  {
  }

  lemma CombedNext(s: seq<int>, gap: nat, i: nat)
    requires Combed(s, gap, i) && i + gap < |s| && s[i] <= s[i + gap]
    ensures Combed(s, gap, i + 1)
  {
  }

  /** One sweep over the pairs at distance `gap`. */
  method CombPass(a: array<int>, gap: nat) returns (swapped: bool)
    requires gap >= 1
    modifies a
    ensures Rearranged(old(a[..]), a[..], 0, a.Length)
    ensures swapped ==> Inversions(a[..]) < Inversions(old(a[..]))
    ensures !swapped ==> a[..] == old(a[..]) && Combed(a[..], gap, a.Length - gap)
  {
    hide Inversions, Rearranged, Swapped, Combed;
    ghost var before := a[..];
    RearrangedRefl(before, 0, |before|);
    CombedNone(before, gap, 0);
    if a.Length < gap { CombedNone(before, gap, a.Length - gap); }
    swapped := false;
    var i := 0;
    while i < a.Length - gap
      invariant 0 <= i && (i <= a.Length - gap || i == 0)
      invariant Rearranged(before, a[..], 0, a.Length)
      invariant swapped ==> Inversions(a[..]) < Inversions(before)
      invariant !swapped ==> a[..] == before && Combed(before, gap, i)
    {
      if a[i] > a[i + gap] {
        ExchangeStep(before, a[..], i, i + gap);
        Swap(a, i, i + gap);
        swapped := true;
      } else if !swapped {
        CombedNext(before, gap, i);
      }
      i := i + 1;
    }
  }

  method CombSort(a: array<int>)
    modifies a
    ensures Sorted(a[..]) && multiset(a[..]) == multiset(old(a[..]))
  {
    hide Inversions, Rearranged, SortedRange, Sorted, Combed;
    ghost var before := a[..];
    RearrangedRefl(before, 0, |before|);
    if a.Length <= 1 {
      NeighboursSort(before, |before|);
      WholeRange(before, before);
      return;
    }
    var gap, swapped := a.Length, true;
    while gap != 1 || swapped
      invariant gap >= 1
      invariant Rearranged(before, a[..], 0, a.Length)
      invariant !swapped ==> Combed(a[..], gap, a.Length - gap)
      decreases Inversions(a[..]), gap, swapped
    {
      gap := NextGap(gap);
      ghost var sofar := a[..];
      swapped := CombPass(a, gap);
      RearrangedTrans(before, sofar, a[..], 0, a.Length);
    }
    CombedByOne(a[..]);
    WholeRange(before, a[..]);
  }

  // ----- odd-even transposition sort -----

  /** The pairs (i, i + 1) with i of the parity of `first`, from `first` up to `hi`, are in order. */
  ghost predicate PairsOrdered(s: seq<int>, first: nat, hi: int) {
    forall i {:trigger Neighbours(s, i)} :: first <= i < hi && i % 2 == first % 2 ==> Neighbours(s, i)
  }

  /** odd_pass for `first` 1 and even_pass for `first` 0. */
  method TranspositionPass(a: array<int>, first: nat, sorted: bool) returns (still: bool)
    requires first <= 1
    modifies a
    ensures Rearranged(old(a[..]), a[..], 0, a.Length)
    ensures still ==> sorted && a[..] == old(a[..]) && PairsOrdered(a[..], first, a.Length - 1)
    ensures Inversions(a[..]) <= Inversions(old(a[..]))
    ensures sorted && !still ==> Inversions(a[..]) < Inversions(old(a[..]))
  {
    hide Inversions, Rearranged, Swapped;
    ghost var before := a[..];
    RearrangedRefl(before, 0, |before|);
    still := sorted;
    var i := first;
    while i < a.Length - 1
      invariant first <= i && i % 2 == first % 2
      invariant Rearranged(before, a[..], 0, a.Length)
      invariant a[..] == before || (Inversions(a[..]) < Inversions(before) && !still)
      invariant still ==> sorted && PairsOrdered(before, first, i)
      invariant sorted && !still ==> Inversions(a[..]) < Inversions(before)
    {
      if a[i] > a[i + 1] {
        ExchangeStep(before, a[..], i, i + 1);
        Swap(a, i, i + 1);
        still := false;
      }
      i := i + 2;
    }
  }

  lemma PassesSort(s: seq<int>)
    requires PairsOrdered(s, 0, |s| - 1) && PairsOrdered(s, 1, |s| - 1)
    ensures SortedRange(s, 0, |s|)
  {
    hide Neighbours;
    forall i | 0 <= i < |s| - 1 ensures Neighbours(s, i) {
      assert i % 2 == 0 || i % 2 == 1;
    }
    NeighboursSort(s, |s|);
  }

  method OddEvenSort(a: array<int>)
    modifies a
    ensures Sorted(a[..]) && multiset(a[..]) == multiset(old(a[..]))
  {
    hide Inversions, Rearranged, SortedRange, Sorted, PairsOrdered;
    ghost var before := a[..];
    RearrangedRefl(before, 0, |before|);
    if a.Length <= 1 {
      NeighboursSort(before, |before|);
      WholeRange(before, before);
      return;
    }
    var sorted := false;
    while !sorted
      invariant Rearranged(before, a[..], 0, a.Length)
      invariant sorted ==> PairsOrdered(a[..], 0, a.Length - 1) && PairsOrdered(a[..], 1, a.Length - 1)
      decreases Inversions(a[..]), !sorted
    {
      ghost var sofar := a[..];
      sorted := TranspositionPass(a, 1, true);
      ghost var odd := a[..];
      sorted := TranspositionPass(a, 0, sorted);
      RearrangedTrans(before, sofar, odd, 0, a.Length);
      RearrangedTrans(before, odd, a[..], 0, a.Length);
    }
    PassesSort(a[..]);
    WholeRange(before, a[..]);
  }
}
