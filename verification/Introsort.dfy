/** Introsort: quicksort steps, heap sort when the depth limit is used up, insertion sort on
    short ranges. */
module Introsort {
  import opened Bits
  import opened Sorting

  // ----- insertion sort -----

  /** `s` with the cell at `i` moved down to `at`, the cells between shifted up. */
  function Inserted(s: seq<int>, at: nat, i: nat): (t: seq<int>)
    requires at <= i < |s|
    ensures |t| == |s|
  {
    s[..at] + [s[i]] + s[at..i] + s[i + 1..]
  }

  lemma InsertedRearranges(s: seq<int>, at: nat, i: nat, left: nat)
    requires left <= at <= i < |s|
    ensures Rearranged(s, Inserted(s, at, i), left, i + 1)
  {
    var t := Inserted(s, at, i);
    assert t[..left] == s[..left] && t[i + 1..] == s[i + 1..];
    assert t[left..i + 1] == s[left..at] + [s[i]] + s[at..i];
    assert s[left..i + 1] == s[left..at] + s[at..i] + [s[i]];
  }

  lemma InsertedSorts(s: seq<int>, at: nat, i: nat, left: nat)
    requires left <= at <= i < |s| && SortedRange(s, left, i)
    requires forall k :: at <= k < i ==> s[k] > s[i]
    requires at > left ==> s[at - 1] <= s[i]
    ensures SortedRange(Inserted(s, at, i), left, i + 1)
  {
    var t := Inserted(s, at, i);
    assert forall k :: left <= k < at ==> t[k] == s[k] && s[k] <= s[i];
    assert forall k :: at < k <= i ==> t[k] == s[k - 1];
  }

  /** The cells j + 1 to i - 1 shifted up over the cell at `i`. */
  function Shifted(s: seq<int>, j: int, i: nat): (t: seq<int>)
    requires -1 <= j < i < |s|
    ensures |t| == |s|
  {
    s[..j + 2] + s[j + 1..i] + s[i + 1..]
  }

  lemma ShiftOn(s: seq<int>, j: nat, i: nat)
    requires j < i < |s|
    ensures Shifted(s, i - 1, i) == s && Shifted(s, j, i)[j] == s[j]
    ensures Shifted(s, j, i)[j + 1 := s[j]] == Shifted(s, j - 1, i)
  {
  }

  lemma ShiftEnd(s: seq<int>, j: int, i: nat)
    requires -1 <= j < i < |s|
    ensures Shifted(s, j, i)[j + 1 := s[i]] == Inserted(s, j + 1, i)
  {
  }

  /** The inner loop: shift the larger cells up and drop the key in. */
  method Insert(a: array<int>, left: nat, i: nat)
    requires left < i < a.Length && SortedRange(a[..], left, i)
    modifies a
    ensures Rearranged(old(a[..]), a[..], left, i + 1) && SortedRange(a[..], left, i + 1)
  {
    hide Rearranged, Shifted, Inserted, SortedRange;
    ghost var s := a[..];
    var key := a[i];
    var j := i - 1;
    ShiftOn(s, j, i);
    while j >= left && a[j] > key
      invariant left - 1 <= j < i
      invariant forall k :: j < k < i ==> s[k] > key
      invariant a[..] == Shifted(s, j, i)
    {
      ShiftOn(s, j, i);
      assert a[j] == a[..][j] == s[j];
      a[j + 1] := a[j];
      j := j - 1;
    }
    if j >= left {
      ShiftOn(s, j, i);
      assert a[j] == a[..][j] == s[j];
    }
    ShiftEnd(s, j, i);
    a[j + 1] := key;
    InsertedRearranges(s, j + 1, i, left);
    InsertedSorts(s, j + 1, i, left);
  }

  method InsertionSort(a: array<int>, left: int, right: int)
    requires 0 <= left <= right + 1 <= a.Length
    modifies a
    ensures Rearranged(old(a[..]), a[..], left, right + 1) && SortedRange(a[..], left, right + 1)
  {
    hide Rearranged;
    ghost var before := a[..];
    RearrangedRefl(before, left, right + 1);
    var i := left + 1;
    while i <= right
      invariant left < i && (i <= right + 1 || i == left + 1)
      invariant Rearranged(before, a[..], left, right + 1)
      invariant SortedRange(a[..], left, if i <= right + 1 then i else left)
    {
      ghost var s := a[..];
      Insert(a, left, i);
      RearrangedWiden(s, a[..], left, i + 1, left, right + 1);
      RearrangedTrans(before, s, a[..], left, right + 1);
      i := i + 1;
    }
  }

  // ----- partition -----

  /** [low, i] holds cells below the pivot, [i + 1, j) the others. */
  ghost predicate Parted(s: seq<int>, low: int, i: int, j: int, pivot: int) {
    && 0 <= low <= i + 1 <= j <= |s|
    && (forall k :: low <= k <= i ==> s[k] < pivot)
    && (forall k :: i < k < j ==> s[k] >= pivot)
  }

  lemma PartedStart(s: seq<int>, low: int, pivot: int)
    requires 0 <= low <= |s|
    ensures Parted(s, low, low - 1, low, pivot)
  {
  }

  lemma PartedGrows(s: seq<int>, low: int, i: int, j: int, pivot: int)
    requires Parted(s, low, i, j, pivot) && j < |s|
    ensures s[j] >= pivot ==> Parted(s, low, i, j + 1, pivot)
    ensures s[j] < pivot ==> Parted(Swapped(s, i + 1, j), low, i + 1, j + 1, pivot)
    ensures forall k :: j < k < |s| ==> Swapped(s, i + 1, j)[k] == s[k]
  {
  }

  lemma PivotPlaced(s: seq<int>, low: int, i: int, high: int)
    requires 0 <= low <= high < |s| && Parted(s, low, i, high, s[high])
    ensures var t := Swapped(s, i + 1, high);
      && t[i + 1] == s[high]
      && AtMost(t, low, i + 1, s[high]) && AtLeast(t, i + 2, high + 1, s[high])
  {
  }

  lemma SwapInRange(before: seq<int>, s: seq<int>, i: int, j: int, lo: int, hi: int)
    requires Rearranged(before, s, lo, hi) && lo <= i < hi && lo <= j < hi
    ensures |s| == |before| && 0 <= lo <= hi <= |s|
    ensures Rearranged(before, Swapped(s, i, j), lo, hi)
  {
    SwappedRearranges(s, i, j, lo, hi);
    RearrangedTrans(before, s, Swapped(s, i, j), lo, hi);
  }

  method Partition(a: array<int>, low: int, high: int) returns (p: int)
    requires 0 <= low <= high < a.Length
    modifies a
    ensures low <= p <= high && Rearranged(old(a[..]), a[..], low, high + 1)
    ensures a[p] == old(a[high])
    ensures AtMost(a[..], low, p, a[p]) && AtLeast(a[..], p + 1, high + 1, a[p])
  {
    hide Rearranged, Parted, Swapped, AtMost, AtLeast;
    ghost var before := a[..];
    RearrangedRefl(before, low, high + 1);
    var pivot := a[high];
    var i, j := low - 1, low;
    PartedStart(before, low, pivot);
    while j < high
      invariant low <= i + 1 <= j <= high && a[..][high] == pivot
      invariant Parted(a[..], low, i, j, pivot)
      invariant Rearranged(before, a[..], low, high + 1)
    {
      PartedGrows(a[..], low, i, j, pivot);
      if a[j] < pivot {
        i := i + 1;
        SwapInRange(before, a[..], i, j, low, high + 1);
        Swap(a, i, j);
      }
      j := j + 1;
    }
    PivotPlaced(a[..], low, i, high);
    SwapInRange(before, a[..], i + 1, high, low, high + 1);
    Swap(a, i + 1, high);
    p := i + 1;
    assert a[p] == a[..][p];
  }

  /** Sorted halves around a pivot that separates them. */
  lemma PivotJoins(s: seq<int>, low: int, p: int, hi: int)
    requires 0 <= low <= p < hi <= |s|
    requires AtMost(s, low, p, s[p]) && AtLeast(s, p + 1, hi, s[p])
    requires SortedRange(s, low, p) && SortedRange(s, p + 1, hi)
    ensures SortedRange(s, low, hi)
  {
    forall i, j | low <= i < j < hi ensures s[i] <= s[j] {
      assert i < p ==> s[i] <= s[p];
      assert j > p ==> s[p] <= s[j];
    }
  }

  // ----- heap sort on the `n` cells from `base` -----

  /** The children of node `i` do not exceed node `q`. */
  ghost predicate Under(s: seq<int>, base: nat, n: nat, i: nat, q: nat)
    requires base + n <= |s| && q < n
  {
    && (2 * i + 1 < n ==> s[base + (2 * i + 1)] <= s[base + q])
    && (2 * i + 2 < n ==> s[base + (2 * i + 2)] <= s[base + q])
  }

  /** The heap property at every node from `k` on, except at node `hole`. */
  ghost predicate HeapBut(s: seq<int>, base: nat, n: nat, k: nat, hole: int)
    requires base + n <= |s|
  {
    forall p: nat {:trigger Under(s, base, n, p, p)} :: k <= p < n && p != hole ==> Under(s, base, n, p, p)
  }

  /** The children of `i` do not exceed the parent of `i`, when that parent counts. */
  ghost predicate Bridged(s: seq<int>, base: nat, n: nat, k: nat, i: nat)
    requires base + n <= |s| && i < n
  {
    i >= 1 && (i - 1) / 2 >= k ==> Under(s, base, n, i, (i - 1) / 2)
  }

  lemma {:induction false} RootIsMax(s: seq<int>, base: nat, n: nat, c: nat)
    requires base + n <= |s| && c < n && HeapBut(s, base, n, 0, -1)
    ensures s[base + c] <= s[base]
  {
    if c >= 1 {
      var p := (c - 1) / 2;
      assert Under(s, base, n, p, p);
      assert c == 2 * p + 1 || c == 2 * p + 2;
      RootIsMax(s, base, n, p);
    }
  }

  /** The larger child moves up: the hole moves down to its place. */
  lemma SiftStep(s: seq<int>, base: nat, n: nat, k: nat, i: nat, child: nat)
    requires base + n <= |s| && k <= i && child < n && (child == 2 * i + 1 || child == 2 * i + 2)
    requires HeapBut(s, base, n, k, i) && Bridged(s, base, n, k, i)
    requires s[base + child] > s[base + i] && Under(s, base, n, i, child)
    ensures HeapBut(Swapped(s, base + i, base + child), base, n, k, child)
    ensures Bridged(Swapped(s, base + i, base + child), base, n, k, child)
  {
    var t := Swapped(s, base + i, base + child);
    forall p: nat | k <= p < n && p != child ensures Under(t, base, n, p, p) {
      if p != i {
        assert Under(s, base, n, p, p);
        SiftElsewhere(s, base, n, k, i, child, p);
      }
    }
    assert Under(s, base, n, child, child);
    assert (child - 1) / 2 == i;
  }

  lemma SiftElsewhere(s: seq<int>, base: nat, n: nat, k: nat, i: nat, child: nat, p: nat)
    requires base + n <= |s| && k <= i && child < n && (child == 2 * i + 1 || child == 2 * i + 2)
    requires k <= p < n && p != i && p != child && Under(s, base, n, p, p) && Bridged(s, base, n, k, i)
    requires s[base + child] > s[base + i]
    ensures Under(Swapped(s, base + i, base + child), base, n, p, p)
  {
    if i == 2 * p + 1 || i == 2 * p + 2 {
      assert (i - 1) / 2 == p;
      assert Under(s, base, n, i, p);
    }
  }

  lemma SiftDown(s: seq<int>, base: nat, n: nat, k: nat, i: nat, child: nat)
    requires base + n <= |s| && k <= i && child < n && (child == 2 * i + 1 || child == 2 * i + 2)
    requires HeapBut(s, base, n, k, i) && Bridged(s, base, n, k, i)
    requires s[base + child] > s[base + i] && Under(s, base, n, i, child)
    ensures var t := Swapped(s, base + i, base + child);
      HeapBut(t, base, n, k, child) && Bridged(t, base, n, k, child) && Rearranged(s, t, base, base + n)
  {
    hide Rearranged, HeapBut, Bridged, Swapped, Under;
    SiftStep(s, base, n, k, i, child);
    SwappedRearranges(s, base + i, base + child, base, base + n);
  }

  method LargestOfThree(a: array<int>, base: nat, n: nat, i: nat) returns (largest: nat)
    requires base + n <= a.Length && i < n
    ensures largest < n && Under(a[..], base, n, i, largest)
    ensures largest == i || (a[..][base + largest] > a[..][base + i] && (largest == 2 * i + 1 || largest == 2 * i + 2))
  {
    largest := i;
    var l, r := 2 * i + 1, 2 * i + 2;
    if l < n && a[base + l] > a[base + largest] { largest := l; }
    if r < n && a[base + r] > a[base + largest] { largest := r; }
  }

  method Heapify(a: array<int>, base: nat, n: nat, i: nat, ghost k: nat)
    requires base + n <= a.Length && k <= i < n
    requires HeapBut(a[..], base, n, k, i) && Bridged(a[..], base, n, k, i)
    modifies a
    ensures Rearranged(old(a[..]), a[..], base, base + n)
    ensures HeapBut(a[..], base, n, k, -1)
    decreases n - i
  {
    hide Rearranged, HeapBut, Bridged, Swapped, Under;
    ghost var s := a[..];
    var largest := LargestOfThree(a, base, n, i);
    if largest != i {
      SiftDown(s, base, n, k, i, largest);
      Swap(a, base + i, base + largest);
      ghost var t := a[..];
      Heapify(a, base, n, largest, k);
      RearrangedTrans(s, t, a[..], base, base + n);
    } else {
      RearrangedRefl(s, base, base + n);
      HoleFilled(s, base, n, k, i);
    }
  }

  lemma HoleFilled(s: seq<int>, base: nat, n: nat, k: nat, i: nat)
    requires base + n <= |s| && i < n && HeapBut(s, base, n, k, i) && Under(s, base, n, i, i)
    ensures HeapBut(s, base, n, k, -1)
  {
  }

  lemma OneNodeMore(s: seq<int>, base: nat, n: nat, i: nat)
    requires base + n <= |s| && i < n && HeapBut(s, base, n, i + 1, -1)
    ensures HeapBut(s, base, n, i, i) && Bridged(s, base, n, i, i)
  {
  }

  method BuildHeap(a: array<int>, base: nat, n: nat)
    requires base + n <= a.Length
    modifies a
    ensures Rearranged(old(a[..]), a[..], base, base + n)
    ensures HeapBut(a[..], base, n, 0, -1)
  {
    hide Rearranged;
    ghost var before := a[..];
    RearrangedRefl(before, base, base + n);
    var i := n / 2 - 1;
    assert HeapBut(a[..], base, n, i + 1, -1);
    hide HeapBut;
    while i >= 0
      invariant -1 <= i < n
      invariant Rearranged(before, a[..], base, base + n)
      invariant HeapBut(a[..], base, n, i + 1, -1)
    {
      ghost var s := a[..];
      OneNodeMore(s, base, n, i);
      Heapify(a, base, n, i, i);
      RearrangedTrans(before, s, a[..], base, base + n);
      i := i - 1;
    }
  }

  /** The cells from `i` on are sorted and no smaller than those before. */
  ghost predicate Extracted(s: seq<int>, base: nat, i: nat, n: nat) {
    && i <= n && base + n <= |s|
    && SortedRange(s, base + i, base + n)
    && (i < n ==> AtMost(s, base, base + i, s[base + i]))
  }

  /** The root swapped with the last node joins the sorted cells. */
  lemma ExtractRoot(s: seq<int>, base: nat, i: nat, n: nat)
    requires 0 < i < n && Extracted(s, base, i + 1, n) && HeapBut(s, base, i + 1, 0, -1)
    ensures Extracted(Swapped(s, base, base + i), base, i, n)
    ensures HeapBut(Swapped(s, base, base + i), base, i, 0, 0)
    ensures Bridged(Swapped(s, base, base + i), base, i, 0, 0)
  {
    var t := Swapped(s, base, base + i);
    forall k | base <= k < base + i + 1 ensures s[k] <= s[base] {
      RootIsMax(s, base, i + 1, k - base);
    }
    assert AtMost(t, base, base + i, t[base + i]);
    forall p: nat | 0 < p < i ensures Under(t, base, i, p, p) {
      assert Under(s, base, i + 1, p, p);
    }
    assert SortedRange(t, base + i, base + n) by {
      assert i + 1 < n ==> s[base] <= s[base + i + 1];
      assert forall k :: base + i < k < base + n ==> t[k] == s[k] && s[k] >= s[base];
    }
  }

  lemma ExtractedKept(s: seq<int>, t: seq<int>, base: nat, i: nat, n: nat)
    requires Extracted(s, base, i, n) && Rearranged(s, t, base, base + i)
    ensures Extracted(t, base, i, n)
  {
    hide Rearranged;
    RearrangedLength(s, t, base, base + i);
    RearrangedCells(s, t, base, base + i);
    if i < n { BoundsKept(s, t, base, base + i, s[base + i]); }
  }

  /** One round of the second loop. */
  method Extract(a: array<int>, base: nat, i: nat, n: nat)
    requires 0 < i < n && base + n <= a.Length
    requires Extracted(a[..], base, i + 1, n) && HeapBut(a[..], base, i + 1, 0, -1)
    modifies a
    ensures Rearranged(old(a[..]), a[..], base, base + n)
    ensures Extracted(a[..], base, i, n) && HeapBut(a[..], base, i, 0, -1)
  {
    hide Rearranged, HeapBut, Bridged, Extracted, Swapped;
    ghost var s := a[..];
    ExtractRoot(s, base, i, n);
    SwappedRearranges(s, base, base + i, base, base + n);
    Swap(a, base, base + i);
    ghost var t := a[..];
    Heapify(a, base, i, 0, 0);
    ExtractedKept(t, a[..], base, i, n);
    RearrangedWiden(t, a[..], base, base + i, base, base + n);
    RearrangedTrans(s, t, a[..], base, base + n);
  }

  method HeapSortIntro(a: array<int>, base: nat, n: nat)
    requires base + n <= a.Length
    modifies a
    ensures Rearranged(old(a[..]), a[..], base, base + n) && SortedRange(a[..], base, base + n)
  {
    hide Rearranged, HeapBut, Bridged, Extracted, SortedRange, AtMost, Swapped, Under;
    ghost var before := a[..];
    BuildHeap(a, base, n);
    NothingExtracted(a[..], base, n);
    var i := n - 1;
    while i > 0
      invariant -1 <= i < n && (i == -1 ==> n == 0)
      invariant Rearranged(before, a[..], base, base + n)
      invariant HeapBut(a[..], base, i + 1, 0, -1)
      invariant Extracted(a[..], base, i + 1, n)
    {
      ghost var s := a[..];
      Extract(a, base, i, n);
      RearrangedTrans(before, s, a[..], base, base + n);
      i := i - 1;
    }
    FirstCell(a[..], base, i + 1, n);
  }

  lemma NothingExtracted(s: seq<int>, base: nat, n: nat)
    requires base + n <= |s|
    ensures Extracted(s, base, n, n)
  {
  }

  lemma FirstCell(s: seq<int>, base: nat, i: nat, n: nat)
    requires i <= 1 && Extracted(s, base, i, n)
    ensures SortedRange(s, base, base + n)
  {
  }

  // ----- introsort -----

  /** Whatever the depth limit and so whatever the mix of methods: sorted and rearranged. */
  method IntroSortRec(a: array<int>, low: int, high: int, depthLimit: int)
    requires 0 <= low <= high + 1 <= a.Length
    modifies a
    ensures Rearranged(old(a[..]), a[..], low, high + 1) && SortedRange(a[..], low, high + 1)
    decreases high - low + 1
  {
    hide Rearranged, SortedRange, AtMost, AtLeast;
    if high - low < 16 {
      InsertionSort(a, low, high);
      return;
    }
    if depthLimit == 0 {
      HeapSortIntro(a, low, high - low + 1);
      return;
    }
    ghost var before := a[..];
    var p := Partition(a, low, high);
    ghost var s := a[..];
    IntroSortRec(a, low, p - 1, depthLimit - 1);
    ghost var t := a[..];
    IntroSortRec(a, p + 1, high, depthLimit - 1);
    HalvesJoin(before, s, t, a[..], low, p, high + 1);
  }

  lemma HalvesJoin(before: seq<int>, s: seq<int>, t: seq<int>, u: seq<int>, low: int, p: int, hi: int)
    requires Rearranged(before, s, low, hi) && low <= p < hi
    requires AtMost(s, low, p, s[p]) && AtLeast(s, p + 1, hi, s[p])
    requires Rearranged(s, t, low, p) && SortedRange(t, low, p)
    requires Rearranged(t, u, p + 1, hi) && SortedRange(u, p + 1, hi)
    ensures Rearranged(before, u, low, hi) && SortedRange(u, low, hi)
  {
    assert |before| == |s| == |t| == |u| && 0 <= low <= hi <= |s|;
    hide Rearranged;
    RearrangedCells(s, t, low, p);
    RearrangedCells(t, u, p + 1, hi);
    BoundsKept(s, t, low, p, s[p]);
    BoundsKept(t, u, p + 1, hi, s[p]);
    PivotJoins(u, low, p, hi);
    RearrangedWiden(s, t, low, p, low, hi);
    RearrangedWiden(t, u, p + 1, hi, low, hi);
    RearrangedTrans(s, t, u, low, hi);
    RearrangedTrans(before, s, u, low, hi);
  }

  /** log2 of the size, truncated to an integer. */
  function FloorLog2(n: nat): (r: nat)
    requires n >= 1
    ensures Pow2(r) <= n < Pow2(r + 1)
  {
    if n == 1 then 0 else FloorLog2(n / 2) + 1
  }

  method IntroSort(a: array<int>)
    modifies a
    ensures Sorted(a[..]) && multiset(a[..]) == multiset(old(a[..]))
  {
    if a.Length <= 1 { return; }
    var depthLimit := 2 * FloorLog2(a.Length);
    IntroSortRec(a, 0, a.Length - 1, depthLimit);
    WholeRange(old(a[..]), a[..]);
  }
}
