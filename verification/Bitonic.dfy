/** The bitonic sorting network, proved one threshold at a time. */
module Bitonic {
  import opened Sorting

  predicate Le(x: int, y: int, up: bool) {
    if up then x <= y else x >= y
  }

  ghost predicate Ordered(s: seq<int>, lo: int, hi: int, up: bool)
    requires 0 <= lo <= hi <= |s|
  {
    forall i, j :: lo <= i < j < hi ==> Le(s[i], s[j], up)
  }

  predicate PowerOfTwo(n: nat) {
    n == 1 || (n > 1 && n % 2 == 0 && PowerOfTwo(n / 2))
  }

  // ----- bitonic sequences -----

  /** The cells that reach the threshold `v` are those of [p, q), or those outside it. */
  ghost predicate Block(w: seq<int>, v: int, p: nat, q: nat, inside: bool) {
    p <= q <= |w| && forall i :: 0 <= i < |w| ==> ((w[i] >= v) == ((p <= i < q) == inside))
  }

  ghost predicate BlockAt(w: seq<int>, v: int) {
    exists p, q, inside :: Block(w, v, p, q, inside)
  }

  /** Bitonic up to rotation: every threshold cuts out one cyclic block. */
  ghost predicate BitonicSeq(w: seq<int>) {
    forall v :: BlockAt(w, v)
  }

  ghost predicate BitonicRange(s: seq<int>, lo: int, hi: int) {
    0 <= lo <= hi <= |s| && BitonicSeq(s[lo..hi])
  }

  function Min(x: int, y: int): int { if x <= y then x else y }
  function Max(x: int, y: int): int { if x <= y then y else x }

  function Mins(w: seq<int>, k: nat): (m: seq<int>)
    requires |w| == 2 * k
    ensures |m| == k
  {
    seq(k, i requires 0 <= i < k => Min(w[i], w[i + k]))
  }

  function Maxs(w: seq<int>, k: nat): (m: seq<int>)
    requires |w| == 2 * k
    ensures |m| == k
  {
    seq(k, i requires 0 <= i < k => Max(w[i], w[i + k]))
  }

  ghost predicate Cut(low: seq<int>, high: seq<int>, v: int) {
    (forall i :: 0 <= i < |low| ==> low[i] < v) || (forall i :: 0 <= i < |high| ==> high[i] >= v)
  }

  predicate In(i: int, p: nat, q: nat) {
    p <= i < q
  }

  /** One pair of cells, at one threshold. */
  lemma CleanPair(w: seq<int>, k: nat, v: int, p: nat, q: nat, inside: bool, i: nat)
    requires |w| == 2 * k && i < k && Block(w, v, p, q, inside)
    ensures (Mins(w, k)[i] >= v) == (In(i, p, q) == inside && In(i + k, p, q) == inside)
    ensures (Maxs(w, k)[i] >= v) == (In(i, p, q) == inside || In(i + k, p, q) == inside)
  {
    assert (w[i] >= v) == (In(i, p, q) == inside);
    assert (w[i + k] >= v) == (In(i + k, p, q) == inside);
  }

  /** The block of one half, or that nothing or everything reaches the threshold. */
  lemma MakeBlock(m: seq<int>, v: int, p: nat, q: nat, inside: bool)
    requires p <= q <= |m| && forall i :: 0 <= i < |m| ==> ((m[i] >= v) == (In(i, p, q) == inside))
    ensures BlockAt(m, v)
  {
    assert Block(m, v, p, q, inside);
  }

  /** A block across the middle that leaves no cell out in one of the halves: p and q - k overlap. */
  lemma CleanWide(w: seq<int>, k: nat, v: int, p: nat, q: nat, inside: bool)
    requires |w| == 2 * k && Block(w, v, p, q, inside) && p < k < q && q - k <= p
    ensures BlockAt(Mins(w, k), v) && BlockAt(Maxs(w, k), v) && Cut(Mins(w, k), Maxs(w, k), v)
  {
    var low, high := Mins(w, k), Maxs(w, k);
    forall i | 0 <= i < k
      ensures (low[i] >= v) == (!inside && In(i, q - k, p)) && (high[i] >= v) == (!inside || !In(i, q - k, p))
    {
      CleanPair(w, k, v, p, q, inside, i);
    }
    hide Mins, Maxs, Block;
    if inside {
      MakeBlock(low, v, 0, 0, true);
      MakeBlock(high, v, q - k, p, false);
    } else {
      MakeBlock(low, v, q - k, p, true);
      MakeBlock(high, v, 0, 0, false);
    }
  }

  /** A block in one half, or one whose two parts do not overlap. */
  lemma CleanNarrow(w: seq<int>, k: nat, v: int, p: nat, q: nat, inside: bool, first: nat, last: nat)
    requires |w| == 2 * k && Block(w, v, p, q, inside) && first <= last <= k
    requires (q <= k && first == p && last == q) || (k <= p && first == p - k && last == q - k)
    ensures BlockAt(Mins(w, k), v) && BlockAt(Maxs(w, k), v) && Cut(Mins(w, k), Maxs(w, k), v)
  {
    var low, high := Mins(w, k), Maxs(w, k);
    forall i | 0 <= i < k
      ensures (low[i] >= v) == (!inside && !In(i, first, last)) && (high[i] >= v) == (!inside || In(i, first, last))
    {
      CleanPair(w, k, v, p, q, inside, i);
    }
    hide Mins, Maxs, Block;
    if inside {
      MakeBlock(low, v, 0, 0, true);
      MakeBlock(high, v, first, last, true);
    } else {
      MakeBlock(low, v, first, last, false);
      MakeBlock(high, v, 0, 0, false);
    }
  }

  lemma CleanApart(w: seq<int>, k: nat, v: int, p: nat, q: nat, inside: bool)
    requires |w| == 2 * k && Block(w, v, p, q, inside) && p < k < q && p < q - k
    ensures BlockAt(Mins(w, k), v) && BlockAt(Maxs(w, k), v) && Cut(Mins(w, k), Maxs(w, k), v)
  {
    var low, high := Mins(w, k), Maxs(w, k);
    forall i | 0 <= i < k
      ensures (low[i] >= v) == (inside && In(i, p, q - k)) && (high[i] >= v) == (inside || !In(i, p, q - k))
    {
      CleanPair(w, k, v, p, q, inside, i);
    }
    hide Mins, Maxs, Block;
    if inside {
      MakeBlock(low, v, p, q - k, true);
      MakeBlock(high, v, 0, 0, false);
    } else {
      MakeBlock(low, v, 0, 0, true);
      MakeBlock(high, v, p, q - k, false);
    }
  }

  /** One threshold through the half-cleaner. */
  lemma CleanBlock(w: seq<int>, k: nat, v: int, p: nat, q: nat, inside: bool)
    requires |w| == 2 * k && Block(w, v, p, q, inside)
    ensures BlockAt(Mins(w, k), v) && BlockAt(Maxs(w, k), v) && Cut(Mins(w, k), Maxs(w, k), v)
  {
    assert p <= q <= 2 * k;
    hide Mins, Maxs, Block, BlockAt, Cut;
    if p < k < q {
      if q - k <= p { CleanWide(w, k, v, p, q, inside); } else { CleanApart(w, k, v, p, q, inside); }
    } else if q <= k {
      CleanNarrow(w, k, v, p, q, inside, p, q);
    } else {
      CleanNarrow(w, k, v, p, q, inside, p - k, q - k);
    }
  }

  /** The half-cleaner splits a bitonic sequence into two bitonic halves, one below the other. */
  lemma HalfCleaner(w: seq<int>, k: nat)
    requires |w| == 2 * k && BitonicSeq(w)
    ensures BitonicSeq(Mins(w, k)) && BitonicSeq(Maxs(w, k))
    ensures forall i, j :: 0 <= i < k && 0 <= j < k ==> Mins(w, k)[i] <= Maxs(w, k)[j]
  {
    var low, high := Mins(w, k), Maxs(w, k);
    forall v ensures BlockAt(low, v) && BlockAt(high, v) && Cut(low, high, v) {
      assert BlockAt(w, v);
      var p, q, inside :| Block(w, v, p, q, inside);
      CleanBlock(w, k, v, p, q, inside);
    }
    forall i, j | 0 <= i < k && 0 <= j < k ensures low[i] <= high[j] {
      assert Cut(low, high, low[i]);
    }
  }

  lemma FirstReaching(s: seq<int>, lo: nat, hi: nat, v: int) returns (p: nat)
    requires lo <= hi <= |s| && Ordered(s, lo, hi, true)
    ensures lo <= p <= hi
    ensures forall i :: lo <= i < hi ==> (s[i] >= v <==> i >= p)
  {
    p := lo;
    while p < hi && s[p] < v
      invariant lo <= p <= hi && forall i :: lo <= i < p ==> s[i] < v
    {
      p := p + 1;
    }
  }

  lemma FirstMissing(s: seq<int>, lo: nat, hi: nat, v: int) returns (p: nat)
    requires lo <= hi <= |s| && Ordered(s, lo, hi, false)
    ensures lo <= p <= hi
    ensures forall i :: lo <= i < hi ==> (s[i] >= v <==> i < p)
  {
    p := lo;
    while p < hi && s[p] >= v
      invariant lo <= p <= hi && forall i :: lo <= i < p ==> s[i] >= v
    {
      p := p + 1;
    }
  }

  /** An ascending run followed by a descending one is bitonic. */
  lemma UpDownIsBitonic(s: seq<int>, lo: nat, mid: nat, hi: nat)
    requires lo <= mid <= hi <= |s| && Ordered(s, lo, mid, true) && Ordered(s, mid, hi, false)
    ensures BitonicRange(s, lo, hi)
  {
    var w := s[lo..hi];
    forall v ensures BlockAt(w, v) {
      var p := FirstReaching(s, lo, mid, v);
      var q := FirstMissing(s, mid, hi, v);
      assert Block(w, v, p - lo, q - lo, true);
    }
  }

  // ----- the network on an array -----

  function Halves(w: seq<int>, k: nat, up: bool): seq<int>
    requires |w| == 2 * k
  {
    if up then Mins(w, k) + Maxs(w, k) else Maxs(w, k) + Mins(w, k)
  }

  /** Cells `j` and `j + k` hold the pair of `s`, in order once the loop has reached `i > j`. */
  ghost predicate Pair(s: seq<int>, t: seq<int>, k: nat, j: nat, i: nat, up: bool)
    requires j + k < |s| == |t|
  {
    if i <= j then t[j] == s[j] && t[j + k] == s[j + k]
    else if up then t[j] == Min(s[j], s[j + k]) && t[j + k] == Max(s[j], s[j + k])
    else t[j] == Max(s[j], s[j + k]) && t[j + k] == Min(s[j], s[j + k])
  }

  /** The pairs before `i` have been put in order, the others are as in `s`. */
  ghost predicate Exchanged(s: seq<int>, t: seq<int>, low: nat, k: nat, i: nat, up: bool) {
    && low + 2 * k <= |s| == |t|
    && forall j :: low <= j < low + k ==> Pair(s, t, k, j, i, up)
  }

  lemma ExchangeStep(s: seq<int>, t: seq<int>, low: nat, k: nat, i: nat, up: bool)
    requires Exchanged(s, t, low, k, i, up) && low <= i < low + k
    ensures var t' := if !Le(t[i], t[i + k], up) then Swapped(t, i, i + k) else t;
            Exchanged(s, t', low, k, i + 1, up)
  {
    var t' := if !Le(t[i], t[i + k], up) then Swapped(t, i, i + k) else t;
    var next := i + 1;
    forall j | low <= j < low + k ensures Pair(s, t', k, j, next, up) {
      assert Pair(s, t, k, j, i, up);
      assert Pair(s, t, k, i, i, up);
    }
  }

  lemma ExchangeRearranges(s: seq<int>, t: seq<int>, low: nat, k: nat, i: nat, up: bool)
    requires Rearranged(s, t, low, low + 2 * k) && low <= i < low + k && low + 2 * k <= |t|
    ensures var t' := if !Le(t[i], t[i + k], up) then Swapped(t, i, i + k) else t;
            Rearranged(s, t', low, low + 2 * k)
  {
    hide Rearranged;
    SwappedRearranges(t, i, i + k, low, low + 2 * k);
    if !Le(t[i], t[i + k], up) {
      RearrangedTrans(s, t, Swapped(t, i, i + k), low, low + 2 * k);
    }
  }

  /** The compare-exchange loop of bitonic_merge. */
  method CompareExchange(a: array<int>, low: nat, k: nat, up: bool)
    requires low + 2 * k <= a.Length
    modifies a
    ensures Rearranged(old(a[..]), a[..], low, low + 2 * k)
    ensures Exchanged(old(a[..]), a[..], low, k, low + k, up)
  {
    hide Rearranged;
    ghost var s := a[..];
    RearrangedRefl(s, low, low + 2 * k);
    var i := low;
    while i < low + k
      invariant low <= i <= low + k
      invariant Rearranged(s, a[..], low, low + 2 * k)
      invariant Exchanged(s, a[..], low, k, i, up)
    {
      hide Exchanged;
      ExchangeStep(s, a[..], low, k, i, up);
      ExchangeRearranges(s, a[..], low, k, i, up);
      if (up && a[i] > a[i + k]) || (!up && a[i] < a[i + k]) {
        Swap(a, i, i + k);
      }
      i := i + 1;
    }
  }

  /** What the loop leaves, as two halves. */
  lemma ExchangedHalves(s: seq<int>, t: seq<int>, low: nat, k: nat, up: bool)
    requires Exchanged(s, t, low, k, low + k, up)
    ensures t[low..low + 2 * k] == Halves(s[low..low + 2 * k], k, up)
  {
    var w, h := s[low..low + 2 * k], t[low..low + 2 * k];
    forall j | 0 <= j < k ensures h[j] == Halves(w, k, up)[j] {
      assert Pair(s, t, k, low + j, low + k, up);
      assert w[j] == s[low + j] && w[j + k] == s[low + j + k];
    }
    forall j | k <= j < 2 * k ensures h[j] == Halves(w, k, up)[j] {
      assert Pair(s, t, k, low + j - k, low + k, up);
      assert w[j - k] == s[low + j - k] && w[j] == s[low + j];
    }
  }

  /** No cell before `mid` belongs after one from `mid` on. */
  ghost predicate Apart(s: seq<int>, lo: int, mid: int, hi: int, up: bool) {
    && 0 <= lo <= mid <= hi <= |s|
    && forall i, j :: lo <= i < mid <= j < hi ==> Le(s[i], s[j], up)
  }

  /** After the half-cleaner: both halves bitonic, and the halves in order. */
  lemma CleanedHalves(s: seq<int>, t: seq<int>, low: nat, k: nat, up: bool)
    requires Exchanged(s, t, low, k, low + k, up) && BitonicRange(s, low, low + 2 * k)
    ensures BitonicRange(t, low, low + k) && BitonicRange(t, low + k, low + 2 * k)
    ensures Apart(t, low, low + k, low + 2 * k, up)
  {
    assert low + 2 * k <= |s| == |t|;
    ExchangedHalves(s, t, low, k, up);
    hide BitonicSeq, Exchanged;
    var w := s[low..low + 2 * k];
    HalfCleaner(w, k);
    var first, second := if up then Mins(w, k) else Maxs(w, k), if up then Maxs(w, k) else Mins(w, k);
    var h := t[low..low + 2 * k];
    assert h == first + second;
    hide Mins, Maxs, Halves;
    assert t[low..low + k] == h[..k] == first;
    assert t[low + k..low + 2 * k] == h[k..] == second;
    forall i, j | low <= i < low + k <= j < low + 2 * k ensures Le(t[i], t[j], up) {
      assert t[i] == first[i - low] && t[j] == second[j - low - k];
    }
  }

  /** Ordering each half finishes, as the halves are already in order. */
  lemma MergedHalves(t: seq<int>, u: seq<int>, v: seq<int>, lo: nat, mid: nat, hi: nat, up: bool)
    requires Apart(t, lo, mid, hi, up) && |t| == |u| == |v|
    requires Rearranged(t, u, lo, mid) && Ordered(u, lo, mid, up)
    requires Rearranged(u, v, mid, hi) && Ordered(v, mid, hi, up)
    ensures Rearranged(t, v, lo, hi) && Ordered(v, lo, hi, up)
  {
    RearrangedCells(t, u, lo, mid);
    RearrangedCells(u, v, mid, hi);
    RearrangedWiden(t, u, lo, mid, lo, hi);
    RearrangedWiden(u, v, mid, hi, lo, hi);
    RearrangedTrans(t, u, v, lo, hi);
    hide Rearranged;
    forall i, j | lo <= i < j < hi ensures Le(v[i], v[j], up) {
      if i < mid <= j {
        assert v[i] == u[i];
        var x :| lo <= x < mid && t[x] == u[i];
        var y :| mid <= y < hi && u[y] == v[j];
        assert u[y] == t[y];
      } else if j < mid {
        assert v[i] == u[i] && v[j] == u[j];
      }
    }
  }

  lemma SecondUntouched(t: seq<int>, u: seq<int>, lo: nat, mid: nat, hi: nat)
    requires Rearranged(t, u, lo, mid) && BitonicRange(t, mid, hi)
    ensures BitonicRange(u, mid, hi)
  {
    assert u[mid..hi] == u[mid..][..hi - mid] && t[mid..hi] == t[mid..][..hi - mid];
  }

  lemma Halve(n: nat)
    requires PowerOfTwo(n) && n > 1
    ensures n == 2 * (n / 2) && PowerOfTwo(n / 2)
  {
  }

  method BitonicMerge(a: array<int>, low: nat, cnt: nat, up: bool)
    requires low + cnt <= a.Length && PowerOfTwo(cnt)
    requires BitonicRange(a[..], low, low + cnt)
    modifies a
    ensures Rearranged(old(a[..]), a[..], low, low + cnt)
    ensures Ordered(a[..], low, low + cnt, up)
    decreases cnt
  {
    hide Rearranged, Ordered, BitonicRange, Exchanged, Apart, PowerOfTwo;
    if cnt > 1 {
      Halve(cnt);
      ghost var s := a[..];
      var k := cnt / 2;
      CompareExchange(a, low, k, up);
      ghost var t := a[..];
      CleanedHalves(s, t, low, k, up);
      BitonicMerge(a, low, k, up);
      ghost var u := a[..];
      SecondUntouched(t, u, low, low + k, low + cnt);
      BitonicMerge(a, low + k, k, up);
      MergedHalves(t, u, a[..], low, low + k, low + cnt, up);
      RearrangedTrans(s, t, a[..], low, low + cnt);
    } else {
      OneCell(a[..], low, low + cnt, up);
    }
  }

  lemma OneCell(s: seq<int>, lo: nat, hi: nat, up: bool)
    requires lo <= hi <= lo + 1 && hi <= |s|
    ensures Rearranged(s, s, lo, hi) && Ordered(s, lo, hi, up)
  {
  }

  method BitonicSortRec(a: array<int>, low: nat, cnt: nat, up: bool)
    requires low + cnt <= a.Length && PowerOfTwo(cnt)
    modifies a
    ensures Rearranged(old(a[..]), a[..], low, low + cnt)
    ensures Ordered(a[..], low, low + cnt, up)
    decreases cnt
  {
    hide Rearranged, Ordered, BitonicRange, PowerOfTwo;
    if cnt > 1 {
      Halve(cnt);
      ghost var s := a[..];
      var k := cnt / 2;
      BitonicSortRec(a, low, k, true);
      ghost var t := a[..];
      BitonicSortRec(a, low + k, k, false);
      ghost var u := a[..];
      UpThenDown(s, t, u, low, low + k, low + cnt);
      BitonicMerge(a, low, cnt, up);
      RearrangedTrans(s, u, a[..], low, low + cnt);
    } else {
      OneCell(a[..], low, low + cnt, up);
    }
  }

  lemma UpThenDown(s: seq<int>, t: seq<int>, u: seq<int>, lo: nat, mid: nat, hi: nat)
    requires lo <= mid <= hi <= |s| == |t| == |u|
    requires Rearranged(s, t, lo, mid) && Ordered(t, lo, mid, true)
    requires Rearranged(t, u, mid, hi) && Ordered(u, mid, hi, false)
    ensures Rearranged(s, u, lo, hi) && BitonicRange(u, lo, hi)
  {
    hide BitonicRange;
    RearrangedCells(t, u, mid, hi);
    assert Ordered(u, lo, mid, true);
    UpDownIsBitonic(u, lo, mid, hi);
    RearrangedWiden(s, t, lo, mid, lo, hi);
    RearrangedWiden(t, u, mid, hi, lo, hi);
    RearrangedTrans(s, t, u, lo, hi);
  }

  const INT_MAX: int := 2147483647

  /** copy_and_pad_array: the second loop starts over at cell 0 and overwrites the copy. */
  method CopyAndPad(a: array<int>, padded: array<int>)
    requires a.Length <= padded.Length && a != padded
    modifies padded
    ensures forall k :: 0 <= k < padded.Length ==> padded[k] == INT_MAX
  {
    var i := 0;
    while i < a.Length
      invariant i <= a.Length
    {
      padded[i] := a[i];
      i := i + 1;
    }
    i := 0;
    while i < padded.Length
      invariant i <= padded.Length && forall k :: 0 <= k < i ==> padded[k] == INT_MAX
    {
      padded[i] := INT_MAX;
      i := i + 1;
    }
  }

  /** The smallest power of two that is at least `size`. */
  method PaddedSize(size: nat) returns (p: nat)
    requires size > 1
    ensures PowerOfTwo(p) && p >= size
    ensures PowerOfTwo(size) ==> p == size
  {
    p := 1;
    while p < size
      invariant PowerOfTwo(p) && (p > 1 ==> p / 2 < size)
      decreases size - p
    {
      p := p * 2;
    }
    if PowerOfTwo(size) { NextPower(p, size); }
  }

  lemma {:induction false} NextPower(p: nat, n: nat)
    requires PowerOfTwo(p) && PowerOfTwo(n) && p >= n > 1 && p / 2 < n
    ensures p == n
  {
    if p > 2 && n > 2 { NextPower(p / 2, n / 2); }
  }

  /** bitonic_sort: sorts when the size is a power of two; otherwise every cell ends as INT_MAX. */
  method BitonicSort(a: array<int>)
    modifies a
    ensures Outcome(old(a[..]), a[..])
  {
    hide Rearranged, Ordered, PowerOfTwo;
    if a.Length <= 1 {
      return;
    }
    var p := PaddedSize(a.Length);
    if p == a.Length {
      BitonicSortRec(a, 0, a.Length, true);
      OrderedIsSorted(a[..]);
      WholeRange(old(a[..]), a[..]);
      return;
    }
    var padded := new int[p];
    CopyAndPad(a, padded);
    ghost var before := padded[..];
    BitonicSortRec(padded, 0, p, true);
    RearrangedCells(before, padded[..], 0, p);
    assert forall k :: 0 <= k < p ==> padded[..][k] == INT_MAX;
    CopyBack(a, padded);
  }

  lemma OrderedIsSorted(s: seq<int>)
    requires Ordered(s, 0, |s|, true)
    ensures SortedRange(s, 0, |s|)
  {
    forall i, j | 0 <= i < j < |s| ensures s[i] <= s[j] { assert Le(s[i], s[j], true); }
  }

  method CopyBack(a: array<int>, padded: array<int>)
    requires a.Length <= padded.Length && a != padded
    modifies a
    ensures a[..] == padded[..a.Length]
  {
    var i := 0;
    while i < a.Length
      invariant i <= a.Length && a[..i] == padded[..i]
    {
      a[i] := padded[i];
      i := i + 1;
    }
  }

  /** What bitonic_sort leaves in an array. */
  ghost predicate Outcome(s: seq<int>, t: seq<int>) {
    && |t| == |s|
    && (|s| <= 1 || PowerOfTwo(|s|) ==> Sorted(t) && multiset(t) == multiset(s))
    && (|s| > 1 && !PowerOfTwo(|s|) ==> forall k :: 0 <= k < |t| ==> t[k] == INT_MAX)
  }

  /** The sort keeps its promise exactly when the size is at most 1 or a power of two, or there is
      nothing but INT_MAX to lose. */
  lemma SortsIffPowerOfTwo(s: seq<int>, t: seq<int>)
    requires Outcome(s, t)
    ensures Sorted(t) && multiset(t) == multiset(s) <==>
              |s| <= 1 || PowerOfTwo(|s|) || forall k :: 0 <= k < |s| ==> s[k] == INT_MAX
  {
    if |s| > 1 && !PowerOfTwo(|s|) {
      if forall k :: 0 <= k < |s| ==> s[k] == INT_MAX {
        assert s == t;
      }
      if multiset(t) == multiset(s) {
        forall k | 0 <= k < |s| ensures s[k] == INT_MAX {
          assert s[k] in multiset(t);
        }
      }
    }
  }
}
