/** Least-significant-digit radix sort, one stable zero/one split per bit. */
module Radix {
  import opened Arithmetic
  import opened Bits
  import opened Sorting

  /** `(x >> bit) & 1`; the shift of a negative number rounds down. */
  function Digit(x: int, bit: nat): (d: int)
    ensures d == 0 || d == 1
  {
    (x / Pow2(bit)) % 2
  }

  /** The value of the lowest `bits` bits. */
  function Low(x: int, bits: nat): int {
    x % Pow2(bits)
  }

  /** The elements whose digit is `d`, in their order. */
  function Keep(s: seq<int>, bit: nat, d: int): (t: seq<int>)
    ensures |t| <= |s|
  {
    if s == [] then []
    else Keep(s[..|s| - 1], bit, d) + (if Digit(s[|s| - 1], bit) == d then [s[|s| - 1]] else [])
  }

  function Pass(s: seq<int>, bit: nat): seq<int> {
    Keep(s, bit, 0) + Keep(s, bit, 1)
  }

  /** The passes over bits 0 to bits - 1. */
  function Passes(s: seq<int>, bits: int): seq<int>
    decreases bits
  {
    if bits <= 0 then s else Pass(Passes(s, bits - 1), bits - 1)
  }

  ghost predicate SortedLow(s: seq<int>, bits: nat) {
    forall i, j :: 0 <= i < j < |s| ==> Low(s[i], bits) <= Low(s[j], bits)
  }

  // ----- one pass -----

  lemma LowSplit(x: int, bit: nat)
    ensures Low(x, bit + 1) == Low(x, bit) + Digit(x, bit) * Pow2(bit)
    ensures 0 <= Low(x, bit) < Pow2(bit)
  {
    DivMod(x, Pow2(bit));
  }

  lemma {:induction false} KeepMember(s: seq<int>, bit: nat, d: int)
    ensures forall k :: 0 <= k < |Keep(s, bit, d)| ==> Keep(s, bit, d)[k] in s && Digit(Keep(s, bit, d)[k], bit) == d
  {
    hide Digit;
    if s != [] { KeepMember(s[..|s| - 1], bit, d); }
  }

  lemma {:induction false} KeepSorted(s: seq<int>, bit: nat, d: int)
    requires SortedLow(s, bit)
    ensures SortedLow(Keep(s, bit, d), bit)
  {
    hide Digit, Low;
    if s != [] {
      KeepSorted(s[..|s| - 1], bit, d);
      KeepMember(s[..|s| - 1], bit, d);
    }
  }

  lemma {:induction false} SplitMultiset(s: seq<int>, bit: nat)
    ensures multiset(Keep(s, bit, 0)) + multiset(Keep(s, bit, 1)) == multiset(s)
  {
    hide Digit;
    if s != [] {
      assert s == s[..|s| - 1] + [s[|s| - 1]];
      SplitMultiset(s[..|s| - 1], bit);
    }
  }

  /** A pass is a permutation that extends the order by one bit. */
  lemma PassExtends(s: seq<int>, bit: nat)
    requires SortedLow(s, bit)
    ensures SortedLow(Pass(s, bit), bit + 1)
    ensures multiset(Pass(s, bit)) == multiset(s) && |Pass(s, bit)| == |s|
  {
    hide Digit, Low, Keep;
    var zeros, ones := Keep(s, bit, 0), Keep(s, bit, 1);
    SplitMultiset(s, bit);
    assert |multiset(s)| == |multiset(zeros)| + |multiset(ones)|;
    KeepMember(s, bit, 0);
    KeepMember(s, bit, 1);
    KeepSorted(s, bit, 0);
    KeepSorted(s, bit, 1);
    var t := zeros + ones;
    forall i, j | 0 <= i < j < |t| ensures Low(t[i], bit + 1) <= Low(t[j], bit + 1) {
      LowSplit(t[i], bit);
      LowSplit(t[j], bit);
    }
  }

  /** After the passes over the lowest `bits` bits: a permutation, in order of those bits. */
  lemma {:induction false} PassesSort(s: seq<int>, bits: nat)
    ensures SortedLow(Passes(s, bits), bits) && multiset(Passes(s, bits)) == multiset(s)
  {
    hide Pass;
    if bits == 0 {
      assert forall x :: Low(x, 0) == 0;
    } else {
      PassesSort(s, bits - 1);
      PassExtends(Passes(s, bits - 1), bits - 1);
    }
  }

  /** Non-negative numbers that fit in `bits` bits end up sorted. */
  lemma EnoughBitsSort(s: seq<int>, bits: nat)
    requires forall x :: x in s ==> 0 <= x < Pow2(bits)
    ensures Sorted(Passes(s, bits))
  {
    hide Passes, Pow2;
    var t := Passes(s, bits);
    PassesSort(s, bits);
    forall i, j | 0 <= i < j < |t| ensures t[i] <= t[j] {
      assert t[i] in multiset(t) && t[j] in multiset(t);
      assert t[i] in s && t[j] in s;
      Fits(t[i], bits);
      Fits(t[j], bits);
    }
  }

  lemma Fits(x: int, bits: nat)
    requires 0 <= x < Pow2(bits)
    ensures Low(x, bits) == x
  {
    hide Pow2;
    Remainder(x, Pow2(bits), 0, x);
  }

  // ----- stability -----

  /** The elements whose lowest bits make `v`, in their order. */
  function WithLow(s: seq<int>, bits: nat, v: int): seq<int> {
    if s == [] then []
    else WithLow(s[..|s| - 1], bits, v) + (if Low(s[|s| - 1], bits) == v then [s[|s| - 1]] else [])
  }

  lemma {:induction false} WithLowConcat(s: seq<int>, t: seq<int>, bits: nat, v: int)
    ensures WithLow(s + t, bits, v) == WithLow(s, bits, v) + WithLow(t, bits, v)
  {
    if t == [] {
      assert s + t == s;
    } else {
      assert (s + t)[..|s + t| - 1] == s + t[..|t| - 1];
      WithLowConcat(s, t[..|t| - 1], bits, v);
    }
  }

  /** One more bit of the value tells its digit and its lower bits. */
  lemma LowTells(x: int, y: int, bit: nat)
    requires Low(x, bit + 1) == Low(y, bit + 1)
    ensures Low(x, bit) == Low(y, bit) && Digit(x, bit) == Digit(y, bit)
  {
    hide Low, Digit, Pow2;
    LowSplit(x, bit);
    LowSplit(y, bit);
  }

  /** Elements alike in one more bit are all kept by the split, or all left out. */
  lemma {:induction false} SplitIsStable(s: seq<int>, bit: nat, d: int, x: int)
    ensures WithLow(Keep(s, bit, d), bit + 1, Low(x, bit + 1))
         == if d == Digit(x, bit) then WithLow(s, bit + 1, Low(x, bit + 1)) else []
  {
    hide Low, Digit;
    if s != [] {
      var front, y := s[..|s| - 1], s[|s| - 1];
      SplitIsStable(front, bit, d, x);
      WithLowConcat(Keep(front, bit, d), [y], bit + 1, Low(x, bit + 1));
      if Low(y, bit + 1) == Low(x, bit + 1) { LowTells(y, x, bit); }
      assert Keep(front, bit, d) + [] == Keep(front, bit, d) && [y][..0] == [];
    }
  }

  lemma {:induction false} WithLowTwice(s: seq<int>, bit: nat, x: int)
    ensures WithLow(WithLow(s, bit, Low(x, bit)), bit + 1, Low(x, bit + 1)) == WithLow(s, bit + 1, Low(x, bit + 1))
  {
    hide Low;
    if s != [] {
      var front, y := s[..|s| - 1], s[|s| - 1];
      WithLowTwice(front, bit, x);
      WithLowConcat(WithLow(front, bit, Low(x, bit)), [y], bit + 1, Low(x, bit + 1));
      if Low(y, bit + 1) == Low(x, bit + 1) { LowTells(y, x, bit); }
      var kept := WithLow(front, bit, Low(x, bit));
      assert kept + [] == kept && [y][..0] == [];
    }
  }

  /** The passes are stable: elements with the same lowest bits keep their order. */
  lemma {:induction false} PassesStable(s: seq<int>, bits: nat, x: int)
    ensures WithLow(Passes(s, bits), bits, Low(x, bits)) == WithLow(s, bits, Low(x, bits))
  {
    hide Low, Digit, WithLow, Keep;
    if bits > 0 {
      var bit := bits - 1;
      var t := Passes(s, bit);
      PassesStable(s, bit, x);
      WithLowConcat(Keep(t, bit, 0), Keep(t, bit, 1), bits, Low(x, bits));
      SplitIsStable(t, bit, 0, x);
      SplitIsStable(t, bit, 1, x);
      WithLowTwice(t, bit, x);
      WithLowTwice(s, bit, x);
    }
  }

  // ----- the loops -----

  lemma KeepSnoc(s: seq<int>, i: nat, bit: nat, d: int)
    requires i < |s|
    ensures Keep(s[..i + 1], bit, d) == Keep(s[..i], bit, d) + (if Digit(s[i], bit) == d then [s[i]] else [])
  {
    assert s[..i + 1][..i] == s[..i];
  }

  /** A split never runs past its part of the output. */
  lemma SplitFits(s: seq<int>, i: nat, bit: nat)
    requires i <= |s|
    ensures |Keep(s[..i], bit, 0)| + |Keep(s[..i], bit, 1)| == i
    ensures |Keep(s[..i], bit, 0)| <= |Keep(s, bit, 0)| && |Keep(s[..i], bit, 1)| <= |Keep(s, bit, 1)|
    ensures |Keep(s, bit, 0)| + |Keep(s, bit, 1)| == |s|
    decreases |s| - i
  {
    hide Digit, Keep;
    Counts(s[..i], bit);
    Counts(s, bit);
    if i < |s| {
      SplitFits(s, i + 1, bit);
      KeepSnoc(s, i, bit, 0);
      KeepSnoc(s, i, bit, 1);
    } else {
      assert s[..i] == s;
    }
  }

  lemma Counts(s: seq<int>, bit: nat)
    ensures |Keep(s, bit, 0)| + |Keep(s, bit, 1)| == |s|
  {
    SplitMultiset(s, bit);
    assert |multiset(s)| == |multiset(Keep(s, bit, 0))| + |multiset(Keep(s, bit, 1))|;
  }

  method GetMaxBits(maxNum: int) returns (bits: nat)
    ensures maxNum <= 0 ==> bits == 0
    ensures maxNum > 0 ==> bits > 0 && Pow2(bits - 1) <= maxNum < Pow2(bits)
  {
    bits := 0;
    var left := maxNum;
    while left > 0
      invariant maxNum > 0 ==> left >= 0 && left * Pow2(bits) <= maxNum < (left + 1) * Pow2(bits)
      invariant maxNum > 0 && left == 0 ==> bits > 0 && Pow2(bits - 1) <= maxNum
      invariant maxNum <= 0 ==> left == maxNum && bits == 0
      decreases left
    {
      Halve(left, Pow2(bits), maxNum);
      bits := bits + 1;
      left := left / 2;
    }
  }

  lemma Halve(left: nat, p: nat, x: int)
    requires left > 0 && p >= 1 && left * p <= x < (left + 1) * p
    ensures left / 2 * (2 * p) <= x < (left / 2 + 1) * (2 * p)
    ensures left / 2 == 0 ==> p <= x
  {
    var h := left / 2;
    if left % 2 == 0 {
      assert left == 2 * h;
      assert h * (2 * p) == left * p && (h + 1) * (2 * p) == (left + 1) * p + p;
    } else {
      assert left == 2 * h + 1;
      assert h * (2 * p) == left * p - p && (h + 1) * (2 * p) == (left + 1) * p;
    }
  }

  method CollectZeros(a: array<int>, output: array<int>, bit: nat)
    requires a != output && output.Length == a.Length
    modifies output
    ensures var zeros := |Keep(a[..], bit, 0)|;
      output[..zeros] == Keep(a[..], bit, 0) && output[zeros..] == old(output[..])[zeros..]
  {
    hide Keep, Digit;
    SplitFits(a[..], 0, bit);
    var i, idx := 0, 0;
    assert Keep([], bit, 0) == [] by { Counts([], bit); }
    assert a[..0] == [];
    while i < a.Length
      invariant 0 <= i <= a.Length && idx == |Keep(a[..][..i], bit, 0)|
      invariant idx <= |Keep(a[..], bit, 0)| <= a.Length
      invariant output[..idx] == Keep(a[..][..i], bit, 0)
      invariant output[idx..] == old(output[..])[idx..]
    {
      SplitFits(a[..], i + 1, bit);
      KeepSnoc(a[..], i, bit, 0);
      if Digit(a[i], bit) == 0 {
        output[idx] := a[i];
        idx := idx + 1;
      }
      i := i + 1;
    }
    assert a[..][..i] == a[..];
  }

  method CollectOnes(a: array<int>, output: array<int>, bit: nat)
    requires a != output && output.Length == a.Length
    modifies output
    ensures var zeros := |Keep(a[..], bit, 0)|;
      output[..zeros] == old(output[..])[..zeros] && output[zeros..] == Keep(a[..], bit, 1)
  {
    hide Keep, Digit;
    assert Keep([], bit, 0) == [] && Keep([], bit, 1) == [] by { Counts([], bit); }
    assert a[..0] == [];
    var i, idx := 0, 0;
    while i < a.Length
      invariant 0 <= i <= a.Length && idx == |Keep(a[..][..i], bit, 0)|
      invariant output[..] == old(output[..])
    {
      KeepSnoc(a[..], i, bit, 0);
      if Digit(a[i], bit) == 0 {
        idx := idx + 1;
      }
      i := i + 1;
    }
    assert a[..][..i] == a[..];
    ghost var zeros := idx;
    SplitFits(a[..], 0, bit);
    i := 0;
    while i < a.Length
      invariant 0 <= i <= a.Length && idx == zeros + |Keep(a[..][..i], bit, 1)|
      invariant idx <= a.Length
      invariant output[..zeros] == old(output[..])[..zeros]
      invariant output[zeros..idx] == Keep(a[..][..i], bit, 1)
    {
      SplitFits(a[..], i + 1, bit);
      KeepSnoc(a[..], i, bit, 1);
      if Digit(a[i], bit) == 1 {
        output[idx] := a[i];
        idx := idx + 1;
      }
      i := i + 1;
    }
    assert a[..][..i] == a[..];
    assert output[zeros..] == output[zeros..idx];
  }

  method CopyBack(a: array<int>, output: array<int>)
    requires a != output && output.Length == a.Length
    modifies a
    ensures a[..] == output[..]
  {
    var i := 0;
    while i < a.Length
      invariant 0 <= i <= a.Length && a[..i] == output[..i]
    {
      a[i] := output[i];
      i := i + 1;
    }
  }

  /** The passes, in place. */
  method RadixSort(a: array<int>, maxBits: int)
    modifies a
    ensures a[..] == Passes(old(a[..]), maxBits)
  {
    var output := new int[a.Length];
    RunPasses(a, output, maxBits);
  }

  method RunPasses(a: array<int>, output: array<int>, maxBits: int)
    requires a != output && output.Length == a.Length
    modifies a, output
    ensures a[..] == Passes(old(a[..]), maxBits)
  {
    hide Keep;
    var bit := 0;
    while bit < maxBits
      invariant 0 <= bit && (bit <= maxBits || bit == 0)
      invariant a[..] == Passes(old(a[..]), bit)
    {
      ghost var s := a[..];
      SplitFits(s, 0, bit);
      CollectZeros(a, output, bit);
      CollectOnes(a, output, bit);
      ghost var zeros := |Keep(s, bit, 0)|;
      assert output[..] == output[..zeros] + output[zeros..];
      CopyBack(a, output);
      bit := bit + 1;
    }
  }

  /** The passes for the bits of the maximum. */
  method SortNonNegative(a: array<int>, max: int)
    requires forall k :: 0 <= k < a.Length ==> 0 <= a[k] <= max
    modifies a
    ensures Sorted(a[..]) && multiset(a[..]) == multiset(old(a[..]))
  {
    hide Passes, SortedLow;
    var bits := GetMaxBits(max);
    EnoughBitsSort(a[..], bits);
    PassesSort(a[..], bits);
    RadixSort(a, bits);
  }
}
