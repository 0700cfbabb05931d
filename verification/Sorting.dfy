/** What the sorts have in common: order, rearrangement of a range, counting, swapping. */
module Sorting {

  ghost predicate Sorted(s: seq<int>) {
    forall i, j :: 0 <= i < j < |s| ==> s[i] <= s[j]
  }

  ghost predicate SortedRange(s: seq<int>, lo: int, hi: int)
    requires 0 <= lo <= hi <= |s|
  {
    forall i, j :: lo <= i < j < hi ==> s[i] <= s[j]
  }

  /** `t` is `s` with the cells of [lo, hi) rearranged. */
  ghost predicate Rearranged(s: seq<int>, t: seq<int>, lo: int, hi: int) {
    && 0 <= lo <= hi <= |s| == |t|
    && s[..lo] == t[..lo] && s[hi..] == t[hi..]
    && multiset(s[lo..hi]) == multiset(t[lo..hi])
  }

  lemma RearrangedRefl(s: seq<int>, lo: int, hi: int)
    requires 0 <= lo <= hi <= |s|
    ensures Rearranged(s, s, lo, hi)
  {
  }

  lemma RearrangedTrans(s: seq<int>, t: seq<int>, u: seq<int>, lo: int, hi: int)
    requires Rearranged(s, t, lo, hi) && Rearranged(t, u, lo, hi)
    ensures Rearranged(s, u, lo, hi)
  {
  }

  lemma RearrangedLength(s: seq<int>, t: seq<int>, lo: int, hi: int)
    requires Rearranged(s, t, lo, hi)
    ensures |t| == |s| && 0 <= lo <= hi <= |s|
  {
  }

  /** A rearrangement of a part is one of the whole. */
  lemma RearrangedWiden(s: seq<int>, t: seq<int>, lo: int, hi: int, lo': int, hi': int)
    requires Rearranged(s, t, lo, hi) && 0 <= lo' <= lo && hi <= hi' <= |s|
    ensures Rearranged(s, t, lo', hi')
  {
    assert s[..lo'] == s[..lo][..lo'] && t[..lo'] == t[..lo][..lo'];
    assert s[hi'..] == s[hi..][hi' - hi..] && t[hi'..] == t[hi..][hi' - hi..];
    Pieces(s, lo, hi, lo', hi');
    Pieces(t, lo, hi, lo', hi');
    assert s[lo'..lo] == s[..lo][lo'..] && t[lo'..lo] == t[..lo][lo'..];
    assert s[hi..hi'] == s[hi..][..hi' - hi] && t[hi..hi'] == t[hi..][..hi' - hi];
  }

  lemma Pieces(s: seq<int>, lo: int, hi: int, lo': int, hi': int)
    requires 0 <= lo' <= lo <= hi <= hi' <= |s|
    ensures multiset(s[lo'..hi']) == multiset(s[lo'..lo]) + multiset(s[lo..hi]) + multiset(s[hi..hi'])
  {
    assert s[lo'..hi'] == s[lo'..lo] + s[lo..hi] + s[hi..hi'];
  }

  /** Cells outside the range keep their value; cells inside come from inside. */
  lemma RearrangedCells(s: seq<int>, t: seq<int>, lo: int, hi: int)
    requires Rearranged(s, t, lo, hi)
    ensures forall k :: 0 <= k < lo || hi <= k < |s| ==> t[k] == s[k]
    ensures forall k :: lo <= k < hi ==> exists j :: lo <= j < hi && s[j] == t[k]
  {
    forall k | 0 <= k < lo ensures t[k] == s[k] {
      assert t[k] == t[..lo][k] && s[k] == s[..lo][k];
    }
    forall k | hi <= k < |s| ensures t[k] == s[k] {
      assert t[k] == t[hi..][k - hi] && s[k] == s[hi..][k - hi];
    }
    forall k | lo <= k < hi ensures exists j :: lo <= j < hi && s[j] == t[k] {
      assert t[k] == t[lo..hi][k - lo];
      assert t[k] in multiset(t[lo..hi]);
      assert t[k] in s[lo..hi];
      var i :| 0 <= i < hi - lo && s[lo..hi][i] == t[k];
      assert s[lo + i] == t[k];
    }
  }

  ghost predicate AtMost(s: seq<int>, lo: int, hi: int, v: int)
    requires 0 <= lo <= hi <= |s|
  {
    forall k :: lo <= k < hi ==> s[k] <= v
  }

  ghost predicate AtLeast(s: seq<int>, lo: int, hi: int, v: int)
    requires 0 <= lo <= hi <= |s|
  {
    forall k :: lo <= k < hi ==> s[k] >= v
  }

  /** A bound on every cell of the range survives rearranging it. */
  lemma BoundsKept(s: seq<int>, t: seq<int>, lo: int, hi: int, v: int)
    requires Rearranged(s, t, lo, hi)
    ensures AtMost(s, lo, hi, v) ==> AtMost(t, lo, hi, v)
    ensures AtLeast(s, lo, hi, v) ==> AtLeast(t, lo, hi, v)
  {
    hide Rearranged;
    RearrangedCells(s, t, lo, hi);
  }

  /** A range that is the whole sequence. */
  lemma WholeRange(s: seq<int>, t: seq<int>)
    requires Rearranged(s, t, 0, |s|) && SortedRange(t, 0, |s|)
    ensures Sorted(t) && multiset(s) == multiset(t)
  {
    assert s[0..|s|] == s && t[0..|s|] == t;
  }

  function Swapped(s: seq<int>, i: int, j: int): (t: seq<int>)
    requires 0 <= i < |s| && 0 <= j < |s|
    ensures |t| == |s|
  {
    s[i := s[j]][j := s[i]]
  }

  lemma SwappedRearranges(s: seq<int>, i: int, j: int, lo: int, hi: int)
    requires 0 <= lo <= i < hi <= |s| && lo <= j < hi
    ensures Rearranged(s, Swapped(s, i, j), lo, hi)
  {
    var t := Swapped(s, i, j);
    var p := s[lo..hi];
    assert t[lo..hi] == p[i - lo := p[j - lo]][j - lo := p[i - lo]];
    assert multiset(p[i - lo := p[j - lo]]) == multiset(p) - multiset{p[i - lo]} + multiset{p[j - lo]};
  }

  /** ft_swap on two cells of an array. */
  method Swap(a: array<int>, i: int, j: int)
    requires 0 <= i < a.Length && 0 <= j < a.Length
    modifies a
    ensures a[..] == Swapped(old(a[..]), i, j)
  {
    a[i], a[j] := a[j], a[i];
  }

  // ----- counting -----

  function CountBelow(s: seq<int>, v: int): (n: nat)
    ensures n <= |s|
  {
    if s == [] then 0 else (if s[0] < v then 1 else 0) + CountBelow(s[1..], v)
  }

  lemma {:induction false} CountBelowConcat(s: seq<int>, t: seq<int>, v: int)
    ensures CountBelow(s + t, v) == CountBelow(s, v) + CountBelow(t, v)
  {
    if s == [] {
      assert s + t == t;
    } else {
      assert (s + t)[1..] == s[1..] + t;
      CountBelowConcat(s[1..], t, v);
    }
  }

  /** Counting does not depend on the order. */
  lemma {:induction false} CountBelowMultiset(s: seq<int>, t: seq<int>, v: int)
    requires multiset(s) == multiset(t)
    ensures CountBelow(s, v) == CountBelow(t, v)
  {
    if s == [] {
      assert |multiset(t)| == 0;
    } else {
      var i := Occurrence(s, t);
      var rest := t[..i] + t[i + 1..];
      RestMultiset(s, t, i);
      CountBelowMultiset(s[1..], rest, v);
      CountBelowWithout(t, i, v);
    }
  }

  lemma Occurrence(s: seq<int>, t: seq<int>) returns (i: nat)
    requires s != [] && multiset(s) == multiset(t)
    ensures i < |t| && t[i] == s[0]
  {
    assert s[0] in multiset(t);
    i :| 0 <= i < |t| && t[i] == s[0];
  }

  lemma RestMultiset(s: seq<int>, t: seq<int>, i: nat)
    requires s != [] && multiset(s) == multiset(t) && i < |t| && t[i] == s[0]
    ensures multiset(s[1..]) == multiset(t[..i] + t[i + 1..])
  {
    assert s == [s[0]] + s[1..];
    assert t == t[..i] + [t[i]] + t[i + 1..];
    assert multiset(s) == multiset{s[0]} + multiset(s[1..]);
    assert multiset(t) == multiset{s[0]} + multiset(t[..i] + t[i + 1..]);
    assert multiset(s[1..]) == multiset(s) - multiset{s[0]};
  }

  lemma CountBelowWithout(t: seq<int>, i: nat, v: int)
    requires i < |t|
    ensures CountBelow(t, v) == CountBelow(t[..i] + t[i + 1..], v) + (if t[i] < v then 1 else 0)
  {
    var tail := t[i..];
    assert t == t[..i] + tail && tail[1..] == t[i + 1..];
    CountBelowConcat(t[..i], tail, v);
    CountBelowConcat(t[..i], t[i + 1..], v);
  }

  lemma {:induction false} CountBelowAll(s: seq<int>, v: int)
    ensures (forall k :: 0 <= k < |s| ==> s[k] < v) ==> CountBelow(s, v) == |s|
    ensures (forall k :: 0 <= k < |s| ==> s[k] >= v) ==> CountBelow(s, v) == 0
  {
    if s != [] { CountBelowAll(s[1..], v); }
  }
}
