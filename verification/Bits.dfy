/** Bit operations of C on non-negative words, written with halving and doubling only. */
module Bits {

  newtype byte = x: int | 0 <= x < 256

  function Pow2(n: nat): (p: nat)
    ensures p >= 1
  {
    if n == 0 then 1 else 2 * Pow2(n - 1)
  }

  lemma {:induction false} Pow2Sum(m: nat, n: nat)
    ensures Pow2(m + n) == Pow2(m) * Pow2(n)
  {
    if m > 0 { Pow2Sum(m - 1, n); }
  }

  /** The test `v & (1 << i)`. */
  predicate Bit(v: nat, i: nat) {
    if i == 0 then v % 2 == 1 else Bit(v / 2, i - 1)
  }

  /** The assignment `v |= (1 << i)`. */
  function OrBit(v: nat, i: nat): nat {
    if i == 0 then
      if v % 2 == 1 then v else v + 1
    else
      2 * OrBit(v / 2, i - 1) + v % 2
  }

  /** The `w` low bits of `v`, most significant first. */
  function ToBits(v: nat, w: nat): (bits: seq<bool>)
    ensures |bits| == w
  {
    if w == 0 then [] else ToBits(v / 2, w - 1) + [v % 2 == 1]
  }

  /** The `n` low bits of `v` are all zero. */
  ghost predicate LowZero(v: nat, n: nat) {
    forall j :: 0 <= j < n ==> !Bit(v, j)
  }

  lemma {:induction false} ToBitsAt(v: nat, w: nat, j: nat)
    requires j < w
    ensures ToBits(v, w)[j] == Bit(v, w - 1 - j)
  {
    if j < w - 1 {
      ToBitsAt(v / 2, w - 1, j);
    }
  }

  lemma {:induction false} ToBitsInjective(u: nat, v: nat, w: nat)
    requires u < Pow2(w) && v < Pow2(w)
    requires ToBits(u, w) == ToBits(v, w)
    ensures u == v
  {
    if w > 0 {
      var p, q := ToBits(u / 2, w - 1), ToBits(v / 2, w - 1);
      assert ToBits(u, w)[..w - 1] == p && ToBits(v, w)[..w - 1] == q;
      assert ToBits(u, w)[w - 1] == ToBits(v, w)[w - 1];
      ToBitsInjective(u / 2, v / 2, w - 1);
    }
  }

  /** Setting bit `i` sets it and leaves every other bit alone. */
  lemma {:induction false} OrBitAt(v: nat, i: nat, j: nat)
    ensures Bit(OrBit(v, i), j) == (i == j || Bit(v, j))
  {
    if i > 0 && j > 0 {
      OrBitAt(v / 2, i - 1, j - 1);
    }
  }

  lemma {:induction false} OrBitBound(v: nat, i: nat, w: nat)
    requires v < Pow2(w) && i < w
    ensures OrBit(v, i) < Pow2(w)
  {
    hide Bit;
    var half := Pow2(w - 1);
    assert Pow2(w) == 2 * half && v / 2 < half;
    if i == 0 {
      assert OrBit(v, i) <= 2 * (v / 2) + 1;
    } else {
      OrBitBound(v / 2, i - 1, w - 1);
      assert OrBit(v, i) == 2 * OrBit(v / 2, i - 1) + v % 2;
    }
  }

  lemma {:induction false} ZeroHasNoBits(i: nat)
    ensures !Bit(0, i)
  {
    if i > 0 { ZeroHasNoBits(i - 1); }
  }

  lemma {:induction false} NoBitsIsZero(v: nat, w: nat)
    requires v < Pow2(w) && LowZero(v, w)
    ensures v == 0
  {
    if w > 0 {
      assert !Bit(v, 0);
      forall j | 0 <= j < w - 1 ensures !Bit(v / 2, j) {
        assert !Bit(v, j + 1);
      }
      NoBitsIsZero(v / 2, w - 1);
    }
  }

  /** A bit known to be clear is set by adding its weight. */
  lemma {:induction false} OrBitAdds(v: nat, i: nat)
    requires !Bit(v, i)
    ensures OrBit(v, i) == v + Pow2(i)
  {
    if i > 0 { OrBitAdds(v / 2, i - 1); }
  }

  /** Receiving the next most significant bit of a word: the bits above position `m` are kept
      and the received one follows them. */
  lemma {:induction false} NextBit(v: nat, w: nat, m: nat, b: bool)
    requires m < w && LowZero(v, m + 1)
    ensures var v' := if b then OrBit(v, m) else v;
            ToBits(v', w)[..w - m] == ToBits(v, w)[..w - m - 1] + [b] && LowZero(v', m)
  {
    var v' := if b then OrBit(v, m) else v;
    forall j | 0 <= j < w ensures Bit(v', j) == ((b && j == m) || Bit(v, j)) {
      if b { OrBitAt(v, m, j); }
    }
    forall j | 0 <= j < w - m
      ensures ToBits(v', w)[j] == (if j < w - m - 1 then ToBits(v, w)[j] else b)
    {
      ToBitsAt(v', w, j);
      ToBitsAt(v, w, j);
    }
  }

  /** The bits of a text, eight per byte, in the order they are sent. */
  function TextBits(text: seq<byte>): (bits: seq<bool>)
    ensures |bits| == 8 * |text|
  {
    if text == [] then [] else TextBits(text[..|text| - 1]) + ToBits(text[|text| - 1] as nat, 8)
  }

  /** A non-empty text's bits are those of its front followed by those of its last byte. */
  lemma TextBitsSplit(s: seq<byte>)
    requires s != []
    ensures var n := |s| - 1;
            && TextBits(s)[..8 * n] == TextBits(s[..n])
            && TextBits(s)[8 * n..] == ToBits(s[n] as nat, 8)
  {
    hide ToBits;
    var n := |s| - 1;
    assert TextBits(s) == TextBits(s[..n]) + ToBits(s[n] as nat, 8);
  }

  lemma {:induction false} TextBitsInjective(s: seq<byte>, t: seq<byte>)
    requires TextBits(s) == TextBits(t)
    ensures s == t
  {
    hide TextBits, ToBits;
    if s != [] {
      var n := |s| - 1;
      assert |t| == n + 1;
      TextBitsSplit(s);
      TextBitsSplit(t);
      TextBitsInjective(s[..n], t[..n]);
      Pow2Eight();
      ToBitsInjective(s[n] as nat, t[n] as nat, 8);
      assert s == s[..n] + [s[n]] && t == t[..n] + [t[n]];
    }
  }

  lemma {:induction false} Pow2Eight()
    ensures Pow2(8) == 256
  {
    assert Pow2(4) == 16;
  }

  lemma {:induction false} Pow2Word()
    ensures Pow2(32) == 0x1_0000_0000
  {
    Pow2Sum(8, 8);
    Pow2Sum(16, 16);
    Pow2Eight();
  }

  lemma {:induction false} TextBitsAppend(s: seq<byte>, b: byte)
    ensures TextBits(s + [b]) == TextBits(s) + ToBits(b as nat, 8)
  {
    assert (s + [b])[..|s|] == s;
  }

  lemma {:induction false} TextBitsPrefix(t: seq<byte>, k: nat)
    requires k <= |t|
    ensures TextBits(t[..k]) == TextBits(t)[..8 * k]
  {
    if k < |t| {
      var n := |t| - 1;
      assert t[..n][..k] == t[..k];
      TextBitsPrefix(t[..n], k);
      assert TextBits(t)[..8 * n] == TextBits(t[..n]);
    } else {
      assert t[..k] == t;
    }
  }

  // ----- reading bits back -----

  /** The number whose bits these are, most significant first. */
  function FromBits(bits: seq<bool>): (v: nat)
    ensures v < Pow2(|bits|)
  {
    if bits == [] then 0
    else 2 * FromBits(bits[..|bits| - 1]) + (if bits[|bits| - 1] then 1 else 0)
  }

  lemma {:induction false} FromBitsRead(bits: seq<bool>)
    ensures ToBits(FromBits(bits), |bits|) == bits
  {
    if bits != [] {
      var n := |bits| - 1;
      var v, h := FromBits(bits), FromBits(bits[..n]);
      assert v / 2 == h && (v % 2 == 1) == bits[n];
      FromBitsRead(bits[..n]);
    }
  }

  function ToByte(bits: seq<bool>): (b: byte)
    requires |bits| == 8
    ensures ToBits(b as nat, 8) == bits
  {
    Pow2Eight();
    FromBitsRead(bits);
    FromBits(bits) as byte
  }

  lemma TextBitsNothing()
    ensures TextBits([]) == []
  {
  }

  /** The text of `n` bytes whose bits these are. */
  function FromTextBits(bits: seq<bool>, n: nat): (text: seq<byte>)
    requires |bits| == 8 * n
    ensures |text| == n
    decreases n
  {
    hide ToBits, ToByte;
    if n == 0 then [] else FromTextBits(bits[..8 * n - 8], n - 1) + [ToByte(bits[8 * n - 8..])]
  }

  lemma {:induction false} FromTextBitsRead(bits: seq<bool>, n: nat)
    requires |bits| == 8 * n
    ensures TextBits(FromTextBits(bits, n)) == bits
    decreases n
  {
    hide ToBits, ToByte, TextBits;
    if n == 0 {
      TextBitsNothing();
    } else {
      var front, b := bits[..8 * n - 8], ToByte(bits[8 * n - 8..]);
      FromTextBitsRead(front, n - 1);
      TextBitsAppend(FromTextBits(front, n - 1), b);
      assert bits == front + bits[8 * n - 8..];
    }
  }
}
