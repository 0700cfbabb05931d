/** 32-bit integer arithmetic from shifts and bit operations: the carry loop of the addition,
    subtraction, shift-subtract division and remainder, and the bitwise square root. */
module IntegerMath {
  import opened Arithmetic
  import opened Bits

  // ----- words -----

  const WORD := 0x1_0000_0000
  const INT_MIN := -0x8000_0000
  const INT_MAX := 0x7FFF_FFFF

  /** An unsigned int, or the bit pattern of an int. */
  type word = x: int | 0 <= x < WORD

  function ToWord(x: int): word {
    x % WORD
  }

  /** A bit pattern read as a signed number. */
  function ToInt(w: word): int {
    if w > INT_MAX then w - WORD else w
  }

  function And(x: nat, y: nat): (r: nat)
    ensures r <= x && r <= y
  {
    if x == 0 || y == 0 then 0 else 2 * And(x / 2, y / 2) + (if x % 2 == 1 then y % 2 else 0)
  }

  function Or(x: nat, y: nat): nat {
    if x == 0 then y else if y == 0 then x else 2 * Or(x / 2, y / 2) + (if x % 2 == 1 then 1 else y % 2)
  }

  function Xor(x: nat, y: nat): nat {
    if x == 0 then y else if y == 0 then x else 2 * Xor(x / 2, y / 2) + (if x % 2 == y % 2 then 0 else 1)
  }

  /** `x << 1` in 32 bits. */
  function Double(x: word): word {
    if 2 * x >= WORD then 2 * x - WORD else 2 * x
  }

  // The three operations work bit by bit.

  lemma BitSteps(v: nat, j: nat)
    ensures Bit(v, 0) == (v % 2 == 1) && (j > 0 ==> Bit(v, j) == Bit(v / 2, j - 1))
  {
  }

  lemma Halved(x: nat, y: nat)
    requires x != 0 && y != 0
    ensures And(x, y) / 2 == And(x / 2, y / 2) && (And(x, y) % 2 == 1) == (x % 2 == 1 && y % 2 == 1)
    ensures Or(x, y) / 2 == Or(x / 2, y / 2) && (Or(x, y) % 2 == 1) == (x % 2 == 1 || y % 2 == 1)
    ensures Xor(x, y) / 2 == Xor(x / 2, y / 2) && (Xor(x, y) % 2 == 1) == (x % 2 != y % 2)
  {
  }

  lemma WithZero(x: nat, y: nat)
    requires x == 0 || y == 0
    ensures And(x, y) == 0 && Or(x, y) == x + y && Xor(x, y) == x + y
  {
  }

  lemma {:induction false} AndAt(x: nat, y: nat, j: nat)
    ensures Bit(And(x, y), j) == (Bit(x, j) && Bit(y, j))
  {
    hide And, Bit;
    if x == 0 || y == 0 {
      WithZero(x, y);
      ZeroHasNoBits(j);
    } else {
      Halved(x, y);
      BitSteps(x, j);
      BitSteps(y, j);
      BitSteps(And(x, y), j);
      if j > 0 { AndAt(x / 2, y / 2, j - 1); }
    }
  }

  lemma {:induction false} OrAt(x: nat, y: nat, j: nat)
    ensures Bit(Or(x, y), j) == (Bit(x, j) || Bit(y, j))
  {
    hide Or, Bit;
    if x == 0 || y == 0 {
      WithZero(x, y);
      ZeroHasNoBits(j);
    } else {
      Halved(x, y);
      BitSteps(x, j);
      BitSteps(y, j);
      BitSteps(Or(x, y), j);
      if j > 0 { OrAt(x / 2, y / 2, j - 1); }
    }
  }

  lemma {:induction false} XorAt(x: nat, y: nat, j: nat)
    ensures Bit(Xor(x, y), j) == (Bit(x, j) != Bit(y, j))
  {
    hide Xor, Bit;
    if x == 0 || y == 0 {
      WithZero(x, y);
      ZeroHasNoBits(j);
    } else {
      Halved(x, y);
      BitSteps(x, j);
      BitSteps(y, j);
      BitSteps(Xor(x, y), j);
      if j > 0 { XorAt(x / 2, y / 2, j - 1); }
    }
  }

  lemma HalfOf(v: nat, h: nat)
    requires v == 2 * h || v == 2 * h + 1
    ensures v / 2 == h
  {
  }

  /** The half adder: sum bits and carries together make the sum. */
  lemma {:induction false} HalfAdder(x: nat, y: nat)
    ensures x + y == Xor(x, y) + 2 * And(x, y)
  {
    if x != 0 && y != 0 {
      HalfAdder(x / 2, y / 2);
      assert x == 2 * (x / 2) + x % 2 && y == 2 * (y / 2) + y % 2;
    }
  }

  lemma {:induction false} XorBound(x: nat, y: nat, w: nat)
    requires x < Pow2(w) && y < Pow2(w)
    ensures Xor(x, y) < Pow2(w)
  {
    if w > 0 && x != 0 && y != 0 { XorBound(x / 2, y / 2, w - 1); }
  }

  lemma {:induction false} OrSame(x: nat)
    ensures Or(x, x) == x && Or(x, 0) == x
  {
    if x != 0 { OrSame(x / 2); }
  }

  // ----- addition -----

  lemma {:induction false} TopBitApart(v: nat, w: nat, j: nat)
    requires j < w
    ensures Bit(v + Pow2(w), j) == Bit(v, j)
  {
    if j > 0 {
      assert (v + Pow2(w)) / 2 == v / 2 + Pow2(w - 1);
      TopBitApart(v / 2, w - 1, j - 1);
    }
  }

  /** Each doubling clears one more low bit. */
  lemma DoubleClears(v: word, k: nat)
    requires LowZero(v, k) && k < 32
    ensures LowZero(Double(v), k + 1)
  {
    Pow2Word();
    var d := Double(v);
    forall j | 0 <= j < k + 1 ensures !Bit(d, j) {
      if 2 * v >= WORD {
        TopBitApart(d, 32, j);
      }
      assert !Bit(2 * v, j) by {
        if j > 0 { HalfOf(2 * v, v); }
      }
    }
  }

  lemma CarriesClear(x: word, y: word, k: nat)
    requires LowZero(y, k) && k <= 32
    ensures LowZero(And(x, y), k)
    ensures k == 32 ==> y == 0
  {
    forall j | 0 <= j < k ensures !Bit(And(x, y), j) { AndAt(x, y, j); }
    Pow2Word();
    if k == 32 { NoBitsIsZero(y, 32); }
  }

  lemma RoundKeepsSum(x: word, y: word)
    ensures Xor(x, y) < WORD
    ensures (Xor(x, y) + Double(And(x, y))) % WORD == (x + y) % WORD
  {
    Pow2Word();
    hide Xor, And, Pow2;
    XorBound(x, y, 32);
    HalfAdder(x, y);
    OneWordMore(Xor(x, y) + Double(And(x, y)));
  }

  lemma OneWordMore(s: int)
    ensures (s + WORD) % WORD == s % WORD
  {
  }

  /** The carry loop ends, within 32 rounds, with the sum modulo 2^32. */
  method Add(x0: word, y0: word) returns (x: word)
    ensures x == (x0 + y0) % WORD
  {
    hide LowZero, And, Xor, Double;
    x := x0;
    var y := y0;
    ghost var k := 0;
    assert LowZero(y, 0) by { NothingBelow(y); }
    while y != 0
      invariant 0 <= k <= 32 && LowZero(y, k)
      invariant (x + y) % WORD == (x0 + y0) % WORD
      decreases 32 - k
    {
      CarriesClear(x, y, k);
      RoundKeepsSum(x, y);
      var carry := And(x, y);
      DoubleClears(carry, k);
      x := Xor(x, y);
      y := Double(carry);
      k := k + 1;
    }
  }

  lemma NothingBelow(y: nat)
    ensures LowZero(y, 0)
  {
  }

  /** x + (~y + 1). */
  method Subtract(x: word, y: word) returns (r: word)
    ensures r == (x - y) % WORD
  {
    var negated := Add(WORD - 1 - y, 1);
    r := Add(x, negated);
  }

  // ----- division -----

  /** The quotient rounded towards zero. */
  function Quotient(a: int, b: int): int
    requires b != 0
  {
    if (a < 0) == (b < 0) then Abs(a) / Abs(b) else -(Abs(a) / Abs(b))
  }

  /** The remainder with the sign of the dividend. */
  function Remains(a: int, b: int): int
    requires b != 0
  {
    if a < 0 then -(Abs(a) % Abs(b)) else Abs(a) % Abs(b)
  }

  function Abs(x: int): nat {
    if x < 0 then -x else x
  }

  /** C's rule for / and %. */
  ghost predicate Divides(a: int, b: int, q: int, r: int) {
    a == q * b + r && Abs(r) < Abs(b) && (r > 0 ==> a > 0) && (r < 0 ==> a < 0)
  }

  /** Quotient and remainder meet the rule, and nothing else does. */
  lemma DivisionLaw(a: int, b: int, q: int, r: int)
    requires b != 0
    ensures Divides(a, b, q, r) <==> q == Quotient(a, b) && r == Remains(a, b)
  {
    hide Divides;
    var q' := if (a < 0) == (b < 0) then q else -q;
    var r' := if a < 0 then -r else r;
    FlipDividend(a, b, q, r);
    FlipDivisor(a, b, q, r);
    FlipDivisor(-a, b, -q, -r);
    PositiveLaw(Abs(a), Abs(b), q', r');
  }

  lemma PositiveLaw(a: int, b: int, q: int, r: int)
    requires a >= 0 && b > 0
    ensures Divides(a, b, q, r) <==> q == a / b && r == a % b
  {
    var h, t := a / b, a % b;
    Signs(h, b);
    Signs(q, b);
    if Divides(a, b, q, r) { Unique(b, h, t, q, r); }
  }

  lemma FlipDividend(a: int, b: int, q: int, r: int)
    ensures Divides(a, b, q, r) <==> Divides(-a, b, -q, -r)
  {
    Signs(q, b);
  }

  lemma FlipDivisor(a: int, b: int, q: int, r: int)
    ensures Divides(a, b, q, r) <==> Divides(a, -b, -q, r)
  {
    Signs(q, b);
  }

  lemma ShiftCompare(a: nat, b: nat, i: nat)
    ensures a / Pow2(i) >= b <==> a >= b * Pow2(i)
  {
    hide Pow2;
    var p := Pow2(i);
    QuotientOrder(p, a / p, a % p, b);
  }

  lemma QuotientOrder(p: nat, q: nat, r: nat, b: nat)
    requires r < p
    ensures q >= b <==> p * q + r >= b * p
  {
    if q >= b {
      MultiplyOrder(b, q, p);
    } else {
      MultiplyOrder(q + 1, b, p);
      Distribute(p, q, 1);
    }
  }

  /** A round of long division: what is left after the shifted divisor is taken away. */
  lemma TakeShifted(a0: nat, a: nat, b: nat, result: nat, p: nat)
    requires a0 == a + result * b && a < b * (p + p)
    ensures a >= b * p ==> a0 == (a - b * p) + (result + p) * b
    ensures a >= b * p ==> a - b * p < b * p
    ensures b * p >= 0
  {
    Distribute(b, p, p);
    Distribute(b, result, p);
    MultiplyOrder(result, result + p, b);
    MultiplyOrder(0, p, b);
  }

  function ShiftLeft(x: word, i: nat): word {
    x * Pow2(i) % WORD
  }

  function ShiftRight(x: nat, i: nat): int {
    x / Pow2(i)
  }

  /** What a round keeps: quotient so far, rest, and a rest below the shifted divisor. */
  ghost predicate Dividing(a0: nat, a: int, b: nat, result: int, p: nat) {
    a >= 0 && result >= 0 && a0 == a + result * b && a < b * p
  }

  lemma Round(a0: word, a: int, b: word, result: int, i: nat)
    requires Dividing(a0, a, b, result, Pow2(i + 1))
    ensures a >= 0 && result >= 0
    ensures if ShiftRight(a, i) >= b
      then ShiftLeft(b, i) <= a && Dividing(a0, a - ShiftLeft(b, i), b, result + Pow2(i), Pow2(i))
      else Dividing(a0, a, b, result, Pow2(i))
  {
    hide Pow2;
    PowNext(i);
    TakeShifted(a0, a, b, result, Pow2(i));
    ShiftCompare(a, b, i);
    MultiplyOrder(0, result, b);
    if a >= b * Pow2(i) { InRange(b * Pow2(i)); }
  }

  lemma InRange(x: int)
    requires 0 <= x < WORD
    ensures x % WORD == x
  {
  }

  lemma SetNext(result: nat, i: nat)
    requires LowZero(result, i + 1)
    ensures OrBit(result, i) == result + Pow2(i)
    ensures LowZero(OrBit(result, i), i) && LowZero(result, i)
  {
    OrBitAdds(result, i);
    forall j | 0 <= j < i ensures !Bit(OrBit(result, i), j) { OrBitAt(result, i, j); }
  }

  lemma ResultFits(a0: word, a: int, b: nat, result: int, p: nat)
    requires Dividing(a0, a, b, result, p) && b > 0
    ensures 0 <= a < WORD && 0 <= result < WORD
  {
    MultiplyOrder(1, b, result);
  }

  lemma DivisionStart(a: word, b: word)
    requires b > 0
    ensures Dividing(a, a, b, 0, Pow2(32)) && LowZero(0, 32)
  {
    Pow2Word();
    MultiplyOrder(1, b, WORD);
    forall j | 0 <= j < 32 ensures !Bit(0, j) { ZeroHasNoBits(j); }
  }

  lemma DivisionEnd(a0: nat, a: int, b: nat, result: int)
    requires Dividing(a0, a, b, result, Pow2(0)) && b > 0
    ensures 0 <= a < b && 0 <= result <= a0 && result == a0 / b && a == a0 % b
  {
    Signs(result, b);
    MultiplyOrder(1, b, result);
    Remainder(a0, b, result, a);
  }

  method DivideLoop(a0: word, b: word) returns (a: word, result: word)
    requires b > 0
    ensures result == a0 / b && a == a0 % b
  {
    hide LowZero, OrBit, Pow2, Dividing, ShiftLeft, ShiftRight;
    a := a0;
    result := 0;
    DivisionStart(a0, b);
    var i := 31;
    while i >= 0
      invariant -1 <= i <= 31
      invariant Dividing(a0, a, b, result, Pow2(i + 1)) && LowZero(result, i + 1)
    {
      Round(a0, a, b, result, i);
      SetNext(result, i);
      if ShiftRight(a, i) >= b {
        ResultFits(a0, a - ShiftLeft(b, i), b, OrBit(result, i), Pow2(i));
        a := a - ShiftLeft(b, i);
        result := OrBit(result, i);
      }
      i := i - 1;
    }
    DivisionEnd(a0, a, b, result);
  }

  lemma PowNext(i: nat)
    ensures Pow2(i + 1) == Pow2(i) + Pow2(i)
  {
  }

  lemma PowZero()
    ensures Pow2(0) == 1
  {
  }

  predicate IsInt(x: int) {
    INT_MIN < x <= INT_MAX
  }

  lemma Small(a: nat, b: nat)
    requires b > 0
    ensures 0 <= a / b <= a
  {
    MultiplyOrder(1, b, a / b);
  }

  method Divide(dividend: int, divisor: int) returns (r: int)
    requires IsInt(dividend) && IsInt(divisor)
    ensures r == if divisor == 0 then 0 else Quotient(dividend, divisor)
  {
    if divisor == 0 { return 0; }
    var sign := 1;
    if (dividend < 0 && divisor > 0) || (dividend > 0 && divisor < 0) { sign := -1; }
    var a, b := Abs(dividend), Abs(divisor);
    var left, result := DivideLoop(a, b);
    Small(a, b);
    r := sign * ToInt(result);
  }

  lemma Below(a: nat, b: nat)
    requires b > 0
    ensures 0 <= a % b < b
  {
  }

  /** A number in the range of int survives the way through a word. */
  lemma SignedBack(x: int)
    requires INT_MIN <= x <= INT_MAX
    ensures ToInt(ToWord(x)) == x
  {
    if x < 0 { OneWordMore(x); }
  }

  method Modulo(a: int, b: int) returns (r: int)
    requires IsInt(a) && IsInt(b)
    ensures r == if b == 0 then 0 else Remains(a, b)
  {
    if b == 0 { return 0; }
    var sign: int := 1;
    if a < 0 { sign := -1; }
    var ua, ub := Abs(a), Abs(b);
    var left := ModuloLoop(ua, ub);
    Below(ua, ub);
    SignedBack(sign * left);
    hide ToInt, ToWord;
    r := ToInt(ToWord(sign * left));
  }

  method ModuloLoop(a0: word, b: word) returns (a: word)
    requires b > 0
    ensures a == a0 % b
  {
    hide Pow2, Dividing, LowZero, ShiftLeft, ShiftRight;
    a := a0;
    ghost var result: int := 0;
    DivisionStart(a0, b);
    var i := 31;
    while i >= 0
      invariant -1 <= i <= 31
      invariant Dividing(a0, a, b, result, Pow2(i + 1))
    {
      Round(a0, a, b, result, i);
      if ShiftRight(a, i) >= b {
        InRange(a - ShiftLeft(b, i));
        a := Subtract(a, ShiftLeft(b, i));
        result := result + Pow2(i);
      }
      i := i - 1;
    }
    DivisionEnd(a0, a, b, result);
  }

  // ----- square root -----

  /** `x & -cond` for a comparison result. */
  function Masked(x: nat, cond: bool): nat {
    if cond then x else 0
  }

  ghost predicate Weighs(bit: int, half: nat) {
    if half == 1 then bit == 0 else half % 2 == 0 && half > 0 && bit == (half / 2) * (half / 2)
  }

  /** Between rounds: `bit` is (half / 2)^2, `res` is the root found so far times `half`,
      and `left` is what the square of that root leaves of `n`. */
  ghost predicate Rooting(n: nat, left: int, res: int, bit: int, root: nat, half: nat) {
    && Weighs(bit, half)
    && res == root * half
    && left == n - root * root && 0 <= left
    && n < (root + half) * (root + half)
  }

  lemma RootSquare(root: nat, b: nat)
    ensures (root + b) * (root + b) == root * root + (2 * (root * b) + b * b)
    ensures root * (2 * b) == 2 * (root * b) && (root + b) * b == root * b + b * b
  {
  }

  /** A round settles one more binary digit of the root. */
  lemma RootStep(n: nat, left: int, res: int, bit: int, root: nat, half: nat)
    requires Rooting(n, left, res, bit, root, half) && half > 1
    ensures res / 2 == root * (half / 2)
    ensures left >= res + bit ==>
      left - (res + bit) == n - (root + half / 2) * (root + half / 2)
      && res / 2 + bit == (root + half / 2) * (half / 2)
    ensures left < res + bit ==> n < (root + half / 2) * (root + half / 2)
    ensures root + half == (root + half / 2) + half / 2
  {
    var b := half / 2;
    assert half == 2 * b;
    RootSquare(root, b);
  }

  /** The weights that `bit` runs through: 4^15 down to 4^0, then 0. */
  function Weight(k: nat): (w: nat) {
    if k == 0 then 0 else if k == 1 then 1 else 4 * Weight(k - 1)
  }

  lemma {:induction false} WeightIsSquare(k: nat)
    ensures if k == 0 then Weight(k) == 0 else Weight(k) == Pow2(k - 1) * Pow2(k - 1)
    ensures k >= 1 ==> Weight(k) >= 1 && Weight(k) / 4 == Weight(k - 1)
  {
    if k > 1 {
      WeightIsSquare(k - 1);
      var p := Pow2(k - 2);
      assert Pow2(k - 1) == 2 * p;
      assert (2 * p) * (2 * p) == 4 * (p * p);
    }
  }

  lemma Weight30()
    ensures Weight(16) == 0x4000_0000
  {
    assert Weight(6) == 1024;
    assert Weight(11) == 0x10_0000;
  }

  /** The branch-free choice between the two new roots. */
  lemma Choice(half: nat, bit: nat, cond: bool)
    ensures Or(half + Masked(bit, cond), Masked(half, !cond)) == half + (if cond then bit else 0)
  {
    OrSame(half);
    OrSame(half + bit);
  }

  /** The first loop: the largest weight that does not exceed `n`. */
  method FirstWeight(n: nat) returns (bit: nat, ghost k: nat)
    requires n <= INT_MAX
    ensures k <= 16 && bit == Weight(k) && bit <= n && (n < 4 * bit || (k == 0 && n == 0))
  {
    bit, k := 0x4000_0000, 16;
    Weight30();
    hide Weight;
    WeightIsSquare(k);
    while bit > n
      invariant k <= 16 && bit == Weight(k)
      invariant n < 4 * bit || (k == 0 && n == 0)
      decreases k
    {
      WeightIsSquare(k);
      bit := bit / 4;
      k := k - 1;
    }
  }

  method Sqrt(n0: int) returns (res: int)
    requires INT_MIN <= n0 <= INT_MAX
    ensures var n := if n0 < 0 then 0 else n0;
      res >= 0 && res * res <= n < (res + 1) * (res + 1)
  {
    hide Weight, Rooting, Or, Masked, Pow2;
    var n: int := if n0 < 0 then 0 else n0;
    ghost var whole := n;
    var bit, k := FirstWeight(n);
    res := 0;
    ghost var root: nat := 0;
    RootStart(n, bit, k);
    while bit != 0
      invariant 0 <= k <= 16 && bit == Weight(k) && 0 <= res
      invariant Rooting(whole, n, res, bit, root, Pow2(k))
      invariant root == 0 || k <= 15
      decreases k
    {
      WeightIsSquare(k);
      PositiveWeight(k);
      var t := res + bit;
      TrialFits(whole, n, res, bit, root, k);
      assert t <= INT_MAX;
      var cond := n >= t;
      RootRound(whole, n, res, bit, root, k);
      Choice(res / 2, bit, cond);
      Mask(t, cond);
      n := n - Masked(t, cond);
      res := Or(res / 2 + Masked(bit, cond), Masked(res / 2, !cond));
      root := if cond then root + Pow2(k - 1) else root;
      bit := bit / 4;
      k := k - 1;
    }
    PositiveWeight(k);
    PowZero();
    RootEnd(whole, n, res, root);
  }

  lemma PositiveWeight(k: nat)
    ensures Weight(k) == 0 <==> k == 0
  {
    WeightIsSquare(k);
  }

  lemma Mask(x: nat, cond: bool)
    ensures Masked(x, cond) == (if cond then x else 0)
  {
  }

  lemma WeighsAt(k: nat)
    ensures Weighs(Weight(k), Pow2(k))
  {
    WeightIsSquare(k);
  }

  lemma SquareDoubled(b: nat)
    ensures (b + b) * (b + b) == 4 * (b * b)
  {
  }

  lemma RootStart(n: nat, bit: nat, k: nat)
    requires bit == Weight(k) && bit <= n && (n < 4 * bit || (k == 0 && n == 0))
    ensures Rooting(n, n, 0, bit, 0, Pow2(k))
  {
    hide Weight, Weighs, Pow2;
    WeighsAt(k);
    WeightIsSquare(k);
    if k > 0 {
      PowNext(k - 1);
      SquareDoubled(Pow2(k - 1));
    } else {
      PowZero();
    }
  }

  lemma RootRound(n: nat, left: int, res: int, bit: int, root: nat, k: nat)
    requires k > 0 && bit == Weight(k) && Rooting(n, left, res, bit, root, Pow2(k))
    ensures left >= res + bit ==>
      Rooting(n, left - (res + bit), res / 2 + bit, bit / 4, root + Pow2(k - 1), Pow2(k - 1))
    ensures left < res + bit ==> Rooting(n, left, res / 2, bit / 4, root, Pow2(k - 1))
  {
    hide Weight, Weighs, Pow2;
    PowNext(k - 1);
    RootStep(n, left, res, bit, root, Pow2(k));
    WeightIsSquare(k);
    WeighsAt(k - 1);
  }

  lemma SquareBound(root: nat)
    requires root * root <= INT_MAX
    ensures root <= 46340
  {
    if root > 46340 {
      MultiplyOrder(46341, root, 46341);
      MultiplyOrder(46341, root, root);
      assert false;
    }
  }

  lemma {:induction false} WeightBound(k: nat)
    requires k <= 16
    ensures Weight(k) <= 0x4000_0000 && Pow2(k) <= 0x1_0000
    ensures k <= 15 ==> Weight(k) <= 0x1000_0000 && Pow2(k) <= 0x8000
    decreases 16 - k
  {
    if k >= 15 {
      Weight30();
      Pow2Eight();
      Pow2Sum(8, 8);
    } else {
      WeightBound(k + 1);
    }
  }

  /** The trial value never overflows an int. */
  lemma TrialFits(n: nat, left: int, res: int, bit: int, root: nat, k: nat)
    requires n <= INT_MAX && k <= 16 && (root == 0 || k <= 15)
    ensures bit == Weight(k) && Rooting(n, left, res, bit, root, Pow2(k)) ==> res + bit <= INT_MAX
  {
    hide Weight, Pow2, Weighs;
    WeightBound(k);
    if root > 0 && Rooting(n, left, res, bit, root, Pow2(k)) {
      SquareBound(root);
      MultiplyOrder(root, 46340, Pow2(k));
      MultiplyOrder(Pow2(k), 0x8000, 46340);
    }
  }

  lemma RootEnd(n: nat, left: int, res: int, root: nat)
    ensures Rooting(n, left, res, 0, root, 1) ==> res * res <= n < (res + 1) * (res + 1)
  {
  }
}
