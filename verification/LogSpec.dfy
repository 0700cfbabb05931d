/** The formatting automaton of the log, with unlimited room for what it prints. */
module LogSpec {
  import opened Arithmetic
  import opened IntegerMath

  // ----- data -----

  datatype State = Normal | Percent | Flags | Width | Precision | Length | Specifier | Error

  /** t_format_spec; all zero at each '%'. */
  datatype Spec = Spec(width: int, precision: int, leftAlign: bool, showSign: bool, spacePrefix: bool,
                       altForm: bool, zeroPad: bool, hasPrecision: bool, lengthMod: char, specifier: char)

  const BLANK := Spec(0, 0, false, false, false, false, false, false, '\0', '\0')

  /** A variable argument: a C string or NULL, a number passed in a word, a double, a pointer. */
  datatype Arg = Text(text: string) | NoText | Number(value: int) | Double(double: real) | Pointer(address: nat)

  datatype Ctx = Ctx(state: State, spec: Spec, tempNum: int, args: seq<Arg>)

  // ----- character classes -----

  predicate IsDigit(c: char) { '0' <= c <= '9' }

  predicate IsFlag(c: char) { c in {'-', '+', ' ', '#', '0'} }

  predicate IsLength(c: char) { c in {'l', 'h', 'L'} }

  predicate IsSpecifier(c: char) { c in {'s', 'd', 'i', 'u', 'x', 'X', 'o', 'c', 'p', 'f', 'g', 'G'} }

  // ----- numbers -----

  const LOWER := "0123456789abcdef"
  const UPPER := "0123456789ABCDEF"

  function DigitChar(d: int, upper: bool): char
    requires 0 <= d < 16
  {
    if upper then UPPER[d] else LOWER[d]
  }

  /** The digits of a positive number, most significant first; nothing for others. */
  function Positional(n: int, base: int, upper: bool): (s: string)
    requires 2 <= base <= 16
    ensures n > 0 ==> s != ""
  {
    if n <= 0 then "" else Positional(n / base, base, upper) + [DigitChar(n % base, upper)]
  }

  function Digits(n: int, base: int, upper: bool): string
    requires 2 <= base <= 16
  {
    if n == 0 then "0" else Positional(n, base, upper)
  }

  function Base(specifier: char): int {
    if specifier == 'x' || specifier == 'X' || specifier == 'p' then 16
    else if specifier == 'o' then 8
    else 10
  }

  function Negated(num: int, specifier: char): bool {
    num < 0 && (specifier == 'd' || specifier == 'i')
  }

  function Sign(negative: bool, spec: Spec): string {
    if negative then "-" else if spec.showSign then "+" else if spec.spacePrefix then " " else ""
  }

  /** What a number prints; width and precision play no part. */
  function NumberText(num: int, spec: Spec): string {
    var negative := Negated(num, spec.specifier);
    Sign(negative, spec) + Digits(if negative then -num else num, Base(spec.specifier), spec.specifier == 'X')
  }

  // ----- strings -----

  function Spaces(n: int): (s: string)
    ensures |s| == if n < 0 then 0 else n
  {
    if n <= 0 then "" else Spaces(n - 1) + " "
  }

  function Shown(str: string, spec: Spec): int {
    if spec.hasPrecision && spec.precision < |str| then spec.precision else |str|
  }

  function Upto(str: string, n: int): string {
    if n < 0 then "" else if n < |str| then str[..n] else str
  }

  function StringText(str: string, spec: Spec): string {
    var max := Shown(str, spec);
    var padding := Spaces(spec.width - max);
    if spec.leftAlign then Upto(str, max) + padding else padding + Upto(str, max)
  }

  // ----- specifiers -----

  // va_arg; an argument of another kind, or none, gives the zero of the kind asked for.
  function Rest(args: seq<Arg>): seq<Arg> {
    if args == [] then [] else args[1..]
  }

  function NumberOf(args: seq<Arg>): int {
    if args != [] && args[0].Number? then args[0].value else 0
  }

  function DoubleOf(args: seq<Arg>): real {
    if args != [] && args[0].Double? then args[0].double else 0.0
  }

  function PointerOf(args: seq<Arg>): nat {
    if args != [] && args[0].Pointer? then args[0].address else 0
  }

  function TextOf(args: seq<Arg>): string {
    if args != [] && args[0].Text? then args[0].text else "(null)"
  }

  /** `(int)num`: rounded towards zero; C leaves a value outside the range of int undefined, and
      it is taken to give INT_MIN. */
  function Truncated(r: real): (n: int)
    ensures INT_MIN <= n <= INT_MAX
  {
    var n := if r < 0.0 then -(-r).Floor else r.Floor;
    if INT_MIN <= n <= INT_MAX then n else INT_MIN
  }

  const LONG := 0x1_0000_0000_0000_0000

  /** An address read as a long long. */
  function AsLong(address: nat): int {
    var a := address % LONG;
    if a >= LONG / 2 then a - LONG else a
  }

  /** What a specifier prints, and the specifier its handler leaves in the record. */
  function Fired(spec: Spec, args: seq<Arg>): (string, char) {
    match spec.specifier
    case 's' => (StringText(TextOf(args), spec), 's')
    case 'd' => (NumberText(ToInt(ToWord(NumberOf(args))), spec), 'd')
    case 'i' => (NumberText(ToInt(ToWord(NumberOf(args))), spec), 'i')
    case 'u' => (NumberText(ToWord(NumberOf(args)), spec), 'u')
    case 'x' => (NumberText(ToWord(NumberOf(args)), spec), 'x')
    case 'X' => (NumberText(ToWord(NumberOf(args)), spec), 'X')
    case 'o' => (NumberText(ToWord(NumberOf(args)), spec), 'o')
    case 'c' => ([(NumberOf(args) % 256) as char], 'c')
    case 'p' => ("0x" + NumberText(AsLong(PointerOf(args)), spec), 'p')
    case 'f' => (NumberText(Truncated(DoubleOf(args)), spec), 'f')
    case 'g' => (NumberText(Truncated(DoubleOf(args)), spec.(specifier := 'f')), 'f')
    case 'G' => (NumberText(Truncated(DoubleOf(args)), spec.(specifier := 'f')), 'f')
    case _ => (['%', spec.specifier], spec.specifier)
  }

  // ----- transitions -----

  function SetFlag(spec: Spec, c: char): Spec {
    match c
    case '-' => spec.(leftAlign := true)
    case '+' => spec.(showSign := true)
    case ' ' => spec.(spacePrefix := true)
    case '#' => spec.(altForm := true)
    case '0' => spec.(zeroPad := true)
    case _ => spec
  }

  function DigitValue(c: char): int {
    c as int - '0' as int
  }

  function OtherChars(x: Ctx, c: char): Ctx {
    if IsDigit(c) then x.(tempNum := DigitValue(c), state := Width)
    else if c == '.' then x.(spec := x.spec.(hasPrecision := true), tempNum := 0, state := Precision)
    else if IsLength(c) then x.(spec := x.spec.(lengthMod := c), state := Length)
    else if IsSpecifier(c) then x.(spec := x.spec.(specifier := c), state := Specifier)
    else x.(state := Error)
  }

  function AfterPercent(x: Ctx, c: char): (Ctx, string) {
    if c == '%' then (x.(state := Normal), "%")
    else if IsFlag(c) then (x.(spec := SetFlag(x.spec, c), state := Flags), "")
    else (OtherChars(x, c), "")
  }

  function MoreDigits(x: Ctx, c: char): Ctx {
    x.(tempNum := x.tempNum * 10 + DigitValue(c))
  }

  /** One action: the new context and what it prints. */
  function Act(x: Ctx, c: char): (Ctx, string) {
    match x.state
    case Normal => if c == '%' then (x.(spec := BLANK, state := Percent), "") else (x, [c])
    case Percent => AfterPercent(x, c)
    case Flags => if IsFlag(c) then (x.(spec := SetFlag(x.spec, c)), "") else AfterPercent(x, c)
    case Width =>
      if IsDigit(c) then (MoreDigits(x, c), "")
      else
        var y := x.(spec := x.spec.(width := x.tempNum));
        if c == '.' then (y.(spec := y.spec.(hasPrecision := true), tempNum := 0, state := Precision), "")
        else AfterPercent(y, c)
    case Precision =>
      if IsDigit(c) then (MoreDigits(x, c), "")
      else AfterPercent(x.(spec := x.spec.(precision := x.tempNum)), c)
    case Length => AfterPercent(x, c)
    case Specifier =>
      var (text, specifier) := Fired(x.spec, x.args);
      var args := if IsSpecifier(x.spec.specifier) then Rest(x.args) else x.args;
      (x.(spec := x.spec.(specifier := specifier), args := args, state := Normal), text)
    case Error => (x.(state := Normal), ['%', c])
  }

  /** An action, and the driver's silent return from the error state. */
  function Transition(x: Ctx, c: char): (Ctx, string) {
    var (y, text) := Act(x, c);
    (if y.state == Error then y.(state := Normal) else y, text)
  }

  /** All that the automaton prints for a format. */
  function Emitted(x: Ctx, fmt: string): string
    decreases |fmt|
  {
    if fmt == "" then ""
    else
      var (y, text) := Transition(x, fmt[0]);
      text + Emitted(y, fmt[1..])
  }

  /** The context after a format. */
  function Reached(x: Ctx, fmt: string): Ctx
    decreases |fmt|
  {
    if fmt == "" then x else Reached(Transition(x, fmt[0]).0, fmt[1..])
  }

  function Start(args: seq<Arg>): Ctx {
    Ctx(Normal, BLANK, 0, args)
  }

  lemma {:induction false} EmittedConcat(x: Ctx, f: string, g: string)
    ensures Emitted(x, f + g) == Emitted(x, f) + Emitted(Reached(x, f), g)
    ensures Reached(x, f + g) == Reached(Reached(x, f), g)
    decreases |f|
  {
    hide Transition;
    if f == "" {
      assert f + g == g;
    } else {
      assert (f + g)[1..] == f[1..] + g;
      EmittedConcat(Transition(x, f[0]).0, f[1..], g);
    }
  }

  // ----- numbers read back -----

  function CharValue(c: char): int {
    if '0' <= c <= '9' then c as int - '0' as int
    else if 'a' <= c <= 'f' then c as int - 'a' as int + 10
    else c as int - 'A' as int + 10
  }

  function Value(s: string, base: int): int {
    if s == "" then 0 else Value(s[..|s| - 1], base) * base + CharValue(s[|s| - 1])
  }

  lemma DigitRoundTrip(d: int, upper: bool)
    requires 0 <= d < 16
    ensures CharValue(DigitChar(d, upper)) == d
    ensures d < 10 ==> IsDigit(DigitChar(d, upper)) && (d > 0 ==> DigitChar(d, upper) != '0')
  {
  }

  /** Printed digits read back as the number, for every non-negative number and base. */
  lemma {:induction false} DigitsRoundTrip(n: nat, base: int, upper: bool)
    requires 2 <= base <= 16
    ensures Value(Positional(n, base, upper), base) == n
    ensures Value(Digits(n, base, upper), base) == n
    decreases n
  {
    if n > 0 {
      var q, d := n / base, n % base;
      assert 0 <= q < n && n == q * base + d by { Quotients(n, base); }
      DigitsRoundTrip(q, base, upper);
      DigitRoundTrip(d, upper);
      var s := Positional(n, base, upper);
      assert s[..|s| - 1] == Positional(q, base, upper);
    } else {
      assert Value("", base) == 0;
    }
  }

  lemma Quotients(n: nat, base: int)
    requires n > 0 && base >= 2
    ensures 0 <= n / base < n && n == n / base * base + n % base
  {
    var q := n / base;
    assert n == base * q + n % base;
    Signs(q, base);
    if q >= n { MultiplyOrder(n, q, base); MultiplyOrder(2, base, n); assert false; }
    if q < 0 { MultiplyOrder(1, -q, base); assert false; }
  }
}
