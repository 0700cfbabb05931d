/** What section 7.21.6.1 of ISO/IEC 9899:2011 has fprintf print for %s, %c and the integer
    specifiers without a length modifier, with numerals and arguments of its own. */
module CPrintf {
  import opened LogDirectives
  import opened Options
  import L = LogSpec

  predicate IsSigned(c: char) { c == 'd' || c == 'i' }

  predicate IsInteger(c: char) { IsSigned(c) || c == 'u' || c == 'x' || c == 'X' || c == 'o' }

  // ----- numerals -----

  /** The digits of a number, most significant first, in the system that has these digits. */
  function Numeral(n: nat, digits: string): (s: string)
    requires |digits| >= 2
    ensures s != ""
  {
    if n < |digits| then [digits[n]] else Numeral(n / |digits|, digits) + [digits[n % |digits|]]
  }

  function Worth(c: char): int {
    if '0' <= c <= '9' then c as int - '0' as int
    else if 'a' <= c <= 'f' then c as int - 'a' as int + 10
    else if 'A' <= c <= 'F' then c as int - 'A' as int + 10
    else 0
  }

  /** What a numeral is worth, read from the left. */
  function ValueIn(base: nat, s: string): int {
    if s == "" then 0 else ValueIn(base, s[..|s| - 1]) * base + Worth(s[|s| - 1])
  }

  /** `s` is how `n` is written in this base, with these digits and no needless zero. */
  predicate Writes(s: string, n: nat, base: nat, digits: string) {
    && s != "" && (forall i :: 0 <= i < |s| ==> s[i] in digits)
    && ValueIn(base, s) == n
    && (s[0] == '0' ==> s == "0")
  }

  lemma DigitWorth(d: nat)
    ensures d < 10 ==> Worth("0123456789"[d]) == d && (d > 0 ==> "0123456789"[d] != '0')
    ensures d < 8 ==> Worth("01234567"[d]) == d && (d > 0 ==> "01234567"[d] != '0')
    ensures d < 16 ==> Worth("0123456789abcdef"[d]) == d && (d > 0 ==> "0123456789abcdef"[d] != '0')
    ensures d < 16 ==> Worth("0123456789ABCDEF"[d]) == d && (d > 0 ==> "0123456789ABCDEF"[d] != '0')
  {
  }

  lemma {:induction false} NumeralWrites(n: nat, digits: string)
    requires digits in {"0123456789", "01234567", "0123456789abcdef", "0123456789ABCDEF"}
    ensures Writes(Numeral(n, digits), n, |digits|, digits)
    ensures n > 0 ==> Numeral(n, digits)[0] != '0'
    ensures n == 0 ==> Numeral(n, digits) == "0"
    decreases n
  {
    hide Worth;
    var base := |digits|;
    DigitWorth(n % base);
    if n < base {
      DigitWorth(n);
      OneDigit(base, digits[n]);
    } else {
      L.Quotients(n, base);
      NumeralWrites(n / base, digits);
      NextWritten(Numeral(n / base, digits), n, base, digits);
    }
  }

  lemma OneDigit(base: nat, c: char)
    ensures ValueIn(base, [c]) == Worth(c)
  {
    assert [c][..0] == "" && ValueIn(base, "") == 0;
  }

  lemma NextWritten(front: string, n: nat, base: nat, digits: string)
    requires 2 <= base == |digits| && 0 < n / base && Writes(front, n / base, base, digits) && front[0] != '0'
    requires n == n / base * base + n % base && Worth(digits[n % base]) == n % base
    ensures var s := front + [digits[n % base]]; Writes(s, n, base, digits) && s[0] != '0'
  {
    hide Worth;
    var s := front + [digits[n % base]];
    assert s[..|s| - 1] == front;
  }

  // ----- what a directive prints -----

  /** Copies of one character; none for a negative number. */
  function Copies(c: char, n: int): (s: string)
    ensures |s| == if n < 0 then 0 else n
    ensures forall i :: 0 <= i < |s| ==> s[i] == c
  {
    if n <= 0 then "" else Copies(c, n - 1) + [c]
  }

  /** The next argument as an int; one of another kind, or none, is taken to be zero. */
  function IntArgument(args: seq<L.Arg>): int {
    if args == [] then 0
    else
      match args[0]
      case Number(v) => v
      case _ => 0
  }

  /** The next argument as a string; where C leaves the behaviour undefined, the usual "(null)". */
  function StringArgument(args: seq<L.Arg>): string {
    if args == [] then "(null)"
    else
      match args[0]
      case Text(t) => t
      case _ => "(null)"
  }

  /** The number an integer directive converts: an int, or an unsigned int of 32 bits. */
  function Converted(d: Directive, args: seq<L.Arg>): (v: int)
    ensures -0x8000_0000 <= v < 0x1_0000_0000
    ensures !IsSigned(d.specifier) ==> v >= 0
  {
    var v := IntArgument(args) % 0x1_0000_0000;
    if IsSigned(d.specifier) && v >= 0x8000_0000 then v - 0x1_0000_0000 else v
  }

  function DigitsOf(specifier: char): (digits: string)
    ensures digits in {"0123456789", "01234567", "0123456789abcdef", "0123456789ABCDEF"}
  {
    match specifier
    case 'o' => "01234567"
    case 'x' => "0123456789abcdef"
    case 'X' => "0123456789ABCDEF"
    case _ => "0123456789"
  }

  function Plain(d: Directive, value: int): (s: string)
    ensures s != ""
  {
    Numeral(if value < 0 then -value else value, DigitsOf(d.specifier))
  }

  /** The precision is a least number of digits; zero with precision zero has none, except that
      '#' makes an octal number start with a zero. */
  function CDigits(d: Directive, value: int): string {
    var s := if d.precision == Some(0) && value == 0 then "" else Plain(d, value);
    var t := if d.precision.Some? then Copies('0', d.precision.value - |s|) + s else s;
    if d.specifier == 'o' && '#' in d.flags && (t == "" || t[0] != '0') then "0" + t else t
  }

  /** The sign of a signed conversion, or the '0x' of an alternative form. */
  function CHead(d: Directive, value: int): string {
    if IsSigned(d.specifier) then
      (if value < 0 then "-" else if '+' in d.flags then "+" else if ' ' in d.flags then " " else "")
    else if '#' in d.flags && value != 0 && d.specifier == 'x' then "0x"
    else if '#' in d.flags && value != 0 && d.specifier == 'X' then "0X"
    else ""
  }

  /** The width is a least number of characters: blanks on the left, or on the right with '-', or
      zeros after the head with '0' and neither '-' nor a precision. */
  function CField(d: Directive, head: string, digits: string): (s: string)
    ensures |s| >= d.width && |s| >= |head| + |digits|
    ensures d.width <= |head| + |digits| ==> s == head + digits
  {
    if '0' in d.flags && '-' !in d.flags && d.precision.None? && IsInteger(d.specifier) then
      head + Copies('0', d.width - |head| - |digits|) + digits
    else Padded(d, head + digits)
  }

  function Padded(d: Directive, body: string): (s: string)
    ensures |s| >= d.width && |s| >= |body| && (d.width <= |body| ==> s == body)
  {
    var missing := d.width - |body|;
    if missing <= 0 then body
    else if '-' in d.flags then body + Copies(' ', missing)
    else Copies(' ', missing) + body
  }

  /** The precision of a string is a greatest number of characters. */
  function Shortened(d: Directive, text: string): string {
    if d.precision.Some? && d.precision.value < |text| then text[..d.precision.value] else text
  }

  function CText(d: Directive, args: seq<L.Arg>): string {
    if d.specifier == 's' then CField(d, "", Shortened(d, StringArgument(args)))
    else if d.specifier == 'c' then CField(d, "", [(IntArgument(args) % 256) as char])
    else CField(d, CHead(d, Converted(d, args)), CDigits(d, Converted(d, args)))
  }
}
