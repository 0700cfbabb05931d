/** What the log's directives print for given arguments: numerals, strings, characters, addresses,
    integer parts; and which argument is whose. */
module LogValues {
  import opened CPrintf
  import opened IntegerMath
  import opened LogDirectives
  import opened LogFormats
  import opened LogSpec
  import opened Options

  /** The sign in front of a number, negative or not. */
  function SignFor(d: Directive, negative: bool): string {
    if negative then "-" else if '+' in d.flags then "+" else if ' ' in d.flags then " " else ""
  }

  // ----- numerals -----

  /** The log's digits are those of the number system with as many digits as the base. */
  lemma {:induction false} SameNumeral(n: nat, base: int, upper: bool, digits: string)
    requires 2 <= base <= 16 && |digits| == base
    requires forall d :: 0 <= d < base ==> DigitChar(d, upper) == digits[d]
    ensures Digits(n, base, upper) == Numeral(n, digits)
    decreases n
  {
    hide DigitChar;
    Quotients(if n == 0 then 1 else n, base);
    if n < base {
      SmallQuotient(n, base);
      PositionalStep(n, base, upper);
      assert DigitChar(n, upper) == digits[n];
      assert "" + [digits[n]] == [digits[n]];
    } else {
      SameNumeral(n / base, base, upper, digits);
    }
  }

  lemma SmallQuotient(n: nat, base: int)
    requires n < base
    ensures n / base == 0 && n % base == n
  {
  }

  lemma PositionalStep(n: nat, base: int, upper: bool)
    requires 2 <= base <= 16
    ensures Positional(0, base, upper) == "" && DigitChar(0, upper) == '0'
    ensures n > 0 ==> Positional(n, base, upper) == Positional(n / base, base, upper) + [DigitChar(n % base, upper)]
  {
  }

  /** The log's number system for each specifier. */
  lemma DigitsUsed(specifier: char)
    ensures var digits := DigitsOf(specifier);
      specifier in {'d', 'i', 'u', 'o', 'x', 'X', 'f'} ==>
        && |digits| == Base(specifier)
        && forall d :: 0 <= d < |digits| ==> DigitChar(d, specifier == 'X') == digits[d]
  {
  }

  /** The log prints a number as a sign and its numeral, and of a number that is negative under
      another specifier than %d and %i only the sign asked for. */
  lemma NumberPrinted(d: Directive, spec: Spec, num: int, digits: string)
    requires spec.showSign == ('+' in d.flags) && spec.spacePrefix == (' ' in d.flags)
    requires 2 <= |digits| <= 16 && |digits| == Base(spec.specifier)
    requires forall k :: 0 <= k < |digits| ==> DigitChar(k, spec.specifier == 'X') == digits[k]
    ensures num >= 0 ==> NumberText(num, spec) == SignFor(d, false) + Numeral(num, digits)
    ensures num < 0 && IsSigned(spec.specifier) ==> NumberText(num, spec) == SignFor(d, true) + Numeral(-num, digits)
    ensures num < 0 && !IsSigned(spec.specifier) ==> NumberText(num, spec) == SignFor(d, false)
  {
    hide Digits, DigitChar, Base, Numeral;
    SameNumeral(if num < 0 then -num else num, Base(spec.specifier), spec.specifier == 'X', digits);
    if num < 0 {
      NoDigits(num, Base(spec.specifier), spec.specifier == 'X');
      assert SignFor(d, false) + "" == SignFor(d, false);
    }
  }

  lemma NoDigits(n: int, base: int, upper: bool)
    requires n < 0 && 2 <= base <= 16
    ensures Digits(n, base, upper) == ""
  {
  }

  /** What the record of a directive says about signs. */
  lemma SignsAsked(d: Directive)
    ensures Asked(d).showSign == ('+' in d.flags) && Asked(d).spacePrefix == (' ' in d.flags)
    ensures Asked(d).specifier == d.specifier
  {
    FlagsAsked(BLANK, d.flags);
    WithFlagsKeeps(BLANK, d.flags);
    hide WithFlags;
  }

  lemma WordsConverted(d: Directive, args: seq<Arg>)
    requires IsInteger(d.specifier)
    ensures Converted(d, args)
         == if IsSigned(d.specifier) then ToInt(ToWord(NumberOf(args))) else ToWord(NumberOf(args))
  {
  }

  /** An integer directive prints the number it converts. */
  lemma LogInteger(d: Directive, args: seq<Arg>)
    requires IsInteger(d.specifier)
    ensures var v := Converted(d, args);
      Handled(d, args) == SignFor(d, v < 0) + Plain(d, v)
  {
    hide Numeral, NumberText, Asked, SignFor;
    var v := Converted(d, args);
    SignsAsked(d);
    DigitsUsed(d.specifier);
    WordsConverted(d, args);
    NumberPrinted(d, Asked(d), v, DigitsOf(d.specifier));
  }

  // ----- what a directive prints for a given argument -----

  /** %d and %i: a sign, and the number in base 10. */
  lemma DecimalPrinted(d: Directive, v: int, rest: seq<Arg>) returns (digits: string)
    requires d.specifier == 'd' || d.specifier == 'i'
    requires -0x8000_0000 <= v < 0x8000_0000
    ensures Handled(d, [Number(v)] + rest)
         == (if v < 0 then "-" else if '+' in d.flags then "+" else if ' ' in d.flags then " " else "") + digits
    ensures Writes(digits, if v < 0 then -v else v, 10, "0123456789")
  {
    hide Handled, Numeral, Writes;
    var args := [Number(v)] + rest;
    assert args[0] == Number(v);
    assert Converted(d, args) == v;
    LogInteger(d, args);
    digits := Plain(d, v);
    NumeralWrites(if v < 0 then -v else v, "0123456789");
  }

  /** %u, %o, %x and %X: the number in base 10, 8 and 16, with a sign if one was asked for. */
  lemma UnsignedPrinted(d: Directive, v: nat, rest: seq<Arg>) returns (digits: string)
    requires d.specifier in {'u', 'o', 'x', 'X'} && v < 0x1_0000_0000
    ensures Handled(d, [Number(v)] + rest)
         == (if '+' in d.flags then "+" else if ' ' in d.flags then " " else "") + digits
    ensures d.specifier == 'u' ==> Writes(digits, v, 10, "0123456789")
    ensures d.specifier == 'o' ==> Writes(digits, v, 8, "01234567")
    ensures d.specifier == 'x' ==> Writes(digits, v, 16, "0123456789abcdef")
    ensures d.specifier == 'X' ==> Writes(digits, v, 16, "0123456789ABCDEF")
  {
    hide Handled, Numeral, Writes;
    var args := [Number(v)] + rest;
    assert args[0] == Number(v);
    assert Converted(d, args) == v;
    LogInteger(d, args);
    digits := Plain(d, v);
    NumeralWrites(v, DigitsOf(d.specifier));
  }

  /** %s: the text, or "(null)" for a null pointer, cut to the precision and padded to the width. */
  lemma StringPrinted(d: Directive, text: string, rest: seq<Arg>)
    requires d.specifier == 's'
    ensures Handled(d, [Text(text)] + rest) == CField(d, "", Shortened(d, text))
    ensures Handled(d, [NoText] + rest) == CField(d, "", Shortened(d, "(null)"))
    ensures d.width == 0 && d.precision.None? ==>
              Handled(d, [Text(text)] + rest) == text && Handled(d, [NoText] + rest) == "(null)"
  {
    hide StringText, CField;
    StringAsked(d, [Text(text)] + rest);
    StringAsked(d, [NoText] + rest);
    FieldOf(d, text);
    FieldOf(d, "(null)");
    assert "" + text == text && "" + "(null)" == "(null)";
  }

  lemma StringAsked(d: Directive, args: seq<Arg>)
    requires d.specifier == 's'
    ensures Handled(d, args) == StringText(TextOf(args), Asked(d))
    ensures Asked(d).width == d.width && Asked(d).hasPrecision == d.precision.Some?
    ensures d.precision.Some? ==> Asked(d).precision == d.precision.value
  {
    hide WithFlags, StringText;
  }

  lemma AlignmentAsked(d: Directive)
    ensures Asked(d).leftAlign == ('-' in d.flags)
  {
    AlignmentOf(BLANK, d.flags);
    hide WithFlags;
  }

  lemma {:induction false} AlignmentOf(spec: Spec, flags: string)
    ensures WithFlags(spec, flags).leftAlign == (spec.leftAlign || '-' in flags)
    decreases |flags|
  {
    hide SetFlag;
    if flags != "" {
      AlignmentFlag(spec, flags[0]);
      AlignmentOf(SetFlag(spec, flags[0]), flags[1..]);
      assert flags == [flags[0]] + flags[1..];
    }
  }

  lemma AlignmentFlag(spec: Spec, c: char)
    ensures SetFlag(spec, c).leftAlign == (spec.leftAlign || c == '-')
  {
  }

  lemma {:induction false} BlanksAre(n: int)
    ensures Spaces(n) == Copies(' ', n)
  {
    if n > 0 { BlanksAre(n - 1); }
  }

  /** Cut and padded, the text is C's field. */
  lemma FieldOf(d: Directive, text: string)
    requires d.specifier == 's'
    ensures StringText(text, Asked(d)) == CField(d, "", Shortened(d, text))
    ensures d.width == 0 && d.precision.None? ==> CField(d, "", Shortened(d, text)) == "" + text
  {
    hide Asked, Copies, Spaces;
    AlignmentAsked(d);
    StringAsked(d, []);
    ShownIs(text, Asked(d), d);
    var shown := Shortened(d, text);
    var blanks := Copies(' ', d.width - |shown|);
    BlanksAre(d.width - |shown|);
    assert "" + shown == shown;
    assert |blanks| == 0 ==> blanks + shown == shown && shown + blanks == shown;
  }

  lemma ShownIs(text: string, spec: Spec, d: Directive)
    requires spec.hasPrecision == d.precision.Some? && (d.precision.Some? ==> spec.precision == d.precision.value)
    ensures Shown(text, spec) == |Shortened(d, text)| && Upto(text, Shown(text, spec)) == Shortened(d, text)
  {
  }

  /** %c: the one character, whatever the width. */
  lemma CharacterPrinted(d: Directive, c: char, rest: seq<Arg>)
    requires d.specifier == 'c' && c as int < 256
    ensures Handled(d, [Number(c as int)] + rest) == [c]
  {
    hide WithFlags;
  }

  /** %p: "0x", a sign if one was asked for, and the address in base 16; no digits of an address of
      2^63 or more. */
  lemma PointerPrinted(d: Directive, address: nat, rest: seq<Arg>) returns (digits: string)
    requires d.specifier == 'p' && address < 0x1_0000_0000_0000_0000
    ensures Handled(d, [Pointer(address)] + rest)
         == "0x" + ((if '+' in d.flags then "+" else if ' ' in d.flags then " " else "") + digits)
    ensures if address < 0x8000_0000_0000_0000 then Writes(digits, address, 16, "0123456789abcdef") else digits == ""
  {
    hide Numeral, NumberText, Asked, Writes;
    var args := [Pointer(address)] + rest;
    SignsAsked(d);
    var a := AsLong(address);
    NumberPrinted(d, Asked(d), a, "0123456789abcdef");
    digits := if a < 0 then "" else Numeral(a, "0123456789abcdef");
    assert SignFor(d, false) + "" == SignFor(d, false);
    if a >= 0 { NumeralWrites(a, "0123456789abcdef"); }
  }

  /** %f, %g and %G: the integer part of a double in the range of int, rounded towards zero, in base
      10; of a negative one only the sign asked for. */
  lemma FloatPrinted(d: Directive, r: real, n: int, rest: seq<Arg>) returns (digits: string)
    requires d.specifier in {'f', 'g', 'G'} && -0x8000_0000 <= n < 0x8000_0000
    requires if r < 0.0 then n as real - 1.0 < r <= n as real else n as real <= r < n as real + 1.0
    ensures Handled(d, [Double(r)] + rest)
         == (if '+' in d.flags then "+" else if ' ' in d.flags then " " else "") + digits
    ensures if n < 0 then digits == "" else Writes(digits, n, 10, "0123456789")
  {
    hide Numeral, NumberText, Asked, Writes;
    SignsAsked(d);
    TowardsZero(r, n);
    DigitsUsed('f');
    NumberPrinted(d, Asked(d).(specifier := 'f'), n, "0123456789");
    assert d.specifier == 'f' ==> Asked(d).(specifier := 'f') == Asked(d);
    digits := if n < 0 then "" else Numeral(n, "0123456789");
    assert SignFor(d, false) + "" == SignFor(d, false);
    if n >= 0 { NumeralWrites(n, "0123456789"); }
  }

  lemma TowardsZero(r: real, n: int)
    requires -0x8000_0000 <= n < 0x8000_0000
    requires if r < 0.0 then n as real - 1.0 < r <= n as real else n as real <= r < n as real + 1.0
    ensures Truncated(r) == n
  {
    if r < 0.0 {
      assert (-r).Floor == -n;
    } else {
      assert r.Floor == n;
    }
  }

  // ----- which argument is whose -----

  /** A directive looks at one argument only, the next one. */
  lemma OneArgument(d: Directive, a: Arg, rest: seq<Arg>)
    ensures Handled(d, [a] + rest) == Handled(d, [a])
  {
    hide WithFlags, NumberText, StringText, Truncated, AsLong;
    assert ([a] + rest)[0] == a;
  }

  /** Directives that do not touch take the arguments in turn: what follows the first k of them starts
      with the k-th argument, counted from 0. */
  lemma {:induction false} ArgumentsInTurn(ps: seq<Piece>, args: seq<Arg>, k: nat)
    requires k <= |ps| && k <= |args| && forall i :: 0 <= i < k ==> ps[i].after != ""
    ensures Output(ps, args) == Output(ps[..k], args[..k]) + Output(ps[k..], args[k..])
    decreases k
  {
    hide Handled;
    if k == 0 {
      assert ps[k..] == ps && args[k..] == args && ps[..k] == [];
      assert "" + Output(ps, args) == Output(ps, args);
    } else {
      var ps', args' := ps[1..], args[1..];
      ArgumentsInTurn(ps', args', k - 1);
      assert ps[..k][1..] == ps'[..k - 1] && args[..k][1..] == args'[..k - 1];
      assert ps'[k - 1..] == ps[k..] && args'[k - 1..] == args[k..];
      var d := ps[0].directive;
      OneArgument(d, args[0], args[1..]);
      OneArgument(d, args[0], args[..k][1..]);
      assert args == [args[0]] + args[1..] && args[..k] == [args[0]] + args[..k][1..];
      Associated(Handled(d, args), ps[0].after[1..], Output(ps'[..k - 1], args'[..k - 1]), Output(ps[k..], args[k..]));
    }
  }

  lemma Associated(a: string, b: string, c: string, d: string)
    ensures a + (b + (c + d)) == (a + (b + c)) + d
  {
  }
}
