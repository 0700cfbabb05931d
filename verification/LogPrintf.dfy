/** The log's directives against C's: exactly when the log prints what fprintf does. */
module LogPrintf {
  import opened Arithmetic
  import opened CPrintf
  import opened IntegerMath
  import opened LogDirectives
  import opened LogFormats
  import opened LogSpec
  import opened LogValues
  import opened Options

  /** The directives compared. */
  predicate Comparable(d: Directive) {
    WellFormed(d) && d.length == "" && (IsInteger(d.specifier) || d.specifier in {'s', 'c'})
  }

  // ----- strings and characters -----

  /** Strings are printed as in C. */
  lemma StringsAsInC(d: Directive, args: seq<Arg>)
    requires Comparable(d) && d.specifier == 's'
    ensures Handled(d, args) == CText(d, args)
  {
    hide Handled, Asked, CField, StringText, Shortened;
    StringAsked(d, args);
    SameString(args);
    FieldOf(d, StringArgument(args));
  }

  lemma SameString(args: seq<Arg>)
    ensures TextOf(args) == StringArgument(args)
  {
  }

  /** Characters too, unless a width asks for blanks. */
  lemma CharactersAsInC(d: Directive, args: seq<Arg>)
    requires Comparable(d) && d.specifier == 'c'
    ensures Handled(d, args) == CText(d, args) <==> d.width <= 1
  {
    hide Copies;
    assert "" + [(IntArgument(args) % 256) as char] == [(IntArgument(args) % 256) as char];
  }

  // ----- integers -----

  /** The log's sign, which unsigned conversions get as well. */
  function LogSign(d: Directive, value: int): string {
    SignFor(d, value < 0)
  }

  /** Digits are not signs, and only zero starts with a zero. */
  lemma PlainShape(d: Directive, value: int)
    ensures var s := Plain(d, value);
      && s != "" && (forall k :: 0 <= k < |s| ==> s[k] != ' ' && s[k] != '+' && s[k] != '-')
      && (value == 0 ==> s == "0") && (value != 0 ==> s[0] != '0')
  {
    hide Numeral;
    NumeralWrites(if value < 0 then -value else value, DigitsOf(d.specifier));
  }

  /** Precision and '#' leave the digits as the log prints them. */
  predicate DigitsAgree(d: Directive, value: int) {
    && (d.precision.Some? ==> d.precision.value <= |Plain(d, value)| && !ZeroDropped(d, value))
    && ('#' in d.flags && d.specifier in {'x', 'X', 'o'} ==> value == 0)
  }

  /** C prints no digits at all: the number and the precision are zero. */
  predicate ZeroDropped(d: Directive, value: int) {
    d.precision == Some(0) && value == 0 && !(d.specifier == 'o' && '#' in d.flags)
  }

  /** The sign where C and the log agree on it. */
  function CommonSign(d: Directive, value: int): string {
    if IsSigned(d.specifier) then LogSign(d, value) else ""
  }

  /** Where the digits do not agree, C has none, or a head or a leading zero more than the log. */
  lemma DigitsCompared(d: Directive, value: int)
    requires Comparable(d) && IsInteger(d.specifier) && (IsSigned(d.specifier) || value >= 0)
    ensures var head, digits, plain, sign := CHead(d, value), CDigits(d, value), Plain(d, value), CommonSign(d, value);
      && (DigitsAgree(d, value) ==> head == sign && digits == plain)
      && (ZeroDropped(d, value) ==> head == sign && digits == "")
      && (!DigitsAgree(d, value) && !ZeroDropped(d, value) ==>
            |digits| >= |plain| &&
            ((|head| >= 2 && sign == "") || (head == sign && |digits| > |plain| && digits[0] == '0')))
  {
    PlainShape(d, value);
    hide Numeral;
  }

  /** The log prints an integer as C does. The last case is an unsigned number with a blank for a
      sign, where C pads with one. */
  predicate Fits(d: Directive, value: int) {
    var plain := |Plain(d, value)|;
    && DigitsAgree(d, value)
    && if IsSigned(d.specifier) || ('+' !in d.flags && ' ' !in d.flags)
       then d.width <= |CommonSign(d, value)| + plain
       else '+' !in d.flags && '-' !in d.flags && d.width == plain + 1 && !('0' in d.flags && d.precision.None?)
  }

  lemma NoZeroInField(d: Directive, head: string)
    requires d.precision.Some? && '0' !in head
    ensures '0' !in CField(d, head, "")
  {
    hide Copies;
    assert head + "" == head;
  }

  /** Signed numbers: exactly when neither width nor precision asks for more characters, and zero
      has not precision zero. */
  lemma SignedAsInC(d: Directive, value: int)
    requires Comparable(d) && IsSigned(d.specifier)
    ensures LogSign(d, value) + Plain(d, value) == CField(d, CHead(d, value), CDigits(d, value)) <==> Fits(d, value)
  {
    var head, digits, plain, sign := CHead(d, value), CDigits(d, value), Plain(d, value), LogSign(d, value);
    PlainShape(d, value);
    DigitsCompared(d, value);
    if ZeroDropped(d, value) {
      NoZeroInField(d, head);
      assert (sign + plain)[|sign|] == '0';
    }
    hide CHead, CDigits, Plain, CField;
  }

  /** A blank in front of the digits is what a width one larger gives. */
  lemma BlankInFront(d: Directive, plain: string)
    requires Comparable(d) && IsInteger(d.specifier) && plain != "" && plain[0] != ' ' && d.width == |plain| + 1
    ensures CField(d, "", plain) == " " + plain <==> '-' !in d.flags && !('0' in d.flags && d.precision.None?)
  {
    assert Copies(' ', 1) == " " && Copies('0', 1) == "0";
    assert "" + plain == plain;
    var field := CField(d, "", plain);
    if '-' in d.flags {
      assert field[0] == plain[0];
    } else if '0' in d.flags && d.precision.None? {
      assert field[0] == '0';
    }
    assert (" " + plain)[0] == ' ';
  }

  lemma UnsignedAsInC(d: Directive, value: int)
    requires Comparable(d) && IsInteger(d.specifier) && !IsSigned(d.specifier) && value >= 0
    ensures LogSign(d, value) + Plain(d, value) == CField(d, CHead(d, value), CDigits(d, value)) <==> Fits(d, value)
  {
    var head, digits, plain, sign := CHead(d, value), CDigits(d, value), Plain(d, value), LogSign(d, value);
    var field := CField(d, head, digits);
    PlainShape(d, value);
    DigitsCompared(d, value);
    if ZeroDropped(d, value) {
      NoZeroInField(d, head);
      assert (sign + plain)[|sign|] == '0';
    } else if sign == "" {
      assert "" + plain == plain;
    } else {
      UnsignedWithSign(d, value, head, digits);
    }
  }

  /** The log puts a sign where C has none. */
  lemma UnsignedWithSign(d: Directive, value: int, head: string, digits: string)
    requires Comparable(d) && IsInteger(d.specifier) && !IsSigned(d.specifier) && value >= 0
    requires LogSign(d, value) != "" && !ZeroDropped(d, value)
    requires head == CHead(d, value) && digits == CDigits(d, value)
    ensures LogSign(d, value) + Plain(d, value) == CField(d, head, digits) <==> Fits(d, value)
  {
    var plain, sign, field := Plain(d, value), LogSign(d, value), CField(d, head, digits);
    PlainShape(d, value);
    DigitsCompared(d, value);
    assert sign == ['+'] || sign == [' '];
    assert (sign + plain)[0] == sign[0];
    if DigitsAgree(d, value) {
      assert head == "" && digits == plain;
      if d.width == |plain| + 1 {
        BlankInFront(d, plain);
        if sign == "+" { FieldStart(d, plain); }
      } else {
        assert |field| != |plain| + 1;
      }
    } else if |head| < 2 {
      assert head == "" && |digits| > |plain| && digits[0] == '0';
      if |field| == |plain| + 1 {
        assert field == "" + digits && field[0] == '0';
      }
    }
  }

  lemma FieldStart(d: Directive, plain: string)
    requires plain != "" && plain[0] != '+'
    ensures CField(d, "", plain) != "" && CField(d, "", plain)[0] != '+'
  {
    hide Copies;
    assert "" + plain == plain;
    var missing := d.width - |plain|;
    assert forall i :: 0 <= i < |Copies('0', missing)| ==> Copies('0', missing)[i] == '0';
  }

  /** An integer directive prints as in C exactly when it fits. */
  lemma IntegersAsInC(d: Directive, args: seq<Arg>)
    requires Comparable(d) && IsInteger(d.specifier)
    ensures Handled(d, args) == CText(d, args) <==> Fits(d, Converted(d, args))
  {
    hide Handled, CField, CHead, CDigits, Plain, Fits, SignFor;
    LogInteger(d, args);
    if IsSigned(d.specifier) {
      SignedAsInC(d, Converted(d, args));
    } else {
      UnsignedAsInC(d, Converted(d, args));
    }
  }

  // ----- a directive in a format -----

  /** C prints nothing for the directive. */
  predicate NothingInC(d: Directive, args: seq<Arg>) {
    if d.specifier == 's' then d.width == 0 && (StringArgument(args) == "" || d.precision == Some(0))
    else
      && IsInteger(d.specifier) && d.width == 0 && ZeroDropped(d, Converted(d, args))
      && (IsSigned(d.specifier) ==> '+' !in d.flags && ' ' !in d.flags)
  }

  /** The log prints the zero that C drops, and swallows a zero that C prints. */
  predicate ZeroForZero(d: Directive, args: seq<Arg>, next: char) {
    && IsInteger(d.specifier) && ZeroDropped(d, Converted(d, args)) && next == '0'
    && if IsSigned(d.specifier) then d.width <= |LogSign(d, 0)|
       else '+' !in d.flags && d.width == if ' ' in d.flags then 1 else 0
  }

  lemma NothingInCIff(d: Directive, args: seq<Arg>)
    requires Comparable(d)
    ensures CText(d, args) == "" <==> NothingInC(d, args)
  {
    hide Copies;
    if IsInteger(d.specifier) {
      var v := Converted(d, args);
      PlainShape(d, v);
      DigitsCompared(d, v);
      hide CDigits, Plain;
    }
  }

  lemma DroppedField(d: Directive, sign: string)
    requires Comparable(d) && d.precision == Some(0) && |sign| <= 1
    ensures CField(d, sign, "") == sign <==> d.width <= |sign|
    ensures CField(d, "", "") == " " <==> d.width == 1
    ensures CField(d, "", "") != "+"
  {
    assert Copies(' ', 1) == " ";
    hide Copies;
    assert sign + "" == sign && "" + "" == "";
    assert Copies(' ', d.width) + ("" + "") == Copies(' ', d.width) && "" + "" + Copies(' ', d.width) == Copies(' ', d.width);
  }

  lemma ZeroForZeroIff(d: Directive, args: seq<Arg>, next: char)
    requires Comparable(d) && IsInteger(d.specifier)
    ensures Handled(d, args) == CText(d, args) + [next] <==> ZeroForZero(d, args, next)
  {
    var v := Converted(d, args);
    LogInteger(d, args);
    PlainShape(d, v);
    DigitsCompared(d, v);
    var sign, plain, field := LogSign(d, v), Plain(d, v), CText(d, args);
    assert field == CField(d, CHead(d, v), CDigits(d, v));
    if ZeroDropped(d, v) {
      DroppedField(d, sign);
      assert plain == "0" && plain == ['0'];
      hide Handled, CField, CHead, CDigits, Plain, CText;
      LastCharacter(sign, '0', field, next);
    } else {
      hide Handled, CHead, CDigits, Plain, CText;
      assert (field + [next])[0] == field[0];
      assert sign != "" ==> (sign + plain)[0] == sign[0];
    }
  }

  lemma LastCharacter(a: string, c: char, b: string, e: char)
    ensures a + [c] == b + [e] <==> a == b && c == e
  {
    if a + [c] == b + [e] {
      assert (a + [c])[..|a|] == a && (b + [e])[..|b|] == b;
      assert (a + [c])[|a|] == c && (b + [e])[|b|] == e;
    }
  }

  /** A text, a directive and a text come out as from C's printf exactly when the directive ends the
      format and C prints nothing for it, or the zero lost is the zero won. */
  lemma LikePrintf(x: Ctx, before: string, d: Directive, after: string)
    requires x.state == Normal && Comparable(d) && (after == "" || after[0] != '%')
    ensures Emitted(x, Escape(before) + Format([Piece(d, after)])) == before + (CText(d, x.args) + after)
      <==> if after == "" then NothingInC(d, x.args) else ZeroForZero(d, x.args, after[0])
  {
    hide Emitted, Escape, Format, Handled, CText, NothingInC, ZeroForZero, Comparable;
    var ps := [Piece(d, after)];
    assert WellFormed(d) by { ComparableParts(d); }
    FormatOutput(x, before, ps);
    NothingInCIff(d, x.args);
    var h, c := Handled(d, x.args), CText(d, x.args);
    assert ps[1..] == [];
    Prefixed(before, Output(ps, x.args), c + after);
    if after != "" {
      assert after[1..] + "" == after[1..];
      assert Output(ps, x.args) == h + after[1..];
      assert c + after == (c + [after[0]]) + after[1..];
      Suffixed(h, c + [after[0]], after[1..]);
      NotSwallowed(d, x.args, after[0]);
    } else {
      assert c + "" == c;
    }
  }

  lemma ComparableParts(d: Directive)
    requires Comparable(d)
    ensures WellFormed(d) && (IsInteger(d.specifier) || d.specifier == 's' || d.specifier == 'c')
  {
  }

  /** What the log prints is never C's text and the next character, except for a zero. */
  lemma NotSwallowed(d: Directive, args: seq<Arg>, next: char)
    requires Comparable(d)
    ensures Handled(d, args) == CText(d, args) + [next] <==> ZeroForZero(d, args, next)
  {
    if IsInteger(d.specifier) {
      ZeroForZeroIff(d, args, next);
    } else if d.specifier == 's' {
      hide CText, Handled;
      StringsAsInC(d, args);
      assert |CText(d, args) + [next]| == |CText(d, args)| + 1;
    } else {
      assert |CText(d, args)| >= 1;
      assert |CText(d, args) + [next]| >= 2 && |Handled(d, args)| == 1;
    }
  }

  lemma Prefixed(p: string, a: string, b: string)
    ensures p + a == p + b <==> a == b
  {
    if p + a == p + b { assert (p + a)[|p|..] == a && (p + b)[|p|..] == b; }
  }

  lemma Suffixed(a: string, b: string, s: string)
    ensures a + s == b + s <==> a == b
  {
    if a + s == b + s {
      assert |a| == |b|;
      assert (a + s)[..|a|] == a && (b + s)[..|b|] == b;
    }
  }
}
