/** How the automaton reads a directive, and what becomes of the character after it. */
module LogDirectives {
  import opened IntegerMath
  import opened LogSpec
  import opened Options

  // ----- plain text -----

  /** Text without '%' is printed as it is. */
  lemma {:induction false} PlainText(x: Ctx, t: string)
    requires x.state == Normal && '%' !in t
    ensures Emitted(x, t) == t && Reached(x, t) == x
  {
    if t != "" {
      PlainText(x, t[1..]);
      assert t == [t[0]] + t[1..];
    }
  }

  // ----- directives -----

  /** %[flags][width][.precision][length]specifier; a width of 0 is none. */
  datatype Directive = Directive(flags: string, width: nat, precision: Option<nat>, length: string, specifier: char)

  predicate WellFormed(d: Directive) {
    && (forall i :: 0 <= i < |d.flags| ==> d.flags[i] in {'-', '+', ' ', '#', '0'})
    && (forall i :: 0 <= i < |d.length| ==> d.length[i] in {'h', 'l', 'L'})
    && d.specifier in {'d', 'i', 'u', 'o', 'x', 'X', 'c', 's', 'p', 'f', 'g', 'G'}
  }

  function Ending(d: Directive): string {
    d.length + [d.specifier]
  }

  function PrecisionPart(d: Directive): string {
    if d.precision.Some? then "." + (Positional(d.precision.value, 10, false) + Ending(d)) else Ending(d)
  }

  function Numbers(d: Directive): string {
    Positional(d.width, 10, false) + PrecisionPart(d)
  }

  function Render(d: Directive): string {
    "%" + (d.flags + Numbers(d))
  }

  function WithFlags(spec: Spec, flags: string): Spec
    decreases |flags|
  {
    if flags == "" then spec else WithFlags(SetFlag(spec, flags[0]), flags[1..])
  }

  /** The record a directive asks for. */
  function Asked(d: Directive): Spec {
    var f := WithFlags(BLANK, d.flags);
    f.(width := d.width,
       precision := if d.precision.Some? then d.precision.value else 0,
       hasPrecision := d.precision.Some?,
       lengthMod := if d.length == "" then '\0' else d.length[|d.length| - 1],
       specifier := d.specifier)
  }

  /** Between the '%' and the specifier. */
  predicate Reading(s: State) {
    s.Percent? || s.Flags? || s.Width? || s.Precision? || s.Length?
  }

  /** The record once a number being read is put in its place. */
  function Settled(x: Ctx): Spec {
    if x.state.Width? then x.spec.(width := x.tempNum)
    else if x.state.Precision? then x.spec.(precision := x.tempNum)
    else x.spec
  }

  lemma ReadsOn(x: Ctx, c: char)
    requires Reading(x.state)
    ensures c == '.' ==>
      Transition(x, c) == (x.(spec := Settled(x).(hasPrecision := true), tempNum := 0, state := Precision), "")
    ensures IsLength(c) ==> Transition(x, c) == (x.(spec := Settled(x).(lengthMod := c), state := Length), "")
    ensures IsSpecifier(c) ==> Transition(x, c) == (x.(spec := Settled(x).(specifier := c), state := Specifier), "")
  {
  }

  lemma One(x: Ctx, c: char)
    ensures Emitted(x, [c]) == Transition(x, c).1 && Reached(x, [c]) == Transition(x, c).0
  {
    assert [c][1..] == "";
    assert Transition(x, c).1 + "" == Transition(x, c).1;
  }

  lemma {:induction false} ReadFlags(x: Ctx, flags: string)
    requires (x.state.Percent? || x.state.Flags?) && forall i :: 0 <= i < |flags| ==> IsFlag(flags[i])
    ensures Emitted(x, flags) == ""
    ensures Reached(x, flags) == x.(spec := WithFlags(x.spec, flags), state := if flags == "" then x.state else Flags)
    decreases |flags|
  {
    if flags != "" {
      ReadFlags(x.(spec := SetFlag(x.spec, flags[0]), state := Flags), flags[1..]);
    }
  }

  lemma LastDigit(n: nat)
    requires n > 0
    ensures var s := Positional(n, 10, false);
      && s == Positional(n / 10, 10, false) + [s[|s| - 1]]
      && IsDigit(s[|s| - 1]) && DigitValue(s[|s| - 1]) == n % 10 && (n < 10 ==> s[|s| - 1] != '0')
  {
    DigitRoundTrip(n % 10, false);
  }

  lemma {:induction false} ReadWidth(x: Ctx, n: nat)
    requires (x.state.Percent? || x.state.Flags?) && n > 0
    ensures var s := Positional(n, 10, false);
      Emitted(x, s) == "" && Reached(x, s) == x.(state := Width, tempNum := n)
  {
    LastDigit(n);
    hide Positional, Emitted, Reached;
    var s := Positional(n, 10, false);
    var front, c := Positional(n / 10, 10, false), s[|s| - 1];
    EmittedConcat(x, front, [c]);
    if n < 10 {
      assert front == "" && Reached(x, "") == x && Emitted(x, "") == "" by { Nothing(x); }
      One(x, c);
    } else {
      ReadWidth(x, n / 10);
      One(x.(state := Width, tempNum := n / 10), c);
    }
  }

  lemma Nothing(x: Ctx)
    ensures Emitted(x, "") == "" && Reached(x, "") == x && Positional(0, 10, false) == ""
  {
  }

  lemma {:induction false} ReadPrecision(x: Ctx, n: nat)
    requires x.state.Precision? && x.tempNum == 0
    ensures var s := Positional(n, 10, false);
      Emitted(x, s) == "" && Reached(x, s) == x.(tempNum := n)
  {
    if n == 0 {
      Nothing(x);
    } else {
      LastDigit(n);
      hide Positional, Emitted, Reached;
      var s := Positional(n, 10, false);
      var front, c := Positional(n / 10, 10, false), s[|s| - 1];
      EmittedConcat(x, front, [c]);
      ReadPrecision(x, n / 10);
      One(x.(tempNum := n / 10), c);
    }
  }

  /** Length modifiers and the specifier: the last modifier stays. */
  lemma {:induction false} ReadEnd(x: Ctx, length: string, c: char)
    requires Reading(x.state) && IsSpecifier(c) && forall i :: 0 <= i < |length| ==> IsLength(length[i])
    ensures Emitted(x, length + [c]) == ""
    ensures var y := Reached(x, length + [c]);
      && y.state == Specifier && y.args == x.args
      && y.spec == Settled(x).(lengthMod := if length == "" then x.spec.lengthMod else length[|length| - 1], specifier := c)
    decreases |length|
  {
    hide Transition;
    if length == "" {
      ReadsOn(x, c);
      assert length + [c] == [c];
      One(x, c);
    } else {
      ReadsOn(x, length[0]);
      ReadEnd(Transition(x, length[0]).0, length[1..], c);
      assert (length + [c])[1..] == length[1..] + [c];
    }
  }

  /** Flags only set flags. */
  predicate SameNumbers(s: Spec, t: Spec) {
    && s.width == t.width && s.precision == t.precision && s.hasPrecision == t.hasPrecision
    && s.lengthMod == t.lengthMod && s.specifier == t.specifier
  }

  lemma SetFlagKeeps(spec: Spec, c: char)
    ensures SameNumbers(spec, SetFlag(spec, c))
  {
  }

  lemma {:induction false} WithFlagsKeeps(spec: Spec, flags: string)
    ensures SameNumbers(spec, WithFlags(spec, flags))
    decreases |flags|
  {
    hide SetFlag;
    if flags != "" {
      SetFlagKeeps(spec, flags[0]);
      WithFlagsKeeps(SetFlag(spec, flags[0]), flags[1..]);
    }
  }

  /** The record and arguments a directive leads to. */
  predicate Arrives(x: Ctx, part: string, spec: Spec) {
    Emitted(x, part) == "" && Reached(x, part).state == Specifier
    && Reached(x, part).spec == spec && Reached(x, part).args == x.args
  }

  lemma ReadEnding(x: Ctx, d: Directive)
    requires WellFormed(d) && Reading(x.state)
    ensures Arrives(x, Ending(d),
      Settled(x).(lengthMod := if d.length == "" then x.spec.lengthMod else d.length[|d.length| - 1],
                  specifier := d.specifier))
  {
    hide Emitted, Reached;
    ReadEnd(x, d.length, d.specifier);
  }

  lemma ArrivesThrough(x: Ctx, f: string, g: string, y: Ctx, spec: Spec)
    requires Emitted(x, f) == "" && Reached(x, f) == y && y.args == x.args && Arrives(y, g, spec)
    ensures Arrives(x, f + g, spec)
  {
    hide Emitted, Reached;
    EmittedConcat(x, f, g);
  }

  lemma ReadPrecisionPart(x: Ctx, d: Directive)
    requires WellFormed(d) && Reading(x.state) && x.state != Precision
    requires Settled(x) == WithFlags(BLANK, d.flags).(width := d.width) && x.spec.lengthMod == '\0'
    ensures Arrives(x, PrecisionPart(d), Asked(d))
  {
    hide Positional, Emitted, Reached, Transition, WithFlags, Arrives, Ending;
    WithFlagsKeeps(BLANK, d.flags);
    if d.precision.Some? {
      var p := Positional(d.precision.value, 10, false);
      ReadsOn(x, '.');
      One(x, '.');
      var x1 := Transition(x, '.').0;
      ReadPrecision(x1, d.precision.value);
      var x2 := x1.(tempNum := d.precision.value);
      ReadEnding(x2, d);
      ArrivesThrough(x1, p, Ending(d), x2, Asked(d));
      ArrivesThrough(x, ".", p + Ending(d), x1, Asked(d));
    } else {
      ReadEnding(x, d);
    }
  }

  lemma ReadNumbers(x: Ctx, d: Directive)
    requires WellFormed(d) && (x.state.Percent? || x.state.Flags?)
    requires x.spec == WithFlags(BLANK, d.flags)
    ensures Arrives(x, Numbers(d), Asked(d))
  {
    hide Positional, Emitted, Reached, Transition, WithFlags, Arrives, PrecisionPart, Asked;
    WithFlagsKeeps(BLANK, d.flags);
    Nothing(x);
    var y := x;
    if d.width > 0 {
      ReadWidth(x, d.width);
      y := x.(state := Width, tempNum := d.width);
    }
    ReadPrecisionPart(y, d);
    ArrivesThrough(x, Positional(d.width, 10, false), PrecisionPart(d), y, Asked(d));
  }

  /** Reading inverts rendering: whatever its flags, width, precision and length, a directive is
      read silently into exactly the record it asks for. */
  lemma DirectiveRead(x: Ctx, d: Directive)
    requires x.state == Normal && WellFormed(d)
    ensures Arrives(x, Render(d), Asked(d))
  {
    var x1 := x.(spec := BLANK, state := Percent);
    One(x, '%');
    assert Transition(x, '%') == (x1, "") && ['%'] == "%";
    hide Emitted, Reached, Positional, Transition, Arrives, Numbers, Asked;
    ReadFlags(x1, d.flags);
    var x2 := Reached(x1, d.flags);
    ReadNumbers(x2, d);
    ArrivesThrough(x1, d.flags, Numbers(d), x2, Asked(d));
    ArrivesThrough(x, "%", d.flags + Numbers(d), x1, Asked(d));
  }

  // ----- firing -----

  /** A directive fires on the character after it and swallows that character. */
  lemma DirectiveFires(x: Ctx, d: Directive, c: char, rest: string)
    requires x.state == Normal && WellFormed(d)
    ensures var y := Reached(x, Render(d) + [c]);
      && y.state == Normal && y.args == Rest(x.args)
      && Emitted(x, Render(d) + [c] + rest) == Fired(Asked(d), x.args).0 + Emitted(y, rest)
  {
    hide Render, Asked, Fired, Emitted, Reached, IsSpecifier;
    DirectiveRead(x, d);
    AskedSpecifier(d);
    var y := Reached(x, Render(d));
    EmittedConcat(x, Render(d), [c]);
    EmittedConcat(x, Render(d) + [c], rest);
    One(y, c);
  }

  lemma AskedSpecifier(d: Directive)
    ensures Asked(d).specifier == d.specifier && (WellFormed(d) ==> IsSpecifier(d.specifier))
  {
  }

  /** A character that belongs in no directive ends the one being read: what was read of it is dropped,
      with that character, and no argument is taken. */
  lemma DirectiveAbandoned(x: Ctx, flags: string, c: char, rest: string)
    requires x.state == Normal && forall i :: 0 <= i < |flags| ==> flags[i] in {'-', '+', ' ', '#', '0'}
    requires c !in {'-', '+', ' ', '#', '%', '.', 'h', 'l', 'L'} && !('0' <= c <= '9')
    requires c !in {'d', 'i', 'u', 'o', 'x', 'X', 'c', 's', 'p', 'f', 'g', 'G'}
    ensures var dropped := "%" + (flags + [c]);
      && Reached(x, dropped).state == Normal && Reached(x, dropped).args == x.args
      && Emitted(x, dropped + rest) == Emitted(Reached(x, dropped), rest)
  {
    One(x, '%');
    assert ['%'] == "%";
    hide Emitted, Reached;
    var x1 := Reached(x, "%");
    ReadFlags(x1, flags);
    var x2 := Reached(x1, flags);
    One(x2, c);
    EmittedConcat(x1, flags, [c]);
    EmittedConcat(x, "%", flags + [c]);
    EmittedConcat(x, "%" + (flags + [c]), rest);
  }
}
