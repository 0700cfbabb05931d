/** What whole formats print: any number of directives with texts before, between and after them. */
module LogFormats {
  import opened IntegerMath
  import opened LogDirectives
  import opened LogSpec
  import opened Options

  /** A directive and the text that follows it. */
  datatype Piece = Piece(directive: Directive, after: string)

  /** A text as it is written in a format. */
  function Escape(t: string): string {
    if t == "" then "" else (if t[0] == '%' then "%%" else [t[0]]) + Escape(t[1..])
  }

  function Format(ps: seq<Piece>): string {
    if ps == [] then "" else Render(ps[0].directive) + (Escape(ps[0].after) + Format(ps[1..]))
  }

  /** No text after a directive starts with '%': the directive would swallow one of the two that
      stand for it. */
  predicate Tame(ps: seq<Piece>) {
    forall i :: 0 <= i < |ps| ==>
      WellFormed(ps[i].directive) && (ps[i].after == "" || ps[i].after[0] != '%')
  }

  function Handled(d: Directive, args: seq<Arg>): string {
    Fired(Asked(d), args).0
  }

  /** Every directive's text in its place, each with its own argument. */
  function Wanted(ps: seq<Piece>, args: seq<Arg>): string {
    if ps == [] then ""
    else Handled(ps[0].directive, args) + (ps[0].after + Wanted(ps[1..], Rest(args)))
  }

  /** What is printed. A directive takes the next character: the first of the text after it, or the
      '%' of a directive that touches it, whose body is then plain text and whose argument goes to
      the directive after. At the end of the format nothing comes of it. */
  function Output(ps: seq<Piece>, args: seq<Arg>): string
    decreases |ps|
  {
    if ps == [] then ""
    else if ps[0].after != "" then
      Handled(ps[0].directive, args) + (ps[0].after[1..] + Output(ps[1..], Rest(args)))
    else if |ps| == 1 then ""
    else
      Handled(ps[0].directive, args) +
      (Body(ps[1].directive) + (ps[1].after + Output(ps[2..], Rest(args))))
  }

  /** A directive without its '%'. */
  function Body(d: Directive): string {
    d.flags + Numbers(d)
  }

  // ----- texts -----

  lemma {:induction false} EscapedText(x: Ctx, t: string, rest: string)
    requires x.state == Normal
    ensures var y := Reached(x, Escape(t));
      && y.state == Normal && y.args == x.args
      && Emitted(x, Escape(t) + rest) == t + Emitted(y, rest)
    decreases |t|
  {
    if t == "" {
      assert "" + rest == rest;
    } else {
      var c := if t[0] == '%' then "%%" else [t[0]];
      assert Escape(t) == c + Escape(t[1..]);
      hide Emitted, Reached, Escape;
      OneCharacter(x, t[0]);
      var z := Reached(x, c);
      EmittedConcat(x, c, Escape(t[1..]) + rest);
      EmittedConcat(x, c, Escape(t[1..]));
      EscapedText(z, t[1..], rest);
      Regrouped(c, Escape(t[1..]), rest);
      Regrouped([t[0]], t[1..], Emitted(Reached(z, Escape(t[1..])), rest));
      assert [t[0]] + t[1..] == t;
    }
  }

  lemma Regrouped(a: string, b: string, c: string)
    ensures a + b + c == a + (b + c)
  {
  }

  lemma OneCharacter(x: Ctx, c: char)
    requires x.state == Normal
    ensures var s := if c == '%' then "%%" else [c];
      Emitted(x, s) == [c] && Reached(x, s).state == Normal && Reached(x, s).args == x.args
  {
    One(x, c);
    if c == '%' {
      hide Emitted, Reached;
      EmittedConcat(x, "%", "%");
      assert "%" + "%" == "%%" && "%" == ['%'];
      One(Reached(x, "%"), '%');
    }
  }

  lemma {:induction false} DigitsPlain(n: int, base: int, upper: bool)
    requires 2 <= base <= 16
    ensures '%' !in Positional(n, base, upper)
  {
    if n > 0 {
      Quotients(n, base);
      DigitsPlain(n / base, base, upper);
    }
  }

  lemma BodyPlain(d: Directive)
    requires WellFormed(d)
    ensures '%' !in Body(d) && Render(d) == ['%'] + Body(d)
  {
    hide Positional;
    DigitsPlain(d.width, 10, false);
    if d.precision.Some? { DigitsPlain(d.precision.value, 10, false); }
    assert forall i :: 0 <= i < |d.flags| ==> d.flags[i] != '%';
    assert forall i :: 0 <= i < |d.length| ==> d.length[i] != '%';
  }

  // ----- whole formats -----

  /** A directive followed by a character, in the middle of a format. */
  lemma Fires(x: Ctx, d: Directive, c: char, rest: string)
    requires x.state == Normal && WellFormed(d)
    ensures var y := Reached(x, Render(d) + [c]);
      && y.state == Normal && y.args == Rest(x.args)
      && Emitted(x, Render(d) + ([c] + rest)) == Handled(d, x.args) + Emitted(y, rest)
  {
    hide Render, Asked, Fired, Emitted, Reached;
    DirectiveFires(x, d, c, rest);
    assert Render(d) + [c] + rest == Render(d) + ([c] + rest);
  }

  lemma EscapeFirst(t: string, rest: string)
    requires t != "" && t[0] != '%'
    ensures Escape(t) + rest == [t[0]] + (Escape(t[1..]) + rest)
  {
  }

  /** The exact output of every tame format. */
  lemma {:induction false} PiecesOutput(x: Ctx, ps: seq<Piece>)
    requires x.state == Normal && Tame(ps)
    ensures Emitted(x, Format(ps)) == Output(ps, x.args)
    decreases |ps|
  {
    hide Emitted, Reached, Render, Handled, Escape, WellFormed, Body;
    if ps == [] {
      Nothing(x);
    } else {
      var d, t := ps[0].directive, ps[0].after;
      assert WellFormed(d);
      if t != "" {
        EscapeFirst(t, Format(ps[1..]));
        Fires(x, d, t[0], Escape(t[1..]) + Format(ps[1..]));
        var y := Reached(x, Render(d) + [t[0]]);
        EscapedText(y, t[1..], Format(ps[1..]));
        PiecesOutput(Reached(y, Escape(t[1..])), ps[1..]);
      } else if |ps| == 1 {
        EscapeNothing();
        assert Format(ps[1..]) == "";
        assert Render(d) + ("" + "") == Render(d);
        DirectiveRead(x, d);
        Silent(x, d);
      } else {
        TouchingOutput(x, ps);
        PiecesOutput(AfterTouching(x, ps), ps[2..]);
      }
    }
  }

  lemma EscapeNothing()
    ensures Escape("") == ""
  {
  }

  lemma Silent(x: Ctx, d: Directive)
    requires Arrives(x, Render(d), Asked(d))
    ensures Emitted(x, Render(d)) == ""
  {
  }

  /** The context once a directive, the one touching it and the text after that are through. */
  function AfterTouching(x: Ctx, ps: seq<Piece>): Ctx
    requires |ps| > 1
  {
    var y := Reached(x, Render(ps[0].directive) + ['%']);
    Reached(Reached(y, Body(ps[1].directive)), Escape(ps[1].after))
  }

  lemma TouchingOutput(x: Ctx, ps: seq<Piece>)
    requires x.state == Normal && Tame(ps) && |ps| > 1 && ps[0].after == ""
    ensures var z := AfterTouching(x, ps);
      && z.state == Normal && z.args == Rest(x.args)
      && Emitted(x, Format(ps)) == Handled(ps[0].directive, x.args) +
           (Body(ps[1].directive) + (ps[1].after + Emitted(z, Format(ps[2..]))))
  {
    hide Emitted, Reached, Render, Handled, Escape, WellFormed, Body;
    var d, e := ps[0].directive, ps[1].directive;
    assert WellFormed(d) && WellFormed(e);
    var tail := Escape(ps[1].after) + Format(ps[2..]);
    EscapeNothing();
    BodyPlain(e);
    assert ps[1..][1..] == ps[2..];
    assert Format(ps[1..]) == (['%'] + Body(e)) + tail == ['%'] + (Body(e) + tail);
    assert "" + Format(ps[1..]) == Format(ps[1..]);
    Fires(x, d, '%', Body(e) + tail);
    var y := Reached(x, Render(d) + ['%']);
    EmittedConcat(y, Body(e), tail);
    PlainText(y, Body(e));
    EscapedText(Reached(y, Body(e)), ps[1].after, Format(ps[2..]));
  }

  /** The same with a text in front. */
  lemma FormatOutput(x: Ctx, before: string, ps: seq<Piece>)
    requires x.state == Normal && Tame(ps)
    ensures Emitted(x, Escape(before) + Format(ps)) == before + Output(ps, x.args)
  {
    hide Emitted, Reached, Escape, Format, Output, Tame;
    EscapedText(x, before, Format(ps));
    PiecesOutput(Reached(x, Escape(before)), ps);
  }

  // ----- when every directive is printed -----

  /** Only the last directive may end the format; no other touches the next. */
  predicate Separated(ps: seq<Piece>) {
    forall i :: 0 <= i < |ps| - 1 ==> ps[i].after != ""
  }

  function LastText(ps: seq<Piece>, args: seq<Arg>): string {
    if ps == [] then ""
    else if |ps| == 1 then Handled(ps[0].directive, args)
    else LastText(ps[1..], Rest(args))
  }

  /** A character is missing for every directive, and all of the last one if it ends the format. */
  lemma {:induction false} Missing(ps: seq<Piece>, args: seq<Arg>)
    requires Separated(ps) && ps != []
    ensures |Output(ps, args)| + |ps| ==
      |Wanted(ps, args)| + (if ps[|ps| - 1].after == "" then 1 - |LastText(ps, args)| else 0)
    decreases |ps|
  {
    hide Handled;
    if |ps| > 1 {
      assert ps[1..][|ps| - 2] == ps[|ps| - 1];
      Missing(ps[1..], Rest(args));
    }
  }

  /** When a directive's handler prints nothing at all: an empty string without width, or a number
      that is negative under %f, %g or %G without a sign flag. */
  predicate PrintsNothing(d: Directive, args: seq<Arg>) {
    if d.specifier == 's' then d.width == 0 && (TextOf(args) == "" || d.precision == Some(0))
    else d.specifier in {'f', 'g', 'G'} && Truncated(DoubleOf(args)) < 0 && '+' !in d.flags && ' ' !in d.flags
  }

  lemma SignFlags(spec: Spec, c: char)
    ensures SetFlag(spec, c).showSign == (spec.showSign || c == '+')
    ensures SetFlag(spec, c).spacePrefix == (spec.spacePrefix || c == ' ')
  {
  }

  lemma {:induction false} FlagsAsked(spec: Spec, flags: string)
    ensures WithFlags(spec, flags).showSign == (spec.showSign || '+' in flags)
    ensures WithFlags(spec, flags).spacePrefix == (spec.spacePrefix || ' ' in flags)
    decreases |flags|
  {
    hide SetFlag;
    if flags != "" {
      SignFlags(spec, flags[0]);
      FlagsAsked(SetFlag(spec, flags[0]), flags[1..]);
      assert flags == [flags[0]] + flags[1..];
    }
  }

  lemma NothingPrinted(d: Directive, args: seq<Arg>)
    requires WellFormed(d)
    ensures Handled(d, args) == "" <==> PrintsNothing(d, args)
  {
    hide NumberText, Truncated, WithFlags, Positional;
    FlagsAsked(BLANK, d.flags);
    WithFlagsKeeps(BLANK, d.flags);
    var spec, word := Asked(d), ToWord(NumberOf(args));
    NoNumber(ToInt(word), spec);
    NoNumber(word, spec);
    NoNumber(Truncated(DoubleOf(args)), spec);
    NoNumber(Truncated(DoubleOf(args)), spec.(specifier := 'f'));
  }

  lemma NoNumber(num: int, spec: Spec)
    ensures NumberText(num, spec) == "" <==>
      num < 0 && !Negated(num, spec.specifier) && !spec.showSign && !spec.spacePrefix
  {
  }

  /** A format prints all its directives, each in its place with its own argument, exactly when it
      has none, or a single one that ends it and prints as nothing. */
  lemma AllPrintedIff(x: Ctx, before: string, ps: seq<Piece>)
    requires x.state == Normal && Tame(ps) && Separated(ps)
    ensures Emitted(x, Escape(before) + Format(ps)) == before + Wanted(ps, x.args)
      <==> ps == [] || (|ps| == 1 && ps[0].after == "" && PrintsNothing(ps[0].directive, x.args))
  {
    hide Emitted, Escape, Format, Handled, PrintsNothing, WellFormed;
    FormatOutput(x, before, ps);
    if ps != [] {
      Missing(ps, x.args);
      assert WellFormed(ps[0].directive);
      NothingPrinted(ps[0].directive, x.args);
      var n := |before|;
      assert (before + Output(ps, x.args))[n..] == Output(ps, x.args);
      assert (before + Wanted(ps, x.args))[n..] == Wanted(ps, x.args);
    }
  }

  /** Two directives that touch: the second is never read. All is printed as wanted exactly when
      what the second should print is its own body. */
  lemma TouchingIff(x: Ctx, d: Directive, e: Directive, after: string)
    requires x.state == Normal && WellFormed(d) && WellFormed(e) && (after == "" || after[0] != '%')
    ensures var ps := [Piece(d, ""), Piece(e, after)];
      && Emitted(x, Format(ps)) == Handled(d, x.args) + (Body(e) + after)
      && (Emitted(x, Format(ps)) == Wanted(ps, x.args) <==> Handled(e, Rest(x.args)) == Body(e))
  {
    hide Emitted, Format, Handled, Body, WellFormed;
    var ps := [Piece(d, ""), Piece(e, after)];
    PiecesOutput(x, ps);
    var h, w := Handled(d, x.args), Handled(e, Rest(x.args));
    assert ps[2..] == [] && ps[1..] == [Piece(e, after)] && ps[1..][1..] == [];
    assert after + "" == after && "" + (w + after) == w + after;
    assert Output(ps, x.args) == h + (Body(e) + after);
    WantedPair(d, e, after, x.args);
    Cancel(h, w, Body(e), after);
  }

  lemma WantedPair(d: Directive, e: Directive, after: string, args: seq<Arg>)
    ensures Wanted([Piece(d, ""), Piece(e, after)], args) == Handled(d, args) + (Handled(e, Rest(args)) + after)
  {
    hide Handled;
    var ps := [Piece(d, ""), Piece(e, after)];
    assert ps[1..] == [Piece(e, after)] && ps[1..][1..] == [];
    assert Wanted(ps[1..], Rest(args)) == Handled(e, Rest(args)) + (after + Wanted([], Rest(Rest(args))));
    assert after + "" == after;
    assert "" + (Handled(e, Rest(args)) + after) == Handled(e, Rest(args)) + after;
  }

  lemma Cancel(h: string, u: string, v: string, after: string)
    ensures h + (u + after) == h + (v + after) <==> u == v
  {
    if h + (u + after) == h + (v + after) {
      assert (h + (u + after))[|h|..] == u + after && (h + (v + after))[|h|..] == v + after;
      assert |u| == |v|;
      assert (u + after)[..|u|] == u && (v + after)[..|v|] == v;
    }
  }
}
