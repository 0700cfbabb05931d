/** The log's formatter over its 1024-byte buffer: whatever is printed, the buffer ends with the
    first 1023 characters of what unlimited room would have received. */
module Log {
  import opened Arithmetic
  import opened IntegerMath
  import opened LogSpec

  const LIMIT := 1023

  /** As much as the buffer takes. */
  function Cap(s: string): (t: string)
    ensures |t| <= LIMIT && t <= s
  {
    if |s| > LIMIT then s[..LIMIT] else s
  }

  lemma CapAppend(s: string, t: string)
    ensures Cap(Cap(s) + t) == Cap(s + t)
    ensures |s| >= LIMIT ==> Cap(s + t) == Cap(s)
  {
  }

  lemma CapTwice(s: string, t: string, u: string)
    ensures Cap(Cap(s + t) + u) == Cap(s + (t + u))
  {
    CapAppend(s + t, u);
    assert s + (t + u) == (s + t) + u;
  }

  /** The bounded automaton, which stops once the buffer is full. */
  function Bounded(x: Ctx, fmt: string, out: string): string
    decreases |fmt|
  {
    if fmt == "" || |out| >= LIMIT then out
    else
      var (y, text) := Transition(x, fmt[0]);
      Bounded(y, fmt[1..], Cap(out + text))
  }

  /** Stopping early loses nothing: the bounded run is the unlimited one cut to the buffer. */
  lemma {:induction false} BoundedIsCut(x: Ctx, fmt: string, out: string)
    requires |out| <= LIMIT
    ensures Bounded(x, fmt, out) == Cap(out + Emitted(x, fmt))
    decreases |fmt|
  {
    hide Transition, Cap;
    CapAppend(out, Emitted(x, fmt));
    assert Cap(out) == out by { CapShort(out); }
    if fmt == "" {
      assert out + "" == out;
    } else if |out| < LIMIT {
      var (y, text) := Transition(x, fmt[0]);
      BoundedIsCut(y, fmt[1..], Cap(out + text));
      CapTwice(out, text, Emitted(y, fmt[1..]));
    }
  }

  lemma CapShort(s: string)
    requires |s| <= LIMIT
    ensures Cap(s) == s
  {
  }

  function Reversed(s: string): (r: string)
    ensures |r| == |s|
  {
    if s == "" then "" else Reversed(s[1..]) + [s[0]]
  }

  lemma {:induction false} ReversedAt(s: string, k: nat)
    requires k < |s|
    ensures Reversed(s)[k] == s[|s| - 1 - k]
  {
    if k < |s| - 1 { ReversedAt(s[1..], k); }
  }

  lemma {:induction false} ReversedSnoc(s: string, c: char)
    ensures Reversed(s + [c]) == [c] + Reversed(s)
  {
    if s == "" {
      assert s + [c] == [c] && [c][1..] == "";
    } else {
      assert (s + [c])[1..] == s[1..] + [c];
      ReversedSnoc(s[1..], c);
    }
  }

  /** Numbers of up to 64 bits need at most 22 digits. */
  lemma {:induction false} DigitsFit(n: int, base: int, upper: bool, w: nat)
    requires 8 <= base <= 16 && n < Power8(w)
    ensures |Positional(n, base, upper)| <= w
    decreases w
  {
    if n > 0 && w > 0 {
      EighthFits(n, base, w);
      DigitsFit(n / base, base, upper, w - 1);
    }
  }

  function Power8(w: nat): (p: nat)
    ensures p >= 1
  {
    if w == 0 then 1 else 8 * Power8(w - 1)
  }

  lemma EighthFits(n: nat, base: int, w: nat)
    requires n > 0 && 8 <= base <= 16 && w > 0 && n < Power8(w)
    ensures n / base < Power8(w - 1)
  {
    var p, q := Power8(w - 1), n / base;
    Quotients(n, base);
    MultiplyOrder(8, base, q);
    assert 8 * q <= n;
  }

  lemma LongFits()
    ensures LONG <= Power8(22)
  {
    assert Power8(5) == 0x8000;
    assert Power8(10) == 0x4000_0000;
    assert Power8(15) == 0x2000_0000_0000;
    assert Power8(20) == 0x1000_0000_0000_0000;
  }

  /** One round of the digit loop. */
  lemma NextDigit(n: int, base: int, upper: bool, done: string, digits: string)
    requires n > 0 && 2 <= base <= 16 && digits == Positional(n, base, upper) + Reversed(done)
    ensures 0 <= n / base < n && |done| < |digits|
    ensures digits == Positional(n / base, base, upper) + Reversed(done + [DigitChar(n % base, upper)])
  {
    Unfold(n, base, upper);
    hide DigitChar, Reversed, Positional;
    var d := DigitChar(n % base, upper);
    ReversedSnoc(done, d);
    Regroup(Positional(n / base, base, upper), d, Reversed(done));
  }

  lemma Unfold(n: int, base: int, upper: bool)
    requires n > 0 && 2 <= base <= 16
    ensures 0 <= n / base < n
    ensures Positional(n, base, upper) == Positional(n / base, base, upper) + [DigitChar(n % base, upper)]
  {
    Quotients(n, base);
    hide DigitChar;
  }

  lemma Regroup(p: string, d: char, r: string)
    ensures (p + [d]) + r == p + ([d] + r)
  {
  }

  // ----- digits in a work area -----

  /** The digit loop of convert_to_string; it does nothing for a negative number. */
  method PutDigits(num: int, temp: array<char>, base: int, upper: bool) returns (len: nat)
    requires 8 <= base <= 16 && num < LONG && temp.Length == 64
    modifies temp
    ensures len <= 22 && Reversed(temp[..len]) == Positional(num, base, upper)
  {
    LongFits();
    DigitsFit(num, base, upper, 22);
    hide Positional, Power8, DigitChar, Reversed;
    len := 0;
    var left := num;
    ghost var digits := Positional(num, base, upper);
    Begun(digits, temp[..0]);
    while left > 0
      invariant len <= 22 && (num > 0 ==> left >= 0) && (num <= 0 ==> left == num && len == 0)
      invariant digits == Positional(left, base, upper) + Reversed(temp[..len])
      decreases left
    {
      ghost var done := temp[..len];
      NextDigit(left, base, upper, done, digits);
      temp[len] := DigitChar(left % base, upper);
      assert temp[..len + 1] == done + [temp[len]];
      len := len + 1;
      left := left / base;
    }
    PositionalNegative(left, base, upper);
    assert "" + Reversed(temp[..len]) == Reversed(temp[..len]);
  }

  lemma Begun(digits: string, none: string)
    requires none == ""
    ensures digits + Reversed(none) == digits
  {
  }

  /** convert_to_string: least significant digit first. */
  method ConvertToString(num: int, temp: array<char>, base: int, upper: bool) returns (len: nat)
    requires 8 <= base <= 16 && num < LONG && temp.Length == 64
    modifies temp
    ensures len <= 22 && temp[..len] == Reversed(Digits(num, base, upper))
  {
    hide Positional, Reversed;
    if num == 0 {
      temp[0] := '0';
      len := 1;
      ReversedOne('0');
      assert temp[..1] == ['0'];
    } else {
      len := PutDigits(num, temp, base, upper);
      ReversedTwice(temp[..len]);
    }
  }

  lemma ReversedOne(c: char)
    ensures Reversed([c]) == [c]
  {
    ReversedSnoc("", c);
    assert "" + [c] == [c];
  }

  lemma PositionalNegative(n: int, base: int, upper: bool)
    requires n <= 0 && 2 <= base <= 16
    ensures Positional(n, base, upper) == ""
  {
  }

  lemma {:induction false} ReversedTwice(s: string)
    ensures Reversed(Reversed(s)) == s
  {
    if s != "" {
      ReversedTwice(s[1..]);
      ReversedSnoc(Reversed(s[1..]), s[0]);
    }
  }

  /** reverse_string on the first `len` cells. */
  method ReverseString(str: array<char>, len: nat)
    requires len <= str.Length
    modifies str
    ensures str[..len] == Reversed(old(str[..len]))
  {
    ghost var before := str[..len];
    var start, end := 0, len - 1;
    while start < end
      invariant 0 <= start && start + end == len - 1 && start <= end + 1
      invariant forall k :: 0 <= k < start ==> str[k] == before[len - 1 - k] && str[len - 1 - k] == before[k]
      invariant forall k :: start <= k <= end ==> str[k] == before[k]
    {
      str[start], str[end] := str[end], str[start];
      start, end := start + 1, end - 1;
    }
    forall k | 0 <= k < len ensures str[k] == Reversed(before)[k] {
      ReversedAt(before, k);
    }
  }

  // ----- pieces of text -----

  /** A copying loop stops at the end of its text or at the end of the buffer. */
  lemma CutAt(before: string, t: string, i: nat)
    requires i <= |t| && |before| + i <= LIMIT && (i == |t| || |before| + i == LIMIT)
    ensures before + t[..i] == Cap(before + t)
  {
    assert (before + t)[..|before| + i] == before + t[..i];
  }

  lemma {:induction false} SpacesPrefix(i: nat, n: nat)
    requires i <= n
    ensures Spaces(n)[..i] == Spaces(i)
  {
    if i < n {
      SpacesPrefix(i, n - 1);
      assert Spaces(n)[..i] == Spaces(n - 1)[..i];
    } else {
      assert Spaces(n)[..i] == Spaces(n);
    }
  }

  lemma NoSpaces(n: int)
    ensures n <= 0 ==> Spaces(n) == ""
  {
  }

  lemma SignInFront(digits: string, sign: string)
    requires |sign| <= 1
    ensures Reversed(Reversed(digits) + sign) == sign + digits
  {
    ReversedTwice(digits);
    if sign == "" {
      assert Reversed(digits) + sign == Reversed(digits) && sign + digits == digits;
    } else {
      assert sign == [sign[0]];
      ReversedSnoc(Reversed(digits), sign[0]);
    }
  }

  // ----- the formatter -----

  class Formatter {
    const buffer: array<char>
    var pos: nat
    var state: State
    var spec: Spec
    var tempNum: int
    var args: seq<Arg>

    constructor (source: array<char>, start: nat, args: seq<Arg>)
      requires source.Length == 1024 && start <= LIMIT
      ensures Valid() && fresh(buffer) && pos == start && Contents() == source[..start] && Context() == Start(args)
    {
      buffer := new char[1024];
      pos := start;
      state := Normal;
      spec := BLANK;
      tempNum := 0;
      this.args := args;
      new;
      CopyCells(source, buffer);
      assert buffer[..start] == buffer[..][..start] == source[..][..start];
    }

    ghost predicate Valid()
      reads this
    {
      buffer.Length == 1024 && pos <= LIMIT
    }

    ghost function Contents(): string
      requires Valid()
      reads this, buffer
    {
      buffer[..pos]
    }

    ghost function Context(): Ctx
      reads this
    {
      Ctx(state, spec, tempNum, args)
    }

    method AppendChar(c: char)
      requires Valid()
      modifies this`pos, buffer
      ensures Valid() && Contents() == Cap(old(Contents()) + [c])
    {
      if pos < 1023 {
        buffer[pos] := c;
        pos := pos + 1;
      }
    }

    method AppendStr(str: string)
      requires Valid()
      modifies this`pos, buffer
      ensures Valid() && Contents() == Cap(old(Contents()) + str)
    {
      var i := 0;
      while i < |str| && pos < 1023
        invariant 0 <= i <= |str| && Valid()
        invariant Contents() == old(Contents()) + str[..i]
      {
        buffer[pos] := str[i];
        pos := pos + 1;
        i := i + 1;
      }
      CutAt(old(Contents()), str, i);
    }

    method AppendPadding(padding: int)
      requires Valid()
      modifies this`pos, buffer
      ensures Valid() && Contents() == Cap(old(Contents()) + Spaces(padding))
    {
      var i := 0;
      while i < padding && pos < 1023
        invariant 0 <= i && (i <= padding || i == 0) && Valid()
        invariant Contents() == old(Contents()) + Spaces(i)
      {
        buffer[pos] := ' ';
        pos := pos + 1;
        i := i + 1;
      }
      if padding > 0 {
        SpacesPrefix(i, padding);
        CutAt(old(Contents()), Spaces(padding), i);
      }
    }

    method AppendChars(str: string, max: int)
      requires Valid() && max <= |str|
      modifies this`pos, buffer
      ensures Valid() && Contents() == Cap(old(Contents()) + Upto(str, max))
    {
      var i := 0;
      while i < max && pos < 1023
        invariant 0 <= i && (i <= max || i == 0) && Valid()
        invariant Contents() == old(Contents()) + Upto(str, max)[..i]
      {
        buffer[pos] := str[i];
        pos := pos + 1;
        i := i + 1;
      }
      CutAt(old(Contents()), Upto(str, max), i);
    }

    method AppendStrFormatted(str: string)
      requires Valid()
      modifies this`pos, buffer
      ensures Valid() && Contents() == Cap(old(Contents()) + StringText(str, spec))
    {
      hide Cap, Spaces, Upto;
      ghost var before := Contents();
      var len := |str|;
      var maxChars := len;
      if spec.hasPrecision && spec.precision < len { maxChars := spec.precision; }
      var padding := 0;
      if spec.width > maxChars { padding := spec.width - maxChars; }
      NoSpaces(spec.width - maxChars);
      CapShort(before);
      if !spec.leftAlign && padding > 0 { AppendPadding(padding); }
      assert before + "" == before;
      AppendChars(str, maxChars);
      if spec.leftAlign && padding > 0 { AppendPadding(padding); }
      CapTwice(before, Spaces(padding), Upto(str, maxChars));
      CapTwice(before, Upto(str, maxChars), Spaces(padding));
      assert Upto(str, maxChars) + "" == Upto(str, maxChars) == "" + Upto(str, maxChars);
    }

    /** add_sign_prefix. */
    method AddSignPrefix(temp: array<char>, len: nat, negative: bool) returns (newLen: nat)
      requires len < temp.Length
      modifies temp
      ensures newLen <= len + 1 && temp[..newLen] == old(temp[..len]) + Sign(negative, spec)
    {
      newLen := len;
      if negative {
        temp[newLen] := '-';
        newLen := newLen + 1;
      } else if spec.showSign {
        temp[newLen] := '+';
        newLen := newLen + 1;
      } else if spec.spacePrefix {
        temp[newLen] := ' ';
        newLen := newLen + 1;
      }
    }

    /** format_number up to the append, for a number of at most 64 bits. */
    method NumberInto(temp: array<char>, num: int) returns (len: nat)
      requires -LONG < num < LONG && temp.Length == 64
      modifies temp
      ensures len <= 64 && temp[..len] == NumberText(num, spec)
    {
      hide Digits, Reversed;
      var base := if spec.specifier == 'x' || spec.specifier == 'X' || spec.specifier == 'p' then 16
        else if spec.specifier == 'o' then 8 else 10;
      var upper := spec.specifier == 'X';
      var negative := false;
      var n := num;
      if num < 0 && (spec.specifier == 'd' || spec.specifier == 'i') {
        negative := true;
        n := -num;
      }
      len := ConvertToString(n, temp, base, upper);
      len := AddSignPrefix(temp, len, negative);
      ReverseString(temp, len);
      SignInFront(Digits(n, base, upper), Sign(negative, spec));
    }

    method AppendNumber(num: int)
      requires Valid() && -LONG < num < LONG
      modifies this`pos, buffer
      ensures Valid() && Contents() == Cap(old(Contents()) + NumberText(num, spec))
    {
      hide Cap, NumberText;
      var temp := new char[64];
      var len := NumberInto(temp, num);
      AppendStr(temp[..len]);
    }

    /** A specifier has been served: its text appended, the handler's own specifier recorded, and
        the argument, if the specifier takes one, gone. */
    ghost predicate Shot(spec0: Spec, args0: seq<Arg>, had: string)
      requires Valid()
      reads this, buffer
    {
      && Contents() == Cap(had + Fired(spec0, args0).0)
      && spec == spec0.(specifier := Fired(spec0, args0).1)
      && args == if IsSpecifier(spec0.specifier) then Rest(args0) else args0
    }

    method SpecString()
      requires Valid() && spec.specifier == 's'
      modifies this`pos, this`args, buffer
      ensures Valid() && Shot(old(spec), old(args), old(Contents()))
    {
      hide Cap, StringText;
      AppendStrFormatted(TextOf(args));
      args := Rest(args);
    }

    /** spec_decimal, spec_integer, spec_unsigned, spec_hex_lower, spec_hex_upper, spec_octal. */
    method SpecNumber()
      requires Valid() && spec.specifier in {'d', 'i', 'u', 'x', 'X', 'o'}
      modifies this`pos, this`args, buffer
      ensures Valid() && Shot(old(spec), old(args), old(Contents()))
    {
      hide Cap, NumberText;
      var word := ToWord(NumberOf(args));
      if spec.specifier == 'd' || spec.specifier == 'i' {
        AppendNumber(ToInt(word));
      } else {
        AppendNumber(word);
      }
      args := Rest(args);
    }

    method SpecChar()
      requires Valid() && spec.specifier == 'c'
      modifies this`pos, this`args, buffer
      ensures Valid() && Shot(old(spec), old(args), old(Contents()))
    {
      hide Cap;
      AppendChar((NumberOf(args) % 256) as char);
      args := Rest(args);
    }

    method SpecFloat()
      requires Valid() && spec.specifier in {'f', 'g', 'G'}
      modifies this`pos, this`spec, this`args, buffer
      ensures Valid() && Shot(old(spec), old(args), old(Contents()))
    {
      hide Cap, NumberText, Truncated;
      assert spec.specifier == 'f' ==> spec.(specifier := 'f') == spec;
      spec := spec.(specifier := 'f');
      AppendNumber(Truncated(DoubleOf(args)));
      args := Rest(args);
    }

    method SpecPointer()
      requires Valid() && spec.specifier == 'p'
      modifies this`pos, this`args, buffer
      ensures Valid() && Shot(old(spec), old(args), old(Contents()))
    {
      hide Cap, NumberText;
      ghost var before := Contents();
      var address := AsLong(PointerOf(args));
      AppendStr("0x");
      AppendNumber(address);
      CapTwice(before, "0x", NumberText(address, spec));
      args := Rest(args);
    }

    method Unknown()
      requires Valid() && !IsSpecifier(spec.specifier)
      modifies this`pos, buffer
      ensures Valid() && Shot(old(spec), old(args), old(Contents()))
    {
      hide Cap;
      ghost var before := Contents();
      AppendChar('%');
      AppendChar(spec.specifier);
      CapTwice(before, ['%'], [spec.specifier]);
      assert ['%'] + [spec.specifier] == ['%', spec.specifier];
    }

    /** action_specifier: the character it is called with is not looked at. */
    method ActionSpecifier(c: char) returns (next: State)
      requires Valid() && state == Specifier
      modifies this`pos, this`spec, this`args, buffer
      ensures Valid() && Did(old(Context()), old(Contents()), next, Act(old(Context()), c))
    {
      hide Cap, Fired;
      next := Normal;
      if spec.specifier == 's' {
        SpecString();
      } else if spec.specifier in {'d', 'i', 'u', 'x', 'X', 'o'} {
        SpecNumber();
      } else if spec.specifier == 'c' {
        SpecChar();
      } else if spec.specifier == 'p' {
        SpecPointer();
      } else if spec.specifier in {'f', 'g', 'G'} {
        SpecFloat();
      } else {
        Unknown();
      }
    }

    /** Context and contents are what an action makes of them, once `next` is the state. */
    ghost predicate Did(before: Ctx, had: string, next: State, outcome: (Ctx, string))
      requires Valid()
      reads this, buffer
    {
      Context().(state := next) == outcome.0 && Contents() == Cap(had + outcome.1)
    }

    method ActionNormal(c: char) returns (next: State)
      requires Valid() && state == Normal
      modifies this`pos, this`spec, buffer
      ensures Valid() && Did(old(Context()), old(Contents()), next, Act(old(Context()), c))
    {
      hide Cap;
      CapNothing(Contents());
      if c == '%' {
        spec := BLANK;
        return Percent;
      }
      AppendChar(c);
      return Normal;
    }

    method HandleOtherChars(c: char) returns (next: State)
      requires Valid()
      modifies this`spec, this`tempNum
      ensures Valid() && Contents() == old(Contents())
      ensures Context().(state := next) == OtherChars(old(Context()), c)
    {
      if IsDigit(c) {
        tempNum := DigitValue(c);
        return Width;
      }
      if c == '.' {
        spec := spec.(hasPrecision := true);
        tempNum := 0;
        return Precision;
      }
      if IsLength(c) {
        spec := spec.(lengthMod := c);
        return Length;
      }
      if IsSpecifier(c) {
        spec := spec.(specifier := c);
        return Specifier;
      }
      return Error;
    }

    method ActionPercent(c: char) returns (next: State)
      requires Valid()
      modifies this`pos, this`spec, this`tempNum, buffer
      ensures Valid() && Did(old(Context()), old(Contents()), next, AfterPercent(old(Context()), c))
    {
      hide Cap, OtherChars;
      CapNothing(Contents());
      if c == '%' {
        AppendChar('%');
        return Normal;
      }
      if IsFlag(c) {
        spec := SetFlag(spec, c);
        return Flags;
      }
      next := HandleOtherChars(c);
    }

    method ActionFlags(c: char) returns (next: State)
      requires Valid() && state == Flags
      modifies this`pos, this`spec, this`tempNum, buffer
      ensures Valid() && Did(old(Context()), old(Contents()), next, Act(old(Context()), c))
    {
      hide Cap, AfterPercent;
      CapNothing(Contents());
      if IsFlag(c) {
        spec := SetFlag(spec, c);
        return Flags;
      }
      next := ActionPercent(c);
    }

    method ActionWidth(c: char) returns (next: State)
      requires Valid() && state == Width
      modifies this`pos, this`spec, this`tempNum, buffer
      ensures Valid() && Did(old(Context()), old(Contents()), next, Act(old(Context()), c))
    {
      hide Cap, AfterPercent;
      CapNothing(Contents());
      if IsDigit(c) {
        tempNum := tempNum * 10 + DigitValue(c);
        return Width;
      }
      spec := spec.(width := tempNum);
      if c == '.' {
        spec := spec.(hasPrecision := true);
        tempNum := 0;
        return Precision;
      }
      next := ActionPercent(c);
    }

    method ActionPrecision(c: char) returns (next: State)
      requires Valid() && state == Precision
      modifies this`pos, this`spec, this`tempNum, buffer
      ensures Valid() && Did(old(Context()), old(Contents()), next, Act(old(Context()), c))
    {
      hide Cap, AfterPercent;
      CapNothing(Contents());
      if IsDigit(c) {
        tempNum := tempNum * 10 + DigitValue(c);
        return Precision;
      }
      spec := spec.(precision := tempNum);
      next := ActionPercent(c);
    }

    method ActionError(c: char) returns (next: State)
      requires Valid() && state == Error
      modifies this`pos, buffer
      ensures Valid() && Did(old(Context()), old(Contents()), next, Act(old(Context()), c))
    {
      hide Cap;
      ghost var before := Contents();
      AppendChar('%');
      AppendChar(c);
      CapTwice(before, ['%'], [c]);
      assert ['%'] + [c] == ['%', c];
      next := Normal;
    }

    /** The table of actions, one for each state. */
    method Action(c: char) returns (next: State)
      requires Valid()
      modifies this`pos, this`spec, this`tempNum, this`args, buffer
      ensures Valid() && Did(old(Context()), old(Contents()), next, Act(old(Context()), c))
    {
      match state {
        case Normal => next := ActionNormal(c);
        case Percent => next := ActionPercent(c);
        case Flags => next := ActionFlags(c);
        case Width => next := ActionWidth(c);
        case Precision => next := ActionPrecision(c);
        case Length => next := ActionPercent(c);
        case Specifier => next := ActionSpecifier(c);
        case Error => next := ActionError(c);
      }
    }

    /** ctx_parsing, from any context and any filling of the buffer. */
    method Parse(fmt: string)
      requires Valid()
      modifies this, buffer
      ensures Valid() && old(pos) <= pos
      ensures Contents() == Cap(old(Contents()) + Emitted(old(Context()), fmt))
    {
      hide Act, Cap;
      ghost var x0, had := Context(), Contents();
      var i := 0;
      assert fmt[0..] == fmt;
      while i < |fmt| && pos < 1023
        invariant 0 <= i <= |fmt| && Valid() && old(pos) <= pos
        invariant Bounded(Context(), fmt[i..], Contents()) == Bounded(x0, fmt, had)
      {
        ghost var x, out := Context(), Contents();
        assert fmt[i..][1..] == fmt[i + 1..];
        var c := fmt[i];
        i := i + 1;
        var next := Action(c);
        Grows(out, Act(x, c).1);
        state := next;
        if state == Error { state := Normal; }
      }
      BoundedIsCut(x0, fmt, had);
    }
  }

  lemma CapNothing(s: string)
    requires |s| <= LIMIT
    ensures Cap(s + "") == s
  {
    assert s + "" == s;
  }

  lemma Grows(s: string, t: string)
    requires |s| <= LIMIT
    ensures |Cap(s + t)| >= |s|
  {
  }

  /** vlog_msg_automata: a fresh context over a copy of the caller's buffer. */
  method FormatInto(buffer: array<char>, pos: nat, fmt: string, args: seq<Arg>) returns (end: nat)
    requires buffer.Length == 1024 && pos <= LIMIT
    modifies buffer
    ensures pos <= end <= LIMIT
    ensures buffer[..end] == Cap(old(buffer[..pos]) + Emitted(Start(args), fmt))
  {
    hide Emitted, Cap;
    var formatter := new Formatter(buffer, pos, args);
    formatter.Parse(fmt);
    CopyCells(formatter.buffer, buffer);
    end := formatter.pos;
    assert buffer[..end] == buffer[..][..end] == formatter.buffer[..][..end];
  }

  method CopyCells(source: array<char>, target: array<char>)
    requires source != target && source.Length == target.Length
    modifies target
    ensures target[..] == source[..]
  {
    forall k | 0 <= k < source.Length { target[k] := source[k]; }
  }
}
