/** What get_next_line returns, whatever the chunks a stream is read in: the text of a
    descriptor cut after its newlines. */
module LineSpec {
  import opened Options

  /** The outcome of one read: bytes (none at the end of the stream), or an error. */
  datatype Read = Data(bytes: string) | Failure

  // ----- strings of C -----

  /** The C string in a buffer: the characters before the first NUL. */
  function UpToNul(b: string): (s: string)
    ensures '\0' !in s && s <= b
  {
    if b == "" || b[0] == '\0' then "" else [b[0]] + UpToNul(b[1..])
  }

  lemma {:induction false} NulFree(b: string)
    requires '\0' !in b
    ensures UpToNul(b) == b
  {
    if b != "" { NulFree(b[1..]); }
  }

  /** The index of the first newline, or the length. */
  function LineEnd(s: string): (n: nat)
    ensures n <= |s| && '\n' !in s[..n] && (n < |s| ==> s[n] == '\n')
  {
    if s == "" || s[0] == '\n' then 0 else
      var n := LineEnd(s[1..]) + 1;
      assert s[..n] == [s[0]] + s[1..][..n - 1];
      n
  }

  lemma LineEndIs(s: string, n: nat)
    requires n <= |s| && '\n' !in s[..n] && (n < |s| ==> s[n] == '\n')
    ensures LineEnd(s) == n
  {
    var e := LineEnd(s);
    assert forall k :: 0 <= k < n ==> s[k] in s[..n];
    assert forall k :: 0 <= k < e ==> s[k] in s[..e];
  }

  // ----- one call, for one descriptor -----

  /** The saved text of a descriptor (no node and a NULL memory are alike) and what its reads
      will yield; a script that has run out is at the end of its stream. */
  datatype View = View(memory: Option<string>, script: seq<Read>)

  function Buffered(m: Option<string>): string {
    if m.Some? then m.value else ""
  }

  /** Read until the saved text holds a newline, the stream ends or a read fails. */
  function Store(m: Option<string>, script: seq<Read>): (Option<string>, seq<Read>)
    decreases |script|
  {
    if '\n' in Buffered(m) || script == [] then (m, script)
    else if script[0].Failure? then (None, script[1..])
    else if script[0].bytes == "" then (m, script[1..])
    else Store(Some(Buffered(m) + UpToNul(script[0].bytes)), script[1..])
  }

  function Line(s: string): Option<string> {
    if s == "" then None else Some(s[..if LineEnd(s) < |s| then LineEnd(s) + 1 else |s|])
  }

  function Leftover(s: string): Option<string> {
    if LineEnd(s) < |s| then Some(s[LineEnd(s) + 1..]) else None
  }

  function Next(v: View): (View, Option<string>) {
    var (m, rest) := Store(v.memory, v.script);
    if m.None? then (View(None, rest), None) else (View(Leftover(m.value), rest), Line(m.value))
  }

  // ----- the same without chunks -----

  /** The text up to the next end or failure, which of the two it is, and the reads after it. */
  datatype Segment = Segment(text: string, failed: bool, rest: seq<Read>)

  function Ahead(script: seq<Read>): Segment {
    if script == [] then Segment("", false, [])
    else if script[0].Failure? then Segment("", true, script[1..])
    else if script[0].bytes == "" then Segment("", false, script[1..])
    else
      var s := Ahead(script[1..]);
      Segment(UpToNul(script[0].bytes) + s.text, s.failed, s.rest)
  }

  /** What a view still holds of its current segment. */
  function Remaining(v: View): Segment {
    var s := Ahead(v.script);
    Segment(Buffered(v.memory) + s.text, s.failed, s.rest)
  }

  /** Storing leaves the remaining text alone, and stops at a newline, the end or a failure. */
  lemma {:induction false} StoreKeepsText(m: Option<string>, script: seq<Read>)
    ensures var s := Remaining(View(m, script));
      var (m', rest) := Store(m, script);
      if '\n' in s.text then m'.Some? && '\n' in m'.value && Remaining(View(m', rest)) == s
      else if s.failed then m' == None && rest == s.rest
      else Buffered(m') == s.text && rest == s.rest
    decreases |script|
  {
    if '\n' in Buffered(m) || script == [] || script[0].Failure? || script[0].bytes == "" {
    } else {
      var u := UpToNul(script[0].bytes);
      assert Buffered(m) + (u + Ahead(script[1..]).text) == (Buffered(m) + u) + Ahead(script[1..]).text;
      StoreKeepsText(Some(Buffered(m) + u), script[1..]);
    }
  }

  lemma FirstNewline(s: string, t: string)
    requires '\n' in s
    ensures LineEnd(s + t) == LineEnd(s) < |s|
  {
    var n := LineEnd(s);
    assert s[..|s|] == s;
    assert (s + t)[..n] == s[..n];
    LineEndIs(s + t, n);
  }

  /** Cutting the saved text is cutting the whole remaining text. */
  lemma CutThrough(saved: string, tail: string)
    requires '\n' in saved
    ensures var t := saved + tail;
      var n := LineEnd(t);
      && n < |saved| && Line(saved) == Some(t[..n + 1])
      && Leftover(saved).Some? && Leftover(saved).value + tail == t[n + 1..]
  {
    FirstNewline(saved, tail);
    hide LineEnd;
    var t, n := saved + tail, LineEnd(saved);
    CutAppended(saved, tail, n + 1);
  }

  lemma CutAppended(a: string, b: string, n: nat)
    requires n <= |a|
    ensures (a + b)[..n] == a[..n] && (a + b)[n..] == a[n..] + b
  {
  }

  lemma NoNewline(s: string)
    ensures '\n' in s <==> LineEnd(s) < |s|
    ensures '\n' !in s ==> Leftover(s) == None && Line(s) == if s == "" then None else Some(s)
  {
    hide LineEnd;
    assert s[..|s|] == s;
  }

  /** One call: the next line of the remaining text; on a failure without a whole line saved,
      nothing, and the saved text is lost. */
  lemma NextLine(v: View)
    ensures var s := Remaining(v);
      var (v', line) := Next(v);
      var n := LineEnd(s.text);
      if n < |s.text| then line == Some(s.text[..n + 1]) && Remaining(v') == s.(text := s.text[n + 1..])
      else v' == View(None, s.rest) && line == if s.failed || s.text == "" then None else Some(s.text)
  {
    hide LineEnd, Store, Ahead, Line, Leftover;
    StoreKeepsText(v.memory, v.script);
    var s := Remaining(v);
    var (m, rest) := Store(v.memory, v.script);
    NoNewline(s.text);
    if '\n' in s.text {
      CutThrough(m.value, Ahead(rest).text);
    } else if m.Some? {
      NoNewline(m.value);
    }
  }

  // ----- cutting a text into lines -----

  function Lines(t: string): (ls: seq<string>) {
    if t == "" then []
    else
      var n := LineEnd(t);
      if n < |t| then [t[..n + 1]] + Lines(t[n + 1..]) else [t]
  }

  function Concat(ls: seq<string>): string {
    if ls == [] then "" else ls[0] + Concat(ls[1..])
  }

  /** Not empty, and no newline but a last one. */
  predicate IsLine(l: string) {
    l != "" && '\n' !in l[..|l| - 1]
  }

  /** Lines whose only unterminated one is the last. */
  predicate AreLines(ls: seq<string>) {
    ls == [] || (IsLine(ls[0]) && (ls[0][|ls[0]| - 1] == '\n' || |ls| == 1) && AreLines(ls[1..]))
  }

  lemma {:induction false} LinesLaw(t: string)
    ensures AreLines(Lines(t)) && Concat(Lines(t)) == t
    decreases |t|
  {
    hide LineEnd, Concat, AreLines, IsLine;
    var n := LineEnd(t);
    NoLines();
    if t == "" {
    } else if n < |t| {
      LinesLaw(t[n + 1..]);
      Terminated(t, n);
      LineAndLines(t[..n + 1], Lines(t[n + 1..]));
      Whole(t, n + 1);
    } else {
      Unterminated(t, n);
      LineAndLines(t, []);
      assert [t] + [] == [t];
      Whole(t, n);
    }
  }

  lemma NoLines()
    ensures AreLines([]) && Concat([]) == ""
  {
  }

  lemma Whole(t: string, n: nat)
    requires n <= |t|
    ensures t[..n] + t[n..] == t && t + "" == t
  {
  }

  lemma Terminated(t: string, n: nat)
    requires n < |t| && '\n' !in t[..n] && t[n] == '\n'
    ensures IsLine(t[..n + 1]) && t[..n + 1][n] == '\n'
  {
    assert t[..n + 1][..n] == t[..n];
  }

  lemma Unterminated(t: string, n: nat)
    requires t != "" && n == |t| && '\n' !in t[..n]
    ensures IsLine(t)
  {
    assert forall i :: 0 <= i < |t| - 1 ==> t[i] in t[..n];
  }

  lemma LineAndLines(l: string, ls: seq<string>)
    requires IsLine(l) && (l[|l| - 1] == '\n' || ls == []) && AreLines(ls)
    ensures AreLines([l] + ls) && Concat([l] + ls) == l + Concat(ls)
  {
    assert ([l] + ls)[1..] == ls;
  }

  /** Nothing else is a division into lines. */
  lemma {:induction false} LinesUnique(ls: seq<string>)
    requires AreLines(ls)
    ensures Lines(Concat(ls)) == ls
  {
    if ls != [] {
      var l, t := ls[0], Concat(ls);
      var n := |l| - 1;
      LinesUnique(ls[1..]);
      if l[n] == '\n' {
        assert t[..n] == l[..n] && t[n] == '\n' && t[n + 1..] == Concat(ls[1..]) && t[..n + 1] == l;
        LineEndIs(t, n);
      } else {
        assert ls[1..] == [] && t == l && l == l[..n] + [l[n]];
        LineEndIs(t, |t|);
      }
    }
  }

  // ----- repeated calls -----

  function Calls(v: View, n: nat): (answers: seq<Option<string>>)
    ensures |answers| == n
    decreases n
  {
    if n == 0 then [] else [Next(v).1] + Calls(Next(v).0, n - 1)
  }

  /** A stream of bytes that ends without failing. */
  predicate Plain(script: seq<Read>) {
    forall i :: 0 <= i < |script| ==> script[i].Data? && script[i].bytes != ""
  }

  function Stream(script: seq<Read>): string {
    if script == [] then ""
    else (if script[0].Data? then script[0].bytes else "") + Stream(script[1..])
  }

  lemma {:induction false} PlainAhead(script: seq<Read>)
    requires Plain(script) && '\0' !in Stream(script)
    ensures Ahead(script) == Segment(Stream(script), false, [])
  {
    if script != [] {
      NulFree(script[0].bytes);
      PlainAhead(script[1..]);
    }
  }

  /** The answers of `n` calls that go through `ls`. */
  function Served(ls: seq<string>, n: nat): (answers: seq<Option<string>>)
    ensures |answers| == n
    ensures forall i :: 0 <= i < n ==> answers[i] == if i < |ls| then Some(ls[i]) else None
  {
    if n == 0 then []
    else if ls == [] then [None] + Served([], n - 1)
    else [Some(ls[0])] + Served(ls[1..], n - 1)
  }

  /** The i-th call returns the i-th line, and a call past the last line returns nothing. */
  lemma {:induction false} CallsReturnLines(v: View, n: nat)
    requires !Remaining(v).failed && Remaining(v).rest == []
    ensures Calls(v, n) == Served(Lines(Remaining(v).text), n)
    decreases n
  {
    hide Next, Remaining, Lines, LineEnd, Store, Line, Leftover, Ahead, Buffered, UpToNul;
    if n > 0 {
      CallServes(v);
      CallsReturnLines(Next(v).0, n - 1);
    }
  }

  lemma CallServes(v: View)
    requires !Remaining(v).failed && Remaining(v).rest == []
    ensures var ls := Lines(Remaining(v).text);
      var (v', line) := Next(v);
      && !Remaining(v').failed && Remaining(v').rest == []
      && line == (if ls == [] then None else Some(ls[0]))
      && Lines(Remaining(v').text) == if ls == [] then [] else ls[1..]
  {
    NextLine(v);
    hide Next, LineEnd;
    var t := Remaining(v).text;
    assert Remaining(View(None, [])) == Segment("", false, []);
    if LineEnd(t) < |t| {
      assert Lines(t) == [t[..LineEnd(t) + 1]] + Lines(t[LineEnd(t) + 1..]);
    }
  }
}
