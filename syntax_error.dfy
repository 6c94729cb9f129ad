/** The error raised for a reference the reference parser cannot read in
    full (lib/curly/syntax_error.rb). Its message quotes the source around
    the position where reading stopped, at most eight characters on either
    side, and the line that position is on. */
module SyntaxError {
  import opened Wrappers
  import opened Strings

  /** `SyntaxError.new(position, source)` */
  datatype SyntaxError = SyntaxError(position: nat, source: string)

  /** `[position - 8, 0].max` */
  function WindowStart(position: nat): (start: nat)
    ensures start <= position <= start + 8
    ensures start == 0 || start == position - 8
  {
    if position >= 8 then position - 8 else 0
  }

  /** `[position + 8, length].min` */
  function WindowStop(position: nat, length: nat): (stop: nat)
    ensures stop <= position + 8 && stop <= length
    ensures stop == position + 8 || stop == length
  {
    if position + 8 <= length then position + 8 else length
  }

  /** `s[a..b]`, Ruby's slice by an inclusive range of non-negative bounds:
      `nil` when `a` is past the end, otherwise the characters from `a` to
      `b` that exist. */
  function InclusiveSlice(s: string, a: nat, b: nat): (r: Option<string>)
    ensures r.None? <==> a > |s|
    ensures r.Some? ==> a + |r.value| <= |s|
    ensures r.Some? ==> forall k :: 0 <= k < |r.value| ==> r.value[k] == s[a + k]
    ensures r.Some? ==> |r.value| == if b < a then 0 else (if b < |s| then b + 1 else |s|) - a
  {
    if a > |s| then None
    else if b < a then Some([])
    else Some(s[a..if b < |s| then b + 1 else |s|])
  }

  /** `@source[start..stop].strip`, `nil` (and so a `NoMethodError`) when
      the window starts past the end of the source. */
  function Snippet(e: SyntaxError): Option<string>
  {
    match InclusiveSlice(e.source, WindowStart(e.position), WindowStop(e.position, |e.source|))
    case None => None
    case Some(window) => Some(Strip(window))
  }

  /** `@source[0..@position].count("\n") + 1` */
  function Line(e: SyntaxError): (line: nat)
    ensures 1 <= line <= 1 + CountChar(e.source, '\n')
  {
    var upto := InclusiveSlice(e.source, 0, e.position).value;
    assert upto == e.source[..|upto|];
    CountCharAppend(upto, e.source[|upto|..], '\n');
    assert e.source == upto + e.source[|upto|..];
    CountChar(upto, '\n') + 1
  }

  const Lead := "invalid syntax near `"
  const OnLine := "` on line "
  const InTemplate := " in template:\n\n"

  /** `message` */
  function Message(e: SyntaxError): Option<string>
  {
    match Snippet(e)
    case None => None
    case Some(snippet) =>
      Some(Lead + snippet + OnLine + NatToString(Line(e)) + InTemplate + e.source + "\n")
  }

  // ---------------------------------------------------------------------
  // What the message shows

  /** At every position up to the end of the source the snippet is the
      stripped window from eight characters before the position to eight
      after it, both cut at the ends of the source; past that the window is
      at most seventeen characters long and covers the position. */
  lemma SnippetWindow(e: SyntaxError)
    requires e.position <= |e.source|
    ensures var start := if e.position >= 8 then e.position - 8 else 0;
      var end := if e.position + 9 <= |e.source| then e.position + 9 else |e.source|;
      start <= end && end - start <= 17
      && Snippet(e) == Some(Strip(e.source[start..end]))
  {
    var start := WindowStart(e.position);
    var stop := WindowStop(e.position, |e.source|);
    var w := InclusiveSlice(e.source, start, stop).value;
    WindowEnd(e.position, |e.source|);
    SliceContents(e.source, start, w);
    assert Snippet(e) == Some(Strip(w));
  }

  /** The inclusive range `start..stop` ends nine characters after the
      position, or at the end of the source. */
  lemma WindowEnd(p: nat, n: nat)
    requires p <= n
    ensures WindowStart(p) <= WindowStop(p, n)
    ensures (if WindowStop(p, n) < n then WindowStop(p, n) + 1 else n) == (if p + 9 <= n then p + 9 else n)
  {
  }

  /** A string that agrees with `s` from `a` on is that slice of `s`. */
  lemma SliceContents(s: string, a: nat, w: string)
    requires a + |w| <= |s|
    requires forall k :: 0 <= k < |w| ==> w[k] == s[a + k]
    ensures w == s[a..a + |w|]
  {
  }

  /** Every position the reference parser can report, which is at most the
      length of the source, yields a message; a position more than eight
      characters past the end does not. */
  lemma MessageDefined(e: SyntaxError)
    ensures Message(e).Some? <==> e.position <= |e.source| + 8
  {
  }

  /** The line counts the line feeds before the position, and also the one
      at the position, because the range `0..position` includes it. */
  lemma LineCountsThroughPosition(e: SyntaxError)
    ensures e.position < |e.source| ==>
      Line(e) == 1 + CountChar(e.source[..e.position], '\n') + (if e.source[e.position] == '\n' then 1 else 0)
    ensures e.position >= |e.source| ==> Line(e) == 1 + CountChar(e.source, '\n')
  {
    var p := e.position;
    if p < |e.source| {
      assert e.source[..p + 1] == e.source[..p] + [e.source[p]];
      CountCharAppend(e.source[..p], [e.source[p]], '\n');
    } else {
      assert e.source[..|e.source|] == e.source;
    }
  }

  /** A later position is never on an earlier line. */
  lemma LineMonotone(source: string, p: nat, q: nat)
    requires p <= q
    ensures Line(SyntaxError(p, source)) <= Line(SyntaxError(q, source))
  {
    var a := InclusiveSlice(source, 0, p).value;
    var b := InclusiveSlice(source, 0, q).value;
    assert a == source[..|a|] && b == source[..|b|];
    assert b == a + b[|a|..];
    CountCharAppend(a, b[|a|..], '\n');
  }

  /** The documented example: position 13 of "I am a very bad error that
      has snuck in" points into "bad"; the window is "a very bad error ",
      the snippet is "a very bad error", it is on line 1, and the message
      quotes the snippet and then the whole source. */
  lemma DocumentedExample()
    ensures var e := SyntaxError(13, "I am " + ("a very bad error" + " ") + "that has snuck in");
      && Snippet(e) == Some("a very bad error") && Line(e) == 1
      && Message(e) == Some("invalid syntax near `" + "a very bad error" + "` on line " + "1"
        + " in template:\n\n" + ("I am " + ("a very bad error" + " ") + "that has snuck in") + "\n")
  {
    var w := "a very bad error" + " ";
    var source := "I am " + w + "that has snuck in";
    var e := SyntaxError(13, source);
    SliceOfConcat("I am ", w, "that has snuck in");
    assert InclusiveSlice(source, 5, 21) == Some(w);
    ExampleStrip();
    ExampleNoNewline();
    SingleLine(e);
    assert NatToString(1) == "1";
    assert Message(e) == Some(Lead + "a very bad error" + OnLine + "1" + InTemplate + source + "\n");
  }

  lemma ExampleStrip()
    ensures Strip("a very bad error" + " ") == "a very bad error"
  {
    var snippet := "a very bad error";
    var w := snippet + " ";
    assert LeadingSpace(w) == 0;
    assert w[..16] == snippet;
    assert TrailingSpace(snippet) == 0;
    assert TrailingSpace(w) == 1;
    assert w[0..] == w;
  }

  lemma ExampleNoNewline()
    ensures '\n' !in "I am " + ("a very bad error" + " ") + "that has snuck in"
  {
  }

  /** A source without line feeds is all on line 1. */
  lemma SingleLine(e: SyntaxError)
    requires '\n' !in e.source
    ensures Line(e) == 1
  {
    assert CountChar(e.source, '\n') == 0;
  }

  lemma SliceOfConcat(a: string, b: string, c: string)
    ensures (a + b + c)[|a|..|a| + |b|] == b
  {
  }
}
