/** The legacy tag scanner (lib/curly/scanner.rb): a cursor walks the template
    and splits it into text, `{{ref}}` reference, `{{!...}}` comment and
    comment-line tokens. Each of the scanner's regular expressions is written
    out below as the match a backtracking engine returns when it is anchored
    at the cursor. */
module Scanner {
  import opened Wrappers
  import opened Strings

  datatype Token =
    | Text(value: string)
    | Reference(value: string)
    | Comment(value: string)
    | CommentLine(value: string)

  /** What `scan` does with a source: the token list, or `Diverges` when the
      `until eos?` loop reaches a position where no token makes progress and
      so never ends. */
  datatype ScanOutcome = Tokens(tokens: seq<Token>) | Diverges(position: nat)

  /** `[\w\.]` */
  predicate IsReferenceChar(c: char)
  {
    IsWordChar(c) || c == '.'
  }

  /** Ruby's `.` without the `m` flag. */
  predicate NotNewline(c: char)
  {
    c != '\n'
  }

  // ---------------------------------------------------------------------
  // The regular expressions, anchored at `pos`

  /** `REFERENCE_REGEX = \{\{[\w\.]+\}\}`: the end of the match. */
  function MatchReference(s: string, pos: nat): (r: Option<nat>)
    requires pos <= |s|
    ensures r.Some? ==> pos + 5 <= r.value <= |s|
    ensures r.Some? ==> StartsAt(s, pos, "{{") && StartsAt(s, r.value - 2, "}}")
    ensures r.Some? ==> forall k :: pos + 2 <= k < r.value - 2 ==> IsReferenceChar(s[k])
  {
    if StartsAt(s, pos, "{{") then
      var n := Span(s, pos + 2, IsReferenceChar);
      SpanRun(s, pos + 2, IsReferenceChar);
      if n > 0 && StartsAt(s, pos + 2 + n, "}}") then Some(pos + 2 + n + 2) else None
    else None
  }

  /** The last `}}` lying entirely inside `s[lo..hi]`: greedy `.*` followed by
      `\}\}` backtracks from the longest body to the first `}}` that fits. */
  function LastClose(s: string, lo: nat, hi: nat): (r: Option<nat>)
    requires lo <= hi <= |s|
    ensures r.Some? ==> lo <= r.value && r.value + 2 <= hi && StartsAt(s, r.value, "}}")
    ensures r.Some? ==> forall j :: r.value < j && j + 2 <= hi ==> !StartsAt(s, j, "}}")
    ensures r.None? ==> forall j :: lo <= j && j + 2 <= hi ==> !StartsAt(s, j, "}}")
    decreases hi - lo
  {
    if hi < lo + 2 then None
    else if StartsAt(s, hi - 2, "}}") then Some(hi - 2)
    else LastClose(s, lo, hi - 1)
  }

  /** The end of the line that starts at `i`: where `.*` must stop. */
  function LineEnd(s: string, i: nat): (e: nat)
    requires i <= |s|
    ensures i <= e <= |s| && (e == |s| || s[e] == '\n')
    ensures forall k :: i <= k < e ==> s[k] != '\n'
  {
    SpanRun(s, i, NotNewline);
    SpanStop(s, i, NotNewline);
    i + Span(s, i, NotNewline)
  }

  /** `COMMENT_REGEX = \{\{!.*\}\}`: the position of the closing `}}`. The body
      is the longest one on the current line. */
  function MatchComment(s: string, pos: nat): (r: Option<nat>)
    requires pos <= |s|
    ensures r.Some? ==> pos + 3 <= r.value && r.value + 2 <= |s|
    ensures r.Some? ==> StartsAt(s, pos, "{{!") && StartsAt(s, r.value, "}}")
    ensures r.Some? ==> forall k :: pos + 3 <= k < r.value ==> s[k] != '\n'
  {
    if StartsAt(s, pos, "{{!") then LastClose(s, pos + 3, LineEnd(s, pos + 3)) else None
  }

  /** The last line feed in `s[a..b]`: greedy `\s*` followed by `\n`. */
  function LastNewline(s: string, a: nat, b: nat): (r: Option<nat>)
    requires a <= b <= |s|
    ensures r.Some? ==> a <= r.value < b && s[r.value] == '\n'
    ensures r.Some? ==> forall k :: r.value < k < b ==> s[k] != '\n'
    ensures r.None? ==> forall k :: a <= k < b ==> s[k] != '\n'
    decreases b - a
  {
    if b == a then None
    else if s[b - 1] == '\n' then Some(b - 1)
    else LastNewline(s, a, b - 1)
  }

  /** Where a comment-line match starts its `{{!`, where its `}}` stands and
      where the whole match ends (just past the `\n`). */
  datatype CommentLineMatch = CommentLineMatch(open: nat, close: nat, end: nat)

  /** The `.*\}\}\s*\n` tail of `COMMENT_LINE_REGEX`, trying the bodies that
      end before `hi` from the longest to the shortest. */
  function CommentLineTail(s: string, lo: nat, hi: nat): (r: Option<(nat, nat)>)
    requires lo <= hi <= |s|
    ensures r.Some? ==> lo <= r.value.0 && r.value.0 + 2 < r.value.1 <= |s|
    ensures r.Some? ==> r.value.0 + 2 <= hi && StartsAt(s, r.value.0, "}}")
    ensures r.Some? ==> s[r.value.1 - 1] == '\n'
    ensures r.Some? ==> forall k :: r.value.0 + 2 <= k < r.value.1 ==> IsSpace(s[k])
    decreases hi
  {
    match LastClose(s, lo, hi)
    case None => None
    case Some(j) =>
      var w := Span(s, j + 2, IsSpace);
      SpanRun(s, j + 2, IsSpace);
      match LastNewline(s, j + 2, j + 2 + w)
      case Some(n) => Some((j, n + 1))
      case None => CommentLineTail(s, lo, j + 1)
  }

  /** `COMMENT_LINE_REGEX = \s*\{\{!.*\}\}\s*\n`. The leading `\s*` has to
      take the whole run of white space, since `{` is not white space. */
  function MatchCommentLine(s: string, pos: nat): (r: Option<CommentLineMatch>)
    requires pos <= |s|
    ensures r.Some? ==> pos <= r.value.open && r.value.open + 3 <= r.value.close
    ensures r.Some? ==> r.value.close + 2 < r.value.end <= |s|
    ensures r.Some? ==> forall k :: pos <= k < r.value.open ==> IsSpace(s[k])
    ensures r.Some? ==> StartsAt(s, r.value.open, "{{!") && StartsAt(s, r.value.close, "}}")
    ensures r.Some? ==> forall k :: r.value.open + 3 <= k < r.value.close ==> s[k] != '\n'
    ensures r.Some? ==> forall k :: r.value.close + 2 <= k < r.value.end ==> IsSpace(s[k])
    ensures r.Some? ==> s[r.value.end - 1] == '\n'
  {
    var c := pos + Span(s, pos, IsSpace);
    SpanRun(s, pos, IsSpace);
    if StartsAt(s, c, "{{!") then
      match CommentLineTail(s, c + 3, LineEnd(s, c + 3))
      case None => None
      case Some((j, e)) => Some(CommentLineMatch(c, j, e))
    else None
  }

  /** `scan_until(/\{\{/m)`: the first `{{` at or after `pos`. */
  function FindOpen(s: string, pos: nat): (r: Option<nat>)
    requires pos <= |s|
    ensures r.Some? ==> pos <= r.value && StartsAt(s, r.value, "{{")
    ensures r.Some? ==> forall k :: pos <= k < r.value ==> !StartsAt(s, k, "{{")
    ensures r.None? ==> forall k :: pos <= k <= |s| ==> !StartsAt(s, k, "{{")
    decreases |s| - pos
  {
    if pos + 2 > |s| then None
    else if StartsAt(s, pos, "{{") then Some(pos)
    else FindOpen(s, pos + 1)
  }

  // ---------------------------------------------------------------------
  // The comment-line token's value

  /** The value `scan_comment_line` returns as written, `value[3..-4]` of the
      whole match: it drops three characters from each end of the match,
      which are `{{!` and `}}\n` only when the match has no white space
      around the comment. */
  function CommentLineValueAsWritten(s: string, pos: nat, m: CommentLineMatch): string
    requires pos + 6 <= m.end <= |s|
  {
    s[pos..m.end][3..(m.end - pos) - 3]
  }

  /** The value the scanner means to return ("the comment excluding `{{!` and
      `}}`"), which differs from the value as written when there is white
      space around the comment. */
  function CommentLineValue(s: string, m: CommentLineMatch): (v: string)
    requires m.open + 3 <= m.close <= |s|
  {
    s[m.open + 3..m.close]
  }

  // ---------------------------------------------------------------------
  // One token, and the whole scan

  /** The bare-`{{` position where no token can be scanned. */
  predicate Stuck(s: string, pos: nat)
    requires pos <= |s|
  {
    StartsAt(s, pos, "{{") && MatchReference(s, pos).None?
      && MatchCommentLine(s, pos).None? && MatchComment(s, pos).None?
  }

  /** `scan_token`: the first of reference, comment line, comment, text and
      remainder that matches at `pos`, with the cursor position after it. */
  function ScanTokenAt(s: string, pos: nat): (r: (Token, nat))
    requires pos < |s|
    ensures pos <= r.1 <= |s|
    ensures r.1 == pos <==> Stuck(s, pos)
  {
    match MatchReference(s, pos)
    case Some(e) => (Reference(s[pos + 2..e - 2]), e)
    case None =>
      match MatchCommentLine(s, pos)
      case Some(m) => (CommentLine(CommentLineValueAsWritten(s, pos, m)), m.end)
      case None =>
        match MatchComment(s, pos)
        case Some(j) => (Comment(s[pos + 3..j]), j + 2)
        case None =>
          match FindOpen(s, pos)
          case Some(i) => (Text(s[pos..i]), i)
          case None => (Text(s[pos..]), |s|)
  }

  /** A reference token is `{{`, a non-empty run of word characters and
      dots, and `}}`: exactly two characters are removed from each end. */
  lemma ReferenceTokenAt(s: string, pos: nat)
    requires pos < |s| && ScanTokenAt(s, pos).0.Reference?
    ensures var (t, next) := ScanTokenAt(s, pos);
      && t.value != [] && s[pos..next] == "{{" + t.value + "}}"
      && forall k :: 0 <= k < |t.value| ==> IsReferenceChar(t.value[k])
  {
    var e := MatchReference(s, pos).value;
    assert s[pos..e] == s[pos..pos + 2] + s[pos + 2..e - 2] + s[e - 2..e];
  }

  /** A comment token is `{{!`, a body on a single line, and `}}`. */
  lemma CommentTokenAt(s: string, pos: nat)
    requires pos < |s| && ScanTokenAt(s, pos).0.Comment?
    ensures var (t, next) := ScanTokenAt(s, pos);
      && s[pos..next] == "{{!" + t.value + "}}"
      && forall k :: 0 <= k < |t.value| ==> t.value[k] != '\n'
  {
    var j := MatchComment(s, pos).value;
    assert s[pos..j + 2] == s[pos..pos + 3] + s[pos + 3..j] + s[j..j + 2];
  }

  /** A text token runs up to, but not including, the next `{{`, and the
      cursor is left on that `{{` (or at the end). */
  lemma TextTokenAt(s: string, pos: nat)
    requires pos < |s| && ScanTokenAt(s, pos).0.Text?
    ensures var (t, next) := ScanTokenAt(s, pos);
      && s[pos..next] == t.value && Free(t.value, "{{")
      && (next == |s| || StartsAt(s, next, "{{"))
  {
    match FindOpen(s, pos)
    case Some(i) => TextFree(s, pos, i);
    case None => TextFree(s, pos, |s|);
  }

  /** Text that stops at the first `{{` contains none. */
  lemma TextFree(s: string, pos: nat, i: nat)
    requires pos <= i <= |s|
    requires forall k :: pos <= k < i ==> !StartsAt(s, k, "{{")
    ensures Free(s[pos..i], "{{")
  {
    forall k | 0 <= k <= |s[pos..i]| ensures !StartsAt(s[pos..i], k, "{{") {
      StartsAtSlice(s, pos, i, k, "{{");
    }
  }

  /** `until eos?` from position `pos`. */
  function ScanFrom(s: string, pos: nat): ScanOutcome
    requires pos <= |s|
    decreases |s| - pos
  {
    if pos == |s| then Tokens([])
    else
      var (t, next) := ScanTokenAt(s, pos);
      if next == pos then Diverges(pos)
      else match ScanFrom(s, next)
        case Tokens(ts) => Tokens([t] + ts)
        case Diverges(p) => Diverges(p)
  }

  // ---------------------------------------------------------------------
  // The scanner object

  class Scanner {
    const source: string
    var pos: nat

    constructor (source: string)
      ensures this.source == source && pos == 0
    {
      this.source := source;
      pos := 0;
    }

    /** `tokens << scan_token until eos?`; a step that leaves the cursor where
        it was is reported as `Diverges`, where the source loops forever. */
    method Scan() returns (r: ScanOutcome)
      requires pos <= |source|
      modifies this
      ensures r == ScanFrom(source, old(pos))
    {
      var tokens: seq<Token> := [];
      while pos < |source|
        invariant old(pos) <= pos <= |source|
        invariant ScanFrom(source, old(pos)) == Prepend(tokens, ScanFrom(source, pos))
        decreases |source| - pos
      {
        var before := pos;
        var t := ScanToken();
        if pos == before {
          return Diverges(pos);
        }
        tokens := tokens + [t];
      }
      r := Tokens(tokens);
    }

    /** `scan_reference || scan_comment_line || scan_comment || scan_text ||
        scan_remainder` */
    method ScanToken() returns (t: Token)
      requires pos < |source|
      modifies this
      ensures (t, pos) == ScanTokenAt(source, old(pos))
    {
      var r := ScanReference();
      if r.Some? { return r.value; }
      r := ScanCommentLine();
      if r.Some? { return r.value; }
      r := ScanComment();
      if r.Some? { return r.value; }
      r := ScanText();
      if r.Some? { return r.value; }
      r := ScanRemainder();
      t := r.value;
    }

    method ScanReference() returns (t: Option<Token>)
      requires pos <= |source|
      modifies this
      ensures match MatchReference(source, old(pos))
        case Some(e) => t == Some(Reference(source[old(pos) + 2..e - 2])) && pos == e
        case None => t == None && pos == old(pos)
    {
      var m := MatchReference(source, pos);
      if m.Some? {
        var value := source[pos..m.value];
        pos := m.value;
        // the reference name excluding "{{" and "}}"
        t := Some(Reference(value[2..|value| - 2]));
        assert value[2..|value| - 2] == source[old(pos) + 2..pos - 2];
      } else {
        t := None;
      }
    }

    method ScanCommentLine() returns (t: Option<Token>)
      requires pos <= |source|
      modifies this
      ensures match MatchCommentLine(source, old(pos))
        case Some(m) => t == Some(CommentLine(CommentLineValueAsWritten(source, old(pos), m))) && pos == m.end
        case None => t == None && pos == old(pos)
    {
      var m := MatchCommentLine(source, pos);
      if m.Some? {
        var value := source[pos..m.value.end];
        pos := m.value.end;
        // the comment excluding "{{!" and "}}", as `value[3..-4]`
        t := Some(CommentLine(value[3..|value| - 3]));
      } else {
        t := None;
      }
    }

    method ScanComment() returns (t: Option<Token>)
      requires pos <= |source|
      modifies this
      ensures match MatchComment(source, old(pos))
        case Some(j) => t == Some(Comment(source[old(pos) + 3..j])) && pos == j + 2
        case None => t == None && pos == old(pos)
    {
      var m := MatchComment(source, pos);
      if m.Some? {
        var value := source[pos..m.value + 2];
        pos := m.value + 2;
        // the comment excluding "{{!" and "}}"
        t := Some(Comment(value[3..|value| - 2]));
        assert value[3..|value| - 2] == source[old(pos) + 3..pos - 2];
      } else {
        t := None;
      }
    }

    method ScanText() returns (t: Option<Token>)
      requires pos <= |source|
      modifies this
      ensures match FindOpen(source, old(pos))
        case Some(i) => t == Some(Text(source[old(pos)..i])) && pos == i
        case None => t == None && pos == old(pos)
    {
      var m := FindOpen(source, pos);
      if m.Some? {
        var value := source[pos..m.value + 2];
        pos := m.value + 2;
        // rewind the cursor to just before the "{{"
        pos := pos - 2;
        t := Some(Text(value[..|value| - 2]));
        assert value[..|value| - 2] == source[old(pos)..pos];
      } else {
        t := None;
      }
    }

    /** `scan(/.+/m)`: everything that is left, if anything is. */
    method ScanRemainder() returns (t: Option<Token>)
      requires pos <= |source|
      modifies this
      ensures old(pos) < |source| ==> t == Some(Text(source[old(pos)..])) && pos == |source|
      ensures old(pos) == |source| ==> t == None && pos == old(pos)
    {
      if pos < |source| {
        t := Some(Text(source[pos..]));
        pos := |source|;
      } else {
        t := None;
      }
    }
  }

  function Prepend(ts: seq<Token>, r: ScanOutcome): ScanOutcome
  {
    match r
    case Tokens(rest) => Tokens(ts + rest)
    case Diverges(p) => Diverges(p)
  }

  /** `Curly::Scanner.scan(source)` */
  method Scan(source: string) returns (r: ScanOutcome)
    ensures r == ScanFrom(source, 0)
  {
    var scanner := new Scanner(source);
    r := scanner.Scan();
  }
}

/** Properties of the scanner. */
module ScannerFacts {
  import opened Wrappers
  import opened Strings
  import opened Scanner

  /** The source text a token stands for; a comment line is shown without
      the white space its match may have around the comment. */
  function Render(t: Token): string
  {
    match t
    case Text(v) => v
    case Reference(v) => "{{" + v + "}}"
    case Comment(v) => "{{!" + v + "}}"
    case CommentLine(v) => "{{!" + v + "}}\n"
  }

  function RenderAll(ts: seq<Token>): string
  {
    if ts == [] then [] else Render(ts[0]) + RenderAll(ts[1..])
  }

  predicate NoCommentLines(ts: seq<Token>)
  {
    forall i :: 0 <= i < |ts| ==> !ts[i].CommentLine?
  }

  lemma OpenCommentStartsWithOpen(s: string, c: nat)
    requires StartsAt(s, c, "{{!")
    ensures StartsAt(s, c, "{{")
  {
    assert s[c..c + 2] == s[c..c + 3][..2];
  }

  /** A source without `{{` scans to the single text token holding all of
      it, or to no token when it is empty. */
  lemma NoOpenScan(s: string)
    requires Free(s, "{{")
    ensures ScanFrom(s, 0) == Tokens(if s == [] then [] else [Text(s)])
  {
    if s != [] {
      assert MatchReference(s, 0).None?;
      var c := Span(s, 0, IsSpace);
      if StartsAt(s, c, "{{!") { OpenCommentStartsWithOpen(s, c); }
      assert MatchCommentLine(s, 0).None?;
      if StartsAt(s, 0, "{{!") { OpenCommentStartsWithOpen(s, 0); }
      assert MatchComment(s, 0).None?;
      assert FindOpen(s, 0).None?;
      assert ScanTokenAt(s, 0) == (Text(s[0..]), |s|);
      assert s[0..] == s;
    }
  }

  /** A token other than a comment line renders to the source it was
      scanned from. */
  lemma TokenRenders(s: string, pos: nat)
    requires pos < |s| && !ScanTokenAt(s, pos).0.CommentLine?
    ensures Render(ScanTokenAt(s, pos).0) == s[pos..ScanTokenAt(s, pos).1]
  {
    match ScanTokenAt(s, pos).0
    case Reference(_) => ReferenceTokenAt(s, pos);
    case Comment(_) => CommentTokenAt(s, pos);
    case Text(_) => TextTokenAt(s, pos);
  }

  /** One scan step: the first token, then the tokens from where it ends. */
  lemma ScanStep(s: string, pos: nat, ts: seq<Token>)
    requires pos < |s| && ScanFrom(s, pos) == Tokens(ts)
    ensures ts != [] && ts[0] == ScanTokenAt(s, pos).0
    ensures ScanFrom(s, ScanTokenAt(s, pos).1) == Tokens(ts[1..])
  {
  }

  lemma RenderCons(ts: seq<Token>, head: string, tail: string)
    requires ts != [] && Render(ts[0]) == head && RenderAll(ts[1..]) == tail
    ensures RenderAll(ts) == head + tail
  {
  }

  lemma SliceSplit(s: string, a: nat, b: nat)
    requires a <= b <= |s|
    ensures s[a..] == s[a..b] + s[b..]
  {
  }

  /** Without comment lines, the tokens of a scan render back to exactly the
      source they came from. */
  lemma {:induction false} ScanRoundTrip(s: string, pos: nat, ts: seq<Token>)
    requires pos <= |s|
    requires ScanFrom(s, pos) == Tokens(ts) && NoCommentLines(ts)
    ensures RenderAll(ts) == s[pos..]
    decreases |s| - pos
  {
    if pos < |s| {
      var next := ScanTokenAt(s, pos).1;
      ScanStep(s, pos, ts);
      assert !ts[0].CommentLine?;
      TokenRenders(s, pos);
      assert NoCommentLines(ts[1..]) by {
        forall i | 0 <= i < |ts[1..]| ensures !ts[1..][i].CommentLine? {
          assert ts[1..][i] == ts[i + 1];
        }
      }
      ScanRoundTrip(s, next, ts[1..]);
      RenderCons(ts, s[pos..next], s[next..]);
      SliceSplit(s, pos, next);
    } else {
      assert s[pos..] == [];
    }
  }

  /** Every text token of a finished scan is non-empty. */
  lemma {:induction false} TextTokensNonEmpty(s: string, pos: nat, ts: seq<Token>)
    requires pos <= |s|
    requires ScanFrom(s, pos) == Tokens(ts)
    ensures forall i :: 0 <= i < |ts| && ts[i].Text? ==> ts[i].value != []
    decreases |s| - pos
  {
    if pos < |s| {
      var (t, next) := ScanTokenAt(s, pos);
      var rest: seq<Token> :| ScanFrom(s, next) == Tokens(rest) && ts == [t] + rest;
      TextTokensNonEmpty(s, next, rest);
      if t.Text? {
        TextTokenAt(s, pos);
      }
      forall i | 0 < i < |ts| ensures ts[i] == rest[i - 1] { }
    }
  }

  /** The scan loops forever exactly at a `{{` that starts neither a
      reference nor a comment: `scan_text` finds that very `{{`, rewinds and
      returns an empty text without moving the cursor. */
  lemma {:induction false} DivergesOnlyWhenStuck(s: string, pos: nat)
    requires pos <= |s| && ScanFrom(s, pos).Diverges?
    ensures var p := ScanFrom(s, pos).position; pos <= p < |s| && Stuck(s, p)
    decreases |s| - pos
  {
    var (t, next) := ScanTokenAt(s, pos);
    if next != pos {
      DivergesOnlyWhenStuck(s, next);
    }
  }

  /** `Curly::Scanner.scan("hello {{name}}!")` gives
      `[[:text, "hello "], [:reference, "name"], [:text, "!"]]`. */
  lemma DocumentedExample()
    ensures ScanFrom("hello {{name}}!", 0)
      == Tokens([Text("hello "), Reference("name"), Text("!")])
  {
    ExampleFirstToken();
    ExampleRest();
  }

  lemma ExampleRest()
    ensures ScanFrom("hello {{name}}!", 6) == Tokens([Reference("name"), Text("!")])
  {
    var s := "hello {{name}}!";
    ExampleSecondToken();
    ExampleLastToken();
    assert ScanFrom(s, 15) == Tokens([]);
    assert ScanFrom(s, 14) == Tokens([Text("!")]);
  }

  lemma ExampleFirstToken()
    ensures ScanTokenAt("hello {{name}}!", 0) == (Text("hello "), 6)
  {
    var s := "hello {{name}}!";
    assert s[..6] == "hello ";
    NoOpenBefore(s, 0, 6);
    FindOpenAt(s, 0, 6);
    PlainTokenAt(s, 0);
  }

  lemma ExampleSecondToken()
    ensures ScanTokenAt("hello {{name}}!", 6) == (Reference("name"), 14)
  {
    var s := "hello {{name}}!";
    assert Span(s, 8, IsReferenceChar) == 4 by {
      SpanUnique(s, 8, IsReferenceChar, 4);
    }
    assert StartsAt(s, 6, "{{") && StartsAt(s, 12, "}}");
    assert MatchReference(s, 6) == Some(14);
    assert s[8..12] == "name";
  }

  lemma ExampleLastToken()
    ensures ScanTokenAt("hello {{name}}!", 14) == (Text("!"), 15)
  {
    var s := "hello {{name}}!";
    assert FindOpen(s, 14).None?;
    PlainTokenAt(s, 14);
  }

  /** At a character that is neither `{` nor white space the token is text
      up to the next `{{`. */
  lemma PlainTokenAt(s: string, pos: nat)
    requires pos < |s| && s[pos] != '{' && !IsSpace(s[pos])
    ensures ScanTokenAt(s, pos) == match FindOpen(s, pos)
      case Some(i) => (Text(s[pos..i]), i)
      case None => (Text(s[pos..]), |s|)
  {
    assert Span(s, pos, IsSpace) == 0;
    assert !StartsAt(s, pos, "{{!");
    assert MatchReference(s, pos).None? && MatchCommentLine(s, pos).None? && MatchComment(s, pos).None?;
  }

  lemma NoOpenBefore(s: string, pos: nat, i: nat)
    requires pos <= i <= |s|
    requires forall k :: pos <= k < i ==> s[k] != '{'
    ensures forall k :: pos <= k < i ==> !StartsAt(s, k, "{{")
  {
    forall k | pos <= k < i ensures !StartsAt(s, k, "{{") {
      assert k + 2 <= |s| ==> s[k..k + 2][0] == s[k];
    }
  }

  lemma {:induction false} FindOpenAt(s: string, pos: nat, i: nat)
    requires pos <= i && StartsAt(s, i, "{{")
    requires forall k :: pos <= k < i ==> !StartsAt(s, k, "{{")
    ensures FindOpen(s, pos) == Some(i)
    decreases i - pos
  {
    if pos < i {
      FindOpenAt(s, pos + 1, i);
    }
  }

  /** A comment cannot span lines: `{{!` followed by a line feed before any
      `}}` is a bare `{{`, where the scan never ends. */
  lemma MultiLineCommentDiverges()
    ensures ScanFrom("{{!\nfoo\n}}", 0) == Diverges(0)
  {
    var s := "{{!\nfoo\n}}";
    assert LineEnd(s, 3) == 3;
    assert Span(s, 0, IsSpace) == 0;
    assert MatchCommentLine(s, 0).None?;
    assert MatchComment(s, 0).None?;
    assert Stuck(s, 0);
  }

  // ---------------------------------------------------------------------
  // The comment-line value

  /** As written, `value[3..-4]` of a comment line with white space before
      the comment keeps part of the `{{!`: the scanner reads `"  {{!x}}\n"`
      as the comment-line token `"{!x"`. */
  lemma CommentLineAsWrittenCounterexample()
    ensures var s := "  {{!x}}\n";
      && MatchCommentLine(s, 0) == Some(CommentLineMatch(2, 6, 9))
      && CommentLineValueAsWritten(s, 0, CommentLineMatch(2, 6, 9)) == "{!x"
      && CommentLineValue(s, CommentLineMatch(2, 6, 9)) == "x"
      && ScanTokenAt(s, 0) == (CommentLine("{!x"), 9)
  {
    var s := "  {{!x}}\n";
    CounterexampleMatch();
    assert MatchReference(s, 0).None?;
    assert s[0..9] == s;
    assert s[3..6] == "{!x";
    assert s[5..6] == "x";
  }

  lemma CounterexampleMatch()
    ensures MatchCommentLine("  {{!x}}\n", 0) == Some(CommentLineMatch(2, 6, 9))
  {
    var s := "  {{!x}}\n";
    assert Span(s, 0, IsSpace) == 2 by { SpanUnique(s, 0, IsSpace, 2); }
    assert LineEnd(s, 5) == 8 by { SpanUnique(s, 5, NotNewline, 3); }
    CounterexampleTail();
  }

  lemma CounterexampleTail()
    ensures CommentLineTail("  {{!x}}\n", 5, 8) == Some((6, 9))
  {
    var s := "  {{!x}}\n";
    assert LastClose(s, 5, 8) == Some(6);
    assert Span(s, 8, IsSpace) == 1 by { SpanUnique(s, 8, IsSpace, 1); }
    assert LastNewline(s, 8, 9) == Some(8);
  }

  /** The corrected value is the comment's body: the match is the white
      space before the comment, `{{!`, the value, `}}`, and white space that
      ends in a line feed (see `MatchCommentLine`). */
  lemma CommentLineValueIsBody(s: string, pos: nat)
    requires pos <= |s| && MatchCommentLine(s, pos).Some?
    ensures var m := MatchCommentLine(s, pos).value;
      s[pos..m.end] == s[pos..m.open] + "{{!" + CommentLineValue(s, m) + "}}" + s[m.close + 2..m.end]
  {
    var m := MatchCommentLine(s, pos).value;
    BodyBetween(s, pos, m.open, m.close, m.end);
  }

  lemma BodyBetween(s: string, a: nat, open: nat, close: nat, end: nat)
    requires a <= open && open + 3 <= close && close + 2 <= end <= |s|
    requires StartsAt(s, open, "{{!") && StartsAt(s, close, "}}")
    ensures s[a..end] == s[a..open] + "{{!" + s[open + 3..close] + "}}" + s[close + 2..end]
  {
    assert s[open..open + 3] == "{{!" && s[close..close + 2] == "}}";
    SplitAt(s, a, open, end);
    SplitAt(s, open, open + 3, end);
    SplitAt(s, open + 3, close, end);
    SplitAt(s, close, close + 2, end);
  }

  lemma SplitAt(s: string, a: nat, b: nat, c: nat)
    requires a <= b <= c <= |s|
    ensures s[a..c] == s[a..b] + s[b..c]
  {
  }

  /** Where the comment line has no white space around the comment, the value
      as written and the corrected value agree. */
  lemma CommentLineAsWrittenAgreesWithoutSpace(s: string, pos: nat)
    requires pos <= |s| && MatchCommentLine(s, pos).Some?
    requires MatchCommentLine(s, pos).value.open == pos
    requires MatchCommentLine(s, pos).value.end == MatchCommentLine(s, pos).value.close + 3
    ensures var m := MatchCommentLine(s, pos).value;
      CommentLineValueAsWritten(s, pos, m) == CommentLineValue(s, m)
  {
  }
}
