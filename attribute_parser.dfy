/** The attribute parser (lib/curly/attribute_parser.rb): turns the
    `key=value` list that follows a component name into an ordered map. A
    cursor skips white space, scans a `\w+=` name, then a bare, single-quoted
    or double-quoted value, until the input is used up. Every scanning
    function below reads the input `s` from the cursor position `i`. */
module AttributeParser {
  import opened Wrappers
  import opened Strings
  import opened OrderedMaps

  /** `Curly::AttributeError` */
  datatype AttributeError = AttributeError

  /** What one `@scanner.scan` yields: the matched text as the parser keeps
      it, and how far the cursor moves; or `nil`. */
  datatype Scanned = Matched(text: string, length: nat) | NoMatch

  /** `scan(/\w+=/)`, keeping the name without its `=`. */
  function NameMatch(s: string, i: nat): (r: Scanned)
    requires i <= |s|
    ensures r.Matched? ==> r.text != [] && i + r.length <= |s| && r.length == |r.text| + 1
  {
    var n := Span(s, i, IsWordChar);
    if n > 0 && i + n < |s| && s[i + n] == '=' then Matched(s[i..i + n], n + 1) else NoMatch
  }

  /** `scan(/\w+/)` */
  function UnquotedValueMatch(s: string, i: nat): (r: Scanned)
    requires i <= |s|
    ensures r.Matched? ==> r.text != [] && i + r.length <= |s| && r.length == |r.text|
  {
    var n := Span(s, i, IsWordChar);
    if n > 0 then Matched(s[i..i + n], n) else NoMatch
  }

  /** The class `[^q]`. */
  function Unlike(q: char): char -> bool
  {
    c => c != q
  }

  /** `scan(/'[^']*'/)` or `scan(/"[^"]*"/)`, keeping what is between the
      quotes. */
  function QuotedValueMatch(s: string, i: nat, q: char): (r: Scanned)
    requires i <= |s|
    ensures r.Matched? ==> i + r.length <= |s| && r.length == |r.text| + 2
  {
    if i < |s| && s[i] == q then
      var n := Span(s, i + 1, Unlike(q));
      if i + 1 + n < |s| then Matched(s[i + 1..i + 1 + n], n + 2) else NoMatch
    else NoMatch
  }

  /** `scan_unquoted_value || scan_single_quoted_value || scan_double_quoted_value` */
  function ValueMatch(s: string, i: nat): (r: Scanned)
    requires i <= |s|
    ensures r.Matched? ==> 0 < r.length && i + r.length <= |s|
  {
    var unquoted := UnquotedValueMatch(s, i);
    if unquoted.Matched? then unquoted
    else
      var single := QuotedValueMatch(s, i, '\'');
      if single.Matched? then single
      else QuotedValueMatch(s, i, '"')
  }

  /** The outcome of `scan_attribute`. */
  datatype AttributeStep =
    | EndOfInput
    | Attribute(name: string, value: string, consumed: nat)
    | Malformed

  /** `scan_attribute`: skip white space; stop at the end; otherwise a name and
      a value are both required. */
  function AttributeMatch(s: string, i: nat): (r: AttributeStep)
    requires i <= |s|
    ensures r.Attribute? ==> 0 < r.consumed && i + r.consumed <= |s|
  {
    var w := Span(s, i, IsSpace);
    if i + w == |s| then EndOfInput
    else
      var name := NameMatch(s, i + w);
      if name.NoMatch? then Malformed
      else
        var value := ValueMatch(s, i + w + name.length);
        if value.NoMatch? then Malformed
        else Attribute(name.text, value.text, w + name.length + value.length)
  }

  /** `scan_attributes`: the pairs in the order they are written, or the
      error raised by the first malformed one. */
  function AttributesFrom(s: string, i: nat): Result<seq<Pair>, AttributeError>
    requires i <= |s|
    decreases |s| - i
  {
    match AttributeMatch(s, i)
    case EndOfInput => Success([])
    case Malformed => Failure(AttributeError)
    case Attribute(name, value, c) => PrependPairs([(name, value)], AttributesFrom(s, i + c))
  }

  /** `ps` in front of the pairs of a successful scan. */
  function PrependPairs(ps: seq<Pair>, r: Result<seq<Pair>, AttributeError>): Result<seq<Pair>, AttributeError>
  {
    match r
    case Success(rest) => Success(ps + rest)
    case Failure(e) => Failure(e)
  }

  /** `AttributeParser.parse(string)`: `{}` for `nil`, otherwise
      `Hash[scan_attributes]`. */
  function Attributes(input: Option<string>): Result<OrderedMap, AttributeError>
  {
    match input
    case None => Success([])
    case Some(s) =>
      match AttributesFrom(s, 0)
      case Success(pairs) => Success(FromPairs(pairs))
      case Failure(e) => Failure(e)
  }

  /** A scan method returned the text of `m` and advanced the cursor by its
      length, or returned `nil` and left the cursor alone. */
  predicate ScannedBy(m: Scanned, r: Option<string>, before: nat, after: nat)
  {
    match m
    case Matched(text, length) => r == Some(text) && after == before + length
    case NoMatch => r == None && after == before
  }

  /** `scan_attribute` returned `nil` at the end, raised for a malformed
      attribute, or returned the pair and moved the cursor past it. */
  predicate AttributeScanned(step: AttributeStep, r: Result<Option<Pair>, AttributeError>, before: nat, after: nat)
  {
    match step
    case EndOfInput => r == Success(None)
    case Malformed => r == Failure(AttributeError)
    case Attribute(name, value, c) => r == Success(Some((name, value))) && after == before + c
  }

  class AttributeParser {
    const input: string
    var pos: nat

    constructor (input: string)
      ensures this.input == input && pos == 0
    {
      this.input := input;
      pos := 0;
    }

    method Parse() returns (r: Result<OrderedMap, AttributeError>)
      requires pos == 0
      modifies this
      ensures r == Attributes(Some(input))
    {
      var attributes := ScanAttributes();
      if attributes.Failure? {
        return Failure(attributes.error);
      }
      r := Success(FromPairs(attributes.value));
    }

    method ScanAttributes() returns (r: Result<seq<Pair>, AttributeError>)
      requires pos <= |input|
      modifies this
      ensures r == AttributesFrom(input, old(pos))
    {
      var attributes: seq<Pair> := [];
      PrependNothing(AttributesFrom(input, pos));
      while true
        invariant old(pos) <= pos <= |input|
        invariant AttributesFrom(input, old(pos))
          == PrependPairs(attributes, AttributesFrom(input, pos))
        decreases |input| - pos
      {
        var before := pos;
        var attribute := ScanAttribute();
        ScannedFrom(input, before, pos, attribute);
        if attribute.Failure? {
          return Failure(attribute.error);
        }
        if attribute.value.None? {
          assert attributes + [] == attributes;
          return Success(attributes);
        }
        var pair := attribute.value.value;
        PrependStep(attributes, pair, AttributesFrom(input, pos));
        attributes := attributes + [pair];
      }
    }

    method ScanAttribute() returns (r: Result<Option<Pair>, AttributeError>)
      requires pos <= |input|
      modifies this
      ensures pos <= |input|
      ensures AttributeScanned(AttributeMatch(input, old(pos)), r, old(pos), pos)
    {
      SkipWhitespace();
      if pos == |input| {
        return Success(None);
      }
      var name := ScanName();
      if name.None? {
        return Failure(AttributeError);
      }
      var value := ScanValue();
      if value.None? {
        return Failure(AttributeError);
      }
      r := Success(Some((name.value, value.value)));
    }

    method SkipWhitespace()
      requires pos <= |input|
      modifies this
      ensures pos == old(pos) + Span(input, old(pos), IsSpace)
    {
      pos := pos + Span(input, pos, IsSpace);
    }

    method ScanName() returns (name: Option<string>)
      requires pos <= |input|
      modifies this
      ensures ScannedBy(NameMatch(input, old(pos)), name, old(pos), pos)
    {
      var m := NameMatch(input, pos);
      if m.Matched? {
        var matched := input[pos..pos + m.length];
        assert matched[..|matched| - 1] == input[pos..pos + m.length - 1];
        pos := pos + m.length;
        // the name without its "="
        name := Some(matched[..|matched| - 1]);
      } else {
        name := None;
      }
    }

    method ScanValue() returns (value: Option<string>)
      requires pos <= |input|
      modifies this
      ensures ScannedBy(ValueMatch(input, old(pos)), value, old(pos), pos)
    {
      value := ScanUnquotedValue();
      if value.None? {
        value := ScanQuotedValue('\'');
      }
      if value.None? {
        value := ScanQuotedValue('"');
      }
    }

    method ScanUnquotedValue() returns (value: Option<string>)
      requires pos <= |input|
      modifies this
      ensures ScannedBy(UnquotedValueMatch(input, old(pos)), value, old(pos), pos)
    {
      var m := UnquotedValueMatch(input, pos);
      if m.Matched? {
        value := Some(input[pos..pos + m.length]);
        pos := pos + m.length;
      } else {
        value := None;
      }
    }

    /** `scan_single_quoted_value` (q is `'`) and `scan_double_quoted_value`
        (q is `"`). */
    method ScanQuotedValue(q: char) returns (value: Option<string>)
      requires pos <= |input|
      modifies this
      ensures ScannedBy(QuotedValueMatch(input, old(pos), q), value, old(pos), pos)
    {
      var m := QuotedValueMatch(input, pos, q);
      if m.Matched? {
        // the contents without the quotes
        value := Some(input[pos + 1..pos + m.length - 1]);
        pos := pos + m.length;
      } else {
        value := None;
      }
    }
  }

  /** What one `scan_attribute` call tells about the rest of the scan. */
  lemma ScannedFrom(s: string, before: nat, after: nat, r: Result<Option<Pair>, AttributeError>)
    requires before <= |s| && after <= |s|
    requires AttributeScanned(AttributeMatch(s, before), r, before, after)
    ensures r.Failure? ==> AttributesFrom(s, before) == Failure(AttributeError)
    ensures r == Success(None) ==> AttributesFrom(s, before) == Success([])
    ensures r.Success? && r.value.Some? ==>
      before < after && AttributesFrom(s, before) == PrependPairs([r.value.value], AttributesFrom(s, after))
  {
  }

  lemma PrependNothing(r: Result<seq<Pair>, AttributeError>)
    ensures PrependPairs([], r) == r
  {
    if r.Success? {
      assert [] + r.value == r.value;
    }
  }

  lemma PrependStep(ps: seq<Pair>, p: Pair, r: Result<seq<Pair>, AttributeError>)
    ensures PrependPairs(ps, PrependPairs([p], r)) == PrependPairs(ps + [p], r)
  {
    if r.Success? {
      assert ps + ([p] + r.value) == ps + [p] + r.value;
    }
  }

  /** `Curly::AttributeParser.parse(string)` */
  method Parse(input: Option<string>) returns (r: Result<OrderedMap, AttributeError>)
    ensures r == Attributes(input)
  {
    if input.None? {
      return Success([]);
    }
    var parser := new AttributeParser(input.value);
    r := parser.Parse();
  }
}

/** What the attribute parser promises: blank lists are empty, a name needs a
    value, and every list written in the `key=value` syntax reads back as the
    pairs it was written from. */
module AttributeParserFacts {
  import opened Wrappers
  import opened Strings
  import opened OrderedMaps
  import opened AttributeParser

  /** Empty, or starting with white space: what may follow a value. */
  predicate StartsBlank(s: string)
  {
    s == [] || IsSpace(s[0])
  }

  predicate IsWord(s: string)
  {
    s != [] && forall k :: 0 <= k < |s| ==> IsWordChar(s[k])
  }

  /** A value the syntax can express: bare, or inside a quote it lacks. */
  predicate Writable(p: Pair)
  {
    IsWord(p.0) && ('"' !in p.1 || '\'' !in p.1)
  }

  /** A value as written: bare when it is a word, otherwise in double quotes
      unless it holds one, then in single quotes. */
  function Quote(v: string): string
  {
    if IsWord(v) then v
    else if '"' !in v then "\"" + v + "\""
    else "'" + v + "'"
  }

  function RenderPair(p: Pair): string
  {
    p.0 + "=" + Quote(p.1)
  }

  /** Each pair preceded by one space. */
  function Spaced(ps: seq<Pair>): string
  {
    if ps == [] then "" else " " + RenderPair(ps[0]) + Spaced(ps[1..])
  }

  /** The pairs separated by single spaces. */
  function Render(ps: seq<Pair>): string
  {
    if ps == [] then "" else RenderPair(ps[0]) + Spaced(ps[1..])
  }

  // ---------------------------------------------------------------------
  // The scanners only look at the input from the cursor on

  lemma ShiftSlice(a: string, b: string, x: nat, y: nat)
    requires x <= y <= |b|
    ensures (a + b)[|a| + x..|a| + y] == b[x..y]
  {
  }

  lemma {:induction false} SpanShift(a: string, b: string, j: nat, p: char -> bool)
    requires j <= |b|
    ensures Span(a + b, |a| + j, p) == Span(b, j, p)
    decreases |b| - j
  {
    if j < |b| {
      assert (a + b)[|a| + j] == b[j];
      if p(b[j]) {
        SpanShift(a, b, j + 1, p);
      }
    }
  }

  lemma NameShift(a: string, b: string, j: nat)
    requires j <= |b|
    ensures NameMatch(a + b, |a| + j) == NameMatch(b, j)
  {
    SpanShift(a, b, j, IsWordChar);
    var n := Span(b, j, IsWordChar);
    if j + n < |b| {
      assert (a + b)[|a| + j + n] == b[j + n];
    }
    ShiftSlice(a, b, j, j + n);
  }

  lemma ValueShift(a: string, b: string, j: nat)
    requires j <= |b|
    ensures ValueMatch(a + b, |a| + j) == ValueMatch(b, j)
  {
    SpanShift(a, b, j, IsWordChar);
    ShiftSlice(a, b, j, j + Span(b, j, IsWordChar));
    QuotedShift(a, b, j, '\'');
    QuotedShift(a, b, j, '"');
  }

  lemma QuotedShift(a: string, b: string, j: nat, q: char)
    requires j <= |b|
    ensures QuotedValueMatch(a + b, |a| + j, q) == QuotedValueMatch(b, j, q)
  {
    if j < |b| {
      assert (a + b)[|a| + j] == b[j];
      if b[j] == q {
        SpanShift(a, b, j + 1, Unlike(q));
        var n := Span(b, j + 1, Unlike(q));
        if j + 1 + n < |b| {
          ShiftSlice(a, b, j + 1, j + 1 + n);
        }
      }
    }
  }

  /** `scan_attribute` put together from its white space, name and value. */
  lemma StepAt(s: string, i: nat, w: nat, name: string, n: nat, value: string, m: nat)
    requires i <= |s| && Span(s, i, IsSpace) == w
    requires NameMatch(s, i + w) == Matched(name, n)
    requires ValueMatch(s, i + w + n) == Matched(value, m)
    ensures AttributeMatch(s, i) == Attribute(name, value, w + n + m)
  {
  }

  // ---------------------------------------------------------------------
  // Reading written pairs back

  /** `parse(nil)`, `parse("")` and `parse(" ")` are all `{}`. */
  lemma BlankIsEmpty(ws: string)
    requires AllSpace(ws)
    ensures Attributes(None) == Success([])
    ensures Attributes(Some(ws)) == Success([])
  {
    SpanUnique(ws, 0, IsSpace, |ws|);
  }

  /** A name without `=`, or with `=` but no value, raises `AttributeError`
      (`parse("foo")`, `parse("foo=")`). */
  lemma NameWithoutValueFails(k: string)
    requires IsWord(k)
    ensures Attributes(Some(k)).Failure?
    ensures Attributes(Some(k + "=")).Failure?
  {
    SpanUnique(k, 0, IsSpace, 0);
    SpanUnique(k, 0, IsWordChar, |k|);
    var t := k + "=";
    SpanUnique(t, 0, IsSpace, 0);
    SpanUnique(t, 0, IsWordChar, |k|);
  }

  /** The name of a scanned attribute is a `\w` word. */
  lemma NameIsWord(s: string, i: nat)
    requires i <= |s| && AttributeMatch(s, i).Attribute?
    ensures IsWord(AttributeMatch(s, i).name)
  {
    SpanRun(s, i + Span(s, i, IsSpace), IsWordChar);
  }

  /** A successful scan is the scanned attribute followed by the rest. */
  lemma FromAttribute(s: string, i: nat)
    requires i <= |s| && AttributeMatch(s, i).Attribute? && AttributesFrom(s, i).Success?
    ensures AttributesFrom(s, i + AttributeMatch(s, i).consumed).Success?
    ensures AttributesFrom(s, i).value
      == [(AttributeMatch(s, i).name, AttributeMatch(s, i).value)]
         + AttributesFrom(s, i + AttributeMatch(s, i).consumed).value
  {
  }

  /** On success every name is a nonempty `\w` word. */
  lemma {:induction false} NamesAreWords(s: string, i: nat)
    requires i <= |s| && AttributesFrom(s, i).Success?
    ensures forall n :: 0 <= n < |AttributesFrom(s, i).value| ==> IsWord(AttributesFrom(s, i).value[n].0)
    decreases |s| - i
  {
    var step := AttributeMatch(s, i);
    if step.Attribute? {
      NameIsWord(s, i);
      FromAttribute(s, i);
      NamesAreWords(s, i + step.consumed);
      var rest := AttributesFrom(s, i + step.consumed).value;
      forall n | 0 <= n < |AttributesFrom(s, i).value|
        ensures IsWord(AttributesFrom(s, i).value[n].0)
      {
        if n > 0 {
          assert AttributesFrom(s, i).value[n] == rest[n - 1];
        }
      }
    }
  }

  lemma ReadName(k: string, w: string)
    requires IsWord(k)
    ensures NameMatch(k + "=" + w, 0) == Matched(k, |k| + 1)
  {
    var t := k + "=" + w;
    assert t[|k|] == '=' && !IsWordChar('=');
    SpanUnique(t, 0, IsWordChar, |k|);
    assert t[..|k|] == k;
  }

  lemma ReadValue(v: string, rest: string)
    requires '"' !in v || '\'' !in v
    requires StartsBlank(rest)
    ensures ValueMatch(Quote(v) + rest, 0) == Matched(v, |Quote(v)|)
  {
    var w := Quote(v) + rest;
    if IsWord(v) {
      assert w[..|v|] == v;
      assert |v| < |w| ==> w[|v|] == rest[0];
      SpanUnique(w, 0, IsWordChar, |v|);
    } else if '"' !in v {
      ReadQuoted(v, '"', rest);
    } else {
      ReadQuoted(v, '\'', rest);
    }
  }

  lemma ReadQuoted(v: string, q: char, rest: string)
    requires q == '"' || q == '\''
    requires q !in v
    ensures UnquotedValueMatch([q] + v + [q] + rest, 0) == NoMatch
    ensures QuotedValueMatch([q] + v + [q] + rest, 0, q) == Matched(v, |v| + 2)
  {
    var w := [q] + v + [q] + rest;
    assert w[0] == q && !IsWordChar(q);
    SpanUnique(w, 0, IsWordChar, 0);
    assert w[1 + |v|] == q;
    SpanUnique(w, 1, Unlike(q), |v|);
    assert w[1..1 + |v|] == v;
  }

  lemma LeadingSpace(ws: string, u: string)
    requires AllSpace(ws) && u != [] && !IsSpace(u[0])
    ensures Span(ws + u, 0, IsSpace) == |ws|
  {
    SpanUnique(ws + u, 0, IsSpace, |ws|);
  }

  lemma SpanAfter(pre: string, ws: string, k: string, qv: string, rest: string)
    requires AllSpace(ws) && IsWord(k)
    ensures Span(pre + ws + k + "=" + qv + rest, |pre|, IsSpace) == |ws|
  {
    var u := k + "=" + (qv + rest);
    assert pre + ws + k + "=" + qv + rest == pre + (ws + u);
    SpanShift(pre, ws + u, 0, IsSpace);
    LeadingSpace(ws, u);
  }

  lemma NameAfter(pre: string, ws: string, k: string, qv: string, rest: string)
    requires IsWord(k)
    ensures NameMatch(pre + ws + k + "=" + qv + rest, |pre| + |ws|) == Matched(k, |k| + 1)
  {
    assert pre + ws + k + "=" + qv + rest == (pre + ws) + (k + "=" + (qv + rest));
    NameShift(pre + ws, k + "=" + (qv + rest), 0);
    ReadName(k, qv + rest);
  }

  lemma ValueAfter(pre: string, ws: string, k: string, qv: string, rest: string, v: string)
    requires ValueMatch(qv + rest, 0) == Matched(v, |qv|)
    ensures ValueMatch(pre + ws + k + "=" + qv + rest, |pre| + |ws| + (|k| + 1)) == Matched(v, |qv|)
  {
    assert pre + ws + k + "=" + qv + rest == (pre + ws + k + "=") + (qv + rest);
    ValueShift(pre + ws + k + "=", qv + rest, 0);
  }

  /** A name, `=` and a written value `qv`, after white space, are read back
      as the name and the value, whatever comes before them. */
  lemma ReadPairAt(pre: string, ws: string, k: string, qv: string, v: string, rest: string)
    requires AllSpace(ws) && IsWord(k)
    requires ValueMatch(qv + rest, 0) == Matched(v, |qv|)
    ensures AttributeMatch(pre + ws + k + "=" + qv + rest, |pre|)
      == Attribute(k, v, |ws| + |k| + 1 + |qv|)
  {
    SpanAfter(pre, ws, k, qv, rest);
    NameAfter(pre, ws, k, qv, rest);
    ValueAfter(pre, ws, k, qv, rest, v);
    StepAt(pre + ws + k + "=" + qv + rest, |pre|, |ws|, k, |k| + 1, v, |qv|);
  }

  /** One written pair, after white space and before white space or the end,
      is read back as that pair. */
  lemma ReadPair(pre: string, ws: string, p: Pair, rest: string)
    requires AllSpace(ws) && Writable(p)
    requires StartsBlank(rest)
    ensures AttributeMatch(pre + ws + RenderPair(p) + rest, |pre|)
      == Attribute(p.0, p.1, |ws| + |RenderPair(p)|)
  {
    var qv := Quote(p.1);
    ReadValue(p.1, rest);
    assert pre + ws + RenderPair(p) + rest == pre + ws + p.0 + "=" + qv + rest;
    ReadPairAt(pre, ws, p.0, qv, p.1, rest);
  }

  /** Trailing white space ends the scan. */
  lemma FromEnd(pre: string, trail: string)
    requires AllSpace(trail)
    ensures AttributesFrom(pre + trail, |pre|) == Success([])
  {
    SpanShift(pre, trail, 0, IsSpace);
    SpanUnique(trail, 0, IsSpace, |trail|);
  }

  lemma SpacedFirst(pre: string, ps: seq<Pair>, trail: string)
    requires ps != []
    ensures pre + Spaced(ps) + trail
      == pre + " " + RenderPair(ps[0]) + (Spaced(ps[1..]) + trail)
  {
    var x := " " + RenderPair(ps[0]);
    var y := Spaced(ps[1..]);
    assert Spaced(ps) == x + y;
    Assoc(pre, " ", RenderPair(ps[0]));
    Assoc(pre, x, y);
    Assoc(pre + x, y, trail);
  }

  lemma SpacedRest(pre: string, ps: seq<Pair>, trail: string)
    requires ps != []
    ensures pre + Spaced(ps) + trail
      == (pre + " " + RenderPair(ps[0])) + Spaced(ps[1..]) + trail
  {
    var x := " " + RenderPair(ps[0]);
    var y := Spaced(ps[1..]);
    assert Spaced(ps) == x + y;
    Assoc(pre, " ", RenderPair(ps[0]));
    Assoc(pre, x, y);
  }

  /** The first pair read at `i`, then the others read from `j`. */
  lemma ReadCons(s: string, i: nat, j: nat, ps: seq<Pair>)
    requires ps != []
    requires i <= j && i <= |s| && AttributeMatch(s, i) == Attribute(ps[0].0, ps[0].1, j - i)
    requires j <= |s| && AttributesFrom(s, j) == Success(ps[1..])
    ensures AttributesFrom(s, i) == Success(ps)
  {
    assert AttributesFrom(s, i) == PrependPairs([(ps[0].0, ps[0].1)], AttributesFrom(s, j));
    assert [(ps[0].0, ps[0].1)] + ps[1..] == ps;
  }

  /** Whatever follows a spaced pair starts blank. */
  lemma SpacedBlank(ps: seq<Pair>, trail: string)
    requires AllSpace(trail)
    ensures StartsBlank(Spaced(ps) + trail)
  {
    if ps != [] {
      assert (Spaced(ps) + trail)[0] == ' ';
    }
  }

  /** The first of the spaced pairs is read back. */
  lemma ReadSpacedHead(pre: string, ps: seq<Pair>, trail: string)
    requires ps != [] && Writable(ps[0]) && AllSpace(trail)
    ensures AttributeMatch(pre + Spaced(ps) + trail, |pre|)
      == Attribute(ps[0].0, ps[0].1, |pre + " " + RenderPair(ps[0])| - |pre|)
  {
    SpacedFirst(pre, ps, trail);
    SpacedBlank(ps[1..], trail);
    ReadPair(pre, " ", ps[0], Spaced(ps[1..]) + trail);
  }

  lemma {:induction false} ReadSpaced(pre: string, ps: seq<Pair>, trail: string)
    requires forall i :: 0 <= i < |ps| ==> Writable(ps[i])
    requires AllSpace(trail)
    ensures AttributesFrom(pre + Spaced(ps) + trail, |pre|) == Success(ps)
    decreases |ps|
  {
    if ps == [] {
      assert pre + Spaced(ps) + trail == pre + trail;
      FromEnd(pre, trail);
    } else {
      var pre' := pre + " " + RenderPair(ps[0]);
      ReadSpacedHead(pre, ps, trail);
      ReadSpaced(pre', ps[1..], trail);
      SpacedRest(pre, ps, trail);
      ReadCons(pre + Spaced(ps) + trail, |pre|, |pre'|, ps);
    }
  }

  lemma RenderFirst(lead: string, ps: seq<Pair>, trail: string)
    requires ps != []
    ensures lead + Render(ps) + trail
      == [] + lead + RenderPair(ps[0]) + (Spaced(ps[1..]) + trail)
  {
    var x := RenderPair(ps[0]);
    var y := Spaced(ps[1..]);
    assert Render(ps) == x + y;
    assert [] + lead == lead;
    Assoc(lead, x, y);
    Assoc(lead + x, y, trail);
  }

  lemma RenderRest(lead: string, ps: seq<Pair>, trail: string)
    requires ps != []
    ensures lead + Render(ps) + trail
      == (lead + RenderPair(ps[0])) + Spaced(ps[1..]) + trail
  {
    var x := RenderPair(ps[0]);
    var y := Spaced(ps[1..]);
    assert Render(ps) == x + y;
    Assoc(lead, x, y);
  }

  /** The first of the rendered pairs is read back. */
  lemma RenderHead(lead: string, ps: seq<Pair>, trail: string)
    requires ps != [] && Writable(ps[0]) && AllSpace(lead) && AllSpace(trail)
    ensures AttributeMatch(lead + Render(ps) + trail, 0)
      == Attribute(ps[0].0, ps[0].1, |lead + RenderPair(ps[0])|)
  {
    RenderFirst(lead, ps, trail);
    SpacedBlank(ps[1..], trail);
    ReadPair([], lead, ps[0], Spaced(ps[1..]) + trail);
  }

  /** The round trip: pairs written with `Render`, padded with any white
      space, read back as the same pairs in the same order, and the parsed map
      is `Hash[pairs]`. */
  lemma {:induction false} RenderRoundTrip(lead: string, ps: seq<Pair>, trail: string)
    requires forall i :: 0 <= i < |ps| ==> Writable(ps[i])
    requires AllSpace(lead) && AllSpace(trail)
    ensures AttributesFrom(lead + Render(ps) + trail, 0) == Success(ps)
    ensures Attributes(Some(lead + Render(ps) + trail)) == Success(FromPairs(ps))
  {
    if ps == [] {
      assert lead + Render(ps) + trail == [] + (lead + trail);
      FromEnd([], lead + trail);
    } else {
      var pre' := lead + RenderPair(ps[0]);
      RenderHead(lead, ps, trail);
      ReadSpaced(pre', ps[1..], trail);
      RenderRest(lead, ps, trail);
      ReadCons(lead + Render(ps) + trail, 0, |pre'|, ps);
    }
  }

  /** With distinct names the parsed map holds exactly the written pairs. */
  lemma DistinctRoundTrip(lead: string, ps: seq<Pair>, trail: string)
    requires forall i :: 0 <= i < |ps| ==> Writable(ps[i])
    requires DistinctKeys(ps)
    requires AllSpace(lead) && AllSpace(trail)
    ensures Attributes(Some(lead + Render(ps) + trail)) == Success(ps)
  {
    RenderRoundTrip(lead, ps, trail);
    FromDistinctPairs(ps);
  }
}
