/** The component scanner (lib/curly/component_scanner.rb): splits the text
    of a component tag at its first white-space run into a head and an
    optional rest, splits the head at its first `.` into name and
    identifier, and reads the rest with the attribute parser. */
module ComponentScanner {
  import opened Wrappers
  import opened Strings
  import opened OrderedMaps
  import AttributeParser
  import AttributeParserFacts
  import opened IncorrectEndingError

  /** What `ComponentScanner.scan` raises. */
  datatype ComponentError =
    | NoMethodError                     // `nil.split`: the empty tag has no head
    | AttributeFailure(error: AttributeParser.AttributeError)

  /** `[name, identifier, attributes]` */
  type Parts = (Option<string>, Option<string>, OrderedMap)

  /** `s.split(/\s+/, 2)`: nothing for the empty string, the whole string
      when it holds no white space, otherwise what precedes the first
      white-space run and what follows it (both possibly empty). */
  function SplitOnWhitespace(s: string): (r: seq<string>)
    ensures |r| <= 2
    ensures r == [] <==> s == []
  {
    if s == [] then []
    else
      var k := Span(s, 0, NotSpace);
      if k == |s| then [s] else [s[..k], s[k + Span(s, k, IsSpace)..]]
  }

  predicate NotDot(c: char)
  {
    c != '.'
  }

  /** `s.split(".", 2)`: nothing for the empty string, the whole string when
      it holds no dot, otherwise what precedes the first dot and what follows
      it (both possibly empty). */
  function SplitOnDot(s: string): (r: seq<string>)
    ensures |r| <= 2
    ensures r == [] <==> s == []
  {
    if s == [] then []
    else
      var d := Span(s, 0, NotDot);
      if d == |s| then [s] else [s[..d], s[d + 1..]]
  }

  /** Element `i` of a multiple assignment `a, b = xs`: `nil` past the end. */
  function Field(xs: seq<string>, i: nat): Option<string>
  {
    if i < |xs| then Some(xs[i]) else None
  }

  /** `ComponentScanner.scan(component)` */
  function Scan(component: string): (r: Result<Parts, ComponentError>)
    ensures r == Failure(NoMethodError) <==> component == []
  {
    var fields := SplitOnWhitespace(component);
    if fields == [] then Failure(NoMethodError)
    else
      var names := SplitOnDot(fields[0]);
      match AttributeParser.Attributes(Field(fields, 1))
      case Failure(e) => Failure(AttributeFailure(e))
      case Success(attributes) => Success((Field(names, 0), Field(names, 1), attributes))
  }

  // ---------------------------------------------------------------------
  // The two splits

  /** What the white-space split yields: a head without white space, and
      when there is a rest, a non-empty white-space run between the two and
      a rest that does not start with white space. */
  lemma SplitOnWhitespaceParts(s: string)
    ensures var r := SplitOnWhitespace(s);
      (|r| == 1 ==> r[0] == s && NoSpace(s))
      && (|r| == 2 ==>
            NoSpace(r[0]) && (r[1] == [] || !IsSpace(r[1][0]))
            && |r[0]| < |s| - |r[1]| && AllSpace(s[|r[0]|..|s| - |r[1]|])
            && s == r[0] + s[|r[0]|..|s| - |r[1]|] + r[1])
  {
    if s != [] {
      var k := Span(s, 0, NotSpace);
      SpanRun(s, 0, NotSpace);
      SpanStop(s, 0, NotSpace);
      if k < |s| {
        var n := Span(s, k, IsSpace);
        SpanRun(s, k, IsSpace);
        SpanStop(s, k, IsSpace);
        assert s == s[..k] + s[k..k + n] + s[k + n..];
      }
    }
  }

  /** A head, a white-space run and a rest split back into the head and the
      rest. */
  lemma SplitOnWhitespaceOf(head: string, sep: string, rest: string)
    requires NoSpace(head)
    requires sep != [] && AllSpace(sep)
    requires rest == [] || !IsSpace(rest[0])
    ensures SplitOnWhitespace(head + sep + rest) == [head, rest]
  {
    var s := head + sep + rest;
    assert forall k :: 0 <= k < |head| ==> s[k] == head[k];
    assert s[|head|] == sep[0];
    SpanUnique(s, 0, NotSpace, |head|);
    assert forall k :: |head| <= k < |head| + |sep| ==> s[k] == sep[k - |head|];
    assert rest != [] ==> s[|head| + |sep|] == rest[0];
    SpanUnique(s, |head|, IsSpace, |sep|);
    assert s[..|head|] == head;
    assert s[|head| + |sep|..] == rest;
  }

  /** The split happens at the first white-space run. */
  lemma SplitOnWhitespaceAt(s: string, k: nat, n: nat)
    requires 0 < n && k + n <= |s|
    requires NoSpace(s[..k]) && AllSpace(s[k..k + n])
    requires k + n == |s| || !IsSpace(s[k + n])
    ensures SplitOnWhitespace(s) == [s[..k], s[k + n..]]
  {
    assert forall i :: 0 <= i < k ==> s[i] == s[..k][i];
    assert forall i :: k <= i < k + n ==> s[i] == s[k..k + n][i - k];
    SpanUnique(s, 0, NotSpace, k);
    SpanUnique(s, k, IsSpace, n);
  }

  /** A non-empty head without white space is its own only field. */
  lemma SplitOnWhitespaceNone(head: string)
    requires head != [] && NoSpace(head)
    ensures SplitOnWhitespace(head) == [head]
  {
    SpanUnique(head, 0, NotSpace, |head|);
  }

  /** Joining the dot split with `.` gives back the string it split, and the
      name part holds no dot. */
  lemma JoinSplitOnDot(s: string)
    ensures Join(SplitOnDot(s), ".") == s
    ensures |SplitOnDot(s)| >= 1 ==> '.' !in SplitOnDot(s)[0]
  {
    if s != [] {
      var d := Span(s, 0, NotDot);
      SpanRun(s, 0, NotDot);
      SpanStop(s, 0, NotDot);
      assert forall k :: 0 <= k < d ==> s[..d][k] == s[k];
      if d < |s| {
        assert s == s[..d] + "." + s[d + 1..];
      }
    }
  }

  /** A name without dots, a dot and an identifier split back into the two. */
  lemma SplitOnDotOf(name: string, identifier: string)
    requires '.' !in name
    ensures SplitOnDot(name + "." + identifier) == [name, identifier]
  {
    var s := name + "." + identifier;
    assert forall k :: 0 <= k < |name| ==> s[k] == name[k];
    assert s[|name|] == '.';
    SpanUnique(s, 0, NotDot, |name|);
    assert s[..|name|] == name;
    assert s[|name| + 1..] == identifier;
  }

  /** The split happens at the first dot. */
  lemma SplitOnDotAt(s: string, d: nat)
    requires d < |s| && s[d] == '.'
    requires '.' !in s[..d]
    ensures SplitOnDot(s) == [s[..d], s[d + 1..]]
  {
    assert forall k :: 0 <= k < d ==> s[k] == s[..d][k];
    SpanUnique(s, 0, NotDot, d);
  }

  /** A name without dots is its own only field. */
  lemma SplitOnDotNone(name: string)
    requires name != [] && '.' !in name
    ensures SplitOnDot(name) == [name]
  {
    SpanUnique(name, 0, NotDot, |name|);
  }

  // ---------------------------------------------------------------------
  // Whole tags

  /** The name of a block as an error message presents it scans back into
      the same name and identifier. */
  lemma PresentedHead(name: string, identifier: Option<string>)
    requires '.' !in name
    requires name != [] || identifier.Some?
    ensures var names := SplitOnDot(PresentBlock((Some(name), identifier)));
      Field(names, 0) == Some(name) && Field(names, 1) == identifier
  {
    if identifier.Some? {
      SplitOnDotOf(name, identifier.value);
    } else {
      SplitOnDotNone(name);
    }
  }

  /** Presenting the two halves of any dot split gives back the head it was
      split from. */
  lemma PresentSplit(head: string)
    ensures var names := SplitOnDot(head);
      PresentBlock((Field(names, 0), Field(names, 1))) == head
  {
    JoinSplitOnDot(head);
  }

  /** A tag written as `name.identifier`, then white space and an attribute
      list (possibly followed by white space), scans into that name, that
      identifier and `Hash[pairs]`; with no white space at all the
      attributes are `{}`. */
  lemma ScanRoundTrip(name: string, identifier: Option<string>, sep: string, ps: seq<Pair>, trail: string)
    requires '.' !in name && NoSpace(name)
    requires name != [] || identifier.Some?
    requires identifier.Some? ==> NoSpace(identifier.value)
    requires forall i :: 0 <= i < |ps| ==> AttributeParserFacts.Writable(ps[i])
    requires AllSpace(sep) && AllSpace(trail)
    requires sep == [] ==> ps == [] && trail == []
    ensures Scan(PresentBlock((Some(name), identifier)) + sep + AttributeParserFacts.Render(ps) + trail)
      == Success((Some(name), identifier, FromPairs(ps)))
  {
    var head := PresentBlock((Some(name), identifier));
    PresentedHead(name, identifier);
    PresentedHasNoSpace(name, identifier);
    if sep == [] {
      ScanBareHead(head, ps, trail);
    } else if ps == [] {
      ScanEmptyList(head, sep, trail);
    } else {
      ScanList(head, sep, ps, trail);
    }
  }

  lemma ScanBareHead(head: string, ps: seq<Pair>, trail: string)
    requires head != [] && NoSpace(head)
    requires ps == [] && trail == []
    ensures Scan(head + [] + AttributeParserFacts.Render(ps) + trail)
      == Success((Field(SplitOnDot(head), 0), Field(SplitOnDot(head), 1), FromPairs(ps)))
  {
    assert head + [] + AttributeParserFacts.Render(ps) + trail == head;
    SplitOnWhitespaceNone(head);
    ScanHead(head);
  }

  lemma ScanEmptyList(head: string, sep: string, trail: string)
    requires NoSpace(head)
    requires sep != [] && AllSpace(sep) && AllSpace(trail)
    ensures Scan(head + sep + AttributeParserFacts.Render([]) + trail)
      == Success((Field(SplitOnDot(head), 0), Field(SplitOnDot(head), 1), FromPairs([])))
  {
    var s := head + sep + AttributeParserFacts.Render([]) + trail;
    assert s == head + (sep + trail) + [];
    SplitOnWhitespaceOf(head, sep + trail, []);
    ScanFields(s, head, []);
    assert AttributeParser.AttributesFrom([], 0) == Success([]);
  }

  lemma ScanList(head: string, sep: string, ps: seq<Pair>, trail: string)
    requires NoSpace(head)
    requires forall i :: 0 <= i < |ps| ==> AttributeParserFacts.Writable(ps[i])
    requires sep != [] && AllSpace(sep) && AllSpace(trail) && ps != []
    ensures Scan(head + sep + AttributeParserFacts.Render(ps) + trail)
      == Success((Field(SplitOnDot(head), 0), Field(SplitOnDot(head), 1), FromPairs(ps)))
  {
    var rendered := AttributeParserFacts.Render(ps);
    RenderStartsWithName(ps, trail);
    AttributeParserFacts.RenderRoundTrip([], ps, trail);
    assert [] + rendered == rendered;
    Assoc(head + sep, rendered, trail);
    ScanWithRest(head, sep, rendered + trail, FromPairs(ps));
  }

  /** A tag whose rest reads as the map `m` scans with `m` as its
      attributes. */
  lemma ScanWithRest(head: string, sep: string, rest: string, m: OrderedMap)
    requires NoSpace(head)
    requires sep != [] && AllSpace(sep)
    requires rest == [] || !IsSpace(rest[0])
    requires AttributeParser.Attributes(Some(rest)) == Success(m)
    ensures Scan(head + sep + rest) == Success((Field(SplitOnDot(head), 0), Field(SplitOnDot(head), 1), m))
  {
    SplitOnWhitespaceOf(head, sep, rest);
    ScanFields(head + sep + rest, head, rest);
  }

  /** A presented name without white space holds no white space. */
  lemma PresentedHasNoSpace(name: string, identifier: Option<string>)
    requires NoSpace(name)
    requires identifier.Some? ==> NoSpace(identifier.value)
    ensures NoSpace(PresentBlock((Some(name), identifier)))
  {
    if identifier.Some? {
      var head := name + "." + identifier.value;
      forall k | 0 <= k < |head| ensures !IsSpace(head[k]) {
        if k < |name| {
          assert head[k] == name[k];
        } else if k > |name| {
          assert head[k] == identifier.value[k - |name| - 1];
        }
      }
    }
  }

  /** A tag without white space has no attributes. */
  lemma ScanHead(s: string)
    requires SplitOnWhitespace(s) == [s]
    ensures Scan(s) == Success((Field(SplitOnDot(s), 0), Field(SplitOnDot(s), 1), []))
  {
  }

  /** A rendered attribute list starts with the first name. */
  lemma RenderStartsWithName(ps: seq<Pair>, trail: string)
    requires ps != [] && AttributeParserFacts.Writable(ps[0])
    ensures !IsSpace((AttributeParserFacts.Render(ps) + trail)[0])
  {
    var p := ps[0];
    var pair := AttributeParserFacts.RenderPair(p);
    var rendered := AttributeParserFacts.Render(ps);
    assert !IsSpace(p.0[0]);
    Assoc(p.0, "=", AttributeParserFacts.Quote(p.1));
    FirstChar(p.0, "=" + AttributeParserFacts.Quote(p.1));
    FirstChar(pair, AttributeParserFacts.Spaced(ps[1..]));
    FirstChar(rendered, trail);
  }

  lemma FirstChar(x: string, y: string)
    requires x != []
    ensures (x + y)[0] == x[0]
  {
  }

  /** An attribute error in the rest of the tag is raised unchanged. */
  lemma AttributeErrorPropagates(head: string, sep: string, rest: string)
    requires NoSpace(head)
    requires sep != [] && AllSpace(sep)
    requires rest == [] || !IsSpace(rest[0])
    requires AttributeParser.AttributesFrom(rest, 0).Failure?
    ensures Scan(head + sep + rest) == Failure(AttributeFailure(AttributeParser.AttributeError))
  {
    SplitOnWhitespaceOf(head, sep, rest);
    ScanFields(head + sep + rest, head, rest);
    var r := AttributeParser.Attributes(Some(rest));
    assert r.Failure? && r.error == AttributeParser.AttributeError;
  }

  /** A tag with a rest takes its attributes from the rest. */
  lemma ScanFields(s: string, head: string, rest: string)
    requires SplitOnWhitespace(s) == [head, rest]
    ensures Scan(s) == match AttributeParser.Attributes(Some(rest))
      case Failure(e) => Failure(AttributeFailure(e))
      case Success(attributes) => Success((Field(SplitOnDot(head), 0), Field(SplitOnDot(head), 1), attributes))
  {
  }

  /** A tag that starts with white space has an empty head, so both name and
      identifier are `nil`, and its rest goes to the attribute parser. */
  lemma LeadingSpaceLosesName(sep: string, rest: string)
    requires sep != [] && AllSpace(sep)
    requires rest == [] || !IsSpace(rest[0])
    ensures Scan(sep + rest) == match AttributeParser.Attributes(Some(rest))
      case Failure(e) => Failure(AttributeFailure(e))
      case Success(attributes) => Success((None, None, attributes))
  {
    assert sep + rest == [] + sep + rest;
    SplitOnWhitespaceOf([], sep, rest);
  }

  // ---------------------------------------------------------------------
  // Examples

  /** Only the first dot separates: `i18n.home.welcome` names `i18n` with the
      identifier `home.welcome`. */
  lemma DottedIdentifier()
    ensures Scan("i18n.home.welcome") == Success((Some("i18n"), Some("home.welcome"), []))
  {
    var s := "i18n.home.welcome";
    SplitOnWhitespaceNone(s);
    assert s[..4] == "i18n" && s[5..] == "home.welcome";
    SplitOnDotAt(s, 4);
    ScanHead(s);
  }

  /** White space in front of `name.identifier` leaves the head empty, so
      the name goes to the attribute parser, which rejects it for lack of a
      `=`. */
  lemma LeadingSpaceRejectsName(sep: string, name: string, more: string)
    requires sep != [] && AllSpace(sep)
    requires AttributeParserFacts.IsWord(name)
    ensures Scan(sep + (name + "." + more)) == Failure(AttributeFailure(AttributeParser.AttributeError))
  {
    var rest := name + "." + more;
    assert rest[0] == name[0];
    LeadingSpaceLosesName(sep, rest);
    SpanUnique(rest, 0, IsSpace, 0);
    assert forall k :: 0 <= k < |name| ==> rest[k] == name[k];
    SpanUnique(rest, 0, IsWordChar, |name|);
    assert AttributeParser.AttributeMatch(rest, 0) == AttributeParser.Malformed;
    var r := AttributeParser.Attributes(Some(rest));
    assert r.Failure? && r.error == AttributeParser.AttributeError;
  }

  /** A question mark after the identifier stays in the identifier. */
  lemma QuestionMarkStaysInIdentifier()
    ensures Scan("hello.world?") == Success((Some("hello"), Some("world?"), []))
  {
    var s := "hello.world?";
    SplitOnWhitespaceNone(s);
    assert s[..5] == "hello" && s[6..] == "world?";
    SplitOnDotAt(s, 5);
    ScanHead(s);
  }
}

/** The component parser (lib/curly/component_parser.rb), a copy of the
    component scanner under another name. */
module ComponentParser {
  import opened Wrappers
  import opened OrderedMaps
  import AttributeParser
  import opened ComponentScanner

  /** `ComponentParser.parse(component)` */
  function Parse(component: string): (r: Result<Parts, ComponentError>)
    ensures r == Failure(NoMethodError) <==> component == []
  {
    var fields := SplitOnWhitespace(component);
    if fields == [] then Failure(NoMethodError)
    else
      var names := SplitOnDot(fields[0]);
      match AttributeParser.Attributes(Field(fields, 1))
      case Failure(e) => Failure(AttributeFailure(e))
      case Success(attributes) => Success((Field(names, 0), Field(names, 1), attributes))
  }

  /** Both classes return the same triple, or raise the same error, for every
      tag. */
  lemma ParseIsScan(component: string)
    ensures Parse(component) == Scan(component)
  {
  }
}
