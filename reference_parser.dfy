/** The reference parser (lib/curly/reference_parser.rb): splits a reference
    such as `day.monday?` or `i18n key=home fallback=x` into the method
    name, then either a `.argument` or a list of `key=value` keywords, then a
    trailing `?` that is appended to the name. A cursor moves over the
    reference; a reference it cannot read to the end is a syntax error.

    The value pattern `VALUE_MATCH` is written in a `%{…}` literal, which
    Ruby reads like a double-quoted string: `\1` there is the control
    character U+0001 and `\\"` is `\"`, so the pattern the parser compiles
    is a quote, contents of any characters but a line feed, matched lazily,
    and then U+0001 (not a back-reference to the opening quote); or a bare
    run of word characters and dots. Every matching function below reads the
    reference `s` from the cursor position `i`. */
module ReferenceParser {
  import opened Wrappers
  import opened Strings
  import opened OrderedMaps
  import SyntaxError

  /** One entry of the token array `parse` returns: a string (the name or
      the singular argument) or the keyword hash. */
  datatype Slot = Str(text: string) | Hash(keywords: OrderedMap)

  /** What `parse` raises: a `SyntaxError` for input left unread, or a
      `NoMethodError` when a `?` is to be appended to a first token that is
      not a string. */
  datatype ReferenceError = Syntax(error: SyntaxError.SyntaxError) | NoMethodError

  /** The class `[^. ]`. */
  predicate IsNameChar(c: char)
  {
    c != '.' && c != ' '
  }

  /** The class `[[:word:]\.]`. */
  predicate IsBareChar(c: char)
  {
    IsWordChar(c) || c == '.'
  }

  predicate IsQuote(c: char)
  {
    c == '"' || c == '\''
  }

  /** The character `\1` becomes inside `%{…}`, which ends a quoted value. */
  const Marker: char := '\U{0001}'

  /** `\s*=` at `i`: the position after the `=`. */
  function EqualsEnd(s: string, i: nat): (r: Option<nat>)
    requires i <= |s|
    ensures r.Some? ==> i < r.value <= |s| && s[r.value - 1] == '='
  {
    var w := Span(s, i, IsSpace);
    if i + w < |s| && s[i + w] == '=' then Some(i + w + 1) else None
  }

  /** Whether the pattern after a value can follow at `i`: `\s*=` after a
      key, nothing after any other value. */
  predicate Continues(s: string, i: nat, key: bool)
    requires i <= |s|
  {
    !key || EqualsEnd(s, i).Some?
  }

  /** The end of a quoted value whose contents start at `j`:
      `((?:"|'|.)*?)` then U+0001, followed by what the pattern needs after
      the value. The lazy repetition first tries to close here; otherwise it
      takes one more character, any but a line feed. The end is the first
      U+0001 on the line at which the rest of the pattern matches. */
  function Closing(s: string, j: nat, key: bool): (r: Option<nat>)
    requires j <= |s|
    ensures r.Some? ==> j <= r.value < |s| && s[r.value] == Marker && Continues(s, r.value + 1, key)
    ensures r.Some? ==> forall k :: j <= k < r.value ==> s[k] != '\n'
    ensures r.Some? ==> forall k :: j <= k < r.value && s[k] == Marker ==> !Continues(s, k + 1, key)
    decreases |s| - j
  {
    if j < |s| && s[j] == Marker && Continues(s, j + 1, key) then Some(j)
    else if j < |s| && s[j] != '\n' then Closing(s, j + 1, key)
    else None
  }

  /** What a match of the value pattern keeps, `@scanner[2] || @scanner[3]`,
      and where the match ends. */
  datatype Match = Match(text: string, end: nat) | NoMatch

  /** The bare alternative `([[:word:]\.]+)` at `i`, followed by `\s*=` when
      `key` holds. A run that is not followed by what the pattern needs
      gains nothing by backtracking, since a shorter run is followed by a
      bare character. */
  function BareAt(s: string, i: nat, key: bool): (r: Match)
    requires i <= |s|
    ensures r.Match? ==> i < r.end <= |s| && i + |r.text| <= r.end && r.text == s[i..i + |r.text|] && r.text != []
    ensures r.Match? ==> forall k :: 0 <= k < |r.text| ==> IsBareChar(r.text[k])
    ensures r.Match? && !key ==> r.end == i + |r.text|
  {
    SpanRun(s, i, IsBareChar);
    var n := Span(s, i, IsBareChar);
    if n == 0 then NoMatch
    else if !key then Match(s[i..i + n], i + n)
    else
      match EqualsEnd(s, i + n)
      case None => NoMatch
      case Some(e) => Match(s[i..i + n], e)
  }

  /** `VALUE_MATCH` at `i`, followed by `\s*=` when `key` holds: the quoted
      alternative first, then the bare one, which cannot match at a quote. */
  function ValueAt(s: string, i: nat, key: bool): (r: Match)
    requires i <= |s|
    ensures r.Match? ==> i < r.end <= |s|
  {
    if i < |s| && IsQuote(s[i]) then
      match Closing(s, i + 1, key)
      case None => NoMatch
      case Some(k) =>
        Match(s[i + 1..k], if key then EqualsEnd(s, k + 1).value else k + 1)
    else BareAt(s, i, key)
  }

  /** `scan(/\.#{VALUE_MATCH}/x)` */
  function SingularAt(s: string, i: nat): (r: Match)
    requires i <= |s|
    ensures r.Match? ==> i < r.end <= |s|
  {
    if i < |s| && s[i] == '.' then ValueAt(s, i + 1, false) else NoMatch
  }

  /** `normalize`: `\"` becomes `"`, then `\'` becomes `'`. */
  function Normalize(x: string): (r: string)
    ensures '\\' !in x ==> r == x
  {
    NoBackslashFree(x, ['\\', '"']);
    var once := ReplaceAll(x, ['\\', '"'], ['"']);
    NoBackslashFree(once, ['\\', '\'']);
    ReplaceAll(once, ['\\', '\''], ['\''])
  }

  lemma NoBackslashFree(x: string, pat: string)
    requires pat != [] && pat[0] == '\\'
    ensures '\\' !in x ==> Free(x, pat)
  {
    if '\\' !in x {
      forall i | 0 <= i <= |x| ensures !StartsAt(x, i, pat) {
        if i + |pat| <= |x| {
          assert x[i..i + |pat|][0] == x[i];
        }
      }
    }
  }

  /** The outcome of `scan_keypair`. */
  datatype KeypairStep =
    | NoKey                                          // nil, cursor unmoved
    | NoValue(after: nat)                            // nil, cursor after the `=`
    | Keypair(key: string, value: string, after: nat)

  /** `scan(/\A\s*#{VALUE_MATCH}/x)`, followed by `\s*=` when `key` holds. */
  function SpacedValueAt(s: string, i: nat, key: bool): (r: Match)
    requires i <= |s|
    ensures r.Match? ==> i < r.end <= |s|
  {
    ValueAt(s, i + Span(s, i, IsSpace), key)
  }

  /** `scan_keypair`: a key followed by `=`, then a value; both normalized. */
  function KeypairAt(s: string, i: nat): (r: KeypairStep)
    requires i <= |s|
    ensures r.NoValue? ==> i < r.after <= |s|
    ensures r.Keypair? ==> i < r.after <= |s|
  {
    var key := SpacedValueAt(s, i, true);
    if key.NoMatch? then NoKey
    else
      var value := SpacedValueAt(s, key.end, false);
      if value.NoMatch? then NoValue(key.end)
      else Keypair(Normalize(key.text), Normalize(value.text), value.end)
  }

  /** The pairs the `while keypair` loop collects and where it leaves the
      cursor. */
  datatype Keywords = Keywords(pairs: seq<Pair>, stop: nat)

  function KeypairsFrom(s: string, i: nat): (r: Keywords)
    requires i <= |s|
    ensures i <= r.stop <= |s|
    decreases |s| - i
  {
    match KeypairAt(s, i)
    case NoKey => Keywords([], i)
    case NoValue(after) => Keywords([], after)
    case Keypair(k, v, after) =>
      var rest := KeypairsFrom(s, after);
      Keywords([(k, v)] + rest.pairs, rest.stop)
  }

  /** The slot `scan_arguments` adds, and where it leaves the cursor. */
  datatype Arguments = Arguments(slot: Option<Slot>, end: nat)

  /** `scan_singular || scan_keywords`; the keywords start with exactly one
      space and become `Hash[keywords]`. */
  function ArgumentsAt(s: string, i: nat): (r: Arguments)
    requires i <= |s|
    ensures i <= r.end <= |s|
    ensures r.slot.None? <==> r.end == i
  {
    var singular := SingularAt(s, i);
    if singular.Match? then Arguments(Some(Str(singular.text)), singular.end)
    else if i < |s| && s[i] == ' ' then
      var keywords := KeypairsFrom(s, i + 1);
      Arguments(Some(Hash(FromPairs(keywords.pairs))), keywords.stop)
    else Arguments(None, i)
  }

  /** `tokens.push(argument).compact!` on `[name]`. */
  function Compacted(name: Option<string>, argument: Option<Slot>): (r: seq<Slot>)
    ensures |r| == (if name.Some? then 1 else 0) + (if argument.Some? then 1 else 0)
  {
    (if name.Some? then [Str(name.value)] else []) + (if argument.Some? then [argument.value] else [])
  }

  /** The name `scan(/[^. ]+/)` reads at the start, `nil` when there is none. */
  function NameOf(s: string): (r: Option<string>)
    ensures r.Some? ==> r.value != [] && |r.value| <= |s| && r.value == s[..|r.value|]
  {
    var n := Span(s, 0, IsNameChar);
    if n == 0 then None else Some(s[..n])
  }

  /** What `ReferenceParser.parse(reference)` returns or raises. */
  function Reference(s: string): (r: Result<seq<Slot>, ReferenceError>)
    ensures r.Success? ==> |r.value| <= 2 && (|r.value| == 2 ==> r.value[0].Str?)
    ensures r.Failure? && r.error.Syntax? ==> r.error.error.source == s && r.error.error.position < |s|
  {
    var name := NameOf(s);
    var arguments := ArgumentsAt(s, if name.Some? then |name.value| else 0);
    var tokens := Compacted(name, arguments.slot);
    var modified := arguments.end < |s| && s[arguments.end] == '?';
    if modified && (tokens == [] || !tokens[0].Str?) then Failure(NoMethodError)
    else
      var tokens' := if modified then tokens[0 := Str(tokens[0].text + "?")] else tokens;
      var stop := if modified then arguments.end + 1 else arguments.end;
      if stop < |s| then Failure(Syntax(SyntaxError.SyntaxError(stop, s)))
      else Success(tokens')
  }

  /** A scan returned the text `m` keeps and moved the cursor to its end, or
      returned `nil` and left the cursor alone. */
  predicate ScannedBy(m: Match, r: Option<string>, before: nat, after: nat)
  {
    match m
    case Match(text, end) => r == Some(text) && after == end
    case NoMatch => r == None && after == before
  }

  /** `scan_keypair` returned the pair and moved past it, or returned `nil`
      with the cursor where the failed scan left it. */
  predicate KeypairScanned(step: KeypairStep, r: Option<Pair>, before: nat, after: nat)
  {
    match step
    case NoKey => r == None && after == before
    case NoValue(a) => r == None && after == a
    case Keypair(k, v, a) => r == Some((k, v)) && after == a
  }

  /** The pairs `ps` in front of the pairs of a scan. */
  function Prepend(ps: seq<Pair>, k: Keywords): Keywords
  {
    Keywords(ps + k.pairs, k.stop)
  }

  /** What is still to come after a `scan_keypair` that returned `keypair`
      and left the cursor at `pos`. */
  function Pending(s: string, keypair: Option<Pair>, pos: nat): Keywords
    requires pos <= |s|
  {
    if keypair.Some? then Prepend([keypair.value], KeypairsFrom(s, pos)) else Keywords([], pos)
  }

  /** What one `scan_keypair` call tells about the rest of the loop. */
  lemma KeypairScannedFrom(s: string, before: nat, after: nat, r: Option<Pair>)
    requires before <= |s| && after <= |s|
    requires KeypairScanned(KeypairAt(s, before), r, before, after)
    ensures KeypairsFrom(s, before) == Pending(s, r, after)
    ensures r.Some? ==> before < after
  {
  }

  lemma PrependNothing(k: Keywords)
    ensures Prepend([], k) == k
  {
    assert [] + k.pairs == k.pairs;
  }

  lemma PrependStep(ps: seq<Pair>, p: Pair, k: Keywords)
    ensures Prepend(ps, Prepend([p], k)) == Prepend(ps + [p], k)
  {
    assert ps + ([p] + k.pairs) == ps + [p] + k.pairs;
  }

  class ReferenceParser {
    const reference: string
    var pos: nat

    constructor (reference: string)
      ensures this.reference == reference && pos == 0
    {
      this.reference := reference;
      pos := 0;
    }

    method Parse() returns (r: Result<seq<Slot>, ReferenceError>)
      requires pos == 0
      modifies this
      ensures r == Reference(reference)
    {
      var n := Span(reference, 0, IsNameChar);
      var name := if n == 0 then None else Some(reference[..n]);
      pos := n;
      var arguments := ScanArguments();
      var tokens := Compacted(name, arguments);
      var modifier := ScanModifier();
      if modifier.Some? {
        if tokens == [] || !tokens[0].Str? {
          return Failure(NoMethodError);
        }
        tokens := tokens[0 := Str(tokens[0].text + modifier.value)];
      }
      if pos < |reference| {
        return Failure(Syntax(SyntaxError.SyntaxError(pos, reference)));
      }
      r := Success(tokens);
    }

    method ScanArguments() returns (r: Option<Slot>)
      requires pos <= |reference|
      modifies this
      ensures r == ArgumentsAt(reference, old(pos)).slot && pos == ArgumentsAt(reference, old(pos)).end
    {
      ghost var arguments := ArgumentsAt(reference, pos);
      var singular := ScanSingular();
      if singular.Some? {
        assert arguments == Arguments(Some(Str(singular.value)), pos);
        return Some(Str(singular.value));
      }
      var keywords := ScanKeywords();
      if keywords.Some? {
        assert arguments == Arguments(Some(Hash(keywords.value)), pos);
        return Some(Hash(keywords.value));
      }
      assert arguments == Arguments(None, pos);
      r := None;
    }

    method ScanModifier() returns (r: Option<string>)
      requires pos <= |reference|
      modifies this
      ensures old(pos) < |reference| && reference[old(pos)] == '?' ==> r == Some("?") && pos == old(pos) + 1
      ensures !(old(pos) < |reference| && reference[old(pos)] == '?') ==> r == None && pos == old(pos)
    {
      if pos < |reference| && reference[pos] == '?' {
        pos := pos + 1;
        return Some("?");
      }
      r := None;
    }

    method ScanSingular() returns (r: Option<string>)
      requires pos <= |reference|
      modifies this
      ensures pos <= |reference|
      ensures ScannedBy(SingularAt(reference, old(pos)), r, old(pos), pos)
    {
      var m := SingularAt(reference, pos);
      if m.Match? {
        pos := m.end;
        r := Some(m.text);
      } else {
        r := None;
      }
    }

    method ScanKeywords() returns (r: Option<OrderedMap>)
      requires pos <= |reference|
      modifies this
      ensures old(pos) < |reference| && reference[old(pos)] == ' ' ==>
        var keywords := KeypairsFrom(reference, old(pos) + 1);
        r == Some(FromPairs(keywords.pairs)) && pos == keywords.stop
      ensures !(old(pos) < |reference| && reference[old(pos)] == ' ') ==> r == None && pos == old(pos)
    {
      if !(pos < |reference| && reference[pos] == ' ') {
        return None;
      }
      pos := pos + 1;
      var start := pos;
      var keywords: seq<Pair> := [];
      var keypair := ScanKeypair();
      KeypairScannedFrom(reference, start, pos, keypair);
      PrependNothing(KeypairsFrom(reference, start));
      while keypair.Some?
        invariant start <= pos <= |reference|
        invariant KeypairsFrom(reference, start) == Prepend(keywords, Pending(reference, keypair, pos))
        decreases |reference| - pos, keypair.Some?
      {
        var pair := keypair.value;
        var before := pos;
        keypair := ScanKeypair();
        KeypairScannedFrom(reference, before, pos, keypair);
        PrependStep(keywords, pair, KeypairsFrom(reference, before));
        keywords := keywords + [pair];
      }
      assert keywords + [] == keywords;
      assert KeypairsFrom(reference, start) == Keywords(keywords, pos);
      r := Some(FromPairs(keywords));
    }

    method ScanKeypair() returns (r: Option<Pair>)
      requires pos <= |reference|
      modifies this
      ensures pos <= |reference|
      ensures KeypairScanned(KeypairAt(reference, old(pos)), r, old(pos), pos)
    {
      ghost var step := KeypairAt(reference, pos);
      var key := ScanValue(true);
      if key.None? {
        assert step == NoKey;
        return None;
      }
      var value := ScanValue(false);
      if value.None? {
        assert step == NoValue(pos);
        return None;
      }
      assert step == Keypair(Normalize(key.value), Normalize(value.value), pos);
      r := Some((Normalize(key.value), Normalize(value.value)));
    }

    /** One `scan(/\A\s*#{VALUE_MATCH}/x)` of `scan_keypair`, with `\s*=`
        after the value when it is the key, and its `@scanner[2] ||
        @scanner[3]`. */
    method ScanValue(key: bool) returns (r: Option<string>)
      requires pos <= |reference|
      modifies this
      ensures pos <= |reference|
      ensures ScannedBy(SpacedValueAt(reference, old(pos), key), r, old(pos), pos)
    {
      var m := SpacedValueAt(reference, pos, key);
      if m.Match? {
        pos := m.end;
        r := Some(m.text);
      } else {
        r := None;
      }
    }
  }

  /** `Curly::ReferenceParser.parse(reference)` */
  method Parse(reference: string) returns (r: Result<seq<Slot>, ReferenceError>)
    ensures r == Reference(reference)
  {
    var parser := new ReferenceParser(reference);
    r := parser.Parse();
  }
}

/** What the reference parser promises: a name alone, a name with a
    `.argument` and a name with bare keywords read back as the parts they
    were written from; the `?` moves to the name; a quoted value closes at
    the first U+0001 it can, so an ordinary quoted argument is a syntax
    error; the pattern as intended closes at the matching quote, and
    `normalize` then undoes escaping; and a reference that is not read to
    the end is reported where reading stopped. */
module ReferenceParserFacts {
  import opened Wrappers
  import opened Strings
  import opened OrderedMaps
  import opened ReferenceParser
  import SyntaxError

  predicate NameChars(s: string)
  {
    forall k :: 0 <= k < |s| ==> IsNameChar(s[k])
  }

  predicate BareChars(s: string)
  {
    forall k :: 0 <= k < |s| ==> IsBareChar(s[k])
  }

  /** The name `scan(/[^. ]+/)` reads is the run of name characters that
      starts the reference. */
  lemma NameRun(s: string, name: string)
    requires name != [] && NameChars(name)
    requires |name| <= |s| && s[..|name|] == name
    requires |name| == |s| || !IsNameChar(s[|name|])
    ensures NameOf(s) == Some(name)
  {
    assert forall k :: 0 <= k < |name| ==> s[k] == name[k];
    SpanUnique(s, 0, IsNameChar, |name|);
  }

  /** A bare run of word characters and dots after a `.`, ended by a
      character outside the run or by the end, is the singular argument. */
  lemma BareSingular(s: string, i: nat, arg: string)
    requires arg != [] && BareChars(arg)
    requires i + 1 + |arg| <= |s| && s[i] == '.' && s[i + 1..i + 1 + |arg|] == arg
    requires i + 1 + |arg| == |s| || !IsBareChar(s[i + 1 + |arg|])
    ensures SingularAt(s, i) == Match(arg, i + 1 + |arg|)
  {
    assert forall k :: i + 1 <= k < i + 1 + |arg| ==> s[k] == arg[k - i - 1];
    assert IsBareChar(s[i + 1]);
    SpanUnique(s, i + 1, IsBareChar, |arg|);
  }

  /** A name alone is read back as itself; a `?` in it stays part of the
      name, as in `monday?`. */
  lemma NameAlone(name: string)
    requires name != [] && NameChars(name)
    ensures Reference(name) == Success([Str(name)])
  {
    assert name[..|name|] == name;
    NameRun(name, name);
    assert ArgumentsAt(name, |name|) == Arguments(None, |name|);
    assert Compacted(Some(name), None) == [Str(name)];
  }

  /** `name.argument` reads back as the name and the argument, and with a
      trailing `?` the `?` moves to the name: `day.monday?` gives `day?` and
      `monday`. */
  lemma SingularRoundTrip(name: string, arg: string, modifier: string)
    requires name != [] && NameChars(name)
    requires arg != [] && BareChars(arg)
    requires modifier == "" || modifier == "?"
    ensures Reference(name + "." + arg + modifier) == Success([Str(name + modifier), Str(arg)])
  {
    var s := name + "." + arg + modifier;
    var e := |name| + 1 + |arg|;
    assert s[..|name|] == name;
    assert s[|name|] == '.';
    assert s[|name| + 1..e] == arg;
    assert e < |s| ==> s[e] == '?';
    NameRun(s, name);
    BareSingular(s, |name|, arg);
    assert ArgumentsAt(s, |name|) == Arguments(Some(Str(arg)), e);
    var tokens := Compacted(Some(name), Some(Str(arg)));
    assert tokens == [Str(name), Str(arg)];
    if modifier == "" {
      assert name + modifier == name;
    } else {
      assert tokens[0 := Str(name + "?")] == [Str(name + modifier), Str(arg)];
    }
  }

  /** The example of the reference compiler's documentation. */
  lemma DayMonday()
    ensures Reference("day" + "." + "monday" + "?") == Success([Str("day" + "?"), Str("monday")])
  {
    SingularRoundTrip("day", "monday", "?");
  }
  // ---------------------------------------------------------------------
  // Quoted values, as the pattern is compiled

  /** Contents without U+0001 or line feeds close at the U+0001 after them
      when the rest of the pattern matches there. */
  lemma {:induction false} ClosingFirst(s: string, j: nat, key: bool, k: nat)
    requires j <= k < |s| && s[k] == Marker && Continues(s, k + 1, key)
    requires forall m :: j <= m < k ==> s[m] != Marker && s[m] != '\n'
    ensures Closing(s, j, key) == Some(k)
    decreases k - j
  {
    if j < k {
      ClosingFirst(s, j + 1, key, k);
    }
  }

  /** Without a U+0001 after `j` a quoted value never closes. */
  lemma {:induction false} ClosingNone(s: string, j: nat, key: bool)
    requires j <= |s|
    requires forall m :: j <= m < |s| ==> s[m] != Marker
    ensures Closing(s, j, key) == None
    decreases |s| - j
  {
    if j < |s| && s[j] != '\n' {
      ClosingNone(s, j + 1, key);
    }
  }

  /** A quote, contents without U+0001 or line feeds, and a U+0001 are read
      as a value: the contents come back as written, quotes and backslashes
      included. */
  lemma QuotedClosesAtMarker(s: string, i: nat, x: string)
    requires Marker !in x && '\n' !in x
    requires i + |x| + 1 < |s| && IsQuote(s[i]) && s[i + 1..i + 1 + |x|] == x && s[i + 1 + |x|] == Marker
    ensures ValueAt(s, i, false) == Match(x, i + |x| + 2)
  {
    assert forall m :: i + 1 <= m < i + 1 + |x| ==> s[m] == x[m - i - 1];
    ClosingFirst(s, i + 1, false, i + 1 + |x|);
  }

  /** A quote with no U+0001 after it starts no value, whatever follows. */
  lemma QuoteWithoutMarker(s: string, i: nat, key: bool)
    requires i < |s| && IsQuote(s[i])
    requires forall m :: i < m < |s| ==> s[m] != Marker
    ensures ValueAt(s, i, key) == NoMatch
  {
    ClosingNone(s, i + 1, key);
  }

  /** A `.` argument that starts with a quote, in a reference without
      U+0001, is not read: the parser reports a syntax error at the `.`. */
  lemma QuotedArgumentFails(name: string, rest: string)
    requires name != [] && NameChars(name)
    requires rest != [] && IsQuote(rest[0]) && Marker !in rest
    ensures Reference(name + "." + rest)
      == Failure(Syntax(SyntaxError.SyntaxError(|name|, name + "." + rest)))
  {
    var s := name + "." + rest;
    var a := |name| + 1;
    assert s[..|name|] == name && s[|name|] == '.';
    assert forall m :: a <= m < |s| ==> s[m] == rest[m - a];
    NameRun(s, name);
    QuoteWithoutMarker(s, a, false);
    assert ArgumentsAt(s, |name|) == Arguments(None, |name|);
  }

  /** `a.'b'` is a syntax error at position 1, where the pattern as intended
      reads the argument `b`. */
  lemma QuotedSingularAsWritten()
    ensures Reference("a" + "." + "'b'") == Failure(Syntax(SyntaxError.SyntaxError(1, "a" + "." + "'b'")))
    ensures IntendedValueAt("a" + "." + "'b'", 2, false) == Match("b", 5)
  {
    var s := "a" + "." + "'b'";
    assert NameChars("a");
    assert "'b'"[0] == '\'' && Marker !in "'b'";
    QuotedArgumentFails("a", "'b'");
    assert s[2] == '\'' && s[3] == 'b' && s[4] == '\'' && |s| == 5;
    assert !EscapedQuoteAt(s, 3);
    assert IntendedClosing(s, 3, '\'', false) == Some(4);
    assert s[3..4] == "b";
  }
  // ---------------------------------------------------------------------
  // Quoted values, as the pattern is meant

  /** `\\"` or `\\'` matches at `j`. */
  predicate EscapedQuoteAt(s: string, j: nat)
  {
    j + 1 < |s| && s[j] == '\\' && IsQuote(s[j + 1])
  }

  /** The closing quote of `((?:\\"|\\'|.)*?)\1` read with `\1` as the
      back-reference to the opening quote `q` and `\\"`, `\\'` as escaped
      quotes. The lazy repetition first tries to close here; otherwise it
      takes one more item, an escaped quote before any single character
      other than a line feed, and backtracks into the next alternative when
      the rest of the match fails. */
  function IntendedClosing(s: string, j: nat, q: char, key: bool): (r: Option<nat>)
    requires j <= |s|
    ensures r.Some? ==> j <= r.value < |s| && s[r.value] == q && Continues(s, r.value + 1, key)
    ensures r.Some? ==> forall k :: j <= k < r.value ==> s[k] != '\n'
    decreases |s| - j
  {
    if j < |s| && s[j] == q && Continues(s, j + 1, key) then Some(j)
    else
      var escaped := if EscapedQuoteAt(s, j) then IntendedClosing(s, j + 2, q, key) else None;
      if escaped.Some? then escaped
      else if j < |s| && s[j] != '\n' then IntendedClosing(s, j + 1, q, key)
      else None
  }

  /** `VALUE_MATCH` as intended: a value quoted with `"` or `'` closes at
      the same quote. */
  function IntendedValueAt(s: string, i: nat, key: bool): (r: Match)
    requires i <= |s|
    ensures r.Match? ==> i < r.end <= |s|
    ensures r.Match? && !key && i < |s| && IsQuote(s[i]) ==> s[r.end - 1] == s[i]
  {
    if i < |s| && IsQuote(s[i]) then
      match IntendedClosing(s, i + 1, s[i], key)
      case None => NoMatch
      case Some(k) =>
        Match(s[i + 1..k], if key then EqualsEnd(s, k + 1).value else k + 1)
    else BareAt(s, i, key)
  }

  /** The intended search finds a closing quote whenever one that the rest
      of the pattern accepts comes before the next line feed. */
  lemma {:induction false} IntendedClosingReached(s: string, j: nat, q: char, key: bool, k: nat)
    requires j <= k < |s| && s[k] == q && Continues(s, k + 1, key)
    requires forall m :: j <= m < k ==> s[m] != '\n'
    ensures IntendedClosing(s, j, q, key).Some?
    decreases k - j
  {
    if !(s[j] == q && Continues(s, j + 1, key)) {
      if !(EscapedQuoteAt(s, j) && IntendedClosing(s, j + 2, q, key).Some?) {
        IntendedClosingReached(s, j + 1, q, key, k);
      }
    }
  }

  /** How a writer escapes a string for a quoted value: a backslash before
      every quote of either kind. */
  function Escape(x: string): (r: string)
    ensures |r| >= |x|
  {
    if x == [] then []
    else (if IsQuote(x[0]) then ['\\', x[0]] else [x[0]]) + Escape(x[1..])
  }

  /** The first pass of `normalize` has undone the escaped double quotes. */
  function EscapeSingle(x: string): string
  {
    if x == [] then []
    else (if x[0] == '\'' then ['\\', x[0]] else [x[0]]) + EscapeSingle(x[1..])
  }

  /** With the intended pattern, the escaped contents of a quoted value
      close at the quote after them, even when the contents hold that quote
      escaped. */
  lemma {:induction false} IntendedClosingEscaped(s: string, j: nat, q: char, x: string)
    requires IsQuote(q) && '\\' !in x && '\n' !in x
    requires j + |Escape(x)| < |s| && s[j..j + |Escape(x)|] == Escape(x) && s[j + |Escape(x)|] == q
    ensures IntendedClosing(s, j, q, false) == Some(j + |Escape(x)|)
    decreases x
  {
    if x != [] {
      var e := Escape(x);
      var h := if IsQuote(x[0]) then ['\\', x[0]] else [x[0]];
      assert e == h + Escape(x[1..]);
      assert s[j] == e[0] == h[0];
      assert s[j + |h|..j + |e|] == e[|h|..] == Escape(x[1..]);
      if IsQuote(x[0]) {
        assert s[j + 1] == e[1];
        assert EscapedQuoteAt(s, j);
      }
      IntendedClosingEscaped(s, j + |h|, q, x[1..]);
    }
  }

  /** `gsub` passes over a character that does not start the pattern. */
  lemma ReplaceOther(c: char, t: string, pat: string, rep: string)
    requires |pat| == 2 && c != pat[0]
    ensures ReplaceAll([c] + t, pat, rep) == [c] + ReplaceAll(t, pat, rep)
  {
    var s := [c] + t;
    assert s[1..] == t;
    if |s| < 2 {
      assert t == [];
    } else {
      assert s[..2] != pat;
    }
  }

  /** `gsub` replaces an occurrence at the start. */
  lemma ReplaceHit(t: string, pat: string, rep: string)
    requires pat != []
    ensures ReplaceAll(pat + t, pat, rep) == rep + ReplaceAll(t, pat, rep)
  {
    var s := pat + t;
    assert s[..|pat|] == pat && s[|pat|..] == t;
  }

  /** The first pass of `normalize` turns escaped double quotes back. */
  lemma {:induction false} FirstPass(x: string)
    requires '\\' !in x
    ensures ReplaceAll(Escape(x), ['\\', '"'], ['"']) == EscapeSingle(x)
    decreases x
  {
    if x != [] {
      var rest := Escape(x[1..]);
      FirstPass(x[1..]);
      if x[0] == '"' {
        ReplaceHit(rest, ['\\', '"'], ['"']);
      } else if x[0] == '\'' {
        ReplaceEscapedOther(x[0], rest, ['\\', '"'], ['"']);
      } else {
        ReplaceOther(x[0], rest, ['\\', '"'], ['"']);
      }
    }
  }

  /** `gsub` passes over a backslash followed by a character other than
      the one the pattern needs there. */
  lemma ReplaceEscapedOther(c: char, t: string, pat: string, rep: string)
    requires |pat| == 2 && pat[0] == '\\' && c != pat[0] && c != pat[1]
    ensures ReplaceAll(['\\', c] + t, pat, rep) == ['\\', c] + ReplaceAll(t, pat, rep)
  {
    var s := ['\\', c] + t;
    assert s[..2][1] == c;
    assert s[1..] == [c] + t;
    ReplaceOther(c, t, pat, rep);
  }

  /** The second pass of `normalize` turns escaped single quotes back. */
  lemma {:induction false} SecondPass(x: string)
    requires '\\' !in x
    ensures ReplaceAll(EscapeSingle(x), ['\\', '\''], ['\'']) == x
    decreases x
  {
    if x != [] {
      var rest := EscapeSingle(x[1..]);
      SecondPass(x[1..]);
      if x[0] == '\'' {
        ReplaceHit(rest, ['\\', '\''], ['\'']);
      } else {
        ReplaceOther(x[0], rest, ['\\', '\''], ['\'']);
      }
      assert [x[0]] + x[1..] == x;
    }
  }

  /** `normalize` undoes the escaping of every string without backslashes. */
  lemma NormalizeEscape(x: string)
    requires '\\' !in x
    ensures Normalize(Escape(x)) == x
  {
    FirstPass(x);
    SecondPass(x);
  }

  /** With the intended pattern, a double-quoted value written with its
      quotes escaped is read to its closing quote, and `normalize` gives
      back the string that was written. */
  lemma IntendedQuotedRoundTrip(s: string, b: nat, v: string)
    requires '\\' !in v && '\n' !in v
    requires b + |Escape(v)| + 2 <= |s| && s[b..b + |Escape(v)| + 2] == "\"" + (Escape(v) + "\"")
    ensures IntendedValueAt(s, b, false) == Match(Escape(v), b + |Escape(v)| + 2)
    ensures Normalize(IntendedValueAt(s, b, false).text) == v
  {
    IntendedQuoted(s, b, v);
    NormalizeEscape(v);
  }

  lemma IntendedQuoted(s: string, b: nat, v: string)
    requires '\\' !in v && '\n' !in v
    requires b + |Escape(v)| + 2 <= |s| && s[b..b + |Escape(v)| + 2] == "\"" + (Escape(v) + "\"")
    ensures IntendedValueAt(s, b, false) == Match(Escape(v), b + |Escape(v)| + 2)
  {
    var e := Escape(v);
    SliceAt(s, b, "\"", e + "\"");
    SliceAt(s, b + 1, e, "\"");
    assert s[b] == '"' && s[b + 1 + |e|] == '"';
    IntendedClosingEscaped(s, b + 1, '"', v);
  }
  // ---------------------------------------------------------------------
  // Keywords

  /** How a writer puts keywords after a name: a space, then `key=value`,
      for every pair. */
  function WriteKeywords(ps: seq<Pair>): (r: string)
    ensures ps == [] <==> r == []
    ensures r != [] ==> r[0] == ' '
  {
    if ps == [] then [] else " " + ps[0].0 + "=" + ps[0].1 + WriteKeywords(ps[1..])
  }

  /** Pairs a writer can put so that the compiled pattern reads them back:
      bare keys and bare values, since a quoted value only closes at
      U+0001. */
  predicate Writable(ps: seq<Pair>)
  {
    forall p :: p in ps ==> p.0 != [] && BareChars(p.0) && p.1 != [] && BareChars(p.1)
  }

  /** A slice that is `x` followed by `y`. */
  lemma SliceAt(s: string, i: nat, x: string, y: string)
    requires i + |x| + |y| <= |s| && s[i..i + |x| + |y|] == x + y
    ensures s[i..i + |x|] == x && s[i + |x|..i + |x| + |y|] == y
  {
    assert s[i..i + |x|] == s[i..i + |x| + |y|][..|x|];
    assert s[i + |x|..i + |x| + |y|] == s[i..i + |x| + |y|][|x|..];
  }

  /** A written key followed by `=` is the key `scan_keypair` reads. */
  lemma WrittenKey(s: string, a: nat, k: string)
    requires k != [] && BareChars(k)
    requires a + |k| < |s| && s[a..a + |k|] == k && s[a + |k|] == '='
    ensures ValueAt(s, a, true) == Match(k, a + |k| + 1)
  {
    assert forall m :: a <= m < a + |k| ==> s[m] == k[m - a];
    assert IsBareChar(s[a]);
    SpanUnique(s, a, IsBareChar, |k|);
    SpanUnique(s, a + |k|, IsSpace, 0);
  }

  /** A bare value followed by a space or the end is the value
      `scan_keypair` reads, and `normalize` leaves it as it is. */
  lemma WrittenBare(s: string, b: nat, v: string)
    requires v != [] && BareChars(v)
    requires b + |v| <= |s| && s[b..b + |v|] == v
    requires b + |v| == |s| || s[b + |v|] == ' '
    ensures ValueAt(s, b, false) == Match(v, b + |v|)
    ensures Normalize(v) == v
  {
    assert forall m :: b <= m < b + |v| ==> s[m] == v[m - b];
    assert IsBareChar(s[b]);
    SpanUnique(s, b, IsBareChar, |v|);
    BareHasNoBackslash(v);
  }

  /** The suffix from `i` is `x` followed by `y`. */
  lemma SuffixAt(s: string, i: nat, x: string, y: string)
    requires i <= |s| && s[i..] == x + y
    ensures i + |x| <= |s| && s[i..i + |x|] == x && s[i + |x|..] == y
  {
    assert s[i..][..|x|] == x && s[i..][|x|..] == y;
  }

  /** Where the parts of a written pair sit. */
  lemma PairLayout(s: string, i: nat, k: string, v: string, rest: string)
    requires i <= |s| && s[i..] == " " + k + "=" + v + rest
    ensures i + 2 + |k| + |v| + |rest| == |s| && s[i] == ' '
    ensures s[i + 1..i + 1 + |k|] == k && s[i + 1 + |k|] == '='
    ensures s[i + 2 + |k|..i + 2 + |k| + |v|] == v && s[i + 2 + |k| + |v|..] == rest
  {
    assert " " + k + "=" + v + rest == " " + (k + ("=" + (v + rest)));
    SuffixAt(s, i, " ", k + ("=" + (v + rest)));
    SuffixAt(s, i + 1, k, "=" + (v + rest));
    SuffixAt(s, i + 1 + |k|, "=", v + rest);
    SuffixAt(s, i + 2 + |k|, v, rest);
  }

  /** One written pair, after `w` spaces, is the pair `scan_keypair` reads,
      and the cursor ends right after it. */
  lemma WrittenPair(s: string, i: nat, w: nat, k: string, v: string, b: nat, e: nat)
    requires w == 0 || w == 1
    requires k != [] && BareChars(k) && v != [] && BareChars(v)
    requires b == i + w + |k| + 1 && e == b + |v| <= |s|
    requires w == 1 ==> s[i] == ' '
    requires s[i + w..i + w + |k|] == k && s[i + w + |k|] == '='
    requires s[b..e] == v
    requires e == |s| || s[e] == ' '
    ensures KeypairAt(s, i) == Keypair(k, v, e)
  {
    SpacedKey(s, i, w, k);
    SpacedWrittenValue(s, b, v, e);
    BareHasNoBackslash(k);
    KeypairFromParts(s, i, b, k, v, e);
  }

  /** A key after `w` spaces. */
  lemma SpacedKey(s: string, i: nat, w: nat, k: string)
    requires k != [] && BareChars(k)
    requires i + w + |k| < |s| && (w == 1 ==> s[i] == ' ') && (w == 0 || w == 1)
    requires s[i + w..i + w + |k|] == k && s[i + w + |k|] == '='
    ensures SpacedValueAt(s, i, true) == Match(k, i + w + |k| + 1)
  {
    assert s[i + w] == k[0] && IsBareChar(k[0]);
    SpanUnique(s, i, IsSpace, w);
    WrittenKey(s, i + w, k);
  }

  /** A written value right after the `=`. */
  lemma SpacedWrittenValue(s: string, b: nat, v: string, e: nat)
    requires v != [] && BareChars(v)
    requires e == b + |v| <= |s| && s[b..e] == v
    requires e == |s| || s[e] == ' '
    ensures SpacedValueAt(s, b, false) == Match(v, e) && Normalize(v) == v
  {
    assert s[b] == v[0];
    assert !IsSpace(v[0]);
    SpanUnique(s, b, IsSpace, 0);
    WrittenBare(s, b, v);
  }

  lemma BareHasNoBackslash(k: string)
    requires BareChars(k)
    ensures '\\' !in k && Normalize(k) == k
  {
    assert forall m :: 0 <= m < |k| ==> IsBareChar(k[m]);
  }

  /** `scan_keypair` from the two scans it makes. */
  lemma KeypairFromParts(s: string, i: nat, b: nat, key: string, value: string, e: nat)
    requires i <= b <= |s|
    requires SpacedValueAt(s, i, true) == Match(key, b)
    requires SpacedValueAt(s, b, false) == Match(value, e)
    ensures KeypairAt(s, i) == Keypair(Normalize(key), Normalize(value), e)
  {
  }

  /** Written keywords are the pairs the `while keypair` loop collects, and
      the loop stops at the end. */
  lemma {:induction false} WrittenKeywordsFrom(s: string, i: nat, ps: seq<Pair>)
    requires i <= |s| && s[i..] == WriteKeywords(ps) && Writable(ps)
    ensures KeypairsFrom(s, i) == Keywords(ps, |s|)
    decreases ps
  {
    if ps == [] {
      assert i == |s|;
      NothingAtEnd(s);
    } else {
      var rest := WriteKeywords(ps[1..]);
      WrittenTail(s, i, ps);
      WrittenKeywordsFrom(s, |s| - |rest|, ps[1..]);
      WrittenCons(s, i, ps);
    }
  }

  /** Where the keywords after the first written pair start. */
  lemma WrittenTail(s: string, i: nat, ps: seq<Pair>)
    requires i <= |s| && s[i..] == WriteKeywords(ps) && ps != [] && Writable(ps)
    ensures |WriteKeywords(ps[1..])| <= |s| - i
    ensures s[|s| - |WriteKeywords(ps[1..])|..] == WriteKeywords(ps[1..]) && Writable(ps[1..])
  {
    WritableParts(ps);
    WrittenPairAt(s, i, 1, i, ps[0].0, ps[0].1, WriteKeywords(ps[1..]));
  }

  /** The loop reads the first written pair and then the rest. */
  lemma WrittenCons(s: string, i: nat, ps: seq<Pair>)
    requires i <= |s| && s[i..] == WriteKeywords(ps) && ps != [] && Writable(ps)
    requires |WriteKeywords(ps[1..])| <= |s|
    requires KeypairsFrom(s, |s| - |WriteKeywords(ps[1..])|) == Keywords(ps[1..], |s|)
    ensures KeypairsFrom(s, i) == Keywords(ps, |s|)
  {
    var rest := WriteKeywords(ps[1..]);
    WritableParts(ps);
    WrittenPairAt(s, i, 1, i, ps[0].0, ps[0].1, rest);
    KeypairsStep(s, i, ps, |s| - |rest|);
  }

  /** A written pair is read the same from the space before it (`w` is 1)
      and from the key (`w` is 0), and the cursor ends right after it. */
  lemma WrittenPairAt(s: string, j: nat, w: nat, i: nat, k: string, v: string, rest: string)
    requires (w == 0 || w == 1) && i == j + 1 - w
    requires j <= |s| && s[j..] == " " + k + "=" + v + rest
    requires rest == [] || rest[0] == ' '
    requires k != [] && BareChars(k) && v != [] && BareChars(v)
    ensures |rest| <= |s| && s[|s| - |rest|..] == rest
    ensures KeypairAt(s, i) == Keypair(k, v, |s| - |rest|)
  {
    PairLayout(s, j, k, v, rest);
    WrittenPair(s, i, w, k, v, j + 2 + |k|, |s| - |rest|);
  }

  lemma NothingAtEnd(s: string)
    ensures KeypairsFrom(s, |s|) == Keywords([], |s|)
  {
  }

  /** The first pair of writable pairs can be written, and so can the rest. */
  lemma WritableParts(ps: seq<Pair>)
    requires ps != [] && Writable(ps)
    ensures ps[0].0 != [] && BareChars(ps[0].0) && ps[0].1 != [] && BareChars(ps[0].1)
    ensures Writable(ps[1..])
    ensures WriteKeywords(ps) == " " + ps[0].0 + "=" + ps[0].1 + WriteKeywords(ps[1..])
    ensures WriteKeywords(ps[1..]) == [] || WriteKeywords(ps[1..])[0] == ' '
  {
    assert ps[0] in ps;
    assert forall p :: p in ps[1..] ==> p in ps;
  }

  /** One more turn of the `while keypair` loop. */
  lemma KeypairsStep(s: string, i: nat, ps: seq<Pair>, e: nat)
    requires i <= |s| && e <= |s| && ps != []
    requires KeypairAt(s, i) == Keypair(ps[0].0, ps[0].1, e)
    requires KeypairsFrom(s, e) == Keywords(ps[1..], |s|)
    ensures KeypairsFrom(s, i) == Keywords(ps, |s|)
  {
    assert [(ps[0].0, ps[0].1)] + ps[1..] == ps;
  }

  /** A name followed by written keywords reads back as the name and the
      hash of the pairs, as in `season? name=summer`. */
  lemma KeywordsRoundTrip(name: string, ps: seq<Pair>)
    requires name != [] && NameChars(name)
    requires ps != [] && Writable(ps)
    ensures Reference(name + WriteKeywords(ps)) == Success([Str(name), Hash(FromPairs(ps))])
  {
    var s := name + WriteKeywords(ps);
    assert s[..|name|] == name && s[|name|..] == WriteKeywords(ps);
    NameRun(s, name);
    FirstKeywords(s, |name|, ps);
    ArgumentsFromKeywords(s, |name|, ps);
    assert Compacted(Some(name), Some(Hash(FromPairs(ps)))) == [Str(name), Hash(FromPairs(ps))];
  }

  /** The keywords after the space that `scan_keywords` consumes. */
  lemma FirstKeywords(s: string, i: nat, ps: seq<Pair>)
    requires i <= |s| && s[i..] == WriteKeywords(ps)
    requires ps != [] && Writable(ps)
    ensures i < |s| && s[i] == ' ' && KeypairsFrom(s, i + 1) == Keywords(ps, |s|)
  {
    var rest := WriteKeywords(ps[1..]);
    WritableParts(ps);
    WrittenPairAt(s, i, 0, i + 1, ps[0].0, ps[0].1, rest);
    WrittenKeywordsFrom(s, |s| - |rest|, ps[1..]);
    KeypairsStep(s, i + 1, ps, |s| - |rest|);
  }

  lemma ArgumentsFromKeywords(s: string, i: nat, ps: seq<Pair>)
    requires i < |s| && s[i] == ' ' && KeypairsFrom(s, i + 1) == Keywords(ps, |s|)
    ensures ArgumentsAt(s, i) == Arguments(Some(Hash(FromPairs(ps))), |s|)
  {
  }
  // ---------------------------------------------------------------------
  // Errors

  /** A word after the space that is not followed by `=` is not a keyword:
      the keyword hash is empty, the cursor stays before the word, and the
      parser reports a syntax error there. */
  lemma WordWithoutValue(name: string, word: string)
    requires name != [] && NameChars(name)
    requires word != [] && BareChars(word)
    ensures Reference(name + " " + word)
      == Failure(Syntax(SyntaxError.SyntaxError(|name| + 1, name + " " + word)))
  {
    var s := name + " " + word;
    var a := |name| + 1;
    assert s[..|name|] == name && s[|name|] == ' ' && s[a..] == word;
    NameRun(s, name);
    assert forall m :: a <= m < |s| ==> s[m] == word[m - a];
    assert IsBareChar(s[a]);
    SpanUnique(s, a, IsSpace, 0);
    SpanUnique(s, a, IsBareChar, |word|);
    assert KeypairAt(s, a) == NoKey;
    assert ArgumentsAt(s, |name|) == Arguments(Some(Hash([])), a);
  }

  /** A `?` right after a space has no string to be appended to: the only
      token is the empty keyword hash, and `<<` on it raises. */
  lemma ModifierWithoutName(s: string)
    requires |s| >= 2 && s[0] == ' ' && s[1] == '?'
    ensures Reference(s) == Failure(NoMethodError)
  {
    SpanUnique(s, 1, IsSpace, 0);
    SpanUnique(s, 1, IsBareChar, 0);
    assert KeypairAt(s, 1) == NoKey;
    assert ArgumentsAt(s, 0) == Arguments(Some(Hash([])), 1);
  }

  /** Every syntax error the parser raises has a message: its position is
      inside the reference. */
  lemma SyntaxErrorHasMessage(s: string)
    ensures Reference(s).Failure? && Reference(s).error.Syntax? ==>
      SyntaxError.Message(Reference(s).error.error).Some?
  {
    if Reference(s).Failure? && Reference(s).error.Syntax? {
      SyntaxError.MessageDefined(Reference(s).error.error);
    }
  }
  /** The documented example `season? name=summer`: the `?` is part of the
      name, and the keywords come back as a one-entry hash. */
  lemma SeasonSummer()
    ensures Reference("season?" + (" " + "name" + "=" + "summer"))
      == Success([Str("season?"), Hash([("name", "summer")])])
  {
    var ps := [("name", "summer")];
    SummerWritten();
    SeasonIsName();
    assert FromPairs(ps) == ps;
    KeywordsRoundTrip("season?", ps);
  }

  lemma SummerWritten()
    ensures Writable([("name", "summer")])
    ensures WriteKeywords([("name", "summer")]) == " " + "name" + "=" + "summer"
  {
    var ps := [("name", "summer")];
    assert BareChars("summer") && BareChars("name");
    assert ps[1..] == [];
  }

  lemma SeasonIsName()
    ensures NameChars("season?")
  {
  }
}
