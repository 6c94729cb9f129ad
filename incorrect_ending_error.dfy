/** The error raised when a block end does not match the open block
    (lib/curly/incorrect_ending_error.rb). It keeps the block that was closed
    and the block that was expected, and names each as `name.identifier`. */
module IncorrectEndingError {
  import opened Wrappers
  import opened Strings

  /** A block as the error receives it: the array `[name, identifier]`,
      either part possibly `nil`. */
  type BlockName = (Option<string>, Option<string>)

  /** `IncorrectEndingError.new(actual_block, expected_block)` */
  datatype IncorrectEndingError = IncorrectEndingError(actual: BlockName, expected: BlockName)

  /** `Array#compact`: the parts that are not `nil`, in order. */
  function Compact(parts: seq<Option<string>>): (r: seq<string>)
    ensures |r| <= |parts|
    ensures forall s :: s in r <==> Some(s) in parts
  {
    if parts == [] then []
    else
      var rest := Compact(parts[1..]);
      assert forall s :: Some(s) in parts <==> parts[0] == Some(s) || Some(s) in parts[1..];
      match parts[0]
      case None => rest
      case Some(s) => [s] + rest
  }

  /** `present_block`: `block.compact.join(".")`. */
  function PresentBlock(block: BlockName): (r: string)
    ensures block.0.Some? && block.1.Some? ==> r == block.0.value + "." + block.1.value
    ensures block.0.Some? && block.1.None? ==> r == block.0.value
    ensures block.0.None? && block.1.Some? ==> r == block.1.value
    ensures block.0.None? && block.1.None? ==> r == ""
  {
    var parts := Compact([block.0, block.1]);
    assert [block.0, block.1][1..] == [block.1];
    assert [block.1][1..] == [];
    assert Compact([block.1]) == if block.1.Some? then [block.1.value] else [];
    Join(parts, ".")
  }

  /** `message`: the expected block is named first, the actual one second. */
  function Message(e: IncorrectEndingError): (r: string)
  {
    "compilation error: expected `{{/" + PresentBlock(e.expected) + "}}`, got `{{/" + PresentBlock(e.actual) + "}}`"
  }

  const Opening := "compilation error: expected `{{/"
  const Middle := "}}`, got `{{/"
  const Closing := "}}`"

  /** The message quotes the expected block between the fixed opening and
      middle, and the actual block between the middle and the closing. */
  lemma MessageLayout(e: IncorrectEndingError)
    ensures Message(e) == Opening + PresentBlock(e.expected) + Middle + PresentBlock(e.actual) + Closing
  {
  }

  /** When neither block name holds a backtick, the message determines both
      names: the expected one is what precedes the first backtick after the
      opening, minus the `}}` in front of it. */
  lemma MessageDeterminesBlocks(e1: IncorrectEndingError, e2: IncorrectEndingError)
    requires '`' !in PresentBlock(e1.expected) && '`' !in PresentBlock(e2.expected)
    requires Message(e1) == Message(e2)
    ensures PresentBlock(e1.expected) == PresentBlock(e2.expected)
    ensures PresentBlock(e1.actual) == PresentBlock(e2.actual)
  {
    var x1, x2 := PresentBlock(e1.expected), PresentBlock(e2.expected);
    var a1, a2 := PresentBlock(e1.actual), PresentBlock(e2.actual);
    var m1, m2 := Opening + x1 + Middle + a1 + Closing, Opening + x2 + Middle + a2 + Closing;
    MessageLayout(e1);
    MessageLayout(e2);
    var o := |Opening|;
    FirstBacktick(x1, a1);
    FirstBacktick(x2, a2);
    assert |x1| == |x2|;
    MessageParts(x1, a1);
    MessageParts(x2, a2);
  }

  /** The first backtick after the opening is the one of the middle. */
  lemma FirstBacktick(x: string, a: string)
    requires '`' !in x
    ensures (Opening + x + Middle + a + Closing)[|Opening| + |x| + 2] == '`'
    ensures forall k :: |Opening| <= k < |Opening| + |x| + 2 ==> (Opening + x + Middle + a + Closing)[k] != '`'
  {
    var m := Opening + x + Middle + a + Closing;
    var o := |Opening|;
    assert m == Opening + (x + Middle) + (a + Closing);
    assert forall k :: 0 <= k < |x| + 3 ==> m[o + k] == (x + Middle)[k];
  }

  /** Where the two names sit in the message. */
  lemma MessageParts(x: string, a: string)
    ensures (Opening + x + Middle + a + Closing)[|Opening|..|Opening| + |x|] == x
    ensures (Opening + x + Middle + a + Closing)[|Opening| + |x| + |Middle|..|Opening| + |x| + |Middle| + |a|] == a
  {
    var m := Opening + x + Middle + a + Closing;
    assert m == Opening + x + (Middle + a + Closing);
    assert m == (Opening + x + Middle) + a + Closing;
  }

  /** The documented example: a `bar` end where `foo` was open. */
  lemma NamesWithoutIdentifier()
    ensures Message(IncorrectEndingError((Some("bar"), None), (Some("foo"), None)))
      == "compilation error: expected `{{/foo}}`, got `{{/bar}}`"
  {
  }

  /** The documented example with identifiers. */
  lemma NamesWithIdentifier()
    ensures Message(IncorrectEndingError((Some("foo"), Some("y")), (Some("foo"), Some("x"))))
      == "compilation error: expected `{{/foo.x}}`, got `{{/foo.y}}`"
  {
  }
}
