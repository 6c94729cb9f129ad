/** The block-stack parser (lib/curly/parser.rb): turns the token list into a
    tree of text, comment, component and block nodes. A stack holds the root
    and the blocks that are open; nodes go into the block on top, a block
    start opens a block, an end closes the top one if it matches, and `else`
    closes a conditional block and opens its opposite.

    The parser appends a block to its parent when it opens it and then fills
    it through the stack. Here a frame on the stack holds the nodes of the
    block it stands for, and the block is added to its parent when it is
    closed; while a block is open nothing else is added to its parent, so a
    successful parse builds the same tree. */
module Parser {
  import opened Wrappers
  import opened OrderedMaps

  /** `Curly::Parser::Component` */
  datatype Component = Component(name: string, identifier: Option<string>, attributes: OrderedMap)

  /** The four kinds of `Block`. */
  datatype BlockKind = Conditional | InverseConditional | Collection | Context

  /** `Text`, `Comment`, `Component` and `Block` nodes. */
  datatype Node =
    | Text(value: string)
    | Comment(value: string)
    | ComponentNode(component: Component)
    | Block(kind: BlockKind, component: Component, nodes: seq<Node>)

  /** The tokens `parse` dispatches on, each with its arguments; the four
      `*_block_start` tokens are `BlockStart` with their kind. */
  datatype Token =
    | TextToken(value: string)
    | CommentToken(value: string)
    | ComponentToken(component: Component)
    | BlockStart(kind: BlockKind, component: Component)
    | ElseBlockStart
    | ConditionalBlockEnd
    | BlockEnd(component: Component)

  /** What `parse` raises: `IncompleteBlockError` for a block left open,
      `IncorrectEndingError` for an end that does not match the top of the
      stack (`block` is `None` for the root, `ending` is `None` for a
      conditional block end), `Curly::Error` for an `else` outside a
      conditional block, and `NoMethodError` when `type` is asked of the
      root. */
  datatype ParseError =
    | IncompleteBlock(open: Component)
    | IncorrectEnding(block: Option<Component>, ending: Option<Component>)
    | ImproperElse
    | RootHasNoType

  /** An entry of the stack: the root, or an open block and the nodes it
      holds so far. */
  datatype Frame =
    | RootFrame(nodes: seq<Node>)
    | BlockFrame(kind: BlockKind, component: Component, nodes: seq<Node>)

  /** The root at the bottom of the stack and open blocks above it. */
  predicate Valid(stack: seq<Frame>)
  {
    |stack| >= 1 && stack[0].RootFrame? && forall i :: 1 <= i < |stack| ==> stack[i].BlockFrame?
  }

  /** `@stack.last` */
  function Top(stack: seq<Frame>): Frame
    requires stack != []
  {
    stack[|stack| - 1]
  }

  /** `Block#closed_by?`: name and identifier match; the attributes play no
      part. `Root#closed_by?` is always false. */
  predicate ClosedBy(block: Component, ending: Component)
  {
    block.name == ending.name && block.identifier == ending.identifier
  }

  /** `Component#==`: the attribute hashes are compared as hashes, so the
      order of their entries does not matter. */
  predicate SameComponent(a: Component, b: Component)
  {
    a.name == b.name && a.identifier == b.identifier
    && forall k | k in Keys(a.attributes) + Keys(b.attributes) :: Get(a.attributes, k) == Get(b.attributes, k)
  }

  predicate IsConditional(kind: BlockKind)
  {
    kind == Conditional || kind == InverseConditional
  }

  /** The kind `else` opens after a block of kind `kind`. */
  function Reversed(kind: BlockKind): (r: BlockKind)
    requires IsConditional(kind)
    ensures IsConditional(r) && r != kind
  {
    if kind == Conditional then InverseConditional else Conditional
  }

  /** `tree << node`: the node is added to the top of the stack. */
  function Append(stack: seq<Frame>, node: Node): (r: seq<Frame>)
    requires Valid(stack)
    ensures Valid(r) && |r| == |stack|
    ensures r[..|r| - 1] == stack[..|stack| - 1]
    ensures Top(r).nodes == Top(stack).nodes + [node]
  {
    var top := Top(stack);
    stack[|stack| - 1 := top.(nodes := top.nodes + [node])]
  }

  /** `@stack.pop` of an open block, which then is a node of the frame
      below. */
  function Close(stack: seq<Frame>): (r: seq<Frame>)
    requires Valid(stack) && |stack| >= 2
    ensures Valid(r) && |r| == |stack| - 1
    ensures Top(r).nodes == stack[|stack| - 2].nodes + [Block(Top(stack).kind, Top(stack).component, Top(stack).nodes)]
  {
    var top := Top(stack);
    Append(stack[..|stack| - 1], Block(top.kind, top.component, top.nodes))
  }

  /** What one `parse_*` handler does to the stack, or raises. */
  function Step(stack: seq<Frame>, token: Token): (r: Result<seq<Frame>, ParseError>)
    requires Valid(stack)
    ensures r.Success? ==> Valid(r.value)
  {
    match token
    case TextToken(value) => Success(Append(stack, Text(value)))
    case CommentToken(value) => Success(Append(stack, Comment(value)))
    case ComponentToken(c) => Success(Append(stack, ComponentNode(c)))
    case BlockStart(kind, c) => Success(stack + [BlockFrame(kind, c, [])])
    case ElseBlockStart =>
      var top := Top(stack);
      if top.RootFrame? then Failure(RootHasNoType)
      else if !IsConditional(top.kind) then Failure(ImproperElse)
      else Success(Close(stack) + [BlockFrame(Reversed(top.kind), top.component, [])])
    case ConditionalBlockEnd =>
      var top := Top(stack);
      if top.RootFrame? then Failure(RootHasNoType)
      else if !IsConditional(top.kind) then Failure(IncorrectEnding(Some(top.component), None))
      else Success(Close(stack))
    case BlockEnd(c) =>
      var top := Top(stack);
      if top.RootFrame? then Failure(IncorrectEnding(None, Some(c)))
      else if !ClosedBy(top.component, c) then Failure(IncorrectEnding(Some(top.component), Some(c)))
      else Success(Close(stack))
  }

  /** The `@tokens.each` loop from `stack`: the stack at the end, or the
      first error. */
  function Run(stack: seq<Frame>, tokens: seq<Token>): (r: Result<seq<Frame>, ParseError>)
    requires Valid(stack)
    ensures r.Success? ==> Valid(r.value)
    decreases |tokens|
  {
    if tokens == [] then Success(stack)
    else
      match Step(stack, tokens[0])
      case Failure(e) => Failure(e)
      case Success(next) => Run(next, tokens[1..])
  }

  /** What `Curly::Parser.parse(tokens)` returns or raises: the root's nodes
      when exactly the root is left open. */
  function ParseTokens(tokens: seq<Token>): (r: Result<seq<Node>, ParseError>)
  {
    match Run([RootFrame([])], tokens)
    case Failure(e) => Failure(e)
    case Success(stack) =>
      if |stack| == 1 then Success(stack[0].nodes) else Failure(IncompleteBlock(Top(stack).component))
  }

  /** The outcome of a handler: the error it raised, or the new stack. */
  function Outcome(error: Option<ParseError>, stack: seq<Frame>): Result<seq<Frame>, ParseError>
  {
    if error.Some? then Failure(error.value) else Success(stack)
  }

  class Parser {
    const tokens: seq<Token>
    var stack: seq<Frame>

    constructor (tokens: seq<Token>)
      ensures this.tokens == tokens && stack == [RootFrame([])]
    {
      this.tokens := tokens;
      stack := [RootFrame([])];
    }

    method Parse() returns (r: Result<seq<Node>, ParseError>)
      requires stack == [RootFrame([])]
      modifies this
      ensures r == ParseTokens(tokens)
    {
      for i := 0 to |tokens|
        invariant Valid(stack)
        invariant Run([RootFrame([])], tokens) == Run(stack, tokens[i..])
      {
        assert tokens[i..][0] == tokens[i] && tokens[i..][1..] == tokens[i + 1..];
        var error := Dispatch(tokens[i]);
        if error.Some? {
          return Failure(error.value);
        }
      }
      assert tokens[|tokens|..] == [];
      if |stack| != 1 {
        return Failure(IncompleteBlock(Top(stack).component));
      }
      r := Success(stack[0].nodes);
    }

    /** `send("parse_#{token}", *args)` */
    method Dispatch(token: Token) returns (error: Option<ParseError>)
      requires Valid(stack)
      modifies this
      ensures error.None? ==> Valid(stack)
      ensures Outcome(error, stack) == Step(old(stack), token)
    {
      match token
      case TextToken(value) => ParseText(value); error := None;
      case CommentToken(value) => ParseComment(value); error := None;
      case ComponentToken(c) => ParseComponent(c); error := None;
      case BlockStart(kind, c) => ParseBlock(kind, c); error := None;
      case ElseBlockStart => error := ParseElseBlockStart();
      case ConditionalBlockEnd => error := ParseConditionalBlockEnd();
      case BlockEnd(c) => error := ParseBlockEnd(c);
    }

    method ParseText(value: string)
      requires Valid(stack)
      modifies this
      ensures stack == Append(old(stack), Text(value))
    {
      AppendToTree(Text(value));
    }

    method ParseComment(value: string)
      requires Valid(stack)
      modifies this
      ensures stack == Append(old(stack), Comment(value))
    {
      AppendToTree(Comment(value));
    }

    method ParseComponent(c: Component)
      requires Valid(stack)
      modifies this
      ensures stack == Append(old(stack), ComponentNode(c))
    {
      AppendToTree(ComponentNode(c));
    }

    /** `parse_block`: a new, empty block of the kind on top of the stack. */
    method ParseBlock(kind: BlockKind, c: Component)
      requires Valid(stack)
      modifies this
      ensures stack == old(stack) + [BlockFrame(kind, c, [])]
    {
      stack := stack + [BlockFrame(kind, c, [])];
    }

    /** `parse_else_block_start`: the conditional block on top is closed and
      the block of the opposite kind, for the same component, is opened. */
    method ParseElseBlockStart() returns (error: Option<ParseError>)
      requires Valid(stack)
      modifies this
      ensures error.None? ==> Valid(stack)
      ensures Outcome(error, stack) == Step(old(stack), ElseBlockStart)
    {
      var block := Top(stack);
      if block.RootFrame? {
        return Some(RootHasNoType);
      }
      if !IsConditional(block.kind) {
        return Some(ImproperElse);
      }
      PopBlock();
      ParseBlock(Reversed(block.kind), block.component);
      error := None;
    }

    method ParseConditionalBlockEnd() returns (error: Option<ParseError>)
      requires Valid(stack)
      modifies this
      ensures error.None? ==> Valid(stack)
      ensures Outcome(error, stack) == Step(old(stack), ConditionalBlockEnd)
    {
      var block := Top(stack);
      if block.RootFrame? {
        return Some(RootHasNoType);
      }
      if !IsConditional(block.kind) {
        return Some(IncorrectEnding(Some(block.component), None));
      }
      PopBlock();
      error := None;
    }

    method ParseBlockEnd(c: Component) returns (error: Option<ParseError>)
      requires Valid(stack)
      modifies this
      ensures error.None? ==> Valid(stack)
      ensures Outcome(error, stack) == Step(old(stack), BlockEnd(c))
    {
      var block := Top(stack);
      if block.RootFrame? {
        return Some(IncorrectEnding(None, Some(c)));
      }
      if !ClosedBy(block.component, c) {
        return Some(IncorrectEnding(Some(block.component), Some(c)));
      }
      PopBlock();
      error := None;
    }

    /** `@stack.pop` of an open block, which becomes a node of the frame
        below. */
    method PopBlock()
      requires Valid(stack) && |stack| >= 2
      modifies this
      ensures stack == Close(old(stack))
    {
      var block := Top(stack);
      stack := stack[..|stack| - 1];
      AppendToTree(Block(block.kind, block.component, block.nodes));
    }

    /** `tree << node` */
    method AppendToTree(node: Node)
      requires Valid(stack)
      modifies this
      ensures stack == Append(old(stack), node)
    {
      var top := Top(stack);
      stack := stack[|stack| - 1 := top.(nodes := top.nodes + [node])];
    }
  }

  /** `Curly::Parser.parse(tokens)` */
  method Parse(tokens: seq<Token>) returns (r: Result<seq<Node>, ParseError>)
    ensures r == ParseTokens(tokens)
  {
    var parser := new Parser(tokens);
    r := parser.Parse();
  }
}

/** What the parser promises about the trees it builds. */
module ParserFacts {
  import opened Wrappers
  import opened OrderedMaps
  import opened Parser

  /** The tokens a tree is written as: a block as its start, its contents
      and a `BlockEnd` naming its own component. */
  function Flatten(nodes: seq<Node>): seq<Token>
    decreases nodes
  {
    if nodes == [] then [] else FlattenNode(nodes[0]) + Flatten(nodes[1..])
  }

  function FlattenNode(node: Node): seq<Token>
    decreases node
  {
    match node
    case Text(value) => [TextToken(value)]
    case Comment(value) => [CommentToken(value)]
    case ComponentNode(c) => [ComponentToken(c)]
    case Block(kind, c, nodes) => [BlockStart(kind, c)] + Flatten(nodes) + [BlockEnd(c)]
  }

  /** Carrying on with `tokens` after an outcome. */
  function Continue(r: Result<seq<Frame>, ParseError>, tokens: seq<Token>): Result<seq<Frame>, ParseError>
    requires r.Success? ==> Valid(r.value)
  {
    if r.Failure? then r else Run(r.value, tokens)
  }

  /** The stack with `nodes` added to its top. */
  function Extend(stack: seq<Frame>, nodes: seq<Node>): (r: seq<Frame>)
    requires Valid(stack)
    ensures Valid(r) && |r| == |stack|
  {
    stack[|stack| - 1 := Top(stack).(nodes := Top(stack).nodes + nodes)]
  }

  /** Tokens are handled one after the other: the first error ends the
      parse. */
  lemma {:induction false} RunConcat(stack: seq<Frame>, a: seq<Token>, b: seq<Token>)
    requires Valid(stack)
    ensures Run(stack, a + b) == Continue(Run(stack, a), b)
    decreases |a|
  {
    if a == [] {
      assert a + b == b;
    } else {
      assert (a + b)[0] == a[0] && (a + b)[1..] == a[1..] + b;
      match Step(stack, a[0]) {
        case Failure(e) =>
        case Success(next) => RunConcat(next, a[1..], b);
      }
    }
  }

  lemma RunOne(stack: seq<Frame>, t: Token)
    requires Valid(stack)
    ensures Run(stack, [t]) == Step(stack, t)
  {
    assert [t][1..] == [];
  }

  lemma ExtendNothing(stack: seq<Frame>)
    requires Valid(stack)
    ensures Extend(stack, []) == stack
  {
    assert Top(stack).nodes + [] == Top(stack).nodes;
  }

  lemma ExtendAppend(stack: seq<Frame>, node: Node, nodes: seq<Node>)
    requires Valid(stack)
    ensures Extend(Append(stack, node), nodes) == Extend(stack, [node] + nodes)
  {
    assert Top(stack).nodes + [node] + nodes == Top(stack).nodes + ([node] + nodes);
  }

  /** The tokens of a list of nodes add exactly those nodes to the top of
      the stack, whatever the stack holds. */
  lemma {:induction false} RunFlatten(stack: seq<Frame>, nodes: seq<Node>)
    requires Valid(stack)
    ensures Run(stack, Flatten(nodes)) == Success(Extend(stack, nodes))
    decreases nodes
  {
    if nodes == [] {
      ExtendNothing(stack);
    } else {
      RunConcat(stack, FlattenNode(nodes[0]), Flatten(nodes[1..]));
      RunFlattenNode(stack, nodes[0]);
      RunFlatten(Append(stack, nodes[0]), nodes[1..]);
      ExtendAppend(stack, nodes[0], nodes[1..]);
      assert [nodes[0]] + nodes[1..] == nodes;
    }
  }

  lemma {:induction false} RunFlattenNode(stack: seq<Frame>, node: Node)
    requires Valid(stack)
    ensures Run(stack, FlattenNode(node)) == Success(Append(stack, node))
    decreases node
  {
    match node {
      case Text(value) => RunOne(stack, TextToken(value));
      case Comment(value) => RunOne(stack, CommentToken(value));
      case ComponentNode(c) => RunOne(stack, ComponentToken(c));
      case Block(kind, c, nodes) =>
        var open := stack + [BlockFrame(kind, c, [])];
        RunConcat(stack, [BlockStart(kind, c)] + Flatten(nodes), [BlockEnd(c)]);
        RunConcat(stack, [BlockStart(kind, c)], Flatten(nodes));
        RunOne(stack, BlockStart(kind, c));
        RunFlatten(open, nodes);
        OpenExtended(stack, kind, c, nodes);
        CloseOpened(stack, kind, c, nodes);
        RunOne(stack + [BlockFrame(kind, c, nodes)], BlockEnd(c));
    }
  }

  lemma OpenExtended(stack: seq<Frame>, kind: BlockKind, c: Component, nodes: seq<Node>)
    requires Valid(stack)
    ensures Extend(stack + [BlockFrame(kind, c, [])], nodes) == stack + [BlockFrame(kind, c, nodes)]
  {
    assert [] + nodes == nodes;
  }

  lemma CloseOpened(stack: seq<Frame>, kind: BlockKind, c: Component, nodes: seq<Node>)
    requires Valid(stack)
    ensures Valid(stack + [BlockFrame(kind, c, nodes)])
    ensures Close(stack + [BlockFrame(kind, c, nodes)]) == Append(stack, Block(kind, c, nodes))
  {
    assert (stack + [BlockFrame(kind, c, nodes)])[..|stack|] == stack;
  }

  /** Round trip: parsing the tokens of any tree gives back that tree. */
  lemma RoundTrip(nodes: seq<Node>)
    ensures ParseTokens(Flatten(nodes)) == Success(nodes)
  {
    RunFlatten([RootFrame([])], nodes);
    assert [] + nodes == nodes;
  }

  // ---------------------------------------------------------------------
  // Balance

  /** The tokens that open a block, and those that close one. */
  function Opens(tokens: seq<Token>): nat
  {
    if tokens == [] then 0 else (if tokens[0].BlockStart? then 1 else 0) + Opens(tokens[1..])
  }

  function Ends(tokens: seq<Token>): nat
  {
    if tokens == [] then 0
    else (if tokens[0].ConditionalBlockEnd? || tokens[0].BlockEnd? then 1 else 0) + Ends(tokens[1..])
  }

  /** Every start pushes a frame, every end pops one and `else` does both. */
  lemma {:induction false} RunDepth(stack: seq<Frame>, tokens: seq<Token>)
    requires Valid(stack)
    requires Run(stack, tokens).Success?
    ensures |Run(stack, tokens).value| == |stack| + Opens(tokens) - Ends(tokens)
    decreases |tokens|
  {
    if tokens != [] {
      RunDepth(Step(stack, tokens[0]).value, tokens[1..]);
    }
  }

  lemma {:induction false} OpensConcat(a: seq<Token>, b: seq<Token>)
    ensures Opens(a + b) == Opens(a) + Opens(b) && Ends(a + b) == Ends(a) + Ends(b)
  {
    if a == [] {
      assert a + b == b;
    } else {
      assert (a + b)[0] == a[0] && (a + b)[1..] == a[1..] + b;
      OpensConcat(a[1..], b);
    }
  }

  /** A template that parses has as many ends as starts, and no prefix of
      it has more ends than starts: the root is never closed. */
  lemma Balanced(tokens: seq<Token>, k: nat)
    requires ParseTokens(tokens).Success? && k <= |tokens|
    ensures Opens(tokens) == Ends(tokens)
    ensures Ends(tokens[..k]) <= Opens(tokens[..k])
  {
    var root := [RootFrame([])];
    RunDepth(root, tokens);
    assert tokens == tokens[..k] + tokens[k..];
    RunConcat(root, tokens[..k], tokens[k..]);
    RunDepth(root, tokens[..k]);
  }

  // ---------------------------------------------------------------------
  // Ends, `else` and the root

  /** After complete nodes only the root is open, and an end closes it:
      a block end is an incorrect ending, and a conditional end or an `else`
      asks the root for its type. */
  lemma EndAtRoot(before: seq<Node>, t: Token, rest: seq<Token>)
    requires t.BlockEnd? || t.ConditionalBlockEnd? || t.ElseBlockStart?
    ensures ParseTokens(Flatten(before) + [t] + rest)
      == Failure(if t.BlockEnd? then IncorrectEnding(None, Some(t.component)) else RootHasNoType)
  {
    var root := [RootFrame([])];
    RunConcat(root, Flatten(before) + [t], rest);
    RunConcat(root, Flatten(before), [t]);
    RunFlatten(root, before);
    RunOne(Extend(root, before), t);
  }

  /** Running on from a known intermediate stack. */
  lemma RunThen(stack: seq<Frame>, a: seq<Token>, b: seq<Token>, middle: seq<Frame>)
    requires Valid(stack) && Valid(middle)
    requires Run(stack, a) == Success(middle)
    ensures Run(stack, a + b) == Run(middle, b)
  {
    RunConcat(stack, a, b);
  }

  /** After the tokens of complete nodes only the root is open. */
  lemma RootAfter(before: seq<Node>)
    ensures Run([RootFrame([])], Flatten(before)) == Success([RootFrame(before)])
  {
    RunFlatten([RootFrame([])], before);
    assert [] + before == before;
    assert Extend([RootFrame([])], before) == [RootFrame([] + before)];
  }

  /** A block start pushes an empty frame. */
  lemma StartPushes(stack: seq<Frame>, kind: BlockKind, c: Component)
    requires Valid(stack)
    ensures Run(stack, [BlockStart(kind, c)]) == Success(stack + [BlockFrame(kind, c, [])])
  {
    RunOne(stack, BlockStart(kind, c));
  }

  /** The contents of a block go into its frame. */
  lemma ContentsFill(stack: seq<Frame>, kind: BlockKind, c: Component, nodes: seq<Node>)
    requires Valid(stack)
    ensures Run(stack + [BlockFrame(kind, c, [])], Flatten(nodes)) == Success(stack + [BlockFrame(kind, c, nodes)])
  {
    RunFlatten(stack + [BlockFrame(kind, c, [])], nodes);
    OpenExtended(stack, kind, c, nodes);
  }

  /** The stack after the tokens of `before`, a block start and the tokens
      of `nodes`. */
  lemma OpenBlock(before: seq<Node>, kind: BlockKind, c: Component, nodes: seq<Node>)
    ensures Run([RootFrame([])], Flatten(before) + [BlockStart(kind, c)] + Flatten(nodes))
      == Success([RootFrame(before), BlockFrame(kind, c, nodes)])
  {
    var root := [RootFrame([])];
    var after := [RootFrame(before)];
    var start := [BlockStart(kind, c)];
    var pushed := after + [BlockFrame(kind, c, [])];
    RootAfter(before);
    StartPushes(after, kind, c);
    RunThen(root, Flatten(before), start, after);
    ContentsFill(after, kind, c, nodes);
    assert Run(root, Flatten(before) + start) == Success(pushed);
    RunThen(root, Flatten(before) + start, Flatten(nodes), pushed);
    assert after + [BlockFrame(kind, c, nodes)] == [RootFrame(before), BlockFrame(kind, c, nodes)];
  }

  /** A block left open is reported. */
  lemma Incomplete(before: seq<Node>, kind: BlockKind, c: Component, nodes: seq<Node>)
    ensures ParseTokens(Flatten(before) + [BlockStart(kind, c)] + Flatten(nodes)) == Failure(IncompleteBlock(c))
  {
    OpenBlock(before, kind, c, nodes);
  }

  /** The outcome of ending the only open block with `t`. */
  lemma EndOpenBlock(before: seq<Node>, kind: BlockKind, c: Component, nodes: seq<Node>, t: Token)
    ensures Run([RootFrame([])], Flatten(before) + [BlockStart(kind, c)] + Flatten(nodes) + [t])
      == Step([RootFrame(before), BlockFrame(kind, c, nodes)], t)
  {
    OpenBlock(before, kind, c, nodes);
    RunThen([RootFrame([])], Flatten(before) + [BlockStart(kind, c)] + Flatten(nodes), [t], [RootFrame(before), BlockFrame(kind, c, nodes)]);
    RunOne([RootFrame(before), BlockFrame(kind, c, nodes)], t);
  }

  /** A block end closes the open block exactly when it names the same
      component and identifier, whatever the attributes of either. */
  lemma BlockEndMatches(before: seq<Node>, kind: BlockKind, c: Component, nodes: seq<Node>, ending: Component)
    ensures ParseTokens(Flatten(before) + [BlockStart(kind, c)] + Flatten(nodes) + [BlockEnd(ending)])
      == if ClosedBy(c, ending) then Success(before + [Block(kind, c, nodes)])
         else Failure(IncorrectEnding(Some(c), Some(ending)))
  {
    EndOpenBlock(before, kind, c, nodes, BlockEnd(ending));
    CloseOpened([RootFrame(before)], kind, c, nodes);
  }

  /** A conditional block end closes a conditional block of either
      polarity, and no other block. */
  lemma ConditionalEndMatches(before: seq<Node>, kind: BlockKind, c: Component, nodes: seq<Node>)
    ensures ParseTokens(Flatten(before) + [BlockStart(kind, c)] + Flatten(nodes) + [ConditionalBlockEnd])
      == if IsConditional(kind) then Success(before + [Block(kind, c, nodes)])
         else Failure(IncorrectEnding(Some(c), None))
  {
    EndOpenBlock(before, kind, c, nodes, ConditionalBlockEnd);
    CloseOpened([RootFrame(before)], kind, c, nodes);
  }

  /** `else` in a conditional block closes it and opens the block of the
      opposite polarity for the same component; in any other block it is
      an error. */
  lemma ElseFlipsPolarity(before: seq<Node>, kind: BlockKind, c: Component, yes: seq<Node>, no: seq<Node>)
    ensures ParseTokens(Flatten(before) + [BlockStart(kind, c)] + Flatten(yes) + [ElseBlockStart] + Flatten(no) + [ConditionalBlockEnd])
      == if IsConditional(kind) then Success(before + [Block(kind, c, yes), Block(Reversed(kind), c, no)])
         else Failure(ImproperElse)
  {
    var root := [RootFrame([])];
    var pushed := Flatten(before) + [BlockStart(kind, c)] + Flatten(yes) + [ElseBlockStart];
    var tail := Flatten(no) + [ConditionalBlockEnd];
    assert pushed + Flatten(no) + [ConditionalBlockEnd] == pushed + tail;
    EndOpenBlock(before, kind, c, yes, ElseBlockStart);
    ElseStep(before, kind, c, yes);
    RunConcat(root, pushed, tail);
    if IsConditional(kind) {
      ElseOpens(before, kind, c, yes, no);
    }
  }

  lemma ElseStep(before: seq<Node>, kind: BlockKind, c: Component, yes: seq<Node>)
    ensures Step([RootFrame(before), BlockFrame(kind, c, yes)], ElseBlockStart)
      == if IsConditional(kind) then Success([RootFrame(before + [Block(kind, c, yes)])] + [BlockFrame(Reversed(kind), c, [])])
         else Failure(ImproperElse)
  {
    var stack := [RootFrame(before), BlockFrame(kind, c, yes)];
    assert [RootFrame(before)] + [BlockFrame(kind, c, yes)] == stack;
    CloseOpened([RootFrame(before)], kind, c, yes);
    assert Append([RootFrame(before)], Block(kind, c, yes)) == [RootFrame(before + [Block(kind, c, yes)])];
  }

  lemma ElseOpens(before: seq<Node>, kind: BlockKind, c: Component, yes: seq<Node>, no: seq<Node>)
    requires IsConditional(kind)
    ensures Run([RootFrame(before + [Block(kind, c, yes)])] + [BlockFrame(Reversed(kind), c, [])], Flatten(no) + [ConditionalBlockEnd])
      == Success([RootFrame(before + [Block(kind, c, yes), Block(Reversed(kind), c, no)])])
  {
    var stack := [RootFrame(before + [Block(kind, c, yes)])];
    var flipped := Reversed(kind);
    ContentsFill(stack, flipped, c, no);
    RunThen(stack + [BlockFrame(flipped, c, [])], Flatten(no), [ConditionalBlockEnd], stack + [BlockFrame(flipped, c, no)]);
    CloseOpened(stack, flipped, c, no);
    RunOne(stack + [BlockFrame(flipped, c, no)], ConditionalBlockEnd);
    assert Append(stack, Block(flipped, c, no)) == [RootFrame(before + [Block(kind, c, yes)] + [Block(flipped, c, no)])];
    assert before + [Block(kind, c, yes)] + [Block(flipped, c, no)] == before + [Block(kind, c, yes), Block(flipped, c, no)];
  }

  // ---------------------------------------------------------------------
  // Component equality

  /** `Component#==` is an equivalence and implies `closed_by?`. */
  lemma SameComponentEquivalence(a: Component, b: Component, c: Component)
    ensures SameComponent(a, a)
    ensures SameComponent(a, b) ==> SameComponent(b, a)
    ensures SameComponent(a, b) && SameComponent(b, c) ==> SameComponent(a, c)
    ensures SameComponent(a, b) ==> ClosedBy(a, b)
  {
    if SameComponent(a, b) && SameComponent(b, c) {
      forall k | k in Keys(a.attributes) + Keys(c.attributes)
        ensures Get(a.attributes, k) == Get(c.attributes, k)
      {
        if k in Keys(a.attributes) {
          assert k in Keys(a.attributes) + Keys(b.attributes);
          assert Get(b.attributes, k).Some?;
          assert k in Keys(b.attributes) + Keys(c.attributes);
        } else {
          assert k in Keys(b.attributes) + Keys(c.attributes);
          assert Get(b.attributes, k).Some?;
          assert k in Keys(a.attributes) + Keys(b.attributes);
        }
      }
    }
  }

  /** The order of the attributes does not matter to `Component#==`. */
  lemma AttributeOrderIgnored(c: Component, p: (string, string), q: (string, string))
    requires p.0 != q.0
    ensures SameComponent(c.(attributes := [p, q]), c.(attributes := [q, p]))
  {
  }

  /** `closed_by?` is weaker than `Component#==`: an end with other
      attributes still closes the block. */
  lemma ClosedByIgnoresAttributes()
    ensures var block := Component("user", None, []);
      var ending := Component("user", None, [("admin", "true")]);
      ClosedBy(block, ending) && !SameComponent(block, ending)
  {
    var ending := Component("user", None, [("admin", "true")]);
    assert Get(ending.attributes, "admin") == Some("true");
    assert "admin" in Keys([]) + Keys(ending.attributes);
  }
}
