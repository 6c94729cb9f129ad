# Curly template compiler front end, in Dafny

This project models the front end of Curly, a Ruby template language for Rails. It models these parts and proves properties about them:

- **Scanner** (`Scanner`, `ScannerFacts`). The legacy tag scanner: a cursor splits a template into text, `{{ref}}` reference, `{{!…}}` comment and comment-line tokens, trying them in a fixed order.
- **Tag-body decoders**:
  - `AttributeParser` and `AttributeParserFacts` turn `key=value` lists into an ordered hash. `OrderedMaps` gives Ruby's `Hash[pairs]` semantics.
  - `ComponentScanner` and `ComponentParser` split a component tag into name, identifier and attributes.
  - `ReferenceParser` and `ReferenceParserFacts` split a reference into a name, a `.argument` or keywords, and a trailing `?`.
- **Block-stack parser** (`Parser`, `ParserFacts`). It turns a token list into a tree of text, comment, component and block nodes. It rejects mismatched and unclosed blocks, and it turns `else` into a sibling block of the opposite polarity.
- **Call emitters** (`ComponentCompiler`, `ReferenceCompiler` and their `…Facts` modules). They check a component or a reference against an abstract description of the presenter method. Then they either reject it or emit the Ruby call text.
- **Error messages** (`SyntaxError`, `IncorrectEndingError`). The snippet window, the line number and the block names that the two errors print.

How the Ruby code becomes Dafny:

- **Stateful code becomes classes.** Where Ruby walks a `StringScanner` cursor or pushes and pops a stack, the model is a class with a `pos` or `stack` field. Its methods are proved against pure functions of the input (`ensures r == AttributesFrom(input, old(pos))`), and the lemmas about those functions state what the code promises.
- **Regular expressions become functions.** Each regular expression is written out as the match that Ruby's backtracking engine returns when anchored at the cursor. This covers greedy `.*`, lazy `*?` and alternation order. A pattern is modelled as Ruby compiles it, after string escapes: `VALUE_MATCH` is written in `%{…}`, where `\1` is the character U+0001 and not a back-reference.
- **Ruby exceptions become error outcomes.** Each exception the code raises is a constructor of a `Result` failure, including the `NoMethodError`s the code runs into.

## Model

| member | source | states |
|---|---|---|
| Scanner.MatchReference | lib/curly/scanner.rb:11 | `REFERENCE_REGEX` at the cursor: a match is `{{`, at least one word-or-dot character, then `}}` |
| Scanner.LastClose | lib/curly/scanner.rb:12 | the greedy `.*\}\}` settles on the last `}}` before the bound, and there is none after it |
| Scanner.MatchComment | lib/curly/scanner.rb:12 | `COMMENT_REGEX` at the cursor: `{{!`, a body without a line feed (`.` without `/m`), then `}}` |
| Scanner.CommentLineTail | lib/curly/scanner.rb:13 | the `\}\}\s*\n` tail of a comment line: `}}`, white space only, ending in a line feed |
| Scanner.MatchCommentLine | lib/curly/scanner.rb:13 | `COMMENT_LINE_REGEX`: leading white space, a one-line comment, trailing white space and a line feed |
| Scanner.FindOpen | lib/curly/scanner.rb:93 | `scan_until(/\{\{/)`: the first `{{` at or after the cursor, or none anywhere after it |
| Scanner.ScanTokenAt | lib/curly/scanner.rb:46-52 | reference, comment line, comment, text and remainder are tried in that order; the cursor stays put exactly at a stuck `{{` |
| Scanner.ReferenceTokenAt | lib/curly/scanner.rb:58-63 | a reference token's text is the match with exactly `{{` and `}}` removed, non-empty, of word characters and dots |
| Scanner.CommentTokenAt | lib/curly/scanner.rb:81-86 | a comment token's text is the match with `{{!` and `}}` removed and holds no line feed |
| Scanner.TextTokenAt | lib/curly/scanner.rb:92-100 | a text token is the source up to, not including, the next `{{`, has no `{{`, and the cursor is left on that `{{` |
| Scanner.Scanner.constructor | lib/curly/scanner.rb:30-32 | the scanner starts at position 0 of the source |
| Scanner.Scanner.Scan | lib/curly/scanner.rb:34-38 | the `until eos?` loop returns the token list `ScanFrom` defines, or diverges where it does |
| Scanner.Scanner.ScanToken | lib/curly/scanner.rb:46-52 | returns the token and moves the cursor as `ScanTokenAt` says |
| Scanner.Scanner.ScanReference | lib/curly/scanner.rb:58-63 | on a reference match returns the inner text and moves past it, otherwise nil and the cursor stays |
| Scanner.Scanner.ScanCommentLine | lib/curly/scanner.rb:70-75 | on a comment-line match returns `value[3..-4]` of the whole match and moves past the line feed, otherwise nil |
| Scanner.Scanner.ScanComment | lib/curly/scanner.rb:81-86 | on a comment match returns the body between `{{!` and `}}` and moves past it, otherwise nil |
| Scanner.Scanner.ScanText | lib/curly/scanner.rb:92-100 | returns the text before the next `{{` and leaves the cursor on it (the `pos -= 2` rewind), nil when there is no `{{` |
| Scanner.Scanner.ScanRemainder | lib/curly/scanner.rb:105-109 | returns the rest of the source and moves to the end, or nil at the end |
| Scanner.Scan | lib/curly/scanner.rb:26-28 | `Scanner.scan(source)` is the scan from position 0 |
| ScannerFacts.NoOpenScan | lib/curly/scanner.rb:34-38 | a source without `{{` scans to exactly `[Text(source)]`, or to `[]` when it is empty |
| ScannerFacts.TokenRenders | lib/curly/scanner.rb:46-52 | every token except a comment line, written back with its delimiters, is exactly the source it consumed |
| ScannerFacts.ScanStep | lib/curly/scanner.rb:34-38 | the token list is the first token followed by the scan from where that token ended |
| ScannerFacts.ScanRoundTrip | lib/curly/scanner.rb:34-38 | a token list without comment lines, written back, is the scanned source |
| ScannerFacts.TextTokensNonEmpty | lib/curly/scanner.rb:92-109 | every text token in a finished scan is non-empty |
| ScannerFacts.DivergesOnlyWhenStuck | lib/curly/scanner.rb:36 | the loop never ends only at a `{{` that is neither a reference nor a comment, where the empty text token makes no progress |
| ScannerFacts.PlainTokenAt | lib/curly/scanner.rb:92-109 | at a character that is neither `{` nor white space the token is text up to the next `{{` or to the end |
| ScannerFacts.DocumentedExample | lib/curly/scanner.rb:21-22 | `"hello {{name}}!"` scans to text `"hello "`, reference `"name"`, text `"!"` |
| ScannerFacts.MultiLineCommentDiverges | lib/curly/scanner.rb:12 | a comment spanning lines is no comment, and the scan of `"{{!\nfoo\n}}"` never ends |
| ScannerFacts.CommentLineAsWrittenCounterexample | lib/curly/scanner.rb:73 | on `"  {{!x}}\n"` the `value[3..-4]` slice gives `"{!x"` where the comment body is `"x"` |
| ScannerFacts.CommentLineValueIsBody | lib/curly/scanner.rb:70-75 | the comment-line value is exactly what lies between `{{!` and `}}` in the match |
| ScannerFacts.CommentLineAsWrittenAgreesWithoutSpace | lib/curly/scanner.rb:73 | without white space around the comment, `value[3..-4]` is the comment body |
| OrderedMaps.FromPairs | lib/curly/attribute_parser.rb:16 | `Hash[pairs]` has no repeated key |
| OrderedMaps.FromPairsGet | lib/curly/attribute_parser.rb:16 | in `Hash[pairs]` a key maps to the last value given for it |
| OrderedMaps.FromPairsKeys | lib/curly/attribute_parser.rb:16 | the keys of `Hash[pairs]` are in the order of their first occurrence |
| OrderedMaps.FromDistinctPairs | lib/curly/attribute_parser.rb:16 | pairs with distinct keys give a hash that is exactly those pairs, in order |
| OrderedMaps.PutGet | lib/curly/attribute_parser.rb:16 | storing a key keeps keys distinct, keeps an existing key's position or appends a new one, and changes no other key |
| AttributeParser.NameMatch | lib/curly/attribute_parser.rb:42-45 | `\w+=` consumes a non-empty name and the `=`, which is dropped from the name |
| AttributeParser.UnquotedValueMatch | lib/curly/attribute_parser.rb:51-53 | `\w+` consumes a non-empty bare value |
| AttributeParser.QuotedValueMatch | lib/curly/attribute_parser.rb:55-63 | a quoted value consumes its contents plus the two quotes, which are stripped |
| AttributeParser.ValueMatch | lib/curly/attribute_parser.rb:47-49 | bare, then single-quoted, then double-quoted; a value always consumes something |
| AttributeParser.AttributeMatch | lib/curly/attribute_parser.rb:31-40 | one attribute: white space, a name and a value, consuming at least one character |
| AttributeParser.AttributeParser.constructor | lib/curly/attribute_parser.rb:10-12 | the cursor starts at 0 |
| AttributeParser.AttributeParser.Parse | lib/curly/attribute_parser.rb:14-17 | `parse` returns `Hash[scan_attributes]` as `Attributes` defines it |
| AttributeParser.AttributeParser.ScanAttributes | lib/curly/attribute_parser.rb:21-29 | the `while` loop collects the pairs `AttributesFrom` gives, in scan order, or fails |
| AttributeParser.AttributeParser.ScanAttribute | lib/curly/attribute_parser.rb:31-40 | returns nil at the end, the pair read, or `AttributeError` when a name or value is missing |
| AttributeParser.AttributeParser.SkipWhitespace | lib/curly/attribute_parser.rb:65-67 | moves the cursor over the white-space run |
| AttributeParser.AttributeParser.ScanName | lib/curly/attribute_parser.rb:42-45 | returns the name without `=` and moves past `=`, or nil and stays |
| AttributeParser.AttributeParser.ScanValue | lib/curly/attribute_parser.rb:47-49 | returns the first value alternative that matches and moves past it |
| AttributeParser.AttributeParser.ScanUnquotedValue | lib/curly/attribute_parser.rb:51-53 | returns a bare word value |
| AttributeParser.AttributeParser.ScanQuotedValue | lib/curly/attribute_parser.rb:55-63 | returns the quoted contents without the quotes |
| AttributeParser.Parse | lib/curly/attribute_parser.rb:5-8 | `AttributeParser.parse` returns `{}` for nil, otherwise what the parser object returns |
| AttributeParserFacts.BlankIsEmpty | lib/curly/attribute_parser.rb:5-6 | nil, empty and white-space-only input all give `{}` |
| AttributeParserFacts.NameWithoutValueFails | lib/curly/attribute_parser.rb:36-37 | `"foo"` and `"foo="` raise `AttributeError` with no partial result |
| AttributeParserFacts.NameIsWord | lib/curly/attribute_parser.rb:42-45 | a parsed name is a non-empty run of word characters |
| AttributeParserFacts.NamesAreWords | lib/curly/attribute_parser.rb:21-29 | every key of a successful parse is a word |
| AttributeParserFacts.ReadValue | lib/curly/attribute_parser.rb:47-63 | a value written bare, or in a quote it does not contain, is read back verbatim |
| AttributeParserFacts.ReadQuoted | lib/curly/attribute_parser.rb:55-63 | a quoted value is not bare, and may hold the other quote character (mixed quoting) |
| AttributeParserFacts.RenderRoundTrip | lib/curly/attribute_parser.rb:14-29 | pairs written with single spaces between them and any white space before the first and after the last parse back to the same pairs in scan order, and the hash is `Hash[pairs]` |
| AttributeParserFacts.DistinctRoundTrip | lib/curly/attribute_parser.rb:16 | with distinct keys the parsed hash is exactly the written pairs |
| ComponentScanner.SplitOnWhitespace | lib/curly/component_scanner.rb:6 | `split(/\s+/, 2)` gives at most two fields, and none only for the empty tag |
| ComponentScanner.SplitOnDot | lib/curly/component_scanner.rb:7 | `split(".", 2)` gives at most two fields, and none only for the empty head |
| ComponentScanner.Scan | lib/curly/component_scanner.rb:5-11 | the scan fails with `NoMethodError` exactly on the empty tag |
| ComponentScanner.SplitOnWhitespaceParts | lib/curly/component_scanner.rb:6 | one field is the whole space-free tag; two fields are a space-free head, a white-space run and a rest not starting with space |
| ComponentScanner.SplitOnWhitespaceOf | lib/curly/component_scanner.rb:6 | a head, a white-space run and a rest split back into head and rest |
| ComponentScanner.SplitOnWhitespaceAt | lib/curly/component_scanner.rb:6 | the split happens at the first white-space run |
| ComponentScanner.SplitOnWhitespaceNone | lib/curly/component_scanner.rb:6 | a tag without white space is one field |
| ComponentScanner.JoinSplitOnDot | lib/curly/component_scanner.rb:7 | joining the fields with `.` gives the head back, and the name holds no `.` |
| ComponentScanner.SplitOnDotOf | lib/curly/component_scanner.rb:7 | `name.identifier` splits at the first dot, so the identifier may contain dots |
| ComponentScanner.SplitOnDotAt | lib/curly/component_scanner.rb:7 | the split happens at the first `.` |
| ComponentScanner.SplitOnDotNone | lib/curly/component_scanner.rb:7 | a head without a dot has a nil identifier |
| ComponentScanner.PresentedHead | lib/curly/component_scanner.rb:7 | a name and identifier written as `name.identifier` split back into the same two |
| ComponentScanner.PresentSplit | lib/curly/component_scanner.rb:7 | writing back the name and identifier of any head gives the head |
| ComponentScanner.ScanRoundTrip | lib/curly/component_scanner.rb:5-11 | `name.identifier` followed by written attributes scans to exactly that name, identifier and `Hash[pairs]` |
| ComponentScanner.ScanWithRest | lib/curly/component_scanner.rb:5-11 | with a rest, the attributes are what the attribute parser makes of that rest |
| ComponentScanner.ScanHead | lib/curly/component_scanner.rb:8 | without a rest the attributes are `{}` |
| ComponentScanner.AttributeErrorPropagates | lib/curly/component_scanner.rb:8 | an `AttributeError` from the rest propagates unchanged |
| ComponentScanner.ScanFields | lib/curly/component_scanner.rb:5-11 | the result is exactly the triple of name, identifier and parsed attributes, or the attribute error |
| ComponentScanner.LeadingSpaceLosesName | lib/curly/component_scanner.rb:6 | a tag starting with white space has an empty first field, so name and identifier are nil and the whole tag is parsed as attributes |
| ComponentScanner.LeadingSpaceRejectsName | lib/curly/component_scanner.rb:6-8 | `" name.more"` fails with `AttributeError` |
| ComponentScanner.DottedIdentifier | lib/curly/component_scanner.rb:7 | `i18n.home.welcome` gives name `i18n` and identifier `home.welcome` |
| ComponentScanner.QuestionMarkStaysInIdentifier | lib/curly/component_scanner.rb:7 | `hello.world?` keeps the `?` in the identifier `world?` |
| ComponentParser.Parse | lib/curly/component_parser.rb:5-11 | the parse fails with `NoMethodError` exactly on the empty tag |
| ComponentParser.ParseIsScan | lib/curly/component_parser.rb:5-11 | `ComponentParser.parse` agrees with `ComponentScanner.scan` on every input |
| ReferenceParser.EqualsEnd | lib/curly/reference_parser.rb:63 | `\s*=` after a key consumes at least the `=` |
| ReferenceParser.Closing | lib/curly/reference_parser.rb:5 | the lazy quoted body ends at a U+0001 after which the rest of the pattern matches, the first such on the line, and stays on one line |
| ReferenceParser.BareAt | lib/curly/reference_parser.rb:6 | the bare branch reads a non-empty run of word characters and dots at the cursor, followed by `=` for a key |
| ReferenceParser.ValueAt | lib/curly/reference_parser.rb:4-7 | `VALUE_MATCH`: a quote, contents and U+0001, or a bare run, consuming something |
| ReferenceParser.SingularAt | lib/curly/reference_parser.rb:42-46 | `.` followed by a value, consuming something |
| ReferenceParser.Normalize | lib/curly/reference_parser.rb:71-73 | unescaping changes nothing in a string without a backslash |
| ReferenceParser.SpacedValueAt | lib/curly/reference_parser.rb:63-65 | `\s*` then a value, consuming something |
| ReferenceParser.KeypairAt | lib/curly/reference_parser.rb:62-69 | a key pair or a key without a value consumes something |
| ReferenceParser.KeypairsFrom | lib/curly/reference_parser.rb:48-60 | the keyword loop stops within the reference |
| ReferenceParser.ArgumentsAt | lib/curly/reference_parser.rb:32-34 | `scan_singular` or `scan_keywords`; the cursor moves exactly when there is an argument |
| ReferenceParser.Compacted | lib/curly/reference_parser.rb:23 | `compact!` keeps one slot for each of the name and the argument that is present |
| ReferenceParser.NameOf | lib/curly/reference_parser.rb:20 | the name is a non-empty prefix of the reference |
| ReferenceParser.Reference | lib/curly/reference_parser.rb:18-28 | at most two slots, the name first when there are two; a syntax error carries the whole reference and a position inside it |
| ReferenceParser.ReferenceParser.constructor | lib/curly/reference_parser.rb:13-16 | the cursor starts at 0 of the reference |
| ReferenceParser.ReferenceParser.Parse | lib/curly/reference_parser.rb:18-28 | `parse` returns what `Reference` defines |
| ReferenceParser.ReferenceParser.ScanArguments | lib/curly/reference_parser.rb:32-34 | returns and consumes the argument `ArgumentsAt` defines |
| ReferenceParser.ReferenceParser.ScanModifier | lib/curly/reference_parser.rb:36-40 | returns `"?"` and moves past it exactly when the cursor is on a `?` |
| ReferenceParser.ReferenceParser.ScanSingular | lib/curly/reference_parser.rb:42-46 | returns and consumes what `SingularAt` reads after `.`: the quoted contents or the bare run |
| ReferenceParser.ReferenceParser.ScanKeywords | lib/curly/reference_parser.rb:48-60 | after a single space returns `Hash[keypairs]` of the pairs read; otherwise nil and the cursor stays |
| ReferenceParser.ReferenceParser.ScanKeypair | lib/curly/reference_parser.rb:62-69 | returns the normalized key and value, or nil |
| ReferenceParser.ReferenceParser.ScanValue | lib/curly/reference_parser.rb:63-66 | returns a key or value after optional white space |
| ReferenceParser.Parse | lib/curly/reference_parser.rb:9-11 | `ReferenceParser.parse` returns what `Reference` defines |
| ReferenceParserFacts.NameRun | lib/curly/reference_parser.rb:20 | the name is the longest leading run of characters other than `.` and space |
| ReferenceParserFacts.BareSingular | lib/curly/reference_parser.rb:42-46 | `.` followed by a bare run gives that run as the argument |
| ReferenceParserFacts.NameAlone | lib/curly/reference_parser.rb:18-28 | a reference with only a name parses to `[name]` |
| ReferenceParserFacts.SingularRoundTrip | lib/curly/reference_parser.rb:18-28 | `name.arg` with an optional `?` parses to the name with the `?` appended, and the argument |
| ReferenceParserFacts.DayMonday | spec/reference_compiler_spec.rb:39 | `day.monday?` gives name `day?` and argument `monday` |
| ReferenceParserFacts.ClosingFirst | lib/curly/reference_parser.rb:5 | contents without U+0001 or line feeds end at the U+0001 after them |
| ReferenceParserFacts.ClosingNone | lib/curly/reference_parser.rb:5 | with no U+0001 after the quote the quoted branch never closes |
| ReferenceParserFacts.QuotedClosesAtMarker | lib/curly/reference_parser.rb:4-7 | a quote, contents without U+0001 or line feeds and a U+0001 are read as a value whose text is the contents, quotes and backslashes included |
| ReferenceParserFacts.QuoteWithoutMarker | lib/curly/reference_parser.rb:4-7 | a quote with no U+0001 after it starts no value, as key or as value |
| ReferenceParserFacts.QuotedArgumentFails | lib/curly/reference_parser.rb:18-46 | `name.` followed by a quoted argument, in a reference without U+0001, raises a syntax error at the `.` |
| ReferenceParserFacts.QuotedSingularAsWritten | lib/curly/reference_parser.rb:4-7 | `a.'b'` raises a syntax error at position 1, where the intended pattern reads `b` |
| ReferenceParserFacts.IntendedClosing | lib/curly/reference_parser.rb:5 | as intended, the quoted body ends at the same quote that opened it, after which the rest of the pattern matches, and stays on one line |
| ReferenceParserFacts.IntendedValueAt | lib/curly/reference_parser.rb:4-7 | the pattern as intended: a value opened by a quote closes at the same quote |
| ReferenceParserFacts.IntendedClosingReached | lib/curly/reference_parser.rb:5 | as intended, a matching quote after which the pattern can go on, with no line feed before it, closes the quoted value |
| ReferenceParserFacts.IntendedClosingEscaped | lib/curly/reference_parser.rb:5 | as intended, the escapes `\"` and `\'` do not close a quoted value |
| ReferenceParserFacts.IntendedQuotedRoundTrip | lib/curly/reference_parser.rb:4-7 | as intended, a double-quoted value with its quotes escaped is read to its closing quote, and `normalize` gives back the string |
| ReferenceParserFacts.NormalizeEscape | lib/curly/reference_parser.rb:71-73 | unescaping a string whose quotes were escaped gives the original string |
| ReferenceParserFacts.WrittenKeywordsFrom | lib/curly/reference_parser.rb:48-69 | space-separated `key=value` pairs with bare keys and values are read back as exactly those pairs, to the end of the reference |
| ReferenceParserFacts.KeywordsRoundTrip | lib/curly/reference_parser.rb:18-28 | a name followed by written bare keywords parses to the name and `Hash[pairs]` |
| ReferenceParserFacts.WordWithoutValue | lib/curly/reference_parser.rb:75-77 | `name word` raises a syntax error at the word, carrying the whole reference |
| ReferenceParserFacts.ModifierWithoutName | lib/curly/reference_parser.rb:25 | a reference starting with `" ?"` appends `?` to the keyword hash and fails with `NoMethodError` |
| ReferenceParserFacts.SyntaxErrorHasMessage | lib/curly/reference_parser.rb:75-77 | every syntax error the parser raises can render its message |
| ReferenceParserFacts.SeasonSummer | spec/reference_compiler_spec.rb:44 | `season? name=summer` gives name `season?` and the hash `{name: summer}` |
| Parser.Reversed | lib/curly/parser.rb:148 | the reversed kind of a conditional block is the other conditional kind |
| Parser.Append | lib/curly/parser.rb:191-193 | `tree << node` adds the node to the top frame's nodes; nothing else on the stack changes |
| Parser.Close | lib/curly/parser.rb:161-166 | popping a block leaves it, with its nodes, as the last node of its parent |
| Parser.Step | lib/curly/parser.rb:123-189 | each `parse_*` handler keeps the stack a root with blocks above it |
| Parser.Run | lib/curly/parser.rb:109-111 | handling the tokens in order keeps the stack a root with blocks above it |
| Parser.Parser.constructor | lib/curly/parser.rb:102-106 | the stack starts as just the root |
| Parser.Parser.Parse | lib/curly/parser.rb:108-119 | the `each` loop and the final check return what `ParseTokens` defines |
| Parser.Parser.Dispatch | lib/curly/parser.rb:109-111 | `send("parse_#{token}")` performs one `Step` |
| Parser.Parser.ParseText | lib/curly/parser.rb:123-125 | appends a text node to the top of the stack |
| Parser.Parser.ParseComment | lib/curly/parser.rb:187-189 | appends a comment node to the top of the stack |
| Parser.Parser.ParseComponent | lib/curly/parser.rb:127-129 | appends a component node to the top of the stack |
| Parser.Parser.ParseBlock | lib/curly/parser.rb:131-137 | pushes an empty block of the given kind |
| Parser.Parser.ParseElseBlockStart | lib/curly/parser.rb:139-151 | closes a conditional block and opens the opposite one, or fails as `Step` says |
| Parser.Parser.ParseConditionalBlockEnd | lib/curly/parser.rb:168-175 | closes a conditional block, or fails as `Step` says |
| Parser.Parser.ParseBlockEnd | lib/curly/parser.rb:177-185 | closes the top block if the end matches it, or fails as `Step` says |
| Parser.Parser.PopBlock | lib/curly/parser.rb:161-166 | pops the top block into its parent |
| Parser.Parser.AppendToTree | lib/curly/parser.rb:191-193 | `tree << node` |
| Parser.Parse | lib/curly/parser.rb:98-100 | `Parser.parse(tokens)` returns what `ParseTokens` defines |
| ParserFacts.RunConcat | lib/curly/parser.rb:109-111 | tokens are consumed strictly left to right: running `a + b` runs `a`, then `b` from where `a` left the stack |
| ParserFacts.RunFlatten | lib/curly/parser.rb:123-189 | the tokens of complete nodes add exactly those nodes to the top of the stack |
| ParserFacts.RunFlattenNode | lib/curly/parser.rb:123-189 | the tokens of one node, a block written as start, contents and end, add exactly that node |
| ParserFacts.CloseOpened | lib/curly/parser.rb:161-166 | closing an opened block appends it, with its nodes, to its parent |
| ParserFacts.RoundTrip | lib/curly/parser.rb:108-119 | the tokens of any tree parse back to that tree |
| ParserFacts.RunDepth | lib/curly/parser.rb:161-185 | after a run the stack has grown by the block starts minus the block ends |
| ParserFacts.Balanced | lib/curly/parser.rb:108-119 | a successful parse has as many ends as starts, and no prefix has more ends than starts |
| ParserFacts.EndAtRoot | lib/curly/parser.rb:66-68 | with only the root open, a block end gives `IncorrectEnding`, and `else` or a conditional end gives `NoMethodError` |
| ParserFacts.StartPushes | lib/curly/parser.rb:161-166 | a block start pushes an empty block of its kind |
| ParserFacts.OpenBlock | lib/curly/parser.rb:161-166 | after a block start and its contents, the block is on top holding those contents |
| ParserFacts.Incomplete | lib/curly/parser.rb:113-116 | a block left open fails with `IncompleteBlockError` naming it |
| ParserFacts.BlockEndMatches | lib/curly/parser.rb:177-185 | an end closes the block exactly when name and identifier match, otherwise `IncorrectEnding` with both |
| ParserFacts.ConditionalEndMatches | lib/curly/parser.rb:168-175 | a conditional end closes exactly a conditional or inverse-conditional block, otherwise `IncorrectEnding` |
| ParserFacts.ElseStep | lib/curly/parser.rb:139-151 | `else` closes a conditional block and pushes the opposite kind with the same component, otherwise `Curly::Error` |
| ParserFacts.ElseFlipsPolarity | lib/curly/parser.rb:139-151 | `if … else … end` gives two sibling blocks of opposite polarity with the same component; `else` in another kind of block fails |
| ParserFacts.SameComponentEquivalence | lib/curly/parser.rb:16-20 | `Component#==` is an equivalence and implies `closed_by?` |
| ParserFacts.AttributeOrderIgnored | lib/curly/parser.rb:16-20 | `Component#==` compares attribute hashes without regard to order |
| ParserFacts.ClosedByIgnoresAttributes | lib/curly/parser.rb:78-81 | `closed_by?` ignores attributes: a block is closed by an end that `==` says is different |
| ComponentCompiler.ParamTypes | lib/curly/component_compiler.rb:102-104 | the types of the parameters, in order |
| ComponentCompiler.Positional | lib/curly/component_compiler.rb:66 | the `:req` and `:opt` types among the parameters |
| ComponentCompiler.AttributeNames | lib/curly/component_compiler.rb:106-110 | a name is allowed exactly when it is a `:key` or `:keyreq` parameter |
| ComponentCompiler.RequiredAttributeNames | lib/curly/component_compiler.rb:112-116 | a name is required exactly when it is a `:keyreq` parameter |
| ComponentCompiler.FirstMissing | lib/curly/component_compiler.rb:85-95 | the first element missing from a list, or none exactly when all are present |
| ComponentCompiler.FirstMissingAt | lib/curly/component_compiler.rb:85-95 | the first missing element is the one the `each` loop raises on |
| ComponentCompiler.KeywordArguments | lib/curly/component_compiler.rb:79-81 | one `name: value` entry per attribute |
| ComponentCompiler.KeywordArgumentString | lib/curly/component_compiler.rb:78-82 | the keyword string is empty exactly when there are no attributes |
| ComponentCompiler.ComponentCompiler.constructor | lib/curly/component_compiler.rb:9-11 | keeps the presenter and the component |
| ComponentCompiler.ComponentCompiler.Compile | lib/curly/component_compiler.rb:13-26 | returns the call text or error `CompileComponent` defines |
| ComponentCompiler.ComponentCompiler.ValidateAttributes | lib/curly/component_compiler.rb:84-96 | the two loops raise the first disallowed attribute, then the first missing required one |
| ComponentCompiler.ComponentCompiler.AppendPositionalArgument | lib/curly/component_compiler.rb:42-56 | appends the identifier literal, nothing, or fails |
| ComponentCompiler.ComponentCompiler.AppendKeywordArguments | lib/curly/component_compiler.rb:58-63 | appends `, ` only after an identifier and only before a non-empty keyword string |
| ComponentCompiler.Compile | lib/curly/component_compiler.rb:5-7 | `ComponentCompiler.compile` returns what `CompileComponent` defines |
| ComponentCompilerFacts.AttributesAccepted | lib/curly/component_compiler.rb:84-96 | validation passes exactly when every attribute is a declared keyword and every `:keyreq` is present |
| ComponentCompilerFacts.NoRequiredAttributes | lib/curly/component_compiler.rb:112-116 | without `:keyreq` parameters nothing is required |
| ComponentCompilerFacts.CompileSucceeds | lib/curly/component_compiler.rb:13-26 | compiles exactly when the component is available, its attributes validate, a `:req` has an identifier, and a method with neither `:req` nor `:opt` gets none |
| ComponentCompilerFacts.CompiledCall | lib/curly/component_compiler.rb:20-25 | the output is `presenter.name(`, the identifier literal if any, the `k: v` pairs in attribute order, joined by `, `, then `)` |
| ComponentCompilerFacts.InvalidSignatureShadowed | lib/curly/component_compiler.rb:43-52 | whenever `invalid_signature?` holds, an earlier branch (`:req` or `:opt`) is taken |
| ComponentCompilerFacts.NeverInvalidSignature | lib/curly/component_compiler.rb:51-52 | the "not a valid component method" error is never raised |
| ComponentCompilerFacts.TwoPositionalCompiles | lib/curly/component_compiler.rb:65-68 | `invalid(x, y)` with identifier `a` compiles to `presenter.invalid("a")` |
| ComponentCompilerFacts.CheckedRejectsInvalidSignature | lib/curly/component_compiler.rb:65-68 | with the signature check first, a method with two positional parameters is rejected |
| ComponentCompilerFacts.CheckedAgrees | lib/curly/component_compiler.rb:42-56 | with a valid signature the corrected compiler agrees with the original |
| ComponentCompilerFacts.IdentifierAndAttribute | spec/component_compiler_spec.rb:71-72 | `i18n.hello fallback=yolo` compiles to `presenter.i18n("hello", fallback: "yolo")` |
| ComponentCompilerFacts.MissingRequiredAttribute | spec/component_compiler_spec.rb:83-84 | `widget` without `size=` fails with the missing-attribute error |
| ComponentCompilerFacts.IdentifierNotTaken | spec/component_compiler_spec.rb:87-88 | `title.rugby` fails because `title` takes no identifier |
| ReferenceCompiler.ReferenceCompiler.constructor | lib/curly/reference_compiler.rb:5-7 | keeps the presenter |
| ReferenceCompiler.ReferenceCompiler.Compile | lib/curly/reference_compiler.rb:9-27 | returns the call text or error `CompileReference` defines |
| ReferenceCompilerFacts.CompileSucceeds | lib/curly/reference_compiler.rb:9-27 | compiles exactly when the method is available and an argument is given exactly at arity 1, to `presenter.m` or `presenter.m(lit)` |
| ReferenceCompilerFacts.ErrorNamesMethod | lib/curly/reference_compiler.rb:10-12 | availability is checked first, and every error names the method |
| ReferenceCompilerFacts.CallPrefix | lib/curly/reference_compiler.rb:14 | the code always starts with `presenter.` and the method name |
| SyntaxError.WindowStart | lib/curly/syntax_error.rb:10 | `max(position - 8, 0)` |
| SyntaxError.WindowStop | lib/curly/syntax_error.rb:11 | `min(position + 8, length)` |
| SyntaxError.InclusiveSlice | lib/curly/syntax_error.rb:12 | the inclusive slice is nil past the end, otherwise the characters from start to stop that exist |
| SyntaxError.Line | lib/curly/syntax_error.rb:13 | the line is at least 1 and at most 1 plus the line feeds in the source |
| SyntaxError.SnippetWindow | lib/curly/syntax_error.rb:10-12 | the snippet is the stripped text from 8 before to 8 after the position, at most 17 characters, cut at the source's ends |
| SyntaxError.MessageDefined | lib/curly/syntax_error.rb:9-16 | a message exists exactly when the position is at most 8 past the end |
| SyntaxError.LineCountsThroughPosition | lib/curly/syntax_error.rb:13 | the line counts the line feeds before the position and the one at it |
| SyntaxError.LineMonotone | lib/curly/syntax_error.rb:13 | a later position is never on an earlier line |
| SyntaxError.SingleLine | lib/curly/syntax_error.rb:13 | a source without line feeds is on line 1 |
| SyntaxError.DocumentedExample | spec/syntax_error_spec.rb:3-10 | position 13 of `"I am a very bad error that has snuck in"` gives snippet `a very bad error` on line 1, and the whole message ``invalid syntax near `a very bad error` on line 1 in template:``, a blank line, the source and a line feed |
| IncorrectEndingError.Compact | lib/curly/incorrect_ending_error.rb:22 | `compact` keeps exactly the non-nil parts |
| IncorrectEndingError.PresentBlock | lib/curly/incorrect_ending_error.rb:21-23 | `name.identifier`, or whichever part is present, or empty |
| IncorrectEndingError.MessageDeterminesBlocks | lib/curly/incorrect_ending_error.rb:3-9 | the message determines both block names, so the constructor's (actual, expected) order is never confused |
| IncorrectEndingError.NamesWithoutIdentifier | spec/incorrect_ending_error_spec.rb:4-7 | `(["bar", nil], ["foo", nil])` gives ``expected `{{/foo}}`, got `{{/bar}}` `` |
| IncorrectEndingError.NamesWithIdentifier | spec/incorrect_ending_error_spec.rb:9-12 | `(["foo", "y"], ["foo", "x"])` gives ``expected `{{/foo.x}}`, got `{{/foo.y}}` `` |

## Left out

- lib/curly/compiler.rb is not part of this model. It builds Ruby source text with `gsub` over `String#inspect` and then `eval`s it.
- lib/curly/lexer.rb and lib/curly/hbs_parser.rb are not part of this model. They are rule tables for an external lexer and parser generator. The parser here takes its token list as input.
- Presenter reflection (`component_available?`, `method_available?`, `instance_method(...).parameters` and `arity`) is not modelled. Each is a function parameter of the `Presenter` datatypes.
- Ruby's `inspect`, which renders identifiers and values as Ruby literals in the emitted code, is the uninterpreted parameter `lit`. The emitted code is never executed.
- Rails integration, caching, generators, configuration and the message-only error classes are not part of this model. This covers template_handler.rb, presenter.rb, delegate_presenter.rb, railtie.rb and similar files.
- Unicode is not modelled. Ruby's `\w` is ASCII, as modelled. `[[:word:]]` in `VALUE_MATCH` also matches non-ASCII letters; here it is modelled as ASCII.
- Ruby's exceptions are error values, not exception objects.
- ReferenceParserFacts.KeywordsRoundTrip: stated for bare keys and values only. A quoted value in the compiled pattern closes only at U+0001, so quoted values are not read back (see Findings).
- ReferenceParserFacts.WrittenKeywordsFrom: stated for bare keys and values only, for the same reason.
- Parser.Step: `parse_conditional_block_end` and `parse_block_end` raise `IncorrectEndingError` with one message string, lib/curly/parser.rb:172 and 182. Its `initialize` takes two arguments, so Ruby would raise `ArgumentError` there. The model returns the abstract outcome `IncorrectEnding(block, ending)`.
- Parser.Step: the `NoMethodError` from asking the root for its `type` becomes `RootHasNoType`. This happens on `else` or a conditional end with only the root open.
- Parser.Step: a token type without a `parse_*` handler is not representable in the `Token` datatype. An example is the scanner's `:comment_line`; in Ruby it raises `NoMethodError`.
- Parser.Close: a block is appended to its parent when it is closed, not when it is opened. While a block is open nothing else is added to its parent, so every successful parse builds the same tree. The aliasing of the Ruby block object between parent and stack is not modelled.
- `Block#==` (lib/curly/parser.rb:91-95) is not modelled separately. Dafny's structural equality on `Node` is the same comparison, given `Component#==` as `SameComponent`.
- The memoisation of `@params`, `@attribute_names`, `@required_attribute_names` and `@keyword_argument_string` is not modelled. Each is recomputed, which gives the same values.
- Scanner.Scanner.Scan: the loop that never ends (a `{{` that is neither a reference nor a comment) is the outcome `Diverges(position)`, not non-termination.
- Some specs describe a newer version of the code: block tokens and `{{{` in the scanner, an inverse block rejected when closed by a conditional end, the `type:` keyword and `**options`. The model follows the library code, where these do not exist.
- SyntaxError.Line and SyntaxError.Message: the message for a position more than eight characters past the end would be a `NoMethodError` on nil. It is modelled as `None`. The reference parser never reports such a position.

## Findings

The model follows the code as written. Each corrected member stands beside it and states the intended behaviour.

| source | as written | input that shows it | evidently intended | confidence | as-written member | corrected member |
|---|---|---|---|---|---|---|
| lib/curly/scanner.rb:73 | `value[3..-4]` cuts three characters from each end of the whole comment-line match, which includes the white space around the comment | `"  {{!x}}\n"` gives the comment-line value `"{!x"` | the comment body `"x"`, "the comment excluding `{{!` and `}}`" | not executed | ScannerFacts.CommentLineAsWrittenCounterexample | ScannerFacts.CommentLineValueIsBody |
| lib/curly/reference_parser.rb:4-7 | `VALUE_MATCH` is a `%{…}` string, so `\1` becomes U+0001 and `\\"` becomes `\"`: a quoted value closes only at U+0001, not at its closing quote | `a.'b'` raises a syntax error at position 1 | a value opened by `"` or `'` closes at the same quote, with `\"` and `\'` escaped inside | not executed | ReferenceParserFacts.QuotedSingularAsWritten | ReferenceParserFacts.IntendedQuotedRoundTrip |
| lib/curly/component_compiler.rb:43-52 | `invalid_signature?` is tested only after `required_identifier?` and `optional_identifier?` fail, when no positional parameter exists, so it never holds | a component `invalid.a` for `def invalid(x, y)` compiles to `presenter.invalid("a")` | a method with more than one positional parameter is rejected as "not a valid component method" | not executed | ComponentCompilerFacts.TwoPositionalCompiles | ComponentCompilerFacts.CheckedRejectsInvalidSignature |
