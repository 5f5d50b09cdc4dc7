# Polydat, verified

A Dafny model of six components of polydat, with proofs of what each one is
for. `dafny verify dfyconfig.toml` checks all of it.

| component | files |
|---|---|
| The resource-scope join: scopes form a graph of write-once parent links, joined without locks | `Graphs`, `JoinProtocol`, `JoinSafety`, `ResourceScope` |
| The expression language: lexer, Pratt parser, printer, string interpolation | `Ast`, `PortTypes`, `Tokens`, `Lexer`, `NumberText`, `Pratt`, `Parser`, `TokenParser`, `Precedence`, `SourceForms`, `IfForms`, `Printer`, `PrintedText`, `RoundTrip`, `Interpolation`, `Nesting`, `Reprint` |
| The two evaluation forms the node macro emits: one value per wire, and a flat slot buffer | `Words`, `Registers`, `Carriers`, `CarrierNumbers`, `CompiledKit`, `Scratch`, `SlotKit` |
| The arithmetic calendar and the mixed-radix decomposition | `Calendar`, `MixedRadix` |
| The lossless order of numeric types | `NumericDomains` |
| Tile templates: the commas of structural objects, and delimiters that escape by doubling | `TileStructural`, `TileTemplate` |

**The join** is a step machine. Any number of threads run `join` on any number
of scopes; each step is one read or write of a shared slot. A link carries the
clock at which it was set, and a call remembers where its first walk ended;
both record history and no step reads them to decide. The invariant behind
"the last link a cycle needs sees the whole cycle" is this: if older live links
from `P` lead back to `S`, the join that set `S -> P` is still walking, and its
cursor is on that path. The sequential `Scope` class has the same slots, with
`reaches`, `join` and `lookup` as loops.

**The expression language** is modelled character by character. `Lexer`,
`Parser` and `Interpolation` hold specification functions and, beside them, the
imperative scanners; `TokenParser` is the parser object that advances a
position, each method proved against its function. `Pratt` states, for any
table of binding powers, which tree a chain of operators has; `Precedence`
lists the language's levels and shows the parser builds the tree they ask for.
`NumberText`, `SourceForms`, `IfForms` and `Nesting` say what a text means
without naming the functions that read it: digits and suffixes, comments,
escapes, words, operators, field chains, placeholders, conditional blocks, and
where brackets and quotes end. `PrintedText` gives the tokens a printed
expression must lex to, `RoundTrip` parses them, and `Reprint` shows that
everything the parser can return is within those results.

**The evaluation forms** take a signature as a list of parameter kinds and the
body as an unknown function. `Carriers` has the 22 carrier types with their
interpreter side (`Extract`, `Inject`) and their slot side (`Read`, `Write`),
and `CarrierNumbers` says which numbers they are: counts, bits and signs in a
table, the bits of each number in the slots, the spelling of the port's keyword.
`CompiledKit` runs both forms over scalars; `SlotKit` and `Scratch` are the
general kit, whose by-reference results live in step-owned scratch that may
move when it is refilled. Loops that the macro runs while it generates code,
with their running offsets, are loops here too.

## Where the code and its promise part

- A cycle of live links can stand while the joins that closed it have not
  finished (`JoinSafety.CycleCanStandBriefly`). So the claim that the severing
  store keeps the chains acyclic (crates/polydat-core/src/resource.rs:177-180)
  holds of states without an unsettled join, and is proved of those.
- The scalar kit hands a `u64` variadic the whole buffer, where the
  interpreter hands it one value per wire, or half of the wires when there are
  two variadics. The forms agree exactly when there is no variadic, or no slot,
  or one variadic beside wires that all ride as a `u64`
  (`CompiledKit.U64FormsAgree`).
- The general kit hands its variadics the wires that the fixed ones leave, the
  interpreter all of them. The forms agree exactly on signatures that do not mix
  fixed wires with variadic ones (`SlotKit.FormsAgreeExactly`,
  `SlotKit.MixedFormsDiffer`).
- A string literal with a carriage return does not survive printing and
  parsing; the round trip holds exactly without one
  (`Reprint.ReprintedParsesTheSame`, `Reprint.CarriageReturnIsLost`).
- The block `if <cond> { … } else { … }` is documented as another spelling of the
  call `if(…)` for every condition
  (crates/polydat/docs/design/polydat_grammar.md:594-602), but `if (` always
  begins a call (crates/polydat-grammar/src/parser.rs:1094-1102). The block means
  what the call means exactly when its first condition does not begin with a
  parenthesis (`IfForms.BlockIsCall`).
- Rendering a template and parsing it back needs an opening delimiter with no
  border, that is, no proper beginning that is also its end. `${` has none;
  `{{` has one, and then a static that ends in `{` before a hole is taken apart.
  Where the sigil does not begin with a character of the delimiter, every list
  of pieces comes back exactly for the delimiters without a border
  (`TileTemplate.RoundTripsExactlyWithoutBorder`).
- A hole is trimmed when it is parsed and written without the white space, so a
  static before it can begin a directive that was none in the text it came from
  (`TileTemplate.TrimmedHoleBeginsDirective`). What a text parses to comes back
  exactly where none does, and none does unless the delimiter stands inside the
  sigil and keyword of a directive (`TileTemplate.ParsedReparses`).
- The commas of a structural object are right, whatever its directives render,
  exactly when the object is one group that is not an `@for` over no members, or
  has no empty directive body and either a static member or an `@if` with an
  `@else` as its last group (`TileStructural.CommasAreRight`).

## Model

| member | source | states |
|---|---|---|
| Graphs.AcyclicIffWalksEnd | crates/polydat-core/src/resource.rs:191-202 | Over any finite set of links, there is no cycle if and only if every walk along the links ends. |
| Graphs.AddEdgeAcyclic | crates/polydat-core/src/resource.rs:166-188 | A link from a scope to one that does not reach it keeps an acyclic graph acyclic. |
| JoinSafety.RunInv | crates/polydat-core/src/resource.rs:166-202 | Every state of every run keeps the invariant: stamps are distinct, every walk's cursor is on a path of links older than its call's own, and an old path back to the scope that set a link is watched by that call. |
| JoinSafety.RunExtends | crates/polydat-core/src/resource.rs:119-144 | Over any run no link is retargeted or revived and no accessor is replaced. |
| JoinSafety.CycleHasUnsettledJoin | crates/polydat-core/src/resource.rs:166-202 | In every reachable state each cycle of live links goes through a scope whose own join has not finished its second walk or severing store. |
| JoinSafety.SettledIsAcyclic | crates/polydat-core/src/resource.rs:166-202 | When no join is between setting and settling its link, the live links are acyclic and every walk ends. |
| JoinSafety.CycleErrorMeansRace | crates/polydat-core/src/resource.rs:166-188 | A join that returned the cycle error severed its own link, and its first walk had ended at another scope whose link was absent then and was set afterwards. |
| JoinSafety.SettledLinkStays | crates/polydat-core/src/resource.rs:166-188 | A link whose join has settled with the link live stays live over every run that follows. |
| JoinSafety.FirstWalkAlone | crates/polydat-core/src/resource.rs:191-202 | The check before the link, run alone, stops at reaching or at the end of the chain, and decides reachability in the live graph. |
| JoinSafety.SecondWalkAlone | crates/polydat-core/src/resource.rs:177-187 | The second walk, run alone where the parent does not reach the scope, lets the call return without error. |
| JoinSafety.JoinAlone | crates/polydat-core/src/resource.rs:166-188 | A join run alone from any state where every call has finished returns without error and leaves exactly the documented graph: unchanged for an installed, joined or reached scope, one more link otherwise. |
| JoinSafety.CycleCanStandBriefly | crates/polydat-core/src/resource.rs:174-187 | Some run reaches a state with a cycle of live links. |
| ResourceScopes.Scope.Install | crates/polydat-core/src/resource.rs:119-129 | The first accessor stays; a second call changes nothing and hands back the accessor it was given. |
| ResourceScopes.Scope.ReachesScope | crates/polydat-core/src/resource.rs:191-202 | The loop ends and decides reachability in the live graph. |
| ResourceScopes.Scope.Join | crates/polydat-core/src/resource.rs:166-188 | From an acyclic graph the join succeeds, and the new live graph is the documented one, acyclic again. |
| ResourceScopes.Scope.Settle | crates/polydat-core/src/resource.rs:177-187 | The link is severed, and the error returned, exactly when the parent reaches the scope; no other link changes. |
| ResourceScopes.Scope.Lookup | crates/polydat-core/src/resource.rs:204-219 | The answer is that of the nearest scope up the chain with an accessor, or none when no scope on the chain has one. |
| Pratt.ParseFlattens | crates/polydat-grammar/src/parser.rs:870-889 | For any binding powers, the tree and the operators left over flatten to the input. |
| Pratt.ParseIsWellPlaced | crates/polydat-grammar/src/parser.rs:870-889 | For any binding powers, each operator on the right spine of a left child has its right power above the parent's left power, each on the left spine of a right child has its left power at least the parent's right power, and the loop stops only at a weaker operator or the end. |
| Pratt.ParseOfFlatten | crates/polydat-grammar/src/parser.rs:870-889 | Parsing the flattening of a well-placed tree rebuilds the tree. |
| Pratt.OneWellPlacedTree | crates/polydat-grammar/src/parser.rs:870-939 | The loop takes the whole chain, and its tree is the only one over the chain that is well placed. |
| Precedence.ParseIsTheWellPlacedTree | crates/polydat-grammar/src/parser.rs:843-939 | Over tokens, the parser accepts exactly the chains of operands and operators, takes all of the chain, and returns the only tree over it that groups by the levels: of two operators facing each other over an operand, the second stands below the first exactly when it is on a higher level or both are `**`. |
| Precedence.TwoOperators | crates/polydat-grammar/src/parser.rs:846-939 | For any two operators between any three operands: the second takes the middle operand exactly when it stands on a higher of the eleven listed levels or both are `**`, and otherwise the first does. |
| SourceForms.TextGroupsByLevel | crates/polydat-grammar/src/parser.rs:846-939 | The same of source text: three printed operands and two operators as they are written lex, and parse to the tree the levels ask for. |
| SourceForms.OperatorReads | crates/polydat-grammar/src/parser.rs:892-915 | Each operator as it is written is one token before a space, which the parser takes for that operator. |
| Precedence.ChainParses | crates/polydat-grammar/src/parser.rs:870-889 | Every readable chain is parsed whole, to the tree the Pratt parse of its operands and operators gives. |
| Lexer.Tokenize | crates/polydat-grammar/src/lexer.rs:158-842 | The main loop over a position, pushing tokens, computes the lexing of the text piece by piece. |
| NumberText.LexHex | crates/polydat-grammar/src/lexer.rs:308-334 | For every number, `0x` and its hexadecimal digits, in either case and with any leading zeros, lex to it before a character that is no such digit; without a digit, or past 64 bits, the text fails. |
| NumberText.LexDecimal | crates/polydat-grammar/src/lexer.rs:336-476 | The same of decimal digits, where nothing follows that would continue the number. |
| NumberText.LexSuffixed | crates/polydat-grammar/src/lexer.rs:1087-1129 | A number with a suffix `K` to `P`, or `Ki` to `Pi`, lexes to the number times that power of 1000 or of 1024, and fails exactly when the product is past 64 bits. |
| NumberText.LexDivided | crates/polydat-grammar/src/lexer.rs:384-476 | A number with a dividing suffix lexes to a float of that spelling. |
| SourceForms.ReservedWords | crates/polydat-grammar/src/lexer.rs:783-826 | Each reserved word lexes to its own token and every other word to its name. |
| SourceForms.BlankIsSkipped | crates/polydat-grammar/src/lexer.rs:170-185 | White space before a text does not change its tokens. |
| SourceForms.LineCommentIsSkipped | crates/polydat-grammar/src/lexer.rs:187-203 | Nor does a comment up to the end of its line. |
| SourceForms.BlockCommentIsSkipped | crates/polydat-grammar/src/lexer.rs:204-222 | Nor does a block comment up to its first close. |
| SourceForms.EscapeReads | crates/polydat-grammar/src/lexer.rs:740-774 | Which character each escape of a string stands for; an unknown one stands for itself with its backslash. |
| Lexer.ScanQuoted | crates/polydat-grammar/src/lexer.rs:740-774 | The string loop returns the unescaped contents and the position after the close, or nothing when there is no close. |
| Printer.EscapeString | crates/polydat-grammar/src/pprint.rs:261-274 | The loop over characters builds the escaped text. |
| PrintedText.LexPrinted | crates/polydat-grammar/src/pprint.rs:127-147 | The characters of a printed expression lex to its intended tokens, whatever follows at a word boundary: no two tokens merge and none splits. |
| PrintedText.LexOfPrint | crates/polydat-grammar/src/pprint.rs:127-147 | A printed expression alone lexes to its intended tokens and the end of the stream. |
| PrintedText.LexInteger | crates/polydat-grammar/src/lexer.rs:304-476 | A printed integer lexes back to its value, unless something follows that would continue it. |
| PrintedText.LexString | crates/polydat-grammar/src/lexer.rs:740-780 | A printed string lexes to one literal, whose text is the original with each carriage return respelled. |
| PrintedText.RespellKeeps | crates/polydat-grammar/src/pprint.rs:261-274 | A string comes back unchanged if and only if it has no carriage return. |
| RoundTrip.ParseAtomPrinted | crates/polydat-grammar/src/parser.rs:1051-1156 | The printed tokens of any expression parse as one atom before any token that does not continue one, and leave the rest. |
| RoundTrip.ParseExprPrinted | crates/polydat-grammar/src/parser.rs:870-889 | The printed tokens parse as one expression, at every minimum power, before a token that ends one. |
| RoundTrip.KeywordRoundTrip | crates/polydat-grammar/src/port_type.rs:427-518 | Every port type is the one its keyword names. |
| RoundTrip.PrintedParses | crates/polydat-grammar/src/parser.rs:186-199 | Printing, lexing and parsing an expression keeps everything but the respelling of its string literals: casts, unary operators, named arguments, soft keywords, field chains and calls. |
| Reprint.ReprintedParsesTheSame | crates/polydat-grammar/src/parser.rs:186-199 | For every text that parses to an expression without floats, the printed expression lexes and parses, and parses to the same expression if and only if no string literal has a carriage return. |
| Reprint.ExprReturns | crates/polydat-grammar/src/parser.rs:843-889 | Whatever the parser returns from lexed tokens is printable: flat names, keyword-free names, string literals and calls as the desugarings build them. |
| Reprint.RereadKeeps | crates/polydat-grammar/src/pprint.rs:127-147 | An expression the parser can return reads back as itself if and only if no string literal has a carriage return. |
| Reprint.InterpretReturns | crates/polydat-grammar/src/parser.rs:1192-1239 | What a string literal desugars to is again an expression of that kind, whose format string is left alone. |
| Reprint.FormatIsFixed | crates/polydat-grammar/src/parser.rs:1192-1239 | The format string built from an interpolated literal is a fixed point: interpreted again, it stays a plain literal. |
| Reprint.CarriageReturnIsLost | crates/polydat-grammar/src/pprint.rs:261-274 | A literal with a carriage return parses, and its printed form parses to something else. |
| Interpolation.EndIsFirstClose | crates/polydat-grammar/src/parser.rs:1303-1339 | A placeholder ends at its first unquoted brace of depth zero, and is unterminated exactly when there is none. |
| Interpolation.FindPlaceholderEnd | crates/polydat-grammar/src/parser.rs:1303-1339 | The index loop finds that brace. |
| Nesting.PlaceholderEndsOutside | crates/polydat-grammar/src/parser.rs:1303-1339 | A placeholder of letters, strings and nested bracket pairs ends at the brace behind them, whatever the strings and brackets hold. |
| Interpolation.ScanSegments | crates/polydat-grammar/src/parser.rs:1260-1297 | The loop over indices collects the segments of the string. |
| Interpolation.SegmentsLoseNothing | crates/polydat-grammar/src/parser.rs:1260-1297 | Rejoining the literals and the braced bodies gives the string back. |
| Interpolation.FormatStays | crates/polydat-grammar/src/parser.rs:1192-1239 | A format string scanned again fails to scan or meets an empty placeholder. |
| TokenParsers.TokenParser.ParseExprBp | crates/polydat-grammar/src/parser.rs:870-889 | The loop over a running left operand returns the expression of the specification and stands at the tokens it leaves. |
| TokenParsers.TokenParser.ParsePostfixAs | crates/polydat-grammar/src/parser.rs:944-958 | The loop over `as` casts does what its specification says. |
| TokenParsers.TokenParser.ParseAtom | crates/polydat-grammar/src/parser.rs:1051-1156 | The atom dispatch does what its specification says, with the same position left. |
| TokenParsers.TokenParser.ParseIfBlock | crates/polydat-grammar/src/parser.rs:983-1049 | A block `if` becomes the three-argument call the specification gives, or the parse fails, with the same position left. |
| IfForms.BlockIsCall | crates/polydat-grammar/src/parser.rs:983-1102 | For any conditions and values that are expressions, with any number of `else if` arms: the tokens of the block parse to the same expression, and leave the same rest, as the tokens of the nested call `if(c, a, if(d, b, e))`, if and only if the first condition does not begin with a parenthesis; and the call form always parses. |
| TokenParsers.TokenParser.ParseFieldChain | crates/polydat-grammar/src/parser.rs:1358-1372 | The loop over dots flattens all but the last name into the source. |
| SourceForms.FieldChainParses | crates/polydat-grammar/src/parser.rs:1358-1372 | A chain of two or more names parses to the field of its last name in the other names, joined by two underscores. |
| TokenParsers.TokenParser.ParseArgs | crates/polydat-grammar/src/parser.rs:1375-1392 | The argument loop collects arguments up to the closing parenthesis. |
| TokenParsers.TokenParser.ParseArg | crates/polydat-grammar/src/parser.rs:1399-1416 | A name before a colon is a named argument, with two tokens of lookahead; anything else is positional. |
| TokenParsers.TokenParser.ParseElements | crates/polydat-grammar/src/parser.rs:1419-1437 | The element loop collects an array literal up to its bracket. |
| TokenParsers.TokenParser.ParseInterpolatedString | crates/polydat-grammar/src/parser.rs:1192-1239 | A literal becomes the `printf` call over its placeholders, or stays a literal when a placeholder is missing or does not parse. |
| SourceForms.PlaceholdersInOrder | crates/polydat-grammar/src/parser.rs:1192-1239 | A literal that becomes a `printf` call has the format as its first argument and then the expression of each placeholder's body, one for each and in the order of the text. |
| TokenParsers.TokenParser.ParsePlaceholderBody | crates/polydat-grammar/src/parser.rs:1342-1349 | A body is trimmed, lexed and parsed as an expression of its own. |
| Registers.LimbsInvert | crates/polydat-core/src/ast.rs:165-188 | The two-limb form and the 128-bit integers, unsigned and signed, determine each other. |
| Registers.BytesInvert | crates/polydat-core/src/ast.rs:190-202 | The word and its sixteen little-endian bytes determine each other. |
| Registers.ViewsAreBijections | crates/polydat-core/src/ast.rs:203-253 | At every element width and signedness, the lanes of a word are in range and as many as fill it, and words and lanes in range determine each other. |
| Registers.ToLanes | crates/polydat-core/src/ast.rs:205-220 | The lane loop fills the array with the lanes of the word, lane 0 at the lowest address. |
| Registers.FromLanes | crates/polydat-core/src/ast.rs:221-230 | The inverse loop builds the word whose bytes are the lanes' bytes in order. |
| Carriers.ViewInverts | crates/polydat-core/src/ast.rs:205-253 | For every lane-typed carrier, reading the lanes of a word and building a word from them gives it back, half floats through 16-bit integers included. |
| Carriers.UnviewInverts | crates/polydat-core/src/ast.rs:205-253 | For every lane-typed carrier, lanes in range survive the word they are packed into. |
| Carriers.ReadIsExtract | crates/polydat-derive/src/lib.rs:844-872 | For every carrier and every bit pattern, the slot read gives the value that `extract` gives on the wire value the slots stand for, and that value has the carrier's type. |
| Carriers.ReadInvertsWrite | crates/polydat-derive/src/lib.rs:844-920 | For every carrier, a typed value written to its slots is read back unchanged, sign included. |
| Carriers.WriteIsInject | crates/polydat-core/src/derive_support.rs:107-309 | The slots written are the slots of the injected wire value, and decoding them by the port type gives that value. |
| Carriers.ExtractInvertsInject | crates/polydat-core/src/derive_support.rs:107-309 | On the interpreter alone, every typed value survives its wire. |
| CarrierNumbers.ScalarBits | crates/polydat-derive/src/lib.rs:844-872 | A scalar carrier reads the number with the low 8, 16, 32, 64 or 128 bits of its slots that is in its type's range, signed or not, and the numbers of the type are those in the range. |
| CarrierNumbers.LaneReads | crates/polydat-core/src/ast.rs:203-253 | A register carrier reads 16, 8, 4 or 2 lanes as its name says; lane `i` has the word's bits from `i` element widths on and is in the element's range, signed for integers. |
| CarrierNumbers.KeywordSpellsLayout | crates/polydat-grammar/src/port_type.rs:427-518 | The keyword of a carrier's port spells out the kind, the bits and the lanes that the carrier reads. |
| CarrierNumbers.CarrierHoldsDomain | crates/polydat-grammar/src/port_type.rs:365-413 | An integer carrier's numbers are exactly those of its port's numeric domain, and a float's significand and exponent fill its bits. |
| CompiledKit.LayoutRoundTrip | crates/polydat-derive/src/lib.rs:4328-4352 | For every list of carriers, values written one after another are read back at the prefix sums of their widths. |
| CompiledKit.Eval | crates/polydat-derive/src/lib.rs:2792-2892 | The interpreter form binds one wire per argument by a running index, runs the body, and puts one injected value on each output; it panics exactly when an argument does not extract. |
| CompiledKit.RunCompiled | crates/polydat-derive/src/lib.rs:4269-4363 | The compiled form reads at a running slot offset and writes the body's results at theirs, and touches no other slot. |
| CompiledKit.WriteTuple | crates/polydat-derive/src/lib.rs:4328-4352 | The per-element writes fill the outputs with the elements' slots in order and leave the rest. |
| CompiledKit.FormsAgree | crates/polydat-derive/src/lib.rs:4269-4363 | For every signature of wires and constants, every body and every input bit pattern: the interpreter form gets the same arguments from the values the slots stand for, its outputs encode to the slots the compiled form writes, and decoding those slots gives its outputs. |
| CompiledKit.U64FormsAgree | crates/polydat-derive/src/lib.rs:4300-4319 | For every signature of wires, constants and `u64` variadics, and every bit pattern, the forms hand the body the same arguments if and only if there is no variadic, or no slot, or not two variadics and every fixed wire rides as a `u64`. |
| CompiledKit.SharesAreHalves | crates/polydat-derive/src/lib.rs:2873-2886 | Of two variadics the first gets the lower half of the wires in order and the second the rest, one more of an odd number. |
| CompiledKit.TwoListsOfU64s | crates/polydat-derive/src/lib.rs:2873-2886 | The interpreter hands two `u64` variadics the words of those halves. |
| Scratches.ScratchBuf.SetFromValue | crates/polydat-core/src/ast.rs:1834-1893 | An entry refilled from a value of its kind reads as that value, wherever its buffer moved; any other value is refused and changes nothing. |
| Scratches.ScratchBuf.SetRefValue | crates/polydat-core/src/ast.rs:1885-1905 | A by-reference value reads back, and an absent one empties the entry, which is exactly when its pair has length zero. |
| Scratches.LayoutIsDisjoint | crates/polydat-derive/src/lib.rs:3590-3617 | No two outputs share a slot and no two by-reference outputs share a scratch entry. |
| Scratches.LayoutHasEntry | crates/polydat-derive/src/lib.rs:3648-3666 | The declared scratch has, for each by-reference output, its own entry of its own kind at the position the writes use. |
| Scratches.WriteElem | crates/polydat-derive/src/lib.rs:3509-3583 | One element is written as its bits, or into its entry with the pair the entry publishes then; every other slot and entry keeps its content. |
| Scratches.WriteResult | crates/polydat-derive/src/lib.rs:3584-3619 | After all writes every by-reference output's pair equals the current pair of its own entry, which holds the body's result, though filling any entry may have moved its buffer. |
| Scratches.WrittenIsOutput | crates/polydat-derive/src/lib.rs:3509-3619 | Once a result is written, every output reads as the value the interpreter form puts there. |
| Scratches.OutputReadsBack | crates/polydat-derive/src/lib.rs:3509-3583 | Every output is of its declared port's type, and reading it by that type gives the body's result. |
| Scratches.WritePoly | crates/polydat-core/src/derive_support.rs:938-989 | A polymorphic return is refused exactly when the output does not carry its type; otherwise reading the output by that type, or through the pair, gives the value back. |
| SlotKit.ReadArgs | crates/polydat-derive/src/lib.rs:3740-3957 | For any signature over any wires the two-counter loop gives the arguments its specification gives, or panics with it; where the wires are all fixed or all variadic these are the interpreter's arguments, and it ends having read every port and slot it was to read. |
| SlotKit.ReadVariadic | crates/polydat-derive/src/lib.rs:3905-3943 | The element loop reads as many items as asked, or panics; on ports that feed the list they are the interpreter's items, of mixed widths for `Value` elements, and both counters stand after them. |
| SlotKit.OneCount | crates/polydat-derive/src/lib.rs:3905-3918 | The counts the kit computes for one variadic, and for the two halves at odd and even counts, are the interpreter's shares, and each starts where the one before ended. |
| SlotKit.FormsAgreeExactly | crates/polydat-derive/src/lib.rs:3740-3957 | For every signature, every number of wires of the types its reads take and every slot content: without a mix of fixed and variadic wires the two forms hand the body the same arguments or panic together, and wherever the interpreter does not panic they hand it the same arguments only then. |
| SlotKit.MixedFormsDiffer | crates/polydat-derive/src/lib.rs:3905-3918 | With a fixed wire beside one or two variadics, over any wires at all, the kit never hands the body what the interpreter hands it: the lists of the two forms hold different numbers of items. |
| SlotKit.MixedWitness | crates/polydat-derive/src/lib.rs:3905-3918 | A scalar and a `u64` list over two wires, with a string return so that this kit and not the scalar one carries it: both argument lists. |
| SlotKit.RunSlotKit | crates/polydat-derive/src/lib.rs:3958-3986 | For any signature the whole closure panics exactly when a read does, and otherwise every output reads as the value the interpreter puts out for the same arguments, each by-reference one through the pair its own entry publishes at the end; without a mix of fixed and variadic wires the arguments are the interpreter's too. |
| SlotKit.RunPolyKit | crates/polydat-derive/src/lib.rs:3673-3690 | The closure of a polymorphic return panics exactly when a read does or the resolved type does not carry the body's value, and otherwise the output, read by that type or through its pair, is that value. |
| SlotKit.ResolvedTypeAdmits | crates/polydat-derive/src/lib.rs:3673-3690 | With two variadics the resolved type is that of the first wire of the second half, and it admits every value of that half whose wire has the same type. |
| Calendar.ClosedFormSteps | crates/polydat-nodes/src/datetime.rs:114-125 | One more day in the closed form is one step of the Gregorian calendar, through every month, year, century and era end. |
| Calendar.ClosedFormIsTheWalk | crates/polydat-nodes/src/datetime.rs:114-174 | On every day count whose shift fits a 64-bit word, the closed form is that many next-day steps from 1970-01-01. No step overflows: the function is defined on checked words. |
| Calendar.ClosedFormInvertsDayNumber | crates/polydat-nodes/src/datetime.rs:114-125 | Every valid date from 1970 within range is the closed form of its day number, so the closed form is a bijection onto the calendar. |
| Calendar.DecomposeEpochMs | crates/polydat-nodes/src/datetime.rs:89-100 | The seven fields are valid and recompose to the input. |
| Calendar.FieldsKeepTheOrder | crates/polydat-nodes/src/datetime.rs:89-100 | Comparing valid fields left to right compares the moments they name, and equal moments have equal fields. |
| MixedRadix.Decompose | crates/polydat-nodes/src/arithmetic.rs:255-271 | The loop pushes the digits of the input, for every radix list. |
| MixedRadix.DecomposeInPlace | crates/polydat-nodes/src/arithmetic.rs:225-239 | The compiled form writes the same digits over the front of the output buffer and leaves the rest. |
| MixedRadix.Validate | crates/polydat-nodes/src/arithmetic.rs:278-292 | A list is accepted if and only if its only zero is last; otherwise the first misplaced zero is named. |
| MixedRadix.DigitsInRange | crates/polydat-nodes/src/arithmetic.rs:255-271 | Each bounded digit is below its radix. |
| MixedRadix.DigitsRecompose | crates/polydat-nodes/src/arithmetic.rs:255-271 | For an accepted list the digits recompose to the input, or to the input modulo the product when the last radix is not zero. |
| MixedRadix.DigitsOfValue | crates/polydat-nodes/src/arithmetic.rs:255-271 | Digits in range are the digits of the number they stand for. |
| MixedRadix.NextIsTick | crates/polydat-nodes/src/arithmetic.rs:203-217 | The next number's digits are one turn of an odometer, innermost wheel first. |
| NumericDomains.FitsIncludes | crates/polydat-grammar/src/port_type.rs:208-263 | Where the bit counts fit, every number of the one domain is a number of the other. |
| NumericDomains.MisfitExcludes | crates/polydat-grammar/src/port_type.rs:208-263 | Where they do not, a number is given that the conversion loses. |
| NumericDomains.FitsInIsInclusion | crates/polydat-grammar/src/port_type.rs:208-263 | Counting bits decides inclusion of the actual value sets, for integers of at least one bit and binary floats whose exponent range spans their significand. |
| NumericDomains.PortConversionIsLossless | crates/polydat-grammar/src/port_type.rs:365-413 | For every two port types that carry numbers the decision is exactly inclusion. |
| NumericDomains.PortHoldsBounds | crates/polydat-grammar/src/port_type.rs:365-413 | Each integer port's domain is the integers between two literal bounds, and no other number. |
| NumericDomains.PortHoldsFloats | crates/polydat-grammar/src/port_type.rs:365-413 | Each float port's domain has every integer up to its literal bound and not the next, and its top power of two and not the next. |
| TileStructural.Textualizer.Object | crates/polydat-grammar/src/tile_structural.rs:274-340 | The loop over entries appends a text whose every rendering holds exactly the members the choices ask of the entries, in order, and whose commas are right in every rendering exactly under the condition of `CommasAreRight`; or it returns the first fault: a stray `@else`, or a directive over something that is not an object. |
| TileStructural.Textualizer.Members | crates/polydat-grammar/src/tile_structural.rs:344-365 | A directive's members are joined by commas, with one more in front or behind as the position says. |
| TileStructural.CommasAreRight | crates/polydat-grammar/src/tile_structural.rs:267-365 | For every object, every rendering has exactly one comma between each two members and none at the ends, if and only if the object is at most one group and not an `@for` over no members, or no directive body is empty and a static member is among the groups or the last is an `@if` with an `@else`. |
| TileStructural.RenderingKeepsMembers | crates/polydat-grammar/src/tile_structural.rs:267-365 | Every rendering holds exactly the members its choices ask for, in order. |
| TileStructural.TextIsPieces | crates/polydat-grammar/src/tile_structural.rs:267-365 | Reading the written text, block by block, with the separator of each `@for` header between its repetitions and the chosen arm of each `@if`, renders as the pieces do. |
| TileStructural.TextCommasAreRight | crates/polydat-grammar/src/tile_structural.rs:267-365 | The text renders with right commas for every choice if and only if the groups meet the condition of `CommasAreRight`. |
| TileStructural.TextKeepsMembers | crates/polydat-grammar/src/tile_structural.rs:267-365 | Rendering the text gives the members that the choices ask of the entries, each arm under its own directive. |
| TileStructural.EmptyBodyLeavesComma | crates/polydat-grammar/src/tile_structural.rs:344-365 | One object outside that condition: an `@for` over no members behind a static member leaves a stray comma when it renders. |
| TileTemplate.TemplateParser.Pieces | crates/polydat-grammar/src/tile.rs:65-117 | The scanning loop returns the pieces of the text: static runs with the doubled delimiter undone, and holes. |
| TileTemplate.TemplateParser.Close | crates/polydat-grammar/src/tile.rs:181-213 | The loop takes the text up to the closing delimiter at bracket depth zero outside quotes, and stands after it. |
| Nesting.HoleEndsOutside | crates/polydat-grammar/src/tile.rs:181-213 | A hole of letters, strings and nested bracket pairs is taken whole up to the closing delimiter behind them, whatever the strings and brackets hold. |
| TileTemplate.RenderTemplate | crates/polydat-grammar/src/tile.rs:469-480 | The loop writes the pieces one after another, every opening delimiter in a static doubled. |
| TileTemplate.ParseInvertsRender | crates/polydat-grammar/src/tile.rs:469-480 | For every opening delimiter without a border, parsing the rendering of statics and holes returns them. |
| TileTemplate.BorderBreaksRoundTrip | crates/polydat-grammar/src/tile.rs:65-88 | For every opening delimiter with a border there is a static such that, before any hole at all, parsing the rendering does not return the pieces. |
| TileTemplate.RoundTripsExactlyWithoutBorder | crates/polydat-grammar/src/tile.rs:65-117 | Where the sigil does not begin with a character of the opening delimiter, rendering and parsing return every list of good pieces if and only if the delimiter has no border. |
| TileTemplate.RenderingParses | crates/polydat-grammar/src/tile.rs:65-117 | For a delimiter without a border and pieces of the parser's shape, the rendering parses to the pieces if no static begins a directive in it, and stops at a directive otherwise. |
| TileTemplate.ParsedReparses | crates/polydat-grammar/src/tile.rs:469-480 | What a text parses to renders and parses again to the same pieces if and only if no static of it begins a directive when rendered, which none does unless the delimiter stands inside the sigil and keyword of a directive. |
| TileTemplate.TrimmedHoleBeginsDirective | crates/polydat-grammar/src/tile.rs:65-117 | With the delimiter `i`, a text parses to a static and a hole whose rendering is an `@if` directive. |
| TileTemplate.ParsedAlternates | crates/polydat-grammar/src/tile.rs:65-117 | Whatever parses has no empty static, no empty hole and no two statics side by side. |

## Left out

- Weak memory orderings: the write-once slot and the severing flag are sequentially consistent, one step per read or write.
- Accessor payloads and downcasts: an accessor is its lookup function, and a payload its identity.
- Source positions, and the texts of error messages: an error is that one occurred, or which kind where the kind is decided by the code modelled.
- Lexer.Tokenize: `for` and `tile` lex to an error, where the source captures the text after them, so `for` producers and tile statements are not expressions of the model; and a float literal with an SI suffix stays a float, where the source makes it an integer if it comes out whole.
- Floats as numbers: a float literal keeps its spelling, and float carriers are bit patterns.
- Statements, modules and whole files: the printer and parser are those of expressions. The lexer drops line ends, so a binding followed by a parenthesised one reprints as a call.
- SlotKit.FormsAgreeExactly: more than two variadics, which the macro refuses, are outside it.
- CompiledKit.U64FormsAgree: the wires behind the fixed ones are of the type the variadic declares.
- SlotKit.ReadArgs: what a by-reference pair stands for is a given function of its type, pointer and length, the inverse of its producer's write; the decoding of raw memory is not modelled. The absent value does not occur on scalar slots.
- Nodes that cache a fallible result, setup arguments, constant lists, and compiled forms written by hand: they add captured values to the signature and no reads.
- Scratch entries that hold kernels, node state or raw slots: no output of the kit is written into them.
- Scratches.ScratchBuf.SetFromValue: lengths are below 2^64, which the source's allocator guarantees.
- The `to_timestamp` text of a date, and the wrapping scale and offset nodes.
- NumericDomains.FitsInIsInclusion: formats with fewer than three exponent bits, or whose greatest exponent is below the significand's width, are outside it; infinities, NaN and the sign of zero are no numbers.
- TileStructural.Textualizer.Object: the text of a member's own key and value is given by its name; arrays, and strings that hold holes, are not modelled. White space around blocks is not part of the text.
- TileTemplate.ParseInvertsRender: holes are their text, without its split into expression, type and format. Directive headers and blocks are not modelled: where one begins, parsing here stops with a fault, and the statics of the round trip begin none. A hole's text is trimmed, closes at its own delimiter, and is not mistaken for a second opening delimiter.
- TileTemplate.ParsedReparses: it speaks of texts whose holes are such; a sigil and delimiter that overlap are judged by the statics, not by a condition on the options alone.
- The kernel, the assembler, the JIT, visualisation, diagnostics, pragmas, and the arithmetic, comparison and bitwise nodes of one line.
