# mini-js-parser in Dafny

A Dafny model of the compiler pipeline of mini-js-parser, a small compiler for a
subset of JavaScript, and proofs about it. Text is scanned into tokens and parsed
by recursive descent into a tree. The binder decorates the tree with parents,
scopes, symbols and control-flow nodes. Rewrite passes transform the tree:
constant folding, dead-code elimination and identifier renaming, which together
make up the minifier. The printer writes the tree back as text and can record
a Source Map Revision 3 `mappings` string encoded in Base64 VLQ.

Each source file has a Dafny counterpart, written in the same style as the code it models:

| module | file | models |
|---|---|---|
| `FlowFlags`, `Ast` | ast.dfy | `SyntaxKind`, the flow flags, the node kinds, flow nodes, symbols, scopes, and the binder's decorations |
| `Factory` | factory.dfy | the `factory` node constructors |
| `Numbers` | numbers.dfy | decimal digits of integers, as `toString` and `parseFloat` see them |
| `Utilities` | utilities.dfy | `getOperatorPrecedence` |
| `Scanning` | scanner.dfy | the scanner: a class with `pos`, `tokenPos`, `token` and `tokenValue`, proved against a function `NextToken` |
| `Grammar`, `Parsing` | grammar.dfy, parser.dfy | the parser: a class whose `parse*` methods are proved against the grammar of the trees it builds |
| `Binder`, `BinderFacts` | binder.dfy, binder_facts.dfy | `bindSourceFile` as a class that updates the decorations in place, proved against a functional walk; the flow and scope facts proved of that walk |
| `Transformer` | transformer.dfy | `visitEachChild`, `visitNodes` and `transform` |
| `ConstantFolding`, `DeadCode`, `Rename`, `Minifier` | constant_folding.dfy, dead_code.dfy, rename.dfy, minifier.dfy | the three passes and their order |
| `SourceMap` | sourcemap.dfy | the source map generator |
| `Emitter`, `EmitterFacts` | emitter.dfy, emitter_facts.dfy | the printer: a class whose `print*` methods are proved against functions that describe what they write |
| `Numbering`, `Seqs` | numbering.dfy, seqs.dfy | helper lemmas about node ids and sequences |

How the model represents JavaScript's objects and mutation:

- **Nodes are values.** Every node carries `pos`, `end` and an `id` that stands for
  object identity. The parser numbers the nodes it makes from 1 upwards, children
  before parents. Factory nodes get id 0 and position -1.
- **The binder's fields live in side tables.** `parent`, `flowNode`, `locals` and
  `symbol` are kept in `Ast.Bindings`, keyed by node id. Flow nodes, scopes and
  symbols sit in arenas indexed by number. A spread copy keeps its id, so it keeps
  its decorations, as `{...node}` keeps those fields.
- **A scope remembers insertion order**, because the renamer names symbols in the
  order `Map.values()` yields them.
- **A visitor returns `Drop`, `Keep` or `Replace(node)`.** These stand for
  `undefined`, the same object, and a new object, which is how `visitEachChild`
  decides whether to rebuild a node.
- **Passes with state thread it as a value.** The renamer's stack, map and counter
  are threaded through the walk. The loops that update them are methods of
  `Rename.Renamer`.
- **The printer's writes form a `Trace`.** The output, the line and column, and the
  source map are all functions of that trace. An exception thrown while printing
  ends the trace with `Threw`, and no write follows it.
- **Thrown errors are values.** The scanner and parser return them in
  `Result`/`Option` types.

Some behaviour of the code is kept exactly as written:

- **Assignment is never parsed.** `=` has precedence `Invalid` (src/utilities.ts:33-34),
  so the precedence loop never builds an assignment, and `a = 1;` fails at the
  expected semicolon. The assignment branch of the loop is unreachable in the model
  as it is in the code.
- **Loop labels are branch labels.** They are made with `createFlowLabel`, so they
  carry `BranchLabel`, not `LoopLabel`.
- **`lookAhead` does not restore `token`.** `isLetDeclaration` puts the scanner back,
  but the parser's own `token` keeps the token after `let`.
- **The renamer can capture free identifiers.** The new names do not avoid the
  text of identifiers that resolve to no symbol.
- **The printer spells `--` as `?` and throws on a folded comparison.** `getOperator`
  has no case for `--`, and `printLiteral` finds neither text nor value on the
  `true`/`false` token that constant folding makes. The corrected spellings are kept
  beside them (see "## Findings").

## Model

| member | source | states |
|---|---|---|
| FlowFlags.FlagsAreDistinctBits | src/ast.ts:78-92 | every `FlowFlags` member is one bit and no two members share a bit |
| FlowFlags.MarkUnreachableKeepsOtherFlags | src/binder.ts:193-195 | OR-ing `Unreachable` into a flow node's flags sets `Unreachable` and leaves every other flag as it was |
| Ast.LiteralRangeIsExact | src/transformers/deadCodeElimination.ts:231 | the range test `NumericLiteral <= kind <= StringLiteral` accepts exactly the two literal kinds |
| Ast.Subnodes | src/binder.ts:288-337 | the nodes held directly in a node's fields, in field order; each is strictly smaller than the node |
| Ast.WellNumberedListFacts | src/ast.ts:103-109 | in a parsed statement list every node has an identity of its own: the elements' identity sets are pairwise disjoint and lie inside the list's |
| Ast.WellNumberedChildren | src/ast.ts:103-109 | the children of a parsed node are parsed nodes with pairwise disjoint identities, all created before (numbered below) their parent |
| Ast.Scope.Get | src/ast.ts:94 | `Map.get` on a `LocalScope` finds a symbol exactly when the name is a key |
| Ast.Scope.Add | src/binder.ts:118-125 | `Map.set` of a new name: the name now maps to the symbol, every other name maps as before, and the name joins the end of the insertion order |
| Ast.Scope.Values | src/transformers/renameIdentifiers.ts:17-22 | `Map.values()` yields one symbol per key, in insertion order |
| Ast.Bindings.ParentIsHigher | src/binder.ts:46-116 | each `parent` link set by the binder goes strictly up a well-founded measure, so parent chains are finite |
| Ast.Bindings.Lookup | src/transformers/deadCodeElimination.ts:76-88 | a symbol found by walking the `parent` chain's `locals` carries the name looked up |
| Ast.Bindings.LookupIsNearest | src/transformers/deadCodeElimination.ts:76-88 | the walk finds nothing exactly when no scope on the chain declares the name; otherwise it returns the symbol of the nearest scope that does |
| Factory.CreateIdentifier | src/factory.ts:16-24 | an identifier with the given text, sentinel positions `-1` and no identity |
| Factory.CreateNumericLiteral | src/factory.ts:26-35 | a numeric literal with sentinel positions whose value is the argument and whose text is the value's decimal spelling |
| Factory.CreateVariableDeclaration | src/factory.ts:37-48 | a declaration whose name is a new identifier when given a string and the given identifier otherwise, with the given initializer |
| Factory.CreateVariableStatement | src/factory.ts:50-58 | a synthetic variable statement holding the declaration |
| Factory.CreateBlock | src/factory.ts:60-68 | a synthetic block holding exactly the given statements |
| Factory.CreateWhileStatement | src/factory.ts:70-79 | a synthetic while statement with the given condition and body |
| Factory.CreateExpressionStatement | src/factory.ts:81-89 | a synthetic expression statement around the expression |
| Factory.CreateToken | src/factory.ts:91-97 | a bare synthetic node of the kind: no children, no value and no text |
| Factory.NumericLiteralTextRoundTrip | src/factory.ts:32 | the text the factory stores for a non-negative value is all digits and reads back as that value |
| Numbers.NatToString | src/factory.ts:32 | `toString` of a natural number: a non-empty digit run with no leading zero unless the number is 0 |
| Numbers.NumberToString | src/emitter.ts:372 | `toString` of an integer is a minus sign for a negative value followed by digits that read back as its magnitude |
| Numbers.DigitsRoundTrip | src/parser.ts:430 | `parseFloat` of a number's decimal spelling gives the number back |
| Numbers.CanonicalDigits | src/parser.ts:430 | a digit run without leading zeros is the spelling of its own value, so printing what was parsed gives the same text |
| Utilities.GetOperatorPrecedence | src/utilities.ts:13-36 | the precedence of a token is `Invalid` or one of the five classes from `Comma` to `Multiplicative` |
| Utilities.PrecedenceOrder | src/utilities.ts:3-11 | the classes are strictly ordered `Comma < Equality < Relational < Additive < Multiplicative`, `Lowest` is `Comma` and `Invalid` is below it |
| Utilities.PrecedenceClasses | src/utilities.ts:13-36 | which tokens belong to each class, in both directions; `=` and every other token are `Invalid` |
| Scanning.RunEnd | src/scanner.ts:232-234 | the end of a run of one character class: every character before it is in the class and the character at it (if any) is not |
| Scanning.KeywordKind | src/scanner.ts:14-28 | `textToKeyword` only ever yields one of the eleven keyword kinds |
| Scanning.KeywordTable | src/scanner.ts:14-28 | the keyword table is a bijection: each keyword kind is found from its spelling, and a word found in the table is that kind's spelling |
| Scanning.NextToken | src/scanner.ts:96-202 | one `scan`: the token starts after the whitespace that follows `pos`, is non-empty unless at the end, and is end-of-file exactly when it starts at the end of the text, with an empty value |
| Scanning.EndOfFileIsSticky | src/scanner.ts:100-103 | past trailing whitespace, `scan` returns end-of-file with an empty value, and scanning again from the end does the same |
| Scanning.WhitespaceIsSkipped | src/scanner.ts:108-115 | the six whitespace characters are skipped: after a whitespace run the token starts where the run ends |
| Scanning.ShiftScan | src/scanner.ts:108-115 | whether a scan fails does not depend on the whitespace in front of the token |
| Scanning.WordScansAsKeywordOrIdentifier | src/scanner.ts:257-266 | a word scans as its keyword kind if it is a keyword and as `Identifier` otherwise, spanning the whole word, with the word as the value |
| Scanning.LongestOperator | src/scanner.ts:160-195 | `==`, `++`, `--`, `<=` and `>=` scan as the two-character kinds, ending two characters on; `=`, `+`, `-`, `<` or `>` that is last in the text or not followed by its partner character scans as the one-character kind |
| Scanning.LeadingZeros | src/scanner.ts:220-229 | a `0` followed by a digit throws "Numeric literal cannot start with 0" at the `0`; any other `0` is the number `0` |
| Scanning.NumberValue | src/scanner.ts:220-238 | a numeric token's value is its own text: a maximal digit run with no leading zero unless it is `0` |
| Scanning.NumberAtFacts | src/scanner.ts:220-238 | `scanNumber` yields the maximal canonical digit run starting at its position |
| Scanning.StringValue | src/scanner.ts:240-255 | a string token ends at the next double quote and its value is the text between the quotes; it fails with "Unterminated string literal" at the end of the text exactly when no quote follows |
| Scanning.ScannedTokenFacts | src/scanner.ts:96-202 | every successful scan gives a token whose value the parser can rely on: numbers canonical digits, identifiers non-keyword words, strings free of quotes |
| Scanning.Scanner.constructor | src/scanner.ts:59-64 | `createScanner`: position 0, token `Unknown`, empty value |
| Scanning.Scanner.GetTokenText | src/scanner.ts:92-94 | `getTokenText` is the text between the token's start and the current position |
| Scanning.Scanner.Scan | src/scanner.ts:96-202 | the scanner's fields after `scan` are those `NextToken` computes from the old position and value, or the error it reports |
| Scanning.Scanner.ScanNumber | src/scanner.ts:220-238 | the loop of `scanNumber` leaves the fields `NumberAt` describes |
| Scanning.Scanner.ScanString | src/scanner.ts:240-255 | the loop of `scanString` leaves the fields `StringAt` describes |
| Scanning.Scanner.ScanIdentifier | src/scanner.ts:257-266 | the loop of `scanIdentifier` leaves the fields `WordAt` describes, keywords by table |
| Scanning.Scanner.Restore | src/scanner.ts:212-215 | the restoring half of `lookAhead` puts back exactly the four saved variables |
| Scanning.ScanAdvances | src/scanner.ts:96-202 | every successful scan other than end-of-file moves the position forward, so scanning terminates |
| Grammar.Prec | src/parser.ts:315-357 | an expression's precedence is above every operator class exactly when it is not a binary node |
| Grammar.ExprHasNoReturn | src/parser.ts:278-281 | a parsed expression holds no `return` |
| Grammar.TopLevelHasNoReturn | src/parser.ts:278-281 | a statement parsed outside every function body holds no `return` outside a function |
| Grammar.ChildHasNoReturn | src/parser.ts:278-281 | each part of a top-level statement other than a function holds no stray `return` |
| Grammar.ChildIsExprOrStmt | src/parser.ts:67-88 | the parts of a parsed statement other than a function are a declaration, or expressions and statements at the same function depth |
| Grammar.DeclarationHasNoReturn | src/parser.ts:107-117 | the declaration inside a `let` holds no `return` |
| Grammar.FromChildren | src/parser.ts:278-281 | a node other than `return` or a function has no stray `return` when none of its parts has one |
| Grammar.Flatten | src/parser.ts:315-357 | the operand/operator sequence of an expression alternates, starts and ends with an operand, and has an operator exactly when the node is binary |
| Grammar.OperatorsAtLeastRoot | src/parser.ts:322-332 | in a parsed expression every operator binds at least as tightly as the root operator |
| Grammar.RootIsLastLowest | src/parser.ts:322-332 | the root of a parsed binary expression is the last operator of lowest precedence in its sequence |
| Grammar.FlattenDeterminesTree | src/parser.ts:315-357 | two parsed expressions with the same operand/operator sequence are the same tree: precedence climbing is unambiguous |
| Grammar.SameRoot | src/parser.ts:315-357 | two parsed binary expressions with the same sequence split it at the same operator |
| Grammar.LeftAssociative | src/parser.ts:330-332 | operators of equal precedence associate to the left: `a o1 b o2 c` is `(a o1 b) o2 c` |
| Grammar.TighterBindsFirst | src/parser.ts:330-332 | a tighter operator binds first: `a o1 b o2 c` with `o2` above `o1` is `a o1 (b o2 c)` |
| Parsing.ScanNeverUnknown | src/scanner.ts:96-202 | no scan reports `Unknown`, the kind the parser's token holds before its first `nextToken` |
| Parsing.Parser.constructor | src/parser.ts:34-37 | `createParser`: a new scanner over the text, no current token and no scope flags |
| Parsing.Parser.NewId | src/parser.ts:58-513 | every node object the parse functions build (the object literals from `parseSourceFile` to `parseExpressionStatement`) takes the next identity, and building it leaves the token and the scanner as they are |
| Parsing.Parser.NextToken | src/parser.ts:47-49 | `nextToken` makes the scanned token current, reports a scanner error as such, and strictly shrinks what is left to read unless at the end |
| Parsing.Parser.IsLetDeclaration | src/parser.ts:529-540 | `lookAhead(nextTokenIsBindingIdentifier)`: true exactly when the token after `let` is an identifier; the scanner is restored but the parser's `token` keeps the token after `let` |
| Parsing.Parser.Expect | src/parser.ts:542-549 | `expect`: a different current token is an `Expected` error at its position; the right one is moved past |
| Parsing.Parser.SkipKeywordAndParen | src/parser.ts:196-199 | the keyword of `while`, `for` or `if` and the `(` that must follow it are moved past |
| Parsing.Parser.ParseCondition | src/parser.ts:255-260 | the keyword, then a parenthesised expression the grammar accepts |
| Parsing.Parser.ParseSemicolon | src/parser.ts:516-523 | `parseSemicolon`: any token other than `;` is a missing-semicolon error at its position; a `;` is moved past |
| Parsing.Parser.ParseSourceFile | src/parser.ts:51-65 | `parseSourceFile`: on success the tree is a source file the grammar accepts for the text, every node has an identity of its own, and the token is end-of-file |
| Parsing.Parser.ParseStatement | src/parser.ts:67-88 | `parseStatement`: the statement kind follows the leading token; a `let` not followed by an identifier becomes an expression statement |
| Parsing.Parser.ParseVariableStatement | src/parser.ts:90-120 | `let name [= expression];` spanning from `let` to after the `;`, the name required to be an identifier |
| Parsing.Parser.ParseVariableDeclaration | src/parser.ts:94-117 | the declaration spans its name and, when present, its initializer |
| Parsing.Parser.ParseInitializer | src/parser.ts:99-103 | an initializer is parsed exactly when the token after the name is `=` |
| Parsing.Parser.ParseFunctionDeclaration | src/parser.ts:122-171 | `function name(params) block`, with the scope flags restored afterwards |
| Parsing.Parser.ParseParameterList | src/parser.ts:131-155 | a `(` must open the list; each parameter is an identifier spanning its name, optionally followed by `,` |
| Parsing.Parser.ParseFunctionBody | src/parser.ts:157-160 | the body block is parsed with `InFunction` set, so it may hold `return`; the flags are restored afterwards |
| Parsing.Parser.ParseBlock | src/parser.ts:173-194 | `parseBlock`: statements up to a `}` that must be there, spanning to after the `}` |
| Parsing.Parser.ParseBlockStatements | src/parser.ts:176-185 | statements until `}`; end of file before it is the `Expected '}'` error |
| Parsing.Parser.ParseWhileStatement | src/parser.ts:196-211 | `while (expression) statement` |
| Parsing.Parser.ParseForStatement | src/parser.ts:213-253 | `for (init; condition; incrementor) statement`, each header part optional |
| Parsing.Parser.ParseForHeader | src/parser.ts:215-239 | the three parts of a `for` header in order, the first a `let` statement or an expression |
| Parsing.Parser.ParseForInitializer | src/parser.ts:218-227 | a `let` statement (reading its own `;`), an expression then `;`, or nothing then `;` |
| Parsing.Parser.ParseClause | src/parser.ts:229-239 | a header part is empty exactly when the current token is already its closing token |
| Parsing.Parser.ParseIfStatement | src/parser.ts:255-276 | `if (expression) statement [else statement]` |
| Parsing.Parser.ParseBranches | src/parser.ts:261-266 | the then-statement followed by the optional else-statement, numbered in that order |
| Parsing.Parser.ParseElse | src/parser.ts:262-266 | an else-branch is parsed exactly when the token after the then-statement is `else` |
| Parsing.Parser.ParseReturnStatement | src/parser.ts:278-296 | outside a function body `return` is always an error; inside one it is `return [expression];` |
| Parsing.Parser.ParseReturnExpression | src/parser.ts:282-287 | the returned expression, absent when `;` follows `return` |
| Parsing.Parser.ParseIdentifier | src/parser.ts:298-309 | an identifier node whose text is the token's value: a non-empty non-keyword word |
| Parsing.Parser.ParseExpression | src/parser.ts:311-313 | an expression at the lowest precedence; it stops at a token that is not a binary operator, and its tree flattens to the operands and operators read |
| Parsing.Parser.ParseBinaryExpression | src/parser.ts:315-357 | precedence climbing: the result's precedence is at least `minPrecedence`, it stops at an operator below that, and its tree flattens to exactly what was read |
| Parsing.Parser.ReadOperator | src/parser.ts:329 | moving past an operator records it in the operand/operator trace |
| Parsing.Parser.ParseBinaryStep | src/parser.ts:319-353 | one round of the loop: the result is `left operator right`, and its sequence extends the one read so far |
| Parsing.Parser.ParseUnaryExpression | src/parser.ts:359-401 | prefix `++ -- + -` give a prefix node with that operator; any other token gives a member expression with an optional postfix update |
| Parsing.Parser.ParsePrefixUnary | src/parser.ts:360-378 | a prefix operator applied to a unary operand |
| Parsing.Parser.ParsePostfix | src/parser.ts:382-400 | at most one postfix `++` or `--` after a member expression |
| Parsing.Parser.ParseMemberExpression | src/parser.ts:403-423 | a primary expression followed by any number of `[index]`; it stops before any token other than `[` |
| Parsing.Parser.ParseElementAccess | src/parser.ts:406-417 | one `[index]` around the expression so far, spanning to after the `]` |
| Parsing.Parser.ParsePrimaryExpression | src/parser.ts:425-474 | an identifier, a number, a string, `true`, `false` or an array literal of the token's own kind; any other token is the "Unexpected token" error at its position |
| Parsing.Parser.NewLiteral | src/parser.ts:429-466 | the literal node spans from its token to the next token and takes the next identity |
| Parsing.Parser.ParseArrayLiteralExpression | src/parser.ts:476-497 | `[` expressions, each optionally followed by `,`, then a `]` that must be there |
| Parsing.Parser.ParseExpressionStatement | src/parser.ts:499-514 | an expression and its `;`, spanning to after the `;`; a missing `;` is the missing-semicolon error |
| Parsing.FunctionTiled | src/parser.ts:122-171 | a name, then parameters, then a body, numbered in that order, number a function declaration whose identity is the last |
| Parsing.HeaderTiled | src/parser.ts:215-239 | three optional header parts, numbered one after another, number the header |
| Parsing.ForTiled | src/parser.ts:213-253 | a numbered header followed by a numbered body numbers a `for` |
| Parsing.IfTiled | src/parser.ts:255-276 | a numbered condition followed by numbered branches numbers an `if` |
| Parsing.FlattenAppend | src/parser.ts:344-352 | reading the left operand, the operator and the right operand gives the sequence of the binary node built from them |
| Parsing.Combine | src/parser.ts:334-353 | the node the loop builds spans from the left operand's start to the right operand's end with the identity it is given; `=` builds an assignment of the two operands, and any other operator builds a binary node whose operand-operator sequence is the left one's, the operator, then the right one's |
| Parsing.Parse | src/parser.ts:34-65 | `createParser(text).parseSourceFile()`: a successful parse is a source file the grammar accepts for the text, with an identity for every node |
| Binder.Children | src/binder.ts:288-337 | the nodes `forEachChild` hands to its callback, each one a field of the node |
| Binder.FirstTruthyAppend | src/binder.ts:434-442 | `visitNodes` over two lists joined is the first list's result, or else the second's |
| Binder.ForEachChildIsFirstTruthy | src/binder.ts:288-337 | `forEachChild` returns the first truthy callback result over the children in source order, except that for a variable declaration or a property access a truthy first child makes it return `undefined` |
| Binder.ForEachChildQuirk | src/binder.ts:351-354 | in `bindVariableDeclaration` and `bindPropertyAccessExpression` a truthy name or object result is dropped and the call returns `undefined` |
| Binder.ForEachChildJoined | src/binder.ts:339-341 | functions, `if`, `for` and calls: the `\|\|` chains over fields and lists are the first truthy result over the concatenated children |
| Binder.ForEachChildPlain | src/binder.ts:343-432 | every other kind: the first truthy result over its list field or its one or two fields |
| Binder.FirstTruthyIsFirst | src/binder.ts:434-442 | `visitNodes` finds nothing exactly when every callback result is falsy, and otherwise returns the first truthy one |
| Binder.FirstTruthy | src/binder.ts:434-442 | `visitNodes`: a result it returns is the callback's result on one of the nodes; FirstTruthyIsFirst says which one (the first truthy one), and FirstTruthyAppend how it splits over joined lists |
| Binder.ForEachChild | src/binder.ts:288-442 | `forEachChild`: nothing when the callback is falsy on every child; ForEachChildIsFirstTruthy states which result it returns otherwise, with the quirk ForEachChildQuirk describes |
| Binder.VisitNodes | src/binder.ts:434-442 | the early-exit loop of `visitNodes` returns the first truthy callback result |
| Binder.NewSymbolKeepsValid | src/binder.ts:127-133 | adding a fresh symbol for a new name keeps every scope's table pointing at symbols of that name |
| Binder.SymbolUpdateKeepsValid | src/binder.ts:133 | updating a symbol in place (a pushed declaration, the referenced mark) keeps the tables consistent |
| Binder.RecordSymbolKeepsValid | src/binder.ts:144 | recording `id.symbol` keeps the tables consistent |
| Binder.DeclareIn | src/binder.ts:127-134 | `declareSymbolInScope` changes only the scope tables and symbols: parents, flows and the current scope are untouched |
| Binder.Resolution | src/binder.ts:136-156 | the symbol the parent-chain walk (then the file's `locals`) finds carries the identifier's text |
| Binder.Resolve | src/binder.ts:136-156 | `resolveSymbol` changes only symbols and the identifier's `symbol`: scopes, parents and flows are untouched |
| Binder.PushFlow | src/binder.ts:167-173 | creating a flow node keeps the state consistent |
| Binder.AddFlow | src/binder.ts:158-165 | making a new flow node current keeps the state consistent |
| Binder.AddAntecedent | src/binder.ts:211-213 | pushing the current flow onto a loop label keeps the state consistent |
| Binder.Link | src/binder.ts:48-52 | `node.parent = parent; node.flowNode = currentFlow; parent = node`, with the current flow and scope kept |
| Binder.OpenScope | src/binder.ts:61-62 | a new empty `Map` becomes the current scope and `node.locals` |
| Binder.Enter | src/binder.ts:48-63 | the start of `bind`: the node is linked and becomes the parent; the flow is kept and scopes are only added |
| Binder.DeclareNode | src/binder.ts:65-74 | the declaration step of `bind` changes only scope tables and symbols |
| Binder.BindSpec | src/binder.ts:46-116 | `bind(node)` keeps the state consistent and restores the parent and the current scope afterwards |
| Binder.Dispatch | src/binder.ts:76-112 | the `switch` of `bind` keeps the state consistent |
| Binder.BindListSpec | src/binder.ts:434-442 | binding a list of children in order keeps the state consistent |
| Binder.BindListStep | src/binder.ts:436-439 | binding one more child of the list is `bind` on that child after the ones before it |
| Binder.BindChildrenSpec | src/binder.ts:288-337 | `forEachChild(node, bind)` keeps the state consistent |
| Binder.BindIfSpec | src/binder.ts:175-196 | `bindIfStatement` keeps the state consistent |
| Binder.IfThenSpec | src/binder.ts:176-180 | the condition, then the then-branch from a `TrueCondition` flow |
| Binder.IfElseSpec | src/binder.ts:182-184 | the else-branch from a `FalseCondition` flow |
| Binder.MergeLabel | src/binder.ts:186-195 | the merge label has the then- and else-exits as antecedents, is a `BranchLabel`, and is `Unreachable` exactly when both exits are |
| Binder.BindWhileSpec | src/binder.ts:198-217 | `bindWhileStatement` keeps the state consistent |
| Binder.BindForSpec | src/binder.ts:219-238 | `bindForStatement` keeps the state consistent |
| Binder.ForRestSpec | src/binder.ts:229-237 | the body, the incrementor and the loop exit of a `for` keep the state consistent |
| Binder.BindForInSpec | src/binder.ts:240-257 | `bindForInStatement` keeps the state consistent |
| Binder.ForInRestSpec | src/binder.ts:248-256 | the declaration, the body and the loop exit of a `for-in` keep the state consistent |
| Binder.BindFunctionSpec | src/binder.ts:259-271 | `bindFunctionDeclaration` keeps the state consistent |
| Binder.FunctionBodySpec | src/binder.ts:264-269 | the function body is bound from a fresh start flow and the flow around the function is put back, keeping the state consistent |
| Binder.BindReturnSpec | src/binder.ts:273-279 | `bindReturnStatement` keeps the state consistent |
| Binder.BindIdentifierSpec | src/binder.ts:281-285 | `bindIdentifier` keeps the state consistent |
| Binder.Binder.constructor | src/binder.ts:35-42 | the initial state of `bindSourceFile`: no parent, a `Start` flow, and an empty scope that is `file.locals` |
| Binder.Binder.DeclareSymbolInScope | src/binder.ts:127-134 | the binder's fields after `declareSymbolInScope` are those `DeclareIn` describes |
| Binder.Binder.DeclareSymbol | src/binder.ts:118-125 | `declareSymbol` is `declareSymbolInScope` on the current scope |
| Binder.Binder.ResolveSymbol | src/binder.ts:136-156 | the parent-chain loop of `resolveSymbol` leaves the fields `Resolve` describes |
| Binder.Binder.SetFlow | src/binder.ts:158-165 | `currentFlow = flow` as `AddFlow` describes |
| Binder.Binder.NewLoopLabel | src/binder.ts:201-204 | a new label whose one antecedent is the current flow |
| Binder.Binder.PushAntecedent | src/binder.ts:211-213 | `loopLabel.antecedents.push(currentFlow)` |
| Binder.Binder.Bind | src/binder.ts:46-116 | `bind(node)` updates the fields as `BindSpec` describes |
| Binder.Binder.EnterNode | src/binder.ts:48-63 | the linking and scope-opening half of `bind` |
| Binder.Binder.LinkNode | src/binder.ts:48-52 | `node.parent`, `node.flowNode` and `parent` as `Link` describes |
| Binder.Binder.OpenNodeScope | src/binder.ts:61-62 | a new scope as `OpenScope` describes |
| Binder.Binder.DeclareNodeSymbol | src/binder.ts:65-74 | the declaration step as `DeclareNode` describes |
| Binder.Binder.Switch | src/binder.ts:76-112 | the `switch` of `bind` as `Dispatch` describes |
| Binder.Binder.BindList | src/binder.ts:434-442 | the loop binding a list of children in order |
| Binder.Binder.BindNext | src/binder.ts:436-439 | one turn of that loop |
| Binder.Binder.BindChildren | src/binder.ts:288-337 | `forEachChild(node, bind)` as `BindChildrenSpec` describes |
| Binder.Binder.BindIfStatement | src/binder.ts:175-196 | `bindIfStatement` as `BindIfSpec` describes |
| Binder.Binder.BindWhileStatement | src/binder.ts:198-217 | `bindWhileStatement` as `BindWhileSpec` describes |
| Binder.Binder.BindForStatement | src/binder.ts:219-238 | `bindForStatement` as `BindForSpec` describes |
| Binder.Binder.BindForRest | src/binder.ts:229-237 | the rest of `bindForStatement` as `ForRestSpec` describes |
| Binder.Binder.BindForInStatement | src/binder.ts:240-257 | `bindForInStatement` as `BindForInSpec` describes |
| Binder.Binder.BindFunctionDeclaration | src/binder.ts:259-271 | `bindFunctionDeclaration` as `BindFunctionSpec` describes |
| Binder.Binder.BindFunctionBody | src/binder.ts:265-270 | the body bound from a fresh `Start` flow, the outer flow restored |
| Binder.Binder.BindReturnStatement | src/binder.ts:273-279 | `bindReturnStatement` as `BindReturnSpec` describes |
| Binder.Binder.BindIdentifier | src/binder.ts:281-285 | `bindIdentifier` as `BindIdentifierSpec` describes |
| Binder.BindSourceFile | src/binder.ts:35-45 | `bindSourceFile(file)` produces the decorations `bind(file)` from the initial state describes |
| BinderFacts.BindFrame | src/binder.ts:46-116 | `bind(node)` decorates only nodes of its own subtree and only appends flow nodes; the node gets the current parent and flow, and `locals` of a new scope exactly when it opens one |
| BinderFacts.EnterStep | src/binder.ts:48-74 | the first half of `bind` decorates `node` alone |
| BinderFacts.DispatchFrame | src/binder.ts:76-112 | the `switch` of `bind` decorates only nodes below `node` |
| BinderFacts.ListParents | src/binder.ts:434-442 | every child bound by the list gets `node` as its parent |
| BinderFacts.IfFrame | src/binder.ts:175-196 | binding an `if` decorates only nodes below it |
| BinderFacts.WhileFrame | src/binder.ts:198-217 | binding a `while` decorates only nodes below it |
| BinderFacts.ForFrame | src/binder.ts:219-238 | binding a `for` decorates only nodes below it |
| BinderFacts.ForInFrame | src/binder.ts:240-257 | binding a `for-in` decorates only nodes below it |
| BinderFacts.FunctionFrame | src/binder.ts:259-271 | binding a function decorates only nodes below it |
| BinderFacts.ChildrenHaveParent | src/binder.ts:48-52 | after `bind(node)`, `node`'s parent is the enclosing node and every child `forEachChild` reaches has `node` as its parent |
| BinderFacts.ScopeCreation | src/binder.ts:55-63 | a node opens a scope exactly when it is a function, a `for`, a `for-in`, or a block that is not a function's body; the scope starts empty |
| BinderFacts.DeclareInFacts | src/binder.ts:127-134 | a name new to the scope gets a fresh symbol; a name already there keeps its symbol and its declarations grow by one at the end; other names and scopes are untouched |
| BinderFacts.DeclarationsLand | src/binder.ts:65-74 | variables and parameters are declared in the innermost scope, a function in the scope around it rather than in its own new one |
| BinderFacts.ResolveFacts | src/binder.ts:136-156 | when a scope on the way up, or the file's scope, has the name, the identifier records that symbol and marks it referenced; otherwise nothing changes |
| BinderFacts.IdentifierBinding | src/binder.ts:281-285 | an identifier used as a value is resolved; the name of a declaration is not |
| BinderFacts.ReturnExit | src/binder.ts:273-279 | after a `return` the current flow is a new node flagged exactly `Unreachable`, with the previous flow as antecedent |
| BinderFacts.BlockExit | src/binder.ts:343-345 | a block leaves behind the flow its last statement leaves behind |
| BinderFacts.BlockEndingInReturn | src/binder.ts:273-279 | a block whose last statement is a `return` leaves an unreachable flow |
| BinderFacts.StatementAfterReturnUnreachable | src/binder.ts:273-279 | in a block or file, the statement after a `return` gets a flow node flagged `Unreachable` |
| BinderFacts.ListAfterReturn | src/binder.ts:434-442 | the same for any list of children bound in order |
| BinderFacts.IfMerge | src/binder.ts:186-195 | the flow after an `if` is a `BranchLabel` over the two exits, `Unreachable` exactly when both exits are |
| BinderFacts.BothArmsReturn | src/binder.ts:193-195 | when both arms of an `if` are blocks ending in `return`, the flow after the `if` is unreachable |
| BinderFacts.WhileShape | src/binder.ts:198-217 | the `while` label is a `BranchLabel` over the flow before the loop and the flow at the end of the body; the body enters through a `TrueCondition`; the exit is a `FalseCondition` on the condition whose antecedent is the label |
| BinderFacts.ForShape | src/binder.ts:219-238 | the `for` label is a `BranchLabel` over the flow after the initializer and the flow after the incrementor; the exit is a `FalseCondition` on the condition (or the loop) whose antecedent is the label |
| BinderFacts.FunctionBodyFlow | src/binder.ts:265-270 | a function body starts from a fresh `Start` flow and the flow around the function is restored afterwards |
| BinderFacts.InitialState | src/binder.ts:36-42 | the root scope is `file.locals`, starts empty, and the first flow is `Start` |
| BinderFacts.FirstStatementStarts | src/binder.ts:38-49 | a file's first statement gets the `Start` flow |
| Transformer.VisitNode | src/transformer.ts:198-202 | `visitor(n) \|\| n`: the visitor's replacement, or `n` itself when it returns the same node or `undefined`; it counts as a change exactly when the visitor returned another node |
| Transformer.VisitOptional | src/transformer.ts:114 | an absent optional child stays absent and is not visited; a present one stays present, and is unchanged when not replaced |
| Transformer.VisitedNodes | src/transformer.ts:204-218 | `visitNodes` returns the original list when no element was dropped or replaced, and a list no longer than the original |
| Transformer.UnchangedLoopKeepsList | src/transformer.ts:208-216 | when the loop changed nothing, the list it built equals the original |
| Transformer.VisitNodes | src/transformer.ts:204-218 | the loop of `visitNodes` computes what `VisitedNodes` describes, and returns the original list when nothing changed |
| Transformer.Rebuilt | src/transformer.ts:57-58 | a spread copy keeps the kind, positions, identity and other non-node fields of the node it copies |
| Transformer.VisitEachChild | src/transformer.ts:48-196 | `visitEachChild` never removes the node itself; it returns a spread copy only for a kind it has a case for, and returns kinds without a case untouched |
| Transformer.VisitDeclarationChildren | src/transformer.ts:54-109 | the file, block, `let`, declaration, function and parameter cases return the node or a spread copy of it |
| Transformer.VisitStatementChildren | src/transformer.ts:110-184 | the `if`, `while`, `for`, `return` and expression-statement cases return the node or a spread copy of it |
| Transformer.VisitExpressionChildren | src/transformer.ts:160-193 | the binary and unary cases return the node or a spread copy of it |
| Transformer.KeepingVisitorKeeps | src/transformer.ts:196 | a visitor that returns every child unchanged makes `visitEachChild` return the same node |
| Transformer.KeepingListIsUnchanged | src/transformer.ts:208-216 | a list whose elements are all kept does not count as changed |
| Transformer.DelegatingVisitorIsIdentity | src/transformer.ts:48-196 | a visitor that only delegates to `visitEachChild` returns the identical root |
| Transformer.FilteredAppend | src/transformer.ts:204-218 | filtering two joined lists is filtering each and joining the results |
| Transformer.FilteredSkips | src/transformer.ts:208-214 | an element the visitor drops is left out, the elements around it filtered as without it |
| Transformer.ListVisitIsFiltered | src/transformer.ts:204-218 | a stateless list visit keeps the kept or replaced elements in order and drops the rest; the list counts as changed exactly when some element was dropped or replaced |
| Transformer.Outcomes | src/transformer.ts:198-202 | what each element becomes: its replacement or itself, position by position |
| Transformer.ListWithoutDrops | src/transformer.ts:204-218 | a list under a visitor that never returns `undefined` becomes the elementwise outcomes |
| Transformer.NonDroppingVisitReplacesChildren | src/transformer.ts:48-196 | when the visitor never returns `undefined`, each child position of the returned node holds the visitor's replacement for that child, or the child itself |
| Transformer.FunctionRebuilt | src/transformer.ts:87-101 | a function's copy holds the outcomes of its name, parameters and body |
| Transformer.ForRebuilt | src/transformer.ts:138-159 | a `for`'s copy holds the outcomes of its three optional header parts and its body |
| Transformer.IfRebuilt | src/transformer.ts:110-128 | every child of an `if` is in a single-child position, so even a visitor returning `undefined` leaves each position filled |
| Transformer.OptOutcome | src/transformer.ts:114 | the outcome of an optional child, unchanged when the visitor does not replace it |
| Transformer.StateRelation | src/transformer.ts:48-196 | a reflexive, transitive relation that every child visit establishes on the visitor's state holds across the whole `visitEachChild`: the state is threaded through the children in order |
| Transformer.DroppingVisitorEmptiesOnlyLists | src/transformer.ts:198-218 | a visitor returning `undefined` for everything empties the list children and leaves every single child in place |
| Transformer.ChildrenVisitedInSourceOrder | src/transformer.ts:48-196 | the visitor is called on the children in source order (an `if` as condition, then, else; a `for` as initializer, condition, incrementor, body), and not at all for kinds without a case |
| Transformer.ApplyAllSnoc | src/transformer.ts:40-43 | running one more transformer applies it to the output of the earlier ones |
| Transformer.NoPassesIsIdentity | src/transformer.ts:38-45 | with no transformers the file is returned as it is |
| Transformer.Transform | src/transformer.ts:32-46 | `transform` threads the file through the transformers in list order |
| Transformer.ApplyAll | src/transformer.ts:32-46 | passes that each return their input leave the file as it is; ApplyAllSnoc and Transform state how the passes are threaded in list order |
| ConstantFolding.StringLiteral | src/transformers/constantFolding.ts:58-65 | the folded `+` of two strings is a synthetic string literal at `-1` whose value is the joined string and whose text is that string in double quotes |
| ConstantFolding.BooleanToken | src/transformers/constantFolding.ts:34-45 | a folded comparison is a bare `true` or `false` token with no children, of the kind matching the outcome |
| ConstantFolding.Rendered | src/transformers/constantFolding.ts:48-50 | the node built for a computed value is a synthetic leaf holding exactly that value |
| ConstantFolding.FoldBinary | src/transformers/constantFolding.ts:11-67 | the visitor builds a new node only for a binary expression over two numeric literals, or over two string literals joined by `+`, and what it builds is a childless leaf; FoldBinarySound and FoldNumericSound state the value that leaf holds |
| ConstantFolding.FoldVisit | src/transformers/constantFolding.ts:8-69 | the visitor never removes a node, and a replacement keeps the node's kind, position and identity unless it is the leaf a binary expression folds to; ChildrenFolded, FoldIsBottomUp and FoldPreservesValue give the rest of its meaning |
| ConstantFolding.Folded | src/transformers/constantFolding.ts:70 | the tree the pass returns keeps the root's kind, position and identity, or is the leaf a binary root folds to; FoldPreservesValue, FoldCompletesConstants and Idempotent state its value, its completeness and that a second run changes nothing |
| ConstantFolding.Apply | src/transformers/constantFolding.ts:21-55 | the reference value of `a op b` for the operators the visitor handles: `+`, `-`, `*`, `>` and `<` on two numbers always have a value, comparisons give booleans and the rest numbers, nothing mixes a number and a string, and `+` is the only operator with a value on two strings; FoldBinarySound ties the visitor to it |
| ConstantFolding.FoldBinarySound | src/transformers/constantFolding.ts:11-67 | folding one binary expression builds the leaf for its value, and every binary expression over two literals whose value the model computes is folded |
| ConstantFolding.FoldNumericSound | src/transformers/constantFolding.ts:13-50 | over two numeric literals the pass folds exactly when the operator has a value the model computes, and builds the literal or `true`/`false` token of that value |
| ConstantFolding.ChildrenFolded | src/transformers/constantFolding.ts:9 | `visitEachChild` with the folding visitor leaves the folded children in place |
| ConstantFolding.FoldNeverDrops | src/transformers/constantFolding.ts:68 | the folding visitor never returns `undefined` |
| ConstantFolding.FoldedShape | src/transformers/constantFolding.ts:9-11 | the visited node keeps the kind and operator of the original; literals, tokens and kinds without a case come back unchanged |
| ConstantFolding.FoldIsBottomUp | src/transformers/constantFolding.ts:8-11 | a binary expression is examined only after both operands are folded, keeping its position, identity and operator |
| ConstantFolding.FoldOther | src/transformers/constantFolding.ts:68 | a node that is not binary keeps its kind, shell and leaf value, and its visited children are folded |
| ConstantFolding.FoldPreservesValue | src/transformers/constantFolding.ts:5-73 | folding never changes the value of an expression, taking a reference evaluator as the meaning |
| ConstantFolding.FoldCompletesConstants | src/transformers/constantFolding.ts:5-73 | a constant expression folds all the way to a single leaf holding its value |
| ConstantFolding.FoldExample | src/transformers/constantFolding.ts:22-30 | `1 + 2 * 3` folds to the single synthetic literal `7` |
| ConstantFolding.FoldNumericPair | src/transformers/constantFolding.ts:13-50 | two numbers: `+ - *` and exact `/` give the literal of the result, `>` and `<` a `true`/`false` token, and `== != <= >=` leave the expression as it is |
| ConstantFolding.FoldStringPair | src/transformers/constantFolding.ts:51-66 | two strings joined by `+` become one string literal of the joined value; any other operator leaves them |
| ConstantFolding.LiteralsStay | src/transformers/constantFolding.ts:11-68 | a binary expression over two leaves is either folded or returned as it is |
| ConstantFolding.LeafStays | src/transformers/constantFolding.ts:68 | a node without children is returned as it is |
| ConstantFolding.NormalIsKept | src/transformers/constantFolding.ts:68 | on a tree with nothing left to fold the visitor returns the node itself |
| ConstantFolding.FoldedIsNormal | src/transformers/constantFolding.ts:5-73 | the folded tree has nothing left to fold |
| ConstantFolding.Idempotent | src/transformers/constantFolding.ts:5-73 | a second run of the pass returns its input unchanged |
| DeadCode.PureHasNoEffect | src/transformers/deadCodeElimination.ts:230-241 | what `isPure` accepts contains no call, assignment or update, so dropping it cannot lose an effect |
| DeadCode.IsPure | src/transformers/deadCodeElimination.ts:230-241 | `isPure` accepts only leaves and binary expressions; PureKinds states exactly which kinds, and PureHasNoEffect that what it accepts has no effect |
| DeadCode.IsReachable | src/transformers/deadCodeElimination.ts:222-228 | a flow flagged `Unreachable` alone is not reachable, and a flow carrying any one other flag is; BinderFacts.StatementAfterReturnUnreachable shows where the binder sets that flag |
| DeadCode.ShouldSkipInBlock | src/transformers/deadCodeElimination.ts:208-220 | only `let` statements and function declarations are skipped, and a skipped `let` has no initializer or one that cannot have an effect; Liveness.MarkChildren leaves exactly those unmarked |
| DeadCode.PureKinds | src/transformers/deadCodeElimination.ts:230-241 | `isPure` holds exactly for numeric and string literals, `true`, `false`, identifiers, and binary expressions of pure operands |
| DeadCode.GetSymbolInScope | src/transformers/deadCodeElimination.ts:76-88 | the walk up the parent chain returns the nearest scope's symbol for the name, and the symbol it returns carries that name |
| DeadCode.Referenced | src/transformers/deadCodeElimination.ts:178-187 | the symbol a reachable, non-declaration identifier makes live is one of the file's symbols |
| DeadCode.MarkedStep | src/transformers/deadCodeElimination.ts:189-193 | the children marked so far grow by the next child exactly when it is not skipped in a block |
| DeadCode.LiveSetIsUnique | src/transformers/deadCodeElimination.ts:90-206 | the live set is determined by the tree and its bindings: two least closed results agree |
| DeadCode.Liveness.constructor | src/transformers/deadCodeElimination.ts:91-93 | the analysis starts with no live symbols, no visited nodes and an empty work list |
| DeadCode.Liveness.MarkLive | src/transformers/deadCodeElimination.ts:95-99 | `markLive` adds the node to the visited set and enqueues it only the first time it is seen |
| DeadCode.Liveness.MarkChildren | src/transformers/deadCodeElimination.ts:189-201 | marking a node's children visits exactly the children that are not skipped, keeping the queue's prefix |
| DeadCode.Liveness.MarkUnlessSkipped | src/transformers/deadCodeElimination.ts:190-193 | a child skipped in a block is left alone; any other child is marked |
| DeadCode.Liveness.MarkSymbolLive | src/transformers/deadCodeElimination.ts:162-170 | a symbol becomes live, and the first time only, all its declarations are marked |
| DeadCode.Liveness.RootVisitor | src/transformers/deadCodeElimination.ts:136-160 | the root visitor marks exactly the roots of its node: the file's children, `main`'s symbol, an impure let initializer, any other statement; it marks nothing a closed result would not hold |
| DeadCode.Liveness.VisitRoots | src/transformers/deadCodeElimination.ts:138 | visiting a list of children marks the roots of every child and stays inside every closed result |
| DeadCode.Liveness.VisitRoot | src/transformers/deadCodeElimination.ts:138 | one turn of the root visit adds the roots of the next child and keeps those of the earlier ones |
| DeadCode.AnalyzeLiveness | src/transformers/deadCodeElimination.ts:90-206 | `analyzeLiveness` returns the least symbol set closed under the marking rules: a symbol is live exactly when the rules force it |
| DeadCode.MarkRoots | src/transformers/deadCodeElimination.ts:172 | after the root pass every root node is marked and every root symbol is live |
| DeadCode.Propagate | src/transformers/deadCodeElimination.ts:174-203 | when the work list is exhausted the marked nodes and live symbols are closed under the rules |
| DeadCode.Turn | src/transformers/deadCodeElimination.ts:175-203 | processing the item at `head` makes its successors marked and its referenced symbol live, keeping the earlier items' |
| DeadCode.Step | src/transformers/deadCodeElimination.ts:176-202 | processing one work item marks all that it reaches and makes the symbol it names live; nothing marked is lost |
| DeadCode.DeadCodePass.constructor | src/transformers/deadCodeElimination.ts:19 | a fresh pass has not analysed anything yet |
| DeadCode.DeadCodePass.Apply | src/transformers/deadCodeElimination.ts:21-26 | the first source file given triggers the liveness analysis, once; the result is the file swept with the live set |
| DeadCode.UnreachableIsDropped | src/transformers/deadCodeElimination.ts:29-31 | a statement of a reachable block or file whose flow node is unreachable is left out: the swept statements are those before it and those after it, each swept; in a single-child position the original node stays |
| DeadCode.SweptStatements | src/transformers/deadCodeElimination.ts:60-71 | a reachable block or file is swept to one of the same kind holding its statements, swept and filtered in order |
| DeadCode.Sweep | src/transformers/deadCodeElimination.ts:28-72 | the sweep visitor removes only unreachable nodes, function declarations, `let` statements and `if` statements, and a replacement of any other node keeps its kind, position and identity; UnreachableIsDropped, UnusedFunctionIsDropped, UnusedLetIsRemoved and ConstantIfCollapses state each case |
| DeadCode.Collapse | src/transformers/deadCodeElimination.ts:62-69 | only an `if` is changed: into its then branch, its else branch, or nothing when it has no else branch |
| DeadCode.Swept | src/transformers/deadCodeElimination.ts:21-26 | the file the pass returns keeps the file's kind, position and identity; SweptFile states its statements |
| DeadCode.StatementAfterReturnIsSwept | src/transformers/deadCodeElimination.ts:29-31 | after binding, the statement right after a `return` in a block or file is unreachable, and the sweep of a reachable block or file leaves it out |
| DeadCode.UnusedFunctionIsDropped | src/transformers/deadCodeElimination.ts:33-38 | a reachable function is dropped exactly when its symbol is unused and it is not `main`; otherwise it keeps its shell |
| DeadCode.UnusedLetIsRemoved | src/transformers/deadCodeElimination.ts:39-57 | the sweep never loses an effect: an unused let it removes has no initializer or one that cannot have an effect, and an initializer that may have an effect stays, unchanged, as an expression statement at the let's position |
| DeadCode.ConstantIfCollapses | src/transformers/deadCodeElimination.ts:60-69 | after its children are swept, `if (true)` becomes its then branch and `if (false)` its else branch or nothing |
| DeadCode.ExpressionKeepsKind | src/transformers/deadCodeElimination.ts:60-71 | a `true`/`false` leaf comes out of the sweep with the same kind |
| DeadCode.SweptFile | src/transformers/deadCodeElimination.ts:25 | the swept file's statements are the swept top-level statements in order, with the dropped ones left out |
| DeadCode.OnlyFunctionsNothingLive | src/transformers/deadCodeElimination.ts:136-160 | a file made only of functions other than `main` has no roots, so nothing is live |
| DeadCode.UncalledFunctionsAreRemoved | src/transformers/deadCodeElimination.ts:17-74 | in a file of functions nobody calls, none named `main`, the pass removes every statement |
| DeadCode.AllDropped | src/transformer.ts:204-215 | a list whose every element the visitor drops filters to the empty list |
| Rename.Letter | src/transformers/renameIdentifiers.ts:57-60 | the character `chars[d]` is the lower-case letter `d` places after `a` |
| Rename.Name | src/transformers/renameIdentifiers.ts:56-64 | a generated name is a non-empty word of lower-case letters whose last letter is `index % 26` |
| Rename.IndexOfName | src/transformers/renameIdentifiers.ts:56-64 | reading a generated name back as a bijective base-26 numeral gives its index |
| Rename.NameOfIndex | src/transformers/renameIdentifiers.ts:56-64 | every lower-case word is the generated name of its own numeral value |
| Rename.NameOfDigits | src/transformers/renameIdentifiers.ts:59-62 | the name of `(q + 1) * 26 + d` is the name of `q` followed by letter `d` |
| Rename.NamesAreDistinct | src/transformers/renameIdentifiers.ts:56-64 | different counters give different names |
| Rename.EveryWordIsAName | src/transformers/renameIdentifiers.ts:56-64 | the names cover every non-empty lower-case word |
| Rename.NameExamples | src/transformers/renameIdentifiers.ts:56-64 | the sequence runs `a` … `z`, `aa`, `ab` … `zz`, `aaa` |
| Rename.NameStep | src/transformers/renameIdentifiers.ts:59-62 | one round of the do-while loop produces the last letter in front of what the remaining index names |
| Rename.GetName | src/transformers/renameIdentifiers.ts:56-64 | the do-while loop of `getName` returns exactly the name of the index |
| Rename.PrependStep | src/transformers/renameIdentifiers.ts:59-62 | prepending the letter of `i` keeps the loop's invariant: the name of the index is the name of what is left followed by what has been built |
| Rename.NameSymbols | src/transformers/renameIdentifiers.ts:17-22 | the naming loop names every symbol of the scope, keeps every earlier name, adds no other symbol and never lowers the counter |
| Rename.NameSymbolsSnoc | src/transformers/renameIdentifiers.ts:18-21 | a symbol already named is skipped; a new one gets the name of the counter, which then goes up by one |
| Rename.NamingKeepsNamesDistinct | src/transformers/renameIdentifiers.ts:17-22 | after the naming loop no two symbols share a new name, and every new name is below the counter |
| Rename.Entered | src/transformers/renameIdentifiers.ts:14-23 | entering a node with `locals` pushes its scope and gives every symbol in it a name, keeping the earlier names |
| Rename.Exited | src/transformers/renameIdentifiers.ts:47-49 | leaving pops the top scope and keeps the names and the counter |
| Rename.Find | src/transformers/renameIdentifiers.ts:30-35 | the search finds a symbol exactly when some stacked scope has the text, and then it is that of the innermost such scope |
| Rename.FindStep | src/transformers/renameIdentifiers.ts:30-35 | a scope is looked at before every scope below it |
| Rename.VisitKeepsState | src/transformers/renameIdentifiers.ts:13-52 | one visitor call leaves the stack as it found it, only adds names, and keeps them distinct |
| Rename.NewText | src/transformers/renameIdentifiers.ts:25-42 | an identifier's text changes only when a stacked scope binds it, and then to a name the pass assigned; IdentifierTakesNewName states which one |
| Rename.RenameVisit | src/transformers/renameIdentifiers.ts:13-52 | the visitor never removes a node; an identifier is replaced only by an identifier with another text, one of the assigned names, and a replacement of any other node keeps its kind, position and identity; VisitKeepsState states the state it leaves |
| Rename.Renamed | src/transformers/renameIdentifiers.ts:54 | a run returns an identifier for an identifier, and otherwise a node with the root's kind, position and identity; RunNamesDistinctly states the names it hands out |
| Rename.RunNamesDistinctly | src/transformers/renameIdentifiers.ts:7-54 | after a run every symbol that got a name has its own distinct word, and the scope stack is empty again |
| Rename.IdentifierTakesNewName | src/transformers/renameIdentifiers.ts:25-45 | an identifier comes out spelled with the new name of the symbol its innermost stacked scope binds, or unchanged when no scope has its text; the state is untouched |
| Rename.UndescendedKindsAreKept | src/transformers/renameIdentifiers.ts:45 | kinds `visitEachChild` has no case for, such as calls and member accesses, come back unchanged with every identifier under them |
| Rename.Renamer.constructor | src/transformers/renameIdentifiers.ts:8-11 | a run starts with an empty map, a zero counter and an empty stack |
| Rename.Renamer.EnterScope | src/transformers/renameIdentifiers.ts:14-23 | the push and the naming loop leave the state `Entered` describes |
| Rename.Renamer.NameSymbol | src/transformers/renameIdentifiers.ts:18-21 | a symbol not yet named gets `getName(nameCounter++)`; a named one changes nothing |
| Rename.Renamer.Lookup | src/transformers/renameIdentifiers.ts:28-35 | the downward `for` loop returns the innermost scope's symbol for the text |
| Rename.Renamer.ExitScope | src/transformers/renameIdentifiers.ts:47-49 | the pop leaves the state `Exited` describes |
| Minifier.CreateMinifierTransformers | src/minifier.ts:8-14 | the minifier supplies three passes of its own (folding, dead-code elimination, renaming) and no plugin |
| Minifier.Transformers | src/compiler.ts:39-45 | the pass list holds the plugins at its end, the minifier's passes before them exactly when minifying, and no minifier pass after a plugin |
| Minifier.LiveSet | src/transformers/deadCodeElimination.ts:90-206 | the live set chosen for a file is one the analysis computes |
| Minifier.SweepUsesTheLiveSet | src/transformers/deadCodeElimination.ts:21-26 | the dead-code pass on a source file sweeps with that file's live set, whichever least closed set is named |
| Minifier.RunPass | src/transformer.ts:40-43 | one pass, built fresh from its factory, maps the file to the pass's output; nothing else affects it |
| Minifier.PassOutput | src/transformer.ts:40-43 | a pass gives no file only when it is dead-code elimination on a source file, the case where the file has no live set; SweepUsesTheLiveSet and MinifiedHasLiveSet show that a successful analysis rules this out |
| Minifier.Run | src/transformer.ts:38-45 | a run can fail only if its pass list holds the dead-code pass; RunConcat, RunSnoc and RunThree state how the passes compose |
| Minifier.Transform | src/transformer.ts:32-46 | `transform` threads the file through the passes in list order |
| Minifier.RunConcat | src/transformer.ts:38-45 | running two pass lists back to back is running the first, then the second on what the first left |
| Minifier.RunSnoc | src/transformer.ts:40-43 | a further pass runs on the output of the ones before it |
| Minifier.RunThree | src/transformer.ts:38-45 | three passes run one after the other |
| Minifier.MinifyComposes | src/minifier.ts:8-14 | minifying renames what the sweep leaves of the folded file |
| Minifier.MinifiedHasLiveSet | src/transformers/deadCodeElimination.ts:21-26 | a minifier run that succeeds analysed the folded file |
| Minifier.PluginsRunOnMinifiedFile | src/compiler.ts:43-47 | with `minify` on, the plugins see the minified file |
| Minifier.Functions | src/compiler.ts:39 | the plugin list keeps the plugins' functions in their order |
| Minifier.PluginsOnlyIsTransform | src/transformer.ts:32-46 | running only plugins is the generic `transform` over their functions |
| Minifier.WithoutMinifyOnlyPlugins | src/compiler.ts:39-45 | without `minify` the pass list is exactly the plugins |
| Minifier.FoldedFunction | src/transformers/constantFolding.ts:8-11 | folding keeps a function declaration's kind, identity and name |
| Minifier.UncalledFunctionsMinifyToNothing | src/minifier.ts:8-14 | minifying a file made only of functions nobody calls, none named `main`, leaves an empty source file |
| Minifier.UncalledFunctionsSweepToNothing | src/transformers/deadCodeElimination.ts:33-38 | the sweep of such a folded file keeps none of its functions |
| Minifier.FoldedStatement | src/transformers/constantFolding.ts:8-11 | folding keeps the number of top-level statements and each function statement's identity, name and parent |
| Minifier.RenamingKeepsEmptyFile | src/transformers/renameIdentifiers.ts:13-54 | renaming returns an empty file as it is |
| SourceMap.Base64Encode | src/sourcemap.ts:80-83 | a digit value is written as a Base64 character, never as a separator `;` or `,` |
| SourceMap.Base64RoundTrip | src/sourcemap.ts:80-83 | every digit value 0..63 reads back from its character, so the alphabet has no repeats |
| SourceMap.Fold | src/sourcemap.ts:66-70 | the sign-folded value, read as unsigned by `>>>`, is below 2^32 |
| SourceMap.FoldRoundTrip | src/sourcemap.ts:66 | for values whose shift fits in 32 bits, the low bit is the sign and the rest the magnitude, so folding is undone |
| SourceMap.VlqDigits | src/sourcemap.ts:68-75 | the do-while loop writes at least one character |
| SourceMap.Vlq | src/sourcemap.ts:64-78 | `vlqEncode` writes at least one character |
| SourceMap.VlqEncode | src/sourcemap.ts:64-78 | the do-while loop returns the Base64 VLQ text of the value: 5-bit groups, least significant first, continuation bit on all but the last |
| SourceMap.DecodeOne | src/sourcemap.ts:64-78 | reading one VLQ number consumes at least one and at most all of the characters |
| SourceMap.DecodeDigits | src/sourcemap.ts:68-75 | the VLQ digits of a value read back as that value, consuming exactly them, whatever follows |
| SourceMap.VlqRoundTrip | src/sourcemap.ts:64-78 | `vlqEncode` is undone by Base64 VLQ decoding for values within the 32-bit shift range |
| SourceMap.DecodeRun | src/sourcemap.ts:37-44 | numbers written one after another decode back to the same numbers |
| SourceMap.DigitsHaveNoSeparator | src/sourcemap.ts:64-83 | no VLQ text holds `;` or `,` |
| SourceMap.RunHasNoSeparator | src/sourcemap.ts:37-44 | a segment's text holds no `;` or `,` |
| SourceMap.Semicolons | src/sourcemap.ts:25 | `';'.repeat(k)` is exactly `k` semicolons |
| SourceMap.LineAdvance | src/sourcemap.ts:24-27 | moving `k` lines down appends exactly `k` semicolons, measures the column from 0, and records the new line |
| SourceMap.SameLine | src/sourcemap.ts:28-32 | on the same line a `,` is written exactly when a segment precedes on that line, and the column is a delta from the last one |
| SourceMap.AddKeepsCommas | src/sourcemap.ts:16-52 | `addMapping` keeps every `,` between two segments of one line |
| SourceMap.SegmentDecodes | src/sourcemap.ts:32-46 | the segment written for a mapping reads back as its deltas when they are in range |
| SourceMap.RunOfSegment | src/sourcemap.ts:37-44 | a segment is four or five VLQ numbers in the order column, source, line, original column, name |
| SourceMap.EncodeSegment | src/sourcemap.ts:37-44 | the `vlqEncode` calls write the four deltas and, only when a name is given, the name delta |
| SourceMap.Generator.constructor | src/sourcemap.ts:1-15 | a generator starts with empty mappings, line 1 and every other baseline 0 |
| SourceMap.Generator.AddMapping | src/sourcemap.ts:16-52 | `addMapping` writes the separator, then the deltas as VLQ, then moves the baselines to the mapping |
| SourceMap.Generator.ToString | src/sourcemap.ts:54-62 | the map's fields: version 3, the file, the file as its one source, no names, the mappings |
| Emitter.Spaces | src/emitter.ts:96 | `'  '.repeat(level)` is exactly two spaces per level |
| Emitter.BlockStatements | src/emitter.ts:147-158 | the statements printed for a block all lie inside it |
| Emitter.AdvanceAppend | src/emitter.ts:76-83 | writing two texts one after the other moves the position as writing them joined does |
| Emitter.PositionIsAdvance | src/emitter.ts:70-84 | the tracked line and column are those reached by reading the whole output from line 1, column 0 |
| Emitter.Move | src/emitter.ts:76-83 | the character loop of `write` counts a newline as the start of the next line at column 0 and anything else as one column |
| Emitter.Printer.constructor | src/emitter.ts:37-51 | a printer starts with empty output at line 1, column 0, level 0, and has a source map generator exactly when `sourceMap` is set and the file name is not empty |
| Emitter.Printer.Write | src/emitter.ts:70-84 | `write` appends the text, moves the position over it, and adds a mapping at the old position exactly when a node with a non-negative position is given; after an exception it writes nothing |
| Emitter.Append | src/emitter.ts:70-84 | a write adds its text to the output unless an exception has stopped the print |
| Emitter.Fail | src/emitter.ts:372 | an exception stops the print and keeps the output and position it had |
| Emitter.Operator | src/emitter.ts:333-362 | the corrected `getOperator`: `?` for exactly the kinds the `switch` does not name other than `--`, and a spelling of one or two characters |
| Emitter.OperatorAsWritten | src/emitter.ts:333-362 | `getOperator` as written, which the printer uses: `?` for exactly the kinds the `switch` does not name, `--` among them; the named kinds spell as in the correction |
| Emitter.LiteralTextAsWritten | src/emitter.ts:368-374 | `printLiteral` as written, which the printer uses: it throws exactly on a token that is not a string; a string prints in double quotes, a literal with text as its text |
| Emitter.LiteralText | src/emitter.ts:368-374 | the corrected `printLiteral`: the same text wherever the code does not throw, and the keyword for a `true`/`false` token |
| Emitter.Printer.WriteIndent | src/emitter.ts:94-98 | the indentation is two spaces per level, and nothing when minifying |
| Emitter.Printer.Indent | src/emitter.ts:86-88 | the level goes up by one and nothing is written |
| Emitter.Printer.Dedent | src/emitter.ts:90-92 | the level goes down by one and nothing is written |
| Emitter.Printer.WriteWhen | src/emitter.ts:188 | the text is written exactly when the condition holds |
| Emitter.Printer.PrintFile | src/emitter.ts:53-64 | `printFile` starts output, position and level over, returns the text of the file's statements in order, or nothing when printing threw, and the source map holds one mapping per mapped write on top of what it had |
| Emitter.Printer.GetSourceMap | src/emitter.ts:66-68 | with a generator, the map's fields; without one, nothing |
| Emitter.Printer.PrintStatement | src/emitter.ts:100-145 | a statement prints as its indentation, its kind's text, and its terminator, keeping output, position and source map in step |
| Emitter.Printer.PrintStatementKind | src/emitter.ts:103-127 | each statement kind prints by its own case; a kind without a case prints nothing |
| Emitter.Printer.PrintControlFlow | src/emitter.ts:112-120 | `if`, `while` and `for` print by their own functions |
| Emitter.Printer.PrintTerminator | src/emitter.ts:128-144 | `;` and a newline after every kind but blocks, `if`, functions, `while` and `for`; when minifying, `;` after expression, variable and `return` statements only |
| Emitter.Printer.PrintStatements | src/emitter.ts:59-61 | the statements print one after another, in order |
| Emitter.Printer.PrintBody | src/emitter.ts:226-230 | a block body prints as a block, anything else as a statement |
| Emitter.Printer.PrintBlock | src/emitter.ts:147-158 | a block prints its statements one level deeper between braces, and the level is restored |
| Emitter.Printer.PrintVariableStatement | src/emitter.ts:160-163 | `let`, a space, then the declaration |
| Emitter.Printer.PrintVariableDeclaration | src/emitter.ts:165-171 | the name, then ` = ` (`=` when minifying) and the initializer when there is one |
| Emitter.Printer.PrintFunctionDeclaration | src/emitter.ts:173-184 | `function`, the name, the parameters in parentheses, then the body as a block |
| Emitter.Printer.PrintParameters | src/emitter.ts:177-180 | each parameter's name, with a comma between consecutive ones |
| Emitter.Printer.PrintIfStatement | src/emitter.ts:186-217 | `if`, the condition in parentheses, the then branch, then the else part |
| Emitter.Printer.PrintElse | src/emitter.ts:200-216 | nothing without an else branch; `else` then an `if` continuing on the same line, or the branch as a body |
| Emitter.Printer.PrintWhileStatement | src/emitter.ts:219-231 | `while`, the condition in parentheses, the body |
| Emitter.Printer.PrintForStatement | src/emitter.ts:233-262 | `for`, the three clauses separated by `;` in parentheses, the body |
| Emitter.Printer.PrintForInitializer | src/emitter.ts:237-244 | a variable initializer prints as `let` and its declaration, an expression as itself, a missing one as nothing |
| Emitter.Printer.PrintForClause | src/emitter.ts:246-254 | the condition or incrementor, after a space unless minifying, or nothing when absent |
| Emitter.Printer.PrintReturnStatement | src/emitter.ts:264-270 | `return`, then a space and the value when there is one |
| Emitter.Printer.PrintExpressionStatement | src/emitter.ts:272-274 | the expression alone |
| Emitter.Printer.PrintExpression | src/emitter.ts:276-315 | each expression kind prints by its own case; a kind without a case prints nothing |
| Emitter.Printer.PrintOperation | src/emitter.ts:278-310 | binary, assignment, prefix and postfix expressions print by their own functions |
| Emitter.Printer.PrintCompound | src/emitter.ts:293-313 | calls, array and object literals, property and element access print by their own functions; anything else prints nothing |
| Emitter.Printer.PrintListExpression | src/emitter.ts:293-301 | calls, array literals and object literals print by their own functions |
| Emitter.Printer.PrintBinaryExpression | src/emitter.ts:317-325 | the left operand, the operator as `getOperator` spells it (spaced unless minifying), the right operand |
| Emitter.Printer.PrintAssignmentExpression | src/emitter.ts:327-331 | the target, `=` (spaced unless minifying), the value |
| Emitter.Printer.PrintIdentifier | src/emitter.ts:364-366 | the identifier's text, mapped to its node |
| Emitter.Printer.PrintLiteral | src/emitter.ts:368-374 | a string literal prints its value in double quotes, any other literal its text or, when empty, its value; a token of any other kind throws, and the print stops there |
| Emitter.Printer.Throw | src/emitter.ts:372 | an exception stops the print: the output, position and source map stay as they were, and every later write is dropped |
| Emitter.Printer.PrintCallExpression | src/emitter.ts:376-384 | the callee, then the arguments in parentheses separated by commas |
| Emitter.Printer.PrintArrayLiteral | src/emitter.ts:386-393 | the elements in brackets separated by commas |
| Emitter.Printer.PrintObjectLiteral | src/emitter.ts:395-404 | the properties in braces separated by commas, with a space inside each brace unless there are none, minifying or not |
| Emitter.Printer.PrintPropertyAssignment | src/emitter.ts:406-414 | the name, `:` and a space unless minifying, then the value |
| Emitter.Printer.PrintPropertyAccess | src/emitter.ts:416-420 | the object, `.`, the name |
| Emitter.Printer.PrintElementAccess | src/emitter.ts:422-427 | the object, then the index in brackets |
| Emitter.Printer.PrintPrefixUnary | src/emitter.ts:429-432 | the operator as `getOperator` spells it, then the operand |
| Emitter.Printer.PrintPostfixUnary | src/emitter.ts:434-437 | the operand, then the operator as `getOperator` spells it, so `--` prints as `?` |
| EmitterFacts.AdvanceCounts | src/emitter.ts:76-83 | the line after a write is the line before plus its newlines; a text ending in a newline leaves column 0; a text without one moves the column by its length |
| EmitterFacts.LineCountsNewlines | src/emitter.ts:40-41 | the printer's `line` is one more than the number of newlines in its output |
| EmitterFacts.StatementEndsLine | src/emitter.ts:100-145 | not minified, every statement that prints without throwing ends its line, so the next one starts at column 0 |
| EmitterFacts.BodyEndsLine | src/emitter.ts:226-230 | not minified, a body that prints without throwing ends its line, block or single statement |
| EmitterFacts.IfEndsLine | src/emitter.ts:186-217 | not minified, an `if` that prints without throwing ends its line with its then body or its else part |
| EmitterFacts.EndsLineAtColumnZero | src/emitter.ts:77-79 | after a write ending in a newline the printer is at column 0 |
| EmitterFacts.StatementLevelFree | src/emitter.ts:94-98 | minified, a statement prints the same at every indentation level |
| EmitterFacts.KindLevelFree | src/emitter.ts:102-127 | minified, each statement kind prints the same at every level |
| EmitterFacts.BodyLevelFree | src/emitter.ts:226-230 | minified, a body prints the same at every level |
| EmitterFacts.BlockLevelFree | src/emitter.ts:147-158 | minified, a block prints the same at every level |
| EmitterFacts.StatementsLevelFree | src/emitter.ts:151-153 | minified, a statement list prints the same at every level |
| EmitterFacts.IfLevelFree | src/emitter.ts:186-217 | minified, an `if` prints the same at every level |
| EmitterFacts.ReplayUnmapped | src/emitter.ts:71-73 | writes that name no node with a source position add nothing to the source map |
| EmitterFacts.ReplayFollowsPrinter | src/emitter.ts:70-84 | the source map never runs ahead of the printer: its last generated line is at most the current line, and every `,` stays between two segments of a line |
| EmitterFacts.OperatorScansBack | src/emitter.ts:333-362 | the spelling of every operator the scanner produces scans back as that operator |
| EmitterFacts.DecrementPrintsAsQuestion | src/emitter.ts:333-362 | as written, `getOperator` spells `--` as `?`, which scans back as a question-mark token |
| EmitterFacts.FoldedComparisonThrows | src/emitter.ts:368-374 | as written, `printLiteral` on the `true`/`false` token folding makes of a number comparison finds neither text nor value and throws, so the print stops with the output it had |
| EmitterFacts.FoldedComparisonPrints | src/emitter.ts:368-374 | corrected, the folded comparison prints as the keyword of its truth value, which scans back as the same token |
| EmitterFacts.ExampleEndsAreNextTokens | src/parser.ts:298-309 | the ends of the identifiers and literals in the example trees are the positions of the tokens the scanner reads after them, as the parser sets them |
| EmitterFacts.PrintLetExample | src/emitter.ts:160-171 | `let a = 1;` prints back as written |
| EmitterFacts.PrintLetMinified | src/emitter.ts:160-171 | minified, `let a = 1;` prints as `let a=1;` |
| EmitterFacts.PrintSumExample | src/emitter.ts:317-325 | `a + b;` prints back as written, and minified as `a+b;` |

## Left out

- Floating point: numbers are unbounded integers. `NaN`, `Infinity`, fractions and the 2^53 limit of JavaScript numbers are not modelled.
- ConstantFolding.FoldNumericSound: `/` counts as computed only when it is exact, as for `FoldNumericPair` below.
- ConstantFolding.FoldNumericPair: `/` folds only when the divisor is non-zero and divides exactly. The code also folds other divisions to a fractional number or `Infinity`, which integers cannot hold.
- Parsing.Parser.ParsePrimaryExpression: `parseFloat` of a numeric token is read as its digits. The `NaN` that `parseFloat` gives for a token that is not a run of digits is read as 0, which the scanner never produces.
- Numbers.NumberToString: `toString` of a number is its decimal digits, with a `-` for a negative value. The exponent and fraction forms of JavaScript are not modelled.
- The text as `seq<char>`: `codePointAt` and `charCodeAt` read UTF-16 code units. The model reads one character per position and does not handle surrogate pairs.
- Error messages: scanner errors keep their message. Parser errors keep their kind, their tokens and their position, but not the message text. Errors that the code throws are returned as `Result`/`Option` values.
- SourceMap.Generator.ToString: the model returns the fields of the map, not the JSON text `JSON.stringify` makes of them.
- SourceMap.FoldRoundTrip: holds only for values within the 32-bit shift range. Outside it the source's `<<` wraps around, and `Fold` models that wrap-around explicitly.
- DeadCode.AnalyzeLiveness: `visitedNodes` and `liveSymbols` are sets of node values and symbol indices, not object references. Distinct nodes with equal values are only synthetic leaves, and processing those marks nothing.
- Emitter.Printer.Dedent: requires a level above 0. The code decrements unconditionally, but every `dedent` follows an `indent`.
- Emitter.Printer.PrintIdentifier: a node without a `text` field prints as the empty text. The code would fail on such a node, but in trees the parser or the factory build only identifiers reach this function.
- Emitter.LiteralText: a numeric token, which no pass creates, prints as the empty text.
- Emitter.Printer.Throw: the exception is a flag after which every write does nothing, and the print methods return normally. A `dedent` after the throw still runs, where the code leaves the level raised until the next `printFile` resets it.
- EmitterFacts.StatementEndsLine: requires that the bodies of statements are nodes of their own kind, not bare tokens claiming a statement kind. This holds for every tree the parser and the factory build.
- EmitterFacts.OperatorScansBack: covers the operators the scanner produces. `!=` is left out because the scanner has no `!`.
- EmitterFacts.PrintLetExample: the print examples start from the tree the parser builds, written out by hand. Its identifier and literal ends are checked against the scanner (`ExampleEndsAreNextTokens`). The parse half of parse-then-print is not stated as one lemma.
- Rename.VisitKeepsState: requires that identifiers carry no `locals`. The binder gives scopes only to files, functions, blocks and loops. The code returns early for an identifier without popping a scope it might have pushed.
- Transformer.VisitEachChild: the per-kind cases are grouped into declarations, statements and expressions, each with its own lemmas. The grouping changes nothing in the outcome.
- src/compiler.ts is not part of this model beyond its pass ordering: reading files, `console.log`, and the diagnostic rendering of `report` are I/O.
- Object identity: `===` between nodes is modelled by `Visit.Keep` and by node ids. Reference equality of values is not proved.

## Findings

The printer follows the code as written. The corrected spellings are
`Emitter.Operator` and `Emitter.LiteralText`, and the corrected members below state
their intended property.

| source | as written | input that shows it | evidently intended | confidence | as-written member | corrected member |
|---|---|---|---|---|---|---|
| src/emitter.ts:333-362 | `getOperator` has no case for `MinusMinusToken` and falls to `?` | `x--;` prints as `x?;`, and the `?` scans back as a question-mark token | `--` prints as `--`, like every other operator the scanner produces | not executed | EmitterFacts.DecrementPrintsAsQuestion | EmitterFacts.OperatorScansBack |
| src/emitter.ts:368-374 | `printLiteral` writes `node.text \|\| node.value.toString()`, but constant folding turns `>` and `<` on two numbers into a `true`/`false` token with neither field (src/transformers/constantFolding.ts:34-45) | `2 > 1;` with `minify` on throws in the printer instead of printing `true;` | the folded comparison prints as its keyword | not executed | EmitterFacts.FoldedComparisonThrows | EmitterFacts.FoldedComparisonPrints |
