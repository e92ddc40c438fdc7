/**
 * The printer (src/emitter.ts): turns a syntax tree back into source text, with or
 * without the spaces, newlines and indentation of the readable form, and records a
 * source-map mapping for every write that names a node with a source position.
 * An exception thrown while printing (`printLiteral` on a token without a value)
 * ends the print: `Threw` marks it, and no write follows it.
 *
 * Every `write(text, node?)` the printer makes is a `Piece`: its text and whether it
 * asks for a mapping. The functions `StatementOut`, `ExprOut` and their companions
 * list the pieces a print call appends, in the order the printer writes them; the
 * methods of `Printer` are proved to append exactly those pieces, so the output text
 * is `Flatten` of them, the line and column are `Advance` over that text, and the
 * source map has one mapping per mapped piece at the position it starts (`Replay`).
 */
module Emitter {
  import opened Ast
  import Numbers
  import SourceMap

  /** `PrinterOptions`; an absent `sourceMap` or `minify` is `false`. */
  datatype PrinterOptions = PrinterOptions(filename: Option<string>, sourceMap: bool, minify: bool)

  /** One `write(text, node?)`: the text, and whether a node with `pos >= 0` was passed. */
  datatype Piece = Piece(text: string, mapped: bool)

  /** The writes made so far, the most recent last; `Threw` when printing stopped with an exception. */
  datatype Trace = Start | Then(before: Trace, last: Piece) | Threw(before: Trace)

  /* ---------------- text, position and source map of a list of writes ---------------- */

  /** The text of the writes, one after another. */
  function Flatten(w: Trace): string {
    match w
    case Start => ""
    case Then(before, p) => Flatten(before) + p.text
    case Threw(before) => Flatten(before)
  }

  /** The line and column after one character: a newline starts the next line at column 0. */
  function Step(p: (nat, nat), ch: char): (nat, nat) {
    if ch == '\n' then (p.0 + 1, 0) else (p.0, p.1 + 1)
  }

  /** The line and column after writing `s` from `p`, character by character. */
  function Advance(p: (nat, nat), s: string): (nat, nat) {
    if s == [] then p else Step(Advance(p, s[..|s| - 1]), s[|s| - 1])
  }

  /** The number of newlines in `s`. */
  function Newlines(s: string): nat {
    if s == [] then 0 else Newlines(s[..|s| - 1]) + (if s[|s| - 1] == '\n' then 1 else 0)
  }

  /** The line and column after the writes `w`, each write moving on from where the one before left off. */
  function Position(w: Trace): (nat, nat) {
    match w
    case Start => (1, 0)
    case Then(before, p) => Advance(Position(before), p.text)
    case Threw(before) => Position(before)
  }

  /** The mapping `write` adds at a generated position: original line 1, column 0, source 0, no name. */
  function MappingAt(p: (nat, nat)): SourceMap.Mapping {
    SourceMap.Mapping(p.0, p.1, 1, 0, 0, None)
  }

  /** The generator's state after the writes `w`, starting from `base`: one mapping per mapped write. */
  function Replay(base: SourceMap.GenState, w: Trace): SourceMap.GenState {
    match w
    case Start => base
    case Then(before, p) =>
      var g := Replay(base, before);
      if p.mapped then SourceMap.AddSpec(g, MappingAt(Position(before))) else g
    case Threw(before) => Replay(base, before)
  }

  /* ---------------- what each print function writes ---------------- */

  /** One write, unless an exception has already stopped the print. */
  function Append(w: Trace, p: Piece): (r: Trace)
    ensures r.Threw? == w.Threw?
    ensures Flatten(r) == Flatten(w) + (if w.Threw? then "" else p.text)
  {
    if w.Threw? then w else Then(w, p)
  }

  /** An exception: the print stops where it is. */
  function Fail(w: Trace): (r: Trace)
    ensures r.Threw? && Flatten(r) == Flatten(w) && Position(r) == Position(w)
  {
    if w.Threw? then w else Threw(w)
  }

  /** `write(text)`. */
  function Put(w: Trace, text: string): Trace {
    Append(w, Piece(text, false))
  }

  /** `write(text, node)`. */
  function PutAt(w: Trace, text: string, node: Node): Trace {
    Append(w, Piece(text, node.pos >= 0))
  }

  /** `if (c) write(text)`. */
  function PutIf(c: bool, w: Trace, text: string): Trace {
    if c then Put(w, text) else w
  }

  /** The separator between list items. */
  function Comma(minify: bool): string {
    if minify then "," else ", "
  }

  /** `'  '.repeat(level)`. */
  function Spaces(level: nat): (s: string)
    ensures |s| == 2 * level && forall i :: 0 <= i < |s| ==> s[i] == ' '
  {
    if level == 0 then "" else Spaces(level - 1) + "  "
  }

  /** `writeIndent`: nothing when minifying. */
  function IndentOut(minify: bool, level: nat, w: Trace): Trace {
    PutIf(!minify, w, Spaces(level))
  }

  /** The kinds the `switch` of `getOperator` names. */
  predicate GetOperatorCase(kind: SyntaxKind) {
    kind == SyntaxKind.PlusToken || kind == SyntaxKind.MinusToken || kind == SyntaxKind.AsteriskToken
    || kind == SyntaxKind.SlashToken || kind == SyntaxKind.EqualsToken || kind == SyntaxKind.EqualsEqualsToken
    || kind == SyntaxKind.ExclamationEqualsToken || kind == SyntaxKind.LessThanToken
    || kind == SyntaxKind.LessThanEqualsToken || kind == SyntaxKind.GreaterThanToken
    || kind == SyntaxKind.GreaterThanEqualsToken || kind == SyntaxKind.PlusPlusToken
  }

  /**
   * `getOperator`, with the decrement operator added: every operator token the
   * scanner produces has its own spelling of one or two characters; anything else is `?`.
   */
  function Operator(kind: SyntaxKind): (r: string)
    ensures r == "?" <==> !GetOperatorCase(kind) && kind != SyntaxKind.MinusMinusToken
    ensures 1 <= |r| <= 2
  {
    if kind == SyntaxKind.PlusToken then "+"
    else if kind == SyntaxKind.MinusToken then "-"
    else if kind == SyntaxKind.AsteriskToken then "*"
    else if kind == SyntaxKind.SlashToken then "/"
    else if kind == SyntaxKind.EqualsToken then "="
    else if kind == SyntaxKind.EqualsEqualsToken then "=="
    else if kind == SyntaxKind.ExclamationEqualsToken then "!="
    else if kind == SyntaxKind.LessThanToken then "<"
    else if kind == SyntaxKind.LessThanEqualsToken then "<="
    else if kind == SyntaxKind.GreaterThanToken then ">"
    else if kind == SyntaxKind.GreaterThanEqualsToken then ">="
    else if kind == SyntaxKind.PlusPlusToken then "++"
    else if kind == SyntaxKind.MinusMinusToken then "--"
    else "?"
  }

  /** `getOperator` as written: the decrement operator falls to the default `?` with every kind the `switch` does not name. */
  function OperatorAsWritten(kind: SyntaxKind): (r: string)
    ensures r == "?" <==> !GetOperatorCase(kind)
    ensures GetOperatorCase(kind) ==> r == Operator(kind)
  {
    if kind == SyntaxKind.MinusMinusToken then "?" else Operator(kind)
  }

  /** `${value}` and `value.toString()`. */
  function ValueText(v: LiteralValue): string {
    match v
    case NumberValue(n) => Numbers.NumberToString(n)
    case StringValue(s) => s
    case BooleanValue(b) => if b then "true" else "false"
  }

  /** The kinds `printExpression` sends to `printLiteral`. */
  predicate IsLiteralKind(k: SyntaxKind) {
    k == SyntaxKind.NumericLiteral || k == SyntaxKind.StringLiteral
    || k == SyntaxKind.TrueKeyword || k == SyntaxKind.FalseKeyword
  }

  /**
   * `printLiteral` as written: a string literal is its value in double quotes, any
   * other literal its text, or its value when the text is empty. A bare token has
   * neither text nor value: `"${undefined}"` for a string token, and for the others
   * `undefined.toString()`, which throws (`None`).
   */
  function LiteralTextAsWritten(n: Node): (r: Option<string>)
    requires n.Literal? || n.Token?
    ensures r.None? <==> n.Token? && n.tokenKind != SyntaxKind.StringLiteral
    ensures n.Kind() == SyntaxKind.StringLiteral ==> r.Some? && |r.value| >= 2 && r.value[0] == '"' == r.value[|r.value| - 1]
    ensures n.Literal? && n.Kind() != SyntaxKind.StringLiteral && n.text != "" ==> r == Some(n.text)
  {
    if n.Kind() == SyntaxKind.StringLiteral then
      Some("\"" + (if n.Literal? then ValueText(n.value) else "undefined") + "\"")
    else if n.Literal? then Some(if n.text != "" then n.text else ValueText(n.value))
    else None
  }

  /**
   * `printLiteral`, corrected for the `true`/`false` tokens that constant folding
   * makes: they print as their keyword. A numeric token, which nothing makes, prints
   * as the empty text.
   */
  function LiteralText(n: Node): (r: string)
    requires n.Literal? || n.Token?
    ensures LiteralTextAsWritten(n).Some? ==> r == LiteralTextAsWritten(n).value
    ensures n.Token? && n.tokenKind == SyntaxKind.TrueKeyword ==> r == "true"
    ensures n.Token? && n.tokenKind == SyntaxKind.FalseKeyword ==> r == "false"
  {
    if n.Token? && n.tokenKind == SyntaxKind.TrueKeyword then "true"
    else if n.Token? && n.tokenKind == SyntaxKind.FalseKeyword then "false"
    else
      match LiteralTextAsWritten(n)
      case Some(t) => t
      case None => ""
  }

  /** The `text` field `printIdentifier` writes; a node without one writes the empty text. */
  function NameText(n: Node): string {
    if n.Identifier? || n.Literal? || n.SourceFile? then n.text else ""
  }

  /** `printIdentifier(node)`. */
  function IdentOut(n: Node, w: Trace): Trace {
    PutAt(w, NameText(n), n)
  }

  /** `printLiteral(node)`: the text `printLiteral` writes, or the exception it throws. */
  function LiteralOut(n: Node, w: Trace): Trace
    requires n.Literal? || n.Token?
  {
    match LiteralTextAsWritten(n)
    case Some(t) => PutAt(w, t, n)
    case None => Fail(w)
  }

  /** The statements of a block; another node in a block's place has none. */
  function BlockStatements(b: Node): (ss: seq<Node>)
    ensures forall c :: c in ss ==> (b decreases to c)
  {
    if b.Block? then b.statements else []
  }

  /** `printStatement`: the indentation, the statement, then its terminator. */
  function StatementOut(minify: bool, level: nat, s: Node, w: Trace): Trace
    decreases s, 4
  {
    TerminatorOut(minify, s, KindOut(minify, level, s, IndentOut(minify, level, w)))
  }

  /**
   * The terminator `printStatement` writes after the statement: `;\n` after every
   * kind but blocks, `if`, functions, `while` and `for` when not minifying; `;` after
   * expression, variable and `return` statements when minifying.
   */
  function TerminatorOut(minify: bool, s: Node, w: Trace): Trace {
    var k := s.Kind();
    if !minify && k != SyntaxKind.Block && k != SyntaxKind.IfStatement && k != SyntaxKind.FunctionDecl
       && k != SyntaxKind.WhileStatement && k != SyntaxKind.ForStatement then Put(w, ";\n")
    else if minify && (k == SyntaxKind.ExpressionStatement || k == SyntaxKind.VariableStatement
                       || k == SyntaxKind.ReturnStatement) then Put(w, ";")
    else w
  }

  /** The `switch` of `printStatement`: a kind it has no case for writes nothing. */
  function KindOut(minify: bool, level: nat, s: Node, w: Trace): Trace
    decreases s, 3
  {
    match s
    case VariableStatement(_, _, _, _) => VariableStatementOut(minify, s, w)
    case FunctionDecl(_, _, _, _, _, _) => FunctionOut(minify, level, s, w)
    case Block(_, _, _, _) => BlockOut(minify, level, s, w)
    case IfStatement(_, _, _, _, _, _) => IfOut(minify, level, s, w)
    case WhileStatement(_, _, _, _, _) => WhileOut(minify, level, s, w)
    case ForStatement(_, _, _, _, _, _, _) => ForOut(minify, level, s, w)
    case ReturnStatement(_, _, _, _) => ReturnOut(minify, s, w)
    case ExpressionStatement(_, _, _, e) => ExprOut(minify, e, w)
    case _ => w
  }

  /** `printVariableStatement`: `let` and the declaration. */
  function VariableStatementOut(minify: bool, s: Node, w: Trace): Trace
    requires s.VariableStatement?
    decreases s, 2
  {
    VarDeclOut(minify, s.declaration, PutAt(w, "let ", s))
  }

  /** `printFunctionDeclaration`: `function`, the name, the parameters in parentheses, the body as a block. */
  function FunctionOut(minify: bool, level: nat, s: Node, w: Trace): Trace
    requires s.FunctionDecl?
    decreases s, 2
  {
    var w1 := Put(IdentOut(s.name, PutAt(w, "function ", s)), "(");
    var w2 := PutIf(!minify, Put(ParamsOut(minify, s.parameters, |s.parameters|, w1), ")"), " ");
    BlockOut(minify, level, s.body, w2)
  }

  /** `printWhileStatement`: `while`, the condition in parentheses, the body. */
  function WhileOut(minify: bool, level: nat, s: Node, w: Trace): Trace
    requires s.WhileStatement?
    decreases s, 2
  {
    var w1 := Put(PutIf(!minify, PutAt(w, "while", s), " "), "(");
    var w2 := PutIf(!minify, Put(ExprOut(minify, s.expression, w1), ")"), " ");
    BodyOut(minify, level, s.statement, w2)
  }

  /** `printForStatement`: `for`, the three clauses separated by `;` in parentheses, the body. */
  function ForOut(minify: bool, level: nat, s: Node, w: Trace): Trace
    requires s.ForStatement?
    decreases s, 2
  {
    var w1 := Put(PutIf(!minify, PutAt(w, "for", s), " "), "(");
    var w3 := Put(ForInitOut(minify, s, w1), ";");
    var w5 := Put(ForClauseOut(minify, s, s.condition, w3), ";");
    var w6 := ForClauseOut(minify, s, s.incrementor, w5);
    BodyOut(minify, level, s.statement, PutIf(!minify, Put(w6, ")"), " "))
  }

  /** The initializer of a `for`: a variable statement prints as `let` and its declaration. */
  function ForInitOut(minify: bool, s: Node, w: Trace): Trace
    requires s.ForStatement?
    decreases s, 1
  {
    match s.initializer
    case None => w
    case Some(i) =>
      if i.VariableStatement? then VarDeclOut(minify, i.declaration, Put(w, "let ")) else ExprOut(minify, i, w)
  }

  /** The condition or the incrementor of a `for`, after a space when not minifying. */
  function ForClauseOut(minify: bool, ghost s: Node, c: Option<Node>, w: Trace): Trace
    requires c.Some? ==> (s decreases to c.value)
    decreases s, 1
  {
    match c
    case None => w
    case Some(e) => ExprOut(minify, e, PutIf(!minify, w, " "))
  }

  /** `printReturnStatement`: `return`, then a space and the value when there is one. */
  function ReturnOut(minify: bool, s: Node, w: Trace): Trace
    requires s.ReturnStatement?
    decreases s, 2
  {
    var w1 := PutAt(w, "return", s);
    if s.returnValue.Some? then ExprOut(minify, s.returnValue.value, Put(w1, " ")) else w1
  }

  /** The body of `while` and `for`, and the branches of `if`: a block is printed as one, anything else as a statement. */
  function BodyOut(minify: bool, level: nat, body: Node, w: Trace): Trace
    decreases body, 5
  {
    if body.Block? then BlockOut(minify, level, body, w) else StatementOut(minify, level, body, w)
  }

  /** `printBlock`: the statements one level deeper, between braces. */
  function BlockOut(minify: bool, level: nat, b: Node, w: Trace): Trace
    decreases b, 1
  {
    var ss := BlockStatements(b);
    var w1 := PutIf(!minify, Put(w, "{"), "\n");
    var w2 := StatementsOut(minify, level + 1, b, ss, |ss|, w1);
    PutIf(!minify, Put(IndentOut(minify, level, w2), "}"), "\n")
  }

  /** The first `n` statements of `ss`, each by `printStatement`. */
  function StatementsOut(minify: bool, level: nat, ghost owner: Node, ss: seq<Node>, n: nat, w: Trace): Trace
    requires n <= |ss| && forall c :: c in ss ==> (owner decreases to c)
    decreases owner, 0, n
  {
    if n == 0 then w
    else
      assert ss[n - 1] in ss;
      StatementOut(minify, level, ss[n - 1], StatementsOut(minify, level, owner, ss, n - 1, w))
  }

  /** `printIfStatement`; an `else if` continues on the same line. */
  function IfOut(minify: bool, level: nat, s: Node, w: Trace): Trace
    requires s.IfStatement?
    decreases s, 2
  {
    var w1 := Put(PutIf(!minify, PutAt(w, "if", s), " "), "(");
    var w2 := PutIf(!minify, Put(ExprOut(minify, s.expression, w1), ")"), " ");
    ElseOut(minify, level, s, BodyOut(minify, level, s.thenStatement, w2))
  }

  /** The `else` part of `printIfStatement`: nothing without one; an `if` after `else` by `printIfStatement`. */
  function ElseOut(minify: bool, level: nat, s: Node, w: Trace): Trace
    requires s.IfStatement?
    decreases s, 1
  {
    match s.elseStatement
    case None => w
    case Some(el) =>
      var w1 := PutIf(!minify, Put(PutIf(!minify, w, " "), "else"), " ");
      if el.IfStatement? then IfOut(minify, level, el, w1) else BodyOut(minify, level, el, w1)
  }

  /** `printVariableDeclaration`: the name, then ` = ` and the initializer when there is one. */
  function VarDeclOut(minify: bool, d: Node, w: Trace): Trace
    decreases d, 2
  {
    if !d.VariableDeclaration? then w
    else
      var w1 := IdentOut(d.name, w);
      match d.initializer
      case None => w1
      case Some(e) => ExprOut(minify, e, Put(w1, if minify then "=" else " = "))
  }

  /** The first `n` parameters, each by its name, separated by commas. */
  function ParamsOut(minify: bool, ps: seq<Node>, n: nat, w: Trace): Trace
    requires n <= |ps|
  {
    if n == 0 then w
    else
      var p := ps[n - 1];
      var w1 := if p.ParameterDecl? then IdentOut(p.name, ParamsOut(minify, ps, n - 1, w)) else ParamsOut(minify, ps, n - 1, w);
      PutIf(n - 1 < |ps| - 1, w1, Comma(minify))
  }

  /** The first `n` of a call's arguments or an array's elements, separated by commas. */
  function ExprsOut(minify: bool, ghost owner: Node, es: seq<Node>, n: nat, w: Trace): Trace
    requires n <= |es| && forall c :: c in es ==> (owner decreases to c)
    decreases owner, 0, n
  {
    if n == 0 then w
    else
      assert es[n - 1] in es;
      PutIf(n - 1 < |es| - 1, ExprOut(minify, es[n - 1], ExprsOut(minify, owner, es, n - 1, w)), Comma(minify))
  }

  /** The first `n` properties of an object literal, separated by commas. */
  function PropsOut(minify: bool, ghost owner: Node, ps: seq<Node>, n: nat, w: Trace): Trace
    requires n <= |ps| && forall c :: c in ps ==> (owner decreases to c)
    decreases owner, 0, n
  {
    if n == 0 then w
    else
      assert ps[n - 1] in ps;
      PutIf(n - 1 < |ps| - 1, PropOut(minify, ps[n - 1], PropsOut(minify, owner, ps, n - 1, w)), Comma(minify))
  }

  /** `printPropertyAssignment`: an identifier name or a literal name, `: `, the value. */
  function PropOut(minify: bool, p: Node, w: Trace): Trace
    decreases p, 2
  {
    if !p.PropertyAssignment? then w
    else
      var name := p.name;
      var w1 :=
        if name.Identifier? then IdentOut(name, w)
        else if name.Literal? || name.Token? then LiteralOut(name, w)
        else w;
      ExprOut(minify, p.propertyValue, Put(w1, if minify then ":" else ": "))
  }

  /** `printExpression`: a kind it has no case for writes nothing. */
  function ExprOut(minify: bool, e: Node, w: Trace): Trace
    decreases e, 2
  {
    match e
    case BinaryExpression(_, _, _, _, _, _) => BinaryOut(minify, e, w)
    case AssignmentExpression(_, _, _, _, _) => AssignmentOut(minify, e, w)
    case Identifier(_, _, _, _) => IdentOut(e, w)
    case Literal(_, _, _, _, _, _) => LiteralOut(e, w)
    case Token(_, _, _, k) => if IsLiteralKind(k) then LiteralOut(e, w) else w
    case CallExpression(_, _, _, _, _) => CallOut(minify, e, w)
    case ArrayLiteralExpression(_, _, _, _) => ArrayOut(minify, e, w)
    case ObjectLiteralExpression(_, _, _, _) => ObjectOut(minify, e, w)
    case PropertyAccessExpression(_, _, _, _, _) => PropertyAccessOut(minify, e, w)
    case PrefixUnaryExpression(_, _, _, _, _) => PrefixOut(minify, e, w)
    case PostfixUnaryExpression(_, _, _, _, _) => PostfixOut(minify, e, w)
    case ElementAccessExpression(_, _, _, _, _) => ElementAccessOut(minify, e, w)
    case _ => w
  }

  /** `printBinaryExpression`: the operands around the operator, spaced unless minifying. */
  function BinaryOut(minify: bool, e: Node, w: Trace): Trace
    requires e.BinaryExpression?
    decreases e, 1
  {
    var op := OperatorAsWritten(e.operator);
    ExprOut(minify, e.right, Put(ExprOut(minify, e.left, w), if minify then op else " " + op + " "))
  }

  /** `printAssignmentExpression`: the target, `=`, the value. */
  function AssignmentOut(minify: bool, e: Node, w: Trace): Trace
    requires e.AssignmentExpression?
    decreases e, 1
  {
    ExprOut(minify, e.right, Put(ExprOut(minify, e.left, w), if minify then "=" else " = "))
  }

  /** `printCallExpression`: the callee, then the arguments in parentheses. */
  function CallOut(minify: bool, e: Node, w: Trace): Trace
    requires e.CallExpression?
    decreases e, 1
  {
    Put(ExprsOut(minify, e, e.arguments, |e.arguments|, Put(ExprOut(minify, e.expression, w), "(")), ")")
  }

  /** `printArrayLiteral`: the elements in brackets. */
  function ArrayOut(minify: bool, e: Node, w: Trace): Trace
    requires e.ArrayLiteralExpression?
    decreases e, 1
  {
    Put(ExprsOut(minify, e, e.elements, |e.elements|, Put(w, "[")), "]")
  }

  /** `printObjectLiteral`: the properties in braces, with a space inside each brace unless there are none. */
  function ObjectOut(minify: bool, e: Node, w: Trace): Trace
    requires e.ObjectLiteralExpression?
    decreases e, 1
  {
    var ps := e.properties;
    var w1 := PutIf(|ps| > 0, Put(w, "{"), " ");
    Put(PutIf(|ps| > 0, PropsOut(minify, e, ps, |ps|, w1), " "), "}")
  }

  /** `printPropertyAccess`: the object, `.`, the name. */
  function PropertyAccessOut(minify: bool, e: Node, w: Trace): Trace
    requires e.PropertyAccessExpression?
    decreases e, 1
  {
    IdentOut(e.name, Put(ExprOut(minify, e.expression, w), "."))
  }

  /** `printElementAccess`: the object, then the index in brackets. */
  function ElementAccessOut(minify: bool, e: Node, w: Trace): Trace
    requires e.ElementAccessExpression?
    decreases e, 1
  {
    Put(ExprOut(minify, e.argumentExpression, Put(ExprOut(minify, e.expression, w), "[")), "]")
  }

  /** `printPrefixUnary`: the operator, then the operand. */
  function PrefixOut(minify: bool, e: Node, w: Trace): Trace
    requires e.PrefixUnaryExpression?
    decreases e, 1
  {
    ExprOut(minify, e.operand, Put(w, OperatorAsWritten(e.operator)))
  }

  /** `printPostfixUnary`: the operand, then the operator. */
  function PostfixOut(minify: bool, e: Node, w: Trace): Trace
    requires e.PostfixUnaryExpression?
    decreases e, 1
  {
    Put(ExprOut(minify, e.operand, w), OperatorAsWritten(e.operator))
  }

  /** `printFile`: the statements of the source file at level 0. */
  function FileOut(minify: bool, file: Node): Trace
    requires file.SourceFile?
  {
    StatementsOut(minify, 0, file, file.statements, |file.statements|, Start)
  }

  /* ---------------- the printer ---------------- */

  /** Writing `t` after `s`: the position moves on from where `s` left it. */
  lemma {:induction false} AdvanceAppend(p: (nat, nat), s: string, t: string)
    ensures Advance(p, s + t) == Advance(Advance(p, s), t)
    decreases |t|
  {
    if t == [] {
      assert s + t == s;
    } else {
      var u := t[..|t| - 1];
      AdvanceAppend(p, s, u);
      assert (s + t)[..|s + t| - 1] == s + u;
    }
  }

  /** The position after the writes is the position after their text, read from line 1, column 0. */
  lemma {:induction false} PositionIsAdvance(w: Trace)
    ensures Position(w) == Advance((1, 0), Flatten(w))
  {
    match w
    case Start =>
    case Then(before, p) =>
      PositionIsAdvance(before);
      AdvanceAppend((1, 0), Flatten(before), p.text);
    case Threw(before) =>
      PositionIsAdvance(before);
  }

  /** The `for (const char of text)` loop of `write`: the line and column after `text`. */
  method Move(line: nat, column: nat, text: string) returns (l: nat, c: nat)
    ensures (l, c) == Advance((line, column), text)
  {
    l, c := line, column;
    var i := 0;
    while i < |text|
      invariant i <= |text|
      invariant (l, c) == Advance((line, column), text[..i])
    {
      assert text[..i + 1][..i] == text[..i];
      if text[i] == '\n' {
        l, c := l + 1, 0;
      } else {
        c := c + 1;
      }
      i := i + 1;
    }
    assert text[..|text|] == text;
  }

  /** `createPrinter(options)` and the closure variables it keeps. */
  class Printer {
    const options: PrinterOptions
    const smg: SourceMap.Generator?
    var output: string
    var indentLevel: nat
    var line: nat
    var column: nat
    /** The writes since the last `printFile` began. */
    ghost var written: Trace
    /** An exception is on its way out of `printFile`: nothing more is written. */
    var aborted: bool
    /** The generator's state when the last `printFile` began. */
    ghost var base: SourceMap.GenState

    ghost predicate Valid()
      reads this, smg
    {
      && aborted == written.Threw?
      && output == Flatten(written)
      && (line, column) == Position(written)
      && (smg != null ==> smg.Valid() && smg.State() == Replay(base, written))
    }

    /** A source map is generated exactly when `sourceMap` is set and the file name is not empty. */
    constructor (options: PrinterOptions)
      ensures this.options == options && Valid() && written == Start && indentLevel == 0
      ensures (smg != null) == (options.sourceMap && options.filename.Some? && options.filename.value != "")
      ensures smg != null ==> fresh(smg) && smg.State() == SourceMap.InitialGen(options.filename.value)
    {
      this.options := options;
      if options.sourceMap && options.filename.Some? && options.filename.value != "" {
        smg := new SourceMap.Generator(options.filename.value);
      } else {
        smg := null;
      }
      output := "";
      indentLevel := 0;
      line := 1;
      column := 0;
      written := Start;
      aborted := false;
      new;
      base := if smg != null then smg.State() else SourceMap.InitialGen("");
    }

    /** `write(text, node?)`: a mapping at the current position first, then the text, then the position moves on. */
    method Write(text: string, node: Option<Node>)
      requires Valid()
      modifies this, smg
      ensures Valid() && indentLevel == old(indentLevel) && base == old(base)
      ensures written == Append(old(written), Piece(text, node.Some? && node.value.pos >= 0))
    {
      if aborted {
        return;
      }
      if node.Some? && smg != null && node.value.pos >= 0 {
        smg.AddMapping(line, column, 1, 0, 0, None);
      }
      output := output + text;
      line, column := Move(line, column, text);
      written := Then(written, Piece(text, node.Some? && node.value.pos >= 0));
    }

    /** A `throw` while printing: the exception leaves every print function in turn. */
    method Throw()
      requires Valid()
      modifies this
      ensures Valid() && indentLevel == old(indentLevel) && base == old(base)
      ensures written == Fail(old(written))
    {
      if !aborted {
        aborted := true;
        written := Threw(written);
      }
    }

    /** `writeIndent`. */
    method WriteIndent()
      requires Valid()
      modifies this, smg
      ensures Valid() && indentLevel == old(indentLevel) && base == old(base)
      ensures written == IndentOut(options.minify, indentLevel, old(written))
    {
      WriteWhen(!options.minify, Spaces(indentLevel));
    }

    /** `indent()`. */
    method Indent()
      requires Valid()
      modifies this
      ensures Valid() && indentLevel == old(indentLevel) + 1 && base == old(base) && written == old(written)
    {
      indentLevel := indentLevel + 1;
    }

    /** `dedent()`, after an `indent()`. */
    method Dedent()
      requires Valid() && indentLevel > 0
      modifies this
      ensures Valid() && indentLevel == old(indentLevel) - 1 && base == old(base) && written == old(written)
    {
      indentLevel := indentLevel - 1;
    }

    /** `if (c) write(text)`, as in the `if (!options.minify) write(' ')` of the print functions. */
    method WriteWhen(c: bool, text: string)
      requires Valid()
      modifies this, smg
      ensures Valid() && indentLevel == old(indentLevel) && base == old(base)
      ensures written == PutIf(c, old(written), text)
    {
      if c {
        Write(text, None);
      }
    }

    /**
     * `printFile`: the position and indentation start over; the source map goes on.
     * The printed text, or `None` when printing threw.
     */
    method PrintFile(file: Node) returns (text: Option<string>)
      requires Valid() && file.SourceFile?
      modifies this, smg
      ensures Valid() && indentLevel == 0 && written == FileOut(options.minify, file)
      ensures output == Flatten(FileOut(options.minify, file))
      ensures text == if written.Threw? then None else Some(output)
      ensures smg != null ==> smg.State() == Replay(old(smg.State()), written)
    {
      output := "";
      indentLevel := 0;
      line := 1;
      column := 0;
      written := Start;
      aborted := false;
      base := if smg != null then smg.State() else base;
      PrintStatements(file, file.statements);
      text := if aborted then None else Some(output);
    }

    /** `getSourceMap`: the generator's fields, when there is a generator. */
    method GetSourceMap() returns (r: Option<SourceMap.SourceMapFields>)
      ensures smg == null ==> r == None
      ensures smg != null ==> r == Some(SourceMap.SourceMapFields(3, smg.file, [smg.file], [], smg.mappings))
    {
      if smg == null {
        r := None;
      } else {
        var fields := smg.ToString();
        r := Some(fields);
      }
    }

    /** `printStatement`: the indentation, the statement, then its terminator. */
    method PrintStatement(s: Node)
      requires Valid()
      modifies this, smg
      ensures Valid() && indentLevel == old(indentLevel) && base == old(base)
      ensures written == StatementOut(options.minify, indentLevel, s, old(written))
      decreases s, 5
    {
      WriteIndent();
      PrintStatementKind(s);
      PrintTerminator(s);
    }

    /** The `switch` of `printStatement`. */
    method PrintStatementKind(s: Node)
      requires Valid()
      modifies this, smg
      ensures Valid() && indentLevel == old(indentLevel) && base == old(base)
      ensures written == KindOut(options.minify, indentLevel, s, old(written))
      decreases s, 4
    {
      if s.IfStatement? || s.WhileStatement? || s.ForStatement? {
        PrintControlFlow(s);
      } else if s.VariableStatement? {
        PrintVariableStatement(s);
      } else if s.FunctionDecl? {
        PrintFunctionDeclaration(s);
      } else if s.Block? {
        PrintBlock(s);
      } else if s.ReturnStatement? {
        PrintReturnStatement(s);
      } else if s.ExpressionStatement? {
        PrintExpressionStatement(s);
      }
    }

    /** The cases of `printStatement` for `if`, `while` and `for`. */
    method PrintControlFlow(s: Node)
      requires s.IfStatement? || s.WhileStatement? || s.ForStatement?
      requires Valid()
      modifies this, smg
      ensures Valid() && indentLevel == old(indentLevel) && base == old(base)
      ensures written == KindOut(options.minify, indentLevel, s, old(written))
      decreases s, 3
    {
      if s.IfStatement? {
        PrintIfStatement(s);
      } else if s.WhileStatement? {
        PrintWhileStatement(s);
      } else {
        PrintForStatement(s);
      }
    }

    /** The terminator `printStatement` writes after the statement. */
    method PrintTerminator(s: Node)
      requires Valid()
      modifies this, smg
      ensures Valid() && indentLevel == old(indentLevel) && base == old(base)
      ensures written == TerminatorOut(options.minify, s, old(written))
    {
      var k := s.Kind();
      if !options.minify && k != SyntaxKind.Block && k != SyntaxKind.IfStatement && k != SyntaxKind.FunctionDecl
         && k != SyntaxKind.WhileStatement && k != SyntaxKind.ForStatement {
        Write(";\n", None);
      } else if options.minify && (k == SyntaxKind.ExpressionStatement || k == SyntaxKind.VariableStatement
                                   || k == SyntaxKind.ReturnStatement) {
        Write(";", None);
      }
    }

    /** The `for (const stmt of statements) printStatement(stmt)` loop of `printFile` and `printBlock`. */
    method PrintStatements(ghost owner: Node, ss: seq<Node>)
      requires Valid() && forall c :: c in ss ==> (owner decreases to c)
      modifies this, smg
      ensures Valid() && indentLevel == old(indentLevel) && base == old(base)
      ensures written == StatementsOut(options.minify, indentLevel, owner, ss, |ss|, old(written))
      decreases owner, 0
    {
      ghost var w0 := written;
      for i := 0 to |ss|
        invariant Valid() && indentLevel == old(indentLevel) && base == old(base)
        invariant written == StatementsOut(options.minify, indentLevel, owner, ss, i, w0)
      {
        assert ss[i] in ss;
        PrintStatement(ss[i]);
      }
    }

    /** The body of `while` and `for`, and the `then` branch of `if`: a block by `printBlock`, anything else by `printStatement`. */
    method PrintBody(body: Node)
      requires Valid()
      modifies this, smg
      ensures Valid() && indentLevel == old(indentLevel) && base == old(base)
      ensures written == BodyOut(options.minify, indentLevel, body, old(written))
      decreases body, 6
    {
      if body.Block? {
        PrintBlock(body);
      } else {
        PrintStatement(body);
      }
    }

    /** `printBlock`, with `indent` and `dedent` around the statements. */
    method PrintBlock(b: Node)
      requires Valid()
      modifies this, smg
      ensures Valid() && indentLevel == old(indentLevel) && base == old(base)
      ensures written == BlockOut(options.minify, indentLevel, b, old(written))
      decreases b, 1
    {
      Write("{", None);
      WriteWhen(!options.minify, "\n");
      Indent();
      PrintStatements(b, BlockStatements(b));
      Dedent();
      WriteIndent();
      Write("}", None);
      WriteWhen(!options.minify, "\n");
    }

    /** `printVariableStatement`. */
    method PrintVariableStatement(s: Node)
      requires s.VariableStatement?
      requires Valid()
      modifies this, smg
      ensures Valid() && indentLevel == old(indentLevel) && base == old(base)
      ensures written == VariableStatementOut(options.minify, s, old(written))
      decreases s, 2
    {
      Write("let ", Some(s));
      PrintVariableDeclaration(s.declaration);
    }

    /** `printVariableDeclaration`. */
    method PrintVariableDeclaration(d: Node)
      requires Valid()
      modifies this, smg
      ensures Valid() && indentLevel == old(indentLevel) && base == old(base)
      ensures written == VarDeclOut(options.minify, d, old(written))
      decreases d, 2
    {
      if d.VariableDeclaration? {
        PrintIdentifier(d.name);
        if d.initializer.Some? {
          Write(if options.minify then "=" else " = ", None);
          PrintExpression(d.initializer.value);
        }
      }
    }

    /** `printFunctionDeclaration`. */
    method PrintFunctionDeclaration(s: Node)
      requires s.FunctionDecl?
      requires Valid()
      modifies this, smg
      ensures Valid() && indentLevel == old(indentLevel) && base == old(base)
      ensures written == FunctionOut(options.minify, indentLevel, s, old(written))
      decreases s, 2
    {
      Write("function ", Some(s));
      PrintIdentifier(s.name);
      Write("(", None);
      PrintParameters(s.parameters);
      Write(")", None);
      WriteWhen(!options.minify, " ");
      PrintBlock(s.body);
    }

    /** The `parameters.forEach` of `printFunctionDeclaration`: each name, then a comma unless it is the last. */
    method PrintParameters(ps: seq<Node>)
      requires Valid()
      modifies this, smg
      ensures Valid() && indentLevel == old(indentLevel) && base == old(base)
      ensures written == ParamsOut(options.minify, ps, |ps|, old(written))
    {
      ghost var w0 := written;
      for i := 0 to |ps|
        invariant Valid() && indentLevel == old(indentLevel) && base == old(base)
        invariant written == ParamsOut(options.minify, ps, i, w0)
      {
        if ps[i].ParameterDecl? {
          PrintIdentifier(ps[i].name);
        }
        WriteWhen(i < |ps| - 1, Comma(options.minify));
      }
    }

    /** `printIfStatement`. */
    method PrintIfStatement(s: Node)
      requires s.IfStatement?
      requires Valid()
      modifies this, smg
      ensures Valid() && indentLevel == old(indentLevel) && base == old(base)
      ensures written == IfOut(options.minify, indentLevel, s, old(written))
      decreases s, 2
    {
      Write("if", Some(s));
      WriteWhen(!options.minify, " ");
      Write("(", None);
      PrintExpression(s.expression);
      Write(")", None);
      WriteWhen(!options.minify, " ");
      PrintBody(s.thenStatement);
      PrintElse(s);
    }

    /** The `else` part of `printIfStatement`. */
    method PrintElse(s: Node)
      requires s.IfStatement?
      requires Valid()
      modifies this, smg
      ensures Valid() && indentLevel == old(indentLevel) && base == old(base)
      ensures written == ElseOut(options.minify, indentLevel, s, old(written))
      decreases s, 1
    {
      if s.elseStatement.Some? {
        var el := s.elseStatement.value;
        WriteWhen(!options.minify, " ");
        Write("else", None);
        WriteWhen(!options.minify, " ");
        if el.IfStatement? {
          PrintIfStatement(el);
        } else {
          PrintBody(el);
        }
      }
    }

    /** `printWhileStatement`. */
    method PrintWhileStatement(s: Node)
      requires s.WhileStatement?
      requires Valid()
      modifies this, smg
      ensures Valid() && indentLevel == old(indentLevel) && base == old(base)
      ensures written == WhileOut(options.minify, indentLevel, s, old(written))
      decreases s, 2
    {
      Write("while", Some(s));
      WriteWhen(!options.minify, " ");
      Write("(", None);
      PrintExpression(s.expression);
      Write(")", None);
      WriteWhen(!options.minify, " ");
      PrintBody(s.statement);
    }

    /** `printForStatement`. */
    method PrintForStatement(s: Node)
      requires s.ForStatement?
      requires Valid()
      modifies this, smg
      ensures Valid() && indentLevel == old(indentLevel) && base == old(base)
      ensures written == ForOut(options.minify, indentLevel, s, old(written))
      decreases s, 2
    {
      Write("for", Some(s));
      WriteWhen(!options.minify, " ");
      Write("(", None);
      PrintForInitializer(s);
      Write(";", None);
      PrintForClause(s, s.condition);
      Write(";", None);
      PrintForClause(s, s.incrementor);
      Write(")", None);
      WriteWhen(!options.minify, " ");
      PrintBody(s.statement);
    }

    /** The initializer of `printForStatement`. */
    method PrintForInitializer(s: Node)
      requires s.ForStatement?
      requires Valid()
      modifies this, smg
      ensures Valid() && indentLevel == old(indentLevel) && base == old(base)
      ensures written == ForInitOut(options.minify, s, old(written))
      decreases s, 1
    {
      if s.initializer.Some? {
        var init := s.initializer.value;
        if init.VariableStatement? {
          Write("let ", None);
          PrintVariableDeclaration(init.declaration);
        } else {
          PrintExpression(init);
        }
      }
    }

    /** The condition or the incrementor of `printForStatement`. */
    method PrintForClause(ghost s: Node, c: Option<Node>)
      requires c.Some? ==> (s decreases to c.value)
      requires Valid()
      modifies this, smg
      ensures Valid() && indentLevel == old(indentLevel) && base == old(base)
      ensures written == ForClauseOut(options.minify, s, c, old(written))
      decreases s, 1
    {
      if c.Some? {
        WriteWhen(!options.minify, " ");
        PrintExpression(c.value);
      }
    }

    /** `printReturnStatement`: the space before the value is written even when minifying. */
    method PrintReturnStatement(s: Node)
      requires s.ReturnStatement?
      requires Valid()
      modifies this, smg
      ensures Valid() && indentLevel == old(indentLevel) && base == old(base)
      ensures written == ReturnOut(options.minify, s, old(written))
      decreases s, 2
    {
      Write("return", Some(s));
      if s.returnValue.Some? {
        Write(" ", None);
        PrintExpression(s.returnValue.value);
      }
    }

    /** `printExpressionStatement`. */
    method PrintExpressionStatement(s: Node)
      requires s.ExpressionStatement?
      requires Valid()
      modifies this, smg
      ensures Valid() && indentLevel == old(indentLevel) && base == old(base)
      ensures written == ExprOut(options.minify, s.expression, old(written))
      decreases s, 2
    {
      PrintExpression(s.expression);
    }

    /** `printExpression`: operators, names, literals and the compound forms each by their own function. */
    method PrintExpression(e: Node)
      requires Valid()
      modifies this, smg
      ensures Valid() && indentLevel == old(indentLevel) && base == old(base)
      ensures written == ExprOut(options.minify, e, old(written))
      decreases e, 4
    {
      if e.BinaryExpression? || e.AssignmentExpression? || e.PrefixUnaryExpression? || e.PostfixUnaryExpression? {
        PrintOperation(e);
      } else if e.Identifier? {
        PrintIdentifier(e);
      } else if e.Literal? || (e.Token? && IsLiteralKind(e.tokenKind)) {
        PrintLiteral(e);
      } else {
        PrintCompound(e);
      }
    }

    /** The cases of `printExpression` for the binary, assignment, prefix and postfix operators. */
    method PrintOperation(e: Node)
      requires e.BinaryExpression? || e.AssignmentExpression? || e.PrefixUnaryExpression? || e.PostfixUnaryExpression?
      requires Valid()
      modifies this, smg
      ensures Valid() && indentLevel == old(indentLevel) && base == old(base)
      ensures written == ExprOut(options.minify, e, old(written))
      decreases e, 2
    {
      if e.BinaryExpression? {
        PrintBinaryExpression(e);
      } else if e.AssignmentExpression? {
        PrintAssignmentExpression(e);
      } else if e.PrefixUnaryExpression? {
        PrintPrefixUnary(e);
      } else {
        PrintPostfixUnary(e);
      }
    }

    /** The remaining cases of `printExpression`: calls, array and object literals, property and element access; any other kind writes nothing. */
    method PrintCompound(e: Node)
      requires !(e.BinaryExpression? || e.AssignmentExpression? || e.PrefixUnaryExpression? || e.PostfixUnaryExpression?)
      requires !e.Identifier? && !e.Literal? && !(e.Token? && IsLiteralKind(e.tokenKind))
      requires Valid()
      modifies this, smg
      ensures Valid() && indentLevel == old(indentLevel) && base == old(base)
      ensures written == ExprOut(options.minify, e, old(written))
      decreases e, 3
    {
      if e.CallExpression? || e.ArrayLiteralExpression? || e.ObjectLiteralExpression? {
        PrintListExpression(e);
      } else if e.PropertyAccessExpression? {
        PrintPropertyAccess(e);
      } else if e.ElementAccessExpression? {
        PrintElementAccess(e);
      }
    }

    /** The cases of `printExpression` that print a list: calls, array literals and object literals. */
    method PrintListExpression(e: Node)
      requires e.CallExpression? || e.ArrayLiteralExpression? || e.ObjectLiteralExpression?
      requires Valid()
      modifies this, smg
      ensures Valid() && indentLevel == old(indentLevel) && base == old(base)
      ensures written == ExprOut(options.minify, e, old(written))
      decreases e, 2
    {
      if e.CallExpression? {
        PrintCallExpression(e);
      } else if e.ArrayLiteralExpression? {
        PrintArrayLiteral(e);
      } else {
        PrintObjectLiteral(e);
      }
    }

    /** `printBinaryExpression`. */
    method PrintBinaryExpression(e: Node)
      requires e.BinaryExpression?
      requires Valid()
      modifies this, smg
      ensures Valid() && indentLevel == old(indentLevel) && base == old(base)
      ensures written == BinaryOut(options.minify, e, old(written))
      decreases e, 1
    {
      PrintExpression(e.left);
      var op := OperatorAsWritten(e.operator);
      Write(if options.minify then op else " " + op + " ", None);
      PrintExpression(e.right);
    }

    /** `printAssignmentExpression`. */
    method PrintAssignmentExpression(e: Node)
      requires e.AssignmentExpression?
      requires Valid()
      modifies this, smg
      ensures Valid() && indentLevel == old(indentLevel) && base == old(base)
      ensures written == AssignmentOut(options.minify, e, old(written))
      decreases e, 1
    {
      PrintExpression(e.left);
      Write(if options.minify then "=" else " = ", None);
      PrintExpression(e.right);
    }

    /** `printIdentifier`. */
    method PrintIdentifier(n: Node)
      requires Valid()
      modifies this, smg
      ensures Valid() && indentLevel == old(indentLevel) && base == old(base)
      ensures written == IdentOut(n, old(written))
    {
      Write(NameText(n), Some(n));
    }

    /** `printLiteral`: a token that is not a string has no value to call `toString` on, and throws. */
    method PrintLiteral(n: Node)
      requires n.Literal? || n.Token?
      requires Valid()
      modifies this, smg
      ensures Valid() && indentLevel == old(indentLevel) && base == old(base)
      ensures written == LiteralOut(n, old(written))
    {
      if n.Kind() == SyntaxKind.StringLiteral {
        var value := if n.Literal? then ValueText(n.value) else "undefined";
        Write("\"" + value + "\"", Some(n));
      } else if n.Literal? {
        Write(if n.text != "" then n.text else ValueText(n.value), Some(n));
      } else {
        Throw();
      }
    }

    /** `printCallExpression`. */
    method PrintCallExpression(e: Node)
      requires e.CallExpression?
      requires Valid()
      modifies this, smg
      ensures Valid() && indentLevel == old(indentLevel) && base == old(base)
      ensures written == CallOut(options.minify, e, old(written))
      decreases e, 1
    {
      ghost var b0 := base;
      ghost var level := indentLevel;
      PrintExpression(e.expression);
      Write("(", None);
      ghost var w1 := written;
      var args := e.arguments;
      for i := 0 to |args|
        invariant Valid() && indentLevel == level && base == b0
        invariant written == ExprsOut(options.minify, e, args, i, w1)
      {
        assert args[i] in args;
        PrintExpression(args[i]);
        if i < |args| - 1 {
          Write(Comma(options.minify), None);
        }
      }
      Write(")", None);
    }

    /** `printArrayLiteral`. */
    method PrintArrayLiteral(e: Node)
      requires e.ArrayLiteralExpression?
      requires Valid()
      modifies this, smg
      ensures Valid() && indentLevel == old(indentLevel) && base == old(base)
      ensures written == ArrayOut(options.minify, e, old(written))
      decreases e, 1
    {
      ghost var b0 := base;
      ghost var level := indentLevel;
      Write("[", None);
      ghost var w1 := written;
      var es := e.elements;
      for i := 0 to |es|
        invariant Valid() && indentLevel == level && base == b0
        invariant written == ExprsOut(options.minify, e, es, i, w1)
      {
        assert es[i] in es;
        PrintExpression(es[i]);
        if i < |es| - 1 {
          Write(Comma(options.minify), None);
        }
      }
      Write("]", None);
    }

    /** `printObjectLiteral`: a space inside the braces unless there are no properties. */
    method PrintObjectLiteral(e: Node)
      requires e.ObjectLiteralExpression?
      requires Valid()
      modifies this, smg
      ensures Valid() && indentLevel == old(indentLevel) && base == old(base)
      ensures written == ObjectOut(options.minify, e, old(written))
      decreases e, 1
    {
      ghost var b0 := base;
      ghost var level := indentLevel;
      var ps := e.properties;
      Write("{", None);
      if |ps| > 0 {
        Write(" ", None);
      }
      ghost var w1 := written;
      for i := 0 to |ps|
        invariant Valid() && indentLevel == level && base == b0
        invariant written == PropsOut(options.minify, e, ps, i, w1)
      {
        assert ps[i] in ps;
        PrintPropertyAssignment(ps[i]);
        if i < |ps| - 1 {
          Write(Comma(options.minify), None);
        }
      }
      if |ps| > 0 {
        Write(" ", None);
      }
      Write("}", None);
    }

    /** `printPropertyAssignment`. */
    method PrintPropertyAssignment(p: Node)
      requires Valid()
      modifies this, smg
      ensures Valid() && indentLevel == old(indentLevel) && base == old(base)
      ensures written == PropOut(options.minify, p, old(written))
      decreases p, 2
    {
      if p.PropertyAssignment? {
        if p.name.Identifier? {
          PrintIdentifier(p.name);
        } else if p.name.Literal? || p.name.Token? {
          PrintLiteral(p.name);
        }
        Write(if options.minify then ":" else ": ", None);
        PrintExpression(p.propertyValue);
      }
    }

    /** `printPropertyAccess`. */
    method PrintPropertyAccess(e: Node)
      requires e.PropertyAccessExpression?
      requires Valid()
      modifies this, smg
      ensures Valid() && indentLevel == old(indentLevel) && base == old(base)
      ensures written == PropertyAccessOut(options.minify, e, old(written))
      decreases e, 1
    {
      PrintExpression(e.expression);
      Write(".", None);
      PrintIdentifier(e.name);
    }

    /** `printElementAccess`. */
    method PrintElementAccess(e: Node)
      requires e.ElementAccessExpression?
      requires Valid()
      modifies this, smg
      ensures Valid() && indentLevel == old(indentLevel) && base == old(base)
      ensures written == ElementAccessOut(options.minify, e, old(written))
      decreases e, 1
    {
      PrintExpression(e.expression);
      Write("[", None);
      PrintExpression(e.argumentExpression);
      Write("]", None);
    }

    /** `printPrefixUnary`. */
    method PrintPrefixUnary(e: Node)
      requires e.PrefixUnaryExpression?
      requires Valid()
      modifies this, smg
      ensures Valid() && indentLevel == old(indentLevel) && base == old(base)
      ensures written == PrefixOut(options.minify, e, old(written))
      decreases e, 1
    {
      Write(OperatorAsWritten(e.operator), None);
      PrintExpression(e.operand);
    }

    /** `printPostfixUnary`. */
    method PrintPostfixUnary(e: Node)
      requires e.PostfixUnaryExpression?
      requires Valid()
      modifies this, smg
      ensures Valid() && indentLevel == old(indentLevel) && base == old(base)
      ensures written == PostfixOut(options.minify, e, old(written))
      decreases e, 1
    {
      PrintExpression(e.operand);
      Write(OperatorAsWritten(e.operator), None);
    }
  }
}
