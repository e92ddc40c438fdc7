/**
 * The recursive-descent parser (src/parser.ts). `createParser`'s closure becomes
 * the class `Parser`: the scanner, the current `token` and the `scopeFlags` are
 * its fields, and every `parse*` function is a method that either returns the
 * node it built or the error the source throws.
 *
 * Each method is proved to build a tree of the shape `Grammar` describes, to
 * move the scanner strictly forward when it succeeds, and to number its nodes
 * (`nextId`, standing for object identity) so that the tree is `WellNumbered`.
 * The binary-expression methods also keep a ghost trace `items` of the operands
 * and operators read at the current level, and prove that the tree they return
 * flattens to exactly that trace.
 */
module Parsing {
  import opened Ast
  import opened Utilities
  import opened Grammar
  import opened Numbering
  import Scanning
  import Numbers

  /** The errors `parse*` throws; the messages themselves are not modelled. */
  datatype ParseError =
    | ScanFailed(scan: Scanning.ScanError)
    | LetNeedsIdentifier
    | FunctionNeedsIdentifier
    | ParameterNeedsIdentifier
    | ExpectedCloseBrace
    | ReturnOutsideFunction
    | UnexpectedToken(token: SyntaxKind, pos: nat)
    | MissingSemicolon(pos: nat, got: SyntaxKind)
    | Expected(kind: SyntaxKind, got: SyntaxKind, pos: nat)

  datatype Result<T> = Ok(value: T) | Fail(error: ParseError)

  /** `ScopeFlags`: one bit each. */
  type ScopeFlags = bv8

  const InFunction: ScopeFlags := 1
  const InIteration: ScopeFlags := 2
  const InSwitch: ScopeFlags := 4

  /** `parseFloat` of a numeric token's value; a value that is not a run of digits (NaN) is read as 0. */
  function ParseFloat(s: string): int {
    if |s| >= 1 && Numbers.AllDigits(s) then Numbers.DigitsValue(s) else 0
  }

  /** The node the precedence loop builds from `left operator right`. */
  function Combine(left: Node, operator: SyntaxKind, right: Node, id: nat): (r: Node)
    ensures r.pos == left.pos && r.end == right.end && r.id == id
    ensures operator == SyntaxKind.EqualsToken ==> r.AssignmentExpression? && r.left == left && r.right == right
    ensures operator != SyntaxKind.EqualsToken ==>
      r.BinaryExpression? && Flatten(r) == Flatten(left) + [Operator(operator)] + Flatten(right)
  {
    if operator == SyntaxKind.EqualsToken then Node.AssignmentExpression(left.pos, right.end, id, left, right)
    else Node.BinaryExpression(left.pos, right.end, id, left, operator, right)
  }

  /** The kind of statement `parseStatement` builds for a leading token; a `let` that does not
      bind an identifier falls through to an expression statement. */
  function StatementKind(t: SyntaxKind): SyntaxKind {
    if t == SyntaxKind.LetKeyword then SyntaxKind.VariableStatement
    else if t == SyntaxKind.FunctionKeyword then SyntaxKind.FunctionDecl
    else if t == SyntaxKind.OpenBraceToken then SyntaxKind.Block
    else if t == SyntaxKind.WhileKeyword then SyntaxKind.WhileStatement
    else if t == SyntaxKind.ForKeyword then SyntaxKind.ForStatement
    else if t == SyntaxKind.IfKeyword then SyntaxKind.IfStatement
    else if t == SyntaxKind.ReturnKeyword then SyntaxKind.ReturnStatement
    else SyntaxKind.ExpressionStatement
  }

  /** The tokens `parsePrimaryExpression` accepts. */
  predicate StartsPrimary(t: SyntaxKind) {
    t == SyntaxKind.Identifier || t == SyntaxKind.NumericLiteral || t == SyntaxKind.StringLiteral
    || t == SyntaxKind.TrueKeyword || t == SyntaxKind.FalseKeyword || t == SyntaxKind.OpenBracketToken
  }

  /** A scan never reports `Unknown`: that kind only marks a scanner that has not scanned yet. */
  lemma ScanNeverUnknown(text: string, pos: nat, value: string)
    requires pos <= |text|
    ensures var r := Scanning.NextToken(text, pos, value);
      r.Scanned? ==> r.kind != SyntaxKind.Unknown
  {
    var start := Scanning.RunEnd(text, pos, Scanning.Blank);
    if start < |text| {
      var w := text[start..Scanning.RunEnd(text, start + 1, Scanning.WordPart)];
      Scanning.KeywordTable(w, SyntaxKind.Unknown);
    }
  }

  class Parser {
    const scanner: Scanning.Scanner
    /** The current token; `Unknown` until the first `nextToken`. */
    var token: SyntaxKind
    var scopeFlags: ScopeFlags
    /** The id the next node is given: a stand-in for the identity of the objects the parser allocates. */
    var nextId: nat
    /** The operands and operators read so far at the current expression level. */
    ghost var items: seq<Item>
    /** The token the last `nextToken` moved past. */
    ghost var last: SyntaxKind

    /**
     * The scanner is past its first scan, a non-EOF token is at least one
     * character long, EOF sits at the end of the text, and the scanner's value
     * agrees with its token. When `token` is not EOF neither is the scanner's
     * token: `token` can only differ from it after `isLetDeclaration`, which
     * leaves `token` on the token after the scanner's `let`.
     */
    ghost predicate Consistent()
      reads this, scanner
    {
      scanner.Valid() && nextId >= 1
      && scanner.token != SyntaxKind.Unknown
      && (scanner.token == SyntaxKind.EndOfFileToken ==> scanner.tokenPos == |scanner.text|)
      && (scanner.token != SyntaxKind.EndOfFileToken ==> scanner.tokenPos < scanner.pos)
      && (token != SyntaxKind.EndOfFileToken ==> scanner.token != SyntaxKind.EndOfFileToken)
      && Scanning.TokenFacts(scanner.text, scanner.tokenPos, scanner.pos, scanner.token, scanner.tokenValue)
    }

    /** `Consistent`, and an identifier `token` is the scanner's own token. */
    ghost predicate Valid()
      reads this, scanner
    {
      Consistent() && (token == SyntaxKind.Identifier ==> scanner.token == SyntaxKind.Identifier)
    }

    /** `token` is the scanner's current token. */
    ghost predicate Ready()
      reads this, scanner
    {
      Valid() && token == scanner.token
    }

    /** What is left to read: every successful `parse*` call makes it smaller. */
    ghost function Measure(): nat
      requires scanner.Valid()
      reads this, scanner
    {
      2 * (|scanner.text| - scanner.tokenPos) + (if token == SyntaxKind.EndOfFileToken then 0 else 1)
    }

    predicate InFunctionBody()
      reads this
    {
      scopeFlags & InFunction != 0
    }

    /** `createParser(text)`. */
    constructor (text: string)
      ensures scanner.text == text && scanner.Valid() && fresh(scanner)
      ensures token == SyntaxKind.Unknown && scopeFlags == 0 && nextId == 1
    {
      scanner := new Scanning.Scanner(text);
      token := SyntaxKind.Unknown;
      scopeFlags := 0;
      nextId := 1;
      items := [];
      last := SyntaxKind.Unknown;
    }

    /** A new node object: the next identity, leaving the token and the scanner as they are. */
    method NewId() returns (id: nat)
      requires Consistent()
      modifies this
      ensures id == old(nextId) && nextId == id + 1
      ensures token == old(token) && scopeFlags == old(scopeFlags) && items == old(items) && last == old(last)
      ensures Consistent() && Valid() == old(Valid()) && Ready() == old(Ready()) && Measure() == old(Measure())
    {
      id := nextId;
      nextId := nextId + 1;
    }

    /** `nextToken`: scan, and make the scanned token current. */
    method NextToken() returns (err: Option<ParseError>)
      requires scanner.Valid() && nextId >= 1
      modifies this, scanner
      ensures scopeFlags == old(scopeFlags) && nextId == old(nextId) && items == old(items)
      ensures err.Some? ==> err.value.ScanFailed?
      ensures err.None? ==> Ready() && last == old(token) && old(scanner.pos) <= scanner.tokenPos
      ensures err.None? && old(Consistent()) ==> Measure() <= old(Measure())
      ensures err.None? && old(Consistent()) && old(token) != SyntaxKind.EndOfFileToken ==> Measure() < old(Measure())
      ensures err.None? && old(Consistent()) && old(scanner.token) == SyntaxKind.EndOfFileToken ==>
        token == SyntaxKind.EndOfFileToken
    {
      var kind, e := scanner.Scan();
      if e.Some? {
        return Some(ScanFailed(e.value));
      }
      Scanning.ScannedTokenFacts(scanner.text, old(scanner.pos), old(scanner.tokenValue));
      ScanNeverUnknown(scanner.text, old(scanner.pos), old(scanner.tokenValue));
      last := token;
      token := kind;
      return None;
    }

    /**
     * `isLetDeclaration`: `lookAhead(nextTokenIsBindingIdentifier)`. The scanner
     * is put back where it was, but `token` keeps the token after `let`.
     */
    method IsLetDeclaration() returns (r: Result<bool>)
      requires Ready() && token == SyntaxKind.LetKeyword
      modifies this, scanner
      ensures scopeFlags == old(scopeFlags) && nextId == old(nextId) && items == old(items)
      ensures r.Ok? ==> Consistent() && scanner.State() == old(scanner.State()) && Measure() <= old(Measure())
      ensures r.Ok? ==> Scanning.NextToken(scanner.text, old(scanner.pos), old(scanner.tokenValue)).Scanned?
      ensures r.Ok? ==> token == Scanning.NextToken(scanner.text, old(scanner.pos), old(scanner.tokenValue)).kind
      ensures r.Ok? ==> (r.value <==> token == SyntaxKind.Identifier)
      ensures r.Ok? && !r.value ==> Valid()
    {
      var saved := scanner.State();
      // `nextToken`, as `nextTokenIsBindingIdentifier` calls it
      var kind, e := scanner.Scan();
      if e.Some? {
        return Fail(ScanFailed(e.value));
      }
      last := token;
      token := kind;
      var res := token == SyntaxKind.Identifier;
      scanner.Restore(saved);
      return Ok(res);
    }

    /** `expect(kind)`: the current token must be `kind`; move past it. */
    method Expect(kind: SyntaxKind) returns (err: Option<ParseError>)
      requires Valid() && kind != SyntaxKind.EndOfFileToken
      modifies this, scanner
      ensures scopeFlags == old(scopeFlags) && nextId == old(nextId) && items == old(items)
      ensures old(token) != kind ==> err == Some(Expected(kind, old(token), old(scanner.tokenPos)))
      ensures old(token) == kind ==> err.None? || err.value.ScanFailed?
      ensures err.None? ==> Ready() && last == kind && Measure() < old(Measure())
      ensures err.None? ==> old(scanner.tokenPos) <= scanner.tokenPos
    {
      if token != kind {
        return Some(Expected(kind, token, scanner.tokenPos));
      }
      err := NextToken();
    }

    /** `nextToken(); expect(OpenParenToken)`: the keyword that opens `while`, `for` and `if`, and the `(` after it. */
    method SkipKeywordAndParen() returns (err: Option<ParseError>)
      requires Ready()
      modifies this, scanner
      ensures scopeFlags == old(scopeFlags) && nextId == old(nextId) && items == old(items)
      ensures err.None? ==> Ready() && Measure() < old(Measure())
    {
      err := NextToken();
      if err.Some? {
        return;
      }
      err := Expect(SyntaxKind.OpenParenToken);
    }

    /** The keyword of a `while` or an `if`, then `(expression)`. */
    method ParseCondition() returns (r: Result<Node>)
      requires Ready()
      modifies this, scanner
      decreases Measure(), 18
      ensures r.Ok? ==> Ready() && Measure() < old(Measure()) && scopeFlags == old(scopeFlags)
      ensures r.Ok? ==> Tiled(r.value, old(nextId)) && nextId == r.value.id + 1 && Expr(r.value)
    {
      var e := SkipKeywordAndParen();
      if e.Some? {
        return Fail(e.value);
      }
      r := ParseExpression();
      if r.Fail? {
        return;
      }
      e := Expect(SyntaxKind.CloseParenToken);
      if e.Some? {
        return Fail(e.value);
      }
    }

    /** `parseSemicolon`: the current token must be `;`; move past it. */
    method ParseSemicolon() returns (err: Option<ParseError>)
      requires Valid()
      modifies this, scanner
      ensures scopeFlags == old(scopeFlags) && nextId == old(nextId) && items == old(items)
      ensures old(token) != SyntaxKind.SemicolonToken ==> err == Some(MissingSemicolon(old(scanner.tokenPos), old(token)))
      ensures old(token) == SyntaxKind.SemicolonToken ==> err.None? || err.value.ScanFailed?
      ensures err.None? ==> Ready() && last == SyntaxKind.SemicolonToken && Measure() < old(Measure())
    {
      if token != SyntaxKind.SemicolonToken {
        return Some(MissingSemicolon(scanner.tokenPos, token));
      }
      err := NextToken();
    }

    /** `parseSourceFile`: statements up to the end of the text. */
    method ParseSourceFile() returns (r: Result<Node>)
      requires scanner.Valid() && nextId >= 1 && !InFunctionBody()
      modifies this, scanner
      ensures r.Ok? ==> Grammar.File(r.value, scanner.text) && WellNumbered(r.value)
      ensures r.Ok? ==> token == SyntaxKind.EndOfFileToken && scopeFlags == old(scopeFlags)
    {
      var e := NextToken();
      if e.Some? {
        return Fail(e.value);
      }
      var statements: seq<Node> := [];
      while token != SyntaxKind.EndOfFileToken
        invariant Ready() && scopeFlags == old(scopeFlags)
        invariant forall s :: s in statements ==> Stmt(s, false)
        invariant TiledList(statements, old(nextId), nextId)
        decreases Measure()
      {
        ghost var mid := nextId;
        var s := ParseStatement();
        if s.Fail? {
          return Fail(s.error);
        }
        Snoc(statements, s.value, old(nextId), mid);
        statements := statements + [s.value];
      }
      var id := NewId();
      var file := Node.SourceFile(0, scanner.pos, id, statements, scanner.text);
      Assemble(file, old(nextId));
      TiledIsWellNumbered(file, old(nextId));
      return Ok(file);
    }

    /** `parseStatement`: dispatch on the leading token. */
    method ParseStatement() returns (r: Result<Node>)
      requires Ready()
      modifies this, scanner
      decreases Measure(), 20
      ensures r.Ok? ==> Ready() && Measure() < old(Measure()) && scopeFlags == old(scopeFlags)
      ensures r.Ok? ==> Tiled(r.value, old(nextId)) && nextId == r.value.id + 1
      ensures r.Ok? ==> Stmt(r.value, InFunctionBody())
      ensures r.Ok? && old(token) != SyntaxKind.LetKeyword ==> r.value.Kind() == StatementKind(old(token))
      ensures r.Ok? && old(token) == SyntaxKind.LetKeyword ==> r.value.VariableStatement? || r.value.ExpressionStatement?
    {
      if token == SyntaxKind.LetKeyword {
        var isLet := IsLetDeclaration();
        if isLet.Fail? {
          return Fail(isLet.error);
        }
        if isLet.value {
          r := ParseVariableStatement();
          return;
        }
      } else if token == SyntaxKind.FunctionKeyword {
        r := ParseFunctionDeclaration();
        return;
      } else if token == SyntaxKind.OpenBraceToken {
        r := ParseBlock();
        return;
      } else if token == SyntaxKind.WhileKeyword {
        r := ParseWhileStatement();
        return;
      } else if token == SyntaxKind.ForKeyword {
        r := ParseForStatement();
        return;
      } else if token == SyntaxKind.IfKeyword {
        r := ParseIfStatement();
        return;
      } else if token == SyntaxKind.ReturnKeyword {
        r := ParseReturnStatement();
        return;
      }
      r := ParseExpressionStatement();
    }

    /** `parseVariableStatement`: `let name [= expression];`. */
    method ParseVariableStatement() returns (r: Result<Node>)
      requires Consistent() && (token == SyntaxKind.LetKeyword || token == SyntaxKind.Identifier)
      modifies this, scanner
      decreases Measure(), 19
      ensures r.Ok? ==> Ready() && Measure() < old(Measure()) && scopeFlags == old(scopeFlags)
      ensures r.Ok? ==> Tiled(r.value, old(nextId)) && nextId == r.value.id + 1
      ensures r.Ok? ==> r.value.VariableStatement? && Stmt(r.value, InFunctionBody())
      ensures r.Ok? ==> r.value.pos == old(scanner.tokenPos) && r.value.end == scanner.tokenPos
      ensures r.Ok? ==> last == SyntaxKind.SemicolonToken
    {
      var pos := scanner.tokenPos;
      var e := NextToken();
      if e.Some? {
        return Fail(e.value);
      }
      if token != SyntaxKind.Identifier {
        return Fail(LetNeedsIdentifier);
      }
      var declaration := ParseVariableDeclaration();
      if declaration.Fail? {
        return declaration;
      }
      e := ParseSemicolon();
      if e.Some? {
        return Fail(e.value);
      }
      var id := NewId();
      var statement := Node.VariableStatement(pos, scanner.tokenPos, id, declaration.value);
      One(declaration.value, old(nextId));
      Assemble(statement, old(nextId));
      return Ok(statement);
    }

    /**
     * The declaration object `parseVariableStatement` builds: the bound name and
     * its optional initializer. No node is allocated between it and the `;`, so
     * building it before `parseSemicolon` gives it the same id.
     */
    method ParseVariableDeclaration() returns (r: Result<Node>)
      requires Valid() && token == SyntaxKind.Identifier
      modifies this, scanner
      decreases Measure(), 18
      ensures r.Ok? ==> Ready() && Measure() < old(Measure()) && scopeFlags == old(scopeFlags)
      ensures r.Ok? ==> Tiled(r.value, old(nextId)) && nextId == r.value.id + 1
      ensures r.Ok? ==> Declaration(r.value) && r.value.end <= scanner.tokenPos
    {
      var name := ParseIdentifier();
      if name.Fail? {
        return name;
      }
      ghost var mid := nextId;
      var initializer := ParseInitializer();
      if initializer.Fail? {
        return Fail(initializer.error);
      }
      var id := NewId();
      var init := initializer.value;
      var declaration := Node.VariableDeclaration(name.value.pos, if init.Some? then init.value.end else name.value.end,
        id, name.value, init);
      One(name.value, old(nextId));
      Optional([name.value], init, old(nextId), mid, id);
      Assemble(declaration, old(nextId));
      return Ok(declaration);
    }

    /** The optional `= expression` of a `let`. */
    method ParseInitializer() returns (r: Result<Option<Node>>)
      requires Ready()
      modifies this, scanner
      decreases Measure(), 18
      ensures r.Ok? ==> Ready() && Measure() <= old(Measure()) && scopeFlags == old(scopeFlags)
      ensures r.Ok? ==> (r.value.Some? <==> old(token) == SyntaxKind.EqualsToken)
      ensures r.Ok? && r.value.None? ==> nextId == old(nextId) && token == old(token)
      ensures r.Ok? && r.value.Some? ==> Tiled(r.value.value, old(nextId)) && nextId == r.value.value.id + 1
      ensures r.Ok? && r.value.Some? ==> Expr(r.value.value) && r.value.value.end <= scanner.tokenPos
      ensures r.Ok? && r.value.Some? ==> Measure() < old(Measure())
    {
      if token != SyntaxKind.EqualsToken {
        return Ok(None);
      }
      var e := NextToken();
      if e.Some? {
        return Fail(e.value);
      }
      var x := ParseExpression();
      if x.Fail? {
        return Fail(x.error);
      }
      return Ok(Some(x.value));
    }

    /** `parseFunctionDeclaration`: `function name(p, ...) { ... }`, the body parsed with `InFunction` set. */
    method ParseFunctionDeclaration() returns (r: Result<Node>)
      requires Ready() && token == SyntaxKind.FunctionKeyword
      modifies this, scanner
      decreases Measure(), 19
      ensures r.Ok? ==> Ready() && Measure() < old(Measure()) && scopeFlags == old(scopeFlags)
      ensures r.Ok? ==> Tiled(r.value, old(nextId)) && nextId == r.value.id + 1
      ensures r.Ok? ==> r.value.FunctionDecl? && Stmt(r.value, InFunctionBody())
      ensures r.Ok? ==> r.value.pos == old(scanner.tokenPos)
    {
      var pos := scanner.tokenPos;
      var e := NextToken();
      if e.Some? {
        return Fail(e.value);
      }
      if token != SyntaxKind.Identifier {
        return Fail(FunctionNeedsIdentifier);
      }
      var name := ParseIdentifier();
      if name.Fail? {
        return name;
      }
      ghost var m1 := nextId;
      var parameters := ParseParameterList();
      if parameters.Fail? {
        return Fail(parameters.error);
      }
      ghost var m2 := nextId;
      var body := ParseFunctionBody();
      if body.Fail? {
        return body;
      }
      var id := NewId();
      var decl := Node.FunctionDecl(pos, body.value.end, id, name.value, parameters.value, body.value);
      FunctionTiled(decl, old(nextId), m1, m2);
      return Ok(decl);
    }

    /** The `(p, ...)` of a function declaration: identifiers, each optionally followed by `,`. */
    method ParseParameterList() returns (r: Result<seq<Node>>)
      requires Ready()
      modifies this, scanner
      ensures scopeFlags == old(scopeFlags)
      ensures old(token) != SyntaxKind.OpenParenToken ==> r.Fail?
      ensures r.Ok? ==> Ready() && Measure() < old(Measure())
      ensures r.Ok? ==> TiledList(r.value, old(nextId), nextId) && old(nextId) <= nextId
      ensures r.Ok? ==> forall p :: p in r.value ==> Parameter(p)
    {
      var e := Expect(SyntaxKind.OpenParenToken);
      if e.Some? {
        return Fail(e.value);
      }
      var parameters: seq<Node> := [];
      while token != SyntaxKind.CloseParenToken && token != SyntaxKind.EndOfFileToken
        invariant Ready() && Measure() < old(Measure()) && scopeFlags == old(scopeFlags)
        invariant forall p :: p in parameters ==> Parameter(p)
        invariant TiledList(parameters, old(nextId), nextId) && old(nextId) <= nextId
        decreases Measure()
      {
        if token != SyntaxKind.Identifier {
          return Fail(ParameterNeedsIdentifier);
        }
        var paramPos := scanner.tokenPos;
        ghost var mid := nextId;
        var paramName := ParseIdentifier();
        if paramName.Fail? {
          return Fail(paramName.error);
        }
        var id := NewId();
        var parameter := Node.ParameterDecl(paramPos, paramName.value.end, id, paramName.value);
        One(paramName.value, mid);
        Assemble(parameter, mid);
        Snoc(parameters, parameter, old(nextId), mid);
        parameters := parameters + [parameter];
        if token == SyntaxKind.CommaToken {
          e := NextToken();
          if e.Some? {
            return Fail(e.value);
          }
        }
      }
      e := Expect(SyntaxKind.CloseParenToken);
      if e.Some? {
        return Fail(e.value);
      }
      return Ok(parameters);
    }

    /** A function body: a block parsed with `InFunction` set, the flags restored afterwards. */
    method ParseFunctionBody() returns (r: Result<Node>)
      requires Ready()
      modifies this, scanner
      decreases Measure(), 20
      ensures r.Ok? ==> Ready() && Measure() < old(Measure()) && scopeFlags == old(scopeFlags)
      ensures r.Ok? ==> Tiled(r.value, old(nextId)) && nextId == r.value.id + 1
      ensures r.Ok? ==> r.value.Block? && Stmt(r.value, true)
    {
      var saveScopeFlags := scopeFlags;
      scopeFlags := scopeFlags | InFunction;
      r := ParseBlock();
      if r.Fail? {
        return;
      }
      scopeFlags := saveScopeFlags;
    }

    /**
     * `parseBlock`: move past the current token (the `{`, which is not checked),
     * then statements up to a `}` that must be there.
     */
    method ParseBlock() returns (r: Result<Node>)
      requires Ready()
      modifies this, scanner
      decreases Measure(), 19
      ensures r.Ok? ==> Ready() && Measure() < old(Measure()) && scopeFlags == old(scopeFlags)
      ensures r.Ok? ==> Tiled(r.value, old(nextId)) && nextId == r.value.id + 1
      ensures r.Ok? ==> r.value.Block? && Stmt(r.value, InFunctionBody())
      ensures r.Ok? ==> r.value.pos == old(scanner.tokenPos) && r.value.end == scanner.tokenPos
      ensures r.Ok? ==> last == SyntaxKind.CloseBraceToken
    {
      var pos := scanner.tokenPos;
      var e := NextToken();
      if e.Some? {
        return Fail(e.value);
      }
      var statements := ParseBlockStatements();
      if statements.Fail? {
        return Fail(statements.error);
      }
      e := NextToken();
      if e.Some? {
        return Fail(e.value);
      }
      var id := NewId();
      var block := Node.Block(pos, scanner.tokenPos, id, statements.value);
      Assemble(block, old(nextId));
      return Ok(block);
    }

    /** The statements of a block, up to the `}` that must end them. */
    method ParseBlockStatements() returns (r: Result<seq<Node>>)
      requires Ready()
      modifies this, scanner
      // at the end of the text it parses nothing, so it may be called without progress
      decreases Measure(), if token == SyntaxKind.EndOfFileToken then 0 else 21
      ensures r.Ok? ==> Ready() && token == SyntaxKind.CloseBraceToken && scopeFlags == old(scopeFlags)
      ensures r.Ok? ==> Measure() <= old(Measure()) && old(scanner.tokenPos) <= scanner.tokenPos
      ensures r.Ok? ==> TiledList(r.value, old(nextId), nextId) && forall s :: s in r.value ==> Stmt(s, InFunctionBody())
    {
      var statements: seq<Node> := [];
      while token != SyntaxKind.CloseBraceToken && token != SyntaxKind.EndOfFileToken
        invariant Ready() && scopeFlags == old(scopeFlags) && Measure() <= old(Measure())
        invariant old(scanner.tokenPos) <= scanner.tokenPos
        invariant forall s :: s in statements ==> Stmt(s, InFunctionBody())
        invariant TiledList(statements, old(nextId), nextId)
        decreases Measure()
      {
        ghost var mid := nextId;
        var s := ParseStatement();
        if s.Fail? {
          return Fail(s.error);
        }
        Snoc(statements, s.value, old(nextId), mid);
        statements := statements + [s.value];
      }
      if token != SyntaxKind.CloseBraceToken {
        return Fail(ExpectedCloseBrace);
      }
      return Ok(statements);
    }

    /** `parseWhileStatement`: `while (expression) statement`. */
    method ParseWhileStatement() returns (r: Result<Node>)
      requires Ready() && token == SyntaxKind.WhileKeyword
      modifies this, scanner
      decreases Measure(), 19
      ensures r.Ok? ==> Ready() && Measure() < old(Measure()) && scopeFlags == old(scopeFlags)
      ensures r.Ok? ==> Tiled(r.value, old(nextId)) && nextId == r.value.id + 1
      ensures r.Ok? ==> r.value.WhileStatement? && Stmt(r.value, InFunctionBody())
      ensures r.Ok? ==> r.value.pos == old(scanner.tokenPos)
    {
      var pos := scanner.tokenPos;
      var expression := ParseCondition();
      if expression.Fail? {
        return expression;
      }
      ghost var mid := nextId;
      var statement := ParseStatement();
      if statement.Fail? {
        return statement;
      }
      var id := NewId();
      var node := Node.WhileStatement(pos, statement.value.end, id, expression.value, statement.value);
      Two(expression.value, statement.value, old(nextId));
      Assemble(node, old(nextId));
      return Ok(node);
    }

    /** `parseForStatement`: `for (init; condition; incrementor) statement`, each part optional. */
    method ParseForStatement() returns (r: Result<Node>)
      requires Ready() && token == SyntaxKind.ForKeyword
      modifies this, scanner
      decreases Measure(), 19
      ensures r.Ok? ==> Ready() && Measure() < old(Measure()) && scopeFlags == old(scopeFlags)
      ensures r.Ok? ==> Tiled(r.value, old(nextId)) && nextId == r.value.id + 1
      ensures r.Ok? ==> r.value.ForStatement? && Stmt(r.value, InFunctionBody())
      ensures r.Ok? ==> r.value.pos == old(scanner.tokenPos)
    {
      var pos := scanner.tokenPos;
      var header := ParseForHeader();
      if header.Fail? {
        return Fail(header.error);
      }
      var (initializer, condition, incrementor) := header.value;
      ghost var m3 := nextId;
      var statement := ParseStatement();
      if statement.Fail? {
        return statement;
      }
      var id := NewId();
      var node := Node.ForStatement(pos, statement.value.end, id, initializer, condition, incrementor, statement.value);
      ForTiled(node, old(nextId), m3);
      return Ok(node);
    }

    /** The `for` keyword and the header after it: `(`, three parts, `)`. */
    method ParseForHeader() returns (r: Result<(Option<Node>, Option<Node>, Option<Node>)>)
      requires Ready() && nextId >= 1
      modifies this, scanner
      decreases Measure(), 18
      ensures r.Ok? ==> Ready() && Measure() < old(Measure()) && scopeFlags == old(scopeFlags)
      ensures r.Ok? ==> TiledList(Opt(r.value.0) + Opt(r.value.1) + Opt(r.value.2), old(nextId), nextId)
      ensures r.Ok? ==> r.value.0.Some? ==>
        (r.value.0.value.VariableStatement? && Stmt(r.value.0.value, InFunctionBody())) || Expr(r.value.0.value)
      ensures r.Ok? ==> (r.value.1.Some? ==> Expr(r.value.1.value)) && (r.value.2.Some? ==> Expr(r.value.2.value))
    {
      var e := SkipKeywordAndParen();
      if e.Some? {
        return Fail(e.value);
      }
      var initializer := ParseForInitializer();
      if initializer.Fail? {
        return Fail(initializer.error);
      }
      ghost var m1 := nextId;
      var condition := ParseClause(SyntaxKind.SemicolonToken);
      if condition.Fail? {
        return Fail(condition.error);
      }
      ghost var m2 := nextId;
      var incrementor := ParseClause(SyntaxKind.CloseParenToken);
      if incrementor.Fail? {
        return Fail(incrementor.error);
      }
      HeaderTiled(initializer.value, condition.value, incrementor.value, old(nextId), m1, m2, nextId);
      return Ok((initializer.value, condition.value, incrementor.value));
    }

    /** The first part of a `for` header: a `let` statement (which reads its own `;`), or a clause ended by `;`. */
    method ParseForInitializer() returns (r: Result<Option<Node>>)
      requires Ready()
      modifies this, scanner
      decreases Measure(), 20
      ensures r.Ok? ==> Ready() && Measure() < old(Measure()) && scopeFlags == old(scopeFlags)
      ensures r.Ok? && r.value.None? ==> nextId == old(nextId)
      ensures r.Ok? && r.value.Some? ==> Tiled(r.value.value, old(nextId)) && nextId == r.value.value.id + 1
      ensures r.Ok? && r.value.Some? ==>
        (r.value.value.VariableStatement? && Stmt(r.value.value, InFunctionBody())) || Expr(r.value.value)
    {
      if token == SyntaxKind.LetKeyword {
        var x := ParseVariableStatement();
        if x.Fail? {
          return Fail(x.error);
        }
        return Ok(Some(x.value));
      }
      r := ParseClause(SyntaxKind.SemicolonToken);
    }

    /**
     * One part of a `for` header as `parseForStatement` reads it: an expression
     * unless the current token is already `close`, then `expect(close)`.
     */
    method ParseClause(close: SyntaxKind) returns (r: Result<Option<Node>>)
      requires Valid() && close != SyntaxKind.EndOfFileToken
      modifies this, scanner
      decreases Measure(), 18
      ensures r.Ok? ==> Ready() && Measure() < old(Measure()) && scopeFlags == old(scopeFlags)
      ensures r.Ok? ==> (r.value.None? <==> old(token) == close)
      ensures r.Ok? && r.value.None? ==> nextId == old(nextId)
      ensures r.Ok? && r.value.Some? ==> Tiled(r.value.value, old(nextId)) && nextId == r.value.value.id + 1
      ensures r.Ok? && r.value.Some? ==> Expr(r.value.value) && r.value.value.pos == old(scanner.tokenPos)
    {
      var x: Option<Node> := None;
      if token != close {
        var y := ParseExpression();
        if y.Fail? {
          return Fail(y.error);
        }
        x := Some(y.value);
      }
      var e := Expect(close);
      if e.Some? {
        return Fail(e.value);
      }
      return Ok(x);
    }

    /** `parseIfStatement`: `if (expression) statement [else statement]`. */
    method ParseIfStatement() returns (r: Result<Node>)
      requires Ready() && token == SyntaxKind.IfKeyword
      modifies this, scanner
      decreases Measure(), 19
      ensures r.Ok? ==> Ready() && Measure() < old(Measure()) && scopeFlags == old(scopeFlags)
      ensures r.Ok? ==> Tiled(r.value, old(nextId)) && nextId == r.value.id + 1
      ensures r.Ok? ==> r.value.IfStatement? && Stmt(r.value, InFunctionBody())
      ensures r.Ok? ==> r.value.pos == old(scanner.tokenPos)
    {
      var pos := scanner.tokenPos;
      var expression := ParseCondition();
      if expression.Fail? {
        return expression;
      }
      var branches := ParseBranches();
      if branches.Fail? {
        return Fail(branches.error);
      }
      var (thenStatement, elseStatement) := branches.value;
      var id := NewId();
      var end := if elseStatement.Some? then elseStatement.value.end else thenStatement.end;
      var node := Node.IfStatement(pos, end, id, expression.value, thenStatement, elseStatement);
      IfTiled(node, old(nextId));
      return Ok(node);
    }

    /** The branches of an `if`: a statement, then an optional `else statement`. */
    method ParseBranches() returns (r: Result<(Node, Option<Node>)>)
      requires Ready() && nextId >= 1
      modifies this, scanner
      decreases Measure(), 21
      ensures r.Ok? ==> Ready() && Measure() < old(Measure()) && scopeFlags == old(scopeFlags)
      ensures r.Ok? ==> TiledList([r.value.0] + Opt(r.value.1), old(nextId), nextId)
      ensures r.Ok? ==> Stmt(r.value.0, InFunctionBody()) && (r.value.1.Some? ==> Stmt(r.value.1.value, InFunctionBody()))
    {
      var thenStatement := ParseStatement();
      if thenStatement.Fail? {
        return Fail(thenStatement.error);
      }
      ghost var mid := nextId;
      var elseStatement := ParseElse();
      if elseStatement.Fail? {
        return Fail(elseStatement.error);
      }
      One(thenStatement.value, old(nextId));
      Optional([thenStatement.value], elseStatement.value, old(nextId), mid, nextId);
      return Ok((thenStatement.value, elseStatement.value));
    }

    /** The optional `else statement` of an `if`. */
    method ParseElse() returns (r: Result<Option<Node>>)
      requires Ready()
      modifies this, scanner
      decreases Measure(), 20
      ensures r.Ok? ==> Ready() && Measure() <= old(Measure()) && scopeFlags == old(scopeFlags)
      ensures r.Ok? ==> (r.value.Some? <==> old(token) == SyntaxKind.ElseKeyword)
      ensures r.Ok? && r.value.None? ==> nextId == old(nextId)
      ensures r.Ok? && r.value.Some? ==> Tiled(r.value.value, old(nextId)) && nextId == r.value.value.id + 1
      ensures r.Ok? && r.value.Some? ==> Stmt(r.value.value, InFunctionBody())
    {
      if token != SyntaxKind.ElseKeyword {
        return Ok(None);
      }
      var e := NextToken();
      if e.Some? {
        return Fail(e.value);
      }
      var x := ParseStatement();
      if x.Fail? {
        return Fail(x.error);
      }
      return Ok(Some(x.value));
    }

    /** `parseReturnStatement`: only inside a function body; `return [expression];`. */
    method ParseReturnStatement() returns (r: Result<Node>)
      requires Ready() && token == SyntaxKind.ReturnKeyword
      modifies this, scanner
      decreases Measure(), 19
      ensures !old(InFunctionBody()) ==> r == Fail(ReturnOutsideFunction)
      ensures r.Ok? ==> Ready() && Measure() < old(Measure()) && scopeFlags == old(scopeFlags)
      ensures r.Ok? ==> Tiled(r.value, old(nextId)) && nextId == r.value.id + 1
      ensures r.Ok? ==> r.value.ReturnStatement? && Stmt(r.value, InFunctionBody())
      ensures r.Ok? ==> r.value.pos == old(scanner.tokenPos) && r.value.end == scanner.tokenPos
      ensures r.Ok? ==> last == SyntaxKind.SemicolonToken
    {
      if scopeFlags & InFunction == 0 {
        return Fail(ReturnOutsideFunction);
      }
      var pos := scanner.tokenPos;
      var expression := ParseReturnExpression();
      if expression.Fail? {
        return Fail(expression.error);
      }
      var e := ParseSemicolon();
      if e.Some? {
        return Fail(e.value);
      }
      var id := NewId();
      var node := Node.ReturnStatement(pos, scanner.tokenPos, id, expression.value);
      Optional([], expression.value, old(nextId), old(nextId), id);
      assert [] + Opt(expression.value) == Opt(expression.value);
      Assemble(node, old(nextId));
      return Ok(node);
    }

    /** The `return` keyword and, unless a `;` follows, the returned expression. */
    method ParseReturnExpression() returns (r: Result<Option<Node>>)
      requires Ready() && token == SyntaxKind.ReturnKeyword
      modifies this, scanner
      decreases Measure(), 18
      ensures r.Ok? ==> Ready() && Measure() < old(Measure()) && scopeFlags == old(scopeFlags)
      ensures r.Ok? && r.value.None? ==> nextId == old(nextId)
      ensures r.Ok? && r.value.Some? ==> Tiled(r.value.value, old(nextId)) && nextId == r.value.value.id + 1
      ensures r.Ok? && r.value.Some? ==> Expr(r.value.value)
    {
      var e := NextToken();
      if e.Some? {
        return Fail(e.value);
      }
      if token == SyntaxKind.SemicolonToken {
        return Ok(None);
      }
      var x := ParseExpression();
      if x.Fail? {
        return Fail(x.error);
      }
      return Ok(Some(x.value));
    }

    /** `parseIdentifier`: the current identifier token as a node. */
    method ParseIdentifier() returns (r: Result<Node>)
      requires Valid() && token == SyntaxKind.Identifier
      modifies this, scanner
      ensures scopeFlags == old(scopeFlags) && items == old(items)
      ensures r.Ok? ==> Ready() && Measure() < old(Measure())
      ensures r.Ok? ==> Tiled(r.value, old(nextId)) && nextId == r.value.id + 1
      ensures r.Ok? ==> IsName(r.value) && r.value.text == old(scanner.tokenValue)
      ensures r.Ok? ==> r.value.pos == old(scanner.tokenPos) && r.value.end == scanner.tokenPos
    {
      var pos := scanner.tokenPos;
      var text := scanner.tokenValue;
      var e := NextToken();
      if e.Some? {
        return Fail(e.value);
      }
      var id := NewId();
      var node := Node.Identifier(pos, scanner.tokenPos, id, text);
      Assemble(node, id);
      return Ok(node);
    }

    /** `parseExpression`: a binary expression at the lowest precedence. */
    method ParseExpression() returns (r: Result<Node>)
      requires Valid()
      modifies this, scanner
      decreases Measure(), 17
      ensures r.Ok? ==> Ready() && Measure() < old(Measure()) && scopeFlags == old(scopeFlags)
      ensures r.Ok? ==> Tiled(r.value, old(nextId)) && nextId == r.value.id + 1
      ensures r.Ok? ==> Expr(r.value) && items == old(items) + Flatten(r.value)
      ensures r.Ok? ==> GetOperatorPrecedence(token) <= Lowest
      ensures r.Ok? ==> r.value.pos == old(scanner.tokenPos) && r.value.end <= scanner.tokenPos
    {
      r := ParseBinaryExpression(Lowest);
    }

    /**
     * `parseBinaryExpression`: precedence climbing. An operator is taken while its
     * precedence is above `Lowest` and at least `minPrecedence`; its right operand
     * is climbed one level higher, so equal precedences associate to the left.
     */
    method ParseBinaryExpression(minPrecedence: int) returns (r: Result<Node>)
      requires Valid() && Lowest <= minPrecedence <= Atomic
      modifies this, scanner
      decreases Measure(), 16
      ensures r.Ok? ==> Ready() && Measure() < old(Measure()) && scopeFlags == old(scopeFlags)
      ensures r.Ok? ==> Tiled(r.value, old(nextId)) && nextId == r.value.id + 1
      ensures r.Ok? ==> Expr(r.value) && Prec(r.value) >= minPrecedence
      ensures r.Ok? ==> items == old(items) + Flatten(r.value)
      ensures r.Ok? ==> GetOperatorPrecedence(token) == Lowest || GetOperatorPrecedence(token) < minPrecedence
      ensures r.Ok? ==> r.value.pos == old(scanner.tokenPos) && r.value.end <= scanner.tokenPos
    {
      var first := ParseUnaryExpression();
      if first.Fail? {
        return first;
      }
      var left := first.value;
      while true
        invariant Ready() && Measure() < old(Measure()) && scopeFlags == old(scopeFlags)
        invariant Tiled(left, old(nextId)) && nextId == left.id + 1
        invariant Expr(left) && Prec(left) >= minPrecedence && GetOperatorPrecedence(token) <= Prec(left)
        invariant items == old(items) + Flatten(left)
        invariant left.pos == old(scanner.tokenPos) && left.end <= scanner.tokenPos
        decreases Measure()
      {
        if GetOperatorPrecedence(token) == Lowest || GetOperatorPrecedence(token) < minPrecedence {
          break;
        }
        var combined := ParseBinaryStep(left, minPrecedence, old(nextId), old(items));
        if combined.Fail? {
          return combined;
        }
        left := combined.value;
      }
      return Ok(left);
    }

    /** `nextToken()` past a binary operator, recorded in the trace. */
    method ReadOperator() returns (err: Option<ParseError>)
      requires Ready() && token != SyntaxKind.EndOfFileToken
      modifies this, scanner
      ensures scopeFlags == old(scopeFlags) && nextId == old(nextId)
      ensures err.None? ==> Ready() && Measure() < old(Measure()) && old(scanner.tokenPos) <= scanner.tokenPos
      ensures err.None? ==> items == old(items) + [Operator(old(token))]
    {
      var operatorToken := token;
      err := NextToken();
      if err.None? {
        items := items + [Operator(operatorToken)];
      }
    }

    /**
     * One round of the precedence loop: move past the operator, climb its right
     * operand, and combine it with `left`.
     */
    method ParseBinaryStep(left: Node, minPrecedence: int, ghost lo: nat, ghost base: seq<Item>) returns (r: Result<Node>)
      requires Ready() && Tiled(left, lo) && nextId == left.id + 1 && items == base + Flatten(left)
      requires Expr(left) && left.end <= scanner.tokenPos
      requires Lowest < GetOperatorPrecedence(token) && minPrecedence <= GetOperatorPrecedence(token) <= Prec(left)
      modifies this, scanner
      decreases Measure(), 15
      ensures r.Ok? ==> Ready() && Measure() < old(Measure()) && scopeFlags == old(scopeFlags)
      ensures r.Ok? ==> Tiled(r.value, lo) && nextId == r.value.id + 1
      ensures r.Ok? ==> r.value.BinaryExpression? && r.value.left == left && r.value.operator == old(token)
      ensures r.Ok? ==> Expr(r.value) && GetOperatorPrecedence(token) <= Prec(r.value)
      ensures r.Ok? ==> items == base + Flatten(r.value)
      ensures r.Ok? ==> r.value.pos == left.pos && r.value.end <= scanner.tokenPos
    {
      var operatorToken := token;
      var precedence := GetOperatorPrecedence(operatorToken);
      var e := ReadOperator();
      if e.Some? {
        return Fail(e.value);
      }
      var nextMinPrecedence := if operatorToken == SyntaxKind.EqualsToken then precedence else precedence + 1;
      var right := ParseBinaryExpression(nextMinPrecedence);
      if right.Fail? {
        return right;
      }
      var id := NewId();
      var combined := Combine(left, operatorToken, right.value, id);
      assert combined.BinaryExpression? && combined.left == left && combined.right == right.value;
      Two(left, right.value, lo);
      Assemble(combined, lo);
      FlattenAppend(base, combined);
      return Ok(combined);
    }

    /**
     * `parseUnaryExpression`: prefix `++ -- + -` nest; otherwise a member
     * expression, optionally followed by one postfix `++` or `--`.
     */
    method ParseUnaryExpression() returns (r: Result<Node>)
      requires Valid()
      modifies this, scanner
      decreases Measure(), 15
      ensures r.Ok? ==> Ready() && Measure() < old(Measure()) && scopeFlags == old(scopeFlags)
      ensures r.Ok? ==> Tiled(r.value, old(nextId)) && nextId == r.value.id + 1
      ensures r.Ok? ==> Expr(r.value) && !r.value.BinaryExpression? && items == old(items) + [Operand(r.value)]
      ensures r.Ok? && IsPrefixOperator(old(token)) ==>
        r.value.PrefixUnaryExpression? && r.value.operator == old(token)
      ensures r.Ok? && !IsPrefixOperator(old(token)) ==> !r.value.PrefixUnaryExpression?
      ensures r.Ok? ==> r.value.pos == old(scanner.tokenPos) && r.value.end <= scanner.tokenPos
    {
      if token == SyntaxKind.PlusPlusToken || token == SyntaxKind.MinusMinusToken
        || token == SyntaxKind.PlusToken || token == SyntaxKind.MinusToken
      {
        r := ParsePrefixUnary();
        return;
      }
      var expression := ParseMemberExpression();
      if expression.Fail? {
        return expression;
      }
      r := ParsePostfix(expression.value, old(nextId), old(items));
    }

    /** A prefix `++ -- + -` and its operand, itself a unary expression. */
    method ParsePrefixUnary() returns (r: Result<Node>)
      requires Valid() && IsPrefixOperator(token)
      modifies this, scanner
      decreases Measure(), 14
      ensures r.Ok? ==> Ready() && Measure() < old(Measure()) && scopeFlags == old(scopeFlags)
      ensures r.Ok? ==> Tiled(r.value, old(nextId)) && nextId == r.value.id + 1
      ensures r.Ok? ==> r.value.PrefixUnaryExpression? && r.value.operator == old(token) && Expr(r.value)
      ensures r.Ok? ==> items == old(items) + [Operand(r.value)]
      ensures r.Ok? ==> r.value.pos == old(scanner.tokenPos) && r.value.end <= scanner.tokenPos
    {
      ghost var saved := items;
      var pos := scanner.tokenPos;
      var operator := token;
      var e := NextToken();
      if e.Some? {
        return Fail(e.value);
      }
      var operand := ParseUnaryExpression();
      if operand.Fail? {
        return operand;
      }
      var id := NewId();
      var node := Node.PrefixUnaryExpression(pos, operand.value.end, id, operator, operand.value);
      One(operand.value, old(nextId));
      Assemble(node, old(nextId));
      items := saved + [Operand(node)];
      return Ok(node);
    }

    /** After a member expression: one optional postfix `++` or `--`. */
    method ParsePostfix(expression: Node, ghost lo: nat, ghost base: seq<Item>) returns (r: Result<Node>)
      requires Ready() && Tiled(expression, lo) && nextId == expression.id + 1
      requires Expr(expression) && IsMember(expression) && expression.end <= scanner.tokenPos
      modifies this, scanner
      ensures r.Ok? ==> Ready() && Measure() <= old(Measure()) && scopeFlags == old(scopeFlags)
      ensures r.Ok? ==> Tiled(r.value, lo) && nextId == r.value.id + 1
      ensures r.Ok? ==> Expr(r.value) && !r.value.BinaryExpression? && !r.value.PrefixUnaryExpression?
      ensures r.Ok? ==> items == base + [Operand(r.value)]
      ensures r.Ok? ==> r.value.pos == expression.pos && r.value.end <= scanner.tokenPos
    {
      if token == SyntaxKind.PlusPlusToken || token == SyntaxKind.MinusMinusToken {
        var operator := token;
        var pos := expression.pos;
        var end := scanner.tokenPos;
        var e := NextToken();
        if e.Some? {
          return Fail(e.value);
        }
        var id := NewId();
        var node := Node.PostfixUnaryExpression(pos, end, id, expression, operator);
        One(expression, lo);
        Assemble(node, lo);
        items := base + [Operand(node)];
        return Ok(node);
      }
      items := base + [Operand(expression)];
      return Ok(expression);
    }

    /** `parseMemberExpression`: a primary expression followed by any number of `[index]`. */
    method ParseMemberExpression() returns (r: Result<Node>)
      requires Valid()
      modifies this, scanner
      decreases Measure(), 14
      ensures r.Ok? ==> Ready() && Measure() < old(Measure()) && scopeFlags == old(scopeFlags)
      ensures r.Ok? ==> Tiled(r.value, old(nextId)) && nextId == r.value.id + 1
      ensures r.Ok? ==> Expr(r.value) && IsMember(r.value)
      ensures r.Ok? ==> r.value.pos == old(scanner.tokenPos) && r.value.end <= scanner.tokenPos
      ensures r.Ok? ==> token != SyntaxKind.OpenBracketToken
    {
      var primary := ParsePrimaryExpression();
      if primary.Fail? {
        return primary;
      }
      var expression := primary.value;
      while true
        invariant Ready() && Measure() < old(Measure()) && scopeFlags == old(scopeFlags)
        invariant Tiled(expression, old(nextId)) && nextId == expression.id + 1
        invariant Expr(expression) && IsMember(expression)
        invariant expression.pos == old(scanner.tokenPos) && expression.end <= scanner.tokenPos
        decreases Measure()
      {
        if token == SyntaxKind.OpenBracketToken {
          var access := ParseElementAccess(expression, old(nextId));
          if access.Fail? {
            return access;
          }
          expression := access.value;
        } else {
          break;
        }
      }
      return Ok(expression);
    }

    /** One `[index]` after `expression`. */
    method ParseElementAccess(expression: Node, ghost lo: nat) returns (r: Result<Node>)
      requires Ready() && token == SyntaxKind.OpenBracketToken
      requires Tiled(expression, lo) && nextId == expression.id + 1
      requires Expr(expression) && IsMember(expression) && expression.end <= scanner.tokenPos
      modifies this, scanner
      decreases Measure(), 13
      ensures r.Ok? ==> Ready() && Measure() < old(Measure()) && scopeFlags == old(scopeFlags)
      ensures r.Ok? ==> Tiled(r.value, lo) && nextId == r.value.id + 1
      ensures r.Ok? ==> r.value.ElementAccessExpression? && r.value.expression == expression && Expr(r.value)
      ensures r.Ok? ==> r.value.pos == expression.pos && r.value.end == scanner.tokenPos
    {
      var e := NextToken();
      if e.Some? {
        return Fail(e.value);
      }
      var argument := ParseExpression();
      if argument.Fail? {
        return argument;
      }
      e := Expect(SyntaxKind.CloseBracketToken);
      if e.Some? {
        return Fail(e.value);
      }
      var id := NewId();
      var access := Node.ElementAccessExpression(expression.pos, scanner.tokenPos, id, expression, argument.value);
      Two(expression, argument.value, lo);
      Assemble(access, lo);
      return Ok(access);
    }

    /** `parsePrimaryExpression`: an identifier, a literal or an array literal; anything else is an error. */
    method ParsePrimaryExpression() returns (r: Result<Node>)
      requires Valid()
      modifies this, scanner
      decreases Measure(), 13
      ensures !StartsPrimary(old(token)) ==> r == Fail(UnexpectedToken(old(token), old(scanner.tokenPos)))
      ensures r.Ok? ==> Ready() && Measure() < old(Measure()) && scopeFlags == old(scopeFlags)
      ensures r.Ok? ==> Tiled(r.value, old(nextId)) && nextId == r.value.id + 1
      ensures r.Ok? ==> Expr(r.value) && IsMember(r.value)
      ensures r.Ok? ==>
        r.value.Kind() == if old(token) == SyntaxKind.OpenBracketToken then SyntaxKind.ArrayLiteralExpression else old(token)
      ensures r.Ok? ==> r.value.pos == old(scanner.tokenPos) && r.value.end <= scanner.tokenPos
    {
      var pos := scanner.tokenPos;
      if token == SyntaxKind.Identifier {
        r := ParseIdentifier();
      } else if token == SyntaxKind.NumericLiteral {
        var value := ParseFloat(scanner.tokenValue);
        var text := scanner.GetTokenText();
        var e := NextToken();
        if e.Some? {
          return Fail(e.value);
        }
        r := NewLiteral(pos, SyntaxKind.NumericLiteral, NumberValue(value), text);
      } else if token == SyntaxKind.StringLiteral {
        var text := scanner.tokenValue;
        var e := NextToken();
        if e.Some? {
          return Fail(e.value);
        }
        r := NewLiteral(pos, SyntaxKind.StringLiteral, StringValue(text), text);
      } else if token == SyntaxKind.TrueKeyword || token == SyntaxKind.FalseKeyword {
        var kind := token;
        var text := if kind == SyntaxKind.TrueKeyword then "true" else "false";
        var e := NextToken();
        if e.Some? {
          return Fail(e.value);
        }
        r := NewLiteral(pos, kind, BooleanValue(kind == SyntaxKind.TrueKeyword), text);
      } else if token == SyntaxKind.OpenBracketToken {
        r := ParseArrayLiteralExpression();
      } else {
        r := Fail(UnexpectedToken(token, pos));
      }
    }
    /** The literal node `parsePrimaryExpression` builds once it has moved past the literal's token. */
    method NewLiteral(pos: nat, kind: LiteralKind, value: LiteralValue, text: string) returns (r: Result<Node>)
      requires nextId >= 1
      modifies this
      ensures token == old(token) && scopeFlags == old(scopeFlags) && items == old(items) && last == old(last)
      ensures nextId == old(nextId) + 1
      ensures r == Ok(Node.Literal(pos, scanner.tokenPos, old(nextId), kind, value, text))
      ensures Tiled(r.value, old(nextId))
    {
      var id := nextId;
      nextId := nextId + 1;
      var node := Node.Literal(pos, scanner.tokenPos, id, kind, value, text);
      Assemble(node, id);
      return Ok(node);
    }

    /** `parseArrayLiteralExpression`: `[` then expressions, each optionally followed by `,`, then `]`. */
    method ParseArrayLiteralExpression() returns (r: Result<Node>)
      requires Valid() && token == SyntaxKind.OpenBracketToken
      modifies this, scanner
      decreases Measure(), 12
      ensures r.Ok? ==> Ready() && Measure() < old(Measure()) && scopeFlags == old(scopeFlags)
      ensures r.Ok? ==> Tiled(r.value, old(nextId)) && nextId == r.value.id + 1
      ensures r.Ok? ==> r.value.ArrayLiteralExpression? && Expr(r.value)
      ensures r.Ok? ==> r.value.pos == old(scanner.tokenPos) && r.value.end == scanner.tokenPos
      ensures r.Ok? ==> last == SyntaxKind.CloseBracketToken
    {
      var pos := scanner.tokenPos;
      var e := NextToken();
      if e.Some? {
        return Fail(e.value);
      }
      var elements: seq<Node> := [];
      while token != SyntaxKind.CloseBracketToken && token != SyntaxKind.EndOfFileToken
        invariant Ready() && Measure() < old(Measure()) && scopeFlags == old(scopeFlags)
        invariant forall x :: x in elements ==> Expr(x)
        invariant TiledList(elements, old(nextId), nextId)
        decreases Measure()
      {
        ghost var mid := nextId;
        var x := ParseExpression();
        if x.Fail? {
          return x;
        }
        Snoc(elements, x.value, old(nextId), mid);
        elements := elements + [x.value];
        if token == SyntaxKind.CommaToken {
          e := NextToken();
          if e.Some? {
            return Fail(e.value);
          }
        }
      }
      e := Expect(SyntaxKind.CloseBracketToken);
      if e.Some? {
        return Fail(e.value);
      }
      var id := NewId();
      var node := Node.ArrayLiteralExpression(pos, scanner.tokenPos, id, elements);
      Assemble(node, old(nextId));
      return Ok(node);
    }

    /**
     * `parseExpressionStatement`: an expression and its `;`. When the `;` is
     * missing, `parseSemicolon` is called only to throw its error.
     */
    method ParseExpressionStatement() returns (r: Result<Node>)
      requires Valid()
      modifies this, scanner
      decreases Measure(), 18
      ensures r.Ok? ==> Ready() && Measure() < old(Measure()) && scopeFlags == old(scopeFlags)
      ensures r.Ok? ==> Tiled(r.value, old(nextId)) && nextId == r.value.id + 1
      ensures r.Ok? ==> r.value.ExpressionStatement? && Stmt(r.value, InFunctionBody())
      ensures r.Ok? ==> r.value.pos == old(scanner.tokenPos) && r.value.end == scanner.tokenPos
      ensures r.Ok? ==> last == SyntaxKind.SemicolonToken
    {
      var pos := scanner.tokenPos;
      var expression := ParseExpression();
      if expression.Fail? {
        return expression;
      }
      if token == SyntaxKind.SemicolonToken {
        var e := NextToken();
        if e.Some? {
          return Fail(e.value);
        }
      } else {
        var e := ParseSemicolon();
        return Fail(e.value);
      }
      var id := NewId();
      var node := Node.ExpressionStatement(pos, scanner.tokenPos, id, expression.value);
      One(expression.value, old(nextId));
      Assemble(node, old(nextId));
      return Ok(node);
    }
  }

  /** A name, a tiled list of parameters after it and a body after those tile a function declaration. */
  lemma FunctionTiled(n: Node, lo: nat, m1: nat, m2: nat)
    requires n.FunctionDecl? && 1 <= lo
    requires Tiled(n.name, lo) && m1 == n.name.id + 1
    requires TiledList(n.parameters, m1, m2) && Tiled(n.body, m2) && n.id == n.body.id + 1
    ensures Tiled(n, lo)
  {
    var ps := [n.name] + n.parameters;
    assert ps[1..] == n.parameters;
    Snoc(ps, n.body, lo, m2);
    assert Subnodes(n) == ps + [n.body];
    Assemble(n, lo);
  }

  /** Three optional parts, each tiled after the one before, tile a list. */
  lemma HeaderTiled(a: Option<Node>, b: Option<Node>, c: Option<Node>, lo: nat, m1: nat, m2: nat, hi: nat)
    requires 1 <= lo <= m1 <= m2 <= hi
    requires a.Some? ==> Tiled(a.value, lo) && a.value.id < m1
    requires b.Some? ==> Tiled(b.value, m1) && b.value.id < m2
    requires c.Some? ==> Tiled(c.value, m2) && c.value.id < hi
    ensures TiledList(Opt(a) + Opt(b) + Opt(c), lo, hi)
  {
    Optional([], a, lo, lo, m1);
    assert [] + Opt(a) == Opt(a);
    Optional(Opt(a), b, lo, m1, m2);
    Optional(Opt(a) + Opt(b), c, lo, m2, hi);
  }

  /** A tiled header followed by a tiled body tiles a `for`. */
  lemma ForTiled(n: Node, lo: nat, mid: nat)
    requires n.ForStatement? && 1 <= lo
    requires TiledList(Opt(n.initializer) + Opt(n.condition) + Opt(n.incrementor), lo, mid)
    requires Tiled(n.statement, mid) && n.id == n.statement.id + 1
    ensures Tiled(n, lo)
  {
    Snoc(Opt(n.initializer) + Opt(n.condition) + Opt(n.incrementor), n.statement, lo, mid);
    Assemble(n, lo);
  }

  /** A condition followed by tiled branches tiles an `if`. */
  lemma IfTiled(n: Node, lo: nat)
    requires n.IfStatement? && 1 <= lo
    requires Tiled(n.expression, lo)
    requires TiledList([n.thenStatement] + Opt(n.elseStatement), n.expression.id + 1, n.id)
    ensures Tiled(n, lo)
  {
    var ss := [n.expression] + ([n.thenStatement] + Opt(n.elseStatement));
    assert ss[1..] == [n.thenStatement] + Opt(n.elseStatement);
    assert Subnodes(n) == ss;
    Assemble(n, lo);
  }

  /** Reading the root operator of a binary node between its operands' traces gives its own trace. */
  lemma FlattenAppend(base: seq<Item>, n: Node)
    requires n.BinaryExpression?
    ensures base + Flatten(n.left) + [Operator(n.operator)] + Flatten(n.right) == base + Flatten(n)
  {
  }

  /** `createParser(text).parseSourceFile()`: a fresh parser over `text`. */
  method Parse(text: string) returns (r: Result<Node>)
    ensures r.Ok? ==> Grammar.File(r.value, text) && WellNumbered(r.value)
  {
    var parser := new Parser(text);
    r := parser.ParseSourceFile();
  }
}
