/**
 * Properties of what the printer (src/emitter.ts) writes: the line it tracks, the
 * layout of the readable form, the minified form's independence from the
 * indentation level, the source map built alongside, and the operator and literal
 * spellings read back by the scanner.
 */
module EmitterFacts {
  import opened Ast
  import opened Emitter
  import Scanning
  import ConstantFolding
  import SourceMap

  /* ---------------- line and column ---------------- */

  /**
   * `write` moves one line down per newline and one column right per other
   * character: the line after `s` is the line before plus the newlines of `s`, a text
   * ending in a newline leaves the column at 0, and a text without one moves the
   * column by its length.
   */
  lemma {:induction false} AdvanceCounts(p: (nat, nat), s: string)
    ensures Advance(p, s).0 == p.0 + Newlines(s)
    ensures s != [] && s[|s| - 1] == '\n' ==> Advance(p, s).1 == 0
    ensures Newlines(s) == 0 ==> Advance(p, s) == (p.0, p.1 + |s|)
  {
    if s != [] {
      AdvanceCounts(p, s[..|s| - 1]);
    }
  }

  /** The printer's `line` is one more than the number of newlines in its output. */
  lemma LineCountsNewlines(w: Trace)
    ensures Position(w).0 == 1 + Newlines(Flatten(w))
  {
    PositionIsAdvance(w);
    AdvanceCounts((1, 0), Flatten(w));
  }

  /* ---------------- the readable layout ---------------- */

  /** The last write ends with a newline. */
  predicate EndsLine(w: Trace) {
    w.Then? && |w.last.text| > 0 && w.last.text[|w.last.text| - 1] == '\n'
  }

  /** The kinds `printStatement` writes no terminator after when not minifying. */
  predicate Unterminated(k: SyntaxKind) {
    k == SyntaxKind.Block || k == SyntaxKind.IfStatement || k == SyntaxKind.FunctionDecl
    || k == SyntaxKind.WhileStatement || k == SyntaxKind.ForStatement
  }

  /**
   * The statements printed as bodies of `if`, `while` and `for` have the kind of the
   * node they are: no literal or bare token claims one of the kinds above. The parser
   * and the factory only make literals and tokens of literal kinds.
   */
  predicate KindsAgree(s: Node) {
    && ((s.Literal? || s.Token?) ==> !Unterminated(s.Kind()))
    && (s.IfStatement? ==> KindsAgree(s.thenStatement) && (s.elseStatement.Some? ==> KindsAgree(s.elseStatement.value)))
    && (s.WhileStatement? ==> KindsAgree(s.statement))
    && (s.ForStatement? ==> KindsAgree(s.statement))
  }

  /**
   * Not minified, every statement ends its line: with `;\n` after variable, return
   * and expression statements (and any other kind the `switch` does not name), with
   * the `}\n` of a block after functions and blocks, and with the end of the body
   * after `if`, `while` and `for`. So the next statement starts at column 0. A print
   * that threw has stopped mid-line.
   */
  lemma {:induction false} StatementEndsLine(level: nat, s: Node, w: Trace)
    requires KindsAgree(s)
    ensures !StatementOut(false, level, s, w).Threw? ==> EndsLine(StatementOut(false, level, s, w))
    ensures !StatementOut(false, level, s, w).Threw? ==> Position(StatementOut(false, level, s, w)).1 == 0
    decreases s, 4
  {
    var w0 := IndentOut(false, level, w);
    var inner := KindOut(false, level, s, w0);
    assert StatementOut(false, level, s, w) == TerminatorOut(false, s, inner);
    if !Unterminated(s.Kind()) {
      var t := ";\n";
      assert TerminatorOut(false, s, inner) == Put(inner, t);
      assert t[|t| - 1] == '\n';
      assert !inner.Threw? ==> EndsLine(Put(inner, t));
    } else {
      assert TerminatorOut(false, s, inner) == inner;
      if s.Block? {
        assert inner == BlockOut(false, level, s, w0);
      } else if s.FunctionDecl? {
        var w1 := Put(IdentOut(s.name, PutAt(w0, "function ", s)), "(");
        var w2 := PutIf(true, Put(ParamsOut(false, s.parameters, |s.parameters|, w1), ")"), " ");
        assert inner == FunctionOut(false, level, s, w0) == BlockOut(false, level, s.body, w2);
      } else if s.IfStatement? {
        IfEndsLine(level, s, w0);
      } else if s.WhileStatement? {
        var w1 := Put(PutIf(true, PutAt(w0, "while", s), " "), "(");
        var w2 := PutIf(true, Put(ExprOut(false, s.expression, w1), ")"), " ");
        BodyEndsLine(level, s.statement, w2);
        assert inner == WhileOut(false, level, s, w0) == BodyOut(false, level, s.statement, w2);
      } else {
        var w1 := Put(PutIf(true, PutAt(w0, "for", s), " "), "(");
        var w3 := Put(ForInitOut(false, s, w1), ";");
        var w5 := Put(ForClauseOut(false, s, s.condition, w3), ";");
        var w6 := ForClauseOut(false, s, s.incrementor, w5);
        BodyEndsLine(level, s.statement, PutIf(true, Put(w6, ")"), " "));
        assert inner == ForOut(false, level, s, w0) == BodyOut(false, level, s.statement, PutIf(true, Put(w6, ")"), " "));
      }
      assert !inner.Threw? ==> EndsLine(inner);
    }
    if !StatementOut(false, level, s, w).Threw? {
      EndsLineAtColumnZero(StatementOut(false, level, s, w));
    }
  }

  /** A body ends its line, whether it is a block or a single statement. */
  lemma {:induction false} BodyEndsLine(level: nat, body: Node, w: Trace)
    requires KindsAgree(body)
    ensures !BodyOut(false, level, body, w).Threw? ==> EndsLine(BodyOut(false, level, body, w))
    decreases body, 5
  {
    if !body.Block? {
      StatementEndsLine(level, body, w);
    }
  }

  /** An `if` ends its line: with its `then` body when there is no `else`, with the `else` part otherwise. */
  lemma {:induction false} IfEndsLine(level: nat, s: Node, w: Trace)
    requires s.IfStatement? && KindsAgree(s)
    ensures !IfOut(false, level, s, w).Threw? ==> EndsLine(IfOut(false, level, s, w))
    decreases s, 2
  {
    var w1 := Put(PutIf(true, PutAt(w, "if", s), " "), "(");
    var w2 := PutIf(true, Put(ExprOut(false, s.expression, w1), ")"), " ");
    var w3 := BodyOut(false, level, s.thenStatement, w2);
    BodyEndsLine(level, s.thenStatement, w2);
    if s.elseStatement.Some? {
      var el := s.elseStatement.value;
      var w4 := PutIf(true, Put(PutIf(true, w3, " "), "else"), " ");
      if el.IfStatement? {
        IfEndsLine(level, el, w4);
      } else {
        BodyEndsLine(level, el, w4);
      }
    }
  }

  /** After a write that ends in a newline the printer is at column 0. */
  lemma EndsLineAtColumnZero(w: Trace)
    requires EndsLine(w)
    ensures Position(w).1 == 0
  {
    AdvanceCounts(Position(w.before), w.last.text);
  }

  /* ---------------- the minified form ---------------- */

  /**
   * Minified, `writeIndent` writes nothing, so a statement prints the same at every
   * indentation level.
   */
  lemma {:induction false} StatementLevelFree(l1: nat, l2: nat, s: Node)
    ensures forall w :: StatementOut(true, l1, s, w) == StatementOut(true, l2, s, w)
    decreases s, 4
  {
    KindLevelFree(l1, l2, s);
  }

  /** The `switch` of `printStatement` prints the same at every level when minifying. */
  lemma {:induction false} KindLevelFree(l1: nat, l2: nat, s: Node)
    ensures forall w :: KindOut(true, l1, s, w) == KindOut(true, l2, s, w)
    decreases s, 3
  {
    if s.Block? {
      BlockLevelFree(l1, l2, s);
    } else if s.FunctionDecl? {
      BlockLevelFree(l1, l2, s.body);
      forall w ensures FunctionOut(true, l1, s, w) == FunctionOut(true, l2, s, w) {
        var w1 := Put(IdentOut(s.name, PutAt(w, "function ", s)), "(");
        var w2 := PutIf(false, Put(ParamsOut(true, s.parameters, |s.parameters|, w1), ")"), " ");
        assert BlockOut(true, l1, s.body, w2) == BlockOut(true, l2, s.body, w2);
      }
    } else if s.IfStatement? {
      IfLevelFree(l1, l2, s);
    } else if s.WhileStatement? {
      BodyLevelFree(l1, l2, s.statement);
      forall w ensures WhileOut(true, l1, s, w) == WhileOut(true, l2, s, w) {
        var w1 := Put(PutIf(false, PutAt(w, "while", s), " "), "(");
        var w2 := PutIf(false, Put(ExprOut(true, s.expression, w1), ")"), " ");
        assert BodyOut(true, l1, s.statement, w2) == BodyOut(true, l2, s.statement, w2);
      }
    } else if s.ForStatement? {
      BodyLevelFree(l1, l2, s.statement);
      forall w ensures ForOut(true, l1, s, w) == ForOut(true, l2, s, w) {
        var w1 := Put(PutIf(false, PutAt(w, "for", s), " "), "(");
        var w3 := Put(ForInitOut(true, s, w1), ";");
        var w5 := Put(ForClauseOut(true, s, s.condition, w3), ";");
        var w6 := PutIf(false, Put(ForClauseOut(true, s, s.incrementor, w5), ")"), " ");
        assert BodyOut(true, l1, s.statement, w6) == BodyOut(true, l2, s.statement, w6);
      }
    }
  }

  /** A body prints the same at every level when minifying. */
  lemma {:induction false} BodyLevelFree(l1: nat, l2: nat, body: Node)
    ensures forall w :: BodyOut(true, l1, body, w) == BodyOut(true, l2, body, w)
    decreases body, 5
  {
    if body.Block? {
      BlockLevelFree(l1, l2, body);
    } else {
      StatementLevelFree(l1, l2, body);
    }
  }

  /** A block prints the same at every level when minifying. */
  lemma {:induction false} BlockLevelFree(l1: nat, l2: nat, b: Node)
    ensures forall w :: BlockOut(true, l1, b, w) == BlockOut(true, l2, b, w)
    decreases b, 1
  {
    var ss := BlockStatements(b);
    StatementsLevelFree(l1 + 1, l2 + 1, b, ss, |ss|);
  }

  /** A list of statements prints the same at every level when minifying. */
  lemma {:induction false} StatementsLevelFree(l1: nat, l2: nat, owner: Node, ss: seq<Node>, n: nat)
    requires n <= |ss| && forall c :: c in ss ==> (owner decreases to c)
    ensures forall w :: StatementsOut(true, l1, owner, ss, n, w) == StatementsOut(true, l2, owner, ss, n, w)
    decreases owner, 0, n
  {
    if n > 0 {
      StatementsLevelFree(l1, l2, owner, ss, n - 1);
      assert ss[n - 1] in ss;
      StatementLevelFree(l1, l2, ss[n - 1]);
    }
  }

  /** An `if` prints the same at every level when minifying. */
  lemma {:induction false} IfLevelFree(l1: nat, l2: nat, s: Node)
    requires s.IfStatement?
    ensures forall w :: IfOut(true, l1, s, w) == IfOut(true, l2, s, w)
    decreases s, 2
  {
    BodyLevelFree(l1, l2, s.thenStatement);
    if s.elseStatement.Some? {
      var el := s.elseStatement.value;
      if el.IfStatement? {
        IfLevelFree(l1, l2, el);
      } else {
        BodyLevelFree(l1, l2, el);
      }
      forall w ensures ElseOut(true, l1, s, w) == ElseOut(true, l2, s, w) {
        var w1 := PutIf(false, Put(PutIf(false, w, " "), "else"), " ");
        if el.IfStatement? {
          assert IfOut(true, l1, el, w1) == IfOut(true, l2, el, w1);
        } else {
          assert BodyOut(true, l1, el, w1) == BodyOut(true, l2, el, w1);
        }
      }
    }
  }

  /* ---------------- the source map ---------------- */

  /** No write asked for a mapping: every node written was synthetic, or none was passed. */
  predicate Unmapped(w: Trace) {
    match w
    case Start => true
    case Then(before, p) => !p.mapped && Unmapped(before)
    case Threw(before) => Unmapped(before)
  }

  /** Writes that name no node with a source position add nothing to the source map. */
  lemma {:induction false} ReplayUnmapped(base: SourceMap.GenState, w: Trace)
    requires Unmapped(w)
    ensures Replay(base, w) == base
  {
    if !w.Start? {
      ReplayUnmapped(base, w.before);
    }
  }

  /**
   * The source map built by the printer never runs ahead of it: the generated line of
   * the last mapping is at most the printer's current line, and the `mappings` text
   * keeps every `,` between two segments of one line.
   */
  lemma {:induction false} ReplayFollowsPrinter(base: SourceMap.GenState, w: Trace)
    requires base.lastGeneratedLine <= 1 && SourceMap.CommasSeparate(base.mappings)
    ensures Replay(base, w).lastGeneratedLine <= Position(w).0
    ensures SourceMap.CommasSeparate(Replay(base, w).mappings)
  {
    match w
    case Start =>
    case Then(before, p) =>
      ReplayFollowsPrinter(base, before);
      AdvanceCounts(Position(before), p.text);
      if p.mapped {
        SourceMap.AddKeepsCommas(Replay(base, before), MappingAt(Position(before)));
      }
    case Threw(before) =>
      ReplayFollowsPrinter(base, before);
  }

  /* ---------------- operators and literals read back ---------------- */

  /** The operator kinds the scanner produces. */
  predicate ScannedOperator(k: SyntaxKind) {
    k == SyntaxKind.PlusToken || k == SyntaxKind.MinusToken || k == SyntaxKind.AsteriskToken
    || k == SyntaxKind.SlashToken || k == SyntaxKind.EqualsToken || k == SyntaxKind.EqualsEqualsToken
    || k == SyntaxKind.LessThanToken || k == SyntaxKind.LessThanEqualsToken || k == SyntaxKind.GreaterThanToken
    || k == SyntaxKind.GreaterThanEqualsToken || k == SyntaxKind.PlusPlusToken || k == SyntaxKind.MinusMinusToken
  }

  /**
   * The spelling of every operator the scanner produces scans back as that operator,
   * when it ends the text or is followed by the space the readable form writes.
   */
  lemma OperatorScansBack(k: SyntaxKind, rest: string, v: string)
    requires ScannedOperator(k) && (rest == [] || rest[0] == ' ')
    ensures Scanning.NextToken(Operator(k) + rest, 0, v) == Scanning.Scanned(k, 0, |Operator(k)|, v)
  {
    var text := Operator(k) + rest;
    assert text[0] == Operator(k)[0];
    assert Scanning.RunEnd(text, 0, Scanning.Blank) == 0;
    if |Operator(k)| == 2 {
      assert text[1] == Operator(k)[1];
    } else if rest != [] {
      assert text[1] == ' ';
    }
  }

  /**
   * `getOperator` as written has no case for `--`: `x--` prints as `x?`, and the
   * `?` scans back as a question-mark token, not as the decrement.
   */
  lemma DecrementPrintsAsQuestion(rest: string, v: string)
    requires rest == [] || rest[0] == ' '
    ensures OperatorAsWritten(SyntaxKind.MinusMinusToken) == "?"
    ensures Scanning.NextToken(OperatorAsWritten(SyntaxKind.MinusMinusToken) + rest, 0, v)
            == Scanning.Scanned(SyntaxKind.QuestionToken, 0, 1, v)
  {
    var text := "?" + rest;
    assert text[0] == '?';
    assert Scanning.RunEnd(text, 0, Scanning.Blank) == 0;
  }

  /**
   * `printLiteral` as written on the `true`/`false` token constant folding makes of
   * a comparison of two numbers: the token has neither text nor value, so it throws
   * and the print stops with what was written before it.
   */
  lemma FoldedComparisonThrows(minify: bool, n: Node, w: Trace)
    requires n.BinaryExpression? && ConstantFolding.IsNumeric(n.left) && ConstantFolding.IsNumeric(n.right)
    requires n.operator == SyntaxKind.GreaterThanToken || n.operator == SyntaxKind.LessThanToken
    ensures ConstantFolding.Folded(n).Token?
    ensures LiteralTextAsWritten(ConstantFolding.Folded(n)) == None
    ensures ExprOut(minify, ConstantFolding.Folded(n), w) == Fail(w)
    ensures Flatten(ExprOut(minify, ConstantFolding.Folded(n), w)) == Flatten(w)
  {
    ConstantFolding.FoldNumericPair(n);
  }

  /**
   * The corrected `printLiteral` prints the folded comparison as the keyword of its
   * truth value, which the scanner's keyword table reads back as the same token.
   */
  lemma FoldedComparisonPrints(n: Node)
    requires n.BinaryExpression? && ConstantFolding.IsNumeric(n.left) && ConstantFolding.IsNumeric(n.right)
    requires n.operator == SyntaxKind.GreaterThanToken || n.operator == SyntaxKind.LessThanToken
    ensures var f := ConstantFolding.Folded(n);
      var (a, b) := (n.left.value.number, n.right.value.number);
      var holds := if n.operator == SyntaxKind.GreaterThanToken then a > b else a < b;
      && f.Token?
      && LiteralText(f) == (if holds then "true" else "false")
      && Scanning.KeywordKind(LiteralText(f)) == Some(f.tokenKind)
  {
    ConstantFolding.FoldNumericPair(n);
  }

  /* ---------------- examples ---------------- */

  /** `let a = 1;` as the parser builds it. */
  function LetA(): Node {
    VariableStatement(0, 10, 4,
      VariableDeclaration(4, 9, 3, Identifier(4, 6, 1, "a"),
        Some(Literal(8, 9, 2, SyntaxKind.NumericLiteral, NumberValue(1), "1"))))
  }

  /** `a + b;` as the parser builds it. */
  function APlusB(): Node {
    ExpressionStatement(0, 6, 4, BinaryExpression(0, 5, 3, Identifier(0, 2, 1, "a"), SyntaxKind.PlusToken, Identifier(4, 5, 2, "b")))
  }

  /**
   * The ends in the example trees are where `parseIdentifier` and the literal case of
   * `parsePrimaryExpression` put them: the position of the token the scanner reads next.
   */
  lemma ExampleEndsAreNextTokens(v: string)
    ensures var t := Scanning.NextToken("let a = 1;", 5, v);
      t.Scanned? && t.tokenPos == LetA().declaration.name.end
    ensures var t := Scanning.NextToken("let a = 1;", 9, v);
      t.Scanned? && t.tokenPos == LetA().declaration.initializer.value.end
    ensures var t := Scanning.NextToken("a + b;", 1, v);
      t.Scanned? && t.tokenPos == APlusB().expression.left.end
    ensures var t := Scanning.NextToken("a + b;", 5, v);
      t.Scanned? && t.tokenPos == APlusB().expression.right.end
  {
    assert "let a = 1;"[5] == ' ' && "let a = 1;"[6] == '=' && "let a = 1;"[9] == ';';
    assert "a + b;"[1] == ' ' && "a + b;"[2] == '+' && "a + b;"[5] == ';';
  }

  /** `let a = 1;` prints back as written. */
  lemma PrintLetExample()
    ensures Flatten(StatementOut(false, 0, LetA(), Start)) == "let a = 1;\n"
  {
    var d := LetA().declaration;
    var w := Put(ExprOut(false, d.initializer.value, Put(IdentOut(d.name, PutAt(Put(Start, ""), "let ", LetA())), " = ")), ";\n");
    assert StatementOut(false, 0, LetA(), Start) == w;
    assert Flatten(w) == "" + "let " + "a" + " = " + "1" + ";\n";
    assert "" + "let " + "a" == "let a";
    assert "let a" + " = " + "1" == "let a = 1";
    assert "let a = 1" + ";\n" == "let a = 1;\n";
  }

  /** `let a = 1;` minified loses its spaces. */
  lemma PrintLetMinified()
    ensures Flatten(StatementOut(true, 0, LetA(), Start)) == "let a=1;"
  {
    var d := LetA().declaration;
    var w := Put(ExprOut(true, d.initializer.value, Put(IdentOut(d.name, PutAt(Start, "let ", LetA())), "=")), ";");
    assert StatementOut(true, 0, LetA(), Start) == w;
    assert Flatten(w) == "let " + "a" + "=" + "1" + ";";
  }

  /** `a + b;` prints back as written, and minified without spaces. */
  lemma PrintSumExample()
    ensures Flatten(StatementOut(false, 0, APlusB(), Start)) == "a + b;\n"
    ensures Flatten(StatementOut(true, 0, APlusB(), Start)) == "a+b;"
  {
  }
}
