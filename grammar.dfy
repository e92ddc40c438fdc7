/**
 * The shape of the trees the parser (src/parser.ts) builds, and the theory of its
 * precedence climbing.
 *
 * `Expr` and `Stmt` describe exactly the syntax the parser accepts: identifiers
 * and literals, prefix and postfix updates, element access, array literals and
 * binary operators for expressions; `let`, `function`, blocks, `if`, `while`,
 * `for`, `return` and expression statements. A binary node's operands are
 * ordered by precedence: the left operand binds at least as tightly as the node's
 * operator, the right one strictly more tightly. `Flatten` reads an expression
 * back as the operand/operator sequence it came from; the lemmas show that this
 * sequence determines the tree, with the root at the last operator of lowest
 * precedence, so equal precedences associate to the left.
 */
module Grammar {
  import opened Ast
  import opened Utilities
  import Scanning

  /** The precedence of an expression node: its operator's, or above every operator when it is not binary. */
  const Atomic: int := Multiplicative + 1

  function Prec(n: Node): (p: int)
    ensures p == Atomic <==> !n.BinaryExpression?
  {
    if n.BinaryExpression? then GetOperatorPrecedence(n.operator) else Atomic
  }

  /** The operators the precedence loop turns into binary nodes. */
  predicate IsBinaryOperator(op: SyntaxKind) {
    GetOperatorPrecedence(op) > Lowest
  }

  predicate IsPrefixOperator(op: SyntaxKind) {
    op == SyntaxKind.PlusPlusToken || op == SyntaxKind.MinusMinusToken
    || op == SyntaxKind.PlusToken || op == SyntaxKind.MinusToken
  }

  predicate IsPostfixOperator(op: SyntaxKind) {
    op == SyntaxKind.PlusPlusToken || op == SyntaxKind.MinusMinusToken
  }

  /** An identifier node made from an identifier token: a non-empty word that is not a keyword. */
  predicate IsName(n: Node) {
    n.Identifier? && |n.text| >= 1 && Scanning.KeywordKind(n.text).None?
  }

  /**
   * A literal as `parsePrimaryExpression` builds it: a number holds a number, a
   * string holds its own text, and `true`/`false` hold the matching boolean and
   * spelling.
   */
  predicate ParsedLiteral(n: Node)
    requires n.Literal?
  {
    var k := n.literalKind;
    if k == SyntaxKind.NumericLiteral then n.value.NumberValue?
    else if k == SyntaxKind.StringLiteral then n.value == StringValue(n.text)
    else if k == SyntaxKind.TrueKeyword then n.value == BooleanValue(true) && n.text == "true"
    else n.value == BooleanValue(false) && n.text == "false"
  }

  /** An expression the parser can build. */
  predicate Expr(n: Node)
    decreases n
  {
    match n
    case Identifier(_, _, _, _) => IsName(n)
    case Literal(_, _, _, _, _, _) => ParsedLiteral(n)
    case BinaryExpression(pos, end, _, l, op, r) =>
      IsBinaryOperator(op) && Expr(l) && Expr(r)
      && Prec(l) >= GetOperatorPrecedence(op) && Prec(r) > GetOperatorPrecedence(op)
      && pos == l.pos && end == r.end && l.end <= r.pos
    case PrefixUnaryExpression(_, end, _, op, e) =>
      IsPrefixOperator(op) && Expr(e) && !e.BinaryExpression? && end == e.end
    case PostfixUnaryExpression(pos, _, _, e, op) =>
      IsPostfixOperator(op) && Expr(e) && IsMember(e) && pos == e.pos
    case ElementAccessExpression(pos, _, _, e, a) =>
      Expr(e) && IsMember(e) && Expr(a) && pos == e.pos
    case ArrayLiteralExpression(_, _, _, es) => forall e :: e in es ==> Expr(e)
    case _ => false
  }

  /** What `parseMemberExpression` returns: neither binary nor an update. */
  predicate IsMember(n: Node) {
    !n.BinaryExpression? && !n.PrefixUnaryExpression? && !n.PostfixUnaryExpression?
  }

  /** A parameter: `pos` to the end of its name. */
  predicate Parameter(p: Node) {
    p.ParameterDecl? && IsName(p.name) && p.end == p.name.end
  }

  /** The declaration inside `let`: it spans its name and, when present, its initializer. */
  predicate Declaration(d: Node) {
    d.VariableDeclaration? && IsName(d.name) && d.pos == d.name.pos
    && (d.initializer.Some? ==> Expr(d.initializer.value))
    && d.end == (if d.initializer.Some? then d.initializer.value.end else d.name.end)
  }

  /**
   * A statement the parser can build. `inFunction` says whether a function body
   * encloses it; `return` is only found there.
   */
  predicate Stmt(n: Node, inFunction: bool)
    decreases n
  {
    match n
    case VariableStatement(_, _, _, d) => Declaration(d)
    case FunctionDecl(_, end, _, name, params, body) =>
      IsName(name) && (forall p :: p in params ==> Parameter(p))
      && body.Block? && Stmt(body, true) && end == body.end
    case Block(_, _, _, ss) => forall s :: s in ss ==> Stmt(s, inFunction)
    case ExpressionStatement(_, _, _, e) => Expr(e)
    case IfStatement(_, end, _, e, t, el) =>
      Expr(e) && Stmt(t, inFunction) && (el.Some? ==> Stmt(el.value, inFunction))
      && end == (if el.Some? then el.value.end else t.end)
    case WhileStatement(_, end, _, e, s) => Expr(e) && Stmt(s, inFunction) && end == s.end
    case ForStatement(_, end, _, init, cond, inc, s) =>
      (init.Some? ==> (init.value.VariableStatement? && Stmt(init.value, inFunction)) || Expr(init.value))
      && (cond.Some? ==> Expr(cond.value)) && (inc.Some? ==> Expr(inc.value))
      && Stmt(s, inFunction) && end == s.end
    case ReturnStatement(_, _, _, e) => inFunction && (e.Some? ==> Expr(e.value))
    case _ => false
  }

  /** A source file the parser can build from `text`. */
  predicate File(n: Node, text: string) {
    n.SourceFile? && n.pos == 0 && n.end == |text| && n.text == text
    && forall s :: s in n.statements ==> Stmt(s, false)
  }

  /** No `return` lies outside a function body. */
  predicate NoStrayReturn(n: Node)
    decreases n
  {
    match n
    case ReturnStatement(_, _, _, _) => false
    case FunctionDecl(_, _, _, _, _, _) => true
    case _ => forall c :: c in Subnodes(n) ==> NoStrayReturn(c)
  }

  /** Parsed expressions hold no statement, hence no `return`. */
  lemma {:induction false} ExprHasNoReturn(n: Node)
    requires Expr(n)
    ensures NoStrayReturn(n)
    decreases n
  {
    match n
    case BinaryExpression(_, _, _, l, _, r) =>
      ExprHasNoReturn(l);
      ExprHasNoReturn(r);
    case PrefixUnaryExpression(_, _, _, _, e) =>
      ExprHasNoReturn(e);
    case PostfixUnaryExpression(_, _, _, e, _) =>
      ExprHasNoReturn(e);
    case ElementAccessExpression(_, _, _, e, a) =>
      ExprHasNoReturn(e);
      ExprHasNoReturn(a);
    case ArrayLiteralExpression(_, _, _, es) =>
      forall c | c in es
        ensures NoStrayReturn(c)
      {
        ExprHasNoReturn(c);
      }
    case _ =>
  }

  /** A statement parsed outside every function body has no stray `return`. */
  lemma {:induction false} TopLevelHasNoReturn(n: Node)
    requires Stmt(n, false)
    ensures NoStrayReturn(n)
    decreases n, 1
  {
    if !n.FunctionDecl? {
      forall c | c in Subnodes(n)
        ensures NoStrayReturn(c)
      {
        ChildHasNoReturn(n, c);
      }
      FromChildren(n);
    }
  }

  /** Each part of a top-level statement that is not a function has no stray `return`. */
  lemma {:induction false} ChildHasNoReturn(n: Node, c: Node)
    requires Stmt(n, false) && !n.FunctionDecl? && c in Subnodes(n)
    ensures NoStrayReturn(c)
    decreases n, 0
  {
    ChildIsExprOrStmt(n, c);
    if n.VariableStatement? {
      DeclarationHasNoReturn(c);
    } else if Expr(c) {
      ExprHasNoReturn(c);
    } else {
      TopLevelHasNoReturn(c);
    }
  }

  /** The parts of a statement other than a function are expressions and statements at the same depth. */
  lemma ChildIsExprOrStmt(n: Node, c: Node)
    requires Stmt(n, false) && !n.FunctionDecl? && c in Subnodes(n)
    ensures n.VariableStatement? ==> Declaration(c)
    ensures !n.VariableStatement? ==> Expr(c) || Stmt(c, false)
  {
    if n.ForStatement? {
      assert Subnodes(n) == Opt(n.initializer) + Opt(n.condition) + Opt(n.incrementor) + [n.statement];
    } else if n.IfStatement? {
      assert Subnodes(n) == [n.expression, n.thenStatement] + Opt(n.elseStatement);
    }
  }

  /** A `let` declaration holds a name and an expression, hence no `return`. */
  lemma DeclarationHasNoReturn(d: Node)
    requires Declaration(d)
    ensures NoStrayReturn(d)
  {
    forall x | x in Subnodes(d)
      ensures NoStrayReturn(x)
    {
      assert Subnodes(d) == [d.name] + Opt(d.initializer);
      if x != d.name {
        ExprHasNoReturn(x);
      }
    }
    FromChildren(d);
  }

  /** A node that is not a `return` or a function has no stray `return` when its parts have none. */
  lemma FromChildren(n: Node)
    requires !n.ReturnStatement? && !n.FunctionDecl?
    requires forall c :: c in Subnodes(n) ==> NoStrayReturn(c)
    ensures NoStrayReturn(n)
  {
  }

  /* ---------------- precedence climbing ---------------- */

  /** An element of the sequence an expression was climbed from. */
  datatype Item = Operand(node: Node) | Operator(kind: SyntaxKind)

  /** The operand/operator sequence of an expression, left to right. */
  function Flatten(n: Node): (r: seq<Item>)
    ensures |r| % 2 == 1 && r[0].Operand? && r[|r| - 1].Operand?
    ensures n.BinaryExpression? <==> |r| >= 3
    decreases n
  {
    if n.BinaryExpression? then Flatten(n.left) + [Operator(n.operator)] + Flatten(n.right) else [Operand(n)]
  }

  /** Every operator of an expression binds at least as tightly as its root. */
  lemma {:induction false} OperatorsAtLeastRoot(n: Node)
    requires Expr(n)
    ensures forall i :: 0 <= i < |Flatten(n)| && Flatten(n)[i].Operator? ==>
      GetOperatorPrecedence(Flatten(n)[i].kind) >= Prec(n)
    decreases n
  {
    if n.BinaryExpression? {
      OperatorsAtLeastRoot(n.left);
      OperatorsAtLeastRoot(n.right);
    }
  }

  /**
   * The root of a binary expression is at position `|Flatten(left)|` of its
   * sequence, no operator has lower precedence, and every operator after it has
   * strictly higher precedence: the root is the last lowest operator.
   */
  lemma RootIsLastLowest(n: Node)
    requires Expr(n) && n.BinaryExpression?
    ensures var f := Flatten(n); var k := |Flatten(n.left)|;
      k < |f| && f[k] == Operator(n.operator)
      && (forall i :: 0 <= i < |f| && f[i].Operator? ==> GetOperatorPrecedence(f[i].kind) >= Prec(n))
      && (forall i :: k < i < |f| && f[i].Operator? ==> GetOperatorPrecedence(f[i].kind) > Prec(n))
  {
    var l, r := Flatten(n.left), Flatten(n.right);
    var f := Flatten(n);
    assert f == l + [Operator(n.operator)] + r;
    var k := |l|;
    OperatorsAtLeastRoot(n.left);
    OperatorsAtLeastRoot(n.right);
    forall i | 0 <= i < |f| && f[i].Operator?
      ensures GetOperatorPrecedence(f[i].kind) >= Prec(n)
      ensures k < i ==> GetOperatorPrecedence(f[i].kind) > Prec(n)
    {
      ThreePartIndex(l, Operator(n.operator), r, i);
    }
    ThreePartIndex(l, Operator(n.operator), r, k);
  }

  /** Indexing into `a + [x] + b`. */
  lemma ThreePartIndex<T>(a: seq<T>, x: T, b: seq<T>, i: int)
    requires 0 <= i < |a| + 1 + |b|
    ensures (a + [x] + b)[i] == if i < |a| then a[i] else if i == |a| then x else b[i - |a| - 1]
  {
  }

  /** The same tree up to positions and ids: what the operand/operator sequence can determine. */
  predicate SameTree(a: Node, b: Node)
    decreases a
  {
    if a.BinaryExpression? then
      b.BinaryExpression? && a.operator == b.operator && SameTree(a.left, b.left) && SameTree(a.right, b.right)
    else a == b
  }

  /** Two parsed expressions with the same operand/operator sequence are the same tree. */
  lemma {:induction false} FlattenDeterminesTree(a: Node, b: Node)
    requires Expr(a) && Expr(b) && Flatten(a) == Flatten(b)
    ensures SameTree(a, b)
    decreases a
  {
    if a.BinaryExpression? {
      SameRoot(a, b);
      ThreePartSlices(Flatten(a.left), Operator(a.operator), Flatten(a.right));
      ThreePartSlices(Flatten(b.left), Operator(b.operator), Flatten(b.right));
      FlattenDeterminesTree(a.left, b.left);
      FlattenDeterminesTree(a.right, b.right);
    } else {
      assert Flatten(a)[0] == Operand(a) && Flatten(b)[0] == Operand(b);
    }
  }

  /** Two parsed binary expressions with the same sequence split it at the same operator. */
  lemma SameRoot(a: Node, b: Node)
    requires Expr(a) && Expr(b) && a.BinaryExpression? && Flatten(a) == Flatten(b)
    ensures b.BinaryExpression? && |Flatten(a.left)| == |Flatten(b.left)| && a.operator == b.operator
  {
    var f := Flatten(a);
    RootIsLastLowest(a);
    RootIsLastLowest(b);
    var ka, kb := |Flatten(a.left)|, |Flatten(b.left)|;
    var pa, pb := GetOperatorPrecedence(a.operator), GetOperatorPrecedence(b.operator);
    assert f[ka] == Operator(a.operator) && f[kb] == Operator(b.operator);
    assert pa <= pb && pb <= pa;
    assert ka < kb ==> pb > pa;
    assert kb < ka ==> pa > pb;
  }

  /** The parts of `a + [x] + b`. */
  lemma ThreePartSlices<T>(a: seq<T>, x: T, b: seq<T>)
    ensures (a + [x] + b)[..|a|] == a && (a + [x] + b)[|a|] == x && (a + [x] + b)[|a| + 1..] == b
  {
  }

  /** A sequence of one operand is that operand. */
  lemma SingleOperand(n: Node, x: Node)
    requires Flatten(n) == [Operand(x)]
    ensures n == x
  {
  }

  /** Operators of equal precedence associate to the left: `a o1 b o2 c` is `(a o1 b) o2 c`. */
  lemma LeftAssociative(n: Node, a: Node, o1: SyntaxKind, b: Node, o2: SyntaxKind, c: Node)
    requires Expr(n) && GetOperatorPrecedence(o1) == GetOperatorPrecedence(o2)
    requires Flatten(n) == [Operand(a), Operator(o1), Operand(b), Operator(o2), Operand(c)]
    ensures n.BinaryExpression? && n.operator == o2 && n.right == c
    ensures n.left.BinaryExpression? && n.left.left == a && n.left.operator == o1 && n.left.right == b
  {
    var f := Flatten(n);
    RootIsLastLowest(n);
    var k := |Flatten(n.left)|;
    assert f[1] == Operator(o1) && f[3] == Operator(o2);
    assert k == 1 || k == 3 by {
      assert f[0].Operand? && f[2].Operand? && f[4].Operand?;
    }
    assert f[k] == Operator(n.operator) && Prec(n) == GetOperatorPrecedence(n.operator);
    assert GetOperatorPrecedence(f[3].kind) == GetOperatorPrecedence(f[1].kind);
    assert k == 3;
    assert Flatten(n.right) == f[4..] == [Operand(c)];
    SingleOperand(n.right, c);
    var l := n.left;
    assert Flatten(l) == f[..3];
    RootIsLastLowest(l);
    assert |Flatten(l.left)| == 1;
    assert Flatten(l.left) == f[..1] && Flatten(l.right) == f[2..3];
    SingleOperand(l.left, a);
    SingleOperand(l.right, b);
  }

  /** A tighter operator binds first: with `o2` above `o1`, `a o1 b o2 c` is `a o1 (b o2 c)`. */
  lemma TighterBindsFirst(n: Node, a: Node, o1: SyntaxKind, b: Node, o2: SyntaxKind, c: Node)
    requires Expr(n) && GetOperatorPrecedence(o1) < GetOperatorPrecedence(o2)
    requires Flatten(n) == [Operand(a), Operator(o1), Operand(b), Operator(o2), Operand(c)]
    ensures n.BinaryExpression? && n.operator == o1 && n.left == a
    ensures n.right.BinaryExpression? && n.right.left == b && n.right.operator == o2 && n.right.right == c
  {
    var f := Flatten(n);
    RootIsLastLowest(n);
    var k := |Flatten(n.left)|;
    assert f[1] == Operator(o1) && f[3] == Operator(o2);
    assert k == 1 || k == 3 by {
      assert f[0].Operand? && f[2].Operand? && f[4].Operand?;
    }
    assert f[k] == Operator(n.operator) && Prec(n) == GetOperatorPrecedence(n.operator);
    assert GetOperatorPrecedence(f[1].kind) < GetOperatorPrecedence(f[3].kind);
    assert k == 1;
    assert Flatten(n.left) == f[..1] == [Operand(a)];
    SingleOperand(n.left, a);
    var r := n.right;
    assert Flatten(r) == f[2..];
    RootIsLastLowest(r);
    assert |Flatten(r.left)| == 1;
    assert Flatten(r.left) == f[2..3] && Flatten(r.right) == f[4..];
    SingleOperand(r.left, b);
    SingleOperand(r.right, c);
  }
}
