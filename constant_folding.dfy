/**
 * The constant-folding pass (src/transformers/constantFolding.ts): a stateless
 * visitor that first folds the children of a node through `visitEachChild` and then
 * replaces a binary expression over two literals by the literal of its value.
 *
 * Numbers are integers here, so `/` folds only when the division is exact.
 */
module ConstantFolding {
  import opened Ast
  import opened Transformer
  import Factory
  import Numbers

  // ---------------------------------------------------------------------------
  // The pass

  /** A numeric literal together with its number: what `kind === NumericLiteral` selects. */
  predicate IsNumeric(n: Node) {
    n.Literal? && n.literalKind == SyntaxKind.NumericLiteral && n.value.NumberValue?
  }

  predicate IsString(n: Node) {
    n.Literal? && n.literalKind == SyntaxKind.StringLiteral && n.value.StringValue?
  }

  /** The node built for the folded `+` of two strings: a string literal at `-1`, its text quoted. */
  function StringLiteral(s: string): (r: Node)
    ensures Factory.Synthetic(r) && IsString(r) && r.value.str == s
    ensures r.text == "\"" + s + "\""
  {
    Node.Literal(-1, -1, 0, SyntaxKind.StringLiteral, StringValue(s), "\"" + s + "\"")
  }

  /** `createToken(TrueKeyword)` or `createToken(FalseKeyword)`. */
  function BooleanToken(b: bool): (r: Node)
    ensures Factory.Synthetic(r) && r.Token? && Subnodes(r) == []
    ensures r.tokenKind == (if b then SyntaxKind.TrueKeyword else SyntaxKind.FalseKeyword)
  {
    Factory.CreateToken(if b then SyntaxKind.TrueKeyword else SyntaxKind.FalseKeyword)
  }

  /**
   * What the visitor returns for a node whose children are already folded: a new
   * node when it is a binary expression over two literals it knows how to fold,
   * `None` when `visited` is returned as it is.
   */
  function FoldBinary(visited: Node): (r: Option<Node>)
    ensures r.Some? ==> visited.BinaryExpression? && Subnodes(r.value) == []
    ensures r.Some? ==>
      (IsNumeric(visited.left) && IsNumeric(visited.right))
      || (IsString(visited.left) && IsString(visited.right) && visited.operator == SyntaxKind.PlusToken)
  {
    if !visited.BinaryExpression? then None
    else
      var (l, op, r) := (visited.left, visited.operator, visited.right);
      if IsNumeric(l) && IsNumeric(r) then
        var (a, b) := (l.value.number, r.value.number);
        if op == SyntaxKind.PlusToken then Some(Factory.CreateNumericLiteral(a + b))
        else if op == SyntaxKind.MinusToken then Some(Factory.CreateNumericLiteral(a - b))
        else if op == SyntaxKind.AsteriskToken then Some(Factory.CreateNumericLiteral(a * b))
        else if op == SyntaxKind.SlashToken then
          if b != 0 && a % b == 0 then Some(Factory.CreateNumericLiteral(a / b)) else None
        else if op == SyntaxKind.GreaterThanToken then Some(BooleanToken(a > b))
        else if op == SyntaxKind.LessThanToken then Some(BooleanToken(a < b))
        else None
      else if IsString(l) && IsString(r) && op == SyntaxKind.PlusToken then
        Some(StringLiteral(l.value.str + r.value.str))
      else None
  }

  /** The visitor: fold the children, then the node itself. */
  function FoldVisit(node: Node): (r: Visit)
    ensures !r.Drop?
    ensures r.Replace? ==> SameShell(r.node, node) || (node.BinaryExpression? && Subnodes(r.node) == [])
  {
    var v := VisitEachChild(node, (), (c: Node, s: ()) requires (node decreases to c) => (FoldVisit(c), s)).0;
    var folded := FoldBinary(Outcome(node, v));
    if folded.Some? then Replace(folded.value) else v
  }

  /** The tree the pass returns for `node`: `visitor(node) as Node`. */
  function Folded(node: Node): (r: Node)
    ensures SameShell(r, node) || (node.BinaryExpression? && Subnodes(r) == [])
  {
    Outcome(node, FoldVisit(node))
  }

  // ---------------------------------------------------------------------------
  // A reference semantics: the value of an expression built from literals

  /** The value a literal or a `true`/`false` token stands for. */
  function LeafValue(n: Node): Option<LiteralValue> {
    if IsNumeric(n) || IsString(n) then Some(n.value)
    else if n.Literal? && n.literalKind == SyntaxKind.TrueKeyword && n.value == BooleanValue(true) then Some(n.value)
    else if n.Literal? && n.literalKind == SyntaxKind.FalseKeyword && n.value == BooleanValue(false) then Some(n.value)
    else if n.Token? && n.tokenKind == SyntaxKind.TrueKeyword then Some(BooleanValue(true))
    else if n.Token? && n.tokenKind == SyntaxKind.FalseKeyword then Some(BooleanValue(false))
    else None
  }

  /**
   * What JavaScript computes for `a op b`, for the operators the folding visitor
   * handles: `+`, `-`, `*`, `/`, `>` and `<` on two numbers, with `/` only when the
   * division is exact, and `+` on two strings.
   */
  function Apply(op: SyntaxKind, a: LiteralValue, b: LiteralValue): (r: Option<LiteralValue>)
    ensures r.Some? ==> (a.NumberValue? && b.NumberValue?) || (a.StringValue? && b.StringValue? && op == SyntaxKind.PlusToken)
    ensures r.Some? ==> (r.value.BooleanValue? <==> op == SyntaxKind.GreaterThanToken || op == SyntaxKind.LessThanToken)
    ensures a.NumberValue? && b.NumberValue? && op in {SyntaxKind.PlusToken, SyntaxKind.MinusToken, SyntaxKind.AsteriskToken, SyntaxKind.GreaterThanToken, SyntaxKind.LessThanToken} ==> r.Some?
    ensures a.StringValue? && b.StringValue? ==> (r.Some? <==> op == SyntaxKind.PlusToken)
  {
    if a.NumberValue? && b.NumberValue? then
      var (x, y) := (a.number, b.number);
      if op == SyntaxKind.PlusToken then Some(NumberValue(x + y))
      else if op == SyntaxKind.MinusToken then Some(NumberValue(x - y))
      else if op == SyntaxKind.AsteriskToken then Some(NumberValue(x * y))
      else if op == SyntaxKind.SlashToken && y != 0 && x % y == 0 then Some(NumberValue(x / y))
      else if op == SyntaxKind.GreaterThanToken then Some(BooleanValue(x > y))
      else if op == SyntaxKind.LessThanToken then Some(BooleanValue(x < y))
      else None
    else if a.StringValue? && b.StringValue? && op == SyntaxKind.PlusToken then
      Some(StringValue(a.str + b.str))
    else None
  }

  /** The value of a constant expression: literals combined by binary operators. */
  function Evaluate(n: Node): Option<LiteralValue> {
    if n.BinaryExpression? then
      var l, r := Evaluate(n.left), Evaluate(n.right);
      if l.Some? && r.Some? then Apply(n.operator, l.value, r.value) else None
    else LeafValue(n)
  }

  /** The node the pass builds for a computed value. */
  function Rendered(v: LiteralValue): (r: Node)
    ensures Factory.Synthetic(r) && Subnodes(r) == [] && LeafValue(r) == Some(v)
  {
    match v
    case NumberValue(x) => Factory.CreateNumericLiteral(x)
    case StringValue(s) => StringLiteral(s)
    case BooleanValue(b) => BooleanToken(b)
  }

  // ---------------------------------------------------------------------------
  // Properties

  /** Folding one binary expression keeps its value, and what it builds is a leaf holding that value. */
  lemma FoldBinarySound(visited: Node)
    requires visited.BinaryExpression?
    ensures FoldBinary(visited).Some? ==>
      Evaluate(visited).Some? && FoldBinary(visited).value == Rendered(Evaluate(visited).value)
    ensures LeafValue(visited.left).Some? && LeafValue(visited.right).Some? && Evaluate(visited).Some?
      ==> FoldBinary(visited).Some?
  {
    var (l, r) := (visited.left, visited.right);
    if IsNumeric(l) && IsNumeric(r) {
      FoldNumericSound(visited);
    } else if IsString(l) && IsString(r) {
      assert Evaluate(l) == Some(l.value) && Evaluate(r) == Some(r.value);
      assert Evaluate(visited) == Apply(visited.operator, l.value, r.value);
    } else {
      assert FoldBinary(visited).None?;
      if LeafValue(l).Some? && LeafValue(r).Some? {
        assert Evaluate(l) == LeafValue(l) && Evaluate(r) == LeafValue(r);
        assert Evaluate(visited) == Apply(visited.operator, LeafValue(l).value, LeafValue(r).value);
      }
    }
  }

  /** Over two numeric literals, the pass folds exactly when `Apply` computes, and builds the rendered value. */
  lemma FoldNumericSound(visited: Node)
    requires visited.BinaryExpression? && IsNumeric(visited.left) && IsNumeric(visited.right)
    ensures var v := Apply(visited.operator, visited.left.value, visited.right.value);
      && Evaluate(visited) == v
      && FoldBinary(visited) == (if v.Some? then Some(Rendered(v.value)) else None)
  {
    var (l, op, r) := (visited.left, visited.operator, visited.right);
    assert Evaluate(l) == Some(l.value) && Evaluate(r) == Some(r.value);
    var (a, b) := (l.value.number, r.value.number);
    if op == SyntaxKind.PlusToken {
      assert Apply(op, l.value, r.value) == Some(NumberValue(a + b));
    } else if op == SyntaxKind.MinusToken {
      assert Apply(op, l.value, r.value) == Some(NumberValue(a - b));
    } else if op == SyntaxKind.AsteriskToken {
      assert Apply(op, l.value, r.value) == Some(NumberValue(a * b));
    } else if op == SyntaxKind.SlashToken {
    } else if op == SyntaxKind.GreaterThanToken {
      assert Apply(op, l.value, r.value) == Some(BooleanValue(a > b));
    } else if op == SyntaxKind.LessThanToken {
      assert Apply(op, l.value, r.value) == Some(BooleanValue(a < b));
    } else {
      assert Apply(op, l.value, r.value) == None;
    }
  }

  /** The children a `visitEachChild` with the folding visitor leaves are the folded children. */
  lemma ChildrenFolded(node: Node)
    ensures var v := VisitEachChild(node, (), (c: Node, s: ()) requires (node decreases to c) => (FoldVisit(c), s)).0;
      HasCase(node) ==> Subnodes(Outcome(node, v)) == seq(|Subnodes(node)|, i requires 0 <= i < |Subnodes(node)| => Folded(Subnodes(node)[i]))
  {
    var visitor := (c: Node, s: ()) requires (node decreases to c) => (FoldVisit(c), s);
    FoldNeverDrops(node);
    NonDroppingVisitReplacesChildren(node, visitor);
  }

  lemma FoldNeverDrops(node: Node)
    ensures !FoldVisit(node).Drop?
  {
  }

  /** The folded node has the kind of the original unless it is a folded binary expression. */
  lemma FoldedShape(node: Node)
    ensures var v := VisitEachChild(node, (), (c: Node, s: ()) requires (node decreases to c) => (FoldVisit(c), s)).0;
      var visited := Outcome(node, v);
      && visited.BinaryExpression? == node.BinaryExpression?
      && (node.BinaryExpression? ==> visited.operator == node.operator)
      && (!HasCase(node) ==> visited == node)
      && (node.Literal? || node.Token? ==> visited == node)
      && (!node.BinaryExpression? ==> (!visited.Literal? && !visited.Token?) || visited == node)
  {
  }

  /**
   * Bottom-up: a binary expression is examined only after both operands are folded,
   * and the visited node keeps the position, identity and operator of the original.
   */
  lemma FoldIsBottomUp(n: Node)
    requires n.BinaryExpression?
    ensures var visited := Node.BinaryExpression(n.pos, n.end, n.id, Folded(n.left), n.operator, Folded(n.right));
      Folded(n) == (if FoldBinary(visited).Some? then FoldBinary(visited).value else visited)
  {
    FoldedShape(n);
    ChildrenFolded(n);
  }

  /** Any other node keeps its kind (and its value, when it is a leaf); its visited children are folded. */
  lemma FoldOther(n: Node)
    requires !n.BinaryExpression?
    ensures !Folded(n).BinaryExpression? && LeafValue(Folded(n)) == LeafValue(n)
    ensures HasCase(n) ==>
      Subnodes(Folded(n)) == seq(|Subnodes(n)|, i requires 0 <= i < |Subnodes(n)| => Folded(Subnodes(n)[i]))
    ensures !HasCase(n) ==> Folded(n) == n
    ensures SameShell(Folded(n), n)
  {
    FoldedShape(n);
    ChildrenFolded(n);
  }

  /** Folding never changes the value of an expression (`Evaluate` is the reference). */
  lemma {:induction false} FoldPreservesValue(n: Node)
    ensures Evaluate(Folded(n)) == Evaluate(n)
  {
    if n.BinaryExpression? {
      FoldIsBottomUp(n);
      var visited := Node.BinaryExpression(n.pos, n.end, n.id, Folded(n.left), n.operator, Folded(n.right));
      FoldPreservesValue(n.left);
      FoldPreservesValue(n.right);
      assert Evaluate(visited) == Evaluate(n);
      FoldBinarySound(visited);
    } else {
      FoldOther(n);
    }
  }

  /**
   * A constant expression folds all the way down: the pass leaves a single literal
   * (or `true`/`false` token) holding the expression's value, so `1 + 2 * 3` becomes `7`.
   */
  lemma {:induction false} FoldCompletesConstants(n: Node)
    requires Evaluate(n).Some?
    ensures Subnodes(Folded(n)) == [] && LeafValue(Folded(n)) == Evaluate(n)
    ensures n.BinaryExpression? ==> Folded(n) == Rendered(Evaluate(n).value)
  {
    if n.BinaryExpression? {
      FoldIsBottomUp(n);
      var visited := Node.BinaryExpression(n.pos, n.end, n.id, Folded(n.left), n.operator, Folded(n.right));
      FoldCompletesConstants(n.left);
      FoldCompletesConstants(n.right);
      assert Evaluate(visited) == Evaluate(n);
      FoldBinarySound(visited);
    } else {
      FoldOther(n);
    }
  }

  /** The parser's node for a numeric literal. */
  function Number(pos: int, end: int, id: nat, x: int): Node {
    Node.Literal(pos, end, id, SyntaxKind.NumericLiteral, NumberValue(x), Numbers.NumberToString(x))
  }

  /** `1 + 2 * 3` folds to the single synthetic literal `7`. */
  lemma FoldExample(p: int, e: int)
    ensures var product := Node.BinaryExpression(p + 4, e, 3, Number(p + 4, p + 5, 1, 2), SyntaxKind.AsteriskToken, Number(p + 8, e, 2, 3));
      var sum := Node.BinaryExpression(p, e, 5, Number(p, p + 1, 4, 1), SyntaxKind.PlusToken, product);
      Folded(sum) == Factory.CreateNumericLiteral(7) && Folded(sum).text == "7"
  {
    var product := Node.BinaryExpression(p + 4, e, 3, Number(p + 4, p + 5, 1, 2), SyntaxKind.AsteriskToken, Number(p + 8, e, 2, 3));
    var sum := Node.BinaryExpression(p, e, 5, Number(p, p + 1, 4, 1), SyntaxKind.PlusToken, product);
    assert Evaluate(product) == Some(NumberValue(6));
    assert Evaluate(sum) == Some(NumberValue(7));
    FoldCompletesConstants(sum);
    Numbers.DigitsRoundTrip(7);
  }

  /**
   * Two numeric literals: `+ - *` and exact `/` become the literal of the result,
   * `>` and `<` the `true`/`false` token, every other operator leaves the expression as it is.
   */
  lemma FoldNumericPair(n: Node)
    requires n.BinaryExpression? && IsNumeric(n.left) && IsNumeric(n.right)
    ensures var (a, b, op) := (n.left.value.number, n.right.value.number, n.operator);
      && (op == SyntaxKind.PlusToken ==> Folded(n) == Factory.CreateNumericLiteral(a + b))
      && (op == SyntaxKind.MinusToken ==> Folded(n) == Factory.CreateNumericLiteral(a - b))
      && (op == SyntaxKind.AsteriskToken ==> Folded(n) == Factory.CreateNumericLiteral(a * b))
      && (op == SyntaxKind.SlashToken && b != 0 && a % b == 0 ==> Folded(n) == Factory.CreateNumericLiteral(a / b))
      && (op == SyntaxKind.GreaterThanToken ==> Folded(n) == BooleanToken(a > b))
      && (op == SyntaxKind.LessThanToken ==> Folded(n) == BooleanToken(a < b))
      && ((op == SyntaxKind.EqualsEqualsToken || op == SyntaxKind.ExclamationEqualsToken
           || op == SyntaxKind.LessThanEqualsToken || op == SyntaxKind.GreaterThanEqualsToken) ==> Folded(n) == n)
  {
    LiteralsStay(n);
  }

  /** Two string literals joined by `+` become one synthetic string literal of the joined value. */
  lemma FoldStringPair(n: Node)
    requires n.BinaryExpression? && IsString(n.left) && IsString(n.right)
    ensures n.operator == SyntaxKind.PlusToken ==>
      var joined := n.left.value.str + n.right.value.str;
      Folded(n) == StringLiteral(joined) && Folded(n).pos == -1 && Folded(n).end == -1
      && Folded(n).text == "\"" + joined + "\""
    ensures n.operator != SyntaxKind.PlusToken ==> Folded(n) == n
  {
    LiteralsStay(n);
  }

  /** A binary expression over two leaves is visited as it is. */
  lemma LiteralsStay(n: Node)
    requires n.BinaryExpression? && Subnodes(n.left) == [] && Subnodes(n.right) == []
    ensures Folded(n) == (if FoldBinary(n).Some? then FoldBinary(n).value else n)
  {
    LeafStays(n.left);
    LeafStays(n.right);
    FoldIsBottomUp(n);
  }

  lemma LeafStays(n: Node)
    requires Subnodes(n) == []
    ensures FoldVisit(n) == Keep
  {
    KeepingVisitorKeeps(n, (), (c: Node, s: ()) requires (n decreases to c) => (FoldVisit(c), s));
  }

  // ---------------------------------------------------------------------------
  // A folded tree is a fixpoint

  /** No binary expression left that the pass would fold, in every part of the tree it visits. */
  predicate Normal(m: Node)
    decreases m
  {
    FoldBinary(m).None? && (HasCase(m) ==> forall c :: c in Subnodes(m) ==> Normal(c))
  }

  /** On a normal tree the visitor keeps everything. */
  lemma {:induction false} NormalIsKept(m: Node)
    requires Normal(m)
    ensures FoldVisit(m) == Keep
  {
    var visitor := (c: Node, s: ()) requires (m decreases to c) => (FoldVisit(c), s);
    if HasCase(m) {
      forall c | c in Subnodes(m) {
        NormalIsKept(c);
      }
      KeepingVisitorKeeps(m, (), visitor);
    }
  }

  /** What the pass returns is normal. */
  lemma {:induction false} FoldedIsNormal(n: Node)
    ensures Normal(Folded(n))
  {
    if n.BinaryExpression? {
      FoldIsBottomUp(n);
      var visited := Node.BinaryExpression(n.pos, n.end, n.id, Folded(n.left), n.operator, Folded(n.right));
      if FoldBinary(visited).Some? {
        FoldBinarySound(visited);
      } else {
        FoldedIsNormal(n.left);
        FoldedIsNormal(n.right);
      }
    } else {
      FoldOther(n);
      if HasCase(n) {
        forall c | c in Subnodes(Folded(n))
          ensures Normal(c)
        {
          var i :| 0 <= i < |Subnodes(Folded(n))| && Subnodes(Folded(n))[i] == c;
          var original := Subnodes(n)[i];
          assert original in Subnodes(n);
          assert c == Folded(original);
          FoldedIsNormal(original);
        }
      }
    }
  }

  /** Folding a folded tree changes nothing: a second run of the pass returns its input. */
  lemma Idempotent(n: Node)
    ensures FoldVisit(Folded(n)) == Keep
    ensures Folded(Folded(n)) == Folded(n)
  {
    FoldedIsNormal(n);
    NormalIsKept(Folded(n));
  }
}
