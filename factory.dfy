/**
 * The node factory (src/factory.ts). Every node it builds is synthetic: it sits at
 * `pos = end = -1` and has id 0, so it carries no binder decorations.
 */
module Factory {
  import opened Ast
  import Numbers

  /** A node the factory could have built: sentinel positions and no identity. */
  predicate Synthetic(n: Node) {
    n.pos == -1 && n.end == -1 && n.id == 0
  }

  function CreateIdentifier(text: string): (r: Node)
    ensures Synthetic(r) && r.Kind() == SyntaxKind.Identifier
    ensures r.Identifier? && r.text == text
  {
    Node.Identifier(-1, -1, 0, text)
  }

  function CreateNumericLiteral(value: int): (r: Node)
    ensures Synthetic(r) && r.Kind() == SyntaxKind.NumericLiteral
    ensures r.Literal? && r.value == NumberValue(value)
    ensures r.text == Numbers.NumberToString(value)
  {
    Node.Literal(-1, -1, 0, SyntaxKind.NumericLiteral, NumberValue(value), Numbers.NumberToString(value))
  }

  /** The declaration's name: a string is wrapped in a fresh identifier, an identifier is used as is. */
  datatype NameArg = NameText(text: string) | NameNode(identifier: Node)

  function CreateVariableDeclaration(name: NameArg, initializer: Option<Node>): (r: Node)
    ensures Synthetic(r) && r.VariableDeclaration?
    ensures name.NameText? ==> r.name == CreateIdentifier(name.text)
    ensures name.NameNode? ==> r.name == name.identifier
    ensures r.initializer == initializer
  {
    var nm := if name.NameText? then CreateIdentifier(name.text) else name.identifier;
    Node.VariableDeclaration(-1, -1, 0, nm, initializer)
  }

  function CreateVariableStatement(declaration: Node): (r: Node)
    ensures Synthetic(r) && r.VariableStatement? && r.declaration == declaration
  {
    Node.VariableStatement(-1, -1, 0, declaration)
  }

  function CreateBlock(statements: seq<Node>): (r: Node)
    ensures Synthetic(r) && r.Block? && r.statements == statements
  {
    Node.Block(-1, -1, 0, statements)
  }

  function CreateWhileStatement(expression: Node, statement: Node): (r: Node)
    ensures Synthetic(r) && r.WhileStatement?
    ensures r.expression == expression && r.statement == statement
  {
    Node.WhileStatement(-1, -1, 0, expression, statement)
  }

  function CreateExpressionStatement(expression: Node): (r: Node)
    ensures Synthetic(r) && r.ExpressionStatement? && r.expression == expression
  {
    Node.ExpressionStatement(-1, -1, 0, expression)
  }

  /** A bare node of kind `kind`: it has neither a value nor a text. */
  function CreateToken(kind: SyntaxKind): (r: Node)
    ensures Synthetic(r) && r.Kind() == kind && Subnodes(r) == []
    ensures !r.Literal?
  {
    Node.Token(-1, -1, 0, kind)
  }

  /** The numeric literal's text reads back as its value (for non-negative values). */
  lemma NumericLiteralTextRoundTrip(value: nat)
    ensures Numbers.AllDigits(CreateNumericLiteral(value).text)
    ensures Numbers.DigitsValue(CreateNumericLiteral(value).text) == value
  {
    Numbers.DigitsRoundTrip(value);
  }
}
