/** Binary operator precedence (src/utilities.ts). */
module Utilities {
  import opened Ast

  /** `OperatorPrecedence`: higher binds tighter. */
  const Comma: int := 0
  const Equality: int := 1
  const Relational: int := 2
  const Additive: int := 3
  const Multiplicative: int := 4
  const Lowest: int := Comma
  const Invalid: int := -1

  /** `getOperatorPrecedence`: the precedence class of a token kind. */
  function GetOperatorPrecedence(operator: SyntaxKind): (p: int)
    ensures p == Invalid || Lowest <= p <= Multiplicative
  {
    if operator == SyntaxKind.CommaToken then Comma
    else if operator == SyntaxKind.EqualsEqualsToken then Equality
    else if operator == SyntaxKind.LessThanToken || operator == SyntaxKind.GreaterThanToken
      || operator == SyntaxKind.LessThanEqualsToken || operator == SyntaxKind.GreaterThanEqualsToken
      || operator == SyntaxKind.ExclamationEqualsToken then Relational
    else if operator == SyntaxKind.PlusToken || operator == SyntaxKind.MinusToken then Additive
    else if operator == SyntaxKind.AsteriskToken || operator == SyntaxKind.SlashToken then Multiplicative
    else Invalid
  }

  /** The precedence classes are strictly ordered and `Lowest` is `Comma`. */
  lemma PrecedenceOrder()
    ensures Comma < Equality < Relational < Additive < Multiplicative
    ensures Lowest == Comma && Invalid < Lowest
  {
  }

  /** Which tokens fall into which class; everything else, `=` included, is `Invalid`. */
  lemma PrecedenceClasses(op: SyntaxKind)
    ensures GetOperatorPrecedence(op) == Multiplicative
        <==> (op == SyntaxKind.AsteriskToken || op == SyntaxKind.SlashToken)
    ensures GetOperatorPrecedence(op) == Additive
        <==> (op == SyntaxKind.PlusToken || op == SyntaxKind.MinusToken)
    ensures GetOperatorPrecedence(op) == Relational
        <==> (op in {SyntaxKind.LessThanToken, SyntaxKind.GreaterThanToken,
                     SyntaxKind.LessThanEqualsToken, SyntaxKind.GreaterThanEqualsToken,
                     SyntaxKind.ExclamationEqualsToken})
    ensures GetOperatorPrecedence(op) == Equality <==> op == SyntaxKind.EqualsEqualsToken
    ensures GetOperatorPrecedence(op) == Comma <==> op == SyntaxKind.CommaToken
    ensures GetOperatorPrecedence(SyntaxKind.EqualsToken) == Invalid
  {
  }
}
