/** Flow flags of the control-flow graph: one bit each (src/ast.ts, `FlowFlags`). */
module FlowFlags {

  type Flags = bv16

  const Unreachable: Flags := 1
  const Start: Flags := 2
  const BranchLabel: Flags := 4
  const LoopLabel: Flags := 8
  const Assignment: Flags := 16
  const TrueCondition: Flags := 32
  const FalseCondition: Flags := 64
  const SwitchClause: Flags := 128
  const ArrayMutation: Flags := 256
  const Call: Flags := 512
  const ReduceLabel: Flags := 1024
  const Referenced: Flags := 2048
  const Shared: Flags := 4096

  /** Every declared flag, in declaration order. */
  const All: seq<Flags> := [Unreachable, Start, BranchLabel, LoopLabel, Assignment, TrueCondition,
    FalseCondition, SwitchClause, ArrayMutation, Call, ReduceLabel, Referenced, Shared]

  predicate Has(f: Flags, flag: Flags) {
    f & flag != 0
  }

  /** Each flag is a single bit and no two flags share a bit. */
  lemma FlagsAreDistinctBits()
    ensures forall i :: 0 <= i < |All| ==> All[i] != 0 && All[i] & (All[i] - 1) == 0
    ensures forall i, j :: 0 <= i < j < |All| ==> All[i] & All[j] == 0
  {
  }

  /** OR-ing `Unreachable` onto a flow node's flags leaves every other flag as it was. */
  lemma MarkUnreachableKeepsOtherFlags(f: Flags)
    ensures Has(f | Unreachable, Unreachable)
    ensures forall i :: 1 <= i < |All| ==> Has(f | Unreachable, All[i]) == Has(f, All[i])
  {
  }
}

/** Node kinds, the syntax tree and the binder's decorations (src/ast.ts). */
module Ast {
  import opened FlowFlags

  datatype Option<T> = None | Some(value: T)

  /**
   * `SyntaxKind`, tokens and nodes alike: a numeric enum. The tokens count up
   * from 0, the nodes from `Identifier = 50`; 37 to 49 name no kind.
   */
  newtype SyntaxKind = k: int | 0 <= k <= 76 {
    static const Unknown: SyntaxKind := 0
    static const EndOfFileToken: SyntaxKind := 1
    static const FunctionKeyword: SyntaxKind := 2
    static const LetKeyword: SyntaxKind := 3
    static const IfKeyword: SyntaxKind := 4
    static const ElseKeyword: SyntaxKind := 5
    static const WhileKeyword: SyntaxKind := 6
    static const ForKeyword: SyntaxKind := 7
    static const InKeyword: SyntaxKind := 8
    static const ReturnKeyword: SyntaxKind := 9
    static const TrueKeyword: SyntaxKind := 10
    static const FalseKeyword: SyntaxKind := 11
    static const DeleteKeyword: SyntaxKind := 12
    static const OpenBraceToken: SyntaxKind := 13
    static const CloseBraceToken: SyntaxKind := 14
    static const OpenParenToken: SyntaxKind := 15
    static const CloseParenToken: SyntaxKind := 16
    static const OpenBracketToken: SyntaxKind := 17
    static const CloseBracketToken: SyntaxKind := 18
    static const SemicolonToken: SyntaxKind := 19
    static const CommaToken: SyntaxKind := 20
    static const DotToken: SyntaxKind := 21
    static const ColonToken: SyntaxKind := 22
    static const QuestionToken: SyntaxKind := 23
    static const EqualsToken: SyntaxKind := 24
    static const PlusToken: SyntaxKind := 25
    static const MinusToken: SyntaxKind := 26
    static const AsteriskToken: SyntaxKind := 27
    static const SlashToken: SyntaxKind := 28
    static const PlusPlusToken: SyntaxKind := 29
    static const MinusMinusToken: SyntaxKind := 30
    static const EqualsEqualsToken: SyntaxKind := 31
    static const ExclamationEqualsToken: SyntaxKind := 32
    static const LessThanToken: SyntaxKind := 33
    static const LessThanEqualsToken: SyntaxKind := 34
    static const GreaterThanToken: SyntaxKind := 35
    static const GreaterThanEqualsToken: SyntaxKind := 36
    static const Identifier: SyntaxKind := 50
    static const ParameterDecl: SyntaxKind := 51
    static const NumericLiteral: SyntaxKind := 52
    static const StringLiteral: SyntaxKind := 53
    static const SourceFile: SyntaxKind := 54
    static const FunctionDecl: SyntaxKind := 55
    static const Block: SyntaxKind := 56
    static const VariableStatement: SyntaxKind := 57
    static const VariableDeclaration: SyntaxKind := 58
    static const ExpressionStatement: SyntaxKind := 59
    static const IfStatement: SyntaxKind := 60
    static const WhileStatement: SyntaxKind := 61
    static const ForStatement: SyntaxKind := 62
    static const ForInStatement: SyntaxKind := 63
    static const ReturnStatement: SyntaxKind := 64
    static const BinaryExpression: SyntaxKind := 65
    static const AssignmentExpression: SyntaxKind := 66
    static const PrefixUnaryExpression: SyntaxKind := 67
    static const PostfixUnaryExpression: SyntaxKind := 68
    static const LiteralExpression: SyntaxKind := 69
    static const CallExpression: SyntaxKind := 70
    static const ArrayLiteralExpression: SyntaxKind := 71
    static const ObjectLiteralExpression: SyntaxKind := 72
    static const PropertyAssignment: SyntaxKind := 73
    static const PropertyAccessExpression: SyntaxKind := 74
    static const ElementAccessExpression: SyntaxKind := 75
    static const DeleteExpression: SyntaxKind := 76
  }

  /** `NumericLiteral` and `StringLiteral` are adjacent, so the range test
      `kind >= NumericLiteral && kind <= StringLiteral` picks exactly those two. */
  lemma LiteralRangeIsExact(k: SyntaxKind)
    ensures SyntaxKind.NumericLiteral <= k <= SyntaxKind.StringLiteral
        <==> k == SyntaxKind.NumericLiteral || k == SyntaxKind.StringLiteral
  {
  }

  /** The kinds a `LiteralExpression` may carry. */
  type LiteralKind = k: SyntaxKind
    | k == SyntaxKind.NumericLiteral || k == SyntaxKind.StringLiteral
      || k == SyntaxKind.TrueKeyword || k == SyntaxKind.FalseKeyword
    witness SyntaxKind.NumericLiteral

  /** `number | string | boolean`; numbers are integers in this model. */
  datatype LiteralValue = NumberValue(number: int) | StringValue(str: string) | BooleanValue(boolean: bool)

  /**
   * A syntax tree node. Every node has `pos` and `end` and an `id`: the id stands for
   * the node object's identity, under which the binder records its `parent`,
   * `flowNode`, `locals` and `symbol` (see `Bindings`). Nodes built by the factory
   * carry id 0 and are never decorated. A spread copy keeps the id, and so keeps
   * the decorations, like `{ ...node }` does.
   */
  datatype Node =
    | SourceFile(pos: int, end: int, id: nat, statements: seq<Node>, text: string)
    | Identifier(pos: int, end: int, id: nat, text: string)
    | ParameterDecl(pos: int, end: int, id: nat, name: Node)
      /** a `LiteralExpression`: kind, value and source text */
    | Literal(pos: int, end: int, id: nat, literalKind: LiteralKind, value: LiteralValue, text: string)
      /** a bare token node made by `createToken`: a kind and nothing else */
    | Token(pos: int, end: int, id: nat, tokenKind: SyntaxKind)
    | FunctionDecl(pos: int, end: int, id: nat, name: Node, parameters: seq<Node>, body: Node)
    | Block(pos: int, end: int, id: nat, statements: seq<Node>)
    | VariableStatement(pos: int, end: int, id: nat, declaration: Node)
    | VariableDeclaration(pos: int, end: int, id: nat, name: Node, initializer: Option<Node>)
    | ExpressionStatement(pos: int, end: int, id: nat, expression: Node)
    | IfStatement(pos: int, end: int, id: nat, expression: Node, thenStatement: Node, elseStatement: Option<Node>)
    | WhileStatement(pos: int, end: int, id: nat, expression: Node, statement: Node)
    | ForStatement(pos: int, end: int, id: nat, initializer: Option<Node>, condition: Option<Node>,
                   incrementor: Option<Node>, statement: Node)
      /** `for (let x in e) s`; the TypeScript field `initializer` is named `declaration` here */
    | ForInStatement(pos: int, end: int, id: nat, declaration: Node, expression: Node, statement: Node)
      /** the TypeScript field `expression?` is named `returnValue` here */
    | ReturnStatement(pos: int, end: int, id: nat, returnValue: Option<Node>)
      /** the operator token is kept as its kind only: it is never visited or mapped */
    | BinaryExpression(pos: int, end: int, id: nat, left: Node, operator: SyntaxKind, right: Node)
    | AssignmentExpression(pos: int, end: int, id: nat, left: Node, right: Node)
    | PrefixUnaryExpression(pos: int, end: int, id: nat, operator: SyntaxKind, operand: Node)
    | PostfixUnaryExpression(pos: int, end: int, id: nat, operand: Node, operator: SyntaxKind)
    | CallExpression(pos: int, end: int, id: nat, expression: Node, arguments: seq<Node>)
    | ArrayLiteralExpression(pos: int, end: int, id: nat, elements: seq<Node>)
    | ObjectLiteralExpression(pos: int, end: int, id: nat, properties: seq<Node>)
      /** the TypeScript field `initializer` is named `propertyValue` here */
    | PropertyAssignment(pos: int, end: int, id: nat, name: Node, propertyValue: Node)
    | PropertyAccessExpression(pos: int, end: int, id: nat, expression: Node, name: Node)
    | ElementAccessExpression(pos: int, end: int, id: nat, expression: Node, argumentExpression: Node)
    | DeleteExpression(pos: int, end: int, id: nat, expression: Node)
  {
    /** The node's `kind` field. */
    function Kind(): SyntaxKind {
      match this
      case SourceFile(_, _, _, _, _) => SyntaxKind.SourceFile
      case Identifier(_, _, _, _) => SyntaxKind.Identifier
      case ParameterDecl(_, _, _, _) => SyntaxKind.ParameterDecl
      case Literal(_, _, _, k, _, _) => k
      case Token(_, _, _, k) => k
      case FunctionDecl(_, _, _, _, _, _) => SyntaxKind.FunctionDecl
      case Block(_, _, _, _) => SyntaxKind.Block
      case VariableStatement(_, _, _, _) => SyntaxKind.VariableStatement
      case VariableDeclaration(_, _, _, _, _) => SyntaxKind.VariableDeclaration
      case ExpressionStatement(_, _, _, _) => SyntaxKind.ExpressionStatement
      case IfStatement(_, _, _, _, _, _) => SyntaxKind.IfStatement
      case WhileStatement(_, _, _, _, _) => SyntaxKind.WhileStatement
      case ForStatement(_, _, _, _, _, _, _) => SyntaxKind.ForStatement
      case ForInStatement(_, _, _, _, _, _) => SyntaxKind.ForInStatement
      case ReturnStatement(_, _, _, _) => SyntaxKind.ReturnStatement
      case BinaryExpression(_, _, _, _, _, _) => SyntaxKind.BinaryExpression
      case AssignmentExpression(_, _, _, _, _) => SyntaxKind.AssignmentExpression
      case PrefixUnaryExpression(_, _, _, _, _) => SyntaxKind.PrefixUnaryExpression
      case PostfixUnaryExpression(_, _, _, _, _) => SyntaxKind.PostfixUnaryExpression
      case CallExpression(_, _, _, _, _) => SyntaxKind.CallExpression
      case ArrayLiteralExpression(_, _, _, _) => SyntaxKind.ArrayLiteralExpression
      case ObjectLiteralExpression(_, _, _, _) => SyntaxKind.ObjectLiteralExpression
      case PropertyAssignment(_, _, _, _, _) => SyntaxKind.PropertyAssignment
      case PropertyAccessExpression(_, _, _, _, _) => SyntaxKind.PropertyAccessExpression
      case ElementAccessExpression(_, _, _, _, _) => SyntaxKind.ElementAccessExpression
      case DeleteExpression(_, _, _, _) => SyntaxKind.DeleteExpression
    }
  }

  function Opt(o: Option<Node>): seq<Node> {
    if o.Some? then [o.value] else []
  }

  /** Every node stored directly in a field of `n`, in field order. */
  function Subnodes(n: Node): (r: seq<Node>)
    ensures forall c :: c in r ==> (n decreases to c)
  {
    match n
    case SourceFile(_, _, _, ss, _) => ss
    case Identifier(_, _, _, _) => []
    case ParameterDecl(_, _, _, nm) => [nm]
    case Literal(_, _, _, _, _, _) => []
    case Token(_, _, _, _) => []
    case FunctionDecl(_, _, _, nm, ps, body) => [nm] + ps + [body]
    case Block(_, _, _, ss) => ss
    case VariableStatement(_, _, _, d) => [d]
    case VariableDeclaration(_, _, _, nm, init) => [nm] + Opt(init)
    case ExpressionStatement(_, _, _, e) => [e]
    case IfStatement(_, _, _, e, t, el) => [e, t] + Opt(el)
    case WhileStatement(_, _, _, e, s) => [e, s]
    case ForStatement(_, _, _, i, c, inc, s) => Opt(i) + Opt(c) + Opt(inc) + [s]
    case ForInStatement(_, _, _, d, e, s) => [d, e, s]
    case ReturnStatement(_, _, _, e) => Opt(e)
    case BinaryExpression(_, _, _, l, _, r) => [l, r]
    case AssignmentExpression(_, _, _, l, r) => [l, r]
    case PrefixUnaryExpression(_, _, _, _, e) => [e]
    case PostfixUnaryExpression(_, _, _, e, _) => [e]
    case CallExpression(_, _, _, e, args) => [e] + args
    case ArrayLiteralExpression(_, _, _, es) => es
    case ObjectLiteralExpression(_, _, _, ps) => ps
    case PropertyAssignment(_, _, _, nm, v) => [nm, v]
    case PropertyAccessExpression(_, _, _, e, nm) => [e, nm]
    case ElementAccessExpression(_, _, _, e, a) => [e, a]
    case DeleteExpression(_, _, _, e) => [e]
  }

  /** The ids of `n` and of every node below it. */
  function Ids(n: Node): set<nat>
    decreases n, 1
  {
    {n.id} + IdsOf(Subnodes(n), n)
  }

  function IdsOf(ss: seq<Node>, ghost owner: Node): set<nat>
    requires forall c :: c in ss ==> (owner decreases to c)
    decreases owner, 0, |ss|
  {
    if ss == [] then {}
    else
      assert ss[0] in ss && forall c :: c in ss[1..] ==> c in ss;
      Ids(ss[0]) + IdsOf(ss[1..], owner)
  }

  /**
   * The ids of a freshly parsed tree: every node has an id of its own, none is 0,
   * and a node's id is larger than every id below it (children are built first).
   */
  predicate WellNumbered(n: Node)
    decreases n, 1
  {
    n.id != 0
    && (forall i :: i in IdsOf(Subnodes(n), n) ==> i < n.id)
    && WellNumberedList(Subnodes(n), n)
  }

  /** Every node of the list is well numbered and no two share an id. */
  predicate WellNumberedList(ss: seq<Node>, ghost owner: Node)
    requires forall c :: c in ss ==> (owner decreases to c)
    decreases owner, 0, |ss|
  {
    ss == [] ||
    (assert ss[0] in ss && forall c :: c in ss[1..] ==> c in ss;
     WellNumbered(ss[0]) && Ids(ss[0]) !! IdsOf(ss[1..], owner) && WellNumberedList(ss[1..], owner))
  }

  /** The `text` of a node that has one (the declared type of every name field is `Identifier`). */
  function TextOf(n: Node): string {
    if n.Identifier? || n.Literal? || n.SourceFile? then n.text else ""
  }

  /** In a well-numbered list every element is well numbered, lies inside the list's ids,
      and elements at different positions share no id. */
  lemma {:induction false} WellNumberedListFacts(ss: seq<Node>, owner: Node)
    requires forall c :: c in ss ==> (owner decreases to c)
    requires WellNumberedList(ss, owner)
    ensures forall i :: 0 <= i < |ss| ==> WellNumbered(ss[i]) && Ids(ss[i]) <= IdsOf(ss, owner)
    ensures forall i, j :: 0 <= i < j < |ss| ==> Ids(ss[i]) !! Ids(ss[j])
    decreases |ss|
  {
    if ss != [] {
      assert ss[0] in ss && forall c :: c in ss[1..] ==> c in ss;
      WellNumberedListFacts(ss[1..], owner);
      forall i, j | 0 <= i < j < |ss|
        ensures Ids(ss[i]) !! Ids(ss[j])
      {
        if i == 0 {
          assert ss[j] == ss[1..][j - 1];
        } else {
          assert ss[i] == ss[1..][i - 1] && ss[j] == ss[1..][j - 1];
        }
      }
      forall i | 0 < i < |ss|
        ensures WellNumbered(ss[i]) && Ids(ss[i]) <= IdsOf(ss, owner)
      {
        assert ss[i] == ss[1..][i - 1];
      }
    }
  }

  /** The children of a well-numbered node are well numbered, have smaller ids than
      the node, and children at different positions share no id. */
  lemma WellNumberedChildren(n: Node)
    requires WellNumbered(n)
    ensures forall i :: 0 <= i < |Subnodes(n)| ==>
      WellNumbered(Subnodes(n)[i]) && Ids(Subnodes(n)[i]) <= Ids(n) - {n.id}
      && (forall k :: k in Ids(Subnodes(n)[i]) ==> k < n.id)
    ensures forall i, j :: 0 <= i < j < |Subnodes(n)| ==> Ids(Subnodes(n)[i]) !! Ids(Subnodes(n)[j])
  {
    WellNumberedListFacts(Subnodes(n), n);
  }

  /** Every node's own id is among its ids. */
  lemma OwnIdIncluded(n: Node)
    ensures n.id in Ids(n)
  {
  }

  /** One control-flow graph node; `antecedent(s)` index the binder's flow arena. */
  datatype FlowNode = FlowNode(flags: Flags, antecedent: Option<nat>, antecedents: seq<nat>, node: Option<Node>)

  /** A `Symbol`: its name and its declarations in declaration order. */
  datatype Symbol = Symbol(name: string, declarations: seq<Node>, isReferenced: bool)

  /** A `LocalScope`: a map from names to symbol indices that remembers insertion order. */
  datatype Scope = Scope(names: seq<string>, table: map<string, nat>)
  {
    ghost predicate Valid() {
      (forall i, j :: 0 <= i < j < |names| ==> names[i] != names[j])
      && (forall nm :: nm in table <==> nm in names)
    }

    function Get(name: string): (r: Option<nat>)
      ensures r.Some? <==> name in table
    {
      if name in table then Some(table[name]) else None
    }

    /** `Map.set` on a name not yet present: appended at the end of the order. */
    function Add(name: string, symbol: nat): (r: Scope)
      requires Valid() && name !in table
      ensures r.Valid()
      ensures r.Get(name) == Some(symbol)
      ensures forall other :: other != name ==> r.Get(other) == Get(other)
      ensures r.names == names + [name]
    {
      Scope(names + [name], table[name := symbol])
    }

    /** `Map.values()`: the symbols in insertion order. */
    function Values(): (r: seq<nat>)
      requires Valid()
      ensures |r| == |names|
      ensures forall i :: 0 <= i < |names| ==> r[i] == table[names[i]]
    {
      seq(|names|, i requires 0 <= i < |names| => table[names[i]])
    }
  }

  const EmptyScope := Scope([], map[])

  /**
   * The fields the binder writes into nodes, kept as tables keyed by node id:
   * `parent` (the parent node itself), `flowNode`, `locals` and an identifier's
   * `symbol`, with the flow nodes, scopes and symbols kept in arenas.
   */
  datatype Bindings = Bindings(
    parentOf: map<nat, Node>,
    flowOf: map<nat, nat>,
    localsOf: map<nat, nat>,
    symbolOf: map<nat, nat>,
    flows: seq<FlowNode>,
    scopes: seq<Scope>,
    symbols: seq<Symbol>)
  {
    /** Every reference lands inside its arena, undecorated (id 0) nodes have no
        entries, and every parent has a larger id than its child. */
    ghost predicate Valid() {
      (forall k :: k in parentOf ==> k != 0 && parentOf[k].id > k)
      && (forall k :: k in flowOf ==> k != 0 && flowOf[k] < |flows|)
      && (forall k :: k in localsOf ==> k != 0 && localsOf[k] < |scopes|)
      && (forall k :: k in symbolOf ==> k != 0 && symbolOf[k] < |symbols|)
      && (forall i :: 0 <= i < |scopes| ==> scopes[i].Valid())
      && (forall i, nm :: 0 <= i < |scopes| && nm in scopes[i].table ==>
            scopes[i].table[nm] < |symbols| && symbols[scopes[i].table[nm]].name == nm)
    }

    function Parent(n: Node): Option<Node> {
      if n.id in parentOf then Some(parentOf[n.id]) else None
    }

    function Flow(n: Node): Option<FlowNode>
      requires Valid()
    {
      if n.id in flowOf then Some(flows[flowOf[n.id]]) else None
    }

    function Locals(n: Node): Option<Scope>
      requires Valid()
    {
      if n.id in localsOf then Some(scopes[localsOf[n.id]]) else None
    }

    function SymbolIndex(n: Node): Option<nat> {
      if n.id in symbolOf then Some(symbolOf[n.id]) else None
    }

    /** The number of decorated nodes at or above `n` in id order: it shrinks along `parent`. */
    function Height(current: Option<Node>): nat {
      if current.None? then 0 else 1 + |set k | k in parentOf && k >= current.value.id|
    }

    lemma ParentIsHigher(n: Node)
      requires Valid() && n.id in parentOf
      ensures Height(Parent(n)) < Height(Some(n))
    {
      var p := parentOf[n.id];
      var above := set k | k in parentOf && k >= p.id;
      var atOrAbove := set k | k in parentOf && k >= n.id;
      assert above <= atOrAbove - {n.id};
      SubsetSize(above, atOrAbove - {n.id});
    }

    /**
     * The symbol `name` denotes from `current`: the table of the first node on the
     * `parent` chain, starting at `current`, whose `locals` has the name.
     */
    function Lookup(current: Option<Node>, name: string): (r: Option<nat>)
      requires Valid()
      ensures r.Some? ==> r.value < |symbols| && symbols[r.value].name == name
      decreases Height(current)
    {
      if current.None? then None
      else
        var n := current.value;
        if n.id in localsOf && name in scopes[localsOf[n.id]].table then Some(scopes[localsOf[n.id]].table[name])
        else
          if n.id in parentOf then ParentIsHigher(n); Lookup(Parent(n), name) else None
    }

    /** The `parent` chain from `current` upwards, `current` first. */
    function Ancestors(current: Option<Node>): (r: seq<Node>)
      requires Valid()
      decreases Height(current)
    {
      if current.None? then []
      else if current.value.id in parentOf then ParentIsHigher(current.value); [current.value] + Ancestors(Parent(current.value))
      else [current.value]
    }

    predicate Declares(n: Node, name: string)
      requires Valid()
    {
      n.id in localsOf && name in scopes[localsOf[n.id]].table
    }

    /** `Lookup` finds the name in the nearest ancestor whose scope declares it, and
        finds nothing exactly when no ancestor's scope declares it. */
    lemma {:induction false} LookupIsNearest(current: Option<Node>, name: string)
      requires Valid()
      ensures Lookup(current, name).None? <==> forall a :: a in Ancestors(current) ==> !Declares(a, name)
      ensures Lookup(current, name).Some? ==>
        exists i :: 0 <= i < |Ancestors(current)| && Declares(Ancestors(current)[i], name)
          && Lookup(current, name).value == scopes[localsOf[Ancestors(current)[i].id]].table[name]
          && forall j :: 0 <= j < i ==> !Declares(Ancestors(current)[j], name)
      decreases Height(current)
    {
      if current.Some? {
        var n := current.value;
        var chain := Ancestors(current);
        if !Declares(n, name) && n.id in parentOf {
          ParentIsHigher(n);
          LookupIsNearest(Parent(n), name);
          var rest := Ancestors(Parent(n));
          assert chain == [n] + rest;
          if Lookup(current, name).Some? {
            var i :| 0 <= i < |rest| && Declares(rest[i], name)
              && Lookup(current, name).value == scopes[localsOf[rest[i].id]].table[name]
              && forall j :: 0 <= j < i ==> !Declares(rest[j], name);
            assert chain[i + 1] == rest[i];
            assert forall j :: 0 < j <= i ==> chain[j] == rest[j - 1];
          }
        } else if Declares(n, name) {
          assert chain[0] == n;
        }
      }
    }
  }

  lemma SubsetSize<T>(a: set<T>, b: set<T>)
    requires a <= b
    ensures |a| <= |b|
  {
    assert b == a + (b - a);
  }
}
