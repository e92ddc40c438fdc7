/**
 * The rewrite framework (src/transformer.ts).
 *
 * A visitor answers, for one node, `Drop` (it returned `undefined`), `Keep` (it
 * returned the very same node) or `Replace(m)` (it returned another node `m`).
 * Visitors may carry state from one call to the next (the renaming pass keeps a
 * counter and a scope stack in its closure); that state is threaded through the
 * calls here in the order the source makes them.
 */
module Transformer {
  import opened Ast
  import opened Seqs

  datatype Visit = Drop | Keep | Replace(node: Node)

  /** The node a visit leaves in place of `n`: in a single-child position, and as what `visitEachChild` returns. */
  function Outcome(n: Node, v: Visit): Node {
    if v.Replace? then v.node else n
  }

  /** `visitNode`: `visitor(n) || n`, and whether that is another node than `n`. */
  function VisitNode<S(!new)>(n: Node, st: S, visitor: (Node, S) --> (Visit, S)): (r: (Node, bool, S))
    requires forall s :: visitor.requires(n, s)
    ensures r.0 == Outcome(n, visitor(n, st).0) && r.2 == visitor(n, st).1
    ensures r.1 <==> visitor(n, st).0.Replace?
  {
    var (v, st') := visitor(n, st);
    (Outcome(n, v), v.Replace?, st')
  }

  /** An optional child: visited only when present (`x ? visitNode(x) : undefined`). */
  function VisitOptional<S(!new)>(o: Option<Node>, st: S, visitor: (Node, S) --> (Visit, S)): (r: (Option<Node>, bool, S))
    requires forall s :: o.Some? ==> visitor.requires(o.value, s)
    ensures o.None? ==> r == (None, false, st)
    ensures r.0.Some? <==> o.Some?
    ensures !r.1 ==> r.0 == o
  {
    if o.None? then (None, false, st)
    else
      var (m, changed, st') := VisitNode(o.value, st, visitor);
      (Some(m), changed, st')
  }

  /**
   * The loop of `visitNodes`: the list of kept or replacement elements, in order,
   * and `someChanged`. Defined on the prefix visited so far, as the loop runs.
   */
  function VisitNodesLoop<S(!new)>(nodes: seq<Node>, st: S, visitor: (Node, S) --> (Visit, S)): (r: (seq<Node>, bool, S))
    requires forall c, s :: c in nodes ==> visitor.requires(c, s)
    decreases |nodes|
  {
    if nodes == [] then ([], false, st)
    else
      var init := nodes[..|nodes| - 1];
      var last := nodes[|nodes| - 1];
      assert forall c :: c in init ==> c in nodes;
      var (acc, changed, st1) := VisitNodesLoop(init, st, visitor);
      var (v, st2) := visitor(last, st1);
      match v
      case Drop => (acc, true, st2)
      case Keep => (acc + [last], changed, st2)
      case Replace(m) => (acc + [m], true, st2)
  }

  /** `visitNodes`: the new list if some element was dropped or replaced, else the original list. */
  function VisitedNodes<S(!new)>(nodes: seq<Node>, st: S, visitor: (Node, S) --> (Visit, S)): (r: (seq<Node>, bool, S))
    requires forall c, s :: c in nodes ==> visitor.requires(c, s)
    ensures !r.1 ==> r.0 == nodes
    ensures r.0 == VisitNodesLoop(nodes, st, visitor).0
    ensures |r.0| <= |nodes|
  {
    var (newNodes, someChanged, st') := VisitNodesLoop(nodes, st, visitor);
    UnchangedLoopKeepsList(nodes, st, visitor);
    if someChanged then (newNodes, true, st') else (nodes, false, st')
  }

  /** When no element was dropped or replaced, the rebuilt list equals the original one. */
  lemma {:induction false} UnchangedLoopKeepsList<S(!new)>(nodes: seq<Node>, st: S, visitor: (Node, S) --> (Visit, S))
    requires forall c, s :: c in nodes ==> visitor.requires(c, s)
    ensures |VisitNodesLoop(nodes, st, visitor).0| <= |nodes|
    ensures !VisitNodesLoop(nodes, st, visitor).1 ==> VisitNodesLoop(nodes, st, visitor).0 == nodes
    decreases |nodes|
  {
    if nodes != [] {
      var init := nodes[..|nodes| - 1];
      assert forall c :: c in init ==> c in nodes;
      UnchangedLoopKeepsList(init, st, visitor);
      assert init + [nodes[|nodes| - 1]] == nodes;
    }
  }

  /** `visitNodes` as the loop the source runs. */
  method VisitNodes<S(!new)>(nodes: seq<Node>, st: S, visitor: (Node, S) --> (Visit, S)) returns (result: seq<Node>, someChanged: bool, st': S)
    requires forall c, s :: c in nodes ==> visitor.requires(c, s)
    ensures (result, someChanged, st') == VisitedNodes(nodes, st, visitor)
    ensures !someChanged ==> result == nodes
  {
    var newNodes: seq<Node> := [];
    someChanged := false;
    st' := st;
    var i := 0;
    while i < |nodes|
      invariant 0 <= i <= |nodes|
      invariant (newNodes, someChanged, st') == VisitNodesLoop(nodes[..i], st, visitor)
    {
      assert nodes[..i + 1][..i] == nodes[..i];
      var child := nodes[i];
      var (visited, next) := visitor(child, st');
      st' := next;
      if !visited.Drop? {
        if visited.Replace? {
          someChanged := true;
          newNodes := newNodes + [visited.node];
        } else {
          newNodes := newNodes + [child];
        }
      } else {
        someChanged := true;
      }
      i := i + 1;
    }
    assert nodes[..i] == nodes;
    UnchangedLoopKeepsList(nodes, st, visitor);
    result := if someChanged then newNodes else nodes;
  }

  /** The kinds `visitEachChild` has a case for. */
  predicate HasCase(n: Node) {
    n.SourceFile? || n.Block? || n.VariableStatement? || n.VariableDeclaration?
    || n.FunctionDecl? || n.ParameterDecl? || n.IfStatement? || n.WhileStatement?
    || n.ForStatement? || n.BinaryExpression? || n.ReturnStatement?
    || n.ExpressionStatement? || n.PrefixUnaryExpression? || n.PostfixUnaryExpression?
  }

  /** Everything a spread copy carries over: kind, position, identity and the non-node fields. */
  predicate SameShell(a: Node, b: Node) {
    a.Kind() == b.Kind() && a.Token? == b.Token? && a.Literal? == b.Literal?
    && a.pos == b.pos && a.end == b.end && a.id == b.id
    && (a.SourceFile? ==> a.text == b.text)
    && (a.BinaryExpression? ==> a.operator == b.operator)
    && (a.PrefixUnaryExpression? ==> a.operator == b.operator)
    && (a.PostfixUnaryExpression? ==> a.operator == b.operator)
  }

  /** The spread copy when a child changed, else `Keep`. */
  function Rebuilt(changed: bool, copy: Node, node: Node): (v: Visit)
    requires SameShell(copy, node)
    ensures v.Replace? ==> SameShell(v.node, node)
  {
    if changed then Replace(copy) else Keep
  }

  /**
   * `visitEachChild`: visit the children of `node` in source order and return a
   * spread copy with the new children if some child changed, else `Keep`. The
   * cases of its `switch` are grouped into declarations, statements and expressions.
   */
  function VisitEachChild<S(!new)>(node: Node, st: S, visitor: (Node, S) --> (Visit, S)): (r: (Visit, S))
    requires forall c, s :: c in Subnodes(node) ==> visitor.requires(c, s)
    ensures !r.0.Drop?
    ensures r.0.Replace? ==> HasCase(node) && SameShell(r.0.node, node)
    ensures !HasCase(node) ==> r == (Keep, st)
  {
    if node.SourceFile? || node.Block? || node.VariableStatement? || node.VariableDeclaration? || node.FunctionDecl? || node.ParameterDecl? then VisitDeclarationChildren(node, st, visitor)
    else if node.IfStatement? || node.WhileStatement? || node.ForStatement? || node.ReturnStatement? || node.ExpressionStatement? then VisitStatementChildren(node, st, visitor)
    else if node.BinaryExpression? || node.PrefixUnaryExpression? || node.PostfixUnaryExpression? then VisitExpressionChildren(node, st, visitor)
    else (Keep, st)
  }

  /** The cases of `visitEachChild` for a file, a block and the declarations. */
  function VisitDeclarationChildren<S(!new)>(node: Node, st: S, visitor: (Node, S) --> (Visit, S)): (r: (Visit, S))
    requires forall c, s :: c in Subnodes(node) ==> visitor.requires(c, s)
    requires node.SourceFile? || node.Block? || node.VariableStatement? || node.VariableDeclaration? || node.FunctionDecl? || node.ParameterDecl?
    ensures !r.0.Drop? && (r.0.Replace? ==> SameShell(r.0.node, node))
  {
    match node
    case SourceFile(p, e, id, ss, text) =>
      var (ss', ch, st1) := VisitedNodes(ss, st, visitor);
      (Rebuilt(ch, Node.SourceFile(p, e, id, ss', text), node), st1)
    case Block(p, e, id, ss) =>
      var (ss', ch, st1) := VisitedNodes(ss, st, visitor);
      (Rebuilt(ch, Node.Block(p, e, id, ss'), node), st1)
    case VariableStatement(p, e, id, d) =>
      var (d', ch, st1) := VisitNode(d, st, visitor);
      (Rebuilt(ch, Node.VariableStatement(p, e, id, d'), node), st1)
    case VariableDeclaration(p, e, id, nm, init) =>
      var (nm', ch1, st1) := VisitNode(nm, st, visitor);
      var (init', ch2, st2) := VisitOptional(init, st1, visitor);
      (Rebuilt(ch1 || ch2, Node.VariableDeclaration(p, e, id, nm', init'), node), st2)
    case FunctionDecl(p, e, id, nm, ps, body) =>
      var (nm', ch1, st1) := VisitNode(nm, st, visitor);
      var (ps', ch2, st2) := VisitedNodes(ps, st1, visitor);
      var (body', ch3, st3) := VisitNode(body, st2, visitor);
      (Rebuilt(ch1 || ch2 || ch3, Node.FunctionDecl(p, e, id, nm', ps', body'), node), st3)
    case ParameterDecl(p, e, id, nm) =>
      var (nm', ch, st1) := VisitNode(nm, st, visitor);
      (Rebuilt(ch, Node.ParameterDecl(p, e, id, nm'), node), st1)
  }

  /** The cases of `visitEachChild` for the other statements. */
  function VisitStatementChildren<S(!new)>(node: Node, st: S, visitor: (Node, S) --> (Visit, S)): (r: (Visit, S))
    requires forall c, s :: c in Subnodes(node) ==> visitor.requires(c, s)
    requires node.IfStatement? || node.WhileStatement? || node.ForStatement? || node.ReturnStatement? || node.ExpressionStatement?
    ensures !r.0.Drop? && (r.0.Replace? ==> SameShell(r.0.node, node))
  {
    match node
    case IfStatement(p, e, id, c, t, el) =>
      var (c', ch1, st1) := VisitNode(c, st, visitor);
      var (t', ch2, st2) := VisitNode(t, st1, visitor);
      var (el', ch3, st3) := VisitOptional(el, st2, visitor);
      (Rebuilt(ch1 || ch2 || ch3, Node.IfStatement(p, e, id, c', t', el'), node), st3)
    case WhileStatement(p, e, id, c, s) =>
      var (c', ch1, st1) := VisitNode(c, st, visitor);
      var (s', ch2, st2) := VisitNode(s, st1, visitor);
      (Rebuilt(ch1 || ch2, Node.WhileStatement(p, e, id, c', s'), node), st2)
    case ForStatement(p, e, id, i, c, inc, s) =>
      var (i', ch1, st1) := VisitOptional(i, st, visitor);
      var (c', ch2, st2) := VisitOptional(c, st1, visitor);
      var (inc', ch3, st3) := VisitOptional(inc, st2, visitor);
      var (s', ch4, st4) := VisitNode(s, st3, visitor);
      (Rebuilt(ch1 || ch2 || ch3 || ch4, Node.ForStatement(p, e, id, i', c', inc', s'), node), st4)
    case ReturnStatement(p, e, id, x) =>
      var (x', ch, st1) := VisitOptional(x, st, visitor);
      (Rebuilt(ch, Node.ReturnStatement(p, e, id, x'), node), st1)
    case ExpressionStatement(p, e, id, x) =>
      var (x', ch, st1) := VisitNode(x, st, visitor);
      (Rebuilt(ch, Node.ExpressionStatement(p, e, id, x'), node), st1)
  }

  /** The cases of `visitEachChild` for the operator expressions. */
  function VisitExpressionChildren<S(!new)>(node: Node, st: S, visitor: (Node, S) --> (Visit, S)): (r: (Visit, S))
    requires forall c, s :: c in Subnodes(node) ==> visitor.requires(c, s)
    requires node.BinaryExpression? || node.PrefixUnaryExpression? || node.PostfixUnaryExpression?
    ensures !r.0.Drop? && (r.0.Replace? ==> SameShell(r.0.node, node))
  {
    match node
    case BinaryExpression(p, e, id, l, op, rt) =>
      var (l', ch1, st1) := VisitNode(l, st, visitor);
      var (r', ch2, st2) := VisitNode(rt, st1, visitor);
      (Rebuilt(ch1 || ch2, Node.BinaryExpression(p, e, id, l', op, r'), node), st2)
    case PrefixUnaryExpression(p, e, id, op, x) =>
      var (x', ch, st1) := VisitNode(x, st, visitor);
      (Rebuilt(ch, Node.PrefixUnaryExpression(p, e, id, op, x'), node), st1)
    case PostfixUnaryExpression(p, e, id, x, op) =>
      var (x', ch, st1) := VisitNode(x, st, visitor);
      (Rebuilt(ch, Node.PostfixUnaryExpression(p, e, id, x', op), node), st1)
  }

  // ---------------------------------------------------------------------------
  // Properties of the framework

  /** A visitor that keeps every child leaves the node as it is. */
  lemma KeepingVisitorKeeps<S(!new)>(node: Node, st: S, visitor: (Node, S) --> (Visit, S))
    requires forall c, s :: c in Subnodes(node) ==> visitor.requires(c, s) && visitor(c, s).0 == Keep
    ensures VisitEachChild(node, st, visitor).0 == Keep
  {
    if node.SourceFile? || node.Block? {
      KeepingListIsUnchanged(node.statements, st, visitor);
    } else if node.FunctionDecl? {
      assert forall c :: c in node.parameters ==> c in Subnodes(node);
      var (nm', ch1, st1) := VisitNode(node.name, st, visitor);
      KeepingListIsUnchanged(node.parameters, st1, visitor);
    }
  }

  lemma {:induction false} KeepingListIsUnchanged<S(!new)>(nodes: seq<Node>, st: S, visitor: (Node, S) --> (Visit, S))
    requires forall c, s :: c in nodes ==> visitor.requires(c, s) && visitor(c, s).0 == Keep
    ensures !VisitNodesLoop(nodes, st, visitor).1
    decreases |nodes|
  {
    if nodes != [] {
      var init := nodes[..|nodes| - 1];
      assert forall c :: c in init ==> c in nodes;
      KeepingListIsUnchanged(init, st, visitor);
    }
  }

  /** The visitor that only delegates to `visitEachChild`. */
  function Delegate(node: Node): Visit {
    VisitEachChild(node, (), (c: Node, s: ()) requires (node decreases to c) => (Delegate(c), s)).0
  }

  /** A visitor that always delegates to `visitEachChild` returns the identical root. */
  lemma {:induction false} DelegatingVisitorIsIdentity(node: Node)
    ensures Delegate(node) == Keep
  {
    forall c | c in Subnodes(node) {
      DelegatingVisitorIsIdentity(c);
    }
    KeepingVisitorKeeps(node, (), (c: Node, s: ()) requires (node decreases to c) => (Delegate(c), s));
  }

  /** A reference definition of a stateless list visit: map every element to its replacement and leave out the dropped ones. */
  function Filtered(nodes: seq<Node>, visitor: (Node, ()) --> (Visit, ())): (r: seq<Node>)
    requires forall c, s :: c in nodes ==> visitor.requires(c, s)
  {
    if nodes == [] then []
    else
      assert forall c :: c in nodes[1..] ==> c in nodes;
      var v := visitor(nodes[0], ()).0;
      (if v.Drop? then [] else [Outcome(nodes[0], v)]) + Filtered(nodes[1..], visitor)
  }

  lemma {:induction false} FilteredSnoc(nodes: seq<Node>, x: Node, visitor: (Node, ()) --> (Visit, ()))
    requires forall c, s :: c in nodes + [x] ==> visitor.requires(c, s)
    ensures Filtered(nodes + [x], visitor)
         == Filtered(nodes, visitor)
            + (var v := visitor(x, ()).0; if v.Drop? then [] else [Outcome(x, v)])
    decreases |nodes|
  {
    if nodes != [] {
      assert (nodes + [x])[1..] == nodes[1..] + [x];
      assert forall c :: c in nodes[1..] + [x] ==> c in nodes + [x];
      FilteredSnoc(nodes[1..], x, visitor);
    }
  }

  /** Filtering two joined lists filters each in turn. */
  lemma {:induction false} FilteredAppend(a: seq<Node>, b: seq<Node>, visitor: (Node, ()) --> (Visit, ()))
    requires forall c, s :: c in a + b ==> visitor.requires(c, s)
    ensures Filtered(a + b, visitor) == Filtered(a, visitor) + Filtered(b, visitor)
    decreases |a|
  {
    if a == [] {
      assert a + b == b;
    } else {
      var ab := a + b;
      assert ab[0] == a[0];
      assert ab[1..] == a[1..] + b;
      assert forall c :: c in a[1..] ==> c in a;
      FilteredAppend(a[1..], b, visitor);
      var v := visitor(a[0], ()).0;
      var head := if v.Drop? then [] else [Outcome(a[0], v)];
      assert Filtered(ab, visitor) == head + Filtered(ab[1..], visitor);
      assert Filtered(a, visitor) == head + Filtered(a[1..], visitor);
    }
  }

  /** An element the visitor drops is left out; the elements around it are filtered as without it. */
  lemma FilteredSkips(front: seq<Node>, x: Node, back: seq<Node>, visitor: (Node, ()) --> (Visit, ()))
    requires forall c, s :: c in front + [x] + back ==> visitor.requires(c, s)
    ensures visitor(x, ()).0.Drop? ==> Filtered(front + [x] + back, visitor) == Filtered(front, visitor) + Filtered(back, visitor)
  {
    assert front + [x] + back == front + ([x] + back);
    FilteredAppend(front, [x] + back, visitor);
    assert ([x] + back)[0] == x && ([x] + back)[1..] == back;
  }

  /**
   * In a list child, a stateless visit keeps the elements the visitor keeps or
   * replaces, in order, and drops the others; the list counts as changed exactly
   * when some element was dropped or replaced.
   */
  lemma {:induction false} ListVisitIsFiltered(nodes: seq<Node>, visitor: (Node, ()) --> (Visit, ()))
    requires forall c, s :: c in nodes ==> visitor.requires(c, s)
    ensures VisitNodesLoop(nodes, (), visitor).0 == Filtered(nodes, visitor)
    ensures VisitNodesLoop(nodes, (), visitor).1
        <==> exists i :: 0 <= i < |nodes| && !visitor(nodes[i], ()).0.Keep?
    decreases |nodes|
  {
    if nodes != [] {
      var init := nodes[..|nodes| - 1];
      var last := nodes[|nodes| - 1];
      assert forall c :: c in init ==> c in nodes;
      ListVisitIsFiltered(init, visitor);
      assert init + [last] == nodes;
      FilteredSnoc(init, last, visitor);
      assert forall i :: 0 <= i < |init| ==> nodes[i] == init[i];
      assert nodes[|nodes| - 1] == last;
      var v := visitor(last, ()).0;
      assert VisitNodesLoop(init, (), visitor).2 == ();
      assert VisitNodesLoop(nodes, (), visitor).0
          == VisitNodesLoop(init, (), visitor).0 + (if v.Drop? then [] else [Outcome(last, v)]);
      assert VisitNodesLoop(nodes, (), visitor).1 == (VisitNodesLoop(init, (), visitor).1 || !v.Keep?);
      assert (exists i :: 0 <= i < |nodes| && !visitor(nodes[i], ()).0.Keep?)
         <==> (exists i :: 0 <= i < |init| && !visitor(init[i], ()).0.Keep?) || !visitor(last, ()).0.Keep?;
    }
  }

  /** What each element becomes under a stateless visitor: its replacement, or itself. */
  function Outcomes(nodes: seq<Node>, visitor: (Node, ()) --> (Visit, ())): (r: seq<Node>)
    requires forall c, s :: c in nodes ==> visitor.requires(c, s)
    ensures |r| == |nodes|
    ensures forall i :: 0 <= i < |nodes| ==> r[i] == Outcome(nodes[i], visitor(nodes[i], ()).0)
  {
    if nodes == [] then []
    else
      assert forall c :: c in nodes[1..] ==> c in nodes;
      [Outcome(nodes[0], visitor(nodes[0], ()).0)] + Outcomes(nodes[1..], visitor)
  }

  lemma {:induction false} OutcomesConcat(a: seq<Node>, b: seq<Node>, visitor: (Node, ()) --> (Visit, ()))
    requires forall c, s :: c in a + b ==> visitor.requires(c, s)
    ensures Outcomes(a + b, visitor) == Outcomes(a, visitor) + Outcomes(b, visitor)
    decreases |a|
  {
    if a != [] {
      assert (a + b)[0] == a[0];
      assert (a + b)[1..] == a[1..] + b;
      assert forall c :: c in a[1..] + b ==> c in a + b;
      OutcomesConcat(a[1..], b, visitor);
      var head := [Outcome(a[0], visitor(a[0], ()).0)];
      calc {
        Outcomes(a + b, visitor);
        head + Outcomes(a[1..] + b, visitor);
        head + (Outcomes(a[1..], visitor) + Outcomes(b, visitor));
        (head + Outcomes(a[1..], visitor)) + Outcomes(b, visitor);
      }
    } else {
      assert a + b == b;
    }
  }

  lemma {:induction false} FilteredWithoutDrops(nodes: seq<Node>, visitor: (Node, ()) --> (Visit, ()))
    requires forall c, s :: c in nodes ==> visitor.requires(c, s) && !visitor(c, s).0.Drop?
    ensures Filtered(nodes, visitor) == Outcomes(nodes, visitor)
    decreases |nodes|
  {
    if nodes != [] {
      assert forall c :: c in nodes[1..] ==> c in nodes;
      FilteredWithoutDrops(nodes[1..], visitor);
    }
  }

  /** A list child under a stateless visitor that drops nothing: each element's outcome, in place. */
  lemma ListWithoutDrops(nodes: seq<Node>, visitor: (Node, ()) --> (Visit, ()))
    requires forall c, s :: c in nodes ==> visitor.requires(c, s) && !visitor(c, s).0.Drop?
    ensures VisitedNodes(nodes, (), visitor).0 == Outcomes(nodes, visitor)
  {
    ListVisitIsFiltered(nodes, visitor);
    FilteredWithoutDrops(nodes, visitor);
  }

  /**
   * A stateless visitor that never returns `undefined` leaves every child position
   * filled: the node `visitEachChild` returns has, in each position, the visitor's
   * replacement for the child there, or the child itself.
   */
  lemma NonDroppingVisitReplacesChildren(node: Node, visitor: (Node, ()) --> (Visit, ()))
    requires forall c, s :: c in Subnodes(node) ==> visitor.requires(c, s) && !visitor(c, s).0.Drop?
    ensures HasCase(node) ==>
      Subnodes(Outcome(node, VisitEachChild(node, (), visitor).0)) == Outcomes(Subnodes(node), visitor)
  {
    if node.SourceFile? || node.Block? {
      ListWithoutDrops(node.statements, visitor);
    } else if node.FunctionDecl? {
      FunctionWithoutDrops(node, visitor);
    } else if node.IfStatement? {
      IfWithoutDrops(node, visitor);
    } else if node.ForStatement? {
      ForWithoutDrops(node, visitor);
    } else if node.VariableDeclaration? {
      DeclarationWithoutDrops(node, visitor);
    } else if node.WhileStatement? || node.BinaryExpression? {
      PairWithoutDrops(node, visitor);
    }
  }

  lemma FunctionWithoutDrops(node: Node, visitor: (Node, ()) --> (Visit, ()))
    requires node.FunctionDecl?
    requires forall c, s :: c in Subnodes(node) ==> visitor.requires(c, s) && !visitor(c, s).0.Drop?
    ensures Subnodes(Outcome(node, VisitEachChild(node, (), visitor).0)) == Outcomes(Subnodes(node), visitor)
  {
    var (nm, ps, body) := (node.name, node.parameters, node.body);
    assert Subnodes(node) == [nm] + ps + [body];
    assert forall c :: c in ps ==> c in Subnodes(node);
    FunctionRebuilt(node, visitor);
    OutcomesConcat([nm] + ps, [body], visitor);
    OutcomesConcat([nm], ps, visitor);
    assert Outcomes([nm], visitor) == [Outcome(nm, visitor(nm, ()).0)];
    assert Outcomes([body], visitor) == [Outcome(body, visitor(body, ()).0)];
  }

  lemma FunctionRebuilt(node: Node, visitor: (Node, ()) --> (Visit, ()))
    requires node.FunctionDecl?
    requires forall c, s :: c in Subnodes(node) ==> visitor.requires(c, s) && !visitor(c, s).0.Drop?
    ensures forall c :: c in node.parameters ==> c in Subnodes(node)
    ensures Outcome(node, VisitEachChild(node, (), visitor).0)
      == Node.FunctionDecl(node.pos, node.end, node.id, Outcome(node.name, visitor(node.name, ()).0),
                           Outcomes(node.parameters, visitor), Outcome(node.body, visitor(node.body, ()).0))
  {
    var (p, e, id, nm, ps, body) := (node.pos, node.end, node.id, node.name, node.parameters, node.body);
    assert forall c :: c in ps ==> c in Subnodes(node);
    ListWithoutDrops(ps, visitor);
    var r1 := VisitNode(nm, (), visitor);
    assert r1.2 == ();
    var r2 := VisitedNodes(ps, r1.2, visitor);
    assert r2.2 == ();
    var r3 := VisitNode(body, r2.2, visitor);
    assert VisitEachChild(node, (), visitor).0
      == Rebuilt(r1.1 || r2.1 || r3.1, Node.FunctionDecl(p, e, id, r1.0, r2.0, r3.0), node);
  }

  lemma ForWithoutDrops(node: Node, visitor: (Node, ()) --> (Visit, ()))
    requires node.ForStatement?
    requires forall c, s :: c in Subnodes(node) ==> visitor.requires(c, s) && !visitor(c, s).0.Drop?
    ensures Subnodes(Outcome(node, VisitEachChild(node, (), visitor).0)) == Outcomes(Subnodes(node), visitor)
  {
    var (i, c, inc, st) := (node.initializer, node.condition, node.incrementor, node.statement);
    assert Subnodes(node) == Opt(i) + Opt(c) + Opt(inc) + [st];
    ForRebuilt(node, visitor);
    var (i', c', inc') := (OptOutcome(i, visitor), OptOutcome(c, visitor), OptOutcome(inc, visitor));
    var st' := Outcome(st, visitor(st, ()).0);
    assert Subnodes(Outcome(node, VisitEachChild(node, (), visitor).0)) == Opt(i') + Opt(c') + Opt(inc') + [st'];
    assert Outcomes([st], visitor) == [st'];
    OutcomesConcat4(Opt(i), Opt(c), Opt(inc), [st], visitor);
  }

  lemma OutcomesConcat4(a: seq<Node>, b: seq<Node>, c: seq<Node>, d: seq<Node>, visitor: (Node, ()) --> (Visit, ()))
    requires forall x, s :: x in a + b + c + d ==> visitor.requires(x, s)
    ensures Outcomes(a + b + c + d, visitor)
         == Outcomes(a, visitor) + Outcomes(b, visitor) + Outcomes(c, visitor) + Outcomes(d, visitor)
  {
    OutcomesConcat(a + b + c, d, visitor);
    OutcomesConcat(a + b, c, visitor);
    OutcomesConcat(a, b, visitor);
  }

  lemma ForRebuilt(node: Node, visitor: (Node, ()) --> (Visit, ()))
    requires node.ForStatement?
    requires forall c, s :: c in Subnodes(node) ==> visitor.requires(c, s) && !visitor(c, s).0.Drop?
    ensures Outcome(node, VisitEachChild(node, (), visitor).0)
      == Node.ForStatement(node.pos, node.end, node.id, OptOutcome(node.initializer, visitor),
                           OptOutcome(node.condition, visitor), OptOutcome(node.incrementor, visitor),
                           Outcome(node.statement, visitor(node.statement, ()).0))
  {
    var (p, e, id, i, c, inc, st) := (node.pos, node.end, node.id, node.initializer, node.condition, node.incrementor, node.statement);
    var r1 := VisitOptional(i, (), visitor);
    assert r1.2 == ();
    var r2 := VisitOptional(c, r1.2, visitor);
    assert r2.2 == ();
    var r3 := VisitOptional(inc, r2.2, visitor);
    assert r3.2 == ();
    var r4 := VisitNode(st, r3.2, visitor);
    assert VisitEachChild(node, (), visitor).0
      == Rebuilt(r1.1 || r2.1 || r3.1 || r4.1, Node.ForStatement(p, e, id, r1.0, r2.0, r3.0, r4.0), node);
  }

  lemma IfWithoutDrops(node: Node, visitor: (Node, ()) --> (Visit, ()))
    requires node.IfStatement?
    requires forall c, s :: c in Subnodes(node) ==> visitor.requires(c, s) && !visitor(c, s).0.Drop?
    ensures Subnodes(Outcome(node, VisitEachChild(node, (), visitor).0)) == Outcomes(Subnodes(node), visitor)
  {
    var (c, t, el) := (node.expression, node.thenStatement, node.elseStatement);
    assert Subnodes(node) == [c, t] + Opt(el);
    IfRebuilt(node, visitor);
    OutcomesConcat([c, t], Opt(el), visitor);
    OutcomesConcat([c], [t], visitor);
    assert [c] + [t] == [c, t];
  }

  /** Every child of an `if` sits in a single-child position, so even a dropping visitor only replaces them. */
  lemma IfRebuilt(node: Node, visitor: (Node, ()) --> (Visit, ()))
    requires node.IfStatement?
    requires forall c, s :: c in Subnodes(node) ==> visitor.requires(c, s)
    ensures Outcome(node, VisitEachChild(node, (), visitor).0)
      == Node.IfStatement(node.pos, node.end, node.id, Outcome(node.expression, visitor(node.expression, ()).0),
                          Outcome(node.thenStatement, visitor(node.thenStatement, ()).0),
                          OptOutcome(node.elseStatement, visitor))
  {
    var (p, e, id, c, t, el) := (node.pos, node.end, node.id, node.expression, node.thenStatement, node.elseStatement);
    var r1 := VisitNode(c, (), visitor);
    assert r1.2 == ();
    var r2 := VisitNode(t, r1.2, visitor);
    assert r2.2 == ();
    var r3 := VisitOptional(el, r2.2, visitor);
    assert VisitEachChild(node, (), visitor).0
      == Rebuilt(r1.1 || r2.1 || r3.1, Node.IfStatement(p, e, id, r1.0, r2.0, r3.0), node);
  }

  lemma DeclarationWithoutDrops(node: Node, visitor: (Node, ()) --> (Visit, ()))
    requires node.VariableDeclaration?
    requires forall c, s :: c in Subnodes(node) ==> visitor.requires(c, s) && !visitor(c, s).0.Drop?
    ensures Subnodes(Outcome(node, VisitEachChild(node, (), visitor).0)) == Outcomes(Subnodes(node), visitor)
  {
    var (p, e, id, nm, init) := (node.pos, node.end, node.id, node.name, node.initializer);
    assert Subnodes(node) == [nm] + Opt(init);
    var r1 := VisitNode(nm, (), visitor);
    assert r1.2 == ();
    var r2 := VisitOptional(init, r1.2, visitor);
    assert VisitEachChild(node, (), visitor).0
      == Rebuilt(r1.1 || r2.1, Node.VariableDeclaration(p, e, id, r1.0, r2.0), node);
    assert r2.0 == OptOutcome(init, visitor);
    OutcomesConcat([nm], Opt(init), visitor);
  }

  lemma PairWithoutDrops(node: Node, visitor: (Node, ()) --> (Visit, ()))
    requires node.WhileStatement? || node.BinaryExpression?
    requires forall c, s :: c in Subnodes(node) ==> visitor.requires(c, s) && !visitor(c, s).0.Drop?
    ensures Subnodes(Outcome(node, VisitEachChild(node, (), visitor).0)) == Outcomes(Subnodes(node), visitor)
  {
    var (a, b) := if node.WhileStatement? then (node.expression, node.statement) else (node.left, node.right);
    assert Subnodes(node) == [a, b];
    var r1 := VisitNode(a, (), visitor);
    assert r1.2 == ();
    var r2 := VisitNode(b, r1.2, visitor);
    if node.WhileStatement? {
      assert VisitEachChild(node, (), visitor).0
        == Rebuilt(r1.1 || r2.1, Node.WhileStatement(node.pos, node.end, node.id, r1.0, r2.0), node);
    } else {
      assert VisitEachChild(node, (), visitor).0
        == Rebuilt(r1.1 || r2.1, Node.BinaryExpression(node.pos, node.end, node.id, r1.0, node.operator, r2.0), node);
    }
    OutcomesConcat([a], [b], visitor);
    assert [a] + [b] == [a, b];
  }

  /** What an optional child becomes under a stateless visitor that drops nothing. */
  function OptOutcome(o: Option<Node>, visitor: (Node, ()) --> (Visit, ())): (r: Option<Node>)
    requires forall s :: o.Some? ==> visitor.requires(o.value, s)
    ensures Opt(r) == Outcomes(Opt(o), visitor)
    ensures o.Some? && !visitor(o.value, ()).0.Replace? ==> r == o
  {
    if o.None? then None else Some(Outcome(o.value, visitor(o.value, ()).0))
  }

  /**
   * A relation between states that every child visit establishes, and that is
   * reflexive and transitive, holds between the state before and after the whole
   * `visitEachChild`: the state is threaded through the children in order.
   */
  lemma StateRelation<S(!new)>(node: Node, st: S, visitor: (Node, S) --> (Visit, S), R: (S, S) -> bool)
    requires forall c, s :: c in Subnodes(node) ==> visitor.requires(c, s) && R(s, visitor(c, s).1)
    requires forall a :: R(a, a)
    requires forall a, b, c :: R(a, b) && R(b, c) ==> R(a, c)
    ensures R(st, VisitEachChild(node, st, visitor).1)
  {
    if node.SourceFile? || node.Block? {
      ListRelation(node.statements, st, visitor, R);
    } else if node.FunctionDecl? {
      assert forall c :: c in node.parameters ==> c in Subnodes(node);
      var st1 := visitor(node.name, st).1;
      ListRelation(node.parameters, st1, visitor, R);
    } else if node.IfStatement? || node.ForStatement? || node.VariableDeclaration? || node.ReturnStatement? {
      OptionalRelation(node, st, visitor, R);
    }
  }

  lemma OptionalRelation<S(!new)>(node: Node, st: S, visitor: (Node, S) --> (Visit, S), R: (S, S) -> bool)
    requires node.IfStatement? || node.ForStatement? || node.VariableDeclaration? || node.ReturnStatement?
    requires forall c, s :: c in Subnodes(node) ==> visitor.requires(c, s) && R(s, visitor(c, s).1)
    requires forall a :: R(a, a)
    requires forall a, b, c :: R(a, b) && R(b, c) ==> R(a, c)
    ensures R(st, VisitEachChild(node, st, visitor).1)
  {
    if node.IfStatement? {
      var st2 := visitor(node.thenStatement, visitor(node.expression, st).1).1;
      assert R(st, st2);
      var r3 := VisitOptional(node.elseStatement, st2, visitor);
      assert R(st2, r3.2);
      assert VisitEachChild(node, st, visitor).1 == r3.2;
    } else if node.ForStatement? {
      var r1 := VisitOptional(node.initializer, st, visitor);
      var r2 := VisitOptional(node.condition, r1.2, visitor);
      var r3 := VisitOptional(node.incrementor, r2.2, visitor);
      assert R(st, r3.2);
      assert VisitEachChild(node, st, visitor).1 == visitor(node.statement, r3.2).1;
    } else if node.VariableDeclaration? {
      var st1 := visitor(node.name, st).1;
      var r2 := VisitOptional(node.initializer, st1, visitor);
      assert R(st1, r2.2);
      assert VisitEachChild(node, st, visitor).1 == r2.2;
    }
  }

  lemma {:induction false} ListRelation<S(!new)>(nodes: seq<Node>, st: S, visitor: (Node, S) --> (Visit, S), R: (S, S) -> bool)
    requires forall c, s :: c in nodes ==> visitor.requires(c, s) && R(s, visitor(c, s).1)
    requires forall a :: R(a, a)
    requires forall a, b, c :: R(a, b) && R(b, c) ==> R(a, c)
    ensures R(st, VisitNodesLoop(nodes, st, visitor).2)
    ensures R(st, VisitedNodes(nodes, st, visitor).2)
    decreases |nodes|
  {
    if nodes != [] {
      var init := nodes[..|nodes| - 1];
      assert forall c :: c in init ==> c in nodes;
      ListRelation(init, st, visitor, R);
      assert nodes[|nodes| - 1] in nodes;
    }
  }

  /** `node` with every list child emptied: what a visitor that drops everything leaves. */
  function ListsEmptied(node: Node): Node {
    match node
    case SourceFile(p, e, id, _, text) => Node.SourceFile(p, e, id, [], text)
    case Block(p, e, id, _) => Node.Block(p, e, id, [])
    case FunctionDecl(p, e, id, nm, _, body) => Node.FunctionDecl(p, e, id, nm, [], body)
    case _ => node
  }

  /**
   * A visitor that returns `undefined` for everything empties the list children and
   * keeps every single child: an `undefined` in a single-child position keeps the
   * original child.
   */
  lemma DroppingVisitorEmptiesOnlyLists<S(!new)>(node: Node, st: S, visitor: (Node, S) --> (Visit, S))
    requires forall c, s :: c in Subnodes(node) ==> visitor.requires(c, s) && visitor(c, s).0 == Drop
    ensures Outcome(node, VisitEachChild(node, st, visitor).0) == ListsEmptied(node)
  {
    if node.SourceFile? || node.Block? {
      DroppedList(node.statements, st, visitor);
    } else if node.FunctionDecl? {
      assert forall c :: c in node.parameters ==> c in Subnodes(node);
      var (nm', ch1, st1) := VisitNode(node.name, st, visitor);
      DroppedList(node.parameters, st1, visitor);
    }
  }

  lemma {:induction false} DroppedList<S(!new)>(nodes: seq<Node>, st: S, visitor: (Node, S) --> (Visit, S))
    requires forall c, s :: c in nodes ==> visitor.requires(c, s) && visitor(c, s).0 == Drop
    ensures VisitNodesLoop(nodes, st, visitor).0 == []
    ensures VisitNodesLoop(nodes, st, visitor).1 <==> nodes != []
    decreases |nodes|
  {
    if nodes != [] {
      var init := nodes[..|nodes| - 1];
      assert forall c :: c in init ==> c in nodes;
      DroppedList(init, st, visitor);
    }
  }

  /** The children `visitEachChild` passes to the visitor, in the order it does so. */
  function VisitOrder(node: Node): seq<Node> {
    if HasCase(node) then Subnodes(node) else []
  }

  /** A visitor that records what it is called on. */
  function Recorder(c: Node, trace: seq<Node>): (Visit, seq<Node>) {
    (Keep, trace + [c])
  }

  lemma {:induction false} RecordedList(nodes: seq<Node>, trace: seq<Node>)
    ensures VisitNodesLoop(nodes, trace, Recorder).2 == trace + nodes
    decreases |nodes|
  {
    if nodes != [] {
      var init := nodes[..|nodes| - 1];
      RecordedList(init, trace);
      assert init + [nodes[|nodes| - 1]] == nodes;
    }
  }

  /**
   * Children are visited in source order (an `if` as condition, then, else; a `for`
   * as initializer, condition, incrementor, body), and kinds without a case
   * visit none of them.
   */
  lemma ChildrenVisitedInSourceOrder(node: Node, trace: seq<Node>)
    ensures VisitEachChild(node, trace, Recorder).1 == trace + VisitOrder(node)
  {
    match node
    case SourceFile(_, _, _, ss, _) => RecordedList(ss, trace);
    case Block(_, _, _, ss) => RecordedList(ss, trace);
    case FunctionDecl(_, _, _, _, _, _) => FunctionVisitedInOrder(node, trace);
    case IfStatement(_, _, _, _, _, _) => IfVisitedInOrder(node, trace);
    case ForStatement(_, _, _, _, _, _, _) => ForVisitedInOrder(node, trace);
    case VariableDeclaration(_, _, _, _, _) => DeclarationVisitedInOrder(node, trace);
    case ReturnStatement(_, _, _, e) => RecordedOptional(e, trace);
    case _ =>
  }

  lemma FunctionVisitedInOrder(node: Node, trace: seq<Node>)
    requires node.FunctionDecl?
    ensures VisitEachChild(node, trace, Recorder).1 == trace + Subnodes(node)
  {
    var (nm, ps, body) := (node.name, node.parameters, node.body);
    RecordedList(ps, trace + [nm]);
    Assoc(trace, [nm], ps);
    Assoc(trace, [nm] + ps, [body]);
  }

  lemma IfVisitedInOrder(node: Node, trace: seq<Node>)
    requires node.IfStatement?
    ensures VisitEachChild(node, trace, Recorder).1 == trace + Subnodes(node)
  {
    var (e, t, el) := (node.expression, node.thenStatement, node.elseStatement);
    RecordedOptional(el, trace + [e] + [t]);
    Assoc(trace, [e], [t]);
    assert [e] + [t] == [e, t];
    Assoc(trace, [e, t], Opt(el));
  }

  lemma ForVisitedInOrder(node: Node, trace: seq<Node>)
    requires node.ForStatement?
    ensures VisitEachChild(node, trace, Recorder).1 == trace + Subnodes(node)
  {
    var (i, c, inc, s) := (node.initializer, node.condition, node.incrementor, node.statement);
    RecordedOptional(i, trace);
    RecordedOptional(c, trace + Opt(i));
    RecordedOptional(inc, trace + Opt(i) + Opt(c));
    Assoc(trace, Opt(i), Opt(c));
    Assoc(trace, Opt(i) + Opt(c), Opt(inc));
    Assoc(trace, Opt(i) + Opt(c) + Opt(inc), [s]);
  }

  lemma DeclarationVisitedInOrder(node: Node, trace: seq<Node>)
    requires node.VariableDeclaration?
    ensures VisitEachChild(node, trace, Recorder).1 == trace + Subnodes(node)
  {
    RecordedOptional(node.initializer, trace + [node.name]);
    Assoc(trace, [node.name], Opt(node.initializer));
  }

  lemma RecordedOptional(o: Option<Node>, trace: seq<Node>)
    ensures VisitOptional(o, trace, Recorder).2 == trace + Opt(o)
  {
  }

  // ---------------------------------------------------------------------------
  // transform

  /** The file after each pass has run on the previous pass's output, in list order. */
  function ApplyAll(file: Node, passes: seq<Node --> Node>): (r: Node)
    requires forall p, n :: p in passes ==> p.requires(n)
    ensures (forall p, n :: p in passes ==> p(n) == n) ==> r == file
    decreases |passes|
  {
    if passes == [] then file
    else
      assert forall p :: p in passes[1..] ==> p in passes;
      ApplyAll(passes[0](file), passes[1..])
  }

  /** Running one more pass applies it to the output of the earlier ones. */
  lemma {:induction false} ApplyAllSnoc(file: Node, passes: seq<Node --> Node>, last: Node --> Node)
    requires forall p, n :: p in passes + [last] ==> p.requires(n)
    ensures ApplyAll(file, passes + [last]) == last(ApplyAll(file, passes))
    decreases |passes|
  {
    if passes != [] {
      assert (passes + [last])[1..] == passes[1..] + [last];
      assert forall p :: p in passes[1..] + [last] ==> p in passes + [last];
      ApplyAllSnoc(passes[0](file), passes[1..], last);
    }
  }

  /** An empty pass list returns the input unchanged. */
  lemma NoPassesIsIdentity(file: Node)
    ensures ApplyAll(file, []) == file
  {
  }

  /** `transform`: thread the file through the passes in order. */
  method Transform(sourceFile: Node, passes: seq<Node --> Node>) returns (transformedFile: Node)
    requires forall p, n :: p in passes ==> p.requires(n)
    ensures transformedFile == ApplyAll(sourceFile, passes)
    ensures passes == [] ==> transformedFile == sourceFile
  {
    transformedFile := sourceFile;
    for i := 0 to |passes|
      invariant transformedFile == ApplyAll(sourceFile, passes[..i])
    {
      assert forall p :: p in passes[..i + 1] ==> p in passes;
      ApplyAllSnoc(sourceFile, passes[..i], passes[i]);
      assert passes[..i] + [passes[i]] == passes[..i + 1];
      transformedFile := passes[i](transformedFile);
    }
    assert passes[..|passes|] == passes;
  }
}
