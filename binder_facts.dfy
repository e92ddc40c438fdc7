/**
 * What `bindSourceFile` guarantees (src/binder.ts), proved about the functions the
 * walk is specified by: binding a node writes `parent`, `flowNode` and `locals`
 * only inside its own subtree and only appends flow nodes; the node itself gets
 * the current parent, the current flow, and a fresh scope exactly when it opens
 * one; where declarations land; what identifiers resolve to; and the shape of the
 * flow graph that `return`, `if`, loops and function bodies build.
 */
module BinderFacts {
  import opened FlowFlags
  import opened Ast
  import opened Binder
  import opened Seqs

  // ---------------------------------------------------------------------------
  // Frames

  /** Entry `k` is the same in both maps: absent from both, or present with one value. */
  ghost predicate Agrees<V>(a: map<nat, V>, b: map<nat, V>, k: nat) {
    (k in a <==> k in b) && (k in a ==> a[k] == b[k])
  }

  /** The `parent`, `flowNode` and `locals` decorations of id `k` are the same in both states. */
  ghost predicate SameAt(s: BState, r: BState, k: nat) {
    Agrees(s.t.parentOf, r.t.parentOf, k) && Agrees(s.t.flowOf, r.t.flowOf, k)
    && Agrees(s.t.localsOf, r.t.localsOf, k)
  }

  /** From `s` to `r` only ids in `ids` were decorated anew, and flow nodes were only appended. */
  ghost predicate Framed(s: BState, r: BState, ids: set<nat>) {
    (forall k :: k !in ids ==> SameAt(s, r, k)) && s.t.flows <= r.t.flows
  }

  /** The ids strictly below `n`. */
  function ChildIds(n: Node): set<nat> {
    IdsOf(Subnodes(n), n)
  }

  /** `c`'s `parent` is `p`. */
  ghost predicate ParentIs(r: BState, c: Node, p: Node) {
    c.id in r.t.parentOf && r.t.parentOf[c.id] == p
  }

  lemma Chain(a: BState, b: BState, c: BState, x: set<nat>, y: set<nat>, z: set<nat>)
    requires Framed(a, b, x) && Framed(b, c, y) && x <= z && y <= z
    ensures Framed(a, c, z)
  {
    forall k | k !in z
      ensures SameAt(a, c, k)
    {
      assert SameAt(a, b, k) && SameAt(b, c, k);
    }
  }

  lemma FlowSteps(s: BState, f: FlowNode)
    requires StateValid(s)
    ensures Framed(s, AddFlow(s, f), {}) && Framed(s, PushFlow(s, f), {})
  {
  }

  /** Pushing an antecedent onto a loop label made after `base` keeps the frame. */
  lemma AntecedentFramed(base: BState, a: BState, loop: nat, x: set<nat>)
    requires Framed(base, a, x) && StateValid(a) && |base.t.flows| <= loop < |a.t.flows|
    ensures Framed(base, AddAntecedent(a, loop), x)
  {
    var b := AddAntecedent(a, loop);
    assert forall i :: 0 <= i < |base.t.flows| ==> b.t.flows[i] == a.t.flows[i];
  }

  /** A child's ids are among the ids below its parent. */
  lemma ChildWithin(n: Node, c: Node)
    requires c in Subnodes(n)
    ensures Ids(c) <= ChildIds(n)
  {
    var i :| 0 <= i < |Subnodes(n)| && Subnodes(n)[i] == c;
    IdsOfContains(Subnodes(n), n, i);
  }

  lemma {:induction false} IdsOfContains(ss: seq<Node>, owner: Node, i: nat)
    requires forall c :: c in ss ==> (owner decreases to c)
    requires i < |ss|
    ensures Ids(ss[i]) <= IdsOf(ss, owner)
    decreases |ss|
  {
    assert ss[0] in ss && forall c :: c in ss[1..] ==> c in ss;
    if i > 0 {
      IdsOfContains(ss[1..], owner, i - 1);
    }
  }

  /** Two children of a well-numbered node at different positions share no id. */
  lemma Apart(n: Node, i: nat, j: nat)
    requires WellNumbered(n) && i < |Subnodes(n)| && j < |Subnodes(n)| && i != j
    ensures Subnodes(n)[i].id !in Ids(Subnodes(n)[j])
  {
    WellNumberedChildren(n);
    OwnIdIncluded(Subnodes(n)[i]);
    if i < j {
      assert Ids(Subnodes(n)[i]) !! Ids(Subnodes(n)[j]);
    } else {
      assert Ids(Subnodes(n)[j]) !! Ids(Subnodes(n)[i]);
    }
  }

  // ---------------------------------------------------------------------------
  // What one call of `bind` writes

  /** Binding child `c` of the current parent `node`: a frame within the ids below
      `node`, and `c` gets `node` as parent and the current flow. */
  lemma ChildStep(s: BState, node: Node, c: Node)
    requires Inside(s, node) && c in Subnodes(node) && WellNumbered(c) && c.id < node.id
    ensures var r := BindSpec(s, c);
      Framed(s, r, ChildIds(node)) && Framed(s, r, Ids(c)) && ParentIs(r, c, node)
      && c.id in r.t.flowOf && r.t.flowOf[c.id] == s.flow && Inside(r, node)
    decreases node, 0
  {
    ChildrenReady(node);
    BindFrame(s, c);
    ChildWithin(node, c);
    var r := BindSpec(s, c);
    Chain(s, r, r, Ids(c), {}, ChildIds(node));
  }

  /** The state in which `bind` runs the `switch` for `node`. */
  ghost function Entered(st: BState, node: Node): (r: BState)
    requires Ready(st, node)
    ensures Inside(r, node)
  {
    DeclareNode(Enter(st, node), node, st.scope)
  }

  lemma Unfold(st: BState, node: Node)
    requires Ready(st, node)
    ensures BindSpec(st, node).t == Dispatch(Entered(st, node), node).t
    ensures BindSpec(st, node).flow == Dispatch(Entered(st, node), node).flow
  {
  }

  /** Kinds without a `bind…` function of their own bind their children in order. */
  lemma DispatchPlain(st: BState, node: Node)
    requires Inside(st, node)
    requires !(node.IfStatement? || node.WhileStatement? || node.ForStatement? || node.ForInStatement?
               || node.FunctionDecl? || node.ReturnStatement? || node.Identifier?)
    ensures Dispatch(st, node) == BindListSpec(st, node, Children(node))
  {
  }

  /**
   * `bind(node)` decorates only the subtree of `node` and only appends flow nodes;
   * `node` gets the current parent and the current flow, and `locals` of a fresh,
   * empty scope exactly when it opens one.
   */
  lemma BindFrame(st: BState, node: Node)
    requires Ready(st, node)
    ensures var r := BindSpec(st, node);
      Framed(st, r, Ids(node))
      && node.id in r.t.flowOf && r.t.flowOf[node.id] == st.flow
      && (st.parent.Some? ==> ParentIs(r, node, st.parent.value))
      && (st.parent.None? ==> Agrees(st.t.parentOf, r.t.parentOf, node.id))
      && (CreatesScope(node, st.parent) ==> node.id in r.t.localsOf && r.t.localsOf[node.id] == |st.t.scopes|)
      && (!CreatesScope(node, st.parent) ==> Agrees(st.t.localsOf, r.t.localsOf, node.id))
    decreases node, 5
  {
    EnterStep(st, node);
    var s2 := DeclareNode(Enter(st, node), node, st.scope);
    var s3 := Dispatch(s2, node);
    assert BindSpec(st, node).t == s3.t;
    DispatchFrame(s2, node);
    assert node.id !in ChildIds(node);
    assert SameAt(s2, s3, node.id);
    Chain(st, s2, s3, {node.id}, ChildIds(node), Ids(node));
  }

  /** The first half of `bind`: `node`'s own decorations, and nothing else. */
  lemma EnterStep(st: BState, node: Node)
    requires Ready(st, node)
    ensures var s2 := DeclareNode(Enter(st, node), node, st.scope);
      Framed(st, s2, {node.id}) && Inside(s2, node)
      && node.id in s2.t.flowOf && s2.t.flowOf[node.id] == st.flow
      && (st.parent.Some? ==> ParentIs(s2, node, st.parent.value))
      && (st.parent.None? ==> Agrees(st.t.parentOf, s2.t.parentOf, node.id))
      && (CreatesScope(node, st.parent) ==> node.id in s2.t.localsOf && s2.t.localsOf[node.id] == |st.t.scopes|)
      && (!CreatesScope(node, st.parent) ==> Agrees(st.t.localsOf, s2.t.localsOf, node.id))
  {
    EnterFramed(st, node);
  }

  /** `Enter` (linking, and opening a scope where one is created) touches only `node`. */
  lemma EnterFramed(st: BState, node: Node)
    requires Ready(st, node)
    ensures Framed(st, Enter(st, node), {node.id})
  {
    var s0 := Link(st, node);
    LinkFramed(st, node);
    var s1 := Enter(st, node);
    if CreatesScope(node, st.parent) {
      assert s1 == OpenScope(s0, node);
      OpenScopeFramed(s0, node);
      Chain(st, s0, s1, {node.id}, {node.id}, {node.id});
    } else {
      assert s1 == s0;
    }
  }

  lemma LinkFramed(st: BState, node: Node)
    requires StateValid(st) && node.id != 0 && (st.parent.Some? ==> st.parent.value.id > node.id)
    ensures Framed(st, Link(st, node), {node.id})
  {
  }

  lemma OpenScopeFramed(st: BState, node: Node)
    requires StateValid(st) && node.id != 0
    ensures Framed(st, OpenScope(st, node), {node.id})
  {
    var r := OpenScope(st, node);
    forall k | k != node.id
      ensures SameAt(st, r, k)
    {
      assert r.t.localsOf == st.t.localsOf[node.id := |st.t.scopes|];
    }
  }

  /** The `switch` of `bind` decorates only below `node`. */
  lemma DispatchFrame(st: BState, node: Node)
    requires Inside(st, node)
    ensures Framed(st, Dispatch(st, node), ChildIds(node))
    decreases node, 4
  {
    if node.IfStatement? {
      IfFrame(st, node);
    } else if node.WhileStatement? {
      WhileFrame(st, node);
    } else if node.ForStatement? {
      ForFrame(st, node);
    } else if node.ForInStatement? {
      ForInFrame(st, node);
    } else if node.FunctionDecl? {
      FunctionFrame(st, node);
    } else if node.ReturnStatement? {
      ListFrame(st, node, Children(node));
      var s1 := BindListSpec(st, node, Children(node));
      FlowSteps(s1, FlowNode(Unreachable, Some(s1.flow), [], None));
      Chain(st, s1, BindReturnSpec(st, node), ChildIds(node), {}, ChildIds(node));
    } else if node.Identifier? {
    } else {
      ListFrame(st, node, Children(node));
    }
  }

  /** Binding children `cs` of `node` in order decorates only below `node`, and each
      of them gets `node` as its parent. */
  lemma {:induction false} ListFrame(st: BState, node: Node, cs: seq<Node>)
    requires Inside(st, node) && forall c :: c in cs ==> c in Subnodes(node)
    ensures Framed(st, BindListSpec(st, node, cs), ChildIds(node))
    decreases node, 1, |cs|
  {
    if cs != [] {
      ChildrenReady(node);
      var init := cs[..|cs| - 1];
      var last := cs[|cs| - 1];
      assert last in cs && forall c :: c in init ==> c in cs;
      ListFrame(st, node, init);
      var a := BindListSpec(st, node, init);
      ChildStep(a, node, last);
      assert BindListSpec(st, node, cs) == BindSpec(a, last);
      Chain(st, a, BindSpec(a, last), ChildIds(node), ChildIds(node), ChildIds(node));
    }
  }

  /** Each child bound by the list gets `node` as its parent. */
  lemma {:induction false} ListParents(st: BState, node: Node, cs: seq<Node>)
    requires Inside(st, node) && forall c :: c in cs ==> c in Subnodes(node)
    ensures forall c :: c in cs ==> ParentIs(BindListSpec(st, node, cs), c, node)
  {
    if cs != [] {
      ChildrenReady(node);
      var init := cs[..|cs| - 1];
      var last := cs[|cs| - 1];
      assert last in cs && forall c :: c in init ==> c in cs;
      ListParents(st, node, init);
      var a := BindListSpec(st, node, init);
      ChildStep(a, node, last);
      var r := BindSpec(a, last);
      assert BindListSpec(st, node, cs) == r;
      forall c | c in cs
        ensures ParentIs(r, c, node)
      {
        if c != last {
          assert c in init;
          SameChildApart(node, c, last);
          assert SameAt(a, r, c.id);
        }
      }
    }
  }

  /** Two different children of a well-numbered node share no id. */
  lemma SameChildApart(n: Node, a: Node, b: Node)
    requires WellNumbered(n) && a in Subnodes(n) && b in Subnodes(n) && a != b
    ensures a.id !in Ids(b)
  {
    var i :| 0 <= i < |Subnodes(n)| && Subnodes(n)[i] == a;
    var j :| 0 <= j < |Subnodes(n)| && Subnodes(n)[j] == b;
    Apart(n, i, j);
  }

  lemma IfFrame(st: BState, node: Node)
    requires Inside(st, node) && node.IfStatement?
    ensures Framed(st, BindIfSpec(st, node), ChildIds(node))
    decreases node, 3
  {
    var a := IfThenSpec(st, node);
    IfThenFrame(st, node);
    IfElseFrame(a, node);
    Chain(st, a, BindIfSpec(st, node), ChildIds(node), ChildIds(node), ChildIds(node));
  }

  lemma IfThenFrame(st: BState, node: Node)
    requires Inside(st, node) && node.IfStatement?
    ensures Framed(st, IfThenSpec(st, node), ChildIds(node))
    decreases node, 2
  {
    ChildrenReady(node);
    ChildStep(st, node, node.expression);
    var s1 := BindSpec(st, node.expression);
    var s2 := AddFlow(s1, Condition(TrueCondition, s1.flow, node.expression));
    FlowSteps(s1, Condition(TrueCondition, s1.flow, node.expression));
    ChildStep(s2, node, node.thenStatement);
    Chain(st, s1, s2, ChildIds(node), {}, ChildIds(node));
    Chain(st, s2, BindSpec(s2, node.thenStatement), ChildIds(node), ChildIds(node), ChildIds(node));
  }

  lemma IfElseFrame(st: BState, node: Node)
    requires Inside(st, node) && node.IfStatement?
    ensures Framed(st, IfElseSpec(st, node), ChildIds(node))
    decreases node, 2
  {
    ChildrenReady(node);
    var s4 := AddFlow(st, Condition(FalseCondition, st.flow, node.expression));
    FlowSteps(st, Condition(FalseCondition, st.flow, node.expression));
    var s5 := if node.elseStatement.Some? then BindSpec(s4, node.elseStatement.value) else s4;
    if node.elseStatement.Some? {
      ChildStep(s4, node, node.elseStatement.value);
    }
    Chain(st, s4, s5, ChildIds(node), ChildIds(node), ChildIds(node));
    FlowSteps(s5, MergeLabel(s5.t.flows, st.flow, s5.flow));
    Chain(st, s5, IfElseSpec(st, node), ChildIds(node), {}, ChildIds(node));
  }

  lemma WhileFrame(st: BState, node: Node)
    requires Inside(st, node) && node.WhileStatement?
    ensures Framed(st, BindWhileSpec(st, node), ChildIds(node))
    decreases node, 3
  {
    ChildrenReady(node);
    var loop := |st.t.flows|;
    var s1 := PushFlow(st, Label([st.flow]));
    FlowSteps(st, Label([st.flow]));
    ChildStep(s1, node, node.expression);
    var s2 := BindSpec(s1, node.expression);
    Chain(st, s1, s2, {}, ChildIds(node), ChildIds(node));
    var s3 := AddFlow(s2, Condition(TrueCondition, s2.flow, node.expression));
    FlowSteps(s2, Condition(TrueCondition, s2.flow, node.expression));
    ChildStep(s3, node, node.statement);
    var s4 := BindSpec(s3, node.statement);
    Chain(st, s2, s3, ChildIds(node), {}, ChildIds(node));
    Chain(st, s3, s4, ChildIds(node), ChildIds(node), ChildIds(node));
    AntecedentFramed(st, s4, loop, ChildIds(node));
    var s5 := AddAntecedent(s4, loop);
    FlowSteps(s5, Condition(FalseCondition, loop, node.expression));
    Chain(st, s5, BindWhileSpec(st, node), ChildIds(node), {}, ChildIds(node));
  }

  lemma ForFrame(st: BState, node: Node)
    requires Inside(st, node) && node.ForStatement?
    ensures Framed(st, BindForSpec(st, node), ChildIds(node))
    decreases node, 3
  {
    ChildrenReady(node);
    var s1 := if node.initializer.Some? then BindSpec(st, node.initializer.value) else st;
    if node.initializer.Some? {
      ChildStep(st, node, node.initializer.value);
    }
    var s2 := AddFlow(s1, Label([s1.flow]));
    FlowSteps(s1, Label([s1.flow]));
    Chain(st, s1, s2, ChildIds(node), {}, ChildIds(node));
    var s3 := if node.condition.Some? then BindSpec(s2, node.condition.value) else s2;
    if node.condition.Some? {
      ChildStep(s2, node, node.condition.value);
    }
    Chain(st, s2, s3, ChildIds(node), ChildIds(node), ChildIds(node));
    var s4 := AddFlow(s3, Condition(TrueCondition, s3.flow, ConditionOrSelf(node)));
    FlowSteps(s3, Condition(TrueCondition, s3.flow, ConditionOrSelf(node)));
    Chain(st, s3, s4, ChildIds(node), {}, ChildIds(node));
    ForRestFrame(st, s4, node, |s1.t.flows|);
  }

  lemma ForRestFrame(base: BState, st: BState, node: Node, loop: nat)
    requires Framed(base, st, ChildIds(node)) && Inside(st, node) && node.ForStatement?
    requires |base.t.flows| <= loop < |st.t.flows|
    ensures Framed(base, ForRestSpec(st, node, loop), ChildIds(node))
    decreases node, 2
  {
    ChildrenReady(node);
    ChildStep(st, node, node.statement);
    var s5 := BindSpec(st, node.statement);
    var s6 := if node.incrementor.Some? then BindSpec(s5, node.incrementor.value) else s5;
    if node.incrementor.Some? {
      ChildStep(s5, node, node.incrementor.value);
    }
    Chain(base, st, s5, ChildIds(node), ChildIds(node), ChildIds(node));
    Chain(base, s5, s6, ChildIds(node), ChildIds(node), ChildIds(node));
    AntecedentFramed(base, s6, loop, ChildIds(node));
    var s7 := AddAntecedent(s6, loop);
    FlowSteps(s7, Condition(FalseCondition, loop, ConditionOrSelf(node)));
    Chain(base, s7, ForRestSpec(st, node, loop), ChildIds(node), {}, ChildIds(node));
  }

  lemma ForInFrame(st: BState, node: Node)
    requires Inside(st, node) && node.ForInStatement?
    ensures Framed(st, BindForInSpec(st, node), ChildIds(node))
    decreases node, 3
  {
    ChildrenReady(node);
    ChildStep(st, node, node.expression);
    var s1 := BindSpec(st, node.expression);
    var s2 := AddFlow(s1, Label([s1.flow]));
    FlowSteps(s1, Label([s1.flow]));
    Chain(st, s1, s2, ChildIds(node), {}, ChildIds(node));
    ForInRestFrame(st, s2, node, |s1.t.flows|);
  }

  lemma ForInRestFrame(base: BState, st: BState, node: Node, loop: nat)
    requires Framed(base, st, ChildIds(node)) && Inside(st, node) && node.ForInStatement?
    requires |base.t.flows| <= loop < |st.t.flows|
    ensures Framed(base, ForInRestSpec(st, node, loop), ChildIds(node))
    decreases node, 2
  {
    ChildrenReady(node);
    ChildStep(st, node, node.declaration);
    var s3 := BindSpec(st, node.declaration);
    var s4 := AddFlow(s3, Condition(TrueCondition, s3.flow, node.expression));
    FlowSteps(s3, Condition(TrueCondition, s3.flow, node.expression));
    ChildStep(s4, node, node.statement);
    var s5 := BindSpec(s4, node.statement);
    Chain(base, st, s3, ChildIds(node), ChildIds(node), ChildIds(node));
    Chain(base, s3, s4, ChildIds(node), {}, ChildIds(node));
    Chain(base, s4, s5, ChildIds(node), ChildIds(node), ChildIds(node));
    AntecedentFramed(base, s5, loop, ChildIds(node));
    var s6 := AddAntecedent(s5, loop);
    FlowSteps(s6, Condition(FalseCondition, loop, node.expression));
    Chain(base, s6, ForInRestSpec(st, node, loop), ChildIds(node), {}, ChildIds(node));
  }

  lemma FunctionFrame(st: BState, node: Node)
    requires Inside(st, node) && node.FunctionDecl?
    ensures Framed(st, BindFunctionSpec(st, node), ChildIds(node))
    decreases node, 3
  {
    ChildrenReady(node);
    assert node.name in Subnodes(node) && forall c :: c in node.parameters ==> c in Subnodes(node);
    ChildStep(st, node, node.name);
    var s1 := BindSpec(st, node.name);
    ListFrame(s1, node, node.parameters);
    var s2 := BindListSpec(s1, node, node.parameters);
    Chain(st, s1, s2, ChildIds(node), ChildIds(node), ChildIds(node));
    var s3 := AddFlow(s2, StartFlow);
    FlowSteps(s2, StartFlow);
    ChildStep(s3, node, node.body);
    Chain(st, s2, s3, ChildIds(node), {}, ChildIds(node));
    Chain(st, s3, BindSpec(s3, node.body), ChildIds(node), ChildIds(node), ChildIds(node));
  }

  // ---------------------------------------------------------------------------
  // Parents and scopes

  /**
   * After `bind(node)` under `parent`, `node`'s parent is `parent` and each child
   * that `forEachChild(node, bind)` reaches has `node` as its parent (as the binder's tests check it: a statement's parent is the file, a
   * declaration's its statement).
   */
  lemma ChildrenHaveParent(st: BState, node: Node)
    requires Ready(st, node)
    requires !(node.IfStatement? || node.WhileStatement? || node.ForStatement? || node.ForInStatement?
               || node.FunctionDecl? || node.Identifier?)
    ensures var r := BindSpec(st, node);
      (st.parent.Some? ==> ParentIs(r, node, st.parent.value))
      && forall c :: c in Children(node) ==> ParentIs(r, c, node)
  {
    BindFrame(st, node);
    Unfold(st, node);
    var s2 := Entered(st, node);
    ListParents(s2, node, Children(node));
    var s3 := BindListSpec(s2, node, Children(node));
    if node.ReturnStatement? {
      assert Dispatch(s2, node) == AddFlow(s3, FlowNode(Unreachable, Some(s3.flow), [], None));
    } else {
      DispatchPlain(s2, node);
    }
  }

  /**
   * A node opens a scope of its own exactly when it is a function, a `for`, a
   * `for-in`, or a block that is not a function's body; the scope is fresh and
   * empty. A function body therefore shares the function's scope with the
   * parameters.
   */
  lemma ScopeCreation(st: BState, node: Node)
    requires Ready(st, node) && node.id !in st.t.localsOf
    ensures var r := BindSpec(st, node);
      (node.id in r.t.localsOf <==>
        (node.FunctionDecl? || node.ForStatement? || node.ForInStatement?
         || (node.Block? && !(st.parent.Some? && st.parent.value.FunctionDecl?))))
      && (node.id in r.t.localsOf ==>
            r.t.localsOf[node.id] == |st.t.scopes| && Enter(st, node).t.scopes[|st.t.scopes|] == EmptyScope)
  {
    BindFrame(st, node);
  }

  /**
   * `declareSymbolInScope`: a name new to the scope gets a fresh symbol (distinct
   * from every existing one, so an inner declaration never reuses an outer
   * symbol); a name already there keeps its symbol, whose declarations grow by the
   * new one at the end. Other names and other scopes are untouched.
   */
  lemma DeclareInFacts(st: BState, scope: nat, name: string, declaration: Node)
    requires StateValid(st) && scope < |st.t.scopes|
    ensures var r := DeclareIn(st, scope, name, declaration);
      name in r.t.scopes[scope].table
      && Decls(r.t, scope, name) == Decls(st.t, scope, name) + [declaration]
      && r.t.symbols[r.t.scopes[scope].table[name]].name == name
      && (name in st.t.scopes[scope].table ==>
            r.t.scopes[scope] == st.t.scopes[scope] && |r.t.symbols| == |st.t.symbols|)
      && (name !in st.t.scopes[scope].table ==>
            r.t.scopes[scope].table[name] == |st.t.symbols| && |r.t.symbols| == |st.t.symbols| + 1)
      && (forall other :: other != name ==> r.t.scopes[scope].Get(other) == st.t.scopes[scope].Get(other))
      && (forall i :: 0 <= i < |st.t.scopes| && i != scope ==> r.t.scopes[i] == st.t.scopes[i])
  {
  }

  /**
   * Where `bind` declares: a variable or parameter declaration in the current
   * (innermost) scope, a function in the scope around it, not in the scope the
   * function itself opens. Either way the declaration is appended to the
   * declarations of the scope's symbol for its name.
   */
  lemma DeclarationsLand(st: BState, node: Node)
    requires StateValid(st) && node.id != 0 && (st.parent.Some? ==> st.parent.value.id > node.id)
    requires node.VariableDeclaration? || node.ParameterDecl? || node.FunctionDecl?
    ensures var s1 := Enter(st, node); var s2 := DeclareNode(s1, node, st.scope);
      st.scope < |s1.t.scopes|
      && Decls(s2.t, st.scope, TextOf(node.name)) == Decls(s1.t, st.scope, TextOf(node.name)) + [node]
      && (node.FunctionDecl? ==> s1.scope != st.scope && s2.t.scopes[s1.scope] == EmptyScope)
  {
    var s1 := Enter(st, node);
    if node.FunctionDecl? {
      DeclareInFacts(s1, st.scope, TextOf(node.name), node);
    } else {
      assert s1.scope == st.scope;
      DeclareInFacts(s1, s1.scope, TextOf(node.name), node);
    }
  }

  /**
   * `resolveSymbol`: when some scope on the way up (or the file's scope) has the
   * identifier's text, the identifier records that symbol, which is marked
   * referenced; otherwise nothing changes and nothing fails.
   */
  lemma ResolveFacts(st: BState, id: Node)
    requires StateValid(st) && id.id != 0
    ensures var r := Resolve(st, id); var found := Resolution(st.t, id, st.fileLocals);
      (found.None? ==> r == st)
      && (found.Some? ==>
            r.t.symbolOf == st.t.symbolOf[id.id := found.value]
            && r.t.symbols[found.value].isReferenced
            && r.t.symbols[found.value].name == TextOf(id)
            && r.t.symbols[found.value].declarations == st.t.symbols[found.value].declarations
            && |r.t.symbols| == |st.t.symbols|
            && forall s :: 0 <= s < |st.t.symbols| && s != found.value ==> r.t.symbols[s] == st.t.symbols[s])
  {
  }

  /** An identifier used as a value is resolved; a declaration's own name is not. */
  lemma IdentifierBinding(st: BState, node: Node)
    requires Inside(st, node) && node.Identifier?
    ensures IsDeclarationName(node, st.t.Parent(node)) ==> BindIdentifierSpec(st, node) == st
    ensures !IsDeclarationName(node, st.t.Parent(node)) ==> BindIdentifierSpec(st, node) == Resolve(st, node)
  {
  }

  // ---------------------------------------------------------------------------
  // Flow

  /** In a list of children bound in order, a child's `flowNode` is the flow
      current after binding the ones before it. */
  lemma {:induction false} ListFlowAt(st: BState, node: Node, cs: seq<Node>, i: nat)
    requires Inside(st, node) && forall c :: c in cs ==> c in Subnodes(node)
    requires i < |cs| && forall j :: 0 <= j < |cs| && j != i ==> cs[j] != cs[i]
    ensures var r := BindListSpec(st, node, cs);
      cs[i].id in r.t.flowOf && r.t.flowOf[cs[i].id] == BindListSpec(st, node, cs[..i]).flow
    decreases |cs|, 1
  {
    if i < |cs| - 1 {
      ListFlowBefore(st, node, cs, i);
    } else {
      assert cs[..i] == cs[..|cs| - 1];
      LastStep(st, node, cs, cs[i]);
    }
  }

  /** `ListFlowAt` for a child before the last one: binding the last keeps its flow. */
  lemma {:induction false} ListFlowBefore(st: BState, node: Node, cs: seq<Node>, i: nat)
    requires Inside(st, node) && forall c :: c in cs ==> c in Subnodes(node)
    requires i < |cs| - 1 && forall j :: 0 <= j < |cs| && j != i ==> cs[j] != cs[i]
    ensures var r := BindListSpec(st, node, cs);
      cs[i].id in r.t.flowOf && r.t.flowOf[cs[i].id] == BindListSpec(st, node, cs[..i]).flow
    decreases |cs|, 0
  {
    var init := cs[..|cs| - 1];
    assert forall c :: c in init ==> c in cs;
    PrefixOfPrefix(cs, |cs| - 1, i);
    assert cs[i] == init[i] && cs[..i] == init[..i];
    assert forall j :: 0 <= j < |init| && j != i ==> init[j] != init[i] by {
      forall j | 0 <= j < |init| && j != i
        ensures init[j] != init[i]
      {
        assert init[j] == cs[j];
      }
    }
    ListFlowAt(st, node, init, i);
    LastStep(st, node, cs, cs[i]);
  }

  /** Binding the last child of a list: it gets the flow current before it, and
      another child `c` keeps its decorations. */
  lemma LastStep(st: BState, node: Node, cs: seq<Node>, c: Node)
    requires Inside(st, node) && forall c :: c in cs ==> c in Subnodes(node)
    requires cs != [] && c in Subnodes(node)
    ensures var init := cs[..|cs| - 1]; var a := BindListSpec(st, node, init); var r := BindListSpec(st, node, cs);
      (c != cs[|cs| - 1] ==> SameAt(a, r, c.id))
      && (c == cs[|cs| - 1] ==> c.id in r.t.flowOf && r.t.flowOf[c.id] == a.flow && ParentIs(r, c, node))
  {
    ChildrenReady(node);
    var init := cs[..|cs| - 1];
    var last := cs[|cs| - 1];
    assert last in cs && forall c :: c in init ==> c in cs;
    var a := BindListSpec(st, node, init);
    ChildStep(a, node, last);
    assert BindListSpec(st, node, cs) == BindSpec(a, last);
    if c != last {
      SameChildApart(node, c, last);
    }
  }

  /** The children of a well-numbered node are pairwise different values. */
  lemma ChildrenDistinct(node: Node)
    requires WellNumbered(node)
    ensures forall i, j :: 0 <= i < |Children(node)| && 0 <= j < |Children(node)| && i != j ==>
      Children(node)[i] != Children(node)[j]
  {
    forall i, j | 0 <= i < |Children(node)| && 0 <= j < |Children(node)| && i != j
      ensures Children(node)[i] != Children(node)[j]
    {
      Apart(node, i, j);
      OwnIdIncluded(Subnodes(node)[i]);
    }
  }

  /** After `return`, the current flow is a fresh node flagged `Unreachable` whose
      antecedent is the flow before it. */
  lemma ReturnExit(st: BState, node: Node)
    requires Ready(st, node) && node.ReturnStatement?
    ensures var r := BindSpec(st, node);
      r.flow == |r.t.flows| - 1 && r.t.flows[r.flow].flags == Unreachable
      && r.t.flows[r.flow].antecedent.Some?
  {
    Unfold(st, node);
    var s2 := Entered(st, node);
    var s3 := BindListSpec(s2, node, Children(node));
    assert Dispatch(s2, node) == AddFlow(s3, FlowNode(Unreachable, Some(s3.flow), [], None));
  }

  /** The children of a block or a file are its statements. */
  lemma StatementsAreChildren(node: Node)
    requires node.Block? || node.SourceFile?
    ensures Subnodes(node) == node.statements && Children(node) == node.statements
  {
  }

  /** The flow a block leaves behind is the one its last statement leaves behind. */
  lemma BlockExit(st: BState, node: Node)
    requires Ready(st, node) && (node.Block? || node.SourceFile?) && node.statements != []
    ensures Subnodes(node) == node.statements
    ensures var cs := node.statements; var a := BindListSpec(Entered(st, node), node, cs[..|cs| - 1]);
      Ready(a, cs[|cs| - 1])
      && BindSpec(st, node).flow == BindSpec(a, cs[|cs| - 1]).flow
      && BindSpec(st, node).t == BindSpec(a, cs[|cs| - 1]).t
  {
    var s2 := Entered(st, node);
    var cs := node.statements;
    Unfold(st, node);
    DispatchPlain(s2, node);
    StatementsAreChildren(node);
    BindListStep(s2, node, cs, |cs| - 1);
    WholePrefix(cs);
  }

  /** A block whose last statement is a `return` leaves an unreachable flow. */
  lemma BlockEndingInReturn(st: BState, node: Node)
    requires Ready(st, node) && node.Block? && node.statements != []
    requires node.statements[|node.statements| - 1].ReturnStatement?
    ensures var r := BindSpec(st, node); Has(r.t.flows[r.flow].flags, Unreachable)
  {
    var s2 := Entered(st, node);
    var cs := node.statements;
    ChildrenReady(node);
    StatementsAreChildren(node);
    BlockExit(st, node);
    assert cs[|cs| - 1] in cs && forall c :: c in cs[..|cs| - 1] ==> c in cs;
    var a := BindListSpec(s2, node, cs[..|cs| - 1]);
    ReturnExit(a, cs[|cs| - 1]);
  }

  /**
   * In a block, a statement that follows a `return` gets a `flowNode` flagged
   * `Unreachable`, as the binder's tests check for the statements after a `while`
   * whose body returns.
   */
  lemma StatementAfterReturnUnreachable(st: BState, node: Node, i: nat)
    requires Ready(st, node) && (node.Block? || node.SourceFile?) && i + 1 < |node.statements|
    requires node.statements[i].ReturnStatement?
    ensures var r := BindSpec(st, node); var next := node.statements[i + 1];
      next.id in r.t.flowOf && Has(r.t.flows[r.t.flowOf[next.id]].flags, Unreachable)
  {
    var s2 := Entered(st, node);
    ChildrenDistinct(node);
    StatementsAreChildren(node);
    Unfold(st, node);
    DispatchPlain(s2, node);
    ListAfterReturn(s2, node, node.statements, i);
  }

  /** The same, for any list of children bound in order. */
  lemma ListAfterReturn(st: BState, node: Node, cs: seq<Node>, i: nat)
    requires Inside(st, node) && forall c :: c in cs ==> c in Subnodes(node)
    requires i + 1 < |cs| && forall j :: 0 <= j < |cs| && j != i + 1 ==> cs[j] != cs[i + 1]
    requires cs[i].ReturnStatement?
    ensures var r := BindListSpec(st, node, cs);
      cs[i + 1].id in r.t.flowOf && Has(r.t.flows[r.t.flowOf[cs[i + 1].id]].flags, Unreachable)
  {
    ListFlowAt(st, node, cs, i + 1);
    ListReturnMid(st, node, cs, i);
    ListPrefix(st, node, cs, i + 1);
  }

  /** After binding the children up to a `return`, the current flow is unreachable. */
  lemma ListReturnMid(st: BState, node: Node, cs: seq<Node>, i: nat)
    requires Inside(st, node) && forall c :: c in cs ==> c in Subnodes(node)
    requires i < |cs| && cs[i].ReturnStatement?
    ensures var mid := BindListSpec(st, node, cs[..i + 1]);
      mid.t.flows[mid.flow].flags == Unreachable
  {
    BindListStep(st, node, cs, i);
    ReturnExit(BindListSpec(st, node, cs[..i]), cs[i]);
  }

  /** Binding more of the list only appends flow nodes to those of a prefix. */
  lemma ListPrefix(st: BState, node: Node, cs: seq<Node>, k: nat)
    requires Inside(st, node) && forall c :: c in cs ==> c in Subnodes(node)
    requires k <= |cs|
    ensures BindListSpec(st, node, cs[..k]).t.flows <= BindListSpec(st, node, cs).t.flows
    decreases |cs| - k
  {
    if k < |cs| {
      ListPrefix(st, node, cs, k + 1);
      BindListStep(st, node, cs, k);
      ChildrenReady(node);
      ChildStep(BindListSpec(st, node, cs[..k]), node, cs[k]);
    } else {
      WholePrefix(cs);
    }
  }

  /**
   * The merge label of an `if` is flagged `Unreachable` exactly when both arms
   * exit with unreachable flows; when both arms are blocks ending in `return`,
   * the flow after the `if` is unreachable, as the binder's tests check for the
   * statements after such an `if`.
   */
  lemma IfMerge(st: BState, node: Node)
    requires Ready(st, node) && node.IfStatement?
    requires forall c :: c in Subnodes(node) ==> WellNumbered(c) && c.id < node.id
    ensures var r := BindSpec(st, node); var a := Entered(st, node);
      var thenExit := IfThenSpec(a, node);
      var s4 := AddFlow(thenExit, Condition(FalseCondition, thenExit.flow, node.expression));
      var elseExit := if node.elseStatement.Some? then BindSpec(s4, node.elseStatement.value) else s4;
      r.t.flows[r.flow].antecedents == [thenExit.flow, elseExit.flow]
      && Has(r.t.flows[r.flow].flags, BranchLabel)
      && (Has(r.t.flows[r.flow].flags, Unreachable)
          <==> Has(elseExit.t.flows[thenExit.flow].flags, Unreachable)
               && Has(elseExit.t.flows[elseExit.flow].flags, Unreachable))
  {
    Unfold(st, node);
    assert Dispatch(Entered(st, node), node) == BindIfSpec(Entered(st, node), node);
  }

  /**
   * When both arms of an `if` are blocks ending in `return`, the flow after the
   * `if` is unreachable, as the binder's tests check for the statements after it.
   */
  lemma BothArmsReturn(st: BState, node: Node)
    requires Ready(st, node) && node.IfStatement? && node.elseStatement.Some?
    requires EndsInReturn(node.thenStatement) && EndsInReturn(node.elseStatement.value)
    ensures var r := BindSpec(st, node); Has(r.t.flows[r.flow].flags, Unreachable)
  {
    ChildrenReady(node);
    var a := Entered(st, node);
    ThenArmReturns(a, node);
    var thenExit := IfThenSpec(a, node);
    ElseArmReturns(thenExit, node);
    IfMerge(st, node);
  }

  /** A block whose last statement is a `return`. */
  predicate EndsInReturn(n: Node) {
    n.Block? && n.statements != [] && n.statements[|n.statements| - 1].ReturnStatement?
  }

  lemma ThenArmReturns(a: BState, node: Node)
    requires Inside(a, node) && node.IfStatement? && EndsInReturn(node.thenStatement)
    ensures var r := IfThenSpec(a, node); Has(r.t.flows[r.flow].flags, Unreachable)
  {
    ChildrenReady(node);
    var s1 := BindSpec(a, node.expression);
    var s2 := AddFlow(s1, Condition(TrueCondition, s1.flow, node.expression));
    BlockEndingInReturn(s2, node.thenStatement);
  }

  lemma ElseArmReturns(thenExit: BState, node: Node)
    requires Inside(thenExit, node) && node.IfStatement? && node.elseStatement.Some?
    requires EndsInReturn(node.elseStatement.value)
    requires Has(thenExit.t.flows[thenExit.flow].flags, Unreachable)
    requires forall c :: c in Subnodes(node) ==> WellNumbered(c) && c.id < node.id
    ensures var s4 := AddFlow(thenExit, Condition(FalseCondition, thenExit.flow, node.expression));
      var elseExit := BindSpec(s4, node.elseStatement.value);
      Has(elseExit.t.flows[thenExit.flow].flags, Unreachable) && Has(elseExit.t.flows[elseExit.flow].flags, Unreachable)
  {
    ChildrenReady(node);
    var s4 := AddFlow(thenExit, Condition(FalseCondition, thenExit.flow, node.expression));
    BlockEndingInReturn(s4, node.elseStatement.value);
    ChildStep(s4, node, node.elseStatement.value);
  }

  /** A `while` loop up to the end of its body: label, condition, `TrueCondition`, body. */
  ghost function WhileBody(st: BState, node: Node): (r: BState)
    requires Inside(st, node) && node.WhileStatement?
    ensures Kept(st, r) && |st.t.flows| < |r.t.flows|
  {
    ChildrenReady(node);
    var s1 := PushFlow(st, Label([st.flow]));
    var s2 := BindSpec(s1, node.expression);
    var s3 := AddFlow(s2, Condition(TrueCondition, s2.flow, node.expression));
    BindSpec(s3, node.statement)
  }

  /** During the body the label still has only the flow before the loop, and the
      body is entered through a `TrueCondition`. */
  lemma WhileBodyFacts(st: BState, node: Node)
    requires Inside(st, node) && node.WhileStatement?
    ensures var b := WhileBody(st, node); var loop := |st.t.flows|;
      b.t.flows[loop] == Label([st.flow])
      && node.statement.id in b.t.flowOf && loop < b.t.flowOf[node.statement.id] < |b.t.flows|
      && b.t.flows[b.t.flowOf[node.statement.id]].flags == TrueCondition
  {
    ChildrenReady(node);
    var s1 := PushFlow(st, Label([st.flow]));
    ChildStep(s1, node, node.expression);
    var s2 := BindSpec(s1, node.expression);
    var s3 := AddFlow(s2, Condition(TrueCondition, s2.flow, node.expression));
    ChildStep(s3, node, node.statement);
  }

  /**
   * `while`: the loop label is the flow node made first, a `BranchLabel` (not a
   * `LoopLabel`) whose antecedents are the flow before the loop and the flow at
   * the end of the body; the body is entered through a `TrueCondition` (as the
   * binder's tests check for a `while` statement), and the flow after the loop is a `FalseCondition` on the
   * loop's condition whose antecedent is the label.
   */
  lemma WhileShape(st: BState, node: Node)
    requires Inside(st, node) && node.WhileStatement?
    ensures var r := BindWhileSpec(st, node); var loop := |st.t.flows|;
      r.t.flows[loop] == Label([st.flow, WhileBody(st, node).flow])
      && r.t.flows[r.flow] == FlowNode(FalseCondition, Some(loop), [], Some(node.expression))
      && node.statement.id in r.t.flowOf && r.t.flows[r.t.flowOf[node.statement.id]].flags == TrueCondition
  {
    WhileLabel(st, node);
    WhileBodyFacts(st, node);
    WhileExit(st, node);
  }

  /** The `while` label after the loop: the flow before it and the flow at the end of the body. */
  lemma WhileLabel(st: BState, node: Node)
    requires Inside(st, node) && node.WhileStatement?
    ensures var loop := |st.t.flows|;
      BindWhileSpec(st, node).t.flows[loop] == Label([st.flow, WhileBody(st, node).flow])
  {
    var b := WhileBody(st, node);
    WhileBodyFacts(st, node);
    WhileExit(st, node);
    Pair(st.flow, b.flow);
  }

  /** The end of a `while`, in terms of the state after its body. */
  lemma WhileExit(st: BState, node: Node)
    requires Inside(st, node) && node.WhileStatement?
    ensures var r := BindWhileSpec(st, node); var b := WhileBody(st, node); var loop := |st.t.flows|;
      r.t.flows[loop] == b.t.flows[loop].(antecedents := b.t.flows[loop].antecedents + [b.flow])
      && r.t.flows[r.flow] == FlowNode(FalseCondition, Some(loop), [], Some(node.expression))
      && r.t.flowOf == b.t.flowOf
      && forall k :: 0 <= k < |b.t.flows| && k != loop ==> r.t.flows[k] == b.t.flows[k]
  {
    var b := WhileBody(st, node);
    var loop := |st.t.flows|;
    assert BindWhileSpec(st, node) == AddFlow(AddAntecedent(b, loop), Condition(FalseCondition, loop, node.expression));
    LoopExit(b, loop, node.expression);
  }

  /** Leaving a loop: the current flow joins label `loop`, and a `FalseCondition`
      on `condition` from the label becomes current; nothing else changes. */
  lemma LoopExit(b: BState, loop: nat, condition: Node)
    requires StateValid(b) && loop < |b.t.flows|
    ensures var r := AddFlow(AddAntecedent(b, loop), Condition(FalseCondition, loop, condition));
      r.t.flows[loop] == b.t.flows[loop].(antecedents := b.t.flows[loop].antecedents + [b.flow])
      && r.t.flows[r.flow] == FlowNode(FalseCondition, Some(loop), [], Some(condition))
      && r.t.flowOf == b.t.flowOf && r.t.parentOf == b.t.parentOf && r.t.localsOf == b.t.localsOf
      && forall k :: 0 <= k < |b.t.flows| && k != loop ==> r.t.flows[k] == b.t.flows[k]
  {
  }

  /** A `for` loop up to its label: the initializer, then the label. */
  ghost function ForHead(st: BState, node: Node): (r: BState)
    requires Inside(st, node) && node.ForStatement?
    ensures Kept(st, r)
  {
    ChildrenReady(node);
    if node.initializer.Some? then BindSpec(st, node.initializer.value) else st
  }

  /**
   * `for`: the label made after the initializer is a `BranchLabel` whose first
   * antecedent is the flow after the initializer and whose second is the flow
   * after the incrementor; the flow after the loop is a `FalseCondition` on the
   * condition (or the loop itself) whose antecedent is the label.
   */
  lemma ForShape(st: BState, node: Node)
    requires Inside(st, node) && node.ForStatement?
    ensures var r := BindForSpec(st, node); var h := ForHead(st, node); var loop := |h.t.flows|;
      r.t.flows[loop].flags == BranchLabel && |r.t.flows[loop].antecedents| == 2
      && r.t.flows[loop].antecedents[0] == h.flow
      && r.t.flows[r.flow] == FlowNode(FalseCondition, Some(loop), [], Some(ConditionOrSelf(node)))
  {
    ForSplit(st, node);
    ForAfterEntry(st, node);
  }

  /** `ForShape` for the part after the label. */
  lemma ForAfterEntry(st: BState, node: Node)
    requires Inside(st, node) && node.ForStatement?
    ensures var h := ForHead(st, node); var loop := |h.t.flows|; var r := ForRestSpec(ForEntry(st, node), node, loop);
      r.t.flows[loop].flags == BranchLabel && |r.t.flows[loop].antecedents| == 2
      && r.t.flows[loop].antecedents[0] == h.flow
      && r.t.flows[r.flow] == FlowNode(FalseCondition, Some(loop), [], Some(ConditionOrSelf(node)))
  {
    ForEntryFacts(st, node);
    ForRestShape(ForEntry(st, node), node, |ForHead(st, node).t.flows|);
  }

  /** A `for` loop up to its body: initializer, label, condition, `TrueCondition`. */
  ghost function ForEntry(st: BState, node: Node): (r: BState)
    requires Inside(st, node) && node.ForStatement?
    ensures Kept(st, r) && |ForHead(st, node).t.flows| < |r.t.flows|
  {
    ChildrenReady(node);
    var s1 := ForHead(st, node);
    var s2 := AddFlow(s1, Label([s1.flow]));
    var s3 := if node.condition.Some? then BindSpec(s2, node.condition.value) else s2;
    AddFlow(s3, Condition(TrueCondition, s3.flow, ConditionOrSelf(node)))
  }

  lemma ForSplit(st: BState, node: Node)
    requires Inside(st, node) && node.ForStatement?
    ensures BindForSpec(st, node) == ForRestSpec(ForEntry(st, node), node, |ForHead(st, node).t.flows|)
  {
  }

  lemma ForEntryFacts(st: BState, node: Node)
    requires Inside(st, node) && node.ForStatement?
    ensures var h := ForHead(st, node); ForEntry(st, node).t.flows[|h.t.flows|] == Label([h.flow])
  {
    ChildrenReady(node);
    var s1 := ForHead(st, node);
    var s2 := AddFlow(s1, Label([s1.flow]));
    if node.condition.Some? {
      ChildStep(s2, node, node.condition.value);
    }
  }

  /** The rest of a `for`: body and incrementor, then the exit from label `loop`. */
  lemma ForRestShape(st: BState, node: Node, loop: nat)
    requires Inside(st, node) && node.ForStatement? && loop < |st.t.flows|
    requires st.t.flows[loop].flags == BranchLabel && |st.t.flows[loop].antecedents| == 1
    ensures var r := ForRestSpec(st, node, loop);
      r.t.flows[loop].flags == BranchLabel && |r.t.flows[loop].antecedents| == 2
      && r.t.flows[loop].antecedents[0] == st.t.flows[loop].antecedents[0]
      && r.t.flows[r.flow] == FlowNode(FalseCondition, Some(loop), [], Some(ConditionOrSelf(node)))
  {
    ChildrenReady(node);
    ChildStep(st, node, node.statement);
    var s5 := BindSpec(st, node.statement);
    var s6 := if node.incrementor.Some? then BindSpec(s5, node.incrementor.value) else s5;
    if node.incrementor.Some? {
      ChildStep(s5, node, node.incrementor.value);
    }
    assert s6.t.flows[loop] == st.t.flows[loop];
    assert ForRestSpec(st, node, loop) == AddFlow(AddAntecedent(s6, loop), Condition(FalseCondition, loop, ConditionOrSelf(node)));
    LoopExit(s6, loop, ConditionOrSelf(node));
  }

  /**
   * A function body is bound from a fresh `Start` flow, and the flow around the
   * function is restored afterwards.
   */
  lemma FunctionBodyFlow(st: BState, node: Node)
    requires Inside(st, node) && node.FunctionDecl?
    ensures var r := FunctionBodySpec(st, node);
      r.flow == st.flow
      && node.body.id in r.t.flowOf && r.t.flows[r.t.flowOf[node.body.id]] == StartFlow
  {
    ChildrenReady(node);
    var s1 := AddFlow(st, StartFlow);
    ChildStep(s1, node, node.body);
  }

  /** The initial state: `file.locals` is the root scope, empty, and the flow is `Start`. */
  lemma InitialState(file: Node)
    requires WellNumbered(file)
    ensures var st := Initial(file);
      Ready(st, file) && st.t.flows[st.flow] == StartFlow
      && st.t.localsOf[file.id] == st.fileLocals && st.t.scopes[st.fileLocals] == EmptyScope
  {
  }

  /** A file's first statement gets the `Start` flow (as the binder's tests check for statement nodes). */
  lemma FirstStatementStarts(file: Node)
    requires WellNumbered(file) && file.SourceFile? && file.statements != []
    ensures var r := BindSpec(Initial(file), file); var first := file.statements[0];
      first.id in r.t.flowOf && r.t.flows[r.t.flowOf[first.id]] == StartFlow
  {
    var st := Initial(file);
    var s2 := Entered(st, file);
    var cs := file.statements;
    ChildrenDistinct(file);
    StatementsAreChildren(file);
    ListFlowAt(s2, file, cs, 0);
    assert cs[..0] == [];
    assert BindListSpec(s2, file, cs[..0]).flow == 0;
    Unfold(st, file);
    DispatchPlain(s2, file);
    BindFrame(st, file);
  }
}
