/**
 * The binder (src/binder.ts): one depth-first walk that records each node's
 * `parent`, `flowNode` and `locals`, declares symbols into scopes, resolves
 * identifiers, and builds the control-flow graph; plus `forEachChild`, the
 * read-only child enumerator the dead-code pass reuses.
 */
module Binder {
  import opened FlowFlags
  import opened Ast
  import opened Seqs

  // ---------------------------------------------------------------------------
  // forEachChild

  /** The children `forEachChild` passes to its callback, in order. It has no case
      for parameter declarations, so a parameter's name is never among them. */
  function Children(n: Node): (r: seq<Node>)
    ensures forall c :: c in r ==> c in Subnodes(n)
  {
    if n.ParameterDecl? then [] else Subnodes(n)
  }

  /** `a || b` on callback results: the first truthy one. */
  function Or<T>(a: Option<T>, b: Option<T>): Option<T> {
    if a.Some? then a else b
  }

  /** `visitNodes`: the first truthy callback result over a list, if any. */
  function FirstTruthy<T>(nodes: seq<Node>, cb: Node --> Option<T>): (r: Option<T>)
    requires forall c :: c in nodes ==> cb.requires(c)
    ensures r.Some? ==> exists c :: c in nodes && cb(c) == r
  {
    if nodes == [] then None
    else
      assert nodes[0] in nodes && forall c :: c in nodes[1..] ==> c in nodes;
      Or(cb(nodes[0]), FirstTruthy(nodes[1..], cb))
  }

  /** `node.field && cbNode(node.field)` for an optional field. */
  function CallOpt<T>(o: Option<Node>, cb: Node --> Option<T>): Option<T>
    requires o.Some? ==> cb.requires(o.value)
  {
    if o.Some? then cb(o.value) else None
  }

  /** `forEachChild`, case by case. */
  function ForEachChild<T>(node: Node, cb: Node --> Option<T>): (r: Option<T>)
    requires forall c :: c in Subnodes(node) ==> cb.requires(c)
    ensures (forall c :: c in Subnodes(node) ==> cb(c).None?) ==> r.None?
  {
    match node
    case SourceFile(_, _, _, ss, _) => FirstTruthy(ss, cb)
    case FunctionDecl(_, _, _, nm, ps, body) => Or(cb(nm), Or(FirstTruthy(ps, cb), cb(body)))
    case Block(_, _, _, ss) => FirstTruthy(ss, cb)
    case VariableStatement(_, _, _, d) => cb(d)
    case VariableDeclaration(_, _, _, nm, init) => if cb(nm).Some? then None else CallOpt(init, cb)
    case ExpressionStatement(_, _, _, e) => cb(e)
    case IfStatement(_, _, _, e, t, el) => Or(cb(e), Or(cb(t), CallOpt(el, cb)))
    case WhileStatement(_, _, _, e, s) => Or(cb(e), cb(s))
    case ForStatement(_, _, _, i, c, inc, s) => Or(CallOpt(i, cb), Or(CallOpt(c, cb), Or(CallOpt(inc, cb), cb(s))))
    case ForInStatement(_, _, _, d, e, s) => Or(cb(d), Or(cb(e), cb(s)))
    case ReturnStatement(_, _, _, e) => CallOpt(e, cb)
    case BinaryExpression(_, _, _, l, _, rt) => Or(cb(l), cb(rt))
    case AssignmentExpression(_, _, _, l, rt) => Or(cb(l), cb(rt))
    case PrefixUnaryExpression(_, _, _, _, e) => cb(e)
    case PostfixUnaryExpression(_, _, _, e, _) => cb(e)
    case CallExpression(_, _, _, e, args) => Or(cb(e), FirstTruthy(args, cb))
    case ArrayLiteralExpression(_, _, _, es) => FirstTruthy(es, cb)
    case ObjectLiteralExpression(_, _, _, ps) => FirstTruthy(ps, cb)
    case PropertyAssignment(_, _, _, nm, v) => Or(cb(nm), cb(v))
    case PropertyAccessExpression(_, _, _, e, nm) => if cb(e).Some? then None else cb(nm)
    case ElementAccessExpression(_, _, _, e, a) => Or(cb(e), cb(a))
    case DeleteExpression(_, _, _, e) => cb(e)
    case _ => None
  }

  lemma {:induction false} FirstTruthyAppend<T>(a: seq<Node>, b: seq<Node>, cb: Node --> Option<T>)
    requires forall c :: c in a + b ==> cb.requires(c)
    ensures FirstTruthy(a + b, cb) == Or(FirstTruthy(a, cb), FirstTruthy(b, cb))
    decreases |a|
  {
    if a == [] {
      assert a + b == b;
    } else {
      assert (a + b)[0] == a[0] && (a + b)[1..] == a[1..] + b;
      assert forall c :: c in a[1..] + b ==> c in a + b;
      FirstTruthyAppend(a[1..], b, cb);
    }
  }

  /**
   * `forEachChild` returns the first truthy callback result over the children in
   * source order, except for variable declarations and property accesses: there
   * a truthy result on the first child makes the whole call return `undefined`.
   */
  lemma ForEachChildIsFirstTruthy<T>(node: Node, cb: Node --> Option<T>)
    requires forall c :: c in Subnodes(node) ==> cb.requires(c)
    ensures node.VariableDeclaration? || node.PropertyAccessExpression? ==>
      ForEachChild(node, cb) == (if cb(Children(node)[0]).Some? then None else FirstTruthy(Children(node)[1..], cb))
    ensures !(node.VariableDeclaration? || node.PropertyAccessExpression?) ==>
      ForEachChild(node, cb) == FirstTruthy(Children(node), cb)
  {
    if node.VariableDeclaration? || node.PropertyAccessExpression? {
      ForEachChildQuirk(node, cb);
    } else if node.FunctionDecl? || node.IfStatement? || node.ForStatement? || node.CallExpression? {
      ForEachChildJoined(node, cb);
    } else {
      ForEachChildPlain(node, cb);
    }
  }

  /** The two cases that stop after a truthy first child without returning its result. */
  lemma ForEachChildQuirk<T>(node: Node, cb: Node --> Option<T>)
    requires forall c :: c in Subnodes(node) ==> cb.requires(c)
    requires node.VariableDeclaration? || node.PropertyAccessExpression?
    ensures ForEachChild(node, cb) == (if cb(Children(node)[0]).Some? then None else FirstTruthy(Children(node)[1..], cb))
  {
    match node
    case VariableDeclaration(_, _, _, nm, init) =>
      assert Children(node)[1..] == Opt(init);
      FirstTruthyShort(Opt(init), cb);
    case PropertyAccessExpression(_, _, _, _, nm) =>
      assert Children(node)[1..] == [nm];
      FirstTruthyShort([nm], cb);
  }

  /** The cases whose children are a concatenation of fields. */
  lemma ForEachChildJoined<T>(node: Node, cb: Node --> Option<T>)
    requires forall c :: c in Subnodes(node) ==> cb.requires(c)
    requires node.FunctionDecl? || node.IfStatement? || node.ForStatement? || node.CallExpression?
    ensures ForEachChild(node, cb) == FirstTruthy(Children(node), cb)
  {
    match node
    case FunctionDecl(_, _, _, nm, ps, body) =>
      FirstTruthyAppend([nm], ps + [body], cb);
      FirstTruthyAppend(ps, [body], cb);
      assert [nm] + ps + [body] == [nm] + (ps + [body]);
    case IfStatement(_, _, _, e, t, el) =>
      FirstTruthyAppend([e, t], Opt(el), cb);
      FirstTruthyAppend([e], [t], cb);
    case ForStatement(_, _, _, i, c, inc, s) =>
      FirstTruthyAppend(Opt(i) + Opt(c) + Opt(inc), [s], cb);
      FirstTruthyAppend(Opt(i) + Opt(c), Opt(inc), cb);
      FirstTruthyAppend(Opt(i), Opt(c), cb);
    case CallExpression(_, _, _, e, args) =>
      FirstTruthyAppend([e], args, cb);
  }

  /** The remaining cases: a list field, or at most two single fields. */
  lemma ForEachChildPlain<T>(node: Node, cb: Node --> Option<T>)
    requires forall c :: c in Subnodes(node) ==> cb.requires(c)
    requires !(node.VariableDeclaration? || node.PropertyAccessExpression? || node.FunctionDecl?
               || node.IfStatement? || node.ForStatement? || node.CallExpression?)
    ensures ForEachChild(node, cb) == FirstTruthy(Children(node), cb)
  {
    match node
    case VariableStatement(_, _, _, _) => FirstTruthyShort(Children(node), cb);
    case ExpressionStatement(_, _, _, _) => FirstTruthyShort(Children(node), cb);
    case WhileStatement(_, _, _, _, _) => FirstTruthyShort(Children(node), cb);
    case ForInStatement(_, _, _, _, _, _) => FirstTruthyShort(Children(node), cb);
    case ReturnStatement(_, _, _, e) => FirstTruthyShort(Children(node), cb);
    case BinaryExpression(_, _, _, _, _, _) => FirstTruthyShort(Children(node), cb);
    case AssignmentExpression(_, _, _, _, _) => FirstTruthyShort(Children(node), cb);
    case PrefixUnaryExpression(_, _, _, _, _) => FirstTruthyShort(Children(node), cb);
    case PostfixUnaryExpression(_, _, _, _, _) => FirstTruthyShort(Children(node), cb);
    case PropertyAssignment(_, _, _, _, _) => FirstTruthyShort(Children(node), cb);
    case ElementAccessExpression(_, _, _, _, _) => FirstTruthyShort(Children(node), cb);
    case DeleteExpression(_, _, _, _) => FirstTruthyShort(Children(node), cb);
    case _ =>
  }

  lemma FirstTruthyShort<T>(nodes: seq<Node>, cb: Node --> Option<T>)
    requires forall c :: c in nodes ==> cb.requires(c)
    ensures |nodes| == 1 ==> FirstTruthy(nodes, cb) == cb(nodes[0])
    ensures |nodes| == 2 ==> FirstTruthy(nodes, cb) == Or(cb(nodes[0]), cb(nodes[1]))
    ensures |nodes| == 3 ==> FirstTruthy(nodes, cb) == Or(cb(nodes[0]), Or(cb(nodes[1]), cb(nodes[2])))
  {
    if |nodes| >= 1 {
      assert forall c :: c in nodes[1..] ==> c in nodes;
      if |nodes| >= 2 {
        assert nodes[1..][0] == nodes[1];
        assert forall c :: c in nodes[2..] ==> c in nodes;
        assert nodes[1..][1..] == nodes[2..];
        if |nodes| == 3 {
          assert nodes[2..][1..] == [];
        }
      }
    }
  }

  /** The first truthy result is the callback's result on some child, and every
      child before it gave a falsy result; `undefined` means every child did. */
  lemma {:induction false} FirstTruthyIsFirst<T>(nodes: seq<Node>, cb: Node --> Option<T>)
    requires forall c :: c in nodes ==> cb.requires(c)
    ensures FirstTruthy(nodes, cb).None? <==> forall i :: 0 <= i < |nodes| ==> cb(nodes[i]).None?
    ensures FirstTruthy(nodes, cb).Some? ==>
      exists i :: 0 <= i < |nodes| && cb(nodes[i]) == FirstTruthy(nodes, cb)
        && forall j :: 0 <= j < i ==> cb(nodes[j]).None?
    decreases |nodes|
  {
    if nodes != [] {
      assert nodes[0] in nodes && forall c :: c in nodes[1..] ==> c in nodes;
      FirstTruthyIsFirst(nodes[1..], cb);
      assert forall i :: 1 <= i < |nodes| ==> nodes[i] == nodes[1..][i - 1];
      if cb(nodes[0]).None? && FirstTruthy(nodes, cb).Some? {
        var i :| 0 <= i < |nodes[1..]| && cb(nodes[1..][i]) == FirstTruthy(nodes[1..], cb)
          && forall j :: 0 <= j < i ==> cb(nodes[1..][j]).None?;
        assert cb(nodes[i + 1]) == FirstTruthy(nodes, cb);
      }
    }
  }

  /** `visitNodes` as the early-exit loop the source runs. */
  method VisitNodes<T>(nodes: seq<Node>, cb: Node --> Option<T>) returns (r: Option<T>)
    requires forall c :: c in nodes ==> cb.requires(c)
    ensures r == FirstTruthy(nodes, cb)
  {
    var i := 0;
    while i < |nodes|
      invariant 0 <= i <= |nodes|
      invariant FirstTruthy(nodes, cb) == FirstTruthy(nodes[i..], cb)
    {
      assert nodes[i..][1..] == nodes[i + 1..];
      var result := cb(nodes[i]);
      if result.Some? {
        return result;
      }
      i := i + 1;
    }
    return None;
  }

  /** `isDeclarationName`, given the identifier's `parent`: it is the name of the
      variable, function or parameter declaration it sits in. */
  predicate IsDeclarationName(id: Node, parent: Option<Node>) {
    parent.Some? &&
    (var p := parent.value;
     (p.VariableDeclaration? && p.name == id)
     || (p.FunctionDecl? && p.name == id)
     || (p.ParameterDecl? && p.name == id))
  }

  // ---------------------------------------------------------------------------
  // The binder

  /** A node gets a scope of its own: functions, `for` and `for-in`, and every block
      that is not a function body. */
  predicate CreatesScope(node: Node, parent: Option<Node>) {
    (node.Block? && !(parent.Some? && parent.value.FunctionDecl?))
    || node.ForStatement? || node.ForInStatement? || node.FunctionDecl?
  }

  const StartFlow := FlowNode(FlowFlags.Start, None, [], None)

  /** `owner[s]` is the scope symbol `s` was created in, and every scope maps only to its own symbols. */
  ghost predicate OwnedBy(t: Bindings, owner: seq<nat>)
    requires t.Valid()
  {
    |owner| == |t.symbols|
    && (forall s :: 0 <= s < |owner| ==> owner[s] < |t.scopes|)
    && (forall i, nm :: 0 <= i < |t.scopes| && nm in t.scopes[i].table ==> owner[t.scopes[i].table[nm]] == i)
  }

  /** Creating a symbol for a name new to `scope` keeps the tables consistent. */
  lemma NewSymbolKeepsValid(t: Bindings, owner: seq<nat>, scope: nat, name: string, sym: Symbol)
    requires t.Valid() && OwnedBy(t, owner) && scope < |t.scopes| && name !in t.scopes[scope].table
    requires sym.name == name
    ensures var t' := Bindings(t.parentOf, t.flowOf, t.localsOf, t.symbolOf, t.flows,
                               t.scopes[scope := t.scopes[scope].Add(name, |t.symbols|)], t.symbols + [sym]);
      t'.Valid() && OwnedBy(t', owner + [scope])
  {
    var scopes' := t.scopes[scope := t.scopes[scope].Add(name, |t.symbols|)];
    var symbols' := t.symbols + [sym];
    forall i, nm | 0 <= i < |scopes'| && nm in scopes'[i].table
      ensures scopes'[i].table[nm] < |symbols'| && symbols'[scopes'[i].table[nm]].name == nm
      ensures (owner + [scope])[scopes'[i].table[nm]] == i
    {
      if i == scope && nm == name {
      } else {
        assert nm in t.scopes[i].table && scopes'[i].table[nm] == t.scopes[i].table[nm];
      }
    }
  }

  /** Replacing a symbol by one of the same name keeps the tables consistent. */
  lemma SymbolUpdateKeepsValid(t: Bindings, owner: seq<nat>, s: nat, sym: Symbol)
    requires t.Valid() && OwnedBy(t, owner) && s < |t.symbols| && sym.name == t.symbols[s].name
    ensures var t' := Bindings(t.parentOf, t.flowOf, t.localsOf, t.symbolOf, t.flows, t.scopes, t.symbols[s := sym]);
      t'.Valid() && OwnedBy(t', owner)
  {
  }


  // ---------------------------------------------------------------------------
  // The walk, as functions of the binder's state

  /**
   * The state `bindSourceFile`'s closures share: the decoration tables and arenas,
   * the scope each symbol was created in, and the variables `parent`,
   * `currentScope`, `currentFlow` and `file.locals` (as indices).
   */
  datatype BState = BState(t: Bindings, owner: seq<nat>, parent: Option<Node>, scope: nat, flow: nat, fileLocals: nat)

  ghost predicate StateValid(st: BState) {
    st.t.Valid() && st.scope < |st.t.scopes| && st.flow < |st.t.flows| && st.fileLocals < |st.t.scopes|
    && OwnedBy(st.t, st.owner)
  }

  /** What `bind(node)` needs: a consistent state, a well-numbered subtree and a parent above it. */
  ghost predicate Ready(st: BState, node: Node) {
    StateValid(st) && WellNumbered(node) && (st.parent.Some? ==> st.parent.value.id > node.id)
  }

  /** What the per-kind `bind…` functions need: `node` is the current parent. */
  ghost predicate Inside(st: BState, node: Node) {
    StateValid(st) && st.parent == Some(node) && WellNumbered(node)
  }

  /** A step keeps the state consistent, restores `parent`, the current scope and
      `file.locals`, and only appends flow nodes and scopes. */
  ghost predicate Kept(st: BState, r: BState) {
    StateValid(r) && r.parent == st.parent && r.scope == st.scope && r.fileLocals == st.fileLocals
    && |st.t.flows| <= |r.t.flows| && |st.t.scopes| <= |r.t.scopes|
  }

  /** The children of a well-numbered node are well numbered and numbered below it. */
  lemma ChildrenReady(node: Node)
    requires WellNumbered(node)
    ensures forall c :: c in Subnodes(node) ==> WellNumbered(c) && c.id < node.id
  {
    WellNumberedChildren(node);
    forall c | c in Subnodes(node)
      ensures WellNumbered(c) && c.id < node.id
    {
      var i :| 0 <= i < |Subnodes(node)| && Subnodes(node)[i] == c;
      OwnIdIncluded(c);
    }
  }

  /** The declarations of `name` in scope `scope` (empty when it has none). */
  ghost function Decls(t: Bindings, scope: nat, name: string): seq<Node>
    requires t.Valid() && scope < |t.scopes|
  {
    if name in t.scopes[scope].table then t.symbols[t.scopes[scope].table[name]].declarations else []
  }

  /** `declareSymbolInScope(scope, name, declaration)`. */
  ghost function DeclareIn(st: BState, scope: nat, name: string, declaration: Node): (r: BState)
    requires StateValid(st) && scope < |st.t.scopes|
    ensures StateValid(r) && r.parent == st.parent && r.scope == st.scope && r.flow == st.flow
    ensures r.fileLocals == st.fileLocals && r.t.flows == st.t.flows && |r.t.scopes| == |st.t.scopes|
    ensures r.t.parentOf == st.t.parentOf && r.t.flowOf == st.t.flowOf && r.t.localsOf == st.t.localsOf
  {
    var t := st.t;
    if name in t.scopes[scope].table then
      var s := t.scopes[scope].table[name];
      var sym := Symbol(name, t.symbols[s].declarations + [declaration], t.symbols[s].isReferenced);
      SymbolUpdateKeepsValid(t, st.owner, s, sym);
      BState(Bindings(t.parentOf, t.flowOf, t.localsOf, t.symbolOf, t.flows, t.scopes, t.symbols[s := sym]),
             st.owner, st.parent, st.scope, st.flow, st.fileLocals)
    else
      var sym := Symbol(name, [declaration], false);
      NewSymbolKeepsValid(t, st.owner, scope, name, sym);
      BState(Bindings(t.parentOf, t.flowOf, t.localsOf, t.symbolOf, t.flows,
                      t.scopes[scope := t.scopes[scope].Add(name, |t.symbols|)], t.symbols + [sym]),
             st.owner + [scope], st.parent, st.scope, st.flow, st.fileLocals)
  }

  /** What `resolveSymbol` binds `id` to: the nearest enclosing scope with its name,
      else the file's scope, else nothing. */
  ghost function Resolution(t: Bindings, id: Node, fileScope: nat): (r: Option<nat>)
    requires t.Valid() && fileScope < |t.scopes|
    ensures r.Some? ==> r.value < |t.symbols| && t.symbols[r.value].name == TextOf(id)
  {
    var found := t.Lookup(Some(id), TextOf(id));
    if found.Some? then found
    else if TextOf(id) in t.scopes[fileScope].table then Some(t.scopes[fileScope].table[TextOf(id)])
    else None
  }

  /** `resolveSymbol(id)`: record the symbol and mark it referenced, or leave everything alone. */
  ghost function Resolve(st: BState, id: Node): (r: BState)
    requires StateValid(st) && id.id != 0
    ensures StateValid(r) && r.parent == st.parent && r.scope == st.scope && r.flow == st.flow
    ensures r.fileLocals == st.fileLocals && r.t.flows == st.t.flows && r.t.scopes == st.t.scopes
    ensures r.t.parentOf == st.t.parentOf && r.t.flowOf == st.t.flowOf && r.t.localsOf == st.t.localsOf
  {
    var found := Resolution(st.t, id, st.fileLocals);
    if found.None? then st
    else
      var t := st.t;
      var s := found.value;
      var marked := Symbol(t.symbols[s].name, t.symbols[s].declarations, true);
      SymbolUpdateKeepsValid(t, st.owner, s, marked);
      var t' := Bindings(t.parentOf, t.flowOf, t.localsOf, t.symbolOf, t.flows, t.scopes, t.symbols[s := marked]);
      RecordSymbolKeepsValid(t', st.owner, id.id, s);
      BState(t'.(symbolOf := t.symbolOf[id.id := s]), st.owner, st.parent, st.scope, st.flow, st.fileLocals)
  }

  /** Recording an identifier's symbol keeps the tables consistent. */
  lemma RecordSymbolKeepsValid(t: Bindings, owner: seq<nat>, id: nat, s: nat)
    requires t.Valid() && OwnedBy(t, owner) && id != 0 && s < |t.symbols|
    ensures t.(symbolOf := t.symbolOf[id := s]).Valid() && OwnedBy(t.(symbolOf := t.symbolOf[id := s]), owner)
  {
  }

  /** A new flow node, not (yet) the current one. */
  ghost function PushFlow(st: BState, f: FlowNode): (r: BState)
    requires StateValid(st)
    ensures StateValid(r)
  {
    BState(st.t.(flows := st.t.flows + [f]), st.owner, st.parent, st.scope, st.flow, st.fileLocals)
  }

  /** `currentFlow = <a new flow node>`. */
  ghost function AddFlow(st: BState, f: FlowNode): (r: BState)
    requires StateValid(st)
    ensures StateValid(r)
  {
    BState(st.t.(flows := st.t.flows + [f]), st.owner, st.parent, st.scope, |st.t.flows|, st.fileLocals)
  }

  /** `loopLabel.antecedents.push(currentFlow)`. */
  ghost function AddAntecedent(st: BState, loop: nat): (r: BState)
    requires StateValid(st) && loop < |st.t.flows|
    ensures StateValid(r)
  {
    var l := st.t.flows[loop];
    BState(st.t.(flows := st.t.flows[loop := FlowNode(l.flags, l.antecedent, l.antecedents + [st.flow], l.node)]),
           st.owner, st.parent, st.scope, st.flow, st.fileLocals)
  }

  /** `createFlowCondition(flags, expression)` made the current flow. */
  function Condition(flags: Flags, antecedent: nat, expression: Node): FlowNode {
    FlowNode(flags, Some(antecedent), [], Some(expression))
  }

  /** `createFlowLabel()` with the given antecedents. */
  function Label(antecedents: seq<nat>): FlowNode {
    FlowNode(BranchLabel, None, antecedents, None)
  }

  /** `node.parent = parent; node.flowNode = currentFlow; parent = node`. */
  ghost function Link(st: BState, node: Node): (r: BState)
    requires StateValid(st) && node.id != 0 && (st.parent.Some? ==> st.parent.value.id > node.id)
    ensures StateValid(r) && r.parent == Some(node) && r.fileLocals == st.fileLocals && r.flow == st.flow
    ensures r.scope == st.scope && r.t.flows == st.t.flows && r.t.scopes == st.t.scopes
  {
    var t := st.t;
    var parentOf := if st.parent.Some? then t.parentOf[node.id := st.parent.value] else t.parentOf;
    BState(Bindings(parentOf, t.flowOf[node.id := st.flow], t.localsOf, t.symbolOf, t.flows, t.scopes, t.symbols),
           st.owner, Some(node), st.scope, st.flow, st.fileLocals)
  }

  /** `currentScope = new Map(); node.locals = currentScope`. */
  ghost function OpenScope(st: BState, node: Node): (r: BState)
    requires StateValid(st) && node.id != 0
    ensures StateValid(r) && r.parent == st.parent && r.fileLocals == st.fileLocals && r.flow == st.flow
    ensures r.scope == |st.t.scopes| && r.t.flows == st.t.flows && |r.t.scopes| == |st.t.scopes| + 1
  {
    var t := st.t;
    var t' := Bindings(t.parentOf, t.flowOf, t.localsOf[node.id := |t.scopes|], t.symbolOf, t.flows, t.scopes + [EmptyScope], t.symbols);
    assert forall i :: 0 <= i < |t.scopes| ==> t'.scopes[i] == t.scopes[i];
    BState(t', st.owner, st.parent, |t.scopes|, st.flow, st.fileLocals)
  }

  /** The first half of `bind`: link `node`, make it the parent, and give it a scope
      of its own when it creates one. */
  ghost function Enter(st: BState, node: Node): (r: BState)
    requires StateValid(st) && node.id != 0 && (st.parent.Some? ==> st.parent.value.id > node.id)
    ensures StateValid(r) && r.parent == Some(node) && r.fileLocals == st.fileLocals && r.flow == st.flow
    ensures r.t.flows == st.t.flows && |st.t.scopes| <= |r.t.scopes|
  {
    var s := Link(st, node);
    if CreatesScope(node, st.parent) then OpenScope(s, node) else s
  }

  /** The declaration step of `bind`: variables and parameters go into the current
      scope, a function's name into the scope around it. */
  ghost function DeclareNode(st: BState, node: Node, outer: nat): (r: BState)
    requires StateValid(st) && outer < |st.t.scopes|
    ensures StateValid(r) && r.parent == st.parent && r.scope == st.scope && r.flow == st.flow
    ensures r.fileLocals == st.fileLocals && r.t.flows == st.t.flows && |r.t.scopes| == |st.t.scopes|
    ensures r.t.parentOf == st.t.parentOf && r.t.flowOf == st.t.flowOf && r.t.localsOf == st.t.localsOf
  {
    if node.VariableDeclaration? then DeclareIn(st, st.scope, TextOf(node.name), node)
    else if node.FunctionDecl? then DeclareIn(st, outer, TextOf(node.name), node)
    else if node.ParameterDecl? then DeclareIn(st, st.scope, TextOf(node.name), node)
    else st
  }

  /** `bind(node)`. */
  ghost function BindSpec(st: BState, node: Node): (r: BState)
    requires Ready(st, node)
    ensures Kept(st, r)
    decreases node, 5
  {
    var s1 := Enter(st, node);
    var s2 := DeclareNode(s1, node, st.scope);
    var s3 := Dispatch(s2, node);
    BState(s3.t, s3.owner, st.parent, st.scope, s3.flow, s3.fileLocals)
  }

  /** The `switch` of `bind`. */
  ghost function Dispatch(st: BState, node: Node): (r: BState)
    requires Inside(st, node)
    ensures Kept(st, r)
    decreases node, 4
  {
    if node.IfStatement? then BindIfSpec(st, node)
    else if node.WhileStatement? then BindWhileSpec(st, node)
    else if node.ForStatement? then BindForSpec(st, node)
    else if node.ForInStatement? then BindForInSpec(st, node)
    else if node.FunctionDecl? then BindFunctionSpec(st, node)
    else if node.ReturnStatement? then BindReturnSpec(st, node)
    else if node.Identifier? then BindIdentifierSpec(st, node)
    else BindChildrenSpec(st, node)
  }

  /** `bind` applied to `cs`, children of `node`, in order. */
  ghost function BindListSpec(st: BState, node: Node, cs: seq<Node>): (r: BState)
    requires Inside(st, node) && forall c :: c in cs ==> c in Subnodes(node)
    ensures Kept(st, r)
    decreases node, 1, |cs|
  {
    if cs == [] then st
    else
      var last := cs[|cs| - 1];
      assert last in cs && forall c :: c in cs[..|cs| - 1] ==> c in cs;
      ChildrenReady(node);
      BindSpec(BindListSpec(st, node, cs[..|cs| - 1]), last)
  }

  /** One more child of the list. */
  lemma BindListStep(st: BState, node: Node, cs: seq<Node>, i: nat)
    requires Inside(st, node) && forall c :: c in cs ==> c in Subnodes(node)
    requires i < |cs|
    ensures forall c :: c in cs[..i + 1] ==> c in Subnodes(node)
    ensures forall c :: c in cs[..i] ==> c in Subnodes(node)
    ensures cs[i] in Subnodes(node) && Ready(BindListSpec(st, node, cs[..i]), cs[i])
    ensures BindListSpec(st, node, cs[..i + 1]) == BindSpec(BindListSpec(st, node, cs[..i]), cs[i])
  {
    ChildrenReady(node);
    assert cs[i] in cs && forall c :: c in cs[..i + 1] ==> c in cs;
    assert cs[..i + 1][..i] == cs[..i];
  }

  /** `forEachChild(node, bind)`. */
  ghost function BindChildrenSpec(st: BState, node: Node): (r: BState)
    requires Inside(st, node)
    ensures Kept(st, r)
    decreases node, 2
  {
    BindListSpec(st, node, Children(node))
  }

  /** `bindIfStatement`: the else branch starts from the then branch's exit flow, as written. */
  ghost function BindIfSpec(st: BState, node: Node): (r: BState)
    requires Inside(st, node) && node.IfStatement?
    ensures Kept(st, r)
    decreases node, 3
  {
    IfElseSpec(IfThenSpec(st, node), node)
  }

  /** The condition, then the then branch under a `TrueCondition`. */
  ghost function IfThenSpec(st: BState, node: Node): (r: BState)
    requires Inside(st, node) && node.IfStatement?
    ensures Kept(st, r)
    decreases node, 2
  {
    ChildrenReady(node);
    var s1 := BindSpec(st, node.expression);
    var s2 := AddFlow(s1, Condition(TrueCondition, s1.flow, node.expression));
    BindSpec(s2, node.thenStatement)
  }

  /** From the then branch's exit `st.flow`: a `FalseCondition`, the else branch, and
      the merge label, unreachable when both exits are. */
  ghost function IfElseSpec(st: BState, node: Node): (r: BState)
    requires Inside(st, node) && node.IfStatement?
    ensures Kept(st, r)
    decreases node, 2
  {
    ChildrenReady(node);
    var thenFlow := st.flow;
    var s4 := AddFlow(st, Condition(FalseCondition, thenFlow, node.expression));
    var s5 := if node.elseStatement.Some? then BindSpec(s4, node.elseStatement.value) else s4;
    AddFlow(s5, MergeLabel(s5.t.flows, thenFlow, s5.flow))
  }

  /** The label where the branches of an `if` meet: unreachable when both exits are. */
  function MergeLabel(flows: seq<FlowNode>, thenFlow: nat, elseFlow: nat): (f: FlowNode)
    requires thenFlow < |flows| && elseFlow < |flows|
    ensures f.antecedents == [thenFlow, elseFlow] && f.antecedent.None? && f.node.None?
    ensures Has(f.flags, BranchLabel) && !Has(f.flags, LoopLabel)
    ensures Has(f.flags, Unreachable) <==> Has(flows[thenFlow].flags, Unreachable) && Has(flows[elseFlow].flags, Unreachable)
  {
    var merge := Label([thenFlow, elseFlow]);
    if Has(flows[thenFlow].flags, Unreachable) && Has(flows[elseFlow].flags, Unreachable) then
      merge.(flags := BranchLabel | Unreachable)
    else
      merge
  }

  /** `bindWhileStatement`: the loop label is not made current before the condition. */
  ghost function BindWhileSpec(st: BState, node: Node): (r: BState)
    requires Inside(st, node) && node.WhileStatement?
    ensures Kept(st, r)
    decreases node, 3
  {
    ChildrenReady(node);
    var loop := |st.t.flows|;
    var s1 := PushFlow(st, Label([st.flow]));
    var s2 := BindSpec(s1, node.expression);
    var s3 := AddFlow(s2, Condition(TrueCondition, s2.flow, node.expression));
    var s4 := BindSpec(s3, node.statement);
    var s5 := AddAntecedent(s4, loop);
    AddFlow(s5, Condition(FalseCondition, loop, node.expression))
  }

  /** `node.condition || node`. */
  function ConditionOrSelf(node: Node): Node
    requires node.ForStatement?
  {
    if node.condition.Some? then node.condition.value else node
  }

  /** `bindForStatement`, up to the `TrueCondition` flow. */
  ghost function BindForSpec(st: BState, node: Node): (r: BState)
    requires Inside(st, node) && node.ForStatement?
    ensures Kept(st, r)
    decreases node, 3
  {
    ChildrenReady(node);
    var s1 := if node.initializer.Some? then BindSpec(st, node.initializer.value) else st;
    var s2 := AddFlow(s1, Label([s1.flow]));
    var s3 := if node.condition.Some? then BindSpec(s2, node.condition.value) else s2;
    var s4 := AddFlow(s3, Condition(TrueCondition, s3.flow, ConditionOrSelf(node)));
    ForRestSpec(s4, node, |s1.t.flows|)
  }

  /** The rest of `bindForStatement`: body, incrementor, and the exit from loop label `loop`. */
  ghost function ForRestSpec(st: BState, node: Node, loop: nat): (r: BState)
    requires Inside(st, node) && node.ForStatement? && loop < |st.t.flows|
    ensures Kept(st, r)
    decreases node, 2
  {
    ChildrenReady(node);
    var s5 := BindSpec(st, node.statement);
    var s6 := if node.incrementor.Some? then BindSpec(s5, node.incrementor.value) else s5;
    var s7 := AddAntecedent(s6, loop);
    AddFlow(s7, Condition(FalseCondition, loop, ConditionOrSelf(node)))
  }

  /** `bindForInStatement`: the expression first, then the declaration inside the loop. */
  ghost function BindForInSpec(st: BState, node: Node): (r: BState)
    requires Inside(st, node) && node.ForInStatement?
    ensures Kept(st, r)
    decreases node, 3
  {
    ChildrenReady(node);
    var s1 := BindSpec(st, node.expression);
    ForInRestSpec(AddFlow(s1, Label([s1.flow])), node, |s1.t.flows|)
  }

  /** The rest of `bindForInStatement`: declaration, body, and the exit from loop label `loop`. */
  ghost function ForInRestSpec(st: BState, node: Node, loop: nat): (r: BState)
    requires Inside(st, node) && node.ForInStatement? && loop < |st.t.flows|
    ensures Kept(st, r)
    decreases node, 2
  {
    ChildrenReady(node);
    var s3 := BindSpec(st, node.declaration);
    var s4 := AddFlow(s3, Condition(TrueCondition, s3.flow, node.expression));
    var s5 := BindSpec(s4, node.statement);
    var s6 := AddAntecedent(s5, loop);
    AddFlow(s6, Condition(FalseCondition, loop, node.expression))
  }

  /** `bindFunctionDeclaration`: the name, the parameters, then the body. */
  ghost function BindFunctionSpec(st: BState, node: Node): (r: BState)
    requires Inside(st, node) && node.FunctionDecl?
    ensures Kept(st, r)
    decreases node, 3
  {
    ChildrenReady(node);
    assert node.name in Subnodes(node) && forall c :: c in node.parameters ==> c in Subnodes(node);
    var s1 := BindSpec(st, node.name);
    FunctionBodySpec(BindListSpec(s1, node, node.parameters), node)
  }

  /** The body of a function, bound from a fresh `Start` flow; the flow around the
      function is restored afterwards. */
  ghost function FunctionBodySpec(st: BState, node: Node): (r: BState)
    requires Inside(st, node) && node.FunctionDecl?
    ensures Kept(st, r)
    decreases node, 2
  {
    ChildrenReady(node);
    var s := BindSpec(AddFlow(st, StartFlow), node.body);
    BState(s.t, s.owner, s.parent, s.scope, st.flow, s.fileLocals)
  }

  /** `bindReturnStatement`: what follows a `return` is unreachable. */
  ghost function BindReturnSpec(st: BState, node: Node): (r: BState)
    requires Inside(st, node) && node.ReturnStatement?
    ensures Kept(st, r)
    decreases node, 3
  {
    var s1 := BindListSpec(st, node, Children(node));
    AddFlow(s1, FlowNode(Unreachable, Some(s1.flow), [], None))
  }

  /** `bindIdentifier`: resolve every identifier that is not the name of its declaration. */
  ghost function BindIdentifierSpec(st: BState, node: Node): (r: BState)
    requires Inside(st, node) && node.Identifier?
    ensures Kept(st, r)
    decreases node, 3
  {
    if IsDeclarationName(node, st.t.Parent(node)) then st else Resolve(st, node)
  }

  /** The state `bindSourceFile` starts from: an empty root scope as `file.locals`
      and a `Start` flow. */
  function Initial(file: Node): BState {
    BState(Bindings(map[], map[], map[file.id := 0], map[], [StartFlow], [EmptyScope], []), [], None, 0, 0, 0)
  }

  // ---------------------------------------------------------------------------
  // The binder object: the same walk, updating its fields in place

  class Binder {
    var parentOf: map<nat, Node>
    var flowOf: map<nat, nat>
    var localsOf: map<nat, nat>
    var symbolOf: map<nat, nat>
    var flows: seq<FlowNode>
    var scopes: seq<Scope>
    var symbols: seq<Symbol>
    /** the scope each symbol was created in */
    ghost var owner: seq<nat>
    var parent: Option<Node>
    var currentScope: nat
    var currentFlow: nat
    /** `file.locals` */
    var fileLocals: nat

    function Tables(): Bindings
      reads this
    {
      Bindings(parentOf, flowOf, localsOf, symbolOf, flows, scopes, symbols)
    }

    ghost function Snap(): BState
      reads this
    {
      BState(Tables(), owner, parent, currentScope, currentFlow, fileLocals)
    }

    ghost predicate Valid()
      reads this
    {
      StateValid(Snap())
    }

    /** `bindSourceFile`'s initial state. */
    constructor (file: Node)
      requires file.id != 0
      ensures Valid() && Snap() == Initial(file)
    {
      parentOf := map[];
      flowOf := map[];
      localsOf := map[file.id := 0];
      symbolOf := map[];
      flows := [StartFlow];
      scopes := [EmptyScope];
      symbols := [];
      owner := [];
      parent := None;
      currentScope := 0;
      currentFlow := 0;
      fileLocals := 0;
    }

    /** `declareSymbolInScope`. */
    method DeclareSymbolInScope(scope: nat, name: string, declaration: Node)
      requires Valid() && scope < |scopes|
      modifies this
      ensures Snap() == DeclareIn(old(Snap()), scope, name, declaration)
    {
      var existing := scopes[scope].Get(name);
      if existing.None? {
        var s := |symbols|;
        symbols := symbols + [Symbol(name, [declaration], false)];
        owner := owner + [scope];
        scopes := scopes[scope := scopes[scope].Add(name, s)];
      } else {
        var s := existing.value;
        var sym := symbols[s];
        symbols := symbols[s := Symbol(name, sym.declarations + [declaration], sym.isReferenced)];
      }
    }

    /** `declareSymbol`: declare in the current scope. */
    method DeclareSymbol(name: string, declaration: Node)
      requires Valid()
      modifies this
      ensures Snap() == DeclareIn(old(Snap()), old(currentScope), name, declaration)
    {
      DeclareSymbolInScope(currentScope, name, declaration);
    }

    /** `resolveSymbol`'s search: the walk up the `parent` chain, then the file's scope. */
    static method FindSymbol(t: Bindings, id: Node, fileScope: nat) returns (found: Option<nat>)
      requires t.Valid() && fileScope < |t.scopes|
      ensures found == Resolution(t, id, fileScope)
    {
      var name := TextOf(id);
      var current: Option<Node> := Some(id);
      found := None;
      while current.Some?
        invariant t.Lookup(current, name) == t.Lookup(Some(id), name)
        decreases t.Height(current)
      {
        var n := current.value;
        if n.id in t.localsOf && name in t.scopes[t.localsOf[n.id]].table {
          found := Some(t.scopes[t.localsOf[n.id]].table[name]);
          return;
        }
        if n.id in t.parentOf {
          t.ParentIsHigher(n);
          current := Some(t.parentOf[n.id]);
        } else {
          current := None;
        }
      }
      if name in t.scopes[fileScope].table {
        found := Some(t.scopes[fileScope].table[name]);
      }
    }

    /** `resolveSymbol`. */
    method ResolveSymbol(id: Node)
      requires Valid() && id.id != 0
      modifies this
      ensures Snap() == Resolve(old(Snap()), id)
    {
      var found := FindSymbol(Tables(), id, fileLocals);
      if found.Some? {
        var s := found.value;
        var sym := symbols[s];
        symbols := symbols[s := Symbol(sym.name, sym.declarations, true)];
        symbolOf := symbolOf[id.id := s];
      }
    }

    /** `currentFlow = <a new flow node>`. */
    method SetFlow(f: FlowNode)
      requires Valid()
      modifies this
      ensures Snap() == AddFlow(old(Snap()), f)
    {
      flows := flows + [f];
      currentFlow := |flows| - 1;
    }

    /** `createFlowLabel()` with the current flow as its first antecedent; returns its index. */
    method NewLoopLabel() returns (loop: nat)
      requires Valid()
      modifies this
      ensures loop == |old(flows)| && Snap() == PushFlow(old(Snap()), Label([old(currentFlow)]))
    {
      loop := |flows|;
      flows := flows + [Label([currentFlow])];
    }

    /** `loopLabel.antecedents.push(currentFlow)`. */
    method PushAntecedent(loop: nat)
      requires Valid() && loop < |flows|
      modifies this
      ensures Snap() == AddAntecedent(old(Snap()), loop)
    {
      var l := flows[loop];
      flows := flows[loop := FlowNode(l.flags, l.antecedent, l.antecedents + [currentFlow], l.node)];
    }

    /** `bind(node)`. */
    method Bind(node: Node)
      requires Ready(Snap(), node)
      modifies this
      ensures Snap() == BindSpec(old(Snap()), node)
      decreases node, 5
    {
      var saveParent := parent;
      var saveScope := currentScope;
      EnterNode(node);
      DeclareNodeSymbol(node, saveScope);
      Switch(node);
      currentScope := saveScope;
      parent := saveParent;
    }

    /** The first half of `bind`: record `parent` and `flowNode`, make `node` the
        parent, and open a scope when `node` creates one. */
    method EnterNode(node: Node)
      requires Valid() && node.id != 0 && (parent.Some? ==> parent.value.id > node.id)
      modifies this
      ensures Snap() == Enter(old(Snap()), node)
    {
      var saveParent := parent;
      LinkNode(node);
      if CreatesScope(node, saveParent) {
        OpenNodeScope(node);
      }
    }

    /** `node.parent = parent; node.flowNode = currentFlow; parent = node`. */
    method LinkNode(node: Node)
      requires Valid() && node.id != 0 && (parent.Some? ==> parent.value.id > node.id)
      modifies this
      ensures Snap() == Link(old(Snap()), node)
    {
      if parent.Some? {
        parentOf := parentOf[node.id := parent.value];
      }
      flowOf := flowOf[node.id := currentFlow];
      parent := Some(node);
    }

    /** `currentScope = new Map(); node.locals = currentScope`. */
    method OpenNodeScope(node: Node)
      requires Valid() && node.id != 0
      modifies this
      ensures Snap() == OpenScope(old(Snap()), node)
    {
      localsOf := localsOf[node.id := |scopes|];
      currentScope := |scopes|;
      scopes := scopes + [EmptyScope];
    }

    /** The declaration step of `bind`; `outer` is the scope around `node`. */
    method DeclareNodeSymbol(node: Node, outer: nat)
      requires Valid() && outer < |scopes|
      modifies this
      ensures Snap() == DeclareNode(old(Snap()), node, outer)
    {
      if node.VariableDeclaration? {
        DeclareSymbol(TextOf(node.name), node);
      } else if node.FunctionDecl? {
        DeclareSymbolInScope(outer, TextOf(node.name), node);
      } else if node.ParameterDecl? {
        DeclareSymbol(TextOf(node.name), node);
      }
    }

    /** The `switch` of `bind`. */
    method Switch(node: Node)
      requires Inside(Snap(), node)
      modifies this
      ensures Snap() == Dispatch(old(Snap()), node)
      decreases node, 4
    {
      if node.IfStatement? {
        BindIfStatement(node);
      } else if node.WhileStatement? {
        BindWhileStatement(node);
      } else if node.ForStatement? {
        BindForStatement(node);
      } else if node.ForInStatement? {
        BindForInStatement(node);
      } else if node.FunctionDecl? {
        BindFunctionDeclaration(node);
      } else if node.ReturnStatement? {
        BindReturnStatement(node);
      } else if node.Identifier? {
        BindIdentifier(node);
      } else {
        BindChildren(node);
      }
    }

    /** `bind` applied to `cs`, children of `node`, in order: `visitNodes`, the
        parameter loop and `forEachChild(node, bind)`. */
    method BindList(ghost node: Node, cs: seq<Node>)
      requires Inside(Snap(), node) && forall c :: c in cs ==> c in Subnodes(node)
      modifies this
      ensures Snap() == BindListSpec(old(Snap()), node, cs)
      decreases node, 1
    {
      ChildrenReady(node);
      var i := 0;
      while i < |cs|
        invariant 0 <= i <= |cs|
        invariant Snap() == BindListSpec(old(Snap()), node, cs[..i])
      {
        BindNext(node, cs, i, old(Snap()));
        i := i + 1;
      }
      WholePrefix(cs);
    }

    /** One turn of `BindList`'s loop. */
    method BindNext(ghost node: Node, cs: seq<Node>, i: nat, ghost st: BState)
      requires Inside(st, node) && forall c :: c in cs ==> c in Subnodes(node)
      requires i < |cs| && Snap() == BindListSpec(st, node, cs[..i])
      modifies this
      ensures Snap() == BindListSpec(st, node, cs[..i + 1])
      decreases node, 0
    {
      BindListStep(st, node, cs, i);
      Bind(cs[i]);
    }

    /** `forEachChild(node, bind)`. */
    method BindChildren(node: Node)
      requires Inside(Snap(), node)
      modifies this
      ensures Snap() == BindChildrenSpec(old(Snap()), node)
      decreases node, 2
    {
      BindList(node, Children(node));
    }

    /** `bindIfStatement`. */
    method BindIfStatement(node: Node)
      requires Inside(Snap(), node) && node.IfStatement?
      modifies this
      ensures Snap() == BindIfSpec(old(Snap()), node)
      decreases node, 3
    {
      ChildrenReady(node);
      Bind(node.expression);
      SetFlow(Condition(TrueCondition, currentFlow, node.expression));
      Bind(node.thenStatement);
      var thenFlow := currentFlow;
      SetFlow(Condition(FalseCondition, currentFlow, node.expression));
      if node.elseStatement.Some? {
        Bind(node.elseStatement.value);
      }
      var elseFlow := currentFlow;
      var merge := Label([thenFlow, elseFlow]);
      if Has(flows[thenFlow].flags, Unreachable) && Has(flows[elseFlow].flags, Unreachable) {
        merge := merge.(flags := BranchLabel | Unreachable);
      }
      SetFlow(merge);
    }

    /** `bindWhileStatement`. */
    method BindWhileStatement(node: Node)
      requires Inside(Snap(), node) && node.WhileStatement?
      modifies this
      ensures Snap() == BindWhileSpec(old(Snap()), node)
      decreases node, 3
    {
      ChildrenReady(node);
      var loop := NewLoopLabel();
      Bind(node.expression);
      SetFlow(Condition(TrueCondition, currentFlow, node.expression));
      Bind(node.statement);
      PushAntecedent(loop);
      SetFlow(Condition(FalseCondition, loop, node.expression));
    }

    /** `bindForStatement`. */
    method BindForStatement(node: Node)
      requires Inside(Snap(), node) && node.ForStatement?
      modifies this
      ensures Snap() == BindForSpec(old(Snap()), node)
      decreases node, 3
    {
      ChildrenReady(node);
      if node.initializer.Some? {
        Bind(node.initializer.value);
      }
      var loop := |flows|;
      SetFlow(Label([currentFlow]));
      if node.condition.Some? {
        Bind(node.condition.value);
      }
      SetFlow(Condition(TrueCondition, currentFlow, ConditionOrSelf(node)));
      BindForRest(node, loop);
    }

    /** The rest of `bindForStatement`, after the `TrueCondition` flow. */
    method BindForRest(node: Node, loop: nat)
      requires Inside(Snap(), node) && node.ForStatement? && loop < |flows|
      modifies this
      ensures Snap() == ForRestSpec(old(Snap()), node, loop)
      decreases node, 2
    {
      ChildrenReady(node);
      Bind(node.statement);
      if node.incrementor.Some? {
        Bind(node.incrementor.value);
      }
      PushAntecedent(loop);
      SetFlow(Condition(FalseCondition, loop, ConditionOrSelf(node)));
    }

    /** `bindForInStatement`. */
    method BindForInStatement(node: Node)
      requires Inside(Snap(), node) && node.ForInStatement?
      modifies this
      ensures Snap() == BindForInSpec(old(Snap()), node)
      decreases node, 3
    {
      ChildrenReady(node);
      Bind(node.expression);
      var loop := |flows|;
      SetFlow(Label([currentFlow]));
      Bind(node.declaration);
      SetFlow(Condition(TrueCondition, currentFlow, node.expression));
      Bind(node.statement);
      PushAntecedent(loop);
      SetFlow(Condition(FalseCondition, loop, node.expression));
    }

    /** `bindFunctionDeclaration`. */
    method BindFunctionDeclaration(node: Node)
      requires Inside(Snap(), node) && node.FunctionDecl?
      modifies this
      ensures Snap() == BindFunctionSpec(old(Snap()), node)
      decreases node, 3
    {
      ChildrenReady(node);
      assert node.name in Subnodes(node) && forall c :: c in node.parameters ==> c in Subnodes(node);
      Bind(node.name);
      BindList(node, node.parameters);
      BindFunctionBody(node);
    }

    /** The body part of `bindFunctionDeclaration`. */
    method BindFunctionBody(node: Node)
      requires Inside(Snap(), node) && node.FunctionDecl?
      modifies this
      ensures Snap() == FunctionBodySpec(old(Snap()), node)
      decreases node, 2
    {
      ChildrenReady(node);
      var saveFlow := currentFlow;
      SetFlow(StartFlow);
      Bind(node.body);
      currentFlow := saveFlow;
    }

    /** `bindReturnStatement`. */
    method BindReturnStatement(node: Node)
      requires Inside(Snap(), node) && node.ReturnStatement?
      modifies this
      ensures Snap() == BindReturnSpec(old(Snap()), node)
      decreases node, 3
    {
      BindList(node, Children(node));
      SetFlow(FlowNode(Unreachable, Some(currentFlow), [], None));
    }

    /** `bindIdentifier`. */
    method BindIdentifier(node: Node)
      requires Inside(Snap(), node) && node.Identifier?
      modifies this
      ensures Snap() == BindIdentifierSpec(old(Snap()), node)
      decreases node, 3
    {
      var recorded := if node.id in parentOf then Some(parentOf[node.id]) else None;
      if !IsDeclarationName(node, recorded) {
        ResolveSymbol(node);
      }
    }
  }

  /** `bindSourceFile(file)`: the decorations of a freshly parsed file. */
  method BindSourceFile(file: Node) returns (t: Bindings)
    requires WellNumbered(file)
    ensures t == BindSpec(Initial(file), file).t
  {
    var b := new Binder(file);
    b.Bind(file);
    t := b.Tables();
  }
}
