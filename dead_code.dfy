/**
 * Dead-code elimination (src/transformers/deadCodeElimination.ts). A work-list
 * liveness analysis finds the live symbols of the bound file; a sweep through
 * `visitEachChild` then drops unreachable statements, unused functions and lets,
 * and collapses `if (true)` / `if (false)`. The binder's decorations (`parent`,
 * `flowNode`, `locals`, `symbol`) are read from a `Bindings` value.
 */
module DeadCode {
  import opened FlowFlags
  import opened Ast
  import opened Transformer
  import Binder
  import BinderFacts
  import opened Seqs

  // ---------------------------------------------------------------------------
  // Small predicates

  /**
   * `isPure`: numeric and string literals (the kind range check), `true`/`false`,
   * identifiers, and binary expressions whose operands are both pure.
   */
  predicate IsPure(n: Node)
    ensures IsPure(n) ==> Subnodes(n) == [] || n.BinaryExpression?
  {
    var k := n.Kind();
    if SyntaxKind.NumericLiteral <= k <= SyntaxKind.StringLiteral then true
    else if k == SyntaxKind.TrueKeyword || k == SyntaxKind.FalseKeyword then true
    else if k == SyntaxKind.Identifier then true
    else if n.BinaryExpression? then IsPure(n.left) && IsPure(n.right)
    else false
  }

  /** The constructs that can change state when evaluated. */
  predicate MayHaveEffect(n: Node) {
    n.AssignmentExpression? || n.CallExpression? || n.PrefixUnaryExpression?
    || n.PostfixUnaryExpression? || n.DeleteExpression?
    || exists c :: c in Subnodes(n) && MayHaveEffect(c)
  }

  /** What `isPure` accepts cannot have a side effect, so dropping it is safe. */
  lemma {:induction false} PureHasNoEffect(n: Node)
    requires IsPure(n)
    ensures !MayHaveEffect(n)
  {
    if n.BinaryExpression? {
      PureHasNoEffect(n.left);
      PureHasNoEffect(n.right);
      assert Subnodes(n) == [n.left, n.right];
    } else {
      assert n.Literal? || n.Token? || n.Identifier?;
      assert Subnodes(n) == [];
    }
  }

  /** `isPure` holds exactly for literal kinds, identifiers and binary expressions of pure operands. */
  lemma PureKinds(n: Node)
    ensures IsPure(n) <==>
      (n.Kind() in {SyntaxKind.NumericLiteral, SyntaxKind.StringLiteral, SyntaxKind.TrueKeyword,
                    SyntaxKind.FalseKeyword, SyntaxKind.Identifier}
       || (n.BinaryExpression? && IsPure(n.left) && IsPure(n.right)))
  {
    LiteralRangeIsExact(n.Kind());
  }

  /** `isReachable`: every flow node is reachable unless it carries `Unreachable`. */
  predicate IsReachable(flow: FlowNode)
    ensures flow.flags == Unreachable ==> !IsReachable(flow)
    ensures forall i :: 1 <= i < |All| && flow.flags == All[i] ==> IsReachable(flow)
  {
    FlagsAreDistinctBits();
    !Has(flow.flags, Unreachable)
  }

  /** `node.flowNode && !isReachable(node.flowNode)`. */
  predicate Dead(t: Bindings, n: Node)
    requires t.Valid()
  {
    t.Flow(n).Some? && !IsReachable(t.Flow(n).value)
  }

  /** The initializer of a variable statement's declaration, if it has one. */
  function Initializer(stmt: Node): Option<Node>
    requires stmt.VariableStatement?
  {
    if stmt.declaration.VariableDeclaration? then stmt.declaration.initializer else None
  }

  /** `shouldSkipInBlock`: a let without initializer or with a pure one, and every function declaration. */
  predicate ShouldSkipInBlock(n: Node)
    ensures ShouldSkipInBlock(n) ==> n.VariableStatement? || n.FunctionDecl?
    ensures ShouldSkipInBlock(n) && n.VariableStatement? ==> Initializer(n).None? || !MayHaveEffect(Initializer(n).value)
  {
    if n.VariableStatement? then
      var init := Initializer(n);
      if init.Some? && IsPure(init.value) then PureHasNoEffect(init.value); true
      else init.None?
    else n.FunctionDecl?
  }

  /**
   * `getSymbolInScope`: walk the `parent` chain from `start` and return the first
   * `locals` entry for the name's text.
   */
  method GetSymbolInScope(t: Bindings, name: Node, start: Option<Node>) returns (r: Option<nat>)
    requires t.Valid()
    ensures r == t.Lookup(start, TextOf(name))
    ensures r.Some? ==> r.value < |t.symbols| && t.symbols[r.value].name == TextOf(name)
  {
    var current := start;
    while current.Some?
      invariant t.Lookup(current, TextOf(name)) == t.Lookup(start, TextOf(name))
      decreases t.Height(current)
    {
      var n := current.value;
      if n.id in t.localsOf && TextOf(name) in t.scopes[t.localsOf[n.id]].table {
        return Some(t.scopes[t.localsOf[n.id]].table[TextOf(name)]);
      }
      if n.id in t.parentOf {
        t.ParentIsHigher(n);
      }
      current := t.Parent(n);
    }
    return None;
  }

  // ---------------------------------------------------------------------------
  // Liveness: the specification

  function Elements(s: seq<Node>): set<Node> {
    set x | x in s
  }

  /** Nodes and symbols marked live. */
  datatype Marks = Marks(nodes: set<Node>, symbols: set<nat>)

  function Join(a: Marks, b: Marks): Marks {
    Marks(a.nodes + b.nodes, a.symbols + b.symbols)
  }

  /**
   * What `rootVisitor` marks for one top-level child: a file's own children; the
   * symbol of a function named `main`; the initializer of a let when it is impure;
   * and any other statement itself. Other functions and pure lets are no roots.
   */
  function RootOf(t: Bindings, n: Node): Marks
    requires t.Valid()
    decreases n, 1
  {
    if n.SourceFile? then RootsOf(t, Binder.Children(n), n)
    else if n.FunctionDecl? then
      var s := t.Lookup(t.Parent(n), TextOf(n.name));
      if TextOf(n.name) == "main" && s.Some? then Marks({}, {s.value}) else Marks({}, {})
    else if n.VariableStatement? then
      var init := Initializer(n);
      if init.Some? && !IsPure(init.value) then Marks({init.value}, {}) else Marks({}, {})
    else Marks({n}, {})
  }

  /** `forEachChild(root, rootVisitor)`: the roots of every child, joined. */
  function RootsOf(t: Bindings, cs: seq<Node>, ghost owner: Node): Marks
    requires t.Valid()
    requires forall c :: c in cs ==> (owner decreases to c)
    decreases owner, 0, |cs|
  {
    if cs == [] then Marks({}, {})
    else
      assert cs[0] in cs && forall c :: c in cs[1..] ==> c in cs;
      Join(RootOf(t, cs[0]), RootsOf(t, cs[1..], owner))
  }

  /** The symbol a reachable, non-declaration identifier makes live. */
  function Referenced(t: Bindings, n: Node): (r: Option<nat>)
    requires t.Valid()
    ensures r.Some? ==> r.value < |t.symbols|
  {
    if !Dead(t, n) && n.Identifier? && !Binder.IsDeclarationName(n, t.Parent(n)) && n.id in t.symbolOf
    then Some(t.symbolOf[n.id])
    else None
  }

  /** The children `forEachChild` hands to a marking callback, less those `skip` leaves out. */
  function Marked(cs: seq<Node>, skip: bool): set<Node> {
    set c | c in cs && !(skip && ShouldSkipInBlock(c))
  }

  lemma MarkedStep(cs: seq<Node>, i: nat, skip: bool)
    requires i < |cs|
    ensures Marked(cs[..i + 1], skip) == Marked(cs[..i], skip) + (if skip && ShouldSkipInBlock(cs[i]) then {} else {cs[i]})
  {
    assert cs[..i + 1] == cs[..i] + [cs[i]];
  }

  /**
   * What processing one work item marks live: nothing when it is unreachable; in a
   * block or file the children that are not skipped; in a function its parameters
   * and body; anywhere else every child.
   */
  function Next(t: Bindings, n: Node): set<Node>
    requires t.Valid()
  {
    if Dead(t, n) then {}
    else if n.Block? || n.SourceFile? then Marked(Binder.Children(n), true)
    else if n.FunctionDecl? then Marked(n.parameters, false) + {n.body}
    else Marked(Binder.Children(n), false)
  }

  /**
   * A candidate result of the analysis: it holds the roots, and it is closed under
   * the work-list rules. The analysis computes the least such pair.
   */
  ghost predicate Closed(t: Bindings, roots: Marks, m: set<Node>, l: set<nat>)
    requires t.Valid()
  {
    roots.nodes <= m && roots.symbols <= l
    && (forall n :: n in m ==> Next(t, n) <= m && (Referenced(t, n).Some? ==> Referenced(t, n).value in l))
    && (forall s :: s in l ==> s < |t.symbols| && Elements(t.symbols[s].declarations) <= m)
  }

  /** `liveSymbols` is the least symbol set of a closed pair. */
  ghost predicate IsLiveSet(t: Bindings, root: Node, live: set<nat>)
    requires t.Valid()
  {
    exists m :: Closed(t, RootsOf(t, Binder.Children(root), root), m, live)
      && forall m', l' :: Closed(t, RootsOf(t, Binder.Children(root), root), m', l') ==> m <= m' && live <= l'
  }

  /** The least closed pair is unique, so the live set is a function of the tree and its bindings. */
  lemma LiveSetIsUnique(t: Bindings, root: Node, l1: set<nat>, l2: set<nat>)
    requires t.Valid() && IsLiveSet(t, root, l1) && IsLiveSet(t, root, l2)
    ensures l1 == l2
  {
    var roots := RootsOf(t, Binder.Children(root), root);
    var m1 :| Closed(t, roots, m1, l1)
      && forall m', l' :: Closed(t, roots, m', l') ==> m1 <= m' && l1 <= l';
    var m2 :| Closed(t, roots, m2, l2)
      && forall m', l' :: Closed(t, roots, m', l') ==> m2 <= m' && l2 <= l';
    assert l1 <= l2 && l2 <= l1;
  }

  // ---------------------------------------------------------------------------
  // The nodes the analysis can reach: a finite universe for termination

  function Subtrees(n: Node): set<Node>
    decreases n, 1
  {
    {n} + SubtreesOf(Subnodes(n), n)
  }

  function SubtreesOf(ss: seq<Node>, ghost owner: Node): set<Node>
    requires forall c :: c in ss ==> (owner decreases to c)
    decreases owner, 0, |ss|
  {
    if ss == [] then {}
    else
      assert ss[0] in ss && forall c :: c in ss[1..] ==> c in ss;
      Subtrees(ss[0]) + SubtreesOf(ss[1..], owner)
  }

  function ListSubtrees(ds: seq<Node>): set<Node> {
    if ds == [] then {} else Subtrees(ds[0]) + ListSubtrees(ds[1..])
  }

  function DeclarationSubtrees(syms: seq<Symbol>): set<Node> {
    if syms == [] then {} else ListSubtrees(syms[0].declarations) + DeclarationSubtrees(syms[1..])
  }

  /** Every node of the file and of every symbol's declarations, with everything below them. */
  function Universe(t: Bindings, root: Node): set<Node> {
    Subtrees(root) + DeclarationSubtrees(t.symbols)
  }

  ghost predicate ClosedUnderSubnodes(u: set<Node>) {
    forall n, c :: n in u && c in Subnodes(n) ==> c in u
  }

  lemma {:induction false} SubtreesClosed(x: Node)
    ensures x in Subtrees(x) && ClosedUnderSubnodes(Subtrees(x))
    decreases x, 1
  {
    SubtreesOfClosed(Subnodes(x), x);
    forall c | c in Subnodes(x)
      ensures c in Subtrees(x)
    {
      SubtreesOfMember(Subnodes(x), x, c);
      SubtreesClosed(c);
    }
  }

  lemma {:induction false} SubtreesOfClosed(ss: seq<Node>, owner: Node)
    requires forall c :: c in ss ==> (owner decreases to c)
    ensures ClosedUnderSubnodes(SubtreesOf(ss, owner))
    decreases owner, 0, |ss|
  {
    if ss != [] {
      assert ss[0] in ss && forall c :: c in ss[1..] ==> c in ss;
      SubtreesClosed(ss[0]);
      SubtreesOfClosed(ss[1..], owner);
    }
  }

  lemma {:induction false} SubtreesOfMember(ss: seq<Node>, owner: Node, c: Node)
    requires forall c :: c in ss ==> (owner decreases to c)
    requires c in ss
    ensures Subtrees(c) <= SubtreesOf(ss, owner)
    decreases |ss|
  {
    assert ss[0] in ss && forall c :: c in ss[1..] ==> c in ss;
    if ss[0] != c {
      SubtreesOfMember(ss[1..], owner, c);
    }
  }

  lemma {:induction false} ListSubtreesFacts(ds: seq<Node>)
    ensures Elements(ds) <= ListSubtrees(ds) && ClosedUnderSubnodes(ListSubtrees(ds))
  {
    if ds != [] {
      SubtreesClosed(ds[0]);
      ListSubtreesFacts(ds[1..]);
      assert forall x :: x in ds ==> x == ds[0] || x in ds[1..];
    }
  }

  lemma {:induction false} DeclarationSubtreesFacts(syms: seq<Symbol>)
    ensures forall s :: 0 <= s < |syms| ==> Elements(syms[s].declarations) <= DeclarationSubtrees(syms)
    ensures ClosedUnderSubnodes(DeclarationSubtrees(syms))
  {
    if syms != [] {
      ListSubtreesFacts(syms[0].declarations);
      DeclarationSubtreesFacts(syms[1..]);
      assert forall s :: 1 <= s < |syms| ==> syms[s] == syms[1..][s - 1];
    }
  }

  /** The universe holds the file, every declaration, and everything below either. */
  lemma UniverseFacts(t: Bindings, root: Node)
    ensures root in Universe(t, root)
    ensures ClosedUnderSubnodes(Universe(t, root))
    ensures forall s :: 0 <= s < |t.symbols| ==> Elements(t.symbols[s].declarations) <= Universe(t, root)
  {
    SubtreesClosed(root);
    DeclarationSubtreesFacts(t.symbols);
  }

  /** Everything a work item marks lies below it. */
  lemma NextIsBelow(t: Bindings, n: Node)
    requires t.Valid()
    ensures forall c :: c in Next(t, n) ==> c in Subnodes(n)
  {
    if n.FunctionDecl? {
      assert Subnodes(n) == [n.name] + n.parameters + [n.body];
    }
  }

  /** The roots of a top-level child lie at or below it. */
  lemma {:induction false} RootsAreBelow(t: Bindings, n: Node, u: set<Node>)
    requires t.Valid() && n in u && ClosedUnderSubnodes(u)
    ensures RootOf(t, n).nodes <= u
    decreases n, 1
  {
    if n.SourceFile? {
      RootsOfAreBelow(t, Binder.Children(n), n, u);
    } else if n.VariableStatement? && n.declaration.VariableDeclaration? {
      assert n.declaration in Subnodes(n);
      assert n.declaration.initializer.Some? ==> n.declaration.initializer.value in Subnodes(n.declaration);
    }
  }

  lemma {:induction false} RootsOfAreBelow(t: Bindings, cs: seq<Node>, owner: Node, u: set<Node>)
    requires t.Valid() && forall c :: c in cs ==> (owner decreases to c) && c in u
    requires ClosedUnderSubnodes(u)
    ensures RootsOf(t, cs, owner).nodes <= u
    decreases owner, 0, |cs|
  {
    if cs != [] {
      assert cs[0] in cs && forall c :: c in cs[1..] ==> c in cs;
      RootsAreBelow(t, cs[0], u);
      RootsOfAreBelow(t, cs[1..], owner, u);
    }
  }

  /** The roots of a list are the roots of its elements. */
  lemma {:induction false} RootsOfElements(t: Bindings, cs: seq<Node>, owner: Node, i: nat)
    requires t.Valid() && forall c :: c in cs ==> (owner decreases to c)
    requires i < |cs|
    ensures RootOf(t, cs[i]).nodes <= RootsOf(t, cs, owner).nodes
    ensures RootOf(t, cs[i]).symbols <= RootsOf(t, cs, owner).symbols
    decreases |cs|
  {
    assert cs[0] in cs && forall c :: c in cs[1..] ==> c in cs;
    if i > 0 {
      RootsOfElements(t, cs[1..], owner, i - 1);
    }
  }

  lemma {:induction false} RootsOfCovered(t: Bindings, cs: seq<Node>, owner: Node, m: set<Node>, l: set<nat>)
    requires t.Valid() && forall c :: c in cs ==> (owner decreases to c)
    requires forall i :: 0 <= i < |cs| ==> RootOf(t, cs[i]).nodes <= m && RootOf(t, cs[i]).symbols <= l
    ensures RootsOf(t, cs, owner).nodes <= m && RootsOf(t, cs, owner).symbols <= l
    decreases |cs|
  {
    if cs != [] {
      assert cs[0] in cs && forall c :: c in cs[1..] ==> c in cs;
      assert forall i :: 0 <= i < |cs[1..]| ==> cs[1..][i] == cs[i + 1];
      RootsOfCovered(t, cs[1..], owner, m, l);
    }
  }

  // ---------------------------------------------------------------------------
  // Liveness: the work-list analysis

  /** The state `analyzeLiveness` keeps in its closure. */
  class Liveness {
    const t: Bindings
    ghost const roots: Marks
    ghost const universe: set<Node>
    var liveSymbols: set<nat>
    var visitedNodes: set<Node>
    var workList: seq<Node>

    ghost predicate Valid()
      reads this
    {
      t.Valid()
      && ClosedUnderSubnodes(universe)
      && (forall s :: 0 <= s < |t.symbols| ==> Elements(t.symbols[s].declarations) <= universe)
      && visitedNodes <= universe
      && (forall n :: n in visitedNodes <==> n in workList)
      && |visitedNodes| == |workList|
      && (forall s :: s in liveSymbols ==> s < |t.symbols| && Elements(t.symbols[s].declarations) <= visitedNodes)
    }

    /** Every closed pair contains what has been marked so far. */
    ghost predicate Sound()
      reads this
      requires t.Valid()
    {
      forall m, l :: Closed(t, roots, m, l) ==> visitedNodes <= m && liveSymbols <= l
    }

    constructor (t: Bindings, root: Node)
      requires t.Valid()
      ensures this.t == t && roots == RootsOf(t, Binder.Children(root), root) && universe == Universe(t, root)
      ensures liveSymbols == {} && visitedNodes == {} && workList == []
      ensures Valid() && Sound()
    {
      this.t := t;
      roots := RootsOf(t, Binder.Children(root), root);
      universe := Universe(t, root);
      liveSymbols := {};
      visitedNodes := {};
      workList := [];
      new;
      UniverseFacts(t, root);
    }

    /** `markLive`: enqueue a node the first time it is seen. */
    method MarkLive(n: Node)
      requires Valid() && n in universe
      modifies this
      ensures Valid()
      ensures liveSymbols == old(liveSymbols) && visitedNodes == old(visitedNodes) + {n}
      ensures workList == if n in old(visitedNodes) then old(workList) else old(workList) + [n]
    {
      if n in visitedNodes {
        return;
      }
      visitedNodes := visitedNodes + {n};
      workList := workList + [n];
    }

    /** `forEachChild(current, child => { if (skip && shouldSkipInBlock(child)) return; markLive(child) })`. */
    method MarkChildren(cs: seq<Node>, skip: bool)
      requires Valid() && forall c :: c in cs ==> c in universe
      modifies this
      ensures Valid()
      ensures liveSymbols == old(liveSymbols) && visitedNodes == old(visitedNodes) + Marked(cs, skip)
      ensures old(workList) <= workList
    {
      var i := 0;
      ghost var marked: set<Node> := {};
      assert cs[..0] == [];
      while i < |cs|
        invariant 0 <= i <= |cs| && Valid()
        invariant marked == Marked(cs[..i], skip)
        invariant liveSymbols == old(liveSymbols) && visitedNodes == old(visitedNodes) + marked
        invariant old(workList) <= workList
      {
        MarkedStep(cs, i, skip);
        MarkUnlessSkipped(cs[i], skip);
        marked := marked + (if skip && ShouldSkipInBlock(cs[i]) then {} else {cs[i]});
        i := i + 1;
      }
      assert cs[..i] == cs;
    }

    /** One step of the callback: a child skipped in a block is left alone, any other one is marked. */
    method MarkUnlessSkipped(c: Node, skip: bool)
      requires Valid() && c in universe
      modifies this
      ensures Valid()
      ensures liveSymbols == old(liveSymbols)
      ensures visitedNodes == old(visitedNodes) + (if skip && ShouldSkipInBlock(c) then {} else {c})
      ensures old(workList) <= workList
    {
      if !(skip && ShouldSkipInBlock(c)) {
        MarkLive(c);
      }
    }

    /** `markSymbolLive`: a symbol seen for the first time enqueues all its declarations. */
    method MarkSymbolLive(s: nat)
      requires Valid() && s < |t.symbols|
      modifies this
      ensures Valid()
      ensures liveSymbols == old(liveSymbols) + {s}
      ensures visitedNodes == old(visitedNodes) + (if s in old(liveSymbols) then {} else Elements(t.symbols[s].declarations))
      ensures old(workList) <= workList
    {
      if s in liveSymbols {
        return;
      }
      var decls := t.symbols[s].declarations;
      assert forall c :: c in decls ==> c in Elements(decls);
      MarkChildren(decls, false);
      assert Marked(decls, false) == Elements(decls);
      liveSymbols := liveSymbols + {s};
    }

    /** `rootVisitor`. */
    method RootVisitor(node: Node)
      requires Valid() && node in universe
      requires forall m, l :: Closed(t, roots, m, l) ==> RootOf(t, node).nodes <= m && RootOf(t, node).symbols <= l
      modifies this
      decreases node, 1
      ensures Valid()
      ensures RootOf(t, node).nodes <= visitedNodes && RootOf(t, node).symbols <= liveSymbols
      ensures old(visitedNodes) <= visitedNodes && old(liveSymbols) <= liveSymbols && old(workList) <= workList
      ensures forall m, l :: Closed(t, roots, m, l) && old(visitedNodes) <= m && old(liveSymbols) <= l
                ==> visitedNodes <= m && liveSymbols <= l
    {
      if node.SourceFile? {
        VisitRoots(Binder.Children(node), node);
        return;
      }
      if node.FunctionDecl? {
        if TextOf(node.name) == "main" {
          var symbol := GetSymbolInScope(t, node.name, t.Parent(node));
          if symbol.Some? {
            MarkSymbolLive(symbol.value);
          }
        }
        return;
      }
      if node.VariableStatement? {
        var init := Initializer(node);
        if init.Some? && !IsPure(init.value) {
          assert node.declaration in Subnodes(node);
          assert init.value in Subnodes(node.declaration);
          MarkLive(init.value);
        }
        return;
      }
      MarkLive(node);
    }

    /** `forEachChild(node, rootVisitor)`: the root visitor on each child in turn. */
    method VisitRoots(cs: seq<Node>, ghost owner: Node)
      requires Valid() && forall c :: c in cs ==> (owner decreases to c) && c in universe
      requires forall m, l :: Closed(t, roots, m, l) ==> RootsOf(t, cs, owner).nodes <= m && RootsOf(t, cs, owner).symbols <= l
      modifies this
      decreases owner, 0
      ensures Valid()
      ensures RootsOf(t, cs, owner).nodes <= visitedNodes && RootsOf(t, cs, owner).symbols <= liveSymbols
      ensures old(visitedNodes) <= visitedNodes && old(liveSymbols) <= liveSymbols && old(workList) <= workList
      ensures forall m, l :: Closed(t, roots, m, l) && old(visitedNodes) <= m && old(liveSymbols) <= l
                ==> visitedNodes <= m && liveSymbols <= l
    {
      var i := 0;
      while i < |cs|
        invariant 0 <= i <= |cs| && Valid()
        invariant forall j :: 0 <= j < i ==> RootOf(t, cs[j]).nodes <= visitedNodes && RootOf(t, cs[j]).symbols <= liveSymbols
        invariant old(visitedNodes) <= visitedNodes && old(liveSymbols) <= liveSymbols && old(workList) <= workList
        invariant forall m, l :: Closed(t, roots, m, l) && old(visitedNodes) <= m && old(liveSymbols) <= l
                    ==> visitedNodes <= m && liveSymbols <= l
      {
        VisitRoot(cs, i, owner);
        i := i + 1;
      }
      RootsOfCovered(t, cs, owner, visitedNodes, liveSymbols);
    }

    /** One turn of `VisitRoots`: the root visitor on `cs[i]`, keeping what the earlier turns marked. */
    method VisitRoot(cs: seq<Node>, i: nat, ghost owner: Node)
      requires Valid() && forall c :: c in cs ==> (owner decreases to c) && c in universe
      requires forall m, l :: Closed(t, roots, m, l) ==> RootsOf(t, cs, owner).nodes <= m && RootsOf(t, cs, owner).symbols <= l
      requires i < |cs|
      requires forall j :: 0 <= j < i ==> RootOf(t, cs[j]).nodes <= visitedNodes && RootOf(t, cs[j]).symbols <= liveSymbols
      modifies this
      decreases owner, 0, |cs| - i
      ensures Valid()
      ensures forall j :: 0 <= j <= i ==> RootOf(t, cs[j]).nodes <= visitedNodes && RootOf(t, cs[j]).symbols <= liveSymbols
      ensures old(visitedNodes) <= visitedNodes && old(liveSymbols) <= liveSymbols && old(workList) <= workList
      ensures forall m, l :: Closed(t, roots, m, l) && old(visitedNodes) <= m && old(liveSymbols) <= l
                ==> visitedNodes <= m && liveSymbols <= l
    {
      RootsOfElements(t, cs, owner, i);
      assert cs[i] in cs;
      RootVisitor(cs[i]);
      forall j | 0 <= j < i
        ensures RootOf(t, cs[j]).nodes <= visitedNodes && RootOf(t, cs[j]).symbols <= liveSymbols
      {
        SubsetTrans(RootOf(t, cs[j]).nodes, old(visitedNodes), visitedNodes);
        SubsetTrans(RootOf(t, cs[j]).symbols, old(liveSymbols), liveSymbols);
      }
    }
  }

  /**
   * `analyzeLiveness`: mark the roots, then run the work list until it is empty.
   * The result is the least pair of marked nodes and live symbols closed under the
   * rules, so a symbol is live exactly when the rules force it.
   */
  method AnalyzeLiveness(t: Bindings, root: Node) returns (live: set<nat>, ghost marked: set<Node>)
    requires t.Valid()
    ensures Closed(t, RootsOf(t, Binder.Children(root), root), marked, live)
    ensures forall m, l :: Closed(t, RootsOf(t, Binder.Children(root), root), m, l) ==> marked <= m && live <= l
    ensures IsLiveSet(t, root, live)
  {
    var a := new Liveness(t, root);
    MarkRoots(a, root);
    Propagate(a);
    live, marked := a.liveSymbols, a.visitedNodes;
  }

  /** `forEachChild(root, rootVisitor)`. */
  method MarkRoots(a: Liveness, root: Node)
    requires a.Valid() && a.Sound() && root in a.universe
    requires a.roots == RootsOf(a.t, Binder.Children(root), root)
    modifies a
    ensures a.Valid() && a.Sound()
    ensures a.roots.nodes <= a.visitedNodes && a.roots.symbols <= a.liveSymbols
  {
    forall c | c in Binder.Children(root)
      ensures c in a.universe
    {
      assert c in Subnodes(root);
    }
    a.VisitRoots(Binder.Children(root), root);
  }

  /** The work-list loop: process items in order until none is left. */
  method Propagate(a: Liveness)
    requires a.Valid() && a.Sound()
    requires a.roots.nodes <= a.visitedNodes && a.roots.symbols <= a.liveSymbols
    modifies a
    ensures a.Valid() && a.Sound()
    ensures Closed(a.t, a.roots, a.visitedNodes, a.liveSymbols)
  {
    var t := a.t;
    var head := 0;
    while head < |a.workList|
      invariant 0 <= head <= |a.workList| && a.Valid() && a.Sound()
      invariant a.roots.nodes <= a.visitedNodes && a.roots.symbols <= a.liveSymbols
      invariant forall j :: 0 <= j < head ==>
        Next(t, a.workList[j]) <= a.visitedNodes
        && (Referenced(t, a.workList[j]).Some? ==> Referenced(t, a.workList[j]).value in a.liveSymbols)
      decreases |a.universe| - head
    {
      SubsetSize(a.visitedNodes, a.universe);
      Turn(a, head);
      head := head + 1;
    }
    forall n | n in a.visitedNodes
      ensures Next(t, n) <= a.visitedNodes && (Referenced(t, n).Some? ==> Referenced(t, n).value in a.liveSymbols)
    {
      var j :| 0 <= j < |a.workList| && a.workList[j] == n;
    }
  }

  /** One turn of the loop: process the item at `head`, keeping what the earlier turns established. */
  method Turn(a: Liveness, head: nat)
    requires a.Valid() && a.Sound() && head < |a.workList|
    requires a.roots.nodes <= a.visitedNodes && a.roots.symbols <= a.liveSymbols
    requires forall j :: 0 <= j < head ==>
      Next(a.t, a.workList[j]) <= a.visitedNodes
      && (Referenced(a.t, a.workList[j]).Some? ==> Referenced(a.t, a.workList[j]).value in a.liveSymbols)
    modifies a
    ensures a.Valid() && a.Sound()
    ensures head < |a.workList|
    ensures a.roots.nodes <= a.visitedNodes && a.roots.symbols <= a.liveSymbols
    ensures forall j :: 0 <= j <= head ==>
      Next(a.t, a.workList[j]) <= a.visitedNodes
      && (Referenced(a.t, a.workList[j]).Some? ==> Referenced(a.t, a.workList[j]).value in a.liveSymbols)
  {
    var t := a.t;
    var current := a.workList[head];
    ghost var w0 := a.workList;
    Step(a, current);
    forall j | 0 <= j <= head
      ensures Next(t, a.workList[j]) <= a.visitedNodes
      ensures Referenced(t, a.workList[j]).Some? ==> Referenced(t, a.workList[j]).value in a.liveSymbols
    {
      assert a.workList[j] == w0[j];
    }
  }

  /** One turn of the loop: process a work item that is already marked. */
  method Step(a: Liveness, current: Node)
    requires a.Valid() && a.Sound() && current in a.visitedNodes
    modifies a
    ensures a.Valid() && a.Sound()
    ensures old(a.visitedNodes) <= a.visitedNodes && old(a.liveSymbols) <= a.liveSymbols && old(a.workList) <= a.workList
    ensures Next(a.t, current) <= a.visitedNodes
    ensures Referenced(a.t, current).Some? ==> Referenced(a.t, current).value in a.liveSymbols
  {
    var t := a.t;
    NextIsBelow(t, current);
    if Dead(t, current) {
      return;
    }
    if current.Identifier? && !Binder.IsDeclarationName(current, t.Parent(current)) && current.id in t.symbolOf {
      a.MarkSymbolLive(t.symbolOf[current.id]);
    }
    if current.Block? || current.SourceFile? {
      a.MarkChildren(Binder.Children(current), true);
    } else if current.FunctionDecl? {
      assert Subnodes(current) == [current.name] + current.parameters + [current.body];
      a.MarkChildren(current.parameters, false);
      a.MarkLive(current.body);
    } else {
      a.MarkChildren(Binder.Children(current), false);
    }
  }

  // ---------------------------------------------------------------------------
  // The sweep

  /** `symbol && !liveSymbols?.has(symbol)`; with no analysis yet every symbol counts as unused. */
  predicate Unused(live: Option<set<nat>>, s: Option<nat>) {
    s.Some? && !(live.Some? && s.value in live.value)
  }

  /** A function declaration the sweep removes: its symbol is unused and it is not `main`. */
  predicate UnusedFunction(t: Bindings, live: Option<set<nat>>, n: Node)
    requires t.Valid() && n.FunctionDecl?
  {
    var s := t.Lookup(t.Parent(n), TextOf(n.name));
    Unused(live, s) && t.symbols[s.value].name != "main"
  }

  /** A variable statement whose declared symbol is unused. */
  predicate UnusedLet(t: Bindings, live: Option<set<nat>>, n: Node)
    requires t.Valid() && n.VariableStatement?
  {
    n.declaration.VariableDeclaration?
    && Unused(live, t.Lookup(t.Parent(n), TextOf(n.declaration.name)))
  }

  /** The sweep `visitor`. */
  function Sweep(t: Bindings, live: Option<set<nat>>, node: Node): (r: Visit)
    requires t.Valid()
    ensures r.Drop? ==> Dead(t, node) || node.FunctionDecl? || node.VariableStatement? || node.IfStatement?
    ensures r.Replace? && !node.VariableStatement? && !node.IfStatement? ==> SameShell(r.node, node)
    decreases node
  {
    if Dead(t, node) then Drop
    else if node.FunctionDecl? && UnusedFunction(t, live, node) then Drop
    else if node.VariableStatement? && UnusedLet(t, live, node) then
      var init := Initializer(node);
      if init.None? || IsPure(init.value) then Drop
      else Replace(Node.ExpressionStatement(node.pos, node.end, 0, init.value))
    else
      var v := VisitEachChild(node, (), (c: Node, s: ()) requires (node decreases to c) => (Sweep(t, live, c), s)).0;
      Collapse(v, Outcome(node, v))
  }

  /** After the children: `if (false)` becomes its else branch or nothing, `if (true)` its then branch. */
  function Collapse(v: Visit, visited: Node): (r: Visit)
    ensures r != v ==> visited.IfStatement?
    ensures r != v && r.Replace? ==> r.node == visited.thenStatement || Some(r.node) == visited.elseStatement
    ensures r != v && r.Drop? ==> visited.elseStatement.None?
  {
    if visited.IfStatement? && visited.expression.Kind() == SyntaxKind.FalseKeyword then
      if visited.elseStatement.Some? then Replace(visited.elseStatement.value) else Drop
    else if visited.IfStatement? && visited.expression.Kind() == SyntaxKind.TrueKeyword then
      Replace(visited.thenStatement)
    else v
  }

  /** The sweep `visitor` as `visitEachChild` calls it on the children of `parent`. */
  function SweepVisitor(t: Bindings, live: Option<set<nat>>, parent: Node): (Node, ()) --> (Visit, ())
    requires t.Valid()
  {
    (c: Node, s: ()) requires (parent decreases to c) => (Sweep(t, live, c), s)
  }

  /** The file the pass returns: `visitEachChild(file, visitor)`. */
  function Swept(t: Bindings, live: Option<set<nat>>, file: Node): (r: Node)
    requires t.Valid()
    ensures SameShell(r, file)
  {
    Outcome(file, VisitEachChild(file, (), (c: Node, s: ()) requires (file decreases to c) => (Sweep(t, live, c), s)).0)
  }

  /**
   * The pass instance: liveness is computed on the first source file it sees and
   * kept for every later call, as the closure variable is.
   */
  class DeadCodePass {
    var liveSymbols: Option<set<nat>>

    constructor ()
      ensures liveSymbols.None?
    {
      liveSymbols := None;
    }

    method Apply(t: Bindings, node: Node) returns (r: Node)
      requires t.Valid()
      modifies this
      ensures old(liveSymbols).Some? || !node.SourceFile? ==> liveSymbols == old(liveSymbols)
      ensures old(liveSymbols).None? && node.SourceFile? ==> liveSymbols.Some? && IsLiveSet(t, node, liveSymbols.value)
      ensures r == Swept(t, liveSymbols, node)
    {
      if node.SourceFile? && liveSymbols.None? {
        var live, marked := AnalyzeLiveness(t, node);
        liveSymbols := Some(live);
      }
      r := Swept(t, liveSymbols, node);
    }
  }

  // ---------------------------------------------------------------------------
  // Properties of the sweep

  /**
   * A statement of a reachable block or file whose flow node is unreachable is
   * dropped: the swept statements are the ones before it and the ones after it,
   * each swept. The visitor itself returns `undefined` for it, so in a single-child
   * position the original node stays.
   */
  lemma UnreachableIsDropped(t: Bindings, live: Option<set<nat>>, parent: Node, front: seq<Node>, x: Node, back: seq<Node>)
    requires t.Valid() && (parent.Block? || parent.SourceFile?) && !Dead(t, parent)
    requires parent.statements == front + [x] + back && Dead(t, x)
    ensures var visitor := SweepVisitor(t, live, parent);
      var swept := Outcome(parent, Sweep(t, live, parent));
      && Sweep(t, live, x) == Drop && Outcome(x, Sweep(t, live, x)) == x
      && (forall c :: c in front || c in back ==> c in parent.statements)
      && (swept.Block? || swept.SourceFile?) && swept.Block? == parent.Block?
      && swept.statements == Filtered(front, visitor) + Filtered(back, visitor)
  {
    var visitor := (c: Node, s: ()) requires (parent decreases to c) => (Sweep(t, live, c), s);
    assert x in parent.statements;
    assert forall c :: c in front || c in back ==> c in parent.statements;
    assert Sweep(t, live, x) == Drop;
    assert visitor(x, ()).0 == Drop;
    SweptStatements(t, live, parent);
    FilteredSkips(front, x, back, visitor);
  }

  /**
   * Binding a block or file gives the statement right after a `return` an
   * unreachable flow, so when the block or file itself is reachable the sweep
   * leaves that statement out.
   */
  lemma StatementAfterReturnIsSwept(st: Binder.BState, live: Option<set<nat>>, parent: Node, i: nat)
    requires Binder.Ready(st, parent) && (parent.Block? || parent.SourceFile?)
    requires i + 1 < |parent.statements| && parent.statements[i].ReturnStatement?
    ensures var t := Binder.BindSpec(st, parent).t;
      t.Valid() && Dead(t, parent.statements[i + 1])
      && (!Dead(t, parent) ==>
            var visitor := SweepVisitor(t, live, parent);
            Outcome(parent, Sweep(t, live, parent)).statements
            == Filtered(parent.statements[..i + 1], visitor) + Filtered(parent.statements[i + 2..], visitor))
  {
    var t := Binder.BindSpec(st, parent).t;
    BinderFacts.StatementAfterReturnUnreachable(st, parent, i);
    if !Dead(t, parent) {
      var cs := parent.statements;
      assert cs == cs[..i + 1] + [cs[i + 1]] + cs[i + 2..];
      UnreachableIsDropped(t, live, parent, cs[..i + 1], cs[i + 1], cs[i + 2..]);
    }
  }

  /** A reachable block or file is swept to one of its kind holding its filtered statements. */
  lemma SweptStatements(t: Bindings, live: Option<set<nat>>, parent: Node)
    requires t.Valid() && (parent.Block? || parent.SourceFile?) && !Dead(t, parent)
    ensures var visitor := SweepVisitor(t, live, parent);
      var swept := Outcome(parent, Sweep(t, live, parent));
      && (swept.Block? || swept.SourceFile?) && swept.Block? == parent.Block?
      && swept.statements == Filtered(parent.statements, visitor)
  {
    var visitor := (c: Node, s: ()) requires (parent decreases to c) => (Sweep(t, live, c), s);
    var v := VisitEachChild(parent, (), visitor).0;
    assert Sweep(t, live, parent) == Collapse(v, Outcome(parent, v)) == v;
    ListVisitIsFiltered(parent.statements, visitor);
  }

  /** A reachable function is removed exactly when its symbol is unused and it is not named `main`. */
  lemma UnusedFunctionIsDropped(t: Bindings, live: Option<set<nat>>, n: Node)
    requires t.Valid() && n.FunctionDecl? && !Dead(t, n)
    ensures Sweep(t, live, n) == Drop <==> UnusedFunction(t, live, n)
    ensures !UnusedFunction(t, live, n) ==> SameShell(Outcome(n, Sweep(t, live, n)), n)
  {
  }

  /**
   * The sweep never loses an effect: a reachable unused let it removes has no
   * initializer or one that cannot have an effect, and a let whose initializer may
   * have an effect is replaced by an expression statement of that very initializer,
   * at the let's position.
   */
  lemma UnusedLetIsRemoved(t: Bindings, live: Option<set<nat>>, n: Node)
    requires t.Valid() && n.VariableStatement? && !Dead(t, n) && UnusedLet(t, live, n)
    ensures var init := n.declaration.initializer;
      Sweep(t, live, n) == Drop ==> init.None? || !MayHaveEffect(init.value)
    ensures var init := n.declaration.initializer;
      init.Some? && MayHaveEffect(init.value) ==>
        Sweep(t, live, n) == Replace(Node.ExpressionStatement(n.pos, n.end, 0, init.value))
  {
    var init := n.declaration.initializer;
    if init.Some? && IsPure(init.value) {
      PureHasNoEffect(init.value);
    }
  }

  /** A reachable `if` on literal `false` leaves its else branch, or nothing; on `true` its then branch. */
  lemma ConstantIfCollapses(t: Bindings, live: Option<set<nat>>, n: Node)
    requires t.Valid() && n.IfStatement? && !Dead(t, n)
    requires n.expression.Kind() in {SyntaxKind.TrueKeyword, SyntaxKind.FalseKeyword}
    ensures var visitor := (c: Node, s: ()) requires (n decreases to c) => (Sweep(t, live, c), s);
      var v := Outcome(n, VisitEachChild(n, (), visitor).0);
      && v.IfStatement? && v.thenStatement == Outcome(n.thenStatement, Sweep(t, live, n.thenStatement))
      && (n.expression.Kind() == SyntaxKind.TrueKeyword ==> Sweep(t, live, n) == Replace(v.thenStatement))
      && (n.expression.Kind() == SyntaxKind.FalseKeyword && n.elseStatement.None? ==> Sweep(t, live, n) == Drop)
      && (n.expression.Kind() == SyntaxKind.FalseKeyword && n.elseStatement.Some? ==>
            Sweep(t, live, n) == Replace(Outcome(n.elseStatement.value, Sweep(t, live, n.elseStatement.value))))
  {
    var visitor := (c: Node, s: ()) requires (n decreases to c) => (Sweep(t, live, c), s);
    IfRebuilt(n, visitor);
    ExpressionKeepsKind(t, live, n.expression);
  }

  /** Literals and tokens have no children, so the sweep leaves a reachable one as it is. */
  lemma ExpressionKeepsKind(t: Bindings, live: Option<set<nat>>, e: Node)
    requires t.Valid() && e.Kind() in {SyntaxKind.TrueKeyword, SyntaxKind.FalseKeyword}
    ensures Outcome(e, Sweep(t, live, e)).Kind() == e.Kind()
  {
  }

  /**
   * The statements of the swept file are the swept statements in order, with the
   * dropped ones left out.
   */
  lemma SweptFile(t: Bindings, live: Option<set<nat>>, file: Node)
    requires t.Valid() && file.SourceFile?
    ensures var visitor := (c: Node, s: ()) requires (file decreases to c) => (Sweep(t, live, c), s);
      Swept(t, live, file).SourceFile? && Swept(t, live, file).statements == Filtered(file.statements, visitor)
  {
    var visitor := (c: Node, s: ()) requires (file decreases to c) => (Sweep(t, live, c), s);
    ListVisitIsFiltered(file.statements, visitor);
  }

  /** A file whose top-level statements are all functions other than `main` has no roots, so nothing is live. */
  lemma OnlyFunctionsNothingLive(t: Bindings, file: Node, live: set<nat>)
    requires t.Valid() && file.SourceFile?
    requires forall c :: c in file.statements ==> c.FunctionDecl? && TextOf(c.name) != "main"
    requires IsLiveSet(t, file, live)
    ensures live == {}
  {
    var roots := RootsOf(t, Binder.Children(file), file);
    forall i | 0 <= i < |file.statements|
      ensures RootOf(t, file.statements[i]) == Marks({}, {})
    {
      assert file.statements[i] in file.statements;
    }
    RootsOfCovered(t, file.statements, file, {}, {});
    assert Closed(t, roots, {}, {});
  }

  /**
   * Minifying a file made only of functions nobody calls, none named `main`, removes
   * every statement: the pass leaves an empty file.
   */
  lemma UncalledFunctionsAreRemoved(t: Bindings, file: Node, live: set<nat>)
    requires t.Valid() && file.SourceFile?
    requires forall c :: c in file.statements ==> c.FunctionDecl? && TextOf(c.name) != "main"
    requires forall c :: c in file.statements ==> t.Lookup(t.Parent(c), TextOf(c.name)).Some?
    requires IsLiveSet(t, file, live)
    ensures Swept(t, Some(live), file).SourceFile? && Swept(t, Some(live), file).statements == []
  {
    OnlyFunctionsNothingLive(t, file, live);
    var visitor := (c: Node, s: ()) requires (file decreases to c) => (Sweep(t, Some(live), c), s);
    SweptFile(t, Some(live), file);
    AllDropped(file.statements, visitor);
  }

  lemma {:induction false} AllDropped(nodes: seq<Node>, visitor: (Node, ()) --> (Visit, ()))
    requires forall c, s :: c in nodes ==> visitor.requires(c, s) && visitor(c, s).0 == Drop
    ensures Filtered(nodes, visitor) == []
  {
    if nodes != [] {
      assert forall c :: c in nodes[1..] ==> c in nodes;
      AllDropped(nodes[1..], visitor);
    }
  }
}
