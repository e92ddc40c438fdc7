/**
 * The identifier-renaming pass (src/transformers/renameIdentifiers.ts).
 *
 * Walking the tree, the pass pushes every scope it enters onto a stack and gives
 * each symbol of that scope that has no new name yet the next short name
 * ("a", "b", ..., "z", "aa", ...). An identifier is looked up by its text in the
 * innermost stacked scope that has it, and is replaced by a fresh identifier
 * carrying its symbol's new name. The stack, the rename map and the counter live
 * in the closure of one run; here they are a `RenameState` value threaded through
 * the visitor calls in the order the source makes them, and each in-place step
 * (push and name, look up, pop) is a method of `Renamer` proved against the
 * function the walk uses.
 */
module Rename {
  import opened Ast
  import opened Transformer
  import Factory
  import opened Seqs

  /* ---------------- getName: bijective base-26 numbering ---------------- */

  /** `chars[d]` for `chars = 'abcdefghijklmnopqrstuvwxyz'`. */
  function Letter(d: nat): (c: char)
    requires d < 26
    ensures 'a' <= c <= 'z' && c as int - 'a' as int == d
  {
    ('a' as int + d) as char
  }

  /** A non-empty word of lower-case letters: the shape of every generated name. */
  predicate IsWord(w: string) {
    |w| >= 1 && forall i :: 0 <= i < |w| ==> 'a' <= w[i] <= 'z'
  }

  /**
   * The name `getName(index)` returns: the last letter is `index % 26`, and what
   * precedes it is the name of `floor(index / 26) - 1` when that is not negative.
   */
  function Name(index: nat): (r: string)
    ensures IsWord(r)
    ensures r[|r| - 1] == Letter(index % 26)
    decreases index
  {
    if index < 26 then [Letter(index)] else Name(index / 26 - 1) + [Letter(index % 26)]
  }

  /** The inverse of `Name`: reads a word as a bijective base-26 numeral. */
  function Index(w: string): nat
    requires IsWord(w)
    decreases |w|
  {
    var d := w[|w| - 1] as int - 'a' as int;
    if |w| == 1 then d
    else
      assert IsWord(w[..|w| - 1]);
      (Index(w[..|w| - 1]) + 1) * 26 + d
  }

  lemma {:induction false} IndexOfName(i: nat)
    ensures Index(Name(i)) == i
    decreases i
  {
    if i >= 26 {
      var w := Name(i);
      var p := Name(i / 26 - 1);
      assert w[..|w| - 1] == p;
      IndexOfName(i / 26 - 1);
    }
  }

  lemma {:induction false} NameOfIndex(w: string)
    requires IsWord(w)
    ensures Name(Index(w)) == w
    decreases |w|
  {
    var d := w[|w| - 1] as int - 'a' as int;
    if |w| == 1 {
      assert w == [Letter(d)];
    } else {
      var p := w[..|w| - 1];
      assert IsWord(p);
      NameOfIndex(p);
      var i := Index(w);
      assert i == (Index(p) + 1) * 26 + d;
      NameOfDigits(Index(p), d);
      assert Name(i) == p + [Letter(d)];
      assert Letter(d) == w[|w| - 1];
      LastSplit(w);
      assert Name(i) == w;
    }
  }

  /** The name of `(q + 1) * 26 + d` is the name of `q` followed by letter `d`. */
  lemma NameOfDigits(q: nat, d: nat)
    requires d < 26
    ensures Name((q + 1) * 26 + d) == Name(q) + [Letter(d)]
  {
    var i := (q + 1) * 26 + d;
    assert i / 26 - 1 == q && i % 26 == d;
  }

  /** Distinct indices give distinct names, and every word is the name of some index. */
  lemma NamesAreDistinct(i: nat, j: nat)
    requires i != j
    ensures Name(i) != Name(j)
  {
    IndexOfName(i);
    IndexOfName(j);
  }

  lemma EveryWordIsAName(w: string)
    requires IsWord(w)
    ensures exists i: nat :: Name(i) == w
  {
    NameOfIndex(w);
  }

  lemma NameExamples()
    ensures Name(0) == "a" && Name(25) == "z"
    ensures Name(26) == "aa" && Name(27) == "ab"
    ensures Name(701) == "zz" && Name(702) == "aaa"
  {
  }

  /** One round of the loop: the name of `i` is the name of what is left, plus one letter. */
  lemma NameStep(i: int)
    requires i >= 0
    ensures Name(i) == (if i / 26 - 1 >= 0 then Name(i / 26 - 1) else "") + [Letter(i % 26)]
  {
  }

  /** `getName`: the do-while loop that prepends one letter per round. */
  method GetName(index: nat) returns (name: string)
    ensures name == Name(index)
  {
    var i: int := index;
    NameStep(i);
    name := [Letter(i % 26)];
    i := i / 26 - 1;
    while i >= 0
      invariant i >= -1
      invariant Name(index) == (if i >= 0 then Name(i) else "") + name
      decreases i + 1
    {
      PrependStep(index, i, name);
      name := [Letter(i % 26)] + name;
      i := i / 26 - 1;
    }
  }

  /** The loop's invariant survives prepending the letter of `i`. */
  lemma PrependStep(index: nat, i: nat, name: string)
    requires Name(index) == Name(i) + name
    ensures Name(index) == (if i / 26 - 1 >= 0 then Name(i / 26 - 1) else "") + ([Letter(i % 26)] + name)
  {
    NameStep(i);
    var rest := if i / 26 - 1 >= 0 then Name(i / 26 - 1) else "";
    Assoc(rest, [Letter(i % 26)], name);
  }

  /* ---------------- the state of one run ---------------- */

  /** `scopeStack`, `symbolRenameMap` (symbol index to new name) and `nameCounter`. */
  datatype RenameState = RenameState(scopeStack: seq<Scope>, renameMap: map<nat, string>, nameCounter: nat)

  /** The state a run starts from. */
  const Fresh := RenameState([], map[], 0)

  /** Every new name is a word numbered below the counter, and no two symbols share one. */
  predicate Good(m: map<nat, string>, counter: nat) {
    (forall s :: s in m ==> IsWord(m[s]) && Index(m[s]) < counter)
    && (forall a, b :: a in m && b in m && a != b ==> m[a] != m[b])
  }

  /** `n` keeps every name `m` gave. */
  predicate Extends(m: map<nat, string>, n: map<nat, string>) {
    forall s :: s in m ==> s in n && n[s] == m[s]
  }

  /**
   * The loop over `currentScope.values()`: each symbol not yet in the map gets
   * `getName(nameCounter++)`. Defined on the prefix named so far, as the loop runs.
   */
  function NameSymbols(m: map<nat, string>, counter: nat, symbols: seq<nat>): (r: (map<nat, string>, nat))
    ensures Extends(m, r.0) && counter <= r.1
    ensures forall s :: s in symbols ==> s in r.0
    ensures forall s :: s in r.0 ==> s in m || s in symbols
    decreases |symbols|
  {
    if symbols == [] then (m, counter)
    else
      var init := symbols[..|symbols| - 1];
      var last := symbols[|symbols| - 1];
      var (m1, c1) := NameSymbols(m, counter, init);
      assert forall s :: s in symbols ==> s in init || s == last;
      if last in m1 then (m1, c1) else (m1[last := Name(c1)], c1 + 1)
  }

  /** One more step of the naming loop. */
  lemma NameSymbolsSnoc(m: map<nat, string>, counter: nat, symbols: seq<nat>, s: nat)
    ensures var r, r' := NameSymbols(m, counter, symbols), NameSymbols(m, counter, symbols + [s]);
      (s in r.0 ==> r' == r) && (s !in r.0 ==> r'.0 == r.0[s := Name(r.1)] && r'.1 == r.1 + 1)
  {
    assert (symbols + [s])[..|symbols|] == symbols;
  }

  lemma {:induction false} NamingKeepsNamesDistinct(m: map<nat, string>, counter: nat, symbols: seq<nat>)
    requires Good(m, counter)
    ensures Good(NameSymbols(m, counter, symbols).0, NameSymbols(m, counter, symbols).1)
    decreases |symbols|
  {
    if symbols != [] {
      var init := symbols[..|symbols| - 1];
      var last := symbols[|symbols| - 1];
      NamingKeepsNamesDistinct(m, counter, init);
      var (m1, c1) := NameSymbols(m, counter, init);
      if last !in m1 {
        IndexOfName(c1);
        var m2 := m1[last := Name(c1)];
        forall a, b | a in m2 && b in m2 && a != b
          ensures m2[a] != m2[b]
        {
          if a == last {
            assert Index(m2[b]) < c1;
          } else if b == last {
            assert Index(m2[a]) < c1;
          }
        }
      }
    }
  }

  /** Entering a scope: push it and name its symbols in insertion order. */
  function Entered(st: RenameState, scope: Scope): (r: RenameState)
    requires scope.Valid()
    ensures r.scopeStack == st.scopeStack + [scope]
    ensures Extends(st.renameMap, r.renameMap) && st.nameCounter <= r.nameCounter
    ensures forall nm :: nm in scope.table ==> scope.table[nm] in r.renameMap
  {
    var (m, c) := NameSymbols(st.renameMap, st.nameCounter, scope.Values());
    assert forall nm :: nm in scope.table ==> scope.table[nm] in scope.Values() by {
      forall nm | nm in scope.table
        ensures scope.table[nm] in scope.Values()
      {
        var i :| 0 <= i < |scope.names| && scope.names[i] == nm;
        assert scope.Values()[i] == scope.table[nm];
      }
    }
    RenameState(st.scopeStack + [scope], m, c)
  }

  /** `scopeStack.pop()`: a no-op on an empty stack. */
  function Exited(st: RenameState): (r: RenameState)
    ensures |st.scopeStack| > 0 ==> r.scopeStack == st.scopeStack[..|st.scopeStack| - 1]
    ensures r.renameMap == st.renameMap && r.nameCounter == st.nameCounter
  {
    if |st.scopeStack| == 0 then st else st.(scopeStack := st.scopeStack[..|st.scopeStack| - 1])
  }

  /** The search from the top of the stack: the symbol of the innermost scope holding `text`. */
  function Find(stack: seq<Scope>, text: string): (r: Option<nat>)
    ensures r.Some? <==> exists i :: 0 <= i < |stack| && text in stack[i].table
    ensures r.Some? ==> exists i :: 0 <= i < |stack| && text in stack[i].table && r.value == stack[i].table[text]
                          && forall j :: i < j < |stack| ==> text !in stack[j].table
    decreases |stack|
  {
    if stack == [] then None
    else if text in stack[|stack| - 1].table then Some(stack[|stack| - 1].table[text])
    else
      var r := Find(stack[..|stack| - 1], text);
      assert forall i :: 0 <= i < |stack| - 1 ==> stack[..|stack| - 1][i] == stack[i];
      r
  }

  /** One turn of the downward search: scope `i` is looked at before the ones below it. */
  lemma FindStep(stack: seq<Scope>, i: nat, text: string)
    requires i < |stack|
    ensures Find(stack[..i + 1], text)
      == if text in stack[i].table then Some(stack[i].table[text]) else Find(stack[..i], text)
  {
    assert stack[..i + 1][..i] == stack[..i];
  }

  /** The text an identifier ends up with: its symbol's new name, if it resolves to a named symbol. */
  function NewText(st: RenameState, text: string): (r: string)
    ensures r != text ==> Find(st.scopeStack, text).Some? && r in st.renameMap.Values
  {
    var sym := Find(st.scopeStack, text);
    if sym.Some? && sym.value in st.renameMap then st.renameMap[sym.value] else text
  }

  /* ---------------- the visitor ---------------- */

  /**
   * The `visitor` closure. A node with `locals` is entered first; an identifier
   * whose new name differs from its text is replaced right away (the scope an
   * identifier never has is then not popped, as in the source); otherwise the
   * children are visited and the scope, if any, is popped.
   */
  function RenameVisit(t: Bindings, node: Node, st: RenameState): (r: (Visit, RenameState))
    requires t.Valid()
    ensures !r.0.Drop?
    ensures r.0.Replace? && !node.Identifier? ==> SameShell(r.0.node, node)
    ensures r.0.Replace? && node.Identifier? ==>
      r.0.node.Identifier? && r.0.node.text != node.text && r.0.node.text in r.1.renameMap.Values
    decreases node
  {
    var scope := t.Locals(node);
    var st1 := if scope.Some? then Entered(st, scope.value) else st;
    var sym := if node.Identifier? then Find(st1.scopeStack, node.text) else None;
    if node.Identifier? && sym.Some? && sym.value in st1.renameMap && st1.renameMap[sym.value] != node.text then
      (Replace(Factory.CreateIdentifier(st1.renameMap[sym.value])), st1)
    else
      var (v, st2) := VisitEachChild(node, st1, (c: Node, s: RenameState) requires node decreases to c => RenameVisit(t, c, s));
      (v, if scope.Some? then Exited(st2) else st2)
  }

  /** One run of the pass from a fresh state: `visitor(node) as Node`. */
  function Renamed(t: Bindings, root: Node): (r: Node)
    requires t.Valid()
    ensures root.Identifier? ==> r.Identifier?
    ensures !root.Identifier? ==> SameShell(r, root)
  {
    Outcome(root, RenameVisit(t, root, Fresh).0)
  }

  /** Identifiers at or below `n` carry no `locals` (the binder gives scopes only to containers). */
  predicate NoIdentifierScopes(t: Bindings, n: Node)
    decreases n
  {
    (n.Identifier? ==> n.id !in t.localsOf)
    && forall c :: c in Subnodes(n) ==> NoIdentifierScopes(t, c)
  }

  /** What one visitor call does to the state: the stack comes back as it was, names are only added, and stay distinct. */
  predicate Kept(a: RenameState, b: RenameState) {
    b.scopeStack == a.scopeStack && Extends(a.renameMap, b.renameMap) && a.nameCounter <= b.nameCounter
    && (Good(a.renameMap, a.nameCounter) ==> Good(b.renameMap, b.nameCounter))
  }

  lemma {:induction false} VisitKeepsState(t: Bindings, node: Node, st: RenameState)
    requires t.Valid() && NoIdentifierScopes(t, node)
    ensures Kept(st, RenameVisit(t, node, st).1)
    decreases node
  {
    var scope := t.Locals(node);
    var st1 := if scope.Some? then Entered(st, scope.value) else st;
    if scope.Some? && Good(st.renameMap, st.nameCounter) {
      assert scope.value.Valid();
      NamingKeepsNamesDistinct(st.renameMap, st.nameCounter, scope.value.Values());
    }
    var sym := if node.Identifier? then Find(st1.scopeStack, node.text) else None;
    if node.Identifier? && sym.Some? && sym.value in st1.renameMap && st1.renameMap[sym.value] != node.text {
      assert scope.None?;
    } else {
      var visitor := (c: Node, s: RenameState) requires node decreases to c => RenameVisit(t, c, s);
      forall c, s | c in Subnodes(node)
        ensures Kept(s, visitor(c, s).1)
      {
        VisitKeepsState(t, c, s);
      }
      StateRelation(node, st1, visitor, Kept);
      var st2 := VisitEachChild(node, st1, visitor).1;
      assert Kept(st1, st2);
      if scope.Some? {
        assert st2.scopeStack == st.scopeStack + [scope.value];
        assert (st.scopeStack + [scope.value])[..|st.scopeStack|] == st.scopeStack;
      }
    }
  }

  /** The rename map after a run gives every symbol it names a distinct word, and the stack is empty again. */
  lemma RunNamesDistinctly(t: Bindings, root: Node)
    requires t.Valid() && NoIdentifierScopes(t, root)
    ensures var st := RenameVisit(t, root, Fresh).1;
      st.scopeStack == [] && Good(st.renameMap, st.nameCounter)
  {
    VisitKeepsState(t, root, Fresh);
  }

  /**
   * An identifier (which has no `locals`) comes out with `NewText`: the new name of
   * the symbol the innermost stacked scope binds its text to, or its own text when
   * no stacked scope has the text; the state is untouched.
   */
  lemma IdentifierTakesNewName(t: Bindings, node: Node, st: RenameState)
    requires t.Valid() && node.Identifier? && node.id !in t.localsOf
    ensures var (v, st') := RenameVisit(t, node, st);
      st' == st && Outcome(node, v).Identifier? && Outcome(node, v).text == NewText(st, node.text)
    ensures Find(st.scopeStack, node.text).None? ==> RenameVisit(t, node, st).0 == Keep
  {
  }

  /**
   * Kinds `visitEachChild` has no case for (calls, member accesses, literals, ...)
   * come back unchanged, with every identifier under them.
   */
  lemma UndescendedKindsAreKept(t: Bindings, node: Node, st: RenameState)
    requires t.Valid() && !HasCase(node) && !node.Identifier?
    ensures RenameVisit(t, node, st).0 == Keep
  {
  }

  /* ---------------- the closure state, updated in place ---------------- */

  /** The variables of one run's closure, updated in place by the visitor's steps. */
  class Renamer {
    var scopeStack: seq<Scope>
    var renameMap: map<nat, string>
    var nameCounter: nat

    function State(): RenameState
      reads this
    {
      RenameState(scopeStack, renameMap, nameCounter)
    }

    /** A run starts with an empty map, a zero counter and an empty stack. */
    constructor ()
      ensures State() == Fresh
    {
      scopeStack := [];
      renameMap := map[];
      nameCounter := 0;
    }

    /** `scopeStack.push(currentScope)` and the naming loop over `currentScope.values()`. */
    method EnterScope(scope: Scope)
      requires scope.Valid()
      modifies this
      ensures State() == Entered(old(State()), scope)
    {
      scopeStack := scopeStack + [scope];
      var symbols := scope.Values();
      ghost var m0, c0 := renameMap, nameCounter;
      var i := 0;
      assert symbols[..0] == [];
      while i < |symbols|
        invariant 0 <= i <= |symbols|
        invariant scopeStack == old(scopeStack) + [scope]
        invariant renameMap == NameSymbols(m0, c0, symbols[..i]).0
        invariant nameCounter == NameSymbols(m0, c0, symbols[..i]).1
      {
        ghost var done := symbols[..i];
        NameSymbolsSnoc(m0, c0, done, symbols[i]);
        NameSymbol(symbols[i]);
        PrefixSnoc(symbols, i);
        i := i + 1;
      }
      WholePrefix(symbols);
    }

    /** One turn of the naming loop: a symbol not yet named gets `getName(nameCounter++)`. */
    method NameSymbol(symbol: nat)
      modifies this
      ensures scopeStack == old(scopeStack)
      ensures symbol in old(renameMap) ==> renameMap == old(renameMap) && nameCounter == old(nameCounter)
      ensures symbol !in old(renameMap) ==>
        renameMap == old(renameMap)[symbol := Name(old(nameCounter))] && nameCounter == old(nameCounter) + 1
    {
      if symbol !in renameMap {
        var newName := GetName(nameCounter);
        nameCounter := nameCounter + 1;
        renameMap := renameMap[symbol := newName];
      }
    }

    /** The `for` loop from the top of the stack down to the first scope that has `text`. */
    method Lookup(text: string) returns (symbol: Option<nat>)
      ensures symbol == Find(scopeStack, text)
    {
      var i := |scopeStack| - 1;
      symbol := None;
      WholePrefix(scopeStack);
      while i >= 0
        invariant -1 <= i < |scopeStack|
        invariant Find(scopeStack, text) == Find(scopeStack[..i + 1], text)
        decreases i + 1
      {
        FindStep(scopeStack, i, text);
        if text in scopeStack[i].table {
          symbol := Some(scopeStack[i].table[text]);
          return;
        }
        i := i - 1;
      }
    }

    /** `scopeStack.pop()`. */
    method ExitScope()
      modifies this
      ensures State() == Exited(old(State()))
    {
      if |scopeStack| > 0 {
        scopeStack := scopeStack[..|scopeStack| - 1];
      }
    }
  }
}
