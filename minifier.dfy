/**
 * The minifier's pass list (src/minifier.ts) and how `compile` runs it ahead of
 * the user's plugins (src/compiler.ts), through `transform` (src/transformer.ts).
 *
 * A pass is one of the three minifier passes or a plugin, whose behaviour is an
 * arbitrary function on trees. The dead-code pass keeps its liveness in an object
 * made afresh for every run, so one run of the pass list depends on nothing but
 * the tree and its bindings.
 */
module Minifier {
  import opened Ast
  import opened Transformer
  import ConstantFolding
  import DeadCode
  import Rename

  datatype Pass = Folding | DeadCodeElimination | Renaming | Plugin(transform: Node -> Node)

  /** `createMinifierTransformers`: folding, then dead-code elimination, then renaming. */
  function CreateMinifierTransformers(): (r: seq<Pass>)
    ensures |r| == 3 && forall p :: p in r ==> !p.Plugin?
  {
    [Folding, DeadCodeElimination, Renaming]
  }

  /** The list `compile` hands to `transform`: the minifier's passes first when minifying, then the plugins. */
  function Transformers(minify: bool, plugins: seq<Pass>): (r: seq<Pass>)
    requires forall p :: p in plugins ==> p.Plugin?
    ensures |r| == (if minify then 3 else 0) + |plugins|
    ensures r[|r| - |plugins|..] == plugins
    ensures forall i, j :: 0 <= i < j < |r| && r[i].Plugin? ==> r[j].Plugin?
    ensures minify <==> exists p :: p in r && !p.Plugin?
  {
    if minify then
      var r := CreateMinifierTransformers() + plugins;
      assert r[0] == Folding && r[3..] == plugins;
      assert forall i :: 0 <= i < |r| ==> (r[i].Plugin? <==> i >= 3);
      r
    else plugins
  }

  /** The live set of a source file, when it has one. */
  ghost function LiveSet(t: Bindings, file: Node): (live: set<nat>)
    requires t.Valid() && exists live :: DeadCode.IsLiveSet(t, file, live)
    ensures DeadCode.IsLiveSet(t, file, live)
  {
    var live :| DeadCode.IsLiveSet(t, file, live); live
  }

  /**
   * What one pass makes of `file`. The dead-code pass on a source file sweeps with
   * the live set of that file (the least closed one, which is unique); `None` only
   * if there were none, which the analysis rules out.
   */
  ghost function PassOutput(t: Bindings, p: Pass, file: Node): (r: Option<Node>)
    requires t.Valid()
    ensures r.None? ==> p.DeadCodeElimination? && file.SourceFile?
  {
    match p
    case Folding => Some(ConstantFolding.Folded(file))
    case DeadCodeElimination =>
      if !file.SourceFile? then Some(DeadCode.Swept(t, None, file))
      else if exists live :: DeadCode.IsLiveSet(t, file, live) then Some(DeadCode.Swept(t, Some(LiveSet(t, file)), file))
      else None
    case Renaming => Some(Rename.Renamed(t, file))
    case Plugin(f) => Some(f(file))
  }

  /** What running `passes` in order makes of `file`. */
  ghost function Run(t: Bindings, file: Node, passes: seq<Pass>): (r: Option<Node>)
    requires t.Valid()
    ensures r.None? ==> exists i :: 0 <= i < |passes| && passes[i].DeadCodeElimination?
    decreases |passes|
  {
    if passes == [] then Some(file)
    else
      var mid := Run(t, file, passes[..|passes| - 1]);
      if mid.None? then None else PassOutput(t, passes[|passes| - 1], mid.value)
  }

  /** The dead-code pass sweeps with any live set of the file: they are all the same one. */
  lemma SweepUsesTheLiveSet(t: Bindings, file: Node, live: set<nat>)
    requires t.Valid() && file.SourceFile? && DeadCode.IsLiveSet(t, file, live)
    ensures PassOutput(t, DeadCodeElimination, file) == Some(DeadCode.Swept(t, Some(live), file))
  {
    DeadCode.LiveSetIsUnique(t, file, live, LiveSet(t, file));
  }

  /**
   * One pass, with a fresh dead-code pass object: `transformerFactory(context)` then
   * `transformer(file)`. Its result depends on nothing but its inputs.
   */
  method RunPass(t: Bindings, p: Pass, file: Node) returns (out: Node)
    requires t.Valid()
    ensures PassOutput(t, p, file) == Some(out)
  {
    match p
    case Folding =>
      out := ConstantFolding.Folded(file);
    case DeadCodeElimination =>
      var pass := new DeadCode.DeadCodePass();
      out := pass.Apply(t, file);
      if file.SourceFile? {
        SweepUsesTheLiveSet(t, file, pass.liveSymbols.value);
      }
    case Renaming =>
      out := Rename.Renamed(t, file);
    case Plugin(f) =>
      out := f(file);
  }

  /** `transform` over a pass list: the file is threaded through the passes in order. */
  method Transform(t: Bindings, file: Node, passes: seq<Pass>) returns (out: Node)
    requires t.Valid()
    ensures Run(t, file, passes) == Some(out)
  {
    out := file;
    for i := 0 to |passes|
      invariant Run(t, file, passes[..i]) == Some(out)
    {
      var next := RunPass(t, passes[i], out);
      assert passes[..i + 1][..i] == passes[..i];
      out := next;
    }
    assert passes[..|passes|] == passes;
  }

  /** Running `a + b` is running `a`, then running `b` on what `a` left. */
  lemma {:induction false} RunConcat(t: Bindings, file: Node, a: seq<Pass>, b: seq<Pass>)
    requires t.Valid()
    ensures var mid := Run(t, file, a);
      Run(t, file, a + b) == if mid.None? then None else Run(t, mid.value, b)
    decreases |b|
  {
    if b == [] {
      assert a + b == a;
    } else {
      var b' := b[..|b| - 1];
      assert (a + b)[..|a + b| - 1] == a + b';
      assert (a + b)[|a + b| - 1] == b[|b| - 1];
      RunConcat(t, file, a, b');
    }
  }

  /** Running one more pass after `passes`. */
  lemma RunSnoc(t: Bindings, file: Node, passes: seq<Pass>, p: Pass)
    requires t.Valid()
    ensures var mid := Run(t, file, passes);
      Run(t, file, passes + [p]) == if mid.None? then None else PassOutput(t, p, mid.value)
  {
    assert (passes + [p])[..|passes|] == passes;
  }

  /** Running three passes is running them one after the other. */
  lemma RunThree(t: Bindings, file: Node, a: Pass, b: Pass, c: Pass)
    requires t.Valid()
    ensures var r1 := PassOutput(t, a, file);
      var r2 := if r1.None? then None else PassOutput(t, b, r1.value);
      Run(t, file, [a, b, c]) == if r2.None? then None else PassOutput(t, c, r2.value)
  {
    RunSnoc(t, file, [], a);
    assert [] + [a] == [a];
    RunSnoc(t, file, [a], b);
    assert [a] + [b] == [a, b];
    RunSnoc(t, file, [a, b], c);
    assert [a, b] + [c] == [a, b, c];
  }

  /** The three minifier passes compose: rename what the sweep leaves of the folded file. */
  lemma MinifyComposes(t: Bindings, file: Node, live: set<nat>)
    requires t.Valid() && file.SourceFile?
    requires DeadCode.IsLiveSet(t, ConstantFolding.Folded(file), live)
    ensures var folded := ConstantFolding.Folded(file);
      Run(t, file, CreateMinifierTransformers()) == Some(Rename.Renamed(t, DeadCode.Swept(t, Some(live), folded)))
  {
    ConstantFolding.FoldOther(file);
    RunThree(t, file, Folding, DeadCodeElimination, Renaming);
    SweepUsesTheLiveSet(t, ConstantFolding.Folded(file), live);
  }

  /** A minifier run that succeeds swept the folded file with its live set. */
  lemma MinifiedHasLiveSet(t: Bindings, file: Node)
    requires t.Valid() && file.SourceFile? && Run(t, file, CreateMinifierTransformers()).Some?
    ensures exists live :: DeadCode.IsLiveSet(t, ConstantFolding.Folded(file), live)
  {
    ConstantFolding.FoldOther(file);
    RunThree(t, file, Folding, DeadCodeElimination, Renaming);
  }

  /** With `minify` on, the plugins see the minified file. */
  lemma PluginsRunOnMinifiedFile(t: Bindings, file: Node, plugins: seq<Pass>)
    requires t.Valid() && forall p :: p in plugins ==> p.Plugin?
    ensures var minified := Run(t, file, CreateMinifierTransformers());
      Run(t, file, Transformers(true, plugins)) == if minified.None? then None else Run(t, minified.value, plugins)
  {
    RunConcat(t, file, CreateMinifierTransformers(), plugins);
  }

  /** The plugin functions, in order. */
  function Functions(passes: seq<Pass>): (r: seq<Node -> Node>)
    requires forall p :: p in passes ==> p.Plugin?
    ensures |r| == |passes| && forall i :: 0 <= i < |passes| ==> r[i] == passes[i].transform
    decreases |passes|
  {
    if passes == [] then []
    else
      var init := passes[..|passes| - 1];
      assert forall p :: p in init ==> p in passes;
      Functions(init) + [passes[|passes| - 1].transform]
  }

  /** Without `minify`, the run is the generic `transform` over the plugins' functions. */
  lemma {:induction false} PluginsOnlyIsTransform(t: Bindings, file: Node, plugins: seq<Pass>)
    requires t.Valid() && forall p :: p in plugins ==> p.Plugin?
    ensures Run(t, file, plugins) == Some(ApplyAll(file, Functions(plugins)))
    decreases |plugins|
  {
    if plugins != [] {
      var init := plugins[..|plugins| - 1];
      var last := plugins[|plugins| - 1];
      assert forall p :: p in init ==> p in plugins;
      PluginsOnlyIsTransform(t, file, init);
      assert Run(t, file, plugins) == PassOutput(t, last, ApplyAll(file, Functions(init)));
      assert Functions(plugins) == Functions(init) + [last.transform];
      ApplyAllSnoc(file, Functions(init), last.transform);
    }
  }

  lemma WithoutMinifyOnlyPlugins(plugins: seq<Pass>)
    requires forall p :: p in plugins ==> p.Plugin?
    ensures Transformers(false, plugins) == plugins
  {
    assert Transformers(false, plugins)[0..] == Transformers(false, plugins);
  }

  /** Folding keeps a function declaration's kind, identity and name. */
  lemma FoldedFunction(f: Node)
    requires f.FunctionDecl? && f.name.Identifier?
    ensures var c := ConstantFolding.Folded(f);
      c.FunctionDecl? && c.id == f.id && c.name == f.name
  {
    var c := ConstantFolding.Folded(f);
    ConstantFolding.FoldOther(f);
    ConstantFolding.FoldOther(f.name);
    assert Subnodes(c)[0] == ConstantFolding.Folded(Subnodes(f)[0]);
  }

  /**
   * Minifying a file whose statements are all functions nobody calls, none named
   * `main`, leaves a source file with no statements.
   */
  lemma UncalledFunctionsMinifyToNothing(t: Bindings, file: Node, out: Node)
    requires t.Valid() && file.SourceFile?
    requires forall c :: c in file.statements ==>
      c.FunctionDecl? && c.name.Identifier? && TextOf(c.name) != "main" && t.Lookup(t.Parent(c), TextOf(c.name)).Some?
    requires Run(t, file, CreateMinifierTransformers()) == Some(out)
    ensures out.SourceFile? && out.statements == []
  {
    MinifiedHasLiveSet(t, file);
    var live :| DeadCode.IsLiveSet(t, ConstantFolding.Folded(file), live);
    MinifyComposes(t, file, live);
    UncalledFunctionsSweepToNothing(t, file, live);
    RenamingKeepsEmptyFile(t, DeadCode.Swept(t, Some(live), ConstantFolding.Folded(file)));
  }

  /** The sweep of the folded file keeps none of those functions. */
  lemma UncalledFunctionsSweepToNothing(t: Bindings, file: Node, live: set<nat>)
    requires t.Valid() && file.SourceFile?
    requires forall c :: c in file.statements ==>
      c.FunctionDecl? && c.name.Identifier? && TextOf(c.name) != "main" && t.Lookup(t.Parent(c), TextOf(c.name)).Some?
    requires DeadCode.IsLiveSet(t, ConstantFolding.Folded(file), live)
    ensures var swept := DeadCode.Swept(t, Some(live), ConstantFolding.Folded(file));
      swept.SourceFile? && swept.statements == []
  {
    var folded := ConstantFolding.Folded(file);
    ConstantFolding.FoldOther(file);
    forall c | c in folded.statements
      ensures c.FunctionDecl? && TextOf(c.name) != "main" && t.Lookup(t.Parent(c), TextOf(c.name)).Some?
    {
      var i :| 0 <= i < |folded.statements| && folded.statements[i] == c;
      FoldedStatement(t, file, i);
    }
    DeadCode.UncalledFunctionsAreRemoved(t, folded, live);
  }

  /** Folding keeps a function statement's identity, name and parent. */
  lemma FoldedStatement(t: Bindings, file: Node, i: nat)
    requires file.SourceFile? && i < |file.statements|
    requires file.statements[i].FunctionDecl? && file.statements[i].name.Identifier?
    ensures ConstantFolding.Folded(file).SourceFile? && |ConstantFolding.Folded(file).statements| == |file.statements|
    ensures var c := ConstantFolding.Folded(file).statements[i];
      c.FunctionDecl? && c.name == file.statements[i].name && t.Parent(c) == t.Parent(file.statements[i])
  {
    ConstantFolding.FoldOther(file);
    FoldedFunction(file.statements[i]);
  }

  lemma RenamingKeepsEmptyFile(t: Bindings, file: Node)
    requires t.Valid() && file.SourceFile? && file.statements == []
    ensures Rename.Renamed(t, file) == file
  {
    var scope := t.Locals(file);
    var st1 := if scope.Some? then Rename.Entered(Rename.Fresh, scope.value) else Rename.Fresh;
    KeepingVisitorKeeps(file, st1, (c: Node, s: Rename.RenameState) requires file decreases to c => Rename.RenameVisit(t, c, s));
  }
}
