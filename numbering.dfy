/**
 * How the parser hands out node ids. A node takes the next free id once all of
 * its children are built, so the ids under a node fill a range that ends with
 * the node's own id, and the children's ranges follow one another in order.
 * `Tiled` says exactly that, without quantifiers; `TiledIsWellNumbered` turns
 * it into `WellNumbered`.
 */
module Numbering {
  import opened Ast

  /** The ids in `n` lie in `[lo, n.id]`, the children's ranges in order and below `n.id`. */
  ghost predicate Tiled(n: Node, lo: nat)
    decreases n, 1
  {
    1 <= lo <= n.id && TiledKids(Subnodes(n), n, lo, n.id)
  }

  /** `TiledList` for the children of `owner` (the owner only serves termination). */
  ghost predicate TiledKids(ss: seq<Node>, owner: Node, lo: nat, hi: nat)
    requires forall c :: c in ss ==> (owner decreases to c)
    decreases owner, 0, |ss|
  {
    if ss == [] then lo <= hi
    else
      assert ss[0] in ss && forall c :: c in ss[1..] ==> c in ss;
      Tiled(ss[0], lo) && TiledKids(ss[1..], owner, ss[0].id + 1, hi)
  }

  /** The nodes of `ss` are tiled one after the other from `lo`, and all below `hi`. */
  ghost predicate TiledList(ss: seq<Node>, lo: nat, hi: nat)
    decreases |ss|
  {
    if ss == [] then lo <= hi
    else Tiled(ss[0], lo) && TiledList(ss[1..], ss[0].id + 1, hi)
  }

  lemma {:induction false} KidsAreList(ss: seq<Node>, owner: Node, lo: nat, hi: nat)
    requires forall c :: c in ss ==> (owner decreases to c)
    ensures TiledKids(ss, owner, lo, hi) == TiledList(ss, lo, hi)
    decreases |ss|
  {
    if ss != [] {
      assert forall c :: c in ss[1..] ==> c in ss;
      KidsAreList(ss[1..], owner, ss[0].id + 1, hi);
    }
  }

  /** A node whose children are tiled below its own id is tiled. */
  lemma Assemble(n: Node, lo: nat)
    requires 1 <= lo && TiledList(Subnodes(n), lo, n.id)
    ensures Tiled(n, lo)
  {
    KidsAreList(Subnodes(n), n, lo, n.id);
    if Subnodes(n) != [] {
      LowBound(Subnodes(n), lo, n.id);
    }
  }

  /** A tiled list starts no lower than `lo` and ends no higher than `hi`. */
  lemma {:induction false} LowBound(ss: seq<Node>, lo: nat, hi: nat)
    requires TiledList(ss, lo, hi)
    ensures lo <= hi
    decreases |ss|
  {
    if ss != [] {
      LowBound(ss[1..], ss[0].id + 1, hi);
    }
  }

  /** A tiled node is tiled from any lower start. */
  lemma {:induction false} Lower(n: Node, lo: nat, lo': nat)
    requires Tiled(n, lo) && 1 <= lo' <= lo
    ensures Tiled(n, lo')
    decreases n
  {
    var ss := Subnodes(n);
    KidsAreList(ss, n, lo, n.id);
    KidsAreList(ss, n, lo', n.id);
    if ss != [] {
      assert ss[0] in ss;
      Lower(ss[0], lo, lo');
    }
  }

  /** Appending a node tiled right after a list. */
  lemma {:induction false} Snoc(ss: seq<Node>, c: Node, lo: nat, mid: nat)
    requires 1 <= lo && TiledList(ss, lo, mid) && Tiled(c, mid)
    ensures TiledList(ss + [c], lo, c.id + 1)
    decreases |ss|
  {
    if ss == [] {
      assert ss + [c] == [c] && [c][1..] == [];
      Lower(c, mid, lo);
    } else {
      assert (ss + [c])[1..] == ss[1..] + [c];
      Snoc(ss[1..], c, ss[0].id + 1, mid);
    }
  }

  /** A tiled list stays tiled under a higher bound. */
  lemma {:induction false} Widen(ss: seq<Node>, lo: nat, hi: nat, hi': nat)
    requires TiledList(ss, lo, hi) && hi <= hi'
    ensures TiledList(ss, lo, hi')
    decreases |ss|
  {
    if ss != [] {
      Widen(ss[1..], ss[0].id + 1, hi, hi');
    }
  }

  /** One tiled node, and two in a row. */
  lemma One(a: Node, lo: nat)
    requires Tiled(a, lo)
    ensures TiledList([a], lo, a.id + 1)
  {
    assert [a][1..] == [];
  }

  lemma Two(a: Node, b: Node, lo: nat)
    requires Tiled(a, lo) && Tiled(b, a.id + 1)
    ensures TiledList([a, b], lo, b.id + 1)
  {
    One(a, lo);
    Snoc([a], b, lo, a.id + 1);
    assert [a] + [b] == [a, b];
  }

  /** A list followed by an optional node tiled after it. */
  lemma Optional(ss: seq<Node>, o: Option<Node>, lo: nat, mid: nat, hi: nat)
    requires 1 <= lo && TiledList(ss, lo, mid) && mid <= hi
    requires o.Some? ==> Tiled(o.value, mid) && o.value.id < hi
    ensures TiledList(ss + Opt(o), lo, hi)
  {
    if o.Some? {
      Snoc(ss, o.value, lo, mid);
      Widen(ss + [o.value], lo, o.value.id + 1, hi);
    } else {
      assert ss + [] == ss;
      Widen(ss, lo, mid, hi);
    }
  }

  /** The ids of a tiled node lie in `[lo, n.id]` and it is well numbered. */
  lemma {:induction false} TiledIsWellNumbered(n: Node, lo: nat)
    requires Tiled(n, lo)
    ensures WellNumbered(n) && forall i :: i in Ids(n) ==> lo <= i <= n.id
    decreases n, 1
  {
    KidsWellNumbered(Subnodes(n), n, lo, n.id);
  }

  lemma {:induction false} KidsWellNumbered(ss: seq<Node>, owner: Node, lo: nat, hi: nat)
    requires forall c :: c in ss ==> (owner decreases to c)
    requires TiledKids(ss, owner, lo, hi)
    ensures WellNumberedList(ss, owner) && forall i :: i in IdsOf(ss, owner) ==> lo <= i < hi
    decreases owner, 0, |ss|
  {
    if ss != [] {
      assert ss[0] in ss && forall c :: c in ss[1..] ==> c in ss;
      TiledIsWellNumbered(ss[0], lo);
      KidsWellNumbered(ss[1..], owner, ss[0].id + 1, hi);
    }
  }
}
