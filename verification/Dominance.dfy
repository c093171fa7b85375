/** Dominance over a control-flow graph that may loop, and the dominator tree that the path
    generator walks to find the nearest common dominator of a block's predecessors. */
module Dominance {
  import opened Ir

  lemma DominatesReflexive(f: Function, b: Block)
    ensures Dominates(f, b, b)
  {
    forall path | IsPathTo(f, path, b)
      ensures b in path
    {
      assert path[|path| - 1] == b;
    }
  }

  lemma DominatesEntry(f: Function, a: Block)
    requires Dominates(f, a, 0)
    ensures a == 0
  {
    assert IsPathTo(f, [0], 0);
  }

  /** A strict dominator of `b` dominates every predecessor of `b`. */
  lemma DominatesPredecessor(f: Function, a: Block, p: Block, b: Block)
    requires IsEdge(f, p, b) && Dominates(f, a, b) && a != b
    ensures Dominates(f, a, p)
  {
    forall path | IsPathTo(f, path, p)
      ensures a in path
    {
      var longer := path + [b];
      assert forall i | 0 <= i < |longer| - 1 :: IsEdge(f, longer[i], longer[i + 1]);
      assert IsPathTo(f, longer, b);
      assert a in longer;
    }
  }

  lemma DominatesTransitive(f: Function, a: Block, b: Block, c: Block)
    requires Dominates(f, a, b) && Dominates(f, b, c)
    ensures Dominates(f, a, c)
  {
    forall path | IsPathTo(f, path, c)
      ensures a in path
    {
      var i :| 0 <= i < |path| && path[i] == b;
      assert IsPathTo(f, path[..i + 1], b);
      assert a in path[..i + 1];
    }
  }

  /** Every block is reached by a path without back edges, along which names increase. */
  lemma {:induction false} ForwardPath(f: Function, b: Block) returns (path: seq<Block>)
    requires WellFormed(f) && b < |f.blocks|
    ensures IsPathTo(f, path, b)
    ensures forall x | x in path :: x <= b
    ensures forall i | 0 <= i < |path| - 1 :: !IsBackedge(f, path[i], path[i + 1])
  {
    if b == 0 {
      path := [0];
    } else {
      assert BlockOk(f, b);
      var p :| p in f.blocks[b].preds && !IsBackedge(f, p, b);
      var shorter := ForwardPath(f, p);
      path := shorter + [b];
    }
  }

  lemma DominatorIsEarlier(f: Function, a: Block, b: Block)
    requires WellFormed(f) && b < |f.blocks| && Dominates(f, a, b)
    ensures a <= b
  {
    var path := ForwardPath(f, b);
  }

  /** A common dominator of all predecessors of `b` is a strict dominator of `b`, even when some
      of the predecessors lie on loops through `b`. */
  lemma DominatesJoin(f: Function, a: Block, b: Block)
    requires WellFormed(f) && 0 < b < |f.blocks|
    requires forall p | p in f.blocks[b].preds :: Dominates(f, a, p)
    ensures a < b && Dominates(f, a, b)
  {
    assert BlockOk(f, b);
    var p :| p in f.blocks[b].preds && !IsBackedge(f, p, b);
    DominatorIsEarlier(f, a, p);
    forall path | IsPathTo(f, path, b)
      ensures a in path
    {
      var n := |path|;
      assert IsEdge(f, path[n - 2], path[n - 1]);
      assert IsPathTo(f, path[..n - 1], path[n - 2]);
      assert a in path[..n - 1];
    }
  }

  /** A dominator tree: the immediate dominator of every block but the entry. */
  datatype DomTree = DomTree(idom: seq<Block>)

  ghost predicate IsImmediateDominator(f: Function, d: Block, b: Block) {
    && d < b && Dominates(f, d, b)
    && forall a | Dominates(f, a, b) && a != b :: Dominates(f, a, d)
  }

  ghost predicate IsDomTree(f: Function, dt: DomTree) {
    && |dt.idom| == |f.blocks|
    && forall b: Block | 0 < b < |f.blocks| :: IsImmediateDominator(f, dt.idom[b], b)
  }

  predicate TreeShaped(dt: DomTree) {
    forall b | 0 < b < |dt.idom| :: dt.idom[b] < b
  }

  lemma DomTreeIsTreeShaped(f: Function, dt: DomTree)
    requires IsDomTree(f, dt)
    ensures TreeShaped(dt)
  {
    forall b | 0 < b < |dt.idom|
      ensures dt.idom[b] < b
    {
      assert IsImmediateDominator(f, dt.idom[b], b);
    }
  }

  /** The blocks on the tree path from `b` up to the root. */
  function Ancestors(dt: DomTree, b: Block): set<Block>
    requires TreeShaped(dt) && b < |dt.idom|
  {
    if b == 0 then {0} else {b} + Ancestors(dt, dt.idom[b])
  }

  lemma {:induction false} RootIsAncestor(dt: DomTree, b: Block)
    requires TreeShaped(dt) && b < |dt.idom|
    ensures 0 in Ancestors(dt, b)
  {
    if b != 0 {
      RootIsAncestor(dt, dt.idom[b]);
    }
  }

  /** Climb from `b` to the first block that is also an ancestor of `a`. */
  function NearestCommonDominator(dt: DomTree, a: Block, b: Block): Block
    requires TreeShaped(dt) && a < |dt.idom| && b < |dt.idom|
    decreases b
  {
    if b in Ancestors(dt, a) then b
    else RootIsAncestor(dt, a); NearestCommonDominator(dt, a, dt.idom[b])
  }

  /** The tree's ancestors are exactly the dominators. */
  lemma {:induction false} AncestorsAreDominators(f: Function, dt: DomTree, a: Block, b: Block)
    requires WellFormed(f) && IsDomTree(f, dt) && TreeShaped(dt) && b < |f.blocks|
    ensures a in Ancestors(dt, b) <==> Dominates(f, a, b)
    decreases b
  {
    DominatesReflexive(f, b);
    if b == 0 {
      if Dominates(f, a, 0) { DominatesEntry(f, a); }
    } else if a != b {
      assert IsImmediateDominator(f, dt.idom[b], b);
      AncestorsAreDominators(f, dt, a, dt.idom[b]);
      if Dominates(f, a, dt.idom[b]) { DominatesTransitive(f, a, dt.idom[b], b); }
    }
  }

  /** `NearestCommonDominator` is a common dominator that every other one dominates. */
  lemma {:induction false} NearestCommonDominatorCorrect(f: Function, dt: DomTree, a: Block, b: Block)
    requires WellFormed(f) && IsDomTree(f, dt) && TreeShaped(dt) && a < |f.blocks| && b < |f.blocks|
    ensures var d := NearestCommonDominator(dt, a, b);
            && Dominates(f, d, a) && Dominates(f, d, b)
            && forall c | Dominates(f, c, a) && Dominates(f, c, b) :: Dominates(f, c, d)
    decreases b
  {
    AncestorsAreDominators(f, dt, b, a);
    DominatesReflexive(f, b);
    if b !in Ancestors(dt, a) {
      RootIsAncestor(dt, a);
      assert IsImmediateDominator(f, dt.idom[b], b);
      NearestCommonDominatorCorrect(f, dt, a, dt.idom[b]);
      DominatesTransitive(f, NearestCommonDominator(dt, a, dt.idom[b]), dt.idom[b], b);
    }
  }
}
