/** Path guards: for each block a formula saying that control can be there. */
module PathGen {
  import opened Bits
  import opened Ir
  import opened Dominance
  import opened References
  import opened Smt
  import opened Ledger
  import opened ValueGen
  import opened Wrappers

  /** Without a dominator tree back edges are dropped; with one, a block that has an incoming
      back edge takes the guard of the nearest common dominator of its predecessors. */
  datatype Mode = Forward | Dominator(tree: DomTree)

  ghost predicate ModeOk(f: Function, mode: Mode) {
    mode.Dominator? ==> IsDomTree(f, mode.tree) && TreeShaped(mode.tree)
  }

  predicate HasBackedge(f: Function, b: Block)
    requires b < |f.blocks|
  {
    exists i | 0 <= i < |f.blocks[b].preds| :: IsBackedge(f, f.blocks[b].preds[i], b)
  }

  // ------------------------------------------------------------------ common dominators

  ghost function CommonDominator(f: Function, dt: DomTree, preds: seq<Block>, k: nat): (d: Block)
    requires |dt.idom| == |f.blocks| && TreeShaped(dt)
    requires 0 < k <= |preds| && forall i | 0 <= i < k :: preds[i] < |f.blocks|
    ensures d < |f.blocks|
  {
    if k == 1 then preds[0]
    else
      AncestorsInRange(dt, CommonDominator(f, dt, preds, k - 1), preds[k - 1]);
      NearestCommonDominator(dt, CommonDominator(f, dt, preds, k - 1), preds[k - 1])
  }

  lemma {:induction false} AncestorsInRange(dt: DomTree, a: Block, b: Block)
    requires TreeShaped(dt) && a < |dt.idom| && b < |dt.idom|
    ensures NearestCommonDominator(dt, a, b) < |dt.idom|
    decreases b
  {
    if b !in Ancestors(dt, a) {
      RootIsAncestor(dt, a);
      AncestorsInRange(dt, a, dt.idom[b]);
    }
  }

  lemma PredecessorsInRange(f: Function, b: Block)
    requires WellFormed(f) && b < |f.blocks|
    ensures forall i | 0 <= i < |f.blocks[b].preds| ::
              IsEdge(f, f.blocks[b].preds[i], b) && f.blocks[b].preds[i] in f.blocks[b].preds
    ensures b > 0 ==> |f.blocks[b].preds| > 0
  {
    assert BlockOk(f, b);
    forall i | 0 <= i < |f.blocks[b].preds|
      ensures IsEdge(f, f.blocks[b].preds[i], b)
    {
      assert f.blocks[b].preds[i] in f.blocks[b].preds;
    }
  }

  method FindCommonDominator(f: Function, dt: DomTree, b: Block) returns (dom: Block)
    requires WellFormed(f) && IsDomTree(f, dt) && TreeShaped(dt) && 0 < b < |f.blocks|
    ensures dom == dt.idom[b]
    ensures forall p | p in f.blocks[b].preds :: Dominates(f, dom, p)
    ensures forall c: Block | forall p | p in f.blocks[b].preds :: Dominates(f, c, p) :: Dominates(f, c, dom)
  {
    PredecessorsInRange(f, b);
    var preds := f.blocks[b].preds;
    dom := preds[0];
    DominatesReflexive(f, dom);
    var i := 1;
    while i < |preds|
      invariant 1 <= i <= |preds| && dom < |f.blocks|
      invariant dom == CommonDominator(f, dt, preds, i)
    {
      AncestorsInRange(dt, dom, preds[i]);
      dom := NearestCommonDominator(dt, dom, preds[i]);
      i := i + 1;
    }
    CommonDominatorIsImmediate(f, dt, b);
  }

  lemma {:induction false} CommonDominatorIsNearest(f: Function, dt: DomTree, preds: seq<Block>, k: nat)
    requires WellFormed(f) && IsDomTree(f, dt) && TreeShaped(dt)
    requires 0 < k <= |preds| && forall i | 0 <= i < k :: preds[i] < |f.blocks|
    ensures var d := CommonDominator(f, dt, preds, k);
            && (forall i | 0 <= i < k :: Dominates(f, d, preds[i]))
            && (forall c | forall i | 0 <= i < k :: Dominates(f, c, preds[i]) :: Dominates(f, c, d))
  {
    if k == 1 {
      DominatesReflexive(f, preds[0]);
    } else {
      CommonDominatorIsNearest(f, dt, preds, k - 1);
      var before, d := CommonDominator(f, dt, preds, k - 1), CommonDominator(f, dt, preds, k);
      NearestCommonDominatorCorrect(f, dt, before, preds[k - 1]);
      forall i | 0 <= i < k - 1
        ensures Dominates(f, d, preds[i])
      {
        DominatesTransitive(f, d, before, preds[i]);
      }
    }
  }

  /** The nearest common dominator of a block's predecessors is the block's immediate dominator. */
  lemma CommonDominatorIsImmediate(f: Function, dt: DomTree, b: Block)
    requires WellFormed(f) && IsDomTree(f, dt) && TreeShaped(dt) && 0 < b < |f.blocks|
    ensures |f.blocks[b].preds| > 0 && dt.idom[b] < b
    ensures forall i | 0 <= i < |f.blocks[b].preds| :: f.blocks[b].preds[i] < |f.blocks|
    ensures CommonDominator(f, dt, f.blocks[b].preds, |f.blocks[b].preds|) == dt.idom[b]
    ensures forall p | p in f.blocks[b].preds :: Dominates(f, dt.idom[b], p)
    ensures forall c | forall p | p in f.blocks[b].preds :: Dominates(f, c, p) :: Dominates(f, c, dt.idom[b])
  {
    PredecessorsInRange(f, b);
    var preds := f.blocks[b].preds;
    CommonDominatorIsNearest(f, dt, preds, |preds|);
    var d, i := CommonDominator(f, dt, preds, |preds|), dt.idom[b];
    assert IsImmediateDominator(f, i, b);
    forall p | p in preds
      ensures Dominates(f, i, p)
    {
      DominatesPredecessor(f, i, p, b);
    }
    DominatesJoin(f, d, b);
    DominatorIsEarlier(f, i, d);
    DominatorIsEarlier(f, d, i);
  }

  // ------------------------------------------------------------------ guards, without the cache

  ghost function Guard(f: Function, mode: Mode, b: Block): (e: Expr)
    requires WellFormed(f) && ModeOk(f, mode) && b < |f.blocks|
    ensures BvWidth(e) == 1
    decreases b, 1, 0
  {
    if b == 0 then TRUE
    else if mode.Dominator? && HasBackedge(f, b) then
      CommonDominatorIsImmediate(f, mode.tree, b);
      Guard(f, mode, mode.tree.idom[b])
    else AnyOf(Arrivals(f, mode, b, |f.blocks[b].preds|))
  }

  lemma DominatorsGuard(f: Function, mode: Mode, b: Block)
    requires WellFormed(f) && ModeOk(f, mode) && mode.Dominator? && 0 < b < |f.blocks| && HasBackedge(f, b)
    ensures mode.tree.idom[b] < b && Guard(f, mode, b) == Guard(f, mode, mode.tree.idom[b])
  {
    CommonDominatorIsImmediate(f, mode.tree, b);
  }

  /** Arrivals from the first `k` predecessors, over edges that are not back edges. */
  ghost function Arrivals(f: Function, mode: Mode, b: Block, k: nat): (es: seq<Expr>)
    requires WellFormed(f) && ModeOk(f, mode) && b < |f.blocks| && k <= |f.blocks[b].preds|
    ensures forall e | e in es :: BvWidth(e) == 1
    decreases b, 0, k
  {
    if k == 0 then []
    else
      var p, before := f.blocks[b].preds[k - 1], Arrivals(f, mode, b, k - 1);
      if IsBackedge(f, p, b) then before
      else
        PredecessorsInRange(f, b);
        ForwardEdgeIncreases(f, p, b);
        before + [BvAnd(EdgeGuard(f, p, b), Guard(f, mode, p))]
  }

  lemma ArrivalsStep(f: Function, mode: Mode, b: Block, k: nat)
    requires WellFormed(f) && ModeOk(f, mode) && b < |f.blocks| && k < |f.blocks[b].preds|
    ensures var p := f.blocks[b].preds[k];
      AnyOf(Arrivals(f, mode, b, k + 1)) ==
        if IsBackedge(f, p, b) then AnyOf(Arrivals(f, mode, b, k))
        else
          (PredecessorsInRange(f, b);
           ForwardEdgeIncreases(f, p, b);
           BvOr(AnyOf(Arrivals(f, mode, b, k)), BvAnd(EdgeGuard(f, p, b), Guard(f, mode, p))))
  {
    var p := f.blocks[b].preds[k];
    if !IsBackedge(f, p, b) {
      PredecessorsInRange(f, b);
      ForwardEdgeIncreases(f, p, b);
      AnyOfExtend(Arrivals(f, mode, b, k), BvAnd(EdgeGuard(f, p, b), Guard(f, mode, p)));
    }
  }

  lemma ForwardEdgeIncreases(f: Function, p: Block, b: Block)
    requires WellFormed(f) && IsEdge(f, p, b) && !IsBackedge(f, p, b)
    ensures p < b
  {
    assert BlockOk(f, b);
    assert p in f.blocks[b].preds;
  }

  ghost function EdgeGuard(f: Function, p: Block, b: Block): (e: Expr)
    requires WellFormed(f) && b < |f.blocks| && p in f.blocks[b].preds
    ensures BvWidth(e) == 1
  {
    assert BlockOk(f, b);
    BvAnd(TermGuard(f, p, b), AllOf(PhiEquations(f, p, b, |f.blocks[b].phis|)))
  }

  /** The terminator of `p` goes to `b`. */
  ghost function TermGuard(f: Function, p: Block, b: Block): (e: Expr)
    requires WellFormed(f) && IsEdge(f, p, b)
    ensures BvWidth(e) == 1
  {
    assert BlockOk(f, p);
    match f.blocks[p].term
    case CondBr(c, yes, _) => if yes == b then Formula(f, c) else BvNot(Formula(f, c))
    case Switch(c, default, cases) =>
      if default != b then AnyOf(CaseConditions(f, c, cases, Some(b), |cases|))
      else BvNot(AnyOf(CaseConditions(f, c, cases, None, |cases|)))
    case _ => TRUE
  }

  /** The condition equals a case constant, for those of the first `k` cases that lead to `only`. */
  ghost function CaseConditions(f: Function, c: Value, cases: seq<Case>, only: Option<Block>, k: nat): (es: seq<Expr>)
    requires WellFormed(f) && IsAnalyzable(f, c)
    requires k <= |cases| && forall i | 0 <= i < |cases| :: IsAnalyzable(f, cases[i].value)
    ensures forall e | e in es :: BvWidth(e) == 1
  {
    if k == 0 then []
    else
      var before := CaseConditions(f, c, cases, only, k - 1);
      if only.None? || only.value == cases[k - 1].dest then
        before + [BvEq(Formula(f, c), Formula(f, cases[k - 1].value))]
      else before
  }

  /** A phi constrains the valuation unless what it receives is undefined or not an integer. */
  predicate Constrains(f: Function, p: Block, v: Value)
    requires v < |f.values| && f.values[v].def.Phi?
    requires p in f.values[v].def.incoming && f.values[v].def.incoming[p] < |f.values|
  {
    var x := f.values[v].def.incoming[p];
    !f.values[x].def.Undef? && f.values[x].analyzable
  }

  /** Each of the first `k` phis that constrains equals what it receives from `p`. */
  ghost function PhiEquations(f: Function, p: Block, b: Block, k: nat): (es: seq<Expr>)
    requires WellFormed(f) && b < |f.blocks| && p in f.blocks[b].preds && k <= |f.blocks[b].phis|
    ensures forall e | e in es :: BvWidth(e) == 1
  {
    if k == 0 then []
    else
      assert BlockOk(f, b) && PhiOk(f, b, f.blocks[b].phis[k - 1]);
      var before, v := PhiEquations(f, p, b, k - 1), f.blocks[b].phis[k - 1];
      if Constrains(f, p, v) then before + [BvEq(Formula(f, v), Formula(f, f.values[v].def.incoming[p]))]
      else before
  }

  lemma PhiEquationsStep(f: Function, p: Block, b: Block, k: nat)
    requires WellFormed(f) && b < |f.blocks| && p in f.blocks[b].preds && k < |f.blocks[b].phis|
    requires PhiOk(f, b, f.blocks[b].phis[k])
    ensures var v := f.blocks[b].phis[k];
      AllOf(PhiEquations(f, p, b, k + 1)) ==
        if Constrains(f, p, v) then
          BvAnd(AllOf(PhiEquations(f, p, b, k)), BvEq(Formula(f, v), Formula(f, f.values[v].def.incoming[p])))
        else AllOf(PhiEquations(f, p, b, k))
  {
    var v := f.blocks[b].phis[k];
    if Constrains(f, p, v) {
      AnyOfExtend(PhiEquations(f, p, b, k), BvEq(Formula(f, v), Formula(f, f.values[v].def.incoming[p])));
    }
  }

  // ------------------------------------------------------------------ the generator

  class PathGen {
    const f: Function
    const mode: Mode
    const vg: ValueGen
    var cache: map<Block, Expr>

    constructor (vg: ValueGen, mode: Mode)
      requires vg.Valid() && ModeOk(vg.f, mode)
      ensures this.vg == vg && this.f == vg.f && this.mode == mode && cache == map[]
      ensures Valid()
      ensures forall y :: External(y) == vg.External(y)
    {
      this.vg, this.f, this.mode, cache := vg, vg.f, mode, map[];
      new;
      forall y ensures Entries(cache, y) == 0 { NoEntries(cache, y); }
    }

    /** References held by neither of the two caches. */
    ghost function External(e: Expr): int
      reads this, vg, vg.smt
    {
      vg.External(e) - Entries(cache, e)
    }

    ghost predicate Valid()
      reads this, vg, vg.smt
    {
      && vg.Valid() && vg.f == f && ModeOk(f, mode)
      && (forall b | b in cache :: b < |f.blocks| && cache[b] == Guard(f, mode, b) && Vars(cache[b]) <= vg.cache.Keys)
      && (forall y :: Entries(cache, y) <= vg.External(y))
    }

    lemma CachedIsLive(b: Block)
      requires Valid() && b in cache
      ensures Count(vg.smt.refs, cache[b]) > 0
    {
      EntryCounts(cache, b);
      assert vg.External(cache[b]) > 0;
    }

    /** A new reference handed out by the generator of values leaves the guards in order. */
    twostate lemma Moved(e: Expr)
      requires old(Valid()) && unchanged(this) && vg.Valid() && vg.cache.Keys >= old(vg.cache.Keys)
      requires forall y :: vg.External(y) == old(vg.External(y)) + One(y == e)
      ensures Valid()
      ensures forall y :: External(y) == old(External(y)) + One(y == e)
    {
      forall y
        ensures External(y) == old(External(y)) + One(y == e)
        ensures Entries(cache, y) <= vg.External(y)
      {
        assert vg.External(y) == old(vg.External(y)) + One(y == e);
      }
    }

    method Get(b: Block) returns (g: Expr)
      requires Valid() && b < |f.blocks|
      modifies this, vg, vg.smt
      ensures Valid() && g == Guard(f, mode, b) && Count(vg.smt.refs, g) > 0 && Vars(g) <= vg.cache.Keys
      ensures forall y :: External(y) == old(External(y))
      ensures cache.Keys >= old(cache.Keys) && vg.cache.Keys >= old(vg.cache.Keys)
      ensures forall x | x in cache && x !in old(cache) :: x <= b
      decreases b, 1
    {
      if b in cache {
        g := cache[b];
        CachedIsLive(b);
        return;
      }
      if b == 0 {
        g := OwnEntry();
      } else if mode.Dominator? && HasBackedge(f, b) {
        var dom := FindCommonDominator(f, mode.tree, b);
        DominatorsGuard(f, mode, b);
        g := Get(dom);
        return;
      } else {
        g := Disjunction(b);
      }
      Store(b, g);
    }

    method OwnEntry() returns (g: Expr)
      requires Valid()
      modifies vg.smt`refs
      ensures Valid() && g == TRUE
      ensures forall y :: External(y) == old(External(y)) + One(y == g)
    {
      g := OwnTrue(vg);
      Moved(g);
    }

    /** Record a new guard; the cache takes over the caller's reference to it. */
    method Store(b: Block, g: Expr)
      requires Valid() && b < |f.blocks| && b !in cache && g == Guard(f, mode, b) && Vars(g) <= vg.cache.Keys
      requires forall y :: One(y == g) <= External(y)
      modifies this
      ensures Valid() && cache == old(cache)[b := g] && Count(vg.smt.refs, g) > 0
      ensures forall y :: External(y) + One(y == g) == old(External(y))
    {
      Insert(cache, b, g);
      cache := cache[b := g];
      forall y
        ensures Entries(cache, y) <= vg.External(y)
        ensures External(y) + One(y == g) == old(External(y))
      {
        assert old(External(y)) >= One(y == g);
      }
      assert vg.External(g) > 0;
    }

    /** The disjunction over the predecessors; the caller owns the reference. */
    method Disjunction(b: Block) returns (g: Expr)
      requires Valid() && 0 < b < |f.blocks| && b !in cache
      requires mode.Dominator? ==> !HasBackedge(f, b)
      modifies this, vg, vg.smt
      ensures Valid() && g == Guard(f, mode, b) && Vars(g) <= vg.cache.Keys
      ensures forall y :: External(y) == old(External(y)) + One(y == g)
      ensures cache.Keys >= old(cache.Keys) && vg.cache.Keys >= old(vg.cache.Keys)
      ensures forall x | x in cache && x !in old(cache) :: x < b
      decreases b, 0, 1
    {
      g := vg.smt.MakeConst(1, 0);
      var i := 0;
      while i < |f.blocks[b].preds|
        invariant i <= |f.blocks[b].preds|
        invariant Valid() && g == AnyOf(Arrivals(f, mode, b, i)) && Vars(g) <= vg.cache.Keys
        invariant forall y :: External(y) == old(External(y)) + One(y == g)
        invariant cache.Keys >= old(cache.Keys) && vg.cache.Keys >= old(vg.cache.Keys)
        invariant forall x | x in cache && x !in old(cache) :: x < b
      {
        g := AddPredecessor(b, i, g);
        i := i + 1;
      }
    }

    /** Join the arrival from predecessor number `i`, unless over a back edge, to those before it. */
    method AddPredecessor(b: Block, i: nat, before: Expr) returns (g: Expr)
      requires Valid() && b < |f.blocks| && i < |f.blocks[b].preds| && (mode.Dominator? ==> !HasBackedge(f, b))
      requires before == AnyOf(Arrivals(f, mode, b, i)) && Vars(before) <= vg.cache.Keys
      requires forall y :: One(y == before) <= External(y)
      modifies this, vg, vg.smt
      ensures Valid() && g == AnyOf(Arrivals(f, mode, b, i + 1)) && Vars(g) <= vg.cache.Keys
      ensures forall y :: External(y) + One(y == before) == old(External(y)) + One(y == g)
      ensures cache.Keys >= old(cache.Keys) && vg.cache.Keys >= old(vg.cache.Keys)
      ensures forall x | x in cache && x !in old(cache) :: x < b
      decreases b, 0, 0
    {
      var p := f.blocks[b].preds[i];
      PredecessorsInRange(f, b);
      ArrivalsStep(f, mode, b, i);
      g := before;
      if mode.Dominator? || !IsBackedge(f, p, b) {
        ForwardEdgeIncreases(f, p, b);
        var br := Arrival(p, b);
        g := Join(BinaryOp.Or, before, br);
      }
    }

    /** Control comes to `b` over the edge from `p`; the caller owns the reference. */
    method Arrival(p: Block, b: Block) returns (br: Expr)
      requires Valid() && b < |f.blocks| && p in f.blocks[b].preds && p < b
      modifies this, vg, vg.smt
      ensures Valid() && br == BvAnd(EdgeGuard(f, p, b), Guard(f, mode, p)) && Vars(br) <= vg.cache.Keys
      ensures forall y :: External(y) == old(External(y)) + One(y == br)
      ensures cache.Keys >= old(cache.Keys) && vg.cache.Keys >= old(vg.cache.Keys)
      ensures forall x | x in cache && x !in old(cache) :: x < b
      decreases p, 2
    {
      assert BlockOk(f, b);
      var edge := GetEdgeGuard(vg, p, b);
      Moved(edge);
      var g := Get(p);
      br := JoinCached(edge, g);
    }

    /** Apply a connective to two formulas the caller owns, and release both. */
    method Join(op: BinaryOp, l: Expr, r: Expr) returns (e: Expr)
      requires Valid() && forall y :: One(y == l) + One(y == r) <= External(y)
      modifies vg.smt`refs
      ensures Valid() && e == Bin(op, l, r)
      ensures forall y :: External(y) + One(y == l) + One(y == r) == old(External(y)) + One(y == e)
    {
      forall y ensures One(y == l) + One(y == r) <= vg.External(y) { assert External(y) >= One(y == l) + One(y == r); }
      e := Combine(vg, op, l, r);
      forall y
        ensures External(y) + One(y == l) + One(y == r) == old(External(y)) + One(y == e)
      {
        assert vg.External(y) + One(y == l) + One(y == r) == old(vg.External(y)) + One(y == e);
      }
      forall y ensures Entries(cache, y) <= vg.External(y) { assert External(y) >= 0; }
    }

    /** Conjoin a formula the caller owns, which is released, with one that is in a cache. */
    method JoinCached(l: Expr, g: Expr) returns (e: Expr)
      requires Valid() && External(l) > 0 && Count(vg.smt.refs, g) > 0
      modifies vg.smt`refs
      ensures Valid() && e == BvAnd(l, g)
      ensures forall y :: External(y) + One(y == l) == old(External(y)) + One(y == e)
    {
      assert vg.External(l) > 0;
      e := ConjoinCached(vg, l, g);
      forall y
        ensures Entries(cache, y) <= vg.External(y)
        ensures External(y) + One(y == l) == old(External(y)) + One(y == e)
      {
        assert vg.External(y) + One(y == l) == old(vg.External(y)) + One(y == e);
        assert old(External(y)) >= One(y == l);
      }
    }

    /** The destructor gives back one reference per entry. */
    method Dispose()
      requires Valid()
      modifies this, vg.smt`refs
      ensures vg.Valid() && forall y :: vg.External(y) == old(External(y))
    {
      while cache != map[]
        invariant Valid() && forall y :: External(y) == old(External(y))
        decreases |cache|
      {
        assert cache.Keys != {};
        var b :| b in cache.Keys;
        Evict(b);
      }
      forall y
        ensures vg.External(y) == old(External(y))
      {
        NoEntries(cache, y);
        assert External(y) == old(External(y));
      }
    }

    method Evict(b: Block)
      requires Valid() && b in cache
      modifies this, vg.smt`refs
      ensures Valid() && cache == old(cache) - {b}
      ensures forall y :: External(y) == old(External(y))
    {
      Remove(cache, b);
      EntryCounts(cache, b);
      var e := cache[b];
      assert vg.External(e) > 0;
      cache := cache - {b};
      vg.smt.Decref(e);
      forall y
        ensures Entries(cache, y) <= vg.External(y)
        ensures External(y) == old(External(y))
      {
        assert old(vg.External(y)) == vg.External(y) + One(y == e);
      }
    }
  }

  /** Apply a connective to two formulas the caller owns, and release both. */
  method Combine(vg: ValueGen, op: BinaryOp, l: Expr, r: Expr) returns (e: Expr)
    requires vg.Valid() && forall y :: One(y == l) + One(y == r) <= vg.External(y)
    modifies vg.smt`refs
    ensures vg.Valid() && e == Bin(op, l, r)
    ensures forall y :: vg.External(y) + One(y == l) + One(y == r) == old(vg.External(y)) + One(y == e)
  {
    forall y
      ensures One(y == l) + One(y == r) <= Count(vg.smt.refs, y)
    {
      assert vg.External(y) <= Count(vg.smt.refs, y);
    }
    e := Fuse(vg.smt, op, l, r);
    forall y
      ensures vg.External(y) + One(y == l) + One(y == r) == old(vg.External(y)) + One(y == e)
      ensures Entries(vg.cache, y) <= Count(vg.smt.refs, y)
    {
      assert old(vg.External(y)) >= One(y == l) + One(y == r);
    }
  }

  method Fuse(smt: Solver, op: BinaryOp, l: Expr, r: Expr) returns (e: Expr)
    requires forall y :: One(y == l) + One(y == r) <= Count(smt.refs, y)
    modifies smt`refs
    ensures e == Bin(op, l, r)
    ensures forall y :: Count(smt.refs, y) + One(y == l) + One(y == r) == old(Count(smt.refs, y)) + One(y == e)
  {
    assert Count(smt.refs, l) > 0 && Count(smt.refs, r) > 0;
    e := smt.MakeBinary(op, l, r);
    smt.Decref(l);
    smt.Decref(r);
  }

  /** Conjoin a formula the caller owns, which is released, with one that is in a cache. */
  method ConjoinCached(vg: ValueGen, l: Expr, g: Expr) returns (e: Expr)
    requires vg.Valid() && vg.External(l) > 0 && Count(vg.smt.refs, g) > 0
    modifies vg.smt`refs
    ensures vg.Valid() && e == BvAnd(l, g)
    ensures forall y :: vg.External(y) + One(y == l) == old(vg.External(y)) + One(y == e)
  {
    e := vg.smt.MakeBinary(BinaryOp.And, l, g);
    vg.Acquired(e);
    label Made:
    vg.smt.Decref(l);
    vg.Released@Made(l);
  }

  method Negate(vg: ValueGen, x: Expr) returns (e: Expr)
    requires vg.Valid() && vg.External(x) > 0
    modifies vg.smt`refs
    ensures vg.Valid() && e == BvNot(x)
    ensures forall y :: vg.External(y) + One(y == x) == old(vg.External(y)) + One(y == e)
  {
    e := vg.smt.MakeNot(x);
    vg.Acquired(e);
    label Made:
    vg.smt.Decref(x);
    vg.Released@Made(x);
  }

  method GetEdgeGuard(vg: ValueGen, p: Block, b: Block) returns (e: Expr)
    requires vg.Valid() && b < |vg.f.blocks| && p in vg.f.blocks[b].preds
    modifies vg, vg.smt
    ensures vg.Valid() && e == EdgeGuard(vg.f, p, b) && Vars(e) <= vg.cache.Keys
    ensures forall y :: vg.External(y) == old(vg.External(y)) + One(y == e)
    ensures vg.cache.Keys >= old(vg.cache.Keys)
  {
    assert BlockOk(vg.f, b);
    var term := GetTermGuard(vg, p, b);
    var pn := GetPhiGuard(vg, p, b);
    e := Combine(vg, BinaryOp.And, term, pn);
  }

  method GetPhiGuard(vg: ValueGen, p: Block, b: Block) returns (e: Expr)
    requires vg.Valid() && b < |vg.f.blocks| && p in vg.f.blocks[b].preds
    modifies vg, vg.smt
    ensures vg.Valid() && e == AllOf(PhiEquations(vg.f, p, b, |vg.f.blocks[b].phis|)) && Vars(e) <= vg.cache.Keys
    ensures forall y :: vg.External(y) == old(vg.External(y)) + One(y == e)
    ensures vg.cache.Keys >= old(vg.cache.Keys)
  {
    var f := vg.f;
    var phis := f.blocks[b].phis;
    assert BlockOk(f, b);
    e := OwnTrue(vg);
    var i := 0;
    while i < |phis|
      invariant i <= |phis|
      invariant vg.Valid() && e == AllOf(PhiEquations(f, p, b, i)) && Vars(e) <= vg.cache.Keys
      invariant forall y :: vg.External(y) == old(vg.External(y)) + One(y == e)
      invariant vg.cache.Keys >= old(vg.cache.Keys)
    {
      e := AddPhi(vg, p, b, i, e);
      i := i + 1;
    }
  }

  /** Join the equation of phi number `i`, if it constrains, to those before it. */
  method AddPhi(vg: ValueGen, p: Block, b: Block, i: nat, before: Expr) returns (e: Expr)
    requires vg.Valid() && b < |vg.f.blocks| && p in vg.f.blocks[b].preds && i < |vg.f.blocks[b].phis|
    requires before == AllOf(PhiEquations(vg.f, p, b, i)) && Vars(before) <= vg.cache.Keys
    requires forall y :: One(y == before) <= vg.External(y)
    modifies vg, vg.smt
    ensures vg.Valid() && e == AllOf(PhiEquations(vg.f, p, b, i + 1)) && Vars(e) <= vg.cache.Keys
    ensures forall y :: vg.External(y) + One(y == before) == old(vg.External(y)) + One(y == e)
    ensures vg.cache.Keys >= old(vg.cache.Keys)
  {
    var f := vg.f;
    assert BlockOk(f, b) && PhiOk(f, b, f.blocks[b].phis[i]);
    PhiEquationsStep(f, p, b, i);
    var v := f.blocks[b].phis[i];
    var x := f.values[v].def.incoming[p];
    e := before;
    if !f.values[x].def.Undef? && f.values[x].analyzable {
      e := JoinEquality(vg, BinaryOp.And, e, v, x);
    }
  }

  /** Join an equation to a formula the caller owns, which is replaced. */
  method JoinEquality(vg: ValueGen, op: BinaryOp, before: Expr, l: Value, r: Value) returns (e: Expr)
    requires vg.Valid() && IsAnalyzable(vg.f, l) && IsAnalyzable(vg.f, r)
    requires Vars(before) <= vg.cache.Keys && forall y :: One(y == before) <= vg.External(y)
    modifies vg, vg.smt
    ensures vg.Valid() && e == Bin(op, before, BvEq(Formula(vg.f, l), Formula(vg.f, r))) && Vars(e) <= vg.cache.Keys
    ensures forall y :: vg.External(y) + One(y == before) == old(vg.External(y)) + One(y == e)
    ensures vg.cache.Keys >= old(vg.cache.Keys)
  {
    var equation := GetEquality(vg, l, r);
    e := Combine(vg, op, before, equation);
  }

  method GetEquality(vg: ValueGen, l: Value, r: Value) returns (e: Expr)
    requires vg.Valid() && IsAnalyzable(vg.f, l) && IsAnalyzable(vg.f, r)
    modifies vg, vg.smt
    ensures vg.Valid() && e == BvEq(Formula(vg.f, l), Formula(vg.f, r)) && Vars(e) <= vg.cache.Keys
    ensures forall y :: vg.External(y) == old(vg.External(y)) + One(y == e)
    ensures vg.cache.Keys >= old(vg.cache.Keys)
  {
    var L, R := GetBoth(vg, l, r);
    label Found:
    e := vg.smt.MakeCompare(EQ, L, R);
    vg.Acquired@Found(e);
  }

  /** The formulas of two values, which the cache keeps. */
  method GetBoth(vg: ValueGen, l: Value, r: Value) returns (L: Expr, R: Expr)
    requires vg.Valid() && IsAnalyzable(vg.f, l) && IsAnalyzable(vg.f, r)
    modifies vg, vg.smt
    ensures vg.Valid() && L == Formula(vg.f, l) && R == Formula(vg.f, r)
    ensures Count(vg.smt.refs, L) > 0 && Count(vg.smt.refs, R) > 0
    ensures Vars(L) <= vg.cache.Keys && Vars(R) <= vg.cache.Keys
    ensures forall y :: vg.External(y) == old(vg.External(y))
    ensures vg.cache.Keys >= old(vg.cache.Keys)
  {
    L := vg.Get(l);
    R := vg.Get(r);
    assert l in vg.cache && vg.cache[l] == L;
    vg.CachedIsLive(l);
  }

  method GetTermGuard(vg: ValueGen, p: Block, b: Block) returns (e: Expr)
    requires vg.Valid() && IsEdge(vg.f, p, b)
    modifies vg, vg.smt
    ensures vg.Valid() && e == TermGuard(vg.f, p, b) && Vars(e) <= vg.cache.Keys
    ensures forall y :: vg.External(y) == old(vg.External(y)) + One(y == e)
    ensures vg.cache.Keys >= old(vg.cache.Keys)
  {
    assert BlockOk(vg.f, p);
    match vg.f.blocks[p].term {
      case CondBr(c, yes, _) =>
        e := GetCondition(vg, c, yes == b);
      case Switch(c, default, cases) =>
        e := GetSwitchGuard(vg, c, default, cases, b);
      case Br(_) =>
        e := OwnTrue(vg);
      case Indirect(_) =>
        e := OwnTrue(vg);
      case Ret =>
        assert false;
    }
  }

  method OwnTrue(vg: ValueGen) returns (e: Expr)
    requires vg.Valid()
    modifies vg.smt`refs
    ensures vg.Valid() && e == TRUE
    ensures forall y :: vg.External(y) == old(vg.External(y)) + One(y == e)
  {
    e := vg.smt.MakeConst(1, 1);
    vg.Acquired(e);
  }

  /** The condition of a branch or its negation, which the caller owns. */
  method GetCondition(vg: ValueGen, c: Value, positive: bool) returns (e: Expr)
    requires vg.Valid() && IsAnalyzable(vg.f, c)
    modifies vg, vg.smt
    ensures vg.Valid() && e == (if positive then Formula(vg.f, c) else BvNot(Formula(vg.f, c)))
    ensures Vars(e) <= vg.cache.Keys
    ensures forall y :: vg.External(y) == old(vg.External(y)) + One(y == e)
    ensures vg.cache.Keys >= old(vg.cache.Keys)
  {
    e := vg.Get(c);
    label Found:
    vg.smt.Incref(e);
    vg.Acquired@Found(e);
    if !positive {
      e := Negate(vg, e);
    }
  }

  method GetSwitchGuard(vg: ValueGen, c: Value, default: Block, cases: seq<Case>, b: Block) returns (e: Expr)
    requires vg.Valid() && IsAnalyzable(vg.f, c)
    requires forall i | 0 <= i < |cases| :: IsAnalyzable(vg.f, cases[i].value)
    modifies vg, vg.smt
    ensures vg.Valid() && Vars(e) <= vg.cache.Keys
    ensures e == (if default != b then AnyOf(CaseConditions(vg.f, c, cases, Some(b), |cases|))
                  else BvNot(AnyOf(CaseConditions(vg.f, c, cases, None, |cases|))))
    ensures forall y :: vg.External(y) == old(vg.External(y)) + One(y == e)
    ensures vg.cache.Keys >= old(vg.cache.Keys)
  {
    if default != b {
      e := GetAnyCase(vg, c, cases, Some(b));
    } else {
      e := GetAnyCase(vg, c, cases, None);
      assert vg.External(e) > 0;
      e := Negate(vg, e);
    }
  }

  /** Join the equation of case number `i`, if it counts, to those before it. */
  method AddCase(vg: ValueGen, c: Value, cases: seq<Case>, only: Option<Block>, i: nat, before: Expr) returns (e: Expr)
    requires vg.Valid() && IsAnalyzable(vg.f, c) && i < |cases|
    requires forall j | 0 <= j < |cases| :: IsAnalyzable(vg.f, cases[j].value)
    requires before == AnyOf(CaseConditions(vg.f, c, cases, only, i)) && Vars(before) <= vg.cache.Keys
    requires forall y :: One(y == before) <= vg.External(y)
    modifies vg, vg.smt
    ensures vg.Valid() && e == AnyOf(CaseConditions(vg.f, c, cases, only, i + 1)) && Vars(e) <= vg.cache.Keys
    ensures forall y :: vg.External(y) + One(y == before) == old(vg.External(y)) + One(y == e)
    ensures vg.cache.Keys >= old(vg.cache.Keys)
  {
    e := before;
    if only.None? || only.value == cases[i].dest {
      AnyOfExtend(CaseConditions(vg.f, c, cases, only, i), BvEq(Formula(vg.f, c), Formula(vg.f, cases[i].value)));
      e := JoinEquality(vg, BinaryOp.Or, e, c, cases[i].value);
    }
  }

  method GetAnyCase(vg: ValueGen, c: Value, cases: seq<Case>, only: Option<Block>) returns (e: Expr)
    requires vg.Valid() && IsAnalyzable(vg.f, c)
    requires forall i | 0 <= i < |cases| :: IsAnalyzable(vg.f, cases[i].value)
    modifies vg, vg.smt
    ensures vg.Valid() && e == AnyOf(CaseConditions(vg.f, c, cases, only, |cases|)) && Vars(e) <= vg.cache.Keys
    ensures forall y :: vg.External(y) == old(vg.External(y)) + One(y == e)
    ensures vg.cache.Keys >= old(vg.cache.Keys)
  {
    e := vg.smt.MakeConst(1, 0);
    var i := 0;
    while i < |cases|
      invariant i <= |cases|
      invariant vg.Valid() && e == AnyOf(CaseConditions(vg.f, c, cases, only, i)) && Vars(e) <= vg.cache.Keys
      invariant forall y :: vg.External(y) == old(vg.External(y)) + One(y == e)
      invariant vg.cache.Keys >= old(vg.cache.Keys)
    {
      e := AddCase(vg, c, cases, only, i, e);
      i := i + 1;
    }
  }
}
