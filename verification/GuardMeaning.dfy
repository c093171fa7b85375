/** What a path guard says, for an arbitrary valuation of its variables. */
module GuardMeaning {
  import opened Bits
  import opened Ir
  import opened Dominance
  import opened Smt
  import opened Interp
  import opened ValueGen
  import opened PathGen
  import opened Wrappers

  /** The value that a valuation gives to the condition of the terminator of `p`. */
  ghost function Condition(f: Function, p: Block, env: Env): int
    requires WellFormed(f) && p < |f.blocks|
  {
    assert BlockOk(f, p);
    var t := f.blocks[p].term;
    if IsConditional(t) then Eval(Formula(f, t.cond), env) else 0
  }

  /** The one situation the terminator guards overlook: both branch successors are the same
      block, or a switch case shares the default destination. */
  predicate Shadowed(f: Function, t: Terminator, x: int, b: Block) {
    match t
    case CondBr(_, yes, no) => yes == no == b && x != 1
    case Switch(_, default, cases) =>
      default == b && exists i | 0 <= i < |cases| :: cases[i].dest == b && CaseMatches(f, cases[i], x)
    case _ => false
  }

  /** No branch has equal successors and no switch case shares the default destination. */
  predicate Plain(t: Terminator) {
    match t
    case CondBr(_, yes, no) => yes != no
    case Switch(_, default, cases) => forall i | 0 <= i < |cases| :: cases[i].dest != default
    case _ => true
  }

  /** A terminator is plain exactly when no value of its condition is overlooked. */
  lemma PlainIffNeverShadowed(f: Function, p: Block)
    requires WellFormed(f) && p < |f.blocks|
    ensures Plain(f.blocks[p].term) <==> forall x: int, b: Block :: !Shadowed(f, f.blocks[p].term, x, b)
  {
    assert BlockOk(f, p);
    match f.blocks[p].term
    case CondBr(_, yes, _) => assert yes == f.blocks[p].term.ifFalse ==> Shadowed(f, f.blocks[p].term, 0, yes);
    case Switch(_, default, cases) =>
      if i :| 0 <= i < |cases| && cases[i].dest == default {
        assert CaseMatches(f, cases[i], f.values[cases[i].value].def.c);
        assert Shadowed(f, f.blocks[p].term, f.values[cases[i].value].def.c, default);
      }
    case _ =>
  }

  lemma ConstantFormula(f: Function, v: Value, env: Env)
    requires WellFormed(f) && IsAnalyzable(f, v) && f.values[v].def.ConstInt?
    ensures Eval(Formula(f, v), env) == f.values[v].def.c
  {
    assert ValueOk(f, v);
    WrapSmall(f.values[v].width, f.values[v].def.c);
  }

  predicate Selects(f: Function, c: Case, only: Option<Block>, x: int) {
    CaseMatches(f, c, x) && (only.None? || only.value == c.dest)
  }

  ghost predicate CasesOk(f: Function, c: Value, cases: seq<Case>) {
    && IsAnalyzable(f, c)
    && forall i | 0 <= i < |cases| ::
         IsInteger(f, cases[i].value, f.values[c].width) && f.values[cases[i].value].def.ConstInt?
  }

  lemma {:induction false} CaseConditionsMeaning(
      f: Function, c: Value, cases: seq<Case>, only: Option<Block>, k: nat, env: Env)
    requires WellFormed(f) && CasesOk(f, c, cases) && k <= |cases|
    ensures forall i | 0 <= i < |cases| :: IsAnalyzable(f, cases[i].value)
    ensures (exists e :: e in CaseConditions(f, c, cases, only, k) && IsTrue(e, env)) <==>
            exists i | 0 <= i < k :: Selects(f, cases[i], only, Eval(Formula(f, c), env))
  {
    if k != 0 {
      CaseConditionsMeaning(f, c, cases, only, k - 1, env);
      var last := cases[k - 1];
      EqualityMeaning(f, c, last, env);
      var before, after := CaseConditions(f, c, cases, only, k - 1), CaseConditions(f, c, cases, only, k);
      if only.None? || only.value == last.dest {
        var e := BvEq(Formula(f, c), Formula(f, last.value));
        assert after == before + [e];
        AnyTrueExtend(before, e, env);
      }
    }
  }

  lemma EqualityMeaning(f: Function, c: Value, i: Case, env: Env)
    requires WellFormed(f) && IsAnalyzable(f, c) && IsAnalyzable(f, i.value)
    requires f.values[i.value].def.ConstInt?
    ensures IsTrue(BvEq(Formula(f, c), Formula(f, i.value)), env) <==>
            CaseMatches(f, i, Eval(Formula(f, c), env))
  {
    ConstantFormula(f, i.value, env);
  }

  /** The guard of an edge's terminator is true exactly when the terminator goes that way and
      the situation is not the overlooked one. */
  lemma TermGuardMeaning(f: Function, p: Block, b: Block, env: Env)
    requires WellFormed(f) && IsEdge(f, p, b)
    ensures var t, x := f.blocks[p].term, Condition(f, p, env);
            IsTrue(TermGuard(f, p, b), env) <==> Goes(f, t, x, b) && !Shadowed(f, t, x, b)
  {
    assert BlockOk(f, p);
    OneBitWidth();
    match f.blocks[p].term
    case CondBr(c, _, _) => Connectives(Formula(f, c), TRUE, env);
    case Switch(_, _, _) => SwitchGuardMeaning(f, p, b, env);
    case _ =>
  }

  lemma SwitchGuardMeaning(f: Function, p: Block, b: Block, env: Env)
    requires WellFormed(f) && IsEdge(f, p, b) && f.blocks[p].term.Switch?
    ensures var t, x := f.blocks[p].term, Condition(f, p, env);
            IsTrue(TermGuard(f, p, b), env) <==> Goes(f, t, x, b) && !Shadowed(f, t, x, b)
  {
    assert BlockOk(f, p);
    var Switch(c, default, cases) := f.blocks[p].term;
    var only := if default != b then Some(b) else None;
    var conditions := CaseConditions(f, c, cases, only, |cases|);
    CaseConditionsMeaning(f, c, cases, only, |cases|, env);
    AnyOfMeaning(conditions, env);
    Connectives(AnyOf(conditions), TRUE, env);
    SwitchLogic(f, f.blocks[p].term, Eval(Formula(f, c), env), b);
  }

  lemma SwitchLogic(f: Function, t: Terminator, x: int, b: Block)
    requires t.Switch?
    ensures var only := if t.default != b then Some(b) else None;
            var selected := exists i | 0 <= i < |t.cases| :: Selects(f, t.cases[i], only, x);
            (if t.default != b then selected else !selected) <==> Goes(f, t, x, b) && !Shadowed(f, t, x, b)
  {
    var Switch(_, default, cases) := t;
    if default == b {
      if i :| 0 <= i < |cases| && CaseMatches(f, cases[i], x) {
        assert Selects(f, cases[i], None, x);
      }
    } else if i :| 0 <= i < |cases| && CaseMatches(f, cases[i], x) && b == cases[i].dest {
      assert Selects(f, cases[i], Some(b), x);
    }
  }

  ghost predicate PhiAgrees(f: Function, p: Block, b: Block, v: Value, env: Env)
    requires WellFormed(f) && b < |f.blocks| && p in f.blocks[b].preds && PhiOk(f, b, v)
  {
    var x := f.values[v].def.incoming[p];
    !f.values[x].def.Undef? && f.values[x].analyzable ==> Eval(Formula(f, v), env) == Eval(Formula(f, x), env)
  }

  /** The equation of one phi, if it constrains. */
  ghost predicate IsPhiEquation(f: Function, p: Block, b: Block, i: nat, e: Expr)
    requires WellFormed(f) && b < |f.blocks| && p in f.blocks[b].preds && i < |f.blocks[b].phis|
  {
    PhiIsOk(f, b, i);
    var v := f.blocks[b].phis[i];
    Constrains(f, p, v) && e == BvEq(Formula(f, v), Formula(f, f.values[v].def.incoming[p]))
  }

  lemma PhiIsOk(f: Function, b: Block, i: nat)
    requires WellFormed(f) && b < |f.blocks| && i < |f.blocks[b].phis|
    ensures PhiOk(f, b, f.blocks[b].phis[i])
  {
    assert BlockOk(f, b);
  }

  lemma {:induction false} PhiEquationsMembers(f: Function, p: Block, b: Block, k: nat, e: Expr)
    requires WellFormed(f) && b < |f.blocks| && p in f.blocks[b].preds && k <= |f.blocks[b].phis|
    ensures e in PhiEquations(f, p, b, k) <==> exists i | 0 <= i < k :: IsPhiEquation(f, p, b, i, e)
  {
    if k != 0 {
      PhiIsOk(f, b, k - 1);
      PhiEquationsMembers(f, p, b, k - 1, e);
      assert e in PhiEquations(f, p, b, k) <==>
             e in PhiEquations(f, p, b, k - 1) || IsPhiEquation(f, p, b, k - 1, e);
    }
  }

  lemma PhiEquationMeaning(f: Function, p: Block, b: Block, i: nat, e: Expr, env: Env)
    requires WellFormed(f) && b < |f.blocks| && p in f.blocks[b].preds && i < |f.blocks[b].phis|
    requires PhiOk(f, b, f.blocks[b].phis[i]) && IsPhiEquation(f, p, b, i, e)
    ensures IsTrue(e, env) <==> PhiAgrees(f, p, b, f.blocks[b].phis[i], env)
  {
  }

  lemma PhiEquationsMeaning(f: Function, p: Block, b: Block, k: nat, env: Env)
    requires WellFormed(f) && b < |f.blocks| && p in f.blocks[b].preds && k <= |f.blocks[b].phis|
    ensures forall i | 0 <= i < k :: PhiOk(f, b, f.blocks[b].phis[i])
    ensures (forall e :: e in PhiEquations(f, p, b, k) ==> IsTrue(e, env)) <==>
            forall i | 0 <= i < k :: PhiAgrees(f, p, b, f.blocks[b].phis[i], env)
  {
    var es, phis := PhiEquations(f, p, b, k), f.blocks[b].phis;
    forall i | 0 <= i < k
      ensures PhiOk(f, b, phis[i])
      ensures (forall e :: e in es ==> IsTrue(e, env)) ==> PhiAgrees(f, p, b, phis[i], env)
    {
      PhiIsOk(f, b, i);
      if Constrains(f, p, phis[i]) {
        var e := BvEq(Formula(f, phis[i]), Formula(f, f.values[phis[i]].def.incoming[p]));
        assert IsPhiEquation(f, p, b, i, e);
        PhiEquationsMembers(f, p, b, k, e);
        PhiEquationMeaning(f, p, b, i, e, env);
      }
    }
    if forall i | 0 <= i < k :: PhiAgrees(f, p, b, phis[i], env) {
      forall e | e in es
        ensures IsTrue(e, env)
      {
        PhiEquationsMembers(f, p, b, k, e);
        var i :| 0 <= i < k && IsPhiEquation(f, p, b, i, e);
        PhiEquationMeaning(f, p, b, i, e, env);
      }
    }
  }

  /** The valuation lets control pass from `p` to `b`: the terminator goes that way, and every
      phi of `b` equals what it receives. */
  ghost predicate EdgeHolds(f: Function, p: Block, b: Block, env: Env)
    requires WellFormed(f)
  {
    && IsEdge(f, p, b)
    && Goes(f, f.blocks[p].term, Condition(f, p, env), b)
    && !Shadowed(f, f.blocks[p].term, Condition(f, p, env), b)
    && forall v | v in f.blocks[b].phis :: EdgeIsPredecessor(f, p, b, v); PhiAgrees(f, p, b, v, env)
  }

  lemma EdgeIsPredecessor(f: Function, p: Block, b: Block, v: Value)
    requires WellFormed(f) && IsEdge(f, p, b) && v in f.blocks[b].phis
    ensures p in f.blocks[b].preds && PhiOk(f, b, v)
  {
    assert BlockOk(f, b);
  }

  lemma EdgeGuardMeaning(f: Function, p: Block, b: Block, env: Env)
    requires WellFormed(f) && b < |f.blocks| && p in f.blocks[b].preds
    ensures IsTrue(EdgeGuard(f, p, b), env) <==> EdgeHolds(f, p, b, env)
  {
    assert BlockOk(f, b);
    var n := |f.blocks[b].phis|;
    TermGuardMeaning(f, p, b, env);
    PhiEquationsMeaning(f, p, b, n, env);
    AllOfMeaning(PhiEquations(f, p, b, n), env);
    Connectives(TermGuard(f, p, b), AllOf(PhiEquations(f, p, b, n)), env);
  }

  /** Control may come to `b` from `p`, over an edge that is not a back edge. */
  ghost predicate ArrivesFrom(f: Function, mode: Mode, p: Block, b: Block, env: Env)
    requires WellFormed(f) && ModeOk(f, mode) && b < |f.blocks|
  {
    && !IsBackedge(f, p, b) && EdgeHolds(f, p, b, env)
    && (ForwardEdgeIncreases(f, p, b); IsTrue(Guard(f, mode, p), env))
  }

  /** `e` is the formula of arriving from predecessor number `i`, over an edge that is not a
      back edge. */
  ghost predicate IsArrival(f: Function, mode: Mode, b: Block, i: nat, e: Expr)
    requires WellFormed(f) && ModeOk(f, mode) && b < |f.blocks| && i < |f.blocks[b].preds|
  {
    var p := f.blocks[b].preds[i];
    !IsBackedge(f, p, b) &&
    (PredecessorsInRange(f, b); ForwardEdgeIncreases(f, p, b);
     e == BvAnd(EdgeGuard(f, p, b), Guard(f, mode, p)))
  }

  lemma {:induction false} ArrivalsMembers(f: Function, mode: Mode, b: Block, k: nat, e: Expr)
    requires WellFormed(f) && ModeOk(f, mode) && b < |f.blocks| && k <= |f.blocks[b].preds|
    ensures e in Arrivals(f, mode, b, k) <==> exists i | 0 <= i < k :: IsArrival(f, mode, b, i, e)
  {
    if k != 0 {
      ArrivalsMembers(f, mode, b, k - 1, e);
      assert e in Arrivals(f, mode, b, k) <==>
             e in Arrivals(f, mode, b, k - 1) || IsArrival(f, mode, b, k - 1, e);
    }
  }

  lemma ArrivalMeaning(f: Function, mode: Mode, p: Block, b: Block, env: Env)
    requires WellFormed(f) && ModeOk(f, mode) && b < |f.blocks|
    requires p in f.blocks[b].preds && p < b && !IsBackedge(f, p, b)
    ensures IsTrue(BvAnd(EdgeGuard(f, p, b), Guard(f, mode, p)), env) <==> ArrivesFrom(f, mode, p, b, env)
  {
    EdgeGuardMeaning(f, p, b, env);
    Connectives(EdgeGuard(f, p, b), Guard(f, mode, p), env);
  }

  /** The guard of a block that does not fall back: control arrives from some predecessor. */
  lemma DisjunctiveGuardMeaning(f: Function, mode: Mode, b: Block, env: Env)
    requires WellFormed(f) && ModeOk(f, mode) && 0 < b < |f.blocks|
    requires mode.Dominator? ==> forall p | p in f.blocks[b].preds :: (p, b) !in f.backedges
    ensures IsTrue(Guard(f, mode, b), env) <==>
            exists i | 0 <= i < |f.blocks[b].preds| :: ArrivesFrom(f, mode, f.blocks[b].preds[i], b, env)
  {
    var n := |f.blocks[b].preds|;
    var arrivals := Arrivals(f, mode, b, n);
    AnyOfMeaning(arrivals, env);
    PredecessorsInRange(f, b);
    if e :| e in arrivals && IsTrue(e, env) {
      ArrivalsMembers(f, mode, b, n, e);
      var i :| 0 <= i < n && IsArrival(f, mode, b, i, e);
      ArrivalArrives(f, mode, b, i, e, env);
    }
    if i :| 0 <= i < n && ArrivesFrom(f, mode, f.blocks[b].preds[i], b, env) {
      var e := ArrivingFormula(f, mode, b, i, env);
      ArrivalsMembers(f, mode, b, n, e);
    }
  }

  lemma ArrivalArrives(f: Function, mode: Mode, b: Block, i: nat, e: Expr, env: Env)
    requires WellFormed(f) && ModeOk(f, mode) && b < |f.blocks| && i < |f.blocks[b].preds|
    requires IsArrival(f, mode, b, i, e) && IsTrue(e, env)
    ensures ArrivesFrom(f, mode, f.blocks[b].preds[i], b, env)
  {
    PredecessorsInRange(f, b);
    ForwardEdgeIncreases(f, f.blocks[b].preds[i], b);
    ArrivalMeaning(f, mode, f.blocks[b].preds[i], b, env);
  }

  lemma ArrivingFormula(f: Function, mode: Mode, b: Block, i: nat, env: Env) returns (e: Expr)
    requires WellFormed(f) && ModeOk(f, mode) && b < |f.blocks| && i < |f.blocks[b].preds|
    requires ArrivesFrom(f, mode, f.blocks[b].preds[i], b, env)
    ensures IsArrival(f, mode, b, i, e) && IsTrue(e, env)
  {
    var p := f.blocks[b].preds[i];
    PredecessorsInRange(f, b);
    ForwardEdgeIncreases(f, p, b);
    e := BvAnd(EdgeGuard(f, p, b), Guard(f, mode, p));
    ArrivalMeaning(f, mode, p, b, env);
  }

  // ------------------------------------------------------------------ path characterisation

  /** A path from the entry to `b` without back edges, every edge of which holds. */
  ghost predicate HoldsAlong(f: Function, path: seq<Block>, b: Block, env: Env)
    requires WellFormed(f)
  {
    && IsPathTo(f, path, b)
    && forall i | 0 <= i < |path| - 1 ::
         !IsBackedge(f, path[i], path[i + 1]) && EdgeHolds(f, path[i], path[i + 1], env)
  }

  /** Without a dominator tree a guard is true exactly along some path without back edges. */
  lemma {:induction false} ForwardGuardIsPath(f: Function, b: Block, env: Env)
    requires WellFormed(f) && b < |f.blocks|
    ensures IsTrue(Guard(f, Forward, b), env) <==> exists path :: HoldsAlong(f, path, b, env)
  {
    if IsTrue(Guard(f, Forward, b), env) {
      var path := PathOfGuard(f, b, env);
    }
    if path :| HoldsAlong(f, path, b, env) {
      GuardOfPath(f, path, b, env);
    }
  }

  lemma HoldsAlongExtend(f: Function, path: seq<Block>, p: Block, b: Block, env: Env)
    requires WellFormed(f) && HoldsAlong(f, path, p, env)
    requires !IsBackedge(f, p, b) && EdgeHolds(f, p, b, env)
    ensures HoldsAlong(f, path + [b], b, env)
  {
    var longer := path + [b];
    forall i | 0 <= i < |longer| - 1
      ensures !IsBackedge(f, longer[i], longer[i + 1]) && EdgeHolds(f, longer[i], longer[i + 1], env)
    {
      if i < |path| - 1 {
        assert EdgeHolds(f, path[i], path[i + 1], env);
      }
    }
  }

  lemma {:induction false} PathOfGuard(f: Function, b: Block, env: Env) returns (path: seq<Block>)
    requires WellFormed(f) && b < |f.blocks| && IsTrue(Guard(f, Forward, b), env)
    ensures HoldsAlong(f, path, b, env)
  {
    if b == 0 {
      path := [0];
    } else {
      var preds := f.blocks[b].preds;
      DisjunctiveGuardMeaning(f, Forward, b, env);
      var i :| 0 <= i < |preds| && ArrivesFrom(f, Forward, preds[i], b, env);
      ForwardEdgeIncreases(f, preds[i], b);
      var shorter := PathOfGuard(f, preds[i], env);
      HoldsAlongExtend(f, shorter, preds[i], b, env);
      path := shorter + [b];
    }
  }

  lemma {:induction false} GuardOfPath(f: Function, path: seq<Block>, b: Block, env: Env)
    requires WellFormed(f) && b < |f.blocks| && HoldsAlong(f, path, b, env)
    ensures IsTrue(Guard(f, Forward, b), env)
    decreases |path|
  {
    if b == 0 {
      Connectives(TRUE, TRUE, env);
    } else {
      var n := |path|;
      var p := path[n - 2];
      assert EdgeHolds(f, path[n - 2], path[n - 1], env);
      ForwardEdgeIncreases(f, p, b);
      assert HoldsAlong(f, path[..n - 1], p, env);
      GuardOfPath(f, path[..n - 1], p, env);
      assert ArrivesFrom(f, Forward, p, b, env);
      assert BlockOk(f, b) && p in f.blocks[b].preds;
      DisjunctiveGuardMeaning(f, Forward, b, env);
    }
  }

  /** A back edge leads to the block. */
  predicate IsHeader(f: Function, b: Block) {
    b < |f.blocks| && exists p :: p in f.blocks[b].preds && (p, b) in f.backedges
  }

  /** One step of the dominator mode: a header follows its immediate dominator, and any other block
      a predecessor whose edge holds. */
  ghost predicate Follows(f: Function, dt: DomTree, a: Block, b: Block, env: Env)
    requires WellFormed(f)
  {
    0 < b < |dt.idom| && if IsHeader(f, b) then a == dt.idom[b] else EdgeHolds(f, a, b, env)
  }

  /** Steps of that kind, from the entry to `b`. */
  ghost predicate HoldsInTree(f: Function, dt: DomTree, path: seq<Block>, b: Block, env: Env)
    requires WellFormed(f)
  {
    && |path| > 0 && path[0] == 0 && path[|path| - 1] == b
    && forall i | 0 <= i < |path| - 1 :: Follows(f, dt, path[i], path[i + 1], env)
  }

  /** With a dominator tree a guard is true exactly along some path that holds edge by edge, except
      that every loop header is reached from its immediate dominator whatever lies between. */
  lemma DominatorGuardIsPath(f: Function, dt: DomTree, b: Block, env: Env)
    requires WellFormed(f) && ModeOk(f, Dominator(dt)) && b < |f.blocks|
    ensures IsTrue(Guard(f, Dominator(dt), b), env) <==> exists path :: HoldsInTree(f, dt, path, b, env)
  {
    if IsTrue(Guard(f, Dominator(dt), b), env) {
      var path := TreePathOfGuard(f, dt, b, env);
    }
    if path :| HoldsInTree(f, dt, path, b, env) {
      GuardOfTreePath(f, dt, path, b, env);
    }
  }

  /** The guard of a loop header is that of its immediate dominator. */
  lemma HeaderGuard(f: Function, dt: DomTree, b: Block)
    requires WellFormed(f) && ModeOk(f, Dominator(dt)) && 0 < b < |f.blocks| && IsHeader(f, b)
    ensures dt.idom[b] < b && Guard(f, Dominator(dt), b) == Guard(f, Dominator(dt), dt.idom[b])
  {
    var p :| p in f.blocks[b].preds && (p, b) in f.backedges;
    var i :| 0 <= i < |f.blocks[b].preds| && f.blocks[b].preds[i] == p;
    assert IsBackedge(f, f.blocks[b].preds[i], b);
    DominatorsGuard(f, Dominator(dt), b);
  }

  lemma {:induction false} TreePathOfGuard(f: Function, dt: DomTree, b: Block, env: Env) returns (path: seq<Block>)
    requires WellFormed(f) && ModeOk(f, Dominator(dt)) && b < |f.blocks|
    requires IsTrue(Guard(f, Dominator(dt), b), env)
    ensures HoldsInTree(f, dt, path, b, env)
    decreases b
  {
    if b == 0 {
      path := [0];
    } else {
      var a := FollowedBlock(f, dt, b, env);
      var shorter := TreePathOfGuard(f, dt, a, env);
      path := shorter + [b];
      assert forall i | 0 <= i < |path| - 1 :: Follows(f, dt, path[i], path[i + 1], env);
    }
  }

  /** A true guard follows one of an earlier block. */
  lemma FollowedBlock(f: Function, dt: DomTree, b: Block, env: Env) returns (a: Block)
    requires WellFormed(f) && ModeOk(f, Dominator(dt)) && 0 < b < |f.blocks|
    requires IsTrue(Guard(f, Dominator(dt), b), env)
    ensures a < b && Follows(f, dt, a, b, env) && IsTrue(Guard(f, Dominator(dt), a), env)
  {
    if IsHeader(f, b) {
      HeaderGuard(f, dt, b);
      a := dt.idom[b];
    } else {
      DisjunctiveGuardMeaning(f, Dominator(dt), b, env);
      var i :| 0 <= i < |f.blocks[b].preds| && ArrivesFrom(f, Dominator(dt), f.blocks[b].preds[i], b, env);
      a := f.blocks[b].preds[i];
      ForwardEdgeIncreases(f, a, b);
    }
  }

  /** Following a true guard gives a true guard. */
  lemma FollowingGuard(f: Function, dt: DomTree, a: Block, b: Block, env: Env)
    requires WellFormed(f) && ModeOk(f, Dominator(dt)) && b < |f.blocks| && Follows(f, dt, a, b, env)
    ensures a < b
    ensures IsTrue(Guard(f, Dominator(dt), a), env) ==> IsTrue(Guard(f, Dominator(dt), b), env)
  {
    if IsHeader(f, b) {
      HeaderGuard(f, dt, b);
    } else {
      assert BlockOk(f, b) && a in f.blocks[b].preds;
      assert !IsBackedge(f, a, b);
      ForwardEdgeIncreases(f, a, b);
      DisjunctiveGuardMeaning(f, Dominator(dt), b, env);
      var i :| 0 <= i < |f.blocks[b].preds| && f.blocks[b].preds[i] == a;
      if IsTrue(Guard(f, Dominator(dt), a), env) {
        assert ArrivesFrom(f, Dominator(dt), f.blocks[b].preds[i], b, env);
      }
    }
  }

  lemma {:induction false} GuardOfTreePath(f: Function, dt: DomTree, path: seq<Block>, b: Block, env: Env)
    requires WellFormed(f) && ModeOk(f, Dominator(dt)) && b < |f.blocks| && HoldsInTree(f, dt, path, b, env)
    ensures IsTrue(Guard(f, Dominator(dt), b), env)
    decreases |path|
  {
    var n := |path| - 1;
    if n == 0 {
      Connectives(TRUE, TRUE, env);
    } else {
      assert Follows(f, dt, path[n - 1], path[n], env);
      FollowingGuard(f, dt, path[n - 1], b, env);
      assert HoldsInTree(f, dt, path[..n], path[n - 1], env);
      GuardOfTreePath(f, dt, path[..n], path[n - 1], env);
    }
  }

  /** In a function without loops a guard says, in either mode, exactly that control comes to the
      block along some path that holds edge by edge. */
  lemma LoopFreeGuardIsPath(f: Function, dt: DomTree, b: Block, env: Env)
    requires WellFormed(f) && ModeOk(f, Dominator(dt)) && b < |f.blocks|
    requires forall a: Block, p | a < |f.blocks| && p in f.blocks[a].preds :: (p, a) !in f.backedges
    ensures IsTrue(Guard(f, Dominator(dt), b), env) <==> exists path :: HoldsAlong(f, path, b, env)
    ensures IsTrue(Guard(f, Dominator(dt), b), env) <==> IsTrue(Guard(f, Forward, b), env)
  {
    DominatorGuardIsPath(f, dt, b, env);
    ForwardGuardIsPath(f, b, env);
    if path :| HoldsInTree(f, dt, path, b, env) {
      forall i | 0 <= i < |path| - 1
        ensures IsEdge(f, path[i], path[i + 1]) && !IsBackedge(f, path[i], path[i + 1])
        ensures EdgeHolds(f, path[i], path[i + 1], env)
      {
        assert Follows(f, dt, path[i], path[i + 1], env) && !IsHeader(f, path[i + 1]);
        assert BlockOk(f, path[i + 1]);
      }
      assert HoldsAlong(f, path, b, env);
    }
    if IsTrue(Guard(f, Forward, b), env) {
      ForwardImpliesDominator(f, dt, b, env);
    }
  }

  /** For every block and valuation the guard that drops back edges implies the one that falls
      back to dominators. */
  lemma {:induction false} ForwardImpliesDominator(f: Function, dt: DomTree, b: Block, env: Env)
    requires WellFormed(f) && ModeOk(f, Dominator(dt)) && b < |f.blocks|
    requires IsTrue(Guard(f, Forward, b), env)
    ensures IsTrue(Guard(f, Dominator(dt), b), env)
  {
    if b == 0 {
    } else if HasBackedge(f, b) {
      var d := dt.idom[b];
      assert IsImmediateDominator(f, d, b);
      ForwardGuardIsPath(f, b, env);
      var path :| HoldsAlong(f, path, b, env);
      var i :| 0 <= i < |path| && path[i] == d;
      assert HoldsAlong(f, path[..i + 1], d, env);
      ForwardGuardIsPath(f, d, env);
      ForwardImpliesDominator(f, dt, d, env);
    } else {
      var preds := f.blocks[b].preds;
      DisjunctiveGuardMeaning(f, Forward, b, env);
      DisjunctiveGuardMeaning(f, Dominator(dt), b, env);
      var i :| 0 <= i < |preds| && ArrivesFrom(f, Forward, preds[i], b, env);
      ForwardEdgeIncreases(f, preds[i], b);
      ForwardImpliesDominator(f, dt, preds[i], env);
    }
  }
}
