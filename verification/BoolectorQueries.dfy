/** Queries put to the Boolector backend, which lowers shifts: where every shift of a function is one
    that the lowering keeps, the backend decides what the formulas mean. */
module BoolectorQueries {
  import opened Bits
  import opened Ir
  import opened Smt
  import opened Interp
  import opened ValueGen
  import opened PathGen
  import opened GuardMeaning
  import opened Queries
  import opened Wrappers
  import B = BoolectorShift

  predicate IsShift(op: BinaryOp) { op == Shl || op == LShr || op == AShr }

  function KindOf(op: BinaryOp): (k: B.Kind)
    requires IsShift(op)
    ensures B.Opcode(k) == op
  {
    if op == Shl then B.Left else if op == LShr then B.LogicalRight else B.ArithmeticRight
  }

  /** What the lowered nodes compute from the values of the two operands. */
  function LoweredShift(op: BinaryOp, w: Width, x: nat, s: nat): nat
    requires IsShift(op) && w >= 2
  {
    B.Eval(B.Lowered(KindOf(op), B.Input(w, 0), B.Input(w, 1)), name => if name == 0 then x else s)
  }

  /** The lowering keeps the shift of `x` by `s`. */
  predicate ExactShift(op: BinaryOp, w: Width, x: nat, s: nat)
    requires IsShift(op)
  {
    w >= 2 && s < w && (op != AShr || Pow2(B.Amount(w)) == w || x < Pow2(w - 1) || s == 0)
  }

  lemma LoweredShiftIsExact(op: BinaryOp, w: Width, x: nat, s: nat)
    requires IsShift(op) && 2 <= w && x < Pow2(w) && s < w
    ensures LoweredShift(op, w, x, s) == Apply(op, w, x, s) <==> ExactShift(op, w, x, s)
  {
    var env: B.Env := name => if name == 0 then x else s;
    BelowPower(w);
    InputValue(w, 0, env);
    InputValue(w, 1, env);
    ShiftOfNodes(op, w, x, s, B.Input(w, 0), B.Input(w, 1), env);
  }

  lemma ShiftOfNodes(op: BinaryOp, w: Width, x: nat, s: nat, e0: B.Node, e1: B.Node, env: B.Env)
    requires IsShift(op) && 2 <= w && x < Pow2(w) && s < w
    requires B.WidthOf(e0) == B.WidthOf(e1) == w && B.Eval(e0, env) == x && B.Eval(e1, env) == s
    ensures B.Eval(B.Lowered(KindOf(op), e0, e1), env) == Apply(op, w, x, s) <==> ExactShift(op, w, x, s)
  {
    B.LoweredIsExact(KindOf(op), e0, e1, env);
  }

  lemma InputValue(w: Width, name: nat, env: B.Env)
    requires env(name) < Pow2(w)
    ensures B.WidthOf(B.Input(w, name)) == w && B.Eval(B.Input(w, name), env) == env(name)
  {
    WrapSmall(w, env(name));
  }

  lemma {:induction false} BelowPower(w: nat)
    ensures w < Pow2(w)
  {
    if w != 0 { BelowPower(w - 1); }
  }

  /** The value the backend gives a formula. */
  function EvalLowered(e: Expr, env: Env): nat {
    match e
    case BvConst(w, c) => Wrap(w, c)
    case BvVar(w, v) => Wrap(w, Read(env, v))
    case Bin(op, l, r) =>
      var x, y := EvalLowered(l, env), EvalLowered(r, env);
      if IsShift(op) && BvWidth(l) >= 2 then LoweredShift(op, BvWidth(l), x, y) else Apply(op, BvWidth(l), x, y)
    case Cmp(p, l, r) => Bit(Compare(p, BvWidth(l), EvalLowered(l, env), EvalLowered(r, env)))
    case Overflow(op, l, r) => Bit(Overflows(op, BvWidth(l), EvalLowered(l, env), EvalLowered(r, env)))
    case BvNot(x) => Not(BvWidth(x), EvalLowered(x, env))
    case Ite(c, t, e) =>
      Wrap(BvWidth(t), if EvalLowered(c, env) == 1 then EvalLowered(t, env) else EvalLowered(e, env))
    case Extract(w, x) => Wrap(w, EvalLowered(x, env))
    case ZeroExtend(extra, x) => Wrap(BvWidth(x) + extra, EvalLowered(x, env))
    case SExtend(extra, x) => SignExtend(BvWidth(x), BvWidth(x) + extra, EvalLowered(x, env))
  }

  /** Every shift inside a formula is kept. */
  predicate ExactIn(e: Expr, env: Env) {
    match e
    case BvConst(_, _) => true
    case BvVar(_, _) => true
    case Bin(op, l, r) =>
      ExactIn(l, env) && ExactIn(r, env)
      && (IsShift(op) ==> ExactShift(op, BvWidth(l), Eval(l, env), Eval(r, env)))
    case Cmp(_, l, r) => ExactIn(l, env) && ExactIn(r, env)
    case Overflow(_, l, r) => ExactIn(l, env) && ExactIn(r, env)
    case BvNot(x) => ExactIn(x, env)
    case Ite(c, t, e) => ExactIn(c, env) && ExactIn(t, env) && ExactIn(e, env)
    case Extract(_, x) => ExactIn(x, env)
    case ZeroExtend(_, x) => ExactIn(x, env)
    case SExtend(_, x) => ExactIn(x, env)
  }

  /** Where all shifts are kept, the backend's value is the value. */
  lemma {:induction false} LoweredAgrees(e: Expr, env: Env)
    requires ExactIn(e, env)
    ensures EvalLowered(e, env) == Eval(e, env)
  {
    match e
    case BvConst(_, _) =>
    case BvVar(_, _) =>
    case Bin(op, l, r) =>
      LoweredAgrees(l, env);
      LoweredAgrees(r, env);
      if IsShift(op) { LoweredShiftIsExact(op, BvWidth(l), Eval(l, env), Eval(r, env)); }
    case Cmp(_, l, r) => LoweredAgrees(l, env); LoweredAgrees(r, env);
    case Overflow(_, l, r) => LoweredAgrees(l, env); LoweredAgrees(r, env);
    case BvNot(x) => LoweredAgrees(x, env);
    case Ite(c, t, e) => LoweredAgrees(c, env); LoweredAgrees(t, env); LoweredAgrees(e, env);
    case Extract(_, x) => LoweredAgrees(x, env);
    case ZeroExtend(_, x) => LoweredAgrees(x, env);
    case SExtend(_, x) => LoweredAgrees(x, env);
  }

  // ------------------------------------------------------------------ functions with exact shifts

  ghost predicate ShiftKept(f: Function, v: Value, env: Env)
    requires WellFormed(f) && IsAnalyzable(f, v) && f.values[v].def.Binary? && IsShift(f.values[v].def.op)
  {
    OperatorFormula(f, v);
    var Binary(op, l, r) := f.values[v].def;
    ExactShift(op, f.values[l].width, Eval(Formula(f, l), env), Eval(Formula(f, r), env))
  }

  /** The lowering keeps every shift of the function, whatever its operands turn out to be. */
  ghost predicate ExactShifts(f: Function)
    requires WellFormed(f)
  {
    forall v: Value, env | IsAnalyzable(f, v) && f.values[v].def.Binary? && IsShift(f.values[v].def.op) ::
      ShiftKept(f, v, env)
  }

  /** Left and logical right shifts by constants below the width are always kept. */
  lemma ConstantShiftsAreKept(f: Function)
    requires WellFormed(f)
    requires forall v: Value | IsAnalyzable(f, v) && f.values[v].def.Binary? && IsShift(f.values[v].def.op) ::
               ByConstant(f, v) && f.values[v].def.op != AShr
    ensures ExactShifts(f)
  {
    forall v: Value, env | IsAnalyzable(f, v) && f.values[v].def.Binary? && IsShift(f.values[v].def.op)
      ensures ShiftKept(f, v, env)
    {
      assert ByConstant(f, v) && ValueOk(f, v);
      ConstantFormula(f, f.values[v].def.right, env);
      OperatorFormula(f, v);
    }
  }

  predicate ByConstant(f: Function, v: Value)
    requires v < |f.values| && f.values[v].def.Binary?
  {
    var w, r := f.values[v].width, f.values[v].def.right;
    w >= 2 && IsInteger(f, r, w) && f.values[r].def.ConstInt? && f.values[r].def.c < w
  }

  lemma {:induction false} FormulaExact(f: Function, v: Value, env: Env)
    requires WellFormed(f) && ExactShifts(f) && IsAnalyzable(f, v)
    ensures ExactIn(Formula(f, v), env)
    decreases v, 1, 0
  {
    OperandsAreEarlier(f, v);
    if !IsFree(f, v) {
      match f.values[v].def
      case ConstInt(_) =>
      case NullPointer =>
      case Binary(op, l, r) =>
        PairExact(f, v, l, r, env);
        OperatorFormula(f, v);
        assert IsShift(op) ==> ShiftKept(f, v, env);
      case ICmp(_, l, r) => PairExact(f, v, l, r, env);
      case Select(c, t, e) =>
        FormulaExact(f, c, env);
        PairExact(f, v, t, e, env);
      case Trunc(x) => FormulaExact(f, x, env);
      case ZExt(x) => FormulaExact(f, x, env);
      case SExt(x) => FormulaExact(f, x, env);
      case BitCast(x) => FormulaExact(f, x, env);
      case PtrToInt(x) => FormulaExact(f, x, env);
      case ExtractValue(a, _) =>
        ExtractFormula(f, v);
        PairExact(f, v, f.values[a].def.left, f.values[a].def.right, env);
      case Gep(_, indices) => OffsetExact(f, v, |indices|, env);
    }
  }

  lemma {:induction false} PairExact(f: Function, v: Value, l: Value, r: Value, env: Env)
    requires WellFormed(f) && ExactShifts(f) && l < v && r < v && IsAnalyzable(f, l) && IsAnalyzable(f, r)
    ensures ExactIn(Formula(f, l), env) && ExactIn(Formula(f, r), env)
    decreases v, 0, 0
  {
    FormulaExact(f, l, env);
    FormulaExact(f, r, env);
  }

  lemma {:induction false} OffsetExact(f: Function, v: Value, k: nat, env: Env)
    requires WellFormed(f) && ExactShifts(f) && IsAnalyzable(f, v)
    requires f.values[v].def.Gep? && k <= |f.values[v].def.indices|
    ensures ExactIn(OffsetFormula(f, v, k), env)
    decreases v, 0, k
  {
    OperandsAreEarlier(f, v);
    if k == 0 {
      FormulaExact(f, f.values[v].def.base, env);
    } else {
      var i := k - 1;
      OffsetExact(f, v, i, env);
      OffsetStep(f, v, i);
      if f.values[v].def.indices[i].VarIndex? {
        var x := f.values[v].def.indices[i].variable;
        FormulaExact(f, x, env);
        ScaledExact(f, v, i, x, env);
      }
    }
  }

  lemma ScaledExact(f: Function, v: Value, i: nat, x: Value, env: Env)
    requires WellFormed(f) && IsAnalyzable(f, v) && f.values[v].def.Gep?
    requires i < |f.values[v].def.indices| && f.values[v].def.indices[i].VarIndex?
    requires x == f.values[v].def.indices[i].variable && IsAnalyzable(f, x) && x < v
    requires ExactIn(Formula(f, x), env)
    ensures ExactIn(ScaledFormula(f, v, i), env)
  {
    var w, elemSize := f.values[v].width, f.values[v].def.indices[i].elemSize;
    var resized := Resized(f.values[x].width, w, Formula(f, x), true);
    assert ScaledFormula(f, v, i) == Bin(Mul, resized, BvConst(w, Wrap(w, elemSize)));
    assert ExactIn(resized, env);
  }

  lemma {:induction false} ListExact(es: seq<Expr>, env: Env)
    requires forall e | e in es :: ExactIn(e, env)
    ensures ExactIn(AnyOf(es), env) && ExactIn(AllOf(es), env)
  {
    if |es| != 0 {
      assert es[|es| - 1] in es;
      ListExact(es[..|es| - 1], env);
    }
  }

  lemma EqualityExact(f: Function, l: Value, r: Value, env: Env)
    requires WellFormed(f) && ExactShifts(f) && IsAnalyzable(f, l) && IsAnalyzable(f, r)
    ensures ExactIn(BvEq(Formula(f, l), Formula(f, r)), env)
  {
    FormulaExact(f, l, env);
    FormulaExact(f, r, env);
  }

  lemma {:induction false} CasesExact(
      f: Function, c: Value, cases: seq<Case>, only: Option<Block>, k: nat, env: Env)
    requires WellFormed(f) && ExactShifts(f) && IsAnalyzable(f, c)
    requires k <= |cases| && forall i | 0 <= i < |cases| :: IsAnalyzable(f, cases[i].value)
    ensures forall e | e in CaseConditions(f, c, cases, only, k) :: ExactIn(e, env)
  {
    if k != 0 {
      CasesExact(f, c, cases, only, k - 1, env);
      EqualityExact(f, c, cases[k - 1].value, env);
    }
  }

  lemma TermGuardExact(f: Function, p: Block, b: Block, env: Env)
    requires WellFormed(f) && ExactShifts(f) && IsEdge(f, p, b)
    ensures ExactIn(TermGuard(f, p, b), env)
  {
    assert BlockOk(f, p);
    match f.blocks[p].term
    case CondBr(c, _, _) => FormulaExact(f, c, env);
    case Switch(c, default, cases) =>
      var only := if default != b then Some(b) else None;
      CasesExact(f, c, cases, only, |cases|, env);
      ListExact(CaseConditions(f, c, cases, only, |cases|), env);
    case _ =>
  }

  lemma {:induction false} PhisExact(f: Function, p: Block, b: Block, k: nat, env: Env)
    requires WellFormed(f) && ExactShifts(f) && b < |f.blocks| && p in f.blocks[b].preds
    requires k <= |f.blocks[b].phis|
    ensures forall e | e in PhiEquations(f, p, b, k) :: ExactIn(e, env)
  {
    if k != 0 {
      PhisExact(f, p, b, k - 1, env);
      assert BlockOk(f, b) && PhiOk(f, b, f.blocks[b].phis[k - 1]);
      var v := f.blocks[b].phis[k - 1];
      if Constrains(f, p, v) { EqualityExact(f, v, f.values[v].def.incoming[p], env); }
    }
  }

  lemma EdgeExact(f: Function, p: Block, b: Block, env: Env)
    requires WellFormed(f) && ExactShifts(f) && b < |f.blocks| && p in f.blocks[b].preds
    ensures ExactIn(EdgeGuard(f, p, b), env)
  {
    assert BlockOk(f, b);
    TermGuardExact(f, p, b, env);
    PhisExact(f, p, b, |f.blocks[b].phis|, env);
    ListExact(PhiEquations(f, p, b, |f.blocks[b].phis|), env);
  }

  lemma {:induction false} GuardExact(f: Function, mode: Mode, b: Block, env: Env)
    requires WellFormed(f) && ExactShifts(f) && ModeOk(f, mode) && b < |f.blocks|
    ensures ExactIn(Guard(f, mode, b), env)
    decreases b, 1, 0
  {
    if b == 0 {
    } else if mode.Dominator? && HasBackedge(f, b) {
      DominatorsGuard(f, mode, b);
      GuardExact(f, mode, mode.tree.idom[b], env);
    } else {
      ArrivalsExact(f, mode, b, |f.blocks[b].preds|, env);
      ListExact(Arrivals(f, mode, b, |f.blocks[b].preds|), env);
    }
  }

  lemma {:induction false} ArrivalsExact(f: Function, mode: Mode, b: Block, k: nat, env: Env)
    requires WellFormed(f) && ExactShifts(f) && ModeOk(f, mode) && b < |f.blocks| && k <= |f.blocks[b].preds|
    ensures forall e | e in Arrivals(f, mode, b, k) :: ExactIn(e, env)
    decreases b, 0, k
  {
    if k != 0 {
      var p := f.blocks[b].preds[k - 1];
      ArrivalsExact(f, mode, b, k - 1, env);
      if !IsBackedge(f, p, b) {
        PredecessorsInRange(f, b);
        ForwardEdgeIncreases(f, p, b);
        EdgeExact(f, p, b, env);
        GuardExact(f, mode, p, env);
      }
    }
  }

  // ------------------------------------------------------------------ the backend

  ghost predicate SatisfiesLowered(env: Env, asserted: set<Expr>, e: Expr) {
    EvalLowered(e, env) == 1 && forall a | a in asserted :: EvalLowered(a, env) == 1
  }

  /** The backend is right about what it is given: the lowered formulas. */
  ghost predicate SoundLowered(oracle: Oracle) {
    forall asserted, e, env | SatisfiesLowered(env, asserted, e) :: oracle(asserted, e) != Unsat
  }

  ghost predicate CompleteLowered(oracle: Oracle) {
    forall asserted, e | oracle(asserted, e) != Unsat :: exists env :: SatisfiesLowered(env, asserted, e)
  }

  lemma QueryAgrees(f: Function, asserted: set<Expr>, e: Expr, env: Env)
    requires WellFormed(f) && ExactShifts(f) && IsQuery(f, asserted, e)
    ensures SatisfiesLowered(env, asserted, e) <==> Satisfies(env, asserted, e)
  {
    var mode, v, b :| Asks(f, mode, v, b, e);
    FormulaExact(f, v, env);
    GuardExact(f, mode, b, env);
    LoweredAgrees(e, env);
    forall a | a in asserted
      ensures EvalLowered(a, env) == Eval(a, env)
    {
      assert FromMetadata(f, a);
      ConstraintExact(f, a, env);
      LoweredAgrees(a, env);
    }
  }

  lemma ConstraintExact(f: Function, c: Expr, env: Env)
    requires FromMetadata(f, c)
    ensures ExactIn(c, env)
  {
    var x :| c in Constraints(f, x);
  }

  /** For a function whose shifts the lowering keeps, a backend that is right about lowered formulas
      is right about every query that the clients ask. */
  lemma BackendIsRight(f: Function, oracle: Oracle)
    requires WellFormed(f) && ExactShifts(f)
    ensures SoundLowered(oracle) ==> SoundFor(oracle, f)
    ensures CompleteLowered(oracle) ==> CompleteFor(oracle, f)
  {
    forall asserted, e, env | IsQuery(f, asserted, e)
      ensures SatisfiesLowered(env, asserted, e) <==> Satisfies(env, asserted, e)
    {
      QueryAgrees(f, asserted, e, env);
    }
    if CompleteLowered(oracle) {
      forall asserted, e | IsQuery(f, asserted, e) && oracle(asserted, e) != Unsat
        ensures exists env :: Satisfies(env, asserted, e)
      {
        var env :| SatisfiesLowered(env, asserted, e);
      }
    }
  }
}
