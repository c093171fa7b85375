/** A value's formula denotes the value: whenever the defining equations of the values that
    dominate a block hold, the formula of each of them evaluates to its current value. */
module FormulaSoundness {
  import opened Bits
  import opened ModularArithmetic
  import opened Ir
  import opened Dominance
  import opened Smt
  import opened Interp
  import opened ValueGen

  /** The equations of all values available at the end of `b` hold. */
  ghost predicate Settled(f: Function, env: Env, b: Block) {
    forall v: Value | v < |f.values| && Available(f, v, b) :: Equation(f, v, env)
  }

  lemma OperandsAvailable(f: Function, v: Value, b: Block)
    requires WellFormed(f) && v < |f.values| && Available(f, v, b)
    ensures forall o | o in Operands(f.values[v].def) :: o < v && Available(f, o, b)
  {
    assert ValueOk(f, v);
    forall o | o in Operands(f.values[v].def)
      ensures Available(f, o, b)
    {
      if f.values[o].home.Some? {
        DominatesTransitive(f, f.values[o].home.value, f.values[v].home.value, b);
      }
    }
  }

  lemma {:induction false} FormulaIsValue(f: Function, env: Env, b: Block, v: Value)
    requires WellFormed(f) && Plausible(f, env) && Settled(f, env, b)
    requires IsAnalyzable(f, v) && Available(f, v, b)
    ensures Eval(Formula(f, v), env) == Read(env, v)
    decreases v, 1, 0
  {
    OperandsAreEarlier(f, v);
    OperandsAvailable(f, v, b);
    assert PlausibleAt(f, env, v);
    assert Equation(f, v, env);
    if IsFree(f, v) {
      WrapSmall(f.values[v].width, Read(env, v));
    } else {
      match f.values[v].def
      case ConstInt(c) => WrapSmall(f.values[v].width, c);
      case NullPointer => WrapSmall(f.values[v].width, 0);
      case Binary(_, l, r) => PairOfValues(f, env, b, v, l, r);
      case ICmp(_, l, r) => PairOfValues(f, env, b, v, l, r);
      case Select(c, t, e) =>
        FormulaIsValue(f, env, b, c);
        PairOfValues(f, env, b, v, t, e);
      case Trunc(x) => CastIsValue(f, env, b, v, x);
      case ZExt(x) => CastIsValue(f, env, b, v, x);
      case SExt(x) => CastIsValue(f, env, b, v, x);
      case BitCast(x) => CastIsValue(f, env, b, v, x);
      case PtrToInt(x) => CastIsValue(f, env, b, v, x);
      case ExtractValue(_, _) => ExtractIsValue(f, env, b, v);
      case Gep(_, _) => AddressIsValue(f, env, b, v);
    }
  }

  lemma {:induction false} PairOfValues(f: Function, env: Env, b: Block, v: Value, l: Value, r: Value)
    requires WellFormed(f) && Plausible(f, env) && Settled(f, env, b)
    requires l < v && r < v && IsAnalyzable(f, l) && IsAnalyzable(f, r)
    requires Available(f, l, b) && Available(f, r, b)
    ensures Eval(Formula(f, l), env) == Read(env, l) == Nat(env, l)
    ensures Eval(Formula(f, r), env) == Read(env, r) == Nat(env, r)
    decreases v, 0, 0
  {
    FormulaIsValue(f, env, b, l);
    FormulaIsValue(f, env, b, r);
  }

  lemma {:induction false} CastIsValue(f: Function, env: Env, b: Block, v: Value, x: Value)
    requires WellFormed(f) && Plausible(f, env) && Settled(f, env, b)
    requires IsAnalyzable(f, v) && Available(f, v, b)
    requires IsAnalyzable(f, x) && x < v && Available(f, x, b)
    requires var def := f.values[v].def;
             || def == Trunc(x) || def == ZExt(x) || def == SExt(x) || def == PtrToInt(x)
             || def == BitCast(x)
    ensures Eval(Formula(f, v), env) == Read(env, v)
    decreases v, 0, 1
  {
    FormulaIsValue(f, env, b, x);
    assert PlausibleAt(f, env, x);
    assert ValueOk(f, v);
    assert Equation(f, v, env);
    var def, w := f.values[v].def, f.values[v].width;
    if def.BitCast? || (def.PtrToInt? && f.values[x].width == w) {
      WrapSmall(w, Read(env, x));
    }
  }

  /** The pair packed by an overflow intrinsic unpacks to the result and the bit. */
  lemma {:induction false} ExtractIsValue(f: Function, env: Env, b: Block, v: Value)
    requires WellFormed(f) && Plausible(f, env) && Settled(f, env, b)
    requires IsAnalyzable(f, v) && Available(f, v, b)
    requires f.values[v].def.ExtractValue? && WellTyped(f, v) && !IsFree(f, v)
    ensures Eval(Formula(f, v), env) == Read(env, v)
    decreases v, 0, 1
  {
    OperandsAreEarlier(f, v);
    OperandsAvailable(f, v, b);
    var ExtractValue(a, second) := f.values[v].def;
    OperandsAreEarlier(f, a);
    OperandsAvailable(f, a, b);
    var WithOverflow(op, l, r) := f.values[a].def;
    var operands := Operands(f.values[a].def);
    assert l in operands && r in operands;
    PairOfValues(f, env, b, v, l, r);
    assert Equation(f, a, env) && Equation(f, v, env);
    var w := f.values[l].width;
    var result := Apply(Underlying(op), w, Nat(env, l), Nat(env, r));
    var bit := Bit(Overflows(op, w, Nat(env, l), Nat(env, r)));
    Unpack(result, bit);
    WrapSmall(w, result);
  }

  lemma Unpack(result: nat, bit: nat)
    requires bit < 2
    ensures (2 * result + bit) / 2 == result && (2 * result + bit) % 2 == bit
  {
  }

  // ------------------------------------------------------------------ addresses

  /** Sign-extending or cutting an index to pointer width keeps its signed value modulo 2^w. */
  lemma ResizedIndex(from: Width, w: Width, e: Expr, env: Env)
    requires BvWidth(e) == from
    ensures Eval(Resized(from, w, e, true), env) == Wrap(w, Signed(from, Eval(e, env)))
  {
    if w <= from {
      WrapOfSigned(from, w, Eval(e, env));
      if w == from {
        WrapSmall(w, Eval(e, env));
      }
    }
  }

  /** The constant indices among the first `k`, without wrapping. */
  ghost function ConstPart(f: Function, indices: seq<GepIndex>, k: nat, env: Env): int
    requires k <= |indices| && forall i | 0 <= i < |indices| :: IndexOk(f, indices[i])
  {
    if k == 0 then 0
    else ConstPart(f, indices, k - 1, env)
         + if indices[k - 1].VarIndex? then 0 else Contribution(f, indices[k - 1], env)
  }

  lemma {:induction false} ConstOffsetIsConstPart(f: Function, w: Width, indices: seq<GepIndex>, k: nat, env: Env)
    requires k <= |indices| && forall i | 0 <= i < |indices| :: IndexOk(f, indices[i])
    ensures ConstOffset(w, indices, k) == Wrap(w, ConstPart(f, indices, k, env))
  {
    if k == 0 {
      WrapSmall(w, 0);
    } else {
      ConstOffsetIsConstPart(f, w, indices, k - 1, env);
      var before := ConstPart(f, indices, k - 1, env);
      ConstStep(f, w, before, indices[k - 1], env);
    }
  }

  /** What one index adds to the constant offset. */
  lemma ConstStep(f: Function, w: Width, before: int, i: GepIndex, env: Env)
    requires IndexOk(f, i)
    ensures i.Field? && i.number != 0 ==>
              Wrap(w, Wrap(w, before) + i.offset) == Wrap(w, before + Contribution(f, i, env))
    ensures i.ConstIndex? && i.index != 0 ==>
              Wrap(w, Wrap(w, before) + Wrap(w, i.elemSize) * Wrap(w, i.index))
              == Wrap(w, before + Contribution(f, i, env))
    ensures (i.Field? && i.number == 0) || (i.ConstIndex? && i.index == 0) ==> Contribution(f, i, env) == 0
  {
    match i
    case Field(_, offset) => WrapOfSum(w, before, offset);
    case ConstIndex(elemSize, index) => ScaledSum(w, before, elemSize, index);
    case VarIndex(_, _) =>
  }

  /** `vals` has what the formulas of the operands of `v` evaluate to. */
  ghost predicate OperandsAgree(f: Function, v: Value, env: Env, vals: Env)
    requires WellFormed(f) && v < |f.values|
  {
    forall o | o in Operands(f.values[v].def) && IsAnalyzable(f, o) :: Eval(Formula(f, o), env) == Read(vals, o)
  }

  /** The running offset is the base plus the variable indices so far. */
  lemma {:induction false} OffsetIsVariablePart(f: Function, env: Env, vals: Env, v: Value, k: nat)
    requires WellFormed(f) && IsAnalyzable(f, v) && OperandsAgree(f, v, env, vals)
    requires f.values[v].def.Gep? && k <= |f.values[v].def.indices|
    ensures WellTyped(f, v)
    ensures Eval(OffsetFormula(f, v, k), env) == Wrap(f.values[v].width, VariablePart(f, v, k, vals))
  {
    OperandsAreEarlier(f, v);
    var Gep(base, indices) := f.values[v].def;
    var w, operands := f.values[v].width, Operands(f.values[v].def);
    if k == 0 {
      assert base in operands;
      WrapSmall(w, Read(vals, base));
    } else {
      var i := k - 1;
      OffsetIsVariablePart(f, env, vals, v, i);
      if indices[i].VarIndex? {
        var x := indices[i].variable;
        VariableIsEarlier(f, v, i);
        assert x in IndexOperands(indices) && x in operands;
      }
      VariablePartStep(f, env, vals, v, i, k);
    }
  }

  /** An address without its constant indices: the base and the variable ones among the first `k`. */
  ghost function VariablePart(f: Function, v: Value, k: nat, env: Env): int
    requires v < |f.values| && WellTyped(f, v) && f.values[v].def.Gep? && k <= |f.values[v].def.indices|
  {
    var Gep(base, indices) := f.values[v].def;
    Read(env, base) + Displacement(f, indices, k, env) - ConstPart(f, indices, k, env)
  }

  lemma VariablePartStep(f: Function, env: Env, vals: Env, v: Value, i: nat, k: nat)
    requires WellFormed(f) && IsAnalyzable(f, v) && f.values[v].def.Gep? && WellTyped(f, v)
    requires k == i + 1 && k <= |f.values[v].def.indices|
    requires Eval(OffsetFormula(f, v, i), env) == Wrap(f.values[v].width, VariablePart(f, v, i, vals))
    requires f.values[v].def.indices[i].VarIndex? ==>
               var x := f.values[v].def.indices[i].variable;
               IsAnalyzable(f, x) && x < v && Eval(Formula(f, x), env) == Read(vals, x)
    ensures Eval(OffsetFormula(f, v, k), env) == Wrap(f.values[v].width, VariablePart(f, v, k, vals))
  {
    OffsetStep(f, v, i);
    NextPart(f, v, i, k, vals);
    if f.values[v].def.indices[i].VarIndex? {
      ScaledIndexIsContribution(f, env, vals, v, i, f.values[v].def.indices[i].variable);
      SumOfWraps(f.values[v].width, VariablePart(f, v, i, vals), Contribution(f, f.values[v].def.indices[i], vals));
    }
  }

  lemma NextPart(f: Function, v: Value, i: nat, k: nat, env: Env)
    requires v < |f.values| && WellTyped(f, v) && f.values[v].def.Gep?
    requires k == i + 1 && k <= |f.values[v].def.indices|
    ensures IndexOk(f, f.values[v].def.indices[i])
    ensures VariablePart(f, v, k, env) == VariablePart(f, v, i, env)
      + if f.values[v].def.indices[i].VarIndex? then Contribution(f, f.values[v].def.indices[i], env) else 0
  {
  }

  lemma ScaledIndexIsContribution(f: Function, env: Env, vals: Env, v: Value, i: nat, x: Value)
    requires WellFormed(f) && IsAnalyzable(f, v) && f.values[v].def.Gep?
    requires i < |f.values[v].def.indices| && f.values[v].def.indices[i].VarIndex?
    requires x == f.values[v].def.indices[i].variable && IsAnalyzable(f, x) && x < v
    requires Eval(Formula(f, x), env) == Read(vals, x)
    ensures Eval(ScaledFormula(f, v, i), env) ==
            Wrap(f.values[v].width, Contribution(f, f.values[v].def.indices[i], vals))
  {
    var w, elemSize := f.values[v].width, f.values[v].def.indices[i].elemSize;
    var signed := Signed(f.values[x].width, Read(vals, x));
    ResizedIndex(f.values[x].width, w, Formula(f, x), env);
    WrapSmall(w, Wrap(w, elemSize));
    ProductOfWraps(w, signed, elemSize);
    assert signed * elemSize == elemSize * signed;
  }

  /** An address is its base plus all its indices, modulo 2^w. */
  lemma AddressMeaning(f: Function, env: Env, vals: Env, v: Value)
    requires WellFormed(f) && IsAnalyzable(f, v) && f.values[v].def.Gep? && OperandsAgree(f, v, env, vals)
    ensures WellTyped(f, v)
    ensures var Gep(base, indices) := f.values[v].def;
      Eval(Formula(f, v), env)
      == Wrap(f.values[v].width, Read(vals, base) + Displacement(f, indices, |indices|, vals))
  {
    assert ValueOk(f, v);
    var Gep(base, indices) := f.values[v].def;
    var w, n := f.values[v].width, |indices|;
    OffsetIsVariablePart(f, env, vals, v, n);
    ConstOffsetIsConstPart(f, w, indices, n, vals);
    var k := ConstOffset(w, indices, n);
    var constants := ConstPart(f, indices, n, vals);
    var variables := VariablePart(f, v, n, vals);
    WrapSmall(w, k);
    SumOfWraps(w, variables, constants);
    if k == 0 {
      WrapOfSum(w, constants, variables);
    }
  }

  lemma {:induction false} AddressIsValue(f: Function, env: Env, b: Block, v: Value)
    requires WellFormed(f) && Plausible(f, env) && Settled(f, env, b)
    requires IsAnalyzable(f, v) && Available(f, v, b) && f.values[v].def.Gep?
    ensures Eval(Formula(f, v), env) == Read(env, v)
    decreases v, 0, 1
  {
    assert ValueOk(f, v) && Equation(f, v, env);
    OperandsAvailable(f, v, b);
    forall o | o in Operands(f.values[v].def) && IsAnalyzable(f, o)
      ensures Eval(Formula(f, o), env) == Read(env, o)
    {
      FormulaIsValue(f, env, b, o);
    }
    AddressMeaning(f, env, env, v);
  }
}
