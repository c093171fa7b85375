/** What the formula of each kind of value says, for an arbitrary valuation of its variables. */
module FormulaKinds {
  import opened Bits
  import opened Ir
  import opened Smt
  import opened Interp
  import opened ValueGen
  import opened FormulaSoundness

  /** The value that the formula of `x` has under the valuation. */
  ghost function ValueIn(f: Function, x: Value, env: Env): nat
    requires WellFormed(f)
  {
    if IsAnalyzable(f, x) then Eval(Formula(f, x), env) else 0
  }

  /** The sum of the first `k` indices of an address, each scaled by the size of what it steps over. */
  ghost function IndexSum(f: Function, indices: seq<GepIndex>, k: nat, env: Env): int
    requires WellFormed(f) && k <= |indices|
    requires forall i | 0 <= i < |indices| && indices[i].VarIndex? :: IsAnalyzable(f, indices[i].variable)
  {
    if k == 0 then 0
    else
      IndexSum(f, indices, k - 1, env) +
      match indices[k - 1]
      case Field(_, offset) => offset
      case ConstIndex(elemSize, index) => elemSize * index
      case VarIndex(elemSize, x) => elemSize * Signed(f.values[x].width, ValueIn(f, x, env))
  }

  /** Kind by kind, the value of the formula in terms of the values of the operands' formulas; values
      that are not looked into are variables. */
  ghost predicate KindMeaning(f: Function, v: Value, env: Env)
    requires WellFormed(f) && IsAnalyzable(f, v)
  {
    var w, e := f.values[v].width, Eval(Formula(f, v), env);
    var variable := Read(env, v) % Pow2(w);
    WellTyped(f, v) &&
    match f.values[v].def
    case ConstInt(c) => e == c
    case NullPointer => e == 0
    case Undef | Argument | Phi(_) | Opaque(_) => e == variable
    case Binary(op, l, r) => e == Apply(op, w, ValueIn(f, l, env), ValueIn(f, r, env))
    case ICmp(p, l, r) =>
      e == if Compare(p, f.values[l].width, ValueIn(f, l, env), ValueIn(f, r, env)) then 1 else 0
    case Select(c, t, n) => e == if ValueIn(f, c, env) == 1 then ValueIn(f, t, env) else ValueIn(f, n, env)
    case Trunc(x) => e == ValueIn(f, x, env) % Pow2(w)
    case ZExt(x) => e == ValueIn(f, x, env)
    case SExt(x) => e == Signed(f.values[x].width, ValueIn(f, x, env)) % Pow2(w)
    case BitCast(x) => e == if f.values[x].analyzable then ValueIn(f, x, env) else variable
    case PtrToInt(x) => e == ValueIn(f, x, env) % Pow2(w)
    case WithOverflow(_, _, _) => false
    case ExtractValue(a, second) =>
      (match f.values[a].def
       case WithOverflow(op, l, r) =>
         var x, y := ValueIn(f, l, env), ValueIn(f, r, env);
         if second then e == if Overflows(op, f.values[l].width, x, y) then 1 else 0
         else e == Apply(Underlying(op), w, x, y)
       case _ => e == variable)
    case Gep(b, indices) =>
      (forall i | 0 <= i < |indices| && indices[i].VarIndex? :: IsAnalyzable(f, indices[i].variable))
      && e == (ValueIn(f, b, env) + IndexSum(f, indices, |indices|, env)) % Pow2(w)
  }

  lemma FormulaByKind(f: Function, v: Value, env: Env)
    requires WellFormed(f) && IsAnalyzable(f, v)
    ensures KindMeaning(f, v, env)
  {
    OperandsAreEarlier(f, v);
    var w := f.values[v].width;
    match f.values[v].def
    case ConstInt(c) => WrapSmall(w, c);
    case NullPointer => WrapSmall(w, 0);
    case Undef => VariableKind(f, v, env);
    case Argument => VariableKind(f, v, env);
    case Phi(_) => VariableKind(f, v, env);
    case Opaque(_) => VariableKind(f, v, env);
    case Binary(_, _, _) => OperatorFormula(f, v);
    case ICmp(_, _, _) => OperatorFormula(f, v);
    case Select(_, _, _) => SelectKind(f, v, env);
    case Trunc(x) => CastKind(f, v, x, env);
    case ZExt(x) => CastKind(f, v, x, env);
    case SExt(x) => CastKind(f, v, x, env);
    case PtrToInt(x) => CastKind(f, v, x, env);
    case BitCast(x) => if f.values[x].analyzable { CastKind(f, v, x, env); } else { VariableKind(f, v, env); }
    case WithOverflow(_, _, _) =>
    case ExtractValue(_, _) =>
      OperandsAreEarlier(f, f.values[v].def.aggregate);
      if IsFree(f, v) { VariableKind(f, v, env); } else { ExtractFormula(f, v); }
    case Gep(_, _) => AddressKind(f, v, env);
  }

  lemma VariableKind(f: Function, v: Value, env: Env)
    requires WellFormed(f) && IsAnalyzable(f, v) && WellTyped(f, v) && IsFree(f, v)
    ensures Eval(Formula(f, v), env) == Read(env, v) % Pow2(f.values[v].width)
  {
    assert Formula(f, v) == BvVar(f.values[v].width, v);
  }

  lemma SelectKind(f: Function, v: Value, env: Env)
    requires WellFormed(f) && IsAnalyzable(f, v) && f.values[v].def.Select?
    ensures KindMeaning(f, v, env)
  {
    SelectFormula(f, v);
    OperandsAreEarlier(f, v);
    var Select(_, t, n) := f.values[v].def;
    WrapSmall(f.values[v].width, Eval(Formula(f, t), env));
    WrapSmall(f.values[v].width, Eval(Formula(f, n), env));
  }

  lemma CastKind(f: Function, v: Value, x: Value, env: Env)
    requires WellFormed(f) && IsAnalyzable(f, v) && WellTyped(f, v) && IsAnalyzable(f, x) && x < v
    requires var def := f.values[v].def;
      def == Trunc(x) || def == ZExt(x) || def == SExt(x) || def == PtrToInt(x) || def == BitCast(x)
    ensures KindMeaning(f, v, env)
  {
    var w, from := f.values[v].width, f.values[x].width;
    if from <= w {
      Pow2Monotone(from, w);
      WrapSmall(w, Eval(Formula(f, x), env));
    }
  }

  lemma {:induction false} SumIsDisplacement(f: Function, v: Value, k: nat, env: Env, vals: Env)
    requires WellFormed(f) && IsAnalyzable(f, v) && f.values[v].def.Gep? && WellTyped(f, v)
    requires k <= |f.values[v].def.indices| && OperandsAgree(f, v, env, vals)
    requires forall i | 0 <= i < |f.values[v].def.indices| && f.values[v].def.indices[i].VarIndex? ::
               IsAnalyzable(f, f.values[v].def.indices[i].variable)
    ensures IndexSum(f, f.values[v].def.indices, k, env) == Displacement(f, f.values[v].def.indices, k, vals)
  {
    if k != 0 {
      var i := k - 1;
      SumIsDisplacement(f, v, i, env, vals);
      if f.values[v].def.indices[i].VarIndex? {
        VariableIsEarlier(f, v, i);
        var x := f.values[v].def.indices[i].variable;
        assert x in IndexOperands(f.values[v].def.indices) && x in Operands(f.values[v].def);
      }
    }
  }

  lemma AddressKind(f: Function, v: Value, env: Env)
    requires WellFormed(f) && IsAnalyzable(f, v) && f.values[v].def.Gep?
    ensures KindMeaning(f, v, env)
  {
    OperandsAreEarlier(f, v);
    var Gep(b, indices) := f.values[v].def;
    var operands := Operands(f.values[v].def);
    var vals: Env := map o | o in operands :: ValueIn(f, o, env);
    forall i | 0 <= i < |indices| && indices[i].VarIndex?
      ensures IsAnalyzable(f, indices[i].variable)
    {
      VariableIsEarlier(f, v, i);
    }
    assert b in operands && Read(vals, b) == ValueIn(f, b, env);
    AddressMeaning(f, env, vals, v);
    SumIsDisplacement(f, v, |indices|, env, vals);
  }
}
