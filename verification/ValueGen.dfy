/** Translation of program values to solver formulas, with one cached formula per value. */
module ValueGen {
  import opened Bits
  import opened Ir
  import opened References
  import opened Smt
  import opened Interp
  import opened Ledger

  /** Instructions use values with smaller names only. */
  lemma OperandsAreEarlier(f: Function, v: Value)
    requires WellFormed(f) && v < |f.values|
    ensures ValueOk(f, v)
    ensures match f.values[v].def
            case Binary(_, l, r) => l < v && r < v
            case ICmp(_, l, r) => l < v && r < v
            case Select(c, t, e) => c < v && t < v && e < v
            case WithOverflow(_, l, r) => l < v && r < v
            case ExtractValue(a, _) => a < v
            case Trunc(x) => x < v
            case ZExt(x) => x < v
            case SExt(x) => x < v
            case BitCast(x) => x < v
            case PtrToInt(x) => x < v
            case Gep(b, _) => b < v
            case _ => true
  {
    assert ValueOk(f, v);
    var operands := Operands(f.values[v].def);
    match f.values[v].def
    case Binary(_, l, r) => assert l in operands && r in operands;
    case ICmp(_, l, r) => assert l in operands && r in operands;
    case Select(c, t, e) => assert c in operands && t in operands && e in operands;
    case WithOverflow(_, l, r) => assert l in operands && r in operands;
    case Gep(b, _) => assert b in operands;
    case _ =>
  }

  /** The formula of a value, without the cache. */
  ghost function Formula(f: Function, v: Value): (e: Expr)
    requires WellFormed(f) && IsAnalyzable(f, v)
    ensures BvWidth(e) == f.values[v].width
    decreases v, 1, 0
  {
    OperandsAreEarlier(f, v);
    var w := f.values[v].width;
    if IsFree(f, v) then BvVar(w, v)
    else
      match f.values[v].def
      case ConstInt(c) => BvConst(w, c)
      case NullPointer => BvConst(w, 0)
      case Binary(op, l, r) => Bin(op, Formula(f, l), Formula(f, r))
      case ICmp(p, l, r) => Cmp(p, Formula(f, l), Formula(f, r))
      case Select(c, t, e) => Ite(Formula(f, c), Formula(f, t), Formula(f, e))
      case Trunc(x) => Extract(w, Formula(f, x))
      case ZExt(x) => ZeroExtend(w - f.values[x].width, Formula(f, x))
      case SExt(x) => SExtend(w - f.values[x].width, Formula(f, x))
      case BitCast(x) => Formula(f, x)
      case PtrToInt(x) => Resized(f.values[x].width, w, Formula(f, x), false)
      case ExtractValue(a, second) =>
        (OperandsAreEarlier(f, a);
         var WithOverflow(op, l, r) := f.values[a].def;
         if second then Overflow(op, Formula(f, l), Formula(f, r))
         else Bin(Underlying(op), Formula(f, l), Formula(f, r)))
      case Gep(_, indices) =>
        var offset := OffsetFormula(f, v, |indices|);
        var k := ConstOffset(w, indices, |indices|);
        if k == 0 then offset else Bin(Add, offset, BvConst(w, k))
  }

  lemma SelectFormula(f: Function, v: Value)
    requires WellFormed(f) && IsAnalyzable(f, v) && f.values[v].def.Select?
    ensures var Select(c, t, e) := f.values[v].def;
      && IsAnalyzable(f, c) && IsAnalyzable(f, t) && IsAnalyzable(f, e)
      && Formula(f, v) == Ite(Formula(f, c), Formula(f, t), Formula(f, e))
  {
    OperandsAreEarlier(f, v);
  }

  /** What an operator's formula is made of. */
  lemma OperatorFormula(f: Function, v: Value)
    requires WellFormed(f) && IsAnalyzable(f, v) && (f.values[v].def.Binary? || f.values[v].def.ICmp?)
    ensures var def := f.values[v].def;
      && IsAnalyzable(f, def.left) && IsAnalyzable(f, def.right)
      && var L, R := Formula(f, def.left), Formula(f, def.right);
         Formula(f, v) == if def.Binary? then Bin(def.op, L, R) else Cmp(def.pred, L, R)
  {
    OperandsAreEarlier(f, v);
  }

  /** The formula of a result of an overflow intrinsic. */
  lemma ExtractFormula(f: Function, v: Value)
    requires WellFormed(f) && IsAnalyzable(f, v) && f.values[v].def.ExtractValue? && WellTyped(f, v) && !IsFree(f, v)
    ensures var def := f.values[f.values[v].def.aggregate].def;
      && def.left < v && def.right < v && IsAnalyzable(f, def.left) && IsAnalyzable(f, def.right)
      && Parts(f, v) == {def.left, def.right}
      && var L, R := Formula(f, def.left), Formula(f, def.right);
         Formula(f, v) == if f.values[v].def.second then Overflow(def.oop, L, R) else Bin(Underlying(def.oop), L, R)
  {
    OperandsAreEarlier(f, v);
    OperandsAreEarlier(f, f.values[v].def.aggregate);
  }

  /** The next variable index, added to the offset so far. */
  lemma OffsetStep(f: Function, v: Value, i: nat)
    requires WellFormed(f) && IsAnalyzable(f, v) && f.values[v].def.Gep? && i < |f.values[v].def.indices|
    ensures if f.values[v].def.indices[i].VarIndex? then
        && IsAnalyzable(f, f.values[v].def.indices[i].variable) && f.values[v].def.indices[i].variable < v
        && OffsetFormula(f, v, i + 1) == Bin(Add, OffsetFormula(f, v, i), ScaledFormula(f, v, i))
      else OffsetFormula(f, v, i + 1) == OffsetFormula(f, v, i)
  {
    if f.values[v].def.indices[i].VarIndex? { VariableIsEarlier(f, v, i); }
  }

  /** A formula of width `from` brought to width `to`. */
  function Resized(from: Width, to: Width, e: Expr, signed: bool): (r: Expr)
    requires BvWidth(e) == from
    ensures BvWidth(r) == to
  {
    if from < to then (if signed then SExtend(to - from, e) else ZeroExtend(to - from, e))
    else if to < from then Extract(to, e)
    else e
  }

  /** The base of an address plus its variable indices, left to right. */
  ghost function OffsetFormula(f: Function, v: Value, k: nat): (e: Expr)
    requires WellFormed(f) && IsAnalyzable(f, v)
    requires f.values[v].def.Gep? && k <= |f.values[v].def.indices|
    ensures BvWidth(e) == f.values[v].width
    decreases v, 0, k
  {
    assert ValueOk(f, v);
    var Gep(b, indices) := f.values[v].def;
    assert b in Operands(f.values[v].def);
    if k == 0 then Formula(f, b)
    else
      var before := OffsetFormula(f, v, k - 1);
      if indices[k - 1].VarIndex? then
        (VariableIsEarlier(f, v, k - 1);
         Bin(Add, before, ScaledFormula(f, v, k - 1)))
      else before
  }

  /** A variable index is an earlier value. */
  lemma VariableIsEarlier(f: Function, v: Value, i: nat)
    requires WellFormed(f) && IsAnalyzable(f, v) && f.values[v].def.Gep?
    requires i < |f.values[v].def.indices| && f.values[v].def.indices[i].VarIndex?
    ensures IsAnalyzable(f, f.values[v].def.indices[i].variable) && f.values[v].def.indices[i].variable < v
  {
    assert ValueOk(f, v) && IndexOk(f, f.values[v].def.indices[i]);
    assert f.values[v].def.indices[i].variable in IndexOperands(f.values[v].def.indices);
    assert f.values[v].def.indices[i].variable in Operands(f.values[v].def);
  }

  /** A variable index, sign-extended or cut to pointer width and scaled by the element size. */
  ghost function ScaledFormula(f: Function, v: Value, i: nat): (e: Expr)
    requires WellFormed(f) && IsAnalyzable(f, v) && f.values[v].def.Gep?
    requires i < |f.values[v].def.indices| && f.values[v].def.indices[i].VarIndex?
    requires IsAnalyzable(f, f.values[v].def.indices[i].variable)
    requires f.values[v].def.indices[i].variable < v
    ensures BvWidth(e) == f.values[v].width
    decreases v, 0, 0
  {
    var w := f.values[v].width;
    var VarIndex(elemSize, x) := f.values[v].def.indices[i];
    Bin(Mul, Resized(f.values[x].width, w, Formula(f, x), true), BvConst(w, Wrap(w, elemSize)))
  }

  /** The constant part of an address, accumulated at pointer width. */
  function ConstOffset(w: Width, indices: seq<GepIndex>, k: nat): (r: nat)
    requires k <= |indices|
    ensures r < Pow2(w)
  {
    if k == 0 then 0
    else
      PlusConstIndex(w, ConstOffset(w, indices, k - 1), indices[k - 1])
  }

  function PlusConstIndex(w: Width, before: nat, i: GepIndex): (r: nat)
    ensures before < Pow2(w) ==> r < Pow2(w)
  {
    match i
    case Field(number, offset) => if number == 0 then before else Wrap(w, before + offset)
    case ConstIndex(elemSize, index) =>
      if index == 0 then before else Wrap(w, before + Wrap(w, elemSize) * Wrap(w, index))
    case VarIndex(_, _) => before
  }

  // ------------------------------------------------------------------ what a formula mentions

  /** The values that a formula is made of; a result of an overflow intrinsic is looked through. */
  function Parts(f: Function, v: Value): set<Value>
    requires v < |f.values| && WellTyped(f, v)
  {
    if IsFree(f, v) then {}
    else if f.values[v].def.ExtractValue? then Operands(f.values[f.values[v].def.aggregate].def)
    else Operands(f.values[v].def)
  }

  /** The base and the first `k` variable indices of an address. */
  function FirstOperands(d: ValueDef, k: nat): set<Value>
    requires d.Gep? && k <= |d.indices|
  {
    {d.base} + IndexOperands(d.indices[..k])
  }

  lemma AllOperands(d: ValueDef)
    requires d.Gep?
    ensures FirstOperands(d, |d.indices|) == Operands(d)
  {
    assert d.indices[..|d.indices|] == d.indices;
  }

  lemma NextOperand(d: ValueDef, i: nat)
    requires d.Gep? && i < |d.indices|
    ensures FirstOperands(d, i + 1) ==
      FirstOperands(d, i) + if d.indices[i].VarIndex? then {d.indices[i].variable} else {}
  {
    var before, after := d.indices[..i], d.indices[..i + 1];
    assert after == before + [d.indices[i]];
    forall x
      ensures x in IndexOperands(after) <==>
        x in IndexOperands(before) || (d.indices[i].VarIndex? && x == d.indices[i].variable)
    {
      if k :| 0 <= k < i && before[k].VarIndex? && x == before[k].variable {
        assert after[k].VarIndex? && x == after[k].variable;
      }
      if d.indices[i].VarIndex? && x == d.indices[i].variable {
        assert after[i].VarIndex? && x == after[i].variable;
      }
    }
  }

  /** With each value, its parts are in the set. */
  ghost predicate Closed(f: Function, vs: set<Value>) {
    forall v | v in vs :: IsAnalyzable(f, v) && WellTyped(f, v) && Parts(f, v) <= vs
  }

  /** A formula mentions only values of the sets that are closed under parts and have its value. */
  lemma {:induction false} VarsWithin(f: Function, vs: set<Value>, v: Value)
    requires WellFormed(f) && Closed(f, vs) && v in vs
    ensures Vars(Formula(f, v)) <= vs
    decreases v, 1, 0
  {
    OperandsAreEarlier(f, v);
    if !IsFree(f, v) {
      var operands := Operands(f.values[v].def);
      match f.values[v].def
      case ConstInt(_) =>
      case NullPointer =>
      case Binary(_, l, r) => VarsOfPair(f, vs, v, l, r);
      case ICmp(_, l, r) => VarsOfPair(f, vs, v, l, r);
      case Select(c, t, e) =>
        assert c in operands;
        VarsWithin(f, vs, c);
        VarsOfPair(f, vs, v, t, e);
      case Trunc(x) => CastVars(f, vs, v, x);
      case ZExt(x) => CastVars(f, vs, v, x);
      case SExt(x) => CastVars(f, vs, v, x);
      case BitCast(x) => CastVars(f, vs, v, x);
      case PtrToInt(x) => CastVars(f, vs, v, x);
      case ExtractValue(a, _) =>
        OperandsAreEarlier(f, a);
        VarsOfPair(f, vs, v, f.values[a].def.left, f.values[a].def.right);
      case Gep(_, indices) => OffsetVars(f, vs, v, |indices|);
    }
  }

  lemma {:induction false} CastVars(f: Function, vs: set<Value>, v: Value, x: Value)
    requires WellFormed(f) && Closed(f, vs) && v in vs && x < v && Parts(f, v) == {x}
    ensures x in vs && IsAnalyzable(f, x) && Vars(Formula(f, x)) <= vs
    decreases v, 0, 0
  {
    assert x in Parts(f, v);
    VarsWithin(f, vs, x);
  }

  lemma {:induction false} VarsOfPair(f: Function, vs: set<Value>, v: Value, l: Value, r: Value)
    requires WellFormed(f) && Closed(f, vs) && v in vs && l < v && r < v && {l, r} <= Parts(f, v)
    ensures IsAnalyzable(f, l) && IsAnalyzable(f, r) && Vars(Formula(f, l)) <= vs && Vars(Formula(f, r)) <= vs
    decreases v, 0, 0
  {
    assert l in Parts(f, v) && r in Parts(f, v);
    VarsWithin(f, vs, l);
    VarsWithin(f, vs, r);
  }

  lemma {:induction false} OffsetVars(f: Function, vs: set<Value>, v: Value, n: nat)
    requires WellFormed(f) && Closed(f, vs) && v in vs && IsAnalyzable(f, v)
    requires f.values[v].def.Gep? && n <= |f.values[v].def.indices|
    ensures Vars(OffsetFormula(f, v, n)) <= vs
    decreases v, 0, n
  {
    OperandsAreEarlier(f, v);
    var Gep(base, indices) := f.values[v].def;
    if n == 0 {
      assert base in Parts(f, v);
      VarsWithin(f, vs, base);
    } else {
      OffsetVars(f, vs, v, n - 1);
      OffsetStep(f, v, n - 1);
      if indices[n - 1].VarIndex? {
        var x := indices[n - 1].variable;
        assert x in IndexOperands(indices) && x in Parts(f, v);
        VarsWithin(f, vs, x);
        ScaledVars(f, v, n - 1, x);
      }
    }
  }

  lemma ScaledVars(f: Function, v: Value, i: nat, x: Value)
    requires WellFormed(f) && IsAnalyzable(f, v) && f.values[v].def.Gep?
    requires i < |f.values[v].def.indices| && f.values[v].def.indices[i].VarIndex?
    requires x == f.values[v].def.indices[i].variable && IsAnalyzable(f, x) && x < v
    ensures Vars(ScaledFormula(f, v, i)) == Vars(Formula(f, x))
  {
    var w, elemSize := f.values[v].width, f.values[v].def.indices[i].elemSize;
    var resized := Resized(f.values[x].width, w, Formula(f, x), true);
    assert ScaledFormula(f, v, i) == Bin(Mul, resized, BvConst(w, Wrap(w, elemSize)));
    assert Vars(resized) == Vars(Formula(f, x)) && Vars(BvConst(w, Wrap(w, elemSize))) == {};
  }

  // ------------------------------------------------------------------ range constraints

  /** The constraint that one metadata range with distinct bounds puts on a formula. */
  function RangeFormula(w: Width, e: Expr, r: (nat, nat)): Expr {
    var above, below := Cmp(UGE, e, BvConst(w, r.0)), Cmp(ULT, e, BvConst(w, r.1));
    if r.0 == 0 then below
    else if r.1 == 0 then above
    else if r.0 <= r.1 then BvAnd(above, below)
    else BvOr(above, below)
  }

  /** What is asserted for the first `k` metadata ranges. */
  function RangeFormulas(w: Width, e: Expr, ranges: seq<(nat, nat)>, k: nat): set<Expr>
    requires k <= |ranges|
  {
    set i | 0 <= i < k && ranges[i].0 != ranges[i].1 :: RangeFormula(w, e, ranges[i])
  }

  function Constraints(f: Function, v: Value): set<Expr> {
    if v < |f.values| && f.values[v].def.Opaque? then
      var info := f.values[v];
      RangeFormulas(info.width, BvVar(info.width, v), info.def.ranges, |info.def.ranges|)
    else {}
  }

  method AddRangeConstraints(smt: Solver, w: Width, e: Expr, ranges: seq<(nat, nat)>)
    requires Count(smt.refs, e) > 0
    modifies smt
    ensures forall y :: Count(smt.refs, y) == old(Count(smt.refs, y))
    ensures smt.asserted == old(smt.asserted) + RangeFormulas(w, e, ranges, |ranges|)
  {
    var i := 0;
    while i < |ranges|
      invariant i <= |ranges|
      invariant forall y :: Count(smt.refs, y) == old(Count(smt.refs, y))
      invariant smt.asserted == old(smt.asserted) + RangeFormulas(w, e, ranges, i)
    {
      if ranges[i].0 == ranges[i].1 {
        assert RangeFormulas(w, e, ranges, i + 1) == RangeFormulas(w, e, ranges, i);
      } else {
        var cond := MakeRange(smt, w, e, ranges[i]);
        smt.Assume(cond);
        smt.Decref(cond);
        assert RangeFormulas(w, e, ranges, i + 1) == RangeFormulas(w, e, ranges, i) + {cond};
      }
      i := i + 1;
    }
  }

  /** The condition for one range; a zero bound needs no comparison. */
  method MakeRange(smt: Solver, w: Width, e: Expr, r: (nat, nat)) returns (cond: Expr)
    requires Count(smt.refs, e) > 0 && r.0 != r.1
    modifies smt`refs
    ensures cond == RangeFormula(w, e, r)
    ensures forall y :: Count(smt.refs, y) == old(Count(smt.refs, y)) + One(y == cond)
  {
    var (lo, hi) := r;
    if lo == 0 {
      cond := CompareWithConst(smt, ULT, e, w, hi);
    } else if hi == 0 {
      cond := CompareWithConst(smt, UGE, e, w, lo);
    } else {
      var above := CompareWithConst(smt, UGE, e, w, lo);
      var below := CompareWithConst(smt, ULT, e, w, hi);
      if lo <= hi {
        cond := smt.MakeBinary(BinaryOp.And, above, below);
      } else {
        cond := smt.MakeBinary(BinaryOp.Or, above, below);
      }
      smt.Decref(above);
      smt.Decref(below);
    }
  }

  method CompareWithConst(smt: Solver, p: Predicate, x: Expr, w: Width, c: nat) returns (e: Expr)
    requires Count(smt.refs, x) > 0
    modifies smt`refs
    ensures e == Cmp(p, x, BvConst(w, c))
    ensures forall y :: Count(smt.refs, y) == old(Count(smt.refs, y)) + One(y == e)
  {
    var tmp := smt.MakeConst(w, c);
    e := smt.MakeCompare(p, x, tmp);
    smt.Decref(tmp);
  }

  method Resize(smt: Solver, x: Expr, from: Width, to: Width, signed: bool) returns (e: Expr)
    requires Count(smt.refs, x) > 0 && BvWidth(x) == from
    modifies smt`refs
    ensures e == Resized(from, to, x, signed)
    ensures forall y :: Count(smt.refs, y) == old(Count(smt.refs, y)) + One(y == e)
  {
    if from < to {
      if signed {
        e := smt.MakeSignExtend(to - from, x);
      } else {
        e := smt.MakeZeroExtend(to - from, x);
      }
    } else if to < from {
      e := smt.MakeExtract(to, x);
    } else {
      e := x;
      smt.Incref(e);
    }
  }

  predicate IsCast(def: ValueDef, from: Width, to: Width) {
    match def
    case Trunc(_) | PtrToInt(_) | BitCast(_) => true
    case ZExt(_) | SExt(_) => from < to
    case _ => false
  }

  function CastFormula(def: ValueDef, x: Expr, from: Width, to: Width): Expr
    requires IsCast(def, from, to) && BvWidth(x) == from
  {
    match def
    case Trunc(_) => Extract(to, x)
    case ZExt(_) => ZeroExtend(to - from, x)
    case SExt(_) => SExtend(to - from, x)
    case PtrToInt(_) => Resized(from, to, x, false)
    case _ => x
  }

  method MakeCast(smt: Solver, def: ValueDef, x: Expr, from: Width, to: Width) returns (e: Expr)
    requires IsCast(def, from, to) && BvWidth(x) == from && Count(smt.refs, x) > 0
    modifies smt`refs
    ensures e == CastFormula(def, x, from, to)
    ensures forall y :: Count(smt.refs, y) == old(Count(smt.refs, y)) + One(y == e)
  {
    if def.Trunc? {
      e := smt.MakeExtract(to, x);
    } else if def.ZExt? {
      e := smt.MakeZeroExtend(to - from, x);
    } else if def.SExt? {
      e := smt.MakeSignExtend(to - from, x);
    } else if def.PtrToInt? {
      e := Resize(smt, x, from, to, false);
    } else {
      e := x;
      smt.Incref(e);
    }
  }

  /** Add `x` scaled by `elemSize` to `offset`, whose reference is consumed. */
  method AddScaled(smt: Solver, offset: Expr, x: Expr, from: Width, w: Width, elemSize: nat)
    returns (e: Expr)
    requires Count(smt.refs, offset) > 0 && Count(smt.refs, x) > 0 && BvWidth(x) == from
    modifies smt`refs
    ensures e == Bin(Add, offset, Bin(Mul, Resized(from, w, x, true), BvConst(w, Wrap(w, elemSize))))
    ensures forall y :: Count(smt.refs, y) + One(y == offset) == old(Count(smt.refs, y)) + One(y == e)
  {
    var index := Resize(smt, x, from, w, true);
    var size := smt.MakeConst(w, Wrap(w, elemSize));
    var scaled := smt.MakeBinary(Mul, index, size);
    e := smt.MakeBinary(Add, offset, scaled);
    smt.Decref(index);
    smt.Decref(size);
    smt.Decref(offset);
    smt.Decref(scaled);
  }

  /** Add a constant to `offset`, whose reference is consumed. */
  method AddConst(smt: Solver, offset: Expr, w: Width, c: nat) returns (e: Expr)
    requires Count(smt.refs, offset) > 0
    modifies smt`refs
    ensures e == Bin(Add, offset, BvConst(w, c))
    ensures forall y :: Count(smt.refs, y) + One(y == offset) == old(Count(smt.refs, y)) + One(y == e)
  {
    var sConst := smt.MakeConst(w, c);
    e := smt.MakeBinary(Add, offset, sConst);
    smt.Decref(offset);
    smt.Decref(sConst);
  }

  // ------------------------------------------------------------------ the generator

  class ValueGen {
    const f: Function
    const smt: Solver
    var cache: map<Value, Expr>

    constructor (f: Function, smt: Solver)
      requires WellFormed(f) && smt.asserted == {}
      ensures this.f == f && this.smt == smt && cache == map[]
      ensures Valid()
      ensures forall y :: External(y) == Count(smt.refs, y)
    {
      this.f, this.smt, cache := f, smt, map[];
      new;
      forall y ensures Entries(cache, y) == 0 { NoEntries(cache, y); }
    }

    /** The references to `e` that somebody other than this cache holds. */
    ghost function External(e: Expr): int
      reads this, smt
    {
      Count(smt.refs, e) - Entries(cache, e)
    }

    /** The cache agrees with `Formula` and has the parts of its values, nothing it holds
        has been released, and the asserted formulas are the range constraints of its values. */
    ghost predicate Valid()
      reads this, smt
    {
      && WellFormed(f)
      && (forall v | v in cache :: IsAnalyzable(f, v) && cache[v] == Formula(f, v))
      && Closed(f, cache.Keys)
      && (forall y :: Entries(cache, y) <= Count(smt.refs, y))
      && (forall v | v in cache :: Constraints(f, v) <= smt.asserted)
      && (forall c | c in smt.asserted :: Justified(c))
    }

    ghost predicate Justified(c: Expr)
      reads this
    {
      exists v :: v in cache && c in Constraints(f, v)
    }

    lemma CachedIsLive(v: Value)
      requires Valid() && v in cache
      ensures Count(smt.refs, cache[v]) > 0
    {
      EntryCounts(cache, v);
    }

    /** A new reference that a client takes leaves the cache in order. */
    twostate lemma Acquired(e: Expr)
      requires old(Valid()) && unchanged(this) && smt.asserted == old(smt.asserted)
      requires forall y :: Count(smt.refs, y) == old(Count(smt.refs, y)) + One(y == e)
      ensures Valid()
      ensures forall y :: External(y) == old(External(y)) + One(y == e)
    {
    }

    /** So does giving back a reference that the cache does not hold. */
    twostate lemma Released(x: Expr)
      requires old(Valid()) && unchanged(this) && smt.asserted == old(smt.asserted)
      requires old(External(x)) > 0
      requires forall y :: Count(smt.refs, y) + One(y == x) == old(Count(smt.refs, y))
      ensures Valid()
      ensures forall y :: External(y) + One(y == x) == old(External(y))
    {
      forall y
        ensures External(y) + One(y == x) == old(External(y))
        ensures Entries(cache, y) <= Count(smt.refs, y)
      {
        assert Entries(cache, y) + One(y == x) <= old(Count(smt.refs, y));
      }
    }

    method Get(v: Value) returns (e: Expr)
      requires Valid() && IsAnalyzable(f, v)
      modifies this, smt
      ensures Valid()
      ensures forall y :: External(y) == old(External(y))
      ensures e == Formula(f, v) && Count(smt.refs, e) > 0 && Vars(e) <= cache.Keys
      ensures cache.Keys >= old(cache.Keys) + {v}
      ensures forall x | x in cache && x !in old(cache) :: x <= v
      decreases v, 1, 0
    {
      if v in cache {
        e := cache[v];
      } else {
        e := Analyze(v);
        Store(v, e);
      }
      CachedIsLive(v);
      VarsWithin(f, cache.Keys, v);
    }

    /** Record a new formula; the cache takes over the caller's reference to it. */
    method Store(v: Value, e: Expr)
      requires WellFormed(f) && v !in cache && IsAnalyzable(f, v) && e == Formula(f, v)
      requires forall x | x in cache :: IsAnalyzable(f, x) && cache[x] == Formula(f, x)
      requires Closed(f, cache.Keys) && WellTyped(f, v) && Parts(f, v) <= cache.Keys
      requires forall y :: Entries(cache, y) + One(y == e) <= Count(smt.refs, y)
      requires forall x | x in cache :: Constraints(f, x) <= smt.asserted
      requires Constraints(f, v) <= smt.asserted
      requires forall c | c in smt.asserted :: c in Constraints(f, v) || Justified(c)
      modifies this
      ensures cache == old(cache)[v := e] && Valid()
      ensures forall y :: External(y) + One(y == e) == old(External(y))
    {
      Insert(cache, v, e);
      ghost var before := cache;
      cache := cache[v := e];
      assert forall y :: Entries(cache, y) == Entries(before, y) + One(y == e);
      forall c | c in smt.asserted
        ensures Justified(c)
      {
        if c !in Constraints(f, v) {
          var x :| x in before && c in Constraints(f, x);
          assert x in cache;
        }
      }
    }

    /** Build the formula of a value that has none yet; the caller owns the new reference. */
    method Analyze(v: Value) returns (e: Expr)
      requires Valid() && IsAnalyzable(f, v) && v !in cache
      modifies this, smt
      ensures forall x | x in cache :: IsAnalyzable(f, x) && cache[x] == Formula(f, x)
      ensures Closed(f, cache.Keys) && WellTyped(f, v) && Parts(f, v) <= cache.Keys
      ensures forall x | x in cache :: Constraints(f, x) <= smt.asserted
      ensures Constraints(f, v) <= smt.asserted
      ensures forall c | c in smt.asserted :: c in Constraints(f, v) || Justified(c)
      ensures e == Formula(f, v)
      ensures forall y :: External(y) == old(External(y)) + One(y == e)
      ensures forall y :: Entries(cache, y) + One(y == e) <= Count(smt.refs, y)
      ensures cache.Keys >= old(cache.Keys) && v !in cache
      ensures forall x | x in cache && x !in old(cache) :: x < v
      decreases v, 0, 5
    {
      OperandsAreEarlier(f, v);
      if f.values[v].def.Opaque? {
        e := smt.MakeVar(f.values[v].width, v);
        AddRangeConstraints(smt, f.values[v].width, e, f.values[v].def.ranges);
      } else {
        e := Visit(v);
      }
      forall y
        ensures Entries(cache, y) + One(y == e) <= Count(smt.refs, y)
      {
        assert External(y) == old(External(y)) + One(y == e);
      }
    }

    /** Build the formula of a value without metadata. */
    method Visit(v: Value) returns (e: Expr)
      requires Valid() && IsAnalyzable(f, v) && v !in cache && !f.values[v].def.Opaque?
      modifies this, smt
      ensures Valid() && e == Formula(f, v) && WellTyped(f, v) && Parts(f, v) <= cache.Keys
      ensures forall y :: External(y) == old(External(y)) + One(y == e)
      ensures cache.Keys >= old(cache.Keys)
      ensures forall x | x in cache && x !in old(cache) :: x < v
      decreases v, 0, 4
    {
      OperandsAreEarlier(f, v);
      var w := f.values[v].width;
      match f.values[v].def {
        case ConstInt(c) =>
          e := smt.MakeConst(w, c);
        case NullPointer =>
          e := smt.MakeConst(w, 0);
        case Undef =>
          e := smt.MakeVar(w, v);
        case Argument =>
          e := smt.MakeVar(w, v);
        case Phi(_) =>
          e := smt.MakeVar(w, v);
        case Binary(_, _, _) =>
          e := VisitOperator(v);
        case ICmp(_, _, _) =>
          e := VisitOperator(v);
        case Select(_, _, _) =>
          e := VisitSelect(v);
        case Trunc(x) =>
          e := VisitCast(v, x);
        case ZExt(x) =>
          e := VisitCast(v, x);
        case SExt(x) =>
          e := VisitCast(v, x);
        case PtrToInt(x) =>
          e := VisitCast(v, x);
        case BitCast(x) =>
          if !f.values[x].analyzable {
            e := smt.MakeVar(w, v);
          } else {
            e := VisitCast(v, x);
          }
        case ExtractValue(_, _) =>
          e := VisitExtractValue(v);
        case Gep(_, _) =>
          e := VisitGep(v);
        case WithOverflow(_, _, _) =>
          assert false;
        case Opaque(_) =>
          assert false;
      }
    }

    method GetPair(ghost v: Value, l: Value, r: Value) returns (L: Expr, R: Expr)
      requires Valid() && l < v && r < v && IsAnalyzable(f, l) && IsAnalyzable(f, r)
      modifies this, smt
      ensures Valid()
      ensures forall y :: External(y) == old(External(y))
      ensures L == Formula(f, l) && R == Formula(f, r)
      ensures Count(smt.refs, L) > 0 && Count(smt.refs, R) > 0
      ensures cache.Keys >= old(cache.Keys) + {l, r}
      ensures forall x | x in cache && x !in old(cache) :: x < v
      decreases v, 0, 0
    {
      L := Get(l);
      R := Get(r);
      CachedIsLive(l);
    }

    method VisitOperator(v: Value) returns (e: Expr)
      requires Valid() && IsAnalyzable(f, v) && v !in cache
      requires f.values[v].def.Binary? || f.values[v].def.ICmp?
      modifies this, smt
      ensures Valid() && e == Formula(f, v) && WellTyped(f, v) && Parts(f, v) <= cache.Keys
      ensures forall y :: External(y) == old(External(y)) + One(y == e)
      ensures cache.Keys >= old(cache.Keys)
      ensures forall x | x in cache && x !in old(cache) :: x < v
      decreases v, 0, 1
    {
      OperandsAreEarlier(f, v);
      var def := f.values[v].def;
      var L, R := GetPair(v, def.left, def.right);
      label Found:
      if def.Binary? {
        e := smt.MakeBinary(def.op, L, R);
      } else {
        e := smt.MakeCompare(def.pred, L, R);
      }
      Acquired@Found(e);
      OperatorFormula(f, v);
    }

    method VisitSelect(v: Value) returns (e: Expr)
      requires Valid() && IsAnalyzable(f, v) && v !in cache && f.values[v].def.Select?
      modifies this, smt
      ensures Valid() && e == Formula(f, v) && WellTyped(f, v) && Parts(f, v) <= cache.Keys
      ensures forall y :: External(y) == old(External(y)) + One(y == e)
      ensures cache.Keys >= old(cache.Keys)
      ensures forall x | x in cache && x !in old(cache) :: x < v
      decreases v, 0, 2
    {
      OperandsAreEarlier(f, v);
      var Select(c, t, n) := f.values[v].def;
      var C, T, N := GetTriple(v, c, t, n);
      label Found:
      e := smt.MakeIte(C, T, N);
      Acquired@Found(e);
      SelectFormula(f, v);
    }

    method GetTriple(ghost v: Value, c: Value, t: Value, n: Value) returns (C: Expr, T: Expr, N: Expr)
      requires Valid() && c < v && t < v && n < v && IsAnalyzable(f, c) && IsAnalyzable(f, t) && IsAnalyzable(f, n)
      modifies this, smt
      ensures Valid()
      ensures forall y :: External(y) == old(External(y))
      ensures C == Formula(f, c) && T == Formula(f, t) && N == Formula(f, n)
      ensures Count(smt.refs, C) > 0 && Count(smt.refs, T) > 0 && Count(smt.refs, N) > 0
      ensures cache.Keys >= old(cache.Keys) + {c, t, n}
      ensures forall x | x in cache && x !in old(cache) :: x < v
      decreases v, 0, 1
    {
      C := Get(c);
      T, N := GetPair(v, t, n);
      assert c in cache && cache[c] == C;
      CachedIsLive(c);
    }

    method VisitCast(v: Value, x: Value) returns (e: Expr)
      requires Valid() && IsAnalyzable(f, v) && v !in cache && IsAnalyzable(f, x) && x < v
      requires var def := f.values[v].def;
               || def == Trunc(x) || def == ZExt(x) || def == SExt(x) || def == PtrToInt(x)
               || def == BitCast(x)
      modifies this, smt
      ensures Valid() && e == Formula(f, v) && WellTyped(f, v) && Parts(f, v) <= cache.Keys
      ensures forall y :: External(y) == old(External(y)) + One(y == e)
      ensures cache.Keys >= old(cache.Keys)
      ensures forall x | x in cache && x !in old(cache) :: x < v
      decreases v, 0, 1
    {
      OperandsAreEarlier(f, v);
      var X := Get(x);
      label Found:
      e := MakeCast(smt, f.values[v].def, X, f.values[x].width, f.values[v].width);
      Acquired@Found(e);
    }

    /** Results of overflow intrinsics are looked into; other aggregates are not. */
    method VisitExtractValue(v: Value) returns (e: Expr)
      requires Valid() && IsAnalyzable(f, v) && v !in cache && f.values[v].def.ExtractValue?
      modifies this, smt
      ensures Valid() && e == Formula(f, v) && WellTyped(f, v) && Parts(f, v) <= cache.Keys
      ensures forall y :: External(y) == old(External(y)) + One(y == e)
      ensures cache.Keys >= old(cache.Keys)
      ensures forall x | x in cache && x !in old(cache) :: x < v
      decreases v, 0, 1
    {
      OperandsAreEarlier(f, v);
      var ExtractValue(a, second) := f.values[v].def;
      OperandsAreEarlier(f, a);
      var def := f.values[a].def;
      if !def.WithOverflow? {
        e := smt.MakeVar(f.values[v].width, v);
        return;
      }
      ExtractFormula(f, v);
      var L, R := GetPair(v, def.left, def.right);
      label Found:
      if second {
        e := smt.MakeOverflow(def.oop, L, R);
      } else {
        e := smt.MakeBinary(Underlying(def.oop), L, R);
      }
      Acquired@Found(e);
    }

    method VisitGep(v: Value) returns (e: Expr)
      requires Valid() && IsAnalyzable(f, v) && v !in cache && f.values[v].def.Gep?
      modifies this, smt
      ensures Valid() && e == Formula(f, v) && WellTyped(f, v) && Parts(f, v) <= cache.Keys
      ensures forall y :: External(y) == old(External(y)) + One(y == e)
      ensures cache.Keys >= old(cache.Keys)
      ensures forall x | x in cache && x !in old(cache) :: x < v
      decreases v, 0, 2
    {
      OperandsAreEarlier(f, v);
      var w := f.values[v].width;
      var offset, constOffset := AddIndices(v);
      if constOffset == 0 {
        return offset;
      }
      e := AddConst(smt, offset, w, constOffset);
    }

    /** The variable part of an address, which the caller owns, and its constant part. */
    method AddIndices(v: Value) returns (offset: Expr, constOffset: nat)
      requires Valid() && IsAnalyzable(f, v) && v !in cache && f.values[v].def.Gep?
      modifies this, smt
      ensures Valid() && Operands(f.values[v].def) <= cache.Keys
      ensures offset == OffsetFormula(f, v, |f.values[v].def.indices|)
      ensures constOffset == ConstOffset(f.values[v].width, f.values[v].def.indices, |f.values[v].def.indices|)
      ensures forall y :: External(y) == old(External(y)) + One(y == offset)
      ensures External(offset) > 0
      ensures cache.Keys >= old(cache.Keys)
      ensures forall x | x in cache && x !in old(cache) :: x < v
      decreases v, 0, 1
    {
      var w, indices := f.values[v].width, f.values[v].def.indices;
      offset := OwnBase(v);
      constOffset := 0;
      var i := 0;
      while i < |indices|
        invariant i <= |indices|
        invariant Valid() && FirstOperands(f.values[v].def, i) <= cache.Keys
        invariant forall y :: External(y) == old(External(y)) + One(y == offset)
        invariant External(offset) > 0
        invariant cache.Keys >= old(cache.Keys)
        invariant forall x | x in cache && x !in old(cache) :: x < v
        invariant offset == OffsetFormula(f, v, i)
        invariant constOffset == ConstOffset(w, indices, i)
      {
        constOffset := AddConstIndex(w, indices, i, constOffset);
        offset := AddIndex(v, i, offset);
        i := i + 1;
      }
      AllOperands(f.values[v].def);
    }

    /** The base address, with a reference of the caller's own. */
    method OwnBase(v: Value) returns (offset: Expr)
      requires Valid() && IsAnalyzable(f, v) && v !in cache && f.values[v].def.Gep?
      modifies this, smt
      ensures Valid() && offset == OffsetFormula(f, v, 0) && FirstOperands(f.values[v].def, 0) <= cache.Keys
      ensures forall y :: External(y) == old(External(y)) + One(y == offset)
      ensures External(offset) > 0
      ensures cache.Keys >= old(cache.Keys)
      ensures forall x | x in cache && x !in old(cache) :: x < v
      decreases v, 0, 0
    {
      OperandsAreEarlier(f, v);
      offset := Get(f.values[v].def.base);
      smt.Incref(offset);
    }

    /** Add index number `i` to the running constant offset. */
    static method AddConstIndex(w: Width, indices: seq<GepIndex>, i: nat, before: nat) returns (r: nat)
      requires i < |indices| && before == ConstOffset(w, indices, i)
      ensures r == ConstOffset(w, indices, i + 1)
    {
      r := before;
      match indices[i] {
        case Field(number, offset) =>
          if number != 0 {
            r := Wrap(w, r + offset);
          }
        case ConstIndex(elemSize, index) =>
          if index != 0 {
            r := Wrap(w, r + Wrap(w, elemSize) * Wrap(w, index));
          }
        case VarIndex(_, _) =>
      }
    }

    /** Add index number `i`, if it is variable, to the running offset, whose reference it consumes. */
    method AddIndex(v: Value, i: nat, offset: Expr) returns (e: Expr)
      requires Valid() && IsAnalyzable(f, v) && f.values[v].def.Gep? && i < |f.values[v].def.indices|
      requires offset == OffsetFormula(f, v, i) && External(offset) > 0
      requires FirstOperands(f.values[v].def, i) <= cache.Keys
      modifies this, smt
      ensures Valid() && e == OffsetFormula(f, v, i + 1) && FirstOperands(f.values[v].def, i + 1) <= cache.Keys
      ensures forall y :: External(y) + One(y == offset) == old(External(y)) + One(y == e)
      ensures External(e) > 0
      ensures cache.Keys >= old(cache.Keys)
      ensures forall x | x in cache && x !in old(cache) :: x < v
      decreases v, 0, 0
    {
      OffsetStep(f, v, i);
      NextOperand(f.values[v].def, i);
      e := offset;
      if f.values[v].def.indices[i].VarIndex? {
        var VarIndex(elemSize, x) := f.values[v].def.indices[i];
        var X := Get(x);
        assert External(offset) > 0;
        e := Accumulate(offset, X, f.values[x].width, f.values[v].width, elemSize);
      }
    }

    /** Replace an offset that the caller owns by its sum with a scaled formula from the cache. */
    method Accumulate(offset: Expr, X: Expr, from: Width, w: Width, elemSize: nat) returns (e: Expr)
      requires Valid() && External(offset) > 0 && Count(smt.refs, X) > 0 && BvWidth(X) == from
      modifies smt`refs
      ensures Valid() && e == Bin(Add, offset, Bin(Mul, Resized(from, w, X, true), BvConst(w, Wrap(w, elemSize))))
      ensures forall y :: External(y) + One(y == offset) == old(External(y)) + One(y == e)
      ensures External(e) > 0
    {
      e := AddScaled(smt, offset, X, from, w, elemSize);
      forall y
        ensures External(y) + One(y == offset) == old(External(y)) + One(y == e)
        ensures Entries(cache, y) + One(y == e) <= Count(smt.refs, y)
      {
        assert Entries(cache, y) + One(y == offset) <= old(Count(smt.refs, y));
      }
    }

    /** The destructor gives back one reference per entry. */
    method Dispose()
      requires Valid()
      modifies this, smt`refs
      ensures forall y :: Count(smt.refs, y) == old(External(y))
    {
      while cache != map[]
        invariant forall y :: External(y) == old(External(y))
        invariant forall y :: Entries(cache, y) <= Count(smt.refs, y)
        decreases |cache|
      {
        assert cache.Keys != {};
        var v :| v in cache.Keys;
        Evict(v);
      }
      forall y
        ensures Count(smt.refs, y) == old(External(y))
      {
        NoEntries(cache, y);
        assert External(y) == old(External(y));
      }
    }

    method Evict(v: Value)
      requires v in cache && forall y :: Entries(cache, y) <= Count(smt.refs, y)
      modifies this, smt`refs
      ensures cache == old(cache) - {v}
      ensures forall y :: Entries(cache, y) <= Count(smt.refs, y)
      ensures forall y :: External(y) == old(External(y))
    {
      Remove(cache, v);
      EntryCounts(cache, v);
      var e := cache[v];
      cache := cache - {v};
      smt.Decref(e);
      forall y
        ensures Entries(cache, y) <= Count(smt.refs, y)
        ensures External(y) == old(External(y))
      {
        assert old(Entries(cache, y)) == Entries(cache, y) + One(y == e);
      }
    }
  }
}
