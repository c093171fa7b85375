/** Solver formulas, their meaning, and the reference-counted solver that owns them. */
module Smt {
  import opened Bits
  import opened Ir
  import opened References

  datatype Expr =
    | BvConst(w: Width, c: nat)
    | BvVar(w: Width, name: Value)
    | Bin(op: BinaryOp, left: Expr, right: Expr)
    | Cmp(pred: Predicate, left: Expr, right: Expr)
    | Overflow(oop: OverflowOp, left: Expr, right: Expr)
    | BvNot(operand: Expr)
    | Ite(cond: Expr, ifTrue: Expr, ifFalse: Expr)
    | Extract(w: Width, operand: Expr)           // the low `w` bits
    | ZeroExtend(extra: nat, operand: Expr)
    | SExtend(extra: nat, operand: Expr)

  const TRUE: Expr := BvConst(1, 1)
  const FALSE: Expr := BvConst(1, 0)

  function BvWidth(e: Expr): Width {
    match e
    case BvConst(w, _) => w
    case BvVar(w, _) => w
    case Bin(_, l, _) => BvWidth(l)
    case Cmp(_, _, _) => 1
    case Overflow(_, _, _) => 1
    case BvNot(x) => BvWidth(x)
    case Ite(_, t, _) => BvWidth(t)
    case Extract(w, _) => w
    case ZeroExtend(extra, x) => BvWidth(x) + extra
    case SExtend(extra, x) => BvWidth(x) + extra
  }

  /** A valuation of the free variables, which are named after program values.  A value that has
      no entry reads as zero. */
  type Env = map<Value, int>

  function Read(env: Env, v: Value): int { if v in env then env[v] else 0 }

  function Eval(e: Expr, env: Env): (r: nat)
    ensures r < Pow2(BvWidth(e))
  {
    match e
    case BvConst(w, c) => Wrap(w, c)
    case BvVar(w, v) => Wrap(w, Read(env, v))
    case Bin(op, l, r) => Apply(op, BvWidth(l), Eval(l, env), Eval(r, env))
    case Cmp(p, l, r) => OneBitWidth(); Bit(Compare(p, BvWidth(l), Eval(l, env), Eval(r, env)))
    case Overflow(op, l, r) => OneBitWidth(); Bit(Overflows(op, BvWidth(l), Eval(l, env), Eval(r, env)))
    case BvNot(x) => Not(BvWidth(x), Eval(x, env))
    case Ite(c, t, e) =>
      Wrap(BvWidth(t), if Eval(c, env) == 1 then Eval(t, env) else Eval(e, env))
    case Extract(w, x) => Wrap(w, Eval(x, env))
    case ZeroExtend(extra, x) => Wrap(BvWidth(x) + extra, Eval(x, env))
    case SExtend(extra, x) => SignExtend(BvWidth(x), BvWidth(x) + extra, Eval(x, env))
  }

  lemma OneBitWidth()
    ensures Pow2(1) == 2
  {
  }

  predicate IsTrue(e: Expr, env: Env) { Eval(e, env) == 1 }

  function BvAnd(a: Expr, b: Expr): Expr { Bin(BinaryOp.And, a, b) }
  function BvOr(a: Expr, b: Expr): Expr { Bin(BinaryOp.Or, a, b) }
  function BvEq(a: Expr, b: Expr): Expr { Cmp(EQ, a, b) }

  /** One-bit formulas behave like propositions. */
  lemma Connectives(a: Expr, b: Expr, env: Env)
    requires BvWidth(a) == 1 && BvWidth(b) == 1
    ensures BvWidth(BvAnd(a, b)) == BvWidth(BvOr(a, b)) == BvWidth(BvNot(a)) == 1
    ensures IsTrue(BvAnd(a, b), env) <==> IsTrue(a, env) && IsTrue(b, env)
    ensures IsTrue(BvOr(a, b), env) <==> IsTrue(a, env) || IsTrue(b, env)
    ensures IsTrue(BvNot(a), env) <==> !IsTrue(a, env)
    ensures IsTrue(TRUE, env) && !IsTrue(FALSE, env)
  {
    OneBitWidth();
    OneBitAnd(Eval(a, env), Eval(b, env));
    OneBitOr(Eval(a, env), Eval(b, env));
    OneBitNot(Eval(a, env));
  }

  /** Disjunction and conjunction as the generators build them, one operand after the other. */
  function AnyOf(es: seq<Expr>): (r: Expr)
    ensures BvWidth(r) == 1
  {
    if |es| == 0 then FALSE else BvOr(AnyOf(es[..|es| - 1]), es[|es| - 1])
  }

  function AllOf(es: seq<Expr>): (r: Expr)
    ensures BvWidth(r) == 1
  {
    if |es| == 0 then TRUE else BvAnd(AllOf(es[..|es| - 1]), es[|es| - 1])
  }

  lemma AnyOfExtend(es: seq<Expr>, e: Expr)
    ensures AnyOf(es + [e]) == BvOr(AnyOf(es), e)
    ensures AllOf(es + [e]) == BvAnd(AllOf(es), e)
  {
    assert (es + [e])[..|es|] == es;
  }

  ghost predicate SomeTrue(es: seq<Expr>, env: Env) { exists e :: e in es && IsTrue(e, env) }

  ghost predicate AllTrue(es: seq<Expr>, env: Env) { forall e :: e in es ==> IsTrue(e, env) }

  lemma AnyTrueExtend(es: seq<Expr>, e: Expr, env: Env)
    ensures SomeTrue(es + [e], env) <==> SomeTrue(es, env) || IsTrue(e, env)
    ensures AllTrue(es + [e], env) <==> AllTrue(es, env) && IsTrue(e, env)
  {
    assert e in es + [e];
    assert forall x :: x in es ==> x in es + [e];
  }

  lemma AnyOfStep(es: seq<Expr>, e: Expr, env: Env)
    requires BvWidth(e) == 1
    ensures IsTrue(AnyOf(es + [e]), env) <==> IsTrue(AnyOf(es), env) || IsTrue(e, env)
    ensures IsTrue(AllOf(es + [e]), env) <==> IsTrue(AllOf(es), env) && IsTrue(e, env)
  {
    AnyOfExtend(es, e);
    Connectives(AnyOf(es), e, env);
    Connectives(AllOf(es), e, env);
  }

  lemma NoneTrue(env: Env)
    ensures !IsTrue(AnyOf([]), env) && IsTrue(AllOf([]), env)
  {
    Connectives(TRUE, TRUE, env);
  }

  lemma {:induction false} AnyOfMeaning(es: seq<Expr>, env: Env)
    requires forall e | e in es :: BvWidth(e) == 1
    ensures IsTrue(AnyOf(es), env) <==> SomeTrue(es, env)
  {
    if es == [] {
      NoneTrue(env);
    } else {
      var rest, last := es[..|es| - 1], es[|es| - 1];
      assert es == rest + [last];
      AnyOfMeaning(rest, env);
      AnyOfStep(rest, last, env);
      AnyTrueExtend(rest, last, env);
    }
  }

  lemma {:induction false} AllOfMeaning(es: seq<Expr>, env: Env)
    requires forall e | e in es :: BvWidth(e) == 1
    ensures IsTrue(AllOf(es), env) <==> AllTrue(es, env)
  {
    if es == [] {
      NoneTrue(env);
    } else {
      var rest, last := es[..|es| - 1], es[|es| - 1];
      assert es == rest + [last];
      AllOfMeaning(rest, env);
      AnyOfStep(rest, last, env);
      AnyTrueExtend(rest, last, env);
    }
  }

  function Vars(e: Expr): set<Value> {
    match e
    case BvConst(_, _) => {}
    case BvVar(_, v) => {v}
    case Bin(_, l, r) => Vars(l) + Vars(r)
    case Cmp(_, l, r) => Vars(l) + Vars(r)
    case Overflow(_, l, r) => Vars(l) + Vars(r)
    case BvNot(x) => Vars(x)
    case Ite(c, t, e) => Vars(c) + Vars(t) + Vars(e)
    case Extract(_, x) => Vars(x)
    case ZeroExtend(_, x) => Vars(x)
    case SExtend(_, x) => Vars(x)
  }

  /** A formula depends on its own variables only. */
  lemma {:induction false} EvalDependsOnVars(e: Expr, env: Env, env': Env)
    requires forall v | v in Vars(e) :: Read(env, v) == Read(env', v)
    ensures Eval(e, env) == Eval(e, env')
  {
    match e
    case BvConst(_, _) =>
    case BvVar(_, _) =>
    case Bin(_, l, r) => EvalDependsOnVars(l, env, env'); EvalDependsOnVars(r, env, env');
    case Cmp(_, l, r) => EvalDependsOnVars(l, env, env'); EvalDependsOnVars(r, env, env');
    case Overflow(_, l, r) => EvalDependsOnVars(l, env, env'); EvalDependsOnVars(r, env, env');
    case BvNot(x) => EvalDependsOnVars(x, env, env');
    case Ite(c, t, e) =>
      EvalDependsOnVars(c, env, env'); EvalDependsOnVars(t, env, env'); EvalDependsOnVars(e, env, env');
    case Extract(_, x) => EvalDependsOnVars(x, env, env');
    case ZeroExtend(_, x) => EvalDependsOnVars(x, env, env');
    case SExtend(_, x) => EvalDependsOnVars(x, env, env');
  }

  datatype Status = Timeout | Undefined | Unsat | Sat

  /** A decision procedure, given the asserted formulas and one assumption. */
  type Oracle = (set<Expr>, Expr) -> Status

  ghost predicate Satisfies(env: Env, asserted: set<Expr>, e: Expr) {
    IsTrue(e, env) && forall a | a in asserted :: IsTrue(a, env)
  }

  /** The procedure answers "unsatisfiable" only when no valuation is a model. */
  ghost predicate Sound(oracle: Oracle) {
    forall asserted, e, env | Satisfies(env, asserted, e) :: oracle(asserted, e) != Unsat
  }

  /** How many references clients hold to each formula. */
  type Refs = map<Expr, nat>

  /** A solver context.  A client may only mention nodes that it, or somebody it shares with,
      still holds a reference to. */
  class Solver {
    const oracle: Oracle
    var refs: Refs
    var asserted: set<Expr>

    constructor (oracle: Oracle)
      ensures this.oracle == oracle && asserted == {}
      ensures forall y :: Count(refs, y) == 0
    {
      this.oracle := oracle;
      refs := map[];
      asserted := {};
    }

    /** The destructor insists that no reference is left. */
    method Close()
      requires forall y :: Count(refs, y) == 0
    {
    }

    method Incref(e: Expr)
      requires Count(refs, e) > 0
      modifies this`refs
      ensures forall y :: Count(refs, y) == old(Count(refs, y)) + One(y == e)
    {
      refs := refs[e := Count(refs, e) + 1];
    }

    method Decref(e: Expr)
      requires Count(refs, e) > 0
      modifies this`refs
      ensures forall y :: Count(refs, y) + One(y == e) == old(Count(refs, y))
    {
      refs := refs[e := Count(refs, e) - 1];
    }

    // Constructors of nodes.  Nodes are shared, so equal formulas are one node.

    method MakeConst(w: Width, c: nat) returns (e: Expr)
      modifies this`refs
      ensures e == BvConst(w, c)
      ensures forall y :: Count(refs, y) == old(Count(refs, y)) + One(y == e)
    {
      e := BvConst(w, c);
      refs := refs[e := Count(refs, e) + 1];
    }

    method MakeVar(w: Width, v: Value) returns (e: Expr)
      modifies this`refs
      ensures e == BvVar(w, v)
      ensures forall y :: Count(refs, y) == old(Count(refs, y)) + One(y == e)
    {
      e := BvVar(w, v);
      refs := refs[e := Count(refs, e) + 1];
    }

    method MakeBinary(op: BinaryOp, l: Expr, r: Expr) returns (e: Expr)
      requires Count(refs, l) > 0
      requires Count(refs, r) > 0
      modifies this`refs
      ensures e == Bin(op, l, r)
      ensures forall y :: Count(refs, y) == old(Count(refs, y)) + One(y == e)
    {
      e := Bin(op, l, r);
      refs := refs[e := Count(refs, e) + 1];
    }

    method MakeCompare(p: Predicate, l: Expr, r: Expr) returns (e: Expr)
      requires Count(refs, l) > 0
      requires Count(refs, r) > 0
      modifies this`refs
      ensures e == Cmp(p, l, r)
      ensures forall y :: Count(refs, y) == old(Count(refs, y)) + One(y == e)
    {
      e := Cmp(p, l, r);
      refs := refs[e := Count(refs, e) + 1];
    }

    method MakeOverflow(op: OverflowOp, l: Expr, r: Expr) returns (e: Expr)
      requires Count(refs, l) > 0
      requires Count(refs, r) > 0
      modifies this`refs
      ensures e == Overflow(op, l, r)
      ensures forall y :: Count(refs, y) == old(Count(refs, y)) + One(y == e)
    {
      e := Overflow(op, l, r);
      refs := refs[e := Count(refs, e) + 1];
    }

    method MakeNot(x: Expr) returns (e: Expr)
      requires Count(refs, x) > 0
      modifies this`refs
      ensures e == BvNot(x)
      ensures forall y :: Count(refs, y) == old(Count(refs, y)) + One(y == e)
    {
      e := BvNot(x);
      refs := refs[e := Count(refs, e) + 1];
    }

    method MakeIte(c: Expr, t: Expr, n: Expr) returns (e: Expr)
      requires Count(refs, c) > 0
      requires Count(refs, t) > 0
      requires Count(refs, n) > 0
      modifies this`refs
      ensures e == Ite(c, t, n)
      ensures forall y :: Count(refs, y) == old(Count(refs, y)) + One(y == e)
    {
      e := Ite(c, t, n);
      refs := refs[e := Count(refs, e) + 1];
    }

    method MakeExtract(w: Width, x: Expr) returns (e: Expr)
      requires Count(refs, x) > 0
      modifies this`refs
      ensures e == Extract(w, x)
      ensures forall y :: Count(refs, y) == old(Count(refs, y)) + One(y == e)
    {
      e := Extract(w, x);
      refs := refs[e := Count(refs, e) + 1];
    }

    method MakeZeroExtend(extra: nat, x: Expr) returns (e: Expr)
      requires Count(refs, x) > 0
      modifies this`refs
      ensures e == ZeroExtend(extra, x)
      ensures forall y :: Count(refs, y) == old(Count(refs, y)) + One(y == e)
    {
      e := ZeroExtend(extra, x);
      refs := refs[e := Count(refs, e) + 1];
    }

    method MakeSignExtend(extra: nat, x: Expr) returns (e: Expr)
      requires Count(refs, x) > 0
      modifies this`refs
      ensures e == SExtend(extra, x)
      ensures forall y :: Count(refs, y) == old(Count(refs, y)) + One(y == e)
    {
      e := SExtend(extra, x);
      refs := refs[e := Count(refs, e) + 1];
    }

    method Assume(e: Expr)
      requires Count(refs, e) > 0
      modifies this`asserted
      ensures asserted == old(asserted) + {e}
    {
      asserted := asserted + {e};
    }

    method Query(e: Expr) returns (s: Status)
      requires Count(refs, e) > 0
      ensures s == oracle(asserted, e)
    {
      s := oracle(asserted, e);
    }
  }
}
