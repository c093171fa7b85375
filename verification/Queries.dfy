/** What the clients of the generators share: the formulas of a query, and what the constraints that
    come with them mean. */
module Queries {
  import opened Bits
  import opened Ir
  import opened References
  import opened Smt
  import opened Interp
  import opened Ledger
  import opened ValueGen
  import opened PathGen

  // ------------------------------------------------------------------ range metadata

  /** The condition built for one metadata range says of a formula that its value lies in it. */
  lemma RangeFormulaMeaning(w: Width, e: Expr, r: (nat, nat), env: Env)
    requires BvWidth(e) == w && r.0 < Pow2(w) && r.1 < Pow2(w) && r.0 != r.1
    ensures IsTrue(RangeFormula(w, e, r), env) <==> InRange(r, Eval(e, env))
  {
    var above, below := Cmp(UGE, e, BvConst(w, r.0)), Cmp(ULT, e, BvConst(w, r.1));
    BoundMeaning(w, e, r.0, env);
    BoundMeaning(w, e, r.1, env);
    Connectives(above, below, env);
    RangeSides(r, Eval(e, env));
  }

  /** A comparison with a constant. */
  lemma BoundMeaning(w: Width, e: Expr, c: nat, env: Env)
    requires BvWidth(e) == w && c < Pow2(w)
    ensures IsTrue(Cmp(UGE, e, BvConst(w, c)), env) <==> Eval(e, env) >= c
    ensures IsTrue(Cmp(ULT, e, BvConst(w, c)), env) <==> Eval(e, env) < c
  {
    WrapSmall(w, c);
    assert Eval(BvConst(w, c), env) == c;
  }

  /** Lying in a range, in terms of its two bounds. */
  lemma RangeSides(r: (nat, nat), x: nat)
    requires r.0 != r.1
    ensures InRange(r, x) <==>
      if r.0 == 0 then x < r.1 else if r.1 == 0 then x >= r.0
      else if r.0 <= r.1 then x >= r.0 && x < r.1 else x >= r.0 || x < r.1
  {
  }

  predicate InEvery(ranges: seq<(nat, nat)>, x: int) {
    forall i | 0 <= i < |ranges| :: InRange(ranges[i], x)
  }

  /** Together, the constraints of a value say that it lies in every one of its ranges. */
  lemma ConstraintsMeaning(f: Function, v: Value, env: Env)
    requires WellFormed(f) && IsAnalyzable(f, v) && f.values[v].def.Opaque?
    ensures (forall c | c in Constraints(f, v) :: IsTrue(c, env)) <==>
            InEvery(f.values[v].def.ranges, Eval(BvVar(f.values[v].width, v), env))
  {
    assert ValueOk(f, v);
    var w, ranges := f.values[v].width, f.values[v].def.ranges;
    var e := BvVar(w, v);
    forall i | 0 <= i < |ranges| && ranges[i].0 != ranges[i].1
      ensures RangeFormula(w, e, ranges[i]) in Constraints(f, v)
      ensures IsTrue(RangeFormula(w, e, ranges[i]), env) <==> InRange(ranges[i], Eval(e, env))
    {
      RangeFormulaMeaning(w, e, ranges[i], env);
    }
  }

  /** All ranges are one and the same; ranges with equal bounds, which say nothing, count as one. */
  predicate Uniform(ranges: seq<(nat, nat)>) {
    forall i, j | 0 <= i < |ranges| && 0 <= j < |ranges| :: SameRange(ranges[i], ranges[j])
  }

  predicate SameRange(a: (nat, nat), b: (nat, nat)) { a == b || (a.0 == a.1 && b.0 == b.1) }

  /** Two ranges that are not the same differ on some value; a wrapping range has exactly one value
      that it enters at and one that it leaves at. */
  lemma RangesDiffer(w: Width, a: (nat, nat), b: (nat, nat)) returns (x: nat)
    requires a.0 < Pow2(w) && a.1 < Pow2(w) && b.0 < Pow2(w) && b.1 < Pow2(w)
    requires !SameRange(a, b)
    ensures x < Pow2(w) && (InRange(a, x) <==> !InRange(b, x))
  {
    var last := UMax(w);
    if a.0 == a.1 {
      x := b.1;
    } else if b.0 == b.1 {
      x := a.1;
    } else if a.0 != b.0 {
      x := if InRange(b, a.0) then (if a.0 == 0 then last else a.0 - 1) else a.0;
    } else {
      x := if InRange(b, a.1) then a.1 else if a.1 == 0 then last else a.1 - 1;
    }
  }

  /** Asserting each range on its own says what the metadata says, for every value of the width,
      exactly when all the ranges are the same. */
  lemma ConstraintsAreMetadata(w: Width, ranges: seq<(nat, nat)>)
    requires forall i | 0 <= i < |ranges| :: ranges[i].0 < Pow2(w) && ranges[i].1 < Pow2(w)
    ensures (forall x: nat | x < Pow2(w) :: InSome(ranges, x) <==> InEvery(ranges, x)) <==> Uniform(ranges)
  {
    if Uniform(ranges) {
      forall x: nat | x < Pow2(w)
        ensures InSome(ranges, x) <==> InEvery(ranges, x)
      {
        UniformAgrees(ranges, x);
      }
    } else {
      var i, j :| 0 <= i < |ranges| && 0 <= j < |ranges| && !SameRange(ranges[i], ranges[j]);
      var x := RangesDiffer(w, ranges[i], ranges[j]);
      assert InSome(ranges, x) && !InEvery(ranges, x);
    }
  }

  lemma UniformAgrees(ranges: seq<(nat, nat)>, x: int)
    requires Uniform(ranges)
    ensures InSome(ranges, x) <==> InEvery(ranges, x)
  {
    if ranges != [] {
      forall i | 0 <= i < |ranges|
        ensures InRange(ranges[i], x) <==> InRange(ranges[0], x)
      {
        assert SameRange(ranges[i], ranges[0]);
      }
      if InEvery(ranges, x) { assert InRange(ranges[0], x); }
    }
  }

  /** Every load and call has at most one kind of range, as the writer of the metadata leaves it. */
  predicate UniformMetadata(f: Function) {
    forall v: Value | v < |f.values| && f.values[v].analyzable && f.values[v].def.Opaque? ::
      Uniform(f.values[v].def.ranges)
  }

  /** Metadata as the range pass writes it, one pair and no more, is of this kind. */
  lemma OnePairIsUniform(f: Function)
    requires forall v: Value | v < |f.values| && f.values[v].def.Opaque? :: |f.values[v].def.ranges| <= 1
    ensures UniformMetadata(f)
  {
    forall v: Value | v < |f.values| && f.values[v].def.Opaque?
      ensures Uniform(f.values[v].def.ranges)
    {
    }
  }

  lemma PlausibleSatisfies(f: Function, v: Value, env: Env)
    requires WellFormed(f) && UniformMetadata(f) && Plausible(f, env) && IsAnalyzable(f, v)
    ensures forall c | c in Constraints(f, v) :: IsTrue(c, env)
  {
    assert PlausibleAt(f, env, v);
    if f.values[v].def.Opaque? {
      WrapSmall(f.values[v].width, Read(env, v));
      UniformAgrees(f.values[v].def.ranges, Read(env, v));
      ConstraintsMeaning(f, v, env);
    }
  }

  // ------------------------------------------------------------------ models

  /** The procedure finds a model whenever there is one to find. */
  ghost predicate Complete(oracle: Oracle) {
    forall asserted, e | oracle(asserted, e) != Unsat :: exists env :: Satisfies(env, asserted, e)
  }

  /** There is such a procedure, and a correct one at that. */
  lemma IdealProcedure() returns (oracle: Oracle)
    ensures Sound(oracle) && Complete(oracle)
  {
    oracle := (asserted: set<Expr>, e: Expr) => if exists env :: Satisfies(env, asserted, e) then Sat else Unsat;
  }

  ghost predicate FromMetadata(f: Function, c: Expr) {
    exists x :: c in Constraints(f, x)
  }

  /** `e` asks whether `v`, or its negation, is possible at the end of `b`. */
  ghost predicate Asks(f: Function, mode: Mode, v: Value, b: Block, e: Expr)
    requires WellFormed(f)
  {
    && ModeOk(f, mode) && b < |f.blocks| && IsInteger(f, v, 1)
    && (e == BvAnd(Formula(f, v), Guard(f, mode, b)) || e == BvAnd(BvNot(Formula(f, v)), Guard(f, mode, b)))
  }

  /** A query that a client asks about the function, under constraints from its metadata. */
  ghost predicate IsQuery(f: Function, asserted: set<Expr>, e: Expr)
    requires WellFormed(f)
  {
    (forall c | c in asserted :: FromMetadata(f, c)) && exists mode, v, b :: Asks(f, mode, v, b, e)
  }

  /** The procedure is right to answer "unsatisfiable" to queries about this function. */
  ghost predicate SoundFor(oracle: Oracle, f: Function)
    requires WellFormed(f)
  {
    forall asserted, e, env | IsQuery(f, asserted, e) && Satisfies(env, asserted, e) :: oracle(asserted, e) != Unsat
  }

  ghost predicate CompleteFor(oracle: Oracle, f: Function)
    requires WellFormed(f)
  {
    forall asserted, e | IsQuery(f, asserted, e) && oracle(asserted, e) != Unsat ::
      exists env :: Satisfies(env, asserted, e)
  }

  /** A procedure that is right about all formulas is right about these. */
  lemma RightEverywhere(oracle: Oracle, f: Function)
    requires WellFormed(f)
    ensures Sound(oracle) ==> SoundFor(oracle, f)
    ensures Complete(oracle) ==> CompleteFor(oracle, f)
  {
  }

  lemma AskedIsQuery(f: Function, mode: Mode, v: Value, b: Block, e: Expr, asserted: set<Expr>, vs: set<Value>)
    requires WellFormed(f) && Asks(f, mode, v, b, e) && AssertedOf(f, asserted, vs)
    ensures IsQuery(f, asserted, e)
  {
    forall c | c in asserted
      ensures FromMetadata(f, c)
    {
      var x :| x in vs && c in Constraints(f, x);
    }
  }

  /** The valuation keeps the constraints of these values. */
  ghost predicate Respects(f: Function, env: Env, vs: set<Value>) {
    forall x, c | x in vs && c in Constraints(f, x) :: IsTrue(c, env)
  }

  /** Asserted are exactly the constraints of these values. */
  ghost predicate AssertedOf(f: Function, asserted: set<Expr>, vs: set<Value>) {
    && (forall x | x in vs :: IsAnalyzable(f, x) && Constraints(f, x) <= asserted)
    && (forall c | c in asserted :: exists x :: x in vs && c in Constraints(f, x))
  }

  lemma PlausibleRespects(f: Function, env: Env, asserted: set<Expr>, vs: set<Value>)
    requires WellFormed(f) && UniformMetadata(f) && Plausible(f, env) && AssertedOf(f, asserted, vs)
    ensures forall c | c in asserted :: IsTrue(c, env)
  {
    forall c | c in asserted
      ensures IsTrue(c, env)
    {
      var x :| x in vs && c in Constraints(f, x);
      PlausibleSatisfies(f, x, env);
    }
  }

  /** A model of the query that keeps the constraints of every value the query mentions. */
  ghost predicate IsModel(f: Function, env: Env, value: Expr, path: Expr) {
    IsTrue(value, env) && IsTrue(path, env) && Respects(f, env, Vars(value) + Vars(path))
  }

  lemma ModelOfQuery(f: Function, oracle: Oracle, asserted: set<Expr>, vs: set<Value>, value: Expr, path: Expr)
    returns (env: Env)
    requires WellFormed(f) && BvWidth(value) == 1 && BvWidth(path) == 1
    requires CompleteFor(oracle, f) && IsQuery(f, asserted, BvAnd(value, path))
    requires AssertedOf(f, asserted, vs) && Vars(value) + Vars(path) <= vs
    requires oracle(asserted, BvAnd(value, path)) != Unsat
    ensures IsModel(f, env, value, path)
  {
    env :| Satisfies(env, asserted, BvAnd(value, path));
    Connectives(value, path, env);
  }

  // ------------------------------------------------------------------ setting up and taking down

  /** Create the solver and the generators, and build both formulas of a query.  Asserted
      on the way are the range constraints of `vs`, which has every value the query mentions. */
  method Open(f: Function, mode: Mode, oracle: Oracle, v: Value, b: Block)
    returns (pg: PathGen, value: Expr, path: Expr, ghost vs: set<Value>)
    requires WellFormed(f) && ModeOk(f, mode) && b < |f.blocks| && IsInteger(f, v, 1)
    ensures fresh(pg) && fresh(pg.vg) && fresh(pg.vg.smt)
    ensures pg.Valid() && pg.vg.smt.oracle == oracle && value == Formula(f, v) && path == Guard(f, mode, b)
    ensures Count(pg.vg.smt.refs, value) > 0 && Count(pg.vg.smt.refs, path) > 0
    ensures forall y :: pg.External(y) == 0
    ensures AssertedOf(f, pg.vg.smt.asserted, vs) && Vars(value) + Vars(path) <= vs
  {
    var smt := new Solver(oracle);
    var vg := new ValueGen(f, smt);
    pg := new PathGen(vg, mode);
    value, path := Prepare(pg, v, b);
    vs := vg.cache.Keys;
    forall c | c in smt.asserted
      ensures exists x :: x in vs && c in Constraints(f, x)
    {
      assert vg.Justified(c);
    }
  }

  /** Destroy the generators and then the solver, which finds no reference left. */
  method TearDown(smt: Solver, vg: ValueGen, pg: PathGen)
    requires pg.vg == vg && vg.smt == smt && pg.Valid()
    requires forall y :: pg.External(y) == 0
    modifies pg, vg, smt`refs
    ensures forall y :: Count(smt.refs, y) == 0
  {
    pg.Dispose();
    vg.Dispose();
    smt.Close();
  }

  /** Both formulas of a query, owned by the caches. */
  method Prepare(pg: PathGen, v: Value, b: Block) returns (value: Expr, path: Expr)
    requires pg.Valid() && b < |pg.f.blocks| && IsInteger(pg.f, v, 1) && pg.cache == map[]
    modifies pg, pg.vg, pg.vg.smt
    ensures pg.Valid() && value == Formula(pg.f, v) && path == Guard(pg.f, pg.mode, b)
    ensures Vars(value) + Vars(path) <= pg.vg.cache.Keys
    ensures Count(pg.vg.smt.refs, value) > 0 && Count(pg.vg.smt.refs, path) > 0
    ensures forall y :: pg.External(y) == old(pg.External(y))
  {
    forall y ensures Entries(pg.cache, y) == 0 { NoEntries(pg.cache, y); }
    value := pg.vg.Get(v);
    forall y
      ensures Entries(pg.cache, y) <= pg.vg.External(y)
      ensures pg.External(y) == old(pg.External(y))
    {
      assert old(pg.External(y)) >= 0;
    }
    path := pg.Get(b);
    pg.vg.CachedIsLive(v);
  }
}
