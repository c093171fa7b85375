/** The satisfiability query behind an overflow report. */
module IntSat {
  import opened Bits
  import opened Ir
  import opened References
  import opened Smt
  import opened Interp
  import opened Ledger
  import opened ValueGen
  import opened PathGen
  import opened Queries
  import opened FormulaSoundness
  import opened GuardMeaning
  import opened RunSoundness

  /** Some valuation makes `v` true, lets control go from the entry to `b` without a back edge, and
      keeps the ranges of every value that the formulas mention. */
  ghost predicate PossibleAlongPath(f: Function, b: Block, v: Value)
    requires WellFormed(f) && b < |f.blocks| && IsInteger(f, v, 1)
  {
    exists env, path :: HoldsAlong(f, path, b, env) && IsModel(f, env, Formula(f, v), Guard(f, Forward, b))
  }

  /** The query behind an overflow report at the end of block `b`: can `v` be true there?  It
      drops back edges.  "Unsatisfiable" means that no run without back edges makes `v` true there;
      any other answer of a complete procedure has a path to show for it. */
  method QueryOverflow(f: Function, oracle: Oracle, b: Block, v: Value) returns (status: Status)
    requires WellFormed(f) && b < |f.blocks| && IsInteger(f, v, 1) && Available(f, v, b)
    requires SoundFor(oracle, f)
    ensures UniformMetadata(f) && status == Unsat ==>
              forall s: State | OccursForward(f, s) && s.block == b :: Read(s.env, v) != 1
    ensures status != Unsat && CompleteFor(oracle, f) ==> PossibleAlongPath(f, b, v)
  {
    var pg, value, path, vs := Open(f, Forward, oracle, v, b);
    ghost var asserted := pg.vg.smt.asserted;
    status := AskAndTearDown(pg, value, path);
    AskedIsQuery(f, Forward, v, b, BvAnd(Formula(f, v), Guard(f, Forward, b)), asserted, vs);
    forall s: State | UniformMetadata(f) && OccursForward(f, s) && s.block == b && Read(s.env, v) == 1
      ensures Satisfies(s.env, asserted, BvAnd(Formula(f, v), Guard(f, Forward, b)))
    {
      ForwardStateIsModel(f, asserted, s, v, vs);
    }
    if status != Unsat && CompleteFor(oracle, f) {
      ModelIsPath(f, oracle, b, v, asserted, vs);
    }
  }

  /** Ask whether both formulas can be true together, then destroy everything. */
  method AskAndTearDown(pg: PathGen, value: Expr, path: Expr) returns (status: Status)
    requires pg.Valid() && forall y :: pg.External(y) == 0
    requires Count(pg.vg.smt.refs, value) > 0 && Count(pg.vg.smt.refs, path) > 0
    modifies pg, pg.vg, pg.vg.smt`refs
    ensures status == pg.vg.smt.oracle(old(pg.vg.smt.asserted), BvAnd(value, path))
  {
    var smt := pg.vg.smt;
    var query := smt.MakeBinary(BinaryOp.And, value, path);
    status := smt.Query(query);
    smt.Decref(query);
    forall y
      ensures Entries(pg.cache, y) <= pg.vg.External(y) && pg.External(y) == 0
    {
      assert old(pg.External(y)) == 0;
    }
    TearDown(smt, pg.vg, pg);
  }

  lemma ModelIsPath(f: Function, oracle: Oracle, b: Block, v: Value, asserted: set<Expr>, vs: set<Value>)
    requires WellFormed(f) && b < |f.blocks| && IsInteger(f, v, 1) && CompleteFor(oracle, f)
    requires AssertedOf(f, asserted, vs) && Vars(Formula(f, v)) + Vars(Guard(f, Forward, b)) <= vs
    requires oracle(asserted, BvAnd(Formula(f, v), Guard(f, Forward, b))) != Unsat
    ensures PossibleAlongPath(f, b, v)
  {
    AskedIsQuery(f, Forward, v, b, BvAnd(Formula(f, v), Guard(f, Forward, b)), asserted, vs);
    var env := ModelOfQuery(f, oracle, asserted, vs, Formula(f, v), Guard(f, Forward, b));
    ForwardGuardIsPath(f, b, env);
    var path :| HoldsAlong(f, path, b, env);
  }

  /** A run that never follows a back edge (nor one that the guards overlook) ends like this. */
  ghost predicate OccursForward(f: Function, s: State)
    requires WellFormed(f)
  {
    exists run :: IsForwardRun(f, run) && run[|run| - 1] == s
  }

  ghost predicate IsForwardRun(f: Function, run: seq<State>)
    requires WellFormed(f)
  {
    && IsRun(f, run) && TakesNoShadowed(f, run)
    && forall i | 0 <= i < |run| - 1 :: !IsBackedge(f, run[i].block, run[i + 1].block)
  }

  /** When all terminators are plain, every run without back edges counts. */
  lemma PlainForwardOccurs(f: Function, run: seq<State>)
    requires WellFormed(f) && IsRun(f, run) && forall b: Block | b < |f.blocks| :: Plain(f.blocks[b].term)
    requires forall i | 0 <= i < |run| - 1 :: (run[i].block, run[i + 1].block) !in f.backedges
    ensures OccursForward(f, run[|run| - 1])
  {
    PlainRuns(f, run);
    assert IsForwardRun(f, run);
  }

  lemma ForwardStateIsModel(f: Function, asserted: set<Expr>, s: State, v: Value, vs: set<Value>)
    requires WellFormed(f) && OccursForward(f, s) && s.block < |f.blocks|
    requires IsInteger(f, v, 1) && Available(f, v, s.block) && Read(s.env, v) == 1
    requires UniformMetadata(f) && AssertedOf(f, asserted, vs)
    ensures Satisfies(s.env, asserted, BvAnd(Formula(f, v), Guard(f, Forward, s.block)))
  {
    var run :| IsForwardRun(f, run) && run[|run| - 1] == s;
    RunGood(f, run);
    assert Good(f, run[|run| - 1]);
    ForwardGuardHolds(f, run);
    FormulaIsValue(f, s.env, s.block, v);
    Connectives(Formula(f, v), Guard(f, Forward, s.block), s.env);
    PlausibleRespects(f, s.env, asserted, vs);
  }
}
