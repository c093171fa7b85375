/** The detector of comparisons that never vary. */
module CmpSat {
  import opened Bits
  import opened Ir
  import opened Dominance
  import opened References
  import opened Smt
  import opened Interp
  import opened Ledger
  import opened ValueGen
  import opened PathGen
  import opened Queries
  import opened GuardMeaning
  import opened RunSoundness

  datatype Verdict = AlwaysFalse | AlwaysTrue | NoVerdict

  /** A run (over no edge that the terminator guards overlook) brings control to this state. */
  ghost predicate Occurs(f: Function, s: State)
    requires WellFormed(f)
  {
    exists run :: IsRun(f, run) && TakesNoShadowed(f, run) && run[|run| - 1] == s
  }

  /** Whenever control is at the end of `b`, `v` does not have the value `x`. */
  ghost predicate NeverHolds(f: Function, b: Block, v: Value, x: int)
    requires WellFormed(f)
  {
    forall s: State | Occurs(f, s) && s.block == b :: Read(s.env, v) != x
  }

  /** A run that reaches `b` is a model of one of the two queries, whichever value the condition has. */
  lemma RunIsModel(f: Function, dt: DomTree, asserted: set<Expr>, b: Block, v: Value, vs: set<Value>, s: State)
    requires WellFormed(f) && ModeOk(f, Dominator(dt)) && UniformMetadata(f) && b < |f.blocks|
    requires IsInteger(f, v, 1) && Available(f, v, b) && AssertedOf(f, asserted, vs)
    requires Occurs(f, s) && s.block == b
    ensures Read(s.env, v) == 1 ==> Satisfies(s.env, asserted, BvAnd(Formula(f, v), Guard(f, Dominator(dt), b)))
    ensures Read(s.env, v) == 0 ==>
      Satisfies(s.env, asserted, BvAnd(BvNot(Formula(f, v)), Guard(f, Dominator(dt), b)))
  {
    OccurringState(f, dt, s, v);
    Connectives(Formula(f, v), Guard(f, Dominator(dt), b), s.env);
    Connectives(BvNot(Formula(f, v)), Guard(f, Dominator(dt), b), s.env);
    PlausibleRespects(f, s.env, asserted, vs);
  }

  lemma OccurringState(f: Function, dt: DomTree, s: State, v: Value)
    requires WellFormed(f) && ModeOk(f, Dominator(dt)) && Occurs(f, s)
    ensures Good(f, s) && IsTrue(Guard(f, Dominator(dt), s.block), s.env)
    ensures IsAnalyzable(f, v) && Available(f, v, s.block) ==> Eval(Formula(f, v), s.env) == Read(s.env, v)
  {
    var run :| IsRun(f, run) && TakesNoShadowed(f, run) && run[|run| - 1] == s;
    RunGood(f, run);
    DominatorGuardHolds(f, dt, run);
    ValueFormulasAreExact(f, run);
    assert Good(f, run[|run| - 1]);
  }

  /** Some valuation gives `v` the truth value `x`, lets control come to `b` along some path (to loop
      headers from their immediate dominators), and keeps the ranges of every value that either formula
      mentions. */
  ghost predicate Possible(f: Function, dt: DomTree, b: Block, v: Value, x: bool)
    requires WellFormed(f) && ModeOk(f, Dominator(dt)) && b < |f.blocks| && IsInteger(f, v, 1)
  {
    var value, path := if x then Formula(f, v) else BvNot(Formula(f, v)), Guard(f, Dominator(dt), b);
    exists env, blocks :: HoldsInTree(f, dt, blocks, b, env) && IsModel(f, env, value, path)
  }

  /** Check the conditional branch that ends block `b`. */
  method Check(f: Function, dt: DomTree, oracle: Oracle, b: Block) returns (reason: Verdict)
    requires WellFormed(f) && ModeOk(f, Dominator(dt)) && b < |f.blocks| && f.blocks[b].term.CondBr?
    requires SoundFor(oracle, f)
    ensures UniformMetadata(f) && reason == AlwaysFalse ==> NeverHolds(f, b, f.blocks[b].term.cond, 1)
    ensures UniformMetadata(f) && reason == AlwaysTrue ==> NeverHolds(f, b, f.blocks[b].term.cond, 0)
    ensures IsInteger(f, f.blocks[b].term.cond, 1)
    ensures reason == NoVerdict && CompleteFor(oracle, f) ==>
              Possible(f, dt, b, f.blocks[b].term.cond, true) && Possible(f, dt, b, f.blocks[b].term.cond, false)
  {
    assert BlockOk(f, b);
    var v := f.blocks[b].term.cond;
    var pg, valuePred, pathPred, vs := Open(f, Dominator(dt), oracle, v, b);
    ghost var asserted := pg.vg.smt.asserted;
    reason := DecideAndTearDown(pg, valuePred, pathPred);
    VerdictIsRight(f, dt, oracle, asserted, b, v, vs, reason);
  }

  /** Ask both questions, then destroy everything. */
  method DecideAndTearDown(pg: PathGen, valuePred: Expr, pathPred: Expr) returns (reason: Verdict)
    requires pg.Valid() && forall y :: pg.External(y) == 0
    requires Count(pg.vg.smt.refs, valuePred) > 0 && Count(pg.vg.smt.refs, pathPred) > 0
    modifies pg, pg.vg, pg.vg.smt`refs
    ensures Answers(pg.vg.smt.oracle, old(pg.vg.smt.asserted), valuePred, pathPred, reason)
  {
    reason := Decide(pg.vg.smt, valuePred, pathPred);
    forall y
      ensures Entries(pg.cache, y) <= pg.vg.External(y) && pg.External(y) == 0
    {
      assert old(pg.External(y)) == 0;
    }
    TearDown(pg.vg.smt, pg.vg, pg);
  }

  lemma BothAreQueries(f: Function, dt: DomTree, asserted: set<Expr>, b: Block, v: Value, vs: set<Value>)
    requires WellFormed(f) && ModeOk(f, Dominator(dt)) && b < |f.blocks| && IsInteger(f, v, 1)
    requires AssertedOf(f, asserted, vs)
    ensures IsQuery(f, asserted, BvAnd(Formula(f, v), Guard(f, Dominator(dt), b)))
    ensures IsQuery(f, asserted, BvAnd(BvNot(Formula(f, v)), Guard(f, Dominator(dt), b)))
  {
    AskedIsQuery(f, Dominator(dt), v, b, BvAnd(Formula(f, v), Guard(f, Dominator(dt), b)), asserted, vs);
    AskedIsQuery(f, Dominator(dt), v, b, BvAnd(BvNot(Formula(f, v)), Guard(f, Dominator(dt), b)), asserted, vs);
  }

  /** What the answers of the solver entail. */
  lemma VerdictIsRight(f: Function, dt: DomTree, oracle: Oracle, asserted: set<Expr>, b: Block, v: Value,
                       vs: set<Value>, reason: Verdict)
    requires WellFormed(f) && ModeOk(f, Dominator(dt)) && b < |f.blocks| && SoundFor(oracle, f)
    requires IsInteger(f, v, 1) && Available(f, v, b) && AssertedOf(f, asserted, vs)
    requires Vars(Formula(f, v)) + Vars(Guard(f, Dominator(dt), b)) <= vs
    requires Answers(oracle, asserted, Formula(f, v), Guard(f, Dominator(dt), b), reason)
    ensures UniformMetadata(f) && reason == AlwaysFalse ==> NeverHolds(f, b, v, 1)
    ensures UniformMetadata(f) && reason == AlwaysTrue ==> NeverHolds(f, b, v, 0)
    ensures reason == NoVerdict && CompleteFor(oracle, f) ==>
              Possible(f, dt, b, v, true) && Possible(f, dt, b, v, false)
  {
    BothAreQueries(f, dt, asserted, b, v, vs);
    if UniformMetadata(f) {
      forall s: State | Occurs(f, s) && s.block == b
        ensures reason == AlwaysFalse ==> Read(s.env, v) != 1
        ensures reason == AlwaysTrue ==> Read(s.env, v) != 0
      {
        RunIsModel(f, dt, asserted, b, v, vs, s);
      }
    }
    if reason == NoVerdict && CompleteFor(oracle, f) {
      var yes := ModelOfQuery(f, oracle, asserted, vs, Formula(f, v), Guard(f, Dominator(dt), b));
      ModelHasPath(f, dt, b, v, true, yes);
      var no := ModelOfQuery(f, oracle, asserted, vs, BvNot(Formula(f, v)), Guard(f, Dominator(dt), b));
      ModelHasPath(f, dt, b, v, false, no);
    }
  }

  lemma ModelHasPath(f: Function, dt: DomTree, b: Block, v: Value, x: bool, env: Env)
    requires WellFormed(f) && ModeOk(f, Dominator(dt)) && b < |f.blocks| && IsInteger(f, v, 1)
    requires IsModel(f, env, if x then Formula(f, v) else BvNot(Formula(f, v)), Guard(f, Dominator(dt), b))
    ensures Possible(f, dt, b, v, x)
  {
    DominatorGuardIsPath(f, dt, b, env);
  }

  /** How the verdict follows from the two queries. */
  ghost predicate Answers(oracle: Oracle, asserted: set<Expr>, value: Expr, path: Expr, reason: Verdict) {
    var yes, no := oracle(asserted, BvAnd(value, path)), oracle(asserted, BvAnd(BvNot(value), path));
    reason == if yes == Unsat then AlwaysFalse else if no == Unsat then AlwaysTrue else NoVerdict
  }

  /** Ask whether the comparison can be true, and if so whether it can be false. */
  method Decide(smt: Solver, valuePred: Expr, pathPred: Expr) returns (reason: Verdict)
    requires Count(smt.refs, valuePred) > 0 && Count(smt.refs, pathPred) > 0
    modifies smt`refs
    ensures forall y :: Count(smt.refs, y) == old(Count(smt.refs, y))
    ensures Answers(smt.oracle, smt.asserted, valuePred, pathPred, reason)
  {
    var query := smt.MakeBinary(BinaryOp.And, valuePred, pathPred);
    var status := smt.Query(query);
    smt.Decref(query);
    reason := NoVerdict;
    if status == Unsat {
      reason := AlwaysFalse;
    } else {
      var notValuePred := smt.MakeNot(valuePred);
      query := smt.MakeBinary(BinaryOp.And, notValuePred, pathPred);
      status := smt.Query(query);
      smt.Decref(query);
      smt.Decref(notValuePred);
      if status == Unsat {
        reason := AlwaysTrue;
      }
    }
  }

  /** When all terminators are plain, a verdict is about the branch itself: no run follows the
      edge that is ruled out. */
  lemma RuledOutEdge(f: Function, b: Block, run: seq<State>, i: nat)
    requires WellFormed(f) && b < |f.blocks| && f.blocks[b].term.CondBr?
    requires forall a: Block | a < |f.blocks| :: Plain(f.blocks[a].term)
    requires IsRun(f, run) && i < |run| - 1 && run[i].block == b
    ensures NeverHolds(f, b, f.blocks[b].term.cond, 1) ==> run[i + 1].block != f.blocks[b].term.ifTrue
    ensures NeverHolds(f, b, f.blocks[b].term.cond, 0) ==> run[i + 1].block != f.blocks[b].term.ifFalse
  {
    var prefix := run[..i + 1];
    forall j | 0 <= j < i
      ensures Steps(f, prefix[j], prefix[j + 1])
    {
      assert Steps(f, run[j], run[j + 1]);
    }
    PlainRuns(f, prefix);
    assert Occurs(f, prefix[i]);
    RunGood(f, run);
    assert Good(f, run[i]) && BlockOk(f, b);
    OneBitWidth();
    assert PlausibleAt(f, run[i].env, f.blocks[b].term.cond);
    assert Steps(f, run[i], run[i + 1]);
  }
}
