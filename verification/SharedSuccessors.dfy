/** Why a conditional branch must have two different successors and no switch case may share the
    default's destination: functions whose entry goes to one block either way, and a comparison in
    that block that a correct and complete solver reports as never true, although a run makes it
    true. */
module SharedSuccessors {
  import opened Bits
  import opened Ir
  import opened Dominance
  import opened Smt
  import opened Interp
  import opened ValueGen
  import opened PathGen
  import opened Queries
  import opened GuardMeaning
  import opened RunSoundness
  import opened Wrappers

  /** Both ways out of the entry lead to block 1: a branch on x, or a switch on x whose case 0 shares
      the destination of the default. */
  predicate Shares(entry: Terminator) {
    entry == CondBr(0, 1, 1) || entry == Switch(0, 1, [Case(1, 1)])
  }

  /** Values: an argument x, the constant 0, and x == 0 computed in block 1, which branches on it. */
  function Sample(entry: Terminator): Function {
    Function(
      [BlockInfo([], [], [], entry),
       BlockInfo([0, 0], [], [2], CondBr(2, 2, 3)),
       BlockInfo([1], [], [], Ret),
       BlockInfo([1], [], [], Ret)],
      [ValueInfo(Argument, 1, true, None),
       ValueInfo(ConstInt(0), 1, true, None),
       ValueInfo(ICmp(EQ, 0, 1), 1, true, Some(1))],
      [])
  }

  const TREE: DomTree := DomTree([0, 0, 1, 1])

  lemma SampleIsWellFormed(entry: Terminator)
    requires Shares(entry)
    ensures WellFormed(Sample(entry))
  {
    SampleBlocks(entry);
    SampleValues(entry);
  }

  lemma JoinBlock(entry: Terminator)
    requires Shares(entry)
    ensures BlockOk(Sample(entry), 1)
  {
    DominatesReflexive(Sample(entry), 1);
    assert 0 in Sample(entry).blocks[1].preds && !IsBackedge(Sample(entry), 0, 1);
  }

  lemma ExitBlock(entry: Terminator, b: Block)
    requires Shares(entry) && (b == 2 || b == 3)
    ensures BlockOk(Sample(entry), b)
  {
    assert 1 in Sample(entry).blocks[b].preds && !IsBackedge(Sample(entry), 1, b);
  }

  lemma SampleBlocks(entry: Terminator)
    requires Shares(entry)
    ensures forall b: Block | b < 4 :: BlockOk(Sample(entry), b)
  {
    forall b: Block | b < 4
      ensures BlockOk(Sample(entry), b)
    {
      if b == 1 {
        JoinBlock(entry);
      } else if b != 0 {
        ExitBlock(entry, b);
      }
    }
  }

  lemma SampleValues(entry: Terminator)
    requires Shares(entry)
    ensures forall v: Value | v < 3 :: ValueOk(Sample(entry), v)
  {
    OneBitWidth();
    assert ValueOk(Sample(entry), 0) && ValueOk(Sample(entry), 1);
    assert Operands(ICmp(EQ, 0, 1)) == {0, 1};
    assert ValueOk(Sample(entry), 2);
  }

  lemma TreeIsDomTree(entry: Terminator)
    requires Shares(entry) && WellFormed(Sample(entry))
    ensures ModeOk(Sample(entry), Dominator(TREE))
  {
    forall b: Block | 0 < b < 4
      ensures IsImmediateDominator(Sample(entry), TREE.idom[b], b)
    {
      var p := Sample(entry).blocks[b].preds[0];
      assert p in Sample(entry).blocks[b].preds;
      OnlyPredecessor(entry, p, b);
    }
  }

  /** A block's single predecessor is its immediate dominator. */
  lemma OnlyPredecessor(entry: Terminator, p: Block, b: Block)
    requires Shares(entry) && WellFormed(Sample(entry)) && 0 < b < 4
    requires p in Sample(entry).blocks[b].preds && forall q | q in Sample(entry).blocks[b].preds :: q == p
    ensures IsImmediateDominator(Sample(entry), p, b)
  {
    DominatesReflexive(Sample(entry), p);
    DominatesJoin(Sample(entry), p, b);
    assert BlockOk(Sample(entry), b);
    forall a | Dominates(Sample(entry), a, b) && a != b
      ensures Dominates(Sample(entry), a, p)
    {
      DominatesPredecessor(Sample(entry), a, p, b);
    }
  }

  /** The run that starts with x = 0 goes to block 1, where the comparison is true. */
  lemma SampleRun(entry: Terminator) returns (run: seq<State>)
    requires Shares(entry) && WellFormed(Sample(entry))
    ensures IsRun(Sample(entry), run) && |run| == 2 && run[1].block == 1 && Read(run[1].env, 2) == 1
  {
    var env: Env := map[];
    OneBitWidth();
    assert Plausible(Sample(entry), env);
    var s := State(0, Body(Sample(entry), 0, env, env));
    assert s.env == env;
    assert Start(Sample(entry), s, env, env);
    TakenIsPredecessor(Sample(entry), 0, env, 1);
    var t := State(1, Enter(Sample(entry), 0, 1, env, env));
    assert Step(Sample(entry), s, t, env);
    assert Steps(Sample(entry), s, t);
    run := [s, t];
    assert Start(Sample(entry), run[0], env, env) && Steps(Sample(entry), run[0], run[1]);
    assert IsRun(Sample(entry), run);
    ComparisonIsTrue(Sample(entry), s, t, env);
  }

  lemma ComparisonIsTrue(f: Function, s: State, t: State, choice: Env)
    requires WellFormed(f) && Step(f, s, t, choice) && t.block == 1 && |f.values| > 2
    requires f.values[0].home == f.values[1].home == None && f.values[2].home == Some(1)
    requires f.values[2].def == ICmp(EQ, 0, 1) && Read(s.env, 0) == Read(s.env, 1) == 0
    ensures Read(t.env, 2) == 1
  {
    StepFrame(f, s, t, choice, 0);
    StepFrame(f, s, t, choice, 1);
    StepValues(f, s, t, choice, 2);
  }

  /** The guard of block 1 insists that x is not 0, so with the comparison it has no model. */
  lemma QueryHasNoModel(entry: Terminator, env: Env)
    requires Shares(entry) && WellFormed(Sample(entry)) && ModeOk(Sample(entry), Dominator(TREE))
    ensures !IsTrue(BvAnd(Formula(Sample(entry), 2), Guard(Sample(entry), Dominator(TREE), 1)), env)
  {
    NoModel(Sample(entry), Dominator(TREE), entry, env);
  }

  lemma NoModel(f: Function, mode: Mode, entry: Terminator, env: Env)
    requires WellFormed(f) && ModeOk(f, mode) && |f.blocks| > 1 && Shares(entry)
    requires f.blocks[0].term == entry && f.blocks[1].preds == [0, 0] && !HasBackedge(f, 1)
    requires IsInteger(f, 0, 1) && IsInteger(f, 1, 1) && IsInteger(f, 2, 1)
    requires f.values[1].def == ConstInt(0) && f.values[2].def == ICmp(EQ, 0, 1)
    ensures !IsTrue(BvAnd(Formula(f, 2), Guard(f, mode, 1)), env)
  {
    Connectives(Formula(f, 2), Guard(f, mode, 1), env);
    if IsTrue(Guard(f, mode, 1), env) {
      GuardInsists(f, mode, entry, env);
      ComparisonFormula(f, env);
    }
  }

  lemma GuardInsists(f: Function, mode: Mode, entry: Terminator, env: Env)
    requires WellFormed(f) && ModeOk(f, mode) && |f.blocks| > 1 && Shares(entry)
    requires f.blocks[0].term == entry && f.blocks[1].preds == [0, 0] && !HasBackedge(f, 1)
    requires IsInteger(f, 0, 1) && |f.values| > 1 && f.values[1].def == ConstInt(0)
    requires IsTrue(Guard(f, mode, 1), env)
    ensures Eval(Formula(f, 0), env) == 1
  {
    DisjunctiveGuardMeaning(f, mode, 1, env);
    assert EdgeHolds(f, 0, 1, env);
    EdgeInsists(f, entry, env);
  }

  /** An edge that is not overlooked is taken only with the condition true. */
  lemma EdgeInsists(f: Function, entry: Terminator, env: Env)
    requires WellFormed(f) && |f.blocks| > 1 && Shares(entry) && f.blocks[0].term == entry
    requires IsInteger(f, 0, 1) && |f.values| > 1 && f.values[1].def == ConstInt(0)
    requires !Shadowed(f, entry, Condition(f, 0, env), 1)
    ensures Eval(Formula(f, 0), env) == 1
  {
    assert entry.Switch? ==> CaseMatches(f, entry.cases[0], 0);
    OneBitWidth();
  }

  lemma ComparisonFormula(f: Function, env: Env)
    requires WellFormed(f) && IsInteger(f, 0, 1) && IsInteger(f, 1, 1) && IsInteger(f, 2, 1)
    requires f.values[1].def == ConstInt(0) && f.values[2].def == ICmp(EQ, 0, 1)
    ensures IsTrue(Formula(f, 2), env) <==> Eval(Formula(f, 0), env) == 0
  {
    ConstantFormula(f, 1, env);
    assert Formula(f, 2) == BvEq(Formula(f, 0), Formula(f, 1));
  }

  /** Some run makes the comparison true, and yet a correct and complete procedure refutes it. */
  lemma ReportCanBeWrong(entry: Terminator) returns (run: seq<State>)
    requires Shares(entry)
    ensures WellFormed(Sample(entry)) && ModeOk(Sample(entry), Dominator(TREE))
    ensures IsRun(Sample(entry), run) && |run| == 2 && run[1].block == 1 && Read(run[1].env, 2) == 1
    ensures forall oracle: Oracle, asserted | Complete(oracle) ::
      oracle(asserted, BvAnd(Formula(Sample(entry), 2), Guard(Sample(entry), Dominator(TREE), 1))) == Unsat
  {
    SampleIsWellFormed(entry);
    TreeIsDomTree(entry);
    run := SampleRun(entry);
    var query := BvAnd(Formula(Sample(entry), 2), Guard(Sample(entry), Dominator(TREE), 1));
    forall oracle: Oracle, asserted | Complete(oracle)
      ensures oracle(asserted, query) == Unsat
    {
      if oracle(asserted, query) != Unsat {
        var env :| Satisfies(env, asserted, query);
        QueryHasNoModel(entry, env);
      }
    }
  }
}
