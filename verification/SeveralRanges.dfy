/** Why a load may have only one range: a load with two, and a comparison that a correct and complete
    solver reports as never true, although a run that keeps to the metadata makes it true. */
module SeveralRanges {
  import opened Bits
  import opened Ir
  import opened Dominance
  import opened Smt
  import opened Interp
  import opened ValueGen
  import opened PathGen
  import opened Queries
  import opened RunSoundness
  import opened Wrappers

  const RANGES: seq<(nat, nat)> := [(0, 1), (5, 6)]

  /** Values: a load x that is 0 or 5, the constant 0, and x == 0, on which block 0 branches. */
  const SAMPLE: Function :=
    Function(
      [BlockInfo([], [], [0, 2], CondBr(2, 1, 2)),
       BlockInfo([0], [], [], Ret),
       BlockInfo([0], [], [], Ret)],
      [ValueInfo(Opaque(RANGES), 3, true, Some(0)),
       ValueInfo(ConstInt(0), 3, true, None),
       ValueInfo(ICmp(EQ, 0, 1), 1, true, Some(0))],
      [])

  const TREE: DomTree := DomTree([0, 0, 0])

  lemma SampleIsWellFormed()
    ensures WellFormed(SAMPLE) && !UniformMetadata(SAMPLE)
  {
    EntryBlock();
    ExitBlock(1);
    ExitBlock(2);
    SampleValues();
    assert !SameRange(RANGES[0], RANGES[1]);
    var zero: Value := 0;
    assert SAMPLE.values[zero].def.Opaque? && !Uniform(RANGES);
  }

  lemma EntryBlock()
    ensures BlockOk(SAMPLE, 0)
  {
    DominatesReflexive(SAMPLE, 0);
  }

  lemma SampleValues()
    ensures forall v: Value | v < 3 :: ValueOk(SAMPLE, v)
  {
    ThreeBits();
    DominatesReflexive(SAMPLE, 0);
    assert Operands(ICmp(EQ, 0, 1)) == {0, 1};
    assert ValueOk(SAMPLE, 0) && ValueOk(SAMPLE, 1) && ValueOk(SAMPLE, 2);
  }

  lemma ThreeBits()
    ensures Pow2(3) == 8 && Pow2(1) == 2
  {
    assert Pow2(2) == 4;
  }

  lemma ExitBlock(b: Block)
    requires b == 1 || b == 2
    ensures BlockOk(SAMPLE, b)
  {
    assert 0 in SAMPLE.blocks[b].preds && !IsBackedge(SAMPLE, 0, b);
  }

  lemma TreeIsDomTree()
    requires WellFormed(SAMPLE)
    ensures ModeOk(SAMPLE, Dominator(TREE))
  {
    forall b: Block | 0 < b < 3
      ensures IsImmediateDominator(SAMPLE, 0, b)
    {
      DominatesReflexive(SAMPLE, 0);
      DominatesJoin(SAMPLE, 0, b);
      assert BlockOk(SAMPLE, b) && 0 in SAMPLE.blocks[b].preds;
      forall a | Dominates(SAMPLE, a, b) && a != b
        ensures Dominates(SAMPLE, a, 0)
      {
        DominatesPredecessor(SAMPLE, a, 0, b);
      }
    }
  }

  /** The run in which the load gives 0, as its metadata allows. */
  lemma SampleRun() returns (run: seq<State>)
    requires WellFormed(SAMPLE)
    ensures IsRun(SAMPLE, run) && |run| == 1 && run[0].block == 0 && Read(run[0].env, 2) == 1
  {
    var env: Env := map[];
    ThreeBits();
    assert InRange(RANGES[0], 0);
    assert Plausible(SAMPLE, env);
    BodyIsTyped(SAMPLE, 0);
    BodyInOrder(SAMPLE, 0);
    var s := State(0, Body(SAMPLE, 0, env, env));
    assert Start(SAMPLE, s, env, env);
    run := [s];
    assert Start(SAMPLE, run[0], env, env);
    var body := SAMPLE.blocks[0].body;
    RunBodyEquations(SAMPLE, body, env, env, 0);
    RunBodyEquations(SAMPLE, body, env, env, 2);
    RunBodyFrame(SAMPLE, body, env, env, 1);
    assert Read(s.env, 0) == 0 && Read(s.env, 1) == 0;
  }

  /** No value lies in both ranges. */
  lemma ConstraintsClash(env: Env)
    requires WellFormed(SAMPLE)
    ensures exists c :: c in Constraints(SAMPLE, 0) && !IsTrue(c, env)
  {
    ConstraintsMeaning(SAMPLE, 0, env);
    var x := Eval(BvVar(3, 0), env);
    assert !(InRange(RANGES[0], x) && InRange(RANGES[1], x));
  }

  /** Some run makes the comparison true, and yet a complete procedure that has the load's
      constraints refutes it. */
  lemma ReportCanBeWrong() returns (run: seq<State>)
    ensures WellFormed(SAMPLE) && ModeOk(SAMPLE, Dominator(TREE)) && !UniformMetadata(SAMPLE)
    ensures IsRun(SAMPLE, run) && |run| == 1 && run[0].block == 0 && Read(run[0].env, 2) == 1
    ensures forall oracle: Oracle, asserted | Complete(oracle) && Constraints(SAMPLE, 0) <= asserted ::
      oracle(asserted, BvAnd(Formula(SAMPLE, 2), Guard(SAMPLE, Dominator(TREE), 0))) == Unsat
  {
    SampleIsWellFormed();
    TreeIsDomTree();
    run := SampleRun();
    var query := BvAnd(Formula(SAMPLE, 2), Guard(SAMPLE, Dominator(TREE), 0));
    forall oracle: Oracle, asserted | Complete(oracle) && Constraints(SAMPLE, 0) <= asserted
      ensures oracle(asserted, query) == Unsat
    {
      if oracle(asserted, query) != Unsat {
        var env :| Satisfies(env, asserted, query);
        ConstraintsClash(env);
      }
    }
  }
}
