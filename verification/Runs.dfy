/** What runs there are: they start with any arguments, go on wherever the terminator leads, and give
    values that the code does not look into anything plausible.  A sample goes round a loop as often
    as one likes. */
module Runs {
  import opened Bits
  import opened Ir
  import opened Dominance
  import opened Smt
  import opened Interp
  import opened PathGen
  import opened RunSoundness
  import opened Wrappers

  /** The values that may be chosen: each fits its width, and a load lies in one of its ranges. */
  ghost predicate Choosable(f: Function, choice: Env) {
    forall v: Value | v < |f.values| && f.values[v].analyzable ::
      && 0 <= Read(choice, v) < Pow2(f.values[v].width)
      && (f.values[v].def.Opaque? ==> InSome(f.values[v].def.ranges, Read(choice, v)))
  }

  lemma ChoosableIsPlausible(f: Function, choice: Env)
    requires Choosable(f, choice)
    ensures Plausible(f, choice)
  {
    forall v: Value | v < |f.values|
      ensures PlausibleAt(f, choice, v)
    {
    }
  }

  /** Whatever the arguments, a run starts at the entry. */
  lemma RunsStart(f: Function, env: Env, choice: Env) returns (s: State)
    requires WellFormed(f) && Choosable(f, env) && Choosable(f, choice)
    requires forall v: Value | v < |f.values| && f.values[v].home.None? :: Equation(f, v, env)
    ensures IsRun(f, [s]) && s.block == 0
    ensures forall v: Value | v < |f.values| && f.values[v].home.None? :: Read(s.env, v) == Read(env, v)
    ensures forall v: Value | v < |f.values| && f.values[v].home == Some(0) ::
              ValueOk(f, v) && IsFree(f, v) ==> Read(s.env, v) == Read(choice, v)
  {
    ChoosableIsPlausible(f, env);
    ChoosableIsPlausible(f, choice);
    s := State(0, Body(f, 0, env, choice));
    assert Start(f, [s][0], env, choice);
    assert IsRun(f, [s]);
    StartValues(f, s, env, choice);
  }

  lemma StartValues(f: Function, s: State, env: Env, choice: Env)
    requires WellFormed(f) && Start(f, s, env, choice)
    ensures forall v: Value | v < |f.values| && f.values[v].home.None? :: Read(s.env, v) == Read(env, v)
    ensures forall v: Value | v < |f.values| && f.values[v].home == Some(0) ::
              ValueOk(f, v) && IsFree(f, v) ==> Read(s.env, v) == Read(choice, v)
  {
    assert BlockOk(f, 0);
    BodyIsTyped(f, 0);
    BodyInOrder(f, 0);
    forall v: Value | v < |f.values|
      ensures f.values[v].home.None? ==> Read(s.env, v) == Read(env, v)
      ensures f.values[v].home == Some(0) ==> ValueOk(f, v) && IsFree(f, v) ==> Read(s.env, v) == Read(choice, v)
    {
      assert ValueOk(f, v);
      if v in f.blocks[0].body {
        RunBodyEquations(f, f.blocks[0].body, env, choice, v);
      } else {
        RunBodyFrame(f, f.blocks[0].body, env, choice, v);
      }
    }
  }

  /** A run goes on to exactly the blocks its terminator leads to, back edges included. */
  lemma RunsGoOn(f: Function, run: seq<State>, b: Block)
    requires WellFormed(f) && IsRun(f, run)
    ensures Good(f, run[|run| - 1])
    ensures (exists t: State :: t.block == b && IsRun(f, run + [t])) <==>
            Goes(f, f.blocks[run[|run| - 1].block].term, Deciding(f, run[|run| - 1]), b)
  {
    RunGood(f, run);
    assert Good(f, run[|run| - 1]);
    if t: State :| t.block == b && IsRun(f, run + [t]) {
      var longer := run + [t];
      assert Steps(f, longer[|run| - 1], longer[|run|]);
    }
    if Goes(f, f.blocks[run[|run| - 1].block].term, Deciding(f, run[|run| - 1]), b) {
      var env, choice :| Start(f, run[0], env, choice);
      var t := NextState(f, run, b, choice);
    }
  }

  /** The next state, with any choice of the values that the code does not look into. */
  lemma NextState(f: Function, run: seq<State>, b: Block, choice: Env) returns (t: State)
    requires WellFormed(f) && IsRun(f, run) && Plausible(f, choice) && Good(f, run[|run| - 1])
    requires Goes(f, f.blocks[run[|run| - 1].block].term, Deciding(f, run[|run| - 1]), b)
    ensures t.block == b && IsRun(f, run + [t]) && Step(f, run[|run| - 1], t, choice)
  {
    var s := run[|run| - 1];
    GoesToBlock(f, s, b);
    TakenIsPredecessor(f, s.block, s.env, b);
    t := State(b, Enter(f, s.block, b, s.env, choice));
    assert Step(f, s, t, choice);
    Extended(f, run, t);
  }

  lemma GoesToBlock(f: Function, s: State, b: Block)
    requires WellFormed(f) && s.block < |f.blocks| && Goes(f, f.blocks[s.block].term, Deciding(f, s), b)
    ensures b < |f.blocks| && Takes(f, s.block, s.env, b)
  {
    assert BlockOk(f, s.block);
    assert IsSuccessor(f.blocks[s.block].term, b);
  }

  lemma Extended(f: Function, run: seq<State>, t: State)
    requires WellFormed(f) && IsRun(f, run) && Steps(f, run[|run| - 1], t)
    ensures IsRun(f, run + [t])
  {
    var longer := run + [t];
    forall i | 0 <= i < |longer| - 1
      ensures Steps(f, longer[i], longer[i + 1])
    {
      if i < |run| - 1 {
        assert Steps(f, run[i], run[i + 1]);
      }
    }
    assert longer[0] == run[0];
  }

  /** The next state for any choosable values: what the code does not look into has the chosen value. */
  lemma AnyChoiceOccurs(f: Function, run: seq<State>, b: Block, choice: Env) returns (t: State)
    requires WellFormed(f) && IsRun(f, run) && Choosable(f, choice)
    requires run[|run| - 1].block < |f.blocks|
    requires Goes(f, f.blocks[run[|run| - 1].block].term, Deciding(f, run[|run| - 1]), b)
    ensures t.block == b && IsRun(f, run + [t])
    ensures forall v: Value | v < |f.values| && f.values[v].home == Some(b) ::
              ValueOk(f, v) && !f.values[v].def.Phi? && IsFree(f, v) ==> Read(t.env, v) == Read(choice, v)
  {
    RunGood(f, run);
    assert Good(f, run[|run| - 1]);
    ChoosableIsPlausible(f, choice);
    t := NextState(f, run, b, choice);
    forall v: Value | v < |f.values| && f.values[v].home == Some(b)
      ensures ValueOk(f, v) && !f.values[v].def.Phi? && IsFree(f, v) ==> Read(t.env, v) == Read(choice, v)
    {
      StepValues(f, run[|run| - 1], t, choice, v);
    }
  }

  // ------------------------------------------------------------------ a loop

  /** Block 1 loads a condition and repeats as long as it is true. */
  const LOOP: Function :=
    Function(
      [BlockInfo([], [], [], Br(1)),
       BlockInfo([0, 1], [], [0], CondBr(0, 1, 2)),
       BlockInfo([1], [], [], Ret)],
      [ValueInfo(Opaque([]), 1, true, Some(1))],
      [(1, 1)])

  const LOOP_TREE: DomTree := DomTree([0, 0, 1])

  lemma LoopIsWellFormed()
    ensures WellFormed(LOOP)
  {
    OneBitWidth();
    forall b: Block | b < 3
      ensures BlockOk(LOOP, b)
    {
      LoopBlock(b);
    }
    assert ValueOk(LOOP, 0);
  }

  lemma LoopBlock(b: Block)
    requires b < 3
    ensures BlockOk(LOOP, b)
  {
    if b == 1 {
      HeaderBlock();
    } else if b == 2 {
      assert 1 in LOOP.blocks[2].preds && !IsBackedge(LOOP, 1, 2);
    }
  }

  lemma HeaderBlock()
    ensures BlockOk(LOOP, 1)
  {
    DominatesReflexive(LOOP, 1);
    assert 0 in LOOP.blocks[1].preds && !IsBackedge(LOOP, 0, 1);
  }

  lemma LoopTree()
    requires WellFormed(LOOP)
    ensures ModeOk(LOOP, Dominator(LOOP_TREE))
  {
    Idom(0, 1);
    Idom(1, 2);
  }

  /** Every path to `b` enters it from `a`, at least the first time. */
  lemma Idom(a: Block, b: Block)
    requires WellFormed(LOOP) && ((a == 0 && b == 1) || (a == 1 && b == 2))
    ensures IsImmediateDominator(LOOP, a, b)
  {
    DominatesReflexive(LOOP, a);
    forall path | IsPathTo(LOOP, path, b)
      ensures a in path
    {
      if a == 0 {
        assert path[0] == 0;
      } else {
        assert IsEdge(LOOP, path[|path| - 2], path[|path| - 1]);
      }
    }
    assert IsEdge(LOOP, a, b);
    forall c | Dominates(LOOP, c, b) && c != b
      ensures Dominates(LOOP, c, a)
    {
      DominatesPredecessor(LOOP, c, a, b);
    }
  }

  ghost predicate Circles(run: seq<State>, n: nat)
    requires WellFormed(LOOP)
  {
    && IsRun(LOOP, run) && |run| == n + 2
    && (forall i | 1 <= i < |run| :: run[i].block == 1)
    && Read(run[n + 1].env, 0) == 1
  }

  /** For every number there is a run that goes round the loop so many times. */
  lemma {:induction false} LoopsForever(n: nat) returns (run: seq<State>)
    ensures WellFormed(LOOP) && ModeOk(LOOP, Dominator(LOOP_TREE)) && Circles(run, n)
  {
    LoopIsWellFormed();
    LoopTree();
    if n == 0 {
      var s := RunsStart(LOOP, map[], map[]);
      run := Again([s]);
    } else {
      var shorter := LoopsForever(n - 1);
      run := Again(shorter);
    }
  }

  lemma Again(run: seq<State>) returns (longer: seq<State>)
    requires WellFormed(LOOP) && IsRun(LOOP, run)
    requires var s := run[|run| - 1]; s.block == 0 || (s.block == 1 && Read(s.env, 0) == 1)
    ensures |longer| == |run| + 1 && longer[..|run|] == run && IsRun(LOOP, longer)
    ensures longer[|run|].block == 1 && Read(longer[|run|].env, 0) == 1
  {
    OneBitWidth();
    var t := AnyChoiceOccurs(LOOP, run, 1, map[0 := 1]);
    assert ValueOk(LOOP, 0);
    longer := run + [t];
  }
}
