/** Guards and formulas against runs: in every state of every run, however often it has gone
    around loops, the formula of an available value is its current value and the guard of the
    current block is true. */
module RunSoundness {
  import opened Ir
  import opened Dominance
  import opened Smt
  import opened Interp
  import opened ValueGen
  import opened PathGen
  import opened FormulaSoundness
  import opened GuardMeaning
  import opened Wrappers

  // ------------------------------------------------------------------ which values formulas mention

  /** `v` is not defined in a block named later than `k`. */
  predicate HomeAtMost(f: Function, v: Value, k: Block) {
    v < |f.values| && (f.values[v].home.None? || f.values[v].home.value <= k)
  }

  lemma AvailableHome(f: Function, v: Value, b: Block)
    requires WellFormed(f) && v < |f.values| && b < |f.blocks| && Available(f, v, b)
    ensures HomeAtMost(f, v, b)
  {
    if f.values[v].home.Some? {
      DominatorIsEarlier(f, f.values[v].home.value, b);
    }
  }

  lemma OperandHome(f: Function, v: Value, k: Block)
    requires WellFormed(f) && HomeAtMost(f, v, k)
    ensures forall o | o in Operands(f.values[v].def) :: o < v && HomeAtMost(f, o, k)
  {
    assert ValueOk(f, v);
    forall o | o in Operands(f.values[v].def)
      ensures HomeAtMost(f, o, k)
    {
      AvailableHome(f, o, f.values[v].home.value);
    }
  }

  /** A formula mentions only values defined no later than the value itself. */
  lemma FormulaVars(f: Function, v: Value, k: Block)
    requires WellFormed(f) && IsAnalyzable(f, v) && HomeAtMost(f, v, k)
    ensures forall x | x in Vars(Formula(f, v)) :: HomeAtMost(f, x, k)
  {
    var vs := set x: Value | x < |f.values| && f.values[x].analyzable && HomeAtMost(f, x, k);
    forall x | x in vs
      ensures WellTyped(f, x) && Parts(f, x) <= vs
    {
      PartHome(f, x, k);
    }
    VarsWithin(f, vs, v);
  }

  lemma PartHome(f: Function, v: Value, k: Block)
    requires WellFormed(f) && IsAnalyzable(f, v) && HomeAtMost(f, v, k)
    ensures WellTyped(f, v) && forall o | o in Parts(f, v) :: IsAnalyzable(f, o) && HomeAtMost(f, o, k)
  {
    OperandsAreEarlier(f, v);
    OperandHome(f, v, k);
    var def := f.values[v].def;
    if def.ExtractValue? && f.values[def.aggregate].def.WithOverflow? {
      OperandsAreEarlier(f, def.aggregate);
      OperandHome(f, def.aggregate, k);
    }
  }

  lemma {:induction false} AnyOfVars(f: Function, es: seq<Expr>, k: Block)
    requires forall e | e in es :: forall x | x in Vars(e) :: HomeAtMost(f, x, k)
    ensures forall x | x in Vars(AnyOf(es)) :: HomeAtMost(f, x, k)
    ensures forall x | x in Vars(AllOf(es)) :: HomeAtMost(f, x, k)
  {
    if |es| != 0 {
      assert es[|es| - 1] in es;
      AnyOfVars(f, es[..|es| - 1], k);
    }
  }

  lemma EqualityVars(f: Function, l: Value, r: Value, k: Block)
    requires WellFormed(f) && IsAnalyzable(f, l) && IsAnalyzable(f, r)
    requires HomeAtMost(f, l, k) && HomeAtMost(f, r, k)
    ensures forall x | x in Vars(BvEq(Formula(f, l), Formula(f, r))) :: HomeAtMost(f, x, k)
  {
    FormulaVars(f, l, k);
    FormulaVars(f, r, k);
  }

  lemma {:induction false} CaseConditionsVars(
      f: Function, c: Value, cases: seq<Case>, only: Option<Block>, n: nat, k: Block)
    requires WellFormed(f) && CasesOk(f, c, cases) && n <= |cases| && HomeAtMost(f, c, k)
    ensures forall i | 0 <= i < |cases| :: IsAnalyzable(f, cases[i].value)
    ensures forall e | e in CaseConditions(f, c, cases, only, n) ::
              forall x | x in Vars(e) :: HomeAtMost(f, x, k)
  {
    if n != 0 {
      CaseConditionsVars(f, c, cases, only, n - 1, k);
      var v := cases[n - 1].value;
      assert ValueOk(f, v);
      EqualityVars(f, c, v, k);
    }
  }

  lemma TermGuardVars(f: Function, p: Block, b: Block)
    requires WellFormed(f) && IsEdge(f, p, b)
    ensures forall x | x in Vars(TermGuard(f, p, b)) :: HomeAtMost(f, x, p)
  {
    assert BlockOk(f, p);
    match f.blocks[p].term
    case CondBr(c, _, _) =>
      AvailableHome(f, c, p);
      FormulaVars(f, c, p);
    case Switch(c, default, cases) =>
      var only := if default != b then Some(b) else None;
      AvailableHome(f, c, p);
      CaseConditionsVars(f, c, cases, only, |cases|, p);
      AnyOfVars(f, CaseConditions(f, c, cases, only, |cases|), p);
    case _ =>
  }

  lemma {:induction false} PhiEquationsVars(f: Function, p: Block, b: Block, n: nat)
    requires WellFormed(f) && b < |f.blocks| && p in f.blocks[b].preds && n <= |f.blocks[b].phis|
    requires p <= b
    ensures forall e | e in PhiEquations(f, p, b, n) :: forall x | x in Vars(e) :: HomeAtMost(f, x, b)
  {
    if n != 0 {
      PhiEquationsVars(f, p, b, n - 1);
      assert BlockOk(f, b);
      var v := f.blocks[b].phis[n - 1];
      assert PhiOk(f, b, v);
      var x := f.values[v].def.incoming[p];
      AvailableHome(f, x, p);
      if Constrains(f, p, v) {
        EqualityVars(f, v, x, b);
      }
    }
  }

  lemma {:induction false} ArrivalsVars(f: Function, mode: Mode, b: Block, n: nat)
    requires WellFormed(f) && ModeOk(f, mode) && b < |f.blocks| && n <= |f.blocks[b].preds|
    ensures forall e | e in Arrivals(f, mode, b, n) :: forall x | x in Vars(e) :: HomeAtMost(f, x, b)
    decreases b, 0, n
  {
    if n != 0 {
      ArrivalsVars(f, mode, b, n - 1);
      var p := f.blocks[b].preds[n - 1];
      if !IsBackedge(f, p, b) {
        PredecessorsInRange(f, b);
        ForwardEdgeIncreases(f, p, b);
        ArrivalVars(f, mode, p, b);
      }
    }
  }

  lemma {:induction false} ArrivalVars(f: Function, mode: Mode, p: Block, b: Block)
    requires WellFormed(f) && ModeOk(f, mode) && b < |f.blocks| && p in f.blocks[b].preds && p < b
    ensures forall x | x in Vars(BvAnd(EdgeGuard(f, p, b), Guard(f, mode, p))) :: HomeAtMost(f, x, b)
    decreases p, 2, 0
  {
    assert BlockOk(f, b);
    var equations := PhiEquations(f, p, b, |f.blocks[b].phis|);
    var term, guard := TermGuard(f, p, b), Guard(f, mode, p);
    TermGuardVars(f, p, b);
    PhiEquationsVars(f, p, b, |f.blocks[b].phis|);
    AnyOfVars(f, equations, b);
    GuardVars(f, mode, p);
    assert EdgeGuard(f, p, b) == BvAnd(term, AllOf(equations));
    assert Vars(EdgeGuard(f, p, b)) == Vars(term) + Vars(AllOf(equations));
  }

  /** The guard of a block mentions only values defined no later than the block. */
  lemma {:induction false} GuardVars(f: Function, mode: Mode, b: Block)
    requires WellFormed(f) && ModeOk(f, mode) && b < |f.blocks|
    ensures forall x | x in Vars(Guard(f, mode, b)) :: HomeAtMost(f, x, b)
    decreases b, 1, 0
  {
    if b == 0 {
    } else if mode.Dominator? && HasBackedge(f, b) {
      CommonDominatorIsImmediate(f, mode.tree, b);
      GuardVars(f, mode, mode.tree.idom[b]);
    } else {
      ArrivalsVars(f, mode, b, |f.blocks[b].preds|);
      AnyOfVars(f, Arrivals(f, mode, b, |f.blocks[b].preds|), b);
    }
  }

  // ------------------------------------------------------------------ one step

  /** A step changes only values of the block it enters. */
  lemma StepFrame(f: Function, s: State, t: State, choice: Env, v: Value)
    requires WellFormed(f) && Step(f, s, t, choice)
    requires v < |f.values| && f.values[v].home != Some(t.block)
    ensures Read(t.env, v) == Read(s.env, v)
  {
    assert BlockOk(f, t.block);
    var b := f.blocks[t.block];
    TakenIsPredecessor(f, s.block, s.env, t.block);
    BodyIsTyped(f, t.block);
    var entered := AssignPhis(f, s.block, t.block, |b.phis|, s.env, choice);
    assert b.phis[..|b.phis|] == b.phis;
    forall i | 0 <= i < |b.phis|
      ensures b.phis[i] != v
    {
      assert PhiOk(f, t.block, b.phis[i]);
    }
    AssignPhisEffect(f, s.block, t.block, |b.phis|, s.env, choice, v);
    RunBodyFrame(f, b.body, entered, choice, v);
  }

  /** The values an entered block's phis and instructions get. */
  lemma StepValues(f: Function, s: State, t: State, choice: Env, v: Value)
    requires WellFormed(f) && Step(f, s, t, choice)
    requires v < |f.values| && f.values[v].home == Some(t.block)
    ensures Equation(f, v, t.env)
    ensures f.values[v].def.Phi? ==>
              s.block in f.blocks[t.block].preds && PhiOk(f, t.block, v) &&
              Read(t.env, v) == PhiValue(f, s.block, v, s.env, choice)
    ensures !f.values[v].def.Phi? && IsFree(f, v) ==> Read(t.env, v) == Read(choice, v)
  {
    assert BlockOk(f, t.block) && ValueOk(f, v);
    var b := f.blocks[t.block];
    TakenIsPredecessor(f, s.block, s.env, t.block);
    BodyIsTyped(f, t.block);
    var entered := AssignPhis(f, s.block, t.block, |b.phis|, s.env, choice);
    assert b.phis[..|b.phis|] == b.phis;
    if v in b.phis {
      assert PhiOk(f, t.block, v);
      AssignPhisEffect(f, s.block, t.block, |b.phis|, s.env, choice, v);
      RunBodyFrame(f, b.body, entered, choice, v);
    } else {
      BodyInOrder(f, t.block);
      RunBodyEquations(f, b.body, entered, choice, v);
    }
  }

  lemma BodyInOrder(f: Function, b: Block)
    requires WellFormed(f) && b < |f.blocks|
    ensures InOrder(f, f.blocks[b].body)
  {
    assert BlockOk(f, b);
    forall i | 0 <= i < |f.blocks[b].body|
      ensures ValueOk(f, f.blocks[b].body[i])
    {
    }
  }

  /** Entering a block keeps every value in its width and range. */
  lemma StepPlausible(f: Function, s: State, t: State, choice: Env)
    requires WellFormed(f) && Step(f, s, t, choice) && Plausible(f, s.env)
    ensures Plausible(f, t.env)
  {
    forall v: Value | v < |f.values|
      ensures PlausibleAt(f, t.env, v)
    {
      assert PlausibleAt(f, s.env, v) && PlausibleAt(f, choice, v);
      if f.values[v].home != Some(t.block) {
        StepFrame(f, s, t, choice, v);
      } else {
        StepValues(f, s, t, choice, v);
        if f.values[v].def.Phi? {
          assert PlausibleAt(f, s.env, f.values[v].def.incoming[s.block]);
        }
      }
    }
  }

  /** Entering a block settles its values and disturbs none that is still available. */
  lemma StepSettled(f: Function, s: State, t: State, choice: Env)
    requires WellFormed(f) && Step(f, s, t, choice) && Settled(f, s.env, s.block)
    ensures Settled(f, t.env, t.block)
  {
    TakenIsPredecessor(f, s.block, s.env, t.block);
    assert BlockOk(f, t.block);
    forall v: Value | v < |f.values| && Available(f, v, t.block)
      ensures Equation(f, v, t.env)
    {
      if f.values[v].home == Some(t.block) {
        StepValues(f, s, t, choice, v);
      } else {
        StillAvailable(f, s, t, v);
        EquationKept(f, s, t, choice, v);
      }
    }
  }

  /** What is available after a step and not defined by it was available before. */
  lemma StillAvailable(f: Function, s: State, t: State, v: Value)
    requires WellFormed(f) && IsEdge(f, s.block, t.block)
    requires v < |f.values| && Available(f, v, t.block) && f.values[v].home != Some(t.block)
    ensures Available(f, v, s.block)
  {
    if f.values[v].home.Some? {
      DominatesPredecessor(f, f.values[v].home.value, s.block, t.block);
    }
  }

  lemma EquationKept(f: Function, s: State, t: State, choice: Env, v: Value)
    requires WellFormed(f) && Step(f, s, t, choice)
    requires v < |f.values| && Available(f, v, t.block) && f.values[v].home != Some(t.block)
    requires Equation(f, v, s.env)
    ensures Equation(f, v, t.env)
  {
    StepFrame(f, s, t, choice, v);
    if !IsFree(f, v) {
      OperandsAvailable(f, v, t.block);
      forall o | o in Operands(f.values[v].def)
        ensures Read(s.env, o) == Read(t.env, o)
      {
        assert ValueOk(f, v);
        AvailableHome(f, v, t.block);
        OperandHome(f, v, f.values[v].home.value);
        StepFrame(f, s, t, choice, o);
      }
      ComputeDependsOnOperands(f, v, s.env, t.env);
    }
  }

  /** A formula over values defined before the entered block keeps its value. */
  lemma EarlierFormulaKept(f: Function, s: State, t: State, choice: Env, e: Expr, k: Block)
    requires WellFormed(f) && Step(f, s, t, choice) && k < t.block
    requires forall x | x in Vars(e) :: HomeAtMost(f, x, k)
    ensures Eval(e, s.env) == Eval(e, t.env)
  {
    forall x | x in Vars(e)
      ensures Read(s.env, x) == Read(t.env, x)
    {
      StepFrame(f, s, t, choice, x);
    }
    EvalDependsOnVars(e, s.env, t.env);
  }

  // ------------------------------------------------------------------ edges taken

  ghost predicate Good(f: Function, s: State)
    requires WellFormed(f)
  {
    s.block < |f.blocks| && Plausible(f, s.env) && Settled(f, s.env, s.block)
  }

  /** The value of the condition on which a state leaves its block. */
  function Deciding(f: Function, s: State): int
    requires s.block < |f.blocks|
  {
    var t := f.blocks[s.block].term;
    if IsConditional(t) then Read(s.env, t.cond) else 0
  }

  /** The step takes an edge that the terminator guard overlooks. */
  predicate TakesShadowed(f: Function, s: State, t: State) {
    s.block < |f.blocks| && Shadowed(f, f.blocks[s.block].term, Deciding(f, s), t.block)
  }

  /** After a step over a forward edge, that edge's condition holds of the new values, unless
      the edge is one that the guards overlook. */
  lemma StepEdgeHolds(f: Function, s: State, t: State, choice: Env)
    requires WellFormed(f) && Step(f, s, t, choice) && Good(f, s) && Good(f, t)
    requires !IsBackedge(f, s.block, t.block)
    ensures EdgeHolds(f, s.block, t.block, t.env) <==> !TakesShadowed(f, s, t)
  {
    TakenIsPredecessor(f, s.block, s.env, t.block);
    var p, b := s.block, t.block;
    assert BlockOk(f, b) && BlockOk(f, p);
    ForwardEdgeIncreases(f, p, b);
    ConditionKept(f, s, t, choice);
    forall v | v in f.blocks[b].phis
      ensures PhiOk(f, b, v) && PhiAgrees(f, p, b, v, t.env)
    {
      EdgeIsPredecessor(f, p, b, v);
      if Constrains(f, p, v) {
        StepPhiAgrees(f, s, t, choice, v);
      }
    }
  }

  lemma ConditionKept(f: Function, s: State, t: State, choice: Env)
    requires WellFormed(f) && Step(f, s, t, choice) && Good(f, s) && s.block < t.block
    ensures Condition(f, s.block, t.env) == Deciding(f, s)
  {
    assert BlockOk(f, s.block);
    var term := f.blocks[s.block].term;
    if IsConditional(term) {
      FormulaIsValue(f, s.env, s.block, term.cond);
      AvailableHome(f, term.cond, s.block);
      FormulaVars(f, term.cond, s.block);
      EarlierFormulaKept(f, s, t, choice, Formula(f, term.cond), s.block);
    }
  }

  lemma StepPhiAgrees(f: Function, s: State, t: State, choice: Env, v: Value)
    requires WellFormed(f) && Step(f, s, t, choice) && Good(f, s) && Good(f, t) && s.block < t.block
    requires v in f.blocks[t.block].phis && s.block in f.blocks[t.block].preds
    requires PhiOk(f, t.block, v) && Constrains(f, s.block, v)
    ensures PhiAgrees(f, s.block, t.block, v, t.env)
  {
    var x := f.values[v].def.incoming[s.block];
    StepValues(f, s, t, choice, v);
    FormulaIsValue(f, s.env, s.block, x);
    AvailableHome(f, x, s.block);
    FormulaVars(f, x, s.block);
    EarlierFormulaKept(f, s, t, choice, Formula(f, x), s.block);
    DominatesReflexive(f, t.block);
    FormulaIsValue(f, t.env, t.block, v);
  }

  // ------------------------------------------------------------------ whole runs

  lemma StartGood(f: Function, s: State, env: Env, choice: Env)
    requires WellFormed(f) && Start(f, s, env, choice)
    ensures Good(f, s)
  {
    assert BlockOk(f, 0);
    BodyIsTyped(f, 0);
    BodyInOrder(f, 0);
    var body := f.blocks[0].body;
    forall v: Value | v < |f.values|
      ensures PlausibleAt(f, s.env, v)
      ensures Available(f, v, 0) ==> Equation(f, v, s.env)
    {
      assert PlausibleAt(f, env, v) && PlausibleAt(f, choice, v) && ValueOk(f, v);
      if v in body {
        RunBodyEquations(f, body, env, choice, v);
      } else {
        RunBodyFrame(f, body, env, choice, v);
        if Available(f, v, 0) && f.values[v].home.Some? {
          DominatesEntry(f, f.values[v].home.value);
        } else if f.values[v].home.None? && !IsFree(f, v) {
          ComputeDependsOnOperands(f, v, env, s.env);
        }
      }
    }
  }

  lemma ShorterRun(f: Function, run: seq<State>)
    requires WellFormed(f) && IsRun(f, run) && |run| > 1
    ensures IsRun(f, run[..|run| - 1])
  {
    var shorter := run[..|run| - 1];
    forall i | 0 <= i < |shorter| - 1
      ensures Steps(f, shorter[i], shorter[i + 1])
    {
      assert Steps(f, run[i], run[i + 1]);
    }
  }

  lemma {:induction false} RunGood(f: Function, run: seq<State>)
    requires WellFormed(f) && IsRun(f, run)
    ensures forall i | 0 <= i < |run| :: Good(f, run[i])
  {
    var n := |run|;
    if n == 1 {
      var env, choice :| Start(f, run[0], env, choice);
      StartGood(f, run[0], env, choice);
    } else {
      var shorter := run[..n - 1];
      ShorterRun(f, run);
      RunGood(f, shorter);
      assert Good(f, shorter[n - 2]);
      assert Steps(f, run[n - 2], run[n - 1]);
      var choice :| Step(f, run[n - 2], run[n - 1], choice);
      StepPlausible(f, run[n - 2], run[n - 1], choice);
      StepSettled(f, run[n - 2], run[n - 1], choice);
    }
  }

  /** In every state of every run, the formula of every available value is its current value. */
  lemma ValueFormulasAreExact(f: Function, run: seq<State>)
    requires WellFormed(f) && IsRun(f, run)
    ensures forall i, v | 0 <= i < |run| && IsAnalyzable(f, v) && Available(f, v, run[i].block) ::
              Eval(Formula(f, v), run[i].env) == Read(run[i].env, v)
  {
    RunGood(f, run);
    forall i, v | 0 <= i < |run| && IsAnalyzable(f, v) && Available(f, v, run[i].block)
      ensures Eval(Formula(f, v), run[i].env) == Read(run[i].env, v)
    {
      assert Good(f, run[i]);
      FormulaIsValue(f, run[i].env, run[i].block, v);
    }
  }

  /** The run takes no edge that the terminator guards overlook. */
  predicate TakesNoShadowed(f: Function, run: seq<State>) {
    forall i | 0 <= i < |run| - 1 :: !TakesShadowed(f, run[i], run[i + 1])
  }

  /** The guards of all blocks that dominate the current one are true. */
  ghost predicate DominatingGuardsHold(f: Function, dt: DomTree, s: State)
    requires WellFormed(f) && ModeOk(f, Dominator(dt))
  {
    forall a: Block | a < |f.blocks| && Dominates(f, a, s.block) :: IsTrue(Guard(f, Dominator(dt), a), s.env)
  }

  lemma StepGuards(f: Function, dt: DomTree, s: State, t: State, choice: Env)
    requires WellFormed(f) && ModeOk(f, Dominator(dt)) && Step(f, s, t, choice)
    requires Good(f, s) && Good(f, t) && !TakesShadowed(f, s, t)
    requires DominatingGuardsHold(f, dt, s)
    ensures DominatingGuardsHold(f, dt, t)
  {
    TakenIsPredecessor(f, s.block, s.env, t.block);
    assert BlockOk(f, t.block);
    forall a: Block | a < |f.blocks| && Dominates(f, a, t.block) && a != t.block
      ensures IsTrue(Guard(f, Dominator(dt), a), t.env)
    {
      DominatesPredecessor(f, a, s.block, t.block);
      DominatorIsEarlier(f, a, t.block);
      GuardKept(f, Dominator(dt), s, t, choice, a);
    }
    EnteredGuard(f, dt, s, t, choice);
  }

  /** No value that the guard of an earlier block mentions goes stale. */
  lemma GuardKept(f: Function, mode: Mode, s: State, t: State, choice: Env, a: Block)
    requires WellFormed(f) && ModeOk(f, mode) && Step(f, s, t, choice) && a < t.block
    ensures IsTrue(Guard(f, mode, a), s.env) <==> IsTrue(Guard(f, mode, a), t.env)
  {
    GuardVars(f, mode, a);
    EarlierFormulaKept(f, s, t, choice, Guard(f, mode, a), a);
  }

  lemma EnteredGuard(f: Function, dt: DomTree, s: State, t: State, choice: Env)
    requires WellFormed(f) && ModeOk(f, Dominator(dt)) && Step(f, s, t, choice)
    requires Good(f, s) && Good(f, t) && !TakesShadowed(f, s, t)
    requires DominatingGuardsHold(f, dt, s)
    requires forall a: Block | a < |f.blocks| && Dominates(f, a, t.block) && a != t.block ::
               IsTrue(Guard(f, Dominator(dt), a), t.env)
    ensures IsTrue(Guard(f, Dominator(dt), t.block), t.env)
  {
    var mode, b := Dominator(dt), t.block;
    TakenIsPredecessor(f, s.block, s.env, b);
    assert BlockOk(f, b);
    assert b != 0;
    if HasBackedge(f, b) {
      assert IsImmediateDominator(f, dt.idom[b], b);
    } else {
      var i :| 0 <= i < |f.blocks[b].preds| && f.blocks[b].preds[i] == s.block;
      DominatesReflexive(f, s.block);
      EnteredForward(f, mode, s, t, choice, i);
    }
  }

  lemma EnteredForward(f: Function, mode: Mode, s: State, t: State, choice: Env, i: nat)
    requires WellFormed(f) && ModeOk(f, mode) && Step(f, s, t, choice)
    requires Good(f, s) && Good(f, t) && !TakesShadowed(f, s, t)
    requires 0 < t.block && i < |f.blocks[t.block].preds| && f.blocks[t.block].preds[i] == s.block
    requires mode.Dominator? ==> forall p | p in f.blocks[t.block].preds :: (p, t.block) !in f.backedges
    requires !IsBackedge(f, s.block, t.block) && IsTrue(Guard(f, mode, s.block), s.env)
    ensures IsTrue(Guard(f, mode, t.block), t.env)
  {
    PredecessorsInRange(f, t.block);
    ForwardEdgeIncreases(f, s.block, t.block);
    StepEdgeHolds(f, s, t, choice);
    GuardKept(f, mode, s, t, choice, s.block);
    DisjunctiveGuardMeaning(f, mode, t.block, t.env);
    assert ArrivesFrom(f, mode, f.blocks[t.block].preds[i], t.block, t.env);
  }

  lemma StepForwardHolds(f: Function, s: State, t: State, choice: Env)
    requires WellFormed(f) && Step(f, s, t, choice) && Good(f, s) && Good(f, t) && !TakesShadowed(f, s, t)
    requires !IsBackedge(f, s.block, t.block) && IsTrue(Guard(f, Forward, s.block), s.env)
    ensures IsTrue(Guard(f, Forward, t.block), t.env)
  {
    TakenIsPredecessor(f, s.block, s.env, t.block);
    assert BlockOk(f, t.block);
    assert t.block != 0;
    var i :| 0 <= i < |f.blocks[t.block].preds| && f.blocks[t.block].preds[i] == s.block;
    EnteredForward(f, Forward, s, t, choice, i);
  }

  lemma {:induction false} DominatingGuardsOfRun(f: Function, dt: DomTree, run: seq<State>)
    requires WellFormed(f) && ModeOk(f, Dominator(dt)) && IsRun(f, run) && TakesNoShadowed(f, run)
    ensures forall i | 0 <= i < |run| :: DominatingGuardsHold(f, dt, run[i])
  {
    var n := |run|;
    RunGood(f, run);
    if n == 1 {
      forall a: Block | a < |f.blocks| && Dominates(f, a, 0)
        ensures IsTrue(Guard(f, Dominator(dt), a), run[0].env)
      {
        DominatesEntry(f, a);
        Connectives(TRUE, TRUE, run[0].env);
      }
    } else {
      var shorter := run[..n - 1];
      ShorterRun(f, run);
      DominatingGuardsOfRun(f, dt, shorter);
      assert DominatingGuardsHold(f, dt, shorter[n - 2]);
      assert Steps(f, run[n - 2], run[n - 1]);
      var choice :| Step(f, run[n - 2], run[n - 1], choice);
      assert Good(f, run[n - 2]) && Good(f, run[n - 1]);
      StepGuards(f, dt, run[n - 2], run[n - 1], choice);
    }
  }

  /** The main theorem: with a dominator tree, the guard of the current block is true in every
      state of every run, loops included. */
  lemma DominatorGuardHolds(f: Function, dt: DomTree, run: seq<State>)
    requires WellFormed(f) && ModeOk(f, Dominator(dt)) && IsRun(f, run) && TakesNoShadowed(f, run)
    ensures forall i | 0 <= i < |run| ::
              run[i].block < |f.blocks| && IsTrue(Guard(f, Dominator(dt), run[i].block), run[i].env)
  {
    RunGood(f, run);
    DominatingGuardsOfRun(f, dt, run);
    forall i | 0 <= i < |run|
      ensures run[i].block < |f.blocks| && IsTrue(Guard(f, Dominator(dt), run[i].block), run[i].env)
    {
      assert Good(f, run[i]) && DominatingGuardsHold(f, dt, run[i]);
      DominatesReflexive(f, run[i].block);
    }
  }

  /** Without a dominator tree the same holds of runs that never follow a back edge. */
  lemma {:induction false} ForwardGuardHolds(f: Function, run: seq<State>)
    requires WellFormed(f) && IsRun(f, run) && TakesNoShadowed(f, run)
    requires forall i | 0 <= i < |run| - 1 :: !IsBackedge(f, run[i].block, run[i + 1].block)
    ensures forall i | 0 <= i < |run| ::
              run[i].block < |f.blocks| && IsTrue(Guard(f, Forward, run[i].block), run[i].env)
  {
    var n := |run|;
    RunGood(f, run);
    if n == 1 {
      Connectives(TRUE, TRUE, run[0].env);
    } else {
      var shorter := run[..n - 1];
      ShorterRun(f, run);
      ForwardGuardHolds(f, shorter);
      var s, t := run[n - 2], run[n - 1];
      assert Steps(f, s, t) && shorter[n - 2] == s && Good(f, s) && Good(f, t);
      var choice :| Step(f, s, t, choice);
      StepForwardHolds(f, s, t, choice);
    }
  }

  /** If every terminator is plain, no run takes an overlooked edge. */
  lemma PlainRuns(f: Function, run: seq<State>)
    requires WellFormed(f) && IsRun(f, run)
    requires forall b: Block | b < |f.blocks| :: Plain(f.blocks[b].term)
    ensures TakesNoShadowed(f, run)
  {
    forall i | 0 <= i < |run| - 1
      ensures !TakesShadowed(f, run[i], run[i + 1])
    {
      assert Steps(f, run[i], run[i + 1]);
      PlainIffNeverShadowed(f, run[i].block);
    }
  }

  /** In a function all of whose terminators are plain, the guard of the current block is true in
      every state of every run. */
  lemma GuardHoldsInPlainFunctions(f: Function, dt: DomTree, run: seq<State>)
    requires WellFormed(f) && ModeOk(f, Dominator(dt)) && IsRun(f, run)
    requires forall b: Block | b < |f.blocks| :: Plain(f.blocks[b].term)
    ensures forall i | 0 <= i < |run| ::
              run[i].block < |f.blocks| && IsTrue(Guard(f, Dominator(dt), run[i].block), run[i].env)
  {
    PlainRuns(f, run);
    DominatorGuardHolds(f, dt, run);
  }
}
