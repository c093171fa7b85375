/** How the analysed function runs: block by block, from the entry, for as long as it likes.
    A state is a block together with the values that hold when control is at its end. */
module Interp {
  import opened Bits
  import opened Ir
  import opened Smt

  /** Values the code does not look into: their run-time value may be anything plausible. */
  predicate IsFree(f: Function, v: Value)
    requires v < |f.values| && WellTyped(f, v)
  {
    match f.values[v].def
    case Undef | Argument | Phi(_) | Opaque(_) => true
    case BitCast(x) => !f.values[x].analyzable
    case ExtractValue(a, _) => !f.values[a].def.WithOverflow?
    case _ => false
  }

  /** What one index adds to an address. */
  function Contribution(f: Function, i: GepIndex, env: Env): int
    requires IndexOk(f, i)
  {
    match i
    case Field(_, offset) => offset
    case ConstIndex(elemSize, index) => elemSize * index
    case VarIndex(elemSize, v) => elemSize * Signed(f.values[v].width, Read(env, v))
  }

  function Displacement(f: Function, indices: seq<GepIndex>, k: nat, env: Env): int
    requires k <= |indices| && forall i | 0 <= i < |indices| :: IndexOk(f, indices[i])
  {
    if k == 0 then 0 else Displacement(f, indices, k - 1, env) + Contribution(f, indices[k - 1], env)
  }

  /** The run-time value of an instruction or constant in terms of its operands' values.  The
      pair that an overflow intrinsic returns is packed into one number. */
  function Compute(f: Function, v: Value, env: Env): (r: int)
    requires v < |f.values| && WellTyped(f, v) && !IsFree(f, v)
    ensures f.values[v].analyzable ==> 0 <= r < Pow2(f.values[v].width)
  {
    var w := f.values[v].width;
    OneBitWidth();
    match f.values[v].def
    case ConstInt(c) => c
    case NullPointer => 0
    case Binary(op, l, r) => Apply(op, w, Nat(env, l), Nat(env, r))
    case ICmp(p, l, r) => Bit(Compare(p, f.values[l].width, Nat(env, l), Nat(env, r)))
    case Select(c, t, e) => Wrap(w, Read(env, if Read(env, c) == 1 then t else e))
    case Trunc(x) => Wrap(w, Read(env, x))
    case ZExt(x) => Wrap(w, Read(env, x))
    case SExt(x) => SignExtend(f.values[x].width, w, Nat(env, x))
    case BitCast(x) => Wrap(w, Read(env, x))
    case PtrToInt(x) => Wrap(w, Read(env, x))
    case WithOverflow(op, l, r) =>
      var lw := f.values[l].width;
      2 * Apply(Underlying(op), lw, Nat(env, l), Nat(env, r)) + Bit(Overflows(op, lw, Nat(env, l), Nat(env, r)))
    case ExtractValue(a, second) =>
      if second then Read(env, a) % 2 else Wrap(w, Read(env, a) / 2)
    case Gep(b, indices) => Wrap(w, Read(env, b) + Displacement(f, indices, |indices|, env))
  }

  function Nat(env: Env, v: Value): nat { Abs(Read(env, v)) }

  /** The defining equation of `v` holds of the current values. */
  ghost predicate Equation(f: Function, v: Value, env: Env)
    requires v < |f.values|
  {
    WellTyped(f, v) && (!IsFree(f, v) ==> Read(env, v) == Compute(f, v, env))
  }

  /** Membership in one metadata range [lo, hi), which may wrap; equal bounds say nothing. */
  predicate InRange(r: (nat, nat), x: int) {
    r.0 == r.1 || if r.0 < r.1 then r.0 <= x < r.1 else r.0 <= x || x < r.1
  }

  /** What range metadata says of a value: it lies in one of the ranges, if there are any. */
  predicate InSome(ranges: seq<(nat, nat)>, x: int) {
    ranges == [] || exists i | 0 <= i < |ranges| :: InRange(ranges[i], x)
  }

  ghost predicate PlausibleAt(f: Function, env: Env, v: Value)
    requires v < |f.values|
  {
    f.values[v].analyzable ==>
      && 0 <= Read(env, v) < Pow2(f.values[v].width)
      && (f.values[v].def.Opaque? ==> InSome(f.values[v].def.ranges, Read(env, v)))
  }

  /** Every value fits its width, and loads and calls respect their range metadata.  Entries of
      values that have not been computed yet are placeholders. */
  ghost predicate Plausible(f: Function, env: Env) {
    forall v: Value | v < |f.values| :: PlausibleAt(f, env, v)
  }

  function Execute(f: Function, v: Value, env: Env, choice: Env): int
    requires v < |f.values| && WellTyped(f, v)
  {
    if IsFree(f, v) then Read(choice, v) else Compute(f, v, env)
  }

  function RunBody(f: Function, body: seq<Value>, env: Env, choice: Env): Env
    requires forall i | 0 <= i < |body| :: body[i] < |f.values| && WellTyped(f, body[i])
  {
    if |body| == 0 then env
    else
      var before := RunBody(f, body[..|body| - 1], env, choice);
      var v := body[|body| - 1];
      before[v := Execute(f, v, before, choice)]
  }

  /** The value a phi takes on the edge from `p`; an undefined one may be anything. */
  function PhiValue(f: Function, p: Block, v: Value, env: Env, choice: Env): int
    requires v < |f.values| && f.values[v].def.Phi?
    requires p in f.values[v].def.incoming && f.values[v].def.incoming[p] < |f.values|
  {
    var x := f.values[v].def.incoming[p];
    if f.values[x].def.Undef? then Read(choice, v) else Read(env, x)
  }

  /** All phis of a block read their operands before any of them is assigned. */
  ghost function AssignPhis(f: Function, p: Block, b: Block, k: nat, env: Env, choice: Env): Env
    requires WellFormed(f) && b < |f.blocks| && k <= |f.blocks[b].phis| && p in f.blocks[b].preds
  {
    if k == 0 then env
    else
      assert BlockOk(f, b);
      var v := f.blocks[b].phis[k - 1];
      assert PhiOk(f, b, v);
      AssignPhis(f, p, b, k - 1, env, choice)[v := PhiValue(f, p, v, env, choice)]
  }

  lemma BodyIsTyped(f: Function, b: Block)
    requires WellFormed(f) && b < |f.blocks|
    ensures forall i | 0 <= i < |f.blocks[b].body| ::
              f.blocks[b].body[i] < |f.values| && WellTyped(f, f.blocks[b].body[i])
  {
    assert BlockOk(f, b);
    forall i | 0 <= i < |f.blocks[b].body|
      ensures WellTyped(f, f.blocks[b].body[i])
    {
      assert ValueOk(f, f.blocks[b].body[i]);
    }
  }

  ghost function Body(f: Function, b: Block, env: Env, choice: Env): Env
    requires WellFormed(f) && b < |f.blocks|
  {
    BodyIsTyped(f, b);
    RunBody(f, f.blocks[b].body, env, choice)
  }

  /** Where a switch goes: to the case whose constant matches, else to the default. */
  predicate CaseMatches(f: Function, c: Case, x: int) {
    c.value < |f.values| && f.values[c.value].def.ConstInt? && f.values[c.value].def.c == x
  }

  /** A terminator whose condition has the value `x` may go to `s`. */
  predicate Goes(f: Function, t: Terminator, x: int, s: Block) {
    match t
    case Ret => false
    case Br(dest) => s == dest
    case CondBr(_, yes, no) => s == if x == 1 then yes else no
    case Switch(_, default, cases) =>
      || (exists i | 0 <= i < |cases| :: CaseMatches(f, cases[i], x) && s == cases[i].dest)
      || (s == default && forall i | 0 <= i < |cases| :: !CaseMatches(f, cases[i], x))
    case Indirect(dests) => s in dests
  }

  predicate IsConditional(t: Terminator) { t.CondBr? || t.Switch? }

  /** Control goes from the end of block `b` to `s`. */
  predicate Takes(f: Function, b: Block, env: Env, s: Block)
    requires b < |f.blocks|
  {
    var t := f.blocks[b].term;
    Goes(f, t, if IsConditional(t) then Read(env, t.cond) else 0, s)
  }

  lemma TakenIsPredecessor(f: Function, p: Block, env: Env, b: Block)
    requires WellFormed(f) && p < |f.blocks| && b < |f.blocks| && Takes(f, p, env, b)
    ensures p in f.blocks[b].preds
  {
    assert BlockOk(f, b);
    assert IsEdge(f, p, b);
  }

  /** The values at the end of `b`, entered from the end of `p`. */
  ghost function Enter(f: Function, p: Block, b: Block, env: Env, choice: Env): Env
    requires WellFormed(f) && b < |f.blocks| && p in f.blocks[b].preds
  {
    Body(f, b, AssignPhis(f, p, b, |f.blocks[b].phis|, env, choice), choice)
  }

  datatype State = State(block: Block, env: Env)

  ghost predicate Start(f: Function, s: State, env: Env, choice: Env)
    requires WellFormed(f)
  {
    && Plausible(f, env) && Plausible(f, choice)
    && (forall v: Value | v < |f.values| && f.values[v].home.None? :: Equation(f, v, env))
    && s == State(0, Body(f, 0, env, choice))
  }

  ghost predicate Step(f: Function, s: State, t: State, choice: Env)
    requires WellFormed(f)
  {
    && s.block < |f.blocks| && t.block < |f.blocks|
    && Takes(f, s.block, s.env, t.block)
    && Plausible(f, choice)
    && (TakenIsPredecessor(f, s.block, s.env, t.block); t.env == Enter(f, s.block, t.block, s.env, choice))
  }

  ghost predicate Steps(f: Function, s: State, t: State)
    requires WellFormed(f)
  {
    exists choice :: Step(f, s, t, choice)
  }

  /** A run: a finite execution from the start, around loops as often as it goes. */
  ghost predicate IsRun(f: Function, run: seq<State>)
    requires WellFormed(f)
  {
    && |run| > 0
    && (exists env, choice :: Start(f, run[0], env, choice))
    && forall i | 0 <= i < |run| - 1 :: Steps(f, run[i], run[i + 1])
  }

  // ------------------------------------------------------------------ frame and equations

  lemma {:induction false} ComputeDependsOnOperands(f: Function, v: Value, env: Env, env': Env)
    requires v < |f.values| && WellTyped(f, v) && !IsFree(f, v)
    requires forall o | o in Operands(f.values[v].def) :: Read(env, o) == Read(env', o)
    ensures Compute(f, v, env) == Compute(f, v, env')
  {
    match f.values[v].def
    case Gep(b, indices) => DisplacementDependsOnIndices(f, indices, |indices|, env, env');
    case ICmp(_, l, r) =>
    case _ =>
  }

  lemma {:induction false} DisplacementDependsOnIndices(
      f: Function, indices: seq<GepIndex>, k: nat, env: Env, env': Env)
    requires k <= |indices| && forall i | 0 <= i < |indices| :: IndexOk(f, indices[i])
    requires forall o | o in IndexOperands(indices) :: Read(env, o) == Read(env', o)
    ensures Displacement(f, indices, k, env) == Displacement(f, indices, k, env')
  {
    if k != 0 {
      DisplacementDependsOnIndices(f, indices, k - 1, env, env');
      var i := indices[k - 1];
      if i.VarIndex? {
        assert i.variable in IndexOperands(indices);
      }
    }
  }

  /** Executing instructions changes those instructions' values only. */
  lemma {:induction false} RunBodyFrame(f: Function, body: seq<Value>, env: Env, choice: Env, v: Value)
    requires forall i | 0 <= i < |body| :: body[i] < |f.values| && WellTyped(f, body[i])
    requires v !in body
    ensures Read(RunBody(f, body, env, choice), v) == Read(env, v)
  {
    if |body| != 0 {
      RunBodyFrame(f, body[..|body| - 1], env, choice, v);
    }
  }

  ghost predicate InOrder(f: Function, body: seq<Value>) {
    && (forall i | 0 <= i < |body| :: body[i] < |f.values| && ValueOk(f, body[i]))
    && (forall i, j | 0 <= i < j < |body| :: body[i] < body[j])
  }

  /** After the instructions of a block have run in order, all their equations hold at once. */
  lemma {:induction false} RunBodyEquations(f: Function, body: seq<Value>, env: Env, choice: Env, v: Value)
    requires InOrder(f, body) && v in body
    ensures Equation(f, v, RunBody(f, body, env, choice))
    ensures IsFree(f, v) ==> Read(RunBody(f, body, env, choice), v) == Read(choice, v)
  {
    var rest, last := body[..|body| - 1], body[|body| - 1];
    var before, after := RunBody(f, rest, env, choice), RunBody(f, body, env, choice);
    assert ValueOk(f, v);
    if v != last {
      assert v in rest;
      RunBodyEquations(f, rest, env, choice, v);
    }
    if !IsFree(f, v) {
      assert last !in Operands(f.values[v].def);
      ComputeDependsOnOperands(f, v, before, after);
    }
  }

  /** On an edge, phis take the values their operands had at the end of the predecessor. */
  lemma {:induction false} AssignPhisEffect(
      f: Function, p: Block, b: Block, k: nat, env: Env, choice: Env, v: Value)
    requires WellFormed(f) && b < |f.blocks| && k <= |f.blocks[b].phis| && p in f.blocks[b].preds
    ensures v !in f.blocks[b].phis[..k] ==>
              Read(AssignPhis(f, p, b, k, env, choice), v) == Read(env, v)
    ensures v in f.blocks[b].phis[..k] ==>
              PhiOk(f, b, v) &&
              Read(AssignPhis(f, p, b, k, env, choice), v) == PhiValue(f, p, v, env, choice)
  {
    if k != 0 {
      var j := k - 1;
      AssignPhisEffect(f, p, b, j, env, choice, v);
      AssignPhi(f, p, b, j, k, env, choice, v);
      OneMore(f.blocks[b].phis, j, k, v);
    }
  }

  /** The assignment of one more phi. */
  lemma AssignPhi(f: Function, p: Block, b: Block, j: nat, k: nat, env: Env, choice: Env, v: Value)
    requires WellFormed(f) && b < |f.blocks| && k == j + 1 && k <= |f.blocks[b].phis| && p in f.blocks[b].preds
    ensures PhiOk(f, b, f.blocks[b].phis[j])
    ensures Read(AssignPhis(f, p, b, k, env, choice), v) ==
      if v == f.blocks[b].phis[j] then PhiValue(f, p, v, env, choice)
      else Read(AssignPhis(f, p, b, j, env, choice), v)
  {
    assert BlockOk(f, b) && PhiOk(f, b, f.blocks[b].phis[j]);
    NextPhi(f, p, b, j, k, env, choice);
  }

  lemma OneMore(vs: seq<Value>, j: nat, k: nat, v: Value)
    requires k == j + 1 && k <= |vs|
    ensures v in vs[..k] <==> v in vs[..j] || v == vs[j]
  {
    assert vs[..k] == vs[..j] + [vs[j]];
  }

  lemma NextPhi(f: Function, p: Block, b: Block, j: nat, k: nat, env: Env, choice: Env)
    requires WellFormed(f) && b < |f.blocks| && k == j + 1 && k <= |f.blocks[b].phis| && p in f.blocks[b].preds
    requires PhiOk(f, b, f.blocks[b].phis[j])
    ensures var v := f.blocks[b].phis[j];
      AssignPhis(f, p, b, k, env, choice) == AssignPhis(f, p, b, j, env, choice)[v := PhiValue(f, p, v, env, choice)]
  {
  }
}
