/** Where the check of a wrapping operation goes: at the operation itself, or at the points where
    its result can first be observed. */
module IntRewrite {
  import opened Ir
  import opened Dominance
  import opened Wrappers

  /** An instruction, or another value without a block.  `users` lists each use's user, in use-list
      order; `speculatable` is LLVM's answer to whether executing it early is safe. */
  datatype Node =
    Node(block: Option<Block>, isBranch: bool, isPhi: bool, speculatable: bool, users: seq<nat>,
         pointerOperand: bool)

  /** A function: its graph and dominator tree, the blocks that leave their innermost loop, and the
      use lists. */
  datatype Program = Program(f: Function, dt: DomTree, exiting: set<Block>, nodes: seq<Node>)

  ghost predicate ValidProgram(p: Program) {
    && WellFormed(p.f) && IsDomTree(p.f, p.dt)
    && (forall v :: 0 <= v < |p.nodes| ==> NodeOk(p, p.nodes[v]))
  }

  predicate NodeOk(p: Program, n: Node) {
    && (n.block.Some? ==> n.block.value < |p.f.blocks|)
    && (forall k :: 0 <= k < |n.users| ==> n.users[k] < |p.nodes|)
  }

  function Users(p: Program, v: nat): seq<nat> { if v < |p.nodes| then p.nodes[v].users else [] }

  predicate IsObservable(p: Program, u: nat)
    requires u < |p.nodes|
  {
    var n := p.nodes[u];
    n.block.Some? && if n.isBranch then n.block.value in p.exiting else !n.speculatable
  }

  /** The value flows on from `v` to the unobservable, used result of `u`. */
  predicate Through(p: Program, v: nat, u: nat) {
    u in Users(p, v) && u < |p.nodes| && !IsObservable(p, u) && Users(p, u) != []
  }

  /** A def-use chain from `i` through unobservable users. */
  predicate IsChain(p: Program, i: nat, chain: seq<nat>) {
    |chain| > 0 && chain[0] == i && forall k :: 0 <= k < |chain| - 1 ==> Through(p, chain[k], chain[k + 1])
  }

  ghost predicate Reached(p: Program, i: nat, v: nat) {
    exists chain :: IsChain(p, i, chain) && chain[|chain| - 1] == v
  }

  /** An observable instruction that ends such a chain. */
  ghost predicate Observes(p: Program, i: nat, u: nat) {
    u < |p.nodes| && IsObservable(p, u) && exists v: nat :: Reached(p, i, v) && u in Users(p, v)
  }

  /** `u` keeps the check at the operation: it shares the block, or its block can be entered without
      passing through the operation. */
  ghost predicate Blocks(p: Program, home: Block, u: nat)
    requires u < |p.nodes| && p.nodes[u].block.Some?
  {
    p.nodes[u].block.value == home || !Dominates(p.f, home, p.nodes[u].block.value)
  }

  datatype Place = At(instruction: nat) | EndOf(block: Block)

  /** A call to int.sat on the signed or unsigned overflow bit of `instruction`. */
  datatype Check = Check(instruction: nat, signed: bool, place: Place)

  lemma ReachedFromItself(p: Program, i: nat)
    ensures Reached(p, i, i)
  {
    assert IsChain(p, i, [i]);
  }

  lemma ReachedStep(p: Program, i: nat, v: nat, u: nat)
    requires Reached(p, i, v) && Through(p, v, u)
    ensures Reached(p, i, u)
  {
    var chain :| IsChain(p, i, chain) && chain[|chain| - 1] == v;
    var longer := chain + [u];
    assert forall k :: 0 <= k < |longer| - 1 ==> Through(p, longer[k], longer[k + 1]);
    assert IsChain(p, i, longer);
  }

  /** Everything reached is in any set that holds `i` and is closed under the step. */
  lemma {:induction false} ChainStaysInside(p: Program, i: nat, chain: seq<nat>, s: set<nat>)
    requires IsChain(p, i, chain) && i in s
    requires forall v, u :: v in s && Through(p, v, u) ==> u in s
    ensures chain[|chain| - 1] in s
    decreases |chain|
  {
    if |chain| > 1 {
      var n := |chain| - 1;
      assert IsChain(p, i, chain[..n]);
      ChainStaysInside(p, i, chain[..n], s);
      assert Through(p, chain[n - 1], chain[n]);
    }
  }

  // ------------------------------------------------------------------ one value's uses

  /** `u`, a user of a reached value, has been dealt with. */
  ghost predicate Handled(p: Program, visited: set<nat>, points: set<Block>, u: nat)
    requires u < |p.nodes|
  {
    if IsObservable(p, u) then p.nodes[u].block.value in points
    else Users(p, u) != [] ==> u in visited
  }

  ghost predicate AllHandled(p: Program, visited: set<nat>, points: set<Block>, v: nat) {
    forall u :: u in Users(p, v) && u < |p.nodes| ==> Handled(p, visited, points, u)
  }

  ghost predicate Placeable(p: Program, i: nat, home: Block, b: Block) {
    b != home && Dominates(p.f, home, b)
    && exists u: nat :: Observes(p, i, u) && p.nodes[u].block.value == b
  }

  /** What the search knows at any moment. */
  ghost predicate Known(p: Program, i: nat, home: Block, visited: set<nat>, points: set<Block>) {
    && (forall v :: v in visited ==> v < |p.nodes| && Reached(p, i, v))
    && (forall b :: b in points ==> Placeable(p, i, home, b))
  }

  /** The points a finished search returns: exactly the blocks of the observers. */
  ghost predicate Complete(p: Program, i: nat, home: Block, points: set<Block>) {
    && (forall u: nat :: Observes(p, i, u) ==> p.nodes[u].block.value in points)
    && (forall b :: b in points ==> Placeable(p, i, home, b))
  }

  lemma FinishedSearchIsComplete(p: Program, i: nat, home: Block, visited: set<nat>, points: set<Block>)
    requires ValidProgram(p) && i in visited && Known(p, i, home, visited, points)
    requires forall v :: v in visited ==> AllHandled(p, visited, points, v)
    ensures Complete(p, i, home, points)
    ensures forall v :: v in visited <==> Reached(p, i, v)
  {
    forall v | Reached(p, i, v)
      ensures v in visited
    {
      var chain :| IsChain(p, i, chain) && chain[|chain| - 1] == v;
      forall x, u | x in visited && Through(p, x, u)
        ensures u in visited
      {
        assert AllHandled(p, visited, points, x);
        assert Handled(p, visited, points, u);
      }
      ChainStaysInside(p, i, chain, visited);
    }
    forall u: nat | Observes(p, i, u)
      ensures p.nodes[u].block.value in points
    {
      var v: nat :| Reached(p, i, v) && u in Users(p, v);
      assert AllHandled(p, visited, points, v);
      assert Handled(p, visited, points, u);
    }
  }

  predicate IsName(p: Program, v: nat) { v < |p.nodes| }

  function Names(p: Program): set<nat> { set v: nat | v < |p.nodes| && IsName(p, v) }

  lemma HandledGrows(p: Program, visited: set<nat>, points: set<Block>, visited': set<nat>, points': set<Block>, v: nat)
    requires AllHandled(p, visited, points, v) && visited <= visited' && points <= points'
    ensures AllHandled(p, visited', points', v)
  {
    forall u | u in Users(p, v) && u < |p.nodes|
      ensures Handled(p, visited', points', u)
    {
      assert Handled(p, visited, points, u);
    }
  }

  /** Some observer keeps the check of `i` at `i`. */
  ghost predicate KeptBack(p: Program, i: nat)
    requires i < |p.nodes| && p.nodes[i].block.Some?
  {
    exists u: nat :: Observes(p, i, u) && Blocks(p, p.nodes[i].block.value, u)
  }

  lemma NothingKeptBack(p: Program, i: nat, home: Block, points: set<Block>)
    requires i < |p.nodes| && p.nodes[i].block == Some(home) && Complete(p, i, home, points)
    ensures !KeptBack(p, i)
  {
    forall u: nat | Observes(p, i, u)
      ensures !Blocks(p, home, u)
    {
      assert Placeable(p, i, home, p.nodes[u].block.value);
    }
  }

  // ------------------------------------------------------------------ observers by their fields

  /** A branch out of a loop, or any other instruction that must not be executed early. */
  predicate ShowsOutside(p: Program, n: Node) {
    match n
    case Node(None, _, _, _, _, _) => false
    case Node(Some(b), isBranch, _, speculatable, _, _) => (isBranch && b in p.exiting) || (!isBranch && !speculatable)
  }

  /** `u` uses `v`, does not show it, and is used itself. */
  predicate FlowsOn(p: Program, v: nat, u: nat) {
    v < |p.nodes| && u < |p.nodes| && u in p.nodes[v].users
    && !ShowsOutside(p, p.nodes[u]) && p.nodes[u].users != []
  }

  /** The value of `i` flows along the chain, whose later members do not show it and are used, to the
      user `u` that shows it. */
  predicate FlowsTo(p: Program, i: nat, chain: seq<nat>, u: nat) {
    && |chain| > 0 && chain[0] == i
    && (forall k | 0 <= k < |chain| - 1 :: FlowsOn(p, chain[k], chain[k + 1]))
    && var last := chain[|chain| - 1];
       last < |p.nodes| && u < |p.nodes| && u in p.nodes[last].users && ShowsOutside(p, p.nodes[u])
  }

  lemma ObservesByFields(p: Program, i: nat, u: nat)
    requires i < |p.nodes|
    ensures Observes(p, i, u) <==> exists chain :: FlowsTo(p, i, chain, u)
  {
    if Observes(p, i, u) {
      var v: nat :| Reached(p, i, v) && u in Users(p, v);
      var chain :| IsChain(p, i, chain) && chain[|chain| - 1] == v;
      forall k | 0 <= k < |chain| - 1
        ensures FlowsOn(p, chain[k], chain[k + 1])
      {
        assert Through(p, chain[k], chain[k + 1]);
      }
      assert FlowsTo(p, i, chain, u);
    }
    if chain :| FlowsTo(p, i, chain, u) {
      forall k | 0 <= k < |chain| - 1
        ensures Through(p, chain[k], chain[k + 1])
      {
        assert FlowsOn(p, chain[k], chain[k + 1]);
      }
      assert IsChain(p, i, chain) && Reached(p, i, chain[|chain| - 1]);
    }
  }

  /** The check stays at `i` exactly when the value shows in the same block, or in one that can be
      entered without passing through it. */
  lemma KeptBackByFields(p: Program, i: nat)
    requires i < |p.nodes| && p.nodes[i].block.Some?
    ensures KeptBack(p, i) <==>
      exists chain, u: nat :: FlowsTo(p, i, chain, u) &&
        (p.nodes[u].block == p.nodes[i].block || !Dominates(p.f, p.nodes[i].block.value, p.nodes[u].block.value))
  {
    if KeptBack(p, i) {
      var u: nat :| Observes(p, i, u) && Blocks(p, p.nodes[i].block.value, u);
      ObservesByFields(p, i, u);
      var chain :| FlowsTo(p, i, chain, u);
    }
    forall chain, u: nat | FlowsTo(p, i, chain, u)
      ensures Observes(p, i, u)
    {
      ObservesByFields(p, i, u);
    }
  }

  /** Wherever the value of `i` shows, there is a check in the block, or else one at `i`. */
  ghost predicate ShownIsChecked(p: Program, i: nat, signed: bool, eager: bool, checks: multiset<Check>) {
    if eager then Check(i, signed, At(i)) in checks
    else forall chain, u: nat | FlowsTo(p, i, chain, u) :: Check(i, signed, EndOf(p.nodes[u].block.value)) in checks
  }

  lemma CompleteIsChecked(p: Program, i: nat, home: Block, signed: bool, points: set<Block>, checks: multiset<Check>)
    requires i < |p.nodes| && Complete(p, i, home, points) && multiset(ChecksAt(i, signed, points)) <= checks
    ensures ShownIsChecked(p, i, signed, false, checks)
  {
    forall chain, u: nat | FlowsTo(p, i, chain, u)
      ensures Check(i, signed, EndOf(p.nodes[u].block.value)) in checks
    {
      ObservesByFields(p, i, u);
      assert Check(i, signed, EndOf(p.nodes[u].block.value)) in ChecksAt(i, signed, points);
    }
  }

  function ChecksAt(i: nat, signed: bool, blocks: set<Block>): set<Check> {
    set b | b in blocks :: Check(i, signed, EndOf(b))
  }

  class IntRewrite {
    const wrapOpt: bool
    const program: Program
    var noSignedWrap: set<nat>    // the instructions that carry the flag
    var checks: multiset<Check>

    constructor (wrapOpt: bool, program: Program, flags: set<nat>)
      ensures this.wrapOpt == wrapOpt && this.program == program
      ensures noSignedWrap == flags && checks == multiset{}
    {
      this.wrapOpt, this.program, this.noSignedWrap, this.checks := wrapOpt, program, flags, multiset{};
    }

    /** The observer shares the operation's block, or the tree does not put the operation above it. */
    predicate KeepsBack(home: Block, u: nat)
      requires ValidProgram(program) && home < |program.f.blocks|
      requires u < |program.nodes| && program.nodes[u].block.Some?
      ensures KeepsBack(home, u) <==> Blocks(program, home, u)
    {
      var obBlock := program.nodes[u].block.value;
      DomTreeIsTreeShaped(program.f, program.dt);
      assert NodeOk(program, program.nodes[u]);
      AncestorsAreDominators(program.f, program.dt, home, obBlock);
      obBlock == home || home !in Ancestors(program.dt, obBlock)
    }

    /** Look at every use of `e`: stop at an observer that keeps the check at `i`, collect the block
        of any other, and put what is new on the worklist. */
    method VisitUses(i: nat, home: Block, e: nat, visited0: set<nat>, worklist0: seq<nat>, points0: set<Block>)
      returns (eager: bool, visited: set<nat>, worklist: seq<nat>, points: set<Block>, ghost blocker: nat)
      requires ValidProgram(program) && home < |program.f.blocks|
      requires Known(program, i, home, visited0, points0) && e in visited0
      ensures eager ==> Observes(program, i, blocker) && Blocks(program, home, blocker)
      ensures !eager ==> Known(program, i, home, visited, points)
      ensures visited0 <= visited && points0 <= points && worklist0 <= worklist
      ensures !eager ==> AllHandled(program, visited, points, e)
      ensures forall v :: v in visited && v !in visited0 ==> v in worklist
      ensures forall v :: v in worklist ==> v in worklist0 || v in visited
      ensures visited == visited0 ==> worklist == worklist0
    {
      eager, visited, worklist, points, blocker := false, visited0, worklist0, points0, 0;
      var users := program.nodes[e].users;
      for k := 0 to |users|
        invariant !eager && Known(program, i, home, visited, points)
        invariant visited0 <= visited && points0 <= points && worklist0 <= worklist
        invariant forall j :: 0 <= j < k ==> Handled(program, visited, points, users[j])
        invariant forall v :: v in visited && v !in visited0 ==> v in worklist
        invariant forall v :: v in worklist ==> v in worklist0 || v in visited
        invariant visited == visited0 ==> worklist == worklist0
      {
        var u := users[k];
        assert NodeOk(program, program.nodes[e]);
        if IsObservable(program, u) {
          assert Observes(program, i, u);
          if KeepsBack(home, u) {
            eager, blocker := true, u;
            return;
          }
          points := points + {program.nodes[u].block.value};
        } else if program.nodes[u].users != [] && u !in visited {
          assert Through(program, e, u);
          ReachedStep(program, i, e, u);
          visited := visited + {u};
          worklist := worklist + [u];
        }
      }
    }

    /** Follow the uses of `i`.  `eager` is answered at the first observer that keeps the check at
        `i`; otherwise the search visits exactly what `i` flows into and collects exactly the
        blocks of its observers. */
    method Search(i: nat, home: Block) returns (eager: bool, points: set<Block>, visited: set<nat>, ghost blocker: nat)
      requires ValidProgram(program) && i < |program.nodes| && home < |program.f.blocks|
      ensures eager ==> Observes(program, i, blocker) && Blocks(program, home, blocker)
      ensures !eager ==> Complete(program, i, home, points)
      ensures !eager ==> forall v :: v in visited <==> Reached(program, i, v)
    {
      ReachedFromItself(program, i);
      var worklist := [i];
      eager, points, visited, blocker := false, {}, {i}, 0;
      while worklist != []
        invariant i in visited && Known(program, i, home, visited, points)
        invariant forall v :: v in worklist ==> v in visited
        invariant forall v :: v in visited && v !in worklist ==> AllHandled(program, visited, points, v)
        decreases Names(program) - visited, |worklist|
      {
        var e := worklist[|worklist| - 1];
        ghost var before, known, seen := worklist, visited, points;
        worklist := worklist[..|worklist| - 1];
        assert before == worklist + [e];
        eager, visited, worklist, points, blocker := VisitUses(i, home, e, visited, worklist, points);
        if eager { return; }
        forall v | v in visited && v !in worklist
          ensures AllHandled(program, visited, points, v)
        {
          if v != e {
            assert v in known && v !in before;
            HandledGrows(program, known, seen, visited, points, v);
          }
        }
      }
      FinishedSearchIsComplete(program, i, home, visited, points);
    }

    /** Insert the checks of one add, sub or mul.  A pointer subtraction gets none.  A signed one
        without -fwrapv gets one at itself.  Any other gets either one at itself, because some
        observer keeps it there, or one at the end of each block with an observer, all of them
        strictly dominated by the operation. */
    method InsertOverflowCheck(i: nat) returns (changed: bool, ghost eager: bool, ghost points: set<Block>)
      requires ValidProgram(program) && i < |program.nodes| && program.nodes[i].block.Some?
      modifies this
      ensures changed <==> !program.nodes[i].pointerOperand
      ensures !changed ==> checks == old(checks) && noSignedWrap == old(noSignedWrap)
      ensures changed ==>
        var signed := i in old(noSignedWrap);
        && checks == old(checks) + (if eager then multiset{Check(i, signed, At(i))}
                                    else multiset(ChecksAt(i, signed, points)))
        && noSignedWrap == (if wrapOpt then old(noSignedWrap) - {i} else old(noSignedWrap))
        && (eager <==> (signed && !wrapOpt) || KeptBack(program, i))
        && (!eager ==> Complete(program, i, program.nodes[i].block.value, points))
        && ShownIsChecked(program, i, signed, eager, checks)
    {
      eager, points := false, {};
      if program.nodes[i].pointerOperand { return false, eager, points; }
      var signed := i in noSignedWrap;
      changed := true;
      if signed {
        if !wrapOpt {
          checks := checks + multiset{Check(i, signed, At(i))};
          eager := true;
          return;
        }
        noSignedWrap := noSignedWrap - {i};
      }
      eager, points := InsertDeferred(i, signed);
    }

    /** Search for the observers, and insert the check at `i` if one of them keeps it there, else one at
        the end of each observer's block. */
    method InsertDeferred(i: nat, signed: bool) returns (ghost eager: bool, ghost points: set<Block>)
      requires ValidProgram(program) && i < |program.nodes| && program.nodes[i].block.Some?
      modifies this`checks
      ensures checks == old(checks) + (if eager then multiset{Check(i, signed, At(i))}
                                       else multiset(ChecksAt(i, signed, points)))
      ensures eager <==> KeptBack(program, i)
      ensures !eager ==> Complete(program, i, program.nodes[i].block.value, points)
      ensures ShownIsChecked(program, i, signed, eager, checks)
    {
      var home := program.nodes[i].block.value;
      var kept, found, visited, blocker := Search(i, home);
      eager, points := kept, found;
      if kept {
        assert KeptBack(program, i);
        checks := checks + multiset{Check(i, signed, At(i))};
        return;
      }
      NothingKeptBack(program, i, home, found);
      InsertAtEnds(i, signed, found);
      CompleteIsChecked(program, i, home, signed, found, checks);
    }

    /** One check at the end of each block, in any order. */
    method InsertAtEnds(i: nat, signed: bool, points: set<Block>)
      modifies this`checks
      ensures checks == old(checks) + multiset(ChecksAt(i, signed, points))
    {
      var rest := points;
      while rest != {}
        invariant rest <= points
        invariant checks == old(checks) + multiset(ChecksAt(i, signed, points - rest))
        decreases |rest|
      {
        var b :| b in rest;
        ghost var done := points - rest;
        rest := rest - {b};
        assert points - rest == done + {b};
        OneMoreCheck(i, signed, done, b);
        checks := checks + multiset{Check(i, signed, EndOf(b))};
      }
      assert points - rest == points;
    }
  }

  lemma OneMoreCheck(i: nat, signed: bool, done: set<Block>, b: Block)
    requires b !in done
    ensures multiset(ChecksAt(i, signed, done + {b})) ==
      multiset(ChecksAt(i, signed, done)) + multiset{Check(i, signed, EndOf(b))}
  {
    var c := Check(i, signed, EndOf(b));
    assert ChecksAt(i, signed, done + {b}) == ChecksAt(i, signed, done) + {c};
    assert c !in ChecksAt(i, signed, done);
  }

  // ------------------------------------------------------------------ what keeps a check back

  /** Static single assignment: an instruction that is not a phi is used only where its definition
      dominates, every user is an instruction, and phis are never speculated. */
  ghost predicate SsaForm(p: Program) {
    && (forall v :: 0 <= v < |p.nodes| && p.nodes[v].isPhi ==> !p.nodes[v].speculatable && !p.nodes[v].isBranch)
    && (forall v, u :: 0 <= v < |p.nodes| && p.nodes[v].block.Some? && u in p.nodes[v].users ==> UseOk(p, v, u))
  }

  ghost predicate UseOk(p: Program, v: nat, u: nat)
    requires v < |p.nodes| && p.nodes[v].block.Some?
  {
    u < |p.nodes| && p.nodes[u].block.Some?
    && (!p.nodes[u].isPhi ==> Dominates(p.f, p.nodes[v].block.value, p.nodes[u].block.value))
  }

  lemma {:induction false} ChainIsDominated(p: Program, i: nat, chain: seq<nat>)
    requires SsaForm(p) && IsChain(p, i, chain) && i < |p.nodes| && p.nodes[i].block.Some?
    ensures var v := chain[|chain| - 1];
      v < |p.nodes| && p.nodes[v].block.Some? && Dominates(p.f, p.nodes[i].block.value, p.nodes[v].block.value)
    decreases |chain|
  {
    var n := |chain| - 1;
    if n == 0 {
      DominatesReflexive(p.f, p.nodes[i].block.value);
    } else {
      assert IsChain(p, i, chain[..n]);
      ChainIsDominated(p, i, chain[..n]);
      assert Through(p, chain[n - 1], chain[n]);
      assert UseOk(p, chain[n - 1], chain[n]);
      DominatesTransitive(p.f, p.nodes[i].block.value, p.nodes[chain[n - 1]].block.value,
                          p.nodes[chain[n]].block.value);
    }
  }

  /** Only two kinds of observer keep a check back: one in the operation's own block, or a phi.
      Every other observer's block is strictly dominated, loops or not. */
  lemma KeptBackByNeighbourOrPhi(p: Program, i: nat, u: nat)
    requires SsaForm(p) && i < |p.nodes| && p.nodes[i].block.Some? && Observes(p, i, u)
    ensures Blocks(p, p.nodes[i].block.value, u) ==>
      p.nodes[u].block == p.nodes[i].block || p.nodes[u].isPhi
  {
    var v: nat :| Reached(p, i, v) && u in Users(p, v);
    var chain :| IsChain(p, i, chain) && chain[|chain| - 1] == v;
    ChainIsDominated(p, i, chain);
    assert UseOk(p, v, u);
    if !p.nodes[u].isPhi {
      DominatesTransitive(p.f, p.nodes[i].block.value, p.nodes[v].block.value, p.nodes[u].block.value);
    }
  }
}
