/** What a step of the taint pass must attach at least, said of the maps before and after it. */
module TaintDelivery {
  import opened TaintFlow

  predicate Carries(s: State, n: Node, d: Desc) {
    match n
    case Val(v) => v in s.values && d in s.values[v]
    case Slot(id) => SlotCarries(s.slots, id, d)
  }

  predicate SlotCarries(slots: SlotMap, id: Id, d: Desc) { id in slots && d in slots[id].descs }

  /** Nothing that is attached gets lost. */
  predicate ValuesKeep(a: ValueMap, b: ValueMap) {
    forall v | v in a :: v in b && a[v] <= b[v]
  }

  predicate SlotsKeep(a: SlotMap, b: SlotMap) {
    forall id | id in a :: id in b && a[id].descs <= b[id].descs
  }

  predicate Keeps(a: State, b: State) { ValuesKeep(a.values, b.values) && SlotsKeep(a.slots, b.slots) }

  /** A value without an entry takes `d` over from its own slot, or from the result of a function that
      it may call. */
  predicate Takes(p: Program, slots: SlotMap, v: Value, d: Desc)
    requires v < |p.values|
  {
    || (p.values[v].id != Nameless && SlotCarries(slots, p.values[v].id, d))
    || TakesResult(p, slots, v, d)
  }

  predicate TakesResult(p: Program, slots: SlotMap, v: Value, d: Desc)
    requires v < |p.values|
  {
    p.values[v].callees.Some? && TakesFrom(p.values[v].callees.value, slots, d)
  }

  predicate TakesFrom(cs: seq<Callee>, slots: SlotMap, d: Desc) {
    exists c :: 0 <= c < |cs| && cs[c].retId != Nameless && SlotCarries(slots, cs[c].retId, d)
  }

  /** Looked up in this state, the value gives `d`: by its own entry, else by that of the pointer it
      casts, else by what it takes over. */
  predicate Offers(p: Program, s: State, v: Value, d: Desc)
    requires v < |p.values|
  {
    if v in s.values then d in s.values[v]
    else if p.values[v].stripped in s.values then d in s.values[p.values[v].stripped]
    else Takes(p, s.slots, v, d)
  }

  // ------------------------------------------------------------------ looking up

  predicate SameAt(a: ValueMap, b: ValueMap, x: Value) { (x in a <==> x in b) && (x in a ==> a[x] == b[x]) }

  lemma {:induction false} ResultsTaken(p: Program, s: State, v: Value, k: nat, d: Desc)
    requires v < |p.values| && p.values[v].callees.Some? && k <= |p.values[v].callees.value| && v !in s.values
    ensures var after, cs := AfterResults(p, s, v, k), p.values[v].callees.value;
      (v in after && d in after[v]) <==> TakesFrom(cs[..k], s.slots, d)
    ensures forall x | x != v :: SameAt(s.values, AfterResults(p, s, v, k), x)
  {
    if k != 0 {
      var j := k - 1;
      ResultsTaken(p, s, v, j, d);
      var cs := p.values[v].callees.value;
      assert cs[..k] == cs[..j] + [cs[j]];
      OneMoreCallee(cs, j, k, s.slots, d);
      forall x | x != v
        ensures SameAt(s.values, AfterResults(p, s, v, k), x)
      {
        assert SameAt(s.values, AfterResults(p, s, v, j), x);
      }
    }
  }

  lemma OneMoreCallee(cs: seq<Callee>, j: nat, k: nat, slots: SlotMap, d: Desc)
    requires k == j + 1 && k <= |cs|
    ensures TakesFrom(cs[..k], slots, d) <==>
      TakesFrom(cs[..j], slots, d) || (cs[j].retId != Nameless && SlotCarries(slots, cs[j].retId, d))
  {
    if c :| 0 <= c < k && cs[..k][c].retId != Nameless && SlotCarries(slots, cs[..k][c].retId, d) && c < j {
      assert cs[..j][c] == cs[..k][c];
    }
    if c :| 0 <= c < j && cs[..j][c].retId != Nameless && SlotCarries(slots, cs[..j][c].retId, d) {
      assert cs[..k][c] == cs[..j][c];
    }
    if cs[j].retId != Nameless && SlotCarries(slots, cs[j].retId, d) { assert cs[..k][j] == cs[j]; }
  }

  /** A lookup finds exactly what the value offers, and attaches only to a value without an entry. */
  lemma LookupMeaning(p: Program, s: State, v: Value, d: Desc)
    requires v < |p.values|
    ensures var after := AfterLookup(p, s, v);
      && ValuesKeep(s.values, after)
      && (forall x | x != v || x in s.values :: SameAt(s.values, after, x))
      && ((Found(p, after, v).Some? && d in Found(p, after, v).value) <==> Offers(p, s, v, d))
      && (v !in s.values && v in after ==> (d in after[v] <==> Takes(p, s.slots, v, d)))
      && (v !in s.values && p.values[v].stripped in s.values ==> v !in after || p.values[v].stripped == v)
  {
    if v !in s.values && p.values[v].stripped !in s.values {
      var callees := p.values[v].callees;
      if callees.Some? {
        ResultsTaken(p, s, v, |callees.value|, d);
        assert callees.value[..|callees.value|] == callees.value;
      }
      forall x | x != v || x in s.values
        ensures SameAt(s.values, AfterLookup(p, s, v), x)
      {
        if callees.Some? { assert SameAt(s.values, AfterResults(p, s, v, |callees.value|), x); }
      }
    }
    assert forall x | x in s.values :: SameAt(s.values, AfterLookup(p, s, v), x);
  }

  /** What the operands before number `k` have had attached to them on the way. */
  predicate LookedUp(p: Program, s: State, i: Instr, k: nat, values: ValueMap, d: Desc)
    requires InstrOk(p, i) && k <= |i.operands|
  {
    && (forall x | x in s.values :: x in values && values[x] == s.values[x])
    && (forall x | x in values && x !in s.values ::
          && x < |p.values| && x in i.operands[..k] && p.values[x].stripped !in s.values
          && (d in values[x] <==> Takes(p, s.slots, x, d)))
  }

  /** Operand `k` gives `d`, and the pointer it casts is not itself an operand that would be looked up
      before and answer in its place. */
  predicate Gives(p: Program, s: State, i: Instr, k: nat, d: Desc)
    requires InstrOk(p, i) && k < |i.operands|
  {
    var x := i.operands[k];
    Offers(p, s, x, d)
    && (x in s.values || p.values[x].stripped in s.values || p.values[x].stripped == x
        || p.values[x].stripped !in i.operands[..k])
  }

  lemma {:induction false} OperandsMeaning(p: Program, s: State, i: Instr, k: nat, d: Desc)
    requires InstrOk(p, i) && k <= |i.operands|
    ensures LookedUp(p, s, i, k, AfterOperands(p, s, i, k).0, d)
    ensures forall j | 0 <= j < k && Gives(p, s, i, j, d) :: d in AfterOperands(p, s, i, k).1
  {
    if k != 0 {
      var j := k - 1;
      OperandsMeaning(p, s, i, j, d);
      NextOperand(p, s, i, j, k, d);
    }
  }

  lemma NextOperand(p: Program, s: State, i: Instr, j: nat, k: nat, d: Desc)
    requires InstrOk(p, i) && k == j + 1 && k <= |i.operands|
    requires LookedUp(p, s, i, j, AfterOperands(p, s, i, j).0, d)
    ensures LookedUp(p, s, i, k, AfterOperands(p, s, i, k).0, d)
    ensures AfterOperands(p, s, i, j).1 <= AfterOperands(p, s, i, k).1
    ensures Gives(p, s, i, j, d) ==> d in AfterOperands(p, s, i, k).1
  {
    var (values, ds) := AfterOperands(p, s, i, j);
    var x := i.operands[j];
    var after := AfterLookup(p, State(s.slots, values), x);
    LookupMeaning(p, State(s.slots, values), x, d);
    StillGives(p, s, i, j, values, d);
    OneMoreLookedUp(p, s, i, j, k, values, after, d);
    OperandStep(p, s, i, j, k);
  }

  lemma OperandStep(p: Program, s: State, i: Instr, j: nat, k: nat)
    requires InstrOk(p, i) && k == j + 1 && k <= |i.operands|
    ensures var values, ds := AfterOperands(p, s, i, j).0, AfterOperands(p, s, i, j).1;
      var after := AfterLookup(p, State(s.slots, values), i.operands[j]);
      var more := Found(p, after, i.operands[j]);
      AfterOperands(p, s, i, k) == (after, if more.Some? then ds + more.value else ds)
  {
  }

  lemma OneMoreLookedUp(
      p: Program, s: State, i: Instr, j: nat, k: nat, values: ValueMap, after: ValueMap, d: Desc)
    requires InstrOk(p, i) && k == j + 1 && k <= |i.operands| && LookedUp(p, s, i, j, values, d)
    requires forall x | x != i.operands[j] || x in values :: SameAt(values, after, x)
    requires i.operands[j] !in values && i.operands[j] in after ==>
      && p.values[i.operands[j]].stripped !in s.values
      && (d in after[i.operands[j]] <==> Takes(p, s.slots, i.operands[j], d))
    ensures LookedUp(p, s, i, k, after, d)
  {
    assert i.operands[..k] == i.operands[..j] + [i.operands[j]];
    forall x | x in after
      ensures x in values || x == i.operands[j]
    {
      if x != i.operands[j] { assert SameAt(values, after, x); }
    }
    forall x | x in values
      ensures x in after && after[x] == values[x]
    {
      assert SameAt(values, after, x);
    }
  }

  /** What an operand gives at the start it still gives when its turn comes. */
  lemma StillGives(p: Program, s: State, i: Instr, j: nat, values: ValueMap, d: Desc)
    requires InstrOk(p, i) && j < |i.operands| && LookedUp(p, s, i, j, values, d)
    ensures Gives(p, s, i, j, d) ==> Offers(p, State(s.slots, values), i.operands[j], d)
  {
  }

  // ------------------------------------------------------------------ one instruction

  lemma ValueKept(values: ValueMap, v: Value, ds: set<Desc>)
    ensures ValuesKeep(values, WithValue(values, v, ds)) && ds <= WithValue(values, v, ds)[v]
  {
  }

  lemma SlotKept(slots: SlotMap, id: Id, ds: set<Desc>, isSource: bool)
    ensures SlotsKeep(slots, WithSlot(slots, id, ds, isSource))
    ensures var after := WithSlot(slots, id, ds, isSource); id != Nameless ==> id in after && ds <= after[id].descs
  {
  }

  /** The result of an instruction that is no call, and the slot it stores to or returns, take over
      everything that its operands give. */
  predicate DeliversOperands(p: Program, s: State, t: State, i: Instr, d: Desc)
    requires InstrOk(p, i)
  {
    forall k | 0 <= k < |i.operands| && Gives(p, s, i, k, d) ::
      && Carries(t, Val(i.self), d)
      && (i.kind.Store? && i.kind.id != Nameless ==> Carries(t, Slot(i.kind.id), d))
      && (i.kind.Return? && i.kind.id != Nameless ==> Carries(t, Slot(i.kind.id), d))
  }

  lemma PropagateDelivers(p: Program, s: State, i: Instr, d: Desc)
    requires InstrOk(p, i) && !i.kind.CallInst?
    ensures DeliversOperands(p, s, AfterPropagate(p, s, i), i, d) && Keeps(s, AfterPropagate(p, s, i))
  {
    OperandsMeaning(p, s, i, |i.operands|, d);
    var (values, ds) := AfterOperands(p, s, i, |i.operands|);
    ValueKept(values, i.self, ds);
    if i.kind.Store? || i.kind.Return? { SlotKept(s.slots, i.kind.id, ds, false); }
  }

  /** Where a source puts its description: itself, its own slot and the members' slots. */
  ghost predicate DeliversSource(p: Program, t: State, i: Instr)
    requires InstrOk(p, i)
  {
    i.source.Some? ==>
      && Carries(t, Val(i.self), i.source.value)
      && (forall id | id != Nameless && (id == p.values[i.self].id || id in i.members) ::
            Carries(t, Slot(id), i.source.value) && t.slots[id].source)
  }

  lemma {:induction false} MembersDeliver(i: Instr, slots: SlotMap, ds: set<Desc>, k: nat)
    requires k <= |i.members|
    ensures SlotsKeep(slots, AfterMembers(i, slots, ds, k))
    ensures forall id | id != Nameless && id in i.members[..k] ::
      id in AfterMembers(i, slots, ds, k) && ds <= AfterMembers(i, slots, ds, k)[id].descs
      && AfterMembers(i, slots, ds, k)[id].source
  {
    if k != 0 {
      var j := k - 1;
      MembersDeliver(i, slots, ds, j);
      assert i.members[..k] == i.members[..j] + [i.members[j]];
      SlotKept(AfterMembers(i, slots, ds, j), i.members[j], ds, true);
    }
  }

  lemma SourceDelivers(p: Program, s: State, i: Instr)
    requires InstrOk(p, i)
    ensures DeliversSource(p, AfterSource(p, s, i), i) && Keeps(s, AfterSource(p, s, i))
  {
    if i.source.Some? {
      var ds := WithValue(s.values, i.self, {i.source.value})[i.self];
      var slots := WithSlot(s.slots, p.values[i.self].id, ds, true);
      SlotKept(s.slots, p.values[i.self].id, ds, true);
      MembersDeliver(i, slots, ds, |i.members|);
      MembersGrow(i, slots, ds, |i.members|);
      assert i.members[..|i.members|] == i.members;
    }
  }

  // ------------------------------------------------------------------ calls

  /** The argument has `d` in its own entry or, without one, in that of the pointer it casts. */
  predicate Has(p: Program, values: ValueMap, x: Value, d: Desc)
    requires x < |p.values|
  {
    if x in values then d in values[x]
    else p.values[x].stripped in values && d in values[p.values[x].stripped]
  }

  /** An argument's description is in the parameter of its number, of every callee not skipped. */
  predicate DeliversArguments(p: Program, values: ValueMap, t: State, cs: seq<Callee>, args: seq<Value>, d: Desc)
    requires forall a | 0 <= a < |args| :: args[a] < |p.values|
  {
    forall c, n | 0 <= c < |cs| && !cs[c].skipped && 0 <= n < |args| && n < |cs[c].argIds|
                  && Has(p, values, args[n], d) ::
      cs[c].argIds[n] != Nameless ==> Carries(t, Slot(cs[c].argIds[n]), d)
  }

  /** A lookup leaves what every other value has. */
  lemma LookupKeeps(p: Program, s: State, v: Value, x: Value, d: Desc)
    requires v < |p.values| && x < |p.values| && Has(p, s.values, x, d)
    ensures Has(p, AfterLookup(p, s, v), x, d)
  {
    LookupMeaning(p, s, v, d);
  }

  lemma ArgumentDelivers(p: Program, s: State, callee: Callee, args: seq<Value>, n: nat, d: Desc)
    requires n < |args| && n < |callee.argIds| && args[n] < |p.values|
    ensures var t := AfterArgument(p, s, callee, args, n);
      && Keeps(s, t)
      && (Has(p, s.values, args[n], d) && callee.argIds[n] != Nameless ==> Carries(t, Slot(callee.argIds[n]), d))
      && (forall x: Value | x < |p.values| && Has(p, s.values, x, d) :: Has(p, t.values, x, d))
  {
    LookupMeaning(p, s, args[n], d);
    var ds := Found(p, AfterLookup(p, s, args[n]), args[n]);
    if ds.Some? { SlotKept(s.slots, callee.argIds[n], ds.value, false); }
    forall x: Value | x < |p.values| && Has(p, s.values, x, d)
      ensures Has(p, AfterLookup(p, s, args[n]), x, d)
    {
      LookupKeeps(p, s, args[n], x, d);
    }
  }

  lemma {:induction false} ArgumentsDeliver(p: Program, s: State, callee: Callee, args: seq<Value>, n: nat, d: Desc)
    requires n <= |args| <= |callee.argIds| && forall a | 0 <= a < |args| :: args[a] < |p.values|
    ensures var t := AfterArguments(p, s, callee, args, n);
      && Keeps(s, t)
      && (forall k | 0 <= k < n && Has(p, s.values, args[k], d) && callee.argIds[k] != Nameless ::
            Carries(t, Slot(callee.argIds[k]), d))
      && (forall x: Value | x < |p.values| && Has(p, s.values, x, d) :: Has(p, t.values, x, d))
  {
    if n != 0 {
      ArgumentsDeliver(p, s, callee, args, n - 1, d);
      ArgumentDelivers(p, AfterArguments(p, s, callee, args, n - 1), callee, args, n - 1, d);
    }
  }

  lemma {:induction false} CalleesDeliver(p: Program, s: State, i: Instr, c: nat, d: Desc)
    requires InstrOk(p, i) && i.kind.CallInst? && p.values[i.self].callees.Some?
    requires c <= |p.values[i.self].callees.value|
    ensures var t, cs := AfterCallees(p, s, i, c), p.values[i.self].callees.value;
      && Keeps(s, t) && DeliversArguments(p, s.values, t, cs[..c], i.kind.args, d)
      && (forall x: Value | x < |p.values| && Has(p, s.values, x, d) :: Has(p, t.values, x, d))
  {
    if c != 0 {
      var j := c - 1;
      CalleesDeliver(p, s, i, j, d);
      NextCallee(p, s, i, j, c, d);
    }
  }

  lemma NextCallee(p: Program, s: State, i: Instr, j: nat, c: nat, d: Desc)
    requires InstrOk(p, i) && i.kind.CallInst? && p.values[i.self].callees.Some?
    requires c == j + 1 && c <= |p.values[i.self].callees.value|
    requires var t, cs := AfterCallees(p, s, i, j), p.values[i.self].callees.value;
      && Keeps(s, t) && DeliversArguments(p, s.values, t, cs[..j], i.kind.args, d)
      && (forall x: Value | x < |p.values| && Has(p, s.values, x, d) :: Has(p, t.values, x, d))
    ensures var t, cs := AfterCallees(p, s, i, c), p.values[i.self].callees.value;
      && Keeps(s, t) && DeliversArguments(p, s.values, t, cs[..c], i.kind.args, d)
      && (forall x: Value | x < |p.values| && Has(p, s.values, x, d) :: Has(p, t.values, x, d))
  {
    var before, t, cs := AfterCallees(p, s, i, j), AfterCallees(p, s, i, c), p.values[i.self].callees.value;
    assert cs[..c] == cs[..j] + [cs[j]] && cs[j] in cs;
    if !cs[j].skipped {
      ArgumentsDeliver(p, before, cs[j], i.kind.args, |i.kind.args|, d);
    }
    forall k, n | 0 <= k < c && !cs[..c][k].skipped && 0 <= n < |i.kind.args| && n < |cs[..c][k].argIds|
                  && Has(p, s.values, i.kind.args[n], d) && cs[..c][k].argIds[n] != Nameless
      ensures Carries(t, Slot(cs[..c][k].argIds[n]), d)
    {
      if k < j {
        assert cs[..j][k] == cs[..c][k];
        assert Carries(before, Slot(cs[..j][k].argIds[n]), d);
      }
    }
  }

  // ------------------------------------------------------------------ whole rounds

  /** From `s` to `t` the instruction has passed on whatever its operands or arguments had attached to
      themselves in `s`, and what it is a source of. */
  ghost predicate Delivers(p: Program, s: State, t: State, i: Instr)
    requires InstrOk(p, i)
  {
    && DeliversSource(p, t, i)
    && (!i.kind.CallInst? ==> forall k, d | 0 <= k < |i.operands| && Carries(s, Val(i.operands[k]), d) ::
          PassesOn(t, i, d))
    && (i.kind.CallInst? && p.values[i.self].callees.Some? ==> forall a, d |
          0 <= a < |i.kind.args| && Carries(s, Val(i.kind.args[a]), d) ::
          PassesArgument(p.values[i.self].callees.value, t, a, d))
  }

  /** The result carries `d`, and so does the named slot that is stored to or returned. */
  predicate PassesOn(t: State, i: Instr, d: Desc) {
    && Carries(t, Val(i.self), d)
    && (i.kind.Store? && i.kind.id != Nameless ==> Carries(t, Slot(i.kind.id), d))
    && (i.kind.Return? && i.kind.id != Nameless ==> Carries(t, Slot(i.kind.id), d))
  }

  /** Parameter `n` of every callee that is not skipped carries `d`, if it has a name. */
  predicate PassesArgument(cs: seq<Callee>, t: State, n: nat, d: Desc) {
    forall c | 0 <= c < |cs| && !cs[c].skipped && n < |cs[c].argIds| && cs[c].argIds[n] != Nameless ::
      Carries(t, Slot(cs[c].argIds[n]), d)
  }

  lemma KeepsTransitive(a: State, b: State, c: State)
    requires Keeps(a, b) && Keeps(b, c)
    ensures Keeps(a, c)
  {
  }

  /** Delivery survives what happens before and after. */
  lemma DeliversWiden(p: Program, a: State, s: State, t: State, b: State, i: Instr)
    requires InstrOk(p, i) && Keeps(a, s) && Delivers(p, s, t, i) && Keeps(t, b) && SlotsGrow(t.slots, b.slots)
    ensures Delivers(p, a, b, i)
  {
    if !i.kind.CallInst? {
      forall k, d | 0 <= k < |i.operands| && Carries(a, Val(i.operands[k]), d)
        ensures PassesOn(b, i, d)
      {
        assert Carries(s, Val(i.operands[k]), d) && PassesOn(t, i, d);
      }
    } else if p.values[i.self].callees.Some? {
      forall n, d | 0 <= n < |i.kind.args| && Carries(a, Val(i.kind.args[n]), d)
        ensures PassesArgument(p.values[i.self].callees.value, b, n, d)
      {
        assert Carries(s, Val(i.kind.args[n]), d) && PassesArgument(p.values[i.self].callees.value, t, n, d);
      }
    }
  }

  lemma InstructionKeeps(p: Program, s: State, i: Instr)
    requires InstrOk(p, i)
    ensures Keeps(s, AfterSource(p, s, i)) && Keeps(AfterSource(p, s, i), AfterInstruction(p, s, i))
    ensures Keeps(s, AfterInstruction(p, s, i))
  {
    var marked := AfterSource(p, s, i);
    SourceDelivers(p, s, i);
    if !i.kind.CallInst? {
      PropagateDelivers(p, marked, i, "");
    } else if p.values[i.self].callees.Some? {
      CalleesDeliver(p, marked, i, |p.values[i.self].callees.value|, "");
    }
  }

  lemma InstructionDelivers(p: Program, s: State, i: Instr)
    requires InstrOk(p, i)
    ensures Delivers(p, s, AfterInstruction(p, s, i), i)
  {
    var marked, t := AfterSource(p, s, i), AfterInstruction(p, s, i);
    SourceDelivers(p, s, i);
    InstructionKeeps(p, s, i);
    InstructionGrows(p, s, i);
    if !i.kind.CallInst? {
      forall k, d | 0 <= k < |i.operands| && Carries(s, Val(i.operands[k]), d)
        ensures PassesOn(t, i, d)
      {
        assert Gives(p, marked, i, k, d);
        PropagateDelivers(p, marked, i, d);
      }
    } else if p.values[i.self].callees.Some? {
      forall n, d | 0 <= n < |i.kind.args| && Carries(s, Val(i.kind.args[n]), d)
        ensures PassesArgument(p.values[i.self].callees.value, t, n, d)
      {
        CallDelivers(p, marked, i, n, d);
      }
    }
  }

  lemma CallDelivers(p: Program, s: State, i: Instr, n: nat, d: Desc)
    requires InstrOk(p, i) && i.kind.CallInst? && p.values[i.self].callees.Some?
    requires n < |i.kind.args| && Carries(s, Val(i.kind.args[n]), d)
    ensures var cs := p.values[i.self].callees.value; PassesArgument(cs, AfterCallees(p, s, i, |cs|), n, d)
  {
    var cs := p.values[i.self].callees.value;
    CalleesDeliver(p, s, i, |cs|, d);
    assert cs[..|cs|] == cs;
    assert Has(p, s.values, i.kind.args[n], d);
  }

  /** The first `k` instructions have delivered. */
  ghost predicate BodyDelivered(p: Program, s: State, t: State, body: Body, k: nat)
    requires k <= |body|
  {
    forall j | 0 <= j < k :: InstrOk(p, body[j]) && Delivers(p, s, t, body[j])
  }

  lemma {:induction false} BodyDelivers(p: Program, s: State, body: Body, k: nat)
    requires k <= |body| && forall j | 0 <= j < |body| :: InstrOk(p, body[j])
    ensures Keeps(s, AfterBody(p, s, body, k)) && BodyDelivered(p, s, AfterBody(p, s, body, k), body, k)
  {
    if k != 0 {
      var n := k - 1;
      BodyDelivers(p, s, body, n);
      var before, t := AfterBody(p, s, body, n), AfterBody(p, s, body, k);
      InstructionKeeps(p, before, body[n]);
      InstructionGrows(p, before, body[n]);
      InstructionDelivers(p, before, body[n]);
      KeepsTransitive(s, before, t);
      OneMoreDelivered(p, s, before, t, body, n, k);
    }
  }

  lemma OneMoreDelivered(p: Program, s: State, before: State, t: State, body: Body, n: nat, k: nat)
    requires k == n + 1 && k <= |body| && Keeps(s, before) && Keeps(before, t) && SlotsGrow(before.slots, t.slots)
    requires BodyDelivered(p, s, before, body, n) && InstrOk(p, body[n]) && Delivers(p, before, t, body[n])
    ensures BodyDelivered(p, s, t, body, k)
  {
    forall j | 0 <= j < k
      ensures InstrOk(p, body[j]) && Delivers(p, s, t, body[j])
    {
      if j < n { DeliversWiden(p, s, s, before, t, body[j]); } else { DeliversWiden(p, s, before, t, t, body[n]); }
    }
  }

  ghost predicate ModuleDelivered(p: Program, s: State, t: State, m: nat, k: nat)
    requires m < |p.modules| && k <= |p.modules[m]|
  {
    forall j | 0 <= j < k :: BodyDelivered(p, s, t, p.modules[m][j], |p.modules[m][j]|)
  }

  /** One round over a module passes on, at every instruction, what was attached when it began. */
  lemma {:induction false} ModuleDelivers(p: Program, s: State, m: nat, k: nat)
    requires ProgramOk(p) && m < |p.modules| && k <= |p.modules[m]|
    ensures Keeps(s, AfterModule(p, s, m, k)) && ModuleDelivered(p, s, AfterModule(p, s, m, k), m, k)
  {
    if k != 0 {
      var n := k - 1;
      ModuleDelivers(p, s, m, n);
      BodiesAreTyped(p, m, n);
      var before, t, body := AfterModule(p, s, m, n), AfterModule(p, s, m, k), p.modules[m][n];
      BodyDelivers(p, before, body, |body|);
      BodyGrows(p, before, body, |body|);
      KeepsTransitive(s, before, t);
      forall j | 0 <= j < k
        ensures BodyDelivered(p, s, t, p.modules[m][j], |p.modules[m][j]|)
      {
        BodyWiden(p, s, if j < n then s else before, if j < n then before else t, t, p.modules[m][j]);
      }
    }
  }

  lemma BodyWiden(p: Program, a: State, s: State, t: State, b: State, body: Body)
    requires Keeps(a, s) && BodyDelivered(p, s, t, body, |body|) && Keeps(t, b) && SlotsGrow(t.slots, b.slots)
    ensures BodyDelivered(p, a, b, body, |body|)
  {
    forall j | 0 <= j < |body|
      ensures InstrOk(p, body[j]) && Delivers(p, a, b, body[j])
    {
      DeliversWiden(p, a, s, t, b, body[j]);
    }
  }
}
