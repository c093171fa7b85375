/** Which values and memory slots may be derived from untrusted input, over a whole program. */
module Taint {
  import opened Sets
  import opened TaintDelivery
  import opened TaintFlow
  import opened Wrappers

  /** The one map of the pass: slots by name, and values. */
  class TaintPass {
    const p: Program
    var slots: SlotMap
    var values: ValueMap

    constructor (p: Program)
      requires ProgramOk(p)
      ensures this.p == p && slots == map[] && values == map[]
    {
      this.p, slots, values := p, map[], map[];
    }

    /** No entry is empty, so a slot without taint is a slot without an entry. */
    ghost predicate Filled()
      reads this
    {
      ProgramOk(p) && NoneEmpty(Now())
    }

    ghost function Now(): State
      reads this
    {
      State(slots, values)
    }

    method AddValue(v: Value, ds: set<Desc>)
      requires Filled() && ds != {}
      modifies this`values
      ensures Filled() && values == WithValue(old(values), v, ds)
    {
      values := values[v := ds + if v in values then values[v] else {}];
    }

    /** Attach descriptions to a slot; reports whether the slot had none. */
    method AddSlot(id: Id, ds: set<Desc>, isSource: bool) returns (isNew: bool)
      requires Filled() && ds != {}
      modifies this`slots
      ensures Filled() && slots == WithSlot(old(slots), id, ds, isSource)
      ensures Grew(old(slots), slots, isNew)
    {
      if id == Nameless {
        return false;
      }
      var entry := if id in slots then slots[id] else Entry({}, false);
      isNew := entry.descs == {};
      SlotGrows(slots, id, ds, isSource);
      entry := Entry(entry.descs + ds, entry.source || isSource);
      slots := slots[id := entry];
    }

    predicate IsTaintSource(id: Id)
      reads this
    {
      id != Nameless && Marked(slots, id)
    }

    /** A value takes over the taint of a slot, if there is any. */
    method Load(v: Value, id: Id)
      requires Filled()
      modifies this`values
      ensures Filled() && values == WithLoad(old(Now()), old(values), v, id)
    {
      if id != Nameless && id in slots {
        AddValue(v, slots[id].descs);
      }
    }

    /** A call takes over the taint that its possible callees may return. */
    method TakeResults(v: Value)
      requires Filled() && v < |p.values| && p.values[v].callees.Some?
      modifies this`values
      ensures Filled() && values == AfterResults(p, old(Now()), v, |p.values[v].callees.value|)
    {
      ghost var first := Now();
      var cs := p.values[v].callees.value;
      var c := 0;
      while c < |cs|
        invariant c <= |cs| && Filled() && values == AfterResults(p, first, v, c)
      {
        Load(v, cs[c].retId);
        c := c + 1;
      }
    }

    /** The taint of an operand; loads and calls take over the taint of their slots. */
    method GetTaint(v: Value) returns (ds: Option<set<Desc>>)
      requires Filled() && v < |p.values|
      modifies this`values
      ensures Filled() && values == AfterLookup(p, old(Now()), v) && ds == Found(p, values, v)
      ensures forall d :: ds.Some? && d in ds.value <==> Offers(p, old(Now()), v, d)
    {
      forall d { LookupMeaning(p, Now(), v, d); }
      if v in values {
        return Some(values[v]);
      }
      if p.values[v].stripped in values {
        return Some(values[p.values[v].stripped]);
      }
      if p.values[v].callees.Some? {
        ResultsFrame(p, Now(), v, |p.values[v].callees.value|);
        TakeResults(v);
      }
      Load(v, p.values[v].id);
      ds := if v in values then Some(values[v]) else None;
    }

    /** Mark a taint source, its slot, and the members of the struct it points to. */
    method CheckTaintSource(i: Instr) returns (changed: bool)
      requires Filled() && InstrOk(p, i)
      modifies this
      ensures Filled() && Now() == AfterSource(p, old(Now()), i) && DeliversSource(p, Now(), i)
      ensures Grew(old(slots), slots, changed)
    {
      changed := false;
      SourceDelivers(p, Now(), i);
      if i.source.None? {
        return;
      }
      AddValue(i.self, {i.source.value});
      var ds := values[i.self];
      changed := AddSlot(p.values[i.self].id, ds, true);
      var more := MarkMembers(i, ds);
      changed := changed || more;
    }

    method MarkMembers(i: Instr, ds: set<Desc>) returns (changed: bool)
      requires Filled() && ds != {}
      modifies this`slots
      ensures Filled() && slots == AfterMembers(i, old(slots), ds, |i.members|)
      ensures Grew(old(slots), slots, changed)
    {
      changed := false;
      ghost var start := slots;
      var k := 0;
      while k < |i.members|
        invariant k <= |i.members| && Filled() && slots == AfterMembers(i, start, ds, k)
        invariant Grew(start, slots, changed)
      {
        var isNew := AddSlot(i.members[k], ds, true);
        changed := changed || isNew;
        k := k + 1;
      }
    }

    /** The taint of the operands together. */
    method OperandTaint(i: Instr) returns (ds: set<Desc>)
      requires Filled() && InstrOk(p, i)
      modifies this`values
      ensures Filled() && (values, ds) == AfterOperands(p, old(Now()), i, |i.operands|)
    {
      ghost var first := Now();
      ds := {};
      var k := 0;
      while k < |i.operands|
        invariant k <= |i.operands| && Filled() && (values, ds) == AfterOperands(p, first, i, k)
      {
        var more := GetTaint(i.operands[k]);
        if more.Some? {
          ds := ds + more.value;
        }
        k := k + 1;
      }
    }

    /** Propagate taint through any instruction but a call. */
    method Propagate(i: Instr) returns (changed: bool)
      requires Filled() && InstrOk(p, i) && !i.kind.CallInst?
      modifies this
      ensures Filled() && Now() == AfterPropagate(p, old(Now()), i)
      ensures forall d :: DeliversOperands(p, old(Now()), Now(), i, d)
      ensures Grew(old(slots), slots, changed)
    {
      changed := false;
      forall d { PropagateDelivers(p, Now(), i, d); }
      var ds := OperandTaint(i);
      if ds == {} {
        return;
      }
      AddValue(i.self, ds);
      if i.kind.Store? || i.kind.Return? {
        changed := AddSlot(i.kind.id, ds, false);
      }
    }

    /** Propagate taint from the arguments of a call to the parameters of its callees. */
    method PropagateCall(i: Instr) returns (changed: bool)
      requires Filled() && InstrOk(p, i) && i.kind.CallInst? && p.values[i.self].callees.Some?
      modifies this
      ensures Filled() && Now() == AfterCallees(p, old(Now()), i, |p.values[i.self].callees.value|)
      ensures forall d :: DeliversArguments(p, old(values), Now(), p.values[i.self].callees.value, i.kind.args, d)
      ensures Grew(old(slots), slots, changed)
    {
      changed := false;
      ghost var first := Now();
      var cs := p.values[i.self].callees.value;
      var c := 0;
      while c < |cs|
        invariant c <= |cs| && Filled() && Now() == AfterCallees(p, first, i, c)
        invariant Grew(first.slots, slots, changed)
      {
        assert cs[c] in cs;
        if !cs[c].skipped {
          var more := PassArguments(cs[c], i.kind.args);
          changed := changed || more;
        }
        c := c + 1;
      }
      forall d
        ensures DeliversArguments(p, first.values, Now(), cs, i.kind.args, d)
      {
        CalleesDeliver(p, first, i, |cs|, d);
        assert cs[..|cs|] == cs;
      }
    }

    /** All arguments of a call, to one of its possible callees. */
    method PassArguments(callee: Callee, args: seq<Value>) returns (changed: bool)
      requires Filled() && |args| <= |callee.argIds| && forall a | 0 <= a < |args| :: args[a] < |p.values|
      modifies this
      ensures Filled() && Now() == AfterArguments(p, old(Now()), callee, args, |args|)
      ensures Grew(old(slots), slots, changed)
    {
      changed := false;
      ghost var first := Now();
      var n := 0;
      while n < |args|
        invariant n <= |args| && Filled() && Now() == AfterArguments(p, first, callee, args, n)
        invariant Grew(first.slots, slots, changed)
      {
        var isNew := PassArgument(callee, args, n);
        changed := changed || isNew;
        n := n + 1;
      }
    }

    method PassArgument(callee: Callee, args: seq<Value>, n: nat) returns (isNew: bool)
      requires Filled() && n < |args| && n < |callee.argIds| && args[n] < |p.values|
      modifies this
      ensures Filled() && Now() == AfterArgument(p, old(Now()), callee, args, n)
      ensures Grew(old(slots), slots, isNew)
    {
      isNew := false;
      var ds := GetTaint(args[n]);
      if ds.Some? {
        isNew := AddSlot(callee.argIds[n], ds.value, false);
      }
    }

    method RunOnInstruction(i: Instr) returns (changed: bool)
      requires Filled() && InstrOk(p, i)
      modifies this
      ensures Filled() && Now() == AfterInstruction(p, old(Now()), i)
      ensures Keeps(old(Now()), Now()) && Delivers(p, old(Now()), Now(), i)
      ensures Grew(old(slots), slots, changed)
    {
      InstructionKeeps(p, Now(), i);
      InstructionDelivers(p, Now(), i);
      changed := CheckTaintSource(i);
      var more := false;
      if !i.kind.CallInst? {
        more := Propagate(i);
      } else if p.values[i.self].callees.Some? {
        more := PropagateCall(i);
      }
      changed := changed || more;
    }

    /** Propagate taint within a function. */
    method RunOnFunction(body: Body) returns (changed: bool)
      requires Filled() && forall j | 0 <= j < |body| :: InstrOk(p, body[j])
      modifies this
      ensures Filled() && Now() == AfterBody(p, old(Now()), body, |body|)
      ensures Grew(old(slots), slots, changed)
    {
      changed := false;
      ghost var first := Now();
      var j := 0;
      while j < |body|
        invariant j <= |body| && Filled() && Now() == AfterBody(p, first, body, j)
        invariant Grew(first.slots, slots, changed)
      {
        var more := RunOnInstruction(body[j]);
        changed := changed || more;
        j := j + 1;
      }
    }

    /** One round over the functions of a module. */
    method RunOnModule(m: nat) returns (changed: bool)
      requires Filled() && m < |p.modules|
      modifies this
      ensures Filled() && Now() == AfterModule(p, old(Now()), m, |p.modules[m]|)
      ensures Keeps(old(Now()), Now()) && ModuleDelivered(p, old(Now()), Now(), m, |p.modules[m]|)
      ensures Grew(old(slots), slots, changed)
    {
      changed := false;
      ghost var first := Now();
      ModuleDelivers(p, first, m, |p.modules[m]|);
      var k := 0;
      while k < |p.modules[m]|
        invariant k <= |p.modules[m]| && Filled() && Now() == AfterModule(p, first, m, k)
        invariant Grew(first.slots, slots, changed)
      {
        BodiesAreTyped(p, m, k);
        var more := RunOnFunction(p.modules[m][k]);
        changed := changed || more;
        k := k + 1;
      }
    }

    /** What holds of the maps between two rounds. */
    ghost predicate Valid()
      reads this
    {
      Filled() && Sound(p, Exact(p), Now())
    }

    /** Iterate over one module; every round but the last finds a slot that had no taint, and the
        last one finds none. */
    method DoModulePass(m: nat) returns (ret: bool, ghost changedRounds: nat)
      requires Valid() && m < |p.modules|
      modifies this
      ensures Valid() && SlotsGrow(old(slots), slots) && ModuleMarked(p, m, slots)
      ensures ret <==> changedRounds > 0
      ensures |old(slots)| + changedRounds <= |slots| <= |p.ids|
      ensures ret <==> slots.Keys != old(slots.Keys)
      ensures Now() == AfterModuleRounds(p, old(Now()), m, changedRounds + 1)
    {
      var changed := true;
      ret, changedRounds := false, 0;
      ghost var first, rounds := Now(), 0;
      SlotCount(p, Exact(p), first);
      while changed
        invariant Valid() && ret == (changedRounds > 0)
        invariant Running(p, first, m, Now(), changedRounds, changed)
        invariant rounds == changedRounds + if changed then 0 else 1
        invariant Now() == AfterModuleRounds(p, first, m, rounds)
        decreases |p.ids| - |slots|, changed
      {
        ghost var before := Now();
        changed := RunOnModule(m);
        RunningStep(p, first, m, before, changedRounds, changed);
        rounds := rounds + 1;
        if changed {
          ret, changedRounds := true, changedRounds + 1;
        }
      }
    }

    /** The whole pass: the rounds that change something are at most as many as the slots, whatever
        is attached in the end has a derivation, and exactly the source slots are marked. */
    method Run() returns (ghost changedRounds: nat)
      requires ProgramOk(p) && slots == map[] && values == map[]
      modifies this
      ensures changedRounds <= |slots| <= |p.ids|
      ensures forall v, d | v in values && d in values[v] :: Derivable(p, Val(v), d)
      ensures forall id, d | id in slots && d in slots[id].descs :: Derivable(p, Slot(id), d)
      ensures forall id :: IsTaintSource(id) <==> SourceSlot(p, id)
    {
      changedRounds := Iterate();
      Conclusions(p, values, slots);
    }

    method Iterate() returns (ghost changedRounds: nat)
      requires Valid()
      modifies this
      ensures Valid() && MarkedUpTo(p, |p.modules|, slots)
      ensures changedRounds <= |slots| <= |p.ids|
    {
      changedRounds := 0;
      SlotCount(p, Exact(p), Now());
      var changed := true;
      while changed
        invariant Valid() && changedRounds <= |slots| <= |p.ids|
        invariant !changed ==> MarkedUpTo(p, |p.modules|, slots)
        decreases |p.ids| - |slots|, changed
      {
        ghost var more: nat;
        changed, more := Sweep();
        changedRounds := changedRounds + more;
      }
    }

    /** One sweep over all modules. */
    method Sweep() returns (changed: bool, ghost changedRounds: nat)
      requires Valid()
      modifies this
      ensures Valid() && MarkedUpTo(p, |p.modules|, slots)
      ensures changed <==> changedRounds > 0
      ensures |old(slots)| + changedRounds <= |slots| <= |p.ids|
    {
      changed, changedRounds := false, 0;
      ghost var first := Now();
      SlotCount(p, Exact(p), first);
      var m := 0;
      while m < |p.modules|
        invariant m <= |p.modules| && Valid() && MarkedUpTo(p, m, slots)
        invariant changed <==> changedRounds > 0
        invariant |first.slots| + changedRounds <= |slots| <= |p.ids|
      {
        ghost var more: nat;
        ghost var before := slots;
        var ret: bool;
        ret, more := DoModulePass(m);
        MarkedStep(p, m, before, slots);
        changed, changedRounds := changed || ret, changedRounds + more;
        m := m + 1;
      }
    }
  }

  predicate NoneEmpty(s: State) {
    (forall v | v in s.values :: s.values[v] != {}) && (forall id | id in s.slots :: s.slots[id].descs != {})
  }

  /** Slots have only been added, and `changed` says whether any was. */
  predicate Grew(before: SlotMap, after: SlotMap, changed: bool) {
    before.Keys <= after.Keys && (changed <==> before.Keys != after.Keys)
  }

  lemma GrewCount(before: SlotMap, after: SlotMap, changed: bool)
    requires Grew(before, after, changed)
    ensures |before| <= |after| && (changed ==> |before| < |after|)
  {
    SubsetSize(before.Keys, after.Keys);
    assert |before| == |before.Keys| && |after| == |after.Keys|;
  }

  lemma SlotCount(p: Program, l: Limits, s: State)
    requires SlotsOk(p, l, s.slots)
    ensures |s.slots| <= |p.ids|
  {
    forall id | id in s.slots.Keys
      ensures id in p.ids
    {
      assert SlotOk(p, l, id, s.slots[id]);
    }
    SubsetSize(s.slots.Keys, p.ids);
    assert |s.slots| == |s.slots.Keys|;
  }

  ghost function AfterModuleRounds(p: Program, s: State, m: nat, n: nat): State
    requires ProgramOk(p) && m < |p.modules|
  {
    if n == 0 then s else AfterModule(p, AfterModuleRounds(p, s, m, n - 1), m, |p.modules[m]|)
  }

  /** What holds between the rounds of a module pass that started from `first`: all rounds but
      perhaps the last have added a slot. */
  ghost predicate Running(p: Program, first: State, m: nat, now: State, changedRounds: nat, changed: bool)
    requires ProgramOk(p) && m < |p.modules|
  {
    && SlotsGrow(first.slots, now.slots) && (changedRounds > 0 <==> now.slots.Keys != first.slots.Keys)
    && |first.slots| + changedRounds <= |now.slots| <= |p.ids|
    && (!changed ==> ModuleMarked(p, m, now.slots))
  }

  lemma RunningStep(p: Program, first: State, m: nat, before: State, changedRounds: nat, changed: bool)
    requires ProgramOk(p) && m < |p.modules| && Sound(p, Exact(p), before)
    requires Running(p, first, m, before, changedRounds, true)
    requires Grew(before.slots, AfterModule(p, before, m, |p.modules[m]|).slots, changed)
    ensures var now := AfterModule(p, before, m, |p.modules[m]|);
      Sound(p, Exact(p), now) && |before.slots| <= |now.slots| && (changed ==> |before.slots| < |now.slots|)
      && Running(p, first, m, now, if changed then changedRounds + 1 else changedRounds, changed)
  {
    var now := AfterModule(p, before, m, |p.modules[m]|);
    ModuleRoundFacts(p, before, m);
    SlotCount(p, Exact(p), now);
    GrewCount(before.slots, now.slots, changed);
    CountStep(first.slots, before.slots, now.slots, changedRounds, changed);
  }

  lemma CountStep(first: SlotMap, before: SlotMap, now: SlotMap, n: nat, changed: bool)
    requires SlotsGrow(first, before) && SlotsGrow(before, now) && Grew(before, now, changed)
    requires n > 0 <==> before.Keys != first.Keys
    ensures SlotsGrow(first, now) && (n > 0 || changed <==> now.Keys != first.Keys)
  {
    assert first.Keys <= before.Keys;
  }

  /** One round keeps the maps sound, loses nothing, and marks every source of the module. */
  lemma ModuleRoundFacts(p: Program, s: State, m: nat)
    requires ProgramOk(p) && m < |p.modules| && Sound(p, Exact(p), s)
    ensures var t := AfterModule(p, s, m, |p.modules[m]|);
      Sound(p, Exact(p), t) && SlotsGrow(s.slots, t.slots) && ModuleMarked(p, m, t.slots)
  {
    ExactIsClosed(p);
    ModuleSound(p, Exact(p), s, m, |p.modules[m]|);
    ModuleGrows(p, s, m, |p.modules[m]|);
    ModuleMarks(p, s, m, |p.modules[m]|);
  }
}
