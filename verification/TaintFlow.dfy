/** Where untrusted input may flow, and what each step of the taint pass does. */
module TaintFlow {
  import opened Wrappers

  /** A slot name; the code uses the empty string for what has none. */
  datatype Id = Nameless | Name(name: string)

  type Desc = string
  type Value = nat

  /** A possible callee: the slot of its result and the slots of its parameters.  Variadic and
      built-in functions are skipped. */
  datatype Callee = Callee(retId: Id, argIds: seq<Id>, skipped: bool)

  /** `callees` is `None` for what is not a call with known callees; `id` is the value's own slot. */
  datatype ValueInfo = ValueInfo(id: Id, stripped: Value, callees: Option<seq<Callee>>)

  datatype Kind =
    | CallInst(args: seq<Value>)
    | Store(id: Id)
    | Return(id: Id)
    | Plain

  /** `source` is the annotation of a taint source, `members` the slots of the struct it points to. */
  datatype Instr =
    Instr(self: Value, operands: seq<Value>, source: Option<Desc>, members: seq<Id>, kind: Kind)

  type Body = seq<Instr>
  type Module = seq<Body>

  datatype Program = Program(modules: seq<Module>, values: seq<ValueInfo>, ids: set<Id>)

  predicate CalleesOk(p: Program, cs: seq<Callee>) {
    forall c | c in cs :: c.retId in p.ids && forall a | 0 <= a < |c.argIds| :: c.argIds[a] in p.ids
  }

  predicate InstrOk(p: Program, i: Instr) {
    && i.self < |p.values|
    && (forall k | 0 <= k < |i.operands| :: i.operands[k] < |p.values|)
    && (forall k | 0 <= k < |i.members| :: i.members[k] in p.ids)
    && match i.kind
       case CallInst(args) =>
         && (forall a | 0 <= a < |args| :: args[a] < |p.values|)
         && (p.values[i.self].callees.Some? ==>
               forall c | c in p.values[i.self].callees.value && !c.skipped :: |args| <= |c.argIds|)
       case Store(id) => id in p.ids
       case Return(id) => id in p.ids
       case Plain => true
  }

  ghost predicate ProgramOk(p: Program) {
    && (forall v: Value | v < |p.values| ::
          && p.values[v].id in p.ids && p.values[v].stripped < |p.values|
          && (p.values[v].callees.Some? ==> CalleesOk(p, p.values[v].callees.value)))
    && forall i | Occurs(p, i) :: InstrOk(p, i)
  }

  ghost predicate Occurs(p: Program, i: Instr) {
    exists m, k, j :: 0 <= m < |p.modules| && 0 <= k < |p.modules[m]| && 0 <= j < |p.modules[m][k]|
                      && p.modules[m][k][j] == i
  }

  // ------------------------------------------------------------------ where taint may flow

  datatype Node = Val(v: Value) | Slot(id: Id)

  /** `u` is read as itself or, failing that, as the pointer it casts. */
  predicate ReadAs(p: Program, u: Value, x: Value)
    requires u < |p.values|
  {
    x == u || x == p.values[u].stripped
  }

  /** One flow step from a slot into the value that reads it. */
  predicate Loads(p: Program, a: Node, b: Node) {
    a.Slot? && b.Val? && b.v < |p.values| && a.id != Nameless &&
    (a.id == p.values[b.v].id ||
     (p.values[b.v].callees.Some? &&
      exists k :: 0 <= k < |p.values[b.v].callees.value| && p.values[b.v].callees.value[k].retId == a.id))
  }

  /** A source instruction taints its own slot and the members of the struct it points to. */
  predicate MovesSource(p: Program, i: Instr, v: Value, b: Node)
    requires InstrOk(p, i)
  {
    i.source.Some? && v == i.self && b.Slot? && (b.id == p.values[i.self].id || b.id in i.members)
  }

  /** A call taints the parameters of its possible callees. */
  predicate MovesArgument(p: Program, i: Instr, v: Value, b: Node)
    requires InstrOk(p, i)
  {
    i.kind.CallInst? && p.values[i.self].callees.Some? && b.Slot? &&
    exists c, n | 0 <= c < |p.values[i.self].callees.value| && 0 <= n < |i.kind.args| ::
      PassesTo(p, p.values[i.self].callees.value[c], i.kind.args, n, v, b.id)
  }

  predicate PassesTo(p: Program, callee: Callee, args: seq<Value>, n: nat, v: Value, id: Id)
    requires n < |args| && args[n] < |p.values|
  {
    !callee.skipped && n < |callee.argIds| && id == callee.argIds[n] && ReadAs(p, args[n], v)
  }

  /** Any other instruction taints its result, and what it stores or returns. */
  predicate MovesOperand(p: Program, i: Instr, v: Value, b: Node)
    requires InstrOk(p, i)
  {
    && !i.kind.CallInst?
    && (b == Val(i.self) || (i.kind.Store? && b == Slot(i.kind.id)) || (i.kind.Return? && b == Slot(i.kind.id)))
    && exists k | 0 <= k < |i.operands| :: ReadAs(p, i.operands[k], v)
  }

  /** One flow step made by an instruction. */
  predicate Moves(p: Program, i: Instr, a: Node, b: Node)
    requires InstrOk(p, i)
  {
    a.Val? && (MovesSource(p, i, a.v, b) || MovesArgument(p, i, a.v, b) || MovesOperand(p, i, a.v, b))
  }

  ghost predicate Flows(p: Program, a: Node, b: Node)
    requires ProgramOk(p)
  {
    Loads(p, a, b) || exists i :: Occurs(p, i) && Moves(p, i, a, b)
  }

  ghost predicate IsSource(p: Program, n: Node, d: Desc) {
    exists i :: Occurs(p, i) && i.source == Some(d) && n == Val(i.self)
  }

  /** A flow path from a source that carries `d`. */
  ghost predicate IsDerivation(p: Program, path: seq<Node>, n: Node, d: Desc)
    requires ProgramOk(p)
  {
    && |path| > 0 && IsSource(p, path[0], d) && path[|path| - 1] == n
    && forall i | 0 <= i < |path| - 1 :: Flows(p, path[i], path[i + 1])
  }

  ghost predicate Derivable(p: Program, n: Node, d: Desc)
    requires ProgramOk(p)
  {
    exists path :: IsDerivation(p, path, n, d)
  }

  lemma FlowDerivable(p: Program, a: Node, b: Node, d: Desc)
    requires ProgramOk(p) && Derivable(p, a, d) && Flows(p, a, b)
    ensures Derivable(p, b, d)
  {
    var path :| IsDerivation(p, path, a, d);
    assert IsDerivation(p, path + [b], b, d);
  }

  /** What the pass may conclude at most: which descriptions reach which node, and which slots
      are sources. */
  datatype Limits = Limits(reach: iset<(Node, Desc)>, marks: iset<Id>)

  ghost predicate Closed(p: Program, l: Limits)
    requires ProgramOk(p)
  {
    && (forall n, d | IsSource(p, n, d) :: (n, d) in l.reach)
    && (forall a, b, d | (a, d) in l.reach && Flows(p, a, b) :: (b, d) in l.reach)
    && (forall id | SourceSlot(p, id) :: id in l.marks)
  }

  /** The derivable facts, and no more, are such limits. */
  ghost function Exact(p: Program): Limits
    requires ProgramOk(p)
  {
    Limits(iset n, d | Derivable(p, n, d) :: (n, d), iset id | SourceSlot(p, id))
  }

  lemma ExactIsClosed(p: Program)
    requires ProgramOk(p)
    ensures Closed(p, Exact(p))
  {
    forall n, d | IsSource(p, n, d)
      ensures Derivable(p, n, d)
    {
      assert IsDerivation(p, [n], n, d);
    }
    forall a, b, d | Derivable(p, a, d) && Flows(p, a, b)
      ensures Derivable(p, b, d)
    {
      FlowDerivable(p, a, b, d);
    }
  }

  predicate Within(l: Limits, n: Node, ds: set<Desc>) {
    forall d | d in ds :: (n, d) in l.reach
  }

  lemma FlowWithin(p: Program, l: Limits, a: Node, b: Node, ds: set<Desc>)
    requires ProgramOk(p) && Closed(p, l) && Within(l, a, ds) && Flows(p, a, b)
    ensures Within(l, b, ds)
  {
  }

  lemma SourceFlows(p: Program, l: Limits, i: Instr, id: Id, ds: set<Desc>)
    requires ProgramOk(p) && Closed(p, l) && Occurs(p, i) && InstrOk(p, i) && i.source.Some?
    requires id == p.values[i.self].id || id in i.members
    requires Within(l, Val(i.self), ds)
    ensures id in p.ids && Within(l, Slot(id), ds) && (id != Nameless ==> id in l.marks)
  {
    assert id != Nameless ==> MarksSource(p, i, id) && SourceSlot(p, id);
    assert Moves(p, i, Val(i.self), Slot(id));
    FlowWithin(p, l, Val(i.self), Slot(id), ds);
    if id in i.members {
      var k :| 0 <= k < |i.members| && i.members[k] == id;
    }
  }

  lemma OperandFlows(p: Program, l: Limits, i: Instr, k: nat, ds: set<Desc>)
    requires ProgramOk(p) && Closed(p, l) && Occurs(p, i) && InstrOk(p, i) && !i.kind.CallInst? && k < |i.operands|
    requires exists x :: ReadAs(p, i.operands[k], x) && Within(l, Val(x), ds)
    ensures Within(l, Val(i.self), ds)
    ensures i.kind.Store? || i.kind.Return? ==> Within(l, Slot(i.kind.id), ds)
  {
    var x :| ReadAs(p, i.operands[k], x) && Within(l, Val(x), ds);
    assert Moves(p, i, Val(x), Val(i.self));
    FlowWithin(p, l, Val(x), Val(i.self), ds);
    if i.kind.Store? || i.kind.Return? {
      assert Moves(p, i, Val(x), Slot(i.kind.id));
      FlowWithin(p, l, Val(x), Slot(i.kind.id), ds);
    }
  }

  lemma ArgumentFlows(p: Program, l: Limits, i: Instr, c: nat, n: nat, ds: set<Desc>)
    requires ProgramOk(p) && Closed(p, l) && Occurs(p, i) && InstrOk(p, i)
    requires i.kind.CallInst? && p.values[i.self].callees.Some?
    requires c < |p.values[i.self].callees.value| && n < |i.kind.args|
    requires !p.values[i.self].callees.value[c].skipped && n < |p.values[i.self].callees.value[c].argIds|
    requires exists x :: ReadAs(p, i.kind.args[n], x) && Within(l, Val(x), ds)
    ensures var id := p.values[i.self].callees.value[c].argIds[n];
            id in p.ids && Within(l, Slot(id), ds)
  {
    var x :| ReadAs(p, i.kind.args[n], x) && Within(l, Val(x), ds);
    var callee := p.values[i.self].callees.value[c];
    assert CalleesOk(p, p.values[i.self].callees.value) && callee in p.values[i.self].callees.value;
    assert PassesTo(p, callee, i.kind.args, n, x, callee.argIds[n]);
    assert Moves(p, i, Val(x), Slot(callee.argIds[n]));
    FlowWithin(p, l, Val(x), Slot(callee.argIds[n]), ds);
  }

  /** A value that reads a slot may take over its taint. */
  lemma LoadFlows(p: Program, l: Limits, id: Id, v: Value, ds: set<Desc>)
    requires ProgramOk(p) && Closed(p, l) && Loads(p, Slot(id), Val(v)) && Within(l, Slot(id), ds)
    ensures Within(l, Val(v), ds)
  {
    FlowWithin(p, l, Slot(id), Val(v), ds);
  }

  /** The slots that a source instruction marks. */
  ghost predicate MarksSource(p: Program, i: Instr, id: Id)
    requires InstrOk(p, i)
  {
    i.source.Some? && id != Nameless && (id == p.values[i.self].id || id in i.members)
  }

  /** Some instruction of the program marks the slot as a source. */
  ghost predicate SourceSlot(p: Program, id: Id)
    requires ProgramOk(p)
  {
    exists i :: Occurs(p, i) && MarksSource(p, i, id)
  }

  /** The descriptions attached to a slot, and whether it is itself a source. */
  datatype Entry = Entry(descs: set<Desc>, source: bool)

  predicate SlotOk(p: Program, l: Limits, id: Id, entry: Entry) {
    && id != Nameless && id in p.ids && entry.descs != {} && Within(l, Slot(id), entry.descs)
    && (entry.source ==> id in l.marks)
  }

  lemma MergedSlotOk(p: Program, l: Limits, id: Id, entry: Entry, ds: set<Desc>, isSource: bool)
    requires id != Nameless && id in p.ids && ds != {} && Within(l, Slot(id), ds)
    requires entry == Entry({}, false) || SlotOk(p, l, id, entry)
    requires isSource ==> id in l.marks
    ensures SlotOk(p, l, id, Entry(entry.descs + ds, entry.source || isSource))
  {
    assert entry.descs + ds >= ds;
  }

  // ------------------------------------------------------------------ the maps of the pass

  type SlotMap = map<Id, Entry>
  type ValueMap = map<Value, set<Desc>>

  /** No slot disappears or loses its source mark. */
  predicate SlotsGrow(a: SlotMap, b: SlotMap) {
    forall id | id in a :: id in b && (a[id].source ==> b[id].source)
  }

  predicate Marked(slots: SlotMap, id: Id) { id in slots && slots[id].source }

  predicate ValuesOk(l: Limits, values: ValueMap) {
    forall v | v in values :: values[v] != {} && Within(l, Val(v), values[v])
  }

  predicate SlotsOk(p: Program, l: Limits, slots: SlotMap) {
    forall id | id in slots :: SlotOk(p, l, id, slots[id])
  }

  function WithTaint(slots: SlotMap, id: Id, ds: set<Desc>, isSource: bool): Entry {
    var entry := if id in slots then slots[id] else Entry({}, false);
    Entry(entry.descs + ds, entry.source || isSource)
  }

  // ------------------------------------------------------------------ what each step does

  datatype State = State(slots: SlotMap, values: ValueMap)

  function WithValue(values: ValueMap, v: Value, ds: set<Desc>): ValueMap {
    values[v := ds + if v in values then values[v] else {}]
  }

  function WithSlot(slots: SlotMap, id: Id, ds: set<Desc>, isSource: bool): SlotMap {
    if id == Nameless then slots else slots[id := WithTaint(slots, id, ds, isSource)]
  }

  /** Take over the taint of a slot, if it has any. */
  function WithLoad(s: State, values: ValueMap, v: Value, id: Id): ValueMap {
    if id != Nameless && id in s.slots then WithValue(values, v, s.slots[id].descs) else values
  }

  /** The first `k` possible callees of a call return their taint. */
  function AfterResults(p: Program, s: State, v: Value, k: nat): ValueMap
    requires v < |p.values| && p.values[v].callees.Some? && k <= |p.values[v].callees.value|
  {
    if k == 0 then s.values
    else WithLoad(s, AfterResults(p, s, v, k - 1), v, p.values[v].callees.value[k - 1].retId)
  }

  lemma {:induction false} ResultsFrame(p: Program, s: State, v: Value, k: nat)
    requires v < |p.values| && p.values[v].callees.Some? && k <= |p.values[v].callees.value|
    ensures forall x | x != v :: x in AfterResults(p, s, v, k) <==> x in s.values
  {
    if k != 0 { ResultsFrame(p, s, v, k - 1); }
  }

  /** Looking up the taint of an operand may attach the taint of its slots to it. */
  function AfterLookup(p: Program, s: State, v: Value): ValueMap
    requires v < |p.values|
  {
    if v in s.values || p.values[v].stripped in s.values then s.values
    else
      var callees := p.values[v].callees;
      var values := if callees.Some? then AfterResults(p, s, v, |callees.value|) else s.values;
      WithLoad(s, values, v, p.values[v].id)
  }

  function Found(p: Program, values: ValueMap, v: Value): Option<set<Desc>>
    requires v < |p.values|
  {
    if v in values then Some(values[v])
    else if p.values[v].stripped in values then Some(values[p.values[v].stripped])
    else None
  }

  /** The first `k` members of the struct that a source points to are sources too. */
  function AfterMembers(i: Instr, slots: SlotMap, ds: set<Desc>, k: nat): SlotMap
    requires k <= |i.members|
  {
    if k == 0 then slots else WithSlot(AfterMembers(i, slots, ds, k - 1), i.members[k - 1], ds, true)
  }

  lemma {:induction false} MembersAreMarked(i: Instr, slots: SlotMap, ds: set<Desc>, k: nat)
    requires k <= |i.members|
    ensures forall j | 0 <= j < k && i.members[j] != Nameless :: Marked(AfterMembers(i, slots, ds, k), i.members[j])
  {
    if k != 0 { MembersAreMarked(i, slots, ds, k - 1); }
  }

  function AfterSource(p: Program, s: State, i: Instr): State
    requires InstrOk(p, i)
  {
    if i.source.None? then s
    else
      var values := WithValue(s.values, i.self, {i.source.value});
      var ds := values[i.self];
      State(AfterMembers(i, WithSlot(s.slots, p.values[i.self].id, ds, true), ds, |i.members|), values)
  }

  /** The values after looking up the first `k` operands, and the taint found on the way. */
  function AfterOperands(p: Program, s: State, i: Instr, k: nat): (ValueMap, set<Desc>)
    requires InstrOk(p, i) && k <= |i.operands|
  {
    if k == 0 then (s.values, {})
    else
      var (values, ds) := AfterOperands(p, s, i, k - 1);
      var after := AfterLookup(p, State(s.slots, values), i.operands[k - 1]);
      var more := Found(p, after, i.operands[k - 1]);
      (after, if more.Some? then ds + more.value else ds)
  }

  function AfterPropagate(p: Program, s: State, i: Instr): State
    requires InstrOk(p, i) && !i.kind.CallInst?
  {
    var (values, ds) := AfterOperands(p, s, i, |i.operands|);
    if ds == {} then State(s.slots, values)
    else
      State(if i.kind.Store? || i.kind.Return? then WithSlot(s.slots, i.kind.id, ds, false) else s.slots,
            WithValue(values, i.self, ds))
  }

  /** Argument `n` of a call taints parameter `n` of the callee. */
  function AfterArgument(p: Program, s: State, callee: Callee, args: seq<Value>, n: nat): State
    requires n < |args| && n < |callee.argIds| && args[n] < |p.values|
  {
    var values := AfterLookup(p, s, args[n]);
    var ds := Found(p, values, args[n]);
    State(if ds.Some? then WithSlot(s.slots, callee.argIds[n], ds.value, false) else s.slots, values)
  }

  function AfterArguments(p: Program, s: State, callee: Callee, args: seq<Value>, n: nat): State
    requires n <= |args| <= |callee.argIds| && forall a | 0 <= a < |args| :: args[a] < |p.values|
  {
    if n == 0 then s
    else AfterArgument(p, AfterArguments(p, s, callee, args, n - 1), callee, args, n - 1)
  }

  /** The first `c` possible callees of a call. */
  function AfterCallees(p: Program, s: State, i: Instr, c: nat): State
    requires InstrOk(p, i) && i.kind.CallInst? && p.values[i.self].callees.Some?
    requires c <= |p.values[i.self].callees.value|
  {
    if c == 0 then s
    else
      var before, callee := AfterCallees(p, s, i, c - 1), p.values[i.self].callees.value[c - 1];
      assert callee in p.values[i.self].callees.value;
      if callee.skipped then before else AfterArguments(p, before, callee, i.kind.args, |i.kind.args|)
  }

  function AfterInstruction(p: Program, s: State, i: Instr): State
    requires InstrOk(p, i)
  {
    var marked := AfterSource(p, s, i);
    if !i.kind.CallInst? then AfterPropagate(p, marked, i)
    else
      var callees := p.values[i.self].callees;
      if callees.Some? then AfterCallees(p, marked, i, |callees.value|) else marked
  }

  function AfterBody(p: Program, s: State, body: Body, k: nat): State
    requires k <= |body| && forall j | 0 <= j < |body| :: InstrOk(p, body[j])
  {
    if k == 0 then s else AfterInstruction(p, AfterBody(p, s, body, k - 1), body[k - 1])
  }

  /** The first `k` functions of a module. */
  ghost function AfterModule(p: Program, s: State, m: nat, k: nat): State
    requires ProgramOk(p) && m < |p.modules| && k <= |p.modules[m]|
  {
    if k == 0 then s
    else
      BodiesAreTyped(p, m, k - 1);
      AfterBody(p, AfterModule(p, s, m, k - 1), p.modules[m][k - 1], |p.modules[m][k - 1]|)
  }

  lemma BodiesAreTyped(p: Program, m: nat, k: nat)
    requires ProgramOk(p) && m < |p.modules| && k < |p.modules[m]|
    ensures forall j | 0 <= j < |p.modules[m][k]| :: Occurs(p, p.modules[m][k][j]) && InstrOk(p, p.modules[m][k][j])
  {
    forall j | 0 <= j < |p.modules[m][k]|
      ensures Occurs(p, p.modules[m][k][j])
    {
    }
  }

  // ------------------------------------------------------------------ slots only grow

  lemma SlotGrows(slots: SlotMap, id: Id, ds: set<Desc>, isSource: bool)
    ensures SlotsGrow(slots, WithSlot(slots, id, ds, isSource))
    ensures WithSlot(slots, id, ds, isSource).Keys == slots.Keys + if id == Nameless then {} else {id}
  {
  }

  lemma {:induction false} MembersGrow(i: Instr, slots: SlotMap, ds: set<Desc>, k: nat)
    requires k <= |i.members|
    ensures SlotsGrow(slots, AfterMembers(i, slots, ds, k))
  {
    if k != 0 {
      MembersGrow(i, slots, ds, k - 1);
      SlotGrows(AfterMembers(i, slots, ds, k - 1), i.members[k - 1], ds, true);
    }
  }

  lemma SourceGrows(p: Program, s: State, i: Instr)
    requires InstrOk(p, i)
    ensures SlotsGrow(s.slots, AfterSource(p, s, i).slots)
  {
    if i.source.Some? {
      var ds := WithValue(s.values, i.self, {i.source.value})[i.self];
      SlotGrows(s.slots, p.values[i.self].id, ds, true);
      MembersGrow(i, WithSlot(s.slots, p.values[i.self].id, ds, true), ds, |i.members|);
    }
  }

  lemma {:induction false} ArgumentsGrow(p: Program, s: State, callee: Callee, args: seq<Value>, n: nat)
    requires n <= |args| <= |callee.argIds| && forall a | 0 <= a < |args| :: args[a] < |p.values|
    ensures SlotsGrow(s.slots, AfterArguments(p, s, callee, args, n).slots)
  {
    if n != 0 {
      ArgumentsGrow(p, s, callee, args, n - 1);
    }
  }

  lemma {:induction false} CalleesGrow(p: Program, s: State, i: Instr, c: nat)
    requires InstrOk(p, i) && i.kind.CallInst? && p.values[i.self].callees.Some?
    requires c <= |p.values[i.self].callees.value|
    ensures SlotsGrow(s.slots, AfterCallees(p, s, i, c).slots)
  {
    if c != 0 {
      CalleesGrow(p, s, i, c - 1);
      var before, callee := AfterCallees(p, s, i, c - 1), p.values[i.self].callees.value[c - 1];
      assert callee in p.values[i.self].callees.value;
      if !callee.skipped {
        ArgumentsGrow(p, before, callee, i.kind.args, |i.kind.args|);
      }
    }
  }

  lemma InstructionGrows(p: Program, s: State, i: Instr)
    requires InstrOk(p, i)
    ensures SlotsGrow(s.slots, AfterInstruction(p, s, i).slots)
    ensures SlotsGrow(AfterSource(p, s, i).slots, AfterInstruction(p, s, i).slots)
  {
    SourceGrows(p, s, i);
    var marked := AfterSource(p, s, i);
    if i.kind.CallInst? && p.values[i.self].callees.Some? {
      CalleesGrow(p, marked, i, |p.values[i.self].callees.value|);
    }
  }

  lemma {:induction false} BodyGrows(p: Program, s: State, body: Body, k: nat)
    requires k <= |body| && forall j | 0 <= j < |body| :: InstrOk(p, body[j])
    ensures SlotsGrow(s.slots, AfterBody(p, s, body, k).slots)
  {
    if k != 0 {
      BodyGrows(p, s, body, k - 1);
      InstructionGrows(p, AfterBody(p, s, body, k - 1), body[k - 1]);
    }
  }

  lemma {:induction false} ModuleGrows(p: Program, s: State, m: nat, k: nat)
    requires ProgramOk(p) && m < |p.modules| && k <= |p.modules[m]|
    ensures SlotsGrow(s.slots, AfterModule(p, s, m, k).slots)
  {
    if k != 0 {
      ModuleGrows(p, s, m, k - 1);
      BodiesAreTyped(p, m, k - 1);
      BodyGrows(p, AfterModule(p, s, m, k - 1), p.modules[m][k - 1], |p.modules[m][k - 1]|);
    }
  }

  // ------------------------------------------------------------------ sources get marked

  /** Every slot that the instruction marks as a source is so marked. */
  ghost predicate SourcesMarked(p: Program, i: Instr, slots: SlotMap)
    requires InstrOk(p, i)
  {
    forall id | MarksSource(p, i, id) :: Marked(slots, id)
  }

  lemma SourcesStayMarked(p: Program, i: Instr, before: SlotMap, after: SlotMap)
    requires InstrOk(p, i) && SourcesMarked(p, i, before) && SlotsGrow(before, after)
    ensures SourcesMarked(p, i, after)
  {
  }

  lemma MembersMarked(p: Program, i: Instr, slots: SlotMap)
    requires InstrOk(p, i)
    requires p.values[i.self].id != Nameless ==> Marked(slots, p.values[i.self].id)
    requires forall j | 0 <= j < |i.members| && i.members[j] != Nameless :: Marked(slots, i.members[j])
    ensures SourcesMarked(p, i, slots)
  {
    forall id | MarksSource(p, i, id)
      ensures Marked(slots, id)
    {
      if id in i.members {
        var j :| 0 <= j < |i.members| && i.members[j] == id;
      }
    }
  }

  lemma SourceMarks(p: Program, s: State, i: Instr)
    requires InstrOk(p, i)
    ensures SourcesMarked(p, i, AfterSource(p, s, i).slots)
  {
    if i.source.Some? {
      var ds := WithValue(s.values, i.self, {i.source.value})[i.self];
      var id := p.values[i.self].id;
      var slots := WithSlot(s.slots, id, ds, true);
      MembersGrow(i, slots, ds, |i.members|);
      MembersAreMarked(i, slots, ds, |i.members|);
      assert id != Nameless ==> Marked(slots, id);
      MembersMarked(p, i, AfterMembers(i, slots, ds, |i.members|));
    }
  }

  lemma InstructionMarks(p: Program, s: State, i: Instr)
    requires InstrOk(p, i)
    ensures SourcesMarked(p, i, AfterInstruction(p, s, i).slots)
  {
    SourceMarks(p, s, i);
    InstructionGrows(p, s, i);
    SourcesStayMarked(p, i, AfterSource(p, s, i).slots, AfterInstruction(p, s, i).slots);
  }

  ghost predicate BodyMarked(p: Program, body: Body, n: nat, slots: SlotMap)
    requires n <= |body|
  {
    forall k | 0 <= k < n :: InstrOk(p, body[k]) && SourcesMarked(p, body[k], slots)
  }

  lemma BodyStaysMarked(p: Program, body: Body, n: nat, before: SlotMap, after: SlotMap)
    requires n <= |body| && BodyMarked(p, body, n, before) && SlotsGrow(before, after)
    ensures BodyMarked(p, body, n, after)
  {
    forall k | 0 <= k < n
      ensures SourcesMarked(p, body[k], after)
    {
      SourcesStayMarked(p, body[k], before, after);
    }
  }

  lemma BodyMarkedStep(p: Program, body: Body, n: nat, before: SlotMap, after: SlotMap)
    requires n < |body| && BodyMarked(p, body, n, before) && SlotsGrow(before, after)
    requires InstrOk(p, body[n]) && SourcesMarked(p, body[n], after)
    ensures BodyMarked(p, body, n + 1, after)
  {
    BodyStaysMarked(p, body, n, before, after);
  }

  /** Sources in the first `n` functions of a module are marked. */
  ghost predicate BodiesMarked(p: Program, m: nat, n: nat, slots: SlotMap)
    requires m < |p.modules| && n <= |p.modules[m]|
  {
    forall k | 0 <= k < n :: BodyMarked(p, p.modules[m][k], |p.modules[m][k]|, slots)
  }

  lemma BodiesMarkedStep(p: Program, m: nat, n: nat, before: SlotMap, after: SlotMap)
    requires m < |p.modules| && n < |p.modules[m]| && BodiesMarked(p, m, n, before) && SlotsGrow(before, after)
    requires BodyMarked(p, p.modules[m][n], |p.modules[m][n]|, after)
    ensures BodiesMarked(p, m, n + 1, after)
  {
    forall k | 0 <= k < n
      ensures BodyMarked(p, p.modules[m][k], |p.modules[m][k]|, after)
    {
      BodyStaysMarked(p, p.modules[m][k], |p.modules[m][k]|, before, after);
    }
  }

  lemma {:induction false} BodyMarks(p: Program, s: State, body: Body, k: nat)
    requires k <= |body| && forall j | 0 <= j < |body| :: InstrOk(p, body[j])
    ensures BodyMarked(p, body, k, AfterBody(p, s, body, k).slots)
  {
    if k != 0 {
      BodyMarks(p, s, body, k - 1);
      var before := AfterBody(p, s, body, k - 1);
      InstructionGrows(p, before, body[k - 1]);
      InstructionMarks(p, before, body[k - 1]);
      BodyMarkedStep(p, body, k - 1, before.slots, AfterBody(p, s, body, k).slots);
    }
  }

  lemma {:induction false} ModuleMarks(p: Program, s: State, m: nat, k: nat)
    requires ProgramOk(p) && m < |p.modules| && k <= |p.modules[m]|
    ensures BodiesMarked(p, m, k, AfterModule(p, s, m, k).slots)
  {
    if k != 0 {
      ModuleMarks(p, s, m, k - 1);
      BodiesAreTyped(p, m, k - 1);
      var before, body := AfterModule(p, s, m, k - 1), p.modules[m][k - 1];
      BodyGrows(p, before, body, |body|);
      BodyMarks(p, before, body, |body|);
      BodiesMarkedStep(p, m, k - 1, before.slots, AfterModule(p, s, m, k).slots);
    }
  }

  // ------------------------------------------------------------------ nothing without a derivation

  /** Every attached description stays within the limits, and no entry is empty. */
  predicate Sound(p: Program, l: Limits, s: State) { ValuesOk(l, s.values) && SlotsOk(p, l, s.slots) }

  lemma ValueSound(l: Limits, values: ValueMap, v: Value, ds: set<Desc>)
    requires ValuesOk(l, values) && ds != {} && Within(l, Val(v), ds)
    ensures ValuesOk(l, WithValue(values, v, ds))
  {
  }

  lemma SlotSound(p: Program, l: Limits, slots: SlotMap, id: Id, ds: set<Desc>, isSource: bool)
    requires SlotsOk(p, l, slots) && id in p.ids && ds != {} && Within(l, Slot(id), ds)
    requires isSource && id != Nameless ==> id in l.marks
    ensures SlotsOk(p, l, WithSlot(slots, id, ds, isSource))
  {
    if id != Nameless {
      var entry := if id in slots then slots[id] else Entry({}, false);
      MergedSlotOk(p, l, id, entry, ds, isSource);
      var after := WithSlot(slots, id, ds, isSource);
      forall x | x in after
        ensures SlotOk(p, l, x, after[x])
      {
        if x != id { assert SlotOk(p, l, x, slots[x]); }
      }
    }
  }

  lemma LoadSound(p: Program, l: Limits, s: State, values: ValueMap, v: Value, id: Id)
    requires ProgramOk(p) && Closed(p, l) && SlotsOk(p, l, s.slots) && ValuesOk(l, values)
    requires id != Nameless ==> Loads(p, Slot(id), Val(v))
    ensures ValuesOk(l, WithLoad(s, values, v, id))
  {
    if id != Nameless && id in s.slots {
      assert SlotOk(p, l, id, s.slots[id]);
      LoadFlows(p, l, id, v, s.slots[id].descs);
      ValueSound(l, values, v, s.slots[id].descs);
    }
  }

  lemma {:induction false} ResultsSound(p: Program, l: Limits, s: State, v: Value, k: nat)
    requires ProgramOk(p) && Closed(p, l) && Sound(p, l, s)
    requires v < |p.values| && p.values[v].callees.Some? && k <= |p.values[v].callees.value|
    ensures ValuesOk(l, AfterResults(p, s, v, k))
  {
    if k != 0 {
      ResultsSound(p, l, s, v, k - 1);
      LoadSound(p, l, s, AfterResults(p, s, v, k - 1), v, p.values[v].callees.value[k - 1].retId);
    }
  }

  lemma LookupSound(p: Program, l: Limits, s: State, v: Value)
    requires ProgramOk(p) && Closed(p, l) && Sound(p, l, s) && v < |p.values|
    ensures ValuesOk(l, AfterLookup(p, s, v))
  {
    if v !in s.values && p.values[v].stripped !in s.values {
      var callees := p.values[v].callees;
      if callees.Some? { ResultsSound(p, l, s, v, |callees.value|); }
      var values := if callees.Some? then AfterResults(p, s, v, |callees.value|) else s.values;
      LoadSound(p, l, s, values, v, p.values[v].id);
    }
  }

  /** What is found for an operand is there, under the operand or the pointer it casts. */
  lemma FoundSound(p: Program, l: Limits, values: ValueMap, v: Value)
    requires ValuesOk(l, values) && v < |p.values| && Found(p, values, v).Some?
    ensures Found(p, values, v).value != {}
    ensures exists x :: ReadAs(p, v, x) && Within(l, Val(x), Found(p, values, v).value)
  {
    assert ReadAs(p, v, v) && ReadAs(p, v, p.values[v].stripped);
  }

  lemma {:induction false} MembersSound(p: Program, l: Limits, i: Instr, slots: SlotMap, ds: set<Desc>, k: nat)
    requires ProgramOk(p) && Closed(p, l) && Occurs(p, i) && InstrOk(p, i) && i.source.Some? && k <= |i.members|
    requires SlotsOk(p, l, slots) && ds != {} && Within(l, Val(i.self), ds)
    ensures SlotsOk(p, l, AfterMembers(i, slots, ds, k))
  {
    if k != 0 {
      MembersSound(p, l, i, slots, ds, k - 1);
      SourceFlows(p, l, i, i.members[k - 1], ds);
      SlotSound(p, l, AfterMembers(i, slots, ds, k - 1), i.members[k - 1], ds, true);
    }
  }

  lemma SourceSound(p: Program, l: Limits, s: State, i: Instr)
    requires ProgramOk(p) && Closed(p, l) && Sound(p, l, s) && Occurs(p, i) && InstrOk(p, i)
    ensures Sound(p, l, AfterSource(p, s, i))
  {
    if i.source.Some? {
      assert IsSource(p, Val(i.self), i.source.value);
      ValueSound(l, s.values, i.self, {i.source.value});
      var ds := WithValue(s.values, i.self, {i.source.value})[i.self];
      SourceFlows(p, l, i, p.values[i.self].id, ds);
      SlotSound(p, l, s.slots, p.values[i.self].id, ds, true);
      MembersSound(p, l, i, WithSlot(s.slots, p.values[i.self].id, ds, true), ds, |i.members|);
    }
  }

  lemma {:induction false} OperandsSound(p: Program, l: Limits, s: State, i: Instr, k: nat)
    requires ProgramOk(p) && Closed(p, l) && Sound(p, l, s) && Occurs(p, i) && InstrOk(p, i)
    requires !i.kind.CallInst? && k <= |i.operands|
    ensures ValuesOk(l, AfterOperands(p, s, i, k).0)
    ensures Within(l, Val(i.self), AfterOperands(p, s, i, k).1)
    ensures i.kind.Store? || i.kind.Return? ==> Within(l, Slot(i.kind.id), AfterOperands(p, s, i, k).1)
  {
    if k != 0 {
      OperandsSound(p, l, s, i, k - 1);
      var before := State(s.slots, AfterOperands(p, s, i, k - 1).0);
      LookupSound(p, l, before, i.operands[k - 1]);
      var after := AfterLookup(p, before, i.operands[k - 1]);
      var more := Found(p, after, i.operands[k - 1]);
      if more.Some? {
        FoundSound(p, l, after, i.operands[k - 1]);
        OperandFlows(p, l, i, k - 1, more.value);
      }
    }
  }

  lemma PropagateSound(p: Program, l: Limits, s: State, i: Instr)
    requires ProgramOk(p) && Closed(p, l) && Sound(p, l, s) && Occurs(p, i) && InstrOk(p, i) && !i.kind.CallInst?
    ensures Sound(p, l, AfterPropagate(p, s, i))
  {
    OperandsSound(p, l, s, i, |i.operands|);
    var (values, ds) := AfterOperands(p, s, i, |i.operands|);
    if ds != {} {
      ValueSound(l, values, i.self, ds);
      if i.kind.Store? || i.kind.Return? { SlotSound(p, l, s.slots, i.kind.id, ds, false); }
    }
  }

  lemma ArgumentSound(p: Program, l: Limits, s: State, i: Instr, c: nat, n: nat)
    requires ProgramOk(p) && Closed(p, l) && Sound(p, l, s) && Occurs(p, i) && InstrOk(p, i)
    requires i.kind.CallInst? && p.values[i.self].callees.Some?
    requires c < |p.values[i.self].callees.value| && n < |i.kind.args|
    requires !p.values[i.self].callees.value[c].skipped && n < |p.values[i.self].callees.value[c].argIds|
    ensures Sound(p, l, AfterArgument(p, s, p.values[i.self].callees.value[c], i.kind.args, n))
  {
    var callee, v := p.values[i.self].callees.value[c], i.kind.args[n];
    LookupSound(p, l, s, v);
    var values := AfterLookup(p, s, v);
    var ds := Found(p, values, v);
    if ds.Some? {
      FoundSound(p, l, values, v);
      ArgumentFlows(p, l, i, c, n, ds.value);
      SlotSound(p, l, s.slots, callee.argIds[n], ds.value, false);
    }
  }

  lemma {:induction false} ArgumentsSound(p: Program, l: Limits, s: State, i: Instr, c: nat, n: nat)
    requires ProgramOk(p) && Closed(p, l) && Sound(p, l, s) && Occurs(p, i) && InstrOk(p, i)
    requires i.kind.CallInst? && p.values[i.self].callees.Some?
    requires c < |p.values[i.self].callees.value| && !p.values[i.self].callees.value[c].skipped
    requires n <= |i.kind.args| <= |p.values[i.self].callees.value[c].argIds|
    ensures Sound(p, l, AfterArguments(p, s, p.values[i.self].callees.value[c], i.kind.args, n))
  {
    if n != 0 {
      ArgumentsSound(p, l, s, i, c, n - 1);
      ArgumentSound(p, l, AfterArguments(p, s, p.values[i.self].callees.value[c], i.kind.args, n - 1), i, c, n - 1);
    }
  }

  lemma {:induction false} CalleesSound(p: Program, l: Limits, s: State, i: Instr, c: nat)
    requires ProgramOk(p) && Closed(p, l) && Sound(p, l, s) && Occurs(p, i) && InstrOk(p, i)
    requires i.kind.CallInst? && p.values[i.self].callees.Some? && c <= |p.values[i.self].callees.value|
    ensures Sound(p, l, AfterCallees(p, s, i, c))
  {
    if c != 0 {
      CalleesSound(p, l, s, i, c - 1);
      var callee := p.values[i.self].callees.value[c - 1];
      assert callee in p.values[i.self].callees.value;
      if !callee.skipped {
        ArgumentsSound(p, l, AfterCallees(p, s, i, c - 1), i, c - 1, |i.kind.args|);
      }
    }
  }

  lemma InstructionSound(p: Program, l: Limits, s: State, i: Instr)
    requires ProgramOk(p) && Closed(p, l) && Sound(p, l, s) && Occurs(p, i) && InstrOk(p, i)
    ensures Sound(p, l, AfterInstruction(p, s, i))
  {
    SourceSound(p, l, s, i);
    var marked := AfterSource(p, s, i);
    if !i.kind.CallInst? {
      PropagateSound(p, l, marked, i);
    } else if p.values[i.self].callees.Some? {
      CalleesSound(p, l, marked, i, |p.values[i.self].callees.value|);
    }
  }

  lemma {:induction false} BodySound(p: Program, l: Limits, s: State, body: Body, k: nat)
    requires ProgramOk(p) && Closed(p, l) && Sound(p, l, s)
    requires k <= |body| && forall j | 0 <= j < |body| :: Occurs(p, body[j]) && InstrOk(p, body[j])
    ensures Sound(p, l, AfterBody(p, s, body, k))
  {
    if k != 0 {
      BodySound(p, l, s, body, k - 1);
      InstructionSound(p, l, AfterBody(p, s, body, k - 1), body[k - 1]);
    }
  }

  lemma {:induction false} ModuleSound(p: Program, l: Limits, s: State, m: nat, k: nat)
    requires ProgramOk(p) && Closed(p, l) && Sound(p, l, s) && m < |p.modules| && k <= |p.modules[m]|
    ensures Sound(p, l, AfterModule(p, s, m, k))
  {
    if k != 0 {
      ModuleSound(p, l, s, m, k - 1);
      BodiesAreTyped(p, m, k - 1);
      BodySound(p, l, AfterModule(p, s, m, k - 1), p.modules[m][k - 1], |p.modules[m][k - 1]|);
    }
  }

  /** The instructions of a module have had their sources marked. */
  ghost predicate ModuleMarked(p: Program, m: nat, slots: SlotMap)
    requires ProgramOk(p) && m < |p.modules|
  {
    BodiesMarked(p, m, |p.modules[m]|, slots)
  }

  ghost predicate MarkedUpTo(p: Program, n: nat, slots: SlotMap)
    requires ProgramOk(p) && n <= |p.modules|
  {
    forall m: nat | m < n :: ModuleMarked(p, m, slots)
  }

  lemma MarkedStep(p: Program, n: nat, before: SlotMap, after: SlotMap)
    requires ProgramOk(p) && n < |p.modules| && SlotsGrow(before, after)
    requires MarkedUpTo(p, n, before) && ModuleMarked(p, n, after)
    ensures MarkedUpTo(p, n + 1, after)
  {
    forall m: nat, k | m < n && 0 <= k < |p.modules[m]|
      ensures BodyMarked(p, p.modules[m][k], |p.modules[m][k]|, after)
    {
      assert ModuleMarked(p, m, before);
      BodyStaysMarked(p, p.modules[m][k], |p.modules[m][k]|, before, after);
    }
  }

  lemma Conclusions(p: Program, values: map<Value, set<Desc>>, slots: SlotMap)
    requires ProgramOk(p) && SlotsOk(p, Exact(p), slots) && ValuesOk(Exact(p), values)
    requires MarkedUpTo(p, |p.modules|, slots)
    ensures forall v, d | v in values && d in values[v] :: Derivable(p, Val(v), d)
    ensures forall id, d | id in slots && d in slots[id].descs :: Derivable(p, Slot(id), d)
    ensures forall id :: id != Nameless && Marked(slots, id) <==> SourceSlot(p, id)
  {
    forall id, d | id in slots && d in slots[id].descs
      ensures Derivable(p, Slot(id), d)
    {
      assert SlotOk(p, Exact(p), id, slots[id]);
      assert (Slot(id), d) in Exact(p).reach;
    }
    forall v, d | v in values && d in values[v]
      ensures Derivable(p, Val(v), d)
    {
      assert (Val(v), d) in Exact(p).reach;
    }
    forall id
      ensures id != Nameless && Marked(slots, id) <==> SourceSlot(p, id)
    {
      AllMarked(p, slots, id);
    }
  }

  /** The slots marked as sources are exactly those that a source instruction marks. */
  lemma AllMarked(p: Program, slots: SlotMap, id: Id)
    requires ProgramOk(p) && SlotsOk(p, Exact(p), slots) && MarkedUpTo(p, |p.modules|, slots)
    ensures id != Nameless && Marked(slots, id) <==> SourceSlot(p, id)
  {
    if Marked(slots, id) {
      assert SlotOk(p, Exact(p), id, slots[id]);
    }
    if i :| Occurs(p, i) && MarksSource(p, i, id) {
      var m, k, j :| 0 <= m < |p.modules| && 0 <= k < |p.modules[m]| && 0 <= j < |p.modules[m][k]|
                     && p.modules[m][k][j] == i;
      assert ModuleMarked(p, m, slots);
    }
  }
}
