/** Which functions a function pointer may point to, over all modules of a program: sets grow by
    chaotic iteration until nothing changes. */
module CallGraph {

  type Func = nat
  type Value = nat

  /** Slots that hold function pointers: parameters, results, and struct fields or globals. */
  datatype Id = Arg(scope: string, number: nat) | Ret(scope: string) | Named(name: string)

  const UNNAMED: Id := Named("")

  datatype FpValue =
    | FunctionRef(f: Func)
    | Cast(operand: Value)
    | Phi(incoming: seq<Value>)
    | Select(ifTrue: Value, ifFalse: Value)
    | Slot(id: Id)                        // an argument, the result of a direct call, a load
    | Other                               // other constants, indirect results, inline assembly

  datatype FuncInfo = FuncInfo(name: string, scope: string, defined: bool, external: bool)

  datatype Operand = Operand(isFunctionPointer: bool, value: Value)

  datatype Instr =
    | Store(id: Id, operand: Operand)
    | Return(id: Id, operand: Operand)
    | Call(ignored: bool, callee: Value, args: seq<Operand>)   // ignored: inline assembly, intrinsics

  /** `members` are the functions the module defines or declares, `functions` their bodies. */
  datatype Module = Module(initializers: seq<(Id, Func)>, members: seq<Func>, functions: seq<seq<Instr>>)

  /** `definitions` is the table of external definitions by name; `ids` is the set of all slots. */
  datatype Program =
    Program(values: seq<FpValue>, functions: seq<FuncInfo>, definitions: map<string, Func>, ids: set<Id>)

  type FuncPtrs = map<Id, set<Func>>

  function At(ptrs: FuncPtrs, id: Id): set<Func> { if id in ptrs then ptrs[id] else {} }

  predicate Included(a: FuncPtrs, b: FuncPtrs) {
    forall id | id in a :: a[id] <= At(b, id)
  }

  function ArgId(p: Program, f: Func, number: nat): Id
    requires f < |p.functions|
  {
    Arg(p.functions[f].scope, number)
  }

  predicate ValidValue(p: Program, v: Value) { v < |p.values| }

  predicate InstrOk(p: Program, i: Instr) {
    match i
    case Store(id, operand) => id in p.ids && ValidValue(p, operand.value)
    case Return(id, operand) => id in p.ids && ValidValue(p, operand.value)
    case Call(_, callee, args) =>
      && ValidValue(p, callee)
      && (forall n | 0 <= n < |args| :: ValidValue(p, args[n].value))
      && (forall f: Func, n | f < |p.functions| && 0 <= n < |args| :: ArgId(p, f, n) in p.ids)
  }

  predicate ModuleOk(p: Program, m: Module) {
    && (forall i | 0 <= i < |m.initializers| ::
          m.initializers[i].0 in p.ids && m.initializers[i].1 < |p.functions|)
    && (forall i | 0 <= i < |m.members| :: m.members[i] < |p.functions|)
    && forall k | 0 <= k < |m.functions| :: BodyOk(p, m.functions[k])
  }

  predicate AllOk(p: Program, modules: seq<Module>) {
    forall m | 0 <= m < |modules| :: ModuleOk(p, modules[m])
  }

  predicate BodyOk(p: Program, body: seq<Instr>) {
    forall i | 0 <= i < |body| :: InstrOk(p, body[i])
  }

  predicate AllValid(p: Program, vs: seq<Value>) {
    forall i | 0 <= i < |vs| :: vs[i] < |p.values|
  }

  predicate ProgramOk(p: Program) {
    && (forall v | 0 <= v < |p.values| ::
          && (p.values[v].FunctionRef? ==> p.values[v].f < |p.functions|)
          && AllValid(p, Next(p, v)))
    && (forall name | name in p.definitions :: p.definitions[name] < |p.functions|)
  }

  // ------------------------------------------------------------------ the table of definitions

  /** The table after the first `n` members: a later definition replaces an earlier one. */
  function WithMembers(p: Program, members: seq<Func>, n: nat): map<string, Func>
    requires n <= |members| && forall i | 0 <= i < |members| :: members[i] < |p.functions|
  {
    if n == 0 then p.definitions
    else
      var before, f := WithMembers(p, members, n - 1), members[n - 1];
      if p.functions[f].external && p.functions[f].defined then before[p.functions[f].name := f] else before
  }

  /** The program once the definitions of the first `n` modules are known. */
  function Linked(p: Program, modules: seq<Module>, n: nat): Program
    requires n <= |modules| && forall m | 0 <= m < |modules| :: ModuleOk(p, modules[m])
    ensures Linked(p, modules, n) == p.(definitions := Linked(p, modules, n).definitions)
  {
    if n == 0 then p
    else
      var before := Linked(p, modules, n - 1);
      before.(definitions := WithMembers(before, modules[n - 1].members, |modules[n - 1].members|))
  }

  lemma LinkedNext(p: Program, modules: seq<Module>, j: nat, n: nat)
    requires AllOk(p, modules) && n == j + 1 && n <= |modules|
    ensures forall i | 0 <= i < |modules[j].members| :: modules[j].members[i] < |p.functions|
    ensures var before, members := Linked(p, modules, j), modules[j].members;
            Linked(p, modules, n) == before.(definitions := WithMembers(before, members, |members|))
  {
    assert ModuleOk(p, modules[j]);
  }

  lemma {:induction false} MembersOk(p: Program, members: seq<Func>, n: nat)
    requires ProgramOk(p) && n <= |members| && forall i | 0 <= i < |members| :: members[i] < |p.functions|
    ensures ProgramOk(p.(definitions := WithMembers(p, members, n)))
  {
    if n != 0 { MembersOk(p, members, n - 1); }
  }

  /** `f` is an external definition under this name. */
  predicate Defines(p: Program, f: Func, name: string) {
    f < |p.functions| && p.functions[f].external && p.functions[f].defined && p.functions[f].name == name
  }

  ghost predicate DefinedBy(p: Program, members: seq<Func>, n: nat, name: string, f: Func)
    requires n <= |members|
  {
    Defines(p, f, name) && exists i :: 0 <= i < n && members[i] == f
  }

  ghost predicate HasDefinition(p: Program, members: seq<Func>, n: nat, name: string)
    requires n <= |members|
  {
    exists f :: DefinedBy(p, members, n, name, f)
  }

  /** `t` agrees with the older table on the name. */
  predicate SameEntry(t: map<string, Func>, older: map<string, Func>, name: string) {
    (name in t <==> name in older) && (name in t ==> t[name] == older[name])
  }

  /** A name that some member defines has one of its definitions as its entry; every other name keeps
      the entry it had, if any. */
  lemma {:induction false} MembersAreDefinitions(p: Program, members: seq<Func>, n: nat, name: string)
    requires n <= |members| && forall i | 0 <= i < |members| :: members[i] < |p.functions|
    ensures var t := WithMembers(p, members, n);
      if HasDefinition(p, members, n, name) then name in t && DefinedBy(p, members, n, name, t[name])
      else SameEntry(t, p.definitions, name)
  {
    if n != 0 {
      var j := n - 1;
      MembersAreDefinitions(p, members, j, name);
      NextMember(p, members, j, n, name);
      if HasDefinition(p, members, j, name) { assert DefinedBy(p, members, n, name, WithMembers(p, members, j)[name]); }
    }
  }

  lemma NextMember(p: Program, members: seq<Func>, j: nat, n: nat, name: string)
    requires n == j + 1 && n <= |members| && forall i | 0 <= i < |members| :: members[i] < |p.functions|
    ensures var t, before := WithMembers(p, members, n), WithMembers(p, members, j);
      if Defines(p, members[j], name) then name in t && t[name] == members[j] else SameEntry(t, before, name)
    ensures forall f :: DefinedBy(p, members, n, name, f) <==>
      DefinedBy(p, members, j, name, f) || (f == members[j] && Defines(p, f, name))
  {
  }

  /** Some of the first `n` modules has `f` as a definition of the name. */
  ghost predicate Definer(p: Program, modules: seq<Module>, n: nat, name: string, f: Func)
    requires n <= |modules|
  {
    exists m :: 0 <= m < n && DefinedBy(p, modules[m].members, |modules[m].members|, name, f)
  }

  ghost predicate HasDefiner(p: Program, modules: seq<Module>, n: nat, name: string)
    requires n <= |modules|
  {
    exists f :: Definer(p, modules, n, name, f)
  }

  /** The same for the table over all modules. */
  lemma {:induction false} LinkedLookup(p: Program, modules: seq<Module>, n: nat, name: string)
    requires AllOk(p, modules) && n <= |modules|
    ensures var t := Linked(p, modules, n).definitions;
      if HasDefiner(p, modules, n, name) then name in t && Definer(p, modules, n, name, t[name])
      else SameEntry(t, p.definitions, name)
  {
    if n != 0 {
      var j := n - 1;
      LinkedLookup(p, modules, j, name);
      NextTable(p, modules, j, n, name);
      NextDefiner(p, modules, j, n, name);
      if HasDefiner(p, modules, j, name) {
        assert Definer(p, modules, n, name, Linked(p, modules, j).definitions[name]);
      }
    }
  }

  lemma NextDefiner(p: Program, modules: seq<Module>, j: nat, n: nat, name: string)
    requires n == j + 1 && n <= |modules|
    ensures forall f :: Definer(p, modules, n, name, f) <==>
      Definer(p, modules, j, name, f) || DefinedBy(p, modules[j].members, |modules[j].members|, name, f)
  {
  }

  /** One more module: its definition of the name if it has one, else the entry so far. */
  lemma NextTable(p: Program, modules: seq<Module>, j: nat, n: nat, name: string)
    requires AllOk(p, modules) && n == j + 1 && n <= |modules|
    ensures var members, t := modules[j].members, Linked(p, modules, n).definitions;
      if HasDefinition(p, members, |members|, name) then name in t && DefinedBy(p, members, |members|, name, t[name])
      else SameEntry(t, Linked(p, modules, j).definitions, name)
  {
    var before, members := Linked(p, modules, j), modules[j].members;
    LinkedNext(p, modules, j, n);
    MembersAreDefinitions(before, members, |members|, name);
    SameDefinitions(before, p, members, name);
  }

  /** What members define does not depend on the table. */
  lemma SameDefinitions(p: Program, q: Program, members: seq<Func>, name: string)
    requires p.functions == q.functions
    ensures forall f :: DefinedBy(p, members, |members|, name, f) <==> DefinedBy(q, members, |members|, name, f)
  {
  }

  /** Over all modules no external name has two definitions. */
  ghost predicate UniqueNames(p: Program, modules: seq<Module>) {
    forall name, f, g | Definer(p, modules, |modules|, name, f) && Definer(p, modules, |modules|, name, g) :: f == g
  }

  /** The same names have the same definitions. */
  ghost predicate SameDefiners(p: Program, ma: seq<Module>, mb: seq<Module>) {
    forall name, f :: Definer(p, ma, |ma|, name, f) <==> Definer(p, mb, |mb|, name, f)
  }

  /** Without a name that is defined twice the table does not depend on the order of the modules. */
  lemma OneTable(p: Program, ma: seq<Module>, mb: seq<Module>)
    requires AllOk(p, ma) && AllOk(p, mb) && UniqueNames(p, ma) && SameDefiners(p, ma, mb)
    ensures Linked(p, ma, |ma|) == Linked(p, mb, |mb|)
  {
    var ta, tb := Linked(p, ma, |ma|).definitions, Linked(p, mb, |mb|).definitions;
    forall name
      ensures name in ta <==> name in tb
      ensures name in ta ==> ta[name] == tb[name]
    {
      LinkedLookup(p, ma, |ma|, name);
      LinkedLookup(p, mb, |mb|, name);
    }
    assert ta == tb;
  }

  /** Within one module a name has one definition, as its symbol table ensures. */
  ghost predicate ModuleNamesUnique(p: Program, m: Module) {
    forall name, f, g ::
      DefinedBy(p, m.members, |m.members|, name, f) && DefinedBy(p, m.members, |m.members|, name, g) ==> f == g
  }

  /** The table is the same for every order of the modules exactly when no name is defined twice. */
  lemma TableIsOrderIndependent(p: Program, modules: seq<Module>)
    requires AllOk(p, modules) && forall m | 0 <= m < |modules| :: ModuleNamesUnique(p, modules[m])
    ensures UniqueNames(p, modules) <==>
      forall other | multiset(other) == multiset(modules) && AllOk(p, other) ::
        Linked(p, other, |other|) == Linked(p, modules, |modules|)
  {
    if UniqueNames(p, modules) {
      forall other | multiset(other) == multiset(modules) && AllOk(p, other)
        ensures Linked(p, other, |other|) == Linked(p, modules, |modules|)
      {
        ReorderedDefiners(p, modules, other);
        OneTable(p, modules, other);
      }
    } else {
      var name, f, g :| Definer(p, modules, |modules|, name, f) && Definer(p, modules, |modules|, name, g) && f != g;
      var fLast := DefinitionLast(p, modules, name, f);
      var gLast := DefinitionLast(p, modules, name, g);
      assert Linked(p, fLast, |fLast|) != Linked(p, gLast, |gLast|);
    }
  }

  lemma ReorderedDefiners(p: Program, ma: seq<Module>, mb: seq<Module>)
    requires multiset(ma) == multiset(mb)
    ensures SameDefiners(p, ma, mb)
  {
    forall name, f
      ensures Definer(p, ma, |ma|, name, f) <==> Definer(p, mb, |mb|, name, f)
    {
      if Definer(p, ma, |ma|, name, f) { DefinersAmong(p, ma, mb, name, f); }
      if Definer(p, mb, |mb|, name, f) { DefinersAmong(p, mb, ma, name, f); }
    }
  }

  lemma DefinersAmong(p: Program, ma: seq<Module>, mb: seq<Module>, name: string, f: Func)
    requires multiset(ma) == multiset(mb) && Definer(p, ma, |ma|, name, f)
    ensures Definer(p, mb, |mb|, name, f)
  {
    var m :| 0 <= m < |ma| && DefinedBy(p, ma[m].members, |ma[m].members|, name, f);
    assert ma[m] in multiset(ma) && ma[m] in multiset(mb) && ma[m] in mb;
  }

  /** The order with the module that defines `f` last has `f` in the table. */
  lemma DefinitionLast(p: Program, modules: seq<Module>, name: string, f: Func) returns (other: seq<Module>)
    requires AllOk(p, modules) && Definer(p, modules, |modules|, name, f)
    requires forall m | 0 <= m < |modules| :: ModuleNamesUnique(p, modules[m])
    ensures multiset(other) == multiset(modules) && AllOk(p, other)
    ensures name in Linked(p, other, |other|).definitions && Linked(p, other, |other|).definitions[name] == f
  {
    var m :| 0 <= m < |modules| && DefinedBy(p, modules[m].members, |modules[m].members|, name, f);
    var rest := modules[..m] + modules[m + 1..];
    other := rest + [modules[m]];
    assert modules == modules[..m] + [modules[m]] + modules[m + 1..];
    NextTable(p, other, |rest|, |other|, name);
  }

  // ------------------------------------------------------------------ what a value may point to

  /** The values that `v` passes on. */
  function Next(p: Program, v: Value): seq<Value>
    requires v < |p.values|
  {
    match p.values[v]
    case Cast(x) => [x]
    case Phi(xs) => xs
    case Select(t, e) => [t, e]
    case _ => []
  }

  /** A definition is preferred to a declaration of the same name. */
  function Resolve(p: Program, f: Func): Func
    requires f < |p.functions|
  {
    var info := p.functions[f];
    if !info.defined && info.name in p.definitions then p.definitions[info.name] else f
  }

  /** The functions that `v` adds itself. */
  function Contribution(p: Program, ptrs: FuncPtrs, v: Value): set<Func>
    requires ProgramOk(p) && v < |p.values|
  {
    match p.values[v]
    case FunctionRef(f) => {Resolve(p, f)}
    case Slot(id) => At(ptrs, id)
    case _ => {}
  }

  ghost predicate IsChain(p: Program, chain: seq<Value>) {
    && |chain| > 0
    && (forall i | 0 <= i < |chain| :: chain[i] < |p.values|)
    && forall i | 0 <= i < |chain| - 1 :: chain[i + 1] in Next(p, chain[i])
  }

  /** `f` is contributed by the end of a chain that starts at `v` and avoids `visited`. */
  ghost predicate Delivers(p: Program, ptrs: FuncPtrs, v: Value, visited: set<Value>, f: Func, chain: seq<Value>)
    requires ProgramOk(p)
  {
    && IsChain(p, chain) && chain[0] == v
    && (forall i | 0 <= i < |chain| :: chain[i] !in visited)
    && f in Contribution(p, ptrs, chain[|chain| - 1])
  }

  /** `v` may point to `f`: some value reachable from `v` contributes `f`. */
  ghost predicate MayPointTo(p: Program, ptrs: FuncPtrs, v: Value, f: Func)
    requires ProgramOk(p)
  {
    exists chain :: Delivers(p, ptrs, v, {}, f, chain)
  }

  /** What the recursive search collects; each branch has its own copy of `visited`. */
  function Collect(p: Program, ptrs: FuncPtrs, v: Value, visited: set<Value>): set<Func>
    requires ProgramOk(p) && v < |p.values|
    decreases Unvisited(p, visited), 1, 0
  {
    if v in visited then {}
    else
      FewerUnvisited(p, visited, v);
      Contribution(p, ptrs, v) + CollectAll(p, ptrs, Next(p, v), visited + {v})
  }

  function CollectAll(p: Program, ptrs: FuncPtrs, vs: seq<Value>, visited: set<Value>): set<Func>
    requires ProgramOk(p) && AllValid(p, vs)
    decreases Unvisited(p, visited), 2, |vs|
  {
    if vs == [] then {}
    else CollectAll(p, ptrs, vs[..|vs| - 1], visited) + Collect(p, ptrs, vs[|vs| - 1], visited)
  }

  /** A value either contributes itself or passes others on. */
  lemma CollectSplits(p: Program, ptrs: FuncPtrs, v: Value, visited: set<Value>)
    requires ProgramOk(p) && v < |p.values| && v !in visited
    ensures Next(p, v) == [] ==> Collect(p, ptrs, v, visited) == Contribution(p, ptrs, v)
    ensures Contribution(p, ptrs, v) == {} ==>
      Collect(p, ptrs, v, visited) == CollectAll(p, ptrs, Next(p, v), visited + {v})
  {
  }

  function Unvisited(p: Program, visited: set<Value>): nat {
    |(set v: Value | 0 <= v < |p.values| && v !in visited)|
  }

  lemma FewerUnvisited(p: Program, visited: set<Value>, v: Value)
    requires v < |p.values| && v !in visited
    ensures Unvisited(p, visited + {v}) < Unvisited(p, visited)
  {
    var before := set x: Value | 0 <= x < |p.values| && x !in visited;
    var after := set x: Value | 0 <= x < |p.values| && x !in visited + {v};
    assert before == after + {v};
  }

  lemma {:induction false} CollectAllMembers(p: Program, ptrs: FuncPtrs, vs: seq<Value>, visited: set<Value>, f: Func)
    requires ProgramOk(p) && AllValid(p, vs)
    ensures f in CollectAll(p, ptrs, vs, visited) <==>
            exists v :: v in vs && f in Collect(p, ptrs, v, visited)
  {
    if vs != [] {
      var rest, last := vs[..|vs| - 1], vs[|vs| - 1];
      CollectAllMembers(p, ptrs, rest, visited, f);
      assert vs == rest + [last];
      assert CollectAll(p, ptrs, vs, visited) == CollectAll(p, ptrs, rest, visited) + Collect(p, ptrs, last, visited);
      if f in Collect(p, ptrs, last, visited) {
        assert last in vs;
      }
      if v :| v in rest && f in Collect(p, ptrs, v, visited) {
        assert v in vs;
      }
    }
  }

  /** Whatever the search collects is delivered by a chain that avoids the visited values. */
  lemma {:induction false} CollectedIsDelivered(p: Program, ptrs: FuncPtrs, v: Value, visited: set<Value>, f: Func)
    returns (chain: seq<Value>)
    requires ProgramOk(p) && v < |p.values| && f in Collect(p, ptrs, v, visited)
    ensures Delivers(p, ptrs, v, visited, f, chain)
    decreases Unvisited(p, visited)
  {
    if f in Contribution(p, ptrs, v) {
      chain := [v];
    } else {
      FewerUnvisited(p, visited, v);
      CollectAllMembers(p, ptrs, Next(p, v), visited + {v}, f);
      var u :| u in Next(p, v) && f in Collect(p, ptrs, u, visited + {v});
      var rest := CollectedIsDelivered(p, ptrs, u, visited + {v}, f);
      chain := [v] + rest;
      LongerChain(p, ptrs, v, u, visited, f, rest);
    }
  }

  lemma LongerChain(p: Program, ptrs: FuncPtrs, v: Value, u: Value, visited: set<Value>, f: Func, rest: seq<Value>)
    requires ProgramOk(p) && v < |p.values| && v !in visited && u in Next(p, v)
    requires Delivers(p, ptrs, u, visited + {v}, f, rest)
    ensures Delivers(p, ptrs, v, visited, f, [v] + rest)
  {
    var chain := [v] + rest;
    assert forall i | 0 < i < |chain| :: chain[i] == rest[i - 1];
    assert chain[|chain| - 1] == rest[|rest| - 1];
  }

  /** Whatever a chain delivers is collected, although the branches do not share what they have
      visited and the graph may have cycles. */
  lemma {:induction false} DeliveredIsCollected(
      p: Program, ptrs: FuncPtrs, v: Value, visited: set<Value>, f: Func, chain: seq<Value>)
    requires ProgramOk(p) && v < |p.values| && Delivers(p, ptrs, v, visited, f, chain)
    ensures f in Collect(p, ptrs, v, visited)
    decreases |chain|
  {
    if |chain| > 1 {
      var rest := chain[1..];
      if v in rest {
        var k :| 0 <= k < |rest| && rest[k] == v;
        DeliveredIsCollected(p, ptrs, v, visited, f, rest[k..]);
      } else {
        DeliveredIsCollected(p, ptrs, chain[1], visited + {v}, f, rest);
        CollectAllMembers(p, ptrs, Next(p, v), visited + {v}, f);
      }
    }
  }

  /** The search from scratch collects exactly what the value may point to. */
  lemma CollectExact(p: Program, ptrs: FuncPtrs, v: Value, f: Func)
    requires ProgramOk(p) && v < |p.values|
    ensures f in Collect(p, ptrs, v, {}) <==> MayPointTo(p, ptrs, v, f)
  {
    if f in Collect(p, ptrs, v, {}) {
      var chain := CollectedIsDelivered(p, ptrs, v, {}, f);
    }
    if chain :| Delivers(p, ptrs, v, {}, f, chain) {
      DeliveredIsCollected(p, ptrs, v, {}, f, chain);
    }
  }

  lemma MayPointToMonotone(p: Program, a: FuncPtrs, b: FuncPtrs, v: Value, f: Func)
    requires ProgramOk(p) && Included(a, b) && MayPointTo(p, a, v, f)
    ensures MayPointTo(p, b, v, f)
  {
    var chain :| Delivers(p, a, v, {}, f, chain);
    assert Delivers(p, b, v, {}, f, chain);
  }

  /** What each kind of value may point to. */
  lemma PointsByKind(p: Program, ptrs: FuncPtrs, v: Value, f: Func)
    requires ProgramOk(p) && v < |p.values|
    ensures MayPointTo(p, ptrs, v, f) <==>
      match p.values[v]
      case FunctionRef(g) =>
        var name := p.functions[g].name;
        f == if !p.functions[g].defined && name in p.definitions then p.definitions[name] else g
      case Cast(x) => MayPointTo(p, ptrs, x, f)
      case Phi(xs) => exists i :: 0 <= i < |xs| && MayPointTo(p, ptrs, xs[i], f)
      case Select(t, e) => MayPointTo(p, ptrs, t, f) || MayPointTo(p, ptrs, e, f)
      case Slot(id) => id in ptrs && f in ptrs[id]
      case Other => false
  {
    if MayPointTo(p, ptrs, v, f) {
      var chain :| Delivers(p, ptrs, v, {}, f, chain);
      if |chain| > 1 {
        assert Delivers(p, ptrs, chain[1], {}, f, chain[1..]);
        assert chain[1] in Next(p, v);
      }
    }
    if f in Contribution(p, ptrs, v) { assert Delivers(p, ptrs, v, {}, f, [v]); }
    forall i | 0 <= i < |Next(p, v)| && MayPointTo(p, ptrs, Next(p, v)[i], f)
      ensures MayPointTo(p, ptrs, v, f)
    {
      var u := Next(p, v)[i];
      var rest :| Delivers(p, ptrs, u, {}, f, rest);
      assert Delivers(p, ptrs, v, {}, f, [v] + rest);
    }
    match p.values[v]
    case Cast(x) => assert Next(p, v)[0] == x;
    case Select(t, e) => assert Next(p, v)[0] == t && Next(p, v)[1] == e;
    case _ =>
  }

  // ------------------------------------------------------------------ constraints

  /** What an instruction demands of a solution. */
  ghost predicate Holds(p: Program, ptrs: FuncPtrs, i: Instr)
    requires ProgramOk(p) && InstrOk(p, i)
  {
    match i
    case Store(id, operand) =>
      operand.isFunctionPointer && id != UNNAMED ==> Covers(p, ptrs, operand.value, id)
    case Return(id, operand) =>
      operand.isFunctionPointer ==> Covers(p, ptrs, operand.value, id)
    case Call(ignored, callee, args) =>
      !ignored ==> forall g: Func, n | g < |p.functions| && MayPointTo(p, ptrs, callee, g) && 0 <= n < |args| ::
        args[n].isFunctionPointer ==> Covers(p, ptrs, args[n].value, ArgId(p, g, n))
  }

  /** The slot holds everything the value may point to. */
  ghost predicate Covers(p: Program, ptrs: FuncPtrs, v: Value, id: Id)
    requires ProgramOk(p)
  {
    forall f | MayPointTo(p, ptrs, v, f) :: f in At(ptrs, id)
  }

  ghost predicate Solves(p: Program, ptrs: FuncPtrs, modules: seq<Module>)
    requires ProgramOk(p) && forall m | 0 <= m < |modules| :: ModuleOk(p, modules[m])
  {
    forall m | 0 <= m < |modules| :: SolvesModule(p, ptrs, modules[m])
  }

  ghost predicate SolvesModule(p: Program, ptrs: FuncPtrs, m: Module)
    requires ProgramOk(p) && ModuleOk(p, m)
  {
    forall k | 0 <= k < |m.functions| :: SolvesBody(p, ptrs, m.functions[k])
  }

  ghost predicate SolvesBody(p: Program, ptrs: FuncPtrs, body: seq<Instr>)
    requires ProgramOk(p) && BodyOk(p, body)
  {
    forall i | 0 <= i < |body| :: Holds(p, ptrs, body[i])
  }

  /** The initializers of all modules are in their slots. */
  ghost predicate Initialized(ptrs: FuncPtrs, modules: seq<Module>) {
    forall m, i | 0 <= m < |modules| && 0 <= i < |modules[m].initializers| ::
      modules[m].initializers[i].1 in At(ptrs, modules[m].initializers[i].0)
  }

  ghost predicate IsSolution(p: Program, ptrs: FuncPtrs, modules: seq<Module>)
    requires ProgramOk(p) && forall m | 0 <= m < |modules| :: ModuleOk(p, modules[m])
  {
    Initialized(ptrs, modules) && Solves(p, ptrs, modules)
  }

  ghost predicate IsLeastSolution(p: Program, ptrs: FuncPtrs, modules: seq<Module>)
    requires ProgramOk(p) && forall m | 0 <= m < |modules| :: ModuleOk(p, modules[m])
  {
    && IsSolution(p, ptrs, modules)
    && forall other | IsSolution(p, other, modules) :: Included(ptrs, other)
  }

  /** What the pass computes from the unlinked program: the least solution under the finished table. */
  ghost predicate IsResult(p: Program, ptrs: FuncPtrs, modules: seq<Module>)
    requires AllOk(p, modules)
  {
    var q := Linked(p, modules, |modules|);
    ProgramOk(q) && AllOk(q, modules) && IsLeastSolution(q, ptrs, modules)
  }

  /** Without a name that is defined twice, the result does not depend on the order of modules or of
      functions within them. */
  lemma OrderIndependent(p: Program, a: FuncPtrs, ma: seq<Module>, b: FuncPtrs, mb: seq<Module>)
    requires AllOk(p, ma) && AllOk(p, mb) && UniqueNames(p, ma) && SameDefiners(p, ma, mb)
    requires SameCode(ma, mb) && SameCode(mb, ma)
    requires IsResult(p, a, ma) && IsResult(p, b, mb)
    ensures forall id :: At(a, id) == At(b, id)
  {
    var q := Linked(p, ma, |ma|);
    OneTable(p, ma, mb);
    SameCodeSameSolutions(q, a, ma, mb);
    SameCodeSameSolutions(q, b, mb, ma);
    forall id
      ensures At(a, id) == At(b, id)
    {
      assert Included(a, b) && Included(b, a);
    }
  }

  /** Every function and every initializer of `ma` also occurs in `mb`. */
  ghost predicate SameCode(ma: seq<Module>, mb: seq<Module>) {
    && (forall m, k | 0 <= m < |ma| && 0 <= k < |ma[m].functions| :: HasBody(mb, ma[m].functions[k]))
    && (forall m, i | 0 <= m < |ma| && 0 <= i < |ma[m].initializers| :: HasInitializer(mb, ma[m].initializers[i]))
  }

  ghost predicate HasBody(ms: seq<Module>, body: seq<Instr>) {
    exists m, k :: 0 <= m < |ms| && 0 <= k < |ms[m].functions| && ms[m].functions[k] == body
  }

  ghost predicate HasInitializer(ms: seq<Module>, init: (Id, Func)) {
    exists m, i :: 0 <= m < |ms| && 0 <= i < |ms[m].initializers| && ms[m].initializers[i] == init
  }

  lemma SameCodeSameSolutions(p: Program, ptrs: FuncPtrs, ma: seq<Module>, mb: seq<Module>)
    requires ProgramOk(p)
    requires forall m | 0 <= m < |ma| :: ModuleOk(p, ma[m])
    requires forall m | 0 <= m < |mb| :: ModuleOk(p, mb[m])
    requires SameCode(mb, ma) && IsSolution(p, ptrs, ma)
    ensures IsSolution(p, ptrs, mb)
  {
    forall m, k | 0 <= m < |mb| && 0 <= k < |mb[m].functions|
      ensures BodyOk(p, mb[m].functions[k]) && SolvesBody(p, ptrs, mb[m].functions[k])
    {
      assert ModuleOk(p, mb[m]);
      assert HasBody(ma, mb[m].functions[k]);
      var m', k' :| 0 <= m' < |ma| && 0 <= k' < |ma[m'].functions| && ma[m'].functions[k'] == mb[m].functions[k];
      assert SolvesModule(p, ptrs, ma[m']);
    }
    forall m, i | 0 <= m < |mb| && 0 <= i < |mb[m].initializers|
      ensures mb[m].initializers[i].1 in At(ptrs, mb[m].initializers[i].0)
    {
      assert HasInitializer(ma, mb[m].initializers[i]);
    }
  }

  // ------------------------------------------------------------------ a name defined twice

  const SLOT: Id := Named("slot")

  /** Function 0 declares f, functions 1 and 2 each define it; the only value refers to function 0. */
  const TWICE: Program :=
    Program([FunctionRef(0)],
            [FuncInfo("f", "f", false, true), FuncInfo("f", "f", true, true), FuncInfo("f", "f", true, true)],
            map[], {SLOT})

  const FIRST: Module := Module([], [1], [])
  const SECOND: Module := Module([], [2], [])
  const USER: Module := Module([], [0], [[Store(SLOT, Operand(true, 0))]])

  /** With f defined in two modules, the one that comes last is called. */
  lemma OrderMatters()
    ensures AllOk(TWICE, [FIRST, SECOND, USER]) && AllOk(TWICE, [SECOND, FIRST, USER])
    ensures IsResult(TWICE, map[SLOT := {2}], [FIRST, SECOND, USER])
    ensures IsResult(TWICE, map[SLOT := {1}], [SECOND, FIRST, USER])
  {
    assert InstrOk(TWICE, Store(SLOT, Operand(true, 0)));
    TwiceResult([FIRST, SECOND, USER], 2);
    TwiceResult([SECOND, FIRST, USER], 1);
  }

  predicate IsOrder(modules: seq<Module>) { modules == [FIRST, SECOND, USER] || modules == [SECOND, FIRST, USER] }

  lemma TwiceResult(modules: seq<Module>, k: Func)
    requires IsOrder(modules) && AllOk(TWICE, modules) && k == modules[1].members[0]
    ensures IsResult(TWICE, map[SLOT := {k}], modules)
  {
    var q := Linked(TWICE, modules, 3);
    TwiceTable(modules, k);
    StillOk(TWICE, q, modules);
    UserIsLeast(q, modules, k);
  }

  lemma UserIsLeast(q: Program, modules: seq<Module>, k: Func)
    requires ProgramOk(q) && IsOrder(modules) && AllOk(q, modules) && |q.values| > 0
    requires q.values[0].FunctionRef? && Resolve(q, q.values[0].f) == k
    ensures IsLeastSolution(q, map[SLOT := {k}], modules)
  {
    UserSolution(q, map[SLOT := {k}], modules, k);
    forall other | IsSolution(q, other, modules)
      ensures Included(map[SLOT := {k}], other)
    {
      UserSolution(q, other, modules, k);
    }
  }

  lemma UserSolution(q: Program, ptrs: FuncPtrs, modules: seq<Module>, k: Func)
    requires ProgramOk(q) && IsOrder(modules) && AllOk(q, modules) && |q.values| > 0
    requires q.values[0].FunctionRef? && Resolve(q, q.values[0].f) == k
    ensures IsSolution(q, ptrs, modules) <==> k in At(ptrs, SLOT)
  {
    forall f
      ensures MayPointTo(q, ptrs, 0, f) <==> f == k
    {
      ReferencePoints(q, ptrs, f);
    }
    assert ModuleOk(q, modules[2]) && BodyOk(q, USER.functions[0]) && InstrOk(q, USER.functions[0][0]);
    StoreHolds(q, ptrs, k);
    assert SolvesBody(q, ptrs, USER.functions[0]) <==> Holds(q, ptrs, USER.functions[0][0]);
    assert SolvesModule(q, ptrs, USER) <==> SolvesBody(q, ptrs, USER.functions[0]);
    assert Solves(q, ptrs, modules) <==> SolvesModule(q, ptrs, modules[2]);
  }

  /** The store demands exactly what the value points to. */
  lemma StoreHolds(q: Program, ptrs: FuncPtrs, k: Func)
    requires ProgramOk(q) && InstrOk(q, Store(SLOT, Operand(true, 0)))
    requires forall f :: MayPointTo(q, ptrs, 0, f) <==> f == k
    ensures Holds(q, ptrs, Store(SLOT, Operand(true, 0))) <==> k in At(ptrs, SLOT)
  {
  }

  lemma TwiceTable(modules: seq<Module>, k: Func)
    requires IsOrder(modules) && AllOk(TWICE, modules) && k == modules[1].members[0]
    ensures Linked(TWICE, modules, 3) == TWICE.(definitions := map["f" := k])
    ensures ProgramOk(TWICE.(definitions := map["f" := k]))
  {
    LinkedNext(TWICE, modules, 0, 1);
    LinkedNext(TWICE, modules, 1, 2);
    LinkedNext(TWICE, modules, 2, 3);
  }

  /** A reference points to what it resolves to. */
  lemma ReferencePoints(p: Program, ptrs: FuncPtrs, f: Func)
    requires ProgramOk(p) && |p.values| > 0 && p.values[0].FunctionRef?
    ensures MayPointTo(p, ptrs, 0, f) <==> f == Resolve(p, p.values[0].f)
  {
    CollectSplits(p, ptrs, 0, {});
    CollectExact(p, ptrs, 0, f);
  }

  // ------------------------------------------------------------------ derivations

  /** An initializer puts `f` into the slot. */
  ghost predicate Initializes(modules: seq<Module>, id: Id, f: Func) { HasInitializer(modules, (id, f)) }

  /** Given `ptrs`, the instruction puts `f` into the slot. */
  ghost predicate Puts(p: Program, ptrs: FuncPtrs, i: Instr, id: Id, f: Func)
    requires ProgramOk(p) && InstrOk(p, i)
  {
    match i
    case Store(slot, operand) =>
      operand.isFunctionPointer && slot != UNNAMED && id == slot && MayPointTo(p, ptrs, operand.value, f)
    case Return(slot, operand) =>
      operand.isFunctionPointer && id == slot && MayPointTo(p, ptrs, operand.value, f)
    case Call(ignored, callee, args) =>
      !ignored && exists g: Func, n | g < |p.functions| && 0 <= n < |args| ::
        PutsArgument(p, ptrs, callee, args, g, n, id, f)
  }

  ghost predicate PutsArgument(p: Program, ptrs: FuncPtrs, callee: Value, args: seq<Operand>, g: Func, n: nat,
                               id: Id, f: Func)
    requires ProgramOk(p) && g < |p.functions| && n < |args|
  {
    args[n].isFunctionPointer && id == ArgId(p, g, n)
    && MayPointTo(p, ptrs, callee, g) && MayPointTo(p, ptrs, args[n].value, f)
  }

  ghost predicate OccursIn(modules: seq<Module>, i: Instr) {
    exists m, k, j :: 0 <= m < |modules| && 0 <= k < |modules[m].functions|
                      && 0 <= j < |modules[m].functions[k]| && modules[m].functions[k][j] == i
  }

  lemma OccurringIsOk(p: Program, modules: seq<Module>, i: Instr)
    requires AllOk(p, modules) && OccursIn(modules, i)
    ensures InstrOk(p, i)
  {
    var m, k, j :| 0 <= m < |modules| && 0 <= k < |modules[m].functions|
                   && 0 <= j < |modules[m].functions[k]| && modules[m].functions[k][j] == i;
    assert BodyOk(p, modules[m].functions[k]);
  }

  ghost predicate PutBySome(p: Program, ptrs: FuncPtrs, modules: seq<Module>, id: Id, f: Func)
    requires ProgramOk(p) && AllOk(p, modules)
  {
    exists i :: OccursIn(modules, i) && (OccurringIsOk(p, modules, i); Puts(p, ptrs, i, id, f))
  }

  /** One round of steps from what `ptrs` has. */
  ghost function Step(p: Program, ptrs: FuncPtrs, modules: seq<Module>): FuncPtrs
    requires ProgramOk(p) && AllOk(p, modules)
  {
    map id | id in p.ids :: set f: Func | f < |p.functions| && Follows(p, ptrs, modules, id, f)
  }

  /** What has a derivation of height at most `n`: an initializer, or a store, return or argument
      step from what has a derivation of smaller height. */
  ghost function Derived(p: Program, modules: seq<Module>, n: nat): FuncPtrs
    requires ProgramOk(p) && AllOk(p, modules)
  {
    if n == 0 then map[] else Step(p, Derived(p, modules, n - 1), modules)
  }

  ghost predicate Follows(p: Program, ptrs: FuncPtrs, modules: seq<Module>, id: Id, f: Func)
    requires ProgramOk(p) && AllOk(p, modules)
  {
    Initializes(modules, id, f) || PutBySome(p, ptrs, modules, id, f)
  }

  ghost predicate Derivable(p: Program, modules: seq<Module>, id: Id, f: Func)
    requires ProgramOk(p) && AllOk(p, modules)
  {
    exists n: nat :: f in At(Derived(p, modules, n), id)
  }

  lemma PutsMonotone(p: Program, a: FuncPtrs, b: FuncPtrs, i: Instr, id: Id, f: Func)
    requires ProgramOk(p) && InstrOk(p, i) && Included(a, b) && Puts(p, a, i, id, f)
    ensures Puts(p, b, i, id, f)
  {
    match i
    case Store(_, operand) => MayPointToMonotone(p, a, b, operand.value, f);
    case Return(_, operand) => MayPointToMonotone(p, a, b, operand.value, f);
    case Call(_, callee, args) =>
      var g: Func, n :| g < |p.functions| && 0 <= n < |args| && PutsArgument(p, a, callee, args, g, n, id, f);
      MayPointToMonotone(p, a, b, callee, g);
      MayPointToMonotone(p, a, b, args[n].value, f);
      assert PutsArgument(p, b, callee, args, g, n, id, f);
  }

  lemma FollowsMonotone(p: Program, a: FuncPtrs, b: FuncPtrs, modules: seq<Module>, id: Id, f: Func)
    requires ProgramOk(p) && AllOk(p, modules) && Included(a, b) && Follows(p, a, modules, id, f)
    ensures Follows(p, b, modules, id, f)
  {
    if PutBySome(p, a, modules, id, f) {
      var i :| OccursIn(modules, i) && (OccurringIsOk(p, modules, i); Puts(p, a, i, id, f));
      OccurringIsOk(p, modules, i);
      PutsMonotone(p, a, b, i, id, f);
    }
  }

  lemma StepMonotone(p: Program, a: FuncPtrs, b: FuncPtrs, modules: seq<Module>)
    requires ProgramOk(p) && AllOk(p, modules) && Included(a, b)
    ensures Included(Step(p, a, modules), Step(p, b, modules))
  {
    forall id, f | id in Step(p, a, modules) && f in Step(p, a, modules)[id]
      ensures f in At(Step(p, b, modules), id)
    {
      FollowsMonotone(p, a, b, modules, id, f);
    }
  }

  /** What is derived at height `n` is contained in `b`. */
  ghost predicate Within(p: Program, modules: seq<Module>, n: nat, b: FuncPtrs)
    requires ProgramOk(p) && AllOk(p, modules)
  {
    Included(Derived(p, modules, n), b)
  }

  lemma WithinStart(p: Program, modules: seq<Module>, b: FuncPtrs)
    requires ProgramOk(p) && AllOk(p, modules)
    ensures Within(p, modules, 0, b)
  {
  }

  lemma WithinNext(p: Program, modules: seq<Module>, m: nat, n: nat, a: FuncPtrs, b: FuncPtrs)
    requires ProgramOk(p) && AllOk(p, modules) && n == m + 1 && Within(p, modules, m, a)
    requires Included(Step(p, a, modules), b)
    ensures Within(p, modules, n, b)
  {
    var d := Derived(p, modules, m);
    DerivedNext(p, modules, m, n);
    StepMonotone(p, d, a, modules);
    IncludedTransitive(Step(p, d, modules), Step(p, a, modules), b);
  }

  lemma DerivedNext(p: Program, modules: seq<Module>, m: nat, n: nat)
    requires ProgramOk(p) && AllOk(p, modules) && n == m + 1
    ensures Derived(p, modules, n) == Step(p, Derived(p, modules, m), modules)
  {
  }

  /** Height `k` has everything that height `n` has. */
  ghost predicate Grows(p: Program, modules: seq<Module>, n: nat, k: nat)
    requires ProgramOk(p) && AllOk(p, modules)
  {
    Within(p, modules, n, Derived(p, modules, k))
  }

  lemma GrowsStart(p: Program, modules: seq<Module>, k: nat)
    requires ProgramOk(p) && AllOk(p, modules)
    ensures Grows(p, modules, 0, k)
  {
    WithinStart(p, modules, Derived(p, modules, k));
  }

  lemma GrowsNext(p: Program, modules: seq<Module>, m: nat, l: nat, n: nat, k: nat)
    requires ProgramOk(p) && AllOk(p, modules) && Grows(p, modules, m, l) && n == m + 1 && k == l + 1
    ensures Grows(p, modules, n, k)
  {
    DerivedNext(p, modules, l, k);
    WithinNext(p, modules, m, n, Derived(p, modules, l), Derived(p, modules, k));
  }

  lemma {:induction false} DerivedGrows(p: Program, modules: seq<Module>, n: nat, k: nat)
    requires ProgramOk(p) && AllOk(p, modules) && n <= k
    ensures Grows(p, modules, n, k)
    decreases n
  {
    if n == 0 {
      GrowsStart(p, modules, k);
    } else {
      var m, l := n - 1, k - 1;
      DerivedGrows(p, modules, m, l);
      GrowsNext(p, modules, m, l, n, k);
    }
  }

  /** A solution has everything that one step puts from what it has. */
  lemma SolutionIsClosed(p: Program, other: FuncPtrs, modules: seq<Module>, id: Id, f: Func)
    requires ProgramOk(p) && AllOk(p, modules) && IsSolution(p, other, modules)
    requires Follows(p, other, modules, id, f)
    ensures f in At(other, id)
  {
    if !Initializes(modules, id, f) {
      var i :| OccursIn(modules, i) && (OccurringIsOk(p, modules, i); Puts(p, other, i, id, f));
      OccurringHolds(p, other, modules, i);
      if i.Call? {
        var g: Func, n :| g < |p.functions| && 0 <= n < |i.args|
          && PutsArgument(p, other, i.callee, i.args, g, n, id, f);
      }
    }
  }

  lemma OccurringHolds(p: Program, ptrs: FuncPtrs, modules: seq<Module>, i: Instr)
    requires ProgramOk(p) && AllOk(p, modules) && IsSolution(p, ptrs, modules) && OccursIn(modules, i)
    ensures InstrOk(p, i) && Holds(p, ptrs, i)
  {
    var m, k, j :| 0 <= m < |modules| && 0 <= k < |modules[m].functions|
                   && 0 <= j < |modules[m].functions[k]| && modules[m].functions[k][j] == i;
    OccurringIsOk(p, modules, i);
    assert SolvesModule(p, ptrs, modules[m]) && SolvesBody(p, ptrs, modules[m].functions[k]);
  }

  /** In a solution every instruction has had its effect: a store to a named slot, a return, and each
      argument of a call, in the parameter of that number of every function that may be called. */
  lemma SolutionMeaning(p: Program, ptrs: FuncPtrs, modules: seq<Module>, i: Instr, f: Func)
    requires ProgramOk(p) && AllOk(p, modules) && IsSolution(p, ptrs, modules) && OccursIn(modules, i)
    ensures i.Store? && i.id != Named("") && i.operand.isFunctionPointer && MayPointTo(p, ptrs, i.operand.value, f) ==>
      i.id in ptrs && f in ptrs[i.id]
    ensures i.Return? && i.operand.isFunctionPointer && MayPointTo(p, ptrs, i.operand.value, f) ==>
      i.id in ptrs && f in ptrs[i.id]
    ensures i.Call? && !i.ignored ==>
      forall g: Func, n | g < |p.functions| && MayPointTo(p, ptrs, i.callee, g) && 0 <= n < |i.args|
                          && i.args[n].isFunctionPointer && MayPointTo(p, ptrs, i.args[n].value, f) ::
        var id := Arg(p.functions[g].scope, n);
        id in ptrs && f in ptrs[id]
  {
    OccurringHolds(p, ptrs, modules, i);
    if i.Call? && !i.ignored {
      forall g: Func, n | g < |p.functions| && MayPointTo(p, ptrs, i.callee, g) && 0 <= n < |i.args|
                          && i.args[n].isFunctionPointer && MayPointTo(p, ptrs, i.args[n].value, f)
        ensures f in At(ptrs, Arg(p.functions[g].scope, n))
      {
        assert Covers(p, ptrs, i.args[n].value, ArgId(p, g, n));
      }
    }
  }

  ghost predicate IsClosed(p: Program, other: FuncPtrs, modules: seq<Module>)
    requires ProgramOk(p) && AllOk(p, modules)
  {
    forall id, f {:trigger Follows(p, other, modules, id, f)} | Follows(p, other, modules, id, f) :: f in At(other, id)
  }

  lemma SolutionsAreClosed(p: Program, other: FuncPtrs, modules: seq<Module>)
    requires ProgramOk(p) && AllOk(p, modules) && IsSolution(p, other, modules)
    ensures IsClosed(p, other, modules)
  {
    forall id, f | Follows(p, other, modules, id, f)
      ensures f in At(other, id)
    {
      SolutionIsClosed(p, other, modules, id, f);
    }
  }

  /** Steps from within a closed map stay within it. */
  lemma StepIsForced(p: Program, ptrs: FuncPtrs, other: FuncPtrs, modules: seq<Module>)
    requires ProgramOk(p) && AllOk(p, modules) && IsClosed(p, other, modules) && Included(ptrs, other)
    ensures Included(Step(p, ptrs, modules), other)
  {
    forall id, f | id in Step(p, ptrs, modules) && f in Step(p, ptrs, modules)[id]
      ensures f in At(other, id)
    {
      FollowsMonotone(p, ptrs, other, modules, id, f);
    }
  }

  /** Whatever has a derivation is in every closed map. */
  lemma {:induction false} DerivedIsForced(p: Program, other: FuncPtrs, modules: seq<Module>, n: nat)
    requires ProgramOk(p) && AllOk(p, modules) && IsClosed(p, other, modules)
    ensures Within(p, modules, n, other)
  {
    if n == 0 {
      WithinStart(p, modules, other);
    } else {
      var m := n - 1;
      DerivedIsForced(p, other, modules, m);
      StepIsForced(p, other, other, modules);
      WithinNext(p, modules, m, n, other, other);
    }
  }

  /** All that has a derivation. */
  ghost function AllDerivable(p: Program, modules: seq<Module>): FuncPtrs
    requires ProgramOk(p) && AllOk(p, modules)
  {
    map id | id in p.ids :: set f: Func | f < |p.functions| && Derivable(p, modules, id, f)
  }

  /** A value that points to something derivable does so at some height. */
  lemma PointsAtHeight(p: Program, modules: seq<Module>, v: Value, f: Func) returns (n: nat)
    requires ProgramOk(p) && AllOk(p, modules) && MayPointTo(p, AllDerivable(p, modules), v, f)
    ensures MayPointTo(p, Derived(p, modules, n), v, f)
  {
    var d := AllDerivable(p, modules);
    var chain :| Delivers(p, d, v, {}, f, chain);
    var last := chain[|chain| - 1];
    n := 0;
    if p.values[last].Slot? {
      assert f in At(d, p.values[last].id);
      n :| f in At(Derived(p, modules, n), p.values[last].id);
    }
    assert Delivers(p, Derived(p, modules, n), v, {}, f, chain);
  }

  /** A function that some value points to is a function of the program. */
  lemma PointsToFunction(p: Program, ptrs: FuncPtrs, v: Value, f: Func)
    requires ProgramOk(p) && MayPointTo(p, ptrs, v, f)
    requires forall id, g | id in ptrs && g in ptrs[id] :: g < |p.functions|
    ensures f < |p.functions|
  {
    var chain :| Delivers(p, ptrs, v, {}, f, chain);
    var last := chain[|chain| - 1];
    assert f in Contribution(p, ptrs, last);
  }

  /** One step from what is derivable is derivable. */
  lemma StepIsDerivable(p: Program, modules: seq<Module>, n: nat, id: Id, f: Func)
    requires ProgramOk(p) && AllOk(p, modules) && id in p.ids && f < |p.functions|
    requires Follows(p, Derived(p, modules, n), modules, id, f)
    ensures Derivable(p, modules, id, f)
  {
    assert f in At(Derived(p, modules, n + 1), id);
  }

  /** The instruction puts `f` into the slot from what has a derivation of some height. */
  ghost predicate PutsSometime(p: Program, modules: seq<Module>, i: Instr, id: Id, f: Func)
    requires ProgramOk(p) && AllOk(p, modules) && InstrOk(p, i)
  {
    exists k: nat :: Puts(p, Derived(p, modules, k), i, id, f)
  }

  lemma PutIsDerivable(p: Program, modules: seq<Module>, i: Instr, id: Id, f: Func)
    requires ProgramOk(p) && AllOk(p, modules) && OccursIn(modules, i) && InstrOk(p, i) && id in p.ids
    requires f < |p.functions| && PutsSometime(p, modules, i, id, f)
    ensures f in At(AllDerivable(p, modules), id)
  {
    var k: nat :| Puts(p, Derived(p, modules, k), i, id, f);
    assert PutBySome(p, Derived(p, modules, k), modules, id, f);
    StepIsDerivable(p, modules, k, id, f);
  }

  lemma ArgumentPut(p: Program, modules: seq<Module>, i: Instr, g: Func, n: nat, f: Func, h: nat, k: nat)
    requires ProgramOk(p) && AllOk(p, modules) && InstrOk(p, i) && i.Call? && !i.ignored
    requires g < |p.functions| && n < |i.args| && i.args[n].isFunctionPointer
    requires MayPointTo(p, Derived(p, modules, h), i.callee, g)
    requires MayPointTo(p, Derived(p, modules, k), i.args[n].value, f)
    ensures PutsSometime(p, modules, i, ArgId(p, g, n), f)
  {
    var m := if h < k then k else h;
    DerivedGrows(p, modules, h, m);
    DerivedGrows(p, modules, k, m);
    var d := Derived(p, modules, m);
    MayPointToMonotone(p, Derived(p, modules, h), d, i.callee, g);
    MayPointToMonotone(p, Derived(p, modules, k), d, i.args[n].value, f);
    assert PutsArgument(p, d, i.callee, i.args, g, n, ArgId(p, g, n), f);
    assert Puts(p, d, i, ArgId(p, g, n), f);
  }

  lemma ArgumentCovered(p: Program, modules: seq<Module>, i: Instr, g: Func, n: nat)
    requires ProgramOk(p) && AllOk(p, modules) && OccursIn(modules, i) && InstrOk(p, i) && i.Call? && !i.ignored
    requires g < |p.functions| && n < |i.args| && i.args[n].isFunctionPointer
    requires MayPointTo(p, AllDerivable(p, modules), i.callee, g)
    ensures Covers(p, AllDerivable(p, modules), i.args[n].value, ArgId(p, g, n))
  {
    forall f | MayPointTo(p, AllDerivable(p, modules), i.args[n].value, f)
      ensures f in At(AllDerivable(p, modules), ArgId(p, g, n))
    {
      PointsToFunction(p, AllDerivable(p, modules), i.args[n].value, f);
      var h := PointsAtHeight(p, modules, i.callee, g);
      var k := PointsAtHeight(p, modules, i.args[n].value, f);
      ArgumentPut(p, modules, i, g, n, f, h, k);
      PutIsDerivable(p, modules, i, ArgId(p, g, n), f);
    }
  }

  /** The operand of a store or a return. */
  lemma OperandCovered(p: Program, modules: seq<Module>, i: Instr)
    requires ProgramOk(p) && AllOk(p, modules) && OccursIn(modules, i) && InstrOk(p, i) && !i.Call?
    requires i.operand.isFunctionPointer && (i.Store? ==> i.id != UNNAMED)
    ensures Covers(p, AllDerivable(p, modules), i.operand.value, i.id)
  {
    forall f | MayPointTo(p, AllDerivable(p, modules), i.operand.value, f)
      ensures f in At(AllDerivable(p, modules), i.id)
    {
      PointsToFunction(p, AllDerivable(p, modules), i.operand.value, f);
      var k := PointsAtHeight(p, modules, i.operand.value, f);
      assert Puts(p, Derived(p, modules, k), i, i.id, f);
      PutIsDerivable(p, modules, i, i.id, f);
    }
  }

  lemma DerivableHolds(p: Program, modules: seq<Module>, i: Instr)
    requires ProgramOk(p) && AllOk(p, modules) && OccursIn(modules, i) && InstrOk(p, i)
    ensures Holds(p, AllDerivable(p, modules), i)
  {
    var d := AllDerivable(p, modules);
    match i
    case Store(id, operand) =>
      if operand.isFunctionPointer && id != UNNAMED { OperandCovered(p, modules, i); }
    case Return(id, operand) =>
      if operand.isFunctionPointer { OperandCovered(p, modules, i); }
    case Call(ignored, callee, args) =>
      forall g: Func, n | !ignored && g < |p.functions| && MayPointTo(p, d, callee, g) && 0 <= n < |args|
                          && args[n].isFunctionPointer
        ensures Covers(p, d, args[n].value, ArgId(p, g, n))
      {
        ArgumentCovered(p, modules, i, g, n);
      }
  }

  /** What is derivable satisfies every constraint. */
  lemma DerivableIsSolution(p: Program, modules: seq<Module>)
    requires ProgramOk(p) && AllOk(p, modules)
    ensures IsSolution(p, AllDerivable(p, modules), modules)
  {
    var d := AllDerivable(p, modules);
    forall m, i | 0 <= m < |modules| && 0 <= i < |modules[m].initializers|
      ensures modules[m].initializers[i].1 in At(d, modules[m].initializers[i].0)
    {
      var (id, f) := modules[m].initializers[i];
      assert ModuleOk(p, modules[m]) && Initializes(modules, id, f);
      StepIsDerivable(p, modules, 0, id, f);
    }
    forall m, k, j | 0 <= m < |modules| && 0 <= k < |modules[m].functions| && 0 <= j < |modules[m].functions[k]|
      ensures InstrOk(p, modules[m].functions[k][j]) && Holds(p, d, modules[m].functions[k][j])
    {
      assert OccursIn(modules, modules[m].functions[k][j]);
      OccurringIsOk(p, modules, modules[m].functions[k][j]);
      DerivableHolds(p, modules, modules[m].functions[k][j]);
    }
    forall m | 0 <= m < |modules|
      ensures SolvesModule(p, d, modules[m])
    {
      forall k | 0 <= k < |modules[m].functions|
        ensures SolvesBody(p, d, modules[m].functions[k])
      {
      }
    }
  }

  /** The least solution is exactly what has a derivation. */
  lemma LeastIsDerivable(p: Program, ptrs: FuncPtrs, modules: seq<Module>)
    requires ProgramOk(p) && AllOk(p, modules) && IsLeastSolution(p, ptrs, modules)
    ensures forall id, f :: f in At(ptrs, id) <==> Derivable(p, modules, id, f)
  {
    DerivableIsSolution(p, modules);
    SolutionsAreClosed(p, ptrs, modules);
    assert Included(ptrs, AllDerivable(p, modules));
    forall id, f | Derivable(p, modules, id, f)
      ensures f in At(ptrs, id)
    {
      var n: nat :| f in At(Derived(p, modules, n), id);
      DerivedIsForced(p, ptrs, modules, n);
    }
    forall id, f | f in At(ptrs, id)
      ensures Derivable(p, modules, id, f)
    {
      assert f in At(AllDerivable(p, modules), id);
    }
  }

  // ------------------------------------------------------------------ the pass

  ghost function Facts(ptrs: FuncPtrs): set<(Id, Func)> {
    set id, f | id in ptrs && f in ptrs[id] :: (id, f)
  }

  ghost function AllFacts(p: Program): set<(Id, Func)> {
    set id, f: Func | id in p.ids && f < |p.functions| :: (id, f)
  }

  ghost predicate WithinProgram(p: Program, ptrs: FuncPtrs) {
    Facts(ptrs) <= AllFacts(p)
  }

  /** Every solution that covers `before` also covers `after`. */
  ghost predicate Forced(p: Program, before: FuncPtrs, after: FuncPtrs, body: seq<Instr>)
    requires ProgramOk(p) && BodyOk(p, body)
  {
    forall other | Included(before, other) && SolvesBody(p, other, body) :: Included(after, other)
  }

  lemma CollectWithin(p: Program, ptrs: FuncPtrs, v: Value)
    requires ProgramOk(p) && v < |p.values| && WithinProgram(p, ptrs)
    ensures forall f | f in Collect(p, ptrs, v, {}) :: f < |p.functions|
  {
    forall f | f in Collect(p, ptrs, v, {})
      ensures f < |p.functions|
    {
      var chain := CollectedIsDelivered(p, ptrs, v, {}, f);
      var u := chain[|chain| - 1];
      match p.values[u]
      case Slot(id) => assert (id, f) in Facts(ptrs);
      case _ =>
    }
  }

  /** Add functions to a slot, creating it if need be. */
  function Extend(ptrs: FuncPtrs, id: Id, fs: set<Func>): FuncPtrs {
    ptrs[id := At(ptrs, id) + fs]
  }

  lemma ExtendFacts(p: Program, ptrs: FuncPtrs, id: Id, fs: set<Func>)
    ensures Included(ptrs, Extend(ptrs, id, fs)) && fs <= At(Extend(ptrs, id, fs), id)
    ensures Facts(Extend(ptrs, id, fs)) == Facts(ptrs) + set f | f in fs :: (id, f)
    ensures WithinProgram(p, ptrs) && id in p.ids && (forall f | f in fs :: f < |p.functions|) ==>
              WithinProgram(p, Extend(ptrs, id, fs))
    ensures fs <= At(ptrs, id) ==> forall i :: At(Extend(ptrs, id, fs), i) == At(ptrs, i)
  {
    var after := Extend(ptrs, id, fs);
    forall i, f
      ensures (i, f) in Facts(after) <==> (i, f) in Facts(ptrs) || (i == id && f in fs)
    {
    }
  }

  class CallGraphPass {
    var p: Program
    var funcPtrs: FuncPtrs

    constructor (p: Program)
      requires ProgramOk(p)
      ensures this.p == p && funcPtrs == map[]
    {
      this.p, funcPtrs := p, map[];
    }

    ghost predicate Valid()
      reads this
    {
      ProgramOk(p) && WithinProgram(p, funcPtrs)
    }

    /** Add the contents of a slot to `s`. */
    method MergeFuncSet(s: set<Func>, src: set<Func>) returns (r: set<Func>, changed: bool)
      ensures r == s + src && (changed <==> r != s)
    {
      r, changed := s, false;
      var rest := src;
      ghost var done := {};
      while rest != {}
        invariant done + rest == src && r == s + done
        invariant changed <==> !(done <= s)
        decreases |rest|
      {
        var f :| f in rest;
        changed := changed || f !in r;
        r, rest := r + {f}, rest - {f};
        done := done + {f};
      }
    }

    /** Search from `v`, adding to `s`; says whether `s` grew. */
    method FindFunctions(v: Value, s: set<Func>, visited: set<Value>) returns (r: set<Func>, changed: bool)
      requires ProgramOk(p) && v < |p.values|
      ensures r == s + Collect(p, funcPtrs, v, visited)
      ensures changed <==> r != s
      decreases Unvisited(p, visited), 1
    {
      if v in visited {
        return s, false;
      }
      FewerUnvisited(p, visited, v);
      CollectSplits(p, funcPtrs, v, visited);
      match p.values[v] {
        case FunctionRef(f) =>
          var target := Resolve(p, f);
          r, changed := s + {target}, target !in s;
        case Slot(id) =>
          if id in funcPtrs {
            r, changed := MergeFuncSet(s, funcPtrs[id]);
          } else {
            r, changed := s, false;
          }
        case Other =>
          r, changed := s, false;
        case _ =>
          r, changed := FindInAll(Next(p, v), s, visited + {v});
      }
    }

    /** The callees recorded for a call once the iteration is over. */
    method CalleesOf(callee: Value) returns (fs: set<Func>)
      requires ProgramOk(p) && callee < |p.values|
      ensures forall f :: f in fs <==> MayPointTo(p, funcPtrs, callee, f)
    {
      var any: bool;
      fs, any := FindFunctions(callee, {}, {});
      forall f
        ensures f in fs <==> MayPointTo(p, funcPtrs, callee, f)
      {
        CollectExact(p, funcPtrs, callee, f);
      }
    }

    method FindInAll(vs: seq<Value>, s: set<Func>, visited: set<Value>) returns (r: set<Func>, changed: bool)
      requires ProgramOk(p) && AllValid(p, vs)
      ensures r == s + CollectAll(p, funcPtrs, vs, visited)
      ensures changed <==> r != s
      decreases Unvisited(p, visited), 2
    {
      r, changed := s, false;
      var i := 0;
      while i < |vs|
        invariant i <= |vs|
        invariant r == s + CollectAll(p, funcPtrs, vs[..i], visited)
        invariant changed <==> r != s
      {
        assert vs[..i + 1][..i] == vs[..i];
        var grew: bool;
        r, grew := FindFunctions(vs[i], r, visited);
        changed := changed || grew;
        i := i + 1;
      }
      assert vs[..|vs|] == vs;
    }

    /** Put functions into a slot. */
    method Merge(id: Id, fs: set<Func>) returns (changed: bool)
      requires Valid() && id in p.ids && forall f | f in fs :: f < |p.functions|
      modifies this`funcPtrs
      ensures Valid() && funcPtrs == Extend(old(funcPtrs), id, fs)
      ensures changed <==> Facts(funcPtrs) != old(Facts(funcPtrs))
    {
      var s, grew := MergeFuncSet(At(funcPtrs, id), fs);
      ExtendFacts(p, funcPtrs, id, fs);
      NewFacts(funcPtrs, id, fs);
      funcPtrs := funcPtrs[id := s];
      changed := grew;
    }

    /** A store or a return: the slot takes over everything the value may point to. */
    method Assign(id: Id, v: Value) returns (changed: bool)
      requires Valid() && v < |p.values| && id in p.ids
      modifies this`funcPtrs
      ensures Valid() && Included(old(funcPtrs), funcPtrs)
      ensures changed <==> Facts(funcPtrs) != old(Facts(funcPtrs))
      ensures !changed ==> Covers(p, funcPtrs, v, id)
      ensures forall other | Included(old(funcPtrs), other) && Covers(p, other, v, id) :: Included(funcPtrs, other)
    {
      var fs := Collect(p, funcPtrs, v, {});
      var s, grew := FindFunctions(v, At(funcPtrs, id), {});
      CollectWithin(p, funcPtrs, v);
      ExtendFacts(p, funcPtrs, id, fs);
      NewFacts(funcPtrs, id, fs);
      ghost var before := funcPtrs;
      funcPtrs := funcPtrs[id := s];
      changed := grew;
      if !changed {
        CoversWhenUnchanged(p, before, funcPtrs, v, id);
      }
      forall other | Included(before, other) && Covers(p, other, v, id)
        ensures Included(funcPtrs, other)
      {
        CollectedIsCovered(p, before, other, v, id);
      }
    }

    /** A call: every function that may be called receives what the arguments may point to. */
    method PassArguments(callee: Value, args: seq<Operand>) returns (changed: bool)
      requires Valid() && InstrOk(p, Call(false, callee, args))
      modifies this`funcPtrs
      ensures Valid() && Included(old(funcPtrs), funcPtrs)
      ensures changed <==> Facts(funcPtrs) != old(Facts(funcPtrs))
      ensures !changed ==> Holds(p, funcPtrs, Call(false, callee, args))
      ensures forall other | Included(old(funcPtrs), other) && Holds(p, other, Call(false, callee, args)) ::
                Included(funcPtrs, other)
    {
      changed := false;
      var targets, any := FindFunctions(callee, {}, {});
      CollectWithin(p, funcPtrs, callee);
      ghost var before := funcPtrs;
      if !any {
        NoTargets(p, funcPtrs, callee, args);
        return;
      }
      changed := PassToTargets(callee, args, targets, before);
      if !changed {
        CallHolds(p, before, funcPtrs, callee, args, targets);
      }
    }

    /** One argument after the other. */
    method PassToTargets(callee: Value, args: seq<Operand>, targets: set<Func>, ghost before: FuncPtrs)
      returns (changed: bool)
      requires Valid() && InstrOk(p, Call(false, callee, args)) && before == funcPtrs
      requires targets == Collect(p, before, callee, {}) && forall g | g in targets :: g < |p.functions|
      modifies this`funcPtrs
      ensures Valid() && Included(before, funcPtrs)
      ensures changed <==> Facts(funcPtrs) != Facts(before)
      ensures !changed ==> ArgumentsCovered(p, funcPtrs, args, targets, |args|)
      ensures OnlyForced(before, Call(false, callee, args))
    {
      changed := false;
      var n := 0;
      while n < |args|
        invariant n <= |args| && Valid() && Included(before, funcPtrs)
        invariant changed <==> Facts(funcPtrs) != Facts(before)
        invariant !changed ==> ArgumentsCovered(p, funcPtrs, args, targets, n)
        invariant OnlyForced(before, Call(false, callee, args))
      {
        ghost var mid := funcPtrs;
        if args[n].isFunctionPointer {
          var grew := PassArgument(callee, args, n, targets, before);
          Advance(before, mid, funcPtrs, changed, grew);
          if !changed && !grew {
            ArgumentsStayCovered(p, mid, funcPtrs, args, targets, n);
          }
          changed := changed || grew;
        }
        n := n + 1;
      }
    }

    /** Everything added since `before` is in every solution of the instruction. */
    ghost predicate OnlyForced(before: FuncPtrs, i: Instr)
      requires ProgramOk(p) && InstrOk(p, i)
      reads this
    {
      forall other | Included(before, other) && Holds(p, other, i) :: Included(funcPtrs, other)
    }

    method PassArgument(callee: Value, args: seq<Operand>, n: nat, targets: set<Func>, ghost before: FuncPtrs)
      returns (changed: bool)
      requires Valid() && InstrOk(p, Call(false, callee, args))
      requires n < |args| && args[n].isFunctionPointer
      requires targets == Collect(p, before, callee, {}) && forall g | g in targets :: g < |p.functions|
      requires Included(before, funcPtrs) && OnlyForced(before, Call(false, callee, args))
      modifies this`funcPtrs
      ensures Valid() && Included(old(funcPtrs), funcPtrs) && Included(before, funcPtrs)
      ensures changed <==> Facts(funcPtrs) != old(Facts(funcPtrs))
      ensures !changed ==> CoversAll(p, funcPtrs, args[n].value, targets, n)
      ensures OnlyForced(before, Call(false, callee, args))
    {
      changed := false;
      var v := args[n].value;
      ghost var start := funcPtrs;
      var found, any := FindFunctions(v, {}, {});
      CollectWithin(p, funcPtrs, v);
      if !any {
        forall g | g in targets
          ensures Covers(p, funcPtrs, v, ArgId(p, g, n))
        {
          CoversWhenUnchanged(p, start, funcPtrs, v, ArgId(p, g, n));
        }
        return;
      }
      changed := MergeIntoArguments(targets, n, found);
      if !changed {
        forall g | g in targets
          ensures Covers(p, funcPtrs, v, ArgId(p, g, n))
        {
          CoversWhenUnchanged(p, start, funcPtrs, v, ArgId(p, g, n));
        }
      }
      IncludedTransitive(before, start, funcPtrs);
      forall other | Included(before, other) && Holds(p, other, Call(false, callee, args))
        ensures Included(funcPtrs, other)
      {
        ForcedArgument(p, before, start, other, callee, args, n, targets);
      }
    }

    /** Parameter `n` of each of the targets receives the functions `found`. */
    method MergeIntoArguments(targets: set<Func>, n: nat, found: set<Func>) returns (changed: bool)
      requires Valid() && forall f | f in found :: f < |p.functions|
      requires forall g | g in targets :: g < |p.functions| && ArgId(p, g, n) in p.ids
      modifies this`funcPtrs
      ensures Valid() && Included(old(funcPtrs), funcPtrs)
      ensures changed <==> Facts(funcPtrs) != old(Facts(funcPtrs))
      ensures Receive(p, funcPtrs, targets, n, found)
      ensures OnlyReceived(p, old(funcPtrs), funcPtrs, targets, n, found)
    {
      changed := false;
      ghost var start := funcPtrs;
      var rest := targets;
      ghost var done := {};
      while rest != {}
        invariant done + rest == targets && Valid() && Included(start, funcPtrs)
        invariant changed <==> Facts(funcPtrs) != Facts(start)
        invariant Receive(p, funcPtrs, done, n, found)
        invariant OnlyReceived(p, start, funcPtrs, targets, n, found)
        decreases |rest|
      {
        var g :| g in rest;
        ghost var mid := funcPtrs;
        var grew := Merge(ArgId(p, g, n), found);
        ReceiveMore(p, start, mid, targets, done, g, n, found);
        Advance(start, mid, funcPtrs, changed, grew);
        changed := changed || grew;
        rest, done := rest - {g}, done + {g};
      }
      assert done == targets;
    }

    method RunOnFunction(body: seq<Instr>) returns (changed: bool)
      requires Valid() && BodyOk(p, body)
      modifies this`funcPtrs
      ensures Valid() && Included(old(funcPtrs), funcPtrs)
      ensures changed <==> Facts(funcPtrs) != old(Facts(funcPtrs))
      ensures !changed ==> SolvesBody(p, funcPtrs, body)
      ensures Forced(p, old(funcPtrs), funcPtrs, body)
    {
      changed := false;
      ghost var before := funcPtrs;
      var i := 0;
      while i < |body|
        invariant i <= |body| && Valid() && Included(before, funcPtrs)
        invariant changed <==> Facts(funcPtrs) != Facts(before)
        invariant !changed ==> HoldUpTo(p, funcPtrs, body, i)
        invariant Forced(p, before, funcPtrs, body)
      {
        ghost var mid := funcPtrs;
        var grew := RunOnInstruction(body[i]);
        Advance(before, mid, funcPtrs, changed, grew);
        if !changed && !grew {
          OneMoreHolds(p, mid, funcPtrs, body, i);
        }
        changed := changed || grew;
        i := i + 1;
      }
    }

    method RunOnInstruction(i: Instr) returns (changed: bool)
      requires Valid() && InstrOk(p, i)
      modifies this`funcPtrs
      ensures Valid() && Included(old(funcPtrs), funcPtrs)
      ensures changed <==> Facts(funcPtrs) != old(Facts(funcPtrs))
      ensures !changed ==> Holds(p, funcPtrs, i)
      ensures OnlyForced(old(funcPtrs), i)
    {
      changed := false;
      match i {
        case Store(id, operand) =>
          if operand.isFunctionPointer && id != UNNAMED {
            changed := Assign(id, operand.value);
          }
        case Return(id, operand) =>
          if operand.isFunctionPointer {
            changed := Assign(id, operand.value);
          }
        case Call(ignored, callee, args) =>
          if !ignored {
            changed := PassArguments(callee, args);
          }
      }
    }

    /** Run all functions of a module until none adds anything. */
    method DoModulePass(m: Module) returns (ret: bool)
      requires Valid() && ModuleOk(p, m)
      modifies this`funcPtrs
      ensures Valid() && Included(old(funcPtrs), funcPtrs)
      ensures ret <==> Facts(funcPtrs) != old(Facts(funcPtrs))
      ensures SolvesModule(p, funcPtrs, m)
      ensures ForcedByModule(p, old(funcPtrs), funcPtrs, m)
    {
      ret := false;
      ghost var before := funcPtrs;
      var changed := true;
      while changed
        invariant Valid() && Included(before, funcPtrs)
        invariant ret <==> Facts(funcPtrs) != Facts(before)
        invariant !changed ==> SolvesModule(p, funcPtrs, m)
        invariant ForcedByModule(p, before, funcPtrs, m)
        decreases AllFacts(p) - Facts(funcPtrs), changed
      {
        ghost var mid := funcPtrs;
        changed := RunAllFunctions(m);
        IncludedFacts(mid, funcPtrs);
        Advance(before, mid, funcPtrs, ret, changed);
        ret := ret || changed;
      }
    }

    /** One round over the functions of a module. */
    method RunAllFunctions(m: Module) returns (changed: bool)
      requires Valid() && ModuleOk(p, m)
      modifies this`funcPtrs
      ensures Valid() && Included(old(funcPtrs), funcPtrs)
      ensures changed <==> Facts(funcPtrs) != old(Facts(funcPtrs))
      ensures !changed ==> SolvesModule(p, funcPtrs, m)
      ensures ForcedByModule(p, old(funcPtrs), funcPtrs, m)
    {
      changed := false;
      ghost var before := funcPtrs;
      var k := 0;
      while k < |m.functions|
        invariant k <= |m.functions| && Valid() && Included(before, funcPtrs)
        invariant changed <==> Facts(funcPtrs) != Facts(before)
        invariant !changed ==> SolvesBodiesUpTo(p, funcPtrs, m, k)
        invariant ForcedByModule(p, before, funcPtrs, m)
      {
        ghost var mid := funcPtrs;
        var grew := RunOnFunction(m.functions[k]);
        Advance(before, mid, funcPtrs, changed, grew);
        if !changed && !grew {
          OneMoreSolved(p, mid, funcPtrs, m, k);
        }
        changed := changed || grew;
        k := k + 1;
      }
    }

    /** Enter the definitions of a module into the table. */
    method CollectDefinitions(m: Module)
      requires Valid() && ModuleOk(p, m)
      modifies this`p
      ensures Valid() && p == old(p).(definitions := WithMembers(old(p), m.members, |m.members|))
    {
      var table := p.definitions;
      var n := 0;
      while n < |m.members|
        invariant n <= |m.members| && p == old(p) && table == WithMembers(p, m.members, n)
      {
        var f := p.functions[m.members[n]];
        if f.external && f.defined {
          table := table[f.name := m.members[n]];
        }
        n := n + 1;
      }
      MembersOk(p, m.members, |m.members|);
      p := p.(definitions := table);
    }

    /** Prepare for the iteration over a module. */
    method DoInitialization(m: Module)
      requires Valid() && ModuleOk(p, m)
      modifies this
      ensures Valid() && p == old(p).(definitions := WithMembers(old(p), m.members, |m.members|))
      ensures Included(old(funcPtrs), funcPtrs) && Initialized(funcPtrs, [m])
      ensures OnlyInitializers(old(funcPtrs), funcPtrs, m)
    {
      ProcessInitializers(m);
      CollectDefinitions(m);
    }

    /** Enter the function pointers of a module's global initializers. */
    method ProcessInitializers(m: Module)
      requires Valid() && ModuleOk(p, m)
      modifies this`funcPtrs
      ensures Valid() && Included(old(funcPtrs), funcPtrs) && Initialized(funcPtrs, [m])
      ensures OnlyInitializers(old(funcPtrs), funcPtrs, m)
    {
      ghost var before := funcPtrs;
      var i := 0;
      while i < |m.initializers|
        invariant i <= |m.initializers| && Valid() && Included(before, funcPtrs)
        invariant forall j | 0 <= j < i :: m.initializers[j].1 in At(funcPtrs, m.initializers[j].0)
        invariant OnlyInitializers(before, funcPtrs, m)
      {
        var (id, f) := m.initializers[i];
        ghost var mid := funcPtrs;
        var grew := Merge(id, {f});
        ExtendFacts(p, mid, id, {f});
        InitializerIsForced(before, mid, m, i);
        i := i + 1;
      }
    }

    /** The whole pass: all modules in turn, until a round changes nothing. */
    method Run(modules: seq<Module>)
      requires ProgramOk(p) && funcPtrs == map[]
      requires forall m | 0 <= m < |modules| :: ModuleOk(p, modules[m])
      modifies this
      ensures Valid() && p == Linked(old(p), modules, |modules|) && AllOk(p, modules)
      ensures IsLeastSolution(p, funcPtrs, modules) && IsResult(old(p), funcPtrs, modules)
      ensures forall id, f :: f in At(funcPtrs, id) <==> Derivable(p, modules, id, f)
    {
      InitializeAll(modules);
      IterateToSolution(modules);
      LeastIsDerivable(p, funcPtrs, modules);
    }

    /** All initializers and definitions, before any function is looked at. */
    method InitializeAll(modules: seq<Module>)
      requires ProgramOk(p) && AllOk(p, modules) && funcPtrs == map[]
      modifies this
      ensures Valid() && p == Linked(old(p), modules, |modules|) && AllOk(p, modules)
      ensures Initialized(funcPtrs, modules)
      ensures BelowInitialized(funcPtrs, modules)
    {
      ghost var first := p;
      var i := 0;
      while i < |modules|
        invariant i <= |modules| && Valid() && AllOk(p, modules)
        invariant p == Linked(first, modules, i)
        invariant Initialized(funcPtrs, modules[..i])
        invariant BelowInitialized(funcPtrs, modules)
      {
        ghost var mid, before := funcPtrs, p;
        DoInitialization(modules[i]);
        LinkedNext(first, modules, i, i + 1);
        StillOk(before, p, modules);
        OneMoreInitialized(mid, funcPtrs, modules, i);
        InitializersAreForced(mid, funcPtrs, modules, i);
        i := i + 1;
      }
      assert modules[..|modules|] == modules;
    }

    /** Rounds over all modules until one changes nothing. */
    method IterateToSolution(modules: seq<Module>)
      requires Valid() && AllOk(p, modules) && Initialized(funcPtrs, modules)
      requires BelowInitialized(funcPtrs, modules)
      modifies this`funcPtrs
      ensures Valid() && IsLeastSolution(p, funcPtrs, modules)
    {
      var changed := true;
      while changed
        invariant Valid() && Initialized(funcPtrs, modules)
        invariant !changed ==> Solves(p, funcPtrs, modules)
        invariant BelowSolutions(p, funcPtrs, modules)
        decreases AllFacts(p) - Facts(funcPtrs), changed
      {
        ghost var mid := funcPtrs;
        changed := RunAllModules(modules);
        IncludedFacts(mid, funcPtrs);
      }
    }

    /** One round over all modules. */
    method RunAllModules(modules: seq<Module>) returns (changed: bool)
      requires Valid() && AllOk(p, modules) && Initialized(funcPtrs, modules)
      requires BelowSolutions(p, funcPtrs, modules)
      modifies this`funcPtrs
      ensures Valid() && Included(old(funcPtrs), funcPtrs) && Initialized(funcPtrs, modules)
      ensures changed <==> Facts(funcPtrs) != old(Facts(funcPtrs))
      ensures !changed ==> Solves(p, funcPtrs, modules)
      ensures BelowSolutions(p, funcPtrs, modules)
    {
      changed := false;
      ghost var before := funcPtrs;
      var i := 0;
      while i < |modules|
        invariant i <= |modules| && Valid() && Included(before, funcPtrs) && Initialized(funcPtrs, modules)
        invariant changed <==> Facts(funcPtrs) != Facts(before)
        invariant !changed ==> SolvesUpTo(p, funcPtrs, modules, i)
        invariant BelowSolutions(p, funcPtrs, modules)
      {
        ghost var mid := funcPtrs;
        var ret := DoModulePass(modules[i]);
        Advance(before, mid, funcPtrs, changed, ret);
        StillInitialized(mid, funcPtrs, modules);
        if !changed && !ret {
          OneMoreModuleSolved(p, mid, funcPtrs, modules, i);
        }
        changed := changed || ret;
        i := i + 1;
      }
    }
  }

  /** Whether modules are well formed does not depend on the table. */
  lemma StillOk(p: Program, q: Program, modules: seq<Module>)
    requires AllOk(p, modules) && q == p.(definitions := q.definitions)
    ensures AllOk(q, modules)
  {
    forall m | 0 <= m < |modules|
      ensures ModuleOk(q, modules[m])
    {
      forall k, i | 0 <= k < |modules[m].functions| && 0 <= i < |modules[m].functions[k]|
        ensures InstrOk(q, modules[m].functions[k][i])
      {
        assert BodyOk(p, modules[m].functions[k]) && InstrOk(p, modules[m].functions[k][i]);
        SameInstrOk(p, q, modules[m].functions[k][i]);
      }
    }
  }

  lemma SameInstrOk(p: Program, q: Program, i: Instr)
    requires InstrOk(p, i) && q == p.(definitions := q.definitions)
    ensures InstrOk(q, i)
  {
    if i.Call? {
      forall f: Func, n | f < |q.functions| && 0 <= n < |i.args|
        ensures ArgId(q, f, n) in q.ids
      {
        assert ArgId(q, f, n) == ArgId(p, f, n);
      }
    }
  }

  /** Every map with the initializers of `m` that covers `before` also covers `after`. */
  ghost predicate OnlyInitializers(before: FuncPtrs, after: FuncPtrs, m: Module) {
    forall other | Included(before, other) && Initialized(other, [m]) :: Included(after, other)
  }

  /** Every map with all initializers covers `ptrs`. */
  ghost predicate BelowInitialized(ptrs: FuncPtrs, modules: seq<Module>) {
    forall other | Initialized(other, modules) :: Included(ptrs, other)
  }

  lemma InitializerIsForced(before: FuncPtrs, mid: FuncPtrs, m: Module, i: nat)
    requires i < |m.initializers| && OnlyInitializers(before, mid, m)
    ensures OnlyInitializers(before, Extend(mid, m.initializers[i].0, {m.initializers[i].1}), m)
  {
    var (id, f) := m.initializers[i];
    forall other | Included(before, other) && Initialized(other, [m])
      ensures Included(Extend(mid, id, {f}), other)
    {
      assert Included(mid, other);
      assert [m][0].initializers[i].1 in At(other, [m][0].initializers[i].0);
    }
  }

  lemma InitializersAreForced(mid: FuncPtrs, after: FuncPtrs, modules: seq<Module>, i: nat)
    requires i < |modules| && BelowInitialized(mid, modules) && OnlyInitializers(mid, after, modules[i])
    ensures BelowInitialized(after, modules)
  {
    forall other | Initialized(other, modules)
      ensures Included(after, other)
    {
      assert Initialized(other, [modules[i]]);
    }
  }

  lemma OneMoreInitialized(before: FuncPtrs, after: FuncPtrs, modules: seq<Module>, i: nat)
    requires i < |modules| && Initialized(before, modules[..i]) && Included(before, after)
    requires Initialized(after, [modules[i]])
    ensures Initialized(after, modules[..i + 1])
  {
    forall m, j | 0 <= m < i + 1 && 0 <= j < |modules[m].initializers|
      ensures modules[m].initializers[j].1 in At(after, modules[m].initializers[j].0)
    {
      if m < i {
        var init := modules[..i][m].initializers[j];
        assert init.1 in At(before, init.0);
      } else {
        assert [modules[i]][0].initializers[j].1 in At(after, [modules[i]][0].initializers[j].0);
      }
    }
  }

  ghost predicate CoversAll(p: Program, ptrs: FuncPtrs, v: Value, targets: set<Func>, n: nat)
    requires ProgramOk(p)
  {
    forall g | g in targets && g < |p.functions| :: Covers(p, ptrs, v, ArgId(p, g, n))
  }

  /** The targets' parameters hold what the first `n` arguments may point to. */
  ghost predicate ArgumentsCovered(p: Program, ptrs: FuncPtrs, args: seq<Operand>, targets: set<Func>, n: nat)
    requires ProgramOk(p) && n <= |args|
  {
    forall k | 0 <= k < n && args[k].isFunctionPointer :: CoversAll(p, ptrs, args[k].value, targets, k)
  }

  lemma ArgumentsStayCovered(
      p: Program, before: FuncPtrs, after: FuncPtrs, args: seq<Operand>, targets: set<Func>, n: nat)
    requires ProgramOk(p) && n <= |args| && Facts(before) == Facts(after)
    requires ArgumentsCovered(p, before, args, targets, n)
    ensures ArgumentsCovered(p, after, args, targets, n)
  {
    forall k | 0 <= k < n && args[k].isFunctionPointer
      ensures CoversAll(p, after, args[k].value, targets, k)
    {
      CoversAllTransfer(p, before, after, args[k].value, targets, k);
    }
  }

  lemma IncludedFacts(a: FuncPtrs, b: FuncPtrs)
    requires Included(a, b)
    ensures Facts(a) <= Facts(b)
  {
  }

  /** Whether something was added since `a`, from whether it was added up to `b` and since. */
  lemma Advance(a: FuncPtrs, b: FuncPtrs, c: FuncPtrs, changed: bool, grew: bool)
    requires Included(a, b) && Included(b, c)
    requires changed <==> Facts(b) != Facts(a)
    requires grew <==> Facts(c) != Facts(b)
    ensures Included(a, c)
    ensures changed || grew <==> Facts(c) != Facts(a)
  {
    IncludedFacts(a, b);
    IncludedFacts(b, c);
    IncludedTransitive(a, b, c);
  }

  /** Equal facts make equal demands. */
  lemma CoversTransfer(p: Program, a: FuncPtrs, b: FuncPtrs, v: Value, id: Id)
    requires ProgramOk(p) && Facts(a) == Facts(b) && Covers(p, a, v, id)
    ensures Covers(p, b, v, id)
  {
    SameFacts(a, b);
    forall f | MayPointTo(p, b, v, f)
      ensures f in At(b, id)
    {
      MayPointToMonotone(p, b, a, v, f);
    }
  }

  lemma CoversAllTransfer(p: Program, a: FuncPtrs, b: FuncPtrs, v: Value, targets: set<Func>, n: nat)
    requires ProgramOk(p) && Facts(a) == Facts(b) && CoversAll(p, a, v, targets, n)
    ensures CoversAll(p, b, v, targets, n)
  {
    forall g | g in targets && g < |p.functions|
      ensures Covers(p, b, v, ArgId(p, g, n))
    {
      CoversTransfer(p, a, b, v, ArgId(p, g, n));
    }
  }

  lemma HoldsTransfer(p: Program, a: FuncPtrs, b: FuncPtrs, i: Instr)
    requires ProgramOk(p) && InstrOk(p, i) && Facts(a) == Facts(b) && Holds(p, a, i)
    ensures Holds(p, b, i)
  {
    SameFacts(a, b);
    match i
    case Store(id, operand) =>
      if Covers(p, a, operand.value, id) { CoversTransfer(p, a, b, operand.value, id); }
    case Return(id, operand) =>
      if Covers(p, a, operand.value, id) { CoversTransfer(p, a, b, operand.value, id); }
    case Call(ignored, callee, args) =>
      forall g: Func, n | !ignored && g < |p.functions| && MayPointTo(p, b, callee, g) && 0 <= n < |args|
                          && args[n].isFunctionPointer
        ensures Covers(p, b, args[n].value, ArgId(p, g, n))
      {
        MayPointToMonotone(p, b, a, callee, g);
        CoversTransfer(p, a, b, args[n].value, ArgId(p, g, n));
      }
  }

  /** The first `n` instructions make no further demands. */
  ghost predicate HoldUpTo(p: Program, ptrs: FuncPtrs, body: seq<Instr>, n: nat)
    requires ProgramOk(p) && BodyOk(p, body) && n <= |body|
  {
    forall i | 0 <= i < n :: Holds(p, ptrs, body[i])
  }

  lemma OneMoreHolds(p: Program, before: FuncPtrs, after: FuncPtrs, body: seq<Instr>, n: nat)
    requires ProgramOk(p) && BodyOk(p, body) && n < |body| && Facts(before) == Facts(after)
    requires HoldUpTo(p, before, body, n) && Holds(p, after, body[n])
    ensures HoldUpTo(p, after, body, n + 1)
  {
    forall i | 0 <= i < n
      ensures Holds(p, after, body[i])
    {
      HoldsTransfer(p, before, after, body[i]);
    }
  }

  lemma SolvesTransfer(p: Program, a: FuncPtrs, b: FuncPtrs, body: seq<Instr>)
    requires ProgramOk(p) && BodyOk(p, body) && Facts(a) == Facts(b) && SolvesBody(p, a, body)
    ensures SolvesBody(p, b, body)
  {
    forall i | 0 <= i < |body|
      ensures Holds(p, b, body[i])
    {
      HoldsTransfer(p, a, b, body[i]);
    }
  }

  /** Every solution of the module that covers `before` also covers `after`. */
  ghost predicate ForcedByModule(p: Program, before: FuncPtrs, after: FuncPtrs, m: Module)
    requires ProgramOk(p) && ModuleOk(p, m)
  {
    forall other | Included(before, other) && SolvesModule(p, other, m) :: Included(after, other)
  }

  /** Every solution of all modules covers `ptrs`. */
  ghost predicate BelowSolutions(p: Program, ptrs: FuncPtrs, modules: seq<Module>)
    requires ProgramOk(p) && AllOk(p, modules)
  {
    forall other | IsSolution(p, other, modules) :: Included(ptrs, other)
  }

  ghost predicate SolvesBodiesUpTo(p: Program, ptrs: FuncPtrs, m: Module, n: nat)
    requires ProgramOk(p) && ModuleOk(p, m) && n <= |m.functions|
  {
    forall k | 0 <= k < n :: SolvesBody(p, ptrs, m.functions[k])
  }

  lemma OneMoreSolved(p: Program, before: FuncPtrs, after: FuncPtrs, m: Module, n: nat)
    requires ProgramOk(p) && ModuleOk(p, m) && n < |m.functions| && Facts(before) == Facts(after)
    requires SolvesBodiesUpTo(p, before, m, n) && SolvesBody(p, after, m.functions[n])
    ensures SolvesBodiesUpTo(p, after, m, n + 1)
  {
    forall k | 0 <= k < n
      ensures SolvesBody(p, after, m.functions[k])
    {
      SolvesTransfer(p, before, after, m.functions[k]);
    }
  }

  ghost predicate SolvesUpTo(p: Program, ptrs: FuncPtrs, modules: seq<Module>, n: nat)
    requires ProgramOk(p) && AllOk(p, modules) && n <= |modules|
  {
    forall m | 0 <= m < n :: SolvesModule(p, ptrs, modules[m])
  }

  lemma OneMoreModuleSolved(p: Program, before: FuncPtrs, after: FuncPtrs, modules: seq<Module>, n: nat)
    requires ProgramOk(p) && AllOk(p, modules) && n < |modules| && Facts(before) == Facts(after)
    requires SolvesUpTo(p, before, modules, n) && SolvesModule(p, after, modules[n])
    ensures SolvesUpTo(p, after, modules, n + 1)
  {
    forall m | 0 <= m < n
      ensures SolvesModule(p, after, modules[m])
    {
      assert SolvesModule(p, before, modules[m]);
      forall k | 0 <= k < |modules[m].functions|
        ensures SolvesBody(p, after, modules[m].functions[k])
      {
        SolvesTransfer(p, before, after, modules[m].functions[k]);
      }
    }
  }

  lemma StillInitialized(before: FuncPtrs, after: FuncPtrs, modules: seq<Module>)
    requires Initialized(before, modules) && Included(before, after)
    ensures Initialized(after, modules)
  {
  }

  /** With unchanged facts, the targets found first are still all the targets. */
  lemma TargetsExact(p: Program, before: FuncPtrs, after: FuncPtrs, callee: Value)
    requires ProgramOk(p) && callee < |p.values| && Facts(before) == Facts(after)
    ensures forall g | MayPointTo(p, after, callee, g) :: g in Collect(p, before, callee, {})
  {
    SameFacts(before, after);
    forall g | MayPointTo(p, after, callee, g)
      ensures g in Collect(p, before, callee, {})
    {
      MayPointToMonotone(p, after, before, callee, g);
      CollectExact(p, before, callee, g);
    }
  }

  lemma NoTargets(p: Program, ptrs: FuncPtrs, callee: Value, args: seq<Operand>)
    requires ProgramOk(p) && InstrOk(p, Call(false, callee, args)) && Collect(p, ptrs, callee, {}) == {}
    ensures Holds(p, ptrs, Call(false, callee, args))
  {
    TargetsExact(p, ptrs, ptrs, callee);
  }

  /** The call holds once every argument is covered at the targets found first. */
  lemma CallHolds(p: Program, before: FuncPtrs, after: FuncPtrs, callee: Value, args: seq<Operand>, targets: set<Func>)
    requires ProgramOk(p) && InstrOk(p, Call(false, callee, args)) && Facts(before) == Facts(after)
    requires targets == Collect(p, before, callee, {}) && ArgumentsCovered(p, after, args, targets, |args|)
    ensures Holds(p, after, Call(false, callee, args))
  {
    TargetsExact(p, before, after, callee);
    forall g: Func, n | g < |p.functions| && MayPointTo(p, after, callee, g) && 0 <= n < |args|
                        && args[n].isFunctionPointer
      ensures Covers(p, after, args[n].value, ArgId(p, g, n))
    {
      assert CoversAll(p, after, args[n].value, targets, n);
    }
  }

  /** Parameter `n` of every target holds the functions `found`. */
  ghost predicate Receive(p: Program, ptrs: FuncPtrs, targets: set<Func>, n: nat, found: set<Func>) {
    forall g | g in targets && g < |p.functions| :: found <= At(ptrs, ArgId(p, g, n))
  }

  /** Everything added since `start` is in every map in which the targets receive `found`. */
  ghost predicate OnlyReceived(
      p: Program, start: FuncPtrs, ptrs: FuncPtrs, targets: set<Func>, n: nat, found: set<Func>) {
    forall other | Included(start, other) && Receive(p, other, targets, n, found) :: Included(ptrs, other)
  }

  lemma ReceiveMore(p: Program, start: FuncPtrs, mid: FuncPtrs, targets: set<Func>, done: set<Func>,
                    g: Func, n: nat, found: set<Func>)
    requires g in targets && g < |p.functions| && Receive(p, mid, done, n, found)
    requires OnlyReceived(p, start, mid, targets, n, found)
    ensures var after := Extend(mid, ArgId(p, g, n), found);
            && Included(mid, after) && Receive(p, after, done + {g}, n, found)
            && OnlyReceived(p, start, after, targets, n, found)
  {
    var id := ArgId(p, g, n);
    var after := Extend(mid, id, found);
    forall other | Included(start, other) && Receive(p, other, targets, n, found)
      ensures Included(after, other)
    {
      assert Included(mid, other) && found <= At(other, id);
    }
  }

  /** What a call passes to its targets' parameters is in every solution. */
  lemma ForcedArgument(p: Program, before: FuncPtrs, start: FuncPtrs, other: FuncPtrs,
                       callee: Value, args: seq<Operand>, n: nat, targets: set<Func>)
    requires ProgramOk(p) && InstrOk(p, Call(false, callee, args)) && n < |args| && args[n].isFunctionPointer
    requires Included(before, other) && Included(start, other) && Holds(p, other, Call(false, callee, args))
    requires targets == Collect(p, before, callee, {}) && forall g | g in targets :: g < |p.functions|
    ensures Receive(p, other, targets, n, Collect(p, start, args[n].value, {}))
  {
    forall g | g in targets
      ensures Collect(p, start, args[n].value, {}) <= At(other, ArgId(p, g, n))
    {
      CollectExact(p, before, callee, g);
      MayPointToMonotone(p, before, other, callee, g);
      assert Covers(p, other, args[n].value, ArgId(p, g, n));
      CollectedIsCovered(p, start, other, args[n].value, ArgId(p, g, n));
    }
  }

  lemma IncludedTransitive(a: FuncPtrs, b: FuncPtrs, c: FuncPtrs)
    requires Included(a, b) && Included(b, c)
    ensures Included(a, c)
  {
  }

  /** What was collected before is covered in every larger solution. */
  lemma CollectedIsCovered(p: Program, before: FuncPtrs, other: FuncPtrs, v: Value, id: Id)
    requires ProgramOk(p) && v < |p.values| && Included(before, other) && Covers(p, other, v, id)
    ensures Collect(p, before, v, {}) <= At(other, id)
  {
    forall f | f in Collect(p, before, v, {})
      ensures f in At(other, id)
    {
      CollectExact(p, before, v, f);
      MayPointToMonotone(p, before, other, v, f);
    }
  }

  lemma SameFacts(a: FuncPtrs, b: FuncPtrs)
    requires Facts(a) == Facts(b)
    ensures forall id :: At(a, id) == At(b, id)
    ensures Included(a, b) && Included(b, a)
  {
    forall id
      ensures At(a, id) == At(b, id)
    {
      forall f
        ensures f in At(a, id) <==> f in At(b, id)
      {
        assert f in At(a, id) <==> (id, f) in Facts(a);
        assert f in At(b, id) <==> (id, f) in Facts(b);
      }
    }
  }

  lemma CoversWhenUnchanged(p: Program, before: FuncPtrs, after: FuncPtrs, v: Value, id: Id)
    requires ProgramOk(p) && v < |p.values| && Facts(before) == Facts(after)
    requires Collect(p, before, v, {}) <= At(after, id)
    ensures Covers(p, after, v, id)
  {
    SameFacts(before, after);
    forall f | MayPointTo(p, after, v, f)
      ensures f in At(after, id)
    {
      MayPointToMonotone(p, after, before, v, f);
      CollectExact(p, before, v, f);
    }
  }

  lemma NewFacts(ptrs: FuncPtrs, id: Id, fs: set<Func>)
    ensures Facts(Extend(ptrs, id, fs)) == Facts(ptrs) <==> fs <= At(ptrs, id)
  {
    var after := Extend(ptrs, id, fs);
    forall f | f in fs
      ensures (id, f) in Facts(after)
      ensures (id, f) in Facts(ptrs) <==> f in At(ptrs, id)
    {
    }
    if fs <= At(ptrs, id) {
      forall i, f
        ensures (i, f) in Facts(after) <==> (i, f) in Facts(ptrs)
      {
      }
    }
  }
}
