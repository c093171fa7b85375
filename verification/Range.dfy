/** Value ranges of parameters, results and memory slots over a whole program.  The transfer
    functions are parameters here; what is modelled is the iteration: how ranges grow, how slow
    ones are widened, and what holds when it stops. */
module Range {
  import opened Bits
  import opened Sets

  type Id = string

  /** A range of `width`-bit values, seen as the set of values it stands for.  (The interval
      representation is canonical, so equal sets are equal ranges.) */
  datatype CRange = CRange(width: Width, elems: set<nat>)

  predicate IsRange(r: CRange) { forall x | x in r.elems :: x < Pow2(r.width) }

  predicate Fits(x: nat, w: Width) { x < Pow2(w) }

  function FullSet(w: Width): CRange { CRange(w, set x: nat | x < Pow2(w) && Fits(x, w)) }

  /** The interval operations of the compiler's library. */
  datatype Library = Library(unionWith: (CRange, CRange) -> CRange, zextOrTrunc: (CRange, Width) -> CRange)

  ghost predicate UnionOk(lib: Library, a: CRange, b: CRange) {
    var u := lib.unionWith(a, b);
    u.width == a.width && IsRange(u) && a.elems <= u.elems && b.elems <= u.elems
  }

  ghost predicate ResizeOk(lib: Library, a: CRange, w: Width) {
    var r := lib.zextOrTrunc(a, w);
    r.width == w && IsRange(r) && forall x | x in a.elems :: Wrap(w, x) in r.elems
  }

  /** All that is asked of them: a union covers both operands, a resized range every value. */
  ghost predicate LibraryOk(lib: Library) {
    && (forall a, b | IsRange(a) && IsRange(b) && a.width == b.width :: UnionOk(lib, a, b))
    && (forall a, w | IsRange(a) :: ResizeOk(lib, a, w))
  }

  /** Such operations exist: the exact ones on sets. */
  function ExactLibrary(): Library {
    Library((a: CRange, b: CRange) => CRange(a.width, a.elems + b.elems),
            (a: CRange, w: Width) => CRange(w, set x | x in a.elems :: Wrap(w, x)))
  }

  lemma ExactLibraryOk()
    ensures LibraryOk(ExactLibrary())
  {
    var lib := ExactLibrary();
    forall a, b | IsRange(a) && IsRange(b) && a.width == b.width
      ensures UnionOk(lib, a, b)
    {
    }
    forall a, w | IsRange(a)
      ensures ResizeOk(lib, a, w)
    {
    }
  }

  /** Bring a range to the width of the one it is merged into. */
  function Match(lib: Library, r: CRange, w: Width): CRange {
    if r.width == w then r else lib.zextOrTrunc(r, w)
  }

  function SafeUnion(lib: Library, old_: CRange, r: CRange): CRange {
    lib.unionWith(old_, Match(lib, r, old_.width))
  }

  lemma SafeUnionCovers(lib: Library, a: CRange, r: CRange)
    requires LibraryOk(lib) && IsRange(a) && IsRange(r)
    ensures var u := SafeUnion(lib, a, r);
            && u.width == a.width && IsRange(u) && a.elems <= u.elems
            && forall x | x in r.elems :: Wrap(a.width, x) in u.elems
    ensures a == FullSet(a.width) ==> SafeUnion(lib, a, r) == a
  {
    if r.width != a.width {
      assert ResizeOk(lib, r, a.width);
    }
    assert UnionOk(lib, a, Match(lib, r, a.width));
    forall x | x in r.elems
      ensures r.width == a.width ==> Wrap(a.width, x) == x
    {
      if r.width == a.width { WrapSmall(a.width, x); }
    }
    var u := SafeUnion(lib, a, r);
    if a == FullSet(a.width) {
      assert u.elems <= FullSet(a.width).elems;
    }
  }

  // ------------------------------------------------------------------ programs

  type RangeMap = map<Id, CRange>

  /** One place in a function that contributes to a slot: a store, a return, an argument or a
      result of a call.  Running a function is deterministic, so what it contributes there is a
      function of the ranges known when the function is started. */
  datatype Site = Site(id: Id, value: RangeMap -> CRange)

  type Body = seq<Site>

  datatype Module = Module(initializers: seq<(Id, CRange)>, functions: seq<Body>)

  /** The slots and the largest width that occur in the program. */
  datatype Bounds = Bounds(ids: set<Id>, maxWidth: Width)

  predicate RangeOk(bounds: Bounds, r: CRange) { IsRange(r) && r.width <= bounds.maxWidth }

  ghost predicate MapOk(bounds: Bounds, m: RangeMap) {
    forall id | id in m :: id in bounds.ids && RangeOk(bounds, m[id]) && m[id].elems != {}
  }

  ghost predicate SiteOk(bounds: Bounds, s: Site) {
    s.id in bounds.ids && forall m | MapOk(bounds, m) :: RangeOk(bounds, s.value(m))
  }

  ghost predicate BodyOk(bounds: Bounds, b: Body) {
    forall i | 0 <= i < |b| :: SiteOk(bounds, b[i])
  }

  ghost predicate ModuleOk(bounds: Bounds, m: Module) {
    && (forall k | 0 <= k < |m.functions| :: BodyOk(bounds, m.functions[k]))
    && forall i | 0 <= i < |m.initializers| ::
         m.initializers[i].0 in bounds.ids && RangeOk(bounds, m.initializers[i].1) && m.initializers[i].1.elems != {}
  }

  /** The slots that running a module can change. */
  ghost function Writable(m: Module): set<Id> {
    set k, i | 0 <= k < |m.functions| && 0 <= i < |m.functions[k]| :: m.functions[k][i].id
  }

  // ------------------------------------------------------------------ growth

  /** Merge a range into a slot; an empty range adds nothing, not even the slot. */
  function AfterUnion(lib: Library, m: RangeMap, id: Id, r: CRange): RangeMap {
    if r.elems == {} then m
    else if id in m then m[id := SafeUnion(lib, m[id], r)]
    else m[id := r]
  }

  /** Run the first `k` sites of a function that was started with the ranges `start`. */
  function AfterSites(lib: Library, start: RangeMap, b: Body, k: nat): RangeMap
    requires k <= |b|
  {
    if k == 0 then start
    else AfterUnion(lib, AfterSites(lib, start, b, k - 1), b[k - 1].id, b[k - 1].value(start))
  }

  predicate Grows(a: RangeMap, b: RangeMap) {
    forall id | id in a :: id in b && b[id].width == a[id].width && a[id].elems <= b[id].elems
  }

  lemma GrowsTransitive(a: RangeMap, b: RangeMap, c: RangeMap)
    requires Grows(a, b) && Grows(b, c)
    ensures Grows(a, c)
    ensures a == c ==> a == b
  {
    if a == c {
      forall id | id in a
        ensures a[id] == b[id]
      {
      }
      assert a.Keys == b.Keys;
    }
  }

  lemma UnionGrows(lib: Library, bounds: Bounds, m: RangeMap, id: Id, r: CRange)
    requires LibraryOk(lib) && MapOk(bounds, m) && RangeOk(bounds, r) && id in bounds.ids
    ensures Grows(m, AfterUnion(lib, m, id, r)) && MapOk(bounds, AfterUnion(lib, m, id, r))
  {
    if id in m {
      SafeUnionCovers(lib, m[id], r);
    }
  }

  lemma {:induction false} SitesGrow(lib: Library, bounds: Bounds, start: RangeMap, b: Body, k: nat)
    requires LibraryOk(lib) && MapOk(bounds, start) && BodyOk(bounds, b) && k <= |b|
    ensures Grows(start, AfterSites(lib, start, b, k)) && MapOk(bounds, AfterSites(lib, start, b, k))
  {
    if k != 0 {
      SitesGrow(lib, bounds, start, b, k - 1);
      var before := AfterSites(lib, start, b, k - 1);
      assert SiteOk(bounds, b[k - 1]);
      UnionGrows(lib, bounds, before, b[k - 1].id, b[k - 1].value(start));
      GrowsTransitive(start, before, AfterSites(lib, start, b, k));
    }
  }

  /** Running the function again would add nothing. */
  ghost predicate Stable(lib: Library, m: RangeMap, b: Body) {
    AfterSites(lib, m, b, |b|) == m
  }

  ghost predicate StableModule(lib: Library, m: RangeMap, module_: Module) {
    forall k | 0 <= k < |module_.functions| :: Stable(lib, m, module_.functions[k])
  }

  /** A stable map covers, at every site, everything the site contributes. */
  lemma {:induction false} StableCovers(lib: Library, bounds: Bounds, m: RangeMap, b: Body, k: nat)
    requires LibraryOk(lib) && MapOk(bounds, m) && BodyOk(bounds, b) && k <= |b| && AfterSites(lib, m, b, k) == m
    ensures forall i, x | 0 <= i < k && x in b[i].value(m).elems ::
              b[i].id in m && Wrap(m[b[i].id].width, x) in m[b[i].id].elems
  {
    if k != 0 {
      SitesGrow(lib, bounds, m, b, k - 1);
      var before, s := AfterSites(lib, m, b, k - 1), b[k - 1];
      assert SiteOk(bounds, s);
      UnionGrows(lib, bounds, before, s.id, s.value(m));
      GrowsTransitive(m, before, m);
      StableCovers(lib, bounds, m, b, k - 1);
      if s.id in m {
        SafeUnionCovers(lib, m[s.id], s.value(m));
      }
    }
  }

  /** The values known for each slot, as a set that can only grow within fixed bounds. */
  ghost function Facts(m: RangeMap): set<(Id, nat)> {
    set id, x | id in m && x in m[id].elems :: (id, x)
  }

  ghost function AllFacts(bounds: Bounds): set<(Id, nat)> {
    set id, x: nat | id in bounds.ids && x < Pow2(bounds.maxWidth) :: (id, x)
  }

  lemma FactsGrow(bounds: Bounds, a: RangeMap, b: RangeMap)
    requires MapOk(bounds, a) && MapOk(bounds, b) && Grows(a, b)
    ensures Facts(a) <= Facts(b) <= AllFacts(bounds)
    ensures a != b ==> Facts(a) < Facts(b)
  {
    forall id, x | (id, x) in Facts(b)
      ensures (id, x) in AllFacts(bounds)
    {
      Pow2Monotone(b[id].width, bounds.maxWidth);
    }
    if a != b {
      if id :| id in b && id !in a {
        var x :| x in b[id].elems;
        assert (id, x) in Facts(b) && (id, x) !in Facts(a);
      } else {
        assert a.Keys == b.Keys;
        var id :| id in a && a[id] != b[id];
        var x :| x in b[id].elems && x !in a[id].elems;
        assert (id, x) in Facts(b) && (id, x) !in Facts(a);
      }
    }
  }

  // ------------------------------------------------------------------ rounds

  const MAX_ITERATIONS: nat := 5

  /** The slots on which two maps differ. */
  ghost predicate Differ(a: RangeMap, b: RangeMap, id: Id) {
    id in b && (id !in a || a[id] != b[id])
  }

  /** Widened slots hold the full range. */
  ghost predicate Saturated(m: RangeMap, ids: set<Id>) {
    forall id | id in ids :: id in m && m[id] == FullSet(m[id].width)
  }

  lemma SaturatedStays(bounds: Bounds, a: RangeMap, b: RangeMap, ids: set<Id>)
    requires MapOk(bounds, b) && Grows(a, b) && Saturated(a, ids)
    ensures Saturated(b, ids) && forall id | id in ids :: !Differ(a, b, id)
  {
    forall id | id in ids
      ensures b[id] == a[id]
    {
      assert b[id].elems <= FullSet(b[id].width).elems;
    }
  }

  lemma DifferWitness(a: RangeMap, b: RangeMap)
    requires Grows(a, b)
    ensures a != b <==> exists id :: Differ(a, b, id)
  {
    if a != b && a.Keys == b.Keys {
      var id :| id in a && a[id] != b[id];
      assert Differ(a, b, id);
    } else if a != b {
      var id :| id in b && id !in a;
      assert Differ(a, b, id);
    }
  }

  /** Run the first `k` functions of a module, one after the other. */
  function AfterFunctions(lib: Library, start: RangeMap, m: Module, k: nat): RangeMap
    requires k <= |m.functions|
  {
    if k == 0 then start
    else AfterSites(lib, AfterFunctions(lib, start, m, k - 1), m.functions[k - 1], |m.functions[k - 1]|)
  }

  /** A function changes only slots that it contributes to. */
  lemma {:induction false} SitesChange(lib: Library, bounds: Bounds, start: RangeMap, b: Body, k: nat, id: Id)
    requires LibraryOk(lib) && MapOk(bounds, start) && BodyOk(bounds, b) && k <= |b|
    requires Differ(start, AfterSites(lib, start, b, k), id)
    ensures exists i :: 0 <= i < k && b[i].id == id
  {
    if k != 0 && b[k - 1].id != id {
      SitesChange(lib, bounds, start, b, k - 1, id);
    }
  }

  lemma {:induction false} FunctionsGrow(lib: Library, bounds: Bounds, start: RangeMap, m: Module, k: nat)
    requires LibraryOk(lib) && MapOk(bounds, start) && ModuleOk(bounds, m) && k <= |m.functions|
    ensures var after := AfterFunctions(lib, start, m, k);
      Grows(start, after) && MapOk(bounds, after) && Changed(start, after) <= Writable(m)
    ensures AfterFunctions(lib, start, m, k) == start ==> forall j | 0 <= j < k :: Stable(lib, start, m.functions[j])
  {
    if k != 0 {
      var j := k - 1;
      FunctionsGrow(lib, bounds, start, m, j);
      NextFunction(lib, start, m, j, k);
      OneMoreFunction(lib, bounds, start, AfterFunctions(lib, start, m, j), AfterFunctions(lib, start, m, k), m, j);
    }
  }

  lemma NextFunction(lib: Library, start: RangeMap, m: Module, j: nat, k: nat)
    requires k == j + 1 && k <= |m.functions|
    ensures AfterFunctions(lib, start, m, k) ==
      AfterSites(lib, AfterFunctions(lib, start, m, j), m.functions[j], |m.functions[j]|)
  {
  }

  lemma OneMoreFunction(
      lib: Library, bounds: Bounds, start: RangeMap, before: RangeMap, after: RangeMap, m: Module, j: nat)
    requires LibraryOk(lib) && MapOk(bounds, before) && ModuleOk(bounds, m) && j < |m.functions|
    requires after == AfterSites(lib, before, m.functions[j], |m.functions[j]|)
    requires Grows(start, before) && Changed(start, before) <= Writable(m)
    ensures Grows(start, after) && MapOk(bounds, after) && Changed(start, after) <= Writable(m)
    ensures after == start ==> before == start && Stable(lib, start, m.functions[j])
  {
    SitesGrow(lib, bounds, before, m.functions[j], |m.functions[j]|);
    GrowsTransitive(start, before, after);
    FunctionChanges(lib, bounds, start, before, m, j);
  }

  /** One more function changes only slots that the module writes. */
  lemma FunctionChanges(lib: Library, bounds: Bounds, start: RangeMap, before: RangeMap, m: Module, k: nat)
    requires LibraryOk(lib) && MapOk(bounds, before) && ModuleOk(bounds, m) && k < |m.functions|
    requires Changed(start, before) <= Writable(m)
    ensures Changed(start, AfterSites(lib, before, m.functions[k], |m.functions[k]|)) <= Writable(m)
  {
    var b := m.functions[k];
    var after := AfterSites(lib, before, b, |b|);
    forall id | id in Changed(start, after)
      ensures id in Writable(m)
    {
      if Differ(before, after, id) {
        SitesChange(lib, bounds, before, b, |b|, id);
        var i :| 0 <= i < |b| && b[i].id == id;
        assert m.functions[k][i].id == id;
      } else {
        assert id in Changed(start, before);
      }
    }
  }

  function Widened(m: RangeMap, ids: set<Id>): RangeMap {
    map id | id in m :: if id in ids then FullSet(m[id].width) else m[id]
  }

  lemma WidenOne(m: RangeMap, done: set<Id>, id: Id)
    requires id in m && id !in done
    ensures id in Widened(m, done)
    ensures Widened(m, done)[id := FullSet(Widened(m, done)[id].width)] == Widened(m, done + {id})
  {
    var before, after := Widened(m, done), Widened(m, done + {id});
    assert before[id := FullSet(before[id].width)].Keys == after.Keys;
  }

  ghost function Changed(a: RangeMap, b: RangeMap): set<Id> { set id | id in b && Differ(a, b, id) }

  /** The ranges between two rounds, and the slots the last round changed. */
  datatype Progress = Progress(ranges: RangeMap, changes: set<Id>)

  ghost predicate ProgressOk(bounds: Bounds, s: Progress) {
    MapOk(bounds, s.ranges) && s.changes <= s.ranges.Keys
  }

  ghost function RoundStart(s: Progress, itr: nat): RangeMap {
    if itr > MAX_ITERATIONS then Widened(s.ranges, s.changes) else s.ranges
  }

  /** Round number `itr`: from the sixth on, what the last round changed is widened first. */
  ghost function AfterRound(lib: Library, s: Progress, m: Module, itr: nat): Progress {
    var start := RoundStart(s, itr);
    var after := AfterFunctions(lib, start, m, |m.functions|);
    Progress(after, Changed(start, after))
  }

  ghost function AfterRounds(lib: Library, s: Progress, m: Module, n: nat): Progress {
    if n == 0 then s else AfterRound(lib, AfterRounds(lib, s, m, n - 1), m, n)
  }

  lemma WideningGrows(bounds: Bounds, m: RangeMap, ids: set<Id>)
    requires MapOk(bounds, m)
    ensures Grows(m, Widened(m, ids)) && MapOk(bounds, Widened(m, ids))
    ensures ids <= m.Keys ==> Saturated(Widened(m, ids), ids)
  {
    var after := Widened(m, ids);
    forall id | id in m
      ensures m[id].elems <= after[id].elems && RangeOk(bounds, after[id])
    {
      assert m[id].elems <= FullSet(m[id].width).elems;
    }
  }

  lemma NothingChanged(a: RangeMap, b: RangeMap)
    requires Grows(a, b)
    ensures Changed(a, b) == {} <==> a == b
  {
    DifferWitness(a, b);
    if id :| Differ(a, b, id) {
      assert id in Changed(a, b);
    }
  }

  /** What one round does: ranges grow; only slots of the module change; what has been widened is
      saturated and cannot change again; and a round that changes nothing leaves the module stable. */
  lemma RoundFacts(lib: Library, bounds: Bounds, s: Progress, m: Module, itr: nat)
    requires LibraryOk(lib) && ModuleOk(bounds, m) && ProgressOk(bounds, s)
    ensures var t := AfterRound(lib, s, m, itr);
      && ProgressOk(bounds, t) && Grows(s.ranges, t.ranges) && t.changes <= Writable(m)
      && (itr > MAX_ITERATIONS ==> Saturated(t.ranges, s.changes) && s.changes !! t.changes)
      && (t.changes != {} ==> t.ranges != s.ranges)
      && (t.changes == {} ==> t.ranges == RoundStart(s, itr) && StableModule(lib, t.ranges, m))
  {
    var start, t := RoundStart(s, itr), AfterRound(lib, s, m, itr);
    WideningGrows(bounds, s.ranges, s.changes);
    FunctionsGrow(lib, bounds, start, m, |m.functions|);
    GrowsTransitive(s.ranges, start, t.ranges);
    NothingChanged(start, t.ranges);
    if itr > MAX_ITERATIONS {
      SaturatedStays(bounds, start, t.ranges, s.changes);
    }
  }

  lemma {:induction false} RoundsOk(lib: Library, bounds: Bounds, s: Progress, m: Module, n: nat)
    requires LibraryOk(lib) && ModuleOk(bounds, m) && ProgressOk(bounds, s)
    ensures ProgressOk(bounds, AfterRounds(lib, s, m, n))
    ensures n > 0 ==> AfterRounds(lib, s, m, n).changes <= Writable(m)
  {
    if n != 0 {
      RoundsOk(lib, bounds, s, m, n - 1);
      RoundFacts(lib, bounds, AfterRounds(lib, s, m, n - 1), m, n);
    }
  }

  /** Every round before number `n` changed something. */
  ghost predicate Restless(lib: Library, s: Progress, m: Module, n: nat)
    decreases n
  {
    n > 1 ==> Restless(lib, s, m, n - 1) && AfterRounds(lib, s, m, n - 1).changes != {}
  }

  /** The slots widened in the first `n` rounds. */
  ghost function Spent(lib: Library, s: Progress, m: Module, n: nat): set<Id> {
    if n == 0 then {}
    else Spent(lib, s, m, n - 1) + if n > MAX_ITERATIONS then AfterRounds(lib, s, m, n - 1).changes else {}
  }

  lemma SaturationKept(lib: Library, bounds: Bounds, s: Progress, m: Module, itr: nat, spent: set<Id>)
    requires LibraryOk(lib) && ModuleOk(bounds, m) && ProgressOk(bounds, s) && Saturated(s.ranges, spent)
    ensures var t := AfterRound(lib, s, m, itr);
      Saturated(t.ranges, spent) && spent !! t.changes
  {
    var start := RoundStart(s, itr);
    WideningGrows(bounds, s.ranges, s.changes);
    FunctionsGrow(lib, bounds, start, m, |m.functions|);
    SaturatedStays(bounds, s.ranges, start, spent);
    SaturatedStays(bounds, start, AfterRound(lib, s, m, itr).ranges, spent);
  }

  lemma WidenedSaturates(lib: Library, bounds: Bounds, s: Progress, m: Module, itr: nat)
    requires LibraryOk(lib) && ModuleOk(bounds, m) && ProgressOk(bounds, s) && itr > MAX_ITERATIONS
    ensures var t := AfterRound(lib, s, m, itr);
      Saturated(t.ranges, s.changes) && s.changes !! t.changes
  {
    RoundFacts(lib, bounds, s, m, itr);
  }

  lemma {:induction false} SpentIsWritable(lib: Library, bounds: Bounds, s: Progress, m: Module, n: nat)
    requires LibraryOk(lib) && ModuleOk(bounds, m) && ProgressOk(bounds, s)
    ensures Spent(lib, s, m, n) <= Writable(m)
  {
    if n != 0 {
      SpentIsWritable(lib, bounds, s, m, n - 1);
      RoundsOk(lib, bounds, s, m, n - 1);
    }
  }

  /** A widened slot stays full and never changes again. */
  lemma {:induction false} SpentIsSaturated(lib: Library, bounds: Bounds, s: Progress, m: Module, n: nat)
    requires LibraryOk(lib) && ModuleOk(bounds, m) && ProgressOk(bounds, s)
    ensures Settled(AfterRounds(lib, s, m, n), Spent(lib, s, m, n), n)
  {
    if n != 0 {
      SpentIsSaturated(lib, bounds, s, m, n - 1);
      RoundsOk(lib, bounds, s, m, n - 1);
      SpentStep(lib, bounds, AfterRounds(lib, s, m, n - 1), m, n, Spent(lib, s, m, n - 1));
    }
  }

  ghost predicate Settled(s: Progress, spent: set<Id>, n: nat) {
    Saturated(s.ranges, spent) && (n > 0 ==> spent !! s.changes)
  }

  lemma SpentStep(lib: Library, bounds: Bounds, s: Progress, m: Module, n: nat, spent: set<Id>)
    requires LibraryOk(lib) && ModuleOk(bounds, m) && ProgressOk(bounds, s) && Saturated(s.ranges, spent)
    ensures Settled(AfterRound(lib, s, m, n), spent + if n > MAX_ITERATIONS then s.changes else {}, n)
  {
    SaturationKept(lib, bounds, s, m, n, spent);
    if n > MAX_ITERATIONS {
      WidenedSaturates(lib, bounds, s, m, n);
    }
  }

  /** From the sixth on, every round that follows a changing one widens a further slot. */
  lemma {:induction false} SpentGrows(lib: Library, bounds: Bounds, s: Progress, m: Module, n: nat)
    requires LibraryOk(lib) && ModuleOk(bounds, m) && ProgressOk(bounds, s) && Restless(lib, s, m, n)
    ensures n <= |Spent(lib, s, m, n)| + MAX_ITERATIONS
  {
    if n > MAX_ITERATIONS {
      SpentGrows(lib, bounds, s, m, n - 1);
      SpentIsSaturated(lib, bounds, s, m, n - 1);
      DisjointSize(Spent(lib, s, m, n - 1), AfterRounds(lib, s, m, n - 1).changes);
    }
  }

  /** The loop over one module ends within as many rounds as the module has slots, plus five. */
  lemma RoundsAreBounded(lib: Library, bounds: Bounds, s: Progress, m: Module, n: nat)
    requires LibraryOk(lib) && ModuleOk(bounds, m) && ProgressOk(bounds, s) && Restless(lib, s, m, n)
    ensures n <= |Writable(m)| + MAX_ITERATIONS
  {
    SpentIsWritable(lib, bounds, s, m, n);
    SpentGrows(lib, bounds, s, m, n);
    SubsetSize(Spent(lib, s, m, n), Writable(m));
  }

  /** What holds after round number `n` of a module pass that started from `first`. */
  ghost predicate Running(lib: Library, first: Progress, m: Module, n: nat, now: Progress, ret: bool) {
    && now == AfterRounds(lib, first, m, n) && Restless(lib, first, m, n)
    && Grows(first.ranges, now.ranges) && (ret <==> now.ranges != first.ranges)
    && (n > 0 ==> if now.changes != {} then ret else StableModule(lib, now.ranges, m))
  }

  lemma RunningStep(lib: Library, bounds: Bounds, first: Progress, m: Module, n: nat, n': nat, now: Progress, ret: bool)
    requires LibraryOk(lib) && ModuleOk(bounds, m) && ProgressOk(bounds, first) && ProgressOk(bounds, now)
    requires Running(lib, first, m, n, now, ret) && (n > 0 ==> now.changes != {}) && n' == n + 1
    ensures var next := AfterRound(lib, now, m, n');
      Running(lib, first, m, n', next, ret || next.changes != {})
  {
    var next := AfterRound(lib, now, m, n');
    RoundFacts(lib, bounds, now, m, n');
    GrowsTransitive(first.ranges, now.ranges, next.ranges);
  }

  // ------------------------------------------------------------------ precision

  /** The library's operations add no value: a union has the values of both ranges, and a resized
      range the resized values. */
  ghost predicate IsExact(lib: Library) {
    && (forall a, b | IsRange(a) && IsRange(b) && a.width == b.width ::
          lib.unionWith(a, b) == CRange(a.width, a.elems + b.elems))
    && (forall a, w, x | IsRange(a) && x in lib.zextOrTrunc(a, w).elems :: ResizedFrom(a, w, x))
  }

  /** `x` is a value of the range at width `w`. */
  ghost predicate ResizedFrom(a: CRange, w: Width, x: nat) {
    exists y :: y in a.elems && x == Wrap(w, y)
  }

  lemma ExactLibraryIsExact()
    ensures IsExact(ExactLibrary())
  {
  }

  /** With such a library a grown range has exactly the values it had and those contributed. */
  lemma UnionIsExact(lib: Library, a: CRange, r: CRange, x: nat)
    requires LibraryOk(lib) && IsExact(lib) && IsRange(a) && IsRange(r)
    ensures x in SafeUnion(lib, a, r).elems <==> x in a.elems || ResizedFrom(r, a.width, x)
  {
    SafeUnionCovers(lib, a, r);
    if r.width == a.width {
      ResizedSame(r, x);
    } else {
      assert ResizeOk(lib, r, a.width);
    }
  }

  /** The site contributes `x`, at width `w`, from some ranges known between `a` and `b`. */
  ghost predicate GivenBetween(s: Site, a: RangeMap, b: RangeMap, w: Width, x: nat) {
    exists at :: Grows(a, at) && Grows(at, b) && ResizedFrom(s.value(at), w, x)
  }

  ghost predicate FromBody(body: Body, a: RangeMap, b: RangeMap, id: Id, w: Width, x: nat) {
    exists i :: 0 <= i < |body| && body[i].id == id && GivenBetween(body[i], a, b, w, x)
  }

  /** Some site of the module for this slot does. */
  ghost predicate FromModule(m: Module, a: RangeMap, b: RangeMap, id: Id, w: Width, x: nat) {
    exists k :: 0 <= k < |m.functions| && FromBody(m.functions[k], a, b, id, w, x)
  }

  predicate Holds(m: RangeMap, id: Id, x: nat) { id in m && x in m[id].elems }

  lemma {:induction false} SitesPrecise(lib: Library, bounds: Bounds, start: RangeMap, b: Body, k: nat, id: Id, x: nat)
    requires LibraryOk(lib) && IsExact(lib) && MapOk(bounds, start) && BodyOk(bounds, b) && k <= |b|
    ensures var after := AfterSites(lib, start, b, k);
      Holds(after, id, x) ==>
        Holds(start, id, x)
        || exists i :: 0 <= i < k && b[i].id == id && ResizedFrom(b[i].value(start), after[id].width, x)
  {
    if k != 0 {
      var j := k - 1;
      SitesPrecise(lib, bounds, start, b, j, id, x);
      SitesGrow(lib, bounds, start, b, j);
      assert SiteOk(bounds, b[j]);
      UnionPrecise(lib, bounds, AfterSites(lib, start, b, j), b[j].id, b[j].value(start), id, x);
    }
  }

  lemma UnionPrecise(lib: Library, bounds: Bounds, m: RangeMap, slot: Id, r: CRange, id: Id, x: nat)
    requires LibraryOk(lib) && IsExact(lib) && MapOk(bounds, m) && RangeOk(bounds, r) && slot in bounds.ids
    ensures var after := AfterUnion(lib, m, slot, r);
      && Grows(m, after)
      && (Holds(after, id, x) <==>
            Holds(m, id, x) || (slot == id && id in after && ResizedFrom(r, after[id].width, x)))
  {
    UnionGrows(lib, bounds, m, slot, r);
    var after := AfterUnion(lib, m, slot, r);
    if r.elems == {} {
      assert id in after ==> !ResizedFrom(r, after[id].width, x);
    } else if slot == id {
      if id in m {
        UnionIsExact(lib, m[id], r, x);
        assert after[id].width == m[id].width;
      } else {
        ResizedSame(r, x);
      }
    }
  }

  lemma ResizedSame(r: CRange, x: nat)
    requires IsRange(r)
    ensures ResizedFrom(r, r.width, x) <==> x in r.elems
  {
    if x in r.elems { WrapSmall(r.width, x); }
    if y :| y in r.elems && x == Wrap(r.width, y) { WrapSmall(r.width, y); }
  }

  /** A merge adds to its slot exactly the values of the range, at the slot's width. */
  ghost predicate GainsExactly(before: RangeMap, after: RangeMap, slot: Id, r: CRange) {
    forall id, x :: Holds(after, id, x) <==>
      Holds(before, id, x) || (slot == id && id in after && ResizedFrom(r, after[id].width, x))
  }

  lemma UnionGains(lib: Library, bounds: Bounds, m: RangeMap, slot: Id, r: CRange)
    requires LibraryOk(lib) && IsExact(lib) && MapOk(bounds, m) && RangeOk(bounds, r) && slot in bounds.ids
    ensures GainsExactly(m, AfterUnion(lib, m, slot, r), slot, r)
  {
    forall id, x
      ensures Holds(AfterUnion(lib, m, slot, r), id, x) <==>
        Holds(m, id, x)
        || (slot == id && id in AfterUnion(lib, m, slot, r)
            && ResizedFrom(r, AfterUnion(lib, m, slot, r)[id].width, x))
    {
      UnionPrecise(lib, bounds, m, slot, r, id, x);
    }
  }

  lemma WidenBetween(m: Module, a: RangeMap, a': RangeMap, b: RangeMap, b': RangeMap, id: Id, w: Width, x: nat)
    requires Grows(a', a) && Grows(b, b') && FromModule(m, a, b, id, w, x)
    ensures FromModule(m, a', b', id, w, x)
  {
    var k :| 0 <= k < |m.functions| && FromBody(m.functions[k], a, b, id, w, x);
    var body := m.functions[k];
    var i :| 0 <= i < |body| && body[i].id == id && GivenBetween(body[i], a, b, w, x);
    var at :| Grows(a, at) && Grows(at, b) && ResizedFrom(body[i].value(at), w, x);
    GrowsTransitive(a', a, at);
    GrowsTransitive(at, b, b');
    assert GivenBetween(body[i], a', b', w, x);
  }

  lemma {:induction false} FunctionsPrecise(
      lib: Library, bounds: Bounds, start: RangeMap, m: Module, k: nat, id: Id, x: nat)
    requires LibraryOk(lib) && IsExact(lib) && MapOk(bounds, start) && ModuleOk(bounds, m) && k <= |m.functions|
    ensures var after := AfterFunctions(lib, start, m, k);
      Holds(after, id, x) ==> Holds(start, id, x) || FromModule(m, start, after, id, after[id].width, x)
  {
    if k != 0 {
      var j := k - 1;
      FunctionsPrecise(lib, bounds, start, m, j, id, x);
      FunctionsGrow(lib, bounds, start, m, j);
      NextFunction(lib, start, m, j, k);
      FunctionPrecise(lib, bounds, start, AfterFunctions(lib, start, m, j), m, j, id, x);
    }
  }

  lemma FunctionPrecise(
      lib: Library, bounds: Bounds, start: RangeMap, before: RangeMap, m: Module, j: nat, id: Id, x: nat)
    requires LibraryOk(lib) && IsExact(lib) && MapOk(bounds, before) && ModuleOk(bounds, m) && j < |m.functions|
    requires Grows(start, before)
    requires Holds(before, id, x) ==> Holds(start, id, x) || FromModule(m, start, before, id, before[id].width, x)
    ensures var after := AfterSites(lib, before, m.functions[j], |m.functions[j]|);
      Holds(after, id, x) ==> Holds(start, id, x) || FromModule(m, start, after, id, after[id].width, x)
  {
    var b := m.functions[j];
    var after := AfterSites(lib, before, b, |b|);
    SitesGrow(lib, bounds, before, b, |b|);
    SitesPrecise(lib, bounds, before, b, |b|, id, x);
    if Holds(after, id, x) && !Holds(start, id, x) {
      if Holds(before, id, x) {
        GrowsTransitive(start, start, start);
        WidenBetween(m, start, start, before, after, id, before[id].width, x);
      } else {
        var i :| 0 <= i < |b| && b[i].id == id && ResizedFrom(b[i].value(before), after[id].width, x);
        assert GivenBetween(b[i], start, after, after[id].width, x);
        assert FromBody(m.functions[j], start, after, id, after[id].width, x);
      }
    }
  }

  /** Where a value may come from: it was there, a site contributed it, or the slot was widened. */
  ghost predicate Explained(m: Module, a: RangeMap, b: RangeMap, widened: bool, id: Id, x: nat)
    requires id in b
  {
    Holds(a, id, x) || widened || FromModule(m, a, b, id, b[id].width, x)
  }

  lemma RoundPrecise(lib: Library, bounds: Bounds, s: Progress, m: Module, itr: nat, id: Id, x: nat)
    requires LibraryOk(lib) && IsExact(lib) && ModuleOk(bounds, m) && ProgressOk(bounds, s)
    ensures var t := AfterRound(lib, s, m, itr);
      Holds(t.ranges, id, x) ==> Explained(m, s.ranges, t.ranges, itr > 5 && id in s.changes, id, x)
  {
    var start, t := RoundStart(s, itr), AfterRound(lib, s, m, itr);
    WideningGrows(bounds, s.ranges, s.changes);
    FunctionsPrecise(lib, bounds, start, m, |m.functions|, id, x);
    FunctionsGrow(lib, bounds, start, m, |m.functions|);
    if Holds(t.ranges, id, x) && !Holds(start, id, x) {
      GrowsTransitive(t.ranges, t.ranges, t.ranges);
      WidenBetween(m, start, s.ranges, t.ranges, t.ranges, id, t.ranges[id].width, x);
    }
  }

  /** Some round after the fifth, up to number `n`, has widened the slot. */
  ghost predicate WidenedBy(lib: Library, s: Progress, m: Module, n: nat, id: Id) {
    exists j: nat :: 5 <= j < n && id in AfterRounds(lib, s, m, j).changes
  }

  /** After any number of rounds every value of a slot was there at the start, or is the resized value
      of something that a site contributed, unless the slot was widened, which takes more than five
      rounds. */
  lemma {:induction false} RoundsPrecise(
      lib: Library, bounds: Bounds, s: Progress, m: Module, n: nat, id: Id, x: nat)
    requires LibraryOk(lib) && IsExact(lib) && ModuleOk(bounds, m) && ProgressOk(bounds, s)
    ensures var t := AfterRounds(lib, s, m, n);
      && Grows(s.ranges, t.ranges)
      && (Holds(t.ranges, id, x) ==> Explained(m, s.ranges, t.ranges, WidenedBy(lib, s, m, n, id), id, x))
  {
    if n != 0 {
      var j := n - 1;
      RoundsPrecise(lib, bounds, s, m, j, id, x);
      RoundsOk(lib, bounds, s, m, j);
      NextRoundPrecise(lib, bounds, s, m, j, n, id, x);
    }
  }

  lemma NextRoundPrecise(
      lib: Library, bounds: Bounds, s: Progress, m: Module, j: nat, n: nat, id: Id, x: nat)
    requires LibraryOk(lib) && IsExact(lib) && ModuleOk(bounds, m) && n == j + 1
    requires ProgressOk(bounds, AfterRounds(lib, s, m, j)) && Grows(s.ranges, AfterRounds(lib, s, m, j).ranges)
    requires var t := AfterRounds(lib, s, m, j);
      Holds(t.ranges, id, x) ==> Explained(m, s.ranges, t.ranges, WidenedBy(lib, s, m, j, id), id, x)
    ensures var t := AfterRounds(lib, s, m, n);
      && Grows(s.ranges, t.ranges)
      && (Holds(t.ranges, id, x) ==> Explained(m, s.ranges, t.ranges, WidenedBy(lib, s, m, n, id), id, x))
  {
    var before, t := AfterRounds(lib, s, m, j), AfterRounds(lib, s, m, n);
    assert t == AfterRound(lib, before, m, n);
    RoundFacts(lib, bounds, before, m, n);
    RoundPrecise(lib, bounds, before, m, n, id, x);
    GrowsTransitive(s.ranges, before.ranges, t.ranges);
    if Holds(t.ranges, id, x) && !WidenedBy(lib, s, m, n, id) && !Holds(s.ranges, id, x) {
      var w := t.ranges[id].width;
      GrowsTransitive(s.ranges, s.ranges, s.ranges);
      if Holds(before.ranges, id, x) {
        WidenBetween(m, s.ranges, s.ranges, before.ranges, t.ranges, id, w, x);
      } else {
        GrowsTransitive(t.ranges, t.ranges, t.ranges);
        WidenBetween(m, before.ranges, s.ranges, t.ranges, t.ranges, id, w, x);
      }
    }
  }

  /** From the sixth round on, whatever changed in the round before is full. */
  lemma SixthRoundWidens(lib: Library, bounds: Bounds, s: Progress, m: Module, itr: nat)
    requires LibraryOk(lib) && ModuleOk(bounds, m) && ProgressOk(bounds, s) && itr > 5
    ensures var t := AfterRound(lib, s, m, itr).ranges;
      forall id | id in s.changes :: id in t && forall x: nat | x < Pow2(t[id].width) :: x in t[id].elems
  {
    RoundFacts(lib, bounds, s, m, itr);
    var t := AfterRound(lib, s, m, itr).ranges;
    forall id, x: nat | id in s.changes && x < Pow2(t[id].width)
      ensures x in t[id].elems
    {
      assert t[id] == FullSet(t[id].width) && Fits(x, t[id].width);
    }
  }

  // ------------------------------------------------------------------ the pass

  class RangePass {
    const lib: Library
    ghost const bounds: Bounds
    var intRanges: RangeMap
    var changes: set<Id>

    constructor (lib: Library, ghost bounds: Bounds)
      requires LibraryOk(lib)
      ensures this.lib == lib && this.bounds == bounds && intRanges == map[] && changes == {}
    {
      this.lib, this.bounds, intRanges, changes := lib, bounds, map[], {};
    }

    ghost predicate Valid()
      reads this
    {
      LibraryOk(lib) && MapOk(bounds, intRanges) && changes <= intRanges.Keys
    }

    ghost function State(): Progress
      reads this
    {
      Progress(intRanges, changes)
    }

    method UnionRange(id: Id, r: CRange) returns (changed: bool)
      requires Valid() && RangeOk(bounds, r) && id in bounds.ids
      modifies this
      ensures Valid() && intRanges == AfterUnion(lib, old(intRanges), id, r)
      ensures changed <==> intRanges != old(intRanges)
      ensures changes == old(changes) + if changed then {id} else {}
    {
      UnionGrows(lib, bounds, intRanges, id, r);
      if r.elems == {} {
        return false;
      }
      changed := true;
      if id in intRanges {
        var merged := SafeUnion(lib, intRanges[id], r);
        changed := intRanges[id] != merged;
        intRanges := intRanges[id := merged];
      } else {
        intRanges := intRanges[id := r];
      }
      if changed {
        changes := changes + {id};
      }
    }

    /** Recompute the ranges of one function. */
    method UpdateFunction(b: Body) returns (changed: bool)
      requires Valid() && BodyOk(bounds, b)
      modifies this
      ensures Valid() && intRanges == AfterSites(lib, old(intRanges), b, |b|)
      ensures Grows(old(intRanges), intRanges)
      ensures changed <==> intRanges != old(intRanges)
      ensures forall id :: id in changes <==> id in old(changes) || Differ(old(intRanges), intRanges, id)
    {
      changed := false;
      var start := intRanges;
      ghost var before := changes;
      var i := 0;
      while i < |b|
        invariant i <= |b| && Valid() && intRanges == AfterSites(lib, start, b, i)
        invariant Grows(start, intRanges)
        invariant changed <==> intRanges != start
        invariant forall id :: id in changes <==> id in before || Differ(start, intRanges, id)
      {
        assert SiteOk(bounds, b[i]);
        ghost var mid := intRanges;
        UnionGrows(lib, bounds, mid, b[i].id, b[i].value(start));
        var grew := UnionRange(b[i].id, b[i].value(start));
        GrowsTransitive(start, mid, intRanges);
        DifferStep(lib, start, mid, b[i].id, b[i].value(start));
        changed := changed || grew;
        i := i + 1;
      }
    }

    /** One pass over the functions of a module. */
    method UpdateModule(m: Module) returns (changed: bool)
      requires Valid() && ModuleOk(bounds, m)
      modifies this
      ensures Valid() && intRanges == AfterFunctions(lib, old(intRanges), m, |m.functions|)
      ensures changes == Changed(old(intRanges), intRanges)
      ensures changed <==> changes != {}
    {
      changed := false;
      changes := {};
      ghost var start := intRanges;
      var k := 0;
      while k < |m.functions|
        invariant k <= |m.functions| && Valid() && Grows(start, intRanges)
        invariant intRanges == AfterFunctions(lib, start, m, k)
        invariant changed <==> intRanges != start
        invariant forall id :: id in changes <==> Differ(start, intRanges, id)
      {
        ghost var mid := intRanges;
        var grew := UpdateFunction(m.functions[k]);
        GrowsTransitive(start, mid, intRanges);
        DifferCompose(start, mid, intRanges);
        changed := changed || grew;
        k := k + 1;
      }
      DifferWitness(start, intRanges);
    }

    /** The slots that changed in the last round get the full range. */
    method Widen()
      requires Valid()
      modifies this`intRanges
      ensures Valid() && intRanges == Widened(old(intRanges), changes)
    {
      var rest := changes;
      ghost var start := intRanges;
      while rest != {}
        invariant rest <= changes && changes <= start.Keys
        invariant intRanges == Widened(start, changes - rest)
        decreases |rest|
      {
        var id :| id in rest;
        WidenOne(start, changes - rest, id);
        assert changes - (rest - {id}) == (changes - rest) + {id};
        rest := rest - {id};
        intRanges := intRanges[id := FullSet(intRanges[id].width)];
      }
      assert changes - rest == changes;
      WideningGrows(bounds, start, changes);
    }

    /** One round, numbered `itr`. */
    method Round(m: Module, itr: nat) returns (changed: bool)
      requires Valid() && ModuleOk(bounds, m)
      modifies this
      ensures Valid() && State() == AfterRound(lib, old(State()), m, itr)
      ensures changed <==> changes != {}
    {
      if itr > MAX_ITERATIONS {
        Widen();
      }
      changed := UpdateModule(m);
    }

    /** Iterate over one module until a round changes nothing. */
    method DoModulePass(m: Module) returns (ret: bool, ghost rounds: nat)
      requires Valid() && ModuleOk(bounds, m)
      modifies this
      ensures Valid() && Grows(old(intRanges), intRanges)
      ensures ret <==> intRanges != old(intRanges)
      ensures StableModule(lib, intRanges, m)
      ensures State() == AfterRounds(lib, old(State()), m, rounds) && changes == {}
      ensures rounds > 0 && Restless(lib, old(State()), m, rounds)
      ensures IsExact(lib) ==> forall id, x | Holds(intRanges, id, x) ::
        Explained(m, old(intRanges), intRanges, WidenedBy(lib, old(State()), m, rounds, id), id, x)
      ensures rounds <= |Writable(m)| + MAX_ITERATIONS
    {
      var itr, changed := 0, true;
      ret := false;
      ghost var first := State();
      while changed
        invariant Valid() && Running(lib, first, m, itr, State(), ret)
        invariant if itr == 0 then changed else changed <==> changes != {}
        invariant itr <= |Writable(m)| + MAX_ITERATIONS
        decreases |Writable(m)| + MAX_ITERATIONS - itr, changed
      {
        ghost var n, before, was := itr, State(), ret;
        itr := itr + 1;
        changed := Round(m, itr);
        ret := ret || changed;
        RunningStep(lib, bounds, first, m, n, itr, before, was);
        RoundsAreBounded(lib, bounds, first, m, itr);
      }
      rounds := itr;
      forall id, x | IsExact(lib) && Holds(intRanges, id, x)
        ensures Explained(m, first.ranges, intRanges, WidenedBy(lib, first, m, rounds, id), id, x)
      {
        RoundsPrecise(lib, bounds, first, m, rounds, id, x);
      }
    }

    /** Enter the constants of a module's global initializers. */
    method DoInitialization(m: Module)
      requires Valid() && ModuleOk(bounds, m)
      modifies this
      ensures Valid() && Grows(old(intRanges), intRanges)
      ensures forall i | 0 <= i < |m.initializers| :: Covered(intRanges, m.initializers[i])
    {
      var i := 0;
      ghost var start := intRanges;
      while i < |m.initializers|
        invariant i <= |m.initializers| && Valid() && Grows(start, intRanges)
        invariant forall j | 0 <= j < i :: Covered(intRanges, m.initializers[j])
      {
        var (id, r) := m.initializers[i];
        ghost var mid := intRanges;
        UnionGrows(lib, bounds, mid, id, r);
        UnionCovers(lib, bounds, mid, id, r);
        var grew := UnionRange(id, r);
        GrowsTransitive(start, mid, intRanges);
        i := i + 1;
      }
    }

    /** The whole pass: all modules in turn, until a sweep changes nothing. */
    method Run(modules: seq<Module>)
      requires Valid() && forall m | 0 <= m < |modules| :: ModuleOk(bounds, modules[m])
      modifies this
      ensures Valid() && Grows(old(intRanges), intRanges)
      ensures forall m | 0 <= m < |modules| :: StableModule(lib, intRanges, modules[m])
      ensures forall m, i | 0 <= m < |modules| && 0 <= i < |modules[m].initializers| ::
                Covered(intRanges, modules[m].initializers[i])
    {
      ghost var start := intRanges;
      var i := 0;
      while i < |modules|
        invariant i <= |modules| && Valid() && Grows(start, intRanges)
        invariant forall m, j | 0 <= m < i && 0 <= j < |modules[m].initializers| ::
                    Covered(intRanges, modules[m].initializers[j])
      {
        ghost var mid := intRanges;
        DoInitialization(modules[i]);
        GrowsTransitive(start, mid, intRanges);
        i := i + 1;
      }
      var changed := true;
      while changed
        invariant Valid() && Grows(start, intRanges)
        invariant forall m, j | 0 <= m < |modules| && 0 <= j < |modules[m].initializers| ::
                    Covered(intRanges, modules[m].initializers[j])
        invariant !changed ==> forall m | 0 <= m < |modules| :: StableModule(lib, intRanges, modules[m])
        decreases AllFacts(bounds) - Facts(intRanges), changed
      {
        ghost var mid := intRanges;
        changed := Sweep(modules);
        FactsGrow(bounds, mid, intRanges);
        GrowsTransitive(start, mid, intRanges);
      }
    }

    /** One sweep over all modules. */
    method Sweep(modules: seq<Module>) returns (changed: bool)
      requires Valid() && forall m | 0 <= m < |modules| :: ModuleOk(bounds, modules[m])
      modifies this
      ensures Valid() && Grows(old(intRanges), intRanges)
      ensures changed <==> intRanges != old(intRanges)
      ensures !changed ==> forall m | 0 <= m < |modules| :: StableModule(lib, intRanges, modules[m])
    {
      changed := false;
      ghost var start := intRanges;
      var i := 0;
      while i < |modules|
        invariant i <= |modules| && Valid() && Grows(start, intRanges)
        invariant changed <==> intRanges != start
        invariant !changed ==> forall m | 0 <= m < i :: StableModule(lib, start, modules[m])
      {
        ghost var mid := intRanges;
        var ret, rounds := DoModulePass(modules[i]);
        GrowsTransitive(start, mid, intRanges);
        changed := changed || ret;
        i := i + 1;
      }
    }
  }

  /** The slot exists and covers, at its own width, every value of the range. */
  predicate Covered(m: RangeMap, entry: (Id, CRange)) {
    entry.0 in m && forall x | x in entry.1.elems :: Wrap(m[entry.0].width, x) in m[entry.0].elems
  }

  lemma UnionCovers(lib: Library, bounds: Bounds, m: RangeMap, id: Id, r: CRange)
    requires LibraryOk(lib) && MapOk(bounds, m) && RangeOk(bounds, r) && r.elems != {}
    ensures Covered(AfterUnion(lib, m, id, r), (id, r))
  {
    if id in m {
      SafeUnionCovers(lib, m[id], r);
    } else {
      forall x | x in r.elems ensures Wrap(r.width, x) == x { WrapSmall(r.width, x); }
    }
  }

  lemma DifferStep(lib: Library, start: RangeMap, mid: RangeMap, id: Id, r: CRange)
    requires Grows(start, mid)
    requires Grows(mid, AfterUnion(lib, mid, id, r))
    ensures var after := AfterUnion(lib, mid, id, r);
            forall x :: Differ(start, after, x) <==> Differ(start, mid, x) || (x == id && after != mid)
  {
    var after := AfterUnion(lib, mid, id, r);
    if id in mid && id in after && after[id] == mid[id] {
      assert after == mid;
    }
  }

  lemma DifferCompose(a: RangeMap, b: RangeMap, c: RangeMap)
    requires Grows(a, b) && Grows(b, c)
    ensures forall id :: Differ(a, c, id) <==> Differ(a, b, id) || Differ(b, c, id)
  {
  }
}
