/** Bounds written to protect `a + x * b`, checked against the bound that does. */
module CmpOverflow {
  import opened Bits
  import opened ModularArithmetic

  /** A symbolic value: constants come first among the operands of a sum or a product. */
  datatype Scev =
    | Const(width: Width, c: nat)
    | Unknown(width: Width, name: nat)
    | Pointer(name: nat)
    | Sum(width: Width, ops: seq<Scev>)
    | Product(width: Width, ops: seq<Scev>)

  predicate IsInteger(s: Scev) { !s.Pointer? }

  /** Operands share the type of their operation, constants fit it, and no product has a zero factor. */
  predicate WellTyped(s: Scev) {
    match s
    case Const(w, c) => c < Pow2(w)
    case Unknown(_, _) => true
    case Pointer(_) => true
    case Sum(w, ops) => forall i :: 0 <= i < |ops| ==> WellTyped(ops[i]) && IsInteger(ops[i]) && ops[i].width == w
    case Product(w, ops) =>
      forall i :: 0 <= i < |ops| ==>
        WellTyped(ops[i]) && IsInteger(ops[i]) && ops[i].width == w && (ops[i].Const? ==> ops[i].c != 0)
  }

  /** `s` is `a + x * b` with constants a and b. */
  predicate IsAffine(s: Scev) {
    s.Sum? && |s.ops| == 2 && s.ops[0].Const?
    && s.ops[1].Product? && |s.ops[1].ops| == 2 && s.ops[1].ops[0].Const?
  }

  datatype Affine = Affine(x: Scev, a: nat, b: nat)

  function Parts(s: Scev): Affine
    requires IsAffine(s)
  {
    Affine(s.ops[1].ops[1], s.ops[0].c, s.ops[1].ops[0].c)
  }

  /** A comparison instruction. */
  datatype Comparison = Comparison(pred: Predicate, left: Scev, right: Scev)

  datatype Status = Silent | Axb0 | Axb1

  // ------------------------------------------------------------------ bounds

  /** a + x * b stays in the width. */
  predicate Safe(w: Width, a: nat, b: nat, x: nat) { a + x * b <= UMax(w) }

  /** Which x a check against `c` lets pass: those below, or equal; the forms that are written the
      other way round, as x > c, turn the others away. */
  predicate Admits(p: Predicate, w: Width, c: nat, x: nat) {
    match p
    case EQ | ULT | ULE | SLT | SLE => Compare(p, w, x, c)
    case NE | UGT | UGE | SGT | SGE => !Compare(p, w, x, c)
  }

  predicate IsStrict(p: Predicate) { p == ULT || p == UGE }

  predicate IsEquality(p: Predicate) { p == EQ || p == NE }

  predicate IsSigned(p: Predicate) { p == SGT || p == SGE || p == SLT || p == SLE }

  /** The check admits exactly the safe values. */
  ghost predicate ExactCheck(p: Predicate, w: Width, a: nat, b: nat, c: nat) {
    forall x: nat :: x <= UMax(w) ==> (Admits(p, w, c, x) <==> Safe(w, a, b, x))
  }

  /** The check admits some value that overflows. */
  ghost predicate AdmitsOverflow(p: Predicate, w: Width, a: nat, b: nat, c: nat) {
    exists x: nat :: x <= UMax(w) && Admits(p, w, c, x) && !Safe(w, a, b, x)
  }

  /** The check rejects some value that is safe. */
  ghost predicate RejectsSafe(p: Predicate, w: Width, a: nat, b: nat, c: nat) {
    exists x: nat :: x <= UMax(w) && !Admits(p, w, c, x) && Safe(w, a, b, x)
  }

  function BestBound(w: Width, a: nat, b: nat): nat
    requires a < Pow2(w) && b > 0
  {
    (UMax(w) - a) / b
  }

  lemma SafeUpToBestBound(w: Width, a: nat, b: nat, x: nat)
    requires a < Pow2(w) && b > 0
    ensures Safe(w, a, b, x) <==> x <= BestBound(w, a, b)
    ensures BestBound(w, a, b) <= UMax(w) - a
  {
    AboveQuotient(x, b, UMax(w) - a);
  }

  /** How many values an unsigned order admits. */
  function Limit(p: Predicate, c: nat): nat { if IsStrict(p) then c else c + 1 }

  /** An unsigned check is exact, too weak or too strong according to where it stops. */
  lemma UnsignedCheck(p: Predicate, w: Width, a: nat, b: nat, c: nat)
    requires a < Pow2(w) && b > 0 && c < Pow2(w) && !IsSigned(p) && !IsEquality(p)
    ensures ExactCheck(p, w, a, b, c) <==> Limit(p, c) == BestBound(w, a, b) + 1
    ensures AdmitsOverflow(p, w, a, b, c) <==> Limit(p, c) > BestBound(w, a, b) + 1
    ensures RejectsSafe(p, w, a, b, c) <==> Limit(p, c) < BestBound(w, a, b) + 1
  {
    var best := BestBound(w, a, b);
    forall x: nat
      ensures Safe(w, a, b, x) <==> x <= best
      ensures Admits(p, w, c, x) <==> x < Limit(p, c)
    {
      SafeUpToBestBound(w, a, b, x);
    }
    SafeUpToBestBound(w, a, b, 0);
    assert Limit(p, c) > best + 1 ==> Admits(p, w, c, best + 1) && !Safe(w, a, b, best + 1);
    assert Limit(p, c) < best + 1 ==> !Admits(p, w, c, best) && Safe(w, a, b, best);
  }

  /** An equality admits one value. */
  lemma EqualityCheck(p: Predicate, w: Width, a: nat, b: nat, c: nat)
    requires a < Pow2(w) && b > 0 && c < Pow2(w) && IsEquality(p)
    ensures ExactCheck(p, w, a, b, c) <==> c == BestBound(w, a, b) == 0
    ensures AdmitsOverflow(p, w, a, b, c) <==> c > BestBound(w, a, b)
    ensures RejectsSafe(p, w, a, b, c) <==> !(c == BestBound(w, a, b) == 0)
  {
    var best := BestBound(w, a, b);
    forall x: nat
      ensures Safe(w, a, b, x) <==> x <= best
      ensures Admits(p, w, c, x) <==> x == c
    {
      SafeUpToBestBound(w, a, b, x);
    }
    SafeUpToBestBound(w, a, b, 0);
    assert c > best ==> Admits(p, w, c, c);
    assert c != 0 ==> !Admits(p, w, c, 0);
    assert c != best ==> !Admits(p, w, c, best);
  }

  /** A signed order admits every negative pattern or not even zero, so it is exact only when
      nothing can overflow and everything is admitted. */
  lemma SignedCheck(p: Predicate, w: Width, a: nat, b: nat, c: nat)
    requires a < Pow2(w) && b > 0 && c < Pow2(w) && IsSigned(p)
    ensures ExactCheck(p, w, a, b, c) <==>
      (p == SLE || p == SGT) && BestBound(w, a, b) == UMax(w) && c == SMax(w)
  {
    SafeUpToBestBound(w, a, b, UMax(w));
    if ExactCheck(p, w, a, b, c) {
      SignedLandmarks(w);
      SafeUpToBestBound(w, a, b, 0);
      assert Admits(p, w, c, 0);
      SignedAdmits(p, w, c, 0);
      SignedAdmits(p, w, c, UMax(w));
      assert Admits(p, w, c, UMax(w));
      SafeUpToBestBound(w, a, b, SMax(w));
      assert Admits(p, w, c, SMax(w));
      SignedTop(p, w, c);
    }
    if (p == SLE || p == SGT) && BestBound(w, a, b) == UMax(w) && c == SMax(w) {
      forall x: nat | x <= UMax(w)
        ensures Admits(p, w, c, x) && Safe(w, a, b, x)
      {
        SafeUpToBestBound(w, a, b, x);
        SignedTop(p, w, x);
      }
    }
  }

  lemma SignedAdmits(p: Predicate, w: Width, c: nat, x: nat)
    requires IsSigned(p)
    ensures Admits(p, w, c, x) <==>
      if p == SLE || p == SGT then Signed(w, x) <= Signed(w, c) else Signed(w, x) < Signed(w, c)
  {
  }

  /** The largest signed value admits everything, and nothing else admits it. */
  lemma SignedTop(p: Predicate, w: Width, c: nat)
    requires IsSigned(p) && c < Pow2(w)
    ensures p == SLE || p == SGT ==> Admits(p, w, SMax(w), c)
    ensures Admits(p, w, c, SMax(w)) <==> (p == SLE || p == SGT) && c == SMax(w)
  {
    SignedRange(w, c);
    SignedLandmarks(w);
  }

  /** For each predicate, which constant makes the check exact. */
  lemma ExactCheckIff(p: Predicate, w: Width, a: nat, b: nat, c: nat)
    requires a < Pow2(w) && b > 0 && c < Pow2(w)
    ensures ExactCheck(p, w, a, b, c) <==>
      match p
      case ULE | UGT => c == BestBound(w, a, b)
      case ULT | UGE => c == BestBound(w, a, b) + 1
      case EQ | NE => c == BestBound(w, a, b) == 0
      case SLE | SGT => BestBound(w, a, b) == UMax(w) && c == SMax(w)
      case SLT | SGE => false
  {
    if IsSigned(p) {
      SignedCheck(p, w, a, b, c);
    } else if IsEquality(p) {
      EqualityCheck(p, w, a, b, c);
    } else {
      UnsignedCheck(p, w, a, b, c);
    }
  }

  /** The comparison of one constant against the bounds, in the width's own arithmetic; the predicate
      is not looked at. */
  function Judge(w: Width, a: nat, b: nat, c: nat): Status
    requires a < Pow2(w) && b > 0
  {
    JudgeAgainst(c, BestBound(w, a, b), UMax(w) / b, Wrap(w, UMax(w) / b - a))
  }

  function JudgeAgainst(c: nat, best: nat, c0: nat, c1: nat): Status {
    if c == best then Silent else if c == c0 then Axb0 else if c == c1 then Axb1 else Silent
  }

  /** Mode 0 reports a bound that is too large; mode 1 does when the subtraction wraps. */
  predicate TooWeak(w: Width, a: nat, b: nat, status: Status)
    requires b > 0
  {
    status == Axb0 || UMax(w) / b < a
  }

  /** On which side of the right bound a reported one is. */
  lemma JudgeSide(w: Width, a: nat, b: nat, c: nat)
    requires a < Pow2(w) && b > 0
    ensures var status := Judge(w, a, b, c);
      status != Silent ==>
        BestBound(w, a, b) != UMax(w)
        && if TooWeak(w, a, b, status) then c > BestBound(w, a, b) else c < BestBound(w, a, b)
  {
    FirstBoundIsLarger(w, a, b);
    SecondBound(w, a, b, UMax(w) / b, Wrap(w, UMax(w) / b - a), BestBound(w, a, b));
    if BestBound(w, a, b) == UMax(w) { NothingOverflows(w, a, b); }
    SideOfBest(c, BestBound(w, a, b), UMax(w) / b, Wrap(w, UMax(w) / b - a), UMax(w) / b < a);
  }

  lemma SideOfBest(c: nat, best: nat, c0: nat, c1: nat, wraps: bool)
    requires c0 >= best && if wraps then c1 > best else c1 <= best
    ensures var status := JudgeAgainst(c, best, c0, c1);
      status != Silent ==> if status == Axb0 || wraps then c > best else c < best
  {
  }

  /** What a report says of the check: it is wrong unless it is the right check written strictly;
      and how a wrong unsigned check or equality is wrong. */
  ghost predicate ReportMeans(p: Predicate, w: Width, a: nat, b: nat, c: nat, status: Status)
    requires a < Pow2(w) && b > 0
  {
    && (ExactCheck(p, w, a, b, c) <==> IsStrict(p) && c == BestBound(w, a, b) + 1)
    && (!IsSigned(p) && !ExactCheck(p, w, a, b, c) ==>
          if TooWeak(w, a, b, status) then AdmitsOverflow(p, w, a, b, c)
          else RejectsSafe(p, w, a, b, c) && !AdmitsOverflow(p, w, a, b, c))
  }

  /** A correct check that is not strict is never reported, and what a report means. */
  lemma JudgeMeaning(p: Predicate, w: Width, a: nat, b: nat, c: nat)
    requires a < Pow2(w) && b > 0 && c < Pow2(w)
    ensures ExactCheck(p, w, a, b, c) && !IsStrict(p) ==> Judge(w, a, b, c) == Silent
    ensures Judge(w, a, b, c) != Silent ==> ReportMeans(p, w, a, b, c, Judge(w, a, b, c))
  {
    JudgeSide(w, a, b, c);
    ExactCheckIff(p, w, a, b, c);
    if Judge(w, a, b, c) != Silent { ReportMeaning(p, w, a, b, c, Judge(w, a, b, c)); }
  }

  lemma ReportMeaning(p: Predicate, w: Width, a: nat, b: nat, c: nat, status: Status)
    requires a < Pow2(w) && b > 0 && c < Pow2(w) && BestBound(w, a, b) != UMax(w)
    requires if TooWeak(w, a, b, status) then c > BestBound(w, a, b) else c < BestBound(w, a, b)
    ensures ReportMeans(p, w, a, b, c, status)
  {
    if IsSigned(p) {
      SignedCheck(p, w, a, b, c);
    } else if IsEquality(p) {
      EqualityCheck(p, w, a, b, c);
    } else {
      UnsignedCheck(p, w, a, b, c);
    }
  }

  /** When nothing can overflow all three bounds are the largest value. */
  lemma NothingOverflows(w: Width, a: nat, b: nat)
    requires a < Pow2(w) && b > 0 && BestBound(w, a, b) == UMax(w)
    ensures UMax(w) / b == UMax(w) && Wrap(w, UMax(w) / b - a) == UMax(w)
  {
    SafeUpToBestBound(w, a, b, 0);
    WrapSmall(w, UMax(w));
  }

  /** The right check written strictly is reported exactly when the two quotients are neighbours. */
  lemma StrictCheckReported(w: Width, a: nat, b: nat)
    requires a < Pow2(w) && 0 < b < Pow2(w)
    ensures Judge(w, a, b, BestBound(w, a, b) + 1) ==
      if UMax(w) / b == BestBound(w, a, b) + 1 then Axb0 else Silent
  {
    var c0, best := UMax(w) / b, BestBound(w, a, b);
    FirstBoundIsLarger(w, a, b);
    AboveQuotient(0, b, UMax(w));
    SecondBound(w, a, b, c0, Wrap(w, c0 - a), best);
    if c0 < a {
      ModPlusMultiple(c0 - a, 1, Pow2(w));
      WrapSmall(w, c0 - a + Pow2(w));
      SafeUpToBestBound(w, a, b, best);
      AboveQuotient(1, b, UMax(w));
    }
  }

  /** At eight bits, 16 + x * 16 is safe up to 14: `x < 15` is right and reported, while `x <= 14`,
      the same check, is not. */
  lemma EightBitStrictCheck()
    ensures ExactCheck(ULT, 8, 16, 16, 15) && Judge(8, 16, 16, 15) == Axb0
    ensures ExactCheck(ULE, 8, 16, 16, 14) && Judge(8, 16, 16, 14) == Silent
  {
    EightBits();
    UnsignedCheck(ULT, 8, 16, 16, 15);
    UnsignedCheck(ULE, 8, 16, 16, 14);
  }

  lemma EightBits()
    ensures Pow2(8) == 256
  {
    assert Pow2(4) == 16;
    Pow2Sum(4, 4);
  }

  lemma FirstBoundIsLarger(w: Width, a: nat, b: nat)
    requires a < Pow2(w) && b > 0
    ensures UMax(w) / b >= BestBound(w, a, b)
  {
    AboveQuotient(BestBound(w, a, b), b, UMax(w) - a);
    AboveQuotient(BestBound(w, a, b), b, UMax(w));
  }

  lemma SecondBound(w: Width, a: nat, b: nat, c0: nat, c: nat, best: nat)
    requires a < Pow2(w) && b > 0
    requires c0 == UMax(w) / b && c == Wrap(w, c0 - a) && best == BestBound(w, a, b)
    ensures if c0 >= a then c <= best else c > best
  {
    if c0 >= a {
      ProductOfQuotient(UMax(w), b, c0);
      LoweredBound(w, a, b, c0);
    } else {
      WrappedBound(w, a, b, c0);
    }
  }

  lemma ProductOfQuotient(m: nat, b: nat, q: nat)
    requires b > 0 && q == m / b
    ensures q * b <= m && q <= m
  {
    AboveQuotient(q, b, m);
  }

  lemma LoweredBound(w: Width, a: nat, b: nat, c: nat)
    requires b > 0 && a < Pow2(w) && a <= c <= UMax(w) && c * b <= UMax(w)
    ensures Wrap(w, c - a) <= BestBound(w, a, b)
  {
    WrapSmall(w, c - a);
    LoweredProduct(a, b, c);
    AboveQuotient(c - a, b, UMax(w) - a);
  }

  lemma LoweredProduct(a: nat, b: nat, c: nat)
    requires b > 0 && c >= a
    ensures (c - a) * b + a <= c * b
  {
    assert (c - a) * b == c * b - a * b;
    MulMonotone(1, b, a);
    assert b * a == a * b;
  }

  lemma WrappedBound(w: Width, a: nat, b: nat, c: nat)
    requires b > 0 && c < a < Pow2(w)
    ensures Wrap(w, c - a) > BestBound(w, a, b)
  {
    ModPlusMultiple(c - a, 1, Pow2(w));
    WrapSmall(w, c - a + Pow2(w));
    AboveQuotient(0, b, UMax(w) - a);
  }

  // ------------------------------------------------------------------ the pass

  /** A comparison with a constant on one side, read with the constant on the right. */
  datatype Site = NoSite | Site(pred: Predicate, x: Scev, c: nat)

  function Oriented(cmp: Comparison): Site {
    var Comparison(p, l, r) := cmp;
    if !IsInteger(l) then NoSite
    else if l.Const? then Site(Swapped(p), r, l.c)
    else if r.Const? then Site(p, l, r.c)
    else NoSite
  }

  /** An affine value that the program passes to some call. */
  predicate Passed(calls: seq<seq<Scev>>, x: Scev, a: nat, b: nat) {
    exists i, j ::
      0 <= i < |calls| && 0 <= j < |calls[i]| && IsAffine(calls[i][j]) && Parts(calls[i][j]) == Affine(x, a, b)
  }

  /** What a report asserts about the program. */
  ghost predicate Justified(calls: seq<seq<Scev>>, cmp: Comparison, status: Status) {
    status != Silent ==>
      var site := Oriented(cmp);
      site.Site? && exists a, b :: Passed(calls, site.x, a, b) && Reported(site, cmp.left.width, a, b, status)
  }

  ghost predicate Reported(site: Site, w: Width, a: nat, b: nat, status: Status)
    requires site.Site?
  {
    a < Pow2(w) && b > 0 && ReportMeans(site.pred, w, a, b, site.c, status)
  }

  predicate WellTypedCalls(calls: seq<seq<Scev>>) {
    forall i, j :: 0 <= i < |calls| && 0 <= j < |calls[i]| ==> WellTyped(calls[i][j])
  }

  /** The two sides of a comparison have one type. */
  predicate WellTypedComparison(cmp: Comparison) {
    var Comparison(_, l, r) := cmp;
    WellTyped(l) && WellTyped(r) && IsInteger(l) == IsInteger(r) && (IsInteger(l) ==> l.width == r.width)
  }

  type Table = map<Scev, (nat, nat)>

  /** The table after some arguments: the last affine value on an x is the one remembered. */
  function AfterArguments(args: seq<Scev>, m: Table): Table {
    if args == [] then m
    else
      var earlier, last := AfterArguments(args[..|args| - 1], m), args[|args| - 1];
      if IsAffine(last) then earlier[Parts(last).x := (Parts(last).a, Parts(last).b)] else earlier
  }

  function AfterCalls(calls: seq<seq<Scev>>): Table {
    if calls == [] then map[] else AfterArguments(calls[|calls| - 1], AfterCalls(calls[..|calls| - 1]))
  }

  function Verdict(m: Table, cmp: Comparison): Status
    requires TypedTable(m) && WellTypedComparison(cmp)
  {
    var site := Oriented(cmp);
    if site.Site? && site.x in m then Judge(cmp.left.width, m[site.x].0, m[site.x].1, site.c) else Silent
  }

  predicate TypedTable(m: Table) {
    forall s :: s in m ==> IsInteger(s) && m[s].0 < Pow2(s.width) && m[s].1 > 0
  }

  /** An entry of the table is one of the new arguments or an older entry, and each new argument
      has an entry. */
  lemma {:induction false} ArgumentEntries(args: seq<Scev>, m: Table)
    ensures var t := AfterArguments(args, m);
      && (forall s :: s in m ==> s in t)
      && (forall j :: 0 <= j < |args| && IsAffine(args[j]) ==> Parts(args[j]).x in t)
      && (forall s :: s in t ==>
            (s in m && t[s] == m[s])
            || exists j :: 0 <= j < |args| && IsAffine(args[j]) && Parts(args[j]) == Affine(s, t[s].0, t[s].1))
  {
    if args != [] {
      var init := args[..|args| - 1];
      ArgumentEntries(init, m);
      assert forall j :: 0 <= j < |init| ==> init[j] == args[j];
      var t, e := AfterArguments(args, m), AfterArguments(init, m);
      forall s | s in t
        ensures (s in m && t[s] == m[s])
          || exists j :: 0 <= j < |args| && IsAffine(args[j]) && Parts(args[j]) == Affine(s, t[s].0, t[s].1)
      {
        if s in e && t[s] == e[s] && !(s in m && e[s] == m[s]) {
          var j :| 0 <= j < |init| && IsAffine(init[j]) && Parts(init[j]) == Affine(s, e[s].0, e[s].1);
          assert IsAffine(args[j]);
        } else if !(s in e && t[s] == e[s]) {
          assert IsAffine(args[|args| - 1]);
        }
      }
    }
  }

  /** The table holds exactly the x of the affine arguments, each with one of its passed pairs. */
  lemma {:induction false} TableIsPassed(calls: seq<seq<Scev>>)
    ensures forall s :: s in AfterCalls(calls) ==> Passed(calls, s, AfterCalls(calls)[s].0, AfterCalls(calls)[s].1)
    ensures forall s, a, b :: Passed(calls, s, a, b) ==> s in AfterCalls(calls)
  {
    if calls != [] {
      var n := |calls| - 1;
      var init, t := AfterCalls(calls[..n]), AfterCalls(calls);
      TableIsPassed(calls[..n]);
      ArgumentEntries(calls[n], init);
      forall s | s in t
        ensures Passed(calls, s, t[s].0, t[s].1)
      {
        if s in init && t[s] == init[s] {
          var i, j :| 0 <= i < n && 0 <= j < |calls[..n][i]| && IsAffine(calls[..n][i][j])
            && Parts(calls[..n][i][j]) == Affine(s, t[s].0, t[s].1);
          assert IsAffine(calls[i][j]);
        } else {
          var j :| 0 <= j < |calls[n]| && IsAffine(calls[n][j]) && Parts(calls[n][j]) == Affine(s, t[s].0, t[s].1);
          assert IsAffine(calls[n][j]);
        }
      }
      forall s, a, b | Passed(calls, s, a, b)
        ensures s in t
      {
        var i, j :| 0 <= i < |calls| && 0 <= j < |calls[i]| && IsAffine(calls[i][j])
          && Parts(calls[i][j]) == Affine(s, a, b);
        if i < n {
          assert IsAffine(calls[..n][i][j]);
          assert Passed(calls[..n], s, a, b);
        }
      }
    }
  }

  /** Each report is about an affine value really passed to a call, and means what it should. */
  lemma VerdictIsJustified(calls: seq<seq<Scev>>, cmp: Comparison)
    requires WellTypedCalls(calls) && WellTypedComparison(cmp) && TypedTable(AfterCalls(calls))
    ensures Justified(calls, cmp, Verdict(AfterCalls(calls), cmp))
  {
    var m, site := AfterCalls(calls), Oriented(cmp);
    TableIsPassed(calls);
    if Verdict(m, cmp) != Silent {
      var (a, b) := m[site.x];
      JudgeMeaning(site.pred, cmp.left.width, a, b, site.c);
      assert Passed(calls, site.x, a, b) && Reported(site, cmp.left.width, a, b, Verdict(m, cmp));
    }
  }

  /** The answer to one comparison is the table's verdict, and justified. */
  ghost predicate Answered(calls: seq<seq<Scev>>, cmp: Comparison, status: Status)
    requires TypedTable(AfterCalls(calls)) && WellTypedComparison(cmp)
  {
    status == Verdict(AfterCalls(calls), cmp) && Justified(calls, cmp, status)
  }

  /** The value of a symbolic value, whose unknowns and pointers have the values given. */
  function ValueOf(s: Scev, env: nat -> int): int {
    match s
    case Const(_, c) => c
    case Unknown(w, name) => Wrap(w, env(name))
    case Pointer(name) => env(name)
    case Sum(w, ops) => Wrap(w, SumOf(ops, env))
    case Product(w, ops) => Wrap(w, ProductOf(ops, env))
  }

  function SumOf(ops: seq<Scev>, env: nat -> int): int {
    if ops == [] then 0 else ValueOf(ops[0], env) + SumOf(ops[1..], env)
  }

  function ProductOf(ops: seq<Scev>, env: nat -> int): int {
    if ops == [] then 1 else ValueOf(ops[0], env) * ProductOf(ops[1..], env)
  }

  /** The parts of an affine value are what its name says: it is a + x * b at its width. */
  lemma PartsMeaning(s: Scev, env: nat -> int)
    requires WellTyped(s) && IsAffine(s)
    ensures var p := Parts(s); ValueOf(s, env) == Wrap(s.width, p.a + p.b * ValueOf(p.x, env))
  {
    var p := Parts(s);
    var product := s.ops[1];
    assert product.ops == [product.ops[0], p.x] && product.ops[1..] == [p.x];
    assert s.ops == [s.ops[0], product] && s.ops[1..] == [product];
    assert ProductOf([p.x], env) == ValueOf(p.x, env) * ProductOf([], env);
    assert ProductOf(product.ops, env) == p.b * ProductOf([p.x], env);
    assert SumOf([product], env) == ValueOf(product, env) + SumOf([], env);
    assert SumOf(s.ops, env) == p.a + SumOf([product], env);
    assert WellTyped(product);
    WrapOfSum(s.width, p.b * ValueOf(p.x, env), p.a);
  }

  /** `cmp` compares `x` with the constant `c`, either way round. */
  predicate ComparesWith(cmp: Comparison, x: Scev, w: Width, c: nat) {
    (cmp.left == x && cmp.right == Const(w, c)) || (cmp.left == Const(w, c) && cmp.right == x)
  }

  /** No argument behind number `j` of call `i` is affine in the same x. */
  predicate IsLast(calls: seq<seq<Scev>>, i: nat, j: nat)
    requires i < |calls| && j < |calls[i]| && IsAffine(calls[i][j])
  {
    forall k, l | 0 <= k < |calls| && 0 <= l < |calls[k]| && (i < k || (i == k && j < l)) ::
      !(IsAffine(calls[k][l]) && Parts(calls[k][l]).x == Parts(calls[i][j]).x)
  }

  /** The last argument that is affine in x, or else the older entry, is what the table has for x. */
  lemma {:induction false} LastArgument(args: seq<Scev>, m: Table, x: Scev, j: nat)
    requires j <= |args| && (j < |args| ==> IsAffine(args[j]) && Parts(args[j]).x == x)
    requires forall l | 0 <= l < |args| && IsAffine(args[l]) && Parts(args[l]).x == x :: l <= j
    requires j == |args| ==> forall l | 0 <= l < |args| && IsAffine(args[l]) :: Parts(args[l]).x != x
    ensures var t := AfterArguments(args, m);
      if j < |args| then x in t && t[x] == (Parts(args[j]).a, Parts(args[j]).b)
      else (x in t <==> x in m) && (x in t ==> t[x] == m[x])
  {
    if args != [] && j != |args| - 1 {
      LastArgument(args[..|args| - 1], m, x, if j < |args| then j else |args| - 1);
    }
  }

  /** The table has for each x the pair of the last argument that is affine in it. */
  lemma {:induction false} LastIsKept(calls: seq<seq<Scev>>, i: nat, j: nat)
    requires i < |calls| && j < |calls[i]| && IsAffine(calls[i][j]) && IsLast(calls, i, j)
    ensures var t, p := AfterCalls(calls), Parts(calls[i][j]); p.x in t && t[p.x] == (p.a, p.b)
  {
    var n := |calls| - 1;
    if i == n {
      LastArgument(calls[n], AfterCalls(calls[..n]), Parts(calls[i][j]).x, j);
    } else {
      LastIsKept(calls[..n], i, j);
      LastArgument(calls[n], AfterCalls(calls[..n]), Parts(calls[i][j]).x, |calls[n]|);
    }
  }

  /** Read with the constant on the right, the comparison still says the same. */
  lemma OrientedMeaning(cmp: Comparison, env: nat -> int, x: nat, y: nat)
    requires WellTypedComparison(cmp) && x == ValueOf(cmp.left, env) && y == ValueOf(cmp.right, env)
    ensures match Oriented(cmp)
            case NoSite => !IsInteger(cmp.left) || !(cmp.left.Const? || cmp.right.Const?)
            case Site(p, s, c) =>
              && ComparesWith(cmp, s, cmp.left.width, c)
              && (Compare(p, cmp.left.width, if s == cmp.left then x else y, c)
                  <==> Compare(cmp.pred, cmp.left.width, x, y))
  {
    PredicateForms(cmp.pred, if cmp.left.Pointer? then 1 else cmp.left.width, x, y);
  }

  /** The exact answer to a comparison of x with a constant, for the last a + x * b passed to a call:
      of the constants only the two wrong bounds are reported. */
  lemma WrongBoundIsReported(calls: seq<seq<Scev>>, i: nat, j: nat, w: Width, a: nat, b: nat, x: Scev,
                             cmp: Comparison, c: nat)
    requires WellTypedCalls(calls) && TypedTable(AfterCalls(calls)) && WellTypedComparison(cmp)
    requires i < |calls| && j < |calls[i]| && IsAffine(calls[i][j]) && IsLast(calls, i, j)
    requires calls[i][j] == Sum(w, [Const(w, a), Product(w, [Const(w, b), x])])
    requires ComparesWith(cmp, x, w, c) && !x.Const?
    ensures a < Pow2(w) && b > 0
    ensures Verdict(AfterCalls(calls), cmp) ==
      if c == (UMax(w) - a) / b then Silent
      else if c == UMax(w) / b then Axb0
      else if c == (UMax(w) / b - a) % Pow2(w) then Axb1
      else Silent
  {
    SumIsAffine(calls[i][j], w, a, b, x);
    LastIsKept(calls, i, j);
    assert WellTyped(calls[i][j]);
    ConstantSide(cmp, x, w, c);
  }

  lemma SumIsAffine(s: Scev, w: Width, a: nat, b: nat, x: Scev)
    requires s == Sum(w, [Const(w, a), Product(w, [Const(w, b), x])])
    ensures IsAffine(s) && Parts(s) == Affine(x, a, b)
    ensures WellTyped(s) ==> a < Pow2(w) && b > 0 && IsInteger(x) && x.width == w
  {
    assert WellTyped(s) ==> WellTyped(s.ops[0]) && WellTyped(s.ops[1]);
    assert WellTyped(s.ops[1]) ==> IsInteger(s.ops[1].ops[1]) && s.ops[1].ops[1].width == w && s.ops[1].ops[0].c != 0;
  }

  lemma ConstantSide(cmp: Comparison, x: Scev, w: Width, c: nat)
    requires ComparesWith(cmp, x, w, c) && IsInteger(x) && x.width == w && !x.Const?
    ensures var site := Oriented(cmp); site.Site? && site.x == x && site.c == c
    ensures cmp.left.width == w
  {
  }

  lemma TableIsTyped(calls: seq<seq<Scev>>)
    requires WellTypedCalls(calls)
    ensures TypedTable(AfterCalls(calls))
  {
    var m := AfterCalls(calls);
    TableIsPassed(calls);
    forall s | s in m
      ensures IsInteger(s) && m[s].0 < Pow2(s.width) && m[s].1 > 0
    {
      PassedIsTyped(calls, s, m[s].0, m[s].1);
    }
  }

  class Pass {
    var axbs: Table

    constructor ()
      ensures axbs == map[]
    {
      axbs := map[];
    }

    /** Remember the affine arguments of one call; a later one replaces an earlier one. */
    method Collect(args: seq<Scev>)
      modifies this
      ensures axbs == AfterArguments(args, old(axbs))
    {
      for j := 0 to |args|
        invariant axbs == AfterArguments(args[..j], old(axbs))
      {
        assert args[..j + 1][..j] == args[..j];
        if IsAffine(args[j]) {
          var p := Parts(args[j]);
          axbs := axbs[p.x := (p.a, p.b)];
        }
      }
      assert args[..|args|] == args;
    }

    /** The verdict on a comparison; only its operands are passed on. */
    method Check(cmp: Comparison) returns (status: Status)
      requires WellTypedComparison(cmp) && TypedTable(axbs)
      ensures status == Verdict(axbs, cmp)
    {
      status := CheckAxB(cmp.left, cmp.right, cmp.pred);
    }

    method CheckAxB(l: Scev, r: Scev, ghost p: Predicate) returns (status: Status)
      requires WellTypedComparison(Comparison(p, l, r)) && TypedTable(axbs)
      ensures status == Verdict(axbs, Comparison(p, l, r))
    {
      if !IsInteger(l) { return Silent; }
      var x, k := l, r;
      if l.Const? { x, k := k, x; }
      if !k.Const? || x !in axbs { return Silent; }
      var (a, b) := axbs[x];
      status := JudgeBound(l.width, a, b, k.c);
    }

    static method JudgeBound(w: Width, a: nat, b: nat, c: nat) returns (status: Status)
      requires a < Pow2(w) && b > 0
      ensures status == Judge(w, a, b, c)
    {
      var max := UMax(w);
      if c == (max - a) / b { return Silent; }
      var c0 := max / b;
      if c == c0 { return Axb0; }
      var c1 := Wrap(w, c0 - a);
      if c == c1 { return Axb1; }
      return Silent;
    }

    /** One function: gather the affine arguments of every call, then judge every comparison. */
    method RunOnFunction(calls: seq<seq<Scev>>, comparisons: seq<Comparison>) returns (reports: seq<Status>)
      requires WellTypedCalls(calls) && axbs == map[]
      requires forall i :: 0 <= i < |comparisons| ==> WellTypedComparison(comparisons[i])
      modifies this
      ensures axbs == map[] && |reports| == |comparisons| && TypedTable(AfterCalls(calls))
      ensures forall i :: 0 <= i < |reports| ==> Answered(calls, comparisons[i], reports[i])
    {
      for i := 0 to |calls|
        invariant axbs == AfterCalls(calls[..i])
      {
        assert calls[..i + 1][..i] == calls[..i];
        Collect(calls[i]);
      }
      assert calls[..|calls|] == calls;
      TableIsTyped(calls);
      reports := [];
      for i := 0 to |comparisons|
        invariant |reports| == i && axbs == AfterCalls(calls)
        invariant forall k :: 0 <= k < i ==> Answered(calls, comparisons[k], reports[k])
      {
        var status := Check(comparisons[i]);
        VerdictIsJustified(calls, comparisons[i]);
        reports := reports + [status];
      }
      axbs := map[];
    }
  }

  lemma PassedIsTyped(calls: seq<seq<Scev>>, x: Scev, a: nat, b: nat)
    requires WellTypedCalls(calls) && Passed(calls, x, a, b)
    ensures IsInteger(x) && a < Pow2(x.width) && b > 0
  {
    var i, j :| 0 <= i < |calls| && 0 <= j < |calls[i]| && IsAffine(calls[i][j])
      && Parts(calls[i][j]) == Affine(x, a, b);
    assert WellTyped(calls[i][j]);
    assert WellTyped(calls[i][j].ops[0]) && WellTyped(calls[i][j].ops[1]);
  }
}
