/** Overflow intrinsics with a constant operand, simplified to a bound check, at every bit width. */
module OverflowSimplify {
  import opened Bits
  import opened ModularArithmetic

  /** An operand as the pass sees it: a constant, or a value known by the name it prints under. */
  datatype Operand = Number(c: nat) | Named(name: string)

  type Env = string -> nat

  function Value(w: Width, o: Operand, env: Env): (r: nat)
    ensures r < Pow2(w)
  {
    match o
    case Number(c) => Wrap(w, c)
    case Named(name) => Wrap(w, env(name))
  }

  predicate WellFormed(w: Width, o: Operand) { o.Number? ==> o.c < Pow2(w) }

  /** The comparison code that replaces an overflow bit. */
  datatype Test =
    | Never
    | Compares(pred: Predicate, left: Operand, right: Operand)
    | Either(first: Test, second: Test)

  predicate Holds(w: Width, t: Test, env: Env) {
    match t
    case Never => false
    case Compares(p, l, r) => Compare(p, w, Value(w, l, env), Value(w, r, env))
    case Either(a, b) => Holds(w, a, env) || Holds(w, b, env)
  }

  /** The pair an intrinsic is replaced with: a plain operation and a test. */
  datatype Replacement = Standing | Replaced(op: BinaryOp, left: Operand, right: Operand, bit: Test)

  // ------------------------------------------------------------------ the bounds

  /** A constant computed in `w`-bit arithmetic from signed readings. */
  function Constant(w: Width, x: int): Operand { Number(Wrap(w, x)) }

  function SAddTest(w: Width, x: Operand, c: nat): Test {
    var k := Signed(w, c);
    if k < 0 then Compares(SLT, x, Constant(w, SMin(w) - k))
    else Compares(SGT, x, Constant(w, SMax(w) - k))
  }

  function UAddTest(w: Width, x: Operand, c: nat): Test {
    Compares(Predicate.UGT, x, Constant(w, UMax(w) - c))
  }

  /** x - C. */
  function SSubTest(w: Width, x: Operand, c: nat): Test {
    var k := Signed(w, c);
    if k < 0 then Compares(SGT, x, Constant(w, SMax(w) + k))
    else Compares(SLT, x, Constant(w, SMin(w) + k))
  }

  /** C - x as the code has it: the operand compared is the constant itself. */
  function SSubFromTest(w: Width, c: nat): Test { SSubFromComment(w, Number(c), c) }

  /** C - x as the comment above the code has it: the operand compared is `x`. */
  function SSubFromComment(w: Width, x: Operand, c: nat): Test {
    var k := Signed(w, c);
    if k < 0 then Compares(SGT, x, Constant(w, k - SMin(w)))
    else Compares(SLT, x, Constant(w, k - SMax(w)))
  }

  function USubTest(l: Operand, r: Operand): Test {
    if l.Number? then Compares(Predicate.UGT, r, l) else Compares(ULT, l, r)
  }

  function SMulTest(w: Width, x: Operand, c: nat): Test {
    var k := Signed(w, c);
    if k == 0 then Never
    else
      var max, min := Constant(w, TruncDiv(SMax(w), k)), Constant(w, TruncDiv(SMin(w), k));
      if k < 0 then Either(Compares(SLT, x, max), Compares(SGT, x, min))
      else Either(Compares(SGT, x, max), Compares(SLT, x, min))
  }

  function UMulTest(w: Width, x: Operand, c: nat): Test {
    if c == 0 then Never else Compares(Predicate.UGT, x, Constant(w, UMax(w) / c))
  }

  // ------------------------------------------------------------------ exactness, operation by operation

  /** What a comparison with a signed bound says. */
  lemma SignedBound(w: Width, x: Operand, a: int, env: Env)
    requires SMin(w) <= a <= SMax(w)
    ensures SMin(w) <= Signed(w, Value(w, x, env)) <= SMax(w)
    ensures Holds(w, Compares(SGT, x, Constant(w, a)), env) <==> Signed(w, Value(w, x, env)) > a
    ensures Holds(w, Compares(SLT, x, Constant(w, a)), env) <==> Signed(w, Value(w, x, env)) < a
  {
    SignedRange(w, Value(w, x, env));
    BoundValue(w, a, env);
  }

  lemma UnsignedBound(w: Width, x: Operand, a: nat, env: Env)
    requires a <= UMax(w)
    ensures Holds(w, Compares(Predicate.UGT, x, Constant(w, a)), env) <==> Value(w, x, env) > a
  {
    WrapSmall(w, a);
  }

  lemma BoundValue(w: Width, a: int, env: Env)
    requires SMin(w) <= a <= SMax(w)
    ensures Signed(w, Value(w, Constant(w, a), env)) == a
  {
    WrapSmall(w, Wrap(w, a));
    SignedOfWrap(w, a);
  }

  predicate LeavesRange(w: Width, a: int) { !(SMin(w) <= a <= SMax(w)) }

  /** A signed operation overflows when its exact result leaves the range. */
  lemma SignedOverflow(op: OverflowOp, w: Width, x: nat, y: nat)
    requires IsSignedOp(op)
    ensures Overflows(op, w, x, y) <==> LeavesRange(w, Exact(op, Signed(w, x), Signed(w, y)))
  {
  }

  /** The operand is too far out to add `k`. */
  predicate BeyondSum(w: Width, a: int, k: int) {
    if k < 0 then a < SMin(w) - k else a > SMax(w) - k
  }

  /** The operand is too far out to subtract `k`. */
  predicate BeyondDifference(w: Width, a: int, k: int) {
    if k < 0 then a > SMax(w) + k else a < SMin(w) + k
  }

  /** The operand is too far out to be subtracted from `k`. */
  predicate BeyondFrom(w: Width, a: int, k: int) {
    if k < 0 then a > k - SMin(w) else a < k - SMax(w)
  }

  lemma SumLeavesRange(w: Width, a: int, k: int)
    requires !LeavesRange(w, a)
    ensures LeavesRange(w, Exact(SAdd, a, k)) <==> BeyondSum(w, a, k)
    ensures LeavesRange(w, Exact(SSub, a, k)) <==> BeyondDifference(w, a, k)
    ensures LeavesRange(w, Exact(SSub, k, a)) <==> BeyondFrom(w, a, k)
  {
  }

  // Each test reads as a comparison with the bound itself.

  lemma SAddTestMeaning(w: Width, x: Operand, c: nat, env: Env)
    requires c < Pow2(w)
    ensures Holds(w, SAddTest(w, x, c), env) <==> BeyondSum(w, Signed(w, Value(w, x, env)), Signed(w, c))
  {
    SignedRange(w, c);
    var k := Signed(w, c);
    ReadsAs(w, x, if k < 0 then SMin(w) - k else SMax(w) - k, if k < 0 then SLT else SGT, SAddTest(w, x, c), env);
  }

  lemma SSubTestMeaning(w: Width, x: Operand, c: nat, env: Env)
    requires c < Pow2(w)
    ensures Holds(w, SSubTest(w, x, c), env) <==> BeyondDifference(w, Signed(w, Value(w, x, env)), Signed(w, c))
  {
    SignedRange(w, c);
    var k := Signed(w, c);
    ReadsAs(w, x, if k < 0 then SMax(w) + k else SMin(w) + k, if k < 0 then SGT else SLT, SSubTest(w, x, c), env);
  }

  lemma SSubFromMeaning(w: Width, x: Operand, c: nat, env: Env)
    requires c < Pow2(w)
    ensures Holds(w, SSubFromComment(w, x, c), env) <==> BeyondFrom(w, Signed(w, Value(w, x, env)), Signed(w, c))
  {
    SignedRange(w, c);
    var k := Signed(w, c);
    var bound := if k < 0 then k - SMin(w) else k - SMax(w);
    ReadsAs(w, x, bound, if k < 0 then SGT else SLT, SSubFromComment(w, x, c), env);
  }

  lemma ReadsAs(w: Width, x: Operand, a: int, p: Predicate, t: Test, env: Env)
    requires SMin(w) <= a <= SMax(w) && (p == SLT || p == SGT) && t == Compares(p, x, Constant(w, a))
    ensures Holds(w, t, env) <==> if p == SLT then Signed(w, Value(w, x, env)) < a else Signed(w, Value(w, x, env)) > a
  {
    SignedBound(w, x, a, env);
  }

  lemma SAddExact(w: Width, x: Operand, c: nat, env: Env)
    requires c < Pow2(w)
    ensures Holds(w, SAddTest(w, x, c), env) <==> Overflows(SAdd, w, Value(w, x, env), c)
  {
    SAddTestMeaning(w, x, c, env);
    SignedRange(w, Value(w, x, env));
    SumLeavesRange(w, Signed(w, Value(w, x, env)), Signed(w, c));
    SignedOverflow(SAdd, w, Value(w, x, env), c);
  }

  lemma UAddExact(w: Width, x: Operand, c: nat, env: Env)
    requires c < Pow2(w)
    ensures Holds(w, UAddTest(w, x, c), env) <==> Overflows(UAdd, w, Value(w, x, env), c)
  {
    UnsignedBound(w, x, UMax(w) - c, env);
  }

  lemma SSubExact(w: Width, x: Operand, c: nat, env: Env)
    requires c < Pow2(w)
    ensures Holds(w, SSubTest(w, x, c), env) <==> Overflows(SSub, w, Value(w, x, env), c)
  {
    SSubTestMeaning(w, x, c, env);
    SignedRange(w, Value(w, x, env));
    SumLeavesRange(w, Signed(w, Value(w, x, env)), Signed(w, c));
    SignedOverflow(SSub, w, Value(w, x, env), c);
  }

  /** The comment's formula is exact. */
  lemma SSubFromCommentExact(w: Width, x: Operand, c: nat, env: Env)
    requires c < Pow2(w)
    ensures Holds(w, SSubFromComment(w, x, c), env) <==> Overflows(SSub, w, c, Value(w, x, env))
  {
    SSubFromMeaning(w, x, c, env);
    SignedRange(w, Value(w, x, env));
    SumLeavesRange(w, Signed(w, Value(w, x, env)), Signed(w, c));
    SignedOverflow(SSub, w, c, Value(w, x, env));
  }

  /** The code's formula never answers true. */
  lemma SSubFromTestNeverHolds(w: Width, c: nat, env: Env)
    requires c < Pow2(w)
    ensures !Holds(w, SSubFromTest(w, c), env)
  {
    SignedRange(w, c);
    ConstantValue(w, c, env);
    var k := Signed(w, c);
    if k < 0 { SignedBound(w, Number(c), k - SMin(w), env); } else { SignedBound(w, Number(c), k - SMax(w), env); }
  }

  lemma ConstantValue(w: Width, c: nat, env: Env)
    requires c < Pow2(w)
    ensures Value(w, Number(c), env) == c
  {
    WrapSmall(w, c);
  }

  lemma USubExact(w: Width, l: Operand, r: Operand, env: Env)
    ensures Holds(w, USubTest(l, r), env) <==> Overflows(USub, w, Value(w, l, env), Value(w, r, env))
  {
  }

  lemma NegatedFactor(x: int, k: int)
    ensures (-x) * k == -(x * k) && x * (-k) == -(x * k) && (-x) * (-k) == x * k
  {
  }

  /** The bounds on a product by a constant, with division truncating toward zero. */
  lemma ProductBounds(half: int, a: int, k: int)
    requires half >= 1 && k != 0
    ensures k > 0 ==> (a * k > half - 1 <==> a > TruncDiv(half - 1, k))
    ensures k > 0 ==> (a * k < -half <==> a < TruncDiv(-half, k))
    ensures k < 0 ==> (a * k > half - 1 <==> a < TruncDiv(half - 1, k))
    ensures k < 0 ==> (a * k < -half <==> a > TruncDiv(-half, k))
    ensures -half <= TruncDiv(half - 1, k) < half
    ensures if k == -1 then TruncDiv(-half, k) == half else -half <= TruncDiv(-half, k) < half
  {
    NegatedFactor(a, k);
    var j := Abs(k);
    AboveQuotient(a, j, half - 1);
    AboveQuotient(-a, j, half - 1);
    AboveQuotient(a, j, half);
    AboveQuotient(-a, j, half);
  }

  /** The operand lies beyond one of the truncated quotients. */
  predicate BeyondQuotients(w: Width, a: int, k: int)
    requires k != 0
  {
    var max, min := TruncDiv(SMax(w), k), TruncDiv(SMin(w), k);
    if k < 0 then a < max || a > min else a > max || a < min
  }

  /** The two comparisons together: the product leaves the signed range. */
  lemma ProductLeavesRange(w: Width, a: int, k: int)
    requires k != 0
    ensures LeavesRange(w, Exact(SMul, a, k)) <==> BeyondQuotients(w, a, k)
  {
    ProductBounds(Pow2(w - 1), a, k);
  }

  lemma SMulExact(w: Width, x: Operand, c: nat, env: Env)
    requires c < Pow2(w) && Signed(w, c) != -1
    ensures Holds(w, SMulTest(w, x, c), env) <==> Overflows(SMul, w, Value(w, x, env), c)
  {
    var a, k := Signed(w, Value(w, x, env)), Signed(w, c);
    SignedOverflow(SMul, w, Value(w, x, env), c);
    if k == 0 {
      ProductByZero(w, a);
    } else {
      SMulBits(w, x, c, env);
      ProductLeavesRange(w, a, k);
    }
  }

  lemma ProductByZero(w: Width, a: int)
    ensures !LeavesRange(w, Exact(SMul, a, 0))
  {
  }

  /** The test reads as comparisons with the truncated quotients themselves. */
  lemma SMulBits(w: Width, x: Operand, c: nat, env: Env)
    requires c < Pow2(w) && Signed(w, c) != -1 && Signed(w, c) != 0
    ensures Holds(w, SMulTest(w, x, c), env) <==> BeyondQuotients(w, Signed(w, Value(w, x, env)), Signed(w, c))
  {
    var k := Signed(w, c);
    var max, min := TruncDiv(SMax(w), k), TruncDiv(SMin(w), k);
    QuotientsFit(Pow2(w - 1), k, max, min);
    SignedBound(w, x, max, env);
    SignedBound(w, x, min, env);
    assert SMulTest(w, x, c) == if k < 0 then
        Either(Compares(SLT, x, Constant(w, max)), Compares(SGT, x, Constant(w, min)))
      else
        Either(Compares(SGT, x, Constant(w, max)), Compares(SLT, x, Constant(w, min)));
  }

  lemma QuotientsFit(half: int, k: int, max: int, min: int)
    requires half >= 1 && k != 0 && k != -1 && max == TruncDiv(half - 1, k) && min == TruncDiv(-half, k)
    ensures -half <= max < half && -half <= min < half
  {
    ProductBounds(half, 0, k);
  }

  /** By -1, the lower bound wraps: the test answers true for every operand. */
  lemma SMulByMinusOne(w: Width, x: Operand, c: nat, env: Env)
    requires c < Pow2(w) && Signed(w, c) == -1
    ensures Holds(w, SMulTest(w, x, c), env)
    ensures Overflows(SMul, w, Value(w, x, env), c) <==> Signed(w, Value(w, x, env)) == SMin(w)
  {
    SignedOverflow(SMul, w, Value(w, x, env), c);
    SignedRange(w, Value(w, x, env));
    NegationLeavesRange(w, Signed(w, Value(w, x, env)));
    TestByMinusOne(w, x, c, env);
  }

  lemma NegationLeavesRange(w: Width, a: int)
    requires !LeavesRange(w, a)
    ensures LeavesRange(w, Exact(SMul, a, -1)) <==> a == SMin(w)
  {
  }

  lemma TestByMinusOne(w: Width, x: Operand, c: nat, env: Env)
    requires c < Pow2(w) && Signed(w, c) == -1
    ensures Holds(w, SMulTest(w, x, c), env)
  {
    assert TruncDiv(SMax(w), -1) == -SMax(w);
    ModPlusMultiple(SMin(w), 1, Pow2(w));
    assert Constant(w, TruncDiv(SMin(w), -1)) == Constant(w, SMin(w));
    SignedBound(w, x, -SMax(w), env);
    SignedBound(w, x, SMin(w), env);
  }

  lemma UMulExact(w: Width, x: Operand, c: nat, env: Env)
    requires c < Pow2(w)
    ensures Holds(w, UMulTest(w, x, c), env) <==> Overflows(UMul, w, Value(w, x, env), c)
  {
    MulNonNegative(Value(w, x, env), c);
    if c != 0 {
      AboveQuotient(Value(w, x, env), c, UMax(w));
      UnsignedBound(w, x, UMax(w) / c, env);
    }
  }

  // ------------------------------------------------------------------ operand order

  /** Names compare character by character, and a proper prefix comes first. */
  predicate Before(a: string, b: string) {
    a == "" || (b != "" && (a[0] < b[0] || (a[0] == b[0] && Before(a[1..], b[1..]))))
  }

  lemma {:induction false} BeforeIsTotalOrder(a: string, b: string)
    ensures Before(a, b) || Before(b, a)
    ensures Before(a, b) && Before(b, a) ==> a == b
    decreases |a|
  {
    if a != "" && b != "" {
      BeforeIsTotalOrder(a[1..], b[1..]);
      if a[0] == b[0] && a[1..] == b[1..] {
        assert a == [a[0]] + a[1..] && b == [b[0]] + b[1..];
      }
    }
  }

  /** The first character in which the names differ decides; a prefix comes before what continues it. */
  lemma {:induction false} BeforeMeaning(a: string, b: string)
    ensures Before(a, b) <==> a <= b || exists k :: DiffersFirst(a, b, k)
    decreases |a|
  {
    if a != "" && b != "" {
      if a[0] != b[0] {
        assert a[0] < b[0] ==> DiffersFirst(a, b, 0);
      } else {
        BeforeMeaning(a[1..], b[1..]);
        assert a == [a[0]] + a[1..] && b == [b[0]] + b[1..];
        if k :| DiffersFirst(a[1..], b[1..], k) { DiffersLater(a, b, k, k + 1); }
        if k :| DiffersFirst(a, b, k) { DiffersLater(a, b, k - 1, k); }
      }
    }
  }

  /** The names agree in front of position `k`, where the first has the smaller character. */
  predicate DiffersFirst(a: string, b: string, k: int) {
    0 <= k < |a| && k < |b| && a[..k] == b[..k] && a[k] < b[k]
  }

  lemma DiffersLater(a: string, b: string, j: nat, k: nat)
    requires a != "" && b != "" && a[0] == b[0] && k == j + 1
    ensures DiffersFirst(a[1..], b[1..], j) <==> DiffersFirst(a, b, k)
  {
    if k < |a| && k < |b| {
      assert a[..k] == [a[0]] + a[1..][..j] && b[..k] == [b[0]] + b[1..][..j];
      assert a[1..][..j] == a[..k][1..] && b[1..][..j] == b[..k][1..];
    }
  }

  /** The order a commutative call's operands are left in. */
  function Ordered(l: Operand, r: Operand): (Operand, Operand) {
    if l.Named? && r.Named? && !Before(l.name, r.name) then (r, l) else (l, r)
  }

  /** Two calls on the same two values end up with the same operands, in the same places. */
  lemma OrderedIsStable(l: Operand, r: Operand)
    requires l.Named? && r.Named?
    ensures Ordered(l, r) == Ordered(r, l)
    ensures Ordered(Ordered(l, r).0, Ordered(l, r).1) == Ordered(l, r)
  {
    BeforeIsTotalOrder(l.name, r.name);
  }

  /** The operands stay the two there were, the one whose name comes first on the left. */
  lemma OrderedMeaning(l: Operand, r: Operand)
    requires l.Named? && r.Named?
    ensures Ordered(l, r) == (l, r) || Ordered(l, r) == (r, l)
    ensures var a, b := Ordered(l, r).0.name, Ordered(l, r).1.name;
      a <= b || exists k :: DiffersFirst(a, b, k)
  {
    BeforeIsTotalOrder(l.name, r.name);
    BeforeMeaning(l.name, r.name);
    BeforeMeaning(r.name, l.name);
  }

  // ------------------------------------------------------------------ the pass on one call

  /** What a program reads from a call or from its replacement: the result and the overflow bit. */
  function Meaning(w: Width, op: OverflowOp, l: Operand, r: Operand, state: Replacement, env: Env): (nat, bool) {
    match state
    case Standing =>
      var x, y := Value(w, l, env), Value(w, r, env);
      (Apply(Underlying(op), w, x, y), Overflows(op, w, x, y))
    case Replaced(plain, a, b, bit) =>
      (Apply(plain, w, Value(w, a, env), Value(w, b, env)), Holds(w, bit, env))
  }

  /** The two families on which the bit changes. */
  predicate Deviates(w: Width, op: OverflowOp, l: Operand, r: Operand, env: Env) {
    match op
    case SMul =>
      (l.Number? || r.Number?)
      && var (x, c) := if r.Number? then (l, r) else (r, l);
         Signed(w, c.c) == -1 && Signed(w, Value(w, x, env)) != SMin(w)
    case SSub =>
      l.Number? && !r.Number?
      && var k, x := Signed(w, l.c), Signed(w, Value(w, r, env));
         if k < 0 then x > k - SMin(w) else x < k - SMax(w)
    case _ => false
  }

  /** A call and what the pass leaves of it: the result agrees, and the bit agrees except exactly
      in the deviating families. */
  predicate Agrees(w: Width, op: OverflowOp, l: Operand, r: Operand,
                   l': Operand, r': Operand, state: Replacement, env: Env) {
    var before, after := Meaning(w, op, l, r, Standing, env), Meaning(w, op, l', r', state, env);
    after.0 == before.0 && ((after.1 <==> before.1) <==> !Deviates(w, op, l, r, env))
  }

  predicate IsCommutative(op: OverflowOp) { !op.SSub? && !op.USub? }

  lemma OperationCommutes(w: Width, op: OverflowOp, x: nat, y: nat)
    requires IsCommutative(op)
    ensures Apply(Underlying(op), w, x, y) == Apply(Underlying(op), w, y, x)
    ensures Overflows(op, w, x, y) <==> Overflows(op, w, y, x)
  {
    ExactCommutes(op, x, y);
    ExactCommutes(op, Signed(w, x), Signed(w, y));
    assert Raw(Underlying(op), w, x, y) == Exact(op, x, y);
    assert Raw(Underlying(op), w, y, x) == Exact(op, y, x);
  }

  lemma ExactCommutes(op: OverflowOp, x: int, y: int)
    requires IsCommutative(op)
    ensures Exact(op, x, y) == Exact(op, y, x)
  {
  }

  function BoundTest(w: Width, op: OverflowOp, x: Operand, c: nat): Test
    requires IsCommutative(op) && c < Pow2(w)
  {
    match op
    case SAdd => SAddTest(w, x, c)
    case UAdd => UAddTest(w, x, c)
    case SMul => SMulTest(w, x, c)
    case UMul => UMulTest(w, x, c)
  }

  /** The operands and the replacement the pass leaves behind. */
  function Simplified(w: Width, op: OverflowOp, l: Operand, r: Operand): (Operand, Operand, Replacement)
    requires WellFormed(w, l) && WellFormed(w, r)
  {
    if op.USub? then (l, r, Replaced(Sub, l, r, USubTest(l, r)))
    else if op.SSub? then
      (l, r, if r.Number? then Replaced(Sub, l, r, SSubTest(w, l, r.c))
             else if l.Number? then Replaced(Sub, l, r, SSubFromTest(w, l.c))
             else Standing)
    else if r.Number? then (l, r, Replaced(Underlying(op), l, r, BoundTest(w, op, l, r.c)))
    else if l.Number? then (l, r, Replaced(Underlying(op), r, l, BoundTest(w, op, r, l.c)))
    else (Ordered(l, r).0, Ordered(l, r).1, Standing)
  }

  lemma BoundTestMeaning(w: Width, op: OverflowOp, x: Operand, c: Operand, env: Env)
    requires IsCommutative(op) && c.Number? && WellFormed(w, c)
    ensures (Holds(w, BoundTest(w, op, x, c.c), env) <==> Overflows(op, w, Value(w, x, env), Value(w, c, env)))
      <==> !(op.SMul? && Signed(w, c.c) == -1 && Signed(w, Value(w, x, env)) != SMin(w))
  {
    WrapSmall(w, c.c);
    match op
    case SAdd => SAddExact(w, x, c.c, env);
    case UAdd => UAddExact(w, x, c.c, env);
    case UMul => UMulExact(w, x, c.c, env);
    case SMul =>
      if Signed(w, c.c) == -1 { SMulByMinusOne(w, x, c.c, env); } else { SMulExact(w, x, c.c, env); }
  }

  /** The result is always the same; the bit is the same except exactly in the deviating families. */
  lemma SimplifiedMeaning(w: Width, op: OverflowOp, l: Operand, r: Operand, env: Env)
    requires WellFormed(w, l) && WellFormed(w, r)
    ensures
      var (l', r', state) := Simplified(w, op, l, r);
      Agrees(w, op, l, r, l', r', state, env)
  {
    var x, y := Value(w, l, env), Value(w, r, env);
    if IsCommutative(op) { OperationCommutes(w, op, x, y); }
    if op.USub? {
      USubExact(w, l, r, env);
    } else if op.SSub? {
      if r.Number? {
        WrapSmall(w, r.c);
        SSubExact(w, l, r.c, env);
      } else if l.Number? {
        WrapSmall(w, l.c);
        SSubFromTestNeverHolds(w, l.c, env);
        SignedRange(w, l.c);
        SignedRange(w, y);
      }
    } else if r.Number? {
      BoundTestMeaning(w, op, l, r, env);
    } else if l.Number? {
      BoundTestMeaning(w, op, r, l, env);
    }
  }

  /** C - x keeps its overflow bit for every x only when C is -1. */
  lemma ConstantMinusDeviates(w: Width, c: nat, name: string)
    requires c < Pow2(w)
    ensures (forall env: Env :: !Deviates(w, SSub, Number(c), Named(name), env)) <==> Signed(w, c) == -1
  {
    SignedRange(w, c);
    if Signed(w, c) == -1 {
      forall env: Env
        ensures !Deviates(w, SSub, Number(c), Named(name), env)
      {
        SignedRange(w, Value(w, Named(name), env));
      }
    } else {
      var worst := if Signed(w, c) < 0 then SMax(w) else SMin(w);
      var env: Env := _ => Wrap(w, worst);
      SignedOfWrap(w, worst);
      WrapSmall(w, Wrap(w, worst));
      assert Deviates(w, SSub, Number(c), Named(name), env);
    }
  }

  /** One call to an overflow intrinsic, which the pass edits in place. */
  class Intrinsic {
    const width: Width
    const op: OverflowOp
    var left: Operand
    var right: Operand
    var state: Replacement

    constructor (width: Width, op: OverflowOp, left: Operand, right: Operand)
      ensures this.width == width && this.op == op && this.left == left && this.right == right
      ensures state == Standing
    {
      this.width, this.op, this.left, this.right, this.state := width, op, left, right, Standing;
    }

    /** A call that still stands, with constants of its own width. */
    ghost predicate Ready()
      reads this
    {
      WellFormed(width, left) && WellFormed(width, right) && state == Standing
    }

    ghost function Parts(): (Operand, Operand, Replacement)
      reads this
    {
      (left, right, state)
    }

    /** Pick out a constant operand, the right one first; without one, put the operands in order. */
    method Canonicalize() returns (changed: bool, x: Operand, c: Operand)
      requires Ready() && IsCommutative(op)
      modifies `left, `right
      ensures (left, right) == Ordered(old(left), old(right)) && Ready()
      ensures changed <==> (left, right) != (old(left), old(right))
      ensures if old(right).Number? then (x, c) == (left, right)
              else if old(left).Number? then (x, c) == (right, left)
              else c.Named?
    {
      changed, x, c := false, left, right;
      if !right.Number? {
        if left.Number? {
          x, c := right, left;
        } else if !Before(left.name, right.name) {
          BeforeIsTotalOrder(left.name, right.name);
          left, right := right, left;
          changed := true;
        }
      }
    }

    method Replace(plain: BinaryOp, l: Operand, r: Operand, bit: Test)
      modifies `state
      ensures state == Replaced(plain, l, r, bit)
    {
      state := Replaced(plain, l, r, bit);
    }

    method SimplifySAdd() returns (changed: bool)
      requires Ready() && op == SAdd
      modifies this
      ensures (left, right, state) == Simplified(width, op, old(left), old(right))
      ensures changed <==> (left, right, state) != (old(left), old(right), Standing)
    {
      var x, c;
      changed, x, c := Canonicalize();
      if c.Number? {
        if Signed(width, c.c) < 0 {
          Replace(Add, x, c, Compares(SLT, x, Constant(width, SMin(width) - Signed(width, c.c))));
        } else {
          Replace(Add, x, c, Compares(SGT, x, Constant(width, SMax(width) - Signed(width, c.c))));
        }
        changed := true;
      }
    }

    method SimplifyUAdd() returns (changed: bool)
      requires Ready() && op == UAdd
      modifies this
      ensures (left, right, state) == Simplified(width, op, old(left), old(right))
      ensures changed <==> (left, right, state) != (old(left), old(right), Standing)
    {
      var x, c;
      changed, x, c := Canonicalize();
      if c.Number? {
        Replace(Add, x, c, Compares(Predicate.UGT, x, Constant(width, UMax(width) - c.c)));
        changed := true;
      }
    }

    method SimplifySSub() returns (changed: bool)
      requires Ready() && op == SSub
      modifies this
      ensures (left, right, state) == Simplified(width, op, old(left), old(right))
      ensures changed <==> (left, right, state) != (old(left), old(right), Standing)
    {
      if right.Number? {
        var k := Signed(width, right.c);
        if k < 0 {
          Replace(Sub, left, right, Compares(SGT, left, Constant(width, SMax(width) + k)));
        } else {
          Replace(Sub, left, right, Compares(SLT, left, Constant(width, SMin(width) + k)));
        }
      } else if left.Number? {
        var k := Signed(width, left.c);
        if k < 0 {
          Replace(Sub, left, right, Compares(SGT, left, Constant(width, k - SMin(width))));
        } else {
          Replace(Sub, left, right, Compares(SLT, left, Constant(width, k - SMax(width))));
        }
      } else {
        return false;
      }
      changed := true;
    }

    method SimplifyUSub() returns (changed: bool)
      requires Ready() && op == USub
      modifies this
      ensures (left, right, state) == Simplified(width, op, old(left), old(right))
      ensures changed
    {
      if left.Number? {
        Replace(Sub, left, right, Compares(Predicate.UGT, right, left));
      } else {
        Replace(Sub, left, right, Compares(ULT, left, right));
      }
      changed := true;
    }

    method SimplifySMul() returns (changed: bool)
      requires Ready() && op == SMul
      modifies this
      ensures (left, right, state) == Simplified(width, op, old(left), old(right))
      ensures changed <==> (left, right, state) != (old(left), old(right), Standing)
    {
      var x, c;
      changed, x, c := Canonicalize();
      if c.Number? {
        var bit := Never;
        if c.c != 0 {
          var k := Signed(width, c.c);
          var max, min := Constant(width, TruncDiv(SMax(width), k)), Constant(width, TruncDiv(SMin(width), k));
          bit := if k < 0 then Either(Compares(SLT, x, max), Compares(SGT, x, min))
                 else Either(Compares(SGT, x, max), Compares(SLT, x, min));
        }
        Replace(Mul, x, c, bit);
        changed := true;
      }
    }

    method SimplifyUMul() returns (changed: bool)
      requires Ready() && op == UMul
      modifies this
      ensures (left, right, state) == Simplified(width, op, old(left), old(right))
      ensures changed <==> (left, right, state) != (old(left), old(right), Standing)
    {
      var x, c;
      changed, x, c := Canonicalize();
      if c.Number? {
        var bit := Never;
        if c.c != 0 { bit := Compares(Predicate.UGT, x, Constant(width, UMax(width) / c.c)); }
        Replace(Mul, x, c, bit);
        changed := true;
      }
    }

    method Dispatch() returns (changed: bool)
      requires Ready()
      modifies this
      ensures (left, right, state) == Simplified(width, op, old(left), old(right))
      ensures changed <==> (left, right, state) != (old(left), old(right), Standing)
    {
      match op
      case SAdd => changed := SimplifySAdd();
      case UAdd => changed := SimplifyUAdd();
      case SSub => changed := SimplifySSub();
      case USub => changed := SimplifyUSub();
      case SMul => changed := SimplifySMul();
      case UMul => changed := SimplifyUMul();
    }

    /** The pass on this call, under every assignment of the operands. */
    method Simplify() returns (changed: bool)
      requires Ready()
      modifies this
      ensures forall env: Env :: Agrees(width, op, old(left), old(right), left, right, state, env)
      ensures state == Standing <==> op != USub && !old(left).Number? && !old(right).Number?
      ensures state == Standing && IsCommutative(op) ==> (left, right) == Ordered(old(left), old(right))
      ensures changed <==> (left, right, state) != (old(left), old(right), Standing)
    {
      changed := Dispatch();
      forall env: Env
        ensures Agrees(width, op, old(left), old(right), left, right, state, env)
      {
        SimplifiedMeaning(width, op, old(left), old(right), env);
      }
    }
  }

  /** All calls of a function, one after the other; each keeps its meaning under every assignment
      except exactly where it deviates. */
  method RunOnFunction(calls: seq<Intrinsic>) returns (changed: bool)
    requires forall i, j :: 0 <= i < j < |calls| ==> calls[i] != calls[j]
    requires forall i :: 0 <= i < |calls| ==> calls[i].Ready()
    modifies calls
    ensures forall i :: 0 <= i < |calls| ==>
      old(calls[i].Ready())
      && calls[i].Parts() == Simplified(calls[i].width, calls[i].op, old(calls[i].left), old(calls[i].right))
    ensures forall i, env: Env :: 0 <= i < |calls| ==>
      Agrees(calls[i].width, calls[i].op, old(calls[i].left), old(calls[i].right),
             calls[i].left, calls[i].right, calls[i].state, env)
    ensures changed <==> exists i :: 0 <= i < |calls| && calls[i].Parts() != old(calls[i].Parts())
  {
    changed := false;
    var k := 0;
    while k < |calls|
      invariant k <= |calls|
      invariant forall i :: 0 <= i < k ==>
        old(calls[i].Ready())
        && calls[i].Parts() == Simplified(calls[i].width, calls[i].op, old(calls[i].left), old(calls[i].right))
      invariant forall i :: k <= i < |calls| ==> calls[i].Parts() == old(calls[i].Parts()) && calls[i].Ready()
      invariant changed <==> exists i :: 0 <= i < k && calls[i].Parts() != old(calls[i].Parts())
    {
      var more := calls[k].Dispatch();
      assert more <==> calls[k].Parts() != old(calls[k].Parts());
      changed := changed || more;
      k := k + 1;
    }
    forall i, env: Env | 0 <= i < |calls|
      ensures Agrees(calls[i].width, calls[i].op, old(calls[i].left), old(calls[i].right),
                     calls[i].left, calls[i].right, calls[i].state, env)
    {
      SimplifiedMeaning(calls[i].width, calls[i].op, old(calls[i].left), old(calls[i].right), env);
    }
  }
}
