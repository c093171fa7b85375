/** The opcodes against what their names promise, said without the definitions that the interpreter
    and the evaluator of formulas share. */
module Opcodes {
  import opened Bits
  import opened ModularArithmetic

  /** Binary digit number `k`. */
  predicate Digit(x: nat, k: nat) {
    if k == 0 then x % 2 == 1 else Digit(x / 2, k - 1)
  }

  /** Addition and subtraction undo each other, and a product is the product, modulo 2^w. */
  lemma SumMeaning(w: Width, x: nat, y: nat)
    requires x < Pow2(w) && y < Pow2(w)
    ensures Apply(Add, w, x, y) == if x + y < Pow2(w) then x + y else x + y - Pow2(w)
    ensures Apply(Sub, w, x, y) == if y <= x then x - y else x - y + Pow2(w)
    ensures Apply(Sub, w, Apply(Add, w, x, y), y) == x
    ensures Apply(Mul, w, x, y) == (x * y) % Pow2(w)
  {
    WrapFits(w, x + y);
    WrapFits(w, x - y);
    WrapFits(w, Apply(Add, w, x, y) - y);
  }

  lemma WrapFits(w: Width, a: int)
    requires 0 - Pow2(w) <= a < 2 * Pow2(w)
    ensures Wrap(w, a) == if a < 0 then a + Pow2(w) else if a < Pow2(w) then a else a - Pow2(w)
  {
    if a < 0 {
      ModPlusMultiple(a, 1, Pow2(w));
      WrapSmall(w, a + Pow2(w));
    } else if a < Pow2(w) {
      WrapSmall(w, a);
    } else {
      MinusMultiple(a, 1, Pow2(w));
      WrapSmall(w, a - Pow2(w));
    }
  }

  /** The signed reading is the two's complement one. */
  lemma SignedMeaning(w: Width, x: nat)
    requires x < Pow2(w)
    ensures Signed(w, x) == if Digit(x, w - 1) then x - Pow2(w) else x
  {
    TopDigit(x, w - 1);
  }

  lemma {:induction false} TopDigit(x: nat, k: nat)
    requires x < Pow2(k + 1)
    ensures Digit(x, k) <==> x >= Pow2(k)
  {
    if k != 0 {
      TopDigit(x / 2, k - 1);
    }
  }

  /** Unsigned division gives quotient and remainder; by zero, what the bit-vector theory says. */
  lemma UnsignedDivision(w: Width, x: nat, y: nat)
    requires x < Pow2(w) && y < Pow2(w)
    ensures y != 0 ==>
      x == Apply(UDiv, w, x, y) * y + Apply(URem, w, x, y) && Apply(URem, w, x, y) < y
    ensures y == 0 ==> Apply(UDiv, w, x, y) == UMax(w) && Apply(URem, w, x, y) == x
  {
    if y == 0 {
      WrapSmall(w, UMax(w));
      WrapSmall(w, x);
    } else {
      QuotientKept(w, x, y, x / y, x % y);
    }
  }

  lemma QuotientKept(w: Width, x: nat, y: nat, q: nat, r: nat)
    requires 0 < y < Pow2(w) && x < Pow2(w) && q == x / y && r == x % y
    ensures Apply(UDiv, w, x, y) == q && Apply(URem, w, x, y) == r
    ensures x == q * y + r && r < y
  {
    QuotientSmall(x, y);
    DivisionEquation(x, y);
    WrapSmall(w, q);
    WrapSmall(w, r);
  }

  lemma DivisionEquation(x: nat, y: nat)
    requires y > 0
    ensures x == x / y * y + x % y && x % y < y
  {
  }

  /** Signed division truncates: the remainder is smaller than the divisor and has the dividend's
      sign.  Only the least value by -1 has no quotient. */
  lemma SignedDivision(w: Width, x: nat, y: nat)
    requires x < Pow2(w) && y < Pow2(w) && Signed(w, y) != 0
    ensures var a, b := Signed(w, x), Signed(w, y);
      var r := Signed(w, Apply(SRem, w, x, y));
      && (Abs(r) < Abs(b) && (r == 0 || (r < 0 <==> a < 0)))
      && (!(a == SMin(w) && b == -1) ==> a == Signed(w, Apply(SDiv, w, x, y)) * b + r)
  {
    var a, b := Signed(w, x), Signed(w, y);
    SignedRange(w, x);
    SignedRange(w, y);
    Truncation(a, b);
    SignedOfWrap(w, TruncRem(a, b));
    if !(a == SMin(w) && b == -1) {
      QuotientFits(w, a, b);
      SignedOfWrap(w, TruncDiv(a, b));
    }
  }

  lemma Truncation(a: int, b: int)
    requires b != 0
    ensures a == TruncDiv(a, b) * b + TruncRem(a, b)
    ensures Abs(TruncRem(a, b)) < Abs(b) && Abs(TruncRem(a, b)) <= Abs(a)
    ensures TruncRem(a, b) == 0 || (TruncRem(a, b) < 0 <==> a < 0)
  {
    var q, r := Abs(a) / Abs(b), Abs(a) % Abs(b);
    assert Abs(a) == q * Abs(b) + r;
    QuotientSmall(Abs(a), Abs(b));
    Signs(q, Abs(b));
    assert TruncRem(a, b) == if a < 0 then -r else r;
    RemainderSmall(Abs(a), Abs(b));
  }

  lemma Signs(q: int, b: int)
    ensures (-q) * b == -(q * b) && q * (-b) == -(q * b) && (-q) * (-b) == q * b
  {
  }

  lemma RemainderSmall(x: nat, d: nat)
    requires d > 0
    ensures x % d <= x
  {
    if x < d { ModSmall(x, d); }
  }

  lemma QuotientFits(w: Width, a: int, b: int)
    requires b != 0 && SMin(w) <= a <= SMax(w) && !(a == SMin(w) && b == -1)
    ensures SMin(w) <= TruncDiv(a, b) <= SMax(w)
  {
    QuotientSmall(Abs(a), Abs(b));
    AboveQuotient(0, Abs(b), Abs(a));
  }

  /** An operation overflows exactly when its wrapped result does not read as the exact one. */
  lemma OverflowMeaning(w: Width, x: nat, y: nat)
    requires x < Pow2(w) && y < Pow2(w)
    ensures Overflows(UAdd, w, x, y) <==> Apply(Add, w, x, y) != x + y
    ensures Overflows(USub, w, x, y) <==> Apply(Sub, w, x, y) != x - y
    ensures Overflows(UMul, w, x, y) <==> Apply(Mul, w, x, y) != x * y
    ensures var a, b := Signed(w, x), Signed(w, y);
      && (Overflows(SAdd, w, x, y) <==> Signed(w, Apply(Add, w, x, y)) != a + b)
      && (Overflows(SSub, w, x, y) <==> Signed(w, Apply(Sub, w, x, y)) != a - b)
      && (Overflows(SMul, w, x, y) <==> Signed(w, Apply(Mul, w, x, y)) != a * b)
  {
    var a, b := Signed(w, x), Signed(w, y);
    OverflowReads(UAdd, w, x, y, x + y);
    OverflowReads(USub, w, x, y, x - y);
    OverflowReads(UMul, w, x, y, x * y);
    OverflowReads(SAdd, w, x, y, a + b);
    OverflowReads(SSub, w, x, y, a - b);
    OverflowReads(SMul, w, x, y, a * b);
  }

  lemma OverflowReads(op: OverflowOp, w: Width, x: nat, y: nat, exact: int)
    requires x < Pow2(w) && y < Pow2(w)
    requires exact == if IsSignedOp(op) then Exact(op, Signed(w, x), Signed(w, y)) else Exact(op, x, y)
    ensures var r := Apply(Underlying(op), w, x, y);
      Overflows(op, w, x, y) <==> (if IsSignedOp(op) then Signed(w, r) else r) != exact
  {
    Readable(w, exact);
    if IsSignedOp(op) { WrapOfExact(op, w, x, y); }
  }

  /** A number fits when it is read back from its pattern. */
  lemma Readable(w: Width, a: int)
    ensures SMin(w) <= a <= SMax(w) <==> Signed(w, Wrap(w, a)) == a
    ensures 0 <= a <= UMax(w) <==> Wrap(w, a) == a
  {
    SignedRange(w, Wrap(w, a));
    if SMin(w) <= a <= SMax(w) { SignedOfWrap(w, a); }
    if 0 <= a <= UMax(w) { WrapSmall(w, a); }
  }

  /** Modulo 2^w it does not matter how the operands are read. */
  lemma WrapOfExact(op: OverflowOp, w: Width, x: nat, y: nat)
    requires x < Pow2(w) && y < Pow2(w)
    ensures Wrap(w, Exact(op, Signed(w, x), Signed(w, y))) == Wrap(w, Exact(op, x, y))
  {
    var d, e := if Signed(w, x) < x then 1 else 0, if Signed(w, y) < y then 1 else 0;
    SameModulo(op, x, y, Signed(w, x), Signed(w, y), d, e, Pow2(w));
  }

  lemma SameModulo(op: OverflowOp, x: int, y: int, a: int, b: int, d: int, e: int, m: nat)
    requires m > 0 && a == x - d * m && b == y - e * m
    ensures Exact(op, a, b) % m == Exact(op, x, y) % m
  {
    match op
    case SAdd | UAdd =>
      ShiftedSum(x, y, d, e, m);
      ModPlusMultiple(x + y, -d - e, m);
    case SSub | USub =>
      ShiftedSum(x, -y, d, -e, m);
      Signs(e, m);
      ModPlusMultiple(x - y, e - d, m);
    case SMul | UMul =>
      ShiftedProduct(x, y, d, e, m);
      ModPlusMultiple(x * y, d * e * m - d * y - e * x, m);
  }

  lemma ShiftedSum(x: int, y: int, d: int, e: int, m: int)
    ensures (x - d * m) + (y - e * m) == x + y + (-d - e) * m
  {
  }

  lemma ShiftedProduct(x: int, y: int, d: int, e: int, m: int)
    ensures (x - d * m) * (y - e * m) == x * y + (d * e * m - d * y - e * x) * m
  {
    assert (x - d * m) * (y - e * m) == x * (y - e * m) - d * m * (y - e * m);
    assert x * (y - e * m) == x * y - e * x * m;
    assert d * m * (y - e * m) == d * y * m - d * e * m * m;
    assert (d * e * m - d * y - e * x) * m == d * e * m * m - d * y * m - e * x * m;
  }

  /** The logical operations work digit by digit. */
  lemma LogicMeaning(w: Width, x: nat, y: nat, k: nat)
    requires x < Pow2(w) && y < Pow2(w)
    ensures Digit(Apply(And, w, x, y), k) <==> Digit(x, k) && Digit(y, k)
    ensures Digit(Apply(Or, w, x, y), k) <==> Digit(x, k) || Digit(y, k)
    ensures Digit(Apply(Xor, w, x, y), k) <==> (Digit(x, k) != Digit(y, k))
  {
    LogicFits(w, x, y);
    WrapSmall(w, BitAnd(x, y));
    WrapSmall(w, BitOr(x, y));
    WrapSmall(w, BitXor(x, y));
    LogicDigit(x, y, k);
  }

  lemma {:induction false} LogicFits(w: nat, x: nat, y: nat)
    requires x < Pow2(w) && y < Pow2(w)
    ensures BitAnd(x, y) < Pow2(w) && BitOr(x, y) < Pow2(w) && BitXor(x, y) < Pow2(w)
  {
    if w != 0 && x != 0 && y != 0 { LogicFits(w - 1, x / 2, y / 2); }
  }

  lemma {:induction false} LogicDigit(x: nat, y: nat, k: nat)
    ensures Digit(BitAnd(x, y), k) <==> Digit(x, k) && Digit(y, k)
    ensures Digit(BitOr(x, y), k) <==> Digit(x, k) || Digit(y, k)
    ensures Digit(BitXor(x, y), k) <==> (Digit(x, k) != Digit(y, k))
  {
    if x == 0 || y == 0 {
      ZeroDigit(k);
    } else if k == 0 {
      LogicLast(x, y);
    } else {
      LogicDigit(x / 2, y / 2, k - 1);
      LogicHalves(x, y);
    }
  }

  lemma LogicLast(x: nat, y: nat)
    requires x != 0 && y != 0
    ensures BitAnd(x, y) % 2 == 1 <==> x % 2 == 1 && y % 2 == 1
    ensures BitOr(x, y) % 2 == 1 <==> x % 2 == 1 || y % 2 == 1
    ensures BitXor(x, y) % 2 == 1 <==> x % 2 != y % 2
  {
    WithDigit(BitAnd(x / 2, y / 2), x % 2 == 1 && y % 2 == 1);
    WithDigit(BitOr(x / 2, y / 2), x % 2 == 1 || y % 2 == 1);
    WithDigit(BitXor(x / 2, y / 2), x % 2 != y % 2);
  }

  lemma LogicHalves(x: nat, y: nat)
    requires x != 0 && y != 0
    ensures BitAnd(x, y) / 2 == BitAnd(x / 2, y / 2)
    ensures BitOr(x, y) / 2 == BitOr(x / 2, y / 2)
    ensures BitXor(x, y) / 2 == BitXor(x / 2, y / 2)
  {
    WithDigit(BitAnd(x / 2, y / 2), x % 2 == 1 && y % 2 == 1);
    WithDigit(BitOr(x / 2, y / 2), x % 2 == 1 || y % 2 == 1);
    WithDigit(BitXor(x / 2, y / 2), x % 2 != y % 2);
  }

  lemma WithDigit(high: nat, one: bool)
    ensures (2 * high + if one then 1 else 0) % 2 == (if one then 1 else 0)
    ensures (2 * high + if one then 1 else 0) / 2 == high
  {
  }

  lemma {:induction false} ZeroDigit(k: nat)
    ensures !Digit(0, k)
  {
    if k != 0 { ZeroDigit(k - 1); }
  }

  /** A left shift moves digits up, a right shift down, and an arithmetic one repeats the sign. */
  lemma ShiftMeaning(w: Width, x: nat, s: nat, k: nat)
    requires x < Pow2(w) && s < w && k < w
    ensures Digit(Apply(Shl, w, x, s), k) <==> s <= k && Digit(x, k - s)
    ensures Digit(Apply(LShr, w, x, s), k) <==> k + s < w && Digit(x, k + s)
    ensures Digit(Apply(AShr, w, x, s), k) <==> Digit(x, if k + s < w then k + s else w - 1)
  {
    ShiftedUp(x, s, k);
    LowDigits(x * Pow2(s), w, k);
    LogicalDigits(w, x, s, k);
    ArithmeticDigits(w, x, s, k);
  }

  lemma LogicalDigits(w: Width, x: nat, s: nat, k: nat)
    requires x < Pow2(w)
    ensures Digit(Apply(LShr, w, x, s), k) <==> k + s < w && Digit(x, k + s)
  {
    HalvesIsQuotient(x, s);
    QuotientSmall(x, Pow2(s));
    WrapSmall(w, Halves(x, s));
    ShiftedDown(x, s, k);
    if k + s >= w { HighDigits(x, w, k + s); }
  }

  lemma {:induction false} ShiftedUp(x: nat, s: nat, k: nat)
    ensures Digit(x * Pow2(s), k) <==> s <= k && Digit(x, k - s)
  {
    if s != 0 {
      Halved(x, Pow2(s - 1));
      assert x * Pow2(s) == 2 * (x * Pow2(s - 1));
      if k != 0 { ShiftedUp(x, s - 1, k - 1); }
    }
  }

  lemma Halved(x: nat, p: nat)
    ensures x * (2 * p) == 2 * (x * p) && 2 * (x * p) / 2 == x * p && 2 * (x * p) % 2 == 0
  {
  }

  /** `x` halved `s` times. */
  function Halves(x: nat, s: nat): nat { if s == 0 then x else Halves(x / 2, s - 1) }

  lemma {:induction false} HalvesIsQuotient(x: nat, s: nat)
    ensures Halves(x, s) == x / Pow2(s)
  {
    if s != 0 {
      HalvesIsQuotient(x / 2, s - 1);
      QuotientOfQuotient(x, 2, Pow2(s - 1));
    }
  }

  lemma {:induction false} ShiftedDown(x: nat, s: nat, k: nat)
    ensures Digit(Halves(x, s), k) <==> Digit(x, k + s)
  {
    if s != 0 { ShiftedDown(x / 2, s - 1, k); }
  }

  lemma QuotientOfQuotient(x: nat, a: nat, b: nat)
    requires a > 0 && b > 0
    ensures a * b > 0 && x / a / b == x / (a * b)
  {
    var q, r := x / a, x % a;
    var q', r' := q / b, q % b;
    assert x == q * a + r && q == q' * b + r';
    Regroup(q', b, r', a, r);
    RemainderBound(r', b, r, a);
    DivModUnique(x, q', r' * a + r, a * b);
  }

  lemma Regroup(q: int, b: int, s: int, a: int, r: int)
    ensures (q * b + s) * a + r == q * (a * b) + (s * a + r)
  {
    assert (q * b + s) * a == q * b * a + s * a;
    assert q * b * a == q * (a * b);
  }

  lemma RemainderBound(s: nat, b: nat, r: nat, a: nat)
    requires s < b && r < a
    ensures a * b > 0 && 0 <= s * a + r < a * b
  {
    MulMonotone(s + 1, b, a);
    assert (s + 1) * a == s * a + a && b * a == a * b;
    MulNonNegative(s, a);
  }

  /** Cutting to `w` digits keeps the low ones. */
  lemma {:induction false} LowDigits(x: nat, w: nat, k: nat)
    requires k < w
    ensures Digit(x % Pow2(w), k) <==> Digit(x, k)
    decreases w
  {
    LowHalf(x, Pow2(w - 1));
    if k != 0 { LowDigits(x / 2, w - 1, k - 1); }
  }

  lemma LowHalf(x: nat, m: nat)
    requires m > 0
    ensures x % (2 * m) % 2 == x % 2 && x % (2 * m) / 2 == x / 2 % m
  {
    var h := x / 2;
    var q, r := h / m, h % m;
    assert h == q * m + r && x == 2 * h + x % 2;
    assert q * (2 * m) == 2 * (q * m);
    DivModUnique(x, q, 2 * r + x % 2, 2 * m);
  }

  lemma {:induction false} HighDigits(x: nat, w: nat, k: nat)
    requires x < Pow2(w) && w <= k
    ensures !Digit(x, k)
  {
    if k == 0 {
    } else if w == 0 {
      ZeroDigit(k);
    } else {
      HighDigits(x / 2, w - 1, k - 1);
    }
  }

  lemma ArithmeticDigits(w: Width, x: nat, s: nat, k: nat)
    requires x < Pow2(w) && s < w && k < w
    ensures Digit(Apply(AShr, w, x, s), k) <==> Digit(x, if k + s < w then k + s else w - 1)
  {
    TopDigit(x, w - 1);
    if x < Pow2(w - 1) {
      PositiveDigits(w, x, s, k);
    } else {
      NegativeDigits(w, x, s, k);
    }
  }

  lemma PositiveDigits(w: Width, x: nat, s: nat, k: nat)
    requires x < Pow2(w - 1) && s < w && k < w
    ensures Digit(Apply(AShr, w, x, s), k) <==> k + s < w && Digit(x, k + s)
  {
    LogicalDigits(w, x, s, k);
    assert Apply(AShr, w, x, s) == Apply(LShr, w, x, s);
  }

  /** An arithmetic shift of a negative pattern is the shift of the pattern with ones above it. */
  lemma NegativeDigits(w: Width, x: nat, s: nat, k: nat)
    requires Pow2(w - 1) <= x < Pow2(w) && s < w && k < w
    ensures Digit(Apply(AShr, w, x, s), k) <==> k + s >= w || Digit(x, k + s)
  {
    var ones := Pow2(w) * (Pow2(s) - 1);
    SignExtended(w, x, s);
    HalvesIsQuotient(x + ones, s);
    DigitOfQuotient(x + ones, w, s, k);
    ExtendedDigits(x, w, s, k + s);
  }

  lemma DigitOfQuotient(y: nat, w: nat, s: nat, k: nat)
    requires k < w
    ensures Digit(Halves(y, s) % Pow2(w), k) <==> Digit(y, k + s)
  {
    LowDigits(Halves(y, s), w, k);
    ShiftedDown(y, s, k);
  }

  /** Modulo 2^w the quotient is that of the pattern extended by `s` ones. */
  lemma SignExtended(w: Width, x: nat, s: nat)
    requires Pow2(w - 1) <= x < Pow2(w)
    ensures var ones := Pow2(w) * (Pow2(s) - 1);
      ones >= 0 && Apply(AShr, w, x, s) == (x + ones) / Pow2(s) % Pow2(w)
  {
    var m, d := Pow2(w), Pow2(s);
    var ones := m * (d - 1);
    MulNonNegative(m, d - 1);
    assert ones == m * d - m;
    assert x + ones == (x - m) + m * d;
    QuotientPlusMultiple(x - m, m, d);
    ModPlusMultiple((x - m) / d, 1, m);
  }

  lemma QuotientPlusMultiple(x: int, q: int, d: nat)
    requires d > 0
    ensures (x + q * d) / d == x / d + q
  {
    var k, r := x / d, x % d;
    assert x + q * d == (k + q) * d + r by {
      assert (k + q) * d == k * d + q * d;
    }
    DivModUnique(x + q * d, k + q, r, d);
  }

  /** The digits of a pattern of `w` digits below `s` ones. */
  lemma {:induction false} ExtendedDigits(x: nat, w: nat, s: nat, k: nat)
    requires x < Pow2(w) && k < w + s
    ensures Pow2(w) * (Pow2(s) - 1) >= 0
    ensures Digit(x + Pow2(w) * (Pow2(s) - 1), k) <==> if k < w then Digit(x, k) else true
    decreases w + s
  {
    MulNonNegative(Pow2(w), Pow2(s) - 1);
    if w == 0 {
      OnesDigit(s, k);
    } else {
      var ones := Pow2(w - 1) * (Pow2(s) - 1);
      MulNonNegative(Pow2(w - 1), Pow2(s) - 1);
      assert Pow2(w) * (Pow2(s) - 1) == 2 * ones;
      assert (x + 2 * ones) / 2 == x / 2 + ones && (x + 2 * ones) % 2 == x % 2;
      if k != 0 { ExtendedDigits(x / 2, w - 1, s, k - 1); }
    }
  }

  lemma {:induction false} OnesDigit(s: nat, k: nat)
    requires k < s
    ensures Digit(Pow2(s) - 1, k)
  {
    if k != 0 {
      OnesDigit(s - 1, k - 1);
      assert (Pow2(s) - 1) / 2 == Pow2(s - 1) - 1;
    }
  }

  /** The ten comparisons, from the order of numbers and of their signed readings. */
  lemma ComparisonMeaning(w: Width, x: nat, y: nat)
    requires x < Pow2(w) && y < Pow2(w)
    ensures Compare(EQ, w, x, y) <==> x == y
    ensures Compare(ULT, w, x, y) <==> x < y
    ensures Compare(SLT, w, x, y) <==>
      if Digit(x, w - 1) == Digit(y, w - 1) then x < y else Digit(x, w - 1)
    ensures Compare(NE, w, x, y) <==> !Compare(EQ, w, x, y)
    ensures Compare(ULE, w, x, y) <==> Compare(ULT, w, x, y) || x == y
    ensures Compare(SLE, w, x, y) <==> Compare(SLT, w, x, y) || x == y
    ensures Compare(UGT, w, x, y) <==> Compare(ULT, w, y, x)
    ensures Compare(UGE, w, x, y) <==> Compare(ULE, w, y, x)
    ensures Compare(SGT, w, x, y) <==> Compare(SLT, w, y, x)
    ensures Compare(SGE, w, x, y) <==> Compare(SLE, w, y, x)
  {
    SignedMeaning(w, x);
    SignedMeaning(w, y);
  }
}
