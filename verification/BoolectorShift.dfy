/** Shifts lowered to operations that demand a power-of-two width and a logarithmic amount. */
module BoolectorShift {
  import opened Bits
  import opened ModularArithmetic
  import opened References

  datatype Kind = Left | LogicalRight | ArithmeticRight

  datatype Node =
    | Input(width: Width, name: nat)
    | Uext(operand: Node, extra: Width)
    | Slice(operand: Node, upper: nat, lower: nat)
    | Shift(kind: Kind, operand: Node, amount: Node)

  type Env = nat -> nat

  function WidthOf(e: Node): nat {
    match e
    case Input(w, _) => w
    case Uext(a, extra) => WidthOf(a) + extra
    case Slice(_, upper, lower) => if lower <= upper then upper - lower + 1 else 1
    case Shift(_, a, _) => WidthOf(a)
  }

  function Eval(e: Node, env: Env): nat {
    match e
    case Input(w, name) => Wrap(w, env(name))
    case Uext(a, _) => Eval(a, env)
    case Slice(a, _, lower) => Wrap(WidthOf(e), Quotient(Eval(a, env), Pow2(lower)))
    case Shift(kind, a, s) => Shifted(kind, WidthOf(a), Eval(a, env), Eval(s, env))
  }

  /** What a shift does at the width of its operand. */
  function Shifted(kind: Kind, n: nat, x: nat, s: nat): nat {
    match kind
    case Left => Wrap(n, x * Pow2(s))
    case LogicalRight => Quotient(x, Pow2(s))
    case ArithmeticRight => Wrap(n, (if n == 0 || x < Pow2(n - 1) then x else x - Pow2(n)) / Pow2(s))
  }

  function Quotient(x: nat, d: nat): (q: nat)
    requires d > 0
    ensures q <= x
  {
    QuotientSmall(x, d);
    x / d
  }

  /** The bits needed to write `x`: 32 less the leading zeros. */
  function BitLength(x: nat): nat { if x == 0 then 0 else 1 + BitLength(x / 2) }

  lemma {:induction false} BitLengthBounds(x: nat)
    ensures x < Pow2(BitLength(x)) <= 2 * x + 1
    ensures BitLength(x) <= x
  {
    if x != 0 { BitLengthBounds(x / 2); }
  }

  /** The exponent the lowering picks: the least one whose power reaches `n`. */
  function Amount(n: nat): (a: nat)
    requires n >= 2
    ensures n <= Pow2(a) && 1 <= a < n
  {
    BitLengthBounds(n - 1);
    BitLength(n - 1)
  }

  lemma AmountIsLeast(n: nat, k: nat)
    requires n >= 2 && n <= Pow2(k)
    ensures Amount(n) <= k
  {
    BitLengthBounds(n - 1);
    if k < Amount(n) {
      Pow2Monotone(k + 1, Amount(n));
    }
  }

  /** The node the lowering returns. */
  function Lowered(kind: Kind, e0: Node, e1: Node): Node
    requires WidthOf(e1) >= 2
  {
    var n := WidthOf(e1);
    var amount := Amount(n);
    if Pow2(amount) == n then Shift(kind, e0, Slice(e1, amount - 1, 0))
    else Slice(Shift(kind, Uext(e0, Pow2(amount) - n), Slice(e1, amount - 1, 0)), n - 1, 0)
  }

  class Boolector {
    var refs: map<Node, nat>

    constructor ()
      ensures forall y :: Count(refs, y) == 0
    {
      refs := map[];
    }

    method MakeUext(e: Node, extra: Width) returns (r: Node)
      requires Count(refs, e) > 0
      modifies this
      ensures r == Uext(e, extra)
      ensures forall y :: Count(refs, y) == old(Count(refs, y)) + One(y == r)
    {
      r := Uext(e, extra);
      refs := refs[r := Count(refs, r) + 1];
    }

    method MakeSlice(e: Node, upper: nat, lower: nat) returns (r: Node)
      requires Count(refs, e) > 0 && lower <= upper < WidthOf(e)
      modifies this
      ensures r == Slice(e, upper, lower)
      ensures forall y :: Count(refs, y) == old(Count(refs, y)) + One(y == r)
    {
      r := Slice(e, upper, lower);
      refs := refs[r := Count(refs, r) + 1];
    }

    /** The operand's width must be two to the width of the amount. */
    method MakeShift(kind: Kind, e: Node, s: Node) returns (r: Node)
      requires Count(refs, e) > 0 && Count(refs, s) > 0
      requires WidthOf(e) == Pow2(WidthOf(s))
      modifies this
      ensures r == Shift(kind, e, s)
      ensures forall y :: Count(refs, y) == old(Count(refs, y)) + One(y == r)
    {
      r := Shift(kind, e, s);
      refs := refs[r := Count(refs, r) + 1];
    }

    method Release(e: Node)
      requires Count(refs, e) > 0
      modifies this
      ensures forall y :: Count(refs, y) + One(y == e) == old(Count(refs, y))
    {
      refs := refs[e := Count(refs, e) - 1];
    }

    /** The lowering leaves one new reference, to its result, and none to the nodes it made on the
        way. */
    method LowerShift(kind: Kind, lhs: Node, rhs: Node) returns (result: Node)
      requires Count(refs, lhs) > 0 && Count(refs, rhs) > 0
      requires WidthOf(lhs) == WidthOf(rhs) >= 2
      modifies this
      ensures result == Lowered(kind, lhs, rhs)
      ensures forall y :: Count(refs, y) == old(Count(refs, y)) + One(y == result)
    {
      var e0, e1 := lhs, rhs;
      var n := WidthOf(e1);
      var amount := Amount(n);
      var power2 := Pow2(amount);
      if power2 != n {
        e0 := MakeUext(e0, power2 - n);
      }
      result := ShiftByLow(kind, e0, e1, amount);
      if power2 != n {
        Release(e0);
        result := Cut(result, n);
      }
    }

    /** Shift by the low bits of `e1`. */
    method ShiftByLow(kind: Kind, e0: Node, e1: Node, bits: Width) returns (r: Node)
      requires Count(refs, e0) > 0 && Count(refs, e1) > 0
      requires bits <= WidthOf(e1) && WidthOf(e0) == Pow2(bits)
      modifies this
      ensures r == Shift(kind, e0, Slice(e1, bits - 1, 0))
      ensures forall y :: Count(refs, y) == old(Count(refs, y)) + One(y == r)
    {
      assert WidthOf(Slice(e1, bits - 1, 0)) == bits;
      var log2w := MakeSlice(e1, bits - 1, 0);
      r := MakeShift(kind, e0, log2w);
      Release(log2w);
    }

    /** Replace a node by its low bits. */
    method Cut(e: Node, n: Width) returns (r: Node)
      requires Count(refs, e) > 0 && n <= WidthOf(e)
      modifies this
      ensures r == Slice(e, n - 1, 0)
      ensures forall y :: Count(refs, y) + One(y == e) == old(Count(refs, y)) + One(y == r)
    {
      r := MakeSlice(e, n - 1, 0);
      Release(e);
    }
  }

  // ------------------------------------------------------------------ meaning

  lemma WrapOfWrap(n: nat, p: nat, x: int)
    requires n <= p
    ensures Wrap(n, Wrap(p, x)) == Wrap(n, x)
  {
    Pow2Sum(p - n, n);
    ModOfMod(x, Pow2(p - n), Pow2(n));
  }

  lemma ModOfMod(x: int, a: nat, m: nat)
    requires a > 0 && m > 0 && a * m > 0
    ensures (x % (a * m)) % m == x % m
  {
    var q, r := x / (a * m), x % (a * m);
    MultipleOf(q, a, m);
    ModPlusMultiple(r, q * a, m);
  }

  lemma MultipleOf(q: int, a: int, b: int)
    ensures q * (a * b) == (q * a) * b
  {
  }

  lemma QuotientMinusMultiple(x: int, q: int, d: int, m: int)
    requires d > 0 && m == q * d
    ensures (x - m) / d == x / d - q
  {
    var k, r := x / d, x % d;
    assert x - m == (k - q) * d + r by {
      assert (k - q) * d == k * d - q * d;
    }
    DivModUnique(x - m, k - q, r, d);
  }

  /** The low bits of the amount are the amount modulo the chosen power. */
  lemma AmountMeaning(e1: Node, env: Env)
    requires WidthOf(e1) >= 2
    ensures var amount := Amount(WidthOf(e1));
      1 <= amount && Eval(Slice(e1, amount - 1, 0), env) == Wrap(amount, Eval(e1, env))
  {
    LowBits(e1, Amount(WidthOf(e1)), env);
  }

  /** The value of the lowered node, whatever the amount: the amount is reduced modulo the chosen
      power of two, and an arithmetic shift at any other width fills with zeros. */
  lemma LoweredMeaning(kind: Kind, e0: Node, e1: Node, n: Width, s: nat, env: Env)
    requires WidthOf(e0) == WidthOf(e1) == n >= 2 && Eval(e0, env) < Pow2(n)
    requires s == Wrap(Amount(n), Eval(e1, env))
    ensures WidthOf(Lowered(kind, e0, e1)) == n
    ensures Eval(Lowered(kind, e0, e1), env) ==
      Shifted(if Pow2(Amount(n)) == n || kind == Left then kind else LogicalRight, n, Eval(e0, env), s)
  {
    var low := Slice(e1, Amount(n) - 1, 0);
    AmountMeaning(e1, env);
    if Pow2(Amount(n)) == n {
      ShiftMeaning(kind, e0, low, env);
    } else {
      WideMeaning(kind, e0, low, n, Pow2(Amount(n)), env);
    }
  }

  lemma ShiftMeaning(kind: Kind, e: Node, amount: Node, env: Env)
    ensures Eval(Shift(kind, e, amount), env) == Shifted(kind, WidthOf(e), Eval(e, env), Eval(amount, env))
    ensures WidthOf(Shift(kind, e, amount)) == WidthOf(e)
  {
  }

  /** Extend, shift and cut back, at any wider width. */
  lemma WideMeaning(kind: Kind, e: Node, amount: Node, n: Width, power: Width, env: Env)
    requires WidthOf(e) == n < power && Eval(e, env) < Pow2(n)
    ensures Eval(Slice(Shift(kind, Uext(e, power - n), amount), n - 1, 0), env)
      == Shifted(if kind == Left then Left else LogicalRight, n, Eval(e, env), Eval(amount, env))
  {
    ExtendedShift(kind, e, power - n, amount, env);
    LowBits(Shift(kind, Uext(e, power - n), amount), n, env);
    WideShift(kind, n, power, Eval(e, env), Eval(amount, env));
  }

  lemma ExtendedShift(kind: Kind, e: Node, extra: Width, amount: Node, env: Env)
    ensures Eval(Shift(kind, Uext(e, extra), amount), env)
      == Shifted(kind, WidthOf(e) + extra, Eval(e, env), Eval(amount, env))
  {
    assert WidthOf(Uext(e, extra)) == WidthOf(e) + extra && Eval(Uext(e, extra), env) == Eval(e, env);
  }

  lemma LowBits(e: Node, n: Width, env: Env)
    ensures WidthOf(Slice(e, n - 1, 0)) == n && Eval(Slice(e, n - 1, 0), env) == Wrap(n, Eval(e, env))
  {
    assert Quotient(Eval(e, env), Pow2(0)) == Eval(e, env);
  }

  lemma WideShift(kind: Kind, n: Width, power: Width, x: nat, s: nat)
    requires n < power && x < Pow2(n)
    ensures Wrap(n, Shifted(kind, power, x, s)) == Shifted(if kind == Left then Left else LogicalRight, n, x, s)
  {
    match kind
    case Left => WrapOfWrap(n, power, x * Pow2(s));
    case LogicalRight =>
      WrapSmall(n, Quotient(x, Pow2(s)));
    case ArithmeticRight =>
      Pow2Monotone(n, power - 1);
      WrapSmall(power, Quotient(x, Pow2(s)));
      WrapSmall(n, Quotient(x, Pow2(s)));
  }

  function Opcode(kind: Kind): BinaryOp {
    match kind
    case Left => Shl
    case LogicalRight => LShr
    case ArithmeticRight => AShr
  }

  /** At one width, a node shifts as the program's opcode of that name does. */
  lemma ShiftedIsOpcode(kind: Kind, n: Width, x: nat, s: nat)
    requires x < Pow2(n)
    ensures Shifted(kind, n, x, s) == Apply(Opcode(kind), n, x, s)
  {
    if kind == LogicalRight { WrapSmall(n, Quotient(x, Pow2(s))); }
  }

  /** For every amount below the width, left and logical shifts are exact.  An arithmetic shift is
      exact just when the width is a power of two, the operand is not negative, or nothing is
      shifted. */
  lemma LoweredIsExact(kind: Kind, e0: Node, e1: Node, env: Env)
    requires WidthOf(e0) == WidthOf(e1) >= 2 && Eval(e0, env) < Pow2(WidthOf(e0))
    requires Eval(e1, env) < WidthOf(e1)
    ensures var n, x, s := WidthOf(e1), Eval(e0, env), Eval(e1, env);
      Eval(Lowered(kind, e0, e1), env) == Apply(Opcode(kind), n, x, s)
      <==> kind != ArithmeticRight || Pow2(Amount(n)) == n || x < Pow2(n - 1) || s == 0
  {
    var n, x, s := WidthOf(e1), Eval(e0, env), Eval(e1, env);
    WrapSmall(Amount(n), s);
    LoweredMeaning(kind, e0, e1, n, s, env);
    ShiftedIsOpcode(kind, n, x, s);
    ZeroFillIsExact(n, x, s);
  }

  /** At three bits, -4 shifted right by one is -2; the lowering gives 2. */
  lemma ThreeBitShiftDiffers(e0: Node, e1: Node, env: Env)
    requires WidthOf(e0) == WidthOf(e1) == 3 && Eval(e0, env) == 4 && Eval(e1, env) == 1
    ensures Eval(Lowered(ArithmeticRight, e0, e1), env) == 2 && Apply(AShr, 3, 4, 1) == 6
  {
    ThreeBits();
    LoweredMeaning(ArithmeticRight, e0, e1, 3, 1, env);
  }

  lemma ThreeBits()
    ensures Pow2(3) == 8 && Amount(3) == 2 && Pow2(2) == 4 && Wrap(2, 1) == 1
    ensures Shifted(LogicalRight, 3, 4, 1) == 2 && Apply(AShr, 3, 4, 1) == 6
  {
    assert Pow2(1) == 2 && Pow2(2) == 4 && Pow2(3) == 8;
    assert BitLength(1) == 1 && BitLength(2) == 2;
    assert Signed(3, 4) == -4;
  }

  /** Filling with zeros is what an arithmetic shift does only without a sign or without a shift. */
  lemma ZeroFillIsExact(n: Width, x: nat, s: nat)
    requires x < Pow2(n) && s < n
    ensures Shifted(LogicalRight, n, x, s) == Shifted(ArithmeticRight, n, x, s) <==> x < Pow2(n - 1) || s == 0
  {
    if x < Pow2(n - 1) {
      WrapSmall(n, Quotient(x, Pow2(s)));
    } else {
      SignFill(n, x, s);
    }
  }

  /** Shifting a negative pattern right brings in as many ones as places shifted. */
  lemma SignFill(n: Width, x: nat, s: nat)
    requires Pow2(n - 1) <= x < Pow2(n) && s < n
    ensures Shifted(ArithmeticRight, n, x, s) == Quotient(x, Pow2(s)) + (Pow2(n) - Pow2(n - s))
    ensures s > 0 ==> Pow2(n - s) < Pow2(n)
  {
    Pow2Sum(n - s, s);
    Pow2Monotone(n - s, n);
    if s > 0 { Pow2Monotone(n - s, n - 1); }
    FilledQuotient(x, Pow2(n), Pow2(n - s), Pow2(s));
  }

  lemma FilledQuotient(x: nat, m: nat, q: nat, d: nat)
    requires d > 0 && m == q * d && x < m && q <= m
    ensures ((x - m) / d) % m == Quotient(x, d) + (m - q)
  {
    QuotientMinusMultiple(x, q, d, m);
    QuotientBelow(x, q, d);
    FilledRemainder((x - m) / d, x / d, q, m);
  }

  lemma FilledRemainder(a: int, k: nat, q: nat, m: nat)
    requires a == k - q && k < q <= m
    ensures a % m == k + (m - q)
  {
    NegativeRemainder(a, m);
  }

  lemma NegativeRemainder(x: int, m: nat)
    requires m > 0 && 0 - m <= x < 0
    ensures x % m == x + m
  {
    ModPlusMultiple(x, 1, m);
    ModSmall(x + m, m);
  }

  lemma QuotientBelow(x: nat, q: nat, d: nat)
    requires d > 0 && x < q * d
    ensures x / d < q
  {
    var r := x / d;
    assert x == r * d + x % d;
    if r >= q {
      MulMonotone(q, r, d);
    }
  }
}
