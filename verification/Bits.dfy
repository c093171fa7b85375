/** Fixed-width integer arithmetic over mathematical integers.

    A value of width `w` is a natural number below `Pow2(w)`.  The operations below give every
    opcode one total meaning, which the interpreter of the analysed program and the evaluator of
    solver formulas share.  Where LLVM leaves an operation undefined (a zero divisor, an
    over-long shift) the meaning is the one the bit-vector theory gives it. */
module Bits {

  type Width = w: nat | 1 <= w witness 1

  function Pow2(n: nat): (r: nat)
    ensures 1 <= r
  {
    if n == 0 then 1 else 2 * Pow2(n - 1)
  }

  function UMax(w: nat): nat { Pow2(w) - 1 }

  /** Two's complement truncation to `w` bits. */
  function Wrap(w: nat, x: int): (r: nat)
    ensures r < Pow2(w)
  {
    x % Pow2(w)
  }

  /** The signed reading of a `w`-bit pattern. */
  function Signed(w: Width, x: int): int {
    if x < Pow2(w - 1) then x else x - Pow2(w)
  }

  function SMax(w: Width): int { Pow2(w - 1) - 1 }

  function SMin(w: Width): int { 0 - Pow2(w - 1) }

  function Abs(x: int): nat { if x < 0 then -x else x }

  /** Division that truncates toward zero, as C and LLVM do. */
  function TruncDiv(x: int, y: int): int
    requires y != 0
  {
    if (x < 0) == (y < 0) then Abs(x) / Abs(y) else -(Abs(x) / Abs(y))
  }

  function TruncRem(x: int, y: int): int
    requires y != 0
  {
    x - TruncDiv(x, y) * y
  }

  function BitAnd(x: nat, y: nat): nat {
    if x == 0 || y == 0 then 0
    else 2 * BitAnd(x / 2, y / 2) + if x % 2 == 1 && y % 2 == 1 then 1 else 0
  }

  function BitOr(x: nat, y: nat): nat {
    if x == 0 then y else if y == 0 then x
    else 2 * BitOr(x / 2, y / 2) + if x % 2 == 1 || y % 2 == 1 then 1 else 0
  }

  function BitXor(x: nat, y: nat): nat {
    if x == 0 then y else if y == 0 then x
    else 2 * BitXor(x / 2, y / 2) + if x % 2 != y % 2 then 1 else 0
  }

  datatype BinaryOp =
    Add | Sub | Mul | UDiv | SDiv | URem | SRem | Shl | LShr | AShr | And | Or | Xor

  datatype Predicate = EQ | NE | UGT | UGE | ULT | ULE | SGT | SGE | SLT | SLE

  datatype OverflowOp = SAdd | UAdd | SSub | USub | SMul | UMul

  /** The unbounded result of an opcode, before it is cut to `w` bits. */
  function Raw(op: BinaryOp, w: Width, x: nat, y: nat): int {
    match op
    case Add => x + y
    case Sub => x - y
    case Mul => x * y
    case UDiv => if y == 0 then UMax(w) else x / y
    case SDiv =>
      var sx, sy := Signed(w, x), Signed(w, y);
      if sy == 0 then (if sx < 0 then 1 else -1) else TruncDiv(sx, sy)
    case URem => if y == 0 then x else x % y
    case SRem =>
      var sx, sy := Signed(w, x), Signed(w, y);
      if sy == 0 then sx else TruncRem(sx, sy)
    case Shl => x * Pow2(y)
    case LShr => x / Pow2(y)
    case AShr => Signed(w, x) / Pow2(y)
    case And => BitAnd(x, y)
    case Or => BitOr(x, y)
    case Xor => BitXor(x, y)
  }

  function Apply(op: BinaryOp, w: Width, x: nat, y: nat): (r: nat)
    ensures r < Pow2(w)
  {
    Wrap(w, Raw(op, w, x, y))
  }

  predicate Compare(p: Predicate, w: Width, x: nat, y: nat) {
    match p
    case EQ => x == y
    case NE => x != y
    case UGT => x > y
    case UGE => x >= y
    case ULT => x < y
    case ULE => x <= y
    case SGT => Signed(w, x) > Signed(w, y)
    case SGE => Signed(w, x) >= Signed(w, y)
    case SLT => Signed(w, x) < Signed(w, y)
    case SLE => Signed(w, x) <= Signed(w, y)
  }

  /** The predicate that holds when `p` does not. */
  function Inverse(p: Predicate): Predicate {
    match p
    case EQ => NE case NE => EQ
    case UGT => ULE case ULE => UGT
    case UGE => ULT case ULT => UGE
    case SGT => SLE case SLE => SGT
    case SGE => SLT case SLT => SGE
  }

  /** The predicate for the operands in the other order. */
  function Swapped(p: Predicate): Predicate {
    match p
    case EQ => EQ case NE => NE
    case UGT => ULT case ULT => UGT
    case UGE => ULE case ULE => UGE
    case SGT => SLT case SLT => SGT
    case SGE => SLE case SLE => SGE
  }

  lemma PredicateForms(p: Predicate, w: Width, x: nat, y: nat)
    ensures Compare(Inverse(p), w, x, y) <==> !Compare(p, w, x, y)
    ensures Compare(Swapped(p), w, y, x) <==> Compare(p, w, x, y)
  {
  }

  /** The operation whose wrapped result and overflow bit an intrinsic returns. */
  function Underlying(op: OverflowOp): BinaryOp {
    match op
    case SAdd | UAdd => Add
    case SSub | USub => Sub
    case SMul | UMul => Mul
  }

  predicate IsSignedOp(op: OverflowOp) { op.SAdd? || op.SSub? || op.SMul? }

  function Exact(op: OverflowOp, x: int, y: int): int {
    match op
    case SAdd | UAdd => x + y
    case SSub | USub => x - y
    case SMul | UMul => x * y
  }

  /** The overflow bit: the exact result of the operation does not fit the width. */
  predicate Overflows(op: OverflowOp, w: Width, x: nat, y: nat) {
    if IsSignedOp(op) then
      !(SMin(w) <= Exact(op, Signed(w, x), Signed(w, y)) <= SMax(w))
    else
      !(0 <= Exact(op, x, y) <= UMax(w))
  }

  function Bit(b: bool): (r: nat)
    ensures r < 2
  {
    if b then 1 else 0
  }

  /** Complement of a `w`-bit pattern. */
  function Not(w: Width, x: nat): (r: nat)
    ensures r < Pow2(w)
  {
    Wrap(w, UMax(w) - x)
  }

  function SignExtend(from: Width, to: nat, x: nat): (r: nat)
    ensures r < Pow2(to)
  {
    Wrap(to, Signed(from, x))
  }

  lemma SignedRange(w: Width, x: nat)
    requires x < Pow2(w)
    ensures SMin(w) <= Signed(w, x) <= SMax(w)
  {
  }

  lemma SignedLandmarks(w: Width)
    ensures Signed(w, 0) == 0 && Signed(w, UMax(w)) == -1 && Signed(w, SMax(w)) == SMax(w)
    ensures 0 <= SMax(w) < UMax(w)
  {
  }

  lemma {:induction false} WrapSmall(w: nat, x: nat)
    requires x < Pow2(w)
    ensures Wrap(w, x) == x
  {
    ModSmall(x, Pow2(w));
  }

  lemma ModSmall(x: nat, m: nat)
    requires x < m
    ensures x % m == x
  {
  }

  lemma {:induction false} Pow2Monotone(a: nat, b: nat)
    requires a <= b
    ensures Pow2(a) <= Pow2(b)
    decreases b - a
  {
    if a < b {
      Pow2Monotone(a, b - 1);
    }
  }

  lemma {:induction false} Pow2Sum(a: nat, b: nat)
    ensures Pow2(a + b) == Pow2(a) * Pow2(b)
  {
    if a != 0 {
      var c := a - 1;
      Pow2Sum(c, b);
      assert Pow2(a + b) == 2 * Pow2(c + b);
      DoubledProduct(Pow2(c), Pow2(b));
    }
  }

  lemma DoubledProduct(x: int, y: int)
    ensures 2 * x * y == 2 * (x * y)
  {
  }

  lemma OneBitTables()
    ensures Pow2(1) == 2
    ensures BitAnd(0, 0) == BitAnd(0, 1) == BitAnd(1, 0) == 0 && BitAnd(1, 1) == 1
    ensures BitOr(0, 0) == 0 && BitOr(0, 1) == BitOr(1, 0) == BitOr(1, 1) == 1
  {
  }

  lemma OneBitAnd(x: nat, y: nat)
    requires x < 2 && y < 2
    ensures Apply(And, 1, x, y) == if x == 1 && y == 1 then 1 else 0
  {
    OneBitTables();
    assert Raw(And, 1, x, y) == if x == 1 && y == 1 then 1 else 0;
  }

  lemma OneBitOr(x: nat, y: nat)
    requires x < 2 && y < 2
    ensures Apply(Or, 1, x, y) == if x == 1 || y == 1 then 1 else 0
  {
    OneBitTables();
    assert Raw(Or, 1, x, y) == if x == 1 || y == 1 then 1 else 0;
  }

  lemma OneBitNot(x: nat)
    requires x < 2
    ensures Not(1, x) == 1 - x
  {
    OneBitTables();
  }
}
