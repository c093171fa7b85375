/** Recognition of hand-written overflow checks, at every bit width. */
module OverflowIdiom {
  import opened Bits
  import opened ModularArithmetic

  /** A value of the program; two values are the same exactly when they have the same name, and
      a name determines the definition. */
  datatype Value = Value(name: nat, def: Def)

  datatype Def = Leaf | Const(c: nat) | Mul(left: Value, right: Value) | UDiv(left: Value, right: Value)

  type Env = nat -> nat

  function Quotient(w: Width, x: nat, y: nat): (q: nat)
    ensures x < Pow2(w) ==> q < Pow2(w)
  {
    if y == 0 then UMax(w) else QuotientSmall(x, y); x / y
  }

  function Eval(w: Width, v: Value, env: Env): (r: nat)
    ensures r < Pow2(w)
  {
    match v.def
    case Leaf => Wrap(w, env(v.name))
    case Const(c) => Wrap(w, c)
    case Mul(l, r) => Wrap(w, Eval(w, l, env) * Eval(w, r, env))
    case UDiv(l, r) => Quotient(w, Eval(w, l, env), Eval(w, r, env))
  }

  /** The code that replaces a comparison. */
  datatype Expr =
    | Use(v: Value)
    | Number(width: Width, c: nat)
    | Trunc(width: Width, operand: Expr)
    | ZExt(width: Width, operand: Expr)
    | Times(left: Expr, right: Expr)
    | UGT(left: Expr, right: Expr)
    | Or(left: Expr, right: Expr)
    | XorOne(operand: Expr)
    | UMulOverflow(left: Expr, right: Expr)

  function ExprWidth(w: Width, e: Expr): Width {
    match e
    case Use(_) => w
    case Number(width, _) => width
    case Trunc(width, _) => width
    case ZExt(width, _) => width
    case Times(l, _) => ExprWidth(w, l)
    case UGT(_, _) | Or(_, _) | XorOne(_) | UMulOverflow(_, _) => 1
  }

  /** The value of emitted code, over the values the program's own values have. */
  function EvalExpr(w: Width, e: Expr, at: Value -> nat): nat {
    match e
    case Use(v) => at(v)
    case Number(width, c) => Wrap(width, c)
    case Trunc(width, a) => Wrap(width, EvalExpr(w, a, at))
    case ZExt(_, a) => EvalExpr(w, a, at)
    case Times(l, r) => Wrap(ExprWidth(w, l), EvalExpr(w, l, at) * EvalExpr(w, r, at))
    case UGT(l, r) => Bit(EvalExpr(w, l, at) > EvalExpr(w, r, at))
    case Or(l, r) => Bit(EvalExpr(w, l, at) == 1 || EvalExpr(w, r, at) == 1)
    case XorOne(a) => Bit(EvalExpr(w, a, at) != 1)
    case UMulOverflow(l, r) => Bit(EvalExpr(w, l, at) * EvalExpr(w, r, at) > UMax(ExprWidth(w, l)))
  }

  /** `Crash`: the code asks for an integer type of zero bits, which there is not. */
  datatype Match = NoMatch | Rewrite(e: Expr) | Crash

  // ------------------------------------------------------------------ recognition

  predicate IsPowerOf2(n: nat) { n == 1 || (n > 1 && n % 2 == 0 && IsPowerOf2(n / 2)) }

  function TrailingOnes(c: nat): nat { if c % 2 == 1 then 1 + TrailingOnes(c / 2) else 0 }

  function MatchCmp(w: Width, pred: Predicate, l: Value, r: Value): Match {
    if pred == NE && r.def.UDiv? && r.def.left.def.Mul? && IsProduct(r.def.left, l, r.def.right) then
      Rewrite(UMulOverflow(Use(l), Use(r.def.right)))
    else if pred == Predicate.UGT && r.def.UDiv? && r.def.left.def.Const? then
      MatchBound(w, l, r.def.left.def.c, r.def.right)
    else NoMatch
  }

  /** `p` is `x * y` or `y * x`. */
  predicate IsProduct(p: Value, x: Value, y: Value)
    requires p.def.Mul?
  {
    (p.def.left == x && p.def.right == y) || (p.def.left == y && p.def.right == x)
  }

  /** x > C / y, by the shape of the constant. */
  function MatchBound(w: Width, x: Value, c: nat, y: Value): Match {
    if c == UMax(w) then Rewrite(UMulOverflow(Use(x), Use(y)))
    else if IsPowerOf2(c + 1) then
      var k := TrailingOnes(c);
      if k == 0 then Crash
      else
        Rewrite(Expr.Or(Expr.Or(Expr.UGT(Use(x), Number(w, c)), Expr.UGT(Use(y), Number(w, c))),
                        UMulOverflow(Trunc(k, Use(x)), Trunc(k, Use(y)))))
    else
      Rewrite(Expr.UGT(Times(ZExt(2 * w, Use(x)), ZExt(2 * w, Use(y))), ZExt(2 * w, Number(w, c))))
  }

  function MatchCmpWithInverse(w: Width, pred: Predicate, l: Value, r: Value): Match {
    match MatchCmp(w, pred, l, r)
    case Rewrite(e) => Rewrite(e)
    case Crash => Crash
    case NoMatch =>
      match MatchCmp(w, Inverse(pred), l, r)
      case Rewrite(e) => Rewrite(XorOne(e))
      case Crash => Crash
      case NoMatch => NoMatch
  }

  function MatchCmpWithSwappedAndInverse(w: Width, pred: Predicate, l: Value, r: Value): Match {
    match MatchCmpWithInverse(w, pred, l, r)
    case Rewrite(e) => Rewrite(e)
    case Crash => Crash
    case NoMatch => MatchCmpWithInverse(w, Swapped(pred), r, l)
  }

  // ------------------------------------------------------------------ arithmetic of the idioms

  /** Dividing the wrapped product gives the factor back exactly when nothing was lost. */
  lemma WrappedQuotient(w: Width, x: nat, y: nat)
    requires 0 < y && x < Pow2(w)
    ensures x != Wrap(w, x * y) / y <==> x * y > UMax(w)
  {
    var m := Pow2(w);
    if x * y < m {
      ModSmall(x * y, m);
      DivModUnique(x * y, x, 0, y);
    } else {
      var r := (x * y) % m;
      assert r < m <= x * y;
      AboveQuotient(x, y, r);
    }
  }

  lemma ProductFitsTwice(w: Width, x: nat, y: nat)
    requires x < Pow2(w) && y < Pow2(w)
    ensures x * y < Pow2(2 * w)
  {
    BoundedProduct(x, y, Pow2(w));
    Square(w, 2 * w);
  }

  lemma Square(w: Width, d: nat)
    requires d == w + w
    ensures Pow2(d) == Pow2(w) * Pow2(w)
  {
    Pow2Sum(w, w);
  }

  lemma BoundedProduct(x: nat, y: nat, m: nat)
    requires x < m && y < m
    ensures x * y < m * m
  {
    MulMonotone(x, m, y);
    MulMonotone(y, m - 1, m);
    assert m * y == y * m;
    assert (m - 1) * m == m * m - m;
  }

  lemma {:induction false} PowerOf2TrailingOnes(c: nat)
    requires IsPowerOf2(c + 1)
    ensures c + 1 == Pow2(TrailingOnes(c))
  {
    if c != 0 {
      assert c % 2 == 1 && (c + 1) / 2 == c / 2 + 1;
      PowerOf2TrailingOnes(c / 2);
    }
  }

  // ------------------------------------------------------------------ what a rewrite means

  predicate WellFormed(w: Width, v: Value) {
    match v.def
    case Leaf => true
    case Const(c) => c < Pow2(w)
    case Mul(l, r) => WellFormed(w, l) && WellFormed(w, r)
    case UDiv(l, r) => WellFormed(w, l) && WellFormed(w, r)
  }

  /** A division by zero is undefined, so no claim is made about one. */
  predicate Divides(w: Width, v: Value, env: Env) { v.def.UDiv? ==> Eval(w, v.def.right, env) != 0 }

  /** `x > C / y` with C = 2^k - 1 below the largest value, x zero and y above C: the disjunct
      `y > C` answers true although zero exceeds nothing. */
  predicate ZeroTimesLarge(w: Width, x: Value, q: Value, env: Env) {
    q.def.UDiv? && q.def.left.def.Const? &&
    var c := q.def.left.def.c;
    c != UMax(w) && IsPowerOf2(c + 1) && Eval(w, x, env) == 0 && Eval(w, q.def.right, env) > c
  }

  predicate Deviates(w: Width, pred: Predicate, l: Value, r: Value, env: Env) {
    ((pred == Predicate.UGT || pred == ULE) && ZeroTimesLarge(w, l, r, env))
    || ((pred == ULT || pred == UGE) && ZeroTimesLarge(w, r, l, env))
  }

  predicate Holds(w: Width, e: Expr, at: Value -> nat) { EvalExpr(w, e, at) == 1 }

  predicate Says(w: Width, e: Expr, env: Env) { Holds(w, e, v => Eval(w, v, env)) }

  lemma MatchBoundMeaning(w: Width, x: Value, c: nat, y: Value, at: Value -> nat)
    requires c < Pow2(w) && at(x) < Pow2(w) && 0 < at(y) < Pow2(w)
    ensures var m := MatchBound(w, x, c, y);
      m.Rewrite? ==>
        (Holds(w, m.e, at) <==>
           at(x) > c / at(y) || (c != UMax(w) && IsPowerOf2(c + 1) && at(x) == 0 && at(y) > c))
  {
    AboveQuotient(at(x), at(y), c);
    if c == UMax(w) {
      OverflowHolds(w, Use(x), Use(y), at);
    } else if IsPowerOf2(c + 1) {
      PowerOf2TrailingOnes(c);
      var k := TrailingOnes(c);
      if k != 0 {
        MaskMeaning(w, k, x, c, y, at);
        LargeFactor(at(x), at(y), c);
      }
    } else {
      WideMeaning(w, x, c, y, at);
    }
  }

  lemma LargeFactor(a: nat, b: nat, c: nat)
    requires b > 0
    ensures a > c || b > c || a * b > c <==> a * b > c || (a == 0 && b > c)
  {
    MulMonotone(1, b, a);
    assert b * a == a * b;
    if a > 0 { MulMonotone(1, a, b); }
  }

  lemma OrHolds(w: Width, l: Expr, r: Expr, at: Value -> nat)
    ensures Holds(w, Expr.Or(l, r), at) <==> Holds(w, l, at) || Holds(w, r, at)
  {
  }

  lemma AboveHolds(w: Width, l: Expr, r: Expr, at: Value -> nat)
    ensures Holds(w, Expr.UGT(l, r), at) <==> EvalExpr(w, l, at) > EvalExpr(w, r, at)
  {
  }

  lemma OverflowHolds(w: Width, l: Expr, r: Expr, at: Value -> nat)
    ensures Holds(w, UMulOverflow(l, r), at)
      <==> EvalExpr(w, l, at) * EvalExpr(w, r, at) > UMax(ExprWidth(w, l))
  {
  }

  /** The disjunction for C = 2^k - 1. */
  lemma MaskMeaning(w: Width, k: Width, x: Value, c: nat, y: Value, at: Value -> nat)
    requires c < Pow2(w) && c == UMax(k)
    ensures
      var a, b := at(x), at(y);
      var e := Expr.Or(Expr.Or(Expr.UGT(Use(x), Number(w, c)), Expr.UGT(Use(y), Number(w, c))),
                       UMulOverflow(Trunc(k, Use(x)), Trunc(k, Use(y))));
      Holds(w, e, at) <==> a > c || b > c || a * b > c
  {
    var a, b := at(x), at(y);
    WrapSmall(w, c);
    var xAbove, yAbove := Expr.UGT(Use(x), Number(w, c)), Expr.UGT(Use(y), Number(w, c));
    AboveHolds(w, Use(x), Number(w, c), at);
    AboveHolds(w, Use(y), Number(w, c), at);
    OrHolds(w, xAbove, yAbove, at);
    OrHolds(w, Expr.Or(xAbove, yAbove), UMulOverflow(Trunc(k, Use(x)), Trunc(k, Use(y))), at);
    if a <= c && b <= c {
      WrapSmall(k, a);
      WrapSmall(k, b);
      OverflowHolds(w, Trunc(k, Use(x)), Trunc(k, Use(y)), at);
    }
  }

  /** The comparison at twice the width. */
  lemma WideMeaning(w: Width, x: Value, c: nat, y: Value, at: Value -> nat)
    requires c < Pow2(w) && at(x) < Pow2(w) && at(y) < Pow2(w)
    ensures
      var product := Times(ZExt(2 * w, Use(x)), ZExt(2 * w, Use(y)));
      Holds(w, Expr.UGT(product, ZExt(2 * w, Number(w, c))), at) <==> at(x) * at(y) > c
  {
    var l, r := ZExt(2 * w, Use(x)), ZExt(2 * w, Use(y));
    assert EvalExpr(w, l, at) == at(x) && EvalExpr(w, r, at) == at(y);
    ProductFitsTwice(w, at(x), at(y));
    WrapSmall(2 * w, at(x) * at(y));
    WrapSmall(w, c);
    AboveHolds(w, Times(l, r), ZExt(2 * w, Number(w, c)), at);
  }

  lemma LostProduct(w: Width, x: Value, p: Value, y: Value, at: Value -> nat)
    requires p.def.Mul? && IsProduct(p, x, y) && at(x) < Pow2(w) && at(y) != 0
    requires at(p) == Wrap(w, at(p.def.left) * at(p.def.right))
    ensures Holds(w, UMulOverflow(Use(x), Use(y)), at) <==> at(x) != at(p) / at(y)
  {
    OverflowHolds(w, Use(x), Use(y), at);
    Commutes(at(x), at(y));
    WrappedQuotient(w, at(x), at(y));
  }

  lemma Commutes(a: nat, b: nat)
    ensures a * b == b * a
  {
  }

  lemma MatchCmpMeaning(w: Width, pred: Predicate, l: Value, r: Value, env: Env)
    requires WellFormed(w, l) && WellFormed(w, r) && Divides(w, r, env)
    ensures var m := MatchCmp(w, pred, l, r);
      m.Rewrite? ==>
        (Says(w, m.e, env) <==>
           Compare(pred, w, Eval(w, l, env), Eval(w, r, env))
           || (pred == Predicate.UGT && ZeroTimesLarge(w, l, r, env)))
  {
    if MatchCmp(w, pred, l, r).Rewrite? {
      var at := v => Eval(w, v, env);
      var left, right := r.def.left, r.def.right;
      assert at(r) == at(left) / at(right);
      if pred == NE {
        LostProduct(w, l, left, right, at);
      } else {
        WrapSmall(w, left.def.c);
        MatchBoundMeaning(w, l, left.def.c, right, at);
      }
    }
  }

  lemma WithInverseMeaning(w: Width, pred: Predicate, l: Value, r: Value, env: Env)
    requires WellFormed(w, l) && WellFormed(w, r) && Divides(w, r, env)
    ensures var m := MatchCmpWithInverse(w, pred, l, r);
      m.Rewrite? ==>
        ((Says(w, m.e, env) <==> Compare(pred, w, Eval(w, l, env), Eval(w, r, env)))
           <==> !((pred == Predicate.UGT || pred == ULE) && ZeroTimesLarge(w, l, r, env)))
  {
    PredicateForms(pred, w, Eval(w, l, env), Eval(w, r, env));
    MatchCmpMeaning(w, pred, l, r, env);
    MatchCmpMeaning(w, Inverse(pred), l, r, env);
    if ZeroTimesLarge(w, l, r, env) { ZeroIsNotAbove(w, l, r, env); }
  }

  /** Where the deviation applies, the comparison itself is false. */
  lemma ZeroIsNotAbove(w: Width, x: Value, q: Value, env: Env)
    requires ZeroTimesLarge(w, x, q, env)
    ensures !Compare(Predicate.UGT, w, Eval(w, x, env), Eval(w, q, env))
  {
  }

  /** Whatever form the comparison is written in, the rewritten code agrees with it, for all
      values with non-zero divisors, except exactly in the deviating case. */
  lemma RewriteAgreesExactly(w: Width, pred: Predicate, l: Value, r: Value, env: Env)
    requires WellFormed(w, l) && WellFormed(w, r) && Divides(w, l, env) && Divides(w, r, env)
    ensures var m := MatchCmpWithSwappedAndInverse(w, pred, l, r);
      m.Rewrite? ==>
        ((Says(w, m.e, env) <==> Compare(pred, w, Eval(w, l, env), Eval(w, r, env)))
           <==> !Deviates(w, pred, l, r, env))
  {
    PredicateForms(pred, w, Eval(w, l, env), Eval(w, r, env));
    WithInverseMeaning(w, pred, l, r, env);
    WithInverseMeaning(w, Swapped(pred), r, l, env);
  }

  /** `x` against `0 / y`, in any of the four unsigned forms. */
  predicate BoundsByZero(pred: Predicate, l: Value, r: Value) {
    ((pred == Predicate.UGT || pred == ULE) && r.def.UDiv? && r.def.left.def == Const(0))
    || ((pred == ULT || pred == UGE) && l.def.UDiv? && l.def.left.def == Const(0))
  }

  /** The one shape on which the pass asks for an integer type of no bits. */
  lemma CrashesExactlyOnZeroBound(w: Width, pred: Predicate, l: Value, r: Value)
    requires WellFormed(w, l) && WellFormed(w, r)
    ensures MatchCmpWithSwappedAndInverse(w, pred, l, r).Crash? <==> BoundsByZero(pred, l, r)
  {
    forall x: Value, c: nat, y: Value | c < Pow2(w)
      ensures MatchBound(w, x, c, y).Crash? <==> c == 0
    {
      if IsPowerOf2(c + 1) { PowerOf2TrailingOnes(c); }
    }
  }

  /** `q` is `(x * y) / y`, with the factors in either order. */
  predicate DividesProductOf(x: Value, q: Value) {
    match q.def
    case UDiv(p, y) => p.def.Mul? && (p.def == Def.Mul(x, y) || p.def == Def.Mul(y, x))
    case _ => false
  }

  /** `q` is `C / y` with a constant that is not zero. */
  predicate DividesConstant(q: Value) {
    match q.def
    case UDiv(p, _) => p.def.Const? && p.def != Const(0)
    case _ => false
  }

  /** The comparisons that are one of the two idioms, by their shape: x differs from or equals
      `(x * y) / y`, or x is in an unsigned order with `C / y`, either way round. */
  predicate IsIdiom(pred: Predicate, l: Value, r: Value) {
    match pred
    case NE | EQ => DividesProductOf(l, r) || DividesProductOf(r, l)
    case UGT | ULE => DividesConstant(r)
    case ULT | UGE => DividesConstant(l)
    case _ => false
  }

  /** Exactly the idioms are rewritten. */
  lemma RewritesExactlyIdioms(w: Width, pred: Predicate, l: Value, r: Value)
    requires WellFormed(w, l) && WellFormed(w, r)
    ensures MatchCmpWithSwappedAndInverse(w, pred, l, r).Rewrite? <==> IsIdiom(pred, l, r)
  {
    MatchesExactly(w, pred, l, r);
    MatchesExactly(w, Inverse(pred), l, r);
    MatchesExactly(w, Swapped(pred), r, l);
    MatchesExactly(w, Inverse(Swapped(pred)), r, l);
  }

  /** What each single match finds. */
  lemma MatchesExactly(w: Width, pred: Predicate, l: Value, r: Value)
    requires WellFormed(w, r)
    ensures MatchCmp(w, pred, l, r).Rewrite? <==>
      (pred == NE && DividesProductOf(l, r)) || (pred == Predicate.UGT && DividesConstant(r))
    ensures MatchCmp(w, pred, l, r).Crash? <==> pred == Predicate.UGT && r.def.UDiv? && r.def.left.def == Const(0)
  {
    if pred == Predicate.UGT && r.def.UDiv? && r.def.left.def.Const? {
      var c := r.def.left.def.c;
      if IsPowerOf2(c + 1) { PowerOf2TrailingOnes(c); }
    }
  }

  // ------------------------------------------------------------------ the pass over a function

  /** A comparison of two values of one width, or the code that has taken its place. */
  datatype Instr =
    | Original(width: Width, pred: Predicate, left: Value, right: Value)
    | Replacement(width: Width, e: Expr)

  predicate InstrHolds(i: Instr, env: Env) {
    match i
    case Original(w, pred, l, r) => Compare(pred, w, Eval(w, l, env), Eval(w, r, env))
    case Replacement(w, e) => Says(w, e, env)
  }

  predicate InstrOk(i: Instr) { i.Original? && WellFormed(i.width, i.left) && WellFormed(i.width, i.right) }

  function Rewritten(i: Instr): Instr {
    if i.Replacement? then i
    else
      var m := MatchCmpWithSwappedAndInverse(i.width, i.pred, i.left, i.right);
      if m.Rewrite? then Replacement(i.width, m.e) else i
  }

  predicate CrashesOn(i: Instr) { i.Original? && BoundsByZero(i.pred, i.left, i.right) }

  /** Whether `after` means what the comparison `before` means: it does, for all values with
      non-zero divisors, except exactly when it replaces it and the case is the deviating one. */
  predicate AgreesExactly(before: Instr, after: Instr, env: Env) {
    before.Original? &&
    var Original(w, pred, l, r) := before;
    Divides(w, l, env) && Divides(w, r, env) ==>
      ((InstrHolds(after, env) <==> InstrHolds(before, env)) <==> after == before || !Deviates(w, pred, l, r, env))
  }

  lemma RewrittenCodeAgrees(i: Instr, env: Env)
    requires InstrOk(i)
    ensures AgreesExactly(i, Rewritten(i), env)
  {
    if Divides(i.width, i.left, env) && Divides(i.width, i.right, env) {
      RewriteAgreesExactly(i.width, i.pred, i.left, i.right, env);
    }
  }

  /** An idiom is replaced, and anything else left as it was. */
  predicate ReplacedIfIdiom(before: Instr, after: Instr) {
    before.Original? && if IsIdiom(before.pred, before.left, before.right) then after.Replacement? else after == before
  }

  class Pass {
    var code: seq<Instr>       // the comparisons of the function, in order

    constructor (code: seq<Instr>)
      ensures this.code == code
    {
      this.code := code;
    }

    /** Replace every recognised comparison in place.  The pass does not survive a bound by zero. */
    method RunOnFunction() returns (ok: bool, changed: bool)
      requires forall k :: 0 <= k < |code| ==> InstrOk(code[k])
      modifies this
      ensures |code| == |old(code)|
      ensures ok <==> forall k :: 0 <= k < |code| ==> !CrashesOn(old(code)[k])
      ensures ok ==> forall k :: 0 <= k < |code| ==> code[k] == Rewritten(old(code)[k])
      ensures ok ==> forall k :: 0 <= k < |code| ==> ReplacedIfIdiom(old(code)[k], code[k])
      ensures ok ==> forall k, env: Env :: 0 <= k < |code| ==> AgreesExactly(old(code)[k], code[k], env)
      ensures ok ==> (changed <==> code != old(code))
    {
      changed := false;
      ghost var start := code;
      var k := 0;
      while k < |code|
        invariant k <= |code| == |start|
        invariant forall j :: 0 <= j < k ==> code[j] == Rewritten(start[j]) && !CrashesOn(start[j])
        invariant forall j :: 0 <= j < k ==> ReplacedIfIdiom(start[j], code[j])
        invariant forall j :: k <= j < |code| ==> code[j] == start[j]
        invariant changed <==> code != start
      {
        var i := code[k];
        var m := MatchCmpWithSwappedAndInverse(i.width, i.pred, i.left, i.right);
        CrashesExactlyOnZeroBound(i.width, i.pred, i.left, i.right);
        RewritesExactlyIdioms(i.width, i.pred, i.left, i.right);
        if m.Crash? {
          return false, changed;
        }
        if m.Rewrite? {
          code := code[k := Replacement(i.width, m.e)];
          changed := true;
          assert code[k] != start[k];
        }
        k := k + 1;
      }
      ok := true;
      forall k, env: Env | 0 <= k < |code|
        ensures AgreesExactly(start[k], code[k], env)
      {
        RewrittenCodeAgrees(start[k], env);
      }
    }
  }

  /** The rewrite of `x > C / y` is right for all x and all non-zero y exactly when C is the largest
      value or C + 1 is not a power of two; C = 0 is not rewritten at all. */
  lemma BoundRewriteIsRight(w: Width, x: Value, c: nat, bound: Value, y: Value, q: Value)
    requires x.def.Leaf? && y.def.Leaf? && x.name != y.name
    requires c < Pow2(w) && bound.def == Const(c) && q.def == Def.UDiv(bound, y)
    ensures var m := MatchCmpWithSwappedAndInverse(w, Predicate.UGT, x, q);
      && (m.Rewrite? <==> c != 0)
      && (m.Rewrite? ==>
            ((forall env: Env | Divides(w, q, env) ::
                Says(w, m.e, env) <==> Compare(Predicate.UGT, w, Eval(w, x, env), Eval(w, q, env)))
             <==> c == UMax(w) || !IsPowerOf2(c + 1)))
  {
    var m := MatchCmpWithSwappedAndInverse(w, Predicate.UGT, x, q);
    BoundIsRewritten(w, x, c, bound, y, q);
    WrapSmall(w, c);
    forall env: Env | m.Rewrite? && Divides(w, q, env)
      ensures (Says(w, m.e, env) <==> Compare(Predicate.UGT, w, Eval(w, x, env), Eval(w, q, env)))
        <==> !ZeroTimesLarge(w, x, q, env)
    {
      RewriteAgreesExactly(w, Predicate.UGT, x, q, env);
    }
    if c != UMax(w) {
      var env: Env := name => if name == x.name then 0 else c + 1;
      WrapSmall(w, 0);
      WrapSmall(w, c + 1);
      assert Eval(w, x, env) == 0 && Eval(w, y, env) == c + 1 && Divides(w, q, env);
    }
  }

  lemma BoundIsRewritten(w: Width, x: Value, c: nat, bound: Value, y: Value, q: Value)
    requires x.def.Leaf? && c < Pow2(w) && bound.def == Const(c) && y.def.Leaf? && q.def == Def.UDiv(bound, y)
    ensures MatchCmpWithSwappedAndInverse(w, Predicate.UGT, x, q).Rewrite? <==> c != 0
  {
    CrashesExactlyOnZeroBound(w, Predicate.UGT, x, q);
  }

  /** At every width above one bit, with C = 1: `0 > 1 / 2` is false and its replacement true. */
  lemma ReplacementDiffersOnZero(w: Width, x: Value, y: Value, one: Value, q: Value, env: Env)
    requires w > 1 && x.def.Leaf? && y.def.Leaf? && one.def == Const(1) && q.def == Def.UDiv(one, y)
    requires env(x.name) == 0 && env(y.name) == 2
    ensures var m := MatchCmpWithSwappedAndInverse(w, Predicate.UGT, x, q);
      m.Rewrite? && Says(w, m.e, env) && !Compare(Predicate.UGT, w, Eval(w, x, env), Eval(w, q, env))
  {
    Pow2Monotone(2, w);
    WrapSmall(w, 0);
    WrapSmall(w, 2);
    assert IsPowerOf2(2);
    assert Divides(w, q, env);
    ZeroIsNotAbove(w, x, q, env);
    RewriteAgreesExactly(w, Predicate.UGT, x, q, env);
    CrashesExactlyOnZeroBound(w, Predicate.UGT, x, q);
  }
}
