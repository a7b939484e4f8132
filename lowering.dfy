/**
 * `Expr::getExprValue` of RangedAddressSanitizer, as value semantics: the
 * bit pattern of width `w` that the emitted instructions compute.  Atoms
 * are lowered by `getValue` (see `SymbolTables.SymbolTable.GetValue`); here
 * a symbol's run-time pattern is the parameter `sym`, None standing for a
 * symbol `getValue` finds no value for.  Sums and products fold left over
 * their operands with `add`/`mul` from a null accumulator; a rational
 * factor of a product multiplies by its numerator and then `sdiv`s by its
 * denominator; `min`/`max` select on a signed comparison; a power goes
 * through `double` and `llvm.pow`, which is the parameter `pow`.
 */
module Lowering {
  import opened Wrappers
  import opened Bits
  import opened SymExpr
  import opened Intern

  /** Every symbol pattern `getValue` hands back has the requested width. */
  ghost predicate AtomsFit(sym: Symbol -> Option<int>, w: nat) {
    forall s :: sym(s).Some? ==> Fits(sym(s).value, w)
  }

  /** C's integer division, rounding toward zero. */
  function TruncDiv(x: int, y: int): int
    requires y != 0
  {
    var q := (if x < 0 then -x else x) / (if y < 0 then -y else y);
    if (x < 0) != (y < 0) then -q else q
  }

  /**
   * `sdiv` on patterns of width `w`; division by zero is undefined in LLVM
   * and gives None.
   */
  function SDiv(a: int, b: int, w: nat): (r: Option<int>)
    requires w >= 1 && Fits(a, w) && Fits(b, w)
    ensures r.Some? <==> ToSigned(b, w) != 0
    ensures r.Some? ==> Fits(r.value, w) && r.value == Wrap(TruncDiv(ToSigned(a, w), ToSigned(b, w)), w)
  {
    if ToSigned(b, w) == 0 then None else Some(Wrap(TruncDiv(ToSigned(a, w), ToSigned(b, w)), w))
  }

  /**
   * The pattern `getExprValue` computes for `e`, or None where it returns
   * null (an unhandled shape, an empty sum or product, a symbol without a
   * value) or divides by zero.  A `min` is the operand that is signed-less
   * and a `max` the operand that is signed-greater.
   */
  function ExprBits(e: Expr, w: nat, sym: Symbol -> Option<int>, ratio: real -> (int, int), pow: (int, int) -> int): (r: Option<int>)
    requires w >= 1 && AtomsFit(sym, w)
    ensures r.Some? ==> Fits(r.value, w)
    ensures e.Min? && r.Some? ==>
      var lb, rb := ExprBits(e.left, w, sym, ratio, pow), ExprBits(e.right, w, sym, ratio, pow);
      lb.Some? && rb.Some? && (r == lb || r == rb) &&
      ToSigned(r.value, w) <= ToSigned(lb.value, w) && ToSigned(r.value, w) <= ToSigned(rb.value, w)
    ensures e.Max? && r.Some? ==>
      var lb, rb := ExprBits(e.left, w, sym, ratio, pow), ExprBits(e.right, w, sym, ratio, pow);
      lb.Some? && rb.Some? && (r == lb || r == rb) &&
      ToSigned(r.value, w) >= ToSigned(lb.value, w) && ToSigned(r.value, w) >= ToSigned(rb.value, w)
    decreases e, 2
  {
    match e
    case Num(c) => Some(Wrap(TruncateToLong(c), w))
    case Sym(s) => sym(s)
    case Add(ts) => SumBits(ts, None, w, sym, ratio, pow)
    case Mul(fs) => ProdBits(fs, None, w, sym, ratio, pow)
    case Pow(b, x) =>
      var bb, xb := ExprBits(b, w, sym, ratio, pow), ExprBits(x, w, sym, ratio, pow);
      if bb.Some? && xb.Some? then Some(Wrap(pow(bb.value, xb.value), w)) else None
    case Min(l, r) =>
      var lb, rb := ExprBits(l, w, sym, ratio, pow), ExprBits(r, w, sym, ratio, pow);
      if lb.Some? && rb.Some? then Some(if ToSigned(lb.value, w) < ToSigned(rb.value, w) then lb.value else rb.value)
      else None
    case Max(l, r) =>
      var lb, rb := ExprBits(l, w, sym, ratio, pow), ExprBits(r, w, sym, ratio, pow);
      if lb.Some? && rb.Some? then Some(if ToSigned(lb.value, w) > ToSigned(rb.value, w) then lb.value else rb.value)
      else None
  }

  /**
   * The `add` chain over `ts`, continuing from the accumulator `acc`
   * (None: null).  While the accumulator is null a sub-value simply
   * replaces it, null or not; a null sub-value after that would make
   * IRBuilder assert, and gives None.
   */
  function SumBits(ts: seq<Expr>, acc: Option<int>, w: nat, sym: Symbol -> Option<int>, ratio: real -> (int, int), pow: (int, int) -> int): (r: Option<int>)
    requires w >= 1 && AtomsFit(sym, w) && (acc.Some? ==> Fits(acc.value, w))
    ensures r.Some? ==> Fits(r.value, w)
    decreases ts, 0
  {
    if ts == [] then acc
    else
      var c := ExprBits(ts[0], w, sym, ratio, pow);
      if acc.None? then SumBits(ts[1..], c, w, sym, ratio, pow)
      else if c.None? then None
      else SumBits(ts[1..], Some(Wrap(acc.value + c.value, w)), w, sym, ratio, pow)
  }

  /** The `mul` chain over `fs`, continuing from the accumulator `acc`, as `SumBits` does. */
  function ProdBits(fs: seq<Expr>, acc: Option<int>, w: nat, sym: Symbol -> Option<int>, ratio: real -> (int, int), pow: (int, int) -> int): (r: Option<int>)
    requires w >= 1 && AtomsFit(sym, w) && (acc.Some? ==> Fits(acc.value, w))
    ensures r.Some? ==> Fits(r.value, w)
    decreases fs, 0
  {
    if fs == [] then acc
    else
      var a := FactorBits(fs[0], acc, w, sym, ratio, pow);
      if acc.Some? && a.None? then None
      else ProdBits(fs[1..], a, w, sym, ratio, pow)
  }

  /**
   * The accumulator after one factor `f`: a non-integral constant
   * multiplies by its numerator (or starts from it) and `sdiv`s by its
   * denominator; anything else is lowered and multiplied in, or replaces a
   * null accumulator.
   */
  function FactorBits(f: Expr, acc: Option<int>, w: nat, sym: Symbol -> Option<int>, ratio: real -> (int, int), pow: (int, int) -> int): (r: Option<int>)
    requires w >= 1 && AtomsFit(sym, w) && (acc.Some? ==> Fits(acc.value, w))
    ensures r.Some? ==> Fits(r.value, w)
    decreases f, 3
  {
    if f.Num? && !Integral(f.c) then
      var numer, denom := Wrap(ratio(f.c).0, w), Wrap(ratio(f.c).1, w);
      SDiv(if acc.Some? then Wrap(acc.value * numer, w) else numer, denom, w)
    else
      var c := ExprBits(f, w, sym, ratio, pow);
      if acc.None? then c
      else if c.None? then None
      else Some(Wrap(acc.value * c.value, w))
  }

  /**
   * `getExprValue` itself: each sum and product folds its accumulator in a
   * loop, and the result is the pattern `ExprBits` describes.
   */
  method GetExprValue(e: Expr, w: nat, sym: Symbol -> Option<int>, ratio: real -> (int, int), pow: (int, int) -> int) returns (r: Option<int>)
    requires w >= 1 && AtomsFit(sym, w)
    ensures r == ExprBits(e, w, sym, ratio, pow)
    decreases e, 1
  {
    match e {
      case Num(c) =>
        r := Some(Wrap(TruncateToLong(c), w));
      case Sym(s) =>
        r := sym(s);
      case Add(ts) =>
        r := SumValue(ts, w, sym, ratio, pow);
      case Mul(fs) =>
        r := ProdValue(fs, w, sym, ratio, pow);
      case Pow(b, x) =>
        var bb := GetExprValue(b, w, sym, ratio, pow);
        var xb := GetExprValue(x, w, sym, ratio, pow);
        r := if bb.Some? && xb.Some? then Some(Wrap(pow(bb.value, xb.value), w)) else None;
      case Min(a, b) =>
        var lb := GetExprValue(a, w, sym, ratio, pow);
        var rb := GetExprValue(b, w, sym, ratio, pow);
        if lb.Some? && rb.Some? {
          r := if ToSigned(lb.value, w) < ToSigned(rb.value, w) then lb else rb;
        } else {
          r := None;
        }
      case Max(a, b) =>
        var lb := GetExprValue(a, w, sym, ratio, pow);
        var rb := GetExprValue(b, w, sym, ratio, pow);
        if lb.Some? && rb.Some? {
          r := if ToSigned(lb.value, w) > ToSigned(rb.value, w) then lb else rb;
        } else {
          r := None;
        }
    }
  }

  /** The accumulator loop of a sum. */
  method SumValue(ts: seq<Expr>, w: nat, sym: Symbol -> Option<int>, ratio: real -> (int, int), pow: (int, int) -> int) returns (r: Option<int>)
    requires w >= 1 && AtomsFit(sym, w)
    ensures r == SumBits(ts, None, w, sym, ratio, pow)
    decreases ts, 0
  {
    var acc: Option<int> := None;
    var i := 0;
    var broken := false;
    while i < |ts| && !broken
      invariant 0 <= i <= |ts|
      invariant acc.Some? ==> Fits(acc.value, w)
      invariant !broken ==> SumBits(ts, None, w, sym, ratio, pow) == SumBits(ts[i..], acc, w, sym, ratio, pow)
      invariant broken ==> SumBits(ts, None, w, sym, ratio, pow) == None
    {
      var c := GetExprValue(ts[i], w, sym, ratio, pow);
      assert ts[i..][1..] == ts[i + 1..];
      if acc.None? {
        acc := c;
      } else if c.None? {
        broken := true;
      } else {
        acc := Some(Wrap(acc.value + c.value, w));
      }
      i := i + 1;
    }
    r := if broken then None else acc;
  }

  /** The accumulator loop of a product. */
  method ProdValue(fs: seq<Expr>, w: nat, sym: Symbol -> Option<int>, ratio: real -> (int, int), pow: (int, int) -> int) returns (r: Option<int>)
    requires w >= 1 && AtomsFit(sym, w)
    ensures r == ProdBits(fs, None, w, sym, ratio, pow)
    decreases fs, 0
  {
    var acc: Option<int> := None;
    var i := 0;
    var broken := false;
    while i < |fs| && !broken
      invariant 0 <= i <= |fs|
      invariant acc.Some? ==> Fits(acc.value, w)
      invariant !broken ==> ProdBits(fs, None, w, sym, ratio, pow) == ProdBits(fs[i..], acc, w, sym, ratio, pow)
      invariant broken ==> ProdBits(fs, None, w, sym, ratio, pow) == None
    {
      var a := FactorValue(fs[i], acc, w, sym, ratio, pow);
      assert fs[i..][1..] == fs[i + 1..];
      if acc.Some? && a.None? {
        broken := true;
      } else {
        acc := a;
      }
      i := i + 1;
    }
    r := if broken then None else acc;
  }

  /** One factor of the product loop. */
  method FactorValue(f: Expr, acc: Option<int>, w: nat, sym: Symbol -> Option<int>, ratio: real -> (int, int), pow: (int, int) -> int) returns (r: Option<int>)
    requires w >= 1 && AtomsFit(sym, w) && (acc.Some? ==> Fits(acc.value, w))
    ensures r == FactorBits(f, acc, w, sym, ratio, pow)
    decreases f, 3
  {
    if f.Num? && !Integral(f.c) {
      var numer, denom := Wrap(ratio(f.c).0, w), Wrap(ratio(f.c).1, w);
      var scaled := if acc.Some? then Wrap(acc.value * numer, w) else numer;
      r := SDiv(scaled, denom, w);
    } else {
      var c := GetExprValue(f, w, sym, ratio, pow);
      if acc.None? {
        r := c;
      } else if c.None? {
        r := None;
      } else {
        r := Some(Wrap(acc.value * c.value, w));
      }
    }
  }

  // ---------------------------------------------------------------------
  // Integer polynomials lower to their value modulo 2^w

  /** Integer constants and symbols under non-empty sums and products. */
  predicate Ring(e: Expr) {
    match e
    case Num(c) => Integral(c)
    case Sym(s) => s.Bound?
    case Add(ts) => ts != [] && AllRing(ts)
    case Mul(fs) => fs != [] && AllRing(fs)
    case _ => false
  }

  predicate AllRing(ts: seq<Expr>) {
    forall i :: 0 <= i < |ts| ==> Ring(ts[i])
  }

  /** The real environment of integer symbol values. */
  function Reals(ienv: nat -> int): Symbol -> real {
    (s: Symbol) => if s.Bound? then ienv(s.value) as real else 0.0
  }

  /** Each symbol lowers to its integer value modulo 2^w. */
  ghost predicate SymbolsLower(sym: Symbol -> Option<int>, ienv: nat -> int, w: nat) {
    forall p: nat :: sym(Bound(p)) == Some(Wrap(ienv(p), w))
  }

  /** The integer value of a polynomial, the reference the lowering is compared with. */
  function IntEval(e: Expr, ienv: nat -> int): int
    requires Ring(e)
  {
    match e
    case Num(c) => c.Floor
    case Sym(s) => ienv(s.value)
    case Add(ts) => IntSum(ts, ienv)
    case Mul(fs) => IntProd(fs, ienv)
  }

  function IntSum(ts: seq<Expr>, ienv: nat -> int): int
    requires AllRing(ts)
  {
    if ts == [] then 0 else IntEval(ts[0], ienv) + IntSum(ts[1..], ienv)
  }

  function IntProd(fs: seq<Expr>, ienv: nat -> int): int
    requires AllRing(fs)
  {
    if fs == [] then 1 else IntEval(fs[0], ienv) * IntProd(fs[1..], ienv)
  }

  lemma {:induction false} CastMul(x: int, y: int)
    ensures (x as real) * (y as real) == (x * y) as real
  {
  }

  lemma {:induction false} MulAssoc(a: int, b: int, c: int)
    ensures a * b * c == a * (b * c)
  {
  }

  /** On integer polynomials the real semantics is the integer one. */
  lemma {:induction false} IntEvalAgrees(e: Expr, ienv: nat -> int)
    requires Ring(e)
    ensures Eval(e, Reals(ienv)) == IntEval(e, ienv) as real
    decreases e, 1
  {
    match e
    case Num(c) =>
    case Sym(s) =>
    case Add(ts) => IntSumAgrees(ts, ienv);
    case Mul(fs) => IntProdAgrees(fs, ienv);
  }

  lemma {:induction false} IntSumAgrees(ts: seq<Expr>, ienv: nat -> int)
    requires AllRing(ts)
    ensures EvalSum(ts, Reals(ienv)) == IntSum(ts, ienv) as real
    decreases ts, 0
  {
    if ts != [] {
      IntEvalAgrees(ts[0], ienv);
      IntSumAgrees(ts[1..], ienv);
    }
  }

  lemma {:induction false} IntProdAgrees(fs: seq<Expr>, ienv: nat -> int)
    requires AllRing(fs)
    ensures EvalProd(fs, Reals(ienv)) == IntProd(fs, ienv) as real
    decreases fs, 0
  {
    if fs != [] {
      IntEvalAgrees(fs[0], ienv);
      IntProdAgrees(fs[1..], ienv);
      CastMul(IntEval(fs[0], ienv), IntProd(fs[1..], ienv));
    }
  }

  /** The emitted code computes the integer value modulo 2^w. */
  lemma {:induction false} BitsAgree(e: Expr, w: nat, sym: Symbol -> Option<int>, ratio: real -> (int, int), pow: (int, int) -> int, ienv: nat -> int)
    requires w >= 1 && AtomsFit(sym, w) && SymbolsLower(sym, ienv, w) && Ring(e)
    ensures ExprBits(e, w, sym, ratio, pow) == Some(Wrap(IntEval(e, ienv), w))
    decreases e, 1
  {
    match e
    case Num(c) =>
      assert TruncateToLong(c) == c.Floor;
    case Sym(s) =>
    case Add(ts) =>
      BitsAgree(ts[0], w, sym, ratio, pow, ienv);
      SumAgrees(ts[1..], IntEval(ts[0], ienv), w, sym, ratio, pow, ienv);
    case Mul(fs) =>
      FactorAgrees(fs[0], None, w, sym, ratio, pow, ienv);
      ProdAgrees(fs[1..], IntEval(fs[0], ienv), w, sym, ratio, pow, ienv);
  }

  /** An integer factor is lowered and multiplied into the accumulator. */
  lemma {:induction false} FactorAgrees(f: Expr, acc: Option<int>, w: nat, sym: Symbol -> Option<int>, ratio: real -> (int, int), pow: (int, int) -> int, ienv: nat -> int)
    requires w >= 1 && AtomsFit(sym, w) && SymbolsLower(sym, ienv, w) && Ring(f)
    requires acc.Some? ==> Fits(acc.value, w)
    ensures FactorBits(f, acc, w, sym, ratio, pow) ==
      Some(if acc.Some? then Wrap(acc.value * Wrap(IntEval(f, ienv), w), w) else Wrap(IntEval(f, ienv), w))
    decreases f, 2
  {
    BitsAgree(f, w, sym, ratio, pow, ienv);
  }

  lemma {:induction false} SumAgrees(ts: seq<Expr>, a: int, w: nat, sym: Symbol -> Option<int>, ratio: real -> (int, int), pow: (int, int) -> int, ienv: nat -> int)
    requires w >= 1 && AtomsFit(sym, w) && SymbolsLower(sym, ienv, w) && AllRing(ts)
    ensures SumBits(ts, Some(Wrap(a, w)), w, sym, ratio, pow) == Some(Wrap(a + IntSum(ts, ienv), w))
    decreases ts, 0
  {
    if ts != [] {
      var t := IntEval(ts[0], ienv);
      BitsAgree(ts[0], w, sym, ratio, pow, ienv);
      WrapAdd(a, t, w);
      SumAgrees(ts[1..], a + t, w, sym, ratio, pow, ienv);
    }
  }

  lemma {:induction false} ProdAgrees(fs: seq<Expr>, a: int, w: nat, sym: Symbol -> Option<int>, ratio: real -> (int, int), pow: (int, int) -> int, ienv: nat -> int)
    requires w >= 1 && AtomsFit(sym, w) && SymbolsLower(sym, ienv, w) && AllRing(fs)
    ensures ProdBits(fs, Some(Wrap(a, w)), w, sym, ratio, pow) == Some(Wrap(a * IntProd(fs, ienv), w))
    decreases fs, 0
  {
    if fs != [] {
      var t := IntEval(fs[0], ienv);
      FactorAgrees(fs[0], Some(Wrap(a, w)), w, sym, ratio, pow, ienv);
      WrapMul(a, t, w);
      ProdAgrees(fs[1..], a * t, w, sym, ratio, pow, ienv);
      MulAssoc(a, t, IntProd(fs[1..], ienv));
    }
  }

  /**
   * For an integer polynomial whose symbols lower to their values, the
   * emitted code computes the polynomial's value reduced modulo 2^w.
   */
  lemma {:induction false} RingLowers(e: Expr, w: nat, sym: Symbol -> Option<int>, ratio: real -> (int, int), pow: (int, int) -> int, ienv: nat -> int)
    requires w >= 1 && AtomsFit(sym, w) && SymbolsLower(sym, ienv, w) && Ring(e)
    ensures Integral(Eval(e, Reals(ienv)))
    ensures ExprBits(e, w, sym, ratio, pow) == Some(Wrap(Eval(e, Reals(ienv)).Floor, w))
  {
    IntEvalAgrees(e, ienv);
    BitsAgree(e, w, sym, ratio, pow, ienv);
  }

  // ---------------------------------------------------------------------
  // Rational factors

  /** Integer division of naturals is the floor of the real quotient. */
  lemma {:induction false} FloorOfQuotient(k: nat, d: int)
    requires d >= 1
    ensures (k as real / d as real).Floor == k / d
  {
    var q, r := k / d, k % d;
    assert k == d * q + r && 0 <= r < d;
    assert (q as real) * (d as real) <= k as real;
    assert k as real < ((q + 1) as real) * (d as real);
    assert q as real <= k as real / d as real;
    assert k as real / d as real < (q + 1) as real;
  }

  /** Division toward zero is `TruncateToLong` of the real quotient. */
  lemma {:induction false} TruncDivMeaning(k: int, d: int)
    requires d >= 1
    ensures TruncDiv(k, d) == TruncateToLong(k as real / d as real)
  {
    if k >= 0 {
      FloorOfQuotient(k, d);
    } else {
      FloorOfQuotient(-k, d);
      assert (-k) as real / d as real == -(k as real / d as real);
    }
  }

  /** Scaling by n and dividing by d is scaling by c = n / d. */
  lemma {:induction false} RatioScale(x: int, n: int, d: int, c: real)
    requires d >= 1 && n as real == c * d as real
    ensures (x * n) as real / d as real == x as real * c
  {
    assert (x * n) as real == x as real * n as real;
    assert x as real * n as real == (x as real * c) * d as real;
  }

  /** The numerator step of a rational factor: the product x * n, as a pattern. */
  lemma {:induction false} ScaledPattern(acc: int, n: int, w: nat)
    requires w >= 1 && Fits(acc, w)
    ensures Wrap(acc * Wrap(n, w), w) == Wrap(ToSigned(acc, w) * n, w)
  {
    WrapToSigned(acc, w);
    WrapMul(ToSigned(acc, w), n, w);
  }

  /** Multiplying by n and `sdiv`ing by d truncates x * (n / d) toward zero. */
  lemma {:induction false} RationalDivision(acc: int, x: int, n: int, d: int, c: real, w: nat)
    requires w >= 1 && Fits(acc, w) && x == ToSigned(acc, w) && d >= 1 && n as real == c * d as real
    requires -(Pow2(w - 1) as int) <= x * n < Pow2(w - 1) && d < Pow2(w - 1)
    ensures SDiv(Wrap(acc * Wrap(n, w), w), Wrap(d, w), w) == Some(Wrap(TruncateToLong(x as real * c), w))
  {
    var k := x * n;
    ScaledPattern(acc, n, w);
    ToSignedWrap(k, w);
    ToSignedWrap(d, w);
    TruncDivMeaning(k, d);
    RatioScale(x, n, d, c);
  }

  /**
   * A rational factor c = n/d of a product turns the accumulated signed
   * value x into x * c truncated toward zero, as long as x * n and d are
   * representable in the signed width.
   */
  lemma {:induction false} RationalFactor(c: real, acc: int, x: int, n: int, d: int, w: nat,
                                          sym: Symbol -> Option<int>, ratio: real -> (int, int), pow: (int, int) -> int)
    requires w >= 1 && AtomsFit(sym, w) && Fits(acc, w) && x == ToSigned(acc, w) && !Integral(c)
    requires ratio(c) == (n, d) && d >= 1 && n as real == c * d as real
    requires -(Pow2(w - 1) as int) <= x * n < Pow2(w - 1) && d < Pow2(w - 1)
    ensures FactorBits(Num(c), Some(acc), w, sym, ratio, pow) == Some(Wrap(TruncateToLong(x as real * c), w))
  {
    RationalDivision(acc, x, n, d, c, w);
  }
}
