/**
 * `RelativeMinMax`: a symbolic interval [Min, Max] for an expression, found
 * by case analysis on its shape.  Constants and ordinary symbols are their
 * own bounds, sums add bounds, products multiply them sign-aware, powers
 * with a constant exponent raise them, and an induction variable is bounded
 * by the bounds of its loop's start and end.  The Fasan copy also bounds a
 * phi that moves in lockstep with the induction variable.
 *
 * The code as written has defects (see README, "Findings"): the product,
 * power, induction, co-located and min/max rules can give bounds that
 * exclude attainable values.  `MinMaxOf` and `GetMinMax` take a `Rule`:
 * with `AsWritten` they compute what the source computes, with `Corrected`
 * they use the repaired rules, and the soundness theorems are about the
 * corrected analysis.  Each defect also has a lemma with an input that
 * shows it.
 */
module MinMax {
  import opened Wrappers
  import opened SymExpr
  import opened Intern
  import opened SymbolTables
  import opened Ir
  import opened LoopInfo
  import opened Induction

  /** What `getMinMax` returns, and what its out-parameters `Min` and `Max` hold afterwards. */
  datatype Range = Range(ok: bool, lo: Expr, hi: Expr)

  /** Which rules the analysis applies: the source's, or the repaired ones. */
  datatype Rule = AsWritten | Corrected

  /** A default-constructed `Expr`: GiNaC's empty expression is the number 0. */
  const Fresh: Expr := Num(0.0)

  /** Under `env`, the value `x` lies between the values of `lo` and `hi`. */
  predicate Within(x: real, lo: Expr, hi: Expr, env: Symbol -> real) {
    Eval(lo, env) <= x <= Eval(hi, env)
  }

  /**
   * Expressions as GiNaC builds them: no Invalid symbol and no empty
   * product.
   */
  predicate Proper(e: Expr) {
    match e
    case Num(_) => true
    case Sym(s) => s.Bound?
    case Add(ts) => AllProper(ts)
    case Mul(fs) => |fs| > 0 && AllProper(fs)
    case Pow(b, x) => Proper(b) && Proper(x)
    case Min(l, r) => Proper(l) && Proper(r)
    case Max(l, r) => Proper(l) && Proper(r)
  }

  predicate AllProper(ts: seq<Expr>) {
    forall i :: 0 <= i < |ts| ==> Proper(ts[i])
  }

  lemma {:induction false} ProperIsClean(e: Expr)
    requires Proper(e)
    ensures Clean(e)
  {
    match e
    case Num(_) =>
    case Sym(_) =>
    case Add(ts) => AllProperIsClean(ts);
    case Mul(fs) => AllProperIsClean(fs);
    case Pow(b, x) => ProperIsClean(b); ProperIsClean(x);
    case Min(l, r) => ProperIsClean(l); ProperIsClean(r);
    case Max(l, r) => ProperIsClean(l); ProperIsClean(r);
  }

  lemma {:induction false} AllProperIsClean(ts: seq<Expr>)
    requires AllProper(ts)
    ensures AllClean(ts)
    decreases ts, 0
  {
    forall i | 0 <= i < |ts| ensures Clean(ts[i]) {
      ProperIsClean(ts[i]);
    }
  }

  // ---------------------------------------------------------------------
  // Real arithmetic the bounds rest on
  // ---------------------------------------------------------------------

  lemma ScaleUp(a: real, x: real, c: real)
    requires a <= x && c >= 0.0
    ensures a * c <= x * c
  {
    assert x * c - a * c == (x - a) * c;
  }

  lemma ScaleDown(a: real, x: real, c: real)
    requires a <= x && c <= 0.0
    ensures x * c <= a * c
  {
    assert a * c - x * c == (x - a) * (-c);
  }

  /** `x * y` lies between `a * y` and `b * y` for `x` in [a, b]. */
  lemma {:induction false} LinearBetween(a: real, x: real, b: real, y: real)
    requires a <= x <= b
    ensures RMin(a * y, b * y) <= x * y <= RMax(a * y, b * y)
  {
    if y >= 0.0 {
      ScaleUp(a, x, y);
      ScaleUp(x, b, y);
      assert a * y <= x * y && x * y <= b * y;
    } else {
      ScaleDown(a, x, y);
      ScaleDown(x, b, y);
      assert b * y <= x * y && x * y <= a * y;
    }
  }

  /** A product of two values in intervals lies between the least and the greatest of the four corner products. */
  lemma {:induction false} Corners(a: real, x: real, b: real, c: real, y: real, d: real)
    requires a <= x <= b && c <= y <= d
    ensures RMin(RMin(RMin(a * c, a * d), c * b), b * d) <= x * y
    ensures x * y <= RMax(RMax(RMax(b * c, b * d), d * a), a * c)
  {
    LinearBetween(a, x, b, y);
    LinearBetween(c, y, d, a);
    LinearBetween(c, y, d, b);
    CornersCombine(x * y, a * y, b * y, a * c, a * d, b * c, b * d);
  }

  /** The interval step of `Corners` with the products named: `u` is `a * y` and `w` is `b * y`; pure min/max reasoning. */
  lemma {:induction false} CornersCombine(xy: real, u: real, w: real, ac: real, ad: real, bc: real, bd: real)
    requires RMin(u, w) <= xy <= RMax(u, w)
    requires RMin(ac, ad) <= u <= RMax(ac, ad) && RMin(bc, bd) <= w <= RMax(bc, bd)
    ensures RMin(RMin(RMin(ac, ad), bc), bd) <= xy <= RMax(RMax(RMax(bc, bd), ad), ac)
  {
  }

  lemma {:induction false} NatPowMono(x: real, y: real, n: nat)
    requires 0.0 <= x <= y
    ensures 0.0 <= NatPow(x, n) <= NatPow(y, n)
  {
    if n > 0 {
      NatPowMono(x, y, n - 1);
      ScaleUp(NatPow(x, n - 1), NatPow(y, n - 1), x);
      ScaleUp(x, y, NatPow(y, n - 1));
      assert NatPow(x, n - 1) * x == x * NatPow(x, n - 1);
      assert NatPow(y, n - 1) * x == x * NatPow(y, n - 1);
    }
  }

  lemma {:induction false} NatPowPositive(x: real, n: nat)
    requires x > 0.0
    ensures NatPow(x, n) > 0.0
  {
    if n > 0 {
      NatPowPositive(x, n - 1);
    }
  }

  lemma Reciprocal(p: real, q: real)
    requires 0.0 < p <= q
    ensures 1.0 / q <= 1.0 / p
  {
  }

  /**
   * Raising to a power `c` is monotone on the base for the bases the
   * lemma admits: non-negative ones for a positive exponent, positive ones
   * for a negative exponent (there it reverses the order).
   */
  lemma {:induction false} PowValMono(a: real, v: real, b: real, c: real)
    requires a <= v <= b
    requires c > 0.0 ==> a >= 0.0
    requires c < 0.0 ==> a > 0.0
    ensures c > 0.0 ==> PowVal(a, c) <= PowVal(v, c) <= PowVal(b, c)
    ensures c <= 0.0 ==> PowVal(b, c) <= PowVal(v, c) <= PowVal(a, c)
  {
    if Integral(c) && c >= 0.0 {
      if c > 0.0 {
        NatPowMono(a, v, c.Floor as nat);
        NatPowMono(v, b, c.Floor as nat);
      } else {
        assert c.Floor == 0;
      }
    } else if Integral(c) {
      var n := (-c.Floor) as nat;
      NatPowMono(a, v, n);
      NatPowMono(v, b, n);
      NatPowPositive(a, n);
      Reciprocal(NatPow(a, n), NatPow(v, n));
      Reciprocal(NatPow(v, n), NatPow(b, n));
    }
  }

  // ---------------------------------------------------------------------
  // addMinMax, mulMinMax and the pow case
  // ---------------------------------------------------------------------

  /** `addMinMax(PrevMin, PrevMax, OtherMin, OtherMax, Min, Max)`. */
  function AddMinMax(pl: Expr, ph: Expr, ol: Expr, oh: Expr): (Expr, Expr) {
    (Plus(pl, ol), Plus(ph, oh))
  }

  /** The bounds of a sum are the sums of the bounds. */
  lemma {:induction false} AddMinMaxSound(pl: Expr, ph: Expr, ol: Expr, oh: Expr, x: real, y: real, env: Symbol -> real)
    requires Clean(pl) && Clean(ph) && Clean(ol) && Clean(oh)
    requires Within(x, pl, ph, env) && Within(y, ol, oh, env)
    ensures var (l, h) := AddMinMax(pl, ph, ol, oh); Clean(l) && Clean(h) && Within(x + y, l, h, env)
  {
    CleanPlus(pl, ol);
    CleanPlus(ph, oh);
    PlusSound(pl, ol, env);
    PlusSound(ph, oh, env);
  }

  /**
   * `mulMinMax` as written: a degenerate constant side scales both bounds
   * (swapping them unless the constant is positive); otherwise each bound
   * is the least (greatest) of only three of the four corner products.
   */
  function MulMinMaxAsWritten(pl: Expr, ph: Expr, ol: Expr, oh: Expr): (Expr, Expr) {
    if ol == oh && ol.Num? then
      if IsPositive(ol) then (Times(pl, ol), Times(ph, oh)) else (Times(ph, oh), Times(pl, ol))
    else if pl == ph && pl.Num? then
      if IsPositive(pl) then (Times(pl, ol), Times(ph, oh)) else (Times(ph, oh), Times(pl, ol))
    else
      (SymMin(SymMin(Times(pl, ol), Times(pl, oh)), Times(ol, ph)),
       SymMax(SymMax(Times(ph, ol), Times(ph, oh)), Times(oh, pl)))
  }

  /**
   * The three-product rule misses the attainable product 4 of [-3, -2] and
   * [-3, -2], whose computed minimum is 6, and likewise the attainable 9,
   * whose computed maximum is 6.
   */
  lemma {:induction false} ThreeProductsMiss(env: Symbol -> real)
    ensures var (l, h) := MulMinMaxAsWritten(Num(-3.0), Num(-2.0), Num(-3.0), Num(-2.0));
      l == Num(6.0) && h == Num(6.0) &&
      Within(-2.0, Num(-3.0), Num(-2.0), env) && Within(-3.0, Num(-3.0), Num(-2.0), env) &&
      !Within(-2.0 * -2.0, l, h, env) && !Within(-3.0 * -3.0, l, h, env)
  {
    assert Times(Num(-3.0), Num(-3.0)) == Num(9.0) by {
      assert FactorsOf(Num(-3.0)) == [Num(-3.0)];
      assert Symbolic([Num(-3.0), Num(-3.0)]) == [];
      assert NumProd([Num(-3.0), Num(-3.0)]) == -3.0 * NumProd([Num(-3.0)]);
    }
    assert Times(Num(-3.0), Num(-2.0)) == Num(6.0) by {
      assert FactorsOf(Num(-2.0)) == [Num(-2.0)];
      assert Symbolic([Num(-3.0), Num(-2.0)]) == [];
      assert NumProd([Num(-3.0), Num(-2.0)]) == -3.0 * NumProd([Num(-2.0)]);
    }
    assert Times(Num(-2.0), Num(-3.0)) == Num(6.0) by {
      assert Symbolic([Num(-2.0), Num(-3.0)]) == [];
      assert NumProd([Num(-2.0), Num(-3.0)]) == -2.0 * NumProd([Num(-3.0)]);
    }
    assert Times(Num(-2.0), Num(-2.0)) == Num(4.0) by {
      assert Symbolic([Num(-2.0), Num(-2.0)]) == [];
      assert NumProd([Num(-2.0), Num(-2.0)]) == -2.0 * NumProd([Num(-2.0)]);
    }
  }

  /** `mulMinMax` with the missing fourth corner product added to each bound. */
  function MulMinMax(pl: Expr, ph: Expr, ol: Expr, oh: Expr): (Expr, Expr) {
    if (ol == oh && ol.Num?) || (pl == ph && pl.Num?) then MulMinMaxAsWritten(pl, ph, ol, oh)
    else
      (SymMin(SymMin(SymMin(Times(pl, ol), Times(pl, oh)), Times(ol, ph)), Times(ph, oh)),
       SymMax(SymMax(SymMax(Times(ph, ol), Times(ph, oh)), Times(oh, pl)), Times(pl, ol)))
  }

  /** The product rule of `rule`. */
  function MulMinMaxFor(rule: Rule, pl: Expr, ph: Expr, ol: Expr, oh: Expr): (Expr, Expr) {
    if rule.AsWritten? then MulMinMaxAsWritten(pl, ph, ol, oh) else MulMinMax(pl, ph, ol, oh)
  }

  /*
   * The lemmas from here on name the values of expressions as real
   * variables (`a == Eval(pl, env)`) and multiply only those: the solver
   * relates products of variables far more cheaply than products of `Eval`
   * terms.
   */

  /** Scaling [a, b] by the value `c` of a degenerate side [c, c]: the bounds swap unless `c` is positive. */
  lemma {:induction false} ScaleSound(a: real, x: real, b: real, c: real, y: real)
    requires a <= x <= b && y == c
    ensures c > 0.0 ==> a * c <= x * y <= b * c
    ensures c <= 0.0 ==> b * c <= x * y <= a * c
  {
    if c > 0.0 {
      ScaleUp(a, x, c);
      ScaleUp(x, b, c);
    } else {
      ScaleDown(a, x, c);
      ScaleDown(x, b, c);
    }
  }

  /** The same with the degenerate side on the left. */
  lemma {:induction false} ScaleLeftSound(c: real, x: real, a: real, y: real, b: real)
    requires x == c && a <= y <= b
    ensures c > 0.0 ==> c * a <= x * y <= c * b
    ensures c <= 0.0 ==> c * b <= x * y <= c * a
  {
    ScaleSound(a, y, b, c, x);
    assert x * y == y * x && c * a == a * c && c * b == b * c;
  }

  /** The value of a chain of three `SymMin`s is the least of the four values. */
  lemma {:induction false} MinChain(p1: Expr, p2: Expr, p3: Expr, p4: Expr, env: Symbol -> real)
    requires Clean(p1) && Clean(p2) && Clean(p3) && Clean(p4)
    ensures var m := SymMin(SymMin(SymMin(p1, p2), p3), p4);
      Clean(m) && Eval(m, env) == RMin(RMin(RMin(Eval(p1, env), Eval(p2, env)), Eval(p3, env)), Eval(p4, env))
  {
    SymMinSound(p1, p2, env);
    SymMinSound(SymMin(p1, p2), p3, env);
    SymMinSound(SymMin(SymMin(p1, p2), p3), p4, env);
  }

  lemma {:induction false} MaxChain(p1: Expr, p2: Expr, p3: Expr, p4: Expr, env: Symbol -> real)
    requires Clean(p1) && Clean(p2) && Clean(p3) && Clean(p4)
    ensures var m := SymMax(SymMax(SymMax(p1, p2), p3), p4);
      Clean(m) && Eval(m, env) == RMax(RMax(RMax(Eval(p1, env), Eval(p2, env)), Eval(p3, env)), Eval(p4, env))
  {
    SymMaxSound(p1, p2, env);
    SymMaxSound(SymMax(p1, p2), p3, env);
    SymMaxSound(SymMax(SymMax(p1, p2), p3), p4, env);
  }

  /** A product of clean expressions with values `a` and `b` is clean and has the value `a * b`. */
  lemma {:induction false} TimesValue(p: Expr, q: Expr, a: real, b: real, env: Symbol -> real)
    requires Clean(p) && Clean(q) && Eval(p, env) == a && Eval(q, env) == b
    ensures Clean(Times(p, q)) && Eval(Times(p, q), env) == a * b
  {
    CleanTimes(p, q);
    TimesSound(p, q, env);
  }

  /** A degenerate constant right side `o`: the left side's bounds scaled by it, swapped unless it is positive. */
  lemma {:induction false} ScaledSound(pl: Expr, ph: Expr, o: Expr, x: real, y: real, env: Symbol -> real)
    requires Clean(pl) && Clean(ph) && o.Num? && Within(x, pl, ph, env) && Within(y, o, o, env)
    ensures var (l, h) := if IsPositive(o) then (Times(pl, o), Times(ph, o)) else (Times(ph, o), Times(pl, o));
      Clean(l) && Clean(h) && Within(x * y, l, h, env)
  {
    var a, b, c := Eval(pl, env), Eval(ph, env), Eval(o, env);
    TimesValue(pl, o, a, c, env);
    TimesValue(ph, o, b, c, env);
    ScaleSound(a, x, b, c, y);
  }

  /** A degenerate constant left side `o`: the right side's bounds scaled by it, swapped unless it is positive. */
  lemma {:induction false} ScaledLeftSound(o: Expr, ol: Expr, oh: Expr, x: real, y: real, env: Symbol -> real)
    requires Clean(ol) && Clean(oh) && o.Num? && Within(x, o, o, env) && Within(y, ol, oh, env)
    ensures var (l, h) := if IsPositive(o) then (Times(o, ol), Times(o, oh)) else (Times(o, oh), Times(o, ol));
      Clean(l) && Clean(h) && Within(x * y, l, h, env)
  {
    var c, a, b := Eval(o, env), Eval(ol, env), Eval(oh, env);
    TimesValue(o, ol, c, a, env);
    TimesValue(o, oh, c, b, env);
    ScaleLeftSound(c, x, a, y, b);
  }

  /** The general case: the least and the greatest of the four corner products bound the product. */
  lemma {:induction false} FourCornersSound(pl: Expr, ph: Expr, ol: Expr, oh: Expr, x: real, y: real, env: Symbol -> real)
    requires Clean(pl) && Clean(ph) && Clean(ol) && Clean(oh)
    requires Within(x, pl, ph, env) && Within(y, ol, oh, env)
    ensures var l := SymMin(SymMin(SymMin(Times(pl, ol), Times(pl, oh)), Times(ol, ph)), Times(ph, oh));
      var h := SymMax(SymMax(SymMax(Times(ph, ol), Times(ph, oh)), Times(oh, pl)), Times(pl, ol));
      Clean(l) && Clean(h) && Within(x * y, l, h, env)
  {
    var a, b, c, d := Eval(pl, env), Eval(ph, env), Eval(ol, env), Eval(oh, env);
    TimesValue(pl, ol, a, c, env);
    TimesValue(pl, oh, a, d, env);
    TimesValue(ol, ph, c, b, env);
    TimesValue(ph, oh, b, d, env);
    TimesValue(ph, ol, b, c, env);
    TimesValue(oh, pl, d, a, env);
    MinChain(Times(pl, ol), Times(pl, oh), Times(ol, ph), Times(ph, oh), env);
    MaxChain(Times(ph, ol), Times(ph, oh), Times(oh, pl), Times(pl, ol), env);
    Corners(a, x, b, c, y, d);
  }

  /** The corrected rule bounds every product of a value in [pl, ph] and one in [ol, oh]. */
  lemma {:induction false} MulMinMaxSound(pl: Expr, ph: Expr, ol: Expr, oh: Expr, x: real, y: real, env: Symbol -> real)
    requires Clean(pl) && Clean(ph) && Clean(ol) && Clean(oh)
    requires Within(x, pl, ph, env) && Within(y, ol, oh, env)
    ensures var (l, h) := MulMinMax(pl, ph, ol, oh); Clean(l) && Clean(h) && Within(x * y, l, h, env)
  {
    if ol == oh && ol.Num? {
      ScaledSound(pl, ph, ol, x, y, env);
    } else if pl == ph && pl.Num? {
      ScaledLeftSound(pl, ol, oh, x, y, env);
    } else {
      FourCornersSound(pl, ph, ol, oh, x, y, env);
    }
  }

  /** The pow case as written: both bounds raised to the constant exponent, swapped unless it is positive. */
  function PowMinMaxAsWritten(bl: Expr, bh: Expr, x: Expr): (Expr, Expr) {
    if IsPositive(x) then (Power(bl, x), Power(bh, x)) else (Power(bh, x), Power(bl, x))
  }

  /** What the pow rule as written needs of the base's lower bound: non-negative for a positive exponent, positive for a negative one. */
  predicate NonNegativeBase(bl: Expr, c: real, env: Symbol -> real) {
    (c > 0.0 ==> Eval(bl, env) >= 0.0) && (c < 0.0 ==> Eval(bl, env) > 0.0)
  }

  /** On bases whose lower bound meets `NonNegativeBase`, the rule as written brackets the power. */
  lemma {:induction false} PowAsWrittenSound(bl: Expr, bh: Expr, c: real, v: real, env: Symbol -> real)
    requires Clean(bl) && Clean(bh) && Within(v, bl, bh, env) && NonNegativeBase(bl, c, env)
    ensures var (l, h) := PowMinMaxAsWritten(bl, bh, Num(c)); Clean(l) && Clean(h) && Within(PowVal(v, c), l, h, env)
  {
    CleanPower(bl, Num(c));
    CleanPower(bh, Num(c));
    PowerSound(bl, Num(c), env);
    PowerSound(bh, Num(c), env);
    PowValMono(Eval(bl, env), v, Eval(bh, env), c);
  }

  /**
   * A base in [-3, 2] squared: as written the bounds are (9, 4), which
   * exclude the square 0 of the base 0.
   */
  lemma {:induction false} EvenPowerMiss(env: Symbol -> real)
    ensures var (l, h) := PowMinMaxAsWritten(Num(-3.0), Num(2.0), Num(2.0));
      l == Num(9.0) && h == Num(4.0) && Within(0.0, Num(-3.0), Num(2.0), env) && !Within(PowVal(0.0, 2.0), l, h, env)
  {
    assert (2.0).Floor == 2;
    assert NatPow(-3.0, 2) == 9.0 && NatPow(2.0, 2) == 4.0 && NatPow(0.0, 2) == 0.0;
  }

  /** A positive even integer. */
  predicate EvenPower(c: real) {
    Integral(c) && c > 0.0 && c.Floor % 2 == 0
  }

  function RAbs(x: real): real { if x >= 0.0 then x else -x }

  lemma {:induction false} NatPowNeg(x: real, n: nat)
    ensures NatPow(-x, n) == if n % 2 == 0 then NatPow(x, n) else -NatPow(x, n)
  {
    if n > 0 {
      NatPowNeg(x, n - 1);
      var p := NatPow(x, n - 1);
      assert NatPow(-x, n) == -x * NatPow(-x, n - 1);
      if n % 2 == 0 {
        assert NatPow(-x, n - 1) == -p;
        assert -x * -p == x * p;
      } else {
        assert NatPow(-x, n - 1) == p;
        assert -x * p == -(x * p);
      }
    }
  }

  /** An even power depends on the magnitude of the base only. */
  lemma {:induction false} EvenPowAbs(x: real, n: nat)
    requires n % 2 == 0
    ensures NatPow(x, n) == NatPow(RAbs(x), n)
  {
    if x < 0.0 {
      NatPowNeg(x, n);
    }
  }

  /** An odd power is monotone on every base. */
  lemma {:induction false} OddPowMono(x: real, y: real, n: nat)
    requires x <= y && n % 2 == 1
    ensures NatPow(x, n) <= NatPow(y, n)
  {
    NatPowNeg(x, n);
    NatPowNeg(y, n);
    if 0.0 <= x {
      NatPowMono(x, y, n);
    } else if y <= 0.0 {
      NatPowMono(-y, -x, n);
    } else {
      NatPowMono(0.0, -x, n);
      NatPowMono(0.0, y, n);
    }
  }

  /**
   * An even power of `v` in [a, b] lies between the power of the least
   * magnitude `max(a, -b, 0)` and the larger of the powers of the ends.
   */
  lemma {:induction false} EvenPowBounds(a: real, v: real, b: real, n: nat)
    requires a <= v <= b && n % 2 == 0
    ensures NatPow(RMax(RMax(a, -b), 0.0), n) <= NatPow(v, n) <= RMax(NatPow(a, n), NatPow(b, n))
  {
    var m := RMax(RMax(a, -b), 0.0);
    EvenPowAbs(v, n);
    EvenPowAbs(a, n);
    EvenPowAbs(b, n);
    NatPowMono(m, RAbs(v), n);
    if v >= 0.0 {
      NatPowMono(v, b, n);
    } else {
      NatPowMono(-v, -a, n);
    }
  }

  /**
   * Raising to a power `c` is monotone on the base everywhere except for a
   * positive even exponent; a negative exponent needs positive bases (it
   * reverses the order there).
   */
  lemma {:induction false} PowValMonoExceptEven(a: real, v: real, b: real, c: real)
    requires a <= v <= b && !EvenPower(c)
    requires c < 0.0 ==> a > 0.0
    ensures c > 0.0 ==> PowVal(a, c) <= PowVal(v, c) <= PowVal(b, c)
    ensures c <= 0.0 ==> PowVal(b, c) <= PowVal(v, c) <= PowVal(a, c)
  {
    if !Integral(c) {
      // the model's value of a non-integral power is 0 on every base
    } else if c > 0.0 && a < 0.0 {
      OddPowMono(a, v, c.Floor as nat);
      OddPowMono(v, b, c.Floor as nat);
    } else {
      PowValMono(a, v, b, c);
    }
  }

  /**
   * The pow case corrected: a positive even exponent raises the least
   * magnitude `max(bl, -bh, 0)` of the base for the lower bound and takes
   * the larger power of the ends for the upper one; other exponents keep the
   * rule as written.
   */
  function PowMinMax(bl: Expr, bh: Expr, x: Expr): (Expr, Expr) {
    if x.Num? && EvenPower(x.c) then
      (Power(SymMax(SymMax(bl, Times(Num(-1.0), bh)), Num(0.0)), x), SymMax(Power(bl, x), Power(bh, x)))
    else PowMinMaxAsWritten(bl, bh, x)
  }

  /** The pow rule of `rule`. */
  function PowMinMaxFor(rule: Rule, bl: Expr, bh: Expr, x: Expr): (Expr, Expr) {
    if rule.AsWritten? then PowMinMaxAsWritten(bl, bh, x) else PowMinMax(bl, bh, x)
  }

  /** What the corrected pow rule still needs of the base: a positive lower bound under a negative exponent. */
  predicate BaseAssumed(bl: Expr, c: real, env: Symbol -> real) {
    c < 0.0 ==> Eval(bl, env) > 0.0
  }

  /** The corrected rule for a positive even exponent brackets the power on every base. */
  lemma {:induction false} EvenPowSound(bl: Expr, bh: Expr, c: real, v: real, env: Symbol -> real)
    requires Clean(bl) && Clean(bh) && Within(v, bl, bh, env) && EvenPower(c)
    ensures var (l, h) := PowMinMax(bl, bh, Num(c)); Clean(l) && Clean(h) && Within(PowVal(v, c), l, h, env)
  {
    var a, b := Eval(bl, env), Eval(bh, env);
    var nb := Times(Num(-1.0), bh);
    TimesValue(Num(-1.0), bh, -1.0, b, env);
    var m1 := SymMax(bl, nb);
    SymMaxSound(bl, nb, env);
    var m := SymMax(m1, Num(0.0));
    SymMaxSound(m1, Num(0.0), env);
    assert Eval(m, env) == RMax(RMax(a, -b), 0.0);
    CleanPower(m, Num(c));
    PowerSound(m, Num(c), env);
    CleanPower(bl, Num(c));
    CleanPower(bh, Num(c));
    PowerSound(bl, Num(c), env);
    PowerSound(bh, Num(c), env);
    SymMaxSound(Power(bl, Num(c)), Power(bh, Num(c)), env);
    EvenPowBounds(a, v, b, c.Floor as nat);
  }

  /** The corrected pow rule brackets the power of every base in range, under `BaseAssumed`. */
  lemma {:induction false} PowMinMaxSound(bl: Expr, bh: Expr, c: real, v: real, env: Symbol -> real)
    requires Clean(bl) && Clean(bh) && Within(v, bl, bh, env) && BaseAssumed(bl, c, env)
    ensures var (l, h) := PowMinMax(bl, bh, Num(c)); Clean(l) && Clean(h) && Within(PowVal(v, c), l, h, env)
  {
    if EvenPower(c) {
      EvenPowSound(bl, bh, c, v, env);
    } else {
      CleanPower(bl, Num(c));
      CleanPower(bh, Num(c));
      PowerSound(bl, Num(c), env);
      PowerSound(bh, Num(c), env);
      PowValMonoExceptEven(Eval(bl, env), v, Eval(bh, env), c);
    }
  }

  // ---------------------------------------------------------------------
  // Induction variables, min and max nodes, co-located phis
  // ---------------------------------------------------------------------

  /** The loops the code treats as counting up: `<`, `<=`, and EQ with a step that is not a negative constant. */
  predicate CountsUp(pred: Predicate, step: Expr) {
    pred.SLT? || pred.ULT? || pred.SLE? || pred.ULE? || (pred.EQ? && !IsNegative(step))
  }

  /** The induction variable's value `v` lies between the start value `s` and the end value `t`, in the loop's direction. */
  predicate InRange(pred: Predicate, step: Expr, v: real, s: real, t: real) {
    if CountsUp(pred, step) then s <= v <= t else t <= v <= s
  }

  /**
   * The induction case as written: (min start, max end) counting up, and
   * (max start, min end) counting down.
   */
  function InductionBoundsAsWritten(pred: Predicate, step: Expr, rs: Range, re: Range): (Expr, Expr) {
    if CountsUp(pred, step) then (rs.lo, re.hi) else (rs.hi, re.lo)
  }

  /**
   * For `i = 10; i > 0; i--` (start 10, end 1) the as-written bounds are
   * (10, 1), which exclude the value 5 the variable takes.
   */
  lemma {:induction false} DecreasingBoundsSwapped(env: Symbol -> real)
    ensures var (l, h) := InductionBoundsAsWritten(SGT, Num(-1.0), Range(true, Num(10.0), Num(10.0)), Range(true, Num(1.0), Num(1.0)));
      InRange(SGT, Num(-1.0), 5.0, 10.0, 1.0) && l == Num(10.0) && h == Num(1.0) && !Within(5.0, l, h, env)
  {
  }

  /** The induction case corrected: counting down, the end bounds from below and the start from above. */
  function InductionBounds(pred: Predicate, step: Expr, rs: Range, re: Range): (Expr, Expr) {
    if CountsUp(pred, step) then (rs.lo, re.hi) else (re.lo, rs.hi)
  }

  /** The induction rule of `rule`. */
  function InductionBoundsFor(rule: Rule, pred: Predicate, step: Expr, rs: Range, re: Range): (Expr, Expr) {
    if rule.AsWritten? then InductionBoundsAsWritten(pred, step, rs, re) else InductionBounds(pred, step, rs, re)
  }

  lemma {:induction false} InductionBoundsSound(pred: Predicate, step: Expr, rs: Range, re: Range, v: real, s: real, t: real, env: Symbol -> real)
    requires Within(s, rs.lo, rs.hi, env) && Within(t, re.lo, re.hi, env) && InRange(pred, step, v, s, t)
    ensures var (l, h) := InductionBounds(pred, step, rs, re); Within(v, l, h, env)
  {
  }

  /** A Min node as written: the smaller of the children's minima, for both bounds, whatever the children returned. */
  function MinNodeAsWritten(ra: Range, rb: Range): Range {
    var m := SymMin(ra.lo, rb.lo);
    Range(true, m, m)
  }

  /** A Max node as written: the larger of the children's minima, for both bounds, whatever the children returned. */
  function MaxNodeAsWritten(ra: Range, rb: Range): Range {
    var m := SymMax(ra.lo, rb.lo);
    Range(true, m, m)
  }

  /**
   * With children bounded by [0, 10] and [5, 5], the as-written Min node
   * gives [0, 0] and the Max node [5, 5]; at 10 and 5 the nodes take the
   * values 5 and 10, outside both.
   */
  lemma {:induction false} NodeBoundsDegenerate(env: Symbol -> real)
    ensures var ra, rb := Range(true, Num(0.0), Num(10.0)), Range(true, Num(5.0), Num(5.0));
      var rmin, rmax := MinNodeAsWritten(ra, rb), MaxNodeAsWritten(ra, rb);
      Within(10.0, ra.lo, ra.hi, env) && Within(5.0, rb.lo, rb.hi, env) &&
      !Within(RMin(10.0, 5.0), rmin.lo, rmin.hi, env) && !Within(RMax(10.0, 5.0), rmax.lo, rmax.hi, env)
  {
  }

  /** A Min node corrected: fails with a failing child; otherwise the smaller minimum and the smaller maximum. */
  function MinNode(ra: Range, rb: Range, lo: Expr, hi: Expr): Range {
    if !ra.ok || !rb.ok then Range(false, lo, hi) else Range(true, SymMin(ra.lo, rb.lo), SymMin(ra.hi, rb.hi))
  }

  /** A Max node corrected: fails with a failing child; otherwise the larger minimum and the larger maximum. */
  function MaxNode(ra: Range, rb: Range, lo: Expr, hi: Expr): Range {
    if !ra.ok || !rb.ok then Range(false, lo, hi) else Range(true, SymMax(ra.lo, rb.lo), SymMax(ra.hi, rb.hi))
  }

  /** The Min node of `rule`: `lo` and `hi` are the caller's outputs, kept by a failing corrected node. */
  function MinNodeFor(rule: Rule, ra: Range, rb: Range, lo: Expr, hi: Expr): Range {
    if rule.AsWritten? then MinNodeAsWritten(ra, rb) else MinNode(ra, rb, lo, hi)
  }

  function MaxNodeFor(rule: Rule, ra: Range, rb: Range, lo: Expr, hi: Expr): Range {
    if rule.AsWritten? then MaxNodeAsWritten(ra, rb) else MaxNode(ra, rb, lo, hi)
  }

  /**
   * The incoming `Max` of a node's second child: as written both calls
   * share the output `Bogus`, so the second starts from what the first left
   * there; corrected, each child gets fresh outputs.
   */
  function SecondMax(rule: Rule, ra: Range): Expr {
    if rule.AsWritten? then ra.hi else Fresh
  }

  lemma {:induction false} MinNodeSound(ra: Range, rb: Range, lo: Expr, hi: Expr, x: real, y: real, env: Symbol -> real)
    requires Clean(ra.lo) && Clean(ra.hi) && Clean(rb.lo) && Clean(rb.hi)
    requires Within(x, ra.lo, ra.hi, env) && Within(y, rb.lo, rb.hi, env)
    ensures var r := MinNode(ra, rb, lo, hi); r.ok ==> Clean(r.lo) && Clean(r.hi) && Within(RMin(x, y), r.lo, r.hi, env)
  {
    SymMinSound(ra.lo, rb.lo, env);
    SymMinSound(ra.hi, rb.hi, env);
  }

  lemma {:induction false} MaxNodeSound(ra: Range, rb: Range, lo: Expr, hi: Expr, x: real, y: real, env: Symbol -> real)
    requires Clean(ra.lo) && Clean(ra.hi) && Clean(rb.lo) && Clean(rb.hi)
    requires Within(x, ra.lo, ra.hi, env) && Within(y, rb.lo, rb.hi, env)
    ensures var r := MaxNode(ra, rb, lo, hi); r.ok ==> Clean(r.lo) && Clean(r.hi) && Within(RMax(x, y), r.lo, r.hi, env)
  {
    SymMaxSound(ra.lo, rb.lo, env);
    SymMaxSound(ra.hi, rb.hi, env);
  }

  /** The trip count `(end - start) / step` of the induction variable, and the co-located phi's end `coStart + coStep * trips`. */
  function ColocatedEnd(coStart: Expr, coStep: Expr, ind: Induction): Expr {
    Plus(coStart, Times(coStep, Div(Minus(ind.end, ind.start), ind.step)))
  }

  /**
   * The co-located case as written: the start and the end, ordered by the
   * sign of the induction variable's step (the source's "TODO account for
   * sign").
   */
  function ColocatedBoundsAsWritten(coStart: Expr, coStep: Expr, ind: Induction): (Expr, Expr) {
    var coEnd := ColocatedEnd(coStart, coStep, ind);
    if IsPositive(ind.step) then (coStart, coEnd) else (coEnd, coStart)
  }

  /** The co-located case corrected: the smaller and the larger of the start and the end. */
  function ColocatedBounds(coStart: Expr, coStep: Expr, ind: Induction): (Expr, Expr) {
    var coEnd := ColocatedEnd(coStart, coStep, ind);
    (SymMin(coStart, coEnd), SymMax(coStart, coEnd))
  }

  /** The co-located rule of `rule`. */
  function ColocatedBoundsFor(rule: Rule, coStart: Expr, coStep: Expr, ind: Induction): (Expr, Expr) {
    if rule.AsWritten? then ColocatedBoundsAsWritten(coStart, coStep, ind) else ColocatedBounds(coStart, coStep, ind)
  }

  /**
   * Moving `trips >= 0` steps of size `d` from `a` ends between `a` and
   * `a + d * trips`, and the phi's value `v` lies there; `up` says the
   * code orders the bounds as if `d` were non-negative.
   */
  predicate Lockstep(a: real, d: real, trips: real, v: real, up: bool) {
    trips >= 0.0 && RMin(a, a + d * trips) <= v <= RMax(a, a + d * trips) &&
    (up ==> d >= 0.0) && (!up ==> d <= 0.0)
  }

  /**
   * What the bounds as written rely on: the induction step is not zero,
   * the phi's value `v` lies between its start and where the loop's trip
   * count of its steps takes it, and its step has the sign the code
   * assumes (non-negative when the induction step is a positive constant,
   * non-positive otherwise).
   */
  predicate SignedLockstep(coStart: Expr, coStep: Expr, ind: Induction, v: real, env: Symbol -> real) {
    Eval(ind.step, env) != 0.0 &&
    Lockstep(Eval(coStart, env), Eval(coStep, env), (Eval(ind.end, env) - Eval(ind.start, env)) / Eval(ind.step, env),
             v, IsPositive(ind.step))
  }

  /**
   * What the corrected bounds rely on: the induction step is not zero, and
   * the phi's value `v` lies between its start and where the loop's trip
   * count of its steps takes it.
   */
  predicate InLockstep(coStart: Expr, coStep: Expr, ind: Induction, v: real, env: Symbol -> real) {
    Eval(ind.step, env) != 0.0 &&
    Between(Eval(coStart, env), Eval(coStep, env), (Eval(ind.end, env) - Eval(ind.start, env)) / Eval(ind.step, env), v)
  }

  /** The value `v` lies between `a` and `a + d * n`, in either order. */
  predicate Between(a: real, d: real, n: real, v: real) {
    RMin(a, a + d * n) <= v <= RMax(a, a + d * n)
  }

  lemma {:induction false} PlusValue(p: Expr, q: Expr, a: real, b: real, env: Symbol -> real)
    requires Clean(p) && Clean(q) && Eval(p, env) == a && Eval(q, env) == b
    ensures Clean(Plus(p, q)) && Eval(Plus(p, q), env) == a + b
  {
    CleanPlus(p, q);
    PlusSound(p, q, env);
  }

  lemma {:induction false} MinusValue(p: Expr, q: Expr, a: real, b: real, env: Symbol -> real)
    requires Clean(p) && Clean(q) && Eval(p, env) == a && Eval(q, env) == b
    ensures Clean(Minus(p, q)) && Eval(Minus(p, q), env) == a - b
  {
    CleanMinus(p, q);
    MinusSound(p, q, env);
  }

  lemma {:induction false} DivValue(p: Expr, q: Expr, a: real, b: real, env: Symbol -> real)
    requires Clean(p) && Clean(q) && Eval(p, env) == a && Eval(q, env) == b && b != 0.0
    ensures Clean(Div(p, q)) && Eval(Div(p, q), env) == a / b
  {
    CleanDiv(p, q);
    DivSound(p, q, env);
  }

  /** The trip count `(end - start) / step` has the value `(t - s) / st`. */
  lemma {:induction false} TripsValue(ind: Induction, s: real, t: real, st: real, env: Symbol -> real)
    requires Clean(ind.start) && Clean(ind.end) && Clean(ind.step)
    requires Eval(ind.start, env) == s && Eval(ind.end, env) == t && Eval(ind.step, env) == st && st != 0.0
    ensures Clean(Div(Minus(ind.end, ind.start), ind.step)) && Eval(Div(Minus(ind.end, ind.start), ind.step), env) == (t - s) / st
  {
    MinusValue(ind.end, ind.start, t, s, env);
    var k := t - s;
    DivValue(Minus(ind.end, ind.start), ind.step, k, st, env);
  }

  /** The co-located end `coStart + coStep * trips` has the value `a + d * n`. */
  lemma {:induction false} EndValue(coStart: Expr, coStep: Expr, trips: Expr, a: real, d: real, n: real, env: Symbol -> real)
    requires Clean(coStart) && Clean(coStep) && Clean(trips)
    requires Eval(coStart, env) == a && Eval(coStep, env) == d && Eval(trips, env) == n
    ensures Clean(Plus(coStart, Times(coStep, trips))) && Eval(Plus(coStart, Times(coStep, trips)), env) == a + d * n
  {
    TimesValue(coStep, trips, d, n, env);
    var m := d * n;
    PlusValue(coStart, Times(coStep, trips), a, m, env);
  }

  /** Moving `trips >= 0` steps of size `d` from `a` goes up when `d >= 0` and down when `d <= 0`. */
  lemma Moves(a: real, d: real, trips: real)
    requires trips >= 0.0
    ensures d >= 0.0 ==> a <= a + d * trips
    ensures d <= 0.0 ==> a + d * trips <= a
  {
    if d >= 0.0 {
      ScaleUp(0.0, trips, d);
    } else {
      ScaleDown(0.0, trips, d);
    }
    assert d * trips == trips * d;
  }

  /** In lockstep, `v` lies between `a` and `a + d * n`, in the order `up` gives. */
  lemma {:induction false} LockstepBounds(a: real, d: real, n: real, v: real, up: bool)
    requires Lockstep(a, d, n, v, up)
    ensures up ==> a <= v <= a + d * n
    ensures !up ==> a + d * n <= v <= a
  {
    Moves(a, d, n);
  }

  /** The co-located phi's start and step and the induction variable's start, end and step have no Invalid symbol. */
  predicate CleanParts(coStart: Expr, coStep: Expr, ind: Induction) {
    Clean(coStart) && Clean(coStep) && Clean(ind.start) && Clean(ind.end) && Clean(ind.step)
  }

  /** The co-located end is clean and has the value `a + d * n` of the start, the step and the trip count. */
  lemma {:induction false} ColocatedEndValue(coStart: Expr, coStep: Expr, ind: Induction, env: Symbol -> real)
    returns (a: real, d: real, n: real)
    requires CleanParts(coStart, coStep, ind) && Eval(ind.step, env) != 0.0
    ensures a == Eval(coStart, env) && d == Eval(coStep, env)
    ensures n == (Eval(ind.end, env) - Eval(ind.start, env)) / Eval(ind.step, env)
    ensures Clean(ColocatedEnd(coStart, coStep, ind)) && Eval(ColocatedEnd(coStart, coStep, ind), env) == a + d * n
  {
    var s, t, st := Eval(ind.start, env), Eval(ind.end, env), Eval(ind.step, env);
    a, d := Eval(coStart, env), Eval(coStep, env);
    TripsValue(ind, s, t, st, env);
    n := (t - s) / st;
    EndValue(coStart, coStep, Div(Minus(ind.end, ind.start), ind.step), a, d, n, env);
  }

  /** Under its sign assumption, the rule as written brackets the phi's value between its start and its end. */
  lemma {:induction false} ColocatedAsWrittenSound(coStart: Expr, coStep: Expr, ind: Induction, v: real, env: Symbol -> real)
    requires CleanParts(coStart, coStep, ind)
    requires SignedLockstep(coStart, coStep, ind, v, env)
    ensures var (l, h) := ColocatedBoundsAsWritten(coStart, coStep, ind); Clean(l) && Clean(h) && Within(v, l, h, env)
  {
    var a, d, n := ColocatedEndValue(coStart, coStep, ind, env);
    assert Lockstep(a, d, n, v, IsPositive(ind.step));
    LockstepBounds(a, d, n, v, IsPositive(ind.step));
  }

  /**
   * An induction variable counting 0, 1, ..., 10 and a phi starting at 100
   * with step -2: the phi ends at 80, but as written the bounds are ordered
   * by the induction variable's positive step, giving (100, 80), which
   * excludes the value 90 the phi takes.
   */
  lemma {:induction false} ColocatedSignMiss(env: Symbol -> real)
    ensures var ind := Induction(0, Num(0.0), Num(10.0), Num(1.0));
      var (l, h) := ColocatedBoundsAsWritten(Num(100.0), Num(-2.0), ind);
      InLockstep(Num(100.0), Num(-2.0), ind, 90.0, env) && Eval(h, env) == 80.0 && !Within(90.0, l, h, env)
  {
    var ind := Induction(0, Num(0.0), Num(10.0), Num(1.0));
    var a, d, n := ColocatedEndValue(Num(100.0), Num(-2.0), ind, env);
    assert n == 10.0 && a + d * n == 80.0;
  }

  /** The corrected rule brackets the phi's value between its start and its end, in either order. */
  lemma {:induction false} ColocatedBoundsSound(coStart: Expr, coStep: Expr, ind: Induction, v: real, env: Symbol -> real)
    requires CleanParts(coStart, coStep, ind)
    requires InLockstep(coStart, coStep, ind, v, env)
    ensures var b := ColocatedBounds(coStart, coStep, ind); Clean(b.0) && Clean(b.1) && Within(v, b.0, b.1, env)
  {
    var a, d, n := ColocatedEndValue(coStart, coStep, ind, env);
    ColocatedEndBetween(coStart, coStep, ind, a, d, n, v, env);
    OrderedWithin(coStart, ColocatedEnd(coStart, coStep, ind), v, env);
  }

  /** A phi between the start `a` and the end `a + d * n` lies between its start and its symbolic end. */
  lemma {:induction false} ColocatedEndBetween(coStart: Expr, coStep: Expr, ind: Induction, a: real, d: real, n: real, v: real, env: Symbol -> real)
    requires CleanParts(coStart, coStep, ind) && Eval(ind.step, env) != 0.0
    requires a == Eval(coStart, env) && d == Eval(coStep, env) && n == (Eval(ind.end, env) - Eval(ind.start, env)) / Eval(ind.step, env)
    requires Between(a, d, n, v)
    ensures RMin(Eval(coStart, env), Eval(ColocatedEnd(coStart, coStep, ind), env)) <= v
    ensures v <= RMax(Eval(coStart, env), Eval(ColocatedEnd(coStart, coStep, ind), env))
  {
    TripsValue(ind, Eval(ind.start, env), Eval(ind.end, env), Eval(ind.step, env), env);
    EndValue(coStart, coStep, Div(Minus(ind.end, ind.start), ind.step), a, d, n, env);
  }

  /** A value between two clean bounds, in either order, lies within their symbolic minimum and maximum. */
  lemma {:induction false} OrderedWithin(a: Expr, b: Expr, v: real, env: Symbol -> real)
    requires Clean(a) && Clean(b) && RMin(Eval(a, env), Eval(b, env)) <= v <= RMax(Eval(a, env), Eval(b, env))
    ensures Clean(SymMin(a, b)) && Clean(SymMax(a, b)) && Within(v, SymMin(a, b), SymMax(a, b), env)
  {
    SymMinSound(a, b, env);
    SymMaxSound(a, b, env);
  }

  // ---------------------------------------------------------------------
  // The loops and cases of getMinMax on computed ranges
  // ---------------------------------------------------------------------

  /**
   * The loop of the add case over the terms' ranges: each range is added
   * to the running bounds; the first failing range fails with the bounds
   * accumulated so far.
   */
  function AddRanges(rs: seq<Range>, lo: Expr, hi: Expr): Range {
    if rs == [] then Range(true, lo, hi)
    else if !rs[0].ok then Range(false, lo, hi)
    else
      var (l, h) := AddMinMax(rs[0].lo, rs[0].hi, lo, hi);
      AddRanges(rs[1..], l, h)
  }

  /**
   * The loop of the mul case over the factors' ranges: while `Min` is not
   * valid a range is taken as it is, afterwards it is combined with the
   * running bounds by the product rule; the first failing range fails
   * with the bounds so far.
   */
  function MulRanges(rule: Rule, rs: seq<Range>, lo: Expr, hi: Expr): Range {
    if rs == [] then Range(true, lo, hi)
    else if !rs[0].ok then Range(false, lo, hi)
    else if !IsValid(lo) then MulRanges(rule, rs[1..], rs[0].lo, rs[0].hi)
    else
      var (l, h) := MulMinMaxFor(rule, rs[0].lo, rs[0].hi, lo, hi);
      MulRanges(rule, rs[1..], l, h)
  }

  /** The pow case once the base is bounded: failure when the base failed. */
  function PowRange(rule: Rule, rb: Range, x: Expr, lo: Expr, hi: Expr): Range {
    if !rb.ok then Range(false, lo, hi)
    else
      var (l, h) := PowMinMaxFor(rule, rb.lo, rb.hi, x);
      Range(true, l, h)
  }

  /** The induction case once start and end are bounded: either failing fails. */
  function IndvarRange(rule: Rule, pred: Predicate, step: Expr, rs: Range, re: Range, lo: Expr, hi: Expr): Range {
    if !rs.ok || !re.ok then Range(false, lo, hi)
    else
      var (l, h) := InductionBoundsFor(rule, pred, step, rs, re);
      Range(true, l, h)
  }

  /** The co-located case once `getColocatedLoopInfo` and `getLoopInfo` have answered: either failing fails. */
  function CoLocatedRange(rule: Rule, co: Option<(Expr, Expr)>, info: Option<Induction>, lo: Expr, hi: Expr): Range {
    if co.None? || info.None? then Range(false, lo, hi)
    else
      var (l, h) := ColocatedBoundsFor(rule, co.value.0, co.value.1, info.value);
      Range(true, l, h)
  }

  /** The range `r`, when it succeeded, has bounds free of Invalid that bracket `v`. */
  predicate Brackets(r: Range, v: real, env: Symbol -> real) {
    r.ok ==> Clean(r.lo) && Clean(r.hi) && Within(v, r.lo, r.hi, env)
  }

  lemma {:induction false} BracketsCongruence(r: Range, v: real, w: real, env: Symbol -> real)
    requires Brackets(r, v, env) && v == w
    ensures Brackets(r, w, env)
  {
  }

  /** Each range brackets the value of the expression at its position. */
  predicate AllBracket(rs: seq<Range>, ts: seq<Expr>, env: Symbol -> real) {
    |rs| == |ts| && forall i :: 0 <= i < |ts| ==> Brackets(rs[i], Eval(ts[i], env), env)
  }

  lemma {:induction false} AllBracketTail(rs: seq<Range>, ts: seq<Expr>, env: Symbol -> real)
    requires AllBracket(rs, ts, env) && ts != []
    ensures AllBracket(rs[1..], ts[1..], env)
  {
    forall i | 0 <= i < |ts[1..]| ensures Brackets(rs[1..][i], Eval(ts[1..][i], env), env) {
      assert rs[1..][i] == rs[i + 1] && ts[1..][i] == ts[i + 1];
    }
  }

  /** The add loop is sound: from running bounds around `x`, it brackets `x` plus the sum of the terms. */
  lemma {:induction false} AddRangesSound(rs: seq<Range>, ts: seq<Expr>, lo: Expr, hi: Expr, x: real, env: Symbol -> real)
    requires AllBracket(rs, ts, env) && Clean(lo) && Clean(hi) && Within(x, lo, hi, env)
    ensures Brackets(AddRanges(rs, lo, hi), x + EvalSum(ts, env), env)
    decreases ts
  {
    if ts != [] && rs[0].ok {
      var y, t := Eval(ts[0], env), EvalSum(ts[1..], env);
      assert Brackets(rs[0], y, env);
      AddMinMaxSound(rs[0].lo, rs[0].hi, lo, hi, y, x, env);
      var (l, h) := AddMinMax(rs[0].lo, rs[0].hi, lo, hi);
      AllBracketTail(rs, ts, env);
      AddRangesSound(rs[1..], ts[1..], l, h, y + x, env);
      assert x + EvalSum(ts, env) == (y + x) + t;
    }
  }

  /** `EvalProd(fs)` is the value of the first factor times the product of the rest. */
  lemma {:induction false} ProdValue(fs: seq<Expr>, y: real, p: real, env: Symbol -> real)
    requires fs != [] && y == Eval(fs[0], env) && p == EvalProd(fs[1..], env)
    ensures EvalProd(fs, env) == y * p
  {
  }

  lemma Reassociate(x: real, y: real, p: real)
    ensures x * (y * p) == (y * x) * p
  {
  }

  /** `x` times the product of `fs`, regrouped as `(y * x) * p` with `y` the first factor's value and `p` the rest's. */
  lemma {:induction false} ProdShift(fs: seq<Expr>, x: real, y: real, p: real, env: Symbol -> real)
    requires fs != [] && y == Eval(fs[0], env) && p == EvalProd(fs[1..], env)
    ensures x * EvalProd(fs, env) == (y * x) * p
  {
    ProdValue(fs, y, p, env);
    Reassociate(x, y, p);
  }

  /**
   * The mul loop is sound from running bounds around `x`: it brackets `v`,
   * the value `x` times the product `p` of the factors.
   */
  lemma {:induction false} MulRangesSound(rs: seq<Range>, fs: seq<Expr>, lo: Expr, hi: Expr, x: real, p: real, v: real, env: Symbol -> real)
    requires AllBracket(rs, fs, env) && p == EvalProd(fs, env) && v == x * p
    requires Clean(lo) && Clean(hi) && Within(x, lo, hi, env)
    ensures Brackets(MulRanges(Corrected, rs, lo, hi), v, env)
    decreases fs, 1
  {
    if fs == [] {
      assert EvalProd(fs, env) == 1.0;
    } else if rs[0].ok {
      var y, q := Eval(fs[0], env), EvalProd(fs[1..], env);
      ProdShift(fs, x, y, q, env);
      MulStepSound(rs, fs, lo, hi, x, y, q, v, env);
    }
  }

  /** A step of the mul loop from running bounds: `mulMinMax` brackets the running product, and the rest of the loop goes on from there. */
  lemma {:induction false} MulStepSound(rs: seq<Range>, fs: seq<Expr>, lo: Expr, hi: Expr, x: real, y: real, q: real, v: real, env: Symbol -> real)
    requires AllBracket(rs, fs, env) && fs != [] && rs[0].ok
    requires y == Eval(fs[0], env) && q == EvalProd(fs[1..], env) && v == (y * x) * q
    requires Clean(lo) && Clean(hi) && Within(x, lo, hi, env)
    ensures Brackets(MulRanges(Corrected, rs, lo, hi), v, env)
    decreases fs, 0
  {
    assert Brackets(rs[0], y, env);
    AllBracketTail(rs, fs, env);
    var l, h := MulStepBounds(rs, lo, hi, x, y, env);
    var yx := NameProduct(y, x, q, v);
    MulRangesSound(rs[1..], fs[1..], l, h, yx, q, v, env);
  }

  /** Names the running product `y * x` of a step as a variable of its own. */
  lemma {:induction false} NameProduct(y: real, x: real, q: real, v: real) returns (w: real)
    requires v == (y * x) * q
    ensures w == y * x && v == w * q
  {
    w := y * x;
  }

  /** The bounds `mulMinMax` gives the next step of the mul loop bracket the running product times the factor. */
  lemma {:induction false} MulStepBounds(rs: seq<Range>, lo: Expr, hi: Expr, x: real, y: real, env: Symbol -> real)
    returns (l: Expr, h: Expr)
    requires rs != [] && rs[0].ok && Clean(rs[0].lo) && Clean(rs[0].hi) && Within(y, rs[0].lo, rs[0].hi, env)
    requires Clean(lo) && Clean(hi) && Within(x, lo, hi, env)
    ensures Clean(l) && Clean(h) && Within(y * x, l, h, env)
    ensures MulRanges(Corrected, rs, lo, hi) == MulRanges(Corrected, rs[1..], l, h)
  {
    MulMinMaxSound(rs[0].lo, rs[0].hi, lo, hi, y, x, env);
    l, h := MulMinMax(rs[0].lo, rs[0].hi, lo, hi).0, MulMinMax(rs[0].lo, rs[0].hi, lo, hi).1;
    CleanIsValid(lo);
  }

  /** The mul loop from no bounds yet (`Min` invalid): the first factor's bounds seed it, and it brackets the product `p` of the factors. */
  lemma {:induction false} MulSeedSound(rs: seq<Range>, fs: seq<Expr>, lo: Expr, hi: Expr, p: real, env: Symbol -> real)
    requires AllBracket(rs, fs, env) && fs != [] && !IsValid(lo) && p == EvalProd(fs, env)
    ensures Brackets(MulRanges(Corrected, rs, lo, hi), p, env)
  {
    if rs[0].ok {
      var y, q := Eval(fs[0], env), EvalProd(fs[1..], env);
      ProdValue(fs, y, q, env);
      assert Brackets(rs[0], y, env);
      AllBracketTail(rs, fs, env);
      MulRangesSound(rs[1..], fs[1..], rs[0].lo, rs[0].hi, y, q, y * q, env);
    }
  }

  lemma {:induction false} IndvarRangeSound(pred: Predicate, step: Expr, rs: Range, re: Range, lo: Expr, hi: Expr,
                                            v: real, s: real, t: real, env: Symbol -> real)
    requires Brackets(rs, s, env) && Brackets(re, t, env) && InRange(pred, step, v, s, t)
    ensures Brackets(IndvarRange(Corrected, pred, step, rs, re, lo, hi), v, env)
  {
    if rs.ok && re.ok {
      InductionBoundsSound(pred, step, rs, re, v, s, t, env);
    }
  }

  /** What the co-located bounds need of the answers: clean parts, and the phi's value `v` in lockstep. */
  predicate CoLocatedHolds(co: Option<(Expr, Expr)>, info: Option<Induction>, v: real, env: Symbol -> real) {
    co.Some? && info.Some? ==>
      var ind := info.value;
      Clean(co.value.0) && Clean(co.value.1) && Clean(ind.start) && Clean(ind.end) && Clean(ind.step) &&
      InLockstep(co.value.0, co.value.1, ind, v, env)
  }

  lemma {:induction false} CoLocatedRangeSound(co: Option<(Expr, Expr)>, info: Option<Induction>, lo: Expr, hi: Expr, v: real, env: Symbol -> real)
    requires CoLocatedHolds(co, info, v, env)
    ensures Brackets(CoLocatedRange(Corrected, co, info, lo, hi), v, env)
  {
    if co.Some? && info.Some? {
      ColocatedBoundsSound(co.value.0, co.value.1, info.value, v, env);
    }
  }

  // ---------------------------------------------------------------------
  // getMinMax
  // ---------------------------------------------------------------------

  /** The predicate of the compare on which the loop's exiting block branches. */
  function ExitPredicate(f: Function, l: nat): Predicate
    requires WellFormed(f) && l in f.loops && ExitCompare(f, l).Some?
  {
    f.insts[ExitCompare(f, l).value].op.pred
  }

  /** `LI_->getLoopFor(Phi->getParent())`: the innermost loop of the phi's block, None outside every loop. */
  function BlockLoop(f: Function, phi: nat): (L: Option<nat>)
    requires WellFormed(f) && IsPhi(f, phi)
    ensures LoopOk(f, L)
    ensures L.Some? <==> f.insts[phi].block in f.loopOf
  {
    var b := f.insts[phi].block;
    if b in f.loopOf then Some(f.loopOf[b]) else None
  }

  /** The fuel left for the start and end of an induction variable. */
  function Spend(fuel: nat): (r: nat)
    ensures fuel > 0 ==> r < fuel
  {
    if fuel == 0 then 0 else fuel - 1
  }

  /**
   * `getMinMax(Ex, Min, Max)` with the out-parameters' incoming values
   * `lo` and `hi`: whether it succeeds, and what `Min` and `Max` hold
   * afterwards.  A constant is its own bound; a symbol goes to
   * `SymbolRange`; a sum folds `addMinMax` over its terms' ranges starting
   * from the incoming values, a product folds the sign-aware product rule
   * starting from `Min = InvalidExpr`; a power needs a constant exponent;
   * min and max nodes combine their children's bounds.  The induction
   * case recurses into start and end expressions, so `fuel` bounds the
   * depth of that recursion.
   */
  function MinMaxOf(rule: Rule, pass: Pass, f: Function, fuel: nat, e: Expr, lo: Expr, hi: Expr): Range
    requires WellFormed(f)
    decreases fuel, e, 1
  {
    match e
    case Num(_) => Range(true, e, e)
    case Sym(s) => SymbolRange(rule, pass, f, fuel, s, lo, hi)
    case Add(ts) => AddRanges(Children(rule, pass, f, fuel, ts), lo, hi)
    case Mul(fs) => MulRanges(rule, Children(rule, pass, f, fuel, fs), Invalid, hi)
    case Pow(b, x) =>
      if !x.Num? then Range(false, lo, hi)
      else PowRange(rule, MinMaxOf(rule, pass, f, fuel, b, Fresh, Fresh), x, lo, hi)
    case Min(a, b) =>
      var ra := MinMaxOf(rule, pass, f, fuel, a, Fresh, Fresh);
      MinNodeFor(rule, ra, MinMaxOf(rule, pass, f, fuel, b, Fresh, SecondMax(rule, ra)), lo, hi)
    case Max(a, b) =>
      var ra := MinMaxOf(rule, pass, f, fuel, a, Fresh, Fresh);
      MaxNodeFor(rule, ra, MinMaxOf(rule, pass, f, fuel, b, Fresh, SecondMax(rule, ra)), lo, hi)
  }

  /** The ranges of the operands of a sum or product, each computed from fresh outputs. */
  function Children(rule: Rule, pass: Pass, f: Function, fuel: nat, ts: seq<Expr>): (rs: seq<Range>)
    requires WellFormed(f)
    ensures |rs| == |ts|
    decreases fuel, ts, 1
  {
    if ts == [] then [] else [MinMaxOf(rule, pass, f, fuel, ts[0], Fresh, Fresh)] + Children(rule, pass, f, fuel, ts[1..])
  }

  /**
   * The symbol case.  A symbol whose value is not a phi is its own bound.
   * An induction variable is bounded by the bounds of its start and end,
   * ordered by the exit compare.  Any other phi is, in
   * the Fasan copy, bounded through its co-located start and step and the
   * induction variable of its block's loop; in the Spm copy it is its own
   * bound.
   */
  function SymbolRange(rule: Rule, pass: Pass, f: Function, fuel: nat, s: Symbol, lo: Expr, hi: Expr): Range
    requires WellFormed(f)
    decreases fuel, s
  {
    if s.InvalidSymbol? || !IsPhi(f, s.value) then Range(true, Sym(s), Sym(s))
    else
      match LoopForIndvar(pass, f, s.value)
      case Some(l) =>
        var ind := LoopInfoOf(pass, f, Some(l)).value;
        if fuel == 0 then Range(false, lo, hi)
        else
          IndvarRange(rule, ExitPredicate(f, l), ind.step, MinMaxOf(rule, pass, f, Spend(fuel), ind.start, Fresh, Fresh),
                      MinMaxOf(rule, pass, f, Spend(fuel), ind.end, Fresh, Fresh), lo, hi)
      case None =>
        if pass.Spm? then Range(true, Sym(s), Sym(s)) else CoLocatedCase(rule, f, s.value, lo, hi)
  }

  /** The co-located case of `phi` (Fasan), on the loop of its block. */
  function CoLocatedCase(rule: Rule, f: Function, phi: nat, lo: Expr, hi: Expr): Range
    requires WellFormed(f) && IsPhi(f, phi)
  {
    var L := BlockLoop(f, phi);
    CoLocatedRange(rule, ColocatedOf(f, L, phi), LoopInfoOf(Fasan, f, L), lo, hi)
  }

  /** The function with two arguments, `n` (address 0) and `m` (address 1), and nothing else. */
  const TwoArguments: Function :=
    Function(map[0 := Value(0, Argument, "n", 32), 1 := Value(1, Argument, "m", 32)], map[], map[], map[], map[], map[0 := 0, 1 := 1])

  /**
   * `min(n^m, 5)`: the power has no constant exponent, so its `getMinMax`
   * fails and leaves its fresh outputs at 0.  As written the Min node still
   * succeeds, with the bounds (0, 0), which exclude the value 5 the node
   * takes at n = 2, m = 3; the corrected node fails.
   */
  lemma {:induction false} MinIgnoresFailure(pass: Pass, fuel: nat)
    ensures WellFormed(TwoArguments)
    ensures var e := Min(Pow(Sym(Bound(0)), Sym(Bound(1))), Num(5.0));
      var env := SymEnv((q: nat) => if q == 0 then 2.0 else 3.0);
      var r := MinMaxOf(AsWritten, pass, TwoArguments, fuel, e, Fresh, Fresh);
      Proper(e) && Eval(e, env) == 5.0 && r == Range(true, Num(0.0), Num(0.0)) && !Within(Eval(e, env), r.lo, r.hi, env) &&
      !MinMaxOf(Corrected, pass, TwoArguments, fuel, e, Fresh, Fresh).ok
  {
    var f := TwoArguments;
    var p := Pow(Sym(Bound(0)), Sym(Bound(1)));
    var env := SymEnv((q: nat) => if q == 0 then 2.0 else 3.0);
    assert (3.0).Floor == 3;
    assert NatPow(2.0, 3) == 8.0;
    assert Eval(p, env) == 8.0;
    var ra := MinMaxOf(AsWritten, pass, f, fuel, p, Fresh, Fresh);
    assert ra == Range(false, Fresh, Fresh);
    assert MinMaxOf(AsWritten, pass, f, fuel, Num(5.0), Fresh, SecondMax(AsWritten, ra)) == Range(true, Num(5.0), Num(5.0));
    assert MinMaxOf(Corrected, pass, f, fuel, p, Fresh, Fresh) == Range(false, Fresh, Fresh);
  }

  // ---------------------------------------------------------------------
  // What getMinMax assumes of the execution, and its soundness
  // ---------------------------------------------------------------------

  /**
   * What the bounds rest on at run time, per node: an induction variable's
   * value lies between its start and end in the loop's direction (the
   * loop has run, as the source's FIXME notes), and its start and end are
   * proper; a co-located phi lies between its start and its end; a
   * power with a negative exponent has a base whose lower bound is
   * positive.
   */
  predicate Assumed(pass: Pass, f: Function, fuel: nat, e: Expr, env: Symbol -> real)
    requires WellFormed(f)
    decreases fuel, e, 1
  {
    match e
    case Num(_) => true
    case Sym(s) => SymbolAssumed(pass, f, fuel, s, env)
    case Add(ts) => AllAssumed(pass, f, fuel, ts, env)
    case Mul(fs) => AllAssumed(pass, f, fuel, fs, env)
    case Pow(b, x) =>
      Assumed(pass, f, fuel, b, env) && (x.Num? ==> BaseAssumed(MinMaxOf(Corrected, pass, f, fuel, b, Fresh, Fresh).lo, x.c, env))
    case Min(a, b) => Assumed(pass, f, fuel, a, env) && Assumed(pass, f, fuel, b, env)
    case Max(a, b) => Assumed(pass, f, fuel, a, env) && Assumed(pass, f, fuel, b, env)
  }

  predicate AllAssumed(pass: Pass, f: Function, fuel: nat, ts: seq<Expr>, env: Symbol -> real)
    requires WellFormed(f)
    decreases fuel, ts, 0
  {
    forall i :: 0 <= i < |ts| ==> Assumed(pass, f, fuel, ts[i], env)
  }

  predicate SymbolAssumed(pass: Pass, f: Function, fuel: nat, s: Symbol, env: Symbol -> real)
    requires WellFormed(f)
    decreases fuel, s
  {
    s.Bound? && IsPhi(f, s.value) ==>
      match LoopForIndvar(pass, f, s.value)
      case Some(l) =>
        var ind := LoopInfoOf(pass, f, Some(l)).value;
        fuel > 0 ==>
          Proper(ind.start) && Proper(ind.end) &&
          Assumed(pass, f, Spend(fuel), ind.start, env) && Assumed(pass, f, Spend(fuel), ind.end, env) &&
          InRange(ExitPredicate(f, l), ind.step, env(s), Eval(ind.start, env), Eval(ind.end, env))
      case None =>
        pass.Fasan? ==>
          CoLocatedHolds(ColocatedOf(f, BlockLoop(f, s.value), s.value), LoopInfoOf(Fasan, f, BlockLoop(f, s.value)), env(s), env)
  }

  /**
   * The main theorem: when `getMinMax` succeeds on a proper expression,
   * from outputs holding a range around 0 (fresh outputs hold 0), the
   * bounds it returns are free of Invalid and bracket the expression's
   * value in every execution meeting the assumptions.
   */
  lemma {:induction false} MinMaxSound(pass: Pass, f: Function, fuel: nat, e: Expr, lo: Expr, hi: Expr, env: Symbol -> real)
    requires WellFormed(f) && Proper(e) && Assumed(pass, f, fuel, e, env)
    requires Clean(lo) && Clean(hi) && Within(0.0, lo, hi, env)
    ensures Brackets(MinMaxOf(Corrected, pass, f, fuel, e, lo, hi), Eval(e, env), env)
    decreases fuel, e, 1
  {
    match e
    case Num(_) =>
    case Sym(s) =>
      SymbolSound(pass, f, fuel, s, lo, hi, env);
    case Add(ts) =>
      ChildrenSound(pass, f, fuel, ts, env);
      AddRangesSound(Children(Corrected, pass, f, fuel, ts), ts, lo, hi, 0.0, env);
    case Mul(fs) =>
      ChildrenSound(pass, f, fuel, fs, env);
      MulSeedSound(Children(Corrected, pass, f, fuel, fs), fs, Invalid, hi, EvalProd(fs, env), env);
    case Pow(_, _) =>
      PowSound(pass, f, fuel, e, lo, hi, env);
    case Min(_, _) =>
      MinSound(pass, f, fuel, e, lo, hi, env);
    case Max(_, _) =>
      MaxSound(pass, f, fuel, e, lo, hi, env);
  }

  /** Every operand's range brackets the operand's value. */
  lemma {:induction false} ChildrenSound(pass: Pass, f: Function, fuel: nat, ts: seq<Expr>, env: Symbol -> real)
    requires WellFormed(f) && AllProper(ts) && AllAssumed(pass, f, fuel, ts, env)
    ensures AllBracket(Children(Corrected, pass, f, fuel, ts), ts, env)
    decreases fuel, ts, 0
  {
    if ts != [] {
      MinMaxSound(pass, f, fuel, ts[0], Fresh, Fresh, env);
      assert forall i | 0 <= i < |ts[1..]| :: ts[1..][i] == ts[i + 1];
      ChildrenSound(pass, f, fuel, ts[1..], env);
      var rs := Children(Corrected, pass, f, fuel, ts);
      forall i | 0 <= i < |ts| ensures Brackets(rs[i], Eval(ts[i], env), env) {
        if i > 0 {
          assert rs[i] == Children(Corrected, pass, f, fuel, ts[1..])[i - 1] && ts[i] == ts[1..][i - 1];
        }
      }
    }
  }

  lemma {:induction false} PowSound(pass: Pass, f: Function, fuel: nat, e: Expr, lo: Expr, hi: Expr, env: Symbol -> real)
    requires WellFormed(f) && e.Pow? && Proper(e) && Assumed(pass, f, fuel, e, env)
    ensures Brackets(MinMaxOf(Corrected, pass, f, fuel, e, lo, hi), Eval(e, env), env)
    decreases fuel, e, 0
  {
    if e.exponent.Num? {
      MinMaxSound(pass, f, fuel, e.base, Fresh, Fresh, env);
      var rb := MinMaxOf(Corrected, pass, f, fuel, e.base, Fresh, Fresh);
      if rb.ok {
        var v := Eval(e.base, env);
        PowMinMaxSound(rb.lo, rb.hi, e.exponent.c, v, env);
        assert PowRange(Corrected, rb, e.exponent, lo, hi) == Range(true, PowMinMax(rb.lo, rb.hi, e.exponent).0, PowMinMax(rb.lo, rb.hi, e.exponent).1);
      }
    }
  }

  lemma {:induction false} MinSound(pass: Pass, f: Function, fuel: nat, e: Expr, lo: Expr, hi: Expr, env: Symbol -> real)
    requires WellFormed(f) && e.Min? && Proper(e) && Assumed(pass, f, fuel, e, env)
    ensures Brackets(MinMaxOf(Corrected, pass, f, fuel, e, lo, hi), Eval(e, env), env)
    decreases fuel, e, 0
  {
    MinMaxSound(pass, f, fuel, e.left, Fresh, Fresh, env);
    MinMaxSound(pass, f, fuel, e.right, Fresh, Fresh, env);
    var ra, rb := MinMaxOf(Corrected, pass, f, fuel, e.left, Fresh, Fresh), MinMaxOf(Corrected, pass, f, fuel, e.right, Fresh, Fresh);
    if ra.ok && rb.ok {
      var x, y := Eval(e.left, env), Eval(e.right, env);
      MinNodeSound(ra, rb, lo, hi, x, y, env);
    }
  }

  lemma {:induction false} MaxSound(pass: Pass, f: Function, fuel: nat, e: Expr, lo: Expr, hi: Expr, env: Symbol -> real)
    requires WellFormed(f) && e.Max? && Proper(e) && Assumed(pass, f, fuel, e, env)
    ensures Brackets(MinMaxOf(Corrected, pass, f, fuel, e, lo, hi), Eval(e, env), env)
    decreases fuel, e, 0
  {
    MinMaxSound(pass, f, fuel, e.left, Fresh, Fresh, env);
    MinMaxSound(pass, f, fuel, e.right, Fresh, Fresh, env);
    var ra, rb := MinMaxOf(Corrected, pass, f, fuel, e.left, Fresh, Fresh), MinMaxOf(Corrected, pass, f, fuel, e.right, Fresh, Fresh);
    if ra.ok && rb.ok {
      var x, y := Eval(e.left, env), Eval(e.right, env);
      MaxNodeSound(ra, rb, lo, hi, x, y, env);
    }
  }

  /** The symbol case is sound: its bounds bracket the symbol's value. */
  lemma {:induction false} SymbolSound(pass: Pass, f: Function, fuel: nat, s: Symbol, lo: Expr, hi: Expr, env: Symbol -> real)
    requires WellFormed(f) && s.Bound? && SymbolAssumed(pass, f, fuel, s, env)
    ensures Brackets(SymbolRange(Corrected, pass, f, fuel, s, lo, hi), env(s), env)
    decreases fuel, s, 1
  {
    if IsPhi(f, s.value) {
      if LoopForIndvar(pass, f, s.value).Some? {
        IndvarSound(pass, f, fuel, s, lo, hi, env);
      } else if pass.Fasan? {
        CoLocatedSound(f, fuel, s, lo, hi, env);
      }
    }
  }

  /** An induction variable lies between the bounds of its start and its end. */
  lemma {:induction false} IndvarSound(pass: Pass, f: Function, fuel: nat, s: Symbol, lo: Expr, hi: Expr, env: Symbol -> real)
    requires WellFormed(f) && s.Bound? && IsPhi(f, s.value) && LoopForIndvar(pass, f, s.value).Some?
    requires SymbolAssumed(pass, f, fuel, s, env)
    ensures Brackets(SymbolRange(Corrected, pass, f, fuel, s, lo, hi), env(s), env)
    decreases fuel, s, 0
  {
    var l := LoopForIndvar(pass, f, s.value).value;
    if fuel > 0 {
      var ind := LoopInfoOf(pass, f, Some(l)).value;
      MinMaxSound(pass, f, Spend(fuel), ind.start, Fresh, Fresh, env);
      MinMaxSound(pass, f, Spend(fuel), ind.end, Fresh, Fresh, env);
      var v, a, b := env(s), Eval(ind.start, env), Eval(ind.end, env);
      IndvarRangeSound(ExitPredicate(f, l), ind.step, MinMaxOf(Corrected, pass, f, Spend(fuel), ind.start, Fresh, Fresh),
                       MinMaxOf(Corrected, pass, f, Spend(fuel), ind.end, Fresh, Fresh), lo, hi, v, a, b, env);
    }
  }

  /** A co-located phi lies between its start and its end after the loop's trip count of steps. */
  lemma {:induction false} CoLocatedSound(f: Function, fuel: nat, s: Symbol, lo: Expr, hi: Expr, env: Symbol -> real)
    requires WellFormed(f) && s.Bound? && IsPhi(f, s.value) && LoopForIndvar(Fasan, f, s.value).None?
    requires SymbolAssumed(Fasan, f, fuel, s, env)
    ensures Brackets(SymbolRange(Corrected, Fasan, f, fuel, s, lo, hi), env(s), env)
  {
    var L := BlockLoop(f, s.value);
    CoLocatedRangeSound(ColocatedOf(f, L, s.value), LoopInfoOf(Fasan, f, L), lo, hi, env(s), env);
  }

  // ---------------------------------------------------------------------
  // The source's getMinMax, step by step
  // ---------------------------------------------------------------------

  /**
   * The source's recursive `getMinMax`: the loops over the operands of a
   * sum or product, and the loop analyses it calls, which intern the atoms
   * of the expressions they build in `t`.
   */
  method GetMinMax(rule: Rule, pass: Pass, f: Function, fuel: nat, e: Expr, lo: Expr, hi: Expr, t: SymbolTable) returns (r: Range)
    requires WellFormed(f) && t.Valid() && TableOf(t, f)
    modifies t
    ensures t.Valid() && TableOf(t, f) && r == MinMaxOf(rule, pass, f, fuel, e, lo, hi)
    decreases fuel, e, 1
  {
    match e
    case Num(_) =>
      r := Range(true, e, e);
    case Sym(s) =>
      r := SymbolMinMax(rule, pass, f, fuel, s, lo, hi, t);
    case Add(ts) =>
      r := AddLoop(rule, pass, f, fuel, ts, lo, hi, t);
    case Mul(fs) =>
      r := MulLoop(rule, pass, f, fuel, fs, hi, t);
    case Pow(b, x) =>
      r := PowCase(rule, pass, f, fuel, b, x, lo, hi, t);
    case Min(_, _) =>
      r := NodeCase(rule, pass, f, fuel, e, lo, hi, t);
    case Max(_, _) =>
      r := NodeCase(rule, pass, f, fuel, e, lo, hi, t);
  }

  /** A power: the exponent must be a constant; the base's bounds are raised to it. */
  method PowCase(rule: Rule, pass: Pass, f: Function, fuel: nat, b: Expr, x: Expr, lo: Expr, hi: Expr, t: SymbolTable) returns (r: Range)
    requires WellFormed(f) && t.Valid() && TableOf(t, f)
    modifies t
    ensures t.Valid() && TableOf(t, f) && r == MinMaxOf(rule, pass, f, fuel, Pow(b, x), lo, hi)
    decreases fuel, Pow(b, x), 0
  {
    if !x.Num? {
      r := Range(false, lo, hi);
    } else {
      var rb := GetMinMax(rule, pass, f, fuel, b, Fresh, Fresh, t);
      r := PowRange(rule, rb, x, lo, hi);
    }
  }

  /** A min or max node: the bounds of both children, combined by the node rule of `rule`. */
  method NodeCase(rule: Rule, pass: Pass, f: Function, fuel: nat, e: Expr, lo: Expr, hi: Expr, t: SymbolTable) returns (r: Range)
    requires WellFormed(f) && (e.Min? || e.Max?) && t.Valid() && TableOf(t, f)
    modifies t
    ensures t.Valid() && TableOf(t, f) && r == MinMaxOf(rule, pass, f, fuel, e, lo, hi)
    decreases fuel, e, 0
  {
    var ra := GetMinMax(rule, pass, f, fuel, e.left, Fresh, Fresh, t);
    var rb := GetMinMax(rule, pass, f, fuel, e.right, Fresh, SecondMax(rule, ra), t);
    r := if e.Min? then MinNodeFor(rule, ra, rb, lo, hi) else MaxNodeFor(rule, ra, rb, lo, hi);
  }

  /** The ranges of the operands from position `i` on are that operand's range followed by the rest. */
  lemma {:induction false} ChildrenFrom(rule: Rule, pass: Pass, f: Function, fuel: nat, ts: seq<Expr>, i: nat)
    requires WellFormed(f) && i < |ts|
    ensures Children(rule, pass, f, fuel, ts[i..]) == [MinMaxOf(rule, pass, f, fuel, ts[i], Fresh, Fresh)] + Children(rule, pass, f, fuel, ts[i + 1..])
  {
    assert ts[i..][1..] == ts[i + 1..];
  }

  /** The add loop: each term's range joins the running bounds; the first failing term ends the loop. */
  method AddLoop(rule: Rule, pass: Pass, f: Function, fuel: nat, ts: seq<Expr>, lo: Expr, hi: Expr, t: SymbolTable) returns (r: Range)
    requires WellFormed(f) && t.Valid() && TableOf(t, f)
    modifies t
    ensures t.Valid() && TableOf(t, f) && r == AddRanges(Children(rule, pass, f, fuel, ts), lo, hi)
    decreases fuel, ts, 0
  {
    var l, h := lo, hi;
    var i := 0;
    assert ts[0..] == ts;
    while i < |ts|
      invariant 0 <= i <= |ts| && t.Valid() && TableOf(t, f)
      invariant AddRanges(Children(rule, pass, f, fuel, ts[i..]), l, h) == AddRanges(Children(rule, pass, f, fuel, ts), lo, hi)
    {
      ChildrenFrom(rule, pass, f, fuel, ts, i);
      var ri := GetMinMax(rule, pass, f, fuel, ts[i], Fresh, Fresh, t);
      if !ri.ok {
        return Range(false, l, h);
      }
      l, h := AddMinMax(ri.lo, ri.hi, l, h).0, AddMinMax(ri.lo, ri.hi, l, h).1;
      i := i + 1;
    }
    r := Range(true, l, h);
  }

  /** The mul loop: `Min` starts invalid, the first factor's range seeds the bounds, later ones multiply in. */
  method MulLoop(rule: Rule, pass: Pass, f: Function, fuel: nat, fs: seq<Expr>, hi: Expr, t: SymbolTable) returns (r: Range)
    requires WellFormed(f) && t.Valid() && TableOf(t, f)
    modifies t
    ensures t.Valid() && TableOf(t, f) && r == MulRanges(rule, Children(rule, pass, f, fuel, fs), Invalid, hi)
    decreases fuel, fs, 0
  {
    var l, h := Invalid, hi;
    var i := 0;
    assert fs[0..] == fs;
    while i < |fs|
      invariant 0 <= i <= |fs| && t.Valid() && TableOf(t, f)
      invariant MulRanges(rule, Children(rule, pass, f, fuel, fs[i..]), l, h) == MulRanges(rule, Children(rule, pass, f, fuel, fs), Invalid, hi)
    {
      ChildrenFrom(rule, pass, f, fuel, fs, i);
      var ri := GetMinMax(rule, pass, f, fuel, fs[i], Fresh, Fresh, t);
      if !ri.ok {
        return Range(false, l, h);
      }
      if !IsValid(l) {
        l, h := ri.lo, ri.hi;
      } else {
        l, h := MulMinMaxFor(rule, ri.lo, ri.hi, l, h).0, MulMinMaxFor(rule, ri.lo, ri.hi, l, h).1;
      }
      i := i + 1;
    }
    r := Range(true, l, h);
  }

  /**
   * The symbol case: `getLoopForInductionVariable`, then for an induction
   * variable `getLoopInfo` and the ranges of its start and end; otherwise
   * (Fasan) `getColocatedLoopInfo` and `getLoopInfo` on the phi's loop.
   */
  method SymbolMinMax(rule: Rule, pass: Pass, f: Function, fuel: nat, s: Symbol, lo: Expr, hi: Expr, t: SymbolTable) returns (r: Range)
    requires WellFormed(f) && t.Valid() && TableOf(t, f)
    modifies t
    ensures t.Valid() && TableOf(t, f) && r == SymbolRange(rule, pass, f, fuel, s, lo, hi)
    decreases fuel, s, 3
  {
    if s.InvalidSymbol? || !IsPhi(f, s.value) {
      r := Range(true, Sym(s), Sym(s));
    } else {
      var l := GetLoopForInductionVariable(pass, f, s.value, t);
      r := PhiMinMax(rule, pass, f, fuel, s, l, lo, hi, t);
    }
  }

  /** A phi, given what `getLoopForInductionVariable` answered for it: the induction or the co-located case. */
  method PhiMinMax(rule: Rule, pass: Pass, f: Function, fuel: nat, s: Symbol, l: Option<nat>, lo: Expr, hi: Expr, t: SymbolTable) returns (r: Range)
    requires WellFormed(f) && s.Bound? && IsPhi(f, s.value) && l == LoopForIndvar(pass, f, s.value)
    requires t.Valid() && TableOf(t, f)
    modifies t
    ensures t.Valid() && TableOf(t, f) && r == SymbolRange(rule, pass, f, fuel, s, lo, hi)
    decreases fuel, s, 2
  {
    if l.Some? && fuel == 0 {
      r := Range(false, lo, hi);
    } else if l.Some? {
      r := IndvarMinMax(rule, pass, f, fuel, s, l.value, lo, hi, t);
    } else if pass.Spm? {
      r := Range(true, Sym(s), Sym(s));
    } else {
      r := CoLocatedMinMax(rule, f, s.value, lo, hi, t);
    }
  }

  /** An induction variable of loop `l`: `getLoopInfo`, then the ranges of start and end. */
  method IndvarMinMax(rule: Rule, pass: Pass, f: Function, fuel: nat, s: Symbol, l: nat, lo: Expr, hi: Expr, t: SymbolTable) returns (r: Range)
    requires WellFormed(f) && l in f.loops && LoopInfoOf(pass, f, Some(l)).Some? && ExitCompare(f, l).Some?
    requires t.Valid() && TableOf(t, f)
    modifies t
    requires fuel > 0
    ensures t.Valid() && TableOf(t, f)
    ensures var ind := LoopInfoOf(pass, f, Some(l)).value;
      r == IndvarRange(rule, ExitPredicate(f, l), ind.step, MinMaxOf(rule, pass, f, Spend(fuel), ind.start, Fresh, Fresh),
                       MinMaxOf(rule, pass, f, Spend(fuel), ind.end, Fresh, Fresh), lo, hi)
    decreases fuel, s, 1
  {
    var ind := GetLoopInfo(pass, f, Some(l), t);
    r := IndvarBounds(rule, pass, f, Spend(fuel), s, l, ind.value, lo, hi, t);
  }

  /** The ranges of start and end, the end's computed only when the start's succeeded. */
  method IndvarBounds(rule: Rule, pass: Pass, f: Function, fuel: nat, ghost s: Symbol, l: nat, ind: Induction, lo: Expr, hi: Expr, t: SymbolTable) returns (r: Range)
    requires WellFormed(f) && l in f.loops && ExitCompare(f, l).Some? && t.Valid() && TableOf(t, f)
    modifies t
    ensures t.Valid() && TableOf(t, f)
    ensures r == IndvarRange(rule, ExitPredicate(f, l), ind.step, MinMaxOf(rule, pass, f, fuel, ind.start, Fresh, Fresh),
                             MinMaxOf(rule, pass, f, fuel, ind.end, Fresh, Fresh), lo, hi)
    decreases fuel + 1, s, 0, 1
  {
    var rs := GetMinMax(rule, pass, f, fuel, ind.start, Fresh, Fresh, t);
    r := IndvarEnd(rule, pass, f, fuel, s, l, ind, rs, lo, hi, t);
  }

  /** Given the start's range `rs`: failure when it failed, otherwise the end's range and the induction bounds. */
  method IndvarEnd(rule: Rule, pass: Pass, f: Function, fuel: nat, ghost s: Symbol, l: nat, ind: Induction, rs: Range, lo: Expr, hi: Expr,
                   t: SymbolTable) returns (r: Range)
    requires WellFormed(f) && l in f.loops && ExitCompare(f, l).Some? && t.Valid() && TableOf(t, f)
    modifies t
    ensures t.Valid() && TableOf(t, f)
    ensures r == IndvarRange(rule, ExitPredicate(f, l), ind.step, rs, MinMaxOf(rule, pass, f, fuel, ind.end, Fresh, Fresh), lo, hi)
    decreases fuel + 1, s, 0, 0
  {
    if !rs.ok {
      r := Range(false, lo, hi);
    } else {
      var re := GetMinMax(rule, pass, f, fuel, ind.end, Fresh, Fresh, t);
      r := IndvarRange(rule, ExitPredicate(f, l), ind.step, rs, re, lo, hi);
    }
  }

  /** A phi that is no induction variable (Fasan): `getColocatedLoopInfo`, then `getLoopInfo`, on the loop of the phi's block. */
  method CoLocatedMinMax(rule: Rule, f: Function, phi: nat, lo: Expr, hi: Expr, t: SymbolTable) returns (r: Range)
    requires WellFormed(f) && IsPhi(f, phi) && t.Valid() && TableOf(t, f)
    modifies t
    ensures t.Valid() && TableOf(t, f) && r == CoLocatedCase(rule, f, phi, lo, hi)
  {
    var L := BlockLoop(f, phi);
    var co := GetColocatedLoopInfo(f, L, phi, t);
    r := CoLocatedWith(rule, f, L, co, lo, hi, t);
  }

  /** No co-located start and step: failure; otherwise `getLoopInfo` on the same loop supplies the induction variable. */
  method CoLocatedWith(rule: Rule, f: Function, L: Option<nat>, co: Option<(Expr, Expr)>, lo: Expr, hi: Expr, t: SymbolTable) returns (r: Range)
    requires WellFormed(f) && LoopOk(f, L) && t.Valid() && TableOf(t, f)
    modifies t
    ensures t.Valid() && TableOf(t, f) && r == CoLocatedRange(rule, co, LoopInfoOf(Fasan, f, L), lo, hi)
  {
    if co.None? {
      r := Range(false, lo, hi);
    } else {
      var info := GetLoopInfo(Fasan, f, L, t);
      r := CoLocatedRange(rule, co, info, lo, hi);
    }
  }
  // ---------------------------------------------------------------------
  // getMinMaxRelativeTo
  // ---------------------------------------------------------------------

  /**
   * `getMinMaxRelativeTo(L, V, Min, Max)` as the Fasan copy writes it: the
   * bounds of V's expression relative to L are computed, by the rules as
   * written, into two local expressions, so only the success flag reaches the caller and `Min` and
   * `Max` keep what they held.
   */
  function RelativeToAsWritten(pass: Pass, f: Function, fuel: nat, L: Option<nat>, p: nat, lo: Expr, hi: Expr): Range
    requires WellFormed(f) && p in f.values && LoopOk(f, L)
  {
    Range(MinMaxOf(AsWritten, pass, f, fuel, ExprForLoop(pass, f, L, p), Fresh, Fresh).ok, lo, hi)
  }

  /** The function with one argument `n` (address 0) and nothing else. */
  const OneArgument: Function :=
    Function(map[0 := Value(0, Argument, "n", 32)], map[], map[], map[], map[], map[0 := 0])

  /**
   * Relative to no loop, the argument `n` is the symbol `n`, and
   * `getMinMax` bounds it by (n, n).  As written, the call succeeds and the
   * caller's fresh outputs still read (0, 0), which misses `n` = 1; the
   * corrected call hands (n, n) back.
   */
  lemma {:induction false} RelativeToDropsBounds(fuel: nat)
    ensures WellFormed(OneArgument) && Consistent(OneArgument, (q: nat) => 1.0)
    ensures var r := RelativeToAsWritten(Fasan, OneArgument, fuel, None, 0, Fresh, Fresh);
      r.ok && !Within(1.0, r.lo, r.hi, SymEnv((q: nat) => 1.0))
    ensures RelativeTo(Corrected, Fasan, OneArgument, fuel, None, 0, Fresh, Fresh) == Range(true, Sym(Bound(0)), Sym(Bound(0)))
  {
    var f := OneArgument;
    var n := Sym(Bound(0));
    assert ExprForLoop(Fasan, f, None, 0) == n;
    assert !IsPhi(f, 0);
    assert SymbolRange(AsWritten, Fasan, f, fuel, Bound(0), Fresh, Fresh) == Range(true, n, n);
    assert MinMaxOf(AsWritten, Fasan, f, fuel, n, Fresh, Fresh) == Range(true, n, n);
    assert SymbolRange(Corrected, Fasan, f, fuel, Bound(0), Fresh, Fresh) == Range(true, n, n);
    assert MinMaxOf(Corrected, Fasan, f, fuel, n, Fresh, Fresh) == Range(true, n, n);
  }

  /**
   * `getMinMaxRelativeTo(L, V, Min, Max)` writing the caller's `Min` and
   * `Max`, as the Spm copy has it: `getMinMax` under `rule` on V's
   * expression relative to L.
   */
  function RelativeTo(rule: Rule, pass: Pass, f: Function, fuel: nat, L: Option<nat>, p: nat, lo: Expr, hi: Expr): Range
    requires WellFormed(f) && p in f.values && LoopOk(f, L)
  {
    MinMaxOf(rule, pass, f, fuel, ExprForLoop(pass, f, L, p), lo, hi)
  }

  /**
   * In every consistent execution meeting the assumptions, the bounds
   * `getMinMaxRelativeTo` returns for a proper expression bracket the value
   * of V itself.
   */
  lemma {:induction false} RelativeToSound(pass: Pass, f: Function, fuel: nat, L: Option<nat>, p: nat, lo: Expr, hi: Expr,
                                           env: nat -> real)
    requires WellFormed(f) && p in f.values && LoopOk(f, L) && Consistent(f, env)
    requires Proper(ExprForLoop(pass, f, L, p)) && Assumed(pass, f, fuel, ExprForLoop(pass, f, L, p), SymEnv(env))
    requires Clean(lo) && Clean(hi) && Within(0.0, lo, hi, SymEnv(env))
    ensures Brackets(RelativeTo(Corrected, pass, f, fuel, L, p, lo, hi), env(p), SymEnv(env))
  {
    var e := ExprForLoop(pass, f, L, p);
    ExprForLoopSound(pass, f, L, p, env);
    ProperIsClean(e);
    MinMaxSound(pass, f, fuel, e, lo, hi, SymEnv(env));
    BracketsCongruence(MinMaxOf(Corrected, pass, f, fuel, e, lo, hi), Eval(e, SymEnv(env)), env(p), SymEnv(env));
  }

  /** The Spm copy's `getMinMaxRelativeTo`: build V's expression relative to L, then `getMinMax` under `rule`. */
  method GetMinMaxRelativeTo(rule: Rule, pass: Pass, f: Function, fuel: nat, L: Option<nat>, p: nat, lo: Expr, hi: Expr, t: SymbolTable)
    returns (r: Range)
    requires WellFormed(f) && p in f.values && LoopOk(f, L) && t.Valid() && TableOf(t, f)
    modifies t
    ensures t.Valid() && TableOf(t, f) && r == RelativeTo(rule, pass, f, fuel, L, p, lo, hi)
  {
    var e := BuildExprForLoop(pass, f, L, p, t);
    r := GetMinMax(rule, pass, f, fuel, e, lo, hi, t);
  }
}
