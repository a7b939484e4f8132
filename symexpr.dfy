/**
 * The symbolic expression layer shared by the RangedAddressSanitizer (FASan),
 * SelectivePageMigration and Reuse passes (their `Expr` / `RExpr` wrappers
 * around GiNaC).
 *
 * GiNaC itself is not part of this model.  In its place the smart
 * constructors below define a canonical form of their own:
 *   - sums and products are flattened, their numeric parts folded into a
 *     single trailing constant, a zero summand and a unit factor dropped;
 *   - a product with a zero numeric part is the number 0;
 *   - like terms are not collected and operands keep construction order.
 * `Eval` gives every expression a value over the reals; each constructor is
 * proved to agree with it, which is the sense in which the canonical form
 * "is" the arithmetic the passes mean.
 */
module SymExpr {
  import opened Wrappers

  /**
   * A GiNaC symbol.  Every non-constant LLVM value gets exactly one symbol
   * (see module Intern), so a symbol is identified by the value it stands
   * for; the only other symbol the passes create is the static `__INVALID__`.
   */
  datatype Symbol = Bound(value: nat) | InvalidSymbol

  datatype Expr =
    | Num(c: real)
    | Sym(s: Symbol)
    | Add(terms: seq<Expr>)
    | Mul(factors: seq<Expr>)
    | Pow(base: Expr, exponent: Expr)
    | Min(left: Expr, right: Expr)
    | Max(left: Expr, right: Expr)

  /** The sentinel every operator propagates. */
  const Invalid: Expr := Sym(InvalidSymbol)

  /** `isValid`: the expression is not the `__INVALID__` symbol itself. */
  predicate IsValid(e: Expr) { e != Invalid }

  predicate Integral(c: real) { c == c.Floor as real }
  predicate IsConstant(e: Expr) { e.Num? }
  predicate IsInteger(e: Expr) { e.Num? && Integral(e.c) }
  /** `isPositive`/`isNegative` assert a constant; on anything else the model answers false. */
  predicate IsPositive(e: Expr) { e.Num? && e.c > 0.0 }
  predicate IsNegative(e: Expr) { e.Num? && e.c < 0.0 }

  /** No occurrence of the Invalid symbol anywhere in the tree. */
  predicate Clean(e: Expr) {
    match e
    case Num(_) => true
    case Sym(s) => s.Bound?
    case Add(ts) => AllClean(ts)
    case Mul(fs) => AllClean(fs)
    case Pow(b, x) => Clean(b) && Clean(x)
    case Min(l, r) => Clean(l) && Clean(r)
    case Max(l, r) => Clean(l) && Clean(r)
  }

  predicate AllClean(ts: seq<Expr>) {
    forall i :: 0 <= i < |ts| ==> Clean(ts[i])
  }

  // ---------------------------------------------------------------------
  // Reference semantics

  function NatPow(x: real, n: nat): real {
    if n == 0 then 1.0 else x * NatPow(x, n - 1)
  }

  lemma {:induction false} NatPowNonZero(x: real, n: nat)
    requires x != 0.0
    ensures NatPow(x, n) != 0.0
  {
    if n > 0 {
      NatPowNonZero(x, n - 1);
    }
  }

  /** x^y for an integral exponent; other exponents have no defined value here (0). */
  function PowVal(x: real, y: real): real {
    if Integral(y) && y >= 0.0 then NatPow(x, y.Floor as nat)
    else if Integral(y) && x != 0.0 then
      NatPowNonZero(x, (-y.Floor) as nat);
      1.0 / NatPow(x, (-y.Floor) as nat)
    else 0.0
  }

  function RMin(x: real, y: real): real { if x <= y then x else y }
  function RMax(x: real, y: real): real { if x >= y then x else y }

  function Eval(e: Expr, env: Symbol -> real): real {
    match e
    case Num(c) => c
    case Sym(s) => env(s)
    case Add(ts) => EvalSum(ts, env)
    case Mul(fs) => EvalProd(fs, env)
    case Pow(b, x) => PowVal(Eval(b, env), Eval(x, env))
    case Min(l, r) => RMin(Eval(l, env), Eval(r, env))
    case Max(l, r) => RMax(Eval(l, env), Eval(r, env))
  }

  function EvalSum(ts: seq<Expr>, env: Symbol -> real): real {
    if ts == [] then 0.0 else Eval(ts[0], env) + EvalSum(ts[1..], env)
  }

  function EvalProd(fs: seq<Expr>, env: Symbol -> real): real {
    if fs == [] then 1.0 else Eval(fs[0], env) * EvalProd(fs[1..], env)
  }

  // ---------------------------------------------------------------------
  // Canonical sums

  function TermsOf(e: Expr): seq<Expr> {
    if e.Add? then e.terms else if e == Num(0.0) then [] else [e]
  }

  /** The non-numeric members of `ts`, in order. */
  function Symbolic(ts: seq<Expr>): seq<Expr> {
    if ts == [] then [] else (if ts[0].Num? then [] else [ts[0]]) + Symbolic(ts[1..])
  }

  /** The sum of the numeric members of `ts`. */
  function NumSum(ts: seq<Expr>): real {
    if ts == [] then 0.0 else (if ts[0].Num? then ts[0].c else 0.0) + NumSum(ts[1..])
  }

  function MkAdd(rest: seq<Expr>, c: real): Expr {
    if rest == [] then Num(c)
    else if c == 0.0 && |rest| == 1 then rest[0]
    else if c == 0.0 then Add(rest)
    else Add(rest + [Num(c)])
  }

  /** `operator+` (and the unsigned overload, whose operand is a valid number). */
  function Plus(a: Expr, b: Expr): (r: Expr)
    ensures !IsValid(a) || !IsValid(b) ==> r == Invalid
  {
    if !IsValid(a) || !IsValid(b) then Invalid
    else
      var ts := TermsOf(a) + TermsOf(b);
      MkAdd(Symbolic(ts), NumSum(ts))
  }

  // ---------------------------------------------------------------------
  // Canonical products

  function FactorsOf(e: Expr): seq<Expr> {
    if e.Mul? then e.factors else if e == Num(1.0) then [] else [e]
  }

  /** The product of the numeric members of `fs`. */
  function NumProd(fs: seq<Expr>): real {
    if fs == [] then 1.0 else (if fs[0].Num? then fs[0].c else 1.0) * NumProd(fs[1..])
  }

  function MkMul(rest: seq<Expr>, c: real): Expr {
    if c == 0.0 then Num(0.0)
    else if rest == [] then Num(c)
    else if c == 1.0 && |rest| == 1 then rest[0]
    else if c == 1.0 then Mul(rest)
    else Mul(rest + [Num(c)])
  }

  /** `operator*`. */
  function Times(a: Expr, b: Expr): (r: Expr)
    ensures !IsValid(a) || !IsValid(b) ==> r == Invalid
  {
    if !IsValid(a) || !IsValid(b) then Invalid
    else
      var fs := FactorsOf(a) + FactorsOf(b);
      MkMul(Symbolic(fs), NumProd(fs))
  }

  /** `operator-`: a + (-1)*b. */
  function Minus(a: Expr, b: Expr): (r: Expr)
    ensures !IsValid(a) || !IsValid(b) ==> r == Invalid
  {
    if !IsValid(a) || !IsValid(b) then Invalid else Plus(a, Times(Num(-1.0), b))
  }

  /** `operator^` (GiNaC `pow`), evaluated on numbers with an integral exponent. */
  function Power(a: Expr, b: Expr): (r: Expr)
    ensures !IsValid(a) || !IsValid(b) ==> r == Invalid
  {
    if !IsValid(a) || !IsValid(b) then Invalid
    else if b == Num(0.0) then Num(1.0)
    else if b == Num(1.0) then a
    else if a.Num? && b.Num? && Integral(b.c) && (a.c != 0.0 || b.c >= 0.0) then Num(PowVal(a.c, b.c))
    else Pow(a, b)
  }

  /**
   * `operator/`: a * b^-1.  GiNaC raises an exception when dividing by the
   * number 0; the model answers Invalid there.
   */
  function Div(a: Expr, b: Expr): (r: Expr)
    ensures !IsValid(a) || !IsValid(b) || b == Num(0.0) ==> r == Invalid
  {
    if !IsValid(a) || !IsValid(b) || b == Num(0.0) then Invalid
    else if b.Num? then Times(a, Num(1.0 / b.c))
    else Times(a, Power(b, Num(-1.0)))
  }

  /** `min` followed by `eval()`: two numbers fold to the smaller one. */
  function SymMin(a: Expr, b: Expr): (r: Expr)
    ensures !IsValid(a) || !IsValid(b) ==> r == Invalid
  {
    if !IsValid(a) || !IsValid(b) then Invalid
    else if a.Num? && b.Num? then Num(RMin(a.c, b.c))
    else Min(a, b)
  }

  /** `max` followed by `eval()`: two numbers fold to the larger one. */
  function SymMax(a: Expr, b: Expr): (r: Expr)
    ensures !IsValid(a) || !IsValid(b) ==> r == Invalid
  {
    if !IsValid(a) || !IsValid(b) then Invalid
    else if a.Num? && b.Num? then Num(RMax(a.c, b.c))
    else Max(a, b)
  }

  // ---------------------------------------------------------------------
  // Soundness of the canonical form

  lemma {:induction false} EvalSumAppend(xs: seq<Expr>, ys: seq<Expr>, env: Symbol -> real)
    ensures EvalSum(xs + ys, env) == EvalSum(xs, env) + EvalSum(ys, env)
  {
    if xs != [] {
      assert (xs + ys)[1..] == xs[1..] + ys;
      EvalSumAppend(xs[1..], ys, env);
    } else {
      assert xs + ys == ys;
    }
  }

  lemma {:induction false} EvalProdAppend(xs: seq<Expr>, ys: seq<Expr>, env: Symbol -> real)
    ensures EvalProd(xs + ys, env) == EvalProd(xs, env) * EvalProd(ys, env)
  {
    if xs != [] {
      assert (xs + ys)[1..] == xs[1..] + ys;
      EvalProdAppend(xs[1..], ys, env);
    } else {
      assert xs + ys == ys;
    }
  }

  lemma {:induction false} EvalSumSplit(ts: seq<Expr>, env: Symbol -> real)
    ensures EvalSum(ts, env) == EvalSum(Symbolic(ts), env) + NumSum(ts)
  {
    if ts != [] {
      EvalSumSplit(ts[1..], env);
      var head := if ts[0].Num? then [] else [ts[0]];
      EvalSumAppend(head, Symbolic(ts[1..]), env);
    }
  }

  lemma {:induction false} EvalProdSplit(fs: seq<Expr>, env: Symbol -> real)
    ensures EvalProd(fs, env) == EvalProd(Symbolic(fs), env) * NumProd(fs)
  {
    if fs == [] {
      assert Symbolic(fs) == [];
    } else {
      EvalProdSplit(fs[1..], env);
      if fs[0].Num? {
        EvalProdSplitNum(fs, env);
      } else {
        EvalProdSplitSym(fs, env);
      }
    }
  }

  /** Step of `EvalProdSplit` for a leading number. */
  lemma {:induction false} EvalProdSplitNum(fs: seq<Expr>, env: Symbol -> real)
    requires fs != [] && fs[0].Num?
    requires EvalProd(fs[1..], env) == EvalProd(Symbolic(fs[1..]), env) * NumProd(fs[1..])
    ensures EvalProd(fs, env) == EvalProd(Symbolic(fs), env) * NumProd(fs)
  {
    var rest := fs[1..];
    assert Symbolic(fs) == Symbolic(rest);
    MulSwap(EvalProd(fs, env), Eval(fs[0], env), EvalProd(rest, env), EvalProd(Symbolic(rest), env),
      NumProd(rest), if fs[0].Num? then fs[0].c else 1.0, NumProd(fs), EvalProd(Symbolic(fs), env));
  }

  /** Step of `EvalProdSplit` for a leading symbolic factor. */
  lemma {:induction false} EvalProdSplitSym(fs: seq<Expr>, env: Symbol -> real)
    requires fs != [] && !fs[0].Num?
    requires EvalProd(fs[1..], env) == EvalProd(Symbolic(fs[1..]), env) * NumProd(fs[1..])
    ensures EvalProd(fs, env) == EvalProd(Symbolic(fs), env) * NumProd(fs)
  {
    var rest := fs[1..];
    var ss := [fs[0]] + Symbolic(rest);
    assert Symbolic(fs) == ss;
    assert ss[1..] == Symbolic(rest);
    var v, s0 := Eval(fs[0], env), EvalProd(Symbolic(rest), env);
    MulCongruence(EvalProd(ss, env), Eval(ss[0], env), EvalProd(ss[1..], env), v, s0);
    MulRegroup(EvalProd(fs, env), v, EvalProd(rest, env), s0, NumProd(rest), EvalProd(Symbolic(fs), env), NumProd(fs));
  }

  // Real-arithmetic steps, kept apart from the recursive definitions so that
  // the solver meets each product in a small context.

  lemma MulSwap(e: real, v: real, r: real, s0: real, n: real, c: real, m: real, s: real)
    requires e == v * r && r == s0 * n && m == c * n && v == c && s == s0
    ensures e == s * m
  {
  }

  lemma MulLeftSwap(e: real, c: real, r: real, s: real, n: real)
    requires e == c * r && r == s * n
    ensures e == s * (c * n)
  {
  }

  lemma MulRegroup(e: real, v: real, r: real, s: real, n: real, p: real, m: real)
    requires e == v * r && r == s * n && p == v * s && m == 1.0 * n
    ensures e == p * m
  {
  }

  lemma MulRotate(e: real, a: real, q: real, p: real, v: real, r: real)
    requires e == a * q && a == p * v && r == p * q
    ensures e == v * r
  {
  }

  lemma {:induction false} EvalTermsOf(e: Expr, env: Symbol -> real)
    ensures EvalSum(TermsOf(e), env) == Eval(e, env)
  {
  }

  lemma {:induction false} EvalFactorsOf(e: Expr, env: Symbol -> real)
    ensures EvalProd(FactorsOf(e), env) == Eval(e, env)
  {
  }

  lemma {:induction false} EvalMkAdd(rest: seq<Expr>, c: real, env: Symbol -> real)
    ensures Eval(MkAdd(rest, c), env) == EvalSum(rest, env) + c
  {
    if rest != [] && c != 0.0 {
      EvalSumAppend(rest, [Num(c)], env);
    }
  }

  lemma {:induction false} EvalMkMul(rest: seq<Expr>, c: real, env: Symbol -> real)
    ensures Eval(MkMul(rest, c), env) == EvalProd(rest, env) * c
  {
    if rest != [] && c != 0.0 && c != 1.0 {
      EvalProdAppend(rest, [Num(c)], env);
    }
  }

  /** The canonical sum denotes the arithmetic sum. */
  lemma {:induction false} PlusSound(a: Expr, b: Expr, env: Symbol -> real)
    requires IsValid(a) && IsValid(b)
    ensures Eval(Plus(a, b), env) == Eval(a, env) + Eval(b, env)
  {
    var ts := TermsOf(a) + TermsOf(b);
    EvalMkAdd(Symbolic(ts), NumSum(ts), env);
    EvalSumSplit(ts, env);
    EvalSumAppend(TermsOf(a), TermsOf(b), env);
    EvalTermsOf(a, env);
    EvalTermsOf(b, env);
  }

  /** Rebuilding a factor list in canonical form keeps its value. */
  lemma {:induction false} EvalCanonicalProd(fs: seq<Expr>, env: Symbol -> real)
    ensures Eval(MkMul(Symbolic(fs), NumProd(fs)), env) == EvalProd(fs, env)
  {
    EvalMkMul(Symbolic(fs), NumProd(fs), env);
    EvalProdSplit(fs, env);
  }

  /** Flattening `a` in front of a factor list multiplies the list's value by `a`'s. */
  lemma {:induction false} FactorsProdLeft(a: Expr, ys: seq<Expr>, y: real, env: Symbol -> real)
    requires EvalProd(ys, env) == y
    ensures EvalProd(FactorsOf(a) + ys, env) == Eval(a, env) * y
  {
    var x := Eval(a, env);
    if a.Mul? {
      EvalProdAppend(a.factors, ys, env);
      assert EvalProd(a.factors, env) == x;
    } else if a == Num(1.0) {
      assert FactorsOf(a) + ys == ys;
      assert x == 1.0;
    } else {
      var zs := [a] + ys;
      assert zs[0] == a && zs[1..] == ys;
      assert EvalProd(zs, env) == x * y;
    }
  }

  lemma {:induction false} FactorsProd(a: Expr, b: Expr, env: Symbol -> real)
    ensures EvalProd(FactorsOf(a) + FactorsOf(b), env) == Eval(a, env) * Eval(b, env)
  {
    EvalFactorsOf(b, env);
    FactorsProdLeft(a, FactorsOf(b), Eval(b, env), env);
  }

  /** The canonical product denotes the arithmetic product. */
  lemma {:induction false} TimesSound(a: Expr, b: Expr, env: Symbol -> real)
    requires IsValid(a) && IsValid(b)
    ensures Eval(Times(a, b), env) == Eval(a, env) * Eval(b, env)
  {
    EvalCanonicalProd(FactorsOf(a) + FactorsOf(b), env);
    FactorsProd(a, b, env);
  }

  lemma {:induction false} PowerSound(a: Expr, b: Expr, env: Symbol -> real)
    requires IsValid(a) && IsValid(b)
    ensures Eval(Power(a, b), env) == PowVal(Eval(a, env), Eval(b, env))
  {
    if b == Num(0.0) {
      assert (0.0).Floor == 0;
      assert PowVal(Eval(a, env), 0.0) == NatPow(Eval(a, env), 0);
    } else if b == Num(1.0) {
      assert (1.0).Floor == 1;
      assert PowVal(Eval(a, env), 1.0) == NatPow(Eval(a, env), 1);
      assert NatPow(Eval(a, env), 1) == Eval(a, env) * NatPow(Eval(a, env), 0);
    }
  }

  lemma {:induction false} SymMinSound(a: Expr, b: Expr, env: Symbol -> real)
    requires IsValid(a) && IsValid(b)
    ensures Eval(SymMin(a, b), env) == RMin(Eval(a, env), Eval(b, env))
  {
  }

  lemma {:induction false} SymMaxSound(a: Expr, b: Expr, env: Symbol -> real)
    requires IsValid(a) && IsValid(b)
    ensures Eval(SymMax(a, b), env) == RMax(Eval(a, env), Eval(b, env))
  {
  }

  lemma {:induction false} MulInverse(e: real, x: real, z: real, y: real)
    requires y != 0.0 && e == x * z && z == 1.0 / y
    ensures e == x / y
  {
  }

  /** A value that is the product of `Eval(a)` and the reciprocal of `y` is `Eval(a) / y`. */
  lemma {:induction false} ScaledByInverse(a: Expr, inv: Expr, y: real, env: Symbol -> real, e: real)
    requires y != 0.0 && Eval(inv, env) == 1.0 / y
    requires e == Eval(a, env) * Eval(inv, env)
    ensures e == Eval(a, env) / y
  {
    MulInverse(e, Eval(a, env), Eval(inv, env), y);
  }

  /** The value of `b^-1` is the reciprocal of the value of `b`. */
  lemma {:induction false} EvalInverse(b: Expr, env: Symbol -> real)
    requires IsValid(b) && !b.Num? && Eval(b, env) != 0.0
    ensures Eval(Power(b, Num(-1.0)), env) == 1.0 / Eval(b, env)
  {
    var x := Eval(b, env);
    assert (-1.0).Floor == -1;
    assert NatPow(x, 1) == x * NatPow(x, 0);
    assert PowVal(x, -1.0) == 1.0 / NatPow(x, 1);
  }

  /** Division expressed as multiplication by an operand denoting the reciprocal. */
  lemma {:induction false} TimesInverseSound(a: Expr, inv: Expr, y: real, env: Symbol -> real)
    requires IsValid(a) && IsValid(inv) && y != 0.0 && Eval(inv, env) == 1.0 / y
    ensures Eval(Times(a, inv), env) == Eval(a, env) / y
  {
    TimesSound(a, inv, env);
    ScaledByInverse(a, inv, y, env, Eval(Times(a, inv), env));
  }

  /** Division by an expression whose value is not zero denotes real division. */
  lemma {:induction false} DivSound(a: Expr, b: Expr, env: Symbol -> real)
    requires IsValid(a) && IsValid(b) && Eval(b, env) != 0.0
    ensures Eval(Div(a, b), env) == Eval(a, env) / Eval(b, env)
  {
    if b.Num? {
      TimesInverseSound(a, Num(1.0 / b.c), b.c, env);
    } else {
      EvalInverse(b, env);
      TimesInverseSound(a, Power(b, Num(-1.0)), Eval(b, env), env);
    }
  }

  // ---------------------------------------------------------------------
  // Clean expressions stay clean (and hence valid)

  lemma {:induction false} CleanIsValid(e: Expr)
    requires Clean(e)
    ensures IsValid(e)
  {
  }

  lemma {:induction false} CleanSymbolic(ts: seq<Expr>)
    requires AllClean(ts)
    ensures AllClean(Symbolic(ts))
  {
    if ts != [] {
      CleanSymbolic(ts[1..]);
      var head := if ts[0].Num? then [] else [ts[0]];
      assert Symbolic(ts) == head + Symbolic(ts[1..]);
    }
  }

  lemma {:induction false} CleanMkAdd(rest: seq<Expr>, c: real)
    requires AllClean(rest)
    ensures Clean(MkAdd(rest, c))
  {
    if rest != [] && c != 0.0 {
      assert AllClean(rest + [Num(c)]);
    }
  }

  lemma {:induction false} CleanMkMul(rest: seq<Expr>, c: real)
    requires AllClean(rest)
    ensures Clean(MkMul(rest, c))
  {
    if rest != [] && c != 0.0 && c != 1.0 {
      assert AllClean(rest + [Num(c)]);
    }
  }

  lemma {:induction false} CleanPlus(a: Expr, b: Expr)
    requires Clean(a) && Clean(b)
    ensures Clean(Plus(a, b))
  {
    var ts := TermsOf(a) + TermsOf(b);
    assert AllClean(ts);
    CleanSymbolic(ts);
    CleanMkAdd(Symbolic(ts), NumSum(ts));
  }

  lemma {:induction false} CleanTimes(a: Expr, b: Expr)
    requires Clean(a) && Clean(b)
    ensures Clean(Times(a, b))
  {
    var fs := FactorsOf(a) + FactorsOf(b);
    assert AllClean(fs);
    CleanSymbolic(fs);
    CleanMkMul(Symbolic(fs), NumProd(fs));
  }

  lemma {:induction false} CleanMinus(a: Expr, b: Expr)
    requires Clean(a) && Clean(b)
    ensures Clean(Minus(a, b))
  {
    CleanTimes(Num(-1.0), b);
    CleanPlus(a, Times(Num(-1.0), b));
  }

  lemma {:induction false} CleanDiv(a: Expr, b: Expr)
    requires Clean(a) && Clean(b)
    ensures b != Num(0.0) ==> Clean(Div(a, b))
  {
    if b.Num? && b.c != 0.0 {
      CleanTimes(a, Num(1.0 / b.c));
    } else if !b.Num? {
      CleanTimes(a, Power(b, Num(-1.0)));
    }
  }

  /** Subtraction denotes real subtraction when the subtrahend is clean. */
  lemma {:induction false} MinusSound(a: Expr, b: Expr, env: Symbol -> real)
    requires IsValid(a) && Clean(b)
    ensures Eval(Minus(a, b), env) == Eval(a, env) - Eval(b, env)
  {
    CleanTimes(Num(-1.0), b);
    TimesSound(Num(-1.0), b, env);
    PlusSound(a, Times(Num(-1.0), b), env);
  }

  // ---------------------------------------------------------------------
  // getSymbols, has, subs

  /** `getSymbols`: every symbol occurrence in preorder, repeats included. */
  function Symbols(e: Expr): seq<Symbol> {
    match e
    case Num(_) => []
    case Sym(s) => [s]
    case Add(ts) => SymbolsOf(ts)
    case Mul(fs) => SymbolsOf(fs)
    case Pow(b, x) => Symbols(b) + Symbols(x)
    case Min(l, r) => Symbols(l) + Symbols(r)
    case Max(l, r) => Symbols(l) + Symbols(r)
  }

  function SymbolsOf(ts: seq<Expr>): seq<Symbol> {
    if ts == [] then [] else Symbols(ts[0]) + SymbolsOf(ts[1..])
  }

  /** `has`: `x` occurs as a subtree of `e`. */
  predicate Has(e: Expr, x: Expr) {
    e == x ||
    match e
    case Num(_) => false
    case Sym(_) => false
    case Add(ts) => HasIn(ts, x)
    case Mul(fs) => HasIn(fs, x)
    case Pow(b, y) => Has(b, x) || Has(y, x)
    case Min(l, r) => Has(l, x) || Has(r, x)
    case Max(l, r) => Has(l, x) || Has(r, x)
  }

  predicate HasIn(ts: seq<Expr>, x: Expr) {
    ts != [] && (Has(ts[0], x) || HasIn(ts[1..], x))
  }

  /** A symbol is listed by `getSymbols` exactly when the expression has it. */
  lemma {:induction false} SymbolsHas(e: Expr, s: Symbol)
    ensures s in Symbols(e) <==> Has(e, Sym(s))
  {
    match e
    case Num(_) =>
    case Sym(_) =>
    case Add(ts) => SymbolsOfHasIn(ts, s);
    case Mul(fs) => SymbolsOfHasIn(fs, s);
    case Pow(b, y) => SymbolsHas(b, s); SymbolsHas(y, s);
    case Min(l, r) => SymbolsHas(l, s); SymbolsHas(r, s);
    case Max(l, r) => SymbolsHas(l, s); SymbolsHas(r, s);
  }

  lemma {:induction false} SymbolsOfHasIn(ts: seq<Expr>, s: Symbol)
    ensures s in SymbolsOf(ts) <==> HasIn(ts, Sym(s))
  {
    if ts != [] {
      SymbolsHas(ts[0], s);
      SymbolsOfHasIn(ts[1..], s);
    }
  }

  lemma {:induction false} CleanSymbols(e: Expr)
    ensures Clean(e) <==> InvalidSymbol !in Symbols(e)
  {
    match e
    case Num(_) =>
    case Sym(_) =>
    case Add(ts) => CleanSymbolsOf(ts);
    case Mul(fs) => CleanSymbolsOf(fs);
    case Pow(b, y) => CleanSymbols(b); CleanSymbols(y);
    case Min(l, r) => CleanSymbols(l); CleanSymbols(r);
    case Max(l, r) => CleanSymbols(l); CleanSymbols(r);
  }

  lemma {:induction false} CleanSymbolsOf(ts: seq<Expr>)
    ensures AllClean(ts) <==> InvalidSymbol !in SymbolsOf(ts)
  {
    if ts != [] {
      CleanSymbols(ts[0]);
      CleanSymbolsOf(ts[1..]);
      assert AllClean(ts) <==> Clean(ts[0]) && AllClean(ts[1..]) by {
        if Clean(ts[0]) && AllClean(ts[1..]) {
          forall i | 0 <= i < |ts| ensures Clean(ts[i]) {
            if i > 0 { assert ts[i] == ts[1..][i - 1]; }
          }
        }
      }
    }
  }

  /** The environment `env` with `s` bound to `v`. */
  function Bind(env: Symbol -> real, s: Symbol, v: real): Symbol -> real {
    t => if t == s then v else env(t)
  }

  /** `subs(s, y)`: replace every occurrence of symbol `s`, re-canonicalising. */
  function Subs(e: Expr, s: Symbol, y: Expr): Expr {
    match e
    case Num(_) => e
    case Sym(t) => if t == s then y else e
    case Add(ts) => SubsSum(ts, s, y)
    case Mul(fs) => SubsProd(fs, s, y)
    case Pow(b, x) => Power(Subs(b, s, y), Subs(x, s, y))
    case Min(l, r) => SymMin(Subs(l, s, y), Subs(r, s, y))
    case Max(l, r) => SymMax(Subs(l, s, y), Subs(r, s, y))
  }

  function SubsSum(ts: seq<Expr>, s: Symbol, y: Expr): Expr {
    if ts == [] then Num(0.0) else Plus(Subs(ts[0], s, y), SubsSum(ts[1..], s, y))
  }

  function SubsProd(fs: seq<Expr>, s: Symbol, y: Expr): Expr {
    if fs == [] then Num(1.0) else Times(Subs(fs[0], s, y), SubsProd(fs[1..], s, y))
  }

  /** Substitution denotes evaluation in the environment that binds `s` to the value of `y`. */
  lemma {:induction false} SubsSound(e: Expr, s: Symbol, y: Expr, env: Symbol -> real)
    requires Clean(e) && Clean(y)
    ensures Clean(Subs(e, s, y))
    ensures Eval(Subs(e, s, y), env) == Eval(e, Bind(env, s, Eval(y, env)))
  {
    var env' := Bind(env, s, Eval(y, env));
    match e
    case Num(_) =>
    case Sym(t) =>
    case Add(ts) => SubsSumSound(ts, s, y, env);
    case Mul(fs) => SubsProdSound(fs, s, y, env);
    case Pow(b, x) =>
      SubsSound(b, s, y, env);
      SubsSound(x, s, y, env);
      CleanIsValid(Subs(b, s, y));
      CleanIsValid(Subs(x, s, y));
      PowerSound(Subs(b, s, y), Subs(x, s, y), env);
      CleanPower(Subs(b, s, y), Subs(x, s, y));
    case Min(l, r) =>
      SubsSound(l, s, y, env);
      SubsSound(r, s, y, env);
      CleanIsValid(Subs(l, s, y));
      CleanIsValid(Subs(r, s, y));
      SymMinSound(Subs(l, s, y), Subs(r, s, y), env);
    case Max(l, r) =>
      SubsSound(l, s, y, env);
      SubsSound(r, s, y, env);
      CleanIsValid(Subs(l, s, y));
      CleanIsValid(Subs(r, s, y));
      SymMaxSound(Subs(l, s, y), Subs(r, s, y), env);
  }

  lemma {:induction false} SubsSumSound(ts: seq<Expr>, s: Symbol, y: Expr, env: Symbol -> real)
    requires AllClean(ts) && Clean(y)
    ensures Clean(SubsSum(ts, s, y))
    ensures Eval(SubsSum(ts, s, y), env) == EvalSum(ts, Bind(env, s, Eval(y, env)))
  {
    if ts != [] {
      assert AllClean(ts[1..]);
      SubsSound(ts[0], s, y, env);
      SubsSumSound(ts[1..], s, y, env);
      CleanIsValid(Subs(ts[0], s, y));
      CleanIsValid(SubsSum(ts[1..], s, y));
      PlusSound(Subs(ts[0], s, y), SubsSum(ts[1..], s, y), env);
      CleanPlus(Subs(ts[0], s, y), SubsSum(ts[1..], s, y));
    }
  }

  lemma {:induction false} SubsProdSound(fs: seq<Expr>, s: Symbol, y: Expr, env: Symbol -> real)
    requires AllClean(fs) && Clean(y)
    ensures Clean(SubsProd(fs, s, y))
    ensures Eval(SubsProd(fs, s, y), env) == EvalProd(fs, Bind(env, s, Eval(y, env)))
  {
    if fs != [] {
      assert AllClean(fs[1..]);
      var head, tail := Subs(fs[0], s, y), SubsProd(fs[1..], s, y);
      SubsSound(fs[0], s, y, env);
      SubsProdSound(fs[1..], s, y, env);
      CleanIsValid(head);
      CleanIsValid(tail);
      CleanTimes(head, tail);
      ProdStep(fs, SubsProd(fs, s, y), head, tail, env, Bind(env, s, Eval(y, env)));
    }
  }

  /**
   * One factor of `SubsProdSound`: `r` is the product of `h` and `t`, whose
   * values are those of the head and of the rest of `fs` in `env'`.
   */
  lemma {:induction false} ProdStep(fs: seq<Expr>, r: Expr, h: Expr, t: Expr, env: Symbol -> real, env': Symbol -> real)
    requires fs != [] && r == Times(h, t) && IsValid(h) && IsValid(t)
    requires Eval(h, env) == Eval(fs[0], env') && Eval(t, env) == EvalProd(fs[1..], env')
    ensures Eval(r, env) == EvalProd(fs, env')
  {
    TimesOfValues(h, t, env, Eval(fs[0], env'), EvalProd(fs[1..], env'));
  }

  /** `TimesSound` for operands whose values are already known. */
  lemma {:induction false} TimesOfValues(a: Expr, b: Expr, env: Symbol -> real, x: real, y: real)
    requires IsValid(a) && IsValid(b) && Eval(a, env) == x && Eval(b, env) == y
    ensures Eval(Times(a, b), env) == x * y
  {
    TimesSound(a, b, env);
    MulCongruence(Eval(Times(a, b), env), Eval(a, env), Eval(b, env), x, y);
  }

  lemma {:induction false} MulCongruence(e: real, p: real, q: real, x: real, y: real)
    requires e == p * q && p == x && q == y
    ensures e == x * y
  {
  }

  lemma {:induction false} CleanPower(a: Expr, b: Expr)
    requires Clean(a) && Clean(b)
    ensures Clean(Power(a, b))
  {
  }

  // ---------------------------------------------------------------------
  // Matching against the templates `Phi + Wild`, `Phi - Wild`, `Phi * Wild`

  /** Index of the first occurrence of `x` in `ts`, or -1. */
  function IndexOf(ts: seq<Expr>, x: Expr): (i: int)
    ensures -1 <= i < |ts|
    ensures i >= 0 ==> ts[i] == x && x !in ts[..i]
    ensures i < 0 ==> x !in ts
  {
    if ts == [] then -1
    else if ts[0] == x then 0
    else
      var j := IndexOf(ts[1..], x);
      if j < 0 then -1
      else
        assert ts[1..][..j] == ts[1..j + 1];
        j + 1
  }

  function RemoveAt(ts: seq<Expr>, i: nat): seq<Expr>
    requires i < |ts|
  {
    ts[..i] + ts[i + 1..]
  }

  /** The sum of the remaining terms, as GiNaC binds a wildcard summand. */
  function SumOf(rest: seq<Expr>): Expr {
    if rest == [] then Num(0.0) else if |rest| == 1 then rest[0] else Add(rest)
  }

  /** The product of the remaining factors, as GiNaC binds a wildcard factor. */
  function ProductOf(rest: seq<Expr>): Expr {
    if rest == [] then Num(1.0) else if |rest| == 1 then rest[0] else Mul(rest)
  }

  /**
   * `match(p + Wild)`: `e` must be a sum having `p` as a term; the wildcard is
   * bound to the sum of the other terms (first occurrence of `p` removed).
   * A single binding is produced, so `Repls.size() == 1` whenever it succeeds.
   */
  function MatchAddWild(e: Expr, p: Expr): Option<Expr> {
    if e.Add? && p in e.terms then Some(SumOf(RemoveAt(e.terms, IndexOf(e.terms, p))))
    else None
  }

  /** `match(p - Wild)`: a sum of `p` and one product whose last factor is -1. */
  function MatchSubWild(e: Expr, p: Expr): Option<Expr> {
    if e.Add? && p in e.terms then
      var rest := RemoveAt(e.terms, IndexOf(e.terms, p));
      if |rest| == 1 && rest[0].Mul? && |rest[0].factors| >= 2
         && rest[0].factors[|rest[0].factors| - 1] == Num(-1.0)
      then Some(ProductOf(rest[0].factors[..|rest[0].factors| - 1]))
      else None
    else None
  }

  /** `match(p * Wild)`: a product having `p` as a factor; the wildcard is the other factors. */
  function MatchMulWild(e: Expr, p: Expr): Option<Expr> {
    if e.Mul? && p in e.factors then Some(ProductOf(RemoveAt(e.factors, IndexOf(e.factors, p))))
    else None
  }

  lemma {:induction false} EvalSumRemoveAt(ts: seq<Expr>, i: nat, env: Symbol -> real)
    requires i < |ts|
    ensures EvalSum(ts, env) == Eval(ts[i], env) + EvalSum(RemoveAt(ts, i), env)
  {
    assert ts == ts[..i] + [ts[i]] + ts[i + 1..];
    EvalSumAppend(ts[..i] + [ts[i]], ts[i + 1..], env);
    EvalSumAppend(ts[..i], [ts[i]], env);
    EvalSumAppend(ts[..i], ts[i + 1..], env);
  }

  lemma {:induction false} EvalProdMiddle(pre: seq<Expr>, x: Expr, post: seq<Expr>, env: Symbol -> real)
    ensures EvalProd(pre + [x] + post, env) == Eval(x, env) * EvalProd(pre + post, env)
  {
    if pre == [] {
      assert pre + [x] + post == [x] + post;
      assert ([x] + post)[1..] == post;
      assert pre + post == post;
    } else {
      var rest := pre[1..];
      EvalProdMiddle(rest, x, post, env);
      assert (pre + [x] + post)[1..] == rest + [x] + post;
      assert (pre + post)[1..] == rest + post;
      MulLeftSwap(EvalProd(pre + [x] + post, env), Eval(pre[0], env), EvalProd(rest + [x] + post, env),
        Eval(x, env), EvalProd(rest + post, env));
    }
  }

  lemma {:induction false} EvalProdRemoveAt(fs: seq<Expr>, i: nat, env: Symbol -> real)
    requires i < |fs|
    ensures EvalProd(fs, env) == Eval(fs[i], env) * EvalProd(RemoveAt(fs, i), env)
  {
    assert fs == fs[..i] + [fs[i]] + fs[i + 1..];
    EvalProdMiddle(fs[..i], fs[i], fs[i + 1..], env);
  }


  /** A successful `p + Wild` match splits the value of `e` into p's plus the binding's. */
  lemma {:induction false} MatchAddWildSound(e: Expr, p: Expr, env: Symbol -> real)
    requires MatchAddWild(e, p).Some?
    ensures Eval(e, env) == Eval(p, env) + Eval(MatchAddWild(e, p).value, env)
  {
    var i := IndexOf(e.terms, p);
    EvalSumRemoveAt(e.terms, i, env);
    var rest := RemoveAt(e.terms, i);
    if |rest| == 1 {
      assert EvalSum(rest, env) == Eval(rest[0], env) by {
        assert rest[1..] == [];
      }
    }
  }

  /** A successful `p * Wild` match splits the value of `e` into p's times the binding's. */
  lemma {:induction false} MatchMulWildSound(e: Expr, p: Expr, env: Symbol -> real)
    requires MatchMulWild(e, p).Some?
    ensures Eval(e, env) == Eval(p, env) * Eval(MatchMulWild(e, p).value, env)
  {
    var i := IndexOf(e.factors, p);
    EvalProdRemoveAt(e.factors, i, env);
    var rest := RemoveAt(e.factors, i);
    if |rest| == 1 {
      assert EvalProd(rest, env) == Eval(rest[0], env) by {
        assert rest[1..] == [];
      }
    }
  }

  /** Whatever matches `p - Wild` also matches `p + Wild`, which is tried first. */
  lemma {:induction false} MatchSubImpliesAdd(e: Expr, p: Expr)
    requires MatchSubWild(e, p).Some?
    ensures MatchAddWild(e, p).Some?
  {
  }

  /**
   * A sum in canonical form: at least two terms, none a sum, numbers only in
   * last position and never 0 there.  The results of Plus have this shape.
   */
  predicate SumShaped(w: Expr) {
    w.Add? ==>
      |w.terms| >= 2 &&
      (forall i :: 0 <= i < |w.terms| ==> !w.terms[i].Add?) &&
      (forall i :: 0 <= i < |w.terms| - 1 ==> !w.terms[i].Num?) &&
      (w.terms[|w.terms| - 1].Num? ==> w.terms[|w.terms| - 1].c != 0.0)
  }

  lemma {:induction false} NoNumbers(ts: seq<Expr>)
    requires forall i :: 0 <= i < |ts| ==> !ts[i].Num?
    ensures Symbolic(ts) == ts && NumSum(ts) == 0.0
  {
    if ts != [] {
      NoNumbers(ts[1..]);
    }
  }

  lemma {:induction false} SymbolicOneNumber(ts: seq<Expr>, c: real)
    requires forall i :: 0 <= i < |ts| ==> !ts[i].Num?
    ensures Symbolic(ts + [Num(c)]) == ts && NumSum(ts + [Num(c)]) == c
  {
    SymbolicAppend(ts, [Num(c)]);
    NumSumAppend(ts, [Num(c)]);
    NoNumbers(ts);
  }

  lemma {:induction false} SymbolicAppend(xs: seq<Expr>, ys: seq<Expr>)
    ensures Symbolic(xs + ys) == Symbolic(xs) + Symbolic(ys)
  {
    if xs != [] {
      assert (xs + ys)[1..] == xs[1..] + ys;
      SymbolicAppend(xs[1..], ys);
    } else {
      assert xs + ys == ys;
    }
  }

  lemma {:induction false} NumSumAppend(xs: seq<Expr>, ys: seq<Expr>)
    ensures NumSum(xs + ys) == NumSum(xs) + NumSum(ys)
  {
    if xs != [] {
      assert (xs + ys)[1..] == xs[1..] + ys;
      NumSumAppend(xs[1..], ys);
    } else {
      assert xs + ys == ys;
    }
  }

  /** A symbol that is a term of a sum is had by the sum. */
  lemma {:induction false} NotAmongTerms(p: Symbol, w: Expr)
    requires !Has(w, Sym(p))
    ensures Sym(p) !in TermsOf(w)
  {
    if w.Add? && Sym(p) in w.terms {
      var k :| 0 <= k < |w.terms| && w.terms[k] == Sym(p);
      HasInAt(w.terms, k, Sym(p));
    }
  }

  /** The terms of a canonical `w` other than 0: its symbolic terms, followed by its number unless that is 0. */
  lemma {:induction false} ShapedTerms(w: Expr)
    requires IsValid(w) && SumShaped(w) && w != Num(0.0)
    ensures |TermsOf(w)| >= 1
    ensures NumSum(TermsOf(w)) == 0.0 ==> Symbolic(TermsOf(w)) == TermsOf(w)
    ensures NumSum(TermsOf(w)) != 0.0 ==> TermsOf(w) == Symbolic(TermsOf(w)) + [Num(NumSum(TermsOf(w)))]
  {
    if w.Add? {
      var n := |w.terms|;
      if w.terms[n - 1].Num? {
        assert w.terms == w.terms[..n - 1] + [Num(w.terms[n - 1].c)];
        SymbolicOneNumber(w.terms[..n - 1], w.terms[n - 1].c);
      } else {
        NoNumbers(w.terms);
      }
    } else if w.Num? {
      assert TermsOf(w) == [w];
      assert Symbolic([w]) == [] && NumSum([w]) == w.c;
    } else {
      assert TermsOf(w) == [w];
      assert Symbolic([w]) == [w] && NumSum([w]) == 0.0;
    }
  }

  /** For a canonical `w`, adding the symbol `p` in front just prepends it to the terms. */
  lemma {:induction false} PlusSymbolFront(p: Symbol, w: Expr)
    requires IsValid(w) && SumShaped(w) && w != Num(0.0) && p.Bound?
    ensures Plus(Sym(p), w) == Add([Sym(p)] + TermsOf(w))
  {
    var tw := TermsOf(w);
    var ts := [Sym(p)] + tw;
    assert TermsOf(Sym(p)) == [Sym(p)];
    assert Plus(Sym(p), w) == MkAdd(Symbolic(ts), NumSum(ts));
    SymbolicAppend([Sym(p)], tw);
    NumSumAppend([Sym(p)], tw);
    assert Symbolic([Sym(p)]) == [Sym(p)] && NumSum([Sym(p)]) == 0.0;
    var rest, c := Symbolic(tw), NumSum(tw);
    assert Symbolic(ts) == [Sym(p)] + rest && NumSum(ts) == c;
    ShapedTerms(w);
    if c != 0.0 {
      assert ([Sym(p)] + rest) + [Num(c)] == [Sym(p)] + tw;
    }
  }

  /**
   * Round trip: adding a symbol `p` to a canonical `w` that does not mention
   * it and is not 0, then matching `p + Wild`, gives back exactly `w`.
   */
  lemma {:induction false} MatchAddWildPlus(p: Symbol, w: Expr)
    requires IsValid(w) && SumShaped(w) && w != Num(0.0) && !Has(w, Sym(p)) && p.Bound?
    ensures MatchAddWild(Plus(Sym(p), w), Sym(p)) == Some(w)
  {
    PlusSymbolFront(p, w);
    NotAmongTerms(p, w);
    MatchAddWildFront(Plus(Sym(p), w), Sym(p), TermsOf(w));
    SumOfTermsOf(w);
  }

  /** Matching `x + Wild` against a sum whose first term is `x` binds the other terms. */
  lemma {:induction false} MatchAddWildFront(e: Expr, x: Expr, rest: seq<Expr>)
    requires e == Add([x] + rest)
    ensures MatchAddWild(e, x) == Some(SumOf(rest))
  {
    assert IndexOf([x] + rest, x) == 0;
    assert RemoveAt([x] + rest, 0) == rest;
  }

  /** A valid expression other than 0 is the sum of its own terms. */
  lemma {:induction false} SumOfTermsOf(w: Expr)
    requires IsValid(w) && SumShaped(w) && w != Num(0.0)
    ensures SumOf(TermsOf(w)) == w
  {
  }

  lemma {:induction false} HasInAt(ts: seq<Expr>, k: nat, x: Expr)
    requires k < |ts| && Has(ts[k], x)
    ensures HasIn(ts, x)
  {
    if k > 0 {
      HasInAt(ts[1..], k - 1, x);
    }
  }

  /** Evaluation reads the environment only at the symbols `getSymbols` lists. */
  lemma {:induction false} EvalAgree(e: Expr, env: Symbol -> real, env': Symbol -> real)
    requires forall s :: s in Symbols(e) ==> env(s) == env'(s)
    ensures Eval(e, env) == Eval(e, env')
  {
    match e
    case Num(_) =>
    case Sym(_) =>
    case Add(ts) => EvalSumAgree(ts, env, env');
    case Mul(fs) => EvalProdAgree(fs, env, env');
    case Pow(b, x) => EvalAgree(b, env, env'); EvalAgree(x, env, env');
    case Min(l, r) => EvalAgree(l, env, env'); EvalAgree(r, env, env');
    case Max(l, r) => EvalAgree(l, env, env'); EvalAgree(r, env, env');
  }

  lemma {:induction false} EvalSumAgree(ts: seq<Expr>, env: Symbol -> real, env': Symbol -> real)
    requires forall s :: s in SymbolsOf(ts) ==> env(s) == env'(s)
    ensures EvalSum(ts, env) == EvalSum(ts, env')
    decreases ts, 0
  {
    if ts != [] {
      EvalAgree(ts[0], env, env');
      EvalSumAgree(ts[1..], env, env');
    }
  }

  lemma {:induction false} EvalProdAgree(fs: seq<Expr>, env: Symbol -> real, env': Symbol -> real)
    requires forall s :: s in SymbolsOf(fs) ==> env(s) == env'(s)
    ensures EvalProd(fs, env) == EvalProd(fs, env')
    decreases fs, 0
  {
    if fs != [] {
      EvalAgree(fs[0], env, env');
      EvalProdAgree(fs[1..], env, env');
    }
  }
}
