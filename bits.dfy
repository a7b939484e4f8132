/**
 * Fixed-width integers as LLVM sees them: a value of width `w` is a bit
 * pattern in [0, 2^w), read as unsigned or as two's complement.
 */
module Bits {
  /** `1 << n`, without bound. */
  function Pow2(n: nat): (r: nat)
    ensures r >= 1
  {
    if n == 0 then 1 else 2 * Pow2(n - 1)
  }

  lemma {:induction false} Pow2Add(a: nat, b: nat)
    ensures Pow2(a + b) == Pow2(a) * Pow2(b)
    decreases a
  {
    if a > 0 {
      Pow2Add(a - 1, b);
      assert Pow2(a + b) == 2 * Pow2(a - 1 + b);
    }
  }

  lemma {:induction false} Pow2Monotone(a: nat, b: nat)
    requires a <= b
    ensures Pow2(a) <= Pow2(b)
  {
    Pow2Add(a, b - a);
    assert Pow2(b) == Pow2(a) * Pow2(b - a);
  }

  /** A bit pattern of width `w`. */
  predicate Fits(v: int, w: nat) {
    0 <= v < Pow2(w)
  }

  /** The two's-complement reading of a pattern of width `w >= 1`. */
  function ToSigned(v: int, w: nat): (s: int)
    requires w >= 1 && Fits(v, w)
    ensures -(Pow2(w - 1) as int) <= s < Pow2(w - 1)
    ensures s >= 0 <==> v < Pow2(w - 1)
  {
    assert Pow2(w) == 2 * Pow2(w - 1);
    if v < Pow2(w - 1) then v else v - Pow2(w)
  }

  /** The pattern of width `w` of an integer: reduction modulo 2^w. */
  function Wrap(x: int, w: nat): (v: int)
    ensures Fits(v, w)
    ensures 0 <= x < Pow2(w) ==> v == x
    ensures -(Pow2(w) as int) <= x < 0 ==> v == x + Pow2(w)
  {
    ModSmall(x, Pow2(w));
    x % Pow2(w)
  }

  /** Euclidean remainder of an integer within one modulus of the range. */
  lemma {:induction false} ModSmall(x: int, m: int)
    requires m > 0
    ensures 0 <= x % m < m
    ensures 0 <= x < m ==> x % m == x
    ensures -m <= x < 0 ==> x % m == x + m
  {
    var q := x / m;
    assert x == m * q + x % m;
  }

  /** Reading a pattern back gives the integer it was made from, when that fits. */
  lemma {:induction false} ToSignedWrap(x: int, w: nat)
    requires w >= 1 && -(Pow2(w - 1) as int) <= x < Pow2(w - 1)
    ensures ToSigned(Wrap(x, w), w) == x
  {
    assert Pow2(w) == 2 * Pow2(w - 1);
  }

  /** Zero extension from width `from` to `to`: the pattern is unchanged. */
  function Zext(v: int, from: nat, to: nat): (r: int)
    requires from <= to && Fits(v, from)
    ensures Fits(r, to) && r == v
  {
    Pow2Monotone(from, to);
    v
  }

  /** Sign extension from width `from` to `to`. */
  function Sext(v: int, from: nat, to: nat): (r: int)
    requires 1 <= from <= to && Fits(v, from)
    ensures Fits(r, to) && ToSigned(r, to) == ToSigned(v, from)
  {
    Pow2Monotone(from - 1, to - 1);
    ToSignedWrap(ToSigned(v, from), to);
    Wrap(ToSigned(v, from), to)
  }

  /** Truncation to the low `to` bits. */
  function Trunc(v: int, to: nat): (r: int)
    ensures Fits(r, to)
    ensures Fits(v, to) ==> r == v
  {
    Wrap(v, to)
  }

  lemma {:induction false} MulSign(m: int, k: int)
    requires m > 0
    ensures k >= 1 ==> m * k >= m
    ensures k <= -1 ==> m * k <= -m
  {
  }

  /** Euclidean division is unique. */
  lemma {:induction false} ModUnique(x: int, m: int, q: int, r: int)
    requires m > 0 && 0 <= r < m && x == m * q + r
    ensures x % m == r
  {
    var q', r' := x / m, x % m;
    assert m * q' + r' == m * q + r;
    assert m * (q - q') == r' - r;
    MulSign(m, q - q');
  }

  /** Adding patterns of width `w` is adding the integers modulo 2^w. */
  lemma {:induction false} WrapAdd(a: int, b: int, w: nat)
    ensures Wrap(Wrap(a, w) + Wrap(b, w), w) == Wrap(a + b, w)
  {
    var m := Pow2(w);
    var qa, qb := a / m, b / m;
    var ra, rb := a % m, b % m;
    var s := ra + rb;
    var qs, r := s / m, s % m;
    assert s == m * qs + r;
    assert a + b == m * (qa + qb + qs) + r;
    ModUnique(a + b, m, qa + qb + qs, r);
  }

  /** Multiplying patterns of width `w` is multiplying the integers modulo 2^w. */
  lemma {:induction false} WrapMul(a: int, b: int, w: nat)
    ensures Wrap(Wrap(a, w) * Wrap(b, w), w) == Wrap(a * b, w)
  {
    var m := Pow2(w);
    var qa, ra := a / m, a % m;
    var qb, rb := b / m, b % m;
    var qp, r := (ra * rb) / m, (ra * rb) % m;
    ExpandProduct(a, b, m, qa, ra, qb, rb, qp, r);
    ModUnique(a * b, m, m * qa * qb + qa * rb + ra * qb + qp, r);
  }

  lemma {:induction false} ExpandProduct(a: int, b: int, m: int, qa: int, ra: int, qb: int, rb: int, qp: int, r: int)
    requires a == m * qa + ra && b == m * qb + rb && ra * rb == m * qp + r
    ensures a * b == m * (m * qa * qb + qa * rb + ra * qb + qp) + r
  {
    assert a * b == m * (m * qa * qb + qa * rb + ra * qb) + ra * rb;
  }

  /** A pattern is the wrap of its own signed reading. */
  lemma {:induction false} WrapToSigned(v: int, w: nat)
    requires w >= 1 && Fits(v, w)
    ensures Wrap(ToSigned(v, w), w) == v
  {
    assert Pow2(w) == 2 * Pow2(w - 1);
  }
}
