/** Small facts of real arithmetic, each stated over plain variables so that
    the solver's non-linear reasoning sees one product or quotient at a time. */
module RealAlgebra {
  function Square(x: real): real {
    x * x
  }


  lemma SquareNonNegative(v: real)
    ensures v * v >= 0.0
    ensures v != 0.0 ==> v * v > 0.0
  {
    if v < 0.0 {
      assert v * v == (-v) * (-v);
    }
  }

  lemma DivUnique(r: real, p: real, d: real)
    requires d != 0.0 && r * d == p
    ensures r == p / d
  {
  }

  lemma DivTwice(p: real, s: real, ss: real)
    requires s != 0.0 && ss != 0.0 && ss == s * s
    ensures (p / s) / s == p / ss
  {
    var q := p / s;
    var r := q / s;
    assert q * s == p;
    assert r * s == q;
    assert r * ss == (r * s) * s;
    DivUnique(r, p, ss);
  }

  lemma MulDiv(a: real, d: real, s: real)
    requires s != 0.0
    ensures a * (d / s) == (a * d) / s
  {
    var q := d / s;
    assert q * s == d;
    assert (a * q) * s == a * (q * s);
    DivUnique(a * q, a * d, s);
  }

  /** A non-negative root of a positive value is positive. */
  lemma RootPositive(s: real, v: real)
    requires s >= 0.0 && s * s == v && v > 0.0
    ensures s > 0.0
  {
    assert s == 0.0 ==> s * s == 0.0;
  }

  /** Squaring is monotone on non-negative reals, in both directions. */
  lemma SquareMonotone(s: real, e: real)
    requires s >= 0.0 && e >= 0.0
    ensures s >= e ==> s * s >= e * e
    ensures s < e ==> s * s < e * e
  {
    var x, y, z := s * s, e * s, e * e;
    if s >= e {
      assert x >= y;
      assert y >= z;
    } else {
      assert x <= y;
      assert y < z;
    }
  }

  /** Two non-negative reals compare as their squares do. */
  lemma RootCompare(s: real, v: real, e: real)
    requires s >= 0.0 && s * s == v && e >= 0.0
    ensures s < e <==> v < e * e
  {
    SquareMonotone(s, e);
  }

  lemma DivAdd(p: real, q: real, s: real)
    requires s != 0.0
    ensures p / s + q / s == (p + q) / s
  {
    var a, b := p / s, q / s;
    assert a * s == p && b * s == q;
    assert (a + b) * s == p + q;
    DivUnique(a + b, p + q, s);
  }

  lemma DivSub(p: real, q: real, s: real)
    requires s != 0.0
    ensures p - q / s == (p * s - q) / s
  {
    var b := q / s;
    assert b * s == q;
    assert (p - b) * s == p * s - q;
    DivUnique(p - b, p * s - q, s);
  }

  /** `(c / s)^2 == c^2 / s^2`. */
  lemma SquareOfQuotient(c: real, s: real, ss: real)
    requires s != 0.0 && ss == s * s && ss != 0.0
    ensures Square(c / s) == Square(c) / ss
  {
    var q := c / s;
    assert q * s == c;
    assert (q * q) * ss == (q * s) * (q * s);
    DivUnique(q * q, c * c, ss);
  }

  /** The two square roots of `r * r`. */
  lemma SquareRoots(x: real, r: real)
    requires x * x == r * r
    ensures x == r || x == -r
  {
    var d, e := x - r, x + r;
    assert d * e == x * x - r * r;
    ZeroProduct(d, e);
  }

  lemma ZeroProduct(d: real, e: real)
    requires d * e == 0.0
    ensures d == 0.0 || e == 0.0
  {
    if d != 0.0 {
      DivUnique(e, 0.0, d);
    }
  }

  lemma DivCancel(p: real, d: real)
    requires d != 0.0
    ensures (p / d) * d == p
  {
  }
}
