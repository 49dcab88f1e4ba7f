// Products and quotients of integers that are not constants.
module Arith {

  function Quotient(x: int, p: nat): int
    requires p > 0
  {
    x / p
  }

  lemma MulLe(a: nat, b: nat, c: nat)
    requires b <= c
    ensures 0 <= a * b <= a * c
  {
  }

  lemma LessFactor(a: int, b: int, c: nat)
    requires a * c < b * c
    ensures a < b
  {
  }

  lemma Between(d: int, q: int, p: nat, x: int)
    requires p > 0 && d * p <= x < d * p + p && q * p <= x < q * p + p
    ensures d == q
  {
    assert (q + 1) * p == q * p + p && (d + 1) * p == d * p + p;
    LessFactor(d, q + 1, p);
    LessFactor(q, d + 1, p);
  }

  lemma NotNegative(q: int, p: nat, r: nat)
    requires r < p && q * p + r >= 0
    ensures q >= 0
  {
  }

  lemma Negative(q: int, p: nat, m: nat)
    requires q * p + m < 0
    ensures q < 0
  {
  }

  lemma QuotientSmall(x: nat, p: nat)
    requires p > 0
    ensures 0 <= Quotient(x, p) <= x
  {
    var q := x / p;
    assert x == q * p + x % p;
    NotNegative(q, p, x % p);
    MulLe(q, 1, p);
  }

  lemma QuotientIs(x: int, p: nat, q: int, r: nat)
    requires r < p && x == q * p + r
    ensures Quotient(x, p) == q
  {
    var d := Quotient(x, p);
    assert d * p <= x < d * p + p;
    Between(d, q, p, x);
  }

  lemma DivMod(x: nat, q: nat) returns (a: nat, b: nat)
    requires q > 0
    ensures b < q && x == a * q + b && a * q <= x
  {
    a, b := x / q, x % q;
  }

  lemma Floor(h: int, r: nat) returns (q: int, m: nat)
    requires r > 0
    ensures q == Quotient(h, r) && h == q * r + m && m < r
  {
    q, m := h / r, h % r;
  }

  lemma MulNeg(x: int, y: int)
    ensures (-x) * y == -(x * y) && x * (-y) == -(x * y) && (-x) * (-y) == x * y
  {
  }

  lemma DivModIs(v: int, p: nat, q: int, r: nat)
    requires r < p && v == q * p + r
    ensures v / p == q && v % p == r
  {
    QuotientIs(v, p, q, r);
    assert v == v / p * p + v % p;
  }
}
