/** The few facts about products and quotients of reals that the other modules need. */
module Reals {

  function Product(a: real, b: real): (p: real)
    ensures p == a * b
    ensures (a > 0.0 && b > 0.0) || (a < 0.0 && b < 0.0) ==> p > 0.0
    ensures (a > 0.0 && b < 0.0) || (a < 0.0 && b > 0.0) ==> p < 0.0
    ensures a == 0.0 || b == 0.0 ==> p == 0.0
  {
    a * b
  }

  function Square(x: real): (s: real)
    ensures s == x * x
    ensures x == 0.0 ==> s == 0.0
    ensures x != 0.0 ==> s > 0.0
  {
    Product(x, x)
  }

  function Quotient(a: real, p: real): (q: real)
    requires p != 0.0
    ensures q == a / p
    ensures Product(q, p) == a
  {
    a / p
  }

  function Sum(xs: seq<real>): real { if xs == [] then 0.0 else xs[0] + Sum(xs[1..]) }

  lemma {:induction false} ProductOrder(a: real, b: real, p: real)
    requires p > 0.0 && a <= b
    ensures Product(a, p) <= Product(b, p)
  {
    assert Product(b - a, p) == Product(b, p) - Product(a, p);
  }

  lemma {:induction false} QuotientOrder(a: real, b: real, p: real)
    requires p > 0.0 && a <= b
    ensures a / p <= b / p
  {
    var q, r := Quotient(a, p), Quotient(b, p);
    assert Product(r - q, p) == Product(r, p) - Product(q, p);
  }

  /** A quotient close to `x * p` over `p` is close to `x`. */
  lemma {:induction false} QuotientNear(x: real, p: real, y: real, h: real, c: real)
    requires p > 0.0 && y == Product(x, p) && y - c <= h <= y + c
    ensures x - c / p <= h / p <= x + c / p
  {
    var q, e := Quotient(h, p), Quotient(c, p);
    assert Product(q - x + e, p) == Product(q, p) - Product(x, p) + Product(e, p);
    assert Product(x + e - q, p) == Product(x, p) + Product(e, p) - Product(q, p);
  }

  lemma {:induction false} QuotientSum(a: real, b: real, p: real)
    requires p > 0.0
    ensures (a + b) / p == a / p + b / p
  {
    var q, r, t := Quotient(a, p), Quotient(b, p), Quotient(a + b, p);
    assert Product(t - q - r, p) == Product(t, p) - Product(q, p) - Product(r, p);
  }

  lemma {:induction false} QuotientSelf(p: real)
    requires p > 0.0
    ensures p / p == 1.0
  {
    assert Product(Quotient(p, p) - 1.0, p) == Product(Quotient(p, p), p) - p;
  }

  /** A sum is additive over the parts of its list. */
  lemma {:induction false} SumParts(a: seq<real>, b: seq<real>)
    ensures Sum(a + b) == Sum(a) + Sum(b)
    ensures forall x :: Sum([x]) == x
  {
    if a == [] {
      assert a + b == b;
    } else {
      assert (a + b)[1..] == a[1..] + b;
      SumParts(a[1..], b);
    }
  }
}
