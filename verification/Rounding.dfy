/** The two roundings of the fidelity layer over the reals: Python's `round` (half to even) and
    `Decimal.quantize` with ROUND_HALF_UP (half away from zero). */
module Rounding {
  import opened Reals

  function Pow10(n: nat): (p: real)
    ensures p >= 1.0
  {
    if n == 0 then 1.0 else 10.0 * Pow10(n - 1)
  }

  function HalfEven(x: real): int {
    var f := x.Floor;
    var d := x - f as real;
    if d < 0.5 || (d == 0.5 && f % 2 == 0) then f else f + 1
  }

  function HalfUp(x: real): int {
    if x >= 0.0 then (x + 0.5).Floor else -((-x + 0.5).Floor)
  }

  /** `Decimal(str(x)).quantize(10 ** -scale, rounding=ROUND_HALF_UP)`. */
  function Quantize(x: real, scale: nat): real {
    ToGrid(x, Pow10(scale))
  }

  lemma {:induction false} HalfEvenFacts(x: real, y: real)
    ensures -0.5 <= HalfEven(x) as real - x <= 0.5
    ensures x <= y ==> HalfEven(x) <= HalfEven(y)
  {
  }

  lemma {:induction false} HalfEvenInteger(n: int)
    ensures HalfEven(n as real) == n
  {
  }

  lemma {:induction false} HalfUpFacts(x: real, y: real)
    ensures -0.5 <= HalfUp(x) as real - x <= 0.5
    ensures x <= y ==> HalfUp(x) <= HalfUp(y)
  {
  }

  lemma {:induction false} HalfUpInteger(n: int)
    ensures HalfUp(n as real) == n
  {
  }

  /** Rounding to a grid of `p` points per unit. */
  function ToGrid(x: real, p: real): real
    requires p > 0.0
  {
    HalfUp(Product(x, p)) as real / p
  }

  /** Rounding moves a number by at most half a grid step. */
  lemma {:induction false} ToGridNear(x: real, p: real)
    requires p > 0.0
    ensures x - 0.5 / p <= ToGrid(x, p) <= x + 0.5 / p
  {
    var y := Product(x, p);
    HalfUpFacts(y, y);
    QuotientNear(x, p, y, HalfUp(y) as real, 0.5);
  }

  lemma {:induction false} ToGridMonotone(x: real, y: real, p: real)
    requires p > 0.0 && x <= y
    ensures ToGrid(x, p) <= ToGrid(y, p)
  {
    var a, b := Product(x, p), Product(y, p);
    ProductOrder(x, y, p);
    HalfUpFacts(a, b);
    QuotientOrder(HalfUp(a) as real, HalfUp(b) as real, p);
  }

  /** Grid points are kept. */
  lemma {:induction false} ToGridPoint(n: int, p: real)
    requires p > 0.0
    ensures ToGrid(n as real / p, p) == n as real / p
  {
    var q := Quotient(n as real, p);
    assert Product(q, p) == n as real;
    HalfUpInteger(n);
  }

  /** The same grid with ties to even, `Decimal.quantize` with its default rounding. */
  function ToGridEven(x: real, p: real): real
    requires p > 0.0
  {
    HalfEven(Product(x, p)) as real / p
  }

  lemma {:induction false} ToGridEvenNear(x: real, p: real)
    requires p > 0.0
    ensures x - 0.5 / p <= ToGridEven(x, p) <= x + 0.5 / p
  {
    var y := Product(x, p);
    HalfEvenFacts(y, y);
    QuotientNear(x, p, y, HalfEven(y) as real, 0.5);
  }

  lemma {:induction false} ToGridEvenMonotone(x: real, y: real, p: real)
    requires p > 0.0 && x <= y
    ensures ToGridEven(x, p) <= ToGridEven(y, p)
  {
    var a, b := Product(x, p), Product(y, p);
    ProductOrder(x, y, p);
    HalfEvenFacts(a, b);
    QuotientOrder(HalfEven(a) as real, HalfEven(b) as real, p);
  }

  /** Ties go to the even neighbour in Python's `round`. */
  lemma {:induction false} TiesToEven(x: real)
    requires HalfEven(x) as real - x == 0.5 || HalfEven(x) as real - x == -0.5
    ensures HalfEven(x) % 2 == 0
  {
    var f := x.Floor;
    assert x - f as real == 0.5;
  }

  /** And away from zero in `ROUND_HALF_UP`. */
  lemma {:induction false} TiesAway(x: real)
    ensures HalfUp(x) as real - x == 0.5 ==> x > 0.0
    ensures HalfUp(x) as real - x == -0.5 ==> x < 0.0
  {
  }

  /** `n` steps of a grid with `p` points per unit. */
  function Steps(n: int, p: real): real
    requires p > 0.0
  {
    n as real / p
  }

  ghost predicate IsMultiple(x: real, p: real)
    requires p > 0.0
  {
    exists n :: x == Steps(n, p)
  }

  /** The points of a grid are the whole multiples of its step. */
  lemma {:induction false} GridPoints(x: real, p: real)
    requires p > 0.0
    ensures ToGrid(x, p) == x <==> IsMultiple(x, p)
    ensures HalfEven(x) as real == x <==> x == x.Floor as real
  {
    if ToGrid(x, p) == x {
      assert x == Steps(HalfUp(Product(x, p)), p);
    }
    if n :| x == Steps(n, p) {
      ToGridPoint(n, p);
    }
    HalfEvenInteger(x.Floor);
  }
}
