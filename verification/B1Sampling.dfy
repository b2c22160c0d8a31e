/** The pure-Python column sampler of the B.1 engine: numeric draws clipped to the observed range,
    and category weights that similarity pulls between the observed frequencies and uniform. Random
    draws are inputs constrained only by their documented ranges. */
module B1Sampling {
  import opened Reals
  import opened Rounding

  // ---------------------------------------------------------------- numeric columns

  datatype Grid = Integers | Places(scale: nat) | Reals

  datatype NumericProfile = NumericProfile(lo: real, hi: real, observed: seq<real>, grid: Grid)

  /** One iteration's random numbers: an index into the observed values, a number from [0, 1), and a
      number from [lo, hi]. */
  datatype Draw = Draw(pick: nat, unit: real, uniform: real)

  predicate PickOk(p: NumericProfile, d: Draw) { p.observed != [] ==> d.pick < |p.observed| }

  predicate DrawOk(p: NumericProfile, d: Draw) {
    PickOk(p, d) && 0.0 <= d.unit < 1.0 && (p.lo <= p.hi ==> p.lo <= d.uniform <= p.hi)
  }

  function Coerce(g: Grid, x: real): real {
    match g
    case Integers => HalfEven(x) as real
    case Places(scale) => ToGridEven(x, Pow10(scale))
    case Reals => x
  }

  function HalfStep(g: Grid): real {
    match g
    case Integers => 0.5
    case Places(scale) => 0.5 / Pow10(scale)
    case Reals => 0.0
  }

  function Clip(x: real, lo: real, hi: real): real {
    var y := if x > lo then x else lo;
    if y < hi then y else hi
  }

  lemma {:induction false} CoerceFacts(g: Grid, x: real, y: real)
    ensures x - HalfStep(g) <= Coerce(g, x) <= x + HalfStep(g)
    ensures x <= y ==> Coerce(g, x) <= Coerce(g, y)
  {
    match g
    case Integers => HalfEvenFacts(x, y);
    case Places(scale) =>
      ToGridEvenNear(x, Pow10(scale));
      if x <= y {
        ToGridEvenMonotone(x, y, Pow10(scale));
      }
    case Reals =>
  }

  /** A value within half a grid step of the observed range, and inside it when the observed bounds
      are on the grid themselves. */
  predicate InRange(p: NumericProfile, x: real) {
    && p.lo - HalfStep(p.grid) <= x <= p.hi + HalfStep(p.grid)
    && (Coerce(p.grid, p.lo) == p.lo && Coerce(p.grid, p.hi) == p.hi ==> p.lo <= x <= p.hi)
  }

  /** One draw: anchored at an observed value, jittered and mixed with a uniform draw, clipped and
      put on the grid. */
  function SampleNumeric(p: NumericProfile, d: Draw, similarity: real): real
    requires PickOk(p, d)
  {
    Coerce(p.grid,
           if p.hi <= p.lo then p.lo
           else if p.observed == [] then d.uniform
           else Clip(Mixed(p.observed[d.pick], Product(d.unit - 0.5, p.hi - p.lo), d.uniform, similarity), p.lo, p.hi))
  }

  function Mixed(anchor: real, jitter: real, uniform: real, s: real): real {
    Product(s, anchor + Product(jitter, 1.0 - s)) + Product(1.0 - s, uniform)
  }

  method NumericPython(p: NumericProfile, draws: seq<Draw>, similarity: real) returns (out: seq<real>)
    requires forall i :: 0 <= i < |draws| ==> PickOk(p, draws[i])
    ensures |out| == |draws| && forall i :: 0 <= i < |out| ==> out[i] == SampleNumeric(p, draws[i], similarity)
  {
    out := [];
    var spread := p.hi - p.lo;
    for i := 0 to |draws|
      invariant |out| == i && forall j :: 0 <= j < i ==> out[j] == SampleNumeric(p, draws[j], similarity)
    {
      var d := draws[i];
      var v: real;
      if p.hi <= p.lo {
        v := p.lo;
      } else if p.observed != [] {
        var anchored := p.observed[d.pick];
        var jitter := Product(Product(d.unit - 0.5, spread), 1.0 - similarity);
        v := Product(similarity, anchored + jitter) + Product(1.0 - similarity, d.uniform);
        v := Clip(v, p.lo, p.hi);
      } else {
        v := d.uniform;
      }
      out := out + [Coerce(p.grid, v)];
    }
  }

  /** Whatever the draws, a sampled number is in the observed range, up to rounding. */
  lemma {:induction false} SampledInRange(p: NumericProfile, d: Draw, similarity: real)
    requires p.lo <= p.hi && DrawOk(p, d)
    ensures InRange(p, SampleNumeric(p, d, similarity))
  {
    var v := if p.hi <= p.lo then p.lo
             else if p.observed == [] then d.uniform
             else Clip(Mixed(p.observed[d.pick], Product(d.unit - 0.5, p.hi - p.lo), d.uniform, similarity), p.lo, p.hi);
    CoerceFacts(p.grid, v, p.hi);
    CoerceFacts(p.grid, p.lo, v);
  }

  lemma {:induction false} MixedOffset(a: real, w: real, u: real, s: real)
    ensures Mixed(a, w, u, s) - a == Product(1.0 - s, Product(s, w) + u - a)
  {
  }

  /** A product with a factor in [-c, c] is that close to zero. */
  lemma {:induction false} ProductWithin(t: real, x: real, c: real)
    requires t >= 0.0 && -c <= x <= c
    ensures -Product(t, c) <= Product(t, x) <= Product(t, c)
  {
    assert Product(t, c - x) == Product(t, c) - Product(t, x);
    assert Product(t, c + x) == Product(t, c) + Product(t, x);
  }

  /** The mix of a jittered anchor and a uniform draw is near the anchor. */
  lemma {:induction false} MixedNear(a: real, w: real, u: real, s: real, gap: real)
    requires 0.0 <= s <= 1.0 && -0.5 * gap <= w <= 0.5 * gap && -gap <= u - a <= gap
    ensures var reach := Product(1.0 - s, 1.5 * gap); a - reach <= Mixed(a, w, u, s) <= a + reach
  {
    var h := 0.5 * gap;
    ProductWithin(s, w, h);
    BelowWhole(s, h);
    MixedOffset(a, w, u, s);
    ProductWithin(1.0 - s, Product(s, w) + u - a, 1.5 * gap);
  }

  lemma {:induction false} BelowWhole(s: real, h: real)
    requires s <= 1.0 && h >= 0.0
    ensures Product(s, h) <= h
  {
    assert Product(1.0 - s, h) == h - Product(s, h);
  }

  /** The mix moves with the anchor, the jitter and the uniform draw at fixed rates, and agrees with
      the anchor when nothing pulls it away. */
  lemma {:induction false} MixedRates(a: real, w: real, u: real, x: real, s: real)
    ensures Mixed(a, 0.0, a, s) == a
    ensures Mixed(a + x, w, u, s) - Mixed(a, w, u, s) == Product(s, x)
    ensures Mixed(a, w, u + x, s) - Mixed(a, w, u, s) == Product(1.0 - s, x)
    ensures Mixed(a, w + x, u, s) - Mixed(a, w, u, s) == Product(s, Product(1.0 - s, x))
  {
  }

  /** `c` is the point of the range nearest to `x`. */
  predicate NearestTo(c: real, x: real, lo: real, hi: real) {
    lo <= c <= hi && (x < lo ==> c == lo) && (x > hi ==> c == hi) && (lo <= x <= hi ==> c == x)
  }

  /** A degenerate range gives its only value, a range without observations a uniform draw, any other
      the point of the range nearest to the mix; then the grid. */
  lemma {:induction false} SampledMeans(p: NumericProfile, d: Draw, s: real, c: real)
    requires PickOk(p, d)
    ensures p.hi <= p.lo ==> SampleNumeric(p, d, s) == Coerce(p.grid, p.lo)
    ensures p.lo < p.hi && p.observed == [] ==> SampleNumeric(p, d, s) == Coerce(p.grid, d.uniform)
    ensures p.lo < p.hi && p.observed != []
            && NearestTo(c, Mixed(p.observed[d.pick], Product(d.unit - 0.5, p.hi - p.lo), d.uniform, s), p.lo, p.hi) ==>
              SampleNumeric(p, d, s) == Coerce(p.grid, c)
  {
  }

  /** On a decimal grid the nearest point is taken, the even one on ties. */
  lemma {:induction false} CoercePlaces(scale: nat, x: real)
    ensures var n := HalfEven(Product(x, Pow10(scale))); Coerce(Places(scale), x) == Steps(n, Pow10(scale))
    ensures Coerce(Integers, x) == HalfEven(x) as real && Coerce(Reals, x) == x
  {
  }

  /** Similarity anchors a draw at its observed value: it is never further away than one and a half
      times the observed spread, scaled by what similarity is short of 1, up to rounding. At
      similarity 1 the observed values are resampled. */
  lemma {:induction false} SampledNearObserved(p: NumericProfile, d: Draw, s: real)
    requires p.lo < p.hi && p.observed != [] && DrawOk(p, d) && 0.0 <= s <= 1.0
    requires p.lo <= p.observed[d.pick] <= p.hi
    ensures var a, reach := p.observed[d.pick], Product(1.0 - s, 1.5 * (p.hi - p.lo)) + HalfStep(p.grid);
            a - reach <= SampleNumeric(p, d, s) <= a + reach
    ensures s == 1.0 ==> SampleNumeric(p, d, s) == Coerce(p.grid, p.observed[d.pick])
  {
    var a, gap := p.observed[d.pick], p.hi - p.lo;
    var w := Product(d.unit - 0.5, gap);
    JitterWithin(d.unit, gap);
    MixedNear(a, w, d.uniform, s, gap);
    AtFullSimilarity(a, w, d.uniform, s);
    var v := Clip(Mixed(a, w, d.uniform, s), p.lo, p.hi);
    CoerceFacts(p.grid, v, v);
  }

  lemma {:induction false} JitterWithin(unit: real, gap: real)
    requires 0.0 <= unit < 1.0 && gap > 0.0
    ensures -0.5 * gap <= Product(unit - 0.5, gap) <= 0.5 * gap
  {
    ProductWithin(gap, unit - 0.5, 0.5);
    assert Product(unit - 0.5, gap) == Product(gap, unit - 0.5);
  }

  lemma {:induction false} AtFullSimilarity(a: real, w: real, u: real, s: real)
    ensures s == 1.0 ==> Mixed(a, w, u, s) == a
  {
  }

  // ---------------------------------------------------------------- category weights

  function Total(counts: seq<nat>): nat { if counts == [] then 0 else counts[0] + Total(counts[1..]) }

  function Weight(count: nat, total: nat, k: nat, similarity: real): real
    requires total > 0 && k > 0
  {
    Product(similarity, count as real / total as real) + Product(1.0 - similarity, 1.0 / k as real)
  }

  /** `_categorical_python`'s weights. */
  function CategoryWeights(counts: seq<nat>, similarity: real): (ws: seq<real>)
    requires Total(counts) > 0
    ensures |ws| == |counts|
    ensures forall i :: 0 <= i < |counts| ==> ws[i] == Weight(counts[i], Total(counts), |counts|, similarity)
  {
    assert counts != [];
    seq(|counts|, i requires 0 <= i < |counts| => Weight(counts[i], Total(counts), |counts|, similarity))
  }

  function PartialWeights(counts: seq<nat>, total: nat, k: nat, similarity: real): (ws: seq<real>)
    requires total > 0 && k > 0
    ensures |ws| == |counts| && forall i :: 0 <= i < |counts| ==> ws[i] == Weight(counts[i], total, k, similarity)
  {
    if counts == [] then [] else [Weight(counts[0], total, k, similarity)] + PartialWeights(counts[1..], total, k, similarity)
  }

  lemma {:induction false} Blend(a: real, b: real, c: real, d: real, s: real)
    ensures (Product(s, a) + Product(1.0 - s, b)) + (Product(s, c) + Product(1.0 - s, d))
            == Product(s, a + c) + Product(1.0 - s, b + d)
  {
  }

  lemma {:induction false} PartialSum(counts: seq<nat>, total: nat, k: nat, s: real)
    requires total > 0 && k > 0
    ensures Sum(PartialWeights(counts, total, k, s))
            == Product(s, Total(counts) as real / total as real) + Product(1.0 - s, |counts| as real / k as real)
  {
    var t, n := total as real, k as real;
    if counts == [] {
      assert Product(Quotient(0.0, t), t) == 0.0 && Product(Quotient(0.0, n), n) == 0.0;
    } else {
      PartialSum(counts[1..], total, k, s);
      var ws := PartialWeights(counts, total, k, s);
      assert ws[1..] == PartialWeights(counts[1..], total, k, s);
      var a, c := counts[0] as real, Total(counts[1..]) as real;
      var d := |counts[1..]| as real;
      QuotientSum(a, c, t);
      QuotientSum(1.0, d, n);
      Blend(a / t, 1.0 / n, c / t, d / n, s);
      assert ws[0] == Product(s, a / t) + Product(1.0 - s, 1.0 / n);
    }
  }

  lemma {:induction false} ShareNonNegative(n: nat, t: real)
    requires t > 0.0
    ensures n as real / t >= 0.0
  {
    QuotientOrder(0.0, n as real, t);
    assert Product(Quotient(0.0, t), t) == 0.0;
  }

  lemma {:induction false} WeightNonNegative(count: nat, total: nat, k: nat, s: real)
    requires total > 0 && k > 0 && 0.0 <= s <= 1.0
    ensures Weight(count, total, k, s) >= 0.0
  {
    ShareNonNegative(count, total as real);
    ShareNonNegative(1, k as real);
  }

  lemma {:induction false} OneWhole(s: real)
    ensures Product(s, 1.0) + Product(1.0 - s, 1.0) == 1.0
  {
  }

  lemma {:induction false} WeightsSum(counts: seq<nat>, s: real)
    requires Total(counts) > 0
    ensures Sum(CategoryWeights(counts, s)) == 1.0
  {
    var t, k := Total(counts), |counts|;
    assert CategoryWeights(counts, s) == PartialWeights(counts, t, k, s);
    PartialSum(counts, t, k, s);
    QuotientSelf(t as real);
    QuotientSelf(k as real);
    OneWhole(s);
  }

  /** For every similarity in [0, 1] the weights are a distribution. */
  lemma {:induction false} WeightsDistribution(counts: seq<nat>, s: real)
    requires Total(counts) > 0 && 0.0 <= s <= 1.0
    ensures Sum(CategoryWeights(counts, s)) == 1.0
    ensures forall i :: 0 <= i < |counts| ==> CategoryWeights(counts, s)[i] >= 0.0
  {
    WeightsSum(counts, s);
    forall i | 0 <= i < |counts|
      ensures CategoryWeights(counts, s)[i] >= 0.0
    {
      WeightNonNegative(counts[i], Total(counts), |counts|, s);
    }
  }

  /** More frequent categories never weigh less. */
  lemma {:induction false} WeightsOrder(counts: seq<nat>, s: real, i: nat, j: nat)
    requires Total(counts) > 0 && 0.0 <= s <= 1.0 && i < |counts| && j < |counts| && counts[i] <= counts[j]
    ensures CategoryWeights(counts, s)[i] <= CategoryWeights(counts, s)[j]
  {
    var t := Total(counts) as real;
    var a, b := counts[i] as real / t, counts[j] as real / t;
    QuotientOrder(counts[i] as real, counts[j] as real, t);
    assert Product(s, b - a) == Product(s, b) - Product(s, a);
  }

  function Distance(x: real, y: real): real { if x < y then y - x else x - y }

  /** A weight's signed distance to uniform is the frequency's, scaled by the similarity. */
  lemma {:induction false} WeightOffset(s: real, e: real, u: real)
    ensures Product(s, e) + Product(1.0 - s, u) - u == Product(s, e - u)
  {
  }

  lemma {:induction false} ScaledDistance(s: real, s': real, d: real)
    requires 0.0 <= s <= s'
    ensures d >= 0.0 ==> 0.0 <= Product(s, d) <= Product(s', d)
    ensures d <= 0.0 ==> Product(s', d) <= Product(s, d) <= 0.0
  {
    assert Product(s' - s, d) == Product(s', d) - Product(s, d);
  }

  /** Falling similarity only moves a weight towards uniform. */
  lemma {:induction false} WeightsFlatten(counts: seq<nat>, s: real, s': real, i: nat)
    requires Total(counts) > 0 && 0.0 <= s <= s' <= 1.0 && i < |counts|
    ensures Distance(CategoryWeights(counts, s)[i], 1.0 / |counts| as real)
            <= Distance(CategoryWeights(counts, s')[i], 1.0 / |counts| as real)
  {
    var u := 1.0 / |counts| as real;
    var e := counts[i] as real / Total(counts) as real;
    WeightOffset(s, e, u);
    WeightOffset(s', e, u);
    ScaledDistance(s, s', e - u);
  }

  /** A weight goes in a straight line from uniform, at similarity 0, to the frequency, at 1. */
  lemma {:induction false} WeightsLine(counts: seq<nat>, s: real, i: nat)
    requires Total(counts) > 0 && i < |counts|
    ensures var u := 1.0 / |counts| as real;
            && CategoryWeights(counts, 1.0)[i] == counts[i] as real / Total(counts) as real
            && CategoryWeights(counts, 0.0)[i] == u
            && CategoryWeights(counts, s)[i] - u == Product(s, CategoryWeights(counts, 1.0)[i] - u)
  {
    var u := 1.0 / |counts| as real;
    WeightOffset(s, counts[i] as real / Total(counts) as real, u);
  }

  /** The total is the sum of the counts. */
  lemma {:induction false} TotalParts(a: seq<nat>, b: seq<nat>)
    ensures Total(a + b) == Total(a) + Total(b) && forall n: nat :: Total([n]) == n
  {
    if a == [] {
      assert a + b == b;
    } else {
      assert (a + b)[1..] == a[1..] + b;
      TotalParts(a[1..], b);
    }
  }
}
