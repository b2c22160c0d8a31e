/** `_PyExactIPIndex`: exact top-k search by inner product over normalised vectors.
    Arithmetic is over the reals; the square root is any function with the square root's law. */
module VectorIndex {
  import opened Reals
  import Sorting

  type Vector = seq<real>

  datatype SearchResult = Found(ids: seq<nat>) | Released

  /** `zip(..., strict=False)`: the shorter vector decides. */
  function Dot(a: Vector, b: Vector): real {
    if a == [] || b == [] then 0.0 else a[0] * b[0] + Dot(a[1..], b[1..])
  }

  /** The products coordinate by coordinate, up to the length of the shorter vector. */
  function Products(a: Vector, b: Vector): (ps: seq<real>)
    ensures |ps| == (if |a| < |b| then |a| else |b|) && forall i :: 0 <= i < |ps| ==> ps[i] == a[i] * b[i]
  {
    seq(if |a| < |b| then |a| else |b|, i requires 0 <= i < |a| && i < |b| => a[i] * b[i])
  }

  lemma {:induction false} ProductsTail(a: Vector, b: Vector)
    requires a != [] && b != []
    ensures Products(a, b) != [] && Products(a, b)[0] == a[0] * b[0]
    ensures Products(a, b)[1..] == Products(a[1..], b[1..])
  {
    var ps, later := Products(a, b), Products(a[1..], b[1..]);
    forall i | 0 <= i < |later|
      ensures ps[1..][i] == later[i]
    {
      assert ps[1..][i] == ps[i + 1] && a[i + 1] == a[1..][i] && b[i + 1] == b[1..][i];
    }
  }

  /** The inner product is the sum of the products of the coordinates. */
  lemma {:induction false} DotIsSum(a: Vector, b: Vector)
    ensures Dot(a, b) == Sum(Products(a, b))
  {
    if a != [] && b != [] {
      DotIsSum(a[1..], b[1..]);
      ProductsTail(a, b);
    }
  }

  ghost predicate IsSqrt(sqrt: real -> real) {
    forall x: real {:trigger sqrt(x)} :: x >= 0.0 ==> sqrt(x) >= 0.0 && sqrt(x) * sqrt(x) == x
  }

  function Scale(v: Vector, d: real): (r: Vector)
    requires d != 0.0
    ensures |r| == |v|
  {
    if v == [] then [] else [v[0] / d] + Scale(v[1..], d)
  }

  function Normalize(v: Vector, sqrt: real -> real): (r: Vector)
    ensures |r| == |v|
  {
    var norm := sqrt(Dot(v, v));
    if norm == 0.0 then v else Scale(v, norm)
  }

  function NormalizeAll(vs: seq<Vector>, sqrt: real -> real): (r: seq<Vector>)
    ensures |r| == |vs| && forall i :: 0 <= i < |vs| ==> r[i] == Normalize(vs[i], sqrt)
  {
    if vs == [] then [] else [Normalize(vs[0], sqrt)] + NormalizeAll(vs[1..], sqrt)
  }

  // ---------------------------------------------------------------- ranking

  datatype Scored = Scored(score: real, id: nat)

  /** Descending score, then ascending index. */
  predicate RankLe(a: Scored, b: Scored) {
    a.score > b.score || (a.score == b.score && a.id <= b.id)
  }

  function ScoreAll(vectors: seq<Vector>, q: Vector): (s: seq<Scored>)
    ensures |s| == |vectors| && forall i :: 0 <= i < |vectors| ==> s[i] == Scored(Dot(vectors[i], q), i)
  {
    seq(|vectors|, i requires 0 <= i < |vectors| => Scored(Dot(vectors[i], q), i))
  }

  function Ids(s: seq<Scored>): (ids: seq<nat>)
    ensures |ids| == |s| && forall i :: 0 <= i < |s| ==> ids[i] == s[i].id
  {
    seq(|s|, i requires 0 <= i < |s| => s[i].id)
  }

  /** The `k` best of the stored (already normalised) vectors for a normalised query. */
  function TopK(vectors: seq<Vector>, q: Vector, k: int): seq<nat> {
    if k <= 0 then []
    else
      var ranked := Sorting.Sort(ScoreAll(vectors, q), RankLe);
      Ids(ranked[..if k < |ranked| then k else |ranked|])
  }

  class PyExactIPIndex {
    const dim: nat
    const sqrt: real -> real
    var vectors: seq<Vector>
    var released: bool

    constructor (vectors: seq<Vector>, dim: nat, sqrt: real -> real)
      ensures this.dim == dim && this.sqrt == sqrt && !released
      ensures this.vectors == NormalizeAll(vectors, sqrt)
    {
      this.dim := dim;
      this.sqrt := sqrt;
      this.vectors := NormalizeAll(vectors, sqrt);
      released := false;
    }

    method Search(query: Vector, k: int) returns (r: SearchResult)
      ensures r == if released then Released else Found(TopK(vectors, Normalize(query, sqrt), k))
    {
      if released {
        return Released;
      }
      if vectors == [] || k <= 0 {
        assert k > 0 ==> |TopK(vectors, Normalize(query, sqrt), k)| == 0;
        return Found([]);
      }
      var q := Normalize(query, sqrt);
      var scored: seq<Scored> := [];
      for idx := 0 to |vectors|
        invariant scored == ScoreAll(vectors, q)[..idx]
      {
        scored := scored + [Scored(Dot(vectors[idx], q), idx)];
      }
      assert scored == ScoreAll(vectors, q);
      scored := Sorting.Sort(scored, RankLe);
      var n := if k < |scored| then k else |scored|;
      var ids: seq<nat> := [];
      for i := 0 to n
        invariant ids == Ids(scored[..i])
      {
        ids := ids + [scored[i].id];
      }
      assert scored[..n] == scored[..if k < |scored| then k else |scored|];
      return Found(ids);
    }

    method Release()
      modifies this
      ensures released && vectors == []
    {
      vectors := [];
      released := true;
    }
  }

  // ---------------------------------------------------------------- the ranking is unique

  lemma {:induction false} RankIsTotal()
    ensures Sorting.TotalPreorder(RankLe) && Sorting.Antisymmetric(RankLe)
  {
  }

  function ScoredAt(vectors: seq<Vector>, q: Vector, i: nat): Scored
    requires i < |vectors|
  {
    Scored(Dot(vectors[i], q), i)
  }

  /** Is `ids` a ranking: distinct rows, best first, with no better row left out? */
  ghost predicate IsTopK(vectors: seq<Vector>, q: Vector, ids: seq<nat>) {
    && (forall i :: 0 <= i < |ids| ==> ids[i] < |vectors|)
    && (forall i, j :: 0 <= i < j < |ids| ==>
          ids[i] != ids[j] && RankLe(ScoredAt(vectors, q, ids[i]), ScoredAt(vectors, q, ids[j])))
    && (forall i, m :: 0 <= i < |ids| && 0 <= m < |vectors| && m !in ids ==>
          RankLe(ScoredAt(vectors, q, ids[i]), ScoredAt(vectors, q, m)))
  }

  lemma {:induction false} RankedRows(vectors: seq<Vector>, q: Vector)
    ensures var s := Sorting.Sort(ScoreAll(vectors, q), RankLe);
            && Sorting.Ordered(s, RankLe)
            && (forall i :: 0 <= i < |s| ==> s[i].id < |vectors| && s[i] == ScoredAt(vectors, q, s[i].id))
            && (forall i, j :: 0 <= i < j < |s| ==> s[i].id != s[j].id)
            && (forall m :: 0 <= m < |vectors| ==> ScoredAt(vectors, q, m) in s)
  {
    var all := ScoreAll(vectors, q);
    var s := Sorting.Sort(all, RankLe);
    RankIsTotal();
    Sorting.SortOrdered(all, RankLe);
    forall i | 0 <= i < |s|
      ensures s[i].id < |vectors| && s[i] == ScoredAt(vectors, q, s[i].id)
    {
      assert s[i] in multiset(all);
    }
    forall m | 0 <= m < |vectors|
      ensures ScoredAt(vectors, q, m) in s
    {
      assert all[m] in multiset(s);
    }
    forall i, j | 0 <= i < j < |s|
      ensures s[i].id != s[j].id
    {
      DistinctIds(all, s, i, j);
    }
  }

  lemma {:induction false} DistinctIds(all: seq<Scored>, s: seq<Scored>, i: nat, j: nat)
    requires multiset(s) == multiset(all) && i < j < |s|
    requires forall m :: 0 <= m < |all| ==> all[m].id == m
    ensures s[i].id != s[j].id
  {
    var m, m' := Sorting.TwoPlaces(all, s, i, j);
  }

  lemma {:induction false} IdsCover(s: seq<Scored>, n: nat, j: nat)
    requires n <= |s| && j < |s|
    ensures j < n ==> s[j].id in Ids(s[..n])
  {
    if j < n {
      assert Ids(s[..n])[j] == s[j].id;
    }
  }

  /** The search returns min(k, N) rows and they are a ranking. */
  lemma {:induction false} TopKIsTopK(vectors: seq<Vector>, q: Vector, k: int)
    ensures |TopK(vectors, q, k)| == if k <= 0 then 0 else if k < |vectors| then k else |vectors|
    ensures IsTopK(vectors, q, TopK(vectors, q, k))
  {
    RankedRows(vectors, q);
    if k > 0 {
      var s := Sorting.Sort(ScoreAll(vectors, q), RankLe);
      var ids := TopK(vectors, q, k);
      forall i, m | 0 <= i < |ids| && 0 <= m < |vectors| && m !in ids
        ensures RankLe(ScoredAt(vectors, q, ids[i]), ScoredAt(vectors, q, m))
      {
        var j :| 0 <= j < |s| && s[j] == ScoredAt(vectors, q, m);
        assert j >= |ids| by { IdsCover(s, |ids|, j); }
      }
    }
  }

  /** There is only one ranking of each length. */
  lemma {:induction false} TopKUnique(vectors: seq<Vector>, q: Vector, a: seq<nat>, b: seq<nat>)
    requires |a| == |b| && IsTopK(vectors, q, a) && IsTopK(vectors, q, b)
    ensures a == b
  {
    if i :| 0 <= i < |a| && a[i] != b[i] && a[..i] == b[..i] {
      FirstDifference(vectors, q, a, b, i);
      FirstDifference(vectors, q, b, a, i);
      RankIsTotal();
      assert false;
    } else {
      SamePrefixes(a, b, |a|);
    }
  }

  lemma {:induction false} SamePrefixes(a: seq<nat>, b: seq<nat>, n: nat)
    requires n <= |a| == |b|
    requires !exists i :: 0 <= i < |a| && a[i] != b[i] && a[..i] == b[..i]
    ensures a[..n] == b[..n] && (n == |a| ==> a == b)
  {
    if n > 0 {
      SamePrefixes(a, b, n - 1);
      assert a[..n] == a[..n - 1] + [a[n - 1]] && b[..n] == b[..n - 1] + [b[n - 1]];
    }
  }

  lemma {:induction false} FirstDifference(vectors: seq<Vector>, q: Vector, a: seq<nat>, b: seq<nat>, i: nat)
    requires i < |a| == |b| && a[..i] == b[..i]
    requires IsTopK(vectors, q, a) && IsTopK(vectors, q, b)
    ensures RankLe(ScoredAt(vectors, q, a[i]), ScoredAt(vectors, q, b[i]))
  {
    assert forall j :: 0 <= j < i ==> a[j] == a[..i][j] == b[..i][j] == b[j];
    if b[i] in a {
      var j :| 0 <= j < |a| && a[j] == b[i];
      assert j >= i;
    }
  }

  /** Asking for one row more keeps the rows found and adds at the end. */
  lemma {:induction false} TopKPrefix(vectors: seq<Vector>, q: Vector, k: nat)
    ensures TopK(vectors, q, k) <= TopK(vectors, q, k + 1)
  {
  }

  // ---------------------------------------------------------------- unit vectors

  lemma {:induction false} SquareOfQuotient(a: real, d: real, dd: real)
    requires d != 0.0 && dd == d * d
    ensures (a / d) * (a / d) * dd == a * a
  {
    var x := a / d;
    assert x * d == a;
    assert x * x * dd == (x * d) * (x * d);
  }

  lemma {:induction false} DotScale(a: Vector, d: real, dd: real)
    requires d != 0.0 && dd == d * d
    ensures Dot(Scale(a, d), Scale(a, d)) * dd == Dot(a, a)
  {
    if a != [] {
      DotScale(a[1..], d, dd);
      SquareOfQuotient(a[0], d, dd);
      var r := Scale(a, d);
      assert r[1..] == Scale(a[1..], d);
      var x, t := r[0] * r[0], Dot(r[1..], r[1..]);
      assert (x + t) * dd == x * dd + t * dd;
    }
  }

  /** Cauchy-Schwarz in the form needed: the squared distance of two vectors of one length. */
  lemma {:induction false} SquaredDistance(a: Vector, b: Vector)
    requires |a| == |b|
    ensures Dot(a, a) + Dot(b, b) - 2.0 * Dot(a, b) >= 0.0
    ensures Dot(a, a) + Dot(b, b) - 2.0 * Dot(a, b) == 0.0 ==> a == b
  {
    if a != [] {
      SquaredDistance(a[1..], b[1..]);
      var x, y := a[0], b[0];
      assert Square(x - y) == x * x + y * y - 2.0 * (x * y);
      if Dot(a, a) + Dot(b, b) - 2.0 * Dot(a, b) == 0.0 {
        assert Square(x - y) == 0.0;
        assert a == [x] + a[1..] && b == [y] + b[1..];
      }
    }
  }

  lemma {:induction false} DotSelf(a: Vector)
    ensures Dot(a, a) >= 0.0
    ensures Dot(a, a) == 0.0 ==> forall i :: 0 <= i < |a| ==> a[i] == 0.0
  {
    if a != [] {
      DotSelf(a[1..]);
      assert Dot(a, a) == Square(a[0]) + Dot(a[1..], a[1..]);
      if Dot(a, a) == 0.0 {
        assert Square(a[0]) == 0.0;
        assert forall i :: 0 < i < |a| ==> a[i] == a[1..][i - 1];
      }
    }
  }

  predicate Zero(v: Vector) { forall i :: 0 <= i < |v| ==> v[i] == 0.0 }

  lemma {:induction false} DotZero(v: Vector, q: Vector)
    requires Zero(v)
    ensures Dot(v, q) == 0.0
  {
    if v != [] && q != [] {
      DotZero(v[1..], q[1..]);
    }
  }

  lemma {:induction false} QuotientIsOne(u: real, s: real, t: real)
    requires u * s == t && s == t && s != 0.0
    ensures u == 1.0
  {
    assert Product(u - 1.0, s) == t - s && Product(1.0 - u, s) == s - t;
  }

  lemma {:induction false} NormalizeLength(v: Vector, sqrt: real -> real)
    requires IsSqrt(sqrt)
    ensures var u := Normalize(v, sqrt);
            if Zero(v) then u == v && Dot(u, u) == 0.0 else Dot(u, u) == 1.0
  {
    DotSelf(v);
    var s := Dot(v, v);
    var norm := sqrt(s);
    assert Square(norm) == s;
    if Zero(v) {
      DotZero(v, v);
    } else {
      assert s != 0.0;
      assert norm != 0.0;
      DotScale(v, norm, s);
      var u := Dot(Scale(v, norm), Scale(v, norm));
      assert u * s == Dot(v, v);
      QuotientIsOne(u, s, Dot(v, v));
    }
  }

  /** Normalising divides every coordinate by one number that is not negative, the root of the
      squared length. */
  lemma {:induction false} NormalizeDirection(v: Vector, sqrt: real -> real, i: nat)
    requires IsSqrt(sqrt) && i < |v|
    ensures var norm := sqrt(Sum(Products(v, v)));
            norm >= 0.0 && (norm != 0.0 ==> Product(Normalize(v, sqrt)[i], norm) == v[i])
  {
    DotIsSum(v, v);
    DotSelf(v);
    var norm := sqrt(Dot(v, v));
    if norm != 0.0 {
      ScaleAt(v, norm, i);
      assert Product(Quotient(v[i], norm), norm) == v[i];
    }
  }

  lemma {:induction false} ScaleAt(v: Vector, d: real, i: nat)
    requires d != 0.0 && i < |v|
    ensures Scale(v, d)[i] == v[i] / d
  {
    if i > 0 {
      ScaleAt(v[1..], d, i - 1);
    }
  }

  /** No stored row scores above 1 against a unit query, and only the rows equal to it score 1. */
  lemma {:induction false} UnitScore(v: Vector, q: Vector, sqrt: real -> real)
    requires IsSqrt(sqrt) && |v| == |q| && Dot(q, q) == 1.0
    ensures var u := Normalize(v, sqrt); Dot(u, q) <= 1.0 && (Dot(u, q) == 1.0 <==> u == q)
  {
    NormalizeLength(v, sqrt);
    SquaredDistance(Normalize(v, sqrt), q);
  }

  /** The nearest neighbour of a stored row: the search with a stored non-zero row as its query
      starts with the first row that points the same way. */
  lemma {:induction false} NearestIsSelf(rows: seq<Vector>, dim: nat, j: nat, k: int, sqrt: real -> real)
    requires IsSqrt(sqrt) && j < |rows| && !Zero(rows[j]) && k >= 1
    requires forall i :: 0 <= i < |rows| ==> |rows[i]| == dim
    ensures var vs := NormalizeAll(rows, sqrt);
            var ids := TopK(vs, Normalize(rows[j], sqrt), k);
            && ids != [] && ids[0] <= j && vs[ids[0]] == vs[j]
            && forall i :: 0 <= i < ids[0] ==> vs[i] != vs[j]
  {
    var vs := NormalizeAll(rows, sqrt);
    var q := vs[j];
    var ids := TopK(vs, q, k);
    NormalizeLength(rows[j], sqrt);
    TopKIsTopK(vs, q, k);
    forall i | 0 <= i < |vs|
      ensures Dot(vs[i], q) <= 1.0 && (Dot(vs[i], q) == 1.0 <==> vs[i] == q)
    {
      UnitScore(rows[i], q, sqrt);
    }
    forall i | 0 <= i < |vs|
      ensures RankLe(ScoredAt(vs, q, ids[0]), ScoredAt(vs, q, i))
    {
      if i in ids {
        var p :| 0 <= p < |ids| && ids[p] == i;
      }
    }
    assert RankLe(ScoredAt(vs, q, ids[0]), ScoredAt(vs, q, j));
    forall i | 0 <= i < ids[0]
      ensures vs[i] != vs[j]
    {
      assert RankLe(ScoredAt(vs, q, ids[0]), ScoredAt(vs, q, i));
    }
  }
}
