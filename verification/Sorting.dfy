/** A stable sort, as Python's `sorted` is one, and why its result is the only sorted arrangement
    when the order has no ties. */
module Sorting {

  function Insert<T>(x: T, xs: seq<T>, le: (T, T) -> bool): (r: seq<T>)
    ensures |r| == |xs| + 1
  {
    if xs == [] || le(x, xs[0]) then [x] + xs else [xs[0]] + Insert(x, xs[1..], le)
  }

  function Sort<T>(xs: seq<T>, le: (T, T) -> bool): (r: seq<T>)
    ensures |r| == |xs|
  {
    if xs == [] then [] else Insert(xs[0], Sort(xs[1..], le), le)
  }

  ghost predicate Ordered<T>(xs: seq<T>, le: (T, T) -> bool) {
    forall i, j :: 0 <= i < j < |xs| ==> le(xs[i], xs[j])
  }

  ghost predicate TotalPreorder<T(!new)>(le: (T, T) -> bool) {
    (forall x, y :: le(x, y) || le(y, x)) && (forall x, y, z :: le(x, y) && le(y, z) ==> le(x, z))
  }

  lemma {:induction false} InsertKeeps<T>(x: T, xs: seq<T>, le: (T, T) -> bool)
    ensures multiset(Insert(x, xs, le)) == multiset(xs) + multiset{x}
  {
    if xs == [] || le(x, xs[0]) {
    } else {
      InsertKeeps(x, xs[1..], le);
      assert xs == [xs[0]] + xs[1..];
    }
  }

  lemma {:induction false} InsertOrdered<T(!new)>(x: T, xs: seq<T>, le: (T, T) -> bool)
    requires TotalPreorder(le) && Ordered(xs, le)
    ensures Ordered(Insert(x, xs, le), le)
  {
    if xs == [] || le(x, xs[0]) {
    } else {
      var rest, r := xs[1..], Insert(x, xs[1..], le);
      InsertOrdered(x, rest, le);
      InsertKeeps(x, rest, le);
      forall j | 0 <= j < |r|
        ensures le(xs[0], r[j])
      {
        assert r[j] in multiset(r);
        if r[j] != x {
          assert r[j] in multiset(rest);
          var i :| 0 <= i < |rest| && rest[i] == r[j];
          assert le(xs[0], xs[i + 1]);
        }
      }
    }
  }

  lemma {:induction false} SortKeeps<T>(xs: seq<T>, le: (T, T) -> bool)
    ensures multiset(Sort(xs, le)) == multiset(xs)
  {
    if xs != [] {
      SortKeeps(xs[1..], le);
      InsertKeeps(xs[0], Sort(xs[1..], le), le);
      assert xs == [xs[0]] + xs[1..];
    }
  }

  lemma {:induction false} SortOrdered<T(!new)>(xs: seq<T>, le: (T, T) -> bool)
    requires TotalPreorder(le)
    ensures Ordered(Sort(xs, le), le)
    ensures multiset(Sort(xs, le)) == multiset(xs)
  {
    SortKeeps(xs, le);
    if xs != [] {
      SortOrdered(xs[1..], le);
      InsertOrdered(xs[0], Sort(xs[1..], le), le);
    }
  }

  ghost predicate Antisymmetric<T(!new)>(le: (T, T) -> bool) {
    forall x, y :: le(x, y) && le(y, x) ==> x == y
  }

  lemma {:induction false} FirstIsLeast<T(!new)>(xs: seq<T>, ys: seq<T>, le: (T, T) -> bool)
    requires TotalPreorder(le) && Ordered(ys, le)
    requires xs != [] && multiset(xs) == multiset(ys)
    ensures ys != [] && le(ys[0], xs[0])
  {
    assert xs[0] in multiset(ys);
    var i :| 0 <= i < |ys| && ys[i] == xs[0];
    assert le(ys[0], ys[0]);
  }

  /** Two ordered arrangements of the same elements are the same, when ties are equal. */
  lemma {:induction false} OrderedUnique<T(!new)>(xs: seq<T>, ys: seq<T>, le: (T, T) -> bool)
    requires TotalPreorder(le) && Antisymmetric(le)
    requires Ordered(xs, le) && Ordered(ys, le) && multiset(xs) == multiset(ys)
    ensures xs == ys
  {
    if xs == [] {
      assert |multiset(ys)| == 0;
    } else {
      FirstIsLeast(xs, ys, le);
      FirstIsLeast(ys, xs, le);
      SameTails(xs, ys);
      OrderedUnique(xs[1..], ys[1..], le);
      assert xs == [xs[0]] + xs[1..] && ys == [ys[0]] + ys[1..];
    }
  }

  lemma {:induction false} SameTails<T>(xs: seq<T>, ys: seq<T>)
    requires xs != [] && ys != [] && xs[0] == ys[0] && multiset(xs) == multiset(ys)
    ensures multiset(xs[1..]) == multiset(ys[1..])
  {
    DropFirst(xs);
    DropFirst(ys);
  }

  lemma {:induction false} DropFirst<T>(xs: seq<T>)
    requires xs != []
    ensures multiset(xs[1..]) == multiset(xs) - multiset{xs[0]}
  {
    assert xs == [xs[0]] + xs[1..];
  }

  // ---------------------------------------------------------------- rearranging

  lemma {:induction false} RemoveAt<T>(xs: seq<T>, p: nat)
    requires p < |xs|
    ensures multiset(xs[..p] + xs[p + 1..]) == multiset(xs) - multiset{xs[p]}
  {
    assert xs == xs[..p] + [xs[p]] + xs[p + 1..];
  }

  lemma {:induction false} OtherPlace<T>(xs: seq<T>, p: nat, x: T) returns (q: nat)
    requires p < |xs| && x in xs[..p] + xs[p + 1..]
    ensures q < |xs| && q != p && xs[q] == x
  {
    var rest := xs[..p] + xs[p + 1..];
    q :| 0 <= q < |rest| && rest[q] == x;
    q := if q < p then q else q + 1;
  }

  lemma {:induction false} LaterIsLeft<T>(ys: seq<T>, i: nat, j: nat)
    requires i < j < |ys|
    ensures ys[j] in multiset(ys[..i] + ys[i + 1..])
  {
    assert (ys[..i] + ys[i + 1..])[j - 1] == ys[j];
  }

  lemma {:induction false} PlaceOf<T>(xs: seq<T>, ys: seq<T>, i: nat) returns (p: nat)
    requires multiset(ys) == multiset(xs) && i < |ys|
    ensures p < |xs| && xs[p] == ys[i]
    ensures multiset(ys[..i] + ys[i + 1..]) == multiset(xs[..p] + xs[p + 1..])
  {
    assert ys[i] in multiset(xs);
    p :| 0 <= p < |xs| && xs[p] == ys[i];
    RemoveAt(xs, p);
    RemoveAt(ys, i);
  }

  /** Two places of a rearrangement are two places of the original. */
  lemma {:induction false} TwoPlaces<T>(xs: seq<T>, ys: seq<T>, i: nat, j: nat) returns (p: nat, q: nat)
    requires multiset(ys) == multiset(xs) && i < j < |ys|
    ensures p < |xs| && q < |xs| && p != q && xs[p] == ys[i] && xs[q] == ys[j]
  {
    p := PlaceOf(xs, ys, i);
    LaterIsLeft(ys, i, j);
    q := OtherPlace(xs, p, ys[j]);
  }

  function Map<A, B>(f: A -> B, xs: seq<A>): (ys: seq<B>)
    ensures |ys| == |xs| && forall i :: 0 <= i < |xs| ==> ys[i] == f(xs[i])
  {
    if xs == [] then [] else [f(xs[0])] + Map(f, xs[1..])
  }

  lemma {:induction false} MapWithout<A, B>(f: A -> B, ys: seq<A>, p: nat)
    requires p < |ys|
    ensures multiset(Map(f, ys)) == multiset(Map(f, ys[..p] + ys[p + 1..])) + multiset{f(ys[p])}
  {
    var fs, rest := Map(f, ys), ys[..p] + ys[p + 1..];
    var frest := fs[..p] + fs[p + 1..];
    assert |frest| == |rest|;
    forall i | 0 <= i < |rest|
      ensures frest[i] == Map(f, rest)[i]
    {
      assert rest[i] == if i < p then ys[i] else ys[i + 1];
    }
    assert frest == Map(f, rest);
    RemoveAt(fs, p);
    assert fs[p] in multiset(fs);
  }

  lemma {:induction false} FindFirst<T>(xs: seq<T>, ys: seq<T>) returns (p: nat)
    requires xs != [] && multiset(xs) == multiset(ys)
    ensures p < |ys| && ys[p] == xs[0]
    ensures multiset(xs[1..]) == multiset(ys[..p] + ys[p + 1..])
  {
    assert xs[0] in multiset(ys);
    p :| 0 <= p < |ys| && ys[p] == xs[0];
    RemoveAt(ys, p);
    assert xs == [xs[0]] + xs[1..];
  }

  /** What is applied to every element does not see the arrangement. */
  lemma {:induction false} MapPermutation<A, B>(f: A -> B, xs: seq<A>, ys: seq<A>)
    requires multiset(xs) == multiset(ys)
    ensures multiset(Map(f, xs)) == multiset(Map(f, ys))
  {
    if xs == [] {
      assert |multiset(ys)| == 0;
    } else {
      var p := FindFirst(xs, ys);
      MapPermutation(f, xs[1..], ys[..p] + ys[p + 1..]);
      MapWithout(f, ys, p);
      assert Map(f, xs) == [f(xs[0])] + Map(f, xs[1..]);
    }
  }
}
