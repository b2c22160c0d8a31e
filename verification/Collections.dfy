/** Order-keeping de-duplication and counting, shared by the profiler, the free-text pools and the
    run summary. */
module Collections {

  predicate NoDuplicates<T(==)>(xs: seq<T>) {
    forall i, j :: 0 <= i < j < |xs| ==> xs[i] != xs[j]
  }

  /** Every first occurrence, in order. */
  function Dedupe<T(==)>(items: seq<T>): (out: seq<T>)
    ensures |out| <= |items|
  {
    if items == [] then []
    else
      var n := |items| - 1;
      var out := Dedupe(items[..n]);
      if items[n] in out then out else out + [items[n]]
  }

  method DedupeStable<T(==)>(items: seq<T>) returns (out: seq<T>)
    ensures out == Dedupe(items)
  {
    var seen: set<T> := {};
    out := [];
    for i := 0 to |items|
      invariant out == Dedupe(items[..i])
      invariant forall x :: x in seen <==> x in out
    {
      assert items[..i + 1][..i] == items[..i];
      if items[i] !in seen {
        seen := seen + {items[i]};
        out := out + [items[i]];
      }
    }
    assert items[..|items|] == items;
  }

  lemma {:induction false} DedupeFacts<T>(items: seq<T>)
    ensures NoDuplicates(Dedupe(items))
    ensures forall x :: x in Dedupe(items) <==> x in items
  {
    if items != [] {
      var n := |items| - 1;
      DedupeFacts(items[..n]);
      assert items == items[..n] + [items[n]];
    }
  }

  predicate FirstAt<T(==)>(items: seq<T>, q: nat, x: T) {
    q < |items| && items[q] == x && x !in items[..q]
  }

  lemma {:induction false} FirstStays<T>(items: seq<T>, n: nat, q: nat, x: T)
    requires n <= |items| && FirstAt(items[..n], q, x)
    ensures FirstAt(items, q, x)
  {
    assert items[..n][..q] == items[..q];
  }

  /** The de-duplicated list is in the order of first occurrence. */
  lemma {:induction false} DedupeOrder<T>(items: seq<T>, i: nat, j: nat) returns (p: nat, q: nat)
    requires i < j < |Dedupe(items)|
    ensures p < q && FirstAt(items, p, Dedupe(items)[i]) && FirstAt(items, q, Dedupe(items)[j])
  {
    var n := |items| - 1;
    var out := Dedupe(items[..n]);
    if j < |out| {
      p, q := DedupeOrder(items[..n], i, j);
      FirstStays(items, n, q, out[j]);
    } else {
      q := n;
      p := DedupePlace(items[..n], i);
      DedupeFacts(items[..n]);
    }
    FirstStays(items, n, p, out[i]);
  }

  lemma {:induction false} DedupePlace<T>(items: seq<T>, i: nat) returns (p: nat)
    requires i < |Dedupe(items)|
    ensures FirstAt(items, p, Dedupe(items)[i])
  {
    var n := |items| - 1;
    var out := Dedupe(items[..n]);
    if i < |out| {
      p := DedupePlace(items[..n], i);
      FirstStays(items, n, p, out[i]);
    } else {
      p := n;
      DedupeFacts(items[..n]);
    }
  }

  // ---------------------------------------------------------------- selections

  /** `out` is what stands at these places of `xs`, in order. */
  predicate Selects<T(==)>(xs: seq<T>, at: seq<nat>, out: seq<T>) {
    && |at| == |out| && (forall k :: 0 <= k < |at| ==> at[k] < |xs| && xs[at[k]] == out[k])
    && (forall k, l :: 0 <= k < l < |at| ==> at[k] < at[l])
  }

  /** One more item at the end, left out or selected. */
  lemma {:induction false} SelectsLater<T>(xs: seq<T>, at: seq<nat>, out: seq<T>, x: T)
    requires Selects(xs, at, out)
    ensures Selects(xs + [x], at, out)
    ensures Selects(xs + [x], at + [|xs|], out + [x])
  {
    var at', out' := at + [|xs|], out + [x];
    forall k | 0 <= k < |at'|
      ensures at'[k] < |xs + [x]| && (xs + [x])[at'[k]] == out'[k]
    {
      if k < |at| {
        assert at'[k] == at[k] && out'[k] == out[k];
      }
    }
  }

  /** Are these the places of the first occurrences? */
  ghost predicate FirstPlaces<T>(items: seq<T>, at: seq<nat>) {
    forall q: nat :: q in at <==> q < |items| && items[q] !in items[..q]
  }

  lemma {:induction false} FirstPlacesLater<T>(items: seq<T>, at: seq<nat>, x: T)
    requires FirstPlaces(items, at)
    ensures FirstPlaces(items + [x], if x in items then at else at + [|items|])
  {
    var longer := items + [x];
    assert forall q: nat :: q <= |items| ==> longer[..q] == items[..q];
    assert items[..|items|] == items;
  }

  /** The de-duplicated list stands at the first occurrences, and at all of them. */
  lemma {:induction false} DedupePlaces<T>(items: seq<T>) returns (at: seq<nat>)
    ensures Selects(items, at, Dedupe(items)) && FirstPlaces(items, at)
  {
    at := [];
    if items != [] {
      var n := |items| - 1;
      at := DedupePlaces(items[..n]);
      SelectsLater(items[..n], at, Dedupe(items[..n]), items[n]);
      FirstPlacesLater(items[..n], at, items[n]);
      DedupeFacts(items[..n]);
      assert items == items[..n] + [items[n]];
      if items[n] !in items[..n] {
        at := at + [n];
      }
    }
  }

  lemma {:induction false} SelectsFewer<T>(xs: seq<T>, at: seq<nat>, out: seq<T>, n: nat)
    requires Selects(xs, at, out) && n <= |at|
    ensures Selects(xs, at[..n], out[..n])
  {
  }

  lemma {:induction false} InFront(places: seq<nat>, n: nat, i: nat)
    requires n <= |places| && i < |places|
    ensures i < n ==> places[i] in places[..n]
  {
  }

  /** The first `n` different items stand at the first `n` first occurrences. */
  lemma {:induction false} FirstSome<T>(items: seq<T>, n: nat) returns (at: seq<nat>)
    requires n <= |Dedupe(items)|
    ensures Selects(items, at, Dedupe(items)[..n])
    ensures forall q :: q in at ==> items[q] !in items[..q]
    ensures forall q: nat :: q < |items| && items[q] !in items[..q] && q !in at ==>
              n < |Dedupe(items)| && forall k :: 0 <= k < |at| ==> at[k] < q
  {
    var places := DedupePlaces(items);
    at := places[..n];
    SelectsFewer(items, places, Dedupe(items), n);
    forall q: nat | q < |items| && items[q] !in items[..q] && q !in at
      ensures n < |Dedupe(items)| && forall k :: 0 <= k < |at| ==> at[k] < q
    {
      var i :| 0 <= i < |places| && places[i] == q;
      InFront(places, n, i);
    }
  }

  lemma {:induction false} FirstIsFirst<T>(items: seq<T>)
    requires items != []
    ensures Dedupe(items) != [] && Dedupe(items)[0] == items[0]
  {
    if |items| > 1 {
      FirstIsFirst(items[..|items| - 1]);
    } else {
      assert items[..0] == [];
    }
  }

  lemma {:induction false} DistinctSize<T>(xs: seq<T>)
    requires NoDuplicates(xs)
    ensures |set x | x in xs| == |xs|
  {
    if xs == [] {
      assert (set x | x in xs) == {};
    } else {
      DistinctSize(xs[1..]);
      assert xs == [xs[0]] + xs[1..];
      var rest := set x | x in xs[1..];
      assert xs[0] !in rest;
      assert forall x :: x in xs <==> x == xs[0] || x in xs[1..];
      assert (set x | x in xs) == rest + {xs[0]};
    }
  }

  lemma {:induction false} SameItems<T>(xs: seq<T>, ys: seq<T>)
    requires forall x :: x in xs <==> x in ys
    ensures (set x | x in xs) == (set x | x in ys)
  {
  }

  /** There are as many first occurrences as different items. */
  lemma {:induction false} DedupeSize<T>(items: seq<T>)
    ensures |Dedupe(items)| == |set x | x in items|
  {
    DedupeFacts(items);
    DistinctSize(Dedupe(items));
    SameItems(Dedupe(items), items);
  }

  // ---------------------------------------------------------------- counting

  function Count<T(==)>(xs: seq<T>, x: T): nat {
    if xs == [] then 0 else (if xs[0] == x then 1 else 0) + Count(xs[1..], x)
  }

  function SumCounts<T(==)>(keys: seq<T>, xs: seq<T>): nat {
    if keys == [] then 0 else Count(xs, keys[0]) + SumCounts(keys[1..], xs)
  }

  lemma {:induction false} SumCountsOfNone<T>(keys: seq<T>)
    ensures SumCounts(keys, []) == 0
  {
    if keys != [] {
      SumCountsOfNone(keys[1..]);
    }
  }

  lemma {:induction false} SumCountsStep<T>(keys: seq<T>, xs: seq<T>)
    requires NoDuplicates(keys) && xs != []
    ensures SumCounts(keys, xs) == SumCounts(keys, xs[1..]) + (if xs[0] in keys then 1 else 0)
  {
    if keys != [] {
      SumCountsStep(keys[1..], xs);
      assert keys == [keys[0]] + keys[1..];
    }
  }

  /** Counting each key once counts every item once. */
  lemma {:induction false} SumCountsTotal<T>(keys: seq<T>, xs: seq<T>)
    requires NoDuplicates(keys) && forall x :: x in xs ==> x in keys
    ensures SumCounts(keys, xs) == |xs|
  {
    if xs == [] {
      SumCountsOfNone(keys);
    } else {
      assert forall x :: x in xs[1..] ==> x in xs;
      SumCountsStep(keys, xs);
      SumCountsTotal(keys, xs[1..]);
    }
  }

  lemma {:induction false} CountIn<T>(xs: seq<T>, x: T)
    ensures Count(xs, x) > 0 <==> x in xs
  {
    if xs != [] {
      CountIn(xs[1..], x);
      assert xs == [xs[0]] + xs[1..];
    }
  }

  lemma {:induction false} CountAppend<T>(xs: seq<T>, ys: seq<T>, x: T)
    ensures Count(xs + ys, x) == Count(xs, x) + Count(ys, x)
  {
    if xs == [] {
      assert xs + ys == ys;
    } else {
      assert (xs + ys)[1..] == xs[1..] + ys;
      CountAppend(xs[1..], ys, x);
    }
  }

  lemma {:induction false} CountIsMultiplicity<T>(xs: seq<T>, x: T)
    ensures Count(xs, x) == multiset(xs)[x]
  {
    if xs != [] {
      CountIsMultiplicity(xs[1..], x);
      assert xs == [xs[0]] + xs[1..];
    }
  }
}
