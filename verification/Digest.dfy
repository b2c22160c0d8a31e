/** `compute_reference_digest`: what is fed to SHA-256. The hash itself is not modelled; the claims
    are about its input, which the sorted rows' encodings make without any separator. */
module Digest {
  import opened JsonText
  import opened JsonDumps
  import opened JsonWeight
  import opened JsonScan
  import opened KeyOrder
  import Collections
  import Sorting

  // ---------------------------------------------------------------- canonical encodings

  function Encode(row: Json): Text { Dumps(SortKeys(row)) }

  predicate RowLe(a: Json, b: Json) { TextLe(Encode(a), Encode(b)) }

  lemma {:induction false} OrdersAreTotal()
    ensures Sorting.TotalPreorder(TextLe) && Sorting.Antisymmetric(TextLe) && Sorting.TotalPreorder(RowLe)
  {
    TextOrders();
  }

  function EncodeAll(rows: seq<Json>): seq<Text> { Sorting.Map(Encode, rows) }

  function SortKeysAll(rows: seq<Json>): seq<Json> { Sorting.Map(SortKeys, rows) }

  function Concat(ts: seq<Text>): Text {
    if ts == [] then [] else ts[0] + Concat(ts[1..])
  }

  /** The text hashed: the encodings of the rows, in the order of the encodings. */
  function Preimage(rows: seq<Json>): Text {
    Concat(EncodeAll(Sorting.Sort(rows, RowLe)))
  }

  /** Texts are written one after the other. */
  lemma {:induction false} ConcatParts(a: seq<Text>, b: seq<Text>)
    ensures Concat(a + b) == Concat(a) + Concat(b) && forall t :: Concat([t]) == t
  {
    if a == [] {
      assert a + b == b;
    } else {
      assert (a + b)[1..] == a[1..] + b;
      ConcatParts(a[1..], b);
    }
  }

  /** The loop that feeds the hash. */
  method FeedHash(rows: seq<Json>) returns (fed: Text)
    ensures fed == Preimage(rows)
  {
    var sortedRows := Sorting.Sort(rows, RowLe);
    fed := [];
    for i := 0 to |sortedRows|
      invariant fed + Concat(EncodeAll(sortedRows[i..])) == Preimage(rows)
    {
      var row := sortedRows[i];
      assert sortedRows[i..][1..] == sortedRows[i + 1..];
      assert EncodeAll(sortedRows[i..]) == [Encode(row)] + EncodeAll(sortedRows[i + 1..]);
      fed := fed + Encode(row);
    }
    assert sortedRows[|sortedRows|..] == [];
  }

  // ---------------------------------------------------------------- unique decodability

  /** A complete object text, as the brace matcher sees it. */
  predicate IsObjectText(t: Text) { Feed(Scan(0, Outside), t) == Closed([]) }

  predicate AllObjectTexts(ts: seq<Text>) { forall i :: 0 <= i < |ts| ==> IsObjectText(ts[i]) }

  lemma {:induction false} EncodeIsObjectText(row: Json)
    requires Proper(row) && row.JObj?
    ensures IsObjectText(Encode(row))
  {
    SortKeysKeeps(row);
    DumpsRoundTrip(SortKeys(row));
    NeutralRender(Printed(SortKeys(row)));
  }

  /** Object texts written one after the other, without separators, can be told apart again. */
  lemma {:induction false} ConcatDecodes(xs: seq<Text>, ys: seq<Text>)
    requires AllObjectTexts(xs) && AllObjectTexts(ys)
    requires Concat(xs) == Concat(ys)
    ensures xs == ys
  {
    var start := Scan(0, Outside);
    if xs != [] {
      FeedAppend(start, xs[0], Concat(xs[1..]));
      assert [] + Concat(xs[1..]) == Concat(xs[1..]);
    }
    if ys != [] {
      FeedAppend(start, ys[0], Concat(ys[1..]));
      assert [] + Concat(ys[1..]) == Concat(ys[1..]);
    }
    if xs != [] && ys != [] {
      assert Concat(xs[1..]) == Concat(ys[1..]);
      assert xs[0] == Concat(xs)[..|xs[0]|] && ys[0] == Concat(ys)[..|ys[0]|];
      ConcatDecodes(xs[1..], ys[1..]);
    }
  }

  // ---------------------------------------------------------------- main results

  predicate IsTable(rows: seq<Json>) {
    forall i :: 0 <= i < |rows| ==> rows[i].JObj? && Proper(rows[i])
  }

  /** The encodings of the sorted rows are the sorted encodings. */
  lemma {:induction false} SortedEncodings(rows: seq<Json>)
    ensures var ts := EncodeAll(Sorting.Sort(rows, RowLe));
            Sorting.Ordered(ts, TextLe) && multiset(ts) == multiset(EncodeAll(rows))
    ensures multiset(SortKeysAll(Sorting.Sort(rows, RowLe))) == multiset(SortKeysAll(rows))
    ensures multiset(Sorting.Sort(rows, RowLe)) == multiset(rows)
  {
    OrdersAreTotal();
    Sorting.SortOrdered(rows, RowLe);
    Sorting.MapPermutation(Encode, Sorting.Sort(rows, RowLe), rows);
    Sorting.MapPermutation(SortKeys, Sorting.Sort(rows, RowLe), rows);
  }

  /** The digest's input is the same for two samples exactly when their rows have the same
      encodings, each as often: it is canonical, and it decodes uniquely. */
  lemma {:induction false} PreimageDecides(rows: seq<Json>, rows': seq<Json>)
    requires IsTable(rows) && IsTable(rows')
    ensures Preimage(rows) == Preimage(rows') <==> multiset(EncodeAll(rows)) == multiset(EncodeAll(rows'))
  {
    var xs, ys := EncodeAll(Sorting.Sort(rows, RowLe)), EncodeAll(Sorting.Sort(rows', RowLe));
    SortedEncodings(rows);
    SortedEncodings(rows');
    OrdersAreTotal();
    if multiset(EncodeAll(rows)) == multiset(EncodeAll(rows')) {
      Sorting.OrderedUnique(xs, ys, TextLe);
    }
    if Preimage(rows) == Preimage(rows') {
      SortedRowsAreObjectTexts(rows);
      SortedRowsAreObjectTexts(rows');
      ConcatDecodes(xs, ys);
    }
  }

  lemma {:induction false} SortedRowsAreObjectTexts(rows: seq<Json>)
    requires IsTable(rows)
    ensures AllObjectTexts(EncodeAll(Sorting.Sort(rows, RowLe)))
  {
    SortedEncodings(rows);
    var s := Sorting.Sort(rows, RowLe);
    forall i | 0 <= i < |s|
      ensures IsObjectText(Encode(s[i]))
    {
      assert s[i] in multiset(rows);
      EncodeIsObjectText(s[i]);
    }
  }

  /** The order in which the rows arrive does not matter. */
  lemma {:induction false} PreimagePermutation(rows: seq<Json>, rows': seq<Json>)
    requires IsTable(rows) && multiset(rows) == multiset(rows')
    ensures Preimage(rows) == Preimage(rows')
  {
    assert IsTable(rows') by {
      forall i | 0 <= i < |rows'|
        ensures rows'[i].JObj? && Proper(rows'[i])
      {
        assert rows'[i] in multiset(rows);
      }
    }
    Sorting.MapPermutation(Encode, rows, rows');
    PreimageDecides(rows, rows');
  }

  /** Rows that are the same up to the order of keys have one encoding, and without split surrogate
      pairs only such rows do. */
  lemma {:induction false} EncodeDecides(a: Json, b: Json)
    requires Proper(a) && Proper(b)
    ensures SameUpToKeyOrder(a, b) ==> Encode(a) == Encode(b)
    ensures Unsplit(a) && Unsplit(b) ==> (Encode(a) == Encode(b) <==> SameUpToKeyOrder(a, b))
  {
    SortKeysDecides(a, b);
    SortKeysKeeps(a);
    SortKeysKeeps(b);
    DumpsRoundTrip(SortKeys(a));
    DumpsRoundTrip(SortKeys(b));
  }

  /** The number of rows that are `r` up to the order of keys. */
  function CountSame(rows: seq<Json>, r: Json): nat {
    if rows == [] then 0 else (if SameUpToKeyOrder(rows[0], r) then 1 else 0) + CountSame(rows[1..], r)
  }

  /** The same rows up to the order of keys, each as often. */
  predicate SameSample(rows: seq<Json>, rows': seq<Json>) {
    forall r :: r in rows + rows' ==> CountSame(rows, r) == CountSame(rows', r)
  }

  lemma {:induction false} CountSameIsCount(rows: seq<Json>, r: Json)
    requires IsTable(rows) && Proper(r)
    ensures CountSame(rows, r) == Collections.Count(SortKeysAll(rows), SortKeys(r))
  {
    if rows != [] {
      SortKeysDecides(rows[0], r);
      CountSameIsCount(rows[1..], r);
      assert SortKeysAll(rows)[1..] == SortKeysAll(rows[1..]);
    }
  }

  lemma {:induction false} CountsAgree(rows: seq<Json>, rows': seq<Json>, x: Json)
    requires IsTable(rows) && IsTable(rows') && SameSample(rows, rows') && x in SortKeysAll(rows)
    ensures multiset(SortKeysAll(rows))[x] == multiset(SortKeysAll(rows'))[x]
  {
    var i :| 0 <= i < |rows| && SortKeysAll(rows)[i] == x;
    assert rows[i] in rows;
    CountSameIsCount(rows, rows[i]);
    CountSameIsCount(rows', rows[i]);
    Collections.CountIsMultiplicity(SortKeysAll(rows), x);
    Collections.CountIsMultiplicity(SortKeysAll(rows'), x);
  }

  /** Sorting keys maps two samples to one multiset exactly when they are the same sample. */
  lemma {:induction false} SameSampleSorted(rows: seq<Json>, rows': seq<Json>)
    requires IsTable(rows) && IsTable(rows')
    ensures multiset(SortKeysAll(rows)) == multiset(SortKeysAll(rows')) <==> SameSample(rows, rows')
  {
    var m, m' := multiset(SortKeysAll(rows)), multiset(SortKeysAll(rows'));
    if m == m' {
      forall r | r in rows + rows'
        ensures CountSame(rows, r) == CountSame(rows', r)
      {
        CountSameIsCount(rows, r);
        CountSameIsCount(rows', r);
        Collections.CountIsMultiplicity(SortKeysAll(rows), SortKeys(r));
        Collections.CountIsMultiplicity(SortKeysAll(rows'), SortKeys(r));
      }
    }
    if SameSample(rows, rows') {
      forall x
        ensures m[x] == m'[x]
      {
        if x in SortKeysAll(rows) {
          CountsAgree(rows, rows', x);
        } else if x in SortKeysAll(rows') {
          CountsAgree(rows', rows, x);
        }
      }
    }
  }

  predicate UnsplitTable(rows: seq<Json>) { forall i :: 0 <= i < |rows| ==> Unsplit(rows[i]) }

  /** Samples with the same dictionaries, up to the order of keys and each as often, are hashed from
      one text. */
  lemma {:induction false} SameSampleSameText(rows: seq<Json>, rows': seq<Json>)
    requires IsTable(rows) && IsTable(rows') && SameSample(rows, rows')
    ensures Preimage(rows) == Preimage(rows')
  {
    SameSampleSorted(rows, rows');
    Sorting.MapPermutation(Dumps, SortKeysAll(rows), SortKeysAll(rows'));
    assert Sorting.Map(Dumps, SortKeysAll(rows)) == EncodeAll(rows);
    assert Sorting.Map(Dumps, SortKeysAll(rows')) == EncodeAll(rows');
    PreimageDecides(rows, rows');
  }

  /** Provenance: without split surrogate pairs, only such samples are hashed from one text. */
  lemma {:induction false} PreimageIdentifiesSample(rows: seq<Json>, rows': seq<Json>)
    requires IsTable(rows) && IsTable(rows') && UnsplitTable(rows) && UnsplitTable(rows')
    ensures Preimage(rows) == Preimage(rows') <==> SameSample(rows, rows')
  {
    if Preimage(rows) == Preimage(rows') {
      SameRowsInOrder(rows, rows');
      SortedEncodings(rows);
      SortedEncodings(rows');
      SameSampleSorted(rows, rows');
    }
    if SameSample(rows, rows') {
      SameSampleSameText(rows, rows');
    }
  }

  lemma {:induction false} SameEncodings(rows: seq<Json>, rows': seq<Json>)
    requires IsTable(rows) && IsTable(rows') && Preimage(rows) == Preimage(rows')
    ensures EncodeAll(Sorting.Sort(rows, RowLe)) == EncodeAll(Sorting.Sort(rows', RowLe))
  {
    var xs, ys := EncodeAll(Sorting.Sort(rows, RowLe)), EncodeAll(Sorting.Sort(rows', RowLe));
    SortedRowsAreObjectTexts(rows);
    SortedRowsAreObjectTexts(rows');
    assert Concat(xs) == Concat(ys);
    ConcatDecodes(xs, ys);
  }

  lemma {:induction false} SortedRow(rows: seq<Json>, i: nat)
    requires IsTable(rows) && UnsplitTable(rows) && i < |Sorting.Sort(rows, RowLe)|
    ensures var r := Sorting.Sort(rows, RowLe)[i]; Proper(r) && Unsplit(r)
  {
    SortedEncodings(rows);
    assert Sorting.Sort(rows, RowLe)[i] in multiset(rows);
  }

  lemma {:induction false} SameRowsInOrder(rows: seq<Json>, rows': seq<Json>)
    requires IsTable(rows) && IsTable(rows') && Preimage(rows) == Preimage(rows')
    requires UnsplitTable(rows) && UnsplitTable(rows')
    ensures SortKeysAll(Sorting.Sort(rows, RowLe)) == SortKeysAll(Sorting.Sort(rows', RowLe))
  {
    var s, s' := Sorting.Sort(rows, RowLe), Sorting.Sort(rows', RowLe);
    SameEncodings(rows, rows');
    assert |s| == |EncodeAll(s)| == |EncodeAll(s')| == |s'|;
    forall i | 0 <= i < |s|
      ensures SortKeys(s[i]) == SortKeys(s'[i])
    {
      SortedRow(rows, i);
      SortedRow(rows', i);
      assert Encode(s[i]) == EncodeAll(s)[i] == EncodeAll(s')[i] == Encode(s'[i]);
      EncodeDecides(s[i], s'[i]);
      SortKeysDecides(s[i], s'[i]);
    }
  }
}
