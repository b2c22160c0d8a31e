/** What `sort_keys=True` keeps apart: sorting the keys of a value forgets the order of keys, at every
    depth, and nothing else. */
module KeyOrder {
  import opened JsonText
  import opened JsonDumps
  import Sorting

  // ---------------------------------------------------------------- the order on texts

  /** Python's order on `str`: by code point, a prefix first. */
  predicate TextLe(a: Text, b: Text) {
    a == [] || (b != [] && (a[0] < b[0] || (a[0] == b[0] && TextLe(a[1..], b[1..]))))
  }

  lemma {:induction false} TextLeTotal(a: Text, b: Text)
    ensures TextLe(a, b) || TextLe(b, a)
    ensures TextLe(a, b) && TextLe(b, a) ==> a == b
  {
    if a != [] && b != [] {
      TextLeTotal(a[1..], b[1..]);
      assert a == [a[0]] + a[1..] && b == [b[0]] + b[1..];
    }
  }

  lemma {:induction false} TextLeTransitive(a: Text, b: Text, c: Text)
    requires TextLe(a, b) && TextLe(b, c)
    ensures TextLe(a, c)
  {
    if a != [] && a[0] == b[0] == c[0] {
      TextLeTransitive(a[1..], b[1..], c[1..]);
    }
  }

  predicate KeyLe(a: Entry, b: Entry) { TextLe(a.key, b.key) }

  /** One text comes before another when it is a prefix of it or the first differing code point is
      smaller. */
  lemma {:induction false} TextLeMeans(a: Text, b: Text)
    ensures TextLe(a, b) <==>
              a <= b || exists i :: 0 <= i < |a| && i < |b| && a[..i] == b[..i] && a[i] < b[i]
  {
    if a != [] && b != [] {
      TextLeMeans(a[1..], b[1..]);
      assert a == [a[0]] + a[1..] && b == [b[0]] + b[1..];
      if a[0] == b[0] {
        SameFirst(a, b);
      } else if a[0] < b[0] {
        assert a[..0] == b[..0];
      } else {
        assert forall i :: 0 < i <= |a| && i <= |b| ==> a[..i][0] != b[..i][0];
      }
    }
  }

  lemma {:induction false} SameFirst(a: Text, b: Text)
    requires a != [] && b != [] && a[0] == b[0]
    ensures a <= b <==> a[1..] <= b[1..]
    ensures (exists i :: 0 <= i < |a| && i < |b| && a[..i] == b[..i] && a[i] < b[i]) <==>
              exists i :: 0 <= i < |a[1..]| && i < |b[1..]| && a[1..][..i] == b[1..][..i] && a[1..][i] < b[1..][i]
  {
    var x, y := a[1..], b[1..];
    assert a == [a[0]] + x && b == [b[0]] + y;
    if i :| 0 <= i < |a| && i < |b| && a[..i] == b[..i] && a[i] < b[i] {
      assert x[..i - 1] == a[..i][1..] == b[..i][1..] == y[..i - 1];
      assert x[i - 1] < y[i - 1];
    }
    if i :| 0 <= i < |x| && i < |y| && x[..i] == y[..i] && x[i] < y[i] {
      assert a[..i + 1] == [a[0]] + x[..i] == b[..i + 1];
      assert a[i + 1] < b[i + 1];
    }
  }

  lemma {:induction false} TextOrders()
    ensures Sorting.TotalPreorder(TextLe) && Sorting.Antisymmetric(TextLe)
    ensures Sorting.TotalPreorder(KeyLe)
  {
    forall a: Text, b: Text
      ensures TextLe(a, b) || TextLe(b, a)
      ensures TextLe(a, b) && TextLe(b, a) ==> a == b
    {
      TextLeTotal(a, b);
    }
    forall a: Text, b: Text, c: Text | TextLe(a, b) && TextLe(b, c)
      ensures TextLe(a, c)
    {
      TextLeTransitive(a, b, c);
    }
  }

  // ---------------------------------------------------------------- sorted keys

  /** `sort_keys=True`: every dictionary with its members in key order. */
  function SortKeys(v: Json): Json
    decreases v, 1
  {
    match v
    case JArr(items) => JArr(SortKeysItems(items))
    case JObj(members) => JObj(Sorting.Sort(SortKeysMembers(members), KeyLe))
    case _ => v
  }

  function SortKeysItems(vs: seq<Json>): seq<Json>
    decreases vs, 0
  {
    if vs == [] then [] else [SortKeys(vs[0])] + SortKeysItems(vs[1..])
  }

  function SortKeysMembers(ms: seq<Entry>): (r: seq<Entry>)
    ensures |r| == |ms| && forall i :: 0 <= i < |ms| ==> r[i].key == ms[i].key
    decreases ms, 0
  {
    if ms == [] then [] else [Entry(ms[0].key, SortKeys(ms[0].value))] + SortKeysMembers(ms[1..])
  }

  // ---------------------------------------------------------------- sorting keeps what it sorts

  lemma {:induction false} SortKeepsMembers(ms: seq<Entry>)
    requires DistinctKeys(ms)
    ensures var s := Sorting.Sort(ms, KeyLe);
            && DistinctKeys(s)
            && (forall e :: e in s <==> e in ms)
  {
    TextOrders();
    Sorting.SortOrdered(ms, KeyLe);
    var s := Sorting.Sort(ms, KeyLe);
    forall e
      ensures e in s <==> e in ms
    {
      assert e in s <==> e in multiset(s);
      assert e in ms <==> e in multiset(ms);
    }
    forall i, j | 0 <= i < j < |s|
      ensures s[i].key != s[j].key
    {
      if s[i].key == s[j].key {
        var p, q := Sorting.TwoPlaces(ms, s, i, j);
      }
    }
  }

  predicate AllProper(ms: seq<Entry>) { forall i :: 0 <= i < |ms| ==> Proper(ms[i].value) }

  predicate AllUnsplit(ms: seq<Entry>) {
    forall i :: 0 <= i < |ms| ==> !HasSplitPair(ms[i].key) && Unsplit(ms[i].value)
  }

  lemma {:induction false} MembersPointwise(ms: seq<Entry>)
    ensures ProperMembers(ms) <==> AllProper(ms)
    ensures UnsplitMembers(ms) <==> AllUnsplit(ms)
  {
    if ms != [] {
      MembersPointwise(ms[1..]);
      assert forall i :: 0 < i < |ms| ==> ms[i] == ms[1..][i - 1];
      assert forall i :: 0 <= i < |ms[1..]| ==> ms[1..][i] == ms[i + 1];
    }
  }

  lemma {:induction false} SortKeysKeeps(v: Json)
    requires Proper(v)
    ensures Proper(SortKeys(v)) && (Unsplit(v) ==> Unsplit(SortKeys(v)))
    decreases v, 1
  {
    match v
    case JArr(items) => SortKeysItemsKeeps(items);
    case JObj(members) =>
      SortKeysMembersKeeps(members);
      var ms := SortKeysMembers(members);
      var s := Sorting.Sort(ms, KeyLe);
      SortKeepsMembers(ms);
      MembersPointwise(ms);
      MembersPointwise(s);
      assert forall i :: 0 <= i < |s| ==> s[i] in ms;
    case _ =>
  }

  lemma {:induction false} SortKeysItemsKeeps(vs: seq<Json>)
    requires ProperItems(vs)
    ensures ProperItems(SortKeysItems(vs)) && (UnsplitItems(vs) ==> UnsplitItems(SortKeysItems(vs)))
    decreases vs, 0
  {
    if vs != [] {
      SortKeysKeeps(vs[0]);
      SortKeysItemsKeeps(vs[1..]);
      assert SortKeysItems(vs)[1..] == SortKeysItems(vs[1..]);
    }
  }

  lemma {:induction false} SortKeysMembersKeeps(ms: seq<Entry>)
    requires ProperMembers(ms)
    ensures ProperMembers(SortKeysMembers(ms)) && (UnsplitMembers(ms) ==> UnsplitMembers(SortKeysMembers(ms)))
    decreases ms, 0
  {
    if ms != [] {
      SortKeysKeeps(ms[0].value);
      SortKeysMembersKeeps(ms[1..]);
      assert SortKeysMembers(ms)[1..] == SortKeysMembers(ms[1..]);
    }
  }

  // ---------------------------------------------------------------- equality of Python dictionaries

  function Keys(ms: seq<Entry>): set<Text> { set e | e in ms :: e.key }

  /** Python's `==` on decoded values: dictionaries with the same keys and equal values, lists item by
      item, anything else as it is. */
  predicate SameUpToKeyOrder(a: Json, b: Json)
    decreases a
  {
    match (a, b)
    case (JArr(xs), JArr(ys)) =>
      |xs| == |ys| && forall i :: 0 <= i < |xs| ==> SameUpToKeyOrder(xs[i], ys[i])
    case (JObj(ms), JObj(ns)) =>
      && Keys(ms) == Keys(ns)
      && forall i, j :: 0 <= i < |ms| && 0 <= j < |ns| && ms[i].key == ns[j].key ==>
           SameUpToKeyOrder(ms[i].value, ns[j].value)
    case _ => a == b
  }

  lemma {:induction false} SortedItem(vs: seq<Json>, i: nat)
    requires i < |vs|
    ensures |SortKeysItems(vs)| == |vs| && SortKeysItems(vs)[i] == SortKeys(vs[i])
  {
    SortedLength(vs);
    if i > 0 {
      SortedItem(vs[1..], i - 1);
    }
  }

  lemma {:induction false} SortedLength(vs: seq<Json>)
    ensures |SortKeysItems(vs)| == |vs|
  {
    if vs != [] {
      SortedLength(vs[1..]);
    }
  }

  lemma {:induction false} SortedMember(ms: seq<Entry>, i: nat)
    requires i < |ms|
    ensures SortKeysMembers(ms)[i] == Entry(ms[i].key, SortKeys(ms[i].value))
  {
    if i > 0 {
      SortedMember(ms[1..], i - 1);
    }
  }

  lemma {:induction false} ProperItem(vs: seq<Json>, i: nat)
    requires ProperItems(vs) && i < |vs|
    ensures Proper(vs[i])
  {
    if i > 0 {
      ProperItem(vs[1..], i - 1);
    }
  }

  /** Two key-ordered lists of distinct keys with the same entries are the same list. */
  lemma {:induction false} OrderedByKeyUnique(s: seq<Entry>, t: seq<Entry>)
    requires Sorting.Ordered(s, KeyLe) && Sorting.Ordered(t, KeyLe) && DistinctKeys(s) && DistinctKeys(t)
    requires forall e :: e in s <==> e in t
    ensures s == t
  {
    if s == [] {
      if t != [] {
        FirstIn(t);
      }
    } else {
      assert s[0] in t;
      SameHead(s, t);
      SameTail(s, t);
      SameTail(t, s);
      OrderedByKeyUnique(s[1..], t[1..]);
      assert s == [s[0]] + s[1..] && t == [t[0]] + t[1..];
    }
  }

  lemma {:induction false} FirstIn(t: seq<Entry>)
    requires t != []
    ensures t[0] in t
  {
  }

  lemma {:induction false} HeadLeads(t: seq<Entry>, e: Entry)
    requires Sorting.Ordered(t, KeyLe) && e in t
    ensures KeyLe(t[0], e)
  {
    TextOrders();
  }

  lemma {:induction false} SameHead(s: seq<Entry>, t: seq<Entry>)
    requires s != [] && t != [] && Sorting.Ordered(s, KeyLe) && Sorting.Ordered(t, KeyLe) && DistinctKeys(s)
    requires s[0] in t && t[0] in s
    ensures s[0] == t[0]
  {
    HeadLeads(t, s[0]);
    HeadLeads(s, t[0]);
    TextLeTotal(s[0].key, t[0].key);
  }

  lemma {:induction false} SameTail(s: seq<Entry>, t: seq<Entry>)
    requires s != [] && t != [] && s[0] == t[0] && DistinctKeys(s) && forall e :: e in s ==> e in t
    ensures forall e :: e in s[1..] ==> e in t[1..]
  {
    forall e | e in s[1..]
      ensures e in t[1..]
    {
      assert e in s && e.key != s[0].key;
      assert t == [t[0]] + t[1..];
    }
  }

  /** Sorting by key gives one list exactly when the entries are the same. */
  lemma {:induction false} SortedSame(p: seq<Entry>, q: seq<Entry>)
    requires DistinctKeys(p) && DistinctKeys(q)
    ensures Sorting.Sort(p, KeyLe) == Sorting.Sort(q, KeyLe) <==> forall e :: e in p <==> e in q
  {
    TextOrders();
    Sorting.SortOrdered(p, KeyLe);
    Sorting.SortOrdered(q, KeyLe);
    SortKeepsMembers(p);
    SortKeepsMembers(q);
    if forall e :: e in p <==> e in q {
      OrderedByKeyUnique(Sorting.Sort(p, KeyLe), Sorting.Sort(q, KeyLe));
    } else {
      var e :| !(e in p <==> e in q);
      assert e in Sorting.Sort(p, KeyLe) <==> e in p;
      assert e in Sorting.Sort(q, KeyLe) <==> e in q;
    }
  }

  /** Do members of one key have values that sort alike? */
  predicate ValuesSortAlike(ms: seq<Entry>, ns: seq<Entry>) {
    forall i, j :: 0 <= i < |ms| && 0 <= j < |ns| && ms[i].key == ns[j].key ==>
      SortKeys(ms[i].value) == SortKeys(ns[j].value)
  }

  lemma {:induction false} KeyPlace(ms: seq<Entry>, k: Text) returns (i: nat)
    requires k in Keys(ms)
    ensures i < |ms| && ms[i].key == k
  {
    var e :| e in ms && e.key == k;
    i :| 0 <= i < |ms| && ms[i] == e;
  }

  lemma {:induction false} EntriesCover(ms: seq<Entry>, ns: seq<Entry>)
    requires Keys(ms) <= Keys(ns) && ValuesSortAlike(ms, ns)
    ensures forall e :: e in SortKeysMembers(ms) ==> e in SortKeysMembers(ns)
  {
    var p, q := SortKeysMembers(ms), SortKeysMembers(ns);
    forall i | 0 <= i < |p|
      ensures p[i] in q
    {
      assert ms[i] in ms && ms[i].key in Keys(ms);
      var j := KeyPlace(ns, ms[i].key);
      SortedMember(ms, i);
      SortedMember(ns, j);
      assert q[j] == p[i];
    }
  }

  lemma {:induction false} EntriesAgree(ms: seq<Entry>, ns: seq<Entry>)
    requires DistinctKeys(ns) && forall e :: e in SortKeysMembers(ms) ==> e in SortKeysMembers(ns)
    ensures Keys(ms) <= Keys(ns) && ValuesSortAlike(ms, ns)
  {
    var p, q := SortKeysMembers(ms), SortKeysMembers(ns);
    forall i | 0 <= i < |ms|
      ensures exists j :: 0 <= j < |ns| && ns[j].key == ms[i].key && SortKeys(ns[j].value) == SortKeys(ms[i].value)
    {
      SortedMember(ms, i);
      assert p[i] in p;
      var j :| 0 <= j < |q| && q[j] == p[i];
      SortedMember(ns, j);
    }
    forall k | k in Keys(ms)
      ensures k in Keys(ns)
    {
      var i := KeyPlace(ms, k);
      var j :| 0 <= j < |ns| && ns[j].key == ms[i].key;
      assert ns[j] in ns;
    }
    forall i, j | 0 <= i < |ms| && 0 <= j < |ns| && ms[i].key == ns[j].key
      ensures SortKeys(ms[i].value) == SortKeys(ns[j].value)
    {
      var j' :| 0 <= j' < |ns| && ns[j'].key == ms[i].key && SortKeys(ns[j'].value) == SortKeys(ms[i].value);
      assert j' == j;
    }
  }

  lemma {:induction false} AlikeSwap(ms: seq<Entry>, ns: seq<Entry>)
    requires ValuesSortAlike(ms, ns)
    ensures ValuesSortAlike(ns, ms)
  {
  }

  /** Two dictionaries sort alike exactly when they have the same keys and values that sort alike. */
  lemma {:induction false} MembersSortAlike(ms: seq<Entry>, ns: seq<Entry>)
    requires DistinctKeys(ms) && DistinctKeys(ns)
    ensures SortKeys(JObj(ms)) == SortKeys(JObj(ns)) <==> Keys(ms) == Keys(ns) && ValuesSortAlike(ms, ns)
  {
    var p, q := SortKeysMembers(ms), SortKeysMembers(ns);
    SortedSame(p, q);
    if Keys(ms) == Keys(ns) && ValuesSortAlike(ms, ns) {
      AlikeSwap(ms, ns);
      EntriesCover(ms, ns);
      EntriesCover(ns, ms);
    }
    if forall e :: e in p <==> e in q {
      EntriesAgree(ms, ns);
      EntriesAgree(ns, ms);
    }
  }

  lemma {:induction false} ItemsSortAlike(xs: seq<Json>, ys: seq<Json>)
    ensures SortKeys(JArr(xs)) == SortKeys(JArr(ys)) <==>
              |xs| == |ys| && forall i :: 0 <= i < |xs| ==> SortKeys(xs[i]) == SortKeys(ys[i])
  {
    SortedLength(xs);
    SortedLength(ys);
    forall i | 0 <= i < |xs|
      ensures SortKeysItems(xs)[i] == SortKeys(xs[i])
    {
      SortedItem(xs, i);
    }
    forall i | 0 <= i < |ys|
      ensures SortKeysItems(ys)[i] == SortKeys(ys[i])
    {
      SortedItem(ys, i);
    }
    if |xs| == |ys| && forall i :: 0 <= i < |xs| ==> SortKeys(xs[i]) == SortKeys(ys[i]) {
      assert SortKeysItems(xs) == SortKeysItems(ys);
    }
  }

  /** Sorting the keys identifies exactly the values that are the same up to the order of keys. */
  lemma {:induction false} SortKeysDecides(a: Json, b: Json)
    requires Proper(a) && Proper(b)
    ensures SortKeys(a) == SortKeys(b) <==> SameUpToKeyOrder(a, b)
    decreases a
  {
    match (a, b)
    case (JArr(xs), JArr(ys)) =>
      ItemsSortAlike(xs, ys);
      forall i | 0 <= i < |xs| && i < |ys|
        ensures SortKeys(xs[i]) == SortKeys(ys[i]) <==> SameUpToKeyOrder(xs[i], ys[i])
      {
        ProperItem(xs, i);
        ProperItem(ys, i);
        SortKeysDecides(xs[i], ys[i]);
      }
    case (JObj(ms), JObj(ns)) =>
      MembersSortAlike(ms, ns);
      MembersPointwise(ms);
      MembersPointwise(ns);
      forall i, j | 0 <= i < |ms| && 0 <= j < |ns|
        ensures SortKeys(ms[i].value) == SortKeys(ns[j].value) <==> SameUpToKeyOrder(ms[i].value, ns[j].value)
      {
        SortKeysDecides(ms[i].value, ns[j].value);
      }
    case _ =>
  }
}
