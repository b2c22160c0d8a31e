/** A measure that reading never increases: the sum of some weight over all strings and keys.
    It shows that a text that lost something cannot read back as the value it came from. */
module JsonWeight {
  import opened Options
  import opened JsonText
  import opened JsonSyntax
  import opened JsonDumps

  function Weight(v: Json, f: Text -> nat): nat
    decreases v, 1
  {
    match v
    case JStr(s) => f(s)
    case JArr(items) => WeightItems(items, f)
    case JObj(members) => WeightMembers(members, f)
    case _ => 0
  }

  function WeightItems(vs: seq<Json>, f: Text -> nat): nat
    decreases vs, 0
  {
    if vs == [] then 0 else Weight(vs[0], f) + WeightItems(vs[1..], f)
  }

  function WeightMembers(ms: seq<Entry>, f: Text -> nat): nat
    decreases ms, 0
  {
    if ms == [] then 0 else f(ms[0].key) + Weight(ms[0].value, f) + WeightMembers(ms[1..], f)
  }

  /** The weight of everything a tree spells out, members that a later duplicate replaces included. */
  function TreeWeight(c: Cst, f: Text -> nat): nat
    requires Valid(c)
    decreases c, 1
  {
    match c
    case CStr(body) => f(TextOf(body))
    case CArr(items, _) => TreeWeightItems(items, f)
    case CObj(members, _) => TreeWeightMembers(members, f)
    case _ => 0
  }

  function TreeWeightItems(xs: seq<Slot>, f: Text -> nat): nat
    requires ValidItems(xs)
    decreases xs, 0
  {
    if xs == [] then 0 else TreeWeight(xs[0].node, f) + TreeWeightItems(xs[1..], f)
  }

  function TreeWeightMembers(ms: seq<Member>, f: Text -> nat): nat
    requires ValidMembers(ms)
    decreases ms, 0
  {
    if ms == [] then 0
    else f(TextOf(ms[0].key)) + TreeWeight(ms[0].slot.node, f) + TreeWeightMembers(ms[1..], f)
  }

  lemma {:induction false} PutWeight(d: seq<Entry>, k: Text, v: Json, f: Text -> nat)
    ensures WeightMembers(Put(d, k, v), f) <= WeightMembers(d, f) + f(k) + Weight(v, f)
  {
    if d == [] {
    } else if d[0].key == k {
      assert ([Entry(k, v)] + d[1..])[1..] == d[1..];
    } else {
      PutWeight(d[1..], k, v, f);
      assert Put(d, k, v)[1..] == Put(d[1..], k, v);
    }
  }

  lemma {:induction false} WeightAppend(ms: seq<Entry>, e: Entry, f: Text -> nat)
    ensures WeightMembers(ms + [e], f) == WeightMembers(ms, f) + f(e.key) + Weight(e.value, f)
  {
    if ms == [] {
      assert ms + [e] == [e];
    } else {
      assert (ms + [e])[1..] == ms[1..] + [e];
      WeightAppend(ms[1..], e, f);
    }
  }

  lemma {:induction false} DictWeight(ps: seq<Entry>, f: Text -> nat)
    ensures WeightMembers(DictOf(ps), f) <= WeightMembers(ps, f)
  {
    if ps != [] {
      var n := |ps| - 1;
      DictWeight(ps[..n], f);
      PutWeight(DictOf(ps[..n]), ps[n].key, ps[n].value, f);
      assert ps == ps[..n] + [ps[n]];
      WeightAppend(ps[..n], ps[n], f);
    }
  }

  /** No object of the tree spells a key twice. */
  predicate NoRepeats(c: Cst)
    requires Valid(c)
    decreases c, 1
  {
    match c
    case CArr(items, _) => NoRepeatsItems(items)
    case CObj(members, _) => DistinctKeys(MemberValues(members)) && NoRepeatsMembers(members)
    case _ => true
  }

  predicate NoRepeatsItems(xs: seq<Slot>)
    requires ValidItems(xs)
    decreases xs, 0
  {
    xs == [] || (NoRepeats(xs[0].node) && NoRepeatsItems(xs[1..]))
  }

  predicate NoRepeatsMembers(ms: seq<Member>)
    requires ValidMembers(ms)
    decreases ms, 0
  {
    ms == [] || (NoRepeats(ms[0].slot.node) && NoRepeatsMembers(ms[1..]))
  }

  lemma {:induction false} ValueWeight(c: Cst, f: Text -> nat)
    requires Valid(c)
    ensures Weight(Value(c), f) <= TreeWeight(c, f)
    ensures NoRepeats(c) ==> Weight(Value(c), f) == TreeWeight(c, f)
    decreases c, 1
  {
    match c
    case CArr(items, _) => ItemsWeight(items, f);
    case CObj(members, tail) =>
      MembersWeight(members, f);
      ObjectWeight(members, tail, f);
    case _ =>
  }

  lemma {:induction false} ObjectWeight(ms: seq<Member>, tail: Tail, f: Text -> nat)
    requires ValidMembers(ms) && Blank(tail.gap)
    ensures Weight(Value(CObj(ms, tail)), f) <= WeightMembers(MemberValues(ms), f)
    ensures DistinctKeys(MemberValues(ms)) ==> Weight(Value(CObj(ms, tail)), f) == WeightMembers(MemberValues(ms), f)
  {
    DictWeight(MemberValues(ms), f);
    if DistinctKeys(MemberValues(ms)) {
      DictOfDistinct(MemberValues(ms));
    }
    assert Value(CObj(ms, tail)) == JObj(DictOf(MemberValues(ms)));
  }

  lemma {:induction false} ItemsWeight(xs: seq<Slot>, f: Text -> nat)
    requires ValidItems(xs)
    ensures WeightItems(ItemValues(xs), f) <= TreeWeightItems(xs, f)
    ensures NoRepeatsItems(xs) ==> WeightItems(ItemValues(xs), f) == TreeWeightItems(xs, f)
    decreases xs, 0
  {
    if xs != [] {
      ValueWeight(xs[0].node, f);
      ItemsWeight(xs[1..], f);
      assert ItemValues(xs)[1..] == ItemValues(xs[1..]);
    }
  }

  lemma {:induction false} MembersWeight(ms: seq<Member>, f: Text -> nat)
    requires ValidMembers(ms)
    ensures WeightMembers(MemberValues(ms), f) <= TreeWeightMembers(ms, f)
    ensures NoRepeatsMembers(ms) ==> WeightMembers(MemberValues(ms), f) == TreeWeightMembers(ms, f)
    decreases ms, 0
  {
    if ms != [] {
      ValueWeight(ms[0].slot.node, f);
      MembersWeight(ms[1..], f);
      assert MemberValues(ms)[1..] == MemberValues(ms[1..]);
    }
  }

  // ---------------------------------------------------------------- the round trip, exactly

  function Length(t: Text): nat { |t| }

  /** Printing never lengthens what the strings spell, and shortens it when a pair is split. */
  lemma {:induction false} PrintedWeight(v: Json)
    requires Proper(v)
    ensures Valid(Printed(v)) && TreeWeight(Printed(v), Length) <= Weight(v, Length)
    ensures !Unsplit(v) ==> TreeWeight(Printed(v), Length) < Weight(v, Length)
    decreases v, 1
  {
    PrintedValid(v);
    match v
    case JStr(s) =>
      StringRoundTrip(s);
      JoinPairsShrinks(s);
    case JArr(items) => PrintedItemsWeight(items, true);
    case JObj(members) => PrintedMembersWeight(members, true);
    case _ =>
  }

  lemma {:induction false} PrintedItemsWeight(vs: seq<Json>, first: bool)
    requires ProperItems(vs)
    ensures var xs := PrintedItems(vs, first);
            && ValidItems(xs)
            && TreeWeightItems(xs, Length) <= WeightItems(vs, Length)
            && (!UnsplitItems(vs) ==> TreeWeightItems(xs, Length) < WeightItems(vs, Length))
    decreases vs, 0
  {
    PrintedItemsValid(vs, first);
    if vs != [] {
      PrintedWeight(vs[0]);
      PrintedItemsWeight(vs[1..], false);
      assert PrintedItems(vs, first)[1..] == PrintedItems(vs[1..], false);
    }
  }

  lemma {:induction false} PrintedMembersWeight(ms: seq<Entry>, first: bool)
    requires ProperMembers(ms)
    ensures var xs := PrintedMembers(ms, first);
            && ValidMembers(xs)
            && TreeWeightMembers(xs, Length) <= WeightMembers(ms, Length)
            && (!UnsplitMembers(ms) ==> TreeWeightMembers(xs, Length) < WeightMembers(ms, Length))
    decreases ms, 0
  {
    PrintedMembersValid(ms, first);
    if ms != [] {
      StringRoundTrip(ms[0].key);
      JoinPairsShrinks(ms[0].key);
      PrintedWeight(ms[0].value);
      PrintedMembersWeight(ms[1..], false);
      assert PrintedMembers(ms, first)[1..] == PrintedMembers(ms[1..], false);
    }
  }

  /** `json.loads(json.dumps(v))` is always a value, and it is `v` exactly when no string of `v`
      holds a surrogate pair as two code points. */
  lemma {:induction false} DumpsRoundTrip(v: Json)
    requires Proper(v)
    ensures Valid(Printed(v)) && Dumps(v) == Render(Printed(v))
    ensures Loads(Dumps(v)) == Some(Value(Printed(v)))
    ensures Loads(Dumps(v)) == Some(v) <==> Unsplit(v)
  {
    DumpsIsRender(v);
    PrintedValid(v);
    LoadsRender(Printed(v));
    if Unsplit(v) {
      PrintedValue(v);
    } else {
      PrintedWeight(v);
      ValueWeight(Printed(v), Length);
    }
  }

  /** Values that do not come back: two lone surrogates return as one code point. */
  lemma {:induction false} SplitPairIsJoined(high: Code, low: Code)
    requires IsHigh(high) && IsLow(low)
    ensures Loads(Dumps(JStr([high, low]))) == Some(JStr([JoinPair(high, low)]))
  {
    var s := [high, low];
    DumpsRoundTrip(JStr(s));
    StringRoundTrip(s);
    assert s[2..] == [] && JoinPairs([]) == [];
    assert JoinPairs(s) == [JoinPair(high, low)];
    assert Printed(JStr(s)) == CStr(Escape(s));
  }
}
