/** `json.dumps` with its defaults (ASCII only, ", " and ": " as separators), and what
    `json.loads` makes of its output. */
module JsonDumps {
  import opened Options
  import opened JsonText
  import opened JsonSyntax

  // ---------------------------------------------------------------- string literals

  function HexDigit(v: int): (c: Code)
    requires 0 <= v < 16
    ensures HexValue(c) == v && c != QUOTE && c != BACKSLASH
  {
    if v < 10 then 0x30 + v else 0x57 + v
  }

  function UnicodeEscape(u: Code): (t: Text)
    requires u < 0x10000
    ensures |t| == 6 && t[0] == BACKSLASH && t[1] == LETTER_U
    ensures StartsWithHex4(t[2..]) && Hex4(t[2..]) == u
  {
    var upper := u / 16;
    var top := upper / 16;
    [BACKSLASH, LETTER_U, HexDigit(top / 16), HexDigit(top % 16), HexDigit(upper % 16), HexDigit(u % 16)]
  }

  /** The letter of the two-character escape Python prints for `c`, if it has one. */
  function ShortLetter(c: Code): (r: Option<Code>)
    ensures r.Some? ==> r.value != LETTER_U && ShortEscape(r.value) == Some(c)
  {
    if c == QUOTE || c == BACKSLASH then Some(c)
    else if c == 0x08 then Some(0x62)
    else if c == 0x0C then Some(0x66)
    else if c == 0x0A then Some(0x6E)
    else if c == 0x0D then Some(0x72)
    else if c == 0x09 then Some(0x74)
    else None
  }

  function HighHalf(c: Code): (h: Code)
    requires c >= 0x10000
    ensures IsHigh(h)
  {
    0xD800 + (c - 0x10000) / 0x400
  }

  function LowHalf(c: Code): (l: Code)
    requires c >= 0x10000
    ensures IsLow(l) && JoinPair(HighHalf(c), l) == c
  {
    0xDC00 + (c - 0x10000) % 0x400
  }

  function EscapeCode(c: Code): Text {
    match ShortLetter(c)
    case Some(l) => [BACKSLASH, l]
    case None =>
      if 0x20 <= c <= 0x7E then [c]
      else if c < 0x10000 then UnicodeEscape(c)
      else UnicodeEscape(HighHalf(c)) + UnicodeEscape(LowHalf(c))
  }

  function Escape(s: Text): Text {
    if s == [] then [] else EscapeCode(s[0]) + Escape(s[1..])
  }

  // ---------------------------------------------------------------- values

  function Dumps(v: Json): Text
    decreases v, 1
  {
    match v
    case JWord(w) => Spell(w)
    case JNum(token) => token
    case JStr(s) => Quoted(Escape(s))
    case JArr(items) => [LBRACKET] + DumpsItems(items) + [RBRACKET]
    case JObj(members) => [LBRACE] + DumpsMembers(members) + [RBRACE]
  }

  function DumpsItems(vs: seq<Json>): Text
    decreases vs, 0
  {
    if vs == [] then []
    else if |vs| == 1 then Dumps(vs[0])
    else Dumps(vs[0]) + [COMMA, SPACE] + DumpsItems(vs[1..])
  }

  function DumpsMembers(ms: seq<Entry>): Text
    decreases ms, 0
  {
    if ms == [] then []
    else
      var first := Quoted(Escape(ms[0].key)) + [COLON, SPACE] + Dumps(ms[0].value);
      if |ms| == 1 then first else first + [COMMA, SPACE] + DumpsMembers(ms[1..])
  }

  // ---------------------------------------------------------------- which values

  predicate DistinctKeys(ms: seq<Entry>) {
    forall i, j :: 0 <= i < j < |ms| ==> ms[i].key != ms[j].key
  }

  /** Numbers are number tokens and no dictionary has a key twice. */
  predicate Proper(v: Json)
    decreases v, 1
  {
    match v
    case JNum(token) => IsNumber(token)
    case JArr(items) => ProperItems(items)
    case JObj(members) => DistinctKeys(members) && ProperMembers(members)
    case _ => true
  }

  predicate ProperItems(vs: seq<Json>)
    decreases vs, 0
  {
    vs == [] || (Proper(vs[0]) && ProperItems(vs[1..]))
  }

  predicate ProperMembers(ms: seq<Entry>)
    decreases ms, 0
  {
    ms == [] || (Proper(ms[0].value) && ProperMembers(ms[1..]))
  }

  /** Does a high surrogate stand right before a low one? */
  predicate HasSplitPair(s: Text) {
    exists i :: 0 <= i < |s| - 1 && IsHigh(s[i]) && IsLow(s[i + 1])
  }

  /** No string and no key of `v` holds a surrogate pair as two code points. */
  predicate Unsplit(v: Json)
    decreases v, 1
  {
    match v
    case JStr(s) => !HasSplitPair(s)
    case JArr(items) => UnsplitItems(items)
    case JObj(members) => UnsplitMembers(members)
    case _ => true
  }

  predicate UnsplitItems(vs: seq<Json>)
    decreases vs, 0
  {
    vs == [] || (Unsplit(vs[0]) && UnsplitItems(vs[1..]))
  }

  predicate UnsplitMembers(ms: seq<Entry>)
    decreases ms, 0
  {
    ms == [] || (!HasSplitPair(ms[0].key) && Unsplit(ms[0].value) && UnsplitMembers(ms[1..]))
  }

  // ---------------------------------------------------------------- printed trees

  function Lead(first: bool): Text { if first then [] else [SPACE] }

  /** The tree `json.dumps` prints. */
  function Printed(v: Json): Cst
    decreases v, 1
  {
    match v
    case JWord(w) => CWord(w)
    case JNum(token) => CNum(token)
    case JStr(s) => CStr(Escape(s))
    case JArr(items) => CArr(PrintedItems(items, true), Tail(false, []))
    case JObj(members) => CObj(PrintedMembers(members, true), Tail(false, []))
  }

  function PrintedItems(vs: seq<Json>, first: bool): (xs: seq<Slot>)
    ensures |xs| == |vs|
    decreases vs, 0
  {
    if vs == [] then [] else [Slot(Lead(first), Printed(vs[0]), [])] + PrintedItems(vs[1..], false)
  }

  function PrintedMembers(ms: seq<Entry>, first: bool): (xs: seq<Member>)
    ensures |xs| == |ms|
    decreases ms, 0
  {
    if ms == [] then []
    else [Member(Lead(first), Escape(ms[0].key), [], Slot([SPACE], Printed(ms[0].value), []))] + PrintedMembers(ms[1..], false)
  }

  lemma {:induction false} NoTail(open: Text, inner: Text, close: Text)
    ensures open + (Lead(true) + inner) + RenderTail(Tail(false, [])) + close == open + inner + close
  {
    assert Lead(true) + inner == inner;
    assert RenderTail(Tail(false, [])) == [];
    assert open + inner + [] == open + inner;
  }

  lemma {:induction false} DumpsArrayIsRender(items: seq<Json>)
    requires RenderItems(PrintedItems(items, true)) == (if items == [] then [] else Lead(true) + DumpsItems(items))
    ensures Dumps(JArr(items)) == Render(Printed(JArr(items)))
  {
    NoTail([LBRACKET], DumpsItems(items), [RBRACKET]);
    assert items == [] ==> Lead(true) + DumpsItems(items) == [];
  }

  lemma {:induction false} DumpsObjectIsRender(members: seq<Entry>)
    requires RenderMembers(PrintedMembers(members, true)) == (if members == [] then [] else Lead(true) + DumpsMembers(members))
    ensures Dumps(JObj(members)) == Render(Printed(JObj(members)))
  {
    NoTail([LBRACE], DumpsMembers(members), [RBRACE]);
    assert members == [] ==> Lead(true) + DumpsMembers(members) == [];
  }

  lemma {:induction false} DumpsIsRender(v: Json)
    ensures Dumps(v) == Render(Printed(v))
    decreases v, 1
  {
    match v
    case JArr(items) =>
      DumpsItemsIsRender(items, true);
      DumpsArrayIsRender(items);
    case JObj(members) =>
      DumpsMembersIsRender(members, true);
      DumpsObjectIsRender(members);
    case _ =>
  }

  lemma {:induction false} PrintedItemsText(vs: seq<Json>, first: bool)
    requires vs != []
    ensures var front := Lead(first) + Render(Printed(vs[0]));
            RenderItems(PrintedItems(vs, first))
            == if |vs| == 1 then front else front + [COMMA] + RenderItems(PrintedItems(vs[1..], false))
  {
    var xs := PrintedItems(vs, first);
    assert xs[1..] == PrintedItems(vs[1..], false);
    assert Around(xs[0], Render(xs[0].node)) == Lead(first) + Render(Printed(vs[0]));
  }

  lemma {:induction false} MoveLead(lead: Text, front: Text, t: Text)
    ensures lead + front + [COMMA] + ([SPACE] + t) == lead + (front + [COMMA, SPACE] + t)
  {
  }

  lemma {:induction false} DumpsItemsIsRender(vs: seq<Json>, first: bool)
    ensures RenderItems(PrintedItems(vs, first)) == (if vs == [] then [] else Lead(first) + DumpsItems(vs))
    decreases vs, 0
  {
    if vs != [] {
      DumpsIsRender(vs[0]);
      PrintedItemsText(vs, first);
      if |vs| > 1 {
        DumpsItemsIsRender(vs[1..], false);
        MoveLead(Lead(first), Dumps(vs[0]), DumpsItems(vs[1..]));
      }
    }
  }

  lemma {:induction false} KeyedPrinted(m: Member, first: bool, key: Text, inner: Text)
    requires m.keyPre == Lead(first) && m.key == Escape(key) && m.keyPost == [] && m.slot.pre == [SPACE] && m.slot.post == []
    ensures Keyed(m, inner) == Lead(first) + (Quoted(Escape(key)) + [COLON, SPACE] + inner)
  {
    assert [COLON] + ([SPACE] + inner + []) == [COLON, SPACE] + inner;
  }

  lemma {:induction false} PrintedMembersText(ms: seq<Entry>, first: bool)
    requires ms != []
    ensures var front := Lead(first) + (Quoted(Escape(ms[0].key)) + [COLON, SPACE] + Render(Printed(ms[0].value)));
            RenderMembers(PrintedMembers(ms, first))
            == if |ms| == 1 then front else front + [COMMA] + RenderMembers(PrintedMembers(ms[1..], false))
  {
    var xs := PrintedMembers(ms, first);
    assert xs[1..] == PrintedMembers(ms[1..], false);
    KeyedPrinted(xs[0], first, ms[0].key, Render(Printed(ms[0].value)));
  }

  lemma {:induction false} DumpsMembersIsRender(ms: seq<Entry>, first: bool)
    ensures RenderMembers(PrintedMembers(ms, first)) == (if ms == [] then [] else Lead(first) + DumpsMembers(ms))
    decreases ms, 0
  {
    if ms != [] {
      DumpsIsRender(ms[0].value);
      PrintedMembersText(ms, first);
      if |ms| > 1 {
        DumpsMembersIsRender(ms[1..], false);
        MoveLead(Lead(first), Quoted(Escape(ms[0].key)) + [COLON, SPACE] + Dumps(ms[0].value), DumpsMembers(ms[1..]));
      }
    }
  }

  // ---------------------------------------------------------------- reading back one literal

  /** What the reader sees in an escaped code point. */
  function UnitsOfCode(c: Code): seq<Unit> {
    if ShortLetter(c).Some? || 0x20 <= c <= 0x7E then [Raw(c)]
    else if c < 0x10000 then [Esc(c)]
    else [Esc(HighHalf(c)), Esc(LowHalf(c))]
  }

  function UnitsOfText(s: Text): seq<Unit> {
    if s == [] then [] else UnitsOfCode(s[0]) + UnitsOfText(s[1..])
  }

  lemma {:induction false} ParseUnicodeEscape(u: Code, t: Text)
    requires u < 0x10000
    ensures ParseUnit(UnicodeEscape(u) + t) == Ok(Esc(u), t)
  {
    var s := UnicodeEscape(u) + t;
    assert s[2..] == UnicodeEscape(u)[2..] + t;
    assert s[6..] == t;
  }

  lemma {:induction false} ParseUnitsStep(s: Text, u: Unit, t: Text)
    requires s != [] && s[0] != QUOTE && ParseUnit(s) == Ok(u, t) && ParseUnits(t).Ok?
    ensures ParseUnits(s) == Ok([u] + ParseUnits(t).value, ParseUnits(t).rest)
  {
  }

  lemma {:induction false} TwoUnits(s: Text, u: Unit, s1: Text, v: Unit, t: Text)
    requires s != [] && s[0] != QUOTE && ParseUnit(s) == Ok(u, s1)
    requires s1 != [] && s1[0] != QUOTE && ParseUnit(s1) == Ok(v, t) && ParseUnits(t).Ok?
    ensures ParseUnits(s) == Ok([u] + ([v] + ParseUnits(t).value), ParseUnits(t).rest)
  {
    ParseUnitsStep(s1, v, t);
    ParseUnitsStep(s, u, s1);
  }

  lemma {:induction false} ParsePairCode(c: Code, t: Text)
    requires c >= 0x10000 && ParseUnits(t).Ok?
    ensures ParseUnits(UnicodeEscape(HighHalf(c)) + (UnicodeEscape(LowHalf(c)) + t))
            == Ok([Esc(HighHalf(c))] + ([Esc(LowHalf(c))] + ParseUnits(t).value), ParseUnits(t).rest)
  {
    var s1 := UnicodeEscape(LowHalf(c)) + t;
    ParseUnicodeEscape(HighHalf(c), s1);
    ParseUnicodeEscape(LowHalf(c), t);
    TwoUnits(UnicodeEscape(HighHalf(c)) + s1, Esc(HighHalf(c)), s1, Esc(LowHalf(c)), t);
  }

  lemma {:induction false} ParseEscapedCode(c: Code, t: Text)
    requires ParseUnits(t).Ok?
    ensures ParseUnits(EscapeCode(c) + t) == Ok(UnitsOfCode(c) + ParseUnits(t).value, ParseUnits(t).rest)
  {
    if ShortLetter(c).Some? || 0x20 <= c <= 0x7E {
      ParsePlainCode(c, t);
    } else if c < 0x10000 {
      ParseUnicodeEscape(c, t);
      ParseUnitsStep(EscapeCode(c) + t, Esc(c), t);
    } else {
      ParseAstralCode(c, t);
    }
  }

  lemma {:induction false} AstralForms(c: Code)
    requires c >= 0x10000
    ensures EscapeCode(c) == UnicodeEscape(HighHalf(c)) + UnicodeEscape(LowHalf(c))
    ensures UnitsOfCode(c) == [Esc(HighHalf(c))] + [Esc(LowHalf(c))]
  {
  }

  lemma {:induction false} ParseAstralCode(c: Code, t: Text)
    requires c >= 0x10000 && ParseUnits(t).Ok?
    ensures ParseUnits(EscapeCode(c) + t) == Ok(UnitsOfCode(c) + ParseUnits(t).value, ParseUnits(t).rest)
  {
    ParsePairCode(c, t);
    AstralForms(c);
    Associates(UnicodeEscape(HighHalf(c)), UnicodeEscape(LowHalf(c)), t);
    Associates([Esc(HighHalf(c))], [Esc(LowHalf(c))], ParseUnits(t).value);
  }

  lemma {:induction false} Associates<T>(a: seq<T>, b: seq<T>, c: seq<T>)
    ensures a + b + c == a + (b + c)
  {
  }

  lemma {:induction false} ParsePlainCode(c: Code, t: Text)
    requires ShortLetter(c).Some? || 0x20 <= c <= 0x7E
    requires ParseUnits(t).Ok?
    ensures ParseUnits(EscapeCode(c) + t) == Ok([Raw(c)] + ParseUnits(t).value, ParseUnits(t).rest)
  {
    var s := EscapeCode(c) + t;
    assert s[|EscapeCode(c)|..] == t;
    assert ParseUnit(s) == Ok(Raw(c), t);
    ParseUnitsStep(s, Raw(c), t);
  }

  lemma {:induction false} ParseEscaped(s: Text)
    ensures IsBody(Escape(s)) && UnitsOf(Escape(s)) == UnitsOfText(s)
  {
    if s != [] {
      ParseEscaped(s[1..]);
      ParseEscapedCode(s[0], Escape(s[1..]) + [QUOTE]);
      assert Escape(s) + [QUOTE] == EscapeCode(s[0]) + (Escape(s[1..]) + [QUOTE]);
    }
  }

  /** The text with every split surrogate pair joined, from the left. */
  function JoinPairs(s: Text): (r: Text)
    ensures |r| <= |s|
  {
    if s == [] then []
    else if |s| > 1 && IsHigh(s[0]) && IsLow(s[1]) then [JoinPair(s[0], s[1])] + JoinPairs(s[2..])
    else [s[0]] + JoinPairs(s[1..])
  }

  /** A printed string reads back with its split surrogate pairs joined. */
  lemma {:induction false} StringRoundTrip(s: Text)
    ensures IsBody(Escape(s)) && TextOf(Escape(s)) == JoinPairs(s)
  {
    ParseEscaped(s);
    DecodeUnitsOfText(s);
  }

  lemma {:induction false} DecodeAlone(c: Code, rest: seq<Unit>)
    requires IsHigh(c) && rest != [] && rest[0].Esc? ==> !IsLow(rest[0].code)
    ensures Decode(UnitsOfCode(c) + rest) == [c] + Decode(rest)
  {
    var us := UnitsOfCode(c) + rest;
    if c < 0x10000 || ShortLetter(c).Some? {
      assert us[1..] == rest;
    } else {
      assert us[2..] == rest;
    }
  }

  lemma {:induction false} DecodePair(h: Code, l: Code, rest: seq<Unit>)
    requires IsHigh(h) && IsLow(l)
    ensures Decode(UnitsOfCode(h) + (UnitsOfCode(l) + rest)) == [JoinPair(h, l)] + Decode(rest)
  {
    assert (UnitsOfCode(h) + (UnitsOfCode(l) + rest))[2..] == rest;
  }

  lemma {:induction false} FirstUnit(s: Text)
    requires s != []
    ensures var us := UnitsOfText(s); us != [] && (us[0].Esc? && IsLow(us[0].code) ==> IsLow(s[0]))
  {
    assert UnitsOfText(s)[0] == UnitsOfCode(s[0])[0];
  }

  lemma {:induction false} DecodeUnitsOfText(s: Text)
    ensures Decode(UnitsOfText(s)) == JoinPairs(s)
  {
    if s == [] {
    } else if |s| > 1 && IsHigh(s[0]) && IsLow(s[1]) {
      DecodeUnitsOfText(s[2..]);
      assert s[1..][1..] == s[2..];
      DecodePair(s[0], s[1], UnitsOfText(s[2..]));
    } else {
      DecodeUnitsOfText(s[1..]);
      if |s| > 1 {
        FirstUnit(s[1..]);
      }
      DecodeAlone(s[0], UnitsOfText(s[1..]));
    }
  }

  lemma {:induction false} PairAtIndex(s: Text, i: nat)
    requires i + 1 < |s| && IsHigh(s[i]) && IsLow(s[i + 1])
    ensures HasSplitPair(s)
  {
  }

  lemma {:induction false} SplitPairHere(s: Text)
    requires s != []
    ensures HasSplitPair(s) <==> (|s| > 1 && IsHigh(s[0]) && IsLow(s[1])) || HasSplitPair(s[1..])
  {
    if HasSplitPair(s[1..]) {
      var i :| 0 <= i < |s[1..]| - 1 && IsHigh(s[1..][i]) && IsLow(s[1..][i + 1]);
      PairAtIndex(s, i + 1);
    }
    if HasSplitPair(s) {
      var i :| 0 <= i < |s| - 1 && IsHigh(s[i]) && IsLow(s[i + 1]);
      if i > 0 {
        PairAtIndex(s[1..], i - 1);
      }
    }
  }

  lemma {:induction false} JoinPairsShrinks(s: Text)
    ensures if HasSplitPair(s) then |JoinPairs(s)| < |s| else JoinPairs(s) == s
  {
    if s != [] {
      SplitPairHere(s);
      if !(|s| > 1 && IsHigh(s[0]) && IsLow(s[1])) {
        JoinPairsShrinks(s[1..]);
      }
    }
  }

  // ---------------------------------------------------------------- dictionaries of distinct keys

  lemma {:induction false} PutFresh(d: seq<Entry>, k: Text, v: Json)
    requires forall i :: 0 <= i < |d| ==> d[i].key != k
    ensures Put(d, k, v) == d + [Entry(k, v)]
  {
    if d != [] {
      PutFresh(d[1..], k, v);
    }
  }

  lemma {:induction false} DictOfDistinct(ps: seq<Entry>)
    requires DistinctKeys(ps)
    ensures DictOf(ps) == ps
  {
    if ps != [] {
      var n := |ps| - 1;
      DictOfDistinct(ps[..n]);
      PutFresh(ps[..n], ps[n].key, ps[n].value);
      assert ps == ps[..n] + [ps[n]];
    }
  }

  // ---------------------------------------------------------------- the round trip

  lemma {:induction false} PrintedValid(v: Json)
    requires Proper(v)
    ensures Valid(Printed(v)) && Strict(Printed(v))
    decreases v, 1
  {
    match v
    case JStr(s) => ParseEscaped(s);
    case JArr(items) => PrintedItemsValid(items, true);
    case JObj(members) => PrintedMembersValid(members, true);
    case _ =>
  }

  lemma {:induction false} PrintedItemsValid(vs: seq<Json>, first: bool)
    requires ProperItems(vs)
    ensures var xs := PrintedItems(vs, first); ValidItems(xs) && StrictItems(xs)
    decreases vs, 0
  {
    if vs != [] {
      PrintedValid(vs[0]);
      PrintedItemsValid(vs[1..], false);
    }
  }

  lemma {:induction false} PrintedMembersValid(ms: seq<Entry>, first: bool)
    requires ProperMembers(ms)
    ensures var xs := PrintedMembers(ms, first); ValidMembers(xs) && StrictMembers(xs)
    decreases ms, 0
  {
    if ms != [] {
      ParseEscaped(ms[0].key);
      PrintedValid(ms[0].value);
      PrintedMembersValid(ms[1..], false);
    }
  }

  /** Printing and reading keeps every value without split surrogate pairs. */
  lemma {:induction false} PrintedValue(v: Json)
    requires Proper(v) && Unsplit(v)
    ensures Valid(Printed(v)) && Value(Printed(v)) == v
    decreases v, 1
  {
    PrintedValid(v);
    match v
    case JStr(s) =>
      StringRoundTrip(s);
      JoinPairsShrinks(s);
    case JArr(items) => PrintedItemValues(items, true);
    case JObj(members) =>
      PrintedMemberValues(members, true);
      DictOfDistinct(members);
    case _ =>
  }

  lemma {:induction false} PrintedItemValues(vs: seq<Json>, first: bool)
    requires ProperItems(vs) && UnsplitItems(vs)
    ensures var xs := PrintedItems(vs, first); ValidItems(xs) && ItemValues(xs) == vs
    decreases vs, 0
  {
    PrintedItemsValid(vs, first);
    if vs != [] {
      PrintedValue(vs[0]);
      PrintedItemValues(vs[1..], false);
      ItemValuesAfter(PrintedItems(vs, first)[0], PrintedItems(vs[1..], false));
      assert vs == [vs[0]] + vs[1..];
    }
  }

  lemma {:induction false} ItemValuesAfter(x: Slot, xs: seq<Slot>)
    requires Spaced(x) && Valid(x.node) && ValidItems(xs)
    ensures ValidItems([x] + xs) && ItemValues([x] + xs) == [Value(x.node)] + ItemValues(xs)
  {
    assert ([x] + xs)[1..] == xs;
  }

  lemma {:induction false} PrintedMemberValues(ms: seq<Entry>, first: bool)
    requires ProperMembers(ms) && UnsplitMembers(ms)
    ensures var xs := PrintedMembers(ms, first); ValidMembers(xs) && MemberValues(xs) == ms
    decreases ms, 0
  {
    PrintedMembersValid(ms, first);
    if ms != [] {
      StringRoundTrip(ms[0].key);
      JoinPairsShrinks(ms[0].key);
      PrintedValue(ms[0].value);
      PrintedMemberValues(ms[1..], false);
      assert PrintedMembers(ms, first)[1..] == PrintedMembers(ms[1..], false);
    }
  }
}
