/** What string literals, dictionaries and printed containers are, apart from how the reader and the
    printer go through them (RFC 8259, sections 4, 5 and 7). */
module JsonParts {
  import opened Options
  import opened JsonText
  import opened JsonSyntax
  import opened JsonDumps
  import opened JsonRepair
  import opened JsonGrammar
  import opened Collections

  // ---------------------------------------------------------------- string literals

  predicate IsHexDigit(c: Code, v: int) {
    || (0x30 <= c <= 0x39 && v == c - 0x30)
    || (0x41 <= c <= 0x46 && v == 10 + (c - 0x41))
    || (0x61 <= c <= 0x66 && v == 10 + (c - 0x61))
  }

  /** What stands after the backslash of a two-character escape, and what it means. */
  const ESCAPES: set<(int, int)> :=
    {(0x22, 0x22), (0x5C, 0x5C), (0x2F, 0x2F), (0x62, 0x08), (0x66, 0x0C), (0x6E, 0x0A), (0x72, 0x0D), (0x74, 0x09)}

  /** Is `p` one way to write the unit `u` between quotes? */
  predicate IsPiece(p: Text, u: Unit) {
    || (|p| == 1 && u == Raw(p[0]) && p[0] >= 0x20 && p[0] != QUOTE && p[0] != BACKSLASH)
    || (|p| == 2 && u.Raw? && p[0] == BACKSLASH && (p[1] as int, u.code as int) in ESCAPES)
    || (|p| == 6 && u.Esc? && p[0] == BACKSLASH && p[1] == LETTER_U && IsHex4(p[2..], u.code))
  }

  /** The four hexadecimal digits of a code unit. */
  predicate IsHex4(h: Text, code: Code)
    requires |h| == 4
  {
    && IsHexDigit(h[0], code / 0x1000) && IsHexDigit(h[1], code / 0x100 % 16)
    && IsHexDigit(h[2], code / 0x10 % 16) && IsHexDigit(h[3], code % 16)
  }

  /** Is the unit written between two neighbouring places? */
  predicate PieceAt(body: Text, u: Unit, from: int, to: int) {
    0 <= from <= to <= |body| && IsPiece(body[from..to], u)
  }

  /** The body cut at these places writes these units, one piece each. */
  predicate WrittenAs(body: Text, us: seq<Unit>, cuts: seq<int>) {
    && |cuts| == |us| + 1 && cuts[0] == 0 && cuts[|us|] == |body|
    && forall i :: 0 <= i < |us| ==> PieceAt(body, us[i], cuts[i], cuts[i + 1])
  }

  lemma {:induction false} HexValueIs(c: Code, v: int)
    ensures 0 <= v && HexValue(c) == v <==> IsHexDigit(c, v)
  {
  }

  lemma {:induction false} Nibbles(code: int, a: int, b: int, c: int, d: int)
    requires 0 <= b < 16 && 0 <= c < 16 && 0 <= d < 16
    ensures code == ((a * 16 + b) * 16 + c) * 16 + d <==>
              code / 0x1000 == a && code / 0x100 % 16 == b && code / 0x10 % 16 == c && code % 16 == d
  {
    var upper := code / 16;
    var top := upper / 16;
    assert code / 0x100 == top && code / 0x1000 == top / 16;
  }

  lemma {:induction false} Hex4Is(h: Text, code: Code)
    requires |h| == 4
    ensures StartsWithHex4(h) && Hex4(h) == code <==> IsHex4(h, code)
  {
    var a, b, c, d := HexValue(h[0]), HexValue(h[1]), HexValue(h[2]), HexValue(h[3]);
    HexValueIs(h[0], code / 0x1000);
    HexValueIs(h[1], code / 0x100 % 16);
    HexValueIs(h[2], code / 0x10 % 16);
    HexValueIs(h[3], code % 16);
    if StartsWithHex4(h) {
      assert a >= 0 && b >= 0 && c >= 0 && d >= 0;
      Nibbles(code, a, b, c, d);
    }
  }

  lemma {:induction false} ShortEscapeIs(c: Code, v: Code)
    ensures ShortEscape(c) == Some(v) <==> (c as int, v as int) in ESCAPES
  {
  }

  /** The reader takes one piece, whatever follows it. */
  lemma {:induction false} PieceRead(p: Text, u: Unit, t: Text)
    requires IsPiece(p, u)
    ensures p != [] && p[0] != QUOTE && ParseUnit(p + t) == Ok(u, t)
  {
    var s := p + t;
    assert s[|p|..] == t;
    if |p| == 2 {
      ShortEscapeIs(p[1], u.code);
      assert p[1] != LETTER_U;
    } else if |p| == 6 {
      Hex4Is(p[2..], u.code);
      assert forall i :: 0 <= i < 4 ==> s[2..][i] == p[2..][i];
    }
  }

  /** What the reader takes as one unit is a piece. */
  lemma {:induction false} ReadPiece(s: Text, n: nat)
    requires ParseUnit(s).Ok? && n == |s| - |ParseUnit(s).rest|
    ensures n <= |s| && IsPiece(s[..n], ParseUnit(s).value)
  {
    var u := ParseUnit(s).value;
    if s[0] == BACKSLASH {
      if s[1] == LETTER_U {
        assert s[..n][2..] == s[2..6];
        assert forall i :: 0 <= i < 4 ==> s[2..6][i] == s[2..][i];
        Hex4Is(s[2..6], u.code);
      } else {
        ShortEscapeIs(s[1], u.code);
      }
    }
  }

  function Shift(cuts: seq<int>, n: int): (r: seq<int>)
    ensures |r| == |cuts| && forall i :: 0 <= i < |cuts| ==> r[i] == cuts[i] + n
  {
    seq(|cuts|, i requires 0 <= i < |cuts| => cuts[i] + n)
  }

  lemma {:induction false} WrittenPiece(body: Text, us: seq<Unit>, cuts: seq<int>, k: nat)
    requires WrittenAs(body, us, cuts) && k < |us|
    ensures PieceAt(body, us[k], cuts[k], cuts[k + 1])
  {
  }

  lemma {:induction false} PieceMoves(body: Text, n: nat, u: Unit, x: int, y: int)
    requires n <= |body| && 0 <= x
    ensures PieceAt(body[n..], u, x, y) <==> PieceAt(body, u, x + n, y + n)
  {
    if x <= y <= |body| - n {
      assert body[n..][x..y] == body[x + n..y + n];
    }
  }

  lemma {:induction false} PieceOnward(body: Text, n: nat, u: Unit, us: seq<Unit>, cuts: seq<int>, i: nat)
    requires n <= |body| && IsPiece(body[..n], u) && WrittenAs(body[n..], us, cuts) && i <= |us|
    ensures var all := [0] + Shift(cuts, n); PieceAt(body, ([u] + us)[i], all[i], all[i + 1])
  {
    if i > 0 {
      WrittenPiece(body[n..], us, cuts, i - 1);
      PieceMoves(body, n, us[i - 1], cuts[i - 1], cuts[i]);
    } else {
      assert body[0..n] == body[..n];
    }
  }

  lemma {:induction false} CutsOnward(body: Text, n: nat, u: Unit, us: seq<Unit>, cuts: seq<int>) returns (all: seq<int>)
    requires n <= |body| && IsPiece(body[..n], u) && WrittenAs(body[n..], us, cuts)
    ensures WrittenAs(body, [u] + us, all)
  {
    all := [0] + Shift(cuts, n);
    forall i | 0 <= i < |[u] + us|
      ensures PieceAt(body, ([u] + us)[i], all[i], all[i + 1])
    {
      PieceOnward(body, n, u, us, cuts, i);
    }
  }

  lemma {:induction false} BodyWritten(body: Text) returns (cuts: seq<int>)
    requires IsBody(body)
    ensures WrittenAs(body, UnitsOf(body), cuts)
  {
    if body == [] {
      cuts := [0];
      assert [] + [QUOTE] == [QUOTE];
    } else {
      var n := BodySplits(body);
      var s := body + [QUOTE];
      ReadPiece(s, n);
      assert s[..n] == body[..n];
      var rest := BodyWritten(body[n..]);
      cuts := CutsOnward(body, n, ParseUnit(s).value, UnitsOf(body[n..]), rest);
    }
  }

  lemma {:induction false} CutsGrow(body: Text, us: seq<Unit>, cuts: seq<int>, i: nat)
    requires WrittenAs(body, us, cuts) && i < |cuts|
    ensures forall j :: i <= j < |cuts| ==> cuts[i] <= cuts[j]
    decreases |cuts| - i
  {
    if i < |us| {
      assert PieceAt(body, us[i], cuts[i], cuts[i + 1]);
      CutsGrow(body, us, cuts, i + 1);
    }
  }

  lemma {:induction false} CutsAfter(body: Text, us: seq<Unit>, cuts: seq<int>)
    requires us != [] && WrittenAs(body, us, cuts)
    ensures 0 <= cuts[1] <= |body| && IsPiece(body[..cuts[1]], us[0])
    ensures WrittenAs(body[cuts[1]..], us[1..], Shift(cuts[1..], -cuts[1]))
  {
    var n := cuts[1];
    var later := Shift(cuts[1..], -n);
    assert PieceAt(body, us[0], cuts[0], cuts[1]);
    assert body[cuts[0]..cuts[1]] == body[..n];
    CutsGrow(body, us, cuts, 1);
    forall i | 0 <= i < |us| - 1
      ensures PieceAt(body[n..], us[1..][i], later[i], later[i + 1])
    {
      WrittenPiece(body, us, cuts, i + 1);
      PieceMoves(body, n, us[i + 1], later[i], later[i + 1]);
    }
  }

  lemma {:induction false} PieceThenBody(p: Text, u: Unit, rest: Text)
    requires IsPiece(p, u) && IsBody(rest)
    ensures IsBody(p + rest) && UnitsOf(p + rest) == [u] + UnitsOf(rest)
  {
    PieceRead(p, u, rest + [QUOTE]);
    BodyAfterUnit(p, u, rest);
  }

  lemma {:induction false} WrittenBody(body: Text, us: seq<Unit>, cuts: seq<int>)
    requires WrittenAs(body, us, cuts)
    ensures IsBody(body) && UnitsOf(body) == us
    decreases |us|
  {
    if us == [] {
      EmptyBody(body);
    } else {
      var n := cuts[1];
      CutsAfter(body, us, cuts);
      WrittenBody(body[n..], us[1..], Shift(cuts[1..], -n));
      PieceThenBody(body[..n], us[0], body[n..]);
      assert body == body[..n] + body[n..] && us == [us[0]] + us[1..];
    }
  }

  lemma {:induction false} EmptyBody(body: Text)
    requires |body| == 0
    ensures IsBody(body) && UnitsOf(body) == []
  {
    assert body + [QUOTE] == [QUOTE];
  }

  /** What may stand between quotes, and the units it spells. */
  lemma {:induction false} BodyIsGrammar(body: Text, us: seq<Unit>)
    ensures IsBody(body) && UnitsOf(body) == us <==> exists cuts :: WrittenAs(body, us, cuts)
  {
    if IsBody(body) && UnitsOf(body) == us {
      var cuts := BodyWritten(body);
    }
    if cuts :| WrittenAs(body, us, cuts) {
      WrittenBody(body, us, cuts);
    }
  }

  // ---------------------------------------------------------------- joined surrogates

  predicate EndsHigh(us: seq<Unit>) { us != [] && us[|us| - 1].Esc? && IsHigh(us[|us| - 1].code) }

  predicate StartsLow(us: seq<Unit>) { us != [] && us[0].Esc? && IsLow(us[0].code) }

  /** Units decode one by one, wherever they are cut, unless the cut is inside an escaped pair. */
  lemma {:induction false} DecodeSplit(a: seq<Unit>, b: seq<Unit>)
    requires !(EndsHigh(a) && StartsLow(b))
    ensures Decode(a + b) == Decode(a) + Decode(b)
  {
    if a == [] {
      assert a + b == b;
    } else if PairAt(a) {
      assert (a + b)[2..] == a[2..] + b;
      assert a[2..] != [] ==> a[2..][|a[2..]| - 1] == a[|a| - 1];
      DecodeSplit(a[2..], b);
    } else {
      assert (a + b)[1..] == a[1..] + b;
      assert a[1..] != [] ==> a[1..][|a[1..]| - 1] == a[|a| - 1];
      DecodeSplit(a[1..], b);
      assert PairAt(a + b) ==> |a| == 1 && EndsHigh(a) && StartsLow(b);
    }
  }

  /** One unit is its code point; an escaped pair is the code point whose halves they are. */
  lemma {:induction false} DecodeUnits(u: Unit, high: Code, low: Code)
    requires IsHigh(high) && IsLow(low)
    ensures Decode([u]) == [u.code]
    ensures var c := JoinPair(high, low);
            Decode([Esc(high), Esc(low)]) == [c] && HighHalf(c) == high && LowHalf(c) == low
  {
    assert [u][1..] == [];
    assert [Esc(high), Esc(low)][2..] == [];
  }

  // ---------------------------------------------------------------- dictionaries

  function KeyList(ms: seq<Entry>): (ks: seq<Text>)
    ensures |ks| == |ms| && forall i :: 0 <= i < |ms| ==> ks[i] == ms[i].key
  {
    seq(|ms|, i requires 0 <= i < |ms| => ms[i].key)
  }

  lemma {:induction false} KeyListCons(e: Entry, d: seq<Entry>)
    ensures KeyList([e] + d) == [e.key] + KeyList(d)
  {
  }

  lemma {:induction false} ConsElsewhere(x: Text, k: Text, a: seq<Text>)
    requires x != k
    ensures k in [x] + a <==> k in a
    ensures [x] + (a + [k]) == ([x] + a) + [k]
  {
  }

  predicate KeysAfterPut(d: seq<Entry>, k: Text, v: Json) {
    KeyList(Put(d, k, v)) == if k in KeyList(d) then KeyList(d) else KeyList(d) + [k]
  }

  lemma {:induction false} PutAtHead(e: Entry, d: seq<Entry>, k: Text, v: Json)
    requires e.key == k
    ensures KeysAfterPut([e] + d, k, v)
  {
    KeyListCons(e, d);
    KeyListCons(Entry(k, v), d);
    assert ([e] + d)[1..] == d;
    assert ([k] + KeyList(d))[0] == k;
  }

  lemma {:induction false} PutFurther(e: Entry, d: seq<Entry>, k: Text, v: Json)
    requires e.key != k && KeysAfterPut(d, k, v)
    ensures KeysAfterPut([e] + d, k, v)
  {
    assert ([e] + d)[1..] == d;
    assert Put([e] + d, k, v) == [e] + Put(d, k, v);
    KeyListCons(e, d);
    KeyListCons(e, Put(d, k, v));
    ConsElsewhere(e.key, k, KeyList(d));
  }

  lemma {:induction false} PutKeys(d: seq<Entry>, k: Text, v: Json)
    ensures KeysAfterPut(d, k, v)
  {
    if d == [] {
      assert KeyList(Put(d, k, v)) == [k] == KeyList(d) + [k];
    } else {
      assert d == [d[0]] + d[1..];
      if d[0].key == k {
        PutAtHead(d[0], d[1..], k, v);
      } else {
        PutKeys(d[1..], k, v);
        PutFurther(d[0], d[1..], k, v);
      }
    }
  }

  lemma {:induction false} PutEntries(d: seq<Entry>, k: Text, v: Json)
    requires DistinctKeys(d)
    ensures forall e :: e in Put(d, k, v) <==> e == Entry(k, v) || (e in d && e.key != k)
  {
    if d != [] {
      assert d == [d[0]] + d[1..];
      assert forall e :: e in d[1..] ==> e.key != d[0].key;
      if d[0].key != k {
        PutEntries(d[1..], k, v);
      }
    }
  }

  lemma {:induction false} KeysDistinct(d: seq<Entry>)
    ensures DistinctKeys(d) <==> NoDuplicates(KeyList(d))
  {
  }

  /** Is `e` the last pair of its key? */
  predicate LastOfKey(ps: seq<Entry>, e: Entry) {
    exists i :: 0 <= i < |ps| && ps[i] == e && forall j :: i < j < |ps| ==> ps[j].key != e.key
  }

  lemma {:induction false} LastOfKeyStep(ps: seq<Entry>, e: Entry)
    requires ps != []
    ensures var n := |ps| - 1;
            LastOfKey(ps, e) <==> e == ps[n] || (LastOfKey(ps[..n], e) && e.key != ps[n].key)
  {
    var n := |ps| - 1;
    if LastOfKey(ps[..n], e) && e.key != ps[n].key {
      var i :| 0 <= i < n && ps[..n][i] == e && forall j :: i < j < n ==> ps[..n][j].key != e.key;
      assert ps[i] == e && forall j :: i < j < |ps| ==> j == n || ps[j] == ps[..n][j];
    }
    if LastOfKey(ps, e) && e != ps[n] {
      var i :| 0 <= i < |ps| && ps[i] == e && forall j :: i < j < |ps| ==> ps[j].key != e.key;
      assert ps[..n][i] == e && forall j :: i < j < n ==> ps[..n][j] == ps[j];
    }
  }

  /** `dict(pairs)`: the keys in the order of their first occurrence, each with its last value. */
  lemma {:induction false} DictMeans(ps: seq<Entry>)
    ensures KeyList(DictOf(ps)) == Dedupe(KeyList(ps)) && DistinctKeys(DictOf(ps))
    ensures forall e :: e in DictOf(ps) <==> LastOfKey(ps, e)
  {
    DedupeFacts(KeyList(ps));
    if ps != [] {
      var n := |ps| - 1;
      DictMeans(ps[..n]);
      assert KeyList(ps)[..n] == KeyList(ps[..n]);
      PutKeys(DictOf(ps[..n]), ps[n].key, ps[n].value);
      PutEntries(DictOf(ps[..n]), ps[n].key, ps[n].value);
      forall e
        ensures e in DictOf(ps) <==> LastOfKey(ps, e)
      {
        LastOfKeyStep(ps, e);
      }
    }
    KeysDistinct(DictOf(ps));
  }

  // ---------------------------------------------------------------- what is printed

  lemma {:induction false} ThreeJoined(a: Text, sep: Text, b: Text, c: Text)
    ensures a + sep + (b + sep + c) == a + sep + b + sep + c
  {
  }

  /** Items are separated by a comma and one space. */
  lemma {:induction false} ItemsJoined(a: seq<Json>, b: seq<Json>)
    requires a != [] && b != []
    ensures DumpsItems(a + b) == DumpsItems(a) + [COMMA, SPACE] + DumpsItems(b)
  {
    assert (a + b)[1..] == a[1..] + b;
    if |a| > 1 {
      ItemsJoined(a[1..], b);
      ThreeJoined(Dumps(a[0]), [COMMA, SPACE], DumpsItems(a[1..]), DumpsItems(b));
    } else {
      assert a[1..] + b == b;
    }
  }

  /** So are members. */
  lemma {:induction false} MembersJoined(a: seq<Entry>, b: seq<Entry>)
    requires a != [] && b != []
    ensures DumpsMembers(a + b) == DumpsMembers(a) + [COMMA, SPACE] + DumpsMembers(b)
  {
    assert (a + b)[1..] == a[1..] + b;
    if |a| > 1 {
      MembersJoined(a[1..], b);
      ThreeJoined(DumpsMembers([a[0]]), [COMMA, SPACE], DumpsMembers(a[1..]), DumpsMembers(b));
    } else {
      assert a[1..] + b == b;
    }
  }

  /** A key is a quoted literal, with a colon and one space before its value. */
  lemma {:induction false} OneMember(e: Entry)
    ensures DumpsMembers([e]) == [QUOTE] + Escape(e.key) + [QUOTE, COLON, SPACE] + Dumps(e.value)
  {
    assert [QUOTE] + [COLON, SPACE] == [QUOTE, COLON, SPACE];
  }

  predicate LowerHex(c: Code) { 0x30 <= c <= 0x39 || 0x61 <= c <= 0x66 }

  /** Escapes use lower-case digits. */
  lemma {:induction false} EscapeDigits(u: Code)
    requires u < 0x10000
    ensures forall i :: 2 <= i < 6 ==> LowerHex(UnicodeEscape(u)[i])
    ensures forall i :: 0 <= i < 6 ==> 0x20 <= UnicodeEscape(u)[i] <= 0x7E
  {
  }

  /** A printed string is printable ASCII: quotes, backslashes and the control characters that have one
      take a two-character escape, other printable ASCII stands for itself. */
  lemma {:induction false} EscapesLook(c: Code)
    ensures forall i :: 0 <= i < |EscapeCode(c)| ==> 0x20 <= EscapeCode(c)[i] <= 0x7E
    ensures c in {0x22, 0x5C, 0x08, 0x0C, 0x0A, 0x0D, 0x09} <==> |EscapeCode(c)| == 2
    ensures 0x20 <= c <= 0x7E && c != QUOTE && c != BACKSLASH ==> EscapeCode(c) == [c]
  {
    if c < 0x10000 {
      EscapeDigits(c);
    } else {
      EscapeDigits(HighHalf(c));
      EscapeDigits(LowHalf(c));
    }
  }

  // ---------------------------------------------------------------- any text at all

  ghost predicate Grammatical(t: Text, v: Json) { exists pre, c, post :: Spells(t, pre, c, post, v) }

  /** The lenient reader on any text: what the text spells, or, only when it spells nothing, what it
      spells without the commas before closing brackets. */
  lemma {:induction false} LenientMeans(t: Text, v: Json)
    ensures LoadsLenient(t) == Some(v) <==>
              Grammatical(t, v) || ((forall w :: !Grammatical(t, w)) && Grammatical(DropCommas(t), v))
  {
    RepairIsDropCommas(t);
    forall w
      ensures Loads(t) == Some(w) <==> Grammatical(t, w)
    {
      LoadsExactly(t, w);
    }
    LoadsExactly(DropCommas(t), v);
    assert Loads(t).Some? ==> Grammatical(t, Loads(t).value);
  }
}
