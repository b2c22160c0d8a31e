/** The reader and the grammar agree: whatever `json.loads` reads is the text of a valid tree without
    surplus commas, and what it returns is what the tree spells. */
module JsonGrammar {
  import opened Options
  import opened JsonText
  import opened JsonSyntax

  // ---------------------------------------------------------------- blanks, literals and numbers

  lemma {:induction false} SplitBlanks(s: Text) returns (ws: Text)
    ensures Blank(ws) && s == ws + SkipBlanks(s)
  {
    ws := [];
    if s != [] && IsBlank(s[0]) {
      var rest := SplitBlanks(s[1..]);
      ws := [s[0]] + rest;
      assert s == [s[0]] + s[1..];
    } else {
      assert [] + s == s;
    }
  }

  lemma {:induction false} UnitText(s: Text)
    requires ParseUnit(s).Ok?
    ensures var n := |s| - |ParseUnit(s).rest|; 0 < n <= |s| && s == s[..n] + ParseUnit(s).rest
  {
  }

  /** The text of a literal up to its closing quote. */
  lemma {:induction false} LiteralBody(s: Text) returns (body: Text)
    requires ParseUnits(s).Ok?
    ensures s == body + [QUOTE] + ParseUnits(s).rest
    ensures IsBody(body) && UnitsOf(body) == ParseUnits(s).value
  {
    if s[0] == QUOTE {
      body := [];
      assert [] + [QUOTE] == [QUOTE] && [QUOTE][1..] == [];
      assert s == [QUOTE] + s[1..];
    } else {
      var rest := ParseUnit(s).rest;
      var n := |s| - |rest|;
      UnitText(s);
      var tail := LiteralBody(rest);
      body := s[..n] + tail;
      UnitAlone(s, n, tail + [QUOTE]);
      LiteralGrows(s, n, tail);
      UnitsOnward(s);
      LiteralText(s[..n], tail, ParseUnits(rest).rest);
    }
  }

  lemma {:induction false} UnitsOnward(s: Text)
    requires ParseUnits(s).Ok? && s[0] != QUOTE
    ensures ParseUnit(s).Ok? && ParseUnits(ParseUnit(s).rest).Ok?
    ensures ParseUnits(s) == Ok([ParseUnit(s).value] + ParseUnits(ParseUnit(s).rest).value, ParseUnits(ParseUnit(s).rest).rest)
  {
  }

  lemma {:induction false} LiteralText(front: Text, tail: Text, rest: Text)
    ensures front + (tail + [QUOTE] + rest) == front + tail + [QUOTE] + rest
  {
  }

  lemma {:induction false} LiteralGrows(s: Text, n: nat, tail: Text)
    requires ParseUnit(s).Ok? && 0 < n <= |s| && s[0] != QUOTE && IsBody(tail)
    requires ParseUnit(s[..n] + (tail + [QUOTE])) == Ok(ParseUnit(s).value, tail + [QUOTE])
    ensures IsBody(s[..n] + tail) && UnitsOf(s[..n] + tail) == [ParseUnit(s).value] + UnitsOf(tail)
  {
    assert s[..n] + tail + [QUOTE] == s[..n] + (tail + [QUOTE]);
    assert (s[..n] + (tail + [QUOTE]))[0] == s[0];
  }

  function Least(a: nat, b: nat): nat { if a < b then a else b }

  lemma {:induction false} DigitRunTake(s: Text, m: nat)
    requires m <= |s|
    ensures DigitRun(s[..m]) == Least(DigitRun(s), m)
  {
    if m > 0 && IsDigit(s[0]) {
      DigitRunTake(s[1..], m - 1);
      assert s[..m][1..] == s[1..][..m - 1];
    }
  }

  lemma {:induction false} IntTake(s: Text, m: nat)
    requires 0 < IntLen(s) <= m <= |s|
    ensures IntLen(s[..m]) == IntLen(s)
  {
    var sign := if s[0] == 0x2D then 1 else 0;
    DigitRunTake(s[sign..], m - sign);
    assert s[..m][sign..] == s[sign..][..m - sign];
  }

  lemma {:induction false} FracTake(s: Text, m: nat)
    requires m <= |s| && (if FracLen(s) > 0 then FracLen(s) <= m else m == 0 || s[0] != 0x2E)
    ensures FracLen(s[..m]) == FracLen(s)
  {
    if FracLen(s) > 0 {
      DigitRunTake(s[1..], m - 1);
      assert s[..m][1..] == s[1..][..m - 1];
    }
  }

  lemma {:induction false} ExpTake(s: Text)
    ensures ExpLen(s[..ExpLen(s)]) == ExpLen(s)
  {
    var m := ExpLen(s);
    if m > 0 {
      var j := if |s| > 1 && (s[1] == 0x2B || s[1] == 0x2D) then 2 else 1;
      DigitRunTake(s[j..], m - j);
      assert s[..m][j..] == s[j..][..m - j];
    }
  }

  /** After the integer part: the fraction and the exponent, cut off where they end. */
  lemma {:induction false} TailTake(f: Text)
    ensures var x := FracLen(f);
            var m := x + ExpLen(f[x..]);
            m <= |f| && FracLen(f[..m]) == x && ExpLen(f[..m][x..]) == ExpLen(f[x..])
  {
    var x := FracLen(f);
    var m := x + ExpLen(f[x..]);
    FracTake(f, m);
    ExpTake(f[x..]);
    assert f[..m][x..] == f[x..][..ExpLen(f[x..])];
  }

  lemma {:induction false} TokenParts(s: Text)
    requires NumberLen(s) > 0
    ensures var i := IntLen(s);
            var x := FracLen(s[i..]);
            0 < i <= |s| && x <= |s| - i && NumberLen(s) == i + (x + ExpLen(s[i..][x..]))
  {
    var i := IntLen(s);
    var x := FracLen(s[i..]);
    DropTwice(s, i, x);
  }

  lemma {:induction false} DropTwice(s: Text, i: nat, x: nat)
    requires i + x <= |s|
    ensures s[i + x..] == s[i..][x..]
  {
  }

  lemma {:induction false} TakeThenDrop(s: Text, n: nat, i: nat)
    requires i <= n <= |s|
    ensures s[..n][i..] == s[i..][..n - i]
  {
  }

  /** The token read at the front of a text is a number by itself. */
  lemma {:induction false} NumberTake(s: Text)
    requires NumberLen(s) > 0
    ensures IsNumber(s[..NumberLen(s)])
  {
    TokenParts(s);
    var i, n := IntLen(s), NumberLen(s);
    var x := FracLen(s[i..]);
    TailTake(s[i..]);
    IntTake(s, n);
    TakeThenDrop(s, n, i);
    DropTwice(s[..n], i, x);
    ThreeParts(s[..n], i, x);
  }

  lemma {:induction false} ThreeParts(t: Text, i: nat, x: nat)
    requires 0 < i == IntLen(t) && i + x <= |t| && FracLen(t[i..]) == x && ExpLen(t[i + x..]) == |t| - i - x
    ensures IsNumber(t)
  {
  }

  lemma {:induction false} WordTake(s: Text)
    requires ParseWord(s).Ok?
    ensures s == Spell(ParseWord(s).value) + ParseWord(s).rest
  {
    var w := ParseWord(s).value;
    assert Spell(w) <= s && ParseWord(s).rest == s[|Spell(w)|..];
    PrefixSplits(Spell(w), s);
  }

  lemma {:induction false} PrefixSplits(a: Text, s: Text)
    requires a <= s
    ensures s == a + s[|a|..]
  {
  }

  // ---------------------------------------------------------------- trees

  /** Is `c` a tree without surplus commas that is read at the front of `s`, up to `rest`? */
  predicate ReadAs(s: Text, c: Cst, v: Json, rest: Text) {
    Valid(c) && Strict(c) && Value(c) == v && s == Render(c) + rest
  }

  predicate ItemsReadAs(lead: Text, s: Text, xs: seq<Slot>, vs: seq<Json>, rest: Text) {
    && xs != [] && ValidItems(xs) && StrictItems(xs) && ItemValues(xs) == vs
    && lead + s == RenderItems(xs) + ([RBRACKET] + rest)
  }

  predicate MembersReadAs(lead: Text, s: Text, ms: seq<Member>, vs: seq<Entry>, rest: Text) {
    && ms != [] && ValidMembers(ms) && StrictMembers(ms) && MemberValues(ms) == vs
    && lead + s == RenderMembers(ms) + ([RBRACE] + rest)
  }

  lemma {:induction false} ValueTree(s: Text) returns (c: Cst)
    requires ParseValue(s).Ok?
    ensures ReadAs(s, c, ParseValue(s).value, ParseValue(s).rest)
    decreases |s|, 1
  {
    if s[0] == QUOTE {
      var body := LiteralBody(s[1..]);
      c := CStr(body);
      StringText(s, body, ParseValue(s).rest);
    } else if s[0] == LBRACE {
      c := ObjectTree(s[1..]);
      assert s == [LBRACE] + s[1..];
    } else if s[0] == LBRACKET {
      c := ArrayTree(s[1..]);
      assert s == [LBRACKET] + s[1..];
    } else if NumberLen(s) > 0 {
      NumberTake(s);
      c := CNum(s[..NumberLen(s)]);
      assert s == s[..NumberLen(s)] + s[NumberLen(s)..];
    } else {
      WordTake(s);
      c := CWord(ParseWord(s).value);
    }
  }

  lemma {:induction false} StringText(s: Text, body: Text, rest: Text)
    requires s != [] && s[0] == QUOTE && s[1..] == body + [QUOTE] + rest
    ensures s == Quoted(body) + rest
  {
    assert s == [QUOTE] + s[1..];
  }

  lemma {:induction false} ContainerText(open: Code, ws: Text, inner: Text, close: Code, rest: Text)
    ensures [open] + (ws + (inner + ([close] + rest))) == [open] + (ws + inner) + RenderTail(Tail(false, [])) + [close] + rest
    ensures [open] + (ws + ([close] + rest)) == [open] + [] + RenderTail(Tail(false, ws)) + [close] + rest
  {
    assert RenderTail(Tail(false, [])) == [] && RenderTail(Tail(false, ws)) == ws;
    assert [open] + (ws + inner) + [] == [open] + (ws + inner);
    assert [open] + [] + ws == [open] + ws;
  }

  lemma {:induction false} ArrayTree(s: Text) returns (c: Cst)
    requires ParseArray(s).Ok?
    ensures ReadAs([LBRACKET] + s, c, ParseArray(s).value, ParseArray(s).rest)
    decreases |s|, 3
  {
    var ws := SplitBlanks(s);
    var s1 := SkipBlanks(s);
    if s1 != [] && s1[0] == RBRACKET {
      c := CArr([], Tail(false, ws));
      assert s1 == [RBRACKET] + s1[1..];
      ContainerText(LBRACKET, ws, [], RBRACKET, s1[1..]);
    } else {
      var xs := ItemsTree(ws, s1);
      c := CArr(xs, Tail(false, []));
      ContainerText(LBRACKET, [], RenderItems(xs), RBRACKET, ParseItems(s1).rest);
      assert [] + RenderItems(xs) == RenderItems(xs);
      assert [] + (RenderItems(xs) + ([RBRACKET] + ParseItems(s1).rest)) == s;
    }
  }

  lemma {:induction false} ItemsOnward(s: Text)
    requires ParseItems(s).Ok?
    ensures ParseValue(s).Ok?
    ensures var v, s1 := ParseValue(s).value, SkipBlanks(ParseValue(s).rest);
            && s1 != []
            && if s1[0] == RBRACKET then ParseItems(s) == Ok([v], s1[1..])
               else
                 var more := ParseItems(SkipBlanks(s1[1..]));
                 s1[0] == COMMA && more.Ok? && ParseItems(s) == Ok([v] + more.value, more.rest)
  {
  }

  lemma {:induction false} ItemsTree(lead: Text, s: Text) returns (xs: seq<Slot>)
    requires Blank(lead) && ParseItems(s).Ok?
    ensures ItemsReadAs(lead, s, xs, ParseItems(s).value, ParseItems(s).rest)
    decreases |s|, 2
  {
    ItemsOnward(s);
    var c := ValueTree(s);
    var rest := ParseValue(s).rest;
    var post := SplitBlanks(rest);
    var s1 := SkipBlanks(rest);
    var x := Slot(lead, c, post);
    if s1[0] == RBRACKET {
      xs := [x];
      assert s1 == [RBRACKET] + s1[1..];
      LastItem(s, x, [RBRACKET] + s1[1..], ParseValue(s).value);
    } else {
      var ws := SplitBlanks(s1[1..]);
      var more := ItemsTree(ws, SkipBlanks(s1[1..]));
      xs := [x] + more;
      assert s1 == [COMMA] + s1[1..];
      FrontItem(s, x, more, [RBRACKET] + ParseItems(s).rest, ParseValue(s).value);
    }
  }

  lemma {:induction false} AroundFront(s: Text, x: Slot, after: Text)
    requires s == Render(x.node) + (x.post + after)
    ensures x.pre + s == Around(x, Render(x.node)) + after
  {
  }

  lemma {:induction false} LastItem(s: Text, x: Slot, after: Text, v: Json)
    requires Spaced(x) && Valid(x.node) && Strict(x.node) && Value(x.node) == v
    requires s == Render(x.node) + (x.post + after)
    ensures ValidItems([x]) && StrictItems([x]) && ItemValues([x]) == [v]
    ensures x.pre + s == RenderItems([x]) + after
  {
    assert [x][1..] == [];
    assert ValidItems([]) && StrictItems([]);
    assert ItemValues([x]) == [v] + ItemValues([]);
    AroundFront(s, x, after);
  }

  lemma {:induction false} FrontItem(s: Text, x: Slot, more: seq<Slot>, close: Text, v: Json)
    requires Spaced(x) && Valid(x.node) && Strict(x.node) && Value(x.node) == v
    requires more != [] && ValidItems(more) && StrictItems(more)
    requires s == Render(x.node) + (x.post + ([COMMA] + (RenderItems(more) + close)))
    ensures ValidItems([x] + more) && StrictItems([x] + more) && ItemValues([x] + more) == [v] + ItemValues(more)
    ensures x.pre + s == RenderItems([x] + more) + close
  {
    assert ([x] + more)[1..] == more && ([x] + more)[0] == x;
    AroundFront(s, x, [COMMA] + (RenderItems(more) + close));
    SplitFirst(Around(x, Render(x.node)), RenderItems(more), close);
  }

  lemma {:induction false} ObjectTree(s: Text) returns (c: Cst)
    requires ParseObject(s).Ok?
    ensures ReadAs([LBRACE] + s, c, ParseObject(s).value, ParseObject(s).rest)
    decreases |s|, 3
  {
    var ws := SplitBlanks(s);
    var s1 := SkipBlanks(s);
    if s1 != [] && s1[0] == RBRACE {
      c := CObj([], Tail(false, ws));
      assert s1 == [RBRACE] + s1[1..];
      ContainerText(LBRACE, ws, [], RBRACE, s1[1..]);
    } else {
      var ms := MembersTree(ws, s1);
      c := CObj(ms, Tail(false, []));
      ContainerText(LBRACE, [], RenderMembers(ms), RBRACE, ParseMembers(s1).rest);
      assert [] + RenderMembers(ms) == RenderMembers(ms);
      assert [] + (RenderMembers(ms) + ([RBRACE] + ParseMembers(s1).rest)) == s;
    }
  }

  /** A member without what stands before its key and behind its value. */
  lemma {:induction false} KeyTree(s: Text) returns (key: Text, keyPost: Text, pre: Text, s1: Text)
    requires s != [] && s[0] == QUOTE && ParseString(s[1..]).Ok?
    requires var after := SkipBlanks(ParseString(s[1..]).rest); after != [] && after[0] == COLON
    ensures IsBody(key) && TextOf(key) == ParseString(s[1..]).value && Blank(keyPost) && Blank(pre)
    ensures s1 == SkipBlanks(SkipBlanks(ParseString(s[1..]).rest)[1..])
    ensures s == Quoted(key) + (keyPost + ([COLON] + (pre + s1)))
  {
    key := LiteralBody(s[1..]);
    var rest := ParseString(s[1..]).rest;
    StringText(s, key, rest);
    keyPost := SplitBlanks(rest);
    var after := SkipBlanks(rest);
    assert after == [COLON] + after[1..];
    pre := SplitBlanks(after[1..]);
    s1 := SkipBlanks(after[1..]);
  }

  lemma {:induction false} MembersOnward(s: Text)
    requires ParseMembers(s).Ok?
    ensures s != [] && s[0] == QUOTE && ParseString(s[1..]).Ok?
    ensures var after := SkipBlanks(ParseString(s[1..]).rest); after != [] && after[0] == COLON
    ensures var t := SkipBlanks(SkipBlanks(ParseString(s[1..]).rest)[1..]);
            && ParseValue(t).Ok? && |t| < |s|
            && var e, s2 := Entry(ParseString(s[1..]).value, ParseValue(t).value), SkipBlanks(ParseValue(t).rest);
            && s2 != []
            && if s2[0] == RBRACE then ParseMembers(s) == Ok([e], s2[1..])
               else
                 var more := ParseMembers(SkipBlanks(s2[1..]));
                 s2[0] == COMMA && more.Ok? && ParseMembers(s) == Ok([e] + more.value, more.rest)
  {
  }

  lemma {:induction false} MembersTree(lead: Text, s: Text) returns (ms: seq<Member>)
    requires Blank(lead) && ParseMembers(s).Ok?
    ensures MembersReadAs(lead, s, ms, ParseMembers(s).value, ParseMembers(s).rest)
    decreases |s|, 2
  {
    MembersOnward(s);
    var key, keyPost, pre, t := KeyTree(s);
    var c := ValueTree(t);
    var post := SplitBlanks(ParseValue(t).rest);
    var m := Member(lead, key, keyPost, Slot(pre, c, post));
    var s2 := SkipBlanks(ParseValue(t).rest);
    if s2[0] == RBRACE {
      ms := [m];
      assert s2 == [RBRACE] + s2[1..];
      LastMember(s, t, m, [RBRACE] + s2[1..], ParseValue(t).value);
    } else {
      var ws := SplitBlanks(s2[1..]);
      var more := MembersTree(ws, SkipBlanks(s2[1..]));
      ms := [m] + more;
      assert s2 == [COMMA] + (RenderMembers(more) + ([RBRACE] + ParseMembers(s).rest));
      FrontMember(s, t, m, more, [RBRACE] + ParseMembers(s).rest, ParseValue(t).value);
    }
  }

  lemma {:induction false} KeyedFront(s: Text, t: Text, m: Member, after: Text)
    requires s == Quoted(m.key) + (m.keyPost + ([COLON] + (m.slot.pre + t)))
    requires t == Render(m.slot.node) + (m.slot.post + after)
    ensures m.keyPre + s == Keyed(m, Render(m.slot.node)) + after
  {
    AroundFront(t, m.slot, after);
    var value := Around(m.slot, Render(m.slot.node));
    assert m.keyPre + (Quoted(m.key) + (m.keyPost + ([COLON] + (value + after))))
           == m.keyPre + Quoted(m.key) + m.keyPost + [COLON] + value + after;
  }

  lemma {:induction false} LastMember(s: Text, t: Text, m: Member, after: Text, v: Json)
    requires GoodKey(m) && Spaced(m.slot) && Valid(m.slot.node) && Strict(m.slot.node) && Value(m.slot.node) == v
    requires s == Quoted(m.key) + (m.keyPost + ([COLON] + (m.slot.pre + t)))
    requires t == Render(m.slot.node) + (m.slot.post + after)
    ensures ValidMembers([m]) && StrictMembers([m]) && MemberValues([m]) == [Entry(TextOf(m.key), v)]
    ensures m.keyPre + s == RenderMembers([m]) + after
  {
    assert [m][1..] == [];
    assert ValidMembers([]) && StrictMembers([]);
    assert MemberValues([m]) == [Entry(TextOf(m.key), v)] + MemberValues([]);
    KeyedFront(s, t, m, after);
  }

  lemma {:induction false} FrontMember(s: Text, t: Text, m: Member, more: seq<Member>, close: Text, v: Json)
    requires GoodKey(m) && Spaced(m.slot) && Valid(m.slot.node) && Strict(m.slot.node) && Value(m.slot.node) == v
    requires more != [] && ValidMembers(more) && StrictMembers(more)
    requires s == Quoted(m.key) + (m.keyPost + ([COLON] + (m.slot.pre + t)))
    requires t == Render(m.slot.node) + (m.slot.post + ([COMMA] + (RenderMembers(more) + close)))
    ensures ValidMembers([m] + more) && StrictMembers([m] + more)
    ensures MemberValues([m] + more) == [Entry(TextOf(m.key), v)] + MemberValues(more)
    ensures m.keyPre + s == RenderMembers([m] + more) + close
  {
    assert ([m] + more)[1..] == more && ([m] + more)[0] == m;
    KeyedFront(s, t, m, [COMMA] + (RenderMembers(more) + close));
    SplitFirst(Keyed(m, Render(m.slot.node)), RenderMembers(more), close);
  }

  // ---------------------------------------------------------------- main results

  /** Whatever the reader takes from the front of a text is the text of a tree without surplus commas,
      and what it returns is what the tree spells. */
  lemma {:induction false} ReadIsRendered(s: Text)
    requires ParseValue(s).Ok?
    ensures exists c :: ReadAs(s, c, ParseValue(s).value, ParseValue(s).rest)
  {
    var c := ValueTree(s);
  }

  /** Spaces, tabs, line feeds and carriage returns. */
  predicate White(t: Text) { forall i :: 0 <= i < |t| ==> t[i] in {0x20, 0x09, 0x0A, 0x0D} }

  lemma {:induction false} BlankIsWhite(t: Text)
    ensures Blank(t) <==> White(t)
  {
    forall i | 0 <= i < |t|
      ensures IsBlank(t[i]) <==> t[i] in {0x20, 0x09, 0x0A, 0x0D}
    {
    }
  }

  /** Is `t` the text of the tree `c`, which spells `v`, with white space around it? */
  predicate Spells(t: Text, pre: Text, c: Cst, post: Text, v: Json) {
    White(pre) && White(post) && Valid(c) && Strict(c) && Value(c) == v && t == pre + Render(c) + post
  }

  lemma {:induction false} LoadedSpells(t: Text) returns (pre: Text, c: Cst, post: Text)
    requires Loads(t).Some?
    ensures Spells(t, pre, c, post, Loads(t).value)
  {
    pre := SplitBlanks(t);
    c := ValueTree(SkipBlanks(t));
    post := ParseValue(SkipBlanks(t)).rest;
    var all := SplitBlanks(post);
    assert all + [] == all;
    BlankIsWhite(pre);
    BlankIsWhite(post);
    ThreeTexts(pre, Render(c), post);
  }

  lemma {:induction false} ThreeTexts(a: Text, b: Text, c: Text)
    ensures a + (b + c) == a + b + c
  {
  }

  /** `json.loads` accepts exactly the texts of the grammar, and returns what they spell. */
  lemma {:induction false} LoadsExactly(t: Text, v: Json)
    ensures Loads(t) == Some(v) <==> exists pre, c, post :: Spells(t, pre, c, post, v)
  {
    if Loads(t) == Some(v) {
      var pre, c, post := LoadedSpells(t);
    }
    if pre, c, post :| Spells(t, pre, c, post, v) {
      BlankIsWhite(pre);
      BlankIsWhite(post);
      SpelledLoads(t, pre, c, post);
    }
  }

  lemma {:induction false} SpelledLoads(t: Text, pre: Text, c: Cst, post: Text)
    requires Blank(pre) && Blank(post) && Valid(c) && Strict(c) && t == pre + Render(c) + post
    ensures Loads(t) == Some(Value(c))
  {
    assert t == pre + (Render(c) + post);
    SkipBlanksPast(pre, Render(c) + post);
    RenderSolid(c);
    assert SkipBlanks(Render(c) + post) == Render(c) + post;
    ParseRender(c, post);
    SkipBlanksPast(post, []);
    assert post + [] == post;
  }
}
