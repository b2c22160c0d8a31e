/** Concrete syntax trees of JSON texts, and what the reader makes of each.

    A tree fixes every detail of a text: the blanks around each token, the spelling of each string
    literal and number, and an optional surplus comma before any closing bracket. */
module JsonSyntax {
  import opened Options
  import opened JsonText

  /** What stands between the last item of a container and its closing bracket. */
  datatype Tail = Tail(comma: bool, gap: Text)

  datatype Slot = Slot(pre: Text, node: Cst, post: Text)

  datatype Member = Member(keyPre: Text, key: Text, keyPost: Text, slot: Slot)

  datatype Cst =
    | CWord(word: Word)
    | CNum(token: Text)
    | CStr(body: Text)
    | CArr(items: seq<Slot>, tail: Tail)
    | CObj(members: seq<Member>, tail: Tail)

  // ---------------------------------------------------------------- rendering

  function Quoted(body: Text): Text { [QUOTE] + body + [QUOTE] }

  function RenderTail(t: Tail): Text { (if t.comma then [COMMA] else []) + t.gap }

  function Around(x: Slot, inner: Text): Text { x.pre + inner + x.post }

  function Keyed(m: Member, inner: Text): Text {
    m.keyPre + Quoted(m.key) + m.keyPost + [COLON] + Around(m.slot, inner)
  }

  function Render(c: Cst): Text
    decreases c, 1
  {
    match c
    case CWord(w) => Spell(w)
    case CNum(token) => token
    case CStr(body) => Quoted(body)
    case CArr(items, tail) => [LBRACKET] + RenderItems(items) + RenderTail(tail) + [RBRACKET]
    case CObj(members, tail) => [LBRACE] + RenderMembers(members) + RenderTail(tail) + [RBRACE]
  }

  function RenderItems(xs: seq<Slot>): Text
    decreases xs, 0
  {
    if xs == [] then []
    else if |xs| == 1 then Around(xs[0], Render(xs[0].node))
    else Around(xs[0], Render(xs[0].node)) + [COMMA] + RenderItems(xs[1..])
  }

  function RenderMembers(ms: seq<Member>): Text
    decreases ms, 0
  {
    if ms == [] then []
    else if |ms| == 1 then Keyed(ms[0], Render(ms[0].slot.node))
    else Keyed(ms[0], Render(ms[0].slot.node)) + [COMMA] + RenderMembers(ms[1..])
  }

  // ---------------------------------------------------------------- validity

  predicate Blank(t: Text) { forall i :: 0 <= i < |t| ==> IsBlank(t[i]) }

  /** Is `body` what may stand between the quotes of a literal? */
  predicate IsBody(body: Text) {
    var r := ParseUnits(body + [QUOTE]);
    r.Ok? && r.rest == []
  }

  function UnitsOf(body: Text): seq<Unit>
    requires IsBody(body)
  {
    ParseUnits(body + [QUOTE]).value
  }

  function TextOf(body: Text): Text
    requires IsBody(body)
  {
    Decode(UnitsOf(body))
  }

  predicate Spaced(x: Slot) { Blank(x.pre) && Blank(x.post) }

  predicate GoodKey(m: Member) { Blank(m.keyPre) && IsBody(m.key) && Blank(m.keyPost) }

  predicate Valid(c: Cst)
    decreases c, 1
  {
    match c
    case CWord(_) => true
    case CNum(token) => IsNumber(token)
    case CStr(body) => IsBody(body)
    case CArr(items, tail) => ValidItems(items) && Blank(tail.gap)
    case CObj(members, tail) => ValidMembers(members) && Blank(tail.gap)
  }

  predicate ValidItems(xs: seq<Slot>)
    decreases xs, 0
  {
    xs == [] || (Spaced(xs[0]) && Valid(xs[0].node) && ValidItems(xs[1..]))
  }

  predicate ValidMembers(ms: seq<Member>)
    decreases ms, 0
  {
    ms == [] || (GoodKey(ms[0]) && Spaced(ms[0].slot) && Valid(ms[0].slot.node) && ValidMembers(ms[1..]))
  }

  /** No surplus comma anywhere. */
  predicate Strict(c: Cst)
    decreases c, 1
  {
    match c
    case CArr(items, tail) => !tail.comma && StrictItems(items)
    case CObj(members, tail) => !tail.comma && StrictMembers(members)
    case _ => true
  }

  predicate StrictItems(xs: seq<Slot>)
    decreases xs, 0
  {
    xs == [] || (Strict(xs[0].node) && StrictItems(xs[1..]))
  }

  predicate StrictMembers(ms: seq<Member>)
    decreases ms, 0
  {
    ms == [] || (Strict(ms[0].slot.node) && StrictMembers(ms[1..]))
  }

  // ---------------------------------------------------------------- meaning

  function Value(c: Cst): Json
    requires Valid(c)
    decreases c, 1
  {
    match c
    case CWord(w) => JWord(w)
    case CNum(token) => JNum(token)
    case CStr(body) => JStr(TextOf(body))
    case CArr(items, _) => JArr(ItemValues(items))
    case CObj(members, _) => JObj(DictOf(MemberValues(members)))
  }

  function ItemValues(xs: seq<Slot>): seq<Json>
    requires ValidItems(xs)
    decreases xs, 0
  {
    if xs == [] then [] else [Value(xs[0].node)] + ItemValues(xs[1..])
  }

  function MemberValues(ms: seq<Member>): seq<Entry>
    requires ValidMembers(ms)
    decreases ms, 0
  {
    if ms == [] then [] else [Entry(TextOf(ms[0].key), Value(ms[0].slot.node))] + MemberValues(ms[1..])
  }

  // ---------------------------------------------------------------- the reader, token by token

  /** A text before which a number token has certainly ended. */
  predicate Ends(k: Text) { k == [] || !ContinuesNumber(k[0]) }

  lemma {:induction false} DropAppend(a: Text, k: Text, n: nat)
    requires n <= |a|
    ensures (a + k)[n..] == a[n..] + k
  {
  }

  lemma {:induction false} SkipBlanksPast(ws: Text, t: Text)
    requires Blank(ws)
    ensures SkipBlanks(ws + t) == SkipBlanks(t)
  {
    if ws == [] {
      assert ws + t == t;
    } else {
      assert (ws + t)[1..] == ws[1..] + t;
      SkipBlanksPast(ws[1..], t);
    }
  }

  lemma {:induction false} DigitRunFront(a: Text, k: Text)
    requires k == [] || !IsDigit(k[0])
    ensures DigitRun(a + k) == DigitRun(a)
  {
    if a == [] {
      assert a + k == k;
    } else {
      assert (a + k)[1..] == a[1..] + k;
      DigitRunFront(a[1..], k);
    }
  }

  lemma {:induction false} FracFront(t: Text, k: Text)
    requires Ends(k) && t != [0x2E]
    ensures FracLen(t + k) == FracLen(t)
  {
    if |t| >= 2 {
      DropAppend(t, k, 1);
      DigitRunFront(t[1..], k);
    }
  }

  lemma {:induction false} ExpFront(t: Text, k: Text)
    requires Ends(k) && ExpLen(t) == |t|
    ensures ExpLen(t + k) == |t|
  {
    if t == [] {
      assert t + k == k;
    } else {
      var j := if |t| > 1 && (t[1] == 0x2B || t[1] == 0x2D) then 2 else 1;
      DropAppend(t, k, j);
      DigitRunFront(t[j..], k);
    }
  }

  lemma {:induction false} IntFront(t: Text, k: Text)
    requires Ends(k) && IntLen(t) > 0
    ensures IntLen(t + k) == IntLen(t)
  {
    var sign := if t[0] == 0x2D then 1 else 0;
    DropAppend(t, k, sign);
    DigitRunFront(t[sign..], k);
  }

  lemma {:induction false} NotAPoint(t: Text)
    requires IsNumber(t)
    ensures t[IntLen(t)..] != [0x2E]
  {
    var f := t[IntLen(t)..];
    assert t[IntLen(t) + FracLen(f)..] == f[FracLen(f)..];
  }

  lemma {:induction false} NumberParts(t: Text)
    requires IsNumber(t)
    ensures var i := IntLen(t);
            var e := i + FracLen(t[i..]);
            0 < i <= e <= |t| && t[i..] != [0x2E] && ExpLen(t[e..]) == |t[e..]|
  {
    NotAPoint(t);
  }

  /** A number token is read up to its end when what follows cannot continue it. */
  lemma {:induction false} NumberFront(t: Text, k: Text)
    requires IsNumber(t) && Ends(k)
    ensures NumberLen(t + k) == |t|
  {
    NumberParts(t);
    IntFront(t, k);
    var i := IntLen(t);
    DropAppend(t, k, i);
    FracFront(t[i..], k);
    var e := i + FracLen(t[i..]);
    DropAppend(t, k, e);
    ExpFront(t[e..], k);
  }

  lemma {:induction false} UnitFront(s: Text, k: Text)
    requires ParseUnit(s).Ok?
    ensures ParseUnit(s + k) == Ok(ParseUnit(s).value, ParseUnit(s).rest + k)
  {
    if s[0] != BACKSLASH {
      assert (s + k)[1..] == s[1..] + k;
    } else if s[1] == LETTER_U {
      assert (s + k)[2..] == s[2..] + k;
      assert (s + k)[6..] == s[6..] + k;
    } else {
      assert (s + k)[2..] == s[2..] + k;
    }
  }

  /** How a character of a literal reads does not depend on what follows it. */
  lemma {:induction false} UnitAlone(s: Text, n: nat, t: Text)
    requires ParseUnit(s).Ok? && n == |s| - |ParseUnit(s).rest|
    ensures n <= |s| && ParseUnit(s[..n] + t) == Ok(ParseUnit(s).value, t)
  {
    var r := s[..n] + t;
    assert r[n..] == t;
    if s[0] == BACKSLASH && s[1] == LETTER_U {
      assert forall i :: 0 <= i < 4 ==> r[2..][i] == s[2..][i];
    }
  }

  lemma {:induction false} BodyAfterUnit(front: Text, u: Unit, tail: Text)
    requires front != [] && front[0] != QUOTE && IsBody(tail)
    requires ParseUnit(front + (tail + [QUOTE])) == Ok(u, tail + [QUOTE])
    ensures IsBody(front + tail) && UnitsOf(front + tail) == [u] + UnitsOf(tail)
  {
    assert front + tail + [QUOTE] == front + (tail + [QUOTE]);
  }

  lemma {:induction false} BodySplits(body: Text) returns (n: nat)
    requires IsBody(body) && body != []
    ensures 0 < n <= |body| && body[0] != QUOTE && ParseUnit(body + [QUOTE]).Ok?
    ensures ParseUnit(body + [QUOTE]).rest == body[n..] + [QUOTE] && (body[0] == COMMA ==> n == 1)
    ensures IsBody(body[n..]) && UnitsOf(body) == [ParseUnit(body + [QUOTE]).value] + UnitsOf(body[n..])
  {
    var s := body + [QUOTE];
    assert s[0] != QUOTE;
    var rest := ParseUnit(s).rest;
    n := |s| - |rest|;
    UnitEnds(s);
    assert rest != [];
    assert rest == body[n..] + [QUOTE];
  }

  lemma {:induction false} UnitEnds(s: Text)
    requires ParseUnit(s).Ok?
    ensures var n := |s| - |ParseUnit(s).rest|;
            0 < n <= |s| && ParseUnit(s).rest == s[n..] && (s[0] == COMMA ==> n == 1)
  {
  }

  lemma {:induction false} UnitsFront(s: Text, k: Text)
    requires ParseUnits(s).Ok?
    ensures ParseUnits(s + k) == Ok(ParseUnits(s).value, ParseUnits(s).rest + k)
  {
    if s[0] == QUOTE {
      assert (s + k)[1..] == s[1..] + k;
    } else {
      UnitFront(s, k);
      UnitsFront(ParseUnit(s).rest, k);
    }
  }

  lemma {:induction false} StringFront(body: Text, k: Text)
    requires IsBody(body)
    ensures ParseString(body + [QUOTE] + k) == Ok(TextOf(body), k)
  {
    UnitsFront(body + [QUOTE], k);
    assert [] + k == k;
  }

  lemma {:induction false} WordFront(w: Word, k: Text)
    ensures ParseValue(Spell(w) + k) == Ok(JWord(w), k)
  {
    var s := Spell(w) + k;
    assert s[|Spell(w)|..] == k;
    assert s[0] == Spell(w)[0] && s[1] == Spell(w)[1];
    assert IntLen(s) == 0;
  }

  /** No value starts with a comma or a closing bracket. */
  lemma {:induction false} NoValueHere(s: Text)
    requires s != [] && (s[0] == COMMA || s[0] == RBRACKET || s[0] == RBRACE)
    ensures ParseValue(s) == Err
  {
    assert NumberLen(s) == 0;
  }

  lemma {:induction false} ValueIsNumber(s: Text)
    requires s != [] && (s[0] == 0x2D || IsDigit(s[0])) && NumberLen(s) > 0
    ensures ParseValue(s) == Ok(JNum(s[..NumberLen(s)]), s[NumberLen(s)..])
  {
  }

  lemma {:induction false} ParseNumber(token: Text, k: Text)
    requires IsNumber(token) && Ends(k)
    ensures ParseValue(token + k) == Ok(JNum(token), k)
  {
    NumberFront(token, k);
    NumberStart(token);
    assert (token + k)[0] == token[0];
    ValueIsNumber(token + k);
    assert (token + k)[..|token|] == token && (token + k)[|token|..] == k;
  }

  lemma {:induction false} ParseQuoted(body: Text, k: Text)
    requires IsBody(body)
    ensures ParseValue(Quoted(body) + k) == Ok(JStr(TextOf(body)), k)
  {
    assert (Quoted(body) + k)[1..] == body + [QUOTE] + k;
    StringFront(body, k);
  }

  lemma {:induction false} ParseBracketed(b: Code, inner: Text)
    requires b == LBRACKET || b == LBRACE
    ensures ParseValue([b] + inner) == if b == LBRACKET then ParseArray(inner) else ParseObject(inner)
  {
    assert ([b] + inner)[1..] == inner;
  }

  lemma {:induction false} NumberStart(t: Text)
    requires IsNumber(t)
    ensures t[0] == 0x2D || IsDigit(t[0])
  {
  }

  /** The first character of a node is printable ASCII and no closing bracket. */
  lemma {:induction false} RenderSolid(c: Cst)
    requires Valid(c)
    ensures Render(c) != [] && 0x20 < Render(c)[0] < 0x7F
    ensures Render(c)[0] != RBRACKET && Render(c)[0] != RBRACE
  {
    match c
    case CWord(w) => assert Spell(w)[0] in {0x6E, 0x74, 0x66, 0x4E, 0x49, 0x2D};
    case CNum(token) => NumberStart(token);
    case CStr(body) => assert Quoted(body)[0] == QUOTE;
    case CArr(items, tail) => assert Render(c)[0] == LBRACKET;
    case CObj(members, tail) => assert Render(c)[0] == LBRACE;
  }

  // ---------------------------------------------------------------- the characters of a number

  /** Only digits, signs, a point and exponent letters. */
  predicate NumberText(t: Text) {
    forall i :: 0 <= i < |t| ==> ContinuesNumber(t[i]) || t[i] == 0x2B || t[i] == 0x2D
  }

  lemma {:induction false} DigitCharacters(s: Text)
    ensures NumberText(s[..DigitRun(s)])
  {
    if s != [] && IsDigit(s[0]) {
      DigitCharacters(s[1..]);
      assert s[..DigitRun(s)] == [s[0]] + s[1..][..DigitRun(s[1..])];
    }
  }

  lemma {:induction false} IntCharacters(s: Text)
    ensures NumberText(s[..IntLen(s)])
  {
    var sign := if s != [] && s[0] == 0x2D then 1 else 0;
    DigitCharacters(s[sign..]);
    if IntLen(s) > sign + 1 {
      assert s[..IntLen(s)] == s[..sign] + s[sign..][..DigitRun(s[sign..])];
    }
  }

  lemma {:induction false} FracCharacters(s: Text)
    ensures NumberText(s[..FracLen(s)])
  {
    if FracLen(s) > 0 {
      DigitCharacters(s[1..]);
      assert s[..FracLen(s)] == [s[0]] + s[1..][..DigitRun(s[1..])];
    }
  }

  lemma {:induction false} ExpCharacters(s: Text)
    ensures NumberText(s[..ExpLen(s)])
  {
    if ExpLen(s) > 0 {
      var j := if |s| > 1 && (s[1] == 0x2B || s[1] == 0x2D) then 2 else 1;
      DigitCharacters(s[j..]);
      assert s[..ExpLen(s)] == s[..j] + s[j..][..DigitRun(s[j..])];
    }
  }

  lemma {:induction false} NumberTextParts(t: Text, n: nat)
    requires n <= |t| && NumberText(t[..n]) && NumberText(t[n..])
    ensures NumberText(t)
  {
    assert forall i :: 0 <= i < |t| ==> t[i] == if i < n then t[..n][i] else t[n..][i - n];
  }

  lemma {:induction false} TailCharacters(f: Text)
    requires FracLen(f) + ExpLen(f[FracLen(f)..]) == |f|
    ensures NumberText(f)
  {
    var m := FracLen(f);
    ExpCharacters(f[m..]);
    assert f[m..][..|f| - m] == f[m..];
    FracCharacters(f);
    NumberTextParts(f, m);
  }

  lemma {:induction false} NumberCharacters(t: Text)
    requires IsNumber(t)
    ensures NumberText(t)
  {
    NumberParts(t);
    var i := IntLen(t);
    var m := FracLen(t[i..]);
    assert t[i + m..] == t[i..][m..];
    TailCharacters(t[i..]);
    IntCharacters(t);
    NumberTextParts(t, i);
  }

  // ---------------------------------------------------------------- the reader on whole trees

  /** The reader, on any valid tree and whatever follows it: the meaning of the tree when it has no
      surplus comma, an error when it has one. */
  lemma {:induction false} ParseRender(c: Cst, k: Text)
    requires Valid(c) && Ends(k)
    ensures ParseValue(Render(c) + k) == if Strict(c) then Ok(Value(c), k) else Err
    decreases c, 1
  {
    match c
    case CWord(w) => WordFront(w, k);
    case CNum(token) => ParseNumber(token, k);
    case CStr(body) => ParseQuoted(body, k);
    case CArr(items, tail) =>
      ParseItemsRender(items, tail, k);
      ParseArrayRender(items, tail, k);
    case CObj(members, tail) =>
      ParseMembersRender(members, tail, k);
      ParseObjectRender(members, tail, k);
  }

  /** The text of a list of items up to its closing bracket, read from the first token on. */
  function ItemsText(xs: seq<Slot>, tail: Tail, k: Text): Text {
    SkipBlanks(RenderItems(xs) + (RenderTail(tail) + [RBRACKET] + k))
  }

  predicate ItemsRead(xs: seq<Slot>, tail: Tail, k: Text)
    requires ValidItems(xs)
  {
    var s := ItemsText(xs, tail, k);
    if xs == [] && !tail.comma then s == [RBRACKET] + k
    else s != [] && s[0] != RBRACKET
         && ParseItems(s) == if StrictItems(xs) && !tail.comma then Ok(ItemValues(xs), k) else Err
  }

  lemma {:induction false} BracketedText(open: Text, inner: Text, tail: Text, close: Text, k: Text)
    ensures open + inner + tail + close + k == open + (inner + (tail + close + k))
  {
  }

  lemma {:induction false} ParseArrayRender(items: seq<Slot>, tail: Tail, k: Text)
    requires ValidItems(items) && Blank(tail.gap) && ItemsRead(items, tail, k)
    ensures var c := CArr(items, tail);
            ParseValue(Render(c) + k) == if Strict(c) then Ok(Value(c), k) else Err
  {
    var c := CArr(items, tail);
    var inner := RenderItems(items) + (RenderTail(tail) + [RBRACKET] + k);
    BracketedText([LBRACKET], RenderItems(items), RenderTail(tail), [RBRACKET], k);
    ParseBracketed(LBRACKET, inner);
    assert ([RBRACKET] + k)[1..] == k;
  }

  function MembersText(ms: seq<Member>, tail: Tail, k: Text): Text {
    SkipBlanks(RenderMembers(ms) + (RenderTail(tail) + [RBRACE] + k))
  }

  predicate MembersRead(ms: seq<Member>, tail: Tail, k: Text)
    requires ValidMembers(ms)
  {
    var s := MembersText(ms, tail, k);
    if ms == [] && !tail.comma then s == [RBRACE] + k
    else s != [] && s[0] != RBRACE
         && ParseMembers(s) == if StrictMembers(ms) && !tail.comma then Ok(MemberValues(ms), k) else Err
  }

  lemma {:induction false} ParseObjectRender(members: seq<Member>, tail: Tail, k: Text)
    requires ValidMembers(members) && Blank(tail.gap) && MembersRead(members, tail, k)
    ensures var c := CObj(members, tail);
            ParseValue(Render(c) + k) == if Strict(c) then Ok(Value(c), k) else Err
  {
    var c := CObj(members, tail);
    var inner := RenderMembers(members) + (RenderTail(tail) + [RBRACE] + k);
    BracketedText([LBRACE], RenderMembers(members), RenderTail(tail), [RBRACE], k);
    ParseBracketed(LBRACE, inner);
    assert ([RBRACE] + k)[1..] == k;
  }

  /** Is `s` a text whose first token is the node of `x`, with `after` behind the node? */
  predicate SlotRead(s: Text, x: Slot, after: Text)
    requires Valid(x.node)
  {
    && s != [] && Render(x.node) != [] && s[0] == Render(x.node)[0]
    && var r := ParseValue(s);
    if Strict(x.node) then r.Ok? && r.value == Value(x.node) && SkipBlanks(r.rest) == after else r.Err?
  }

  lemma {:induction false} ParseSlotRender(x: Slot, k: Text)
    requires Spaced(x) && Valid(x.node) && Ends(k)
    ensures SlotRead(SkipBlanks(Around(x, Render(x.node)) + k), x, SkipBlanks(k))
    decreases x, 2
  {
    var t := Render(x.node) + (x.post + k);
    assert Around(x, Render(x.node)) + k == x.pre + t;
    SkipBlanksPast(x.pre, t);
    RenderSolid(x.node);
    assert SkipBlanks(t) == t;
    ParseRender(x.node, x.post + k);
    SkipBlanksPast(x.post, k);
  }

  lemma {:induction false} TailBlanks(tail: Tail, b: Code, k: Text)
    requires Blank(tail.gap) && !IsBlank(b)
    ensures SkipBlanks(RenderTail(tail) + [b] + k)
            == if tail.comma then [COMMA] + tail.gap + [b] + k else [b] + k
    ensures tail.comma ==> SkipBlanks(SkipBlanks(RenderTail(tail) + [b] + k)[1..]) == [b] + k
  {
    var t := [b] + k;
    SkipBlanksPast(tail.gap, t);
    assert tail.gap + [b] + k == tail.gap + t;
    if tail.comma {
      assert RenderTail(tail) + [b] + k == [COMMA] + (tail.gap + t);
      assert ([COMMA] + (tail.gap + t))[1..] == tail.gap + t;
    } else {
      assert RenderTail(tail) + [b] + k == tail.gap + t;
    }
  }

  lemma {:induction false} GapEnds(tail: Tail, b: Code, k: Text)
    requires Blank(tail.gap) && !ContinuesNumber(b)
    ensures Ends(RenderTail(tail) + [b] + k)
  {
  }

  lemma {:induction false} ItemsReadNone(tail: Tail, k: Text)
    requires Blank(tail.gap)
    ensures ItemsRead([], tail, k)
  {
    var close := RenderTail(tail) + [RBRACKET] + k;
    assert RenderItems([]) + close == close;
    TailBlanks(tail, RBRACKET, k);
    NoValueHere(SkipBlanks(close));
  }

  lemma {:induction false} SplitFirst(a: Text, b: Text, close: Text)
    ensures a + [COMMA] + b + close == a + ([COMMA] + (b + close))
  {
  }

  /** The text from the first item on, and what follows that item. */
  lemma {:induction false} ItemsFirst(xs: seq<Slot>, tail: Tail, k: Text) returns (more: Text)
    requires xs != [] && Blank(tail.gap)
    ensures ItemsText(xs, tail, k) == SkipBlanks(Around(xs[0], Render(xs[0].node)) + more)
    ensures Ends(more)
    ensures |xs| == 1 ==> more == RenderTail(tail) + [RBRACKET] + k
    ensures |xs| > 1 ==> SkipBlanks(more) == more != [] && more[0] == COMMA
                         && SkipBlanks(more[1..]) == ItemsText(xs[1..], tail, k)
  {
    var close := RenderTail(tail) + [RBRACKET] + k;
    more := if |xs| == 1 then close else [COMMA] + (RenderItems(xs[1..]) + close);
    if |xs| > 1 {
      SplitFirst(Around(xs[0], Render(xs[0].node)), RenderItems(xs[1..]), close);
    }
    GapEnds(tail, RBRACKET, k);
    assert |xs| > 1 ==> more[1..] == RenderItems(xs[1..]) + close;
  }

  lemma {:induction false} ParseLastItem(s: Text, tail: Tail, k: Text)
    requires Blank(tail.gap)
    requires var r := ParseValue(s); r.Ok? && SkipBlanks(r.rest) == SkipBlanks(RenderTail(tail) + [RBRACKET] + k)
    ensures ParseItems(s) == if tail.comma then Err else Ok([ParseValue(s).value], k)
  {
    TailBlanks(tail, RBRACKET, k);
    NoValueHere([RBRACKET] + k);
    assert ([RBRACKET] + k)[1..] == k;
  }

  lemma {:induction false} ParseItemThenMore(s: Text, more: Text)
    requires more != [] && more[0] == COMMA
    requires var r := ParseValue(s); r.Ok? && SkipBlanks(r.rest) == more
    ensures ParseItems(s) == match ParseItems(SkipBlanks(more[1..]))
                             case Err => Err
                             case Ok(vs, rest) => Ok([ParseValue(s).value] + vs, rest)
  {
  }

  lemma {:induction false} ItemsReadLast(xs: seq<Slot>, tail: Tail, k: Text)
    requires ValidItems(xs) && |xs| == 1 && Blank(tail.gap)
    requires SlotRead(ItemsText(xs, tail, k), xs[0], SkipBlanks(RenderTail(tail) + [RBRACKET] + k))
    ensures ItemsRead(xs, tail, k)
  {
    RenderSolid(xs[0].node);
    assert xs[1..] == [];
    assert StrictItems(xs) == Strict(xs[0].node);
    if Strict(xs[0].node) {
      assert ItemValues(xs) == [Value(xs[0].node)];
      ParseLastItem(ItemsText(xs, tail, k), tail, k);
    }
  }

  lemma {:induction false} ItemsReadMore(xs: seq<Slot>, tail: Tail, k: Text, more: Text)
    requires ValidItems(xs) && |xs| > 1 && more != [] && more[0] == COMMA
    requires SlotRead(ItemsText(xs, tail, k), xs[0], more)
    requires SkipBlanks(more[1..]) == ItemsText(xs[1..], tail, k) && ItemsRead(xs[1..], tail, k)
    ensures ItemsRead(xs, tail, k)
  {
    RenderSolid(xs[0].node);
    if Strict(xs[0].node) {
      ParseItemThenMore(ItemsText(xs, tail, k), more);
    }
  }

  lemma {:induction false} ParseItemsRender(xs: seq<Slot>, tail: Tail, k: Text)
    requires ValidItems(xs) && Blank(tail.gap)
    ensures ItemsRead(xs, tail, k)
    decreases xs, 0
  {
    if xs == [] {
      ItemsReadNone(tail, k);
    } else {
      var more := ItemsFirst(xs, tail, k);
      ParseSlotRender(xs[0], more);
      RenderSolid(xs[0].node);
      var s := ItemsText(xs, tail, k);
      if |xs| == 1 {
        ItemsReadLast(xs, tail, k);
      } else {
        ParseItemsRender(xs[1..], tail, k);
        ItemsReadMore(xs, tail, k, more);
      }
    }
  }

  lemma {:induction false} KeyedText(m: Member, inner: Text, more: Text)
    ensures Keyed(m, inner) + more
            == m.keyPre + (Quoted(m.key) + (m.keyPost + ([COLON] + (Around(m.slot, inner) + more))))
  {
  }

  /** What follows the blanks before a member: its key, a colon, its value. */
  lemma {:induction false} KeyFront(m: Member, more: Text)
    requires GoodKey(m)
    ensures var inner := Render(m.slot.node);
            var s := SkipBlanks(Keyed(m, inner) + more);
            && s != [] && s[0] == QUOTE
            && var r := ParseString(s[1..]);
            && r.Ok? && r.value == TextOf(m.key)
            && SkipBlanks(r.rest) == [COLON] + (Around(m.slot, inner) + more)
  {
    var value := Around(m.slot, Render(m.slot.node));
    var fromColon := [COLON] + (value + more);
    var afterKey := m.keyPost + fromColon;
    var fromKey := Quoted(m.key) + afterKey;
    KeyedText(m, Render(m.slot.node), more);
    SkipBlanksPast(m.keyPre, fromKey);
    assert fromKey[1..] == m.key + [QUOTE] + afterKey;
    StringFront(m.key, afterKey);
    SkipBlanksPast(m.keyPost, fromColon);
  }

  lemma {:induction false} MembersReadNone(tail: Tail, k: Text)
    requires Blank(tail.gap)
    ensures MembersRead([], tail, k)
  {
    var close := RenderTail(tail) + [RBRACE] + k;
    assert RenderMembers([]) + close == close;
    TailBlanks(tail, RBRACE, k);
  }

  lemma {:induction false} MembersFirst(ms: seq<Member>, tail: Tail, k: Text) returns (more: Text)
    requires ms != [] && Blank(tail.gap)
    ensures MembersText(ms, tail, k) == SkipBlanks(Keyed(ms[0], Render(ms[0].slot.node)) + more)
    ensures Ends(more)
    ensures |ms| == 1 ==> more == RenderTail(tail) + [RBRACE] + k
    ensures |ms| > 1 ==> SkipBlanks(more) == more != [] && more[0] == COMMA
                         && SkipBlanks(more[1..]) == MembersText(ms[1..], tail, k)
  {
    var close := RenderTail(tail) + [RBRACE] + k;
    more := if |ms| == 1 then close else [COMMA] + (RenderMembers(ms[1..]) + close);
    if |ms| > 1 {
      SplitFirst(Keyed(ms[0], Render(ms[0].slot.node)), RenderMembers(ms[1..]), close);
    }
    GapEnds(tail, RBRACE, k);
    assert |ms| > 1 ==> more[1..] == RenderMembers(ms[1..]) + close;
  }

  /** Is `s` a text whose first member is `m`, with `after` behind its value? */
  predicate MemberRead(s: Text, m: Member, after: Text)
    requires GoodKey(m) && Valid(m.slot.node)
  {
    && s != [] && s[0] == QUOTE
    && var key := ParseString(s[1..]);
    && key.Ok? && key.value == TextOf(m.key)
    && var s1 := SkipBlanks(key.rest);
    && s1 != [] && s1[0] == COLON
    && var r := ParseValue(SkipBlanks(s1[1..]));
    if Strict(m.slot.node) then r.Ok? && r.value == Value(m.slot.node) && SkipBlanks(r.rest) == after
    else r.Err?
  }

  lemma {:induction false} ParseMemberRender(m: Member, more: Text)
    requires GoodKey(m) && Spaced(m.slot) && Valid(m.slot.node) && Ends(more)
    ensures MemberRead(SkipBlanks(Keyed(m, Render(m.slot.node)) + more), m, SkipBlanks(more))
    decreases m, 2
  {
    KeyFront(m, more);
    var value := Around(m.slot, Render(m.slot.node)) + more;
    assert ([COLON] + value)[1..] == value;
    ParseSlotRender(m.slot, more);
  }

  lemma {:induction false} ParseBadMember(s: Text, m: Member, after: Text)
    requires GoodKey(m) && Valid(m.slot.node) && !Strict(m.slot.node) && MemberRead(s, m, after)
    ensures ParseMembers(s) == Err
  {
  }

  lemma {:induction false} ParseLastMember(s: Text, m: Member, tail: Tail, k: Text)
    requires GoodKey(m) && Valid(m.slot.node) && Strict(m.slot.node) && Blank(tail.gap)
    requires MemberRead(s, m, SkipBlanks(RenderTail(tail) + [RBRACE] + k))
    ensures ParseMembers(s) == if tail.comma then Err else Ok([Entry(TextOf(m.key), Value(m.slot.node))], k)
  {
    TailBlanks(tail, RBRACE, k);
    assert ([RBRACE] + k)[1..] == k;
  }

  lemma {:induction false} ParseMemberThenMore(s: Text, m: Member, more: Text)
    requires GoodKey(m) && Valid(m.slot.node) && Strict(m.slot.node)
    requires more != [] && more[0] == COMMA && MemberRead(s, m, more)
    ensures ParseMembers(s) == match ParseMembers(SkipBlanks(more[1..]))
                               case Err => Err
                               case Ok(ps, rest) => Ok([Entry(TextOf(m.key), Value(m.slot.node))] + ps, rest)
  {
  }

  lemma {:induction false} MembersReadLast(ms: seq<Member>, tail: Tail, k: Text)
    requires ValidMembers(ms) && |ms| == 1 && Blank(tail.gap)
    requires MemberRead(MembersText(ms, tail, k), ms[0], SkipBlanks(RenderTail(tail) + [RBRACE] + k))
    ensures MembersRead(ms, tail, k)
  {
    assert ms[1..] == [];
    assert StrictMembers(ms) == Strict(ms[0].slot.node);
    if Strict(ms[0].slot.node) {
      assert MemberValues(ms) == [Entry(TextOf(ms[0].key), Value(ms[0].slot.node))];
      ParseLastMember(MembersText(ms, tail, k), ms[0], tail, k);
    } else {
      ParseBadMember(MembersText(ms, tail, k), ms[0], SkipBlanks(RenderTail(tail) + [RBRACE] + k));
    }
  }

  lemma {:induction false} MembersReadMore(ms: seq<Member>, tail: Tail, k: Text, more: Text)
    requires ValidMembers(ms) && |ms| > 1 && more != [] && more[0] == COMMA
    requires MemberRead(MembersText(ms, tail, k), ms[0], more)
    requires SkipBlanks(more[1..]) == MembersText(ms[1..], tail, k) && MembersRead(ms[1..], tail, k)
    ensures MembersRead(ms, tail, k)
  {
    if Strict(ms[0].slot.node) {
      ParseMemberThenMore(MembersText(ms, tail, k), ms[0], more);
    } else {
      ParseBadMember(MembersText(ms, tail, k), ms[0], more);
    }
  }

  lemma {:induction false} ParseMembersRender(ms: seq<Member>, tail: Tail, k: Text)
    requires ValidMembers(ms) && Blank(tail.gap)
    ensures MembersRead(ms, tail, k)
    decreases ms, 0
  {
    if ms == [] {
      MembersReadNone(tail, k);
    } else {
      var more := MembersFirst(ms, tail, k);
      ParseMemberRender(ms[0], more);
      if |ms| == 1 {
        MembersReadLast(ms, tail, k);
      } else {
        ParseMembersRender(ms[1..], tail, k);
        MembersReadMore(ms, tail, k, more);
      }
    }
  }

  /** `json.loads` on the text of any valid tree: its meaning, or an error exactly when the tree
      has a surplus comma. */
  lemma {:induction false} LoadsRender(c: Cst)
    requires Valid(c)
    ensures Loads(Render(c)) == if Strict(c) then Some(Value(c)) else None
  {
    RenderSolid(c);
    ParseRender(c, []);
    assert Render(c) + [] == Render(c);
  }
}
