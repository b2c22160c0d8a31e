/** The trailing-comma repair of `MLXModelClient._loads_lenient`, and what it does to a whole
    JSON text: the surplus commas go, and so does any comma that looks like one inside a string. */
module JsonRepair {
  import opened Options
  import opened JsonText
  import opened JsonSyntax
  import opened JsonWeight

  /** The characters `\s` matches in a Python `str` pattern. */
  predicate IsSpace(c: Code) {
    || 0x09 <= c <= 0x0D || 0x1C <= c <= 0x20 || c == 0x85 || c == 0xA0 || c == 0x1680
    || 0x2000 <= c <= 0x200A || c == 0x2028 || c == 0x2029 || c == 0x202F || c == 0x205F || c == 0x3000
  }

  predicate IsCloser(c: Code) { c == RBRACE || c == RBRACKET }

  function SpaceRun(s: Text): (n: nat)
    ensures n <= |s|
  {
    if s != [] && IsSpace(s[0]) then 1 + SpaceRun(s[1..]) else 0
  }

  /** Length of the match of `,(\s*[}\]])` at the front of `s`; 0 when there is none. */
  function MatchLen(s: Text): (n: nat)
    ensures n <= |s|
  {
    if s == [] || s[0] != COMMA then 0
    else
      var w := SpaceRun(s[1..]);
      if 1 + w < |s| && IsCloser(s[1 + w]) then 2 + w else 0
  }

  /** `re.sub(r",(\s*[}\]])", r"\1", s)`. */
  function Repair(s: Text): Text {
    if s == [] then []
    else
      var n := MatchLen(s);
      if n > 0 then s[1..n] + Repair(s[n..]) else [s[0]] + Repair(s[1..])
  }

  /** `_loads_lenient`; `None` is a JSON value only inside the option. */
  function LoadsLenient(candidate: Text): Option<Json> {
    match Loads(candidate)
    case Some(v) => Some(v)
    case None => Loads(Repair(candidate))
  }

  // ---------------------------------------------------------------- one comma at a time

  /** Is the first character that is not a space a closing bracket? */
  predicate ClosesNext(s: Text) {
    s != [] && if IsSpace(s[0]) then ClosesNext(s[1..]) else IsCloser(s[0])
  }

  /** Drops every comma that only spaces separate from a closing bracket. */
  function DropCommas(s: Text): (r: Text)
    ensures |r| <= |s|
  {
    if s == [] then []
    else if s[0] == COMMA && ClosesNext(s[1..]) then DropCommas(s[1..])
    else [s[0]] + DropCommas(s[1..])
  }

  lemma {:induction false} ClosesNextIsMatch(s: Text)
    ensures ClosesNext(s) <==> SpaceRun(s) < |s| && IsCloser(s[SpaceRun(s)])
  {
    if s != [] && IsSpace(s[0]) {
      ClosesNextIsMatch(s[1..]);
    }
  }

  predicate NoComma(s: Text) { forall i :: 0 <= i < |s| ==> s[i] != COMMA }

  lemma {:induction false} DropCommasPast(a: Text, t: Text)
    requires NoComma(a)
    ensures DropCommas(a + t) == a + DropCommas(t)
  {
    if a == [] {
      assert a + t == t;
    } else {
      assert (a + t)[1..] == a[1..] + t;
      DropCommasPast(a[1..], t);
    }
  }

  lemma {:induction false} SpaceRunIsSpace(s: Text)
    ensures forall i :: 0 <= i < SpaceRun(s) ==> IsSpace(s[i])
  {
    if s != [] && IsSpace(s[0]) {
      SpaceRunIsSpace(s[1..]);
      assert forall i :: 0 < i < SpaceRun(s) ==> s[i] == s[1..][i - 1];
    }
  }

  lemma {:induction false} MatchSplits(s: Text, n: nat)
    requires n == MatchLen(s) > 0
    ensures ClosesNext(s[1..]) && NoComma(s[1..n]) && s[1..] == s[1..n] + s[n..]
  {
    ClosesNextIsMatch(s[1..]);
    SpaceRunIsSpace(s[1..]);
    assert forall i :: 1 <= i < n - 1 ==> s[i] == s[1..][i - 1];
  }

  /** The regular expression's left-to-right, non-overlapping substitution drops each such comma. */
  lemma {:induction false} RepairIsDropCommas(s: Text)
    ensures Repair(s) == DropCommas(s)
  {
    if s != [] {
      var n := MatchLen(s);
      if n > 0 {
        RepairIsDropCommas(s[n..]);
        MatchSplits(s, n);
        DropCommasPast(s[1..n], s[n..]);
      } else {
        RepairIsDropCommas(s[1..]);
        ClosesNextIsMatch(s[1..]);
      }
    }
  }

  // ---------------------------------------------------------------- concatenation

  lemma {:induction false} ClosesNextAppend(a: Text, b: Text)
    requires !ClosesNext(b)
    ensures ClosesNext(a + b) == ClosesNext(a)
  {
    if a == [] {
      assert a + b == b;
    } else {
      assert (a + b)[1..] == a[1..] + b;
      ClosesNextAppend(a[1..], b);
    }
  }

  lemma {:induction false} DropCommasAppend(a: Text, b: Text)
    requires !ClosesNext(b)
    ensures DropCommas(a + b) == DropCommas(a) + DropCommas(b)
  {
    if a == [] {
      assert a + b == b;
    } else {
      assert (a + b)[1..] == a[1..] + b;
      DropCommasAppend(a[1..], b);
      ClosesNextAppend(a[1..], b);
    }
  }

  lemma {:induction false} ClosesNextPast(ws: Text, t: Text)
    requires Blank(ws)
    ensures ClosesNext(ws + t) == ClosesNext(t)
  {
    if ws == [] {
      assert ws + t == t;
    } else {
      assert (ws + t)[1..] == ws[1..] + t;
      ClosesNextPast(ws[1..], t);
    }
  }

  // ---------------------------------------------------------------- repaired trees

  /** The tree whose text the repair leaves. */
  function Fix(c: Cst): Cst
    decreases c, 1
  {
    match c
    case CStr(body) => CStr(DropCommas(body))
    case CArr(items, tail) => CArr(FixItems(items), Tail(false, tail.gap))
    case CObj(members, tail) => CObj(FixMembers(members), Tail(false, tail.gap))
    case _ => c
  }

  function FixItems(xs: seq<Slot>): (r: seq<Slot>)
    ensures |r| == |xs|
    decreases xs, 0
  {
    if xs == [] then [] else [xs[0].(node := Fix(xs[0].node))] + FixItems(xs[1..])
  }

  function FixMembers(ms: seq<Member>): (r: seq<Member>)
    ensures |r| == |ms|
    decreases ms, 0
  {
    if ms == [] then []
    else
      var m := ms[0];
      [m.(key := DropCommas(m.key), slot := m.slot.(node := Fix(m.slot.node)))] + FixMembers(ms[1..])
  }

  /** Does `s` hold a comma, then only spaces, then a closing bracket? */
  predicate HasRun(s: Text) {
    exists i, j :: 0 <= i < j < |s| && RunFromTo(s, i, j)
  }

  predicate RunFromTo(s: Text, i: nat, j: nat)
    requires i < j < |s|
  {
    s[i] == COMMA && IsCloser(s[j]) && forall k :: i < k < j ==> IsSpace(s[k])
  }

  /** No literal of the tree holds such a run. */
  predicate RunFree(c: Cst)
    decreases c, 1
  {
    match c
    case CStr(body) => !HasRun(body)
    case CArr(items, _) => RunFreeItems(items)
    case CObj(members, _) => RunFreeMembers(members)
    case _ => true
  }

  predicate RunFreeItems(xs: seq<Slot>)
    decreases xs, 0
  {
    xs == [] || (RunFree(xs[0].node) && RunFreeItems(xs[1..]))
  }

  predicate RunFreeMembers(ms: seq<Member>)
    decreases ms, 0
  {
    ms == [] || (!HasRun(ms[0].key) && RunFree(ms[0].slot.node) && RunFreeMembers(ms[1..]))
  }

  lemma {:induction false} DropCommasQuoted(body: Text, t: Text)
    ensures DropCommas(Quoted(body) + t) == Quoted(DropCommas(body)) + DropCommas(t)
  {
    var rest := [QUOTE] + t;
    assert Quoted(body) + t == [QUOTE] + (body + rest);
    DropCommasPast([QUOTE], body + rest);
    DropCommasAppend(body, rest);
    DropCommasPast([QUOTE], t);
  }

  lemma {:induction false} TailText(tail: Tail, b: Code, t: Text)
    ensures RenderTail(tail) + [b] + t
            == if tail.comma then [COMMA] + (tail.gap + ([b] + t)) else tail.gap + ([b] + t)
    ensures tail.gap + [b] + t == tail.gap + ([b] + t)
  {
  }

  lemma {:induction false} DropCommasTail(tail: Tail, b: Code, t: Text)
    requires Blank(tail.gap) && IsCloser(b)
    ensures DropCommas(RenderTail(tail) + [b] + t) == tail.gap + [b] + DropCommas(t)
  {
    var close := tail.gap + ([b] + t);
    TailText(tail, b, t);
    DropCommasPast(tail.gap + [b], t);
    ClosesNextPast(tail.gap, [b] + t);
    assert ([COMMA] + close)[1..] == close;
  }

  lemma {:induction false} WordHasNoComma(w: Word)
    ensures NoComma(Spell(w))
  {
    match w
    case WNull => case WTrue => case WFalse => case WNaN => case WInfinity => case WNegInfinity =>
  }

  /** A bracketed text, given what becomes of the inside. */
  lemma {:induction false} DropCommasBracketed(open: Code, inner: Text, fixed: Text, tail: Tail, b: Code, t: Text)
    requires open != COMMA && Blank(tail.gap) && IsCloser(b)
    requires var close := RenderTail(tail) + [b] + t; DropCommas(inner + close) == fixed + DropCommas(close)
    ensures DropCommas([open] + inner + RenderTail(tail) + [b] + t)
            == [open] + fixed + RenderTail(Tail(false, tail.gap)) + [b] + DropCommas(t)
  {
    var gap := RenderTail(tail);
    BracketedText([open], inner, gap, [b], t);
    DropCommasPast([open], inner + (gap + [b] + t));
    DropCommasTail(tail, b, t);
    var gap' := RenderTail(Tail(false, tail.gap));
    assert gap' == tail.gap;
    BracketedText([open], fixed, gap', [b], DropCommas(t));
  }

  lemma {:induction false} DropCommasRender(c: Cst, t: Text)
    requires Valid(c)
    ensures DropCommas(Render(c) + t) == Render(Fix(c)) + DropCommas(t)
    decreases c, 1
  {
    match c
    case CWord(w) =>
      WordHasNoComma(w);
      DropCommasPast(Spell(w), t);
    case CNum(token) =>
      NumberCharacters(token);
      DropCommasPast(token, t);
    case CStr(body) => DropCommasQuoted(body, t);
    case CArr(items, tail) =>
      DropCommasItems(items, RenderTail(tail) + [RBRACKET] + t);
      DropCommasBracketed(LBRACKET, RenderItems(items), RenderItems(FixItems(items)), tail, RBRACKET, t);
    case CObj(members, tail) =>
      DropCommasMembers(members, RenderTail(tail) + [RBRACE] + t);
      DropCommasBracketed(LBRACE, RenderMembers(members), RenderMembers(FixMembers(members)), tail, RBRACE, t);
  }

  lemma {:induction false} AroundText(x: Slot, inner: Text, t: Text)
    ensures Around(x, inner) + t == x.pre + (inner + (x.post + t))
  {
  }

  lemma {:induction false} DropCommasAround(x: Slot, inner: Text, fixed: Text, t: Text)
    requires Spaced(x) && DropCommas(inner + (x.post + t)) == fixed + DropCommas(x.post + t)
    ensures DropCommas(Around(x, inner) + t) == Around(x, fixed) + DropCommas(t)
    ensures inner != [] && !ClosesNext(inner + (x.post + t)) ==> !ClosesNext(Around(x, inner) + t)
  {
    var t1 := x.post + t;
    AroundText(x, inner, t);
    AroundText(x, fixed, DropCommas(t));
    DropCommasPast(x.pre, inner + t1);
    ClosesNextPast(x.pre, inner + t1);
    DropCommasPast(x.post, t);
  }

  lemma {:induction false} NodeOpens(c: Cst, t: Text)
    requires Valid(c)
    ensures Render(c) != [] && !ClosesNext(Render(c) + t)
  {
    RenderSolid(c);
    assert (Render(c) + t)[0] == Render(c)[0];
  }

  lemma {:induction false} FixedItemsText(xs: seq<Slot>)
    requires xs != []
    ensures var front := Around(xs[0], Render(Fix(xs[0].node)));
            RenderItems(FixItems(xs)) == if |xs| == 1 then front else front + [COMMA] + RenderItems(FixItems(xs[1..]))
  {
    var f := FixItems(xs);
    assert f[1..] == FixItems(xs[1..]);
    assert Around(f[0], Render(f[0].node)) == Around(xs[0], Render(Fix(xs[0].node)));
  }

  /** Two texts around a kept comma, given what becomes of each. */
  lemma {:induction false} DropCommasSeparated(a: Text, a': Text, b: Text, b': Text, t: Text)
    requires var more := [COMMA] + (b + t); DropCommas(a + more) == a' + DropCommas(more) && !ClosesNext(a + more)
    requires DropCommas(b + t) == b' + DropCommas(t) && !ClosesNext(b + t)
    ensures DropCommas(a + [COMMA] + b + t) == a' + [COMMA] + b' + DropCommas(t)
    ensures !ClosesNext(a + [COMMA] + b + t)
  {
    KeptComma(b + t);
    SplitFirst(a, b, t);
    SplitFirst(a', b', DropCommas(t));
  }

  lemma {:induction false} DropCommasItem(x: Slot, more: Text)
    requires Spaced(x) && Valid(x.node)
    requires DropCommas(Render(x.node) + (x.post + more)) == Render(Fix(x.node)) + DropCommas(x.post + more)
    ensures DropCommas(Around(x, Render(x.node)) + more) == Around(x, Render(Fix(x.node))) + DropCommas(more)
    ensures !ClosesNext(Around(x, Render(x.node)) + more)
  {
    NodeOpens(x.node, x.post + more);
    DropCommasAround(x, Render(x.node), Render(Fix(x.node)), more);
  }

  lemma {:induction false} DropCommasItems(xs: seq<Slot>, t: Text)
    requires ValidItems(xs)
    ensures DropCommas(RenderItems(xs) + t) == RenderItems(FixItems(xs)) + DropCommas(t)
    ensures xs != [] ==> !ClosesNext(RenderItems(xs) + t)
    decreases xs, 0
  {
    if xs == [] {
      assert RenderItems(xs) + t == t;
    } else {
      var more := if |xs| == 1 then t else [COMMA] + (RenderItems(xs[1..]) + t);
      DropCommasRender(xs[0].node, xs[0].post + more);
      DropCommasItem(xs[0], more);
      FixedItemsText(xs);
      if |xs| > 1 {
        DropCommasItems(xs[1..], t);
        DropCommasSeparated(Around(xs[0], Render(xs[0].node)), Around(xs[0], Render(Fix(xs[0].node))),
                            RenderItems(xs[1..]), RenderItems(FixItems(xs[1..])), t);
      }
    }
  }

  lemma {:induction false} KeptComma(rest: Text)
    requires !ClosesNext(rest)
    ensures DropCommas([COMMA] + rest) == [COMMA] + DropCommas(rest)
  {
    assert ([COMMA] + rest)[1..] == rest;
  }

  lemma {:induction false} DropCommasKeyed(m: Member, inner: Text, fixed: Text, t: Text)
    requires GoodKey(m) && Spaced(m.slot)
    requires DropCommas(Around(m.slot, inner) + t) == Around(m.slot, fixed) + DropCommas(t)
    ensures DropCommas(Keyed(m, inner) + t) == Keyed(m.(key := DropCommas(m.key)), fixed) + DropCommas(t)
    ensures !ClosesNext(Keyed(m, inner) + t)
  {
    var value := Around(m.slot, inner);
    var afterKey := m.keyPost + [COLON] + (value + t);
    Regroup6(m.keyPre, Quoted(m.key), m.keyPost, [COLON], value, t);
    DropCommasPast(m.keyPre, Quoted(m.key) + afterKey);
    ClosesNextPast(m.keyPre, Quoted(m.key) + afterKey);
    DropCommasQuoted(m.key, afterKey);
    DropCommasPast(m.keyPost + [COLON], value + t);
    Regroup6(m.keyPre, Quoted(DropCommas(m.key)), m.keyPost, [COLON], Around(m.slot, fixed), DropCommas(t));
  }

  lemma {:induction false} Regroup6(a: Text, b: Text, c: Text, d: Text, e: Text, f: Text)
    ensures a + b + c + d + e + f == a + (b + (c + d + (e + f)))
  {
  }

  lemma {:induction false} FixedMembersText(ms: seq<Member>)
    requires ms != []
    ensures var front := Keyed(ms[0].(key := DropCommas(ms[0].key)), Render(Fix(ms[0].slot.node)));
            RenderMembers(FixMembers(ms))
            == if |ms| == 1 then front else front + [COMMA] + RenderMembers(FixMembers(ms[1..]))
  {
    var f := FixMembers(ms);
    assert f[1..] == FixMembers(ms[1..]);
    KeyedAlike(f[0], ms[0].(key := DropCommas(ms[0].key)), Render(f[0].slot.node));
  }

  lemma {:induction false} KeyedAlike(m: Member, n: Member, inner: Text)
    requires m.keyPre == n.keyPre && m.key == n.key && m.keyPost == n.keyPost
    requires m.slot.pre == n.slot.pre && m.slot.post == n.slot.post
    ensures Keyed(m, inner) == Keyed(n, inner)
  {
  }

  lemma {:induction false} DropCommasMember(m: Member, more: Text)
    requires GoodKey(m) && Spaced(m.slot) && Valid(m.slot.node)
    requires DropCommas(Render(m.slot.node) + (m.slot.post + more))
             == Render(Fix(m.slot.node)) + DropCommas(m.slot.post + more)
    ensures DropCommas(Keyed(m, Render(m.slot.node)) + more)
            == Keyed(m.(key := DropCommas(m.key)), Render(Fix(m.slot.node))) + DropCommas(more)
    ensures !ClosesNext(Keyed(m, Render(m.slot.node)) + more)
  {
    DropCommasAround(m.slot, Render(m.slot.node), Render(Fix(m.slot.node)), more);
    DropCommasKeyed(m, Render(m.slot.node), Render(Fix(m.slot.node)), more);
  }

  lemma {:induction false} DropCommasMembers(ms: seq<Member>, t: Text)
    requires ValidMembers(ms)
    ensures DropCommas(RenderMembers(ms) + t) == RenderMembers(FixMembers(ms)) + DropCommas(t)
    ensures ms != [] ==> !ClosesNext(RenderMembers(ms) + t)
    decreases ms, 0
  {
    if ms == [] {
      assert RenderMembers(ms) + t == t;
    } else {
      var more := if |ms| == 1 then t else [COMMA] + (RenderMembers(ms[1..]) + t);
      DropCommasRender(ms[0].slot.node, ms[0].slot.post + more);
      DropCommasMember(ms[0], more);
      FixedMembersText(ms);
      if |ms| > 1 {
        DropCommasMembers(ms[1..], t);
        DropCommasSeparated(Keyed(ms[0], Render(ms[0].slot.node)),
                            Keyed(ms[0].(key := DropCommas(ms[0].key)), Render(Fix(ms[0].slot.node))),
                            RenderMembers(ms[1..]), RenderMembers(FixMembers(ms[1..])), t);
      }
    }
  }

  /** The repaired text of a tree is the text of the repaired tree. */
  lemma {:induction false} RepairRender(c: Cst)
    requires Valid(c)
    ensures Repair(Render(c)) == Render(Fix(c))
  {
    RepairIsDropCommas(Render(c));
    DropCommasRender(c, []);
    assert Render(c) + [] == Render(c);
    assert Render(Fix(c)) + DropCommas([]) == Render(Fix(c));
  }

  // ---------------------------------------------------------------- what it costs

  function Commas(s: Text): nat {
    if s == [] then 0 else (if s[0] == COMMA then 1 else 0) + Commas(s[1..])
  }

  function CommaUnits(us: seq<Unit>): nat {
    if us == [] then 0 else (if us[0].code == COMMA then 1 else 0) + CommaUnits(us[1..])
  }

  lemma {:induction false} DecodeCommas(us: seq<Unit>)
    ensures Commas(Decode(us)) == CommaUnits(us)
  {
    if us == [] {
    } else if PairAt(us) {
      DecodeCommas(us[2..]);
      assert us[1..][1..] == us[2..];
      assert CommaUnits(us) == CommaUnits(us[1..]);
    } else {
      DecodeCommas(us[1..]);
    }
  }

  lemma {:induction false} UnitHasNoComma(s: Text)
    requires ParseUnit(s).Ok? && s[0] != COMMA
    ensures var n := |s| - |ParseUnit(s).rest|;
            n > 0 && NoComma(s[..n]) && ParseUnit(s).rest == s[n..]
  {
    if s[0] == BACKSLASH && s[1] == LETTER_U {
      assert forall i :: 2 <= i < 6 ==> s[i] == s[2..][i - 2] && HexValue(s[i]) >= 0;
    }
  }

  /** A literal stays a literal without its commas, and spells one comma fewer for each one lost. */
  lemma {:induction false} FixUnits(body: Text)
    requires IsBody(body)
    ensures Fixed(body)
  {
    if body != [] {
      var n := BodySplits(body);
      FixUnits(body[n..]);
      FixAfterUnit(body, n);
    }
  }

  predicate Fixed(body: Text) {
    && IsBody(body) && IsBody(DropCommas(body))
    && CommaUnits(UnitsOf(DropCommas(body))) + |body| == CommaUnits(UnitsOf(body)) + |DropCommas(body)|
  }

  lemma {:induction false} FixAfterUnit(body: Text, n: nat)
    requires IsBody(body) && 0 < n <= |body| && body[0] != QUOTE && ParseUnit(body + [QUOTE]).Ok?
    requires ParseUnit(body + [QUOTE]).rest == body[n..] + [QUOTE] && (body[0] == COMMA ==> n == 1)
    requires Fixed(body[n..]) && UnitsOf(body) == [ParseUnit(body + [QUOTE]).value] + UnitsOf(body[n..])
    ensures Fixed(body)
  {
    var s, fixed := body + [QUOTE], DropCommas(body[n..]);
    var u := ParseUnit(s).value;
    UnitAlone(s, n, fixed + [QUOTE]);
    assert s[..n] == body[..n];
    BodyAfterUnit(body[..n], u, fixed);
    assert ([u] + UnitsOf(fixed))[1..] == UnitsOf(fixed) && ([u] + UnitsOf(body[n..]))[1..] == UnitsOf(body[n..]);
    if body[0] == COMMA {
      CommaFirst(body);
    } else {
      UnitFirst(body, n);
    }
  }

  lemma {:induction false} CommaFirst(body: Text)
    requires body != [] && body[0] == COMMA
    ensures DropCommas(body) == if ClosesNext(body[1..]) then DropCommas(body[1..]) else body[..1] + DropCommas(body[1..])
  {
    assert body[..1] == [COMMA];
  }

  lemma {:induction false} UnitFirst(body: Text, n: nat)
    requires 0 < n <= |body| && ParseUnit(body + [QUOTE]).Ok? && body[0] != COMMA
    requires ParseUnit(body + [QUOTE]).rest == body[n..] + [QUOTE]
    ensures DropCommas(body) == body[..n] + DropCommas(body[n..])
  {
    UnitHasNoComma(body + [QUOTE]);
    assert (body + [QUOTE])[..n] == body[..n];
    DropCommasPast(body[..n], body[n..]);
    assert body == body[..n] + body[n..];
  }

  lemma {:induction false} ClosesNextMeans(s: Text)
    ensures ClosesNext(s) <==> exists j :: 0 <= j < |s| && IsCloser(s[j]) && forall k :: 0 <= k < j ==> IsSpace(s[k])
  {
    if s != [] {
      ClosesNextMeans(s[1..]);
      if ClosesNext(s) && IsSpace(s[0]) {
        var j :| 0 <= j < |s[1..]| && IsCloser(s[1..][j]) && forall k :: 0 <= k < j ==> IsSpace(s[1..][k]);
        assert IsCloser(s[j + 1]) && forall k :: 0 < k < j + 1 ==> s[k] == s[1..][k - 1];
      }
      if j :| 0 <= j < |s| && IsCloser(s[j]) && forall k :: 0 <= k < j ==> IsSpace(s[k]) {
        if j > 0 {
          assert IsCloser(s[1..][j - 1]) && forall k :: 0 <= k < j - 1 ==> s[1..][k] == s[k + 1];
        }
      }
    }
  }

  lemma {:induction false} RunFrom(s: Text, i: nat, j: nat)
    requires i < j < |s| && RunFromTo(s, i, j)
    ensures HasRun(s)
  {
  }

  lemma {:induction false} RunHere(s: Text)
    requires s != [] && s[0] == COMMA && ClosesNext(s[1..])
    ensures HasRun(s)
  {
    ClosesNextMeans(s[1..]);
    var j :| 0 <= j < |s[1..]| && IsCloser(s[1..][j]) && forall k :: 0 <= k < j ==> IsSpace(s[1..][k]);
    assert forall k :: 0 < k < j + 1 ==> s[k] == s[1..][k - 1];
    RunFrom(s, 0, j + 1);
  }

  lemma {:induction false} RunLater(s: Text)
    requires s != [] && HasRun(s[1..])
    ensures HasRun(s)
  {
    var i, j :| 0 <= i < j < |s[1..]| && RunFromTo(s[1..], i, j);
    assert forall k :: i + 1 < k < j + 1 ==> s[k] == s[1..][k - 1];
    RunFrom(s, i + 1, j + 1);
  }

  lemma {:induction false} RunEarlier(s: Text, i: nat, j: nat)
    requires 0 < i < j < |s| && RunFromTo(s, i, j)
    ensures HasRun(s[1..])
  {
    assert forall k :: i - 1 < k < j - 1 ==> s[1..][k] == s[k + 1];
    RunFrom(s[1..], i - 1, j - 1);
  }

  lemma {:induction false} RunAtFront(s: Text, j: nat)
    requires 0 < j < |s| && RunFromTo(s, 0, j)
    ensures ClosesNext(s[1..])
  {
    ClosesNextMeans(s[1..]);
    assert IsCloser(s[1..][j - 1]) && forall k :: 0 <= k < j - 1 ==> s[1..][k] == s[k + 1];
  }

  lemma {:induction false} RunOnward(s: Text)
    requires s != []
    ensures HasRun(s) <==> HasRun(s[1..]) || (s[0] == COMMA && ClosesNext(s[1..]))
  {
    if s[0] == COMMA && ClosesNext(s[1..]) {
      RunHere(s);
    }
    if HasRun(s[1..]) {
      RunLater(s);
    }
    if HasRun(s) {
      var i, j :| 0 <= i < j < |s| && RunFromTo(s, i, j);
      if i > 0 {
        RunEarlier(s, i, j);
      } else {
        RunAtFront(s, j);
      }
    }
  }

  lemma {:induction false} DropsExactlyRuns(s: Text)
    ensures if HasRun(s) then |DropCommas(s)| < |s| else DropCommas(s) == s
  {
    if s != [] {
      DropsExactlyRuns(s[1..]);
      RunOnward(s);
    }
  }

  /** What a literal loses: nothing without a run, at least one comma of its text with one. */
  lemma {:induction false} FixBody(body: Text)
    requires IsBody(body)
    ensures IsBody(DropCommas(body))
    ensures !HasRun(body) ==> DropCommas(body) == body
    ensures Commas(TextOf(DropCommas(body))) <= Commas(TextOf(body))
    ensures HasRun(body) ==> Commas(TextOf(DropCommas(body))) < Commas(TextOf(body))
  {
    FixUnits(body);
    DropsExactlyRuns(body);
    DecodeCommas(UnitsOf(body));
    DecodeCommas(UnitsOf(DropCommas(body)));
  }

  lemma {:induction false} FixTree(c: Cst)
    requires Valid(c)
    ensures Valid(Fix(c)) && Strict(Fix(c))
    ensures RunFree(c) ==> Value(Fix(c)) == Value(c)
    ensures TreeWeight(Fix(c), Commas) <= TreeWeight(c, Commas)
    ensures !RunFree(c) ==> TreeWeight(Fix(c), Commas) < TreeWeight(c, Commas)
    decreases c, 1
  {
    match c
    case CStr(body) => FixBody(body);
    case CArr(items, tail) => FixTreeItems(items);
    case CObj(members, tail) => FixTreeMembers(members);
    case _ =>
  }

  lemma {:induction false} FixTreeItems(xs: seq<Slot>)
    requires ValidItems(xs)
    ensures ValidItems(FixItems(xs)) && StrictItems(FixItems(xs))
    ensures RunFreeItems(xs) ==> ItemValues(FixItems(xs)) == ItemValues(xs)
    ensures TreeWeightItems(FixItems(xs), Commas) <= TreeWeightItems(xs, Commas)
    ensures !RunFreeItems(xs) ==> TreeWeightItems(FixItems(xs), Commas) < TreeWeightItems(xs, Commas)
    decreases xs, 0
  {
    if xs != [] {
      FixTree(xs[0].node);
      FixTreeItems(xs[1..]);
      assert FixItems(xs)[1..] == FixItems(xs[1..]);
    }
  }

  lemma {:induction false} FixTreeMembers(ms: seq<Member>)
    requires ValidMembers(ms)
    ensures ValidMembers(FixMembers(ms)) && StrictMembers(FixMembers(ms))
    ensures RunFreeMembers(ms) ==> MemberValues(FixMembers(ms)) == MemberValues(ms)
    ensures TreeWeightMembers(FixMembers(ms), Commas) <= TreeWeightMembers(ms, Commas)
    ensures !RunFreeMembers(ms) ==> TreeWeightMembers(FixMembers(ms), Commas) < TreeWeightMembers(ms, Commas)
    decreases ms, 0
  {
    if ms != [] {
      FixBody(ms[0].key);
      FixTree(ms[0].slot.node);
      FixTreeMembers(ms[1..]);
      assert FixMembers(ms)[1..] == FixMembers(ms[1..]);
    }
  }

  /** The lenient reader always reads the text of a valid tree, whatever surplus commas it has; it
      reads the value the tree spells exactly when there is no surplus comma or no literal holds a
      run for the repair to spoil. */
  lemma {:induction false} LenientRender(c: Cst)
    requires Valid(c)
    ensures LoadsLenient(Render(c)).Some?
    ensures Strict(c) || RunFree(c) ==> LoadsLenient(Render(c)) == Some(Value(c))
    ensures NoRepeats(c) ==> (LoadsLenient(Render(c)) == Some(Value(c)) <==> Strict(c) || RunFree(c))
  {
    LoadsRender(c);
    FixTree(c);
    RepairRender(c);
    LoadsRender(Fix(c));
    ValueWeight(c, Commas);
    ValueWeight(Fix(c), Commas);
  }

  /** A text the repair misreads: `[",]",]` spells the string `,]`, and comes back as `]`. */
  lemma {:induction false} RepairCanSpoilAString()
    ensures var body: Text := [COMMA, RBRACKET];
            var c := CArr([Slot([], CStr(body), [])], Tail(true, []));
            Valid(c) && LoadsLenient(Render(c)).Some? && LoadsLenient(Render(c)) != Some(Value(c))
  {
    var body: Text := [COMMA, RBRACKET];
    var xs := [Slot([], CStr(body), [])];
    var c := CArr(xs, Tail(true, []));
    PlainBody(body);
    assert xs[1..] == [];
    assert Blank([]);
    assert Spaced(xs[0]) && Valid(xs[0].node) && ValidItems(xs[1..]);
    assert ValidItems(xs);
    assert NoRepeats(xs[0].node) && NoRepeatsItems(xs);
    assert RunFromTo(body, 0, 1);
    assert !RunFreeItems(xs);
    LenientRender(c);
  }

  lemma {:induction false} PlainBody(body: Text)
    requires forall i :: 0 <= i < |body| ==> body[i] != QUOTE && body[i] != BACKSLASH && body[i] >= 0x20
    ensures IsBody(body)
  {
    if body != [] {
      PlainBody(body[1..]);
      assert (body + [QUOTE])[1..] == body[1..] + [QUOTE];
    }
  }
}
