/** `MLXModelClient._find_balanced_close` and `_extract_first_json_object`: a string-aware brace
    matcher, and a left-to-right search that hands each balanced span to the lenient reader. */
module JsonScan {
  import opened Options
  import opened JsonText
  import opened JsonSyntax
  import opened JsonDumps
  import opened JsonWeight
  import opened JsonRepair

  /** Where the scanner is: outside string literals, in one, or right after a backslash in one. */
  datatype Mode = Outside | InString | Escaped

  datatype Scan = Scan(depth: int, mode: Mode)

  function Step(st: Scan, ch: Code): Scan {
    match st.mode
    case Escaped => Scan(st.depth, InString)
    case InString =>
      Scan(st.depth, if ch == BACKSLASH then Escaped else if ch == QUOTE then Outside else InString)
    case Outside =>
      if ch == QUOTE then Scan(st.depth, InString)
      else if ch == LBRACE then Scan(st.depth + 1, Outside)
      else if ch == RBRACE then Scan(st.depth - 1, Outside)
      else st
  }

  /** The scanner's state after all of `t`. */
  function ScanAll(t: Text): Scan {
    if t == [] then Scan(0, Outside) else Step(ScanAll(t[..|t| - 1]), t[|t| - 1])
  }

  /** Is the brace at `j` outside every string literal, and does it bring the depth back to 0? */
  predicate ClosesAt(t: Text, j: nat)
    requires j < |t|
  {
    t[j] == RBRACE && ScanAll(t[..j]).mode == Outside && ScanAll(t[..j + 1]).depth == 0
  }

  /** The closing brace found is the first one outside strings at which the depth is 0 again. */
  method FindBalancedClose(text: Text, start: nat) returns (close: int)
    requires start < |text| && text[start] == LBRACE
    ensures close == -1 || start <= close < |text|
    ensures close != -1 ==> ClosesAt(text[start..], close - start)
    ensures forall k :: 0 <= k < (if close == -1 then |text| else close) - start ==> !ClosesAt(text[start..], k)
  {
    var depth := 0;
    var inStr := false;
    var escaped := false;
    ghost var t := text[start..];
    for j := start to |text|
      invariant escaped ==> inStr
      invariant ScanAll(t[..j - start])
                == Scan(depth, if escaped then Escaped else if inStr then InString else Outside)
      invariant forall k :: 0 <= k < j - start ==> !ClosesAt(t, k)
    {
      var ch := text[j];
      assert ch == t[j - start];
      assert t[..j - start + 1][..j - start] == t[..j - start];
      if inStr {
        if escaped {
          escaped := false;
        } else if ch == BACKSLASH {
          escaped := true;
        } else if ch == QUOTE {
          inStr := false;
        }
      } else if ch == QUOTE {
        inStr := true;
      } else if ch == LBRACE {
        depth := depth + 1;
      } else if ch == RBRACE {
        depth := depth - 1;
        if depth == 0 {
          return j;
        }
      }
    }
    return -1;
  }

  // ---------------------------------------------------------------- the scanner as a reader

  /** Scanning `t` from a state either meets the closing brace, with some text left, or ends open. */
  datatype Outcome = Closed(rest: Text) | Open(last: Scan)

  function Feed(st: Scan, t: Text): Outcome
    decreases |t|
  {
    if t == [] then Open(st)
    else
      var st' := Step(st, t[0]);
      if st.mode == Outside && t[0] == RBRACE && st'.depth == 0 then Closed(t[1..])
      else Feed(st', t[1..])
  }

  lemma {:induction false} FeedSuffix(st: Scan, t: Text)
    ensures var r := Feed(st, t);
            r.Closed? ==> |r.rest| < |t| && r.rest == t[|t| - |r.rest|..]
    decreases |t|
  {
    if t != [] {
      FeedSuffix(Step(st, t[0]), t[1..]);
    }
  }

  /** Scanning a text in two parts. */
  lemma {:induction false} FeedAppend(st: Scan, a: Text, b: Text)
    ensures Feed(st, a + b) == match Feed(st, a)
                               case Closed(rest) => Closed(rest + b)
                               case Open(last) => Feed(last, b)
    decreases |a|
  {
    if a == [] {
      assert a + b == b;
    } else {
      assert (a + b)[1..] == a[1..] + b;
      FeedAppend(Step(st, a[0]), a[1..], b);
    }
  }

  /** Up to the first closing brace, reading on is the same as having scanned so far. */
  lemma {:induction false} FeedFromPrefix(t: Text, n: nat)
    requires n <= |t| && forall j :: 0 <= j < n ==> !ClosesAt(t, j)
    ensures Feed(Scan(0, Outside), t) == Feed(ScanAll(t[..n]), t[n..])
  {
    if n > 0 {
      FeedFromPrefix(t, n - 1);
      assert t[..n][..n - 1] == t[..n - 1];
      assert t[n - 1..][1..] == t[n..];
      assert !ClosesAt(t, n - 1);
    } else {
      assert t[..0] == [] && t[0..] == t;
    }
  }

  /** The two descriptions of the closing brace agree. */
  lemma {:induction false} FeedClosesAt(t: Text, close: int)
    requires close == -1 || 0 <= close < |t|
    requires close != -1 ==> ClosesAt(t, close)
    requires forall j :: 0 <= j < (if close == -1 then |t| else close) ==> !ClosesAt(t, j)
    ensures Feed(Scan(0, Outside), t) == if close == -1 then Open(ScanAll(t)) else Closed(t[close + 1..])
  {
    if close == -1 {
      FeedFromPrefix(t, |t|);
      assert t[..|t|] == t;
    } else {
      FeedFromPrefix(t, close);
      assert t[..close + 1][..close] == t[..close];
      var u := t[close..];
      assert u[1..] == t[close + 1..];
      assert Feed(ScanAll(t[..close]), u) == Closed(u[1..]);
    }
  }

  // ---------------------------------------------------------------- the search

  /** `_extract_first_json_object`, from the unread part of the text. */
  function Extract(text: Text): Option<Json> {
    if text == [] then None
    else if text[0] != LBRACE then Extract(text[1..])
    else
      match Feed(Scan(0, Outside), text)
      case Open(_) => None
      case Closed(rest) =>
        FeedSuffix(Scan(0, Outside), text);
        var parsed := LoadsLenient(text[..|text| - |rest|]);
        if parsed.Some? && parsed.value.JObj? then parsed else Extract(text[1..])
  }

  method ExtractFirstJsonObject(text: Text) returns (r: Option<Json>)
    ensures r == Extract(text)
  {
    var n := |text|;
    var i := 0;
    while i < n
      invariant 0 <= i <= n
      invariant Extract(text) == Extract(text[i..])
    {
      assert text[i..][1..] == text[i + 1..];
      if text[i] != LBRACE {
        i := i + 1;
        continue;
      }
      var close := FindBalancedClose(text, i);
      ghost var t := text[i..];
      FeedClosesAt(t, if close == -1 then -1 else close - i);
      if close == -1 {
        return None;
      }
      assert t[close - i + 1..] == text[close + 1..];
      assert t[..|t| - |text[close + 1..]|] == text[i..close + 1];
      var parsed := LoadsLenient(text[i..close + 1]);
      if parsed.Some? && parsed.value.JObj? {
        return parsed;
      }
      i := i + 1;
    }
    return None;
  }

  // ---------------------------------------------------------------- what the search finds

  /** The span the matcher cuts out at the front of `t`, if it finds a closing brace. */
  function SpanHere(t: Text): Option<Text> {
    if t == [] || t[0] != LBRACE then None
    else
      match Feed(Scan(0, Outside), t)
      case Open(_) => None
      case Closed(rest) =>
        FeedSuffix(Scan(0, Outside), t);
        Some(t[..|t| - |rest|])
  }

  predicate UnbalancedHere(t: Text) { t != [] && t[0] == LBRACE && SpanHere(t).None? }

  /** Does a balanced span that reads as an object stand at the front of `t`? */
  predicate ObjectHere(t: Text) {
    SpanHere(t).Some? && var v := LoadsLenient(SpanHere(t).value); v.Some? && v.value.JObj?
  }

  lemma {:induction false} ExtractSkips(text: Text, i: nat)
    requires i <= |text|
    requires forall j :: 0 <= j < i ==> !ObjectHere(text[j..]) && !UnbalancedHere(text[j..])
    ensures Extract(text) == Extract(text[i..])
  {
    if i > 0 {
      ExtractSkips(text, i - 1);
      var t := text[i - 1..];
      assert t[1..] == text[i..];
      assert !ObjectHere(t) && !UnbalancedHere(t);
    } else {
      assert text[0..] == text;
    }
  }

  /** The search stops at the first brace that is unbalanced or opens an object; it returns that
      object, and nothing when the brace is unbalanced or there is no such brace. */
  lemma {:induction false} ExtractFinds(text: Text, i: nat)
    requires i <= |text|
    requires forall j :: 0 <= j < i ==> !ObjectHere(text[j..]) && !UnbalancedHere(text[j..])
    ensures ObjectHere(text[i..]) ==> Extract(text) == LoadsLenient(SpanHere(text[i..]).value)
    ensures UnbalancedHere(text[i..]) || i == |text| ==> Extract(text) == None
  {
    ExtractSkips(text, i);
  }

  // ---------------------------------------------------------------- the matcher on rendered trees

  lemma {:induction false} FeedPlain(st: Scan, a: Text)
    requires st.mode == Outside && forall i :: 0 <= i < |a| ==> a[i] != QUOTE && a[i] != LBRACE && a[i] != RBRACE
    ensures Feed(st, a) == Open(st)
  {
    if a != [] {
      FeedPlain(st, a[1..]);
    }
  }

  lemma {:induction false} FeedUnit(depth: int, s: Text)
    requires ParseUnit(s).Ok?
    ensures var n := |s| - |ParseUnit(s).rest|;
            n <= |s| && Feed(Scan(depth, InString), s[..n]) == Open(Scan(depth, InString))
    ensures ParseUnit(s).rest == s[|s| - |ParseUnit(s).rest|..]
  {
    var st := Scan(depth, InString);
    if s[0] != BACKSLASH {
      assert s[..1] == [s[0]];
      assert Feed(Step(st, s[0]), []) == Open(st);
    } else if s[1] == LETTER_U {
      assert forall i :: 2 <= i < 6 ==> s[i] == s[2..][i - 2];
      assert s[..6] == [s[0], s[1]] + s[2..6];
      FeedTwo(depth, s[0], s[1]);
      FeedHex(depth, s[2..6]);
      FeedAppend(st, [s[0], s[1]], s[2..6]);
    } else {
      assert s[..2] == [s[0], s[1]];
      FeedTwo(depth, s[0], s[1]);
    }
  }

  lemma {:induction false} FeedTwo(depth: int, b: Code, c: Code)
    requires b == BACKSLASH
    ensures Feed(Scan(depth, InString), [b, c]) == Open(Scan(depth, InString))
  {
    assert [b, c][1..] == [c];
    assert Feed(Scan(depth, Escaped), [c]) == Feed(Scan(depth, InString), []);
  }

  lemma {:induction false} FeedHex(depth: int, h: Text)
    requires forall i :: 0 <= i < |h| ==> HexValue(h[i]) >= 0
    ensures Feed(Scan(depth, InString), h) == Open(Scan(depth, InString))
  {
    if h != [] {
      FeedHex(depth, h[1..]);
    }
  }

  /** A string literal leaves the matcher where the reader leaves the text. */
  lemma {:induction false} FeedUnits(depth: int, s: Text)
    requires ParseUnits(s).Ok?
    ensures Feed(Scan(depth, InString), s) == Feed(Scan(depth, Outside), ParseUnits(s).rest)
  {
    if s[0] != QUOTE {
      var rest := ParseUnit(s).rest;
      var n := |s| - |rest|;
      FeedUnit(depth, s);
      FeedUnits(depth, rest);
      FeedAppend(Scan(depth, InString), s[..n], s[n..]);
      assert s == s[..n] + s[n..];
    }
  }

  lemma {:induction false} FeedQuoted(depth: int, body: Text)
    requires IsBody(body)
    ensures Feed(Scan(depth, Outside), Quoted(body)) == Open(Scan(depth, Outside))
  {
    FeedUnits(depth, body + [QUOTE]);
    assert Quoted(body)[1..] == body + [QUOTE];
  }

  /** From any positive depth outside strings, scanning `a` comes back to where it started. */
  ghost predicate Neutral(a: Text) {
    forall d: int :: d >= 1 ==> Feed(Scan(d, Outside), a) == Open(Scan(d, Outside))
  }

  lemma {:induction false} NeutralAppend(a: Text, b: Text)
    requires Neutral(a) && Neutral(b)
    ensures Neutral(a + b)
  {
    forall d: int | d >= 1
      ensures Feed(Scan(d, Outside), a + b) == Open(Scan(d, Outside))
    {
      FeedAppend(Scan(d, Outside), a, b);
    }
  }

  predicate Plain(a: Text) {
    forall i :: 0 <= i < |a| ==> a[i] != QUOTE && a[i] != LBRACE && a[i] != RBRACE
  }

  lemma {:induction false} NeutralPlain(a: Text)
    requires Plain(a)
    ensures Neutral(a)
  {
    forall d: int | d >= 1
      ensures Feed(Scan(d, Outside), a) == Open(Scan(d, Outside))
    {
      FeedPlain(Scan(d, Outside), a);
    }
  }

  lemma {:induction false} NeutralQuoted(body: Text)
    requires IsBody(body)
    ensures Neutral(Quoted(body))
  {
    forall d: int | d >= 1
      ensures Feed(Scan(d, Outside), Quoted(body)) == Open(Scan(d, Outside))
    {
      FeedQuoted(d, body);
    }
  }

  /** Braces around a neutral text: neutral from a positive depth, a complete span from depth 0. */
  lemma {:induction false} BracesAround(inner: Text)
    requires Neutral(inner)
    ensures Neutral([LBRACE] + inner + [RBRACE])
    ensures Feed(Scan(0, Outside), [LBRACE] + inner + [RBRACE]) == Closed([])
  {
    var t := [LBRACE] + inner + [RBRACE];
    forall d: int | d >= 0
      ensures Feed(Scan(d, Outside), t) == if d == 0 then Closed([]) else Open(Scan(d, Outside))
    {
      var inside := Scan(d + 1, Outside);
      FeedAppend(inside, inner, [RBRACE]);
      assert t[1..] == inner + [RBRACE];
      assert Feed(inside, inner) == Open(inside);
      assert [RBRACE][1..] == [];
    }
  }

  lemma {:induction false} NeutralBracketed(inner: Text, tail: Tail)
    requires Neutral(inner) && Blank(tail.gap)
    ensures Neutral([LBRACKET] + inner + RenderTail(tail) + [RBRACKET])
  {
    NeutralPlain([LBRACKET]);
    NeutralPlain(RenderTail(tail));
    NeutralPlain([RBRACKET]);
    NeutralAppend([LBRACKET], inner);
    NeutralAppend([LBRACKET] + inner, RenderTail(tail));
    NeutralAppend([LBRACKET] + inner + RenderTail(tail), [RBRACKET]);
  }

  lemma {:induction false} NeutralBraced(inner: Text, tail: Tail)
    requires Neutral(inner) && Blank(tail.gap)
    ensures var t := [LBRACE] + inner + RenderTail(tail) + [RBRACE];
            Neutral(t) && Feed(Scan(0, Outside), t) == Closed([])
  {
    NeutralPlain(RenderTail(tail));
    NeutralAppend(inner, RenderTail(tail));
    BracesAround(inner + RenderTail(tail));
    assert [LBRACE] + (inner + RenderTail(tail)) + [RBRACE] == [LBRACE] + inner + RenderTail(tail) + [RBRACE];
  }

  lemma {:induction false} NeutralWord(w: Word)
    ensures Neutral(Spell(w))
  {
    NeutralPlain(Spell(w));
  }

  lemma {:induction false} NeutralNumber(token: Text)
    requires IsNumber(token)
    ensures Neutral(token)
  {
    NumberCharacters(token);
    NeutralPlain(token);
  }

  lemma {:induction false} NeutralRender(c: Cst)
    requires Valid(c)
    ensures Neutral(Render(c))
    ensures c.CObj? ==> Feed(Scan(0, Outside), Render(c)) == Closed([])
    decreases c, 1
  {
    match c
    case CWord(w) => NeutralWord(w);
    case CNum(token) => NeutralNumber(token);
    case CStr(body) => NeutralQuoted(body);
    case CArr(items, tail) =>
      NeutralItems(items);
      NeutralBracketed(RenderItems(items), tail);
    case CObj(members, tail) =>
      NeutralMembers(members);
      NeutralBraced(RenderMembers(members), tail);
  }

  lemma {:induction false} NeutralAround(x: Slot, inner: Text)
    requires Spaced(x) && Neutral(inner)
    ensures Neutral(Around(x, inner))
  {
    NeutralPlain(x.pre);
    NeutralPlain(x.post);
    NeutralAppend(x.pre, inner);
    NeutralAppend(x.pre + inner, x.post);
  }

  lemma {:induction false} NeutralItems(xs: seq<Slot>)
    requires ValidItems(xs)
    ensures Neutral(RenderItems(xs))
    decreases xs, 0
  {
    if xs == [] {
      NeutralPlain([]);
    } else {
      NeutralRender(xs[0].node);
      NeutralAround(xs[0], Render(xs[0].node));
      if |xs| > 1 {
        NeutralItems(xs[1..]);
        NeutralSeparated(Around(xs[0], Render(xs[0].node)), RenderItems(xs[1..]));
      }
    }
  }

  lemma {:induction false} NeutralSeparated(a: Text, b: Text)
    requires Neutral(a) && Neutral(b)
    ensures Neutral(a + [COMMA] + b)
  {
    NeutralPlain([COMMA]);
    NeutralAppend(a, [COMMA]);
    NeutralAppend(a + [COMMA], b);
  }

  lemma {:induction false} NeutralKeyed(m: Member, inner: Text)
    requires GoodKey(m) && Neutral(Around(m.slot, inner))
    ensures Neutral(Keyed(m, inner))
  {
    var colon := m.keyPost + [COLON];
    NeutralPlain(m.keyPre);
    NeutralQuoted(m.key);
    NeutralPlain(colon);
    NeutralAppend(m.keyPre, Quoted(m.key));
    NeutralAppend(m.keyPre + Quoted(m.key), colon);
    NeutralAppend(m.keyPre + Quoted(m.key) + colon, Around(m.slot, inner));
    assert Keyed(m, inner) == m.keyPre + Quoted(m.key) + colon + Around(m.slot, inner);
  }

  lemma {:induction false} NeutralMembers(ms: seq<Member>)
    requires ValidMembers(ms)
    ensures Neutral(RenderMembers(ms))
    decreases ms, 0
  {
    if ms == [] {
      NeutralPlain([]);
    } else {
      NeutralRender(ms[0].slot.node);
      NeutralAround(ms[0].slot, Render(ms[0].slot.node));
      NeutralKeyed(ms[0], Render(ms[0].slot.node));
      if |ms| > 1 {
        NeutralMembers(ms[1..]);
        NeutralSeparated(Keyed(ms[0], Render(ms[0].slot.node)), RenderMembers(ms[1..]));
      }
    }
  }

  // ---------------------------------------------------------------- main results

  predicate BraceFree(t: Text) { forall i :: 0 <= i < |t| ==> t[i] != LBRACE }

  lemma {:induction false} ExtractAfterProse(prose: Text, t: Text)
    requires BraceFree(prose)
    ensures Extract(prose + t) == Extract(t)
  {
    if prose == [] {
      assert prose + t == t;
    } else {
      assert (prose + t)[1..] == prose[1..] + t;
      ExtractAfterProse(prose[1..], t);
    }
  }

  /** An object anywhere after brace-free prose is cut out at its own closing brace, whatever
      follows it. */
  lemma {:induction false} SpanOfRender(c: Cst, suffix: Text)
    requires Valid(c) && c.CObj?
    ensures Feed(Scan(0, Outside), Render(c) + suffix) == Closed(suffix)
    ensures SpanHere(Render(c) + suffix) == Some(Render(c))
  {
    NeutralRender(c);
    FeedAppend(Scan(0, Outside), Render(c), suffix);
    assert [] + suffix == suffix;
    var t := Render(c) + suffix;
    assert t[..|t| - |suffix|] == Render(c);
  }

  /** Any JSON object text, in brace-free prose and followed by anything, surplus commas repaired:
      the extractor finds the object it spells, exactly when no repair is needed or none spoils a
      string. */
  lemma {:induction false} ExtractRender(prose: Text, c: Cst, suffix: Text)
    requires BraceFree(prose) && Valid(c) && c.CObj?
    ensures Extract(prose + (Render(c) + suffix)) == LoadsLenient(Render(c))
    ensures Strict(c) || RunFree(c) ==> Extract(prose + (Render(c) + suffix)) == Some(Value(c))
    ensures NoRepeats(c) ==> (Extract(prose + (Render(c) + suffix)) == Some(Value(c)) <==> Strict(c) || RunFree(c))
  {
    ExtractAfterProse(prose, Render(c) + suffix);
    SpanOfRender(c, suffix);
    LenientRender(c);
    LoadsRender(c);
    FixTree(c);
    RepairRender(c);
    LoadsRender(Fix(c));
  }

  /** The round trip through prose: what `json.dumps` prints comes back whole, exactly when no
      string of it holds a surrogate pair as two code points. */
  lemma {:induction false} ExtractRoundTrip(prose: Text, v: Json, suffix: Text)
    requires BraceFree(prose) && Proper(v) && v.JObj?
    ensures Extract(prose + (Dumps(v) + suffix)) == Some(v) <==> Unsplit(v)
  {
    DumpsRoundTrip(v);
    PrintedValid(v);
    ExtractRender(prose, Printed(v), suffix);
  }

  /** Printed objects form a prefix-free code: a proper prefix of one is an open span. */
  lemma {:induction false} ProperPrefixOpen(c: Cst, n: nat)
    requires Valid(c) && c.CObj? && n < |Render(c)|
    ensures Feed(Scan(0, Outside), Render(c)[..n]).Open?
  {
    var p, q := Render(c)[..n], Render(c)[n..];
    NeutralRender(c);
    FeedAppend(Scan(0, Outside), p, q);
    assert Render(c) == p + q;
  }

  /** A reply cut off inside its object yields nothing, and never an object nested in it. */
  lemma {:induction false} TruncationSafety(prose: Text, c: Cst, n: nat)
    requires BraceFree(prose) && Valid(c) && c.CObj? && n < |Render(c)|
    ensures Extract(prose + Render(c)[..n]) == None
  {
    ExtractAfterProse(prose, Render(c)[..n]);
    ProperPrefixOpen(c, n);
  }

  /** The early return is not free: `{ {}` holds an object, but its first brace never closes. */
  lemma {:induction false} LaterBraceCanDoBetter()
    ensures var t := [LBRACE, SPACE, LBRACE, RBRACE];
            Extract(t) == None && ObjectHere(t[2..])
  {
    var t: Text := [LBRACE, SPACE, LBRACE, RBRACE];
    var c := CObj([], Tail(false, []));
    assert Render(c) == [LBRACE, RBRACE] == t[2..];
    LenientRender(c);
    SpanOfRender(c, []);
    assert Render(c) + [] == t[2..];
    var s1 := t[1..];
    assert s1[1..] == t[2..];
    assert t[2..][1..] == [RBRACE] && [RBRACE][1..] == [];
    assert Feed(Scan(2, Outside), [RBRACE]) == Feed(Scan(1, Outside), []);
    assert Feed(Scan(1, Outside), t[2..]) == Open(Scan(1, Outside));
    assert Feed(Scan(1, Outside), s1) == Feed(Scan(1, Outside), t[2..]);
  }

  /** The documented search: the first balanced span that reads as an object, open braces skipped. */
  function FirstObject(text: Text): Option<Json> {
    if text == [] then None
    else if ObjectHere(text) then LoadsLenient(SpanHere(text).value)
    else FirstObject(text[1..])
  }

  /** Does an unbalanced brace come before every object? */
  predicate OpensTooEarly(text: Text) {
    text != [] && !ObjectHere(text) && (UnbalancedHere(text) || OpensTooEarly(text[1..]))
  }

  /** The code meets its documentation exactly when no unbalanced brace precedes the first object,
      or there is no object to find. */
  lemma {:induction false} ExtractVersusDocumentation(text: Text)
    ensures Extract(text) == FirstObject(text) <==> !OpensTooEarly(text) || FirstObject(text) == None
    ensures OpensTooEarly(text) ==> Extract(text) == None
  {
    if text != [] {
      ExtractVersusDocumentation(text[1..]);
      if ObjectHere(text) || UnbalancedHere(text) {
      } else {
        assert Extract(text) == Extract(text[1..]);
      }
    }
  }
}
