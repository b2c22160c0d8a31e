/** What a number token is, apart from how the reader finds one (RFC 8259, section 6). */
module JsonNumber {
  import opened JsonText

  const MINUS: Code := 0x2D
  const PLUS: Code := 0x2B
  const POINT: Code := 0x2E
  const ZERO: Code := 0x30

  /** At least one digit and nothing else. */
  predicate Digits(t: Text) { t != [] && forall i :: 0 <= i < |t| ==> IsDigit(t[i]) }

  /** A zero alone, or digits that do not start with one. */
  predicate Whole(t: Text) { t == [ZERO] || (Digits(t) && t[0] != ZERO) }

  predicate Fraction(t: Text) { t == [] || (t[0] == POINT && Digits(t[1..])) }

  predicate Power(t: Text) {
    t == [] ||
    ((t[0] == 0x65 || t[0] == 0x45) &&
     (Digits(t[1..]) || (|t| > 1 && (t[1] == PLUS || t[1] == MINUS) && Digits(t[2..]))))
  }

  /** `t` is an optional minus up to `a`, a whole part up to `i`, a fraction up to `f`, and a power. */
  predicate SplitsAt(t: Text, a: int, i: int, f: int) {
    && 0 <= a <= i <= f <= |t|
    && (t[..a] == [] || t[..a] == [MINUS]) && Whole(t[a..i]) && Fraction(t[i..f]) && Power(t[f..])
  }

  predicate InGrammar(t: Text) { exists a, i, f | 0 <= a <= i <= f <= |t| :: SplitsAt(t, a, i, f) }

  // ---------------------------------------------------------------- what the reader finds

  lemma {:induction false} RunIsDigits(s: Text)
    ensures DigitRun(s) > 0 ==> Digits(s[..DigitRun(s)])
    ensures DigitRun(s) < |s| ==> !IsDigit(s[DigitRun(s)])
  {
    if s != [] && IsDigit(s[0]) {
      RunIsDigits(s[1..]);
      assert forall k :: 0 < k < DigitRun(s) ==> s[k] == s[1..][..DigitRun(s[1..])][k - 1];
    }
  }

  /** Digits at the front of a text are part of its run of digits. */
  lemma {:induction false} DigitsInRun(s: Text, n: nat)
    requires n <= |s| && forall k :: 0 <= k < n ==> IsDigit(s[k])
    ensures n <= DigitRun(s)
  {
    if n > 0 {
      DigitsInRun(s[1..], n - 1);
    }
  }

  lemma {:induction false} WholeFound(s: Text)
    requires IntLen(s) > 0
    ensures var a := if s[0] == MINUS then 1 else 0;
            a < IntLen(s) && Whole(s[a..IntLen(s)]) && (s[..a] == [] || s[..a] == [MINUS])
  {
    var a := if s[0] == MINUS then 1 else 0;
    if s[a] != ZERO {
      RunIsDigits(s[a..]);
      assert s[a..IntLen(s)] == s[a..][..DigitRun(s[a..])];
    } else {
      assert s[a..IntLen(s)] == [ZERO];
    }
  }

  lemma {:induction false} FractionFound(s: Text)
    ensures Fraction(s[..FracLen(s)])
  {
    if FracLen(s) > 0 {
      RunIsDigits(s[1..]);
      assert s[..FracLen(s)][1..] == s[1..][..DigitRun(s[1..])];
    }
  }

  lemma {:induction false} PowerFound(s: Text)
    ensures Power(s[..ExpLen(s)])
  {
    if ExpLen(s) > 0 {
      var j := if |s| > 1 && (s[1] == PLUS || s[1] == MINUS) then 2 else 1;
      RunIsDigits(s[j..]);
      assert s[..ExpLen(s)][j..] == s[j..][..DigitRun(s[j..])];
    }
  }

  lemma {:induction false} Slices(s: Text, n: nat, a: nat, i: nat, f: nat)
    requires a <= i <= f <= n <= |s|
    ensures s[..n][..a] == s[..a] && s[..n][a..i] == s[a..i]
    ensures s[..n][i..f] == s[i..f] && s[..n][f..] == s[f..n]
    ensures s[i..f] == s[i..][..f - i] && s[f..n] == s[f..][..n - f]
  {
  }

  lemma {:induction false} FoundSplits(s: Text, a: nat, i: nat, f: nat, n: nat)
    requires a <= i <= f <= n <= |s| && (s[..a] == [] || s[..a] == [MINUS])
    requires Whole(s[a..i]) && Fraction(s[i..][..f - i]) && Power(s[f..][..n - f])
    ensures InGrammar(s[..n])
  {
    Slices(s, n, a, i, f);
    assert SplitsAt(s[..n], a, i, f);
  }

  lemma {:induction false} PartsAdd(s: Text)
    requires NumberLen(s) > 0
    ensures var i := IntLen(s);
            var f := i + FracLen(s[i..]);
            0 < i <= f <= NumberLen(s) <= |s| && NumberLen(s) - f == ExpLen(s[f..])
  {
  }

  /** What the reader takes for a number is in the grammar. */
  lemma {:induction false} FoundInGrammar(s: Text)
    requires NumberLen(s) > 0
    ensures InGrammar(s[..NumberLen(s)])
  {
    var i := IntLen(s);
    var a := if s[0] == MINUS then 1 else 0;
    var f := i + FracLen(s[i..]);
    WholeFound(s);
    FractionFound(s[i..]);
    PowerFound(s[f..]);
    PartsAdd(s);
    FoundSplits(s, a, i, f, NumberLen(s));
  }

  // ---------------------------------------------------------------- nothing longer is in the grammar

  lemma {:induction false} FractionStart(s: Text, i: nat, f: nat)
    requires i < f <= |s| && Fraction(s[i..f])
    ensures s[i] == POINT
  {
    assert s[i..f][0] == s[i];
  }

  lemma {:induction false} PowerStart(s: Text, f: nat, m: nat)
    requires f < m <= |s| && Power(s[f..m])
    ensures s[f] == 0x65 || s[f] == 0x45
  {
    assert s[f..m][0] == s[f];
  }

  /** A digit starts neither a fraction nor a power. */
  lemma {:induction false} DigitEnds(s: Text, i: nat, f: nat, m: nat)
    requires i <= f <= m <= |s| && Fraction(s[i..f]) && Power(s[f..m])
    requires i < m ==> IsDigit(s[i])
    ensures i == f == m
  {
    if i < f {
      FractionStart(s, i, f);
    } else if f < m {
      PowerStart(s, f, m);
    }
  }

  lemma {:induction false} PowerWithin(s: Text, f: nat, m: nat)
    requires f <= m <= |s| && Power(s[f..m])
    ensures m - f <= ExpLen(s[f..])
  {
    if f < m {
      var t, u := s[f..m], s[f..];
      assert t[0] == u[0] && |u| > 1 && t[1] == u[1];
      var j := if t[1] == PLUS || t[1] == MINUS then 2 else 1;
      assert Digits(t[j..]);
      assert forall k :: 0 <= k < |t| - j ==> u[j..][k] == t[j..][k];
      DigitsInRun(u[j..], |t| - j);
    }
  }

  lemma {:induction false} FractionWithin(s: Text, i: nat, f: nat)
    requires i < f <= |s| && Fraction(s[i..f])
    ensures f - i <= FracLen(s[i..]) && s[i] == POINT
  {
    var t, u := s[i..f], s[i..];
    assert t[0] == u[0] == s[i] && |t[1..]| > 0 && t[1..][0] == u[1];
    assert forall k :: 0 <= k < |t| - 1 ==> u[1..][k] == t[1..][k];
    DigitsInRun(u[1..], |t| - 1);
  }

  /** What the reader takes after the whole part. */
  function TailLen(f: Text): nat { FracLen(f) + ExpLen(f[FracLen(f)..]) }

  /** From the end of the whole part on. */
  lemma {:induction false} TailWithin(s: Text, i: nat, f: nat, m: nat)
    requires i <= f <= m <= |s| && Fraction(s[i..f]) && Power(s[f..m])
    ensures m <= i + TailLen(s[i..])
  {
    var x := FracLen(s[i..]);
    assert s[i..][x..] == s[i + x..];
    if i < f {
      FractionWithin(s, i, f);
      if f < i + x {
        RunIsDigits(s[i..][1..]);
        assert s[f] == s[i..][1..][..DigitRun(s[i..][1..])][f - i - 1];
        DigitEnds(s, f, f, m);
      } else {
        PowerWithin(s, f, m);
      }
    } else if x == 0 {
      PowerWithin(s, i, m);
    } else if i < m {
      PowerStart(s, i, m);
    }
  }

  lemma {:induction false} WholeWithin(s: Text, a: nat, i: nat)
    requires a < i <= |s| && Whole(s[a..i]) && (a == 0 || (a == 1 && s[0] == MINUS))
    ensures 0 < i <= IntLen(s) && (i < IntLen(s) ==> IsDigit(s[i]))
    ensures (if s[0] == MINUS then 1 else 0) == a
  {
    var t := s[a..i];
    assert t[0] == s[a] && IsDigit(s[a]);
    if s[a] == ZERO {
      assert i == a + 1;
    } else {
      assert forall k :: 0 <= k < i - a ==> s[a..][k] == t[k];
      DigitsInRun(s[a..], i - a);
      RunIsDigits(s[a..]);
      if i < IntLen(s) {
        assert s[i] == s[a..][..DigitRun(s[a..])][i - a];
      }
    }
  }

  lemma {:induction false} PrefixSplits(s: Text, m: nat) returns (a: nat, i: nat, f: nat)
    requires m <= |s| && InGrammar(s[..m])
    ensures a < i <= f <= m && (a == 0 || (a == 1 && s[0] == MINUS))
    ensures Whole(s[a..i]) && Fraction(s[i..f]) && Power(s[f..m])
  {
    var t := s[..m];
    var x, y, z :| 0 <= x <= y <= z <= |t| && SplitsAt(t, x, y, z);
    a, i, f := x, y, z;
    Slices(s, m, a, i, f);
    assert |t[..a]| == a;
    assert a == 1 ==> s[..a][0] == s[0];
  }

  lemma {:induction false} LengthSum(s: Text)
    requires IntLen(s) > 0
    ensures NumberLen(s) == IntLen(s) + TailLen(s[IntLen(s)..])
  {
    var i := IntLen(s);
    var x := FracLen(s[i..]);
    assert s[i + x..] == s[i..][x..];
  }

  lemma {:induction false} ShortWhole(s: Text, i: nat, f: nat, m: nat)
    requires i <= f <= m <= |s| && Fraction(s[i..f]) && Power(s[f..m])
    requires i < IntLen(s) && IsDigit(s[i])
    ensures m <= NumberLen(s)
  {
    DigitEnds(s, i, f, m);
    LengthSum(s);
  }

  lemma {:induction false} FullWhole(s: Text, f: nat, m: nat)
    requires 0 < IntLen(s) <= f <= m <= |s| && Fraction(s[IntLen(s)..f]) && Power(s[f..m])
    ensures m <= NumberLen(s)
  {
    TailWithin(s, IntLen(s), f, m);
    LengthSum(s);
  }

  /** Every prefix in the grammar is within what the reader takes. */
  lemma {:induction false} GrammarWithin(s: Text, m: nat)
    requires m <= |s| && InGrammar(s[..m])
    ensures 0 < m <= NumberLen(s)
  {
    var a, i, f := PrefixSplits(s, m);
    WholeWithin(s, a, i);
    if i < IntLen(s) {
      ShortWhole(s, i, f, m);
    } else {
      FullWhole(s, f, m);
    }
  }

  // ---------------------------------------------------------------- main results

  /** A number token is a text of the grammar. */
  lemma {:induction false} NumberIsGrammar(t: Text)
    ensures IsNumber(t) <==> InGrammar(t)
  {
    assert t[..|t|] == t;
    if IsNumber(t) {
      FoundInGrammar(t);
    }
    if InGrammar(t) {
      GrammarWithin(t, |t|);
    }
  }

  /** The reader takes the longest prefix in the grammar, and none exactly when there is none. */
  lemma {:induction false} LongestNumber(s: Text)
    ensures NumberLen(s) > 0 ==> InGrammar(s[..NumberLen(s)])
    ensures forall m :: 0 <= m <= |s| && InGrammar(s[..m]) ==> 0 < m <= NumberLen(s)
  {
    if NumberLen(s) > 0 {
      FoundInGrammar(s);
    }
    forall m | 0 <= m <= |s| && InGrammar(s[..m])
      ensures 0 < m <= NumberLen(s)
    {
      GrammarWithin(s, m);
    }
  }
}
