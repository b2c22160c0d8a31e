/** What `max_digits` and `decimal_places` say about the number `coef * 10 ** exp` itself, whatever
    its digits are written as. */
module DecimalLimits {
  import opened Options
  import opened SchemaRecord

  /** `coef * 10 ** exp` is `m` units of `10 ** -d`. */
  predicate InUnits(coef: int, exp: int, d: nat, m: int) {
    if exp + d >= 0 then m == coef * Pow10(exp + d) else coef == m * Pow10(-exp - d)
  }

  /** The number is a whole number of `10 ** -scale`. */
  ghost predicate FitsScale(scale: nat, coef: int, exp: int) {
    exists m :: InUnits(coef, exp, scale, m)
  }

  /** With at most `precision` places the number is a whole number below `10 ** precision`. */
  ghost predicate FitsPrecision(precision: nat, coef: int, exp: int) {
    precision >= 1 && exists d: nat, m :: d <= precision && InUnits(coef, exp, d, m) && Abs(m) < Pow10(precision)
  }

  /** The number is below `10 ** whole`; a zero written without places counts as one whole digit. */
  predicate FitsWhole(whole: nat, coef: int, exp: int) {
    if coef == 0 then exp < 0 || whole >= 1
    else if exp >= 0 then Abs(coef) * Pow10(exp) < Pow10(whole)
    else Abs(coef) < Pow10(whole) * Pow10(-exp)
  }

  // ---------------------------------------------------------------- powers and digits

  lemma {:induction false} PowerSum(a: nat, b: nat)
    ensures Pow10(a + b) == Pow10(a) * Pow10(b)
  {
    if a > 0 {
      PowerSum(a - 1, b);
      Associates(10, Pow10(a - 1), Pow10(b));
    }
  }

  lemma {:induction false} Associates(a: int, b: int, c: int)
    ensures a * b * c == a * (b * c)
  {
  }

  lemma {:induction false} PowersGrow(a: nat, b: nat)
    requires a <= b
    ensures Pow10(a) <= Pow10(b)
  {
    if a < b {
      PowersGrow(a, b - 1);
    }
  }

  lemma {:induction false} BelowOwnPower(n: nat)
    ensures n < Pow10(NumDigits(n))
  {
    if n >= 10 {
      BelowOwnPower(n / 10);
    }
  }

  /** A number has at most `k` digits exactly when it is below `10 ** k`. */
  lemma {:induction false} DigitsBelow(n: nat, k: nat)
    ensures NumDigits(n) <= k <==> k >= 1 && n < Pow10(k)
  {
    if k >= 1 && n < Pow10(k) {
      NumDigitsBound(n, k);
    }
    if NumDigits(n) <= k {
      BelowOwnPower(n);
      PowersGrow(NumDigits(n), k);
    }
  }

  lemma {:induction false} DigitsTimes(n: nat, e: nat)
    requires n > 0
    ensures n * Pow10(e) > 0 && NumDigits(n * Pow10(e)) == NumDigits(n) + e
  {
    if e > 0 {
      DigitsTimes(n, e - 1);
      var x := n * Pow10(e - 1);
      TenTimes(n, Pow10(e - 1));
      assert n * Pow10(e) == 10 * x;
    }
  }

  lemma {:induction false} TenTimes(n: int, p: int)
    ensures n * (10 * p) == 10 * (n * p)
  {
  }

  lemma {:induction false} AbsTimes(a: int, b: nat)
    ensures Abs(a * b) == Abs(a) * b
  {
    if a >= 0 {
      SignTimes(a, b);
    } else {
      SignTimes(-a, b);
      assert a * b == -((-a) * b);
    }
  }

  lemma {:induction false} SignTimes(a: nat, b: nat)
    ensures a * b >= 0
  {
  }

  // ---------------------------------------------------------------- stripping a zero changes nothing

  lemma {:induction false} UnitsStripped(c: int, exp: int, d: nat, m: int)
    ensures InUnits(10 * c, exp, d, m) <==> InUnits(c, exp + 1, d, m)
  {
    var e := exp + d;
    if e >= 0 {
      TenTimes(c, Pow10(e));
      assert Pow10(e + 1) == 10 * Pow10(e);
      assert (10 * c) * Pow10(e) == 10 * (c * Pow10(e));
    } else {
      assert Pow10(-e) == 10 * Pow10(-e - 1);
      TenTimes(m, Pow10(-e - 1));
    }
  }

  lemma {:induction false} ScaleStripped(c: int, exp: int, scale: nat)
    ensures FitsScale(scale, 10 * c, exp) <==> FitsScale(scale, c, exp + 1)
  {
    if FitsScale(scale, 10 * c, exp) {
      var m :| InUnits(10 * c, exp, scale, m);
      UnitsStripped(c, exp, scale, m);
    }
    if FitsScale(scale, c, exp + 1) {
      var m :| InUnits(c, exp + 1, scale, m);
      UnitsStripped(c, exp, scale, m);
    }
  }

  lemma {:induction false} PrecisionStripped(c: int, exp: int, precision: nat)
    ensures FitsPrecision(precision, 10 * c, exp) <==> FitsPrecision(precision, c, exp + 1)
  {
    if FitsPrecision(precision, 10 * c, exp) {
      var d: nat, m :| d <= precision && InUnits(10 * c, exp, d, m) && Abs(m) < Pow10(precision);
      UnitsStripped(c, exp, d, m);
    }
    if FitsPrecision(precision, c, exp + 1) {
      var d: nat, m :| d <= precision && InUnits(c, exp + 1, d, m) && Abs(m) < Pow10(precision);
      UnitsStripped(c, exp, d, m);
    }
  }

  lemma {:induction false} WholeStripped(c: int, exp: int, whole: nat)
    requires c != 0
    ensures FitsWhole(whole, 10 * c, exp) <==> FitsWhole(whole, c, exp + 1)
  {
    assert Abs(10 * c) == 10 * Abs(c);
    if exp >= 0 {
      TenTimes(Abs(c), Pow10(exp));
      assert (10 * Abs(c)) * Pow10(exp) == 10 * (Abs(c) * Pow10(exp));
    } else {
      TenTimes(Pow10(whole), Pow10(-exp - 1));
      assert Pow10(-exp) == 10 * Pow10(-exp - 1);
      assert exp == -1 ==> Abs(c) * Pow10(0) == Abs(c) && Pow10(whole) * Pow10(0) == Pow10(whole);
    }
  }

  // ---------------------------------------------------------------- without a trailing zero

  lemma {:induction false} NoLargerUnit(coef: int, exp: int, d: nat, m: int)
    requires coef % 10 != 0 && InUnits(coef, exp, d, m)
    ensures exp + d >= 0
  {
    var e := exp + d;
    if e < 0 {
      TenTimes(m, Pow10(-e - 1));
      assert Pow10(-e) == 10 * Pow10(-e - 1);
      MultipleOfTen(coef, m * Pow10(-e - 1));
    }
  }

  lemma {:induction false} MultipleOfTen(coef: int, q: int)
    requires coef == 10 * q
    ensures coef % 10 == 0
  {
  }

  lemma {:induction false} BareScale(coef: int, exp: int, scale: nat)
    requires coef % 10 != 0
    ensures FitsScale(scale, coef, exp) <==> InfoOf(coef, exp).decimals <= scale
  {
    if exp + scale >= 0 {
      assert InUnits(coef, exp, scale, coef * Pow10(exp + scale));
    }
    if m :| InUnits(coef, exp, scale, m) {
      NoLargerUnit(coef, exp, scale, m);
    }
  }

  lemma {:induction false} BarePrecision(coef: int, exp: int, precision: nat)
    requires coef % 10 != 0
    ensures FitsPrecision(precision, coef, exp) <==> InfoOf(coef, exp).digits <= precision
  {
    var n := Abs(coef);
    var least := if exp >= 0 then 0 else -exp;
    var power := if exp >= 0 then exp else 0;
    var x := coef * Pow10(power);
    AbsTimes(coef, Pow10(power));
    DigitsTimes(n, power);
    DigitsBelow(n * Pow10(power), precision);
    if InfoOf(coef, exp).digits <= precision {
      assert InUnits(coef, exp, least, x);
    }
    if precision >= 1 {
      if d: nat, m :| d <= precision && InUnits(coef, exp, d, m) && Abs(m) < Pow10(precision) {
        NoLargerUnit(coef, exp, d, m);
        SmallerUnit(coef, exp, d, m, power);
      }
    }
  }

  lemma {:induction false} SmallerUnit(coef: int, exp: int, d: nat, m: int, power: nat)
    requires exp + d >= power && InUnits(coef, exp, d, m)
    ensures Abs(m) >= Abs(coef) * Pow10(power)
  {
    AbsTimes(coef, Pow10(exp + d));
    PowersGrow(power, exp + d);
    ProductGrows(Abs(coef), Pow10(power), Pow10(exp + d));
  }

  lemma {:induction false} ProductGrows(a: nat, b: nat, c: nat)
    requires b <= c
    ensures a * b <= a * c
  {
  }

  lemma {:induction false} BareWhole(coef: int, exp: int, whole: nat)
    requires coef % 10 != 0
    ensures FitsWhole(whole, coef, exp) <==> Minus(InfoOf(coef, exp).digits, InfoOf(coef, exp).decimals) <= whole
  {
    var n := Abs(coef);
    if exp >= 0 {
      DigitsTimes(n, exp);
      DigitsBelow(n * Pow10(exp), whole);
      assert Pow10(0) == 1;
    } else {
      DigitsBelow(n, whole - exp);
      PowerSum(whole, -exp);
    }
  }

  // ---------------------------------------------------------------- main result

  /** The normalized number's digits say what the number itself is. */
  lemma {:induction false} NormalMeans(coef: int, exp: int, precision: nat, scale: nat, whole: nat)
    requires coef != 0
    ensures var norm := NormalInfo(coef, exp);
            && (norm.digits <= precision <==> FitsPrecision(precision, coef, exp))
            && (norm.decimals <= scale <==> FitsScale(scale, coef, exp))
            && (Minus(norm.digits, norm.decimals) <= whole <==> FitsWhole(whole, coef, exp))
    decreases Abs(coef)
  {
    if coef % 10 == 0 {
      NormalMeans(coef / 10, exp + 1, precision, scale, whole);
      PrecisionStripped(coef / 10, exp, precision);
      ScaleStripped(coef / 10, exp, scale);
      WholeStripped(coef / 10, exp, whole);
    } else {
      BarePrecision(coef, exp, precision);
      BareScale(coef, exp, scale);
      BareWhole(coef, exp, whole);
    }
  }

  /** Normalizing never adds digits or places, and keeps the whole digits. */
  lemma {:induction false} NormalIsLess(coef: int, exp: int)
    requires coef != 0
    ensures var raw, norm := InfoOf(coef, exp), NormalInfo(coef, exp);
            && norm.digits <= raw.digits && norm.decimals <= raw.decimals
            && Minus(norm.digits, norm.decimals) == Minus(raw.digits, raw.decimals)
    decreases Abs(coef)
  {
    if coef % 10 == 0 {
      NormalIsLess(coef / 10, exp + 1);
      assert Abs(coef) / 10 == Abs(coef / 10);
      assert NumDigits(Abs(coef)) == 1 + NumDigits(Abs(coef / 10));
    }
  }

  lemma {:induction false} ZeroFits(exp: int, precision: nat, scale: nat)
    ensures FitsPrecision(precision, 0, exp) <==> precision >= 1
    ensures FitsScale(scale, 0, exp)
  {
    assert InUnits(0, exp, 0, 0) && InUnits(0, exp, scale, 0);
    assert Pow10(precision) > 0 && Abs(0) == 0;
  }

  /** The record model accepts a decimal exactly when the number has a whole number of units of its
      last declared place, fits the declared digits with as many places, and is below the declared
      whole digits. */
  lemma {:induction false} DecimalMeans(precision: Option<nat>, scale: Option<nat>, coef: int, exp: int)
    ensures AcceptsDecimal(precision, scale, coef, exp) <==>
              && (precision.Some? ==> FitsPrecision(precision.value, coef, exp))
              && (scale.Some? ==> FitsScale(scale.value, coef, exp))
              && (precision.Some? && scale.Some? ==> FitsWhole(Minus(precision.value, scale.value), coef, exp))
  {
    var p, s := if precision.Some? then precision.value else 0, if scale.Some? then scale.value else 0;
    if coef == 0 {
      ZeroFits(exp, p, s);
    } else {
      NormalMeans(coef, exp, p, s, Minus(p, s));
      NormalIsLess(coef, exp);
    }
  }

  /** The strategy's bound is `10 ** i - 10 ** -scale`, in units of `10 ** -scale`, as long as its
      digits fit the decimal context, and `10 ** i` when they do not. */
  lemma {:induction false} UpperMeans(precision: nat, scale: nat)
    ensures var i := if precision > scale then precision - scale else 0;
            UpperCoef(precision, scale) == Pow10(i) * Pow10(scale) - (if i + scale <= 28 then 1 else 0)
  {
    PowerSum(Minus(precision, scale), scale);
  }
}
