/** What a profile and its enforcement are, apart from how the fidelity layer computes them. */
module ProfileLaws {
  import opened Options
  import opened Reals
  import opened Rounding
  import opened Schema
  import opened Collections
  import opened Fidelity

  // ---------------------------------------------------------------- observations

  /** The observed values are the ones that are not null, in order. */
  lemma {:induction false} NonNullPlaces(vs: seq<Value>) returns (at: seq<nat>)
    ensures Selects(vs, at, NonNull(vs))
    ensures forall q: nat :: q in at <==> q < |vs| && vs[q] != Null
  {
    at := [];
    if vs != [] {
      var n := |vs| - 1;
      at := NonNullPlaces(vs[..n]);
      NonNullLast(vs);
      SelectsLater(vs[..n], at, NonNull(vs[..n]), vs[n]);
      assert vs == vs[..n] + [vs[n]];
      if vs[n] != Null {
        at := at + [n];
      }
    }
  }

  lemma {:induction false} NonNullLast(vs: seq<Value>)
    requires vs != []
    ensures var n := |vs| - 1; NonNull(vs) == NonNull(vs[..n]) + (if vs[n] == Null then [] else [vs[n]])
  {
    var n := |vs| - 1;
    if n > 0 {
      NonNullLast(vs[1..]);
      assert vs[1..][..n - 1] == vs[..n][1..];
    } else {
      assert vs[1..] == [];
    }
  }

  lemma {:induction false} NullsLeftOut(vs: seq<Value>)
    ensures |vs| - |NonNull(vs)| == multiset(vs)[Null]
  {
    if vs != [] {
      NullsLeftOut(vs[1..]);
      assert vs == [vs[0]] + vs[1..];
    }
  }

  /** The total length is additive over the parts of the column. */
  lemma {:induction false} LengthParts(a: seq<Value>, b: seq<Value>, host: Host)
    ensures TotalLength(a + b, host) == TotalLength(a, host) + TotalLength(b, host)
    ensures forall v :: TotalLength([v], host) == |host.show(v)|
  {
    if a == [] {
      assert a + b == b;
    } else {
      assert (a + b)[1..] == a[1..] + b;
      LengthParts(a[1..], b, host);
    }
  }

  // ---------------------------------------------------------------- the profile

  ghost predicate Varied(seen: seq<Value>) { exists v :: v in seen && v != seen[0] }

  lemma {:induction false} VariedCount(seen: seq<Value>)
    requires seen != []
    ensures |Dedupe(seen)| <= 1 <==> !Varied(seen)
  {
    DedupeFacts(seen);
    FirstIsFirst(seen);
    if Varied(seen) {
      var v :| v in seen && v != seen[0];
      assert v in Dedupe(seen);
    }
    if |Dedupe(seen)| > 1 {
      assert Dedupe(seen)[1] in seen;
    }
  }

  predicate HasNumbers(t: BqType) { t in {INTEGER, INT64, FLOAT, FLOAT64, NUMERIC, BIGNUMERIC} }

  predicate HasText(t: BqType) { t in {STRING, GEOGRAPHY, BYTES} }

  /** Mostly different, or long, texts. */
  ghost predicate ReadsAsText(seen: seq<Value>, host: Host)
    requires seen != []
  {
    var n := |seen| as real;
    |set v | v in seen| as real / n >= 0.9 || TotalLength(seen, host) as real / n >= 40.0
  }

  lemma {:induction false} ClassifiedAs(field: FieldSchema, seen: seq<Value>, host: Host)
    requires seen != []
    ensures Classify(field, seen, host)
            == if !Varied(seen) then CONSTANT
               else if HasNumbers(field.bqType) then NUMERIC_RANGE
               else if field.bqType == JSON then FREE_TEXT
               else if HasText(field.bqType) && ReadsAsText(seen, host) then FREE_TEXT
               else CATEGORICAL
  {
    VariedCount(seen);
    DedupeSize(seen);
  }

  lemma {:induction false} KindIs(field: FieldSchema, rows: seq<Row>, host: Host)
    requires ProfileColumn(field, rows, host).Built?
    ensures var seen := Observed(field, rows);
            ProfileColumn(field, rows, host).profile.kind == if seen == [] then CONSTANT else Classify(field, seen, host)
  {
  }

  /** Which kind of profile a column gets. */
  lemma {:induction false} KindOf(field: FieldSchema, rows: seq<Row>, host: Host)
    requires ProfileColumn(field, rows, host).Built?
    ensures var seen := Observed(field, rows);
            ProfileColumn(field, rows, host).profile.kind
            == if seen == [] || !Varied(seen) then CONSTANT
               else if HasNumbers(field.bqType) then NUMERIC_RANGE
               else if field.bqType == JSON then FREE_TEXT
               else if HasText(field.bqType) && ReadsAsText(seen, host) then FREE_TEXT
               else CATEGORICAL
  {
    var seen := Observed(field, rows);
    KindIs(field, rows, host);
    if seen != [] {
      ClassifiedAs(field, seen, host);
    }
  }

  /** The grid of a numeric column, and what is always recorded. */
  lemma {:induction false} GridOf(field: FieldSchema, rows: seq<Row>, host: Host)
    requires ProfileColumn(field, rows, host).Built?
    ensures var p := ProfileColumn(field, rows, host).profile;
            && p.name == field.name && p.bqType == field.bqType && p.nullable == (field.mode == NULLABLE)
            && (p.kind == NUMERIC_RANGE ==>
                  && (p.isInteger <==> field.bqType == INTEGER || field.bqType == INT64)
                  && p.decimalScale == if field.bqType != NUMERIC && field.bqType != BIGNUMERIC then None
                                       else if field.scale.Some? then field.scale else Some(2))
            && (p.kind == CONSTANT ==>
                  p.constantValue == if Observed(field, rows) == [] then Null else Observed(field, rows)[0])
  {
  }

  lemma {:induction false} ShareTimes(k: nat, n: nat)
    requires k <= n
    ensures Product(if n > 0 then k as real / n as real else 0.0, n as real) == k as real
  {
    if n > 0 {
      assert Product(Quotient(k as real, n as real), n as real) == k as real;
    }
  }

  lemma {:induction false} NullFractionIs(field: FieldSchema, rows: seq<Row>, host: Host)
    requires ProfileColumn(field, rows, host).Built?
    ensures var raw := ColumnValues(rows, field.name);
            ProfileColumn(field, rows, host).profile.nullFraction
            == if |raw| > 0 then (|raw| - |NonNull(raw)|) as real / |raw| as real else 0.0
  {
  }

  /** The null fraction is the share of rows in which the column is missing or null. */
  lemma {:induction false} NullShare(field: FieldSchema, rows: seq<Row>, host: Host)
    requires ProfileColumn(field, rows, host).Built?
    ensures var nulls := multiset(ColumnValues(rows, field.name))[Null];
            Product(ProfileColumn(field, rows, host).profile.nullFraction, |rows| as real) == nulls as real
  {
    var raw := ColumnValues(rows, field.name);
    NullsLeftOut(raw);
    NullFractionIs(field, rows, host);
    ShareTimes(|raw| - |NonNull(raw)|, |raw|);
  }

  lemma {:induction false} WeightMeans(seen: seq<Value>, i: nat)
    requires seen != [] && i < |Dedupe(seen)|
    ensures Frequencies(Dedupe(seen), seen)[i] == multiset(seen)[Dedupe(seen)[i]] as real / |seen| as real
  {
    CountIsMultiplicity(seen, Dedupe(seen)[i]);
  }

  lemma {:induction false} CategoriesAre(field: FieldSchema, rows: seq<Row>, host: Host)
    requires ProfileColumn(field, rows, host).Built? && ProfileColumn(field, rows, host).profile.kind == CATEGORICAL
    ensures var p, seen := ProfileColumn(field, rows, host).profile, Observed(field, rows);
            seen != [] && p.categories == Dedupe(seen) && p.weights == Frequencies(Dedupe(seen), seen)
  {
  }

  /** Categories come with their observed frequencies. */
  lemma {:induction false} WeightsOf(field: FieldSchema, rows: seq<Row>, host: Host, i: nat)
    requires ProfileColumn(field, rows, host).Built? && ProfileColumn(field, rows, host).profile.kind == CATEGORICAL
    requires i < |ProfileColumn(field, rows, host).profile.categories|
    ensures var p, seen := ProfileColumn(field, rows, host).profile, Observed(field, rows);
            && |p.weights| == |p.categories| && seen != []
            && p.weights[i] == multiset(seen)[p.categories[i]] as real / |seen| as real
  {
    CategoriesAre(field, rows, host);
    WeightMeans(Observed(field, rows), i);
  }

  /** A text pool holds what is observed, as text. */
  lemma {:induction false} PoolOf(field: FieldSchema, rows: seq<Row>, host: Host)
    requires ProfileColumn(field, rows, host).Built? && ProfileColumn(field, rows, host).profile.kind == FREE_TEXT
    ensures var p, seen := ProfileColumn(field, rows, host).profile, Observed(field, rows);
            forall s :: s in p.textPool <==> exists v :: v in seen && host.show(v) == s
  {
    ShownMeans(Observed(field, rows), host);
  }

  lemma {:induction false} ShownMeans(seen: seq<Value>, host: Host)
    ensures forall s :: s in Dedupe(Shown(seen, host)) <==> exists v :: v in seen && host.show(v) == s
  {
    var shown := Shown(seen, host);
    DedupeFacts(shown);
    forall s
      ensures s in shown <==> exists v :: v in seen && host.show(v) == s
    {
      if s in shown {
        var i :| 0 <= i < |shown| && shown[i] == s;
        assert seen[i] in seen;
      }
      if v :| v in seen && host.show(v) == s {
        var i :| 0 <= i < |seen| && seen[i] == v;
        assert shown[i] == s;
      }
    }
  }

  // ---------------------------------------------------------------- enforcement

  function Apart(x: real, y: real): real { if x < y then y - x else x - y }

  /** `c` is the point of the range nearest to `x`. */
  ghost predicate Nearest(c: real, x: real, lo: real, hi: real) {
    lo <= c <= hi && forall y: real {:trigger Apart(y, x)} :: lo <= y <= hi ==> Apart(c, x) <= Apart(y, x)
  }

  lemma {:induction false} ClampIsNearest(x: real, lo: real, hi: real, c: real)
    requires lo <= hi
    ensures Nearest(c, x, lo, hi) <==> c == Clamp(x, Some(lo), Some(hi))
  {
    var d := Clamp(x, Some(lo), Some(hi));
    assert Apart(d, x) == if x < lo then lo - x else if x > hi then x - hi else 0.0;
  }

  /** A number is moved to the nearest point of the observed range, then to the grid. */
  lemma {:induction false} EnforcedNumber(field: FieldSchema, rows: seq<Row>, host: Host, v: Value, c: real)
    requires ProfileColumn(field, rows, host).Built? && ProfileColumn(field, rows, host).profile.kind == NUMERIC_RANGE
    requires v != Null && ToFloat(v, host).Some?
    requires var p := ProfileColumn(field, rows, host).profile;
             p.minimum.Some? && p.maximum.Some? && Nearest(c, ToFloat(v, host).value, p.minimum.value, p.maximum.value)
    ensures var p := ProfileColumn(field, rows, host).profile; EnforceValue(p, v, host) == Num(Pin(p, c))
  {
    var p := ProfileColumn(field, rows, host).profile;
    ProfileFacts(field, rows, host);
    ClampIsNearest(ToFloat(v, host).value, p.minimum.value, p.maximum.value, c);
  }

  /** The grid: integers, multiples of the declared place, or every number. */
  lemma {:induction false} GridMeans(p: Profile, x: real)
    requires p.isInteger ==> p.decimalScale == None
    ensures OnGrid(p, x) <==>
              && (p.isInteger ==> x == x.Floor as real)
              && (p.decimalScale.Some? ==> IsMultiple(x, Pow10(p.decimalScale.value)))
  {
    GridPoints(x, 1.0);
    if p.decimalScale.Some? {
      GridPoints(x, Pow10(p.decimalScale.value));
    }
  }

  /** What stands in for a value that cannot be used: the first observed category or text, or the
      observed minimum, an integer one rounded. */
  lemma {:induction false} StandIn(field: FieldSchema, rows: seq<Row>, host: Host, v: Value)
    requires ProfileColumn(field, rows, host).Built? && Observed(field, rows) != []
    ensures var p, seen := ProfileColumn(field, rows, host).profile, Observed(field, rows);
            var unused := if v == Null then field.mode != NULLABLE
                          else if p.kind == NUMERIC_RANGE then ToFloat(v, host) == None
                          else p.kind == CATEGORICAL && v !in seen;
            unused && field.bqType != JSON ==>
              EnforceValue(p, v, host) == match p.kind
                                          case CONSTANT => seen[0]
                                          case CATEGORICAL => seen[0]
                                          case FREE_TEXT => Str(host.show(seen[0]))
                                          case NUMERIC_RANGE =>
                                            Num(if p.isInteger then HalfEven(p.minimum.value) as real else p.minimum.value)
  {
    var seen := Observed(field, rows);
    ProfileFacts(field, rows, host);
    FirstIsFirst(seen);
    FirstIsFirst(Shown(seen, host));
  }

  /** What a JSON cell becomes: documents stay, readable texts are decoded, and an unreadable one is
      replaced by the first observed text, decoded, or null when that is unreadable as well. */
  lemma {:induction false} JsonCell(field: FieldSchema, rows: seq<Row>, host: Host, v: Value)
    requires ProfileColumn(field, rows, host).Built? && ProfileColumn(field, rows, host).profile.kind == FREE_TEXT
    requires field.bqType == JSON && v != Null
    ensures var seen, r := Observed(field, rows), EnforceValue(ProfileColumn(field, rows, host).profile, v, host);
            && seen != []
            && (v.Doc? ==> r == v)
            && (v.Str? && host.loads(v.s).Some? ==> r == host.loads(v.s).value)
            && (!v.Doc? && !(v.Str? && host.loads(v.s).Some?) ==>
                  var first := host.loads(host.show(seen[0])); r == if first.Some? then first.value else Null)
  {
    ProfileFacts(field, rows, host);
    FirstIsFirst(Shown(Observed(field, rows), host));
  }
}
