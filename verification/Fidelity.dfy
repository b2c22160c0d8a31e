/** The B.2 fidelity layer: profiling a reference column, and clamping a sampled value back into
    the observed support. Numbers are exact reals; NaN and the infinities are excluded. */
module Fidelity {
  import opened Options
  import opened Reals
  import opened Rounding
  import opened Schema
  import opened Collections

  /** A cell. Documents stand for the dicts and lists of JSON columns. */
  datatype Value = Null | Num(x: real) | Flag(b: bool) | Str(s: string) | Doc(id: int)

  /** What the layer takes from Python itself: `float(str)`, `str(value)` and `json.loads`. */
  datatype Host = Host(parseFloat: string -> Option<real>, show: Value -> string, loads: string -> Option<Value>)

  type Row = map<string, Value>

  datatype Kind = CONSTANT | NUMERIC_RANGE | CATEGORICAL | FREE_TEXT

  datatype Profile = Profile(
    name: string,
    bqType: BqType,
    kind: Kind,
    nullable: bool,
    nullFraction: real,
    constantValue: Value,
    minimum: Option<real>,
    maximum: Option<real>,
    isInteger: bool,
    decimalScale: Option<nat>,
    categories: seq<Value>,
    weights: seq<real>,
    textPool: seq<string>)

  /** Profiling fails when `float()` rejects an observed value of a numeric column. */
  datatype Profiled = Built(profile: Profile) | Rejected

  // ---------------------------------------------------------------- profiling

  function ToFloat(v: Value, host: Host): Option<real> {
    match v
    case Num(x) => Some(x)
    case Flag(b) => Some(if b then 1.0 else 0.0)
    case Str(s) => host.parseFloat(s)
    case _ => None
  }

  function Cell(row: Row, name: string): Value { if name in row then row[name] else Null }

  function ColumnValues(rows: seq<Row>, name: string): (vs: seq<Value>)
    ensures |vs| == |rows|
  {
    seq(|rows|, i requires 0 <= i < |rows| => Cell(rows[i], name))
  }

  function NonNull(vs: seq<Value>): (r: seq<Value>)
    ensures |r| <= |vs|
  {
    if vs == [] then [] else (if vs[0] == Null then [] else [vs[0]]) + NonNull(vs[1..])
  }

  lemma {:induction false} NonNullFacts(vs: seq<Value>)
    ensures forall v :: v in NonNull(vs) <==> v in vs && v != Null
  {
    if vs != [] {
      NonNullFacts(vs[1..]);
      assert vs == [vs[0]] + vs[1..];
    }
  }

  function TotalLength(vs: seq<Value>, host: Host): nat {
    if vs == [] then 0 else |host.show(vs[0])| + TotalLength(vs[1..], host)
  }

  predicate IsStringy(t: BqType) { t == STRING || t == JSON || t == GEOGRAPHY || t == BYTES }

  const HIGH_CARDINALITY_RATIO: real := 0.9
  const FREE_TEXT_MIN_LEN: real := 40.0

  function Classify(field: FieldSchema, nonNull: seq<Value>, host: Host): Kind {
    var distinct := |Dedupe(nonNull)|;
    if distinct <= 1 then CONSTANT
    else if field.IsNumeric() then NUMERIC_RANGE
    else if field.bqType == BOOLEAN || field.bqType == BOOL then CATEGORICAL
    else if IsStringy(field.bqType) then
      if field.bqType == JSON then FREE_TEXT
      else
        var n := |nonNull| as real;
        if distinct as real / n >= HIGH_CARDINALITY_RATIO || TotalLength(nonNull, host) as real / n >= FREE_TEXT_MIN_LEN
        then FREE_TEXT
        else CATEGORICAL
    else CATEGORICAL
  }

  function Floats(vs: seq<Value>, host: Host): (r: Option<seq<real>>)
    ensures r.Some? ==> |r.value| == |vs|
  {
    if vs == [] then Some([])
    else
      match ToFloat(vs[0], host)
      case None => None
      case Some(x) =>
        match Floats(vs[1..], host)
        case None => None
        case Some(xs) => Some([x] + xs)
  }

  function Min(xs: seq<real>): real
    requires xs != []
  {
    if |xs| == 1 then xs[0]
    else
      var m := Min(xs[1..]);
      if xs[0] <= m then xs[0] else m
  }

  function Max(xs: seq<real>): real
    requires xs != []
  {
    if |xs| == 1 then xs[0]
    else
      var m := Max(xs[1..]);
      if xs[0] >= m then xs[0] else m
  }

  function Shown(vs: seq<Value>, host: Host): (r: seq<string>)
    ensures |r| == |vs| && forall i :: 0 <= i < |vs| ==> r[i] == host.show(vs[i])
  {
    seq(|vs|, i requires 0 <= i < |vs| => host.show(vs[i]))
  }

  function Frequencies(cats: seq<Value>, vs: seq<Value>): (w: seq<real>)
    requires vs != []
    ensures |w| == |cats| && forall i :: 0 <= i < |cats| ==> w[i] == Count(vs, cats[i]) as real / |vs| as real
  {
    seq(|cats|, i requires 0 <= i < |cats| => Count(vs, cats[i]) as real / |vs| as real)
  }

  function Blank(field: FieldSchema, kind: Kind, nullFraction: real): Profile {
    Profile(field.name, field.bqType, kind, field.IsNullable(), nullFraction, Null, None, None, false, None, [], [], [])
  }

  function ProfileColumn(field: FieldSchema, rows: seq<Row>, host: Host): Profiled {
    var raw := ColumnValues(rows, field.name);
    var nonNull := NonNull(raw);
    var nullFraction := if |raw| > 0 then (|raw| - |nonNull|) as real / |raw| as real else 0.0;
    if nonNull == [] then Built(Blank(field, CONSTANT, nullFraction))
    else
      var base := Blank(field, Classify(field, nonNull, host), nullFraction);
      match base.kind
      case CONSTANT => Built(base.(constantValue := nonNull[0]))
      case NUMERIC_RANGE =>
        (match Floats(nonNull, host)
         case None => Rejected
         case Some(nums) =>
           Built(base.(
             minimum := Some(Min(nums)),
             maximum := Some(Max(nums)),
             isInteger := field.IsInteger(),
             decimalScale := if field.IsDecimal() then Some(if field.scale.Some? then field.scale.value else 2) else None)))
      case FREE_TEXT => Built(base.(textPool := Dedupe(Shown(nonNull, host))))
      case CATEGORICAL =>
        var cats := Dedupe(nonNull);
        Built(base.(categories := cats, weights := Frequencies(cats, nonNull)))
  }

  // ---------------------------------------------------------------- enforcement

  function Clamp(x: real, lo: Option<real>, hi: Option<real>): real {
    var y := if lo.Some? && x < lo.value then lo.value else x;
    if hi.Some? && y > hi.value then hi.value else y
  }

  /** Pins a number to the column's grid: an integer, a fixed number of places, or any real. */
  function Pin(p: Profile, x: real): real {
    if p.isInteger then HalfEven(x) as real
    else if p.decimalScale.Some? then Quantize(x, p.decimalScale.value)
    else x
  }

  function Representative(p: Profile): Value {
    match p.kind
    case CONSTANT => p.constantValue
    case NUMERIC_RANGE =>
      var lo := if p.minimum.Some? then p.minimum.value else 0.0;
      Num(if p.isInteger then HalfEven(lo) as real else lo)
    case CATEGORICAL => if p.categories != [] then p.categories[0] else Null
    case FREE_TEXT => if p.textPool != [] then Str(p.textPool[0]) else Null
  }

  function EnforceNumeric(p: Profile, v: Value, host: Host): Value {
    match ToFloat(v, host)
    case None => Representative(p)
    case Some(x) => Num(Pin(p, Clamp(x, p.minimum, p.maximum)))
  }

  function CoerceJson(p: Profile, v: Value, host: Host): Value {
    if v.Doc? then v
    else if v.Str? && host.loads(v.s).Some? then host.loads(v.s).value
    else
      var rep := Representative(p);
      if rep.Str? then (if host.loads(rep.s).Some? then host.loads(rep.s).value else Null) else rep
  }

  function EnforceValue(p: Profile, v: Value, host: Host): Value {
    if p.kind == CONSTANT then p.constantValue
    else if v == Null then (if p.nullable then Null else Representative(p))
    else
      match p.kind
      case NUMERIC_RANGE => EnforceNumeric(p, v, host)
      case CATEGORICAL => if v in p.categories then v else Representative(p)
      case _ => if p.bqType == JSON then CoerceJson(p, v, host) else v
  }

  // ---------------------------------------------------------------- what a profile holds

  /** The values of the column that are not null. */
  function Observed(field: FieldSchema, rows: seq<Row>): seq<Value> { NonNull(ColumnValues(rows, field.name)) }

  lemma {:induction false} SumOfFrequencies(cats: seq<Value>, vs: seq<Value>)
    requires vs != []
    ensures Sum(Frequencies(cats, vs)) == SumCounts(cats, vs) as real / |vs| as real
  {
    var n := |vs| as real;
    var w := Frequencies(cats, vs);
    if cats != [] {
      SumOfFrequencies(cats[1..], vs);
      assert w[1..] == Frequencies(cats[1..], vs);
      var c, s := Count(vs, cats[0]), SumCounts(cats[1..], vs);
      QuotientSum(c as real, s as real, n);
      assert w[0] == c as real / n;
      assert SumCounts(cats, vs) as real == c as real + s as real;
    } else {
      assert Product(Quotient(0.0, n), n) == 0.0;
    }
  }

  /** What profiling promises: observed bounds that are attained, the exact set of observed
      categories with frequencies that sum to 1, a pool without repeats. */
  lemma {:induction false} ProfileFacts(field: FieldSchema, rows: seq<Row>, host: Host)
    requires ProfileColumn(field, rows, host).Built?
    ensures var p := ProfileColumn(field, rows, host).profile;
            var seen := Observed(field, rows);
            && p.bqType == field.bqType && p.nullable == field.IsNullable()
            && (p.kind == CONSTANT ==> forall v :: v in seen ==> v == p.constantValue)
            && (p.kind == NUMERIC_RANGE ==>
                  && p.minimum.Some? && p.maximum.Some? && p.minimum.value <= p.maximum.value
                  && (p.isInteger ==> p.decimalScale == None)
                  && (exists v :: v in seen && ToFloat(v, host) == p.minimum)
                  && (exists v :: v in seen && ToFloat(v, host) == p.maximum)
                  && forall v :: v in seen ==>
                       ToFloat(v, host).Some? && p.minimum.value <= ToFloat(v, host).value <= p.maximum.value)
            && (p.kind == CATEGORICAL ==>
                  && p.categories != [] && NoDuplicates(p.categories) && (forall v :: v in p.categories <==> v in seen)
                  && |p.weights| == |p.categories| && Sum(p.weights) == 1.0
                  && forall i :: 0 <= i < |p.weights| ==> p.weights[i] > 0.0)
            && (p.kind == FREE_TEXT ==>
                  p.textPool != [] && NoDuplicates(p.textPool) && forall v :: v in seen ==> host.show(v) in p.textPool)
  {
    var p := ProfileColumn(field, rows, host).profile;
    var seen := Observed(field, rows);
    if seen != [] {
      DedupeFacts(seen);
      match p.kind
      case CONSTANT => ConstantFacts(seen);
      case NUMERIC_RANGE => RangeFacts(seen, host);
      case CATEGORICAL => CategoryFacts(seen);
      case FREE_TEXT => PoolFacts(seen, host);
    }
  }

  lemma {:induction false} ConstantFacts(seen: seq<Value>)
    requires seen != [] && |Dedupe(seen)| <= 1
    ensures forall v :: v in seen ==> v == seen[0]
  {
    DedupeFacts(seen);
    assert seen[0] in Dedupe(seen);
  }

  lemma {:induction false} FloatsFacts(vs: seq<Value>, host: Host)
    requires Floats(vs, host).Some?
    ensures forall i :: 0 <= i < |vs| ==> ToFloat(vs[i], host) == Some(Floats(vs, host).value[i])
  {
    if vs != [] {
      FloatsFacts(vs[1..], host);
      assert forall i :: 0 < i < |vs| ==> vs[i] == vs[1..][i - 1];
    }
  }

  /** The extremes are attained and enclose every number. */
  lemma {:induction false} ExtremesFacts(xs: seq<real>)
    requires xs != []
    ensures Min(xs) in xs && Max(xs) in xs
    ensures forall i :: 0 <= i < |xs| ==> Min(xs) <= xs[i] <= Max(xs)
  {
    if |xs| > 1 {
      ExtremesFacts(xs[1..]);
      assert xs == [xs[0]] + xs[1..];
    }
  }

  lemma {:induction false} RangeFacts(seen: seq<Value>, host: Host)
    requires seen != [] && Floats(seen, host).Some?
    ensures var nums := Floats(seen, host).value;
            && (exists v :: v in seen && ToFloat(v, host) == Some(Min(nums)))
            && (exists v :: v in seen && ToFloat(v, host) == Some(Max(nums)))
            && forall v :: v in seen ==> ToFloat(v, host).Some? && Min(nums) <= ToFloat(v, host).value <= Max(nums)
  {
    var nums := Floats(seen, host).value;
    FloatsFacts(seen, host);
    ExtremesFacts(nums);
    var i :| 0 <= i < |nums| && nums[i] == Min(nums);
    var j :| 0 <= j < |nums| && nums[j] == Max(nums);
    assert seen[i] in seen && seen[j] in seen;
  }

  lemma {:induction false} CategoryFacts(seen: seq<Value>)
    requires seen != []
    ensures var cats := Dedupe(seen);
            var w := Frequencies(cats, seen);
            cats != [] && Sum(w) == 1.0 && forall i :: 0 <= i < |w| ==> w[i] > 0.0
  {
    var cats := Dedupe(seen);
    var w := Frequencies(cats, seen);
    DedupeFacts(seen);
    assert seen[0] in cats;
    SumCountsTotal(cats, seen);
    SumOfFrequencies(cats, seen);
    QuotientSelf(|seen| as real);
    forall i | 0 <= i < |w|
      ensures w[i] > 0.0
    {
      CountIn(seen, cats[i]);
      var c, n := Count(seen, cats[i]) as real, |seen| as real;
      assert Product(Quotient(c, n), n) == c > 0.0;
    }
  }

  lemma {:induction false} PoolFacts(seen: seq<Value>, host: Host)
    requires seen != []
    ensures var pool := Dedupe(Shown(seen, host));
            pool != [] && NoDuplicates(pool) && forall v :: v in seen ==> host.show(v) in pool
  {
    var shown := Shown(seen, host);
    DedupeFacts(shown);
    forall v | v in seen
      ensures host.show(v) in Dedupe(shown)
    {
      var i :| 0 <= i < |seen| && seen[i] == v;
      assert shown[i] == host.show(v);
    }
    assert host.show(seen[0]) in Dedupe(shown);
  }

  // ---------------------------------------------------------------- clamping

  /** Half a step of the column's grid. */
  function HalfStep(p: Profile): real {
    if p.isInteger then 0.5 else if p.decimalScale.Some? then 0.5 / Pow10(p.decimalScale.value) else 0.0
  }

  predicate OnGrid(p: Profile, x: real) { Pin(p, x) == x }

  lemma {:induction false} PinNear(p: Profile, x: real)
    ensures x - HalfStep(p) <= Pin(p, x) <= x + HalfStep(p)
  {
    HalfEvenFacts(x, x);
    if p.decimalScale.Some? {
      ToGridNear(x, Pow10(p.decimalScale.value));
    }
  }

  lemma {:induction false} PinMonotone(p: Profile, x: real, y: real)
    requires x <= y
    ensures Pin(p, x) <= Pin(p, y)
  {
    HalfEvenFacts(x, y);
    if p.decimalScale.Some? {
      ToGridMonotone(x, y, Pow10(p.decimalScale.value));
    }
  }

  lemma {:induction false} PinOnGrid(p: Profile, x: real)
    ensures OnGrid(p, Pin(p, x))
  {
    HalfEvenInteger(HalfEven(x));
    if p.decimalScale.Some? {
      var d := Pow10(p.decimalScale.value);
      ToGridPoint(HalfUp(Product(x, d)), d);
    }
  }

  /** Rounding escapes a range by at most half a step, and not at all when its ends are on the grid. */
  lemma {:induction false} PinnedRange(p: Profile, x: real, lo: real, hi: real)
    requires lo <= x <= hi
    ensures lo - HalfStep(p) <= Pin(p, x) <= hi + HalfStep(p)
    ensures OnGrid(p, lo) && OnGrid(p, hi) ==> lo <= Pin(p, x) <= hi
  {
    PinNear(p, x);
    PinMonotone(p, lo, x);
    PinMonotone(p, x, hi);
  }

  /** Pinning, clamping and pinning again changes nothing: what rounding pushed out of the range
      comes back to the same grid point. */
  lemma {:induction false} PinClampPin(p: Profile, x: real, lo: real, hi: real)
    requires lo <= x <= hi
    ensures Pin(p, Clamp(Pin(p, x), Some(lo), Some(hi))) == Pin(p, x)
  {
    var r := Pin(p, x);
    PinOnGrid(p, x);
    PinMonotone(p, lo, x);
    PinMonotone(p, x, hi);
    if r < lo {
      PinMonotone(p, r, lo);
    } else if r > hi {
      PinMonotone(p, hi, r);
    }
  }

  /** Every value of a numeric column, whatever the backend produced, comes out within half a step
      of the observed range, exactly inside it when the observed bounds are on the grid, and on the
      grid when it could be read as a number. */
  lemma {:induction false} EnforcedRange(field: FieldSchema, rows: seq<Row>, host: Host, v: Value)
    requires ProfileColumn(field, rows, host).Built? && ProfileColumn(field, rows, host).profile.kind == NUMERIC_RANGE
    ensures var p := ProfileColumn(field, rows, host).profile;
            var lo, hi := p.minimum.value, p.maximum.value;
            var r := EnforceValue(p, v, host);
            if v == Null && p.nullable then r == Null
            else
              && r.Num? && lo - HalfStep(p) <= r.x <= hi + HalfStep(p)
              && (OnGrid(p, lo) && OnGrid(p, hi) ==> lo <= r.x <= hi)
              && (ToFloat(v, host).Some? ==> OnGrid(p, r.x))
  {
    var p := ProfileColumn(field, rows, host).profile;
    ProfileFacts(field, rows, host);
    var lo, hi := p.minimum.value, p.maximum.value;
    PinnedRange(p, lo, lo, hi);
    if ToFloat(v, host).Some? {
      var c := Clamp(ToFloat(v, host).value, p.minimum, p.maximum);
      PinnedRange(p, c, lo, hi);
      PinOnGrid(p, c);
    }
    PinNear(p, lo);
  }

  lemma {:induction false} KeptAsIs(p: Profile, v: Value, host: Host)
    requires v != Null && p.bqType != JSON
    requires p.kind == CONSTANT ==> v == p.constantValue
    requires p.kind == CATEGORICAL ==> v in p.categories
    requires p.kind == NUMERIC_RANGE ==> Within(p, v, host)
    ensures EnforceValue(p, v, host) == if p.kind == NUMERIC_RANGE then Num(Pin(p, ToFloat(v, host).value)) else v
  {
  }

  predicate Within(p: Profile, v: Value, host: Host) {
    && p.minimum.Some? && p.maximum.Some? && ToFloat(v, host).Some?
    && p.minimum.value <= ToFloat(v, host).value <= p.maximum.value
  }

  /** Observed values on the grid are left alone; so are constants and observed categories. */
  lemma {:induction false} ObservedKept(field: FieldSchema, rows: seq<Row>, host: Host, v: Value)
    requires ProfileColumn(field, rows, host).Built? && v in Observed(field, rows) && field.bqType != JSON
    ensures var p := ProfileColumn(field, rows, host).profile;
            if p.kind == NUMERIC_RANGE
            then ToFloat(v, host).Some? && EnforceValue(p, v, host) == Num(Pin(p, ToFloat(v, host).value))
            else EnforceValue(p, v, host) == v
  {
    ProfileFacts(field, rows, host);
    NonNullFacts(ColumnValues(rows, field.name));
    KeptAsIs(ProfileColumn(field, rows, host).profile, v, host);
  }

  /** Does the value fall back to an observed minimum that is not on the decimal grid? */
  predicate FallsOffGrid(p: Profile, v: Value, host: Host) {
    && p.kind == NUMERIC_RANGE && p.decimalScale.Some? && !p.isInteger && p.minimum.Some?
    && (if v == Null then !p.nullable else ToFloat(v, host) == None)
    && !OnGrid(p, p.minimum.value)
  }

  lemma {:induction false} NumberTwice(p: Profile, v: Value, host: Host, lo: real, hi: real)
    requires p.kind == NUMERIC_RANGE && p.minimum == Some(lo) && p.maximum == Some(hi) && lo <= hi
    requires p.isInteger ==> p.decimalScale == None
    ensures EnforceValue(p, EnforceValue(p, v, host), host) == EnforceValue(p, v, host) <==> !FallsOffGrid(p, v, host)
  {
    PinClampPin(p, lo, lo, hi);
    if ToFloat(v, host).Some? {
      PinClampPin(p, Clamp(ToFloat(v, host).value, p.minimum, p.maximum), lo, hi);
    }
  }

  lemma {:induction false} OtherTwice(p: Profile, v: Value, host: Host)
    requires p.kind != NUMERIC_RANGE && p.bqType != JSON
    requires p.kind == CATEGORICAL ==> p.categories != []
    ensures EnforceValue(p, EnforceValue(p, v, host), host) == EnforceValue(p, v, host) && !FallsOffGrid(p, v, host)
  {
  }

  /** Enforcement is a projection on every value except those that fall back to an unrounded
      minimum: `_representative` returns that minimum as it is. */
  lemma {:induction false} EnforceTwice(field: FieldSchema, rows: seq<Row>, host: Host, v: Value)
    requires ProfileColumn(field, rows, host).Built? && field.bqType != JSON
    ensures var p := ProfileColumn(field, rows, host).profile;
            EnforceValue(p, EnforceValue(p, v, host), host) == EnforceValue(p, v, host) <==> !FallsOffGrid(p, v, host)
  {
    var p := ProfileColumn(field, rows, host).profile;
    ProfileFacts(field, rows, host);
    if p.kind == NUMERIC_RANGE {
      NumberTwice(p, v, host, p.minimum.value, p.maximum.value);
    } else {
      OtherTwice(p, v, host);
    }
  }

  /** A REQUIRED NUMERIC column of the default two places, observed twice. */
  const PRICE: FieldSchema := FieldSchema("price", NUMERIC, REQUIRED, [], Option.None, Option.None, Option.None)

  function PriceRows(a: real, b: real): seq<Row> { [map["price" := Num(a)], map["price" := Num(b)]] }

  lemma {:induction false} PricesObserved(a: real, b: real)
    ensures Observed(PRICE, PriceRows(a, b)) == [Num(a), Num(b)]
  {
    var vs := ColumnValues(PriceRows(a, b), "price");
    assert vs == [Num(a), Num(b)];
    assert vs[1..] == [Num(b)] && vs[1..][1..] == [];
    assert NonNull(vs[1..]) == [Num(b)];
  }

  lemma {:induction false} TwoAreDistinct(a: Value, b: Value)
    requires a != b
    ensures |Dedupe([a, b])| == 2
  {
    var s := [a, b];
    assert s[..1] == [a] && s[..1][..0] == [];
    assert Dedupe(s[..1]) == [a];
  }

  lemma {:induction false} PriceProfile(a: real, b: real, host: Host)
    requires a < b
    ensures ProfileColumn(PRICE, PriceRows(a, b), host).Built?
    ensures var p := ProfileColumn(PRICE, PriceRows(a, b), host).profile;
            && p.kind == NUMERIC_RANGE && !p.nullable && !p.isInteger && p.decimalScale == Some(2)
            && p.minimum == Some(a) && p.maximum == Some(b)
  {
    PricesObserved(a, b);
    TwoAreDistinct(Num(a), Num(b));
    var seen := [Num(a), Num(b)];
    assert seen[1..] == [Num(b)] && seen[1..][1..] == [];
    assert Floats(seen[1..][1..], host) == Some([]);
    assert ToFloat(seen[1..][0], host) == Some(b) && [b] + [] == [b];
    assert Floats(seen[1..], host) == Some([b]);
    assert [a] + [b] == [a, b];
    assert Floats(seen, host) == Some([a, b]);
    assert [a, b][1..] == [b];
    ExtremesFacts([a, b]);
  }

  /** An input on which enforcing twice changes more than enforcing once: the column observed at
      half a cent and one, and a missing value. */
  lemma {:induction false} EnforceTwiceCanMove(host: Host)
    ensures var built := ProfileColumn(PRICE, PriceRows(0.005, 1.0), host);
            && built.Built?
            && EnforceValue(built.profile, Null, host) == Num(0.005)
            && EnforceValue(built.profile, Num(0.005), host) == Num(0.01)
  {
    PriceProfile(0.005, 1.0, host);
    HalfACent(2);
  }

  lemma {:induction false} HalfACent(scale: nat)
    requires scale == 2
    ensures Quantize(0.005, scale) == 0.01
  {
    assert Pow10(scale - 1) == 10.0 && Pow10(scale) == 100.0;
    assert Product(0.005, 100.0) == 0.5;
    assert (0.5 + 0.5).Floor == 1;
  }

  lemma {:induction false} RepresentativeIsSeen(p: Profile, seen: seq<Value>, v: Value)
    requires Null !in seen && v in seen
    requires p.kind == CONSTANT ==> v == p.constantValue
    requires p.kind == CATEGORICAL ==> p.categories != [] && p.categories[0] in seen
    requires p.kind == FREE_TEXT ==> p.textPool != []
    ensures Representative(p) != Null
  {
  }

  lemma {:induction false} RepresentativeNotNull(field: FieldSchema, rows: seq<Row>, host: Host)
    requires ProfileColumn(field, rows, host).Built? && Observed(field, rows) != []
    ensures Representative(ProfileColumn(field, rows, host).profile) != Null
  {
    ProfileFacts(field, rows, host);
    NonNullFacts(ColumnValues(rows, field.name));
    var p, seen := ProfileColumn(field, rows, host).profile, Observed(field, rows);
    assert seen[0] in seen;
    if p.kind == CATEGORICAL {
      assert p.categories[0] in p.categories;
    }
    RepresentativeIsSeen(p, seen, seen[0]);
  }

  lemma {:induction false} EnforcedNotNull(p: Profile, v: Value, host: Host)
    requires !p.nullable && p.bqType != JSON && Representative(p) != Null
    ensures EnforceValue(p, v, host) != Null
  {
  }

  /** A REQUIRED column with at least one observed value never gets a null. */
  lemma {:induction false} RequiredNeverNull(field: FieldSchema, rows: seq<Row>, host: Host, v: Value)
    requires ProfileColumn(field, rows, host).Built? && field.bqType != JSON
    requires field.mode == REQUIRED && Observed(field, rows) != []
    ensures EnforceValue(ProfileColumn(field, rows, host).profile, v, host) != Null
  {
    ProfileFacts(field, rows, host);
    RepresentativeNotNull(field, rows, host);
    EnforcedNotNull(ProfileColumn(field, rows, host).profile, v, host);
  }
}
