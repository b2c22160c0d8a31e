/** The schema-driven record generator of the tests against the schema-driven record model: which
    schemas make every generated record valid. */
module SchemaRecord {
  import opened Options
  import opened Schema

  /** A Python value as the record model sees it; a decimal is `coef * 10 ** exp`, dates and times
      count from their epoch. */
  datatype Val =
    | VNull
    | VStr(text: string)
    | VBytes(size: nat)
    | VInt(i: int)
    | VFloat(x: real)
    | VDec(coef: int, exp: int)
    | VBool(b: bool)
    | VDate(day: int)
    | VDateTime(second: int)
    | VTime(microsecond: nat)
    | VDict(d: map<string, string>)
    | VList(items: seq<Val>)
    | VRec(cells: map<string, Val>)

  // ---------------------------------------------------------------- decimals

  function Pow10(n: nat): (p: nat)
    ensures p > 0
  {
    if n == 0 then 1 else 10 * Pow10(n - 1)
  }

  function Abs(n: int): nat { if n < 0 then -n else n }

  /** The digits of a `Decimal`'s coefficient; zero has one. */
  function NumDigits(n: nat): (d: nat)
    ensures d >= 1
  {
    if n < 10 then 1 else 1 + NumDigits(n / 10)
  }

  /** Digits before stripping zeros, and how many of them are decimals. */
  datatype DigitInfo = DigitInfo(digits: nat, decimals: nat)

  function InfoOf(coef: int, exp: int): DigitInfo {
    var n := NumDigits(Abs(coef));
    if exp >= 0 then DigitInfo(n + exp, 0) else DigitInfo(if n > 0 - exp then n else 0 - exp, 0 - exp)
  }

  /** `Decimal.normalize`: trailing zeros moved into the exponent. */
  function NormalInfo(coef: int, exp: int): DigitInfo
    decreases Abs(coef)
  {
    if coef == 0 then InfoOf(0, 0)
    else if coef % 10 == 0 then NormalInfo(coef / 10, exp + 1)
    else InfoOf(coef, exp)
  }

  function Minus(a: nat, b: nat): nat { if a > b then a - b else 0 }

  /** The record model's `max_digits` and `decimal_places`: a limit is broken only when both the
      value and its normalized form break it. */
  predicate AcceptsDecimal(precision: Option<nat>, scale: Option<nat>, coef: int, exp: int) {
    var raw, norm := InfoOf(coef, exp), NormalInfo(coef, exp);
    && (precision.Some? ==> raw.digits <= precision.value || norm.digits <= precision.value)
    && (scale.Some? ==> raw.decimals <= scale.value || norm.decimals <= scale.value)
    && (precision.Some? && scale.Some? ==>
          var whole := Minus(precision.value, scale.value);
          Minus(raw.digits, raw.decimals) <= whole || Minus(norm.digits, norm.decimals) <= whole)
  }

  /** `x or default`: zero counts as absent. */
  function Or(x: Option<nat>, default: nat): nat { if x.Some? && x.value != 0 then x.value else default }

  /** Significant digits of Python's default decimal context. */
  const CONTEXT_DIGITS: nat := 28

  /** The strategy's bound `10 ** i - 10 ** -scale`, in units of `10 ** -scale`: `i + scale` nines,
      which the context rounds up to a power of ten when they are more than it holds. */
  function UpperCoef(precision: nat, scale: nat): nat {
    var nines := Minus(precision, scale) + scale;
    if nines <= CONTEXT_DIGITS then Pow10(nines) - 1 else Pow10(nines)
  }

  /** The exponent of a decimal with `s` places. */
  function Exponent(s: nat): int { var zero: int := 0; zero - s }

  predicate GeneratesDecimal(precision: Option<nat>, scale: Option<nat>, v: Val) {
    var p, s := Or(precision, 18), Or(scale, 2);
    v.VDec? && v.exp == Exponent(s) && Abs(v.coef) <= UpperCoef(p, s)
  }

  // ---------------------------------------------------------------- the generator

  predicate GeneratesScalar(f: FieldSchema, v: Val) {
    match f.bqType
    case STRING => v.VStr? && 1 <= |v.text| <= Or(f.maxLength, 50)
    case BYTES => v.VBytes? && v.size <= 32
    case INTEGER | INT64 => v.VInt? && -0x8000_0000 <= v.i < 0x8000_0000
    case FLOAT | FLOAT64 => v.VFloat? && -1000000000.0 <= v.x <= 1000000000.0
    case NUMERIC | BIGNUMERIC => GeneratesDecimal(f.precision, f.scale, v)
    case BOOLEAN | BOOL => v.VBool?
    case DATE => v.VDate? && 730120 <= v.day <= 766644
    case DATETIME | TIMESTAMP => v.VDateTime? && 730120 * 86400 <= v.second <= 766644 * 86400
    case TIME => v.VTime? && v.microsecond < 86400000000
    case JSON => v.VDict? && |v.d| <= 5 && forall k :: k in v.d ==> |k| <= 10 && |v.d[k]| <= 10
    case GEOGRAPHY => v == VStr("POINT(0 0)")
    case RECORD | STRUCT => false
  }

  predicate GeneratesBase(f: FieldSchema, v: Val)
    decreases f, 1
  {
    if f.IsStruct() then v.VRec? && GeneratesStruct(f.fields, v.cells) else GeneratesScalar(f, v)
  }

  predicate Generates(f: FieldSchema, v: Val)
    decreases f, 2
  {
    if f.IsRepeated() then v.VList? && |v.items| <= 4 && forall i :: 0 <= i < |v.items| ==> GeneratesBase(f, v.items[i])
    else if f.IsNullable() then v == VNull || GeneratesBase(f, v)
    else GeneratesBase(f, v)
  }

  /** Exactly the columns' names, each with a value of its column; the last column of a name counts. */
  predicate GeneratesStruct(cols: seq<FieldSchema>, cells: map<string, Val>)
    decreases cols, 4
  {
    && (forall name :: name in cells ==> HasColumn(cols, name))
    && GeneratesCells(cols, cells)
  }

  predicate GeneratesCells(cols: seq<FieldSchema>, cells: map<string, Val>)
    decreases cols, 3
  {
    cols == [] ||
    (var c := cols[0];
     && (HasColumn(cols[1..], c.name) || (c.name in cells && Generates(c, cells[c.name])))
     && GeneratesCells(cols[1..], cells))
  }

  // ---------------------------------------------------------------- the record model

  predicate AcceptsScalar(f: FieldSchema, v: Val) {
    match f.bqType
    case STRING => v.VStr? && (f.maxLength.Some? ==> |v.text| <= f.maxLength.value)
    case BYTES => v.VBytes?
    case INTEGER | INT64 => v.VInt?
    case FLOAT | FLOAT64 => v.VFloat?
    case NUMERIC | BIGNUMERIC => v.VDec? && AcceptsDecimal(f.precision, f.scale, v.coef, v.exp)
    case BOOLEAN | BOOL => v.VBool?
    case DATE => v.VDate?
    case DATETIME | TIMESTAMP => v.VDateTime?
    case TIME => v.VTime?
    case JSON => v.VDict?
    case GEOGRAPHY => v.VStr?
    case RECORD | STRUCT => false
  }

  predicate AcceptsBase(f: FieldSchema, v: Val)
    decreases f, 1
  {
    if f.IsStruct() then v.VRec? && AcceptsStruct(f.fields, v.cells) else AcceptsScalar(f, v)
  }

  predicate Accepts(f: FieldSchema, v: Val)
    decreases f, 2
  {
    if f.IsRepeated() then v.VList? && forall i :: 0 <= i < |v.items| ==> AcceptsBase(f, v.items[i])
    else if f.mode == REQUIRED then AcceptsBase(f, v)
    else v == VNull || AcceptsBase(f, v)
  }

  /** No extra fields; a missing one only where it has a default. */
  predicate AcceptsStruct(cols: seq<FieldSchema>, cells: map<string, Val>)
    decreases cols, 4
  {
    && (forall name :: name in cells ==> HasColumn(cols, name))
    && AcceptsCells(cols, cells)
  }

  predicate AcceptsCells(cols: seq<FieldSchema>, cells: map<string, Val>)
    decreases cols, 3
  {
    cols == [] ||
    (var c := cols[0];
     && (HasColumn(cols[1..], c.name) || (if c.name in cells then Accepts(c, cells[c.name]) else c.mode != REQUIRED))
     && AcceptsCells(cols[1..], cells))
  }

  function ColumnOf(cols: seq<FieldSchema>, name: string): FieldSchema
    requires HasColumn(cols, name)
  {
    if HasColumn(cols[1..], name) then ColumnOf(cols[1..], name)
    else cols[0]
  }

  /** The model attribute of a key column: the value given, or the default of its mode. */
  predicate KeyPresent(cols: seq<FieldSchema>, cells: map<string, Val>, pk: string)
    requires HasColumn(cols, pk)
  {
    if pk in cells then cells[pk] != VNull else ColumnOf(cols, pk).IsRepeated()
  }

  predicate AcceptsRecord(t: TableSchema, cells: map<string, Val>)
    requires TableOk(t)
  {
    && AcceptsStruct(t.columns, cells)
    && forall i :: 0 <= i < |t.primaryKeys| ==> KeyPresent(t.columns, cells, t.primaryKeys[i])
  }

  predicate GeneratesRecord(t: TableSchema, cells: map<string, Val>) { GeneratesStruct(t.columns, cells) }

  // ---------------------------------------------------------------- which schemas are sound

  predicate SoundDecimal(precision: Option<nat>, scale: Option<nat>) {
    && scale != Some(0)
    && (precision.Some? ==> precision.value >= Or(scale, 2) && (scale.Some? ==> precision.value <= CONTEXT_DIGITS))
  }

  predicate SoundScalar(f: FieldSchema) {
    match f.bqType
    case STRING => f.maxLength != Some(0)
    case NUMERIC | BIGNUMERIC => SoundDecimal(f.precision, f.scale)
    case _ => true
  }

  predicate Sound(f: FieldSchema)
    decreases f, 1
  {
    if f.IsStruct() then SoundCells(f.fields) else SoundScalar(f)
  }

  predicate SoundCells(cols: seq<FieldSchema>)
    decreases cols, 0
  {
    cols == [] || ((HasColumn(cols[1..], cols[0].name) || Sound(cols[0])) && SoundCells(cols[1..]))
  }

  /** A schema a maintainer can check: no `max_length` or `scale` of 0, a precision that covers the
      scale and, where both are declared, fits the decimal context; no NULLABLE key column. */
  predicate SoundTable(t: TableSchema)
    requires TableOk(t)
  {
    && SoundCells(t.columns)
    && forall i :: 0 <= i < |t.primaryKeys| ==> !ColumnOf(t.columns, t.primaryKeys[i]).IsNullable()
  }

  // ---------------------------------------------------------------- digit counts

  lemma {:induction false} NumDigitsBound(n: nat, k: nat)
    requires k >= 1 && n < Pow10(k)
    ensures NumDigits(n) <= k
  {
    if n >= 10 {
      assert k > 1;
      NumDigitsBound(n / 10, k - 1);
    }
  }

  lemma {:induction false} PowerInfo(k: nat, exp: int)
    ensures NumDigits(Pow10(k)) == k + 1
    ensures NormalInfo(Pow10(k), exp) == InfoOf(1, exp + k)
    ensures NormalInfo(0 - Pow10(k), exp) == InfoOf(1, exp + k)
  {
    if k > 0 {
      PowerInfo(k - 1, exp + 1);
      var n := 0 - Pow10(k);
      assert n / 10 == 0 - Pow10(k - 1) && n % 10 == 0;
    } else {
      assert Abs(-1) == 1;
    }
  }

  /** Every generated decimal is accepted when the column is sound. */
  lemma {:induction false} DecimalSound(precision: Option<nat>, scale: Option<nat>, v: Val)
    requires SoundDecimal(precision, scale) && GeneratesDecimal(precision, scale, v)
    ensures AcceptsDecimal(precision, scale, v.coef, v.exp)
  {
    var s := Or(scale, 2);
    if precision.Some? {
      var p := precision.value;
      if Abs(v.coef) < Pow10(p) {
        NumDigitsBound(Abs(v.coef), p);
      } else {
        assert v.coef == Pow10(p) || v.coef == 0 - Pow10(p);
        PowerInfo(p, Exponent(s));
        assert NormalInfo(v.coef, v.exp) == InfoOf(1, p - s);
      }
    }
  }

  /** A generated decimal the model refuses, for an unsound column: one hundredth against no places,
      the smallest number against too few digits, or the rounded bound against its whole digits. */
  function BadDecimal(precision: Option<nat>, scale: Option<nat>): Val {
    var s := Or(scale, 2);
    if scale == Some(0) || (precision.Some? && precision.value < s) then VDec(1, Exponent(s))
    else VDec(Pow10(if precision.Some? then precision.value else 0), Exponent(s))
  }

  lemma {:induction false} UpperCoefPositive(p: nat, s: nat)
    requires s >= 1
    ensures UpperCoef(p, s) >= 1
  {
    assert Pow10(Minus(p, s) + s) >= 10;
  }

  lemma {:induction false} DecimalUnsound(precision: Option<nat>, scale: Option<nat>)
    requires !SoundDecimal(precision, scale)
    ensures var v := BadDecimal(precision, scale);
            GeneratesDecimal(precision, scale, v) && !AcceptsDecimal(precision, scale, v.coef, v.exp)
  {
    var p, s := Or(precision, 18), Or(scale, 2);
    UpperCoefPositive(p, s);
    if scale == Some(0) || (precision.Some? && precision.value < s) {
      assert InfoOf(1, Exponent(s)) == NormalInfo(1, Exponent(s)) == DigitInfo(s, s);
    } else {
      PowerInfo(p, Exponent(s));
    }
  }

  // ---------------------------------------------------------------- sound schemas

  lemma {:induction false} SoundBase(f: FieldSchema, v: Val)
    requires Sound(f) && GeneratesBase(f, v)
    ensures AcceptsBase(f, v)
    decreases f, 1
  {
    if f.IsStruct() {
      SoundStruct(f.fields, v.cells);
    } else if f.IsDecimal() {
      DecimalSound(f.precision, f.scale, v);
    }
  }

  lemma {:induction false} SoundField(f: FieldSchema, v: Val)
    requires Sound(f) && Generates(f, v)
    ensures Accepts(f, v)
    decreases f, 2
  {
    if f.IsRepeated() {
      forall i | 0 <= i < |v.items|
        ensures AcceptsBase(f, v.items[i])
      {
        SoundBase(f, v.items[i]);
      }
    } else if !(f.IsNullable() && v == VNull) {
      SoundBase(f, v);
    }
  }

  lemma {:induction false} SoundStruct(cols: seq<FieldSchema>, cells: map<string, Val>)
    requires SoundCells(cols) && GeneratesCells(cols, cells)
    ensures AcceptsCells(cols, cells)
    decreases cols, 3
  {
    if cols != [] {
      if !HasColumn(cols[1..], cols[0].name) {
        SoundField(cols[0], cells[cols[0].name]);
      }
      SoundStruct(cols[1..], cells);
    }
  }

  lemma {:induction false} KeyColumnGenerated(cols: seq<FieldSchema>, cells: map<string, Val>, name: string)
    requires GeneratesCells(cols, cells) && HasColumn(cols, name)
    ensures name in cells && Generates(ColumnOf(cols, name), cells[name])
  {
    if HasColumn(cols[1..], name) {
      KeyColumnGenerated(cols[1..], cells, name);
    } else {
      var i :| 0 <= i < |cols| && cols[i].name == name;
      if i > 0 {
        LaterColumn(cols, name, i);
      }
    }
  }

  lemma {:induction false} LaterColumn(cols: seq<FieldSchema>, name: string, i: nat)
    requires 0 < i < |cols| && cols[i].name == name
    ensures HasColumn(cols[1..], name)
  {
    assert cols[1..][i - 1].name == name;
  }

  // ---------------------------------------------------------------- unsound schemas

  function SampleScalar(f: FieldSchema): Val {
    match f.bqType
    case STRING => VStr("a")
    case BYTES => VBytes(0)
    case INTEGER | INT64 => VInt(0)
    case FLOAT | FLOAT64 => VFloat(0.0)
    case NUMERIC | BIGNUMERIC => VDec(0, Exponent(Or(f.scale, 2)))
    case BOOLEAN | BOOL => VBool(true)
    case DATE => VDate(730120)
    case DATETIME | TIMESTAMP => VDateTime(730120 * 86400)
    case TIME => VTime(0)
    case JSON => VDict(map[])
    case GEOGRAPHY => VStr("POINT(0 0)")
    case RECORD | STRUCT => VNull
  }

  function SampleBase(f: FieldSchema): Val
    decreases f, 1
  {
    if f.IsStruct() then VRec(SampleCells(f.fields)) else SampleScalar(f)
  }

  function Sample(f: FieldSchema): Val
    decreases f, 2
  {
    if f.IsRepeated() then VList([]) else if f.IsNullable() then VNull else SampleBase(f)
  }

  function SampleCells(cols: seq<FieldSchema>): map<string, Val>
    decreases cols, 0
  {
    if cols == [] then map[]
    else
      var rest := SampleCells(cols[1..]);
      if HasColumn(cols[1..], cols[0].name) then rest else rest[cols[0].name := Sample(cols[0])]
  }

  /** A value the strategy can produce and the model refuses, for an unsound column. */
  function BadBase(f: FieldSchema): Val
    decreases f, 1
  {
    if f.IsStruct() then VRec(BadCells(f.fields))
    else if f.bqType == STRING then VStr("a")
    else BadDecimal(f.precision, f.scale)
  }

  function Bad(f: FieldSchema): Val
    decreases f, 2
  {
    if f.IsRepeated() then VList([BadBase(f)]) else BadBase(f)
  }

  function BadCells(cols: seq<FieldSchema>): map<string, Val>
    decreases cols, 0
  {
    if cols == [] then map[]
    else if HasColumn(cols[1..], cols[0].name) then BadCells(cols[1..])
    else if Sound(cols[0]) then BadCells(cols[1..])[cols[0].name := Sample(cols[0])]
    else SampleCells(cols[1..])[cols[0].name := Bad(cols[0])]
  }

  lemma {:induction false} HasColumnTail(cols: seq<FieldSchema>, name: string)
    requires cols != []
    ensures HasColumn(cols, name) <==> cols[0].name == name || HasColumn(cols[1..], name)
  {
    if HasColumn(cols, name) {
      var i :| 0 <= i < |cols| && cols[i].name == name;
      assert i > 0 ==> cols[1..][i - 1].name == name;
    }
    if HasColumn(cols[1..], name) {
      var i :| 0 <= i < |cols[1..]| && cols[1..][i].name == name;
      assert cols[i + 1].name == name;
    }
  }

  /** Cells of other columns do not matter. */
  lemma {:induction false} CellsFrame(cols: seq<FieldSchema>, cells: map<string, Val>, name: string, v: Val)
    requires !HasColumn(cols, name)
    ensures GeneratesCells(cols, cells[name := v]) == GeneratesCells(cols, cells)
    ensures AcceptsCells(cols, cells[name := v]) == AcceptsCells(cols, cells)
  {
    if cols != [] {
      HasColumnTail(cols, name);
      CellsFrame(cols[1..], cells, name, v);
    }
  }

  predicate OnlyColumns(cols: seq<FieldSchema>, cells: map<string, Val>) {
    forall name :: name in cells ==> HasColumn(cols, name)
  }

  lemma {:induction false} OnlyColumnsStep(cols: seq<FieldSchema>, cells: map<string, Val>, v: Val)
    requires cols != [] && OnlyColumns(cols[1..], cells)
    ensures OnlyColumns(cols, cells) && OnlyColumns(cols, cells[cols[0].name := v])
  {
    forall name | name in cells[cols[0].name := v]
      ensures HasColumn(cols, name)
    {
      HasColumnTail(cols, name);
    }
    forall name | name in cells
      ensures HasColumn(cols, name)
    {
      HasColumnTail(cols, name);
    }
  }

  lemma {:induction false} SampleBaseGenerated(f: FieldSchema)
    ensures GeneratesBase(f, SampleBase(f))
    decreases f, 1
  {
    if f.IsStruct() {
      SampleCellsGenerated(f.fields);
    } else if f.IsDecimal() {
      UpperCoefPositive(Or(f.precision, 18), Or(f.scale, 2));
    }
  }

  lemma {:induction false} SampleGenerated(f: FieldSchema)
    ensures Generates(f, Sample(f))
    decreases f, 2
  {
    SampleBaseGenerated(f);
  }

  lemma {:induction false} SampleCellsGenerated(cols: seq<FieldSchema>)
    ensures GeneratesCells(cols, SampleCells(cols)) && OnlyColumns(cols, SampleCells(cols))
    decreases cols, 0
  {
    if cols != [] {
      var rest := SampleCells(cols[1..]);
      SampleCellsGenerated(cols[1..]);
      SampleGenerated(cols[0]);
      OnlyColumnsStep(cols, rest, Sample(cols[0]));
      if !HasColumn(cols[1..], cols[0].name) {
        CellsFrame(cols[1..], rest, cols[0].name, Sample(cols[0]));
      }
    }
  }

  lemma {:induction false} BadBaseRefused(f: FieldSchema)
    requires !Sound(f)
    ensures GeneratesBase(f, BadBase(f)) && !AcceptsBase(f, BadBase(f)) && BadBase(f) != VNull
    decreases f, 1
  {
    if f.IsStruct() {
      BadCellsRefused(f.fields);
    } else if f.IsDecimal() {
      DecimalUnsound(f.precision, f.scale);
    }
  }

  lemma {:induction false} BadRefused(f: FieldSchema)
    requires !Sound(f)
    ensures Generates(f, Bad(f)) && !Accepts(f, Bad(f))
    decreases f, 2
  {
    BadBaseRefused(f);
    if f.IsRepeated() {
      assert Bad(f).items[0] == BadBase(f);
    }
  }

  lemma {:induction false} BadCellsRefused(cols: seq<FieldSchema>)
    requires !SoundCells(cols)
    ensures GeneratesCells(cols, BadCells(cols)) && OnlyColumns(cols, BadCells(cols)) && !AcceptsCells(cols, BadCells(cols))
    decreases cols, 0
  {
    var c, tail := cols[0], cols[1..];
    if HasColumn(tail, c.name) {
      BadCellsRefused(tail);
      OnlyColumnsStep(cols, BadCells(tail), VNull);
    } else if Sound(c) {
      BadCellsRefused(tail);
      SampleGenerated(c);
      OnlyColumnsStep(cols, BadCells(tail), Sample(c));
      CellsFrame(tail, BadCells(tail), c.name, Sample(c));
    } else {
      SampleCellsGenerated(tail);
      BadRefused(c);
      OnlyColumnsStep(cols, SampleCells(tail), Bad(c));
      CellsFrame(tail, SampleCells(tail), c.name, Bad(c));
    }
  }

  /** A sample record leaves a NULLABLE key column null. */
  lemma {:induction false} SampleKeyNull(cols: seq<FieldSchema>, name: string)
    requires HasColumn(cols, name) && ColumnOf(cols, name).IsNullable()
    ensures name in SampleCells(cols) && SampleCells(cols)[name] == VNull
  {
    if HasColumn(cols[1..], name) {
      SampleKeyNull(cols[1..], name);
    } else {
      HasColumnTail(cols, name);
    }
  }

  // ---------------------------------------------------------------- main result

  /** In a sound schema every record the strategy can produce is accepted. */
  lemma {:induction false} GeneratedIsAccepted(t: TableSchema, cells: map<string, Val>)
    requires TableOk(t) && SoundTable(t) && GeneratesRecord(t, cells)
    ensures AcceptsRecord(t, cells)
  {
    SoundStruct(t.columns, cells);
    forall i | 0 <= i < |t.primaryKeys|
      ensures KeyPresent(t.columns, cells, t.primaryKeys[i])
    {
      KeyColumnGenerated(t.columns, cells, t.primaryKeys[i]);
      var f := ColumnOf(t.columns, t.primaryKeys[i]);
      NullOnlyWhereNullable(f, cells[t.primaryKeys[i]]);
    }
  }

  lemma {:induction false} NullOnlyWhereNullable(f: FieldSchema, v: Val)
    requires Generates(f, v) && !f.IsNullable()
    ensures v != VNull
  {
  }

  /** In any other schema some record the strategy can produce is refused. */
  lemma {:induction false} GeneratedIsRefused(t: TableSchema) returns (cells: map<string, Val>)
    requires TableOk(t) && !SoundTable(t)
    ensures GeneratesRecord(t, cells) && !AcceptsRecord(t, cells)
  {
    if !SoundCells(t.columns) {
      BadCellsRefused(t.columns);
      cells := BadCells(t.columns);
    } else {
      var i :| 0 <= i < |t.primaryKeys| && ColumnOf(t.columns, t.primaryKeys[i]).IsNullable();
      SampleCellsGenerated(t.columns);
      SampleKeyNull(t.columns, t.primaryKeys[i]);
      cells := SampleCells(t.columns);
      assert !KeyPresent(t.columns, cells, t.primaryKeys[i]);
    }
  }

  /** Generator implies validator, exactly for the sound schemas. */
  lemma {:induction false} SoundExactly(t: TableSchema)
    requires TableOk(t)
    ensures SoundTable(t) <==> forall cells :: GeneratesRecord(t, cells) ==> AcceptsRecord(t, cells)
  {
    if SoundTable(t) {
      forall cells | GeneratesRecord(t, cells)
        ensures AcceptsRecord(t, cells)
      {
        GeneratedIsAccepted(t, cells);
      }
    } else {
      var cells := GeneratedIsRefused(t);
    }
  }
}
