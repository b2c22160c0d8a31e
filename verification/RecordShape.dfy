/** What an accepted record looks like at every place inside it, without the recursion of the model. */
module RecordShape {
  import opened Options
  import opened Schema
  import opened SchemaRecord
  import opened DecimalLimits

  // ---------------------------------------------------------------- places in a record

  /** Columns and cells of one struct. */
  datatype Struct = Struct(cols: seq<FieldSchema>, cells: map<string, Val>)

  /** The last column of its name decides. */
  predicate Decides(cols: seq<FieldSchema>, k: nat) {
    k < |cols| && forall j :: k < j < |cols| ==> cols[j].name != cols[k].name
  }

  /** The struct one step further in, through column `k`. */
  function Enter(s: Struct, k: nat, index: nat): Option<Struct> {
    if !Decides(s.cols, k) || s.cols[k].name !in s.cells || !s.cols[k].IsStruct() then None
    else
      var f, v := s.cols[k], s.cells[s.cols[k].name];
      if f.IsRepeated() then
        if v.VList? && index < |v.items| && v.items[index].VRec? then Some(Struct(f.fields, v.items[index].cells)) else None
      else if v.VRec? then Some(Struct(f.fields, v.cells))
      else None
  }

  /** A way into a record: a column and, where it is repeated, an item, at each level. */
  datatype Turn = Turn(column: nat, index: nat)

  function Inside(s: Struct, way: seq<Turn>): Option<Struct>
    decreases |way|
  {
    if way == [] then Some(s)
    else
      match Enter(s, way[0].column, way[0].index)
      case None => None
      case Some(inner) => Inside(inner, way[1..])
  }

  // ---------------------------------------------------------------- one struct

  /** Is `v` a value of the column's type, within its declared limits? A struct's cells are not
      looked into. Null is of no type. */
  ghost predicate OfType(f: FieldSchema, v: Val) {
    match v
    case VRec(_) => f.IsStruct()
    case VStr(t) => f.bqType == GEOGRAPHY || (f.bqType == STRING && (f.maxLength.Some? ==> |t| <= f.maxLength.value))
    case VBytes(_) => f.bqType == BYTES
    case VInt(_) => f.IsInteger()
    case VFloat(_) => f.bqType == FLOAT || f.bqType == FLOAT64
    case VDec(coef, exp) =>
      && f.IsDecimal()
      && (f.precision.Some? ==> FitsPrecision(f.precision.value, coef, exp))
      && (f.scale.Some? ==> FitsScale(f.scale.value, coef, exp))
      && (f.precision.Some? && f.scale.Some? ==> FitsWhole(Minus(f.precision.value, f.scale.value), coef, exp))
    case VBool(_) => f.bqType == BOOL || f.bqType == BOOLEAN
    case VDate(_) => f.bqType == DATE
    case VDateTime(_) => f.bqType == DATETIME || f.bqType == TIMESTAMP
    case VTime(_) => f.bqType == TIME
    case VDict(_) => f.bqType == JSON
    case VList(_) => false
    case VNull => false
  }

  /** A cell as its column's mode wants it. */
  ghost predicate OfMode(f: FieldSchema, v: Val) {
    match f.mode
    case REQUIRED => OfType(f, v)
    case NULLABLE => v == VNull || OfType(f, v)
    case REPEATED => v.VList? && forall i :: 0 <= i < |v.items| ==> OfType(f, v.items[i])
  }

  /** No cell outside the columns; a REQUIRED column is there; every cell is as its column wants it. */
  ghost predicate WellFormed(s: Struct) {
    && (forall name :: name in s.cells ==> exists k :: 0 <= k < |s.cols| && s.cols[k].name == name)
    && (forall k: nat :: Decides(s.cols, k) && s.cols[k].mode == REQUIRED ==> s.cols[k].name in s.cells)
    && (forall k: nat :: Decides(s.cols, k) && s.cols[k].name in s.cells ==> OfMode(s.cols[k], s.cells[s.cols[k].name]))
  }

  /** Well-formed at every place inside. */
  ghost predicate WellFormedInside(s: Struct) {
    forall way :: Inside(s, way).Some? ==> WellFormed(Inside(s, way).value)
  }

  // ---------------------------------------------------------------- columns one by one

  /** What the model asks of the column at `k`. */
  predicate CellAccepted(s: Struct, k: nat)
    requires k < |s.cols|
  {
    if s.cols[k].name in s.cells then Accepts(s.cols[k], s.cells[s.cols[k].name]) else s.cols[k].mode != REQUIRED
  }

  lemma {:induction false} HasColumnAt(cols: seq<FieldSchema>, name: string)
    ensures HasColumn(cols, name) <==> exists k :: 0 <= k < |cols| && cols[k].name == name
  {
  }

  lemma {:induction false} DecidesTail(cols: seq<FieldSchema>, k: nat)
    requires cols != []
    ensures Decides(cols, k + 1) <==> Decides(cols[1..], k)
    ensures Decides(cols, 0) <==> !HasColumn(cols[1..], cols[0].name)
  {
    var tail := cols[1..];
    assert forall j :: 0 <= j < |tail| ==> tail[j] == cols[j + 1];
    assert forall j :: 0 < j < |cols| ==> cols[j] == tail[j - 1];
  }

  /** The model's recursion over the columns asks this of every column that decides. */
  lemma {:induction false} CellsAccepted(s: Struct)
    ensures AcceptsCells(s.cols, s.cells) <==> forall k: nat :: Decides(s.cols, k) ==> CellAccepted(s, k)
    decreases |s.cols|
  {
    if s.cols != [] {
      var tail := Struct(s.cols[1..], s.cells);
      CellsAccepted(tail);
      DecidesTail(s.cols, 0);
      forall k: nat
        ensures Decides(s.cols, k + 1) <==> Decides(tail.cols, k)
        ensures Decides(tail.cols, k) ==> (CellAccepted(s, k + 1) <==> CellAccepted(tail, k))
      {
        DecidesTail(s.cols, k);
      }
      assert forall k: nat :: Decides(s.cols, k) ==> k == 0 || Decides(tail.cols, k - 1);
      assert forall k: nat :: Decides(tail.cols, k) ==> Decides(s.cols, k + 1);
    }
  }

  // ---------------------------------------------------------------- one level

  lemma {:induction false} ScalarMeans(f: FieldSchema, v: Val)
    requires !f.IsStruct()
    ensures AcceptsScalar(f, v) <==> OfType(f, v)
  {
    if v.VDec? {
      DecimalMeans(f.precision, f.scale, v.coef, v.exp);
    }
  }

  lemma {:induction false} BaseMeans(f: FieldSchema, v: Val)
    ensures AcceptsBase(f, v) <==> OfType(f, v) && (v.VRec? ==> AcceptsStruct(f.fields, v.cells))
  {
    if !f.IsStruct() {
      ScalarMeans(f, v);
    }
  }

  /** Are the structs one step further in, through column `k`, accepted? */
  ghost predicate InnerAccepted(s: Struct, k: nat) {
    forall index: nat :: Enter(s, k, index).Some? ==>
      AcceptsStruct(Enter(s, k, index).value.cols, Enter(s, k, index).value.cells)
  }

  lemma {:induction false} SingleMeans(s: Struct, k: nat)
    requires Decides(s.cols, k) && s.cols[k].name in s.cells && !s.cols[k].IsRepeated()
    ensures CellAccepted(s, k) <==> OfMode(s.cols[k], s.cells[s.cols[k].name]) && InnerAccepted(s, k)
  {
    var f, v := s.cols[k], s.cells[s.cols[k].name];
    BaseMeans(f, v);
    assert Enter(s, k, 0) == if f.IsStruct() && v.VRec? then Some(Struct(f.fields, v.cells)) else None;
  }

  lemma {:induction false} RepeatedMeans(s: Struct, k: nat)
    requires Decides(s.cols, k) && s.cols[k].name in s.cells && s.cols[k].IsRepeated()
    ensures CellAccepted(s, k) <==> OfMode(s.cols[k], s.cells[s.cols[k].name]) && InnerAccepted(s, k)
  {
    var f, v := s.cols[k], s.cells[s.cols[k].name];
    if v.VList? {
      forall i | 0 <= i < |v.items|
        ensures AcceptsBase(f, v.items[i]) <==>
                  OfType(f, v.items[i]) && (v.items[i].VRec? ==> AcceptsStruct(f.fields, v.items[i].cells))
        ensures Enter(s, k, i) ==
                  if f.IsStruct() && v.items[i].VRec? then Some(Struct(f.fields, v.items[i].cells)) else None
      {
        BaseMeans(f, v.items[i]);
      }
      forall index: nat | Enter(s, k, index).Some?
        ensures index < |v.items|
      {
      }
    }
  }

  lemma {:induction false} CellMeans(s: Struct, k: nat)
    requires Decides(s.cols, k)
    ensures CellAccepted(s, k) <==>
              && (s.cols[k].mode == REQUIRED ==> s.cols[k].name in s.cells)
              && (s.cols[k].name in s.cells ==> OfMode(s.cols[k], s.cells[s.cols[k].name]))
              && InnerAccepted(s, k)
  {
    if s.cols[k].name in s.cells {
      if s.cols[k].IsRepeated() {
        RepeatedMeans(s, k);
      } else {
        SingleMeans(s, k);
      }
    }
  }

  /** A struct is accepted exactly when it is well-formed and the structs in it are accepted. */
  lemma {:induction false} StructMeans(s: Struct)
    ensures AcceptsStruct(s.cols, s.cells) <==> WellFormed(s) && forall k: nat :: Decides(s.cols, k) ==> InnerAccepted(s, k)
  {
    CellsAccepted(s);
    forall name
      ensures HasColumn(s.cols, name) <==> exists k :: 0 <= k < |s.cols| && s.cols[k].name == name
    {
      HasColumnAt(s.cols, name);
    }
    forall k: nat | Decides(s.cols, k)
      ensures CellAccepted(s, k) <==>
                && (s.cols[k].mode == REQUIRED ==> s.cols[k].name in s.cells)
                && (s.cols[k].name in s.cells ==> OfMode(s.cols[k], s.cells[s.cols[k].name]))
                && InnerAccepted(s, k)
    {
      CellMeans(s, k);
    }
  }

  // ---------------------------------------------------------------- every level

  lemma {:induction false} AcceptedInside(s: Struct, way: seq<Turn>)
    requires AcceptsStruct(s.cols, s.cells) && Inside(s, way).Some?
    ensures WellFormed(Inside(s, way).value)
    decreases |way|
  {
    StructMeans(s);
    if way != [] {
      var inner := Enter(s, way[0].column, way[0].index).value;
      assert InnerAccepted(s, way[0].column);
      AcceptedInside(inner, way[1..]);
    }
  }

  lemma {:induction false} InsideFurther(s: Struct, k: nat, index: nat)
    requires WellFormedInside(s) && Enter(s, k, index).Some?
    ensures WellFormedInside(Enter(s, k, index).value)
  {
    var inner := Enter(s, k, index).value;
    forall way | Inside(inner, way).Some?
      ensures WellFormed(Inside(inner, way).value)
    {
      var longer := [Turn(k, index)] + way;
      assert longer[1..] == way;
      assert Inside(s, longer) == Inside(inner, way);
    }
  }

  lemma {:induction false} InsideAccepted(s: Struct)
    requires WellFormedInside(s)
    ensures AcceptsStruct(s.cols, s.cells)
    decreases s.cols
  {
    assert Inside(s, []) == Some(s);
    forall k: nat | Decides(s.cols, k)
      ensures InnerAccepted(s, k)
    {
      forall index: nat | Enter(s, k, index).Some?
        ensures AcceptsStruct(Enter(s, k, index).value.cols, Enter(s, k, index).value.cells)
      {
        InsideFurther(s, k, index);
        assert Enter(s, k, index).value.cols == s.cols[k].fields;
        InsideAccepted(Enter(s, k, index).value);
      }
    }
    StructMeans(s);
  }

  // ---------------------------------------------------------------- main result

  /** A key cell that is given is not null; one that is not given belongs to a REPEATED column. */
  ghost predicate KeysGiven(t: TableSchema, cells: map<string, Val>) {
    forall i, k: nat :: 0 <= i < |t.primaryKeys| && Decides(t.columns, k) && t.columns[k].name == t.primaryKeys[i] ==>
      if t.primaryKeys[i] in cells then cells[t.primaryKeys[i]] != VNull else t.columns[k].mode == REPEATED
  }

  lemma {:induction false} ColumnDecides(cols: seq<FieldSchema>, name: string) returns (k: nat)
    requires HasColumn(cols, name)
    ensures Decides(cols, k) && cols[k].name == name && ColumnOf(cols, name) == cols[k]
  {
    if HasColumn(cols[1..], name) {
      k := ColumnDecides(cols[1..], name);
      DecidesTail(cols, k);
      k := k + 1;
    } else {
      k := 0;
      DecidesTail(cols, 0);
      HasColumnTail(cols, name);
    }
  }

  lemma {:induction false} OneDecides(cols: seq<FieldSchema>, j: nat, k: nat)
    requires Decides(cols, j) && Decides(cols, k) && cols[j].name == cols[k].name
    ensures j == k
  {
  }

  lemma {:induction false} KeysMean(t: TableSchema, cells: map<string, Val>)
    requires TableOk(t)
    ensures KeysGiven(t, cells) <==> forall i :: 0 <= i < |t.primaryKeys| ==> KeyPresent(t.columns, cells, t.primaryKeys[i])
  {
    forall i | 0 <= i < |t.primaryKeys|
      ensures KeyPresent(t.columns, cells, t.primaryKeys[i]) <==>
                forall k: nat :: Decides(t.columns, k) && t.columns[k].name == t.primaryKeys[i] ==>
                  if t.primaryKeys[i] in cells then cells[t.primaryKeys[i]] != VNull else t.columns[k].mode == REPEATED
    {
      var j := ColumnDecides(t.columns, t.primaryKeys[i]);
      forall k: nat | Decides(t.columns, k) && t.columns[k].name == t.primaryKeys[i]
        ensures k == j
      {
        OneDecides(t.columns, j, k);
      }
    }
  }

  /** The record model accepts exactly the records that are well-formed at every place inside them,
      at every depth, and give their keys. */
  lemma {:induction false} AcceptedMeans(t: TableSchema, cells: map<string, Val>)
    requires TableOk(t)
    ensures AcceptsRecord(t, cells) <==> WellFormedInside(Struct(t.columns, cells)) && KeysGiven(t, cells)
  {
    var s := Struct(t.columns, cells);
    KeysMean(t, cells);
    if AcceptsStruct(t.columns, cells) {
      forall way | Inside(s, way).Some?
        ensures WellFormed(Inside(s, way).value)
      {
        AcceptedInside(s, way);
      }
    }
    if WellFormedInside(s) {
      InsideAccepted(s);
    }
  }
}
