/** `B2LibraryEngine`: profile once, then assemble rows from whatever columns the backend and the
    free-text hook hand over, enforce fidelity cell by cell, and keep the rows the record model
    accepts. */
module B2Engine {
  import opened Options
  import opened Schema
  import opened Fidelity
  import opened Collections

  type Profiles = map<string, Profile>

  type Columns = map<string, seq<Value>>

  datatype Batch = Rows(rows: seq<Row>) | NotReady

  // ---------------------------------------------------------------- profiles of a table

  /** `profile_table`: one profile per column name (the last column of a name decides), or nothing
      when some column cannot be profiled. */
  function ProfileTable(cols: seq<FieldSchema>, reference: seq<Row>, host: Host): Option<Profiles> {
    if cols == [] then Some(map[])
    else
      var n := |cols| - 1;
      match ProfileTable(cols[..n], reference, host)
      case None => None
      case Some(ps) =>
        match ProfileColumn(cols[n], reference, host)
        case Rejected => None
        case Built(p) => Some(ps[cols[n].name := p])
  }

  predicate IsLast(cols: seq<FieldSchema>, k: nat) {
    k < |cols| && forall j :: k < j < |cols| ==> cols[j].name != cols[k].name
  }

  lemma {:induction false} LastOfPrefix(cols: seq<FieldSchema>, k: nat)
    requires k < |cols| - 1
    ensures var n := |cols| - 1; cols[..n][k] == cols[k]
    ensures var n := |cols| - 1; IsLast(cols, k) ==> IsLast(cols[..n], k) && cols[n].name != cols[k].name
  {
  }

  lemma {:induction false} ProfileTableStep(cols: seq<FieldSchema>, reference: seq<Row>, host: Host)
    requires cols != [] && ProfileTable(cols, reference, host).Some?
    ensures var n := |cols| - 1;
            var last := ProfileColumn(cols[n], reference, host);
            && last.Built? && ProfileTable(cols[..n], reference, host).Some?
            && ProfileTable(cols, reference, host).value
               == ProfileTable(cols[..n], reference, host).value[cols[n].name := last.profile]
  {
  }

  lemma {:induction false} ProfileTableLast(cols: seq<FieldSchema>, reference: seq<Row>, host: Host)
    requires cols != [] && ProfileTable(cols, reference, host).Some?
    ensures ProfiledAs(cols, reference, host, ProfileTable(cols, reference, host).value, |cols| - 1)
  {
    ProfileTableStep(cols, reference, host);
  }

  /** Does the table hold the profile of column `k`, unless a later column of that name replaced it? */
  predicate ProfiledAs(cols: seq<FieldSchema>, reference: seq<Row>, host: Host, ps: Profiles, k: nat)
    requires k < |cols|
  {
    var built := ProfileColumn(cols[k], reference, host);
    built.Built? && (IsLast(cols, k) ==> cols[k].name in ps && ps[cols[k].name] == built.profile)
  }

  lemma {:induction false} ProfiledOnward(cols: seq<FieldSchema>, reference: seq<Row>, host: Host, before: Profiles, p: Profile, k: nat)
    requires k < |cols| - 1 && ProfiledAs(cols[..|cols| - 1], reference, host, before, k)
    ensures ProfiledAs(cols, reference, host, before[cols[|cols| - 1].name := p], k)
  {
    LastOfPrefix(cols, k);
  }

  lemma {:induction false} ProfileTableColumn(cols: seq<FieldSchema>, reference: seq<Row>, host: Host, k: nat)
    requires ProfileTable(cols, reference, host).Some? && k < |cols|
    ensures ProfiledAs(cols, reference, host, ProfileTable(cols, reference, host).value, k)
  {
    var n := |cols| - 1;
    if k == n {
      ProfileTableLast(cols, reference, host);
    } else {
      ProfileTableStep(cols, reference, host);
      ProfileTableColumn(cols[..n], reference, host, k);
      ProfiledOnward(cols, reference, host, ProfileTable(cols[..n], reference, host).value,
                     ProfileColumn(cols[n], reference, host).profile, k);
    }
  }

  // ---------------------------------------------------------------- assembling

  /** What the fidelity layer makes of a raw value: columns without a profile are left alone. */
  function Enforced(profiles: Profiles, name: string, raw: Value, host: Host): Value {
    if name in profiles then EnforceValue(profiles[name], raw, host) else raw
  }

  predicate Full(columns: Columns, n: int) { forall name :: name in columns ==> |columns[name]| == n }

  /** The row at `i`, over the columns in schema order. */
  ghost predicate IsRowAt(profiles: Profiles, columns: Columns, host: Host, cols: seq<FieldSchema>, i: nat, row: Row)
    requires forall name :: name in columns ==> i < |columns[name]|
  {
    && (forall name :: name in row <==> HasColumn(cols, name))
    && (forall name :: name in row ==>
          row[name] == Enforced(profiles, name, if name in columns then columns[name][i] else Null, host))
  }

  class B2LibraryEngine {
    var fitted: bool
    var columns: seq<FieldSchema>
    var reference: seq<Row>
    var profiles: Profiles

    constructor ()
      ensures !fitted
    {
      fitted := false;
      columns, reference, profiles := [], [], map[];
    }

    /** What a fitted engine holds. */
    ghost predicate Ready(host: Host)
      reads this
    {
      fitted && ProfileTable(columns, reference, host) == Some(profiles)
    }

    method Setup(cols: seq<FieldSchema>, rows: seq<Row>, host: Host) returns (ok: bool)
      modifies this
      ensures old(fitted) ==> ok && fitted && columns == old(columns) && reference == old(reference) && profiles == old(profiles)
      ensures !old(fitted) ==> (ok <==> ProfileTable(cols, rows, host).Some?) && fitted == ok
      ensures !old(fitted) && ok ==> Ready(host) && columns == cols && reference == rows
    {
      if fitted {
        return true;
      }
      columns := cols;
      reference := rows;
      var built: Profiles := map[];
      var k := 0;
      while k < |cols|
        invariant 0 <= k <= |cols| && !fitted && columns == cols && reference == rows
        invariant ProfileTable(cols[..k], rows, host) == Some(built)
      {
        var r := ProfileColumn(cols[k], rows, host);
        assert cols[..k + 1][..k] == cols[..k];
        if r.Rejected? {
          FailsOnward(cols, k + 1, rows, host);
          return false;
        }
        built := built[cols[k].name := r.profile];
        k := k + 1;
      }
      assert cols[..k] == cols;
      profiles := built;
      fitted := true;
      return true;
    }

    method Teardown()
      modifies this
      ensures !fitted && columns == [] && reference == [] && profiles == map[]
    {
      columns, reference, profiles := [], [], map[];
      fitted := false;
    }

    method AssembleRow(cells: Columns, i: nat, host: Host) returns (row: Row)
      requires forall name :: name in cells ==> i < |cells[name]|
      ensures IsRowAt(profiles, cells, host, columns, i, row)
      ensures forall name :: name in row <==> exists k :: 0 <= k < |columns| && columns[k].name == name
      ensures forall name :: name in row && name in profiles && name in cells ==>
                row[name] == EnforceValue(profiles[name], cells[name][i], host)
      ensures forall name :: name in row && name in profiles && name !in cells ==>
                row[name] == EnforceValue(profiles[name], Null, host)
      ensures forall name :: name in row && name !in profiles ==> row[name] == if name in cells then cells[name][i] else Null
    {
      row := map[];
      for k := 0 to |columns|
        invariant IsRowAt(profiles, cells, host, columns[..k], i, row)
      {
        var name := columns[k].name;
        var raw := if name in cells then cells[name][i] else Null;
        row := row[name := if name in profiles then EnforceValue(profiles[name], raw, host) else raw];
        HasColumnStep(columns, k);
      }
      assert columns[..|columns|] == columns;
    }

    /** The loop over the rows of a batch; `all` is every row assembled. */
    method AssembleRows(n: nat, cells: Columns, accepts: Row -> bool, host: Host) returns (out: seq<Row>, ghost all: seq<Row>)
      requires Full(cells, n)
      ensures |all| == n && out == Accepted(all, accepts)
      ensures forall i :: 0 <= i < n ==> IsRowAt(profiles, cells, host, columns, i, all[i])
    {
      all := [];
      out := [];
      for i := 0 to n
        invariant |all| == i && out == Accepted(all, accepts)
        invariant forall j :: 0 <= j < i ==> IsRowAt(profiles, cells, host, columns, j, all[j])
      {
        var row := AssembleRow(cells, i, host);
        AcceptedStep(all, row, accepts);
        all := all + [row];
        if accepts(row) {
          out := out + [row];
        }
      }
    }

    /** `sampled` is what the backend returned, `texts` what the free-text hook drew for each
        free-text column, `accepts` the record model. */
    method GenerateBatch(n: int, sampled: Columns, texts: Columns, accepts: Row -> bool, host: Host) returns (batch: Batch)
      requires n > 0 ==> Full(sampled, n) && Full(texts, n)
      ensures batch == NotReady <==> !fitted
      ensures fitted && (reference == [] || n <= 0) ==> batch == Rows([])
      ensures batch.Rows? ==> |batch.rows| <= (if n < 0 then 0 else n) && forall r :: r in batch.rows ==> accepts(r)
      ensures batch.Rows? && reference != [] && n > 0 ==>
                exists all: seq<Row> :: |all| == n && batch.rows == Accepted(all, accepts)
                  && (forall i :: 0 <= i < n ==> IsRowAt(profiles, sampled + texts, host, columns, i, all[i]))
                  && (forall i, name :: 0 <= i < n && name in all[i] && name in texts ==>
                        all[i][name] == if name in profiles then EnforceValue(profiles[name], texts[name][i], host) else texts[name][i])
                  && (forall i, name :: 0 <= i < n && name in all[i] && name in sampled && name !in texts ==>
                        all[i][name] == if name in profiles then EnforceValue(profiles[name], sampled[name][i], host) else sampled[name][i])
      ensures Ready(host) && batch.Rows? ==> forall r :: r in batch.rows ==> RowInSupport(columns, reference, host, r)
    {
      if !fitted {
        return NotReady;
      }
      if reference == [] || n <= 0 {
        return Rows([]);
      }
      var cells := sampled + texts;
      var out, all := AssembleRows(n, cells, accepts, host);
      CellsOfBatch(profiles, sampled, texts, host, columns, all);
      AcceptedLaws(columns, reference, profiles, host, cells, all, accepts);
      return Rows(out);
    }
  }

  lemma {:induction false} CellsOfBatch(profiles: Profiles, sampled: Columns, texts: Columns, host: Host, cols: seq<FieldSchema>, all: seq<Row>)
    requires Full(sampled, |all|) && Full(texts, |all|)
    requires forall i :: 0 <= i < |all| ==> IsRowAt(profiles, sampled + texts, host, cols, i, all[i])
    ensures forall i, name :: 0 <= i < |all| && name in all[i] && name in texts ==>
              all[i][name] == if name in profiles then EnforceValue(profiles[name], texts[name][i], host) else texts[name][i]
    ensures forall i, name :: 0 <= i < |all| && name in all[i] && name in sampled && name !in texts ==>
              all[i][name] == if name in profiles then EnforceValue(profiles[name], sampled[name][i], host) else sampled[name][i]
  {
    var cells := sampled + texts;
    forall i, name | 0 <= i < |all| && name in all[i]
      ensures all[i][name] == Enforced(profiles, name, if name in cells then cells[name][i] else Null, host)
    {
    }
  }

  lemma {:induction false} FailsOnward(cols: seq<FieldSchema>, k: nat, rows: seq<Row>, host: Host)
    requires k <= |cols| && ProfileTable(cols[..k], rows, host).None?
    ensures ProfileTable(cols, rows, host).None?
    decreases |cols| - k
  {
    if k < |cols| {
      assert cols[..k + 1][..k] == cols[..k];
      FailsOnward(cols, k + 1, rows, host);
    } else {
      assert cols[..k] == cols;
    }
  }

  lemma {:induction false} HasColumnStep(cols: seq<FieldSchema>, k: nat)
    requires k < |cols|
    ensures forall name :: HasColumn(cols[..k + 1], name) <==> HasColumn(cols[..k], name) || name == cols[k].name
  {
    var a, b := cols[..k], cols[..k + 1];
    forall name
      ensures HasColumn(b, name) <==> HasColumn(a, name) || name == cols[k].name
    {
      assert b[k] == cols[k];
      if HasColumn(a, name) {
        var i :| 0 <= i < |a| && a[i].name == name;
        assert b[i].name == name;
      }
      if HasColumn(b, name) && name != cols[k].name {
        var i :| 0 <= i < |b| && b[i].name == name;
        assert a[i].name == name;
      }
    }
  }

  /** The rows the record model accepts, in order. */
  function Accepted(rows: seq<Row>, accepts: Row -> bool): seq<Row> {
    if rows == [] then []
    else Accepted(rows[..|rows| - 1], accepts) + (if accepts(rows[|rows| - 1]) then [rows[|rows| - 1]] else [])
  }

  lemma {:induction false} AcceptedStep(rows: seq<Row>, row: Row, accepts: Row -> bool)
    ensures Accepted(rows + [row], accepts) == Accepted(rows, accepts) + (if accepts(row) then [row] else [])
  {
    assert (rows + [row])[..|rows|] == rows;
  }

  lemma {:induction false} AcceptedFacts(rows: seq<Row>, accepts: Row -> bool)
    ensures |Accepted(rows, accepts)| <= |rows|
    ensures forall r :: r in Accepted(rows, accepts) <==> r in rows && accepts(r)
  {
    if rows != [] {
      AcceptedFacts(rows[..|rows| - 1], accepts);
      assert rows == rows[..|rows| - 1] + [rows[|rows| - 1]];
    }
  }

  /** The rows kept are the accepted ones, all of them, each as often as it was assembled and in order. */
  lemma {:induction false} AcceptedPlaces(rows: seq<Row>, accepts: Row -> bool) returns (at: seq<nat>)
    ensures Selects(rows, at, Accepted(rows, accepts))
    ensures forall q: nat :: q in at <==> q < |rows| && accepts(rows[q])
  {
    at := [];
    if rows != [] {
      var n := |rows| - 1;
      at := AcceptedPlaces(rows[..n], accepts);
      SelectsLater(rows[..n], at, Accepted(rows[..n], accepts), rows[n]);
      assert rows == rows[..n] + [rows[n]];
      if accepts(rows[n]) {
        at := at + [n];
      }
    }
  }

  // ---------------------------------------------------------------- row-level fidelity

  /** What the reference says about a cell of this column. */
  ghost predicate InSupport(field: FieldSchema, reference: seq<Row>, host: Host, v: Value)
    requires ProfileColumn(field, reference, host).Built?
  {
    var p := ProfileColumn(field, reference, host).profile;
    var seen := Observed(field, reference);
    && (p.kind == CONSTANT && seen != [] ==> v in seen && forall w :: w in seen ==> w == v)
    && (p.kind == CATEGORICAL ==> v in seen || (v == Null && field.mode == NULLABLE))
    && (p.kind == NUMERIC_RANGE ==>
          if v.Num? then
            && p.minimum.Some? && p.maximum.Some?
            && p.minimum.value - HalfStep(p) <= v.x <= p.maximum.value + HalfStep(p)
            && (OnGrid(p, p.minimum.value) && OnGrid(p, p.maximum.value) ==> p.minimum.value <= v.x <= p.maximum.value)
          else v == Null && field.mode == NULLABLE)
    && (field.bqType != JSON && field.mode == REQUIRED && seen != [] ==> v != Null)
  }

  lemma {:induction false} EnforcedInSupport(field: FieldSchema, reference: seq<Row>, host: Host, raw: Value)
    requires ProfileColumn(field, reference, host).Built?
    ensures InSupport(field, reference, host, EnforceValue(ProfileColumn(field, reference, host).profile, raw, host))
  {
    var p := ProfileColumn(field, reference, host).profile;
    var seen := Observed(field, reference);
    ProfileFacts(field, reference, host);
    if p.kind == NUMERIC_RANGE {
      EnforcedRange(field, reference, host, raw);
    }
    if field.bqType != JSON && field.mode == REQUIRED && seen != [] {
      RequiredNeverNull(field, reference, host, raw);
    }
    if seen != [] {
      assert seen[0] in seen;
    }
  }

  /** Every cell of every assembled row is in its column's observed support, whatever the backend
      sampled and whatever the pool held; the row has exactly the schema's columns. */
  lemma {:induction false} RowFidelity(cols: seq<FieldSchema>, reference: seq<Row>, host: Host, cells: Columns, i: nat, row: Row, k: nat)
    requires ProfileTable(cols, reference, host).Some?
    requires forall name :: name in cells ==> i < |cells[name]|
    requires IsRowAt(ProfileTable(cols, reference, host).value, cells, host, cols, i, row)
    requires k < |cols| && IsLast(cols, k)
    ensures ProfileColumn(cols[k], reference, host).Built?
    ensures cols[k].name in row && InSupport(cols[k], reference, host, row[cols[k].name])
  {
    ProfileTableColumn(cols, reference, host, k);
    assert HasColumn(cols, cols[k].name);
    EnforcedInSupport(cols[k], reference, host, if cols[k].name in cells then cells[cols[k].name][i] else Null);
  }

  /** Is every column's cell in the column's observed support? */
  ghost predicate RowInSupport(cols: seq<FieldSchema>, reference: seq<Row>, host: Host, row: Row) {
    forall k: nat :: IsLast(cols, k) ==>
      && ProfileColumn(cols[k], reference, host).Built?
      && cols[k].name in row && InSupport(cols[k], reference, host, row[cols[k].name])
  }

  lemma {:induction false} BatchFidelity(cols: seq<FieldSchema>, reference: seq<Row>, host: Host, cells: Columns, rows: seq<Row>)
    requires ProfileTable(cols, reference, host).Some? && Full(cells, |rows|)
    requires forall i :: 0 <= i < |rows| ==>
               IsRowAt(ProfileTable(cols, reference, host).value, cells, host, cols, i, rows[i])
    ensures forall r :: r in rows ==> RowInSupport(cols, reference, host, r)
  {
    forall i | 0 <= i < |rows|
      ensures RowInSupport(cols, reference, host, rows[i])
    {
      forall k: nat | IsLast(cols, k)
        ensures ProfileColumn(cols[k], reference, host).Built?
        ensures cols[k].name in rows[i] && InSupport(cols[k], reference, host, rows[i][cols[k].name])
      {
        RowFidelity(cols, reference, host, cells, i, rows[i], k);
      }
    }
  }

  lemma {:induction false} AcceptedLaws(cols: seq<FieldSchema>, reference: seq<Row>, profiles: Profiles, host: Host, cells: Columns,
                                        all: seq<Row>, accepts: Row -> bool)
    requires Full(cells, |all|)
    requires forall i :: 0 <= i < |all| ==> IsRowAt(profiles, cells, host, cols, i, all[i])
    ensures |Accepted(all, accepts)| <= |all| && forall r :: r in Accepted(all, accepts) ==> accepts(r)
    ensures ProfileTable(cols, reference, host) == Some(profiles) ==>
              forall r :: r in Accepted(all, accepts) ==> RowInSupport(cols, reference, host, r)
  {
    AcceptedFacts(all, accepts);
    if ProfileTable(cols, reference, host) == Some(profiles) {
      BatchFidelity(cols, reference, host, cells, all);
    }
  }
}
