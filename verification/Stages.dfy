/** The pipeline's stages: the request loop, the three DoFns, and their dead-letter envelopes.
    The engine's records, the record model's verdicts and Pandera's failure cases are inputs. */
module Stages {
  import opened Options
  import opened Collections

  /** A record as the validators see it: column name to (opaque) cell. */
  datatype Record = Record(cells: map<string, int>)

  datatype Request = Request(batchId: nat, n: nat)

  datatype Payload = RawRequest(request: Request) | RawRecord(record: Record)

  datatype DlqEntry = DlqEntry(payload: Payload, errorType: string, ruleId: string, stage: string)

  function EngineFailure(r: Request): DlqEntry { DlqEntry(RawRequest(r), "engine", "engine_failure", "pre_write") }

  function TypeFailure(r: Record): DlqEntry { DlqEntry(RawRecord(r), "pydantic", "schema.types", "pre_write") }

  function BatchFailure(r: Record): DlqEntry { DlqEntry(RawRecord(r), "pandera", "schema.batch", "pre_write") }

  // ---------------------------------------------------------------- requests

  function Smaller(a: int, b: int): int { if a < b then a else b }

  function Requests(remaining: int, batchSize: int, batchId: nat): seq<Request>
    requires batchSize >= 1
    decreases if remaining > 0 then remaining else 0
  {
    if remaining <= 0 then []
    else
      var n := Smaller(batchSize, remaining);
      [Request(batchId, n)] + Requests(remaining - n, batchSize, batchId + 1)
  }

  method BuildRequests(numRows: int, batchSize: int) returns (specs: seq<Request>)
    requires batchSize >= 1
    ensures specs == Requests(numRows, batchSize, 0)
  {
    specs := [];
    var remaining := numRows;
    var batchId := 0;
    while remaining > 0
      invariant specs + Requests(remaining, batchSize, batchId) == Requests(numRows, batchSize, 0)
      decreases remaining
    {
      var n := Smaller(batchSize, remaining);
      assert Requests(remaining, batchSize, batchId)
             == [Request(batchId, n)] + Requests(remaining - n, batchSize, batchId + 1);
      specs := specs + [Request(batchId, n)];
      remaining := remaining - n;
      batchId := batchId + 1;
    }
  }

  function RowsAsked(rs: seq<Request>): nat { if rs == [] then 0 else rs[0].n + RowsAsked(rs[1..]) }

  /** Is `m` the least number of requests of `size` rows that covers `rows`? */
  predicate Covers(m: nat, size: nat, rows: nat) {
    rows <= m * size && (m > 0 ==> (m - 1) * size < rows)
  }

  lemma {:induction false} CoversStep(m: nat, size: nat, rows: nat)
    requires size >= 1 && rows >= 1 && Covers(m, size, if rows <= size then 0 else rows - size)
    ensures Covers(m + 1, size, rows)
  {
    assert (m + 1) * size == m * size + size;
    if m > 0 {
      assert m * size == (m - 1) * size + size;
    } else {
      assert 0 * size == 0;
    }
  }

  /** The requests ask for exactly `num_rows` rows, in as few requests of 1 to `batch_size` rows as
      cover them, numbered from `batchId` on. */
  lemma {:induction false} RequestFacts(remaining: int, batchSize: int, batchId: nat)
    requires batchSize >= 1
    ensures var rs := Requests(remaining, batchSize, batchId);
            var rows := if remaining > 0 then remaining else 0;
            && RowsAsked(rs) == rows && Covers(|rs|, batchSize, rows)
            && forall i :: 0 <= i < |rs| ==> 1 <= rs[i].n <= batchSize && rs[i].batchId == batchId + i
    decreases if remaining > 0 then remaining else 0
  {
    if remaining > 0 {
      var n := Smaller(batchSize, remaining);
      RequestFacts(remaining - n, batchSize, batchId + 1);
      CoversStep(|Requests(remaining - n, batchSize, batchId + 1)|, batchSize, remaining);
    } else {
      assert 0 * batchSize == 0;
    }
  }

  // ---------------------------------------------------------------- generate

  /** What the engine does with one request: the records it yields, and whether it then raises. */
  datatype EngineRun = EngineRun(records: seq<Record>, raises: bool)

  /** The seed of a batch: the base seed plus the batch number. */
  function BatchSeed(base: Option<int>, batch: int): Option<int> {
    if base.None? then None else Some(base.value + batch)
  }

  function SeedFor(base: Option<int>, r: Request): Option<int> { BatchSeed(base, r.batchId) }

  class GenerateRecordsDoFn {
    const baseSeed: Option<int>
    var yielded: nat
    var failed: nat

    constructor (baseSeed: Option<int>)
      ensures this.baseSeed == baseSeed && yielded == 0 && failed == 0
    {
      this.baseSeed := baseSeed;
      yielded, failed := 0, 0;
    }

    /** `run` is what the engine does when called with the returned seed. */
    method Process(request: Request, run: EngineRun) returns (seed: Option<int>, main: seq<Record>, failures: seq<DlqEntry>)
      modifies this
      ensures seed == SeedFor(baseSeed, request)
      ensures main == run.records
      ensures failures == if run.raises then [EngineFailure(request)] else []
      ensures yielded == old(yielded) + |run.records| && failed == old(failed) + |failures|
    {
      seed := if baseSeed.None? then None else Some(baseSeed.value + request.batchId);
      main, failures := [], [];
      for i := 0 to |run.records|
        invariant main == run.records[..i] && yielded == old(yielded) + i && failed == old(failed)
      {
        yielded := yielded + 1;
        main := main + [run.records[i]];
      }
      if run.raises {
        failed := failed + 1;
        failures := [DlqEntry(RawRequest(request), "engine", "engine_failure", "pre_write")];
      }
    }
  }

  // ---------------------------------------------------------------- validate one record

  class ValidateRecordDoFn {
    const accepts: Record -> bool
    var valid: nat
    var invalid: nat

    constructor (accepts: Record -> bool)
      ensures this.accepts == accepts && valid == 0 && invalid == 0
    {
      this.accepts := accepts;
      valid, invalid := 0, 0;
    }

    method Process(record: Record) returns (main: seq<Record>, rejected: seq<DlqEntry>)
      modifies this
      ensures main == if accepts(record) then [record] else []
      ensures rejected == if accepts(record) then [] else [TypeFailure(record)]
      ensures valid == old(valid) + |main| && invalid == old(invalid) + |rejected|
    {
      if accepts(record) {
        valid := valid + 1;
        return [record], [];
      }
      invalid := invalid + 1;
      return [], [DlqEntry(RawRecord(record), "pydantic", "schema.types", "pre_write")];
    }
  }

  // ---------------------------------------------------------------- validate a batch

  /** A cell of the "index" column of Pandera's failure cases. */
  datatype IndexCell = Missing | Index(i: int) | NotAnIndex

  datatype FailureCases = Unreadable | NoCases | NoIndexColumn | IndexColumn(cells: seq<IndexCell>)

  datatype BatchCheck = Passes | Fails(cases: FailureCases)

  function AllIndices(n: nat): (r: set<int>)
    ensures forall i :: i in r <==> 0 <= i < n
  {
    if n == 0 then {} else AllIndices(n - 1) + {n - 1}
  }

  function IndicesOf(cells: seq<IndexCell>): set<int> {
    set c | c in cells && c.Index? :: c.i
  }

  /** `_extract_failed_indices`. */
  function FailedIndices(cases: FailureCases, n: nat): set<int> {
    match cases
    case Unreadable => AllIndices(n)
    case NoCases => {}
    case NoIndexColumn => AllIndices(n)
    case IndexColumn(cells) => if IndicesOf(cells) == {} then AllIndices(n) else IndicesOf(cells)
  }

  method ExtractFailedIndices(cases: FailureCases, n: nat) returns (failed: set<int>)
    ensures failed == FailedIndices(cases, n)
  {
    match cases {
      case Unreadable => return AllIndices(n);
      case NoCases => return {};
      case NoIndexColumn => return AllIndices(n);
      case IndexColumn(cells) =>
        var out: set<int> := {};
        for k := 0 to |cells|
          invariant out == IndicesOf(cells[..k])
        {
          assert cells[..k + 1] == cells[..k] + [cells[k]];
          IndicesStep(cells[..k], cells[k]);
          if cells[k].Index? {
            out := out + {cells[k].i};
          }
        }
        assert cells[..|cells|] == cells;
        return if out != {} then out else AllIndices(n);
    }
  }

  lemma {:induction false} IndicesStep(cells: seq<IndexCell>, c: IndexCell)
    ensures IndicesOf(cells + [c]) == IndicesOf(cells) + (if c.Index? then {c.i} else {})
  {
  }

  /** The rows of a batch inside (or outside) a set of places, in order. */
  function Picked(batch: seq<Record>, places: set<int>, inside: bool): seq<Record> {
    if batch == [] then []
    else
      var n := |batch| - 1;
      Picked(batch[..n], places, inside) + (if (n in places) == inside then [batch[n]] else [])
  }

  function BatchFailures(rs: seq<Record>): (es: seq<DlqEntry>)
    ensures |es| == |rs| && forall i :: 0 <= i < |rs| ==> es[i] == BatchFailure(rs[i])
  {
    seq(|rs|, i requires 0 <= i < |rs| => BatchFailure(rs[i]))
  }

  function Dropped(check: BatchCheck, n: nat): set<int> {
    if check.Passes? then {} else FailedIndices(check.cases, n)
  }

  function LandedOf(batch: seq<Record>, check: BatchCheck): seq<Record> {
    Picked(batch, Dropped(check, |batch|), false)
  }

  function RejectedOf(batch: seq<Record>, check: BatchCheck): seq<Record> {
    Picked(batch, Dropped(check, |batch|), true)
  }

  class PanderaValidateBatchDoFn {
    var valid: nat
    var invalid: nat

    constructor ()
      ensures valid == 0 && invalid == 0
    {
      valid, invalid := 0, 0;
    }

    /** `check` is what the derived Pandera schema says about the batch. */
    method Process(batch: seq<Record>, check: BatchCheck) returns (main: seq<Record>, rejected: seq<DlqEntry>)
      modifies this
      ensures main == LandedOf(batch, check)
      ensures rejected == BatchFailures(RejectedOf(batch, check))
      ensures valid == old(valid) + |main| && invalid == old(invalid) + |rejected|
    {
      main, rejected := [], [];
      if batch == [] {
        return;
      }
      if check.Passes? {
        PickedOutsideNone(batch);
        for i := 0 to |batch|
          invariant main == batch[..i] && valid == old(valid) + i && invalid == old(invalid)
        {
          valid := valid + 1;
          main := main + [batch[i]];
        }
        return;
      }
      var failed := ExtractFailedIndices(check.cases, |batch|);
      for i := 0 to |batch|
        invariant main == Picked(batch[..i], failed, false)
        invariant rejected == BatchFailures(Picked(batch[..i], failed, true))
        invariant valid == old(valid) + |main| && invalid == old(invalid) + |rejected|
      {
        assert batch[..i + 1][..i] == batch[..i];
        if i in failed {
          invalid := invalid + 1;
          rejected := rejected + [DlqEntry(RawRecord(batch[i]), "pandera", "schema.batch", "pre_write")];
        } else {
          valid := valid + 1;
          main := main + [batch[i]];
        }
      }
      assert batch[..|batch|] == batch;
    }
  }

  lemma {:induction false} PickedOutsideNone(batch: seq<Record>)
    ensures Picked(batch, {}, false) == batch && Picked(batch, {}, true) == []
  {
    if batch != [] {
      PickedOutsideNone(batch[..|batch| - 1]);
    }
  }

  lemma {:induction false} PickedSplit(batch: seq<Record>, places: set<int>)
    ensures multiset(Picked(batch, places, false)) + multiset(Picked(batch, places, true)) == multiset(batch)
  {
    if batch != [] {
      var n := |batch| - 1;
      PickedSplit(batch[..n], places);
      assert batch == batch[..n] + [batch[n]];
    }
  }

  /** A batch check splits the batch: every row lands or is rejected, exactly once. */
  lemma {:induction false} BatchSplit(batch: seq<Record>, check: BatchCheck)
    ensures multiset(LandedOf(batch, check)) + multiset(RejectedOf(batch, check)) == multiset(batch)
  {
    PickedSplit(batch, Dropped(check, |batch|));
  }

  /** The rows picked stand at the places inside (or outside) the set, in order. */
  lemma {:induction false} PickedPlaces(batch: seq<Record>, places: set<int>, inside: bool) returns (at: seq<nat>)
    ensures Selects(batch, at, Picked(batch, places, inside))
    ensures forall q: nat :: q in at <==> q < |batch| && (q in places) == inside
  {
    at := [];
    if batch != [] {
      var n := |batch| - 1;
      at := PickedPlaces(batch[..n], places, inside);
      SelectsLater(batch[..n], at, Picked(batch[..n], places, inside), batch[n]);
      assert batch == batch[..n] + [batch[n]];
      if (n in places) == inside {
        at := at + [n];
      }
    }
  }

  lemma {:induction false} PickedAll(batch: seq<Record>, places: set<int>)
    requires forall i :: 0 <= i < |batch| ==> i in places
    ensures Picked(batch, places, true) == batch && Picked(batch, places, false) == []
  {
    if batch != [] {
      PickedAll(batch[..|batch| - 1], places);
    }
  }

  /** A batch lands whole when it passes or has no failure case, and is rejected whole when its
      failures name no row: unreadable cases, no index column, or no index in it. */
  lemma {:induction false} WholeBatch(batch: seq<Record>, check: BatchCheck)
    ensures check.Passes? || check.cases.NoCases? ==> LandedOf(batch, check) == batch && RejectedOf(batch, check) == []
    ensures check.Fails? && (check.cases.Unreadable? || check.cases.NoIndexColumn?
                             || (check.cases.IndexColumn? && forall i :: Index(i) !in check.cases.cells)) ==>
              LandedOf(batch, check) == [] && RejectedOf(batch, check) == batch
  {
    PickedOutsideNone(batch);
    PickedAll(batch, AllIndices(|batch|));
  }

  /** When the failure cases name a row, the rows they name are rejected and the others land. */
  lemma {:induction false} FlaggedRows(batch: seq<Record>, cells: seq<IndexCell>, named: int) returns (landed: seq<nat>, rejected: seq<nat>)
    requires Index(named) in cells
    ensures var check := Fails(IndexColumn(cells));
            Selects(batch, landed, LandedOf(batch, check)) && Selects(batch, rejected, RejectedOf(batch, check))
    ensures forall q: nat :: q in rejected <==> q < |batch| && Index(q) in cells
    ensures forall q: nat :: q in landed <==> q < |batch| && Index(q) !in cells
  {
    assert named in IndicesOf(cells);
    landed := PickedPlaces(batch, IndicesOf(cells), false);
    rejected := PickedPlaces(batch, IndicesOf(cells), true);
  }

  /** Different batches of a seeded run get different seeds, and the first one the base seed. */
  lemma {:induction false} SeedsDiffer(base: int, r: Request, r': Request)
    ensures SeedFor(Some(base), r) == SeedFor(Some(base), r') <==> r.batchId == r'.batchId
    ensures r.batchId == 0 ==> SeedFor(Some(base), r) == Some(base)
    ensures SeedFor(Some(base), r).Some? && SeedFor(None, r) == None
  {
  }

  // ---------------------------------------------------------------- primary keys

  function KeyCell(r: Record, column: string): Option<int> { if column in r.cells then Some(r.cells[column]) else None }

  function KeyOf(pks: seq<string>, r: Record): seq<Option<int>> {
    seq(|pks|, i requires 0 <= i < |pks| => KeyCell(r, pks[i]))
  }

  /** Does the check drop every row of a duplicated key? Pandera reports each of them by its index. */
  predicate FlagsDuplicates(pks: seq<string>, batch: seq<Record>, check: BatchCheck) {
    forall i, j :: 0 <= i < j < |batch| && KeyOf(pks, batch[i]) == KeyOf(pks, batch[j]) ==>
      i in Dropped(check, |batch|) && j in Dropped(check, |batch|)
  }

  predicate CarriesAt(pks: seq<string>, batch: seq<Record>, key: seq<Option<int>>, i: int) {
    0 <= i < |batch| && KeyOf(pks, batch[i]) == key
  }

  function CountKey(pks: seq<string>, rs: seq<Record>, key: seq<Option<int>>): nat {
    if rs == [] then 0
    else CountKey(pks, rs[..|rs| - 1], key) + (if KeyOf(pks, rs[|rs| - 1]) == key then 1 else 0)
  }

  lemma {:induction false} PickedKeys(pks: seq<string>, batch: seq<Record>, places: set<int>, key: seq<Option<int>>)
    requires forall i, j :: 0 <= i < j < |batch| && KeyOf(pks, batch[i]) == key == KeyOf(pks, batch[j]) ==>
               i in places && j in places
    ensures CountKey(pks, Picked(batch, places, false), key) <= 1
    ensures CountKey(pks, Picked(batch, places, false), key) == 1 ==>
              exists i :: 0 <= i < |batch| && CarriesAt(pks, batch, key, i) && i !in places
  {
    if batch != [] {
      var n := |batch| - 1;
      PickedKeys(pks, batch[..n], places, key);
      var front := Picked(batch[..n], places, false);
      assert (front + [batch[n]])[..|front|] == front && front + [] == front;
      assert Picked(batch, places, false) == if n in places then front else front + [batch[n]];
      if CountKey(pks, front, key) == 1 {
        var i :| 0 <= i < n && CarriesAt(pks, batch[..n], key, i) && i !in places;
        assert CarriesAt(pks, batch, key, i);
        assert KeyOf(pks, batch[n]) == key ==> n in places;
      } else if n !in places && KeyOf(pks, batch[n]) == key {
        assert CarriesAt(pks, batch, key, n);
      }
    }
  }

  /** Rows that land from one batch have pairwise distinct primary keys. */
  lemma {:induction false} LandedKeysDistinct(pks: seq<string>, batch: seq<Record>, check: BatchCheck, key: seq<Option<int>>)
    requires FlagsDuplicates(pks, batch, check)
    ensures CountKey(pks, LandedOf(batch, check), key) <= 1
  {
    PickedKeys(pks, batch, Dropped(check, |batch|), key);
  }

  /** Two rows have one key exactly when each key column is missing in both or has one value in both. */
  lemma {:induction false} SameKeyMeans(pks: seq<string>, r: Record, r': Record)
    ensures KeyOf(pks, r) == KeyOf(pks, r') <==>
              forall i :: 0 <= i < |pks| ==>
                && (pks[i] in r.cells <==> pks[i] in r'.cells)
                && (pks[i] in r.cells && pks[i] in r'.cells ==> r.cells[pks[i]] == r'.cells[pks[i]])
  {
    if KeyOf(pks, r) == KeyOf(pks, r') {
      forall i | 0 <= i < |pks|
        ensures KeyCell(r, pks[i]) == KeyCell(r', pks[i])
      {
        assert KeyOf(pks, r)[i] == KeyOf(pks, r')[i];
      }
    }
  }
}
