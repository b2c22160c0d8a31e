/** Primary keys over whole runs: duplicates are looked for within a batch only, so how often a key
    lands depends on how the records were batched. */
module PrimaryKeys {
  import opened Options
  import opened Stages
  import opened Pipeline

  // ---------------------------------------------------------------- one batch

  lemma {:induction false} CountKeyAppend(pks: seq<string>, a: seq<Record>, b: seq<Record>, key: seq<Option<int>>)
    ensures CountKey(pks, a + b, key) == CountKey(pks, a, key) + CountKey(pks, b, key)
  {
    if b == [] {
      assert a + b == a;
    } else {
      var n := |b| - 1;
      assert (a + b)[..|a + b| - 1] == a + b[..n];
      CountKeyAppend(pks, a, b[..n], key);
    }
  }

  /** Does some other row of the batch have the key of row `i`? */
  predicate SharesKey(pks: seq<string>, batch: seq<Record>, i: nat)
    requires i < |batch|
  {
    exists j :: 0 <= j < |batch| && j != i && KeyOf(pks, batch[j]) == KeyOf(pks, batch[i])
  }

  /** Does the check drop exactly the rows of duplicated keys? */
  predicate FlagsExactlyDuplicates(pks: seq<string>, batch: seq<Record>, check: BatchCheck) {
    forall i :: 0 <= i < |batch| ==> (i in Dropped(check, |batch|) <==> SharesKey(pks, batch, i))
  }

  /** Does a row with this key land from the batch? */
  predicate LandsKey(pks: seq<string>, batch: seq<Record>, check: BatchCheck, key: seq<Option<int>>) {
    exists i :: 0 <= i < |batch| && CarriesAt(pks, batch, key, i) && i !in Dropped(check, |batch|)
  }

  lemma {:induction false} CountKeyFacts(pks: seq<string>, rs: seq<Record>, key: seq<Option<int>>)
    ensures CountKey(pks, rs, key) >= 1 <==> exists i :: CarriesAt(pks, rs, key, i)
    ensures CountKey(pks, rs, key) >= 2 <==>
              exists i, j :: i < j && CarriesAt(pks, rs, key, i) && CarriesAt(pks, rs, key, j)
  {
    if rs != [] {
      var n := |rs| - 1;
      CountKeyFacts(pks, rs[..n], key);
      assert forall i :: CarriesAt(pks, rs[..n], key, i) <==> CarriesAt(pks, rs, key, i) && i < n;
      assert CarriesAt(pks, rs, key, n) <==> KeyOf(pks, rs[n]) == key;
    }
  }

  lemma {:induction false} PickedStep(pks: seq<string>, batch: seq<Record>, places: set<int>, key: seq<Option<int>>)
    requires batch != []
    ensures var n := |batch| - 1;
            CountKey(pks, Picked(batch, places, false), key)
            == CountKey(pks, Picked(batch[..n], places, false), key) + (if n !in places && KeyOf(pks, batch[n]) == key then 1 else 0)
  {
    var n := |batch| - 1;
    var front := Picked(batch[..n], places, false);
    assert (front + [batch[n]])[..|front|] == front && front + [] == front;
  }

  lemma {:induction false} PickedCarries(pks: seq<string>, batch: seq<Record>, places: set<int>, key: seq<Option<int>>, i: int)
    requires CarriesAt(pks, batch, key, i) && i !in places
    ensures CountKey(pks, Picked(batch, places, false), key) >= 1
  {
    PickedStep(pks, batch, places, key);
    var n := |batch| - 1;
    if i < n {
      assert CarriesAt(pks, batch[..n], key, i);
      PickedCarries(pks, batch[..n], places, key, i);
    }
  }

  /** A key lands from a batch once or not at all. */
  lemma {:induction false} LandedKeyCount(pks: seq<string>, batch: seq<Record>, check: BatchCheck, key: seq<Option<int>>)
    requires FlagsDuplicates(pks, batch, check)
    ensures CountKey(pks, LandedOf(batch, check), key) == if LandsKey(pks, batch, check, key) then 1 else 0
  {
    var out := Dropped(check, |batch|);
    PickedKeys(pks, batch, out, key);
    if LandsKey(pks, batch, check, key) {
      var i :| CarriesAt(pks, batch, key, i) && i !in out;
      PickedCarries(pks, batch, out, key, i);
    }
  }

  lemma {:induction false} ExactFlagsDuplicates(pks: seq<string>, batch: seq<Record>, check: BatchCheck)
    requires FlagsExactlyDuplicates(pks, batch, check)
    ensures FlagsDuplicates(pks, batch, check)
  {
    forall i, j | 0 <= i < j < |batch| && KeyOf(pks, batch[i]) == KeyOf(pks, batch[j])
      ensures i in Dropped(check, |batch|) && j in Dropped(check, |batch|)
    {
      assert SharesKey(pks, batch, i) && SharesKey(pks, batch, j);
    }
  }

  lemma {:induction false} SharedOrAlone(pks: seq<string>, batch: seq<Record>, key: seq<Option<int>>, i: nat)
    requires CarriesAt(pks, batch, key, i)
    ensures SharesKey(pks, batch, i) <==> CountKey(pks, batch, key) >= 2
  {
    CountKeyFacts(pks, batch, key);
    if SharesKey(pks, batch, i) {
      var j :| 0 <= j < |batch| && j != i && KeyOf(pks, batch[j]) == KeyOf(pks, batch[i]);
      assert CarriesAt(pks, batch, key, j);
      assert i < j || j < i;
    }
    if CountKey(pks, batch, key) >= 2 {
      var a, b :| a < b && CarriesAt(pks, batch, key, a) && CarriesAt(pks, batch, key, b);
      assert KeyOf(pks, batch[if a == i then b else a]) == key;
    }
  }

  /** When exactly the duplicates are dropped, a key lands from a batch exactly when one row of it
      carries the key. */
  lemma {:induction false} ExactlyOneCarrier(pks: seq<string>, batch: seq<Record>, check: BatchCheck, key: seq<Option<int>>)
    requires FlagsExactlyDuplicates(pks, batch, check)
    ensures CountKey(pks, LandedOf(batch, check), key) == if CountKey(pks, batch, key) == 1 then 1 else 0
    ensures LandsKey(pks, batch, check, key) <==> CountKey(pks, batch, key) == 1
  {
    ExactFlagsDuplicates(pks, batch, check);
    LandedKeyCount(pks, batch, check, key);
    CountKeyFacts(pks, batch, key);
    forall i | 0 <= i < |batch| && CarriesAt(pks, batch, key, i)
      ensures i in Dropped(check, |batch|) <==> CountKey(pks, batch, key) >= 2
    {
      SharedOrAlone(pks, batch, key, i);
    }
  }

  // ---------------------------------------------------------------- whole runs

  predicate ChecksFlagDuplicates(pks: seq<string>, steps: seq<Step>) {
    forall i :: 0 <= i < |steps| && steps[i].CheckBatch? ==> FlagsDuplicates(pks, steps[i].batch, steps[i].check)
  }

  predicate ChecksFlagExactly(pks: seq<string>, steps: seq<Step>) {
    forall i :: 0 <= i < |steps| && steps[i].CheckBatch? ==> FlagsExactlyDuplicates(pks, steps[i].batch, steps[i].check)
  }

  predicate StepLands(pks: seq<string>, step: Step, key: seq<Option<int>>) {
    step.CheckBatch? && LandsKey(pks, step.batch, step.check, key)
  }

  /** The number of checked batches the key lands from. */
  function Landings(pks: seq<string>, steps: seq<Step>, key: seq<Option<int>>): nat {
    if steps == [] then 0
    else
      var n := |steps| - 1;
      Landings(pks, steps[..n], key) + (if StepLands(pks, steps[n], key) then 1 else 0)
  }

  lemma {:induction false} LandingStep(st: State, step: Step, accepts: Record -> bool, pks: seq<string>, key: seq<Option<int>>)
    requires Enabled(st, step) && (step.CheckBatch? ==> FlagsDuplicates(pks, step.batch, step.check))
    ensures var next := Next(st, step, accepts);
            && CountKey(pks, next.landing, key) == CountKey(pks, st.landing, key) + (if StepLands(pks, step, key) then 1 else 0)
            && next.batchesChecked == st.batchesChecked + (if step.CheckBatch? then 1 else 0)
  {
    if step.CheckBatch? {
      LandedKeyCount(pks, step.batch, step.check, key);
      CountKeyAppend(pks, st.landing, LandedOf(step.batch, step.check), key);
    }
  }

  /** Over any run, a key is in the landing table once for every checked batch it lands from. */
  lemma {:induction false} KeyLandings(numRows: int, batchSize: int, steps: seq<Step>, accepts: Record -> bool,
                                       pks: seq<string>, key: seq<Option<int>>)
    requires batchSize >= 1 && Execute(Start(numRows, batchSize), steps, accepts).Some?
    requires ChecksFlagDuplicates(pks, steps)
    ensures var st := Execute(Start(numRows, batchSize), steps, accepts).value;
            CountKey(pks, st.landing, key) == Landings(pks, steps, key) <= st.batchesChecked
  {
    if steps != [] {
      var n := |steps| - 1;
      assert forall i :: 0 <= i < n ==> steps[..n][i] == steps[i];
      var before := RunMoves(Start(numRows, batchSize), steps, accepts);
      KeyLandings(numRows, batchSize, steps[..n], accepts, pks, key);
      LandingStep(before, steps[n], accepts, pks, key);
    }
  }

  /** A key value lands at most once per checked batch. */
  lemma {:induction false} KeyMultiplicity(numRows: int, batchSize: int, steps: seq<Step>, accepts: Record -> bool,
                                           pks: seq<string>, key: seq<Option<int>>)
    requires batchSize >= 1 && Execute(Start(numRows, batchSize), steps, accepts).Some?
    requires ChecksFlagDuplicates(pks, steps)
    ensures var st := Execute(Start(numRows, batchSize), steps, accepts).value;
            CountKey(pks, st.landing, key) <= st.batchesChecked
  {
    KeyLandings(numRows, batchSize, steps, accepts, pks, key);
  }

  /** Does the step check a batch in which exactly one row carries the key? */
  predicate CarriedOnceIn(pks: seq<string>, step: Step, key: seq<Option<int>>) {
    step.CheckBatch? && CountKey(pks, step.batch, key) == 1
  }

  predicate InTwoBatches(pks: seq<string>, steps: seq<Step>, key: seq<Option<int>>) {
    exists i, j :: 0 <= i < j < |steps| && CarriedOnceIn(pks, steps[i], key) && CarriedOnceIn(pks, steps[j], key)
  }

  lemma {:induction false} LandingsFacts(pks: seq<string>, steps: seq<Step>, key: seq<Option<int>>)
    ensures Landings(pks, steps, key) >= 1 <==> exists i :: 0 <= i < |steps| && StepLands(pks, steps[i], key)
    ensures Landings(pks, steps, key) >= 2 <==>
              exists i, j :: 0 <= i < j < |steps| && StepLands(pks, steps[i], key) && StepLands(pks, steps[j], key)
  {
    if steps != [] {
      var n := |steps| - 1;
      LandingsFacts(pks, steps[..n], key);
      assert forall i :: 0 <= i < n ==> steps[..n][i] == steps[i];
    }
  }

  /** A primary key lands at most once in a run exactly when no two checked batches carry it, each in
      a single row. */
  lemma {:induction false} LandsAtMostOnce(numRows: int, batchSize: int, steps: seq<Step>, accepts: Record -> bool,
                                           pks: seq<string>, key: seq<Option<int>>)
    requires batchSize >= 1 && Execute(Start(numRows, batchSize), steps, accepts).Some?
    requires ChecksFlagExactly(pks, steps)
    ensures var st := Execute(Start(numRows, batchSize), steps, accepts).value;
            CountKey(pks, st.landing, key) <= 1 <==> !InTwoBatches(pks, steps, key)
  {
    forall i | 0 <= i < |steps| && steps[i].CheckBatch?
      ensures FlagsDuplicates(pks, steps[i].batch, steps[i].check)
      ensures StepLands(pks, steps[i], key) <==> CarriedOnceIn(pks, steps[i], key)
    {
      ExactFlagsDuplicates(pks, steps[i].batch, steps[i].check);
      ExactlyOneCarrier(pks, steps[i].batch, steps[i].check, key);
    }
    KeyLandings(numRows, batchSize, steps, accepts, pks, key);
    LandingsFacts(pks, steps, key);
  }

  // ---------------------------------------------------------------- a key that lands twice

  lemma {:induction false} PutBack(m: multiset<Record>, r: Record)
    ensures m + multiset{r} - multiset{r} == m
  {
  }

  /** The state after one record of a single-row request has been generated and accepted. */
  lemma {:induction false} GenerateAndAccept(st: State, r: Record, accepts: Record -> bool)
    requires st.pending != [] && st.pending[0].n >= 1 && accepts(r)
    ensures Execute(st, [Generate(0, EngineRun([r], false)), Validate(r)], accepts)
            == Some(st.(pending := st.pending[1..], yielded := st.yielded + multiset{r}, passed := st.passed + multiset{r}))
  {
    var generate, validate := Generate(0, EngineRun([r], false)), Validate(r);
    var middle := Next(st, generate, accepts);
    assert st.pending[..0] + st.pending[1..] == st.pending[1..];
    assert multiset([r]) == multiset{r} && st.dlq + [] == st.dlq;
    PutBack(st.generated, r);
    assert [generate] + [validate] == [generate, validate];
    StepThenRun(st, generate, [validate], accepts);
    assert [validate] + [] == [validate];
    StepThenRun(middle, validate, [], accepts);
  }

  lemma {:induction false} LandAlone(st: State, r: Record, accepts: Record -> bool)
    requires r in st.passed
    ensures Execute(st, [CheckBatch([r], Passes)], accepts)
            == Some(st.(passed := st.passed - multiset{r}, landing := st.landing + [r], batchesChecked := st.batchesChecked + 1))
  {
    var check := CheckBatch([r], Passes);
    assert multiset([r]) == multiset{r};
    PickedOutsideNone([r]);
    assert BatchFailures([]) == [] && st.dlq + [] == st.dlq;
    assert [check] + [] == [check];
    StepThenRun(st, check, [], accepts);
  }

  /** One row generated, accepted, and checked in a batch of its own. */
  function OneRow(r: Record): seq<Step> {
    [Generate(0, EngineRun([r], false)), Validate(r)] + [CheckBatch([r], Passes)]
  }

  lemma {:induction false} GenerateToLanding(st: State, r: Record, accepts: Record -> bool)
    requires st.pending != [] && st.pending[0].n >= 1 && accepts(r)
    ensures Execute(st, OneRow(r), accepts)
            == Some(st.(pending := st.pending[1..], yielded := st.yielded + multiset{r}, landing := st.landing + [r],
                        batchesChecked := st.batchesChecked + 1))
  {
    var first := [Generate(0, EngineRun([r], false)), Validate(r)];
    GenerateAndAccept(st, r, accepts);
    var middle := Execute(st, first, accepts).value;
    LandAlone(middle, r, accepts);
    ExecuteAppend(st, first, [CheckBatch([r], Passes)], accepts);
    PutBack(st.passed, r);
  }

  lemma {:induction false} TwoSingleRequests()
    ensures Requests(2, 1, 0) == [Request(0, 1), Request(1, 1)]
  {
    assert Requests(2, 1, 0) == [Request(0, 1)] + Requests(1, 1, 1);
    assert Requests(1, 1, 1) == [Request(1, 1)] + Requests(0, 1, 2);
  }

  lemma {:induction false} TwoRowsRun(r: Record, r': Record, accepts: Record -> bool)
    requires accepts(r) && accepts(r')
    ensures var run := Execute(Start(2, 1), OneRow(r) + OneRow(r'), accepts);
            run.Some? && Finished(run.value) && run.value.landing == [r, r'] && run.value.dlq == []
  {
    var st := Start(2, 1);
    TwoSingleRequests();
    GenerateToLanding(st, r, accepts);
    var middle := Execute(st, OneRow(r), accepts).value;
    assert middle.pending == [Request(1, 1)];
    GenerateToLanding(middle, r', accepts);
    ExecuteAppend(st, OneRow(r), OneRow(r'), accepts);
    assert [] + [r] == [r] && [r] + [r'] == [r, r'];
  }

  lemma {:induction false} SingleRowsExact(pks: seq<string>, r: Record, r': Record)
    ensures ChecksFlagExactly(pks, OneRow(r) + OneRow(r'))
  {
    var steps := OneRow(r) + OneRow(r');
    forall i | 0 <= i < |steps| && steps[i].CheckBatch?
      ensures FlagsExactlyDuplicates(pks, steps[i].batch, steps[i].check)
    {
      assert |steps[i].batch| == 1 && steps[i].check.Passes?;
    }
  }

  lemma {:induction false} TwoRowsCount(pks: seq<string>, r: Record, r': Record)
    requires KeyOf(pks, r) == KeyOf(pks, r')
    ensures CountKey(pks, [r, r'], KeyOf(pks, r)) == 2
  {
    assert [r, r'][..1] == [r] && [r][..0] == [];
    assert CountKey(pks, [r], KeyOf(pks, r)) == 1;
  }

  /** Duplicates in different batches all land: a finished run whose checks flag exactly the duplicates
      of their batches, and which lands one key twice. */
  lemma {:induction false} SameKeyLandsTwice(pks: seq<string>, r: Record, r': Record, accepts: Record -> bool)
    requires accepts(r) && accepts(r') && KeyOf(pks, r) == KeyOf(pks, r')
    ensures ChecksFlagExactly(pks, OneRow(r) + OneRow(r'))
    ensures var run := Execute(Start(2, 1), OneRow(r) + OneRow(r'), accepts);
            && run.Some? && Finished(run.value) && run.value.landing == [r, r'] && run.value.dlq == []
            && CountKey(pks, run.value.landing, KeyOf(pks, r)) == 2
  {
    TwoRowsRun(r, r', accepts);
    SingleRowsExact(pks, r, r');
    TwoRowsCount(pks, r, r');
  }
}
