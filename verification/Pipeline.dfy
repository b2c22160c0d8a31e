/** Whole pipeline runs as a step system: any engine behaviour, any interleaving of the stages, any
    batching. Each step applies one of the stages to inputs that are waiting for it. */
module Pipeline {
  import opened Options
  import opened Collections
  import opened Stages

  /** What waits where, what has come out, and the history needed to say what must have come out. */
  datatype State = State(
    pending: seq<Request>,
    generated: multiset<Record>,
    passed: multiset<Record>,
    landing: seq<Record>,
    dlq: seq<DlqEntry>,
    yielded: multiset<Record>,
    rejected: multiset<Record>,
    failedRequests: nat,
    batchesChecked: nat)

  datatype Step =
    | Generate(i: nat, run: EngineRun)
    | Validate(record: Record)
    | CheckBatch(batch: seq<Record>, check: BatchCheck)

  function Start(numRows: int, batchSize: int): State
    requires batchSize >= 1
  {
    State(Requests(numRows, batchSize, 0), multiset{}, multiset{}, [], [], multiset{}, multiset{}, 0, 0)
  }

  /** An engine may yield fewer records than asked for, never more. */
  predicate Enabled(st: State, step: Step) {
    match step
    case Generate(i, run) => i < |st.pending| && |run.records| <= st.pending[i].n
    case Validate(record) => record in st.generated
    case CheckBatch(batch, _) => batch != [] && multiset(batch) <= st.passed
  }

  function Next(st: State, step: Step, accepts: Record -> bool): State
    requires Enabled(st, step)
  {
    match step
    case Generate(i, run) =>
      st.(pending := st.pending[..i] + st.pending[i + 1..],
          generated := st.generated + multiset(run.records),
          yielded := st.yielded + multiset(run.records),
          dlq := st.dlq + (if run.raises then [EngineFailure(st.pending[i])] else []),
          failedRequests := st.failedRequests + (if run.raises then 1 else 0))
    case Validate(record) =>
      var rest := st.generated - multiset{record};
      if accepts(record) then st.(generated := rest, passed := st.passed + multiset{record})
      else st.(generated := rest, rejected := st.rejected + multiset{record}, dlq := st.dlq + [TypeFailure(record)])
    case CheckBatch(batch, check) =>
      st.(passed := st.passed - multiset(batch),
          landing := st.landing + LandedOf(batch, check),
          dlq := st.dlq + BatchFailures(RejectedOf(batch, check)),
          batchesChecked := st.batchesChecked + 1)
  }

  /** The same step, taken by the DoFns themselves. */
  method TakeStep(st: State, step: Step, generate: GenerateRecordsDoFn, validate: ValidateRecordDoFn, check: PanderaValidateBatchDoFn)
    returns (next: State)
    requires Enabled(st, step)
    modifies generate, validate, check
    ensures next == Next(st, step, validate.accepts)
    ensures CountersMoved(st, next, generate.yielded - old(generate.yielded), generate.failed - old(generate.failed),
                          validate.invalid - old(validate.invalid), check.valid - old(check.valid), check.invalid - old(check.invalid))
  {
    match step {
      case Generate(i, run) =>
        var _, main, failures := generate.Process(st.pending[i], run);
        next := AfterGenerate(st, i, main, failures);
        GenerateCounts(st, i, run, validate.accepts);
      case Validate(record) =>
        var main, invalid := validate.Process(record);
        next := AfterValidate(st, record, main, invalid);
        ValidateCounts(st, record, validate.accepts);
      case CheckBatch(batch, verdict) =>
        var main, invalid := check.Process(batch, verdict);
        next := AfterCheck(st, batch, main, invalid);
        CheckCounts(st, batch, verdict, validate.accepts);
    }
  }

  function AfterGenerate(st: State, i: nat, main: seq<Record>, failures: seq<DlqEntry>): State
    requires i < |st.pending|
  {
    st.(pending := st.pending[..i] + st.pending[i + 1..],
        generated := st.generated + multiset(main),
        yielded := st.yielded + multiset(main),
        dlq := st.dlq + failures,
        failedRequests := st.failedRequests + |failures|)
  }

  function AfterCheck(st: State, batch: seq<Record>, main: seq<Record>, invalid: seq<DlqEntry>): State {
    st.(passed := st.passed - multiset(batch),
        landing := st.landing + main,
        dlq := st.dlq + invalid,
        batchesChecked := st.batchesChecked + 1)
  }

  lemma {:induction false} GenerateCounts(st: State, i: nat, run: EngineRun, accepts: Record -> bool)
    requires Enabled(st, Generate(i, run))
    ensures var failures := if run.raises then [EngineFailure(st.pending[i])] else [];
            var next := AfterGenerate(st, i, run.records, failures);
            next == Next(st, Generate(i, run), accepts) && CountersMoved(st, next, |run.records|, |failures|, 0, 0, 0)
  {
  }

  lemma {:induction false} CheckCounts(st: State, batch: seq<Record>, check: BatchCheck, accepts: Record -> bool)
    requires Enabled(st, CheckBatch(batch, check))
    ensures var main, invalid := LandedOf(batch, check), BatchFailures(RejectedOf(batch, check));
            var next := AfterCheck(st, batch, main, invalid);
            next == Next(st, CheckBatch(batch, check), accepts) && CountersMoved(st, next, 0, 0, 0, |main|, |invalid|)
  {
  }

  function AfterValidate(st: State, record: Record, main: seq<Record>, invalid: seq<DlqEntry>): State {
    st.(generated := st.generated - multiset{record},
        passed := st.passed + multiset(main),
        rejected := st.rejected + (if main == [] then multiset{record} else multiset{}),
        dlq := st.dlq + invalid)
  }

  lemma {:induction false} ValidateCounts(st: State, record: Record, accepts: Record -> bool)
    requires record in st.generated
    ensures var main := if accepts(record) then [record] else [];
            var invalid := if accepts(record) then [] else [TypeFailure(record)];
            var next := AfterValidate(st, record, main, invalid);
            next == Next(st, Validate(record), accepts) && CountersMoved(st, next, 0, 0, |invalid|, 0, 0)
  {
    assert multiset([record]) == multiset{record};
    assert st.dlq + [] == st.dlq;
  }

  /** The DoFns' counters move with what a step yields, fails, rejects and lands; every dead letter
      is counted once. */
  predicate CountersMoved(st: State, next: State, yielded: int, failed: int, refused: int, landed: int, dropped: int) {
    && |next.yielded| == |st.yielded| + yielded
    && next.failedRequests == st.failedRequests + failed
    && |next.rejected| == |st.rejected| + refused
    && |next.landing| == |st.landing| + landed
    && |next.dlq| == |st.dlq| + failed + refused + dropped
  }

  /** The state after a run of steps, if each was enabled when it was taken. */
  function Execute(st: State, steps: seq<Step>, accepts: Record -> bool): Option<State> {
    if steps == [] then Some(st)
    else
      var n := |steps| - 1;
      match Execute(st, steps[..n], accepts)
      case None => None
      case Some(before) => if Enabled(before, steps[n]) then Some(Next(before, steps[n], accepts)) else None
  }

  /** Nothing is waiting any more. */
  predicate Finished(st: State) { st.pending == [] && st.generated == multiset{} && st.passed == multiset{} }

  // ---------------------------------------------------------------- dead letters

  function DeadRecords(dlq: seq<DlqEntry>): multiset<Record> {
    if dlq == [] then multiset{}
    else DeadRecords(dlq[..|dlq| - 1]) + RecordOf(dlq[|dlq| - 1])
  }

  function RecordOf(e: DlqEntry): multiset<Record> {
    match e.payload
    case RawRecord(r) => multiset{r}
    case RawRequest(_) => multiset{}
  }

  lemma {:induction false} DeadRecordsAppend(a: seq<DlqEntry>, b: seq<DlqEntry>)
    ensures DeadRecords(a + b) == DeadRecords(a) + DeadRecords(b)
  {
    if b == [] {
      assert a + b == a;
    } else {
      var n := |b| - 1;
      assert (a + b)[..|a + b| - 1] == a + b[..n];
      DeadRecordsAppend(a, b[..n]);
    }
  }

  lemma {:induction false} DeadRecordsOfBatch(rs: seq<Record>)
    ensures DeadRecords(BatchFailures(rs)) == multiset(rs)
  {
    if rs != [] {
      var n := |rs| - 1;
      DeadRecordsOfBatch(rs[..n]);
      assert BatchFailures(rs)[..n] == BatchFailures(rs[..n]);
      assert rs == rs[..n] + [rs[n]];
    }
  }

  function RuleIds(dlq: seq<DlqEntry>): (ids: seq<string>)
    ensures |ids| == |dlq| && forall i :: 0 <= i < |dlq| ==> ids[i] == dlq[i].ruleId
  {
    seq(|dlq|, i requires 0 <= i < |dlq| => dlq[i].ruleId)
  }

  lemma {:induction false} RuleIdsAppend(a: seq<DlqEntry>, b: seq<DlqEntry>, id: string)
    ensures Count(RuleIds(a + b), id) == Count(RuleIds(a), id) + Count(RuleIds(b), id)
  {
    assert RuleIds(a + b) == RuleIds(a) + RuleIds(b);
    CountAppend(RuleIds(a), RuleIds(b), id);
  }

  lemma {:induction false} CountOfBatch(rs: seq<Record>, id: string)
    ensures Count(RuleIds(BatchFailures(rs)), id) == if id == "schema.batch" then |rs| else 0
  {
    var ids := RuleIds(BatchFailures(rs));
    if rs != [] {
      CountOfBatch(rs[1..], id);
      assert ids[1..] == RuleIds(BatchFailures(rs[1..]));
    }
  }

  // ---------------------------------------------------------------- invariants of every run

  /** No record is lost or duplicated: whatever was yielded is waiting, landed or dead. */
  predicate Conserved(st: State) {
    st.yielded == st.generated + st.passed + multiset(st.landing) + DeadRecords(st.dlq)
  }

  /** The dead letters are the failed requests, the rejected records and the rows of failed batches,
      under their own rule ids. */
  predicate Accounted(st: State) {
    && |st.yielded| + st.failedRequests == |st.generated| + |st.passed| + |st.landing| + |st.dlq|
    && Count(RuleIds(st.dlq), "schema.types") == |st.rejected|
    && Count(RuleIds(st.dlq), "engine_failure") == st.failedRequests
    && forall i :: 0 <= i < |st.dlq| ==> st.dlq[i].ruleId in {"schema.types", "engine_failure", "schema.batch"}
  }

  /** The engine has not yielded more rows than the requests taken so far asked for. */
  predicate Bounded(st: State, numRows: int, batchSize: int)
    requires batchSize >= 1
  {
    var rs := Requests(numRows, batchSize, 0);
    && |st.yielded| + RowsAsked(st.pending) <= RowsAsked(rs)
    && st.failedRequests + |st.pending| <= |rs|
  }

  /** Only records the model accepts go on or land, and every rejected one was refused by it. */
  predicate Screened(st: State, accepts: Record -> bool) {
    && (forall r :: r in st.passed ==> accepts(r))
    && (forall r :: r in st.landing ==> accepts(r))
    && (forall r :: r in st.rejected ==> !accepts(r))
  }

  lemma {:induction false} RowsAskedSplit(a: seq<Request>, b: seq<Request>)
    ensures RowsAsked(a + b) == RowsAsked(a) + RowsAsked(b)
  {
    if a == [] {
      assert a + b == b;
    } else {
      assert (a + b)[1..] == a[1..] + b;
      RowsAskedSplit(a[1..], b);
    }
  }

  lemma {:induction false} RowsAskedWithout(rs: seq<Request>, i: nat)
    requires i < |rs|
    ensures RowsAsked(rs) == RowsAsked(rs[..i] + rs[i + 1..]) + rs[i].n
  {
    RowsAskedSplit(rs[..i], rs[i + 1..]);
    RowsAskedSplit(rs[..i], rs[i..]);
    assert rs == rs[..i] + rs[i..];
    assert rs[i..][1..] == rs[i + 1..];
  }

  /** What one step adds to the dead letters. */
  function NewLetters(st: State, step: Step, accepts: Record -> bool): seq<DlqEntry>
    requires Enabled(st, step)
  {
    match step
    case Generate(i, run) => if run.raises then [EngineFailure(st.pending[i])] else []
    case Validate(record) => if accepts(record) then [] else [TypeFailure(record)]
    case CheckBatch(batch, check) => BatchFailures(RejectedOf(batch, check))
  }

  lemma {:induction false} LettersAdded(st: State, step: Step, accepts: Record -> bool)
    requires Enabled(st, step)
    ensures Next(st, step, accepts).dlq == st.dlq + NewLetters(st, step, accepts)
  {
  }

  lemma {:induction false} NewLettersRecords(st: State, step: Step, accepts: Record -> bool)
    requires Enabled(st, step)
    ensures DeadRecords(NewLetters(st, step, accepts)) ==
              match step
              case Generate(_, _) => multiset{}
              case Validate(record) => if accepts(record) then multiset{} else multiset{record}
              case CheckBatch(batch, check) => multiset(RejectedOf(batch, check))
  {
    match step
    case Generate(i, run) =>
    case Validate(record) => assert [TypeFailure(record)][..0] == [];
    case CheckBatch(batch, check) => DeadRecordsOfBatch(RejectedOf(batch, check));
  }

  lemma {:induction false} ConservedGenerate(st: State, i: nat, run: EngineRun, accepts: Record -> bool)
    requires Enabled(st, Generate(i, run)) && Conserved(st)
    requires DeadRecords(Next(st, Generate(i, run), accepts).dlq) == DeadRecords(st.dlq)
    ensures Conserved(Next(st, Generate(i, run), accepts))
  {
  }

  lemma {:induction false} ConservedValidate(st: State, record: Record, accepts: Record -> bool)
    requires Enabled(st, Validate(record)) && Conserved(st)
    requires DeadRecords(Next(st, Validate(record), accepts).dlq)
             == DeadRecords(st.dlq) + (if accepts(record) then multiset{} else multiset{record})
    ensures Conserved(Next(st, Validate(record), accepts))
  {
    PassesOn(st.generated, st.passed, multiset(st.landing), DeadRecords(st.dlq), record);
  }

  lemma {:induction false} PassesOn(generated: multiset<Record>, passed: multiset<Record>, landing: multiset<Record>,
                                    dead: multiset<Record>, record: Record)
    requires record in generated
    ensures var all, rest := generated + passed + landing + dead, generated - multiset{record};
            && all == rest + (passed + multiset{record}) + landing + dead
            && all == rest + passed + landing + (dead + multiset{record})
  {
    assert generated == (generated - multiset{record}) + multiset{record};
  }

  lemma {:induction false} ConservedCheck(st: State, batch: seq<Record>, check: BatchCheck, accepts: Record -> bool)
    requires Enabled(st, CheckBatch(batch, check)) && Conserved(st)
    requires DeadRecords(Next(st, CheckBatch(batch, check), accepts).dlq)
             == DeadRecords(st.dlq) + multiset(RejectedOf(batch, check))
    ensures Conserved(Next(st, CheckBatch(batch, check), accepts))
  {
    BatchSplit(batch, check);
    MovesOn(st.generated, st.passed, multiset(st.landing), DeadRecords(st.dlq), multiset(batch),
            multiset(LandedOf(batch, check)), multiset(RejectedOf(batch, check)));
    assert multiset(st.landing + LandedOf(batch, check)) == multiset(st.landing) + multiset(LandedOf(batch, check));
  }

  lemma {:induction false} MovesOn(generated: multiset<Record>, passed: multiset<Record>, landing: multiset<Record>,
                                   dead: multiset<Record>, batch: multiset<Record>, landed: multiset<Record>, bad: multiset<Record>)
    requires batch <= passed && landed + bad == batch
    ensures generated + passed + landing + dead == generated + (passed - batch) + (landing + landed) + (dead + bad)
  {
    assert passed == (passed - batch) + (landed + bad);
  }

  lemma {:induction false} ConservedStep(st: State, step: Step, accepts: Record -> bool)
    requires Enabled(st, step) && Conserved(st)
    ensures Conserved(Next(st, step, accepts))
  {
    LettersAdded(st, step, accepts);
    DeadRecordsAppend(st.dlq, NewLetters(st, step, accepts));
    NewLettersRecords(st, step, accepts);
    match step
    case Generate(i, run) => ConservedGenerate(st, i, run, accepts);
    case Validate(record) => ConservedValidate(st, record, accepts);
    case CheckBatch(batch, check) => ConservedCheck(st, batch, check, accepts);
  }

  lemma {:induction false} NewLettersRules(st: State, step: Step, accepts: Record -> bool)
    requires Enabled(st, step)
    ensures var ids := RuleIds(NewLetters(st, step, accepts));
            && Count(ids, "schema.types") == (if step.Validate? && !accepts(step.record) then 1 else 0)
            && Count(ids, "engine_failure") == (if step.Generate? && step.run.raises then 1 else 0)
  {
    match step
    case Generate(i, run) =>
      assert RuleIds(NewLetters(st, step, accepts)) == if run.raises then ["engine_failure"] else [];
    case Validate(record) =>
      assert RuleIds(NewLetters(st, step, accepts)) == if accepts(record) then [] else ["schema.types"];
    case CheckBatch(batch, check) =>
      CountOfBatch(RejectedOf(batch, check), "schema.types");
      CountOfBatch(RejectedOf(batch, check), "engine_failure");
  }

  lemma {:induction false} BatchSizes(batch: seq<Record>, check: BatchCheck)
    ensures |LandedOf(batch, check)| + |RejectedOf(batch, check)| == |batch|
  {
    BatchSplit(batch, check);
    assert |multiset(LandedOf(batch, check)) + multiset(RejectedOf(batch, check))| == |multiset(batch)|;
  }

  lemma {:induction false} AccountedStep(st: State, step: Step, accepts: Record -> bool)
    requires Enabled(st, step) && Accounted(st)
    ensures Accounted(Next(st, step, accepts))
  {
    LettersAdded(st, step, accepts);
    var more := NewLetters(st, step, accepts);
    NewLettersRules(st, step, accepts);
    RuleIdsAppend(st.dlq, more, "schema.types");
    RuleIdsAppend(st.dlq, more, "engine_failure");
    AccountedSizes(st, step, accepts);
  }

  /** What a step moves, in numbers. */
  lemma {:induction false} AccountedSizes(st: State, step: Step, accepts: Record -> bool)
    requires Enabled(st, step)
    ensures var next, more := Next(st, step, accepts), |NewLetters(st, step, accepts)|;
            && |next.dlq| == |st.dlq| + more
            && |next.yielded| - |st.yielded| + next.failedRequests - st.failedRequests
               == |next.generated| - |st.generated| + |next.passed| - |st.passed| + |next.landing| - |st.landing| + more
            && |next.rejected| == |st.rejected| + (if step.Validate? && !accepts(step.record) then 1 else 0)
            && next.failedRequests == st.failedRequests + (if step.Generate? && step.run.raises then 1 else 0)
  {
    if step.CheckBatch? {
      BatchSizes(step.batch, step.check);
    }
  }

  /** Every rejected record is a dead letter. */
  predicate RejectedAreDead(st: State) { st.rejected <= DeadRecords(st.dlq) }

  lemma {:induction false} RejectedStep(st: State, step: Step, accepts: Record -> bool)
    requires Enabled(st, step) && RejectedAreDead(st)
    ensures RejectedAreDead(Next(st, step, accepts))
  {
    LettersAdded(st, step, accepts);
    DeadRecordsAppend(st.dlq, NewLetters(st, step, accepts));
    NewLettersRecords(st, step, accepts);
  }

  lemma {:induction false} BoundedStep(st: State, step: Step, accepts: Record -> bool, numRows: int, batchSize: int)
    requires batchSize >= 1 && Enabled(st, step) && Bounded(st, numRows, batchSize)
    ensures Bounded(Next(st, step, accepts), numRows, batchSize)
  {
    if step.Generate? {
      RowsAskedWithout(st.pending, step.i);
    }
  }

  lemma {:induction false} PickedIn(batch: seq<Record>, places: set<int>, inside: bool)
    ensures forall r :: r in Picked(batch, places, inside) ==> r in batch
  {
    if batch != [] {
      PickedIn(batch[..|batch| - 1], places, inside);
      assert batch == batch[..|batch| - 1] + [batch[|batch| - 1]];
    }
  }

  lemma {:induction false} ScreenedStep(st: State, step: Step, accepts: Record -> bool)
    requires Enabled(st, step) && Screened(st, accepts)
    ensures Screened(Next(st, step, accepts), accepts)
  {
    if step.CheckBatch? {
      PickedIn(step.batch, Dropped(step.check, |step.batch|), false);
      assert forall r :: r in step.batch ==> r in multiset(step.batch);
    }
  }

  /** What every reachable state keeps. */
  lemma {:induction false} RunInvariants(numRows: int, batchSize: int, steps: seq<Step>, accepts: Record -> bool)
    requires batchSize >= 1 && Execute(Start(numRows, batchSize), steps, accepts).Some?
    ensures var st := Execute(Start(numRows, batchSize), steps, accepts).value;
            Conserved(st) && Accounted(st) && Bounded(st, numRows, batchSize) && Screened(st, accepts) && RejectedAreDead(st)
  {
    if steps != [] {
      var n := |steps| - 1;
      var before := RunMoves(Start(numRows, batchSize), steps, accepts);
      RunInvariants(numRows, batchSize, steps[..n], accepts);
      ConservedStep(before, steps[n], accepts);
      AccountedStep(before, steps[n], accepts);
      BoundedStep(before, steps[n], accepts, numRows, batchSize);
      ScreenedStep(before, steps[n], accepts);
      RejectedStep(before, steps[n], accepts);
    }
  }

  /** Conservation over every finished run: the yielded records are split exactly between landing
      and the dead letters; rows out are records yielded plus failed requests, and no more than the
      rows asked for plus one per request. */
  lemma {:induction false} RunConserves(numRows: int, batchSize: int, steps: seq<Step>, accepts: Record -> bool)
    requires batchSize >= 1 && Execute(Start(numRows, batchSize), steps, accepts).Some?
    requires Finished(Execute(Start(numRows, batchSize), steps, accepts).value)
    ensures var st := Execute(Start(numRows, batchSize), steps, accepts).value;
            var rows := if numRows > 0 then numRows else 0;
            && st.yielded == multiset(st.landing) + DeadRecords(st.dlq)
            && |st.landing| + |st.dlq| == |st.yielded| + st.failedRequests
            && (forall r :: r in st.landing ==> accepts(r))
            && exists m: nat :: Covers(m, batchSize, rows) && |st.landing| + |st.dlq| <= rows + m
  {
    RunInvariants(numRows, batchSize, steps, accepts);
    RequestFacts(numRows, batchSize, 0);
    assert Covers(|Requests(numRows, batchSize, 0)|, batchSize, if numRows > 0 then numRows else 0);
  }

  // ---------------------------------------------------------------- building runs

  lemma {:induction false} RunMoves(st: State, steps: seq<Step>, accepts: Record -> bool) returns (before: State)
    requires steps != [] && Execute(st, steps, accepts).Some?
    ensures var n := |steps| - 1;
            && Execute(st, steps[..n], accepts) == Some(before) && Enabled(before, steps[n])
            && Execute(st, steps, accepts).value == Next(before, steps[n], accepts)
  {
    before := Execute(st, steps[..|steps| - 1], accepts).value;
  }

  lemma {:induction false} ExecuteOneMore(st: State, steps: seq<Step>, step: Step, accepts: Record -> bool)
    ensures Execute(st, steps + [step], accepts)
            == match Execute(st, steps, accepts)
               case None => None
               case Some(before) => if Enabled(before, step) then Some(Next(before, step, accepts)) else None
  {
    assert (steps + [step])[..|steps|] == steps;
  }

  lemma {:induction false} ExecuteAppend(st: State, a: seq<Step>, b: seq<Step>, accepts: Record -> bool)
    ensures Execute(st, a + b, accepts)
            == match Execute(st, a, accepts)
               case None => None
               case Some(middle) => Execute(middle, b, accepts)
  {
    if b == [] {
      assert a + b == a;
    } else {
      var n := |b| - 1;
      ExecuteAppend(st, a, b[..n], accepts);
      ExecuteOneMore(st, a + b[..n], b[n], accepts);
      assert a + b == a + b[..n] + [b[n]];
    }
  }

  lemma {:induction false} StepThenRun(st: State, step: Step, rest: seq<Step>, accepts: Record -> bool)
    requires Enabled(st, step)
    ensures Execute(st, [step] + rest, accepts) == Execute(Next(st, step, accepts), rest, accepts)
  {
    ExecuteOneMore(st, [], step, accepts);
    assert [] + [step] == [step];
    ExecuteAppend(st, [step], rest, accepts);
  }

  /** A step that brings a state closer to its end. */
  lemma {:induction false} SomeWork(st: State) returns (step: Step)
    requires !Finished(st)
    ensures Enabled(st, step) && (step.Generate? ==> step.run == EngineRun([], false))
  {
    if st.pending != [] {
      step := Generate(0, EngineRun([], false));
    } else if r :| r in st.generated {
      step := Validate(r);
    } else {
      var r :| r in st.passed;
      step := CheckBatch([r], Passes);
    }
  }

  function Waiting(st: State): nat { |st.pending| + 2 * |st.generated| + |st.passed| }

  lemma {:induction false} WorkDone(st: State, step: Step, accepts: Record -> bool)
    requires Enabled(st, step) && (step.Generate? ==> step.run.records == [])
    ensures Waiting(Next(st, step, accepts)) < Waiting(st)
  {
    AccountedSizes(st, step, accepts);
  }

  /** Every state can be brought to an end: a run never gets stuck. */
  lemma {:induction false} CanFinish(st: State, accepts: Record -> bool) returns (steps: seq<Step>)
    ensures Execute(st, steps, accepts).Some? && Finished(Execute(st, steps, accepts).value)
    decreases Waiting(st)
  {
    steps := [];
    if !Finished(st) {
      var step := SomeWork(st);
      WorkDone(st, step, accepts);
      var rest := CanFinish(Next(st, step, accepts), accepts);
      StepThenRun(st, step, rest, accepts);
      steps := [step] + rest;
    }
  }

  /** Every run extends to a finished one. */
  lemma {:induction false} EveryRunCanFinish(numRows: int, batchSize: int, steps: seq<Step>, accepts: Record -> bool)
    returns (more: seq<Step>)
    requires batchSize >= 1 && Execute(Start(numRows, batchSize), steps, accepts).Some?
    ensures Execute(Start(numRows, batchSize), steps + more, accepts).Some?
    ensures Finished(Execute(Start(numRows, batchSize), steps + more, accepts).value)
  {
    more := CanFinish(Execute(Start(numRows, batchSize), steps, accepts).value, accepts);
    ExecuteAppend(Start(numRows, batchSize), steps, more, accepts);
  }
}
