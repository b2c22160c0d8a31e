/** `build_run_summary` and the BLOCKER gate, over the counts of a pipeline run. */
module RunSummary {
  import opened Options
  import opened Reals
  import opened Collections
  import opened Stages
  import opened Pipeline

  datatype Status = PASSED | FAILED_BLOCKER

  datatype Summary = Summary(validCount: nat, dlqCount: nat, blockerCount: nat, ratio: real, observed: real, status: Status)

  /** One row of the rule table: a rule id and how many dead letters carry it. */
  datatype RuleCount = RuleCount(rule: string, count: nat)

  predicate IsBlocker(rule: string) { rule in {"schema.types", "null.required", "pk.duplicate"} }

  function SumAll(table: seq<RuleCount>): nat { if table == [] then 0 else table[0].count + SumAll(table[1..]) }

  function SumBlockers(table: seq<RuleCount>): nat {
    if table == [] then 0 else (if IsBlocker(table[0].rule) then table[0].count else 0) + SumBlockers(table[1..])
  }

  function ObservedRatio(blockers: nat, total: nat): real {
    if total == 0 then 0.0 else blockers as real / total as real
  }

  function BuildRunSummary(validCount: nat, table: seq<RuleCount>, ratio: real): Summary {
    var dlqCount := SumAll(table);
    var blockers := SumBlockers(table);
    var observed := ObservedRatio(blockers, validCount + dlqCount);
    Summary(validCount, dlqCount, blockers, ratio, observed, if observed > ratio then FAILED_BLOCKER else PASSED)
  }

  datatype GateOutcome = Continues | RaisesBlocker

  /** `evaluate_blocker_gate`, and `_BlockerGateDoFn.process` on the summary's row. */
  function Gate(s: Summary): GateOutcome { if s.status == FAILED_BLOCKER then RaisesBlocker else Continues }

  // ---------------------------------------------------------------- the rule table of a run

  function Rules(table: seq<RuleCount>): (rs: seq<string>)
    ensures |rs| == |table| && forall i :: 0 <= i < |table| ==> rs[i] == table[i].rule
  {
    seq(|table|, i requires 0 <= i < |table| => table[i].rule)
  }

  /** A table that grouping the dead letters by rule id can produce, its rows in any order. */
  predicate IsRuleTable(table: seq<RuleCount>, dlq: seq<DlqEntry>) {
    && NoDuplicates(Rules(table))
    && (forall i :: 0 <= i < |table| ==> table[i].count == Count(RuleIds(dlq), table[i].rule))
    && (forall i :: 0 <= i < |dlq| ==> dlq[i].ruleId in Rules(table))
  }

  lemma {:induction false} SumAllIsCounts(table: seq<RuleCount>, ids: seq<string>)
    requires forall i :: 0 <= i < |table| ==> table[i].count == Count(ids, table[i].rule)
    ensures SumAll(table) == SumCounts(Rules(table), ids)
  {
    if table != [] {
      SumAllIsCounts(table[1..], ids);
      assert Rules(table)[1..] == Rules(table[1..]);
    }
  }

  lemma {:induction false} SumBlockersIsCount(table: seq<RuleCount>, ids: seq<string>)
    requires NoDuplicates(Rules(table))
    requires forall i :: 0 <= i < |table| ==> table[i].count == Count(ids, table[i].rule)
    requires Count(ids, "null.required") == 0 && Count(ids, "pk.duplicate") == 0
    ensures SumBlockers(table) == if "schema.types" in Rules(table) then Count(ids, "schema.types") else 0
  {
    if table != [] {
      var rest := table[1..];
      assert Rules(table)[1..] == Rules(rest);
      assert Rules(table) == [table[0].rule] + Rules(rest);
      assert table[0].rule !in Rules(rest);
      SumBlockersIsCount(rest, ids);
    }
  }

  /** Whatever the order of the dead letters and of the table: the table's total is their number,
      and its blockers are the records the model rejected. */
  lemma {:induction false} TableCounts(st: State, table: seq<RuleCount>)
    requires Accounted(st) && IsRuleTable(table, st.dlq)
    ensures SumAll(table) == |st.dlq| && SumBlockers(table) == |st.rejected|
  {
    var ids := RuleIds(st.dlq);
    forall id | id in ids
      ensures id in Rules(table) && id in {"schema.types", "engine_failure", "schema.batch"}
    {
      var i :| 0 <= i < |ids| && ids[i] == id;
      assert st.dlq[i].ruleId == id;
    }
    CountIn(ids, "null.required");
    CountIn(ids, "pk.duplicate");
    CountIn(ids, "schema.types");
    SumAllIsCounts(table, ids);
    SumCountsTotal(Rules(table), ids);
    SumBlockersIsCount(table, ids);
  }

  lemma {:induction false} RatioExceeds(blockers: nat, total: nat, ratio: real)
    requires 0.0 <= ratio && blockers <= total
    ensures ObservedRatio(blockers, total) > ratio <==> blockers as real > Product(ratio, total as real)
  {
    if total > 0 {
      var t := total as real;
      var q := Quotient(blockers as real, t);
      assert Product(q - ratio, t) == blockers as real - Product(ratio, t);
    }
  }

  lemma {:induction false} ObservedMeans(blockers: nat, total: nat)
    requires blockers <= total
    ensures Product(ObservedRatio(blockers, total), total as real) == blockers as real
  {
    if total > 0 {
      assert Product(Quotient(blockers as real, total as real), total as real) == blockers as real;
    }
  }

  lemma {:induction false} GateOverState(st: State, table: seq<RuleCount>, ratio: real)
    requires Accounted(st) && IsRuleTable(table, st.dlq) && 0.0 <= ratio <= 1.0
    ensures var s := BuildRunSummary(|st.landing|, table, ratio);
            && s.dlqCount == |st.dlq| && s.blockerCount == |st.rejected| <= |st.dlq|
            && Product(s.observed, (|st.landing| + |st.dlq|) as real) == |st.rejected| as real
            && (Gate(s) == RaisesBlocker <==>
                  |st.rejected| as real > Product(ratio, (|st.landing| + |st.dlq|) as real))
  {
    TableCounts(st, table);
    CountAtMost(RuleIds(st.dlq), "schema.types");
    ObservedMeans(|st.rejected|, |st.landing| + |st.dlq|);
    RatioExceeds(|st.rejected|, |st.landing| + |st.dlq|, ratio);
  }

  /** In every run, whatever the order of its dead letters, the summary counts the landed rows, the
      dead letters and the records the model rejected, and the gate fires exactly when the rejected
      ones are more than the threshold's share of all rows. */
  lemma {:induction false} GateOverRuns(numRows: int, batchSize: int, steps: seq<Step>, accepts: Record -> bool, st: State,
                     table: seq<RuleCount>, ratio: real)
    requires batchSize >= 1 && 0.0 <= ratio <= 1.0
    requires Execute(Start(numRows, batchSize), steps, accepts) == Some(st) && IsRuleTable(table, st.dlq)
    ensures var s := BuildRunSummary(|st.landing|, table, ratio);
            && s.validCount == |st.landing| && s.dlqCount == |st.dlq| && s.blockerCount == |st.rejected| <= |st.dlq|
            && Product(s.observed, (|st.landing| + |st.dlq|) as real) == |st.rejected| as real
            && (Gate(s) == RaisesBlocker <==>
                  |st.rejected| as real > Product(ratio, (|st.landing| + |st.dlq|) as real))
  {
    RunInvariants(numRows, batchSize, steps, accepts);
    GateOverState(st, table, ratio);
  }

  lemma {:induction false} CountAtMost(ids: seq<string>, id: string)
    ensures Count(ids, id) <= |ids|
  {
    if ids != [] {
      CountAtMost(ids[1..], id);
    }
  }

  /** The configured BLOCKER rule for duplicated keys never fires: no run emits that rule id, and a
      run goes through the gate when the model rejected nothing, as when it accepts every record the
      engine yielded, however many rows share a key. */
  lemma {:induction false} DuplicatesNeverBlock(numRows: int, batchSize: int, steps: seq<Step>, accepts: Record -> bool, st: State,
                             table: seq<RuleCount>, ratio: real)
    requires batchSize >= 1 && 0.0 <= ratio <= 1.0
    requires Execute(Start(numRows, batchSize), steps, accepts) == Some(st) && IsRuleTable(table, st.dlq)
    ensures Count(RuleIds(st.dlq), "pk.duplicate") == 0
    ensures st.rejected == multiset{} ==> Gate(BuildRunSummary(|st.landing|, table, ratio)) == Continues
    ensures (forall r :: r in st.yielded ==> accepts(r)) ==> st.rejected == multiset{}
  {
    RunInvariants(numRows, batchSize, steps, accepts);
    NoSuchRule(st);
    GateOverState(st, table, ratio);
    ProductOrder(0.0, ratio, 1.0);
    assert Product(ratio, (|st.landing| + |st.dlq|) as real) >= 0.0;
    AcceptedNotRejected(st, accepts);
  }

  lemma {:induction false} AcceptedNotRejected(st: State, accepts: Record -> bool)
    requires Conserved(st) && Screened(st, accepts) && RejectedAreDead(st)
    ensures (forall r :: r in st.yielded ==> accepts(r)) ==> st.rejected == multiset{}
  {
    forall r | r in st.rejected
      ensures r in st.yielded
    {
      assert r in DeadRecords(st.dlq);
    }
    assert st.rejected == multiset{} || exists r :: r in st.rejected;
  }

  /** The check of a batch of two rows that flags both. */
  function CheckPairStep(r: Record, r': Record): Step { CheckBatch([r, r'], Fails(IndexColumn([Index(0), Index(1)]))) }

  /** The run of one request whose two rows are both flagged and dead-lettered. */
  function DuplicatePair(r: Record, r': Record): seq<Step> {
    [Generate(0, EngineRun([r, r'], false))] + ([Validate(r)] + [Validate(r')] + [CheckPairStep(r, r')])
  }

  lemma {:induction false} NoSuchRule(st: State)
    requires Accounted(st)
    ensures Count(RuleIds(st.dlq), "pk.duplicate") == 0
  {
    CountIn(RuleIds(st.dlq), "pk.duplicate");
  }

  lemma {:induction false} OnlyRequest()
    ensures Requests(2, 2, 0) == [Request(0, 2)]
  {
    assert Requests(2, 2, 0) == [Request(0, 2)] + Requests(0, 2, 1);
  }

  lemma {:induction false} PairNamed()
    ensures IndicesOf([Index(0), Index(1)]) == {0, 1}
  {
    var cells := [Index(0), Index(1)];
    assert cells[0] in cells && cells[1] in cells;
  }

  lemma {:induction false} PairDropped(r: Record, r': Record)
    ensures var check := Fails(IndexColumn([Index(0), Index(1)]));
            Dropped(check, 2) == {0, 1} && LandedOf([r, r'], check) == [] && RejectedOf([r, r'], check) == [r, r']
  {
    PairNamed();
    PickedAll([r, r'], {0, 1});
  }

  lemma {:induction false} AcceptOne(st: State, r: Record, accepts: Record -> bool)
    requires accepts(r) && r in st.generated
    ensures Execute(st, [Validate(r)], accepts)
            == Some(st.(generated := st.generated - multiset{r}, passed := st.passed + multiset{r}))
  {
    assert [Validate(r)] + [] == [Validate(r)];
    StepThenRun(st, Validate(r), [], accepts);
  }

  lemma {:induction false} AcceptPair(st: State, r: Record, r': Record, accepts: Record -> bool)
    requires accepts(r) && accepts(r') && st.generated == multiset{r} + multiset{r'} && st.passed == multiset{}
    ensures Execute(st, [Validate(r)] + [Validate(r')], accepts)
            == Some(st.(generated := multiset{}, passed := multiset{r} + multiset{r'}))
  {
    AcceptOne(st, r, accepts);
    var middle := Execute(st, [Validate(r)], accepts).value;
    PairWithout(r, r');
    OneWithout(r);
    OneWithout(r');
    AcceptOne(middle, r', accepts);
    ExecuteAppend(st, [Validate(r)], [Validate(r')], accepts);
  }

  lemma {:induction false} PairWithout(r: Record, r': Record)
    ensures multiset{r} + multiset{r'} - multiset{r} == multiset{r'}
  {
  }

  lemma {:induction false} OneWithout(r: Record)
    ensures multiset{r} - multiset{r} == multiset{} && multiset{} + multiset{r} == multiset{r}
  {
  }

  lemma {:induction false} PairIsMultiset(r: Record, r': Record)
    ensures multiset([r, r']) == multiset{r} + multiset{r'}
  {
    assert [r, r'] == [r] + [r'];
  }

  lemma {:induction false} CheckedPair(st: State, r: Record, r': Record, accepts: Record -> bool)
    requires st.passed == multiset([r, r']) && st.dlq == []
    ensures var check := CheckPairStep(r, r');
            Enabled(st, check) &&
            Next(st, check, accepts)
            == st.(passed := multiset{}, dlq := BatchFailures([r, r']), batchesChecked := st.batchesChecked + 1)
  {
    PairDropped(r, r');
    assert st.landing + [] == st.landing && [] + BatchFailures([r, r']) == BatchFailures([r, r']);
    SelfMinus(st.passed);
  }

  lemma {:induction false} SelfMinus(m: multiset<Record>)
    ensures m - m == multiset{}
  {
  }

  lemma {:induction false} CheckPair(st: State, r: Record, r': Record, accepts: Record -> bool)
    requires st.passed == multiset{r} + multiset{r'} && st.dlq == []
    ensures Execute(st, [CheckPairStep(r, r')], accepts)
            == Some(st.(passed := multiset{}, dlq := BatchFailures([r, r']), batchesChecked := st.batchesChecked + 1))
  {
    PairIsMultiset(r, r');
    CheckedPair(st, r, r', accepts);
    assert [CheckPairStep(r, r')] + [] == [CheckPairStep(r, r')];
    StepThenRun(st, CheckPairStep(r, r'), [], accepts);
  }

  lemma {:induction false} GeneratePair(r: Record, r': Record, accepts: Record -> bool)
    ensures var st := Start(2, 2);
            var step := Generate(0, EngineRun([r, r'], false));
            Enabled(st, step) &&
            Next(st, step, accepts) == st.(pending := [], generated := multiset{r} + multiset{r'}, yielded := multiset{r} + multiset{r'})
  {
    OnlyRequest();
    PairIsMultiset(r, r');
    assert [Request(0, 2)][..0] + [Request(0, 2)][1..] == [];
    assert multiset{} + (multiset{r} + multiset{r'}) == multiset{r} + multiset{r'};
  }

  lemma {:induction false} DuplicatePairRun(r: Record, r': Record, accepts: Record -> bool)
    requires accepts(r) && accepts(r')
    ensures var run := Execute(Start(2, 2), DuplicatePair(r, r'), accepts);
            run.Some? && Finished(run.value) && run.value.landing == [] && run.value.dlq == BatchFailures([r, r'])
  {
    var st, generate := Start(2, 2), Generate(0, EngineRun([r, r'], false));
    var accept, check := [Validate(r)] + [Validate(r')], [CheckPairStep(r, r')];
    GeneratePair(r, r', accepts);
    var st1 := Next(st, generate, accepts);
    AcceptPair(st1, r, r', accepts);
    CheckPair(Execute(st1, accept, accepts).value, r, r', accepts);
    ExecuteAppend(st1, accept, check, accepts);
    StepThenRun(st, generate, accept + check, accepts);
  }

  lemma {:induction false} NoBlockersPass(n: nat)
    requires n > 0
    ensures ObservedRatio(0, n) == 0.0
  {
    assert Product(Quotient(0.0, n as real), n as real) == 0.0;
  }

  lemma {:induction false} PairTable(r: Record, r': Record)
    ensures var table := [RuleCount("schema.batch", 2)];
            IsRuleTable(table, BatchFailures([r, r'])) && SumAll(table) == 2 && SumBlockers(table) == 0
  {
    var table := [RuleCount("schema.batch", 2)];
    var ids := RuleIds(BatchFailures([r, r']));
    CountOfBatch([r, r'], "schema.batch");
    assert Rules(table)[0] == "schema.batch";
    assert table[1..] == [];
  }

  /** A duplicated key passes the gate even when no failure at all is tolerated: both rows are dead
      letters of the rule `schema.batch`, nothing lands, and the run goes on. */
  lemma {:induction false} DuplicatesPassTheGate(pks: seq<string>, r: Record, r': Record, accepts: Record -> bool)
    requires accepts(r) && accepts(r') && KeyOf(pks, r) == KeyOf(pks, r')
    ensures FlagsDuplicates(pks, [r, r'], Fails(IndexColumn([Index(0), Index(1)])))
    ensures var run := Execute(Start(2, 2), DuplicatePair(r, r'), accepts);
            var table := [RuleCount("schema.batch", 2)];
            && run.Some? && Finished(run.value) && run.value.landing == []
            && IsRuleTable(table, run.value.dlq)
            && Gate(BuildRunSummary(0, table, 0.0)) == Continues
  {
    DuplicatePairRun(r, r', accepts);
    PairDropped(r, r');
    PairTable(r, r');
    NoBlockersPass(2);
  }

  // ---------------------------------------------------------------- monotonicity

  /** More rows without blockers never fail a run that passed; more blockers never save one that
      failed. */
  lemma {:induction false} GateMonotone(blockers: nat, others: nat, moreOthers: nat, moreBlockers: nat, ratio: real)
    requires 0.0 <= ratio <= 1.0
    ensures ObservedRatio(blockers, blockers + others) <= ratio ==>
              ObservedRatio(blockers, blockers + others + moreOthers) <= ratio
    ensures ObservedRatio(blockers, blockers + others) > ratio ==>
              ObservedRatio(blockers + moreBlockers, blockers + others + moreBlockers) > ratio
  {
    MoreRows(blockers, blockers + others, moreOthers, ratio);
    MoreBlockers(blockers, blockers + others, moreBlockers, ratio);
  }

  lemma {:induction false} MoreRows(blockers: nat, total: nat, more: nat, ratio: real)
    requires 0.0 <= ratio <= 1.0 && blockers <= total
    ensures ObservedRatio(blockers, total) <= ratio ==> ObservedRatio(blockers, total + more) <= ratio
  {
    RatioExceeds(blockers, total, ratio);
    RatioExceeds(blockers, total + more, ratio);
    assert Product(ratio, total as real + more as real) == Product(ratio, total as real) + Product(ratio, more as real);
  }

  lemma {:induction false} MoreBlockers(blockers: nat, total: nat, more: nat, ratio: real)
    requires 0.0 <= ratio <= 1.0 && blockers <= total
    ensures ObservedRatio(blockers, total) > ratio ==> ObservedRatio(blockers + more, total + more) > ratio
  {
    RatioExceeds(blockers, total, ratio);
    RatioExceeds(blockers + more, total + more, ratio);
    var b := more as real;
    assert Product(ratio, total as real + b) == Product(ratio, total as real) + Product(ratio, b);
    assert Product(1.0 - ratio, b) == b - Product(ratio, b);
  }
}
