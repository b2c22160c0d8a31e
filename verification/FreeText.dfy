/** The B.2 free-text hook: one bounded pool of values per (column, seed, similarity), built by at
    most one LLM call and cached, and the blend of that pool with the observed one. */
module FreeText {
  import opened Options
  import opened Reals
  import opened Collections
  import Stages
  import Rounding

  /** One JSON response: a dict with a list under "values" (its items as text), another dict (its
      string fields), a bare string, or anything else. */
  datatype Response = Values(items: seq<string>) | Echo(fields: seq<string>) | Bare(text: string) | Other

  /** What the client does when it is called. */
  datatype Reply = Raises | Replies(responses: seq<Response>)

  datatype Key = Key(column: string, seed: Option<int>, similarity: int)

  /** `(profile.name, cfg.seed, round(cfg.similarity, 4))`; the rounded number in ten-thousandths. */
  function KeyOf(column: string, seed: Option<int>, similarity: real): Key {
    Key(column, seed, Rounding.HalfEven(similarity * 10000.0))
  }

  // ---------------------------------------------------------------- building a pool

  function TextsOf(r: Response): seq<string> {
    match r
    case Values(items) => items
    case Echo(fields) => fields
    case Bare(text) => [text]
    case Other => []
  }

  function AllTexts(rs: seq<Response>): seq<string> {
    if rs == [] then [] else AllTexts(rs[..|rs| - 1]) + TextsOf(rs[|rs| - 1])
  }

  function NonEmpty(ss: seq<string>): (r: seq<string>)
    ensures forall s :: s in r <==> s in ss && s != ""
  {
    if ss == [] then []
    else
      assert ss == [ss[0]] + ss[1..];
      (if ss[0] == "" then [] else [ss[0]]) + NonEmpty(ss[1..])
  }

  /** The non-empty texts, in order. */
  lemma {:induction false} NonEmptyPlaces(ss: seq<string>) returns (at: seq<nat>)
    ensures Selects(ss, at, NonEmpty(ss))
    ensures forall q: nat :: q in at <==> q < |ss| && ss[q] != ""
  {
    at := [];
    if ss != [] {
      var n := |ss| - 1;
      at := NonEmptyPlaces(ss[..n]);
      NonEmptyLast(ss);
      SelectsLater(ss[..n], at, NonEmpty(ss[..n]), ss[n]);
      assert ss == ss[..n] + [ss[n]];
      if ss[n] != "" {
        at := at + [n];
      }
    }
  }

  lemma {:induction false} NonEmptyLast(ss: seq<string>)
    requires ss != []
    ensures var n := |ss| - 1; NonEmpty(ss) == NonEmpty(ss[..n]) + (if ss[n] == "" then [] else [ss[n]])
  {
    var n := |ss| - 1;
    if n > 0 {
      NonEmptyLast(ss[1..]);
      assert ss[1..][..n - 1] == ss[..n][1..];
    } else {
      assert ss[1..] == [];
    }
  }

  /** The texts of the responses one after the other. */
  lemma {:induction false} AllTextsParts(a: seq<Response>, b: seq<Response>)
    ensures AllTexts(a + b) == AllTexts(a) + AllTexts(b)
  {
    if b == [] {
      assert a + b == a;
      assert AllTexts(a) + [] == AllTexts(a);
    } else {
      var n := |b| - 1;
      AllTextsParts(a, b[..n]);
      LastResponse(a, b);
      Associates(AllTexts(a), AllTexts(b[..n]), TextsOf(b[n]));
    }
  }

  lemma {:induction false} LastResponse(a: seq<Response>, b: seq<Response>)
    requires b != []
    ensures var n := |b| - 1; AllTexts(a + b) == AllTexts(a + b[..n]) + TextsOf(b[n])
  {
    var n := |b| - 1;
    assert (a + b)[..|a + b| - 1] == a + b[..n];
  }

  lemma {:induction false} Associates(a: seq<string>, b: seq<string>, c: seq<string>)
    ensures a + b + c == a + (b + c)
  {
  }

  lemma {:induction false} OneResponse(r: Response)
    ensures AllTexts([r]) == TextsOf(r)
  {
    assert [r][..0] == [];
    assert [] + TextsOf(r) == TextsOf(r);
  }

  method ExtractValues(responses: seq<Response>) returns (values: seq<string>)
    ensures values == NonEmpty(AllTexts(responses))
  {
    var out: seq<string> := [];
    for i := 0 to |responses|
      invariant out == AllTexts(responses[..i])
    {
      assert responses[..i + 1][..i] == responses[..i];
      match responses[i] {
        case Values(items) => out := out + items;
        case Echo(fields) => out := out + fields;
        case Bare(text) => out := out + [text];
        case Other =>
      }
    }
    assert responses[..|responses|] == responses;
    return NonEmpty(out);
  }

  function Take(ss: seq<string>, n: nat): seq<string> { if n < |ss| then ss[..n] else ss }

  function GeneratedPool(textPool: seq<string>, poolSize: nat, reply: Reply): seq<string> {
    var exemplars := Take(textPool, poolSize);
    match reply
    case Raises => exemplars
    case Replies(responses) =>
      var merged := Dedupe(NonEmpty(AllTexts(responses)) + exemplars);
      if merged != [] then Take(merged, poolSize) else exemplars
  }

  /** A pool is bounded and never empty when the column has an observed text and the bound is not
      zero, whatever the client does; when the client answers it has no repeats. */
  lemma {:induction false} PoolFacts(textPool: seq<string>, poolSize: nat, reply: Reply)
    ensures var pool := GeneratedPool(textPool, poolSize, reply);
            && |pool| <= poolSize
            && (textPool != [] && poolSize > 0 ==> pool != [])
            && (NoDuplicates(textPool) ==> NoDuplicates(pool))
  {
    var exemplars := Take(textPool, poolSize);
    if reply.Replies? {
      var all := NonEmpty(AllTexts(reply.responses)) + exemplars;
      DedupeFacts(all);
      if exemplars != [] {
        assert exemplars[0] in all;
      }
    }
  }

  lemma {:induction false} TakeIsPrefix(ss: seq<string>, n: nat)
    ensures Take(ss, n) == ss[..if n < |ss| then n else |ss|]
  {
  }

  /** When the client answers, the pool is its non-empty values and then the observed exemplars, each
      once and in order, as many as the bound allows. */
  lemma {:induction false} PoolPlaces(textPool: seq<string>, poolSize: nat, responses: seq<Response>) returns (at: seq<nat>)
    ensures var all := NonEmpty(AllTexts(responses)) + textPool[..if poolSize < |textPool| then poolSize else |textPool|];
            var pool := GeneratedPool(textPool, poolSize, Replies(responses));
            && Selects(all, at, pool)
            && (forall q :: q in at ==> all[q] !in all[..q])
            && (forall q: nat :: q < |all| && all[q] !in all[..q] && q !in at ==>
                  |pool| == poolSize && forall k :: 0 <= k < |at| ==> at[k] < q)
  {
    var all := NonEmpty(AllTexts(responses)) + Take(textPool, poolSize);
    TakeIsPrefix(textPool, poolSize);
    if all != [] {
      FirstIsFirst(all);
    }
    at := FirstSome(all, if poolSize < |Dedupe(all)| then poolSize else |Dedupe(all)|);
  }

  /** When the client fails, the pool is the first exemplars. */
  lemma {:induction false} PoolWithoutReply(textPool: seq<string>, poolSize: nat)
    ensures var pool := GeneratedPool(textPool, poolSize, Raises);
            pool <= textPool && |pool| == if poolSize < |textPool| then poolSize else |textPool|
  {
  }

  // ---------------------------------------------------------------- the cache

  datatype Request = Request(key: Key, textPool: seq<string>, reply: Reply)

  /** The cache and the number of client calls made so far. */
  datatype HookState = HookState(cache: map<Key, seq<string>>, calls: nat)

  function Lookup(st: HookState, poolSize: nat, req: Request): (HookState, seq<string>) {
    if req.key in st.cache then (st, st.cache[req.key])
    else
      var pool := GeneratedPool(req.textPool, poolSize, req.reply);
      (HookState(st.cache[req.key := pool], st.calls + 1), pool)
  }

  class FreeTextHook {
    const poolSize: nat
    var cache: map<Key, seq<string>>
    ghost var calls: nat

    ghost function State(): HookState
      reads this
    {
      HookState(cache, calls)
    }

    constructor (poolSize: nat)
      ensures this.poolSize == poolSize && State() == HookState(map[], 0)
    {
      this.poolSize := poolSize;
      cache := map[];
      calls := 0;
    }

    method PoolFor(column: string, textPool: seq<string>, seed: Option<int>, similarity: real, reply: Reply)
      returns (pool: seq<string>)
      modifies this
      ensures (State(), pool) == Lookup(old(State()), poolSize, Request(KeyOf(column, seed, similarity), textPool, reply))
    {
      var key := KeyOf(column, seed, similarity);
      if key in cache {
        return cache[key];
      }
      calls := calls + 1;
      var exemplars := Take(textPool, poolSize);
      if reply.Raises? {
        pool := exemplars;
      } else {
        var values := ExtractValues(reply.responses);
        var merged := DedupeStable(values + exemplars);
        pool := if merged != [] then Take(merged, poolSize) else exemplars;
      }
      assert pool == GeneratedPool(textPool, poolSize, reply);
      cache := cache[key := pool];
    }
  }

  /** The state after a run of requests, and the pool each request was given. */
  function Run(poolSize: nat, reqs: seq<Request>): (HookState, seq<seq<string>>) {
    if reqs == [] then (HookState(map[], 0), [])
    else
      var n := |reqs| - 1;
      var (st, pools) := Run(poolSize, reqs[..n]);
      var (st', pool) := Lookup(st, poolSize, reqs[n]);
      (st', pools + [pool])
  }

  function KeysOf(reqs: seq<Request>): (ks: seq<Key>)
    ensures |ks| == |reqs| && forall i :: 0 <= i < |reqs| ==> ks[i] == reqs[i].key
  {
    seq(|reqs|, i requires 0 <= i < |reqs| => reqs[i].key)
  }

  lemma {:induction false} RunStep(poolSize: nat, reqs: seq<Request>)
    requires reqs != []
    ensures var n := |reqs| - 1;
            var before := Run(poolSize, reqs[..n]);
            var last := Lookup(before.0, poolSize, reqs[n]);
            Run(poolSize, reqs) == (last.0, before.1 + [last.1])
    ensures KeysOf(reqs) == KeysOf(reqs[..|reqs| - 1]) + [reqs[|reqs| - 1].key]
  {
  }

  /** Over any run: one client call per distinct key, and every request is answered with the pool
      that the first request of its key got. */
  lemma {:induction false} RunFacts(poolSize: nat, reqs: seq<Request>)
    ensures var (st, pools) := Run(poolSize, reqs);
            && st.calls == |Dedupe(KeysOf(reqs))| == |st.cache|
            && (forall k :: k in st.cache <==> k in KeysOf(reqs))
            && |pools| == |reqs|
            && (forall i :: 0 <= i < |reqs| ==> reqs[i].key in st.cache && pools[i] == st.cache[reqs[i].key])
  {
    if reqs != [] {
      var n := |reqs| - 1;
      RunFacts(poolSize, reqs[..n]);
      RunStep(poolSize, reqs);
      var ks := KeysOf(reqs);
      assert ks[..n] == KeysOf(reqs[..n]);
      DedupeFacts(ks[..n]);
      assert reqs[n].key in Run(poolSize, reqs[..n]).0.cache <==> reqs[n].key in Dedupe(ks[..n]);
    }
  }

  /** Two requests of one run with the same key get the same pool. */
  lemma {:induction false} PoolStable(poolSize: nat, reqs: seq<Request>, i: nat, j: nat)
    requires i < |reqs| && j < |reqs| && reqs[i].key == reqs[j].key
    ensures |Run(poolSize, reqs).1| == |reqs| && Run(poolSize, reqs).1[i] == Run(poolSize, reqs).1[j]
  {
    RunFacts(poolSize, reqs);
  }

  // ---------------------------------------------------------------- LLM cost of a worker's run

  function BatchKeys(cols: seq<string>, seed: Option<int>, similarity: real): (ks: seq<Key>)
    ensures |ks| == |cols| && forall i :: 0 <= i < |cols| ==> ks[i] == KeyOf(cols[i], seed, similarity)
  {
    seq(|cols|, i requires 0 <= i < |cols| => KeyOf(cols[i], seed, similarity))
  }

  /** The keys asked for by a worker that handles these batches, free-text column by column. */
  function RunKeys(cols: seq<string>, base: Option<int>, similarity: real, batches: seq<int>): seq<Key> {
    if batches == [] then []
    else
      var n := |batches| - 1;
      RunKeys(cols, base, similarity, batches[..n]) + BatchKeys(cols, Stages.BatchSeed(base, batches[n]), similarity)
  }

  lemma {:induction false} RunKeysSeeds(cols: seq<string>, base: int, similarity: real, batches: seq<int>, k: Key)
    returns (b: int)
    requires k in RunKeys(cols, Some(base), similarity, batches)
    ensures b in batches && k.seed == Some(base + b)
  {
    var n := |batches| - 1;
    if k in RunKeys(cols, Some(base), similarity, batches[..n]) {
      b := RunKeysSeeds(cols, base, similarity, batches[..n], k);
    } else {
      b := batches[n];
    }
  }

  lemma {:induction false} SeededKeysDistinct(cols: seq<string>, base: int, similarity: real, batches: seq<int>)
    requires NoDuplicates(cols) && NoDuplicates(batches)
    ensures NoDuplicates(RunKeys(cols, Some(base), similarity, batches))
    ensures |RunKeys(cols, Some(base), similarity, batches)| == |cols| * |batches|
  {
    if batches != [] {
      var n := |batches| - 1;
      SeededKeysDistinct(cols, base, similarity, batches[..n]);
      var before := RunKeys(cols, Some(base), similarity, batches[..n]);
      var last := BatchKeys(cols, Some(base + batches[n]), similarity);
      forall k | k in before
        ensures k !in last
      {
        var b := RunKeysSeeds(cols, base, similarity, batches[..n], k);
      }
      JoinDistinct(before, last);
      assert |cols| * (n + 1) == |cols| * n + |cols|;
    }
  }

  lemma {:induction false} JoinDistinct(a: seq<Key>, b: seq<Key>)
    requires NoDuplicates(a) && NoDuplicates(b) && forall k :: k in a ==> k !in b
    ensures NoDuplicates(a + b)
  {
    forall i, j | 0 <= i < j < |a + b|
      ensures (a + b)[i] != (a + b)[j]
    {
      if i < |a| <= j {
        assert a[i] in a && b[j - |a|] in b;
      }
    }
  }

  lemma {:induction false} DedupeDistinct(ks: seq<Key>)
    requires NoDuplicates(ks)
    ensures Dedupe(ks) == ks
  {
    if ks != [] {
      var n := |ks| - 1;
      DedupeDistinct(ks[..n]);
      assert ks == ks[..n] + [ks[n]];
    }
  }

  lemma {:induction false} DedupeRepeats(a: seq<Key>, b: seq<Key>)
    requires forall k :: k in b ==> k in a
    ensures Dedupe(a + b) == Dedupe(a)
  {
    if b == [] {
      assert a + b == a;
    } else {
      var n := |b| - 1;
      assert b == b[..n] + [b[n]];
      DedupeRepeats(a, b[..n]);
      assert (a + b)[..|a + b| - 1] == a + b[..n];
      DedupeFacts(a);
    }
  }

  lemma {:induction false} UnseededKeys(cols: seq<string>, similarity: real, batches: seq<int>)
    requires NoDuplicates(cols) && batches != []
    ensures Dedupe(RunKeys(cols, None, similarity, batches)) == BatchKeys(cols, None, similarity)
  {
    var n := |batches| - 1;
    var last := BatchKeys(cols, None, similarity);
    var before := RunKeys(cols, None, similarity, batches[..n]);
    assert RunKeys(cols, None, similarity, batches) == before + last;
    if n == 0 {
      assert before + last == last;
      DedupeDistinct(last);
    } else {
      UnseededKeys(cols, similarity, batches[..n]);
      DedupeFacts(before);
      DedupeRepeats(before, last);
    }
  }

  /** Requests share a key when column, seed and similarity agree, and never when the column or the seed
      differ or the similarities are more than a ten-thousandth apart. */
  lemma {:induction false} KeysMean(c: string, c': string, s: Option<int>, s': Option<int>, x: real, y: real)
    ensures c == c' && s == s' && x == y ==> KeyOf(c, s, x) == KeyOf(c', s', y)
    ensures KeyOf(c, s, x) == KeyOf(c', s', y) ==> c == c' && s == s' && x - y <= 0.0001 && y - x <= 0.0001
  {
    Rounding.HalfEvenFacts(x * 10000.0, y * 10000.0);
    Rounding.HalfEvenFacts(y * 10000.0, x * 10000.0);
  }

  /** The LLM cost of a worker's run: one call per free-text column without a seed, one per column
      and batch with one, because every batch then has its own seed. */
  lemma {:induction false} LlmCost(poolSize: nat, reqs: seq<Request>, cols: seq<string>, base: Option<int>, similarity: real, batches: seq<int>)
    requires NoDuplicates(cols) && NoDuplicates(batches)
    requires KeysOf(reqs) == RunKeys(cols, base, similarity, batches)
    ensures Run(poolSize, reqs).0.calls
            == if batches == [] then 0 else if base.None? then |cols| else |cols| * |batches|
  {
    RunFacts(poolSize, reqs);
    if batches == [] {
    } else if base.None? {
      UnseededKeys(cols, similarity, batches);
    } else {
      SeededKeysDistinct(cols, base.value, similarity, batches);
      DedupeDistinct(RunKeys(cols, base, similarity, batches));
    }
  }

  // ---------------------------------------------------------------- blending

  function ClampUnit(x: real): (s: real)
    ensures 0.0 <= s <= 1.0
  {
    var y := if x > 0.0 then x else 0.0;
    if y < 1.0 then y else 1.0
  }

  function CountRef(xs: seq<string>, ref: seq<string>): (n: nat)
    ensures n <= |xs|
  {
    if xs == [] then 0 else (if xs[0] in ref then 1 else 0) + CountRef(xs[1..], ref)
  }

  /** `a` for the members of the reference pool, `b` for the others. */
  function Weights(xs: seq<string>, ref: seq<string>, a: real, b: real): (ws: seq<real>)
    ensures |ws| == |xs| && forall i :: 0 <= i < |xs| ==> ws[i] == if xs[i] in ref then a else b
  {
    if xs == [] then [] else [if xs[0] in ref then a else b] + Weights(xs[1..], ref, a, b)
  }

  function DivideAll(ws: seq<real>, t: real): (r: seq<real>)
    requires t != 0.0
    ensures |r| == |ws| && forall i :: 0 <= i < |ws| ==> r[i] == ws[i] / t
  {
    if ws == [] then [] else [ws[0] / t] + DivideAll(ws[1..], t)
  }

  /** The share of the reference pool, after the degenerate cases. */
  function RefShare(llm: seq<string>, ref: seq<string>, similarity: real): (s: real)
    ensures 0.0 <= s <= 1.0
  {
    if llm == [] then 1.0 else if ref == [] then 0.0 else ClampUnit(similarity)
  }

  function RawWeights(llm: seq<string>, ref: seq<string>, similarity: real): (ws: seq<real>) {
    var combined := Dedupe(ref + llm);
    var s := RefShare(llm, ref, similarity);
    var nRef := CountRef(combined, ref);
    var nLlm := |combined| - nRef;
    Weights(combined, ref, if nRef > 0 then s / nRef as real else 0.0, if nLlm > 0 then (1.0 - s) / nLlm as real else 0.0)
  }

  function Blend(llm: seq<string>, ref: seq<string>, similarity: real): (r: (seq<string>, seq<real>)) {
    var combined := Dedupe(ref + llm);
    if combined == [] then ([], [])
    else
      var raw := RawWeights(llm, ref, similarity);
      var total := Sum(raw);
      (combined, if total <= 0.0 then seq(|combined|, _ => 1.0 / |combined| as real) else DivideAll(raw, total))
  }

  method BlendPools(llm: seq<string>, ref: seq<string>, similarity: real) returns (combined: seq<string>, probs: seq<real>)
    ensures (combined, probs) == Blend(llm, ref, similarity)
  {
    var s := ClampUnit(similarity);
    combined := DedupeStable(ref + llm);
    if combined == [] {
      return [], [];
    }
    if ref == [] {
      s := 0.0;
    }
    if llm == [] {
      s := 1.0;
    }
    assert s == RefShare(llm, ref, similarity);
    var nRef := CountRef(combined, ref);
    var nLlm := |combined| - nRef;
    var a := new real[|combined|](_ => 0.0);
    for i := 0 to |combined|
      invariant forall j :: 0 <= j < i ==> a[j] == RawWeights(llm, ref, similarity)[j]
    {
      if combined[i] in ref {
        a[i] := if nRef > 0 then s / nRef as real else 0.0;
      } else {
        a[i] := if nLlm > 0 then (1.0 - s) / nLlm as real else 0.0;
      }
    }
    assert a[..] == RawWeights(llm, ref, similarity);
    var total := Sum(a[..]);
    probs := if total <= 0.0 then seq(|combined|, _ => 1.0 / |combined| as real) else DivideAll(a[..], total);
  }

  /** The total weight on the members of the reference pool. */
  function RefMass(xs: seq<string>, ws: seq<real>, ref: seq<string>): real
    requires |xs| == |ws|
  {
    if xs == [] then 0.0 else (if xs[0] in ref then ws[0] else 0.0) + RefMass(xs[1..], ws[1..], ref)
  }

  lemma {:induction false} OneMore(n: nat, a: real)
    ensures Product((n + 1) as real, a) == Product(n as real, a) + a
  {
  }

  lemma {:induction false} WeightsSum(xs: seq<string>, ref: seq<string>, a: real, b: real)
    ensures Sum(Weights(xs, ref, a, b)) == Product(CountRef(xs, ref) as real, a) + Product((|xs| - CountRef(xs, ref)) as real, b)
    ensures RefMass(xs, Weights(xs, ref, a, b), ref) == Product(CountRef(xs, ref) as real, a)
  {
    if xs == [] {
    } else {
      WeightsSum(xs[1..], ref, a, b);
      assert Weights(xs, ref, a, b)[1..] == Weights(xs[1..], ref, a, b);
      var n := CountRef(xs[1..], ref);
      OneMore(n, a);
      OneMore(|xs[1..]| - n, b);
    }
  }

  lemma {:induction false} DivideSum(xs: seq<string>, ws: seq<real>, t: real, ref: seq<string>)
    requires t > 0.0 && |xs| == |ws|
    ensures Sum(DivideAll(ws, t)) == Sum(ws) / t
    ensures RefMass(xs, DivideAll(ws, t), ref) == RefMass(xs, ws, ref) / t
  {
    if ws == [] {
      assert Product(Quotient(0.0, t), t) == 0.0;
    } else {
      DivideSum(xs[1..], ws[1..], t, ref);
      assert DivideAll(ws, t)[1..] == DivideAll(ws[1..], t);
      QuotientSum(ws[0], Sum(ws[1..]), t);
      QuotientSum(ws[0], RefMass(xs[1..], ws[1..], ref), t);
      QuotientSum(0.0, RefMass(xs[1..], ws[1..], ref), t);
      assert Product(Quotient(0.0, t), t) == 0.0;
    }
  }

  lemma {:induction false} CountRefFacts(xs: seq<string>, ref: seq<string>)
    ensures CountRef(xs, ref) > 0 <==> exists v :: v in xs && v in ref
    ensures CountRef(xs, ref) < |xs| <==> exists v :: v in xs && v !in ref
  {
    if xs != [] {
      CountRefFacts(xs[1..], ref);
      assert xs == [xs[0]] + xs[1..];
      assert xs[0] in xs;
    }
  }

  lemma {:induction false} ShareSum(s: real, n: nat)
    requires n > 0
    ensures Product(n as real, s / n as real) == s
    ensures s >= 0.0 ==> s / n as real >= 0.0
  {
    var q := Quotient(s, n as real);
    assert Product(q, n as real) == s;
  }

  lemma {:induction false} DivideByOne(x: real)
    ensures x / 1.0 == x
  {
  }

  lemma {:induction false} UniformSum(xs: seq<string>, w: real, ref: seq<string>)
    requires forall v :: v in xs ==> v in ref
    ensures var ws := seq(|xs|, _ => w);
            Sum(ws) == Product(|xs| as real, w) && RefMass(xs, ws, ref) == Product(|xs| as real, w)
  {
    var ws := seq(|xs|, _ => w);
    if xs != [] {
      UniformSum(xs[1..], w, ref);
      assert ws[1..] == seq(|xs[1..]|, _ => w);
      OneMore(|xs[1..]|, w);
      assert xs[0] in xs;
    }
  }

  lemma {:induction false} PoolCounts(llm: seq<string>, ref: seq<string>)
    requires llm != [] || ref != []
    ensures var combined := Dedupe(ref + llm);
            && combined != []
            && (CountRef(combined, ref) > 0 <==> ref != [])
            && (CountRef(combined, ref) < |combined| ==> llm != [])
  {
    var all := ref + llm;
    var combined := Dedupe(all);
    DedupeFacts(all);
    CountRefFacts(combined, ref);
    assert all[0] in combined;
    if ref != [] {
      assert ref[0] in all && ref[0] in combined;
    }
    if llm == [] {
      assert all == ref;
    }
  }

  /** The sum of the weights before they are divided by it. */
  lemma {:induction false} RawFacts(llm: seq<string>, ref: seq<string>, similarity: real)
    requires llm != [] || ref != []
    ensures var combined := Dedupe(ref + llm);
            var raw := RawWeights(llm, ref, similarity);
            var novel := CountRef(combined, ref) < |combined|;
            && combined != [] && |raw| == |combined|
            && (forall i :: 0 <= i < |raw| ==> raw[i] >= 0.0)
            && Sum(raw) == (if novel then 1.0 else RefShare(llm, ref, similarity))
            && RefMass(combined, raw, ref) == (if ref == [] then 0.0 else RefShare(llm, ref, similarity))
  {
    var combined := Dedupe(ref + llm);
    var s := RefShare(llm, ref, similarity);
    var nRef := CountRef(combined, ref);
    var nLlm := |combined| - nRef;
    PoolCounts(llm, ref);
    if nRef > 0 {
      ShareSum(s, nRef);
    }
    if nLlm > 0 {
      ShareSum(1.0 - s, nLlm);
    }
    var a := if nRef > 0 then s / nRef as real else 0.0;
    var b := if nLlm > 0 then (1.0 - s) / nLlm as real else 0.0;
    assert Product(nRef as real, a) == if nRef > 0 then s else 0.0;
    assert Product(nLlm as real, b) == if nLlm > 0 then 1.0 - s else 0.0;
    WeightsSum(combined, ref, a, b);
  }

  /** Dividing by a positive sum, or falling back to equal weights when the sum is zero. */
  lemma {:induction false} NormalisedFacts(llm: seq<string>, ref: seq<string>, similarity: real)
    requires llm != [] || ref != []
    ensures var (combined, probs) := Blend(llm, ref, similarity);
            var novel := CountRef(combined, ref) < |combined|;
            && |probs| == |combined| && (forall i :: 0 <= i < |probs| ==> probs[i] >= 0.0)
            && Sum(probs) == 1.0
            && RefMass(combined, probs, ref)
               == if ref == [] then 0.0 else if novel then RefShare(llm, ref, similarity) else 1.0
  {
    var combined := Dedupe(ref + llm);
    var raw := RawWeights(llm, ref, similarity);
    var total := Sum(raw);
    RawFacts(llm, ref, similarity);
    if total <= 0.0 {
      CountRefFacts(combined, ref);
      ShareSum(1.0, |combined|);
      UniformSum(combined, 1.0 / |combined| as real, ref);
    } else {
      DivideSum(combined, raw, total, ref);
      DividedSigns(raw, total);
      QuotientSelf(total);
      ZeroQuotient(total);
      DivideByOne(RefMass(combined, raw, ref));
    }
  }

  /** The blend is a probability distribution over the distinct values of both pools, in every
      degenerate case; the reference pool's mass is the clamped similarity when both pools own a
      value, and all of it or none otherwise. */
  lemma {:induction false} BlendFacts(llm: seq<string>, ref: seq<string>, similarity: real)
    requires llm != [] || ref != []
    ensures var (combined, probs) := Blend(llm, ref, similarity);
            && NoDuplicates(combined) && (forall v :: v in combined <==> v in ref || v in llm)
            && |probs| == |combined| && (forall i :: 0 <= i < |probs| ==> probs[i] >= 0.0)
            && Sum(probs) == 1.0
            && RefMass(combined, probs, ref)
               == if ref == [] then 0.0 else if exists v :: v in llm && v !in ref then ClampUnit(similarity) else 1.0
  {
    DedupeFacts(ref + llm);
    CountRefFacts(Dedupe(ref + llm), ref);
    NormalisedFacts(llm, ref, similarity);
    assert (exists v :: v in llm && v !in ref) <==> (exists v :: v in Dedupe(ref + llm) && v !in ref);
  }

  /** Within each pool the mass is spread evenly. */
  lemma {:induction false} BlendEven(llm: seq<string>, ref: seq<string>, similarity: real, i: nat, j: nat)
    requires i < |Blend(llm, ref, similarity).0| && j < |Blend(llm, ref, similarity).0|
    ensures var (combined, probs) := Blend(llm, ref, similarity);
            |probs| == |combined| && ((combined[i] in ref <==> combined[j] in ref) ==> probs[i] == probs[j])
  {
  }

  lemma {:induction false} ZeroQuotient(t: real)
    requires t > 0.0
    ensures 0.0 / t == 0.0
  {
    assert Product(Quotient(0.0, t), t) == 0.0;
  }

  lemma {:induction false} DividedSigns(ws: seq<real>, t: real)
    requires t > 0.0 && forall i :: 0 <= i < |ws| ==> ws[i] >= 0.0
    ensures forall i :: 0 <= i < |ws| ==> DivideAll(ws, t)[i] >= 0.0
  {
    forall i | 0 <= i < |ws|
      ensures DivideAll(ws, t)[i] >= 0.0
    {
      ZeroQuotient(t);
      QuotientOrder(0.0, ws[i], t);
    }
  }
}
