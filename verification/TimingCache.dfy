/** Timings of queries cached by state: new measurements are rescaled to the cached ones, so that rewards along any path
    are differences of one potential. */
module TimingCache {
  import opened Ir

  datatype BenchmarkStatus = Completed | Error | Timeout

  datatype QueryBenchmark = QueryBenchmark(
    status: BenchmarkStatus,
    timings: seq<real>,
    batchTimings: seq<real>,
    median: Option<real>,
    deviation: Option<real>,
    fastest: Option<real>,
    slowest: Option<real>,
    rowCount: Option<nat>)

  datatype QueryResult = QueryResult(
    status: BenchmarkStatus,
    query: QueryBenchmark,
    confident: bool,
    confidenceReason: Option<string>,
    reason: Option<string>)

  datatype PairResult = PairResult(
    status: BenchmarkStatus,
    original: QueryBenchmark,
    rewritten: QueryBenchmark,
    speedup: Option<real>,
    rowCountsMatch: Option<bool>,
    confident: bool,
    confidenceReason: Option<string>,
    reason: Option<string>)

  /** The first text that is not empty. */
  function FirstText(a: Option<string>, b: Option<string>): Option<string> {
    if a.Some? && a.value != "" then a else b
  }

  // ----- rescaling

  function Scale(value: Option<real>, factor: real): Option<real> {
    if value.Some? then Some(value.value * factor) else None
  }

  function ScaleAll(values: seq<real>, factor: real): seq<real> {
    seq(|values|, i requires 0 <= i < |values| => values[i] * factor)
  }

  predicate PositiveMedian(r: QueryResult) {
    r.query.median.Some? && r.query.median.value > 0.0
  }

  predicate Rescalable(result: QueryResult, measuredAnchor: QueryResult, cachedAnchor: QueryResult) {
    && result.status.Completed? && measuredAnchor.status.Completed? && cachedAnchor.status.Completed?
    && PositiveMedian(measuredAnchor) && PositiveMedian(cachedAnchor)
  }

  /** The new measurement on the scale of the cached one; unchanged when some anchor is unusable. */
  function Normalize(result: QueryResult, measuredAnchor: QueryResult, cachedAnchor: QueryResult): QueryResult {
    if !Rescalable(result, measuredAnchor, cachedAnchor) then result
    else
      var factor := cachedAnchor.query.median.value / measuredAnchor.query.median.value;
      var q := result.query;
      QueryResult(result.status,
        QueryBenchmark(q.status, ScaleAll(q.timings, factor), ScaleAll(q.batchTimings, factor), Scale(q.median, factor),
          Scale(q.deviation, factor), Scale(q.fastest, factor), Scale(q.slowest, factor), q.rowCount),
        result.confident && measuredAnchor.confident && cachedAnchor.confident,
        FirstText(FirstText(result.confidenceReason, measuredAnchor.confidenceReason), cachedAnchor.confidenceReason),
        result.reason)
  }

  // ----- what rescaling does

  /** Multiplied by the factor, absent where it was absent. */
  predicate Scaled(before: Option<real>, after: Option<real>, factor: real) {
    (after.Some? <==> before.Some?) && (before.Some? ==> after.value == factor * before.value)
  }

  predicate AllScaled(before: seq<real>, after: seq<real>, factor: real) {
    |after| == |before| && forall i :: 0 <= i < |before| ==> after[i] == factor * before[i]
  }

  /** Every time multiplied by one factor, everything else as measured. */
  predicate TimesScaled(before: QueryResult, after: QueryResult, factor: real) {
    && after.status == before.status && after.reason == before.reason
    && after.query.status == before.query.status && after.query.rowCount == before.query.rowCount
    && AllScaled(before.query.timings, after.query.timings, factor)
    && AllScaled(before.query.batchTimings, after.query.batchTimings, factor)
    && Scaled(before.query.median, after.query.median, factor)
    && Scaled(before.query.deviation, after.query.deviation, factor)
    && Scaled(before.query.fastest, after.query.fastest, factor)
    && Scaled(before.query.slowest, after.query.slowest, factor)
  }

  predicate IsText(o: Option<string>) {
    o.Some? && |o.value| > 0
  }

  /** `after` is `result` on the scale that takes the measured anchor's median to the cached one, trusted when all three
      are; with an unusable anchor it is `result` itself. */
  ghost predicate Rescales(result: QueryResult, measured: QueryResult, cached: QueryResult, after: QueryResult) {
    if result.status == measured.status == cached.status == Completed
       && measured.query.median.Some? && measured.query.median.value > 0.0
       && cached.query.median.Some? && cached.query.median.value > 0.0
    then
      && (exists f: real ::
            f * measured.query.median.value == cached.query.median.value && TimesScaled(result, after, f))
      && (after.confident <==> result.confident && measured.confident && cached.confident)
      && (IsText(result.confidenceReason) ==> after.confidenceReason == result.confidenceReason)
      && (!IsText(result.confidenceReason) && IsText(measured.confidenceReason) ==>
            after.confidenceReason == measured.confidenceReason)
      && (!IsText(result.confidenceReason) && !IsText(measured.confidenceReason) ==>
            after.confidenceReason == cached.confidenceReason)
    else after == result
  }

  lemma NormalizeExact(result: QueryResult, measuredAnchor: QueryResult, cachedAnchor: QueryResult)
    ensures Rescales(result, measuredAnchor, cachedAnchor, Normalize(result, measuredAnchor, cachedAnchor))
  {
    var after := Normalize(result, measuredAnchor, cachedAnchor);
    if Rescalable(result, measuredAnchor, cachedAnchor) {
      var f := cachedAnchor.query.median.value / measuredAnchor.query.median.value;
      assert TimesScaled(result, after, f);
      assert f * measuredAnchor.query.median.value == cachedAnchor.query.median.value;
    }
  }

  lemma Quotient(a: real, b: real, c: real)
    requires b != 0.0 && c != 0.0
    ensures (a / b) * (b / c) == a / c
  {
    var x, y := a / b, b / c;
    assert x * b == a && y * c == b;
    assert (x * y) * c == x * (y * c);
  }

  /** The cached value of the new state stands to the cached anchor as the two were measured side by side. */
  lemma NormalizeKeepsRatio(result: QueryResult, measuredAnchor: QueryResult, cachedAnchor: QueryResult)
    requires Rescalable(result, measuredAnchor, cachedAnchor) && PositiveMedian(result)
    ensures var r := Normalize(result, measuredAnchor, cachedAnchor);
            && PositiveMedian(r)
            && r.query.median.value / cachedAnchor.query.median.value
               == result.query.median.value / measuredAnchor.query.median.value
  {
    var m, a, k := result.query.median.value, measuredAnchor.query.median.value, cachedAnchor.query.median.value;
    var f := k / a;
    assert f > 0.0 && f * a == k && m * f > 0.0;
    assert (m * f) * a == m * k;
    assert m * f / k == m / a by {
      CrossDivide(m * f, k, m, a);
    }
  }

  lemma CrossDivide(p: real, q: real, r: real, s: real)
    requires q != 0.0 && s != 0.0 && p * s == r * q
    ensures p / q == r / s
  {
    var x, y := p / q, r / s;
    assert x * q == p && y * s == r;
    assert (x * q) * s == (y * s) * q;
    assert (x - y) * (q * s) == 0.0;
  }

  // ----- the cache

  type Store = map<string, QueryResult>

  /** What the benchmark measures during one call, alone or side by side. */
  datatype Bench = Bench(alone: string -> QueryResult, pair: (string, string) -> (QueryResult, QueryResult))

  function QueryStore(store: Store, key: string, measured: QueryResult): Store {
    if key in store then store else store[key := measured]
  }

  /** The store after looking up or measuring a pair of different keys. */
  function PairStore(store: Store, a: string, b: string, measured: (QueryResult, QueryResult)): Store {
    if a in store && b in store then store
    else if a in store then store[b := Normalize(measured.1, measured.0, store[a])]
    else if b in store then store[a := Normalize(measured.0, measured.1, store[b])]
    else store[a := measured.0][b := measured.1]
  }

  class CachedPerformanceEvaluator {
    const key: string -> string
    const interleaved: bool
    var store: Store
    var hits: nat
    var misses: nat

    constructor (key: string -> string, interleaved: bool)
      ensures this.key == key && this.interleaved == interleaved && store == map[] && hits == 0 && misses == 0
    {
      this.key := key;
      this.interleaved := interleaved;
      store, hits, misses := map[], 0, 0;
    }

    method EvaluateQuery(sql: string, bench: Bench) returns (r: QueryResult)
      modifies this
      ensures store == QueryStore(old(store), key(sql), bench.alone(sql))
      ensures r == store[key(sql)]
      ensures hits == old(hits) + (if key(sql) in old(store) then 1 else 0)
      ensures hits + misses == old(hits) + old(misses) + 1
    {
      if key(sql) in store {
        hits := hits + 1;
        return store[key(sql)];
      }
      misses := misses + 1;
      r := bench.alone(sql);
      store := store[key(sql) := r];
    }

    method EvaluateQueryPair(originalSql: string, rewrittenSql: string, bench: Bench)
      returns (original: QueryResult, rewritten: QueryResult)
      modifies this
      ensures store == CallStore(key, interleaved, old(store), Call(originalSql, rewrittenSql, bench))
      ensures original == store[key(originalSql)] && rewritten == store[key(rewrittenSql)]
      ensures interleaved && key(originalSql) != key(rewrittenSql)
              && key(originalSql) !in old(store) && key(rewrittenSql) !in old(store) ==>
                && (original, rewritten) == bench.pair(originalSql, rewrittenSql)
                && store == old(store)[key(originalSql) := original][key(rewrittenSql) := rewritten]
      ensures Found(key, interleaved, old(store), Call(originalSql, rewrittenSql, bench), store)
      ensures hits == old(hits) + CallHits(key, interleaved, old(store), Call(originalSql, rewrittenSql, bench))
      ensures hits + misses == old(hits) + old(misses)
              + (if interleaved && key(originalSql) == key(rewrittenSql) then 1 else 2)
    {
      CallExact(key, interleaved, store, Call(originalSql, rewrittenSql, bench));
      if !interleaved {
        original := EvaluateQuery(originalSql, bench);
        rewritten := EvaluateQuery(rewrittenSql, bench);
        return;
      }
      var a, b := key(originalSql), key(rewrittenSql);
      if a == b {
        original := EvaluateQuery(originalSql, bench);
        return original, original;
      }
      var aCached, bCached := a in store, b in store;
      hits := hits + (if aCached then 1 else 0) + (if bCached then 1 else 0);
      misses := misses + (if aCached then 0 else 1) + (if bCached then 0 else 1);
      if aCached && bCached {
        return store[a], store[b];
      }
      var measured := bench.pair(originalSql, rewrittenSql);
      if aCached {
        original := store[a];
        rewritten := Normalize(measured.1, measured.0, original);
      } else if bCached {
        rewritten := store[b];
        original := Normalize(measured.0, measured.1, rewritten);
      } else {
        original, rewritten := measured.0, measured.1;
      }
      if !aCached {
        store := store[a := original];
      }
      if !bCached {
        store := store[b := rewritten];
      }
    }
  }

  // ----- runs of calls

  datatype Call = Call(original: string, rewritten: string, bench: Bench)

  function CallStore(key: string -> string, interleaved: bool, store: Store, call: Call): (r: Store)
    ensures key(call.original) in r && key(call.rewritten) in r
  {
    var a, b := key(call.original), key(call.rewritten);
    if !interleaved then
      QueryStore(QueryStore(store, a, call.bench.alone(call.original)), b, call.bench.alone(call.rewritten))
    else if a == b then QueryStore(store, a, call.bench.alone(call.original))
    else PairStore(store, a, b, call.bench.pair(call.original, call.rewritten))
  }

  /** How many of the lookups of a call find their key; measured alone, the first lookup can serve the second. */
  function CallHits(key: string -> string, interleaved: bool, store: Store, call: Call): nat {
    var a, b := key(call.original), key(call.rewritten);
    (if a in store then 1 else 0) +
      (if interleaved && a == b then 0 else if b in store || (!interleaved && a == b) then 1 else 0)
  }

  /** The store after a call: what was cached is as it was; a new key holds its measurement, taken alone unless two new
      states are measured side by side, and rescaled when only the other state was cached. */
  ghost predicate Found(key: string -> string, interleaved: bool, before: Store, call: Call, after: Store) {
    var a, b := key(call.original), key(call.rewritten);
    var (x, y) := call.bench.pair(call.original, call.rewritten);
    && after.Keys == before.Keys + {a, b}
    && (forall k :: k in before ==> after[k] == before[k])
    && (a !in before && (!interleaved || a == b) ==> after[a] == call.bench.alone(call.original))
    && (b !in before && !interleaved && a != b ==> after[b] == call.bench.alone(call.rewritten))
    && (interleaved && a != b && a !in before && b !in before ==> after[a] == x && after[b] == y)
    && (interleaved && a != b && a in before && b !in before ==> Rescales(y, x, before[a], after[b]))
    && (interleaved && a != b && a !in before && b in before ==> Rescales(x, y, before[b], after[a]))
  }

  lemma CallExact(key: string -> string, interleaved: bool, store: Store, call: Call)
    ensures Found(key, interleaved, store, call, CallStore(key, interleaved, store, call))
  {
    hide Normalize;
    hide Rescales;
    var a, b := key(call.original), key(call.rewritten);
    var (x, y) := call.bench.pair(call.original, call.rewritten);
    if a in store {
      NormalizeExact(y, x, store[a]);
    }
    if b in store {
      NormalizeExact(x, y, store[b]);
    }
  }

  /** Side by side every key is looked up once; alone, the first lookup serves the second when the keys are the same. */
  lemma HitsExact(key: string -> string, interleaved: bool, store: Store, call: Call)
    ensures var a, b := key(call.original), key(call.rewritten);
            CallHits(key, interleaved, store, call)
            == |{a, b} * store.Keys| + (if !interleaved && a == b then 1 else 0)
  {
    var a, b := key(call.original), key(call.rewritten);
    var found := {a, b} * store.Keys;
    if a in store && b in store {
      assert found == {a, b};
    } else if a in store {
      assert found == {a};
    } else if b in store {
      assert found == {b};
    } else {
      assert found == {};
    }
  }

  function RunStore(key: string -> string, interleaved: bool, store: Store, calls: seq<Call>): Store
    decreases |calls|
  {
    if calls == [] then store
    else CallStore(key, interleaved, RunStore(key, interleaved, store, calls[..|calls| - 1]), calls[|calls| - 1])
  }

  predicate Extends(later: Store, earlier: Store) {
    forall k :: k in earlier ==> k in later && later[k] == earlier[k]
  }

  lemma CallExtends(key: string -> string, interleaved: bool, store: Store, call: Call)
    ensures Extends(CallStore(key, interleaved, store, call), store)
  {
    hide Normalize;
  }

  /** No call overwrites a cached timing. */
  lemma {:induction false} NeverOverwritten(key: string -> string, interleaved: bool, store: Store, calls: seq<Call>,
    n: nat)
    requires n <= |calls|
    ensures Extends(RunStore(key, interleaved, store, calls), RunStore(key, interleaved, store, calls[..n]))
    decreases |calls|
  {
    hide CallStore;
    if n < |calls| {
      var before := calls[..|calls| - 1];
      assert before[..n] == calls[..n];
      NeverOverwritten(key, interleaved, store, before, n);
      CallExtends(key, interleaved, RunStore(key, interleaved, store, before), calls[|calls| - 1]);
    } else {
      assert calls[..n] == calls;
    }
  }

  /** Two new states measured side by side keep the measured ratio, and earn the measured speedup. */
  lemma FreshPairKeepsRatio(key: string -> string, store: Store, call: Call)
    requires key(call.original) != key(call.rewritten)
    requires key(call.original) !in store && key(call.rewritten) !in store
    requires var (x, y) := call.bench.pair(call.original, call.rewritten); PositiveMedian(x) && PositiveMedian(y)
    ensures var (x, y) := call.bench.pair(call.original, call.rewritten);
            var after := CallStore(key, true, store, call);
            var factor := RewardFactor(BenchmarkOf(after[key(call.original)], after[key(call.rewritten)]));
            && PositiveMedian(after[key(call.original)]) && PositiveMedian(after[key(call.rewritten)])
            && after[key(call.original)].query.median.value / after[key(call.rewritten)].query.median.value
               == x.query.median.value / y.query.median.value
            && (Usable(x) && Usable(y) ==> factor == x.query.median.value / y.query.median.value)
            && (!Usable(x) || !Usable(y) ==> factor == 1.0)
  {
    var (x, y) := call.bench.pair(call.original, call.rewritten);
    RewardedExactly(x, y);
  }

  /** A call that measures a new original next to a cached rewritten state keeps the measured ratio too. */
  lemma NewOriginalKeepsRatio(key: string -> string, store: Store, call: Call)
    requires var (x, y) := call.bench.pair(call.original, call.rewritten);
             && key(call.original) !in store && key(call.rewritten) in store
             && Rescalable(x, y, store[key(call.rewritten)]) && PositiveMedian(x)
    ensures var (x, y) := call.bench.pair(call.original, call.rewritten);
            var after := CallStore(key, true, store, call);
            && PositiveMedian(after[key(call.original)])
            && after[key(call.original)].query.median.value / after[key(call.rewritten)].query.median.value
               == x.query.median.value / y.query.median.value
  {
    var (x, y) := call.bench.pair(call.original, call.rewritten);
    NormalizeKeepsRatio(x, y, store[key(call.rewritten)]);
  }

  /** A call that measures one new state next to a cached one keeps the measured ratio. */
  lemma NewStateKeepsRatio(key: string -> string, store: Store, call: Call)
    requires var (x, y) := call.bench.pair(call.original, call.rewritten);
             && key(call.original) in store && key(call.rewritten) !in store
             && Rescalable(y, x, store[key(call.original)]) && PositiveMedian(y)
    ensures var (x, y) := call.bench.pair(call.original, call.rewritten);
            var after := CallStore(key, true, store, call);
            && PositiveMedian(after[key(call.rewritten)])
            && after[key(call.rewritten)].query.median.value / after[key(call.original)].query.median.value
               == y.query.median.value / x.query.median.value
  {
    var (x, y) := call.bench.pair(call.original, call.rewritten);
    NormalizeKeepsRatio(y, x, store[key(call.original)]);
  }

  // ----- rewards

  function BenchmarkOf(original: QueryResult, rewritten: QueryResult): PairResult {
    var a, b := original.query, rewritten.query;
    PairResult(
      if original.status.Completed? then rewritten.status else original.status,
      a, b,
      if a.median.Some? && b.median.Some? && b.median.value > 0.0 then Some(a.median.value / b.median.value) else None,
      if a.rowCount.Some? && b.rowCount.Some? then Some(a.rowCount == b.rowCount) else None,
      original.confident && rewritten.confident,
      FirstText(original.confidenceReason, rewritten.confidenceReason),
      FirstText(original.reason, rewritten.reason))
  }

  /** A benchmark of two states: the first failure is its status, and it is faster by how much less time the rewritten
      state takes. */
  lemma BenchmarkExact(original: QueryResult, rewritten: QueryResult)
    ensures var r := BenchmarkOf(original, rewritten);
            && (r.status.Completed? <==> original.status.Completed? && rewritten.status.Completed?)
            && (!original.status.Completed? ==> r.status == original.status)
            && (original.status.Completed? ==> r.status == rewritten.status)
            && (r.confident <==> original.confident && rewritten.confident)
            && (r.speedup.Some? <==> original.query.median.Some? && PositiveMedian(rewritten))
            && (r.speedup.Some? ==> r.speedup.value * rewritten.query.median.value == original.query.median.value)
            && (r.rowCountsMatch == Some(true) <==>
                  original.query.rowCount.Some? && original.query.rowCount == rewritten.query.rowCount)
            && (r.rowCountsMatch == Some(false) <==>
                  && original.query.rowCount.Some? && rewritten.query.rowCount.Some?
                  && original.query.rowCount.value != rewritten.query.rowCount.value)
  {
    var r := BenchmarkOf(original, rewritten);
    if r.speedup.Some? {
      var a, b := original.query.median.value, rewritten.query.median.value;
      assert (a / b) * b == a;
    }
  }

  /** A benchmark that earns a reward. */
  predicate Rewarded(b: PairResult) {
    b.status.Completed? && b.speedup.Some? && b.speedup.value > 0.0 && b.confident
  }

  /** The reward is the logarithm of this factor. */
  function RewardFactor(b: PairResult): real {
    if Rewarded(b) then b.speedup.value else 1.0
  }

  /** A timing that may enter a reward. */
  predicate Usable(r: QueryResult) {
    r.status.Completed? && r.confident && PositiveMedian(r)
  }

  /** Exactly the pairs of usable timings are rewarded, when medians are not negative. */
  lemma RewardedExactly(original: QueryResult, rewritten: QueryResult)
    requires original.query.median.Some? ==> original.query.median.value >= 0.0
    ensures Rewarded(BenchmarkOf(original, rewritten)) <==> Usable(original) && Usable(rewritten)
  {
    if original.query.median.Some? && PositiveMedian(rewritten) {
      var a, b := original.query.median.value, rewritten.query.median.value;
      assert (a / b) * b == a;
    }
  }

  /** The factor of one step along a path, as the call at that point returned it. */
  function StepFactor(key: string -> string, interleaved: bool, store: Store, calls: seq<Call>, i: nat): real
    requires i < |calls|
  {
    var after := RunStore(key, interleaved, store, calls[..i + 1]);
    assert calls[..i + 1][..i] == calls[..i] && calls[..i + 1][i] == calls[i];
    RewardFactor(BenchmarkOf(after[key(calls[i].original)], after[key(calls[i].rewritten)]))
  }

  /** A path: some of the calls, in order, each starting at the state where the one before it ended. */
  predicate IsPath(calls: seq<Call>, path: seq<nat>) {
    && (forall k :: 0 <= k < |path| ==> path[k] < |calls|)
    && forall k :: 0 <= k < |path| - 1 ==> calls[path[k]].rewritten == calls[path[k + 1]].original
  }

  function Product(fs: seq<real>): real {
    if fs == [] then 1.0 else Product(fs[..|fs| - 1]) * fs[|fs| - 1]
  }

  /** The exponential of the total reward along a path. */
  function PathFactor(key: string -> string, interleaved: bool, store: Store, calls: seq<Call>, path: seq<nat>): real
    requires IsPath(calls, path)
  {
    Product(seq(|path|, k requires 0 <= k < |path| => StepFactor(key, interleaved, store, calls, path[k])))
  }

  /** Quotients of neighbours multiply to the quotient of the ends. */
  lemma {:induction false} ProductTelescopes(fs: seq<real>, ms: seq<real>)
    requires |ms| == |fs| + 1 && forall k :: 0 <= k < |ms| ==> ms[k] > 0.0
    requires forall k :: 0 <= k < |fs| ==> fs[k] == ms[k] / ms[k + 1]
    ensures Product(fs) == ms[0] / ms[|fs|]
  {
    var n := |fs|;
    if n == 0 {
      CrossDivide(ms[0], ms[0], 1.0, 1.0);
    } else {
      var before, firsts := fs[..n - 1], ms[..n];
      assert firsts[0] == ms[0] && firsts[|before|] == ms[n - 1];
      forall k | 0 <= k < |before| ensures before[k] == firsts[k] / firsts[k + 1] {
        assert before[k] == fs[k] && firsts[k] == ms[k] && firsts[k + 1] == ms[k + 1];
      }
      ProductTelescopes(before, firsts);
      assert fs[n - 1] == ms[n - 1] / ms[n - 1 + 1];
      Quotient(ms[0], ms[n - 1], ms[n]);
    }
  }

  function MedianIn(store: Store, k: string): real
    requires k in store && store[k].query.median.Some?
  {
    store[k].query.median.value
  }

  predicate UsableIn(store: Store, k: string) {
    k in store && Usable(store[k])
  }

  predicate StepUsable(key: string -> string, last: Store, call: Call) {
    UsableIn(last, key(call.original)) && UsableIn(last, key(call.rewritten))
  }

  lemma StepIsQuotient(key: string -> string, interleaved: bool, store: Store, calls: seq<Call>, i: nat)
    requires i < |calls| && StepUsable(key, RunStore(key, interleaved, store, calls), calls[i])
    ensures var last := RunStore(key, interleaved, store, calls);
            StepFactor(key, interleaved, store, calls, i)
            == MedianIn(last, key(calls[i].original)) / MedianIn(last, key(calls[i].rewritten))
  {
    var after, last := RunStore(key, interleaved, store, calls[..i + 1]), RunStore(key, interleaved, store, calls);
    assert calls[..i + 1][..i] == calls[..i] && calls[..i + 1][i] == calls[i];
    NeverOverwritten(key, interleaved, store, calls, i + 1);
    assert after[key(calls[i].original)] == last[key(calls[i].original)];
    RewardedExactly(after[key(calls[i].original)], after[key(calls[i].rewritten)]);
  }

  predicate PathUsable(key: string -> string, last: Store, calls: seq<Call>, path: seq<nat>)
    requires IsPath(calls, path)
  {
    forall k :: 0 <= k < |path| ==> StepUsable(key, last, calls[path[k]])
  }

  /** The medians of the states along a path. */
  function Medians(key: string -> string, last: Store, calls: seq<Call>, path: seq<nat>): (ms: seq<real>)
    requires IsPath(calls, path) && path != [] && PathUsable(key, last, calls, path)
    ensures |ms| == |path| + 1 && ms[0] == MedianIn(last, key(calls[path[0]].original))
    ensures forall k :: 0 <= k < |path| ==>
      StepUsable(key, last, calls[path[k]]) && ms[k + 1] == MedianIn(last, key(calls[path[k]].rewritten))
  {
    assert StepUsable(key, last, calls[path[0]]);
    [MedianIn(last, key(calls[path[0]].original))]
    + seq(|path|, k requires 0 <= k < |path| =>
        assert StepUsable(key, last, calls[path[k]]); MedianIn(last, key(calls[path[k]].rewritten)))
  }

  lemma MediansPositive(key: string -> string, last: Store, calls: seq<Call>, path: seq<nat>)
    requires IsPath(calls, path) && path != [] && PathUsable(key, last, calls, path)
    ensures var ms := Medians(key, last, calls, path);
            && (forall k :: 0 <= k < |ms| ==> ms[k] > 0.0)
            && forall k :: 0 <= k < |path| ==> ms[k] == MedianIn(last, key(calls[path[k]].original))
  {
    var ms := Medians(key, last, calls, path);
    assert StepUsable(key, last, calls[path[0]]);
    forall k | 0 <= k < |ms| ensures ms[k] > 0.0 {
      if k > 0 {
        assert StepUsable(key, last, calls[path[k - 1]]) && ms[k - 1 + 1] == ms[k];
      }
    }
    forall k | 0 <= k < |path| ensures ms[k] == MedianIn(last, key(calls[path[k]].original)) {
      if k > 0 {
        assert StepUsable(key, last, calls[path[k - 1]]) &&
          calls[path[k - 1]].rewritten == calls[path[k - 1 + 1]].original;
      }
    }
  }

  /** The speedups along any path multiply to the first state's median over the last state's, whatever else was measured
      before, between or after, and however often timings were rescaled. */
  lemma PathTelescopes(key: string -> string, interleaved: bool, store: Store, calls: seq<Call>, path: seq<nat>,
    last: Store)
    requires last == RunStore(key, interleaved, store, calls)
    requires IsPath(calls, path) && path != [] && PathUsable(key, last, calls, path)
    ensures PathFactor(key, interleaved, store, calls, path)
         == Medians(key, last, calls, path)[0] / Medians(key, last, calls, path)[|path|]
  {
    var ms := Medians(key, last, calls, path);
    var fs := seq(|path|, k requires 0 <= k < |path| => StepFactor(key, interleaved, store, calls, path[k]));
    MediansPositive(key, last, calls, path);
    forall k | 0 <= k < |path| ensures fs[k] == ms[k] / ms[k + 1] {
      assert StepUsable(key, last, calls[path[k]]);
      StepIsQuotient(key, interleaved, store, calls, path[k]);
    }
    ProductTelescopes(fs, ms);
    assert PathFactor(key, interleaved, store, calls, path) == Product(fs);
  }

  /** Two paths between the same states earn the same total reward. */
  lemma PathIndependent(
    key: string -> string, interleaved: bool, store: Store, calls: seq<Call>, p: seq<nat>, q: seq<nat>, last: Store)
    requires last == RunStore(key, interleaved, store, calls)
    requires IsPath(calls, p) && p != [] && PathUsable(key, last, calls, p)
    requires IsPath(calls, q) && q != [] && PathUsable(key, last, calls, q)
    requires calls[p[0]].original == calls[q[0]].original && calls[p[|p| - 1]].rewritten == calls[q[|q| - 1]].rewritten
    ensures PathFactor(key, interleaved, store, calls, p) == PathFactor(key, interleaved, store, calls, q)
  {
    PathTelescopes(key, interleaved, store, calls, p, last);
    PathTelescopes(key, interleaved, store, calls, q, last);
    assert StepUsable(key, last, calls[p[|p| - 1]]) && StepUsable(key, last, calls[q[|q| - 1]]);
  }
}
