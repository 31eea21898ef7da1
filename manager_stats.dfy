// The manager's aggregation of its worker threads' records
// (agent-manager/manager/stats.py): field-wise sums, pooling of the sampled
// TX gaps and latencies, the confidence-interval lookup, the IID lag search,
// the stationarity and inter-arrival verdicts and the latency summary.
// spearmanr, anderson, adfuller, numpy.percentile and math.sqrt are oracles.

module ManagerStats {
  import opened Common
  import opened Records
  import opened Bytes

  /** Significance level of the IID test (IID_A_VAL). */
  const IID_A_VAL: real := 0.0000000001

  /** The lags check_iid tries, in order, once lag 1 fails. */
  const LAGS: seq<nat> := [2, 5, 10, 25, 50, 100, 200, 500, 1000]

  type NonNeg = r: real | r >= 0.0

  /** The statistics libraries the manager calls, as opaque functions. */
  datatype Oracles = Oracles(
    // p-value of spearmanr(x, y); None stands for NaN
    spearmanP: (seq<int>, seq<int>) -> Option<real>,
    // anderson(pool, dist='expon'): the statistic and critical value [4]
    anderson: seq<int> -> (real, real),
    // adfuller(latencies)[0]; None stands for the ValueError it raises
    adf: seq<int> -> Option<real>,
    // int(numpy.percentile(samples, q))
    percentile: (seq<int>, nat) -> int,
    // math.sqrt
    sqrt: real -> NonNeg)

  /** LancetThroughputStats. */
  datatype ThroughputAgg =
    ThroughputAgg(rxBytes: nat, rxReqs: nat, txBytes: nat, txReqs: nat, iaIsCorrect: bool)

  /** LancetLatencyStats as aggregate_latency fills it; lat holds Avg_latency
      then the (lower bound, percentile, upper bound) triplets of P50, P90,
      P95 and P99. */
  datatype LatencyAgg = LatencyAgg(throughput: ThroughputAgg, lat: seq<int>,
                                   isStationary: bool, isIid: bool, toReduce: int)

  function Min(a: int, b: int): int { if a <= b then a else b }

  // ---------------------------------------------------------------------
  // Python slices

  /** s[:n] for n >= 0. */
  function Take<T>(s: seq<T>, n: nat): (r: seq<T>)
    ensures |r| == Min(n, |s|) && r == s[..|r|]
  {
    s[..Min(n, |s|)]
  }

  /** s[:-k] for k >= 1. */
  function DropLast<T>(s: seq<T>, k: nat): (r: seq<T>)
    requires k >= 1
    ensures |r| == if k <= |s| then |s| - k else 0
    ensures r == s[..|r|]
  {
    if k <= |s| then s[..|s| - k] else []
  }

  /** s[k:] for k >= 0. */
  function Drop<T>(s: seq<T>, k: nat): (r: seq<T>)
    ensures |r| == if k <= |s| then |s| - k else 0
    ensures r == s[|s| - |r|..]
  {
    if k <= |s| then s[k..] else []
  }

  // ---------------------------------------------------------------------
  // Field-wise sums

  datatype Counter = RxBytes | RxReqs | TxBytes | TxReqs

  function CounterOf(s: ThreadStats, c: Counter): nat
  {
    match c
    case RxBytes => s.rxBytes
    case RxReqs => s.rxReqs
    case TxBytes => s.txBytes
    case TxReqs => s.txReqs
  }

  /** The sum of one counter over all records. */
  function Total(rs: seq<ThreadStats>, c: Counter): nat
  {
    if rs == [] then 0 else Total(rs[..|rs| - 1], c) + CounterOf(rs[|rs| - 1], c)
  }

  /** Summing two groups of records separately and adding gives the same total. */
  lemma {:induction false} TotalAppend(a: seq<ThreadStats>, b: seq<ThreadStats>, c: Counter)
    ensures Total(a + b, c) == Total(a, c) + Total(b, c)
    decreases |b|
  {
    if b != [] {
      assert (a + b)[..|a + b| - 1] == a + b[..|b| - 1];
      TotalAppend(a, b[..|b| - 1], c);
    } else {
      assert a + b == a;
    }
  }

  // ---------------------------------------------------------------------
  // Pools

  /** The TX gaps check_interarrival takes from one record, in nanoseconds. */
  function TxPart(s: ThreadStats): (r: seq<int>)
    ensures |r| <= MAX_PER_THREAD_TX_SAMPLES
  {
    var t := Take(s.txTs.samples, Min(MAX_PER_THREAD_TX_SAMPLES, s.txTs.count));
    seq(|t|, i requires 0 <= i < |t| => Nanos(t[i]))
  }

  /** The pool of TX gaps over all records, in record order. */
  function TxPool(rs: seq<ThreadStats>): (r: seq<int>)
    ensures |r| <= MAX_PER_THREAD_TX_SAMPLES * |rs|
  {
    if rs == [] then [] else TxPool(rs[..|rs| - 1]) + TxPart(rs[|rs| - 1])
  }

  lemma {:induction false} TxPoolAppend(a: seq<ThreadStats>, b: seq<ThreadStats>)
    ensures TxPool(a + b) == TxPool(a) + TxPool(b)
    decreases |b|
  {
    if b != [] {
      assert (a + b)[..|a + b| - 1] == a + b[..|b| - 1];
      TxPoolAppend(a, b[..|b| - 1]);
    } else {
      assert a + b == a;
    }
  }

  predicate AllLatency(rs: seq<ThreadStats>)
  {
    forall i :: 0 <= i < |rs| ==> rs[i].LatencyRecord?
  }

  /** The samples one latency record contributes: the first
      min(per_thread_samples, IncIdx) of its ring. */
  function LatPart(s: ThreadStats, perThread: nat): (r: seq<LatSample>)
    requires s.LatencyRecord?
    ensures |r| == Min(Min(perThread, s.incIdx), |s.samples|)
  {
    Take(s.samples, Min(perThread, s.incIdx))
  }

  /** The pooled latency samples, in record order; a record without IncIdx
      (a throughput record) makes the lookup raise AttributeError. */
  function LatPool(rs: seq<ThreadStats>, perThread: nat): (r: Py<seq<LatSample>>)
    ensures r.Ok? <==> AllLatency(rs)
    ensures r.Raise? ==> r.err == AttributeError
  {
    if rs == [] then Ok([])
    else
      var front := LatPool(rs[..|rs| - 1], perThread);
      var last := rs[|rs| - 1];
      if !last.LatencyRecord? then Raise(AttributeError)
      else if front.Raise? then front
      else Ok(front.value + LatPart(last, perThread))
  }

  lemma {:induction false} LatPoolAppend(a: seq<ThreadStats>, b: seq<ThreadStats>, perThread: nat)
    requires AllLatency(a) && AllLatency(b)
    ensures AllLatency(a + b)
    ensures LatPool(a + b, perThread).value ==
            LatPool(a, perThread).value + LatPool(b, perThread).value
    decreases |b|
  {
    assert AllLatency(a + b);
    if b != [] {
      assert (a + b)[..|a + b| - 1] == a + b[..|b| - 1];
      LatPoolAppend(a, b[..|b| - 1], perThread);
    } else {
      assert a + b == a;
    }
  }

  /** Pooling loop shared by check_iid, check_stationarity and
      aggregate_latency: append each record's first samples in turn. */
  method PoolLatencies(stats: seq<ThreadStats>, perThread: nat) returns (r: Py<seq<LatSample>>)
    ensures r == LatPool(stats, perThread)
  {
    var data: seq<LatSample> := [];
    var i := 0;
    while i < |stats|
      invariant 0 <= i <= |stats|
      invariant LatPool(stats[..i], perThread) == Ok(data)
    {
      assert stats[..i + 1][..i] == stats[..i];
      if !stats[i].LatencyRecord? {
        assert !AllLatency(stats);
        return Raise(AttributeError);
      }
      data := data + LatPart(stats[i], perThread);
      i := i + 1;
    }
    assert stats[..i] == stats;
    r := Ok(data);
  }

  /** The pooling loop of check_interarrival. */
  method PoolTx(stats: seq<ThreadStats>) returns (pool: seq<int>)
    ensures pool == TxPool(stats)
  {
    pool := [];
    var i := 0;
    while i < |stats|
      invariant 0 <= i <= |stats|
      invariant pool == TxPool(stats[..i])
    {
      assert stats[..i + 1][..i] == stats[..i];
      pool := pool + TxPart(stats[i]);
      i := i + 1;
    }
    assert stats[..i] == stats;
  }

  // ---------------------------------------------------------------------
  // Python's stable sort

  predicate SortedBy<T>(s: seq<T>, key: T -> int)
  {
    forall i, j :: 0 <= i < j < |s| ==> key(s[i]) <= key(s[j])
  }

  /** x placed before the first element whose key is not smaller. */
  function Insert<T>(x: T, s: seq<T>, key: T -> int): (r: seq<T>)
    ensures |r| == |s| + 1
    ensures multiset(r) == multiset(s) + multiset{x}
  {
    if s == [] || key(x) <= key(s[0]) then [x] + s
    else
      assert s == [s[0]] + s[1..];
      [s[0]] + Insert(x, s[1..], key)
  }

  /** Inserting an element no smaller than a bound into a list no smaller
      than it keeps the bound. */
  lemma {:induction false} InsertLowerBound<T>(x: T, s: seq<T>, key: T -> int, b: int)
    requires key(x) >= b && forall i :: 0 <= i < |s| ==> key(s[i]) >= b
    ensures forall i :: 0 <= i < |Insert(x, s, key)| ==> key(Insert(x, s, key)[i]) >= b
  {
    if s != [] && key(x) > key(s[0]) {
      InsertLowerBound(x, s[1..], key, b);
    }
  }

  lemma {:induction false} InsertSorted<T>(x: T, s: seq<T>, key: T -> int)
    requires SortedBy(s, key)
    ensures SortedBy(Insert(x, s, key), key)
  {
    var r := Insert(x, s, key);
    if s == [] || key(x) <= key(s[0]) {
      forall i, j | 0 <= i < j < |r| ensures key(r[i]) <= key(r[j]) {
        assert r[j] == s[j - 1];
        if i > 0 {
          assert r[i] == s[i - 1];
        } else if j > 1 {
          assert key(s[0]) <= key(s[j - 1]);
        }
      }
    } else {
      var t := Insert(x, s[1..], key);
      InsertSorted(x, s[1..], key);
      InsertLowerBound(x, s[1..], key, key(s[0]));
      forall i, j | 0 <= i < j < |r| ensures key(r[i]) <= key(r[j]) {
        assert r[j] == t[j - 1];
        if i > 0 {
          assert r[i] == t[i - 1];
        }
      }
    }
  }

  /** list.sort(key=key): a stable insertion sort. */
  function SortBy<T>(s: seq<T>, key: T -> int): (r: seq<T>)
    ensures |r| == |s|
    ensures multiset(r) == multiset(s)
  {
    if s == [] then []
    else
      assert s == [s[0]] + s[1..];
      Insert(s[0], SortBy(s[1..], key), key)
  }

  /** The sorted list is ordered by key and is a permutation of its input. */
  lemma {:induction false} SortBySorted<T>(s: seq<T>, key: T -> int)
    ensures SortedBy(SortBy(s, key), key)
    ensures multiset(SortBy(s, key)) == multiset(s)
  {
    if s != [] {
      SortBySorted(s[1..], key);
      InsertSorted(s[0], SortBy(s[1..], key), key);
    }
  }

  /** The elements of s whose key is k, in the order s holds them. */
  function WithKey<T>(s: seq<T>, key: T -> int, k: int): seq<T>
  {
    if s == [] then [] else (if key(s[0]) == k then [s[0]] else []) + WithKey(s[1..], key, k)
  }

  lemma WithKeyCons<T>(a: T, t: seq<T>, key: T -> int, k: int)
    ensures WithKey([a] + t, key, k) == (if key(a) == k then [a] else []) + WithKey(t, key, k)
  {
    assert ([a] + t)[0] == a && ([a] + t)[1..] == t;
  }

  /** Insert puts x ahead of every element with its key. */
  lemma {:induction false} InsertWithKey<T>(x: T, s: seq<T>, key: T -> int, k: int)
    ensures WithKey(Insert(x, s, key), key, k) == (if key(x) == k then [x] else []) + WithKey(s, key, k)
  {
    if s == [] || key(x) <= key(s[0]) {
      WithKeyCons(x, s, key, k);
    } else {
      var t := Insert(x, s[1..], key);
      assert Insert(x, s, key) == [s[0]] + t;
      assert [s[0]] + s[1..] == s;
      InsertWithKey(x, s[1..], key, k);
      WithKeyCons(s[0], t, key, k);
      WithKeyCons(s[0], s[1..], key, k);
      if key(x) == k {
        assert WithKey(s, key, k) == WithKey(s[1..], key, k);
      } else {
        assert WithKey(t, key, k) == WithKey(s[1..], key, k);
      }
    }
  }

  /** The sort is stable: the elements sharing a key keep their input order. */
  lemma {:induction false} SortByStable<T>(s: seq<T>, key: T -> int, k: int)
    ensures WithKey(SortBy(s, key), key, k) == WithKey(s, key, k)
  {
    if s != [] {
      SortByStable(s[1..], key, k);
      InsertWithKey(s[0], SortBy(s[1..], key), key, k);
    }
  }

  function SendKey(x: LatSample): int { Nanos(x.send) }

  function Identity(x: int): int { x }

  function Latencies(s: seq<LatSample>): (r: seq<int>)
    ensures |r| == |s|
    ensures forall i :: 0 <= i < |s| ==> r[i] == s[i].nsecLatency
  {
    seq(|s|, i requires 0 <= i < |s| => s[i].nsecLatency)
  }

  /** The latency series check_iid and check_stationarity test: the pooled
      samples ordered by send instant, latencies only. */
  function SeriesBySend(pool: seq<LatSample>): seq<int>
  {
    Latencies(SortBy(pool, SendKey))
  }

  // ---------------------------------------------------------------------
  // check_interarrival

  /** The verdict on a pool of TX gaps: no samples is a failure, otherwise
      the exponential fit must beat twice critical value [4]. */
  function InterarrivalVerdict(pool: seq<int>, o: Oracles): bool
  {
    if pool == [] then false
    else
      var res := o.anderson(pool);
      res.0 < 2.0 * res.1
  }

  method CheckInterarrival(stats: seq<ThreadStats>, o: Oracles) returns (ok: bool)
    ensures ok == InterarrivalVerdict(TxPool(stats), o)
    ensures ok ==> exists i :: 0 <= i < |stats| && TxPart(stats[i]) != []
  {
    var pool := PoolTx(stats);
    if |pool| == 0 {
      return false;
    }
    var res := o.anderson(pool);
    ok := res.0 < 2.0 * res.1;
    if ok {
      NonEmptyPoolHasPart(stats);
    }
  }

  lemma {:induction false} NonEmptyPoolHasPart(rs: seq<ThreadStats>)
    requires TxPool(rs) != []
    ensures exists i :: 0 <= i < |rs| && TxPart(rs[i]) != []
  {
    var last := rs[|rs| - 1];
    if TxPart(last) == [] {
      NonEmptyPoolHasPart(rs[..|rs| - 1]);
      var i :| 0 <= i < |rs| - 1 && TxPart(rs[..|rs| - 1][i]) != [];
      assert rs[..|rs| - 1][i] == rs[i];
    }
  }

  // ---------------------------------------------------------------------
  // aggregate_throughput

  /** What aggregate_throughput reports: each counter summed over all
      records, and the inter-arrival verdict on their pooled TX gaps. */
  function ThroughputOf(stats: seq<ThreadStats>, o: Oracles): ThroughputAgg
  {
    ThroughputAgg(Total(stats, RxBytes), Total(stats, RxReqs), Total(stats, TxBytes),
                  Total(stats, TxReqs), InterarrivalVerdict(TxPool(stats), o))
  }

  method AggregateThroughput(stats: seq<ThreadStats>, o: Oracles) returns (agg: ThroughputAgg)
    ensures agg == ThroughputOf(stats, o)
  {
    var rxBytes, rxReqs, txBytes, txReqs := 0, 0, 0, 0;
    var i := 0;
    while i < |stats|
      invariant 0 <= i <= |stats|
      invariant rxBytes == Total(stats[..i], RxBytes) && rxReqs == Total(stats[..i], RxReqs)
      invariant txBytes == Total(stats[..i], TxBytes) && txReqs == Total(stats[..i], TxReqs)
    {
      assert stats[..i + 1][..i] == stats[..i];
      rxBytes := rxBytes + stats[i].rxBytes;
      rxReqs := rxReqs + stats[i].rxReqs;
      txBytes := txBytes + stats[i].txBytes;
      txReqs := txReqs + stats[i].txReqs;
      i := i + 1;
    }
    assert stats[..i] == stats;
    var ia := CheckInterarrival(stats, o);
    agg := ThroughputAgg(rxBytes, rxReqs, txBytes, txReqs, ia);
  }

  // ---------------------------------------------------------------------
  // check_iid

  predicate Passes(p: Option<real>) { p.Some? && p.value > IID_A_VAL }

  /** spearmanr(latencies[:-lag], latencies[lag:]) clears the significance level. */
  predicate LagPasses(l: seq<int>, lag: nat, o: Oracles)
    requires lag >= 1
  {
    Passes(o.spearmanP(DropLast(l, lag), Drop(l, lag)))
  }

  /** The lag the search loop ends on, trying LAGS[i..] in order: the first
      that passes, or the last one tried. */
  function LagSearch(l: seq<int>, o: Oracles, i: nat): (lag: nat)
    requires i < |LAGS|
    ensures lag in LAGS && lag != 0
    decreases |LAGS| - i
  {
    if LagPasses(l, LAGS[i], o) || i == |LAGS| - 1 then LAGS[i] else LagSearch(l, o, i + 1)
  }

  /** check_iid's answer on a non-empty record list. */
  function IidVerdict(l: seq<int>, o: Oracles): (r: (bool, int))
    ensures r.0 <==> r.1 == 0
  {
    if LagPasses(l, 1, o) then (true, 0) else (false, LagSearch(l, o, 0))
  }

  /** Once every lag before LAGS[k] has failed, the search is where it
      would be had it started at k. */
  lemma {:induction false} LagSearchSkips(l: seq<int>, o: Oracles, k: nat)
    requires k < |LAGS|
    requires forall j :: 0 <= j < k ==> !LagPasses(l, LAGS[j], o)
    ensures LagSearch(l, o, 0) == LagSearch(l, o, k)
  {
    if k > 0 {
      LagSearchSkips(l, o, k - 1);
    }
  }

  /** The search returns the first lag that passes, or 1000 when none of the
      others does, whether or not 1000 passes itself. */
  lemma LagSearchFirst(l: seq<int>, o: Oracles, k: nat)
    requires k < |LAGS|
    requires forall j :: 0 <= j < k ==> !LagPasses(l, LAGS[j], o)
    requires LagPasses(l, LAGS[k], o) || k == |LAGS| - 1
    ensures LagSearch(l, o, 0) == LAGS[k]
  {
    LagSearchSkips(l, o, k);
  }

  /** The lag loop of check_iid, with its early break. */
  method SearchLag(l: seq<int>, o: Oracles) returns (lag: nat)
    ensures lag == LagSearch(l, o, 0)
  {
    lag := 0;
    var i := 0;
    while i < |LAGS|
      invariant 0 <= i <= |LAGS|
      invariant i < |LAGS| ==> LagSearch(l, o, 0) == LagSearch(l, o, i)
      invariant i == |LAGS| ==> LagSearch(l, o, 0) == lag
    {
      lag := LAGS[i];
      if LagPasses(l, lag, o) {
        return;
      }
      i := i + 1;
    }
  }

  method CheckIid(stats: seq<ThreadStats>, perThread: nat, o: Oracles) returns (r: Py<(bool, int)>)
    ensures stats == [] ==> r == Ok((false, -1))
    ensures stats != [] ==> r == (var p := LatPool(stats, perThread);
                                  if p.Raise? then Raise(p.err) else Ok(IidVerdict(SeriesBySend(p.value), o)))
  {
    if |stats| == 0 {
      return Ok((false, -1));
    }
    var data := PoolLatencies(stats, perThread);
    if data.Raise? {
      return Raise(data.err);
    }
    var latencies := SeriesBySend(data.value);
    if LagPasses(latencies, 1, o) {
      return Ok((true, 0));
    }
    var lag := SearchLag(latencies, o);
    r := Ok((false, lag));
  }

  // ---------------------------------------------------------------------
  // check_stationarity

  /** The augmented Dickey-Fuller statistic must be negative; adfuller's
      ValueError (too short a series) propagates. */
  function StationarityVerdict(l: seq<int>, o: Oracles): Py<bool>
  {
    var res := o.adf(l);
    if res.None? then Raise(ValueError) else Ok(res.value < 0.0)
  }

  method CheckStationarity(stats: seq<ThreadStats>, perThread: nat, o: Oracles) returns (r: Py<bool>)
    ensures r == (var p := LatPool(stats, perThread);
                  if p.Raise? then Raise(p.err) else StationarityVerdict(SeriesBySend(p.value), o))
  {
    var data := PoolLatencies(stats, perThread);
    if data.Raise? {
      return Raise(data.err);
    }
    var latencies := SeriesBySend(data.value);
    var res := o.adf(latencies);
    if res.None? {
      return Raise(ValueError);
    }
    r := Ok(res.value < 0.0);
  }

  // ---------------------------------------------------------------------
  // get_ci

  function Ceil(x: real): (r: int)
    ensures x <= r as real < x + 1.0
  {
    -((-x).Floor)
  }

  /** The order statistics bracketing a percentile at 95% confidence:
      j = floor(np - 1.96 sqrt(np(1-p))) and k = ceil(np + 1.96 sqrt(np(1-p))) + 1. */
  function CiIndices(size: nat, p: real, root: NonNeg): (r: (int, int))
    ensures r.0 < r.1
    ensures r.0 as real <= size as real * p < r.1 as real
  {
    var prod := size as real * p;
    ((prod - 1.96 * root).Floor, Ceil(prod + 1.96 * root) + 1)
  }

  /** int(samples[x]) if 0 <= x < size else 0. */
  function CiValue(samples: seq<int>, x: int): int
  {
    if 0 <= x < |samples| then samples[x] else 0
  }

  function GetCi(samples: seq<int>, p: real, o: Oracles): (int, int)
  {
    var prod := |samples| as real * p;
    var ij := CiIndices(|samples|, p, o.sqrt(prod * (1.0 - p)));
    (CiValue(samples, ij.0), CiValue(samples, ij.1))
  }

  /** On a sorted pool whose two bracket indices fall inside it, the lower
      bound does not exceed the upper one; an index outside gives 0. */
  lemma GetCiOrdered(samples: seq<int>, p: real, o: Oracles)
    requires SortedBy(samples, Identity)
    ensures var ij := CiIndices(|samples|, p, o.sqrt(|samples| as real * p * (1.0 - p)));
            var ci := GetCi(samples, p, o);
            (0 <= ij.0 && ij.1 < |samples| ==> ci.0 <= ci.1) &&
            (!(0 <= ij.0 < |samples|) ==> ci.0 == 0) &&
            (!(0 <= ij.1 < |samples|) ==> ci.1 == 0)
  {
    var ij := CiIndices(|samples|, p, o.sqrt(|samples| as real * p * (1.0 - p)));
    if 0 <= ij.0 && ij.1 < |samples| {
      assert Identity(samples[ij.0]) <= Identity(samples[ij.1]);
    }
  }

  // ---------------------------------------------------------------------
  // aggregate_latency

  function SumInts(s: seq<int>): int
  {
    if s == [] then 0 else SumInts(s[..|s| - 1]) + s[|s| - 1]
  }

  /** int(numpy.mean(samples)); the mean of nothing is NaN and int() of it
      raises ValueError. */
  function Mean(s: seq<int>): Py<int>
  {
    if s == [] then Raise(ValueError)
    else Ok(Trunc(SumInts(s) as real / |s| as real))
  }

  /** One percentile's (lower bound, value, upper bound). */
  function Triplet(all: seq<int>, q: nat, p: real, o: Oracles): seq<int>
  {
    var ci := GetCi(all, p, o);
    [ci.0, o.percentile(all, q), ci.1]
  }

  /** What aggregate_latency computes, step by step, with the exception
      that stops it. */
  function AggregateLatencySpec(stats: seq<ThreadStats>, perThread: nat, o: Oracles): Py<LatencyAgg>
  {
    var pool := LatPool(stats, perThread);
    if pool.Raise? then Raise(pool.err)
    else
      var all := SortBy(Latencies(pool.value), Identity);
      var avg := Mean(all);
      if avg.Raise? then Raise(avg.err)
      else
        var lat := [avg.value] + Triplet(all, 50, 0.5, o) + Triplet(all, 90, 0.9, o) +
                   Triplet(all, 95, 0.95, o) + Triplet(all, 99, 0.99, o);
        var stationary := StationarityVerdict(SeriesBySend(pool.value), o);
        if stationary.Raise? then Raise(stationary.err)
        else
          var iid := IidVerdict(SeriesBySend(pool.value), o);
          Ok(LatencyAgg(ThroughputOf(stats, o), lat, stationary.value, iid.0, iid.1))
  }

  method AggregateLatency(stats: seq<ThreadStats>, perThread: nat, o: Oracles)
    returns (r: Py<LatencyAgg>)
    ensures r == AggregateLatencySpec(stats, perThread, o)
  {
    var th := AggregateThroughput(stats, o);
    var pool := PoolLatencies(stats, perThread);
    if pool.Raise? {
      return Raise(pool.err);
    }
    var all := SortBy(Latencies(pool.value), Identity);
    if |all| == 0 {
      return Raise(ValueError);
    }
    var avg := Trunc(SumInts(all) as real / |all| as real);
    var lat := [avg] + Triplet(all, 50, 0.5, o) + Triplet(all, 90, 0.9, o) +
               Triplet(all, 95, 0.95, o) + Triplet(all, 99, 0.99, o);
    var stationary := CheckStationarity(stats, perThread, o);
    if stationary.Raise? {
      return Raise(stationary.err);
    }
    var iid := CheckIid(stats, perThread, o);
    r := Ok(LatencyAgg(th, lat, stationary.value, iid.value.0, iid.value.1));
  }

  /** A summary exists only for latency records with at least one pooled
      sample; it then carries 13 latency fields, an IID verdict whose lag
      is 0 exactly when the series is IID and otherwise one of LAGS (never
      check_iid's -1), and an average inside the range of the pool. */
  lemma AggregateLatencyFacts(stats: seq<ThreadStats>, perThread: nat, o: Oracles)
    ensures var r := AggregateLatencySpec(stats, perThread, o);
            var pool := LatPool(stats, perThread);
            (!AllLatency(stats) ==> r == Raise(AttributeError)) &&
            (AllLatency(stats) && pool.value == [] ==> r == Raise(ValueError)) &&
            (r.Ok? ==> |r.value.lat| == 13 && r.value.throughput == ThroughputOf(stats, o) &&
                       (r.value.isIid <==> r.value.toReduce == 0) &&
                       (!r.value.isIid ==> r.value.toReduce in LAGS))
  {
    var r := AggregateLatencySpec(stats, perThread, o);
    var pool := LatPool(stats, perThread);
    if r.Ok? {
      var iid := IidVerdict(SeriesBySend(pool.value), o);
      if !iid.0 {
        assert iid.1 == LagSearch(SeriesBySend(pool.value), o, 0);
      }
    }
  }

  /** The sum of a sorted list lies between n times its first and n times
      its last element. */
  lemma {:induction false} SumBounds(s: seq<int>, lo: int, hi: int)
    requires forall i :: 0 <= i < |s| ==> lo <= s[i] <= hi
    ensures |s| * lo <= SumInts(s) <= |s| * hi
  {
    if s != [] {
      SumBounds(s[..|s| - 1], lo, hi);
      assert |s| * lo == (|s| - 1) * lo + lo;
      assert |s| * hi == (|s| - 1) * hi + hi;
    }
  }

  lemma DivBounds(sum: int, n: int, lo: int, hi: int)
    requires n > 0 && n * lo <= sum <= n * hi
    ensures lo as real <= sum as real / n as real <= hi as real
  {
    var q := sum as real / n as real;
    assert q * n as real == sum as real;
    assert (n * lo) as real == n as real * lo as real;
    assert (n * hi) as real == n as real * hi as real;
  }

  /** int(numpy.mean) of a sorted, non-empty pool of non-negative latencies
      lies between its smallest and largest sample. */
  lemma MeanWithinRange(s: seq<int>)
    requires s != [] && SortedBy(s, Identity) && forall i :: 0 <= i < |s| ==> s[i] >= 0
    ensures Mean(s).Ok? && s[0] <= Mean(s).value <= s[|s| - 1]
  {
    forall i | 0 <= i < |s| ensures s[0] <= s[i] <= s[|s| - 1] {
      if 0 < i {
        assert Identity(s[0]) <= Identity(s[i]);
      }
      if i < |s| - 1 {
        assert Identity(s[i]) <= Identity(s[|s| - 1]);
      }
    }
    SumBounds(s, s[0], s[|s| - 1]);
    DivBounds(SumInts(s), |s|, s[0], s[|s| - 1]);
  }
}
