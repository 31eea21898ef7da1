// The coordinator's reduction of the agents' replies (coordinator/stats.go):
// field-wise sums into a zeroed reply structure, with the unsigned
// wrap-around of the C fields, then per-field truncating means and the
// smallest sampling reduction asked for.

module CoordStats {
  import opened Bytes
  import opened CoordProto
  import opened GoProto

  // ---------------------------------------------------------------------
  // computeStatsThroughput

  /** The throughput_reply fields computeStatsThroughput adds up. */
  datatype ThroughputField = RxBytesField | TxBytesField | ReqCountField | CorrectIadField

  function FieldOf(t: ThroughputReply, f: ThroughputField): nat
  {
    match f
    case RxBytesField => t.rxBytes
    case TxBytesField => t.txBytes
    case ReqCountField => t.reqCount
    case CorrectIadField => t.correctIad
  }

  /** The exact sum of one field over the replies. */
  function ThroughputSum(replies: seq<ThroughputReply>, f: ThroughputField): nat
  {
    if replies == [] then 0
    else ThroughputSum(replies[..|replies| - 1], f) + FieldOf(replies[|replies| - 1], f)
  }

  /** Summing over two groups of agents is summing each group and adding. */
  lemma {:induction false} ThroughputSumAppend(a: seq<ThroughputReply>, b: seq<ThroughputReply>, f: ThroughputField)
    ensures ThroughputSum(a + b, f) == ThroughputSum(a, f) + ThroughputSum(b, f)
  {
    if b == [] {
      assert a + b == a;
    } else {
      assert (a + b)[..|a + b| - 1] == a + b[..|b| - 1];
      ThroughputSumAppend(a, b[..|b| - 1], f);
    }
  }

  /** No agent's field exceeds hi, so the sum stays within |replies| * hi. */
  lemma {:induction false} ThroughputSumBound(replies: seq<ThroughputReply>, f: ThroughputField, hi: nat)
    requires forall i :: 0 <= i < |replies| ==> FieldOf(replies[i], f) <= hi
    ensures ThroughputSum(replies, f) <= |replies| * hi
  {
    if replies != [] {
      ThroughputSumBound(replies[..|replies| - 1], f, hi);
      assert |replies| * hi == (|replies| - 1) * hi + hi;
    }
  }

  /** The aggregate computeStatsThroughput builds from a non-empty list. */
  function ThroughputAggregate(replies: seq<ThroughputReply>): ThroughputReply
    requires replies != []
  {
    ThroughputReply(U64(ThroughputSum(replies, RxBytesField)), U64(ThroughputSum(replies, TxBytesField)),
                    U64(ThroughputSum(replies, ReqCountField)), replies[0].duration,
                    U64(ThroughputSum(replies, CorrectIadField)))
  }

  /** computeStatsThroughput: the four sums wrapped to 64 bits, and the first
      agent's Duration; with no replies, replies[0] panics. */
  method ComputeStatsThroughput(replies: seq<ThroughputReply>) returns (r: Go<ThroughputReply>)
    ensures r.Fail? <==> replies == []
    ensures r.Fail? ==> r.err == Panic
    ensures r.Value? ==>
              r.v.rxBytes == U64(ThroughputSum(replies, RxBytesField)) &&
              r.v.txBytes == U64(ThroughputSum(replies, TxBytesField)) &&
              r.v.reqCount == U64(ThroughputSum(replies, ReqCountField)) &&
              r.v.correctIad == U64(ThroughputSum(replies, CorrectIadField)) &&
              r.v.duration == replies[0].duration
    ensures r.Value? ==> r.v == ThroughputAggregate(replies)
  {
    var rx, tx, req, iad := 0, 0, 0, 0;
    var i := 0;
    while i < |replies|
      invariant 0 <= i <= |replies|
      invariant rx == U64(ThroughputSum(replies[..i], RxBytesField))
      invariant tx == U64(ThroughputSum(replies[..i], TxBytesField))
      invariant req == U64(ThroughputSum(replies[..i], ReqCountField))
      invariant iad == U64(ThroughputSum(replies[..i], CorrectIadField))
    {
      assert replies[..i + 1][..i] == replies[..i];
      WrapAdd(ThroughputSum(replies[..i], RxBytesField), replies[i].rxBytes, TWO_64);
      WrapAdd(ThroughputSum(replies[..i], TxBytesField), replies[i].txBytes, TWO_64);
      WrapAdd(ThroughputSum(replies[..i], ReqCountField), replies[i].reqCount, TWO_64);
      WrapAdd(ThroughputSum(replies[..i], CorrectIadField), replies[i].correctIad, TWO_64);
      rx := U64(rx + replies[i].rxBytes);
      tx := U64(tx + replies[i].txBytes);
      req := U64(req + replies[i].reqCount);
      iad := U64(iad + replies[i].correctIad);
      i := i + 1;
    }
    if |replies| == 0 {
      return Fail(Panic);
    }
    assert replies[..i] == replies;
    r := Value(ThroughputReply(rx, tx, req, replies[0].duration, iad));
  }

  // ---------------------------------------------------------------------
  // computeStatsLatency

  /** The ToReduceSampling the minimum search starts from. */
  const MAX_TO_REDUCE: nat := 1000000

  /** Every reply carries the m latency fields of the coordinator's struct. */
  predicate Width(replies: seq<LatencyReply>, m: nat)
  {
    forall i :: 0 <= i < |replies| ==> |replies[i].lat| == m
  }

  /** The exact sum of latency field k over the replies. */
  function LatSum(replies: seq<LatencyReply>, k: nat): nat
    requires forall i :: 0 <= i < |replies| ==> k < |replies[i].lat|
  {
    if replies == [] then 0
    else LatSum(replies[..|replies| - 1], k) + replies[|replies| - 1].lat[k]
  }

  function IidSum(replies: seq<LatencyReply>): nat
  {
    if replies == [] then 0 else IidSum(replies[..|replies| - 1]) + replies[|replies| - 1].isIid
  }

  function StationarySum(replies: seq<LatencyReply>): nat
  {
    if replies == [] then 0 else StationarySum(replies[..|replies| - 1]) + replies[|replies| - 1].isStationary
  }

  /** The smallest ToReduceSampling asked for, capped at MAX_TO_REDUCE. */
  function MinToReduce(replies: seq<LatencyReply>): (r: nat)
    ensures r <= MAX_TO_REDUCE
    ensures forall i :: 0 <= i < |replies| ==> r <= replies[i].toReduceSampling
    ensures r == MAX_TO_REDUCE || exists i :: 0 <= i < |replies| && r == replies[i].toReduceSampling
  {
    if replies == [] then MAX_TO_REDUCE
    else
      var front := MinToReduce(replies[..|replies| - 1]);
      var last := replies[|replies| - 1].toReduceSampling;
      assert forall i :: 0 <= i < |replies| - 1 ==> replies[..|replies| - 1][i] == replies[i];
      if last < front then last else front
  }

  /** The field-wise `+=` of one reply into the accumulator, each field a uint64. */
  function AddFields(acc: seq<nat>, lat: seq<nat>): (r: seq<nat>)
    requires |acc| == |lat|
    ensures |r| == |acc|
  {
    seq(|acc|, k requires 0 <= k < |acc| => U64(acc[k] + lat[k]))
  }

  /** The field-wise `/=` by the number of replies. */
  function DivFields(acc: seq<nat>, n: nat): (r: seq<nat>)
    requires n > 0
    ensures |r| == |acc|
  {
    seq(|acc|, k requires 0 <= k < |acc| => acc[k] / n)
  }

  /** The minimum loop over the replies' ToReduceSampling. */
  method SmallestReduction(replies: seq<LatencyReply>) returns (least: nat)
    ensures least == MinToReduce(replies)
  {
    least := MAX_TO_REDUCE;
    var i := 0;
    while i < |replies|
      invariant 0 <= i <= |replies|
      invariant least == MinToReduce(replies[..i])
    {
      assert replies[..i + 1][..i] == replies[..i];
      if replies[i].toReduceSampling < least {
        least := replies[i].toReduceSampling;
      }
      i := i + 1;
    }
    assert replies[..i] == replies;
  }

  /** The aggregate computeStatsLatency builds from a non-empty list. */
  function LatencyAggregate(replies: seq<LatencyReply>, m: nat): LatencyReply
    requires replies != [] && Width(replies, m)
  {
    var iid := U8(IidSum(replies));
    LatencyReply(ThroughputReply(0, 0, 0, 0, 0),
                 seq(m, k requires 0 <= k < m => U64(LatSum(replies, k)) / |replies|),
                 if iid == 0 then MinToReduce(replies) else 0,
                 iid, U8(StationarySum(replies)))
  }

  /** One more reply added to the wrapped sums of the replies before it. */
  lemma SumStep(replies: seq<LatencyReply>, m: nat, i: nat, acc: seq<nat>, iid: nat, stationary: nat)
    requires Width(replies, m) && i < |replies| && |acc| == m
    requires forall k :: 0 <= k < m ==> acc[k] == U64(LatSum(replies[..i], k))
    requires iid == U8(IidSum(replies[..i])) && stationary == U8(StationarySum(replies[..i]))
    ensures forall k :: 0 <= k < m ==> AddFields(acc, replies[i].lat)[k] == U64(LatSum(replies[..i + 1], k))
    ensures U8(iid + replies[i].isIid) == U8(IidSum(replies[..i + 1]))
    ensures U8(stationary + replies[i].isStationary) == U8(StationarySum(replies[..i + 1]))
  {
    var prefix := replies[..i + 1];
    assert prefix[..i] == replies[..i];
    forall k | 0 <= k < m
      ensures AddFields(acc, replies[i].lat)[k] == U64(LatSum(prefix, k))
    {
      WrapAdd(LatSum(replies[..i], k), replies[i].lat[k], TWO_64);
    }
    WrapAdd(IidSum(replies[..i]), replies[i].isIid, TWO_8);
    WrapAdd(StationarySum(replies[..i]), replies[i].isStationary, TWO_8);
  }

  /** The summing loop of computeStatsLatency: every latency field summed
      in a uint64, IsIid and IsStationary in a uint8. */
  method SumLatencies(replies: seq<LatencyReply>, m: nat) returns (acc: seq<nat>, iid: nat, stationary: nat)
    requires Width(replies, m)
    ensures |acc| == m && forall k :: 0 <= k < m ==> acc[k] == U64(LatSum(replies, k))
    ensures iid == U8(IidSum(replies)) && stationary == U8(StationarySum(replies))
  {
    acc := seq(m, _ => 0);
    iid, stationary := 0, 0;
    var i := 0;
    while i < |replies|
      invariant 0 <= i <= |replies|
      invariant |acc| == m
      invariant forall k :: 0 <= k < m ==> acc[k] == U64(LatSum(replies[..i], k))
      invariant iid == U8(IidSum(replies[..i])) && stationary == U8(StationarySum(replies[..i]))
    {
      SumStep(replies, m, i, acc, iid, stationary);
      acc := AddFields(acc, replies[i].lat);
      iid := U8(iid + replies[i].isIid);
      stationary := U8(stationary + replies[i].isStationary);
      i := i + 1;
    }
    assert replies[..i] == replies;
  }

  /** computeStatsLatency: each latency field is the wrapped sum divided
      (truncating) by the number of replies; IsIid and IsStationary are
      summed as uint8, not averaged; ToReduceSampling is the smallest asked
      for when the IsIid sum is 0, and stays 0 otherwise; Th_data is never
      written. With no replies the division panics. */
  method ComputeStatsLatency(replies: seq<LatencyReply>, m: nat) returns (r: Go<LatencyReply>)
    requires Width(replies, m)
    ensures r.Fail? <==> replies == []
    ensures r.Fail? ==> r.err == Panic
    ensures r.Value? ==>
              r.v.thData == ThroughputReply(0, 0, 0, 0, 0) && |r.v.lat| == m &&
              (forall k :: 0 <= k < m ==> r.v.lat[k] == U64(LatSum(replies, k)) / |replies|) &&
              r.v.isIid == U8(IidSum(replies)) && r.v.isStationary == U8(StationarySum(replies)) &&
              r.v.toReduceSampling == (if r.v.isIid == 0 then MinToReduce(replies) else 0)
    ensures r.Value? ==> r.v == LatencyAggregate(replies, m)
  {
    var acc, iid, stationary := SumLatencies(replies, m);
    if |replies| == 0 {
      return Fail(Panic);
    }
    var means := DivFields(acc, |replies|);
    var toReduce := 0;
    if iid == 0 {
      toReduce := SmallestReduction(replies);
    }
    ghost var expected := seq(m, k requires 0 <= k < m => U64(LatSum(replies, k)) / |replies|);
    assert means == expected by {
      assert forall k :: 0 <= k < m ==> means[k] == expected[k];
    }
    r := Value(LatencyReply(ThroughputReply(0, 0, 0, 0, 0), means, toReduce, iid, stationary));
  }

  /** A truncating mean of n values, each within [lo, hi], lies within [lo, hi]. */
  lemma TruncMeanBounds(sum: int, n: int, lo: int, hi: int)
    requires n > 0 && n * lo <= sum <= n * hi
    ensures lo <= sum / n <= hi
  {
    var q := sum / n;
    var r := sum % n;
    assert sum == q * n + r;
    if q < lo {
      MulAtLeast(lo - q, n);
    }
    if q > hi {
      MulAtLeast(q - hi, n);
    }
  }
  lemma {:induction false} LatSumBounds(replies: seq<LatencyReply>, k: nat, lo: nat, hi: nat)
    requires forall i :: 0 <= i < |replies| ==> k < |replies[i].lat| && lo <= replies[i].lat[k] <= hi
    ensures |replies| * lo <= LatSum(replies, k) <= |replies| * hi
  {
    if replies != [] {
      LatSumBounds(replies[..|replies| - 1], k, lo, hi);
      assert |replies| * lo == (|replies| - 1) * lo + lo;
      assert |replies| * hi == (|replies| - 1) * hi + hi;
    }
  }

  /** Without wrap-around, the aggregated latency field lies between the
      smallest and the largest value the agents reported for it; in
      particular agents that agree on a value aggregate to that value. */
  lemma LatencyMeanWithinRange(replies: seq<LatencyReply>, k: nat, lo: nat, hi: nat)
    requires replies != []
    requires forall i :: 0 <= i < |replies| ==> k < |replies[i].lat| && lo <= replies[i].lat[k] <= hi
    requires LatSum(replies, k) < TWO_64
    ensures lo <= U64(LatSum(replies, k)) / |replies| <= hi
  {
    LatSumBounds(replies, k, lo, hi);
    TruncMeanBounds(LatSum(replies, k), |replies|, lo, hi);
  }

  // ---------------------------------------------------------------------
  // getLatCISize

  /** Indices of P99_i and P99_k among Avg_lat, P50_i, P50, P50_k, ... */
  const P99_I: nat := 10
  const P99_K: nat := 12

  /** getLatCISize: the first reply's P99 bracket width, a uint64 difference
      read as an int; any percentile other than 99, or no replies, panics. */
  function GetLatCISize(replies: seq<LatencyReply>, percentile: int): (r: Go<int>)
    requires replies != [] ==> |replies[0].lat| > P99_K && Fits(replies[0].lat, 8)
    ensures r.Value? <==> percentile == 99 && replies != []
    ensures r.Fail? ==> r.err == Panic
    ensures r.Value? ==> U64(r.v) == U64(replies[0].lat[P99_K] as int - replies[0].lat[P99_I])
    ensures r.Value? && -TWO_63 <= replies[0].lat[P99_K] as int - replies[0].lat[P99_I] < TWO_63 ==>
              r.v == replies[0].lat[P99_K] as int - replies[0].lat[P99_I]
  {
    if percentile != 99 || replies == [] then Fail(Panic)
    else
      Pow256Values();
      var d := replies[0].lat[P99_K] as int - replies[0].lat[P99_I];
      var w := U64(d);
      assert -TWO_63 <= d < TWO_63 ==> I64(w) == d by {
        if -TWO_63 <= d < TWO_63 {
          if d < 0 {
            assert w == d + TWO_64;
          }
        }
      }
      Value(I64(w))
  }
}
