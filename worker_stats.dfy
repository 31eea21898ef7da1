// A worker thread's statistics (agents/stats.c): throughput counters that
// move only while the manager has asked for a measurement, a ring of sampled
// gaps between transmit timestamps, and a ring of sampled latencies. The
// records live in shared memory that the manager reads; here they are the
// fields of one object, and the shared-memory plumbing is left out. The
// control block's should_measure flag, the 1% draw of drand48() and
// lround(1 / sampling_rate) are the callers' inputs.

module WorkerStats {
  import opened Common
  import opened Bytes

  const MAX_PER_THREAD_SAMPLES: nat := 131072
  const MAX_PER_THREAD_TX_SAMPLES: nat := 4096
  const BILLION: int := 1000000000

  // ---------------------------------------------------------------------
  // struct timespec and timespec_diff (agents/timestamping.c)

  datatype Timespec = Timespec(sec: int, nsec: int)

  predicate Normal(t: Timespec) { 0 <= t.nsec < BILLION }

  /** The instant in nanoseconds. */
  function Nanos(t: Timespec): int { t.sec * BILLION + t.nsec }

  /** timespec_diff(res, a, b): a - b with a borrow from the seconds, or
      None (the -1 return, with res untouched) when a pointer is NULL or
      either time has tv_sec 0. A negative difference is not refused. */
  function TimespecDiff(a: Option<Timespec>, b: Option<Timespec>): (r: Option<Timespec>)
    ensures r.None? <==> a.None? || b.None? || a.value.sec == 0 || b.value.sec == 0
    ensures r.Some? ==> Nanos(r.value) == Nanos(a.value) - Nanos(b.value)
    ensures r.Some? && Normal(a.value) && Normal(b.value) ==> Normal(r.value)
  {
    if a.None? || b.None? then None
    else if a.value.sec == 0 || b.value.sec == 0 then None
    else if a.value.nsec < b.value.nsec then
      Some(Timespec(a.value.sec - 1 - b.value.sec, BILLION - (b.value.nsec - a.value.nsec)))
    else
      Some(Timespec(a.value.sec - b.value.sec, a.value.nsec - b.value.nsec))
  }

  // ---------------------------------------------------------------------
  // Rings indexed by a wrapping counter

  /** The ring's first n slots hold the last n entries of the history, each
      at its position modulo n. */
  ghost predicate RingHolds<T>(ring: seq<T>, hist: seq<T>, n: nat)
  {
    0 < n <= |ring| &&
    forall k :: 0 <= k < |hist| && |hist| - n <= k ==> ring[k % n] == hist[k]
  }

  /** The last n positions fall in distinct slots. */
  lemma RingSlotsDistinct(j: int, k: int, n: int)
    requires n > 0 && 0 <= j < k < j + n
    ensures j % n != k % n
  {
    var q, r, d := j / n, j % n, k - j;
    assert j == q * n + r;
    if r + d < n {
      ModUnique(k, q, r + d, n);
    } else {
      assert k == (q + 1) * n + (r + d - n);
      ModUnique(k, q + 1, r + d - n, n);
    }
  }

  /** Writing the next entry at its slot keeps the ring holding the last n. */
  lemma RingPush<T>(ring: seq<T>, hist: seq<T>, x: T, n: nat)
    requires RingHolds(ring, hist, n)
    ensures RingHolds(ring[|hist| % n := x], hist + [x], n)
  {
    var ring' := ring[|hist| % n := x];
    var hist' := hist + [x];
    forall k | 0 <= k < |hist'| && |hist'| - n <= k
      ensures ring'[k % n] == hist'[k]
    {
      if k < |hist| {
        RingSlotsDistinct(k, |hist|, n);
      }
    }
  }

  /** A 32-bit counter indexes a ring whose size divides 2^32 as the
      unbounded count would. */
  lemma WrapIndex(h: nat, n: nat)
    requires n > 0 && TWO_32 % n == 0
    ensures (h % TWO_32) % n == h % n
  {
    var q, c := h / TWO_32, TWO_32 / n;
    assert TWO_32 == c * n;
    assert h == q * TWO_32 + h % TWO_32;
    assert (q * c) * n == q * TWO_32;
    ModShift(h % TWO_32, q * c, n);
  }

  // ---------------------------------------------------------------------
  // struct byte_req_pair

  datatype ByteReqPair = ByteReqPair(bytes: nat, reqs: nat)

  predicate Fits64(p: ByteReqPair) { p.bytes < TWO_64 && p.reqs < TWO_64 }

  /** Adding into the uint64 counters. */
  function AddPair(acc: ByteReqPair, p: ByteReqPair): (r: ByteReqPair)
    ensures Fits64(r)
  {
    ByteReqPair(U64(acc.bytes + p.bytes), U64(acc.reqs + p.reqs))
  }

  function SumBytes(ps: seq<ByteReqPair>): nat
  {
    if ps == [] then 0 else SumBytes(ps[..|ps| - 1]) + ps[|ps| - 1].bytes
  }

  function SumReqs(ps: seq<ByteReqPair>): nat
  {
    if ps == [] then 0 else SumReqs(ps[..|ps| - 1]) + ps[|ps| - 1].reqs
  }

  /** The counters after a series of additions. */
  function AddAll(acc: ByteReqPair, ps: seq<ByteReqPair>): ByteReqPair
  {
    if ps == [] then acc else AddPair(AddAll(acc, ps[..|ps| - 1]), ps[|ps| - 1])
  }

  /** However the additions are spread over calls, the counters hold the
      totals modulo 2^64. */
  lemma {:induction false} AddAllIsSum(acc: ByteReqPair, ps: seq<ByteReqPair>)
    requires ps != []
    ensures AddAll(acc, ps) == ByteReqPair(U64(acc.bytes + SumBytes(ps)), U64(acc.reqs + SumReqs(ps)))
  {
    var init := ps[..|ps| - 1];
    var last := ps[|ps| - 1];
    if init != [] {
      AddAllIsSum(acc, init);
      WrapAdd(acc.bytes + SumBytes(init), last.bytes, TWO_64);
      WrapAdd(acc.reqs + SumReqs(init), last.reqs, TWO_64);
    }
  }

  // ---------------------------------------------------------------------
  // The thread's records

  /** struct lat_sample */
  datatype LatSample = LatSample(nsec: nat, tx: Timespec)

  const ZERO_TIME := Timespec(0, 0)

  class ThreadStats {
    /** th_s.rx and th_s.tx */
    var rx: ByteReqPair
    var tx: ByteReqPair
    /** tx_s->count and tx_s->samples */
    var txCount: nat
    const txSamples: array<Timespec>
    /** lt_s.inc_idx and lt_s.samples */
    var incIdx: nat
    const latSamples: array<LatSample>
    var txSampleSelector: nat
    var prevTxTimestamp: Timespec
    /** Every gap and latency recorded so far, oldest first. */
    ghost var txGaps: seq<Timespec>
    ghost var latencies: seq<LatSample>

    ghost predicate Valid()
      reads this, txSamples, latSamples
    {
      Fits64(rx) && Fits64(tx) &&
      txSamples.Length == MAX_PER_THREAD_SAMPLES && latSamples.Length == MAX_PER_THREAD_SAMPLES &&
      txCount == |txGaps| % TWO_32 && incIdx == |latencies| % TWO_32 && txSampleSelector < TWO_32 &&
      RingHolds(txSamples[..], txGaps, MAX_PER_THREAD_TX_SAMPLES) &&
      RingHolds(latSamples[..], latencies, MAX_PER_THREAD_SAMPLES)
    }

    /** Everything but the throughput counters. */
    ghost function Rings(): (Timespec, nat, nat, nat, seq<Timespec>, seq<LatSample>)
      reads this
    {
      (prevTxTimestamp, txCount, incIdx, txSampleSelector, txGaps, latencies)
    }

    /** configure_stats_shm: the segment starts zeroed. */
    constructor()
      ensures Valid() && fresh(txSamples) && fresh(latSamples)
      ensures rx == ByteReqPair(0, 0) && tx == ByteReqPair(0, 0)
      ensures txGaps == [] && latencies == [] && txSampleSelector == 0 && prevTxTimestamp == ZERO_TIME
    {
      rx, tx := ByteReqPair(0, 0), ByteReqPair(0, 0);
      txCount, incIdx, txSampleSelector := 0, 0, 0;
      txSamples := new Timespec[MAX_PER_THREAD_SAMPLES](_ => ZERO_TIME);
      latSamples := new LatSample[MAX_PER_THREAD_SAMPLES](_ => LatSample(0, ZERO_TIME));
      prevTxTimestamp := ZERO_TIME;
      txGaps, latencies := [], [];
    }

    /** add_throughput_tx_sample */
    method AddThroughputTx(measuring: bool, p: ByteReqPair)
      requires Valid() && Fits64(p)
      modifies this
      ensures Valid()
      ensures tx == (if measuring then AddPair(old(tx), p) else old(tx))
      ensures rx == old(rx) && Rings() == old(Rings())
    {
      if !measuring {
        return;
      }
      tx := AddPair(tx, p);
    }

    /** add_throughput_rx_sample */
    method AddThroughputRx(measuring: bool, p: ByteReqPair)
      requires Valid() && Fits64(p)
      modifies this
      ensures Valid()
      ensures rx == (if measuring then AddPair(old(rx), p) else old(rx))
      ensures tx == old(tx) && Rings() == old(Rings())
    {
      if !measuring {
        return;
      }
      rx := AddPair(rx, p);
    }

    /** add_tx_timestamp: when the 1% draw fires, record the gap since the
        previous transmit timestamp; the previous timestamp moves on in
        every call. */
    method AddTxTimestamp(sampled: bool, ts: Timespec)
      requires Valid()
      modifies this, txSamples
      ensures Valid()
      ensures prevTxTimestamp == ts
      ensures var gap := TimespecDiff(Some(ts), Some(old(prevTxTimestamp)));
              if sampled && gap.Some? then
                txGaps == old(txGaps) + [gap.value] &&
                txSamples[..] == old(txSamples[..])[old(txCount) % MAX_PER_THREAD_TX_SAMPLES := gap.value]
              else
                txGaps == old(txGaps) && txSamples[..] == old(txSamples[..])
      ensures rx == old(rx) && tx == old(tx)
      ensures incIdx == old(incIdx) && txSampleSelector == old(txSampleSelector) && latencies == old(latencies)
    {
      if sampled {
        var slot := txCount % MAX_PER_THREAD_TX_SAMPLES;
        txCount := U32(txCount + 1);
        var gap := TimespecDiff(Some(ts), Some(prevTxTimestamp));
        if gap.Some? {
          WrapIndex(|txGaps|, MAX_PER_THREAD_TX_SAMPLES);
          RingPush(txSamples[..], txGaps, gap.value, MAX_PER_THREAD_TX_SAMPLES);
          txSamples[slot] := gap.value;
          txGaps := txGaps + [gap.value];
          WrapAdd(|old(txGaps)|, 1, TWO_32);
        } else {
          txCount := U32(txCount - 1);
          WrapAdd(|txGaps|, 1, TWO_32);
          WrapAdd(|txGaps| + 1, -1, TWO_32);
        }
      }
      prevTxTimestamp := ts;
    }

    /** add_latency_sample: while measuring, every call counts against the
        selector, and the calls it selects (every period-th) record the
        latency, with the transmit time when one is given. */
    method AddLatencySample(measuring: bool, diff: int, txTime: Option<Timespec>, period: nat)
      requires Valid() && diff > 0 && period > 0
      modifies this, latSamples
      ensures Valid()
      ensures txSampleSelector == (if measuring then U32(old(txSampleSelector) + 1) else old(txSampleSelector))
      ensures var slot := old(incIdx) % MAX_PER_THREAD_SAMPLES;
              var sample := LatSample(diff, if txTime.Some? then txTime.value else old(latSamples[slot].tx));
              if measuring && old(txSampleSelector) % period == 0 then
                latencies == old(latencies) + [sample] && latSamples[..] == old(latSamples[..])[slot := sample]
              else
                latencies == old(latencies) && latSamples[..] == old(latSamples[..])
      ensures rx == old(rx) && tx == old(tx) && prevTxTimestamp == old(prevTxTimestamp)
      ensures txCount == old(txCount) && txGaps == old(txGaps)
    {
      if !measuring {
        return;
      }
      var selected := txSampleSelector % period == 0;
      txSampleSelector := U32(txSampleSelector + 1);
      if !selected {
        return;
      }
      var slot := incIdx % MAX_PER_THREAD_SAMPLES;
      var sample := LatSample(diff, if txTime.Some? then txTime.value else latSamples[slot].tx);
      WrapIndex(|latencies|, MAX_PER_THREAD_SAMPLES);
      RingPush(latSamples[..], latencies, sample, MAX_PER_THREAD_SAMPLES);
      latSamples[slot] := sample;
      WrapAdd(|latencies|, 1, TWO_32);
      incIdx := U32(incIdx + 1);
      latencies := latencies + [sample];
    }

    /** What one add_latency_sample call of latency diff leaves in the
        latency records since the old state: the selector counts the call
        while measuring, and a selected call appends the sample, with txTime
        or the slot's old transmit time, to the history and the ring. */
    twostate predicate LatencyAdded(measuring: bool, diff: int, txTime: Option<Timespec>, period: nat)
      reads this, latSamples
    {
      var before := old(latSamples[..]);
      var slot := old(incIdx) % MAX_PER_THREAD_SAMPLES;
      period > 0 && diff >= 0 && slot < |before| &&
      txSampleSelector == (if measuring then U32(old(txSampleSelector) + 1) else old(txSampleSelector)) &&
      var sample := LatSample(diff, if txTime.Some? then txTime.value else before[slot].tx);
      if measuring && old(txSampleSelector) % period == 0 then
        latencies == old(latencies) + [sample] && latSamples[..] == before[slot := sample]
      else
        latencies == old(latencies) && latSamples[..] == before
    }

    /** No latency was recorded since the old state. */
    twostate predicate LatencyKept()
      reads this, latSamples
    {
      txSampleSelector == old(txSampleSelector) && latencies == old(latencies) && latSamples[..] == old(latSamples[..])
    }

    /** The transmit side is as in the old state: the tx counters, the
        previous transmit time and the gap history. */
    twostate predicate TxKept()
      reads this
    {
      tx == old(tx) && txCount == old(txCount) && txGaps == old(txGaps) && prevTxTimestamp == old(prevTxTimestamp)
    }

    /** The throughput counters and the latency history are as in the old
        state. */
    twostate predicate CountersAndLatenciesKept()
      reads this
    {
      rx == old(rx) && tx == old(tx) && latencies == old(latencies) &&
      incIdx == old(incIdx) && txSampleSelector == old(txSampleSelector)
    }
  }

  /** After a full ring, every slot holds the latest entry that maps to it:
      the ring is the last MAX_PER_THREAD_SAMPLES latencies, rotated. */
  lemma LatestLatencyAtSlot(s: ThreadStats, i: nat)
    requires s.Valid() && i < MAX_PER_THREAD_SAMPLES && |s.latencies| >= MAX_PER_THREAD_SAMPLES
    ensures exists k :: |s.latencies| - MAX_PER_THREAD_SAMPLES <= k < |s.latencies| &&
                        k % MAX_PER_THREAD_SAMPLES == i && s.latSamples[i] == s.latencies[k]
  {
    var n := MAX_PER_THREAD_SAMPLES;
    var h := |s.latencies|;
    var base := h - n;
    var k := base + ((i - base % n) % n);
    assert base == (base / n) * n + base % n;
    assert k == (base / n) * n + (base % n + (i - base % n) % n);
    var off := (i - base % n) % n;
    assert 0 <= off < n;
    if base % n <= i {
      assert off == i - base % n;
      ModUnique(k, base / n, i, n);
    } else {
      assert i - base % n + n == off by {
        ModUnique(i - base % n, -1, i - base % n + n, n);
      }
      ModUnique(k, base / n + 1, i, n);
    }
    assert s.latSamples[..][k % n] == s.latencies[k];
  }
}
