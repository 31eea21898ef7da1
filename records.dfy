// The per-thread statistics records that a worker thread fills and the
// manager reads (struct timespec, lat_sample, tx_samples and the two record
// shapes of agentcontroller.py), seen as values.

module Records {

  /** Capacity of a latency-sample ring (MAX_PER_THREAD_SAMPLES). */
  const MAX_PER_THREAD_SAMPLES: nat := 131072
  /** Number of TX-gap slots in use (MAX_PER_THREAD_TX_SAMPLES). */
  const MAX_PER_THREAD_TX_SAMPLES: nat := 4096

  /** struct timespec: seconds and nanoseconds. */
  datatype Timespec = Timespec(sec: int, nsec: int)

  /** Nanoseconds since the epoch, as the manager pools it (sec * 1e9 + nsec). */
  function Nanos(t: Timespec): int { t.sec * 1_000_000_000 + t.nsec }

  /** A latency sample: the latency and the instant its request was sent. */
  datatype LatSample = LatSample(nsecLatency: int, send: Timespec)

  /** The ring of sampled TX gaps: how many were recorded and the slots. */
  datatype TxTimestamps = TxTimestamps(count: nat, samples: seq<Timespec>)

  /** One worker thread's record: throughput agents (type 0) have no latency
      ring, latency agents (types 1 to 3) have IncIdx and Samples too. */
  datatype ThreadStats =
    | ThroughputRecord(rxBytes: nat, rxReqs: nat, txBytes: nat, txReqs: nat,
                       txTs: TxTimestamps)
    | LatencyRecord(rxBytes: nat, rxReqs: nat, txBytes: nat, txReqs: nat,
                    incIdx: nat, samples: seq<LatSample>, txTs: TxTimestamps)

  const ZERO_TIME := Timespec(0, 0)

  /** A TX ring as the worker leaves it after zeroing its segment. */
  function EmptyTxTimestamps(): (t: TxTimestamps)
    ensures t.count == 0 && |t.samples| == MAX_PER_THREAD_SAMPLES
  {
    TxTimestamps(0, seq(MAX_PER_THREAD_SAMPLES, _ => ZERO_TIME))
  }

  /** A record as the worker leaves it after zeroing its segment. */
  function ZeroRecord(latency: bool): (r: ThreadStats)
    ensures r.LatencyRecord? == latency
    ensures r.rxBytes == r.rxReqs == r.txBytes == r.txReqs == r.txTs.count == 0
    ensures latency ==> r.incIdx == 0 && |r.samples| == MAX_PER_THREAD_SAMPLES
  {
    if latency then
      LatencyRecord(0, 0, 0, 0, 0, seq(MAX_PER_THREAD_SAMPLES, _ => LatSample(0, ZERO_TIME)),
                    EmptyTxTimestamps())
    else
      ThroughputRecord(0, 0, 0, 0, EmptyTxTimestamps())
  }
}
