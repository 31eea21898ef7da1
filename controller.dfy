// The manager's handle on the local agent (agent-manager/manager/agentcontroller.py):
// finding the agent's control block, mapping each worker thread's record,
// and driving the load and measurement switches in the control block.
// The shared memory segments are modelled as values the controller owns;
// the agent process, the sleeps and librand's set_avg_ext are parameters
// or recorded calls.

module Controller {
  import opened Common
  import opened Bytes
  import opened Records
  import ManagerStats

  /** How many one-second attempts launch_agent makes to open the control block. */
  const LAUNCH_TRIES: nat := 10

  /** AgentControlBlock, without the idist name. */
  datatype ControlBlock = ControlBlock(shouldLoad: int, shouldMeasure: int, threadCount: int,
                                       agentType: int, sampleCount: nat, samplingRate: real,
                                       connOpen: int)

  /** What the freshly started agent provides: whether the control block
      exists at each attempt, its contents, and which per-thread record
      segments exist. */
  datatype AgentEnv = AgentEnv(controlReady: nat -> bool, block: ControlBlock,
                               statsExists: nat -> bool)

  predicate KnownAgentType(t: int) { 0 <= t <= 3 }

  /** The first attempt i in [from, LAUNCH_TRIES) at which the block exists, if any. */
  function FirstReady(ready: nat -> bool, from: nat): (r: Option<nat>)
    requires from <= LAUNCH_TRIES
    ensures r.Some? ==> from <= r.value < LAUNCH_TRIES && ready(r.value)
    ensures r.None? <==> forall i :: from <= i < LAUNCH_TRIES ==> !ready(i)
    decreases LAUNCH_TRIES - from
  {
    if from == LAUNCH_TRIES then None
    else if ready(from) then Some(from)
    else FirstReady(ready, from + 1)
  }

  /** The number of record segments mapped before the first missing one,
      out of the first `count`. */
  function SegmentsMapped(exists_: nat -> bool, count: nat, i: nat): (k: nat)
    requires i <= count
    ensures i <= k <= count
    ensures forall j :: i <= j < k ==> exists_(j)
    ensures k < count ==> !exists_(k)
    decreases count - i
  {
    if i == count || !exists_(i) then i else SegmentsMapped(exists_, count, i + 1)
  }

  /** Python's range(n) is empty for a negative n. */
  function RangeLen(n: int): nat { if n <= 0 then 0 else n }

  /** One record after clear_stats: counters and the TX count zeroed, and
      IncIdx too when the agent is a latency agent. */
  function Cleared(s: ThreadStats, latencyAgent: bool): (r: ThreadStats)
    ensures r.LatencyRecord? == s.LatencyRecord?
    ensures r.rxBytes == r.rxReqs == r.txBytes == r.txReqs == r.txTs.count == 0
    ensures r.txTs.samples == s.txTs.samples
    ensures r.LatencyRecord? ==> r.samples == s.samples &&
                                 r.incIdx == (if latencyAgent then 0 else s.incIdx)
  {
    match s
    case ThroughputRecord(_, _, _, _, tx) => ThroughputRecord(0, 0, 0, 0, tx.(count := 0))
    case LatencyRecord(_, _, _, _, inc, samples, tx) =>
      LatencyRecord(0, 0, 0, 0, if latencyAgent then 0 else inc, samples, tx.(count := 0))
  }

  function ClearAll(rs: seq<ThreadStats>, latencyAgent: bool): (r: seq<ThreadStats>)
    ensures |r| == |rs|
  {
    seq(|rs|, i requires 0 <= i < |rs| => Cleared(rs[i], latencyAgent))
  }

  /** After clear_stats a report starts from nothing: every counter sums to
      zero, no TX gap is pooled, and a latency agent's records pool no
      latency sample. */
  lemma {:induction false} ClearedReportsNothing(rs: seq<ThreadStats>, latencyAgent: bool,
                                                 c: ManagerStats.Counter, perThread: nat)
    ensures ManagerStats.Total(ClearAll(rs, latencyAgent), c) == 0
    ensures ManagerStats.TxPool(ClearAll(rs, latencyAgent)) == []
    ensures latencyAgent && ManagerStats.AllLatency(rs) ==>
              ManagerStats.LatPool(ClearAll(rs, latencyAgent), perThread) == Ok([])
  {
    var cs := ClearAll(rs, latencyAgent);
    if rs != [] {
      var front := rs[..|rs| - 1];
      assert cs[..|cs| - 1] == ClearAll(front, latencyAgent);
      ClearedReportsNothing(front, latencyAgent, c, perThread);
      assert cs[|cs| - 1] == Cleared(rs[|rs| - 1], latencyAgent);
      if latencyAgent && ManagerStats.AllLatency(rs) {
        assert ManagerStats.AllLatency(front);
        assert rs[|rs| - 1].LatencyRecord?;
      }
    }
  }

  /** The interval (in microseconds) start_load hands to set_avg_ext: each
      of the agent's threads gets an equal share of the requested load. */
  function PerThreadInterval(load: nat, threads: int): real
    requires load != 0 && threads != 0
  {
    1000000.0 / (load as real / threads as real)
  }

  /** The intervals of all threads add back up to the requested load (in
      requests per second). */
  lemma IntervalsGiveLoad(load: nat, threads: int)
    requires load != 0 && threads != 0
    ensures threads as real * (1000000.0 / PerThreadInterval(load, threads)) == load as real
  {
    var per := load as real / threads as real;
    assert per != 0.0;
    assert 1000000.0 / (1000000.0 / per) == per;
    assert threads as real * per == load as real;
  }

  /** The agent's worker threads, which write their records through shared
      memory while the manager serves: agent(i, j, r) is what thread j's
      record holds when the manager reads it for the i-th request, r being
      that record as the manager last left it (launched, or cleared). */
  type AgentWriter = (nat, nat, ThreadStats) -> ThreadStats

  /** The records as the agent's threads have written them by request i. */
  function Written(stats: seq<ThreadStats>, i: nat, agent: AgentWriter): (r: seq<ThreadStats>)
    ensures |r| == |stats|
    ensures forall j :: 0 <= j < |r| ==> r[j] == agent(i, j, stats[j])
  {
    seq(|stats|, j requires 0 <= j < |stats| => agent(i, j, stats[j]))
  }

  class LancetController {
    var acb: ControlBlock
    /** The mapped per-thread records, in thread order. */
    var threadStats: seq<ThreadStats>
    /** The arguments of every set_avg_ext call so far. */
    var loadCalls: seq<real>
    /** Whether terminate has killed the agent. */
    var killed: bool
    /** What Popen.poll() reports: the agent's exit status once it has ended. */
    var agentExit: Option<int>

    constructor()
      ensures threadStats == [] && loadCalls == [] && !killed && agentExit.None?
    {
      acb := ControlBlock(0, 0, 0, 0, 0, 0.0, 0);
      threadStats := [];
      loadCalls := [];
      killed := false;
      agentExit := None;
    }

    /** launch_agent: wait for the control block, then map one record per
        thread, of the shape the agent type calls for. */
    method LaunchAgent(env: AgentEnv) returns (r: Py<()>)
      modifies this
      ensures loadCalls == old(loadCalls) && killed == old(killed) && agentExit == old(agentExit)
      ensures FirstReady(env.controlReady, 0).None? ==>
                r == Raise(AssertionError) && acb == old(acb) && threadStats == old(threadStats)
      ensures FirstReady(env.controlReady, 0).Some? ==> acb == env.block
      ensures FirstReady(env.controlReady, 0).Some? && !KnownAgentType(env.block.agentType) ==>
                r == Raise(AssertionError) && threadStats == old(threadStats)
      ensures FirstReady(env.controlReady, 0).Some? && KnownAgentType(env.block.agentType) ==>
                var n := RangeLen(env.block.threadCount);
                var k := SegmentsMapped(env.statsExists, n, 0);
                threadStats == old(threadStats) + seq(k, _ => ZeroRecord(env.block.agentType > 0)) &&
                r == (if k < n then Raise(ExistentialError) else Ok(()))
    {
      var i := 0;
      while i < LAUNCH_TRIES && !env.controlReady(i)
        invariant 0 <= i <= LAUNCH_TRIES
        invariant forall j :: 0 <= j < i ==> !env.controlReady(j)
      {
        i := i + 1;
      }
      if i == LAUNCH_TRIES {
        return Raise(AssertionError);
      }
      acb := env.block;
      if !KnownAgentType(acb.agentType) {
        return Raise(AssertionError);
      }
      var latency := acb.agentType > 0;
      var n := RangeLen(acb.threadCount);
      ghost var before := threadStats;
      var t := 0;
      while t < n
        invariant 0 <= t <= n
        invariant forall j :: 0 <= j < t ==> env.statsExists(j)
        invariant threadStats == before + seq(t, _ => ZeroRecord(latency))
        invariant acb == env.block && loadCalls == old(loadCalls)
        invariant killed == old(killed) && agentExit == old(agentExit)
      {
        if !env.statsExists(t) {
          assert SegmentsMapped(env.statsExists, n, 0) == t by {
            SegmentsMappedIs(env.statsExists, n, t);
          }
          return Raise(ExistentialError);
        }
        threadStats := threadStats + [ZeroRecord(latency)];
        t := t + 1;
      }
      SegmentsMappedIs(env.statsExists, n, n);
      r := Ok(());
    }

    /** start_load: stop measuring, give every thread its share of the load
        through set_avg_ext, and switch the load on. A zero thread count or
        a zero load divides by zero after the measurement switch is off. */
    method StartLoad(load: nat) returns (r: Py<()>)
      modifies this
      ensures threadStats == old(threadStats) && killed == old(killed) && agentExit == old(agentExit)
      ensures acb.shouldMeasure == 0
      ensures acb.threadCount == 0 || load == 0 ==>
                r == Raise(ZeroDivisionError) && loadCalls == old(loadCalls) &&
                acb == old(acb).(shouldMeasure := 0)
      ensures acb.threadCount != 0 && load != 0 ==>
                r == Ok(()) && loadCalls == old(loadCalls) + [PerThreadInterval(load, acb.threadCount)] &&
                acb == old(acb).(shouldMeasure := 0, shouldLoad := 1)
    {
      acb := acb.(shouldMeasure := 0);
      if acb.threadCount == 0 {
        return Raise(ZeroDivisionError);
      }
      var perThreadLoad := load as real / acb.threadCount as real;
      if perThreadLoad == 0.0 {
        return Raise(ZeroDivisionError);
      }
      loadCalls := loadCalls + [1000000.0 / perThreadLoad];
      acb := acb.(shouldLoad := 1);
      r := Ok(());
    }

    /** start_measure: clear the records, split the sample count among the
        threads (truncating, and wrapping to the 32-bit field), store the
        sampling rate as a fraction, and switch measuring on. */
    method StartMeasure(sampleCount: nat, samplingRate: real) returns (r: Py<()>)
      modifies this
      ensures threadStats == ClearAll(old(threadStats), old(acb).agentType > 0)
      ensures loadCalls == old(loadCalls) && killed == old(killed) && agentExit == old(agentExit)
      ensures old(acb).threadCount == 0 ==> r == Raise(ZeroDivisionError) && acb == old(acb)
      ensures old(acb).threadCount != 0 ==>
                r == Ok(()) &&
                acb == old(acb).(sampleCount := U32(TruncDiv(sampleCount, old(acb).threadCount)),
                                 samplingRate := samplingRate / 100.0, shouldMeasure := 1)
    {
      ClearStats();
      if acb.threadCount == 0 {
        return Raise(ZeroDivisionError);
      }
      acb := acb.(sampleCount := U32(TruncDiv(sampleCount, acb.threadCount)));
      acb := acb.(samplingRate := samplingRate / 100.0);
      acb := acb.(shouldMeasure := 1);
      r := Ok(());
    }

    method GetConnOpen() returns (c: int)
      ensures c == acb.connOpen
    {
      c := acb.connOpen;
    }

    method Terminate()
      modifies this
      ensures killed
      ensures acb == old(acb) && threadStats == old(threadStats) && loadCalls == old(loadCalls)
      ensures agentExit == old(agentExit)
    {
      killed := true;
    }

    /** The worker threads' writes up to the manager's i-th request: each
        record becomes what its thread has written; nothing else changes. */
    method AgentWrites(i: nat, agent: AgentWriter)
      modifies this
      ensures threadStats == Written(old(threadStats), i, agent)
      ensures acb == old(acb) && loadCalls == old(loadCalls) && killed == old(killed) && agentExit == old(agentExit)
    {
      threadStats := Written(threadStats, i, agent);
    }

    /** get_stats: stop measuring and hand out the records. */
    method GetStats() returns (stats: seq<ThreadStats>)
      modifies this
      ensures stats == threadStats == old(threadStats)
      ensures acb == old(acb).(shouldMeasure := 0)
      ensures loadCalls == old(loadCalls) && killed == old(killed) && agentExit == old(agentExit)
    {
      acb := acb.(shouldMeasure := 0);
      stats := threadStats;
    }

    method CheckAgent() returns (status: Option<int>)
      ensures status == agentExit
    {
      status := agentExit;
    }

    method GetPerThreadSamples() returns (n: nat)
      ensures n == acb.sampleCount
    {
      n := acb.sampleCount;
    }

    /** clear_stats: zero each record's counters and TX count, and IncIdx
        for latency agents; the samples themselves stay. */
    method ClearStats()
      modifies this
      ensures threadStats == ClearAll(old(threadStats), acb.agentType > 0)
      ensures acb == old(acb) && loadCalls == old(loadCalls)
      ensures killed == old(killed) && agentExit == old(agentExit)
    {
      var latency := acb.agentType > 0;
      var i := 0;
      while i < |threadStats|
        invariant 0 <= i <= |threadStats| == |old(threadStats)|
        invariant forall j :: 0 <= j < i ==> threadStats[j] == Cleared(old(threadStats)[j], latency)
        invariant forall j :: i <= j < |threadStats| ==> threadStats[j] == old(threadStats)[j]
        invariant acb == old(acb) && loadCalls == old(loadCalls)
        invariant killed == old(killed) && agentExit == old(agentExit)
      {
        threadStats := threadStats[i := Cleared(threadStats[i], latency)];
        i := i + 1;
      }
    }
  }

  /** SegmentsMapped stops at the first missing segment. */
  lemma SegmentsMappedIs(exists_: nat -> bool, count: nat, t: nat)
    requires t <= count
    requires forall j :: 0 <= j < t ==> exists_(j)
    requires t == count || !exists_(t)
    ensures SegmentsMapped(exists_, count, 0) == t
  {
  }
}
