// The coordinator's experiment driver (coordinator/coordinator.go): load
// the agents, measure, check the measurement's quality and retry. The
// agents are reached through the protocol functions of coordinator/proto.go;
// here each of those calls is an exchange with the agent fleet (the Cluster
// below), which records the request and answers with what the environment
// says the n-th exchange returns. The floating-point steps (the achieved
// request rate against its band, the ceiling that gives a duration, and
// strconv.ParseFloat) are parameters of the environment as well; sleeping
// and printing are left out.

module Coordinator {
  import opened Common
  import opened Bytes
  import opened CoordProto
  import opened GoProto
  import opened CoordStats
  import opened CoordParse

  const MAX_TRIES: nat := 10
  /** In seconds: fifteen minutes. */
  const MAX_DURATION: int := 900
  /** check_conn_open is polled at most this many times, a second apart. */
  const CONN_POLLS: nat := 60
  /** The latency fields of the coordinator's latency_reply. */
  const SHORT_FIELDS: nat := 13
  /** The sampling rate below which a non-IID measurement is accepted anyway. */
  const MIN_SAMPLING_RATE: real := 0.01

  datatype CoordState = Load | Measure | Exit

  /** Distance to Exit: the state machine only moves forward. */
  function Rank(s: CoordState): nat
  {
    match s
    case Load => 2
    case Measure => 1
    case Exit => 0
  }

  /** The three kinds of agents: throughput, latency, and symmetric ones. */
  datatype AgentClass = Th | Lt | Sym
  datatype Agents = Agents(th: nat, lt: nat, sym: nat)

  /** The number of agents in a concatenation of the per-kind lists. */
  function Members(a: Agents, group: seq<AgentClass>): nat
  {
    if group == [] then 0
    else
      Members(a, group[..|group| - 1]) +
      match group[|group| - 1]
      case Th => a.th
      case Lt => a.lt
      case Sym => a.sym
  }

  const LOAD_GROUP: seq<AgentClass> := [Sym, Th]
  const LATENCY_LOAD_GROUP: seq<AgentClass> := [Lt]
  const ALL_GROUP: seq<AgentClass> := [Th, Lt, Sym]
  const THROUGHPUT_GROUP: seq<AgentClass> := [Th]
  /** fixedPattern collects latency from append(ltAgents, symAgents)... */
  const FIXED_LATENCY_GROUP: seq<AgentClass> := [Lt, Sym]
  /** ...and fixedQualPattern from append(symAgents, ltAgents). */
  const QUAL_LATENCY_GROUP: seq<AgentClass> := [Sym, Lt]

  /** A call of a coordinator/proto.go function on a group of agents. */
  datatype Request =
    | SendCheckConnOpen(group: seq<AgentClass>)
    | SendStartLoad(group: seq<AgentClass>, load: int)
    | SendStartMeasure(group: seq<AgentClass>, samples: int, rate: real)
    | SendReportThroughput(group: seq<AgentClass>)
    | SendReportLatency(group: seq<AgentClass>)

  /** What the agents answer to the n-th exchange, and the floating-point
      steps: whether getRPS of an aggregate lies within 0.9 to 1.1 times an
      expected rate, and int(math.Ceil(samples / (baseRate * rate / 100))). */
  datatype Env = Env(
    connOpen: nat -> Go<bool>,
    ack: nat -> Go<()>,
    throughput: nat -> Go<seq<ThroughputReply>>,
    latency: nat -> Go<seq<LatencyReply>>,
    rpsInBand: (ThroughputReply, real) -> bool,
    duration: (int, real, real) -> int,
    parseFloat: string -> Option<real>)

  /** Latency replies carry the coordinator's struct's fields. */
  ghost predicate EnvValid(env: Env)
  {
    forall n :: env.latency(n).Value? ==> Width(env.latency(n).v, SHORT_FIELDS)
  }

  // An empty group exchanges nothing: the broadcast and the collection
  // loops run zero times.

  function PollAnswer(env: Env, a: Agents, group: seq<AgentClass>, n: nat): Go<bool>
  {
    if Members(a, group) == 0 then Value(true) else env.connOpen(n)
  }

  function AckAnswer(env: Env, a: Agents, group: seq<AgentClass>, n: nat): Go<()>
  {
    if Members(a, group) == 0 then Value(()) else env.ack(n)
  }

  function ThroughputAnswer(env: Env, a: Agents, group: seq<AgentClass>, n: nat): Go<seq<ThroughputReply>>
  {
    if Members(a, group) == 0 then Value([]) else env.throughput(n)
  }

  function LatencyAnswer(env: Env, a: Agents, group: seq<AgentClass>, n: nat): (r: Go<seq<LatencyReply>>)
    requires EnvValid(env)
    ensures r.Value? ==> Width(r.v, SHORT_FIELDS)
  {
    if Members(a, group) == 0 then Value([]) else env.latency(n)
  }

  /** The agent fleet as the coordinator sees it: every call is recorded in
      `sent`, and its answer depends on its position there. */
  class Cluster {
    const env: Env
    const agents: Agents
    var sent: seq<Request>

    constructor(env: Env, agents: Agents)
      ensures this.env == env && this.agents == agents && sent == []
    {
      this.env := env;
      this.agents := agents;
      sent := [];
    }

    method CheckConnOpen(group: seq<AgentClass>) returns (r: Go<bool>)
      modifies this
      ensures r == PollAnswer(env, agents, group, |old(sent)|)
      ensures sent == old(sent) + [SendCheckConnOpen(group)]
    {
      r := PollAnswer(env, agents, group, |sent|);
      sent := sent + [SendCheckConnOpen(group)];
    }

    method StartLoad(group: seq<AgentClass>, load: int) returns (r: Go<()>)
      modifies this
      ensures r == AckAnswer(env, agents, group, |old(sent)|)
      ensures sent == old(sent) + [SendStartLoad(group, load)]
    {
      r := AckAnswer(env, agents, group, |sent|);
      sent := sent + [SendStartLoad(group, load)];
    }

    method StartMeasure(group: seq<AgentClass>, samples: int, rate: real) returns (r: Go<()>)
      modifies this
      ensures r == AckAnswer(env, agents, group, |old(sent)|)
      ensures sent == old(sent) + [SendStartMeasure(group, samples, rate)]
    {
      r := AckAnswer(env, agents, group, |sent|);
      sent := sent + [SendStartMeasure(group, samples, rate)];
    }

    method ReportThroughput(group: seq<AgentClass>) returns (r: Go<seq<ThroughputReply>>)
      modifies this
      ensures r == ThroughputAnswer(env, agents, group, |old(sent)|)
      ensures sent == old(sent) + [SendReportThroughput(group)]
    {
      r := ThroughputAnswer(env, agents, group, |sent|);
      sent := sent + [SendReportThroughput(group)];
    }

    method ReportLatency(group: seq<AgentClass>) returns (r: Go<seq<LatencyReply>>)
      requires EnvValid(env)
      modifies this
      ensures r == LatencyAnswer(env, agents, group, |old(sent)|)
      ensures sent == old(sent) + [SendReportLatency(group)]
    {
      r := LatencyAnswer(env, agents, group, |sent|);
      sent := sent + [SendReportLatency(group)];
    }
  }

  /** How a run of exchanges ends, and the requests sent by then. */
  datatype Run = Run(err: Option<CoordErr>, trace: seq<Request>)

  /** A startLoad or startMeasure call: fails when the agents' answer does. */
  function AckExchange(env: Env, a: Agents, trace: seq<Request>, req: Request): Run
    requires req.SendStartLoad? || req.SendStartMeasure?
  {
    var ans := AckAnswer(env, a, req.group, |trace|);
    Run(if ans.Fail? then Some(AgentError(ans.err)) else None, trace + [req])
  }

  // ---------------------------------------------------------------------
  // load

  /** Polling check_conn_open with `left` polls to go: stops at an error or
      at the first true answer; false when all of them answered false. */
  function PollLoop(env: Env, a: Agents, trace: seq<Request>, left: nat): (r: (Go<bool>, seq<Request>))
    decreases left
  {
    if left == 0 then (Value(false), trace)
    else
      var ans := PollAnswer(env, a, LOAD_GROUP, |trace|);
      var t := trace + [SendCheckConnOpen(LOAD_GROUP)];
      if ans.Fail? || ans.v then (ans, t) else PollLoop(env, a, t, left - 1)
  }

  /** load: wait for the connections, then start the throughput and
      symmetric agents at an equal share of the load (truncating), and the
      latency agents at the latency rate. */
  function LoadSpec(env: Env, a: Agents, trace: seq<Request>, loadRate: int, latencyRate: int): Run
  {
    var polled := PollLoop(env, a, trace, CONN_POLLS);
    var open := polled.0;
    var t1 := polled.1;
    if open.Fail? then Run(Some(AgentError(open.err)), t1)
    else if !open.v then Run(Some(ConnectionsClosed), t1)
    else
      var shared := if a.sym + a.th > 0
                    then AckExchange(env, a, t1, SendStartLoad(LOAD_GROUP, TruncDiv(loadRate, a.sym + a.th)))
                    else Run(None, t1);
      if shared.err.Some? || a.lt == 0 then shared
      else AckExchange(env, a, shared.trace, SendStartLoad(LATENCY_LOAD_GROUP, latencyRate))
  }

  /** The polls give up with false exactly when every one of them answered false. */
  lemma {:induction false} PollLoopGivesUp(env: Env, a: Agents, trace: seq<Request>, left: nat)
    ensures PollLoop(env, a, trace, left).0 == Value(false) <==>
            forall n :: |trace| <= n < |trace| + left ==> PollAnswer(env, a, LOAD_GROUP, n) == Value(false)
    decreases left
  {
    if left > 0 {
      var t := trace + [SendCheckConnOpen(LOAD_GROUP)];
      PollLoopGivesUp(env, a, t, left - 1);
      if PollAnswer(env, a, LOAD_GROUP, |trace|) != Value(false) {
        assert |trace| <= |trace| < |trace| + left;
      }
    }
  }

  /** load reports closed connections exactly when all sixty polls said no. */
  lemma LoadGivesUp(env: Env, a: Agents, trace: seq<Request>, loadRate: int, latencyRate: int)
    ensures LoadSpec(env, a, trace, loadRate, latencyRate).err == Some(ConnectionsClosed) <==>
            forall n :: |trace| <= n < |trace| + CONN_POLLS ==> PollAnswer(env, a, LOAD_GROUP, n) == Value(false)
  {
    PollLoopGivesUp(env, a, trace, CONN_POLLS);
    var polled := PollLoop(env, a, trace, CONN_POLLS);
    if polled.0 == Value(true) {
      var t1 := polled.1;
      var shared := if a.sym + a.th > 0
                    then AckExchange(env, a, t1, SendStartLoad(LOAD_GROUP, TruncDiv(loadRate, a.sym + a.th)))
                    else Run(None, t1);
      assert shared.err != Some(ConnectionsClosed);
    }
  }

  /** A successful load has asked the latency agents for the latency rate
      last, and before that the throughput and symmetric agents for their
      share of the load rate. */
  lemma LoadSendsShares(env: Env, a: Agents, trace: seq<Request>, loadRate: int, latencyRate: int)
    requires LoadSpec(env, a, trace, loadRate, latencyRate).err.None?
    ensures var t := LoadSpec(env, a, trace, loadRate, latencyRate).trace;
            (a.lt > 0 ==> t[|t| - 1] == SendStartLoad(LATENCY_LOAD_GROUP, latencyRate)) &&
            (a.sym + a.th > 0 ==> SendStartLoad(LOAD_GROUP, TruncDiv(loadRate, a.sym + a.th)) in t)
  {
    var polled := PollLoop(env, a, trace, CONN_POLLS);
    var t1 := polled.1;
    if a.sym + a.th > 0 {
      var s := AckExchange(env, a, t1, SendStartLoad(LOAD_GROUP, TruncDiv(loadRate, a.sym + a.th)));
      assert s.trace[|s.trace| - 1] == SendStartLoad(LOAD_GROUP, TruncDiv(loadRate, a.sym + a.th));
      if a.lt > 0 {
        var t := AckExchange(env, a, s.trace, SendStartLoad(LATENCY_LOAD_GROUP, latencyRate)).trace;
        assert t[|s.trace| - 1] == s.trace[|s.trace| - 1];
      }
    }
  }

  // ---------------------------------------------------------------------
  // fixedPattern

  /** The sampling rate the latency-measuring agents are asked for: the
      per-agent rate times their number. */
  function MeasureRate(a: Agents, rate: real): real
  {
    rate * (a.sym + a.lt) as real
  }

  /** The throughput blocks of the latency replies. */
  function ThData(replies: seq<LatencyReply>): (r: seq<ThroughputReply>)
    ensures |r| == |replies|
  {
    seq(|replies|, i requires 0 <= i < |replies| => replies[i].thData)
  }

  /** fixedPattern: load, measure, and collect and aggregate the reports;
      what it prints is left out, so a completed run is a nil error. */
  function FixedSpec(env: Env, a: Agents, samples: int, rate: real, loadRate: int, latencyRate: int,
                     trace: seq<Request>): Run
    requires EnvValid(env)
  {
    if a.sym + a.th + a.lt == 0 then Run(Some(NoAgents), trace)
    else
      var loaded := LoadSpec(env, a, trace, loadRate, latencyRate);
      if loaded.err.Some? then loaded
      else
        var mrate := if a.sym + a.lt > 0 then MeasureRate(a, rate) else 100.0;
        var measuring := AckExchange(env, a, loaded.trace, SendStartMeasure(ALL_GROUP, samples, mrate));
        if measuring.err.Some? then measuring
        else
          var t2 := measuring.trace;
          var th := if a.th > 0 then ThroughputAnswer(env, a, THROUGHPUT_GROUP, |t2|) else Value([]);
          var t3 := if a.th > 0 then t2 + [SendReportThroughput(THROUGHPUT_GROUP)] else t2;
          if th.Fail? then Run(Some(AgentError(th.err)), t3)
          else if a.lt + a.sym == 0 then Run(if th.v == [] then Some(Panicked) else None, t3)
          else
            var lat := LatencyAnswer(env, a, FIXED_LATENCY_GROUP, |t3|);
            var t4 := t3 + [SendReportLatency(FIXED_LATENCY_GROUP)];
            if lat.Fail? then Run(Some(AgentError(lat.err)), t4)
            else Run(if lat.v == [] then Some(Panicked) else None, t4)
  }

  /** fixedPattern refuses to run exactly when there are no agents, and then
      sends nothing. */
  lemma FixedNeedsAgents(env: Env, a: Agents, samples: int, rate: real, loadRate: int, latencyRate: int,
                         trace: seq<Request>)
    requires EnvValid(env)
    ensures FixedSpec(env, a, samples, rate, loadRate, latencyRate, trace).err == Some(NoAgents) <==>
            a.sym + a.th + a.lt == 0
    ensures a.sym + a.th + a.lt == 0 ==> FixedSpec(env, a, samples, rate, loadRate, latencyRate, trace).trace == trace
  {
    if a.sym + a.th + a.lt > 0 {
      var loaded := LoadSpec(env, a, trace, loadRate, latencyRate);
      assert loaded.err != Some(NoAgents);
    }
  }

  // ---------------------------------------------------------------------
  // fixedQualPattern

  /** The state of fixedQualPattern's loop: c.state, tryCount, c.samplingRate
      and the requests sent so far. */
  datatype QualCfg = QualCfg(state: CoordState, tries: nat, rate: real, trace: seq<Request>)

  /** One turn of the loop: go round again, or return. */
  datatype QualStep = Next(cfg: QualCfg) | Stop(err: Option<CoordErr>, cfg: QualCfg)

  /** A retry, or a move forward with the same tryCount. */
  predicate Progress(c: QualCfg, d: QualCfg)
  {
    (d.tries == c.tries + 1 && d.state == c.state) || (d.tries == c.tries && Rank(d.state) < Rank(c.state))
  }

  /** The Load state: load, measure for a moment, and check the aggregate
      throughput against the expected rate and the inter-arrival verdict. */
  function LoadStep(env: Env, a: Agents, samples: int, loadRate: int, latencyRate: int, c: QualCfg): (s: QualStep)
    requires c.state == Load
    ensures s.Next? ==> Progress(c, s.cfg) && s.cfg.rate == c.rate
    ensures s.Stop? ==> s.cfg.state == c.state && s.cfg.tries == c.tries && s.cfg.rate == c.rate
  {
    var loaded := LoadSpec(env, a, c.trace, loadRate, latencyRate);
    if loaded.err.Some? then Stop(loaded.err, c.(trace := loaded.trace))
    else
      var measuring := AckExchange(env, a, loaded.trace, SendStartMeasure(ALL_GROUP, samples, MeasureRate(a, c.rate)));
      if measuring.err.Some? then Stop(measuring.err, c.(trace := measuring.trace))
      else
        var ans := ThroughputAnswer(env, a, ALL_GROUP, |measuring.trace|);
        var t := measuring.trace + [SendReportThroughput(ALL_GROUP)];
        if ans.Fail? then Stop(Some(AgentError(ans.err)), c.(trace := t))
        else if ans.v == [] then Stop(Some(Panicked), c.(trace := t))
        else
          var agg := ThroughputAggregate(ans.v);
          if !env.rpsInBand(agg, loadRate as real + latencyRate as real) || agg.correctIad == 0
          then Next(c.(tries := c.tries + 1, trace := t))
          else Next(c.(state := Measure, trace := t))
  }

  /** The rate the coordinator divides its per-agent rate by; Go's float
      division by zero gives +Inf, which a real number cannot hold, so a zero
      divisor leaves the rate as it is. */
  function Reduced(rate: real, toReduce: nat): real
  {
    if toReduce == 0 then rate else rate / toReduce as real
  }

  /** The rate each agent sends at, the base of the duration computation; the
      integer division by zero this can reach panics. */
  function BaseRate(a: Agents, loadRate: int, latencyRate: int): real
    requires a.lt > 0 || a.sym + a.th > 0
  {
    if a.lt > 0 then latencyRate as real else TruncDiv(loadRate, a.sym + a.th) as real
  }

  /** The Measure state: measure, and accept the latency summary unless it is
      not IID and the sampling rate can still be reduced; past fifteen
      minutes the checks are skipped and the run ends with an error. */
  function MeasureStep(env: Env, a: Agents, samples: int, loadRate: int, latencyRate: int, c: QualCfg): (s: QualStep)
    requires EnvValid(env) && c.state == Measure
    ensures s.Next? ==> Progress(c, s.cfg)
    ensures s.Stop? ==> s.cfg.state == c.state && s.cfg.tries == c.tries && s.cfg.rate == c.rate
  {
    var rate := MeasureRate(a, c.rate);
    var measuring := AckExchange(env, a, c.trace, SendStartMeasure(ALL_GROUP, samples, rate));
    if measuring.err.Some? then Stop(measuring.err, c.(trace := measuring.trace))
    else if a.lt == 0 && a.sym + a.th == 0 then Stop(Some(Panicked), c.(trace := measuring.trace))
    else
      var maxTime := env.duration(samples, BaseRate(a, loadRate, latencyRate), rate) > MAX_DURATION;
      var lat := LatencyAnswer(env, a, QUAL_LATENCY_GROUP, |measuring.trace|);
      var t2 := measuring.trace + [SendReportLatency(QUAL_LATENCY_GROUP)];
      if lat.Fail? then Stop(Some(AgentError(lat.err)), c.(trace := t2))
      else if lat.v == [] then Stop(Some(Panicked), c.(trace := t2))
      else
        var agg := LatencyAggregate(lat.v, SHORT_FIELDS);
        if !maxTime && agg.isIid == 0 && c.rate >= MIN_SAMPLING_RATE then
          Next(c.(tries := c.tries + 1, rate := Reduced(c.rate, agg.toReduceSampling), trace := t2))
        else
          var th := if a.th > 0 then ThroughputAnswer(env, a, THROUGHPUT_GROUP, |t2|) else Value([]);
          var t3 := if a.th > 0 then t2 + [SendReportThroughput(THROUGHPUT_GROUP)] else t2;
          if th.Fail? then Stop(Some(AgentError(th.err)), c.(trace := t3))
          else if maxTime then Stop(Some(MaxTimeReached), c.(trace := t3))
          else Next(c.(state := Exit, trace := t3))
  }

  function QualStepOf(env: Env, a: Agents, samples: int, loadRate: int, latencyRate: int, c: QualCfg): (s: QualStep)
    requires EnvValid(env)
    ensures s.Next? ==> Progress(c, s.cfg)
  {
    match c.state
    case Load => LoadStep(env, a, samples, loadRate, latencyRate, c)
    case Measure => MeasureStep(env, a, samples, loadRate, latencyRate, c)
    case Exit => Stop(None, c)
  }

  /** fixedQualPattern's loop from configuration c: turns until one
      returns, or until tryCount reaches MAX_TRIES. */
  function QualRun(env: Env, a: Agents, samples: int, loadRate: int, latencyRate: int, c: QualCfg):
    (r: (Option<CoordErr>, QualCfg))
    requires EnvValid(env) && c.tries <= MAX_TRIES
    decreases MAX_TRIES - c.tries, Rank(c.state)
  {
    if c.tries >= MAX_TRIES then (Some(MaxRetries), c)
    else
      match QualStepOf(env, a, samples, loadRate, latencyRate, c)
      case Stop(e, d) => (e, d)
      case Next(d) => QualRun(env, a, samples, loadRate, latencyRate, d)
  }

  /** fixedQualPattern never goes beyond MAX_TRIES tries; it reports the
      retry limit exactly when it got there, and succeeds only from Exit. */
  lemma {:induction false} QualRunOutcome(env: Env, a: Agents, samples: int, loadRate: int, latencyRate: int, c: QualCfg)
    requires EnvValid(env) && c.tries <= MAX_TRIES
    ensures var r := QualRun(env, a, samples, loadRate, latencyRate, c);
            c.tries <= r.1.tries <= MAX_TRIES &&
            (r.0 == Some(MaxRetries) <==> r.1.tries == MAX_TRIES) &&
            (r.0.None? ==> r.1.state == Exit)
    decreases MAX_TRIES - c.tries, Rank(c.state)
  {
    if c.tries < MAX_TRIES {
      var s := QualStepOf(env, a, samples, loadRate, latencyRate, c);
      if s.Next? {
        QualRunOutcome(env, a, samples, loadRate, latencyRate, s.cfg);
      } else if c.state == Load {
        var loaded := LoadSpec(env, a, c.trace, loadRate, latencyRate);
        assert loaded.err != Some(MaxRetries) by { LoadErrors(env, a, c.trace, loadRate, latencyRate); }
      } else if c.state == Measure {
        assert s.err != Some(MaxRetries);
      }
    }
  }

  /** load fails only with an agent error or closed connections. */
  lemma LoadErrors(env: Env, a: Agents, trace: seq<Request>, loadRate: int, latencyRate: int)
    ensures var e := LoadSpec(env, a, trace, loadRate, latencyRate).err;
            e.None? || e == Some(ConnectionsClosed) || e.value.AgentError?
  {
  }

  /** The Load state is left for Measure only when the throughput report
      (the last exchange) came back with a rate within the band and a
      correct inter-arrival verdict. */
  lemma LoadLeavesOnlyOnTarget(env: Env, a: Agents, samples: int, loadRate: int, latencyRate: int, c: QualCfg)
    requires c.state == Load
    requires LoadStep(env, a, samples, loadRate, latencyRate, c).Next?
    ensures var d := LoadStep(env, a, samples, loadRate, latencyRate, c).cfg;
            var ans := ThroughputAnswer(env, a, ALL_GROUP, |d.trace| - 1);
            d.state == Measure <==>
              (ans.Value? && ans.v != [] &&
               env.rpsInBand(ThroughputAggregate(ans.v), loadRate as real + latencyRate as real) &&
               ThroughputAggregate(ans.v).correctIad != 0)
  {
  }

  /** A Measure turn that goes round again has found a non-IID summary with a
      rate still at least MIN_SAMPLING_RATE, within the time limit; it
      counts a try and divides the rate by the reduction asked for. */
  lemma MeasureRetriesOnlyWhenNotIid(env: Env, a: Agents, samples: int, loadRate: int, latencyRate: int, c: QualCfg)
    requires EnvValid(env) && c.state == Measure
    requires MeasureStep(env, a, samples, loadRate, latencyRate, c).Next?
    requires MeasureStep(env, a, samples, loadRate, latencyRate, c).cfg.state == Measure
    ensures a.lt > 0 || a.sym + a.th > 0
    ensures var lat := LatencyAnswer(env, a, QUAL_LATENCY_GROUP, |c.trace| + 1);
            var d := MeasureStep(env, a, samples, loadRate, latencyRate, c).cfg;
            lat.Value? && lat.v != [] &&
            LatencyAggregate(lat.v, SHORT_FIELDS).isIid == 0 && c.rate >= MIN_SAMPLING_RATE &&
            env.duration(samples, BaseRate(a, loadRate, latencyRate), MeasureRate(a, c.rate)) <= MAX_DURATION &&
            d.tries == c.tries + 1 &&
            d.rate == Reduced(c.rate, LatencyAggregate(lat.v, SHORT_FIELDS).toReduceSampling)
  {
  }

  /** Measure moves to Exit only within the time limit and when the summary
      is IID or the rate cannot be reduced further; the rate is kept. */
  lemma MeasureExitsWhenSettled(env: Env, a: Agents, samples: int, loadRate: int, latencyRate: int, c: QualCfg)
    requires EnvValid(env) && c.state == Measure
    requires MeasureStep(env, a, samples, loadRate, latencyRate, c).Next?
    requires MeasureStep(env, a, samples, loadRate, latencyRate, c).cfg.state == Exit
    ensures a.lt > 0 || a.sym + a.th > 0
    ensures var lat := LatencyAnswer(env, a, QUAL_LATENCY_GROUP, |c.trace| + 1);
            var d := MeasureStep(env, a, samples, loadRate, latencyRate, c).cfg;
            lat.Value? && lat.v != [] &&
            (LatencyAggregate(lat.v, SHORT_FIELDS).isIid != 0 || c.rate < MIN_SAMPLING_RATE) &&
            env.duration(samples, BaseRate(a, loadRate, latencyRate), MeasureRate(a, c.rate)) <= MAX_DURATION &&
            d.tries == c.tries && d.rate == c.rate
  {
  }

  /** Past the time limit a Measure turn never goes round again. */
  lemma MaxTimeStops(env: Env, a: Agents, samples: int, loadRate: int, latencyRate: int, c: QualCfg)
    requires EnvValid(env) && c.state == Measure
    requires a.lt > 0 || a.sym + a.th > 0
    requires env.duration(samples, BaseRate(a, loadRate, latencyRate), MeasureRate(a, c.rate)) > MAX_DURATION
    ensures MeasureStep(env, a, samples, loadRate, latencyRate, c).Stop?
  {
  }

  // ---------------------------------------------------------------------
  // stepPattern

  /** The loads stepPattern runs at: start, start + step, ... up to end. */
  function StepLoads(start: int, end: int, step: int): seq<int>
    requires step > 0 || start > end
    decreases if start <= end then end - start + 1 else 0
  {
    if start > end then [] else [start] + StepLoads(start + step, end, step)
  }

  /** Those loads are the terms of the arithmetic progression that lie
      within [start, end]. */
  lemma StepLoadsTerms(start: int, end: int, step: int)
    requires step > 0 || start > end
    ensures forall i :: 0 <= i < |StepLoads(start, end, step)| ==>
              StepLoads(start, end, step)[i] == start + i * step && StepLoads(start, end, step)[i] <= end
    ensures start <= end ==> start + |StepLoads(start, end, step)| * step > end
  {
    StepLoadsAt(start, end, step);
    StepLoadsPast(start, end, step);
  }

  lemma {:induction false} StepLoadsAt(start: int, end: int, step: int)
    requires step > 0 || start > end
    ensures forall i :: 0 <= i < |StepLoads(start, end, step)| ==>
              StepLoads(start, end, step)[i] == start + i * step && StepLoads(start, end, step)[i] <= end
    decreases if start <= end then end - start + 1 else 0
  {
    if start <= end {
      var loads := StepLoads(start, end, step);
      var rest := StepLoads(start + step, end, step);
      assert loads == [start] + rest;
      StepLoadsAt(start + step, end, step);
      forall i | 0 <= i < |loads|
        ensures loads[i] == start + i * step && loads[i] <= end
      {
        if i > 0 {
          assert loads[i] == rest[i - 1];
          MulStep(i, step);
        }
      }
    }
  }

  lemma {:induction false} StepLoadsPast(start: int, end: int, step: int)
    requires step > 0 || start > end
    ensures start <= end ==> start + |StepLoads(start, end, step)| * step > end
    decreases if start <= end then end - start + 1 else 0
  {
    if start <= end {
      var n := |StepLoads(start, end, step)|;
      StepLoadsPast(start + step, end, step);
      assert n == 1 + |StepLoads(start + step, end, step)|;
      MulStep(n, step);
    }
  }

  /** What one load of stepPattern carries over to the next: the state and
      sampling rate fixedQualPattern leaves, and the requests sent. */
  datatype StepCfg = StepCfg(state: CoordState, rate: real, trace: seq<Request>)

  /** One load of stepPattern: fixedPattern, which keeps the state and the
      rate, or fixedQualPattern from Load with no tries; the error is dropped. */
  function StepRunSpec(env: Env, a: Agents, samples: int, qual: bool, loadRate: int, latencyRate: int,
                       c: StepCfg): StepCfg
    requires EnvValid(env)
  {
    if !qual then c.(trace := FixedSpec(env, a, samples, c.rate, loadRate, latencyRate, c.trace).trace)
    else
      var d := QualRun(env, a, samples, loadRate, latencyRate, QualCfg(Load, 0, c.rate, c.trace)).1;
      StepCfg(d.state, d.rate, d.trace)
  }

  /** stepPattern over the given loads, in order. */
  function StepSpec(env: Env, a: Agents, samples: int, qual: bool, loads: seq<int>, latencyRate: int,
                    c: StepCfg): StepCfg
    requires EnvValid(env)
    decreases |loads|
  {
    if loads == [] then c
    else StepSpec(env, a, samples, qual, loads[1..], latencyRate,
                  StepRunSpec(env, a, samples, qual, loads[0], latencyRate, c))
  }

  /** Under "step" every load runs at the sampling rate the pattern started
      with, and the state is left alone: only "stepQual" adapts the rate
      from one load to the next. */
  lemma {:induction false} StepFixedKeepsRate(env: Env, a: Agents, samples: int, loads: seq<int>,
                                              latencyRate: int, c: StepCfg)
    requires EnvValid(env)
    ensures var d := StepSpec(env, a, samples, false, loads, latencyRate, c);
            d.rate == c.rate && d.state == c.state
    decreases |loads|
  {
    if loads != [] {
      StepFixedKeepsRate(env, a, samples, loads[1..], latencyRate,
                         StepRunSpec(env, a, samples, false, loads[0], latencyRate, c));
    }
  }

  lemma ShiftFirst(front: seq<int>, x: int, back: seq<int>)
    ensures (front + [x]) + back == front + ([x] + back)
  {
  }

  /** One more step of the progression. */
  lemma MulStep(i: int, step: int)
    ensures i * step == step + (i - 1) * step
  {
  }

  // ---------------------------------------------------------------------
  // The coordinator

  class Coordinator {
    const cluster: Cluster
    var samples: int
    var ciSize: int
    var state: CoordState
    var samplingRate: real

    constructor(cluster: Cluster)
      ensures this.cluster == cluster && samples == 0 && ciSize == 0 && state == Load && samplingRate == 0.0
    {
      this.cluster := cluster;
      samples := 0;
      ciSize := 0;
      state := Load;
      samplingRate := 0.0;
    }

    /** load */
    method LoadAgents(loadRate: int, latencyRate: int) returns (r: Option<CoordErr>)
      modifies cluster
      ensures Run(r, cluster.sent) == LoadSpec(cluster.env, cluster.agents, old(cluster.sent), loadRate, latencyRate)
    {
      var a := cluster.agents;
      ghost var env := cluster.env;
      ghost var start := cluster.sent;
      var ok := false;
      var i := 0;
      while i < CONN_POLLS
        invariant 0 <= i <= CONN_POLLS
        invariant PollLoop(env, a, start, CONN_POLLS) == PollLoop(env, a, cluster.sent, CONN_POLLS - i)
      {
        var ret := cluster.CheckConnOpen(LOAD_GROUP);
        if ret.Fail? {
          return Some(AgentError(ret.err));
        }
        if ret.v {
          ok := true;
          break;
        }
        i := i + 1;
      }
      if !ok {
        return Some(ConnectionsClosed);
      }
      assert PollLoop(env, a, start, CONN_POLLS) == (Value(true), cluster.sent);
      if a.sym + a.th > 0 {
        var e := cluster.StartLoad(LOAD_GROUP, TruncDiv(loadRate, a.sym + a.th));
        if e.Fail? {
          return Some(AgentError(e.err));
        }
      }
      if a.lt > 0 {
        var e := cluster.StartLoad(LATENCY_LOAD_GROUP, latencyRate);
        if e.Fail? {
          return Some(AgentError(e.err));
        }
      }
      r := None;
    }

    /** fixedPattern */
    method FixedPattern(loadRate: int, latencyRate: int) returns (r: Option<CoordErr>)
      requires EnvValid(cluster.env)
      modifies cluster
      ensures Run(r, cluster.sent) ==
              FixedSpec(cluster.env, cluster.agents, samples, samplingRate, loadRate, latencyRate, old(cluster.sent))
    {
      var a := cluster.agents;
      if a.sym + a.th + a.lt == 0 {
        return Some(NoAgents);
      }
      r := LoadAgents(loadRate, latencyRate);
      if r.Some? {
        return;
      }
      var rate := if a.sym + a.lt > 0 then MeasureRate(a, samplingRate) else 100.0;
      var m := cluster.StartMeasure(ALL_GROUP, samples, rate);
      if m.Fail? {
        return Some(AgentError(m.err));
      }
      var throughputReplies: seq<ThroughputReply> := [];
      if a.th > 0 {
        var th := cluster.ReportThroughput(THROUGHPUT_GROUP);
        if th.Fail? {
          return Some(AgentError(th.err));
        }
        throughputReplies := th.v;
      }
      var latencyReplies: seq<LatencyReply> := [];
      if a.lt + a.sym > 0 {
        var lat := cluster.ReportLatency(FIXED_LATENCY_GROUP);
        if lat.Fail? {
          return Some(AgentError(lat.err));
        }
        latencyReplies := lat.v;
        throughputReplies := throughputReplies + ThData(latencyReplies);
      }
      var aggThroughput := ComputeStatsThroughput(throughputReplies);
      if aggThroughput.Fail? {
        return Some(Panicked);
      }
      if a.lt + a.sym > 0 {
        var aggLatency := ComputeStatsLatency(latencyReplies, SHORT_FIELDS);
        if aggLatency.Fail? {
          return Some(Panicked);
        }
      }
      r := None;
    }

    /** One turn of fixedQualPattern in the Load state. */
    method LoadTurn(loadRate: int, latencyRate: int, tries: nat) returns (s: QualStep)
      requires state == Load
      modifies cluster
      ensures s == LoadStep(cluster.env, cluster.agents, samples, loadRate, latencyRate,
                            QualCfg(Load, tries, samplingRate, old(cluster.sent)))
      ensures s.cfg.trace == cluster.sent
    {
      var a := cluster.agents;
      var c := QualCfg(Load, tries, samplingRate, cluster.sent);
      var e := LoadAgents(loadRate, latencyRate);
      if e.Some? {
        return Stop(e, c.(trace := cluster.sent));
      }
      var m := cluster.StartMeasure(ALL_GROUP, samples, MeasureRate(a, samplingRate));
      if m.Fail? {
        return Stop(Some(AgentError(m.err)), c.(trace := cluster.sent));
      }
      var th := cluster.ReportThroughput(ALL_GROUP);
      if th.Fail? {
        return Stop(Some(AgentError(th.err)), c.(trace := cluster.sent));
      }
      var agg := ComputeStatsThroughput(th.v);
      if agg.Fail? {
        return Stop(Some(Panicked), c.(trace := cluster.sent));
      }
      if !cluster.env.rpsInBand(agg.v, loadRate as real + latencyRate as real) {
        return Next(c.(tries := tries + 1, trace := cluster.sent));
      }
      if agg.v.correctIad == 0 {
        return Next(c.(tries := tries + 1, trace := cluster.sent));
      }
      s := Next(c.(state := Measure, trace := cluster.sent));
    }

    /** One turn of fixedQualPattern in the Measure state. */
    method MeasureTurn(loadRate: int, latencyRate: int, tries: nat) returns (s: QualStep)
      requires state == Measure && EnvValid(cluster.env)
      modifies cluster
      ensures s == MeasureStep(cluster.env, cluster.agents, samples, loadRate, latencyRate,
                               QualCfg(Measure, tries, samplingRate, old(cluster.sent)))
      ensures s.cfg.trace == cluster.sent
    {
      var a := cluster.agents;
      var c := QualCfg(Measure, tries, samplingRate, cluster.sent);
      var rate := MeasureRate(a, samplingRate);
      var m := cluster.StartMeasure(ALL_GROUP, samples, rate);
      if m.Fail? {
        return Stop(Some(AgentError(m.err)), c.(trace := cluster.sent));
      }
      if a.lt == 0 && a.sym + a.th == 0 {
        return Stop(Some(Panicked), c.(trace := cluster.sent));
      }
      var baseRate := BaseRate(a, loadRate, latencyRate);
      var maxTime := cluster.env.duration(samples, baseRate, rate) > MAX_DURATION;
      var lat := cluster.ReportLatency(QUAL_LATENCY_GROUP);
      if lat.Fail? {
        return Stop(Some(AgentError(lat.err)), c.(trace := cluster.sent));
      }
      var agg := ComputeStatsLatency(lat.v, SHORT_FIELDS);
      if agg.Fail? {
        return Stop(Some(Panicked), c.(trace := cluster.sent));
      }
      if !maxTime && agg.v.isIid == 0 && samplingRate >= MIN_SAMPLING_RATE {
        return Next(c.(tries := tries + 1, rate := Reduced(samplingRate, agg.v.toReduceSampling),
                       trace := cluster.sent));
      }
      var throughputReplies: seq<ThroughputReply> := [];
      if a.th > 0 {
        var th := cluster.ReportThroughput(THROUGHPUT_GROUP);
        if th.Fail? {
          return Stop(Some(AgentError(th.err)), c.(trace := cluster.sent));
        }
        throughputReplies := th.v;
      }
      var aggThroughput := ComputeStatsThroughput(throughputReplies + ThData(lat.v));
      if maxTime {
        return Stop(Some(MaxTimeReached), c.(trace := cluster.sent));
      }
      s := Next(c.(state := Exit, trace := cluster.sent));
    }

    /** fixedQualPattern: the Load -> Measure -> Exit machine with at most
        MAX_TRIES retries. */
    method FixedQualPattern(loadRate: int, latencyRate: int) returns (r: Option<CoordErr>)
      requires EnvValid(cluster.env)
      modifies this, cluster
      ensures samples == old(samples) && ciSize == old(ciSize)
      ensures exists tries: nat ::
                (r, QualCfg(state, tries, samplingRate, cluster.sent)) ==
                QualRun(cluster.env, cluster.agents, samples, loadRate, latencyRate,
                        QualCfg(Load, 0, old(samplingRate), old(cluster.sent)))
    {
      ghost var env := cluster.env;
      var a := cluster.agents;
      ghost var first := QualCfg(Load, 0, samplingRate, cluster.sent);
      var tries: nat := 0;
      state := Load;
      while tries < MAX_TRIES
        invariant tries <= MAX_TRIES
        invariant QualRun(env, a, samples, loadRate, latencyRate, QualCfg(state, tries, samplingRate, cluster.sent)) ==
                  QualRun(env, a, samples, loadRate, latencyRate, first)
        invariant samples == old(samples) && ciSize == old(ciSize)
        decreases MAX_TRIES - tries, Rank(state)
      {
        var c := QualCfg(state, tries, samplingRate, cluster.sent);
        var s: QualStep;
        if state == Load {
          s := LoadTurn(loadRate, latencyRate, tries);
        } else if state == Measure {
          s := MeasureTurn(loadRate, latencyRate, tries);
        } else {
          s := Stop(None, c);
        }
        assert s == QualStepOf(env, a, samples, loadRate, latencyRate, c);
        state := s.cfg.state;
        samplingRate := s.cfg.rate;
        tries := s.cfg.tries;
        if s.Stop? {
          return s.err;
        }
      }
      r := Some(MaxRetries);
    }

    /** stepPattern: the chosen pattern at every load of the progression;
        the errors of single runs are dropped. */
    method StepPattern(startLoad: int, endLoad: int, step: int, latencyRate: int, pattern: string)
      returns (r: Option<CoordErr>, visited: seq<int>)
      requires step > 0 || startLoad > endLoad
      requires EnvValid(cluster.env)
      modifies this, cluster
      ensures r.None? && visited == StepLoads(startLoad, endLoad, step)
      ensures StepCfg(state, samplingRate, cluster.sent) ==
              StepSpec(cluster.env, cluster.agents, samples, pattern != "step", visited, latencyRate,
                       StepCfg(old(state), old(samplingRate), old(cluster.sent)))
      ensures samples == old(samples) && ciSize == old(ciSize)
    {
      ghost var env := cluster.env;
      ghost var a := cluster.agents;
      ghost var qual := pattern != "step";
      ghost var first := StepCfg(state, samplingRate, cluster.sent);
      ghost var all := StepLoads(startLoad, endLoad, step);
      var loadRate := startLoad;
      visited := [];
      while loadRate <= endLoad
        invariant step > 0 || loadRate > endLoad
        invariant visited + StepLoads(loadRate, endLoad, step) == all
        invariant StepSpec(env, a, samples, qual, StepLoads(loadRate, endLoad, step), latencyRate,
                           StepCfg(state, samplingRate, cluster.sent)) ==
                  StepSpec(env, a, samples, qual, all, latencyRate, first)
        invariant samples == old(samples) && ciSize == old(ciSize)
        decreases if loadRate <= endLoad then endLoad - loadRate + 1 else 0
      {
        ghost var before := StepCfg(state, samplingRate, cluster.sent);
        StepRun(loadRate, latencyRate, pattern);
        ghost var rest := StepLoads(loadRate + step, endLoad, step);
        assert StepLoads(loadRate, endLoad, step) == [loadRate] + rest;
        assert ([loadRate] + rest)[1..] == rest;
        assert StepCfg(state, samplingRate, cluster.sent) ==
               StepRunSpec(env, a, samples, qual, loadRate, latencyRate, before);
        ShiftFirst(visited, loadRate, rest);
        visited := visited + [loadRate];
        loadRate := loadRate + step;
      }
      assert visited == all;
      r := None;
    }

    /** One load of stepPattern: fixedPattern for "step", fixedQualPattern
        otherwise; its error is dropped. */
    method StepRun(loadRate: int, latencyRate: int, pattern: string)
      requires EnvValid(cluster.env)
      modifies this, cluster
      ensures StepCfg(state, samplingRate, cluster.sent) ==
              StepRunSpec(cluster.env, cluster.agents, samples, pattern != "step", loadRate, latencyRate,
                          StepCfg(old(state), old(samplingRate), old(cluster.sent)))
      ensures samples == old(samples) && ciSize == old(ciSize)
    {
      var err: Option<CoordErr>;
      if pattern == "step" {
        err := FixedPattern(loadRate, latencyRate);
      } else {
        err := FixedQualPattern(loadRate, latencyRate);
      }
    }

    /** runExp: reset the sample count and rate, read the pattern, and run
        the experiment it names; without latency agents the latency rate is 0. */
    method RunExp(pattern: string, latencyRate: int, ciSize: int) returns (r: Option<CoordErr>)
      requires EnvValid(cluster.env)
      requires var p := ParsePattern(Split(pattern, COLON), cluster.env.parseFloat).plan;
               p.StepPlan? ==> p.step > 0 || p.start > p.end
      modifies this, cluster
      ensures this.ciSize == ciSize
      ensures var p := ParsePattern(Split(pattern, COLON), cluster.env.parseFloat);
              var lr := if cluster.agents.lt == 0 then 0 else latencyRate;
              samples == p.samples &&
              (p.plan.Failed? ==>
                 r == Some(p.plan.err) && samplingRate == p.rate && cluster.sent == old(cluster.sent)) &&
              (p.plan.FixedPlan? && !p.plan.qual ==>
                 Run(r, cluster.sent) ==
                 FixedSpec(cluster.env, cluster.agents, p.samples, p.rate, p.plan.load, lr, old(cluster.sent))) &&
              (p.plan.FixedPlan? && p.plan.qual ==>
                 exists tries: nat ::
                   (r, QualCfg(state, tries, samplingRate, cluster.sent)) ==
                   QualRun(cluster.env, cluster.agents, p.samples, p.plan.load, lr,
                           QualCfg(Load, 0, p.rate, old(cluster.sent)))) &&
              (p.plan.StepPlan? ==>
                 r.None? &&
                 StepCfg(state, samplingRate, cluster.sent) ==
                 StepSpec(cluster.env, cluster.agents, p.samples, p.plan.qual,
                          StepLoads(p.plan.start, p.plan.end, p.plan.step), lr,
                          StepCfg(old(state), p.rate, old(cluster.sent))))
    {
      var args := Split(pattern, COLON);
      samples := INITIAL_SAMPLES;
      samplingRate := INITIAL_SAMPLING_RATE;
      this.ciSize := ciSize;
      var lr := latencyRate;
      if cluster.agents.lt == 0 {
        lr := 0;
      }
      if args[0] == "fixed" || args[0] == "fixedQual" || args[0] == "fixedSteady" {
        r := RunFixed(args, lr);
      } else if args[0] == "step" || args[0] == "stepQual" {
        r := RunStep(args, lr);
      } else {
        r := Some(UnknownPattern);
      }
    }

    /** The fixed patterns of runExp: the load, the options, then the run. */
    method RunFixed(args: seq<string>, lr: int) returns (r: Option<CoordErr>)
      requires |args| >= 1 && (args[0] == "fixed" || args[0] == "fixedQual" || args[0] == "fixedSteady")
      requires EnvValid(cluster.env)
      requires samples == INITIAL_SAMPLES && samplingRate == INITIAL_SAMPLING_RATE
      modifies this, cluster
      ensures ciSize == old(ciSize)
      ensures var p := ParsePattern(args, cluster.env.parseFloat);
              samples == p.samples &&
              (p.plan.Failed? ==>
                 r == Some(p.plan.err) && samplingRate == p.rate && cluster.sent == old(cluster.sent)) &&
              (p.plan.FixedPlan? && !p.plan.qual ==>
                 Run(r, cluster.sent) ==
                 FixedSpec(cluster.env, cluster.agents, p.samples, p.rate, p.plan.load, lr, old(cluster.sent))) &&
              (p.plan.FixedPlan? && p.plan.qual ==>
                 exists tries: nat ::
                   (r, QualCfg(state, tries, samplingRate, cluster.sent)) ==
                   QualRun(cluster.env, cluster.agents, p.samples, p.plan.load, lr,
                           QualCfg(Load, 0, p.rate, old(cluster.sent)))) &&
              !p.plan.StepPlan?
    {
      if |args| < 2 {
        return Some(Panicked);
      }
      var load := GoAtoi(args[1]);
      if load.None? {
        return Some(BadLoad);
      }
      r := ReadOptions(args, 2);
      if r.Some? {
        return;
      }
      if args[0] == "fixed" {
        r := FixedPattern(load.value, lr);
      } else {
        r := FixedQualPattern(load.value, lr);
      }
    }

    /** The step patterns of runExp: the three loads, the options, then the
        progression. */
    method RunStep(args: seq<string>, lr: int) returns (r: Option<CoordErr>)
      requires |args| >= 1 && (args[0] == "step" || args[0] == "stepQual")
      requires EnvValid(cluster.env)
      requires samples == INITIAL_SAMPLES && samplingRate == INITIAL_SAMPLING_RATE
      requires var p := ParsePattern(args, cluster.env.parseFloat).plan;
               p.StepPlan? ==> p.step > 0 || p.start > p.end
      modifies this, cluster
      ensures ciSize == old(ciSize)
      ensures var p := ParsePattern(args, cluster.env.parseFloat);
              samples == p.samples &&
              (p.plan.Failed? ==>
                 r == Some(p.plan.err) && samplingRate == p.rate && cluster.sent == old(cluster.sent)) &&
              !p.plan.FixedPlan? &&
              (p.plan.StepPlan? ==>
                 r.None? &&
                 StepCfg(state, samplingRate, cluster.sent) ==
                 StepSpec(cluster.env, cluster.agents, p.samples, p.plan.qual,
                          StepLoads(p.plan.start, p.plan.end, p.plan.step), lr,
                          StepCfg(old(state), p.rate, old(cluster.sent))))
    {
      if |args| < 2 {
        return Some(Panicked);
      }
      var start := GoAtoi(args[1]);
      if start.None? {
        return Some(BadStartLoad);
      }
      if |args| < 3 {
        return Some(Panicked);
      }
      var end := GoAtoi(args[2]);
      if end.None? {
        return Some(BadEndLoad);
      }
      if |args| < 4 {
        return Some(Panicked);
      }
      var step := GoAtoi(args[3]);
      if step.None? {
        return Some(BadStepLoad);
      }
      r := ReadOptions(args, 4);
      if r.Some? {
        return;
      }
      var visited;
      r, visited := StepPattern(start.value, end.value, step.value, lr, args[0]);
    }

    /** The optional samples and sampling-rate tokens from index i on, read
        over the initial values. */
    method ReadOptions(args: seq<string>, i: nat) returns (err: Option<CoordErr>)
      requires samples == INITIAL_SAMPLES && samplingRate == INITIAL_SAMPLING_RATE
      modifies this
      ensures var p := ParseOptions(args, i, cluster.env.parseFloat, Failed(UnknownPattern));
              samples == p.samples && samplingRate == p.rate &&
              (err.None? <==> p.plan == Failed(UnknownPattern)) &&
              (err.Some? ==> p.plan == Failed(err.value))
      ensures ciSize == old(ciSize) && state == old(state)
    {
      if |args| > i {
        var s := GoAtoi(args[i]);
        if s.None? {
          return Some(BadSamples);
        }
        samples := s.value;
      }
      if |args| > i + 1 {
        var f := cluster.env.parseFloat(args[i + 1]);
        if f.None? {
          return Some(BadSamplingRate);
        }
        samplingRate := f.value;
      }
      err := None;
    }
  }
}
