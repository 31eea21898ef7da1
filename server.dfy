// The manager's main loop (agent-manager/manager/lancet.py): launch the
// agent, accept the coordinator's connection, and serve its requests one
// at a time until one of them says to stop. The wall clock is a parameter
// (the instant of each request), and so are the records the agent's
// threads have written by each request and the conversion of a wire double
// to a number.

module Server {
  import opened Common
  import opened Bytes
  import opened CoordProto
  import opened ManagerStats
  import opened ManagerProto
  import opened Controller

  /** The TCP port the manager listens on. */
  const MANAGER_PORT: nat := 5001
  /** The listen backlog: one coordinator at a time. */
  const LISTEN_BACKLOG: nat := 1

  /** process_msg's answer that ends the session. */
  const STOP: int := -1

  /** The throughput reply for a measurement that started at start and is
      reported at now. */
  function ThroughputReportAt(agg: ThroughputAgg, now: real, start: real): (s: seq<byte>)
    ensures |s| == MSG1_SIZE + THROUGHPUT_REPLY_SIZE
  {
    ThroughputReport(agg, now - start)
  }

  /** The latency reply for a measurement that started at start and is
      reported at now. */
  function LatencyReportAt(agg: LatencyAgg, now: real, start: real): (s: seq<byte>)
    requires |agg.lat| == LatencyFieldCount(Short)
    ensures |s| == MSG1_SIZE + LatencyReplySize(Short)
  {
    LatencyReport(agg, now - start)
  }

  /** What process_msg can change or send: the control block, the mapped
      records, the set_avg_ext calls, the two instants and the octets sent
      back to the coordinator. */
  datatype Session = Session(acb: ControlBlock, stats: seq<Records.ThreadStats>, loadCalls: seq<real>,
                             startTime: Option<real>, endTime: Option<real>, output: seq<byte>)

  /** The STOP answer of process_msg: end of stream, an unknown report
      kind, or a latency report whose aggregation raised ValueError. */
  predicate Stops(msg: Internal, stats: seq<Records.ThreadStats>, perThread: nat, o: Oracles)
  {
    msg.Closed? || (msg.Report? && msg.kind > REPORT_LATENCY) ||
    (msg.Report? && msg.kind == REPORT_LATENCY &&
     AggregateLatencySpec(stats, perThread, o) == Raise(ValueError))
  }

  /** process_msg on one request at instant now: its answer (or the
      exception it lets through) and the session after it. A report stops
      measuring and notes the end time before anything can raise. */
  function ProcessSpec(msg: Internal, s: Session, now: real, toReal: nat -> real, o: Oracles): (Py<int>, Session)
  {
    match msg
    case StartLoad(load) =>
      var acb := s.acb.(shouldMeasure := 0);
      if acb.threadCount == 0 || load == 0 then (Raise(ZeroDivisionError), s.(acb := acb))
      else (Ok(0), s.(acb := acb.(shouldLoad := 1),
                      loadCalls := s.loadCalls + [PerThreadInterval(load, acb.threadCount)]))
    case StartMeasure(count, bits) =>
      var stats := ClearAll(s.stats, s.acb.agentType > 0);
      if s.acb.threadCount == 0 then (Raise(ZeroDivisionError), s.(stats := stats))
      else (Ok(0), s.(stats := stats, startTime := Some(now),
                      acb := s.acb.(sampleCount := U32(TruncDiv(count, s.acb.threadCount)),
                                    samplingRate := toReal(bits) / 100.0, shouldMeasure := 1)))
    case Report(kind) =>
      if kind > REPORT_LATENCY then (Ok(STOP), s)
      else
        var t := s.(acb := s.acb.(shouldMeasure := 0), endTime := Some(now));
        if kind == REPORT_THROUGHPUT then
          if s.startTime.None? then (Raise(AttributeError), t)
          else (Ok(0), t.(output := s.output + ThroughputReportAt(ThroughputOf(s.stats, o), now, s.startTime.value)))
        else
          var agg := AggregateLatencySpec(s.stats, s.acb.sampleCount, o);
          if agg.Raise? then (if agg.err == ValueError then Ok(STOP) else Raise(agg.err), t)
          else if s.startTime.None? then (Raise(AttributeError), t)
          else
            AggregateLatencyFacts(s.stats, s.acb.sampleCount, o);
            (Ok(0), t.(output := s.output + LatencyReportAt(agg.value, now, s.startTime.value)))
    case ConnOpen => (Ok(0), s.(output := s.output + ValueMsg(s.acb.connOpen)))
    case Closed => (Ok(STOP), s)
  }

  /** process_msg answers 0 or -1, and -1 exactly in the stopping cases. */
  lemma ProcessSpecAnswers(msg: Internal, s: Session, now: real, toReal: nat -> real, o: Oracles)
    ensures var r := ProcessSpec(msg, s, now, toReal, o).0;
            (r.Ok? ==> r.value == 0 || r.value == STOP) &&
            (r == Ok(STOP) <==> Stops(msg, s.stats, s.acb.sampleCount, o))
  {
    var r := ProcessSpec(msg, s, now, toReal, o).0;
    match msg {
      case Report(kind) =>
        if kind == REPORT_LATENCY {
          var agg := AggregateLatencySpec(s.stats, s.acb.sampleCount, o);
          if agg.Raise? {
            assert r == (if agg.err == ValueError then Ok(STOP) else Raise(agg.err));
          } else {
            assert r != Ok(STOP);
          }
        } else if kind == REPORT_THROUGHPUT {
          assert r != Ok(STOP);
        } else {
          assert r == Ok(STOP);
        }
      case Closed =>
        assert r == Ok(STOP);
      case _ =>
        assert r != Ok(STOP);
    }
  }

  /** process_msg only ever appends to what was sent, and sends nothing
      when it stops. */
  lemma ProcessSpecSends(msg: Internal, s: Session, now: real, toReal: nat -> real, o: Oracles)
    ensures var (r, t) := ProcessSpec(msg, s, now, toReal, o);
            s.output <= t.output && (r == Ok(STOP) ==> t.output == s.output)
  {
    var (r, t) := ProcessSpec(msg, s, now, toReal, o);
    match msg {
      case Report(kind) =>
        if kind == REPORT_LATENCY {
          var agg := AggregateLatencySpec(s.stats, s.acb.sampleCount, o);
          if agg.Ok? && s.startTime.Some? {
            AggregateLatencyFacts(s.stats, s.acb.sampleCount, o);
            var sent := LatencyReportAt(agg.value, now, s.startTime.value);
            assert r == Ok(0) && t.output == s.output + sent;
            PrefixOfAppend(s.output, sent);
          } else {
            assert t.output == s.output;
          }
        } else if kind == REPORT_THROUGHPUT && s.startTime.Some? {
          var sent := ThroughputReportAt(ThroughputOf(s.stats, o), now, s.startTime.value);
          assert r == Ok(0) && t.output == s.output + sent;
          PrefixOfAppend(s.output, sent);
        } else {
          assert t.output == s.output;
        }
      case ConnOpen =>
        assert r == Ok(0);
        PrefixOfAppend(s.output, ValueMsg(s.acb.connOpen));
      case _ =>
        assert t.output == s.output;
    }
  }

  lemma PrefixOfAppend(a: seq<byte>, b: seq<byte>)
    ensures a <= a + b
  {
    assert (a + b)[..|a|] == a;
  }

  /** process_msg changes the records only by the clearing of
      START_MEASURE, and the set_avg_ext calls only by START_LOAD's. */
  lemma ProcessSpecRecords(msg: Internal, s: Session, now: real, toReal: nat -> real, o: Oracles)
    ensures var t := ProcessSpec(msg, s, now, toReal, o).1;
            (t.stats == s.stats || (msg.StartMeasure? && t.stats == ClearAll(s.stats, s.acb.agentType > 0))) &&
            (t.loadCalls == s.loadCalls || (msg.StartLoad? && |t.loadCalls| == |s.loadCalls| + 1))
  {
    var t := ProcessSpec(msg, s, now, toReal, o).1;
    match msg {
      case Report(kind) =>
        assert t.stats == s.stats && t.loadCalls == s.loadCalls;
      case StartMeasure(_, _) =>
        assert t.loadCalls == s.loadCalls;
      case StartLoad(_) =>
        assert t.stats == s.stats;
      case _ =>
        assert t == s || t == s.(output := t.output);
    }
  }

  /** One request as run handled it: the message and process_msg's answer. */
  datatype Served = Served(msg: Internal, answer: Py<int>)

  /** How serving a connection ends: run's result, the requests served in
      order, and the session left behind. */
  datatype Outcome = Outcome(result: Py<()>, served: seq<Served>, session: Session)

  /** process_msg as a function of the request, the session before it and
      the request's position in the stream. */
  type Processor = (Internal, Session, nat) -> (Py<int>, Session)

  /** The manager's process_msg, the i-th request being served at clock(i)
      on the records as the agent's threads have written them by then. */
  function ManagerProcessor(clock: nat -> real, agent: AgentWriter, toReal: nat -> real, o: Oracles): Processor
  {
    (m: Internal, s: Session, i: nat) => ProcessSpec(m, s.(stats := Written(s.stats, i, agent)), clock(i), toReal, o)
  }

  /** run's loop over the octets the coordinator sends, from the step-th
      request on: read a request (acknowledging START_LOAD and
      START_MEASURE), process it, and go on until an exception or a STOP
      answer. */
  function ServeSpec(input: seq<byte>, s: Session, step: nat, process: Processor): Outcome
    decreases |input|
  {
    var p := ParseMsg(input);
    if p.msg.Raise? then Outcome(Raise(p.msg.err), [], s)
    else
      var m := p.msg.value;
      var (r, t) := process(m, s.(output := s.output + (if Acked(m) then AckMsg() else [])), step);
      if r.Raise? then Outcome(Raise(r.err), [Served(m, r)], t)
      else if r.value == STOP || m == Closed then Outcome(Ok(()), [Served(m, r)], t)
      else
        var rest := ServeSpec(input[p.consumed..], t, step + 1, process);
        Outcome(rest.result, [Served(m, r)] + rest.served, rest.session)
  }

  /** One turn of run's loop, as ServeSpec takes it. */
  lemma ServeTurn(input: seq<byte>, s: Session, step: nat, process: Processor, m: Internal, r: Py<int>, t: Session)
    requires ParseMsg(input).msg == Ok(m)
    requires (r, t) == process(m, s.(output := s.output + (if Acked(m) then AckMsg() else [])), step)
    ensures var out := ServeSpec(input, s, step, process);
            (r.Raise? ==> out == Outcome(Raise(r.err), [Served(m, r)], t)) &&
            (r == Ok(STOP) || (r.Ok? && m == Closed) ==> out == Outcome(Ok(()), [Served(m, r)], t)) &&
            (r.Ok? && r.value != STOP && m != Closed ==>
               var rest := ServeSpec(input[ParseMsg(input).consumed..], t, step + 1, process);
               out == Outcome(rest.result, [Served(m, r)] + rest.served, rest.session))
  {
  }

  /** process_msg answers STOP to the end of the stream. */
  ghost predicate ClosedStops(process: Processor)
  {
    forall t: Session, i: nat :: process(Closed, t, i).0 == Ok(STOP)
  }

  /** process_msg answers 0 or STOP, or raises. */
  ghost predicate AnswersZeroOrStop(process: Processor)
  {
    forall m: Internal, t: Session, i: nat :: process(m, t, i).0.Ok? ==> process(m, t, i).0.value in {0, STOP}
  }

  /** process_msg only appends to what has been sent. */
  ghost predicate OnlyAppends(process: Processor)
  {
    forall m: Internal, t: Session, i: nat :: t.output <= process(m, t, i).1.output
  }

  /** The manager's process_msg is a processor of that kind. */
  lemma ManagerProcessorFacts(clock: nat -> real, agent: AgentWriter, toReal: nat -> real, o: Oracles)
    ensures var process := ManagerProcessor(clock, agent, toReal, o);
            ClosedStops(process) && AnswersZeroOrStop(process) && OnlyAppends(process)
  {
    var process := ManagerProcessor(clock, agent, toReal, o);
    forall t: Session, i: nat
      ensures process(Closed, t, i).0 == Ok(STOP)
    {
      var w := t.(stats := Written(t.stats, i, agent));
      assert process(Closed, t, i) == ProcessSpec(Closed, w, clock(i), toReal, o);
    }
    forall m: Internal, t: Session, i: nat
      ensures (process(m, t, i).0.Ok? ==> process(m, t, i).0.value in {0, STOP}) &&
              t.output <= process(m, t, i).1.output
    {
      var w := t.(stats := Written(t.stats, i, agent));
      assert process(m, t, i) == ProcessSpec(m, w, clock(i), toReal, o);
      ProcessSpecAnswers(m, w, clock(i), toReal, o);
      ProcessSpecSends(m, w, clock(i), toReal, o);
    }
  }

  /** Every answer but the last one is 0. */
  predicate ZeroUntilLast(served: seq<Served>)
  {
    forall i :: 0 <= i < |served| - 1 ==> served[i].answer == Ok(0)
  }

  /** How a served sequence ends: every answer but the last is 0; a normal
      end means the last answered STOP, and an exception means the last
      either raised it or answered 0 before the next read raised. */
  predicate StopsAtFirst(out: Outcome)
  {
    ZeroUntilLast(out.served) &&
    (out.result.Ok? ==> |out.served| > 0 && out.served[|out.served| - 1].answer == Ok(STOP)) &&
    (out.result.Raise? && out.served != [] ==>
       out.served[|out.served| - 1].answer in {Ok(0), Raise(out.result.err)})
  }

  lemma ZeroUntilLastCons(x: Served, served: seq<Served>)
    requires x.answer == Ok(0) && ZeroUntilLast(served)
    ensures ZeroUntilLast([x] + served)
  {
    var all := [x] + served;
    forall i | 0 <= i < |all| - 1
      ensures all[i].answer == Ok(0)
    {
      if i > 0 {
        assert all[i] == served[i - 1];
      }
    }
  }

  /** A request answered 0 in front of served requests that end as
      StopsAtFirst says still ends that way. */
  lemma StopsAtFirstCons(x: Served, rest: Outcome, session: Session)
    requires x.answer == Ok(0) && StopsAtFirst(rest)
    ensures StopsAtFirst(Outcome(rest.result, [x] + rest.served, session))
  {
    var all := [x] + rest.served;
    ZeroUntilLastCons(x, rest.served);
    if rest.served != [] {
      assert all[|all| - 1] == rest.served[|rest.served| - 1];
    }
  }

  /** run stops at the first STOP: for a process_msg that answers 0 or
      STOP and stops at the end of the stream, the requests run serves end
      as StopsAtFirst says. */
  lemma {:induction false} ServeStopsAtFirstStop(input: seq<byte>, s: Session, step: nat, process: Processor)
    requires ClosedStops(process) && AnswersZeroOrStop(process)
    ensures StopsAtFirst(ServeSpec(input, s, step, process))
    decreases |input|
  {
    var p := ParseMsg(input);
    if p.msg.Raise? {
      assert ServeSpec(input, s, step, process) == Outcome(Raise(p.msg.err), [], s);
    } else {
      var m := p.msg.value;
      var acked := s.(output := s.output + (if Acked(m) then AckMsg() else []));
      var r := process(m, acked, step).0;
      var t := process(m, acked, step).1;
      if r.Raise? {
        var out := Outcome(Raise(r.err), [Served(m, r)], t);
        assert StopsAtFirst(out);
        assert ServeSpec(input, s, step, process) == out;
      } else if r.value == STOP || m == Closed {
        assert r == Ok(STOP);
        var out := Outcome(Ok(()), [Served(m, r)], t);
        assert StopsAtFirst(out);
        assert ServeSpec(input, s, step, process) == out;
      } else {
        var rest := ServeSpec(input[p.consumed..], t, step + 1, process);
        ServeStopsAtFirstStop(input[p.consumed..], t, step + 1, process);
        assert r == Ok(0);
        StopsAtFirstCons(Served(m, r), rest, rest.session);
        assert ServeSpec(input, s, step, process) == Outcome(rest.result, [Served(m, r)] + rest.served, rest.session);
      }
    }
  }

  /** What run sends back only ever grows: the session it leaves has sent
      everything the session it started from had. */
  lemma {:induction false} ServeOnlyAppends(input: seq<byte>, s: Session, step: nat, process: Processor)
    requires OnlyAppends(process)
    ensures s.output <= ServeSpec(input, s, step, process).session.output
    decreases |input|
  {
    var p := ParseMsg(input);
    if p.msg.Ok? {
      var m := p.msg.value;
      var acked := s.(output := s.output + (if Acked(m) then AckMsg() else []));
      var r := process(m, acked, step).0;
      var t := process(m, acked, step).1;
      PrefixOfAppend(s.output, if Acked(m) then AckMsg() else []);
      PrefixTrans(s.output, acked.output, t.output);
      if r.Ok? && r.value != STOP && m != Closed {
        var rest := ServeSpec(input[p.consumed..], t, step + 1, process);
        ServeOnlyAppends(input[p.consumed..], t, step + 1, process);
        PrefixTrans(s.output, t.output, rest.session.output);
      }
    }
  }

  lemma PrefixTrans(a: seq<byte>, b: seq<byte>, c: seq<byte>)
    requires a <= b && b <= c
    ensures a <= c
  {
    assert c[..|a|] == b[..|a|];
  }

  /** The manager's run: every request it serves is answered 0 until the
      STOP that ends the loop, and the connection's output only grows. */
  lemma ManagerServes(input: seq<byte>, s: Session, step: nat, clock: nat -> real, agent: AgentWriter,
                      toReal: nat -> real, o: Oracles)
    ensures var out := ServeSpec(input, s, step, ManagerProcessor(clock, agent, toReal, o));
            StopsAtFirst(out) && s.output <= out.session.output
  {
    ManagerProcessorFacts(clock, agent, toReal, o);
    ServeStopsAtFirstStop(input, s, step, ManagerProcessor(clock, agent, toReal, o));
    ServeOnlyAppends(input, s, step, ManagerProcessor(clock, agent, toReal, o));
  }

  /** What launch_agent leaves in the records, or the exception it raises:
      no control block within the tries or an unknown agent type fail the
      assert, and a missing record segment raises ExistentialError. */
  function Launch(env: AgentEnv, stats: seq<Records.ThreadStats>): Py<seq<Records.ThreadStats>>
  {
    if FirstReady(env.controlReady, 0).None? || !KnownAgentType(env.block.agentType) then Raise(AssertionError)
    else
      var n := RangeLen(env.block.threadCount);
      if SegmentsMapped(env.statsExists, n, 0) < n then Raise(ExistentialError)
      else Ok(stats + seq(n, _ => Records.ZeroRecord(env.block.agentType > 0)))
  }

  class LancetServer {
    var controller: LancetController
    /** The connection, once accepted. */
    var proto: LancetProto?
    var startTime: Option<real>
    var endTime: Option<real>

    constructor()
      ensures fresh(controller) && proto == null && startTime.None? && endTime.None?
      ensures controller.threadStats == [] && !controller.killed
    {
      controller := new LancetController();
      proto := null;
      startTime := None;
      endTime := None;
    }

    /** The part of the state that process_msg reads and writes. */
    function Snapshot(): Session
      requires proto != null
      reads this, controller, proto
    {
      Session(controller.acb, controller.threadStats, controller.loadCalls, startTime, endTime, proto.output)
    }

    /** process_msg: dispatch one request; 0 keeps serving, -1 stops. */
    method ProcessMsg(msg: Internal, now: real, toReal: nat -> real, o: Oracles) returns (r: Py<int>)
      requires proto != null
      modifies this, controller, proto
      ensures controller == old(controller) && proto == old(proto)
      ensures proto.input == old(proto.input) && proto.open == old(proto.open)
      ensures controller.killed == old(controller.killed)
      ensures (r, Snapshot()) == ProcessSpec(msg, old(Snapshot()), now, toReal, o)
    {
      match msg
      case StartLoad(load) =>
        r := ServeStartLoad(load);
      case StartMeasure(count, bits) =>
        r := ServeStartMeasure(count, toReal(bits), now);
      case Report(kind) =>
        if kind == REPORT_THROUGHPUT {
          r := ServeThroughputReport(now, o);
        } else if kind == REPORT_LATENCY {
          r := ServeLatencyReport(now, o);
          AggregateLatencyFacts(old(controller.threadStats), old(controller.acb.sampleCount), o);
        } else {
          r := Ok(STOP);
        }
      case ConnOpen =>
        var c := controller.GetConnOpen();
        proto.ReplyValue(c);
        r := Ok(0);
      case Closed =>
        r := Ok(STOP);
    }

    /** START_LOAD: start_load with the requested rate; nothing is sent
        (recv_msg has already acknowledged it). */
    method ServeStartLoad(load: nat) returns (r: Py<int>)
      modifies controller
      ensures controller.killed == old(controller.killed)
      ensures controller.threadStats == old(controller.threadStats)
      ensures r.Ok? <==> old(controller.acb.threadCount) != 0 && load != 0
      ensures r.Ok? ==> r.value == 0 &&
                        controller.acb == old(controller.acb).(shouldMeasure := 0, shouldLoad := 1) &&
                        controller.loadCalls == old(controller.loadCalls) +
                          [PerThreadInterval(load, old(controller.acb.threadCount))]
      ensures r.Raise? ==> r.err == ZeroDivisionError && controller.loadCalls == old(controller.loadCalls) &&
                           controller.acb == old(controller.acb).(shouldMeasure := 0)
    {
      var l := controller.StartLoad(load);
      if l.Raise? {
        return Raise(l.err);
      }
      r := Ok(0);
    }

    /** START_MEASURE: start_measure, then note the start of the measurement. */
    method ServeStartMeasure(count: nat, rate: real, now: real) returns (r: Py<int>)
      modifies this, controller
      ensures controller == old(controller) && proto == old(proto) && endTime == old(endTime)
      ensures controller.killed == old(controller.killed) && controller.loadCalls == old(controller.loadCalls)
      ensures controller.threadStats == ClearAll(old(controller.threadStats), old(controller.acb.agentType) > 0)
      ensures r.Ok? <==> old(controller.acb.threadCount) != 0
      ensures r.Ok? ==> r.value == 0 && startTime == Some(now) &&
                        controller.acb == old(controller.acb).(sampleCount := U32(TruncDiv(count, old(controller.acb.threadCount))),
                                                               samplingRate := rate / 100.0, shouldMeasure := 1)
      ensures r.Raise? ==> r.err == ZeroDivisionError && startTime == old(startTime) &&
                           controller.acb == old(controller.acb)
    {
      var m := controller.StartMeasure(count, rate);
      if m.Raise? {
        return Raise(m.err);
      }
      startTime := Some(now);
      r := Ok(0);
    }

    /** REPORT_REQ / REPORT_THROUGHPUT: stop measuring, aggregate the
        records, and reply with the totals over the time since
        START_MEASURE; with no START_MEASURE before, the duration raises
        AttributeError. */
    method ServeThroughputReport(now: real, o: Oracles) returns (r: Py<int>)
      requires proto != null
      modifies this, controller, proto
      ensures controller == old(controller) && proto == old(proto) && startTime == old(startTime)
      ensures proto.input == old(proto.input) && proto.open == old(proto.open)
      ensures controller.killed == old(controller.killed) && controller.loadCalls == old(controller.loadCalls)
      ensures controller.threadStats == old(controller.threadStats)
      ensures controller.acb == old(controller.acb).(shouldMeasure := 0) && endTime == Some(now)
      ensures r == (if old(startTime).None? then Raise(AttributeError) else Ok(0))
      ensures r.Raise? ==> proto.output == old(proto.output)
      ensures r.Ok? ==>
                proto.output == old(proto.output) +
                  ThroughputReportAt(ThroughputOf(old(controller.threadStats), o), now, old(startTime).value)
    {
      endTime := Some(now);
      var stats := controller.GetStats();
      var agg := AggregateThroughput(stats, o);
      assert stats == old(controller.threadStats);
      assert startTime == old(startTime) && proto == old(proto) && proto.output == old(proto.output);
      r := SendThroughputReport(agg, now);
      assert agg == ThroughputOf(old(controller.threadStats), o);
    }

    /** The end of the REPORT_THROUGHPUT branch, once the totals are computed. */
    method SendThroughputReport(agg: ThroughputAgg, now: real) returns (r: Py<int>)
      requires proto != null
      modifies proto
      ensures proto.input == old(proto.input) && proto.open == old(proto.open)
      ensures r == (if startTime.None? then Raise(AttributeError) else Ok(0))
      ensures r.Raise? ==> proto.output == old(proto.output)
      ensures r.Ok? ==> proto.output == old(proto.output) + ThroughputReportAt(agg, now, startTime.value)
    {
      if startTime.None? {
        return Raise(AttributeError);
      }
      proto.ReplyThroughput(agg, now - startTime.value);
      r := Ok(0);
    }

    /** REPORT_REQ / REPORT_LATENCY: as for throughput, with the latency
        summary; a ValueError from the aggregation ends the session, any
        other exception propagates. */
    method ServeLatencyReport(now: real, o: Oracles) returns (r: Py<int>)
      requires proto != null
      modifies this, controller, proto
      ensures controller == old(controller) && proto == old(proto) && startTime == old(startTime)
      ensures proto.input == old(proto.input) && proto.open == old(proto.open)
      ensures controller.killed == old(controller.killed) && controller.loadCalls == old(controller.loadCalls)
      ensures controller.threadStats == old(controller.threadStats)
      ensures controller.acb == old(controller.acb).(shouldMeasure := 0) && endTime == Some(now)
      ensures var agg := AggregateLatencySpec(old(controller.threadStats), old(controller.acb.sampleCount), o);
              r == (if agg.Raise? then (if agg.err == ValueError then Ok(STOP) else Raise(agg.err))
                    else if old(startTime).None? then Raise(AttributeError)
                    else Ok(0)) &&
              (agg.Raise? || old(startTime).None? ==> proto.output == old(proto.output)) &&
              (agg.Ok? && old(startTime).Some? ==>
                 |agg.value.lat| == LatencyFieldCount(Short) &&
                 proto.output == old(proto.output) + LatencyReportAt(agg.value, now, old(startTime).value))
    {
      endTime := Some(now);
      var stats := controller.GetStats();
      var perThread := controller.GetPerThreadSamples();
      assert stats == old(controller.threadStats) && perThread == old(controller.acb.sampleCount);
      var agg := AggregateLatency(stats, perThread, o);
      AggregateLatencyFacts(stats, perThread, o);
      assert startTime == old(startTime) && proto == old(proto) && proto.output == old(proto.output);
      r := SendLatencyReport(agg, now);
      assert agg == AggregateLatencySpec(old(controller.threadStats), old(controller.acb.sampleCount), o);
    }

    /** The end of the REPORT_LATENCY branch, once the summary is computed. */
    method SendLatencyReport(agg: Py<LatencyAgg>, now: real) returns (r: Py<int>)
      requires proto != null
      requires agg.Ok? ==> |agg.value.lat| == LatencyFieldCount(Short)
      modifies proto
      ensures proto.input == old(proto.input) && proto.open == old(proto.open)
      ensures r == (if agg.Raise? then (if agg.err == ValueError then Ok(STOP) else Raise(agg.err))
                    else if startTime.None? then Raise(AttributeError)
                    else Ok(0))
      ensures agg.Raise? || startTime.None? ==> proto.output == old(proto.output)
      ensures agg.Ok? && startTime.Some? ==>
                proto.output == old(proto.output) + LatencyReportAt(agg.value, now, startTime.value)
    {
      if agg.Raise? {
        if agg.err == ValueError {
          return Ok(STOP);
        }
        return Raise(agg.err);
      }
      if startTime.None? {
        return Raise(AttributeError);
      }
      proto.ReplyLatency(agg.value, now - startTime.value);
      r := Ok(0);
    }

    /** One turn of run's loop: read a request and process it. `next` is
        None when the loop goes on, and run's result when it ends here;
        `served` is what the turn adds to the served requests. */
    method ServeTurnAt(step: nat, clock: nat -> real, agent: AgentWriter, toReal: nat -> real, o: Oracles)
      returns (next: Option<Py<()>>, ghost served: seq<Served>)
      requires proto != null && proto.open
      modifies this, controller, proto
      ensures controller == old(controller) && proto == old(proto)
      ensures controller.killed == old(controller.killed)
      ensures var out := ServeSpec(old(proto.input), old(Snapshot()), step, ManagerProcessor(clock, agent, toReal, o));
              if next.Some? then
                out == Outcome(next.value, served, Snapshot())
              else
                |proto.input| < |old(proto.input)| && proto.open &&
                var rest := ServeSpec(proto.input, Snapshot(), step + 1, ManagerProcessor(clock, agent, toReal, o));
                out == Outcome(rest.result, served + rest.served, rest.session)
    {
      ghost var before := Snapshot();
      ghost var input0 := proto.input;
      var msg := proto.RecvMsg();
      if msg.Raise? {
        return Some(Raise(msg.err)), [];
      }
      ghost var acked := before.(output := before.output + (if Acked(msg.value) then AckMsg() else []));
      assert Snapshot() == acked;
      controller.AgentWrites(step, agent);
      ghost var written := acked.(stats := Written(acked.stats, step, agent));
      assert Snapshot() == written;
      var res := ProcessMsg(msg.value, clock(step), toReal, o);
      assert ManagerProcessor(clock, agent, toReal, o)(msg.value, acked, step) ==
             ProcessSpec(msg.value, written, clock(step), toReal, o);
      ServeTurn(input0, before, step, ManagerProcessor(clock, agent, toReal, o), msg.value, res, Snapshot());
      served := [Served(msg.value, res)];
      if res.Raise? {
        return Some(Raise(res.err)), served;
      }
      if res.value == STOP {
        return Some(Ok(())), served;
      }
      assert msg.value != Closed;
      next := None;
    }

    /** run after launch_agent: accept the coordinator's connection (whose
        incoming octets are `input`) and serve it until process_msg says
        stop, the i-th request at clock(i); then close the connection and
        kill the agent. An exception ends run on the spot, with the
        connection left open and the agent running. */
    method ServeConnection(input: seq<byte>, clock: nat -> real, agent: AgentWriter, toReal: nat -> real, o: Oracles)
      returns (r: Py<()>)
      requires !controller.killed
      modifies this, controller
      ensures controller == old(controller) && proto != null && fresh(proto)
      ensures var out := ServeSpec(input, Session(old(controller.acb), old(controller.threadStats),
                                                  old(controller.loadCalls), old(startTime), old(endTime), []),
                                   0, ManagerProcessor(clock, agent, toReal, o));
              r == out.result && Snapshot() == out.session
      ensures r.Ok? <==> controller.killed
      ensures r.Ok? ==> !proto.open
    {
      proto := new LancetProto(input);
      ghost var total := ServeSpec(input, Snapshot(), 0, ManagerProcessor(clock, agent, toReal, o));
      ghost var done: seq<Served> := [];
      var step: nat := 0;
      var next: Option<Py<()>> := None;
      while next.None?
        invariant proto != null && fresh(proto)
        invariant controller == old(controller) && !controller.killed
        invariant next.None? ==>
                    (proto.open &&
                     var rest := ServeSpec(proto.input, Snapshot(), step, ManagerProcessor(clock, agent, toReal, o));
                     total == Outcome(rest.result, done + rest.served, rest.session))
        invariant next.Some? ==> total == Outcome(next.value, done, Snapshot())
        decreases if next.None? then |proto.input| + 1 else 0
      {
        ghost var served;
        next, served := ServeTurnAt(step, clock, agent, toReal, o);
        done := done + served;
        step := step + 1;
      }
      r := next.value;
      if r.Ok? {
        ghost var last := Snapshot();
        var status := controller.CheckAgent();
        proto.Close();
        controller.Terminate();
        assert Snapshot() == last;
      }
    }

    /** run: launch the agent, then serve the coordinator's connection. */
    method Run(env: AgentEnv, input: seq<byte>, clock: nat -> real, agent: AgentWriter, toReal: nat -> real, o: Oracles)
      returns (r: Py<()>)
      requires !controller.killed
      modifies this, controller
      ensures controller == old(controller)
      ensures var launch := Launch(env, old(controller.threadStats));
              launch.Raise? ==> r == Raise(launch.err) && proto == old(proto) && !controller.killed
      ensures Launch(env, old(controller.threadStats)).Ok? ==>
                proto != null && fresh(proto) && (r.Ok? <==> controller.killed) && (r.Ok? ==> !proto.open)
      ensures var launch := Launch(env, old(controller.threadStats));
              launch.Ok? ==>
                var out := ServeSpec(input, Session(env.block, launch.value, old(controller.loadCalls),
                                                    old(startTime), old(endTime), []),
                                     0, ManagerProcessor(clock, agent, toReal, o));
                proto != null && r == out.result && Snapshot() == out.session
    {
      var launched := controller.LaunchAgent(env);
      if launched.Raise? {
        return Raise(launched.err);
      }
      r := ServeConnection(input, clock, agent, toReal, o);
    }
  }
}
