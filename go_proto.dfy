// The coordinator's side of the protocol (coordinator/proto.go): the
// requests it broadcasts to every agent and the loops that collect one
// reply per agent. Each conn.Read fills a zeroed buffer of 64 or 1024
// octets, which binary.Read then decodes little-endian.

module GoProto {
  import opened Common
  import opened Bytes
  import opened CoordProto
  import ManagerProto
  import ManagerStats

  /** Why a Go call gave up: the error it returns, or a panic. */
  datatype GoErr = ReadFailed | ParseFailed | WrongReply | WriteFailed | Panic

  /** A Go result: the value, or the error (or panic) that ended the call. */
  datatype Go<T> = Value(v: T) | Fail(err: GoErr)

  /** What conn.Read returned for one agent: the octets read, or an error
      (a closed connection or a missed deadline). */
  datatype ReadResult = ReadOk(data: seq<byte>) | ReadErr

  /** What conn.Write returned for one agent: the octet count, or an error. */
  datatype WriteResult = Wrote(count: nat) | WriteErr

  const SMALL_BUFFER: nat := 64
  const LARGE_BUFFER: nat := 1024

  // ---------------------------------------------------------------------
  // Requests

  /** startLoad's msg1; the load is cut to 32 bits. */
  function StartLoadMsg(load: int): (r: seq<byte>)
    ensures |r| == MSG1_SIZE
  {
    EncodeMsg1(Msg1(MsgHdr(START_LOAD, 4), U32(load)))
  }

  /** startMeasure's header, sample count (cut to 32 bits) and the 64-bit
      pattern of the sampling rate. */
  function StartMeasureMsg(sampleCount: int, rateBits: nat): (r: seq<byte>)
    ensures |r| == MSG_HDR_SIZE + 12
  {
    EncodeHdr(MsgHdr(START_MEASURE, 12)) + EncodeLE(U32(sampleCount), 4) + EncodeLE(rateBits, 8)
  }

  function ReportMsg(kind: nat): (r: seq<byte>)
    ensures |r| == MSG1_SIZE
  {
    EncodeMsg1(Msg1(MsgHdr(REPORT_REQ, 4), U32(kind)))
  }

  function ConnOpenMsg(): (r: seq<byte>)
    ensures |r| == MSG1_SIZE
  {
    EncodeMsg1(Msg1(MsgHdr(ManagerProto.CONN_OPEN, 4), 0))
  }

  /** A packed msg1 is its header followed by its 32-bit Info. */
  lemma Msg1Layout(m: Msg1)
    ensures EncodeMsg1(m) == EncodeHdr(m.hdr) + EncodeLE(m.info, 4)
  {
    Pow256Values();
    EncodeFieldsAppend([m.hdr.msgType, m.hdr.msgLen], [m.info], 4);
    assert [m.hdr.msgType, m.hdr.msgLen, m.info] == [m.hdr.msgType, m.hdr.msgLen] + [m.info];
    assert EncodeFields([m.info], 4) == EncodeLE(m.info, 4) + EncodeFields([], 4);
  }

  /** The manager reads a msg1 request of a known type as the message its
      Info carries, consuming the twelve octets. */
  lemma Msg1RequestParsed(t: nat, info: nat, rest: seq<byte>)
    requires t < TWO_32 && info < TWO_32 && ManagerProto.PayloadSize(t) == Some(4)
    ensures ManagerProto.ParseMsg(EncodeMsg1(Msg1(MsgHdr(t, 4), info)) + rest) ==
            ManagerProto.Parsed(Ok(ManagerProto.DecodePayload(t, EncodeLE(info, 4))), MSG1_SIZE)
  {
    Msg1Layout(Msg1(MsgHdr(t, 4), info));
    ManagerProto.ParseMsgOfFrame(MsgHdr(t, 4), EncodeLE(info, 4), rest);
  }

  lemma StartLoadParsed(load: int, rest: seq<byte>)
    ensures ManagerProto.ParseMsg(StartLoadMsg(load) + rest) ==
            ManagerProto.Parsed(Ok(ManagerProto.StartLoad(U32(load))), MSG1_SIZE)
  {
    Pow256Values();
    Msg1RequestParsed(START_LOAD, U32(load), rest);
    DecodeEncodeLE(U32(load), 4);
  }

  lemma ReportParsed(kind: nat, rest: seq<byte>)
    ensures ManagerProto.ParseMsg(ReportMsg(kind) + rest) ==
            ManagerProto.Parsed(Ok(ManagerProto.Report(U32(kind))), MSG1_SIZE)
  {
    Pow256Values();
    Msg1RequestParsed(REPORT_REQ, U32(kind), rest);
    DecodeEncodeLE(U32(kind), 4);
  }

  lemma ConnOpenParsed(rest: seq<byte>)
    ensures ManagerProto.ParseMsg(ConnOpenMsg() + rest) ==
            ManagerProto.Parsed(Ok(ManagerProto.ConnOpen), MSG1_SIZE)
  {
    Pow256Values();
    Msg1RequestParsed(ManagerProto.CONN_OPEN, 0, rest);
  }

  /** The manager reads startMeasure's message back: the count cut to 32
      bits and the rate's bit pattern, twenty octets in all. */
  lemma StartMeasureParsed(sampleCount: int, rateBits: nat, rest: seq<byte>)
    requires rateBits < TWO_64
    ensures ManagerProto.ParseMsg(StartMeasureMsg(sampleCount, rateBits) + rest) ==
            ManagerProto.Parsed(Ok(ManagerProto.StartMeasure(U32(sampleCount), rateBits)), MSG_HDR_SIZE + 12)
  {
    Pow256Values();
    var payload := EncodeLE(U32(sampleCount), 4) + EncodeLE(rateBits, 8);
    assert StartMeasureMsg(sampleCount, rateBits) == EncodeHdr(MsgHdr(START_MEASURE, 12)) + payload;
    ManagerProto.ParseMsgOfFrame(MsgHdr(START_MEASURE, 12), payload, rest);
    assert payload[..4] == EncodeLE(U32(sampleCount), 4);
    assert payload[4..] == EncodeLE(rateBits, 8);
    DecodeEncodeLE(U32(sampleCount), 4);
    DecodeEncodeLE(rateBits, 8);
  }

  // ---------------------------------------------------------------------
  // broadcastMessage

  /** The first failure of writing `len` octets to every agent in turn: a
      write error is returned, a short write panics. */
  function BroadcastSpec(writes: seq<WriteResult>, len: nat): Go<()>
  {
    if writes == [] then Value(())
    else
      var front := BroadcastSpec(writes[..|writes| - 1], len);
      var last := writes[|writes| - 1];
      if front.Fail? then front
      else if last.WriteErr? then Fail(WriteFailed)
      else if last.count != len then Fail(Panic)
      else Value(())
  }

  method Broadcast(writes: seq<WriteResult>, msg: seq<byte>) returns (r: Go<()>)
    ensures r == BroadcastSpec(writes, |msg|)
    ensures r.Value? <==> forall i :: 0 <= i < |writes| ==> writes[i] == Wrote(|msg|)
  {
    var i := 0;
    while i < |writes|
      invariant 0 <= i <= |writes|
      invariant BroadcastSpec(writes[..i], |msg|) == Value(())
      invariant forall j :: 0 <= j < i ==> writes[j] == Wrote(|msg|)
    {
      assert writes[..i + 1][..i] == writes[..i];
      if writes[i].WriteErr? {
        BroadcastFailStays(writes, i + 1, |msg|);
        return Fail(WriteFailed);
      }
      if writes[i].count != |msg| {
        BroadcastFailStays(writes, i + 1, |msg|);
        return Fail(Panic);
      }
      i := i + 1;
    }
    assert writes[..i] == writes;
    r := Value(());
  }

  /** Once a prefix of the agents has failed, the whole broadcast fails the same way. */
  lemma {:induction false} BroadcastFailStays(writes: seq<WriteResult>, k: nat, len: nat)
    requires k <= |writes| && BroadcastSpec(writes[..k], len).Fail?
    ensures BroadcastSpec(writes, len) == BroadcastSpec(writes[..k], len)
    decreases |writes| - k
  {
    if k < |writes| {
      assert writes[..k + 1][..k] == writes[..k];
      BroadcastFailStays(writes, k + 1, len);
    } else {
      assert writes[..k] == writes;
    }
  }

  // ---------------------------------------------------------------------
  // The collect loops

  /** The buffer binary.Read decodes: what conn.Read delivered (at most
      `size` octets) followed by the zeros make() left. */
  function Buffer(data: seq<byte>, size: nat): (b: seq<byte>)
    ensures |b| == size
  {
    if |data| >= size then data[..size] else data + seq(size - |data|, _ => 0)
  }

  lemma BufferAppend(x: seq<byte>, rest: seq<byte>, size: nat)
    requires |x| <= size
    ensures Buffer(x + rest, size) == x + Buffer(rest, size - |x|)
  {
  }

  /** collectAcks' check on one buffer. */
  function AckParse(buf: seq<byte>): Go<()>
  {
    if |buf| < MSG1_SIZE then Fail(ParseFailed)
    else if DecodeMsg1(buf).info != REPLY_ACK then Fail(WrongReply)
    else Value(())
  }

  /** collectValues' reading of one buffer: the Info field. */
  function ValueParse(buf: seq<byte>): Go<nat>
  {
    if |buf| < MSG1_SIZE then Fail(ParseFailed) else Value(DecodeMsg1(buf).info)
  }

  /** collectThroughputResults' reading of one buffer. */
  function ThroughputParse(buf: seq<byte>): Go<ThroughputReply>
  {
    if |buf| < MSG1_SIZE then Fail(ParseFailed)
    else if DecodeMsg1(buf).info != REPLY_STATS_THROUGHPUT then Fail(WrongReply)
    else if |buf| < MSG1_SIZE + THROUGHPUT_REPLY_SIZE then Fail(ParseFailed)
    else Value(DecodeThroughput(buf[MSG1_SIZE..]))
  }

  /** collectLatencyResults' reading of one buffer, through the
      latency_reply that inc/lancet/coord_proto.h declares (Short); the
      P99.9 to P99.9999 fields coordinator/stats.go also sums are not in
      that header. */
  function LatencyParse(buf: seq<byte>): Go<LatencyReply>
  {
    if |buf| < MSG1_SIZE then Fail(ParseFailed)
    else if DecodeMsg1(buf).info != REPLY_STATS_LATENCY then Fail(WrongReply)
    else if |buf| < MSG1_SIZE + LatencyReplySize(Short) then Fail(ParseFailed)
    else Value(DecodeLatency(Short, buf[MSG1_SIZE..]))
  }

  /** One agent's reply: a failed read, or the parse of its buffer. */
  function ReplyOf<T>(read: ReadResult, size: nat, parse: seq<byte> -> Go<T>): Go<T>
  {
    if read.ReadErr? then Fail(ReadFailed) else parse(Buffer(read.data, size))
  }

  /** The replies of all agents in order, or the first failure. */
  function CollectSpec<T>(received: seq<ReadResult>, size: nat, parse: seq<byte> -> Go<T>): (r: Go<seq<T>>)
    ensures r.Value? ==> |r.v| == |received|
  {
    if received == [] then Value([])
    else
      var front := CollectSpec(received[..|received| - 1], size, parse);
      var last := ReplyOf(received[|received| - 1], size, parse);
      if front.Fail? then front
      else if last.Fail? then Fail(last.err)
      else Value(front.v + [last.v])
  }

  /** A collection succeeds exactly when every agent's reply does, and then
      holds each agent's reply at its index. */
  lemma CollectSpecValues<T>(received: seq<ReadResult>, size: nat, parse: seq<byte> -> Go<T>)
    ensures CollectSpec(received, size, parse).Value? <==>
            forall i :: 0 <= i < |received| ==> ReplyOf(received[i], size, parse).Value?
    ensures CollectSpec(received, size, parse).Value? ==>
            forall i :: 0 <= i < |received| ==> CollectSpec(received, size, parse).v[i] == ReplyOf(received[i], size, parse).v
  {
    CollectSpecSucceeds(received, size, parse);
    CollectSpecAt(received, size, parse);
  }

  lemma {:induction false} CollectSpecSucceeds<T>(received: seq<ReadResult>, size: nat, parse: seq<byte> -> Go<T>)
    ensures CollectSpec(received, size, parse).Value? <==>
            forall i :: 0 <= i < |received| ==> ReplyOf(received[i], size, parse).Value?
  {
    if received != [] {
      var n := |received| - 1;
      var front := received[..n];
      CollectSpecSucceeds(front, size, parse);
      assert forall i :: 0 <= i < n ==> front[i] == received[i];
    }
  }

  lemma {:induction false} CollectSpecAt<T>(received: seq<ReadResult>, size: nat, parse: seq<byte> -> Go<T>)
    ensures CollectSpec(received, size, parse).Value? ==>
            forall i :: 0 <= i < |received| ==>
              ReplyOf(received[i], size, parse).Value? &&
              CollectSpec(received, size, parse).v[i] == ReplyOf(received[i], size, parse).v
  {
    var all := CollectSpec(received, size, parse);
    if received != [] && all.Value? {
      var n := |received| - 1;
      var front := received[..n];
      var f := CollectSpec(front, size, parse);
      var last := ReplyOf(received[n], size, parse);
      assert f.Value? && last.Value? && all.v == f.v + [last.v];
      CollectSpecAt(front, size, parse);
      forall i | 0 <= i < |received|
        ensures ReplyOf(received[i], size, parse).Value? && all.v[i] == ReplyOf(received[i], size, parse).v
      {
        if i < n {
          assert front[i] == received[i];
          assert all.v[i] == f.v[i];
        }
      }
    }
  }

  lemma {:induction false} CollectFailStays<T>(received: seq<ReadResult>, k: nat, size: nat,
                                               parse: seq<byte> -> Go<T>)
    requires k <= |received| && CollectSpec(received[..k], size, parse).Fail?
    ensures CollectSpec(received, size, parse) == CollectSpec(received[..k], size, parse)
    decreases |received| - k
  {
    if k < |received| {
      assert received[..k + 1][..k] == received[..k];
      CollectFailStays(received, k + 1, size, parse);
    } else {
      assert received[..k] == received;
    }
  }

  /** The loop shared by collectAcks, collectValues, collectThroughputResults
      and collectLatencyResults: read each agent's reply into a fresh buffer
      and parse it, stopping at the first failure. */
  method Collect<T>(received: seq<ReadResult>, size: nat, parse: seq<byte> -> Go<T>) returns (r: Go<seq<T>>)
    ensures r == CollectSpec(received, size, parse)
  {
    var result: seq<T> := [];
    var i := 0;
    while i < |received|
      invariant 0 <= i <= |received|
      invariant CollectSpec(received[..i], size, parse) == Value(result)
    {
      assert received[..i + 1][..i] == received[..i];
      assert received[..i + 1][i] == received[i];
      if received[i].ReadErr? {
        CollectFailStays(received, i + 1, size, parse);
        return Fail(ReadFailed);
      }
      var reply := parse(Buffer(received[i].data, size));
      if reply.Fail? {
        CollectFailStays(received, i + 1, size, parse);
        return Fail(reply.err);
      }
      result := result + [reply.v];
      i := i + 1;
    }
    assert received[..i] == received;
    r := Value(result);
  }

  method CollectAcks(received: seq<ReadResult>) returns (r: Go<()>)
    ensures r.Value? <==> forall i :: 0 <= i < |received| ==> ReplyOf(received[i], SMALL_BUFFER, AckParse).Value?
  {
    var all := Collect(received, SMALL_BUFFER, AckParse);
    CollectSpecValues(received, SMALL_BUFFER, AckParse);
    r := if all.Fail? then Fail(all.err) else Value(());
  }

  method CollectValues(received: seq<ReadResult>) returns (r: Go<seq<nat>>)
    ensures r == CollectSpec(received, SMALL_BUFFER, ValueParse)
  {
    r := Collect(received, SMALL_BUFFER, ValueParse);
  }

  method CollectThroughputResults(received: seq<ReadResult>) returns (r: Go<seq<ThroughputReply>>)
    ensures r == CollectSpec(received, LARGE_BUFFER, ThroughputParse)
  {
    r := Collect(received, LARGE_BUFFER, ThroughputParse);
  }

  method CollectLatencyResults(received: seq<ReadResult>) returns (r: Go<seq<LatencyReply>>)
    ensures r == CollectSpec(received, LARGE_BUFFER, LatencyParse)
  {
    r := Collect(received, LARGE_BUFFER, LatencyParse);
  }

  // ---------------------------------------------------------------------
  // The request functions

  method StartLoad(writes: seq<WriteResult>, received: seq<ReadResult>, load: int) returns (r: Go<()>)
    ensures BroadcastSpec(writes, MSG1_SIZE).Fail? ==> r == BroadcastSpec(writes, MSG1_SIZE)
    ensures r.Value? <==> (BroadcastSpec(writes, MSG1_SIZE).Value? &&
                           forall i :: 0 <= i < |received| ==> ReplyOf(received[i], SMALL_BUFFER, AckParse).Value?)
  {
    var msg := StartLoadMsg(load);
    var sent := Broadcast(writes, msg);
    if sent.Fail? {
      return sent;
    }
    r := CollectAcks(received);
  }

  method StartMeasure(writes: seq<WriteResult>, received: seq<ReadResult>, sampleCount: int, rateBits: nat)
    returns (r: Go<()>)
    ensures BroadcastSpec(writes, MSG_HDR_SIZE + 12).Fail? ==> r == BroadcastSpec(writes, MSG_HDR_SIZE + 12)
    ensures r.Value? <==> (BroadcastSpec(writes, MSG_HDR_SIZE + 12).Value? &&
                           forall i :: 0 <= i < |received| ==> ReplyOf(received[i], SMALL_BUFFER, AckParse).Value?)
  {
    var msg := StartMeasureMsg(sampleCount, rateBits);
    var sent := Broadcast(writes, msg);
    if sent.Fail? {
      return sent;
    }
    r := CollectAcks(received);
  }

  method ReportThroughput(writes: seq<WriteResult>, received: seq<ReadResult>) returns (r: Go<seq<ThroughputReply>>)
    ensures r == (var sent := BroadcastSpec(writes, MSG1_SIZE);
                  if sent.Fail? then Fail(sent.err) else CollectSpec(received, LARGE_BUFFER, ThroughputParse))
  {
    var msg := ReportMsg(REPORT_THROUGHPUT);
    var sent := Broadcast(writes, msg);
    if sent.Fail? {
      return Fail(sent.err);
    }
    r := CollectThroughputResults(received);
  }

  method ReportLatency(writes: seq<WriteResult>, received: seq<ReadResult>) returns (r: Go<seq<LatencyReply>>)
    ensures r == (var sent := BroadcastSpec(writes, MSG1_SIZE);
                  if sent.Fail? then Fail(sent.err) else CollectSpec(received, LARGE_BUFFER, LatencyParse))
  {
    var msg := ReportMsg(REPORT_LATENCY);
    var sent := Broadcast(writes, msg);
    if sent.Fail? {
      return Fail(sent.err);
    }
    r := CollectLatencyResults(received);
  }

  /** check_conn_open: every agent must report at least one open connection. */
  method CheckConnOpen(writes: seq<WriteResult>, received: seq<ReadResult>) returns (r: Go<bool>)
    ensures BroadcastSpec(writes, MSG1_SIZE).Fail? ==> r == Fail(BroadcastSpec(writes, MSG1_SIZE).err)
    ensures BroadcastSpec(writes, MSG1_SIZE).Value? && CollectSpec(received, SMALL_BUFFER, ValueParse).Fail? ==>
              r == Fail(CollectSpec(received, SMALL_BUFFER, ValueParse).err)
    ensures BroadcastSpec(writes, MSG1_SIZE).Value? && CollectSpec(received, SMALL_BUFFER, ValueParse).Value? ==>
              r.Value? &&
              (r.v <==> forall i :: 0 <= i < |received| ==> CollectSpec(received, SMALL_BUFFER, ValueParse).v[i] != 0)
  {
    var msg := ConnOpenMsg();
    var sent := Broadcast(writes, msg);
    if sent.Fail? {
      return Fail(sent.err);
    }
    var values := CollectValues(received);
    if values.Fail? {
      return Fail(values.err);
    }
    var open := AllOpen(values.v);
    r := Value(open);
  }

  /** check_conn_open's scan: false at the first agent with no open connection. */
  method AllOpen(counts: seq<nat>) returns (open: bool)
    ensures open <==> forall i :: 0 <= i < |counts| ==> counts[i] != 0
  {
    var i := 0;
    while i < |counts|
      invariant 0 <= i <= |counts|
      invariant forall j :: 0 <= j < i ==> counts[j] != 0
    {
      if counts[i] == 0 {
        return false;
      }
      i := i + 1;
    }
    open := true;
  }

  // ---------------------------------------------------------------------
  // What the coordinator makes of the manager's replies

  /** The manager's ACK passes collectAcks, whatever follows it in the read. */
  lemma AckAccepted(rest: seq<byte>)
    ensures AckParse(Buffer(ManagerProto.AckMsg() + rest, SMALL_BUFFER)) == Value(())
  {
    var m := Msg1(MsgHdr(REPLY, 4), REPLY_ACK);
    BufferAppend(ManagerProto.AckMsg(), rest, SMALL_BUFFER);
    Pow256Values();
    Msg1RoundTrip(m, Buffer(rest, SMALL_BUFFER - MSG1_SIZE));
  }

  /** collectValues reads the manager's reply_value as the value cut to 32 bits. */
  lemma ValueAccepted(value: int, rest: seq<byte>)
    ensures ValueParse(Buffer(ManagerProto.ValueMsg(value) + rest, SMALL_BUFFER)) == Value(U32(value))
  {
    var m := Msg1(MsgHdr(REPLY, 4), U32(value));
    BufferAppend(ManagerProto.ValueMsg(value), rest, SMALL_BUFFER);
    Pow256Values();
    Msg1RoundTrip(m, Buffer(rest, SMALL_BUFFER - MSG1_SIZE));
  }

  /** collectThroughputResults reads the manager's reply_throughput as the
      reply structure the manager filled. */
  lemma ThroughputAccepted(agg: ManagerStats.ThroughputAgg, duration: real)
    ensures var s := EncodeMsg1(Msg1(MsgHdr(REPLY, ManagerProto.THROUGHPUT_MSG_LEN), REPLY_STATS_THROUGHPUT)) +
                     EncodeThroughput(ManagerProto.ThroughputReplyOf(agg, duration));
            ThroughputParse(Buffer(s, LARGE_BUFFER)) == Value(ManagerProto.ThroughputReplyOf(agg, duration))
  {
    var s := EncodeMsg1(Msg1(MsgHdr(REPLY, ManagerProto.THROUGHPUT_MSG_LEN), REPLY_STATS_THROUGHPUT)) +
             EncodeThroughput(ManagerProto.ThroughputReplyOf(agg, duration));
    var pad := seq(LARGE_BUFFER - |s|, _ => 0);
    assert Buffer(s, LARGE_BUFFER) == s + pad;
    ManagerProto.ThroughputReplyReadBack(agg, duration, pad);
  }

  /** collectLatencyResults reads the (corrected) reply_latency as the
      reply structure the manager filled. */
  lemma LatencyAccepted(stats: ManagerStats.LatencyAgg, duration: real)
    requires |stats.lat| == LatencyFieldCount(Short)
    ensures var s := EncodeMsg1(Msg1(MsgHdr(REPLY, ManagerProto.LATENCY_MSG_LEN), REPLY_STATS_LATENCY)) +
                     EncodeLatency(Short, ManagerProto.LatencyReplyOf(stats, duration));
            LatencyParse(Buffer(s, LARGE_BUFFER)) == Value(ManagerProto.LatencyReplyOf(stats, duration))
  {
    var s := EncodeMsg1(Msg1(MsgHdr(REPLY, ManagerProto.LATENCY_MSG_LEN), REPLY_STATS_LATENCY)) +
             EncodeLatency(Short, ManagerProto.LatencyReplyOf(stats, duration));
    var pad := seq(LARGE_BUFFER - |s|, _ => 0);
    assert Buffer(s, LARGE_BUFFER) == s + pad;
    ManagerProto.LatencyReplyReadBack(stats, duration, pad);
  }
}
