// The manager's side of the coordinator protocol (agent-manager/manager/proto.py):
// reading one request from the coordinator's stream, acknowledging it, and
// packing the value, throughput and latency replies with ctypes' layouts.

module ManagerProto {
  import opened Common
  import opened Bytes
  import opened CoordProto
  import ManagerStats

  /** The message type the coordinator uses to ask for conn_open. */
  const CONN_OPEN: nat := 5

  /** The length field reply_throughput and reply_latency write. */
  const THROUGHPUT_MSG_LEN: nat := 36
  const LATENCY_MSG_LEN: nat := 140

  /** MsgInternal: what recv_msg hands to process_msg. Internal type -1 is
      Closed and type 3 is ConnOpen. */
  datatype Internal =
    | StartLoad(load: nat)
    | StartMeasure(sampleCount: nat, rateBits: nat)
    | Report(kind: nat)
    | ConnOpen
    | Closed

  /** recv_msg answers these two with an ACK. */
  predicate Acked(m: Internal) { m.StartLoad? || m.StartMeasure? }

  /** The payload recv_msg reads after a header of this type, if it knows it. */
  function PayloadSize(msgType: nat): Option<nat>
  {
    if msgType == START_LOAD || msgType == REPORT_REQ || msgType == CONN_OPEN then Some(4)
    else if msgType == START_MEASURE then Some(12)
    else None
  }

  /** The message a complete payload of a known type carries. */
  function DecodePayload(msgType: nat, p: seq<byte>): Internal
    requires PayloadSize(msgType) == Some(|p|)
  {
    if msgType == START_LOAD then StartLoad(DecodeLE(p))
    else if msgType == START_MEASURE then StartMeasure(DecodeLE(p[..4]), DecodeLE(p[4..]))
    else if msgType == REPORT_REQ then Report(DecodeLE(p))
    else ConnOpen
  }

  /** One recv_msg on a stream holding `input`: the message (or the
      exception) and how many octets it consumed. recv(n) returns the first
      min(n, available) octets. */
  datatype Parsed = Parsed(msg: Py<Internal>, consumed: nat)

  function ParseMsg(input: seq<byte>): (r: Parsed)
    ensures r.consumed <= |input|
    ensures input != [] ==> r.consumed > 0
    ensures r.msg == Ok(Closed) <==> input == []
    ensures r.msg.Raise? ==> r.msg.err == AssertionError
    ensures input != [] && r.msg.Ok? ==>
              |input| >= MSG_HDR_SIZE &&
              var t := DecodeHdr(input[..MSG_HDR_SIZE]).msgType;
              PayloadSize(t).Some? && r.consumed == MSG_HDR_SIZE + PayloadSize(t).value
  {
    if input == [] then Parsed(Ok(Closed), 0)
    else if |input| < MSG_HDR_SIZE then Parsed(Raise(AssertionError), |input|)
    else
      var t := DecodeHdr(input[..MSG_HDR_SIZE]).msgType;
      var size := PayloadSize(t);
      if size.None? then Parsed(Raise(AssertionError), MSG_HDR_SIZE)
      else if |input| < MSG_HDR_SIZE + size.value then Parsed(Raise(AssertionError), |input|)
      else
        Parsed(Ok(DecodePayload(t, input[MSG_HDR_SIZE..MSG_HDR_SIZE + size.value])),
               MSG_HDR_SIZE + size.value)
  }

  /** A header of a known type followed by its payload is read back as the
      message the payload carries, consuming exactly those octets. */
  lemma ParseMsgOfFrame(h: MsgHdr, payload: seq<byte>, rest: seq<byte>)
    requires HdrValid(h) && PayloadSize(h.msgType) == Some(|payload|)
    ensures ParseMsg(EncodeHdr(h) + payload + rest) ==
            Parsed(Ok(DecodePayload(h.msgType, payload)), MSG_HDR_SIZE + |payload|)
  {
    var s := EncodeHdr(h) + payload + rest;
    assert s[..MSG_HDR_SIZE] == EncodeHdr(h) + [];
    assert s[MSG_HDR_SIZE..MSG_HDR_SIZE + |payload|] == payload;
    Pow256Values();
    DecodeEncodeFields([h.msgType, h.msgLen], 4, []);
  }

  /** A header of a type recv_msg does not know stops it with an
      AssertionError, whatever follows. */
  lemma ParseMsgUnknownType(h: MsgHdr, rest: seq<byte>)
    requires HdrValid(h) && PayloadSize(h.msgType).None?
    ensures ParseMsg(EncodeHdr(h) + rest) == Parsed(Raise(AssertionError), MSG_HDR_SIZE)
  {
    var s := EncodeHdr(h) + rest;
    assert s[..MSG_HDR_SIZE] == EncodeHdr(h) + [];
    Pow256Values();
    DecodeEncodeFields([h.msgType, h.msgLen], 4, []);
  }

  /** REPLY / REPLY_ACK. */
  function AckMsg(): (r: seq<byte>)
    ensures |r| == MSG1_SIZE
  {
    EncodeMsg1(Msg1(MsgHdr(REPLY, 4), REPLY_ACK))
  }

  /** REPLY carrying a value; ctypes keeps the low 32 bits of the int. */
  function ValueMsg(value: int): (r: seq<byte>)
    ensures |r| == MSG1_SIZE
    ensures DecodeMsg1(r) == Msg1(MsgHdr(REPLY, 4), U32(value))
  {
    Msg1RoundTrip(Msg1(MsgHdr(REPLY, 4), U32(value)), []);
    assert EncodeMsg1(Msg1(MsgHdr(REPLY, 4), U32(value))) + [] ==
           EncodeMsg1(Msg1(MsgHdr(REPLY, 4), U32(value)));
    EncodeMsg1(Msg1(MsgHdr(REPLY, 4), U32(value)))
  }

  /** The ThroughputReply structure reply_throughput fills: the duration in
      microseconds, truncated; ReqCount is the received-request count;
      every field wraps to 64 bits as ctypes does. */
  function ThroughputReplyOf(agg: ManagerStats.ThroughputAgg, duration: real): (r: ThroughputReply)
    ensures ThroughputValid(r)
    ensures r.correctIad == 1 <==> agg.iaIsCorrect
    ensures r.correctIad <= 1
  {
    ThroughputReply(U64(agg.rxBytes), U64(agg.txBytes), U64(agg.rxReqs),
                    U64(Trunc(1000000.0 * duration)), if agg.iaIsCorrect then 1 else 0)
  }

  /** The latency structure the coordinator's latency_reply declares, filled
      from the summary: the 13 latency fields, ToReduceSampling and the two
      verdicts as 0 or 1. */
  function LatencyReplyOf(stats: ManagerStats.LatencyAgg, duration: real): (r: LatencyReply)
    requires |stats.lat| == LatencyFieldCount(Short)
    ensures LatencyValid(Short, r)
    ensures r.isIid == 1 <==> stats.isIid
    ensures r.isStationary == 1 <==> stats.isStationary
    ensures r.isIid <= 1 && r.isStationary <= 1
  {
    Pow256Values();
    LatencyReply(ThroughputReplyOf(stats.throughput, duration),
                 seq(|stats.lat|, i requires 0 <= i < |stats.lat| => U64(stats.lat[i])),
                 U32(stats.toReduce), if stats.isIid then 1 else 0,
                 if stats.isStationary then 1 else 0)
  }

  // ---------------------------------------------------------------------
  // reply_latency as written

  /** The latency attributes reply_latency reads from its argument, in the
      order it reads them (after duration and throughput_stats). */
  const REPLY_LATENCY_READS: seq<string> :=
    ["Avg_latency", "P50i", "P50", "P50k", "P90i", "P90", "P90k", "P95i", "P95", "P95k",
     "P99i", "P99", "P99k", "P999i", "P999", "P999k", "P9999i", "P9999", "P9999k",
     "P99999i", "P99999", "P99999k", "P999999i", "P999999", "P999999k",
     "IsIID", "ToReduce", "is_stationary"]

  /** The attributes aggregate_latency sets on its summary object (whose
      __init__ never runs, being spelt _init_), with their values. */
  function LatencyAttributes(stats: ManagerStats.LatencyAgg): (m: map<string, int>)
    requires |stats.lat| == 13
    ensures forall i :: 0 <= i < 13 ==> REPLY_LATENCY_READS[i] in m
  {
    map["Avg_latency" := stats.lat[0],
        "P50i" := stats.lat[1], "P50" := stats.lat[2], "P50k" := stats.lat[3],
        "P90i" := stats.lat[4], "P90" := stats.lat[5], "P90k" := stats.lat[6],
        "P95i" := stats.lat[7], "P95" := stats.lat[8], "P95k" := stats.lat[9],
        "P99i" := stats.lat[10], "P99" := stats.lat[11], "P99k" := stats.lat[12],
        "IsIID" := if stats.isIid then 1 else 0,
        "ToReduce" := stats.toReduce,
        "is_stationary" := if stats.isStationary then 1 else 0]
  }

  /** reply_latency as written: it reads every attribute in turn, raising
      AttributeError at the first one the object lacks; with all of them it
      sends proto.py's own LatencyReply layout (25 latency fields). */
  function ReplyLatencyAsWritten(obj: map<string, int>, th: ThroughputReply): (r: Py<seq<byte>>)
    ensures r.Raise? <==> exists i :: 0 <= i < |REPLY_LATENCY_READS| && REPLY_LATENCY_READS[i] !in obj
    ensures r.Raise? ==> r.err == AttributeError
    ensures r.Ok? ==> |r.value| == MSG1_SIZE + LatencyReplySize(Extended)
  {
    if forall i :: 0 <= i < |REPLY_LATENCY_READS| ==> REPLY_LATENCY_READS[i] in obj then
      assert REPLY_LATENCY_READS[25] == "IsIID" && REPLY_LATENCY_READS[26] == "ToReduce" &&
             REPLY_LATENCY_READS[27] == "is_stationary";
      var n := LatencyFieldCount(Extended);
      var lat := seq(n, i requires 0 <= i < n => U64(obj[REPLY_LATENCY_READS[i]]));
      Ok(EncodeMsg1(Msg1(MsgHdr(REPLY, LATENCY_MSG_LEN), REPLY_STATS_LATENCY)) +
         EncodeLatency(Extended, LatencyReply(th, lat, U32(obj["ToReduce"]), U8(obj["IsIID"]),
                                              U8(obj["is_stationary"]))))
    else Raise(AttributeError)
  }

  /** Every latency report fails: the summary never has P999i, the first of
      the twelve extended percentile attributes reply_latency reads. */
  lemma ReplyLatencyAsWrittenRaises(stats: ManagerStats.LatencyAgg, th: ThroughputReply)
    requires |stats.lat| == 13
    ensures ReplyLatencyAsWritten(LatencyAttributes(stats), th) == Raise(AttributeError)
  {
    var m := LatencyAttributes(stats);
    assert REPLY_LATENCY_READS[13] == "P999i";
    assert "P999i" !in m.Keys;
  }

  // ---------------------------------------------------------------------
  // The connection object

  /** LancetProto over one accepted connection: the octets the coordinator
      has sent and recv_msg has not consumed, the octets sent back, and
      whether the socket is still open. */
  class LancetProto {
    var input: seq<byte>
    var output: seq<byte>
    var open: bool

    constructor(input: seq<byte>)
      ensures this.input == input && output == [] && open
    {
      this.input := input;
      output := [];
      open := true;
    }

    /** conn.recv(n) on a stream: the first min(n, available) octets. */
    method Recv(n: nat) returns (data: seq<byte>)
      modifies this
      ensures |data| == if n <= |old(input)| then n else |old(input)|
      ensures data == old(input)[..|data|] && input == old(input)[|data|..]
      ensures output == old(output) && open == old(open)
    {
      var k := if n <= |input| then n else |input|;
      data := input[..k];
      input := input[k..];
    }

    /** recv_msg: read a header, then the payload its type calls for;
        acknowledge START_LOAD and START_MEASURE; close on end of stream. */
    method RecvMsg() returns (msg: Py<Internal>)
      modifies this
      ensures var p := ParseMsg(old(input));
              msg == p.msg && input == old(input)[p.consumed..]
      ensures output == old(output) + (if msg.Ok? && Acked(msg.value) then AckMsg() else [])
      ensures open == (old(open) && msg != Ok(Closed))
    {
      ghost var start := input;
      var data := Recv(MSG_HDR_SIZE);
      if |data| == 0 {
        open := false;
        return Ok(Closed);
      }
      if |data| != MSG_HDR_SIZE {
        return Raise(AssertionError);
      }
      var hdr := DecodeHdr(data);
      var size := PayloadSize(hdr.msgType);
      if size.None? {
        return Raise(AssertionError);
      }
      data := Recv(size.value);
      if |data| != size.value {
        return Raise(AssertionError);
      }
      assert data == start[MSG_HDR_SIZE..MSG_HDR_SIZE + size.value];
      assert input == start[MSG_HDR_SIZE + size.value..];
      msg := Ok(DecodePayload(hdr.msgType, data));
      if Acked(msg.value) {
        ReplyAck();
      }
    }

    method ReplyAck()
      modifies this
      ensures output == old(output) + AckMsg()
      ensures input == old(input) && open == old(open)
    {
      output := output + AckMsg();
    }

    method ReplyValue(value: int)
      modifies this
      ensures output == old(output) + ValueMsg(value)
      ensures input == old(input) && open == old(open)
    {
      output := output + ValueMsg(value);
    }

    /** The REPLY_STATS_THROUGHPUT header followed by the packed structure. */
    method ReplyThroughput(agg: ManagerStats.ThroughputAgg, duration: real)
      modifies this
      ensures output == old(output) + ThroughputReport(agg, duration)
      ensures input == old(input) && open == old(open)
    {
      var msg := EncodeMsg1(Msg1(MsgHdr(REPLY, THROUGHPUT_MSG_LEN), REPLY_STATS_THROUGHPUT));
      var reply := ThroughputReplyOf(agg, duration);
      output := output + (msg + EncodeThroughput(reply));
    }

    /** reply_latency with the summary's own fields, packed in the
        coordinator's latency_reply layout. */
    method ReplyLatency(stats: ManagerStats.LatencyAgg, duration: real)
      requires |stats.lat| == LatencyFieldCount(Short)
      modifies this
      ensures output == old(output) + LatencyReport(stats, duration)
      ensures input == old(input) && open == old(open)
    {
      var msg := EncodeMsg1(Msg1(MsgHdr(REPLY, LATENCY_MSG_LEN), REPLY_STATS_LATENCY));
      var reply := LatencyReplyOf(stats, duration);
      output := output + (msg + EncodeLatency(Short, reply));
    }

    method Close()
      modifies this
      ensures !open && input == old(input) && output == old(output)
    {
      open := false;
    }
  }

  /** What reply_throughput sends: the REPLY_STATS_THROUGHPUT header and
      the packed totals. */
  function ThroughputReport(agg: ManagerStats.ThroughputAgg, duration: real): (s: seq<byte>)
    ensures |s| == MSG1_SIZE + THROUGHPUT_REPLY_SIZE
  {
    EncodeMsg1(Msg1(MsgHdr(REPLY, THROUGHPUT_MSG_LEN), REPLY_STATS_THROUGHPUT)) + EncodeThroughput(ThroughputReplyOf(agg, duration))
  }

  /** What reply_latency sends: the REPLY_STATS_LATENCY header and the
      packed summary. */
  function LatencyReport(stats: ManagerStats.LatencyAgg, duration: real): (s: seq<byte>)
    requires |stats.lat| == LatencyFieldCount(Short)
    ensures |s| == MSG1_SIZE + LatencyReplySize(Short)
  {
    EncodeMsg1(Msg1(MsgHdr(REPLY, LATENCY_MSG_LEN), REPLY_STATS_LATENCY)) + EncodeLatency(Short, LatencyReplyOf(stats, duration))
  }

  /** A reply header followed by a body: the header reads back, and the
      body starts right after it. */
  lemma FramedBody(m: Msg1, body: seq<byte>, rest: seq<byte>)
    requires HdrValid(m.hdr) && m.info < TWO_32
    ensures var s := EncodeMsg1(m) + body + rest;
            |s| >= MSG1_SIZE && DecodeMsg1(s) == m && s[MSG1_SIZE..] == body + rest
  {
    var s := EncodeMsg1(m) + body + rest;
    assert s == EncodeMsg1(m) + (body + rest);
    Msg1RoundTrip(m, body + rest);
  }

  /** Each octet sequence reply_latency writes is read back by a latency_reply
      reader as the summary it was given, and its header as a latency reply. */
  lemma LatencyReplyReadBack(stats: ManagerStats.LatencyAgg, duration: real, rest: seq<byte>)
    requires |stats.lat| == LatencyFieldCount(Short)
    ensures var body := EncodeLatency(Short, LatencyReplyOf(stats, duration));
            var s := EncodeMsg1(Msg1(MsgHdr(REPLY, LATENCY_MSG_LEN), REPLY_STATS_LATENCY)) + body + rest;
            |s| >= MSG1_SIZE + LatencyReplySize(Short) &&
            DecodeMsg1(s).info == REPLY_STATS_LATENCY &&
            DecodeLatency(Short, s[MSG1_SIZE..]) == LatencyReplyOf(stats, duration)
  {
    var r := LatencyReplyOf(stats, duration);
    Pow256Values();
    FramedBody(Msg1(MsgHdr(REPLY, LATENCY_MSG_LEN), REPLY_STATS_LATENCY), EncodeLatency(Short, r), rest);
    LatencyRoundTrip(Short, r, rest);
  }

  /** The same for reply_throughput. */
  lemma ThroughputReplyReadBack(agg: ManagerStats.ThroughputAgg, duration: real, rest: seq<byte>)
    ensures var body := EncodeThroughput(ThroughputReplyOf(agg, duration));
            var s := EncodeMsg1(Msg1(MsgHdr(REPLY, THROUGHPUT_MSG_LEN), REPLY_STATS_THROUGHPUT)) + body + rest;
            |s| >= MSG1_SIZE + THROUGHPUT_REPLY_SIZE &&
            DecodeMsg1(s).info == REPLY_STATS_THROUGHPUT &&
            DecodeThroughput(s[MSG1_SIZE..]) == ThroughputReplyOf(agg, duration)
  {
    var t := ThroughputReplyOf(agg, duration);
    Pow256Values();
    FramedBody(Msg1(MsgHdr(REPLY, THROUGHPUT_MSG_LEN), REPLY_STATS_THROUGHPUT), EncodeThroughput(t), rest);
    ThroughputRoundTrip(t, rest);
  }
}
