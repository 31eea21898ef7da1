// The coordinator/agent message vocabulary of inc/lancet/coord_proto.h:
// the message, report and reply codes and the packed little-endian layouts
// of msg_hdr, msg1, msg2, throughput_reply and latency_reply. The Python
// manager (ctypes structures with _pack_ = 1) and the Go coordinator
// (encoding/binary over the cgo structs) both lay out these structures this
// way, so both sides of the wire share these encoders and decoders.
//
// latency_reply exists in two variants: the header itself declares the
// 150-octet Short one (P50/P90/P95/P99 triplets), while the manager sends
// the 246-octet Extended one (also P99.9/P99.99/P99.999/P99.9999
// triplets). The coordinator's reader is modelled with the header's Short
// layout, but coordinator/stats.go sums P99.9 to P99.9999 fields that this
// header does not declare: the coordinator as shipped builds against some
// other latency_reply, which is not part of this model.

module CoordProto {
  import opened Bytes

  // Message types
  const START_LOAD: nat := 0
  const START_MEASURE: nat := 1
  const REPORT_REQ: nat := 2
  const REPLY: nat := 3
  const TERMINATE: nat := 4

  // Kinds of REPORT_REQ
  const REPORT_THROUGHPUT: nat := 0
  const REPORT_LATENCY: nat := 1

  // Kinds of REPLY
  const REPLY_ACK: nat := 0
  const REPLY_STATS_THROUGHPUT: nat := 1
  const REPLY_STATS_LATENCY: nat := 2
  const REPLY_CONVERGENCE: nat := 3
  const REPLY_IA_COMP: nat := 4
  const REPLY_IID: nat := 5

  const MSG_HDR_SIZE: nat := 8
  const MSG1_SIZE: nat := 12
  const MSG2_SIZE: nat := 16
  const THROUGHPUT_REPLY_SIZE: nat := 40

  /** Every value fits in a field of `width` octets. */
  predicate Fits(xs: seq<nat>, width: nat)
  {
    forall i :: 0 <= i < |xs| ==> xs[i] < Pow256(width)
  }

  /** Consecutive packed fields of `width` octets each. */
  function EncodeFields(xs: seq<nat>, width: nat): (r: seq<byte>)
    ensures |r| == |xs| * width
  {
    if xs == [] then [] else EncodeLE(xs[0], width) + EncodeFields(xs[1..], width)
  }

  function DecodeFields(s: seq<byte>, count: nat, width: nat): (r: seq<nat>)
    requires |s| >= count * width
    ensures |r| == count && Fits(r, width)
  {
    if count == 0 then []
    else
      assert count * width == width + (count - 1) * width;
      [DecodeLE(s[..width])] + DecodeFields(s[width..], count - 1, width)
  }

  lemma {:induction false} DecodeEncodeFields(xs: seq<nat>, width: nat, rest: seq<byte>)
    requires Fits(xs, width)
    ensures |EncodeFields(xs, width) + rest| >= |xs| * width
    ensures DecodeFields(EncodeFields(xs, width) + rest, |xs|, width) == xs
  {
    if xs != [] {
      var s := EncodeFields(xs, width) + rest;
      assert s[..width] == EncodeLE(xs[0], width);
      assert s[width..] == EncodeFields(xs[1..], width) + rest;
      DecodeEncodeLE(xs[0], width);
      DecodeEncodeFields(xs[1..], width, rest);
    }
  }

  lemma {:induction false} EncodeFieldsAppend(a: seq<nat>, b: seq<nat>, width: nat)
    ensures EncodeFields(a + b, width) == EncodeFields(a, width) + EncodeFields(b, width)
  {
    if a == [] {
      assert a + b == b;
    } else {
      assert (a + b)[0] == a[0];
      assert (a + b)[1..] == a[1..] + b;
      EncodeFieldsAppend(a[1..], b, width);
    }
  }

  /** The encoding of a field list, split around its field k. */
  lemma EncodeFieldsSplit(xs: seq<nat>, k: nat, width: nat)
    requires k < |xs|
    ensures EncodeFields(xs, width) ==
            EncodeFields(xs[..k], width) + (EncodeLE(xs[k], width) + EncodeFields(xs[k + 1..], width))
  {
    var a, b := xs[..k], xs[k..];
    assert xs == a + b;
    EncodeFieldsAppend(a, b, width);
    assert b[0] == xs[k] && b[1..] == xs[k + 1..];
  }

  datatype MsgHdr = MsgHdr(msgType: nat, msgLen: nat)
  datatype Msg1 = Msg1(hdr: MsgHdr, info: nat)
  datatype Msg2 = Msg2(hdr: MsgHdr, info1: nat, info2: nat)

  predicate HdrValid(h: MsgHdr) { h.msgType < TWO_32 && h.msgLen < TWO_32 }

  function EncodeHdr(h: MsgHdr): (r: seq<byte>)
    ensures |r| == MSG_HDR_SIZE
  {
    Pow256Values();
    EncodeFields([h.msgType, h.msgLen], 4)
  }

  function DecodeHdr(s: seq<byte>): (h: MsgHdr)
    requires |s| >= MSG_HDR_SIZE
    ensures HdrValid(h)
  {
    Pow256Values();
    var f := DecodeFields(s, 2, 4);
    MsgHdr(f[0], f[1])
  }

  function EncodeMsg1(m: Msg1): (r: seq<byte>)
    ensures |r| == MSG1_SIZE
  {
    Pow256Values();
    EncodeFields([m.hdr.msgType, m.hdr.msgLen, m.info], 4)
  }

  function DecodeMsg1(s: seq<byte>): (m: Msg1)
    requires |s| >= MSG1_SIZE
    ensures HdrValid(m.hdr) && m.info < TWO_32
  {
    Pow256Values();
    var f := DecodeFields(s, 3, 4);
    Msg1(MsgHdr(f[0], f[1]), f[2])
  }

  function EncodeMsg2(m: Msg2): (r: seq<byte>)
    ensures |r| == MSG2_SIZE
  {
    Pow256Values();
    EncodeFields([m.hdr.msgType, m.hdr.msgLen, m.info1, m.info2], 4)
  }

  function DecodeMsg2(s: seq<byte>): (m: Msg2)
    requires |s| >= MSG2_SIZE
    ensures HdrValid(m.hdr) && m.info1 < TWO_32 && m.info2 < TWO_32
  {
    Pow256Values();
    var f := DecodeFields(s, 4, 4);
    Msg2(MsgHdr(f[0], f[1]), f[2], f[3])
  }

  /** msg_hdr is the first eight octets of msg1. */
  lemma HdrPrefixOfMsg1(m: Msg1)
    requires HdrValid(m.hdr) && m.info < TWO_32
    ensures EncodeMsg1(m)[..MSG_HDR_SIZE] == EncodeHdr(m.hdr)
    ensures DecodeHdr(EncodeMsg1(m)) == m.hdr
  {
    Pow256Values();
    EncodeFieldsAppend([m.hdr.msgType, m.hdr.msgLen], [m.info], 4);
    assert [m.hdr.msgType, m.hdr.msgLen, m.info] == [m.hdr.msgType, m.hdr.msgLen] + [m.info];
    DecodeEncodeFields([m.hdr.msgType, m.hdr.msgLen], 4, EncodeFields([m.info], 4));
  }

  lemma Msg1RoundTrip(m: Msg1, rest: seq<byte>)
    requires HdrValid(m.hdr) && m.info < TWO_32
    ensures DecodeMsg1(EncodeMsg1(m) + rest) == m
  {
    Pow256Values();
    DecodeEncodeFields([m.hdr.msgType, m.hdr.msgLen, m.info], 4, rest);
  }

  lemma Msg2RoundTrip(m: Msg2, rest: seq<byte>)
    requires HdrValid(m.hdr) && m.info1 < TWO_32 && m.info2 < TWO_32
    ensures DecodeMsg2(EncodeMsg2(m) + rest) == m
  {
    Pow256Values();
    DecodeEncodeFields([m.hdr.msgType, m.hdr.msgLen, m.info1, m.info2], 4, rest);
  }

  datatype ThroughputReply =
    ThroughputReply(rxBytes: nat, txBytes: nat, reqCount: nat, duration: nat, correctIad: nat)

  function ThroughputFields(t: ThroughputReply): seq<nat>
  {
    [t.rxBytes, t.txBytes, t.reqCount, t.duration, t.correctIad]
  }

  predicate ThroughputValid(t: ThroughputReply)
  {
    t.rxBytes < TWO_64 && t.txBytes < TWO_64 && t.reqCount < TWO_64 &&
    t.duration < TWO_64 && t.correctIad < TWO_64
  }

  function EncodeThroughput(t: ThroughputReply): (r: seq<byte>)
    ensures |r| == THROUGHPUT_REPLY_SIZE
  {
    EncodeFields(ThroughputFields(t), 8)
  }

  function DecodeThroughput(s: seq<byte>): (t: ThroughputReply)
    requires |s| >= THROUGHPUT_REPLY_SIZE
    ensures ThroughputValid(t)
  {
    Pow256Values();
    var f := DecodeFields(s, 5, 8);
    ThroughputReply(f[0], f[1], f[2], f[3], f[4])
  }

  lemma ThroughputRoundTrip(t: ThroughputReply, rest: seq<byte>)
    requires ThroughputValid(t)
    ensures DecodeThroughput(EncodeThroughput(t) + rest) == t
  {
    Pow256Values();
    DecodeEncodeFields(ThroughputFields(t), 8, rest);
  }

  datatype LatencyLayout = Short | Extended

  /** Avg_lat plus three fields (lower bound, value, upper bound) per percentile. */
  function LatencyFieldCount(layout: LatencyLayout): nat
  {
    match layout
    case Short => 1 + 3 * 4
    case Extended => 1 + 3 * 8
  }

  function LatencyReplySize(layout: LatencyLayout): (n: nat)
    ensures layout == Short ==> n == 150
    ensures layout == Extended ==> n == 246
  {
    THROUGHPUT_REPLY_SIZE + 8 * LatencyFieldCount(layout) + 4 + 1 + 1
  }

  /** lat holds Avg_lat, P50_i, P50, P50_k, P90_i, ... in declaration order. */
  datatype LatencyReply = LatencyReply(thData: ThroughputReply, lat: seq<nat>,
                                       toReduceSampling: nat, isIid: nat, isStationary: nat)

  predicate LatencyValid(layout: LatencyLayout, r: LatencyReply)
  {
    ThroughputValid(r.thData) && |r.lat| == LatencyFieldCount(layout) && Fits(r.lat, 8) &&
    r.toReduceSampling < TWO_32 && r.isIid < TWO_8 && r.isStationary < TWO_8
  }

  /** The packed body with however many latency fields r carries. */
  function EncodeLatencyFields(r: LatencyReply): (s: seq<byte>)
    ensures |s| == THROUGHPUT_REPLY_SIZE + 8 * |r.lat| + 6
  {
    EncodeThroughput(r.thData) + EncodeFields(r.lat, 8) + EncodeLE(r.toReduceSampling, 4) +
    [r.isIid % 256, r.isStationary % 256]
  }

  /** Reads a packed body that declares n latency fields. */
  function DecodeLatencyFields(s: seq<byte>, n: nat): (r: LatencyReply)
    requires |s| >= THROUGHPUT_REPLY_SIZE + 8 * n + 6
    ensures ThroughputValid(r.thData) && |r.lat| == n && Fits(r.lat, 8)
    ensures r.toReduceSampling < TWO_32 && r.isIid < TWO_8 && r.isStationary < TWO_8
  {
    Pow256Values();
    var off := THROUGHPUT_REPLY_SIZE + 8 * n;
    LatencyReply(DecodeThroughput(s[..THROUGHPUT_REPLY_SIZE]),
                 DecodeFields(s[THROUGHPUT_REPLY_SIZE..], n, 8),
                 DecodeLE(s[off..off + 4]), s[off + 4], s[off + 5])
  }

  function EncodeLatency(layout: LatencyLayout, r: LatencyReply): (s: seq<byte>)
    requires |r.lat| == LatencyFieldCount(layout)
    ensures |s| == LatencyReplySize(layout)
  {
    EncodeLatencyFields(r)
  }

  function DecodeLatency(layout: LatencyLayout, s: seq<byte>): (r: LatencyReply)
    requires |s| >= LatencyReplySize(layout)
    ensures LatencyValid(layout, r)
  {
    DecodeLatencyFields(s, LatencyFieldCount(layout))
  }

  /** Reading a body assembled from a 40-octet throughput block, n packed
      latency fields and a tail, in terms of what each piece decodes to. */
  lemma DecodeLatencyPieces(th: seq<byte>, ea: seq<byte>, rest: seq<byte>, n: nat,
                            t: ThroughputReply, a: seq<nat>)
    requires |th| == THROUGHPUT_REPLY_SIZE && |ea| == 8 * n && |rest| >= 6
    requires DecodeThroughput(th) == t && DecodeFields(ea + rest, n, 8) == a
    ensures |th + ea + rest| >= THROUGHPUT_REPLY_SIZE + 8 * n + 6
    ensures DecodeLatencyFields(th + ea + rest, n) ==
            LatencyReply(t, a, DecodeLE(rest[..4]), rest[4], rest[5])
  {
    var s := th + ea + rest;
    assert s[..THROUGHPUT_REPLY_SIZE] == th;
    assert s[THROUGHPUT_REPLY_SIZE..] == ea + rest;
    var off := THROUGHPUT_REPLY_SIZE + 8 * n;
    assert s[off..off + 4] == rest[..4];
  }

  /** The throughput block and the packed latency fields read back. */
  lemma HeadRoundTrip(t: ThroughputReply, a: seq<nat>, rest: seq<byte>)
    requires ThroughputValid(t) && Fits(a, 8)
    ensures DecodeThroughput(EncodeThroughput(t)) == t
    ensures DecodeFields(EncodeFields(a, 8) + rest, |a|, 8) == a
  {
    ThroughputRoundTrip(t, []);
    assert EncodeThroughput(t) + [] == EncodeThroughput(t);
    Pow256Values();
    DecodeEncodeFields(a, 8, rest);
  }

  /** The tail of a latency body read back. */
  lemma TailRoundTrip(x: nat, y: nat, z: nat, rest: seq<byte>)
    requires x < TWO_32 && y < TWO_8 && z < TWO_8
    ensures var tail := EncodeLE(x, 4) + [y % 256, z % 256] + rest;
            DecodeLE(tail[..4]) == x && tail[4] == y && tail[5] == z
  {
    var tail := EncodeLE(x, 4) + [y % 256, z % 256] + rest;
    assert tail[..4] == EncodeLE(x, 4);
    Pow256Values();
    DecodeEncodeLE(x, 4);
  }

  lemma LatencyFieldsRoundTrip(r: LatencyReply, rest: seq<byte>)
    requires ThroughputValid(r.thData) && Fits(r.lat, 8)
    requires r.toReduceSampling < TWO_32 && r.isIid < TWO_8 && r.isStationary < TWO_8
    ensures DecodeLatencyFields(EncodeLatencyFields(r) + rest, |r.lat|) == r
  {
    var th, ea := EncodeThroughput(r.thData), EncodeFields(r.lat, 8);
    var tail := EncodeLE(r.toReduceSampling, 4) + [r.isIid % 256, r.isStationary % 256] + rest;
    assert EncodeLatencyFields(r) + rest == th + ea + tail;
    TailRoundTrip(r.toReduceSampling, r.isIid, r.isStationary, rest);
    HeadRoundTrip(r.thData, r.lat, tail);
    DecodeLatencyPieces(th, ea, tail, |r.lat|, r.thData, r.lat);
  }

  lemma LatencyRoundTrip(layout: LatencyLayout, r: LatencyReply, rest: seq<byte>)
    requires LatencyValid(layout, r)
    ensures DecodeLatency(layout, EncodeLatency(layout, r) + rest) == r
  {
    LatencyFieldsRoundTrip(r, rest);
  }

  /** The first six octets of x + more, when x has at least six. */
  lemma HeadPieces(x: seq<byte>, more: seq<byte>)
    requires |x| >= 6
    ensures (x + more)[..4] == x[..4] && (x + more)[4] == x[4] && (x + more)[5] == x[5]
  {
  }

  /** A reader that expects |a| latency fields, given a body whose next
      field is x, takes its last three fields from the first six octets of x. */
  lemma FewerFieldsRead(t: ThroughputReply, a: seq<nat>, x: nat, more: seq<byte>)
    requires ThroughputValid(t) && Fits(a, 8)
    ensures var fx := EncodeLE(x, 8);
            DecodeLatencyFields(EncodeThroughput(t) + EncodeFields(a, 8) + (fx + more), |a|) ==
            LatencyReply(t, a, DecodeLE(fx[..4]), fx[4], fx[5])
  {
    var fx := EncodeLE(x, 8);
    HeadPieces(fx, more);
    HeadRoundTrip(t, a, fx + more);
    DecodeLatencyPieces(EncodeThroughput(t), EncodeFields(a, 8), fx + more, |a|, t, a);
  }

  /** Where the two latency_reply variants part: they agree on the first 144
      octets (throughput block, Avg_lat and the P50..P99 triplets); from
      there the Short variant's ToReduceSampling, IsIid and IsStationary
      occupy the first six octets of the Extended variant's P99.9 lower
      bound. */
  lemma ShortReadsExtended(r: LatencyReply)
    requires LatencyValid(Extended, r)
    ensures var p999i := EncodeLE(r.lat[13], 8);
            DecodeLatency(Short, EncodeLatency(Extended, r)) ==
            LatencyReply(r.thData, r.lat[..13], DecodeLE(p999i[..4]), p999i[4], p999i[5])
  {
    var more := EncodeFields(r.lat[14..], 8) + EncodeLE(r.toReduceSampling, 4) +
                [r.isIid % 256, r.isStationary % 256];
    assert EncodeLatency(Extended, r) ==
           EncodeThroughput(r.thData) + EncodeFields(r.lat[..13], 8) + (EncodeLE(r.lat[13], 8) + more) by {
      EncodeFieldsSplit(r.lat, 13, 8);
    }
    FewerFieldsRead(r.thData, r.lat[..13], r.lat[13], more);
  }
}
