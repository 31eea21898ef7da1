// The UDP transport's per-socket state (agents/tp_udp.c): a socket carries
// one request at a time, claimed round robin and released when its
// response has been counted, and it holds the transmit and receive
// timestamps the latency is computed from. The clocks, the kernel's
// timestamps and what recv returns are inputs; the application protocol's
// parser result is given with the received length.

module Udp {
  import opened Common
  import opened Bytes
  import opened WorkerStats
  import Tcp

  /** UDP_MAX_PAYLOAD in inc/lancet/tp_proto.h. */
  const UDP_MAX_PAYLOAD: nat := 1500

  /** A response was counted, or one of the loop's asserts fired. */
  datatype Outcome = Counted | Abort

  /** The send-side check of every UDP loop: a request must fit one datagram. */
  predicate Sendable(bytesToSend: nat)
  {
    bytesToSend <= UDP_MAX_PAYLOAD
  }

  /** The length of a request, the sum of its iovec lengths. */
  function RequestLength(iovLens: seq<nat>): nat
  {
    if iovLens == [] then 0 else RequestLength(iovLens[..|iovLens| - 1]) + iovLens[|iovLens| - 1]
  }

  /** A send was counted, the write failed and ended the loop, or one of the
      send's asserts fired. */
  datatype SendOutcome = Sent | WriteFailed | SendAborts

  /** The send step of the UDP loops: the request's length is summed over
      its iovecs and must fit one datagram; written is what the write
      returned, which must be the whole request; the send then counts as
      one request of that length in the transmit counters. */
  method SendRequest(iovLens: seq<nat>, written: int, stats: ThreadStats, measuring: bool) returns (r: SendOutcome)
    requires stats.Valid()
    modifies stats
    ensures stats.Valid()
    ensures var len := RequestLength(iovLens);
            (r == SendAborts <==> !Sendable(len) || (written >= 0 && written != len)) &&
            (r == WriteFailed <==> Sendable(len) && written < 0) &&
            (r == Sent <==> Sendable(len) && written == len) &&
            stats.tx == (if r == Sent && measuring then AddPair(old(stats.tx), ByteReqPair(len, 1)) else old(stats.tx))
    ensures stats.rx == old(stats.rx) && stats.Rings() == old(stats.Rings())
  {
    var bytesToSend := 0;
    for i := 0 to |iovLens|
      invariant bytesToSend == RequestLength(iovLens[..i])
    {
      assert iovLens[..i + 1][..i] == iovLens[..i];
      bytesToSend := bytesToSend + iovLens[i];
    }
    assert iovLens[..|iovLens|] == iovLens;
    if !Sendable(bytesToSend) {
      return SendAborts;
    }
    if written < 0 {
      return WriteFailed;
    }
    if written != bytesToSend {
      return SendAborts;
    }
    stats.AddThroughputTx(measuring, ByteReqPair(written, 1));
    r := Sent;
  }

  /** struct udp_socket, without its descriptor and buffer. */
  class UdpSocket {
    var taken: bool
    var txTimestamp: Timespec
    var rxTimestamp: Timespec

    /** The calloc'ed socket array: free, with zero timestamps. */
    constructor()
      ensures !taken && txTimestamp == ZERO_TIME && rxTimestamp == ZERO_TIME
    {
      taken, txTimestamp, rxTimestamp := false, ZERO_TIME, ZERO_TIME;
    }

    /** A response in latency_udp_main (latency is end_time - start_time)
        or throughput_udp_main (latency None): the parser must account for
        the whole datagram, the response is counted and the socket freed. */
    method ResponseTimed(received: nat, brp: ByteReqPair, latency: Option<int>, stats: ThreadStats,
                         measuring: bool, period: nat) returns (r: Outcome)
      requires stats.Valid() && Fits64(brp) && period > 0
      modifies this, stats, stats.latSamples
      ensures stats.Valid()
      ensures r == Counted <==> brp.bytes == received && (latency.None? || latency.value > 0)
      ensures r == Counted ==> !taken && stats.rx == (if measuring then AddPair(old(stats.rx), brp) else old(stats.rx))
      ensures r == Counted && latency.Some? ==> stats.LatencyAdded(measuring, latency.value, None, period)
      ensures r == Counted && latency.None? ==> stats.LatencyKept()
      ensures r == Abort ==> stats.rx == old(stats.rx) && stats.LatencyKept()
      ensures stats.TxKept()
      ensures txTimestamp == old(txTimestamp) && rxTimestamp == old(rxTimestamp)
    {
      if brp.bytes != received {
        return Abort;
      }
      if latency.Some? {
        if latency.value <= 0 {
          return Abort;
        }
        stats.AddThroughputRx(measuring, brp);
        stats.AddLatencySample(measuring, latency.value, None, period);
      } else {
        stats.AddThroughputRx(measuring, brp);
      }
      taken := false;
      r := Counted;
    }

    /** The send in symmetric_udp_main: the user-space transmit time is kept
        in the socket and handed to the stats. */
    method SentSymmetric(now: Timespec, stats: ThreadStats, sampled: bool)
      requires stats.Valid()
      modifies this, stats, stats.txSamples
      ensures stats.Valid()
      ensures txTimestamp == now && stats.prevTxTimestamp == now
      ensures taken == old(taken) && rxTimestamp == old(rxTimestamp)
      ensures var gap := TimespecDiff(Some(now), Some(old(stats.prevTxTimestamp)));
              stats.txGaps == old(stats.txGaps) + (if sampled && gap.Some? then [gap.value] else [])
      ensures stats.CountersAndLatenciesKept()
    {
      txTimestamp := now;
      stats.AddTxTimestamp(sampled, txTimestamp);
    }

    /** A response in symmetric_udp_main: the latency is the difference of
        the user-space receive and transmit times, recorded only when it can
        be computed. */
    method ResponseSymmetric(now: Timespec, received: nat, brp: ByteReqPair, stats: ThreadStats,
                             measuring: bool, period: nat) returns (r: Outcome)
      requires stats.Valid() && Fits64(brp) && period > 0
      modifies this, stats, stats.latSamples
      ensures stats.Valid()
      ensures rxTimestamp == now
      ensures var lat := TimespecDiff(Some(now), Some(old(txTimestamp)));
              r == Counted <==> brp.bytes == received && (lat.None? || Nanos(lat.value) > 0)
      ensures r == Counted ==> !taken && stats.rx == (if measuring then AddPair(old(stats.rx), brp) else old(stats.rx))
      ensures var lat := TimespecDiff(Some(now), Some(old(txTimestamp)));
              (r == Counted && lat.Some? ==> stats.LatencyAdded(measuring, Nanos(lat.value), Some(old(txTimestamp)), period)) &&
              (lat.None? ==> stats.LatencyKept())
      ensures r == Abort ==> stats.rx == old(stats.rx) && stats.LatencyKept()
      ensures stats.TxKept()
      ensures txTimestamp == old(txTimestamp)
    {
      rxTimestamp := now;
      if brp.bytes != received {
        return Abort;
      }
      r := RecordLatency(stats, measuring, period);
      if r == Abort {
        return;
      }
      stats.AddThroughputRx(measuring, brp);
      taken := false;
    }

    /** A response in symmetric_nic_udp_main: the NIC's receive time must be
        set; a transmit time that has not arrived yet is read from the error
        queue (queuedTx); the latency is recorded when it can be computed;
        the socket is freed and both stored times are cleared (tv_sec only). */
    method ResponseNic(rx: Timespec, received: nat, brp: ByteReqPair, queuedTx: Option<Timespec>,
                       stats: ThreadStats, measuring: bool, period: nat) returns (r: Outcome)
      requires stats.Valid() && Fits64(brp) && period > 0
      modifies this, stats, stats.latSamples
      ensures stats.Valid()
      ensures var tx := if old(txTimestamp).sec == 0 && queuedTx.Some? then queuedTx.value else old(txTimestamp);
              var lat := TimespecDiff(Some(rx), Some(tx));
              r == Counted <==> rx.sec != 0 && brp.bytes == received && (lat.None? || Nanos(lat.value) > 0)
      ensures r == Counted ==>
                !taken && txTimestamp.sec == 0 && rxTimestamp == rx.(sec := 0) &&
                stats.rx == (if measuring then AddPair(old(stats.rx), brp) else old(stats.rx))
      ensures var tx := if old(txTimestamp).sec == 0 && queuedTx.Some? then queuedTx.value else old(txTimestamp);
              var lat := TimespecDiff(Some(rx), Some(tx));
              (r == Counted && lat.Some? ==> stats.LatencyAdded(measuring, Nanos(lat.value), Some(tx), period)) &&
              (r == Counted && lat.None? ==> stats.LatencyKept())
      ensures r == Abort ==> stats.rx == old(stats.rx) && stats.LatencyKept()
      ensures stats.TxKept()
    {
      if rx.sec == 0 {
        return Abort;
      }
      rxTimestamp := rx;
      if brp.bytes != received {
        return Abort;
      }
      if txTimestamp.sec == 0 && queuedTx.Some? {
        txTimestamp := queuedTx.value;
      }
      r := RecordLatency(stats, measuring, period);
      if r == Abort {
        return;
      }
      stats.AddThroughputRx(measuring, brp);
      taken := false;
      txTimestamp := txTimestamp.(sec := 0);
      rxTimestamp := rxTimestamp.(sec := 0);
    }

    /** timespec_diff of the stored times and add_latency_sample, whose
        assert rejects a latency that is not positive. */
    method RecordLatency(stats: ThreadStats, measuring: bool, period: nat) returns (r: Outcome)
      requires stats.Valid() && period > 0
      modifies stats, stats.latSamples
      ensures stats.Valid() && stats.rx == old(stats.rx)
      ensures var lat := TimespecDiff(Some(rxTimestamp), Some(txTimestamp));
              (r == Abort <==> lat.Some? && Nanos(lat.value) <= 0) &&
              (lat.Some? && r == Counted ==> stats.LatencyAdded(measuring, Nanos(lat.value), Some(txTimestamp), period)) &&
              (lat.None? ==> stats.LatencyKept())
      ensures r == Abort ==> stats.LatencyKept()
      ensures stats.TxKept()
    {
      var lat := TimespecDiff(Some(rxTimestamp), Some(txTimestamp));
      if lat.None? {
        return Counted;
      }
      var diff := Nanos(lat.value);
      if diff <= 0 {
        return Abort;
      }
      stats.AddLatencySample(measuring, diff, Some(txTimestamp), period);
      r := Counted;
    }

    /** An EPOLLERR event in symmetric_nic_udp_main: a transmit time read
        from the error queue is kept only while the socket still waits for
        its response. */
    method TxError(found: Option<Timespec>, stats: ThreadStats, sampled: bool)
      requires stats.Valid()
      modifies this, stats, stats.txSamples
      ensures stats.Valid()
      ensures found.Some? && old(taken) ==> txTimestamp == found.value && stats.prevTxTimestamp == found.value
      ensures found.Some? && old(taken) ==>
                var gap := TimespecDiff(found, Some(old(stats.prevTxTimestamp)));
                stats.txGaps == old(stats.txGaps) + (if sampled && gap.Some? then [gap.value] else [])
      ensures stats.CountersAndLatenciesKept()
      ensures !(found.Some? && old(taken)) ==> txTimestamp == old(txTimestamp) && stats.Rings() == old(stats.Rings())
      ensures taken == old(taken) && rxTimestamp == old(rxTimestamp)
    {
      if found.Some? && taken {
        txTimestamp := found.value;
        stats.AddTxTimestamp(sampled, txTimestamp);
      }
    }
  }

  /** The thread's sockets and its round-robin index socket_idx. */
  class UdpThread {
    const sockets: seq<UdpSocket>
    var socketIdx: nat

    ghost predicate Valid()
      reads this
    {
      |sockets| > 0 && socketIdx < TWO_32
    }

    constructor(sockets: seq<UdpSocket>)
      requires |sockets| > 0
      ensures Valid() && this.sockets == sockets && socketIdx == 0
    {
      this.sockets := sockets;
      socketIdx := 0;
    }

    /** get_socket: the next socket in turn is claimed if it is free; the
        turn passes either way and no other socket changes. */
    method GetSocket() returns (s: Option<UdpSocket>)
      requires Valid()
      modifies this, sockets
      ensures Valid() && socketIdx == U32(old(socketIdx) + 1)
      ensures var k := Tcp.Turn(old(socketIdx), 0, |sockets|);
              (s == (if old(sockets[k].taken) then None else Some(sockets[k]))) &&
              sockets[k].taken &&
              forall j :: 0 <= j < |sockets| && sockets[j] != sockets[k] ==> sockets[j].taken == old(sockets[j].taken)
      ensures forall j :: 0 <= j < |sockets| ==>
                sockets[j].txTimestamp == old(sockets[j].txTimestamp) && sockets[j].rxTimestamp == old(sockets[j].rxTimestamp)
    {
      var k := socketIdx % |sockets|;
      socketIdx := U32(socketIdx + 1);
      var c := sockets[k];
      if !c.taken {
        c.taken := true;
        s := Some(c);
      } else {
        s := None;
      }
    }
  }
}
