// The TCP transport's per-connection state (agents/tp_tcp.c): the receive
// buffer that collects partial responses, the count of requests in flight,
// and the thread's round-robin choice of connection. The sockets are
// inputs: what recv returns is a parameter, and the application protocol's
// response parser is a function parameter.

module Tcp {
  import opened Common
  import opened Bytes
  import opened WorkerStats

  /** MAX_PAYLOAD in inc/lancet/tp_proto.h: the size of a connection's buffer. */
  const MAX_PAYLOAD: nat := 16384

  /** What a readable connection yields: the peer closed it, the parser's
      count was accepted, or one of handle_response's asserts fired; a
      failed recv other than EWOULDBLOCK ends the thread (ThreadEnds), and
      an EWOULDBLOCK on an empty buffer wraps buffer_idx to 65535, past the
      buffer, before handle_response runs (Overrun). */
  datatype Response = Closed | Handled(brp: ByteReqPair) | Abort | ThreadEnds | Overrun

  /** What recv returns: some bytes (none when the peer closed the
      connection), or -1 with errno EWOULDBLOCK or another errno. */
  datatype Read = Got(data: seq<byte>) | Failed(wouldBlock: bool)

  /** Whether handle_response runs after the read on a buffer holding
      unparsed: after bytes arrived, or after an EWOULDBLOCK whose -1 still
      leaves buffer_idx within the buffer. */
  predicate Parses(read: Read, unparsed: seq<byte>)
  {
    (read.Got? && read.data != []) || (read == Failed(true) && unparsed != [])
  }

  /** The bytes handle_response then sees: the data appended, or, since
      buffer_idx += -1 drops one byte, all but the last unparsed one. */
  function Fed(read: Read, unparsed: seq<byte>): seq<byte>
    requires Parses(read, unparsed)
  {
    if read.Got? then unparsed + read.data else unparsed[..|unparsed| - 1]
  }

  /** The parser results handle_response lets through for a buffer holding
      idx bytes: nothing consumed (and no request) while there is still room
      to read, or a positive count of at most idx bytes with at least one
      request. */
  predicate Accepted(p: ByteReqPair, idx: nat)
  {
    if p.bytes == 0 then p.reqs == 0 && idx != MAX_PAYLOAD
    else p.bytes <= idx && p.reqs > 0
  }

  /** struct tcp_connection, without its descriptor. */
  class TcpConnection {
    var closed: bool
    var pendingReqs: nat
    var bufferIdx: nat
    const buffer: array<byte>
    /** Requests sent and responses counted on this connection so far. */
    ghost var sends: nat
    ghost var answered: nat

    ghost predicate Valid()
      reads this
    {
      buffer.Length == MAX_PAYLOAD && bufferIdx <= MAX_PAYLOAD &&
      pendingReqs == U16(sends - answered)
    }

    /** The bytes received and not yet consumed by the parser. */
    function Unparsed(): (s: seq<byte>)
      reads this, buffer
      requires bufferIdx <= buffer.Length
      ensures |s| == bufferIdx
    {
      buffer[..bufferIdx]
    }

    /** The calloc'ed connection array: everything zero. */
    constructor()
      ensures Valid() && fresh(buffer)
      ensures !closed && pendingReqs == 0 && Unparsed() == []
    {
      closed, pendingReqs, bufferIdx := false, 0, 0;
      buffer := new byte[MAX_PAYLOAD](_ => 0);
      sends, answered := 0, 0;
    }

    /** The send path of throughput_tcp_main: one more request in flight,
        in the connection's 16-bit counter. */
    method Sent()
      requires Valid()
      modifies this
      ensures Valid()
      ensures pendingReqs == U16(old(pendingReqs) + 1)
      ensures sends == old(sends) + 1 && answered == old(answered)
      ensures closed == old(closed) && bufferIdx == old(bufferIdx)
    {
      WrapAdd(sends - answered, 1, TWO_16);
      pendingReqs := U16(pendingReqs + 1);
      sends := sends + 1;
    }

    /** recv into the free end of the buffer; an empty read means the peer
        closed the connection. */
    method Receive(data: seq<byte>)
      requires Valid() && |data| <= MAX_PAYLOAD - bufferIdx
      modifies this, buffer
      ensures Valid()
      ensures data == [] ==> closed && Unparsed() == old(Unparsed())
      ensures data != [] ==> !closed == !old(closed) && Unparsed() == old(Unparsed()) + data
      ensures pendingReqs == old(pendingReqs) && sends == old(sends) && answered == old(answered)
    {
      if data == [] {
        closed := true;
        return;
      }
      var i := 0;
      while i < |data|
        invariant 0 <= i <= |data| && unchanged(this)
        invariant buffer[..bufferIdx] == old(buffer[..bufferIdx])
        invariant buffer[bufferIdx..bufferIdx + i] == data[..i]
      {
        buffer[bufferIdx + i] := data[i];
        i := i + 1;
      }
      assert buffer[..bufferIdx + |data|] == buffer[..bufferIdx] + buffer[bufferIdx..bufferIdx + |data|];
      bufferIdx := bufferIdx + |data|;
    }

    /** handle_response: run the parser over the unparsed bytes and keep
        exactly the part it did not consume, at the front of the buffer. */
    method HandleResponse(process: seq<byte> -> ByteReqPair) returns (r: Response)
      requires Valid()
      modifies this, buffer
      ensures Valid()
      ensures var p := process(old(Unparsed()));
              if Accepted(p, old(bufferIdx)) then r == Handled(p) && Unparsed() == old(Unparsed())[p.bytes..]
              else r == Abort
      ensures closed == old(closed) && pendingReqs == old(pendingReqs)
      ensures sends == old(sends) && answered == old(answered)
    {
      var p := process(buffer[..bufferIdx]);
      if p.bytes == 0 {
        if p.reqs != 0 || bufferIdx == MAX_PAYLOAD {
          return Abort;
        }
        return Handled(p);
      } else if p.bytes == bufferIdx {
        bufferIdx := 0;
      } else if p.bytes < bufferIdx {
        Compact(p.bytes);
      } else {
        return Abort;
      }
      if p.reqs == 0 {
        return Abort;
      }
      r := Handled(p);
    }

    /** The memmove of handle_response: the bytes from `from` on move to the
        front, left to right. */
    method Compact(from: nat)
      requires Valid() && 0 < from < bufferIdx
      modifies this, buffer
      ensures Valid()
      ensures Unparsed() == old(Unparsed())[from..]
      ensures closed == old(closed) && pendingReqs == old(pendingReqs)
      ensures sends == old(sends) && answered == old(answered)
    {
      var n := bufferIdx - from;
      var i := 0;
      while i < n
        invariant 0 <= i <= n && unchanged(this)
        invariant forall k :: 0 <= k < i ==> buffer[k] == old(buffer[from + k])
        invariant forall k :: i <= k < buffer.Length ==> buffer[k] == old(buffer[k])
      {
        buffer[i] := buffer[from + i];
        i := i + 1;
      }
      assert buffer[..n] == old(buffer[..bufferIdx])[from..];
      bufferIdx := n;
    }

    /** An EPOLLIN event in throughput_tcp_main: read what arrived, hand the
        buffer to the parser, and count the responses it found against the
        requests in flight and in the thread's receive counters. */
    method OnReadable(read: Read, process: seq<byte> -> ByteReqPair, stats: ThreadStats, measuring: bool)
      returns (r: Response)
      requires Valid() && stats.Valid()
      requires read.Got? ==> |read.data| <= MAX_PAYLOAD - bufferIdx
      requires Parses(read, Unparsed()) ==> Fits64(process(Fed(read, Unparsed())))
      modifies this, buffer, stats
      ensures Valid() && stats.Valid()
      ensures read == Got([]) ==> r == Closed && closed && Unparsed() == old(Unparsed()) && stats.rx == old(stats.rx)
      ensures read == Failed(false) ==>
                r == ThreadEnds && closed == old(closed) && Unparsed() == old(Unparsed()) && stats.rx == old(stats.rx)
      ensures read == Failed(true) && old(bufferIdx) == 0 ==> r == Overrun && stats.rx == old(stats.rx)
      ensures Parses(read, old(Unparsed())) ==>
                var fed := Fed(read, old(Unparsed()));
                var p := process(fed);
                if Accepted(p, |fed|) then
                  r == Handled(p) && Unparsed() == fed[p.bytes..] &&
                  answered == old(answered) + p.reqs &&
                  pendingReqs == U16(old(pendingReqs) - p.reqs) &&
                  stats.rx == (if measuring && p.reqs > 0 then AddPair(old(stats.rx), p) else old(stats.rx))
                else r == Abort
      ensures !Parses(read, old(Unparsed())) ==> pendingReqs == old(pendingReqs) && answered == old(answered)
      ensures sends == old(sends)
    {
      if read.Failed? {
        if !read.wouldBlock {
          return ThreadEnds;
        }
        if bufferIdx == 0 {
          return Overrun;
        }
        bufferIdx := bufferIdx - 1;
      } else {
        Receive(read.data);
        if read.data == [] {
          return Closed;
        }
      }
      assert Unparsed() == Fed(read, old(Unparsed()));
      r := HandleResponse(process);
      if r.Handled? && r.brp.reqs > 0 {
        WrapAdd(sends - answered, -(r.brp.reqs as int), TWO_16);
        pendingReqs := U16(pendingReqs - r.brp.reqs);
        answered := answered + r.brp.reqs;
        stats.AddThroughputRx(measuring, r.brp);
      }
    }
  }

  /** The thread's connections and its round-robin index conn_idx. */
  class TcpThread {
    const conns: seq<TcpConnection>
    const maxPending: nat
    var connIdx: nat

    ghost predicate Valid()
      reads this
    {
      |conns| > 0 && connIdx < TWO_32
    }

    constructor(conns: seq<TcpConnection>, maxPending: nat)
      requires |conns| > 0
      ensures Valid() && this.conns == conns && this.maxPending == maxPending && connIdx == 0
    {
      this.conns := conns;
      this.maxPending := maxPending;
      connIdx := 0;
    }

    /** pick_conn: the next connection in turn, if it is open and has room
        for another request; the turn passes either way. */
    method PickConn() returns (c: Option<TcpConnection>)
      requires Valid()
      modifies this
      ensures Valid() && connIdx == U32(old(connIdx) + 1)
      ensures var k := old(connIdx) % |conns|;
              c == (if conns[k].pendingReqs < maxPending && !conns[k].closed then Some(conns[k]) else None)
    {
      var k := connIdx % |conns|;
      connIdx := U32(connIdx + 1);
      if conns[k].pendingReqs < maxPending && !conns[k].closed {
        c := Some(conns[k]);
      } else {
        c := None;
      }
    }
  }

  /** The connection the k-th pick from conn_idx = start inspects. */
  function Turn(start: nat, k: nat, n: nat): nat
    requires n > 0
  {
    (start + k) % n
  }

  /** Before conn_idx wraps, any run of n consecutive picks inspects each of
      the n connections. */
  lemma RoundRobinCovers(start: nat, n: nat, slot: nat)
    requires n > 0 && slot < n
    ensures exists k :: 0 <= k < n && Turn(start, k, n) == slot
  {
    var d, r := start / n, start % n;
    assert start == d * n + r;
    var k: nat;
    if r <= slot {
      k := slot - r;
      ModUnique(start + k, d, slot, n);
    } else {
      k := slot + n - r;
      assert start + k == (d + 1) * n + slot;
      ModUnique(start + k, d + 1, slot, n);
    }
    assert Turn(start, k, n) == slot;
  }
}
