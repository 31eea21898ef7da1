// The memcached application protocols of the agents (agents/memcache.c):
// counting the replies of the text protocol ("END", "STORED" and a VALUE
// block) and the frames of the binary protocol in a response buffer, and
// building GET and SET requests in both. The key a request names and the
// value size it draws are inputs, and so is the memory that follows a
// response in the connection's buffer, which the text parser can read.

module Memcache {
  import opened Common
  import opened Bytes
  import opened WorkerStats
  import opened AppCommon
  import Tcp

  // ---------------------------------------------------------------------
  // strchnth

  /** Where strchr stops when it scans memory from an offset: at the byte
      it looks for, at a NUL (the end of the C string), or at the end of
      the memory there is to read. */
  datatype Scan = Found(at: nat) | Terminated | Overrun

  function Strchr(mem: seq<byte>, from: nat, c: byte): (r: Scan)
    requires from <= |mem| && c != 0
    ensures r.Found? ==> from <= r.at < |mem| && mem[r.at] == c
    decreases |mem| - from
  {
    if from == |mem| then Overrun
    else if mem[from] == c then Found(from)
    else if mem[from] == 0 then Terminated
    else Strchr(mem, from + 1, c)
  }

  /** k more strchr calls, each after the c the previous one found; last
      is what the previous call returned. */
  function ScanNth(mem: seq<byte>, from: nat, c: byte, k: nat, last: Scan): (r: Scan)
    requires from <= |mem| && c != 0
    ensures r.Found? ==> r == last || from <= r.at < |mem|
    decreases k
  {
    if k == 0 then last
    else
      var p := Strchr(mem, from, c);
      if !p.Found? then p else ScanNth(mem, p.at + 1, c, k - 1, p)
  }

  /** strchnth as written: occ successive strchr calls from offset s,
      bounded by neither the response nor the buffer. */
  method StrchnthAsWritten(mem: seq<byte>, s: nat, c: byte, occ: nat) returns (r: Scan)
    requires s <= |mem| && c != 0 && occ > 0
    ensures r == ScanNth(mem, s, c, occ, Terminated)
    ensures r.Found? ==> s <= r.at < |mem| && mem[r.at] == c
  {
    var from: nat, i: nat := s, 0;
    r := Terminated;
    while i < occ
      invariant s <= from <= |mem| && i <= occ
      invariant ScanNth(mem, s, c, occ, Terminated) == ScanNth(mem, from, c, occ - i, r)
      invariant i == 0 ==> r == Terminated && from == s
      invariant i > 0 ==> r.Found? && s <= r.at < |mem| && mem[r.at] == c
    {
      var p := Strchr(mem, from, c);
      if !p.Found? {
        return p;
      }
      r, from, i := p, p.at + 1, i + 1;
    }
  }

  /** The number of c in s. */
  function CountOf(s: seq<byte>, c: byte): (n: nat)
    ensures n <= |s|
  {
    multiset(s)[c]
  }

  lemma CountOfAppend(a: seq<byte>, b: seq<byte>, c: byte)
    ensures CountOf(a + b, c) == CountOf(a, c) + CountOf(b, c)
  {
    assert multiset(a + b) == multiset(a) + multiset(b);
  }

  lemma CountOfFree(s: seq<byte>, c: byte)
    requires forall i :: 0 <= i < |s| ==> s[i] != c
    ensures CountOf(s, c) == 0
  {
    assert c !in s;
  }

  /** The strchnth the text parser needs: the k-th c from offset from,
      searched for with memchr inside buf only. */
  function Strchnth(buf: seq<byte>, from: nat, c: byte, k: nat): (r: Option<nat>)
    requires from <= |buf| && k > 0
    ensures r.Some? ==> from <= r.value < |buf|
    decreases k
  {
    match MemchrFrom(buf, c, from)
    case None => None
    case Some(p) => if k == 1 then Some(p) else Strchnth(buf, p + 1, c, k - 1)
  }

  /** Strchnth finds a c exactly when there are k of them. */
  lemma {:induction false} StrchnthSpec(buf: seq<byte>, from: nat, c: byte, k: nat)
    requires from <= |buf| && k > 0
    ensures Strchnth(buf, from, c, k).Some? <==> k <= CountOf(buf[from..], c)
    decreases k
  {
    MemchrFromSpec(buf, c, from);
    var m := MemchrFrom(buf, c, from);
    if m.None? {
      CountOfFree(buf[from..], c);
    } else {
      var p := m.value;
      FirstCounted(buf, from, p, c);
      assert buf[from..] == buf[from..p + 1] + buf[p + 1..];
      CountOfAppend(buf[from..p + 1], buf[p + 1..], c);
      if k > 1 {
        StrchnthSpec(buf, p + 1, c, k - 1);
      }
    }
  }

  /** The first c after from is the only one up to itself. */
  lemma FirstCounted(buf: seq<byte>, from: nat, p: nat, c: byte)
    requires from <= p < |buf| && buf[p] == c
    requires forall i :: from <= i < p ==> buf[i] != c
    ensures CountOf(buf[from..p + 1], c) == 1
  {
    var pre := buf[from..p];
    CountOfFree(pre, c);
    assert buf[from..p + 1] == pre + [c];
    CountOfAppend(pre, [c], c);
    assert multiset([c])[c] == 1;
  }

  /** What Strchnth finds is a c that closes a stretch holding k of them. */
  lemma {:induction false} StrchnthFound(buf: seq<byte>, from: nat, c: byte, k: nat, q: nat)
    requires from <= |buf| && k > 0 && Strchnth(buf, from, c, k) == Some(q)
    ensures buf[q] == c && CountOf(buf[from..q + 1], c) == k
    decreases k
  {
    MemchrFromSpec(buf, c, from);
    var p := MemchrFrom(buf, c, from).value;
    FirstCounted(buf, from, p, c);
    if k > 1 {
      StrchnthFound(buf, p + 1, c, k - 1, q);
      assert buf[from..q + 1] == buf[from..p + 1] + buf[p + 1..q + 1];
      CountOfAppend(buf[from..p + 1], buf[p + 1..q + 1], c);
    }
  }

  /** A c with k of them up to and including it is the one Strchnth finds. */
  lemma StrchnthAt(buf: seq<byte>, q: nat, c: byte, k: nat)
    requires q < |buf| && buf[q] == c && k > 0 && CountOf(buf[..q + 1], c) == k
    ensures Strchnth(buf, 0, c, k) == Some(q)
  {
    StrchnthSpec(buf, 0, c, k);
    assert buf[0..] == buf[..q + 1] + buf[q + 1..];
    CountOfAppend(buf[..q + 1], buf[q + 1..], c);
    var p := Strchnth(buf, 0, c, k).value;
    StrchnthFound(buf, 0, c, k, p);
    assert buf[0..p + 1] == buf[..p + 1];
    if p < q {
      CountGrows(buf, p, q, c);
    } else if q < p {
      CountGrows(buf, q, p, c);
    }
  }

  /** A later c adds to the count. */
  lemma CountGrows(buf: seq<byte>, p: nat, q: nat, c: byte)
    requires p < q < |buf| && buf[q] == c
    ensures CountOf(buf[..p + 1], c) < CountOf(buf[..q + 1], c)
  {
    var mid := buf[p + 1..q + 1];
    assert buf[..q + 1] == buf[..p + 1] + mid;
    CountOfAppend(buf[..p + 1], mid, c);
    assert mid[|mid| - 1] == c;
  }

  lemma {:induction false} StrchrAgrees(mem: seq<byte>, len: nat, from: nat, c: byte)
    requires from <= len <= |mem| && c != 0
    requires forall i :: from <= i < len ==> mem[i] != 0
    requires MemchrFrom(mem[..len], c, from).Some?
    ensures Strchr(mem, from, c) == Found(MemchrFrom(mem[..len], c, from).value)
    decreases len - from
  {
    if mem[from] != c {
      StrchrAgrees(mem, len, from + 1, c);
    }
  }

  /** Where the first len bytes hold no NUL and k of c, strchnth as written
      finds the same c as the bounded search. */
  lemma {:induction false} ScanNthAgrees(mem: seq<byte>, len: nat, from: nat, c: byte, k: nat, last: Scan)
    requires from <= len <= |mem| && c != 0 && k > 0
    requires forall i :: from <= i < len ==> mem[i] != 0
    requires Strchnth(mem[..len], from, c, k).Some?
    ensures ScanNth(mem, from, c, k, last) == Found(Strchnth(mem[..len], from, c, k).value)
    decreases k
  {
    var p := MemchrFrom(mem[..len], c, from).value;
    StrchrAgrees(mem, len, from, c);
    if k > 1 {
      ScanNthAgrees(mem, len, p + 1, c, k - 1, Found(p));
    }
  }

  // ---------------------------------------------------------------------
  // Text protocol replies

  /** "END\r\n": a GET of a key the server does not hold. */
  const END_REPLY: seq<byte> := [69, 78, 68, CR, LF]
  /** "STORED\r\n": a successful SET. */
  const STORED_REPLY: seq<byte> := [83, 84, 79, 82, 69, 68, CR, LF]
  /** "VALUE ": the head of a GET hit. */
  const VALUE_WORD: seq<byte> := [86, 65, 76, 85, 69, SPACE]

  /** The bytes of one reply at the head of buf, 0 when there is no whole
      reply: END and STORED by their text, any other reply up to and
      including its third line feed. */
  function AsciiStep(buf: seq<byte>): (n: nat)
    ensures n <= |buf|
  {
    if |buf| < 5 then 0
    else if buf[..5] == END_REPLY then 5
    else if |buf| < 8 then 0
    else if buf[..8] == STORED_REPLY then 8
    else
      match Strchnth(buf, 0, LF, 3)
      case None => 0
      case Some(p) => p + 1
  }

  /** The count of memcache_ascii_consume_response, bytes and reqs being
      what the replies before buf added up to. */
  function AsciiCount(buf: seq<byte>, bytes: nat, reqs: nat): ByteReqPair
    decreases |buf|
  {
    var n := AsciiStep(buf);
    if n == 0 then ByteReqPair(bytes, reqs) else AsciiCount(buf[n..], bytes + n, reqs + 1)
  }

  /** memcache_ascii_consume_response with its third line feed searched for
      within the response. */
  method AsciiConsume(resp: seq<byte>) returns (r: ByteReqPair)
    ensures r == AsciiCount(resp, 0, 0)
  {
    var rest: seq<byte>, bytes: nat, reqs: nat := resp, 0, 0;
    while |rest| != 0
      invariant AsciiCount(resp, 0, 0) == AsciiCount(rest, bytes, reqs)
      decreases |rest|
    {
      if |rest| < 5 {
        assert AsciiStep(rest) == 0;
        break;
      }
      if rest[..5] == END_REPLY {
        assert AsciiStep(rest) == 5;
        bytes, reqs, rest := bytes + 5, reqs + 1, rest[5..];
        continue;
      }
      if |rest| < 8 {
        assert AsciiStep(rest) == 0;
        break;
      }
      if rest[..8] == STORED_REPLY {
        assert AsciiStep(rest) == 8;
        bytes, reqs, rest := bytes + 8, reqs + 1, rest[8..];
        continue;
      }
      var third := Strchnth(rest, 0, LF, 3);
      if third.None? {
        assert AsciiStep(rest) == 0;
        break;
      }
      var size := third.value + 1;
      assert AsciiStep(rest) == size;
      bytes, reqs, rest := bytes + size, reqs + 1, rest[size..];
    }
    r := ByteReqPair(bytes, reqs);
  }

  /** The count never claims more bytes than the response holds, nor more
      replies than bytes. */
  lemma {:induction false} AsciiCountBounds(buf: seq<byte>, bytes: nat, reqs: nat)
    requires reqs <= bytes
    ensures var r := AsciiCount(buf, bytes, reqs);
            bytes <= r.bytes <= bytes + |buf| && r.reqs <= r.bytes
    decreases |buf|
  {
    var n := AsciiStep(buf);
    if n != 0 {
      AsciiCountBounds(buf[n..], bytes + n, reqs + 1);
    }
  }

  /** The replies a memcached server sends to the text GET and SET. */
  datatype AsciiReply = End | Stored | Value(key: seq<byte>, flags: nat, data: seq<byte>)

  /** A hit is "VALUE <key> <flags> <bytes>\r\n<data>\r\nEND\r\n". */
  function AsciiEncode(r: AsciiReply): (s: seq<byte>)
    ensures 5 <= |s|
  {
    match r
    case End => END_REPLY
    case Stored => STORED_REPLY
    case Value(key, flags, data) =>
      VALUE_WORD + key + [SPACE] + Decimal(flags) + [SPACE] + Decimal(|data|) + CRLF
      + data + CRLF + END_REPLY
  }

  /** The parser tells a hit's end by its line feeds, so neither the key
      nor the data may hold one. */
  predicate AsciiWellFormed(r: AsciiReply)
  {
    r.Value? ==>
      (forall i :: 0 <= i < |r.key| ==> r.key[i] != LF) &&
      (forall i :: 0 <= i < |r.data| ==> r.data[i] != LF)
  }

  /** The replies to a run of requests, one buffer each. */
  function AsciiFrames(rs: seq<AsciiReply>): (fs: seq<seq<byte>>)
    ensures |fs| == |rs|
  {
    seq(|rs|, i requires 0 <= i < |rs| => AsciiEncode(rs[i]))
  }

  /** The lines of a hit: its header line, its data and "END", each ended
      by a line feed and holding no other. */
  lemma ValueShape(r: AsciiReply) returns (a: seq<byte>, b: seq<byte>, d: seq<byte>)
    requires r.Value? && AsciiWellFormed(r)
    ensures AsciiEncode(r) == a + [LF] + b + [LF] + d + [LF]
    ensures LF !in a && LF !in b && LF !in d && 6 <= |a| && a[0] == 86
  {
    a := VALUE_WORD + r.key + [SPACE] + Decimal(r.flags) + [SPACE] + Decimal(|r.data|) + [CR];
    b := r.data + [CR];
    d := [69, 78, 68, CR];
    NoLineFeed(r.key);
    NoLineFeed(r.data);
    DigitsNoLineFeed(Decimal(r.flags));
    DigitsNoLineFeed(Decimal(|r.data|));
  }

  /** Three lines, each ended by a line feed and holding no other. */
  lemma ThreeLines(a: seq<byte>, b: seq<byte>, d: seq<byte>)
    requires LF !in a && LF !in b && LF !in d
    ensures var f := a + [LF] + b + [LF] + d + [LF];
            f[|f| - 1] == LF && CountOf(f, LF) == 3 && CountOf(f[..|f| - 1], LF) == 2
  {
    var f := a + [LF] + b + [LF] + d + [LF];
    var ab := a + [LF] + b + [LF] + d;
    assert f[..|f| - 1] == ab;
    assert multiset(ab) == multiset(a) + multiset([LF]) + multiset(b) + multiset([LF]) + multiset(d);
    assert multiset(f) == multiset(ab) + multiset([LF]);
  }

  lemma NoLineFeed(s: seq<byte>)
    requires forall i :: 0 <= i < |s| ==> s[i] != LF
    ensures LF !in s
  {
  }

  lemma DigitsNoLineFeed(s: seq<byte>)
    requires forall i :: 0 <= i < |s| ==> IsDigit(s[i])
    ensures LF !in s
  {
  }

  /** A buffer that starts with neither END nor STORED is read up to its
      third line feed. */
  lemma StepOfOther(buf: seq<byte>)
    requires |buf| >= 8 && buf[0] != END_REPLY[0] && buf[0] != STORED_REPLY[0]
    ensures AsciiStep(buf) == match Strchnth(buf, 0, LF, 3) case None => 0 case Some(p) => p + 1
  {
    assert buf[..5][0] == buf[0];
    assert buf[..8][0] == buf[0];
  }

  /** The third line feed of three lines is the last of them, whatever
      follows. */
  lemma ThirdLineFeed(a: seq<byte>, b: seq<byte>, d: seq<byte>, rest: seq<byte>)
    requires LF !in a && LF !in b && LF !in d
    ensures var f := a + [LF] + b + [LF] + d + [LF];
            Strchnth(f + rest, 0, LF, 3) == Some(|f| - 1)
  {
    var f := a + [LF] + b + [LF] + d + [LF];
    ThreeLines(a, b, d);
    var buf := f + rest;
    assert buf[..|f| - 1 + 1] == f;
    StrchnthAt(buf, |f| - 1, LF, 3);
  }

  /** Three lines whose first starts like a hit are read as one reply
      whatever follows. */
  lemma HitReadWhole(a: seq<byte>, b: seq<byte>, d: seq<byte>, rest: seq<byte>)
    requires LF !in a && LF !in b && LF !in d && 6 <= |a| && a[0] == 86
    ensures var f := a + [LF] + b + [LF] + d + [LF];
            AsciiStep(f + rest) == |f|
  {
    ThirdLineFeed(a, b, d, rest);
    StepOfOther(a + [LF] + b + [LF] + d + [LF] + rest);
  }

  /** A strict prefix of such lines is not read. */
  lemma HitPrefixStops(a: seq<byte>, b: seq<byte>, d: seq<byte>, n: nat)
    requires LF !in a && LF !in b && LF !in d && 6 <= |a| && a[0] == 86
    requires n < |a| + |b| + |d| + 3
    ensures AsciiStep((a + [LF] + b + [LF] + d + [LF])[..n]) == 0
  {
    var f := a + [LF] + b + [LF] + d + [LF];
    ThreeLines(a, b, d);
    var t := f[..n];
    if n >= 8 {
      assert f[..|f| - 1] == t + f[n..|f| - 1];
      CountOfAppend(t, f[n..|f| - 1], LF);
      assert t[0..] == t;
      StrchnthSpec(t, 0, LF, 3);
      StepOfOther(t);
    } else if n >= 5 {
      assert t[..5][0] == f[0];
    }
  }

  /** Whatever follows it, a whole reply is read as one reply of its own
      length. */
  lemma AsciiReadWhole(r: AsciiReply, rest: seq<byte>)
    requires AsciiWellFormed(r)
    ensures AsciiStep(AsciiEncode(r) + rest) == |AsciiEncode(r)|
  {
    var f := AsciiEncode(r);
    var buf := f + rest;
    match r
    case End =>
      assert buf[..5] == f;
    case Stored =>
      assert buf[..8] == f;
      assert buf[..5][0] == 83;
    case Value(_, _, _) =>
      var a, b, d := ValueShape(r);
      HitReadWhole(a, b, d, rest);
  }

  /** A reply cut short is not counted yet. */
  lemma AsciiTailStops(r: AsciiReply, n: nat)
    requires AsciiWellFormed(r) && n < |AsciiEncode(r)|
    ensures AsciiStep(AsciiEncode(r)[..n]) == 0
  {
    if r.Value? {
      var a, b, d := ValueShape(r);
      HitPrefixStops(a, b, d, n);
    } else if r.Stored? {
      StoredPrefixStops(n);
    }
  }

  lemma StoredPrefixStops(n: nat)
    requires n < |STORED_REPLY|
    ensures AsciiStep(STORED_REPLY[..n]) == 0
  {
    if n >= 5 {
      assert STORED_REPLY[..n][..5][0] == 83;
    }
  }

  lemma AsciiCountStop(tail: seq<byte>, bytes: nat, reqs: nat)
    requires AsciiStep(tail) == 0
    ensures AsciiCount(tail, bytes, reqs) == ByteReqPair(bytes, reqs)
  {
  }

  /** Bytes the parser reads whole in front add one reply of their length
      to what follows. */
  lemma AsciiCountFront(f: seq<byte>, more: seq<byte>, bytes: nat, reqs: nat, counted: ByteReqPair)
    requires 0 < |f| && AsciiStep(f + more) == |f|
    requires AsciiCount(more, bytes + |f|, reqs + 1) == counted
    ensures AsciiCount(f + more, bytes, reqs) == counted
  {
    assert (f + more)[|f|..] == more;
  }

  /** Frames read whole, each in front of the frames after it and the
      tail. */
  predicate AsciiReadInOrder(fs: seq<seq<byte>>, tail: seq<byte>)
    decreases |fs|
  {
    fs == [] ||
    (0 < |fs[0]| && AsciiStep(fs[0] + (Flatten(fs[1..]) + tail)) == |fs[0]|
     && AsciiReadInOrder(fs[1..], tail))
  }

  /** Well-formed replies are read whole whatever follows them. */
  lemma {:induction false} AsciiRepliesInOrder(rs: seq<AsciiReply>, tail: seq<byte>)
    requires forall i :: 0 <= i < |rs| ==> AsciiWellFormed(rs[i])
    ensures AsciiReadInOrder(AsciiFrames(rs), tail)
    decreases |rs|
  {
    if rs != [] {
      var fs := AsciiFrames(rs);
      assert fs[0] == AsciiEncode(rs[0]);
      assert fs[1..] == AsciiFrames(rs[1..]);
      AsciiReadWhole(rs[0], Flatten(fs[1..]) + tail);
      AsciiRepliesInOrder(rs[1..], tail);
    }
  }

  lemma FlattenFront(fs: seq<seq<byte>>, tail: seq<byte>)
    requires fs != []
    ensures Flatten(fs) + tail == fs[0] + (Flatten(fs[1..]) + tail)
  {
  }

  /** Frames read whole followed by a tail the parser stops at count
      exactly those frames and their bytes. */
  lemma {:induction false} AsciiFramesCounted(fs: seq<seq<byte>>, tail: seq<byte>, bytes: nat, reqs: nat)
    requires AsciiReadInOrder(fs, tail) && AsciiStep(tail) == 0
    ensures AsciiCount(Flatten(fs) + tail, bytes, reqs) == ByteReqPair(bytes + |Flatten(fs)|, reqs + |fs|)
    decreases |fs|
  {
    if fs == [] {
      assert Flatten(fs) + tail == tail;
      AsciiCountStop(tail, bytes, reqs);
    } else {
      AsciiFramesCounted(fs[1..], tail, bytes + |fs[0]|, reqs + 1);
      FlattenFront(fs, tail);
      AsciiCountFront(fs[0], Flatten(fs[1..]) + tail, bytes, reqs, ByteReqPair(bytes + |Flatten(fs)|, reqs + |fs|));
    }
  }

  /** A response of whole replies followed by the start of another counts
      exactly the whole replies. */
  lemma AsciiConsumeCounts(rs: seq<AsciiReply>, partial: AsciiReply, n: nat)
    requires forall i :: 0 <= i < |rs| ==> AsciiWellFormed(rs[i])
    requires AsciiWellFormed(partial) && n < |AsciiEncode(partial)|
    ensures AsciiCount(Flatten(AsciiFrames(rs)) + AsciiEncode(partial)[..n], 0, 0)
            == ByteReqPair(|Flatten(AsciiFrames(rs))|, |rs|)
  {
    var fs, tail := AsciiFrames(rs), AsciiEncode(partial)[..n];
    AsciiTailStops(partial, n);
    AsciiRepliesInOrder(rs, tail);
    AsciiFramesCounted(fs, tail, 0, 0);
  }

  /** memcache_ascii_consume_response as written: the response is the first
      len bytes of the buffer's memory mem, left is bytes_to_process, which
      goes below zero when a reply reaches past the response, and the third
      line feed is searched for by strchnth in all of mem. A search that
      runs off the memory is OutOfBounds. */
  function AsciiFromAsWritten(mem: seq<byte>, len: nat, left: int, res: ByteReqPair): (r: Consumed)
    requires len <= |mem| && left <= len
    decreases if left > 0 then left else 0
  {
    if left < 5 then Done(res)
    else
      var at := len - left;
      if mem[at..at + 5] == END_REPLY then
        AsciiFromAsWritten(mem, len, left - 5, ByteReqPair(res.bytes + 5, res.reqs + 1))
      else if left < 8 then Done(res)
      else if mem[at..at + 8] == STORED_REPLY then
        AsciiFromAsWritten(mem, len, left - 8, ByteReqPair(res.bytes + 8, res.reqs + 1))
      else
        match ScanNth(mem, at, LF, 3, Terminated)
        case Found(p) =>
          var size := p - at + 1;
          AsciiFromAsWritten(mem, len, left - size, ByteReqPair(res.bytes + size, res.reqs + 1))
        case Terminated => Done(res)
        case Overrun => OutOfBounds
  }

  function AsciiConsumeAsWritten(mem: seq<byte>, len: nat): Consumed
    requires len <= |mem|
  {
    AsciiFromAsWritten(mem, len, len, ByteReqPair(0, 0))
  }

  /** The header line of a hit of key "k", flags 0 and one data byte, up to
      its line feed: "VALUE k 0 1\r". */
  const SAMPLE_HEADER: seq<byte> := [86, 65, 76, 85, 69, 32, 107, 32, 48, 32, 49, 13]
  /** That hit, "VALUE k 0 1\r\nx\r\nEND\r\n". */
  const SAMPLE_HIT: seq<byte> :=
    [86, 65, 76, 85, 69, 32, 107, 32, 48, 32, 49, 13, 10, 120, 13, 10, 69, 78, 68, 13, 10]

  lemma SampleLines()
    ensures SAMPLE_HIT == SAMPLE_HEADER + [LF] + [FILLER, CR] + [LF] + [69, 78, 68, CR] + [LF]
  {
  }

  lemma SampleHit()
    ensures AsciiEncode(Value([107], 0, [FILLER])) == SAMPLE_HIT
  {
    assert Decimal(0) == [ZERO] && Decimal(1) == [ZERO + 1];
    SampleLines();
  }

  /** The as-written parse of the sample hit's first 14 bytes followed by
      the rest of it and a NUL. */
  lemma StaleHitAsWritten()
    ensures AsciiConsumeAsWritten(SAMPLE_HIT + [0], 14) == Done(ByteReqPair(21, 1))
  {
    SampleLines();
    ThirdLineFeed(SAMPLE_HEADER, [FILLER, CR], [69, 78, 68, CR], []);
    var mem := SAMPLE_HIT + [0];
    assert mem[..21] == SAMPLE_HIT + [];
    SampleHasNoNul();
    ScanNthAgrees(mem, 21, 0, LF, 3, Terminated);
    assert mem[0..5] != END_REPLY by { assert mem[0..5][0] == 86; }
    assert mem[0..8] != STORED_REPLY by { assert mem[0..8][0] == 86; }
  }

  lemma SampleHasNoNul()
    ensures forall i :: 0 <= i < 21 ==> (SAMPLE_HIT + [0])[i] != 0
  {
  }

  /** A response holding the first 14 bytes of that hit, "VALUE k 0 1\r\nx",
      in a buffer that still holds the rest of it from an earlier response:
      as written the parser counts the whole 21-byte hit, which
      handle_response refuses, where the bounded search counts nothing. */
  lemma StaleReplyOvercounts()
    ensures AsciiConsumeAsWritten(SAMPLE_HIT + [0], 14) == Done(ByteReqPair(21, 1))
    ensures !Tcp.Accepted(ByteReqPair(21, 1), 14)
    ensures AsciiCount(SAMPLE_HIT[..14], 0, 0) == ByteReqPair(0, 0)
    ensures Tcp.Accepted(ByteReqPair(0, 0), 14)
  {
    SampleLines();
    HitPrefixStops(SAMPLE_HEADER, [FILLER, CR], [69, 78, 68, CR], 14);
    StaleHitAsWritten();
  }

  // ---------------------------------------------------------------------
  // Binary protocol replies

  /** sizeof(struct bmc_header): the packed 24-byte header of every frame. */
  const HEADER_SIZE: nat := 24

  /** The header's body_len, a big-endian 32-bit field at offset 8. */
  function BodyLen(buf: seq<byte>): (n: nat)
    requires |buf| >= HEADER_SIZE
    ensures n < TWO_32
  {
    Pow256Values();
    DecodeBE(buf[8..12])
  }

  /** The bytes of the frame at the head of buf, 0 while it is incomplete. */
  function BinStep(buf: seq<byte>): (n: nat)
    ensures n <= |buf|
  {
    if |buf| < HEADER_SIZE || |buf| < HEADER_SIZE + BodyLen(buf) then 0
    else HEADER_SIZE + BodyLen(buf)
  }

  /** The count of memcache_bin_consume_response. */
  function BinCount(buf: seq<byte>, bytes: nat, reqs: nat): ByteReqPair
    decreases |buf|
  {
    var n := BinStep(buf);
    if n == 0 then ByteReqPair(bytes, reqs) else BinCount(buf[n..], bytes + n, reqs + 1)
  }

  /** memcache_bin_consume_response's three states (header, body, finished)
      taken one frame at a time, reading the header without writing it. */
  method BinConsume(resp: seq<byte>) returns (r: ByteReqPair)
    ensures r == BinCount(resp, 0, 0)
  {
    var rest: seq<byte>, bytes: nat, reqs: nat := resp, 0, 0;
    while |rest| != 0
      invariant BinCount(resp, 0, 0) == BinCount(rest, bytes, reqs)
      decreases |rest|
    {
      if |rest| < HEADER_SIZE {
        break;
      }
      var bodyLen := DecodeBE(rest[8..12]);
      if |rest| < bodyLen + HEADER_SIZE {
        break;
      }
      var size := bodyLen + HEADER_SIZE;
      bytes, reqs, rest := bytes + size, reqs + 1, rest[size..];
    }
    r := ByteReqPair(bytes, reqs);
  }

  /** A frame read whole adds its length and one reply to the count. */
  lemma BinCountFront(buf: seq<byte>, bytes: nat, reqs: nat)
    requires BinStep(buf) > 0
    ensures BinCount(buf, bytes, reqs) == BinCount(buf[BinStep(buf)..], bytes + BinStep(buf), reqs + 1)
  {
  }

  /** One whole frame: its body_len says how long it is. */
  predicate BinWhole(f: seq<byte>)
  {
    |f| >= HEADER_SIZE && |f| == HEADER_SIZE + BodyLen(f)
  }

  lemma {:induction false} BinFramesCounted(fs: seq<seq<byte>>, tail: seq<byte>, bytes: nat, reqs: nat)
    requires forall i :: 0 <= i < |fs| ==> BinWhole(fs[i])
    requires BinStep(tail) == 0
    ensures BinCount(Flatten(fs) + tail, bytes, reqs) == ByteReqPair(bytes + |Flatten(fs)|, reqs + |fs|)
    decreases |fs|
  {
    if fs == [] {
      assert Flatten(fs) + tail == tail;
    } else {
      var f := fs[0];
      var more := Flatten(fs[1..]) + tail;
      var buf := f + more;
      assert Flatten(fs) + tail == buf;
      assert buf[..HEADER_SIZE] == f[..HEADER_SIZE];
      assert buf[8..12] == f[8..12];
      assert buf[|f|..] == more;
      BinFramesCounted(fs[1..], tail, bytes + |f|, reqs + 1);
    }
  }

  /** Whole frames followed by a short tail (a header cut short, or a body
      shorter than its header says) count exactly the whole frames. */
  lemma BinConsumeCounts(fs: seq<seq<byte>>, tail: seq<byte>)
    requires forall i :: 0 <= i < |fs| ==> BinWhole(fs[i])
    requires |tail| < HEADER_SIZE || |tail| < HEADER_SIZE + BodyLen(tail)
    ensures BinCount(Flatten(fs) + tail, 0, 0) == ByteReqPair(|Flatten(fs)|, |fs|)
  {
    assert BinStep(tail) == 0;
    BinFramesCounted(fs, tail, 0, 0);
  }

  /** The buffer after the parse as written: each header it reached holds
      its body_len in host (little-endian) order. */
  function BinRewrite(buf: seq<byte>): (r: seq<byte>)
    ensures |r| == |buf|
    decreases |buf|
  {
    if |buf| < HEADER_SIZE then buf
    else
      var n := HEADER_SIZE + BodyLen(buf);
      if |buf| < n then Swapped(buf) else Swapped(buf)[..n] + BinRewrite(buf[n..])
  }

  /** The header at the head of buf with its body_len in host order. */
  function Swapped(buf: seq<byte>): (r: seq<byte>)
    requires |buf| >= HEADER_SIZE
    ensures |r| == |buf|
  {
    buf[..8] + EncodeLE(BodyLen(buf), 4) + buf[12..]
  }

  /** ntohl of the header's body_len, stored back in place; written is
      what the parse has passed and rest what it has still to read. */
  method SwapBodyLen(resp: array<byte>, at: nat, ghost written: seq<byte>, ghost rest: seq<byte>)
    returns (bodyLen: nat)
    requires resp[..] == written + rest && |written| == at && |rest| >= HEADER_SIZE
    modifies resp
    ensures bodyLen == BodyLen(rest)
    ensures resp[..] == written + Swapped(rest)
  {
    assert resp[at + 8..at + 12] == rest[8..12];
    bodyLen := DecodeBE(resp[at + 8..at + 12]);
    var le := EncodeLE(bodyLen, 4);
    resp[at + 8], resp[at + 9], resp[at + 10], resp[at + 11] := le[0], le[1], le[2], le[3];
    assert resp[..] == written + Swapped(rest);
  }

  /** The rewrite of a buffer whose head is a whole frame goes on after it. */
  lemma RewriteStep(rest: seq<byte>)
    requires |rest| >= HEADER_SIZE
    ensures var n := HEADER_SIZE + BodyLen(rest);
            if |rest| < n then BinRewrite(rest) == Swapped(rest)
            else BinRewrite(rest) == Swapped(rest)[..n] + BinRewrite(rest[n..]) &&
                 Swapped(rest)[n..] == rest[n..]
  {
    var n := HEADER_SIZE + BodyLen(rest);
    if n <= |rest| {
      SwappedTail(rest, n);
    }
  }

  /** The swap touches only the body_len field. */
  lemma SwappedTail(rest: seq<byte>, n: nat)
    requires HEADER_SIZE <= n <= |rest|
    ensures Swapped(rest)[n..] == rest[n..]
  {
    var e := EncodeLE(BodyLen(rest), 4);
    assert Swapped(rest) == (rest[..8] + e) + rest[12..];
    assert (rest[..8] + e + rest[12..])[n..] == rest[12..][n - 12..];
  }

  lemma Regroup(w: seq<byte>, x: seq<byte>, y: seq<byte>)
    ensures (w + x) + y == w + (x + y)
  {
  }

  /** memcache_bin_consume_response as written, on the connection's buffer
      holding the response: besides the count it leaves each header it
      reached with body_len in host order. */
  method BinConsumeAsWritten(resp: array<byte>) returns (r: ByteReqPair)
    modifies resp
    ensures r == BinCount(old(resp[..]), 0, 0)
    ensures resp[..] == BinRewrite(old(resp[..]))
  {
    var at: nat, bytes: nat, reqs: nat := 0, 0, 0;
    ghost var written: seq<byte> := [];
    ghost var rest := resp[..];
    while at != resp.Length
      invariant at == |written| && at + |rest| == resp.Length
      invariant resp[..] == written + rest
      invariant written + BinRewrite(rest) == BinRewrite(old(resp[..]))
      invariant BinCount(rest, bytes, reqs) == BinCount(old(resp[..]), 0, 0)
      decreases resp.Length - at
    {
      if resp.Length - at < HEADER_SIZE {
        break;
      }
      var bodyLen := SwapBodyLen(resp, at, written, rest);
      RewriteStep(rest);
      if resp.Length - at < bodyLen + HEADER_SIZE {
        return ByteReqPair(bytes, reqs);
      }
      var size := bodyLen + HEADER_SIZE;
      assert BinStep(rest) == size;
      BinCountFront(rest, bytes, reqs);
      ghost var frame := Swapped(rest)[..size];
      Regroup(written, frame, rest[size..]);
      Regroup(written, frame, BinRewrite(rest[size..]));
      assert Swapped(rest) == frame + rest[size..];
      written, rest := written + frame, rest[size..];
      at, bytes, reqs := at + size, bytes + size, reqs + 1;
    }
    r := ByteReqPair(bytes, reqs);
  }

  /** A header of a frame with a one-byte body that has not arrived yet
      (body_len 00 00 00 01). */
  const SHORT_HEADER: seq<byte> := [0x81, 0, 0, 0, 0, 0, 0, 0, 0, 0, 0, 1] + Repeat(0, 12)

  lemma BodyLenOne(buf: seq<byte>)
    requires |buf| >= HEADER_SIZE && buf[8..12] == [0, 0, 0, 1]
    ensures BodyLen(buf) == 1
  {
    assert Reverse([0, 0, 0, 1]) == [1, 0, 0, 0];
    assert DecodeLE([1, 0, 0, 0]) == 1;
  }

  lemma BodyLenSwappedOne(buf: seq<byte>)
    requires |buf| >= HEADER_SIZE && buf[8..12] == [1, 0, 0, 0]
    ensures BodyLen(buf) == 16777216
  {
    assert Reverse([1, 0, 0, 0]) == [0, 0, 0, 1];
    assert DecodeLE([0, 0, 0, 1]) == 16777216;
  }

  /** The frame is incomplete, and the parse as written leaves its length
      byte-swapped in the buffer; once the body byte arrives the parse of the
      kept bytes reads a body of 2^24 bytes and counts nothing, where the
      read-only parse counts the 25-byte frame. */
  lemma RewriteHidesFrame(b: byte)
    ensures BinCount(SHORT_HEADER, 0, 0) == ByteReqPair(0, 0)
    ensures BinRewrite(SHORT_HEADER)[8..12] == [1, 0, 0, 0]
    ensures BinCount(BinRewrite(SHORT_HEADER) + [b], 0, 0) == ByteReqPair(0, 0)
    ensures BinCount(SHORT_HEADER + [b], 0, 0) == ByteReqPair(25, 1)
  {
    var h := SHORT_HEADER;
    assert h[8..12] == [0, 0, 0, 1];
    BodyLenOne(h);
    assert EncodeLE(1, 4) == [1, 0, 0, 0];
    var w := BinRewrite(h);
    assert w == h[..8] + [1, 0, 0, 0] + h[12..];
    var wb := w + [b];
    assert wb[8..12] == [1, 0, 0, 0];
    BodyLenSwappedOne(wb);
    var hb := h + [b];
    assert hb[8..12] == [0, 0, 0, 1];
    BodyLenOne(hb);
    assert BinStep(hb) == 25;
    assert hb[25..] == [];
  }

  // ---------------------------------------------------------------------
  // Requests

  const GET_CMD: seq<byte> := [103, 101, 116, SPACE]
  const SET_CMD: seq<byte> := [115, 101, 116, SPACE]
  const SET_ZEROS: seq<byte> := [SPACE, ZERO, SPACE, ZERO, SPACE]

  /** The iovecs of memcache_ascii_create_request: a SET of valLen filler
      bytes with flags and expiry 0, or a GET. */
  function AsciiIovs(isSet: bool, key: seq<byte>, valLen: nat): (r: seq<seq<byte>>)
    ensures |r| == if isSet then 7 else 3
  {
    if isSet then [SET_CMD, key, SET_ZEROS, Decimal(valLen), CRLF, Repeat(FILLER, valLen), CRLF]
    else [GET_CMD, key, CRLF]
  }

  /** memcache_ascii_create_request for the key and value size it drew;
      a value larger than MAX_VAL_SIZE fails its assert. */
  method AsciiCreateRequest(req: Request, isSet: bool, key: seq<byte>, valLen: nat) returns (ok: bool)
    requires req.Valid()
    modifies req, req.iovs
    ensures req.Valid()
    ensures ok <==> !isSet || valLen <= MAX_VAL_SIZE
    ensures ok ==> req.InUse() == AsciiIovs(isSet, key, valLen) && req.meta == old(req.meta)
  {
    req.iovs[1] := key;
    if isSet {
      if valLen > MAX_VAL_SIZE {
        return false;
      }
      req.iovs[0] := SET_CMD;
      req.iovs[2] := SET_ZEROS;
      req.iovs[3] := Decimal(valLen);
      req.iovs[4] := CRLF;
      req.iovs[5] := Repeat(FILLER, valLen);
      req.iovs[6] := CRLF;
      req.iovCnt := 7;
    } else {
      req.iovs[0] := GET_CMD;
      req.iovs[2] := CRLF;
      req.iovCnt := 3;
    }
    ok := true;
  }

  /** A storage command of the memcached text protocol: name, key, flags,
      expiry time and the data block's length on one line, then the data
      block, each ended by CR LF. */
  function StorageCommand(name: seq<byte>, key: seq<byte>, flags: nat, exptime: nat, data: seq<byte>): seq<byte>
  {
    name + [SPACE] + key + [SPACE] + Decimal(flags) + [SPACE] + Decimal(exptime) + [SPACE]
    + Decimal(|data|) + CRLF + data + CRLF
  }

  /** A retrieval command of the memcached text protocol for one key. */
  function RetrievalCommand(name: seq<byte>, key: seq<byte>): seq<byte>
  {
    name + [SPACE] + key + CRLF
  }

  lemma FlattenCons(a: seq<byte>, rest: seq<seq<byte>>)
    ensures Flatten([a] + rest) == a + Flatten(rest)
  {
    assert ([a] + rest)[1..] == rest;
  }

  lemma Flatten7(a: seq<byte>, b: seq<byte>, c: seq<byte>, d: seq<byte>, e: seq<byte>, f: seq<byte>, g: seq<byte>)
    ensures Flatten([a, b, c, d, e, f, g]) == a + b + c + d + e + f + g
  {
    FlattenCons(g, []);
    FlattenCons(f, [g]);
    FlattenCons(e, [f, g]);
    FlattenCons(d, [e, f, g]);
    FlattenCons(c, [d, e, f, g]);
    FlattenCons(b, [c, d, e, f, g]);
    FlattenCons(a, [b, c, d, e, f, g]);
    assert [g] == [g] + [];
    assert [a, b, c, d, e, f, g] == [a] + [b, c, d, e, f, g];
  }

  lemma SetLine(key: seq<byte>, d: seq<byte>, val: seq<byte>)
    ensures SET_CMD + key + SET_ZEROS + d + CRLF + val + CRLF
            == [115, 101, 116] + [SPACE] + key + [SPACE] + [ZERO] + [SPACE] + [ZERO] + [SPACE] + d + CRLF + val + CRLF
  {
    assert SET_CMD == [115, 101, 116] + [SPACE];
    assert SET_ZEROS == [SPACE] + [ZERO] + [SPACE] + [ZERO] + [SPACE];
  }

  /** The text request is a "set" storage command carrying valLen filler
      bytes with flags and expiry 0, or a "get" of the key. */
  lemma AsciiRequestIsCommand(isSet: bool, key: seq<byte>, valLen: nat)
    ensures isSet ==> Flatten(AsciiIovs(isSet, key, valLen))
                      == StorageCommand([115, 101, 116], key, 0, 0, Repeat(FILLER, valLen))
    ensures !isSet ==> Flatten(AsciiIovs(isSet, key, valLen)) == RetrievalCommand([103, 101, 116], key)
  {
    if isSet {
      var val := Repeat(FILLER, valLen);
      Flatten7(SET_CMD, key, SET_ZEROS, Decimal(valLen), CRLF, val, CRLF);
      SetLine(key, Decimal(valLen), val);
      assert Decimal(0) == [ZERO];
    } else {
      FlattenCons(CRLF, []);
      FlattenCons(key, [CRLF]);
      FlattenCons(GET_CMD, [key, CRLF]);
      assert [GET_CMD, key, CRLF] == [GET_CMD] + [key, CRLF];
      assert [key, CRLF] == [key] + [CRLF];
      assert [CRLF] == [CRLF] + [];
      assert GET_CMD == [103, 101, 116] + [SPACE];
    }
  }

  const REQUEST_MAGIC: byte := 0x80
  const CMD_GET: byte := 0x00
  const CMD_SET: byte := 0x01
  /** A SET's extras: 32-bit flags and 32-bit expiry, both 0. */
  const SET_EXTRAS: nat := 8

  /** The bmc_header of a request: magic, opcode, key_len, extra_len, a zero
      data_type and vbucket, body_len, and zero opaque and cas; the 16- and
      32-bit fields are truncated by htons and htonl. */
  function BinHeader(opcode: byte, keyLen: nat, extraLen: byte, bodyLen: nat): (h: seq<byte>)
    ensures |h| == HEADER_SIZE
  {
    [REQUEST_MAGIC, opcode] + EncodeBE(U16(keyLen), 2) + [extraLen, 0, 0, 0]
    + EncodeBE(U32(bodyLen), 4) + Repeat(0, 12)
  }

  /** The iovecs of memcache_bin_create_request. */
  function BinIovs(isSet: bool, key: seq<byte>, valLen: nat): (r: seq<seq<byte>>)
    ensures |r| == if isSet then 4 else 2
  {
    if isSet then
      [BinHeader(CMD_SET, |key|, SET_EXTRAS, |key| + valLen + SET_EXTRAS), Repeat(0, SET_EXTRAS),
       key, Repeat(FILLER, valLen)]
    else [BinHeader(CMD_GET, |key|, 0, |key|), key]
  }

  method BinCreateRequest(req: Request, isSet: bool, key: seq<byte>, valLen: nat) returns (ok: bool)
    requires req.Valid()
    modifies req, req.iovs
    ensures req.Valid()
    ensures ok <==> !isSet || valLen <= MAX_VAL_SIZE
    ensures ok ==> req.InUse() == BinIovs(isSet, key, valLen) && req.meta == old(req.meta)
  {
    if isSet {
      if valLen > MAX_VAL_SIZE {
        return false;
      }
      req.iovs[0] := BinHeader(CMD_SET, |key|, SET_EXTRAS, |key| + valLen + SET_EXTRAS);
      req.iovs[1] := Repeat(0, SET_EXTRAS);
      req.iovs[2] := key;
      req.iovs[3] := Repeat(FILLER, valLen);
      req.iovCnt := 4;
    } else {
      req.iovs[0] := BinHeader(CMD_GET, |key|, 0, |key|);
      req.iovs[1] := key;
      req.iovCnt := 2;
    }
    ok := true;
  }

  /** A header followed by exactly the body it announces is one whole
      frame whose key_len reads back. */
  lemma HeaderFrame(opcode: byte, keyLen: nat, extraLen: byte, body: seq<byte>)
    requires keyLen < TWO_16 && |body| < TWO_32
    ensures var w := BinHeader(opcode, keyLen, extraLen, |body|) + body;
            BinWhole(w) && DecodeBE(w[2..4]) == keyLen && BinCount(w, 0, 0) == ByteReqPair(|w|, 1)
  {
    var w := BinHeader(opcode, keyLen, extraLen, |body|) + body;
    Pow256Values();
    assert w[2..4] == EncodeBE(U16(keyLen), 2);
    DecodeEncodeBE(keyLen, 2);
    assert w[8..12] == EncodeBE(U32(|body|), 4);
    DecodeEncodeBE(|body|, 4);
    assert BodyLen(w) == |body|;
    assert w[|w|..] == [];
  }

  /** The flattened request is its header and the body it announces. */
  lemma BinIovsSplit(isSet: bool, key: seq<byte>, valLen: nat) returns (body: seq<byte>)
    ensures Flatten(BinIovs(isSet, key, valLen)) == BinIovs(isSet, key, valLen)[0] + body
    ensures |body| == if isSet then |key| + valLen + SET_EXTRAS else |key|
  {
    var iovs := BinIovs(isSet, key, valLen);
    body := Flatten(iovs[1..]);
    FlattenCons(iovs[0], iovs[1..]);
    assert [iovs[0]] + iovs[1..] == iovs;
    if isSet {
      var v := Repeat(FILLER, valLen);
      FlattenCons(v, []);
      FlattenCons(key, [v]);
      FlattenCons(Repeat(0, SET_EXTRAS), [key, v]);
      assert iovs[1..] == [Repeat(0, SET_EXTRAS)] + ([key] + [v]);
      assert [v] == [v] + [];
    } else {
      FlattenCons(key, []);
      assert iovs[1..] == [key] + [];
    }
  }

  /** With a key shorter than 2^16 bytes, a binary request is one whole
      frame whose key_len reads back as the key's length, and its count is
      one request of its own length. */
  lemma BinRequestIsFrame(isSet: bool, key: seq<byte>, valLen: nat)
    requires |key| < TWO_16 && valLen <= MAX_VAL_SIZE
    ensures var w := Flatten(BinIovs(isSet, key, valLen));
            BinWhole(w) && DecodeBE(w[2..4]) == |key| &&
            BinCount(w, 0, 0) == ByteReqPair(|w|, 1)
  {
    var body := BinIovsSplit(isSet, key, valLen);
    if isSet {
      HeaderFrame(CMD_SET, |key|, SET_EXTRAS as byte, body);
    } else {
      HeaderFrame(CMD_GET, |key|, 0, body);
    }
  }

  // ---------------------------------------------------------------------
  // Initialisation

  datatype MemcacheKind = Binary | Text

  /** The protocol memcache_init selects by the name's prefix; None is its
      "Wrong memcached protocol" failure. The name must start with
      "memcache-" (the function asserts it). */
  function MemcacheInit(proto: string): (k: Option<MemcacheKind>)
    requires "memcache-" <= proto
    ensures k == Some(Binary) <==> "memcache-bin" <= proto
    ensures k == Some(Text) <==> "memcache-ascii" <= proto
  {
    if "memcache-bin" <= proto then
      assert proto[9] != "memcache-ascii"[9];
      Some(Binary)
    else if "memcache-ascii" <= proto then Some(Text)
    else None
  }
}
