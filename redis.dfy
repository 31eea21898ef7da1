// The Redis application protocol of the agents (agents/redis.c): counting the
// RESP2 replies (simple strings "+...\r\n", bulk strings "$<len>\r\n...\r\n"
// and the nil bulk string "$-1\r\n") a response buffer holds, building GET
// and SET commands as arrays of bulk strings, and the YCSB-E scan/insert
// requests. The key and value-size draws are inputs.

module Redis {
  import opened Common
  import opened Bytes
  import opened WorkerStats
  import opened AppCommon

  const DOLLAR: byte := 36
  const STAR: byte := 42

  // ---------------------------------------------------------------------
  // The replies a Redis server sends to GET and SET

  datatype Reply = Simple(text: seq<byte>) | Bulk(data: seq<byte>) | Nil

  /** A simple string cannot hold a line feed. */
  predicate WellFormed(r: Reply)
  {
    r.Simple? ==> LF !in r.text
  }

  /** The header line "$<len>\r\n" of a bulk string: only its last byte is
      a line feed. */
  function Header(len: int): (h: seq<byte>)
    ensures |h| >= 4 && h[0] == DOLLAR && h[|h| - 1] == LF
    ensures forall i :: 0 <= i < |h| - 1 ==> h[i] != LF
  {
    var d := SignedDecimal(len);
    assert forall i :: 0 <= i < |d| ==> d[i] != LF;
    [DOLLAR] + d + CRLF
  }

  /** The wire form of a reply; the nil reply is the header of length -1. */
  function Encode(r: Reply): (s: seq<byte>)
    ensures |s| > 0 && (s[0] == PLUS || s[0] == DOLLAR)
  {
    match r
    case Simple(text) => [PLUS] + text + CRLF
    case Bulk(data) => Header(|data|) + data + CRLF
    case Nil => Header(-1)
  }

  function EncodeAll(rs: seq<Reply>): seq<byte>
  {
    if rs == [] then [] else Encode(rs[0]) + EncodeAll(rs[1..])
  }

  // ---------------------------------------------------------------------
  // parse_string and parse_bulk_string

  /** parse_string: a simple string ends at its first line feed; without
      one in the buffer nothing is consumed. */
  function ParseString(buf: seq<byte>): (r: int)
    ensures 0 <= r <= |buf|
  {
    if |buf| < 1 then 0
    else match Memchr(buf, LF)
      case None => 0
      case Some(p) => p + 1
  }

  /** parse_bulk_string as the source has it: the nil reply counts 5 bytes
      whatever the buffer holds, and a negative length other than -1 is
      added in. */
  function ParseBulkStringAsWritten(buf: seq<byte>): int
  {
    if |buf| < 1 then 0
    else match Memchr(buf, LF)
      case None => 0
      case Some(p) =>
        var len := Atoi(buf[1..]);
        if len == -1 then 5
        else
          var extra := p + 1 + 2;
          if len + extra <= |buf| then len + extra else 0
  }

  /** parse_bulk_string with a count the buffer always holds: the nil reply
      is its header line, and a length below -1 consumes nothing. On
      well-formed replies it agrees with the source (ParseAgrees). */
  function ParseBulkString(buf: seq<byte>): (r: int)
    ensures 0 <= r <= |buf|
  {
    if |buf| < 1 then 0
    else match Memchr(buf, LF)
      case None => 0
      case Some(p) =>
        var len := Atoi(buf[1..]);
        if len == -1 then p + 1
        else
          var extra := p + 1 + 2;
          if 0 <= len && len + extra <= |buf| then len + extra else 0
  }

  /** A parser as the reading loop calls it: the count it returns for the
      bytes from the current position to the end of the response. */
  type Parser = seq<byte> -> int

  /** The parser redis_kv_consume_response picks by the first byte. */
  function Dispatch(str: Parser, bulk: Parser, buf: seq<byte>): int
    requires buf != []
  {
    if buf[0] == PLUS then str(buf) else bulk(buf)
  }

  /** The parser finds the end of a header line and reads its length back. */
  lemma HeaderRead(len: int, rest: seq<byte>)
    ensures Memchr(Header(len) + rest, LF) == Some(|Header(len)| - 1)
    ensures Atoi((Header(len) + rest)[1..]) == len
  {
    HeaderLine(len, rest);
    HeaderLength(len, rest);
  }

  lemma HeaderLine(len: int, rest: seq<byte>)
    ensures Memchr(Header(len) + rest, LF) == Some(|Header(len)| - 1)
  {
    var h := Header(len);
    assert h + rest == h[..|h| - 1] + [LF] + rest;
    MemchrAfter(h[..|h| - 1], LF, rest);
  }

  lemma HeaderLength(len: int, rest: seq<byte>)
    ensures Atoi((Header(len) + rest)[1..]) == len
  {
    assert (Header(len) + rest)[1..] == SignedDecimal(len) + ([CR, LF] + rest);
    AtoiOfSignedDecimal(len, [CR, LF] + rest);
  }

  /** Both versions of parse_bulk_string on a buffer that starts with a
      header: the nil header alone, or the header, len bytes and CRLF when
      the buffer holds them all. */
  lemma {:induction false} BulkCount(len: int, rest: seq<byte>)
    ensures ParseBulkString(Header(len) + rest) ==
            if len == -1 then |Header(len)|
            else if 0 <= len && len + 2 <= |rest| then |Header(len)| + len + 2
            else 0
    ensures ParseBulkStringAsWritten(Header(len) + rest) ==
            if len == -1 then 5
            else if len + 2 <= |rest| then |Header(len)| + len + 2
            else 0
  {
    HeaderRead(len, rest);
  }

  /** A complete reply is consumed exactly, whatever follows it. */
  lemma ParseComplete(r: Reply, rest: seq<byte>)
    requires WellFormed(r)
    ensures Dispatch(ParseString, ParseBulkString, Encode(r) + rest) == |Encode(r)|
  {
    match r
    case Simple(text) =>
      SimpleComplete(text, rest);
    case Bulk(data) =>
      BulkComplete(data, rest);
    case Nil =>
      BulkCount(-1, rest);
  }

  /** parse_bulk_string takes the header, the data and its CRLF. */
  lemma BulkComplete(data: seq<byte>, rest: seq<byte>)
    ensures ParseBulkString(Encode(Bulk(data)) + rest) == |Encode(Bulk(data))|
  {
    assert Encode(Bulk(data)) + rest == Header(|data|) + (data + CRLF + rest);
    BulkCount(|data|, data + CRLF + rest);
  }

  /** parse_string stops at the line feed that ends a simple string. */
  lemma SimpleComplete(text: seq<byte>, rest: seq<byte>)
    requires LF !in text
    ensures ParseString(Encode(Simple(text)) + rest) == |Encode(Simple(text))|
  {
    var pre := [PLUS] + text + [CR];
    assert Encode(Simple(text)) + rest == pre + [LF] + rest;
    assert forall i :: 0 <= i < |pre| ==> pre[i] != LF by {
      forall i | 0 <= i < |pre| ensures pre[i] != LF {
        if 0 < i <= |text| {
          assert pre[i] == text[i - 1];
        }
      }
    }
    MemchrAfter(pre, LF, rest);
  }

  /** A header cut short holds no line feed, so nothing is consumed. */
  lemma ShortHeader(len: int, n: nat)
    requires 0 < n < |Header(len)|
    ensures ParseBulkString(Header(len)[..n]) == 0
  {
    var h := Header(len);
    assert forall i :: 0 <= i < n ==> h[..n][i] != LF;
    MemchrSpec(h[..n], LF);
  }

  /** A reply cut short consumes nothing: the parser waits for the rest. */
  lemma ParseIncomplete(r: Reply, n: nat)
    requires WellFormed(r) && 0 < n < |Encode(r)|
    ensures Dispatch(ParseString, ParseBulkString, Encode(r)[..n]) == 0
  {
    var e := Encode(r);
    match r
    case Simple(text) =>
      assert forall i :: 0 <= i < n ==> e[..n][i] != LF by {
        forall i | 0 <= i < n ensures e[..n][i] != LF {
          if 0 < i <= |text| {
            assert e[i] == text[i - 1];
          }
        }
      }
      MemchrSpec(e[..n], LF);
      assert e[..n][0] == PLUS;
    case Bulk(data) =>
      var h := Header(|data|);
      if n < |h| {
        assert e[..n] == h[..n];
        ShortHeader(|data|, n);
      } else {
        assert e[..n] == h + (data + CRLF)[..n - |h|];
        BulkCount(|data|, (data + CRLF)[..n - |h|]);
      }
    case Nil =>
      ShortHeader(-1, n);
  }

  /** Where the two versions differ the reply is not well formed: on every
      complete well-formed bulk or nil reply they give the same count. */
  lemma ParseAgrees(data: seq<byte>, rest: seq<byte>)
    ensures ParseBulkStringAsWritten(Encode(Bulk(data)) + rest) == |Encode(Bulk(data))|
    ensures ParseBulkStringAsWritten(Encode(Nil) + rest) == |Encode(Nil)|
  {
    assert Encode(Bulk(data)) + rest == Header(|data|) + (data + CRLF + rest);
    BulkCount(|data|, data + CRLF + rest);
    assert Decimal(1) == [ZERO + 1];
    BulkCount(-1, rest);
  }

  /** The nil header without its carriage return is counted as 5 of the 4
      bytes received. */
  lemma NilOverrun()
    ensures ParseBulkStringAsWritten([DOLLAR, MINUS, ZERO + 1, LF]) == 5
  {
    var a := [DOLLAR, MINUS, ZERO + 1, LF];
    assert a == [DOLLAR, MINUS, ZERO + 1] + [LF] + [];
    MemchrAfter([DOLLAR, MINUS, ZERO + 1], LF, []);
    assert a[1..] == [MINUS] + Decimal(1) + [LF];
    AtoiOfNegativeDecimal(1, [LF]);
  }

  /** The header "$-11\r\n" is counted as -3 bytes. */
  lemma NegativeLengthOverrun()
    ensures ParseBulkStringAsWritten([DOLLAR, MINUS, ZERO + 1, ZERO + 1, CR, LF]) == -3
  {
    assert Decimal(11) == [ZERO + 1, ZERO + 1];
    assert Header(-11) + [] == [DOLLAR, MINUS, ZERO + 1, ZERO + 1, CR, LF];
    BulkCount(-11, []);
  }

  // ---------------------------------------------------------------------
  // redis_kv_consume_response

  /** The reading loop over its two parsers, with bytes and reqs counted so
      far: replies are counted left to right up to the first one not
      complete ('+' goes to str, '$' to bulk, any other byte is the source's
      assert), and a count that is negative or runs past the response is a
      read outside it. A negative count moves the C cursor backward, before
      the response; the model stops there with OutOfBounds. */
  function ConsumeWith(str: Parser, bulk: Parser, buf: seq<byte>, bytes: nat, reqs: nat): (r: Consumed)
    decreases |buf|
  {
    if buf == [] then Done(ByteReqPair(bytes, reqs))
    else if buf[0] != PLUS && buf[0] != DOLLAR then Abort
    else
      var n := Dispatch(str, bulk, buf);
      if n == 0 then Done(ByteReqPair(bytes, reqs))
      else if n < 0 || n > |buf| then OutOfBounds
      else ConsumeWith(str, bulk, buf[n..], bytes + n, reqs + 1)
  }

  /** Whatever the parsers, a count is never more bytes than the response
      holds, nor more replies than bytes. */
  lemma {:induction false} ConsumeBounds(str: Parser, bulk: Parser, buf: seq<byte>, bytes: nat, reqs: nat)
    requires reqs <= bytes
    ensures var r := ConsumeWith(str, bulk, buf, bytes, reqs);
            r.Done? ==> bytes <= r.brp.bytes <= bytes + |buf| && r.brp.reqs <= r.brp.bytes
    decreases |buf|
  {
    if buf != [] && (buf[0] == PLUS || buf[0] == DOLLAR) {
      var n := Dispatch(str, bulk, buf);
      if 0 < n <= |buf| {
        ConsumeBounds(str, bulk, buf[n..], bytes + n, reqs + 1);
      }
    }
  }

  /** What redis_kv_consume_response reports for a response, nil replies and
      lengths below -1 read as the corrected parser reads them. */
  function ConsumeFrom(buf: seq<byte>): Consumed
  {
    ConsumeWith(ParseString, ParseBulkString, buf, 0, 0)
  }

  /** A frame the two parsers consume exactly, whatever follows it. */
  ghost predicate ReadWhole(str: Parser, bulk: Parser, f: seq<byte>)
  {
    f != [] && (f[0] == PLUS || f[0] == DOLLAR) &&
    forall rest: seq<byte> :: Dispatch(str, bulk, f + rest) == |f|
  }

  /** A tail the two parsers stop at: empty, or a reply they cannot finish. */
  ghost predicate StopsAt(str: Parser, bulk: Parser, tail: seq<byte>)
  {
    tail == [] || ((tail[0] == PLUS || tail[0] == DOLLAR) && Dispatch(str, bulk, tail) == 0)
  }

  /** A whole frame at the front is counted and the count goes on after it. */
  lemma FrameStep(str: Parser, bulk: Parser, f: seq<byte>, rest: seq<byte>, bytes: nat, reqs: nat)
    requires ReadWhole(str, bulk, f)
    ensures ConsumeWith(str, bulk, f + rest, bytes, reqs) == ConsumeWith(str, bulk, rest, bytes + |f|, reqs + 1)
  {
    var buf := f + rest;
    assert buf[0] == f[0];
    assert Dispatch(str, bulk, buf) == |f|;
    assert buf[|f|..] == rest;
  }

  /** Frames that are read whole, then a tail the parsers stop at, count
      exactly the frames. */
  lemma {:induction false} ConsumeFrames(str: Parser, bulk: Parser, fs: seq<seq<byte>>, tail: seq<byte>,
                                         bytes: nat, reqs: nat)
    requires forall i :: 0 <= i < |fs| ==> ReadWhole(str, bulk, fs[i])
    requires StopsAt(str, bulk, tail)
    ensures ConsumeWith(str, bulk, Flatten(fs) + tail, bytes, reqs) ==
            Done(ByteReqPair(bytes + |Flatten(fs)|, reqs + |fs|))
  {
    if fs == [] {
      assert Flatten(fs) + tail == tail;
    } else {
      var rest := Flatten(fs[1..]) + tail;
      assert Flatten(fs) + tail == fs[0] + rest;
      FrameStep(str, bulk, fs[0], rest, bytes, reqs);
      ConsumeFrames(str, bulk, fs[1..], tail, bytes + |fs[0]|, reqs + 1);
    }
  }

  /** The frames of a sequence of replies. */
  function Frames(rs: seq<Reply>): (fs: seq<seq<byte>>)
    ensures |fs| == |rs| && forall i :: 0 <= i < |rs| ==> fs[i] == Encode(rs[i])
  {
    seq(|rs|, i requires 0 <= i < |rs| => Encode(rs[i]))
  }

  lemma {:induction false} FramesFlatten(rs: seq<Reply>)
    ensures Flatten(Frames(rs)) == EncodeAll(rs)
  {
    if rs != [] {
      FramesFlatten(rs[1..]);
      assert Frames(rs)[1..] == Frames(rs[1..]);
    }
  }

  /** redis_kv_consume_response on whole replies followed by part of one
      more counts exactly the whole replies. */
  lemma ConsumeReplies(rs: seq<Reply>, partial: Reply, n: nat)
    requires forall i :: 0 <= i < |rs| ==> WellFormed(rs[i])
    requires WellFormed(partial) && n < |Encode(partial)|
    ensures ConsumeFrom(EncodeAll(rs) + Encode(partial)[..n]) == Done(ByteReqPair(|EncodeAll(rs)|, |rs|))
  {
    FramesReadWhole(rs);
    TailStops(partial, n);
    FramesFlatten(rs);
    ConsumeFrames(ParseString, ParseBulkString, Frames(rs), Encode(partial)[..n], 0, 0);
  }

  /** Every well-formed reply is a frame parse_string and parse_bulk_string
      read whole. */
  lemma FramesReadWhole(rs: seq<Reply>)
    requires forall i :: 0 <= i < |rs| ==> WellFormed(rs[i])
    ensures forall i :: 0 <= i < |rs| ==> ReadWhole(ParseString, ParseBulkString, Frames(rs)[i])
  {
    var fs := Frames(rs);
    forall i | 0 <= i < |fs|
      ensures ReadWhole(ParseString, ParseBulkString, fs[i])
    {
      forall rest: seq<byte>
        ensures Dispatch(ParseString, ParseBulkString, fs[i] + rest) == |fs[i]|
      {
        ParseComplete(rs[i], rest);
      }
    }
  }

  /** The parsers stop at a reply cut short. */
  lemma TailStops(partial: Reply, n: nat)
    requires WellFormed(partial) && n < |Encode(partial)|
    ensures StopsAt(ParseString, ParseBulkString, Encode(partial)[..n])
  {
    if n > 0 {
      ParseIncomplete(partial, n);
    }
  }

  /** With the source's parse_bulk_string, a nil header that lacks its
      carriage return makes the loop read past the response. */
  lemma ConsumeAsWrittenOverruns()
    ensures ConsumeWith(ParseString, ParseBulkStringAsWritten, [DOLLAR, MINUS, ZERO + 1, LF], 0, 0) == OutOfBounds
  {
    NilOverrun();
  }

  /** The loop of redis_kv_consume_response, for any two parsers. */
  method ConsumeLoop(resp: seq<byte>, str: Parser, bulk: Parser) returns (r: Consumed)
    ensures r == ConsumeWith(str, bulk, resp, 0, 0)
  {
    var rest, bytes, reqs := resp, 0, 0;
    while |rest| != 0
      invariant bytes + |rest| == |resp|
      invariant ConsumeWith(str, bulk, resp, 0, 0) == ConsumeWith(str, bulk, rest, bytes, reqs)
      decreases |rest|
    {
      var processed;
      if rest[0] == PLUS {
        processed := str(rest);
      } else if rest[0] == DOLLAR {
        processed := bulk(rest);
      } else {
        return Abort;
      }
      if processed == 0 {
        break;
      }
      if processed < 0 || processed > |rest| {
        return OutOfBounds;
      }
      bytes, reqs, rest := bytes + processed, reqs + 1, rest[processed..];
    }
    r := Done(ByteReqPair(bytes, reqs));
  }

  /** redis_kv_consume_response, with the corrected bulk-string parser. */
  method ConsumeResponse(resp: seq<byte>) returns (r: Consumed)
    ensures r == ConsumeFrom(resp)
  {
    r := ConsumeLoop(resp, ParseString, ParseBulkString);
  }

  // ---------------------------------------------------------------------
  // redis_kv_create_request

  /** The command Redis reads: an array of bulk strings. */
  function Command(args: seq<seq<byte>>): seq<byte>
  {
    [STAR] + Decimal(|args|) + CRLF + BulkAll(args)
  }

  function BulkAll(args: seq<seq<byte>>): seq<byte>
  {
    if args == [] then [] else Encode(Bulk(args[0])) + BulkAll(args[1..])
  }

  const GET: seq<byte> := [71, 69, 84]
  const SET: seq<byte> := [83, 69, 84]
  /** get_prem and set_prem: "*2\r\n$3\r\nGET\r\n$" and "*3\r\n$3\r\nSET\r\n$". */
  const GET_PREM: seq<byte> := [STAR, ZERO + 2, CR, LF, DOLLAR, ZERO + 3, CR, LF] + GET + CRLF + [DOLLAR]
  const SET_PREM: seq<byte> := [STAR, ZERO + 3, CR, LF, DOLLAR, ZERO + 3, CR, LF] + SET + CRLF + [DOLLAR]

  /** The iovecs of a GET (5) or a SET (10) of key with a value of valLen
      filler bytes. */
  function KvIovs(isSet: bool, key: seq<byte>, valLen: nat): (r: seq<seq<byte>>)
    ensures |r| == if isSet then 10 else 5
  {
    var keyPart := [Decimal(|key|), CRLF, key, CRLF];
    if isSet then [SET_PREM] + keyPart + [[DOLLAR], Decimal(valLen), CRLF, Repeat(FILLER, valLen), CRLF]
    else [GET_PREM] + keyPart
  }

  lemma Flatten5(a: seq<byte>, b: seq<byte>, c: seq<byte>, d: seq<byte>, e: seq<byte>)
    ensures Flatten([a, b, c, d, e]) == a + b + c + d + e
  {
    assert Flatten([e]) == e by { assert [e][1..] == []; }
    assert Flatten([d, e]) == d + e by { assert [d, e][1..] == [e]; }
    assert Flatten([c, d, e]) == c + (d + e) by { assert [c, d, e][1..] == [d, e]; }
    assert Flatten([b, c, d, e]) == b + (c + (d + e)) by { assert [b, c, d, e][1..] == [c, d, e]; }
    assert Flatten([a, b, c, d, e]) == a + (b + (c + (d + e))) by { assert [a, b, c, d, e][1..] == [b, c, d, e]; }
  }

  /** A bulk string is its length line and its bytes, each ended by CRLF. */
  lemma BulkForm(x: seq<byte>)
    ensures Encode(Bulk(x)) == [DOLLAR] + Decimal(|x|) + CRLF + x + CRLF
  {
  }

  lemma {:induction false} BulkAllPair(a: seq<byte>, b: seq<byte>)
    ensures BulkAll([a, b]) == Encode(Bulk(a)) + Encode(Bulk(b))
  {
    assert [a, b][1..] == [b];
    assert [b][1..] == [];
    assert BulkAll([b]) == Encode(Bulk(b)) + BulkAll([]);
  }

  lemma {:induction false} BulkAllTriple(a: seq<byte>, b: seq<byte>, c: seq<byte>)
    ensures BulkAll([a, b, c]) == Encode(Bulk(a)) + Encode(Bulk(b)) + Encode(Bulk(c))
  {
    assert [a, b, c][1..] == [b, c];
    BulkAllPair(b, c);
  }

  /** get_prem and set_prem are the array header, the command name as a
      bulk string, and the '$' that starts the key's length line. */
  lemma PremForm()
    ensures GET_PREM == [STAR] + Decimal(2) + CRLF + Encode(Bulk(GET)) + [DOLLAR]
    ensures SET_PREM == [STAR] + Decimal(3) + CRLF + Encode(Bulk(SET)) + [DOLLAR]
  {
    assert Decimal(2) == [ZERO + 2];
    assert Decimal(3) == [ZERO + 3];
    BulkForm(GET);
    BulkForm(SET);
  }

  /** The regrouping of a request's pieces into the array header and its
      bulk strings. */
  lemma Regroup(h: seq<byte>, g: seq<byte>, a: seq<byte>, b: seq<byte>, c: seq<byte>, d: seq<byte>,
                e: seq<byte>, v: seq<byte>)
    ensures (h + g + a) + b + c + d + e + v == h + (g + (a + b + c + d + e) + v)
  {
  }

  lemma GetIsCommand(key: seq<byte>)
    ensures Flatten(KvIovs(false, key, 0)) == Command([GET, key])
  {
    var dk := Decimal(|key|);
    Flatten5(GET_PREM, dk, CRLF, key, CRLF);
    PremForm();
    BulkForm(key);
    BulkAllPair(GET, key);
    Regroup([STAR] + Decimal(2) + CRLF, Encode(Bulk(GET)), [DOLLAR], dk, CRLF, key, CRLF, []);
    assert GET_PREM + dk + CRLF + key + CRLF + [] == GET_PREM + dk + CRLF + key + CRLF;
  }

  lemma SetIsCommand(key: seq<byte>, valLen: nat)
    ensures Flatten(KvIovs(true, key, valLen)) == Command([SET, key, Repeat(FILLER, valLen)])
  {
    var val := Repeat(FILLER, valLen);
    var dk := Decimal(|key|);
    var valBulk := [DOLLAR] + Decimal(valLen) + CRLF + val + CRLF;
    var first: seq<seq<byte>> := [SET_PREM, dk, CRLF, key, CRLF];
    var second: seq<seq<byte>> := [[DOLLAR], Decimal(valLen), CRLF, val, CRLF];
    assert KvIovs(true, key, valLen) == first + second;
    FlattenAppend(first, second);
    Flatten5(SET_PREM, dk, CRLF, key, CRLF);
    Flatten5([DOLLAR], Decimal(valLen), CRLF, val, CRLF);
    PremForm();
    BulkForm(key);
    BulkForm(val);
    BulkAllTriple(SET, key, val);
    Regroup([STAR] + Decimal(3) + CRLF, Encode(Bulk(SET)), [DOLLAR], dk, CRLF, key, CRLF, valBulk);
  }

  /** What a GET or SET request puts on the wire is the command Redis
      expects: GET key, or SET key followed by the value. */
  lemma KvRequestIsCommand(isSet: bool, key: seq<byte>, valLen: nat)
    ensures Flatten(KvIovs(isSet, key, valLen)) ==
            if isSet then Command([SET, key, Repeat(FILLER, valLen)]) else Command([GET, key])
  {
    if isSet {
      SetIsCommand(key, valLen);
    } else {
      GetIsCommand(key);
      assert KvIovs(false, key, valLen) == KvIovs(false, key, 0);
    }
  }

  /** redis_kv_create_request, given the GET/SET draw, the key and the
      value-size draw; false where the value-size assert fails. */
  method KvCreateRequest(req: Request, isSet: bool, key: seq<byte>, valLen: nat) returns (ok: bool)
    requires req.Valid()
    modifies req, req.iovs
    ensures req.Valid()
    ensures ok <==> !isSet || valLen <= MAX_VAL_SIZE
    ensures ok ==> req.InUse() == KvIovs(isSet, key, valLen) && req.meta == old(req.meta)
  {
    req.iovs[1] := Decimal(|key|);
    req.iovs[2] := CRLF;
    req.iovs[3] := key;
    req.iovs[4] := CRLF;
    if isSet {
      if valLen > MAX_VAL_SIZE {
        return false;
      }
      req.iovs[0] := SET_PREM;
      req.iovs[5] := [DOLLAR];
      req.iovs[6] := Decimal(valLen);
      req.iovs[7] := CRLF;
      req.iovs[8] := Repeat(FILLER, valLen);
      req.iovs[9] := CRLF;
      req.iovCnt := 10;
    } else {
      req.iovs[0] := GET_PREM;
      req.iovCnt := 5;
    }
    ok := true;
  }

  // ---------------------------------------------------------------------
  // YCSB-E

  const YCSBE_KEY_COUNT: nat := 1000000
  const YCSBE_MAX_SCAN_LEN: nat := 10
  const YCSBE_FIELD_COUNT: nat := 10
  const YCSBE_FIELD_SIZE: nat := 100

  /** n fields of size filler bytes, each followed by a space. */
  function YcsbeFields(n: nat, size: nat): (r: seq<byte>)
    ensures |r| == n * (size + 1)
  {
    if n == 0 then [] else YcsbeFields(n - 1, size) + Repeat(FILLER, size) + [SPACE]
  }

  /** The insert body: the fields with the last separator a line feed. */
  function YcsbeBody(n: nat, size: nat): (r: seq<byte>)
    requires n > 0
    ensures |r| == n * (size + 1)
  {
    var f := YcsbeFields(n, size);
    f[..|f| - 1] + [LF]
  }

  lemma {:induction false} FieldsLayout(n: nat, size: nat, k: nat)
    requires k < n * (size + 1)
    ensures YcsbeFields(n, size)[k] == if k % (size + 1) == size then SPACE else FILLER
  {
    if n > 0 {
      var before := (n - 1) * (size + 1);
      assert n * (size + 1) == before + size + 1;
      if k < before {
        FieldsLayout(n - 1, size, k);
      } else {
        var j := k - before;
        ModUnique(k, n - 1, j, size + 1);
        assert YcsbeFields(n, size)[k] == (Repeat(FILLER, size) + [SPACE])[j];
      }
    }
  }

  /** Every byte of the insert body: filler, a space after each field, and
      a line feed at the very end. */
  lemma YcsbeBodyLayout(n: nat, size: nat, k: nat)
    requires n > 0 && k < n * (size + 1)
    ensures YcsbeBody(n, size)[k] ==
            if k == n * (size + 1) - 1 then LF else if k % (size + 1) == size then SPACE else FILLER
  {
    if k < n * (size + 1) - 1 {
      FieldsLayout(n, size, k);
    }
  }

  /** One field of the body loop: size filler bytes and a space at pos. */
  method FillField(body: array<byte>, pos: nat, size: nat)
    requires pos + size < body.Length
    modifies body
    ensures body[..pos + size + 1] == old(body[..pos]) + Repeat(FILLER, size) + [SPACE]
  {
    var j := 0;
    while j < size
      invariant 0 <= j <= size
      invariant body[..pos] == old(body[..pos])
      invariant body[pos..pos + j] == Repeat(FILLER, j)
    {
      body[pos + j] := FILLER;
      j := j + 1;
    }
    body[pos + size] := SPACE;
    assert body[..pos + size + 1] == body[..pos] + body[pos..pos + size] + [SPACE];
  }

  /** One more field after the first i. */
  method AppendField(body: array<byte>, pos: nat, i: nat, size: nat)
    requires pos + size < body.Length && body[..pos] == YcsbeFields(i, size)
    modifies body
    ensures body[..pos + size + 1] == YcsbeFields(i + 1, size)
  {
    FillField(body, pos, size);
    assert YcsbeFields(i + 1, size) == YcsbeFields(i, size) + Repeat(FILLER, size) + [SPACE];
  }

  /** Each field adds size + 1 bytes, so the first i fit before the n. */
  lemma {:induction false} FieldsGrow(i: nat, n: nat, size: nat)
    requires i < n
    ensures |YcsbeFields(i, size)| + size + 1 <= |YcsbeFields(n, size)|
    decreases n
  {
    if i + 1 < n {
      FieldsGrow(i, n - 1, size);
    }
  }

  /** The body loop of init_redis_ycsbe. */
  method BuildYcsbeBody(n: nat, size: nat) returns (body: array<byte>)
    requires n > 0
    ensures body[..] == YcsbeBody(n, size)
  {
    body := new byte[n * (size + 1)];
    FillFields(body, n, size);
    ghost var fields := body[..];
    body[body.Length - 1] := LF;
    assert body[..body.Length - 1] == fields[..body.Length - 1];
    assert body[..] == body[..body.Length - 1] + [LF];
  }

  /** The n fields, each size fillers and a space, written from the front. */
  method FillFields(body: array<byte>, n: nat, size: nat)
    requires body.Length == |YcsbeFields(n, size)|
    modifies body
    ensures body[..] == YcsbeFields(n, size)
  {
    var pos: nat := 0;
    var i := 0;
    while i < n
      invariant 0 <= i <= n && pos <= body.Length
      invariant body[..pos] == YcsbeFields(i, size)
    {
      FieldsGrow(i, n, size);
      AppendField(body, pos, i, size);
      pos := pos + size + 1;
      i := i + 1;
    }
    assert body[..] == body[..pos];
  }

  /** struct ycsbe_info; the scan and insert ratios are the draw's business. */
  class YcsbeInfo {
    const keyCount: nat
    const scanLen: nat
    const fieldCount: nat
    const fieldSize: nat
    const replicated: bool
    const body: array<byte>

    /** init_redis_ycsbe: the fixed parameters, "redis-ycsber" for the
        replicated variant, and the insert body. */
    constructor(proto: string)
      ensures keyCount == YCSBE_KEY_COUNT && scanLen == YCSBE_MAX_SCAN_LEN
      ensures fieldCount == YCSBE_FIELD_COUNT && fieldSize == YCSBE_FIELD_SIZE
      ensures replicated <==> "redis-ycsber" <= proto
      ensures body[..] == YcsbeBody(YCSBE_FIELD_COUNT, YCSBE_FIELD_SIZE)
    {
      keyCount, scanLen := YCSBE_KEY_COUNT, YCSBE_MAX_SCAN_LEN;
      fieldCount, fieldSize := YCSBE_FIELD_COUNT, YCSBE_FIELD_SIZE;
      replicated := "redis-ycsber" <= proto;
      var b := BuildYcsbeBody(YCSBE_FIELD_COUNT, YCSBE_FIELD_SIZE);
      body := b;
    }
  }

  const YCSBE_SCAN_PREM: seq<byte> := Ascii("ycsbe.scan ")
  const YCSBE_INSERT_PREM: seq<byte> := Ascii("ycsbe.insert ")

  /** The iovecs of a scan of count records from key, or of an insert of
      the fixed body at key. */
  function YcsbeIovs(isScan: bool, key: nat, count: nat, body: seq<byte>): (r: seq<seq<byte>>)
    ensures |r| == 3
  {
    if isScan then [YCSBE_SCAN_PREM, Decimal(key) + [SPACE], Decimal(count) + [LF]]
    else [YCSBE_INSERT_PREM, Decimal(key) + [SPACE], body]
  }

  /** redis_ycsbe_create_request, given the key draw, the scan/insert draw
      and the scan-length draw (key < keyCount, 1 <= count <= scanLen in the
      source); without R2P2 the replicated variant is the source's assert. */
  method YcsbeCreateRequest(info: YcsbeInfo, req: Request, key: nat, isScan: bool, count: nat) returns (ok: bool)
    requires req.Valid() && info.body.Length == info.fieldCount * (info.fieldSize + 1)
    modifies req, req.iovs
    ensures req.Valid()
    ensures ok == !info.replicated
    ensures ok ==> req.InUse() == YcsbeIovs(isScan, key, count, info.body[..]) && req.meta == 0
  {
    req.iovs[1] := Decimal(key) + [SPACE];
    if isScan {
      req.iovs[0] := YCSBE_SCAN_PREM;
      req.iovs[2] := Decimal(count) + [LF];
    } else {
      req.iovs[0] := YCSBE_INSERT_PREM;
      req.iovs[2] := info.body[..info.fieldCount * (info.fieldSize + 1)];
      assert req.iovs[2] == info.body[..];
    }
    req.iovCnt := 3;
    if info.replicated {
      return false;
    }
    req.meta := 0;
    ok := true;
  }

  // ---------------------------------------------------------------------
  // redis_init

  datatype RedisKind = Kv | Ycsbe

  /** redis_init: "redis-ycsbe..." selects YCSB-E, every other "redis..."
      the key-value workload. */
  function RedisInit(proto: string): (k: RedisKind)
    requires "redis" <= proto
    ensures k == Ycsbe <==> "redis-ycsbe" <= proto
  {
    if "redis-ycsbe" <= proto then Ycsbe else Kv
  }
}
