// The fixed-frame application protocols of the agents and the choice of
// protocol (agents/app_proto.c): echo, whose requests are one fixed message
// and whose replies are counted in messages; synthetic and rep-synth, whose
// requests carry one generated 8-byte value and whose replies are counted in
// 8-byte frames; and init_app_proto, which picks a protocol by the prefix of
// its name. The generated value, the drand48 draw, the result of atoi and
// atof on the name's fields and the outcome of the distribution and HTTP
// set-up are inputs.

module AppProto {
  import opened Common
  import opened Bytes
  import opened WorkerStats
  import opened AppCommon
  import Redis
  import Memcache

  // ---------------------------------------------------------------------
  // Replies in fixed-size frames

  /** The count of a reply stream made of size-byte frames: as many whole
      frames as len bytes hold. A frame size of 0 is a division by zero. */
  function FixedConsume(len: nat, size: nat): (r: Consumed)
    ensures r.Done? <==> size > 0
    ensures r.Done? ==> r.brp.bytes == r.brp.reqs * size && r.brp.bytes <= len < r.brp.bytes + size
  {
    if size == 0 then Abort else Done(ByteReqPair(len / size * size, len / size))
  }

  /** echo_consume_response counts replies in messages of the fixed length. */
  function EchoConsume(len: nat, message: seq<byte>): (r: Consumed)
    ensures r.Done? <==> |message| > 0
    ensures r.Done? ==> r.brp.bytes == r.brp.reqs * |message| && r.brp.bytes <= len < r.brp.bytes + |message|
  {
    FixedConsume(len, |message|)
  }

  /** sizeof(long) */
  const LONG_SIZE: nat := 8

  /** synthetic_consume_response counts replies in 8-byte frames. */
  function SyntheticConsume(len: nat): (r: Consumed)
    ensures r.Done? && r.brp.bytes == r.brp.reqs * LONG_SIZE && r.brp.bytes <= len < r.brp.bytes + LONG_SIZE
  {
    FixedConsume(len, LONG_SIZE)
  }

  /** k whole frames and a part of one more count exactly the k frames. */
  lemma FixedFramesCounted(k: nat, tail: nat, size: nat)
    requires tail < size
    ensures FixedConsume(k * size + tail, size) == Done(ByteReqPair(k * size, k))
  {
    ModUnique(k * size + tail, k, tail, size);
  }

  /** k copies of the message, as the echo server sends them back. */
  function Echoes(message: seq<byte>, k: nat): (r: seq<seq<byte>>)
    ensures |r| == k
  {
    seq(k, _ => message)
  }

  /** Frames of one size flatten to their number times that size. */
  lemma {:induction false} FramesLength(fs: seq<seq<byte>>, size: nat)
    requires forall i :: 0 <= i < |fs| ==> |fs[i]| == size
    ensures |Flatten(fs)| == |fs| * size
  {
    if fs != [] {
      FramesLength(fs[1..], size);
      assert |Flatten(fs)| == size + (|fs| - 1) * size;
    }
  }

  /** The echoes of k requests followed by part of the next one count as
      k replies of k messages' bytes. */
  lemma EchoRepliesCounted(message: seq<byte>, k: nat, partial: nat)
    requires partial < |message|
    ensures EchoConsume(|Flatten(Echoes(message, k)) + message[..partial]|, message)
            == Done(ByteReqPair(|Flatten(Echoes(message, k))|, k))
  {
    FramesLength(Echoes(message, k), |message|);
    FixedFramesCounted(k, partial, |message|);
  }

  /** k replies of 8 bytes followed by part of the next one count as k
      replies. */
  lemma SyntheticRepliesCounted(replies: seq<seq<byte>>, partial: nat)
    requires forall i :: 0 <= i < |replies| ==> |replies[i]| == LONG_SIZE
    requires partial < LONG_SIZE
    ensures SyntheticConsume(|Flatten(replies)| + partial)
            == Done(ByteReqPair(|Flatten(replies)|, |replies|))
  {
    FramesLength(replies, LONG_SIZE);
    FixedFramesCounted(|replies|, partial, LONG_SIZE);
  }

  // ---------------------------------------------------------------------
  // Requests

  /** echo_create_request: the one iovec is the protocol's fixed message,
      and meta is NULL. */
  method EchoCreateRequest(req: Request, message: seq<byte>)
    requires req.Valid()
    modifies req, req.iovs
    ensures req.Valid()
    ensures req.InUse() == [message] && req.meta == 0
  {
    req.iovs[0] := message;
    req.iovCnt := 1;
    req.meta := 0;
  }

  /** The bytes of the long the synthetic request points at, in the
      agent's (little-endian) order. */
  function Payload(value: int): (p: seq<byte>)
    requires -TWO_63 <= value < TWO_63
    ensures |p| == LONG_SIZE
  {
    Pow256Values();
    EncodeLE(U64(value), LONG_SIZE)
  }

  /** The server reads back the long the agent generated. */
  lemma PayloadReadBack(value: int)
    requires -TWO_63 <= value < TWO_63
    ensures I64(DecodeLE(Payload(value))) == value
  {
    Pow256Values();
    DecodeEncodeLE(U64(value), LONG_SIZE);
  }

  /** synthetic_create_request for the value lround(generate()) gave:
      one 8-byte iovec holding it, and meta NULL. */
  method SyntheticCreateRequest(req: Request, value: int)
    requires req.Valid()
    requires -TWO_63 <= value < TWO_63
    modifies req, req.iovs
    ensures req.Valid()
    ensures req.InUse() == [Payload(value)] && req.meta == 0
  {
    req.iovs[0] := Payload(value);
    req.iovCnt := 1;
    req.meta := 0;
  }

  /** The route a rep-synth request asks for: 3 (replicated, no side
      effects) when the draw times 100 is at most the configured
      percentage, 2 otherwise. */
  function RepSynthRoute(draw: real, percent: int): (route: nat)
    ensures route == 2 || route == 3
  {
    if draw * 100.0 <= percent as real then 3 else 2
  }

  /** With a drand48 draw in [0, 1), a percentage of 100 or more always
      asks for route 3, a negative one never, and a larger percentage asks
      for it whenever a smaller one does. */
  lemma RouteByPercent(draw: real, percent: int, larger: int)
    requires 0.0 <= draw < 1.0 && percent <= larger
    ensures percent >= 100 ==> RepSynthRoute(draw, percent) == 3
    ensures percent < 0 ==> RepSynthRoute(draw, percent) == 2
    ensures RepSynthRoute(draw, percent) == 3 ==> RepSynthRoute(draw, larger) == 3
  {
  }

  /** rep_synth_create_request for the generated value and the drand48
      draw: the synthetic payload, routed by the percentage. */
  method RepSynthCreateRequest(req: Request, value: int, draw: real, percent: int)
    requires req.Valid()
    requires -TWO_63 <= value < TWO_63
    modifies req, req.iovs
    ensures req.Valid()
    ensures req.InUse() == [Payload(value)]
    ensures req.meta == RepSynthRoute(draw, percent)
  {
    req.iovs[0] := Payload(value);
    req.iovCnt := 1;
    if draw * 100.0 <= percent as real {
      req.meta := 3;
    } else {
      req.meta := 2;
    }
  }

  /** Storing a double in a long drops its fraction (toward zero). */
  function Truncate(x: real): (n: int)
    ensures 0.0 <= x ==> n as real <= x < n as real + 1.0
    ensures x < 0.0 ==> n as real - 1.0 < x <= n as real
  {
    if 0.0 <= x then x.Floor else -((-x).Floor)
  }

  // ---------------------------------------------------------------------
  // Choosing the protocol

  datatype AppProtocol =
    | Echo(message: seq<byte>)
    | Synthetic
    | RepSynthetic(percent: int)
    | RedisProto(redis: Redis.RedisKind)
    | MemcacheProto(memcache: Memcache.MemcacheKind)
    | Http
      /** A protocol whose type and callbacks were never set. */
    | Unset

  /** What init_app_proto ends with: a protocol, NULL, or an assert that
      fired on the way. */
  datatype Init = Ready(app: AppProtocol) | NoProtocol | InitAborts

  /** The outcomes of the steps of set-up that are not part of this model:
      atoi of the echo message length, whether init_rand accepted the
      distribution, atof of the rep-synth percentage, and whether the HTTP
      set-up succeeded. */
  datatype InitArgs = InitArgs(messageLen: int, genOk: bool, percent: real, httpOk: bool)

  /** One of the prefixes init_app_proto knows. */
  predicate Known(proto: string)
  {
    "echo" <= proto || "synthetic" <= proto || "redis" <= proto || "memcache" <= proto
    || "http" <= proto || "rep-synth" <= proto
  }

  /** echo_init: a message of messageLen '#' bytes; a negative length makes
      its allocation fail the assert. */
  function EchoInit(messageLen: int): (r: Init)
    ensures r.InitAborts? <==> messageLen < 0
    ensures r.Ready? ==> r.app.Echo? && |r.app.message| == messageLen &&
                         forall i :: 0 <= i < |r.app.message| ==> r.app.message[i] == 35
  {
    if messageLen < 0 then InitAborts else Ready(Echo(Repeat(35, messageLen)))
  }

  /** synthetic_init for "synthetic..." and "rep-synth...": it asserts
      that the distribution was accepted; rep-synth keeps the percentage
      truncated to a long. */
  function SyntheticInit(rep: bool, args: InitArgs): (r: Init)
    ensures r.InitAborts? <==> !args.genOk
    ensures r.Ready? ==> (rep ==> r.app == RepSynthetic(Truncate(args.percent))) && (!rep ==> r.app == Synthetic)
  {
    if !args.genOk then InitAborts
    else if rep then Ready(RepSynthetic(Truncate(args.percent)))
    else Ready(Synthetic)
  }

  /** init_app_proto as written: the return value of memcache_init is not
      looked at, so a "memcache-" name it rejects yields a protocol that was
      never set up. A "memcache" name without the dash fails memcache_init's
      assert. */
  function InitAppProtoAsWritten(proto: string, args: InitArgs): (r: Init)
    ensures !Known(proto) ==> r == NoProtocol
  {
    if "echo" <= proto then EchoInit(args.messageLen)
    else if "synthetic" <= proto then SyntheticInit(false, args)
    else if "redis" <= proto then Ready(RedisProto(Redis.RedisInit(proto)))
    else if "memcache" <= proto then
      if !("memcache-" <= proto) then InitAborts
      else
        match Memcache.MemcacheInit(proto)
        case Some(k) => Ready(MemcacheProto(k))
        case None => Ready(Unset)
    else if "http" <= proto then
      if args.httpOk then Ready(Http) else NoProtocol
    else if "rep-synth" <= proto then SyntheticInit(true, args)
    else NoProtocol
  }

  /** A "memcache-" name with neither "bin" nor "ascii" after the dash. */
  predicate BadMemcacheName(proto: string)
  {
    "memcache-" <= proto && !("memcache-bin" <= proto) && !("memcache-ascii" <= proto)
  }

  /** init_app_proto with memcache_init's failure passed on as NULL, like
      the HTTP set-up's. */
  function InitAppProto(proto: string, args: InitArgs): (r: Init)
    ensures r.Ready? ==> r.app != Unset
    ensures r == NoProtocol <==>
              !Known(proto) || ("http" <= proto && !args.httpOk) || BadMemcacheName(proto)
  {
    PrefixesExclusive(proto);
    if "echo" <= proto then EchoInit(args.messageLen)
    else if "synthetic" <= proto then SyntheticInit(false, args)
    else if "redis" <= proto then Ready(RedisProto(Redis.RedisInit(proto)))
    else if "memcache" <= proto then
      if !("memcache-" <= proto) then InitAborts
      else
        match Memcache.MemcacheInit(proto)
        case Some(k) => Ready(MemcacheProto(k))
        case None => NoProtocol
    else if "http" <= proto then
      if args.httpOk then Ready(Http) else NoProtocol
    else if "rep-synth" <= proto then SyntheticInit(true, args)
    else NoProtocol
  }

  /** No name starts with two of the six prefixes, so the order in which
      init_app_proto tries them does not matter. */
  lemma PrefixesExclusive(proto: string)
    ensures "echo" <= proto ==> !("synthetic" <= proto || "redis" <= proto || "memcache" <= proto || "http" <= proto || "rep-synth" <= proto)
    ensures "synthetic" <= proto ==> !("redis" <= proto || "memcache" <= proto || "http" <= proto || "rep-synth" <= proto)
    ensures "redis" <= proto ==> !("memcache" <= proto || "http" <= proto || "rep-synth" <= proto)
    ensures "memcache" <= proto ==> !("http" <= proto || "rep-synth" <= proto)
    ensures "http" <= proto ==> !("rep-synth" <= proto)
  {
    if |proto| >= 1 {
      assert "echo"[0] != "synthetic"[0];
    }
    if "redis" <= proto {
      assert "redis"[2] == proto[2];
      assert "rep-synth"[2] != "redis"[2];
    }
  }

  /** The two agree except on a "memcache-" name memcache_init rejects,
      where the code as written returns a protocol that was never set. */
  lemma MemcacheFailureIgnored(proto: string, args: InitArgs)
    ensures BadMemcacheName(proto) ==>
              InitAppProtoAsWritten(proto, args) == Ready(Unset) && InitAppProto(proto, args) == NoProtocol
    ensures !BadMemcacheName(proto) ==> InitAppProtoAsWritten(proto, args) == InitAppProto(proto, args)
  {
    if BadMemcacheName(proto) {
      assert "memcache" <= proto;
      PrefixesExclusive(proto);
    }
  }

  /** With "memcache-get_fixed:10_fixed:2_100_0.9_uni", whose distributions
      memcache_init reads without failing, the code as written returns a
      protocol that was never set up. */
  lemma MemcacheGetIsUnset(args: InitArgs)
    ensures InitAppProtoAsWritten("memcache-get_fixed:10_fixed:2_100_0.9_uni", args) == Ready(Unset)
  {
    var p := "memcache-get_fixed:10_fixed:2_100_0.9_uni";
    assert p[9] != "memcache-bin"[9] && p[9] != "memcache-ascii"[9];
    MemcacheFailureIgnored(p, args);
  }
}
