// What the application protocols of the agents share (inc/lancet/app_proto.h):
// the request a protocol fills in, a vector of at most MAX_IOVS byte
// strings sent with one writev, and the count a response parser returns.

module AppCommon {
  import opened Common
  import opened Bytes
  import opened WorkerStats

  const MAX_IOVS: nat := 64
  /** MAX_VAL_SIZE: the size of random_char, the filler of every value. */
  const MAX_VAL_SIZE: nat := 2 * 1024 * 1024
  /** init_app_proto fills random_char with 'x'. */
  const FILLER: byte := 120

  /** What consume_response reports: the bytes and replies it accounted
      for, or an assert that fired, or a read the code would make outside
      the response. */
  datatype Consumed = Done(brp: ByteReqPair) | Abort | OutOfBounds

  /** One more complete reply of n bytes in front of what the rest gives. */
  function Count(n: nat, rest: Consumed): (r: Consumed)
    ensures r.Done? <==> rest.Done?
    ensures r.Done? ==> r.brp == ByteReqPair(n + rest.brp.bytes, 1 + rest.brp.reqs)
  {
    match rest
    case Done(p) => Done(ByteReqPair(n + p.bytes, 1 + p.reqs))
    case Abort => Abort
    case OutOfBounds => OutOfBounds
  }

  /** What writev puts on the wire for a vector of buffers. */
  function Flatten(iovs: seq<seq<byte>>): (r: seq<byte>)
  {
    if iovs == [] then [] else iovs[0] + Flatten(iovs[1..])
  }

  lemma {:induction false} FlattenAppend(a: seq<seq<byte>>, b: seq<seq<byte>>)
    ensures Flatten(a + b) == Flatten(a) + Flatten(b)
  {
    if a != [] {
      assert (a + b)[1..] == a[1..] + b;
      FlattenAppend(a[1..], b);
      assert Flatten(a + b) == a[0] + Flatten(a[1..] + b);
    } else {
      assert a + b == b;
    }
  }

  /** n copies of b, as memset writes them. */
  function Repeat(b: byte, n: nat): (r: seq<byte>)
    ensures |r| == n
    ensures forall i :: 0 <= i < n ==> r[i] == b
  {
    if n == 0 then [] else Repeat(b, n - 1) + [b]
  }

  /** memchr: the offset of the first c (its meaning is MemchrSpec). */
  function Memchr(buf: seq<byte>, c: byte): (r: Option<nat>)
    ensures r.Some? ==> r.value < |buf|
  {
    MemchrFrom(buf, c, 0)
  }

  /** The scan of memchr from offset from on. */
  function MemchrFrom(buf: seq<byte>, c: byte, from: nat): (r: Option<nat>)
    requires from <= |buf|
    ensures r.Some? ==> from <= r.value < |buf|
    decreases |buf| - from
  {
    if from == |buf| then None
    else if buf[from] == c then Some(from)
    else MemchrFrom(buf, c, from + 1)
  }

  lemma {:induction false} MemchrFromSpec(buf: seq<byte>, c: byte, from: nat)
    requires from <= |buf|
    ensures var r := MemchrFrom(buf, c, from);
            (r.None? ==> forall i :: from <= i < |buf| ==> buf[i] != c) &&
            (r.Some? ==> buf[r.value] == c && forall i :: from <= i < r.value ==> buf[i] != c)
    decreases |buf| - from
  {
    if from < |buf| && buf[from] != c {
      MemchrFromSpec(buf, c, from + 1);
    }
  }

  /** memchr finds the first c, and None means there is none. */
  lemma MemchrSpec(buf: seq<byte>, c: byte)
    ensures Memchr(buf, c).None? <==> forall i :: 0 <= i < |buf| ==> buf[i] != c
    ensures Memchr(buf, c).Some? ==>
              var p := Memchr(buf, c).value;
              buf[p] == c && forall i :: 0 <= i < p ==> buf[i] != c
  {
    MemchrFromSpec(buf, c, 0);
  }

  /** The first c after a prefix free of it is found where it was put. */
  lemma MemchrAfter(pre: seq<byte>, c: byte, post: seq<byte>)
    requires forall i :: 0 <= i < |pre| ==> pre[i] != c
    ensures Memchr(pre + [c] + post, c) == Some(|pre|)
  {
    var buf := pre + [c] + post;
    MemchrSpec(buf, c);
    assert buf[|pre|] == c;
    assert forall i :: 0 <= i < |pre| ==> buf[i] == pre[i];
  }

  /** struct request: the iovec array a protocol fills and the number of
      entries in use, with the routing hint meta (NULL is 0). */
  class Request {
    const iovs: array<seq<byte>>
    var iovCnt: nat
    var meta: nat

    ghost predicate Valid()
      reads this
    {
      iovs.Length == MAX_IOVS && iovCnt <= MAX_IOVS
    }

    /** The buffers writev sends. */
    function InUse(): (r: seq<seq<byte>>)
      reads this, iovs
      requires Valid()
      ensures |r| == iovCnt
    {
      iovs[..iovCnt]
    }

    constructor()
      ensures Valid() && iovCnt == 0 && meta == 0 && fresh(iovs)
    {
      iovs := new seq<byte>[MAX_IOVS](_ => []);
      iovCnt, meta := 0, 0;
    }
  }
}
