// The per-connection ring of requests waiting for their transmit timestamp
// (agents/timestamping.c): sends are numbered by the running byte count
// (head), the kernel's timestamps are matched to them in order (tail), and
// the replies take them out (consumed). Reading the kernel's error queue
// is an input here: the sequence of readings recvmsg would return, None
// where it has nothing (or no timestamp) to give.

module Timestamping {
  import opened Common
  import opened Bytes
  import opened WorkerStats

  /** struct timestamp_info */
  datatype TimestampInfo = TimestampInfo(time: Timespec, optid: nat)

  /** The reading the matching uses: readings older than the slot at the
      tail (a resubmission) are skipped, and an empty read ends the search. */
  function Matched(readings: seq<Option<TimestampInfo>>, atTail: nat): (r: Option<TimestampInfo>)
    ensures r.Some? ==> Some(r.value) in readings && U32(r.value.optid + 1) >= atTail
  {
    if readings == [] || readings[0].None? then None
    else if U32(readings[0].value.optid + 1) < atTail then Matched(readings[1..], atTail)
    else readings[0]
  }

  /** What get_tx_timestamp returns, 0 or 1, or PastHead where its stamping
      walk reaches the head (see PendingTx.StampUpTo). */
  datatype TxStamp = Returned(n: int) | PastHead

  /** The gaps add_tx_timestamp records over the first n stamps of a walk
      that gives every send the same time, the previous transmit timestamp
      being prev before the walk: the i-th call records its gap when its
      draw sampled(i) fires and timespec_diff succeeds. */
  function WalkGaps(time: Timespec, prev: Timespec, sampled: nat -> bool, n: nat): seq<Timespec>
  {
    if n == 0 then []
    else
      var gap := TimespecDiff(Some(time), Some(if n == 1 then prev else time));
      WalkGaps(time, prev, sampled, n - 1) + (if sampled(n - 1) && gap.Some? then [gap.value] else [])
  }

  /** A walk records at most one gap per stamp, and every gap but the
      first call's is zero: the sends after the first share its time. */
  lemma {:induction false} WalkGapsZeroAfterFirst(time: Timespec, prev: Timespec, sampled: nat -> bool, n: nat)
    ensures var gaps := WalkGaps(time, prev, sampled, n);
            |gaps| <= n &&
            forall i :: 0 <= i < |gaps| ==>
              Nanos(gaps[i]) == 0 || (i == 0 && Nanos(gaps[i]) == Nanos(time) - Nanos(prev))
  {
    if n > 0 {
      WalkGapsZeroAfterFirst(time, prev, sampled, n - 1);
      var rest := WalkGaps(time, prev, sampled, n - 1);
      var gaps := WalkGaps(time, prev, sampled, n);
      forall i | 0 <= i < |gaps|
        ensures Nanos(gaps[i]) == 0 || (i == 0 && Nanos(gaps[i]) == Nanos(time) - Nanos(prev))
      {
        if i < |rest| {
          assert gaps[i] == rest[i];
        } else if n == 1 {
          assert i == 0;
        }
      }
    }
  }

  /** Slot s of a ring of n slots is off a walk over the positions in
      [a, b): its distance round the ring from the slot of position a is
      at least the walk's length, so no position of the walk falls on it. */
  ghost predicate OffWalk(s: nat, a: nat, b: nat, n: nat)
    requires n > 0
  {
    (s - a) % n >= b - a
  }

  /** A slot off a walk is off the walk's first steps and is not the slot
      of its last position. */
  lemma OffWalkShrink(s: nat, a: nat, b: nat, n: nat)
    requires n > 0 && s < n && a <= b && OffWalk(s, a, b + 1, n)
    ensures OffWalk(s, a, b, n) && s != b % n
  {
    var d := b - a;
    assert 0 <= d < n;
    ModUnique(d, 0, d, n);
    WrapAdd(b, -(a as int), n);
    assert (b % n - a) % n == d;
    assert s != b % n;
  }

  /** struct pending_tx_timestamps; the unsigned wrap of head, tail and
      consumed is not modelled (their comparisons assume it never happens). */
  class PendingTx {
    var txByteCounter: nat
    var head: nat
    var tail: nat
    var consumed: nat
    const pending: array<TimestampInfo>

    ghost predicate Valid()
      reads this
    {
      pending.Length > 0 && txByteCounter < TWO_32 && consumed <= tail <= head
    }

    /** The ring of get_max_pending_reqs() slots, zeroed. */
    constructor(maxPending: nat)
      requires maxPending > 0
      ensures Valid() && fresh(pending) && pending.Length == maxPending
      ensures txByteCounter == 0 && head == 0 && tail == 0 && consumed == 0
    {
      txByteCounter, head, tail, consumed := 0, 0, 0, 0;
      pending := new TimestampInfo[maxPending](_ => TimestampInfo(ZERO_TIME, 0));
    }

    /** add_pending_tx_timestamp: the send's key is the byte count after it. */
    method AddPending(bytes: nat)
      requires Valid() && bytes < TWO_32
      modifies this, pending
      ensures Valid()
      ensures txByteCounter == U32(old(txByteCounter) + bytes)
      ensures head == old(head) + 1 && tail == old(tail) && consumed == old(consumed)
      ensures var slot := old(head) % pending.Length;
              pending[..] == old(pending[..])[slot := old(pending[slot]).(optid := txByteCounter)]
    {
      txByteCounter := U32(txByteCounter + bytes);
      var slot := head % pending.Length;
      pending[slot] := pending[slot].(optid := txByteCounter);
      head := head + 1;
    }

    /** pop_pending_tx_timestamps: the oldest stamped slot not yet taken, if any. */
    method Pop() returns (slot: Option<nat>)
      requires Valid()
      modifies this
      ensures Valid()
      ensures old(consumed) < old(tail) ==> slot == Some(old(consumed) % pending.Length) && consumed == old(consumed) + 1
      ensures old(consumed) >= old(tail) ==> slot == None && consumed == old(consumed)
      ensures head == old(head) && tail == old(tail) && txByteCounter == old(txByteCounter)
    {
      if consumed < tail {
        slot := Some(consumed % pending.Length);
        consumed := consumed + 1;
      } else {
        slot := None;
      }
    }

    /** push_complete_tx_timestamp: a send stamped in user space is pending
        and stamped at once, and the timestamp goes to the thread's stats. */
    method PushComplete(toAdd: Timespec, stats: ThreadStats, sampled: bool)
      requires Valid() && stats.Valid()
      modifies this, pending, stats, stats.txSamples
      ensures Valid() && stats.Valid()
      ensures head == old(head) + 1 && tail == old(tail) + 1 && consumed == old(consumed)
      ensures txByteCounter == old(txByteCounter)
      ensures var slot := old(tail) % pending.Length;
              pending[..] == old(pending[..])[slot := old(pending[slot]).(time := toAdd)]
      ensures stats.prevTxTimestamp == toAdd
      ensures var gap := TimespecDiff(Some(toAdd), Some(old(stats.prevTxTimestamp)));
              stats.txGaps == old(stats.txGaps) + (if sampled && gap.Some? then [gap.value] else [])
      ensures stats.rx == old(stats.rx) && stats.tx == old(stats.tx) && stats.latencies == old(stats.latencies)
      ensures stats.incIdx == old(stats.incIdx) && stats.txSampleSelector == old(stats.txSampleSelector)
    {
      var slot := tail % pending.Length;
      pending[slot] := pending[slot].(time := toAdd);
      head := head + 1;
      tail := tail + 1;
      stats.AddTxTimestamp(sampled, pending[slot].time);
    }

    /** The search of get_tx_timestamp: the first reading that is not a
        resubmission of sends already stamped, or None when the queue gives
        out first. */
    static method FindReading(readings: seq<Option<TimestampInfo>>, atTail: nat) returns (found: Option<TimestampInfo>)
      ensures found == Matched(readings, atTail)
    {
      var i := 0;
      found := None;
      while i < |readings|
        invariant 0 <= i <= |readings|
        invariant found.None? ==> Matched(readings, atTail) == Matched(readings[i..], atTail)
        invariant found.Some? ==> Matched(readings, atTail) == found
      {
        if readings[i].None? {
          break;
        }
        if U32(readings[i].value.optid + 1) < atTail {
          assert readings[i..][1..] == readings[i + 1..];
          i := i + 1;
        } else {
          found := readings[i];
          break;
        }
      }
    }

    /** The sends from t0 up to the new tail, at least one and none past
        the head, carry time and keys of at most key. */
    ghost predicate StampedFrom(t0: nat, time: Timespec, key: nat)
      reads this, pending
      requires Valid()
    {
      t0 < tail <= head &&
      (forall t :: t0 <= t < tail ==> pending[t % pending.Length].time == time) &&
      (forall t :: t0 <= t < tail ==> pending[t % pending.Length].optid <= key)
    }

    /** The walk ended as the C loop does: at the send keyed key, or before
        a slot keyed after key. */
    ghost predicate StoppedAt(key: nat)
      reads this, pending
      requires Valid() && tail > 0
    {
      pending[(tail - 1) % pending.Length].optid == key || pending[tail % pending.Length].optid > key
    }

    /** The walk reached the head with no send keyed key and the slot at the
        head, which holds no pending send, keyed at most key: the C loop
        would stamp it and take the tail past the head. */
    ghost predicate ReachedHead(t0: nat, key: nat)
      reads this, pending
      requires Valid()
    {
      tail == head && pending[head % pending.Length].optid <= key &&
      forall t :: t0 <= t < tail ==> pending[t % pending.Length].optid != key
    }

    /** The stamping loop of get_tx_timestamp: from the tail on, every
        pending send keyed at most key gets time, up to the one keyed
        exactly key; each stamp goes to add_tx_timestamp, the i-th with the
        draw sampled(i). pastHead is the walk reaching the head with the
        slot there keyed at most key, where the C loop goes on over slots
        that hold no pending send. */
    method StampUpTo(time: Timespec, key: nat, stats: ThreadStats, sampled: nat -> bool) returns (pastHead: bool)
      requires Valid() && stats.Valid()
      requires tail < head && pending[tail % pending.Length].optid <= key
      modifies this, pending, stats, stats.txSamples
      ensures Valid() && stats.Valid()
      ensures head == old(head) && consumed == old(consumed) && txByteCounter == old(txByteCounter)
      ensures StampedFrom(old(tail), time, key)
      ensures !pastHead ==> StoppedAt(key)
      ensures pastHead ==> ReachedHead(old(tail), key)
      ensures forall s :: 0 <= s < pending.Length ==> pending[s].optid == old(pending[s].optid)
      ensures forall s :: 0 <= s < pending.Length && OffWalk(s, old(tail), tail, pending.Length) ==>
                pending[s] == old(pending[s])
      ensures stats.prevTxTimestamp == time
      ensures stats.txGaps == old(stats.txGaps) + WalkGaps(time, old(stats.prevTxTimestamp), sampled, tail - old(tail))
      ensures stats.rx == old(stats.rx) && stats.tx == old(stats.tx) && stats.latencies == old(stats.latencies)
      ensures stats.incIdx == old(stats.incIdx) && stats.txSampleSelector == old(stats.txSampleSelector)
    {
      var t0 := tail;
      ghost var prev := stats.prevTxTimestamp;
      ghost var before := pending[..];
      var done := false;
      while !done && pending[tail % pending.Length].optid <= key
        invariant Valid() && stats.Valid()
        invariant t0 <= tail <= head && head == old(head) && consumed == old(consumed)
        invariant txByteCounter == old(txByteCounter)
        invariant tail == t0 ==> !done
        invariant forall t :: t0 <= t < tail ==> pending[t % pending.Length].time == time
        invariant forall t :: t0 <= t < tail ==> pending[t % pending.Length].optid <= key
        invariant forall s :: 0 <= s < pending.Length ==> pending[s].optid == old(pending[s].optid)
        invariant forall s :: 0 <= s < pending.Length && OffWalk(s, t0, tail, pending.Length) ==>
                    pending[s] == before[s]
        invariant done ==> pending[(tail - 1) % pending.Length].optid == key
        invariant !done ==> forall t :: t0 <= t < tail ==> pending[t % pending.Length].optid != key
        invariant stats.prevTxTimestamp == (if tail == t0 then prev else time)
        invariant stats.txGaps == old(stats.txGaps) + WalkGaps(time, prev, sampled, tail - t0)
        invariant stats.rx == old(stats.rx) && stats.tx == old(stats.tx) && stats.latencies == old(stats.latencies)
        invariant stats.incIdx == old(stats.incIdx) && stats.txSampleSelector == old(stats.txSampleSelector)
        decreases head - tail, !done
      {
        if tail == head {
          return true;
        }
        var stamped := StampTail(time, stats, sampled, t0, before, prev, old(stats.txGaps), key);
        if stamped == key {
          done := true;
        }
      }
      pastHead := false;
    }

    /** One step of the walk: the send at the tail gets time, which goes to
        add_tx_timestamp, and the tail moves past it; its key is returned. */
    method StampTail(time: Timespec, stats: ThreadStats, sampled: nat -> bool, t0: nat,
                     ghost before: seq<TimestampInfo>, ghost prev: Timespec, ghost gaps0: seq<Timespec>,
                     ghost bound: nat)
      returns (key: nat)
      requires Valid() && stats.Valid() && t0 <= tail < head && |before| == pending.Length
      requires stats.prevTxTimestamp == (if tail == t0 then prev else time)
      requires stats.txGaps == gaps0 + WalkGaps(time, prev, sampled, tail - t0)
      requires forall t :: t0 <= t < tail ==> pending[t % pending.Length].time == time
      requires forall s :: 0 <= s < pending.Length && OffWalk(s, t0, tail, pending.Length) ==> pending[s] == before[s]
      requires forall t :: t0 <= t < tail ==> pending[t % pending.Length].optid <= bound
      modifies this, pending, stats, stats.txSamples
      ensures Valid() && stats.Valid()
      ensures tail == old(tail) + 1 && head == old(head) && consumed == old(consumed)
      ensures txByteCounter == old(txByteCounter)
      ensures key == old(pending[tail % pending.Length].optid)
      ensures forall s :: 0 <= s < pending.Length ==> pending[s].optid == old(pending[s].optid)
      ensures forall s :: 0 <= s < pending.Length && s != old(tail) % pending.Length ==> pending[s] == old(pending[s])
      ensures forall t :: t0 <= t < tail ==> pending[t % pending.Length].time == time
      ensures forall s :: 0 <= s < pending.Length && OffWalk(s, t0, tail, pending.Length) ==> pending[s] == before[s]
      ensures stats.prevTxTimestamp == time
      ensures var gap := TimespecDiff(Some(time), Some(old(stats.prevTxTimestamp)));
              stats.txGaps == old(stats.txGaps) + (if sampled(old(tail) - t0) && gap.Some? then [gap.value] else [])
      ensures stats.txGaps == gaps0 + WalkGaps(time, prev, sampled, tail - t0)
      ensures key <= bound ==> forall t :: t0 <= t < tail ==> pending[t % pending.Length].optid <= bound
      ensures key == pending[(tail - 1) % pending.Length].optid
      ensures (forall t :: t0 <= t < old(tail) ==> pending[t % pending.Length].optid != bound) && key != bound ==>
                forall t :: t0 <= t < tail ==> pending[t % pending.Length].optid != bound
      ensures stats.rx == old(stats.rx) && stats.tx == old(stats.tx) && stats.latencies == old(stats.latencies)
      ensures stats.incIdx == old(stats.incIdx) && stats.txSampleSelector == old(stats.txSampleSelector)
    {
      var slot := tail % pending.Length;
      pending[slot] := pending[slot].(time := time);
      stats.AddTxTimestamp(sampled(tail - t0), time);
      tail := tail + 1;
      key := pending[slot].optid;
      forall s | 0 <= s < pending.Length && OffWalk(s, t0, tail, pending.Length)
        ensures pending[s] == before[s]
      {
        OffWalkShrink(s, t0, tail - 1, pending.Length);
      }
    }

    /** get_tx_timestamp: stamp the pending sends from the tail on with the
        first in-order reading, up to the send whose key follows the reported
        one; Returned(1) when a reading was used. sampled(i) is the 1% draw
        of the i-th add_tx_timestamp call. */
    method GetTxTimestamp(readings: seq<Option<TimestampInfo>>, stats: ThreadStats, sampled: nat -> bool)
      returns (r: TxStamp)
      requires Valid() && stats.Valid()
      modifies this, pending, stats, stats.txSamples
      ensures Valid() && stats.Valid()
      ensures head == old(head) && consumed == old(consumed) && txByteCounter == old(txByteCounter)
      ensures var m := Matched(readings, old(pending[tail % pending.Length].optid));
              r == Returned(0) <==> old(head) == old(tail) || m.None?
      ensures r == Returned(0) ==> tail == old(tail) && pending[..] == old(pending[..]) && stats.Rings() == old(stats.Rings())
      ensures r != Returned(0) ==>
                var m := Matched(readings, old(pending[tail % pending.Length].optid)).value;
                StampedFrom(old(tail), m.time, U32(m.optid + 1)) && stats.prevTxTimestamp == m.time &&
                stats.txGaps == old(stats.txGaps) + WalkGaps(m.time, old(stats.prevTxTimestamp), sampled, tail - old(tail)) &&
                (r == Returned(1) ==> StoppedAt(U32(m.optid + 1))) &&
                (r == PastHead ==> ReachedHead(old(tail), U32(m.optid + 1)))
      ensures r.Returned? ==> r.n in {0, 1}
      ensures forall s :: 0 <= s < pending.Length ==> pending[s].optid == old(pending[s].optid)
      ensures forall s :: 0 <= s < pending.Length && OffWalk(s, old(tail), tail, pending.Length) ==>
                pending[s] == old(pending[s])
      ensures stats.rx == old(stats.rx) && stats.tx == old(stats.tx) && stats.latencies == old(stats.latencies)
      ensures stats.incIdx == old(stats.incIdx) && stats.txSampleSelector == old(stats.txSampleSelector)
    {
      if head == tail {
        return Returned(0);
      }
      var found := FindReading(readings, pending[tail % pending.Length].optid);
      if found.None? {
        return Returned(0);
      }
      var pastHead := StampUpTo(found.value.time, U32(found.value.optid + 1), stats, sampled);
      r := if pastHead then PastHead else Returned(1);
    }
  }
}
