/**
 * The enrolment audit ring: 32 slots overwritten in turn, a head index and a
 * 32-bit running total, against the unbounded log of every event recorded.
 */
module Audit {
  import opened Words

  const CAPACITY: nat := 32
  const EVENT_LEN: nat := 12

  type U32 = n: nat | n < U32_LIMIT
  type Prefix = s: seq<byte> | |s| == 4 witness [0, 0, 0, 0]

  datatype Event = Event(number: U32, slot: byte, result: byte, kind: byte, pad: byte, prefix: Prefix)

  const BLANK := Event(0, 0, 0, 0, 0, [0, 0, 0, 0])

  /** The log after one more event, which is numbered by the wrapping total. */
  function Recorded(log: seq<Event>, slot: byte, result: byte, kind: byte, prefix: Prefix): seq<Event> {
    log + [Event(|log| % U32_LIMIT, slot, result, kind, 0, prefix)]
  }

  ghost predicate Numbered(log: seq<Event>) {
    forall k | 0 <= k < |log| :: log[k].number == k % U32_LIMIT
  }

  /** How many events a snapshot can report after `n` recordings. */
  function Reported(n: nat): (v: nat)
    ensures v <= CAPACITY && v <= n
  {
    Min(n % U32_LIMIT, CAPACITY)
  }

  function Recent(log: seq<Event>, v: nat): (s: seq<Event>)
    requires v <= |log|
    ensures |s| == v
  {
    log[|log| - v..]
  }

  /** A snapshot into room for `room` events: the oldest of the reported ones first. */
  function Snapshot(log: seq<Event>, room: nat): (s: seq<Event>)
    ensures |s| == Min(Reported(|log|), room)
  {
    Recent(log, Reported(|log|))[..Min(Reported(|log|), room)]
  }

  /** A full snapshot holds every event the ring still stores, except just after the total has wrapped. */
  lemma SnapshotComplete(log: seq<Event>)
    ensures Snapshot(log, CAPACITY) == Recent(log, Min(|log|, CAPACITY))
       <==> |log| < U32_LIMIT || |log| % U32_LIMIT >= CAPACITY
  {
    var whole := Recent(log, Min(|log|, CAPACITY));
    if |log| < U32_LIMIT || |log| % U32_LIMIT >= CAPACITY {
      assert Reported(|log|) == Min(|log|, CAPACITY);
      assert Snapshot(log, CAPACITY) == whole;
    } else {
      assert |Snapshot(log, CAPACITY)| < |whole|;
    }
  }

  /** Until the total wraps, snapshot numbers are consecutive and end just below the total. */
  lemma SnapshotNumbers(log: seq<Event>, i: nat)
    requires Numbered(log) && |log| < U32_LIMIT && i < |Snapshot(log, CAPACITY)|
    ensures Snapshot(log, CAPACITY)[i].number + |Snapshot(log, CAPACITY)| == |log| + i
  {
    assert Snapshot(log, CAPACITY)[i] == log[|log| - Reported(|log|) + i];
  }

  // ---------------------------------------------------------------------
  // Serialised events
  // ---------------------------------------------------------------------

  function EncodeEvent(e: Event): (b: seq<byte>)
    ensures |b| == EVENT_LEN
  {
    Le32(e.number) + [e.slot, e.result, e.kind, e.pad] + e.prefix
  }

  function DecodeEvent(b: seq<byte>, o: nat): Event
    requires o + EVENT_LEN <= |b|
  {
    Event(U32At(b, o), b[o + 4], b[o + 5], b[o + 6], b[o + 7], b[o + 8..o + 12])
  }

  lemma EventRoundTrip(b: seq<byte>, o: nat, e: Event)
    requires o + EVENT_LEN <= |b| && b[o..o + EVENT_LEN] == EncodeEvent(e)
    ensures DecodeEvent(b, o) == e
  {
    var x := b[o..o + EVENT_LEN];
    assert b[o..o + 4] == x[..4] == Le32(e.number);
    Le32At(b, o, e.number);
    assert x[4] == e.slot && x[5] == e.result && x[6] == e.kind && x[7] == e.pad;
    assert b[o + 8..o + 12] == x[8..] == e.prefix;
  }

  function EncodeEvents(s: seq<Event>): (b: seq<byte>)
    ensures |b| == EVENT_LEN * |s|
  {
    if s == [] then [] else EncodeEvents(s[..|s| - 1]) + EncodeEvent(s[|s| - 1])
  }

  function DecodeEvents(b: seq<byte>, o: nat, n: nat): seq<Event>
    requires o + EVENT_LEN * n <= |b|
  {
    seq(n, i requires 0 <= i < n => DecodeEvent(b, o + EVENT_LEN * i))
  }

  lemma {:induction false} EventsRoundTrip(b: seq<byte>, o: nat, s: seq<Event>)
    requires o + EVENT_LEN * |s| <= |b| && b[o..o + EVENT_LEN * |s|] == EncodeEvents(s)
    ensures DecodeEvents(b, o, |s|) == s
  {
    if s != [] {
      var n := |s| - 1;
      TwoParts(b, o, EncodeEvents(s[..n]), EncodeEvent(s[n]));
      EventsRoundTrip(b, o, s[..n]);
      EventRoundTrip(b, o + EVENT_LEN * n, s[n]);
      assert DecodeEvents(b, o, |s|) == DecodeEvents(b, o, n) + [s[n]];
      assert s == s[..n] + [s[n]];
    }
  }

  /** The wire form of a snapshot: count, total, two reserved bytes, then the events. */
  const STATUS_HEADER: nat := 8

  function EncodeStatus(s: seq<Event>, total: U32): (b: seq<byte>)
    requires |s| <= CAPACITY
    ensures |b| == STATUS_HEADER + EVENT_LEN * |s|
  {
    Le16(|s|) + Le32(total) + [0, 0] + EncodeEvents(s)
  }

  lemma StatusRoundTrip(s: seq<Event>, total: U32)
    requires |s| <= CAPACITY
    ensures var b := EncodeStatus(s, total);
      U16At(b, 0) == |s| && U32At(b, 2) == total && DecodeEvents(b, STATUS_HEADER, |s|) == s
  {
    var b := EncodeStatus(s, total);
    assert b[0..2] == Le16(|s|);
    assert b[2..6] == Le32(total);
    assert b[8..8 + EVENT_LEN * |s|] == EncodeEvents(s);
    Le16At(b, 0, |s|);
    Le32At(b, 2, total);
    EventsRoundTrip(b, 8, s);
  }

  // ---------------------------------------------------------------------
  // The ring itself
  // ---------------------------------------------------------------------

  /** The slots hold the most recent events, each at its index modulo the capacity. */
  ghost predicate Mirrors(slots: seq<Event>, log: seq<Event>) {
    |slots| == CAPACITY && forall k | 0 <= k < |log| && |log| <= k + CAPACITY :: slots[k % CAPACITY] == log[k]
  }

  lemma RingIndex(n: nat, start: nat, held: nat, i: nat)
    requires held == Reported(n) && i < held
    requires start == if n % U32_LIMIT > CAPACITY then n % CAPACITY else 0
    ensures (start + i) % CAPACITY == (n - held + i) % CAPACITY
  {
    if n % U32_LIMIT > CAPACITY {
      Turns(n % CAPACITY + i, n / CAPACITY - 1);
    } else {
      Turns(i, 0x800_0000 * (n / U32_LIMIT));
    }
  }

  /** Whole turns of the ring do not move an index. */
  lemma Turns(i: nat, q: nat)
    ensures i % CAPACITY == (i + CAPACITY * q) % CAPACITY
  {
  }

  lemma Successor(n: nat)
    ensures (n % CAPACITY + 1) % CAPACITY == (n + 1) % CAPACITY
    ensures (n % U32_LIMIT + 1) % U32_LIMIT == (n + 1) % U32_LIMIT
  {
    assert n + 1 == CAPACITY * (n / CAPACITY) + (n % CAPACITY + 1);
    assert n + 1 == U32_LIMIT * (n / U32_LIMIT) + (n % U32_LIMIT + 1);
  }

  lemma MirrorsNext(slots: seq<Event>, log: seq<Event>, e: Event)
    requires Mirrors(slots, log)
    ensures Mirrors(slots[|log| % CAPACITY := e], log + [e])
  {
    forall k | 0 <= k < |log| + 1 && |log| + 1 <= k + CAPACITY
      ensures slots[|log| % CAPACITY := e][k % CAPACITY] == (log + [e])[k]
    {
      assert k < |log| ==> k % CAPACITY != |log| % CAPACITY;
    }
  }

  /** Where the ring keeps the `i`-th of the `held` most recent events. */
  lemma MirrorsRead(slots: seq<Event>, log: seq<Event>, start: nat, held: nat, i: nat)
    requires Mirrors(slots, log) && held == Reported(|log|) && i < held
    requires start == if |log| % U32_LIMIT > CAPACITY then |log| % CAPACITY else 0
    ensures slots[(start + i) % CAPACITY] == Recent(log, held)[i]
  {
    RingIndex(|log|, start, held, i);
    var k := |log| - held + i;
    assert slots[k % CAPACITY] == log[k];
  }

  /** The slot `i` places after `start`, going round. */
  ghost function Turned(slots: seq<Event>, start: nat, i: nat): Event
    requires |slots| == CAPACITY
  {
    slots[(start + i) % CAPACITY]
  }

  lemma MirrorsReads(slots: seq<Event>, log: seq<Event>, start: nat, held: nat)
    requires Mirrors(slots, log) && held == Reported(|log|)
    requires start == if |log| % U32_LIMIT > CAPACITY then |log| % CAPACITY else 0
    ensures forall i | 0 <= i < held :: Turned(slots, start, i) == Recent(log, held)[i]
  {
    forall i | 0 <= i < held ensures Turned(slots, start, i) == Recent(log, held)[i] {
      MirrorsRead(slots, log, start, held, i);
    }
  }

  class AuditRing {
    const events: array<Event>
    var head: nat
    var total: U32
    ghost var log: seq<Event>

    ghost predicate Valid()
      reads this, events
    {
      && events.Length == CAPACITY
      && head == |log| % CAPACITY
      && total == |log| % U32_LIMIT
      && Numbered(log)
      && Mirrors(events[..], log)
    }

    constructor ()
      ensures Valid() && fresh(events) && log == []
    {
      events := new Event[CAPACITY](_ => BLANK);
      head, total, log := 0, 0, [];
    }

    method Enqueue(slot: byte, result: byte, kind: byte, prefix: Prefix)
      requires Valid()
      modifies this, events
      ensures Valid() && log == Recorded(old(log), slot, result, kind, prefix)
    {
      var e := Event(total, slot, result, kind, 0, prefix);
      MirrorsNext(events[..], log, e);
      events[head % CAPACITY] := e;
      assert events[..] == old(events[..])[|log| % CAPACITY := e];
      Successor(|log|);
      head := (head + 1) % CAPACITY;
      total := (total + 1) % U32_LIMIT;
      log := Recorded(log, slot, result, kind, prefix);
    }

    method CopyOut(out: array<Event>, start: nat, n: nat, ghost want: seq<Event>)
      requires events.Length == CAPACITY && out != events && n <= |want| && n <= out.Length
      requires forall i | 0 <= i < |want| :: Turned(events[..], start, i) == want[i]
      modifies out
      ensures out[..n] == want[..n] && out[n..] == old(out[n..])
    {
      for i := 0 to n
        invariant forall k | 0 <= k < i :: out[k] == want[k]
        invariant forall k | i <= k < out.Length :: out[k] == old(out[k])
      {
        out[i] := events[(start + i) % CAPACITY];
        assert events[..][(start + i) % CAPACITY] == Turned(events[..], start, i);
      }
    }

    /** Copies the oldest reported events first; the rest of `out` is left alone. */
    method TakeSnapshot(out: array<Event>) returns (n: nat, count: U32)
      requires Valid() && out != events
      modifies out
      ensures Valid() && count == |log| % U32_LIMIT
      ensures n == |Snapshot(log, out.Length)| && n <= out.Length && out[..n] == Snapshot(log, out.Length)
      ensures out[n..] == old(out[n..])
    {
      var room := Min(out.Length, CAPACITY);
      var held := Min(total, CAPACITY);
      var start := if total > CAPACITY then head else 0;
      n := Min(held, room);
      MirrorsReads(events[..], log, start, held);
      CopyOut(out, start, n, Recent(log, held));
      count := total;
    }

    /** The wire status payload decodes back to a full snapshot. */
    method StatusPayload() returns (p: seq<byte>)
      requires Valid()
      ensures p == EncodeStatus(Snapshot(log, CAPACITY), |log| % U32_LIMIT)
    {
      var local := new Event[CAPACITY](_ => BLANK);
      var n, count := TakeSnapshot(local);
      p := StageStatus(local[..n], count);
    }
  }

  /** Count and total over the zeros of a new buffer; two bytes stay reserved. */
  method StageHead(staging: array<byte>, n: nat, count: U32)
    requires n < U16_LIMIT && staging.Length >= STATUS_HEADER && forall i | 0 <= i < staging.Length :: staging[i] == 0
    modifies staging
    ensures staging[..] == Le16(n) + Le32(count) + [0, 0] + Zeros(staging.Length - STATUS_HEADER)
  {
    CopyInto(staging, 0, Le16(n));
    CopyInto(staging, 2, Le32(count));
    ghost var want := Le16(n) + Le32(count) + [0, 0] + Zeros(staging.Length - STATUS_HEADER);
    forall i | 0 <= i < staging.Length ensures staging[i] == want[i] {
      if i < 2 {
        assert staging[..][i] == Le16(n)[i];
      } else if i < 6 {
        assert staging[..][i] == Le32(count)[i - 2];
      }
    }
  }

  method StageStatus(s: seq<Event>, count: U32) returns (p: seq<byte>)
    requires |s| <= CAPACITY
    ensures p == EncodeStatus(s, count)
  {
    var staging := new byte[STATUS_HEADER + CAPACITY * EVENT_LEN](_ => 0);
    StageHead(staging, |s|, count);
    ghost var front := Le16(|s|) + Le32(count) + [0, 0];
    ghost var before := staging[..];
    WriteEvents(staging, STATUS_HEADER, s);
    Overlaid(front, CAPACITY * EVENT_LEN, EncodeEvents(s), before, staging[..]);
    p := staging[..STATUS_HEADER + |s| * EVENT_LEN];
  }

  method WriteEvent(staging: array<byte>, at: nat, e: Event)
    requires at + EVENT_LEN <= staging.Length
    modifies staging
    ensures staging[..] == old(staging[..at]) + EncodeEvent(e) + old(staging[at + EVENT_LEN..])
  {
    ghost var was := staging[..];
    var tail := [e.slot, e.result, e.kind, e.pad];
    CopyInto(staging, at, Le32(e.number));
    ghost var first := staging[..];
    CopyInto(staging, at + 4, tail);
    ghost var second := staging[..];
    CopyInto(staging, at + 8, e.prefix);
    Adjacent(was, at, Le32(e.number), tail, first, second);
    Adjacent(was, at, Le32(e.number) + tail, e.prefix, second, staging[..]);
  }

  method WriteEvents(staging: array<byte>, o: nat, s: seq<Event>)
    requires o + EVENT_LEN * |s| <= staging.Length
    modifies staging
    ensures staging[..] == old(staging[..o]) + EncodeEvents(s) + old(staging[o + EVENT_LEN * |s|..])
  {
    ghost var was := staging[..];
    for i := 0 to |s|
      invariant staging[..] == was[..o] + EncodeEvents(s[..i]) + was[o + EVENT_LEN * i..]
    {
      ghost var mid := staging[..];
      WriteEvent(staging, o + EVENT_LEN * i, s[i]);
      Adjacent(was, o, EncodeEvents(s[..i]), EncodeEvent(s[i]), mid, staging[..]);
      assert s[..i + 1][..i] == s[..i];
    }
    assert s[..|s|] == s;
  }
}
