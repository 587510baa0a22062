/** The 456-byte status reply: attached slots, then the recent audit events. */
module AirGap {
  import opened Words
  import opened Registry
  import opened HsmDevice
  import opened HsmRuns
  import Audit

  const ENTRY_LEN: nat := 8
  const HEADER_LEN: nat := 8
  const ENTRIES_LEN: nat := 64
  const EVENTS_LEN: nat := STATUS_LEN - HEADER_LEN - ENTRIES_LEN

  /** One line of the slot listing. */
  datatype Info = Info(slot: byte, kind: byte, code: byte, prefix: Audit.Prefix)

  const UNUSED := Info(0xFF, 0, 0, [0, 0, 0, 0])

  function BusOctet(b: Bus): byte {
    match b
    case NoBus => 0
    case Software(_) => 0
    case Ring3(_) => 1
    case Stub(k) => Octet(k)
  }

  function InfoOf(i: nat, s: Slot): Info
    requires i < SLOTS
  {
    Info(i as byte, BusOctet(s.bus), s.code, s.prefix)
  }

  /** The attached slots among the first `n`, in slot order. */
  function Listed(slots: Slots, n: nat): (l: seq<Info>)
    requires n <= SLOTS
    ensures |l| <= n
  {
    if n == 0 then []
    else if slots[n - 1].state.Attached? then Listed(slots, n - 1) + [InfoOf(n - 1, slots[n - 1])]
    else Listed(slots, n - 1)
  }

  /** The listing names exactly the attached slots it was asked about. */
  lemma {:induction false} ListedExactly(slots: Slots, n: nat, i: nat)
    requires i < n <= SLOTS
    ensures slots[i].state.Attached? && slots[i].bus.Software? ==> Info(i as byte, 0, slots[i].code, slots[i].prefix) in Listed(slots, n)
    ensures slots[i].state.Attached? && slots[i].bus.Ring3? ==> Info(i as byte, 1, slots[i].code, slots[i].prefix) in Listed(slots, n)
    ensures slots[i].state.Attached? ==> InfoOf(i, slots[i]) in Listed(slots, n)
    ensures !slots[i].state.Attached? ==> forall x | x in Listed(slots, n) :: x.slot as nat != i
  {
    if i < n - 1 {
      ListedExactly(slots, n - 1, i);
    } else {
      ListedBelow(slots, i);
    }
  }

  lemma {:induction false} ListedBelow(slots: Slots, n: nat)
    requires n <= SLOTS
    ensures forall x | x in Listed(slots, n) :: (x.slot as nat) < n
    ensures forall p, q | 0 <= p < q < |Listed(slots, n)| :: Listed(slots, n)[p].slot < Listed(slots, n)[q].slot
  {
    if n > 0 {
      ListedBelow(slots, n - 1);
      var l := Listed(slots, n - 1);
      assert forall p | 0 <= p < |l| :: l[p] in l;
    }
  }

  /** Lists into `out`; slots whose index is beyond its length are not looked at. */
  method Enumerate(r: HsmRegistry, out: array<Info>) returns (n: nat)
    requires r.Ready()
    modifies out
    ensures n == |Listed(r.slots, Min(out.Length, SLOTS))| && n <= out.Length
    ensures out[..n] == Listed(r.slots, Min(out.Length, SLOTS))
    ensures forall k | n <= k < out.Length :: out[k] == old(out[k])
  {
    n := 0;
    var limit := Min(out.Length, SLOTS);
    for i := 0 to limit
      invariant n == |Listed(r.slots, i)| && out[..n] == Listed(r.slots, i)
      invariant forall k | n <= k < out.Length :: out[k] == old(out[k])
    {
      assert r.Shows(i, r.slots[i]);
      var head := r.heads[i];
      if head.state.Attached? {
        out[n] := Info(i as byte, if head.variant.WireVariant? then 1 else 0, head.code, head.prefix);
        n := n + 1;
      }
    }
  }

  // ---------------------------------------------------------------------
  // Serialisation
  // ---------------------------------------------------------------------

  function EncodeInfo(x: Info): (b: seq<byte>)
    ensures |b| == ENTRY_LEN
  {
    [x.slot, x.kind, x.code, 0] + x.prefix
  }

  function DecodeInfo(b: seq<byte>, o: nat): Info
    requires o + ENTRY_LEN <= |b|
  {
    Info(b[o], b[o + 1], b[o + 2], b[o + 4..o + 8])
  }

  lemma InfoRoundTrip(b: seq<byte>, o: nat, x: Info)
    requires o + ENTRY_LEN <= |b| && b[o..o + ENTRY_LEN] == EncodeInfo(x)
    ensures DecodeInfo(b, o) == x
  {
    var y := b[o..o + ENTRY_LEN];
    assert y[0] == x.slot && y[1] == x.kind && y[2] == x.code;
    assert b[o + 4..o + 8] == y[4..] == x.prefix;
  }

  function EncodeInfos(s: seq<Info>): (b: seq<byte>)
    ensures |b| == ENTRY_LEN * |s|
  {
    if s == [] then [] else EncodeInfos(s[..|s| - 1]) + EncodeInfo(s[|s| - 1])
  }

  function DecodeInfos(b: seq<byte>, o: nat, n: nat): seq<Info>
    requires o + ENTRY_LEN * n <= |b|
  {
    seq(n, i requires 0 <= i < n => DecodeInfo(b, o + ENTRY_LEN * i))
  }

  lemma {:induction false} InfosRoundTrip(b: seq<byte>, o: nat, s: seq<Info>)
    requires o + ENTRY_LEN * |s| <= |b| && b[o..o + ENTRY_LEN * |s|] == EncodeInfos(s)
    ensures DecodeInfos(b, o, |s|) == s
  {
    if s != [] {
      var n := |s| - 1;
      TwoParts(b, o, EncodeInfos(s[..n]), EncodeInfo(s[n]));
      InfosRoundTrip(b, o, s[..n]);
      InfoRoundTrip(b, o + ENTRY_LEN * n, s[n]);
      assert DecodeInfos(b, o, |s|) == DecodeInfos(b, o, n) + [s[n]];
      assert s == s[..n] + [s[n]];
    }
  }

  /** Listing padded with unused entries to the eight of the reply. */
  function Padded(l: seq<Info>): (p: seq<Info>)
    requires |l| <= SLOTS
    ensures |p| == SLOTS
  {
    l + seq(SLOTS - |l|, _ => UNUSED)
  }

  function StatusBytes(slots: Slots, log: seq<Audit.Event>): (b: seq<byte>)
    ensures |b| == STATUS_LEN
  {
    var l, s := Listed(slots, SLOTS), Audit.Snapshot(log, Audit.CAPACITY);
    Le16(|l|) + Le16(|s|) + Le32(|log| % U32_LIMIT) + EncodeInfos(Padded(l)) + Audit.EncodeEvents(s)
    + Zeros(EVENTS_LEN - Audit.EVENT_LEN * |s|)
  }

  /** The reply decodes back to the attached slots in order and the audit snapshot. */
  lemma StatusDecodes(slots: Slots, log: seq<Audit.Event>)
    ensures var b := StatusBytes(slots, log);
      var l, s := Listed(slots, SLOTS), Audit.Snapshot(log, Audit.CAPACITY);
      && U16At(b, 0) == |l| && U16At(b, 2) == |s| && U32At(b, 4) == |log| % U32_LIMIT
      && DecodeInfos(b, HEADER_LEN, |l|) == l
      && DecodeInfos(b, HEADER_LEN, SLOTS) == Padded(l)
      && Audit.DecodeEvents(b, HEADER_LEN + ENTRIES_LEN, |s|) == s
      && (forall i | 0 <= i < 8 :: b[11 + 8 * i] == 0) && (forall i | 72 + 12 * |s| <= i < 456 :: b[i] == 0)
  {
    var b := StatusBytes(slots, log);
    var l, s := Listed(slots, SLOTS), Audit.Snapshot(log, Audit.CAPACITY);
    assert b[0..2] == Le16(|l|);
    assert b[2..4] == Le16(|s|);
    assert b[4..8] == Le32(|log| % U32_LIMIT);
    assert b[8..72] == EncodeInfos(Padded(l));
    assert b[72..72 + Audit.EVENT_LEN * |s|] == Audit.EncodeEvents(s);
    Le16At(b, 0, |l|);
    Le16At(b, 2, |s|);
    Le32At(b, 4, |log| % U32_LIMIT);
    InfosRoundTrip(b, HEADER_LEN, Padded(l));
    Audit.EventsRoundTrip(b, HEADER_LEN + ENTRIES_LEN, s);
    assert DecodeInfos(b, HEADER_LEN, |l|) == DecodeInfos(b, HEADER_LEN, SLOTS)[..|l|];
    InfosReserved(b, HEADER_LEN, Padded(l));
  }

  /** The fourth byte of every entry is zero. */
  lemma {:induction false} InfosReserved(b: seq<byte>, o: nat, s: seq<Info>)
    requires o + ENTRY_LEN * |s| <= |b| && b[o..o + ENTRY_LEN * |s|] == EncodeInfos(s)
    ensures forall i | 0 <= i < |s| :: b[o + 3 + 8 * i] == 0
  {
    if s != [] {
      var n := |s| - 1;
      TwoParts(b, o, EncodeInfos(s[..n]), EncodeInfo(s[n]));
      InfosReserved(b, o, s[..n]);
      assert b[o + 3 + 8 * n] == b[o + ENTRY_LEN * n..o + ENTRY_LEN * n + ENTRY_LEN][3] == 0;
    }
  }

  // ---------------------------------------------------------------------
  // The system call
  // ---------------------------------------------------------------------

  method WriteInfos(staging: array<byte>, o: nat, s: seq<Info>)
    requires o + ENTRY_LEN * |s| <= staging.Length
    modifies staging
    ensures staging[..] == old(staging[..o]) + EncodeInfos(s) + old(staging[o + ENTRY_LEN * |s|..])
  {
    ghost var was := staging[..];
    for i := 0 to |s|
      invariant staging[..] == was[..o] + EncodeInfos(s[..i]) + was[o + ENTRY_LEN * i..]
    {
      ghost var mid := staging[..];
      CopyInto(staging, o + ENTRY_LEN * i, EncodeInfo(s[i]));
      Adjacent(was, o, EncodeInfos(s[..i]), EncodeInfo(s[i]), mid, staging[..]);
      assert s[..i + 1][..i] == s[..i];
    }
    assert s[..|s|] == s;
  }

  method WriteHeader(staging: array<byte>, count: nat, written: nat, total: Audit.U32)
    requires count < U16_LIMIT && written < U16_LIMIT && staging.Length >= HEADER_LEN
    modifies staging
    ensures staging[..] == Le16(count) + Le16(written) + Le32(total) + old(staging[HEADER_LEN..])
  {
    CopyInto(staging, 0, Le16(count));
    CopyInto(staging, 2, Le16(written));
    CopyInto(staging, 4, Le32(total));
  }

  method StageSlots(r: HsmRegistry) returns (staging: array<byte>, count: nat)
    requires r.Ready()
    ensures fresh(staging) && count == |Listed(r.slots, SLOTS)|
    ensures staging.Length == STATUS_LEN
    ensures staging[HEADER_LEN..] == EncodeInfos(Padded(Listed(r.slots, SLOTS))) + Zeros(EVENTS_LEN)
  {
    var infos := new Info[SLOTS](_ => UNUSED);
    count := Enumerate(r, infos);
    PaddedParts(infos[..], count, Listed(r.slots, SLOTS));
    staging := StageInfos(infos[..]);
  }

  lemma PaddedParts(infos: seq<Info>, n: nat, l: seq<Info>)
    requires |infos| == SLOTS && n == |l| <= SLOTS && infos[..n] == l && forall k | n <= k < SLOTS :: infos[k] == UNUSED
    ensures infos == Padded(l)
  {
    forall k | 0 <= k < SLOTS ensures infos[k] == Padded(l)[k] {
      assert k < n ==> infos[k] == infos[..n][k];
    }
  }

  /** The slot entries after an empty header, the rest zero. */
  method StageInfos(infos: seq<Info>) returns (staging: array<byte>)
    requires |infos| == SLOTS
    ensures fresh(staging) && staging.Length == STATUS_LEN
    ensures staging[HEADER_LEN..] == EncodeInfos(infos) + Zeros(EVENTS_LEN)
  {
    staging := new byte[STATUS_LEN](_ => 0);
    ghost var before := staging[..];
    assert before[HEADER_LEN + ENTRIES_LEN..] == Zeros(EVENTS_LEN);
    WriteInfos(staging, HEADER_LEN, infos);
  }

  /** Writes the events over the zeros after the slot entries. */
  method StageEvents(staging: array<byte>, ghost front: seq<byte>, events: seq<Audit.Event>)
    requires |front| == HEADER_LEN + ENTRIES_LEN && |events| <= Audit.CAPACITY
    requires staging[..] == front + Zeros(EVENTS_LEN)
    modifies staging
    ensures staging[..] == front + Audit.EncodeEvents(events) + Zeros(EVENTS_LEN - Audit.EVENT_LEN * |events|)
  {
    ghost var before := staging[..];
    assert staging.Length == |before|;
    Audit.WriteEvents(staging, HEADER_LEN + ENTRIES_LEN, events);
    Overlaid(front, EVENTS_LEN, Audit.EncodeEvents(events), before, staging[..]);
  }

  lemma HeaderFirst(header: seq<byte>, infos: seq<byte>, rest: seq<byte>)
    ensures header + (infos + rest) == header + infos + rest
  {
  }

  /** The header and the events, once the slot entries are staged. */
  method FinishStatus(audit: Audit.AuditRing, staging: array<byte>, count: nat, ghost infos: seq<byte>)
    requires audit.Valid() && count < U16_LIMIT && |infos| == ENTRIES_LEN
    requires staging.Length == STATUS_LEN && staging[HEADER_LEN..] == infos + Zeros(EVENTS_LEN)
    modifies staging
    ensures var s := Audit.Snapshot(audit.log, Audit.CAPACITY);
      staging[..] == Le16(count) + Le16(|s|) + Le32(|audit.log| % U32_LIMIT) + infos + Audit.EncodeEvents(s)
                     + Zeros(EVENTS_LEN - Audit.EVENT_LEN * |s|)
  {
    var events := new Audit.Event[Audit.CAPACITY](_ => Audit.BLANK);
    var written, total := audit.TakeSnapshot(events);
    WriteHeader(staging, count, written, total);
    ghost var header := Le16(count) + Le16(written) + Le32(total);
    HeaderFirst(header, infos, Zeros(EVENTS_LEN));
    StageEvents(staging, header + infos, events[..written]);
  }

  /** Fills the staging buffer entry by entry and event by event. */
  method BuildStatus(r: HsmRegistry) returns (reply: seq<byte>)
    requires r.Ready()
    ensures reply == StatusBytes(r.slots, r.audit.log)
  {
    var staging, count := StageSlots(r);
    FinishStatus(r.audit, staging, count, EncodeInfos(Padded(Listed(r.slots, SLOTS))));
    reply := staging[..];
  }

  /** A short buffer is refused silently, a wrong token is refused and recorded. */
  method SysStatus(r: HsmRegistry, len: nat, token: nat, auditToken: nat, outIsUser: bool)
    returns (rax: Sys, reply: seq<byte>)
    requires r.Valid()
    modifies r.audit, r.audit.events
    ensures r.Valid() && r.slots == old(r.slots)
    ensures (r.Value(), rax) == HandleStatus(old(r.Value()), len, token, auditToken, outIsUser)
    ensures reply == if rax == Returned(0) then StatusBytes(r.slots, r.audit.log) else []
    ensures rax == SysDenied <==> len < 456 || token != auditToken
    ensures rax == Returned(0) <==> len >= 456 && token == auditToken && outIsUser
    ensures r.audit.log == old(r.audit.log)
      + if len >= 456 && token != auditToken
        then [Audit.Event(|old(r.audit.log)| % U32_LIMIT, 0xFF, 2, 0, 0, [0, 0, 0, 0])] else []
  {
    if len < STATUS_LEN {
      return SysDenied, [];
    }
    if token != auditToken {
      r.audit.Enqueue(0xFF, 2, 0, [0, 0, 0, 0]);
      return SysDenied, [];
    }
    if !outIsUser {
      return BadAddress, [];
    }
    reply := BuildStatus(r);
    rax := Returned(0);
  }
}
