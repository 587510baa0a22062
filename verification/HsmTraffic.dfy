/** What requests and relays do to the buses: nesting, hash replies, bytes moved. */
module HsmTraffic {
  import opened Words
  import opened SoftBus
  import opened Registry
  import opened HsmSafety
  import opened HsmRuns
  import Wire
  import Audit

  // ---------------------------------------------------------------------
  // Requests that re-enter the registry
  // ---------------------------------------------------------------------

  /** How many wire requests one write dispatches, each inside the previous. */
  ghost function Nesting(w: World, i: nat, data: seq<byte>): nat
    requires i < SLOTS
    decreases |data|
  {
    if w.slots[i].bus.Ring3? && Idle(w.slots[i].bus.wire) && Wire.IsRequest(data)
    then 1 + Inner(w, Wire.ParseHeader(data), Wire.Payload(data))
    else 0
  }

  /** How many of them answering one request dispatches. */
  ghost function Inner(w: World, h: Wire.Header, payload: seq<byte>): nat
    decreases |payload|
  {
    if h.cmd == Wire.CMD_BLAKE3 && |payload| >= CAP_LEN && Authentic(w.slots, CapOf(payload), USE)
    then Nesting(w, CapOf(payload).slot, payload[CAP_LEN..])
    else 0
  }

  /** How many requests the log shows taken. */
  ghost function Tooks(log: seq<Note>): nat {
    if log == [] then 0 else Tooks(log[..|log| - 1]) + if log[|log| - 1].Took? then 1 else 0
  }

  lemma TooksNext(log: seq<Note>, n: Note)
    ensures Tooks(log + [n]) == Tooks(log) + if n.Took? then 1 else 0
  {
    assert (log + [n])[..|log|] == log;
  }

  lemma ReadTooks(w: World, i: nat, room: nat)
    requires i < SLOTS
    ensures Tooks(BusRead(w, i, room).0.log) == Tooks(w.log)
  {
    var w' := BusRead(w, i, room).0;
    if w'.log != w.log {
      assert w'.log != [] && w'.log == w.log + [w'.log[|w.log|]];
      TooksNext(w.log, w'.log[|w.log|]);
    }
  }

  lemma SoftTooks(c: Crypto, w: World, i: nat, data: seq<byte>)
    requires i < SLOTS && w.slots[i].bus.Software?
    ensures Tooks(BusWrite(c, w, i, data).0.log) == Tooks(w.log)
  {
    var (s', r) := SoftWrite(c, w.slots[i].bus.soft, data);
    if SealNote(s', r) != [] {
      TooksNext(w.log, SealNote(s', r)[0]);
    } else {
      assert w.log + [] == w.log;
    }
  }

  /** One write takes exactly that many requests. */
  lemma {:induction false} NestingTaken(c: Crypto, w: World, i: nat, data: seq<byte>)
    requires Inv(w) && i < SLOTS
    ensures Tooks(BusWrite(c, w, i, data).0.log) == Tooks(w.log) + Nesting(w, i, data)
    decreases |data|
  {
    if w.slots[i].bus.Software? {
      SoftTooks(c, w, i, data);
    } else if Nesting(w, i, data) > 0 {
      var h, payload := Wire.ParseHeader(data), Wire.Payload(data);
      var (w1, f) := Respond(c, w, h, payload);
      RespondKeeps(c, w, h, payload, w1, f);
      assert SameHolder(w.slots[i], w1.slots[i]);
      InnerTaken(c, w, h, payload);
      TooksNext(w1.log, Took(i, h.reqId));
    }
  }

  lemma {:induction false} InnerTaken(c: Crypto, w: World, h: Wire.Header, payload: seq<byte>)
    requires Inv(w)
    ensures Tooks(Respond(c, w, h, payload).0.log) == Tooks(w.log) + Inner(w, h, payload)
    decreases |payload|
  {
    if h.cmd == Wire.CMD_BLAKE3 && |payload| >= CAP_LEN && Authentic(w.slots, CapOf(payload), USE) {
      var j := CapOf(payload).slot;
      NestingTaken(c, w, j, payload[CAP_LEN..]);
      ReadTooks(BusWrite(c, w, j, payload[CAP_LEN..]).0, j, DIGEST_LEN);
    }
  }

  lemma {:induction false} NestingShrinks(w: World, i: nat, data: seq<byte>)
    requires i < SLOTS
    ensures 32 * Nesting(w, i, data) <= |data| + 16
    ensures Nesting(w, i, data) > 0 ==> |data| <= Wire.FRAME_MAX
    decreases |data|
  {
    if Nesting(w, i, data) > 1 {
      var h, payload := Wire.ParseHeader(data), Wire.Payload(data);
      assert Inner(w, h, payload) > 0;
      NestingShrinks(w, CapOf(payload).slot, payload[CAP_LEN..]);
    }
  }

  /** Each nested request is at least 32 bytes shorter than the one around it, so one write, however
      long its data, takes at most 128 requests. */
  lemma NestingBound(c: Crypto, w: World, i: nat, data: seq<byte>)
    requires Inv(w) && i < SLOTS
    ensures Tooks(BusWrite(c, w, i, data).0.log) <= Tooks(w.log) + 128
    ensures 32 * (Tooks(BusWrite(c, w, i, data).0.log) - Tooks(w.log)) <= |data| + 16
  {
    NestingTaken(c, w, i, data);
    NestingShrinks(w, i, data);
  }

  // ---------------------------------------------------------------------
  // Hash replies
  // ---------------------------------------------------------------------

  /** What a hash request addressed to a bus is answered with, if with success. */
  ghost function HashPayload(c: Crypto, bus: Bus, input: seq<byte>): Option<Digest> {
    if !bus.Software? || !bus.soft.open then None
    else
      var s := bus.soft;
      match s.role
      case Blake3 => c.hash(input)
      case Echo =>
        if |input| <= RING - s.writeLen && |Unread(s) + input| >= DIGEST_LEN then Some((Unread(s) + input)[..DIGEST_LEN])
        else None
      case AesGcm =>
        if s.aes.value.count < U64_LIMIT - 1 && 4 <= |input| <= 36
        then Some(Sealed(c, s.aes.value.(count := s.aes.value.count + 1), input)[..DIGEST_LEN])
        else None
  }

  lemma SoftHash(c: Crypto, s: Soft, input: seq<byte>)
    requires s.open
    ensures var (s1, r1) := SoftWrite(c, s, input);
      var (s2, r2) := SoftRead(s1, DIGEST_LEN);
      match HashPayload(c, Software(s), input)
      case None => r1.Fail? || r2.Fail? || |r2.value| != DIGEST_LEN
      case Some(p) => r1.Done? && r2 == Done(p)
  {
    var (s1, r1) := SoftWrite(c, s, input);
    if r1.Done? {
      match s.role
      case Echo =>
        assert s1.ring[s1.readPos..s1.writeLen] == Unread(s) + input;
        if |Unread(s) + input| >= DIGEST_LEN {
          assert s1.ring[s1.readPos..s1.readPos + DIGEST_LEN] == (Unread(s) + input)[..DIGEST_LEN];
        }
      case Blake3 =>
        assert s1.ring[0..DIGEST_LEN] == c.hash(input).value;
      case AesGcm =>
        var out := Sealed(c, s.aes.value.(count := s.aes.value.count + 1), input);
        assert s1.ring[0..|out|] == out;
        if |out| >= DIGEST_LEN {
          assert s1.ring[0..DIGEST_LEN] == out[..DIGEST_LEN];
        }
    }
  }

  /** No wire response is exactly 32 bytes long. */
  lemma ResponseNotDigest(c: Crypto, w: World, h: Wire.Header, payload: seq<byte>)
    ensures |Respond(c, w, h, payload).1| != DIGEST_LEN
  {
    if h.cmd == Wire.CMD_STATUS && payload == [] {
      var n := |Audit.Snapshot(w.audit, Audit.CAPACITY)|;
      assert |Respond(c, w, h, payload).1| == 24 + 12 * n;
    }
  }

  lemma WireHash(c: Crypto, w: World, i: nat, input: seq<byte>)
    requires Inv(w) && i < SLOTS && w.slots[i].bus.Ring3?
    ensures var (w1, r1) := BusWrite(c, w, i, input);
      r1.Fail? || BusRead(w1, i, DIGEST_LEN).1.Fail? || |BusRead(w1, i, DIGEST_LEN).1.value| != DIGEST_LEN
  {
    var (w1, r1) := BusWrite(c, w, i, input);
    if r1.Done? {
      var h, payload := Wire.ParseHeader(input), Wire.Payload(input);
      var (w0, f) := Respond(c, w, h, payload);
      ResponseNotDigest(c, w, h, payload);
      RespondKeeps(c, w, h, payload, w0, f);
      assert SameHolder(w.slots[i], w0.slots[i]);
      assert w1.slots[i].bus.wire.len == |f|;
    }
  }

  /** The exact answer to an authenticated hash request, for every target bus: the
      hash on a Blake3 slot, other bytes or Internal elsewhere, always Internal on a wire bus. */
  lemma HashOutcome(c: Crypto, w: World, reqId: Wire.U32, payload: seq<byte>)
    requires Inv(w) && |payload| >= CAP_LEN && Authentic(w.slots, CapOf(payload), USE)
    ensures HashReply(c, w, reqId, payload).1 ==
      match HashPayload(c, w.slots[CapOf(payload).slot].bus, payload[CAP_LEN..])
      case None => Wire.ErrorFrame(reqId, Wire.Internal)
      case Some(p) => Wire.ReplyFrame(reqId, Wire.CMD_BLAKE3, Wire.Ok, p)
  {
    var i, input := CapOf(payload).slot, payload[CAP_LEN..];
    assert SlotFits(w.slots[i], Owed(w.log, i));
    if w.slots[i].bus.Software? {
      SoftHash(c, w.slots[i].bus.soft, input);
    } else {
      WireHash(c, w, i, input);
    }
  }

  /** A success reply need not be a hash: an echo slot nothing was written to returns a 32-byte input as it is. */
  lemma EchoAnswersWithInput(c: Crypto, w: World, reqId: Wire.U32, payload: seq<byte>)
    requires Inv(w) && |payload| == CAP_LEN + DIGEST_LEN && Authentic(w.slots, CapOf(payload), USE)
    requires EchoSlot(w.slots[CapOf(payload).slot]) && w.slots[CapOf(payload).slot].bus.soft.writeLen == 0
    ensures HashReply(c, w, reqId, payload).1 == Wire.ReplyFrame(reqId, Wire.CMD_BLAKE3, Wire.Ok, payload[CAP_LEN..])
  {
    var s, input := w.slots[CapOf(payload).slot].bus.soft, payload[CAP_LEN..];
    assert Unread(s) + input == input && input[..DIGEST_LEN] == input;
    HashOutcome(c, w, reqId, payload);
  }

  // ---------------------------------------------------------------------
  // Status
  // ---------------------------------------------------------------------

  /** The answer to a status request decodes to the audit snapshot of that moment. */
  lemma StatusAnswer(c: Crypto, w: World, h: Wire.Header)
    requires h.cmd == Wire.CMD_STATUS
    ensures var (w', f) := Respond(c, w, h, []);
      var s := Audit.Snapshot(w.audit, Audit.CAPACITY);
      && w' == w && |f| == 24 + Audit.EVENT_LEN * |s|
      && U16At(f, 16) == |s| && U32At(f, 18) == |w.audit| % U32_LIMIT && f[22] == f[23] == 0
      && Audit.DecodeEvents(f, 24, |s|) == s
  {
    var f := Respond(c, w, h, []).1;
    var s := Audit.Snapshot(w.audit, Audit.CAPACITY);
    var p := Audit.EncodeStatus(s, |w.audit| % U32_LIMIT);
    assert f[16..] == p && f[22] == p[6] && f[23] == p[7];
    assert f[16..18] == p[0..2] == Le16(|s|) && f[18..22] == p[2..6] == Le32(|w.audit| % U32_LIMIT);
    assert f[24..24 + Audit.EVENT_LEN * |s|] == p[8..] == Audit.EncodeEvents(s);
    Le16At(f, 16, |s|);
    Le32At(f, 18, |w.audit| % U32_LIMIT);
    Audit.EventsRoundTrip(f, 24, s);
  }

  // ---------------------------------------------------------------------
  // Relays
  // ---------------------------------------------------------------------

  ghost predicate EchoSlot(s: Slot) {
    s.bus.Software? && s.bus.soft.open && s.bus.soft.role.Echo?
  }

  ghost predicate RelayAllowed(w: World, src: Cap, dst: Cap, n: nat) {
    && 0 < n <= CHAN_MAX
    && Authentic(w.slots, src, RELAY_SRC) && Authentic(w.slots, dst, RELAY_DST)
    && EchoSlot(w.slots[src.slot]) && EchoSlot(w.slots[dst.slot])
  }

  ghost function QueueOf(w: World, i: nat): seq<byte>
    requires i < SLOTS && w.slots[i].bus.Software?
  {
    Unread(w.slots[i].bus.soft)
  }

  /** A relay between echo slots, one slot to itself included, succeeds exactly when
      the bytes are there and fit; then it moves them in order and touches nothing else. */
  lemma RelayMoves(c: Crypto, w: World, src: Cap, dst: Cap, n: nat)
    requires RelayAllowed(w, src, dst, n)
    ensures var (w', r) := HandleRelay(c, w, Some(src), Some(dst), n);
      var i, j := src.slot, dst.slot;
      && (r == Returned(0) <==> n <= |QueueOf(w, i)| && n <= RING - w.slots[j].bus.soft.writeLen)
      && (r == Returned(0) ==>
          && EchoSlot(w'.slots[i]) && EchoSlot(w'.slots[j])
          && (forall k | 0 <= k < SLOTS && k != i && k != j :: w'.slots[k] == w.slots[k])
          && (if i == j then QueueOf(w', i) == QueueOf(w, i)[n..] + QueueOf(w, i)[..n]
              else QueueOf(w', i) == QueueOf(w, i)[n..] && QueueOf(w', j) == QueueOf(w, j) + QueueOf(w, i)[..n]))
  {
    var (w', r) := HandleRelay(c, w, Some(src), Some(dst), n);
    var i, j := src.slot, dst.slot;
    var (w1, got) := BusRead(w, i, n);
    if n <= |QueueOf(w, i)| {
      ReadTakes(w.slots[i].bus.soft, n);
      if n <= RING - w.slots[j].bus.soft.writeLen {
        EchoAppends(c, w1.slots[j].bus.soft, got.value);
      }
    }
  }

  lemma ReadTakes(s: Soft, n: nat)
    requires s.open && n <= |Unread(s)|
    ensures var (s', r) := SoftRead(s, n);
      && r == Done(Unread(s)[..n]) && Unread(s') == Unread(s)[n..]
      && s'.open && s'.role == s.role && s'.writeLen == s.writeLen
  {
    FrontOfSlice(s.ring, s.readPos, s.writeLen, n);
  }

  lemma EchoAppends(c: Crypto, s: Soft, data: seq<byte>)
    requires s.open && s.role.Echo? && |data| <= RING - s.writeLen
    ensures var (s', r) := SoftWrite(c, s, data);
      r == Done(|data|) && s'.open && s'.role.Echo? && Unread(s') == Unread(s) + data
  {
  }

  /** A read of `n` bytes takes something off the bus. */
  ghost predicate Yields(b: Bus, n: nat) {
    match b
    case Software(s) => Unread(s) != []
    case Ring3(wire) => 0 < wire.len <= n
    case _ => false
  }

  lemma ReadYields(w: World, i: nat, n: nat)
    requires Inv(w) && i < SLOTS && n > 0
    ensures var (w1, got) := BusRead(w, i, n);
      && (!Yields(w.slots[i].bus, n) ==> w1 == w && (got.Fail? || got.value == []))
      && (Yields(w.slots[i].bus, n) ==> got.Done? && got.value != [])
      && (Yields(w.slots[i].bus, n) && w.slots[i].bus.Ring3? ==> |w1.log| > |w.log|)
      && (Yields(w.slots[i].bus, n) && w.slots[i].bus.Software? ==> w1.slots[i] != w.slots[i])
  {
    assert SlotFits(w.slots[i], Owed(w.log, i));
    var (w1, got) := BusRead(w, i, n);
    if w.slots[i].bus.Software? {
      var s := w.slots[i].bus.soft;
      assert w1.slots[i].bus.soft.readPos == s.readPos + |got.value|;
      if Unread(s) == [] {
        assert s.(readPos := s.readPos + 0) == s && w.slots[i := w.slots[i]] == w.slots;
      }
    }
  }

  /** The slot hashes a part of its own digest and gets the same digest back. */
  ghost predicate FixedPoint(c: Crypto, b: Bus, n: nat) {
    && b.Software? && b.soft.role.Blake3? && b.soft.readPos == 0 && b.soft.writeLen == DIGEST_LEN && n < DIGEST_LEN
    && c.hash(b.soft.ring[..n]) == Some(b.soft.ring[..DIGEST_LEN])
  }

  /** A relay is not atomic. When it fails after both capabilities are accepted, for every kind of
      source and destination, nothing has changed exactly when the source had nothing to give, or
      the slot relayed to itself and its digest is a fixed point of the hash. */
  lemma FailedRelay(c: Crypto, w: World, src: Cap, dst: Cap, n: nat)
    requires Inv(w) && 0 < n <= CHAN_MAX
    requires Authentic(w.slots, src, RELAY_SRC) && Authentic(w.slots, dst, RELAY_DST)
    requires HandleRelay(c, w, Some(src), Some(dst), n).1 != Returned(0)
    ensures HandleRelay(c, w, Some(src), Some(dst), n).0 == w
       <==> !Yields(w.slots[src.slot].bus, n)
            || (src.slot == dst.slot && FixedPoint(c, w.slots[src.slot].bus, n))
  {
    var i, j := src.slot, dst.slot;
    var (w1, got) := BusRead(w, i, n);
    ReadYields(w, i, n);
    if Yields(w.slots[i].bus, n) && |got.value| == n {
      ReadKeeps(w, i, n, w1);
      FailedWrite(c, w1, j, got.value);
      if i == j {
        SelfRelay(c, w, i, n);
      }
    }
  }

  lemma SelfRelay(c: Crypto, w: World, i: nat, n: nat)
    requires Inv(w) && i < SLOTS && n > 0 && Yields(w.slots[i].bus, n)
    requires var (w1, got) := BusRead(w, i, n);
      got.Done? && |got.value| == n && BusWrite(c, w1, i, got.value).1 != Done(n)
    ensures var (w1, got) := BusRead(w, i, n);
      BusWrite(c, w1, i, got.value).0 == w <==> FixedPoint(c, w.slots[i].bus, n)
  {
    var (w1, got) := BusRead(w, i, n);
    ReadYields(w, i, n);
    ReadKeeps(w, i, n, w1);
    FailedWrite(c, w1, i, got.value);
    if w.slots[i].bus.Software? {
      SoftSelf(c, w.slots[i].bus.soft, n);
      var w2 := BusWrite(c, w1, i, got.value).0;
      assert w2.slots == w.slots[i := w2.slots[i]];
      assert w2.slots[i].(bus := w.slots[i].bus) == w.slots[i];
      assert w.slots[i := w.slots[i]] == w.slots;
    }
  }

  /** Reading `n` bytes off a bus and writing them back to it, when that is not accepted as `n` bytes. */
  lemma SoftSelf(c: Crypto, s: Soft, n: nat)
    requires s.open && 0 < n <= |Unread(s)| && SoftWrite(c, SoftRead(s, n).0, SoftRead(s, n).1.value).1 != Done(n)
    ensures var (s2, m) := SoftWrite(c, SoftRead(s, n).0, SoftRead(s, n).1.value);
      && (s2 == s <==> FixedPoint(c, Software(s), n))
      && (s2 == s ==> SealNote(s2, m) == [])
  {
    var (s1, got) := SoftRead(s, n);
    var (s2, m) := SoftWrite(c, s1, got.value);
    if s.role.Blake3? && m.Done? {
      var d := c.hash(got.value).value;
      assert s2.ring[..DIGEST_LEN] == d;
      if s.readPos == 0 && s.writeLen == DIGEST_LEN && d == s.ring[..DIGEST_LEN] {
        assert s2.ring == s.ring;
      }
    }
  }

  /** A write that is accepted for another number of bytes than it was given is a hash or a sealing. */
  lemma FailedWrite(c: Crypto, w: World, j: nat, data: seq<byte>)
    requires Inv(w) && j < SLOTS && BusWrite(c, w, j, data).1 != Done(|data|)
    ensures var (w', m) := BusWrite(c, w, j, data);
      && (m.Fail? ==> w' == w)
      && (m.Done? ==> w.slots[j].bus.Software? && !w.slots[j].bus.soft.role.Echo?
                      && |w'.log| >= |w.log| && forall k | 0 <= k < SLOTS && k != j :: w'.slots[k] == w.slots[k])
  {
    assert SlotFits(w.slots[j], Owed(w.log, j));
    var (w', m) := BusWrite(c, w, j, data);
    if m.Fail? && w.slots[j].bus.Software? {
      assert w.slots[j := w.slots[j]] == w.slots && w.log + [] == w.log;
    }
  }
}
