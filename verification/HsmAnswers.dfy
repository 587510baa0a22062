/** What the buses answer, byte by byte: the frame each command gets, what a read returns after a write,
    and what an enrolment must bring. */
module HsmAnswers {
  import opened Words
  import opened SoftBus
  import opened Registry
  import opened HsmSafety
  import opened HsmRuns
  import HsmTraffic
  import Wire
  import Audit

  // ---------------------------------------------------------------------
  // Frames
  // ---------------------------------------------------------------------

  /** The 16 bytes in front of an answer: magic, version 1, command, request, payload length, status. */
  ghost predicate Fronts(f: seq<byte>, cmd: nat, reqId: nat, status: nat) {
    && |f| >= 16 && f[..4] == [0x4C, 0x57, 0x4B, 0x30] && U16At(f, 4) == 1
    && U16At(f, 6) == cmd && U32At(f, 8) == reqId && U16At(f, 12) == |f| - 16 && U16At(f, 14) == status
  }

  lemma ReplyFronts(reqId: Wire.U32, cmd: nat, status: Wire.Status, payload: seq<byte>)
    requires cmd < Wire.RESPONSE_BIT && |payload| <= Wire.PAYLOAD_MAX
    ensures Fronts(Wire.ReplyFrame(reqId, cmd, status, payload), cmd + 0x8000, reqId, Wire.StatusCode(status))
    ensures Wire.ReplyFrame(reqId, cmd, status, payload)[16..] == payload
  {
    var h := Wire.Header(Wire.MAGIC, Wire.VERSION, cmd + Wire.RESPONSE_BIT, reqId, |payload|, Wire.StatusCode(status));
    Wire.HeaderRoundTrip(h, payload);
    var f := Wire.ReplyFrame(reqId, cmd, status, payload);
    assert Wire.ParseHeader(f) == h && f[0..4] == f[..4];
  }

  lemma ErrorFronts(reqId: Wire.U32, status: Wire.Status)
    ensures Fronts(Wire.ErrorFrame(reqId, status), 0xFFFF, reqId, Wire.StatusCode(status))
    ensures |Wire.ErrorFrame(reqId, status)| == 16
  {
    var h := Wire.Header(Wire.MAGIC, Wire.VERSION, Wire.CMD_ERROR, reqId, 0, Wire.StatusCode(status));
    Wire.HeaderRoundTrip(h, []);
    var f := Wire.ErrorFrame(reqId, status);
    assert Wire.ParseHeader(f) == h && f[0..4] == f[..4];
  }

  /** Command 1 is answered with an empty Ok frame and changes nothing. */
  lemma PingAnswer(c: Crypto, w: World, h: Wire.Header, payload: seq<byte>)
    requires h.cmd == 0x0001
    ensures var (w', f) := Respond(c, w, h, payload); w' == w && |f| == 16 && Fronts(f, 0x8001, h.reqId, 0)
  {
    ReplyFronts(h.reqId, 0x0001, Wire.Ok, []);
  }

  /** A command the kernel does not know is answered with error 2 and changes nothing. */
  lemma UnknownAnswer(c: Crypto, w: World, h: Wire.Header, payload: seq<byte>)
    requires h.cmd !in {0x0001, 0x0010, 0x0040, 0x0080}
    ensures var (w', f) := Respond(c, w, h, payload); w' == w && |f| == 16 && Fronts(f, 0xFFFF, h.reqId, 2)
  {
    ErrorFronts(h.reqId, Wire.UnknownCmd);
  }

  /** Command 0x40: a payload of key, bus octet 0 or 1 and signature is answered Ok exactly when the
      signature attests, else Denied, and recorded under 5 or 6; anything else is answered BadFrame and
      leaves no trace. */
  lemma AttestAnswer(c: Crypto, w: World, h: Wire.Header, payload: seq<byte>)
    requires h.cmd == 0x0040
    ensures var (w', f) := Respond(c, w, h, payload);
      && |f| == 16 && w'.slots == w.slots && w'.log == w.log
      && if |payload| != 3733 || payload[1312] > 1 then w' == w && Fronts(f, 0xFFFF, h.reqId, 1)
         else var ok := c.attests(payload[..1312], payload[1312], payload[1313..]);
           && (if ok then Fronts(f, 0x8040, h.reqId, 0) else Fronts(f, 0xFFFF, h.reqId, 3))
           && |w'.audit| == |w.audit| + 1 && w'.audit[..|w.audit|] == w.audit
           && w'.audit[|w.audit|] == Audit.Event(|w.audit| % U32_LIMIT, 0xFE, if ok then 5 else 6, payload[1312], 0,
                                                 Fingerprint(c, payload[..1312]))
  {
    ReplyFronts(h.reqId, 0x0040, Wire.Ok, []);
    ErrorFronts(h.reqId, Wire.BadFrame);
    ErrorFronts(h.reqId, Wire.Denied);
  }

  /** The first four bytes of the hash of a key, zero if it cannot be hashed. */
  function Fingerprint(c: Crypto, pk: seq<byte>): Audit.Prefix {
    var d := c.hash(pk);
    if d.Some? then [d.value[0], d.value[1], d.value[2], d.value[3]] else [0, 0, 0, 0]
  }

  /** Command 0x80 takes no payload. */
  lemma StatusRefused(c: Crypto, w: World, h: Wire.Header, payload: seq<byte>)
    requires h.cmd == 0x0080 && payload != []
    ensures var (w', f) := Respond(c, w, h, payload); w' == w && |f| == 16 && Fronts(f, 0xFFFF, h.reqId, 1)
  {
    ErrorFronts(h.reqId, Wire.BadFrame);
  }

  /** Command 0x10 needs a whole capability. */
  lemma HashRefused(c: Crypto, w: World, h: Wire.Header, payload: seq<byte>)
    requires h.cmd == 0x0010 && |payload| < 16
    ensures var (w', f) := Respond(c, w, h, payload); w' == w && |f| == 16 && Fronts(f, 0xFFFF, h.reqId, 1)
  {
    ErrorFronts(h.reqId, Wire.BadFrame);
  }

  /** A hash slot asked over the wire answers with the hash of everything behind the capability. */
  lemma HashAnswer(c: Crypto, w: World, h: Wire.Header, payload: seq<byte>)
    requires Inv(w) && h.cmd == 0x0010 && |payload| >= 16 && (payload[8] as nat) < SLOTS
    requires Authentic(w.slots, CapOf(payload), USE)
    requires w.slots[payload[8] as nat].bus.Software? && w.slots[payload[8] as nat].bus.soft.role.Blake3?
    requires c.hash(payload[16..]).Some?
    ensures var f := Respond(c, w, h, payload).1;
      |f| == 48 && Fronts(f, 0x8010, h.reqId, 0) && f[16..] == c.hash(payload[16..]).value
  {
    var i := payload[8] as nat;
    assert SlotFits(w.slots[i], Owed(w.log, i));
    var d: Digest := c.hash(payload[16..]).value;
    var w1 := BusWrite(c, w, i, payload[16..]).0;
    assert w1.slots[i].bus.soft.ring == d + w.slots[i].bus.soft.ring[DIGEST_LEN..];
    assert BusRead(w1, i, DIGEST_LEN).1 == Done(d);
    ReplyFronts(h.reqId, 0x0010, Wire.Ok, d);
  }

  /** A hash request to a wire slot always comes back as error 4, whatever it carries. */
  lemma WireHashAnswer(c: Crypto, w: World, h: Wire.Header, payload: seq<byte>)
    requires Inv(w) && h.cmd == 0x0010 && |payload| >= 16 && (payload[8] as nat) < SLOTS
    requires Authentic(w.slots, CapOf(payload), USE) && w.slots[payload[8] as nat].bus.Ring3?
    ensures var f := Respond(c, w, h, payload).1; |f| == 16 && Fronts(f, 0xFFFF, h.reqId, 4)
  {
    HsmTraffic.HashOutcome(c, w, h.reqId, payload);
    ErrorFronts(h.reqId, Wire.Internal);
  }

  /** The frame read from a wire slot after an accepted write is the answer to that write's request: header
      from its first 16 bytes, payload as long as the header says. */
  lemma WriteThenRead(c: Crypto, w: World, i: nat, data: seq<byte>, room: nat)
    requires Inv(w) && i < SLOTS && w.slots[i].bus.Ring3? && BusWrite(c, w, i, data).1.Done?
    ensures |data| >= 16 && U16At(data, 12) + 16 <= |data|
    ensures var h := Wire.Header(data[0..4], U16At(data, 4), U16At(data, 6), U32At(data, 8), U16At(data, 12), U16At(data, 14));
      var f := Respond(c, w, h, data[16..16 + U16At(data, 12)]).1;
      |f| <= room ==> BusRead(BusWrite(c, w, i, data).0, i, room).1 == Done(f)
  {
    var h, payload := Wire.ParseHeader(data), Wire.Payload(data);
    var (w1, f) := Respond(c, w, h, payload);
    RespondKeeps(c, w, h, payload, w1, f);
    assert SameHolder(w.slots[i], w1.slots[i]);
    var b := w1.slots[i].bus.wire;
    assert SlotFits(w1.slots[i], Owed(w1.log, i));
    var now := f + b.pending[|f|..];
    assert now[..|f|] == f;
  }

  // ---------------------------------------------------------------------
  // Software buses
  // ---------------------------------------------------------------------

  /** The first byte of the init blob chooses the role: 0 or nothing echo, 1 hash, 2 sealing. */
  lemma RolesOpened(init: seq<byte>, key: Option<seq<byte>>)
    ensures var (s, r) := SoftOpen(CLOSED_BUS, init, key);
      && (r.Done? <==> (forall i | 0 < i < |init| :: init[i] == 0) && (init == [] || init[0] <= 1 || (init[0] == 2 && key.Some?)))
      && (r.Done? ==> s.open && Unread(s) == []
                      && (s.role.Echo? <==> init == [] || init[0] == 0) && (s.role.Blake3? <==> init != [] && init[0] == 1)
                      && (s.role.AesGcm? ==> s.aes == Some(Aes(key.value, 0))))
  {
    if init != [] {
      assert init[1..] == Zeros(|init| - 1) <==> forall i | 0 < i < |init| :: init[i] == 0 by {
        assert forall i | 0 < i < |init| :: init[i] == init[1..][i - 1];
      }
    }
  }

  /** A sealing slot answers with the count as a nonce, eight bytes from the lowest and four zeros, and what
      the cipher makes of the data under the slot's key and that nonce; every sealing counts one up. */
  lemma SealedRead(c: Crypto, s: Soft, data: seq<byte>)
    requires s.open && s.role.AesGcm? && s.aes.value.count + 1 < U64_LIMIT && |data| <= 36
    requires |c.aead(s.aes.value.key, Le64(s.aes.value.count + 1) + [0, 0, 0, 0], data)| == |data| + 16
    ensures var count := s.aes.value.count + 1;
      var nonce := Le64(count) + [0, 0, 0, 0];
      var (s', r) := SoftWrite(c, s, data);
      && r == Done(|data| + 28) && s'.aes == Some(Aes(s.aes.value.key, count))
      && SoftRead(s', 64).1 == Done(nonce + c.aead(s.aes.value.key, nonce, data))
  {
    var count := s.aes.value.count + 1;
    var nonce := Le64(count) + [0, 0, 0, 0];
    assert Zeros(4) == [0, 0, 0, 0];
    assert Nonce(count) == nonce;
    var s' := SoftWrite(c, s, data).0;
    var out := nonce + c.aead(s.aes.value.key, nonce, data);
    assert s'.ring == out + s.ring[|data| + 28..];
    assert s'.ring[0..|data| + 28] == out;
  }

  /** A hash slot gives back the hash of the last data written. */
  lemma HashedRead(c: Crypto, s: Soft, data: seq<byte>)
    requires s.open && s.role.Blake3? && c.hash(data).Some?
    ensures var (s', r) := SoftWrite(c, s, data);
      r == Done(32) && SoftRead(s', 64).1 == Done(c.hash(data).value)
  {
    var d: Digest := c.hash(data).value;
    var s' := SoftWrite(c, s, data).0;
    assert s'.ring == d + s.ring[DIGEST_LEN..];
    assert s'.ring[0..32] == d;
  }

  // ---------------------------------------------------------------------
  // Enrolment
  // ---------------------------------------------------------------------

  /** A granted enrolment brought 3732 bytes of key and signature that attest for its kind of bus, an init
      blob of at most 32 bytes, and for a wire bus a registered endpoint; it gets the drawn token and all
      five rights in the first empty slot. */
  lemma EnrolmentBrings(c: Crypto, w: World, e: Enrolment)
    requires Inv(w) && HandleAttach(c, w, e).1 == Returned(0)
    ensures (e.kind == 0 || e.kind == 1) && e.initLen <= 32 && e.attestLen == 3732
    ensures e.attest.Some? && |e.attest.value| == 3732
    ensures c.attests(e.attest.value[..1312], e.kind as byte, e.attest.value[1312..])
    ensures e.kind == 1 ==> e.init.Some? && |e.init.value| >= 2 && U16At(e.init.value, 0) in e.draw.endpoints
                            && U16At(e.init.value, 0) != 0xFFFF
    ensures var (w', _, cap) := HandleAttach(c, w, e);
      && cap.Some? && cap.value.slot < SLOTS && w.slots[cap.value.slot].state.Empty?
      && (forall k | 0 <= k < cap.value.slot :: !w.slots[k].state.Empty?)
      && e.draw.token == Some(cap.value.token) && cap.value.rights == 31
      && var s := w'.slots[cap.value.slot];
         && s.token == cap.value.token && s.rights == 31 && s.code == 0 && s.prefix == Fingerprint(c, e.attest.value[..1312])
         && (e.kind == 0 <==> s.bus.Software?) && (e.kind == 1 ==> s.bus.Ring3? && s.bus.wire.endpoint == U16At(e.init.value, 0))
  {
    EnrolmentAudited(c, w, e);
    AttachInstalls(c, w, KindOf(e), Blob(e), e.attest, ALL_RIGHTS, e.draw);
  }

  /** The code an enrolment returns, from its arguments and the slots, in the order the kernel looks. */
  lemma EnrolReturns(c: Crypto, w: World, e: Enrolment)
    requires Inv(w)
    ensures HandleAttach(c, w, e).1 ==
      if e.kind == 6 then SysDenied
      else if e.kind > 1 || e.initLen > 32 || e.attestLen != 3732 then BadArg
      else if (e.initLen > 0 && e.init.None?) || !e.outIsUser || e.attest.None? then BadAddress
      else if |e.attest.value| != 3732 || !c.attests(e.attest.value[..1312], e.kind as byte, e.attest.value[1312..]) then SysDenied
      else if forall i | 0 <= i < 8 :: w.slots[i].state.Attached? then BadArg
      else if e.draw.token.None? then SysInternal
      else if !Opens(e.kind, if e.initLen == 0 then [] else e.init.value, e.draw) then BadArg
      else Returned(0)
  {
    RolesOpened(Blob(e), e.draw.key);
    forall i | 0 <= i < 8 ensures w.slots[i].state.Attached? || w.slots[i].state.Empty? {
      assert SlotFits(w.slots[i], Owed(w.log, i));
    }
    if e.kind == 1 && |Blob(e)| >= 2 {
      ZeroTail(Blob(e), 2);
    }
  }

  /** An init blob a bus of that kind opens with. */
  predicate Opens(kind: nat, init: seq<byte>, draw: Draw) {
    if kind == 0 then
      (forall i | 0 < i < |init| :: init[i] == 0) && (init == [] || init[0] <= 1 || (init[0] == 2 && draw.key.Some?))
    else
      && |init| >= 2 && (forall i | 2 <= i < |init| :: init[i] == 0)
      && U16At(init, 0) != 0xFFFF && U16At(init, 0) in draw.endpoints
  }

  lemma ZeroTail(b: seq<byte>, n: nat)
    requires n <= |b|
    ensures b[n..] == Zeros(|b| - n) <==> forall i | n <= i < |b| :: b[i] == 0
  {
    assert forall i | n <= i < |b| :: b[i] == b[n..][i - n];
  }

  /** The entry an enrolment leaves: who asked for what, with which verdict, under which key. */
  lemma EnrolRecords(c: Crypto, w: World, e: Enrolment)
    requires Inv(w) && (e.attest.Some? ==> |e.attest.value| == 3732)
    ensures var (w', r, cap) := HandleAttach(c, w, e);
      var n := |w.audit| % U32_LIMIT;
      w'.audit == w.audit
        + if e.kind == 6 then [Audit.Event(n, 0xFF, 2, 6, 0, [0, 0, 0, 0])]
          else if r == Returned(0) && cap.Some? && e.attest.Some? then
            [Audit.Event(n, cap.value.slot as byte, 0, if e.kind == 0 then 0 else 1, 0, Fingerprint(c, e.attest.value[..1312]))]
          else if r == SysDenied && e.attest.Some? then
            [Audit.Event(n, 0xFF, 1, if e.kind == 0 then 0 else 1, 0, Fingerprint(c, e.attest.value[..1312]))]
          else []
  {
    EnrolmentAudited(c, w, e);
    EnrolReturns(c, w, e);
    assert w.audit + [] == w.audit;
    if e.attest.Some? {
      assert Announced(c, e) == Fingerprint(c, e.attest.value[..1312]);
    }
  }
}
