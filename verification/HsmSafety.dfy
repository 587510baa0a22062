/**
 * What every registry operation keeps: slot shapes, single-flight wire buses,
 * and agreement of every response with the request it answers.
 */
module HsmSafety {
  import opened Words
  import opened SoftBus
  import opened Registry
  import Wire
  import Audit

  ghost function About(n: Note): Option<nat> {
    if n.Sealing? then None else Some(n.slot)
  }

  /** The request slot `i` has taken and not yet answered. */
  ghost function Owed(log: seq<Note>, i: nat): Option<nat> {
    if log == [] then None
    else
      var n := log[|log| - 1];
      if About(n) != Some(i) then Owed(log[..|log| - 1], i)
      else if n.Took? then Some(n.reqId)
      else None
  }

  ghost predicate WireFits(b: WireBus, owed: Option<nat>) {
    && b.open
    && if b.len == 0 then b.pending == Zeros(Wire.FRAME_MAX) && owed == None
       else Wire.WellFormed(b.pending[..b.len]) && owed == Some(Wire.ReqId(b.pending[..b.len]))
  }

  ghost predicate BusFits(b: Bus, owed: Option<nat>) {
    match b
    case Software(s) => s.open && owed == None
    case Ring3(wire) => WireFits(wire, owed)
    case _ => false
  }

  /** Between calls a slot is wiped, or attached with a token and an open bus. */
  ghost predicate SlotFits(s: Slot, owed: Option<nat>) {
    || (s == EMPTY_SLOT && owed == None)
    || (s.state.Attached? && s.token != 0 && BusFits(s.bus, owed))
  }

  /** Every frame given out answered the latest request taken, which was still unanswered. */
  ghost predicate Answers(log: seq<Note>, k: nat)
    requires k < |log|
  {
    log[k].Gave? ==> Wire.WellFormed(log[k].frame)
                     && Owed(log[..k], log[k].slot) == Some(Wire.ReqId(log[k].frame))
  }

  ghost predicate Inv(w: World) {
    && (forall k | 0 <= k < |w.log| :: Answers(w.log, k))
    && (forall i | 0 <= i < SLOTS :: SlotFits(w.slots[i], Owed(w.log, i)))
  }

  lemma BootInv()
    ensures Inv(BOOT)
  {
  }

  lemma OwedNext(log: seq<Note>, n: Note, i: nat)
    ensures Owed(log + [n], i) == if About(n) != Some(i) then Owed(log, i) else if n.Took? then Some(n.reqId) else None
  {
    assert (log + [n])[..|log|] == log;
  }

  lemma AnswersNext(log: seq<Note>, n: Note)
    requires forall k | 0 <= k < |log| :: Answers(log, k)
    requires n.Gave? ==> Wire.WellFormed(n.frame) && Owed(log, n.slot) == Some(Wire.ReqId(n.frame))
    ensures forall k | 0 <= k < |log| + 1 :: Answers(log + [n], k)
  {
    forall k | 0 <= k < |log| + 1 ensures Answers(log + [n], k) {
      if k < |log| {
        assert (log + [n])[..k] == log[..k];
        assert Answers(log, k);
      } else {
        assert (log + [n])[..k] == log;
      }
    }
  }

  /** One slot changes, with a note about that slot or about none. */
  lemma ChangeNoted(w: World, i: nat, s: Slot, n: Note, w': World)
    requires Inv(w) && i < SLOTS && w'.slots == w.slots[i := s] && w'.log == w.log + [n]
    requires About(n) == None || About(n) == Some(i)
    requires n.Gave? ==> Wire.WellFormed(n.frame) && Owed(w.log, i) == Some(Wire.ReqId(n.frame))
    requires SlotFits(s, Owed(w'.log, i))
    ensures Inv(w')
  {
    AnswersNext(w.log, n);
    forall j | 0 <= j < SLOTS ensures SlotFits(w'.slots[j], Owed(w'.log, j)) {
      OwedNext(w.log, n, j);
      assert SlotFits(w.slots[j], Owed(w.log, j));
    }
  }

  lemma ChangeQuietly(w: World, i: nat, s: Slot, w': World)
    requires Inv(w) && i < SLOTS && w'.slots == w.slots[i := s] && w'.log == w.log
    requires SlotFits(s, Owed(w.log, i))
    ensures Inv(w')
  {
    forall j | 0 <= j < SLOTS ensures SlotFits(w'.slots[j], Owed(w'.log, j)) {
      assert SlotFits(w.slots[j], Owed(w.log, j));
    }
  }

  // ---------------------------------------------------------------------
  // Traffic never changes who holds a slot
  // ---------------------------------------------------------------------

  ghost predicate SameHolder(s: Slot, s': Slot) {
    && s.state == s'.state && s.token == s'.token && s.rights == s'.rights
    && s.code == s'.code && s.prefix == s'.prefix
    && s.bus.Software? == s'.bus.Software? && s.bus.Ring3? == s'.bus.Ring3?
  }

  ghost predicate SameHolders(w: World, w': World) {
    forall i | 0 <= i < SLOTS :: SameHolder(w.slots[i], w'.slots[i])
  }

  lemma HoldersTrans(a: World, b: World, d: World)
    requires SameHolders(a, b) && SameHolders(b, d)
    ensures SameHolders(a, d)
  {
    forall i | 0 <= i < SLOTS ensures SameHolder(a.slots[i], d.slots[i]) {
      assert SameHolder(a.slots[i], b.slots[i]) && SameHolder(b.slots[i], d.slots[i]);
    }
  }

  lemma ReadKeeps(w: World, i: nat, room: nat, w': World)
    requires Inv(w) && i < SLOTS && w' == BusRead(w, i, room).0
    ensures Inv(w') && SameHolders(w, w')
  {
    var slot := w.slots[i];
    assert SlotFits(slot, Owed(w.log, i));
    match slot.bus
    case Software(s) =>
      ChangeQuietly(w, i, slot.(bus := Software(SoftRead(s, room).0)), w');
    case Ring3(b) =>
      if b.open && b.len != 0 && b.len <= room {
        var n := Gave(i, b.pending[..b.len]);
        OwedNext(w.log, n, i);
        ChangeNoted(w, i, slot.(bus := Ring3(b.(pending := Zeros(Wire.FRAME_MAX), len := 0))), n, w');
      }
    case _ =>
  }

  lemma SoftWriteKeeps(c: Crypto, w: World, i: nat, data: seq<byte>, w': World)
    requires Inv(w) && i < SLOTS && w.slots[i].bus.Software? && w' == BusWrite(c, w, i, data).0
    ensures Inv(w') && SameHolders(w, w')
  {
    var slot := w.slots[i];
    var (s', r) := SoftWrite(c, slot.bus.soft, data);
    assert SlotFits(slot, Owed(w.log, i));
    var notes := SealNote(s', r);
    if notes == [] {
      ChangeQuietly(w, i, slot.(bus := Software(s')), w');
    } else {
      OwedNext(w.log, notes[0], i);
      ChangeNoted(w, i, slot.(bus := Software(s')), notes[0], w');
    }
  }

  /** Installing a well-formed reply, even over a reply a nested request left behind. */
  lemma ReplyKeeps(w: World, i: nat, reqId: nat, f: seq<byte>, w': World)
    requires Inv(w) && i < SLOTS && w.slots[i].bus.Ring3?
    requires Wire.WellFormed(f) && Wire.ReqId(f) == reqId && w' == PutReply(w, i, reqId, f)
    ensures Inv(w') && SameHolders(w, w')
  {
    var slot := w.slots[i];
    var b := slot.bus.wire;
    assert SlotFits(slot, Owed(w.log, i));
    var b' := b.(pending := f + b.pending[|f|..], len := |f|);
    assert b'.pending[..b'.len] == f;
    OwedNext(w.log, Took(i, reqId), i);
    ChangeNoted(w, i, slot.(bus := Ring3(b')), Took(i, reqId), w');
  }

  lemma {:induction false} WriteKeeps(c: Crypto, w: World, i: nat, data: seq<byte>, w': World)
    requires Inv(w) && i < SLOTS && w' == BusWrite(c, w, i, data).0
    ensures Inv(w') && SameHolders(w, w')
    decreases |data|
  {
    match w.slots[i].bus
    case Software(_) => SoftWriteKeeps(c, w, i, data, w');
    case Ring3(b) =>
      if Idle(b) && Wire.IsRequest(data) {
        var h := Wire.ParseHeader(data);
        var (w1, f) := Respond(c, w, h, Wire.Payload(data));
        RespondKeeps(c, w, h, Wire.Payload(data), w1, f);
        assert SameHolder(w.slots[i], w1.slots[i]);
        ReplyKeeps(w1, i, h.reqId, f, w');
        HoldersTrans(w, w1, w');
      }
    case _ =>
  }

  lemma {:induction false} RespondKeeps(c: Crypto, w: World, h: Wire.Header, payload: seq<byte>, w': World, f: seq<byte>)
    requires Inv(w) && (w', f) == Respond(c, w, h, payload)
    ensures Inv(w') && SameHolders(w, w')
    ensures Wire.WellFormed(f) && Wire.ReqId(f) == h.reqId
    decreases |payload|
  {
    FramesWellFormed(h.reqId);
    if h.cmd == Wire.CMD_BLAKE3 {
      HashKeeps(c, w, h.reqId, payload, w', f);
    } else if h.cmd == Wire.CMD_STATUS && payload == [] {
      Wire.ReplyWellFormed(h.reqId, Wire.CMD_STATUS, Wire.Ok,
                           Audit.EncodeStatus(Audit.Snapshot(w.audit, Audit.CAPACITY), |w.audit| % U32_LIMIT));
    }
  }

  lemma FramesWellFormed(reqId: Wire.U32)
    ensures forall s :: Wire.WellFormed(Wire.ErrorFrame(reqId, s)) && Wire.ReqId(Wire.ErrorFrame(reqId, s)) == reqId
    ensures forall cmd | 0 <= cmd < Wire.RESPONSE_BIT ::
      Wire.WellFormed(Wire.ReplyFrame(reqId, cmd, Wire.Ok, []))
      && Wire.ReqId(Wire.ReplyFrame(reqId, cmd, Wire.Ok, [])) == reqId
  {
    forall s ensures Wire.WellFormed(Wire.ErrorFrame(reqId, s)) && Wire.ReqId(Wire.ErrorFrame(reqId, s)) == reqId {
      Wire.ErrorWellFormed(reqId, s);
    }
    forall cmd | 0 <= cmd < Wire.RESPONSE_BIT
      ensures Wire.WellFormed(Wire.ReplyFrame(reqId, cmd, Wire.Ok, []))
              && Wire.ReqId(Wire.ReplyFrame(reqId, cmd, Wire.Ok, [])) == reqId
    {
      Wire.ReplyWellFormed(reqId, cmd, Wire.Ok, []);
    }
  }

  lemma {:induction false} HashKeeps(c: Crypto, w: World, reqId: Wire.U32, payload: seq<byte>, w': World, f: seq<byte>)
    requires Inv(w) && (w', f) == HashReply(c, w, reqId, payload)
    ensures Inv(w') && SameHolders(w, w')
    ensures Wire.WellFormed(f) && Wire.ReqId(f) == reqId
    decreases |payload|, 0
  {
    FramesWellFormed(reqId);
    if |payload| >= CAP_LEN {
      var cap := CapOf(payload);
      if Authentic(w.slots, cap, USE) {
        var (w1, r1) := BusWrite(c, w, cap.slot, payload[CAP_LEN..]);
        WriteKeeps(c, w, cap.slot, payload[CAP_LEN..], w1);
        var (w2, r2) := BusRead(w1, cap.slot, DIGEST_LEN);
        ReadKeeps(w1, cap.slot, DIGEST_LEN, w2);
        HoldersTrans(w, w1, w2);
        if r2.Done? && |r2.value| == DIGEST_LEN {
          Wire.ReplyWellFormed(reqId, Wire.CMD_BLAKE3, Wire.Ok, r2.value);
        }
      }
    }
  }
}
