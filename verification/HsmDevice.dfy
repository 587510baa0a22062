/**
 * The registry in place: each slot owns the storage of its bus, and a request that
 * re-enters the registry works on the very buffers the outer request is using.
 */
module HsmDevice {
  import opened Words
  import opened SoftBus
  import opened Registry
  import opened HsmRuns
  import Wire
  import Audit

  /** The ring-3 bus of a slot: its one pending response lies in a fixed buffer. */
  class Ring3Bus {
    const pending: array<byte>
    var open: bool
    var endpoint: nat
    var len: nat

    ghost function Value(): WireState
      reads this, pending
    {
      WireState(open, endpoint, pending[..], len)
    }

    ghost predicate Valid()
      reads this, pending
    {
      WireOk(Value())
    }

    constructor ()
      ensures Valid() && fresh(pending) && Value() == NEW_WIRE
    {
      pending := new byte[Wire.FRAME_MAX](_ => 0);
      open, endpoint, len := false, INVALID_ENDPOINT, 0;
      new;
      assert pending[..] == Zeros(Wire.FRAME_MAX);
    }

    /** Writes a frame over the front of the buffer. */
    method Store(frame: seq<byte>)
      requires Valid() && |frame| <= Wire.FRAME_MAX
      modifies this, pending
      ensures Valid()
      ensures Value() == old(Value()).(pending := frame + old(pending[..])[|frame|..], len := |frame|)
    {
      CopyInto(pending, 0, frame);
      assert pending[..] == frame + old(pending[..])[|frame|..];
      len := |frame|;
    }

    /** Hands the response over and clears the whole buffer. */
    method Read(out: array<byte>, room: nat) returns (r: Res<nat>)
      requires Valid() && out != pending && room <= out.Length
      modifies this, pending, out
      ensures Valid()
      ensures r.Fail? ==> Value() == old(Value()) && out[..] == old(out[..])
      ensures r == if !old(open) then Fail(NotOpen) else if old(len) == 0 then Fail(WireNotReady)
                   else if room < old(len) then Fail(BusError.Internal) else Done(old(len))
      ensures r.Done? ==>
        && Value() == old(Value()).(pending := Zeros(Wire.FRAME_MAX), len := 0)
        && out[..r.value] == old(pending[..r.value]) && out[r.value..] == old(out[r.value..])
    {
      if !open {
        return Fail(NotOpen);
      }
      if len == 0 {
        return Fail(WireNotReady);
      }
      if room < len {
        return Fail(BusError.Internal);
      }
      var n := len;
      CopyInto(out, 0, pending[..n]);
      assert out[..n] == pending[..n];
      Wipe(pending);
      len := 0;
      r := Done(n);
    }

    method Open(init: seq<byte>, endpoints: set<nat>) returns (ok: bool)
      requires Valid() && !open
      modifies this
      ensures Valid() && ok == (OpenBus(Ring3Kind, init, Draw(None, None, endpoints)).Some?)
      ensures Value() == if ok then old(Value()).(open := true, endpoint := U16At(init, 0)) else old(Value())
    {
      if |init| < 2 {
        return false;
      }
      var id := U16At(init, 0);
      var i := 2;
      while i < |init|
        invariant 2 <= i <= |init|
        invariant forall k | 2 <= k < i :: init[k] == 0
      {
        if init[i] != 0 {
          assert init[2..][i - 2] != Zeros(|init| - 2)[i - 2];
          return false;
        }
        i := i + 1;
      }
      assert init[2..] == Zeros(|init| - 2);
      if id == INVALID_ENDPOINT || id !in endpoints {
        return false;
      }
      endpoint := id;
      open := true;
      ok := true;
    }

    method Zeroize()
      requires Valid()
      modifies this, pending
      ensures Valid() && Value() == NEW_WIRE
    {
      Wipe(pending);
      len := 0;
      endpoint := INVALID_ENDPOINT;
      open := false;
    }
  }

  /** Which bus of its storage a slot currently uses. */
  datatype Variant = NoVariant | SoftVariant | WireVariant

  datatype Head = Head(state: State, token: nat, rights: nat, variant: Variant, code: byte, prefix: Audit.Prefix)

  const EMPTY_HEAD := Head(Empty, 0, 0, NoVariant, 0, [0, 0, 0, 0])

  class HsmRegistry {
    var heads: seq<Head>
    const softs: seq<SoftwareBus>
    const wires: seq<Ring3Bus>
    const audit: Audit.AuditRing
    /** Staging for data on its way between user memory and buses. */
    const relay: array<byte>
    ghost var slots: Slots
    ghost var log: seq<Note>

    /** No two slots share storage, and staging is apart from all of it. */
    ghost predicate Apart() {
      && |softs| == SLOTS && |wires| == SLOTS
      && (forall i, j | 0 <= i < j < SLOTS :: softs[i] != softs[j] && softs[i].ring != softs[j].ring)
      && (forall i, j | 0 <= i < j < SLOTS :: wires[i] != wires[j] && wires[i].pending != wires[j].pending)
      && (forall i, j | 0 <= i < SLOTS && 0 <= j < SLOTS :: softs[i].ring != wires[j].pending)
    }

    /** A buffer that is not part of any slot. */
    ghost predicate Outside(b: array<byte>)
      requires Apart()
    {
      forall i | 0 <= i < SLOTS :: softs[i].ring != b && wires[i].pending != b
    }

    ghost function Repr(): set<object> {
      (set i | 0 <= i < |softs| :: softs[i] as object) + (set i | 0 <= i < |softs| :: softs[i].ring as object)
      + (set i | 0 <= i < |wires| :: wires[i] as object) + (set i | 0 <= i < |wires| :: wires[i].pending as object)
    }

    lemma StagingApart()
      requires Apart() && Outside(relay)
      ensures relay !in Repr()
    {
    }

    /** The bus storage of slot `i` holds what its value says. */
    ghost predicate Shows(i: nat, s: Slot)
      requires Apart() && i < SLOTS
      reads this`heads, softs[i], softs[i].ring, wires[i], wires[i].pending
    {
      && |heads| == SLOTS && softs[i].Valid() && wires[i].Valid()
      && s == Slot(heads[i].state, heads[i].token, heads[i].rights, BusAt(i), heads[i].code, heads[i].prefix)
    }

    ghost function BusAt(i: nat): Bus
      requires Apart() && i < SLOTS && |heads| == SLOTS && softs[i].Valid() && wires[i].Valid()
      reads this`heads, softs[i], softs[i].ring, wires[i], wires[i].pending
    {
      match heads[i].variant
      case NoVariant => NoBus
      case SoftVariant => Software(softs[i].Value())
      case WireVariant => Ring3(wires[i].Value())
    }

    ghost function Value(): World
      reads this, audit
    {
      World(slots, audit.log, log)
    }

    ghost predicate Ready()
      reads this, Repr(), audit, audit.events
    {
      && Apart() && |heads| == SLOTS && Outside(relay) && relay.Length == CHAN_MAX && audit.Valid()
      && (forall i | 0 <= i < SLOTS :: Shows(i, slots[i]))
      && (forall i | 0 <= i < SLOTS :: heads[i].state.Empty? ==> heads[i].variant.NoVariant?)
    }

    /** Between calls the staging buffer is all zero. */
    ghost predicate Valid()
      reads this, Repr(), audit, audit.events, relay
    {
      Ready() && relay[..] == Zeros(CHAN_MAX)
    }

    constructor ()
      ensures Valid() && Value() == BOOT && fresh(Repr()) && fresh(audit) && fresh(audit.events) && fresh(relay)
    {
      heads := seq(SLOTS, _ => EMPTY_HEAD);
      var b: seq<SoftwareBus> := NewSofts();
      var p: seq<Ring3Bus> := NewWires();
      softs, wires := b, p;
      audit := new Audit.AuditRing();
      relay := new byte[CHAN_MAX](_ => 0);
      slots := seq(SLOTS, _ => EMPTY_SLOT);
      log := [];
      new;
      assert relay[..] == Zeros(CHAN_MAX);
    }

    // -------------------------------------------------------------------
    // One slot's bus
    // -------------------------------------------------------------------

    method SoftWriteAt(c: Crypto, i: nat, data: seq<byte>) returns (r: Res<nat>)
      requires Ready() && i < SLOTS && heads[i].variant.SoftVariant?
      modifies softs[i], softs[i].ring, `slots, `log
      ensures Ready() && (Value(), r) == BusWrite(c, old(Value()), i, data)
    {
      assert Shows(i, slots[i]);
      r := softs[i].Write(c, data);
      ghost var s := softs[i].Value();
      slots := slots[i := slots[i].(bus := Software(s))];
      log := log + SealNote(s, r);
      forall k | 0 <= k < SLOTS ensures Shows(k, slots[k]) {
        assert old(Shows(k, slots[k]));
      }
    }

    method SoftReadAt(i: nat, out: array<byte>, room: nat) returns (r: Res<nat>)
      requires Ready() && i < SLOTS && heads[i].variant.SoftVariant? && Outside(out) && room <= out.Length
      modifies softs[i], out, `slots
      ensures Ready() && Value() == BusRead(old(Value()), i, room).0 && Got(r, BusRead(old(Value()), i, room).1, out, room)
      ensures forall k | (if r.Done? then r.value else 0) <= k < out.Length :: out[k] == old(out[k])
    {
      assert Shows(i, slots[i]);
      r := softs[i].Read(out, room);
      slots := slots[i := slots[i].(bus := Software(softs[i].Value()))];
      assert log + [] == log;
      forall k | 0 <= k < SLOTS ensures Shows(k, slots[k]) {
        assert old(Shows(k, slots[k]));
      }
    }

    method WireReadAt(i: nat, out: array<byte>, room: nat) returns (r: Res<nat>)
      requires Ready() && i < SLOTS && heads[i].variant.WireVariant? && Outside(out) && room <= out.Length
      modifies wires[i], wires[i].pending, out, `slots, `log
      ensures Ready() && Value() == BusRead(old(Value()), i, room).0 && Got(r, BusRead(old(Value()), i, room).1, out, room)
      ensures forall k | (if r.Done? then r.value else 0) <= k < out.Length :: out[k] == old(out[k])
    {
      assert Shows(i, slots[i]);
      r := wires[i].Read(out, room);
      if r.Done? {
        slots := slots[i := slots[i].(bus := Ring3(wires[i].Value()))];
        log := log + [Gave(i, out[..r.value])];
      }
      forall k | 0 <= k < SLOTS ensures Shows(k, slots[k]) {
        assert old(Shows(k, slots[k]));
      }
    }

    /** Writes the frame over the front of the slot's own buffer, whatever a nested request left there. */
    method StoreReply(i: nat, frame: seq<byte>, ghost reqId: nat)
      requires Ready() && i < SLOTS && heads[i].variant.WireVariant? && |frame| <= Wire.FRAME_MAX
      modifies wires[i], wires[i].pending, `slots, `log
      ensures Ready() && Value() == PutReply(old(Value()), i, reqId, frame)
    {
      assert Shows(i, slots[i]);
      wires[i].Store(frame);
      slots := slots[i := slots[i].(bus := Ring3(wires[i].Value()))];
      log := log + [Took(i, reqId)];
      forall k | 0 <= k < SLOTS ensures Shows(k, slots[k]) {
        assert old(Shows(k, slots[k]));
      }
    }

    /** `r` and the front of `out` say what the value-level read returned. */
    ghost predicate Got(r: Res<nat>, want: Res<seq<byte>>, out: array<byte>, room: nat)
      reads out
    {
      if r.Fail? then want == Fail(r.error) else r.value <= room <= out.Length && want == Done(out[..r.value])
    }

    method ReadBus(i: nat, out: array<byte>, room: nat) returns (r: Res<nat>)
      requires Ready() && i < SLOTS && Outside(out) && room <= out.Length
      modifies Repr(), out, `slots, `log
      ensures Ready() && Value() == BusRead(old(Value()), i, room).0 && Got(r, BusRead(old(Value()), i, room).1, out, room)
      ensures forall k | (if r.Done? then r.value else 0) <= k < out.Length :: out[k] == old(out[k])
    {
      assert Shows(i, slots[i]);
      match heads[i].variant
      case NoVariant => r := Fail(NotOpen);
      case SoftVariant => r := SoftReadAt(i, out, room);
      case WireVariant => r := WireReadAt(i, out, room);
    }

    /** Reads through a new buffer. */
    method ReadOut(i: nat, room: nat) returns (r: Res<seq<byte>>)
      requires Ready() && i < SLOTS
      modifies Repr(), `slots, `log
      ensures Ready() && (Value(), r) == BusRead(old(Value()), i, room)
    {
      var staging := new byte[room](_ => 0);
      var got := ReadBus(i, staging, room);
      r := if got.Fail? then Fail(got.error) else Done(staging[..got.value]);
    }

    // -------------------------------------------------------------------
    // Requests
    // -------------------------------------------------------------------

    method WriteBus(c: Crypto, i: nat, data: seq<byte>) returns (r: Res<nat>)
      requires Ready() && i < SLOTS
      modifies Repr(), audit, audit.events, `slots, `log
      ensures Ready() && (Value(), r) == BusWrite(c, old(Value()), i, data)
      decreases |data|, 1
    {
      assert Shows(i, slots[i]);
      match heads[i].variant
      case NoVariant => r := Fail(NotOpen);
      case SoftVariant => r := SoftWriteAt(c, i, data);
      case WireVariant =>
        if !wires[i].open {
          return Fail(NotOpen);
        }
        if wires[i].len != 0 || !Wire.IsRequest(data) {
          return Fail(BusError.Internal);
        }
        TakeRequest(c, i, data);
        r := Done(|data|);
    }

    /** Serves a request and keeps the answer in the pending frame of the slot it came through. */
    method TakeRequest(c: Crypto, i: nat, data: seq<byte>)
      requires Ready() && i < SLOTS && heads[i].variant.WireVariant? && Wire.IsRequest(data)
      modifies Repr(), audit, audit.events, `slots, `log
      ensures Ready()
      ensures var (w, f) := Respond(c, old(Value()), Wire.ParseHeader(data), Wire.Payload(data));
        Value() == PutReply(w, i, Wire.ReqId(data), f)
      decreases |data|, 0
    {
      var frame := Dispatch(c, Wire.ParseHeader(data), Wire.Payload(data));
      StoreReply(i, frame, Wire.ReqId(data));
    }

    method Dispatch(c: Crypto, h: Wire.Header, payload: seq<byte>) returns (frame: seq<byte>)
      requires Ready()
      modifies Repr(), audit, audit.events, `slots, `log
      ensures Ready() && (Value(), frame) == Respond(c, old(Value()), h, payload)
      decreases |payload|
    {
      if h.cmd == Wire.CMD_PING {
        frame := Wire.ReplyFrame(h.reqId, Wire.CMD_PING, Wire.Ok, []);
      } else if h.cmd == Wire.CMD_BLAKE3 {
        frame := ServeHash(c, h.reqId, payload);
      } else if h.cmd == Wire.CMD_ATTEST {
        frame := ServeAttest(c, h.reqId, payload);
      } else if h.cmd == Wire.CMD_STATUS {
        frame := ServeStatus(h.reqId, payload);
      } else {
        frame := Wire.ErrorFrame(h.reqId, Wire.UnknownCmd);
      }
    }

    /** Checks a capability against the slot heads. */
    method Authenticate(cap: Cap, required: nat) returns (ok: bool)
      requires Ready()
      ensures ok == Authentic(slots, cap, required)
    {
      if cap.slot >= SLOTS {
        return false;
      }
      assert Shows(cap.slot, slots[cap.slot]);
      var head := heads[cap.slot];
      ok := cap.token != 0 && head.state.Attached? && head.token == cap.token
            && HasAll(head.rights, required) && HasAll(cap.rights, required);
    }

    /** Re-enters the registry through the capability at the front of the payload. */
    method ServeHash(c: Crypto, reqId: Wire.U32, payload: seq<byte>) returns (frame: seq<byte>)
      requires Ready()
      modifies Repr(), audit, audit.events, `slots, `log
      ensures Ready() && (Value(), frame) == HashReply(c, old(Value()), reqId, payload)
      decreases |payload|, 0
    {
      if |payload| < CAP_LEN {
        return Wire.ErrorFrame(reqId, Wire.BadFrame);
      }
      var cap := CapOf(payload);
      var ok := Authenticate(cap, USE);
      if !ok {
        return Wire.ErrorFrame(reqId, Wire.Denied);
      }
      var wrote := WriteBus(c, cap.slot, payload[CAP_LEN..]);
      if wrote.Fail? {
        return Wire.ErrorFrame(reqId, Wire.Internal);
      }
      var got := ReadOut(cap.slot, DIGEST_LEN);
      if got.Fail? || |got.value| != DIGEST_LEN {
        return Wire.ErrorFrame(reqId, Wire.Internal);
      }
      frame := Wire.ReplyFrame(reqId, Wire.CMD_BLAKE3, Wire.Ok, got.value);
    }

    method ServeAttest(c: Crypto, reqId: Wire.U32, payload: seq<byte>) returns (frame: seq<byte>)
      requires Ready()
      modifies audit, audit.events
      ensures Ready() && (Value(), frame) == AttestReply(c, old(Value()), reqId, payload)
    {
      if |payload| != PK_LEN + 1 + SIG_LEN || payload[PK_LEN] > 1 {
        return Wire.ErrorFrame(reqId, Wire.BadFrame);
      }
      var pk, octet := payload[..PK_LEN], payload[PK_LEN];
      var ok := c.attests(pk, octet, payload[PK_LEN + 1..]);
      audit.Enqueue(0xFE, if ok then 5 else 6, octet, KeyPrefix(c, pk));
      frame := if ok then Wire.ReplyFrame(reqId, Wire.CMD_ATTEST, Wire.Ok, []) else Wire.ErrorFrame(reqId, Wire.Denied);
    }

    method ServeStatus(reqId: Wire.U32, payload: seq<byte>) returns (frame: seq<byte>)
      requires Ready()
      ensures frame == StatusReply(audit.log, reqId, payload)
    {
      if payload != [] {
        return Wire.ErrorFrame(reqId, Wire.BadFrame);
      }
      var body := audit.StatusPayload();
      frame := Wire.ReplyFrame(reqId, Wire.CMD_STATUS, Wire.Ok, body);
    }

    // -------------------------------------------------------------------
    // Attaching and detaching
    // -------------------------------------------------------------------

    method FindEmpty() returns (i: nat)
      requires Ready()
      ensures i == FirstEmpty(slots)
    {
      i := 0;
      while i < SLOTS
        invariant i <= SLOTS && forall k | 0 <= k < i :: !heads[k].state.Empty?
      {
        if heads[i].state.Empty? {
          break;
        }
        i := i + 1;
      }
      assert forall k | 0 <= k < SLOTS :: Shows(k, slots[k]) && slots[k].state == heads[k].state;
    }

    /** Opens a new bus in the storage of a vacant slot; the slot does not show it yet. */
    method OpenInto(i: nat, kind: Kind, init: seq<byte>, draw: Draw) returns (v: Variant)
      requires Ready() && i < SLOTS && heads[i].variant.NoVariant?
      modifies softs[i], softs[i].ring, wires[i], wires[i].pending
      ensures Ready() && Shows(i, slots[i])
      ensures v.NoVariant? <==> OpenBus(kind, init, draw).None?
      ensures v.SoftVariant? ==> OpenBus(kind, init, draw) == Some(Software(softs[i].Value()))
      ensures v.WireVariant? ==> OpenBus(kind, init, draw) == Some(Ring3(wires[i].Value()))
    {
      assert Shows(i, slots[i]);
      v := NoVariant;
      match kind {
        case SoftwareKind =>
          softs[i].Zeroize();
          var outcome := softs[i].Open(init, draw.key);
          if outcome.Done? {
            v := SoftVariant;
          }
        case Ring3Kind =>
          wires[i].Zeroize();
          var ok := wires[i].Open(init, draw.endpoints);
          if ok {
            v := WireVariant;
          }
        case _ =>
      }
      forall k | 0 <= k < SLOTS ensures Shows(k, slots[k]) {
        assert old(Shows(k, slots[k]));
      }
    }

    /** Takes the first empty slot; a refusal leaves every slot as it was. */
    method AttachSlot(c: Crypto, kind: Kind, init: seq<byte>, attest: Option<seq<byte>>, rights: nat, draw: Draw)
      returns (r: CapRes)
      requires Ready()
      modifies Repr(), `heads, `slots, `log
      ensures Ready() && (Value(), r) == Attach(c, old(Value()), kind, init, attest, rights, draw)
    {
      if attest.Some? && !Attested(c, kind, attest.value) {
        return Refused(AttestFailed);
      }
      var i := FindEmpty();
      if i == SLOTS {
        return Refused(Full);
      }
      if draw.token.None? {
        return Refused(TokenGen);
      }
      r := AttachAt(c, i, kind, init, attest, rights, draw);
    }

    method AttachAt(c: Crypto, i: nat, kind: Kind, init: seq<byte>, attest: Option<seq<byte>>, rights: nat, draw: Draw)
      returns (r: CapRes)
      requires Ready() && i == FirstEmpty(slots) < SLOTS && draw.token.Some?
      requires attest.Some? ==> Attested(c, kind, attest.value)
      modifies softs[i], softs[i].ring, wires[i], wires[i].pending, `heads, `slots, `log
      ensures Ready() && (Value(), r) == Attach(c, old(Value()), kind, init, attest, rights, draw)
    {
      assert Shows(i, slots[i]);
      var v := OpenInto(i, kind, init, draw);
      if v.NoVariant? {
        return Refused(CapError.BadInit);
      }
      FillSlot(c, i, v, OpenBus(kind, init, draw).value, attest, rights, draw.token.value);
      r := Issued(Cap(draw.token.value, i, rights));
    }

    /** Field by field, the state last. */
    method FillSlot(c: Crypto, i: nat, v: Variant, ghost bus: Bus, attest: Option<seq<byte>>, rights: nat, token: nat)
      requires Ready() && i < SLOTS && (attest.Some? ==> |attest.value| >= PK_LEN)
      requires match v
        case NoVariant => bus == NoBus
        case SoftVariant => softs[i].Valid() && bus == Software(softs[i].Value())
        case WireVariant => wires[i].Valid() && bus == Ring3(wires[i].Value())
      modifies `heads, `slots, `log
      ensures Ready() && log == old(log) + [Opened(i)]
      ensures slots == old(slots)[i := Slot(Attached, token, rights, bus,
                                            if attest.Some? then 0 else old(heads)[i].code,
                                            if attest.Some? then KeyPrefix(c, attest.value[..PK_LEN]) else old(heads)[i].prefix)]
    {
      var head := heads[i].(variant := v);
      head := head.(token := token);
      head := head.(rights := rights);
      if attest.Some? {
        head := head.(code := 0, prefix := KeyPrefix(c, attest.value[..PK_LEN]));
      }
      Commit(i, head.(state := Attached), bus);
      log := log + [Opened(i)];
    }

    /** The head of one slot changes, and with it which storage the slot shows. */
    method Commit(i: nat, head: Head, ghost bus: Bus)
      requires Ready() && i < SLOTS && (head.state.Empty? ==> head.variant.NoVariant?)
      requires match head.variant
        case NoVariant => bus == NoBus
        case SoftVariant => softs[i].Valid() && bus == Software(softs[i].Value())
        case WireVariant => wires[i].Valid() && bus == Ring3(wires[i].Value())
      modifies `heads, `slots
      ensures Ready() && heads == old(heads)[i := head]
      ensures slots == old(slots)[i := Slot(head.state, head.token, head.rights, bus, head.code, head.prefix)]
    {
      assert Shows(i, slots[i]);
      heads := heads[i := head];
      slots := slots[i := Slot(head.state, head.token, head.rights, bus, head.code, head.prefix)];
      forall k | 0 <= k < SLOTS ensures Shows(k, slots[k]) {
        assert old(Shows(k, slots[k]));
      }
    }

    method DetachSlot(cap: Cap, required: nat) returns (r: Option<CapError>)
      requires Ready()
      modifies Repr(), `heads, `slots, `log
      ensures Ready() && (Value(), r) == Detach(old(Value()), cap, required)
    {
      var ok := Authenticate(cap, required);
      var i := cap.slot;
      if !ok {
        if i >= SLOTS {
          return Some(InvalidSlot);
        }
        assert Shows(i, slots[i]);
        match heads[i].state
        case Detaching => return Some(Busy);
        case Empty => return Some(NotAttached);
        case Attached => return Some(InvalidToken);
      }
      Vacate(i);
      log := log + [Shut(i)];
      r := None;
    }

    /** The detaching window: the bus is wiped before the slot becomes empty. */
    method Vacate(i: nat)
      requires Ready() && i < SLOTS
      modifies softs[i], softs[i].ring, wires[i], wires[i].pending, `heads, `slots
      ensures Ready() && slots == old(slots)[i := EMPTY_SLOT]
    {
      assert Shows(i, slots[i]);
      Commit(i, heads[i].(state := Detaching), slots[i].bus);
      WipeBus(i);
      Commit(i, EMPTY_HEAD, NoBus);
    }

    /** Closes and wipes the storage of a slot in its detaching window. */
    method WipeBus(i: nat)
      requires Ready() && i < SLOTS
      modifies softs[i], softs[i].ring, wires[i], wires[i].pending, `heads, `slots
      ensures Ready() && heads == old(heads)[i := old(heads)[i].(token := 0, variant := NoVariant)]
      ensures forall k | 0 <= k < SLOTS && k != i :: slots[k] == old(slots[k])
      ensures old(heads[i]).variant.SoftVariant? ==> softs[i].Value() == CLOSED_BUS
      ensures old(heads[i]).variant.WireVariant? ==> wires[i].Value() == NEW_WIRE
    {
      assert Shows(i, slots[i]);
      var v := heads[i].variant;
      Commit(i, heads[i].(token := 0, variant := NoVariant), NoBus);
      if v.SoftVariant? {
        WipeSoft(i);
      } else if v.WireVariant? {
        WipeWire(i);
      }
    }

    /** Storage no slot is using. */
    method WipeSoft(i: nat)
      requires Ready() && i < SLOTS && !heads[i].variant.SoftVariant?
      modifies softs[i], softs[i].ring
      ensures Ready() && softs[i].Value() == CLOSED_BUS
    {
      assert Shows(i, slots[i]);
      var _ := softs[i].Close();
      softs[i].Zeroize();
      forall k | 0 <= k < SLOTS ensures Shows(k, slots[k]) {
        assert old(Shows(k, slots[k]));
      }
    }

    method WipeWire(i: nat)
      requires Ready() && i < SLOTS && !heads[i].variant.WireVariant?
      modifies wires[i], wires[i].pending
      ensures Ready() && wires[i].Value() == NEW_WIRE
    {
      assert Shows(i, slots[i]);
      wires[i].Zeroize();
      forall k | 0 <= k < SLOTS ensures Shows(k, slots[k]) {
        assert old(Shows(k, slots[k]));
      }
    }

    // -------------------------------------------------------------------
    // System calls
    // -------------------------------------------------------------------

    /** Attaches for user space and records the outcome of the attestation. */
    method SysAttach(c: Crypto, e: Enrolment) returns (r: Sys, cap: Option<Cap>)
      requires Valid() && (e.attest.Some? ==> |e.attest.value| == e.attestLen)
      modifies Repr(), `heads, `slots, `log, audit, audit.events
      ensures Valid()
      ensures (Value(), r, cap) == HandleAttach(c, old(Value()), e)
    {
      if e.kind == 6 {
        audit.Enqueue(0xFF, 2, 6, [0, 0, 0, 0]);
        return SysDenied, None;
      }
      if e.kind > 1 || e.initLen > INIT_MAX || e.attestLen != PK_LEN + SIG_LEN {
        return BadArg, None;
      }
      if (e.initLen > 0 && e.init.None?) || !e.outIsUser || e.attest.None? {
        return BadAddress, None;
      }
      var issued := AttachSlot(c, KindOf(e), Blob(e), e.attest, ALL_RIGHTS, e.draw);
      r, cap := RecordOutcome(c, e, issued, old(Value()));
    }

    method RecordOutcome(c: Crypto, e: Enrolment, issued: CapRes, ghost was: World) returns (r: Sys, cap: Option<Cap>)
      requires Valid() && WellPosed(e) && |e.attest.value| == e.attestLen
      requires (Value(), issued) == Attach(c, was, KindOf(e), Blob(e), e.attest, ALL_RIGHTS, e.draw)
      modifies audit, audit.events
      ensures Valid() && (Value(), r, cap) == HandleAttach(c, was, e)
    {
      var prefix := KeyPrefix(c, e.attest.value[..PK_LEN]);
      match issued
      case Issued(held) =>
        audit.Enqueue(held.slot as byte, 0, Octet(KindOf(e)), prefix);
        return Returned(0), Some(held);
      case Refused(error) =>
        if error.AttestFailed? {
          audit.Enqueue(0xFF, 1, Octet(KindOf(e)), prefix);
          return SysDenied, None;
        }
        return if error.Full? || error.BadInit? then BadArg else SysInternal, None;
    }

    method SysWrite(c: Crypto, cap: Option<Cap>, len: nat, data: Option<seq<byte>>) returns (r: Sys)
      requires Valid() && (data.Some? ==> |data.value| == len)
      modifies Repr(), `slots, `log, audit, audit.events, relay
      ensures Valid() && (Value(), r) == HandleWrite(c, old(Value()), cap, len, data)
      ensures r == BadArg <==> len == 0 || len > 4096
      ensures r == BadAddress <==> 0 < len <= 4096 && (cap.None? || data.None?)
      ensures r.Returned? ==> r.n == 0
    {
      if !(0 < len <= CHAN_MAX) {
        return BadArg;
      }
      if cap.None? || data.None? {
        return BadAddress;
      }
      var ok := Authenticate(cap.value, USE);
      if !ok {
        return SysDenied;
      }
      var wrote := WriteStaged(c, cap.value.slot, data.value);
      r := if wrote.Done? then Returned(0) else SysInternal;
    }

    /** Leaves the staging buffer zero, whatever it held. */
    method ClearStaging()
      requires Ready()
      modifies relay
      ensures Valid()
    {
      Wipe(relay);
    }

    method WriteStaged(c: Crypto, i: nat, data: seq<byte>) returns (r: Res<nat>)
      requires Ready() && i < SLOTS && |data| <= CHAN_MAX
      modifies Repr(), `slots, `log, audit, audit.events, relay
      ensures Valid() && (Value(), r) == BusWrite(c, old(Value()), i, data)
    {
      ClearStaging();
      CopyInto(relay, 0, data);
      assert relay[..|data|] == data;
      r := WriteBus(c, i, relay[..|data|]);
      ClearStaging();
    }

    /** The bytes read pass through a buffer of their own. */
    method SysRead(cap: Option<Cap>, len: nat, outIsUser: bool) returns (r: Sys, out: seq<byte>)
      requires Valid()
      modifies Repr(), `slots, `log
      ensures Valid() && (Value(), r, out) == HandleRead(old(Value()), cap, len, outIsUser)
      ensures r == BadArg <==> len < 16 || len > 4096
      ensures r == BadAddress <==> 16 <= len <= 4096 && (cap.None? || !outIsUser)
      ensures if r.Returned? then r.n == |out| else out == []
    {
      if !(Wire.HEADER_LEN <= len <= Wire.FRAME_MAX) {
        return BadArg, [];
      }
      if cap.None? || !outIsUser {
        return BadAddress, [];
      }
      var ok := Authenticate(cap.value, USE);
      if !ok {
        return SysDenied, [];
      }
      StagingApart();
      var got := ReadOut(cap.value.slot, len);
      if got.Fail? {
        return SysInternal, [];
      }
      r, out := Returned(|got.value|), got.value;
    }

    method SysRelay(c: Crypto, src: Option<Cap>, dst: Option<Cap>, n: nat) returns (r: Sys)
      requires Valid()
      modifies Repr(), `slots, `log, audit, audit.events, relay
      ensures Valid() && (Value(), r) == HandleRelay(c, old(Value()), src, dst, n)
      ensures r == BadArg <==> n == 0 || n > 4096
      ensures r == BadAddress <==> 0 < n <= 4096 && (src.None? || dst.None?)
      ensures r.Returned? ==> r.n == 0
    {
      if !(0 < n <= CHAN_MAX) {
        return BadArg;
      }
      if src.None? || dst.None? {
        return BadAddress;
      }
      var srcOk := Authenticate(src.value, RELAY_SRC);
      var dstOk := Authenticate(dst.value, RELAY_DST);
      if !(srcOk && dstOk) {
        return SysDenied;
      }
      r := Carry(c, src.value.slot, dst.value.slot, n);
    }

    method Carry(c: Crypto, src: nat, dst: nat, n: nat) returns (r: Sys)
      requires Ready() && src < SLOTS && dst < SLOTS && n <= CHAN_MAX
      modifies Repr(), `slots, `log, audit, audit.events, relay
      ensures Valid() && Moved(c, old(Value()), Value(), src, dst, n, r)
    {
      ClearStaging();
      r := Transfer(c, src, dst, n);
      ClearStaging();
    }

    /** What a relay does once both capabilities are accepted. */
    ghost predicate Moved(c: Crypto, w: World, w': World, src: nat, dst: nat, n: nat, r: Sys)
      requires src < SLOTS && dst < SLOTS
    {
      var (w1, got) := BusRead(w, src, n);
      if got.Fail? || |got.value| != n then w' == w1 && r == SysInternal
      else
        var (w2, m) := BusWrite(c, w1, dst, got.value);
        w' == w2 && r == if m == Done(n) then Returned(0) else SysInternal
    }

    /** Source bus to staging buffer to destination bus. */
    method Transfer(c: Crypto, src: nat, dst: nat, n: nat) returns (r: Sys)
      requires Ready() && src < SLOTS && dst < SLOTS && n <= CHAN_MAX
      modifies Repr(), `slots, `log, audit, audit.events, relay
      ensures Ready() && Moved(c, old(Value()), Value(), src, dst, n, r)
    {
      var got := ReadBus(src, relay, n);
      if got != Done(n) {
        return SysInternal;
      }
      var m := WriteBus(c, dst, relay[..n]);
      r := if m == Done(n) then Returned(0) else SysInternal;
    }
  }

  method NewSofts() returns (b: seq<SoftwareBus>)
    ensures |b| == SLOTS && forall i | 0 <= i < SLOTS :: fresh(b[i]) && fresh(b[i].ring) && b[i].Valid()
    ensures forall i, j | 0 <= i < j < SLOTS :: b[i] != b[j] && b[i].ring != b[j].ring
  {
    b := [];
    while |b| < SLOTS
      invariant |b| <= SLOTS
      invariant forall i | 0 <= i < |b| :: fresh(b[i]) && fresh(b[i].ring) && b[i].Valid()
      invariant forall i, j | 0 <= i < j < |b| :: b[i] != b[j] && b[i].ring != b[j].ring
    {
      var one := new SoftwareBus();
      b := b + [one];
    }
  }

  method NewWires() returns (b: seq<Ring3Bus>)
    ensures |b| == SLOTS && forall i | 0 <= i < SLOTS :: fresh(b[i]) && fresh(b[i].pending) && b[i].Valid()
    ensures forall i, j | 0 <= i < j < SLOTS :: b[i] != b[j] && b[i].pending != b[j].pending
  {
    b := [];
    while |b| < SLOTS
      invariant |b| <= SLOTS
      invariant forall i | 0 <= i < |b| :: fresh(b[i]) && fresh(b[i].pending) && b[i].Valid()
      invariant forall i, j | 0 <= i < j < |b| :: b[i] != b[j] && b[i].pending != b[j].pending
    {
      var one := new Ring3Bus();
      b := b + [one];
    }
  }
}
