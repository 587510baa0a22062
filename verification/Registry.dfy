/**
 * The HSM slot registry with its buses as one value, so that a request which
 * re-enters the registry while it is being served has a sequential meaning.
 */
module Registry {
  import opened Words
  import opened SoftBus
  import Wire
  import Audit

  const SLOTS: nat := 8
  const PK_LEN: nat := 1312
  const SIG_LEN: nat := 2420
  const INVALID_ENDPOINT: nat := 0xFFFF
  const CAP_LEN: nat := 16

  const USE: nat := 1
  const ENUMERATE: nat := 2
  const REVOKE: nat := 4
  const RELAY_SRC: nat := 8
  const RELAY_DST: nat := 16

  datatype Kind = SoftwareKind | Ring3Kind | Usb | Spi | Serial | SmartCard | Network

  function Octet(k: Kind): byte {
    match k
    case SoftwareKind => 0
    case Ring3Kind => 1
    case Usb => 2
    case Spi => 3
    case Serial => 4
    case SmartCard => 5
    case Network => 6
  }

  /** The bus to a ring-3 device: at most one response, waiting to be read. */
  datatype WireState = WireState(open: bool, endpoint: nat, pending: seq<byte>, len: nat)

  predicate WireOk(b: WireState) {
    |b.pending| == Wire.FRAME_MAX && b.len <= Wire.FRAME_MAX
  }

  const NEW_WIRE := WireState(false, INVALID_ENDPOINT, Zeros(Wire.FRAME_MAX), 0)

  type WireBus = b: WireState | WireOk(b) witness NEW_WIRE

  datatype Bus = NoBus | Software(soft: Soft) | Ring3(wire: WireBus) | Stub(kind: Kind)

  datatype State = Empty | Attached | Detaching

  datatype Slot = Slot(state: State, token: nat, rights: nat, bus: Bus, code: byte, prefix: Audit.Prefix)

  const EMPTY_SLOT := Slot(Empty, 0, 0, NoBus, 0, [0, 0, 0, 0])

  type Slots = s: seq<Slot> | |s| == SLOTS witness seq(SLOTS, _ => EMPTY_SLOT)

  /** A slot index as a capability carries it: one byte, not necessarily a slot that exists. */
  type SlotByte = n: nat | n < 256

  datatype Cap = Cap(token: nat, slot: SlotByte, rights: nat)

  /** What happened on the buses, in order; nothing in the registry depends on it. */
  datatype Note =
    | Opened(slot: nat)
    | Shut(slot: nat)
    | Took(slot: nat, reqId: nat)
    | Gave(slot: nat, frame: seq<byte>)
    | Sealing(key: seq<byte>, count: nat)

  datatype World = World(slots: Slots, audit: seq<Audit.Event>, log: seq<Note>)

  const BOOT := World(seq(SLOTS, _ => EMPTY_SLOT), [], [])

  // ---------------------------------------------------------------------
  // Capabilities
  // ---------------------------------------------------------------------

  predicate Bit(n: nat, i: nat) {
    if i == 0 then n % 2 == 1 else Bit(n / 2, i - 1)
  }

  /** Every right of `required` is among `rights` (16-bit masks). */
  predicate HasAll(rights: nat, required: nat) {
    forall i | 0 <= i < 16 :: Bit(required, i) ==> Bit(rights, i)
  }

  /** A capability is honoured only against the token and rights its slot holds. */
  predicate Authentic(slots: Slots, cap: Cap, required: nat) {
    && cap.slot < SLOTS
    && cap.token != 0
    && slots[cap.slot].state.Attached?
    && slots[cap.slot].token == cap.token
    && HasAll(slots[cap.slot].rights, required)
    && HasAll(cap.rights, required)
  }

  /** The in-memory form: token, slot, padding, rights, padding. */
  function CapOf(b: seq<byte>): Cap
    requires |b| >= CAP_LEN
  {
    Cap(U64At(b, 0), b[8] as nat, U16At(b, 10))
  }

  function CapBytes(cap: Cap): (b: seq<byte>)
    requires cap.token < U64_LIMIT && cap.rights < U16_LIMIT
    ensures |b| == CAP_LEN
  {
    Le64(cap.token) + [cap.slot as byte, 0] + Le16(cap.rights) + [0, 0, 0, 0]
  }

  /** A capability written to user memory reads back as itself, whatever follows it. */
  lemma CapRoundTrip(cap: Cap, rest: seq<byte>)
    requires cap.token < U64_LIMIT && cap.rights < U16_LIMIT
    ensures CapOf(CapBytes(cap) + rest) == cap
    ensures CapBytes(cap)[9] == 0 && CapBytes(cap)[12..] == [0, 0, 0, 0]
  {
    var b := CapBytes(cap) + rest;
    assert b[0..8] == Le64(cap.token) && b[10..12] == Le16(cap.rights) && b[8] == cap.slot as byte;
    Le64At(b, 0, cap.token);
    Le16At(b, 10, cap.rights);
  }

  // ---------------------------------------------------------------------
  // Attaching and detaching
  // ---------------------------------------------------------------------

  datatype CapError = InvalidToken | InvalidSlot | Full | NotAttached | Busy | TokenGen | BadInit | AttestFailed

  datatype CapRes = Issued(cap: Cap) | Refused(error: CapError)

  type Token = t: nat | 0 < t < U64_LIMIT witness 1

  /** What the random generator and the endpoint table answer during one attach. */
  datatype Draw = Draw(token: Option<Token>, key: Option<seq<byte>>, endpoints: set<nat>)

  function FirstEmpty(s: seq<Slot>): (n: nat)
    ensures n <= |s|
    ensures n < |s| ==> s[n].state.Empty?
    ensures forall k | 0 <= k < n :: !s[k].state.Empty?
  {
    if s == [] || s[0].state.Empty? then 0
    else
      var n := FirstEmpty(s[1..]);
      assert forall k | 1 <= k < n + 1 :: s[k] == s[1..][k - 1];
      1 + n
  }

  function KeyPrefix(c: Crypto, pk: seq<byte>): Audit.Prefix {
    match c.hash(pk)
    case None => Zeros(4)
    case Some(d) => d[..4]
  }

  predicate Attested(c: Crypto, kind: Kind, payload: seq<byte>) {
    |payload| == PK_LEN + SIG_LEN && c.attests(payload[..PK_LEN], Octet(kind), payload[PK_LEN..])
  }

  /** The bus an init blob opens for a kind, if it opens at all. */
  function OpenBus(kind: Kind, init: seq<byte>, draw: Draw): Option<Bus> {
    match kind
    case SoftwareKind =>
      var (s, r) := SoftOpen(CLOSED_BUS, init, draw.key);
      if r.Done? then Some(Software(s)) else None
    case Ring3Kind =>
      if |init| < 2 then None
      else
        var id := U16At(init, 0);
        if init[2..] == Zeros(|init| - 2) && id != INVALID_ENDPOINT && id in draw.endpoints
        then Some(Ring3(NEW_WIRE.(open := true, endpoint := id)))
        else None
    case _ => None
  }

  function Attach(c: Crypto, w: World, kind: Kind, init: seq<byte>, attest: Option<seq<byte>>, rights: nat, draw: Draw)
    : (World, CapRes)
  {
    if attest.Some? && !Attested(c, kind, attest.value) then (w, Refused(AttestFailed))
    else
      var i := FirstEmpty(w.slots);
      if i == SLOTS then (w, Refused(Full))
      else if draw.token.None? then (w, Refused(TokenGen))
      else match OpenBus(kind, init, draw)
        case None => (w, Refused(CapError.BadInit))
        case Some(bus) =>
          var slot := w.slots[i].(state := Attached, token := draw.token.value, rights := rights, bus := bus);
          var noted := if attest.Some? then slot.(code := 0, prefix := KeyPrefix(c, attest.value[..PK_LEN])) else slot;
          (w.(slots := w.slots[i := noted], log := w.log + [Opened(i)]),
           Issued(Cap(draw.token.value, i, rights)))
  }

  function Detach(w: World, cap: Cap, required: nat): (World, Option<CapError>) {
    if Authentic(w.slots, cap, required) then
      (w.(slots := w.slots[cap.slot := EMPTY_SLOT], log := w.log + [Shut(cap.slot)]), None)
    else if cap.slot >= SLOTS then (w, Some(InvalidSlot))
    else match w.slots[cap.slot].state
      case Detaching => (w, Some(Busy))
      case Empty => (w, Some(NotAttached))
      case Attached => (w, Some(InvalidToken))
  }

  // ---------------------------------------------------------------------
  // Reading and writing a slot's bus
  // ---------------------------------------------------------------------

  function SetBus(w: World, i: nat, bus: Bus, notes: seq<Note>): World
    requires i < SLOTS
  {
    w.(slots := w.slots[i := w.slots[i].(bus := bus)], log := w.log + notes)
  }

  function BusRead(w: World, i: nat, room: nat): (World, Res<seq<byte>>)
    requires i < SLOTS
  {
    match w.slots[i].bus
    case NoBus => (w, Fail(NotOpen))
    case Stub(_) => (w, Fail(NotImplemented))
    case Software(s) =>
      var (s', r) := SoftRead(s, room);
      (SetBus(w, i, Software(s'), []), r)
    case Ring3(b) =>
      if !b.open then (w, Fail(NotOpen))
      else if b.len == 0 then (w, Fail(WireNotReady))
      else if room < b.len then (w, Fail(BusError.Internal))
      else
        var f := b.pending[..b.len];
        (SetBus(w, i, Ring3(b.(pending := Zeros(Wire.FRAME_MAX), len := 0)), [Gave(i, f)]), Done(f))
  }

  /** A bus ready to take a new request. */
  predicate Idle(b: WireBus) {
    b.open && b.len == 0
  }

  function SealNote(s: Soft, r: Res<nat>): seq<Note> {
    if r.Done? && s.role.AesGcm? then [Sealing(s.aes.value.key, s.aes.value.count)] else []
  }

  ghost function BusWrite(c: Crypto, w: World, i: nat, data: seq<byte>): (World, Res<nat>)
    requires i < SLOTS
    decreases |data|
  {
    match w.slots[i].bus
    case NoBus => (w, Fail(NotOpen))
    case Stub(_) => (w, Fail(NotImplemented))
    case Software(s) =>
      var (s', r) := SoftWrite(c, s, data);
      (SetBus(w, i, Software(s'), SealNote(s', r)), r)
    case Ring3(b) =>
      if !b.open then (w, Fail(NotOpen))
      else if b.len != 0 || !Wire.IsRequest(data) then (w, Fail(BusError.Internal))
      else
        var (w1, f) := Respond(c, w, Wire.ParseHeader(data), Wire.Payload(data));
        (PutReply(w1, i, Wire.ReqId(data), f), Done(|data|))
  }

  /** The reply overwrites the front of whatever the bus holds by now. */
  function PutReply(w: World, i: nat, reqId: nat, f: seq<byte>): World
    requires i < SLOTS && |f| <= Wire.FRAME_MAX
  {
    match w.slots[i].bus
    case Ring3(b) => SetBus(w, i, Ring3(b.(pending := f + b.pending[|f|..], len := |f|)), [Took(i, reqId)])
    case _ => w
  }

  ghost function Respond(c: Crypto, w: World, h: Wire.Header, payload: seq<byte>): (r: (World, seq<byte>))
    ensures |r.1| <= Wire.FRAME_MAX
    decreases |payload|
  {
    if h.cmd == Wire.CMD_PING then (w, Wire.ReplyFrame(h.reqId, Wire.CMD_PING, Wire.Ok, []))
    else if h.cmd == Wire.CMD_BLAKE3 then HashReply(c, w, h.reqId, payload)
    else if h.cmd == Wire.CMD_ATTEST then AttestReply(c, w, h.reqId, payload)
    else if h.cmd == Wire.CMD_STATUS then (w, StatusReply(w.audit, h.reqId, payload))
    else (w, Wire.ErrorFrame(h.reqId, Wire.UnknownCmd))
  }

  /** Hash request: a capability, then the input for that capability's bus. */
  ghost function HashReply(c: Crypto, w: World, reqId: Wire.U32, payload: seq<byte>): (r: (World, seq<byte>))
    ensures |r.1| <= Wire.FRAME_MAX
    decreases |payload|, 0
  {
    if |payload| < CAP_LEN then (w, Wire.ErrorFrame(reqId, Wire.BadFrame))
    else
      var cap := CapOf(payload);
      if !Authentic(w.slots, cap, USE) then (w, Wire.ErrorFrame(reqId, Wire.Denied))
      else
        var (w1, r1) := BusWrite(c, w, cap.slot, payload[CAP_LEN..]);
        if r1.Fail? then (w1, Wire.ErrorFrame(reqId, Wire.Internal))
        else
          var (w2, r2) := BusRead(w1, cap.slot, DIGEST_LEN);
          if r2.Done? && |r2.value| == DIGEST_LEN
          then (w2, Wire.ReplyFrame(reqId, Wire.CMD_BLAKE3, Wire.Ok, r2.value))
          else (w2, Wire.ErrorFrame(reqId, Wire.Internal))
  }

  /** Re-attestation: key, bus octet, signature. It is recorded but changes no slot. */
  function AttestReply(c: Crypto, w: World, reqId: Wire.U32, payload: seq<byte>): (r: (World, seq<byte>))
    ensures |r.1| <= Wire.FRAME_MAX
  {
    if |payload| != PK_LEN + 1 + SIG_LEN || payload[PK_LEN] > 1 then (w, Wire.ErrorFrame(reqId, Wire.BadFrame))
    else
      var pk, octet := payload[..PK_LEN], payload[PK_LEN];
      var ok := c.attests(pk, octet, payload[PK_LEN + 1..]);
      (w.(audit := Audit.Recorded(w.audit, 0xFE, if ok then 5 else 6, octet, KeyPrefix(c, pk))),
       if ok then Wire.ReplyFrame(reqId, Wire.CMD_ATTEST, Wire.Ok, []) else Wire.ErrorFrame(reqId, Wire.Denied))
  }

  function StatusReply(audit: seq<Audit.Event>, reqId: Wire.U32, payload: seq<byte>): (f: seq<byte>)
    ensures |f| <= Wire.FRAME_MAX
  {
    if payload != [] then Wire.ErrorFrame(reqId, Wire.BadFrame)
    else Wire.ReplyFrame(reqId, Wire.CMD_STATUS, Wire.Ok,
                         Audit.EncodeStatus(Audit.Snapshot(audit, Audit.CAPACITY), |audit| % U32_LIMIT))
  }
}
