/**
 * The in-kernel software bus of an HSM slot: a 64-byte ring used as an echo
 * queue, as the output of a hash, or as the output of AES-GCM sealing.
 */
module SoftBus {
  import opened Words

  const RING: nat := 64
  const DIGEST_LEN: nat := 32
  const NONCE_LEN: nat := 12
  const TAG_LEN: nat := 16

  datatype BusError =
    NotImplemented | NotOpen | AlreadyOpen | WireNotReady | BadInit | BufferTooSmall | Closed | Internal

  datatype Res<+T> = Done(value: T) | Fail(error: BusError)

  datatype Role = Echo | Blake3 | AesGcm

  type Digest = s: seq<byte> | |s| == DIGEST_LEN witness Zeros(DIGEST_LEN)

  /** The primitives the buses call: a hash that may fail, an AEAD (ciphertext
      then tag), and the attestation check over key, bus octet and signature. */
  datatype Crypto = Crypto(
    hash: seq<byte> -> Option<Digest>,
    aead: (seq<byte>, seq<byte>, seq<byte>) -> seq<byte>,
    attests: (seq<byte>, byte, seq<byte>) -> bool)

  function Seal(c: Crypto, key: seq<byte>, nonce: seq<byte>, data: seq<byte>): (s: seq<byte>)
    ensures |s| == |data| + TAG_LEN
  {
    var s := c.aead(key, nonce, data);
    if |s| == |data| + TAG_LEN then s else Zeros(|data| + TAG_LEN)
  }

  datatype Aes = Aes(key: seq<byte>, count: nat)

  datatype SoftState =
    SoftState(ring: seq<byte>, writeLen: nat, readPos: nat, open: bool, role: Role, aes: Option<Aes>)

  predicate SoftOk(s: SoftState) {
    && |s.ring| == RING
    && s.readPos <= s.writeLen <= RING
    && (s.role.AesGcm? ==> s.aes.Some? && s.aes.value.count < U64_LIMIT)
  }

  const CLOSED_BUS := SoftState(Zeros(RING), 0, 0, false, Echo, None)

  type Soft = s: SoftState | SoftOk(s) witness CLOSED_BUS

  /** The 96-bit nonce of the `n`-th sealing: the count in little-endian order, padded. */
  function Nonce(n: nat): (b: seq<byte>)
    requires n < U64_LIMIT
    ensures |b| == NONCE_LEN
  {
    Le64(n) + Zeros(4)
  }

  lemma NonceInjective(m: nat, n: nat)
    requires m < U64_LIMIT && n < U64_LIMIT && Nonce(m) == Nonce(n)
    ensures m == n
  {
    var b := Nonce(m);
    assert b[0..8] == Le64(m) && Nonce(n)[0..8] == Le64(n);
    Le64At(b, 0, m);
    Le64At(b, 0, n);
  }

  /** The role an init blob selects, if it is acceptable. */
  function RoleOf(init: seq<byte>): Option<Role> {
    if init == [] then Some(Echo)
    else if init[0] > 2 || init[1..] != Zeros(|init| - 1) then None
    else Some(if init[0] == 0 then Echo else if init[0] == 1 then Blake3 else AesGcm)
  }

  /** Opening draws a key (none when the generator fails) only for the AES-GCM role. */
  function SoftOpen(s: Soft, init: seq<byte>, key: Option<seq<byte>>): (Soft, Res<()>) {
    if s.open then (s, Fail(AlreadyOpen))
    else match RoleOf(init)
      case None => (s, Fail(BadInit))
      case Some(role) =>
        if role.AesGcm? && key.None? then (s, Fail(Internal))
        else (SoftState(Zeros(RING), 0, 0, true, role, if role.AesGcm? then Some(Aes(key.value, 0)) else None), Done(()))
  }

  function Unread(s: Soft): seq<byte> {
    s.ring[s.readPos..s.writeLen]
  }

  function SoftRead(s: Soft, room: nat): (Soft, Res<seq<byte>>) {
    if !s.open then (s, Fail(NotOpen))
    else
      var n := if s.writeLen - s.readPos < room then s.writeLen - s.readPos else room;
      (s.(readPos := s.readPos + n), Done(s.ring[s.readPos..s.readPos + n]))
  }

  function Sealed(c: Crypto, aes: Aes, data: seq<byte>): (out: seq<byte>)
    requires aes.count < U64_LIMIT
    ensures |out| == NONCE_LEN + |data| + TAG_LEN
  {
    Nonce(aes.count) + Seal(c, aes.key, Nonce(aes.count), data)
  }

  /** Success reports how many bytes the ring now holds for this write. */
  function SoftWrite(c: Crypto, s: Soft, data: seq<byte>): (Soft, Res<nat>) {
    if !s.open then (s, Fail(NotOpen))
    else match s.role
      case Echo =>
        if |data| > RING - s.writeLen then (s, Fail(BufferTooSmall))
        else (s.(ring := s.ring[..s.writeLen] + data + s.ring[s.writeLen + |data|..],
                 writeLen := s.writeLen + |data|), Done(|data|))
      case Blake3 =>
        (match c.hash(data)
         case None => (s, Fail(Internal))
         case Some(d) => (s.(ring := d + s.ring[DIGEST_LEN..], writeLen := DIGEST_LEN, readPos := 0), Done(DIGEST_LEN)))
      case AesGcm =>
        var aes := s.aes.value;
        var total := |data| + NONCE_LEN + TAG_LEN;
        if aes.count == U64_LIMIT - 1 then (s, Fail(Internal))
        else if total > RING then (s, Fail(BufferTooSmall))
        else
          var next := aes.(count := aes.count + 1);
          (s.(ring := Sealed(c, next, data) + s.ring[total..], writeLen := total, readPos := 0, aes := Some(next)),
           Done(total))
  }

  // ---------------------------------------------------------------------
  // The echo role is a queue
  // ---------------------------------------------------------------------

  datatype Use = Put(data: seq<byte>) | Take(room: nat)

  /** A bus with everything it has accepted and everything it has given back. */
  datatype Trace = Trace(bus: Soft, wrote: seq<byte>, read: seq<byte>)

  function UseOnce(c: Crypto, t: Trace, u: Use): Trace {
    match u
    case Put(data) =>
      var (bus, r) := SoftWrite(c, t.bus, data);
      Trace(bus, if r.Done? then t.wrote + data else t.wrote, t.read)
    case Take(room) =>
      var (bus, r) := SoftRead(t.bus, room);
      Trace(bus, t.wrote, if r.Done? then t.read + r.value else t.read)
  }

  function UseAll(c: Crypto, t: Trace, us: seq<Use>): Trace
    decreases |us|
  {
    if us == [] then t else UseAll(c, UseOnce(c, t, us[0]), us[1..])
  }

  ghost predicate Queue(t: Trace) {
    && t.bus.open && t.bus.role.Echo?
    && t.wrote == t.bus.ring[..t.bus.writeLen]
    && t.read == t.bus.ring[..t.bus.readPos]
  }

  lemma QueueKept(c: Crypto, t: Trace, u: Use)
    requires Queue(t)
    ensures Queue(UseOnce(c, t, u))
  {
    var t' := UseOnce(c, t, u);
    match u
    case Put(data) =>
      if |data| <= RING - t.bus.writeLen {
        assert t'.bus.ring[..t'.bus.writeLen] == t.bus.ring[..t.bus.writeLen] + data;
        assert t'.bus.ring[..t'.bus.readPos] == t.bus.ring[..t.bus.readPos];
      }
    case Take(room) =>
      assert t'.bus.ring[..t'.bus.readPos] == t.read + t.bus.ring[t.bus.readPos..t'.bus.readPos];
  }

  /** Over every run the bytes read are a prefix of the bytes accepted, and at most 64 are ever accepted. */
  lemma {:induction false} EchoIsFifo(c: Crypto, t: Trace, us: seq<Use>)
    requires Queue(t)
    ensures var end := UseAll(c, t, us);
      Queue(end) && end.read <= end.wrote && |end.wrote| <= RING && end.wrote[|end.read|..] == Unread(end.bus)
    decreases |us|
  {
    if us != [] {
      QueueKept(c, t, us[0]);
      EchoIsFifo(c, UseOnce(c, t, us[0]), us[1..]);
    } else {
      var b := t.bus;
      assert t.wrote[..|t.read|] == t.read;
    }
  }

  // ---------------------------------------------------------------------
  // The bus in place
  // ---------------------------------------------------------------------

  class SoftwareBus {
    const ring: array<byte>
    var writeLen: nat
    var readPos: nat
    var open: bool
    var role: Role
    var aes: Option<Aes>

    ghost function Value(): SoftState
      reads this, ring
    {
      SoftState(ring[..], writeLen, readPos, open, role, aes)
    }

    ghost predicate Valid()
      reads this, ring
    {
      SoftOk(Value())
    }

    constructor ()
      ensures Valid() && fresh(ring) && Value() == CLOSED_BUS
    {
      ring := new byte[RING](_ => 0);
      writeLen, readPos, open, role, aes := 0, 0, false, Echo, None;
      new;
      assert ring[..] == Zeros(RING);
    }

    method Open(init: seq<byte>, key: Option<seq<byte>>) returns (r: Res<()>)
      requires Valid()
      modifies this, ring
      ensures Valid() && (Value(), r) == SoftOpen(old(Value()), init, key)
    {
      if open {
        return Fail(AlreadyOpen);
      }
      var chosen := Echo;
      if init != [] {
        if init[0] > 2 {
          return Fail(BadInit);
        }
        chosen := if init[0] == 0 then Echo else if init[0] == 1 then Blake3 else AesGcm;
      }
      var i := 1;
      while i < |init|
        invariant 1 <= i && (init != [] ==> i <= |init|)
        invariant forall k | 1 <= k < |init| && k < i :: init[k] == 0
      {
        if init[i] != 0 {
          assert init[1..][i - 1] != Zeros(|init| - 1)[i - 1];
          return Fail(BadInit);
        }
        i := i + 1;
      }
      assert init != [] ==> init[1..] == Zeros(|init| - 1);
      if chosen.AesGcm? {
        if key.None? {
          return Fail(Internal);
        }
        aes := Some(Aes(key.value, 0));
      } else {
        aes := None;
      }
      role := chosen;
      Wipe(ring);
      writeLen, readPos, open := 0, 0, true;
      r := Done(());
    }

    method Close() returns (r: Res<()>)
      requires Valid()
      modifies this, ring
      ensures Valid() && r == (if old(open) then Done(()) else Fail(NotOpen))
      ensures Value() == if old(open) then CLOSED_BUS.(role := role, aes := aes) else old(Value())
      ensures role == old(role) && aes == old(aes)
    {
      if !open {
        return Fail(NotOpen);
      }
      Wipe(ring);
      writeLen, readPos, open := 0, 0, false;
      r := Done(());
    }

    /** Fills the front of `out`, at most `room` bytes, and leaves the rest alone. */
    method Read(out: array<byte>, room: nat) returns (r: Res<nat>)
      requires Valid() && out != ring && room <= out.Length
      modifies this, out
      ensures Valid() && Value() == SoftRead(old(Value()), room).0
      ensures r.Fail? ==> out[..] == old(out[..]) && SoftRead(old(Value()), room).1 == Fail(r.error)
      ensures r.Done? ==> r.value <= room && out[r.value..] == old(out[r.value..])
                          && SoftRead(old(Value()), room).1 == Done(out[..r.value])
    {
      if !open {
        return Fail(NotOpen);
      }
      var available := writeLen - readPos;
      var n := if available < room then available else room;
      forall i | 0 <= i < n {
        out[i] := ring[readPos + i];
      }
      assert out[..n] == ring[readPos..readPos + n];
      readPos := readPos + n;
      r := Done(n);
    }

    method Write(c: Crypto, data: seq<byte>) returns (r: Res<nat>)
      requires Valid()
      modifies this, ring
      ensures Valid() && (Value(), r) == SoftWrite(c, old(Value()), data)
    {
      if !open {
        return Fail(NotOpen);
      }
      match role
      case Echo =>
        if |data| > RING - writeLen {
          return Fail(BufferTooSmall);
        }
        CopyInto(ring, writeLen, data);
        writeLen := writeLen + |data|;
        r := Done(|data|);
      case Blake3 =>
        var digest := c.hash(data);
        if digest.None? {
          return Fail(Internal);
        }
        CopyInto(ring, 0, digest.value);
        assert ring[..] == digest.value + old(ring[..])[DIGEST_LEN..];
        writeLen, readPos := DIGEST_LEN, 0;
        r := Done(DIGEST_LEN);
      case AesGcm =>
        r := WriteSealed(c, data);
    }

    method WriteSealed(c: Crypto, data: seq<byte>) returns (r: Res<nat>)
      requires Valid() && open && role.AesGcm?
      modifies this, ring
      ensures Valid() && (Value(), r) == SoftWrite(c, old(Value()), data)
    {
      var state := aes.value;
      if state.count == U64_LIMIT - 1 {
        return Fail(Internal);
      }
      var total := |data| + NONCE_LEN + TAG_LEN;
      if total > RING {
        return Fail(BufferTooSmall);
      }
      state := state.(count := state.count + 1);
      aes := Some(state);
      var nonce := Nonce(state.count);
      CopyInto(ring, NONCE_LEN, Seal(c, state.key, nonce, data));
      CopyInto(ring, 0, nonce);
      assert ring[..] == Sealed(c, state, data) + old(ring[..])[total..];
      writeLen, readPos := total, 0;
      r := Done(total);
    }

    /** Teardown forgets the key, the role and every byte. */
    method Zeroize()
      requires Valid()
      modifies this, ring
      ensures Valid() && Value() == CLOSED_BUS
    {
      aes := None;
      role := Echo;
      Wipe(ring);
      writeLen, readPos, open := 0, 0, false;
    }
  }
}
