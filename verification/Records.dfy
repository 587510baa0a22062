/**
 * The TLS 1.3 record layer (sections 5.2 and 5.3 of RFC 8446) and the loopback
 * exchange between two connections of the pool.
 */
module Records {
  import opened Words

  const HEADER: nat := 5
  const TAG: nat := 16
  const IV_LEN: nat := 12
  const MAX_PLAINTEXT: nat := 200
  const APPLICATION_DATA: byte := 0x17
  const RECORD_BUFFER: nat := 256
  const MAX_CONNS: nat := 4

  datatype Error =
    | PoolFull | InvalidHandle | TranscriptOverflow | BadMessage | UnexpectedState | UnknownPsk | HsmFailure
    | AuthenticationFailed | FinishedMismatch | SequenceExhausted | BufferTooSmall | KexPolicyMismatch | Internal
  datatype Res<+T> = Ok(value: T) | Err(error: Error)
  datatype Suite = Aes256Gcm | ChaCha20Poly1305

  /** An AEAD: suite, key, nonce, associated data and text to text or failure.
      Sealed text is the ciphertext followed by the tag. */
  datatype Aead = Aead(
    seal: (Suite, seq<byte>, seq<byte>, seq<byte>, seq<byte>) -> Option<seq<byte>>,
    open: (Suite, seq<byte>, seq<byte>, seq<byte>, seq<byte>) -> Option<seq<byte>>)

  /** Sealing adds a tag. */
  ghost predicate Tags(c: Aead) {
    forall s, k, n, a, p :: c.seal(s, k, n, a, p).Some? ==> |c.seal(s, k, n, a, p).value| == |p| + TAG
  }

  /** Opening undoes sealing. */
  ghost predicate Lawful(c: Aead) {
    && Tags(c)
    && forall s, k, n, a, p ::
         c.seal(s, k, n, a, p).Some? ==> c.open(s, k, n, a, c.seal(s, k, n, a, p).value) == Some(p)
  }

  type Iv = s: seq<byte> | |s| == IV_LEN witness Zeros(IV_LEN)

  /** Key, static IV and sequence number of one direction. */
  datatype Direction = Direction(key: seq<byte>, iv: Iv, sequence: nat)

  predicate Counts(d: Direction) {
    d.sequence < U64_LIMIT
  }

  type Keys = d: Direction | Counts(d) witness Direction([], Zeros(IV_LEN), 0)

  // ---------------------------------------------------------------------
  // Nonces
  // ---------------------------------------------------------------------

  const BYTE_BITS: nat := 8

  /** Exclusive or of the low `n` bits. */
  function XorBits(a: nat, b: nat, n: nat): (r: nat)
    ensures r < Pow2(n)
  {
    if n == 0 then 0 else (if a % 2 != b % 2 then 1 else 0) + 2 * XorBits(a / 2, b / 2, n - 1)
  }

  lemma {:induction false} XorBitsCancels(a: nat, b: nat, c: nat, n: nat)
    requires b < Pow2(n) && c < Pow2(n) && XorBits(a, b, n) == XorBits(a, c, n)
    ensures b == c
  {
    if n > 0 {
      XorBitsCancels(a / 2, b / 2, c / 2, n - 1);
    }
  }

  lemma PowerOfByte()
    ensures Pow2(BYTE_BITS) == 256
  {
  }

  function Xor(a: byte, b: byte): byte {
    PowerOfByte();
    XorBits(a as nat, b as nat, BYTE_BITS) as byte
  }

  lemma XorCancels(a: byte, b: byte, c: byte)
    requires Xor(a, b) == Xor(a, c)
    ensures b == c
  {
    PowerOfByte();
    XorBitsCancels(a as nat, b as nat, c as nat, BYTE_BITS);
  }

  /** The IV with the sequence number, big-endian and left-padded, added bit by bit. */
  function Nonce(iv: Iv, sequence: nat): (n: seq<byte>)
    requires sequence < U64_LIMIT
    ensures |n| == IV_LEN
  {
    var padded := Zeros(IV_LEN - 8) + Be64(sequence);
    seq(IV_LEN, i requires 0 <= i < IV_LEN => Xor(iv[i], padded[i]))
  }

  lemma NonceInjective(iv: Iv, m: nat, n: nat)
    requires m < U64_LIMIT && n < U64_LIMIT && Nonce(iv, m) == Nonce(iv, n)
    ensures m == n
  {
    var pm, pn := Zeros(IV_LEN - 8) + Be64(m), Zeros(IV_LEN - 8) + Be64(n);
    forall i | 0 <= i < IV_LEN ensures pm[i] == pn[i] {
      assert Nonce(iv, m)[i] == Nonce(iv, n)[i];
      XorCancels(iv[i], pm[i], pn[i]);
    }
    assert Be64(m) == pm[IV_LEN - 8..] && Be64(n) == pn[IV_LEN - 8..];
    Be64Injective(m, n);
  }

  // ---------------------------------------------------------------------
  // Protecting and opening a record
  // ---------------------------------------------------------------------

  function RecordHeader(len: nat): (h: seq<byte>)
    requires len < U16_LIMIT
    ensures |h| == HEADER
  {
    [APPLICATION_DATA, 3, 3] + Be16(len)
  }

  function Encrypt(c: Aead, k: Keys, suite: Suite, plain: seq<byte>, room: nat): (Keys, Res<seq<byte>>) {
    if |plain| > MAX_PLAINTEXT then (k, Err(BufferTooSmall))
    else if k.sequence == U64_LIMIT - 1 then (k, Err(SequenceExhausted))
    else if room < HEADER + |plain| + 1 + TAG then (k, Err(BufferTooSmall))
    else
      var header := RecordHeader(|plain| + 1 + TAG);
      match c.seal(suite, k.key, Nonce(k.iv, k.sequence), header, plain + [APPLICATION_DATA])
      case None => (k, Err(Internal))
      case Some(sealed) => (k.(sequence := k.sequence + 1), Ok(header + sealed))
  }

  function Be16At(b: seq<byte>, o: nat): nat
    requires o + 2 <= |b|
  {
    0x100 * (b[o] as nat) + b[o + 1] as nat
  }

  function Decrypt(c: Aead, k: Keys, suite: Suite, record: seq<byte>, room: nat): (Keys, Res<seq<byte>>) {
    if |record| < HEADER + 1 + TAG || record[0] != APPLICATION_DATA || record[1..3] != [3, 3] then (k, Err(BadMessage))
    else
      var len := Be16At(record, 3);
      if HEADER + len != |record| || len < TAG + 1 then (k, Err(BadMessage))
      else if len - TAG > MAX_PLAINTEXT + 1 then (k, Err(BufferTooSmall))
      else if k.sequence == U64_LIMIT - 1 then (k, Err(SequenceExhausted))
      else match c.open(suite, k.key, Nonce(k.iv, k.sequence), record[..HEADER], record[HEADER..])
        case None => (k, Err(AuthenticationFailed))
        case Some(inner) =>
          if |inner| == 0 || inner[|inner| - 1] != APPLICATION_DATA then (k, Err(BadMessage))
          else if room < |inner| - 1 then (k, Err(BufferTooSmall))
          else (k.(sequence := k.sequence + 1), Ok(inner[..|inner| - 1]))
  }

  lemma HeaderReads(len: nat, rest: seq<byte>)
    requires len < U16_LIMIT
    ensures var r := RecordHeader(len) + rest;
      && r[0] == APPLICATION_DATA && r[1..3] == [3, 3] && Be16At(r, 3) == len
      && r[..HEADER] == RecordHeader(len) && r[HEADER..] == rest
  {
    var r := RecordHeader(len) + rest;
    assert r[3] == Be16(len)[0] && r[4] == Be16(len)[1];
  }

  /** A record protected under some keys opens under equal keys: to the plaintext
      with both sides advanced by one, exactly when the reader has room for it. */
  lemma RecordRoundTrip(c: Aead, k: Keys, suite: Suite, plain: seq<byte>, room: nat, readRoom: nat)
    requires Lawful(c) && Encrypt(c, k, suite, plain, room).1.Ok?
    ensures var (k', r) := Encrypt(c, k, suite, plain, room);
      && k' == k.(sequence := k.sequence + 1) && |r.value| == HEADER + |plain| + 1 + TAG
      && Decrypt(c, k, suite, r.value, readRoom)
         == if |plain| <= readRoom then (k', Ok(plain)) else (k, Err(BufferTooSmall))
  {
    var (k', r) := Encrypt(c, k, suite, plain, room);
    var len := |plain| + 1 + TAG;
    var inner := plain + [APPLICATION_DATA];
    var sealed := c.seal(suite, k.key, Nonce(k.iv, k.sequence), RecordHeader(len), inner).value;
    HeaderReads(len, sealed);
    assert inner[..|inner| - 1] == plain;
  }

  // ---------------------------------------------------------------------
  // No nonce is used twice under one key
  // ---------------------------------------------------------------------

  datatype Send = Send(suite: Suite, plain: seq<byte>, room: nat)

  /** The nonces of the successful sends under one set of keys. */
  ghost function Used(c: Aead, k: Keys, sends: seq<Send>): seq<seq<byte>>
    decreases |sends|
  {
    if sends == [] then []
    else
      var (k', r) := Encrypt(c, k, sends[0].suite, sends[0].plain, sends[0].room);
      (if r.Ok? then [Nonce(k.iv, k.sequence)] else []) + Used(c, k', sends[1..])
  }

  /** The nonces of `n` consecutive sequence numbers. */
  ghost function Series(iv: Iv, from: nat, n: nat): (s: seq<seq<byte>>)
    requires from + n < U64_LIMIT
    ensures |s| == n
    decreases n
  {
    if n == 0 then [] else [Nonce(iv, from)] + Series(iv, from + 1, n - 1)
  }

  lemma {:induction false} SeriesAt(iv: Iv, from: nat, n: nat, i: nat)
    requires from + n < U64_LIMIT && i < n
    ensures Series(iv, from, n)[i] == Nonce(iv, from + i)
    decreases n
  {
    if i > 0 {
      SeriesAt(iv, from + 1, n - 1, i - 1);
    }
  }

  lemma {:induction false} UsedIsSeries(c: Aead, k: Keys, sends: seq<Send>)
    ensures k.sequence + |Used(c, k, sends)| < U64_LIMIT
    ensures Used(c, k, sends) == Series(k.iv, k.sequence, |Used(c, k, sends)|)
    decreases |sends|
  {
    if sends != [] {
      var (k', r) := Encrypt(c, k, sends[0].suite, sends[0].plain, sends[0].room);
      UsedIsSeries(c, k', sends[1..]);
      var rest := Used(c, k', sends[1..]);
      if r.Err? {
        assert Used(c, k, sends) == rest;
      }
    }
  }

  /** Over every run of sends under one key, all nonces differ. */
  lemma NoncesDiffer(c: Aead, k: Keys, sends: seq<Send>, i: nat, j: nat)
    requires i < j < |Used(c, k, sends)|
    ensures Used(c, k, sends)[i] != Used(c, k, sends)[j]
  {
    UsedIsSeries(c, k, sends);
    SeriesDiffers(k.iv, k.sequence, |Used(c, k, sends)|, i, j);
  }

  lemma SeriesDiffers(iv: Iv, from: nat, n: nat, i: nat, j: nat)
    requires from + n < U64_LIMIT && i < j < n
    ensures Series(iv, from, n)[i] != Series(iv, from, n)[j]
  {
    SeriesAt(iv, from, n, i);
    SeriesAt(iv, from, n, j);
    if Nonce(iv, from + i) == Nonce(iv, from + j) {
      NonceInjective(iv, from + i, from + j);
    }
  }

  // ---------------------------------------------------------------------
  // Loopback between pooled connections
  // ---------------------------------------------------------------------

  datatype ConnState = Free | Handshaking | Connected | Closed
  datatype Conn = Conn(state: ConnState, suite: Suite, write: Keys, read: Keys)

  type Pool = p: seq<Option<Conn>> | |p| == MAX_CONNS witness [None, None, None, None]

  predicate Live(p: Pool, h: nat) {
    h < MAX_CONNS && p[h].Some?
  }

  /** The first empty slot. */
  function FirstFree(p: Pool): (h: Option<nat>)
    ensures h.None? <==> forall i | 0 <= i < MAX_CONNS :: p[i].Some?
    ensures h.Some? ==> h.value < MAX_CONNS && p[h.value].None? && forall i | 0 <= i < h.value :: p[i].Some?
  {
    if p[0].None? then Some(0) else if p[1].None? then Some(1)
    else if p[2].None? then Some(2) else if p[3].None? then Some(3) else None
  }

  function NewConn(suite: Suite): Conn {
    Conn(Free, suite, Direction(Zeros(32), Zeros(IV_LEN), 0), Direction(Zeros(32), Zeros(IV_LEN), 0))
  }

  /** Closing empties a slot; a handle outside the pool changes nothing. */
  function Close(p: Pool, h: nat): Pool {
    if h < MAX_CONNS then p[h := None] else p
  }

  /** A record protected with the sender's write keys. */
  function SendOn(c: Aead, p: Pool, from: nat, plain: seq<byte>): (Pool, Res<seq<byte>>) {
    if !Live(p, from) then (p, Err(InvalidHandle))
    else if !p[from].value.state.Connected? then (p, Err(UnexpectedState))
    else
      var f := p[from].value;
      var (w, sent) := Encrypt(c, f.write, f.suite, plain, RECORD_BUFFER);
      (p[from := Some(f.(write := w))], sent)
  }

  /** A record opened with the receiver's read keys. */
  function ReceiveOn(c: Aead, p: Pool, to: nat, suite: Suite, record: seq<byte>, room: nat): (Pool, Res<seq<byte>>) {
    if !Live(p, to) then (p, Err(InvalidHandle))
    else if !p[to].value.state.Connected? then (p, Err(UnexpectedState))
    else
      var t := p[to].value;
      var (r, got) := Decrypt(c, t.read, suite, record, room);
      (p[to := Some(t.(read := r))], got)
  }

  /** One connection sends a record and another, or itself, receives it. */
  function Loopback(c: Aead, p: Pool, from: nat, to: nat, plain: seq<byte>, room: nat): (Pool, Res<seq<byte>>) {
    var (p1, sent) := SendOn(c, p, from, plain);
    if sent.Err? then (p1, sent) else ReceiveOn(c, p1, to, p[from].value.suite, sent.value, room)
  }

  /** The two connections share keys and counters in both directions. */
  ghost predicate Lockstep(p: Pool, a: nat, b: nat) {
    && a != b && Live(p, a) && Live(p, b)
    && p[a].value.state.Connected? && p[b].value.state.Connected?
    && p[a].value.write == p[b].value.read
    && p[b].value.write == p[a].value.read
  }

  /** One exchange between connections in step: the receiver gets the plaintext, and
      they stay in step, unless the receiver's buffer is too small for a record already sent. */
  lemma LoopbackStep(c: Aead, p: Pool, a: nat, b: nat, plain: seq<byte>, room: nat)
    requires Lawful(c) && Lockstep(p, a, b)
    ensures var f := p[a].value;
      var sent := Encrypt(c, f.write, f.suite, plain, RECORD_BUFFER).1;
      var (p', r) := Loopback(c, p, a, b, plain, room);
      && (sent.Err? ==> p' == p && r == Err(sent.error))
      && (sent.Ok? ==> r == if |plain| <= room then Ok(plain) else Err(BufferTooSmall))
      && (Lockstep(p', a, b) <==> sent.Err? || |plain| <= room)
      && (sent.Ok? ==> Live(p', a) && Live(p', b) && p'[a].value.write.sequence == f.write.sequence + 1
                       && p'[b].value.write == p[b].value.write)
      && (forall h | 0 <= h < MAX_CONNS && h != a && h != b :: p'[h] == p[h])
  {
    var f := p[a].value;
    if Encrypt(c, f.write, f.suite, plain, RECORD_BUFFER).1.Ok? {
      RecordRoundTrip(c, f.write, f.suite, plain, RECORD_BUFFER, room);
    }
  }

  /** When a send of a given size goes through at all. */
  lemma SendOutcome(c: Aead, k: Keys, suite: Suite, plain: seq<byte>)
    ensures var sent := Encrypt(c, k, suite, plain, RECORD_BUFFER).1;
      sent.Ok? <==> |plain| <= MAX_PLAINTEXT && k.sequence < U64_LIMIT - 1
                    && c.seal(suite, k.key, Nonce(k.iv, k.sequence), RecordHeader(|plain| + 1 + TAG),
                              plain + [APPLICATION_DATA]).Some?
  {
  }

  /** One exchange of a conversation: who sends, what, and the receiver's room. */
  datatype Turn = Turn(fromFirst: bool, plain: seq<byte>, room: nat)

  ghost function Converse(c: Aead, p: Pool, a: nat, b: nat, turns: seq<Turn>): (Pool, seq<Res<seq<byte>>>)
    decreases |turns|
  {
    if turns == [] then (p, [])
    else
      var t := turns[0];
      var (p1, r) := if t.fromFirst then Loopback(c, p, a, b, t.plain, t.room) else Loopback(c, p, b, a, t.plain, t.room);
      var (p2, rs) := Converse(c, p1, a, b, turns[1..]);
      (p2, [r] + rs)
  }

  /** Every conversation with large enough buffers delivers each plaintext exactly or
      changes nothing, and ends with the counters of both directions in step. */
  lemma {:induction false} ConversationDelivers(c: Aead, p: Pool, a: nat, b: nat, turns: seq<Turn>)
    requires Lawful(c) && Lockstep(p, a, b) && forall i | 0 <= i < |turns| :: |turns[i].plain| <= turns[i].room
    ensures var (p', rs) := Converse(c, p, a, b, turns);
      && Lockstep(p', a, b) && |rs| == |turns|
      && forall i | 0 <= i < |rs| :: rs[i].Ok? ==> rs[i].value == turns[i].plain
    decreases |turns|
  {
    if turns != [] {
      var t := turns[0];
      LoopbackStep(c, p, a, b, t.plain, t.room);
      LoopbackStep(c, p, b, a, t.plain, t.room);
      var p1 := if t.fromFirst then Loopback(c, p, a, b, t.plain, t.room).0 else Loopback(c, p, b, a, t.plain, t.room).0;
      ConversationDelivers(c, p1, a, b, turns[1..]);
    }
  }

  /** The receiver has opened fewer records than the sender has sent. */
  ghost predicate Behind(p: Pool, a: nat, b: nat) {
    a != b && Live(p, a) && Live(p, b) && p[b].value.read.sequence < p[a].value.write.sequence
  }

  lemma {:induction false} StaysBehind(c: Aead, p: Pool, a: nat, b: nat, turns: seq<Turn>)
    requires Behind(p, a, b)
    ensures Behind(Converse(c, p, a, b, turns).0, a, b)
    decreases |turns|
  {
    if turns != [] {
      var t := turns[0];
      var (x, y) := if t.fromFirst then (a, b) else (b, a);
      StaysBehindOnce(c, p, a, b, x, y, t.plain, t.room);
      StaysBehind(c, Loopback(c, p, x, y, t.plain, t.room).0, a, b, turns[1..]);
    }
  }

  lemma StaysBehindOnce(c: Aead, p: Pool, a: nat, b: nat, x: nat, y: nat, plain: seq<byte>, room: nat)
    requires Behind(p, a, b) && (x, y) in {(a, b), (b, a)}
    ensures Behind(Loopback(c, p, x, y, plain, room).0, a, b)
  {
  }

  /** Falling out of step is final: once a record was sent into a buffer too small for
      it, no conversation brings the two connections back in step. */
  lemma OutOfStepForGood(c: Aead, p: Pool, a: nat, b: nat, plain: seq<byte>, room: nat, turns: seq<Turn>)
    requires Lawful(c) && Lockstep(p, a, b) && room < |plain|
    requires Encrypt(c, p[a].value.write, p[a].value.suite, plain, RECORD_BUFFER).1.Ok?
    ensures var p1 := Loopback(c, p, a, b, plain, room).0;
      !Lockstep(Converse(c, p1, a, b, turns).0, a, b)
  {
    var f := p[a].value;
    RecordRoundTrip(c, f.write, f.suite, plain, RECORD_BUFFER, room);
    StaysBehind(c, Loopback(c, p, a, b, plain, room).0, a, b, turns);
  }

  ghost predicate NeverFails(c: Aead) {
    forall s, k, n, a, p :: c.seal(s, k, n, a, p).Some?
  }

  /** With a cipher that never fails, plaintexts of at most 200 bytes and sequence
      numbers to spare, every turn of every conversation is delivered. */
  lemma {:induction false} ConversationComplete(c: Aead, p: Pool, a: nat, b: nat, turns: seq<Turn>)
    requires Lawful(c) && NeverFails(c) && Lockstep(p, a, b)
    requires forall i | 0 <= i < |turns| :: |turns[i].plain| <= turns[i].room && |turns[i].plain| <= MAX_PLAINTEXT
    requires p[a].value.write.sequence + |turns| < U64_LIMIT && p[b].value.write.sequence + |turns| < U64_LIMIT
    ensures var (p', rs) := Converse(c, p, a, b, turns);
      |rs| == |turns| && forall i | 0 <= i < |rs| :: rs[i] == Ok(turns[i].plain)
    decreases |turns|
  {
    if turns != [] {
      var t := turns[0];
      var (x, y) := if t.fromFirst then (a, b) else (b, a);
      var p1 := Loopback(c, p, x, y, t.plain, t.room).0;
      SendOutcome(c, p[x].value.write, p[x].value.suite, t.plain);
      LoopbackStep(c, p, x, y, t.plain, t.room);
      assert p1[y].value.write == p[y].value.write;
      ConversationComplete(c, p1, a, b, turns[1..]);
    }
  }

  // ---------------------------------------------------------------------
  // The record layer in place
  // ---------------------------------------------------------------------

  class DirectionalKeys {
    var key: seq<byte>
    var iv: Iv
    var sequence: nat

    ghost function Value(): Direction
      reads this
    {
      Direction(key, iv, sequence)
    }

    ghost predicate Valid()
      reads this
    {
      Counts(Value())
    }

    constructor (key: seq<byte>, iv: Iv)
      ensures Valid() && Value() == Direction(key, iv, 0)
    {
      this.key, this.iv, this.sequence := key, iv, 0;
    }

    method Wipe()
      modifies this
      ensures Valid() && Value() == Direction(Zeros(32), Zeros(IV_LEN), 0)
    {
      key, iv, sequence := Zeros(32), Zeros(IV_LEN), 0;
    }

    method BuildNonce() returns (nonce: seq<byte>)
      requires Valid()
      ensures nonce == Nonce(iv, sequence)
    {
      var padded := Zeros(IV_LEN - 8) + Be64(sequence);
      var out := new byte[IV_LEN](_ => 0);
      for i := 0 to IV_LEN
        invariant forall k | 0 <= k < i :: out[k] == Xor(iv[k], padded[k])
      {
        out[i] := Xor(iv[i], padded[i]);
      }
      nonce := out[..];
    }

    /** Writes a whole record at the front of `out`. */
    method EncryptRecord(c: Aead, suite: Suite, plain: seq<byte>, out: array<byte>) returns (r: Res<nat>)
      requires Valid() && Tags(c)
      modifies this, out
      ensures Valid() && Value() == Encrypt(c, old(Value()), suite, plain, out.Length).0
      ensures r.Err? ==> Encrypt(c, old(Value()), suite, plain, out.Length).1 == Err(r.error)
      ensures r.Ok? ==> r.value <= out.Length
                        && Encrypt(c, old(Value()), suite, plain, out.Length).1 == Ok(out[..r.value])
    {
      if |plain| > MAX_PLAINTEXT {
        return Err(BufferTooSmall);
      }
      if sequence == U64_LIMIT - 1 {
        return Err(SequenceExhausted);
      }
      var payload := |plain| + 1 + TAG;
      var total := HEADER + payload;
      if out.Length < total {
        return Err(BufferTooSmall);
      }
      var header := RecordHeader(payload);
      CopyInto(out, 0, header);
      var nonce := BuildNonce();
      var sealed := c.seal(suite, key, nonce, header, plain + [APPLICATION_DATA]);
      if sealed.None? {
        return Err(Internal);
      }
      assert out[..HEADER] == header;
      CopyInto(out, HEADER, sealed.value);
      sequence := sequence + 1;
      r := Ok(total);
    }

    /** Writes the content at the front of `out`; a failure leaves `out` and the counter alone. */
    method DecryptRecord(c: Aead, suite: Suite, record: seq<byte>, out: array<byte>) returns (r: Res<nat>)
      requires Valid()
      modifies this, out
      ensures Valid() && Value() == Decrypt(c, old(Value()), suite, record, out.Length).0
      ensures r.Err? ==> Decrypt(c, old(Value()), suite, record, out.Length).1 == Err(r.error) && out[..] == old(out[..])
      ensures r.Ok? ==> r.value <= out.Length
                        && Decrypt(c, old(Value()), suite, record, out.Length).1 == Ok(out[..r.value])
    {
      if |record| < HEADER + 1 + TAG || record[0] != APPLICATION_DATA || record[1..3] != [3, 3] {
        return Err(BadMessage);
      }
      var len := Be16At(record, 3);
      if HEADER + len != |record| || len < TAG + 1 {
        return Err(BadMessage);
      }
      if len - TAG > MAX_PLAINTEXT + 1 {
        return Err(BufferTooSmall);
      }
      if sequence == U64_LIMIT - 1 {
        return Err(SequenceExhausted);
      }
      var nonce := BuildNonce();
      var inner := c.open(suite, key, nonce, record[..HEADER], record[HEADER..]);
      if inner.None? {
        return Err(AuthenticationFailed);
      }
      var n := |inner.value|;
      if n == 0 || inner.value[n - 1] != APPLICATION_DATA {
        return Err(BadMessage);
      }
      if out.Length < n - 1 {
        return Err(BufferTooSmall);
      }
      CopyInto(out, 0, inner.value[..n - 1]);
      assert out[..n - 1] == inner.value[..n - 1];
      sequence := sequence + 1;
      r := Ok(n - 1);
    }
  }

  /** A pooled connection: its state and the keys of its two directions. */
  class Connection {
    var state: ConnState
    var suite: Suite
    const write: DirectionalKeys
    const read: DirectionalKeys

    ghost predicate Valid()
      reads write, read
    {
      write != read && write.Valid() && read.Valid()
    }

    ghost function Value(): Conn
      requires Valid()
      reads this, write, read
    {
      Conn(state, suite, write.Value(), read.Value())
    }

    constructor ()
      ensures Valid() && fresh(write) && fresh(read) && Value() == NewConn(Aes256Gcm)
    {
      state, suite := Free, Aes256Gcm;
      write := new DirectionalKeys(Zeros(32), Zeros(IV_LEN));
      read := new DirectionalKeys(Zeros(32), Zeros(IV_LEN));
    }

    method Wipe()
      requires Valid()
      modifies this, write, read
      ensures Valid() && state == Closed && write.key == Zeros(32) && read.key == Zeros(32)
    {
      write.Wipe();
      read.Wipe();
      state := Closed;
    }
  }

  /** The static pool: four slots, each empty or a connection with keys of its own. */
  class ConnectionPool {
    var slots: seq<Connection?>
    ghost var pool: Pool

    /** Slot `h` holds what the pool says it holds. */
    ghost predicate Shows(h: nat, v: Option<Conn>)
      requires h < |slots|
      reads this`slots, slots[h], if slots[h] == null then {} else {slots[h].write, slots[h].read}
    {
      if slots[h] == null then v == None
      else slots[h].Valid() && v == Some(slots[h].Value())
    }

    /** No two slots share a connection or a set of keys. */
    ghost predicate Apart()
      reads this`slots
    {
      forall i, j | 0 <= i < j < |slots| && slots[i] != null && slots[j] != null ::
        slots[i] != slots[j] && {slots[i].write, slots[i].read} !! {slots[j].write, slots[j].read}
    }

    ghost predicate Valid()
      reads this, slots, set h | 0 <= h < |slots| && slots[h] != null :: slots[h].write,
            set h | 0 <= h < |slots| && slots[h] != null :: slots[h].read
    {
      && |slots| == MAX_CONNS && Apart()
      && forall h | 0 <= h < MAX_CONNS :: Shows(h, pool[h])
    }

    constructor ()
      ensures Valid() && pool == [None, None, None, None]
    {
      slots := [null, null, null, null];
      pool := [None, None, None, None];
    }

    /** A new connection in the first empty slot. */
    method Allocate() returns (r: Res<nat>)
      requires Valid()
      modifies this
      ensures Valid()
      ensures r.Err? ==> r.error == PoolFull && FirstFree(old(pool)).None? && pool == old(pool)
      ensures r.Ok? ==> FirstFree(old(pool)) == Some(r.value) && pool == old(pool)[r.value := Some(NewConn(Aes256Gcm))]
    {
      for i := 0 to MAX_CONNS
        invariant Valid() && pool == old(pool) && slots == old(slots)
        invariant forall k | 0 <= k < i :: pool[k].Some?
      {
        assert Shows(i, pool[i]);
        if slots[i] == null {
          var conn := new Connection();
          slots := slots[i := conn];
          pool := pool[i := Some(conn.Value())];
          forall k | 0 <= k < MAX_CONNS ensures Shows(k, pool[k]) {
            assert k != i ==> old(Shows(k, pool[k]));
          }
          return Ok(i);
        }
      }
      r := Err(PoolFull);
    }

    method CloseSlot(h: nat) returns (r: Res<()>)
      requires Valid()
      modifies this, if h < |slots| && slots[h] != null then {slots[h], slots[h].write, slots[h].read} else {}
      ensures Valid() && pool == Close(old(pool), h) && (r.Ok? <==> h < MAX_CONNS)
      ensures h < MAX_CONNS && old(slots[h]) != null ==>
                old(slots[h]).write.key == Zeros(32) && old(slots[h]).read.key == Zeros(32)
    {
      if h >= MAX_CONNS {
        return Err(InvalidHandle);
      }
      assert Shows(h, pool[h]);
      if slots[h] != null {
        slots[h].Wipe();
      }
      slots := slots[h := null];
      pool := pool[h := None];
      forall k | 0 <= k < MAX_CONNS ensures Shows(k, pool[k]) {
        assert k != h ==> old(Shows(k, pool[k]));
      }
      r := Ok(());
    }

    method Send(c: Aead, from: nat, plain: seq<byte>, buffer: array<byte>) returns (r: Res<nat>)
      requires Tags(c) && Valid() && buffer.Length == RECORD_BUFFER
      modifies this`pool, buffer, if from < |slots| && slots[from] != null then {slots[from].write} else {}
      ensures Valid() && pool == SendOn(c, old(pool), from, plain).0
      ensures r.Err? ==> SendOn(c, old(pool), from, plain).1 == Err(r.error)
      ensures r.Ok? ==> r.value <= buffer.Length && SendOn(c, old(pool), from, plain).1 == Ok(buffer[..r.value])
    {
      if from >= MAX_CONNS || slots[from] == null {
        assert from < MAX_CONNS ==> Shows(from, pool[from]);
        return Err(InvalidHandle);
      }
      var f := slots[from];
      assert Shows(from, pool[from]);
      if !f.state.Connected? {
        return Err(UnexpectedState);
      }
      r := f.write.EncryptRecord(c, f.suite, plain, buffer);
      pool := pool[from := Some(f.Value())];
    }

    method Receive(c: Aead, to: nat, suite: Suite, record: seq<byte>, out: array<byte>) returns (r: Res<nat>)
      requires Valid()
      modifies this`pool, out, if to < |slots| && slots[to] != null then {slots[to].read} else {}
      ensures Valid() && pool == ReceiveOn(c, old(pool), to, suite, record, out.Length).0
      ensures r.Err? ==> ReceiveOn(c, old(pool), to, suite, record, out.Length).1 == Err(r.error)
                         && out[..] == old(out[..])
      ensures r.Ok? ==> r.value <= out.Length
                        && ReceiveOn(c, old(pool), to, suite, record, out.Length).1 == Ok(out[..r.value])
    {
      if to >= MAX_CONNS || slots[to] == null {
        assert to < MAX_CONNS ==> Shows(to, pool[to]);
        return Err(InvalidHandle);
      }
      var t := slots[to];
      assert Shows(to, pool[to]);
      if !t.state.Connected? {
        return Err(UnexpectedState);
      }
      r := t.read.DecryptRecord(c, suite, record, out);
      pool := pool[to := Some(t.Value())];
    }

    /** One exchange through a record buffer, sender and receiver possibly the same connection. */
    method SendReceive(c: Aead, from: nat, to: nat, plain: seq<byte>, out: array<byte>) returns (r: Res<nat>)
      requires Tags(c) && Valid()
      modifies this`pool, out,
               if from < |slots| && slots[from] != null then {slots[from].write} else {},
               if to < |slots| && slots[to] != null then {slots[to].read} else {}
      ensures Valid() && pool == Loopback(c, old(pool), from, to, plain, out.Length).0
      ensures r.Err? ==> Loopback(c, old(pool), from, to, plain, out.Length).1 == Err(r.error)
                         && out[..] == old(out[..])
      ensures r.Ok? ==> r.value <= out.Length
                        && Loopback(c, old(pool), from, to, plain, out.Length).1 == Ok(out[..r.value])
    {
      if from >= MAX_CONNS || slots[from] == null {
        assert from < MAX_CONNS ==> Shows(from, pool[from]);
        return Err(InvalidHandle);
      }
      var suite := slots[from].suite;
      assert Shows(from, pool[from]);
      var buffer := new byte[RECORD_BUFFER](_ => 0);
      r := Send(c, from, plain, buffer);
      if r.Ok? {
        r := Receive(c, to, suite, buffer[..r.value], out);
      }
    }
  }
}
