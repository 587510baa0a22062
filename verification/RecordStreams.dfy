/** The record layer on the wire: what a record is made of, byte by byte, and what a receiver can be
    made to accept over any network. */
module RecordStreams {
  import opened Words
  import opened Records

  // ---------------------------------------------------------------------
  // Nonces and records, byte by byte
  // ---------------------------------------------------------------------

  lemma {:induction false} XorBitsAt(a: nat, b: nat, n: nat, k: nat)
    requires k < n
    ensures BitAt(XorBits(a, b, n), k) <==> BitAt(a, k) != BitAt(b, k)
  {
    var r := XorBits(a, b, n);
    if k > 0 {
      XorBitsAt(a / 2, b / 2, n - 1, k - 1);
      assert r / 2 == XorBits(a / 2, b / 2, n - 1);
      HalveThenDivide(r, Pow2(k - 1));
      HalveThenDivide(a, Pow2(k - 1));
      HalveThenDivide(b, Pow2(k - 1));
    }
  }

  lemma {:induction false} XorBitsZero(a: nat, n: nat)
    requires a < Pow2(n)
    ensures XorBits(a, 0, n) == a
  {
    if n > 0 {
      XorBitsZero(a / 2, n - 1);
    }
  }

  /** The weight of byte `i` of four, most significant first. */
  function Weight(i: nat): nat
    requires i < 4
  {
    if i == 0 then 0x100_0000 else if i == 1 then 0x1_0000 else if i == 2 then 0x100 else 1
  }

  lemma BytePowers(i: nat)
    requires i < 8
    ensures Pow2(8 * (7 - i)) == if i < 4 then U32_LIMIT * Weight(i) else Weight(i - 4)
  {
    assert Pow2(8) == 0x100 && Pow2(16) == 0x1_0000 && Pow2(24) == 0x100_0000;
    assert Pow2(32) == 0x1_0000_0000 && Pow2(40) == 0x100_0000_0000;
    assert Pow2(48) == 0x1_0000_0000_0000 && Pow2(56) == 0x100_0000_0000_0000;
  }

  lemma Be32Byte(n: nat, i: nat)
    requires n < U32_LIMIT && i < 4
    ensures Be32(n)[i] as nat == n / Weight(i) % 256
  {
    var q, m := n / U16_LIMIT, n % U16_LIMIT;
    match i
    case 0 => DivideTwice(n, U16_LIMIT, 0x100);
    case 1 =>
    case 2 =>
      QuotientOf(n, 0x100, 256 * q + m / 0x100, m % 0x100);
      DropWhole(q, m / 0x100);
    case 3 => DropWhole(256 * q, m);
  }

  lemma LowByte(n: nat, i: nat)
    requires i < 4
    ensures n % U32_LIMIT / Weight(i) % 256 == n / Weight(i) % 256
  {
    match i
    case 0 => LowPart(n, 0x100_0000, 1);
    case 1 => LowPart(n, 0x1_0000, 0x100);
    case 2 => LowPart(n, 0x100, 0x1_0000);
    case 3 => LowPart(n, 1, 0x100_0000);
  }

  lemma LowPart(n: nat, d: nat, f: nat)
    requires d > 0 && d * (256 * f) == U32_LIMIT
    ensures n % U32_LIMIT / d % 256 == n / d % 256
  {
    var q, m := n / U32_LIMIT, n % U32_LIMIT;
    assert q * (d * (256 * f)) == 256 * (q * f) * d;
    assert n == (256 * (q * f) + m / d) * d + m % d;
    QuotientOf(n, d, 256 * (q * f) + m / d, m % d);
    DropWhole(q * f, m / d);
  }

  lemma DropWhole(k: nat, x: nat)
    ensures (256 * k + x) % 256 == x % 256
  {
  }

  lemma Be64Byte(n: nat, i: nat)
    requires n < U64_LIMIT && i < 8
    ensures Be64(n)[i] as nat == n / Pow2(8 * (7 - i)) % 256
  {
    BytePowers(i);
    if i < 4 {
      Be32Byte(n / U32_LIMIT, i);
      DivideTwice(n, U32_LIMIT, Weight(i));
      assert Be64(n)[i] == Be32(n / U32_LIMIT)[i];
    } else {
      Be32Byte(n % U32_LIMIT, i - 4);
      LowByte(n, i - 4);
      assert Be64(n)[i] == Be32(n % U32_LIMIT)[i - 4];
    }
  }

  /** The nonce of a record: the IV with its last eight bytes changed exactly where the sequence number,
      most significant byte first, has a bit. */
  lemma NonceBytes(iv: Iv, sequence: nat, i: nat, k: nat)
    requires sequence < U64_LIMIT && i < 12 && k < 8
    ensures i < 4 ==> Nonce(iv, sequence)[i] == iv[i]
    ensures i >= 4 ==>
      (BitAt(Nonce(iv, sequence)[i] as nat, k) <==> BitAt(iv[i] as nat, k) != BitAt(sequence / Pow2(8 * (11 - i)) % 256, k))
  {
    PowerOfByte();
    if i < 4 {
      XorBitsZero(iv[i] as nat, 8);
    } else {
      Be64Byte(sequence, i - 4);
      XorBitsAt(iv[i] as nat, Be64(sequence)[i - 4] as nat, 8, k);
    }
  }

  /** A record on the wire: type 23, version 3.3, the length of what follows, and the sealed plaintext with
      its type behind it, the five bytes in front being the associated data. */
  lemma RecordBytes(c: Aead, k: Keys, suite: Suite, plain: seq<byte>, room: nat)
    requires Encrypt(c, k, suite, plain, room).1.Ok?
    ensures |plain| <= 200 && |plain| + 22 <= room && k.sequence + 1 < U64_LIMIT
    ensures var (k', r) := Encrypt(c, k, suite, plain, room);
      var header := [0x17, 3, 3, 0, (|plain| + 17) as byte];
      var sealed := c.seal(suite, k.key, Nonce(k.iv, k.sequence), header, plain + [0x17]);
      sealed.Some? && r.value == header + sealed.value && k' == k.(sequence := k.sequence + 1)
  {
    assert RecordHeader(|plain| + 1 + TAG) == [0x17, 3, 3, 0, (|plain| + 17) as byte];
  }

  /** What is accepted: a record of that form whose sealed part opens, under the next nonce and with its own
      five first bytes as associated data, to the plaintext and its type. */
  lemma AcceptedBytes(c: Aead, k: Keys, suite: Suite, record: seq<byte>, room: nat)
    requires Decrypt(c, k, suite, record, room).1.Ok?
    ensures var (k', r) := Decrypt(c, k, suite, record, room);
      && |record| >= 22 && record[..3] == [0x17, 3, 3]
      && 256 * (record[3] as nat) + record[4] as nat == |record| - 5
      && c.open(suite, k.key, Nonce(k.iv, k.sequence), record[..5], record[5..]) == Some(r.value + [0x17])
      && |r.value| <= room && k' == k.(sequence := k.sequence + 1)
  {
    var r := Decrypt(c, k, suite, record, room).1;
    var inner := c.open(suite, k.key, Nonce(k.iv, k.sequence), record[..5], record[5..]).value;
    assert inner == r.value + [0x17];
    assert record[..3] == [record[0]] + record[1..3];
  }

  // ---------------------------------------------------------------------
  // Streams
  // ---------------------------------------------------------------------

  /** The plaintexts of a series of sends that went out, and the records they went out in. */
  ghost function SentPlain(c: Aead, k: Keys, suite: Suite, ps: seq<seq<byte>>, room: nat): seq<seq<byte>>
    decreases |ps|
  {
    if ps == [] then []
    else
      var (k', r) := Encrypt(c, k, suite, ps[0], room);
      (if r.Ok? then [ps[0]] else []) + SentPlain(c, k', suite, ps[1..], room)
  }

  ghost function SentRecords(c: Aead, k: Keys, suite: Suite, ps: seq<seq<byte>>, room: nat): seq<seq<byte>>
    decreases |ps|
  {
    if ps == [] then []
    else
      var (k', r) := Encrypt(c, k, suite, ps[0], room);
      (if r.Ok? then [r.value] else []) + SentRecords(c, k', suite, ps[1..], room)
  }

  function KeysAt(k: Keys, j: nat): Keys
    requires k.sequence + j < U64_LIMIT
  {
    k.(sequence := k.sequence + j)
  }

  ghost predicate CarriesAt(c: Aead, k: Keys, suite: Suite, plain: seq<byte>, record: seq<byte>, room: nat, j: nat) {
    k.sequence + j + 1 < U64_LIMIT && Encrypt(c, KeysAt(k, j), suite, plain, room).1 == Ok(record)
  }

  /** The `j`-th record carries the `j`-th plaintext under the `j`-th sequence number. */
  ghost predicate Carry(c: Aead, k: Keys, suite: Suite, plains: seq<seq<byte>>, records: seq<seq<byte>>, room: nat) {
    |plains| == |records| && forall j | 0 <= j < |plains| :: CarriesAt(c, k, suite, plains[j], records[j], room, j)
  }

  lemma CarryMore(c: Aead, k: Keys, k': Keys, suite: Suite, plain: seq<byte>, record: seq<byte>,
                  plains: seq<seq<byte>>, records: seq<seq<byte>>, room: nat)
    requires Encrypt(c, k, suite, plain, room) == (k', Ok(record)) && Carry(c, k', suite, plains, records, room)
    ensures Carry(c, k, suite, [plain] + plains, [record] + records, room)
  {
    RecordBytes(c, k, suite, plain, room);
    var ps, rs := [plain] + plains, [record] + records;
    forall j | 0 <= j < |ps| ensures CarriesAt(c, k, suite, ps[j], rs[j], room, j) {
      if j == 0 {
        assert KeysAt(k, 0) == k;
      } else {
        assert CarriesAt(c, k', suite, plains[j - 1], records[j - 1], room, j - 1);
        assert KeysAt(k, j) == KeysAt(k', j - 1);
      }
    }
  }

  lemma {:induction false} SentCarry(c: Aead, k: Keys, suite: Suite, ps: seq<seq<byte>>, room: nat)
    ensures Carry(c, k, suite, SentPlain(c, k, suite, ps, room), SentRecords(c, k, suite, ps, room), room)
    decreases |ps|
  {
    if ps != [] {
      var (k', r) := Encrypt(c, k, suite, ps[0], room);
      SentCarry(c, k', suite, ps[1..], room);
      var plains, records := SentPlain(c, k', suite, ps[1..], room), SentRecords(c, k', suite, ps[1..], room);
      if r.Ok? {
        CarryMore(c, k, k', suite, ps[0], r.value, plains, records, room);
      } else {
        assert [] + plains == plains && [] + records == records;
      }
    }
  }

  /** What the network hands to the receiver, and how much room it has for it. */
  datatype Delivery = Delivery(record: seq<byte>, room: nat)

  /** The plaintexts a receiver accepts from a series of deliveries. */
  ghost function Received(c: Aead, k: Keys, suite: Suite, ds: seq<Delivery>): seq<seq<byte>>
    decreases |ds|
  {
    if ds == [] then []
    else
      var (k', r) := Decrypt(c, k, suite, ds[0].record, ds[0].room);
      (if r.Ok? then [r.value] else []) + Received(c, k', suite, ds[1..])
  }

  /** Nobody else seals under the key: whatever opens is, header and sealed part together, one of the
      records sent, under the nonce that record was sealed with. */
  ghost predicate Genuine(c: Aead, k: Keys, suite: Suite, records: seq<seq<byte>>) {
    forall n, a, t | c.open(suite, k.key, n, a, t).Some? && |a| == 5 :: FromSender(k, records, n, a + t)
  }

  ghost predicate FromSender(k: Keys, records: seq<seq<byte>>, nonce: seq<byte>, record: seq<byte>) {
    exists j | 0 <= j < |records| && k.sequence + j < U64_LIMIT :: records[j] == record && nonce == Nonce(k.iv, k.sequence + j)
  }

  lemma OnlyNext(k: Keys, records: seq<seq<byte>>, at: nat, record: seq<byte>)
    requires k.sequence + at < U64_LIMIT && FromSender(k, records, Nonce(k.iv, k.sequence + at), record)
    ensures at < |records| && records[at] == record
  {
    var j :| 0 <= j < |records| && k.sequence + j < U64_LIMIT
             && records[j] == record && Nonce(k.iv, k.sequence + at) == Nonce(k.iv, k.sequence + j);
    NonceInjective(k.iv, k.sequence + at, k.sequence + j);
  }

  lemma AcceptedIsSent(c: Aead, k: Keys, suite: Suite, records: seq<seq<byte>>, at: nat, record: seq<byte>, room: nat)
    requires Genuine(c, k, suite, records) && k.sequence + at < U64_LIMIT
    requires Decrypt(c, KeysAt(k, at), suite, record, room).1.Ok?
    ensures at < |records| && records[at] == record
  {
    AcceptedBytes(c, KeysAt(k, at), suite, record, room);
    var nonce := Nonce(k.iv, k.sequence + at);
    assert c.open(suite, k.key, nonce, record[..5], record[5..]).Some?;
    assert record[..5] + record[5..] == record;
    assert FromSender(k, records, nonce, record);
    OnlyNext(k, records, at, record);
  }

  lemma Reopened(c: Aead, k: Keys, suite: Suite, plain: seq<byte>, record: seq<byte>, room: nat, readRoom: nat)
    requires Lawful(c) && Encrypt(c, k, suite, plain, room).1 == Ok(record) && Decrypt(c, k, suite, record, readRoom).1.Ok?
    ensures k.sequence + 1 < U64_LIMIT && Decrypt(c, k, suite, record, readRoom) == (KeysAt(k, 1), Ok(plain))
  {
    RecordBytes(c, k, suite, plain, room);
    RecordRoundTrip(c, k, suite, plain, room, readRoom);
  }

  /** With the keys at position `at`, nothing but the plaintext of that position is accepted. */
  ghost predicate InTurn(c: Aead, k: Keys, suite: Suite, plains: seq<seq<byte>>, at: nat, record: seq<byte>, room: nat)
    requires k.sequence + at < U64_LIMIT
  {
    Decrypt(c, KeysAt(k, at), suite, record, room).1.Ok? ==>
      && at < |plains| && k.sequence + at + 1 < U64_LIMIT
      && Decrypt(c, KeysAt(k, at), suite, record, room) == (KeysAt(k, at + 1), Ok(plains[at]))
  }

  lemma TurnTaken(c: Aead, k: Keys, suite: Suite, plains: seq<seq<byte>>, at: nat, record: seq<byte>, sendRoom: nat, room: nat)
    requires Lawful(c) && at < |plains| && CarriesAt(c, k, suite, plains[at], record, sendRoom, at)
    requires Decrypt(c, KeysAt(k, at), suite, record, room).1.Ok?
    ensures InTurn(c, k, suite, plains, at, record, room)
  {
    Reopened(c, KeysAt(k, at), suite, plains[at], record, sendRoom, room);
    assert KeysAt(KeysAt(k, at), 1) == KeysAt(k, at + 1);
  }

  lemma AlwaysInTurn(c: Aead, k: Keys, suite: Suite, plains: seq<seq<byte>>, records: seq<seq<byte>>, sendRoom: nat,
                     at: nat, record: seq<byte>, room: nat)
    requires Lawful(c) && Carry(c, k, suite, plains, records, sendRoom) && Genuine(c, k, suite, records)
    requires k.sequence + at < U64_LIMIT
    ensures InTurn(c, k, suite, plains, at, record, room)
  {
    if Decrypt(c, KeysAt(k, at), suite, record, room).1.Ok? {
      AcceptedIsSent(c, k, suite, records, at, record, room);
      assert CarriesAt(c, k, suite, plains[at], records[at], sendRoom, at);
      TurnTaken(c, k, suite, plains, at, record, sendRoom, room);
    }
  }

  lemma {:induction false} ReceivedFrom(c: Aead, k: Keys, suite: Suite, plains: seq<seq<byte>>, at: nat, ds: seq<Delivery>)
    requires at <= |plains| && k.sequence + at < U64_LIMIT
    requires forall i, record, room | k.sequence + i < U64_LIMIT :: InTurn(c, k, suite, plains, i, record, room)
    ensures Received(c, KeysAt(k, at), suite, ds) <= plains[at..]
    decreases |ds|
  {
    if ds != [] {
      var (next, r) := Decrypt(c, KeysAt(k, at), suite, ds[0].record, ds[0].room);
      assert InTurn(c, k, suite, plains, at, ds[0].record, ds[0].room);
      if r.Ok? {
        ReceivedFrom(c, k, suite, plains, at + 1, ds[1..]);
        assert plains[at..] == [plains[at]] + plains[at + 1..];
      } else {
        ReceivedFrom(c, k, suite, plains, at, ds[1..]);
        assert [] + Received(c, next, suite, ds[1..]) == Received(c, next, suite, ds[1..]);
      }
    }
  }

  /** Over any network, whatever is dropped, repeated, reordered, altered or made up: a receiver that starts
      with the sender's keys accepts the sender's plaintexts from the first on, in order, each once. */
  lemma ReceivedInOrder(c: Aead, k: Keys, suite: Suite, ps: seq<seq<byte>>, room: nat, ds: seq<Delivery>)
    requires Lawful(c) && Genuine(c, k, suite, SentRecords(c, k, suite, ps, room))
    ensures Received(c, k, suite, ds) <= SentPlain(c, k, suite, ps, room)
  {
    var plains, records := SentPlain(c, k, suite, ps, room), SentRecords(c, k, suite, ps, room);
    SentCarry(c, k, suite, ps, room);
    forall i, record, readRoom | k.sequence + i < U64_LIMIT ensures InTurn(c, k, suite, plains, i, record, readRoom) {
      AlwaysInTurn(c, k, suite, plains, records, room, i, record, readRoom);
    }
    ReceivedFrom(c, k, suite, plains, 0, ds);
    assert KeysAt(k, 0) == k && plains[0..] == plains;
  }
}
