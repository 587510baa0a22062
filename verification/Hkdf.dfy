/**
 * HKDF-Expand (section 2.3 of RFC 5869) as the in-place loop that fills an
 * output buffer, and the HkdfLabel structure of section 7.1 of RFC 8446.
 */
module Hkdf {
  import opened Words

  const HASH_LEN: nat := 32
  const MAX_OUTPUT: nat := 168
  const MAX_BLOCKS: nat := 255

  type Hash = s: seq<byte> | |s| == HASH_LEN witness Zeros(HASH_LEN)

  /** HMAC-SHA-256 as a function of key and message. */
  type Hmac = (seq<byte>, seq<byte>) -> Hash

  /** T(i): empty for 0, otherwise the MAC over T(i-1), info and the one-byte counter. */
  function Block(mac: Hmac, prk: seq<byte>, info: seq<byte>, i: nat): (t: seq<byte>)
    requires i <= MAX_BLOCKS
    ensures |t| == if i == 0 then 0 else HASH_LEN
  {
    if i == 0 then [] else mac(prk, Block(mac, prk, info, i - 1) + info + [i as byte])
  }

  /** T(1) to T(n), concatenated. */
  function Blocks(mac: Hmac, prk: seq<byte>, info: seq<byte>, n: nat): (s: seq<byte>)
    requires n <= MAX_BLOCKS
    ensures |s| == n * HASH_LEN
  {
    if n == 0 then [] else Blocks(mac, prk, info, n - 1) + Block(mac, prk, info, n)
  }

  function BlocksFor(len: nat): (n: nat)
    ensures n * HASH_LEN >= len
    ensures len <= MAX_BLOCKS * HASH_LEN ==> n <= MAX_BLOCKS
  {
    (len + HASH_LEN - 1) / HASH_LEN
  }

  /** The output keying material of a given length. */
  function Okm(mac: Hmac, prk: seq<byte>, info: seq<byte>, len: nat): (s: seq<byte>)
    requires len <= MAX_BLOCKS * HASH_LEN
    ensures |s| == len
  {
    Blocks(mac, prk, info, BlocksFor(len))[..len]
  }

  lemma {:induction false} BlocksPrefix(mac: Hmac, prk: seq<byte>, info: seq<byte>, m: nat, n: nat)
    requires m <= n <= MAX_BLOCKS
    ensures m * HASH_LEN <= n * HASH_LEN
    ensures Blocks(mac, prk, info, n)[..m * HASH_LEN] == Blocks(mac, prk, info, m)
    decreases n
  {
    if m < n {
      BlocksPrefix(mac, prk, info, m, n - 1);
      assert Blocks(mac, prk, info, n)[..(n - 1) * HASH_LEN] == Blocks(mac, prk, info, n - 1);
      assert Blocks(mac, prk, info, n)[..m * HASH_LEN]
          == Blocks(mac, prk, info, n)[..(n - 1) * HASH_LEN][..m * HASH_LEN];
    }
  }

  /** A shorter output is a prefix of a longer one. */
  lemma ShorterIsPrefix(mac: Hmac, prk: seq<byte>, info: seq<byte>, short: nat, long: nat)
    requires short <= long <= MAX_BLOCKS * HASH_LEN
    ensures Okm(mac, prk, info, short) == Okm(mac, prk, info, long)[..short]
  {
    var m, n := BlocksFor(short), BlocksFor(long);
    BlocksPrefix(mac, prk, info, m, n);
    assert Okm(mac, prk, info, long)[..short] == Blocks(mac, prk, info, n)[..short];
    assert Blocks(mac, prk, info, n)[..short] == Blocks(mac, prk, info, n)[..m * HASH_LEN][..short];
  }

  lemma {:induction false} BlockInside(mac: Hmac, prk: seq<byte>, info: seq<byte>, n: nat, i: nat)
    requires i < n <= MAX_BLOCKS
    ensures Blocks(mac, prk, info, n)[i * 32..i * 32 + 32] == Block(mac, prk, info, i + 1)
  {
    if i == n - 1 {
      assert Blocks(mac, prk, info, n)[i * 32..] == Block(mac, prk, info, n);
    } else {
      BlockInside(mac, prk, info, n - 1, i);
      assert Blocks(mac, prk, info, n)[i * 32..i * 32 + 32] == Blocks(mac, prk, info, n - 1)[i * 32..i * 32 + 32];
    }
  }

  /** Each 32 bytes of the output, the last ones possibly cut short, are the MAC over the 32 before them,
      the info and their own number, counted from one. */
  ghost predicate Chained(mac: Hmac, prk: seq<byte>, info: seq<byte>, okm: seq<byte>) {
    |okm| <= MAX_BLOCKS * 32 && forall i | 0 <= i < BlocksFor(|okm|) :: ChainedAt(mac, prk, info, okm, i)
  }

  ghost predicate ChainedAt(mac: Hmac, prk: seq<byte>, info: seq<byte>, okm: seq<byte>, i: nat) {
    && i < 255 && i * 32 < |okm|
    && okm[i * 32..if |okm| < i * 32 + 32 then |okm| else i * 32 + 32]
       <= mac(prk, (if i == 0 then [] else okm[i * 32 - 32..i * 32]) + info + [(i + 1) as byte])
  }

  lemma OkmChained(mac: Hmac, prk: seq<byte>, info: seq<byte>, len: nat)
    requires len <= MAX_BLOCKS * HASH_LEN
    ensures Chained(mac, prk, info, Okm(mac, prk, info, len))
  {
    forall i | 0 <= i < BlocksFor(len) ensures ChainedAt(mac, prk, info, Okm(mac, prk, info, len), i) {
      OkmChainedAt(mac, prk, info, len, i);
    }
  }

  lemma CutInside(s: seq<byte>, len: nat, lo: nat, hi: nat)
    requires lo <= hi <= len <= |s|
    ensures s[..len][lo..hi] == s[lo..hi]
  {
  }

  lemma OkmChainedAt(mac: Hmac, prk: seq<byte>, info: seq<byte>, len: nat, i: nat)
    requires len <= MAX_BLOCKS * HASH_LEN && i < BlocksFor(len)
    ensures ChainedAt(mac, prk, info, Okm(mac, prk, info, len), i)
  {
    var all, n := Blocks(mac, prk, info, BlocksFor(len)), BlocksFor(len);
    BlockInside(mac, prk, info, n, i);
    if i > 0 {
      BlockInside(mac, prk, info, n, i - 1);
    }
    LinkedAt(mac, prk, info, all, len, i, Block(mac, prk, info, i), Block(mac, prk, info, i + 1));
  }

  lemma LinkedAt(mac: Hmac, prk: seq<byte>, info: seq<byte>, all: seq<byte>, len: nat, i: nat, prev: seq<byte>, block: Hash)
    requires i < 255 && i * 32 < len <= |all| && i * 32 + 32 <= |all| && all[i * 32..i * 32 + 32] == block
    requires if i == 0 then prev == [] else all[i * 32 - 32..i * 32] == prev
    requires block == mac(prk, prev + info + [(i + 1) as byte])
    ensures ChainedAt(mac, prk, info, all[..len], i)
  {
    var end := if len < i * 32 + 32 then len else i * 32 + 32;
    CutInside(all, len, i * 32, end);
    FrontOfSlice(all, i * 32, i * 32 + 32, end - i * 32);
    if i > 0 {
      CutInside(all, len, i * 32 - 32, i * 32);
    }
  }

  /** Fills `okm` block by block; the counter byte never wraps for an accepted length. */
  method Expand(mac: Hmac, prk: seq<byte>, info: seq<byte>, okm: array<byte>) returns (ok: bool)
    modifies okm
    ensures ok <==> okm.Length <= MAX_OUTPUT
    ensures ok ==> okm[..] == Okm(mac, prk, info, okm.Length) && Chained(mac, prk, info, okm[..])
    ensures !ok ==> okm[..] == old(okm[..])
  {
    if okm.Length > MAX_OUTPUT || okm.Length > MAX_BLOCKS * HASH_LEN {
      return false;
    }
    var prev: seq<byte> := [];
    var produced, counter := 0, 1;
    while produced < okm.Length
      invariant 1 <= counter <= 255 && produced <= okm.Length
      invariant produced == if (counter - 1) * HASH_LEN < okm.Length then (counter - 1) * HASH_LEN else okm.Length
      invariant (counter - 1) * HASH_LEN < okm.Length + HASH_LEN
      invariant prev == Block(mac, prk, info, counter - 1)
      invariant okm[..produced] == Blocks(mac, prk, info, counter - 1)[..produced]
    {
      var current := mac(prk, prev + info + [counter as byte]);
      produced := CopyBlock(mac, prk, info, okm, produced, counter, current);
      prev := current;
      counter := (counter + 1) % 256;
    }
    ok := true;
    ghost var n := BlocksFor(okm.Length);
    assert n == counter - 1;
    assert okm[..produced] == okm[..];
    OkmChained(mac, prk, info, okm.Length);
  }

  method CopyBlock(ghost mac: Hmac, ghost prk: seq<byte>, ghost info: seq<byte>,
                   okm: array<byte>, produced: nat, ghost counter: nat, current: seq<byte>) returns (next: nat)
    requires 1 <= counter <= MAX_BLOCKS && produced == (counter - 1) * HASH_LEN < okm.Length
    requires current == Block(mac, prk, info, counter)
    requires okm[..produced] == Blocks(mac, prk, info, counter - 1)[..produced]
    modifies okm
    ensures next == if counter * HASH_LEN < okm.Length then counter * HASH_LEN else okm.Length
    ensures okm[..next] == Blocks(mac, prk, info, counter)[..next]
  {
    var take := if HASH_LEN < okm.Length - produced then HASH_LEN else okm.Length - produced;
    forall i | 0 <= i < take {
      okm[produced + i] := current[i];
    }
    next := produced + take;
    ghost var before := Blocks(mac, prk, info, counter - 1);
    assert okm[..next] == before + current[..take];
  }

  // ---------------------------------------------------------------------
  // Labels
  // ---------------------------------------------------------------------

  const LABEL_BUFFER: nat := 128
  const TLS13: seq<byte> := [0x74, 0x6C, 0x73, 0x31, 0x33, 0x20]

  /** The HkdfLabel structure: length, prefixed label, context. */
  function Label(len: nat, name: seq<byte>, context: seq<byte>): (b: seq<byte>)
    requires len < U16_LIMIT && |name| <= 249 && |context| <= 255
    ensures |b| == 10 + |name| + |context|
  {
    Be16(len) + [(6 + |name|) as byte] + TLS13 + name + [|context| as byte] + context
  }

  /** Different inputs give different structures. */
  lemma LabelInjective(len: nat, name: seq<byte>, context: seq<byte>, len': nat, name': seq<byte>, context': seq<byte>)
    requires len < U16_LIMIT && |name| <= 249 && |context| <= 255
    requires len' < U16_LIMIT && |name'| <= 249 && |context'| <= 255
    requires Label(len, name, context) == Label(len', name', context')
    ensures len == len' && name == name' && context == context'
  {
    var b, b' := Label(len, name, context), Label(len', name', context');
    assert b[..2] == Be16(len) && b'[..2] == Be16(len');
    Be16Injective(len, len');
    assert b[2] == (6 + |name|) as byte && b'[2] == (6 + |name'|) as byte;
    var n := |name|;
    assert b[9..9 + n] == name && b'[9..9 + n] == name';
    assert b[10 + n..] == context && b'[10 + n..] == context';
  }

  /** HKDF-Expand-Label for inputs that fit the encoder's buffer. */
  function ExpandLabel(mac: Hmac, secret: Hash, name: seq<byte>, context: seq<byte>, len: nat): (k: seq<byte>)
    requires 10 + |name| + |context| <= LABEL_BUFFER && len <= MAX_OUTPUT
    ensures |k| == len
  {
    Okm(mac, secret, Label(len, name, context), len)
  }

  function DeriveSecret(mac: Hmac, secret: Hash, name: seq<byte>, transcript: Hash): Hash
    requires |name| <= 32
  {
    ExpandLabel(mac, secret, name, transcript, HASH_LEN)
  }

  datatype Built = Built(info: seq<byte>) | Refused | OutOfBounds

  /** Fills the buffer behind a moving cursor, stopping where a store would fall outside. The length
      checks alone do not keep every store inside: past them, they do exactly for labels of at most
      118 bytes; and the structure is built exactly when the whole of it fits. */
  method BuildLabel(len: nat, name: seq<byte>, context: seq<byte>) returns (r: Built)
    ensures r == OutOfBounds <==> 118 < |name| <= 249 && |context| <= 255 && len < U16_LIMIT
    ensures r.Built? <==> 10 + |name| + |context| <= LABEL_BUFFER && len < U16_LIMIT
    ensures r.Built? ==> r.info == Label(len, name, context)
  {
    if 6 + |name| > 255 || |context| > 255 {
      return Refused;
    }
    if len > 0xFFFF {
      return Refused;
    }
    var info := new byte[LABEL_BUFFER](_ => 0);
    var p := AppendFront(info, len, |name|);
    if p + |name| > info.Length {
      return OutOfBounds;
    }
    p := Append(info, p, name);
    if p + 1 > info.Length {
      return OutOfBounds;
    }
    p := Append(info, p, [|context| as byte]);
    if p + |context| > info.Length {
      return Refused;
    }
    p := Append(info, p, context);
    r := Built(info[..p]);
  }

  method AppendFront(a: array<byte>, len: nat, n: nat) returns (p: nat)
    requires a.Length == LABEL_BUFFER && len < U16_LIMIT && 6 + n <= 255
    modifies a
    ensures p == 9 && a[..p] == Be16(len) + [(6 + n) as byte] + TLS13
  {
    p := Append(a, 0, Be16(len));
    p := Append(a, p, [(6 + n) as byte]);
    p := Append(a, p, TLS13);
  }

  method Append(a: array<byte>, p: nat, b: seq<byte>) returns (q: nat)
    requires p + |b| <= a.Length
    modifies a
    ensures q == p + |b| && a[..q] == old(a[..p]) + b
  {
    CopyInto(a, p, b);
    q := p + |b|;
  }
}
