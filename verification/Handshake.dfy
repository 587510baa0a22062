/**
 * The PSK handshake between two connections of the pool (section 4 of RFC 8446 with
 * the kernel's own message layout): the key schedule of each side, the binder and
 * Finished checks, the keys that are installed, and the slots the whole run occupies.
 */
module Handshake {
  import opened Words
  import opened Hkdf
  import opened Records

  const EK_LEN: nat := 1184
  const CT_LEN: nat := 1088
  const TRANSCRIPT_BUFFER: nat := 4096
  const CLIENT_HELLO: byte := 1
  const SERVER_HELLO: byte := 2
  const FINISHED: byte := 20

  type PskId = s: seq<byte> | |s| == 16 witness Zeros(16)
  type EncapsKey = s: seq<byte> | |s| == EK_LEN witness Zeros(EK_LEN)
  type Ciphertext = s: seq<byte> | |s| == CT_LEN witness Zeros(CT_LEN)

  datatype Policy = Hybrid | Classical

  /** HMAC, hash, X25519 and ML-KEM-768 as functions; the last two may refuse their input. */
  datatype Primitives = Primitives(
    mac: Hmac, hash: seq<byte> -> Hash,
    publicKey: Hash -> Hash, agree: (Hash, Hash) -> Option<Hash>,
    keygen: (Hash, Hash) -> (EncapsKey, seq<byte>),
    encaps: (EncapsKey, Hash) -> Option<(Ciphertext, Hash)>, decaps: (Ciphertext, seq<byte>) -> Hash)

  /** The random draws, in the order they are made; a draw may fail. */
  datatype Draws = Draws(clientSeed: Option<Hash>, serverSeed: Option<Hash>, d: Option<Hash>, z: Option<Hash>,
                         clientRandom: Option<Hash>, serverRandom: Option<Hash>, m: Option<Hash>)

  /** What one handshake is asked for. */
  datatype Request = Request(policy: Policy, suite: Suite, id: PskId)

  function Ascii(s: string): (b: seq<byte>)
    ensures |b| == |s|
  {
    seq(|s|, i requires 0 <= i < |s| => (s[i] as int % 256) as byte)
  }

  // ---------------------------------------------------------------------
  // The key schedule of one side
  // ---------------------------------------------------------------------

  function EarlySecret(c: Primitives, psk: seq<byte>): Hash {
    c.mac(Zeros(HASH_LEN), psk)
  }

  function FinishedKey(c: Primitives, traffic: Hash): Hash {
    ExpandLabel(c.mac, traffic, Ascii("finished"), [], HASH_LEN)
  }

  function VerifyData(c: Primitives, traffic: Hash, transcript: Hash): Hash {
    c.mac(FinishedKey(c, traffic), transcript)
  }

  function Binder(c: Primitives, early: Hash, truncated: Hash): Hash {
    VerifyData(c, DeriveSecret(c.mac, early, Ascii("ext binder"), c.hash([])), truncated)
  }

  /** The handshake secret and the two handshake traffic secrets. */
  datatype HandshakeSecrets = HandshakeSecrets(secret: Hash, client: Hash, server: Hash)

  function SharedLength(policy: Policy): nat {
    if policy.Hybrid? then 2 * HASH_LEN else HASH_LEN
  }

  function Negotiate(c: Primitives, policy: Policy, early: Hash, shared: seq<byte>, transcript: Hash): Res<HandshakeSecrets> {
    if |shared| != SharedLength(policy) then Err(KexPolicyMismatch)
    else
      var secret := c.mac(DeriveSecret(c.mac, early, Ascii("derived"), c.hash([])), shared);
      Ok(HandshakeSecrets(secret, DeriveSecret(c.mac, secret, Ascii("c hs traffic"), transcript),
                          DeriveSecret(c.mac, secret, Ascii("s hs traffic"), transcript)))
  }

  /** The application traffic secrets of both directions, as one side derives them. */
  datatype AppSecrets = AppSecrets(client: Hash, server: Hash)

  function Application(c: Primitives, secret: Hash, transcript: Hash): AppSecrets {
    var master := c.mac(DeriveSecret(c.mac, secret, Ascii("derived"), c.hash([])), Zeros(HASH_LEN));
    AppSecrets(DeriveSecret(c.mac, master, Ascii("c ap traffic"), transcript),
               DeriveSecret(c.mac, master, Ascii("s ap traffic"), transcript))
  }

  /** Key and IV of one direction, with the sequence number at zero. */
  function TrafficKeys(c: Primitives, traffic: Hash): Keys {
    Direction(ExpandLabel(c.mac, traffic, Ascii("key"), [], 32), ExpandLabel(c.mac, traffic, Ascii("iv"), [], IV_LEN), 0)
  }

  // ---------------------------------------------------------------------
  // Messages and transcripts
  // ---------------------------------------------------------------------

  function MessageHeader(kind: byte, len: nat): seq<byte>
    requires len < 0x100_0000
  {
    [kind, (len / U16_LIMIT) as byte, (len / 0x100 % 0x100) as byte, (len % 0x100) as byte]
  }

  function SuiteByte(suite: Suite): byte {
    if suite.Aes256Gcm? then 1 else 2
  }

  /** The ClientHello up to the binder; the encapsulation key is empty for the classical policy. */
  function TruncatedHello(q: Request, random: Hash, share: Hash, ek: seq<byte>): seq<byte>
    requires |ek| <= EK_LEN
  {
    MessageHeader(CLIENT_HELLO, 82 + |ek| + 1 + HASH_LEN)
      + q.id + random + [SuiteByte(q.suite), if q.policy.Hybrid? then 1 else 0] + share + ek
  }

  function ServerHello(q: Request, random: Hash, share: Hash, ct: seq<byte>): seq<byte>
    requires |ct| <= CT_LEN
  {
    MessageHeader(SERVER_HELLO, 65 + |ct|) + random + [SuiteByte(q.suite)] + share + ct
  }

  function Finished(verify: Hash): seq<byte> {
    MessageHeader(FINISHED, HASH_LEN) + verify
  }

  /** Both sides add a message to their transcripts. */
  function Heard(client: seq<byte>, server: seq<byte>, message: seq<byte>): Res<(seq<byte>, seq<byte>)> {
    if |client| + |message| > TRANSCRIPT_BUFFER || |server| + |message| > TRANSCRIPT_BUFFER then Err(TranscriptOverflow)
    else Ok((client + message, server + message))
  }

  // ---------------------------------------------------------------------
  // One handshake
  // ---------------------------------------------------------------------

  predicate KeyShares(q: Request, r: Draws) {
    r.clientSeed.Some? && r.serverSeed.Some? && (q.policy.Hybrid? ==> r.d.Some? && r.z.Some?)
  }

  /** The client's encapsulation key pair, if the policy has one. */
  function KemKeys(c: Primitives, q: Request, r: Draws): (k: (seq<byte>, seq<byte>))
    requires KeyShares(q, r)
    ensures |k.0| == if q.policy.Hybrid? then EK_LEN else 0
  {
    if q.policy.Hybrid? then var (ek, dk) := c.keygen(r.d.value, r.z.value); (ek, dk) else ([], [])
  }

  /** The shared secret and the ciphertext the server sends; the two sides' values are compared. */
  function Exchange(c: Primitives, q: Request, r: Draws): (e: Res<(seq<byte>, seq<byte>)>)
    requires KeyShares(q, r)
    ensures e.Ok? ==> |e.value.0| == SharedLength(q.policy) && |e.value.1| <= CT_LEN
  {
    var ours := c.agree(r.clientSeed.value, c.publicKey(r.serverSeed.value));
    var theirs := c.agree(r.serverSeed.value, c.publicKey(r.clientSeed.value));
    if ours.None? || theirs.None? || ours != theirs then Err(Internal)
    else if q.policy.Classical? then Ok((ours.value, []))
    else if r.m.None? then Err(HsmFailure)
    else
      var (ek, dk) := c.keygen(r.d.value, r.z.value);
      match c.encaps(ek, r.m.value)
      case None => Err(Internal)
      case Some(made) =>
        if c.decaps(made.0, dk) != made.1 then Err(Internal) else Ok((ours.value + c.decaps(made.0, dk), made.0))
  }

  /** The Finished messages in both directions, each checked against the other side's view. */
  function Finish(c: Primitives, ours: HandshakeSecrets, theirs: HandshakeSecrets, client: seq<byte>, server: seq<byte>)
    : Res<(AppSecrets, AppSecrets)>
  {
    var sent := VerifyData(c, theirs.server, c.hash(client));
    if sent != VerifyData(c, ours.server, c.hash(client)) then Err(FinishedMismatch)
    else match Heard(client, server, Finished(sent))
      case Err(e) => Err(e)
      case Ok(t) =>
        var answer := VerifyData(c, ours.client, c.hash(t.0));
        if answer != VerifyData(c, theirs.client, c.hash(t.0)) then Err(FinishedMismatch)
        else match Heard(t.0, t.1, Finished(answer))
          case Err(e) => Err(e)
          case Ok(u) =>
            Ok((Application(c, ours.secret, c.hash(u.0)), Application(c, theirs.secret, c.hash(u.0))))
  }

  /** From the ServerHello on, with the transcripts that hold the ClientHello. */
  function Respond(c: Primitives, q: Request, r: Draws, ours: Hash, theirs: Hash, client: seq<byte>, server: seq<byte>)
    : Res<(AppSecrets, AppSecrets)>
    requires KeyShares(q, r)
  {
    if r.serverRandom.None? then Err(HsmFailure)
    else match Exchange(c, q, r)
      case Err(e) => Err(e)
      case Ok(x) =>
        match Heard(client, server, ServerHello(q, r.serverRandom.value, c.publicKey(r.serverSeed.value), x.1))
        case Err(e) => Err(e)
        case Ok(t) =>
          var mine := Negotiate(c, q.policy, ours, x.0, c.hash(t.0));
          var yours := Negotiate(c, q.policy, theirs, x.0, c.hash(t.0));
          if mine.Err? then Err(mine.error) else if yours.Err? then Err(yours.error)
          else Finish(c, mine.value, yours.value, t.0, t.1)
  }

  /** Each side runs its own key schedule on what it holds; the keystore refuses to extract from empty
      key material. The answer is the application
      secrets of the client and those of the server. */
  function Shake(c: Primitives, q: Request, psk: Option<seq<byte>>, r: Draws): Res<(AppSecrets, AppSecrets)> {
    if !KeyShares(q, r) then Err(HsmFailure)
    else if psk.None? then Err(UnknownPsk)
    else if psk.value == [] then Err(HsmFailure)
    else if r.clientRandom.None? then Err(HsmFailure)
    else
      var ours, theirs := EarlySecret(c, psk.value), EarlySecret(c, psk.value);
      var hello := TruncatedHello(q, r.clientRandom.value, c.publicKey(r.clientSeed.value), KemKeys(c, q, r).0);
      var binder := Binder(c, ours, c.hash(hello));
      if |hello| > TRANSCRIPT_BUFFER then Err(TranscriptOverflow)
      else if binder != Binder(c, theirs, c.hash(hello)) then Err(FinishedMismatch)
      else match Heard([], [], hello + [HASH_LEN as byte] + binder)
        case Err(e) => Err(e)
        case Ok(t) => Respond(c, q, r, ours, theirs, t.0, t.1)
  }

  // ---------------------------------------------------------------------
  // What a handshake comes to
  // ---------------------------------------------------------------------

  /** The two sides derive the same Diffie-Hellman value. */
  predicate SharesAgree(c: Primitives, a: Hash, b: Hash) {
    c.agree(a, c.publicKey(b)).Some? && c.agree(a, c.publicKey(b)) == c.agree(b, c.publicKey(a))
  }

  /** The client recovers what the server encapsulated. */
  predicate Decapsulates(c: Primitives, d: Hash, z: Hash, m: Hash) {
    var (ek, dk) := c.keygen(d, z);
    var made := c.encaps(ek, m);
    made.Some? && c.decaps(made.value.0, dk) == made.value.1
  }

  /** The key exchange goes through: with the last draw, for the hybrid policy. */
  predicate Agrees(c: Primitives, q: Request, r: Draws)
    requires KeyShares(q, r)
  {
    && SharesAgree(c, r.clientSeed.value, r.serverSeed.value)
    && (q.policy.Hybrid? ==> r.m.Some? && Decapsulates(c, r.d.value, r.z.value, r.m.value))
  }

  lemma ExchangeOutcome(c: Primitives, q: Request, r: Draws)
    requires KeyShares(q, r)
    ensures var e := Exchange(c, q, r);
      && (e.Ok? <==> Agrees(c, q, r))
      && (e.Err? ==> e.error == if SharesAgree(c, r.clientSeed.value, r.serverSeed.value)
                                   && q.policy.Hybrid? && r.m.None? then HsmFailure else Internal)
  {
    var (a, b) := (r.clientSeed.value, r.serverSeed.value);
    assert SharesAgree(c, a, b) <==> c.agree(a, c.publicKey(b)).Some? && c.agree(b, c.publicKey(a)).Some?
                                     && c.agree(a, c.publicKey(b)) == c.agree(b, c.publicKey(a));
    if SharesAgree(c, a, b) && q.policy.Hybrid? && r.m.Some? {
      var (ek, dk) := c.keygen(r.d.value, r.z.value);
      assert Decapsulates(c, r.d.value, r.z.value, r.m.value)
        <==> c.encaps(ek, r.m.value).Some? && c.decaps(c.encaps(ek, r.m.value).value.0, dk) == c.encaps(ek, r.m.value).value.1;
    }
  }

  /** Sides with equal handshake secrets finish, with equal application secrets. */
  lemma FinishAgrees(c: Primitives, s: HandshakeSecrets, t: seq<byte>)
    requires |t| + 72 <= TRANSCRIPT_BUFFER
    ensures Finish(c, s, s, t, t).Ok?
    ensures Finish(c, s, s, t, t).value.0 == Finish(c, s, s, t, t).value.1
  {
    var sent := VerifyData(c, s.server, c.hash(t));
    assert Heard(t, t, Finished(sent)).Ok?;
  }

  lemma RespondOutcome(c: Primitives, q: Request, r: Draws, early: Hash, t: seq<byte>)
    requires KeyShares(q, r) && |t| <= 1303
    ensures var a := Respond(c, q, r, early, early, t, t);
      && (a.Ok? <==> r.serverRandom.Some? && Agrees(c, q, r))
      && (a.Ok? ==> a.value.0 == a.value.1)
      && (a.Err? ==> a.error == if r.serverRandom.None? then HsmFailure else Exchange(c, q, r).error)
  {
    ExchangeOutcome(c, q, r);
    if r.serverRandom.Some? && Agrees(c, q, r) {
      var x := Exchange(c, q, r).value;
      var hello := ServerHello(q, r.serverRandom.value, c.publicKey(r.serverSeed.value), x.1);
      assert |hello| <= 1157;
      var u := t + hello;
      FinishAgrees(c, Negotiate(c, q.policy, early, x.0, c.hash(u)).value, u);
    }
  }

  /** Everything a handshake draws and asks for is there. */
  predicate Supplied(q: Request, psk: Option<seq<byte>>, r: Draws) {
    KeyShares(q, r) && psk.Some? && psk.value != [] && r.clientRandom.Some? && r.serverRandom.Some?
  }

  /** The exact outcome, for all primitives and draws. A handshake succeeds exactly when the draws
      it makes succeed, the PSK is known and the key exchange agrees; then both sides hold the same
      secrets. The binder and Finished checks never fail, no transcript overflows and the policy
      check never fires: the only errors are these three. */
  lemma ShakeOutcome(c: Primitives, q: Request, psk: Option<seq<byte>>, r: Draws)
    ensures var a := Shake(c, q, psk, r);
      && (a.Ok? <==> Supplied(q, psk, r) && Agrees(c, q, r))
      && (a.Ok? ==> a.value.0 == a.value.1)
      && (a.Err? ==> a.error in {HsmFailure, UnknownPsk, Internal})
      && (a == Err(UnknownPsk) <==> KeyShares(q, r) && psk.None?)
      && (a == Err(Internal) <==> Supplied(q, psk, r) && Exchange(c, q, r) == Err(Internal))
  {
    if KeyShares(q, r) && psk.Some? && psk.value != [] && r.clientRandom.Some? {
      var early := EarlySecret(c, psk.value);
      var hello := TruncatedHello(q, r.clientRandom.value, c.publicKey(r.clientSeed.value), KemKeys(c, q, r).0);
      var t := hello + [HASH_LEN as byte] + Binder(c, early, c.hash(hello));
      assert |t| <= 1303;
      assert [] + t == t;
      assert Shake(c, q, psk, r) == Respond(c, q, r, early, early, t, t);
      RespondOutcome(c, q, r, early, t);
      ExchangeOutcome(c, q, r);
    }
  }

  /** Key agreement is symmetric, and decapsulation undoes encapsulation. */
  ghost predicate Correct(c: Primitives) {
    && (forall a, b :: c.agree(a, c.publicKey(b)) == c.agree(b, c.publicKey(a)))
    && (forall d, z, m :: Decapsulates(c, d, z, m))
  }

  /** With correct primitives a handshake fails only for want of a draw, of the PSK, or of a
      usable peer key. */
  lemma HonestShake(c: Primitives, q: Request, psk: Option<seq<byte>>, r: Draws)
    requires Correct(c) && Supplied(q, psk, r) && (q.policy.Hybrid? ==> r.m.Some?)
    ensures Shake(c, q, psk, r).Ok? <==> c.agree(r.clientSeed.value, c.publicKey(r.serverSeed.value)).Some?
  {
    ShakeOutcome(c, q, psk, r);
  }

  // ---------------------------------------------------------------------
  // The pool
  // ---------------------------------------------------------------------

  /** The client writes with the client's secret as it derived it, the server with the server's. */
  function Installed(c: Primitives, p: Pool, client: nat, server: nat, ours: AppSecrets, theirs: AppSecrets): Pool
    requires Live(p, client) && Live(p, server)
  {
    var p1 := p[client := Some(p[client].value.(write := TrafficKeys(c, ours.client),
                                               read := TrafficKeys(c, ours.server), state := Connected))];
    p1[server := Some(p1[server].value.(write := TrafficKeys(c, theirs.server),
                                       read := TrafficKeys(c, theirs.client), state := Connected))]
  }

  /** The two connections are in step exactly when the two sides derived the same keys in both directions. */
  lemma InstalledInStep(c: Primitives, p: Pool, client: nat, server: nat, ours: AppSecrets, theirs: AppSecrets)
    requires Live(p, client) && Live(p, server) && client != server
    ensures var p' := Installed(c, p, client, server, ours, theirs);
      && (Lockstep(p', client, server)
          <==> TrafficKeys(c, ours.client) == TrafficKeys(c, theirs.client)
               && TrafficKeys(c, ours.server) == TrafficKeys(c, theirs.server))
      && Fresh(p', client, p[client].value.suite) && Fresh(p', server, p[server].value.suite)
  {
  }

  /** A connection that has sent and received nothing yet. */
  predicate Fresh(p: Pool, h: nat, suite: Suite) {
    && Live(p, h) && p[h].value.state.Connected? && p[h].value.suite == suite
    && p[h].value.write.sequence == 0 && p[h].value.read.sequence == 0
  }

  /** Takes two slots and settles them by the outcome of the handshake: its keys installed, or both
      closed. When only one slot is free, it is marked unused but stays taken. */
  function Settle(c: Primitives, p: Pool, suite: Suite, outcome: Res<(AppSecrets, AppSecrets)>): (Pool, Res<(nat, nat)>) {
    match FirstFree(p)
    case None => (p, Err(PoolFull))
    case Some(client) =>
      var p1 := p[client := Some(NewConn(suite).(state := Handshaking))];
      match FirstFree(p1)
      case None => (p1[client := Some(NewConn(suite))], Err(PoolFull))
      case Some(server) =>
        var p2 := p1[server := Some(NewConn(suite).(state := Handshaking))];
        match outcome
        case Err(e) => (Close(Close(p2, client), server), Err(e))
        case Ok(s) => (Installed(c, p2, client, server, s.0, s.1), Ok((client, server)))
  }

  function RunLoopback(c: Primitives, p: Pool, q: Request, psk: Option<seq<byte>>, r: Draws): (Pool, Res<(nat, nat)>) {
    Settle(c, p, q.suite, Shake(c, q, psk, r))
  }

  predicate OneFree(p: Pool) {
    exists h | 0 <= h < MAX_CONNS :: p[h].None? && forall i | 0 <= i < MAX_CONNS && i != h :: p[i].Some?
  }

  predicate NoneFree(p: Pool) {
    forall h | 0 <= h < MAX_CONNS :: p[h].Some?
  }

  /** The slots a run takes: the first two free ones. */
  predicate FirstTwo(p: Pool, client: nat, server: nat) {
    && client < server < MAX_CONNS && p[client].None? && p[server].None?
    && forall h | 0 <= h < server && h != client :: p[h].Some?
  }

  /** What is left to find once the first free slot is taken. */
  lemma SecondFree(p: Pool, client: nat, busy: Conn)
    requires FirstFree(p) == Some(client)
    ensures var p1 := p[client := Some(busy)];
      && (FirstFree(p1).None? <==> OneFree(p)) && (OneFree(p) ==> NoneFree(p1))
      && (FirstFree(p1).Some? ==> FirstTwo(p, client, FirstFree(p1).value))
  {
    var p1 := p[client := Some(busy)];
    if FirstFree(p1).None? {
      assert forall i | 0 <= i < MAX_CONNS && i != client :: p1[i].Some? && p[i] == p1[i];
    } else {
      var server := FirstFree(p1).value;
      assert p[server].None? && p[client].None?;
      assert forall i | 0 <= i < MAX_CONNS && i != client :: p[i] == p1[i];
    }
  }

  /** The pool with both ends of a handshake under way. */
  function Underway(p: Pool, suite: Suite, client: nat, server: nat): Pool
    requires client < MAX_CONNS && server < MAX_CONNS
  {
    var busy := Some(NewConn(suite).(state := Handshaking));
    p[client := busy][server := busy]
  }

  /** Every run ends in one of three ways: no pair of slots, a failed handshake, or keys installed. */
  lemma SettleCases(c: Primitives, p: Pool, suite: Suite, outcome: Res<(AppSecrets, AppSecrets)>)
    ensures var (p', a) := Settle(c, p, suite, outcome);
      && (NoneFree(p) ==> (p', a) == (p, Err(PoolFull)))
      && (OneFree(p) ==> a == Err(PoolFull) && p' != p && NoneFree(p'))
      && (!NoneFree(p) && !OneFree(p) && outcome.Err? ==> p' == p && a == Err(outcome.error))
      && (!NoneFree(p) && !OneFree(p) && outcome.Ok? ==>
            && a.Ok? && FirstTwo(p, a.value.0, a.value.1)
            && p' == Installed(c, Underway(p, suite, a.value.0, a.value.1), a.value.0, a.value.1,
                               outcome.value.0, outcome.value.1))
  {
    if FirstFree(p).Some? {
      var client := FirstFree(p).value;
      SecondFree(p, client, NewConn(suite).(state := Handshaking));
      var p1 := p[client := Some(NewConn(suite).(state := Handshaking))];
      if FirstFree(p1).None? {
        var full: Pool := p1[client := Some(NewConn(suite))];
        assert full[client] != p[client];
      } else {
        var server := FirstFree(p1).value;
        assert Close(Close(Underway(p, suite, client, server), client), server) == p;
      }
    }
  }

  /** A run succeeds exactly when two slots are free and the handshake does. It takes the first two
      free slots, which are then in step with fresh counters; every other slot is as before. */
  lemma RunConnects(c: Primitives, p: Pool, q: Request, psk: Option<seq<byte>>, r: Draws)
    ensures var (p', a) := RunLoopback(c, p, q, psk, r);
      && (a.Ok? <==> !NoneFree(p) && !OneFree(p) && Supplied(q, psk, r) && Agrees(c, q, r))
      && (a.Ok? ==>
            var (client, server) := a.value;
            && FirstTwo(p, client, server) && Lockstep(p', client, server)
            && Fresh(p', client, q.suite) && Fresh(p', server, q.suite)
            && forall h | 0 <= h < MAX_CONNS && h != client && h != server :: p'[h] == p[h])
  {
    ShakeOutcome(c, q, psk, r);
    var outcome := Shake(c, q, psk, r);
    SettleCases(c, p, q.suite, outcome);
    if outcome.Ok? && !NoneFree(p) && !OneFree(p) {
      var ends: Res<(nat, nat)> := Settle(c, p, q.suite, outcome).1;
      PairConnected(c, p, RunLoopback(c, p, q, psk, r).0, q.suite, ends.value.0, ends.value.1, outcome.value.0);
    }
  }

  /** What installing the same secrets at both ends of a handshake under way leaves. */
  lemma PairConnected(c: Primitives, p: Pool, p': Pool, suite: Suite, client: nat, server: nat, secrets: AppSecrets)
    requires FirstTwo(p, client, server)
    requires p' == Installed(c, Underway(p, suite, client, server), client, server, secrets, secrets)
    ensures Lockstep(p', client, server) && Fresh(p', client, suite) && Fresh(p', server, suite)
    ensures forall h | 0 <= h < MAX_CONNS && h != client && h != server :: p'[h] == p[h]
  {
    InstalledInStep(c, Underway(p, suite, client, server), client, server, secrets, secrets);
  }

  /** A failed run leaves the pool as it was exactly when it did not find one single free slot. That
      slot it keeps: the pool is then full, and every later run fails with it unchanged. */
  lemma FailedRun(c: Primitives, p: Pool, q: Request, psk: Option<seq<byte>>, r: Draws,
                  q': Request, psk': Option<seq<byte>>, r': Draws)
    requires RunLoopback(c, p, q, psk, r).1.Err?
    ensures var p' := RunLoopback(c, p, q, psk, r).0;
      && (p' == p <==> !OneFree(p))
      && (OneFree(p) ==> NoneFree(p') && RunLoopback(c, p', q', psk', r') == (p', Err(PoolFull)))
  {
    SettleCases(c, p, q.suite, Shake(c, q, psk, r));
    var p' := RunLoopback(c, p, q, psk, r).0;
    SettleCases(c, p', q'.suite, Shake(c, q', psk', r'));
  }

  /** From a successful run on, every conversation between the two connections is delivered in full. */
  lemma ConnectedTalk(c: Primitives, a: Aead, p: Pool, q: Request, psk: Option<seq<byte>>, r: Draws, turns: seq<Turn>)
    requires Lawful(a) && NeverFails(a) && |turns| < U64_LIMIT && RunLoopback(c, p, q, psk, r).1.Ok?
    requires forall i | 0 <= i < |turns| :: |turns[i].plain| <= turns[i].room && |turns[i].plain| <= MAX_PLAINTEXT
    ensures var (p', ends) := RunLoopback(c, p, q, psk, r);
      var rs := Converse(a, p', ends.value.0, ends.value.1, turns).1;
      |rs| == |turns| && forall i | 0 <= i < |rs| :: rs[i] == Ok(turns[i].plain)
  {
    RunConnects(c, p, q, psk, r);
    var (p', ends) := RunLoopback(c, p, q, psk, r);
    ConversationComplete(a, p', ends.value.0, ends.value.1, turns);
  }
}
