/** Which keys a handshake installs: the schedule of section 7.1 of RFC 8446 with labels and messages
    spelled out byte by byte, and what those keys bind. */
module HandshakeKeys {
  import opened Words
  import opened Hkdf
  import opened Records
  import opened Handshake

  // ---------------------------------------------------------------------
  // Labels
  // ---------------------------------------------------------------------

  const DERIVED: seq<byte> := [0x64, 0x65, 0x72, 0x69, 0x76, 0x65, 0x64]
  const EXT_BINDER: seq<byte> := [0x65, 0x78, 0x74, 0x20, 0x62, 0x69, 0x6E, 0x64, 0x65, 0x72]
  const C_HS: seq<byte> := [0x63, 0x20, 0x68, 0x73, 0x20, 0x74, 0x72, 0x61, 0x66, 0x66, 0x69, 0x63]
  const S_HS: seq<byte> := [0x73, 0x20, 0x68, 0x73, 0x20, 0x74, 0x72, 0x61, 0x66, 0x66, 0x69, 0x63]
  const C_AP: seq<byte> := [0x63, 0x20, 0x61, 0x70, 0x20, 0x74, 0x72, 0x61, 0x66, 0x66, 0x69, 0x63]
  const S_AP: seq<byte> := [0x73, 0x20, 0x61, 0x70, 0x20, 0x74, 0x72, 0x61, 0x66, 0x66, 0x69, 0x63]
  const FINISHED_NAME: seq<byte> := [0x66, 0x69, 0x6E, 0x69, 0x73, 0x68, 0x65, 0x64]
  const KEY: seq<byte> := [0x6B, 0x65, 0x79]
  const IV: seq<byte> := [0x69, 0x76]

  lemma DerivedSpelled()
    ensures Ascii("derived") == DERIVED
  {
  }

  lemma ExtBinderSpelled()
    ensures Ascii("ext binder") == EXT_BINDER
  {
  }

  lemma ClientHandshakeSpelled()
    ensures Ascii("c hs traffic") == C_HS
  {
  }

  lemma ServerHandshakeSpelled()
    ensures Ascii("s hs traffic") == S_HS
  {
  }

  lemma ClientTrafficSpelled()
    ensures Ascii("c ap traffic") == C_AP
  {
  }

  lemma ServerTrafficSpelled()
    ensures Ascii("s ap traffic") == S_AP
  {
  }

  lemma FinishedSpelled()
    ensures Ascii("finished") == FINISHED_NAME
  {
  }

  lemma KeySpelled()
    ensures Ascii("key") == KEY
  {
  }

  lemma IvSpelled()
    ensures Ascii("iv") == IV
  {
  }

  /** One label as it enters the MAC: output length, "tls13 " and the name behind their joint length, the
      context behind its length, and the number of the block. */
  function Info(len: byte, name: seq<byte>, context: seq<byte>): seq<byte>
    requires |name| <= 12 && |context| <= 32
  {
    [0, len, (6 + |name|) as byte, 0x74, 0x6C, 0x73, 0x31, 0x33, 0x20] + name + [|context| as byte] + context + [1]
  }

  /** One block of output is one call of the MAC. */
  lemma OneBlock(mac: Hmac, secret: Hash, info: seq<byte>, len: nat)
    requires 0 < len <= 32
    ensures Okm(mac, secret, info, len) == mac(secret, info + [1])[..len]
  {
    assert [] + info + [1] == info + [1];
    assert Block(mac, secret, info, 1) == mac(secret, info + [1]);
    assert Blocks(mac, secret, info, 0) == [];
    assert Blocks(mac, secret, info, 1) == [] + Block(mac, secret, info, 1);
  }

  lemma LabelIsInfo(len: byte, name: seq<byte>, context: seq<byte>)
    requires |name| <= 12 && |context| <= 32
    ensures Label(len as nat, name, context) + [1] == Info(len, name, context)
  {
    assert Be16(len as nat) == [0, len];
  }

  lemma Expanded(mac: Hmac, secret: Hash, name: seq<byte>, context: seq<byte>, len: byte)
    requires |name| <= 12 && |context| <= 32 && 0 < len <= 32
    ensures ExpandLabel(mac, secret, name, context, len as nat) == mac(secret, Info(len, name, context))[..len as nat]
  {
    OneBlock(mac, secret, Label(len as nat, name, context), len as nat);
    LabelIsInfo(len, name, context);
  }

  lemma Derives(mac: Hmac, secret: Hash, name: seq<byte>, context: Hash)
    requires |name| <= 12
    ensures DeriveSecret(mac, secret, name, context) == mac(secret, Info(32, name, context))
  {
    Expanded(mac, secret, name, context, 32);
  }

  // ---------------------------------------------------------------------
  // The schedule
  // ---------------------------------------------------------------------

  /** Every secret from the PSK to the application traffic secrets, for a shared secret and the hash of
      the whole transcript. */
  datatype Chain = Chain(early: Hash, derived: Hash, handshake: Hash, derivedAgain: Hash, master: Hash,
                         client: Hash, server: Hash)

  function ChainOf(c: Primitives, psk: seq<byte>, shared: seq<byte>, transcript: Hash): Chain {
    var early := c.mac(Zeros(32), psk);
    var derived := c.mac(early, Info(32, DERIVED, c.hash([])));
    var handshake := c.mac(derived, shared);
    var again := c.mac(handshake, Info(32, DERIVED, c.hash([])));
    var master := c.mac(again, Zeros(32));
    Chain(early, derived, handshake, again, master,
          c.mac(master, Info(32, C_AP, transcript)), c.mac(master, Info(32, S_AP, transcript)))
  }

  /** Key and IV of a traffic secret. */
  predicate KeysOf(c: Primitives, traffic: Hash, k: Keys) {
    && k.key == c.mac(traffic, Info(32, KEY, []))
    && k.iv == c.mac(traffic, Info(12, IV, []))[..12]
    && k.sequence == 0
  }

  // ---------------------------------------------------------------------
  // The messages
  // ---------------------------------------------------------------------

  /** The two sides' secrets of the key exchange: X25519, then ML-KEM for the hybrid policy. */
  function SharedSecret(c: Primitives, q: Request, r: Draws): seq<byte>
    requires KeyShares(q, r) && Agrees(c, q, r)
  {
    c.agree(r.clientSeed.value, c.publicKey(r.serverSeed.value)).value
      + if q.policy.Hybrid? then c.encaps(c.keygen(r.d.value, r.z.value).0, r.m.value).value.1 else []
  }

  function HelloHead(c: Primitives, q: Request, r: Draws): seq<byte>
    requires KeyShares(q, r) && r.clientRandom.Some?
  {
    (if q.policy.Hybrid? then [1, 0, 5, 0x13] else [1, 0, 0, 0x73])
      + q.id + r.clientRandom.value
      + [if q.suite.Aes256Gcm? then 1 else 2, if q.policy.Hybrid? then 1 else 0]
      + c.publicKey(r.clientSeed.value)
      + if q.policy.Hybrid? then c.keygen(r.d.value, r.z.value).0 else []
  }

  /** The ClientHello: its head, and the binder over it under the PSK. */
  function ClientHello(c: Primitives, q: Request, psk: seq<byte>, r: Draws): seq<byte>
    requires KeyShares(q, r) && r.clientRandom.Some?
  {
    var early := c.mac(Zeros(32), psk);
    var binderKey := c.mac(c.mac(early, Info(32, EXT_BINDER, c.hash([]))), Info(32, FINISHED_NAME, []));
    HelloHead(c, q, r) + [32] + c.mac(binderKey, c.hash(HelloHead(c, q, r)))
  }

  function ServersHello(c: Primitives, q: Request, r: Draws): seq<byte>
    requires KeyShares(q, r) && Agrees(c, q, r) && r.serverRandom.Some?
  {
    (if q.policy.Hybrid? then [2, 0, 4, 0x81] else [2, 0, 0, 0x41])
      + r.serverRandom.value + [if q.suite.Aes256Gcm? then 1 else 2] + c.publicKey(r.serverSeed.value)
      + if q.policy.Hybrid? then c.encaps(c.keygen(r.d.value, r.z.value).0, r.m.value).value.0 else []
  }

  /** A Finished message: the MAC over the transcript so far under one side's handshake traffic secret. */
  function FinishedFor(c: Primitives, handshake: Hash, name: seq<byte>, hellos: seq<byte>, heard: seq<byte>): seq<byte>
    requires |name| <= 12
  {
    var traffic := c.mac(handshake, Info(32, name, c.hash(hellos)));
    [20, 0, 0, 32] + c.mac(c.mac(traffic, Info(32, FINISHED_NAME, [])), c.hash(heard))
  }

  /** Both hellos and both Finished messages. */
  function Transcript(c: Primitives, q: Request, psk: seq<byte>, r: Draws): seq<byte>
    requires Supplied(q, Some(psk), r) && Agrees(c, q, r)
  {
    var handshake := ChainOf(c, psk, SharedSecret(c, q, r), Zeros(32)).handshake;
    var hellos := ClientHello(c, q, psk, r) + ServersHello(c, q, r);
    var heard := hellos + FinishedFor(c, handshake, S_HS, hellos, hellos);
    heard + FinishedFor(c, handshake, C_HS, hellos, heard)
  }

  // ---------------------------------------------------------------------
  // The handshake follows it
  // ---------------------------------------------------------------------

  lemma VerifySpelled(c: Primitives, traffic: Hash, transcript: Hash)
    ensures VerifyData(c, traffic, transcript) == c.mac(c.mac(traffic, Info(32, FINISHED_NAME, [])), transcript)
  {
    FinishedSpelled();
    Expanded(c.mac, traffic, FINISHED_NAME, [], 32);
    var key := c.mac(traffic, Info(32, FINISHED_NAME, []));
    assert key[..32] == key;
  }

  lemma BinderSpelled(c: Primitives, early: Hash, truncated: Hash)
    ensures Binder(c, early, truncated)
         == c.mac(c.mac(c.mac(early, Info(32, EXT_BINDER, c.hash([]))), Info(32, FINISHED_NAME, [])), truncated)
  {
    ExtBinderSpelled();
    Derives(c.mac, early, EXT_BINDER, c.hash([]));
    VerifySpelled(c, DeriveSecret(c.mac, early, Ascii("ext binder"), c.hash([])), truncated);
  }

  lemma HelloSpelled(c: Primitives, q: Request, r: Draws)
    requires KeyShares(q, r) && r.clientRandom.Some?
    ensures TruncatedHello(q, r.clientRandom.value, c.publicKey(r.clientSeed.value), KemKeys(c, q, r).0) == HelloHead(c, q, r)
  {
    assert MessageHeader(CLIENT_HELLO, 1299) == [1, 0, 5, 0x13] && MessageHeader(CLIENT_HELLO, 115) == [1, 0, 0, 0x73];
  }

  lemma ClientHelloSpelled(c: Primitives, q: Request, psk: seq<byte>, r: Draws)
    requires KeyShares(q, r) && r.clientRandom.Some?
    ensures var hello := TruncatedHello(q, r.clientRandom.value, c.publicKey(r.clientSeed.value), KemKeys(c, q, r).0);
      hello + [HASH_LEN as byte] + Binder(c, EarlySecret(c, psk), c.hash(hello)) == ClientHello(c, q, psk, r)
  {
    HelloSpelled(c, q, r);
    BinderSpelled(c, EarlySecret(c, psk), c.hash(HelloHead(c, q, r)));
  }

  lemma ExchangeSpelled(c: Primitives, q: Request, r: Draws)
    requires KeyShares(q, r) && Agrees(c, q, r) && r.serverRandom.Some?
    ensures Exchange(c, q, r).Ok? && Exchange(c, q, r).value.0 == SharedSecret(c, q, r)
    ensures ServerHello(q, r.serverRandom.value, c.publicKey(r.serverSeed.value), Exchange(c, q, r).value.1)
         == ServersHello(c, q, r)
  {
    ExchangeOutcome(c, q, r);
    assert MessageHeader(SERVER_HELLO, 1153) == [2, 0, 4, 0x81] && MessageHeader(SERVER_HELLO, 65) == [2, 0, 0, 0x41];
    if q.policy.Classical? {
      assert SharedSecret(c, q, r) == Exchange(c, q, r).value.0 + [];
    }
  }

  lemma NegotiateSpelled(c: Primitives, q: Request, psk: seq<byte>, shared: seq<byte>, hellos: seq<byte>)
    requires |shared| == SharedLength(q.policy)
    ensures var n := Negotiate(c, q.policy, EarlySecret(c, psk), shared, c.hash(hellos));
      var handshake := ChainOf(c, psk, shared, Zeros(32)).handshake;
      n == Ok(HandshakeSecrets(handshake, c.mac(handshake, Info(32, C_HS, c.hash(hellos))),
                               c.mac(handshake, Info(32, S_HS, c.hash(hellos)))))
  {
    var early := c.mac(Zeros(32), psk);
    DerivedSpelled();
    ClientHandshakeSpelled();
    ServerHandshakeSpelled();
    Derives(c.mac, early, DERIVED, c.hash([]));
    var handshake := c.mac(c.mac(early, Info(32, DERIVED, c.hash([]))), shared);
    Derives(c.mac, handshake, C_HS, c.hash(hellos));
    Derives(c.mac, handshake, S_HS, c.hash(hellos));
  }

  lemma ApplicationSpelled(c: Primitives, psk: seq<byte>, shared: seq<byte>, transcript: Hash)
    ensures var chain := ChainOf(c, psk, shared, transcript);
      Application(c, chain.handshake, transcript) == AppSecrets(chain.client, chain.server)
  {
    var chain := ChainOf(c, psk, shared, transcript);
    DerivedSpelled();
    ClientTrafficSpelled();
    ServerTrafficSpelled();
    Derives(c.mac, chain.handshake, DERIVED, c.hash([]));
    Derives(c.mac, chain.master, C_AP, transcript);
    Derives(c.mac, chain.master, S_AP, transcript);
  }

  lemma FinishSpelled(c: Primitives, psk: seq<byte>, shared: seq<byte>, handshake: Hash, s: HandshakeSecrets, hellos: seq<byte>)
    requires |hellos| + 72 <= TRANSCRIPT_BUFFER && handshake == ChainOf(c, psk, shared, Zeros(32)).handshake
    requires s == HandshakeSecrets(handshake, c.mac(handshake, Info(32, C_HS, c.hash(hellos))),
                                   c.mac(handshake, Info(32, S_HS, c.hash(hellos))))
    ensures var heard := hellos + FinishedFor(c, handshake, S_HS, hellos, hellos);
      var all := heard + FinishedFor(c, handshake, C_HS, hellos, heard);
      var chain := ChainOf(c, psk, shared, c.hash(all));
      var secrets := AppSecrets(chain.client, chain.server);
      Finish(c, s, s, hellos, hellos) == Ok((secrets, secrets))
  {
    assert MessageHeader(FINISHED, HASH_LEN) == [20, 0, 0, 32];
    VerifySpelled(c, s.server, c.hash(hellos));
    var sent := VerifyData(c, s.server, c.hash(hellos));
    var heard := hellos + Finished(sent);
    assert Finished(sent) == FinishedFor(c, handshake, S_HS, hellos, hellos);
    VerifySpelled(c, s.client, c.hash(heard));
    var answer := VerifyData(c, s.client, c.hash(heard));
    assert Finished(answer) == FinishedFor(c, handshake, C_HS, hellos, heard);
    var all := heard + Finished(answer);
    ApplicationSpelled(c, psk, shared, c.hash(all));
    assert ChainOf(c, psk, shared, c.hash(all)).handshake == handshake;
  }

  /** A successful handshake ends with the secrets of the written-out schedule over the PSK, the shared
      secret and the four messages, on both sides. */
  lemma ShakeSpelled(c: Primitives, q: Request, psk: seq<byte>, r: Draws)
    requires Supplied(q, Some(psk), r) && Agrees(c, q, r)
    ensures var chain := ChainOf(c, psk, SharedSecret(c, q, r), c.hash(Transcript(c, q, psk, r)));
      var secrets := AppSecrets(chain.client, chain.server);
      Shake(c, q, Some(psk), r) == Ok((secrets, secrets))
  {
    var early := EarlySecret(c, psk);
    var t := ClientHello(c, q, psk, r);
    ClientHelloSpelled(c, q, psk, r);
    assert |t| <= 1303;
    assert [] + t == t;
    RespondSpelled(c, q, psk, r, t);
  }

  lemma RespondSpelled(c: Primitives, q: Request, psk: seq<byte>, r: Draws, t: seq<byte>)
    requires Supplied(q, Some(psk), r) && Agrees(c, q, r) && t == ClientHello(c, q, psk, r) && |t| <= 1303
    ensures var chain := ChainOf(c, psk, SharedSecret(c, q, r), c.hash(Transcript(c, q, psk, r)));
      var secrets := AppSecrets(chain.client, chain.server);
      Respond(c, q, r, EarlySecret(c, psk), EarlySecret(c, psk), t, t) == Ok((secrets, secrets))
  {
    var shared := SharedSecret(c, q, r);
    ExchangeSpelled(c, q, r);
    var hellos := t + ServersHello(c, q, r);
    assert |ServersHello(c, q, r)| <= 1157;
    NegotiateSpelled(c, q, psk, shared, hellos);
    var handshake := ChainOf(c, psk, shared, Zeros(32)).handshake;
    FinishSpelled(c, psk, shared, handshake,
                  Negotiate(c, q.policy, EarlySecret(c, psk), shared, c.hash(hellos)).value, hellos);
  }

  lemma TrafficKeysSpelled(c: Primitives, traffic: Hash)
    ensures KeysOf(c, traffic, TrafficKeys(c, traffic))
  {
    KeySpelled();
    IvSpelled();
    Expanded(c.mac, traffic, KEY, [], 32);
    Expanded(c.mac, traffic, IV, [], 12);
    var key := c.mac(traffic, Info(32, KEY, []));
    assert key[..32] == key;
  }

  /** The keys in the pool after a successful run: the client writes and the server reads with the client's
      traffic secret, and the other way round with the server's. */
  lemma InstalledKeys(c: Primitives, p: Pool, q: Request, psk: Option<seq<byte>>, r: Draws)
    requires RunLoopback(c, p, q, psk, r).1.Ok?
    ensures Supplied(q, psk, r) && Agrees(c, q, r)
    ensures var (p', ends) := RunLoopback(c, p, q, psk, r);
      var chain := ChainOf(c, psk.value, SharedSecret(c, q, r), c.hash(Transcript(c, q, psk.value, r)));
      var (client, server) := ends.value;
      && Live(p', client) && Live(p', server)
      && KeysOf(c, chain.client, p'[client].value.write) && KeysOf(c, chain.server, p'[client].value.read)
      && KeysOf(c, chain.server, p'[server].value.write) && KeysOf(c, chain.client, p'[server].value.read)
  {
    RunConnects(c, p, q, psk, r);
    ShakeSpelled(c, q, psk.value, r);
    var outcome := Shake(c, q, psk, r);
    SettleCases(c, p, q.suite, outcome);
    TrafficKeysSpelled(c, outcome.value.0.client);
    TrafficKeysSpelled(c, outcome.value.0.server);
  }

  // ---------------------------------------------------------------------
  // What the keys bind
  // ---------------------------------------------------------------------

  /** The calls of the MAC between the PSK and the client's write key, in order. */
  function Calls(c: Primitives, q: Request, psk: seq<byte>, r: Draws): (calls: seq<(seq<byte>, seq<byte>)>)
    requires Supplied(q, Some(psk), r) && Agrees(c, q, r)
    ensures |calls| == 7
  {
    var transcript := c.hash(Transcript(c, q, psk, r));
    var chain := ChainOf(c, psk, SharedSecret(c, q, r), transcript);
    [(Zeros(32), psk), (chain.early, Info(32, DERIVED, c.hash([]))), (chain.derived, SharedSecret(c, q, r)),
     (chain.handshake, Info(32, DERIVED, c.hash([]))), (chain.derivedAgain, Zeros(32)),
     (chain.master, Info(32, C_AP, transcript)), (chain.client, Info(32, KEY, []))]
  }

  /** Corresponding calls of two handshakes do not collide, and neither do the hashes of their transcripts. */
  ghost predicate Apart(c: Primitives, a: seq<(seq<byte>, seq<byte>)>, b: seq<(seq<byte>, seq<byte>)>,
                        t: seq<byte>, u: seq<byte>)
    requires |a| == |b|
  {
    && (forall i | 0 <= i < |a| :: c.mac(a[i].0, a[i].1) == c.mac(b[i].0, b[i].1) ==> a[i] == b[i])
    && (c.hash(t) == c.hash(u) ==> t == u)
  }

  lemma InfoContext(name: seq<byte>, a: Hash, b: Hash)
    requires |name| <= 12 && Info(32, name, a) == Info(32, name, b)
    ensures a == b
  {
    var n := 10 + |name|;
    assert Info(32, name, a)[n..n + 32] == a && Info(32, name, b)[n..n + 32] == b;
  }

  /** Two handshakes that arrive at the same client key had the same PSK, the same shared secret and the
      same messages, unless some call of the MAC or the hash collided. */
  lemma KeysBind(c: Primitives, q: Request, psk: seq<byte>, r: Draws, q': Request, psk': seq<byte>, r': Draws)
    requires Supplied(q, Some(psk), r) && Agrees(c, q, r) && Supplied(q', Some(psk'), r') && Agrees(c, q', r')
    requires Apart(c, Calls(c, q, psk, r), Calls(c, q', psk', r'), Transcript(c, q, psk, r), Transcript(c, q', psk', r'))
    requires Shake(c, q, Some(psk), r).Ok? && Shake(c, q', Some(psk'), r').Ok?
    requires TrafficKeys(c, Shake(c, q, Some(psk), r).value.0.client).key
          == TrafficKeys(c, Shake(c, q', Some(psk'), r').value.0.client).key
    ensures psk == psk' && SharedSecret(c, q, r) == SharedSecret(c, q', r')
    ensures Transcript(c, q, psk, r) == Transcript(c, q', psk', r')
  {
    ShakeSpelled(c, q, psk, r);
    ShakeSpelled(c, q', psk', r');
    TrafficKeysSpelled(c, Shake(c, q, Some(psk), r).value.0.client);
    TrafficKeysSpelled(c, Shake(c, q', Some(psk'), r').value.0.client);
    var a, b := Calls(c, q, psk, r), Calls(c, q', psk', r');
    assert c.mac(a[6].0, a[6].1) == c.mac(b[6].0, b[6].1);
    assert a[6] == b[6];
    assert c.mac(a[5].0, a[5].1) == c.mac(b[5].0, b[5].1);
    assert a[5] == b[5];
    InfoContext(C_AP, c.hash(Transcript(c, q, psk, r)), c.hash(Transcript(c, q', psk', r')));
    assert c.mac(a[4].0, a[4].1) == c.mac(b[4].0, b[4].1);
    assert a[4] == b[4];
    assert c.mac(a[3].0, a[3].1) == c.mac(b[3].0, b[3].1);
    assert a[3] == b[3];
    assert c.mac(a[2].0, a[2].1) == c.mac(b[2].0, b[2].1);
    assert a[2] == b[2];
    assert c.mac(a[1].0, a[1].1) == c.mac(b[1].0, b[1].1);
    assert a[1] == b[1];
    assert c.mac(a[0].0, a[0].1) == c.mac(b[0].0, b[0].1);
    assert a[0] == b[0];
  }

  /** And equal messages carry equal requests, random values and key shares. */
  lemma TranscriptBinds(c: Primitives, q: Request, psk: seq<byte>, r: Draws, q': Request, psk': seq<byte>, r': Draws)
    requires Supplied(q, Some(psk), r) && Agrees(c, q, r) && Supplied(q', Some(psk'), r') && Agrees(c, q', r')
    requires Transcript(c, q, psk, r) == Transcript(c, q', psk', r')
    ensures q == q' && r.clientRandom == r'.clientRandom && r.serverRandom == r'.serverRandom
    ensures c.publicKey(r.clientSeed.value) == c.publicKey(r'.clientSeed.value)
    ensures c.publicKey(r.serverSeed.value) == c.publicKey(r'.serverSeed.value)
  {
    var t := Transcript(c, q, psk, r);
    HelloFields(c, q, psk, r, t);
    HelloFields(c, q', psk', r', t);
  }

  lemma HelloFields(c: Primitives, q: Request, psk: seq<byte>, r: Draws, t: seq<byte>)
    requires Supplied(q, Some(psk), r) && Agrees(c, q, r) && t == Transcript(c, q, psk, r)
    ensures |t| >= (if q.policy.Hybrid? then 1303 + 101 else 119 + 69)
    ensures t[4..20] == q.id && t[20..52] == r.clientRandom.value
    ensures t[52] == (if q.suite.Aes256Gcm? then 1 else 2) && t[53] == (if q.policy.Hybrid? then 1 else 0)
    ensures t[54..86] == c.publicKey(r.clientSeed.value)
    ensures var o := if q.policy.Hybrid? then 1303 else 119;
      t[o + 4..o + 36] == r.serverRandom.value && t[o + 37..o + 69] == c.publicKey(r.serverSeed.value)
  {
    var hello, answer := ClientHello(c, q, psk, r), ServersHello(c, q, r);
    var o := if q.policy.Hybrid? then 1303 else 119;
    assert |hello| == o;
    var rest := t[|hello| + |answer|..];
    assert t == hello + answer + rest;
    HeadFields(c, q, psk, r, hello);
    AnswerFields(c, q, r, answer);
    Within(hello, answer + rest, 4, 20);
    Within(hello, answer + rest, 20, 52);
    Within(hello, answer + rest, 54, 86);
    assert t == hello + (answer + rest);
    assert t[52] == hello[52] && t[53] == hello[53];
    After(hello, answer, rest, 4, 36);
    After(hello, answer, rest, 37, 69);
  }

  lemma Within(a: seq<byte>, b: seq<byte>, lo: nat, hi: nat)
    requires lo <= hi <= |a|
    ensures (a + b)[lo..hi] == a[lo..hi]
  {
  }

  lemma After(a: seq<byte>, b: seq<byte>, rest: seq<byte>, lo: nat, hi: nat)
    requires lo <= hi <= |b|
    ensures (a + b + rest)[|a| + lo..|a| + hi] == b[lo..hi]
  {
  }

  lemma HeadFields(c: Primitives, q: Request, psk: seq<byte>, r: Draws, hello: seq<byte>)
    requires KeyShares(q, r) && r.clientRandom.Some? && hello == ClientHello(c, q, psk, r)
    ensures |hello| >= 86 && hello[4..20] == q.id && hello[20..52] == r.clientRandom.value
    ensures hello[52] == (if q.suite.Aes256Gcm? then 1 else 2) && hello[53] == (if q.policy.Hybrid? then 1 else 0)
    ensures hello[54..86] == c.publicKey(r.clientSeed.value)
  {
  }

  lemma AnswerFields(c: Primitives, q: Request, r: Draws, answer: seq<byte>)
    requires KeyShares(q, r) && Agrees(c, q, r) && r.serverRandom.Some? && answer == ServersHello(c, q, r)
    ensures |answer| >= 69 && answer[4..36] == r.serverRandom.value && answer[37..69] == c.publicKey(r.serverSeed.value)
  {
  }
}
