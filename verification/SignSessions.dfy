/** Whole sessions with the signing service, as sequences of messages: what each operation returns, and
    that what one session signs with a key from another, a third accepts. */
module SignSessions {
  import opened Words
  import opened Sign

  /** What a client asks for: an operation, its inputs, and how it cuts them into pieces. */
  datatype Job = Job(op: nat, key: seq<byte>, aux: seq<byte>, msg: seq<byte>,
                     ks: seq<seq<byte>>, xs: seq<seq<byte>>, ms: seq<seq<byte>>, rnd: Seed)

  predicate Cut(j: Job) {
    && Pieces(j.ks) && Pieces(j.xs) && Pieces(j.ms)
    && Joined(j.ks) == j.key && Joined(j.xs) == j.aux && Joined(j.ms) == j.msg
    && |j.key| <= SK_LEN && |j.aux| <= SIG_LEN && |j.msg| <= MSG_LEN
  }

  function Declaration(j: Job): (d: seq<byte>)
    requires Cut(j)
    ensures |d| == CHUNK
  {
    Pad(Le32(|j.key|) + Le32(|j.aux|) + Le32(|j.msg|))
  }

  function ChunkMsgs(cs: seq<seq<byte>>, at: nat): (ms: seq<Msg>)
    requires Pieces(cs)
    ensures forall m | m in ms :: Framed(m)
    decreases |cs|
  {
    if cs == [] then [] else [InChunkReq(at, |cs[0]|, Pad(cs[0]))] + ChunkMsgs(cs[1..], at + |cs[0]|)
  }

  /** Whatever was going on is ended, the job declared and its pieces sent in order. */
  function Inputs(j: Job): (ms: seq<Msg>)
    requires Cut(j)
    ensures forall m | m in ms :: Framed(m)
  {
    [EndReq, BeginReq(j.op, 1, 12, Declaration(j))] + ChunkMsgs(j.ks, 0) + ChunkMsgs(j.xs, 0) + ChunkMsgs(j.ms, 0)
  }

  lemma {:induction false} RunJoin(c: Scheme, st: State, a: seq<Msg>, b: seq<Msg>)
    requires (forall m | m in a :: Framed(m)) && (forall m | m in b :: Framed(m))
    ensures Run(c, st, a + b) == Run(c, Run(c, st, a), b)
    decreases |a|
  {
    if a == [] {
      assert a + b == b;
    } else {
      assert (a + b)[0] == a[0] && (a + b)[1..] == a[1..] + b;
      RunJoin(c, Step(c, st, a[0]), a[1..], b);
    }
  }

  lemma {:induction false} RunChunks(c: Scheme, st: State, cs: seq<seq<byte>>, at: nat)
    requires Pieces(cs)
    ensures Run(c, st, ChunkMsgs(cs, at)) == Sent(st, cs, at)
    decreases |cs|
  {
    if cs != [] {
      var ms := ChunkMsgs(cs, at);
      assert ms[1..] == ChunkMsgs(cs[1..], at + |cs[0]|);
      RunChunks(c, Step(c, st, ms[0]), cs[1..], at + |cs[0]|);
    }
  }

  lemma Declared(j: Job)
    requires Cut(j)
    ensures var d := Declaration(j);
      U32At(d, 0) == |j.key| && U32At(d, 4) == |j.aux| && U32At(d, 8) == |j.msg|
  {
    var d := Declaration(j);
    assert d[0..4] == Le32(|j.key|) && d[4..8] == Le32(|j.aux|) && d[8..12] == Le32(|j.msg|);
    Le32At(d, 0, |j.key|);
    Le32At(d, 4, |j.aux|);
    Le32At(d, 8, |j.msg|);
  }

  lemma StartRun(c: Scheme, st: State, a: Msg, b: Msg)
    requires Framed(a) && Framed(b)
    ensures Run(c, st, [a, b]) == Step(c, Step(c, st, a), b)
  {
    assert [a, b][1..] == [b] && [b][1..] == [];
    assert Run(c, Step(c, st, a), [b]) == Step(c, Step(c, st, a), b);
  }

  lemma FourParts(c: Scheme, st: State, a: seq<Msg>, k: seq<Msg>, x: seq<Msg>, m: seq<Msg>)
    requires forall n | n in a :: Framed(n)
    requires forall n | n in k :: Framed(n)
    requires forall n | n in x :: Framed(n)
    requires forall n | n in m :: Framed(n)
    ensures Run(c, st, a + k + x + m) == Run(c, Run(c, Run(c, Run(c, st, a), k), x), m)
  {
    RunJoin(c, st, a + k + x, m);
    RunJoin(c, st, a + k, x);
    RunJoin(c, st, a, k);
  }

  lemma InputsRun(c: Scheme, st: State, j: Job)
    requires Cut(j)
    ensures var begun := Begin(BLANK, j.op, 1, 12, Declaration(j)).0;
      Run(c, st, Inputs(j)) == Sent(Sent(Sent(begun, j.ks, 0), j.xs, 0), j.ms, 0)
  {
    var start: seq<Msg> := [EndReq, BeginReq(j.op, 1, 12, Declaration(j))];
    var begun := Begin(BLANK, j.op, 1, 12, Declaration(j)).0;
    StartRun(c, st, start[0], start[1]);
    FourParts(c, st, start, ChunkMsgs(j.ks, 0), ChunkMsgs(j.xs, 0), ChunkMsgs(j.ms, 0));
    RunChunks(c, begun, j.ks, 0);
    RunChunks(c, Sent(begun, j.ks, 0), j.xs, 0);
    RunChunks(c, Sent(Sent(begun, j.ks, 0), j.xs, 0), j.ms, 0);
  }

  /** The session's answer to the execution request, and the bytes its output chunks then join to. */
  ghost function Answer(c: Scheme, st: State, j: Job): (Res<nat>, seq<byte>)
    requires Cut(j)
  {
    var (done, r) := Exec(c, Run(c, st, Inputs(j)), Some(j.rnd));
    (r, Fetched(done, 0))
  }

  lemma SessionOutput(c: Scheme, st: State, j: Job)
    requires Cut(j) && OpOf(j.op).Some? && Fits(OpOf(j.op).value, |j.key|, |j.aux|, |j.msg|)
    ensures match Output(c, OpOf(j.op).value, j.key, j.aux, j.msg, j.rnd)
      case Err(e) => Answer(c, st, j).0 == Err(e)
      case Ok(out) => Answer(c, st, j) == (Ok(|out|), out)
  {
    Declared(j);
    InputsRun(c, st, j);
    RoundTrip(c, BLANK, j.op, 1, 12, Declaration(j), j.key, j.aux, j.msg, j.ks, j.xs, j.ms, j.rnd);
  }

  // ---------------------------------------------------------------------
  // What each operation returns
  // ---------------------------------------------------------------------

  /** Operation 1 with a 32-byte seed returns the key pair of that seed, public key first; with any other
      accepted seed length, the key pair of the drawn randomness. */
  lemma KeygenSession(c: Scheme, st: State, j: Job)
    requires Cut(j) && j.op == 1 && |j.key| <= 32 && j.aux == [] && j.msg == []
    ensures var pair, (r, out) := c.keygen(if |j.key| == 32 then j.key else j.rnd), Answer(c, st, j);
      && (r.Ok? <==> pair.Some?)
      && (r.Ok? ==> r.value == |out| == 3872 && out[..1312] == pair.value.0 && out[1312..] == pair.value.1)
      && (r.Err? ==> r.error == ExecFailed)
  {
    SessionOutput(c, st, j);
  }

  /** Operation 2 signs the message with a key of exactly 2560 bytes and refuses any other length. */
  lemma SignSession(c: Scheme, st: State, j: Job)
    requires Cut(j) && j.op == 2 && j.aux == []
    ensures var (r, out) := Answer(c, st, j);
      if |j.key| != 2560 then r == Err(InvalidRequest)
      else var sig := c.sign(j.key, j.msg, j.rnd);
        if sig.Some? then r == Ok(2420) && out == sig.value else r == Err(ExecFailed)
  {
    SessionOutput(c, st, j);
  }

  /** Operation 3 succeeds, with the one byte 1, exactly when the scheme accepts; a rejected signature and
      a failing check are told apart. */
  lemma VerifySession(c: Scheme, st: State, j: Job)
    requires Cut(j) && j.op == 3 && |j.key| <= 1312
    ensures var (r, out) := Answer(c, st, j);
      if |j.key| != 1312 || |j.aux| != 2420 then r == Err(InvalidRequest)
      else match c.verify(j.key, j.msg, j.aux)
        case None => r == Err(ExecFailed)
        case Some(ok) => if ok then r == Ok(1) && out == [1] else r == Err(VerifyFailed)
  {
    SessionOutput(c, st, j);
  }

  /** The verdict a finished session keeps: true exactly for a verification. */
  lemma VerdictKept(c: Scheme, st: State, j: Job)
    requires Cut(j) && Answer(c, st, j).0.Ok?
    ensures var done := Exec(c, Run(c, st, Inputs(j)), Some(j.rnd)).0;
      done.s.phase.OutputReady? && (done.s.verifyOk <==> j.op == 3)
  {
    Declared(j);
    InputsRun(c, st, j);
    var begun := Begin(BLANK, j.op, 1, 12, Declaration(j)).0;
    if begun == BLANK {
      NothingSent(BLANK, j.ks, 0);
      NothingSent(BLANK, j.xs, 0);
      NothingSent(BLANK, j.ms, 0);
    } else {
      Gathered(begun, j.key, j.aux, j.msg, j.ks, j.xs, j.ms);
      VerdictUntouched(begun, j.ks, 0);
      VerdictUntouched(Sent(begun, j.ks, 0), j.xs, 0);
      VerdictUntouched(Sent(Sent(begun, j.ks, 0), j.xs, 0), j.ms, 0);
    }
  }

  lemma {:induction false} VerdictUntouched(st: State, cs: seq<seq<byte>>, at: nat)
    requires Pieces(cs)
    ensures Sent(st, cs, at).s.verifyOk == st.s.verifyOk
    decreases |cs|
  {
    if cs != [] {
      VerdictUntouched(InChunk(st, at, |cs[0]|, Pad(cs[0])).0, cs[1..], at + |cs[0]|);
    }
  }

  /** Inputs the three operations take. */
  predicate Admissible(j: Job) {
    || (j.op == 1 && |j.key| <= 32 && |j.aux| == 0 && |j.msg| == 0)
    || (j.op == 2 && |j.key| <= 2560 && |j.aux| == 0 && |j.msg| <= 1020)
    || (j.op == 3 && |j.key| <= 1312 && |j.aux| <= 2420 && |j.msg| <= 1020)
  }

  lemma {:induction false} NothingSent(st: State, cs: seq<seq<byte>>, at: nat)
    requires Pieces(cs) && st.s.phase.Idle?
    ensures Sent(st, cs, at) == st
    decreases |cs|
  {
    if cs != [] {
      NothingSent(st, cs[1..], at + |cs[0]|);
    }
  }

  /** Any other job is refused as a whole: nothing is collected and nothing executed. */
  lemma RefusedSession(c: Scheme, st: State, j: Job)
    requires Cut(j)
    ensures Answer(c, st, j) == (Err(InvalidPhase), []) <==> !Admissible(j)
    ensures !Admissible(j) ==> Run(c, st, Inputs(j)) == BLANK
  {
    Declared(j);
    InputsRun(c, st, j);
    if Admissible(j) {
      SessionOutput(c, st, j);
    } else {
      NothingSent(BLANK, j.ks, 0);
      NothingSent(BLANK, j.xs, 0);
      NothingSent(BLANK, j.ms, 0);
    }
  }

  // ---------------------------------------------------------------------
  // Three sessions
  // ---------------------------------------------------------------------

  /** The scheme accepts its own signatures under every key pair it generates. */
  ghost predicate Sound(c: Scheme) {
    forall seed, m, rnd | c.keygen(seed).Some? && c.sign(c.keygen(seed).value.1, m, rnd).Some? ::
      c.verify(c.keygen(seed).value.0, m, c.sign(c.keygen(seed).value.1, m, rnd).value) == Some(true)
  }

  /** A key pair fetched in one session, its bytes past the first 1312 used to sign in a second, its first
      1312 bytes and the fetched signature used to verify in a third: the third accepts. The sessions may
      start in any states, cut their inputs anyhow and be far apart. */
  lemma SignedVerifies(c: Scheme, generate: Job, sign: Job, verify: Job, a: State, b: State, d: State,
                       pk: seq<byte>, sk: seq<byte>, sig: seq<byte>)
    requires Sound(c) && Cut(generate) && Cut(sign) && Cut(verify)
    requires generate.op == 1 && |generate.key| <= 32 && generate.aux == [] && generate.msg == []
    requires Answer(c, a, generate) == (Ok(3872), pk + sk) && |pk| == 1312
    requires sign.op == 2 && sign.aux == [] && sign.key == sk && Answer(c, b, sign) == (Ok(2420), sig)
    requires verify.op == 3 && verify.key == pk && verify.aux == sig && verify.msg == sign.msg
    ensures Answer(c, d, verify) == (Ok(1), [1])
  {
    KeygenSession(c, a, generate);
    assert (pk + sk)[..1312] == pk && (pk + sk)[1312..] == sk;
    SignSession(c, b, sign);
    VerifySession(c, d, verify);
    var seed: Seed := if |generate.key| == 32 then generate.key else generate.rnd;
    assert c.keygen(seed).Some? && c.sign(c.keygen(seed).value.1, sign.msg, sign.rnd).Some?;
  }
}
