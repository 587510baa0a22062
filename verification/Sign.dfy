/**
 * The ML-DSA-44 chunk protocol: inputs gathered in three buffers, one
 * execution, the output fetched in chunks, everything wiped at the end.
 */
module Sign {
  import opened Words

  const PK_LEN: nat := 1312
  const SK_LEN: nat := 2560
  const SIG_LEN: nat := 2420
  const MSG_LEN: nat := 1020
  const OUT_LEN: nat := PK_LEN + SK_LEN
  const CHUNK: nat := 240
  const SEED_LEN: nat := 32

  datatype Phase = Idle | CollectKey | CollectAux | CollectMsg | Ready | OutputReady
  datatype Op = Keygen | SignMsg | Verify
  datatype Error =
    InvalidPhase | InvalidOp | InvalidVariant | SizeTooLarge | ChunkOverflow | ExecFailed | VerifyFailed | InvalidRequest
  datatype Res<+T> = Ok(value: T) | Err(error: Error)

  type Pk = s: seq<byte> | |s| == PK_LEN witness Zeros(PK_LEN)
  type Sk = s: seq<byte> | |s| == SK_LEN witness Zeros(SK_LEN)
  type Sig = s: seq<byte> | |s| == SIG_LEN witness Zeros(SIG_LEN)
  type Seed = s: seq<byte> | |s| == SEED_LEN witness Zeros(SEED_LEN)

  /** The signature scheme; any operation may fail. */
  datatype Scheme = Scheme(
    keygen: Seed -> Option<(Pk, Sk)>,
    sign: (Sk, seq<byte>, Seed) -> Option<Sig>,
    verify: (Pk, seq<byte>, Sig) -> Option<bool>)

  datatype Session = Session(
    phase: Phase, op: Op, keyTotal: nat, auxTotal: nat, msgTotal: nat,
    keyRecv: nat, auxRecv: nat, msgRecv: nat, outTotal: nat, verifyOk: bool)

  const IDLE := Session(Idle, Keygen, 0, 0, 0, 0, 0, 0, 0, false)

  /** Session and buffers: key, auxiliary input (a signature), message, output. */
  datatype Store = Store(s: Session, key: seq<byte>, aux: seq<byte>, msg: seq<byte>, out: seq<byte>)

  predicate Sized(st: Store) {
    && |st.key| == SK_LEN && |st.aux| == SIG_LEN && |st.msg| == MSG_LEN && |st.out| == OUT_LEN
    && st.s.keyTotal <= SK_LEN && st.s.auxTotal <= SIG_LEN && st.s.msgTotal <= MSG_LEN && st.s.outTotal <= OUT_LEN
  }

  const BLANK := Store(IDLE, Zeros(SK_LEN), Zeros(SIG_LEN), Zeros(MSG_LEN), Zeros(OUT_LEN))

  type State = st: Store | Sized(st) witness BLANK

  // ---------------------------------------------------------------------
  // The handlers as functions
  // ---------------------------------------------------------------------

  function OpOf(n: nat): Option<Op> {
    if n == 1 then Some(Keygen) else if n == 2 then Some(SignMsg) else if n == 3 then Some(Verify) else None
  }

  predicate Fits(op: Op, key: nat, aux: nat, msg: nat) {
    match op
    case Keygen => key <= SEED_LEN && aux == 0 && msg == 0
    case SignMsg => key <= SK_LEN && aux == 0 && msg <= MSG_LEN
    case Verify => key <= PK_LEN && aux <= SIG_LEN && msg <= MSG_LEN
  }

  function FirstPhase(key: nat, aux: nat, msg: nat): Phase {
    if key > 0 then CollectKey else if aux > 0 then CollectAux else if msg > 0 then CollectMsg else Ready
  }

  function Begin(st: State, op: nat, variant: nat, len: nat, data: seq<byte>): (State, Res<()>)
    requires |data| == CHUNK
  {
    if !st.s.phase.Idle? then (st, Err(InvalidPhase))
    else if OpOf(op).None? then (st, Err(InvalidOp))
    else if variant != 1 then (st, Err(InvalidVariant))
    else if len < 12 then (st, Err(InvalidRequest))
    else
      var o := OpOf(op).value;
      var key, aux, msg := U32At(data, 0), U32At(data, 4), U32At(data, 8);
      if !Fits(o, key, aux, msg) then (st, Err(SizeTooLarge))
      else (BLANK.(s := IDLE.(phase := FirstPhase(key, aux, msg), op := o,
                              keyTotal := key, auxTotal := aux, msgTotal := msg)), Ok(()))
  }

  datatype Part = KeyPart | AuxPart | MsgPart

  function PartOf(p: Phase): Option<Part> {
    match p
    case CollectKey => Some(KeyPart)
    case CollectAux => Some(AuxPart)
    case CollectMsg => Some(MsgPart)
    case _ => None
  }

  function Total(s: Session, p: Part): nat {
    match p case KeyPart => s.keyTotal case AuxPart => s.auxTotal case MsgPart => s.msgTotal
  }

  function Buffer(st: State, p: Part): seq<byte> {
    match p case KeyPart => st.key case AuxPart => st.aux case MsgPart => st.msg
  }

  /** The phase once part `p` is complete. */
  function After(s: Session, p: Part): Phase {
    if p.KeyPart? && s.auxTotal > 0 then CollectAux
    else if !p.MsgPart? && s.msgTotal > 0 then CollectMsg
    else Ready
  }

  /** Part `p` replaced by buffer `b`, received up to `end`. */
  function Store1(st: State, p: Part, b: seq<byte>, end: nat): State
    requires |b| == |Buffer(st, p)|
  {
    var phase := if end >= Total(st.s, p) then After(st.s, p) else st.s.phase;
    match p
    case KeyPart => st.(key := b, s := st.s.(keyRecv := end, phase := phase))
    case AuxPart => st.(aux := b, s := st.s.(auxRecv := end, phase := phase))
    case MsgPart => st.(msg := b, s := st.s.(msgRecv := end, phase := phase))
  }

  function InChunk(st: State, offset: nat, len: nat, data: seq<byte>): (State, Res<()>)
    requires |data| == CHUNK
  {
    if len > CHUNK then (st, Err(ChunkOverflow))
    else match PartOf(st.s.phase)
      case None => (st, Err(InvalidPhase))
      case Some(p) =>
        var end := offset + len;
        if end > |Buffer(st, p)| || end > Total(st.s, p) then (st, Err(ChunkOverflow))
        else (Store1(st, p, Splice(Buffer(st, p), offset, data[..len]), end), Ok(()))
  }

  /** What an operation outputs for given inputs, whatever the buffers. */
  function Output(c: Scheme, op: Op, key: seq<byte>, aux: seq<byte>, msg: seq<byte>, rnd: Seed): (r: Res<seq<byte>>)
    ensures r.Ok? ==> |r.value| <= OUT_LEN
  {
    match op
    case Keygen =>
      (match c.keygen(if |key| == SEED_LEN then key else rnd)
       case None => Err(ExecFailed)
       case Some(pair) => Ok(pair.0 + pair.1))
    case SignMsg =>
      if |key| != SK_LEN then Err(InvalidRequest)
      else (match c.sign(key, msg, rnd)
            case None => Err(ExecFailed)
            case Some(sig) => Ok(sig))
    case Verify =>
      if |key| != PK_LEN || |aux| != SIG_LEN then Err(InvalidRequest)
      else (match c.verify(key, msg, aux)
            case None => Err(ExecFailed)
            case Some(ok) => if ok then Ok([1]) else Err(VerifyFailed))
  }

  function Exec(c: Scheme, st: State, rnd: Option<Seed>): (State, Res<nat>) {
    if rnd.None? then (st, Err(ExecFailed))
    else if !st.s.phase.Ready? then (st, Err(InvalidPhase))
    else
      match Output(c, st.s.op, st.key[..st.s.keyTotal], st.aux[..st.s.auxTotal], st.msg[..st.s.msgTotal], rnd.value)
      case Err(VerifyFailed) => (st.(s := st.s.(verifyOk := false)), Err(VerifyFailed))
      case Err(e) => (st, Err(e))
      case Ok(out) =>
        (BLANK.(s := st.s.(outTotal := |out|, phase := OutputReady,
                           verifyOk := if st.s.op.Verify? then true else st.s.verifyOk),
                out := Splice(st.out, 0, out)), Ok(|out|))
  }

  function OutChunk(st: State, offset: nat): Res<seq<byte>> {
    if !st.s.phase.OutputReady? then Err(InvalidPhase)
    else if offset >= st.s.outTotal then Ok([])
    else Ok(st.out[offset..if st.s.outTotal - offset < CHUNK then st.s.outTotal else offset + CHUNK])
  }

  // ---------------------------------------------------------------------
  // Every run
  // ---------------------------------------------------------------------

  datatype Msg =
    | BeginReq(op: nat, variant: nat, len: nat, data: seq<byte>)
    | InChunkReq(offset: nat, len: nat, data: seq<byte>)
    | ExecReq(rnd: Option<Seed>)
    | OutChunkReq(offset: nat)
    | EndReq

  predicate Framed(m: Msg) {
    m.BeginReq? || m.InChunkReq? ==> |m.data| == CHUNK
  }

  function Step(c: Scheme, st: State, m: Msg): State
    requires Framed(m)
  {
    match m
    case BeginReq(op, variant, len, data) => Begin(st, op, variant, len, data).0
    case InChunkReq(offset, len, data) => InChunk(st, offset, len, data).0
    case ExecReq(rnd) => Exec(c, st, rnd).0
    case OutChunkReq(_) => st
    case EndReq => BLANK
  }

  function Run(c: Scheme, st: State, ms: seq<Msg>): State
    requires forall m | m in ms :: Framed(m)
    decreases |ms|
  {
    if ms == [] then st else Run(c, Step(c, st, ms[0]), ms[1..])
  }

  ghost predicate ZeroFrom(b: seq<byte>, n: nat) {
    forall i | n <= i < |b| :: b[i] == 0
  }

  ghost predicate Inv(st: State) {
    && ZeroFrom(st.key, st.s.keyTotal) && ZeroFrom(st.aux, st.s.auxTotal)
    && ZeroFrom(st.msg, st.s.msgTotal) && ZeroFrom(st.out, st.s.outTotal)
    && (st.s.phase.Idle? ==> st.s == IDLE)
    && (st.s.phase.OutputReady? ==> ZeroFrom(st.key, 0) && ZeroFrom(st.aux, 0) && ZeroFrom(st.msg, 0))
    && (!st.s.phase.OutputReady? ==> st.s.outTotal == 0 && !st.s.verifyOk)
    && (PartOf(st.s.phase).Some? ==> Total(st.s, PartOf(st.s.phase).value) > 0)
  }

  lemma SpliceZero(b: seq<byte>, o: nat, d: seq<byte>, n: nat)
    requires o + |d| <= |b| && o + |d| <= n && ZeroFrom(b, n)
    ensures ZeroFrom(Splice(b, o, d), n)
  {
  }

  lemma BeginInv(st: State, op: nat, variant: nat, len: nat, data: seq<byte>)
    requires Inv(st) && |data| == CHUNK
    ensures Inv(Begin(st, op, variant, len, data).0)
  {
    assert BLANK.out == Zeros(OUT_LEN);
  }

  lemma InChunkInv(st: State, offset: nat, len: nat, data: seq<byte>)
    requires Inv(st) && |data| == CHUNK
    ensures Inv(InChunk(st, offset, len, data).0)
  {
    var (st', r) := InChunk(st, offset, len, data);
    if r.Ok? {
      var p := PartOf(st.s.phase).value;
      SpliceZero(Buffer(st, p), offset, data[..len], Total(st.s, p));
    }
  }

  lemma ExecInv(c: Scheme, st: State, rnd: Option<Seed>)
    requires Inv(st)
    ensures Inv(Exec(c, st, rnd).0)
    ensures Exec(c, st, rnd).1.Err? ==> Exec(c, st, rnd).0 == st
  {
    var (st', r) := Exec(c, st, rnd);
    if r.Ok? {
      var out := st'.out[..st'.s.outTotal];
      assert st'.out == Splice(st.out, 0, out);
      SpliceZero(st.out, 0, out, |out|);
    }
  }

  lemma StepInv(c: Scheme, st: State, m: Msg)
    requires Inv(st) && Framed(m)
    ensures Inv(Step(c, st, m))
  {
    match m
    case BeginReq(op, variant, len, data) => BeginInv(st, op, variant, len, data);
    case InChunkReq(offset, len, data) => InChunkInv(st, offset, len, data);
    case ExecReq(rnd) => ExecInv(c, st, rnd);
    case OutChunkReq(_) =>
    case EndReq => assert BLANK.out == Zeros(OUT_LEN);
  }

  /** After every run whatsoever: an idle service holds no byte, a finished one no
      input byte, and nothing lies beyond a declared length. */
  lemma {:induction false} RunInv(c: Scheme, st: State, ms: seq<Msg>)
    requires Inv(st) && forall m | m in ms :: Framed(m)
    ensures Inv(Run(c, st, ms))
    ensures Run(c, st, ms).s.phase.Idle? ==> Run(c, st, ms) == BLANK
    decreases |ms|
  {
    if ms == [] {
      if st.s.phase.Idle? {
        assert st.key == Zeros(SK_LEN) && st.aux == Zeros(SIG_LEN) && st.msg == Zeros(MSG_LEN) && st.out == Zeros(OUT_LEN);
      }
    } else {
      StepInv(c, st, ms[0]);
      RunInv(c, Step(c, st, ms[0]), ms[1..]);
    }
  }

  // ---------------------------------------------------------------------
  // In-order senders
  // ---------------------------------------------------------------------

  function Pad(c: seq<byte>): (d: seq<byte>)
    requires |c| <= CHUNK
    ensures |d| == CHUNK
  {
    c + Zeros(CHUNK - |c|)
  }

  predicate Pieces(cs: seq<seq<byte>>) {
    forall i | 0 <= i < |cs| :: 0 < |cs[i]| <= CHUNK
  }

  function Joined(cs: seq<seq<byte>>): seq<byte> {
    if cs == [] then [] else cs[0] + Joined(cs[1..])
  }

  /** Sends the pieces one after the other, starting at an offset. */
  function Sent(st: State, cs: seq<seq<byte>>, at: nat): State
    requires Pieces(cs)
    decreases |cs|
  {
    if cs == [] then st else Sent(InChunk(st, at, |cs[0]|, Pad(cs[0])).0, cs[1..], at + |cs[0]|)
  }

  /** A part closes exactly when an accepted chunk ends at the declared length;
      bytes no chunk has covered, below it or above, keep their values. */
  lemma PartCloses(st: State, offset: nat, len: nat, data: seq<byte>)
    requires Inv(st) && |data| == CHUNK && InChunk(st, offset, len, data).1.Ok?
    ensures var (st', p) := (InChunk(st, offset, len, data).0, PartOf(st.s.phase).value);
      && (PartOf(st'.s.phase) != Some(p) <==> offset + len == Total(st.s, p))
      && (offset + len == Total(st.s, p) ==> st'.s.phase == After(st.s, p))
      && Buffer(st', p)[offset..offset + len] == data[..len]
      && forall i | 0 <= i < |Buffer(st, p)| && !(offset <= i < offset + len) :: Buffer(st', p)[i] == Buffer(st, p)[i]
  {
    var p := PartOf(st.s.phase).value;
    var b := Splice(Buffer(st, p), offset, data[..len]);
    assert b[offset..offset + len] == data[..len];
    assert Buffer(InChunk(st, offset, len, data).0, p) == b;
  }

  /** Part `p` is being collected and holds the first `at` bytes of `want`. */
  ghost predicate Collecting(st: State, p: Part, want: seq<byte>, at: nat) {
    && PartOf(st.s.phase) == Some(p)
    && at < |want| == Total(st.s, p)
    && |want| <= |Buffer(st, p)|
    && Buffer(st, p)[..at] == want[..at]
  }

  /** The other parts and the plan stay as they were. */
  ghost predicate OthersKept(st: State, st': State, p: Part) {
    && (forall q: Part | q != p :: Buffer(st', q) == Buffer(st, q))
    && (forall q: Part :: Total(st'.s, q) == Total(st.s, q))
    && st'.s.op == st.s.op && st'.out == st.out
  }

  lemma OnePiece(st: State, p: Part, want: seq<byte>, at: nat, c: seq<byte>, st': State)
    requires Collecting(st, p, want, at) && 0 < |c| <= CHUNK && at + |c| <= |want| && c == want[at..at + |c|]
    requires st' == InChunk(st, at, |c|, Pad(c)).0
    ensures OthersKept(st, st', p)
    ensures at + |c| < |want| ==> Collecting(st', p, want, at + |c|)
    ensures at + |c| == |want| ==> st'.s.phase == After(st.s, p) && Buffer(st', p)[..|want|] == want
  {
    assert Pad(c)[..|c|] == c;
    var b := Splice(Buffer(st, p), at, c);
    assert b[..at + |c|] == Buffer(st, p)[..at] + c == want[..at + |c|];
    assert Buffer(st', p) == b;
    if at + |c| == |want| {
      assert want[..at + |c|] == want;
    }
  }

  lemma FirstPiece(want: seq<byte>, at: nat, cs: seq<seq<byte>>)
    requires at <= |want| && cs != [] && Joined(cs) == want[at..]
    ensures at + |cs[0]| <= |want| && cs[0] == want[at..at + |cs[0]|] && Joined(cs[1..]) == want[at + |cs[0]|..]
  {
    var rest := want[at..];
    assert rest[..|cs[0]|] == cs[0] && rest[|cs[0]|..] == Joined(cs[1..]);
  }

  lemma SomethingLeft(want: seq<byte>, at: nat, cs: seq<seq<byte>>)
    requires at < |want| && Joined(cs) == want[at..]
    ensures cs != []
  {
  }

  lemma {:induction false} AllPieces(st: State, p: Part, want: seq<byte>, at: nat, cs: seq<seq<byte>>)
    requires Collecting(st, p, want, at) && Pieces(cs) && Joined(cs) == want[at..]
    ensures var st' := Sent(st, cs, at);
      OthersKept(st, st', p) && st'.s.phase == After(st.s, p) && Buffer(st', p)[..|want|] == want
    decreases |cs|
  {
    SomethingLeft(want, at, cs);
    var c := cs[0];
    var next := at + |c|;
    var st1 := InChunk(st, at, |c|, Pad(c)).0;
    FirstPiece(want, at, cs);
    OnePiece(st, p, want, at, c, st1);
    if next < |want| {
      AllPieces(st1, p, want, next, cs[1..]);
    } else {
      assert want[next..] == [];
      NothingLeft(cs[1..]);
    }
  }

  lemma NothingLeft(cs: seq<seq<byte>>)
    requires Pieces(cs) && Joined(cs) == []
    ensures cs == []
  {
  }

  /** A part declared empty needs no piece; any other is collected in full. */
  lemma SendPart(st: State, p: Part, want: seq<byte>, cs: seq<seq<byte>>)
    requires Pieces(cs) && Joined(cs) == want && |want| == Total(st.s, p) && |want| <= |Buffer(st, p)|
    requires want != [] ==> PartOf(st.s.phase) == Some(p)
    ensures var st' := Sent(st, cs, 0);
      && OthersKept(st, st', p) && Buffer(st', p)[..|want|] == want
      && st'.s.phase == if want == [] then st.s.phase else After(st.s, p)
  {
    if want == [] {
      NothingLeft(cs);
    } else {
      assert want[0..] == want;
      AllPieces(st, p, want, 0, cs);
    }
  }

  /** After a begin that declares these lengths, sending key, auxiliary input and
      message as in-order pieces of any sizes leaves exactly them to be executed. */
  lemma Gathered(st: State, key: seq<byte>, aux: seq<byte>, msg: seq<byte>,
                 ks: seq<seq<byte>>, xs: seq<seq<byte>>, ms: seq<seq<byte>>)
    requires |key| == st.s.keyTotal && |aux| == st.s.auxTotal && |msg| == st.s.msgTotal
    requires st.s.phase == FirstPhase(|key|, |aux|, |msg|)
    requires Pieces(ks) && Pieces(xs) && Pieces(ms) && Joined(ks) == key && Joined(xs) == aux && Joined(ms) == msg
    ensures var st' := Sent(Sent(Sent(st, ks, 0), xs, 0), ms, 0);
      && st'.s.phase.Ready? && st'.s.op == st.s.op
      && st'.s.keyTotal == |key| && st'.s.auxTotal == |aux| && st'.s.msgTotal == |msg|
      && st'.key[..|key|] == key && st'.aux[..|aux|] == aux && st'.msg[..|msg|] == msg
  {
    SendPart(st, KeyPart, key, ks);
    var st1 := Sent(st, ks, 0);
    assert Buffer(st1, KeyPart)[..|key|] == key && Total(st1.s, KeyPart) == |key|;
    assert Total(st1.s, AuxPart) == |aux| && Total(st1.s, MsgPart) == |msg|;
    SendPart(st1, AuxPart, aux, xs);
    var st2 := Sent(st1, xs, 0);
    assert Buffer(st2, KeyPart) == Buffer(st1, KeyPart) && Buffer(st2, AuxPart)[..|aux|] == aux;
    assert Total(st2.s, KeyPart) == |key| && Total(st2.s, AuxPart) == |aux| && Total(st2.s, MsgPart) == |msg|;
    SendPart(st2, MsgPart, msg, ms);
    var st3 := Sent(st2, ms, 0);
    assert Buffer(st3, KeyPart) == Buffer(st1, KeyPart) && Buffer(st3, AuxPart) == Buffer(st2, AuxPart);
    assert Total(st3.s, KeyPart) == |key| && Total(st3.s, AuxPart) == |aux| && Total(st3.s, MsgPart) == |msg|;
  }

  /** The chunks fetched from `at` on, each request starting where the last answer ended. */
  ghost function Fetched(st: State, at: nat): seq<byte>
    decreases OUT_LEN - at
  {
    match OutChunk(st, at)
    case Err(_) => []
    case Ok(d) => if d == [] || at >= OUT_LEN then [] else d + Fetched(st, at + |d|)
  }

  lemma {:induction false} FetchedAll(st: State, at: nat)
    requires st.s.phase.OutputReady? && at <= st.s.outTotal
    ensures Fetched(st, at) == st.out[at..st.s.outTotal]
    decreases OUT_LEN - at
  {
    if at < st.s.outTotal {
      var d := OutChunk(st, at).value;
      FetchedAll(st, at + |d|);
      assert st.out[at..st.s.outTotal] == d + st.out[at + |d|..st.s.outTotal];
    }
  }

  /** The whole exchange: an accepted begin, pieces in, one execution and chunks out
      equal the operation on the sender's own inputs. */
  lemma RoundTrip(c: Scheme, idle: State, op: nat, variant: nat, len: nat, data: seq<byte>,
                  key: seq<byte>, aux: seq<byte>, msg: seq<byte>,
                  ks: seq<seq<byte>>, xs: seq<seq<byte>>, ms: seq<seq<byte>>, rnd: Seed)
    requires |data| == CHUNK && Begin(idle, op, variant, len, data).1.Ok?
    requires U32At(data, 0) == |key| && U32At(data, 4) == |aux| && U32At(data, 8) == |msg|
    requires Pieces(ks) && Pieces(xs) && Pieces(ms) && Joined(ks) == key && Joined(xs) == aux && Joined(ms) == msg
    ensures var st := Begin(idle, op, variant, len, data).0;
      var (done, r) := Exec(c, Sent(Sent(Sent(st, ks, 0), xs, 0), ms, 0), Some(rnd));
      match Output(c, OpOf(op).value, key, aux, msg, rnd)
      case Err(e) => r == Err(e)
      case Ok(out) => r == Ok(|out|) && Fetched(done, 0) == out
  {
    var st := Begin(idle, op, variant, len, data).0;
    Gathered(st, key, aux, msg, ks, xs, ms);
    var full := Sent(Sent(Sent(st, ks, 0), xs, 0), ms, 0);
    ExecOn(c, full, key, aux, msg, rnd);
  }

  lemma ExecOn(c: Scheme, full: State, key: seq<byte>, aux: seq<byte>, msg: seq<byte>, rnd: Seed)
    requires full.s.phase.Ready?
    requires key == full.key[..full.s.keyTotal] && aux == full.aux[..full.s.auxTotal] && msg == full.msg[..full.s.msgTotal]
    ensures var (done, r) := Exec(c, full, Some(rnd));
      match Output(c, full.s.op, key, aux, msg, rnd)
      case Err(e) => r == Err(e)
      case Ok(out) => r == Ok(|out|) && Fetched(done, 0) == out
  {
    var (done, r) := Exec(c, full, Some(rnd));
    if r.Ok? {
      var out := Output(c, full.s.op, key, aux, msg, rnd).value;
      FetchedAll(done, 0);
      assert done.out[0..|out|] == out;
    }
  }

  // ---------------------------------------------------------------------
  // The service in place
  // ---------------------------------------------------------------------

  class SignService {
    var s: Session
    const key: array<byte>
    const aux: array<byte>
    const msg: array<byte>
    const out: array<byte>

    ghost function Value(): Store
      reads this, key, aux, msg, out
    {
      Store(s, key[..], aux[..], msg[..], out[..])
    }

    ghost predicate Shaped()
      reads this, key, aux, msg, out
    {
      && key != aux && key != msg && key != out && aux != msg && aux != out && msg != out
      && Sized(Value())
    }

    ghost predicate Valid()
      reads this, key, aux, msg, out
    {
      Shaped() && Inv(Value())
    }

    constructor ()
      ensures Valid() && Value() == BLANK && fresh(key) && fresh(aux) && fresh(msg) && fresh(out)
    {
      s := IDLE;
      key := new byte[SK_LEN](_ => 0);
      aux := new byte[SIG_LEN](_ => 0);
      msg := new byte[MSG_LEN](_ => 0);
      out := new byte[OUT_LEN](_ => 0);
      new;
      assert key[..] == Zeros(SK_LEN) && aux[..] == Zeros(SIG_LEN) && msg[..] == Zeros(MSG_LEN) && out[..] == Zeros(OUT_LEN);
    }

    method HandleBegin(op: nat, variant: nat, len: nat, data: seq<byte>) returns (r: Res<()>)
      requires Valid() && |data| == CHUNK
      modifies this, key, aux, msg, out
      ensures Valid() && (Value(), r) == Begin(old(Value()), op, variant, len, data)
    {
      BeginInv(Value(), op, variant, len, data);
      if !s.phase.Idle? {
        return Err(InvalidPhase);
      }
      if OpOf(op).None? {
        return Err(InvalidOp);
      }
      if variant != 1 {
        return Err(InvalidVariant);
      }
      if len < 12 {
        return Err(InvalidRequest);
      }
      var o := OpOf(op).value;
      var k, x, m := U32At(data, 0), U32At(data, 4), U32At(data, 8);
      if !Fits(o, k, x, m) {
        return Err(SizeTooLarge);
      }
      s := IDLE.(phase := FirstPhase(k, x, m), op := o, keyTotal := k, auxTotal := x, msgTotal := m);
      Wipe(key);
      Wipe(aux);
      Wipe(msg);
      Wipe(out);
      r := Ok(());
    }

    method KeyChunk(offset: nat, len: nat, data: seq<byte>) returns (r: Res<()>)
      requires Shaped() && s.phase.CollectKey? && len <= CHUNK == |data|
      modifies this, key
      ensures Shaped() && (Value(), r) == InChunk(old(Value()), offset, len, data)
    {
      var end := offset + len;
      if end > SK_LEN || end > s.keyTotal {
        return Err(ChunkOverflow);
      }
      CopyInto(key, offset, data[..len]);
      s := s.(keyRecv := end);
      if end >= s.keyTotal {
        s := s.(phase := if s.auxTotal > 0 then CollectAux else if s.msgTotal > 0 then CollectMsg else Ready);
      }
      r := Ok(());
    }

    method AuxChunk(offset: nat, len: nat, data: seq<byte>) returns (r: Res<()>)
      requires Shaped() && s.phase.CollectAux? && len <= CHUNK == |data|
      modifies this, aux
      ensures Shaped() && (Value(), r) == InChunk(old(Value()), offset, len, data)
    {
      var end := offset + len;
      if end > SIG_LEN || end > s.auxTotal {
        return Err(ChunkOverflow);
      }
      CopyInto(aux, offset, data[..len]);
      s := s.(auxRecv := end);
      if end >= s.auxTotal {
        s := s.(phase := if s.msgTotal > 0 then CollectMsg else Ready);
      }
      r := Ok(());
    }

    method MsgChunk(offset: nat, len: nat, data: seq<byte>) returns (r: Res<()>)
      requires Shaped() && s.phase.CollectMsg? && len <= CHUNK == |data|
      modifies this, msg
      ensures Shaped() && (Value(), r) == InChunk(old(Value()), offset, len, data)
    {
      var end := offset + len;
      if end > MSG_LEN || end > s.msgTotal {
        return Err(ChunkOverflow);
      }
      CopyInto(msg, offset, data[..len]);
      s := s.(msgRecv := end);
      if end >= s.msgTotal {
        s := s.(phase := Ready);
      }
      r := Ok(());
    }

    method HandleInChunk(offset: nat, len: nat, data: seq<byte>) returns (r: Res<()>)
      requires Valid() && |data| == CHUNK
      modifies this, key, aux, msg
      ensures Valid() && (Value(), r) == InChunk(old(Value()), offset, len, data)
    {
      InChunkInv(Value(), offset, len, data);
      if len > CHUNK {
        return Err(ChunkOverflow);
      }
      match s.phase
      case CollectKey => r := KeyChunk(offset, len, data);
      case CollectAux => r := AuxChunk(offset, len, data);
      case CollectMsg => r := MsgChunk(offset, len, data);
      case _ => r := Err(InvalidPhase);
    }

    /** Inputs are wiped only when an output was produced. */
    method HandleExec(c: Scheme, rnd: Option<Seed>) returns (r: Res<nat>)
      requires Valid()
      modifies this, key, aux, msg, out
      ensures Valid() && (Value(), r) == Exec(c, old(Value()), rnd)
    {
      ExecInv(c, Value(), rnd);
      if rnd.None? {
        return Err(ExecFailed);
      }
      if !s.phase.Ready? {
        return Err(InvalidPhase);
      }
      var produced := Produce(c, rnd.value);
      if produced.Err? {
        return Err(produced.error);
      }
      CopyInto(out, 0, produced.value);
      Wipe(key);
      Wipe(aux);
      Wipe(msg);
      s := s.(outTotal := |produced.value|, phase := OutputReady, verifyOk := s.op.Verify?);
      r := Ok(|produced.value|);
    }

    method Produce(c: Scheme, rnd: Seed) returns (r: Res<seq<byte>>)
      requires Valid()
      ensures r == Output(c, s.op, key[..s.keyTotal], aux[..s.auxTotal], msg[..s.msgTotal], rnd)
    {
      match s.op
      case Keygen =>
        var pair := c.keygen(if s.keyTotal == SEED_LEN then key[..SEED_LEN] else rnd);
        r := if pair.None? then Err(ExecFailed) else Ok(pair.value.0 + pair.value.1);
      case SignMsg =>
        if s.keyTotal != SK_LEN {
          return Err(InvalidRequest);
        }
        var sig := c.sign(key[..SK_LEN], msg[..s.msgTotal], rnd);
        r := if sig.None? then Err(ExecFailed) else Ok(sig.value);
      case Verify =>
        if s.keyTotal != PK_LEN || s.auxTotal != SIG_LEN {
          return Err(InvalidRequest);
        }
        var ok := c.verify(key[..PK_LEN], msg[..s.msgTotal], aux[..SIG_LEN]);
        r := if ok.None? then Err(ExecFailed) else if ok.value then Ok([1]) else Err(VerifyFailed);
    }

    method HandleOutChunk(offset: nat) returns (r: Res<seq<byte>>)
      requires Valid()
      ensures r == OutChunk(Value(), offset)
    {
      if !s.phase.OutputReady? {
        return Err(InvalidPhase);
      }
      if offset >= s.outTotal {
        return Ok([]);
      }
      var available := s.outTotal - offset;
      var take := if available < CHUNK then available else CHUNK;
      r := Ok(out[offset..offset + take]);
    }

    method HandleEnd()
      requires Valid()
      modifies this, key, aux, msg, out
      ensures Valid() && Value() == BLANK
    {
      Wipe(out);
      Wipe(key);
      Wipe(aux);
      Wipe(msg);
      s := IDLE;
    }

    /** One message. */
    method Handle(c: Scheme, m: Msg)
      requires Valid() && Framed(m)
      modifies this, key, aux, msg, out
      ensures Valid() && Value() == Step(c, old(Value()), m)
    {
      match m
      case BeginReq(op, variant, len, data) => var _ := HandleBegin(op, variant, len, data);
      case InChunkReq(offset, len, data) => var _ := HandleInChunk(offset, len, data);
      case ExecReq(rnd) => var _ := HandleExec(c, rnd);
      case OutChunkReq(offset) => var _ := HandleOutChunk(offset);
      case EndReq => HandleEnd();
    }

    /** Every sequence of messages to the service in place is the run on its value. */
    method Replay(c: Scheme, ms: seq<Msg>)
      requires Valid() && forall m | m in ms :: Framed(m)
      modifies this, key, aux, msg, out
      ensures Valid() && Value() == Run(c, old(Value()), ms)
    {
      var k := 0;
      assert ms[0..] == ms;
      while k < |ms|
        invariant k <= |ms| && Valid() && Run(c, old(Value()), ms) == Run(c, Value(), ms[k..])
      {
        assert ms[k..][1..] == ms[k + 1..];
        Handle(c, ms[k]);
        k := k + 1;
      }
    }
  }
}
