/**
 * The system calls of the registry and whole runs of them: slot and bus
 * invariants, requests and their answers, and what the audit log records.
 */
module HsmRuns {
  import opened Words
  import opened SoftBus
  import opened Registry
  import opened HsmSafety
  import Wire
  import Audit

  const CHAN_MAX: nat := 4096

  /** What a system call returns: a value or an error code. */
  datatype Sys = Returned(n: nat) | BadArg | BadAddress | SysDenied | SysInternal

  /** Arguments copied from user memory are absent when their range is not a user range. */
  ghost function HandleWrite(c: Crypto, w: World, cap: Option<Cap>, len: nat, data: Option<seq<byte>>): (World, Sys) {
    if !(0 < len <= CHAN_MAX) then (w, BadArg)
    else if cap.None? || data.None? then (w, BadAddress)
    else if !Authentic(w.slots, cap.value, USE) then (w, SysDenied)
    else
      var (w', r) := BusWrite(c, w, cap.value.slot, data.value);
      (w', if r.Done? then Returned(0) else SysInternal)
  }

  function HandleRead(w: World, cap: Option<Cap>, len: nat, outIsUser: bool): (World, Sys, seq<byte>) {
    if !(Wire.HEADER_LEN <= len <= Wire.FRAME_MAX) then (w, BadArg, [])
    else if cap.None? || !outIsUser then (w, BadAddress, [])
    else if !Authentic(w.slots, cap.value, USE) then (w, SysDenied, [])
    else
      var (w', r) := BusRead(w, cap.value.slot, len);
      if r.Done? then (w', Returned(|r.value|), r.value) else (w', SysInternal, [])
  }

  /** Both capabilities are checked before either bus is touched. */
  ghost function HandleRelay(c: Crypto, w: World, src: Option<Cap>, dst: Option<Cap>, n: nat): (World, Sys) {
    if !(0 < n <= CHAN_MAX) then (w, BadArg)
    else if src.None? || dst.None? then (w, BadAddress)
    else if !(Authentic(w.slots, src.value, RELAY_SRC) && Authentic(w.slots, dst.value, RELAY_DST)) then (w, SysDenied)
    else
      var (w1, r) := BusRead(w, src.value.slot, n);
      if r.Fail? || |r.value| != n then (w1, SysInternal)
      else
        var (w2, m) := BusWrite(c, w1, dst.value.slot, r.value);
        (w2, if m == Done(n) then Returned(0) else SysInternal)
  }

  const INIT_MAX: nat := 32
  const ALL_RIGHTS: nat := USE + ENUMERATE + REVOKE + RELAY_SRC + RELAY_DST

  /** The arguments of an enrolment from user space. */
  datatype Enrolment = Enrolment(
    kind: nat, initLen: nat, init: Option<seq<byte>>, attestLen: nat, attest: Option<seq<byte>>, outIsUser: bool, draw: Draw)

  /** The arguments pass every check made before the registry is consulted. */
  predicate WellPosed(e: Enrolment) {
    && e.kind <= 1 && e.initLen <= INIT_MAX && e.attestLen == PK_LEN + SIG_LEN
    && (e.initLen > 0 ==> e.init.Some?) && e.outIsUser && e.attest.Some?
  }

  function KindOf(e: Enrolment): Kind {
    if e.kind == 0 then SoftwareKind else Ring3Kind
  }

  function Blob(e: Enrolment): seq<byte> {
    if e.initLen > 0 && e.init.Some? then e.init.value else []
  }

  function Announced(c: Crypto, e: Enrolment): Audit.Prefix {
    KeyPrefix(c, if e.attest.Some? && |e.attest.value| >= PK_LEN then e.attest.value[..PK_LEN] else [])
  }

  /** Only the software and ring-3 kinds, always attested. */
  function HandleAttach(c: Crypto, w: World, e: Enrolment): (World, Sys, Option<Cap>) {
    if e.kind == 6 then (w.(audit := Audit.Recorded(w.audit, 0xFF, 2, 6, [0, 0, 0, 0])), SysDenied, None)
    else if e.kind > 1 || e.initLen > INIT_MAX || e.attestLen != PK_LEN + SIG_LEN then (w, BadArg, None)
    else if !WellPosed(e) then (w, BadAddress, None)
    else
      var (w', r) := Attach(c, w, KindOf(e), Blob(e), e.attest, ALL_RIGHTS, e.draw);
      match r
      case Issued(cap) =>
        (w'.(audit := Audit.Recorded(w'.audit, cap.slot as byte, 0, Octet(KindOf(e)), Announced(c, e))), Returned(0), Some(cap))
      case Refused(AttestFailed) =>
        (w'.(audit := Audit.Recorded(w'.audit, 0xFF, 1, Octet(KindOf(e)), Announced(c, e))), SysDenied, None)
      case Refused(error) =>
        (w', if error.Full? || error.BadInit? then BadArg else SysInternal, None)
  }

  /** Everything an enrolment needs: sound arguments, attestation, an empty slot, a token, a bus that opens. */
  ghost predicate Grantable(c: Crypto, slots: Slots, e: Enrolment) {
    && WellPosed(e) && Attested(c, KindOf(e), e.attest.value)
    && (exists i | 0 <= i < SLOTS :: slots[i].state.Empty?)
    && e.draw.token.Some? && OpenBus(KindOf(e), Blob(e), e.draw).Some?
  }

  /** An enrolment is granted exactly when it can be, and leaves one audit entry exactly when it is
      granted, fails attestation or names the network kind: not when the registry is full, the init
      blob is bad or no token can be drawn. */
  lemma EnrolmentAudited(c: Crypto, w: World, e: Enrolment)
    requires Inv(w)
    ensures var (w', r, cap) := HandleAttach(c, w, e);
      && Inv(w')
      && (r == Returned(0) <==> Grantable(c, w.slots, e))
      && (cap.Some? <==> r == Returned(0))
      && (cap.None? ==> w'.slots == w.slots && w'.log == w.log)
      && (w'.audit != w.audit <==>
          || e.kind == 6
          || (WellPosed(e) && !Attested(c, KindOf(e), e.attest.value))
          || Grantable(c, w.slots, e))
      && (w'.audit != w.audit ==> |w'.audit| == |w.audit| + 1 && w'.audit[..|w.audit|] == w.audit)
      && (r == Returned(0) ==>
          && Authentic(w'.slots, cap.value, USE) && Authentic(w'.slots, cap.value, REVOKE)
          && w'.audit[|w.audit|].slot as nat == cap.value.slot && w'.audit[|w.audit|].result == 0)
  {
    var (w', r, cap) := HandleAttach(c, w, e);
    if WellPosed(e) {
      assert FirstEmpty(w.slots) < SLOTS ==> w.slots[FirstEmpty(w.slots)].state.Empty?;
      AttachInstalls(c, w, KindOf(e), Blob(e), e.attest, ALL_RIGHTS, e.draw);
      RightsHeld();
    }
  }

  lemma RightsHeld()
    ensures HasAll(ALL_RIGHTS, USE) && HasAll(ALL_RIGHTS, REVOKE)
  {
    forall i | 0 <= i < 16 ensures (Bit(USE, i) ==> Bit(ALL_RIGHTS, i)) && (Bit(REVOKE, i) ==> Bit(ALL_RIGHTS, i)) {
      LowRights(i);
    }
  }

  lemma LowRights(i: nat)
    ensures Bit(USE, i) || Bit(REVOKE, i) ==> Bit(ALL_RIGHTS, i)
  {
    if i >= 1 {
      NoBits(i - 1);
    }
    if i >= 3 {
      NoBits(i - 3);
      assert Bit(REVOKE, i) == Bit(2, i - 1) == Bit(1, i - 2) == Bit(0, i - 3);
    }
  }

  lemma {:induction false} NoBits(i: nat)
    ensures !Bit(0, i)
  {
    if i > 0 {
      NoBits(i - 1);
    }
  }

  const STATUS_LEN: nat := 456

  /** The status call: a short buffer is refused silently, a wrong token is refused and recorded. */
  function HandleStatus(w: World, room: nat, token: nat, auditToken: nat, outIsUser: bool): (World, Sys) {
    if room < STATUS_LEN then (w, SysDenied)
    else if token != auditToken then (w.(audit := Audit.Recorded(w.audit, 0xFF, 2, 0, [0, 0, 0, 0])), SysDenied)
    else (w, if outIsUser then Returned(0) else BadAddress)
  }

  datatype Op =
    | OpAttach(kind: Kind, init: seq<byte>, attest: Option<seq<byte>>, rights: nat, draw: Draw)
    | OpEnrol(args: Enrolment)
    | OpDetach(held: Cap, required: nat)
    | OpWrite(cap: Option<Cap>, len: nat, data: Option<seq<byte>>)
    | OpRead(cap: Option<Cap>, len: nat, outIsUser: bool)
    | OpRelay(src: Option<Cap>, dst: Option<Cap>, n: nat)
    | OpStatus(room: nat, token: nat, auditToken: nat, outIsUser: bool)

  ghost function Step(c: Crypto, w: World, op: Op): World {
    match op
    case OpAttach(kind, init, attest, rights, draw) => Attach(c, w, kind, init, attest, rights, draw).0
    case OpEnrol(e) => HandleAttach(c, w, e).0
    case OpDetach(cap, required) => Detach(w, cap, required).0
    case OpWrite(cap, len, data) => HandleWrite(c, w, cap, len, data).0
    case OpRead(cap, len, outIsUser) => HandleRead(w, cap, len, outIsUser).0
    case OpRelay(src, dst, n) => HandleRelay(c, w, src, dst, n).0
    case OpStatus(room, token, auditToken, outIsUser) => HandleStatus(w, room, token, auditToken, outIsUser).0
  }

  /** The attach behind an operation, if it gets that far. */
  function Attaching(op: Op): Option<Op> {
    match op
    case OpAttach(_, _, _, _, _) => Some(op)
    case OpEnrol(e) =>
      if WellPosed(e) then Some(OpAttach(KindOf(e), Blob(e), e.attest, ALL_RIGHTS, e.draw)) else None
    case _ => None
  }

  /** An enrolment does to the slots what its attach does, and nothing without one. */
  lemma EnrolIsAttach(c: Crypto, w: World, e: Enrolment)
    ensures var (w', a) := (Step(c, w, OpEnrol(e)), Attaching(OpEnrol(e)));
      if a.Some? then w'.slots == Step(c, w, a.value).slots && w'.log == Step(c, w, a.value).log
      else w'.slots == w.slots && w'.log == w.log
  {
  }

  ghost function Run(c: Crypto, w: World, ops: seq<Op>): World
    decreases |ops|
  {
    if ops == [] then w else Run(c, Step(c, w, ops[0]), ops[1..])
  }

  // ---------------------------------------------------------------------
  // The invariant over every run
  // ---------------------------------------------------------------------

  /** A new bus is of the requested kind and has nothing to read. */
  ghost predicate StartsEmpty(kind: Kind, b: Bus) {
    || (kind.SoftwareKind? && b.Software? && b.soft.open && b.soft.ring == Zeros(RING) && Unread(b.soft) == [])
    || (kind.Ring3Kind? && b.Ring3? && Idle(b.wire))
  }

  lemma AttachInstalls(c: Crypto, w: World, kind: Kind, init: seq<byte>, attest: Option<seq<byte>>, rights: nat, draw: Draw)
    requires Inv(w)
    ensures var (w', r) := Attach(c, w, kind, init, attest, rights, draw);
      && Inv(w')
      && (r.Refused? ==> w' == w)
      && (r.Issued? ==>
          && r.cap.slot < SLOTS && w.slots[r.cap.slot] == EMPTY_SLOT && r.cap.token != 0
          && (forall k | 0 <= k < r.cap.slot :: w.slots[k].state.Attached?)
          && (forall k | 0 <= k < SLOTS && k != r.cap.slot :: w'.slots[k] == w.slots[k])
          && w'.slots[r.cap.slot].token == r.cap.token && draw.token == Some(r.cap.token)
          && w'.slots[r.cap.slot].rights == r.cap.rights == rights
          && StartsEmpty(kind, w'.slots[r.cap.slot].bus)
          && forall need | HasAll(rights, need) :: Authentic(w'.slots, r.cap, need))
  {
    var (w', r) := Attach(c, w, kind, init, attest, rights, draw);
    var i := FirstEmpty(w.slots);
    forall k | 0 <= k < i ensures w.slots[k].state.Attached? {
      assert SlotFits(w.slots[k], Owed(w.log, k));
    }
    if r.Issued? {
      assert SlotFits(w.slots[i], Owed(w.log, i));
      OwedNext(w.log, Opened(i), i);
      ChangeNoted(w, i, w'.slots[i], Opened(i), w');
    }
  }

  lemma DetachWipes(w: World, cap: Cap, required: nat)
    requires Inv(w)
    ensures var (w', r) := Detach(w, cap, required);
      && Inv(w')
      && (r.None? <==> Authentic(w.slots, cap, required))
      && (r.Some? ==> w' == w)
      && (r.None? ==> w'.slots == w.slots[cap.slot := EMPTY_SLOT])
      && (r == Some(InvalidSlot) <==> cap.slot >= SLOTS)
      && (r == Some(NotAttached) <==> cap.slot < SLOTS && w.slots[cap.slot] == EMPTY_SLOT)
      && r != Some(Busy)
  {
    assert cap.slot < SLOTS ==> SlotFits(w.slots[cap.slot], Owed(w.log, cap.slot));
    if Authentic(w.slots, cap, required) {
      OwedNext(w.log, Shut(cap.slot), cap.slot);
      ChangeNoted(w, cap.slot, EMPTY_SLOT, Shut(cap.slot), Detach(w, cap, required).0);
    }
  }

  lemma RelayKeeps(c: Crypto, w: World, src: Option<Cap>, dst: Option<Cap>, n: nat, w': World)
    requires Inv(w) && w' == HandleRelay(c, w, src, dst, n).0
    ensures Inv(w') && SameHolders(w, w')
  {
    if w' != w {
      var (w1, r) := BusRead(w, src.value.slot, n);
      ReadKeeps(w, src.value.slot, n, w1);
      if r.Done? && |r.value| == n {
        WriteKeeps(c, w1, dst.value.slot, r.value, w');
        HoldersTrans(w, w1, w');
      }
    }
  }

  predicate Traffic(op: Op) {
    op.OpWrite? || op.OpRead? || op.OpRelay?
  }

  /** Traffic keeps the invariant and every slot's holder. */
  lemma TrafficKeeps(c: Crypto, w: World, op: Op)
    requires Inv(w) && Traffic(op)
    ensures Inv(Step(c, w, op)) && SameHolders(w, Step(c, w, op))
  {
    var w' := Step(c, w, op);
    match op
    case OpWrite(cap, len, data) =>
      if w' != w {
        WriteKeeps(c, w, cap.value.slot, data.value, w');
      }
    case OpRead(cap, len, _) =>
      if w' != w {
        ReadKeeps(w, cap.value.slot, len, w');
      }
    case OpRelay(src, dst, n) =>
      RelayKeeps(c, w, src, dst, n, w');
    case _ =>
  }

  lemma StepInv(c: Crypto, w: World, op: Op)
    requires Inv(w)
    ensures Inv(Step(c, w, op))
  {
    match op
    case OpAttach(kind, init, attest, rights, draw) => AttachInstalls(c, w, kind, init, attest, rights, draw);
    case OpEnrol(e) => EnrolmentAudited(c, w, e);
    case OpDetach(cap, required) => DetachWipes(w, cap, required);
    case OpStatus(_, _, _, _) =>
    case _ => TrafficKeeps(c, w, op);
  }

  lemma {:induction false} RunInv(c: Crypto, w: World, ops: seq<Op>)
    requires Inv(w)
    ensures Inv(Run(c, w, ops))
    decreases |ops|
  {
    if ops != [] {
      StepInv(c, w, ops[0]);
      RunInv(c, Step(c, w, ops[0]), ops[1..]);
    }
  }

  // ---------------------------------------------------------------------
  // Each request is answered at most once, by its own response
  // ---------------------------------------------------------------------

  lemma {:induction false} LatestTook(log: seq<Note>, i: nat) returns (k: nat)
    requires Owed(log, i).Some?
    ensures k < |log| && log[k] == Took(i, Owed(log, i).value)
    ensures forall j | k < j < |log| :: About(log[j]) != Some(i)
  {
    var n := |log| - 1;
    if About(log[n]) == Some(i) {
      k := n;
    } else {
      k := LatestTook(log[..n], i);
    }
  }

  /** In every run from boot: a frame given out answers the request taken last on
      that slot, and nothing was given out there since that request. */
  lemma AnsweredOnce(c: Crypto, ops: seq<Op>, q: nat) returns (k: nat)
    requires q < |Run(c, BOOT, ops).log| && Run(c, BOOT, ops).log[q].Gave?
    ensures var log := Run(c, BOOT, ops).log;
      && k < q && Wire.WellFormed(log[q].frame)
      && log[k] == Took(log[q].slot, Wire.ReqId(log[q].frame))
      && forall j | k < j < q :: About(log[j]) != Some(log[q].slot)
  {
    BootInv();
    RunInv(c, BOOT, ops);
    var log := Run(c, BOOT, ops).log;
    assert Answers(log, q);
    k := LatestTook(log[..q], log[q].slot);
  }

  /** In every run: while a slot owes an answer, a write to it is refused and changes nothing. */
  lemma BusyRefuses(c: Crypto, ops: seq<Op>, cap: Cap, len: nat, data: Option<seq<byte>>)
    requires cap.slot < SLOTS && Owed(Run(c, BOOT, ops).log, cap.slot).Some?
    ensures var w := Run(c, BOOT, ops);
      HandleWrite(c, w, Some(cap), len, data).0 == w && !HandleWrite(c, w, Some(cap), len, data).1.Returned?
  {
    BootInv();
    RunInv(c, BOOT, ops);
    var w := Run(c, BOOT, ops);
    assert SlotFits(w.slots[cap.slot], Owed(w.log, cap.slot));
  }

  /** An accepted write makes the slot owe an answer to exactly that request. */
  lemma WriteTakes(c: Crypto, w: World, i: nat, data: seq<byte>)
    requires Inv(w) && i < SLOTS && w.slots[i].bus.Ring3? && BusWrite(c, w, i, data).1.Done?
    ensures var (w', r) := BusWrite(c, w, i, data);
      && r == Done(|data|) && Wire.IsRequest(data) && w.slots[i].bus.wire.len == 0
      && Owed(w'.log, i) == Some(Wire.ReqId(data))
  {
    var h, payload := Wire.ParseHeader(data), Wire.Payload(data);
    var (w1, f) := Respond(c, w, h, payload);
    RespondKeeps(c, w, h, payload, w1, f);
    assert SameHolder(w.slots[i], w1.slots[i]);
    OwedNext(w1.log, Took(i, h.reqId), i);
  }

  /** A read through the system call returns the answer to the request owed, once. */
  lemma ReadAnswers(c: Crypto, ops: seq<Op>, cap: Cap, len: nat)
    requires cap.slot < SLOTS && Run(c, BOOT, ops).slots[cap.slot].bus.Ring3?
    requires HandleRead(Run(c, BOOT, ops), Some(cap), len, true).1.Returned?
    ensures var w := Run(c, BOOT, ops);
      var (w', r, frame) := HandleRead(w, Some(cap), len, true);
      && Wire.WellFormed(frame) && !Wire.IsRequest(frame)
      && Owed(w.log, cap.slot) == Some(Wire.ReqId(frame)) && Owed(w'.log, cap.slot) == None
  {
    BootInv();
    RunInv(c, BOOT, ops);
    var w := Run(c, BOOT, ops);
    var frame := HandleRead(w, Some(cap), len, true).2;
    assert SlotFits(w.slots[cap.slot], Owed(w.log, cap.slot));
    OwedNext(w.log, Gave(cap.slot, frame), cap.slot);
    Wire.ResponseIsNoRequest(frame, []);
    assert frame + [] == frame;
  }
}
