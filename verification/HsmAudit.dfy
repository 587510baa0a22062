/** The audit log over whole runs of registry calls: append-only, numbered, and complete for enrolments. */
module HsmAudit {
  import opened Words
  import opened SoftBus
  import opened Registry
  import opened HsmSafety
  import opened HsmRuns
  import Wire
  import Audit

  ghost predicate ReattestedBy(c: Crypto, e: Audit.Event, pk: seq<byte>, octet: byte, sig: seq<byte>) {
    && |pk| == PK_LEN && octet <= 1 && |sig| == SIG_LEN
    && e.slot == 0xFE && e.kind == octet && e.prefix == KeyPrefix(c, pk)
    && e.result == if c.attests(pk, octet, sig) then 5 else 6
  }

  /** The entry of a re-attestation request, with the verdict on the key and signature it carried. */
  ghost predicate Reattested(c: Crypto, e: Audit.Event) {
    exists pk, octet, sig :: ReattestedBy(c, e, pk, octet, sig)
  }

  /** `b` continues `a` with entries of re-attestations only. */
  ghost predicate Appends(c: Crypto, a: seq<Audit.Event>, b: seq<Audit.Event>) {
    a <= b && forall k | |a| <= k < |b| :: b[k].number == k % U32_LIMIT && Reattested(c, b[k])
  }

  lemma AttestAppends(c: Crypto, w: World, reqId: Wire.U32, payload: seq<byte>)
    ensures Appends(c, w.audit, AttestReply(c, w, reqId, payload).0.audit)
  {
    var w' := AttestReply(c, w, reqId, payload).0;
    if w' != w {
      var e := w'.audit[|w.audit|];
      assert ReattestedBy(c, e, payload[..PK_LEN], payload[PK_LEN], payload[PK_LEN + 1..]);
    }
  }

  lemma {:induction false} WriteAppends(c: Crypto, w: World, i: nat, data: seq<byte>)
    requires i < SLOTS
    ensures Appends(c, w.audit, BusWrite(c, w, i, data).0.audit)
    decreases |data|
  {
    if w.slots[i].bus.Ring3? && Idle(w.slots[i].bus.wire) && Wire.IsRequest(data) {
      var h, payload := Wire.ParseHeader(data), Wire.Payload(data);
      if h.cmd == Wire.CMD_BLAKE3 {
        HashAppends(c, w, h.reqId, payload);
      } else if h.cmd == Wire.CMD_ATTEST {
        AttestAppends(c, w, h.reqId, payload);
      }
    }
  }

  lemma {:induction false} HashAppends(c: Crypto, w: World, reqId: Wire.U32, payload: seq<byte>)
    ensures Appends(c, w.audit, HashReply(c, w, reqId, payload).0.audit)
    decreases |payload|, 0
  {
    if |payload| >= CAP_LEN && Authentic(w.slots, CapOf(payload), USE) {
      WriteAppends(c, w, CapOf(payload).slot, payload[CAP_LEN..]);
    }
  }

  /** Traffic of any kind, nested requests included, records re-attestations and nothing else. */
  lemma TrafficAppends(c: Crypto, w: World, op: Op)
    requires Traffic(op)
    ensures Appends(c, w.audit, Step(c, w, op).audit)
  {
    if Step(c, w, op) != w {
      match op
      case OpWrite(cap, _, data) => WriteAppends(c, w, cap.value.slot, data.value);
      case OpRelay(src, dst, n) =>
        var (w1, r) := BusRead(w, src.value.slot, n);
        if r.Done? && |r.value| == n {
          WriteAppends(c, w1, dst.value.slot, r.value);
        }
      case _ =>
    }
  }

  // ---------------------------------------------------------------------
  // Enrolments
  // ---------------------------------------------------------------------

  /** How many entries carry a result code. */
  ghost function Count(log: seq<Audit.Event>, code: byte): nat {
    if log == [] then 0 else Count(log[..|log| - 1], code) + if log[|log| - 1].result == code then 1 else 0
  }

  /** The code an enrolment is to be recorded under: granted, attestation failed, network kind, or none. */
  ghost function CodeOf(c: Crypto, slots: Slots, e: Enrolment): Option<byte> {
    if e.kind == 6 then Some(2)
    else if WellPosed(e) && !Attested(c, KindOf(e), e.attest.value) then Some(1)
    else if Grantable(c, slots, e) then Some(0)
    else None
  }

  /** The call is to be recorded under a code: an enrolment under its own, a status call with a
      wrong token under 2. */
  ghost predicate Owes(c: Crypto, slots: Slots, op: Op, code: byte) {
    || (op.OpEnrol? && CodeOf(c, slots, op.args) == Some(code))
    || (op.OpStatus? && op.room >= STATUS_LEN && op.token != op.auditToken && code == 2)
  }

  /** How many calls of a run are to be recorded under a code. */
  ghost function Due(c: Crypto, w: World, ops: seq<Op>, code: byte): nat
    decreases |ops|
  {
    if ops == [] then 0
    else (if Owes(c, w.slots, ops[0], code) then 1 else 0) + Due(c, Step(c, w, ops[0]), ops[1..], code)
  }

  lemma CountNext(log: seq<Audit.Event>, e: Audit.Event, code: byte)
    ensures Count(log + [e], code) == Count(log, code) + if e.result == code then 1 else 0
  {
    assert (log + [e])[..|log|] == log;
  }

  lemma {:induction false} CountOthers(a: seq<Audit.Event>, b: seq<Audit.Event>, code: byte)
    requires a <= b && forall k | |a| <= k < |b| :: b[k].result != code
    ensures Count(b, code) == Count(a, code)
    decreases |b|
  {
    if |b| > |a| {
      CountOthers(a, b[..|b| - 1], code);
    } else {
      assert a == b;
    }
  }

  /** One call: the log grows by numbered entries, and by `due` entries under the code. */
  ghost predicate Grows(a: seq<Audit.Event>, b: seq<Audit.Event>, code: byte, due: nat) {
    a <= b && Audit.Numbered(b) && Count(b, code) == Count(a, code) + due
  }

  /** One entry more under the code it carries. */
  lemma AppendGrows(a: seq<Audit.Event>, b: seq<Audit.Event>, x: byte, code: byte)
    requires Audit.Numbered(a) && |b| == |a| + 1 && b[..|a|] == a
    requires b[|a|].number == |a| % U32_LIMIT && b[|a|].result == x
    ensures Grows(a, b, code, if x == code then 1 else 0)
  {
    assert b == a + [b[|a|]];
    CountNext(a, b[|a|], code);
  }

  /** The entry an enrolment leaves, if any. */
  lemma EnrolEntry(c: Crypto, w: World, e: Enrolment)
    requires Inv(w)
    ensures var after, code := HandleAttach(c, w, e).0.audit, CodeOf(c, w.slots, e);
      && (code.None? ==> after == w.audit)
      && (code.Some? ==> && |after| == |w.audit| + 1 && after[..|w.audit|] == w.audit
                         && after[|w.audit|].number == |w.audit| % U32_LIMIT && after[|w.audit|].result == code.value)
  {
    EnrolmentAudited(c, w, e);
  }

  lemma EnrolAudit(c: Crypto, w: World, e: Enrolment, code: byte)
    requires Inv(w) && Audit.Numbered(w.audit)
    ensures Grows(w.audit, HandleAttach(c, w, e).0.audit, code, if CodeOf(c, w.slots, e) == Some(code) then 1 else 0)
  {
    EnrolEntry(c, w, e);
    if CodeOf(c, w.slots, e).Some? {
      AppendGrows(w.audit, HandleAttach(c, w, e).0.audit, CodeOf(c, w.slots, e).value, code);
    }
  }

  lemma StatusAudit(c: Crypto, w: World, op: Op, code: byte)
    requires op.OpStatus? && Audit.Numbered(w.audit)
    ensures Grows(w.audit, Step(c, w, op).audit, code, if Owes(c, w.slots, op, code) then 1 else 0)
  {
    if op.room >= STATUS_LEN && op.token != op.auditToken {
      AppendGrows(w.audit, Audit.Recorded(w.audit, 0xFF, 2, 0, [0, 0, 0, 0]), 2, code);
    }
  }

  lemma TrafficAudit(c: Crypto, w: World, op: Op, code: byte)
    requires Traffic(op) && Audit.Numbered(w.audit) && code <= 2
    ensures Grows(w.audit, Step(c, w, op).audit, code, 0)
  {
    var after := Step(c, w, op).audit;
    TrafficAppends(c, w, op);
    CountOthers(w.audit, after, code);
    assert forall k | 0 <= k < |w.audit| :: after[k] == w.audit[k];
  }

  lemma StepAudit(c: Crypto, w: World, op: Op, code: byte)
    requires Inv(w) && Audit.Numbered(w.audit) && code <= 2
    ensures Grows(w.audit, Step(c, w, op).audit, code, if Owes(c, w.slots, op, code) then 1 else 0)
  {
    match op
    case OpEnrol(e) => EnrolAudit(c, w, e, code);
    case OpStatus(_, _, _, _) => StatusAudit(c, w, op, code);
    case OpAttach(_, _, _, _, _) =>
    case OpDetach(_, _) =>
    case _ => TrafficAudit(c, w, op, code);
  }

  /** In every run the log only grows and numbers its entries, and it holds exactly one entry per
      enrolment that was granted, failed attestation or named the network kind and per status call
      with a wrong token, under that code. */
  lemma {:induction false} RunAudit(c: Crypto, w: World, ops: seq<Op>, code: byte)
    requires Inv(w) && Audit.Numbered(w.audit) && code <= 2
    ensures var w' := Run(c, w, ops);
      && w.audit <= w'.audit && Audit.Numbered(w'.audit)
      && Count(w'.audit, code) == Count(w.audit, code) + Due(c, w, ops, code)
    decreases |ops|
  {
    if ops != [] {
      StepAudit(c, w, ops[0], code);
      StepInv(c, w, ops[0]);
      RunAudit(c, Step(c, w, ops[0]), ops[1..], code);
    }
  }
}
