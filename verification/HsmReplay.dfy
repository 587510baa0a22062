/** Whole runs of system calls on the registry in place: each is the run on its value. */
module HsmReplay {
  import opened Words
  import opened SoftBus
  import opened Registry
  import opened HsmRuns
  import opened HsmDevice
  import AirGap

  /** Arguments as the calls receive them: data copied from user memory has the length given with it. */
  predicate Callable(op: Op) {
    match op
    case OpEnrol(e) => e.attest.Some? ==> |e.attest.value| == e.attestLen
    case OpWrite(_, len, data) => data.Some? ==> |data.value| == len
    case _ => true
  }

  /** The kernel's own attach, outside the enrolment call. */
  method KernelAttach(r: HsmRegistry, c: Crypto, kind: Kind, init: seq<byte>, attest: Option<seq<byte>>, rights: nat, draw: Draw)
    requires r.Valid()
    modifies r.Repr(), r`heads, r`slots, r`log
    ensures r.Valid() && r.Value() == Attach(c, old(r.Value()), kind, init, attest, rights, draw).0
  {
    var _ := r.AttachSlot(c, kind, init, attest, rights, draw);
  }

  method KernelDetach(r: HsmRegistry, cap: Cap, required: nat)
    requires r.Valid()
    modifies r.Repr(), r`heads, r`slots, r`log
    ensures r.Valid() && r.Value() == Detach(old(r.Value()), cap, required).0
  {
    var _ := r.DetachSlot(cap, required);
  }

  /** One call. */
  method Perform(r: HsmRegistry, c: Crypto, op: Op)
    requires r.Valid() && Callable(op)
    modifies r.Repr(), r`heads, r`slots, r`log, r.audit, r.audit.events, r.relay
    ensures r.Valid() && r.Value() == Step(c, old(r.Value()), op)
  {
    match op
    case OpAttach(kind, init, attest, rights, draw) => KernelAttach(r, c, kind, init, attest, rights, draw);
    case OpEnrol(e) => var _, _ := r.SysAttach(c, e);
    case OpDetach(cap, required) => KernelDetach(r, cap, required);
    case OpWrite(cap, len, data) => var _ := r.SysWrite(c, cap, len, data);
    case OpRead(cap, len, outIsUser) => var _, _ := r.SysRead(cap, len, outIsUser);
    case OpRelay(src, dst, n) => var _ := r.SysRelay(c, src, dst, n);
    case OpStatus(room, token, auditToken, outIsUser) =>
      var _, _ := AirGap.SysStatus(r, room, token, auditToken, outIsUser);
  }

  /** Every run of calls on the registry, buses and rings included, is the run on the value. */
  method Replay(r: HsmRegistry, c: Crypto, ops: seq<Op>)
    requires r.Valid() && forall k | 0 <= k < |ops| :: Callable(ops[k])
    modifies r.Repr(), r`heads, r`slots, r`log, r.audit, r.audit.events, r.relay
    ensures r.Valid() && r.Value() == Run(c, old(r.Value()), ops)
  {
    var k := 0;
    assert ops[0..] == ops;
    while k < |ops|
      invariant k <= |ops| && r.Valid() && Run(c, old(r.Value()), ops) == Run(c, r.Value(), ops[k..])
    {
      assert ops[k..][1..] == ops[k + 1..];
      Perform(r, c, ops[k]);
      k := k + 1;
    }
  }
}
