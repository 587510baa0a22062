/** Rights over whole runs: what each call asks of a capability and of its slot, bit by bit, and that
    every right used was granted when the slot was attached. */
module HsmRights {
  import opened Words
  import opened SoftBus
  import opened Registry
  import opened HsmSafety
  import opened HsmRuns
  import Wire

  // ---------------------------------------------------------------------
  // Rights words
  // ---------------------------------------------------------------------

  lemma {:induction false} BitIsArithmetic(n: nat, i: nat)
    ensures Bit(n, i) <==> BitAt(n, i)
  {
    if i > 0 {
      BitIsArithmetic(n / 2, i - 1);
      HalveThenDivide(n, Pow2(i - 1));
    }
  }

  /** Every bit of a 16-bit mask that is set is set in the word. */
  predicate Grants(word: nat, mask: nat) {
    forall i | 0 <= i < 16 :: BitAt(mask, i) ==> BitAt(word, i)
  }

  lemma HasAllGrants(rights: nat, required: nat)
    ensures HasAll(rights, required) <==> Grants(rights, required)
  {
    forall i | 0 <= i < 16 ensures (Bit(required, i) <==> BitAt(required, i)) && (Bit(rights, i) <==> BitAt(rights, i)) {
      BitIsArithmetic(required, i);
      BitIsArithmetic(rights, i);
    }
  }

  lemma Powers()
    ensures Pow2(0) == 1 && Pow2(3) == 8 && Pow2(4) == 16
  {
    assert Pow2(1) == 2 && Pow2(2) == 4;
  }

  // ---------------------------------------------------------------------
  // A missing right
  // ---------------------------------------------------------------------

  /** Bit `i` is missing from the capability, or from the slot it names. */
  predicate Lacks(slots: Slots, cap: Cap, i: nat) {
    !BitAt(cap.rights, i) || (cap.slot < SLOTS && !BitAt(slots[cap.slot].rights, i))
  }

  lemma LackingRefused(slots: Slots, cap: Cap, required: nat, i: nat)
    requires i < 16 && BitAt(required, i) && Lacks(slots, cap, i)
    ensures !Authentic(slots, cap, required)
  {
    HasAllGrants(cap.rights, required);
    if cap.slot < SLOTS {
      HasAllGrants(slots[cap.slot].rights, required);
    }
  }

  lemma NamedLacking(slots: Slots, cap: Cap)
    ensures Lacks(slots, cap, 0) ==> !Authentic(slots, cap, USE)
    ensures Lacks(slots, cap, 3) ==> !Authentic(slots, cap, RELAY_SRC)
    ensures Lacks(slots, cap, 4) ==> !Authentic(slots, cap, RELAY_DST)
  {
    Powers();
    if Lacks(slots, cap, 0) { LackingRefused(slots, cap, USE, 0); }
    if Lacks(slots, cap, 3) { LackingRefused(slots, cap, RELAY_SRC, 3); }
    if Lacks(slots, cap, 4) { LackingRefused(slots, cap, RELAY_DST, 4); }
  }

  /** Without bit 0 in both words, writing and reading are denied and change nothing. */
  lemma UseNeeded(c: Crypto, w: World, cap: Cap, len: nat, data: seq<byte>)
    requires cap.rights % 2 == 0 || (cap.slot < SLOTS && w.slots[cap.slot].rights % 2 == 0)
    ensures 0 < len <= 4096 ==> HandleWrite(c, w, Some(cap), len, Some(data)) == (w, SysDenied)
    ensures 16 <= len <= 4096 ==> HandleRead(w, Some(cap), len, true) == (w, SysDenied, [])
  {
    Powers();
    NamedLacking(w.slots, cap);
  }

  /** A relay needs bit 3 of the source in both words and bit 4 of the destination in both words. */
  lemma RelayNeeds(c: Crypto, w: World, src: Cap, dst: Cap, n: nat)
    requires 0 < n <= 4096
    requires || src.rights / 8 % 2 == 0 || (src.slot < SLOTS && w.slots[src.slot].rights / 8 % 2 == 0)
             || dst.rights / 16 % 2 == 0 || (dst.slot < SLOTS && w.slots[dst.slot].rights / 16 % 2 == 0)
    ensures HandleRelay(c, w, Some(src), Some(dst), n) == (w, SysDenied)
  {
    Powers();
    NamedLacking(w.slots, src);
    NamedLacking(w.slots, dst);
  }

  /** Detaching needs every bit asked for, in both words. */
  lemma DetachNeeds(w: World, cap: Cap, required: nat, i: nat)
    requires i < 16 && BitAt(required, i) && Lacks(w.slots, cap, i)
    ensures Detach(w, cap, required).0 == w && Detach(w, cap, required).1.Some?
  {
    LackingRefused(w.slots, cap, required, i);
  }

  /** A hash request whose capability lacks bit 0 is answered Denied, and the nested write never happens. */
  lemma HashNeeds(c: Crypto, w: World, reqId: Wire.U32, payload: seq<byte>)
    requires |payload| >= 16
    requires || U16At(payload, 10) % 2 == 0
             || ((payload[8] as nat) < SLOTS && w.slots[payload[8] as nat].rights % 2 == 0)
    ensures HashReply(c, w, reqId, payload).0 == w
    ensures Wire.ParseHeader(HashReply(c, w, reqId, payload).1) == Wire.Header([0x4C, 0x57, 0x4B, 0x30], 1, 0xFFFF, reqId, 0, 3)
  {
    Powers();
    NamedLacking(w.slots, CapOf(payload));
    var h := Wire.Header(Wire.MAGIC, Wire.VERSION, Wire.CMD_ERROR, reqId, 0, Wire.StatusCode(Wire.Denied));
    Wire.HeaderRoundTrip(h, []);
  }

  // ---------------------------------------------------------------------
  // Every right used was granted
  // ---------------------------------------------------------------------

  /** The capabilities an operation hands out: at most the one of its attach. */
  ghost function IssuedBy(c: Crypto, w: World, op: Op): seq<Cap> {
    match Attaching(op)
    case Some(OpAttach(kind, init, attest, rights, draw)) =>
      var r := Attach(c, w, kind, init, attest, rights, draw).1;
      if r.Issued? then [r.cap] else []
    case _ => []
  }

  /** All capabilities handed out in a run, in order. */
  ghost function AllIssued(c: Crypto, w: World, ops: seq<Op>): seq<Cap>
    decreases |ops|
  {
    if ops == [] then [] else IssuedBy(c, w, ops[0]) + AllIssued(c, Step(c, w, ops[0]), ops[1..])
  }

  /** A slot that holds a token holds it with the rights it was issued with. */
  ghost predicate SlotGranted(s: Slot, i: nat, caps: seq<Cap>) {
    s.token != 0 ==> exists k | 0 <= k < |caps| :: caps[k].token == s.token && caps[k].slot == i && caps[k].rights == s.rights
  }

  ghost predicate Granted(w: World, caps: seq<Cap>) {
    forall i | 0 <= i < SLOTS :: SlotGranted(w.slots[i], i, caps)
  }

  lemma MoreGranted(s: Slot, i: nat, caps: seq<Cap>, more: seq<Cap>)
    requires SlotGranted(s, i, caps)
    ensures SlotGranted(s, i, caps + more)
  {
    if s.token != 0 {
      var k :| 0 <= k < |caps| && caps[k].token == s.token && caps[k].slot == i && caps[k].rights == s.rights;
      assert (caps + more)[k] == caps[k];
    }
  }

  lemma AttachGranted(c: Crypto, w: World, a: Op, caps: seq<Cap>)
    requires Inv(w) && a.OpAttach? && Granted(w, caps)
    ensures Granted(Step(c, w, a), caps + IssuedBy(c, w, a))
  {
    AttachInstalls(c, w, a.kind, a.init, a.attest, a.rights, a.draw);
    var (w', r) := Attach(c, w, a.kind, a.init, a.attest, a.rights, a.draw);
    var more := IssuedBy(c, w, a);
    forall i | 0 <= i < SLOTS ensures SlotGranted(w'.slots[i], i, caps + more) {
      assert SlotGranted(w.slots[i], i, caps);
      if r.Issued? && i == r.cap.slot {
        assert (caps + more)[|caps|] == r.cap;
      } else {
        MoreGranted(w.slots[i], i, caps, more);
      }
    }
  }

  lemma HoldersGranted(w: World, w': World, caps: seq<Cap>)
    requires Granted(w, caps)
    requires forall i | 0 <= i < SLOTS ::
      w'.slots[i].token == 0 || (w'.slots[i].token == w.slots[i].token && w'.slots[i].rights == w.slots[i].rights)
    ensures Granted(w', caps)
  {
    forall i | 0 <= i < SLOTS ensures SlotGranted(w'.slots[i], i, caps) {
      assert SlotGranted(w.slots[i], i, caps);
    }
  }

  lemma StepGranted(c: Crypto, w: World, op: Op, caps: seq<Cap>)
    requires Inv(w) && Granted(w, caps)
    ensures Granted(Step(c, w, op), caps + IssuedBy(c, w, op))
  {
    assert Attaching(op).None? ==> caps + IssuedBy(c, w, op) == caps;
    if Attaching(op).Some? {
      AttachGranted(c, w, Attaching(op).value, caps);
    }
    match op
    case OpAttach(_, _, _, _, _) =>
    case OpEnrol(e) => EnrolIsAttach(c, w, e);
    case OpDetach(cap, required) => DetachWipes(w, cap, required);
      HoldersGranted(w, Step(c, w, op), caps);
    case OpStatus(_, _, _, _) =>
    case _ =>
      TrafficKeeps(c, w, op);
      forall i | 0 <= i < SLOTS
        ensures Step(c, w, op).slots[i].token == w.slots[i].token && Step(c, w, op).slots[i].rights == w.slots[i].rights
      {
        assert SameHolder(w.slots[i], Step(c, w, op).slots[i]);
      }
      HoldersGranted(w, Step(c, w, op), caps);
  }

  lemma {:induction false} RunGranted(c: Crypto, w: World, ops: seq<Op>, caps: seq<Cap>)
    requires Inv(w) && Granted(w, caps)
    ensures Granted(Run(c, w, ops), caps + AllIssued(c, w, ops))
    decreases |ops|
  {
    if ops == [] {
      assert caps + [] == caps;
    } else {
      var more := IssuedBy(c, w, ops[0]);
      var rest := AllIssued(c, Step(c, w, ops[0]), ops[1..]);
      assert caps + (more + rest) == (caps + more) + rest;
      StepGranted(c, w, ops[0], caps);
      StepInv(c, w, ops[0]);
      RunGranted(c, Step(c, w, ops[0]), ops[1..], caps + more);
    }
  }

  /** Some capability handed out before carries this token for this slot, with bit `i` among its rights;
      and the one presented has that bit too. */
  ghost predicate Backed(caps: seq<Cap>, cap: Cap, i: nat) {
    && BitAt(cap.rights, i)
    && exists k | 0 <= k < |caps| :: caps[k].token == cap.token && caps[k].slot == cap.slot && BitAt(caps[k].rights, i)
  }

  lemma AuthenticBacked(w: World, caps: seq<Cap>, cap: Cap, required: nat, i: nat)
    requires Granted(w, caps) && Authentic(w.slots, cap, required) && i < 16 && BitAt(required, i)
    ensures Backed(caps, cap, i)
  {
    HasAllGrants(cap.rights, required);
    HasAllGrants(w.slots[cap.slot].rights, required);
    assert SlotGranted(w.slots[cap.slot], cap.slot, caps);
  }

  /** A detach, write, read or relay that is not refused. */
  ghost predicate Succeeds(c: Crypto, w: World, op: Op) {
    match op
    case OpDetach(cap, required) => Detach(w, cap, required).1.None?
    case OpWrite(cap, len, data) => HandleWrite(c, w, cap, len, data).1.Returned?
    case OpRead(cap, len, outIsUser) => HandleRead(w, cap, len, outIsUser).1.Returned?
    case OpRelay(src, dst, n) => HandleRelay(c, w, src, dst, n).1.Returned?
    case _ => false
  }

  /** What the capabilities a call presents must be backed by: bit 0 to write or read, bit 3 of the source
      and bit 4 of the destination to relay, every bit asked for to detach. */
  ghost predicate Entitled(caps: seq<Cap>, op: Op) {
    match op
    case OpDetach(cap, required) => forall i | 0 <= i < 16 && BitAt(required, i) :: Backed(caps, cap, i)
    case OpWrite(cap, _, _) => cap.Some? && Backed(caps, cap.value, 0)
    case OpRead(cap, _, _) => cap.Some? && Backed(caps, cap.value, 0)
    case OpRelay(src, dst, _) => src.Some? && dst.Some? && Backed(caps, src.value, 3) && Backed(caps, dst.value, 4)
    case _ => false
  }

  /** The check every call makes before it does anything. */
  ghost predicate Checked(slots: Slots, op: Op) {
    match op
    case OpDetach(cap, required) => Authentic(slots, cap, required)
    case OpWrite(cap, _, _) => cap.Some? && Authentic(slots, cap.value, USE)
    case OpRead(cap, _, _) => cap.Some? && Authentic(slots, cap.value, USE)
    case OpRelay(src, dst, _) =>
      src.Some? && dst.Some? && Authentic(slots, src.value, RELAY_SRC) && Authentic(slots, dst.value, RELAY_DST)
    case _ => false
  }

  lemma CheckedFirst(c: Crypto, w: World, op: Op)
    requires Succeeds(c, w, op) || (Attaching(op).None? && Step(c, w, op).slots != w.slots)
    ensures Checked(w.slots, op)
  {
    if op.OpEnrol? {
      EnrolIsAttach(c, w, op.args);
    }
  }

  lemma CheckedEntitled(w: World, caps: seq<Cap>, op: Op)
    requires Granted(w, caps) && Checked(w.slots, op)
    ensures Entitled(caps, op)
  {
    Powers();
    match op
    case OpDetach(cap, required) =>
      forall i | 0 <= i < 16 && BitAt(required, i) ensures Backed(caps, cap, i) {
        AuthenticBacked(w, caps, cap, required, i);
      }
    case OpWrite(cap, _, _) => AuthenticBacked(w, caps, cap.value, USE, 0);
    case OpRead(cap, _, _) => AuthenticBacked(w, caps, cap.value, USE, 0);
    case OpRelay(src, dst, _) =>
      AuthenticBacked(w, caps, src.value, RELAY_SRC, 3);
      AuthenticBacked(w, caps, dst.value, RELAY_DST, 4);
  }

  /** In every run from boot, a call that succeeds, or changes a slot at all, presents tokens of
      capabilities handed out earlier in that run for those very slots, with the rights it needs. */
  lemma OnlyGrantedRights(c: Crypto, ops: seq<Op>, op: Op)
    requires var w := Run(c, BOOT, ops); Succeeds(c, w, op) || (Attaching(op).None? && Step(c, w, op).slots != w.slots)
    ensures Entitled(AllIssued(c, BOOT, ops), op)
  {
    var w, caps := Run(c, BOOT, ops), AllIssued(c, BOOT, ops);
    BootInv();
    RunGranted(c, BOOT, ops, []);
    assert [] + caps == caps;
    CheckedFirst(c, w, op);
    CheckedEntitled(w, caps, op);
  }
}
