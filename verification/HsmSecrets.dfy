/** Tokens and sealing nonces over whole runs: revocation is final and no nonce repeats under a key. */
module HsmSecrets {
  import opened Words
  import opened SoftBus
  import opened Registry
  import opened HsmSafety
  import opened HsmRuns
  import Wire

  ghost predicate Distinct<T>(s: seq<T>) {
    forall i, j | 0 <= i < j < |s| :: s[i] != s[j]
  }

  // ---------------------------------------------------------------------
  // Tokens
  // ---------------------------------------------------------------------

  ghost function TokenOf(c: Crypto, w: World, op: Op): seq<nat> {
    match Attaching(op)
    case Some(OpAttach(kind, init, attest, rights, draw)) =>
      var r := Attach(c, w, kind, init, attest, rights, draw).1;
      if r.Issued? then [r.cap.token] else []
    case _ => []
  }

  /** The tokens issued in a run, in order. */
  ghost function Tokens(c: Crypto, w: World, ops: seq<Op>): seq<nat>
    decreases |ops|
  {
    if ops == [] then [] else TokenOf(c, w, ops[0]) + Tokens(c, Step(c, w, ops[0]), ops[1..])
  }

  ghost predicate Unheld(w: World, t: nat) {
    forall i | 0 <= i < SLOTS :: w.slots[i].token != t
  }

  /** Attached slots hold issued tokens, no two the same. */
  ghost predicate Held(w: World, issued: seq<nat>) {
    && (forall i | 0 <= i < SLOTS :: w.slots[i].token == 0 || w.slots[i].token in issued)
    && (forall i, j | 0 <= i < j < SLOTS :: w.slots[i].token == w.slots[j].token ==> w.slots[i].token == 0)
  }

  lemma AttachHeld(c: Crypto, w: World, a: Op, issued: seq<nat>)
    requires Inv(w) && a.OpAttach? && Held(w, issued) && Distinct(issued + TokenOf(c, w, a))
    ensures Held(Step(c, w, a), issued + TokenOf(c, w, a))
  {
    AttachInstalls(c, w, a.kind, a.init, a.attest, a.rights, a.draw);
    var (w', r) := Attach(c, w, a.kind, a.init, a.attest, a.rights, a.draw);
    if r.Issued? {
      var all := issued + [r.cap.token];
      assert all[|issued|] == r.cap.token;
      assert forall k | 0 <= k < |issued| :: all[k] == issued[k];
    } else {
      assert issued + [] == issued;
    }
  }

  lemma StepHeld(c: Crypto, w: World, op: Op, issued: seq<nat>)
    requires Inv(w) && Held(w, issued) && Distinct(issued + TokenOf(c, w, op))
    ensures Held(Step(c, w, op), issued + TokenOf(c, w, op))
  {
    assert Attaching(op).None? ==> issued + TokenOf(c, w, op) == issued;
    if Attaching(op).Some? {
      AttachHeld(c, w, Attaching(op).value, issued);
    }
    match op
    case OpAttach(_, _, _, _, _) =>
    case OpEnrol(e) => EnrolIsAttach(c, w, e);
    case OpDetach(cap, required) => DetachWipes(w, cap, required);
    case OpStatus(_, _, _, _) =>
    case _ =>
      TrafficKeeps(c, w, op);
      TokensSame(w, Step(c, w, op));
  }

  lemma TokensSame(w: World, w': World)
    requires SameHolders(w, w')
    ensures forall i | 0 <= i < SLOTS :: w'.slots[i].token == w.slots[i].token
  {
    forall i | 0 <= i < SLOTS ensures w'.slots[i].token == w.slots[i].token {
      assert SameHolder(w.slots[i], w'.slots[i]);
    }
  }

  lemma DistinctPrefix<T>(a: seq<T>, b: seq<T>)
    requires Distinct(a + b)
    ensures Distinct(a)
  {
    assert forall i | 0 <= i < |a| :: (a + b)[i] == a[i];
  }

  lemma {:induction false} RunHeld(c: Crypto, w: World, ops: seq<Op>, issued: seq<nat>)
    requires Inv(w) && Held(w, issued) && Distinct(issued + Tokens(c, w, ops))
    ensures Held(Run(c, w, ops), issued + Tokens(c, w, ops))
    decreases |ops|
  {
    if ops == [] {
      assert issued + [] == issued;
    } else {
      var t := TokenOf(c, w, ops[0]);
      var w1 := Step(c, w, ops[0]);
      var rest := Tokens(c, w1, ops[1..]);
      assert issued + (t + rest) == (issued + t) + rest;
      DistinctPrefix(issued + t, rest);
      StepHeld(c, w, ops[0], issued);
      StepInv(c, w, ops[0]);
      RunHeld(c, w1, ops[1..], issued + t);
    }
  }

  lemma StepUnheld(c: Crypto, w: World, op: Op, t: nat)
    requires Inv(w) && t != 0 && Unheld(w, t) && t !in TokenOf(c, w, op)
    ensures Unheld(Step(c, w, op), t)
  {
    if Attaching(op).Some? {
      var a := Attaching(op).value;
      AttachInstalls(c, w, a.kind, a.init, a.attest, a.rights, a.draw);
    }
    match op
    case OpAttach(_, _, _, _, _) =>
    case OpEnrol(e) => EnrolIsAttach(c, w, e);
    case OpDetach(cap, required) => DetachWipes(w, cap, required);
    case OpStatus(_, _, _, _) =>
    case _ =>
      TrafficKeeps(c, w, op);
      TokensSame(w, Step(c, w, op));
  }

  lemma {:induction false} RunUnheld(c: Crypto, w: World, ops: seq<Op>, t: nat)
    requires Inv(w) && t != 0 && Unheld(w, t) && t !in Tokens(c, w, ops)
    ensures Unheld(Run(c, w, ops), t)
    decreases |ops|
  {
    if ops != [] {
      StepUnheld(c, w, ops[0], t);
      StepInv(c, w, ops[0]);
      RunUnheld(c, Step(c, w, ops[0]), ops[1..], t);
    }
  }

  lemma {:induction false} TokensSplit(c: Crypto, w: World, a: seq<Op>, b: seq<Op>)
    ensures Run(c, w, a + b) == Run(c, Run(c, w, a), b)
    ensures Tokens(c, w, a + b) == Tokens(c, w, a) + Tokens(c, Run(c, w, a), b)
    decreases |a|
  {
    if a == [] {
      assert a + b == b;
    } else {
      assert (a + b)[0] == a[0] && (a + b)[1..] == a[1..] + b;
      TokensSplit(c, Step(c, w, a[0]), a[1..], b);
    }
  }

  /** In a run from boot whose issued tokens never repeat, no slot ever again holds the token of a
      capability that was used to detach its slot. */
  lemma TokenGone(c: Crypto, before: seq<Op>, cap: Cap, required: nat, after: seq<Op>)
    requires Authentic(Run(c, BOOT, before).slots, cap, required)
    requires Distinct(Tokens(c, BOOT, before + [OpDetach(cap, required)] + after))
    ensures cap.token != 0 && Unheld(Run(c, BOOT, before + [OpDetach(cap, required)] + after), cap.token)
  {
    var op := OpDetach(cap, required);
    var w0 := Run(c, BOOT, before);
    var w1 := Step(c, w0, op);
    TokensSplit(c, BOOT, before, [op] + after);
    assert before + [op] + after == before + ([op] + after);
    assert ([op] + after)[0] == op && ([op] + after)[1..] == after;
    var issued, later := Tokens(c, BOOT, before), Tokens(c, w1, after);
    assert Tokens(c, w0, [op] + after) == [] + later == later;
    DistinctPrefix(issued, later);
    BootInv();
    RunInv(c, BOOT, before);
    assert [] + issued == issued;
    RunHeld(c, BOOT, before, []);
    StepInv(c, w0, op);
    DetachUnheld(w0, cap, required, issued);
    LaterDiffer(issued, later, cap.token);
    RunUnheld(c, w1, after, cap.token);
  }

  /** Revocation is final: from then on every capability carrying that token, whatever slot and rights it
      names, is denied by every system call that takes one, with nothing changed. */
  lemma RevokedForGood(c: Crypto, before: seq<Op>, cap: Cap, required: nat, after: seq<Op>, other: Cap, need: nat)
    requires Authentic(Run(c, BOOT, before).slots, cap, required) && other.token == cap.token
    requires Distinct(Tokens(c, BOOT, before + [OpDetach(cap, required)] + after))
    ensures var w := Run(c, BOOT, before + [OpDetach(cap, required)] + after);
      && !Authentic(w.slots, other, need)
      && Detach(w, other, need).0 == w && Detach(w, other, need).1.Some?
      && (forall len, data | 0 < len <= CHAN_MAX :: HandleWrite(c, w, Some(other), len, Some(data)) == (w, SysDenied))
      && (forall len | 16 <= len <= 4096 :: HandleRead(w, Some(other), len, true) == (w, SysDenied, []))
      && (forall peer, n | 0 < n <= CHAN_MAX ::
            && HandleRelay(c, w, Some(other), Some(peer), n) == (w, SysDenied)
            && HandleRelay(c, w, Some(peer), Some(other), n) == (w, SysDenied))
  {
    TokenGone(c, before, cap, required, after);
    var w := Run(c, BOOT, before + [OpDetach(cap, required)] + after);
    assert forall r :: !Authentic(w.slots, other, r);
  }

  lemma DetachUnheld(w: World, cap: Cap, required: nat, issued: seq<nat>)
    requires Inv(w) && Held(w, issued) && Authentic(w.slots, cap, required)
    ensures cap.token in issued && Unheld(Detach(w, cap, required).0, cap.token)
  {
    DetachWipes(w, cap, required);
  }

  lemma LaterDiffer(a: seq<nat>, b: seq<nat>, t: nat)
    requires Distinct(a + b) && t in a
    ensures t !in b
  {
    var i :| 0 <= i < |a| && a[i] == t;
    forall j | 0 <= j < |b| ensures b[j] != t {
      assert (a + b)[i] == t && (a + b)[|a| + j] == b[j];
    }
  }

  // ---------------------------------------------------------------------
  // Nonces
  // ---------------------------------------------------------------------

  ghost function AesOf(s: Slot): Option<Aes> {
    if s.bus.Software? && s.bus.soft.role.AesGcm? then s.bus.soft.aes else None
  }

  ghost function KeyOf(c: Crypto, w: World, op: Op): seq<seq<byte>> {
    match Attaching(op)
    case Some(OpAttach(kind, init, attest, rights, draw)) =>
      var (w', r) := Attach(c, w, kind, init, attest, rights, draw);
      if r.Issued? && r.cap.slot < SLOTS && AesOf(w'.slots[r.cap.slot]).Some?
      then [AesOf(w'.slots[r.cap.slot]).value.key] else []
    case _ => []
  }

  /** The sealing keys installed in a run, in order. */
  ghost function Keys(c: Crypto, w: World, ops: seq<Op>): seq<seq<byte>>
    decreases |ops|
  {
    if ops == [] then [] else KeyOf(c, w, ops[0]) + Keys(c, Step(c, w, ops[0]), ops[1..])
  }

  ghost predicate Below(log: seq<Note>, a: Aes) {
    forall p | 0 <= p < |log| && log[p].Sealing? && log[p].key == a.key :: log[p].count <= a.count
  }

  /** Under one key the counts used for sealing strictly increase. */
  ghost predicate Increasing(log: seq<Note>) {
    forall p, q | 0 <= p < q < |log| && log[p].Sealing? && log[q].Sealing? && log[p].key == log[q].key ::
      log[p].count < log[q].count
  }

  ghost predicate KeysApart(w: World) {
    forall i, j | 0 <= i < j < SLOTS && AesOf(w.slots[i]).Some? && AesOf(w.slots[j]).Some? ::
      AesOf(w.slots[i]).value.key != AesOf(w.slots[j]).value.key
  }

  ghost predicate SlotCounts(s: Slot, log: seq<Note>, keys: seq<seq<byte>>) {
    AesOf(s).Some? ==> AesOf(s).value.key in keys && Below(log, AesOf(s).value)
  }

  ghost predicate Counted(w: World, keys: seq<seq<byte>>) {
    && Increasing(w.log) && KeysApart(w)
    && (forall i | 0 <= i < SLOTS :: SlotCounts(w.slots[i], w.log, keys))
    && (forall p | 0 <= p < |w.log| :: w.log[p].Sealing? ==> w.log[p].key in keys && w.log[p].count < U64_LIMIT)
  }

  ghost predicate SameAes(w: World, w': World) {
    forall i | 0 <= i < SLOTS :: AesOf(w'.slots[i]) == AesOf(w.slots[i])
  }

  lemma QuietCounted(w: World, w': World, keys: seq<seq<byte>>)
    requires Counted(w, keys) && SameAes(w, w')
    requires w'.log == w.log || (w'.log != [] && w'.log[..|w'.log| - 1] == w.log && !w'.log[|w'.log| - 1].Sealing?)
    ensures Counted(w', keys)
  {
    assert forall p | 0 <= p < |w.log| :: w'.log[p] == w.log[p];
    forall i | 0 <= i < SLOTS ensures SlotCounts(w'.slots[i], w'.log, keys) {
      assert SlotCounts(w.slots[i], w.log, keys);
    }
  }

  lemma ReadCounted(w: World, i: nat, room: nat, keys: seq<seq<byte>>)
    requires i < SLOTS && Counted(w, keys)
    ensures Counted(BusRead(w, i, room).0, keys)
  {
    var w' := BusRead(w, i, room).0;
    assert w'.log == w.log || w'.log[..|w.log|] == w.log;
    QuietCounted(w, w', keys);
  }

  lemma SoftWriteCounted(c: Crypto, w: World, i: nat, data: seq<byte>, keys: seq<seq<byte>>)
    requires i < SLOTS && Counted(w, keys) && w.slots[i].bus.Software?
    ensures Counted(BusWrite(c, w, i, data).0, keys)
  {
    var w' := BusWrite(c, w, i, data).0;
    var (s', r) := SoftWrite(c, w.slots[i].bus.soft, data);
    if SealNote(s', r) == [] {
      QuietCounted(w, w', keys);
    } else {
      var aes := AesOf(w.slots[i]).value;
      var n := Sealing(aes.key, aes.count + 1);
      assert w'.log == w.log + [n] && AesOf(w'.slots[i]) == Some(aes.(count := aes.count + 1));
      assert SlotCounts(w.slots[i], w.log, keys);
      SealCounted(w, i, n, w', keys);
    }
  }

  lemma SealCounted(w: World, i: nat, n: Note, w': World, keys: seq<seq<byte>>)
    requires i < SLOTS && Counted(w, keys) && n.Sealing? && 0 < n.count < U64_LIMIT && w'.log == w.log + [n]
    requires AesOf(w.slots[i]) == Some(Aes(n.key, n.count - 1)) && AesOf(w'.slots[i]) == Some(Aes(n.key, n.count))
    requires forall j | 0 <= j < SLOTS && j != i :: w'.slots[j] == w.slots[j]
    ensures Counted(w', keys)
  {
    assert SlotCounts(w.slots[i], w.log, keys);
    assert forall p | 0 <= p < |w.log| :: w'.log[p] == w.log[p];
    forall j | 0 <= j < SLOTS ensures SlotCounts(w'.slots[j], w'.log, keys) {
      assert SlotCounts(w.slots[j], w.log, keys);
    }
  }

  lemma {:induction false} WriteCounted(c: Crypto, w: World, i: nat, data: seq<byte>, keys: seq<seq<byte>>)
    requires i < SLOTS && Counted(w, keys)
    ensures Counted(BusWrite(c, w, i, data).0, keys)
    decreases |data|
  {
    match w.slots[i].bus
    case Software(_) => SoftWriteCounted(c, w, i, data, keys);
    case Ring3(b) =>
      if Idle(b) && Wire.IsRequest(data) {
        var h := Wire.ParseHeader(data);
        var (w1, f) := Respond(c, w, h, Wire.Payload(data));
        if h.cmd == Wire.CMD_BLAKE3 {
          HashCounted(c, w, h.reqId, Wire.Payload(data), keys);
        } else {
          QuietCounted(w, w1, keys);
        }
        var w' := PutReply(w1, i, Wire.ReqId(data), f);
        assert w'.log == w1.log || w'.log[..|w1.log|] == w1.log;
        QuietCounted(w1, w', keys);
      }
    case _ =>
  }

  lemma {:induction false} HashCounted(c: Crypto, w: World, reqId: Wire.U32, payload: seq<byte>, keys: seq<seq<byte>>)
    requires Counted(w, keys)
    ensures Counted(HashReply(c, w, reqId, payload).0, keys)
    decreases |payload|, 0
  {
    if |payload| >= CAP_LEN && Authentic(w.slots, CapOf(payload), USE) {
      var i := CapOf(payload).slot;
      WriteCounted(c, w, i, payload[CAP_LEN..], keys);
      ReadCounted(BusWrite(c, w, i, payload[CAP_LEN..]).0, i, DIGEST_LEN, keys);
    }
  }

  lemma AttachCounted(c: Crypto, w: World, op: Op, keys: seq<seq<byte>>)
    requires Inv(w) && Counted(w, keys) && op.OpAttach? && Distinct(keys + KeyOf(c, w, op))
    ensures Counted(Step(c, w, op), keys + KeyOf(c, w, op))
  {
    AttachInstalls(c, w, op.kind, op.init, op.attest, op.rights, op.draw);
    var (w', r) := Attach(c, w, op.kind, op.init, op.attest, op.rights, op.draw);
    var all := keys + KeyOf(c, w, op);
    assert forall k | k in keys :: k in all;
    if r.Issued? {
      var i := r.cap.slot;
      assert w'.log == w.log + [Opened(i)];
      assert forall p | 0 <= p < |w.log| :: w'.log[p] == w.log[p];
      if AesOf(w'.slots[i]).Some? {
        var key := AesOf(w'.slots[i]).value.key;
        assert all[|keys|] == key;
        LastDiffers(keys, key);
      }
      forall j | 0 <= j < SLOTS ensures SlotCounts(w'.slots[j], w'.log, all) {
        assert SlotCounts(w.slots[j], w.log, keys);
      }
    } else {
      assert all == keys;
    }
  }

  lemma EnrolCounted(c: Crypto, w: World, e: Enrolment, keys: seq<seq<byte>>)
    requires Inv(w) && Counted(w, keys) && Distinct(keys + KeyOf(c, w, OpEnrol(e)))
    ensures Counted(Step(c, w, OpEnrol(e)), keys + KeyOf(c, w, OpEnrol(e)))
  {
    EnrolIsAttach(c, w, e);
    if WellPosed(e) {
      AttachCounted(c, w, Attaching(OpEnrol(e)).value, keys);
    } else {
      assert keys + [] == keys;
    }
  }

  lemma LastDiffers(keys: seq<seq<byte>>, key: seq<byte>)
    requires Distinct(keys + [key])
    ensures key !in keys
  {
    forall j | 0 <= j < |keys| ensures keys[j] != key {
      assert (keys + [key])[j] == keys[j] && (keys + [key])[|keys|] == key;
    }
  }

  lemma DetachCounted(w: World, cap: Cap, required: nat, keys: seq<seq<byte>>)
    requires Counted(w, keys)
    ensures Counted(Detach(w, cap, required).0, keys)
  {
    if Authentic(w.slots, cap, required) {
      var w' := Detach(w, cap, required).0;
      assert forall p | 0 <= p < |w.log| :: w'.log[p] == w.log[p];
      forall j | 0 <= j < SLOTS ensures SlotCounts(w'.slots[j], w'.log, keys) {
        assert SlotCounts(w.slots[j], w.log, keys);
      }
    }
  }

  lemma TrafficCounted(c: Crypto, w: World, op: Op, keys: seq<seq<byte>>)
    requires Counted(w, keys) && Traffic(op)
    ensures Counted(Step(c, w, op), keys)
  {
    if Step(c, w, op) != w {
      match op
      case OpWrite(cap, _, data) => WriteCounted(c, w, cap.value.slot, data.value, keys);
      case OpRead(cap, len, _) => ReadCounted(w, cap.value.slot, len, keys);
      case OpRelay(src, dst, n) =>
        ReadCounted(w, src.value.slot, n, keys);
        var (w1, r) := BusRead(w, src.value.slot, n);
        if r.Done? && |r.value| == n {
          WriteCounted(c, w1, dst.value.slot, r.value, keys);
        }
      case _ =>
    }
  }

  lemma StepCounted(c: Crypto, w: World, op: Op, keys: seq<seq<byte>>)
    requires Inv(w) && Counted(w, keys) && Distinct(keys + KeyOf(c, w, op))
    ensures Counted(Step(c, w, op), keys + KeyOf(c, w, op))
  {
    assert Attaching(op).None? ==> keys + KeyOf(c, w, op) == keys;
    match op
    case OpAttach(_, _, _, _, _) => AttachCounted(c, w, op, keys);
    case OpEnrol(e) => EnrolCounted(c, w, e, keys);
    case OpDetach(cap, required) => DetachCounted(w, cap, required, keys);
    case OpStatus(_, _, _, _) =>
    case _ => TrafficCounted(c, w, op, keys);
  }

  lemma {:induction false} RunCounted(c: Crypto, w: World, ops: seq<Op>, keys: seq<seq<byte>>)
    requires Inv(w) && Counted(w, keys) && Distinct(keys + Keys(c, w, ops))
    ensures Counted(Run(c, w, ops), keys + Keys(c, w, ops))
    decreases |ops|
  {
    if ops == [] {
      assert keys + [] == keys;
    } else {
      var k := KeyOf(c, w, ops[0]);
      var w1 := Step(c, w, ops[0]);
      var rest := Keys(c, w1, ops[1..]);
      assert keys + (k + rest) == (keys + k) + rest;
      DistinctPrefix(keys + k, rest);
      StepCounted(c, w, ops[0], keys);
      StepInv(c, w, ops[0]);
      RunCounted(c, w1, ops[1..], keys + k);
    }
  }

  /** In a run from boot whose installed keys never repeat, no two sealings
      anywhere, nested ones included, use the same nonce under the same key. */
  lemma NoncesNeverRepeat(c: Crypto, ops: seq<Op>, p: nat, q: nat)
    requires Distinct(Keys(c, BOOT, ops))
    requires p < q < |Run(c, BOOT, ops).log|
    requires Run(c, BOOT, ops).log[p].Sealing? && Run(c, BOOT, ops).log[q].Sealing?
    requires Run(c, BOOT, ops).log[p].key == Run(c, BOOT, ops).log[q].key
    ensures var log := Run(c, BOOT, ops).log;
      log[p].count < log[q].count < U64_LIMIT && Nonce(log[p].count) != Nonce(log[q].count)
  {
    BootInv();
    assert [] + Keys(c, BOOT, ops) == Keys(c, BOOT, ops);
    RunCounted(c, BOOT, ops, []);
    var log := Run(c, BOOT, ops).log;
    if Nonce(log[p].count) == Nonce(log[q].count) {
      NonceInjective(log[p].count, log[q].count);
    }
  }
}
