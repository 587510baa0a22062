/** What a process spawned from a written program finds in memory, address by address. */
module Programs {
  import opened Words
  import opened Paging
  import opened Elf
  import opened ElfWriter
  import opened UserMemory
  import opened Segments
  import opened Loader
  import SpawnPlan

  /** The byte at one address of a segment, and whether the program may write or execute it. */
  ghost predicate ByteThere(vm: Vm, root: nat, s: Part, i: nat)
    requires s.Segment?
  {
    && ReadUser(vm, root, s.vaddr + i) == Some(if i < |s.bytes| then s.bytes[i] else 0)
    && UserLeafAt(vm.tables, root, PageOf(s.vaddr + i), s.w)
  }

  /** A segment is in memory: its bytes, zeros after them, and its permissions throughout. */
  ghost predicate SegmentThere(vm: Vm, root: nat, s: Part)
    requires s.Segment?
  {
    forall i :: 0 <= i < s.memsz ==> ByteThere(vm, root, s, i)
  }

  lemma LoadedByte(vm: Vm, root: nat, ph: ProgramHeader, raw: seq<byte>, i: nat)
    requires Loadable(ph, |raw|) && SegmentLoaded(vm, root, ph, raw) && i < ph.memsz
    ensures ReadUser(vm, root, ph.vaddr + i) == Some(if i < ph.filesz then raw[ph.offset + i] else 0)
    ensures UserLeafAt(vm.tables, root, PageOf(ph.vaddr + i), IsWritable(ph))
  {
    SpanFits(ph, |raw|);
    SegmentReads(vm, root, ph, raw, i);
    InSegPage(ph.vaddr, i);
    assert PageFlagged(vm, root, SegPage(ph.vaddr, i / PAGE_SIZE), IsWritable(ph));
  }

  lemma HeaderThere(vm: Vm, root: nat, s: Part, ph: ProgramHeader, raw: seq<byte>)
    requires Loadable(ph, |raw|) && SegmentLoaded(vm, root, ph, raw)
    requires s.Segment? && ph.vaddr == s.vaddr && ph.memsz == s.memsz && ph.filesz == |s.bytes|
    requires (IsWritable(ph) <==> s.w) && raw[ph.offset..ph.offset + ph.filesz] == s.bytes
    ensures SegmentThere(vm, root, s)
  {
    forall k | 0 <= k < s.memsz ensures ByteThere(vm, root, s, k) {
      LoadedByte(vm, root, ph, raw, k);
      if k < |s.bytes| {
        SameByte(raw, ph.offset, s.bytes, k);
      }
    }
  }

  lemma WrittenThere(vm: Vm, root: nat, p: Program, i: nat, ph: ProgramHeader)
    requires Linkable(p) && i < |p.parts| && p.parts[i].Segment? && ph == HeaderOf(p.parts[i], Offset(p, i))
    requires Loadable(ph, |Write(p)|) && SegmentLoaded(vm, root, ph, Write(p))
    ensures SegmentThere(vm, root, p.parts[i])
  {
    BytesRead(p, i);
    WritableAsWritten(p.parts[i], Offset(p, i));
    HeaderThere(vm, root, p.parts[i], ph, Write(p));
  }

  lemma SameByte(raw: seq<byte>, o: nat, b: seq<byte>, k: nat)
    requires o + |b| <= |raw| && raw[o..o + |b|] == b && k < |b|
    ensures raw[o + k] == b[k]
  {
    assert raw[o..o + |b|][k] == raw[o + k];
  }

  /** The 64 KiB below the top of the user half: zero, writable, not executable. */
  ghost predicate StackThere(vm: Vm, root: nat) {
    forall a :: 0x7FFF_FFFE_F000 <= a < 0x7FFF_FFFF_F000 ==>
      ReadUser(vm, root, a) == Some(0) && UserLeafAt(vm.tables, root, PageOf(a), true)
  }

  lemma StackBytes(vm: Vm, root: nat)
    requires StackAt(vm, root, 0x7FFF_FFFE_F000, 16)
    ensures StackThere(vm, root)
  {
    forall a | 0x7FFF_FFFE_F000 <= a < 0x7FFF_FFFF_F000
      ensures ReadUser(vm, root, a) == Some(0) && UserLeafAt(vm.tables, root, PageOf(a), true)
    {
      StackByte(vm, root, 0x7FFF_FFFE_F000, 16, a - 0x7FFF_FFFE_F000);
    }
  }

  lemma StackByte(vm: Vm, root: nat, base: nat, n: nat, i: nat)
    requires StackAt(vm, root, base, n) && base % PAGE_SIZE == 0 && i < n * PAGE_SIZE
    ensures ReadUser(vm, root, base + i) == Some(0) && UserLeafAt(vm.tables, root, PageOf(base + i), true)
  {
    InSegPage(base, i);
    assert StackPage(vm, root, SegPage(base, i / PAGE_SIZE));
  }

  /** Everything a program finds below the kernel half, in terms of the program alone. */
  ghost predicate ProgramThere(vm: Vm, root: nat, p: Program) {
    && (forall i :: 0 <= i < |p.parts| && p.parts[i].Segment? ==> SegmentThere(vm, root, p.parts[i]))
    && StackThere(vm, root)
  }

  lemma FilledIsThere(vm: Vm, root: nat, p: Program, k: SpawnPlan.Stacks)
    requires Linkable(p) && Acceptable(Write(p)) && Filled(vm, root, ImageOf(Write(p)), k)
    requires k.userTop == SpawnPlan.STACK_TOP && k.userSize == SpawnPlan.STACK_SIZE
    ensures ProgramThere(vm, root, p)
  {
    WrittenParses(p);
    StackBytes(vm, root);
    forall i | 0 <= i < |p.parts| && p.parts[i].Segment? ensures SegmentThere(vm, root, p.parts[i]) {
      var j := ListedAt(p, |p.parts|, i);
      WrittenThere(vm, root, p, i, Listed(p, |p.parts|)[j]);
    }
  }

  lemma {:induction false} StepsBlameless(s: SpawnPlan.Progress, rs: seq<SpawnPlan.Req>)
    requires s.Stopped? ==> !s.error.BadElf?
    ensures SpawnPlan.Steps(s, rs).Stopped? ==> !SpawnPlan.Steps(s, rs).error.BadElf?
  {
    if rs != [] {
      StepsBlameless(s, rs[..|rs| - 1]);
    }
  }

  /** No plan fails because of the file. */
  lemma PlanBlameless(frames: nat, image: Image, k: SpawnPlan.Stacks)
    requires SpawnPlan.Sensible(k)
    ensures Foreseen(frames, image, k).Failed? ==> !Foreseen(frames, image, k).error.BadElf?
  {
    if frames > 0 {
      StepsBlameless(SpawnPlan.Going([], frames - 1), SpawnPlan.ProcessReqs(image, k));
    }
  }

  /** `spawn_elf` on a written program: the file is never at fault; a started process finds every byte of
      every segment, zeros up to its size in memory, and its stack, may write exactly the segments
      written as writable and execute no byte it may write; it starts at the program's entry point. */
  method Start(ps: Processes, kernel: nat, p: Program, bottom: nat, top: nat) returns (r: Spawned)
    requires ps.Ready(kernel, bottom, top) && Linkable(p)
    modifies ps, ps.pt, ps.pt.allocator, ps.pt.allocator.bitmap
    ensures ps.Ready(kernel, bottom, top)
    ensures r.NotStarted? ==> !r.error.BadElf? && ps.slots == old(ps.slots)
    ensures r.Started? ==> r.id < |ps.slots| && ps.slots[r.id].Some? && ps.slots[r.id].value.entry == p.entry
    ensures r.Started? ==> ProgramThere(ps.pt.Value(), ps.slots[r.id].value.pml4, p)
  {
    ghost var k := SpawnPlan.Stacks(bottom, top, SpawnPlan.STACK_TOP, SpawnPlan.STACK_SIZE);
    WrittenParses(p);
    PlanBlameless(|ps.pt.Value().free|, ImageOf(Write(p)), k);
    r := ps.SpawnElf(kernel, Write(p), bottom, top);
    if r.Started? {
      FilledIsThere(ps.pt.Value(), ps.slots[r.id].value.pml4, p, k);
    }
  }
}
