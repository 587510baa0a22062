/** From power-on to the first process: the memory map, the reserved kernel image, the linear map and
    the kernel's own mappings lead to a state in which `spawn_elf` may be called, again and again.
 */
module Boot {
  import opened Radix
  import opened Paging
  import opened Words
  import opened Allocator
  import opened Spaces
  import opened VmRuns
  import VmSharing
  import opened LinearMap
  import opened Segments
  import opened AddressSpace
  import opened Loader

  const LOW_MEMORY: nat := 0x10_0000

  //
  // What runs of mapping calls keep
  //

  /** New tables belong to a root that is there. */
  lemma ConfinedSettled(vm: Vm, vm': Vm, root: nat, i0: nat)
    requires Settled(vm) && Root(vm, root) && Confined(vm, vm', root, i0)
    requires vm'.data == vm.data && vm'.free <= vm.free
    requires forall f :: f in vm.tags ==> f in vm'.tags && vm'.tags[f] == vm.tags[f]
    ensures Settled(vm')
  {
    forall f | f in vm'.tags && OwnerOf(vm'.tags[f]).Private?
      ensures OwnerOf(vm'.tags[f]).root in vm'.tags
    {
      assert f in vm.tags || OnPath(vm'.tags[f], root, i0);
    }
  }

  lemma NewSpaceSettled(vm: Vm, kernel: nat)
    requires Paging.Valid(vm) && Root(vm, kernel) && Settled(vm)
    ensures Settled(NewSpace(vm, kernel).vm)
  {
    if vm.free != {} {
      NewSpaceView(vm, kernel);
      var f := Lowest(vm.free);
      assert NewSpace(vm, kernel).vm.tags == vm.tags[f := T0(f)];
    }
  }

  lemma StepSettled(vm: Vm, c: Call)
    requires Paging.Valid(vm) && Root(vm, c.root) && Settled(vm)
    ensures Settled(Step(vm, c).vm)
  {
    if c.SpaceCall? {
      NewSpaceSettled(vm, c.root);
    } else {
      assert c.UserCall? ==> UserFlags(c.writable).(present := true) == UserFlags(c.writable);
      MapAtRefines(vm, c.root, PageOf(c.va), Asked(c), c.LargeCall?);
      if Step(vm, c).vm != vm {
        ConfinedSettled(vm, Step(vm, c).vm, c.root, PageOf(c.va).i0);
      }
    }
  }

  /** Mapping calls of any kind in any spaces keep the memory settled. */
  lemma {:induction false} RunSettled(vm: Vm, cs: seq<Call>)
    requires Paging.Valid(vm) && Runs(vm, cs) && Settled(vm)
    ensures Settled(Final(vm, cs))
    decreases |cs|
  {
    if cs != [] {
      StepValid(vm, cs[0]);
      StepSettled(vm, cs[0]);
      RunSettled(Step(vm, cs[0]).vm, cs[1..]);
    }
  }

  /** And they leave the boot stack out of the allocator's reach. */
  lemma PreservesReserved(vm: Vm, vm': Vm, bottom: nat, top: nat)
    requires Preserves(vm, vm') && BootReserved(vm, bottom, top)
    ensures BootReserved(vm', bottom, top)
  {
    forall va | bottom <= va < top ensures Reserved(vm', va) {
      assert Reserved(vm, va);
    }
  }

  /** The linear map survives whatever is mapped later. */
  lemma PreservesLinear(vm: Vm, vm': Vm, root: nat, offset: nat, phys: nat)
    requires Preserves(vm, vm') && Root(vm, root) && Linear(vm.tables, root, offset, phys)
    ensures Linear(vm'.tables, root, offset, phys)
  {
    assert View(vm', root, PageOf(offset + phys)) == View(vm, root, PageOf(offset + phys));
  }

  //
  // The allocator at boot
  //

  /** A usable region of the memory map. */
  datatype Region = Region(base: nat, length: nat)

  predicate InWords(g: Region) {
    g.base + FRAME_SIZE - 1 < U64_LIMIT && g.base + g.length < U64_LIMIT
  }

  ghost predicate Usable(regions: seq<Region>, f: nat) {
    exists k :: 0 <= k < |regions| && f in FramesInside(regions[k].base, regions[k].length)
  }

  /** The frames free at boot: whole frames of usable regions past the kernel image. */
  ghost function BootFree(regions: seq<Region>, physEnd: nat): set<nat> {
    set f: nat | f < MAX_FRAMES && Usable(regions, f) && physEnd <= f * FRAME_SIZE
  }

  lemma UsableNext(regions: seq<Region>, k: nat, f: nat)
    requires k < |regions|
    ensures Usable(regions[..k + 1], f)
       <==> Usable(regions[..k], f) || f in FramesInside(regions[k].base, regions[k].length)
  {
    if Usable(regions[..k], f) {
      var j :| 0 <= j < k && f in FramesInside(regions[..k][j].base, regions[..k][j].length);
      assert regions[..k + 1][j] == regions[..k][j];
    }
    if f in FramesInside(regions[k].base, regions[k].length) {
      assert regions[..k + 1][k] == regions[k];
    }
    if Usable(regions[..k + 1], f) && f !in FramesInside(regions[k].base, regions[k].length) {
      var j :| 0 <= j < k + 1 && f in FramesInside(regions[..k + 1][j].base, regions[..k + 1][j].length);
      assert regions[..k][j] == regions[..k + 1][j];
    }
  }

  /** `init_from_memory_map`. */
  method InitFromMemoryMap(a: BitmapFrameAllocator, regions: seq<Region>)
    requires a.Valid() && a.free == {} && forall k | 0 <= k < |regions| :: InWords(regions[k])
    modifies a, a.bitmap
    ensures a.Valid() && forall f :: f in a.free <==> Usable(regions, f)
  {
    var k := 0;
    while k < |regions|
      invariant k <= |regions| && a.Valid()
      invariant forall f :: f in a.free <==> Usable(regions[..k], f)
    {
      ghost var before := a.free;
      a.MarkRangeFree(regions[k].base, regions[k].length);
      forall f ensures f in a.free <==> Usable(regions[..k + 1], f) {
        UsableNext(regions, k, f);
      }
      k := k + 1;
    }
    assert regions[..k] == regions;
  }

  lemma BelowEnd(f: nat, physEnd: nat)
    requires LOW_MEMORY <= physEnd && physEnd % FRAME_SIZE == 0
    ensures Meets(f, 0, LOW_MEMORY) || Meets(f, LOW_MEMORY, physEnd - LOW_MEMORY) <==> f * FRAME_SIZE < physEnd
  {
  }

  /** The memory map, then the reservations of low memory and of the kernel image. */
  method StartAllocator(regions: seq<Region>, physEnd: nat) returns (a: BitmapFrameAllocator)
    requires forall k | 0 <= k < |regions| :: InWords(regions[k])
    requires LOW_MEMORY <= physEnd < U64_LIMIT && physEnd % FRAME_SIZE == 0
    ensures fresh(a) && fresh(a.bitmap) && a.Valid() && a.free == BootFree(regions, physEnd)
  {
    a := new BitmapFrameAllocator();
    InitFromMemoryMap(a, regions);
    a.MarkRangeUsed(0, LOW_MEMORY);
    a.MarkRangeUsed(LOW_MEMORY, physEnd - LOW_MEMORY);
    forall f: nat | f < MAX_FRAMES ensures f in a.free <==> f in BootFree(regions, physEnd) {
      BelowEnd(f, physEnd);
    }
  }

  //
  // Ready for the first process
  //

  /** One empty kernel root and nothing else. */
  ghost function BootVm(free: set<nat>, kernel: nat): Vm {
    Vm(map[kernel := EmptyTable()], map[], free, map[kernel := T0(kernel)])
  }

  lemma BootVmFits(regions: seq<Region>, physEnd: nat, kernel: nat, bottom: nat, top: nat)
    requires (kernel + 1) * FRAME_SIZE <= physEnd && bottom <= top <= physEnd && top <= USER_LIMIT
    ensures var vm := BootVm(BootFree(regions, physEnd), kernel);
      && kernel !in vm.free && Settled(vm) && BootReserved(vm, bottom, top)
      && WxTables(vm.tables) && VmSharing.Forked(vm)
  {
    var vm := BootVm(BootFree(regions, physEnd), kernel);
    forall va | bottom <= va < top ensures Reserved(vm, va) {
      assert va / PAGE_SIZE * FRAME_SIZE <= va;
    }
  }

  /** What a run of calls leaves of a state ready for spawning. */
  lemma RunReady(vm: Vm, cs: seq<Call>, bottom: nat, top: nat)
    requires Paging.Valid(vm) && Runs(vm, cs) && Settled(vm) && BootReserved(vm, bottom, top)
    requires WxTables(vm.tables) && VmSharing.Forked(vm)
    ensures var vm' := Final(vm, cs);
      && Preserves(vm, vm') && Settled(vm') && BootReserved(vm', bottom, top)
      && WxTables(vm'.tables) && VmSharing.Forked(vm')
  {
    VmSharing.RunForked(vm, cs);
    RunPreserves(vm, cs);
    RunSettled(vm, cs);
    RunWx(vm, cs);
    PreservesReserved(vm, Final(vm, cs), bottom, top);
  }

  /** The linear map and the kernel's own mappings, failures ignored. */
  method MapKernel(pt: PageTables, kernel: nat, offset: nat, highest: nat, cs: seq<Call>)
    returns (linear: Res<()>, ghost n: nat)
    requires pt.Inv() && Root(pt.Value(), kernel) && forall k | 0 <= k < |cs| :: cs[k].root == kernel
    requires PageCount(highest) > 0 ==> offset + (PageCount(highest) - 1) * SIZE_2MIB < U64_LIMIT
    modifies pt, pt.allocator, pt.allocator.bitmap
    ensures pt.Inv() && Root(pt.Value(), kernel) && Runs(old(pt.Value()), LinearCalls(kernel, offset, n) + cs)
    ensures pt.Value() == Final(old(pt.Value()), LinearCalls(kernel, offset, n) + cs)
    ensures linear.Ok? ==>
      forall phys :: 0 <= phys < highest && phys < MAX_MAPPABLE_PHYS ==> Linear(pt.tables, kernel, offset, phys)
  {
    ghost var vm := pt.Value();
    linear, n := pt.BuildLinearMap(kernel, offset, highest);
    ghost var mapped := pt.Value();
    OneRootRuns(mapped, cs, kernel);
    var _ := pt.Replay(cs);
    RunsJoin(vm, LinearCalls(kernel, offset, n), cs);
    if linear.Ok? {
      RunPreserves(mapped, cs);
      StillLinear(mapped, pt.Value(), kernel, offset, highest);
    }
  }

  /** The kernel's start: for every memory map, kernel image and linear offset, and whatever the kernel
      maps in its own space, failures ignored, a state results in which processes can be spawned. No
      leaf is writable and executable, and a linear map that was completed is still there. */
  method BootKernel(regions: seq<Region>, physEnd: nat, kernel: nat, offset: nat, highest: nat, cs: seq<Call>,
                    ghost bottom: nat, ghost top: nat) returns (ps: Processes, linear: Res<()>, ghost n: nat)
    requires forall k | 0 <= k < |regions| :: InWords(regions[k])
    requires LOW_MEMORY <= physEnd < U64_LIMIT && physEnd % FRAME_SIZE == 0 && (kernel + 1) * FRAME_SIZE <= physEnd
    requires bottom <= top <= physEnd && top <= USER_LIMIT
    requires PageCount(highest) > 0 ==> offset + (PageCount(highest) - 1) * SIZE_2MIB < U64_LIMIT
    requires forall k | 0 <= k < |cs| :: cs[k].root == kernel
    ensures fresh(ps) && ps.Ready(kernel, bottom, top) && ps.slots == seq(MAX_PROCESSES, _ => None)
    ensures WxTables(ps.pt.tables) && VmSharing.Forked(ps.pt.Value())
    ensures var vm, calls := BootVm(BootFree(regions, physEnd), kernel), LinearCalls(kernel, offset, n) + cs;
      Runs(vm, calls) && ps.pt.Value() == Final(vm, calls)
    ensures linear.Ok? ==>
      forall phys :: 0 <= phys < highest && phys < MAX_MAPPABLE_PHYS ==> Linear(ps.pt.tables, kernel, offset, phys)
  {
    var a := StartAllocator(regions, physEnd);
    BootVmFits(regions, physEnd, kernel, bottom, top);
    var pt := new PageTables(a, kernel);
    ghost var vm := pt.Value();
    linear, n := MapKernel(pt, kernel, offset, highest, cs);
    RunReady(vm, LinearCalls(kernel, offset, n) + cs, bottom, top);
    ps := new Processes(pt);
  }

  lemma StillLinear(vm: Vm, vm': Vm, root: nat, offset: nat, highest: nat)
    requires Preserves(vm, vm') && Root(vm, root)
    requires forall phys :: 0 <= phys < highest && phys < MAX_MAPPABLE_PHYS ==> Linear(vm.tables, root, offset, phys)
    ensures forall phys :: 0 <= phys < highest && phys < MAX_MAPPABLE_PHYS ==> Linear(vm'.tables, root, offset, phys)
  {
    forall phys | 0 <= phys < highest && phys < MAX_MAPPABLE_PHYS ensures Linear(vm'.tables, root, offset, phys) {
      PreservesLinear(vm, vm', root, offset, phys);
    }
  }
}
