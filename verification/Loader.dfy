/** The process loader: new user space, boot stack, segments, user stack, process slot.  Each method
    ends exactly as `SpawnPlan` foresees from the requested pages and the number of free frames.
 */
module Loader {
  import Radix
  import opened Paging
  import opened Words
  import opened Allocator
  import opened AddressSpace
  import opened Spaces
  import opened UserMemory
  import opened Segments
  import opened SpawnPlan
  import opened Elf
  import VmRuns

  const MAX_PROCESSES := 4

  datatype Process = Process(id: nat, pml4: nat, entry: nat, rsp: nat, stackBottom: nat, stackTop: nat)

  datatype Spawned = Started(id: nat) | NotStarted(error: ProcessError)

  class Processes {
    const pt: PageTables
    var slots: seq<Option<Process>>

    constructor (tables: PageTables)
      ensures pt == tables && slots == seq(MAX_PROCESSES, _ => None)
    {
      pt := tables;
      slots := seq(MAX_PROCESSES, _ => None);
    }

    ghost predicate Working(root: nat)
      reads pt, pt.allocator, pt.allocator.bitmap
    {
      pt.allocator.Valid() && Tidy(pt.Value(), root)
    }

    /** `alloc_frame` and clearing the page. */
    method ClaimFrame(ghost root: nat) returns (r: AllocResult)
      requires Working(root)
      modifies pt, pt.allocator, pt.allocator.bitmap
      ensures pt.allocator.Valid()
      ensures r.NoFrame? ==> old(pt.Value()).free == {} && pt.Value() == old(pt.Value())
      ensures r.Frame? ==> r.frame in old(pt.Value()).free && pt.Value() == Claim(old(pt.Value()), r.frame)
    {
      r := pt.allocator.Alloc();
      if r.Frame? {
        pt.data := pt.data[r.frame := Zeros(PAGE_SIZE)];
      }
    }

    /** One round of `map_user_region`. */
    method AddPage(root: nat, va: nat, writable: bool, ghost s: Progress, ghost next: Progress) returns (r: Done)
      requires Working(root) && Follows(s, pt.Value(), root) && next == Then(s, User(va))
      modifies pt, pt.allocator, pt.allocator.bitmap
      ensures Working(root) && Grows(old(pt.Value()), pt.Value(), root)
      ensures Ends(r, next, pt.Value(), root)
      ensures r.Fine? ==> IsUserVa(va) && FreshPage(old(pt.Value()), pt.Value(), root, va, 0, writable)
    {
      ghost var was := pt.Value();
      var frame := ClaimFrame(root);
      if frame.NoFrame? {
        GrowsSelf(was, root);
        return Failed(PmAllocFailed);
      }
      ClaimTidy(was, root, frame.frame);
      var mapped := pt.MapUserPage(root, va, frame.frame * PAGE_SIZE, writable);
      PageAdded(s, was, frame.frame, pt.Value(), mapped, root, va, writable);
      if mapped.Err? {
        return Failed(Mmu(mapped.error));
      }
      return Fine;
    }

    /** `map_user_region`: on success every page of the region is a cleared frame of its own. */
    method MapUserRegion(root: nat, base: nat, pages: nat, writable: bool, ghost s: Progress, ghost end: Progress)
      returns (r: Done)
      requires Working(root) && Follows(s, pt.Value(), root) && end == Steps(s, RegionReqs(base, pages))
      modifies pt, pt.allocator, pt.allocator.bitmap
      ensures Working(root) && Grows(old(pt.Value()), pt.Value(), root)
      ensures if IsUserVa(base) then Ends(r, end, pt.Value(), root)
              else r == Failed(BadAddress) && pt.Value() == old(pt.Value())
      ensures r.Fine? ==> FreshRegion(old(pt.Value()), pt.Value(), root, base, pages, writable)
    {
      GrowsSelf(pt.Value(), root);
      if !IsUserVa(base) {
        return Failed(BadAddress);
      }
      r := MapPages(root, base, pages, writable, s, end);
    }

    method MapPages(root: nat, base: nat, pages: nat, writable: bool, ghost s: Progress, ghost end: Progress)
      returns (r: Done)
      requires Working(root) && Follows(s, pt.Value(), root) && end == Steps(s, RegionReqs(base, pages))
      modifies pt, pt.allocator, pt.allocator.bitmap
      ensures Working(root) && Grows(old(pt.Value()), pt.Value(), root) && Ends(r, end, pt.Value(), root)
      ensures r.Fine? ==> FreshRegion(old(pt.Value()), pt.Value(), root, base, pages, writable)
    {
      ghost var was := pt.Value();
      GrowsSelf(was, root);
      var i := 0;
      ghost var now := s;
      r := Fine;
      while i < pages && r.Fine?
        invariant i <= pages
        invariant Working(root) && Grows(was, pt.Value(), root) && Ends(r, now, pt.Value(), root)
        invariant if r.Fine? then now == Steps(s, RegionReqs(base, i)) else now == end
        invariant r.Fine? ==> FreshRegion(was, pt.Value(), root, base, i, writable)
      {
        ghost var next := Then(now, User(base + i * PAGE_SIZE));
        r := AddNext(root, base, i, writable, now, next, was);
        RegionProgress(s, now, next, end, r.Failed?, base, i, pages);
        now := next;
        i := i + 1;
      }
    }

    method AddNext(root: nat, base: nat, i: nat, writable: bool, ghost s: Progress, ghost next: Progress, ghost was: Vm)
      returns (r: Done)
      requires Working(root) && Follows(s, pt.Value(), root) && next == Then(s, User(base + i * PAGE_SIZE))
      requires Paging.Valid(was) && Grows(was, pt.Value(), root)
      requires FreshRegion(was, pt.Value(), root, base, i, writable)
      modifies pt, pt.allocator, pt.allocator.bitmap
      ensures Working(root) && Grows(was, pt.Value(), root)
      ensures Ends(r, next, pt.Value(), root)
      ensures r.Fine? ==> FreshRegion(was, pt.Value(), root, base, i + 1, writable)
    {
      ghost var before := pt.Value();
      r := AddPage(root, base + i * PAGE_SIZE, writable, s, next);
      RegionGrows(was, before, pt.Value(), r, root, base, i, writable);
    }

    /** The copy loop of `load_segment`; its `walk_to_phys` never fails on a freshly mapped region. */
    method CopyFile(root: nat, ph: ProgramHeader, raw: seq<byte>, ghost was: Vm)
      requires Filling(was, pt.Value(), root, ph, raw, 0)
      modifies pt
      ensures Filling(was, pt.Value(), root, ph, raw, ph.filesz) && pt.tables == old(pt.tables)
    {
      var copied := 0;
      while copied < ph.filesz
        invariant Filling(was, pt.Value(), root, ph, raw, copied) && pt.tables == old(pt.tables)
      {
        var f := FindFrame(root, ph, raw, was, copied);
        copied := CopyOne(root, ph, raw, was, copied, f);
      }
    }

    method FindFrame(root: nat, ph: ProgramHeader, ghost raw: seq<byte>, ghost was: Vm, copied: nat) returns (f: nat)
      requires Filling(was, pt.Value(), root, ph, raw, copied) && copied < ph.filesz
      ensures Target(was, pt.Value(), root, ph, copied, f)
    {
      FillWalk(was, pt.Value(), root, ph, raw, copied);
      var phys := WalkToPhys(pt.tables, root, CopyPage(ph, copied));
      f := phys.value / PAGE_SIZE;
    }

    method CopyOne(root: nat, ph: ProgramHeader, raw: seq<byte>, ghost was: Vm, copied: nat, f: nat) returns (next: nat)
      requires Filling(was, pt.Value(), root, ph, raw, copied) && copied < ph.filesz
      requires Target(was, pt.Value(), root, ph, copied, f)
      modifies pt
      ensures copied < next && Filling(was, pt.Value(), root, ph, raw, next) && pt.tables == old(pt.tables)
    {
      ghost var vm := pt.Value();
      next := copied + Chunk(ph, copied);
      WriteBytes(f, copied % PAGE_SIZE, ChunkBytes(ph, raw, copied));
      FillStep(was, vm, pt.Value(), root, ph, raw, copied, next, f);
    }

    /** `copy_nonoverlapping` into a user frame. */
    method WriteBytes(f: nat, off: nat, bytes: seq<byte>)
      requires f in pt.data && off + |bytes| <= |pt.data[f]|
      modifies pt
      ensures pt.Value() == WriteFrame(old(pt.Value()), f, off, bytes)
      ensures pt.tables == old(pt.tables)
    {
      pt.data := pt.data[f := Splice(pt.data[f], off, bytes)];
    }

    /** `load_segment`: on success the whole segment is in place; in any case nothing that existed
        before is touched. */
    method LoadSegment(root: nat, ph: ProgramHeader, raw: seq<byte>, ghost s: Progress, ghost end: Progress) returns (r: Done)
      requires Working(root) && Follows(s, pt.Value(), root) && Loadable(ph, |raw|)
      requires end == Steps(s, RegionReqs(ph.vaddr, PageSpan(ph)))
      modifies pt, pt.allocator, pt.allocator.bitmap
      ensures Working(root) && Grows(old(pt.Value()), pt.Value(), root)
      ensures Ends(r, end, pt.Value(), root)
      ensures r.Fine? ==> SegmentLoaded(pt.Value(), root, ph, raw)
    {
      ghost var was := pt.Value();
      var vaStart := ph.vaddr / PAGE_SIZE * PAGE_SIZE;
      var vaEnd := (ph.vaddr + ph.memsz + PAGE_SIZE - 1) / PAGE_SIZE * PAGE_SIZE;
      var pages := (vaEnd - vaStart) / PAGE_SIZE;
      SegmentBounds(ph, |raw|, vaStart, vaEnd, pages);
      r := MapUserRegion(root, vaStart, pages, IsWritable(ph), s, end);
      if r.Fine? {
        FillSegment(root, ph, raw, end, was);
      }
    }

    method FillSegment(root: nat, ph: ProgramHeader, raw: seq<byte>, ghost s: Progress, ghost was: Vm)
      requires Working(root) && Follows(s, pt.Value(), root) && Loadable(ph, |raw|)
      requires Paging.Valid(was) && Grows(was, pt.Value(), root)
      requires FreshRegion(was, pt.Value(), root, ph.vaddr, PageSpan(ph), IsWritable(ph))
      modifies pt
      ensures Working(root) && Grows(was, pt.Value(), root) && Follows(s, pt.Value(), root)
      ensures SegmentLoaded(pt.Value(), root, ph, raw)
    {
      ghost var mapped := pt.Value();
      FillingStarts(was, mapped, root, ph, raw);
      CopyFile(root, ph, raw, was);
      FilledIsLoaded(was, pt.Value(), root, ph, raw);
      SameTablesFollow(s, mapped, pt.Value(), root);
    }

    /** `map_boot_stack_identity`: reserved frames mapped at their own address. */
    method MapBootStack(root: nat, bottom: nat, top: nat, ghost s: Progress) returns (r: Done)
      requires Working(root) && Follows(s, pt.Value(), root) && BootReserved(pt.Value(), bottom, top)
      modifies pt, pt.allocator, pt.allocator.bitmap
      ensures Working(root) && Grows(old(pt.Value()), pt.Value(), root)
      ensures Ends(r, Steps(s, BootReqs(bottom, (top - bottom) / PAGE_SIZE)), pt.Value(), root)
      ensures r.Fine? ==> BootMapped(pt.Value(), root, bottom, (top - bottom) / PAGE_SIZE)
    {
      ghost var was := pt.Value();
      GrowsSelf(was, root);
      var pages, i := (top - bottom) / PAGE_SIZE, 0;
      ghost var now := s;
      while i < pages
        invariant i <= pages
        invariant Working(root) && Grows(was, pt.Value(), root) && BootReserved(pt.Value(), bottom, top)
        invariant now == Steps(s, BootReqs(bottom, i)) && Follows(now, pt.Value(), root)
        invariant BootMapped(pt.Value(), root, bottom, i)
      {
        ghost var next := Then(now, Boot(bottom + i * PAGE_SIZE));
        r := MapBootPage(root, bottom, top, i, now, next, was);
        now := next;
        BootNext(s, bottom, i);
        if r.Failed? {
          BootStops(s, bottom, i + 1, pages);
          return;
        }
        i := i + 1;
      }
      return Fine;
    }

    method MapBootPage(root: nat, bottom: nat, top: nat, i: nat, ghost s: Progress, ghost next: Progress, ghost was: Vm)
      returns (r: Done)
      requires Working(root) && BootReserved(pt.Value(), bottom, top) && bottom + i * PAGE_SIZE < top
      requires Paging.Valid(was) && Grows(was, pt.Value(), root) && BootMapped(pt.Value(), root, bottom, i)
      requires Follows(s, pt.Value(), root) && next == Then(s, Boot(bottom + i * PAGE_SIZE))
      modifies pt, pt.allocator, pt.allocator.bitmap
      ensures Working(root) && Grows(was, pt.Value(), root) && BootReserved(pt.Value(), bottom, top)
      ensures Ends(r, next, pt.Value(), root)
      ensures r.Fine? ==> BootMapped(pt.Value(), root, bottom, i + 1)
    {
      ghost var before := pt.Value();
      var va := bottom + i * PAGE_SIZE;
      assert Reserved(before, va);
      r := AddBootPage(root, va, s, next);
      BootGrows(was, before, pt.Value(), r, root, bottom, top, i, va);
    }

    method AddBootPage(root: nat, va: nat, ghost s: Progress, ghost next: Progress) returns (r: Done)
      requires Working(root) && Follows(s, pt.Value(), root) && va < USER_LIMIT && Reserved(pt.Value(), va)
      requires next == Then(s, Boot(va))
      modifies pt, pt.allocator, pt.allocator.bitmap
      ensures Working(root) && Grows(old(pt.Value()), pt.Value(), root)
      ensures Ends(r, next, pt.Value(), root)
      ensures r.Fine? ==> AtHome(pt.Value(), root, va)
    {
      ghost var was := pt.Value();
      var mapped := pt.MapPage(root, va, va, KernelData());
      BootPageStep(was, pt.Value(), mapped, root, va);
      MapGrows(was, pt.Value(), root, va, va, KernelData(), mapped);
      BootFollows(s, was, root, va);
      if mapped.Err? {
        return Failed(Mmu(mapped.error));
      }
      AtHomeAfter(was, pt.Value(), root, va);
      return Fine;
    }

    /** `map_user_stack`. */
    method MapUserStack(root: nat, top: nat, size: nat, ghost s: Progress, ghost end: Progress) returns (r: Done)
      requires Working(root) && Follows(s, pt.Value(), root)
      requires Placed(top, size) ==> end == Steps(s, StackRegion(top, size))
      modifies pt, pt.allocator, pt.allocator.bitmap
      ensures Working(root) && Grows(old(pt.Value()), pt.Value(), root)
      ensures if Placed(top, size) then Ends(r, end, pt.Value(), root)
              else r == Failed(BadAddress) && pt.Value() == old(pt.Value())
      ensures r.Fine? ==> FreshRegion(old(pt.Value()), pt.Value(), root, top - size, size / PAGE_SIZE, true)
    {
      GrowsSelf(pt.Value(), root);
      if size == 0 || size % PAGE_SIZE != 0 || top < size || !IsUserVa(top - size) {
        return Failed(BadAddress);
      }
      r := MapUserRegion(root, top - size, size / PAGE_SIZE, true, s, end);
    }

    /** The PT_LOAD loop of `spawn_elf`. */
    method LoadSegments(root: nat, loads: seq<ProgramHeader>, raw: seq<byte>, ghost s: Progress) returns (r: Done)
      requires Working(root) && Follows(s, pt.Value(), root)
      requires forall j :: 0 <= j < |loads| ==> Loadable(loads[j], |raw|)
      modifies pt, pt.allocator, pt.allocator.bitmap
      ensures Working(root) && Grows(old(pt.Value()), pt.Value(), root)
      ensures Ends(r, Steps(s, LoadReqs(loads)), pt.Value(), root)
      ensures r.Fine? ==> SegmentsLoaded(pt.Value(), root, loads, raw)
    {
      ghost var was := pt.Value();
      GrowsSelf(was, root);
      var i := 0;
      ghost var now := s;
      assert loads[..|loads|] == loads;
      while i < |loads|
        invariant i <= |loads|
        invariant Working(root) && Grows(was, pt.Value(), root)
        invariant now == Steps(s, LoadReqs(loads[..i])) && Follows(now, pt.Value(), root)
        invariant SegmentsLoaded(pt.Value(), root, loads[..i], raw)
      {
        ghost var next := Steps(now, RegionReqs(loads[i].vaddr, PageSpan(loads[i])));
        r := LoadNext(root, loads, i, raw, now, next, was);
        now := next;
        LoadNextReqs(s, loads, i);
        if r.Failed? {
          LoadStops(s, loads, i + 1);
          return;
        }
        i := i + 1;
      }
      return Fine;
    }

    method LoadNext(root: nat, loads: seq<ProgramHeader>, i: nat, raw: seq<byte>, ghost s: Progress, ghost next: Progress,
                    ghost was: Vm) returns (r: Done)
      requires Working(root) && i < |loads| && Loadable(loads[i], |raw|)
      requires Paging.Valid(was) && Grows(was, pt.Value(), root)
      requires Follows(s, pt.Value(), root) && next == Steps(s, RegionReqs(loads[i].vaddr, PageSpan(loads[i])))
      requires SegmentsLoaded(pt.Value(), root, loads[..i], raw)
      modifies pt, pt.allocator, pt.allocator.bitmap
      ensures Working(root) && Grows(was, pt.Value(), root)
      ensures Ends(r, next, pt.Value(), root)
      ensures r.Fine? ==> SegmentsLoaded(pt.Value(), root, loads[..i + 1], raw)
    {
      ghost var before := pt.Value();
      r := LoadSegment(root, loads[i], raw, s, next);
      SegmentAdded(was, before, pt.Value(), r, root, loads, i, raw);
    }

    /** The boot stack and the segments. */
    method LoadImage(root: nat, image: Image, bottom: nat, top: nat, ghost s: Progress) returns (r: Done)
      requires Working(root) && Follows(s, pt.Value(), root) && BootReserved(pt.Value(), bottom, top)
      requires forall j :: 0 <= j < |image.loads| ==> Loadable(image.loads[j], |image.raw|)
      modifies pt, pt.allocator, pt.allocator.bitmap
      ensures Working(root) && Grows(old(pt.Value()), pt.Value(), root)
      ensures Ends(r, Steps(s, ImageReqs(image, bottom, top)), pt.Value(), root)
      ensures r.Fine? ==> Loaded(pt.Value(), root, image, bottom, top)
    {
      ghost var was := pt.Value();
      ghost var now := Steps(s, BootReqs(bottom, (top - bottom) / PAGE_SIZE));
      ImageSteps(s, image, bottom, top);
      r := MapBootStack(root, bottom, top, s);
      if r.Failed? {
        return;
      }
      ghost var booted := pt.Value();
      r := LoadSegments(root, image.loads, image.raw, now);
      GrowsTrans(was, booted, pt.Value(), root);
      BootStays(booted, pt.Value(), root, bottom, (top - bottom) / PAGE_SIZE);
    }

    /** The memory part of `spawn_elf` once the new root exists. */
    method FillSpace(root: nat, image: Image, k: Stacks, ghost s: Progress, ghost end: Progress)
      returns (r: Done)
      requires Working(root) && Follows(s, pt.Value(), root) && BootReserved(pt.Value(), k.bottom, k.top) && Sensible(k)
      requires end == Steps(s, ProcessReqs(image, k))
      requires forall j :: 0 <= j < |image.loads| ==> Loadable(image.loads[j], |image.raw|)
      modifies pt, pt.allocator, pt.allocator.bitmap
      ensures Working(root) && Grows(old(pt.Value()), pt.Value(), root) && Ends(r, end, pt.Value(), root)
      ensures r.Fine? ==> Filled(pt.Value(), root, image, k)
    {
      ghost var was := pt.Value();
      ghost var now := Steps(s, ImageReqs(image, k.bottom, k.top));
      ProcessSteps(s, image, k);
      r := LoadImage(root, image, k.bottom, k.top, s);
      if r.Fine? {
        ghost var loaded := pt.Value();
        r := AddStack(root, k, now, end);
        GrowsTrans(was, loaded, pt.Value(), root);
        StackAdded(r, loaded, pt.Value(), root, image, k);
      }
    }

    /** `map_user_stack` where the process is to have it. */
    method AddStack(root: nat, k: Stacks, ghost s: Progress, ghost end: Progress) returns (r: Done)
      requires Working(root) && Follows(s, pt.Value(), root)
      requires Sensible(k) && end == Steps(s, StackRegion(k.userTop, k.userSize))
      modifies pt, pt.allocator, pt.allocator.bitmap
      ensures Working(root) && Grows(old(pt.Value()), pt.Value(), root) && Ends(r, end, pt.Value(), root)
      ensures r.Fine? ==> FreshStack(old(pt.Value()), pt.Value(), root, k)
    {
      r := MapUserStack(root, k.userTop, k.userSize, s, end);
    }

    /** `alloc_user_address_space` and `FillSpace`; whatever happens, nothing that existed is touched. */
    method BuildSpace(kernel: nat, image: Image, k: Stacks) returns (r: Done, root: nat)
      requires Ready(kernel, k.bottom, k.top) && Sensible(k)
      requires forall j :: 0 <= j < |image.loads| ==> Loadable(image.loads[j], |image.raw|)
      modifies pt, pt.allocator, pt.allocator.bitmap
      ensures Ready(kernel, k.bottom, k.top)
      ensures NothingLost(old(pt.Value()), pt.Value())
      ensures r == Foreseen(|old(pt.Value()).free|, image, k)
      ensures r.Fine? ==> InPlace(old(pt.Value()), pt.Value(), root, kernel, image, k)
    {
      ghost var was := pt.Value();
      root := kernel;
      var space := pt.AllocUserSpace(kernel);
      if space.Err? {
        return Failed(PmAllocFailed), root;
      }
      root := space.value;
      ghost var blank := pt.Value();
      BlankSpace(was, blank, root, kernel);
      BlankFollows(was, blank, root, kernel);
      BlankBoot(was, blank, root, kernel, k.bottom, k.top);
      ghost var s := Going([], |was.free| - 1);
      r := FillSpace(root, image, k, s, Steps(s, ProcessReqs(image, k)));
      StepsOutcome(|was.free| - 1, ProcessReqs(image, k));
      FilledSpace(was, blank, pt.Value(), root, kernel);
      BootStaysReserved(blank, pt.Value(), root, k.bottom, k.top);
    }

    /** First empty slot. */
    method FindFreeSlot() returns (r: Option<nat>)
      ensures r == None <==> AllTaken(slots)
      ensures r.Some? ==> r.value < |slots| && slots[r.value].None? && forall i :: 0 <= i < r.value ==> slots[i].Some?
    {
      var i := 0;
      while i < |slots|
        invariant i <= |slots|
        invariant forall k :: 0 <= k < i ==> slots[k].Some?
      {
        if slots[i].None? {
          return Some(i);
        }
        i := i + 1;
      }
      return None;
    }

    /** `spawn_elf`: starts exactly when the file is acceptable, a slot is free and the plan works out,
        and reports the first of these to fail. A started process has its whole image in memory behind
        a root of its own; a failed call leaves the slots alone; either way no existing table or user
        frame changes by a single bit. */
    method SpawnElf(kernel: nat, bytes: seq<byte>, bottom: nat, top: nat) returns (r: Spawned)
      requires Ready(kernel, bottom, top)
      modifies this, pt, pt.allocator, pt.allocator.bitmap
      ensures Ready(kernel, bottom, top)
      ensures NothingLost(old(pt.Value()), pt.Value())
      ensures !Acceptable(bytes) ==> r.NotStarted? && r.error.BadElf? && Faulty(bytes, r.error.fault)
      ensures Acceptable(bytes) && AllTaken(old(slots)) ==> r == NotStarted(SlotsFull)
      ensures Acceptable(bytes) && !AllTaken(old(slots)) ==>
                var plan := Foreseen(|old(pt.Value()).free|, ImageOf(bytes), Stacks(bottom, top, STACK_TOP, STACK_SIZE));
                if plan.Fine? then r.Started? else r == NotStarted(plan.error)
      ensures r.NotStarted? ==> slots == old(slots)
      ensures r.Started? ==> Acceptable(bytes) && Recorded(old(slots), slots, r.id, ImageOf(bytes).entry, STACK_TOP, STACK_SIZE)
      ensures r.Started? ==> InPlace(old(pt.Value()), pt.Value(), slots[r.id].value.pml4, kernel, ImageOf(bytes),
                                     Stacks(bottom, top, STACK_TOP, STACK_SIZE))
    {
      var parsed := Parse(bytes);
      if parsed.Bad? {
        NothingLostSelf(pt.Value());
        return NotStarted(BadElf(parsed.error));
      }
      var slot := FindFreeSlot();
      if slot.None? {
        NothingLostSelf(pt.Value());
        return NotStarted(SlotsFull);
      }
      r := SpawnImage(kernel, parsed.image, slot.value, Stacks(bottom, top, STACK_TOP, STACK_SIZE));
    }

    method SpawnImage(kernel: nat, image: Image, slot: nat, k: Stacks) returns (r: Spawned)
      requires Ready(kernel, k.bottom, k.top) && Sensible(k) && slot < |slots| && slots[slot].None?
      requires forall i :: 0 <= i < slot ==> slots[i].Some?
      requires forall j :: 0 <= j < |image.loads| ==> Loadable(image.loads[j], |image.raw|)
      modifies this, pt, pt.allocator, pt.allocator.bitmap
      ensures Ready(kernel, k.bottom, k.top)
      ensures NothingLost(old(pt.Value()), pt.Value())
      ensures var plan := Foreseen(|old(pt.Value()).free|, image, k);
              if plan.Fine? then r.Started? else r == NotStarted(plan.error)
      ensures r.NotStarted? ==> slots == old(slots)
      ensures r.Started? ==> Recorded(old(slots), slots, r.id, image.entry, k.userTop, k.userSize)
      ensures r.Started? ==> InPlace(old(pt.Value()), pt.Value(), slots[r.id].value.pml4, kernel, image, k)
    {
      var done, root := BuildSpace(kernel, image, k);
      if done.Failed? {
        return NotStarted(done.error);
      }
      slots := slots[slot := Some(Process(slot, root, image.entry, k.userTop / 16 * 16, k.userTop - k.userSize, k.userTop))];
      return Started(slot);
    }

    /** Between calls: consistent tables, a kernel root, and a boot stack out of the allocator's reach. */
    ghost predicate Ready(kernel: nat, bottom: nat, top: nat)
      reads pt, pt.allocator, pt.allocator.bitmap
    {
      pt.Inv() && Root(pt.Value(), kernel) && Settled(pt.Value()) && BootReserved(pt.Value(), bottom, top)
    }
  }

  ghost predicate AllTaken(slots: seq<Option<Process>>) {
    forall i :: 0 <= i < |slots| ==> slots[i].Some?
  }

  /** The outcome of loading an image, from the frames that are free. */
  function Foreseen(frames: nat, image: Image, k: Stacks): Done
    requires Sensible(k)
  {
    Expected(frames, ProcessReqs(image, k))
  }

  /** An image can be loaded exactly when boot stack, segments and user stack ask for different, well
      placed pages and there are frames for the root, the user pages and the tables of all walks. */
  lemma ForeseenFine(frames: nat, image: Image, k: Stacks)
    requires Sensible(k)
    ensures Foreseen(frames, image, k).Fine?
       <==> Disjoint(ProcessReqs(image, k)) && 1 + Cost(ProcessReqs(image, k)) <= frames
  {
    ExpectedFine(frames, ProcessReqs(image, k));
  }

  /** Bit for bit what existed, and W^X if it held. */
  ghost predicate NothingLost(was: Vm, vm: Vm) {
    Untouched(was, vm) && (VmRuns.WxTables(was.tables) ==> VmRuns.WxTables(vm.tables))
  }

  lemma NothingLostSelf(vm: Vm)
    ensures NothingLost(vm, vm)
  {
  }

  /** The space grew and no leaf became writable and executable. */
  ghost predicate Grows(was: Vm, vm: Vm, root: nat) {
    Extends(was, vm, root) && (VmRuns.WxTables(was.tables) ==> VmRuns.WxTables(vm.tables))
  }

  lemma GrowsSelf(vm: Vm, root: nat)
    ensures Grows(vm, vm, root)
  {
    ExtendsSelf(vm, root);
  }

  lemma GrowsTrans(a: Vm, b: Vm, c: Vm, root: nat)
    requires Paging.Valid(a) && Grows(a, b, root) && Grows(b, c, root)
    ensures Grows(a, c, root)
  {
    ExtendsTrans(a, b, c, root);
  }

  lemma SameTablesFollow(s: Progress, vm: Vm, vm': Vm, root: nat)
    requires Follows(s, vm, root) && vm'.tables == vm.tables && vm'.free == vm.free
    ensures Follows(s, vm', root)
  {
    forall q ensures View(vm', root, q) == View(vm, root, q) {
    }
  }

  /** The first empty slot now holds the new process; the other slots are as before. */
  ghost predicate Recorded(was: seq<Option<Process>>, now: seq<Option<Process>>, id: nat, entry: nat, top: nat, size: nat) {
    && id < |was| == |now| && was[id].None? && (forall i :: 0 <= i < id ==> was[i].Some?)
    && now[id].Some? && now == was[id := now[id]]
    && now[id].value.id == id && now[id].value.entry == entry
    && now[id].value.rsp == top / 16 * 16 && now[id].value.stackTop == top
    && now[id].value.stackBottom == top - size
  }

  /** Cleared, writable, non-executable pages. */
  ghost predicate StackAt(vm: Vm, root: nat, base: nat, n: nat) {
    forall k :: 0 <= k < n ==> StackPage(vm, root, SegPage(base, k))
  }

  ghost predicate StackPage(vm: Vm, root: nat, q: Radix.Page) {
    PageBytes(vm, root, q) == Some(Zeros(PAGE_SIZE)) && View(vm, root, q).leaf.flags == UserFlags(true)
  }

  lemma StackFromRegion(was: Vm, vm: Vm, root: nat, base: nat, n: nat)
    requires FreshRegion(was, vm, root, base, n, true)
    ensures StackAt(vm, root, base, n)
  {
    forall k | 0 <= k < n
      ensures StackPage(vm, root, SegPage(base, k))
    {
      assert FreshPage(was, vm, root, base, k, true);
    }
  }

  /** The boot stack at its own address: kernel memory, writable, never executable. */
  ghost predicate BootMapped(vm: Vm, root: nat, bottom: nat, n: nat) {
    forall k :: 0 <= k < n ==> BootPage(vm, root, bottom, k)
  }

  ghost predicate BootPage(vm: Vm, root: nat, bottom: nat, k: nat) {
    AtHome(vm, root, bottom + k * PAGE_SIZE)
  }

  /** A page mapped at its own address, for the kernel only. */
  ghost predicate AtHome(vm: Vm, root: nat, va: nat) {
    var found := View(vm, root, PageOf(va));
    && found.Small? && found.leaf.frame * PAGE_SIZE == va
    && found.leaf.flags == Flags(
         present := true, writable := true, user := false, writeThrough := false, noCache := false,
         accessed := false, dirty := false, huge := false, global := false, noExecute := true)
  }

  lemma AtHomeAfter(vm: Vm, vm': Vm, root: nat, va: nat)
    requires Paging.Valid(vm) && Root(vm, root) && va < USER_LIMIT
    requires Out(vm', Ok(())) == MapPage(vm, root, va, va, KernelData())
    ensures AtHome(vm', root, va)
  {
    IdentityLeaf(va);
    MapPageView(vm, root, va, va, KernelData(), PageOf(va));
  }

  lemma BootStays(vm: Vm, vm': Vm, root: nat, bottom: nat, n: nat)
    requires BootMapped(vm, root, bottom, n) && Extends(vm, vm', root)
    ensures BootMapped(vm', root, bottom, n)
  {
    forall k | 0 <= k < n ensures BootPage(vm', root, bottom, k) {
      assert BootPage(vm, root, bottom, k);
    }
  }

  /** Each page of the mapped boot stack walks to itself. */
  lemma BootWalks(vm: Vm, root: nat, bottom: nat, n: nat, k: nat)
    requires BootMapped(vm, root, bottom, n) && k < n
    ensures WalkToPhys(vm.tables, root, bottom + k * PAGE_SIZE) == Some(bottom + k * PAGE_SIZE)
  {
    assert BootPage(vm, root, bottom, k);
  }

  ghost predicate Loaded(vm: Vm, root: nat, image: Image, bottom: nat, top: nat) {
    && bottom <= top && BootMapped(vm, root, bottom, (top - bottom) / PAGE_SIZE)
    && SegmentsLoaded(vm, root, image.loads, image.raw)
  }

  /** Everything a process finds below the kernel half. */
  ghost predicate Filled(vm: Vm, root: nat, image: Image, k: Stacks) {
    && Sensible(k) && Loaded(vm, root, image, k.bottom, k.top)
    && StackAt(vm, root, k.userTop - k.userSize, k.userSize / PAGE_SIZE)
  }

  lemma LoadedKept(vm: Vm, vm': Vm, root: nat, image: Image, bottom: nat, top: nat)
    requires Loaded(vm, root, image, bottom, top) && Extends(vm, vm', root)
    ensures Loaded(vm', root, image, bottom, top)
  {
    BootStays(vm, vm', root, bottom, (top - bottom) / PAGE_SIZE);
    SegmentsStay(vm, vm', root, image.loads, image.raw);
  }

  ghost predicate FreshStack(was: Vm, vm: Vm, root: nat, k: Stacks)
    requires Sensible(k)
  {
    FreshRegion(was, vm, root, k.userTop - k.userSize, k.userSize / PAGE_SIZE, true)
  }

  lemma StackAdded(r: Done, loaded: Vm, vm: Vm, root: nat, image: Image, k: Stacks)
    requires Sensible(k) && Grows(loaded, vm, root) && Loaded(loaded, root, image, k.bottom, k.top)
    requires r.Fine? ==> FreshStack(loaded, vm, root, k)
    ensures r.Fine? ==> Filled(vm, root, image, k)
  {
    if r.Fine? {
      LoadedKept(loaded, vm, root, image, k.bottom, k.top);
      StackFromRegion(loaded, vm, root, k.userTop - k.userSize, k.userSize / PAGE_SIZE);
    }
  }

  /** A fresh root with the boot stack, the image, the user stack and the kernel half, and every
      frame accounted for. */
  ghost predicate InPlace(was: Vm, vm: Vm, root: nat, kernel: nat, image: Image, k: Stacks) {
    && root in was.free && Root(vm, root)
    && Filled(vm, root, image, k)
    && |vm.free| + 1 + Cost(ProcessReqs(image, k)) == |was.free|
    && forall q :: !Lower(q) ==> View(vm, root, q) == View(was, kernel, q)
  }

  lemma BlankSpace(was: Vm, vm: Vm, root: nat, kernel: nat)
    requires Paging.Valid(was) && Root(was, kernel) && Settled(was)
    requires Out(vm, Ok(root)) == NewSpace(was, kernel)
    ensures Blank(was, vm, root, kernel)
  {
    NewSpaceView(was, kernel);
    forall q, f ensures !Holds(vm, root, q, f) {
    }
  }

  lemma BlankFollows(was: Vm, vm: Vm, root: nat, kernel: nat)
    requires Paging.Valid(was) && Root(was, kernel)
    requires Out(vm, Ok(root)) == NewSpace(was, kernel) && Blank(was, vm, root, kernel)
    ensures Follows(Going([], |was.free| - 1), vm, root)
    ensures VmRuns.WxTables(was.tables) ==> VmRuns.WxTables(vm.tables)
  {
    if VmRuns.WxTables(was.tables) {
      VmRuns.NewSpaceWx(was, kernel);
    }
    assert |was.free - {root}| == |was.free| - 1;
    forall q | Radix.InRange(q) && Lower(q) ensures Radix.Built(vm.tables, root, q) == 0 {
      NewSpaceEmpty(was, kernel, q.i0);
    }
  }

  lemma BlankBoot(was: Vm, vm: Vm, root: nat, kernel: nat, bottom: nat, top: nat)
    requires Blank(was, vm, root, kernel) && BootReserved(was, bottom, top)
    ensures BootReserved(vm, bottom, top)
  {
    forall va | bottom <= va < top
      ensures Reserved(vm, va)
    {
      assert Reserved(was, va);
    }
  }

  ghost predicate Reserved(vm: Vm, va: nat) {
    va / PAGE_SIZE !in vm.free && va / PAGE_SIZE !in vm.data
  }

  /** The boot stack lies below the user limit in frames the allocator never hands out. */
  ghost predicate BootReserved(vm: Vm, bottom: nat, top: nat) {
    bottom <= top <= USER_LIMIT && forall va :: bottom <= va < top ==> Reserved(vm, va)
  }

  lemma BootStaysReserved(vm: Vm, vm': Vm, root: nat, bottom: nat, top: nat)
    requires BootReserved(vm, bottom, top) && Extends(vm, vm', root)
    ensures BootReserved(vm', bottom, top)
  {
    forall va | bottom <= va < top
      ensures Reserved(vm', va)
    {
      assert Reserved(vm, va);
    }
  }

  lemma MapGrows(vm: Vm, vm': Vm, root: nat, va: nat, pa: nat, flags: Flags, res: Res<()>)
    requires Paging.Valid(vm) && Root(vm, root) && Out(vm', res) == MapPage(vm, root, va, pa, flags)
    ensures VmRuns.WxTables(vm.tables) ==> VmRuns.WxTables(vm'.tables)
  {
    if VmRuns.WxTables(vm.tables) {
      VmRuns.StepWx(vm, VmRuns.MapCall(root, va, pa, flags));
    }
  }

  lemma PageAdded(s: Progress, was: Vm, f: nat, vm: Vm, res: Res<()>, root: nat, va: nat, writable: bool)
    requires Tidy(was, root) && f in was.free && Paging.Valid(Claim(was, f)) && Root(Claim(was, f), root)
    requires Follows(s, was, root) && Out(vm, res) == MapUserPage(Claim(was, f), root, va, f * PAGE_SIZE, writable)
    ensures Tidy(vm, root) && Grows(was, vm, root)
    ensures Ends(if res.Ok? then Fine else Failed(Mmu(res.error)), Then(s, User(va)), vm, root)
    ensures res.Ok? ==> IsUserVa(va) && FreshPage(was, vm, root, va, 0, writable)
  {
    UserPageStep(was, root, f, va, writable);
    UserFollows(s, was, root, f, va, writable);
    if IsUserVa(va) {
      MapGrows(Claim(was, f), vm, root, va, f * PAGE_SIZE, UserFlags(writable), res);
    }
  }

  lemma BootGrows(was: Vm, before: Vm, vm: Vm, r: Done, root: nat, bottom: nat, top: nat, i: nat, va: nat)
    requires Paging.Valid(was) && Grows(was, before, root) && Grows(before, vm, root) && BootReserved(before, bottom, top)
    requires BootMapped(before, root, bottom, i) && va == bottom + i * PAGE_SIZE && (r.Fine? ==> AtHome(vm, root, va))
    ensures Grows(was, vm, root) && BootReserved(vm, bottom, top)
    ensures r.Fine? ==> BootMapped(vm, root, bottom, i + 1)
  {
    GrowsTrans(was, before, vm, root);
    BootStaysReserved(before, vm, root, bottom, top);
    BootStays(before, vm, root, bottom, i);
  }

  lemma RegionGrows(was: Vm, before: Vm, vm: Vm, r: Done, root: nat, base: nat, i: nat, writable: bool)
    requires Paging.Valid(was) && Grows(was, before, root) && Grows(before, vm, root)
    requires FreshRegion(was, before, root, base, i, writable)
    requires r.Fine? ==> FreshPage(before, vm, root, base + i * PAGE_SIZE, 0, writable)
    ensures Grows(was, vm, root)
    ensures r.Fine? ==> FreshRegion(was, vm, root, base, i + 1, writable)
  {
    GrowsTrans(was, before, vm, root);
    if r.Fine? {
      FreshRegionNext(was, before, vm, root, base, i, writable);
    }
  }

  lemma FreshRegionNext(was: Vm, before: Vm, vm: Vm, root: nat, base: nat, i: nat, writable: bool)
    requires Extends(was, before, root) && Extends(before, vm, root)
    requires FreshRegion(was, before, root, base, i, writable)
    requires FreshPage(before, vm, root, base + i * PAGE_SIZE, 0, writable)
    ensures FreshRegion(was, vm, root, base, i + 1, writable)
  {
    forall k | 0 <= k < i + 1
      ensures FreshPage(was, vm, root, base, k, writable)
    {
      if k < i {
        FreshStays(was, before, vm, root, base, k, writable);
      }
    }
  }

  lemma SegmentAdded(was: Vm, before: Vm, vm: Vm, r: Done, root: nat, loads: seq<ProgramHeader>, i: nat, raw: seq<byte>)
    requires i < |loads| && Loadable(loads[i], |raw|)
    requires Paging.Valid(was) && Grows(was, before, root) && Grows(before, vm, root)
    requires SegmentsLoaded(before, root, loads[..i], raw) && (r.Fine? ==> SegmentLoaded(vm, root, loads[i], raw))
    ensures Grows(was, vm, root)
    ensures r.Fine? ==> SegmentsLoaded(vm, root, loads[..i + 1], raw)
  {
    GrowsTrans(was, before, vm, root);
    SegmentsStay(before, vm, root, loads[..i], raw);
    assert loads[..i + 1] == loads[..i] + [loads[i]];
  }
}
