/** The page tables as the kernel keeps them: table frames in memory, updated in place, drawing
    new frames from the bitmap allocator.  Each method is proved equal to its function on `Vm`.
 */
module AddressSpace {
  import opened Radix
  import opened Paging
  import opened LinearMap
  import opened Spaces
  import opened VmRuns
  import opened Allocator
  import opened Words

  class PageTables {
    var tables: Tables<Leaf>
    var data: map<nat, seq<byte>>
    const allocator: BitmapFrameAllocator
    ghost var tags: Tags

    ghost function Value(): Vm
      reads this, allocator
    {
      Vm(tables, data, allocator.free, tags)
    }

    ghost predicate Inv()
      reads this, allocator, allocator.bitmap
    {
      allocator.Valid() && Paging.Valid(Value())
    }

    /** Boot: one empty kernel root in a frame that the allocator has reserved. */
    constructor (a: BitmapFrameAllocator, kernel: nat)
      requires a.Valid() && kernel !in a.free
      ensures allocator == a && Inv() && Root(Value(), kernel) && data == map[]
      ensures tables == map[kernel := EmptyTable()] && tags == map[kernel := T0(kernel)]
      ensures forall p :: View(Value(), kernel, p) == Missing
    {
      allocator := a;
      tables := map[kernel := EmptyTable()];
      data := map[];
      tags := map[kernel := T0(kernel)];
    }

    method AllocOrGetTable(table: nat, index: nat) returns (r: Res<nat>)
      requires Inv() && TableAt(Value(), table, index)
      modifies this, allocator, allocator.bitmap
      ensures allocator.Valid()
      ensures Out(Value(), r) == AllocOrGet(old(Value()), table, index)
    {
      var entry := tables[table][index];
      if entry.Block? {
        return Err(AlreadyMapped);
      }
      if entry.Next? {
        return Ok(entry.frame);
      }
      var frame := allocator.Alloc();
      if frame.NoFrame? {
        return Err(FrameAllocFailed);
      }
      var f := frame.frame;
      data := data - {f};
      tables := tables[table := tables[table][index := Next(f)]];
      tables := tables[f := EmptyTable()];
      tags := tags[f := Child(tags[table], index, KERNEL_HALF)];
      return Ok(f);
    }

    /** The walk shared by `map_page` (three levels) and `map_2mib_page` (two levels). */
    method WalkTo(root: nat, p: Page, d: nat) returns (r: Res<nat>)
      requires Inv() && Root(Value(), root) && InRange(p) && d <= 3
      modifies this, allocator, allocator.bitmap
      ensures Inv()
      ensures Out(Value(), r) == TableFor(old(Value()), root, p, d)
    {
      ghost var v0 := Value();
      var table, k := root, 0;
      while k < d
        invariant k <= d && Inv()
        invariant Out(Value(), Ok(table)) == TableFor(v0, root, p, k)
      {
        Descend(Value(), root, p, k, table);
        r := AllocOrGetTable(table, Index(p, k));
        k := k + 1;
        if r.Err? {
          TableForStops(v0, root, p, k, d);
          return;
        }
        table := r.value;
      }
      return Ok(table);
    }

    method MapPage(root: nat, va: nat, pa: nat, flags: Flags) returns (r: Res<()>)
      requires Inv() && Root(Value(), root)
      modifies this, allocator, allocator.bitmap
      ensures Inv() && Root(Value(), root)
      ensures Out(Value(), r) == Paging.MapPage(old(Value()), root, va, pa, flags)
    {
      if va % PAGE_SIZE != 0 || pa % PAGE_SIZE != 0 {
        return Err(UnalignedAddress);
      }
      if flags.writable && !flags.noExecute {
        return Err(WxPolicyViolation);
      }
      r := MapLeaf(root, PageOf(va), SmallLeaf(pa, flags.(present := true)), false);
    }

    method MapLeaf(root: nat, p: Page, leaf: Leaf, large: bool) returns (r: Res<()>)
      requires Inv() && Root(Value(), root) && InRange(p)
      modifies this, allocator, allocator.bitmap
      ensures Inv() && Root(Value(), root)
      ensures Out(Value(), r) == MapAt(old(Value()), root, p, leaf, large)
    {
      MapAtRefines(Value(), root, p, leaf, large);
      var d := LeafDepth(large);
      var table := WalkTo(root, p, d);
      if table.Err? {
        return Err(table.error);
      }
      WalkingTag(Value(), root, p, d, table.value);
      if !tables[table.value][Index(p, d)].Absent? {
        return Err(AlreadyMapped);
      }
      tables := tables[table.value := tables[table.value][Index(p, d) := Block(leaf)]];
      return Ok(());
    }

    method MapUserPage(root: nat, va: nat, pa: nat, writable: bool) returns (r: Res<()>)
      requires Inv() && Root(Value(), root)
      modifies this, allocator, allocator.bitmap
      ensures Inv() && Root(Value(), root)
      ensures Out(Value(), r) == Paging.MapUserPage(old(Value()), root, va, pa, writable)
      ensures r.Ok? ==> UserLeafAt(tables, root, PageOf(va), writable)
    {
      ghost var vm := Value();
      if !IsUserVa(va) {
        return Err(UnalignedAddress);
      }
      r := MapPage(root, va, pa, UserFlags(writable));
      if r.Ok? {
        UserPageMapped(vm, root, va, pa, writable);
      }
    }

    method Map2MiBPage(root: nat, va: nat, pa: nat, flags: Flags) returns (r: Res<()>)
      requires Inv() && Root(Value(), root)
      modifies this, allocator, allocator.bitmap
      ensures Inv() && Root(Value(), root)
      ensures Out(Value(), r) == Map2MiB(old(Value()), root, va, pa, flags)
    {
      if va % SIZE_2MIB != 0 || pa % SIZE_2MIB != 0 {
        return Err(UnalignedAddress);
      }
      if flags.writable && !flags.noExecute {
        return Err(WxPolicyViolation);
      }
      r := MapLeaf(root, PageOf(va), LargeLeaf(pa, flags.(present := true, huge := true)), true);
    }

    /** A fresh, cleared root frame. */
    method NewRoot() returns (r: AllocResult)
      requires Inv()
      modifies this, allocator, allocator.bitmap
      ensures allocator.Valid() && r == Given(old(allocator.free))
      ensures Value() == if r.Frame? then WithRoot(old(Value()), r.frame) else old(Value())
    {
      r := allocator.Alloc();
      if r.Frame? {
        data := data - {r.frame};
        tables := tables[r.frame := EmptyTable()];
        tags := tags[r.frame := T0(r.frame)];
      }
    }

    method InheritKernelMappings(from: nat, to: nat)
      requires Inv() && Root(Value(), from) && Root(Value(), to)
      modifies this
      ensures Value() == Inherit(old(Value()), from, to)
    {
      ghost var mine, theirs := tables[to], tables[from];
      var i := KERNEL_HALF;
      while i < ENTRIES
        invariant KERNEL_HALF <= i <= ENTRIES
        invariant tables == old(tables)[to := HalfCopied(mine, theirs, i)]
        invariant data == old(data) && tags == old(tags)
      {
        HalfCopiedStep(mine, theirs, i);
        tables := tables[to := tables[to][i := tables[from][i]]];
        i := i + 1;
      }
    }

    /** `alloc_user_address_space`, up to the inherited kernel half. */
    method AllocUserSpace(kernel: nat) returns (r: Res<nat>)
      requires Inv() && Root(Value(), kernel)
      modifies this, allocator, allocator.bitmap
      ensures allocator.Valid()
      ensures Out(Value(), r) == NewSpace(old(Value()), kernel)
    {
      ghost var vm := Value();
      var frame := NewRoot();
      if frame.NoFrame? {
        return Err(FrameAllocFailed);
      }
      WithRootValid(vm, frame.frame);
      InheritKernelMappings(kernel, frame.frame);
      return Ok(frame.frame);
    }

    /** One call of a run. */
    method Perform(c: Call) returns (r: Res<()>)
      requires Inv() && Root(Value(), c.root)
      modifies this, allocator, allocator.bitmap
      ensures Inv() && Out(Value(), r) == Step(old(Value()), c)
    {
      ghost var before := Value();
      match c {
        case MapCall(root, va, pa, flags) => r := MapPage(root, va, pa, flags);
        case UserCall(root, va, pa, writable) => r := MapUserPage(root, va, pa, writable);
        case LargeCall(root, va, pa, flags) => r := Map2MiBPage(root, va, pa, flags);
        case SpaceCall(root) =>
          var space := AllocUserSpace(root);
          r := if space.Ok? then Ok(()) else Err(space.error);
      }
      StepPreserves(before, c);
    }

    /** Every run of calls on the tables in place is the run on the value. */
    method Replay(cs: seq<Call>) returns (oks: seq<bool>)
      requires Inv() && Runs(Value(), cs)
      modifies this, allocator, allocator.bitmap
      ensures Inv() && Value() == Final(old(Value()), cs) && oks == Results(old(Value()), cs)
    {
      oks := [];
      var k := 0;
      assert cs[0..] == cs;
      while k < |cs|
        invariant k <= |cs| && Inv() && Runs(Value(), cs[k..])
        invariant Final(old(Value()), cs) == Final(Value(), cs[k..])
        invariant Results(old(Value()), cs) == oks + Results(Value(), cs[k..])
      {
        assert cs[k..][1..] == cs[k + 1..];
        var r := Perform(cs[k]);
        oks := oks + [r.Ok?];
        k := k + 1;
      }
    }

    /** The loop is a run of 2 MiB calls up to the first that fails. On success every physical address
        below `highest` and 4 GiB is linearly mapped; in any case nothing that was there is lost. */
    method BuildLinearMap(root: nat, offset: nat, highest: nat) returns (r: Res<()>, ghost n: nat)
      requires Inv() && Root(Value(), root)
      requires PageCount(highest) > 0 ==> offset + (PageCount(highest) - 1) * SIZE_2MIB < U64_LIMIT
      modifies this, allocator, allocator.bitmap
      ensures Inv() && Root(Value(), root) && Preserves(old(Value()), Value())
      ensures if r.Ok? then n == PageCount(highest) && LinearRun(old(Value()), Value(), root, offset, n)
              else n <= PageCount(highest) && LinearBreak(old(Value()), Value(), root, offset, n)
      ensures r.Ok? ==> forall phys :: 0 <= phys < highest && phys < MAX_MAPPABLE_PHYS ==> Linear(tables, root, offset, phys)
    {
      ghost var vm := Value();
      var pageCount := PageCount(highest);
      var i := 0;
      n := 0;
      while i < pageCount
        invariant i == n <= pageCount
        invariant Inv() && Root(Value(), root) && LinearRun(vm, Value(), root, offset, n)
        invariant AllMapped(Value(), root, offset, i)
        invariant i > 0 ==> offset % SIZE_2MIB == 0
      {
        ghost var before := Value();
        r := MapRegion(root, offset, i);
        LinearNext(vm, before, Value(), r, root, offset, n);
        n := n + 1;
        if r.Err? {
          return;
        }
        i := i + 1;
      }
      LinearPreserves(vm, Value(), root, offset, n);
      if pageCount > 0 {
        AllLinear(Value(), root, offset, highest);
      }
      r := Ok(());
    }

    method MapRegion(root: nat, offset: nat, i: nat) returns (r: Res<()>)
      requires Inv() && Root(Value(), root) && AllMapped(Value(), root, offset, i)
      modifies this, allocator, allocator.bitmap
      ensures Inv() && Root(Value(), root)
      ensures Out(Value(), r) == Step(old(Value()), LinearCall(root, offset, i))
      ensures r.Ok? ==> AllMapped(Value(), root, offset, i + 1) && offset % SIZE_2MIB == 0
    {
      ghost var before := Value();
      r := Map2MiBPage(root, offset + i * SIZE_2MIB, i * SIZE_2MIB, KernelData());
      RegionCalled(before, Value(), r, root, offset, i);
    }
  }

  lemma RegionCalled(vm: Vm, vm': Vm, r: Res<()>, root: nat, offset: nat, i: nat)
    requires Paging.Valid(vm) && Root(vm, root) && AllMapped(vm, root, offset, i)
    requires Out(vm', r) == Map2MiB(vm, root, offset + i * SIZE_2MIB, i * SIZE_2MIB, KernelData())
    ensures Out(vm', r) == Step(vm, LinearCall(root, offset, i))
    ensures r.Ok? ==> AllMapped(vm', root, offset, i + 1) && offset % SIZE_2MIB == 0
  {
    if r.Ok? {
      RegionStep(vm, vm', root, offset, i);
      AlignedOffset(offset, i);
    }
  }

  /** The first `n` regions were asked for and all were mapped. */
  ghost predicate LinearRun(vm: Vm, now: Vm, root: nat, offset: nat, n: nat) {
    var cs := LinearCalls(root, offset, n);
    Runs(vm, cs) && now == Final(vm, cs) && AllTrue(Results(vm, cs))
  }

  /** The first `n` regions were asked for and only the last was refused. */
  ghost predicate LinearBreak(vm: Vm, now: Vm, root: nat, offset: nat, n: nat) {
    var cs := LinearCalls(root, offset, n);
    n > 0 && Runs(vm, cs) && now == Final(vm, cs) && AllTrue(Results(vm, cs)[..n - 1]) && !Results(vm, cs)[n - 1]
  }

  lemma LinearNext(vm: Vm, now: Vm, next: Vm, r: Res<()>, root: nat, offset: nat, n: nat)
    requires Paging.Valid(vm) && Paging.Valid(now) && Root(now, root) && LinearRun(vm, now, root, offset, n)
    requires Out(next, r) == Step(now, LinearCall(root, offset, n))
    ensures if r.Ok? then LinearRun(vm, next, root, offset, n + 1)
            else LinearBreak(vm, next, root, offset, n + 1) && Preserves(vm, next)
  {
    var cs := LinearCalls(root, offset, n);
    RunNext(vm, cs, LinearCall(root, offset, n));
    assert (Results(vm, cs) + [r.Ok?])[..n] == Results(vm, cs);
    if r.Err? {
      RunPreserves(vm, LinearCalls(root, offset, n + 1));
    }
  }

  lemma LinearPreserves(vm: Vm, now: Vm, root: nat, offset: nat, n: nat)
    requires Paging.Valid(vm) && LinearRun(vm, now, root, offset, n)
    ensures Preserves(vm, now)
  {
    RunPreserves(vm, LinearCalls(root, offset, n));
  }

  ghost predicate AllTrue(bs: seq<bool>) {
    forall k | 0 <= k < |bs| :: bs[k]
  }

  function LinearCall(root: nat, offset: nat, i: nat): Call {
    LargeCall(root, offset + i * SIZE_2MIB, i * SIZE_2MIB, KernelData())
  }

  /** The first `n` regions of the linear map. */
  function LinearCalls(root: nat, offset: nat, n: nat): (cs: seq<Call>)
    ensures |cs| == n && forall i | 0 <= i < n :: cs[i] == LinearCall(root, offset, i)
    ensures n > 0 ==> cs == LinearCalls(root, offset, n - 1) + [LinearCall(root, offset, n - 1)]
  {
    if n == 0 then [] else LinearCalls(root, offset, n - 1) + [LinearCall(root, offset, n - 1)]
  }

  lemma AlignedOffset(offset: nat, i: nat)
    requires (offset + i * SIZE_2MIB) % SIZE_2MIB == 0
    ensures offset % SIZE_2MIB == 0
  {
  }

  /** The receiving root after entries `KERNEL_HALF..i` have been copied. */
  ghost function HalfCopied(mine: seq<Slot<Leaf>>, theirs: seq<Slot<Leaf>>, i: nat): (s: seq<Slot<Leaf>>)
    requires |mine| == |theirs| == ENTRIES && KERNEL_HALF <= i <= ENTRIES
    ensures |s| == ENTRIES
    ensures i == KERNEL_HALF ==> s == mine
    ensures i == ENTRIES ==> s == mine[..KERNEL_HALF] + theirs[KERNEL_HALF..]
  {
    mine[..KERNEL_HALF] + theirs[KERNEL_HALF..i] + mine[i..]
  }

  lemma HalfCopiedStep(mine: seq<Slot<Leaf>>, theirs: seq<Slot<Leaf>>, i: nat)
    requires |mine| == |theirs| == ENTRIES && KERNEL_HALF <= i < ENTRIES
    ensures HalfCopied(mine, theirs, i)[i := theirs[i]] == HalfCopied(mine, theirs, i + 1)
    ensures mine == theirs ==> HalfCopied(mine, theirs, i)[i] == theirs[i]
  {
  }

  /** A failed descent stays failed. */
  lemma {:induction false} TableForStops(vm: Vm, root: nat, p: Page, k: nat, d: nat)
    requires Paging.Valid(vm) && Root(vm, root) && InRange(p) && k <= d <= 3
    requires TableFor(vm, root, p, k).res.Err?
    ensures TableFor(vm, root, p, d) == TableFor(vm, root, p, k)
  {
    if k < d {
      TableForStops(vm, root, p, k, d - 1);
    }
  }
}
