/** Many address spaces over one allocator: creation of user spaces, isolation, and sharing of
    the kernel half.
 */
module Spaces {
  import opened Radix
  import opened Paging
  import Allocator

  //
  // A new user space: fresh root, kernel half inherited
  //

  ghost function WithRoot(vm: Vm, f: nat): Vm {
    Vm(vm.tables[f := EmptyTable()], vm.data - {f}, vm.free - {f}, vm.tags[f := T0(f)])
  }

  lemma WithRootValid(vm: Vm, f: nat)
    requires Valid(vm) && f in vm.free
    ensures Valid(WithRoot(vm, f)) && Root(WithRoot(vm, f), f)
    ensures forall r :: Root(vm, r) ==> Root(WithRoot(vm, f), r)
  {
    NewRootWellTagged(vm.tables, vm.tags, KERNEL_HALF, f);
  }

  /** `inherit_kernel_mappings`. */
  ghost function Inherit(vm: Vm, from: nat, to: nat): Vm
    requires Valid(vm) && Root(vm, from) && Root(vm, to)
  {
    vm.(tables := CopyShared(vm.tables, KERNEL_HALF, from, to))
  }

  /** `alloc_user_address_space`, up to the inherited kernel half. */
  ghost function NewSpace(vm: Vm, kernel: nat): Out<nat>
    requires Valid(vm) && Root(vm, kernel)
  {
    if vm.free == {} then Out(vm, Err(FrameAllocFailed))
    else
      var f := Allocator.Lowest(vm.free);
      WithRootValid(vm, f);
      Out(Inherit(WithRoot(vm, f), kernel, f), Ok(f))
  }

  /** The lower half of a new root has no entries at all. */
  lemma NewSpaceEmpty(vm: Vm, kernel: nat, i: nat)
    requires Valid(vm) && Root(vm, kernel) && vm.free != {} && i < KERNEL_HALF
    ensures var out := NewSpace(vm, kernel); out.res.Ok? && At(out.vm.tables, out.res.value, i) == Absent
  {
    var f := Allocator.Lowest(vm.free);
    WithRootValid(vm, f);
  }

  /** The new space reads the kernel's upper half and nothing below; every existing space and
      every frame content is as before. */
  lemma NewSpaceView(vm: Vm, kernel: nat)
    requires Valid(vm) && Root(vm, kernel) && vm.free != {}
    ensures var out := NewSpace(vm, kernel);
      && Valid(out.vm) && out.res.Ok? && out.res.value in vm.free && Root(out.vm, out.res.value)
      && out.vm.data == vm.data && out.vm.free == vm.free - {out.res.value}
      && (forall f :: f in vm.tags ==> f in out.vm.tags && out.vm.tags[f] == vm.tags[f] && out.vm.tables[f] == vm.tables[f])
      && (forall q :: View(out.vm, out.res.value, q) == if q.i0 < KERNEL_HALF then Missing else View(vm, kernel, q))
      && (forall r, q :: Root(vm, r) ==> View(out.vm, r, q) == View(vm, r, q))
  {
    var f := Allocator.Lowest(vm.free);
    var mid := WithRoot(vm, f);
    WithRootValid(vm, f);
    CopySharedWellTagged(mid.tables, mid.tags, KERNEL_HALF, kernel, f);
    forall r, q | Root(mid, r)
      ensures Lookup(CopyShared(mid.tables, KERNEL_HALF, kernel, f), r, q)
           == if r != f then View(vm, r, q) else if q.i0 < KERNEL_HALF then Missing else View(vm, kernel, q)
    {
      CopySharedLookup(mid.tables, mid.tags, KERNEL_HALF, kernel, f, r, q);
      NewRootLookup(vm.tables, vm.tags, KERNEL_HALF, f, if r == f then kernel else r, q);
    }
  }

  //
  // Isolation
  //

  lemma ConfinedIsolated(vm: Vm, vm': Vm, root: nat, i0: nat)
    requires Valid(vm) && Confined(vm, vm', root, i0) && i0 < KERNEL_HALF
    ensures forall f :: f in vm.tables && OwnerOf(vm.tags[f]) != Private(root) ==>
              f in vm'.tables && vm'.tables[f] == vm.tables[f]
  {
  }

  lemma MapsOnlyElsewhere(vm: Vm, vm': Vm, root: nat, p: Page, leaf: Leaf, r: nat, q: Page)
    requires MapsOnly(vm, vm', root, p, leaf, false) && Root(vm, r) && p.i0 < KERNEL_HALF
    requires r != root || KERNEL_HALF <= q.i0
    ensures View(vm', r, q) == View(vm, r, q)
  {
    assert !(Covers(p, false, q) && Sees(r, root, p.i0));
  }

  lemma LowerMapIsolated(vm: Vm, root: nat, p: Page, leaf: Leaf, r: nat, q: Page)
    requires Valid(vm) && Root(vm, root) && Root(vm, r) && InRange(p) && p.i0 < KERNEL_HALF
    requires r != root || KERNEL_HALF <= q.i0
    ensures var out := MapAt(vm, root, p, leaf, false);
      && View(out.vm, r, q) == View(vm, r, q)
      && (forall f :: f in vm.tables && OwnerOf(vm.tags[f]) != Private(root) ==>
            f in out.vm.tables && out.vm.tables[f] == vm.tables[f])
  {
    MapAtRefines(vm, root, p, leaf, false);
    var out := MapAt(vm, root, p, leaf, false);
    ConfinedIsolated(vm, out.vm, root, p.i0);
    if out.res.Ok? {
      MapsOnlyElsewhere(vm, out.vm, root, p, leaf, r, q);
    }
  }

  /** Mapping a user page in one space changes no lookup of any other space, no upper-half
      lookup of its own, and no table outside its own lower half. */
  lemma UserMapIsolated(vm: Vm, root: nat, va: nat, pa: nat, writable: bool, r: nat, q: Page)
    requires Valid(vm) && Root(vm, root) && Root(vm, r)
    requires r != root || KERNEL_HALF <= q.i0
    ensures var out := MapUserPage(vm, root, va, pa, writable);
      && View(out.vm, r, q) == View(vm, r, q)
      && (forall f :: f in vm.tables && OwnerOf(vm.tags[f]) != Private(root) ==>
            f in out.vm.tables && out.vm.tables[f] == vm.tables[f])
  {
    if IsUserVa(va) {
      UserHalf(va);
      LowerMapIsolated(vm, root, PageOf(va), SmallLeaf(pa, UserFlags(writable)), r, q);
      assert UserFlags(writable).(present := true) == UserFlags(writable);
    }
  }

  /** The upper half of `r` is the upper half of the kernel root. */
  ghost predicate SharesKernel(vm: Vm, r: nat, kernel: nat) {
    && Root(vm, r) && Root(vm, kernel) && r in vm.tables && kernel in vm.tables
    && forall i :: KERNEL_HALF <= i < ENTRIES ==> At(vm.tables, r, i) == At(vm.tables, kernel, i)
  }

  lemma NewSpaceShares(vm: Vm, kernel: nat)
    requires Valid(vm) && Root(vm, kernel) && vm.free != {}
    ensures SharesKernel(NewSpace(vm, kernel).vm, NewSpace(vm, kernel).res.value, kernel)
  {
    NewSpaceView(vm, kernel);
  }

  /** A user mapping in any space keeps every sharing relation. */
  lemma UserMapKeepsSharing(vm: Vm, root: nat, va: nat, pa: nat, writable: bool, r: nat, kernel: nat)
    requires Valid(vm) && Root(vm, root) && SharesKernel(vm, r, kernel)
    ensures SharesKernel(MapUserPage(vm, root, va, pa, writable).vm, r, kernel)
  {
    if IsUserVa(va) {
      UserHalf(va);
      var p := PageOf(va);
      var leaf := SmallLeaf(pa, UserFlags(writable));
      MapAtRefines(vm, root, p, leaf, false);
      MapAtRootEntries(vm, root, p, leaf, false);
      assert UserFlags(writable).(present := true) == UserFlags(writable);
    }
  }

  /** Root entries only change where the walk starts, and only from empty to present. */
  ghost predicate RootEntriesKept(vm: Vm, ts': Tables<Leaf>, root: nat, i0: nat) {
    forall r, i :: Root(vm, r) && (r != root || i != i0 || At(vm.tables, r, i).Next?) ==>
      At(ts', r, i) == At(vm.tables, r, i)
  }

  lemma AllocRootEntries(vm: Vm, root: nat, p: Page, d: nat, g: nat)
    requires Walking(vm, root, p, d, g) && d < 3 && TableAt(vm, g, Index(p, d))
    ensures RootEntriesKept(vm, AllocOrGet(vm, g, Index(p, d)).vm.tables, root, p.i0)
  {
    WalkingTag(vm, root, p, d, g);
  }

  lemma {:induction false} TableForRootEntries(vm: Vm, root: nat, p: Page, d: nat)
    requires Valid(vm) && Root(vm, root) && InRange(p) && d <= 3
    ensures RootEntriesKept(vm, TableFor(vm, root, p, d).vm.tables, root, p.i0)
  {
    if d > 0 {
      TableForRootEntries(vm, root, p, d - 1);
      var o := TableFor(vm, root, p, d - 1);
      if o.res.Ok? {
        TableForGrown(vm, root, p, d - 1);
        Descend(o.vm, root, p, d - 1, o.res.value);
        EntriesAfter(vm, o.vm, root, p, d - 1, o.res.value);
      }
    }
  }

  lemma EntriesAfter(vm: Vm, mid: Vm, root: nat, p: Page, d: nat, g: nat)
    requires RootEntriesKept(vm, mid.tables, root, p.i0) && forall r :: Root(vm, r) ==> Root(mid, r)
    requires Walking(mid, root, p, d, g) && d < 3 && TableAt(mid, g, Index(p, d))
    ensures RootEntriesKept(vm, AllocOrGet(mid, g, Index(p, d)).vm.tables, root, p.i0)
  {
    AllocRootEntries(mid, root, p, d, g);
    var ts' := AllocOrGet(mid, g, Index(p, d)).vm.tables;
    forall r, i | Root(vm, r) && (r != root || i != p.i0 || At(vm.tables, r, i).Next?)
      ensures At(ts', r, i) == At(vm.tables, r, i)
    {
      assert Root(mid, r) && At(mid.tables, r, i) == At(vm.tables, r, i);
    }
  }

  lemma MapAtRootEntries(vm: Vm, root: nat, p: Page, leaf: Leaf, large: bool)
    requires Valid(vm) && Root(vm, root) && InRange(p)
    ensures RootEntriesKept(vm, MapAt(vm, root, p, leaf, large).vm.tables, root, p.i0)
  {
    var d := LeafDepth(large);
    TableForRootEntries(vm, root, p, d);
    TableForGrown(vm, root, p, d);
    var o := TableFor(vm, root, p, d);
    if o.res.Ok? {
      WalkingTag(o.vm, root, p, d, o.res.value);
    }
  }

  /** A kernel page mapped after a space inherited the kernel half shows up in that space exactly
      when the root entry it hangs below was already present. */
  lemma LateKernelMapSeen(vm: Vm, kernel: nat, r: nat, va: nat, pa: nat, flags: Flags)
    requires Valid(vm) && SharesKernel(vm, r, kernel) && r != kernel
    requires KERNEL_HALF <= PageOf(va).i0 && MapPage(vm, kernel, va, pa, flags).res.Ok?
    ensures View(MapPage(vm, kernel, va, pa, flags).vm, r, PageOf(va))
         == if At(vm.tables, kernel, PageOf(va).i0).Next? then Small(SmallLeaf(pa, flags.(present := true))) else Missing
  {
    var p := PageOf(va);
    var leaf := SmallLeaf(pa, flags.(present := true));
    MapAtRefines(vm, kernel, p, leaf, false);
    MapAtRootEntries(vm, kernel, p, leaf, false);
    assert Covers(p, false, p);
  }
}
