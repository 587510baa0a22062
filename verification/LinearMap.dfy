/** The direct linear map: physical memory below 4 GiB mapped at a fixed offset by 2 MiB leaves. */
module LinearMap {
  import opened Radix
  import opened Paging
  import opened Words

  const MAX_MAPPABLE_PHYS := 0x1_0000_0000

  /** `highest.min(4 GiB)` rounded up to whole 2 MiB pages. */
  function PageCount(highest: nat): nat {
    var top := if highest < MAX_MAPPABLE_PHYS then highest else MAX_MAPPABLE_PHYS;
    (top + SIZE_2MIB - 1) / SIZE_2MIB
  }

  /** Enough 2 MiB pages for the memory below 4 GiB, and not one more. */
  lemma CountExact(highest: nat)
    ensures var top := if highest < 0x1_0000_0000 then highest else 0x1_0000_0000;
      PageCount(highest) * 0x20_0000 >= top && (PageCount(highest) - 1) * 0x20_0000 < top && PageCount(highest) <= 2048
  {
  }

  function LinearLeaf(i: nat): Leaf {
    LargeLeaf(i * SIZE_2MIB, KernelData().(huge := true))
  }

  /** A step that mapped the region of `va` and kept all regions already mapped. */
  ghost predicate Adds(vm: Vm, vm': Vm, root: nat, va: nat, leaf: Leaf) {
    && (forall q :: Covers(PageOf(va), true, q) ==> View(vm', root, q) == Large(leaf))
    && (forall q :: View(vm, root, q) != Missing ==> View(vm', root, q) == View(vm, root, q))
  }

  lemma LinearStep(vm: Vm, vm': Vm, root: nat, va: nat, i: nat)
    requires Valid(vm) && Root(vm, root)
    requires Map2MiB(vm, root, va, i * SIZE_2MIB, KernelData()) == Out(vm', Ok(()))
    ensures Adds(vm, vm', root, va, LinearLeaf(i))
  {
    assert KernelData().(present := true, huge := true) == KernelData().(huge := true);
    MapAtRefines(vm, root, PageOf(va), LinearLeaf(i), true);
  }

  function Region(offset: nat, i: nat): Page {
    PageOf(offset + i * SIZE_2MIB)
  }

  ghost predicate AllMapped(vm: Vm, root: nat, offset: nat, k: nat) {
    forall i, q :: 0 <= i < k && Covers(Region(offset, i), true, q) ==> View(vm, root, q) == Large(LinearLeaf(i))
  }

  lemma AddsAll(o: Vm, n: Vm, root: nat, offset: nat, k: nat, va: nat)
    requires AllMapped(o, root, offset, k) && va == offset + k * SIZE_2MIB && Adds(o, n, root, va, LinearLeaf(k))
    ensures AllMapped(n, root, offset, k + 1)
  {
    forall i, q | 0 <= i < k + 1 && Covers(Region(offset, i), true, q)
      ensures View(n, root, q) == Large(LinearLeaf(i))
    {
      if i < k {
        assert View(o, root, q) == Large(LinearLeaf(i));
      }
    }
  }

  lemma RegionStep(vm: Vm, vm': Vm, root: nat, offset: nat, i: nat)
    requires Valid(vm) && Root(vm, root) && AllMapped(vm, root, offset, i)
    requires Map2MiB(vm, root, offset + i * SIZE_2MIB, i * SIZE_2MIB, KernelData()) == Out(vm', Ok(()))
    ensures AllMapped(vm', root, offset, i + 1)
  {
    var va := offset + i * SIZE_2MIB;
    LinearStep(vm, vm', root, va, i);
    AddsAll(vm, vm', root, offset, i, va);
  }

  /** Addresses of one 2 MiB region share all indices but the last. */
  lemma SameRegion(va: nat, va': nat)
    requires va / SIZE_2MIB == va' / SIZE_2MIB
    ensures Covers(PageOf(va), true, PageOf(va'))
  {
    assert va / 0x4000_0000 == va / 0x20_0000 / 0x200 && va' / 0x4000_0000 == va' / 0x20_0000 / 0x200;
    assert va / 0x80_0000_0000 == va / 0x20_0000 / 0x4_0000 && va' / 0x80_0000_0000 == va' / 0x20_0000 / 0x4_0000;
  }

  lemma LinearAddress(offset: nat, highest: nat, phys: nat)
    requires offset % SIZE_2MIB == 0 && phys < highest && phys < MAX_MAPPABLE_PHYS
    ensures var i := phys / SIZE_2MIB;
      && i < PageCount(highest)
      && (offset + phys) / SIZE_2MIB == (offset + i * SIZE_2MIB) / SIZE_2MIB
      && LinearLeaf(i).frame * PAGE_SIZE + (offset + phys) % SIZE_2MIB == phys
  {
  }

  /** `offset + phys` reads back as `phys` through a writable, non-executable 2 MiB leaf. */
  ghost predicate Linear(ts: Tables<Leaf>, root: nat, offset: nat, phys: nat) {
    && Translate(ts, root, offset + phys) == Some(phys)
    && Lookup(ts, root, PageOf(offset + phys)).Large?
    && Lookup(ts, root, PageOf(offset + phys)).leaf.flags == Flags(
         present := true, writable := true, user := false, writeThrough := false, noCache := false,
         accessed := false, dirty := false, huge := true, global := false, noExecute := true)
  }

  lemma MappedIsLinear(vm: Vm, root: nat, offset: nat, highest: nat, phys: nat)
    requires AllMapped(vm, root, offset, PageCount(highest))
    requires offset % SIZE_2MIB == 0 && phys < highest && phys < MAX_MAPPABLE_PHYS
    ensures Linear(vm.tables, root, offset, phys)
  {
    var i := phys / SIZE_2MIB;
    LinearAddress(offset, highest, phys);
    SameRegion(offset + i * SIZE_2MIB, offset + phys);
    assert View(vm, root, PageOf(offset + phys)) == Large(LinearLeaf(i));
  }

  lemma AllLinear(vm: Vm, root: nat, offset: nat, highest: nat)
    requires AllMapped(vm, root, offset, PageCount(highest)) && offset % SIZE_2MIB == 0
    ensures forall phys :: 0 <= phys < highest && phys < MAX_MAPPABLE_PHYS ==> Linear(vm.tables, root, offset, phys)
  {
    forall phys | 0 <= phys < highest && phys < MAX_MAPPABLE_PHYS {
      MappedIsLinear(vm, root, offset, highest, phys);
    }
  }
}
