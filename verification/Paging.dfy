/** x86_64 address spaces as a value: page tables, user frame contents and the free set
    of the frame allocator, with the mapping operations as functions on that value.
 */
module Paging {
  import opened Radix
  import Allocator
  import opened Words

  const PAGE_SIZE := 4096
  const SIZE_2MIB := 0x20_0000
  const USER_LIMIT := 0x8000_0000_0000
  const PHYS_LIMIT := 0x10_0000_0000_0000
  /** PML4 entries from here upwards hold the kernel half. */
  const KERNEL_HALF := 256

  datatype MmuError = WxPolicyViolation | AlreadyMapped | FrameAllocFailed | UnalignedAddress
  datatype Res<+T> = Ok(value: T) | Err(error: MmuError)

  datatype Flags = Flags(
    present: bool, writable: bool, user: bool, writeThrough: bool, noCache: bool,
    accessed: bool, dirty: bool, huge: bool, global: bool, noExecute: bool)

  const NO_FLAGS := Flags(false, false, false, false, false, false, false, false, false, false)

  /** Writable kernel memory that never executes. */
  function KernelData(): Flags {
    NO_FLAGS.(present := true, writable := true, noExecute := true)
  }

  /** A leaf entry: frame number (bits 51..12) and flags. */
  datatype Leaf = Leaf(frame: nat, flags: Flags)

  //
  // Addresses
  //

  /** The 9-bit table indices of a virtual address, bits 47..12. */
  function PageOf(va: nat): (p: Page)
    ensures InRange(p)
  {
    Page(va / 0x80_0000_0000 % ENTRIES, va / 0x4000_0000 % ENTRIES, va / 0x20_0000 % ENTRIES, va / 0x1000 % ENTRIES)
  }

  /** The page number that the four indices spell in base 512. */
  function Number(p: Page): nat {
    ((p.i0 * ENTRIES + p.i1) * ENTRIES + p.i2) * ENTRIES + p.i3
  }

  lemma DivDiv(va: nat)
    ensures va / 0x20_0000 == va / 0x1000 / 0x200
    ensures va / 0x4000_0000 == va / 0x1000 / 0x4_0000
    ensures va / 0x80_0000_0000 == va / 0x1000 / 0x800_0000
  {
  }

  lemma SplitLow(n: nat)
    ensures n % 0x4_0000 == n / 0x200 % 0x200 * 0x200 + n % 0x200
  {
  }

  lemma SplitMiddle(n: nat)
    ensures n % 0x800_0000 == n / 0x4_0000 % 0x200 * 0x4_0000 + n % 0x4_0000
  {
  }

  lemma SplitHigh(n: nat)
    ensures n % 0x10_0000_0000 == n / 0x800_0000 % 0x200 * 0x800_0000 + n % 0x800_0000
  {
  }

  /** The indices are exactly bits 47..12 of the address. */
  lemma PageNumber(va: nat)
    ensures Number(PageOf(va)) == va / PAGE_SIZE % 0x10_0000_0000
  {
    DivDiv(va);
    SplitLow(va / 0x1000);
    SplitMiddle(va / 0x1000);
    SplitHigh(va / 0x1000);
  }

  /** Two addresses fall on one page exactly when their bits 47..12 agree. */
  lemma SamePage(va: nat, va': nat)
    ensures PageOf(va) == PageOf(va') <==> va / PAGE_SIZE % 0x10_0000_0000 == va' / PAGE_SIZE % 0x10_0000_0000
  {
    PageNumber(va);
    PageNumber(va');
    if Number(PageOf(va)) == Number(PageOf(va')) {
      Digits(PageOf(va), PageOf(va'));
    }
  }

  lemma Digits(p: Page, q: Page)
    requires InRange(p) && InRange(q) && Number(p) == Number(q)
    ensures p == q
  {
    LastDigit((p.i0 * ENTRIES + p.i1) * ENTRIES + p.i2, p.i3, (q.i0 * ENTRIES + q.i1) * ENTRIES + q.i2, q.i3);
    LastDigit(p.i0 * ENTRIES + p.i1, p.i2, q.i0 * ENTRIES + q.i1, q.i2);
    LastDigit(p.i0, p.i1, q.i0, q.i1);
  }

  lemma LastDigit(a: nat, d: nat, b: nat, e: nat)
    requires d < ENTRIES && e < ENTRIES && a * ENTRIES + d == b * ENTRIES + e
    ensures a == b && d == e
  {
  }

  predicate IsUserVa(va: nat) {
    va < USER_LIMIT && va % PAGE_SIZE == 0
  }

  /** User addresses select the lower half of the root table. */
  lemma UserHalf(va: nat)
    ensures va < USER_LIMIT ==> PageOf(va).i0 < KERNEL_HALF
  {
  }

  //
  // The state
  //

  datatype Vm = Vm(tables: Tables<Leaf>, data: map<nat, seq<byte>>, free: set<nat>, tags: Tags)

  /** Tables, user frames and free frames never overlap, and every pointer leads to its own subtree. */
  ghost predicate Valid(vm: Vm) {
    && WellTagged(vm.tables, vm.tags, KERNEL_HALF)
    && vm.tables.Keys !! vm.free
    && vm.data.Keys !! vm.free
    && vm.tables.Keys !! vm.data.Keys
  }

  ghost predicate Root(vm: Vm, r: nat) {
    IsRoot(vm.tags, r)
  }

  ghost function View(vm: Vm, r: nat, p: Page): Found<Leaf> {
    Lookup(vm.tables, r, p)
  }

  /** `walk_to_phys`: the frame address of a 4 KiB leaf; 2 MiB leaves read as unmapped. */
  function WalkToPhys(ts: Tables<Leaf>, root: nat, va: nat): Option<nat> {
    match Lookup(ts, root, PageOf(va))
    case Small(l) => Some(l.frame * PAGE_SIZE)
    case _ => None
  }

  /** What the processor makes of an address, 2 MiB leaves included. */
  function Translate(ts: Tables<Leaf>, root: nat, va: nat): Option<nat> {
    match Lookup(ts, root, PageOf(va))
    case Small(l) => Some(l.frame * PAGE_SIZE + va % PAGE_SIZE)
    case Large(l) => Some(l.frame * PAGE_SIZE + va % SIZE_2MIB)
    case Missing => None
  }

  datatype Out<+T> = Out(vm: Vm, res: Res<T>)

  //
  // Entries
  //

  /** `PageTableEntry::set`: bits 51..12 of the address, NO_EXECUTE forced on writable pages. */
  function SmallLeaf(pa: nat, flags: Flags): Leaf {
    Leaf(pa / PAGE_SIZE % 0x100_0000_0000,
         if flags.writable then flags.(noExecute := true) else flags)
  }

  /** `PageTableEntry::set_huge`: bits 51..21 of the address. */
  function LargeLeaf(pa: nat, flags: Flags): Leaf {
    Leaf(pa / SIZE_2MIB % 0x8000_0000 * ENTRIES,
         if flags.writable then flags.(noExecute := true) else flags)
  }

  //
  // Operations
  //

  ghost predicate TableAt(vm: Vm, g: nat, i: nat) {
    Valid(vm) && g in vm.tables && i < ENTRIES && !vm.tags[g].T3?
  }

  /** Take frame `f` from the allocator, clear it and hang it below entry `i` of table `g`. */
  ghost function LinkFresh(vm: Vm, g: nat, i: nat, f: nat): Vm
    requires TableAt(vm, g, i) && f in vm.free
  {
    Vm(Link(vm.tables, g, i, f), vm.data - {f}, vm.free - {f}, vm.tags[f := Child(vm.tags[g], i, KERNEL_HALF)])
  }

  /** `alloc_or_get_table`. */
  ghost function AllocOrGet(vm: Vm, g: nat, i: nat): Out<nat>
    requires TableAt(vm, g, i)
  {
    match At(vm.tables, g, i)
    case Block(_) => Out(vm, Err(AlreadyMapped))
    case Next(f) => Out(vm, Ok(f))
    case Absent =>
      if vm.free == {} then Out(vm, Err(FrameAllocFailed))
      else var f := Allocator.Lowest(vm.free); Out(LinkFresh(vm, g, i, f), Ok(f))
  }

  /** Nothing a caller can see has changed: empty tables may have been added. */
  ghost predicate Grown(vm: Vm, vm': Vm) {
    && Valid(vm')
    && vm'.data == vm.data
    && vm'.free <= vm.free
    && (forall f :: f in vm.tags ==> f in vm'.tags && vm'.tags[f] == vm.tags[f])
    && (forall f :: f in vm'.tags && f !in vm.tags ==> f in vm.free && !vm'.tags[f].T0?)
    && (forall r, p :: Root(vm, r) ==> View(vm', r, p) == View(vm, r, p))
  }

  /** Tables a mapping below entry `i0` of `root` may write: the root itself and its side of the tree. */
  predicate OnPath(t: Tag, root: nat, i0: nat) {
    t == T0(root) || (!t.T0? && t.owner == if i0 < KERNEL_HALF then Private(root) else Shared)
  }

  /** All other tables are bit-for-bit the same, and new tables belong to that side. */
  ghost predicate Confined(vm: Vm, vm': Vm, root: nat, i0: nat) {
    && (forall f :: f in vm.tables && f in vm.tags && !OnPath(vm.tags[f], root, i0) ==>
          f in vm'.tables && vm'.tables[f] == vm.tables[f])
    && (forall f :: f in vm'.tags && f !in vm.tags ==> OnPath(vm'.tags[f], root, i0))
  }

  ghost predicate Walking(vm: Vm, root: nat, p: Page, d: nat, g: nat) {
    Valid(vm) && Root(vm, root) && InRange(p) && d <= 3 && Reaches(vm.tables, root, p, d, g)
  }

  lemma WalkingTag(vm: Vm, root: nat, p: Page, d: nat, g: nat)
    requires Walking(vm, root, p, d, g)
    ensures g in vm.tables && vm.tags[g] == PathTag(KERNEL_HALF, root, p, d)
    ensures d < 3 ==> TableAt(vm, g, Index(p, d))
  {
    ReachesTag(vm.tables, vm.tags, KERNEL_HALF, root, p, d, g);
  }

  /** Hanging a fresh, cleared frame below an empty entry is invisible. */
  lemma LinkFreshGrown(vm: Vm, g: nat, i: nat, f: nat)
    requires TableAt(vm, g, i) && At(vm.tables, g, i) == Absent && f in vm.free
    ensures Grown(vm, LinkFresh(vm, g, i, f))
  {
    LinkWellTagged(vm.tables, vm.tags, KERNEL_HALF, g, i, f);
    forall r, q | Root(vm, r)
      ensures Lookup(Link(vm.tables, g, i, f), r, q) == Lookup(vm.tables, r, q)
    {
      LinkLookup(vm.tables, Link(vm.tables, g, i, f), vm.tags, KERNEL_HALF, g, i, f, r, q);
    }
  }

  /** One level of descent is invisible, stays on its side of the tree, and arrives when it succeeds. */
  lemma Descend(vm: Vm, root: nat, p: Page, d: nat, g: nat)
    requires Walking(vm, root, p, d, g) && d < 3
    ensures TableAt(vm, g, Index(p, d))
    ensures var out := AllocOrGet(vm, g, Index(p, d));
      && Grown(vm, out.vm)
      && (out.res.Ok? ==> Walking(out.vm, root, p, d + 1, out.res.value))
      && Confined(vm, out.vm, root, p.i0)
  {
    WalkingTag(vm, root, p, d, g);
    var i := Index(p, d);
    if At(vm.tables, g, i).Absent? && vm.free != {} {
      var f := Allocator.Lowest(vm.free);
      LinkFreshGrown(vm, g, i, f);
      LinkFreshOnPath(vm, LinkFresh(vm, g, i, f), root, p, d, g, f);
    }
  }

  lemma LinkFreshOnPath(vm: Vm, vm': Vm, root: nat, p: Page, d: nat, g: nat, f: nat)
    requires Walking(vm, root, p, d, g) && d < 3 && TableAt(vm, g, Index(p, d)) && f in vm.free
    requires At(vm.tables, g, Index(p, d)) == Absent && vm' == LinkFresh(vm, g, Index(p, d), f)
    ensures Reaches(vm'.tables, root, p, d + 1, f) && Confined(vm, vm', root, p.i0)
  {
    WalkingTag(vm, root, p, d, g);
    LinkReaches(vm.tables, vm'.tables, vm.tags, KERNEL_HALF, g, Index(p, d), f, root, p, d);
  }

  lemma GrownTrans(a: Vm, b: Vm, c: Vm)
    requires Grown(a, b) && Grown(b, c)
    ensures Grown(a, c)
  {
    forall r, p | Root(a, r)
      ensures View(c, r, p) == View(a, r, p)
    {
      assert Root(b, r);
      assert View(b, r, p) == View(a, r, p);
    }
  }

  lemma ConfinedTrans(a: Vm, b: Vm, c: Vm, root: nat, i0: nat)
    requires Valid(a) && Grown(a, b) && Grown(b, c) && Confined(a, b, root, i0) && Confined(b, c, root, i0)
    ensures Confined(a, c, root, i0)
  {
  }

  lemma DescendAfter(vm: Vm, mid: Vm, root: nat, p: Page, d: nat, g: nat)
    requires Valid(vm) && Grown(vm, mid) && Confined(vm, mid, root, p.i0) && Walking(mid, root, p, d, g) && d < 3
    ensures TableAt(mid, g, Index(p, d))
    ensures Grown(vm, AllocOrGet(mid, g, Index(p, d)).vm) && Confined(vm, AllocOrGet(mid, g, Index(p, d)).vm, root, p.i0)
  {
    Descend(mid, root, p, d, g);
    GrownTrans(vm, mid, AllocOrGet(mid, g, Index(p, d)).vm);
    ConfinedTrans(vm, mid, AllocOrGet(mid, g, Index(p, d)).vm, root, p.i0);
  }

  /** The chain of `alloc_or_get_table` calls down to level `d` of a page's walk. */
  ghost function TableFor(vm: Vm, root: nat, p: Page, d: nat): (out: Out<nat>)
    requires Valid(vm) && Root(vm, root) && InRange(p) && d <= 3
    ensures out.res.Ok? ==> Walking(out.vm, root, p, d, out.res.value)
  {
    if d == 0 then Out(vm, Ok(root))
    else
      var o := TableFor(vm, root, p, d - 1);
      if o.res.Err? then o
      else
        Descend(o.vm, root, p, d - 1, o.res.value);
        AllocOrGet(o.vm, o.res.value, Index(p, d - 1))
  }

  /** The descent adds empty tables on its own side of the tree and changes no lookup. */
  lemma {:induction false} TableForGrown(vm: Vm, root: nat, p: Page, d: nat)
    requires Valid(vm) && Root(vm, root) && InRange(p) && d <= 3
    ensures Grown(vm, TableFor(vm, root, p, d).vm)
    ensures Confined(vm, TableFor(vm, root, p, d).vm, root, p.i0)
  {
    if d > 0 {
      TableForGrown(vm, root, p, d - 1);
      var o := TableFor(vm, root, p, d - 1);
      if o.res.Ok? {
        DescendAfter(vm, o.vm, root, p, d - 1, o.res.value);
      }
    }
  }

  /** 4 KiB leaves sit in the last table, 2 MiB leaves one level up. */
  function LeafDepth(large: bool): nat {
    if large then 2 else 3
  }

  /** Walk to the table of the leaf, building what is missing, and write the leaf if its slot is empty. */
  ghost function MapAt(vm: Vm, root: nat, p: Page, leaf: Leaf, large: bool): Out<()>
    requires Valid(vm) && Root(vm, root) && InRange(p)
  {
    var d := LeafDepth(large);
    var o := TableFor(vm, root, p, d);
    if o.res.Err? then Out(o.vm, Err(o.res.error))
    else
      WalkingTag(o.vm, root, p, d, o.res.value);
      if !At(o.vm.tables, o.res.value, Index(p, d)).Absent? then Out(o.vm, Err(AlreadyMapped))
      else Out(o.vm.(tables := Put(o.vm.tables, o.res.value, Index(p, d), Block(leaf))), Ok(()))
  }

  /** `AddressSpace::map_page`. */
  ghost function MapPage(vm: Vm, root: nat, va: nat, pa: nat, flags: Flags): Out<()>
    requires Valid(vm) && Root(vm, root)
  {
    if va % PAGE_SIZE != 0 || pa % PAGE_SIZE != 0 then Out(vm, Err(UnalignedAddress))
    else if flags.writable && !flags.noExecute then Out(vm, Err(WxPolicyViolation))
    else MapAt(vm, root, PageOf(va), SmallLeaf(pa, flags.(present := true)), false)
  }

  function UserFlags(writable: bool): Flags {
    NO_FLAGS.(present := true, user := true, writable := writable, noExecute := writable)
  }

  /** `AddressSpace::map_user_page`. */
  ghost function MapUserPage(vm: Vm, root: nat, va: nat, pa: nat, writable: bool): Out<()>
    requires Valid(vm) && Root(vm, root)
  {
    if !IsUserVa(va) then Out(vm, Err(UnalignedAddress))
    else MapPage(vm, root, va, pa, UserFlags(writable))
  }

  /** `AddressSpace::map_2mib_page`. */
  ghost function Map2MiB(vm: Vm, root: nat, va: nat, pa: nat, flags: Flags): Out<()>
    requires Valid(vm) && Root(vm, root)
  {
    if va % SIZE_2MIB != 0 || pa % SIZE_2MIB != 0 then Out(vm, Err(UnalignedAddress))
    else if flags.writable && !flags.noExecute then Out(vm, Err(WxPolicyViolation))
    else MapAt(vm, root, PageOf(va), LargeLeaf(pa, flags.(present := true, huge := true)), true)
  }

  /** Seen from root `r`, a leaf mapped by `root` below entry `i0` can only show if the table is shared. */
  ghost predicate Sees(r: nat, root: nat, i0: nat) {
    r == root || KERNEL_HALF <= i0
  }

  /** The pages a leaf covers: one page, or all pages of a 2 MiB region. */
  predicate Covers(p: Page, large: bool, q: Page) {
    q == if large then p.(i3 := q.i3) else p
  }

  function Mapped(leaf: Leaf, large: bool): Found<Leaf> {
    if large then Large(leaf) else Small(leaf)
  }

  /** A lookup stays as it was, or a missing one becomes `now`. */
  ghost predicate Kept(before: Found<Leaf>, after: Found<Leaf>, now: Found<Leaf>) {
    after == before || (before == Missing && after == now)
  }

  /** A step that mapped one leaf and disturbed nothing else. */
  ghost predicate MapsOnly(vm: Vm, vm': Vm, root: nat, p: Page, leaf: Leaf, large: bool) {
    && Valid(vm')
    && (forall f :: f in vm.tags ==> f in vm'.tags && vm'.tags[f] == vm.tags[f])
    && vm'.data == vm.data && vm'.free <= vm.free
    && Confined(vm, vm', root, p.i0)
    && (forall q :: Covers(p, large, q) ==> View(vm, root, q) == Missing && View(vm', root, q) == Mapped(leaf, large))
    && (forall r, q :: Root(vm, r) && !(Covers(p, large, q) && Sees(r, root, p.i0)) ==> View(vm', r, q) == View(vm, r, q))
    && (forall r, q :: Root(vm, r) ==> Kept(View(vm, r, q), View(vm', r, q), Mapped(leaf, large)))
  }

  /** What one root sees of a leaf written where the walk to `p` ended. */
  lemma LeafSeen(vm: Vm, ts': Tables<Leaf>, root: nat, p: Page, g: nat, leaf: Leaf, large: bool, r: nat, q: Page)
    requires Walking(vm, root, p, LeafDepth(large), g) && Root(vm, r)
    requires g in vm.tables && Index(p, LeafDepth(large)) < |vm.tables[g]|
    requires At(vm.tables, g, Index(p, LeafDepth(large))) == Absent
    requires ts' == Put(vm.tables, g, Index(p, LeafDepth(large)), Block(leaf))
    ensures var before, after := Lookup(vm.tables, r, q), Lookup(ts', r, q);
      && (Covers(p, large, q) && r == root ==> before == Missing && after == Mapped(leaf, large))
      && (!(Covers(p, large, q) && Sees(r, root, p.i0)) ==> after == before)
      && Kept(before, after, Mapped(leaf, large))
  {
    var d, i := LeafDepth(large), Index(p, LeafDepth(large));
    WalkingTag(vm, root, p, d, g);
    PutLeafLookup(vm.tables, vm.tags, KERNEL_HALF, g, i, leaf, r, q);
    if Reaches(vm.tables, r, q, d, g) {
      ReachesTag(vm.tables, vm.tags, KERNEL_HALF, r, q, d, g);
    }
  }

  /** Writing the leaf where the walk ended. */
  lemma LeafStep(vm: Vm, root: nat, p: Page, g: nat, leaf: Leaf, large: bool)
    requires Walking(vm, root, p, LeafDepth(large), g)
    requires At(vm.tables, g, Index(p, LeafDepth(large))) == Absent
    ensures g in vm.tables && Index(p, LeafDepth(large)) < |vm.tables[g]|
    ensures MapsOnly(vm, vm.(tables := Put(vm.tables, g, Index(p, LeafDepth(large)), Block(leaf))), root, p, leaf, large)
  {
    var d := LeafDepth(large);
    var i := Index(p, d);
    WalkingTag(vm, root, p, d, g);
    PutLeafWellTagged(vm.tables, vm.tags, KERNEL_HALF, g, i, leaf);
    var ts' := Put(vm.tables, g, i, Block(leaf));
    forall r, q | Root(vm, r) {
      LeafSeen(vm, ts', root, p, g, leaf, large, r, q);
    }
  }

  lemma GrownThenMaps(a: Vm, b: Vm, c: Vm, root: nat, p: Page, leaf: Leaf, large: bool)
    requires Root(a, root) && WellTagged(a.tables, a.tags, KERNEL_HALF)
    requires Grown(a, b) && Confined(a, b, root, p.i0) && MapsOnly(b, c, root, p, leaf, large)
    ensures MapsOnly(a, c, root, p, leaf, large)
  {
    forall r, q | Root(a, r)
      ensures Root(b, r) && View(b, r, q) == View(a, r, q)
    {
    }
  }

  //
  // Mapping refines a partial map
  //

  /** A successful mapping adds exactly the requested leaf; a failing one changes no lookup. */
  lemma MapAtRefines(vm: Vm, root: nat, p: Page, leaf: Leaf, large: bool)
    requires Valid(vm) && Root(vm, root) && InRange(p)
    ensures var out := MapAt(vm, root, p, leaf, large);
      if out.res.Ok? then MapsOnly(vm, out.vm, root, p, leaf, large)
      else Grown(vm, out.vm) && Confined(vm, out.vm, root, p.i0)
  {
    var out := MapAt(vm, root, p, leaf, large);
    TableForGrown(vm, root, p, LeafDepth(large));
    if out.res.Ok? {
      var o := TableFor(vm, root, p, LeafDepth(large));
      LeafStep(o.vm, root, p, o.res.value, leaf, large);
      GrownThenMaps(vm, o.vm, out.vm, root, p, leaf, large);
    }
  }

  lemma SmallLeafAddress(pa: nat, flags: Flags)
    requires pa < PHYS_LIMIT && pa % PAGE_SIZE == 0
    ensures SmallLeaf(pa, flags).frame * PAGE_SIZE == pa
  {
  }

  lemma MapPageView(vm: Vm, root: nat, va: nat, pa: nat, flags: Flags, q: Page)
    requires Valid(vm) && Root(vm, root)
    requires MapPage(vm, root, va, pa, flags).res.Ok?
    ensures View(MapPage(vm, root, va, pa, flags).vm, root, q)
         == if q == PageOf(va) then Small(SmallLeaf(pa, flags.(present := true))) else View(vm, root, q)
  {
    var p := PageOf(va);
    var leaf := SmallLeaf(pa, flags.(present := true));
    MapAtRefines(vm, root, p, leaf, false);
    assert Covers(p, false, p);
    assert q != p ==> !Covers(p, false, q);
  }

  /** After a successful `map_page` every address of the page leads to its byte of the memory given. */
  lemma MapPageTranslates(vm: Vm, root: nat, va: nat, pa: nat, flags: Flags, i: nat)
    requires Valid(vm) && Root(vm, root) && MapPage(vm, root, va, pa, flags).res.Ok? && pa < PHYS_LIMIT && i < 4096
    ensures Translate(MapPage(vm, root, va, pa, flags).vm.tables, root, va + i) == Some(pa + i)
  {
    MapPageAligned(vm, root, va, pa, flags);
    MapPageView(vm, root, va, pa, flags, PageOf(va));
    PageTranslates(MapPage(vm, root, va, pa, flags).vm.tables, root, va, pa, flags.(present := true), i);
  }

  lemma PageTranslates(ts: Tables<Leaf>, root: nat, va: nat, pa: nat, flags: Flags, i: nat)
    requires va % PAGE_SIZE == 0 && pa % PAGE_SIZE == 0 && pa < PHYS_LIMIT && i < PAGE_SIZE
    requires Lookup(ts, root, PageOf(va)) == Small(SmallLeaf(pa, flags))
    ensures Translate(ts, root, va + i) == Some(pa + i)
  {
    SmallLeafAddress(pa, flags);
    LeafTranslates(ts, root, va, SmallLeaf(pa, flags), i);
  }

  lemma MapPageAligned(vm: Vm, root: nat, va: nat, pa: nat, flags: Flags)
    requires Valid(vm) && Root(vm, root) && MapPage(vm, root, va, pa, flags).res.Ok?
    ensures va % PAGE_SIZE == 0 && pa % PAGE_SIZE == 0
  {
  }

  lemma LeafTranslates(ts: Tables<Leaf>, root: nat, va: nat, leaf: Leaf, i: nat)
    requires va % PAGE_SIZE == 0 && i < PAGE_SIZE && Lookup(ts, root, PageOf(va)) == Small(leaf)
    ensures Translate(ts, root, va + i) == Some(leaf.frame * PAGE_SIZE + i)
  {
    assert (va + i) / PAGE_SIZE == va / PAGE_SIZE && (va + i) % PAGE_SIZE == i;
    SamePage(va, va + i);
  }

  /** What a program finds at a page mapped for it: it may read it, and either write or execute it. */
  ghost predicate UserLeafAt(ts: Tables<Leaf>, root: nat, q: Page, writable: bool) {
    var found := Lookup(ts, root, q);
    && found.Small? && found.leaf.flags.present && found.leaf.flags.user && !found.leaf.flags.huge
    && found.leaf.flags.writable == writable && found.leaf.flags.noExecute == writable
    && !found.leaf.flags.writeThrough && !found.leaf.flags.noCache && !found.leaf.flags.global
  }

  /** A successful `map_user_page` leaves such a leaf, to the given page of memory. */
  lemma UserPageMapped(vm: Vm, root: nat, va: nat, pa: nat, writable: bool)
    requires Valid(vm) && Root(vm, root) && MapUserPage(vm, root, va, pa, writable).res.Ok?
    ensures var ts := MapUserPage(vm, root, va, pa, writable).vm.tables;
      UserLeafAt(ts, root, PageOf(va), writable) && Lookup(ts, root, PageOf(va)).leaf.frame == pa / PAGE_SIZE % 0x100_0000_0000
  {
    MapPageView(vm, root, va, pa, UserFlags(writable), PageOf(va));
  }

  /** In terms of addresses: the new page walks to `pa`, all other pages of the space as before. */
  lemma MapPageWalks(vm: Vm, root: nat, va: nat, pa: nat, flags: Flags, va': nat)
    requires Valid(vm) && Root(vm, root) && pa < PHYS_LIMIT
    requires MapPage(vm, root, va, pa, flags).res.Ok?
    ensures var ts' := MapPage(vm, root, va, pa, flags).vm.tables;
      WalkToPhys(ts', root, va') == if va' / PAGE_SIZE % 0x10_0000_0000 == va / PAGE_SIZE % 0x10_0000_0000
                                    then Some(pa) else WalkToPhys(vm.tables, root, va')
  {
    SamePage(va, va');
    SmallLeafAddress(pa, flags.(present := true));
    MapPageView(vm, root, va, pa, flags, PageOf(va'));
  }

  /** A failing call leaves every walk of every space as it was. */
  lemma FailedMapKeepsWalks(vm: Vm, root: nat, va: nat, pa: nat, flags: Flags, r: nat, va': nat)
    requires Valid(vm) && Root(vm, root) && Root(vm, r)
    requires MapPage(vm, root, va, pa, flags).res.Err?
    ensures WalkToPhys(MapPage(vm, root, va, pa, flags).vm.tables, r, va') == WalkToPhys(vm.tables, r, va')
  {
    MapAtRefines(vm, root, PageOf(va), SmallLeaf(pa, flags.(present := true)), false);
    assert View(vm, r, PageOf(va')) == View(MapPage(vm, root, va, pa, flags).vm, r, PageOf(va'));
  }

  //
  // Which outcome
  //

  lemma {:induction false} DescendBuilt(vm: Vm, root: nat, p: Page, d: nat)
    requires Valid(vm) && Root(vm, root) && InRange(p) && d <= Built(vm.tables, root, p)
    ensures TableFor(vm, root, p, d).res.Ok? && TableFor(vm, root, p, d).vm == vm
  {
    if d > 0 {
      DescendBuilt(vm, root, p, d - 1);
    }
  }

  /** Where the existing walk stops there is a 2 MiB leaf or nothing at all. */
  lemma EndOfBuilt(vm: Vm, root: nat, p: Page)
    requires Valid(vm) && Root(vm, root) && InRange(p) && Built(vm.tables, root, p) < 3
    ensures TableFor(vm, root, p, Built(vm.tables, root, p)).res.Ok?
    ensures var b := Built(vm.tables, root, p);
      var s := At(vm.tables, TableFor(vm, root, p, b).res.value, Index(p, b));
      (s.Absent? && View(vm, root, p) == Missing) || (b == 2 && s.Block? && View(vm, root, p).Large?)
  {
    var b := Built(vm.tables, root, p);
    DescendBuilt(vm, root, p, b);
    var g := TableFor(vm, root, p, b).res.value;
    WalkingTag(vm, root, p, b, g);
    assert SlotOk(vm.tables[g][Index(p, b)], vm.tags, vm.tags[g], Index(p, b), KERNEL_HALF);
  }

  lemma AllocAbsent(vm: Vm, g: nat, i: nat, j: nat)
    requires TableAt(vm, g, i) && At(vm.tables, g, i) == Absent
    ensures var out := AllocOrGet(vm, g, i);
      if vm.free == {} then out == Out(vm, Err(FrameAllocFailed))
      else out.res.Ok? && |out.vm.free| == |vm.free| - 1 && At(out.vm.tables, out.res.value, j) == Absent
  {
  }

  /** Below the existing walk every level costs one frame. */
  lemma {:induction false} DescendFresh(vm: Vm, root: nat, p: Page, d: nat)
    requires Valid(vm) && Root(vm, root) && InRange(p) && Built(vm.tables, root, p) < d <= 3
    requires !View(vm, root, p).Large?
    ensures var out := TableFor(vm, root, p, d);
      var n := d - Built(vm.tables, root, p);
      if |vm.free| < n then out.res == Err(FrameAllocFailed)
      else && out.res.Ok? && |out.vm.free| == |vm.free| - n
           && At(out.vm.tables, out.res.value, Index(p, d)) == Absent
  {
    if d == Built(vm.tables, root, p) + 1 {
      EndOfBuilt(vm, root, p);
      DescendBuilt(vm, root, p, d - 1);
    } else {
      DescendFresh(vm, root, p, d - 1);
    }
    var o := TableFor(vm, root, p, d - 1);
    if o.res.Ok? {
      FreshAfter(o.vm, root, p, d - 1, o.res.value);
    }
  }

  lemma FreshAfter(vm: Vm, root: nat, p: Page, d: nat, g: nat)
    requires Walking(vm, root, p, d, g) && d < 3 && At(vm.tables, g, Index(p, d)) == Absent
    ensures TableAt(vm, g, Index(p, d))
    ensures var out := AllocOrGet(vm, g, Index(p, d));
      if vm.free == {} then out == Out(vm, Err(FrameAllocFailed))
      else out.res.Ok? && |out.vm.free| == |vm.free| - 1 && At(out.vm.tables, out.res.value, Index(p, d + 1)) == Absent
  {
    WalkingTag(vm, root, p, d, g);
    AllocAbsent(vm, g, Index(p, d), Index(p, d + 1));
  }

  lemma SmallOutcome(vm: Vm, root: nat, p: Page, leaf: Leaf)
    requires Valid(vm) && Root(vm, root) && InRange(p)
    ensures MapAt(vm, root, p, leaf, false).res ==
        if View(vm, root, p) != Missing then Err(AlreadyMapped)
        else if |vm.free| < 3 - Built(vm.tables, root, p) then Err(FrameAllocFailed)
        else Ok(())
  {
    var b, d := Built(vm.tables, root, p), LeafDepth(false);
    if b == 3 {
      DescendBuilt(vm, root, p, d);
      var g := TableFor(vm, root, p, d).res.value;
      WalkingTag(vm, root, p, d, g);
      assert SlotOk(vm.tables[g][p.i3], vm.tags, vm.tags[g], p.i3, KERNEL_HALF);
    } else {
      EndOfBuilt(vm, root, p);
      if View(vm, root, p).Large? {
        DescendBuilt(vm, root, p, b);
      } else {
        DescendFresh(vm, root, p, d);
      }
    }
  }

  lemma LargeOutcome(vm: Vm, root: nat, p: Page, leaf: Leaf)
    requires Valid(vm) && Root(vm, root) && InRange(p)
    ensures MapAt(vm, root, p, leaf, true).res ==
        if View(vm, root, p).Large? || Built(vm.tables, root, p) == 3 then Err(AlreadyMapped)
        else if |vm.free| < 2 - Built(vm.tables, root, p) then Err(FrameAllocFailed)
        else Ok(())
  {
    var d := LeafDepth(true);
    if Built(vm.tables, root, p) < d {
      DescendFresh(vm, root, p, d);
    } else {
      DescendBuilt(vm, root, p, d);
      WalkingTag(vm, root, p, d, TableFor(vm, root, p, d).res.value);
    }
  }

  /** `map_page` reports exactly one of: bad alignment, W^X, a page already there, too few frames. */
  lemma MapPageOutcome(vm: Vm, root: nat, va: nat, pa: nat, flags: Flags)
    requires Valid(vm) && Root(vm, root)
    ensures var p := PageOf(va);
      MapPage(vm, root, va, pa, flags).res ==
        if va % PAGE_SIZE != 0 || pa % PAGE_SIZE != 0 then Err(UnalignedAddress)
        else if flags.writable && !flags.noExecute then Err(WxPolicyViolation)
        else if View(vm, root, p) != Missing then Err(AlreadyMapped)
        else if |vm.free| < 3 - Built(vm.tables, root, p) then Err(FrameAllocFailed)
        else Ok(())
  {
    SmallOutcome(vm, root, PageOf(va), SmallLeaf(pa, flags.(present := true)));
  }

  /** `map_user_page` takes any aligned page below bit 47, and never trips over its own permissions. */
  lemma MapUserPageOutcome(vm: Vm, root: nat, va: nat, pa: nat, writable: bool)
    requires Valid(vm) && Root(vm, root)
    ensures var p := PageOf(va);
      MapUserPage(vm, root, va, pa, writable).res ==
        if va >= 0x8000_0000_0000 || va % 4096 != 0 || pa % 4096 != 0 then Err(UnalignedAddress)
        else if View(vm, root, p) != Missing then Err(AlreadyMapped)
        else if |vm.free| < 3 - Built(vm.tables, root, p) then Err(FrameAllocFailed)
        else Ok(())
  {
    MapPageOutcome(vm, root, va, pa, UserFlags(writable));
  }

  /** `map_2mib_page` also refuses a region whose last-level table exists, even an empty one. */
  lemma Map2MiBOutcome(vm: Vm, root: nat, va: nat, pa: nat, flags: Flags)
    requires Valid(vm) && Root(vm, root)
    ensures var p := PageOf(va);
      Map2MiB(vm, root, va, pa, flags).res ==
        if va % SIZE_2MIB != 0 || pa % SIZE_2MIB != 0 then Err(UnalignedAddress)
        else if flags.writable && !flags.noExecute then Err(WxPolicyViolation)
        else if View(vm, root, p).Large? || Built(vm.tables, root, p) == 3 then Err(AlreadyMapped)
        else if |vm.free| < 2 - Built(vm.tables, root, p) then Err(FrameAllocFailed)
        else Ok(())
  {
    LargeOutcome(vm, root, PageOf(va), LargeLeaf(pa, flags.(present := true, huge := true)));
  }
}
