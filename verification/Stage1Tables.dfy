/** The aarch64 address space updated in place: `map_desc`, the public mapping calls, and the range
    builders that boot uses.
 */
module Stage1Tables {
  import opened Radix
  import opened Paging
  import opened Words
  import opened Stage1

  const GICD_PHYS := 0x0800_0000
  const GICD_SIZE := 0x1_0000
  const GICR_PHYS := 0x080A_0000
  const GICR_SIZE := 0x2_0000

  /** `walk_to_phys`: addresses from the upper half go through the second root. */
  ghost function ArmWalk(a: Arm, va: nat): Option<nat> {
    match Seen(a, va >= HALF, PageOf(va))
    case Small(d) => Some(d.frame * PAGE_SIZE)
    case _ => None
  }

  /** Consistent, one parent per table, W^X. */
  ghost predicate Healthy(a: Arm) {
    Sound(a) && Tree(a) && WxSeen(a)
  }

  /** What was mapped stays mapped as it was. */
  ghost predicate Keeps(a: Arm, b: Arm) {
    && b.base == a.base
    && forall high, q :: Seen(a, high, q) != Missing ==> Seen(b, high, q) == Seen(a, high, q)
  }

  lemma KeepsTrans(a: Arm, b: Arm, c: Arm)
    requires Keeps(a, b) && Keeps(b, c)
    ensures Keeps(a, c)
  {
    forall high, q | Seen(a, high, q) != Missing
      ensures Seen(c, high, q) == Seen(a, high, q)
    {
      assert Seen(b, high, q) == Seen(a, high, q);
    }
  }

  /** One `map_desc`, in terms of both roots. */
  lemma MapDescHealthy(a: Arm, b: Arm, res: ArmRes<()>, high: bool, p: Page, leaf: Desc)
    requires Healthy(a) && InRange(p) && WxDesc(leaf) && ArmOut(b, res) == MapDesc(a, high, p, leaf)
    ensures Healthy(b) && Keeps(a, b)
    ensures res.Fine? ==> Seen(b, high, p) == Small(leaf)
  {
    MapDescRefines(a, high, p, leaf);
    MapDescTree(a, high, p, leaf);
    MapDescWx(a, high, p, leaf);
    forall h, q | Seen(a, h, q) != Missing
      ensures Seen(b, h, q) == Seen(a, h, q)
    {
    }
  }

  /** A call keeps the structure healthy and adds one page or none. */
  lemma CalledHealthy(a: Arm, c: ArmCall)
    requires Healthy(a)
    ensures var out := Called(a, c); Healthy(out.a) && Keeps(a, out.a)
  {
    var t := TargetOf(c);
    if t.Fine? {
      TargetSafe(c);
      var out := Called(a, c);
      MapDescHealthy(a, out.a, out.res, t.value.high, PageOf(c.va), t.value.leaf);
    }
  }

  //
  // Ranges
  //

  /** Page `pa` is visible at its own address and at `linear + pa`. */
  ghost predicate BothMapped(a: Arm, linear: nat, pa: nat, leaf: Desc) {
    Seen(a, false, PageOf(pa)) == Small(leaf) && Seen(a, true, PageOf(linear + pa)) == Small(leaf)
  }

  function RangeLeaf(pa: nat, writable: bool, executable: bool, device: bool): Desc
    requires !(writable && executable) && pa % PAGE_SIZE == 0
  {
    LeafDesc(pa, writable, executable, device).value
  }

  ghost predicate PageMapped(a: Arm, linear: nat, pa: nat, writable: bool, executable: bool, device: bool) {
    !(writable && executable) && pa % PAGE_SIZE == 0
    && BothMapped(a, linear, pa, RangeLeaf(pa, writable, executable, device))
  }

  /** The `n` pages from `start` are mapped with the given attributes. */
  ghost predicate PagesMapped(a: Arm, linear: nat, start: nat, n: nat, writable: bool, executable: bool, device: bool) {
    forall k :: 0 <= k < n ==> KthMapped(a, linear, start, k, writable, executable, device)
  }

  ghost predicate KthMapped(a: Arm, linear: nat, start: nat, k: nat, writable: bool, executable: bool, device: bool) {
    PageMapped(a, linear, start + k * PAGE_SIZE, writable, executable, device)
  }

  /** At most the two pages of `pa`, one per root, look different. */
  ghost predicate OnlyPair(a: Arm, b: Arm, linear: nat, pa: nat) {
    forall high, q :: q != PageOf(if high then linear + pa else pa) ==> Seen(b, high, q) == Seen(a, high, q)
  }

  lemma PairTrans(a: Arm, b: Arm, c: Arm, linear: nat, pa: nat)
    requires OnlyPair(a, b, linear, pa) && OnlyPair(b, c, linear, pa)
    ensures OnlyPair(a, c, linear, pa)
  {
    forall high, q | q != PageOf(if high then linear + pa else pa)
      ensures Seen(c, high, q) == Seen(a, high, q)
    {
      assert Seen(b, high, q) == Seen(a, high, q);
    }
  }

  lemma LeafCallStep(a: Arm, c: ArmCall, linear: nat, pa: nat)
    requires Healthy(a) && c.LeafCall? && c.va == if c.high then linear + pa else pa
    ensures var out := Called(a, c);
      && Keeps(a, out.a) && OnlyPair(a, out.a, linear, pa)
      && (out.res.Fine? ==>
            && LeafDesc(c.pa, c.writable, c.executable, c.device).Fine?
            && Seen(out.a, c.high, PageOf(c.va)) == Small(LeafDesc(c.pa, c.writable, c.executable, c.device).value))
  {
    CalledHealthy(a, c);
    CalledOutcome(a, c);
  }

  /** One of the `n` pages from `start`, under the root it is mapped below. */
  ghost predicate KthPage(linear: nat, start: nat, k: nat, high: bool, q: Page) {
    q == PageOf(if high then linear + (start + k * PAGE_SIZE) else start + k * PAGE_SIZE)
  }

  ghost predicate InPages(linear: nat, start: nat, n: nat, high: bool, q: Page) {
    exists k :: 0 <= k < n && KthPage(linear, start, k, high, q)
  }

  /** Nothing outside the `n` pages looks different. */
  ghost predicate OnlyPages(a: Arm, b: Arm, linear: nat, start: nat, n: nat) {
    forall high, q :: !InPages(linear, start, n, high, q) ==> Seen(b, high, q) == Seen(a, high, q)
  }

  lemma OnlyPagesStep(a: Arm, b: Arm, c: Arm, linear: nat, start: nat, n: nat, k: nat)
    requires OnlyPages(a, b, linear, start, n) && k < n && OnlyPair(b, c, linear, start + k * PAGE_SIZE)
    ensures OnlyPages(a, c, linear, start, n)
  {
    forall high, q | !InPages(linear, start, n, high, q)
      ensures Seen(c, high, q) == Seen(a, high, q)
    {
      assert !KthPage(linear, start, k, high, q);
      assert Seen(b, high, q) == Seen(a, high, q);
    }
  }

  lemma PagesStay(a: Arm, b: Arm, linear: nat, start: nat, n: nat, w: bool, x: bool, dev: bool)
    requires PagesMapped(a, linear, start, n, w, x, dev) && Keeps(a, b)
    ensures PagesMapped(b, linear, start, n, w, x, dev)
  {
    forall k | 0 <= k < n
      ensures KthMapped(b, linear, start, k, w, x, dev)
    {
      assert KthMapped(a, linear, start, k, w, x, dev);
      PageStays(a, b, linear, start + k * PAGE_SIZE, w, x, dev);
    }
  }

  lemma PageStays(a: Arm, b: Arm, linear: nat, pa: nat, w: bool, x: bool, dev: bool)
    requires PageMapped(a, linear, pa, w, x, dev) && Keeps(a, b)
    ensures PageMapped(b, linear, pa, w, x, dev)
  {
  }

  lemma PagesGrow(a: Arm, b: Arm, linear: nat, start: nat, n: nat, pa: nat, w: bool, x: bool, dev: bool)
    requires PagesMapped(a, linear, start, n, w, x, dev) && Keeps(a, b)
    requires pa == start + n * PAGE_SIZE && PageMapped(b, linear, pa, w, x, dev)
    ensures PagesMapped(b, linear, start, n + 1, w, x, dev)
  {
    PagesStay(a, b, linear, start, n, w, x, dev);
  }

  lemma RangeStep(a: Arm, b: Arm, c: Arm, fine: bool, linear: nat, start: nat, n: nat, all: nat, pa: nat,
                  w: bool, x: bool, dev: bool)
    requires Keeps(a, b) && OnlyPages(a, b, linear, start, all) && PagesMapped(b, linear, start, n, w, x, dev)
    requires Keeps(b, c) && OnlyPair(b, c, linear, pa) && pa == start + n * PAGE_SIZE && n < all
    requires fine ==> PageMapped(c, linear, pa, w, x, dev)
    ensures Keeps(a, c) && OnlyPages(a, c, linear, start, all)
    ensures fine ==> PagesMapped(c, linear, start, n + 1, w, x, dev)
  {
    KeepsTrans(a, b, c);
    OnlyPagesStep(a, b, c, linear, start, all, n);
    if fine {
      PagesGrow(b, c, linear, start, n, pa, w, x, dev);
    }
  }

  /** A mapped page walks to itself from the identity address and from the linear address. */
  lemma MappedWalks(a: Arm, linear: nat, pa: nat, w: bool, x: bool, dev: bool)
    requires PageMapped(a, linear, pa, w, x, dev)
    requires pa < HALF <= linear + pa
    ensures ArmWalk(a, pa) == Some(pa) && ArmWalk(a, linear + pa) == Some(pa)
  {
    FrameBack(pa);
  }

  lemma FrameBack(pa: nat)
    requires pa < PA_LIMIT && pa % PAGE_SIZE == 0
    ensures pa / PAGE_SIZE % FRAME_LIMIT * PAGE_SIZE == pa
  {
  }

  /** After a successful page or user call the address walks to the frame it was given. */
  lemma CalledWalks(a: Arm, c: ArmCall)
    requires Sound(a) && !c.LeafCall? && c.pa < PA_LIMIT && Called(a, c).res.Fine?
    ensures ArmWalk(Called(a, c).a, c.va) == Some(c.pa)
  {
    CalledOutcome(a, c);
    TargetSafe(c);
    FrameBack(c.pa);
  }

  /** Number of pages from `lo` rounded down to `hi` rounded up. */
  function RangePages(lo: nat, hi: nat): nat {
    var start, end := lo / PAGE_SIZE, (hi + PAGE_SIZE - 1) / PAGE_SIZE;
    if start < end then end - start else 0
  }

  /** The pages reach past the last byte and not one page further. */
  lemma RangeExact(lo: nat, hi: nat)
    ensures lo < hi ==> hi <= lo / 4096 * 4096 + RangePages(lo, hi) * 4096 < hi + 4096
    ensures hi <= lo / 4096 * 4096 ==> RangePages(lo, hi) == 0
  {
  }

  /** The address arithmetic of `map_range` stays within 64 bits. */
  predicate InWords(linear: nat, lo: nat, hi: nat) {
    && lo < U64_LIMIT && hi + PAGE_SIZE - 1 < U64_LIMIT
    && (RangePages(lo, hi) > 0 ==> linear + (hi - 1) / PAGE_SIZE * PAGE_SIZE < U64_LIMIT)
  }

  function PageStart(pa: nat): nat {
    pa / PAGE_SIZE * PAGE_SIZE
  }

  predicate DevicesInWords(linear: nat, uart: nat) {
    && InWords(linear, PageStart(uart), PageStart(uart) + PAGE_SIZE)
    && InWords(linear, GICD_PHYS, GICD_PHYS + GICD_SIZE)
    && InWords(linear, GICR_PHYS, GICR_PHYS + GICR_SIZE)
  }

  lemma StartHealthy(a: Arm)
    requires a.tables == map[a.base := EmptyTable(), a.base + 1 := EmptyTable()] && a.next == 0
    requires a.tags == map[a.base := T0(a.base), a.base + 1 := T0(a.base + 1)]
    ensures Healthy(a) && forall high, p :: Seen(a, high, p) == Missing
  {
    NothingSeen(a);
  }

  lemma NothingSeen(a: Arm)
    requires a.tables == map[a.base := EmptyTable(), a.base + 1 := EmptyTable()]
    ensures forall high, p :: Seen(a, high, p) == Missing
  {
  }

  class Stage1Space {
    const base: nat
    var tables: Tables<Desc>
    var poolNext: nat
    ghost var tags: Tags

    ghost function Value(): Arm
      reads this
    {
      Arm(base, tables, poolNext, tags)
    }

    constructor (b: nat)
      ensures base == b && Healthy(Value())
      ensures forall high, p :: Seen(Value(), high, p) == Missing
    {
      base := b;
      tables := map[b := EmptyTable(), b + 1 := EmptyTable()];
      poolNext := 0;
      tags := map[b := T0(b), b + 1 := T0(b + 1)];
      new;
      StartHealthy(Value());
    }

    /** `map_desc`: the four-level walk with tables drawn from the pool. */
    method MapDescriptor(high: bool, va: nat, leaf: Desc) returns (r: ArmRes<()>)
      requires Healthy(Value()) && WxDesc(leaf)
      modifies this
      ensures ArmOut(Value(), r) == MapDesc(old(Value()), high, PageOf(va), leaf)
    {
      ghost var a0 := Value();
      var p := PageOf(va);
      var table, level := if high then base + 1 else base, 0;
      while level < 3
        invariant level <= 3
        invariant ArmOut(Value(), Fine(table)) == ArmTable(a0, high, p, level)
      {
        ArmTableView(a0, high, p, level);
        OnWalkTag(Value(), high, p, level, table);
        var next := FollowEntry(table, Index(p, level));
        level := level + 1;
        if next.Fault? {
          ArmTableStops(a0, high, p, level);
          return Fault(next.error);
        }
        table := next.value;
      }
      ArmTableView(a0, high, p, level);
      OnWalkTag(Value(), high, p, level, table);
      if !tables[table][p.i3].Absent? {
        return Fault(Mapped);
      }
      tables := tables[table := tables[table][p.i3 := Block(leaf)]];
      return Fine(());
    }

    method FollowEntry(table: nat, index: nat) returns (r: ArmRes<nat>)
      requires Linkable(Value(), table, index)
      modifies this
      ensures ArmOut(Value(), r) == Follow(old(Value()), table, index)
    {
      var entry := tables[table][index];
      if entry.Next? {
        return Fine(entry.frame);
      }
      if poolNext >= POOL_TABLES {
        return Fault(TableExhausted);
      }
      var f := base + 2 + poolNext;
      poolNext := poolNext + 1;
      tags := tags[f := Child(tags[table], index, ENTRIES)];
      tables := tables[table := tables[table][index := Next(f)]];
      tables := tables[f := EmptyTable()];
      return Fine(f);
    }

    /** `map_leaf`. */
    method MapLeaf(high: bool, va: nat, pa: nat, writable: bool, executable: bool, device: bool) returns (r: ArmRes<()>)
      requires Healthy(Value())
      modifies this
      ensures Healthy(Value())
      ensures ArmOut(Value(), r) == Called(old(Value()), LeafCall(high, va, pa, writable, executable, device))
    {
      ghost var a := Value();
      var leaf := LeafDesc(pa, writable, executable, device);
      if leaf.Fault? {
        return Fault(leaf.error);
      }
      r := MapDescriptor(high, va, leaf.value);
      CalledHealthy(a, LeafCall(high, va, pa, writable, executable, device));
    }

    /** `map_page`: the flags choose a user or a kernel leaf, the address chooses the root. */
    method MapPage(va: nat, pa: nat, flags: Flags) returns (r: ArmRes<()>)
      requires Healthy(Value())
      modifies this
      ensures Healthy(Value()) && ArmOut(Value(), r) == Called(old(Value()), PageCall(va, pa, flags))
      ensures r.Fine? && pa < PA_LIMIT ==> ArmWalk(Value(), va) == Some(pa)
    {
      ghost var a := Value();
      if va % PAGE_SIZE != 0 || pa % PAGE_SIZE != 0 {
        return Fault(Unaligned);
      }
      var executable := !flags.noExecute;
      if flags.writable && executable {
        return Fault(WxViolation);
      }
      var leaf := if flags.user then LeafDescUser(pa, flags.writable) else LeafDesc(pa, flags.writable, executable, false);
      r := MapDescriptor(va >= HALF, va, leaf.value);
      CalledHealthy(a, PageCall(va, pa, flags));
      if r.Fine? && pa < PA_LIMIT {
        CalledWalks(a, PageCall(va, pa, flags));
      }
    }

    /** `map_user_page`: lower half only. */
    method MapUserPage(va: nat, pa: nat, writable: bool) returns (r: ArmRes<()>)
      requires Healthy(Value())
      modifies this
      ensures Healthy(Value()) && ArmOut(Value(), r) == Called(old(Value()), UserCall(va, pa, writable))
      ensures r.Fine? && pa < PA_LIMIT ==> ArmWalk(Value(), va) == Some(pa)
    {
      ghost var a := Value();
      if !IsUserVa(va) {
        return Fault(Unaligned);
      }
      var leaf := LeafDescUser(pa, writable);
      if leaf.Fault? {
        return Fault(leaf.error);
      }
      r := MapDescriptor(false, va, leaf.value);
      CalledHealthy(a, UserCall(va, pa, writable));
      if r.Fine? && pa < PA_LIMIT {
        CalledWalks(a, UserCall(va, pa, writable));
      }
    }

    /** One round of `map_range`: identity first, then linear. */
    method MapBoth(linear: nat, pa: nat, writable: bool, executable: bool, device: bool) returns (r: ArmRes<()>)
      requires Healthy(Value())
      modifies this
      ensures Healthy(Value()) && Keeps(old(Value()), Value()) && OnlyPair(old(Value()), Value(), linear, pa)
      ensures r.Fine? ==> PageMapped(Value(), linear, pa, writable, executable, device)
    {
      ghost var a := Value();
      r := MapLeaf(false, pa, pa, writable, executable, device);
      LeafCallStep(a, LeafCall(false, pa, pa, writable, executable, device), linear, pa);
      if r.Fault? {
        return;
      }
      ghost var b := Value();
      r := MapLeaf(true, linear + pa, pa, writable, executable, device);
      LeafCallStep(b, LeafCall(true, linear + pa, pa, writable, executable, device), linear, pa);
      KeepsTrans(a, b, Value());
      PairTrans(a, b, Value(), linear, pa);
    }

    /** `map_range`: on success every page of the rounded range is mapped under both roots; success or
        not, what was mapped before stays and nothing outside the range is mapped. */
    method MapRange(linear: nat, lo: nat, hi: nat, writable: bool, executable: bool, device: bool) returns (r: ArmRes<()>)
      requires Healthy(Value()) && InWords(linear, lo, hi)
      modifies this
      ensures Healthy(Value()) && Keeps(old(Value()), Value())
      ensures OnlyPages(old(Value()), Value(), linear, PageStart(lo), RangePages(lo, hi))
      ensures r.Fine? ==> RangeMapped(Value(), linear, lo, hi, writable, executable, device)
    {
      ghost var a := Value();
      var start, end := PageStart(lo), (hi + PAGE_SIZE - 1) / PAGE_SIZE * PAGE_SIZE;
      var pa := start;
      ghost var n, all := 0, RangePages(lo, hi);
      while pa < end
        invariant pa == start + n * PAGE_SIZE && n <= all
        invariant Healthy(Value()) && Keeps(a, Value()) && OnlyPages(a, Value(), linear, start, all)
        invariant PagesMapped(Value(), linear, start, n, writable, executable, device)
      {
        r := MapNext(linear, start, pa, n, all, writable, executable, device, a);
        if r.Fault? {
          return;
        }
        pa := pa + PAGE_SIZE;
        n := n + 1;
      }
      return Fine(());
    }

    method MapNext(linear: nat, ghost start: nat, pa: nat, ghost n: nat, ghost all: nat,
                   writable: bool, executable: bool, device: bool, ghost a: Arm) returns (r: ArmRes<()>)
      requires Healthy(Value()) && Keeps(a, Value()) && pa == start + n * PAGE_SIZE && n < all
      requires PagesMapped(Value(), linear, start, n, writable, executable, device)
      requires OnlyPages(a, Value(), linear, start, all)
      modifies this
      ensures Healthy(Value()) && Keeps(a, Value()) && OnlyPages(a, Value(), linear, start, all)
      ensures r.Fine? ==> PagesMapped(Value(), linear, start, n + 1, writable, executable, device)
    {
      ghost var b := Value();
      r := MapBoth(linear, pa, writable, executable, device);
      RangeStep(a, b, Value(), r.Fine?, linear, start, n, all, pa, writable, executable, device);
    }

    /** `build_stage1_map`: text, rodata, data and three device windows, each with its own attributes. */
    method BuildStage1Map(linear: nat, text: nat, rodata: nat, dataStart: nat, end: nat, uart: nat) returns (r: ArmRes<()>)
      requires Healthy(Value())
      requires InWords(linear, text, rodata) && InWords(linear, rodata, dataStart) && InWords(linear, dataStart, end)
      requires DevicesInWords(linear, uart)
      modifies this
      ensures Healthy(Value()) && Keeps(old(Value()), Value())
      ensures r.Fine? ==> KernelMapped(Value(), linear, text, rodata, dataStart, end, uart)
    {
      ghost var a := Value();
      r := MapRange(linear, text, rodata, false, true, false);
      if r.Fault? { return; }
      ghost var b := Value();
      r := MapRange(linear, rodata, dataStart, false, false, false);
      KeepsTrans(a, b, Value());
      if r.Fault? { return; }
      ghost var c := Value();
      r := MapRange(linear, dataStart, end, true, false, false);
      KeepsTrans(a, c, Value());
      if r.Fault? { return; }
      ghost var d := Value();
      r := MapDevices(linear, uart);
      KeepsTrans(a, d, Value());
      if r.Fine? {
        KeepsTrans(c, d, Value());
        KeepsTrans(b, c, Value());
        RangeStays(b, Value(), linear, text, rodata, false, true, false);
        RangeStays(c, Value(), linear, rodata, dataStart, false, false, false);
        RangeStays(d, Value(), linear, dataStart, end, true, false, false);
      }
    }

    method MapDevices(linear: nat, uart: nat) returns (r: ArmRes<()>)
      requires Healthy(Value()) && DevicesInWords(linear, uart)
      modifies this
      ensures Healthy(Value()) && Keeps(old(Value()), Value())
      ensures r.Fine? ==> DevicesMapped(Value(), linear, uart)
    {
      ghost var a := Value();
      var page := PageStart(uart);
      r := MapRange(linear, page, page + PAGE_SIZE, true, false, true);
      if r.Fault? { return; }
      ghost var b := Value();
      r := MapRange(linear, GICD_PHYS, GICD_PHYS + GICD_SIZE, true, false, true);
      KeepsTrans(a, b, Value());
      if r.Fault? { return; }
      ghost var c := Value();
      r := MapRange(linear, GICR_PHYS, GICR_PHYS + GICR_SIZE, true, false, true);
      KeepsTrans(a, c, Value());
      if r.Fine? {
        KeepsTrans(b, c, Value());
        RangeStays(b, Value(), linear, page, page + PAGE_SIZE, true, false, true);
        RangeStays(c, Value(), linear, GICD_PHYS, GICD_PHYS + GICD_SIZE, true, false, true);
      }
    }
  }

  ghost predicate RangeMapped(a: Arm, linear: nat, lo: nat, hi: nat, w: bool, x: bool, dev: bool) {
    PagesMapped(a, linear, PageStart(lo), RangePages(lo, hi), w, x, dev)
  }

  lemma RangeStays(a: Arm, b: Arm, linear: nat, lo: nat, hi: nat, w: bool, x: bool, dev: bool)
    requires RangeMapped(a, linear, lo, hi, w, x, dev) && Keeps(a, b)
    ensures RangeMapped(b, linear, lo, hi, w, x, dev)
  {
    PagesStay(a, b, linear, PageStart(lo), RangePages(lo, hi), w, x, dev);
  }

  /** UART and interrupt controller windows: writable, never executable, device memory. */
  ghost predicate DevicesMapped(a: Arm, linear: nat, uart: nat) {
    var page := PageStart(uart);
    && RangeMapped(a, linear, page, page + PAGE_SIZE, true, false, true)
    && RangeMapped(a, linear, GICD_PHYS, GICD_PHYS + GICD_SIZE, true, false, true)
    && RangeMapped(a, linear, GICR_PHYS, GICR_PHYS + GICR_SIZE, true, false, true)
  }

  /** Text executes and is read-only, rodata is neither writable nor executable, data is writable. */
  ghost predicate KernelMapped(a: Arm, linear: nat, text: nat, rodata: nat, dataStart: nat, end: nat, uart: nat) {
    && RangeMapped(a, linear, text, rodata, false, true, false)
    && RangeMapped(a, linear, rodata, dataStart, false, false, false)
    && RangeMapped(a, linear, dataStart, end, true, false, false)
    && DevicesMapped(a, linear, uart)
  }

  /** Every page of a mapped range walks back to itself from both of its addresses. */
  lemma RangeWalks(a: Arm, linear: nat, lo: nat, hi: nat, w: bool, x: bool, dev: bool, pa: nat)
    requires RangeMapped(a, linear, lo, hi, w, x, dev)
    requires pa % PAGE_SIZE == 0 && lo < pa + PAGE_SIZE && pa < hi && pa < HALF <= linear + pa
    ensures ArmWalk(a, pa) == Some(pa) && ArmWalk(a, linear + pa) == Some(pa)
  {
    var k := pa / PAGE_SIZE - lo / PAGE_SIZE;
    assert 0 <= k < RangePages(lo, hi) && PageStart(lo) + k * PAGE_SIZE == pa;
    assert KthMapped(a, linear, PageStart(lo), k, w, x, dev);
    MappedWalks(a, linear, pa, w, x, dev);
  }

  /** A kernel page with these attributes at one address, looked up from the first or the second root. */
  ghost predicate SeenAs(a: Arm, high: bool, va: nat, readOnly: bool, never: bool, device: bool) {
    var found := Lookup(a.tables, if high then a.base + 1 else a.base, PageOf(va));
    && found.Small? && !found.leaf.el0 && found.leaf.readOnly == readOnly
    && found.leaf.uxn == never && found.leaf.pxn == never && found.leaf.device == device
  }

  lemma RangeSeen(a: Arm, linear: nat, lo: nat, hi: nat, w: bool, x: bool, dev: bool, pa: nat)
    requires RangeMapped(a, linear, lo, hi, w, x, dev) && pa % PAGE_SIZE == 0 && lo < pa + PAGE_SIZE && pa < hi
    ensures SeenAs(a, false, pa, !w, dev || !x, dev) && SeenAs(a, true, linear + pa, !w, dev || !x, dev)
  {
    var k := pa / PAGE_SIZE - lo / PAGE_SIZE;
    assert 0 <= k < RangePages(lo, hi) && PageStart(lo) + k * PAGE_SIZE == pa;
    assert KthMapped(a, linear, PageStart(lo), k, w, x, dev);
    TargetExact(LeafCall(false, pa, pa, w, x, dev));
  }

  /** After `build_stage1_map` every page of the kernel image and of the device windows is there under both
      roots: text read-only and executable, rodata read-only, data writable, devices writable device memory,
      and nothing but text executable. */
  lemma KernelSeen(a: Arm, linear: nat, text: nat, rodata: nat, dataStart: nat, end: nat, uart: nat, pa: nat)
    requires KernelMapped(a, linear, text, rodata, dataStart, end, uart) && pa % 4096 == 0
    ensures text < pa + 4096 && pa < rodata ==>
      SeenAs(a, false, pa, true, false, false) && SeenAs(a, true, linear + pa, true, false, false)
    ensures rodata < pa + 4096 && pa < dataStart ==>
      SeenAs(a, false, pa, true, true, false) && SeenAs(a, true, linear + pa, true, true, false)
    ensures dataStart < pa + 4096 && pa < end ==>
      SeenAs(a, false, pa, false, true, false) && SeenAs(a, true, linear + pa, false, true, false)
    ensures pa == uart / 4096 * 4096 || 0x0800_0000 <= pa < 0x0801_0000 || 0x080A_0000 <= pa < 0x080C_0000 ==>
      SeenAs(a, false, pa, false, true, true) && SeenAs(a, true, linear + pa, false, true, true)
  {
    if text < pa + 4096 && pa < rodata { RangeSeen(a, linear, text, rodata, false, true, false, pa); }
    if rodata < pa + 4096 && pa < dataStart { RangeSeen(a, linear, rodata, dataStart, false, false, false, pa); }
    if dataStart < pa + 4096 && pa < end { RangeSeen(a, linear, dataStart, end, true, false, false, pa); }
    if pa == uart / 4096 * 4096 { RangeSeen(a, linear, PageStart(uart), PageStart(uart) + PAGE_SIZE, true, false, true, pa); }
    if 0x0800_0000 <= pa < 0x0801_0000 { RangeSeen(a, linear, GICD_PHYS, GICD_PHYS + GICD_SIZE, true, false, true, pa); }
    if 0x080A_0000 <= pa < 0x080C_0000 { RangeSeen(a, linear, GICR_PHYS, GICR_PHYS + GICR_SIZE, true, false, true, pa); }
  }

  lemma ArmTableStops(a: Arm, high: bool, p: Page, k: nat)
    requires k <= 3 && ArmTable(a, high, p, k).res.Fault?
    ensures ArmTable(a, high, p, LEAF_LEVEL) == ArmTable(a, high, p, k)
    decreases 3 - k
  {
    if k < 3 {
      ArmTableStops(a, high, p, k + 1);
    }
  }
}
