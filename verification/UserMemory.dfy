/** User memory read through the page tables, and the steps by which a loader fills it:
    claiming a cleared frame, mapping it, and copying file bytes into it.
 */
module UserMemory {
  import opened Radix
  import opened Paging
  import opened Words

  const MAX_FRAME := 0x100_0000_0000

  /** The contents of a mapped user page. */
  ghost function PageBytes(vm: Vm, root: nat, q: Page): Option<seq<byte>> {
    match View(vm, root, q)
    case Small(l) => if l.frame in vm.data then Some(vm.data[l.frame]) else None
    case _ => None
  }

  /** Reading one byte of user memory. */
  ghost function ReadUser(vm: Vm, root: nat, va: nat): Option<byte> {
    match PageBytes(vm, root, PageOf(va))
    case Some(b) => if va % PAGE_SIZE < |b| then Some(b[va % PAGE_SIZE]) else None
    case None => None
  }

  predicate Lower(q: Page) {
    q.i0 < KERNEL_HALF
  }

  /** Lower-half page `q` maps frame `f`. */
  ghost predicate Holds(vm: Vm, root: nat, q: Page, f: nat) {
    Lower(q) && View(vm, root, q).Small? && View(vm, root, q).leaf.frame == f
  }

  /** The lower half of `root` maps no free frame, and no two of its pages share a user frame. */
  ghost predicate Tidy(vm: Vm, root: nat) {
    && Valid(vm) && Root(vm, root)
    && (forall f :: f in vm.free ==> f < MAX_FRAME)
    && (forall f :: f in vm.data ==> |vm.data[f]| == PAGE_SIZE)
    && (forall q, f :: Holds(vm, root, q, f) ==> f !in vm.free)
    && (forall q, q', f :: Holds(vm, root, q, f) && Holds(vm, root, q', f) && f in vm.data ==> q == q')
  }

  /** `vm'` adds to the lower half of `root` and leaves everything else as it was: other tables,
      existing user frames, other spaces, pages already mapped. */
  ghost predicate Extends(vm: Vm, vm': Vm, root: nat) {
    && vm'.free <= vm.free
    && (forall f :: f in vm.tags ==> f in vm'.tags && vm'.tags[f] == vm.tags[f])
    && (forall f :: f in vm'.tags && f !in vm.tags ==> OwnerOf(vm'.tags[f]) == Private(root))
    && (forall f :: f in vm.tables && f in vm.tags && OwnerOf(vm.tags[f]) != Private(root) ==>
          f in vm'.tables && vm'.tables[f] == vm.tables[f])
    && (forall f :: f in vm.data ==> f in vm'.data && vm'.data[f] == vm.data[f])
    && (forall f :: f in vm'.data ==> f in vm.data || f in vm.free)
    && (forall q :: View(vm, root, q) != Missing || !Lower(q) ==> View(vm', root, q) == View(vm, root, q))
  }

  lemma ExtendsTrans(a: Vm, b: Vm, c: Vm, root: nat)
    requires WellTagged(a.tables, a.tags, KERNEL_HALF) && Extends(a, b, root) && Extends(b, c, root)
    ensures Extends(a, c, root)
  {
  }

  lemma ExtendsKeepsBytes(vm: Vm, vm': Vm, root: nat, q: Page)
    requires Extends(vm, vm', root) && PageBytes(vm, root, q).Some?
    ensures PageBytes(vm', root, q) == PageBytes(vm, root, q)
  {
  }

  //
  // Claiming a frame and mapping it
  //

  /** `alloc_frame` followed by clearing the page. */
  ghost function Claim(vm: Vm, f: nat): Vm {
    vm.(free := vm.free - {f}, data := vm.data[f := Zeros(PAGE_SIZE)])
  }

  lemma ClaimTidy(vm: Vm, root: nat, f: nat)
    requires Tidy(vm, root) && f in vm.free
    ensures Tidy(Claim(vm, f), root) && Extends(vm, Claim(vm, f), root)
    ensures forall q :: !Holds(Claim(vm, f), root, q, f)
  {
    forall q, g
      ensures Holds(Claim(vm, f), root, q, g) <==> Holds(vm, root, q, g)
    {
    }
  }

  /** The leaf's frame is not free and not yet reachable from the lower half as a user frame. */
  ghost predicate Unused(vm: Vm, root: nat, f: nat) {
    f !in vm.free && (f in vm.data ==> forall q :: !Holds(vm, root, q, f))
  }

  lemma GrownTidy(vm: Vm, vm': Vm, root: nat, i0: nat)
    requires Tidy(vm, root) && i0 < KERNEL_HALF && Grown(vm, vm') && Confined(vm, vm', root, i0)
    ensures Tidy(vm', root) && Extends(vm, vm', root)
  {
    forall q, f
      ensures Holds(vm', root, q, f) <==> Holds(vm, root, q, f)
    {
      assert View(vm', root, q) == View(vm, root, q);
    }
  }

  lemma MapsOnlyTidy(vm: Vm, vm': Vm, root: nat, p: Page, leaf: Leaf)
    requires Tidy(vm, root) && Lower(p) && Unused(vm, root, leaf.frame) && MapsOnly(vm, vm', root, p, leaf, false)
    ensures Tidy(vm', root) && Extends(vm, vm', root)
    ensures View(vm, root, p) == Missing && View(vm', root, p) == Small(leaf)
  {
    assert Covers(p, false, p);
    forall q
      ensures View(vm', root, q) == if q == p then Small(leaf) else View(vm, root, q)
    {
      assert Covers(p, false, q) <==> q == p;
    }
    forall q, f | Holds(vm', root, q, f)
      ensures if q == p then f == leaf.frame else Holds(vm, root, q, f)
    {
    }
  }

  /** Mapping an unused frame below the kernel half extends the space and keeps it tidy, whether or
      not the call succeeds. */
  lemma MapTidy(vm: Vm, root: nat, p: Page, leaf: Leaf)
    requires Tidy(vm, root) && InRange(p) && Lower(p) && Unused(vm, root, leaf.frame)
    ensures var out := MapAt(vm, root, p, leaf, false);
      && Tidy(out.vm, root) && Extends(vm, out.vm, root)
      && (out.res.Ok? ==> View(vm, root, p) == Missing && View(out.vm, root, p) == Small(leaf))
  {
    var out := MapAt(vm, root, p, leaf, false);
    MapAtRefines(vm, root, p, leaf, false);
    if out.res.Ok? {
      MapsOnlyTidy(vm, out.vm, root, p, leaf);
    } else {
      GrownTidy(vm, out.vm, root, p.i0);
    }
  }

  lemma UserLeaf(f: nat, writable: bool)
    requires f < MAX_FRAME
    ensures SmallLeaf(f * PAGE_SIZE, UserFlags(writable).(present := true)) == Leaf(f, UserFlags(writable))
  {
  }

  /** Claiming a frame and mapping it at page `p`: on success the page reads as zeros. */
  lemma ClaimAndMap(vm: Vm, root: nat, f: nat, p: Page, flags: Flags)
    requires Tidy(vm, root) && f in vm.free && InRange(p) && Lower(p)
    ensures Valid(Claim(vm, f)) && Root(Claim(vm, f), root)
    ensures var out := MapAt(Claim(vm, f), root, p, Leaf(f, flags), false);
      && Tidy(out.vm, root) && Extends(vm, out.vm, root)
      && (out.res.Ok? ==>
            && View(vm, root, p) == Missing
            && View(out.vm, root, p) == Small(Leaf(f, flags))
            && PageBytes(out.vm, root, p) == Some(Zeros(PAGE_SIZE)))
  {
    ClaimTidy(vm, root, f);
    var mid := Claim(vm, f);
    MapTidy(mid, root, p, Leaf(f, flags));
    ClaimThen(vm, mid, MapAt(mid, root, p, Leaf(f, flags), false).vm, root, f, p);
  }

  lemma ClaimThen(vm: Vm, mid: Vm, vm': Vm, root: nat, f: nat, p: Page)
    requires WellTagged(vm.tables, vm.tags, KERNEL_HALF) && mid == Claim(vm, f)
    requires Extends(vm, mid, root) && Extends(mid, vm', root)
    ensures Extends(vm, vm', root) && View(mid, root, p) == View(vm, root, p)
    ensures f in vm'.data && vm'.data[f] == Zeros(PAGE_SIZE)
  {
    ExtendsTrans(vm, mid, vm', root);
  }

  /** One round of `map_user_region`. */
  lemma UserPageStep(vm: Vm, root: nat, f: nat, va: nat, writable: bool)
    requires Tidy(vm, root) && f in vm.free
    ensures Valid(Claim(vm, f)) && Root(Claim(vm, f), root)
    ensures var out := MapUserPage(Claim(vm, f), root, va, f * PAGE_SIZE, writable);
      && Tidy(out.vm, root) && Extends(vm, out.vm, root)
      && (out.res.Ok? ==>
            && IsUserVa(va)
            && View(vm, root, PageOf(va)) == Missing
            && View(out.vm, root, PageOf(va)) == Small(Leaf(f, UserFlags(writable)))
            && PageBytes(out.vm, root, PageOf(va)) == Some(Zeros(PAGE_SIZE)))
  {
    ClaimTidy(vm, root, f);
    if IsUserVa(va) {
      UserHalf(va);
      UserLeaf(f, writable);
      ClaimAndMap(vm, root, f, PageOf(va), UserFlags(writable));
    }
  }

  //
  // Writing into a mapped page
  //

  ghost function WriteFrame(vm: Vm, f: nat, off: nat, bytes: seq<byte>): Vm
    requires f in vm.data && off + |bytes| <= |vm.data[f]|
  {
    vm.(data := vm.data[f := Splice(vm.data[f], off, bytes)])
  }

  /** A copy into one page's frame shows on that page only. */
  lemma WriteShows(vm: Vm, root: nat, q: Page, f: nat, off: nat, bytes: seq<byte>)
    requires Tidy(vm, root) && Holds(vm, root, q, f) && f in vm.data && off + |bytes| <= PAGE_SIZE
    ensures var vm' := WriteFrame(vm, f, off, bytes);
      && Tidy(vm', root)
      && PageBytes(vm', root, q) == Some(Splice(vm.data[f], off, bytes))
      && (forall q' :: Lower(q') && q' != q ==> PageBytes(vm', root, q') == PageBytes(vm, root, q'))
  {
    var vm' := WriteFrame(vm, f, off, bytes);
    forall q', g
      ensures Holds(vm', root, q', g) <==> Holds(vm, root, q', g)
    {
    }
    forall q' | Lower(q') && q' != q
      ensures PageBytes(vm', root, q') == PageBytes(vm, root, q')
    {
      if View(vm, root, q').Small? {
        assert Holds(vm, root, q', View(vm, root, q').leaf.frame);
      }
    }
  }

  /** Writing into a frame that was still free at the start touches nothing that existed then. */
  lemma WriteExtends(was: Vm, vm: Vm, root: nat, f: nat, off: nat, bytes: seq<byte>)
    requires Valid(was) && Extends(was, vm, root) && f in was.free
    requires f in vm.data && off + |bytes| <= |vm.data[f]|
    ensures Extends(was, WriteFrame(vm, f, off, bytes), root)
  {
    forall q ensures View(WriteFrame(vm, f, off, bytes), root, q) == View(vm, root, q) {
    }
  }

  //
  // The boot stack: reserved frames mapped at their own address
  //

  lemma IdentityLeaf(va: nat)
    requires va < USER_LIMIT
    ensures SmallLeaf(va, KernelData().(present := true)) == Leaf(va / PAGE_SIZE, KernelData())
  {
  }

  lemma ExtendsSelf(vm: Vm, root: nat)
    ensures Extends(vm, vm, root)
  {
  }

  lemma BootPageStep(vm: Vm, vm': Vm, res: Res<()>, root: nat, va: nat)
    requires Tidy(vm, root) && va < USER_LIMIT && va / PAGE_SIZE !in vm.free && va / PAGE_SIZE !in vm.data
    requires Out(vm', res) == MapPage(vm, root, va, va, KernelData())
    ensures Tidy(vm', root) && Extends(vm, vm', root) && vm'.data == vm.data
  {
    if va % PAGE_SIZE != 0 {
      ExtendsSelf(vm, root);
    } else {
      UserHalf(va);
      IdentityLeaf(va);
      MapTidy(vm, root, PageOf(va), Leaf(va / PAGE_SIZE, KernelData()));
      MapAtRefines(vm, root, PageOf(va), Leaf(va / PAGE_SIZE, KernelData()), false);
    }
  }
}
