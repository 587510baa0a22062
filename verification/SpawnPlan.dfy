/** What loading a process costs: the outcome of a series of page requests on a new space as a
    function of the pages asked for and of the number of free frames alone, without the tables.
 */
module SpawnPlan {
  import opened Radix
  import opened Paging
  import opened UserMemory
  import opened Segments
  import opened Elf

  const STACK_TOP := 0x7FFF_FFFF_F000
  const STACK_SIZE := 0x1_0000

  datatype ProcessError =
    | SlotsFull | Mmu(error: MmuError) | PmAllocFailed | BadAddress | BadElf(fault: ElfError)

  datatype Done = Fine | Failed(error: ProcessError)

  function Max(a: nat, b: nat): nat {
    if a < b then b else a
  }

  /** The deepest table on the walk to `p` once the pages `done` are mapped. */
  function Deepest(done: seq<Page>, p: Page): (d: nat)
    ensures d <= 3
  {
    if done == [] then 0 else Max(Deepest(done[..|done| - 1], p), Prefix(done[|done| - 1], p))
  }

  lemma DeepestNext(done: seq<Page>, p: Page, q: Page)
    ensures Deepest(done + [p], q) == Max(Deepest(done, q), Prefix(p, q))
  {
    assert (done + [p])[..|done|] == done;
  }

  //
  // Requests and progress
  //

  /** A page mapped at its own address, or a user page backed by a frame of its own. */
  datatype Req = Boot(va: nat) | User(va: nat)

  /** The pages mapped so far and the frames left, or the error that ended the series. */
  datatype Progress = Going(done: seq<Page>, frames: nat) | Stopped(error: ProcessError)

  /** One request. */
  function Then(s: Progress, r: Req): Progress {
    if s.Stopped? then s
    else if r.User? && s.frames == 0 then Stopped(PmAllocFailed)
    else
      var left, p := if r.User? then s.frames - 1 else s.frames, PageOf(r.va);
      if r.va % PAGE_SIZE != 0 || (r.User? && r.va >= USER_LIMIT) then Stopped(Mmu(UnalignedAddress))
      else if p in s.done then Stopped(Mmu(AlreadyMapped))
      else if left < 3 - Deepest(s.done, p) then Stopped(Mmu(FrameAllocFailed))
      else Going(s.done + [p], left - (3 - Deepest(s.done, p)))
  }

  function Steps(s: Progress, rs: seq<Req>): Progress {
    if rs == [] then s else Then(Steps(s, rs[..|rs| - 1]), rs[|rs| - 1])
  }

  lemma {:induction false} StepsConcat(s: Progress, a: seq<Req>, b: seq<Req>)
    ensures Steps(s, a + b) == Steps(Steps(s, a), b)
    decreases |b|
  {
    if b == [] {
      assert a + b == a;
    } else {
      var b' := b[..|b| - 1];
      assert (a + b)[..|a + b| - 1] == a + b';
      StepsConcat(s, a, b');
    }
  }

  lemma StepsNext(s: Progress, rs: seq<Req>, r: Req)
    ensures Steps(s, rs + [r]) == Then(Steps(s, rs), r)
  {
    assert (rs + [r])[..|rs|] == rs;
  }

  lemma {:induction false} StepsStopped(s: Progress, rs: seq<Req>)
    requires s.Stopped?
    ensures Steps(s, rs) == s
  {
    if rs != [] {
      StepsStopped(s, rs[..|rs| - 1]);
    }
  }

  /** A prefix that stops decides the whole series. */
  lemma StopsEarly(s: Progress, rs: seq<Req>, k: nat)
    requires k <= |rs| && Steps(s, rs[..k]).Stopped?
    ensures Steps(s, rs) == Steps(s, rs[..k])
  {
    assert rs == rs[..k] + rs[k..];
    StepsConcat(s, rs[..k], rs[k..]);
    StepsStopped(Steps(s, rs[..k]), rs[k..]);
  }

  //
  // The requests of one process
  //

  function RegionReqs(base: nat, n: nat): (rs: seq<Req>)
    ensures |rs| == n
  {
    seq(n, (i: nat) => User(base + i * PAGE_SIZE))
  }

  function BootReqs(bottom: nat, n: nat): (rs: seq<Req>)
    ensures |rs| == n
  {
    seq(n, (i: nat) => Boot(bottom + i * PAGE_SIZE))
  }

  function LoadReqs(loads: seq<ProgramHeader>): seq<Req> {
    if loads == [] then []
    else LoadReqs(loads[..|loads| - 1]) + RegionReqs(loads[|loads| - 1].vaddr, PageSpan(loads[|loads| - 1]))
  }

  function ImageReqs(image: Image, bottom: nat, top: nat): seq<Req>
    requires bottom <= top
  {
    BootReqs(bottom, (top - bottom) / PAGE_SIZE) + LoadReqs(image.loads)
  }

  /** Where the boot stack lies, and where the user stack goes. */
  datatype Stacks = Stacks(bottom: nat, top: nat, userTop: nat, userSize: nat)

  /** A user stack of whole pages that starts in the user half. */
  predicate Placed(top: nat, size: nat) {
    0 < size <= top && size % PAGE_SIZE == 0 && IsUserVa(top - size)
  }

  predicate Sensible(k: Stacks) {
    k.bottom <= k.top && Placed(k.userTop, k.userSize)
  }

  function StackRegion(top: nat, size: nat): seq<Req>
    requires Placed(top, size)
  {
    RegionReqs(top - size, size / PAGE_SIZE)
  }

  /** Boot stack, segments in file order, user stack. */
  function ProcessReqs(image: Image, k: Stacks): seq<Req>
    requires Sensible(k)
  {
    ImageReqs(image, k.bottom, k.top) + StackRegion(k.userTop, k.userSize)
  }

  lemma RegionNext(s: Progress, base: nat, n: nat)
    ensures Steps(s, RegionReqs(base, n + 1)) == Then(Steps(s, RegionReqs(base, n)), User(base + n * PAGE_SIZE))
  {
    assert RegionReqs(base, n + 1) == RegionReqs(base, n) + [User(base + n * PAGE_SIZE)];
    StepsNext(s, RegionReqs(base, n), User(base + n * PAGE_SIZE));
  }

  lemma RegionStops(s: Progress, base: nat, k: nat, n: nat)
    requires k <= n && Steps(s, RegionReqs(base, k)).Stopped?
    ensures Steps(s, RegionReqs(base, n)) == Steps(s, RegionReqs(base, k))
  {
    assert RegionReqs(base, n)[..k] == RegionReqs(base, k);
    StopsEarly(s, RegionReqs(base, n), k);
  }

  lemma RegionProgress(s: Progress, now: Progress, next: Progress, end: Progress, stopped: bool, base: nat, i: nat, n: nat)
    requires i < n && now == Steps(s, RegionReqs(base, i)) && next == Then(now, User(base + i * PAGE_SIZE))
    requires end == Steps(s, RegionReqs(base, n)) && (stopped ==> next.Stopped?)
    ensures next == Steps(s, RegionReqs(base, i + 1)) && (stopped ==> next == end)
  {
    RegionNext(s, base, i);
    if stopped {
      RegionStops(s, base, i + 1, n);
    }
  }

  lemma BootNext(s: Progress, bottom: nat, n: nat)
    ensures Steps(s, BootReqs(bottom, n + 1)) == Then(Steps(s, BootReqs(bottom, n)), Boot(bottom + n * PAGE_SIZE))
  {
    assert BootReqs(bottom, n + 1) == BootReqs(bottom, n) + [Boot(bottom + n * PAGE_SIZE)];
    StepsNext(s, BootReqs(bottom, n), Boot(bottom + n * PAGE_SIZE));
  }

  lemma BootStops(s: Progress, bottom: nat, k: nat, n: nat)
    requires k <= n && Steps(s, BootReqs(bottom, k)).Stopped?
    ensures Steps(s, BootReqs(bottom, n)) == Steps(s, BootReqs(bottom, k))
  {
    assert BootReqs(bottom, n)[..k] == BootReqs(bottom, k);
    StopsEarly(s, BootReqs(bottom, n), k);
  }

  lemma LoadNextReqs(s: Progress, loads: seq<ProgramHeader>, i: nat)
    requires i < |loads|
    ensures Steps(s, LoadReqs(loads[..i + 1]))
         == Steps(Steps(s, LoadReqs(loads[..i])), RegionReqs(loads[i].vaddr, PageSpan(loads[i])))
  {
    assert loads[..i + 1][..i] == loads[..i];
    StepsConcat(s, LoadReqs(loads[..i]), RegionReqs(loads[i].vaddr, PageSpan(loads[i])));
  }

  lemma {:induction false} LoadPrefix(loads: seq<ProgramHeader>, k: nat)
    requires k <= |loads|
    ensures LoadReqs(loads[..k]) <= LoadReqs(loads)
    decreases |loads|
  {
    if k < |loads| {
      var front := loads[..|loads| - 1];
      LoadPrefix(front, k);
      assert front[..k] == loads[..k];
    } else {
      assert loads[..k] == loads;
    }
  }

  /** A segment that stops decides the whole image. */
  lemma LoadStops(s: Progress, loads: seq<ProgramHeader>, k: nat)
    requires k <= |loads| && Steps(s, LoadReqs(loads[..k])).Stopped?
    ensures Steps(s, LoadReqs(loads)) == Steps(s, LoadReqs(loads[..k]))
  {
    LoadPrefix(loads, k);
    var front, all := LoadReqs(loads[..k]), LoadReqs(loads);
    assert all[..|front|] == front;
    StopsEarly(s, all, |front|);
  }

  lemma TwoParts(s: Progress, a: seq<Req>, b: seq<Req>)
    ensures Steps(s, a + b) == if Steps(s, a).Stopped? then Steps(s, a) else Steps(Steps(s, a), b)
  {
    StepsConcat(s, a, b);
    if Steps(s, a).Stopped? {
      StepsStopped(Steps(s, a), b);
    }
  }

  lemma ImageSteps(s: Progress, image: Image, bottom: nat, top: nat)
    requires bottom <= top
    ensures Steps(s, ImageReqs(image, bottom, top))
         == var boot := Steps(s, BootReqs(bottom, (top - bottom) / PAGE_SIZE));
            if boot.Stopped? then boot else Steps(boot, LoadReqs(image.loads))
  {
    TwoParts(s, BootReqs(bottom, (top - bottom) / PAGE_SIZE), LoadReqs(image.loads));
  }

  lemma ProcessSteps(s: Progress, image: Image, k: Stacks)
    requires Sensible(k)
    ensures Steps(s, ProcessReqs(image, k))
         == var loaded := Steps(s, ImageReqs(image, k.bottom, k.top));
            if loaded.Stopped? then loaded else Steps(loaded, StackRegion(k.userTop, k.userSize))
  {
    TwoParts(s, ImageReqs(image, k.bottom, k.top), StackRegion(k.userTop, k.userSize));
  }

  //
  // The closed form
  //

  function Pages(rs: seq<Req>): (ps: seq<Page>)
    ensures |ps| == |rs|
  {
    seq(|rs|, i requires 0 <= i < |rs| => PageOf(rs[i].va))
  }

  /** Frames a request costs after others: its own page, and the tables missing on its walk. */
  function Cost(rs: seq<Req>): nat {
    if rs == [] then 0
    else
      var before, r := rs[..|rs| - 1], rs[|rs| - 1];
      Cost(before) + (if r.User? then 1 else 0) + (3 - Deepest(Pages(before), PageOf(r.va)))
  }

  predicate WellPlaced(r: Req) {
    r.va % PAGE_SIZE == 0 && (r.User? ==> r.va < USER_LIMIT)
  }

  /** All requests are well placed and no two ask for one page. */
  predicate Disjoint(rs: seq<Req>) {
    && (forall i | 0 <= i < |rs| :: WellPlaced(rs[i]))
    && (forall i, j | 0 <= i < j < |rs| :: PageOf(rs[i].va) != PageOf(rs[j].va))
  }

  lemma {:induction false} StepsOutcome(n: nat, rs: seq<Req>)
    ensures var s := Steps(Going([], n), rs);
      && (s.Going? <==> Disjoint(rs) && Cost(rs) <= n)
      && (s.Going? ==> s.done == Pages(rs) && s.frames == n - Cost(rs))
    decreases |rs|
  {
    if rs != [] {
      var before, r := rs[..|rs| - 1], rs[|rs| - 1];
      StepsOutcome(n, before);
      assert rs == before + [r];
      DisjointNext(before, r);
      assert Pages(rs) == Pages(before) + [PageOf(r.va)];
    }
  }

  /** One frame goes to the root, the rest to the requests. */
  function Expected(frames: nat, rs: seq<Req>): Done {
    if frames == 0 then Failed(PmAllocFailed)
    else
      var s := Steps(Going([], frames - 1), rs);
      if s.Going? then Fine else Failed(s.error)
  }

  lemma ExpectedFine(frames: nat, rs: seq<Req>)
    ensures Expected(frames, rs).Fine? <==> Disjoint(rs) && 1 + Cost(rs) <= frames
  {
    if frames > 0 {
      StepsOutcome(frames - 1, rs);
    }
  }

  lemma DisjointNext(before: seq<Req>, r: Req)
    ensures Disjoint(before + [r]) <==> Disjoint(before) && WellPlaced(r) && PageOf(r.va) !in Pages(before)
  {
    var rs, ps := before + [r], Pages(before);
    if Disjoint(before) && WellPlaced(r) && PageOf(r.va) !in ps {
      forall i, j | 0 <= i < j < |rs| ensures PageOf(rs[i].va) != PageOf(rs[j].va) {
        assert ps[i] == PageOf(rs[i].va);
      }
    } else if Disjoint(rs) {
      assert forall i | 0 <= i < |before| :: before[i] == rs[i];
      assert rs[|before|] == r;
    }
  }

  /** Disjoint, well-placed requests fail for want of frames only. */
  lemma {:induction false} StepsError(n: nat, rs: seq<Req>)
    requires Disjoint(rs) && Cost(rs) > n
    ensures Steps(Going([], n), rs) in {Stopped(PmAllocFailed), Stopped(Mmu(FrameAllocFailed))}
    decreases |rs|
  {
    StepsOutcome(n, rs);
    var before, r := rs[..|rs| - 1], rs[|rs| - 1];
    assert rs == before + [r];
    DisjointNext(before, r);
    StepsOutcome(n, before);
    if Cost(before) > n {
      StepsError(n, before);
    }
  }

  lemma ClashStep(n: nat, before: seq<Req>, r: Req)
    requires Disjoint(before) && !Disjoint(before + [r]) && Cost(before) + (if r.User? then 1 else 0) <= n
    ensures Then(Steps(Going([], n), before), r)
         == Stopped(Mmu(if WellPlaced(r) then AlreadyMapped else UnalignedAddress))
  {
    StepsOutcome(n, before);
    DisjointNext(before, r);
  }

  /** With frames enough up to there, the first request that clashes or is misplaced is the error. */
  lemma StepsClash(n: nat, rs: seq<Req>, k: nat)
    requires k < |rs| && Disjoint(rs[..k]) && !Disjoint(rs[..k + 1])
    requires Cost(rs[..k]) + (if rs[k].User? then 1 else 0) <= n
    ensures Steps(Going([], n), rs) == Stopped(Mmu(if WellPlaced(rs[k]) then AlreadyMapped else UnalignedAddress))
  {
    assert rs[..k + 1] == rs[..k] + [rs[k]];
    ClashStep(n, rs[..k], rs[k]);
    StepsNext(Going([], n), rs[..k], rs[k]);
    StopsEarly(Going([], n), rs, k + 1);
  }

  //
  // The tables behind it
  //

  /** Below the kernel half, exactly the pages `done` are mapped and exactly their walks are built. */
  ghost predicate Tracks(vm: Vm, root: nat, done: seq<Page>) {
    forall q :: InRange(q) && Lower(q) ==>
      (View(vm, root, q) != Missing <==> q in done) && Built(vm.tables, root, q) == Deepest(done, q)
  }

  ghost predicate Follows(s: Progress, vm: Vm, root: nat) {
    s.Going? && Tracks(vm, root, s.done) && |vm.free| == s.frames
  }

  /** A call ended as foreseen: with the tables in step, or with the foreseen error. */
  ghost predicate Ends(r: Done, s: Progress, vm: Vm, root: nat) {
    if r.Fine? then Follows(s, vm, root) else s == Stopped(r.error)
  }

  /** The descent to level `d` builds exactly the missing levels of the walks it shares. */
  lemma {:induction false} TableForBuilt(vm: Vm, root: nat, p: Page, d: nat, q: Page)
    requires Valid(vm) && Root(vm, root) && InRange(p) && d <= 3 && TableFor(vm, root, p, d).res.Ok?
    ensures Built(TableFor(vm, root, p, d).vm.tables, root, q)
         == Max(Built(vm.tables, root, q), if Prefix(p, q) < d then Prefix(p, q) else d)
  {
    if d > 0 {
      TableForBuilt(vm, root, p, d - 1, q);
      var o := TableFor(vm, root, p, d - 1);
      Descend(o.vm, root, p, d - 1, o.res.value);
      LevelBuilt(o.vm, root, p, d - 1, o.res.value, q);
    }
  }

  lemma LevelBuilt(vm: Vm, root: nat, p: Page, d: nat, g: nat, q: Page)
    requires Walking(vm, root, p, d, g) && d < 3 && TableAt(vm, g, Index(p, d))
    requires AllocOrGet(vm, g, Index(p, d)).res.Ok?
    ensures Built(AllocOrGet(vm, g, Index(p, d)).vm.tables, root, q)
         == if Prefix(p, q) > d then Max(Built(vm.tables, root, q), d + 1) else Built(vm.tables, root, q)
  {
    var i := Index(p, d);
    if At(vm.tables, g, i).Next? {
      if Prefix(p, q) > d {
        NextBuilt(vm.tables, root, p, d, g, q);
      }
    } else {
      var f := Allocator.Lowest(vm.free);
      if Prefix(p, q) > d {
        AbsentBuilt(vm.tables, root, p, d, g, q);
      }
      LinkBuilt(vm.tables, Link(vm.tables, g, i, f), vm.tags, KERNEL_HALF, g, i, f, root, p, d, q);
    }
  }

  lemma AbsentBuilt(ts: Tables<Leaf>, root: nat, p: Page, d: nat, g: nat, q: Page)
    requires d < 3 && Reaches(ts, root, p, d, g) && !At(ts, g, Index(p, d)).Next? && Prefix(p, q) > d
    ensures Built(ts, root, q) == d
  {
  }

  /** A mapped page completes its own walk and nothing else. */
  lemma MapAtBuilt(vm: Vm, root: nat, p: Page, leaf: Leaf, q: Page)
    requires Valid(vm) && Root(vm, root) && InRange(p) && MapAt(vm, root, p, leaf, false).res.Ok?
    ensures Built(MapAt(vm, root, p, leaf, false).vm.tables, root, q) == Max(Built(vm.tables, root, q), Prefix(p, q))
  {
    var d := LeafDepth(false);
    var o := TableFor(vm, root, p, d);
    TableForBuilt(vm, root, p, d, q);
    WalkingTag(o.vm, root, p, d, o.res.value);
    PutLeafBuilt(o.vm.tables, o.res.value, p.i3, leaf, root, q);
  }

  /** A page costs exactly the tables missing on its walk. */
  lemma MapAtFrames(vm: Vm, root: nat, p: Page, leaf: Leaf)
    requires Valid(vm) && Root(vm, root) && InRange(p) && MapAt(vm, root, p, leaf, false).res.Ok?
    ensures |MapAt(vm, root, p, leaf, false).vm.free| == |vm.free| - (3 - Built(vm.tables, root, p))
  {
    var d := LeafDepth(false);
    if Built(vm.tables, root, p) == 3 {
      DescendBuilt(vm, root, p, d);
    } else {
      SmallOutcome(vm, root, p, leaf);
      DescendFresh(vm, root, p, d);
    }
  }

  lemma MapAtViews(vm: Vm, root: nat, p: Page, leaf: Leaf, q: Page)
    requires Valid(vm) && Root(vm, root) && InRange(p) && MapAt(vm, root, p, leaf, false).res.Ok?
    ensures View(MapAt(vm, root, p, leaf, false).vm, root, q) == if q == p then Small(leaf) else View(vm, root, q)
  {
    MapAtRefines(vm, root, p, leaf, false);
    assert Covers(p, false, p) && (q != p ==> !Covers(p, false, q));
  }

  /** One mapping step moves the picture of mapped pages and frames exactly as foreseen. */
  lemma MapFollows(vm: Vm, root: nat, done: seq<Page>, p: Page, leaf: Leaf)
    requires Valid(vm) && Root(vm, root) && InRange(p) && Lower(p) && Tracks(vm, root, done)
    ensures var out := MapAt(vm, root, p, leaf, false);
      && out.res == (if p in done then Err(AlreadyMapped)
                     else if |vm.free| < 3 - Deepest(done, p) then Err(FrameAllocFailed) else Ok(()))
      && (out.res.Ok? ==> Tracks(out.vm, root, done + [p]) && |out.vm.free| == |vm.free| - (3 - Deepest(done, p)))
  {
    SmallOutcome(vm, root, p, leaf);
    var out := MapAt(vm, root, p, leaf, false);
    if out.res.Ok? {
      MapAtFrames(vm, root, p, leaf);
      forall q | InRange(q) && Lower(q)
        ensures View(out.vm, root, q) != Missing <==> q in done + [p]
        ensures Built(out.vm.tables, root, q) == Deepest(done + [p], q)
      {
        MapAtViews(vm, root, p, leaf, q);
        MapAtBuilt(vm, root, p, leaf, q);
        DeepestNext(done, p, q);
      }
    }
  }

  /** One round of the boot-stack loop. */
  lemma BootFollows(s: Progress, vm: Vm, root: nat, va: nat)
    requires Valid(vm) && Root(vm, root) && Follows(s, vm, root) && va < USER_LIMIT
    ensures var out := MapPage(vm, root, va, va, KernelData());
      && (out.res.Ok? ==> Follows(Then(s, Boot(va)), out.vm, root))
      && (out.res.Err? ==> Then(s, Boot(va)) == Stopped(Mmu(out.res.error)))
  {
    UserHalf(va);
    if va % PAGE_SIZE == 0 {
      MapFollows(vm, root, s.done, PageOf(va), SmallLeaf(va, KernelData().(present := true)));
    }
  }

  lemma ClaimFollows(s: Progress, vm: Vm, root: nat, f: nat)
    requires Tidy(vm, root) && f in vm.free && Follows(s, vm, root)
    ensures Follows(s.(frames := s.frames - 1), Claim(vm, f), root)
  {
    assert |vm.free - {f}| == |vm.free| - 1;
    forall q ensures View(Claim(vm, f), root, q) == View(vm, root, q) {
    }
  }

  lemma UserMapAt(vm: Vm, root: nat, f: nat, va: nat, writable: bool)
    requires Valid(vm) && Root(vm, root) && IsUserVa(va)
    ensures MapUserPage(vm, root, va, f * PAGE_SIZE, writable)
         == MapAt(vm, root, PageOf(va), SmallLeaf(f * PAGE_SIZE, UserFlags(writable).(present := true)), false)
  {
  }

  /** One round of `map_user_region`, its frame claimed. */
  lemma UserFollows(s: Progress, vm: Vm, root: nat, f: nat, va: nat, writable: bool)
    requires Tidy(vm, root) && f in vm.free && Follows(s, vm, root)
    requires Valid(Claim(vm, f)) && Root(Claim(vm, f), root)
    ensures var out := MapUserPage(Claim(vm, f), root, va, f * PAGE_SIZE, writable);
      && (out.res.Ok? ==> Follows(Then(s, User(va)), out.vm, root))
      && (out.res.Err? ==> Then(s, User(va)) == Stopped(Mmu(out.res.error)))
  {
    ClaimFollows(s, vm, root, f);
    assert s.frames > 0;
    if IsUserVa(va) {
      ClaimedFollows(s, Claim(vm, f), root, f, va, writable);
    }
  }

  lemma ClaimedFollows(s: Progress, mid: Vm, root: nat, f: nat, va: nat, writable: bool)
    requires Valid(mid) && Root(mid, root) && IsUserVa(va)
    requires s.Going? && s.frames > 0 && Follows(s.(frames := s.frames - 1), mid, root)
    ensures var out := MapUserPage(mid, root, va, f * PAGE_SIZE, writable);
      && (out.res.Ok? ==> Follows(Then(s, User(va)), out.vm, root))
      && (out.res.Err? ==> Then(s, User(va)) == Stopped(Mmu(out.res.error)))
  {
    UserHalf(va);
    UserMapAt(mid, root, f, va, writable);
    MapFollows(mid, root, s.done, PageOf(va), SmallLeaf(f * PAGE_SIZE, UserFlags(writable).(present := true)));
  }
}
