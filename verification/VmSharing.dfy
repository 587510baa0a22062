/** Runs of mapping calls through roots that share part of the kernel half: the exact contents of every
    page of every space, whoever mapped it.  Two roots share a page when their root entries for it
    lead to one table.
 */
module VmSharing {
  import opened Radix
  import opened Paging
  import opened Spaces
  import opened VmRuns

  //
  // Below the roots, every table has one parent
  //

  ghost predicate Leads<L>(ts: Tables<L>, tags: Tags, f: nat, i: nat, t: nat) {
    f in tags && !tags[f].T0? && At(ts, f, i) == Next(t)
  }

  /** No two tables below the roots lead to one table. */
  ghost predicate OneParent<L>(ts: Tables<L>, tags: Tags) {
    forall f, i, g, j, t :: Leads(ts, tags, f, i, t) && Leads(ts, tags, g, j, t) ==> f == g
  }

  lemma LinkOneParent<L>(ts: Tables<L>, tags: Tags, ts': Tables<L>, tags': Tags, split: nat, h: nat, k: nat, n: nat)
    requires CanLink(ts, tags, split, h, k, n) && OneParent(ts, tags)
    requires ts' == Link(ts, h, k, n) && tags' == tags[n := Child(tags[h], k, split)]
    ensures OneParent(ts', tags')
  {
    forall f, i, g, j, t | Leads(ts', tags', f, i, t) && Leads(ts', tags', g, j, t)
      ensures f == g
    {
      LinkLeads(ts, tags, ts', tags', split, h, k, n, f, i, t);
      LinkLeads(ts, tags, ts', tags', split, h, k, n, g, j, t);
    }
  }

  /** Only the linked entry leads to the new table, and the other entries lead where they led. */
  lemma LinkLeads<L>(ts: Tables<L>, tags: Tags, ts': Tables<L>, tags': Tags, split: nat, h: nat, k: nat, n: nat,
                     f: nat, i: nat, t: nat)
    requires CanLink(ts, tags, split, h, k, n) && Leads(ts', tags', f, i, t)
    requires ts' == Link(ts, h, k, n) && tags' == tags[n := Child(tags[h], k, split)]
    ensures if t == n then f == h else Leads(ts, tags, f, i, t)
  {
    assert f != n;
    if f != h || i != k {
      assert At(ts, f, i) == Next(t);
      assert SlotOk(ts[f][i], tags, tags[f], i, split);
    }
  }

  lemma PutOneParent<L>(ts: Tables<L>, tags: Tags, h: nat, k: nat, l: L)
    requires OneParent(ts, tags) && h in ts && k < |ts[h]| && ts[h][k] == Absent
    ensures OneParent(Put(ts, h, k, Block(l)), tags)
  {
    var ts' := Put(ts, h, k, Block(l));
    forall f, i, t | Leads(ts', tags, f, i, t) ensures Leads(ts, tags, f, i, t) {
    }
  }

  /** Changing or adding a root changes nothing below the roots. */
  lemma RootsOneParent<L>(ts: Tables<L>, tags: Tags, ts': Tables<L>, tags': Tags, root: nat)
    requires OneParent(ts, tags) && root in tags' && tags'[root].T0?
    requires forall f :: f in tags' && f != root ==> f in tags && tags[f] == tags'[f]
    requires forall f :: f in ts' && f != root ==> f in ts && ts[f] == ts'[f]
    ensures OneParent(ts', tags')
  {
    forall f, i, t | Leads(ts', tags', f, i, t) ensures Leads(ts, tags, f, i, t) {
    }
  }

  ghost predicate Forked(vm: Vm) {
    OneParent(vm.tables, vm.tags)
  }

  lemma AllocForked(vm: Vm, g: nat, i: nat)
    requires TableAt(vm, g, i) && Forked(vm)
    ensures Forked(AllocOrGet(vm, g, i).vm)
  {
    if At(vm.tables, g, i).Absent? && vm.free != {} {
      var f := Allocator.Lowest(vm.free);
      var vm' := LinkFresh(vm, g, i, f);
      LinkOneParent(vm.tables, vm.tags, vm'.tables, vm'.tags, KERNEL_HALF, g, i, f);
    }
  }

  lemma {:induction false} TableForForked(vm: Vm, root: nat, p: Page, d: nat)
    requires Valid(vm) && Root(vm, root) && InRange(p) && d <= 3 && Forked(vm)
    ensures Forked(TableFor(vm, root, p, d).vm)
  {
    if d > 0 {
      TableForForked(vm, root, p, d - 1);
      var o := TableFor(vm, root, p, d - 1);
      if o.res.Ok? {
        Descend(o.vm, root, p, d - 1, o.res.value);
        AllocForked(o.vm, o.res.value, Index(p, d - 1));
      }
    }
  }

  lemma MapAtForked(vm: Vm, root: nat, p: Page, leaf: Leaf, large: bool)
    requires Valid(vm) && Root(vm, root) && InRange(p) && Forked(vm)
    ensures Forked(MapAt(vm, root, p, leaf, large).vm)
  {
    var d := LeafDepth(large);
    TableForForked(vm, root, p, d);
    var o := TableFor(vm, root, p, d);
    if o.res.Ok? {
      WalkingTag(o.vm, root, p, d, o.res.value);
      if At(o.vm.tables, o.res.value, Index(p, d)).Absent? {
        PutOneParent(o.vm.tables, o.vm.tags, o.res.value, Index(p, d), leaf);
      }
    }
  }

  lemma NewSpaceForked(vm: Vm, kernel: nat)
    requires Valid(vm) && Root(vm, kernel) && Forked(vm)
    ensures Forked(NewSpace(vm, kernel).vm)
  {
    if vm.free != {} {
      var f := Allocator.Lowest(vm.free);
      WithRootValid(vm, f);
      var vm' := NewSpace(vm, kernel).vm;
      RootsOneParent(vm.tables, vm.tags, vm'.tables, vm'.tags, f);
    }
  }

  lemma StepForked(vm: Vm, c: Call)
    requires Valid(vm) && Root(vm, c.root) && Forked(vm)
    ensures Forked(Step(vm, c).vm)
  {
    if c.SpaceCall? {
      NewSpaceForked(vm, c.root);
    } else {
      assert c.UserCall? ==> UserFlags(c.writable).(present := true) == UserFlags(c.writable);
      MapAtForked(vm, c.root, PageOf(c.va), Asked(c), c.LargeCall?);
    }
  }

  //
  // Who shares a page
  //

  /** Both roots lead to one table for the pages below entry `i`. */
  ghost predicate Joined(vm: Vm, r: nat, root: nat, i: nat) {
    r == root || (At(vm.tables, r, i).Next? && At(vm.tables, r, i) == At(vm.tables, root, i))
  }

  /** Walks that meet below the roots have been together since the roots. */
  lemma WalksMeet<L>(ts: Tables<L>, tags: Tags, split: nat, r: nat, q: Page, root: nat, p: Page, d: nat, t: nat)
    requires WellTagged(ts, tags, split) && OneParent(ts, tags) && IsRoot(tags, r) && IsRoot(tags, root)
    requires 1 <= d <= 3 && Reaches(ts, r, q, d, t) && Reaches(ts, root, p, d, t)
    ensures At(ts, r, q.i0) == At(ts, root, p.i0)
  {
    if d > 1 {
      var f, g := Before(ts, tags, split, r, q, d, t), Before(ts, tags, split, root, p, d, t);
      assert f == g;
      WalksMeet(ts, tags, split, r, q, root, p, d - 1, f);
    }
  }

  /** The table one step before. */
  ghost function Before<L>(ts: Tables<L>, tags: Tags, split: nat, r: nat, q: Page, d: nat, t: nat): (f: nat)
    requires WellTagged(ts, tags, split) && IsRoot(tags, r) && 2 <= d <= 3 && Reaches(ts, r, q, d, t)
    ensures Reaches(ts, r, q, d - 1, f) && Leads(ts, tags, f, Index(q, d - 1), t)
  {
    var f1 := At(ts, r, q.i0).frame;
    ReachesTag(ts, tags, split, r, q, 1, f1);
    if d == 2 then f1
    else
      var f2 := At(ts, f1, q.i1).frame;
      ReachesTag(ts, tags, split, r, q, 2, f2);
      f2
  }

  /** A root entry that was empty leads to a fresh table after the descent. */
  lemma {:induction false} RootEntryFresh(vm: Vm, root: nat, p: Page, d: nat)
    requires Valid(vm) && Root(vm, root) && InRange(p) && 1 <= d <= 3 && TableFor(vm, root, p, d).res.Ok?
    requires !At(vm.tables, root, p.i0).Next?
    ensures var e := At(TableFor(vm, root, p, d).vm.tables, root, p.i0); e.Next? && e.frame in vm.free
  {
    var o := TableFor(vm, root, p, d - 1);
    Descend(o.vm, root, p, d - 1, o.res.value);
    if d > 1 {
      RootEntryFresh(vm, root, p, d - 1);
      AllocRootEntries(o.vm, root, p, d - 1, o.res.value);
    }
  }

  lemma LeadsInside(vm: Vm, r: nat, i: nat)
    requires Valid(vm) && Root(vm, r) && At(vm.tables, r, i).Next?
    ensures At(vm.tables, r, i).frame in vm.tables && At(vm.tables, r, i).frame !in vm.free
  {
    assert SlotOk(vm.tables[r][i], vm.tags, vm.tags[r], i, KERNEL_HALF);
  }

  /** A leaf mapped through one root shows through another only if they are joined. */
  lemma ShowsOnlyJoined(vm: Vm, root: nat, p: Page, leaf: Leaf, large: bool, r: nat, q: Page)
    requires Valid(vm) && Root(vm, root) && Root(vm, r) && InRange(p) && Forked(vm)
    requires MapAt(vm, root, p, leaf, large).res.Ok? && Covers(p, large, q)
    requires View(MapAt(vm, root, p, leaf, large).vm, r, q) != View(vm, r, q)
    ensures Joined(vm, r, root, q.i0)
  {
    var d := LeafDepth(large);
    var o := TableFor(vm, root, p, d);
    TableForGrown(vm, root, p, d);
    TableForForked(vm, root, p, d);
    TableForRootEntries(vm, root, p, d);
    var t := o.res.value;
    WalkingTag(o.vm, root, p, d, t);
    PutLeafLookup(o.vm.tables, o.vm.tags, KERNEL_HALF, t, Index(p, d), leaf, r, q);
    assert View(o.vm, r, q) == View(vm, r, q);
    WalksMeet(o.vm.tables, o.vm.tags, KERNEL_HALF, r, q, root, p, d, t);
    if r != root {
      LeadsInside(vm, r, q.i0);
      if !At(vm.tables, root, p.i0).Next? {
        RootEntryFresh(vm, root, p, d);
        assert false;
      }
    }
  }

  /** One call shows exactly through the roots joined with the one it was made on. */
  lemma SharedStep(vm: Vm, c: Call, r: nat, q: Page)
    requires Valid(vm) && Root(vm, c.root) && Root(vm, r) && Forked(vm)
    ensures var out := Step(vm, c);
      && Valid(out.vm) && Root(out.vm, r) && Forked(out.vm)
      && View(out.vm, r, q) == if out.res.Ok? && Hits(c, q) && Joined(vm, r, c.root, q.i0) then Gives(c) else View(vm, r, q)
  {
    var out := Step(vm, c);
    StepRefines(vm, c);
    StepForked(vm, c);
    if out.res.Ok? && Hits(c, q) && r != c.root {
      if Joined(vm, r, c.root, q.i0) {
        JoinedShows(vm, c, r, q);
      } else if View(out.vm, r, q) != View(vm, r, q) {
        assert c.UserCall? ==> UserFlags(c.writable).(present := true) == UserFlags(c.writable);
        ShowsOnlyJoined(vm, c.root, PageOf(c.va), Asked(c), c.LargeCall?, r, q);
      }
    }
  }

  lemma JoinedShows(vm: Vm, c: Call, r: nat, q: Page)
    requires Valid(vm) && Root(vm, c.root) && Root(vm, r) && r != c.root
    requires Step(vm, c).res.Ok? && Hits(c, q) && Joined(vm, r, c.root, q.i0)
    ensures View(Step(vm, c).vm, r, q) == Gives(c)
  {
    StepRefines(vm, c);
    StepRootEntries(vm, c, r, q.i0);
    StepRootEntries(vm, c, c.root, q.i0);
    assert View(Step(vm, c).vm, c.root, q) == Gives(c);
  }

  //
  // Runs
  //

  /** One page of one space, written by the successful calls through any root joined with it at that moment. */
  ghost function SharedCell(vm: Vm, found: Found<Leaf>, r: nat, q: Page, cs: seq<Call>): Found<Leaf>
    requires Runs(vm, cs)
    decreases cs
  {
    if cs == [] then found
    else
      var out := Step(vm, cs[0]);
      var now := if out.res.Ok? && Hits(cs[0], q) && Joined(vm, r, cs[0].root, q.i0) then Gives(cs[0]) else found;
      SharedCell(out.vm, now, r, q, cs[1..])
  }

  lemma {:induction false} RunForked(vm: Vm, cs: seq<Call>)
    requires Valid(vm) && Runs(vm, cs) && Forked(vm)
    ensures Forked(Final(vm, cs))
    decreases cs
  {
    if cs != [] {
      StepValid(vm, cs[0]);
      StepForked(vm, cs[0]);
      RunForked(Step(vm, cs[0]).vm, cs[1..]);
    }
  }

  /** Every run of calls through any roots gives every page of every space exactly that. */
  lemma {:induction false} RunRefinesShared(vm: Vm, cs: seq<Call>, r: nat, q: Page)
    requires Valid(vm) && Runs(vm, cs) && Root(vm, r) && Forked(vm)
    ensures View(Final(vm, cs), r, q) == SharedCell(vm, View(vm, r, q), r, q, cs)
    decreases cs
  {
    if cs != [] {
      SharedStep(vm, cs[0], r, q);
      RunRefinesShared(Step(vm, cs[0]).vm, cs[1..], r, q);
    }
  }

  /** Roots once joined stay joined, and see the same. */
  lemma {:induction false} JoinedForGood(vm: Vm, cs: seq<Call>, r: nat, root: nat, q: Page)
    requires Valid(vm) && Runs(vm, cs) && Root(vm, r) && Root(vm, root) && Joined(vm, r, root, q.i0)
    ensures Joined(Final(vm, cs), r, root, q.i0)
    ensures View(Final(vm, cs), r, q) == View(Final(vm, cs), root, q)
    decreases cs
  {
    if cs != [] {
      StepValid(vm, cs[0]);
      if r != root {
        StepRootEntries(vm, cs[0], r, q.i0);
        StepRootEntries(vm, cs[0], root, q.i0);
      }
      JoinedForGood(Step(vm, cs[0]).vm, cs[1..], r, root, q);
    }
  }
}
