/** Whole runs of mapping calls over any number of address spaces: refinement by partial maps,
    provenance of every lookup, sharing of the kernel half, and W^X.
 */
module VmRuns {
  import opened Radix
  import opened Paging
  import opened Spaces

  datatype Call =
    | MapCall(root: nat, va: nat, pa: nat, flags: Flags)
    | UserCall(root: nat, va: nat, pa: nat, writable: bool)
    | LargeCall(root: nat, va: nat, pa: nat, flags: Flags)
    | SpaceCall(root: nat)

  ghost function Step(vm: Vm, c: Call): Out<()>
    requires Valid(vm) && Root(vm, c.root)
  {
    match c
    case MapCall(root, va, pa, flags) => MapPage(vm, root, va, pa, flags)
    case UserCall(root, va, pa, writable) => MapUserPage(vm, root, va, pa, writable)
    case LargeCall(root, va, pa, flags) => Map2MiB(vm, root, va, pa, flags)
    case SpaceCall(root) =>
      var o := NewSpace(vm, root);
      Out(o.vm, if o.res.Ok? then Ok(()) else Err(o.res.error))
  }

  /** The leaf a mapping call asks for. */
  function Asked(c: Call): Leaf
    requires !c.SpaceCall?
  {
    match c
    case MapCall(_, _, pa, flags) => SmallLeaf(pa, flags.(present := true))
    case UserCall(_, _, pa, writable) => SmallLeaf(pa, UserFlags(writable))
    case LargeCall(_, _, pa, flags) => LargeLeaf(pa, flags.(present := true, huge := true))
  }

  function Gives(c: Call): Found<Leaf>
    requires !c.SpaceCall?
  {
    Mapped(Asked(c), c.LargeCall?)
  }

  predicate Hits(c: Call, q: Page) {
    !c.SpaceCall? && Covers(PageOf(c.va), c.LargeCall?, q)
  }

  /** One call: it maps what it asks for where it asks, or changes no lookup at all. */
  ghost predicate StepOk(vm: Vm, c: Call, out: Out<()>) {
    && Valid(out.vm)
    && (forall r :: Root(vm, r) ==> Root(out.vm, r))
    && (forall r, q :: Root(vm, r) ==>
          var before, after := View(vm, r, q), View(out.vm, r, q);
          if out.res.Ok? && Hits(c, q) && r == c.root then before == Missing && after == Gives(c)
          else if out.res.Ok? && Hits(c, q) && KERNEL_HALF <= q.i0 then Kept(before, after, Gives(c))
          else after == before)
  }

  /** What a successful mapping does to one lookup. */
  lemma MapsOnlyAt(vm: Vm, vm': Vm, root: nat, p: Page, leaf: Leaf, large: bool, r: nat, q: Page)
    requires MapsOnly(vm, vm', root, p, leaf, large) && Root(vm, r)
    ensures Root(vm', r)
    ensures var before, after := View(vm, r, q), View(vm', r, q);
      if Covers(p, large, q) && r == root then before == Missing && after == Mapped(leaf, large)
      else if Covers(p, large, q) && KERNEL_HALF <= q.i0 then Kept(before, after, Mapped(leaf, large))
      else after == before
  {
  }

  lemma MappingStep(vm: Vm, c: Call)
    requires Valid(vm) && Root(vm, c.root) && !c.SpaceCall?
    ensures var out := Step(vm, c);
      if out.res.Ok? then MapsOnly(vm, out.vm, c.root, PageOf(c.va), Asked(c), c.LargeCall?) else Grown(vm, out.vm)
  {
    assert c.UserCall? ==> UserFlags(c.writable).(present := true) == UserFlags(c.writable);
    MapAtRefines(vm, c.root, PageOf(c.va), Asked(c), c.LargeCall?);
  }

  lemma StepRefines(vm: Vm, c: Call)
    requires Valid(vm) && Root(vm, c.root)
    ensures StepOk(vm, c, Step(vm, c))
  {
    var out := Step(vm, c);
    if c.SpaceCall? {
      if vm.free != {} {
        NewSpaceView(vm, c.root);
      }
    } else {
      MappingStep(vm, c);
      if out.res.Ok? {
        forall r, q | Root(vm, r) {
          MapsOnlyAt(vm, out.vm, c.root, PageOf(c.va), Asked(c), c.LargeCall?, r, q);
        }
      }
    }
  }

  lemma StepValid(vm: Vm, c: Call)
    requires Valid(vm) && Root(vm, c.root)
    ensures Valid(Step(vm, c).vm) && forall r :: Root(vm, r) ==> Root(Step(vm, c).vm, r)
  {
    StepRefines(vm, c);
  }

  //
  // Runs
  //

  ghost predicate Runs(vm: Vm, cs: seq<Call>)
    decreases cs
  {
    cs == [] || (Valid(vm) && Root(vm, cs[0].root) && Runs(Step(vm, cs[0]).vm, cs[1..]))
  }

  ghost function Final(vm: Vm, cs: seq<Call>): Vm
    requires Runs(vm, cs)
    decreases cs
  {
    if cs == [] then vm else Final(Step(vm, cs[0]).vm, cs[1..])
  }

  ghost function Results(vm: Vm, cs: seq<Call>): (oks: seq<bool>)
    requires Runs(vm, cs)
    ensures |oks| == |cs|
    decreases cs
  {
    if cs == [] then [] else [Step(vm, cs[0]).res.Ok?] + Results(Step(vm, cs[0]).vm, cs[1..])
  }

  /** Unfolding a run, with the state after its first call given a name. */
  lemma RunFirst(vm: Vm, cs: seq<Call>, next: Vm)
    requires cs != [] && Valid(vm) && Root(vm, cs[0].root) && next == Step(vm, cs[0]).vm
    ensures Valid(next)
    ensures Runs(vm, cs) <==> Runs(next, cs[1..])
    ensures Runs(vm, cs) ==>
      Final(vm, cs) == Final(next, cs[1..]) && Results(vm, cs) == [Step(vm, cs[0]).res.Ok?] + Results(next, cs[1..])
  {
    StepValid(vm, cs[0]);
  }

  lemma RunOne(vm: Vm, c: Call)
    requires Valid(vm) && Root(vm, c.root)
    ensures Runs(vm, [c]) && Final(vm, [c]) == Step(vm, c).vm && Results(vm, [c]) == [Step(vm, c).res.Ok?]
  {
    assert [c][1..] == [];
    RunFirst(vm, [c], Step(vm, c).vm);
  }

  lemma {:induction false} RunValid(vm: Vm, cs: seq<Call>)
    requires Valid(vm) && Runs(vm, cs)
    ensures Valid(Final(vm, cs))
    decreases |cs|
  {
    if cs != [] {
      var next := Step(vm, cs[0]).vm;
      RunFirst(vm, cs, next);
      RunValid(next, cs[1..]);
    }
  }

  /** A run one call longer. */
  lemma RunNext(vm: Vm, cs: seq<Call>, c: Call)
    requires Valid(vm) && Runs(vm, cs) && Root(Final(vm, cs), c.root)
    ensures Valid(Final(vm, cs)) && Runs(vm, cs + [c])
    ensures var out := Step(Final(vm, cs), c);
      Final(vm, cs + [c]) == out.vm && Results(vm, cs + [c]) == Results(vm, cs) + [out.res.Ok?]
  {
    RunValid(vm, cs);
    RunOne(Final(vm, cs), c);
    RunsJoin(vm, cs, [c]);
    ResultsJoin(vm, cs, [c]);
  }

  /** A run followed by another. */
  lemma {:induction false} RunsJoin(vm: Vm, a: seq<Call>, b: seq<Call>)
    requires Valid(vm) && Runs(vm, a) && Runs(Final(vm, a), b)
    ensures Runs(vm, a + b) && Final(vm, a + b) == Final(Final(vm, a), b)
    decreases |a|
  {
    if a == [] {
      assert a + b == b;
    } else {
      var next := Step(vm, a[0]).vm;
      FirstOfJoined(a, b);
      RunFirst(vm, a, next);
      RunsJoin(next, a[1..], b);
      RunFirst(vm, a + b, next);
    }
  }

  lemma FirstOfJoined<T>(a: seq<T>, b: seq<T>)
    requires a != []
    ensures a + b != [] && (a + b)[0] == a[0] && (a + b)[1..] == a[1..] + b
  {
  }

  lemma {:induction false} ResultsJoin(vm: Vm, a: seq<Call>, b: seq<Call>)
    requires Valid(vm) && Runs(vm, a) && Runs(Final(vm, a), b) && Runs(vm, a + b)
    ensures Results(vm, a + b) == Results(vm, a) + Results(Final(vm, a), b)
    decreases |a|
  {
    if a == [] {
      assert a + b == b;
    } else {
      var next := Step(vm, a[0]).vm;
      FirstOfJoined(a, b);
      RunFirst(vm, a, next);
      RunFirst(vm, a + b, next);
      ResultsJoin(next, a[1..], b);
      Regrouped([Results(vm, a)[0]], Results(next, a[1..]), Results(Final(vm, a), b), Results(vm, a), Results(vm, a + b));
    }
  }

  lemma Regrouped<T>(x: seq<T>, r1: seq<T>, r2: seq<T>, front: seq<T>, whole: seq<T>)
    requires front == x + r1 && whole == x + (r1 + r2)
    ensures whole == front + r2
  {
  }

  /** Calls on one root can always be made. */
  lemma {:induction false} OneRootRuns(vm: Vm, cs: seq<Call>, root: nat)
    requires Valid(vm) && Root(vm, root) && forall k | 0 <= k < |cs| :: cs[k].root == root
    ensures Runs(vm, cs) && Valid(Final(vm, cs)) && Root(Final(vm, cs), root)
    decreases |cs|
  {
    if cs != [] {
      StepValid(vm, cs[0]);
      OneRootRuns(Step(vm, cs[0]).vm, cs[1..], root);
    }
  }

  /** Nothing that was there is lost: user frames, roots, and mapped pages of every space. */
  ghost predicate Preserves(vm: Vm, vm': Vm) {
    && Valid(vm') && vm'.data == vm.data && vm'.free <= vm.free
    && (forall f :: f in vm.tags ==> f in vm'.tags && vm'.tags[f] == vm.tags[f])
    && (forall r, q :: Root(vm, r) && View(vm, r, q) != Missing ==> View(vm', r, q) == View(vm, r, q))
  }

  lemma MapsOnlyPreserves(vm: Vm, vm': Vm, root: nat, p: Page, leaf: Leaf, large: bool)
    requires MapsOnly(vm, vm', root, p, leaf, large)
    ensures Preserves(vm, vm')
  {
    forall r, q | Root(vm, r) && View(vm, r, q) != Missing ensures View(vm', r, q) == View(vm, r, q) {
      assert Kept(View(vm, r, q), View(vm', r, q), Mapped(leaf, large));
    }
  }

  lemma GrownPreserves(vm: Vm, vm': Vm)
    requires Grown(vm, vm')
    ensures Preserves(vm, vm')
  {
  }

  lemma StepPreserves(vm: Vm, c: Call)
    requires Valid(vm) && Root(vm, c.root)
    ensures Preserves(vm, Step(vm, c).vm)
  {
    var out := Step(vm, c);
    if c.SpaceCall? {
      if vm.free != {} {
        NewSpaceView(vm, c.root);
      }
    } else {
      MappingStep(vm, c);
      if out.res.Ok? {
        MapsOnlyPreserves(vm, out.vm, c.root, PageOf(c.va), Asked(c), c.LargeCall?);
      } else {
        GrownPreserves(vm, out.vm);
      }
    }
  }

  lemma PreservesTrans(a: Vm, b: Vm, c: Vm)
    requires Preserves(a, b) && Preserves(b, c)
    ensures Preserves(a, c)
  {
    forall r, q | Root(a, r) && View(a, r, q) != Missing ensures View(c, r, q) == View(a, r, q) {
      assert Root(b, r) && View(b, r, q) == View(a, r, q);
    }
  }

  lemma {:induction false} RunPreserves(vm: Vm, cs: seq<Call>)
    requires Valid(vm) && Runs(vm, cs)
    ensures Preserves(vm, Final(vm, cs))
    decreases |cs|
  {
    if cs != [] {
      var next := Step(vm, cs[0]).vm;
      StepPreserves(vm, cs[0]);
      RunPreserves(next, cs[1..]);
      PreservesTrans(vm, next, Final(next, cs[1..]));
    }
  }

  /** The partial map: one cell of it, driven by the calls that succeeded. */
  ghost function Cell(found: Found<Leaf>, r: nat, q: Page, cs: seq<Call>, oks: seq<bool>): Found<Leaf>
    requires |oks| == |cs|
    decreases cs
  {
    if cs == [] then found
    else Cell(if oks[0] && Hits(cs[0], q) && cs[0].root == r then Gives(cs[0]) else found, r, q, cs[1..], oks[1..])
  }

  /** The cell belongs to one root: a lower-half page, or an upper-half page no other root asks for. */
  ghost predicate Exclusive(r: nat, q: Page, cs: seq<Call>) {
    q.i0 < KERNEL_HALF || forall k :: 0 <= k < |cs| && Hits(cs[k], q) ==> cs[k].root == r
  }

  /** Every run of mapping calls over any number of spaces is a run of partial maps. */
  lemma {:induction false} RunRefinesMap(vm: Vm, cs: seq<Call>, r: nat, q: Page)
    requires Valid(vm) && Runs(vm, cs) && Root(vm, r) && Exclusive(r, q, cs)
    ensures View(Final(vm, cs), r, q) == Cell(View(vm, r, q), r, q, cs, Results(vm, cs))
    decreases cs
  {
    if cs != [] {
      var next := Step(vm, cs[0]).vm;
      ExclusiveStep(vm, cs[0], r, q);
      assert forall k :: 0 <= k < |cs[1..]| ==> cs[1..][k] == cs[k + 1];
      RunRefinesMap(next, cs[1..], r, q);
      assert Results(vm, cs)[1..] == Results(next, cs[1..]);
    }
  }

  lemma ExclusiveStep(vm: Vm, c: Call, r: nat, q: Page)
    requires Valid(vm) && Root(vm, c.root) && Root(vm, r)
    requires q.i0 < KERNEL_HALF || (Hits(c, q) ==> c.root == r)
    ensures var out := Step(vm, c);
      && Valid(out.vm) && Root(out.vm, r)
      && View(out.vm, r, q) == if out.res.Ok? && Hits(c, q) && c.root == r then Gives(c) else View(vm, r, q)
  {
    StepRefines(vm, c);
  }

  /** In every run, through every root: what was mapped stays, and what became mapped was asked
      for by a successful call on that very page. */
  lemma {:induction false} RunProvenance(vm: Vm, cs: seq<Call>, r: nat, q: Page)
    requires Valid(vm) && Runs(vm, cs) && Root(vm, r)
    ensures View(Final(vm, cs), r, q) == View(vm, r, q)
         || (View(vm, r, q) == Missing
             && exists k :: 0 <= k < |cs| && Results(vm, cs)[k] && Hits(cs[k], q)
                            && View(Final(vm, cs), r, q) == Gives(cs[k]))
    decreases cs
  {
    if cs != [] {
      StepRefines(vm, cs[0]);
      var next := Step(vm, cs[0]).vm;
      RunProvenance(next, cs[1..], r, q);
      var before, after, last := View(vm, r, q), View(next, r, q), View(Final(vm, cs), r, q);
      if after != before {
        assert 0 <= 0 < |cs| && Results(vm, cs)[0] && Hits(cs[0], q) && last == Gives(cs[0]);
      } else if last != after {
        var k :| 0 <= k < |cs[1..]| && Results(next, cs[1..])[k] && Hits(cs[1..][k], q) && last == Gives(cs[1..][k]);
        assert Results(vm, cs)[k + 1] && cs[k + 1] == cs[1..][k];
      }
    }
  }

  //
  // Sharing of the kernel half
  //

  /** No call changes a root entry that is present. */
  lemma StepRootEntries(vm: Vm, c: Call, r: nat, i: nat)
    requires Valid(vm) && Root(vm, c.root) && Root(vm, r) && At(vm.tables, r, i).Next?
    ensures At(Step(vm, c).vm.tables, r, i) == At(vm.tables, r, i)
  {
    if c.SpaceCall? {
      if vm.free != {} {
        NewSpaceView(vm, c.root);
      }
    } else {
      MapAtRootEntries(vm, c.root, PageOf(c.va), Asked(c), c.LargeCall?);
      assert c.UserCall? ==> UserFlags(c.writable).(present := true) == UserFlags(c.writable);
    }
  }

  lemma {:induction false} RunRootEntries(vm: Vm, cs: seq<Call>, r: nat, i: nat)
    requires Valid(vm) && Runs(vm, cs) && Root(vm, r) && At(vm.tables, r, i).Next?
    ensures At(Final(vm, cs).tables, r, i) == At(vm.tables, r, i)
    decreases cs
  {
    if cs != [] {
      StepValid(vm, cs[0]);
      StepRootEntries(vm, cs[0], r, i);
      RunRootEntries(Step(vm, cs[0]).vm, cs[1..], r, i);
    }
  }

  /** A space and the kernel it inherited from translate alike, after every run of calls in any
      spaces, below every root entry that was present at inheritance. */
  lemma RunSharesKernel(vm: Vm, kernel: nat, cs: seq<Call>, q: Page)
    requires Valid(vm) && Root(vm, kernel) && vm.free != {} && Runs(NewSpace(vm, kernel).vm, cs)
    requires KERNEL_HALF <= q.i0 < ENTRIES && At(vm.tables, kernel, q.i0).Next?
    ensures var space := NewSpace(vm, kernel).res.value;
      View(Final(NewSpace(vm, kernel).vm, cs), space, q) == View(Final(NewSpace(vm, kernel).vm, cs), kernel, q)
  {
    var out := NewSpace(vm, kernel);
    NewSpaceView(vm, kernel);
    NewSpaceShares(vm, kernel);
    RunRootEntries(out.vm, cs, kernel, q.i0);
    RunRootEntries(out.vm, cs, out.res.value, q.i0);
  }

  //
  // W^X
  //

  predicate WxLeaf(l: Leaf) {
    l.flags.writable ==> l.flags.noExecute
  }

  /** No leaf of any table is writable and executable. */
  ghost predicate WxTables(ts: Tables<Leaf>) {
    forall f, i :: At(ts, f, i).Block? ==> WxLeaf(At(ts, f, i).leaf)
  }

  lemma PutWx(ts: Tables<Leaf>, g: nat, i: nat, s: Slot<Leaf>)
    requires WxTables(ts) && g in ts && i < |ts[g]| && (s.Block? ==> WxLeaf(s.leaf))
    ensures WxTables(Put(ts, g, i, s))
  {
    forall f, j | At(Put(ts, g, i, s), f, j).Block?
      ensures WxLeaf(At(Put(ts, g, i, s), f, j).leaf)
    {
      assert At(ts, f, j).Block? ==> WxLeaf(At(ts, f, j).leaf);
    }
  }

  lemma AddEmptyWx(ts: Tables<Leaf>, f: nat)
    requires WxTables(ts)
    ensures WxTables(ts[f := EmptyTable()])
  {
    var ts' := ts[f := EmptyTable()];
    forall g, j | At(ts', g, j).Block?
      ensures WxLeaf(At(ts', g, j).leaf)
    {
      assert WxLeaf(At(ts, g, j).leaf);
    }
  }

  lemma {:induction false} TableForWx(vm: Vm, root: nat, p: Page, d: nat)
    requires Valid(vm) && Root(vm, root) && InRange(p) && d <= 3 && WxTables(vm.tables)
    ensures WxTables(TableFor(vm, root, p, d).vm.tables)
  {
    if d > 0 {
      TableForWx(vm, root, p, d - 1);
      var o := TableFor(vm, root, p, d - 1);
      if o.res.Ok? {
        Descend(o.vm, root, p, d - 1, o.res.value);
        AllocWx(o.vm, o.res.value, Index(p, d - 1));
      }
    }
  }

  lemma AllocWx(vm: Vm, g: nat, i: nat)
    requires TableAt(vm, g, i) && WxTables(vm.tables)
    ensures WxTables(AllocOrGet(vm, g, i).vm.tables)
  {
    var out := AllocOrGet(vm, g, i);
    if At(vm.tables, g, i).Absent? && vm.free != {} {
      PutWx(vm.tables, g, i, Next(out.res.value));
      AddEmptyWx(Put(vm.tables, g, i, Next(out.res.value)), out.res.value);
    }
  }

  lemma MapAtWx(vm: Vm, root: nat, p: Page, leaf: Leaf, large: bool)
    requires Valid(vm) && Root(vm, root) && InRange(p) && WxTables(vm.tables) && WxLeaf(leaf)
    ensures WxTables(MapAt(vm, root, p, leaf, large).vm.tables)
  {
    var d := LeafDepth(large);
    TableForWx(vm, root, p, d);
    var o := TableFor(vm, root, p, d);
    if MapAt(vm, root, p, leaf, large).res.Ok? {
      WalkingTag(o.vm, root, p, d, o.res.value);
      PutWx(o.vm.tables, o.res.value, Index(p, d), Block(leaf));
    }
  }

  lemma NewSpaceWx(vm: Vm, kernel: nat)
    requires Valid(vm) && Root(vm, kernel) && WxTables(vm.tables)
    ensures WxTables(NewSpace(vm, kernel).vm.tables)
  {
    var out := NewSpace(vm, kernel);
    if vm.free != {} {
      NewSpaceView(vm, kernel);
      forall f, i | At(out.vm.tables, f, i).Block?
        ensures WxLeaf(At(out.vm.tables, f, i).leaf)
      {
        assert f != out.res.value ==> At(out.vm.tables, f, i) == At(vm.tables, f, i);
        assert f == out.res.value ==> At(out.vm.tables, f, i) == At(vm.tables, kernel, i);
      }
    }
  }

  lemma StepWx(vm: Vm, c: Call)
    requires Valid(vm) && Root(vm, c.root) && WxTables(vm.tables)
    ensures WxTables(Step(vm, c).vm.tables)
  {
    if c.SpaceCall? {
      NewSpaceWx(vm, c.root);
    } else {
      assert c.UserCall? ==> UserFlags(c.writable).(present := true) == UserFlags(c.writable);
      MapAtWx(vm, c.root, PageOf(c.va), Asked(c), c.LargeCall?);
    }
  }

  /** W^X over every run: no reachable leaf, 4 KiB or 2 MiB, is writable and executable. */
  lemma {:induction false} RunWx(vm: Vm, cs: seq<Call>)
    requires Valid(vm) && Runs(vm, cs) && WxTables(vm.tables)
    ensures WxTables(Final(vm, cs).tables)
    ensures forall r, q :: View(Final(vm, cs), r, q) != Missing ==> WxLeaf(View(Final(vm, cs), r, q).leaf)
    decreases cs
  {
    if cs != [] {
      StepWx(vm, cs[0]);
      StepValid(vm, cs[0]);
      RunWx(Step(vm, cs[0]).vm, cs[1..]);
    }
  }
}
