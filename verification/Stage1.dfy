/** aarch64 stage-1 tables: two roots and a pool of 24 tables handed out in order.  The mapping
    functions work on a value; `Stage1Tables` is the same structure updated in place.
 */
module Stage1 {
  import opened Radix
  import opened Paging

  const POOL_TABLES := 24
  const PA_LIMIT := 0x1_0000_0000_0000
  const HALF := 0x8000_0000_0000
  const FRAME_LIMIT := 0x10_0000_0000

  datatype ArmError = WxViolation | Mapped | TableExhausted | Unaligned
  datatype ArmRes<+T> = Fine(value: T) | Fault(error: ArmError)

  /** A leaf descriptor: output frame, AP bits (EL0 access, read-only), execute-never bits, memory type. */
  datatype Desc = Desc(frame: nat, el0: bool, readOnly: bool, uxn: bool, pxn: bool, device: bool)

  predicate WxDesc(d: Desc) {
    !d.readOnly ==> d.uxn && d.pxn
  }

  /** `leaf_desc`: kernel leaf. */
  function LeafDesc(pa: nat, writable: bool, executable: bool, device: bool): (r: ArmRes<Desc>)
    ensures r.Fine? ==> WxDesc(r.value) && r.value.frame == pa / PAGE_SIZE % FRAME_LIMIT
    ensures r.Fine? <==> !(writable && executable) && pa % PAGE_SIZE == 0
  {
    if writable && executable then Fault(WxViolation)
    else if pa % PAGE_SIZE != 0 then Fault(Unaligned)
    else
      var never := device || writable || !executable;
      Fine(Desc(pa / PAGE_SIZE % FRAME_LIMIT, false, !writable, never, never, device))
  }

  /** `leaf_desc_user`: data pages never execute, code pages never execute in the kernel. */
  function LeafDescUser(pa: nat, writable: bool): (r: ArmRes<Desc>)
    ensures r.Fine? ==> WxDesc(r.value) && r.value.pxn && r.value.frame == pa / PAGE_SIZE % FRAME_LIMIT
    ensures r.Fine? <==> pa % PAGE_SIZE == 0
  {
    if pa % PAGE_SIZE != 0 then Fault(Unaligned)
    else Fine(Desc(pa / PAGE_SIZE % FRAME_LIMIT, true, !writable, writable, true, false))
  }

  //
  // The state: tables, next pool index, tags
  //

  /** `base` is the frame of the first root; the second root and the pool follow it. */
  datatype Arm = Arm(base: nat, tables: Tables<Desc>, next: nat, tags: Tags)

  function RootOf(a: Arm, high: bool): nat {
    if high then a.base + 1 else a.base
  }

  ghost predicate RefersTo(ts: Tables<Desc>, f: nat, i: nat, g: nat) {
    At(ts, f, i) == Next(g)
  }

  /** Tables in use lie below the next pool table. */
  ghost predicate PoolShape(a: Arm) {
    && a.next <= POOL_TABLES
    && (forall f :: f in a.tables ==> f < a.base + 2 + a.next)
    && IsRoot(a.tags, a.base) && IsRoot(a.tags, a.base + 1)
  }

  ghost predicate UniqueTags(tags: Tags) {
    forall f, g :: f in tags && g in tags && tags[f] == tags[g] ==> f == g
  }

  ghost predicate IsReferenced(ts: Tables<Desc>, g: nat) {
    exists f, i :: RefersTo(ts, f, i, g)
  }

  ghost predicate AllReferenced(ts: Tables<Desc>, tags: Tags) {
    forall g :: g in tags && !tags[g].T0? ==> IsReferenced(ts, g)
  }

  ghost predicate LastLeaves(ts: Tables<Desc>, tags: Tags) {
    forall f, i :: At(ts, f, i).Block? ==> f in tags && tags[f].T3?
  }

  ghost predicate Sound(a: Arm) {
    && WellTagged(a.tables, a.tags, ENTRIES)
    && PoolShape(a)
    && LastLeaves(a.tables, a.tags)
  }

  /** No two tables share a tag, and every pool table in use hangs below some entry. */
  ghost predicate Tree(a: Arm) {
    UniqueTags(a.tags) && AllReferenced(a.tables, a.tags)
  }

  ghost function Seen(a: Arm, high: bool, p: Page): Found<Desc> {
    Lookup(a.tables, RootOf(a, high), p)
  }

  /** Each table is referenced by at most one entry of the whole structure. */
  lemma OneReference(a: Arm, f: nat, i: nat, g: nat, j: nat, t: nat)
    requires Sound(a) && Tree(a) && RefersTo(a.tables, f, i, t) && RefersTo(a.tables, g, j, t)
    ensures f == g && i == j
  {
    assert SlotOk(a.tables[f][i], a.tags, a.tags[f], i, ENTRIES);
    assert SlotOk(a.tables[g][j], a.tags, a.tags[g], j, ENTRIES);
    assert a.tags[f] == a.tags[g];
  }

  //
  // Descent
  //

  datatype ArmOut<+T> = ArmOut(a: Arm, res: ArmRes<T>)

  ghost predicate SlotAt(a: Arm, g: nat, i: nat) {
    Sound(a) && g in a.tables && i < ENTRIES && !a.tags[g].T3?
  }

  /** What linking needs of its arguments; always true along a walk (`OnWalkTag`). */
  ghost predicate Linkable(a: Arm, g: nat, i: nat) {
    g in a.tables && i < |a.tables[g]| && g in a.tags && !a.tags[g].T3? && a.base + 2 + a.next !in a.tables
  }

  /** `alloc_table` and the link to it. */
  ghost function LinkNext(a: Arm, g: nat, i: nat): Arm
    requires Linkable(a, g, i)
  {
    var f := a.base + 2 + a.next;
    Arm(a.base, Link(a.tables, g, i, f), a.next + 1, a.tags[f := Child(a.tags[g], i, ENTRIES)])
  }

  /** One level of the `map_desc` loop. */
  ghost function Follow(a: Arm, g: nat, i: nat): ArmOut<nat> {
    var entry := At(a.tables, g, i);
    if entry.Next? then ArmOut(a, Fine(entry.frame))
    else if a.next >= POOL_TABLES || !Linkable(a, g, i) then ArmOut(a, Fault(TableExhausted))
    else ArmOut(LinkNext(a, g, i), Fine(a.base + 2 + a.next))
  }

  /** Same roots, same lookups; only empty tables may have been added. */
  ghost predicate SameView(a: Arm, b: Arm) {
    && Sound(b) && b.base == a.base && a.next <= b.next
    && (forall f :: f in a.tags ==> f in b.tags && b.tags[f] == a.tags[f])
    && (forall high, p :: Seen(b, high, p) == Seen(a, high, p))
  }

  /** A path that ends in an empty entry has no table yet. */
  lemma FreshTag(a: Arm, g: nat, i: nat, h: nat)
    requires SlotAt(a, g, i) && Tree(a) && At(a.tables, g, i) == Absent && h in a.tags
    ensures a.tags[h] != Child(a.tags[g], i, ENTRIES)
  {
  }

  lemma LinkUnique(a: Arm, g: nat, i: nat, f: nat)
    requires SlotAt(a, g, i) && Tree(a) && At(a.tables, g, i) == Absent && f !in a.tags
    ensures UniqueTags(a.tags[f := Child(a.tags[g], i, ENTRIES)])
  {
    forall h | h in a.tags
      ensures a.tags[h] != Child(a.tags[g], i, ENTRIES)
    {
      FreshTag(a, g, i, h);
    }
  }

  lemma LinkReferenced(a: Arm, ts': Tables<Desc>, g: nat, i: nat, f: nat, t: Tag)
    requires SlotAt(a, g, i) && Tree(a) && At(a.tables, g, i) == Absent && f !in a.tables
    requires ts' == Link(a.tables, g, i, f)
    ensures AllReferenced(ts', a.tags[f := t])
  {
    assert RefersTo(ts', g, i, f);
    forall h | h in a.tags && h != f && !a.tags[h].T0?
      ensures IsReferenced(ts', h)
    {
      StillReferenced(a.tables, ts', h);
    }
  }

  lemma StillReferenced(ts: Tables<Desc>, ts': Tables<Desc>, h: nat)
    requires IsReferenced(ts, h) && forall f, i :: At(ts, f, i) != Absent ==> At(ts', f, i) == At(ts, f, i)
    ensures IsReferenced(ts', h)
  {
    var f, i :| RefersTo(ts, f, i, h);
    assert RefersTo(ts', f, i, h);
  }

  lemma LinkLeaves(a: Arm, ts': Tables<Desc>, g: nat, i: nat, f: nat, t: Tag)
    requires SlotAt(a, g, i) && f !in a.tables && ts' == Link(a.tables, g, i, f)
    ensures LastLeaves(ts', a.tags[f := t])
  {
    forall h, j | At(ts', h, j).Block?
      ensures h in a.tags && h != f && a.tags[h].T3?
    {
      assert At(a.tables, h, j).Block?;
    }
  }

  lemma LinkPool(a: Arm, b: Arm, g: nat, i: nat)
    requires SlotAt(a, g, i) && a.next < POOL_TABLES && b == LinkNext(a, g, i)
    ensures PoolShape(b)
  {
  }

  lemma LinkSound(a: Arm, b: Arm, g: nat, i: nat)
    requires SlotAt(a, g, i) && a.next < POOL_TABLES && At(a.tables, g, i) == Absent
    requires b == LinkNext(a, g, i)
    ensures Sound(b)
  {
    var f := a.base + 2 + a.next;
    LinkWellTagged(a.tables, a.tags, ENTRIES, g, i, f);
    LinkLeaves(a, b.tables, g, i, f, Child(a.tags[g], i, ENTRIES));
    LinkPool(a, b, g, i);
  }

  lemma LinkTree(a: Arm, b: Arm, g: nat, i: nat)
    requires SlotAt(a, g, i) && Tree(a) && a.next < POOL_TABLES && At(a.tables, g, i) == Absent
    requires b == LinkNext(a, g, i)
    ensures Tree(b)
  {
    var f := a.base + 2 + a.next;
    LinkUnique(a, g, i, f);
    LinkReferenced(a, b.tables, g, i, f, Child(a.tags[g], i, ENTRIES));
  }

  ghost predicate OnWalk(a: Arm, high: bool, p: Page, d: nat, g: nat) {
    Sound(a) && InRange(p) && d <= 3 && Reaches(a.tables, RootOf(a, high), p, d, g)
  }

  lemma OnWalkTag(a: Arm, high: bool, p: Page, d: nat, g: nat)
    requires OnWalk(a, high, p, d, g)
    ensures g in a.tables && a.tags[g] == PathTag(ENTRIES, RootOf(a, high), p, d)
    ensures d < 3 ==> SlotAt(a, g, Index(p, d)) && Linkable(a, g, Index(p, d)) && !At(a.tables, g, Index(p, d)).Block?
  {
    ReachesTag(a.tables, a.tags, ENTRIES, RootOf(a, high), p, d, g);
  }

  lemma LinkSameView(a: Arm, b: Arm, g: nat, i: nat)
    requires SlotAt(a, g, i) && a.next < POOL_TABLES && At(a.tables, g, i) == Absent && b == LinkNext(a, g, i)
    ensures SameView(a, b)
  {
    LinkSound(a, b, g, i);
    forall high, p ensures Seen(b, high, p) == Seen(a, high, p) {
      LinkSeen(a, b, g, i, high, p);
    }
  }

  lemma LinkSeen(a: Arm, b: Arm, g: nat, i: nat, high: bool, p: Page)
    requires SlotAt(a, g, i) && a.next < POOL_TABLES && At(a.tables, g, i) == Absent && b == LinkNext(a, g, i)
    ensures Seen(b, high, p) == Seen(a, high, p)
  {
    LinkLookup(a.tables, b.tables, a.tags, ENTRIES, g, i, a.base + 2 + a.next, RootOf(a, high), p);
  }

  lemma SameViewSelf(a: Arm)
    requires Sound(a)
    ensures SameView(a, a)
  {
  }

  lemma FollowStep(a: Arm, high: bool, p: Page, d: nat, g: nat)
    requires OnWalk(a, high, p, d, g) && d < 3
    ensures var out := Follow(a, g, Index(p, d));
      SameView(a, out.a) && (out.res.Fine? ==> OnWalk(out.a, high, p, d + 1, out.res.value))
  {
    OnWalkTag(a, high, p, d, g);
    var i, s := Index(p, d), At(a.tables, g, Index(p, d));
    if s.Next? {
      ReachesNext(a.tables, RootOf(a, high), p, d, g, s.frame);
      SameViewSelf(a);
    } else if a.next < POOL_TABLES {
      LinkStep(a, LinkNext(a, g, i), high, p, d, g);
    } else {
      SameViewSelf(a);
    }
  }

  lemma LinkStep(a: Arm, b: Arm, high: bool, p: Page, d: nat, g: nat)
    requires OnWalk(a, high, p, d, g) && d < 3 && SlotAt(a, g, Index(p, d)) && At(a.tables, g, Index(p, d)) == Absent
    requires a.next < POOL_TABLES && b == LinkNext(a, g, Index(p, d))
    ensures SameView(a, b) && OnWalk(b, high, p, d + 1, a.base + 2 + a.next)
  {
    LinkSameView(a, b, g, Index(p, d));
    LinkReaches(a.tables, b.tables, a.tags, ENTRIES, g, Index(p, d), a.base + 2 + a.next, RootOf(a, high), p, d);
  }

  lemma SameViewTrans(a: Arm, b: Arm, c: Arm)
    requires SameView(a, b) && SameView(b, c)
    ensures SameView(a, c)
  {
    forall high, p ensures Seen(c, high, p) == Seen(a, high, p) {
      assert Seen(b, high, p) == Seen(a, high, p);
    }
  }

  /** The first `d` rounds of the `map_desc` loop. */
  ghost function ArmTable(a: Arm, high: bool, p: Page, d: nat): ArmOut<nat>
    requires d <= 3
  {
    if d == 0 then ArmOut(a, Fine(RootOf(a, high)))
    else
      var o := ArmTable(a, high, p, d - 1);
      if o.res.Fault? then o else Follow(o.a, o.res.value, Index(p, d - 1))
  }

  /** The loop adds empty tables only, and arrives when it succeeds. */
  lemma {:induction false} ArmTableView(a: Arm, high: bool, p: Page, d: nat)
    requires Sound(a) && InRange(p) && d <= 3
    ensures Descended(a, ArmTable(a, high, p, d), high, p, d)
  {
    if d == 0 {
      SameViewSelf(a);
    } else {
      ArmTableView(a, high, p, d - 1);
      var o, out := ArmTable(a, high, p, d - 1), ArmTable(a, high, p, d);
      if o.res.Fine? {
        FollowAfter(a, o, out, high, p, d - 1);
      }
    }
  }

  ghost predicate Descended(a: Arm, out: ArmOut<nat>, high: bool, p: Page, d: nat) {
    SameView(a, out.a) && (out.res.Fine? ==> OnWalk(out.a, high, p, d, out.res.value))
  }

  lemma FollowAfter(a: Arm, o: ArmOut<nat>, out: ArmOut<nat>, high: bool, p: Page, d: nat)
    requires Descended(a, o, high, p, d) && d < 3 && o.res.Fine? && out == Follow(o.a, o.res.value, Index(p, d))
    ensures Descended(a, out, high, p, d + 1)
  {
    FollowStep(o.a, high, p, d, o.res.value);
    SameViewTrans(a, o.a, out.a);
  }

  lemma Arrives(a: Arm, high: bool, p: Page, d: nat, o: ArmOut<nat>)
    requires Sound(a) && InRange(p) && d <= 3 && o == ArmTable(a, high, p, d) && o.res.Fine?
    ensures OnWalk(o.a, high, p, d, o.res.value)
  {
    ArmTableView(a, high, p, d);
  }

  const LEAF_LEVEL: nat := 3

  /** `map_desc`. */
  ghost function MapDesc(a: Arm, high: bool, p: Page, leaf: Desc): ArmOut<()> {
    var o := ArmTable(a, high, p, LEAF_LEVEL);
    if o.res.Fault? then ArmOut(o.a, Fault(o.res.error))
    else if At(o.a.tables, o.res.value, p.i3) != Absent then ArmOut(o.a, Fault(Mapped))
    else if o.res.value in o.a.tables && p.i3 < |o.a.tables[o.res.value]| then
      ArmOut(o.a.(tables := Put(o.a.tables, o.res.value, p.i3, Block(leaf))), Fine(()))
    else ArmOut(o.a, Fault(Mapped))
  }

  /** One page appeared under one root; every other page under both roots is unchanged. */
  ghost predicate AddsPage(a: Arm, b: Arm, high: bool, p: Page, leaf: Desc) {
    && Sound(b) && b.base == a.base && a.next <= b.next
    && Seen(a, high, p) == Missing
    && (forall h, q :: Seen(b, h, q) == if h == high && q == p then Small(leaf) else Seen(a, h, q))
  }

  lemma PutSound(a: Arm, b: Arm, g: nat, i: nat, leaf: Desc)
    requires Sound(a) && g in a.tables && i < ENTRIES && a.tags[g].T3? && At(a.tables, g, i) == Absent
    requires b == a.(tables := Put(a.tables, g, i, Block(leaf)))
    ensures Sound(b)
  {
    PutLeafWellTagged(a.tables, a.tags, ENTRIES, g, i, leaf);
    forall h, j | At(b.tables, h, j).Block?
      ensures h in a.tags && a.tags[h].T3?
    {
      assert At(a.tables, h, j).Block? || (h == g && j == i);
    }
  }

  lemma PutTree(a: Arm, b: Arm, g: nat, i: nat, leaf: Desc)
    requires Tree(a) && g in a.tables && i < |a.tables[g]| && At(a.tables, g, i) == Absent
    requires b == a.(tables := Put(a.tables, g, i, Block(leaf)))
    ensures Tree(b)
  {
    forall h | h in a.tags && !a.tags[h].T0?
      ensures IsReferenced(b.tables, h)
    {
      StillReferenced(a.tables, b.tables, h);
    }
  }

  lemma PutAddsPage(a: Arm, b: Arm, high: bool, p: Page, g: nat, leaf: Desc)
    requires OnWalk(a, high, p, 3, g) && At(a.tables, g, p.i3) == Absent
    requires g in a.tables && p.i3 < |a.tables[g]| && b == a.(tables := Put(a.tables, g, p.i3, Block(leaf)))
    ensures AddsPage(a, b, high, p, leaf)
  {
    OnWalkTag(a, high, p, 3, g);
    PutSound(a, b, g, p.i3, leaf);
    forall h, q
      ensures Seen(b, h, q) == if h == high && q == p then Small(leaf) else Seen(a, h, q)
    {
      PutSeen(a, b, high, p, g, leaf, h, q);
    }
  }

  lemma PutSeen(a: Arm, b: Arm, high: bool, p: Page, g: nat, leaf: Desc, h: bool, q: Page)
    requires OnWalk(a, high, p, 3, g) && At(a.tables, g, p.i3) == Absent
    requires g in a.tables && p.i3 < |a.tables[g]| && b == a.(tables := Put(a.tables, g, p.i3, Block(leaf)))
    ensures Seen(b, h, q) == if h == high && q == p then Small(leaf) else Seen(a, h, q)
  {
    OnWalkTag(a, high, p, 3, g);
    PutLeafLookup(a.tables, a.tags, ENTRIES, g, p.i3, leaf, RootOf(a, h), q);
    if Reaches(a.tables, RootOf(a, h), q, 3, g) {
      ReachesTag(a.tables, a.tags, ENTRIES, RootOf(a, h), q, 3, g);
    }
  }

  lemma ViewThenAdds(a: Arm, b: Arm, c: Arm, high: bool, p: Page, leaf: Desc)
    requires SameView(a, b) && AddsPage(b, c, high, p, leaf)
    ensures AddsPage(a, c, high, p, leaf)
  {
    forall h, q ensures Seen(b, h, q) == Seen(a, h, q) {
    }
  }

  /** `map_desc` adds exactly one page under one root, or changes no lookup under either. */
  lemma MapDescRefines(a: Arm, high: bool, p: Page, leaf: Desc)
    requires Sound(a) && InRange(p)
    ensures var out := MapDesc(a, high, p, leaf);
      if out.res.Fine? then AddsPage(a, out.a, high, p, leaf) else SameView(a, out.a)
  {
    var out := MapDesc(a, high, p, leaf);
    ArmTableView(a, high, p, LEAF_LEVEL);
    if out.res.Fine? {
      var o := ArmTable(a, high, p, LEAF_LEVEL);
      OnWalkTag(o.a, high, p, LEAF_LEVEL, o.res.value);
      PutAddsPage(o.a, out.a, high, p, o.res.value, leaf);
      ViewThenAdds(a, o.a, out.a, high, p, leaf);
    }
  }

  //
  // Outcome
  //

  lemma {:induction false} ArmBuilt(a: Arm, high: bool, p: Page, d: nat)
    requires Sound(a) && InRange(p) && d <= Built(a.tables, RootOf(a, high), p)
    ensures ArmTable(a, high, p, d).res.Fine? && ArmTable(a, high, p, d).a == a
  {
    if d > 0 {
      ArmBuilt(a, high, p, d - 1);
      ArmTableView(a, high, p, d - 1);
    }
  }

  lemma FollowAbsent(a: Arm, g: nat, i: nat, j: nat)
    requires Linkable(a, g, i) && At(a.tables, g, i) == Absent
    ensures var out := Follow(a, g, i);
      if a.next >= POOL_TABLES then out == ArmOut(a, Fault(TableExhausted))
      else out.res.Fine? && out.a.next == a.next + 1 && At(out.a.tables, out.res.value, j) == Absent
  {
  }

  lemma ArmEnd(a: Arm, high: bool, p: Page)
    requires Sound(a) && InRange(p) && Built(a.tables, RootOf(a, high), p) < 3
    ensures var b := Built(a.tables, RootOf(a, high), p);
      var o := ArmTable(a, high, p, b);
      o.res.Fine? && o.a == a && At(a.tables, o.res.value, Index(p, b)) == Absent && Seen(a, high, p) == Missing
  {
    var b := Built(a.tables, RootOf(a, high), p);
    ArmBuilt(a, high, p, b);
    ArmTableView(a, high, p, b);
    OnWalkTag(a, high, p, b, ArmTable(a, high, p, b).res.value);
  }

  lemma {:induction false} ArmFresh(a: Arm, high: bool, p: Page, d: nat)
    requires Sound(a) && InRange(p) && Built(a.tables, RootOf(a, high), p) < d <= 3
    ensures var out := ArmTable(a, high, p, d);
      var n := d - Built(a.tables, RootOf(a, high), p);
      if POOL_TABLES < a.next + n then out.res == Fault(TableExhausted)
      else out.res.Fine? && out.a.next == a.next + n && At(out.a.tables, out.res.value, Index(p, d)) == Absent
  {
    if d == Built(a.tables, RootOf(a, high), p) + 1 {
      ArmEnd(a, high, p);
    } else {
      ArmFresh(a, high, p, d - 1);
    }
    var o := ArmTable(a, high, p, d - 1);
    if o.res.Fine? {
      Arrives(a, high, p, d - 1, o);
      AbsentAfter(o.a, ArmTable(a, high, p, d), high, p, d - 1, o.res.value);
    }
  }

  lemma AbsentAfter(a: Arm, out: ArmOut<nat>, high: bool, p: Page, d: nat, g: nat)
    requires OnWalk(a, high, p, d, g) && d < 3 && At(a.tables, g, Index(p, d)) == Absent
    requires out == Follow(a, g, Index(p, d))
    ensures if a.next >= POOL_TABLES then out == ArmOut(a, Fault(TableExhausted))
      else out.res.Fine? && out.a.next == a.next + 1 && At(out.a.tables, out.res.value, Index(p, d + 1)) == Absent
  {
    OnWalkTag(a, high, p, d, g);
    FollowAbsent(a, g, Index(p, d), Index(p, d + 1));
  }

  /** `map_desc` fails exactly on a mapped page or a pool too small for the missing tables. */
  lemma MapDescOutcome(a: Arm, high: bool, p: Page, leaf: Desc)
    requires Sound(a) && InRange(p)
    ensures MapDesc(a, high, p, leaf).res ==
      if Seen(a, high, p) != Missing then Fault(Mapped)
      else if POOL_TABLES < a.next + (3 - Built(a.tables, RootOf(a, high), p)) then Fault(TableExhausted)
      else Fine(())
  {
    var b := Built(a.tables, RootOf(a, high), p);
    if b == 3 {
      ArmBuilt(a, high, p, LEAF_LEVEL);
      ArmTableView(a, high, p, LEAF_LEVEL);
      var g := ArmTable(a, high, p, LEAF_LEVEL).res.value;
      OnWalkTag(a, high, p, LEAF_LEVEL, g);
      assert SlotOk(a.tables[g][p.i3], a.tags, a.tags[g], p.i3, ENTRIES);
    } else {
      ArmEnd(a, high, p);
      ArmFresh(a, high, p, LEAF_LEVEL);
      var o := ArmTable(a, high, p, LEAF_LEVEL);
      ArmTableView(a, high, p, LEAF_LEVEL);
      if o.res.Fine? {
        OnWalkTag(o.a, high, p, LEAF_LEVEL, o.res.value);
      }
    }
  }

  //
  // Every table has one parent, and W^X
  //

  lemma {:induction false} ArmTableTree(a: Arm, high: bool, p: Page, d: nat)
    requires Sound(a) && Tree(a) && InRange(p) && d <= 3
    ensures Tree(ArmTable(a, high, p, d).a)
  {
    var out := ArmTable(a, high, p, d);
    if d == 0 {
      assert out.a == a;
    } else {
      ArmTableTree(a, high, p, d - 1);
      var o := ArmTable(a, high, p, d - 1);
      if o.res.Fine? {
        Arrives(a, high, p, d - 1, o);
        TreeAfter(o.a, out, high, p, d - 1, o.res.value);
      } else {
        assert out == o;
      }
    }
  }

  lemma TreeAfter(a: Arm, out: ArmOut<nat>, high: bool, p: Page, d: nat, g: nat)
    requires OnWalk(a, high, p, d, g) && d < 3 && Tree(a) && out == Follow(a, g, Index(p, d))
    ensures Tree(out.a)
  {
    OnWalkTag(a, high, p, d, g);
    FollowTree(a, g, Index(p, d));
  }

  lemma FollowTree(a: Arm, g: nat, i: nat)
    requires SlotAt(a, g, i) && Tree(a) && !At(a.tables, g, i).Block?
    ensures Tree(Follow(a, g, i).a)
  {
    if At(a.tables, g, i).Absent? && a.next < POOL_TABLES {
      LinkTree(a, LinkNext(a, g, i), g, i);
    }
  }

  /** After every `map_desc`, each pool table is still referenced by at most one entry. */
  lemma MapDescTree(a: Arm, high: bool, p: Page, leaf: Desc)
    requires Sound(a) && Tree(a) && InRange(p)
    ensures Tree(MapDesc(a, high, p, leaf).a)
  {
    ArmTableTree(a, high, p, LEAF_LEVEL);
    ArmTableView(a, high, p, LEAF_LEVEL);
    var o := ArmTable(a, high, p, LEAF_LEVEL);
    if o.res.Fine? && At(o.a.tables, o.res.value, p.i3) == Absent {
      OnWalkTag(o.a, high, p, LEAF_LEVEL, o.res.value);
      PutTree(o.a, MapDesc(a, high, p, leaf).a, o.res.value, p.i3, leaf);
    }
  }

  /** No page visible under either root is writable and executable. */
  ghost predicate WxSeen(a: Arm) {
    forall high, p :: Seen(a, high, p).Small? ==> WxDesc(Seen(a, high, p).leaf)
  }

  lemma MapDescWx(a: Arm, high: bool, p: Page, leaf: Desc)
    requires Sound(a) && InRange(p) && WxSeen(a) && WxDesc(leaf)
    ensures WxSeen(MapDesc(a, high, p, leaf).a)
  {
    MapDescRefines(a, high, p, leaf);
    var b := MapDesc(a, high, p, leaf).a;
    forall h, q | Seen(b, h, q).Small?
      ensures WxDesc(Seen(b, h, q).leaf)
    {
      assert Seen(a, h, q).Small? ==> WxDesc(Seen(a, h, q).leaf);
    }
  }

  //
  // The mapping calls
  //

  /** `map_leaf`, `map_page` and `map_user_page` with their arguments. */
  datatype ArmCall =
    | LeafCall(high: bool, va: nat, pa: nat, writable: bool, executable: bool, device: bool)
    | PageCall(va: nat, pa: nat, flags: Flags)
    | UserCall(va: nat, pa: nat, writable: bool)

  datatype Target = Target(high: bool, leaf: Desc)

  /** What the arguments alone decide: the root and the descriptor, or an error. */
  function TargetOf(c: ArmCall): ArmRes<Target> {
    match c
    case LeafCall(high, _, pa, writable, executable, device) => Aim(high, LeafDesc(pa, writable, executable, device))
    case PageCall(va, pa, flags) =>
      if va % PAGE_SIZE != 0 || pa % PAGE_SIZE != 0 then Fault(Unaligned)
      else if flags.writable && !flags.noExecute then Fault(WxViolation)
      else Aim(va >= HALF, if flags.user then LeafDescUser(pa, flags.writable)
                           else LeafDesc(pa, flags.writable, !flags.noExecute, false))
    case UserCall(va, pa, writable) =>
      if !IsUserVa(va) then Fault(Unaligned) else Aim(false, LeafDescUser(pa, writable))
  }

  function Aim(high: bool, leaf: ArmRes<Desc>): ArmRes<Target> {
    match leaf
    case Fault(e) => Fault(e)
    case Fine(d) => Fine(Target(high, d))
  }

  /** No call can ask for a writable and executable page, and user calls stay below the split. */
  lemma TargetSafe(c: ArmCall)
    requires TargetOf(c).Fine?
    ensures WxDesc(TargetOf(c).value.leaf) && TargetOf(c).value.leaf.frame == c.pa / PAGE_SIZE % FRAME_LIMIT
    ensures c.UserCall? ==> !TargetOf(c).value.high && c.va < HALF
    ensures c.UserCall? || (c.PageCall? && c.flags.user) ==> TargetOf(c).value.leaf.el0 && TargetOf(c).value.leaf.pxn
  {
  }

  /** The descriptor a call asks for, field by field. User pages are reachable from EL0 and never execute
      in the kernel, and execute in EL0 exactly when they are read-only; kernel pages are not, and execute
      exactly when the call says so. */
  lemma TargetExact(c: ArmCall)
    requires TargetOf(c).Fine?
    ensures var t := TargetOf(c).value;
      match c
      case LeafCall(high, _, _, writable, executable, device) =>
        && t.high == high && !t.leaf.el0 && t.leaf.readOnly == !writable && t.leaf.device == device
        && t.leaf.uxn == t.leaf.pxn == (device || !executable)
      case PageCall(va, _, flags) =>
        && t.high == (va >= 0x8000_0000_0000) && t.leaf.el0 == flags.user
        && t.leaf.readOnly == !flags.writable && !t.leaf.device
        && t.leaf.pxn == (flags.user || flags.noExecute)
        && t.leaf.uxn == (if flags.user then flags.writable else flags.noExecute)
      case UserCall(_, _, writable) =>
        && !t.high && t.leaf.el0 && t.leaf.readOnly == !writable && !t.leaf.device
        && t.leaf.pxn && t.leaf.uxn == writable
  {
  }

  /** When the arguments themselves are refused. */
  lemma TargetRefused(c: ArmCall)
    ensures TargetOf(c).Fault? <==>
      match c
      case LeafCall(_, _, pa, writable, executable, _) => pa % 4096 != 0 || (writable && executable)
      case PageCall(va, pa, flags) => va % 4096 != 0 || pa % 4096 != 0 || (flags.writable && !flags.noExecute)
      case UserCall(va, pa, _) => va >= 0x8000_0000_0000 || va % 4096 != 0 || pa % 4096 != 0
  {
  }

  ghost function Called(a: Arm, c: ArmCall): ArmOut<()> {
    match TargetOf(c)
    case Fault(e) => ArmOut(a, Fault(e))
    case Fine(t) => MapDesc(a, t.high, PageOf(c.va), t.leaf)
  }

  /** The exact outcome of a call: the error its arguments deserve, an occupied page, a pool too
      small for the missing tables, or exactly the one page added. */
  lemma CalledOutcome(a: Arm, c: ArmCall)
    requires Sound(a)
    ensures var t, out := TargetOf(c), Called(a, c);
      && (t.Fault? ==> out == ArmOut(a, Fault(t.error)))
      && (t.Fine? ==>
            out.res ==
              if Seen(a, t.value.high, PageOf(c.va)) != Missing then Fault(Mapped)
              else if POOL_TABLES < a.next + (3 - Built(a.tables, RootOf(a, t.value.high), PageOf(c.va)))
              then Fault(TableExhausted) else Fine(()))
      && (if out.res.Fine? then t.Fine? && AddsPage(a, out.a, t.value.high, PageOf(c.va), t.value.leaf)
          else SameView(a, out.a))
  {
    var t := TargetOf(c);
    if t.Fine? {
      MapDescOutcome(a, t.value.high, PageOf(c.va), t.value.leaf);
      MapDescRefines(a, t.value.high, PageOf(c.va), t.value.leaf);
    } else {
      SameViewSelf(a);
    }
  }
}
