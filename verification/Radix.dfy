/** Four-level radix tables over frame numbers, shared by the x86_64 and the aarch64
    page tables.  `Lookup` is the flat reading of a tree; the lemmas say how linking a
    fresh table, writing a leaf and copying the shared half of a root change it.

    Every table frame carries a tag: the indices that lead to it and the root that owns
    it.  A pointer always leads to a frame tagged with its own path, so a tree walk can
    only meet frames whose tag matches the page being walked.
 */
module Radix {

  const ENTRIES := 512

  /** One decoded table entry: empty, a pointer to the next level, or a leaf. */
  datatype Slot<+L> = Absent | Next(frame: nat) | Block(leaf: L)

  type Tables<+L> = map<nat, seq<Slot<L>>>

  /** The four table indices of a page, outermost first. */
  datatype Page = Page(i0: nat, i1: nat, i2: nat, i3: nat)

  predicate InRange(p: Page) {
    p.i0 < ENTRIES && p.i1 < ENTRIES && p.i2 < ENTRIES && p.i3 < ENTRIES
  }

  function EmptyTable<L>(): seq<Slot<L>> {
    seq(ENTRIES, _ => Absent)
  }

  function At<L>(ts: Tables<L>, f: nat, i: nat): Slot<L> {
    if f in ts && i < |ts[f]| then ts[f][i] else Absent
  }

  datatype Found<+L> = Missing | Small(leaf: L) | Large(leaf: L)

  /** Follow the page's indices from a root: a leaf in the last table, or one level up. */
  function Lookup<L>(ts: Tables<L>, root: nat, p: Page): Found<L> {
    var f1 := At(ts, root, p.i0);
    if !f1.Next? then Missing else
    var f2 := At(ts, f1.frame, p.i1);
    if !f2.Next? then Missing else
    var f3 := At(ts, f2.frame, p.i2);
    if f3.Block? then Large(f3.leaf) else
    if f3.Absent? then Missing else
    var s := At(ts, f3.frame, p.i3);
    if s.Block? then Small(s.leaf) else Missing
  }

  /** The depth of the deepest table that already exists on the walk to `p`. */
  function Built<L>(ts: Tables<L>, root: nat, p: Page): nat {
    var f1 := At(ts, root, p.i0);
    if !f1.Next? then 0 else
    var f2 := At(ts, f1.frame, p.i1);
    if !f2.Next? then 1 else
    if !At(ts, f2.frame, p.i2).Next? then 2 else 3
  }

  //
  // Reaching a table
  //

  /** `f` is the table that the first `d` indices of `p` lead to. */
  ghost predicate Reaches<L>(ts: Tables<L>, root: nat, p: Page, d: nat, f: nat)
    requires d <= 3
  {
    if d == 0 then f == root
    else if d == 1 then At(ts, root, p.i0) == Next(f)
    else if d == 2 then
      var s := At(ts, root, p.i0);
      s.Next? && At(ts, s.frame, p.i1) == Next(f)
    else
      var s := At(ts, root, p.i0);
      s.Next? && var t := At(ts, s.frame, p.i1); t.Next? && At(ts, t.frame, p.i2) == Next(f)
  }

  function Index(p: Page, d: nat): nat
    requires d <= 3
  {
    if d == 0 then p.i0 else if d == 1 then p.i1 else if d == 2 then p.i2 else p.i3
  }

  lemma ReachesNext<L>(ts: Tables<L>, root: nat, p: Page, d: nat, g: nat, f: nat)
    requires d < 3 && Reaches(ts, root, p, d, g) && At(ts, g, Index(p, d)) == Next(f)
    ensures Reaches(ts, root, p, d + 1, f)
  {
  }

  //
  // Tags
  //

  datatype Owner = Private(root: nat) | Shared

  datatype Tag =
    | T0(root: nat)
    | T1(owner: Owner, i0: nat)
    | T2(owner: Owner, i0: nat, i1: nat)
    | T3(owner: Owner, i0: nat, i1: nat, i2: nat)

  function Depth(t: Tag): nat {
    match t
    case T0(_) => 0
    case T1(_, _) => 1
    case T2(_, _, _) => 2
    case T3(_, _, _, _) => 3
  }

  function OwnerOf(t: Tag): Owner {
    if t.T0? then Private(t.root) else t.owner
  }

  /** Root entries from `split` upwards lead to tables shared by all roots. */
  function Child(t: Tag, i: nat, split: nat): Tag
    requires !t.T3?
  {
    match t
    case T0(r) => T1(if i < split then Private(r) else Shared, i)
    case T1(o, i0) => T2(o, i0, i)
    case T2(o, i0, i1) => T3(o, i0, i1, i)
  }

  /** The tag of the table that the first `d` indices of `p` must lead to. */
  function PathTag(split: nat, root: nat, p: Page, d: nat): Tag
    requires d <= 3
  {
    var o := if p.i0 < split then Private(root) else Shared;
    if d == 0 then T0(root)
    else if d == 1 then T1(o, p.i0)
    else if d == 2 then T2(o, p.i0, p.i1)
    else T3(o, p.i0, p.i1, p.i2)
  }

  type Tags = map<nat, Tag>

  predicate IsRoot(tags: Tags, r: nat) {
    r in tags && tags[r] == T0(r)
  }

  ghost predicate SlotOk<L>(s: Slot<L>, tags: Tags, t: Tag, i: nat, split: nat) {
    match s
    case Absent => true
    case Next(g) => !t.T3? && g in tags && tags[g] == Child(t, i, split)
    case Block(_) => t.T2? || t.T3?
  }

  ghost predicate WellTagged<L>(ts: Tables<L>, tags: Tags, split: nat) {
    && ts.Keys == tags.Keys
    && (forall f :: f in ts ==> |ts[f]| == ENTRIES)
    && (forall f :: f in tags && tags[f].T0? ==> tags[f].root == f)
    && (forall f, i :: f in ts && 0 <= i < |ts[f]| ==> SlotOk(ts[f][i], tags, tags[f], i, split))
  }

  /** A walk only meets tables tagged with the walked path. */
  lemma ReachesTag<L>(ts: Tables<L>, tags: Tags, split: nat, root: nat, p: Page, d: nat, f: nat)
    requires WellTagged(ts, tags, split) && IsRoot(tags, root) && d <= 3
    requires Reaches(ts, root, p, d, f)
    ensures f in ts && tags[f] == PathTag(split, root, p, d)
  {
    if d > 0 {
      var f1 := At(ts, root, p.i0).frame;
      assert SlotOk(ts[root][p.i0], tags, tags[root], p.i0, split);
      if d > 1 {
        var f2 := At(ts, f1, p.i1).frame;
        assert SlotOk(ts[f1][p.i1], tags, tags[f1], p.i1, split);
        if d > 2 {
          assert SlotOk(ts[f2][p.i2], tags, tags[f2], p.i2, split);
        }
      }
    }
  }

  //
  // Linking a fresh, empty table
  //

  function Put<L>(ts: Tables<L>, g: nat, i: nat, s: Slot<L>): Tables<L>
    requires g in ts && i < |ts[g]|
  {
    ts[g := ts[g][i := s]]
  }

  function Link<L>(ts: Tables<L>, g: nat, i: nat, f: nat): Tables<L>
    requires g in ts && i < |ts[g]| && f !in ts
  {
    Put(ts, g, i, Next(f))[f := EmptyTable()]
  }

  ghost predicate CanLink<L>(ts: Tables<L>, tags: Tags, split: nat, g: nat, i: nat, f: nat) {
    && WellTagged(ts, tags, split)
    && g in ts && i < ENTRIES && ts[g][i] == Absent && !tags[g].T3?
    && f !in ts
  }

  lemma LinkWellTagged<L>(ts: Tables<L>, tags: Tags, split: nat, g: nat, i: nat, f: nat)
    requires CanLink(ts, tags, split, g, i, f)
    ensures WellTagged(Link(ts, g, i, f), tags[f := Child(tags[g], i, split)], split)
  {
  }

  /** Walks that reached a table still reach it, and the linked table is one step further. */
  lemma LinkReaches<L>(ts: Tables<L>, ts': Tables<L>, tags: Tags, split: nat, g: nat, i: nat, f: nat, r: nat,
                       p: Page, d: nat)
    requires CanLink(ts, tags, split, g, i, f) && IsRoot(tags, r) && ts' == Link(ts, g, i, f)
    requires d < 3 && Reaches(ts, r, p, d, g) && Index(p, d) == i
    ensures Reaches(ts', r, p, d + 1, f)
  {
    ReachesTag(ts, tags, split, r, p, d, g);
    assert Reaches(ts', r, p, d, g);
    ReachesNext(ts', r, p, d, g, f);
  }

  /** Linking an empty table changes no lookup. */
  lemma LinkLookup<L>(ts: Tables<L>, ts': Tables<L>, tags: Tags, split: nat, g: nat, i: nat, f: nat, r: nat, p: Page)
    requires CanLink(ts, tags, split, g, i, f) && IsRoot(tags, r) && ts' == Link(ts, g, i, f)
    ensures Lookup(ts', r, p) == Lookup(ts, r, p)
  {
  }

  /** How many leading table indices two pages share, the last index aside. */
  function Prefix(p: Page, q: Page): nat {
    if p.i0 != q.i0 then 0 else if p.i1 != q.i1 then 1 else if p.i2 != q.i2 then 2 else 3
  }

  /** A table linked where the walk to `p` ended is one more level for the pages that share the walk. */
  lemma LinkBuilt<L>(ts: Tables<L>, ts': Tables<L>, tags: Tags, split: nat, g: nat, i: nat, f: nat, r: nat,
                     p: Page, d: nat, q: Page)
    requires CanLink(ts, tags, split, g, i, f) && IsRoot(tags, r) && ts' == Link(ts, g, i, f)
    requires d < 3 && Reaches(ts, r, p, d, g) && Index(p, d) == i
    ensures Built(ts', r, q) == if Prefix(p, q) > d then d + 1 else Built(ts, r, q)
  {
    ReachesTag(ts, tags, split, r, p, d, g);
  }

  lemma NextBuilt<L>(ts: Tables<L>, r: nat, p: Page, d: nat, g: nat, q: Page)
    requires d < 3 && Reaches(ts, r, p, d, g) && At(ts, g, Index(p, d)).Next? && Prefix(p, q) > d
    ensures Built(ts, r, q) > d
  {
  }

  //
  // Writing a leaf
  //

  ghost predicate CanPutLeaf<L>(ts: Tables<L>, tags: Tags, split: nat, g: nat, i: nat) {
    && WellTagged(ts, tags, split)
    && g in ts && i < ENTRIES && ts[g][i] == Absent && (tags[g].T2? || tags[g].T3?)
  }

  lemma PutLeafWellTagged<L>(ts: Tables<L>, tags: Tags, split: nat, g: nat, i: nat, l: L)
    requires CanPutLeaf(ts, tags, split, g, i)
    ensures WellTagged(Put(ts, g, i, Block(l)), tags, split)
  {
  }

  /** A leaf written into table `g` shows at exactly the walks that reach `g` and select its index. */
  lemma PutLeafLookup<L>(ts: Tables<L>, tags: Tags, split: nat, g: nat, i: nat, l: L, r: nat, p: Page)
    requires CanPutLeaf(ts, tags, split, g, i) && IsRoot(tags, r)
    ensures Lookup(Put(ts, g, i, Block(l)), r, p)
         == var d := Depth(tags[g]);
            if Reaches(ts, r, p, d, g) && Index(p, d) == i
            then if d == 3 then Small(l) else Large(l)
            else Lookup(ts, r, p)
  {
  }

  lemma PutLeafBuilt<L>(ts: Tables<L>, g: nat, i: nat, l: L, r: nat, q: Page)
    requires g in ts && i < |ts[g]| && ts[g][i] == Absent
    ensures Built(Put(ts, g, i, Block(l)), r, q) == Built(ts, r, q)
  {
  }

  //
  // Copying the shared half of one root into another
  //

  function CopyShared<L>(ts: Tables<L>, split: nat, from: nat, to: nat): Tables<L>
    requires from in ts && to in ts && split <= |ts[from]| && split <= |ts[to]|
  {
    ts[to := ts[to][..split] + ts[from][split..]]
  }

  /** The receiver reads the giver's upper half; its lower half and every other root are untouched. */
  lemma CopySharedLookup<L>(ts: Tables<L>, tags: Tags, split: nat, from: nat, to: nat, r: nat, p: Page)
    requires WellTagged(ts, tags, split) && split <= ENTRIES
    requires IsRoot(tags, from) && IsRoot(tags, to) && IsRoot(tags, r)
    ensures Lookup(CopyShared(ts, split, from, to), r, p)
         == Lookup(ts, if r == to && split <= p.i0 then from else r, p)
  {
  }

  lemma CopySharedWellTagged<L>(ts: Tables<L>, tags: Tags, split: nat, from: nat, to: nat)
    requires WellTagged(ts, tags, split) && split <= ENTRIES
    requires IsRoot(tags, from) && IsRoot(tags, to)
    ensures WellTagged(CopyShared(ts, split, from, to), tags, split)
  {
    var ts' := CopyShared(ts, split, from, to);
    forall i | 0 <= i < |ts'[to]|
      ensures SlotOk(ts'[to][i], tags, tags[to], i, split)
    {
      assert SlotOk(ts[to][i], tags, tags[to], i, split);
      assert SlotOk(ts[from][i], tags, tags[from], i, split);
    }
  }

  //
  // Adding an empty root
  //

  lemma NewRootWellTagged<L>(ts: Tables<L>, tags: Tags, split: nat, f: nat)
    requires WellTagged(ts, tags, split) && f !in ts
    ensures WellTagged(ts[f := EmptyTable()], tags[f := T0(f)], split)
  {
  }

  lemma NewRootLookup<L>(ts: Tables<L>, tags: Tags, split: nat, f: nat, r: nat, p: Page)
    requires WellTagged(ts, tags, split) && f !in ts
    requires IsRoot(tags, r)
    ensures Lookup(ts[f := EmptyTable()], r, p) == Lookup(ts, r, p)
    ensures Lookup(ts[f := EmptyTable()], f, p) == Missing
  {
  }
}
