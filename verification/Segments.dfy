/** One PT_LOAD segment in user memory: its pages, what they should hold after `copied` file bytes,
    and how a copy step moves that picture forward.
 */
module Segments {
  import opened Radix
  import opened Paging
  import opened Words
  import opened UserMemory
  import opened Elf

  function SegPage(base: nat, k: nat): Page {
    PageOf(base + k * PAGE_SIZE)
  }

  /** Pages of a segment below the user limit are all different and all in the lower half. */
  lemma SegPagesDistinct(base: nat, k: nat, k': nat)
    requires base + k * PAGE_SIZE < USER_LIMIT && base + k' * PAGE_SIZE < USER_LIMIT
    ensures SegPage(base, k) == SegPage(base, k') <==> k == k'
    ensures Lower(SegPage(base, k))
  {
    SamePage(base + k * PAGE_SIZE, base + k' * PAGE_SIZE);
    UserHalf(base + k * PAGE_SIZE);
    PageDiv(base, k);
    PageDiv(base, k');
  }

  lemma PageDiv(base: nat, k: nat)
    requires base + k * PAGE_SIZE < USER_LIMIT
    ensures (base + k * PAGE_SIZE) / PAGE_SIZE % 0x10_0000_0000 == base / PAGE_SIZE + k
  {
  }

  /** Byte `i` of the segment once `copied` bytes of the file have been placed. */
  function WantByte(file: seq<byte>, copied: nat, i: int): byte
    requires copied <= |file|
  {
    if 0 <= i < copied then file[i] else 0
  }

  function PageWant(file: seq<byte>, copied: nat, k: nat): (b: seq<byte>)
    requires copied <= |file|
    ensures |b| == PAGE_SIZE
    ensures forall j :: 0 <= j < PAGE_SIZE ==> b[j] == WantByte(file, copied, k * PAGE_SIZE + j)
  {
    seq(PAGE_SIZE, j => WantByte(file, copied, k * PAGE_SIZE + j))
  }

  lemma NothingCopied(file: seq<byte>, k: nat)
    ensures PageWant(file, 0, k) == Zeros(PAGE_SIZE)
  {
  }

  /** Byte `i` of the segment lies in the copied chunk exactly when its page is the chunk's and its
      offset is inside. */
  lemma ChunkHolds(copied: nat, chunk: nat, k: nat, j: nat)
    requires copied % PAGE_SIZE + chunk <= PAGE_SIZE && j < PAGE_SIZE
    ensures copied <= k * PAGE_SIZE + j < copied + chunk
       <==> k == copied / PAGE_SIZE && copied % PAGE_SIZE <= j < copied % PAGE_SIZE + chunk
    ensures k == copied / PAGE_SIZE ==> k * PAGE_SIZE + j - copied == j - copied % PAGE_SIZE
  {
    assert copied == copied / PAGE_SIZE * PAGE_SIZE + copied % PAGE_SIZE;
  }

  /** Copying up to the end of a page completes that page's picture and no other. */
  lemma ChunkWant(file: seq<byte>, copied: nat, chunk: nat, k: nat)
    requires copied + chunk <= |file| && copied % PAGE_SIZE + chunk <= PAGE_SIZE
    ensures PageWant(file, copied + chunk, k)
         == if k == copied / PAGE_SIZE
            then Splice(PageWant(file, copied, k), copied % PAGE_SIZE, file[copied..copied + chunk])
            else PageWant(file, copied, k)
  {
    var off, piece := copied % PAGE_SIZE, file[copied..copied + chunk];
    var want, was := PageWant(file, copied + chunk, k), PageWant(file, copied, k);
    forall j | 0 <= j < PAGE_SIZE
      ensures want[j] == if k == copied / PAGE_SIZE && off <= j < off + chunk then piece[j - off] else was[j]
    {
      ChunkHolds(copied, chunk, k, j);
    }
    if k == copied / PAGE_SIZE {
      Spliced(want, was, off, piece);
    }
  }

  lemma Spliced(want: seq<byte>, was: seq<byte>, off: nat, piece: seq<byte>)
    requires |want| == |was| && off + |piece| <= |was|
    requires forall j :: 0 <= j < |was| ==> want[j] == if off <= j < off + |piece| then piece[j - off] else was[j]
    ensures want == Splice(was, off, piece)
  {
  }

  /** All `pages` pages of the segment hold their picture. */
  ghost predicate Holding(vm: Vm, root: nat, base: nat, pages: nat, file: seq<byte>, copied: nat)
    requires copied <= |file|
  {
    forall k :: 0 <= k < pages ==> PageBytes(vm, root, SegPage(base, k)) == Some(PageWant(file, copied, k))
  }

  /** One round of the copy loop. */
  lemma CopyChunk(vm: Vm, vm': Vm, root: nat, base: nat, pages: nat, file: seq<byte>, copied: nat, next: nat, f: nat)
    requires Tidy(vm, root) && base + pages * PAGE_SIZE <= USER_LIMIT
    requires copied <= next <= |file| && copied % PAGE_SIZE + (next - copied) <= PAGE_SIZE && copied / PAGE_SIZE < pages
    requires Holding(vm, root, base, pages, file, copied)
    requires Holds(vm, root, SegPage(base, copied / PAGE_SIZE), f) && f in vm.data
    requires vm' == WriteFrame(vm, f, copied % PAGE_SIZE, file[copied..next])
    ensures Tidy(vm', root) && Holding(vm', root, base, pages, file, next)
  {
    var n, off, bytes := copied / PAGE_SIZE, copied % PAGE_SIZE, file[copied..next];
    WriteShows(vm, root, SegPage(base, n), f, off, bytes);
    assert PageBytes(vm, root, SegPage(base, n)) == Some(vm.data[f]);
    forall k | 0 <= k < pages
      ensures PageBytes(vm', root, SegPage(base, k)) == Some(PageWant(file, next, k))
    {
      SegPagesDistinct(base, k, n);
      ChunkWant(file, copied, next - copied, k);
    }
  }

  //
  // A whole segment
  //

  /** Pages from the segment start to its end rounded up. */
  function PageSpan(ph: ProgramHeader): nat {
    (ph.vaddr + ph.memsz + PAGE_SIZE - 1) / PAGE_SIZE - ph.vaddr / PAGE_SIZE
  }

  function FileBytes(ph: ProgramHeader, raw: seq<byte>): seq<byte>
    requires Loadable(ph, |raw|)
  {
    raw[ph.offset..ph.offset + ph.filesz]
  }

  lemma SpanFits(ph: ProgramHeader, size: nat)
    requires Loadable(ph, size)
    ensures ph.vaddr + PageSpan(ph) * PAGE_SIZE <= USER_LIMIT
    ensures ph.filesz <= PageSpan(ph) * PAGE_SIZE
    ensures ph.memsz <= PageSpan(ph) * PAGE_SIZE < ph.memsz + PAGE_SIZE
  {
  }

  ghost predicate SegmentLoaded(vm: Vm, root: nat, ph: ProgramHeader, raw: seq<byte>)
    requires Loadable(ph, |raw|)
  {
    && Holding(vm, root, ph.vaddr, PageSpan(ph), FileBytes(ph, raw), ph.filesz)
    && Flagged(vm, root, ph.vaddr, PageSpan(ph), IsWritable(ph))
  }

  /** User pages: writable ones never execute, the others are read-only. */
  ghost predicate Flagged(vm: Vm, root: nat, base: nat, pages: nat, writable: bool) {
    forall k :: 0 <= k < pages ==> PageFlagged(vm, root, SegPage(base, k), writable)
  }

  ghost predicate PageFlagged(vm: Vm, root: nat, q: Page, writable: bool) {
    View(vm, root, q).Small? && View(vm, root, q).leaf.flags == UserFlags(writable)
  }

  /** Byte by byte: the file's bytes, then zeros up to the page-rounded end. */
  lemma SegmentReads(vm: Vm, root: nat, ph: ProgramHeader, raw: seq<byte>, i: nat)
    requires Loadable(ph, |raw|) && SegmentLoaded(vm, root, ph, raw) && i < PageSpan(ph) * PAGE_SIZE
    ensures ReadUser(vm, root, ph.vaddr + i) == Some(if i < ph.filesz then raw[ph.offset + i] else 0)
  {
    var k := i / PAGE_SIZE;
    InSegPage(ph.vaddr, i);
    assert k < PageSpan(ph);
    assert PageBytes(vm, root, SegPage(ph.vaddr, k)) == Some(PageWant(FileBytes(ph, raw), ph.filesz, k));
  }

  lemma InSegPage(base: nat, i: nat)
    requires base % PAGE_SIZE == 0
    ensures PageOf(base + i) == SegPage(base, i / PAGE_SIZE)
    ensures (base + i) % PAGE_SIZE == i % PAGE_SIZE == i - i / PAGE_SIZE * PAGE_SIZE
  {
    AlignedSum(base, i);
    AlignedSum(base, i / PAGE_SIZE * PAGE_SIZE);
    SamePage(base + i, base + i / PAGE_SIZE * PAGE_SIZE);
  }

  lemma AlignedSum(base: nat, i: nat)
    requires base % PAGE_SIZE == 0
    ensures (base + i) / PAGE_SIZE == base / PAGE_SIZE + i / PAGE_SIZE
    ensures (base + i) % PAGE_SIZE == i % PAGE_SIZE
  {
  }

  /** Whatever is added to the space later, a loaded segment stays loaded. */
  lemma LoadedStays(vm: Vm, vm': Vm, root: nat, ph: ProgramHeader, raw: seq<byte>)
    requires Loadable(ph, |raw|) && SegmentLoaded(vm, root, ph, raw) && Extends(vm, vm', root)
    ensures SegmentLoaded(vm', root, ph, raw)
  {
    forall k | 0 <= k < PageSpan(ph)
      ensures PageBytes(vm', root, SegPage(ph.vaddr, k)) == PageBytes(vm, root, SegPage(ph.vaddr, k))
      ensures PageFlagged(vm', root, SegPage(ph.vaddr, k), IsWritable(ph))
    {
      assert PageFlagged(vm, root, SegPage(ph.vaddr, k), IsWritable(ph));
      assert PageBytes(vm, root, SegPage(ph.vaddr, k)) == Some(PageWant(FileBytes(ph, raw), ph.filesz, k));
      ExtendsKeepsBytes(vm, vm', root, SegPage(ph.vaddr, k));
    }
  }

  //
  // A freshly mapped region
  //

  /** Page `k` of the region was unmapped in `old` and is now a cleared frame taken from its free set. */
  ghost predicate FreshPage(was: Vm, vm: Vm, root: nat, base: nat, k: nat, writable: bool) {
    var q := SegPage(base, k);
    && View(was, root, q) == Missing
    && View(vm, root, q).Small? && View(vm, root, q).leaf.flags == UserFlags(writable)
    && View(vm, root, q).leaf.frame in was.free
    && PageBytes(vm, root, q) == Some(Zeros(PAGE_SIZE))
  }

  ghost predicate FreshRegion(was: Vm, vm: Vm, root: nat, base: nat, pages: nat, writable: bool) {
    forall k :: 0 <= k < pages ==> FreshPage(was, vm, root, base, k, writable)
  }

  lemma FreshStays(was: Vm, vm: Vm, vm': Vm, root: nat, base: nat, k: nat, writable: bool)
    requires FreshPage(was, vm, root, base, k, writable) && Extends(vm, vm', root)
    ensures FreshPage(was, vm', root, base, k, writable)
  {
    ExtendsKeepsBytes(vm, vm', root, SegPage(base, k));
  }

  /** Every page of the region still maps, with its flags, a frame that was free in `was`. */
  ghost predicate FreshFrames(was: Vm, vm: Vm, root: nat, base: nat, pages: nat, writable: bool) {
    forall k :: 0 <= k < pages ==>
      PageFlagged(vm, root, SegPage(base, k), writable) && View(vm, root, SegPage(base, k)).leaf.frame in was.free
  }

  lemma RegionReady(was: Vm, vm: Vm, root: nat, base: nat, pages: nat, file: seq<byte>, writable: bool)
    requires FreshRegion(was, vm, root, base, pages, writable)
    ensures FreshFrames(was, vm, root, base, pages, writable) && Holding(vm, root, base, pages, file, 0)
  {
    forall k | 0 <= k < pages
      ensures PageFlagged(vm, root, SegPage(base, k), writable) && View(vm, root, SegPage(base, k)).leaf.frame in was.free
      ensures PageBytes(vm, root, SegPage(base, k)) == Some(PageWant(file, 0, k))
    {
      assert FreshPage(was, vm, root, base, k, writable);
      NothingCopied(file, k);
    }
  }

  /** The walk of the copy loop lands on the frame of the page being filled. */
  lemma WalkFinds(was: Vm, vm: Vm, root: nat, base: nat, pages: nat, writable: bool, file: seq<byte>, copied: nat)
    requires base % PAGE_SIZE == 0 && base + pages * PAGE_SIZE <= USER_LIMIT
    requires copied < |file| <= pages * PAGE_SIZE
    requires FreshFrames(was, vm, root, base, pages, writable) && Holding(vm, root, base, pages, file, copied)
    ensures copied / PAGE_SIZE < pages
    ensures var phys := WalkToPhys(vm.tables, root, (base + copied) / PAGE_SIZE * PAGE_SIZE);
      && phys.Some? && phys.value % PAGE_SIZE == 0
      && phys.value / PAGE_SIZE in was.free && phys.value / PAGE_SIZE in vm.data
      && Holds(vm, root, SegPage(base, copied / PAGE_SIZE), phys.value / PAGE_SIZE)
  {
    var k := copied / PAGE_SIZE;
    AlignedSum(base, copied);
    assert (base + copied) / PAGE_SIZE * PAGE_SIZE == base + k * PAGE_SIZE;
    SegPagesDistinct(base, k, k);
    assert PageFlagged(vm, root, SegPage(base, k), writable);
    assert PageBytes(vm, root, SegPage(base, k)) == Some(PageWant(file, copied, k));
  }

  /** The state of the copy loop after `copied` bytes. */
  ghost predicate Filling(was: Vm, vm: Vm, root: nat, ph: ProgramHeader, raw: seq<byte>, copied: nat) {
    && Loadable(ph, |raw|) && copied <= ph.filesz
    && Valid(was) && Tidy(vm, root) && Extends(was, vm, root)
    && FreshFrames(was, vm, root, ph.vaddr, PageSpan(ph), IsWritable(ph))
    && Holding(vm, root, ph.vaddr, PageSpan(ph), FileBytes(ph, raw), copied)
  }

  lemma SegmentBounds(ph: ProgramHeader, size: nat, start: nat, end: nat, pages: nat)
    requires Loadable(ph, size)
    requires start == ph.vaddr / PAGE_SIZE * PAGE_SIZE && pages == (end - start) / PAGE_SIZE
    requires end == (ph.vaddr + ph.memsz + PAGE_SIZE - 1) / PAGE_SIZE * PAGE_SIZE >= start
    ensures start == ph.vaddr && pages == PageSpan(ph)
  {
  }

  lemma FillingStarts(was: Vm, vm: Vm, root: nat, ph: ProgramHeader, raw: seq<byte>)
    requires Loadable(ph, |raw|) && Valid(was) && Tidy(vm, root) && Extends(was, vm, root)
    requires FreshRegion(was, vm, root, ph.vaddr, PageSpan(ph), IsWritable(ph))
    ensures Filling(was, vm, root, ph, raw, 0)
  {
    RegionReady(was, vm, root, ph.vaddr, PageSpan(ph), FileBytes(ph, raw), IsWritable(ph));
  }

  lemma FilledIsLoaded(was: Vm, vm: Vm, root: nat, ph: ProgramHeader, raw: seq<byte>)
    requires Filling(was, vm, root, ph, raw, ph.filesz)
    ensures SegmentLoaded(vm, root, ph, raw)
  {
  }

  function Chunk(ph: ProgramHeader, copied: nat): nat
    requires copied <= ph.filesz
  {
    var left, room := ph.filesz - copied, PAGE_SIZE - copied % PAGE_SIZE;
    if left < room then left else room
  }

  /** The address the copy loop walks: the page that byte `copied` belongs to. */
  function CopyPage(ph: ProgramHeader, copied: nat): nat {
    (ph.vaddr + copied) / PAGE_SIZE * PAGE_SIZE
  }

  /** The frame of the page being filled, fresh since the segment's first page was mapped. */
  ghost predicate Target(was: Vm, vm: Vm, root: nat, ph: ProgramHeader, copied: nat, f: nat) {
    && copied / PAGE_SIZE < PageSpan(ph)
    && Holds(vm, root, SegPage(ph.vaddr, copied / PAGE_SIZE), f)
    && f in was.free && f in vm.data && |vm.data[f]| == PAGE_SIZE
  }

  lemma FillWalk(was: Vm, vm: Vm, root: nat, ph: ProgramHeader, raw: seq<byte>, copied: nat)
    requires Filling(was, vm, root, ph, raw, copied) && copied < ph.filesz
    ensures var phys := WalkToPhys(vm.tables, root, CopyPage(ph, copied));
      phys.Some? && Target(was, vm, root, ph, copied, phys.value / PAGE_SIZE)
  {
    SpanFits(ph, |raw|);
    WalkFinds(was, vm, root, ph.vaddr, PageSpan(ph), IsWritable(ph), FileBytes(ph, raw), copied);
  }

  function ChunkBytes(ph: ProgramHeader, raw: seq<byte>, copied: nat): seq<byte>
    requires Loadable(ph, |raw|) && copied <= ph.filesz
  {
    raw[ph.offset + copied..ph.offset + copied + Chunk(ph, copied)]
  }

  lemma SliceOfSlice(s: seq<byte>, a: nat, len: nat, b: nat, n: nat)
    requires a + len <= |s| && b + n <= len
    ensures s[a..a + len][b..b + n] == s[a + b..a + b + n]
  {
    var t := s[a..a + len];
    assert forall i :: b <= i < b + n ==> t[i] == s[a + i];
    assert t[b..b + n] == s[a + b..a + b + n];
  }

  /** Writing the chunk into that frame moves the loop forward. */
  lemma FillStep(was: Vm, vm: Vm, vm': Vm, root: nat, ph: ProgramHeader, raw: seq<byte>, copied: nat, next: nat, f: nat)
    requires Filling(was, vm, root, ph, raw, copied) && copied < ph.filesz && next == copied + Chunk(ph, copied)
    requires Target(was, vm, root, ph, copied, f)
    requires vm' == WriteFrame(vm, f, copied % PAGE_SIZE, ChunkBytes(ph, raw, copied))
    ensures Filling(was, vm', root, ph, raw, next)
  {
    SpanFits(ph, |raw|);
    SliceOfSlice(raw, ph.offset, ph.filesz, copied, Chunk(ph, copied));
    CopyChunk(vm, vm', root, ph.vaddr, PageSpan(ph), FileBytes(ph, raw), copied, next, f);
    WriteExtends(was, vm, root, f, copied % PAGE_SIZE, ChunkBytes(ph, raw, copied));
    FreshFramesKept(was, vm, root, ph.vaddr, PageSpan(ph), IsWritable(ph), f, copied % PAGE_SIZE, ChunkBytes(ph, raw, copied));
  }

  lemma FreshFramesKept(was: Vm, vm: Vm, root: nat, base: nat, pages: nat, writable: bool, f: nat, off: nat, bytes: seq<byte>)
    requires FreshFrames(was, vm, root, base, pages, writable) && f in vm.data && off + |bytes| <= |vm.data[f]|
    ensures FreshFrames(was, WriteFrame(vm, f, off, bytes), root, base, pages, writable)
  {
    var vm' := WriteFrame(vm, f, off, bytes);
    forall k | 0 <= k < pages
      ensures PageFlagged(vm', root, SegPage(base, k), writable) && View(vm', root, SegPage(base, k)).leaf.frame in was.free
    {
      assert PageFlagged(vm, root, SegPage(base, k), writable);
      assert View(vm', root, SegPage(base, k)) == View(vm, root, SegPage(base, k));
    }
  }

  //
  // A whole process image
  //

  ghost predicate SegmentsLoaded(vm: Vm, root: nat, loads: seq<ProgramHeader>, raw: seq<byte>) {
    forall j :: 0 <= j < |loads| ==> Loadable(loads[j], |raw|) && SegmentLoaded(vm, root, loads[j], raw)
  }

  lemma SegmentsStay(vm: Vm, vm': Vm, root: nat, loads: seq<ProgramHeader>, raw: seq<byte>)
    requires SegmentsLoaded(vm, root, loads, raw) && Extends(vm, vm', root)
    ensures SegmentsLoaded(vm', root, loads, raw)
  {
    forall j | 0 <= j < |loads|
      ensures Loadable(loads[j], |raw|) && SegmentLoaded(vm', root, loads[j], raw)
    {
      LoadedStays(vm, vm', root, loads[j], raw);
    }
  }

  /** Tables and user frames of `was` are bit-for-bit the same. */
  ghost predicate Untouched(was: Vm, vm: Vm) {
    && (forall f :: f in was.tables ==> f in vm.tables && vm.tables[f] == was.tables[f])
    && (forall f :: f in was.data ==> f in vm.data && vm.data[f] == was.data[f])
  }

  /** A private table's owner is a table itself, and user frames are whole pages. */
  ghost predicate Settled(vm: Vm) {
    && (forall f :: f in vm.tags && OwnerOf(vm.tags[f]).Private? ==> OwnerOf(vm.tags[f]).root in vm.tags)
    && (forall f :: f in vm.data ==> |vm.data[f]| == PAGE_SIZE)
    && (forall f :: f in vm.free ==> f < MAX_FRAME)
  }

  /** What a new space looks like before anything is loaded. */
  ghost predicate Blank(was: Vm, vm: Vm, root: nat, kernel: nat) {
    && Valid(was) && Tidy(vm, root) && root in was.free
    && vm.data == was.data && vm.free == was.free - {root}
    && (forall f :: f in was.tags ==> f in vm.tags && vm.tags[f] == was.tags[f] && vm.tables[f] == was.tables[f])
    && (forall f :: f in vm.tags && f !in was.tags ==> f == root)
    && (forall q :: View(vm, root, q) == if Lower(q) then Missing else View(was, kernel, q))
  }

  /** Filling a new space touches nothing that existed before, and leaves the memory settled. */
  lemma FilledSpace(was: Vm, blank: Vm, vm: Vm, root: nat, kernel: nat)
    requires Settled(was) && Blank(was, blank, root, kernel)
    requires Extends(blank, vm, root) && Tidy(vm, root)
    ensures Untouched(was, vm) && Settled(vm)
    ensures forall f :: f in was.tags ==> f in vm.tags && vm.tags[f] == was.tags[f]
    ensures forall q :: !Lower(q) ==> View(vm, root, q) == View(was, kernel, q)
  {
    forall f | f in was.tables
      ensures f in vm.tables && vm.tables[f] == was.tables[f]
    {
      assert f in was.tags && OwnerOf(was.tags[f]) != Private(root);
    }
  }

  /** Nothing a process can read changes: every address of every existing space. */
  lemma UntouchedReads(was: Vm, vm: Vm, r: nat, va: nat)
    requires Valid(was) && Valid(vm) && Untouched(was, vm) && Root(was, r)
    requires forall f :: f in was.tags ==> f in vm.tags && vm.tags[f] == was.tags[f]
    requires ReadUser(was, r, va).Some?
    ensures ReadUser(vm, r, va) == ReadUser(was, r, va)
  {
    UntouchedView(was, vm, r, PageOf(va));
  }

  lemma UntouchedView(was: Vm, vm: Vm, r: nat, q: Page)
    requires Valid(was) && Untouched(was, vm) && Root(was, r)
    ensures View(vm, r, q) == View(was, r, q)
  {
    var f1 := At(was.tables, r, q.i0);
    if f1.Next? {
      ReachesTag(was.tables, was.tags, KERNEL_HALF, r, q, 1, f1.frame);
      var f2 := At(was.tables, f1.frame, q.i1);
      if f2.Next? {
        ReachesTag(was.tables, was.tags, KERNEL_HALF, r, q, 2, f2.frame);
        var f3 := At(was.tables, f2.frame, q.i2);
        if f3.Next? {
          ReachesTag(was.tables, was.tags, KERNEL_HALF, r, q, 3, f3.frame);
        }
      }
    }
  }
}
