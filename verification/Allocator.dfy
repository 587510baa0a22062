/** The bitmap frame allocator: one bit per 4 KiB physical frame, a free counter and a
    word hint.  The class is proved against a plain set of free frames; the run lemmas
    at the end speak about that set only.
 */
module Allocator {
  import opened Words

  const FRAME_SIZE := 4096
  const MAX_FRAMES := 1048576
  const BITMAP_WORDS := 16384

  //
  // Bitmap words: a `u64` used only as 64 bits, lowest bit first
  //

  type Word = w: seq<bool> | |w| == 64 witness seq(64, _ => true)

  /** `u64::MAX`: every frame of the word is taken. */
  predicate IsFull(w: Word) {
    forall i :: 0 <= i < 64 ==> w[i]
  }

  /** `u64::trailing_ones`: the number of set bits below the lowest clear one. */
  method TrailingOnes(w: Word) returns (n: nat)
    ensures n <= 64
    ensures forall i :: 0 <= i < n ==> w[i]
    ensures n < 64 ==> !w[n]
    ensures IsFull(w) <==> n == 64
  {
    n := 0;
    while n < 64 && w[n]
      invariant n <= 64
      invariant forall i :: 0 <= i < n ==> w[i]
    {
      n := n + 1;
    }
  }

  //
  // The specification: a set of free frames
  //

  /** Frames lying wholly inside `[base, base + length)`. */
  ghost function FramesInside(base: nat, length: nat): set<nat> {
    set f: nat | f < MAX_FRAMES && Inside(f, base, length)
  }

  predicate Inside(f: nat, base: nat, length: nat) {
    base <= f * FRAME_SIZE && (f + 1) * FRAME_SIZE <= base + length
  }

  /** Frames meeting `[base, base + length)`. */
  ghost function FramesMeeting(base: nat, length: nat): set<nat> {
    set f: nat | f < MAX_FRAMES && Meets(f, base, length)
  }

  predicate Meets(f: nat, base: nat, length: nat) {
    f * FRAME_SIZE < base + length && base < (f + 1) * FRAME_SIZE
  }

  ghost function Span(lo: nat, hi: nat): set<nat> {
    set f: nat | f < MAX_FRAMES && Between(lo, f, hi)
  }

  predicate Between(lo: nat, f: nat, hi: nat) {
    lo <= f < hi
  }

  lemma InsideIsSpan(base: nat, length: nat)
    ensures FramesInside(base, length)
         == Span((base + FRAME_SIZE - 1) / FRAME_SIZE, Min((base + length) / FRAME_SIZE, MAX_FRAMES))
  {
  }

  lemma MeetingIsSpan(base: nat, length: nat)
    ensures FramesMeeting(base, length)
         == Span(base / FRAME_SIZE, Min((base + length + FRAME_SIZE - 1) / FRAME_SIZE, MAX_FRAMES))
  {
  }

  ghost predicate IsLowest(f: nat, free: set<nat>) {
    f in free && forall g :: g in free ==> f <= g
  }

  lemma LowestExists(free: set<nat>)
    requires free != {}
    ensures exists f :: IsLowest(f, free)
  {
    var g :| g in free;
    var rest := free - {g};
    assert free == rest + {g};
    if rest == {} {
      assert IsLowest(g, free);
    } else {
      LowestExists(rest);
      var h :| IsLowest(h, rest);
      assert IsLowest(if g <= h then g else h, free);
    }
  }

  ghost function Lowest(free: set<nat>): (f: nat)
    requires free != {}
    ensures IsLowest(f, free)
  {
    LowestExists(free);
    var f :| IsLowest(f, free);
    f
  }

  datatype AllocError = InvalidFrame | DoubleFree
  datatype AllocResult = Frame(frame: nat) | NoFrame
  datatype FreeResult = Freed | FreeFailed(error: AllocError)

  //
  // The allocator
  //

  lemma WordAndBit(f: nat, w: nat, bit: nat)
    requires bit < 64 && f == w * 64 + bit
    ensures f / 64 == w && f % 64 == bit
  {
  }

  /** A frame not below the word, and not below the bit if in that word, is not below both. */
  lemma BelowInWord(g: nat, w: nat, bit: nat)
    requires 64 * w <= g && bit < 64 && (g / 64 == w ==> bit <= g % 64)
    ensures w * 64 + bit <= g
  {
    assert g == g / 64 * 64 + g % 64;
  }

  lemma PastWord(f: nat, w: nat)
    requires 64 * w <= f && f / 64 != w
    ensures 64 * (w + 1) <= f
  {
    assert f == f / 64 * 64 + f % 64;
  }

  class BitmapFrameAllocator {
    const bitmap: array<Word>
    var freeCount: nat
    var nextFreeWord: nat
    ghost var free: set<nat>

    ghost predicate Valid()
      reads this, bitmap
    {
      && bitmap.Length == BITMAP_WORDS
      && (forall f: nat {:trigger IsFree(f)} :: f < MAX_FRAMES ==> (f in free <==> IsFree(f)))
      && (forall f :: f in free ==> 64 * nextFreeWord <= f < MAX_FRAMES)
      && freeCount == |free|
      && nextFreeWord <= BITMAP_WORDS
    }

    constructor ()
      ensures Valid() && fresh(bitmap) && free == {} && freeCount == 0
    {
      bitmap := new Word[BITMAP_WORDS](_ => seq(64, _ => true));
      freeCount := 0;
      nextFreeWord := 0;
      free := {};
    }

    predicate IsFree(idx: nat)
      requires bitmap.Length == BITMAP_WORDS && idx < MAX_FRAMES
      reads bitmap
    {
      !bitmap[idx / 64][idx % 64]
    }

    method MarkUsed(idx: nat)
      requires Valid() && idx in free
      modifies this, bitmap
      ensures Valid() && free == old(free) - {idx} && nextFreeWord == old(nextFreeWord)
    {
      var word, bit := idx / 64, idx % 64;
      bitmap[word] := bitmap[word][bit := true];
      freeCount := freeCount - 1;
      free := free - {idx};
      assert forall f: nat {:trigger IsFree(f)} :: f < MAX_FRAMES ==> (IsFree(f) <==> f != idx && old(IsFree(f)));
    }

    /** The caller restores the hint: freeing a frame below it breaks the hint only. */
    method MarkFree(idx: nat)
      requires Valid() && idx < MAX_FRAMES && idx !in free
      modifies this, bitmap
      ensures nextFreeWord == if idx / 64 < old(nextFreeWord) then idx / 64 else old(nextFreeWord)
      ensures Valid() && free == old(free) + {idx}
    {
      var word, bit := idx / 64, idx % 64;
      bitmap[word] := bitmap[word][bit := false];
      freeCount := freeCount + 1;
      free := free + {idx};
      if word < nextFreeWord {
        nextFreeWord := word;
      }
      assert forall f: nat {:trigger IsFree(f)} :: f < MAX_FRAMES ==> (IsFree(f) <==> f == idx || old(IsFree(f)));
    }

    method Alloc() returns (r: AllocResult)
      requires Valid()
      modifies this, bitmap
      ensures Valid()
      ensures r == Given(old(free)) && (r.NoFrame? <==> old(free) == {})
      ensures r.Frame? ==> r.frame in old(free) && forall f :: f in old(free) ==> r.frame <= f
      ensures free == if r.Frame? then old(free) - {r.frame} else {}
    {
      var wordIdx := nextFreeWord;
      while wordIdx < BITMAP_WORDS
        invariant nextFreeWord <= wordIdx <= BITMAP_WORDS
        invariant forall f :: f in free ==> 64 * wordIdx <= f
      {
        var word := bitmap[wordIdx];
        if !IsFull(word) {
          var bit := TrailingOnes(word);
          var frame := wordIdx * 64 + bit;
          WordAndBit(frame, wordIdx, bit);
          assert IsFree(frame);
          forall g | g in free
            ensures frame <= g
          {
            assert IsFree(g);
            BelowInWord(g, wordIdx, bit);
          }
          MarkUsed(frame);
          nextFreeWord := wordIdx;
          return Frame(frame);
        }
        forall f | f in free
          ensures 64 * (wordIdx + 1) <= f
        {
          assert IsFree(f);
          PastWord(f, wordIdx);
        }
        wordIdx := wordIdx + 1;
      }
      if f :| f in free {
        assert false;
      }
      return NoFrame;
    }

    method Dealloc(addr: nat) returns (r: FreeResult)
      requires Valid() && addr % FRAME_SIZE == 0
      modifies this, bitmap
      ensures Valid()
      ensures r == FreeFailed(InvalidFrame) <==> MAX_FRAMES <= addr / FRAME_SIZE
      ensures r == FreeFailed(DoubleFree) <==> addr / FRAME_SIZE in old(free)
      ensures free == Next(old(free), OpDealloc(addr))
      ensures free == if r.Freed? then old(free) + {addr / FRAME_SIZE} else old(free)
    {
      var idx := addr / FRAME_SIZE;
      if idx >= MAX_FRAMES {
        return FreeFailed(InvalidFrame);
      }
      if IsFree(idx) {
        return FreeFailed(DoubleFree);
      }
      MarkFree(idx);
      return Freed;
    }

    /** Start rounds up, end rounds down: only whole frames become free. */
    method MarkRangeFree(base: nat, length: nat)
      requires Valid() && base + FRAME_SIZE - 1 < U64_LIMIT && base + length < U64_LIMIT
      modifies this, bitmap
      ensures Valid() && free == old(free) + FramesInside(base, length)
    {
      var alignedBase := (base + FRAME_SIZE - 1) / FRAME_SIZE * FRAME_SIZE;
      var alignedEnd := (base + length) / FRAME_SIZE * FRAME_SIZE;
      InsideIsSpan(base, length);
      if alignedEnd <= alignedBase {
        return;
      }
      var start := alignedBase / FRAME_SIZE;
      var end := Min(alignedEnd / FRAME_SIZE, MAX_FRAMES);
      FreeSpan(start, end);
    }

    method FreeOne(idx: nat)
      requires Valid() && idx < MAX_FRAMES
      modifies this, bitmap
      ensures Valid() && forall x :: x in free <==> x in old(free) || x == idx
    {
      if !IsFree(idx) {
        MarkFree(idx);
      }
    }

    method UseOne(idx: nat)
      requires Valid() && idx < MAX_FRAMES
      modifies this, bitmap
      ensures Valid() && forall x :: x in free <==> x in old(free) && x != idx
    {
      if IsFree(idx) {
        MarkUsed(idx);
      }
    }

    method FreeSpan(start: nat, end: nat)
      requires Valid() && end <= MAX_FRAMES
      modifies this, bitmap
      ensures Valid() && forall x :: x in free <==> x in old(free) || Between(start, x, end)
    {
      var idx := start;
      while idx < end
        invariant start <= idx && (idx <= end || idx == start)
        invariant Valid() && forall x :: x in free <==> x in old(free) || Between(start, x, idx)
      {
        FreeOne(idx);
        idx := idx + 1;
      }
    }

    /** Start rounds down, end rounds up: every frame the range touches is reserved. */
    method MarkRangeUsed(base: nat, length: nat)
      requires Valid() && base + length < U64_LIMIT
      modifies this, bitmap
      ensures Valid() && free == old(free) - FramesMeeting(base, length)
    {
      var start := base / FRAME_SIZE;
      var end := Min((base + length + FRAME_SIZE - 1) / FRAME_SIZE, MAX_FRAMES);
      MeetingIsSpan(base, length);
      UseSpan(start, end);
    }

    method UseSpan(start: nat, end: nat)
      requires Valid() && end <= MAX_FRAMES
      modifies this, bitmap
      ensures Valid() && forall x :: x in free <==> x in old(free) && !Between(start, x, end)
    {
      var idx := start;
      while idx < end
        invariant start <= idx && (idx <= end || idx == start)
        invariant Valid() && forall x :: x in free <==> x in old(free) && !Between(start, x, idx)
      {
        UseOne(idx);
        idx := idx + 1;
      }
    }
  }

  //
  // Runs
  //

  datatype Op =
    | OpAlloc
    | OpDealloc(addr: nat)
    | OpRangeFree(base: nat, length: nat)
    | OpRangeUsed(base: nat, length: nat)

  /** What `alloc` hands out from a given free set. */
  ghost function Given(free: set<nat>): AllocResult {
    if free == {} then NoFrame else Frame(Lowest(free))
  }

  ghost function Next(free: set<nat>, op: Op): set<nat> {
    match op
    case OpAlloc => if free == {} then {} else free - {Lowest(free)}
    case OpDealloc(addr) => if addr / FRAME_SIZE < MAX_FRAMES then free + {addr / FRAME_SIZE} else free
    case OpRangeFree(base, length) => free + FramesInside(base, length)
    case OpRangeUsed(base, length) => free - FramesMeeting(base, length)
  }

  ghost function After(free: set<nat>, ops: seq<Op>): set<nat> {
    if ops == [] then free else Next(After(free, ops[..|ops| - 1]), ops[|ops| - 1])
  }

  /** Operation `k` of the run hands out frame `f`. */
  ghost predicate HandsOut(free: set<nat>, ops: seq<Op>, k: nat, f: nat)
    requires k < |ops|
  {
    ops[k].OpAlloc? && Given(After(free, ops[..k])) == Frame(f)
  }

  predicate Releases(op: Op, f: nat) {
    || (op.OpDealloc? && op.addr / FRAME_SIZE == f)
    || (op.OpRangeFree? && Inside(f, op.base, op.length))
  }

  lemma AfterStep(free: set<nat>, ops: seq<Op>, k: nat)
    requires k < |ops|
    ensures After(free, ops[..k + 1]) == Next(After(free, ops[..k]), ops[k])
  {
    assert ops[..k + 1][..k] == ops[..k];
  }

  /** A frame that is not free stays so until some operation releases it. */
  lemma {:induction false} StaysTaken(free: set<nat>, ops: seq<Op>, i: nat, j: nat, f: nat)
    requires i <= j <= |ops|
    requires f !in After(free, ops[..i])
    requires forall k :: i <= k < j ==> !Releases(ops[k], f)
    ensures f !in After(free, ops[..j])
  {
    if i < j {
      StaysTaken(free, ops, i, j - 1, f);
      AfterStep(free, ops, j - 1);
    }
  }

  /** No frame is handed out twice without a release in between, in any run. */
  lemma NeverHandedOutTwice(free: set<nat>, ops: seq<Op>, i: nat, j: nat, f: nat)
    requires i < j < |ops|
    requires HandsOut(free, ops, i, f) && HandsOut(free, ops, j, f)
    ensures exists k :: i < k < j && Releases(ops[k], f)
  {
    AfterStep(free, ops, i);
    if forall k :: i + 1 <= k < j ==> !Releases(ops[k], f) {
      StaysTaken(free, ops, i + 1, j, f);
      assert false;
    }
  }

  /** A frame touched by `mark_range_used` is not handed out before it is released. */
  lemma ReservedUntilReleased(free: set<nat>, ops: seq<Op>, i: nat, j: nat, f: nat)
    requires i < j < |ops|
    requires ops[i].OpRangeUsed? && f in FramesMeeting(ops[i].base, ops[i].length)
    requires HandsOut(free, ops, j, f)
    ensures exists k :: i < k < j && Releases(ops[k], f)
  {
    AfterStep(free, ops, i);
    if forall k :: i + 1 <= k < j ==> !Releases(ops[k], f) {
      StaysTaken(free, ops, i + 1, j, f);
      assert false;
    }
  }

  predicate Callable(op: Op) {
    match op
    case OpAlloc => true
    case OpDealloc(addr) => addr % FRAME_SIZE == 0
    case OpRangeFree(base, length) => base + FRAME_SIZE - 1 < U64_LIMIT && base + length < U64_LIMIT
    case OpRangeUsed(base, length) => base + length < U64_LIMIT
  }

  /** One operation on the bitmap is one step of the free set. */
  method Perform(a: BitmapFrameAllocator, op: Op)
    requires a.Valid() && Callable(op)
    modifies a, a.bitmap
    ensures a.Valid() && a.free == Next(old(a.free), op)
  {
    match op
    case OpAlloc =>
      var _ := a.Alloc();
    case OpDealloc(addr) =>
      var _ := a.Dealloc(addr);
    case OpRangeFree(base, length) =>
      a.MarkRangeFree(base, length);
    case OpRangeUsed(base, length) =>
      a.MarkRangeUsed(base, length);
  }

  /** Every run of the bitmap allocator is the run of the free set. */
  method Replay(a: BitmapFrameAllocator, ops: seq<Op>)
    requires a.Valid() && forall k :: 0 <= k < |ops| ==> Callable(ops[k])
    modifies a, a.bitmap
    ensures a.Valid() && a.free == After(old(a.free), ops) && a.freeCount == |a.free|
  {
    var k := 0;
    while k < |ops|
      invariant k <= |ops|
      invariant a.Valid() && a.free == After(old(a.free), ops[..k])
    {
      AfterStep(old(a.free), ops, k);
      Perform(a, ops[k]);
      k := k + 1;
    }
    assert ops[..k] == ops;
  }
}
