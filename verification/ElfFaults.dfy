/** Which files the ELF parser takes, field by field, and that every error names a fault the file has. */
module ElfFaults {
  import opened Words
  import opened Elf

  /** A file header for this kernel: magic, 64 bits, little-endian, version 1, x86_64, executable or shared
      object, program headers of 56 bytes, at most eight of them, inside the file. */
  predicate HeaderOk(d: seq<byte>) {
    && |d| >= 64 && d[..7] == [0x7F, 0x45, 0x4C, 0x46, 2, 1, 1]
    && U16At(d, 18) == 62 && U32At(d, 20) == 1 && (U16At(d, 16) == 2 || U16At(d, 16) == 3)
    && U16At(d, 54) == 56 && U16At(d, 56) <= 8 && U64At(d, 32) + 56 * U16At(d, 56) <= |d|
  }

  ghost predicate PowerOfTwo(n: nat) {
    exists s: nat :: n == Pow2(s)
  }

  /** A segment that can be loaded from a file of that size. */
  ghost predicate SegmentOk(ph: ProgramHeader, size: nat) {
    && ph.filesz <= ph.memsz && ph.align >= 4096 && PowerOfTwo(ph.align) && ph.offset + ph.filesz <= size
    && ph.vaddr % 4096 == 0 && ph.vaddr < 0x8000_0000_0000 && ph.vaddr + ph.memsz <= 0x8000_0000_0000
  }

  lemma {:induction false} PowerMeans(n: nat)
    ensures IsPowerOfTwo(n) <==> PowerOfTwo(n)
  {
    if n == 1 {
      assert n == Pow2(0);
    } else if n > 1 && n % 2 == 0 {
      PowerMeans(n / 2);
      if PowerOfTwo(n / 2) {
        var s: nat :| n / 2 == Pow2(s);
        assert n == Pow2(s + 1);
      }
      if PowerOfTwo(n) {
        var s: nat :| n == Pow2(s);
        assert n / 2 == Pow2(s - 1);
      }
    } else {
      forall s: nat ensures Pow2(s) != n {
        assert Pow2(s) == 1 || Pow2(s) % 2 == 0;
      }
    }
  }

  lemma HeaderTaken(d: seq<byte>)
    ensures HeaderFault(d) == None <==> HeaderOk(d)
  {
    if |d| >= 64 {
      assert d[..7] == d[..4] + [d[4], d[5], d[6]];
      if d[..7] == [0x7F, 0x45, 0x4C, 0x46, 2, 1, 1] {
        assert d[..4] == d[..7][..4] && d[4] == d[..7][4] && d[5] == d[..7][5] && d[6] == d[..7][6];
      }
    }
  }

  lemma SegmentTaken(ph: ProgramHeader, size: nat)
    ensures SegmentFault(ph, size) == None <==> ph.pType != 2 && ph.pType != 3 && (ph.pType == 1 ==> SegmentOk(ph, size))
  {
    PowerMeans(ph.align);
  }

  /** The parser takes exactly the files with such a header, no dynamic linking, loadable segments only, and
      an entry point below bit 47. */
  lemma TakenExactly(d: seq<byte>)
    ensures Acceptable(d) <==>
      && HeaderOk(d) && U64At(d, 24) < 0x8000_0000_0000
      && forall i | 0 <= i < U16At(d, 56) :: SegmentTakenAt(d, U64At(d, 32), i)
  {
    HeaderTaken(d);
    if HeaderOk(d) {
      var phoff, n := U64At(d, 32), U16At(d, 56);
      forall i | 0 <= i < n ensures Clean(d, phoff, i) <==> SegmentTakenAt(d, phoff, i) {
        SegmentTaken(Phdr(d, phoff, i), |d|);
      }
    }
  }

  ghost predicate SegmentTakenAt(d: seq<byte>, phoff: nat, i: nat) {
    && phoff + 56 * i + 56 <= |d|
    && var ph := HeaderAt(d, phoff + 56 * i);
       ph.pType != 2 && ph.pType != 3 && (ph.pType == 1 ==> SegmentOk(ph, |d|))
  }

  /** Some program header has a property. */
  ghost predicate SomeHeader(d: seq<byte>, e: ElfError) {
    && HeaderOk(d)
    && exists i | 0 <= i < U16At(d, 56) :: InFile(d, U64At(d, 32), i + 1) && Names(Phdr(d, U64At(d, 32), i), |d|, e)
  }

  /** What an error says about a program header. */
  ghost predicate Names(ph: ProgramHeader, size: nat, e: ElfError) {
    match e
    case DynamicLinkingRejected => ph.pType == 2 || ph.pType == 3
    case BadSegmentLayout => ph.pType == 1 && (ph.filesz > ph.memsz || ph.align < 4096 || !PowerOfTwo(ph.align))
    case SegmentOutOfBounds => ph.pType == 1 && ph.offset + ph.filesz > size
    case BadVirtualAddress =>
      ph.pType == 1 && (ph.vaddr % 4096 != 0 || ph.vaddr >= 0x8000_0000_0000 || ph.vaddr + ph.memsz > 0x8000_0000_0000)
    case _ => false
  }

  lemma SegmentNames(ph: ProgramHeader, size: nat)
    requires SegmentFault(ph, size).Some?
    ensures Names(ph, size, SegmentFault(ph, size).value)
  {
    PowerMeans(ph.align);
  }

  /** The error of a refused file names a fault it has. */
  lemma FaultNamed(d: seq<byte>, e: ElfError)
    requires Faulty(d, e)
    ensures match e
      case Truncated => |d| < 64
      case BadMagic => |d| >= 64 && d[..4] != [0x7F, 0x45, 0x4C, 0x46]
      case UnsupportedFormat => |d| >= 64 && (d[4] != 2 || d[5] != 1 || d[6] != 1)
      case UnsupportedTarget =>
        |d| >= 64 && (U16At(d, 18) != 62 || U32At(d, 20) != 1 || (U16At(d, 16) != 2 && U16At(d, 16) != 3))
      case BadPhentSize => |d| >= 64 && U16At(d, 54) != 56
      case TooManyHeaders => |d| >= 64 && U16At(d, 56) > 8
      case PhdrOutOfBounds => |d| >= 64 && U64At(d, 32) + 56 * U16At(d, 56) > |d|
      case BadVirtualAddress => SomeHeader(d, e) || (|d| >= 64 && U64At(d, 24) >= 0x8000_0000_0000)
      case _ => SomeHeader(d, e)
  {
    HeaderTaken(d);
    if HeaderFault(d).None? && !CleanBelow(d, U64At(d, 32), U16At(d, 56)) {
      var phoff, n := U64At(d, 32), U16At(d, 56);
      var i :| 0 <= i < n && CleanBelow(d, phoff, i) && !Clean(d, phoff, i)
               && SegmentFault(Phdr(d, phoff, i), |d|) == Some(e);
      SegmentNames(Phdr(d, phoff, i), |d|);
      assert SomeHeader(d, e);
    }
  }
}
