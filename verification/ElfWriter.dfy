/** Programs as a linker writes them: an independent writer of ELF images, and what the parser makes of
    its files. */
module ElfWriter {
  import opened Words
  import opened Elf

  const LIMIT: nat := 0x8000_0000_0000

  /** A program header to be written: a segment with its permissions and contents, or a note nobody loads. */
  datatype Part =
    | Segment(r: bool, w: bool, x: bool, vaddr: nat, bytes: seq<byte>, memsz: nat, shift: nat)
    | Note(kind: nat)

  datatype Program = Program(entry: nat, parts: seq<Part>)

  function Contents(parts: seq<Part>): seq<byte> {
    if parts == [] then []
    else
      var last := parts[|parts| - 1];
      Contents(parts[..|parts| - 1]) + if last.Segment? then last.bytes else []
  }

  function BitOf(b: bool): nat {
    if b then 1 else 0
  }

  lemma {:induction false} PowRises(m: nat, n: nat)
    requires m <= n
    ensures Pow2(m) <= Pow2(n)
  {
    if m < n {
      PowRises(m, n - 1);
    }
  }

  lemma {:induction false} PowIsPower(n: nat)
    ensures IsPowerOfTwo(Pow2(n))
  {
    if n > 0 {
      PowIsPower(n - 1);
    }
  }

  lemma Alignment(shift: nat)
    requires 12 <= shift < 64
    ensures 4096 <= Pow2(shift) < U64_LIMIT && IsPowerOfTwo(Pow2(shift))
  {
    PowRises(12, shift);
    PowRises(shift, 63);
    PowIsPower(shift);
    PowLiterals();
  }

  lemma PowLiterals()
    ensures Pow2(12) == 4096 && Pow2(63) == 0x8000_0000_0000_0000
  {
    assert Pow2(12) == 4096;
    assert Pow2(21) == 0x20_0000;
    assert Pow2(30) == 0x4000_0000;
    assert Pow2(39) == 0x80_0000_0000;
    assert Pow2(48) == 0x1_0000_0000_0000;
    assert Pow2(57) == 0x200_0000_0000_0000;
  }

  function AlignOf(s: Part): (a: nat)
    requires s.Segment? && PartOk(s)
    ensures a < U64_LIMIT
  {
    Alignment(s.shift);
    Pow2(s.shift)
  }

  /** What a linker may write for this kernel; a segment is aligned to a power of two. */
  predicate PartOk(p: Part) {
    match p
    case Segment(_, _, _, vaddr, bytes, memsz, shift) =>
      && |bytes| <= memsz && vaddr % 4096 == 0 && vaddr < LIMIT && vaddr + memsz <= LIMIT
      && 12 <= shift < 64
    case Note(kind) => kind < U32_LIMIT && kind != 1 && kind != 2 && kind != 3
  }

  predicate Linkable(p: Program) {
    && p.entry < LIMIT && |p.parts| <= 8 && 64 + 56 * |p.parts| + |Contents(p.parts)| < U64_LIMIT
    && forall i | 0 <= i < |p.parts| :: PartOk(p.parts[i])
  }

  // ---------------------------------------------------------------------
  // The writer
  // ---------------------------------------------------------------------

  const IDENT: seq<byte> := [0x7F, 0x45, 0x4C, 0x46, 2, 1, 1, 0, 0, 0, 0, 0, 0, 0, 0, 0]

  /** An executable for x86_64. */
  function Machine(): (b: seq<byte>)
    ensures |b| == 8
  {
    Le16(2) + Le16(62) + Le32(1)
  }

  /** Entry point, then where the program headers and the (absent) section headers are. */
  function Places(entry: nat): (b: seq<byte>)
    requires entry < U64_LIMIT
    ensures |b| == 24
  {
    Le64(entry) + Le64(64) + Le64(0)
  }

  /** Flags, the sizes of this header and of a program header, how many of those, and no sections. */
  function Sizes(n: nat): (b: seq<byte>)
    requires n < U16_LIMIT
    ensures |b| == 16
  {
    Le32(0) + Le16(64) + Le16(56) + Le16(n) + Zeros(6)
  }

  function FileHeader(p: Program): (b: seq<byte>)
    requires Linkable(p)
    ensures |b| == 64
  {
    IDENT + Machine() + Places(p.entry) + Sizes(|p.parts|)
  }

  /** Permissions of a segment: execute, write, read from the lowest bit. */
  function Permissions(s: Part): (n: nat)
    requires s.Segment?
    ensures n < 8
  {
    BitOf(s.x) + 2 * BitOf(s.w) + 4 * BitOf(s.r)
  }

  function Location(offset: nat, vaddr: nat): (b: seq<byte>)
    requires offset < U64_LIMIT && vaddr < U64_LIMIT
    ensures |b| == 24
  {
    Le64(offset) + Le64(vaddr) + Le64(vaddr)
  }

  function Extent(filesz: nat, memsz: nat, align: nat): (b: seq<byte>)
    requires filesz < U64_LIMIT && memsz < U64_LIMIT && align < U64_LIMIT
    ensures |b| == 24
  {
    Le64(filesz) + Le64(memsz) + Le64(align)
  }

  function HeaderBytes(p: Part, offset: nat): (b: seq<byte>)
    requires PartOk(p) && offset < U64_LIMIT
    ensures |b| == 56
  {
    match p
    case Segment(_, _, _, vaddr, bytes, memsz, _) =>
      Le32(1) + Le32(Permissions(p)) + Location(offset, vaddr) + Extent(|bytes|, memsz, AlignOf(p))
    case Note(kind) => Le32(kind) + Zeros(52)
  }

  /** Where the bytes of part `i` lie in the file. */
  function Offset(p: Program, i: nat): nat
    requires i <= |p.parts|
  {
    64 + 56 * |p.parts| + |Contents(p.parts[..i])|
  }

  lemma {:induction false} ContentsPrefix(parts: seq<Part>, i: nat)
    requires i <= |parts|
    ensures Contents(parts[..i]) <= Contents(parts)
    decreases |parts|
  {
    if i < |parts| {
      var front := parts[..|parts| - 1];
      ContentsPrefix(front, i);
      assert front[..i] == parts[..i];
    } else {
      assert parts[..i] == parts;
    }
  }

  function Header(p: Program, i: nat): (b: seq<byte>)
    requires Linkable(p) && i < |p.parts|
    ensures |b| == 56
  {
    ContentsPrefix(p.parts, i);
    HeaderBytes(p.parts[i], Offset(p, i))
  }

  lemma InFront(a: seq<byte>, b: seq<byte>, lo: nat, hi: nat)
    requires lo <= hi <= |a|
    ensures (a + b)[lo..hi] == a[lo..hi]
  {
  }

  /** Blocks of 56 bytes in a row. */
  function Flat(bs: seq<seq<byte>>): (b: seq<byte>)
    requires forall i | 0 <= i < |bs| :: |bs[i]| == 56
    ensures |b| == 56 * |bs|
  {
    if bs == [] then [] else Flat(bs[..|bs| - 1]) + bs[|bs| - 1]
  }

  lemma {:induction false} FlatAt(bs: seq<seq<byte>>, i: nat)
    requires (forall k | 0 <= k < |bs| :: |bs[k]| == 56) && i < |bs|
    ensures Flat(bs)[56 * i..56 * i + 56] == bs[i]
  {
    var n := |bs| - 1;
    if i < n {
      FlatAt(bs[..n], i);
      InFront(Flat(bs[..n]), bs[n], 56 * i, 56 * i + 56);
    }
  }

  function Headers(p: Program): (b: seq<byte>)
    requires Linkable(p)
    ensures |b| == 56 * |p.parts|
  {
    Flat(seq(|p.parts|, i requires 0 <= i < |p.parts| => Header(p, i)))
  }

  /** The file: header, program headers, contents. */
  function Write(p: Program): (b: seq<byte>)
    requires Linkable(p)
    ensures |b| == 64 + 56 * |p.parts| + |Contents(p.parts)|
  {
    FileHeader(p) + Headers(p) + Contents(p.parts)
  }

  // ---------------------------------------------------------------------
  // Reading it back
  // ---------------------------------------------------------------------

  lemma MachineReads(d: seq<byte>)
    requires |d| >= 64 && d[16..24] == Machine()
    ensures U16At(d, 16) == 2 && U16At(d, 18) == 62 && U32At(d, 20) == 1
  {
    TwoParts(d, 16, Le16(2) + Le16(62), Le32(1));
    TwoParts(d, 16, Le16(2), Le16(62));
    Le16At(d, 16, 2);
    Le16At(d, 18, 62);
    Le32At(d, 20, 1);
  }

  lemma PlacesRead(d: seq<byte>, entry: nat)
    requires |d| >= 64 && entry < U64_LIMIT && d[24..48] == Places(entry)
    ensures U64At(d, 24) == entry && U64At(d, 32) == 64
  {
    TwoParts(d, 24, Le64(entry) + Le64(64), Le64(0));
    TwoParts(d, 24, Le64(entry), Le64(64));
    Le64At(d, 24, entry);
    Le64At(d, 32, 64);
  }

  lemma SizesRead(d: seq<byte>, n: nat)
    requires |d| >= 64 && n < U16_LIMIT && d[48..64] == Sizes(n)
    ensures U16At(d, 54) == 56 && U16At(d, 56) == n
  {
    TwoParts(d, 48, Le32(0) + Le16(64) + Le16(56) + Le16(n), Zeros(6));
    TwoParts(d, 48, Le32(0) + Le16(64) + Le16(56), Le16(n));
    TwoParts(d, 48, Le32(0) + Le16(64), Le16(56));
    Le16At(d, 54, 56);
    Le16At(d, 56, n);
  }

  lemma HeaderReads(p: Program, d: seq<byte>)
    requires Linkable(p) && |d| >= 64 && d[0..64] == FileHeader(p)
    ensures d[..4] == [0x7F, 0x45, 0x4C, 0x46] && d[4] == 2 && d[5] == 1 && d[6] == 1
    ensures U16At(d, 16) == 2 && U16At(d, 18) == 62 && U32At(d, 20) == 1
    ensures U64At(d, 24) == p.entry && U64At(d, 32) == 64 && U16At(d, 54) == 56 && U16At(d, 56) == |p.parts|
  {
    TwoParts(d, 0, IDENT + Machine() + Places(p.entry), Sizes(|p.parts|));
    TwoParts(d, 0, IDENT + Machine(), Places(p.entry));
    TwoParts(d, 0, IDENT, Machine());
    IdentReads(d);
    MachineReads(d);
    PlacesRead(d, p.entry);
    SizesRead(d, |p.parts|);
  }

  lemma IdentReads(d: seq<byte>)
    requires |d| >= 64 && d[0..16] == IDENT
    ensures d[..4] == [0x7F, 0x45, 0x4C, 0x46] && d[4] == 2 && d[5] == 1 && d[6] == 1
  {
    assert d[4] == d[0..16][4] && d[5] == d[0..16][5] && d[6] == d[0..16][6];
    assert d[..4] == d[0..16][..4];
  }

  /** The header the parser is to find for a segment. */
  function HeaderOf(s: Part, offset: nat): ProgramHeader
    requires s.Segment? && PartOk(s)
  {
    ProgramHeader(1, Permissions(s), offset, s.vaddr, |s.bytes|, s.memsz, AlignOf(s))
  }

  lemma LocationReads(d: seq<byte>, o: nat, offset: nat, vaddr: nat)
    requires offset < U64_LIMIT && vaddr < U64_LIMIT && o + 24 <= |d| && d[o..o + 24] == Location(offset, vaddr)
    ensures U64At(d, o) == offset && U64At(d, o + 8) == vaddr
  {
    TwoParts(d, o, Le64(offset) + Le64(vaddr), Le64(vaddr));
    TwoParts(d, o, Le64(offset), Le64(vaddr));
    Le64At(d, o, offset);
    Le64At(d, o + 8, vaddr);
  }

  lemma ExtentReads(d: seq<byte>, o: nat, filesz: nat, memsz: nat, align: nat)
    requires filesz < U64_LIMIT && memsz < U64_LIMIT && align < U64_LIMIT
    requires o + 24 <= |d| && d[o..o + 24] == Extent(filesz, memsz, align)
    ensures U64At(d, o) == filesz && U64At(d, o + 8) == memsz && U64At(d, o + 16) == align
  {
    TwoParts(d, o, Le64(filesz) + Le64(memsz), Le64(align));
    TwoParts(d, o, Le64(filesz), Le64(memsz));
    Le64At(d, o, filesz);
    Le64At(d, o + 8, memsz);
    Le64At(d, o + 16, align);
  }

  lemma SegmentHeaderReads(s: Part, offset: nat, d: seq<byte>, o: nat)
    requires s.Segment? && PartOk(s) && offset < U64_LIMIT && o + 56 <= |d| && d[o..o + 56] == HeaderBytes(s, offset)
    ensures HeaderAt(d, o) == HeaderOf(s, offset)
  {
    var front, place, extent := Le32(1) + Le32(Permissions(s)), Location(offset, s.vaddr), Extent(|s.bytes|, s.memsz, AlignOf(s));
    TwoParts(d, o, front + place, extent);
    TwoParts(d, o, front, place);
    TwoParts(d, o, Le32(1), Le32(Permissions(s)));
    Le32At(d, o, 1);
    Le32At(d, o + 4, Permissions(s));
    LocationReads(d, o + 8, offset, s.vaddr);
    ExtentReads(d, o + 32, |s.bytes|, s.memsz, AlignOf(s));
  }

  lemma FieldAt(d: seq<byte>, o: nat, b: seq<byte>, lo: nat, hi: nat)
    requires o + |b| <= |d| && d[o..o + |b|] == b && lo <= hi <= |b|
    ensures d[o + lo..o + hi] == b[lo..hi]
  {
    forall k | lo <= k < hi ensures d[o + k] == b[k] {
      assert d[o..o + |b|][k] == d[o + k];
    }
  }

  lemma NoteHeaderReads(s: Part, offset: nat, d: seq<byte>, o: nat)
    requires s.Note? && PartOk(s) && offset < U64_LIMIT && o + 56 <= |d| && d[o..o + 56] == HeaderBytes(s, offset)
    ensures HeaderAt(d, o).pType == s.kind
  {
    var b := HeaderBytes(s, offset);
    assert b[0..4] == Le32(s.kind);
    FieldAt(d, o, b, 0, 4);
    Le32At(d, o, s.kind);
  }

  /** The bytes of part `i` are in the file at its offset. */
  lemma {:induction false} ContentsAt(parts: seq<Part>, i: nat)
    requires i < |parts| && parts[i].Segment?
    ensures var o := |Contents(parts[..i])|;
      o + |parts[i].bytes| <= |Contents(parts)| && Contents(parts)[o..o + |parts[i].bytes|] == parts[i].bytes
    decreases |parts|
  {
    var n := |parts| - 1;
    var front := parts[..n];
    if i < n {
      ContentsAt(front, i);
      assert front[..i] == parts[..i];
      var o := |Contents(parts[..i])|;
      InFront(Contents(front), if parts[n].Segment? then parts[n].bytes else [], o, o + |parts[i].bytes|);
    }
  }

  lemma HeaderInFile(p: Program, i: nat)
    requires Linkable(p) && i < |p.parts|
    ensures Write(p)[64 + i * 56..64 + i * 56 + 56] == Header(p, i)
  {
    FlatAt(seq(|p.parts|, k requires 0 <= k < |p.parts| => Header(p, k)), i);
    Middle(FileHeader(p), Headers(p), Contents(p.parts), 56 * i, 56 * i + 56);
  }

  /** Part `i`, as the parser reads it: the segment at its offset, or the kind of the note. */
  ghost predicate ReadsAs(p: Program, d: seq<byte>, i: nat)
    requires i < |p.parts| && PartOk(p.parts[i])
  {
    InFile(d, 64, i + 1) && Describes(Phdr(d, 64, i), p.parts[i], Offset(p, i))
  }

  predicate Describes(ph: ProgramHeader, s: Part, offset: nat)
    requires PartOk(s)
  {
    if s.Segment? then ph == HeaderOf(s, offset) else ph.pType == s.kind
  }

  lemma PartReads(p: Program, i: nat)
    requires Linkable(p) && i < |p.parts|
    ensures ReadsAs(p, Write(p), i)
  {
    HeaderFound(p, i);
    FoundReads(p, Write(p), i);
  }

  lemma FoundReads(p: Program, d: seq<byte>, i: nat)
    requires i < |p.parts| && PartOk(p.parts[i]) && 64 + i * 56 + 56 <= |d|
    requires Describes(HeaderAt(d, 64 + i * 56), p.parts[i], Offset(p, i))
    ensures ReadsAs(p, d, i)
  {
  }

  lemma HeaderFound(p: Program, i: nat)
    requires Linkable(p) && i < |p.parts|
    ensures Describes(HeaderAt(Write(p), 64 + i * 56), p.parts[i], Offset(p, i))
  {
    HeaderInFile(p, i);
    ContentsPrefix(p.parts, i);
    PartHeaderReads(p.parts[i], Offset(p, i), Write(p), 64 + i * 56);
  }

  lemma PartHeaderReads(s: Part, offset: nat, d: seq<byte>, o: nat)
    requires PartOk(s) && offset < U64_LIMIT && o + 56 <= |d| && d[o..o + 56] == HeaderBytes(s, offset)
    ensures Describes(HeaderAt(d, o), s, offset)
  {
    if s.Segment? {
      SegmentHeaderReads(s, offset, d, o);
    } else {
      NoteHeaderReads(s, offset, d, o);
    }
  }

  lemma Middle(a: seq<byte>, b: seq<byte>, c: seq<byte>, lo: nat, hi: nat)
    requires lo <= hi <= |b|
    ensures (a + b + c)[|a| + lo..|a| + hi] == b[lo..hi]
  {
  }

  lemma Ending(a: seq<byte>, b: seq<byte>, c: seq<byte>, lo: nat, hi: nat)
    requires lo <= hi <= |c|
    ensures (a + b + c)[|a| + |b| + lo..|a| + |b| + hi] == c[lo..hi]
  {
  }

  /** The file holds the bytes of each segment where its header says. */
  lemma BytesRead(p: Program, i: nat)
    requires Linkable(p) && i < |p.parts| && p.parts[i].Segment?
    ensures var o, n := Offset(p, i), |p.parts[i].bytes|;
      o + n <= |Write(p)| && Write(p)[o..o + n] == p.parts[i].bytes
  {
    ContentsAt(p.parts, i);
    var lo := |Contents(p.parts[..i])|;
    Ending(FileHeader(p), Headers(p), Contents(p.parts), lo, lo + |p.parts[i].bytes|);
  }

  lemma PartClean(p: Program, d: seq<byte>, i: nat)
    requires i < |p.parts| && PartOk(p.parts[i]) && ReadsAs(p, d, i)
    requires p.parts[i].Segment? ==> Offset(p, i) + |p.parts[i].bytes| <= |d|
    ensures Clean(d, 64, i)
  {
    if p.parts[i].Segment? {
      Alignment(p.parts[i].shift);
    }
  }

  /** The segments among the first `k` parts, as the parser is to list them. */
  function Listed(p: Program, k: nat): seq<ProgramHeader>
    requires k <= |p.parts| && forall i | 0 <= i < k :: PartOk(p.parts[i])
  {
    if k == 0 then []
    else Listed(p, k - 1) + if p.parts[k - 1].Segment? then [HeaderOf(p.parts[k - 1], Offset(p, k - 1))] else []
  }

  /** The headers of segments, among others. */
  function Kept(hs: seq<ProgramHeader>): seq<ProgramHeader> {
    if hs == [] then []
    else Kept(hs[..|hs| - 1]) + if hs[|hs| - 1].pType == PT_LOAD then [hs[|hs| - 1]] else []
  }

  lemma {:induction false} LoadsKept(d: seq<byte>, hs: seq<ProgramHeader>)
    requires InFile(d, 64, |hs|) && forall i | 0 <= i < |hs| :: hs[i] == Phdr(d, 64, i)
    ensures Loads(d, 64, |hs|) == Kept(hs)
    decreases |hs|
  {
    if hs != [] {
      LoadsKept(d, hs[..|hs| - 1]);
    }
  }

  lemma {:induction false} KeptListed(p: Program, hs: seq<ProgramHeader>)
    requires |hs| <= |p.parts|
    requires forall i | 0 <= i < |hs| :: PartOk(p.parts[i]) && Describes(hs[i], p.parts[i], Offset(p, i))
    ensures Kept(hs) == Listed(p, |hs|)
    decreases |hs|
  {
    if hs != [] {
      KeptListed(p, hs[..|hs| - 1]);
      assert Describes(hs[|hs| - 1], p.parts[|hs| - 1], Offset(p, |hs| - 1));
    }
  }

  lemma WrittenLoads(p: Program, d: seq<byte>, n: nat)
    requires n == |p.parts| && InFile(d, 64, n)
    requires forall i | 0 <= i < n :: PartOk(p.parts[i]) && ReadsAs(p, d, i)
    ensures Loads(d, 64, n) == Listed(p, n)
  {
    var hs := seq(n, i requires 0 <= i < n => Phdr(d, 64, i));
    forall i | 0 <= i < n ensures Describes(hs[i], p.parts[i], Offset(p, i)) {
      assert ReadsAs(p, d, i);
    }
    LoadsKept(d, hs);
    KeptListed(p, hs);
  }

  lemma WrittenClean(p: Program, i: nat)
    requires Linkable(p) && i < |p.parts|
    ensures ReadsAs(p, Write(p), i) && Clean(Write(p), 64, i)
  {
    PartReads(p, i);
    if p.parts[i].Segment? {
      BytesRead(p, i);
    }
    PartClean(p, Write(p), i);
  }

  /** Every linkable program is accepted, with its entry point and exactly its segments, in order. */
  lemma WrittenParses(p: Program)
    requires Linkable(p)
    ensures Acceptable(Write(p))
    ensures ImageOf(Write(p)) == Image(p.entry, Listed(p, |p.parts|), Write(p))
  {
    var d, n := Write(p), |p.parts|;
    assert d[0..64] == FileHeader(p);
    HeaderReads(p, d);
    forall i | 0 <= i < n ensures ReadsAs(p, d, i) && Clean(d, 64, i) {
      WrittenClean(p, i);
    }
    WrittenLoads(p, d, n);
  }

  /** The place of part `i` among the segments. */
  lemma {:induction false} ListedAt(p: Program, k: nat, i: nat) returns (j: nat)
    requires i < k <= |p.parts| && p.parts[i].Segment? && forall m | 0 <= m < k :: PartOk(p.parts[m])
    ensures j < |Listed(p, k)| && Listed(p, k)[j] == HeaderOf(p.parts[i], Offset(p, i))
  {
    if i == k - 1 {
      j := |Listed(p, k - 1)|;
    } else {
      j := ListedAt(p, k - 1, i);
    }
  }

  /** The writable bit of a written segment is the second one of its flags. */
  lemma WritableAsWritten(s: Part, offset: nat)
    requires s.Segment? && PartOk(s)
    ensures IsWritable(HeaderOf(s, offset)) <==> s.w
  {
  }
}
