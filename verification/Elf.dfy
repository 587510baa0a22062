/** The ELF64 parser: header checks, the loop over program headers, and what it promises the loader. */
module Elf {
  import opened Words
  import opened Paging

  const EHDR_SIZE := 64
  const PHDR_SIZE := 56
  const MAX_PROGRAM_HEADERS := 8
  const PT_LOAD := 1
  const PT_DYNAMIC := 2
  const PT_INTERP := 3

  datatype ElfError =
    | Truncated | BadMagic | UnsupportedFormat | UnsupportedTarget | BadPhentSize | TooManyHeaders
    | PhdrOutOfBounds | SegmentOutOfBounds | BadSegmentLayout | BadVirtualAddress | DynamicLinkingRejected

  datatype ProgramHeader = ProgramHeader(
    pType: nat, pFlags: nat, offset: nat, vaddr: nat, filesz: nat, memsz: nat, align: nat)

  datatype Image = Image(entry: nat, loads: seq<ProgramHeader>, raw: seq<byte>)

  datatype Parsed = Good(image: Image) | Bad(error: ElfError)

  predicate IsWritable(ph: ProgramHeader) {
    ph.pFlags / 2 % 2 == 1
  }

  predicate IsPowerOfTwo(n: nat) {
    n == 1 || (n > 0 && n % 2 == 0 && IsPowerOfTwo(n / 2))
  }

  function HeaderAt(data: seq<byte>, off: nat): ProgramHeader
    requires off + PHDR_SIZE <= |data|
  {
    ProgramHeader(U32At(data, off), U32At(data, off + 4), U64At(data, off + 8), U64At(data, off + 16),
                  U64At(data, off + 32), U64At(data, off + 40), U64At(data, off + 48))
  }

  /** What is wrong with the ELF header, in the order the parser looks. */
  function HeaderFault(data: seq<byte>): Option<ElfError> {
    if |data| < EHDR_SIZE then Some(Truncated)
    else if data[..4] != [0x7F, 0x45, 0x4C, 0x46] then Some(BadMagic)
    else if data[4] != 2 || data[5] != 1 || data[6] != 1 then Some(UnsupportedFormat)
    else if U16At(data, 18) != 62 || U32At(data, 20) != 1 then Some(UnsupportedTarget)
    else if U16At(data, 16) != 2 && U16At(data, 16) != 3 then Some(UnsupportedTarget)
    else if U16At(data, 54) != PHDR_SIZE then Some(BadPhentSize)
    else if U16At(data, 56) > MAX_PROGRAM_HEADERS then Some(TooManyHeaders)
    else if U64At(data, 32) + U16At(data, 56) * PHDR_SIZE > |data| then Some(PhdrOutOfBounds)
    else None
  }

  /** What is wrong with one program header; headers that are not PT_LOAD are skipped. */
  function SegmentFault(ph: ProgramHeader, size: nat): Option<ElfError> {
    if ph.pType == PT_INTERP || ph.pType == PT_DYNAMIC then Some(DynamicLinkingRejected)
    else if ph.pType != PT_LOAD then None
    else if ph.filesz > ph.memsz then Some(BadSegmentLayout)
    else if ph.align < PAGE_SIZE || !IsPowerOfTwo(ph.align) then Some(BadSegmentLayout)
    else if ph.offset + ph.filesz > size then Some(SegmentOutOfBounds)
    else if !IsUserVa(ph.vaddr) then Some(BadVirtualAddress)
    else if ph.vaddr + ph.memsz > USER_LIMIT then Some(BadVirtualAddress)
    else None
  }

  ghost predicate InFile(data: seq<byte>, phoff: nat, n: nat) {
    phoff + n * PHDR_SIZE <= |data|
  }

  function Phdr(data: seq<byte>, phoff: nat, i: nat): ProgramHeader
    requires InFile(data, phoff, i + 1)
  {
    HeaderAt(data, phoff + i * PHDR_SIZE)
  }

  /** The PT_LOAD headers among the first `k`, in file order. */
  function Loads(data: seq<byte>, phoff: nat, k: nat): (loads: seq<ProgramHeader>)
    requires InFile(data, phoff, k)
    ensures |loads| <= k
  {
    if k == 0 then []
    else
      var ph := Phdr(data, phoff, k - 1);
      Loads(data, phoff, k - 1) + if ph.pType == PT_LOAD then [ph] else []
  }

  ghost predicate Clean(data: seq<byte>, phoff: nat, i: nat)
    requires InFile(data, phoff, i + 1)
  {
    SegmentFault(Phdr(data, phoff, i), |data|) == None
  }

  ghost predicate CleanBelow(data: seq<byte>, phoff: nat, k: nat)
    requires InFile(data, phoff, k)
  {
    forall i :: 0 <= i < k ==> Clean(data, phoff, i)
  }

  datatype Scanned = Headers(loads: seq<ProgramHeader>) | Fault(error: ElfError)

  /** The first faulty header decides. */
  ghost predicate FirstFault(data: seq<byte>, phoff: nat, n: nat, e: ElfError)
    requires InFile(data, phoff, n)
  {
    exists i :: 0 <= i < n && CleanBelow(data, phoff, i) && !Clean(data, phoff, i)
                && SegmentFault(Phdr(data, phoff, i), |data|) == Some(e)
  }

  lemma FaultAt(data: seq<byte>, phoff: nat, n: nat, i: nat, e: ElfError)
    requires InFile(data, phoff, n) && i < n && CleanBelow(data, phoff, i)
    requires SegmentFault(Phdr(data, phoff, i), |data|) == Some(e)
    ensures !CleanBelow(data, phoff, n) && FirstFault(data, phoff, n, e)
  {
    assert !Clean(data, phoff, i);
  }

  lemma CleanNext(data: seq<byte>, phoff: nat, i: nat)
    requires InFile(data, phoff, i + 1) && CleanBelow(data, phoff, i)
    requires SegmentFault(Phdr(data, phoff, i), |data|) == None
    ensures CleanBelow(data, phoff, i + 1)
  {
    assert Clean(data, phoff, i);
  }

  method ScanHeaders(data: seq<byte>, phoff: nat, n: nat) returns (r: Scanned)
    requires InFile(data, phoff, n)
    ensures CleanBelow(data, phoff, n) ==> r == Headers(Loads(data, phoff, n))
    ensures !CleanBelow(data, phoff, n) ==> r.Fault? && FirstFault(data, phoff, n, r.error)
  {
    var loads: seq<ProgramHeader> := [];
    var i := 0;
    while i < n
      invariant i <= n
      invariant CleanBelow(data, phoff, i)
      invariant loads == Loads(data, phoff, i)
    {
      var bad;
      bad, loads := ScanOne(data, phoff, n, i, loads);
      if bad.Some? {
        return Fault(bad.value);
      }
      i := i + 1;
    }
    return Headers(loads);
  }

  method ScanOne(data: seq<byte>, phoff: nat, ghost n: nat, i: nat, loads: seq<ProgramHeader>)
    returns (bad: Option<ElfError>, more: seq<ProgramHeader>)
    requires InFile(data, phoff, n) && i < n && CleanBelow(data, phoff, i) && loads == Loads(data, phoff, i)
    ensures bad.Some? ==> !CleanBelow(data, phoff, n) && FirstFault(data, phoff, n, bad.value)
    ensures bad.None? ==> CleanBelow(data, phoff, i + 1) && more == Loads(data, phoff, i + 1)
  {
    var ph := Phdr(data, phoff, i);
    bad, more := SegmentFault(ph, |data|), loads;
    if bad.Some? {
      FaultAt(data, phoff, n, i, bad.value);
    } else {
      CleanNext(data, phoff, i);
      if ph.pType == PT_LOAD {
        more := loads + [ph];
      }
    }
  }

  /** A file `parse` accepts: clean header, clean program headers, entry point in the user half. */
  ghost predicate Acceptable(data: seq<byte>) {
    && HeaderFault(data) == None
    && CleanBelow(data, U64At(data, 32), U16At(data, 56))
    && U64At(data, 24) < USER_LIMIT
  }

  /** The error of a file `parse` refuses: of the header, else of the first faulty program header, else
      of the entry point. */
  ghost predicate Faulty(data: seq<byte>, e: ElfError) {
    if HeaderFault(data).Some? then e == HeaderFault(data).value
    else if !CleanBelow(data, U64At(data, 32), U16At(data, 56)) then FirstFault(data, U64At(data, 32), U16At(data, 56), e)
    else U64At(data, 24) >= USER_LIMIT && e == BadVirtualAddress
  }

  /** A file has at most one error, and an acceptable one none. */
  lemma FaultDecides(data: seq<byte>, e: ElfError, e': ElfError)
    ensures Faulty(data, e) && Faulty(data, e') ==> e == e'
    ensures Faulty(data, e) ==> !Acceptable(data)
  {
    if HeaderFault(data).None? && !CleanBelow(data, U64At(data, 32), U16At(data, 56)) && Faulty(data, e) && Faulty(data, e') {
      FirstFaultOnly(data, U64At(data, 32), U16At(data, 56), e, e');
    }
  }

  lemma FirstFaultOnly(data: seq<byte>, phoff: nat, n: nat, e: ElfError, e': ElfError)
    requires InFile(data, phoff, n) && FirstFault(data, phoff, n, e) && FirstFault(data, phoff, n, e')
    ensures e == e'
  {
    var i :| 0 <= i < n && CleanBelow(data, phoff, i) && !Clean(data, phoff, i)
             && SegmentFault(Phdr(data, phoff, i), |data|) == Some(e);
    var j :| 0 <= j < n && CleanBelow(data, phoff, j) && !Clean(data, phoff, j)
             && SegmentFault(Phdr(data, phoff, j), |data|) == Some(e');
    assert !(i < j) && !(j < i);
  }

  /** Entry point, PT_LOAD headers in file order, and the file itself. */
  ghost function ImageOf(data: seq<byte>): Image
    requires HeaderFault(data) == None
  {
    Image(U64At(data, 24), Loads(data, U64At(data, 32), U16At(data, 56)), data)
  }

  /** `parse` accepts exactly the acceptable files, hands the loader their PT_LOAD headers in order, and
      reports the one error of any other file. */
  method Parse(data: seq<byte>) returns (r: Parsed)
    ensures r.Good? <==> Acceptable(data)
    ensures r.Good? ==> r.image == ImageOf(data)
    ensures r.Bad? ==> Faulty(data, r.error)
    ensures r.Good? ==> forall j :: 0 <= j < |r.image.loads| ==> Loadable(r.image.loads[j], |data|)
  {
    var fault := HeaderFault(data);
    if fault.Some? {
      return Bad(fault.value);
    }
    var phoff, n, entry := U64At(data, 32), U16At(data, 56), U64At(data, 24);
    var scan := ScanHeaders(data, phoff, n);
    if scan.Fault? {
      return Bad(scan.error);
    }
    EntryPage(entry);
    if !IsUserVa(entry / PAGE_SIZE * PAGE_SIZE) {
      return Bad(BadVirtualAddress);
    }
    forall j | 0 <= j < |scan.loads|
      ensures Loadable(scan.loads[j], |data|)
    {
      LoadsAreLoadable(data, phoff, n, j);
    }
    return Good(Image(entry, scan.loads, data));
  }

  lemma EntryPage(entry: nat)
    ensures IsUserVa(entry / PAGE_SIZE * PAGE_SIZE) <==> entry < USER_LIMIT
  {
  }

  /** What the loader may rely on: no read past the file, no address past the user half. */
  predicate Loadable(ph: ProgramHeader, size: nat) {
    && ph.filesz <= ph.memsz
    && ph.offset + ph.filesz <= size
    && IsUserVa(ph.vaddr)
    && ph.vaddr + ph.memsz <= USER_LIMIT
  }

  lemma CleanLoad(ph: ProgramHeader, size: nat)
    requires SegmentFault(ph, size) == None && ph.pType == PT_LOAD
    ensures Loadable(ph, size)
  {
  }

  lemma {:induction false} LoadsAreLoadable(data: seq<byte>, phoff: nat, k: nat, j: nat)
    requires InFile(data, phoff, k) && CleanBelow(data, phoff, k)
    requires j < |Loads(data, phoff, k)|
    ensures Loadable(Loads(data, phoff, k)[j], |data|)
  {
    if j < |Loads(data, phoff, k - 1)| {
      LoadsAreLoadable(data, phoff, k - 1, j);
    } else {
      assert Clean(data, phoff, k - 1);
      CleanLoad(Phdr(data, phoff, k - 1), |data|);
    }
  }
}
