/**
 * The 64-bit entries behind the leaves of the table models: which bits hold the frame, which
 * the flags, and that reading an entry back gives what was written. Small and large leaves of
 * x86_64, kernel and user page descriptors of aarch64.
 */
module PageEntry {
  import opened Paging
  import opened Stage1
  import opened Words

  const WIDTH: nat := 64
  /** Bits 12 to 51 hold the frame number. */
  const FRAME_LOW: nat := 12
  const FRAME_HIGH: nat := 52
  /** A 2 MiB page keeps bits 21 to 51. */
  const LARGE_LOW: nat := 21
  const NX_BIT: nat := 63

  /** A machine word, least significant bit first. */
  type Word = w: seq<bool> | |w| == WIDTH witness seq(WIDTH, _ => false)

  function And(a: Word, b: Word): Word {
    seq(WIDTH, i requires 0 <= i < WIDTH => a[i] && b[i])
  }

  function Or(a: Word, b: Word): Word {
    seq(WIDTH, i requires 0 <= i < WIDTH => a[i] || b[i])
  }

  function Not(a: Word): Word {
    seq(WIDTH, i requires 0 <= i < WIDTH => !a[i])
  }

  /** The bits from `low` up to `high`. */
  function Mask(low: nat, high: nat): Word {
    seq(WIDTH, i => low <= i < high)
  }

  function AddressMask(): Word {
    Mask(FRAME_LOW, FRAME_HIGH)
  }

  /** Bits 0 to 8 and bit 63. */
  function FlagWord(f: Flags): Word {
    [f.present, f.writable, f.user, f.writeThrough, f.noCache, f.accessed, f.dirty, f.huge, f.global]
    + seq(NX_BIT - 9, _ => false) + [f.noExecute]
  }

  function FlagsIn(w: Word): Flags {
    Flags(w[0], w[1], w[2], w[3], w[4], w[5], w[6], w[7], w[8], w[NX_BIT])
  }

  /** Writing an entry forces no-execute on writable pages and masks the address, whose bits start
      at `low`: 12 for a page, 21 for a 2 MiB page. */
  function Entry(address: Word, low: nat, f: Flags): Word {
    Or(And(address, Mask(low, FRAME_HIGH)), FlagWord(if f.writable then f.(noExecute := true) else f))
  }

  function AddressOf(e: Word): Word {
    And(e, AddressMask())
  }

  function FlagsOf(e: Word): Flags {
    FlagsIn(And(e, Not(AddressMask())))
  }

  lemma FlagsRead(w: Word, f: Flags)
    requires forall i | 0 <= i < WIDTH && !(FRAME_LOW <= i < FRAME_HIGH) :: w[i] == FlagWord(f)[i]
    ensures FlagsIn(w) == f
  {
  }

  /** Reading back gives the masked address and the flags, writable implying no-execute. */
  lemma EntryRoundTrip(address: Word, low: nat, f: Flags)
    requires FRAME_LOW <= low <= FRAME_HIGH
    ensures AddressOf(Entry(address, low, f)) == And(address, Mask(low, FRAME_HIGH))
    ensures FlagsOf(Entry(address, low, f)) == if f.writable then f.(noExecute := true) else f
  {
    var g := if f.writable then f.(noExecute := true) else f;
    FieldsApart(And(address, Mask(low, FRAME_HIGH)), FlagWord(g));
    FlagsRead(And(Entry(address, low, f), Not(AddressMask())), g);
  }

  lemma FieldsApart(address: Word, flags: Word)
    requires forall i | 0 <= i < WIDTH :: if FRAME_LOW <= i < FRAME_HIGH then !flags[i] else !address[i]
    ensures And(Or(address, flags), AddressMask()) == address
    ensures forall i | 0 <= i < WIDTH && !(FRAME_LOW <= i < FRAME_HIGH) ::
      And(Or(address, flags), Not(AddressMask()))[i] == flags[i]
  {
  }

  // ---------------------------------------------------------------------
  // Words as numbers
  // ---------------------------------------------------------------------

  function Number(w: seq<bool>): nat {
    if w == [] then 0 else (if w[0] then 1 else 0) + 2 * Number(w[1..])
  }

  /** The low `k` bits of a number. */
  function Low(n: nat, k: nat): (w: seq<bool>)
    ensures |w| == k
  {
    if k == 0 then [] else [n % 2 == 1] + Low(n / 2, k - 1)
  }

  function Shift(n: nat, k: nat): nat {
    if k == 0 then n else Shift(n / 2, k - 1)
  }

  lemma {:induction false} NumberOfLow(n: nat, k: nat)
    ensures Number(Low(n, k)) < Pow2(k) && n == Number(Low(n, k)) + Pow2(k) * Shift(n, k)
    decreases k
  {
    if k > 0 {
      NumberOfLow(n / 2, k - 1);
      assert Low(n, k)[1..] == Low(n / 2, k - 1);
      Doubled(n, Number(Low(n / 2, k - 1)), Pow2(k - 1), Shift(n / 2, k - 1));
    }
  }

  lemma Doubled(n: nat, v: nat, p: nat, s: nat)
    requires v < p && n / 2 == v + p * s
    ensures n % 2 + 2 * v < 2 * p && n == n % 2 + 2 * v + (2 * p) * s
  {
    assert n == 2 * (n / 2) + n % 2;
  }

  lemma {:induction false} LowSlices(n: nat, k: nat, j: nat, m: nat)
    requires j + m <= k
    ensures Low(n, k)[j..j + m] == Low(Shift(n, j), m)
    decreases k
  {
    if j > 0 {
      LowSlices(n / 2, k - 1, j - 1, m);
      assert Low(n, k)[j..j + m] == Low(n / 2, k - 1)[j - 1..j - 1 + m];
    } else if m > 0 {
      LowSlices(n / 2, k - 1, 0, m - 1);
      assert Low(n, k)[0..m] == [n % 2 == 1] + Low(n / 2, k - 1)[0..m - 1];
      assert Shift(n, 0) == n;
    }
  }

  lemma {:induction false} LeadingZeros(w: seq<bool>, z: nat)
    requires z <= |w| && forall i | 0 <= i < z :: !w[i]
    ensures Number(w) == Pow2(z) * Number(w[z..])
    decreases z
  {
    if z > 0 {
      LeadingZeros(w[1..], z - 1);
      assert w[1..][z - 1..] == w[z..];
    } else {
      assert w[0..] == w;
    }
  }

  lemma {:induction false} TrailingZeros(w: seq<bool>, m: nat)
    requires m <= |w| && forall i | m <= i < |w| :: !w[i]
    ensures Number(w) == Number(w[..m])
    decreases |w|
  {
    if m == 0 {
      if w != [] {
        TrailingZeros(w[1..], 0);
      }
    } else {
      TrailingZeros(w[1..], m - 1);
      assert w[1..][..m - 1] == w[..m][1..];
    }
  }

  lemma MaskedTail(w: Word, a: Word, low: nat, high: nat)
    requires low <= high <= WIDTH && a == And(w, Mask(low, high))
    ensures Number(a[low..]) == Number(w[low..high])
  {
    var m := high - low;
    TrailingZeros(a[low..], m);
    assert a[low..][..m] == w[low..high];
  }

  lemma MaskedDigits(w: Word, a: Word, low: nat, high: nat)
    requires low <= high <= WIDTH && a == And(w, Mask(low, high))
    ensures Number(a) == Pow2(low) * Number(w[low..high])
  {
    MaskedTail(w, a, low, high);
    LeadingZeros(a, low);
  }

  lemma FieldDigits(n: nat, low: nat, m: nat, p: nat, q: nat)
    requires p == Pow2(low) > 0 && q == Pow2(m) > 0
    ensures Number(Low(Shift(n, low), m)) == n / p % q
  {
    NumberOfLow(n, low);
    NumberOfLow(Shift(n, low), m);
    Quotient(n, p, Number(Low(n, low)), Shift(n, low));
    Quotient(Shift(n, low), q, Number(Low(Shift(n, low), m)), Shift(Shift(n, low), m));
  }

  /** A masked number is the field of its digits from `low` up to `high`, back in place. */
  lemma MaskedNumber(n: nat, low: nat, high: nat, p: nat, q: nat)
    requires low <= high <= WIDTH && p == Pow2(low) > 0 && q == Pow2(high - low) > 0
    ensures Number(And(Low(n, WIDTH), Mask(low, high))) == p * (n / p % q)
  {
    MaskedDigits(Low(n, WIDTH), And(Low(n, WIDTH), Mask(low, high)), low, high);
    LowSlices(n, WIDTH, low, high - low);
    FieldDigits(n, low, high - low, p, q);
  }

  lemma Quotient(n: nat, p: nat, rest: nat, q: nat)
    requires rest < p && n == rest + p * q
    ensures n / p == q && n % p == rest
  {
    SameQuotient(p, q, rest, n / p, n % p);
  }

  lemma SameQuotient(p: nat, q: nat, r: nat, d: int, e: int)
    requires r < p && 0 <= e < p && p * q + r == p * d + e
    ensures q == d
  {
    assert p * (d - q) == r - e;
    if d > q {
      AtLeast(p, d - q);
    } else if q > d {
      assert p * (q - d) == e - r;
      AtLeast(p, q - d);
    }
  }

  lemma AtLeast(p: nat, k: nat)
    requires k >= 1
    ensures p * k >= p
  {
  }

  lemma Powers()
    ensures Pow2(12) == 0x1000 && Pow2(21) == 0x20_0000
    ensures Pow2(31) == 0x8000_0000 && Pow2(36) == 0x10_0000_0000 && Pow2(40) == 0x100_0000_0000
  {
  }

  /** The leaves of the table model hold the frame and flags that the entries' bits hold. */
  lemma LeafIsEntry(pa: nat, f: Flags)
    ensures var e := Entry(Low(pa, WIDTH), FRAME_LOW, f);
      Number(AddressOf(e)) == SmallLeaf(pa, f).frame * PAGE_SIZE && FlagsOf(e) == SmallLeaf(pa, f).flags
  {
    EntryRoundTrip(Low(pa, WIDTH), FRAME_LOW, f);
    Powers();
    MaskedNumber(pa, FRAME_LOW, FRAME_HIGH, PAGE_SIZE, 0x100_0000_0000);
  }

  lemma LargeLeafIsEntry(pa: nat, f: Flags)
    ensures var e := Entry(Low(pa, WIDTH), LARGE_LOW, f);
      Number(AddressOf(e)) == LargeLeaf(pa, f).frame * PAGE_SIZE && FlagsOf(e) == LargeLeaf(pa, f).flags
  {
    EntryRoundTrip(Low(pa, WIDTH), LARGE_LOW, f);
    Powers();
    MaskedNumber(pa, LARGE_LOW, FRAME_HIGH, SIZE_2MIB, 0x8000_0000);
  }

  // ---------------------------------------------------------------------
  // Page descriptors of aarch64
  // ---------------------------------------------------------------------

  const ARM_HIGH: nat := 48

  function Bit(k: nat): Word {
    seq(WIDTH, i => i == k)
  }

  const VALID: Word := Bit(0)
  const PAGE: Word := Bit(1)
  const ATTR_DEVICE: Word := Bit(2)
  const ATTR_NORMAL: Word := Bit(3)
  const AP_RW_EL1: Word := Mask(6, 6)
  const AP_RO_EL1: Word := Bit(7)
  const AP_RW_EL0: Word := Bit(6)
  const AP_RO_EL0: Word := Mask(6, 8)
  const SH_NONE: Word := Mask(8, 8)
  const SH_INNER: Word := Mask(8, 10)
  const AF: Word := Bit(10)
  const PXN: Word := Bit(53)
  const UXN: Word := Bit(54)

  function DescBase(pa: Word): Word {
    Or(Or(Or(VALID, PAGE), AF), And(pa, Mask(FRAME_LOW, ARM_HIGH)))
  }

  /** The word a kernel leaf is assembled to. */
  function LeafWord(pa: Word, writable: bool, executable: bool, device: bool): Word {
    var d1 := if device then Or(DescBase(pa), Or(Or(Or(ATTR_DEVICE, SH_NONE), UXN), PXN))
              else Or(DescBase(pa), Or(ATTR_NORMAL, SH_INNER));
    var d2 := Or(d1, if writable then AP_RW_EL1 else AP_RO_EL1);
    if writable || !executable then Or(d2, Or(UXN, PXN)) else d2
  }

  /** The word a user leaf is assembled to. */
  function LeafWordUser(pa: Word, writable: bool): Word {
    var d := Or(Or(DescBase(pa), ATTR_NORMAL), SH_INNER);
    if writable then Or(d, Or(Or(AP_RW_EL0, UXN), PXN)) else Or(d, Or(AP_RO_EL0, PXN))
  }

  /** How the hardware reads a page descriptor: valid page, accessed, output address and attributes. */
  predicate Reads(w: Word, d: Desc) {
    Attributes(w, d) && Number(And(w, Mask(FRAME_LOW, ARM_HIGH))) == d.frame * PAGE_SIZE
  }

  predicate Attributes(w: Word, d: Desc) {
    && w[0] && w[1] && w[10]
    && w[6] == d.el0 && w[7] == d.readOnly && w[54] == d.uxn && w[53] == d.pxn
    && w[2] == d.device && w[3] == !d.device && !w[4] && w[8] == !d.device && w[9] == !d.device
  }

  /** The address bits of a word are those of `pa`. */
  predicate Carries(w: Word, pa: Word) {
    forall i | FRAME_LOW <= i < ARM_HIGH :: w[i] == pa[i]
  }

  lemma ArmFrame(w: Word, pa: nat)
    requires Carries(w, Low(pa, WIDTH))
    ensures Number(And(w, Mask(FRAME_LOW, ARM_HIGH))) == pa / PAGE_SIZE % FRAME_LIMIT * PAGE_SIZE
  {
    assert And(w, Mask(FRAME_LOW, ARM_HIGH)) == And(Low(pa, WIDTH), Mask(FRAME_LOW, ARM_HIGH));
    Powers();
    MaskedNumber(pa, FRAME_LOW, ARM_HIGH, PAGE_SIZE, FRAME_LIMIT);
  }

  /** One bit of a kernel leaf. */
  lemma LeafWordAt(pa: Word, writable: bool, executable: bool, device: bool, i: nat)
    requires i < WIDTH
    ensures LeafWord(pa, writable, executable, device)[i] ==
      (i in {0, 1, 10} || (FRAME_LOW <= i < ARM_HIGH && pa[i]) || (device && i == 2) || (!device && i in {3, 8, 9})
       || (!writable && i == 7) || ((device || writable || !executable) && i in {53, 54}))
  {
  }

  /** One bit of a user leaf. */
  lemma LeafWordUserAt(pa: Word, writable: bool, i: nat)
    requires i < WIDTH
    ensures LeafWordUser(pa, writable)[i] ==
      (i in {0, 1, 10} || (FRAME_LOW <= i < ARM_HIGH && pa[i]) || i in {3, 6, 8, 9}
       || (!writable && i == 7) || i == 53 || (writable && i == 54))
  {
  }

  lemma LeafWordBits(pa: Word, writable: bool, executable: bool, device: bool)
    requires !(writable && executable)
    ensures var never := device || writable || !executable;
      Attributes(LeafWord(pa, writable, executable, device), Desc(0, false, !writable, never, never, device))
  {
    LeafWordAt(pa, writable, executable, device, 0);
    LeafWordAt(pa, writable, executable, device, 1);
    LeafWordAt(pa, writable, executable, device, 2);
    LeafWordAt(pa, writable, executable, device, 3);
    LeafWordAt(pa, writable, executable, device, 4);
    LeafWordAt(pa, writable, executable, device, 6);
    LeafWordAt(pa, writable, executable, device, 7);
    LeafWordAt(pa, writable, executable, device, 8);
    LeafWordAt(pa, writable, executable, device, 9);
    LeafWordAt(pa, writable, executable, device, 10);
    LeafWordAt(pa, writable, executable, device, 53);
    LeafWordAt(pa, writable, executable, device, 54);
  }

  lemma LeafWordCarries(pa: Word, writable: bool, executable: bool, device: bool)
    ensures Carries(LeafWord(pa, writable, executable, device), pa)
  {
    forall i | FRAME_LOW <= i < ARM_HIGH ensures LeafWord(pa, writable, executable, device)[i] == pa[i] {
      LeafWordAt(pa, writable, executable, device, i);
    }
  }

  /** The kernel descriptors of the model are what their assembled words say. */
  lemma LeafDescIsWord(pa: nat, writable: bool, executable: bool, device: bool)
    requires LeafDesc(pa, writable, executable, device).Fine?
    ensures Reads(LeafWord(Low(pa, WIDTH), writable, executable, device), LeafDesc(pa, writable, executable, device).value)
  {
    LeafWordBits(Low(pa, WIDTH), writable, executable, device);
    LeafWordCarries(Low(pa, WIDTH), writable, executable, device);
    ArmFrame(LeafWord(Low(pa, WIDTH), writable, executable, device), pa);
  }

  lemma LeafDescUserIsWord(pa: nat, writable: bool)
    requires LeafDescUser(pa, writable).Fine?
    ensures Reads(LeafWordUser(Low(pa, WIDTH), writable), LeafDescUser(pa, writable).value)
  {
    var w := LeafWordUser(Low(pa, WIDTH), writable);
    forall i | 0 <= i < WIDTH { LeafWordUserAt(Low(pa, WIDTH), writable, i); }
    ArmFrame(w, pa);
  }
}
