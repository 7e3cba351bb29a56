/** The VMSAv8-64 long-descriptor format with a 4 KB granule and 48-bit virtual addresses, as the
    memory manager writes it and as the translation hardware reads it. */
module Vmsa {
  import opened Bits

  const PAGE_SIZE := 0x1000
  const PTE_TABLE := 0x3
  const PTE_PAGE := 0x3
  const PTE_ACCESS := 0x400
  const PTE_USER_RW := 0x40
  const PTE_PRIV_RW := 0
  const FRAMES := 0x10_0000  // 32-bit physical addresses: TCR.PS is left at zero

  datatype Option<+T> = None | Some(value: T)

  // ---------- virtual addresses ----------

  /** The entry of a level's table that `va` selects: `(va >> (39 - level * 9)) & 0x1FF`. */
  function Index(va: nat, level: nat): (i: nat)
    requires level < 4
    ensures i < 512
  {
    SplitAt(Shr(va, 39 - 9 * level), 9);
    ShiftPage(1);
    Low(Shr(va, 39 - 9 * level), 9)
  }

  /** A node of the radix tree: the table (levels 0 to 3) or the page (level 4) that the leading
      9 * level bits of a 48-bit virtual address select. */
  datatype Node = Node(level: nat, prefix: nat) {
    function Child(i: nat): Node {
      Node(level + 1, 512 * prefix + i)
    }

    function Parent(): Node
      requires level > 0
    {
      Node(level - 1, prefix / 512)
    }
  }

  const ROOT := Node(0, 0)

  function Path(va: nat, level: nat): (k: Node)
    requires level <= 4
    ensures k.level == level
  {
    Node(level, Shr(Low(va, 48), 48 - 9 * level))
  }

  /** The virtual page number: bits 12 to 47. */
  function Vpn(va: nat): nat {
    Low(Shr(va, 12), 36)
  }

  /** The level 3 table that holds a page's descriptor. */
  function LeafTable(vpn: nat): Node {
    Node(3, vpn / 512)
  }

  lemma PathStep(va: nat, level: nat)
    requires level < 4
    ensures Path(va, level + 1) == Path(va, level).Child(Index(va, level))
    ensures Path(va, level + 1).Parent() == Path(va, level)
  {
    hide Shr, Low, Shl;
    var k := 39 - 9 * level;
    var y := Shr(Low(va, 48), k);
    SplitAt(y, 9);
    ShiftPage(Shr(y, 9));
    ShiftPage(1);
    ShrShr(Low(va, 48), k, 9);
    ShrLow(va, k, 48 - k);
    LowLow(Shr(va, k), 9, 39 - k);
  }

  lemma PathEnds(va: nat)
    ensures Path(va, 0) == ROOT
    ensures Path(va, 4) == Node(4, Vpn(va))
    ensures Path(va, 3) == LeafTable(Vpn(va)) && Index(va, 3) == Vpn(va) % 512
  {
    SplitAt(Low(va, 48), 48);
    LowLow(va, 48, 0);
    ShrLow(va, 48, 0);
    ShrLow(va, 12, 36);
    PathStep(va, 3);
  }

  /** The page number of a physical page address used as a virtual address. */
  lemma VpnOfFrame(f: nat)
    requires f < FRAMES
    ensures Vpn(0x1000 * f) == f
    ensures Shr(0x1000 * f, 12) == f
  {
    ShiftPage(f);
    ShlBits(f, 12, 0);
    LowSmall(f, 36);
  }

  lemma LowSmall(f: nat, k: nat)
    requires f < FRAMES && k >= 20
    ensures Low(f, k) == f
  {
    SplitAt(f, 20);
    Shl20();
    ShrShr(f, 20, k - 20);
    SplitAt(0, k - 20);
    SplitAt(f, k);
    ShlZero(k);
  }

  lemma Shl20()
    ensures Shl(1, 20) == FRAMES
  {
    ShiftPage(1);
    ShlShl(1, 12, 8);
  }

  // ---------- descriptors as written ----------

  /** A table descriptor: `*pte = pa; *pte |= PTE_TABLE | tblattr`. */
  function TableWord(pa: nat, attr: nat): nat {
    Or(pa, Or(PTE_TABLE, attr))
  }

  /** A page descriptor: `*pte = paddr & ~0xFFF; *pte |= PTE_PAGE | PTE_ACCESS | pgattr`. */
  function PageWord(pa: nat, attr: nat): nat {
    Or(0x1000 * Shr(pa, 12), Or(Or(PTE_PAGE, PTE_ACCESS), attr))
  }

  // ---------- descriptors as read by the memory manager ----------

  predicate Valid(w: nat) {
    Bit(w, 0) == 1
  }

  /** `*pte & 0x000FFFFFF000`: bits 12 to 35. */
  function Address(w: nat): nat {
    0x1000 * Low(Shr(w, 12), 24)
  }

  // ---------- descriptors as read by the hardware ----------

  /** The output address is bits 12 to 47, in page frames. */
  function Frame(w: nat): nat {
    Low(Shr(w, 12), 36)
  }

  predicate HwTable(w: nat) {
    Bit(w, 0) == 1 && Bit(w, 1) == 1 && Frame(w) < FRAMES
  }

  predicate HwReadable(w: nat) {
    Bit(w, 0) == 1 && Bit(w, 1) == 1 && Bit(w, 10) == 1 && Frame(w) < FRAMES
  }

  predicate HwWritable(w: nat) {
    HwReadable(w) && Bit(w, 7) == 0
  }

  /** AP[1] opens a page to EL0. */
  predicate HwUser(w: nat) {
    Bit(w, 6) == 1
  }

  /** Attribute arguments hold low attribute bits only, as at every call in the sources. */
  predicate LowAttr(attr: nat) {
    Shr(attr, 12) == 0
  }

  lemma ConstantBits()
    ensures Or(PTE_PAGE, PTE_ACCESS) == 0x403
    ensures Bit(3, 0) == 1 && Bit(3, 1) == 1 && Shr(3, 12) == 0
    ensures Bit(0x403, 0) == 1 && Bit(0x403, 1) == 1 && Bit(0x403, 10) == 1 && Bit(0x403, 7) == 0
    ensures Shr(0x403, 12) == 0
    ensures LowAttr(PTE_USER_RW) && Bit(PTE_USER_RW, 7) == 0 && Bit(PTE_USER_RW, 6) == 1
    ensures LowAttr(PTE_PRIV_RW) && Bit(PTE_PRIV_RW, 7) == 0 && Bit(PTE_PRIV_RW, 6) == 0
    ensures Bit(0x403, 6) == 0
    ensures LowAttr(0)
  {
  }

  /** The fields of an aligned address with low bits or-ed in. */
  lemma OrFields(q: nat, low: nat)
    requires Shr(low, 12) == 0
    ensures var w := Or(0x1000 * q, low);
            w == 0x1000 * q + low && Shr(w, 12) == q && forall k :: 0 <= k < 12 ==> Bit(w, k) == Bit(low, k)
  {
    ShiftPage(q);
    OrAligned(q, low, 12);
    OrShr(0x1000 * q, low, 12);
    ShlBits(q, 12, 0);
    forall k | 0 <= k < 12
      ensures Bit(Or(0x1000 * q, low), k) == Bit(low, k)
    {
      OrShr(0x1000 * q, low, k);
      ShlBits(q, 12, k);
    }
  }

  lemma OrZero()
    ensures Or(0, 0) == 0
  {
  }

  /** What is written as a table descriptor is read back as the same table, by software and hardware. */
  lemma TableWordReads(f: nat, attr: nat)
    requires f < FRAMES && LowAttr(attr)
    ensures var w := TableWord(0x1000 * f, attr);
            Valid(w) && HwTable(w) && Frame(w) == f && Address(w) == 0x1000 * f && Shr(w, 12) == f
  {
    ConstantBits();
    OrShr(3, attr, 0);
    OrShr(3, attr, 1);
    OrShr(3, attr, 12);
    OrFields(f, Or(3, attr));
    LowSmall(f, 24);
    LowSmall(f, 36);
  }

  /** What is written as a page descriptor is read back as the same page; the access flag is set, the page
      is writable exactly when attribute bit AP[2] is clear, and open to EL0 exactly when AP[1] is set. Every
      attribute bit arrives in the descriptor. */
  lemma PageWordReads(pa: nat, attr: nat)
    requires LowAttr(attr)
    ensures var w := PageWord(pa, attr);
            Valid(w) && Frame(w) == Vpn(pa) && Address(w) == 0x1000 * Low(Shr(pa, 12), 24)
    ensures HwReadable(PageWord(pa, attr)) <==> Vpn(pa) < FRAMES
    ensures HwWritable(PageWord(pa, attr)) <==> Vpn(pa) < FRAMES && Bit(attr, 7) == 0
    ensures HwUser(PageWord(pa, attr)) <==> Bit(attr, 6) == 1
    ensures forall k | 0 <= k < 12 :: Bit(attr, k) == 1 ==> Bit(PageWord(pa, attr), k) == 1
  {
    hide Shr, Low, Or, Shl, Bit;
    ConstantBits();
    OrShr(0x403, attr, 6);
    forall k | 0 <= k < 12
      ensures Bit(attr, k) == 1 ==> Bit(Or(0x403, attr), k) == 1
    {
      OrShr(0x403, attr, k);
    }
    OrZero();
    OrShr(0x403, attr, 0);
    OrShr(0x403, attr, 1);
    OrShr(0x403, attr, 7);
    OrShr(0x403, attr, 10);
    OrShr(0x403, attr, 12);
    OrFields(Shr(pa, 12), Or(0x403, attr));
  }

  /** `pa | off` for a page-aligned table address and an entry offset. */
  lemma SlotAddress(f: nat, i: nat)
    requires i < 512
    ensures Or(0x1000 * f, 8 * i) == 0x1000 * f + 8 * i
  {
    SplitAt(8 * i, 12);
    ShiftPage(1);
    ShiftPage(f);
    OrAligned(f, 8 * i, 12);
  }
}
