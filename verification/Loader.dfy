/** The loader for the EL0 image: map the ELF file, copy its .text and .data sections page by page
    through translated addresses, unmap the file. Field offsets are those of ELF-64 (System V gABI,
    chapter 4). */
module Loader {
  import opened Bits
  import opened Vmsa
  import opened TableTree
  import opened Bytes
  import opened AddressSpaces
  import opened Heap
  import opened PageRanges

  // ---------- the image ----------

  /** A little-endian field of `n` bytes. */
  function Le(img: seq<nat>, off: nat, n: nat): nat
    decreases n
  {
    if n == 0 then 0 else (if off < |img| then img[off] else 0) + 0x100 * Le(img, off + 1, n - 1)
  }

  function Machine(img: seq<nat>): nat { Le(img, 0x12, 2) }
  function EntryPoint(img: seq<nat>): nat { Le(img, 0x18, 8) }
  function Shoff(img: seq<nat>): nat { Le(img, 0x28, 8) }
  function Shentsize(img: seq<nat>): nat { Le(img, 0x3A, 2) }
  function Shnum(img: seq<nat>): nat { Le(img, 0x3C, 2) }
  function Shstrndx(img: seq<nat>): nat { Le(img, 0x3E, 2) }

  const MAGIC := 0x464C_457F
  const EM_ARM := 40
  const EM_AARCH64 := 183

  predicate Accepted(img: seq<nat>) {
    Le(img, 0, 4) == MAGIC && (Machine(img) == EM_ARM || Machine(img) == EM_AARCH64)
  }

  function ElfLen(img: seq<nat>): nat {
    Shoff(img) + Shentsize(img) * Shnum(img)
  }

  /** Pages mapped for the image: the header's page in any case. */
  function ImagePages(img: seq<nat>): nat {
    if Pages(ElfLen(img)) == 0 then 1 else Pages(ElfLen(img))
  }

  /** The section header at index `i`; the array is indexed in steps of sizeof(Elf64_Shdr). */
  function Shdr(img: seq<nat>, i: nat): nat { Shoff(img) + 64 * i }

  const TEXT: seq<nat> := [0x2E, 0x74, 0x65, 0x78, 0x74, 0]
  const DATA: seq<nat> := [0x2E, 0x64, 0x61, 0x74, 0x61, 0]

  predicate NameIs(img: seq<nat>, at: nat, name: seq<nat>) {
    at + |name| <= |img| && img[at..at + |name|] == name
  }

  /** What the loader uses of a section header. */
  datatype Section = Section(name: nat, addr: nat, offset: nat, size: nat) {
    function First(): nat { addr / 0x1000 }
    function Count(): nat { Pages(size) }
    function End(): nat { First() + Count() }
  }

  function SectionAt(img: seq<nat>, i: nat): Section {
    Section(Le(img, Shdr(img, i), 4), Le(img, Shdr(img, i) + 0x10, 8),
            Le(img, Shdr(img, i) + 0x18, 8), Le(img, Shdr(img, i) + 0x20, 8))
  }

  function Strings(img: seq<nat>): nat {
    SectionAt(img, Shstrndx(img)).offset
  }

  /** The NUL-terminated string at `at`. */
  predicate Spells(img: seq<nat>, at: nat, name: string) {
    && at + |name| < |img| && img[at + |name|] == 0
    && forall k | 0 <= k < |name| :: img[at + k] == name[k] as int
  }

  /** The name of section `i` is one of the two. */
  predicate Spelled(img: seq<nat>, i: nat) {
    var at := Strings(img) + SectionAt(img, i).name;
    Spells(img, at, ".text") || Spells(img, at, ".data")
  }

  lemma NameIff(img: seq<nat>, at: nat)
    ensures Spells(img, at, ".text") <==> NameIs(img, at, TEXT)
    ensures Spells(img, at, ".data") <==> NameIs(img, at, DATA)
  {
    SpellsIs(img, at, ".text", TEXT);
    SpellsIs(img, at, ".data", DATA);
  }

  lemma SpellsIs(img: seq<nat>, at: nat, name: string, bytes: seq<nat>)
    requires |bytes| == |name| + 1 && bytes[|name|] == 0 && forall k | 0 <= k < |name| :: bytes[k] == name[k] as int
    ensures Spells(img, at, name) <==> NameIs(img, at, bytes)
  {
    if Spells(img, at, name) {
      assert img[at..at + |bytes|] == bytes;
    }
    if NameIs(img, at, bytes) {
      forall k | 0 <= k < |bytes|
        ensures img[at + k] == bytes[k]
      {
        assert img[at..at + |bytes|][k] == bytes[k];
      }
    }
  }

  predicate Loadable(img: seq<nat>, i: nat) {
    var at := Strings(img) + SectionAt(img, i).name;
    NameIs(img, at, TEXT) || NameIs(img, at, DATA)
  }

  /** A name ends, or differs from every name looked for, inside the image. */
  predicate NameEnds(img: seq<nat>, at: nat) {
    at + 6 <= |img| || exists i | at <= i < at + 6 && i < |img| :: img[i] == 0
  }

  /** The headers and names lie inside the pages that the loader maps, and sections start on pages. Where
      the sections' contents lie is left open. */
  ghost predicate WellFormed(img: seq<nat>) {
    && |img| == 0x1000 * ImagePages(img)
    && (forall k | 0 <= k < |img| :: img[k] < 0x100)
    && (Accepted(img) ==>
          && Shdr(img, Shstrndx(img)) + 64 <= |img|
          && forall i | 0 <= i < Shnum(img) :: SectionFits(img, i, SectionAt(img, i)))
  }

  ghost predicate SectionFits(img: seq<nat>, i: nat, c: Section) {
    && Shdr(img, i) + 64 <= |img|
    && NameEnds(img, Strings(img) + c.name)
    && (Loadable(img, i) ==> c.addr == At(c.First()))
  }

  // ---------- the image in memory ----------

  ghost predicate ImageAt(mem: seq<nat>, e: nat, img: seq<nat>) {
    forall k | 0 <= k < |img| :: FrameByte(mem, e + k / 0x1000, k % 0x1000) == img[k]
  }

  /** The first `p` pages of the image are mapped at their own addresses. */
  ghost predicate MapsImage(s: Space, e: nat, p: nat) {
    forall v | e <= v < e + p :: v in s.flat && s.flat[v] == PageWord(0x1000 * v, PTE_USER_RW)
  }

  /** A byte of the image, read at its mapped address. */
  lemma ImageReachable(a: AddressSpace, e: nat, p: nat, k: nat)
    requires a.Valid({})
    requires MapsImage(a.space, e, p) && e + p <= FRAMES
    requires k < 0x1000 * p
    ensures Translate(a.ram.words, a.root, 0x1000 * e + k, false) == Some(0x1000 * (e + k / 0x1000) + k % 0x1000)
  {
    hide Shr, Low, Or, Shl, Bit, Vpn, Frame, HwReadable, HwWritable, Translate, PageWord, Inv;
    var v, o := e + k / 0x1000, k % 0x1000;
    assert 0x1000 * e + k == At(v) + o;
    VpnAtOffset(v, o);
    assert v in a.space.flat && a.space.flat[v] == PageWord(0x1000 * v, PTE_USER_RW);
    UserPage(v);
    Writable(a.space.flat[v]);
    InvTree(a.ram.words, a.space, a.root, a.limit, {});
    TranslateIsFlat(a.ram.words, a.space, a.root, 0x1000 * e + k, false);
  }

  /** The image lies in memory outside the pool and its first `p` pages are mapped. */
  ghost predicate Ready(a: AddressSpace, elfbase: nat, img: seq<nat>, p: nat)
    reads a, a.ram
  {
    var e := elfbase / 0x1000;
    && a.Valid({}) && elfbase == At(e)
    && MapsImage(a.space, e, p) && ImageAt(a.ram.words, e, img)
    && e + p <= FRAMES && 512 * (e + p) <= |a.ram.words|
  }

  method ReadLe(a: AddressSpace, elfbase: nat, off: nat, n: nat, ghost img: seq<nat>, ghost p: nat) returns (x: nat)
    requires Ready(a, elfbase, img, p)
    requires off + n <= |img| && off + n <= 0x1000 * p
    ensures x == Le(img, off, n)
  {
    hide Shr, Low, Or, Shl, Bit, Vpn, Frame, HwReadable, HwWritable, Translate, PageWord, Inv, FrameByte;
    x := 0;
    var i := n;
    ghost var e := elfbase / 0x1000;
    while i > 0
      invariant 0 <= i <= n && x == Le(img, off + i, n - i)
    {
      i := i - 1;
      ghost var k := off + i;
      ImageReachable(a, e, p, k);
      var b := a.LoadByte(elfbase + off + i, e + k / 0x1000, k % 0x1000);
      x := b + 0x100 * x;
    }
  }

  // ---------- copying ----------

  /** Page `v` holds the image bytes from `o` on, as far as the image goes, and data accesses reach them, from EL0
      too. */
  ghost predicate Copied(mem: seq<nat>, s: Space, v: nat, img: seq<nat>, o: nat) {
    && v in s.flat && HwWritable(s.flat[v]) && HwUser(s.flat[v]) && Frame(s.flat[v]) in s.data
    && (forall b | 0 <= b < 0x1000 && o + b < |img| :: FrameByte(mem, Frame(s.flat[v]), b) == img[o + b])
  }

  lemma ImageKept(mem: seq<nat>, mem': seq<nat>, e: nat, img: seq<nat>, s: Space, root: nat, limit: nat, p: nat)
    requires ImageAt(mem, e, img) && OldFramesKept(mem, mem', s, root, limit)
    requires |img| <= 0x1000 * p && (e + p <= root || limit <= e)
    ensures ImageAt(mem', e, img)
  {
    hide FrameByte;
    forall k | 0 <= k < |img|
      ensures FrameByte(mem', e + k / 0x1000, k % 0x1000) == img[k]
    {
      SameBytes(mem, mem', e + k / 0x1000, k % 0x1000);
    }
  }

  lemma CopiedKept(mem: seq<nat>, mem': seq<nat>, s: Space, s': Space, root: nat, limit: nat, v: nat, img: seq<nat>,
      o: nat)
    requires Copied(mem, s, v, img, o) && OldFramesKept(mem, mem', s, root, limit)
    requires s.data <= s'.data && v in s'.flat && s'.flat[v] == s.flat[v]
    ensures Copied(mem', s', v, img, o)
  {
    hide FrameByte;
    var f := Frame(s.flat[v]);
    forall b | 0 <= b < 0x1000 && o + b < |img|
      ensures FrameByte(mem', f, b) == img[o + b]
    {
      SameBytes(mem, mem', f, b);
    }
  }

  /** A data read of page `v` does not fault. */
  ghost predicate Readable(s: Space, v: nat) {
    v < PAGE_NUMBERS && v in s.flat && HwReadable(s.flat[v])
  }

  /** The whole page of bytes from image offset `o` on can be read. */
  ghost predicate SourceReadable(s: Space, e: nat, o: nat) {
    Readable(s, e + o / 0x1000) && Readable(s, e + (o + 0xFFF) / 0x1000)
  }

  lemma ByteReadable(a: AddressSpace, e: nat, k: nat)
    requires a.Valid({})
    ensures Translate(a.ram.words, a.root, 0x1000 * e + k, false).Some? <==> Readable(a.space, e + k / 0x1000)
  {
    hide Shr, Low, Or, Shl, Bit, Vpn, Frame, HwReadable, HwWritable, Translate, PageWord, Inv;
    var v, o := e + k / 0x1000, k % 0x1000;
    assert 0x1000 * e + k == At(v) + o;
    InvTree(a.ram.words, a.space, a.root, a.limit, {});
    TranslateIsFlat(a.ram.words, a.space, a.root, 0x1000 * e + k, false);
    if v < PAGE_NUMBERS {
      VpnAtOffset(v, o);
    } else {
      BeyondAddresses(v, o);
    }
  }

  /** Of the bytes of a page-sized source, each lies in the first or the last page touched. */
  lemma TwoPages(o: nat, i: nat)
    requires i < 0x1000
    ensures (o + i) / 0x1000 == o / 0x1000 || (o + i) / 0x1000 == (o + 0xFFF) / 0x1000
  {
  }

  /** The byte at image offset `k`, read through the tables. */
  method SourceByte(a: AddressSpace, elfbase: nat, k: nat, ghost img: seq<nat>, ghost p: nat) returns (b: Option<nat>)
    requires Ready(a, elfbase, img, p) && |img| <= 0x1000 * p
    ensures b.Some? <==> Readable(a.space, elfbase / 0x1000 + k / 0x1000)
    ensures b.Some? ==> b.value < 0x100 && (k < |img| ==> b.value == img[k])
  {
    hide Shr, Low, Or, Shl, Bit, Vpn, Frame, HwReadable, HwWritable, Translate, PageWord, Inv, FrameByte, At, Readable;
    ghost var e := elfbase / 0x1000;
    AtIs(e);
    ByteReadable(a, e, k);
    match Translate(a.ram.words, a.base / 0x1000, elfbase + k, false)
    case None => return None;
    case Some(pa) =>
      ByteSmall(a.ram.words, pa / 0x1000, pa % 0x1000);
      if k < |img| {
        ImageReachable(a, e, p, k);
        SplitPage(e + k / 0x1000, k % 0x1000);
      }
      return Some(FrameByte(a.ram.words, pa / 0x1000, pa % 0x1000));
  }

  /** memcpy of one page from the image to the page `v`, byte by byte, through the tables on both sides. It
      faults at the first byte of the source that cannot be read. */
  method CopyPage(a: AddressSpace, elfbase: nat, v: nat, o: nat, ghost img: seq<nat>, ghost p: nat) returns (ok: bool)
    requires Ready(a, elfbase, img, p) && |img| <= 0x1000 * p
    requires elfbase / 0x1000 + p <= a.root || a.limit <= elfbase / 0x1000
    requires v < PAGE_NUMBERS && v in a.space.flat && HwWritable(a.space.flat[v]) && HwUser(a.space.flat[v])
    requires Frame(a.space.flat[v]) in a.space.data && Frame(a.space.flat[v]) < a.limit
    modifies a.ram
    ensures ok <==> SourceReadable(a.space, elfbase / 0x1000, o)
    ensures Ready(a, elfbase, img, p)
    ensures ok ==> Copied(a.ram.words, a.space, v, img, o)
    ensures |a.ram.words| == |old(a.ram.words)| && forall g | g != Frame(a.space.flat[v]) ::
              SameFrame(old(a.ram.words), a.ram.words, g)
  {
    hide Shr, Low, Or, Shl, Bit, Vpn, Frame, HwReadable, HwWritable, Translate, PageWord, Inv, FrameByte, SameFrame, At,
         Readable;
    ghost var e, f, m0, s0 := elfbase / 0x1000, Frame(a.space.flat[v]), a.ram.words, a.space;
    InvTree(a.ram.words, a.space, a.root, a.limit, {});
    DataInPool(a.ram.words, a.space, a.root, a.limit, f);
    var i := 0;
    forall g ensures SameFrame(m0, a.ram.words, g) { SameFrameRefl(m0, g); }
    while i < 0x1000
      invariant 0 <= i <= 0x1000
      invariant Ready(a, elfbase, img, p) && a.space == s0 && |a.ram.words| == |m0|
      invariant forall g | g != f :: SameFrame(m0, a.ram.words, g)
      invariant forall b | 0 <= b < i && o + b < |img| :: FrameByte(a.ram.words, f, b) == img[o + b]
      invariant i > 0 ==> Readable(s0, e + o / 0x1000)
      invariant i == 0x1000 ==> Readable(s0, e + (o + 0xFFF) / 0x1000)
    {
      TwoPages(o, i);
      var b := SourceByte(a, elfbase, o + i, img, p);
      if b.None? {
        return false;
      }
      InvTree(a.ram.words, a.space, a.root, a.limit, {});
      PageReachable(a, v, i);
      ghost var m1 := a.ram.words;
      a.StoreByte(At(v) + i, b.value, f, i);
      ImageApart(m1, a.ram.words, e, img, p, f, i, b.value);
      FramesChain(m0, m1, a.ram.words, f);
      i := i + 1;
    }
    return true;
  }

  lemma SplitPage(f: nat, o: nat)
    requires o < 0x1000
    ensures (0x1000 * f + o) / 0x1000 == f && (0x1000 * f + o) % 0x1000 == o
  {
  }

  lemma SameFrameRefl(mem: seq<nat>, f: nat)
    ensures SameFrame(mem, mem, f)
  {
  }

  lemma FramesChain(m0: seq<nat>, m1: seq<nat>, m2: seq<nat>, f: nat)
    requires forall g | g != f :: SameFrame(m0, m1, g)
    requires forall g | g != f :: SameFrame(m1, m2, g)
    ensures forall g | g != f :: SameFrame(m0, m2, g)
  {
    forall g | g != f
      ensures SameFrame(m0, m2, g)
    {
      assert SameFrame(m0, m1, g) && SameFrame(m1, m2, g);
    }
  }

  lemma ImageApart(mem: seq<nat>, mem': seq<nat>, e: nat, img: seq<nat>, p: nat, f: nat, o: nat, b: nat)
    requires ImageAt(mem, e, img) && |img| <= 0x1000 * p
    requires !(e <= f < e + p) && WritesByte(mem, mem', f, o, b)
    ensures ImageAt(mem', e, img)
  {
    hide FrameByte, SameFrame;
    forall k | 0 <= k < |img|
      ensures FrameByte(mem', e + k / 0x1000, k % 0x1000) == img[k]
    {
      SameBytes(mem, mem', e + k / 0x1000, k % 0x1000);
    }
  }

  // ---------- what the loader does to the address space ----------

  ghost function ImageMapped(s: Space, e: nat, p: nat): Space {
    if p == 0 then s else Mapped(ImageMapped(s, e, p - 1), At(e + p - 1), At(e + p - 1), PTE_USER_RW)
  }

  ghost function SectionsLoaded(s: Space, img: seq<nat>, i: nat): Space {
    if i == 0 then s
    else
      var t, c := SectionsLoaded(s, img, i - 1), SectionAt(img, i - 1);
      if Loadable(img, i - 1) then Heaped(t, At(c.First()), c.Count()) else t
  }

  /** The image mapped and every section loaded. */
  ghost function AfterSections(s: Space, img: seq<nat>, e: nat): Space {
    SectionsLoaded(ImageMapped(s, e, ImagePages(img)), img, Shnum(img))
  }

  /** The same with the image unmapped again. */
  ghost function AfterLoad(s: Space, img: seq<nat>, e: nat): Space {
    RangeUnmapped(AfterSections(s, img, e), e, Pages(ElfLen(img)))
  }

  lemma {:induction false} ImageGrows(s: Space, e: nat, j: nat, p: nat)
    requires j <= p
    ensures s.next <= ImageMapped(s, e, j).next <= ImageMapped(s, e, p).next
  {
    hide PageWord, Vpn, Grown;
    if p > 0 {
      GrownCounts(ImageMapped(s, e, p - 1), At(e + p - 1), 3);
      ImageGrows(s, e, if j < p then j else p - 1, p - 1);
    }
  }

  lemma {:induction false} SectionsGrow(s: Space, img: seq<nat>, j: nat, i: nat)
    requires j <= i
    ensures s.next <= SectionsLoaded(s, img, j).next <= SectionsLoaded(s, img, i).next
  {
    hide Heaped, Loadable, SectionAt;
    if i > 0 {
      var c := SectionAt(img, i - 1);
      SectionsGrow(s, img, if j < i then j else i - 1, i - 1);
      HeapedGrows(SectionsLoaded(s, img, i - 1), At(c.First()), 0, c.Count());
      HeapedZero(SectionsLoaded(s, img, i - 1), At(c.First()));
    }
  }

  /** Maps page `j` of the image at its own address. */
  method MapImagePage(a: AddressSpace, elfbase: nat, j: nat, ghost img: seq<nat>)
    requires Ready(a, elfbase, img, j) && j < ImagePages(img) && |img| == 0x1000 * ImagePages(img)
    requires var e, p := elfbase / 0x1000, ImagePages(img);
             e + p <= FRAMES && 512 * (e + p) <= |a.ram.words| && Apart(e, e + p, a.root, a.limit)
    requires Mapped(a.space, At(elfbase / 0x1000 + j), At(elfbase / 0x1000 + j), PTE_USER_RW).next <= a.limit
    modifies a.ram, a`nextPa, a`space
    ensures Ready(a, elfbase, img, j + 1)
    ensures a.space == Mapped(old(a.space), At(elfbase / 0x1000 + j), At(elfbase / 0x1000 + j), PTE_USER_RW)
    ensures OldFramesKept(old(a.ram.words), a.ram.words, old(a.space), a.root, a.limit)
  {
    hide Shr, Low, Or, Shl, Bit, Vpn, Frame, HwReadable, HwWritable, Translate, PageWord, Inv, Mapped, Le, SameFrame,
         FrameByte, OnlyTables, OldFramesKept, ImageAt;
    ghost var e, s0, m0 := elfbase / 0x1000, a.space, a.ram.words;
    var va := elfbase + 0x1000 * j;
    assert va == At(e + j);
    InvTree(a.ram.words, a.space, a.root, a.limit, {});
    TablesInPool(a.ram.words, a.space, a.root, a.limit);
    VpnAt(e + j);
    MappedPage(a.space, a.root, a.limit, va, va, PTE_USER_RW);
    MappedIs(a.space, va, va, PTE_USER_RW);
    ConstantBits();
    a.MapPa(va, va, 0, PTE_USER_RW, {});
    TablesKeepFrames(m0, a.ram.words, s0, a.space, a.root, a.limit);
    ImageKept(m0, a.ram.words, e, img, s0, a.root, a.limit, ImagePages(img));
    OldFramesSize(m0, a.ram.words, s0, a.root, a.limit);
  }

  lemma MappedIs(s: Space, va: nat, pa: nat, attr: nat)
    ensures Mapped(s, va, pa, attr).next == s.next + Missing(s, va, 3)
  {
    hide PageWord, Vpn, Grown, Missing;
    GrownCounts(s, va, 3);
  }

  /** One round of the copy loop: a fresh frame under the page of `va`, filled from the image at `o`. */
  method LoadPage(a: AddressSpace, elfbase: nat, va: nat, o: nat, ghost img: seq<nat>, ghost p: nat)
      returns (ok: bool)
    requires Ready(a, elfbase, img, p) && |img| <= 0x1000 * p && p > 0
    requires var e, w := elfbase / 0x1000, va / 0x1000;
             && va == At(w) && w < PAGE_NUMBERS && !(a.root <= w < a.limit) && !(e <= w < e + p)
             && Apart(e, e + p, a.root, a.limit)
             && MappedFresh(a.space, va, PTE_USER_RW).next <= a.limit
    modifies a.ram, a`nextPa, a`space
    ensures ok <==> SourceReadable(a.space, elfbase / 0x1000, o)
    ensures Ready(a, elfbase, img, p)
    ensures a.space == MappedFresh(old(a.space), va, PTE_USER_RW)
    ensures ok ==> Copied(a.ram.words, a.space, va / 0x1000, img, o)
    ensures OldFramesKept(old(a.ram.words), a.ram.words, old(a.space), a.root, a.limit)
  {
    hide Shr, Low, Or, Shl, Bit, Vpn, Frame, HwReadable, HwWritable, Translate, PageWord, Inv, MappedFresh, SameFrame,
         FrameByte, OnlyTables, OldFramesKept, ImageAt, Copied;
    ghost var e, w, s0, m0, f := elfbase / 0x1000, va / 0x1000, a.space, a.ram.words, a.space.next;
    InvTree(m0, s0, a.root, a.limit, {});
    TablesInPool(m0, s0, a.root, a.limit);
    VpnAt(w);
    FreshPage(s0, a.root, a.limit, va);
    UserPage(f);
    ConstantBits();
    a.MapVa(va, 0, PTE_USER_RW);
    ghost var m1 := a.ram.words;
    TablesKeepFrames(m0, m1, s0, a.space, a.root, a.limit);
    OldFramesSize(m0, m1, s0, a.root, a.limit);
    ImageKept(m0, m1, e, img, s0, a.root, a.limit, p);
    ok := CopyPage(a, elfbase, va / 0x1000, o, img, p);
    DataBelow(m0, s0, a.root, a.limit);
    OneFrameKeeps(m1, a.ram.words, s0, a.root, a.limit, f);
    OldFramesTrans(m0, m1, a.ram.words, s0, s0, a.root, a.limit);
  }

  lemma PageOfAt(base: nat, v: nat, n: nat)
    requires base == At(v)
    ensures base + 0x1000 * n == At(v + n) && (base + 0x1000 * n) / 0x1000 == v + n
  {
  }

  lemma CopiedStay(mem: seq<nat>, mem': seq<nat>, s: Space, s': Space, root: nat, limit: nat, v: nat, n: nat,
      img: seq<nat>, o: nat)
    requires forall j | 0 <= j < n :: Copied(mem, s, v + j, img, o + 0x1000 * j)
    requires OldFramesKept(mem, mem', s, root, limit) && s.data <= s'.data
    requires forall w | w != v + n && !(root <= w < limit) :: (w in s'.flat <==> w in s.flat) &&
              (w in s.flat ==> s'.flat[w] == s.flat[w])
    requires Apart(v, v + n + 1, root, limit)
    ensures forall j | 0 <= j < n :: Copied(mem', s', v + j, img, o + 0x1000 * j)
  {
    hide Copied, OldFramesKept;
    forall j | 0 <= j < n
      ensures Copied(mem', s', v + j, img, o + 0x1000 * j)
    {
      CopiedMapped(mem, s, v + j, img, o + 0x1000 * j);
      CopiedKept(mem, mem', s, s', root, limit, v + j, img, o + 0x1000 * j);
    }
  }

  /** Each page of a section's source can be read when its turn comes: `n` pages from image offset `o` on, to
      the pages from `v` on. */
  ghost predicate SectionReads(s: Space, e: nat, v: nat, o: nat, n: nat) {
    forall j: nat | j < n :: SourceReadable(Heaped(s, At(v), j + 1), e, o + 0x1000 * j)
  }

  lemma ReadsStep(s: Space, e: nat, v: nat, o: nat, n: nat)
    ensures SectionReads(s, e, v, o, 0)
    ensures SectionReads(s, e, v, o, n + 1) <==>
              SectionReads(s, e, v, o, n) && SourceReadable(Heaped(s, At(v), n + 1), e, o + 0x1000 * n)
  {
    hide SourceReadable, Heaped, At;
  }

  lemma ReadsFewer(s: Space, e: nat, v: nat, o: nat, m: nat, n: nat)
    requires m <= n && SectionReads(s, e, v, o, n)
    ensures SectionReads(s, e, v, o, m)
  {
    hide SourceReadable, Heaped, At;
  }

  /** The inner loop for one section: a fresh frame for each page, filled from the image. It faults if and
      only if some page of the source cannot be read. */
  method CopySection(a: AddressSpace, elfbase: nat, baseVa: nat, o: nat, size: nat, ghost img: seq<nat>, ghost p: nat)
      returns (ok: bool)
    requires Ready(a, elfbase, img, p) && |img| <= 0x1000 * p && p > 0
    requires var e, v, n := elfbase / 0x1000, baseVa / 0x1000, Pages(size);
             && baseVa == At(v) && v + n <= PAGE_NUMBERS
             && Apart(e, e + p, a.root, a.limit) && Apart(v, v + n, a.root, a.limit) && Apart(v, v + n, e, e + p)
             && Heaped(a.space, At(v), n).next <= a.limit
    modifies a.ram, a`nextPa, a`space
    ensures ok <==> SectionReads(old(a.space), elfbase / 0x1000, baseVa / 0x1000, o, Pages(size))
    ensures Ready(a, elfbase, img, p)
    ensures ok ==> a.space == Heaped(old(a.space), baseVa, Pages(size))
    ensures ok ==>
              forall j | 0 <= j < Pages(size) :: Copied(a.ram.words, a.space, baseVa / 0x1000 + j, img, o + 0x1000 * j)
    ensures OldFramesKept(old(a.ram.words), a.ram.words, old(a.space), a.root, a.limit)
  {
    hide Shr, Low, Or, Shl, Bit, Vpn, Frame, HwReadable, HwWritable, Translate, PageWord, Inv, MappedFresh, SameFrame,
         FrameByte, OnlyTables, OldFramesKept, ImageAt, Copied, Heaped, Pages, MapsImage, At,
         SourceReadable, SectionReads;
    ghost var e, v, s0, m0, n := elfbase / 0x1000, baseVa / 0x1000, a.space, a.ram.words, 0;
    var off := 0;
    OldFramesRefl(m0, s0, a.root, a.limit);
    HeapedZero(s0, baseVa);
    PagesCover(size, 0);
    ReadsStep(s0, e, v, o, 0);
    while off < size
      invariant off == 0x1000 * n && n <= Pages(size)
      invariant Ready(a, elfbase, img, p) && a.space == Heaped(s0, baseVa, n)
      invariant forall j | 0 <= j < n :: Copied(a.ram.words, a.space, v + j, img, o + 0x1000 * j)
      invariant OldFramesKept(m0, a.ram.words, s0, a.root, a.limit) && s0.data <= a.space.data
      invariant SectionReads(s0, e, v, o, n)
    {
      ghost var s1, m1 := a.space, a.ram.words;
      PagesCover(size, n);
      HeapedStep(s0, baseVa, n);
      HeapedGrows(s0, baseVa, n + 1, Pages(size));
      PageOfAt(baseVa, v, n);
      InvTree(m1, s1, a.root, a.limit, {});
      FreshPage(s1, a.root, a.limit, baseVa + off);
      VpnAt(v + n);
      ok := LoadPage(a, elfbase, baseVa + off, o + off, img, p);
      OldFramesTrans(m0, m1, a.ram.words, s0, s1, a.root, a.limit);
      ReadsStep(s0, e, v, o, n);
      if !ok {
        if SectionReads(s0, e, v, o, Pages(size)) {
          ReadsFewer(s0, e, v, o, n + 1, Pages(size));
        }
        return;
      }
      CopiedStay(m1, a.ram.words, s1, a.space, a.root, a.limit, v, n, img, o);
      n, off := n + 1, off + 0x1000;
    }
    PagesCover(size, n);
    ok := true;
  }

  lemma CopiedMapped(mem: seq<nat>, s: Space, v: nat, img: seq<nat>, o: nat)
    requires Copied(mem, s, v, img, o)
    ensures v in s.flat
  {
  }

  /** A name that has agreed so far goes on inside the image. */
  lemma PrefixInside(img: seq<nat>, off: nat, name: seq<nat>, i: nat)
    requires NameEnds(img, off) && |name| == 6 && (forall j | 0 <= j < 5 :: name[j] != 0)
    requires i < 6 && off + i <= |img| && forall j | off <= j < off + i :: img[j] == name[j - off]
    ensures off + i < |img|
  {
  }

  /** strcmp against one of the two literals: compares until a difference or through the terminating zero. */
  method SameName(a: AddressSpace, elfbase: nat, off: nat, name: seq<nat>, ghost img: seq<nat>, ghost p: nat)
      returns (same: bool)
    requires Ready(a, elfbase, img, p) && |img| <= 0x1000 * p && NameEnds(img, off)
    requires |name| == 6 && name[5] == 0 && forall j | 0 <= j < 5 :: name[j] != 0
    ensures same <==> NameIs(img, off, name)
  {
    hide Shr, Low, Or, Shl, Bit, Vpn, Frame, HwReadable, HwWritable, Translate, PageWord, Inv, FrameByte;
    ghost var e := elfbase / 0x1000;
    var i := 0;
    while i < 6
      invariant 0 <= i <= 6 && off + i <= |img|
      invariant forall j | off <= j < off + i :: img[j] == name[j - off]
    {
      PrefixInside(img, off, name, i);
      ghost var k := off + i;
      ImageReachable(a, e, p, k);
      var b := a.LoadByte(elfbase + off + i, e + k / 0x1000, k % 0x1000);
      if b != name[i] {
        if off + 6 <= |img| {
          assert img[off..off + 6][i] != name[i];
        }
        return false;
      }
      i := i + 1;
    }
    return true;
  }

  // ---------- the loader ----------

  /** How a load ends: SMC_EXIT stops the machine; copying a section faults where its source cannot be
      read; the final read of `e_entry` faults when the header page is no longer mapped. */
  datatype Outcome = Halted | SectionFaults | EntryFaults | Loaded(entry: nat)

  /** The byte a data read at `va` returns. */
  function ReadVa(mem: seq<nat>, root: nat, va: nat): Option<nat> {
    match Translate(mem, root, va, false)
    case None => None
    case Some(pa) => Some(FrameByte(mem, pa / 0x1000, pa % 0x1000))
  }

  /** Sections load into pages apart from the pool, from the image and from each other. */
  ghost predicate SectionsApart(img: seq<nat>, e: nat, root: nat, limit: nat) {
    && (forall i | 0 <= i < Shnum(img) && Loadable(img, i) ::
          SectionClear(SectionAt(img, i), e, ImagePages(img), root, limit))
    && (forall i, j | 0 <= i < j < Shnum(img) && Loadable(img, i) && Loadable(img, j) ::
          SectionsMiss(SectionAt(img, i), SectionAt(img, j)))
  }

  predicate SectionClear(c: Section, e: nat, p: nat, root: nat, limit: nat) {
    && c.End() <= PAGE_NUMBERS
    && Apart(c.First(), c.End(), root, limit) && Apart(c.First(), c.End(), e, e + p)
  }

  predicate SectionsMiss(c: Section, d: Section) {
    Apart(c.First(), c.End(), d.First(), d.End())
  }

  /** The sources of the first `n` sections that are loaded can be read, each when its turn comes. */
  ghost predicate SectionsRead(s: Space, img: seq<nat>, e: nat, n: nat) {
    forall i: nat | i < n && Loadable(img, i) :: SectionSource(SectionsLoaded(s, img, i), e, SectionAt(img, i))
  }

  ghost predicate SectionSource(s: Space, e: nat, c: Section) {
    SectionReads(s, e, c.First(), c.offset, c.Count())
  }

  /** A loaded section is in place, page by page. */
  ghost predicate SectionDone(mem: seq<nat>, s: Space, img: seq<nat>, c: Section) {
    forall j | 0 <= j < c.Count() :: Copied(mem, s, c.First() + j, img, c.offset + 0x1000 * j)
  }

  lemma ImageStep(s: Space, e: nat, j: nat)
    ensures ImageMapped(s, e, 0) == s
    ensures ImageMapped(s, e, j + 1) == Mapped(ImageMapped(s, e, j), At(e + j), At(e + j), PTE_USER_RW)
  {
    hide Mapped, At;
  }

  /** Where the image may lie: whole pages of memory outside the pool. */
  ghost predicate ImagePlaced(a: AddressSpace, elfbase: nat, p: nat)
    reads a, a.ram
  {
    var e := elfbase / 0x1000;
    e + p <= FRAMES && 512 * (e + p) <= |a.ram.words| && Apart(e, e + p, a.root, a.limit)
  }

  /** The loop that maps the image's remaining pages. */
  method MapImage(a: AddressSpace, elfbase: nat, elfLen: nat, ghost img: seq<nat>, ghost s0: Space)
    requires WellFormed(img) && elfLen == ElfLen(img)
    requires Ready(a, elfbase, img, 1) && ImagePlaced(a, elfbase, ImagePages(img))
    requires a.space == ImageMapped(s0, elfbase / 0x1000, 1)
    requires ImageMapped(s0, elfbase / 0x1000, ImagePages(img)).next <= a.limit
    modifies a.ram, a`nextPa, a`space
    ensures Ready(a, elfbase, img, ImagePages(img)) && ImagePlaced(a, elfbase, ImagePages(img))
    ensures a.space == ImageMapped(s0, elfbase / 0x1000, ImagePages(img))
  {
    hide Shr, Low, Or, Shl, Bit, Vpn, Inv, Mapped, OldFramesKept, ImageAt, Pages, Le, MapsImage, Accepted,
         SectionFits, ImageMapped, ElfLen;
    ghost var e, p, n := elfbase / 0x1000, ImagePages(img), 1;
    var off := 0x1000;
    PagesCover(elfLen, 0);
    while off < elfLen
      invariant off == 0x1000 * n && 1 <= n <= p
      invariant Ready(a, elfbase, img, n) && ImagePlaced(a, elfbase, p) && a.space == ImageMapped(s0, e, n)
    {
      PagesCover(elfLen, n);
      ImageStep(s0, e, n);
      ImageGrows(s0, e, n + 1, p);
      ghost var m, s := a.ram.words, a.space;
      MapImagePage(a, elfbase, off / 0x1000, img);
      OldFramesSize(m, a.ram.words, s, a.root, a.limit);
      off := off + 0x1000;
      n := n + 1;
    }
    PagesCover(elfLen, n);
  }

  lemma SectionKept(mem: seq<nat>, mem': seq<nat>, s: Space, s': Space, root: nat, limit: nat, img: seq<nat>,
      c: Section)
    requires SectionDone(mem, s, img, c) && OldFramesKept(mem, mem', s, root, limit)
    requires s.data <= s'.data
    requires forall v | c.First() <= v < c.End() && v in s.flat :: v in s'.flat && s'.flat[v] == s.flat[v]
    ensures SectionDone(mem', s', img, c)
  {
    hide OldFramesKept, Copied, Pages;
    forall j | 0 <= j < c.Count()
      ensures Copied(mem', s', c.First() + j, img, c.offset + 0x1000 * j)
    {
      CopiedMapped(mem, s, c.First() + j, img, c.offset + 0x1000 * j);
      CopiedKept(mem, mem', s, s', root, limit, c.First() + j, img, c.offset + 0x1000 * j);
    }
  }

  lemma SectionsStep(s: Space, img: seq<nat>, i: nat)
    ensures SectionsLoaded(s, img, 0) == s
    ensures var t, c := SectionsLoaded(s, img, i), SectionAt(img, i);
            SectionsLoaded(s, img, i + 1) == if Loadable(img, i) then Heaped(t, At(c.First()), c.Count()) else t
  {
    hide Heaped, At, Loadable, SectionAt;
  }

  /** Loading section `d` leaves an already loaded section in place. */
  lemma KeptByCopy(mem: seq<nat>, mem': seq<nat>, s: Space, s': Space, root: nat, limit: nat, img: seq<nat>,
      c: Section, d: Section)
    requires SectionDone(mem, s, img, c) && OldFramesKept(mem, mem', s, root, limit)
    requires root < s.next && s' == Heaped(s, At(d.First()), d.Count()) && s'.next <= limit
    requires d.End() <= PAGE_NUMBERS && Apart(d.First(), d.End(), root, limit)
    requires Apart(c.First(), c.End(), root, limit) && SectionsMiss(c, d)
    ensures SectionDone(mem', s', img, c)
  {
    hide OldFramesKept, Copied, Pages, Heaped, At;
    if d.Count() == 0 {
      HeapedZero(s, At(d.First()));
      SectionKept(mem, mem', s, s', root, limit, img, c);
    } else if c.Count() > 0 {
      HeapedGrows(s, At(d.First()), 0, d.Count());
      HeapedZero(s, At(d.First()));
      HeapPages(s, root, limit, d.First(), d.Count());
      SectionKept(mem, mem', s, s', root, limit, img, c);
    }
  }

  ghost predicate AllDone(mem: seq<nat>, s: Space, img: seq<nat>) {
    forall i | 0 <= i < Shnum(img) && Spelled(img, i) :: SectionDone(mem, s, img, SectionAt(img, i))
  }

  lemma SpelledDone(mem: seq<nat>, s: Space, img: seq<nat>)
    requires forall i | 0 <= i < Shnum(img) && Loadable(img, i) :: SectionDone(mem, s, img, SectionAt(img, i))
    ensures AllDone(mem, s, img)
  {
    hide SectionDone, Spells, NameIs, SectionAt;
    forall i | 0 <= i < Shnum(img) && Spelled(img, i)
      ensures SectionDone(mem, s, img, SectionAt(img, i))
    {
      NameIff(img, Strings(img) + SectionAt(img, i).name);
    }
  }

  /** Loads section `i`, keeping the sections before it. */
  method LoadOne(a: AddressSpace, elfbase: nat, addr: nat, offset: nat, size: nat, ghost img: seq<nat>, ghost i: nat)
      returns (ok: bool)
    requires WellFormed(img) && Accepted(img) && i < Shnum(img) && Loadable(img, i)
    requires var c := SectionAt(img, i); addr == c.addr && offset == c.offset && size == c.size
    requires Ready(a, elfbase, img, ImagePages(img)) && ImagePlaced(a, elfbase, ImagePages(img))
    requires SectionsApart(img, elfbase / 0x1000, a.root, a.limit)
    requires forall j | 0 <= j < i && Loadable(img, j) :: SectionDone(a.ram.words, a.space, img, SectionAt(img, j))
    requires Heaped(a.space, At(SectionAt(img, i).First()), SectionAt(img, i).Count()).next <= a.limit
    modifies a.ram, a`nextPa, a`space
    ensures ok <==> SectionSource(old(a.space), elfbase / 0x1000, SectionAt(img, i))
    ensures Ready(a, elfbase, img, ImagePages(img)) && ImagePlaced(a, elfbase, ImagePages(img))
    ensures ok ==> a.space == Heaped(old(a.space), At(SectionAt(img, i).First()), SectionAt(img, i).Count())
    ensures ok ==>
              forall j | 0 <= j <= i && Loadable(img, j) :: SectionDone(a.ram.words, a.space, img, SectionAt(img, j))
  {
    hide Shr, Low, Or, Shl, Bit, Vpn, Inv, Heaped, OldFramesKept, ImageAt, Pages, Le, MapsImage, Accepted, ElfLen,
         NameIs, Copied, SectionAt, Loadable, SectionReads;
    ghost var m, s, p, d := a.ram.words, a.space, ImagePages(img), SectionAt(img, i);
    assert SectionFits(img, i, d);
    InvTree(m, s, a.root, a.limit, {});
    assert SectionClear(d, elfbase / 0x1000, p, a.root, a.limit);
    ok := CopySection(a, elfbase, addr, offset, size, img, p);
    OldFramesSize(m, a.ram.words, s, a.root, a.limit);
    if !ok {
      return;
    }
    forall j | 0 <= j <= i && Loadable(img, j)
      ensures SectionDone(a.ram.words, a.space, img, SectionAt(img, j))
    {
      if j < i {
        assert SectionClear(SectionAt(img, j), elfbase / 0x1000, p, a.root, a.limit);
        assert SectionsMiss(SectionAt(img, j), d);
        KeptByCopy(m, a.ram.words, s, a.space, a.root, a.limit, img, SectionAt(img, j), d);
      }
    }
  }

  /** The loop over the section headers. */
  method CopySections(a: AddressSpace, elfbase: nat, shoff: nat, shnum: nat, shstrndx: nat, ghost img: seq<nat>,
      ghost s1: Space)
      returns (ok: bool)
    requires WellFormed(img) && Accepted(img)
    requires shoff == Shoff(img) && shnum == Shnum(img) && shstrndx == Shstrndx(img)
    requires Ready(a, elfbase, img, ImagePages(img)) && ImagePlaced(a, elfbase, ImagePages(img))
    requires SectionsApart(img, elfbase / 0x1000, a.root, a.limit)
    requires a.space == s1 && SectionsLoaded(s1, img, Shnum(img)).next <= a.limit
    modifies a.ram, a`nextPa, a`space
    ensures ok <==> SectionsRead(s1, img, elfbase / 0x1000, Shnum(img))
    ensures Ready(a, elfbase, img, ImagePages(img)) && ImagePlaced(a, elfbase, ImagePages(img))
    ensures ok ==> a.space == SectionsLoaded(s1, img, Shnum(img))
    ensures ok ==>
              forall i | 0 <= i < Shnum(img) && Loadable(img, i) ::
                SectionDone(a.ram.words, a.space, img, SectionAt(img, i))
    ensures ok ==> AllDone(a.ram.words, a.space, img)
  {
    hide AllDone, Shr, Low, Or, Shl, Bit, Vpn, Inv, Heaped, OldFramesKept, ImageAt, Pages, Le, MapsImage, Accepted,
         SectionsLoaded, ElfLen, NameIs, Copied, Apart, SectionDone, SectionSource, NameEnds;
    ghost var e, p := elfbase / 0x1000, ImagePages(img);
    var strings := ReadLe(a, elfbase, shoff + 64 * shstrndx + 0x18, 8, img, p);
    SectionsStep(s1, img, 0);
    var i := 0;
    while i < shnum
      invariant 0 <= i <= shnum
      invariant Ready(a, elfbase, img, p) && ImagePlaced(a, elfbase, p) && a.space == SectionsLoaded(s1, img, i)
      invariant forall j | 0 <= j < i && Loadable(img, j) :: SectionDone(a.ram.words, a.space, img, SectionAt(img, j))
      invariant SectionsRead(s1, img, e, i)
    {
      ghost var c := SectionAt(img, i);
      assert SectionFits(img, i, c);
      SectionsStep(s1, img, i);
      SectionsGrow(s1, img, i + 1, shnum);
      var name := ReadLe(a, elfbase, shoff + 64 * i, 4, img, p);
      var load := SameName(a, elfbase, strings + name, TEXT, img, p);
      if !load {
        load := SameName(a, elfbase, strings + name, DATA, img, p);
      }
      assert load <==> Loadable(img, i);
      if load {
        var offset := ReadLe(a, elfbase, shoff + 64 * i + 0x18, 8, img, p);
        var addr := ReadLe(a, elfbase, shoff + 64 * i + 0x10, 8, img, p);
        var size := ReadLe(a, elfbase, shoff + 64 * i + 0x20, 8, img, p);
        ok := LoadOne(a, elfbase, addr, offset, size, img, i);
        if !ok {
          return;
        }
      }
      i := i + 1;
    }
    ok := true;
    SpelledDone(a.ram.words, a.space, img);
  }

  /** Loads the image at `elfbase`. Unless the source of a section cannot be read, every .text and .data
      section ends in place and the image's own pages end unmapped, which is why the final read of the entry
      point is outside the mapping. */
  method LoadEl0(a: AddressSpace, elfbase: nat, ghost img: seq<nat>) returns (r: Outcome)
    requires WellFormed(img)
    requires Ready(a, elfbase, img, 0) && ImagePlaced(a, elfbase, ImagePages(img))
    requires ImageMapped(a.space, elfbase / 0x1000, 1).next <= a.limit
    requires Accepted(img) ==>
               && SectionsApart(img, elfbase / 0x1000, a.root, a.limit)
               && AfterSections(a.space, img, elfbase / 0x1000).next <= a.limit
    modifies a.ram, a`nextPa, a`space
    ensures a.Valid({})
    ensures !Accepted(img) ==> r == Halted && a.space == ImageMapped(old(a.space), elfbase / 0x1000, 1)
    ensures var e := elfbase / 0x1000;
            r == SectionFaults <==>
              Accepted(img) && !SectionsRead(ImageMapped(old(a.space), e, ImagePages(img)), img, e, Shnum(img))
    ensures Accepted(img) && r != SectionFaults ==>
              && a.space == AfterLoad(old(a.space), img, elfbase / 0x1000)
              && (forall i | 0 <= i < Shnum(img) && Loadable(img, i) ::
                    SectionDone(a.ram.words, a.space, img, SectionAt(img, i)))
    ensures Accepted(img) && r != SectionFaults ==> AllDone(a.ram.words, a.space, img)
    ensures Accepted(img) && r != SectionFaults ==>
              r == if ElfLen(img) == 0 then Loaded(EntryPoint(img)) else EntryFaults
  {
    hide AllDone, Shr, Low, Or, Shl, Bit, Vpn, Inv, Mapped, OldFramesKept, ImageAt, Copied, Pages, Le, MapsImage,
         SectionFits, SectionsLoaded, ImageMapped, RangeUnmapped, SectionDone, Loadable, Translate, SectionsApart,
         SectionsRead;
    ghost var e, p, s0 := elfbase / 0x1000, ImagePages(img), a.space;
    ImageGrows(s0, e, 0, 1);
    ImageStep(s0, e, 0);
    ghost var m := a.ram.words;
    MapImagePage(a, elfbase, 0, img);
    OldFramesSize(m, a.ram.words, s0, a.root, a.limit);
    var magic := ReadLe(a, elfbase, 0, 4, img, 1);
    var machine := ReadLe(a, elfbase, 0x12, 2, img, 1);
    if magic != MAGIC || (machine != EM_ARM && machine != EM_AARCH64) {
      return Halted;
    }
    ghost var s1 := ImageMapped(s0, e, p);
    SectionsGrow(s1, img, 0, Shnum(img));
    SectionsStep(s1, img, 0);
    var shoff := ReadLe(a, elfbase, 0x28, 8, img, 1);
    var shentsize := ReadLe(a, elfbase, 0x3A, 2, img, 1);
    var shnum := ReadLe(a, elfbase, 0x3C, 2, img, 1);
    var shstrndx := ReadLe(a, elfbase, 0x3E, 2, img, 1);
    var elfLen := shoff + shentsize * shnum;
    MapImage(a, elfbase, elfLen, img, s0);
    r := LoadSections(a, elfbase, elfLen, shoff, shnum, shstrndx, img, s1);
    if r != SectionFaults {
      SpelledDone(a.ram.words, a.space, img);
    }
  }

  /** The load from the section loop on. */
  method LoadSections(a: AddressSpace, elfbase: nat, elfLen: nat, shoff: nat, shnum: nat, shstrndx: nat,
                      ghost img: seq<nat>, ghost s1: Space)
      returns (r: Outcome)
    requires WellFormed(img) && Accepted(img) && elfLen == ElfLen(img)
    requires shoff == Shoff(img) && shnum == Shnum(img) && shstrndx == Shstrndx(img)
    requires Ready(a, elfbase, img, ImagePages(img)) && ImagePlaced(a, elfbase, ImagePages(img))
    requires SectionsApart(img, elfbase / 0x1000, a.root, a.limit)
    requires a.space == s1 && SectionsLoaded(s1, img, Shnum(img)).next <= a.limit
    modifies a.ram, a`nextPa, a`space
    ensures a.Valid({})
    ensures r == SectionFaults <==> !SectionsRead(s1, img, elfbase / 0x1000, Shnum(img))
    ensures r != SectionFaults ==>
              && a.space == RangeUnmapped(SectionsLoaded(s1, img, Shnum(img)), elfbase / 0x1000, Pages(ElfLen(img)))
              && (forall i | 0 <= i < Shnum(img) && Loadable(img, i) ::
                    SectionDone(a.ram.words, a.space, img, SectionAt(img, i)))
              && r == if ElfLen(img) == 0 then Loaded(EntryPoint(img)) else EntryFaults
  {
    hide Shr, Low, Or, Shl, Bit, Vpn, Inv, Mapped, OldFramesKept, ImageAt, Copied, Pages, Le, MapsImage, Accepted,
         SectionFits, SectionsLoaded, RangeUnmapped, SectionDone, Loadable, Translate, SectionsApart, SectionsRead;
    var ok := CopySections(a, elfbase, shoff, shnum, shstrndx, img, s1);
    if !ok {
      return SectionFaults;
    }
    ghost var s2, m2 := a.space, a.ram.words;
    UnmapRange(a, elfbase, elfLen);
    OldFramesSize(m2, a.ram.words, s2, a.root, a.limit);
    AfterUnmap(a, m2, s2, elfbase, img);
    match Translate(a.ram.words, a.base / 0x1000, elfbase + 0x18, false) {
      case None => return EntryFaults;
      case Some(_) =>
        var entry := ReadLe(a, elfbase, 0x18, 8, img, 1);
        return Loaded(entry);
    }
  }

  lemma AfterUnmap(a: AddressSpace, m: seq<nat>, s: Space, elfbase: nat, img: seq<nat>)
    requires a.Valid({}) && WellFormed(img) && Accepted(img) && elfbase == At(elfbase / 0x1000)
    requires ImagePlaced(a, elfbase, ImagePages(img)) && SectionsApart(img, elfbase / 0x1000, a.root, a.limit)
    requires MapsImage(s, elfbase / 0x1000, ImagePages(img)) && ImageAt(m, elfbase / 0x1000, img)
    requires forall i | 0 <= i < Shnum(img) && Loadable(img, i) :: SectionDone(m, s, img, SectionAt(img, i))
    requires OldFramesKept(m, a.ram.words, s, a.root, a.limit)
    requires a.space == RangeUnmapped(s, elfbase / 0x1000, Pages(ElfLen(img)))
    ensures forall i | 0 <= i < Shnum(img) && Loadable(img, i) ::
              SectionDone(a.ram.words, a.space, img, SectionAt(img, i))
    ensures ElfLen(img) == 0 ==>
              Ready(a, elfbase, img, 1) && Translate(a.ram.words, a.root, elfbase + 0x18, false).Some?
    ensures ElfLen(img) != 0 ==> Translate(a.ram.words, a.root, elfbase + 0x18, false).None?
  {
    hide Shr, Low, Or, Shl, Bit, Vpn, Inv, Mapped, OldFramesKept, ImageAt, Copied, Pages, Le, SectionFits,
         SectionDone, Loadable,
         Translate, SectionAt, ElfLen;
    var e, p := elfbase / 0x1000, ImagePages(img);
    PagesCover(ElfLen(img), 0);
    UnmappedPages(s, e, Pages(ElfLen(img)));
    InvTree(a.ram.words, a.space, a.root, a.limit, {});
    ImageKept(m, a.ram.words, e, img, s, a.root, a.limit, p);
    forall i | 0 <= i < Shnum(img) && Loadable(img, i)
      ensures SectionDone(a.ram.words, a.space, img, SectionAt(img, i))
    {
      assert SectionClear(SectionAt(img, i), e, p, a.root, a.limit);
      SectionKept(m, a.ram.words, s, a.space, a.root, a.limit, img, SectionAt(img, i));
    }
    VpnAtOffset(e, 0x18);
    TranslateIsFlat(a.ram.words, a.space, a.root, elfbase + 0x18, false);
    if ElfLen(img) == 0 {
      ImageReachable(a, e, 1, 0x18);
    }
  }

  // ---------- what a load achieves ----------

  /** EL0 can load from and store to `va`, where EL1 does. */
  predicate EqualRights(mem: seq<nat>, root: nat, va: nat) {
    && TranslateEl0(mem, root, va, false).Some? && TranslateEl0(mem, root, va, false) == Translate(mem, root, va, false)
    && TranslateEl0(mem, root, va, true) == TranslateEl0(mem, root, va, false)
  }

  /** Every byte of a loaded section reads back, through translation, at its address, and EL0 has it too. */
  lemma SectionReadsBack(a: AddressSpace, img: seq<nat>, c: Section, k: nat)
    requires a.Valid({}) && SectionDone(a.ram.words, a.space, img, c)
    requires c.addr == At(c.First()) && c.End() <= PAGE_NUMBERS && k < c.size && c.offset + k < |img|
    ensures ReadVa(a.ram.words, a.root, c.addr + k) == Some(img[c.offset + k])
    ensures EqualRights(a.ram.words, a.root, c.addr + k)
  {
    hide Shr, Low, Or, Shl, Bit, Vpn, Inv, Translate, TranslateEl0, FrameByte, Frame, HwWritable, HwUser;
    var j, b := k / 0x1000, k % 0x1000;
    assert Copied(a.ram.words, a.space, c.First() + j, img, c.offset + 0x1000 * j);
    assert c.addr + k == At(c.First() + j) + b;
    PageReachable(a, c.First() + j, b);
    InvTree(a.ram.words, a.space, a.root, a.limit, {});
    UserReached(a.ram.words, a.space, a.root, c.First() + j, b, true);
    UserReached(a.ram.words, a.space, a.root, c.First() + j, b, false);
    var f := Frame(a.space.flat[c.First() + j]);
    assert (0x1000 * f + b) / 0x1000 == f && (0x1000 * f + b) % 0x1000 == b;
  }

  /** No page between the image and the end of a section's whole-page copies is mapped, or comes to be. */
  ghost predicate NothingBehind(s: Space, e: nat, p: nat, root: nat, limit: nat, c: Section) {
    forall w: nat | Behind(e, p, c, w) :: w !in s.flat && !(root <= w < limit) && !(c.First() <= w < c.End())
  }

  /** Page `w` lies behind the image and not behind the section's whole-page copies. */
  predicate Behind(e: nat, p: nat, c: Section, w: nat) {
    e + p <= w <= e + (c.offset + 0x1000 * c.Count()) / 0x1000
  }

  /** Where nothing else is mapped behind the image, a section faults if and only if its whole-page copies
      run past the image's last page. */
  lemma SectionFaultsIff(s: Space, e: nat, p: nat, root: nat, limit: nat, c: Section)
    requires MapsImage(s, e, p) && e + p <= FRAMES && Apart(e, e + p, root, limit) && root < limit
    requires SectionClear(c, e, p, root, limit) && root <= s.next && Heaped(s, At(c.First()), c.Count()).next <= limit
    requires NothingBehind(s, e, p, root, limit, c)
    ensures SectionSource(s, e, c) <==> c.Count() == 0 || c.offset + 0x1000 * c.Count() <= 0x1000 * p
  {
    hide HwReadable, PageWord, Heaped, Pages, HwWritable, MapsImage, SourceReadable, At, NothingBehind;
    var o, n := c.offset, c.Count();
    if n > 0 && o + 0x1000 * n > 0x1000 * p {
      LastUnreadable(s, e, p, root, limit, c);
      assert !SourceReadable(Heaped(s, At(c.First()), n - 1 + 1), e, o + 0x1000 * (n - 1));
    } else {
      forall j: nat | j < n
        ensures SourceReadable(Heaped(s, At(c.First()), j + 1), e, o + 0x1000 * j)
      {
        InsideReadable(s, e, p, root, limit, c, j);
      }
    }
  }

  lemma LastUnreadable(s: Space, e: nat, p: nat, root: nat, limit: nat, c: Section)
    requires c.End() <= PAGE_NUMBERS && Apart(c.First(), c.End(), root, limit) && root < limit
    requires root <= s.next && Heaped(s, At(c.First()), c.Count()).next <= limit
    requires c.Count() > 0 && c.offset + 0x1000 * c.Count() > 0x1000 * p
    requires NothingBehind(s, e, p, root, limit, c)
    ensures !SourceReadable(Heaped(s, At(c.First()), c.Count()), e, c.offset + 0x1000 * (c.Count() - 1))
  {
    hide HwReadable, PageWord, Heaped, At, Pages, Backed;
    var o, n := c.offset, c.Count();
    LastPage(o, n, p);
    HeapPages(s, root, limit, c.First(), n);
    assert Behind(e, p, c, e + (o + 0x1000 * (n - 1) + 0xFFF) / 0x1000);
  }

  lemma InsideReadable(s: Space, e: nat, p: nat, root: nat, limit: nat, c: Section, j: nat)
    requires MapsImage(s, e, p) && e + p <= FRAMES && Apart(e, e + p, root, limit) && root < limit
    requires SectionClear(c, e, p, root, limit) && root <= s.next && Heaped(s, At(c.First()), c.Count()).next <= limit
    requires j < c.Count() && c.offset + 0x1000 * c.Count() <= 0x1000 * p
    ensures SourceReadable(Heaped(s, At(c.First()), j + 1), e, c.offset + 0x1000 * j)
  {
    hide HwReadable, PageWord, Heaped, At, Pages, HwWritable, MapsImage, Backed;
    var o, n := c.offset, c.Count();
    InsidePages(o, j, n, p);
    HeapedGrows(s, At(c.First()), j + 1, n);
    HeapPages(s, root, limit, c.First(), j + 1);
    ImagePageReadable(s, e, p, e + (o + 0x1000 * j) / 0x1000);
    ImagePageReadable(s, e, p, e + (o + 0x1000 * j + 0xFFF) / 0x1000);
  }

  lemma LastPage(o: nat, n: nat, p: nat)
    requires n > 0 && o + 0x1000 * n > 0x1000 * p
    ensures p <= (o + 0x1000 * (n - 1) + 0xFFF) / 0x1000 <= (o + 0x1000 * n) / 0x1000
  {
  }

  lemma InsidePages(o: nat, j: nat, n: nat, p: nat)
    requires j < n && o + 0x1000 * n <= 0x1000 * p
    ensures (o + 0x1000 * j) / 0x1000 < p && (o + 0x1000 * j + 0xFFF) / 0x1000 < p
  {
  }

  lemma ImagePageReadable(s: Space, e: nat, p: nat, v: nat)
    requires MapsImage(s, e, p) && e + p <= FRAMES && e <= v < e + p
    ensures v in s.flat && HwReadable(s.flat[v])
  {
    hide HwReadable, HwWritable, PageWord;
    UserPage(v);
    Writable(s.flat[v]);
  }

  lemma {:induction false} ImageMappedFlat(s: Space, e: nat, p: nat, root: nat, limit: nat, v: nat)
    requires root <= s.next && ImageMapped(s, e, p).next <= limit && e + p <= FRAMES
    requires !(root <= v < limit) && !(e <= v < e + p)
    ensures var t := ImageMapped(s, e, p); (v in t.flat <==> v in s.flat) && (v in s.flat ==> t.flat[v] == s.flat[v])
  {
    hide Shr, Low, Vpn, Mapped, PageWord;
    if p > 0 {
      ImageGrows(s, e, p - 1, p);
      ImageMappedFlat(s, e, p - 1, root, limit, v);
      VpnAt(e + p - 1);
      MappedPage(ImageMapped(s, e, p - 1), root, limit, At(e + p - 1), At(e + p - 1), PTE_USER_RW);
    }
  }

  lemma {:induction false} SectionsFlat(s: Space, img: seq<nat>, i: nat, e: nat, root: nat, limit: nat, v: nat)
    requires root < s.next && i <= Shnum(img) && SectionsApart(img, e, root, limit)
    requires SectionsLoaded(s, img, i).next <= limit
    requires !(root <= v < limit)
    requires forall j | 0 <= j < i && Loadable(img, j) :: !(SectionAt(img, j).First() <= v < SectionAt(img, j).End())
    ensures var t := SectionsLoaded(s, img, i);
              (v in t.flat <==> v in s.flat) && (v in s.flat ==> t.flat[v] == s.flat[v])
  {
    hide Shr, Low, Heaped, Loadable, SectionAt, Pages, At;
    if i > 0 {
      var t, c := SectionsLoaded(s, img, i - 1), SectionAt(img, i - 1);
      SectionsGrow(s, img, 0, i - 1);
      SectionsGrow(s, img, i - 1, i);
      SectionsStep(s, img, 0);
      SectionsFlat(s, img, i - 1, e, root, limit, v);
      if Loadable(img, i - 1) {
        assert SectionClear(c, e, ImagePages(img), root, limit);
        HeapedZero(t, At(c.First()));
        HeapedGrows(t, At(c.First()), 0, c.Count());
        if c.Count() > 0 {
          HeapPages(t, root, limit, c.First(), c.Count());
        }
      }
    }
  }

  /** A load leaves every page outside the pool, the image and the loaded sections mapped as it was,
      and no page of the image mapped. */
  lemma LoadKeepsOthers(s: Space, img: seq<nat>, e: nat, root: nat, limit: nat, v: nat)
    requires root < s.next && WellFormed(img) && Accepted(img) && SectionsApart(img, e, root, limit)
    requires e + ImagePages(img) <= FRAMES
    requires AfterSections(s, img, e).next <= limit
    requires !(root <= v < limit)
    requires forall j | 0 <= j < Shnum(img) && Loadable(img, j) ::
              !(SectionAt(img, j).First() <= v < SectionAt(img, j).End())
    ensures var t := AfterLoad(s, img, e);
            && (e <= v < e + Pages(ElfLen(img)) ==> v !in t.flat)
            && (!(e <= v < e + ImagePages(img)) ==>
                  (v in t.flat <==> v in s.flat) && (v in s.flat ==> t.flat[v] == s.flat[v]))
  {
    hide Shr, Low, Heaped, Loadable, SectionAt, Pages, At, SectionsLoaded, ImageMapped, RangeUnmapped, WellFormed,
         ElfLen, Shnum, SectionsApart;
    var p := ImagePages(img);
    var m := ImageMapped(s, e, p);
    var t := SectionsLoaded(m, img, Shnum(img));
    ImageGrows(s, e, 0, p);
    ImageStep(s, e, 0);
    SectionsGrow(m, img, 0, Shnum(img));
    SectionsStep(m, img, 0);
    UnmappedPages(t, e, Pages(ElfLen(img)));
    SectionsFlat(m, img, Shnum(img), e, root, limit, v);
    if !(e <= v < e + p) {
      ImageMappedFlat(s, e, p, root, limit, v);
    }
  }
}
