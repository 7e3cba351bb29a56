/** The loader over the bytes of the file: what ELF-64 (System V gABI, chapter 4) says a file's headers and
    names are, and what a load then makes of its sections. */
module ElfFiles {
  import opened Bits
  import opened Vmsa
  import opened TableTree
  import opened AddressSpaces
  import opened Heap
  import opened PageRanges
  import opened Loader

  // ---------- the format ----------

  /** Elf64_Half, Elf64_Word, and Elf64_Xword, Elf64_Addr or Elf64_Off: 2, 4 and 8 bytes, lowest first. */
  datatype Field = Half(value: nat) | Word(value: nat) | Xword(value: nat) {
    function Width(): nat {
      match this case Half(_) => 2 case Word(_) => 4 case Xword(_) => 8
    }
  }

  function LeBytes(x: nat, n: nat): (b: seq<nat>)
    ensures |b| == n
  {
    if n == 0 then [] else [x % 0x100] + LeBytes(x / 0x100, n - 1)
  }

  function Encoded(fs: seq<Field>): seq<nat> {
    if fs == [] then [] else Encoded(fs[..|fs| - 1]) + LeBytes(fs[|fs| - 1].value, fs[|fs| - 1].Width())
  }

  function Power(n: nat): nat {
    if n == 0 then 1 else 0x100 * Power(n - 1)
  }

  predicate FieldsFit(fs: seq<Field>) {
    forall k | 0 <= k < |fs| :: fs[k].value < Power(fs[k].Width())
  }

  /** Elf64_Ehdr after its 16 bytes of e_ident. */
  datatype Header = Header(kind: nat, machine: nat, version: nat, entry: nat, phoff: nat, shoff: nat, flags: nat,
                           ehsize: nat, phentsize: nat, phnum: nat, shentsize: nat, shnum: nat, shstrndx: nat)
  {
    function Fields(): seq<Field> {
      [Half(kind), Half(machine), Word(version), Xword(entry), Xword(phoff), Xword(shoff), Word(flags), Half(ehsize),
       Half(phentsize), Half(phnum), Half(shentsize), Half(shnum), Half(shstrndx)]
    }
  }

  /** Elf64_Shdr. */
  datatype SectionHeader = SectionHeader(name: nat, kind: nat, flags: nat, addr: nat, offset: nat, size: nat,
                                         link: nat, info: nat, align: nat, entsize: nat)
  {
    function Fields(): seq<Field> {
      [Word(name), Word(kind), Xword(flags), Xword(addr), Xword(offset), Xword(size), Word(link), Word(info),
       Xword(align), Xword(entsize)]
    }

    /** What the loader uses. */
    function Used(): Section {
      Section(name, addr, offset, size)
    }
  }

  predicate Holds(img: seq<nat>, at: nat, fs: seq<Field>) {
    FieldsFit(fs) && at + |Encoded(fs)| <= |img| && img[at..at + |Encoded(fs)|] == Encoded(fs)
  }

  predicate IsElf(img: seq<nat>) {
    |img| >= 4 && img[0] == 0x7F && img[1] == 'E' as int && img[2] == 'L' as int && img[3] == 'F' as int
  }

  /** 32-bit and 64-bit Arm. */
  predicate ForArm(h: Header) {
    h.machine == 40 || h.machine == 183
  }

  // ---------- reading it back ----------

  lemma {:induction false} LeOfBytes(img: seq<nat>, off: nat, x: nat, n: nat)
    requires x < Power(n) && off + n <= |img| && img[off..off + n] == LeBytes(x, n)
    ensures Le(img, off, n) == x
    decreases n
  {
    if n > 0 {
      assert img[off] == img[off..off + n][0];
      assert img[off + 1..off + n] == img[off..off + n][1..] == LeBytes(x / 0x100, n - 1);
      LeOfBytes(img, off + 1, x / 0x100, n - 1);
    }
  }

  /** Where field `k` starts. */
  function Offset(fs: seq<Field>, k: nat): nat
    requires k <= |fs|
  {
    if k == 0 then 0 else Offset(fs, k - 1) + fs[k - 1].Width()
  }

  lemma {:induction false} EncodedSplit(fs: seq<Field>, k: nat)
    requires k < |fs|
    ensures Offset(fs, k) + fs[k].Width() <= |Encoded(fs)|
    ensures Encoded(fs)[Offset(fs, k)..Offset(fs, k) + fs[k].Width()] == LeBytes(fs[k].value, fs[k].Width())
  {
    hide LeBytes;
    var front := fs[..|fs| - 1];
    OffsetFront(fs, |fs| - 1);
    EncodedSize(front);
    if k < |fs| - 1 {
      OffsetFront(fs, k);
      EncodedSplit(front, k);
      var o, w := Offset(fs, k), fs[k].Width();
      SliceOfSum(Encoded(front), LeBytes(fs[|fs| - 1].value, fs[|fs| - 1].Width()), o, w);
    }
  }

  lemma SliceOfSum(a: seq<nat>, b: seq<nat>, o: nat, w: nat)
    requires o + w <= |a|
    ensures (a + b)[o..o + w] == a[o..o + w]
  {
    var inner, outer := (a + b)[o..o + w], a[o..o + w];
    forall k | 0 <= k < w
      ensures inner[k] == outer[k]
    {
    }
  }

  lemma {:induction false} OffsetFront(fs: seq<Field>, k: nat)
    requires k < |fs|
    ensures Offset(fs[..|fs| - 1], k) == Offset(fs, k)
  {
    if k > 0 {
      OffsetFront(fs, k - 1);
    }
  }

  lemma {:induction false} EncodedSize(fs: seq<Field>)
    ensures |Encoded(fs)| == Offset(fs, |fs|)
  {
    if fs != [] {
      EncodedSize(fs[..|fs| - 1]);
      OffsetFront(fs, |fs| - 1);
    }
  }

  /** Field `k` reads back at its offset. */
  lemma FieldReads(img: seq<nat>, at: nat, fs: seq<Field>, k: nat)
    requires Holds(img, at, fs) && k < |fs|
    ensures Le(img, at + Offset(fs, k), fs[k].Width()) == fs[k].value
  {
    hide Encoded, Offset, LeBytes, Le, Power;
    EncodedSplit(fs, k);
    var o, w := Offset(fs, k), fs[k].Width();
    SliceOfSlice(img, at, |Encoded(fs)|, o, w);
    LeOfBytes(img, at + o, fs[k].value, w);
  }

  lemma SliceOfSlice(img: seq<nat>, at: nat, n: nat, o: nat, w: nat)
    requires at + n <= |img| && o + w <= n
    ensures img[at..at + n][o..o + w] == img[at + o..at + o + w]
  {
    var inner, outer := img[at..at + n][o..o + w], img[at + o..at + o + w];
    forall k | 0 <= k < w
      ensures inner[k] == outer[k]
    {
    }
  }

  /** Offsets in the structure, less the 16 bytes of e_ident. */
  lemma HeaderOffsets(fs: seq<Field>)
    requires |fs| == 13
    requires fs[0].Half? && fs[1].Half? && fs[2].Word? && fs[3].Xword? && fs[4].Xword? && fs[5].Xword? && fs[6].Word?
    requires forall k | 7 <= k < 13 :: fs[k].Half?
    ensures && Offset(fs, 1) == 2 && Offset(fs, 2) == 4 && Offset(fs, 3) == 8 && Offset(fs, 4) == 16
            && Offset(fs, 5) == 24 && Offset(fs, 6) == 32 && Offset(fs, 7) == 36 && Offset(fs, 8) == 38
            && Offset(fs, 9) == 40 && Offset(fs, 10) == 42 && Offset(fs, 11) == 44 && Offset(fs, 12) == 46
  {
  }

  /** The loader finds the header's fields. */
  lemma HeaderReads(img: seq<nat>, h: Header)
    requires Holds(img, 16, h.Fields())
    ensures Machine(img) == h.machine && EntryPoint(img) == h.entry && Shoff(img) == h.shoff
    ensures Shentsize(img) == h.shentsize && Shnum(img) == h.shnum && Shstrndx(img) == h.shstrndx
  {
    hide Holds, Le, Offset;
    var fs := h.Fields();
    HeaderOffsets(fs);
    FieldReads(img, 16, fs, 1);
    FieldReads(img, 16, fs, 3);
    FieldReads(img, 16, fs, 5);
    FieldReads(img, 16, fs, 10);
    FieldReads(img, 16, fs, 11);
    FieldReads(img, 16, fs, 12);
  }

  lemma SectionOffsets(fs: seq<Field>)
    requires |fs| == 10
    requires fs[0].Word? && fs[1].Word? && fs[6].Word? && fs[7].Word?
    requires forall k | 2 <= k < 6 || 8 <= k < 10 :: fs[k].Xword?
    ensures && Offset(fs, 0) == 0 && Offset(fs, 1) == 4 && Offset(fs, 2) == 8 && Offset(fs, 3) == 16
            && Offset(fs, 4) == 24 && Offset(fs, 5) == 32 && Offset(fs, 6) == 40 && Offset(fs, 7) == 44
            && Offset(fs, 8) == 48 && Offset(fs, 9) == 56 && Offset(fs, 10) == 64
  {
  }

  /** And what it uses of a section header. */
  lemma SectionReads(img: seq<nat>, i: nat, c: SectionHeader)
    requires Holds(img, Shdr(img, i), c.Fields())
    ensures SectionAt(img, i) == c.Used()
    ensures Shdr(img, i) + 64 <= |img|
  {
    hide Le, Offset;
    var fs := c.Fields();
    SectionOffsets(fs);
    EncodedSize(fs);
    FieldReads(img, Shdr(img, i), fs, 0);
    FieldReads(img, Shdr(img, i), fs, 3);
    FieldReads(img, Shdr(img, i), fs, 4);
    FieldReads(img, Shdr(img, i), fs, 5);
  }

  lemma AcceptedIff(img: seq<nat>, h: Header)
    requires Holds(img, 16, h.Fields()) && forall k | 0 <= k < |img| :: img[k] < 0x100
    ensures Accepted(img) <==> IsElf(img) && ForArm(h)
  {
    HeaderReads(img, h);
    assert |img| >= 4;
    assert Le(img, 0, 4) == img[0] + 0x100 * Le(img, 1, 3);
    assert Le(img, 1, 3) == img[1] + 0x100 * Le(img, 2, 2);
    assert Le(img, 2, 2) == img[2] + 0x100 * Le(img, 3, 1);
    assert Le(img, 3, 1) == img[3] + 0x100 * Le(img, 4, 0);
  }

  // ---------- a file in memory ----------

  /** The bytes up to the end of the section headers. */
  function FileLength(h: Header): nat {
    h.shoff + h.shentsize * h.shnum
  }

  function FilePages(h: Header): nat {
    if FileLength(h) == 0 then 1 else (FileLength(h) + 0xFFF) / 0x1000
  }

  function NameAt(h: Header, ss: seq<SectionHeader>, i: nat): nat
    requires i < |ss| && h.shstrndx < |ss|
  {
    ss[h.shstrndx].offset + ss[i].name
  }

  /** Section `i` is to be loaded. */
  predicate Wanted(img: seq<nat>, h: Header, ss: seq<SectionHeader>, i: nat) {
    && i < h.shnum && i < |ss| && h.shstrndx < |ss|
    && (Spells(img, NameAt(h, ss, i), ".text") || Spells(img, NameAt(h, ss, i), ".data"))
  }

  /** The pages mapped hold a file with this header and, if it is for Arm, these section headers, whose names
      end in the image and whose sections start on pages. */
  ghost predicate FileIn(img: seq<nat>, h: Header, ss: seq<SectionHeader>) {
    && |img| == 0x1000 * FilePages(h)
    && (forall k | 0 <= k < |img| :: img[k] < 0x100)
    && Holds(img, 16, h.Fields())
    && (IsElf(img) && ForArm(h) ==>
          && h.shnum <= |ss| && h.shstrndx < |ss|
          && (forall i | 0 <= i < |ss| :: Holds(img, h.shoff + 64 * i, ss[i].Fields()))
          && (forall i | 0 <= i < h.shnum :: NameEnds(img, NameAt(h, ss, i)))
          && (forall i | 0 <= i < h.shnum && Wanted(img, h, ss, i) :: ss[i].addr % 0x1000 == 0))
  }

  function FirstPage(c: SectionHeader): nat {
    c.addr / 0x1000
  }

  function EndPage(c: SectionHeader): nat {
    FirstPage(c) + (c.size + 0xFFF) / 0x1000
  }

  /** The sections to be loaded lie apart from the pool, from the image and from each other. */
  ghost predicate FileApart(img: seq<nat>, h: Header, ss: seq<SectionHeader>, e: nat, root: nat, limit: nat) {
    && (forall i | 0 <= i < |ss| && Wanted(img, h, ss, i) ::
          && EndPage(ss[i]) <= PAGE_NUMBERS && Apart(FirstPage(ss[i]), EndPage(ss[i]), root, limit)
          && Apart(FirstPage(ss[i]), EndPage(ss[i]), e, e + FilePages(h)))
    && (forall i, j | 0 <= i < j < |ss| && Wanted(img, h, ss, i) && Wanted(img, h, ss, j) ::
          Apart(FirstPage(ss[i]), EndPage(ss[i]), FirstPage(ss[j]), EndPage(ss[j])))
  }

  /** The loader sees the file as it is. */
  lemma FileAgrees(img: seq<nat>, h: Header, ss: seq<SectionHeader>)
    requires FileIn(img, h, ss)
    ensures ElfLen(img) == FileLength(h) && ImagePages(img) == FilePages(h) && EntryPoint(img) == h.entry
    ensures Shnum(img) == h.shnum && (Accepted(img) <==> IsElf(img) && ForArm(h))
    ensures Accepted(img) ==>
              forall i | 0 <= i < h.shnum :: Agrees(img, h, ss, i)
    ensures WellFormed(img) && |img| == 0x1000 * FilePages(h)
  {
    hide Holds, Le, NameIs, Spells, NameEnds;
    HeaderReads(img, h);
    AcceptedIff(img, h);
    if Accepted(img) {
      SectionReads(img, h.shstrndx, ss[h.shstrndx]);
      forall i | 0 <= i < h.shnum
        ensures Agrees(img, h, ss, i) && SectionFits(img, i, SectionAt(img, i))
      {
        SectionReads(img, i, ss[i]);
        NameIff(img, NameAt(h, ss, i));
      }
    }
  }

  ghost predicate Agrees(img: seq<nat>, h: Header, ss: seq<SectionHeader>, i: nat) {
    && i < |ss| && (Loadable(img, i) <==> Wanted(img, h, ss, i))
    && SectionAt(img, i) == ss[i].Used()
  }

  lemma ApartAgrees(img: seq<nat>, h: Header, ss: seq<SectionHeader>, e: nat, root: nat, limit: nat)
    requires FileIn(img, h, ss) && Accepted(img) && FileApart(img, h, ss, e, root, limit)
    ensures SectionsApart(img, e, root, limit)
  {
    hide FileIn, Accepted, SectionAt, Wanted, Loadable, Apart;
    FileAgrees(img, h, ss);
    forall i | 0 <= i < Shnum(img) && Loadable(img, i)
      ensures SectionClear(SectionAt(img, i), e, ImagePages(img), root, limit)
    {
      assert Agrees(img, h, ss, i);
    }
    forall i, j | 0 <= i < j < Shnum(img) && Loadable(img, i) && Loadable(img, j)
      ensures SectionsMiss(SectionAt(img, i), SectionAt(img, j))
    {
      assert Agrees(img, h, ss, i) && Agrees(img, h, ss, j);
    }
  }

  // ---------- what a load achieves ----------

  /** Every byte of every .text and .data section that the image contains reads back at its address, at EL0
      as at EL1. */
  ghost predicate InPlace(mem: seq<nat>, root: nat, img: seq<nat>, h: Header, ss: seq<SectionHeader>) {
    forall i, k: nat | 0 <= i < |ss| && Wanted(img, h, ss, i) :: ByteInPlace(mem, root, img, ss[i], k)
  }

  ghost predicate ByteInPlace(mem: seq<nat>, root: nat, img: seq<nat>, c: SectionHeader, k: nat) {
    k < c.size && c.offset + k < |img| ==>
      ReadVa(mem, root, c.addr + k) == Some(img[c.offset + k]) && EqualRights(mem, root, c.addr + k)
  }

  /** No address of the file itself can be reached. */
  ghost predicate FileGone(mem: seq<nat>, root: nat, elfbase: nat, h: Header) {
    forall x: nat, write: bool | elfbase <= x < elfbase + FileLength(h) :: Translate(mem, root, x, write) == None
  }

  /** Page `v` belongs to the image or to a section that is loaded. */
  ghost predicate Touched(img: seq<nat>, h: Header, ss: seq<SectionHeader>, e: nat, v: nat) {
    || e <= v < e + FilePages(h)
    || exists i :: 0 <= i < |ss| && Wanted(img, h, ss, i) && FirstPage(ss[i]) <= v < EndPage(ss[i])
  }

  lemma SectionsInPlace(a: AddressSpace, img: seq<nat>, h: Header, ss: seq<SectionHeader>, e: nat)
    requires a.Valid({}) && FileIn(img, h, ss) && Accepted(img) && FileApart(img, h, ss, e, a.root, a.limit)
    requires forall i | 0 <= i < Shnum(img) && Loadable(img, i) ::
               SectionDone(a.ram.words, a.space, img, SectionAt(img, i))
    ensures InPlace(a.ram.words, a.root, img, h, ss)
  {
    hide Inv, Translate, Accepted, SectionAt, SectionDone, Loadable, Spells, Apart, ReadVa, EqualRights, Holds;
    FileAgrees(img, h, ss);
    forall i, k: nat | 0 <= i < |ss| && Wanted(img, h, ss, i)
      ensures ByteInPlace(a.ram.words, a.root, img, ss[i], k)
    {
      assert Agrees(img, h, ss, i);
      if k < ss[i].size && ss[i].offset + k < |img| {
        SectionReadsBack(a, img, SectionAt(img, i), k);
      }
    }
  }

  /** After a load the file's own addresses cannot be reached. */
  lemma FileUnmapped(a: AddressSpace, s: Space, elfbase: nat, img: seq<nat>, h: Header, ss: seq<SectionHeader>)
    requires a.Valid({}) && elfbase == At(elfbase / 0x1000) && FileIn(img, h, ss) && Accepted(img)
    requires var e, n := elfbase / 0x1000, FilePages(h); e + n <= FRAMES && Apart(e, e + n, a.root, a.limit)
    requires a.space == AfterLoad(s, img, elfbase / 0x1000)
    ensures FileGone(a.ram.words, a.root, elfbase, h)
  {
    hide Inv, Translate, Accepted, Shr, Vpn, FileIn, AfterLoad, HwReadable, HwWritable;
    InvTree(a.ram.words, a.space, a.root, a.limit, {});
    forall x: nat, write: bool | elfbase <= x < elfbase + FileLength(h)
      ensures Translate(a.ram.words, a.root, x, write) == None
    {
      var v := x / 0x1000;
      assert x == At(v) + x % 0x1000;
      VpnAtOffset(v, x % 0x1000);
      PagesUnloaded(s, img, h, ss, elfbase / 0x1000, a.root, a.limit, v);
      TranslateIsFlat(a.ram.words, a.space, a.root, x, write);
    }
  }

  /** Translation outside the pool, the image and the sections is as it was. */
  lemma OthersStay(a: AddressSpace, m: seq<nat>, s: Space, e: nat, img: seq<nat>, h: Header, ss: seq<SectionHeader>)
    requires a.Valid({}) && Inv(m, s, a.root, a.limit, {})
    requires FileIn(img, h, ss) && Accepted(img) && FileApart(img, h, ss, e, a.root, a.limit)
    requires e + FilePages(h) <= FRAMES && AfterSections(s, img, e).next <= a.limit
    requires a.space == AfterLoad(s, img, e)
    ensures forall x: nat, write: bool | !(a.root <= Vpn(x) < a.limit) && !Touched(img, h, ss, e, Vpn(x)) ::
              Translate(a.ram.words, a.root, x, write) == Translate(m, a.root, x, write)
  {
    hide Inv, Translate, Accepted, Shr, Vpn, FileIn, AfterSections, AfterLoad, Touched, FileApart, HwReadable,
         HwWritable;
    InvTree(m, s, a.root, a.limit, {});
    InvTree(a.ram.words, a.space, a.root, a.limit, {});
    InvBasics(m, s, a.root, a.limit, {});
    forall x: nat, write: bool | !(a.root <= Vpn(x) < a.limit) && !Touched(img, h, ss, e, Vpn(x))
      ensures Translate(a.ram.words, a.root, x, write) == Translate(m, a.root, x, write)
    {
      PagesKept(s, img, h, ss, e, a.root, a.limit, Vpn(x));
      TranslateIsFlat(a.ram.words, a.space, a.root, x, write);
      TranslateIsFlat(m, s, a.root, x, write);
    }
  }

  lemma PagesUnloaded(s: Space, img: seq<nat>, h: Header, ss: seq<SectionHeader>, e: nat, root: nat, limit: nat, v: nat)
    requires FileIn(img, h, ss) && Accepted(img) && Apart(e, e + FilePages(h), root, limit)
    requires e + FilePages(h) <= PAGE_NUMBERS && e <= v < e + Pages(FileLength(h))
    ensures v !in AfterLoad(s, img, e).flat
  {
    hide FileIn, Accepted, AfterSections, Pages;
    FileAgrees(img, h, ss);
    PagesCover(FileLength(h), 0);
    UnmappedPages(AfterSections(s, img, e), e, Pages(FileLength(h)));
  }

  lemma PagesKept(s: Space, img: seq<nat>, h: Header, ss: seq<SectionHeader>, e: nat, root: nat, limit: nat, v: nat)
    requires root < s.next && FileIn(img, h, ss) && Accepted(img) && FileApart(img, h, ss, e, root, limit)
    requires e + FilePages(h) <= FRAMES && AfterSections(s, img, e).next <= limit
    requires !(root <= v < limit) && !Touched(img, h, ss, e, v)
    ensures var t := AfterLoad(s, img, e); (v in t.flat <==> v in s.flat) && (v in s.flat ==> t.flat[v] == s.flat[v])
  {
    hide FileIn, Accepted, AfterSections, AfterLoad, Wanted, Loadable, SectionAt, FileApart, SectionsApart;
    FileAgrees(img, h, ss);
    ApartAgrees(img, h, ss, e, root, limit);
    forall j | 0 <= j < Shnum(img) && Loadable(img, j)
      ensures !(SectionAt(img, j).First() <= v < SectionAt(img, j).End())
    {
      assert Agrees(img, h, ss, j);
    }
    LoadKeepsOthers(s, img, e, root, limit, v);
  }

  // ---------- when a load faults ----------

  /** The whole-page copies of section `c` end inside the image. */
  predicate CopyInside(img: seq<nat>, c: SectionHeader) {
    c.size == 0 || c.offset + 0x1000 * ((c.size + 0xFFF) / 0x1000) <= |img|
  }

  /** No page that such a copy could touch behind the image is mapped, or comes to be. */
  ghost predicate NothingAfter(s: Space, img: seq<nat>, h: Header, ss: seq<SectionHeader>, e: nat, root: nat,
                               limit: nat)
  {
    forall i, w: nat | 0 <= i < |ss| && Wanted(img, h, ss, i) && Behind(e, FilePages(h), ss[i].Used(), w) ::
      w !in s.flat && !(root <= w < limit) && !Touched(img, h, ss, e, w)
  }

  lemma {:induction false} ImageMappedMaps(s: Space, e: nat, p: nat, root: nat, limit: nat)
    requires root <= s.next && ImageMapped(s, e, p).next <= limit && e + p <= FRAMES && Apart(e, e + p, root, limit)
    ensures MapsImage(ImageMapped(s, e, p), e, p)
  {
    hide Shr, Low, Vpn, Mapped, PageWord;
    if p > 0 {
      ImageGrows(s, e, p - 1, p);
      ImageMappedMaps(s, e, p - 1, root, limit);
      VpnAt(e + p - 1);
      MappedPage(ImageMapped(s, e, p - 1), root, limit, At(e + p - 1), At(e + p - 1), PTE_USER_RW);
    }
  }

  lemma OutsideSections(img: seq<nat>, h: Header, ss: seq<SectionHeader>, e: nat, v: nat)
    requires !Touched(img, h, ss, e, v)
    ensures forall j | 0 <= j < |ss| && Wanted(img, h, ss, j) :: !(FirstPage(ss[j]) <= v < EndPage(ss[j]))
  {
    hide Wanted;
  }

  /** Loading the first `n` sections leaves a page outside them as it was. */
  lemma SectionsAvoid(m: Space, img: seq<nat>, h: Header, ss: seq<SectionHeader>, e: nat, root: nat, limit: nat,
                      n: nat, v: nat)
    requires FileIn(img, h, ss) && Accepted(img) && FileApart(img, h, ss, e, root, limit)
    requires root < m.next && n <= h.shnum && SectionsLoaded(m, img, n).next <= limit && !(root <= v < limit)
    requires forall j | 0 <= j < |ss| && Wanted(img, h, ss, j) :: !(FirstPage(ss[j]) <= v < EndPage(ss[j]))
    ensures var t := SectionsLoaded(m, img, n);
            (v in t.flat <==> v in m.flat) && (v in m.flat ==> t.flat[v] == m.flat[v])
  {
    hide FileIn, Accepted, Wanted, Loadable, SectionAt, FileApart, SectionsApart, SectionsLoaded;
    FileAgrees(img, h, ss);
    ApartAgrees(img, h, ss, e, root, limit);
    forall j | 0 <= j < n && Loadable(img, j)
      ensures !(SectionAt(img, j).First() <= v < SectionAt(img, j).End())
    {
      assert Agrees(img, h, ss, j);
    }
    SectionsFlat(m, img, n, e, root, limit, v);
  }

  /** The image stays mapped while its sections are loaded. */
  lemma StillMapped(m: Space, img: seq<nat>, h: Header, ss: seq<SectionHeader>, e: nat, root: nat, limit: nat, n: nat)
    requires FileIn(img, h, ss) && Accepted(img) && FileApart(img, h, ss, e, root, limit)
    requires root < m.next && n <= h.shnum && SectionsLoaded(m, img, n).next <= limit && root < limit
    requires Apart(e, e + FilePages(h), root, limit) && MapsImage(m, e, FilePages(h))
    ensures MapsImage(SectionsLoaded(m, img, n), e, FilePages(h))
  {
    hide FileIn, Accepted, Wanted, SectionsLoaded, PageWord;
    var t := SectionsLoaded(m, img, n);
    forall v | e <= v < e + FilePages(h)
      ensures v in t.flat && t.flat[v] == PageWord(0x1000 * v, PTE_USER_RW)
    {
      SectionsAvoid(m, img, h, ss, e, root, limit, n, v);
    }
  }

  /** A section whose turn comes faults if and only if its copies run past the image. */
  lemma FaultsAt(s: Space, img: seq<nat>, h: Header, ss: seq<SectionHeader>, e: nat, root: nat, limit: nat, i: nat)
    requires FileIn(img, h, ss) && Accepted(img) && FileApart(img, h, ss, e, root, limit)
    requires Apart(e, e + FilePages(h), root, limit) && e + FilePages(h) <= FRAMES && root < limit && root < s.next
    requires AfterSections(s, img, e).next <= limit
    requires NothingAfter(s, img, h, ss, e, root, limit) && i < h.shnum && Wanted(img, h, ss, i)
    ensures SectionSource(SectionsLoaded(ImageMapped(s, e, ImagePages(img)), img, i), e, SectionAt(img, i)) <==>
            CopyInside(img, ss[i])
  {
    hide FileIn, Accepted, Wanted, Loadable, SectionAt, FileApart, SectionsApart, SectionSource, ImageMapped,
         SectionsLoaded, Heaped, MapsImage, NothingAfter, NothingBehind, At, Apart, WellFormed, CopyInside;
    FileAgrees(img, h, ss);
    assert Agrees(img, h, ss, i);
    ApartAgrees(img, h, ss, e, root, limit);
    var c, p := SectionAt(img, i), ImagePages(img);
    var m := ImageMapped(s, e, p);
    RoomAt(s, img, e, i);
    ImageMappedMaps(s, e, p, root, limit);
    StillMapped(m, img, h, ss, e, root, limit, i);
    ClearAt(img, e, root, limit, i);
    NothingBehindAt(s, img, h, ss, e, root, limit, i);
    CopyCounts(img, ss[i]);
    SectionFaultsIff(SectionsLoaded(m, img, i), e, p, root, limit, c);
  }

  lemma CopyCounts(img: seq<nat>, c: SectionHeader)
    ensures CopyInside(img, c) <==> c.Used().Count() == 0 || c.offset + 0x1000 * c.Used().Count() <= |img|
  {
    PagesCover(c.size, 0);
  }

  lemma ClearAt(img: seq<nat>, e: nat, root: nat, limit: nat, i: nat)
    requires SectionsApart(img, e, root, limit) && i < Shnum(img) && Loadable(img, i)
    ensures SectionClear(SectionAt(img, i), e, ImagePages(img), root, limit)
  {
    hide SectionAt, Loadable, SectionClear;
  }

  /** The pool's use up to the end of section `i`. */
  lemma RoomAt(s: Space, img: seq<nat>, e: nat, i: nat)
    requires i < Shnum(img)
    ensures var m := ImageMapped(s, e, ImagePages(img));
            var t, c := SectionsLoaded(m, img, i), SectionAt(img, i);
            && s.next <= m.next <= t.next <= AfterSections(s, img, e).next
            && (Loadable(img, i) ==> Heaped(t, At(c.First()), c.Count()).next <= AfterSections(s, img, e).next)
  {
    hide Loadable, SectionAt, ImageMapped, SectionsLoaded, Heaped, At, ImagePages, Shnum;
    var p := ImagePages(img);
    var m := ImageMapped(s, e, p);
    ImageGrows(s, e, 0, p);
    ImageStep(s, e, 0);
    SectionsGrow(m, img, 0, i);
    SectionsStep(m, img, 0);
    SectionsGrow(m, img, i, Shnum(img));
    SectionsGrow(m, img, i + 1, Shnum(img));
    SectionsStep(m, img, i);
  }

  lemma NothingBehindAt(s: Space, img: seq<nat>, h: Header, ss: seq<SectionHeader>, e: nat, root: nat, limit: nat,
                        i: nat)
    requires FileIn(img, h, ss) && Accepted(img) && FileApart(img, h, ss, e, root, limit) && root < s.next
    requires e + FilePages(h) <= FRAMES && AfterSections(s, img, e).next <= limit
    requires NothingAfter(s, img, h, ss, e, root, limit) && i < h.shnum && Wanted(img, h, ss, i)
    ensures var t := SectionsLoaded(ImageMapped(s, e, ImagePages(img)), img, i);
            NothingBehind(t, e, ImagePages(img), root, limit, SectionAt(img, i))
  {
    hide FileIn, Accepted, Wanted, Loadable, SectionAt, FileApart, ImageMapped, SectionsLoaded, Heaped, Touched, At;
    FileAgrees(img, h, ss);
    assert Agrees(img, h, ss, i);
    var c, p := SectionAt(img, i), ImagePages(img);
    var m := ImageMapped(s, e, p);
    var t := SectionsLoaded(m, img, i);
    RoomAt(s, img, e, i);
    forall w: nat | Behind(e, p, c, w)
      ensures w !in t.flat && !(root <= w < limit) && !(c.First() <= w < c.End())
    {
      assert !Touched(img, h, ss, e, w);
      OutsideSections(img, h, ss, e, w);
      ImageMappedFlat(s, e, p, root, limit, w);
      SectionsAvoid(m, img, h, ss, e, root, limit, i, w);
    }
  }

  /** The whole load faults in a section if and only if some wanted section's copies run past the image. */
  lemma FaultsIff(s: Space, img: seq<nat>, h: Header, ss: seq<SectionHeader>, e: nat, root: nat, limit: nat)
    requires FileIn(img, h, ss) && Accepted(img) && FileApart(img, h, ss, e, root, limit)
    requires Apart(e, e + FilePages(h), root, limit) && e + FilePages(h) <= FRAMES && root < limit && root < s.next
    requires AfterSections(s, img, e).next <= limit && NothingAfter(s, img, h, ss, e, root, limit)
    ensures SectionsRead(ImageMapped(s, e, ImagePages(img)), img, e, Shnum(img)) <==>
            forall i | 0 <= i < |ss| && Wanted(img, h, ss, i) :: CopyInside(img, ss[i])
  {
    hide FileIn, Accepted, Loadable, SectionAt, FileApart, SectionSource, ImageMapped, SectionsLoaded, CopyInside,
         NothingAfter, NameAt, Spells;
    FileAgrees(img, h, ss);
    forall i | 0 <= i < h.shnum
      ensures Agrees(img, h, ss, i)
      ensures Wanted(img, h, ss, i) ==>
                (SectionSource(SectionsLoaded(ImageMapped(s, e, ImagePages(img)), img, i), e, SectionAt(img, i)) <==>
                 CopyInside(img, ss[i]))
    {
      if Wanted(img, h, ss, i) {
        FaultsAt(s, img, h, ss, e, root, limit, i);
      }
    }
  }

  // ---------- the loader ----------

  /** A load of the file with header `h` and section headers `ss`. What is not an ELF file for Arm stops the
      machine. Otherwise, unless a copy faults, the .text and .data sections end in place byte for byte, the
      file's own addresses are unmapped, and translation elsewhere is as it was. Where nothing lies behind the
      image, a copy faults if and only if a section's whole pages run past it. */
  method LoadFile(a: AddressSpace, elfbase: nat, ghost img: seq<nat>, ghost h: Header, ghost ss: seq<SectionHeader>)
      returns (r: Outcome)
    requires FileIn(img, h, ss)
    requires Ready(a, elfbase, img, 0) && ImagePlaced(a, elfbase, FilePages(h))
    requires ImageMapped(a.space, elfbase / 0x1000, 1).next <= a.limit
    requires IsElf(img) && ForArm(h) ==>
               && FileApart(img, h, ss, elfbase / 0x1000, a.root, a.limit)
               && AfterSections(a.space, img, elfbase / 0x1000).next <= a.limit
    modifies a.ram, a`nextPa, a`space
    ensures a.Valid({})
    ensures r == Halted <==> !(IsElf(img) && ForArm(h))
    ensures r.Loaded? || r.EntryFaults? ==>
              && InPlace(a.ram.words, a.root, img, h, ss) && FileGone(a.ram.words, a.root, elfbase, h)
              && (forall x: nat, write: bool |
                    !(a.root <= Vpn(x) < a.limit) && !Touched(img, h, ss, elfbase / 0x1000, Vpn(x)) ::
                    Translate(a.ram.words, a.root, x, write) == Translate(old(a.ram.words), a.root, x, write))
    ensures r.Loaded? ==> FileLength(h) == 0 && r.entry == h.entry
    ensures r.EntryFaults? ==> FileLength(h) != 0
    ensures IsElf(img) && ForArm(h) && NothingAfter(old(a.space), img, h, ss, elfbase / 0x1000, a.root, a.limit) ==>
              (r == SectionFaults <==> exists i :: 0 <= i < |ss| && Wanted(img, h, ss, i) && !CopyInside(img, ss[i]))
  {
    hide Inv, FileIn, Accepted, AfterSections, AfterLoad, Wanted, FileApart, Ready, SectionsApart, WellFormed, IsElf,
         ImageMapped, SectionsRead, SectionDone, Loadable, InPlace, FileGone, Touched, NothingAfter, Translate, Vpn,
         CopyInside;
    ghost var e, m, s := elfbase / 0x1000, a.ram.words, a.space;
    assert a.Valid({}) && elfbase == At(e) by { ReadyBasics(a, elfbase, img, 0); }
    InvBasics(m, s, a.root, a.limit, {});
    FileAgrees(img, h, ss);
    if Accepted(img) {
      ApartAgrees(img, h, ss, e, a.root, a.limit);
      if NothingAfter(s, img, h, ss, e, a.root, a.limit) {
        RoomLeft(s, img, e, a.limit);
        FaultsIff(s, img, h, ss, e, a.root, a.limit);
      }
    }
    r := LoadEl0(a, elfbase, img);
    if r.Loaded? || r.EntryFaults? {
      SectionsInPlace(a, img, h, ss, e);
      FileUnmapped(a, s, elfbase, img, h, ss);
      OthersStay(a, m, s, e, img, h, ss);
    }
  }

  lemma ReadyBasics(a: AddressSpace, elfbase: nat, img: seq<nat>, p: nat)
    requires Ready(a, elfbase, img, p)
    ensures a.Valid({}) && elfbase == At(elfbase / 0x1000)
  {
    hide Inv;
  }

  lemma RoomLeft(s: Space, img: seq<nat>, e: nat, limit: nat)
    requires AfterSections(s, img, e).next <= limit
    ensures s.next <= limit
  {
    hide ImageMapped, SectionsLoaded, ImagePages;
    var p := ImagePages(img);
    ImageGrows(s, e, 0, p);
    ImageStep(s, e, 0);
    SectionsGrow(ImageMapped(s, e, p), img, 0, Shnum(img));
    SectionsStep(ImageMapped(s, e, p), img, 0);
  }
}
