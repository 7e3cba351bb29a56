/** From reset to a running memory manager: the boot scripts of EL1 and EL3, and the start of EL1. */
module Startup {
  import opened Bits
  import opened Vmsa
  import opened TableTree
  import opened Bytes
  import opened AddressSpaces
  import opened Heap
  import opened Boot
  import opened Scripts
  import opened PageRanges
  import opened Memory

  /** Zeroed memory, a region that stays inside one 2 MB block, and a script that fits. */
  ghost predicate CanBoot(memory: seq<nat>, l: Layout, limit: nat, before: seq<Step>, after: seq<Step>) {
    var root := l.pgtblBase / 0x1000;
    && l.pgtblBase == At(root)
    && root + REGION_PAGES <= limit <= 512 * ((root + REGION_PAGES - 1) / 512) + 512
    && limit <= FRAMES && 512 * limit <= |memory|
    && (forall f | root <= f < limit :: ZeroFrame(memory, f))
    && (forall k | 0 <= k < |after| :: Avoids(after[k], root, root + REGION_PAGES))
    && StepsDone(Blank(root), before + [Region(l)] + after).next <= root + REGION_PAGES
  }

  /** Runs a boot script over zeroed memory and hands the result to the memory manager. */
  method BootWith(ram: Ram, l: Layout, ghost limit: nat, before: seq<Step>, after: seq<Step>) returns (a: AddressSpace)
    requires CanBoot(ram.words, l, limit, before, after)
    requires forall k | 0 <= k < |before| :: before[k].Ok()
    requires forall k | 0 <= k < |after| :: after[k].Ok()
    modifies ram
    ensures fresh(a) && a.Valid({}) && a.limit == limit && a.base == l.pgtblBase && a.heapPool == l.heapBase
    ensures a.space == StepsDone(Blank(l.pgtblBase / 0x1000), before + [Region(l)] + after) && a.space.next <= limit
    ensures a.root == l.pgtblBase / 0x1000 && a.ram == ram && OutsideKept(old(ram.words), ram.words, a.root, a.limit)
  {
    hide OutsideKept, Shr, Low, Or, Shl, Bit, StepDone, Core, Inv, PageProp, ZeroFrame;
    var b := new BootMapper(ram, l.pgtblBase, limit);
    var steps := before + [Region(l)] + after;
    PropsOk();
    BitZero();
    forall k | 0 <= k < |steps| ensures steps[k].Ok() {
      if k < |before| { assert steps[k] == before[k]; }
      else if k > |before| { assert steps[k] == after[k - |before| - 1]; }
    }
    b.Run(steps);
    BootEstablishes(ram.words, Blank(b.root), b.root, limit, before, PRIV_RW, after);
    a := new AddressSpace(ram, b.base, b.pool, l.heapBase, limit, b.space);
  }

  lemma BitZero()
    ensures Bit(PRIV_RW, 0) == 1 && Shr(PRIV_RW, 12) == 0
  {
  }

  method BootEl1(ram: Ram, l: Layout, ghost limit: nat) returns (a: AddressSpace)
    requires l.stackBase >= PAGE_SIZE && l.el0StackBase >= PAGE_SIZE
    requires CanBoot(ram.words, l, limit, El1Before(l), El1After(l))
    modifies ram
    ensures fresh(a) && a.Valid({}) && a.limit == limit && a.base == l.pgtblBase && a.heapPool == l.heapBase
    ensures a.space == StepsDone(Blank(l.pgtblBase / 0x1000), El1Script(l))
    ensures El1Separate(l) ==> El1Booted(ram.words, a.root, a.space.data, l)
    ensures a.root == l.pgtblBase / 0x1000 && a.ram == ram && OutsideKept(old(ram.words), ram.words, a.root, a.limit)
  {
    hide OutsideKept, StepsDone, PageProp, Inv, Region, El1Separate, El3Separate, El1Booted, El3Booted, Avoids;
    PropsOk();
    a := BootWith(ram, l, limit, El1Before(l), El1After(l));
    if El1Separate(l) {
      El1Leaves(ram.words, l, a.root, limit);
    }
  }

  method BootEl3(ram: Ram, l: Layout, ghost limit: nat) returns (a: AddressSpace)
    requires l.stackBase >= PAGE_SIZE
    requires CanBoot(ram.words, l, limit, El3Before(l), El3After(l))
    modifies ram
    ensures fresh(a) && a.Valid({}) && a.limit == limit && a.base == l.pgtblBase && a.heapPool == l.heapBase
    ensures a.space == StepsDone(Blank(l.pgtblBase / 0x1000), El3Script(l))
    ensures El3Separate(l) ==> El3Booted(ram.words, a.root, a.space.data, l)
    ensures a.root == l.pgtblBase / 0x1000 && a.ram == ram && OutsideKept(old(ram.words), ram.words, a.root, a.limit)
  {
    hide OutsideKept, StepsDone, PageProp, Inv, Region, El1Separate, El3Separate, El1Booted, El3Booted, Avoids;
    PropsOk();
    a := BootWith(ram, l, limit, El3Before(l), El3After(l));
    if El3Separate(l) {
      El3Leaves(ram.words, l, a.root, limit);
    }
  }

  // ---------- the C entry points ----------

  /** Where a page number is mapped, or not. */
  ghost predicate Same(s: Space, t: Space, v: nat) {
    (v in t.flat <==> v in s.flat) && (v in s.flat ==> t.flat[v] == s.flat[v])
  }

  /** One page from the heap. */
  lemma OneHeapPage(s: Space, root: nat, limit: nat, v: nat)
    requires root <= s.next && s.next + 7 <= limit && v < PAGE_NUMBERS && !(root <= v < limit)
    ensures Pages(PAGE_SIZE) == 1
    ensures var t := Heaped(s, At(v), 1);
            && s.next < t.next <= s.next + 7 && t.data == s.data + {s.next}
            && v in t.flat && t.flat[v] == PageWord(0x1000 * s.next, PTE_USER_RW)
            && (forall w: nat | w != v && !(root <= w < limit) :: Same(s, t, w))
  {
    hide Shr, Low, Or, Shl, Bit, Vpn, PageWord, MappedFresh;
    HeapFits(s, v, 1);
    assert Most(1) == 7;
    HeapedStep(s, At(v), 0);
    HeapedZero(s, At(v));
    VpnAt(v);
    FreshPage(s, root, limit, At(v));
  }

  lemma PageAddress(f: nat)
    requires f < FRAMES
    ensures Address(PageWord(0x1000 * f, PTE_USER_RW)) == 0x1000 * f
  {
    hide Or, Shl;
    ConstantBits();
    VpnOfFrame(f);
    LowSmall(f, 24);
    PageWordReads(0x1000 * f, PTE_USER_RW);
  }

  /** Where a heap page and the init segment may lie. */
  ghost predicate HeapReady(a: AddressSpace, pages: nat)
    reads a, a.ram
  {
    var v := a.heapPool / 0x1000;
    && a.heapPool == At(v) && v + pages <= PAGE_NUMBERS && (v + pages <= a.root || a.limit <= v)
  }

  ghost predicate InitReady(a: AddressSpace, base: nat, size: nat)
    reads a, a.ram
  {
    var e, p := base / 0x1000, Pages(size);
    base == At(e) && e + p <= PAGE_NUMBERS && Apart(e, e + p, a.root, a.limit)
  }

  /** A word store to the mapped data page `v`. */
  method StoreWord(a: AddressSpace, v: nat, i: nat, w: nat, ghost f: nat)
    requires a.Valid({}) && v < PAGE_NUMBERS && i < 512
    requires v in a.space.flat && HwWritable(a.space.flat[v]) && Frame(a.space.flat[v]) == f && f in a.space.data
    requires a.space.next <= a.limit
    modifies a.ram
    ensures a.Valid({}) && WritesOne(old(a.ram.words), a.ram.words, f, i, w)
    ensures OutsideKept(old(a.ram.words), a.ram.words, a.root, a.limit)
  {
    hide Shr, Low, Or, Shl, Bit, Vpn, Inv, Translate, Frame, HwWritable, OutsideKept;
    ghost var m := a.ram.words;
    PageReachable(a, v, 8 * i);
    DataFrame(a.ram.words, a.space, a.root, a.limit, f);
    a.Store(At(v) + 8 * i, w, f, i);
    WriteEntry(m, f, i, w);
    OutsideRefl(m, a.root, a.limit);
    OutsideWrite(m, m, a.ram.words, a.root, a.limit, f, i, w);
    DataStoreKeepsInv(m, a.ram.words, a.space, a.root, a.limit, {}, f, i, w);
  }

  lemma DataFrame(mem: seq<nat>, s: Space, root: nat, limit: nat, f: nat)
    requires Inv(mem, s, root, limit, {}) && f in s.data && s.next <= limit
    ensures root <= f < limit && 512 * f + 511 < |mem|
  {
  }

  /** `mem_heap_allocate(PAGE_SIZE)`: one more page of the heap, on a fresh frame. */
  method HeapPage(a: AddressSpace) returns (addr: nat, ghost f: nat)
    requires a.Valid({}) && a.space.next + 7 <= a.limit && HeapReady(a, 1)
    modifies a, a.ram
    ensures a.Valid({}) && a.space.next <= old(a.space.next) + 7
    ensures addr == old(a.heapPool) && a.heapPool == addr + 0x1000
    ensures f == old(a.space.next) && a.root <= f < a.limit && f < a.space.next &&
              a.space.data == old(a.space.data) + {f}
    ensures addr / 0x1000 in a.space.flat && a.space.flat[addr / 0x1000] == PageWord(0x1000 * f, PTE_USER_RW)
    ensures forall w: nat | w != addr / 0x1000 && !(a.root <= w < a.limit) :: Same(old(a.space), a.space, w)
    ensures OutsideKept(old(a.ram.words), a.ram.words, a.root, a.limit)
  {
    hide Shr, Low, Or, Shl, Bit, Vpn, Inv, PageWord, Heaped, OnlyTables, MappedFresh, OutsideKept, OldFramesKept,
         Pages, Same;
    ghost var m, s, v := a.ram.words, a.space, a.heapPool / 0x1000;
    InvTree(m, s, a.root, a.limit, {});
    OneHeapPage(s, a.root, a.limit, v);
    HeapPageApart(a, v);
    addr := a.HeapAllocate(PAGE_SIZE);
    f := s.next;
    OutsideRefl(m, a.root, a.limit);
    HeapOutside(m, m, a.ram.words, s, a.space, a.root, a.limit);
  }

  /** el3_start and el3_monitor_init: unmaps the init segment, takes a page for the control block and one
      for the interop buffer, and records the buffer's two addresses in the control block. What EL1 of
      each world receives is the control block's physical address. */
  method El3Start(a: AddressSpace, base: nat, size: nat)
      returns (syscntlPa: nat, smcInteropBuf: nat, ghost f: nat, ghost g: nat)
    requires a.Valid({}) && a.space.next + 14 <= a.limit && HeapReady(a, 2) && InitReady(a, base, size)
    modifies a, a.ram
    ensures a.Valid({}) && a.space.next <= old(a.space.next) + 14
    ensures a.root <= f < a.limit && a.root <= g < a.limit && f != g && f in a.space.data && g in a.space.data
    ensures syscntlPa == At(f) && smcInteropBuf == old(a.heapPool) + 0x1000
    ensures Entry(a.ram.words, f, 0) == At(g) && Entry(a.ram.words, f, 1) == smcInteropBuf &&
              512 * f + 1 < |a.ram.words|
    ensures var v := smcInteropBuf / 0x1000; v in a.space.flat && a.space.flat[v] == PageWord(At(g), PTE_USER_RW)
    ensures forall v | base / 0x1000 <= v < base / 0x1000 + Pages(size) &&
              !(0 <= v - old(a.heapPool) / 0x1000 < 2) :: v !in a.space.flat
    ensures OutsideKept(old(a.ram.words), a.ram.words, a.root, a.limit)
  {
    hide Shr, Low, Or, Shl, Bit, Vpn, Inv, PageWord, Translate, Heaped, OnlyTables, MappedFresh, OutsideKept, Address,
         OldFramesKept, Frame, HwWritable, RangeUnmapped, Pages, WritesOne;
    ghost var m0, s0, v := a.ram.words, a.space, a.heapPool / 0x1000;
    InvTree(a.ram.words, a.space, a.root, a.limit, {});
    UnmapRange(a, base, size);
    OldFramesOutside(m0, a.ram.words, s0, a.root, a.limit);
    UnmappedPages(s0, base / 0x1000, Pages(size));
    ghost var m1, s1 := a.ram.words, a.space;
    var syscntl;
    syscntl, f := HeapPage(a);
    OutsideTrans(m0, m1, a.ram.words, a.root, a.limit);
    ghost var m2, s2 := a.ram.words, a.space;
    assert a.heapPool == At(v + 1);
    smcInteropBuf, g := HeapPage(a);
    OutsideTrans(m0, m2, a.ram.words, a.root, a.limit);
    assert Same(s2, a.space, v);
    UserPage(f);
    UserPage(g);
    PageAddress(f);
    PageAddress(g);
    VpnAt(v);
    VpnAt(v + 1);
    ghost var m3 := a.ram.words;
    StoreWord(a, syscntl / 0x1000, 1, smcInteropBuf, f);
    ghost var m4 := a.ram.words;
    OutsideTrans(m0, m3, m4, a.root, a.limit);
    var bufPa := a.LookupPa(smcInteropBuf);
    StoreWord(a, syscntl / 0x1000, 0, bufPa, f);
    OutsideTrans(m0, m4, a.ram.words, a.root, a.limit);
    WrittenPair(m3, m4, a.ram.words, f, bufPa, smcInteropBuf);
    DataFrame(a.ram.words, a.space, a.root, a.limit, f);
    DataFrame(a.ram.words, a.space, a.root, a.limit, g);
    syscntlPa := a.LookupPa(syscntl);
    forall w | base / 0x1000 <= w < base / 0x1000 + Pages(size) && !(0 <= w - v < 2)
      ensures w !in a.space.flat
    {
      assert w !in s1.flat;
      assert Same(s1, s2, w) && Same(s2, a.space, w);
    }
  }

  lemma WrittenPair(m0: seq<nat>, m1: seq<nat>, m2: seq<nat>, f: nat, x: nat, y: nat)
    requires WritesOne(m0, m1, f, 1, y) && WritesOne(m1, m2, f, 0, x)
    ensures Entry(m2, f, 0) == x && Entry(m2, f, 1) == y
  {
  }

  lemma HeapPageApart(a: AddressSpace, v: nat)
    requires v < PAGE_NUMBERS && !(a.root <= v < a.limit) && a.heapPool == At(v)
    ensures Pages(PAGE_SIZE) == 1 && Vpn(At(v)) == v
    ensures forall j | 0 <= j < 1 :: !(a.root <= Vpn(a.heapPool + 0x1000 * j) < a.limit)
  {
    hide Vpn;
    VpnAt(v);
  }

  lemma HeapOutside(m0: seq<nat>, m1: seq<nat>, m2: seq<nat>, s: Space, t: Space, root: nat, limit: nat)
    requires OutsideKept(m0, m1, root, limit) && OnlyTables(m1, m2, t.tables)
    requires Inv(m2, t, root, limit, {}) && s.data <= t.data
    ensures OutsideKept(m0, m2, root, limit)
  {
    hide Inv, OnlyTables, OutsideKept, OldFramesKept;
    TablesKeepFrames(m1, m2, s, t, root, limit);
    OldFramesOutside(m1, m2, s, root, limit);
    OutsideTrans(m0, m1, m2, root, limit);
  }

  /** el1_start up to EL0: unmaps the init segment, then joins the shared pages: a heap page is remapped
      to the control block whose physical address came from EL3, and the interop buffer named in that
      block is mapped at the address named there. */
  method El1Start(a: AddressSpace, base: nat, size: nat, syscntlPa: nat, ghost control: seq<nat>)
    returns (syscntl: nat, smcInteropBuf: nat)
    requires a.Valid({}) && a.space.next + 13 <= a.limit && HeapReady(a, 1) && InitReady(a, base, size)
    // the control block: buf_pa, then buf_va, in a page of memory outside the pool
    requires |control| == 2
    requires var f := syscntlPa / 0x1000;
             && syscntlPa == At(f) && !(a.root <= f < a.limit) && f < FRAMES && 512 * f + 1 < |a.ram.words|
             && Entry(a.ram.words, f, 0) == control[0] && Entry(a.ram.words, f, 1) == control[1]
    requires OffPool(a, control[1]) && Vpn(control[1]) != a.heapPool / 0x1000
    modifies a, a.ram
    ensures a.Valid({}) && a.space.next <= old(a.space.next) + 13
    ensures syscntl == old(a.heapPool) && smcInteropBuf == control[1]
    ensures Vpn(syscntl) in a.space.flat && a.space.flat[Vpn(syscntl)] == PageWord(syscntlPa, PTE_USER_RW)
    ensures Vpn(smcInteropBuf) in a.space.flat && a.space.flat[Vpn(smcInteropBuf)] == PageWord(control[0], PTE_USER_RW)
    ensures forall v | base / 0x1000 <= v < base / 0x1000 + Pages(size) && v != Vpn(syscntl) &&
              v != Vpn(smcInteropBuf) :: v !in a.space.flat
    // EL0 can use both pages
    ensures OpenPage(a.ram.words, a.root, syscntl, syscntlPa)
    ensures Vpn(control[0]) < FRAMES ==> OpenPage(a.ram.words, a.root, smcInteropBuf, control[0])
    ensures OutsideKept(old(a.ram.words), a.ram.words, a.root, a.limit)
  {
    hide Shr, Low, Or, Shl, Bit, Vpn, Inv, PageWord, Translate, Heaped, Mapped, OnlyTables, Missing, MappedFresh,
         OutsideKept, OldFramesKept, RangeUnmapped, Pages, OpenPage;
    ghost var m0, s0, f, v := a.ram.words, a.space, syscntlPa / 0x1000, a.heapPool / 0x1000;
    ConstantBits();
    InvTree(a.ram.words, a.space, a.root, a.limit, {});
    UnmapRange(a, base, size);
    OldFramesOutside(m0, a.ram.words, s0, a.root, a.limit);
    UnmappedPages(s0, base / 0x1000, Pages(size));
    ghost var m1, s1 := a.ram.words, a.space;
    ghost var frame;
    syscntl, frame := HeapPage(a);
    ghost var m2, s2 := a.ram.words, a.space;
    VpnAt(v);
    OutsideTrans(m0, m1, m2, a.root, a.limit);
    TablesInPool(a.ram.words, a.space, a.root, a.limit);
    MissingAtMost3(s2, syscntl);
    MappedAtMost3(s2, syscntl, syscntlPa, PTE_USER_RW);
    MappedPage(s2, a.root, a.limit, syscntl, syscntlPa, PTE_USER_RW);
    a.MapPa(syscntl, syscntlPa, 0, PTE_USER_RW, {});
    ghost var m3, s3 := a.ram.words, a.space;
    HeapOutside(m0, m2, m3, s2, s3, a.root, a.limit);
    TablesInPool(a.ram.words, a.space, a.root, a.limit);
    ControlKept(m0, m3, a.root, a.limit, f);
    ControlReachable(a, syscntl, syscntlPa);
    var bufVa := a.Load(syscntl + 8, f, 1);
    var bufPa := a.Load(syscntl, f, 0);
    MissingAtMost3(s3, bufVa);
    MappedAtMost3(s3, bufVa, bufPa, PTE_USER_RW);
    MappedPage(s3, a.root, a.limit, bufVa, bufPa, PTE_USER_RW);
    a.MapPa(bufVa, bufPa, 0, PTE_USER_RW, {});
    HeapOutside(m0, m3, a.ram.words, s3, a.space, a.root, a.limit);
    smcInteropBuf := bufVa;
    forall w | base / 0x1000 <= w < base / 0x1000 + Pages(size) && w != Vpn(syscntl) && w != Vpn(smcInteropBuf)
      ensures w !in a.space.flat
    {
      assert w !in s1.flat;
      assert Same(s1, s2, w);
      assert w !in s3.flat;
    }
    InvTree(a.ram.words, a.space, a.root, a.limit, {});
    VpnAt(f);
    UserOpens(a.ram.words, a.space, a.root, syscntl, syscntlPa);
    UserOpens(a.ram.words, a.space, a.root, smcInteropBuf, control[0]);
  }

  lemma ControlKept(mem: seq<nat>, mem': seq<nat>, root: nat, limit: nat, f: nat)
    requires OutsideKept(mem, mem', root, limit) && !(root <= f < limit)
    ensures |mem'| == |mem| && Entry(mem', f, 0) == Entry(mem, f, 0) && Entry(mem', f, 1) == Entry(mem, f, 1)
  {
    assert SameFrame(mem, mem', f);
  }

  lemma ControlReachable(a: AddressSpace, va: nat, pa: nat)
    requires a.Valid({}) && va == At(va / 0x1000) && va / 0x1000 < PAGE_NUMBERS
    requires pa == At(pa / 0x1000) && pa / 0x1000 < FRAMES
    requires Vpn(va) in a.space.flat && a.space.flat[Vpn(va)] == PageWord(pa, PTE_USER_RW)
    ensures Translate(a.ram.words, a.root, va, false) == Some(pa)
    ensures Translate(a.ram.words, a.root, va + 8, false) == Some(pa + 8)
  {
    hide Shr, Low, Or, Shl, Bit, Vpn, Inv, PageWord, Translate, Frame, HwReadable, HwWritable;
    InvTree(a.ram.words, a.space, a.root, a.limit, {});
    VpnAtOffset(va / 0x1000, 0);
    VpnAtOffset(va / 0x1000, 8);
    UserPage(pa / 0x1000);
    Writable(a.space.flat[Vpn(va)]);
    TranslateIsFlat(a.ram.words, a.space, a.root, va, false);
    TranslateIsFlat(a.ram.words, a.space, a.root, va + 8, false);
  }
}
