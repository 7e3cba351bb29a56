/** One translation regime: the memory manager's globals over raw memory. Every descriptor is loaded
    and stored through the very tables being edited. */
module AddressSpaces {
  import opened Bits
  import opened Vmsa
  import opened TableTree
  import opened Bytes
  import opened Memory
  import opened Heap

  class AddressSpace {
    const ram: Ram
    const base: nat  // mem_pgtbl_base
    var nextPa: nat  // mem_next_pa
    var heapPool: nat  // mem_heap_pool
    ghost const root: nat  // base, in frames
    ghost const limit: nat  // the end of the pool, in frames
    ghost var space: Space

    /** `taken`: frames allocated but not yet put to use. */
    ghost predicate Valid(taken: set<nat>)
      reads this, ram
    {
      && nextPa == 0x1000 * space.next
      && base == 0x1000 * root
      && Inv(ram.words, space, root, limit, taken)
    }

    /** An access from EL0 to the byte at `base + k` reaches its place in frame `f`. */
    ghost predicate OpenAt(base: nat, k: nat, write: bool, f: nat)
      reads this, ram
    {
      TranslateEl0(ram.words, root, base + k, write) == Some(0x1000 * f + k % 0x1000)
    }

    /** Takes over from the boot code: its table root, its pool pointer and the memory it set up. */
    constructor (ram: Ram, base: nat, nextPa: nat, heapPool: nat, ghost limit: nat, ghost space: Space)
      requires base == 0x1000 * (base / 0x1000) && nextPa == 0x1000 * space.next
      requires Inv(ram.words, space, base / 0x1000, limit, {})
      ensures Valid({})
      ensures this.base == base && this.ram == ram && this.heapPool == heapPool
      ensures this.root == base / 0x1000 && this.limit == limit && this.space == space
    {
      this.base := base;
      this.nextPa := nextPa;
      this.heapPool := heapPool;
      this.ram := ram;
      this.root := base / 0x1000;
      this.limit := limit;
      this.space := space;
    }

    /** `*pte` as a value: a load through the page tables, reaching entry `i` of frame `f`. */
    method Load(pte: nat, ghost f: nat, ghost i: nat) returns (w: nat)
      requires i < 512 && 512 * f + i < |ram.words|
      requires base == 0x1000 * root
      requires Translate(ram.words, root, pte, false) == Some(0x1000 * f + 8 * i)
      ensures w == Entry(ram.words, f, i)
    {
      hide Translate;
      var pa := Translate(ram.words, base / 0x1000, pte, false).value;
      w := ram.words[pa / 8];
    }

    /** `*pte = w`: a store through the page tables, reaching entry `i` of frame `f`. */
    method Store(pte: nat, w: nat, ghost f: nat, ghost i: nat)
      requires i < 512 && 512 * f + i < |ram.words|
      requires base == 0x1000 * root
      requires Translate(ram.words, root, pte, true) == Some(0x1000 * f + 8 * i)
      modifies ram
      ensures ram.words == old(ram.words)[512 * f + i := w]
    {
      hide Translate;
      var pa := Translate(ram.words, base / 0x1000, pte, true).value;
      ram.words := ram.words[pa / 8 := w];
    }

    method LoadByte(va: nat, ghost f: nat, ghost o: nat) returns (b: nat)
      requires o < 0x1000 && 512 * f + o / 8 < |ram.words|
      requires base == 0x1000 * root
      requires Translate(ram.words, root, va, false) == Some(0x1000 * f + o)
      ensures b == FrameByte(ram.words, f, o)
    {
      hide Byte, Translate;
      var pa := Translate(ram.words, base / 0x1000, va, false).value;
      assert pa / 8 == 512 * f + o / 8 && pa % 8 == o % 8;
      b := Byte(ram.words[pa / 8], pa % 8);
    }

    method StoreByte(va: nat, b: nat, ghost f: nat, ghost o: nat)
      requires Valid({}) && f in space.data
      requires o < 0x1000 && b < 0x100 && 512 * f + o / 8 < |ram.words|
      requires Translate(ram.words, root, va, true) == Some(0x1000 * f + o)
      modifies ram
      ensures Valid({}) && WritesByte(old(ram.words), ram.words, f, o, b)
    {
      hide Byte, Translate, Inv, SetByte;
      ghost var m0 := ram.words;
      var pa := Translate(ram.words, base / 0x1000, va, true).value;
      assert pa / 8 == 512 * f + o / 8 && pa % 8 == o % 8;
      ram.words := ram.words[pa / 8 := SetByte(ram.words[pa / 8], pa % 8, b)];
      StoredByte(m0, ram.words, f, o, b);
      DataStoreKeepsInv(m0, ram.words, space, root, limit, {}, f, o / 8, SetByte(Entry(m0, f, o / 8), o % 8, b));
    }

    method AllocatePa(ghost taken: set<nat>) returns (next: nat)
      requires Valid(taken) && space.next < limit
      modifies this`nextPa, this`space
      ensures next == 0x1000 * old(space.next)
      ensures space == old(space).(next := old(space.next) + 1)
      ensures Valid(taken + {old(space.next)})
    {
      hide Inv;
      TakeKeepsInv(ram.words, space, root, limit, taken);
      next := nextPa;
      nextPa := nextPa + PAGE_SIZE;
      space := space.(next := space.next + 1);
    }

    /** The body of the walk's `if (!(*pte & 0x1))`: takes a pool page, maps it at its own address and
        only then links it below table `k` at the entry `pte` points to. */
    method AddTable(pte: nat, tblattr: nat, va: nat, ghost level: nat, ghost taken: set<nat>) returns (pa: nat)
      requires Valid(taken) && LowAttr(tblattr)
      requires level < 3 && space.next < limit
      requires Path(va, level) in space.tables && Path(va, level + 1) !in space.tables
      requires pte == Or(0x1000 * space.tables[Path(va, level)], 8 * Index(va, level))
      modifies ram, this`nextPa, this`space
      ensures Valid(taken)
      ensures pa == 0x1000 * old(space.next)
      ensures space == Extended(old(space), va, level + 1)
      ensures OnlyTables(old(ram.words), ram.words, space.tables)
      decreases 1, 0
    {
      hide Shr, Low, Or, Shl, Bit, Inv, Translate, OnlyTables, EntryMatches, Path, Index, Missing, Grown, Frame,
           HwWritable, HwTable, WritesOne;
      ghost var s0, m0, n := space, ram.words, space.next;
      ghost var k, i := Path(va, level), Index(va, level);
      ghost var f := space.tables[k];
      PoolFrameCovered(ram.words, space, root, limit, taken);
      ConstantBits();
      pa := AllocatePa(taken);
      MapPa(pa, pa, 0, PTE_USER_RW, taken + {n});
      ghost var s1, m1 := space, ram.words;
      SlotReachable(m1, s1, root, limit, taken + {n}, va, level);
      Store(pte, pa, f, i);
      ghost var m2 := ram.words;
      NotYetLinked(m1, m2, s1, root, limit, taken + {n}, va, level, n);
      SlotReachable(m2, s1, root, limit, taken + {n}, va, level);
      var w := Load(pte, f, i);
      Store(pte, Or(w, Or(PTE_TABLE, tblattr)), f, i);
      Linked(m2, ram.words, s1, root, limit, taken, va, level, n, tblattr);
      space := space.(tables := space.tables[Path(va, level + 1) := n]);
      OnlyTablesTrans(m0, m1, m2, s1.tables, s1.tables);
      OnlyTablesTrans(m0, m2, ram.words, s1.tables, space.tables);
    }

    /** Maps the page of `va` to the page of `paddr`. Each missing table is taken from the pool, mapped
        at its own address by a call of this method, and then linked. */
    method MapPa(va: nat, paddr: nat, tblattr: nat, pgattr: nat, ghost taken: set<nat>)
      requires Valid(taken)
      requires LowAttr(tblattr) && LowAttr(pgattr)
      requires space.next + Missing(space, va, 3) <= limit
      requires Vpn(va) !in space.tables.Values
      requires !(space.next <= Vpn(va) < space.next + Missing(space, va, 3))
      modifies ram, this`nextPa, this`space
      ensures Valid(taken)
      ensures space == Mapped(old(space), va, paddr, pgattr)
      ensures OnlyTables(old(ram.words), ram.words, space.tables)
      decreases if Missing(space, va, 3) == 0 then 0 else 1, 1
    {
      hide Shr, Low, Or, Shl, Bit, Inv, Translate, OnlyTables, EntryMatches, Path, Index, Missing, Grown, Frame,
           HwWritable, HwTable, WritesOne;
      ghost var s0 := space;
      ghost var m0 := ram.words;
      var pa := base;
      var i := 0;
      PathEnds(va);
      InvBasics(ram.words, space, root, limit, taken);
      OnlyTablesRefl(ram.words, space.tables);
      GrownZero(s0, va);
      while i < 3
        invariant i <= 3 && Valid(taken)
        invariant space == Grown(s0, va, i)
        invariant Path(va, i) in space.tables && pa == 0x1000 * space.tables[Path(va, i)]
        invariant OnlyTables(m0, ram.words, space.tables)
      {
        ghost var k, ix := Path(va, i), Index(va, i);
        ghost var f := space.tables[k];
        SlotReachable(ram.words, space, root, limit, taken, va, i);
        EntryChild(space, k, ix, Entry(ram.words, f, ix));
        GrownStep(s0, va, i);
        PathStep(va, i);
        var pte := Or(pa, 8 * Index(va, i));
        var w := Load(pte, f, ix);
        if !Vmsa.Valid(w) {
          ghost var s1, m1 := space, ram.words;
          pa := AddTable(pte, tblattr, va, i, taken);
          OnlyTablesTrans(m0, m1, ram.words, s1.tables, space.tables);
        } else {
          w := Load(pte, f, ix);
          pa := Address(w);
        }
        i := i + 1;
      }
      SlotReachable(ram.words, space, root, limit, taken, va, 3);
      ghost var f, ix := space.tables[Path(va, 3)], Index(va, 3);
      ghost var s3, m3 := space, ram.words;
      GrownOffPage(s0, root, va);
      var pte := Or(pa, 8 * Index(va, 3));
      Store(pte, 0x1000 * Shr(paddr, 12), f, ix);
      ghost var m4 := ram.words;
      LeafWritten(m3, m4, s3, root, limit, taken, va, 0x1000 * Shr(paddr, 12));
      AlignedInvalid(Shr(paddr, 12));
      space := space.(flat := space.flat - {Vpn(va)});
      SlotReachable(ram.words, space, root, limit, taken, va, 3);
      var w := Load(pte, f, ix);
      Store(pte, Or(w, Or(Or(PTE_PAGE, PTE_ACCESS), pgattr)), f, ix);
      LeafWritten(m4, ram.words, space, root, limit, taken, va, PageWord(paddr, pgattr));
      PageWordReads(paddr, pgattr);
      space := space.(flat := space.flat[Vpn(va) := PageWord(paddr, pgattr)]);
      OnlyTablesTrans(m0, m3, m4, s3.tables, s3.tables);
      OnlyTablesTrans(m0, m4, ram.words, s3.tables, s3.tables);
    }

    method MapVa(addr: nat, tblattr: nat, pgattr: nat)
      requires Valid({})
      requires LowAttr(tblattr) && LowAttr(pgattr)
      requires MappedFresh(space, addr, pgattr).next <= limit
      requires Vpn(addr) !in space.tables.Values
      requires !(space.next <= Vpn(addr) < MappedFresh(space, addr, pgattr).next)
      modifies ram, this`nextPa, this`space
      ensures Valid({})
      ensures space == MappedFresh(old(space), addr, pgattr)
      ensures OnlyTables(old(ram.words), ram.words, space.tables)
    {
      hide Shr, Low, Or, Shl, Bit, Inv, OnlyTables, Missing, Grown, Vpn, PageWord;
      ghost var n := space.next;
      GrownCounts(Claimed(space), addr, 3);
      var pa := AllocatePa({});
      FreshFrame(ram.words, space, root, limit, n);
      space := space.(data := space.data + {n});
      MapPa(addr, pa, tblattr, pgattr, {});
    }

    /** -1 when the page is not mapped. */
    method UnmapVa(addr: nat) returns (r: int)
      requires Valid({})
      requires Vpn(addr) !in space.tables.Values
      modifies ram, this`space
      ensures Valid({})
      ensures r == if Vpn(addr) in old(space).flat then 0 else -1
      ensures space == Unmapped(old(space), addr)
      ensures r == -1 ==> ram.words == old(ram.words) && space == old(space)
      ensures OnlyTables(old(ram.words), ram.words, space.tables)
    {
      hide Shr, Low, Or, Shl, Bit, Inv, Translate, OnlyTables, EntryMatches, Path, Index, Frame, HwWritable, HwTable,
           Vpn;
      var pa := base;
      var pte := 0;
      var i := 0;
      PathEnds(addr);
      InvBasics(ram.words, space, root, limit, {});
      OnlyTablesRefl(ram.words, space.tables);
      while i < 4
        invariant i <= 4 && ram.words == old(ram.words) && space == old(space)
        invariant i < 4 ==> Path(addr, i) in space.tables && pa == 0x1000 * space.tables[Path(addr, i)]
        invariant i == 4 ==> Path(addr, 3) in space.tables && Vpn(addr) in space.flat
        invariant i == 4 ==> pte == Or(0x1000 * space.tables[Path(addr, 3)], 8 * Index(addr, 3))
      {
        ghost var f, ix := space.tables[Path(addr, i)], Index(addr, i);
        SlotReachable(ram.words, space, root, limit, {}, addr, i);
        WalkStep(ram.words, space, root, limit, {}, addr, i);
        pte := Or(pa, 8 * Index(addr, i));
        var w := Load(pte, f, ix);
        if !Vmsa.Valid(w) {
          assert Unmapped(space, addr).flat == space.flat;
          return -1;
        } else {
          w := Load(pte, f, ix);
          pa := Address(w);
        }
        i := i + 1;
      }
      SlotReachable(ram.words, space, root, limit, {}, addr, 3);
      ghost var m0 := ram.words;
      Store(pte, 0, space.tables[Path(addr, 3)], Index(addr, 3));
      LeafWritten(m0, ram.words, space, root, limit, {}, addr, 0);
      ZeroInvalid();
      space := Unmapped(space, addr);
      return 0;
    }

    /** The physical page of `va`, or -1. */
    method LookupPa(va: nat) returns (r: int)
      requires Valid({})
      ensures r == if Vpn(va) in space.flat then Address(space.flat[Vpn(va)]) else -1
      ensures Translate(ram.words, root, va, false).Some? ==>
                r >= 0 && Translate(ram.words, root, va, false) == Some(r + va % 0x1000)
    {
      hide Shr, Low, Or, Shl, Bit, Inv, Translate, EntryMatches, Path, Index, Frame, HwWritable, HwReadable, HwTable,
           Vpn;
      InvTree(ram.words, space, root, limit, {});
      LookupTranslates(ram.words, space, root, va);
      var pa := base;
      var i := 0;
      PathEnds(va);
      InvBasics(ram.words, space, root, limit, {});
      while i < 4
        invariant i <= 4
        invariant i < 4 ==> Path(va, i) in space.tables && pa == 0x1000 * space.tables[Path(va, i)]
        invariant i == 4 ==> Vpn(va) in space.flat && pa == Address(space.flat[Vpn(va)])
      {
        ghost var f, ix := space.tables[Path(va, i)], Index(va, i);
        SlotReachable(ram.words, space, root, limit, {}, va, i);
        WalkStep(ram.words, space, root, limit, {}, va, i);
        var pte := Or(pa, 8 * Index(va, i));
        var w := Load(pte, f, ix);
        if !Vmsa.Valid(w) {
          return -1;
        } else {
          w := Load(pte, f, ix);
          pa := Address(w);
        }
        i := i + 1;
      }
      return pa;
    }

    /** Maps the pages of `len` bytes at the top of the heap and returns their address. */
    method HeapAllocate(len: nat) returns (addr: nat)
      requires Valid({})
      requires Heaped(space, heapPool, Pages(len)).next <= limit
      requires forall j | 0 <= j < Pages(len) :: !(root <= Vpn(heapPool + 0x1000 * j) < limit)
      modifies this, ram
      ensures Valid({})
      ensures addr == old(heapPool) && heapPool == old(heapPool) + 0x1000 * Pages(len)
      ensures space == Heaped(old(space), addr, Pages(len))
      ensures OnlyTables(old(ram.words), ram.words, space.tables)
      // EL0 can use every byte of a whole-page heap
      ensures var v, n := addr / 0x1000, Pages(len);
              addr == At(v) && v + n <= PAGE_NUMBERS && (v + n <= root || limit <= v) ==>
                forall k: nat, write: bool | k < 0x1000 * n ::
                  OpenAt(addr, k, write, Backing(old(space), v, k / 0x1000))
    {
      hide Shr, Low, Or, Shl, Bit, Inv, OnlyTables, MappedFresh, Vpn, OpenAt, Backing, Heaped;
      addr := heapPool;
      HeapedZero(space, addr);
      ghost var s0, m0, n := space, ram.words, 0;
      var off := 0;
      OnlyTablesRefl(ram.words, space.tables);
      ConstantBits();
      while off < len
        invariant off == 0x1000 * n && n <= Pages(len)
        invariant heapPool == addr && Valid({}) && space == Heaped(s0, addr, n)
        invariant OnlyTables(m0, ram.words, space.tables)
      {
        ghost var s1, m1 := space, ram.words;
        HeapedGrows(s0, addr, n + 1, Pages(len));
        HeapedStep(s0, addr, n);
        TablesInPool(ram.words, space, root, limit);
        MapVa(heapPool + off, 0, PTE_USER_RW);
        FreshKeepsTables(s1, addr + off, PTE_USER_RW);
        OnlyTablesTrans(m0, m1, ram.words, s1.tables, space.tables);
        off := off + 0x1000;
        n := n + 1;
      }
      heapPool := heapPool + off;
      HeapOpened(m0, s0, addr, Pages(len));
    }

    lemma HeapOpened(m0: seq<nat>, s0: Space, addr: nat, n: nat)
      requires Valid({}) && Inv(m0, s0, root, limit, {}) && space == Heaped(s0, addr, n) && space.next <= limit
      ensures var v := addr / 0x1000;
              addr == At(v) && v + n <= PAGE_NUMBERS && (v + n <= root || limit <= v) ==>
                forall k: nat, write: bool | k < 0x1000 * n :: OpenAt(addr, k, write, Backing(s0, v, k / 0x1000))
    {
      hide Inv, Heaped, Backing, TranslateEl0;
      var v := addr / 0x1000;
      if addr == At(v) && v + n <= PAGE_NUMBERS && (v + n <= root || limit <= v) {
        InvTree(m0, s0, root, limit, {});
        InvBasics(m0, s0, root, limit, {});
        forall k: nat, write: bool | k < 0x1000 * n
          ensures OpenAt(addr, k, write, Backing(s0, v, k / 0x1000))
        {
          HeapUsable(ram.words, s0, root, limit, v, n, k, write);
        }
      }
    }
  }
}
