/** The two-level memory manager itself: its globals over raw memory, with every descriptor loaded and
    stored through the tables being edited. */
module ArmManager {
  import opened Bits
  import V = Vmsa
  import opened ArmTables

  // ---------- the new state of each call ----------

  /** A missing second-level table is taken from the pool and mapped at its own address. */
  function Grown(s: Space, va: nat): Space {
    if L1(va) in s.tables then s
    else Space(s.tables[L1(va) := s.next], s.flat[s.next := PageWord(0x1000 * s.next, PTE_USER_RW)], s.next + 1)
  }

  function Mapped(s: Space, va: nat, pa: nat, attr: nat): Space {
    var t := Grown(s, va);
    t.(flat := t.flat[Vpn(va) := PageWord(pa, attr)])
  }

  function MappedFresh(s: Space, va: nat, attr: nat): Space {
    Mapped(s.(next := s.next + 1), va, 0x1000 * s.next, attr)
  }

  function Unmapped(s: Space, va: nat): Space {
    s.(flat := s.flat - {Vpn(va)})
  }

  /** Memory outside the tables keeps its contents. */
  ghost predicate OnlyTables(mem: seq<nat>, mem': seq<nat>, s: Space, root: nat) {
    && |mem'| == |mem|
    && forall k | 0 <= k < |mem| && mem'[k] != mem[k] :: TableFrame(s, root, k / 1024)
  }

  // ---------- steps of the methods ----------

  lemma FrameFacts(f: nat)
    requires f < V.FRAMES
    ensures Vpn(0x1000 * f) == f && L1(0x1000 * f) == Owner(f) && Shr(0x1000 * f, 32) == 0
    ensures Shr(0x1000 * f, 12) == f
  {
    InPage(f, 0);
    Split(0x1000 * f);
    ShiftPage(f);
    ShlBits(f, 12, 0);
  }

  lemma AlignedAbsent(f: nat)
    ensures Bit(0x1000 * f, 0) == 0 && Bit(0x1000 * f, 1) == 0 && !Present(0x1000 * f)
  {
    ShiftPage(f);
    ShlBits(f, 12, 0);
    ShlBits(f, 12, 1);
  }

  /** The next pool frame, once taken: a second-level table for its own address exists, and it is
      neither a table nor the first-level table. */
  lemma PoolFrame(mem: seq<nat>, s: Space, root: nat, limit: nat, taken: set<nat>)
    requires Inv(mem, s, root, limit, taken) && s.next < limit
    ensures L1(0x1000 * s.next) in s.tables && s.next < V.FRAMES
    ensures !TableFrame(s, root, s.next) && s.next !in taken
  {
    hide L1, Owner, Shr, Vpn, Low, Represents, SelfMapped;
    FrameFacts(s.next);
    assert Owner(s.next) in s.tables;
  }

  lemma FewerTaken(mem: seq<nat>, s: Space, root: nat, limit: nat, taken: set<nat>, fewer: set<nat>)
    requires Inv(mem, s, root, limit, taken) && fewer <= taken
    ensures Inv(mem, s, root, limit, fewer)
  {
  }

  lemma OneWritten(mem: seq<nat>, mid: seq<nat>, mem': seq<nat>, s: Space, t: Space, root: nat, f: nat, i: nat, w: nat)
    requires OnlyTables(mem, mid, s, root) && WritesOne(mid, mem', f, i, w)
    requires (f == root && i < 4096) || (i < 1024 && f in t.tables.Values)
    requires s.tables.Values <= t.tables.Values
    ensures OnlyTables(mem, mem', t, root)
  {
    forall k | 0 <= k < |mem| && mem'[k] != mem[k]
      ensures TableFrame(t, root, k / 1024)
    {
      if k == 1024 * f + i {
        assert root <= k / 1024 < root + 4 || k / 1024 == f;
      } else {
        assert TableFrame(s, root, k / 1024);
      }
    }
  }

  lemma OnlyTablesGrows(mem: seq<nat>, mem': seq<nat>, s: Space, t: Space, root: nat)
    requires OnlyTables(mem, mem', s, root) && s.tables.Values <= t.tables.Values
    ensures OnlyTables(mem, mem', t, root)
  {
    forall k | 0 <= k < |mem| && mem'[k] != mem[k]
      ensures TableFrame(t, root, k / 1024)
    {
      assert TableFrame(s, root, k / 1024);
    }
  }

  lemma BothTables(m0: seq<nat>, m1: seq<nat>, m2: seq<nat>, s: Space, t: Space, root: nat)
    requires OnlyTables(m0, m1, s, root) && OnlyTables(m1, m2, t, root) && s.tables.Values <= t.tables.Values
    ensures OnlyTables(m0, m2, t, root)
  {
    forall k | 0 <= k < |m0| && m2[k] != m0[k]
      ensures TableFrame(t, root, k / 1024)
    {
      assert m1[k] != m0[k] ==> TableFrame(s, root, k / 1024);
    }
  }

  lemma LinkedValues(s: Space, i: nat, f: nat)
    requires i !in s.tables
    ensures (s.tables[i := f]).Values == s.tables.Values + {f}
  {
    var t := s.tables[i := f];
    assert t[i] == f;
    forall g <- s.tables.Values
      ensures g in t.Values
    {
      var k :| k in s.tables && s.tables[k] == g;
      assert t[k] == g;
    }
  }

  lemma MapsItselfWord(s: Space, n: nat)
    requires n < V.FRAMES && n in s.flat && s.flat[n] == PageWord(0x1000 * n, PTE_USER_RW)
    ensures MapsItself(s, n)
  {
    hide Shr, Low, Or, Bit, PageWord, HwWritable, Frame, LowAttr;
    Constants();
    FrameFacts(n);
    PageWordReads(0x1000 * n, PTE_USER_RW);
  }

  /** `(*pte & 0xFFFFF000) | (addr & 0xFFF)` */
  lemma WithOffset(f: nat, off: nat)
    requires off < 0x1000
    ensures Or(0x1000 * f, off) == 0x1000 * f + off
  {
    ShiftPage(f);
    ShiftPage(1);
    SplitAt(off, 12);
    OrAligned(f, off, 12);
  }

  class Manager {
    const base: nat  // mem_pgtbl_base
    var nextPa: nat  // mem_next_pa
    var mem: seq<nat>  // physical memory, in 32-bit words
    ghost const root: nat
    ghost const limit: nat
    ghost var space: Space

    ghost predicate Valid(taken: set<nat>)
      reads this
    {
      && nextPa == 0x1000 * space.next
      && base == 0x1000 * root && root % 4 == 0
      && Inv(mem, space, root, limit, taken) && Clean(mem, space)
    }

    constructor (base: nat, nextPa: nat, mem: seq<nat>, ghost limit: nat, ghost space: Space)
      requires base == 0x1000 * (base / 0x1000) && base / 0x1000 % 4 == 0 && nextPa == 0x1000 * space.next
      requires Inv(mem, space, base / 0x1000, limit, {}) && Clean(mem, space)
      ensures Valid({})
      ensures this.base == base && this.mem == mem && this.root == base / 0x1000
      ensures this.limit == limit && this.space == space
    {
      this.base := base;
      this.nextPa := nextPa;
      this.mem := mem;
      this.root := base / 0x1000;
      this.limit := limit;
      this.space := space;
    }

    method Load(pte: nat, ghost f: nat, ghost i: nat) returns (w: nat)
      requires 1024 * f + i < |mem| && base == 0x1000 * root
      requires Translate(mem, root, pte, false) == V.Some(0x1000 * f + 4 * i)
      ensures w == Entry(mem, f, i)
    {
      hide Translate;
      var pa := Translate(mem, base / 0x1000, pte, false).value;
      w := mem[pa / 4];
    }

    method Store(pte: nat, w: nat, ghost f: nat, ghost i: nat)
      requires 1024 * f + i < |mem| && base == 0x1000 * root
      requires Translate(mem, root, pte, true) == V.Some(0x1000 * f + 4 * i)
      modifies this`mem
      ensures WritesOne(old(mem), mem, f, i, w)
    {
      hide Translate;
      var pa := Translate(mem, base / 0x1000, pte, true).value;
      mem := mem[pa / 4 := w];
    }

    method AllocatePa(ghost taken: set<nat>) returns (next: nat)
      requires Valid(taken) && space.next < limit
      modifies this`nextPa, this`space
      ensures next == 0x1000 * old(space.next)
      ensures space == old(space).(next := old(space.next) + 1)
      ensures Valid(taken + {old(space.next)})
    {
      TakeKeepsInv(mem, space, root, limit, taken);
      next := nextPa;
      nextPa := nextPa + 0x1000;
      space := space.(next := space.next + 1);
    }

    /** A missing second-level table: taken from the pool, mapped at its own address, then linked. */
    method AddTable(pte: nat, va: nat, tblattr: nat, ghost taken: set<nat>)
      requires Valid(taken) && LowAttr(tblattr)
      requires L1(va) !in space.tables && space.next < limit
      requires pte == 0x1000 * root + 4 * L1(va)
      modifies this`mem, this`nextPa, this`space
      ensures Valid(taken) && space == Grown(old(space), va)
      ensures OnlyTables(old(mem), mem, space, root)
      decreases 1, 0
    {
      hide Shr, Low, Or, Shl, Bit, L1, L2, Vpn, Owner, Inv, Translate, PageWord, TableWord, Present, TableBase, Frame,
           HwTable, HwPage, HwWritable, LowAttr, OnlyTables, MapsItself, Clean;
      Split(va);
      Constants();
      ghost var s0, m0, n, i := space, mem, space.next, L1(va);
      PoolFrame(mem, space, root, limit, taken);
      FrameFacts(n);
      var pa := AllocatePa(taken);
      MapPa(pa, pa, 0, PTE_USER_RW, taken + {n});
      ghost var s1, m1 := space, mem;
      MapsItselfWord(s1, n);
      LinkedValues(s1, i, n);
      Link(pte, pa, tblattr, i, n, taken);
      BothTables(m0, m1, mem, s1, space, root);
    }

    /** Links a page that is zero and mapped at its own address: first its bare address, then the descriptor. */
    method Link(pte: nat, pa: nat, tblattr: nat, ghost i: nat, ghost n: nat, ghost taken: set<nat>)
      requires Valid(taken + {n}) && LowAttr(tblattr) && n !in taken && n < V.FRAMES
      requires i < 4096 && i !in space.tables && MapsItself(space, n)
      requires pte == 0x1000 * root + 4 * i && pa == 0x1000 * n
      modifies this`mem, this`space
      ensures Valid(taken) && space == old(space).(tables := old(space).tables[i := n])
      ensures OnlyTables(old(mem), mem, space, root)
    {
      hide Shr, Low, Or, Shl, Bit, L1, L2, Vpn, Owner, Inv, Translate, PageWord, TableWord, Present, TableBase, Frame,
           HwTable, HwPage, HwWritable, LowAttr, OnlyTables, MapsItself, Clean;
      ghost var s1, m1 := space, mem;
      L1Reachable(mem, s1, root, limit, taken + {n}, i);
      Store(pte, pa, root, i);
      ghost var m2 := mem;
      AlignedAbsent(n);
      AbsentStoreKeepsInv(m1, m2, s1, root, limit, taken + {n}, i, pa);
      L1Reachable(mem, s1, root, limit, taken + {n}, i);
      var w := Load(pte, root, i);
      assert w == pa;
      TableWordIs(pa, tblattr);
      Store(pte, Or(w, Or(PTE_TABLE, tblattr)), root, i);
      TableWordReads(n, tblattr);
      WrittenTwice(m1, m2, mem, root, i, pa, TableWord(pa, tblattr));
      hide WritesOne;
      LinkKeepsClean(m1, mem, s1, root, limit, taken + {n}, i, n, TableWord(pa, tblattr));
      LinkKeepsInv(m2, mem, s1, root, limit, taken + {n}, i, n, TableWord(pa, tblattr));
      FewerTaken(mem, s1.(tables := s1.tables[i := n]), root, limit, (taken + {n}) - {n}, taken);
      LinkedValues(s1, i, n);
      space := space.(tables := space.tables[i := n]);
      Unchanged(m1, s1, root);
      OneWritten(m1, m1, mem, s1, space, root, root, i, TableWord(pa, tblattr));
    }

    method MapPa(va: nat, paddr: nat, tblattr: nat, pgattr: nat, ghost taken: set<nat>)
      requires Valid(taken)
      requires LowAttr(tblattr) && LowAttr(pgattr) && Shr(paddr, 32) == 0
      requires L1(va) in space.tables || (space.next < limit && Vpn(va) != space.next)
      requires !TableFrame(space, root, Vpn(va))
      modifies this`mem, this`nextPa, this`space
      ensures Valid(taken)
      ensures space == Mapped(old(space), va, paddr, pgattr)
      ensures OnlyTables(old(mem), mem, space, root)
      decreases if L1(va) in space.tables then 0 else 1, 1
    {
      hide Shr, Low, Or, Shl, Bit, L1, L2, Vpn, Owner, Inv, Translate, PageWord, TableWord, Present, TableBase, Frame,
           HwTable, HwPage, HwWritable, LowAttr, OnlyTables, MapsItself, Clean;
      ghost var s0, m0 := space, mem;
      Split(va);
      ghost var i, j := L1(va), L2(va);
      L1Slot(root, i);
      var pte := Or(base, 4 * L1(va));
      L1Reachable(mem, space, root, limit, taken, i);
      Classified(space, i, Entry(mem, root, i));
      var w := Load(pte, root, i);
      Unchanged(mem, space, root);
      if !Present(w) {
        LinkedValues(space, i, space.next);
        AddTable(pte, va, tblattr, taken);
        L1Reachable(mem, space, root, limit, taken, i);
        Classified(space, i, Entry(mem, root, i));
      }
      ghost var s1, m1 := space, mem;
      ghost var f := space.tables[i];
      w := Load(pte, root, i);
      L2Slot(4 * f, j);
      pte := Or(0x400 * TableBase(w), 4 * L2(va));
      L2Reachable(mem, space, root, limit, taken, i, j);
      Store(pte, 0x1000 * Shr(paddr, 12), f, j);
      ghost var m2 := mem;
      AlignedAbsent(Shr(paddr, 12));
      LeafStoreKeepsInv(m1, m2, space, root, limit, taken, i, j, 0x1000 * Shr(paddr, 12));
      space := space.(flat := space.flat - {PageOf(i, j)});
      L2Reachable(mem, space, root, limit, taken, i, j);
      w := Load(pte, f, j);
      Store(pte, Or(w, Or(Or(PTE_PAGE, PTE_ACCESS), pgattr)), f, j);
      PageWordIs(paddr, pgattr);
      PageWordReads(paddr, pgattr);
      PagePresent(PageWord(paddr, pgattr));
      WrittenTwice(m1, m2, mem, f, j, 0x1000 * Shr(paddr, 12), PageWord(paddr, pgattr));
      LeafKeepsClean(m1, mem, s1, root, limit, taken, i, j, PageWord(paddr, pgattr));
      LeafStoreKeepsInv(m2, mem, space, root, limit, taken, i, j, PageWord(paddr, pgattr));
      space := space.(flat := space.flat[PageOf(i, j) := PageWord(paddr, pgattr)]);
      OneWritten(m0, m1, m2, s1, s1, root, f, j, 0x1000 * Shr(paddr, 12));
      OneWritten(m0, m2, mem, s1, space, root, f, j, PageWord(paddr, pgattr));
      assert space == Mapped(s0, va, paddr, pgattr);
    }

    method MapVa(addr: nat, tblattr: nat, pgattr: nat)
      requires Valid({})
      requires LowAttr(tblattr) && LowAttr(pgattr)
      requires MappedFresh(space, addr, pgattr).next <= limit
      requires !TableFrame(space, root, Vpn(addr))
      requires L1(addr) !in space.tables ==> Vpn(addr) != space.next + 1
      modifies this`mem, this`nextPa, this`space
      ensures Valid({})
      ensures space == MappedFresh(old(space), addr, pgattr)
      ensures OnlyTables(old(mem), mem, space, root)
    {
      hide Shr, Low, Or, Shl, Bit, L1, L2, Vpn, Owner, Inv, PageWord, LowAttr, OnlyTables;
      ghost var n := space.next;
      PoolFrame(mem, space, root, limit, {});
      FrameFacts(n);
      var pa := AllocatePa({});
      FewerTaken(mem, space, root, limit, {} + {n}, {});
      MapPa(addr, pa, tblattr, pgattr, {});
    }

    /** -1 only when no second-level table covers the page; an unmapped page under a present table is
        cleared again and 0 returned. */
    method UnmapVa(addr: nat) returns (r: int)
      requires Valid({})
      requires !TableFrame(space, root, Vpn(addr))
      modifies this`mem, this`space
      ensures Valid({})
      ensures r == if L1(addr) in old(space).tables then 0 else -1
      ensures space == Unmapped(old(space), addr)
      ensures r == -1 ==> mem == old(mem) && space == old(space)
      ensures OnlyTables(old(mem), mem, space, root)
    {
      hide Shr, Low, Or, Shl, Bit, L1, L2, Vpn, Owner, Inv, Translate, PageWord, TableWord, Present, TableBase, Frame,
           HwTable, HwPage, HwWritable, OnlyTables, MapsItself, Clean;
      Split(addr);
      ghost var m0, i, j := mem, L1(addr), L2(addr);
      L1Slot(root, i);
      var pte := Or(base, 4 * L1(addr));
      L1Reachable(mem, space, root, limit, {}, i);
      Classified(space, i, Entry(mem, root, i));
      Unchanged(mem, space, root);
      var w := Load(pte, root, i);
      if !Present(w) {
        NotMapped(mem, space, root, limit, addr);
        assert Unmapped(space, addr).flat == space.flat;
        return -1;
      }
      w := Load(pte, root, i);
      ghost var f := space.tables[i];
      L2Slot(4 * f, j);
      pte := Or(0x400 * TableBase(w), 4 * L2(addr));
      L2Reachable(mem, space, root, limit, {}, i, j);
      Store(pte, 0, f, j);
      ZeroAbsent();
      LeafStoreKeepsInv(m0, mem, space, root, limit, {}, i, j, 0);
      LeafKeepsClean(m0, mem, space, root, limit, {}, i, j, 0);
      OneWritten(m0, m0, mem, space, space, root, f, j, 0);
      space := Unmapped(space, addr);
      OnlyTablesGrows(m0, mem, old(space), space, root);
      return 0;
    }

    /** The physical address of `va`, page offset kept; the error word where no second-level table covers
        the page. The leaf descriptor is not checked: a page that is not mapped reads as frame zero. */
    method LookupPa(va: nat) returns (r: nat)
      requires Valid({})
      ensures r == LookedUp(space, va)
      ensures Translate(mem, root, va, false).Some? ==> Translate(mem, root, va, false) == V.Some(r)
    {
      hide Shr, Low, Or, Shl, Bit, L1, L2, Vpn, Owner, Inv, Translate, PageWord, TableWord, Present, TableBase, Frame,
           HwTable, HwPage, HwWritable, MapsItself;
      LookupTranslates(mem, space, root, limit, va);
      Split(va);
      ghost var i, j := L1(va), L2(va);
      L1Slot(root, i);
      var pte := Or(base, 4 * L1(va));
      L1Reachable(mem, space, root, limit, {}, i);
      Classified(space, i, Entry(mem, root, i));
      var w := Load(pte, root, i);
      if !Present(w) {
        return ERROR;
      }
      w := Load(pte, root, i);
      ghost var f := space.tables[i];
      L2Slot(4 * f, j);
      pte := Or(0x400 * TableBase(w), 4 * L2(va));
      L2Reachable(mem, space, root, limit, {}, i, j);
      assert LeafClean(space, PageOf(i, j), Entry(mem, f, j));
      w := Load(pte, f, j);
      WithOffset(Frame(w), va % 0x1000);
      FrameZero();
      return Or(0x1000 * Frame(w), va % 0x1000);
    }
  }

  lemma FrameZero()
    ensures Frame(0) == 0
  {
    hide Shr, Low, Shl;
    ShlZero(12);
    ShiftPage(1);
    Parts(0, 0, 12);
    V.LowSmall(0, 20);
  }

  const ERROR := 0xFFFF_FFFF  // (void *)-1

  /** The word that a lookup returns. */
  ghost function LookedUp(s: Space, va: nat): nat {
    if L1(va) !in s.tables then ERROR
    else if Vpn(va) in s.flat then 0x1000 * Frame(s.flat[Vpn(va)]) + va % 0x1000
    else va % 0x1000
  }

  /** Wherever the hardware can read, the lookup gives the address that it reads. */
  lemma LookupTranslates(mem: seq<nat>, s: Space, root: nat, limit: nat, va: nat)
    requires Inv(mem, s, root, limit, {})
    ensures var t := Translate(mem, root, va, false); t.Some? ==> t == V.Some(LookedUp(s, va))
  {
    hide Shr, Low, L1, Vpn, Frame, Translate, HwPage;
    TranslateIsFlat(mem, s, root, limit, va, false);
    if L1(va) !in s.tables {
      NotMapped(mem, s, root, limit, va);
    }
  }

  /** A lookup yields the error word if and only if the second-level table is missing, or the address is the
      last byte of a page that is mapped to the last frame of the address space. */
  lemma ErrorWord(s: Space, va: nat)
    ensures LookedUp(s, va) == ERROR <==>
              L1(va) !in s.tables || (Vpn(va) in s.flat && Frame(s.flat[Vpn(va)]) == 0xF_FFFF && va % 0x1000 == 0xFFF)
    ensures LookedUp(s, va) <= ERROR
  {
    hide L1, Vpn, Frame;
    if Vpn(va) in s.flat {
      FrameBound(s.flat[Vpn(va)]);
    }
  }

  lemma FrameBound(w: nat)
    ensures Frame(w) < V.FRAMES
  {
    hide Shr, Low, Shl;
    SplitAt(Shr(w, 12), 20);
    V.Shl20();
  }

  lemma TableWordIs(pa: nat, attr: nat)
    ensures TableWord(pa, attr) == Or(pa, Or(PTE_TABLE, attr))
  {
  }

  lemma PageWordIs(pa: nat, attr: nat)
    ensures PageWord(pa, attr) == Or(0x1000 * Shr(pa, 12), Or(Or(PTE_PAGE, PTE_ACCESS), attr))
  {
  }

  lemma PagePresent(w: nat)
    ensures HwPage(w) ==> Bit(w, 1) == 1
  {
  }

  lemma Unchanged(mem: seq<nat>, s: Space, root: nat)
    ensures OnlyTables(mem, mem, s, root)
  {
  }

  lemma Classified(s: Space, i: nat, w: nat)
    requires L1Matches(s, i, w)
    ensures Present(w) <==> i in s.tables
    ensures i in s.tables ==> TableBase(w) == 4 * s.tables[i]
  {
  }

  lemma NotMapped(mem: seq<nat>, s: Space, root: nat, limit: nat, va: nat)
    requires Inv(mem, s, root, limit, {}) && L1(va) !in s.tables
    ensures Vpn(va) !in s.flat
  {
    hide Shr, Low, L1, Vpn, Owner, TableDescriptor, Covered, SelfMapped, Pool;
    Split(va);
    assert Vpn(va) in s.flat ==> Owner(Vpn(va)) in s.tables;
  }

  // ---------- what the calls mean for the hardware ----------

  /** After `MapPa`, an access to the page of `va` reaches the page of `pa` at the same offset and is
      writable exactly when AP[2] is clear; every other page translates as before, except the page of
      the one new table, which now translates to itself. PL0 has the page exactly when AP[1] is set. */
  lemma MappedTranslates(mem: seq<nat>, mem': seq<nat>, s: Space, root: nat, limit: nat, va: nat, pa: nat, attr: nat,
      x: nat, write: bool)
    requires Inv(mem, s, root, limit, {}) && Inv(mem', Mapped(s, va, pa, attr), root, limit, {})
    requires LowAttr(attr) && Shr(pa, 32) == 0
    ensures Mapped(s, va, pa, attr).next <= s.next + 1
    ensures Shr(x, 32) == 0 && Vpn(x) == Vpn(va) ==>
      Translate(mem', root, x, write) ==
        if write && Bit(attr, 9) == 1 then V.None else V.Some(0x1000 * Shr(pa, 12) + x % 0x1000)
    ensures Vpn(x) != Vpn(va) && (L1(va) in s.tables || Vpn(x) != s.next) ==>
      Translate(mem', root, x, write) == Translate(mem, root, x, write)
    ensures Shr(x, 32) == 0 && Vpn(x) != Vpn(va) && L1(va) !in s.tables && Vpn(x) == s.next ==>
      Translate(mem', root, x, write) == V.Some(0x1000 * s.next + x % 0x1000)
    ensures TranslateUser(mem', root, x, write) ==
            if Vpn(x) == Vpn(va) then if Bit(attr, 5) == 1 then Translate(mem', root, x, write) else V.None
            else if L1(va) in s.tables || Vpn(x) != s.next then TranslateUser(mem, root, x, write)
            else Translate(mem', root, x, write)
  {
    hide Shr, Low, Or, Shl, Bit, L1, L2, Vpn, Owner, PageWord, TableDescriptor, Frame, Translate, TranslateUser,
         LowAttr, MapsItself, SelfMapped, Covered, Pool, Represents;
    hide HwWritable, HwUser;
    var t := Mapped(s, va, pa, attr);
    TranslateIsFlat(mem, s, root, limit, x, write);
    TranslateIsFlat(mem', t, root, limit, x, write);
    TranslateUserIsFlat(mem, s, root, limit, x, write);
    TranslateUserIsFlat(mem', t, root, limit, x, write);
    PageWordReads(pa, attr);
    if L1(va) !in s.tables && Vpn(x) == s.next {
      Split(x);
      FrameFacts(s.next);
      Constants();
      PageWordReads(0x1000 * s.next, PTE_USER_RW);
    }
  }
}
