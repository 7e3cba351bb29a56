/** Ranges of pages in an address space: how they are reached, which memory a change leaves alone, and
    unmapping a range. */
module PageRanges {
  import opened Bits
  import opened Vmsa
  import opened TableTree
  import opened Bytes
  import opened AddressSpaces
  import opened Heap

  /** Page numbers of more than 36 bits are beyond the 48-bit address space. */
  lemma BeyondAddresses(v: nat, o: nat)
    requires v >= PAGE_NUMBERS && o < 0x1000
    ensures Shr(At(v) + o, 48) != 0
  {
    hide Shr, Low, Shl;
    ShiftPage(v);
    ShiftPage(1);
    Parts(v, o, 12);
    Shl36();
    SplitAt(v, 36);
    ShrShr(At(v) + o, 12, 36);
  }

  lemma PagesCover(len: nat, n: nat)
    ensures 0x1000 * n < len <==> n < Pages(len)
  {
  }

  /** A byte of a mapped, writable page. */
  lemma PageReachable(a: AddressSpace, v: nat, o: nat)
    requires a.Valid({}) && v < PAGE_NUMBERS && o < 0x1000
    requires v in a.space.flat && HwWritable(a.space.flat[v])
    ensures Translate(a.ram.words, a.root, At(v) + o, true) == Some(0x1000 * Frame(a.space.flat[v]) + o)
    ensures Translate(a.ram.words, a.root, At(v) + o, false) == Some(0x1000 * Frame(a.space.flat[v]) + o)
  {
    hide Shr, Low, Or, Shl, Bit, Vpn, Frame, HwReadable, HwWritable, Translate, PageWord, Inv;
    VpnAtOffset(v, o);
    Writable(a.space.flat[v]);
    InvTree(a.ram.words, a.space, a.root, a.limit, {});
    TranslateIsFlat(a.ram.words, a.space, a.root, At(v) + o, true);
    TranslateIsFlat(a.ram.words, a.space, a.root, At(v) + o, false);
    assert (At(v) + o) % 0x1000 == o;
  }

  // ---------- rights ----------

  /** Every byte of the page of `va` is in the page of `pa`, for loads and stores, from EL0 too. */
  ghost predicate OpenPage(mem: seq<nat>, root: nat, va: nat, pa: nat) {
    forall x: nat, write: bool | Vpn(x) == Vpn(va) && Shr(x, 48) == 0 ::
      TranslateEl0(mem, root, x, write) == Some(0x1000 * Vpn(pa) + x % 0x1000)
  }

  /** The same, but for EL0, which is kept out. */
  ghost predicate ClosedPage(mem: seq<nat>, root: nat, va: nat, pa: nat) {
    forall x: nat, write: bool | Vpn(x) == Vpn(va) && Shr(x, 48) == 0 ::
      Translate(mem, root, x, write) == Some(0x1000 * Vpn(pa) + x % 0x1000) && TranslateEl0(mem, root, x, write) == None
  }

  lemma UserOpens(mem: seq<nat>, s: Space, root: nat, va: nat, pa: nat)
    requires Tree(s, root) && Represents(mem, s)
    requires Vpn(va) in s.flat && s.flat[Vpn(va)] == PageWord(pa, PTE_USER_RW)
    ensures Vpn(pa) < FRAMES ==> OpenPage(mem, root, va, pa)
  {
    hide Shr, Low, Or, Shl, Bit, Vpn, PageWord, Frame, HwReadable, HwWritable, HwUser, Translate, TranslateEl0, LowAttr;
    ConstantBits();
    PageWordReads(pa, PTE_USER_RW);
    if Vpn(pa) < FRAMES {
      forall x: nat, write: bool | Vpn(x) == Vpn(va) && Shr(x, 48) == 0
        ensures TranslateEl0(mem, root, x, write) == Some(0x1000 * Vpn(pa) + x % 0x1000)
      {
        TranslateIsFlat(mem, s, root, x, write);
        TranslateEl0IsFlat(mem, s, root, x, write);
      }
    }
  }

  lemma PrivilegedCloses(mem: seq<nat>, s: Space, root: nat, va: nat, pa: nat)
    requires Tree(s, root) && Represents(mem, s)
    requires Vpn(va) in s.flat && s.flat[Vpn(va)] == PageWord(pa, PTE_PRIV_RW)
    ensures Vpn(pa) < FRAMES ==> ClosedPage(mem, root, va, pa)
  {
    hide Shr, Low, Or, Shl, Bit, Vpn, PageWord, Frame, HwReadable, HwWritable, HwUser, Translate, TranslateEl0, LowAttr;
    ConstantBits();
    PageWordReads(pa, PTE_PRIV_RW);
    if Vpn(pa) < FRAMES {
      forall x: nat, write: bool | Vpn(x) == Vpn(va) && Shr(x, 48) == 0
        ensures Translate(mem, root, x, write) == Some(0x1000 * Vpn(pa) + x % 0x1000)
        ensures TranslateEl0(mem, root, x, write) == None
      {
        TranslateIsFlat(mem, s, root, x, write);
        TranslateEl0IsFlat(mem, s, root, x, write);
      }
    }
  }

  // ---------- what a change leaves alone ----------

  /** The page ranges [a, b) and [c, d) do not meet. */
  predicate Apart(a: nat, b: nat, c: nat, d: nat) {
    b <= a || d <= c || b <= c || d <= a
  }

  /** Data frames, and all memory outside the pool, are as they were. */
  ghost predicate OldFramesKept(mem: seq<nat>, mem': seq<nat>, s: Space, root: nat, limit: nat) {
    |mem'| == |mem| &&
    forall f: nat | f in s.data || !(root <= f < limit) :: SameFrame(mem, mem', f)
  }

  /** Only memory in the frames from `lo` up to `hi` changes. */
  ghost predicate OutsideKept(mem: seq<nat>, mem': seq<nat>, lo: nat, hi: nat) {
    |mem'| == |mem| && forall f: nat | !(lo <= f < hi) :: SameFrame(mem, mem', f)
  }

  lemma OutsideTrans(m0: seq<nat>, m1: seq<nat>, m2: seq<nat>, lo: nat, hi: nat)
    requires OutsideKept(m0, m1, lo, hi) && OutsideKept(m1, m2, lo, hi)
    ensures OutsideKept(m0, m2, lo, hi)
  {
    hide SameFrame;
    forall f: nat | !(lo <= f < hi)
      ensures SameFrame(m0, m2, f)
    {
      SameFrameTrans(m0, m1, m2, f);
    }
  }

  lemma OutsideWrite(m0: seq<nat>, m1: seq<nat>, m2: seq<nat>, lo: nat, hi: nat, f: nat, i: nat, w: nat)
    requires OutsideKept(m0, m1, lo, hi) && lo <= f < hi && i < 512 && 512 * f + i < |m1|
    requires m2 == m1[512 * f + i := w]
    ensures OutsideKept(m0, m2, lo, hi)
  {
    forall g: nat, j | !(lo <= g < hi) && 0 <= j < 512
      ensures Entry(m2, g, j) == Entry(m0, g, j)
    {
      assert SameFrame(m0, m1, g);
      EntryUpdated(m1, f, i, w, g, j);
    }
  }

  lemma OutsideRefl(mem: seq<nat>, lo: nat, hi: nat)
    ensures OutsideKept(mem, mem, lo, hi)
  {
  }

  /** A regime does not notice what changes outside its own pool. */
  lemma InvOutside(mem: seq<nat>, mem': seq<nat>, s: Space, root: nat, limit: nat, lo: nat, hi: nat)
    requires Inv(mem, s, root, limit, {})
    requires OutsideKept(mem, mem', lo, hi) && (limit <= lo || hi <= root)
    ensures Inv(mem', s, root, limit, {})
  {
    hide Shr, Low, Or, Shl, Bit, EntryMatches;
    forall f: nat | root <= f < limit
      ensures SameFrame(mem, mem', f)
    {
    }
    forall k, i | k in s.tables && 0 <= i < 512
      ensures EntryMatches(s, k, i, Entry(mem', s.tables[k], i))
    {
      assert SameFrame(mem, mem', s.tables[k]);
      assert EntryMatches(s, k, i, Entry(mem, s.tables[k], i));
    }
    forall f: nat | s.next <= f < limit
      ensures ZeroFrame(mem', f)
    {
      assert SameFrame(mem, mem', f) && ZeroFrame(mem, f);
    }
  }

  lemma OldFramesOutside(mem: seq<nat>, mem': seq<nat>, s: Space, root: nat, limit: nat)
    requires OldFramesKept(mem, mem', s, root, limit)
    ensures OutsideKept(mem, mem', root, limit)
  {
  }

  lemma OldFramesRefl(mem: seq<nat>, s: Space, root: nat, limit: nat)
    ensures OldFramesKept(mem, mem, s, root, limit)
  {
  }

  lemma OldFramesSize(mem: seq<nat>, mem': seq<nat>, s: Space, root: nat, limit: nat)
    requires OldFramesKept(mem, mem', s, root, limit)
    ensures |mem'| == |mem|
  {
  }

  lemma SameFrameTrans(m0: seq<nat>, m1: seq<nat>, m2: seq<nat>, f: nat)
    requires SameFrame(m0, m1, f) && SameFrame(m1, m2, f)
    ensures SameFrame(m0, m2, f)
  {
  }

  lemma OldFramesTrans(m0: seq<nat>, m1: seq<nat>, m2: seq<nat>, s: Space, s': Space, root: nat, limit: nat)
    requires OldFramesKept(m0, m1, s, root, limit) && OldFramesKept(m1, m2, s', root, limit) && s.data <= s'.data
    ensures OldFramesKept(m0, m2, s, root, limit)
  {
    hide SameFrame;
    forall f: nat | f in s.data || !(root <= f < limit)
      ensures SameFrame(m0, m2, f)
    {
      SameFrameTrans(m0, m1, m2, f);
    }
  }

  lemma TablesKeepFrames(mem: seq<nat>, mem': seq<nat>, s: Space, s': Space, root: nat, limit: nat)
    requires OnlyTables(mem, mem', s'.tables)
    requires Inv(mem', s', root, limit, {}) && s.data <= s'.data
    ensures OldFramesKept(mem, mem', s, root, limit)
  {
    forall f: nat | f in s.data || !(root <= f < limit)
      ensures SameFrame(mem, mem', f)
    {
      assert f !in s'.tables.Values;
    }
  }

  lemma DataInPool(mem: seq<nat>, s: Space, root: nat, limit: nat, f: nat)
    requires Inv(mem, s, root, limit, {}) && f in s.data
    ensures root <= f < s.next
  {
  }

  lemma DataBelow(mem: seq<nat>, s: Space, root: nat, limit: nat)
    requires Inv(mem, s, root, limit, {})
    ensures s.next !in s.data
  {
  }

  lemma OneFrameKeeps(mem: seq<nat>, mem': seq<nat>, s: Space, root: nat, limit: nat, f: nat)
    requires f !in s.data && root <= f < limit && |mem'| == |mem|
    requires forall g | g != f :: SameFrame(mem, mem', g)
    ensures OldFramesKept(mem, mem', s, root, limit)
  {
  }

  /** One page mapped: only it and pool pages change. */
  lemma MappedPage(s: Space, root: nat, limit: nat, va: nat, pa: nat, attr: nat)
    requires root <= s.next && Mapped(s, va, pa, attr).next <= limit
    ensures var t := Mapped(s, va, pa, attr);
            && t.data == s.data && s.next <= t.next <= s.next + 3
            && (forall k <- s.tables :: k in t.tables && t.tables[k] == s.tables[k])
            && Vpn(va) in t.flat && t.flat[Vpn(va)] == PageWord(pa, attr)
            && (forall v | v != Vpn(va) && !(root <= v < limit) ::
                  (v in t.flat <==> v in s.flat) && (v in s.flat ==> t.flat[v] == s.flat[v]))
  {
    hide Shr, Low, Path, PageWord, Vpn;
    GrownCounts(s, va, 3);
    GrownFlat(s, va, 3);
    MissingAtMost3(s, va);
  }

  lemma MappedAtMost3(s: Space, va: nat, pa: nat, attr: nat)
    ensures s.next <= Mapped(s, va, pa, attr).next <= s.next + 3
  {
    hide Path, PageWord, Vpn;
    GrownCounts(s, va, 3);
    MissingAtMost3(s, va);
  }

  ghost predicate OffPool(a: AddressSpace, va: nat)
    reads a
  {
    !(a.root <= Vpn(va) < a.limit)
  }

  // ---------- unmapping ----------

  ghost function RangeUnmapped(s: Space, e: nat, p: nat): Space {
    if p == 0 then s else Unmapped(RangeUnmapped(s, e, p - 1), At(e + p - 1))
  }

  /** Exactly the pages of the range are removed. */
  lemma {:induction false} UnmappedPages(s: Space, e: nat, p: nat)
    requires e + p <= PAGE_NUMBERS
    ensures var t := RangeUnmapped(s, e, p);
            && t.tables == s.tables && t.data == s.data && t.next == s.next
            && forall v :: (v in t.flat <==> v in s.flat && !(e <= v < e + p)) &&
                  (v in t.flat ==> t.flat[v] == s.flat[v])
  {
    hide Vpn, At;
    if p > 0 {
      UnmappedPages(s, e, p - 1);
      AtIs(e + p - 1);
      VpnAt(e + p - 1);
    }
  }

  lemma UnmapStep(s: Space, e: nat, p: nat)
    ensures RangeUnmapped(s, e, 0) == s
    ensures RangeUnmapped(s, e, p + 1) == Unmapped(RangeUnmapped(s, e, p), At(e + p))
  {
    hide Unmapped, At;
  }

  lemma UnmappedData(s: Space, va: nat)
    ensures Unmapped(s, va).data == s.data
  {
  }

  /** Unmaps the pages of `len` bytes from `base` on. */
  method UnmapRange(a: AddressSpace, base: nat, len: nat)
    requires a.Valid({}) && base == At(base / 0x1000)
    requires var e, p := base / 0x1000, Pages(len); e + p <= PAGE_NUMBERS && Apart(e, e + p, a.root, a.limit)
    modifies a.ram, a`space
    ensures a.Valid({})
    ensures a.space == RangeUnmapped(old(a.space), base / 0x1000, Pages(len))
    ensures OldFramesKept(old(a.ram.words), a.ram.words, old(a.space), a.root, a.limit)
  {
    hide Shr, Low, Or, Shl, Bit, Vpn, Inv, OldFramesKept, Pages, RangeUnmapped, Unmapped, OnlyTables;
    ghost var e, s0, m0, n := base / 0x1000, a.space, a.ram.words, 0;
    var off := 0;
    PagesCover(len, 0);
    UnmapStep(s0, e, 0);
    OldFramesRefl(m0, s0, a.root, a.limit);
    while off < len
      invariant off == 0x1000 * n && n <= Pages(len)
      invariant a.Valid({}) && a.space == RangeUnmapped(s0, e, n) && a.space.data == s0.data
      invariant OldFramesKept(m0, a.ram.words, s0, a.root, a.limit)
    {
      PagesCover(len, n);
      UnmapStep(s0, e, n);
      assert base + off == At(e + n);
      VpnAt(e + n);
      InvTree(a.ram.words, a.space, a.root, a.limit, {});
      TablesInPool(a.ram.words, a.space, a.root, a.limit);
      ghost var m1, s1 := a.ram.words, a.space;
      var r := a.UnmapVa(base + off);
      UnmappedData(s1, base + off);
      TablesKeepFrames(m1, a.ram.words, s1, a.space, a.root, a.limit);
      OldFramesTrans(m0, m1, a.ram.words, s0, s1, a.root, a.limit);
      off := off + 0x1000;
      n := n + 1;
    }
    PagesCover(len, n);
  }
}
