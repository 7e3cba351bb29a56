/** The two-level manager for 32-bit Arm (short-descriptor format, section B3.5 of the Armv7-A
    architecture manual): one 16 KB first-level table, second-level tables of 256 entries. As in the
    four-level manager, every descriptor is reached through the tables being edited. */
module ArmTables {
  import opened Bits
  import V = Vmsa

  const PTE_TABLE := 1
  const PTE_PAGE := 2
  const PTE_ACCESS := 0x10
  const PTE_USER_RW := 0x30

  // ---------- addresses and descriptors ----------

  /** `(va >> 20) & 0xFFF` and `(va >> 12) & 0xFF`. */
  function L1(va: nat): nat { Low(Shr(va, 20), 12) }
  function L2(va: nat): nat { Low(Shr(va, 12), 8) }

  /** The page number of a 32-bit address. */
  function Vpn(va: nat): nat { Low(Shr(va, 12), 20) }

  function PageOf(l1: nat, l2: nat): nat { 256 * l1 + l2 }

  function TableWord(pa: nat, attr: nat): nat { Or(pa, Or(PTE_TABLE, attr)) }
  function PageWord(pa: nat, attr: nat): nat { Or(0x1000 * Shr(pa, 12), Or(Or(PTE_PAGE, PTE_ACCESS), attr)) }

  /** `(*pte & 0x3) != 0x0` */
  predicate Present(w: nat) { Bit(w, 0) == 1 || Bit(w, 1) == 1 }

  /** `*pte & 0xFFFFFC00`, in units of 1 KB. */
  function TableBase(w: nat): nat { Low(Shr(w, 10), 22) }

  /** `*pte & 0xFFFFF000`, in page frames. */
  function Frame(w: nat): nat { Low(Shr(w, 12), 20) }

  predicate HwTable(w: nat) { Bit(w, 0) == 1 && Bit(w, 1) == 0 }
  predicate HwPage(w: nat) { Bit(w, 1) == 1 && Bit(w, 4) == 1 }
  predicate HwWritable(w: nat) { HwPage(w) && Bit(w, 9) == 0 }

  /** AP[1]: the page is open to PL0 */
  predicate HwUser(w: nat) { Bit(w, 5) == 1 }

  // ---------- memory and the hardware walk ----------

  /** The `i`-th 32-bit word from the start of frame `f`. */
  function Entry(mem: seq<nat>, f: nat, i: nat): nat {
    if 1024 * f + i < |mem| then mem[1024 * f + i] else 0
  }

  function Leaf(mem: seq<nat>, root: nat, va: nat): V.Option<nat> {
    var d := Entry(mem, root, L1(va));
    if HwTable(d) then V.Some(WordAt(mem, TableBase(d), L2(va))) else V.None
  }

  /** The `i`-th word from the 1 KB unit `u`. */
  function WordAt(mem: seq<nat>, u: nat, i: nat): nat {
    if 256 * u + i < |mem| then mem[256 * u + i] else 0
  }

  function Translate(mem: seq<nat>, root: nat, va: nat, write: bool): V.Option<nat> {
    if Shr(va, 32) != 0 then V.None
    else
      match Leaf(mem, root, va)
      case None => V.None
      case Some(w) =>
        if (if write then HwWritable(w) else HwPage(w)) then V.Some(0x1000 * Frame(w) + va % 0x1000) else V.None
  }

  /** The same for an access from PL0. */
  function TranslateUser(mem: seq<nat>, root: nat, va: nat, write: bool): V.Option<nat> {
    match Leaf(mem, root, va)
    case None => V.None
    case Some(w) => if HwUser(w) then Translate(mem, root, va, write) else V.None
  }

  // ---------- abstract state ----------

  /** The frame of each second-level table, the leaf descriptors, the next pool frame. */
  datatype Space = Space(tables: map<nat, nat>, flat: map<nat, nat>, next: nat)

  /** The first-level table fills the four frames from `root`. */
  ghost predicate Tree(s: Space, root: nat, limit: nat) {
    && (forall i <- s.tables :: i < 4096 && root + 4 <= s.tables[i] < s.next && s.tables[i] < limit)
    && (forall i <- s.tables, j <- s.tables :: s.tables[i] == s.tables[j] ==> i == j)
    && (forall v <- s.flat :: v < V.FRAMES)
  }

  predicate TableDescriptor(w: nat, f: nat) {
    Present(w) && HwTable(w) && TableBase(w) == 4 * f
  }

  ghost predicate L1Matches(s: Space, i: nat, w: nat) {
    if i in s.tables then TableDescriptor(w, s.tables[i]) else !Present(w)
  }

  ghost predicate L2Matches(s: Space, v: nat, w: nat) {
    if v in s.flat then Bit(w, 1) == 1 && w == s.flat[v] else Bit(w, 1) == 0
  }

  ghost predicate Represents(mem: seq<nat>, s: Space, root: nat) {
    && (forall i | 0 <= i < 4096 :: L1Matches(s, i, Entry(mem, root, i)))
    && (forall i, j | i in s.tables && 0 <= j < 256 :: L2Matches(s, PageOf(i, j), Entry(mem, s.tables[i], j)))
    && (forall v {:trigger Owner(v)} | v in s.flat :: Owner(v) in s.tables)
  }

  function Owner(v: nat): nat { Shr(v, 8) }

  ghost predicate ZeroFrame(mem: seq<nat>, f: nat) {
    forall i | 0 <= i < 1024 :: Entry(mem, f, i) == 0
  }

  ghost predicate Pool(mem: seq<nat>, s: Space, root: nat, limit: nat, taken: set<nat>) {
    && root + 4 <= s.next && root + 4 <= limit <= V.FRAMES && 1024 * limit <= |mem|
    && (forall f | s.next <= f < limit :: ZeroFrame(mem, f))
    && (forall f <- taken :: root + 4 <= f < s.next && f < limit && ZeroFrame(mem, f) && f !in s.tables.Values)
  }

  ghost predicate MapsItself(s: Space, f: nat) {
    f in s.flat && HwWritable(s.flat[f]) && Frame(s.flat[f]) == f
  }

  ghost predicate TableFrame(s: Space, root: nat, f: nat) {
    root <= f < root + 4 || f in s.tables.Values
  }

  ghost predicate SelfMapped(s: Space, root: nat) {
    && (forall i <- s.tables :: MapsItself(s, s.tables[i]))
    && MapsItself(s, root) && MapsItself(s, root + 1) && MapsItself(s, root + 2) && MapsItself(s, root + 3)
  }

  ghost predicate Covered(s: Space, limit: nat) {
    forall f {:trigger Owner(f)} | s.next <= f < limit :: Owner(f) in s.tables
  }

  ghost predicate Inv(mem: seq<nat>, s: Space, root: nat, limit: nat, taken: set<nat>) {
    && Tree(s, root, limit) && Represents(mem, s, root) && Pool(mem, s, root, limit, taken)
    && SelfMapped(s, root) && Covered(s, limit)
  }

  /** An entry for a page that is not mapped is zero. This holds between calls; within a map the entry
      holds the bare address for a moment. */
  ghost predicate LeafClean(s: Space, v: nat, w: nat) {
    v !in s.flat ==> w == 0
  }

  ghost predicate Clean(mem: seq<nat>, s: Space) {
    forall i, j | i in s.tables && 0 <= j < 256 :: LeafClean(s, PageOf(i, j), Entry(mem, s.tables[i], j))
  }

  // ---------- descriptors read back ----------

  predicate LowAttr(attr: nat) { Shr(attr, 10) == 0 && Bit(attr, 0) == 0 && Bit(attr, 1) == 0 }

  lemma Small(f: nat, k: nat)
    requires f < V.FRAMES && k >= 20
    ensures Low(f, k) == f
  {
    V.LowSmall(f, k);
  }

  lemma Constants()
    ensures LowAttr(0) && LowAttr(PTE_USER_RW) && Bit(PTE_USER_RW, 9) == 0 && Bit(PTE_USER_RW, 5) == 1
    ensures Or(PTE_PAGE, PTE_ACCESS) == 0x12 && Bit(0x12, 1) == 1 && Bit(0x12, 4) == 1 && Bit(0x12, 0) == 0
    ensures Bit(0x12, 9) == 0 && Bit(0x12, 5) == 0 && Shr(0x12, 10) == 0 && Shr(0x12, 12) == 0
    ensures Bit(1, 0) == 1 && Bit(1, 1) == 0 && Shr(1, 10) == 0
  {
  }

  lemma {:induction false} OrNone(a: nat, b: nat, k: nat)
    requires Shr(a, k) == 0 && Shr(b, k) == 0
    ensures Shr(Or(a, b), k) == 0
  {
    OrShr(a, b, k);
  }

  lemma TableWordReads(f: nat, attr: nat)
    requires f < V.FRAMES && LowAttr(attr)
    ensures TableDescriptor(TableWord(0x1000 * f, attr), f)
  {
    Constants();
    OrNone(1, attr, 10);
    OrShr(1, attr, 0);
    OrShr(1, attr, 1);
    var low := Or(1, attr);
    ShrShr(low, 10, 2);
    assert Shr(0, 2) == 0;
    V.OrFields(f, low);
    var w := TableWord(0x1000 * f, attr);
    OrShr(0x1000 * f, low, 10);
    ShiftPage(f);
    ShlShl(4 * f, 1, 10);
    FourTimes(f);
    FourSmall(f);
  }

  lemma FourTimes(f: nat)
    ensures Shr(0x1000 * f, 10) == 4 * f
  {
    ShiftPage(f);
    ShlShl(f, 2, 10);
    assert Shl(f, 1) == 2 * f;
    assert Shl(f, 2) == 2 * Shl(f, 1);
    ShlBits(4 * f, 10, 0);
  }

  lemma FourSmall(f: nat)
    requires f < V.FRAMES
    ensures Low(4 * f, 22) == 4 * f
  {
    SplitAt(4 * f, 22);
    assert Shr(4 * f, 2) == f by {
      assert Shl(f, 1) == 2 * f;
      assert Shl(f, 2) == 2 * Shl(f, 1);
      ShlBits(f, 2, 0);
    }
    ShrShr(4 * f, 2, 20);
    V.Shl20();
    SplitAt(f, 20);
    ShlZero(22);
  }

  lemma ShrZero()
    ensures Shr(0, 2) == 0
  {
  }

  lemma PageWordReads(pa: nat, attr: nat)
    requires LowAttr(attr) && Shr(pa, 32) == 0
    ensures var w := PageWord(pa, attr);
            && HwPage(w) && Frame(w) == Shr(pa, 12)
            && (HwWritable(w) <==> Bit(attr, 9) == 0) && (HwUser(w) <==> Bit(attr, 5) == 1)
  {
    hide Shr, Low, Or, Shl, Bit;
    Constants();
    OrNone(0x12, attr, 10);
    var low := Or(0x12, attr);
    ShrShr(low, 10, 2);
    ShrZero();
    V.OrFields(Shr(pa, 12), low);
    OrShr(0x12, attr, 1);
    OrShr(0x12, attr, 4);
    OrShr(0x12, attr, 5);
    OrShr(0x12, attr, 9);
    ShrShr(pa, 12, 20);
    SplitAt(Shr(pa, 12), 20);
    V.Shl20();
    Small(Shr(pa, 12), 20);
  }

  // ---------- the walk ----------

  lemma Shl8(x: nat)
    ensures Shl(x, 8) == 256 * x
  {
    Shl3(x);
    Shl3(8 * x);
    ShlShl(x, 3, 3);
    ShlShl(x, 6, 2);
    assert Shl(64 * x, 1) == 128 * x;
    assert Shl(64 * x, 2) == 2 * Shl(64 * x, 1);
  }

  lemma Shl12()
    ensures Shl(1, 12) == 4096 && Shl(1, 8) == 256 && Shl(1, 20) == V.FRAMES
  {
    ShiftPage(1);
    Shl8(1);
    V.Shl20();
  }

  lemma Split(va: nat)
    ensures Vpn(va) == PageOf(L1(va), L2(va)) && Owner(Vpn(va)) == L1(va)
    ensures L1(va) < 4096 && L2(va) < 256 && Vpn(va) < V.FRAMES
  {
    var v := Vpn(va);
    ShrLow(Shr(va, 12), 8, 12);
    ShrShr(va, 12, 8);
    LowLow(Shr(va, 12), 8, 12);
    SplitAt(v, 8);
    Shl8(Shr(v, 8));
    Shl12();
    SplitAt(Shr(va, 20), 12);
    SplitAt(Shr(va, 12), 8);
    SplitAt(Shr(va, 12), 20);
  }

  lemma PageSplit(i: nat, j: nat, k: nat, l: nat)
    requires j < 256 && l < 256
    ensures PageOf(i, j) == PageOf(k, l) <==> i == k && j == l
  {
  }

  /** The hardware sees exactly the flat map. */
  lemma TranslateIsFlat(mem: seq<nat>, s: Space, root: nat, limit: nat, va: nat, write: bool)
    requires Tree(s, root, limit) && Represents(mem, s, root)
    ensures Translate(mem, root, va, write) ==
            if Shr(va, 32) == 0 && Vpn(va) in s.flat &&
               (if write then HwWritable(s.flat[Vpn(va)]) else HwPage(s.flat[Vpn(va)]))
            then V.Some(0x1000 * Frame(s.flat[Vpn(va)]) + va % 0x1000) else V.None
  {
    hide Shr, Low, Or, Shl, Bit, Vpn, L1, L2, Owner, Frame, TableBase;
    Split(va);
    var i, j := L1(va), L2(va);
    assert L1Matches(s, i, Entry(mem, root, i));
    if i in s.tables {
      assert WordAt(mem, 4 * s.tables[i], j) == Entry(mem, s.tables[i], j);
      assert L2Matches(s, PageOf(i, j), Entry(mem, s.tables[i], j));
    } else {
      assert Owner(Vpn(va)) == i;
    }
  }

  /** And the same rights. */
  lemma TranslateUserIsFlat(mem: seq<nat>, s: Space, root: nat, limit: nat, va: nat, write: bool)
    requires Tree(s, root, limit) && Represents(mem, s, root)
    ensures TranslateUser(mem, root, va, write) ==
            if Vpn(va) in s.flat && HwUser(s.flat[Vpn(va)]) then Translate(mem, root, va, write) else V.None
  {
    hide Shr, Low, Or, Shl, Bit, Vpn, L1, L2, Owner, Frame, TableBase;
    Split(va);
    var i, j := L1(va), L2(va);
    assert L1Matches(s, i, Entry(mem, root, i));
    if i in s.tables {
      assert WordAt(mem, 4 * s.tables[i], j) == Entry(mem, s.tables[i], j);
      assert L2Matches(s, PageOf(i, j), Entry(mem, s.tables[i], j));
      AbsentPage(Entry(mem, s.tables[i], j));
    } else {
      assert Owner(Vpn(va)) == i;
    }
  }

  lemma AbsentPage(w: nat)
    ensures Bit(w, 1) == 0 ==> !HwPage(w) && !HwWritable(w)
  {
  }

  lemma InPage(f: nat, off: nat)
    requires f < V.FRAMES && off < 0x1000
    ensures Vpn(0x1000 * f + off) == f && Shr(0x1000 * f + off, 32) == 0
  {
    var va := 0x1000 * f + off;
    ShiftPage(f);
    ShiftPage(1);
    Parts(f, off, 12);
    Small(f, 20);
    ShrShr(va, 12, 20);
    V.Shl20();
    SplitAt(f, 20);
  }

  /** Any word of a frame that maps itself is reached at its own address. */
  lemma Reachable(mem: seq<nat>, s: Space, root: nat, limit: nat, f: nat, i: nat, write: bool)
    requires Tree(s, root, limit) && Represents(mem, s, root)
    requires f < V.FRAMES && i < 1024 && MapsItself(s, f)
    ensures Translate(mem, root, 0x1000 * f + 4 * i, write) == V.Some(0x1000 * f + 4 * i)
  {
    hide Shr, Low, Or, Shl, Bit, Vpn, L1, L2, Owner, Frame, Tree, Represents, Translate, HwPage;
    InPage(f, 4 * i);
    WritablePage(s.flat[f]);
    TranslateIsFlat(mem, s, root, limit, 0x1000 * f + 4 * i, write);
  }

  lemma WritablePage(w: nat)
    ensures HwWritable(w) ==> HwPage(w)
  {
  }

  /** `(pa & 0xFFFFC000) | (l1idx << 2)` for the 16 KB-aligned first-level table. */
  lemma L1Slot(root: nat, i: nat)
    requires root % 4 == 0 && i < 4096
    ensures Or(0x1000 * root, 4 * i) == 0x1000 * root + 4 * i
  {
    var q := root / 4;
    ShiftPage(q);
    ShiftPage(1);
    ShlShl(q, 12, 2);
    ShlShl(1, 12, 2);
    assert Shl(0x1000 * q, 1) == 0x2000 * q;
    assert Shl(0x1000 * q, 2) == 2 * Shl(0x1000 * q, 1);
    assert Shl(0x1000, 1) == 0x2000;
    assert Shl(0x1000, 2) == 2 * Shl(0x1000, 1);
    SplitAt(4 * i, 14);
    OrAligned(q, 4 * i, 14);
  }

  lemma L2Slot(u: nat, j: nat)
    requires j < 256
    ensures Or(0x400 * u, 4 * j) == 0x400 * u + 4 * j
  {
    Shl8(u);
    Shl8(1);
    ShlShl(u, 8, 2);
    ShlShl(1, 8, 2);
    assert Shl(256 * u, 1) == 512 * u;
    assert Shl(256 * u, 2) == 2 * Shl(256 * u, 1);
    assert Shl(256, 1) == 512;
    assert Shl(256, 2) == 2 * Shl(256, 1);
    SplitAt(4 * j, 10);
    OrAligned(u, 4 * j, 10);
  }

  /** The first-level entry for `va` is reached through the tables. */
  lemma L1Reachable(mem: seq<nat>, s: Space, root: nat, limit: nat, taken: set<nat>, i: nat)
    requires Inv(mem, s, root, limit, taken) && i < 4096
    ensures Translate(mem, root, 0x1000 * root + 4 * i, false) == V.Some(0x1000 * root + 4 * i)
    ensures Translate(mem, root, 0x1000 * root + 4 * i, true) == V.Some(0x1000 * root + 4 * i)
    ensures 1024 * root + i < |mem| && L1Matches(s, i, Entry(mem, root, i))
  {
    hide Shr, Low, Or, Shl, Bit, Translate, MapsItself, Covered, TableDescriptor;
    var f, k := root + i / 1024, i % 1024;
    assert f == root || f == root + 1 || f == root + 2 || f == root + 3;
    Reachable(mem, s, root, limit, f, k, false);
    Reachable(mem, s, root, limit, f, k, true);
    assert 0x1000 * root + 4 * i == 0x1000 * f + 4 * k;
  }

  lemma L2Reachable(mem: seq<nat>, s: Space, root: nat, limit: nat, taken: set<nat>, i: nat, j: nat)
    requires Inv(mem, s, root, limit, taken) && i in s.tables && j < 256
    ensures var f := s.tables[i];
            && Translate(mem, root, 0x1000 * f + 4 * j, false) == V.Some(0x1000 * f + 4 * j)
            && Translate(mem, root, 0x1000 * f + 4 * j, true) == V.Some(0x1000 * f + 4 * j)
            && f < V.FRAMES && 1024 * f + j < |mem| && L2Matches(s, PageOf(i, j), Entry(mem, f, j))
  {
    hide Shr, Low, Or, Shl, Bit, Translate, MapsItself, Covered, TableDescriptor;
    Reachable(mem, s, root, limit, s.tables[i], j, false);
    Reachable(mem, s, root, limit, s.tables[i], j, true);
  }

  // ---------- what each write keeps ----------

  ghost predicate WritesOne(mem: seq<nat>, mem': seq<nat>, f: nat, i: nat, w: nat) {
    |mem'| == |mem| && 1024 * f + i < |mem| && mem' == mem[1024 * f + i := w]
  }

  lemma ZeroKept(mem: seq<nat>, mem': seq<nat>, s: Space, root: nat, limit: nat, taken: set<nat>, f: nat, i: nat,
      w: nat)
    requires Pool(mem, s, root, limit, taken) && WritesOne(mem, mem', f, i, w)
    requires i < 4096 && (f == root || (i < 1024 && f in s.tables.Values && f < s.next))
    ensures Pool(mem', s, root, limit, taken)
  {
    forall g | s.next <= g < limit || g in taken
      ensures ZeroFrame(mem', g)
    {
      assert ZeroFrame(mem, g);
      forall k | 0 <= k < 1024
        ensures Entry(mem', g, k) == 0
      {
        assert Entry(mem, g, k) == 0;
      }
    }
  }

  lemma TakeKeepsInv(mem: seq<nat>, s: Space, root: nat, limit: nat, taken: set<nat>)
    requires Inv(mem, s, root, limit, taken) && s.next < limit
    ensures Inv(mem, s.(next := s.next + 1), root, limit, taken + {s.next})
  {
    hide Shr, Low, Or, Shl, Bit, TableDescriptor, HwWritable;
    var t := s.(next := s.next + 1);
    assert ZeroFrame(mem, s.next);
    forall i | 0 <= i < 4096
      ensures L1Matches(t, i, Entry(mem, root, i))
    {
      assert L1Matches(s, i, Entry(mem, root, i));
    }
    forall i, j | i in t.tables && 0 <= j < 256
      ensures L2Matches(t, PageOf(i, j), Entry(mem, t.tables[i], j))
    {
      assert L2Matches(s, PageOf(i, j), Entry(mem, s.tables[i], j));
    }
    SelfKept(s, t, root);
  }

  lemma SelfKept(s: Space, t: Space, root: nat)
    requires SelfMapped(s, root) && t.tables == s.tables
    requires forall f | TableFrame(s, root, f) && f in s.flat :: f in t.flat && t.flat[f] == s.flat[f]
    ensures SelfMapped(t, root)
  {
    hide Shr, Low, Bit, HwWritable;
    forall i <- t.tables
      ensures MapsItself(t, t.tables[i])
    {
      assert MapsItself(s, s.tables[i]);
      assert TableFrame(s, root, s.tables[i]);
    }
    assert TableFrame(s, root, root) && TableFrame(s, root, root + 1);
    assert TableFrame(s, root, root + 2) && TableFrame(s, root, root + 3);
  }

  /** A first-level entry that stays absent. */
  lemma AbsentStoreKeepsInv(mem: seq<nat>, mem': seq<nat>, s: Space, root: nat, limit: nat, taken: set<nat>, i: nat,
      w: nat)
    requires Inv(mem, s, root, limit, taken) && i < 4096 && i !in s.tables && !Present(w)
    requires WritesOne(mem, mem', root, i, w)
    ensures Inv(mem', s, root, limit, taken)
  {
    hide Shr, Low, Or, Shl, Bit, TableDescriptor, HwWritable;
    ZeroKept(mem, mem', s, root, limit, taken, root, i, w);
    forall k | 0 <= k < 4096
      ensures L1Matches(s, k, Entry(mem', root, k))
    {
      assert L1Matches(s, k, Entry(mem, root, k));
    }
    forall k, j | k in s.tables && 0 <= j < 256
      ensures L2Matches(s, PageOf(k, j), Entry(mem', s.tables[k], j))
    {
      assert L2Matches(s, PageOf(k, j), Entry(mem, s.tables[k], j));
    }
  }

  /** Linking a zero, self-mapped frame as a second-level table. */
  lemma LinkKeepsInv(mem: seq<nat>, mem': seq<nat>, s: Space, root: nat, limit: nat, taken: set<nat>, i: nat, f: nat,
      w: nat)
    requires Inv(mem, s, root, limit, taken) && i < 4096 && i !in s.tables && f in taken && MapsItself(s, f)
    requires TableDescriptor(w, f) && WritesOne(mem, mem', root, i, w)
    ensures Inv(mem', s.(tables := s.tables[i := f]), root, limit, taken - {f})
  {
    hide Shr, Low, Or, Shl, Bit, TableDescriptor, HwWritable;
    var t := s.(tables := s.tables[i := f]);
    ZeroKept(mem, mem', s, root, limit, taken, root, i, w);
    assert ZeroFrame(mem', f);
    forall k | 0 <= k < 4096
      ensures L1Matches(t, k, Entry(mem', root, k))
    {
      assert L1Matches(s, k, Entry(mem, root, k));
    }
    forall k, j | k in t.tables && 0 <= j < 256
      ensures L2Matches(t, PageOf(k, j), Entry(mem', t.tables[k], j))
    {
      if k == i {
        assert Entry(mem', f, j) == 0;
        ZeroAbsent();
        OwnerOf(i, j);
      } else {
        assert L2Matches(s, PageOf(k, j), Entry(mem, s.tables[k], j));
      }
    }
    forall k <- t.tables ensures MapsItself(t, t.tables[k]) { assert k != i ==> MapsItself(s, s.tables[k]); }
    forall g <- taken - {f} ensures g !in t.tables.Values {
      assert g !in s.tables.Values;
      assert forall k <- t.tables :: t.tables[k] == f || t.tables[k] in s.tables.Values;
    }
  }

  lemma ZeroAbsent()
    ensures Bit(0, 1) == 0 && !Present(0)
  {
  }

  lemma OwnerOf(i: nat, j: nat)
    requires j < 256
    ensures Owner(PageOf(i, j)) == i
  {
    Shl8(i);
    Shl8(1);
    Parts(i, j, 8);
  }

  /** Setting or clearing the leaf of a page that no table occupies. */
  lemma LeafStoreKeepsInv(mem: seq<nat>, mem': seq<nat>, s: Space, root: nat, limit: nat, taken: set<nat>, i: nat,
      j: nat, w: nat)
    requires Inv(mem, s, root, limit, taken) && i in s.tables && j < 256 && PageOf(i, j) < V.FRAMES
    requires !TableFrame(s, root, PageOf(i, j)) && WritesOne(mem, mem', s.tables[i], j, w)
    ensures Inv(mem', s.(flat := if Bit(w, 1) == 1 then s.flat[PageOf(i, j) := w] else s.flat - {PageOf(i, j)}),
              root, limit, taken)
  {
    hide Shr, Low, Or, Shl, Bit, TableDescriptor, HwWritable;
    var v := PageOf(i, j);
    var t := s.(flat := if Bit(w, 1) == 1 then s.flat[v := w] else s.flat - {v});
    OwnerOf(i, j);
    ZeroKept(mem, mem', s, root, limit, taken, s.tables[i], j, w);
    forall k | 0 <= k < 4096
      ensures L1Matches(t, k, Entry(mem', root, k))
    {
      assert L1Matches(s, k, Entry(mem, root, k));
    }
    forall k, l | k in t.tables && 0 <= l < 256
      ensures L2Matches(t, PageOf(k, l), Entry(mem', t.tables[k], l))
    {
      assert L2Matches(s, PageOf(k, l), Entry(mem, s.tables[k], l));
      PageSplit(i, j, k, l);
    }
    SelfKept(s, t, root);
  }

  /** Writing a table descriptor for a zero frame. */
  lemma LinkKeepsClean(mem: seq<nat>, mem': seq<nat>, s: Space, root: nat, limit: nat, taken: set<nat>, i: nat, f: nat,
                       w: nat)
    requires Inv(mem, s, root, limit, taken) && Clean(mem, s) && i < 4096 && i !in s.tables && f in taken
    requires WritesOne(mem, mem', root, i, w)
    ensures Clean(mem', s.(tables := s.tables[i := f]))
  {
    hide Shr, Low, Or, Shl, Bit, Represents, SelfMapped, Covered;
    var t := s.(tables := s.tables[i := f]);
    assert ZeroFrame(mem, f);
    forall k, j | k in t.tables && 0 <= j < 256
      ensures LeafClean(t, PageOf(k, j), Entry(mem', t.tables[k], j))
    {
      if k == i {
        assert Entry(mem, f, j) == 0;
      } else {
        assert LeafClean(s, PageOf(k, j), Entry(mem, s.tables[k], j));
      }
    }
  }

  /** Writing a page descriptor, or clearing one. */
  lemma LeafKeepsClean(mem: seq<nat>, mem': seq<nat>, s: Space, root: nat, limit: nat, taken: set<nat>, i: nat, j: nat,
                       w: nat)
    requires Inv(mem, s, root, limit, taken) && Clean(mem, s) && i in s.tables && j < 256
    requires WritesOne(mem, mem', s.tables[i], j, w) && (Bit(w, 1) == 1 || w == 0)
    ensures Clean(mem', s.(flat := if Bit(w, 1) == 1 then s.flat[PageOf(i, j) := w] else s.flat - {PageOf(i, j)}))
  {
    hide Shr, Low, Or, Shl, Bit, Represents, SelfMapped, Covered;
    var v := PageOf(i, j);
    var t := s.(flat := if Bit(w, 1) == 1 then s.flat[v := w] else s.flat - {v});
    forall k, l | k in t.tables && 0 <= l < 256
      ensures LeafClean(t, PageOf(k, l), Entry(mem', t.tables[k], l))
    {
      assert LeafClean(s, PageOf(k, l), Entry(mem, s.tables[k], l));
      PageSplit(i, j, k, l);
    }
  }

  lemma WrittenTwice(m0: seq<nat>, m1: seq<nat>, m2: seq<nat>, f: nat, i: nat, x: nat, w: nat)
    requires WritesOne(m0, m1, f, i, x) && WritesOne(m1, m2, f, i, w)
    ensures WritesOne(m0, m2, f, i, w)
  {
  }

  // ---------- a state to start from ----------

  /** Memory in which the first-level table and one second-level table behind it map themselves, and the
      rest of the pool is zero: all of it in one megabyte. */
  function StartWord(root: nat, k: nat): nat {
    if k == 1024 * root + Owner(root) then TableWord(0x1000 * (root + 4), 0)
    else if 1024 * (root + 4) <= k < 1024 * (root + 4) + 256 then
      StartLeaf(root, PageOf(Owner(root), k - 1024 * (root + 4)))
    else 0
  }

  function StartLeaf(root: nat, f: nat): nat {
    if root <= f < root + 5 then PageWord(0x1000 * f, PTE_USER_RW) else 0
  }

  function StartMemory(root: nat, limit: nat): seq<nat> {
    seq(1024 * limit, k requires 0 <= k < 1024 * limit => StartWord(root, k))
  }

  function StartSpace(root: nat): Space {
    Space(map[Owner(root) := root + 4], map f: nat | root <= f < root + 5 :: f := StartLeaf(root, f), root + 5)
  }

  lemma OwnerInBlock(root: nat, f: nat)
    requires root <= f < 256 * Owner(root) + 256
    ensures Owner(f) == Owner(root)
  {
    Shl8(Owner(root));
    Shl8(Owner(f));
    Shl8(1);
    SplitAt(root, 8);
    SplitAt(f, 8);
  }

  lemma StartPage(root: nat, f: nat)
    requires root <= f < root + 5 && f < V.FRAMES
    ensures MapsItself(StartSpace(root), f) && Bit(StartLeaf(root, f), 1) == 1
  {
    hide Shr, Low, Or, Shl, Bit, Owner, LowAttr;
    Constants();
    InPage(f, 0);
    ShiftPage(f);
    ShlBits(f, 12, 0);
    PageWordReads(0x1000 * f, PTE_USER_RW);
  }

  /** The invariant holds in that memory, so it is not empty. */
  lemma StartInv(root: nat, limit: nat)
    requires root + 5 <= limit <= V.FRAMES && limit <= 256 * Owner(root) + 256 && Owner(root) < 4096
    ensures Inv(StartMemory(root, limit), StartSpace(root), root, limit, {})
    ensures Clean(StartMemory(root, limit), StartSpace(root))
  {
    hide Shr, Low, Or, Shl, Bit, Owner, TableWord, PageWord, TableDescriptor, MapsItself, LowAttr, StartLeaf,
         Present, HwWritable;
    var mem, s := StartMemory(root, limit), StartSpace(root);
    Constants();
    ZeroAbsent();
    TableWordReads(root + 4, 0);
    forall f: nat | root <= f < limit
      ensures Owner(f) == Owner(root)
    {
      OwnerInBlock(root, f);
    }
    StartPage(root, root);
    StartPage(root, root + 1);
    StartPage(root, root + 2);
    StartPage(root, root + 3);
    StartPage(root, root + 4);
    forall j | 0 <= j < 256
      ensures L2Matches(s, PageOf(Owner(root), j), Entry(mem, root + 4, j))
      ensures LeafClean(s, PageOf(Owner(root), j), Entry(mem, root + 4, j))
    {
      StartEntry(root, limit, j);
    }
  }

  lemma StartEntry(root: nat, limit: nat, j: nat)
    requires root + 5 <= limit <= V.FRAMES && j < 256 && Owner(root) < 4096
    ensures L2Matches(StartSpace(root), PageOf(Owner(root), j), Entry(StartMemory(root, limit), root + 4, j))
    ensures LeafClean(StartSpace(root), PageOf(Owner(root), j), Entry(StartMemory(root, limit), root + 4, j))
  {
    hide Shr, Low, Or, Shl, Bit, Owner, PageWord;
    var v := PageOf(Owner(root), j);
    ZeroAbsent();
    assert Entry(StartMemory(root, limit), root + 4, j) == StartLeaf(root, v);
    if root <= v < root + 5 {
      StartPage(root, v);
    }
  }
}
