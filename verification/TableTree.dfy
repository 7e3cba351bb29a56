/** The four-level table tree in raw memory, the bump allocator's pool beside it, and the invariant
    that lets the tables be edited through themselves. */
module TableTree {
  import opened Bits
  import opened Vmsa

  // ---------- memory and its walks ----------

  /** Entry `i` of the table in frame `f`; memory is a sequence of 64-bit words. */
  function Entry(mem: seq<nat>, f: nat, i: nat): nat {
    if 512 * f + i < |mem| then mem[512 * f + i] else 0
  }

  /** The hardware table walk for `va`: the level 3 descriptor, or None for a translation fault. */
  function HwWalk(mem: seq<nat>, root: nat, va: nat, level: nat): Option<nat>
    requires level < 4
    decreases 3 - level
  {
    var w := Entry(mem, root, Index(va, level));
    if level == 3 then Some(w)
    else if HwTable(w) then HwWalk(mem, Frame(w), va, level + 1)
    else None
  }

  /** The physical address a data access to `va` reaches, or None when it faults. */
  function Translate(mem: seq<nat>, root: nat, va: nat, write: bool): Option<nat> {
    if Shr(va, 48) != 0 then None
    else
      match HwWalk(mem, root, va, 0)
      case None => None
      case Some(w) =>
        if (if write then HwWritable(w) else HwReadable(w)) then Some(0x1000 * Frame(w) + va % 0x1000) else None
  }

  /** The same for an access from EL0, which needs the page open to it. */
  function TranslateEl0(mem: seq<nat>, root: nat, va: nat, write: bool): Option<nat> {
    match HwWalk(mem, root, va, 0)
    case None => None
    case Some(w) => if HwUser(w) then Translate(mem, root, va, write) else None
  }

  // ---------- abstract state ----------

  /** What the memory means: the frame of each table, the leaf descriptor of each mapped page, the
      allocator's next frame, and the frames handed out as data. */
  datatype Space = Space(tables: map<Node, nat>, flat: map<nat, nat>, next: nat, data: set<nat>)

  /** Tables form a tree below the root: one parent entry per table, one table per frame. */
  ghost predicate Tree(s: Space, root: nat) {
    && ROOT in s.tables && s.tables[ROOT] == root
    && (forall k <- s.tables :: k.level <= 3 && root <= s.tables[k] < s.next)
    && (forall k <- s.tables :: k.level == 0 ==> k == ROOT)
    && (forall k {:trigger k.Parent()} | k in s.tables && k.level > 0 :: k.Parent() in s.tables)
    && (forall k <- s.tables, j <- s.tables :: s.tables[k] == s.tables[j] ==> k == j)
    && (forall v {:trigger LeafTable(v)} | v in s.flat :: LeafTable(v) in s.tables)
  }

  /** A valid table descriptor for the table in frame `f`, under every mask that reads it. */
  predicate TableDescriptor(w: nat, f: nat) {
    Valid(w) && HwTable(w) && Frame(w) == f && Address(w) == 0x1000 * f && Shr(w, 12) == f
  }

  /** The entry of table `k` at `i` says what the abstract state says about that child. */
  ghost predicate EntryMatches(s: Space, k: Node, i: nat, w: nat) {
    if k.level < 3 then
      if k.Child(i) in s.tables then TableDescriptor(w, s.tables[k.Child(i)])
      else !Valid(w)
    else
      if k.Child(i).prefix in s.flat then Valid(w) && w == s.flat[k.Child(i).prefix]
      else !Valid(w)
  }

  ghost predicate Represents(mem: seq<nat>, s: Space) {
    forall k, i | k in s.tables && 0 <= i < 512 :: EntryMatches(s, k, i, Entry(mem, s.tables[k], i))
  }

  ghost predicate ZeroFrame(mem: seq<nat>, f: nat) {
    forall i | 0 <= i < 512 :: Entry(mem, f, i) == 0
  }

  /** Every page of the pool from `next` up is zero; every frame below it is a table, a data frame or
      a frame just taken, and these are different. */
  ghost predicate Pool(mem: seq<nat>, s: Space, root: nat, limit: nat, taken: set<nat>) {
    && root < s.next && limit <= FRAMES && 512 * limit <= |mem|
    && (forall f | s.next <= f < limit :: ZeroFrame(mem, f))
    && (forall f <- taken :: root <= f < s.next && f < limit && ZeroFrame(mem, f))
    && (forall f | root <= f < s.next :: f in s.data || f in taken || f in s.tables.Values)
    && (forall f <- s.data :: root <= f < s.next)
    && s.data !! taken && s.data !! s.tables.Values && taken !! s.tables.Values
  }

  ghost predicate MapsItself(s: Space, f: nat) {
    f in s.flat && HwWritable(s.flat[f]) && Frame(s.flat[f]) == f
  }

  /** Every table page is mapped, writable, at the virtual address equal to its physical address. */
  ghost predicate SelfMapped(s: Space) {
    forall k <- s.tables :: MapsItself(s, s.tables[k])
  }

  /** The tables that map the rest of the pool exist already. */
  ghost predicate Covered(s: Space, limit: nat) {
    forall f {:trigger LeafTable(f)} | s.next <= f < limit :: LeafTable(f) in s.tables
  }

  /** The tree is in memory and the pool is in order. */
  ghost predicate Core(mem: seq<nat>, s: Space, root: nat, limit: nat, taken: set<nat>) {
    && Tree(s, root)
    && Represents(mem, s)
    && Pool(mem, s, root, limit, taken)
    && (forall k <- s.tables :: s.tables[k] < limit)
  }

  /** What the running memory manager relies on and keeps. */
  ghost predicate Inv(mem: seq<nat>, s: Space, root: nat, limit: nat, taken: set<nat>) {
    Core(mem, s, root, limit, taken) && SelfMapped(s) && Covered(s, limit)
  }

  // ---------- the walk agrees with the abstract state ----------

  lemma {:induction false} PathClosed(s: Space, root: nat, va: nat, level: nat, upto: nat)
    requires Tree(s, root) && level <= upto <= 3
    requires Path(va, upto) in s.tables
    ensures Path(va, level) in s.tables
    decreases upto - level
  {
    if level < upto {
      PathStep(va, upto - 1);
      PathClosed(s, root, va, level, upto - 1);
    }
  }

  lemma {:induction false} WalkFrom(mem: seq<nat>, s: Space, root: nat, va: nat, level: nat)
    requires Tree(s, root) && Represents(mem, s)
    requires level <= 3 && Path(va, level) in s.tables
    ensures var r := HwWalk(mem, s.tables[Path(va, level)], va, level);
            && (Vpn(va) in s.flat ==> r == Some(s.flat[Vpn(va)]))
            && (Vpn(va) !in s.flat ==> r.None? || !Valid(r.value))
    decreases 3 - level
  {
    var k, i := Path(va, level), Index(va, level);
    assert EntryMatches(s, k, i, Entry(mem, s.tables[k], i));
    PathStep(va, level);
    PathEnds(va);
    if level < 3 {
      if k.Child(i) in s.tables {
        WalkFrom(mem, s, root, va, level + 1);
      } else if Vpn(va) in s.flat {
        PathClosed(s, root, va, level + 1, 3);
        assert false;
      }
    }
  }

  /** The hardware sees exactly the flat map. */
  lemma TranslateIsFlat(mem: seq<nat>, s: Space, root: nat, va: nat, write: bool)
    requires Tree(s, root) && Represents(mem, s)
    ensures Translate(mem, root, va, write) ==
            if Shr(va, 48) == 0 && Vpn(va) in s.flat &&
               (if write then HwWritable(s.flat[Vpn(va)]) else HwReadable(s.flat[Vpn(va)]))
            then Some(0x1000 * Frame(s.flat[Vpn(va)]) + va % 0x1000) else None
  {
    hide Shr, Low, Or, Shl;
    PathEnds(va);
    WalkFrom(mem, s, root, va, 0);
  }

  lemma TranslateEl0IsFlat(mem: seq<nat>, s: Space, root: nat, va: nat, write: bool)
    requires Tree(s, root) && Represents(mem, s)
    ensures TranslateEl0(mem, root, va, write) ==
            if Vpn(va) in s.flat && HwUser(s.flat[Vpn(va)]) then Translate(mem, root, va, write) else None
  {
    hide Shr, Low, Or, Shl, HwUser, HwReadable, HwWritable;
    PathEnds(va);
    WalkFrom(mem, s, root, va, 0);
    TranslateIsFlat(mem, s, root, va, write);
  }

  /** A table entry is reached at its own physical address: editing the tables never faults. */
  lemma TableReachable(mem: seq<nat>, s: Space, root: nat, k: Node, i: nat, write: bool)
    requires Tree(s, root) && Represents(mem, s) && SelfMapped(s)
    requires k in s.tables && i < 512 && s.tables[k] < FRAMES
    ensures Translate(mem, root, 0x1000 * s.tables[k] + 8 * i, write) == Some(0x1000 * s.tables[k] + 8 * i)
  {
    hide *;
    var f := s.tables[k];
    var va := 0x1000 * f + 8 * i;
    VpnInPage(f, 8 * i);
    TranslateIsFlat(mem, s, root, va, write);
    SelfMappedAt(s, k);
  }

  lemma SelfMappedAt(s: Space, k: Node)
    requires SelfMapped(s) && k in s.tables
    ensures s.tables[k] in s.flat && Frame(s.flat[s.tables[k]]) == s.tables[k]
    ensures HwWritable(s.flat[s.tables[k]]) && HwReadable(s.flat[s.tables[k]])
  {
    assert MapsItself(s, s.tables[k]);
  }

  lemma VpnInPage(f: nat, off: nat)
    requires f < FRAMES && off < 0x1000
    ensures Vpn(0x1000 * f + off) == f && Shr(0x1000 * f + off, 48) == 0
  {
    hide Shr, Low, Shl;
    var va := 0x1000 * f + off;
    SplitAt(va, 12);
    ShiftPage(Shr(va, 12));
    ShiftPage(1);
    assert Shr(va, 12) == f;
    LowSmall(f, 36);
    ShrShr(va, 12, 36);
    SplitAt(f, 36);
    ShrShr(f, 20, 16);
    Shl20();
    SplitAt(f, 20);
    SplitAt(0, 16);
    ShlZero(16);
  }

  // ---------- what each step of an edit keeps ----------

  lemma EntryUpdated(mem: seq<nat>, f: nat, i: nat, w: nat, g: nat, j: nat)
    requires i < 512 && j < 512 && 512 * f + i < |mem|
    ensures Entry(mem[512 * f + i := w], g, j) == if g == f && j == i then w else Entry(mem, g, j)
  {
  }

  ghost predicate WritesOne(mem: seq<nat>, mem': seq<nat>, f: nat, i: nat, w: nat) {
    && |mem'| == |mem|
    && Entry(mem', f, i) == w
    && (forall g, j | 0 <= j < 512 && (g != f || j != i) :: Entry(mem', g, j) == Entry(mem, g, j))
  }

  lemma WriteEntry(mem: seq<nat>, f: nat, i: nat, w: nat)
    requires i < 512 && 512 * f + i < |mem|
    ensures WritesOne(mem, mem[512 * f + i := w], f, i, w)
  {
  }

  /** Taking the next pool frame. */
  lemma TakeKeepsCore(mem: seq<nat>, s: Space, root: nat, limit: nat, taken: set<nat>)
    requires Core(mem, s, root, limit, taken) && s.next < limit
    ensures Core(mem, s.(next := s.next + 1), root, limit, taken + {s.next})
  {
    hide Shr, Low, Or, Shl, Bit, TableDescriptor;
    var s' := s.(next := s.next + 1);
    assert ZeroFrame(mem, s.next);
    forall k, i | k in s'.tables && 0 <= i < 512
      ensures EntryMatches(s', k, i, Entry(mem, s'.tables[k], i))
    {
      assert EntryMatches(s, k, i, Entry(mem, s.tables[k], i));
    }
  }

  lemma TakeKeepsInv(mem: seq<nat>, s: Space, root: nat, limit: nat, taken: set<nat>)
    requires Inv(mem, s, root, limit, taken) && s.next < limit
    ensures Inv(mem, s.(next := s.next + 1), root, limit, taken + {s.next})
  {
    hide Shr, Low, Or, Shl, Bit, Core, HwWritable;
    TakeKeepsCore(mem, s, root, limit, taken);
    forall k <- s.tables
      ensures MapsItself(s.(next := s.next + 1), s.tables[k])
    {
      assert MapsItself(s, s.tables[k]);
    }
  }

  /** Overwriting an entry that stays invalid changes nothing. */
  lemma InvalidStoreKeepsInv(mem: seq<nat>, mem': seq<nat>, s: Space, root: nat, limit: nat, taken: set<nat>,
                             k: Node, i: nat, w: nat)
    requires Inv(mem, s, root, limit, taken)
    requires k in s.tables && i < 512 && WritesOne(mem, mem', s.tables[k], i, w)
    requires !Valid(w) && EntryMatches(s, k, i, w)
    ensures Inv(mem', s, root, limit, taken)
  {
    hide Shr, Low, Or, Shl, Bit;
    ZeroKept(mem, mem', s, root, limit, taken, k, i, w);
    forall j, m | j in s.tables && 0 <= m < 512
      ensures EntryMatches(s, j, m, Entry(mem', s.tables[j], m))
    {
      assert EntryMatches(s, j, m, Entry(mem, s.tables[j], m));
    }
  }

  /** Writing into a table leaves the free pool zero. */
  lemma ZeroKept(mem: seq<nat>, mem': seq<nat>, s: Space, root: nat, limit: nat, taken: set<nat>,
                 k: Node, i: nat, w: nat)
    requires Pool(mem, s, root, limit, taken) && Tree(s, root)
    requires k in s.tables && WritesOne(mem, mem', s.tables[k], i, w)
    ensures Pool(mem', s, root, limit, taken)
  {
    hide Shr, Low, Or, Shl, Bit;
    forall f | s.next <= f < limit || f in taken
      ensures ZeroFrame(mem', f)
    {
      assert ZeroFrame(mem, f);
      assert f != s.tables[k];
    }
  }

  /** Setting or clearing a leaf. */
  lemma LeafStoreKeepsCore(mem: seq<nat>, mem': seq<nat>, s: Space, s': Space, root: nat, limit: nat, taken: set<nat>,
                           k: Node, i: nat, w: nat)
    requires Core(mem, s, root, limit, taken)
    requires k in s.tables && k.level == 3 && i < 512 && WritesOne(mem, mem', s.tables[k], i, w)
    requires s' == s.(flat := if Valid(w) then s.flat[k.Child(i).prefix := w] else s.flat - {k.Child(i).prefix})
    requires LeafTable(k.Child(i).prefix) == k
    ensures Core(mem', s', root, limit, taken)
  {
    hide Shr, Low, Or, Shl, Bit, TableDescriptor;
    ZeroKept(mem, mem', s, root, limit, taken, k, i, w);
    forall j, m | j in s'.tables && 0 <= m < 512
      ensures EntryMatches(s', j, m, Entry(mem', s'.tables[j], m))
    {
      assert EntryMatches(s, j, m, Entry(mem, s.tables[j], m));
      if j.level == 3 && (j != k || m != i) {
        assert j.Child(m).prefix != k.Child(i).prefix;
      }
    }
  }

  /** Setting or clearing the leaf of a page that is not a table page. */
  lemma LeafStoreKeepsInv(mem: seq<nat>, mem': seq<nat>, s: Space, s': Space, root: nat, limit: nat, taken: set<nat>,
                          k: Node, i: nat, w: nat)
    requires Inv(mem, s, root, limit, taken)
    requires k in s.tables && k.level == 3 && i < 512 && WritesOne(mem, mem', s.tables[k], i, w)
    requires k.Child(i).prefix !in s.tables.Values
    requires s' == s.(flat := if Valid(w) then s.flat[k.Child(i).prefix := w] else s.flat - {k.Child(i).prefix})
    requires LeafTable(k.Child(i).prefix) == k
    ensures Inv(mem', s', root, limit, taken)
  {
    hide Shr, Low, Or, Shl, Bit, Core, HwWritable, WritesOne;
    LeafStoreKeepsCore(mem, mem', s, s', root, limit, taken, k, i, w);
    forall j <- s'.tables
      ensures MapsItself(s', s'.tables[j])
    {
      assert MapsItself(s, s.tables[j]);
    }
  }

  lemma ChildBack(k: Node, i: nat)
    requires i < 512
    ensures k.Child(i).Parent() == k
    ensures forall j: Node, m: nat | m < 512 && k.Child(i) == j.Child(m) :: j == k && m == i
    ensures k.level == 3 ==> LeafTable(k.Child(i).prefix) == k
  {
  }

  lemma ZeroInvalid()
    ensures !Valid(0)
  {
  }

  /** Linking a zero frame as a new table. */
  lemma LinkKeepsCore(mem: seq<nat>, mem': seq<nat>, s: Space, s': Space, root: nat, limit: nat, taken: set<nat>,
                      k: Node, i: nat, f: nat, w: nat)
    requires Core(mem, s, root, limit, taken)
    requires k in s.tables && k.level < 3 && i < 512 && WritesOne(mem, mem', s.tables[k], i, w)
    requires k.Child(i) !in s.tables && f in taken && TableDescriptor(w, f)
    requires s' == s.(tables := s.tables[k.Child(i) := f])
    ensures Core(mem', s', root, limit, taken - {f})
  {
    hide Shr, Low, Or, Shl, Bit, TableDescriptor, Represents, WritesOne;
    ZeroKept(mem, mem', s, root, limit, taken, k, i, w);
    assert ZeroFrame(mem', f);
    assert s'.tables.Values == s.tables.Values + {f} by {
      assert s'.tables[k.Child(i)] == f;
      forall j <- s.tables ensures s.tables[j] in s'.tables.Values {
        assert s'.tables[j] == s.tables[j];
      }
    }
    ChildBack(k, i);
    LinkedRepresents(mem, mem', s, s', root, limit, taken, k, i, f, w);
  }

  lemma LinkedRepresents(mem: seq<nat>, mem': seq<nat>, s: Space, s': Space, root: nat, limit: nat, taken: set<nat>,
                         k: Node, i: nat, f: nat, w: nat)
    requires Core(mem, s, root, limit, taken)
    requires k in s.tables && k.level < 3 && i < 512 && WritesOne(mem, mem', s.tables[k], i, w)
    requires k.Child(i) !in s.tables && TableDescriptor(w, f) && f !in s.tables.Values && ZeroFrame(mem', f)
    requires s' == s.(tables := s.tables[k.Child(i) := f])
    ensures Represents(mem', s')
  {
    hide Shr, Low, Or, Shl, Bit, TableDescriptor, Pool, ZeroFrame;
    forall j, m | j in s'.tables && 0 <= m < 512
      ensures EntryMatches(s', j, m, Entry(mem', s'.tables[j], m))
    {
      ChildBack(j, m);
      if j == k.Child(i) {
        ZeroEntry(mem', f, m);
        ZeroInvalid();
      } else {
        assert EntryMatches(s, j, m, Entry(mem, s.tables[j], m));
      }
    }
  }

  lemma ZeroEntry(mem: seq<nat>, f: nat, i: nat)
    requires ZeroFrame(mem, f) && i < 512
    ensures Entry(mem, f, i) == 0
  {
  }

  /** Linking a zero frame that is mapped at its own address. */
  lemma LinkKeepsInv(mem: seq<nat>, mem': seq<nat>, s: Space, s': Space, root: nat, limit: nat, taken: set<nat>,
                     k: Node, i: nat, f: nat, w: nat)
    requires Inv(mem, s, root, limit, taken)
    requires k in s.tables && k.level < 3 && i < 512 && WritesOne(mem, mem', s.tables[k], i, w)
    requires k.Child(i) !in s.tables && f in taken && MapsItself(s, f) && TableDescriptor(w, f)
    requires s' == s.(tables := s.tables[k.Child(i) := f])
    ensures Inv(mem', s', root, limit, taken - {f})
  {
    hide Shr, Low, Or, Shl, Bit, Core, HwWritable, TableDescriptor;
    LinkKeepsCore(mem, mem', s, s', root, limit, taken, k, i, f, w);
    forall j <- s'.tables
      ensures MapsItself(s', s'.tables[j])
    {
      assert j != k.Child(i) ==> MapsItself(s, s.tables[j]);
    }
  }

  // ---------- what the operations mean ----------

  /** The next pool frame becomes the table on the way to `va` at `level`, mapped at its own address. */
  ghost function Extended(s: Space, va: nat, level: nat): Space
    requires level <= 3
  {
    s.(tables := s.tables[Path(va, level) := s.next],
       flat := s.flat[s.next := PageWord(0x1000 * s.next, PTE_USER_RW)],
       next := s.next + 1)
  }

  /** The tables on the way to `va` down to `level` exist. */
  ghost function Grown(s: Space, va: nat, level: nat): Space
    requires level <= 3
  {
    if level == 0 then s
    else
      var g := Grown(s, va, level - 1);
      if Path(va, level) in g.tables then g else Extended(g, va, level)
  }

  /** Mapping the page of `va`: its tables exist and its leaf descriptor is replaced. */
  ghost function Mapped(s: Space, va: nat, pa: nat, attr: nat): Space {
    var g := Grown(s, va, 3);
    g.(flat := g.flat[Vpn(va) := PageWord(pa, attr)])
  }

  /** How many tables are missing on the way to `va`. */
  ghost function Missing(s: Space, va: nat, level: nat): nat
    requires level <= 3
  {
    if level == 0 then 0 else Missing(s, va, level - 1) + if Path(va, level) in s.tables then 0 else 1
  }

  lemma {:induction false} GrownCounts(s: Space, va: nat, level: nat)
    requires level <= 3
    ensures Grown(s, va, level).next == s.next + Missing(s, va, level)
    ensures Grown(s, va, level).data == s.data
    ensures forall k: Node :: k in Grown(s, va, level).tables <==>
              k in s.tables || (1 <= k.level <= level && k == Path(va, k.level))
    ensures forall k <- s.tables :: Grown(s, va, level).tables[k] == s.tables[k]
    ensures forall k <- Grown(s, va, level).tables :: k in s.tables ||
              s.next <= Grown(s, va, level).tables[k] < Grown(s, va, level).next
  {
    hide PageWord, Shr, Low;
    if level > 0 {
      GrownCounts(s, va, level - 1);
    }
  }

  lemma {:induction false} MissingGrows(s: Space, va: nat, level: nat, upto: nat)
    requires level <= upto <= 3
    ensures Missing(s, va, level) <= Missing(s, va, upto)
  {
    if level < upto {
      MissingGrows(s, va, level, upto - 1);
    }
  }

  lemma MissingAtMost3(s: Space, va: nat)
    ensures Missing(s, va, 3) <= 3
  {
    hide Path;
    assert Missing(s, va, 1) <= 1;
    assert Missing(s, va, 2) <= 2;
  }

  /** Where the tables exist already nothing grows. */
  lemma {:induction false} CoveredMissing(s: Space, root: nat, va: nat, level: nat)
    requires Tree(s, root) && level <= 3
    requires Path(va, level) in s.tables
    ensures Missing(s, va, level) == 0
    ensures Grown(s, va, level) == s
  {
    if level > 0 {
      PathStep(va, level - 1);
      CoveredMissing(s, root, va, level - 1);
    }
  }

  /** Memory outside the tables is not written. */
  ghost predicate OnlyTables(mem: seq<nat>, mem': seq<nat>, tables: map<Node, nat>) {
    |mem'| == |mem| &&
    forall f, i | 0 <= i < 512 && f !in tables.Values :: Entry(mem', f, i) == Entry(mem, f, i)
  }

  /** The entry that a walk for `va` visits at `level` is reached where the walk expects it. */
  lemma SlotReachable(mem: seq<nat>, s: Space, root: nat, limit: nat, taken: set<nat>, va: nat, level: nat)
    requires Inv(mem, s, root, limit, taken)
    requires level <= 3 && Path(va, level) in s.tables
    ensures var f, i := s.tables[Path(va, level)], Index(va, level);
            && Or(0x1000 * f, 8 * i) == 0x1000 * f + 8 * i
            && 512 * f + i < |mem|
            && Translate(mem, root, 0x1000 * f + 8 * i, false) == Some(0x1000 * f + 8 * i)
            && Translate(mem, root, 0x1000 * f + 8 * i, true) == Some(0x1000 * f + 8 * i)
            && EntryMatches(s, Path(va, level), i, Entry(mem, f, i))
  {
    hide Shr, Low, Or, Shl, Bit, Translate;
    var k, i := Path(va, level), Index(va, level);
    SlotAddress(s.tables[k], i);
    TableReachable(mem, s, root, k, i, false);
    TableReachable(mem, s, root, k, i, true);
    assert EntryMatches(s, k, i, Entry(mem, s.tables[k], i));
  }

  lemma OnlyTablesTrans(mem: seq<nat>, mem': seq<nat>, mem'': seq<nat>, t: map<Node, nat>, t': map<Node, nat>)
    requires OnlyTables(mem, mem', t) && OnlyTables(mem', mem'', t')
    requires forall k <- t :: k in t' && t'[k] == t[k]
    ensures OnlyTables(mem, mem'', t')
  {
    forall f <- t.Values
      ensures f in t'.Values
    {
      var k :| k in t && t[k] == f;
      assert t'[k] == f;
    }
  }

  /** The next pool frame can be mapped at its own address without allocating. */
  lemma PoolFrameCovered(mem: seq<nat>, s: Space, root: nat, limit: nat, taken: set<nat>)
    requires Inv(mem, s, root, limit, taken) && s.next < limit
    ensures var t := s.(next := s.next + 1);
            && Vpn(0x1000 * s.next) == s.next
            && s.next !in s.tables.Values && s.next !in taken
            && Missing(t, 0x1000 * s.next, 3) == 0
            && Grown(t, 0x1000 * s.next, 3) == t
  {
    hide Shr, Low, Or, Shl, Bit;
    var t, va := s.(next := s.next + 1), 0x1000 * s.next;
    VpnOfFrame(s.next);
    PathEnds(va);
    assert Path(va, 3) == LeafTable(s.next);
    assert Tree(t, root);
    CoveredMissing(t, root, va, 3);
  }

  /** An address with its low twelve bits clear is not a valid descriptor. */
  lemma AlignedInvalid(f: nat)
    ensures !Valid(0x1000 * f)
  {
    ShiftPage(f);
    ShlBits(f, 12, 0);
  }

  lemma UserPage(f: nat)
    requires f < FRAMES
    ensures var w := PageWord(0x1000 * f, PTE_USER_RW); Valid(w) && HwWritable(w) && HwUser(w) && Frame(w) == f
  {
    hide Or, Shl;
    ConstantBits();
    VpnOfFrame(f);
    PageWordReads(0x1000 * f, PTE_USER_RW);
  }

  lemma FrameInRange(w: nat)
    ensures HwReadable(w) ==> Frame(w) < FRAMES
    ensures HwWritable(w) ==> HwReadable(w)
  {
  }

  lemma AddressIsFrame(w: nat)
    requires Frame(w) < FRAMES
    ensures Address(w) == 0x1000 * Frame(w)
  {
    LowLow(Shr(w, 12), 24, 12);
    LowSmall(Frame(w), 24);
  }

  /** Wherever the hardware can read, the page's address in the descriptor is the one that it reads. */
  lemma LookupTranslates(mem: seq<nat>, s: Space, root: nat, va: nat)
    requires Tree(s, root) && Represents(mem, s)
    ensures var t := Translate(mem, root, va, false);
            t.Some? ==> Vpn(va) in s.flat && t == Some(Address(s.flat[Vpn(va)]) + va % 0x1000)
  {
    hide Shr, Low, Vpn, Frame, Address, Translate, HwReadable, HwWritable;
    TranslateIsFlat(mem, s, root, va, false);
    if Vpn(va) in s.flat {
      var w := s.flat[Vpn(va)];
      FrameInRange(w);
      if Frame(w) < FRAMES {
        AddressIsFrame(w);
      }
    }
  }

  lemma InvBasics(mem: seq<nat>, s: Space, root: nat, limit: nat, taken: set<nat>)
    requires Inv(mem, s, root, limit, taken)
    ensures ROOT in s.tables && s.tables[ROOT] == root
    ensures root < s.next && limit <= FRAMES
    ensures forall k <- s.tables :: s.tables[k] in s.tables.Values
  {
  }

  lemma OnlyTablesRefl(mem: seq<nat>, tables: map<Node, nat>)
    ensures OnlyTables(mem, mem, tables)
  {
  }

  /** At a valid entry above the leaves the walk goes on in the child table; at an invalid one the
      child table is missing. */
  lemma EntryChild(s: Space, k: Node, i: nat, w: nat)
    requires EntryMatches(s, k, i, w) && k.level < 3
    ensures Valid(w) <==> k.Child(i) in s.tables
    ensures Valid(w) ==> Address(w) == 0x1000 * s.tables[k.Child(i)]
  {
  }

  lemma GrownZero(s: Space, va: nat)
    ensures Grown(s, va, 0) == s
  {
  }

  /** A growing walk: the state and the counts after one more level. */
  lemma GrownStep(s: Space, va: nat, level: nat)
    requires level < 3
    ensures var g := Grown(s, va, level);
            && s.next <= g.next
            && (Path(va, level + 1) in g.tables ==> Grown(s, va, level + 1) == g)
            && (Path(va, level + 1) !in g.tables ==>
                  && g.next < s.next + Missing(s, va, 3)
                  && Grown(s, va, level + 1) == Extended(g, va, level + 1))
  {
    hide Shr, Low, Or, Shl, Path;
    GrownCounts(s, va, level);
    MissingGrows(s, va, level + 1, 3);
  }

  // ---------- the writes of one map operation ----------

  /** `*pte = pa` before the descriptor's low bits are set: the entry is still invalid. */
  lemma NotYetLinked(mem: seq<nat>, mem': seq<nat>, s: Space, root: nat, limit: nat, taken: set<nat>,
                     va: nat, level: nat, n: nat)
    requires Inv(mem, s, root, limit, taken)
    requires level < 3 && Path(va, level) in s.tables && Path(va, level + 1) !in s.tables
    requires mem' == mem[512 * s.tables[Path(va, level)] + Index(va, level) := 0x1000 * n]
    ensures Inv(mem', s, root, limit, taken)
    ensures OnlyTables(mem, mem', s.tables)
    ensures Entry(mem', s.tables[Path(va, level)], Index(va, level)) == 0x1000 * n
  {
    hide Shr, Low, Or, Shl, Bit, Path, Index;
    var k, i := Path(va, level), Index(va, level);
    PathStep(va, level);
    AlignedInvalid(n);
    WriteEntry(mem, s.tables[k], i, 0x1000 * n);
    InvalidStoreKeepsInv(mem, mem', s, root, limit, taken, k, i, 0x1000 * n);
  }

  /** `*pte |= PTE_TABLE | tblattr`: the frame, mapped at its own address, is now a table. */
  lemma Linked(mem: seq<nat>, mem': seq<nat>, s: Space, root: nat, limit: nat, taken: set<nat>,
               va: nat, level: nat, n: nat, attr: nat)
    requires Inv(mem, s, root, limit, taken + {n}) && n !in taken && LowAttr(attr)
    requires level < 3 && Path(va, level) in s.tables && Path(va, level + 1) !in s.tables
    requires n in s.flat && s.flat[n] == PageWord(0x1000 * n, PTE_USER_RW)
    requires mem' == mem[512 * s.tables[Path(va, level)] + Index(va, level) := TableWord(0x1000 * n, attr)]
    ensures var s' := s.(tables := s.tables[Path(va, level + 1) := n]);
            Inv(mem', s', root, limit, taken) && OnlyTables(mem, mem', s'.tables)
  {
    hide Shr, Low, Or, Shl, Bit, Path, Index, TableWord, PageWord;
    var k, i := Path(va, level), Index(va, level);
    var w := TableWord(0x1000 * n, attr);
    PathStep(va, level);
    TableWordReads(n, attr);
    UserPage(n);
    WriteEntry(mem, s.tables[k], i, w);
    LinkKeepsInv(mem, mem', s, s.(tables := s.tables[k.Child(i) := n]), root, limit, taken + {n}, k, i, n, w);
    assert taken + {n} - {n} == taken;
  }

  /** A store to the leaf descriptor of `va`, valid or not. */
  lemma LeafWritten(mem: seq<nat>, mem': seq<nat>, s: Space, root: nat, limit: nat, taken: set<nat>, va: nat, w: nat)
    requires Inv(mem, s, root, limit, taken)
    requires Path(va, 3) in s.tables && Vpn(va) !in s.tables.Values
    requires mem' == mem[512 * s.tables[Path(va, 3)] + Index(va, 3) := w]
    ensures Inv(mem', s.(flat := if Valid(w) then s.flat[Vpn(va) := w] else s.flat - {Vpn(va)}), root, limit, taken)
    ensures OnlyTables(mem, mem', s.tables)
    ensures Entry(mem', s.tables[Path(va, 3)], Index(va, 3)) == w
  {
    hide Shr, Low, Or, Shl, Bit, Path, Index;
    var k, i := Path(va, 3), Index(va, 3);
    PathEnds(va);
    PathStep(va, 3);
    WriteEntry(mem, s.tables[k], i, w);
    var s' := s.(flat := if Valid(w) then s.flat[Vpn(va) := w] else s.flat - {Vpn(va)});
    LeafStoreKeepsInv(mem, mem', s, s', root, limit, taken, k, i, w);
  }

  /** Growing the tables for `va` makes no table at the page of `va`, if that page is not next. */
  lemma GrownOffPage(s: Space, root: nat, va: nat)
    requires Vpn(va) !in s.tables.Values
    requires !(s.next <= Vpn(va) < s.next + Missing(s, va, 3))
    ensures Vpn(va) !in Grown(s, va, 3).tables.Values
  {
    hide Shr, Low, Or, Shl, Bit, Path, Index, Grown, Missing, Vpn;
    GrownCounts(s, va, 3);
  }

  // ---------- unmapping, lookup and fresh frames ----------

  ghost function Unmapped(s: Space, va: nat): Space {
    s.(flat := s.flat - {Vpn(va)})
  }

  /** Where a table on the way is missing, the page is not mapped. */
  lemma NoTableNoPage(s: Space, root: nat, va: nat, level: nat)
    requires Tree(s, root) && level <= 3
    requires Path(va, level) !in s.tables
    ensures Vpn(va) !in s.flat
  {
    hide Shr, Low, Or, Shl;
    if Vpn(va) in s.flat {
      PathEnds(va);
      assert LeafTable(Vpn(va)) in s.tables;
      PathClosed(s, root, va, level, 3);
    }
  }

  /** What the walk finds at one level of a valid tree. */
  lemma WalkStep(mem: seq<nat>, s: Space, root: nat, limit: nat, taken: set<nat>, va: nat, level: nat)
    requires Inv(mem, s, root, limit, taken)
    requires level <= 3 && Path(va, level) in s.tables
    ensures var w := Entry(mem, s.tables[Path(va, level)], Index(va, level));
            && (!Valid(w) ==> Vpn(va) !in s.flat)
            && (Valid(w) && level < 3 ==>
                  Path(va, level + 1) in s.tables && Address(w) == 0x1000 * s.tables[Path(va, level + 1)])
            && (Valid(w) && level == 3 ==> Vpn(va) in s.flat && s.flat[Vpn(va)] == w)
  {
    hide Shr, Low, Or, Shl, Bit, Path, Index, Vpn;
    var k, i := Path(va, level), Index(va, level);
    assert EntryMatches(s, k, i, Entry(mem, s.tables[k], i));
    PathStep(va, level);
    PathEnds(va);
    if level < 3 && k.Child(i) !in s.tables {
      NoTableNoPage(s, root, va, level + 1);
    }
  }

  /** The next frame becomes data. */
  ghost function Claimed(s: Space): Space {
    s.(next := s.next + 1, data := s.data + {s.next})
  }

  lemma ClaimKeepsCore(mem: seq<nat>, s: Space, root: nat, limit: nat, taken: set<nat>, n: nat)
    requires Core(mem, s, root, limit, taken + {n}) && n !in taken
    ensures Core(mem, s.(data := s.data + {n}), root, limit, taken)
  {
    hide Shr, Low, Or, Shl, Bit, Path, Index, Vpn, TableDescriptor;
    var s' := s.(data := s.data + {n});
    forall k, i | k in s'.tables && 0 <= i < 512
      ensures EntryMatches(s', k, i, Entry(mem, s'.tables[k], i))
    {
      assert EntryMatches(s, k, i, Entry(mem, s.tables[k], i));
    }
  }

  lemma ClaimKeepsInv(mem: seq<nat>, s: Space, root: nat, limit: nat, taken: set<nat>, n: nat)
    requires Inv(mem, s, root, limit, taken + {n}) && n !in taken
    ensures Inv(mem, s.(data := s.data + {n}), root, limit, taken)
  {
    hide Shr, Low, Or, Shl, Bit, Core, HwWritable;
    ClaimKeepsCore(mem, s, root, limit, taken, n);
    forall k <- s.tables
      ensures MapsItself(s.(data := s.data + {n}), s.tables[k])
    {
      assert MapsItself(s, s.tables[k]);
    }
  }

  /** Mapping the page of `va` to a fresh frame. */
  ghost function MappedFresh(s: Space, va: nat, attr: nat): Space {
    Mapped(Claimed(s), va, 0x1000 * s.next, attr)
  }

  lemma {:induction false} MissingSame(s: Space, s': Space, va: nat, level: nat)
    requires s.tables == s'.tables && level <= 3
    ensures Missing(s, va, level) == Missing(s', va, level)
  {
    if level > 0 {
      MissingSame(s, s', va, level - 1);
    }
  }

  /** Mapping `n` pages from `va` up to fresh frames, lowest page first. */
  ghost function Heaped(s: Space, va: nat, n: nat): Space {
    if n == 0 then s else MappedFresh(Heaped(s, va, n - 1), va + 0x1000 * (n - 1), PTE_USER_RW)
  }

  function Ceil(n: nat, d: nat): nat
    requires d > 0
  {
    if n == 0 then 0 else (n - 1) / d + 1
  }

  /** Pages needed for `len` bytes. */
  function Pages(len: nat): nat {
    Ceil(len, 0x1000)
  }

  lemma FreshFrame(mem: seq<nat>, s: Space, root: nat, limit: nat, n: nat)
    requires Inv(mem, s, root, limit, {} + {n})
    ensures Inv(mem, s.(data := s.data + {n}), root, limit, {})
  {
    hide Inv;
    ClaimKeepsInv(mem, s, root, limit, {}, n);
  }

  /** Mapping a page keeps every earlier table and only moves the allocator up. */
  lemma FreshKeepsTables(s: Space, va: nat, attr: nat)
    ensures var s' := MappedFresh(s, va, attr);
            && s.next < s'.next
            && (forall k <- s.tables :: k in s'.tables && s'.tables[k] == s.tables[k])
  {
    hide Shr, Low, Path, PageWord;
    GrownCounts(Claimed(s), va, 3);
  }

  lemma {:induction false} HeapedGrows(s: Space, va: nat, j: nat, n: nat)
    requires j <= n
    ensures Heaped(s, va, j).next <= Heaped(s, va, n).next
  {
    if j < n {
      HeapedGrows(s, va, j, n - 1);
      FreshKeepsTables(Heaped(s, va, n - 1), va + 0x1000 * (n - 1), PTE_USER_RW);
    }
  }

  lemma TablesInPool(mem: seq<nat>, s: Space, root: nat, limit: nat)
    requires Inv(mem, s, root, limit, {})
    ensures root < s.next
    ensures forall f <- s.tables.Values :: root <= f < limit
  {
  }
}
