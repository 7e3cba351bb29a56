/** The boot-time mapper in assembly. It runs with the MMU off, so it loads and stores descriptors at
    physical addresses, and it does not map the tables it makes. */
module Boot {
  import opened Bits
  import opened Vmsa
  import opened TableTree
  import opened Heap
  import opened PageRanges
  import opened Memory

  // ---------- what the mapper does ----------

  /** The tables on the way to `va` exist; nothing is mapped for them. */
  ghost function Reached(s: Space, va: nat, level: nat): Space
    requires level <= 3
  {
    if level == 0 then s
    else
      var g := Reached(s, va, level - 1);
      if Path(va, level) in g.tables then g
      else g.(tables := g.tables[Path(va, level) := g.next], next := g.next + 1)
  }

  ghost function Placed(s: Space, va: nat, w: nat): Space {
    var g := Reached(s, va, 3);
    g.(flat := g.flat[Vpn(va) := w])
  }

  /** The leaf descriptor: `orr x12, x1, x2`. */
  function BootWord(prop: nat, pa: nat): nat {
    Or(prop, pa)
  }

  /** Property arguments are page descriptors' low bits, valid bit included. */
  predicate PageProp(prop: nat) {
    Shr(prop, 12) == 0 && Bit(prop, 0) == 1
  }

  lemma {:induction false} ReachedCounts(s: Space, va: nat, level: nat)
    requires level <= 3
    ensures s.next <= Reached(s, va, level).next <= s.next + level
    ensures Reached(s, va, level).data == s.data && Reached(s, va, level).flat == s.flat
    ensures forall k: Node :: k in Reached(s, va, level).tables <==>
              k in s.tables || (1 <= k.level <= level && k == Path(va, k.level))
    ensures level > 0 ==> Reached(s, va, level - 1).next <= Reached(s, va, level).next
  {
    if level > 0 {
      ReachedCounts(s, va, level - 1);
    }
  }

  lemma {:induction false} OrComm(a: nat, b: nat)
    ensures Or(a, b) == Or(b, a)
    decreases a + b
  {
    if a != 0 && b != 0 {
      OrComm(a / 2, b / 2);
    }
  }

  /** A boot descriptor for a page-aligned address is read back as that page. */
  lemma BootWordReads(prop: nat, f: nat)
    requires PageProp(prop) && f < FRAMES
    ensures var w := BootWord(prop, 0x1000 * f);
            && Valid(w) && Frame(w) == f && Shr(w, 12) == f
            && (HwReadable(w) <==> Bit(prop, 1) == 1 && Bit(prop, 10) == 1)
            && (HwWritable(w) <==> Bit(prop, 1) == 1 && Bit(prop, 10) == 1 && Bit(prop, 7) == 0)
            && (HwUser(w) <==> Bit(prop, 6) == 1)
  {
    hide Shr, Low, Or, Shl, Bit;
    OrComm(prop, 0x1000 * f);
    OrFields(f, prop);
    LowSmall(f, 36);
  }

  lemma AnyBootWordValid(prop: nat, pa: nat)
    requires PageProp(prop)
    ensures Valid(BootWord(prop, pa))
  {
    OrShr(prop, pa, 0);
  }

  // ---------- ranges and scripts ----------

  /** One call of the init code. `MapPa` maps pages at their own addresses, `MapVa` maps pages to fresh
      frames; lengths are rounded up to pages. */
  datatype Step =
    | MapPa(addr: nat, prop: nat, len: nat)
    | MapVa(addr: nat, prop: nat, len: nat)
    | Unmap(addr: nat, len: nat)
  {
    predicate Ok() {
      Unmap? || PageProp(prop)
    }
  }

  /** Performing `n` pages of a step, lowest first. */
  ghost function StepPages(s: Space, c: Step, n: nat): Space {
    if n == 0 then s
    else
      var t, va := StepPages(s, c, n - 1), c.addr + 0x1000 * (n - 1);
      match c
      case MapPa(_, prop, _) => Placed(t, va, BootWord(prop, va))
      case MapVa(_, prop, _) => Placed(Claimed(t), va, BootWord(prop, 0x1000 * t.next))
      case Unmap(_, _) => Unmapped(t, va)
  }

  ghost function StepDone(s: Space, c: Step): Space {
    StepPages(s, c, Pages(c.len))
  }

  ghost function StepsDone(s: Space, steps: seq<Step>): Space {
    if steps == [] then s else StepDone(StepsDone(s, steps[..|steps| - 1]), steps[|steps| - 1])
  }

  lemma {:induction false} PagesGrow(s: Space, c: Step, j: nat, n: nat)
    requires j <= n
    ensures s.next <= StepPages(s, c, j).next <= StepPages(s, c, n).next
  {
    hide Vpn, Reached, BootWord;
    if n > 0 {
      var t, va := StepPages(s, c, n - 1), c.addr + 0x1000 * (n - 1);
      PagesGrow(s, c, if j < n then j else n - 1, n - 1);
      ReachedCounts(t, va, 3);
      ReachedCounts(Claimed(t), va, 3);
    }
  }

  lemma {:induction false} StepsGrow(s: Space, steps: seq<Step>, j: nat)
    requires j <= |steps|
    ensures s.next <= StepsDone(s, steps[..j]).next <= StepsDone(s, steps).next
    decreases |steps|
  {
    hide StepPages;
    if steps == [] {
      assert steps[..j] == [];
    } else {
      var before, c := steps[..|steps| - 1], steps[|steps| - 1];
      var t := StepsDone(s, before);
      PagesGrow(t, c, 0, Pages(c.len));
      StepNone(t, c);
      if j == |steps| {
        assert steps[..j] == steps;
        StepsGrow(s, before, |before|);
      } else {
        assert before[..j] == steps[..j];
        StepsGrow(s, before, j);
      }
      assert before[..|before|] == before;
    }
  }

  lemma StepNone(s: Space, c: Step)
    ensures StepPages(s, c, 0) == s
  {
  }

  /** The pages a step works on, as page numbers. */
  predicate Aligned(c: Step) {
    c.addr == At(c.addr / 0x1000) && c.addr / 0x1000 + Pages(c.len) <= PAGE_NUMBERS
  }

  function First(c: Step): nat {
    c.addr / 0x1000
  }

  lemma PlacedFlat(s: Space, va: nat, w: nat)
    ensures Placed(s, va, w).flat == s.flat[Vpn(va) := w]
  {
    hide Vpn, Path;
    ReachedCounts(s, va, 3);
  }

  /** The first `n` pages of a step are done, and nothing else has changed. */
  ghost predicate PagesDone(s: Space, t: Space, c: Step, n: nat) {
    var v := First(c);
    && (forall x: nat | !(v <= x < v + n) :: (x in t.flat <==> x in s.flat) && (x in s.flat ==> t.flat[x] == s.flat[x]))
    && (forall x: nat | v <= x < v + n :: x in t.flat <==> !c.Unmap?)
    && (c.MapPa? ==> forall x: nat | v <= x < v + n :: x in t.flat && t.flat[x] == BootWord(c.prop, At(x)))
  }

  lemma OnePageDone(s: Space, t: Space, u: Space, c: Step, n: nat, w: nat)
    requires PagesDone(s, t, c, n)
    requires u.flat == if c.Unmap? then t.flat - {First(c) + n} else t.flat[First(c) + n := w]
    requires c.MapPa? ==> w == BootWord(c.prop, At(First(c) + n))
    ensures PagesDone(s, u, c, n + 1)
  {
    hide BootWord, At, First;
  }

  /** A step changes exactly the pages of its rounded-up range. */
  lemma {:induction false} StepFlat(s: Space, c: Step, n: nat)
    requires c.addr == At(First(c)) && First(c) + n <= PAGE_NUMBERS
    ensures PagesDone(s, StepPages(s, c, n), c, n)
  {
    hide Vpn, Placed, BootWord;
    if n > 0 {
      var t, va := StepPages(s, c, n - 1), c.addr + 0x1000 * (n - 1);
      StepFlat(s, c, n - 1);
      assert va == At(First(c) + n - 1);
      VpnAt(First(c) + n - 1);
      var w := BootWord(if c.Unmap? then 0 else c.prop, if c.MapPa? then va else 0x1000 * t.next);
      PlacedFlat(t, va, w);
      PlacedFlat(Claimed(t), va, w);
      OnePageDone(s, t, StepPages(s, c, n), c, n - 1, w);
    }
  }

  /** A range mapped to fresh frames: each page has its own, later pages have later ones, and the frames
      are the data frames added. */
  lemma {:induction false} RangeFresh(s: Space, c: Step, n: nat)
    requires c.MapVa? && c.addr == At(First(c)) && First(c) + n <= PAGE_NUMBERS
    ensures FreshRange(s, StepPages(s, c, n), c, n)
  {
    hide Vpn, Placed, BootWord, First, At, FreshRange;
    if n == 0 {
      NothingFresh(s, c);
    } else {
      var t, va := StepPages(s, c, n - 1), c.addr + 0x1000 * (n - 1);
      RangeFresh(s, c, n - 1);
      PageAddressOf(c, n - 1);
      VpnAt(First(c) + n - 1);
      PlacedFlat(Claimed(t), va, BootWord(c.prop, 0x1000 * t.next));
      PlacedCounts(Claimed(t), va, BootWord(c.prop, 0x1000 * t.next));
      OneMoreFresh(s, t, StepPages(s, c, n), c, n - 1);
    }
  }

  /** The first `n` pages of a range are on fresh frames. */
  ghost predicate FreshRange(s: Space, t: Space, c: Step, n: nat)
    requires c.MapVa?
  {
    && s.next <= t.next
    && (forall j: nat | j < n :: OnFrame(t, c, j, FrameOf(s, c, j)) && s.next <= FrameOf(s, c, j) < t.next)
    && (forall i: nat, j: nat | i < j < n :: FrameOf(s, c, i) < FrameOf(s, c, j))
    && t.data == s.data + set j: nat | j < n :: FrameOf(s, c, j)
  }

  ghost predicate OnFrame(t: Space, c: Step, j: nat, f: nat)
    requires c.MapVa?
  {
    First(c) + j in t.flat && t.flat[First(c) + j] == BootWord(c.prop, 0x1000 * f)
  }

  lemma NothingFresh(s: Space, c: Step)
    requires c.MapVa?
    ensures FreshRange(s, StepPages(s, c, 0), c, 0)
  {
  }

  lemma PageAddressOf(c: Step, n: nat)
    requires c.addr == At(First(c))
    ensures c.addr + 0x1000 * n == At(First(c) + n)
  {
  }

  lemma OneMoreFresh(s: Space, t: Space, u: Space, c: Step, n: nat)
    requires c.MapVa? && FreshRange(s, t, c, n) && FrameOf(s, c, n) == t.next
    requires u.flat == t.flat[First(c) + n := BootWord(c.prop, 0x1000 * t.next)]
    requires u.data == t.data + {t.next} && u.next > t.next
    ensures FreshRange(s, u, c, n + 1)
  {
    hide FrameOf, BootWord, First;
    var fs := set j: nat | j < n :: FrameOf(s, c, j);
    assert (set j: nat | j < n + 1 :: FrameOf(s, c, j)) == fs + {t.next};
    forall j: nat | j < n + 1
      ensures OnFrame(u, c, j, FrameOf(s, c, j)) && s.next <= FrameOf(s, c, j) < u.next
    {
      assert j < n ==> OnFrame(t, c, j, FrameOf(s, c, j));
    }
    forall i: nat, j: nat | i < j < n + 1
      ensures FrameOf(s, c, i) < FrameOf(s, c, j)
    {
      assert OnFrame(t, c, i, FrameOf(s, c, i));
    }
  }

  ghost function FrameOf(s: Space, c: Step, j: nat): nat {
    StepPages(s, c, j).next
  }

  lemma PlacedCounts(s: Space, va: nat, w: nat)
    ensures Placed(s, va, w).data == s.data && s.next <= Placed(s, va, w).next
  {
    hide Vpn, Path;
    ReachedCounts(s, va, 3);
  }

  /** A step that works elsewhere leaves the page range [lo, hi) alone. */
  ghost predicate Avoids(c: Step, lo: nat, hi: nat) {
    Aligned(c) && (First(c) + Pages(c.len) <= lo || hi <= First(c))
  }

  ghost predicate SameOn(s: Space, t: Space, lo: nat, hi: nat) {
    forall x | lo <= x < hi :: (x in t.flat <==> x in s.flat) && (x in s.flat ==> t.flat[x] == s.flat[x])
  }

  lemma {:induction false} StepsAvoid(s: Space, steps: seq<Step>, lo: nat, hi: nat)
    requires forall k | 0 <= k < |steps| :: Avoids(steps[k], lo, hi)
    ensures SameOn(s, StepsDone(s, steps), lo, hi)
  {
    hide StepPages, Pages;
    if steps != [] {
      var c := steps[|steps| - 1];
      StepsAvoid(s, steps[..|steps| - 1], lo, hi);
      assert Avoids(c, lo, hi);
      StepFlat(StepsDone(s, steps[..|steps| - 1]), c, Pages(c.len));
    }
  }

  lemma {:induction false} StepsSplit(s: Space, a: seq<Step>, b: seq<Step>)
    ensures StepsDone(s, a + b) == StepsDone(StepsDone(s, a), b)
  {
    hide StepDone;
    if b == [] {
      assert a + b == a;
    } else {
      assert (a + b)[..|a + b| - 1] == a + b[..|b| - 1];
      StepsSplit(s, a, b[..|b| - 1]);
    }
  }

  /** The page table region: 64 pages from the root. */
  const REGION_PAGES := 64
  const PGTBL_SIZE := 0x4_0000

  /** Boot establishes what the running memory manager relies on, if it maps the table region and
      afterwards leaves it alone and has not used the region up. */
  lemma BootEstablishes(mem: seq<nat>, s0: Space, root: nat, limit: nat, pre: seq<Step>, prop: nat, post: seq<Step>)
    requires Bit(prop, 0) == 1 && Bit(prop, 1) == 1 && Bit(prop, 10) == 1 && Bit(prop, 7) == 0 && Shr(prop, 12) == 0
    requires forall k | 0 <= k < |post| :: Avoids(post[k], root, root + REGION_PAGES)
    requires var s := StepsDone(s0, pre + [MapPa(At(root), prop, PGTBL_SIZE)] + post);
             Core(mem, s, root, limit, {}) && s.next <= root + REGION_PAGES
    requires root + REGION_PAGES <= limit <= 512 * ((root + REGION_PAGES - 1) / 512) + 512
    ensures Inv(mem, StepsDone(s0, pre + [MapPa(At(root), prop, PGTBL_SIZE)] + post), root, limit, {})
  {
    hide Shr, Low, Or, Shl, Bit, StepPages, BootWord, Represents, Pool;
    var c := MapPa(At(root), prop, PGTBL_SIZE);
    var t := StepsDone(s0, pre);
    var u := StepDone(t, c);
    var s := StepsDone(s0, pre + [c] + post);
    CoreBasics(mem, s, root, limit, {});
    assert Pages(PGTBL_SIZE) == REGION_PAGES;
    StepFlat(t, c, REGION_PAGES);
    StepsSplit(s0, pre, [c]);
    StepsSplit(s0, pre + [c], post);
    assert [c][..0] == [];
    assert StepsDone(t, [c]) == u;
    StepsAvoid(u, post, root, root + REGION_PAGES);
    forall f | root <= f < root + REGION_PAGES
      ensures MapsItself(s, f) && LeafTable(f) in s.tables
    {
      BootWordReads(prop, f);
      assert f in u.flat;
    }
    forall f | s.next <= f < limit
      ensures LeafTable(f) in s.tables
    {
      if f >= root + REGION_PAGES {
        assert LeafTable(f) == LeafTable(root + REGION_PAGES - 1);
      }
    }
  }

  // ---------- the mapper ----------

  class BootMapper {
    const base: nat  // PT_BASE
    var pool: nat  // the word at RAM_BASE + 0x2000
    const ram: Ram
    ghost const root: nat
    ghost const limit: nat
    ghost var space: Space

    ghost predicate Valid(taken: set<nat>)
      reads this, ram
    {
      && pool == 0x1000 * space.next
      && base == 0x1000 * root
      && Core(ram.words, space, root, limit, taken)
    }

    /** Zeroed memory with the pool starting one page above the root. */
    constructor (ram: Ram, base: nat, ghost limit: nat)
      requires base % 0x1000 == 0 && base / 0x1000 + 1 < limit <= FRAMES && 512 * limit <= |ram.words|
      requires forall f | base / 0x1000 <= f < limit :: ZeroFrame(ram.words, f)
      ensures Valid({}) && this.base == base && this.limit == limit && root == base / 0x1000
      ensures this.ram == ram && space == Space(map[ROOT := base / 0x1000], map[], base / 0x1000 + 1, {})
    {
      hide Shr, Low, Or, Shl, Bit, TableDescriptor;
      this.base := base;
      this.pool := base + 0x1000;
      this.ram := ram;
      this.root := base / 0x1000;
      this.limit := limit;
      this.space := Space(map[ROOT := base / 0x1000], map[], base / 0x1000 + 1, {});
      new;
      ZeroInvalid();
      assert ZeroFrame(ram.words, root);
      forall k, i | k in space.tables && 0 <= i < 512
        ensures EntryMatches(space, k, i, Entry(ram.words, space.tables[k], i))
      {
        assert Entry(ram.words, root, i) == 0;
      }
    }

    method AllocatePa(ghost taken: set<nat>) returns (x0: nat)
      requires Valid(taken) && space.next < limit
      modifies this`pool, this`space
      ensures x0 == 0x1000 * old(space.next)
      ensures space == old(space).(next := old(space.next) + 1)
      ensures Valid(taken + {old(space.next)})
    {
      hide Core;
      TakeKeepsCore(ram.words, space, root, limit, taken);
      x0 := pool;
      pool := x0 + 0x1000;
      space := space.(next := space.next + 1);
    }

    /** map_va_to_pa: one round of the loop per level; an invalid entry gets a new table. */
    method MapVaToPa(va: nat, prop: nat, pa: nat)
      requires Valid({}) && PageProp(prop)
      requires Placed(space, va, BootWord(prop, pa)).next <= limit
      modifies ram, this`pool, this`space
      ensures Valid({})
      ensures space == Placed(old(space), va, BootWord(prop, pa))
      ensures OutsideKept(old(ram.words), ram.words, root, limit)
    {
      hide OutsideKept, Shr, Low, Or, Shl, Bit, Core, EntryMatches, Path, Index, TableDescriptor, WritesOne, Vpn,
           PageProp, TableWord,
           Reached;
      ghost var s0 := space;
      var x12, x13 := base, 4;
      PathEnds(va);
      CoreBasics(ram.words, space, root, limit, {});
      ReachedZero(s0, va);
      VpnOfFrame(root);
      OutsideRefl(ram.words, root, limit);
      while true
        invariant 1 <= x13 <= 4 && Valid({})
        invariant space == Reached(s0, va, 4 - x13)
        invariant OutsideKept(old(ram.words), ram.words, root, limit)
        invariant Path(va, 4 - x13) in space.tables && Shr(x12, 12) == space.tables[Path(va, 4 - x13)]
        decreases x13
      {
        ghost var level := 4 - x13;
        ghost var f, i := space.tables[Path(va, level)], Index(va, level);
        CoreBasics(ram.words, space, root, limit, {});
        SlotIs(f, i);
        var x11 := 0x1000 * Shr(x12, 12);
        var x10 := Or(8 * Index(va, 4 - x13), x11);
        x13 := x13 - 1;
        if x13 == 0 {
          ghost var m0 := ram.words;
          ram.words := ram.words[x10 / 8 := BootWord(prop, pa)];
          OutsideWrite(old(ram.words), m0, ram.words, root, limit, f, i, BootWord(prop, pa));
          AnyBootWordValid(prop, pa);
          BootLeaf(m0, ram.words, space, root, limit, va, BootWord(prop, pa));
          space := space.(flat := space.flat[Vpn(va) := BootWord(prop, pa)]);
          return;
        }
        ReachedStep(s0, va, level);
        BootChild(ram.words, space, root, limit, va, level);
        x12 := ram.words[x10 / 8];
        if !Vmsa.Valid(x12) {
          ghost var m0, s1, n := ram.words, space, space.next;
          var x0 := AllocatePa({});
          assert {} + {n} == {n};
          x12 := Or(x0, PTE_TABLE);
          ram.words := ram.words[x10 / 8 := x12];
          OutsideWrite(old(ram.words), m0, ram.words, root, limit, f, i, x12);
          BootLink(m0, ram.words, s1, root, limit, va, level, x12);
          space := space.(tables := space.tables[Path(va, level + 1) := n]);
        }
      }
    }

    /** unmap_va: clears the leaf descriptor; a missing table means there is nothing to do. */
    method UnmapVa(va: nat)
      requires Valid({})
      modifies ram, this`space
      ensures Valid({})
      ensures space == Unmapped(old(space), va)
      ensures OutsideKept(old(ram.words), ram.words, root, limit)
    {
      hide OutsideKept, Shr, Low, Or, Shl, Bit, Core, EntryMatches, Path, Index, TableDescriptor, WritesOne, Vpn;
      var x12, x13 := base, 4;
      PathEnds(va);
      CoreBasics(ram.words, space, root, limit, {});
      VpnOfFrame(root);
      OutsideRefl(ram.words, root, limit);
      while true
        invariant 1 <= x13 <= 4 && ram.words == old(ram.words) && space == old(space)
        invariant Path(va, 4 - x13) in space.tables && Shr(x12, 12) == space.tables[Path(va, 4 - x13)]
        decreases x13
      {
        ghost var level := 4 - x13;
        ghost var f, i := space.tables[Path(va, level)], Index(va, level);
        SlotIs(f, i);
        var x11 := 0x1000 * Shr(x12, 12);
        var x10 := Or(8 * Index(va, 4 - x13), x11);
        x13 := x13 - 1;
        if x13 == 0 {
          ghost var m0 := ram.words;
          CoreBasics(ram.words, space, root, limit, {});
          ram.words := ram.words[x10 / 8 := 0];
          OutsideWrite(m0, m0, ram.words, root, limit, f, i, 0);
          ZeroInvalid();
          BootLeaf(m0, ram.words, space, root, limit, va, 0);
          space := Unmapped(space, va);
          return;
        }
        BootChild(ram.words, space, root, limit, va, level);
        x12 := ram.words[x10 / 8];
        if !Vmsa.Valid(x12) {
          CoreTree(ram.words, space, root, limit, {});
          NoTableNoPage(space, root, va, level + 1);
          assert Unmapped(space, va).flat == space.flat;
          return;
        }
      }
    }

    method MapVa(va: nat, prop: nat)
      requires Valid({}) && PageProp(prop)
      requires Placed(Claimed(space), va, BootWord(prop, 0x1000 * space.next)).next <= limit
      modifies ram, this`pool, this`space
      ensures Valid({})
      ensures space == Placed(Claimed(old(space)), va, BootWord(prop, 0x1000 * old(space).next))
      ensures OutsideKept(old(ram.words), ram.words, root, limit)
    {
      hide OutsideKept, Shr, Low, Or, Shl, Bit, Core, Vpn, BootWord, Path, PageProp;
      ghost var n := space.next;
      ReachedCounts(Claimed(space), va, 3);
      var x2 := AllocatePa({});
      ClaimKeepsCore(ram.words, space, root, limit, {}, n);
      space := space.(data := space.data + {n});
      MapVaToPa(va, prop, x2);
    }

    method MapPaRange(pa: nat, prop: nat, len: nat)
      requires Valid({}) && PageProp(prop)
      requires StepDone(space, Step.MapPa(pa, prop, len)).next <= limit
      modifies ram, this`pool, this`space
      ensures Valid({}) && space == StepDone(old(space), Step.MapPa(pa, prop, len))
      ensures OutsideKept(old(ram.words), ram.words, root, limit)
    {
      hide OutsideKept, Shr, Low, Or, Shl, Bit, Core, Vpn, BootWord, Path, PageProp, Placed;
      ghost var c, s0, n := Step.MapPa(pa, prop, len), space, 0;
      RoundUp(len);
      OutsideRefl(ram.words, root, limit);
      var x0, x2 := pa, 0x1000 * Shr(len + 0xFFF, 12);
      while x2 != 0
        invariant x2 == 0x1000 * (Pages(len) - n) && x0 == pa + 0x1000 * n && n <= Pages(len)
        invariant Valid({}) && space == StepPages(s0, c, n) && OutsideKept(old(ram.words), ram.words, root, limit)
      {
        ghost var m := ram.words;
        PagesGrow(s0, c, n + 1, Pages(len));
        MapVaToPa(x0, prop, x0);
        OutsideTrans(old(ram.words), m, ram.words, root, limit);
        x0, x2, n := x0 + 0x1000, x2 - 0x1000, n + 1;
      }
    }

    method MapVaRange(va: nat, prop: nat, len: nat)
      requires Valid({}) && PageProp(prop)
      requires StepDone(space, Step.MapVa(va, prop, len)).next <= limit
      modifies ram, this`pool, this`space
      ensures Valid({}) && space == StepDone(old(space), Step.MapVa(va, prop, len))
      ensures OutsideKept(old(ram.words), ram.words, root, limit)
    {
      hide OutsideKept, Shr, Low, Or, Shl, Bit, Core, Vpn, BootWord, Path, PageProp, Placed;
      ghost var c, s0, n := Step.MapVa(va, prop, len), space, 0;
      RoundUp(len);
      OutsideRefl(ram.words, root, limit);
      var x0, x2 := va, 0x1000 * Shr(len + 0xFFF, 12);
      while x2 != 0
        invariant x2 == 0x1000 * (Pages(len) - n) && x0 == va + 0x1000 * n && n <= Pages(len)
        invariant Valid({}) && space == StepPages(s0, c, n) && OutsideKept(old(ram.words), ram.words, root, limit)
      {
        ghost var m := ram.words;
        PagesGrow(s0, c, n + 1, Pages(len));
        MapVa(x0, prop);
        OutsideTrans(old(ram.words), m, ram.words, root, limit);
        x0, x2, n := x0 + 0x1000, x2 - 0x1000, n + 1;
      }
    }

    method UnmapVaRange(va: nat, len: nat)
      requires Valid({})
      modifies ram, this`space
      ensures Valid({}) && space == StepDone(old(space), Step.Unmap(va, len))
      ensures OutsideKept(old(ram.words), ram.words, root, limit)
    {
      hide OutsideKept, Shr, Low, Or, Shl, Bit, Core, Vpn, BootWord, Path, Unmapped;
      ghost var c, s0, n := Step.Unmap(va, len), space, 0;
      RoundUp(len);
      OutsideRefl(ram.words, root, limit);
      var x0, x1 := va, 0x1000 * Shr(len + 0xFFF, 12);
      while x1 != 0
        invariant x1 == 0x1000 * (Pages(len) - n) && x0 == va + 0x1000 * n && n <= Pages(len)
        invariant Valid({}) && space == StepPages(s0, c, n) && OutsideKept(old(ram.words), ram.words, root, limit)
      {
        ghost var m := ram.words;
        UnmapVa(x0);
        OutsideTrans(old(ram.words), m, ram.words, root, limit);
        x0, x1, n := x0 + 0x1000, x1 - 0x1000, n + 1;
      }
    }

    /** Runs a boot script. */
    method Run(steps: seq<Step>)
      requires Valid({}) && StepsDone(space, steps).next <= limit
      requires forall k | 0 <= k < |steps| :: steps[k].Ok()
      modifies ram, this`pool, this`space
      ensures Valid({}) && space == StepsDone(old(space), steps)
      ensures OutsideKept(old(ram.words), ram.words, root, limit)
    {
      hide OutsideKept, Core, StepDone, PageProp;
      ghost var s0 := space;
      assert steps[..0] == [];
      OutsideRefl(ram.words, root, limit);
      for k := 0 to |steps|
        invariant Valid({}) && space == StepsDone(s0, steps[..k]) && OutsideKept(old(ram.words), ram.words, root, limit)
      {
        ghost var m := ram.words;
        assert steps[..k + 1][..k] == steps[..k] && steps[..k + 1][k] == steps[k];
        StepsGrow(s0, steps, k + 1);
        assert steps[k].Ok();
        match steps[k] {
          case MapPa(addr, prop, len) => MapPaRange(addr, prop, len);
          case MapVa(addr, prop, len) => MapVaRange(addr, prop, len);
          case Unmap(addr, len) => UnmapVaRange(addr, len);
        }
        OutsideTrans(old(ram.words), m, ram.words, root, limit);
      }
      assert steps[..|steps|] == steps;
    }
  }

  /** `(len + 0xFFF) & ~0xFFF` */
  lemma RoundUp(len: nat)
    ensures Shr(len + 0xFFF, 12) == Pages(len)
  {
    var p := Pages(len);
    var r := len + 0xFFF - 0x1000 * p;
    ShiftPage(p);
    ShiftPage(1);
    Parts(p, r, 12);
  }

  lemma CoreTree(mem: seq<nat>, s: Space, root: nat, limit: nat, taken: set<nat>)
    requires Core(mem, s, root, limit, taken)
    ensures Tree(s, root)
  {
  }

  lemma ReachedZero(s: Space, va: nat)
    ensures Reached(s, va, 0) == s
  {
  }

  lemma ReachedStep(s: Space, va: nat, level: nat)
    requires level < 3
    ensures var g := Reached(s, va, level);
            && g.next <= Reached(s, va, 3).next
            && (Path(va, level + 1) in g.tables ==> Reached(s, va, level + 1) == g)
            && (Path(va, level + 1) !in g.tables ==>
                  && g.next < Reached(s, va, 3).next
                  && Reached(s, va, level + 1)
                     == g.(tables := g.tables[Path(va, level + 1) := g.next], next := g.next + 1))
  {
    hide Path;
    ReachedCounts(s, va, 3);
    ReachedCounts(s, va, 2);
    ReachedCounts(s, va, 1);
  }

  /** The address of an entry, computed with the entry offset first. */
  lemma SlotIs(f: nat, i: nat)
    requires i < 512
    ensures Or(8 * i, 0x1000 * f) / 8 == 512 * f + i
  {
    OrComm(8 * i, 0x1000 * f);
    SlotAddress(f, i);
  }

  /** What the walk finds at one level. */
  lemma BootChild(mem: seq<nat>, s: Space, root: nat, limit: nat, va: nat, level: nat)
    requires Core(mem, s, root, limit, {}) && level < 3 && Path(va, level) in s.tables
    ensures var w := Entry(mem, s.tables[Path(va, level)], Index(va, level));
            && (Valid(w) <==> Path(va, level + 1) in s.tables)
            && (Valid(w) ==> Shr(w, 12) == s.tables[Path(va, level + 1)])
  {
    hide Shr, Low, Or, Shl, Bit, Path, Index;
    var k, i := Path(va, level), Index(va, level);
    assert EntryMatches(s, k, i, Entry(mem, s.tables[k], i));
    PathStep(va, level);
  }

  lemma BootLink(mem: seq<nat>, mem': seq<nat>, s: Space, root: nat, limit: nat, va: nat, level: nat, w: nat)
    requires Core(mem, s.(next := s.next + 1), root, limit, {s.next}) && level < 3
    requires Path(va, level) in s.tables && Path(va, level + 1) !in s.tables
    requires w == Or(0x1000 * s.next, PTE_TABLE)
    requires mem' == mem[512 * s.tables[Path(va, level)] + Index(va, level) := w]
    ensures Core(mem', s.(tables := s.tables[Path(va, level + 1) := s.next], next := s.next + 1), root, limit, {})
    ensures Shr(w, 12) == s.next
  {
    hide Shr, Low, Shl, Bit, Path, Index;
    var k, i, t := Path(va, level), Index(va, level), s.(next := s.next + 1);
    PathStep(va, level);
    ConstantBits();
    assert w == TableWord(0x1000 * s.next, 0);
    TableWordReads(s.next, 0);
    WriteEntry(mem, s.tables[k], i, w);
    LinkKeepsCore(mem, mem', t, t.(tables := t.tables[k.Child(i) := s.next]), root, limit, {s.next}, k, i, s.next, w);
    assert {s.next} - {s.next} == {};
  }

  lemma BootLeaf(mem: seq<nat>, mem': seq<nat>, s: Space, root: nat, limit: nat, va: nat, w: nat)
    requires Core(mem, s, root, limit, {}) && Path(va, 3) in s.tables
    requires mem' == mem[512 * s.tables[Path(va, 3)] + Index(va, 3) := w]
    ensures Core(mem', s.(flat := if Valid(w) then s.flat[Vpn(va) := w] else s.flat - {Vpn(va)}), root, limit, {})
  {
    hide Shr, Low, Or, Shl, Bit, Path, Index;
    var k, i := Path(va, 3), Index(va, 3);
    PathEnds(va);
    PathStep(va, 3);
    WriteEntry(mem, s.tables[k], i, w);
    var s' := s.(flat := if Valid(w) then s.flat[Vpn(va) := w] else s.flat - {Vpn(va)});
    LeafStoreKeepsCore(mem, mem', s, s', root, limit, {}, k, i, w);
  }

  lemma CoreBasics(mem: seq<nat>, s: Space, root: nat, limit: nat, taken: set<nat>)
    requires Core(mem, s, root, limit, taken)
    ensures ROOT in s.tables && s.tables[ROOT] == root
    ensures root < s.next && root < limit <= FRAMES && 512 * limit <= |mem|
    ensures forall k <- s.tables :: root <= s.tables[k] < limit
    ensures forall f | s.next <= f :: f !in taken && f !in s.tables.Values && f !in s.data
  {
  }
}
