/** The boot scripts of EL1 and EL3, and what they leave mapped, with which rights. */
module Scripts {
  import opened Bits
  import opened Vmsa
  import opened TableTree
  import opened Heap
  import opened Boot

  const USER_RO := 0x4C3  // PTE_PAGE | PTE_ACCESS | PTE_USER_RO
  const USER_RW := 0x443
  const PRIV_RO := 0x483
  const PRIV_RW := 0x403

  /** The linker's section addresses and the platform's. */
  datatype Layout = Layout(
    initBase: nat, initSize: nat, flashText: nat, textSize: nat, flashData: nat, dataSize: nat,
    textBase: nat, dataBase: nat, stackBase: nat, el0StackBase: nat, pgtblBase: nat, heapBase: nat,
    uart: nat, sysreg: nat)

  function El1Before(l: Layout): seq<Step>
    requires l.stackBase >= PAGE_SIZE && l.el0StackBase >= PAGE_SIZE
  {
    [MapPa(l.initBase, USER_RO, l.initSize),
     MapPa(l.flashText, USER_RO, l.textSize),
     MapPa(l.flashData, USER_RW, l.dataSize),
     MapVa(l.textBase, PRIV_RW, l.textSize),
     MapVa(l.dataBase, PRIV_RW, l.dataSize),
     MapVa(l.stackBase - PAGE_SIZE, PRIV_RW, PAGE_SIZE),
     MapVa(l.el0StackBase - PAGE_SIZE, USER_RW, PAGE_SIZE)]
  }

  function El1After(l: Layout): seq<Step> {
    [MapPa(l.uart, USER_RW, PAGE_SIZE),
     Unmap(l.flashText, l.textSize),
     Unmap(l.flashData, l.dataSize)]
  }

  function El3Before(l: Layout): seq<Step>
    requires l.stackBase >= PAGE_SIZE
  {
    [MapPa(l.initBase, PRIV_RO, l.initSize),
     MapPa(l.flashText, PRIV_RO, l.textSize),
     MapPa(l.flashData, PRIV_RO, l.dataSize),
     MapVa(l.textBase, PRIV_RW, l.textSize),
     MapVa(l.dataBase, PRIV_RW, l.dataSize),
     MapVa(l.stackBase - PAGE_SIZE, PRIV_RW, PAGE_SIZE)]
  }

  function El3After(l: Layout): seq<Step> {
    [MapPa(l.uart, PRIV_RW, PAGE_SIZE),
     MapPa(l.sysreg, PRIV_RW, PAGE_SIZE)]
  }

  function Region(l: Layout): Step {
    MapPa(l.pgtblBase, PRIV_RW, PGTBL_SIZE)
  }

  ghost function Blank(root: nat): Space {
    Space(map[ROOT := root], map[], root + 1, {})
  }

  lemma PropsOk()
    ensures PageProp(USER_RO) && PageProp(USER_RW) && PageProp(PRIV_RO) && PageProp(PRIV_RW)
    ensures Bit(PRIV_RW, 1) == 1 && Bit(PRIV_RW, 10) == 1 && Bit(PRIV_RW, 7) == 0 && Bit(PRIV_RW, 6) == 0
    ensures Bit(PRIV_RO, 1) == 1 && Bit(PRIV_RO, 10) == 1 && Bit(PRIV_RO, 7) == 1 && Bit(PRIV_RO, 6) == 0
    ensures Bit(USER_RW, 1) == 1 && Bit(USER_RW, 10) == 1 && Bit(USER_RW, 7) == 0 && Bit(USER_RW, 6) == 1
    ensures Bit(USER_RO, 1) == 1 && Bit(USER_RO, 10) == 1 && Bit(USER_RO, 7) == 1 && Bit(USER_RO, 6) == 1
  {
    hide Bit, PageProp;
    PrivilegedProps();
    UserProps();
  }

  lemma PrivilegedProps()
    ensures PageProp(PRIV_RO) && PageProp(PRIV_RW)
    ensures Bit(PRIV_RW, 1) == 1 && Bit(PRIV_RW, 10) == 1 && Bit(PRIV_RW, 7) == 0 && Bit(PRIV_RW, 6) == 0
    ensures Bit(PRIV_RO, 1) == 1 && Bit(PRIV_RO, 10) == 1 && Bit(PRIV_RO, 7) == 1 && Bit(PRIV_RO, 6) == 0
  {
  }

  lemma UserProps()
    ensures PageProp(USER_RO) && PageProp(USER_RW)
    ensures Bit(USER_RW, 1) == 1 && Bit(USER_RW, 10) == 1 && Bit(USER_RW, 7) == 0 && Bit(USER_RW, 6) == 1
    ensures Bit(USER_RO, 1) == 1 && Bit(USER_RO, 10) == 1 && Bit(USER_RO, 7) == 1 && Bit(USER_RO, 6) == 1
  {
  }

  // ---------- what an address space offers ----------

  /** What a page may be used for, beyond reads by its own level. */
  datatype Rights = Rights(write: bool, el0: bool)

  const PRIVILEGED := Rights(true, false)
  const PRIVILEGED_READ := Rights(false, false)
  const USER := Rights(true, true)
  const USER_READ := Rights(false, true)

  /** The byte at `base + k` is at `pa`, for exactly the accesses that `r` names. */
  ghost predicate Reaches(mem: seq<nat>, root: nat, base: nat, k: nat, pa: nat, r: Rights) {
    && Translate(mem, root, base + k, false) == Some(pa)
    && Translate(mem, root, base + k, true) == (if r.write then Some(pa) else None)
    && TranslateEl0(mem, root, base + k, false) == (if r.el0 then Some(pa) else None)
    && TranslateEl0(mem, root, base + k, true) == (if r.el0 && r.write then Some(pa) else None)
  }

  /** Each byte of a range is at its own address. */
  ghost predicate Direct(mem: seq<nat>, root: nat, base: nat, len: nat, r: Rights) {
    forall k: nat | k < len :: DirectAt(mem, root, base, k, r)
  }

  ghost predicate DirectAt(mem: seq<nat>, root: nat, base: nat, k: nat, r: Rights) {
    Reaches(mem, root, base, k, base + k, r)
  }

  /** Where a byte is, if it is anywhere. */
  ghost function Place(mem: seq<nat>, root: nat, base: nat, k: nat): nat {
    match Translate(mem, root, base + k, false)
    case None => 0
    case Some(pa) => pa
  }

  /** Each byte of a range is in a data frame of the pool. */
  ghost predicate OnFrames(mem: seq<nat>, root: nat, data: set<nat>, base: nat, len: nat, r: Rights) {
    forall k: nat | k < len ::
      Reaches(mem, root, base, k, Place(mem, root, base, k), r) && Place(mem, root, base, k) / 0x1000 in data
  }

  /** Different bytes of two ranges are at different places. */
  ghost predicate PlacesDiffer(mem: seq<nat>, root: nat, base: nat, len: nat, base': nat, len': nat) {
    forall j: nat, k: nat | j < len && k < len' && base + j != base' + k ::
      Place(mem, root, base, j) != Place(mem, root, base', k)
  }

  ghost predicate Unreachable(mem: seq<nat>, root: nat, base: nat, k: nat) {
    Translate(mem, root, base + k, false) == None && Translate(mem, root, base + k, true) == None
  }

  ghost predicate Gone(mem: seq<nat>, root: nat, base: nat, len: nat) {
    forall k: nat | k < len :: Unreachable(mem, root, base, k)
  }

  // ---------- layouts ----------

  /** A range of bytes: whole pages from a page boundary on. */
  datatype Range = Range(base: nat, len: nat) {
    predicate Fits(pages: nat) {
      base == At(base / 0x1000) && base / 0x1000 + Pages(len) <= pages
    }

    predicate Misses(r: Range) {
      base / 0x1000 + Pages(len) <= r.base / 0x1000 || r.base / 0x1000 + Pages(r.len) <= base / 0x1000
    }
  }

  /** Physical ranges and virtual ranges, none of which meets another. */
  ghost predicate Separate(direct: seq<Range>, virtual: seq<Range>) {
    && (forall i | 0 <= i < |direct| :: direct[i].Fits(FRAMES))
    && (forall i | 0 <= i < |virtual| :: virtual[i].Fits(PAGE_NUMBERS))
    && (forall i, j | 0 <= i < j < |direct + virtual| :: (direct + virtual)[i].Misses((direct + virtual)[j]))
  }

  ghost predicate El1Separate(l: Layout) {
    && l.stackBase >= PAGE_SIZE && l.el0StackBase >= PAGE_SIZE
    && Separate([Range(l.initBase, l.initSize), Range(l.flashText, l.textSize), Range(l.flashData, l.dataSize),
                 Range(l.pgtblBase, PGTBL_SIZE), Range(l.uart, PAGE_SIZE)],
                [Range(l.textBase, l.textSize), Range(l.dataBase, l.dataSize),
                 Range(l.stackBase - PAGE_SIZE, PAGE_SIZE), Range(l.el0StackBase - PAGE_SIZE, PAGE_SIZE)])
  }

  /** What EL1 has when its C code starts: its init code, readable for EL0 too; text and data of its own, the
      page below each stack base, the one for EL0 open to it; the table region for itself alone; the UART for
      both; and no flash. */
  ghost predicate El1Booted(mem: seq<nat>, root: nat, data: set<nat>, l: Layout)
    requires l.stackBase >= PAGE_SIZE && l.el0StackBase >= PAGE_SIZE
  {
    var stack, el0 := l.stackBase - PAGE_SIZE, l.el0StackBase - PAGE_SIZE;
    && Direct(mem, root, l.initBase, l.initSize, USER_READ)
    && OnFrames(mem, root, data, l.textBase, l.textSize, PRIVILEGED)
    && OnFrames(mem, root, data, l.dataBase, l.dataSize, PRIVILEGED)
    && OnFrames(mem, root, data, stack, PAGE_SIZE, PRIVILEGED)
    && OnFrames(mem, root, data, el0, PAGE_SIZE, USER)
    && PlacesDiffer(mem, root, l.textBase, l.textSize, l.textBase, l.textSize)
    && PlacesDiffer(mem, root, l.textBase, l.textSize, l.dataBase, l.dataSize)
    && PlacesDiffer(mem, root, l.dataBase, l.dataSize, l.dataBase, l.dataSize)
    && PlacesDiffer(mem, root, l.textBase, l.textSize, stack, PAGE_SIZE)
    && PlacesDiffer(mem, root, l.dataBase, l.dataSize, stack, PAGE_SIZE)
    && PlacesDiffer(mem, root, stack, PAGE_SIZE, el0, PAGE_SIZE)
    && Direct(mem, root, l.pgtblBase, PGTBL_SIZE, PRIVILEGED)
    && Direct(mem, root, l.uart, PAGE_SIZE, USER)
    && Gone(mem, root, l.flashText, l.textSize) && Gone(mem, root, l.flashData, l.dataSize)
  }

  ghost predicate El3Separate(l: Layout) {
    && l.stackBase >= PAGE_SIZE
    && Separate([Range(l.initBase, l.initSize), Range(l.flashText, l.textSize), Range(l.flashData, l.dataSize),
                 Range(l.pgtblBase, PGTBL_SIZE), Range(l.uart, PAGE_SIZE), Range(l.sysreg, PAGE_SIZE)],
                [Range(l.textBase, l.textSize), Range(l.dataBase, l.dataSize),
                 Range(l.stackBase - PAGE_SIZE, PAGE_SIZE)])
  }

  /** What EL3 has: the same, nothing of it open to EL0, with the system registers; and its flash stays. */
  ghost predicate El3Booted(mem: seq<nat>, root: nat, data: set<nat>, l: Layout)
    requires l.stackBase >= PAGE_SIZE
  {
    var stack := l.stackBase - PAGE_SIZE;
    && Direct(mem, root, l.initBase, l.initSize, PRIVILEGED_READ)
    && Direct(mem, root, l.flashText, l.textSize, PRIVILEGED_READ)
    && Direct(mem, root, l.flashData, l.dataSize, PRIVILEGED_READ)
    && OnFrames(mem, root, data, l.textBase, l.textSize, PRIVILEGED)
    && OnFrames(mem, root, data, l.dataBase, l.dataSize, PRIVILEGED)
    && OnFrames(mem, root, data, stack, PAGE_SIZE, PRIVILEGED)
    && PlacesDiffer(mem, root, l.textBase, l.textSize, l.textBase, l.textSize)
    && PlacesDiffer(mem, root, l.textBase, l.textSize, l.dataBase, l.dataSize)
    && PlacesDiffer(mem, root, l.dataBase, l.dataSize, l.dataBase, l.dataSize)
    && PlacesDiffer(mem, root, l.textBase, l.textSize, stack, PAGE_SIZE)
    && PlacesDiffer(mem, root, l.dataBase, l.dataSize, stack, PAGE_SIZE)
    && Direct(mem, root, l.pgtblBase, PGTBL_SIZE, PRIVILEGED)
    && Direct(mem, root, l.uart, PAGE_SIZE, PRIVILEGED) && Direct(mem, root, l.sysreg, PAGE_SIZE, PRIVILEGED)
  }

  // ---------- one step of a script, seen from the end ----------

  /** No later step touches the pages of step `i`. */
  ghost predicate Lasts(steps: seq<Step>, i: nat)
    requires i < |steps|
  {
    forall q | i < q < |steps| :: Avoids(steps[q], First(steps[i]), First(steps[i]) + Pages(steps[i].len))
  }

  /** The frame that step `i` puts under its page `j`. */
  ghost function FrameAt(s: Space, steps: seq<Step>, i: nat, j: nat): nat
    requires i < |steps|
  {
    if steps[i].MapVa? then FrameOf(StepsDone(s, steps[..i]), steps[i], j) else First(steps[i]) + j
  }

  lemma {:induction false} DataGrows(s: Space, steps: seq<Step>, i: nat)
    requires i <= |steps| && forall q | 0 <= q < |steps| :: Aligned(steps[q])
    ensures StepsDone(s, steps[..i]).data <= StepsDone(s, steps).data
  {
    hide StepDone, Aligned;
    if i == |steps| {
      assert steps[..i] == steps;
    } else {
      var before, c := steps[..|steps| - 1], steps[|steps| - 1];
      assert before[..i] == steps[..i];
      DataGrows(s, before, i);
      StepData(StepsDone(s, before), c, Pages(c.len));
      StepIs(StepsDone(s, before), c);
    }
  }

  lemma StepIs(s: Space, c: Step)
    ensures StepDone(s, c) == StepPages(s, c, Pages(c.len))
  {
  }

  lemma {:induction false} StepData(s: Space, c: Step, n: nat)
    ensures s.data <= StepPages(s, c, n).data
  {
    hide Vpn, Placed, BootWord;
    if n > 0 {
      var t, va := StepPages(s, c, n - 1), c.addr + 0x1000 * (n - 1);
      StepData(s, c, n - 1);
      PlacedCounts(t, va, BootWord(if c.Unmap? then 0 else c.prop, va));
      PlacedCounts(Claimed(t), va, BootWord(if c.Unmap? then 0 else c.prop, 0x1000 * t.next));
    }
  }

  lemma Taken(s: Space, steps: seq<Step>, i: nat)
    requires i < |steps|
    ensures StepsDone(s, steps[..i + 1]) == StepDone(StepsDone(s, steps[..i]), steps[i])
    ensures StepsDone(s, steps) == StepsDone(StepsDone(s, steps[..i + 1]), steps[i + 1..])
  {
    hide StepDone;
    assert steps[..i + 1][..i] == steps[..i] && steps[..i + 1][i] == steps[i];
    assert steps[..i + 1] + steps[i + 1..] == steps;
    StepsSplit(s, steps[..i + 1], steps[i + 1..]);
  }

  /** Page `j` of step `i`, at the end of the script. */
  lemma PageOfStep(s: Space, steps: seq<Step>, i: nat, j: nat)
    requires i < |steps| && Lasts(steps, i) && j < Pages(steps[i].len)
    requires forall q | 0 <= q < |steps| :: Aligned(steps[q])
    ensures var t, c, x := StepsDone(s, steps), steps[i], First(steps[i]) + j;
            && (x in t.flat <==> !c.Unmap?)
            && (!c.Unmap? ==> t.flat[x] == BootWord(c.prop, 0x1000 * FrameAt(s, steps, i, j)))
            && (c.MapVa? ==> s.next <= FrameAt(s, steps, i, j) < t.next && FrameAt(s, steps, i, j) in t.data)
  {
    hide StepsDone, StepPages, BootWord, Pages, First, FrameOf, SameOn;
    var c, x := steps[i], First(steps[i]) + j;
    var p, q := StepsDone(s, steps[..i]), StepsDone(s, steps[..i + 1]);
    Taken(s, steps, i);
    StepIs(p, c);
    AlignedIs(c);
    StepFlat(p, c, Pages(c.len));
    DoneAt(p, q, c, Pages(c.len), j);
    var later := steps[i + 1..];
    forall k | 0 <= k < |later|
      ensures Avoids(later[k], First(c), First(c) + Pages(c.len))
    {
      assert later[k] == steps[i + 1 + k];
    }
    StepsAvoid(q, later, First(c), First(c) + Pages(c.len));
    SameAt(q, StepsDone(s, steps), First(c), First(c) + Pages(c.len), x);
    if c.MapVa? {
      RangeFresh(p, c, Pages(c.len));
      FreshAt(p, q, c, Pages(c.len), j);
      StepsGrow(s, steps, i);
      StepsGrow(s, steps, i + 1);
      DataGrows(s, steps, i + 1);
    }
  }

  lemma AlignedIs(c: Step)
    requires Aligned(c)
    ensures c.addr == At(First(c)) && First(c) + Pages(c.len) <= PAGE_NUMBERS
  {
  }

  lemma DoneAt(s: Space, t: Space, c: Step, n: nat, j: nat)
    requires PagesDone(s, t, c, n) && j < n
    ensures First(c) + j in t.flat <==> !c.Unmap?
    ensures c.MapPa? ==> t.flat[First(c) + j] == BootWord(c.prop, 0x1000 * (First(c) + j))
  {
    hide BootWord;
  }

  lemma SameAt(s: Space, t: Space, lo: nat, hi: nat, x: nat)
    requires SameOn(s, t, lo, hi) && lo <= x < hi
    ensures (x in t.flat <==> x in s.flat) && (x in s.flat ==> t.flat[x] == s.flat[x])
  {
  }

  lemma FreshAt(s: Space, t: Space, c: Step, n: nat, j: nat)
    requires c.MapVa? && FreshRange(s, t, c, n) && j < n
    ensures First(c) + j in t.flat && t.flat[First(c) + j] == BootWord(c.prop, 0x1000 * FrameOf(s, c, j))
    ensures s.next <= FrameOf(s, c, j) < t.next && FrameOf(s, c, j) in t.data
  {
    hide BootWord, FrameOf;
    assert OnFrame(t, c, j, FrameOf(s, c, j));
  }

  /** Byte `k` of step `i`, through the tables in memory. */
  lemma ByteOfStep(mem: seq<nat>, s: Space, steps: seq<Step>, root: nat, limit: nat, i: nat, k: nat)
    requires i < |steps| && Lasts(steps, i) && k < steps[i].len && steps[i].Ok()
    requires forall q | 0 <= q < |steps| :: Aligned(steps[q])
    requires Inv(mem, StepsDone(s, steps), root, limit, {}) && StepsDone(s, steps).next <= limit
    requires steps[i].MapPa? ==> First(steps[i]) + Pages(steps[i].len) <= FRAMES
    ensures var c := steps[i];
            var pa := 0x1000 * FrameAt(s, steps, i, k / 0x1000) + k % 0x1000;
            && (c.Unmap? ==> Unreachable(mem, root, c.addr, k))
            && (!c.Unmap? && Bit(c.prop, 1) == 1 && Bit(c.prop, 10) == 1 ==>
                  Reaches(mem, root, c.addr, k, pa, Rights(Bit(c.prop, 7) == 0, Bit(c.prop, 6) == 1)))
            && (c.MapPa? ==> pa == c.addr + k)
            && (c.MapVa? ==> FrameAt(s, steps, i, k / 0x1000) in StepsDone(s, steps).data)
  {
    hide Shr, Low, Or, Shl, Bit, Vpn, BootWord, Frame, HwReadable, HwWritable, HwUser, StepsDone, Inv, FrameAt, Lasts;
    hide Translate, TranslateEl0, PageProp, Aligned, First, Pages;
    var t, c, j, o := StepsDone(s, steps), steps[i], k / 0x1000, k % 0x1000;
    PageInRange(k, c.len);
    PageOfStep(s, steps, i, j);
    AlignedIs(c);
    AddressIn(c, k);
    InvTree(mem, t, root, limit, {});
    var x := First(c) + j;
    VpnAtOffset(x, o);
    BothWalks(mem, t, root, At(x) + o);
    FrameAtDirect(s, steps, i, j);
    if !c.Unmap? {
      BootWordReads(c.prop, FrameAt(s, steps, i, j));
    }
  }

  lemma FrameAtDirect(s: Space, steps: seq<Step>, i: nat, j: nat)
    requires i < |steps|
    ensures !steps[i].MapVa? ==> FrameAt(s, steps, i, j) == First(steps[i]) + j
  {
  }

  lemma PageInRange(k: nat, len: nat)
    requires k < len
    ensures k / 0x1000 < Pages(len)
  {
  }

  lemma AddressIn(c: Step, k: nat)
    requires c.addr == At(First(c))
    ensures c.addr + k == At(First(c) + k / 0x1000) + k % 0x1000
    ensures c.addr + k == 0x1000 * (First(c) + k / 0x1000) + k % 0x1000
  {
    hide First;
  }

  /** All four kinds of access to an address at once. */
  lemma BothWalks(mem: seq<nat>, t: Space, root: nat, va: nat)
    requires Tree(t, root) && Represents(mem, t) && Shr(va, 48) == 0
    ensures var v := Vpn(va);
            if v in t.flat then
              var w := t.flat[v];
              var pa := 0x1000 * Frame(w) + va % 0x1000;
              && Translate(mem, root, va, false) == (if HwReadable(w) then Some(pa) else None)
              && Translate(mem, root, va, true) == (if HwWritable(w) then Some(pa) else None)
              && TranslateEl0(mem, root, va, false) == (if HwUser(w) && HwReadable(w) then Some(pa) else None)
              && TranslateEl0(mem, root, va, true) == (if HwUser(w) && HwWritable(w) then Some(pa) else None)
            else Translate(mem, root, va, false) == None && Translate(mem, root, va, true) == None
  {
    hide Shr, Low, Or, Shl, Bit, Vpn, Frame, HwReadable, HwWritable, HwUser, Translate, TranslateEl0;
    TranslateIsFlat(mem, t, root, va, false);
    TranslateIsFlat(mem, t, root, va, true);
    TranslateEl0IsFlat(mem, t, root, va, false);
    TranslateEl0IsFlat(mem, t, root, va, true);
  }

  // ---------- ranges of a script ----------

  /** Step `q` works on range `idx[q]` of a list of ranges that do not meet. */
  ghost predicate Follows(steps: seq<Step>, ranges: seq<Range>, idx: seq<nat>) {
    && |idx| == |steps|
    && (forall q | 0 <= q < |steps| ::
          idx[q] < |ranges| && steps[q].addr == ranges[idx[q]].base && steps[q].len == ranges[idx[q]].len)
    && (forall p | 0 <= p < |ranges| :: ranges[p].Fits(PAGE_NUMBERS))
    && (forall p, q | 0 <= p < q < |ranges| :: ranges[p].Misses(ranges[q]))
  }

  lemma AllAligned(steps: seq<Step>, ranges: seq<Range>, idx: seq<nat>)
    requires Follows(steps, ranges, idx)
    ensures forall q | 0 <= q < |steps| :: Aligned(steps[q])
  {
    hide Pages, At;
    forall q | 0 <= q < |steps|
      ensures Aligned(steps[q])
    {
      assert ranges[idx[q]].Fits(PAGE_NUMBERS);
    }
  }

  lemma LastsThere(steps: seq<Step>, ranges: seq<Range>, idx: seq<nat>, i: nat)
    requires Follows(steps, ranges, idx) && i < |steps|
    requires forall q | i < q < |steps| :: idx[q] != idx[i]
    ensures Lasts(steps, i)
  {
    hide Pages, At;
    AllAligned(steps, ranges, idx);
    forall q | i < q < |steps|
      ensures Avoids(steps[q], First(steps[i]), First(steps[i]) + Pages(steps[i].len))
    {
      var a, b := idx[i], idx[q];
      if a < b {
        assert ranges[a].Misses(ranges[b]);
      } else {
        assert ranges[b].Misses(ranges[a]);
      }
    }
  }

  /** The end of a script, in memory. */
  ghost predicate Ended(mem: seq<nat>, s: Space, steps: seq<Step>, root: nat, limit: nat) {
    && (forall q | 0 <= q < |steps| :: Aligned(steps[q]) && steps[q].Ok())
    && StepsDone(s, steps).next <= limit && Inv(mem, StepsDone(s, steps), root, limit, {})
  }

  lemma DirectRange(mem: seq<nat>, s: Space, steps: seq<Step>, root: nat, limit: nat, i: nat, r: Rights)
    requires Ended(mem, s, steps, root, limit) && i < |steps| && Lasts(steps, i)
    requires steps[i].MapPa? && First(steps[i]) + Pages(steps[i].len) <= FRAMES
    requires Bit(steps[i].prop, 1) == 1 && Bit(steps[i].prop, 10) == 1
    requires r == Rights(Bit(steps[i].prop, 7) == 0, Bit(steps[i].prop, 6) == 1)
    ensures Direct(mem, root, steps[i].addr, steps[i].len, r)
  {
    hide Bit, StepsDone, Inv, Lasts, Reaches, Pages, First, Aligned, PageProp;
    forall k: nat | k < steps[i].len
      ensures DirectAt(mem, root, steps[i].addr, k, r)
    {
      ByteOfStep(mem, s, steps, root, limit, i, k);
    }
  }

  lemma GoneRange(mem: seq<nat>, s: Space, steps: seq<Step>, root: nat, limit: nat, i: nat)
    requires Ended(mem, s, steps, root, limit) && i < |steps| && Lasts(steps, i) && steps[i].Unmap?
    ensures Gone(mem, root, steps[i].addr, steps[i].len)
  {
    hide Bit, StepsDone, Inv, Lasts, Reaches, Unreachable, Pages, First, Aligned, PageProp;
    forall k: nat | k < steps[i].len
      ensures Unreachable(mem, root, steps[i].addr, k)
    {
      ByteOfStep(mem, s, steps, root, limit, i, k);
    }
  }

  /** A step that maps fresh frames, seen from the end. */
  ghost predicate FreshStep(steps: seq<Step>, i: nat, r: Rights) {
    && i < |steps| && Lasts(steps, i) && steps[i].MapVa?
    && Bit(steps[i].prop, 1) == 1 && Bit(steps[i].prop, 10) == 1
    && r == Rights(Bit(steps[i].prop, 7) == 0, Bit(steps[i].prop, 6) == 1)
  }

  lemma FreshByte(mem: seq<nat>, s: Space, steps: seq<Step>, root: nat, limit: nat, i: nat, r: Rights, k: nat)
    requires Ended(mem, s, steps, root, limit) && FreshStep(steps, i, r) && k < steps[i].len
    ensures Place(mem, root, steps[i].addr, k) == 0x1000 * FrameAt(s, steps, i, k / 0x1000) + k % 0x1000
    ensures Reaches(mem, root, steps[i].addr, k, Place(mem, root, steps[i].addr, k), r)
    ensures Place(mem, root, steps[i].addr, k) / 0x1000 in StepsDone(s, steps).data
  {
    hide Bit, StepsDone, Inv, Lasts, Translate, TranslateEl0, Pages, First, Aligned, FrameAt, PageProp;
    ByteOfStep(mem, s, steps, root, limit, i, k);
    Quotient(FrameAt(s, steps, i, k / 0x1000), k % 0x1000);
  }

  lemma Quotient(f: nat, o: nat)
    requires o < 0x1000
    ensures (0x1000 * f + o) / 0x1000 == f && (0x1000 * f + o) % 0x1000 == o
  {
  }

  lemma FreshRanges(mem: seq<nat>, s: Space, steps: seq<Step>, root: nat, limit: nat, i: nat, r: Rights)
    requires Ended(mem, s, steps, root, limit) && FreshStep(steps, i, r)
    ensures OnFrames(mem, root, StepsDone(s, steps).data, steps[i].addr, steps[i].len, r)
  {
    hide Ended, FreshStep, StepsDone, Reaches, Place;
    InBounds(steps, i, r);
    forall k: nat | k < steps[i].len
      ensures Reaches(mem, root, steps[i].addr, k, Place(mem, root, steps[i].addr, k), r)
      ensures Place(mem, root, steps[i].addr, k) / 0x1000 in StepsDone(s, steps).data
    {
      FreshByte(mem, s, steps, root, limit, i, r, k);
    }
  }

  lemma InBounds(steps: seq<Step>, i: nat, r: Rights)
    requires FreshStep(steps, i, r)
    ensures i < |steps|
  {
  }

  /** No frame is handed out twice by a script. */
  lemma FramesDiffer(s: Space, steps: seq<Step>, i: nat, j: nat, i': nat, j': nat)
    requires i <= i' < |steps| && steps[i].MapVa? && steps[i'].MapVa? && (i == i' ==> j != j')
    requires forall q | 0 <= q < |steps| :: Aligned(steps[q])
    requires j < Pages(steps[i].len) && j' < Pages(steps[i'].len)
    ensures FrameAt(s, steps, i, j) != FrameAt(s, steps, i', j')
  {
    hide StepsDone, StepPages, BootWord, Pages, First, FrameOf, At;
    var p, p' := StepsDone(s, steps[..i]), StepsDone(s, steps[..i']);
    var c, c' := steps[i], steps[i'];
    Taken(s, steps, i);
    StepIs(p, c);
    AlignedIs(c);
    RangeFresh(p, c, Pages(c.len));
    if i == i' {
      TwoFresh(p, StepPages(p, c, Pages(c.len)), c, Pages(c.len), j, j');
    } else {
      FreshAt(p, StepPages(p, c, Pages(c.len)), c, Pages(c.len), j);
      StepIs(p', c');
      AlignedIs(c');
      RangeFresh(p', c', Pages(c'.len));
      FreshAt(p', StepPages(p', c', Pages(c'.len)), c', Pages(c'.len), j');
      StepsGrow(s, steps[..i'], i + 1);
      assert steps[..i'][..i + 1] == steps[..i + 1];
    }
  }

  lemma TwoFresh(s: Space, t: Space, c: Step, n: nat, j: nat, j': nat)
    requires c.MapVa? && FreshRange(s, t, c, n) && j < n && j' < n && j != j'
    ensures FrameOf(s, c, j) != FrameOf(s, c, j')
  {
    hide BootWord, FrameOf;
    if j < j' {
      assert FrameOf(s, c, j) < FrameOf(s, c, j');
    } else {
      assert FrameOf(s, c, j') < FrameOf(s, c, j);
    }
  }

  lemma FreshDiffer(mem: seq<nat>, s: Space, steps: seq<Step>, root: nat, limit: nat, i: nat, r: Rights, i': nat,
                    r': Rights)
    requires Ended(mem, s, steps, root, limit) && FreshStep(steps, i, r) && FreshStep(steps, i', r') && i <= i'
    ensures PlacesDiffer(mem, root, steps[i].addr, steps[i].len, steps[i'].addr, steps[i'].len)
  {
    hide StepsDone, Inv, Lasts, Reaches, Place, FrameAt, Bit, Aligned, PageProp, Pages;
    forall j: nat, k: nat | j < steps[i].len && k < steps[i'].len && steps[i].addr + j != steps[i'].addr + k
      ensures Place(mem, root, steps[i].addr, j) != Place(mem, root, steps[i'].addr, k)
    {
      FreshByte(mem, s, steps, root, limit, i, r, j);
      FreshByte(mem, s, steps, root, limit, i', r', k);
      PageInRange(j, steps[i].len);
      PageInRange(k, steps[i'].len);
      if i != i' || j / 0x1000 != k / 0x1000 {
        FramesDiffer(s, steps, i, j / 0x1000, i', k / 0x1000);
        Unequal(FrameAt(s, steps, i, j / 0x1000), j % 0x1000, FrameAt(s, steps, i', k / 0x1000), k % 0x1000);
      } else {
        SameQuotient(j, k);
      }
    }
  }

  lemma Unequal(f: nat, o: nat, g: nat, p: nat)
    requires f != g && o < 0x1000 && p < 0x1000
    ensures 0x1000 * f + o != 0x1000 * g + p
  {
  }

  lemma SameQuotient(j: nat, k: nat)
    requires j != k && j / 0x1000 == k / 0x1000
    ensures j % 0x1000 != k % 0x1000
  {
  }

  // ---------- what the scripts leave ----------

  lemma Widened(direct: seq<Range>, virtual: seq<Range>)
    requires Separate(direct, virtual)
    ensures var rs := direct + virtual;
            && (forall p | 0 <= p < |rs| :: rs[p].Fits(PAGE_NUMBERS))
            && (forall p, q | 0 <= p < q < |rs| :: rs[p].Misses(rs[q]))
    ensures forall p | 0 <= p < |direct| :: (direct + virtual)[p].Fits(FRAMES)
  {
    hide Pages, At;
    var rs := direct + virtual;
    forall p | 0 <= p < |rs|
      ensures rs[p].Fits(PAGE_NUMBERS)
    {
      if p < |direct| {
        assert direct[p].Fits(FRAMES);
      } else {
        assert virtual[p - |direct|].Fits(PAGE_NUMBERS);
      }
    }
  }

  lemma FitsThere(steps: seq<Step>, ranges: seq<Range>, idx: seq<nat>, p: nat)
    requires Follows(steps, ranges, idx) && p < |ranges| && ranges[p].Fits(FRAMES)
    ensures forall i | 0 <= i < |steps| && idx[i] == p :: First(steps[i]) + Pages(steps[i].len) <= FRAMES
  {
    hide Pages;
  }

  function El1Script(l: Layout): seq<Step>
    requires l.stackBase >= PAGE_SIZE && l.el0StackBase >= PAGE_SIZE
  {
    El1Before(l) + [Region(l)] + El1After(l)
  }

  lemma El1Entries(l: Layout)
    requires El1Separate(l)
    ensures var s := El1Script(l);
            && |s| == 11
            && s[0] == MapPa(l.initBase, USER_RO, l.initSize)
            && s[1] == MapPa(l.flashText, USER_RO, l.textSize)
            && s[2] == MapPa(l.flashData, USER_RW, l.dataSize)
            && s[3] == MapVa(l.textBase, PRIV_RW, l.textSize)
            && s[4] == MapVa(l.dataBase, PRIV_RW, l.dataSize)
            && s[5] == MapVa(l.stackBase - PAGE_SIZE, PRIV_RW, PAGE_SIZE)
            && s[6] == MapVa(l.el0StackBase - PAGE_SIZE, USER_RW, PAGE_SIZE)
            && s[7] == MapPa(l.pgtblBase, PRIV_RW, PGTBL_SIZE)
            && s[8] == MapPa(l.uart, USER_RW, PAGE_SIZE)
            && s[9] == Unmap(l.flashText, l.textSize)
            && s[10] == Unmap(l.flashData, l.dataSize)
  {
  }

  lemma El1Plan(l: Layout)
    requires El1Separate(l)
    ensures var s := El1Script(l);
            && |s| == 11 && (forall q | 0 <= q < |s| :: Aligned(s[q]) && s[q].Ok())
            && Lasts(s, 0) && Lasts(s, 3) && Lasts(s, 4) && Lasts(s, 5) && Lasts(s, 6)
            && Lasts(s, 7) && Lasts(s, 8) && Lasts(s, 9) && Lasts(s, 10)
            && First(s[0]) + Pages(s[0].len) <= FRAMES
            && First(s[7]) + Pages(s[7].len) <= FRAMES && First(s[8]) + Pages(s[8].len) <= FRAMES
  {
    hide Pages, At, PageProp, Lasts, El1Script, Aligned, First, Range.Fits, Range.Misses;
    El1Entries(l);
    var s := El1Script(l);
    var direct := [Range(l.initBase, l.initSize), Range(l.flashText, l.textSize), Range(l.flashData, l.dataSize),
                   Range(l.pgtblBase, PGTBL_SIZE), Range(l.uart, PAGE_SIZE)];
    var virtual := [Range(l.textBase, l.textSize), Range(l.dataBase, l.dataSize),
                    Range(l.stackBase - PAGE_SIZE, PAGE_SIZE), Range(l.el0StackBase - PAGE_SIZE, PAGE_SIZE)];
    var ranges: seq<Range>, idx: seq<nat> := direct + virtual, [0, 1, 2, 5, 6, 7, 8, 3, 4, 1, 2];
    Widened(direct, virtual);
    hide Separate;
    PropsOk();
    assert Follows(s, ranges, idx);
    AllAligned(s, ranges, idx);
    FitsThere(s, ranges, idx, 0);
    FitsThere(s, ranges, idx, 3);
    FitsThere(s, ranges, idx, 4);
    hide Follows;
    LastsThere(s, ranges, idx, 0);
    LastsThere(s, ranges, idx, 3);
    LastsThere(s, ranges, idx, 4);
    LastsThere(s, ranges, idx, 5);
    LastsThere(s, ranges, idx, 6);
    LastsThere(s, ranges, idx, 7);
    LastsThere(s, ranges, idx, 8);
    LastsThere(s, ranges, idx, 9);
    LastsThere(s, ranges, idx, 10);
  }

  lemma El1Leaves(mem: seq<nat>, l: Layout, root: nat, limit: nat)
    requires El1Separate(l)
    requires StepsDone(Blank(root), El1Script(l)).next <= limit
    requires Inv(mem, StepsDone(Blank(root), El1Script(l)), root, limit, {})
    ensures El1Booted(mem, root, StepsDone(Blank(root), El1Script(l)).data, l)
  {
    hide StepsDone, Inv, Direct, OnFrames, PlacesDiffer, Gone, Pages, At, PageProp, Bit, Lasts, El1Script, Aligned;
    hide Separate, Blank;
    var s, c := Blank(root), El1Script(l);
    El1Entries(l);
    El1Plan(l);
    PropsOk();
    assert Ended(mem, s, c, root, limit);
    hide Ended;
    DirectRange(mem, s, c, root, limit, 0, USER_READ);
    DirectRange(mem, s, c, root, limit, 7, PRIVILEGED);
    DirectRange(mem, s, c, root, limit, 8, USER);
    GoneRange(mem, s, c, root, limit, 9);
    GoneRange(mem, s, c, root, limit, 10);
    FreshRanges(mem, s, c, root, limit, 3, PRIVILEGED);
    FreshRanges(mem, s, c, root, limit, 4, PRIVILEGED);
    FreshRanges(mem, s, c, root, limit, 5, PRIVILEGED);
    FreshRanges(mem, s, c, root, limit, 6, USER);
    FreshDiffer(mem, s, c, root, limit, 3, PRIVILEGED, 3, PRIVILEGED);
    FreshDiffer(mem, s, c, root, limit, 3, PRIVILEGED, 4, PRIVILEGED);
    FreshDiffer(mem, s, c, root, limit, 4, PRIVILEGED, 4, PRIVILEGED);
    FreshDiffer(mem, s, c, root, limit, 3, PRIVILEGED, 5, PRIVILEGED);
    FreshDiffer(mem, s, c, root, limit, 4, PRIVILEGED, 5, PRIVILEGED);
    FreshDiffer(mem, s, c, root, limit, 5, PRIVILEGED, 6, USER);
  }

  function El3Script(l: Layout): seq<Step>
    requires l.stackBase >= PAGE_SIZE
  {
    El3Before(l) + [Region(l)] + El3After(l)
  }

  lemma El3Entries(l: Layout)
    requires El3Separate(l)
    ensures var s := El3Script(l);
            && |s| == 9
            && s[0] == MapPa(l.initBase, PRIV_RO, l.initSize)
            && s[1] == MapPa(l.flashText, PRIV_RO, l.textSize)
            && s[2] == MapPa(l.flashData, PRIV_RO, l.dataSize)
            && s[3] == MapVa(l.textBase, PRIV_RW, l.textSize)
            && s[4] == MapVa(l.dataBase, PRIV_RW, l.dataSize)
            && s[5] == MapVa(l.stackBase - PAGE_SIZE, PRIV_RW, PAGE_SIZE)
            && s[6] == MapPa(l.pgtblBase, PRIV_RW, PGTBL_SIZE)
            && s[7] == MapPa(l.uart, PRIV_RW, PAGE_SIZE)
            && s[8] == MapPa(l.sysreg, PRIV_RW, PAGE_SIZE)
  {
  }

  lemma El3Plan(l: Layout)
    requires El3Separate(l)
    ensures var s := El3Script(l);
            && |s| == 9 && (forall q | 0 <= q < |s| :: Aligned(s[q]) && s[q].Ok())
            && Lasts(s, 0) && Lasts(s, 1) && Lasts(s, 2) && Lasts(s, 3) && Lasts(s, 4)
            && Lasts(s, 5) && Lasts(s, 6) && Lasts(s, 7) && Lasts(s, 8)
            && First(s[0]) + Pages(s[0].len) <= FRAMES && First(s[1]) + Pages(s[1].len) <= FRAMES
            && First(s[2]) + Pages(s[2].len) <= FRAMES && First(s[6]) + Pages(s[6].len) <= FRAMES
            && First(s[7]) + Pages(s[7].len) <= FRAMES && First(s[8]) + Pages(s[8].len) <= FRAMES
  {
    hide Pages, At, PageProp, Lasts, El3Script, Aligned, First, Range.Fits, Range.Misses;
    El3Entries(l);
    var s := El3Script(l);
    var direct := [Range(l.initBase, l.initSize), Range(l.flashText, l.textSize), Range(l.flashData, l.dataSize),
                   Range(l.pgtblBase, PGTBL_SIZE), Range(l.uart, PAGE_SIZE), Range(l.sysreg, PAGE_SIZE)];
    var virtual := [Range(l.textBase, l.textSize), Range(l.dataBase, l.dataSize),
                    Range(l.stackBase - PAGE_SIZE, PAGE_SIZE)];
    var ranges: seq<Range>, idx: seq<nat> := direct + virtual, [0, 1, 2, 6, 7, 8, 3, 4, 5];
    Widened(direct, virtual);
    hide Separate;
    PropsOk();
    assert Follows(s, ranges, idx);
    AllAligned(s, ranges, idx);
    FitsThere(s, ranges, idx, 0);
    FitsThere(s, ranges, idx, 1);
    FitsThere(s, ranges, idx, 2);
    FitsThere(s, ranges, idx, 3);
    FitsThere(s, ranges, idx, 4);
    FitsThere(s, ranges, idx, 5);
    hide Follows;
    LastsThere(s, ranges, idx, 0);
    LastsThere(s, ranges, idx, 1);
    LastsThere(s, ranges, idx, 2);
    LastsThere(s, ranges, idx, 3);
    LastsThere(s, ranges, idx, 4);
    LastsThere(s, ranges, idx, 5);
    LastsThere(s, ranges, idx, 6);
    LastsThere(s, ranges, idx, 7);
    LastsThere(s, ranges, idx, 8);
  }

  lemma El3Leaves(mem: seq<nat>, l: Layout, root: nat, limit: nat)
    requires El3Separate(l)
    requires StepsDone(Blank(root), El3Script(l)).next <= limit
    requires Inv(mem, StepsDone(Blank(root), El3Script(l)), root, limit, {})
    ensures El3Booted(mem, root, StepsDone(Blank(root), El3Script(l)).data, l)
  {
    hide StepsDone, Inv, Direct, OnFrames, PlacesDiffer, Gone, Pages, At, PageProp, Bit, Lasts, El3Script, Aligned;
    hide Separate, Blank;
    var s, c := Blank(root), El3Script(l);
    El3Entries(l);
    El3Plan(l);
    PropsOk();
    assert Ended(mem, s, c, root, limit);
    hide Ended;
    DirectRange(mem, s, c, root, limit, 0, PRIVILEGED_READ);
    DirectRange(mem, s, c, root, limit, 1, PRIVILEGED_READ);
    DirectRange(mem, s, c, root, limit, 2, PRIVILEGED_READ);
    DirectRange(mem, s, c, root, limit, 6, PRIVILEGED);
    DirectRange(mem, s, c, root, limit, 7, PRIVILEGED);
    DirectRange(mem, s, c, root, limit, 8, PRIVILEGED);
    FreshRanges(mem, s, c, root, limit, 3, PRIVILEGED);
    FreshRanges(mem, s, c, root, limit, 4, PRIVILEGED);
    FreshRanges(mem, s, c, root, limit, 5, PRIVILEGED);
    FreshDiffer(mem, s, c, root, limit, 3, PRIVILEGED, 3, PRIVILEGED);
    FreshDiffer(mem, s, c, root, limit, 3, PRIVILEGED, 4, PRIVILEGED);
    FreshDiffer(mem, s, c, root, limit, 4, PRIVILEGED, 4, PRIVILEGED);
    FreshDiffer(mem, s, c, root, limit, 3, PRIVILEGED, 5, PRIVILEGED);
    FreshDiffer(mem, s, c, root, limit, 4, PRIVILEGED, 5, PRIVILEGED);
  }
}
