/** From reset: EL3 boots and starts, EL1 of each world boots and starts in what memory then holds, and
    the client's requests are served on the three address spaces that result. */
module System {
  import opened Vmsa
  import opened TableTree
  import opened Bytes
  import opened Memory
  import opened AddressSpaces
  import opened Heap
  import opened PageRanges
  import opened Boot
  import opened Scripts
  import opened Startup
  import opened Messages
  import opened Protocol
  import opened ProtocolProof
  import opened ProtocolRuns
  import opened ProtocolLaws
  import opened Machines
  import opened MachineRuns

  /** One translation regime: its layout, the end of its pool, and its boot script. */
  datatype Regime = Regime(l: Layout, limit: nat, before: seq<Step>, after: seq<Step>) {
    function Root(): nat { l.pgtblBase / 0x1000 }
    function HeapPage(): nat { l.heapBase / 0x1000 }
    ghost function Booted(): Space { StepsDone(Blank(Root()), before + [Region(l)] + after) }
  }

  function El3Regime(l: Layout, limit: nat): Regime
    requires l.stackBase >= PAGE_SIZE
  {
    Regime(l, limit, El3Before(l), El3After(l))
  }

  function El1Regime(l: Layout, limit: nat): Regime
    requires l.stackBase >= PAGE_SIZE && l.el0StackBase >= PAGE_SIZE
  {
    Regime(l, limit, El1Before(l), El1After(l))
  }

  /** A regime can boot in `memory`, its heap has `pages` pages outside the pool, its init segment lies
      outside the pool, and `spare` pool pages are left after the boot script. */
  ghost predicate CanStart(memory: seq<nat>, r: Regime, pages: nat, spare: nat) {
    && CanBoot(memory, r.l, r.limit, r.before, r.after)
    && r.Booted().next + spare <= r.limit
    && r.l.heapBase == At(r.HeapPage()) && r.HeapPage() + pages <= PAGE_NUMBERS
    && (r.HeapPage() + pages <= r.Root() || r.limit <= r.HeapPage())
    && (var e, p := r.l.initBase / 0x1000, Pages(r.l.initSize);
        r.l.initBase == At(e) && e + p <= PAGE_NUMBERS && Apart(e, e + p, r.Root(), r.limit))
  }

  ghost predicate Clear(v: nat, r: Regime) {
    !(r.Root() <= v < r.limit)
  }

  ghost predicate Disjoint(r: Regime, q: Regime) {
    r.limit <= q.Root() || q.limit <= r.Root()
  }

  /** Three pools apart from each other, and an interop buffer page that EL1 can map. */
  ghost predicate Platform(memory: seq<nat>, r3: Regime, rs: Regime, rn: Regime, spare: nat) {
    && CanStart(memory, r3, 2, 14 + spare) && CanStart(memory, rs, 1, 13 + spare) && CanStart(memory, rn, 1, 13 + spare)
    && Disjoint(r3, rs) && Disjoint(r3, rn) && Disjoint(rs, rn)
    && Clear(r3.HeapPage() + 1, rs) && Clear(r3.HeapPage() + 1, rn)
    && r3.HeapPage() + 1 != rs.HeapPage() && r3.HeapPage() + 1 != rn.HeapPage()
  }

  /** What other regimes do leaves a regime's pool as it was. */
  lemma StillCanStart(memory: seq<nat>, memory': seq<nat>, r: Regime, pages: nat, spare: nat, q: Regime)
    requires CanStart(memory, r, pages, spare) && OutsideKept(memory, memory', q.Root(), q.limit) && Disjoint(r, q)
    ensures CanStart(memory', r, pages, spare)
  {
    hide StepsDone, Avoids, Pages;
    forall f | r.Root() <= f < r.limit
      ensures ZeroFrame(memory', f)
    {
      assert ZeroFrame(memory, f) && SameFrame(memory, memory', f);
    }
  }

  /** All bytes of the page at `buf` translate to the page at `pa`. */
  ghost predicate Shares(a: AddressSpace, buf: nat, pa: nat)
    reads a, a.ram
  {
    forall o: nat | o < 0x1000 :: StoreReaches(a, buf, pa, o)
  }

  ghost predicate StoreReaches(a: AddressSpace, buf: nat, pa: nat, o: nat)
    reads a, a.ram
  {
    Translate(a.ram.words, a.root, buf + o, true) == Some(pa + o)
  }

  lemma SharesPage(a: AddressSpace, buf: nat, f: nat)
    requires a.Valid({}) && BufferIn(a.space, a.root, a.limit, buf, At(f)) && f < FRAMES
    ensures Shares(a, buf, At(f))
  {
    hide Translate, Inv, Frame, HwWritable, PageWord, At;
    AtIs(f);
    UserPage(f);
    forall o: nat | o < 0x1000
      ensures StoreReaches(a, buf, At(f), o)
    {
      PageReachable(a, buf / 0x1000, o);
    }
  }

  /** Boots and starts EL3. */
  method StartEl3(ram: Ram, r: Regime, ghost spare: nat)
    returns (a: AddressSpace, syscntlPa: nat, buf: nat, ghost f: nat, ghost g: nat)
    requires r.l.stackBase >= PAGE_SIZE && r == El3Regime(r.l, r.limit) && CanStart(ram.words, r, 2, 14 + spare)
    modifies ram
    ensures fresh(a) && a.ram == ram && a.Valid({})
    ensures a.root == r.Root() && a.limit == r.limit && a.space.next + spare <= a.limit
    ensures OutsideKept(old(ram.words), ram.words, r.Root(), r.limit)
    ensures a.root <= f < a.limit && a.root <= g < a.limit && g in a.space.data
    ensures syscntlPa == At(f) && buf == At(r.HeapPage() + 1)
    ensures Entry(ram.words, f, 0) == At(g) && Entry(ram.words, f, 1) == buf && 512 * f + 1 < |ram.words|
    ensures BufferIn(a.space, a.root, a.limit, buf, At(g))
  {
    hide StepsDone, CanBoot, OutsideKept, Inv, PageWord, Pages;
    ghost var m0 := ram.words;
    a := BootEl3(ram, r.l, r.limit);
    ghost var m := ram.words;
    syscntlPa, buf, f, g := El3Start(a, r.l.initBase, r.l.initSize);
    OutsideTrans(m0, m, ram.words, r.Root(), r.limit);
    assert buf == At(r.HeapPage() + 1) && buf / 0x1000 == r.HeapPage() + 1;
  }

  /** Boots and starts EL1 of one world. */
  method StartEl1(ram: Ram, r: Regime, syscntlPa: nat, ghost v: nat, ghost f: nat, ghost g: nat, ghost spare: nat)
    returns (a: AddressSpace, buf: nat)
    requires r.l.stackBase >= PAGE_SIZE && r.l.el0StackBase >= PAGE_SIZE && r == El1Regime(r.l, r.limit)
    requires CanStart(ram.words, r, 1, 13 + spare)
    requires syscntlPa == At(f) && Clear(f, r) && f < FRAMES && 512 * f + 1 < |ram.words|
    requires Entry(ram.words, f, 0) == At(g) && Entry(ram.words, f, 1) == At(v)
    requires v < PAGE_NUMBERS && Clear(v, r) && v != r.HeapPage()
    modifies ram
    ensures fresh(a) && a.ram == ram && a.Valid({})
    ensures a.root == r.Root() && a.limit == r.limit && a.space.next + spare <= a.limit
    ensures OutsideKept(old(ram.words), ram.words, r.Root(), r.limit)
    ensures buf == At(v) && BufferIn(a.space, a.root, a.limit, buf, At(g))
  {
    hide StepsDone, CanBoot, OutsideKept, Inv, PageWord, Pages, Vpn;
    ghost var m0 := ram.words;
    a := BootEl1(ram, r.l, r.limit);
    ghost var m := ram.words;
    ControlKept(m0, m, a.root, a.limit, f);
    VpnAt(v);
    var syscntl;
    syscntl, buf := El1Start(a, r.l.initBase, r.l.initSize, syscntlPa, [At(g), At(v)]);
    OutsideTrans(m0, m, ram.words, r.Root(), r.limit);
    assert buf / 0x1000 == v;
  }

  ghost predicate Regimes(r3: Regime, rs: Regime, rn: Regime) {
    && r3.l.stackBase >= PAGE_SIZE && rs.l.stackBase >= PAGE_SIZE && rn.l.stackBase >= PAGE_SIZE
    && rs.l.el0StackBase >= PAGE_SIZE && rn.l.el0StackBase >= PAGE_SIZE
    && r3 == El3Regime(r3.l, r3.limit) && rs == El1Regime(rs.l, rs.limit) && rn == El1Regime(rn.l, rn.limit)
  }

  /** A manager that runs for a regime, with room to spare. */
  ghost predicate Serves(a: AddressSpace, r: Regime, spare: nat)
    reads a
  {
    a.root == r.Root() && a.limit == r.limit && a.space.next + spare <= a.limit
  }

  /** From memory with three zero pools: the three memory managers run in that one memory, none disturbs
      another's tables, and one page, the interop buffer, is mapped at one address to one frame in all
      three. */
  method PowerOn(ram: Ram, r3: Regime, rs: Regime, rn: Regime, ghost spare: nat)
    returns (el3: AddressSpace, sec: AddressSpace, nsec: AddressSpace, buf: nat, ghost bufFrame: nat)
    requires Regimes(r3, rs, rn) && Platform(ram.words, r3, rs, rn, spare)
    modifies ram
    ensures fresh(el3) && fresh(sec) && fresh(nsec) && el3.ram == ram
    ensures Shareable(sec, nsec, el3, buf, bufFrame) && buf / 0x1000 == r3.HeapPage() + 1
    ensures Serves(el3, r3, spare) && Serves(sec, rs, spare) && Serves(nsec, rn, spare)
    ensures Shares(el3, buf, At(bufFrame)) && Shares(sec, buf, At(bufFrame)) && Shares(nsec, buf, At(bufFrame))
  {
    hide CanStart, OutsideKept, Inv, Shares, BufferIn, El3Regime, El1Regime;
    var syscntlPa;
    ghost var f, m0 := 0, ram.words;
    HeapInRange(m0, r3, 14 + spare);
    el3, syscntlPa, buf, f, bufFrame := StartEl3(ram, r3, spare);
    ghost var m1 := ram.words;
    FrameSmall(m0, r3, 14 + spare, f);
    FrameSmall(m0, r3, 14 + spare, bufFrame);
    StillCanStart(m0, m1, rs, 1, 13 + spare, r3);
    StillCanStart(m0, m1, rn, 1, 13 + spare, r3);
    var b1, b2;
    sec, b1 := StartEl1(ram, rs, syscntlPa, r3.HeapPage() + 1, f, bufFrame, spare);
    ghost var m2 := ram.words;
    InvOutside(m1, m2, el3.space, el3.root, el3.limit, rs.Root(), rs.limit);
    StillCanStart(m1, m2, rn, 1, 13 + spare, rs);
    ControlKept(m1, m2, rs.Root(), rs.limit, f);
    nsec, b2 := StartEl1(ram, rn, syscntlPa, r3.HeapPage() + 1, f, bufFrame, spare);
    InvOutside(m2, ram.words, el3.space, el3.root, el3.limit, rn.Root(), rn.limit);
    InvOutside(m2, ram.words, sec.space, sec.root, sec.limit, rn.Root(), rn.limit);
    InvTree(ram.words, el3.space, el3.root, el3.limit, {});
    SharesPage(el3, buf, bufFrame);
    SharesPage(sec, buf, bufFrame);
    SharesPage(nsec, buf, bufFrame);
    assert buf / 0x1000 == r3.HeapPage() + 1;
  }

  lemma HeapInRange(memory: seq<nat>, r: Regime, spare: nat)
    requires CanStart(memory, r, 2, spare)
    ensures r.HeapPage() + 1 < PAGE_NUMBERS && Clear(r.HeapPage() + 1, r)
  {
    hide CanBoot, StepsDone, Pages;
  }

  lemma FrameSmall(memory: seq<nat>, r: Regime, spare: nat, f: nat)
    requires CanStart(memory, r, 2, spare) && f < r.limit
    ensures f < FRAMES
  {
    hide StepsDone, Pages, Avoids, ZeroFrame;
  }

  /** The whole system: after power-on, a run that is long enough serves every request. Each dispatch that
      can run has run exactly once, in order, at its level and in its world; the three regimes' tables in
      the one memory are those that the requests, taken one after another, describe; and the interop buffer
      is still the same page for all of them. */
  method Serve(ram: Ram, r3: Regime, rs: Regime, rn: Regime, todo: seq<Request>, d: Desc, hs: seq<Chance>)
    returns (m: Machine, ghost g: Global, ghost b: Desc)
    requires Regimes(r3, rs, rn) && Platform(ram.words, r3, rs, rn, 3 * MapCount(todo))
    requires Legals(todo)
    requires forall k | 0 <= k < |todo| && todo[k].Map? ::
               Clear(Vpn(todo[k].va), r3) && Clear(Vpn(todo[k].va), rs) && Clear(Vpn(todo[k].va), rn)
               && Vpn(todo[k].va) != r3.HeapPage() + 1
    modifies ram
    ensures m.Valid() && m.ram == ram && !m.halted && m.todo == todo && m.done <= |todo|
    ensures g.log == [] && g.switches == 1 && !g.stuck
    ensures |hs| > Rank(Start(todo, g.sec, g.nsec, g.el3, d, b)) ==>
              && Finished(m.St()) && m.log == Named(todo) && m.switches == 1 + 2 * Crossings(todo)
              && View(m.St()) == AfterAll(g, todo)
    ensures Shares(m.el3Tables, m.smcInteropBuf, At(m.bufFrame))
    ensures Shares(m.sec.tables, m.smcInteropBuf, At(m.bufFrame))
    ensures Shares(m.nsec.tables, m.smcInteropBuf, At(m.bufFrame))
  {
    hide Inv, Vpn, Good, AfterAll, Rank, Finished, Shares, Legal, Protocol.Step, CanStart, View, Steps, At, Regimes,
         BufferIn;
    var el3, sec, nsec, buf;
    ghost var bufFrame;
    el3, sec, nsec, buf, bufFrame := PowerOn(ram, r3, rs, rn, 3 * MapCount(todo));
    m := new Machine(sec, nsec, el3, buf, bufFrame, todo, d);
    b := m.Buf();
    g := Origin(sec.space, nsec.space, el3.space);
    StartGood(todo, g.sec, g.nsec, g.el3, d, b);
    Run(m, hs, g);
    Safe(m.St(), AfterAll(g, m.todo[..m.done]));
    ExactlyOnce(g, todo);
    ViewParts(m.St());
    SharesPage(m.el3Tables, m.smcInteropBuf, m.bufFrame);
    SharesPage(m.sec.tables, m.smcInteropBuf, m.bufFrame);
    SharesPage(m.nsec.tables, m.smcInteropBuf, m.bufFrame);
  }
}
