/** What the atomic requests amount to, and the exact limits of what the protocol delivers. */
module ProtocolLaws {
  import opened Bits
  import opened Vmsa
  import opened TableTree
  import opened Messages
  import opened Protocol
  import opened ProtocolProof
  import opened ProtocolRuns

  // ---------- dispatch ----------

  /** Dispatches without a target since the last request with one that went to the secure world. */
  function LostSince(todo: seq<Request>): nat {
    if todo == [] then 0
    else
      var before, r := todo[..|todo| - 1], todo[|todo| - 1];
      if !Crosses(r) then LostSince(before) else if Exists(r) then 0 else LostSince(before) + 1
  }

  predicate StuckAfter(todo: seq<Request>) {
    LostSince(todo) % 2 == 1
  }

  /** A dispatch runs if and only if its target exists and it stays in the nonsecure world or finds the
      secure server parked. */
  predicate Runs(r: Request, stuck: bool) {
    r.Dispatch? && Exists(r) && (r.state == NONSECURE || !stuck)
  }

  function TestOf(r: Request, stuck: bool): seq<Event> {
    if Runs(r, stuck) then [Event(r.fid, r.el, WorldOf(r.state), r.arg)] else []
  }

  /** The tests that run, in order. */
  function Named(todo: seq<Request>): seq<Event> {
    if todo == [] then []
    else
      var before := todo[..|todo| - 1];
      Named(before) + TestOf(todo[|todo| - 1], StuckAfter(before))
  }

  function Crossings(todo: seq<Request>): nat {
    if todo == [] then 0 else Crossings(todo[..|todo| - 1]) + if Crosses(todo[|todo| - 1]) then 1 else 0
  }

  /** The register writes of a list, in order: one for each write that names a register at EL1 or EL3. */
  function AllWritten(todo: seq<Request>): seq<RegWrite> {
    if todo == [] then [] else AllWritten(todo[..|todo| - 1]) + Written(todo[|todo| - 1])
  }

  /** Each dispatch that can run does so exactly once, at its level, in its world, with its argument, in the
      order asked, and so does each register write; each request costs two world switches or none; and the
      server is stuck after an odd number of dispatches without a target. */
  lemma {:induction false} ExactlyOnce(g: Global, todo: seq<Request>)
    requires Legals(todo) && !g.stuck
    ensures AfterAll(g, todo).log == g.log + Named(todo)
    ensures AfterAll(g, todo).writes == g.writes + AllWritten(todo)
    ensures AfterAll(g, todo).switches == g.switches + 2 * Crossings(todo)
    ensures AfterAll(g, todo).stuck == StuckAfter(todo)
  {
    hide Crosses, Runs, TestOf, Written, After;
    if todo != [] {
      var before, r := todo[..|todo| - 1], todo[|todo| - 1];
      ExactlyOnce(g, before);
      AfterOne(AfterAll(g, before), r);
      CrossingDispatch(r);
    }
  }

  lemma AfterOne(g: Global, r: Request)
    ensures var t := After(g, r);
            && t.log == g.log + TestOf(r, g.stuck) && t.writes == g.writes + Written(r)
            && t.switches == g.switches + (if Crosses(r) then 2 else 0)
            && t.stuck == (if !Crosses(r) then g.stuck else !g.stuck && !Exists(r))
  {
    hide Mapped, LookedUp, Bit, Shr, Crosses;
    CrossingDispatch(r);
    CrossingWrite(r);
  }

  lemma CrossingWrite(r: Request)
    ensures r.SetReg? ==> !Crosses(r)
  {
  }

  lemma CrossingDispatch(r: Request)
    ensures r.Dispatch? && Exists(r) ==> (Crosses(r) <==> r.state == SECURE)
    ensures !Exists(r) ==> Crosses(r)
  {
  }

  /** From boot on, at every point of every run: exactly the tests of the completed requests have run, and
      possibly the current one's; and a run that is long enough completes them all. The list may mix
      dispatches with and without a target. */
  lemma DispatchTheorem(todo: seq<Request>, sec: Space, nsec: Space, el3: Space, d: Desc, buf: Desc, hs: seq<Chance>)
    requires Legals(todo)
    ensures var st := Start(todo, sec, nsec, el3, d, buf);
            var t := Steps(st, hs);
            && t.done <= |todo|
            && (t.log == Named(todo[..t.done]) || (t.done < |todo| && t.log == Named(todo[..t.done + 1])))
            && (AtRest(t) ==>
                  && t.secState == ServerAt(StuckAfter(todo[..t.done])) && t.log == Named(todo[..t.done])
                  && t.writes == AllWritten(todo[..t.done]))
            && (|hs| > Rank(st) ==> Finished(t) && t.log == Named(todo) && t.switches == 1 + 2 * Crossings(todo))
  {
    hide *;
    var st, g := Start(todo, sec, nsec, el3, d, buf), Origin(sec, nsec, el3);
    StartGood(todo, sec, nsec, el3, d, buf);
    StartFacts(todo, sec, nsec, el3, d, buf);
    RunsFinish(st, g, hs);
    var t := Steps(st, hs);
    LogAt(t, g);
    ExactlyOnce(g, todo);
    ViewParts(t);
    if AtRest(t) {
      AtRestServer(t, AfterAll(g, todo[..t.done]));
      LegalsPrefix(todo, t.done);
      ExactlyOnce(g, todo[..t.done]);
      assert [] + Named(todo[..t.done]) == Named(todo[..t.done]);
      assert [] + AllWritten(todo[..t.done]) == AllWritten(todo[..t.done]);
    }
    assert [] + Named(todo) == Named(todo);
  }

  /** Between two points of one run, with the client at rest before and after request `k`: the request has
      run a test if and only if it is a dispatch whose target exists and that stays in the nonsecure world or
      finds the secure server parked; and then exactly that one. */
  lemma DispatchRunsIff(todo: seq<Request>, sec: Space, nsec: Space, el3: Space, d: Desc, buf: Desc,
                        hs: seq<Chance>, more: seq<Chance>, k: nat)
    requires Legals(todo) && k < |todo|
    requires var t := Steps(Start(todo, sec, nsec, el3, d, buf), hs); AtRest(t) && t.done == k
    requires var u := Steps(Start(todo, sec, nsec, el3, d, buf), hs + more); AtRest(u) && u.done == k + 1
    ensures var t := Steps(Start(todo, sec, nsec, el3, d, buf), hs);
            var u := Steps(Start(todo, sec, nsec, el3, d, buf), hs + more);
            && t.secState == ServerAt(StuckAfter(todo[..k]))
            && if Runs(todo[k], t.secState == STUCK) then
                 u.log == t.log + [Event(todo[k].fid, todo[k].el, WorldOf(todo[k].state), todo[k].arg)]
               else u.log == t.log
  {
    hide Steps, Start, AtRest, Named, Rank, Legals;
    DispatchTheorem(todo, sec, nsec, el3, d, buf, hs);
    DispatchTheorem(todo, sec, nsec, el3, d, buf, hs + more);
    NamedStep(todo, k);
  }

  lemma ViewParts(st: State)
    ensures View(st).log == st.log && View(st).switches == st.switches
  {
  }

  lemma AtRestServer(st: State, g: Global)
    requires Good(st, g) && AtRest(st)
    ensures st.secState == ServerAt(g.stuck) && st.log == g.log && st.writes == g.writes
  {
    hide Shr, Low, Or, Shl, Mapped, LookedUp, Lo, Hi, Pack, Hop, Bit;
  }

  /** The tests run so far, from the effect of the completed requests. */
  lemma LogAt(t: State, g: Global)
    requires Legals(t.todo) && t.done <= |t.todo| && g.log == [] && !g.stuck && Good(t, AfterAll(g, t.todo[..t.done]))
    ensures t.log == Named(t.todo[..t.done]) || (t.done < |t.todo| && t.log == Named(t.todo[..t.done + 1]))
  {
    hide *;
    var k := t.done;
    LegalsPrefix(t.todo, k);
    ExactlyOnce(g, t.todo[..k]);
    LogNow(t, AfterAll(g, t.todo[..k]));
    if k < |t.todo| {
      NamedStep(t.todo, k);
    }
    assert [] + Named(t.todo[..k]) == Named(t.todo[..k]);
  }

  lemma LegalsPrefix(todo: seq<Request>, k: nat)
    requires Legals(todo) && k <= |todo|
    ensures Legals(todo[..k])
  {
    hide Legal;
  }

  lemma StartFacts(todo: seq<Request>, sec: Space, nsec: Space, el3: Space, d: Desc, buf: Desc)
    ensures var st := Start(todo, sec, nsec, el3, d, buf); st.todo == todo && st.done == 0
    ensures var g := Origin(sec, nsec, el3);
            todo[..0] == [] && AfterAll(g, []) == g && g.log == [] && g.writes == [] && g.switches == 1 && !g.stuck
  {
  }

  lemma NamedStep(todo: seq<Request>, k: nat)
    requires k < |todo|
    ensures Named(todo[..k + 1]) == Named(todo[..k]) + TestOf(todo[k], StuckAfter(todo[..k]))
  {
    assert todo[..k + 1][..k] == todo[..k] && todo[..k + 1][k] == todo[k];
  }

  lemma LogNow(st: State, g: Global)
    requires Good(st, g)
    ensures st.log == g.log || (st.done < |st.todo| && st.log == g.log + TestOf(st.todo[st.done], g.stuck))
  {
    hide Shr, Low, Or, Shl, Mapped, LookedUp, Lo, Hi, Pack, Hop, Bit;
    if st.done < |st.todo| {
      assert Legal(st.todo[st.done]);
      CrossingDispatch(st.todo[st.done]);
    }
  }

  // ---------- lists in which every target exists, and others ----------

  ghost predicate AllExist(todo: seq<Request>) {
    forall k | 0 <= k < |todo| :: Exists(todo[k])
  }

  /** All tests that a list names. */
  function Asked(todo: seq<Request>): seq<Event> {
    if todo == [] then []
    else Asked(todo[..|todo| - 1]) + TestOf(todo[|todo| - 1], false)
  }

  /** Where every target exists the server is never stuck and every named test runs. */
  lemma {:induction false} AllRun(todo: seq<Request>)
    requires AllExist(todo)
    ensures LostSince(todo) == 0 && Named(todo) == Asked(todo)
  {
    hide Crosses;
    if todo != [] {
      AllRun(todo[..|todo| - 1]);
      CrossingDispatch(todo[|todo| - 1]);
    }
  }

  /** One dispatch without a target costs the next secure dispatch as well; two cost only themselves. */
  lemma LostPair(f: nat, el: nat, state: nat, a: nat, next: Request)
    requires !Target(el, state)
    requires next.Dispatch? && Target(next.el, next.state) && next.state == SECURE
    ensures var lost := Dispatch(f, el, state, a);
            && Named([lost, next]) == [] && !StuckAfter([lost, next])
            && Named([lost, lost, next]) == [Event(next.fid, next.el, Sec, next.arg)]
  {
    var lost := Dispatch(f, el, state, a);
    var one, two, three := [lost, next], [lost, lost, next], [lost, lost];
    assert [lost][..0] == [];
    assert LostSince([lost]) == 1;
    assert one[..1] == [lost];
    assert three[..1] == [lost];
    assert two[..2] == three;
    assert Named([lost]) == [];
    assert Named(three) == [];
  }

  // ---------- mapping everywhere ----------

  /** The frame that a data access to `va` reaches through an address space. */
  ghost function Reaches(s: Space, va: nat, write: bool): Option<nat> {
    if Vpn(va) in s.flat && (if write then HwWritable(s.flat[Vpn(va)]) else HwReadable(s.flat[Vpn(va)]))
    then Some(Frame(s.flat[Vpn(va)])) else None
  }

  /** One frame at all three levels. */
  ghost predicate Agree(g: Global, va: nat, write: bool) {
    var f := Reaches(g.nsec, va, write);
    f.Some? && Reaches(g.el3, va, write) == f && Reaches(g.sec, va, write) == f
  }

  /** A map request that names EL3 and secure EL1 never changes nonsecure EL1's own address space. It ends
      with all three levels reaching one frame if and only if nonsecure EL1 had the page before, the caller
      did not ask for physical address zero instead, and the secure server was parked or secure EL1 had that
      frame already. */
  lemma MapEverywhere(g: Global, kind: nat, va: nat, pa: nat, write: bool)
    requires Bit(kind, 3) == 1 && Bit(kind, 2) == 1
    ensures var t, f := After(g, Map(kind, va, pa)), Reaches(g.nsec, va, write);
            && t.nsec == g.nsec && t.switches == g.switches + 2 && !t.stuck
            && (g.stuck ==> t.sec == g.sec)
            && (f.Some? && pa != 0 ==> Reaches(t.el3, va, write) == f && (!g.stuck ==> Reaches(t.sec, va, write) == f))
            && (Agree(t, va, write) <==>
                  f.Some? && (pa != 0 || f == Some(0)) && (!g.stuck || Reaches(g.sec, va, write) == f))
  {
    hide Low, Or, Shl, Shr, Bit, Vpn, Grown, PageWord, Frame, Address, HwReadable, HwWritable, LowAttr;
    var f := Reaches(g.nsec, va, write);
    Privileges();
    if pa == 0 {
      PageOfFrame(0, PTE_PRIV_RW);
      PageOfFrame(0, PTE_USER_RW);
    } else if f.Some? {
      var w := g.nsec.flat[Vpn(va)];
      FrameInRange(w);
      AddressIsFrame(w);
      PageOfFrame(f.value, PTE_PRIV_RW);
      PageOfFrame(f.value, PTE_USER_RW);
    }
  }

  /** Where nonsecure EL1 does not have the page, the lookup's error value goes out as the physical address:
      EL3 and a parked secure EL1 lose whatever they had there and reach nothing. */
  lemma MapUnmapped(g: Global, kind: nat, va: nat, pa: nat, write: bool)
    requires Bit(kind, 3) == 1 && Bit(kind, 2) == 1 && pa != 0 && Vpn(va) !in g.nsec.flat
    ensures var t := After(g, Map(kind, va, pa));
            && t.nsec == g.nsec && Reaches(t.nsec, va, write) == None
            && Vpn(va) in t.el3.flat && Reaches(t.el3, va, write) == None
            && (!g.stuck ==> Vpn(va) in t.sec.flat && Reaches(t.sec, va, write) == None)
            && (g.stuck ==> t.sec == g.sec)
  {
    hide Low, Or, Shl, Shr, Bit, Vpn, Grown, PageWord, Frame, HwReadable, HwWritable, LowAttr;
    Privileges();
    NoPageUnreachable(PTE_PRIV_RW);
    NoPageUnreachable(PTE_USER_RW);
  }

  /** A map request that does not name EL3 maps exactly the page asked for, to the frame asked for, at nonsecure
      EL1 alone. */
  lemma MapLocally(g: Global, kind: nat, va: nat, pa: nat, write: bool)
    requires Bit(kind, 3) == 0
    ensures var t := After(g, Map(kind, va, pa));
            && t == g.(nsec := t.nsec)
            && Reaches(t.nsec, va, write) == (if Vpn(pa) < FRAMES then Some(Vpn(pa)) else None)
  {
    hide Low, Or, Shl, Shr, Bit, Vpn, Grown, PageWord, Frame, HwReadable, HwWritable, LowAttr;
    Privileges();
    PageWordReads(pa, PTE_USER_RW);
  }

  /** One that names EL3 but not secure EL1 changes EL3 alone, which ends up with nonsecure EL1's frame. */
  lemma MapForMonitor(g: Global, kind: nat, va: nat, pa: nat, write: bool)
    requires Bit(kind, 3) == 1 && Bit(kind, 2) == 0
    ensures var t, f := After(g, Map(kind, va, pa)), Reaches(g.nsec, va, write);
            && t == g.(el3 := t.el3)
            && (pa != 0 && f.Some? ==> Reaches(t.el3, va, write) == f)
            && (pa != 0 && Vpn(va) !in g.nsec.flat ==> Reaches(t.el3, va, write) == None)
            && (pa == 0 ==> Reaches(t.el3, va, write) == Some(0))
  {
    hide Low, Or, Shl, Shr, Bit, Vpn, Grown, PageWord, Frame, Address, HwReadable, HwWritable, LowAttr;
    Privileges();
    if pa == 0 {
      PageOfFrame(0, PTE_PRIV_RW);
    } else if Vpn(va) in g.nsec.flat {
      var w := g.nsec.flat[Vpn(va)];
      FrameInRange(w);
      if Frame(w) < FRAMES {
        AddressIsFrame(w);
        PageOfFrame(Frame(w), PTE_PRIV_RW);
      }
    } else {
      NoPageUnreachable(PTE_PRIV_RW);
    }
  }

  lemma Privileges()
    ensures LowAttr(PTE_PRIV_RW) && LowAttr(PTE_USER_RW) && Bit(PTE_PRIV_RW, 7) == 0 && Bit(PTE_USER_RW, 7) == 0
  {
    ConstantBits();
  }

  /** A page descriptor made from the error value names a frame beyond physical memory. */
  lemma NoPageUnreachable(attr: nat)
    requires LowAttr(attr)
    ensures !HwReadable(PageWord(NO_PAGE, attr)) && !HwWritable(PageWord(NO_PAGE, attr))
  {
    hide Shr, Low, Or, Shl, Bit, LowAttr;
    NoPageNumber();
    PageWordReads(NO_PAGE, attr);
  }

  lemma NoPageNumber()
    ensures Vpn(NO_PAGE) == 0xF_FFFF_FFFF
  {
    hide Shr, Low, Shl;
    var page, top := 0xF_FFFF_FFFF_FFFF, 0xFFFF;
    ShiftPage(page);
    ShiftPage(1);
    Parts(page, 0xFFF, 12);
    ShiftPage(top);
    ShiftPage(0x1000 * top);
    ShiftPage(0x100_0000 * top);
    ShlShl(top, 12, 12);
    ShlShl(top, 24, 12);
    ShiftPage(0x1000);
    ShiftPage(0x100_0000);
    ShlShl(1, 12, 12);
    ShlShl(1, 24, 12);
    Parts(top, 0xF_FFFF_FFFF, 36);
  }

  lemma MapAllBits()
    ensures Bit(OP_MAP_ALL, 3) == 1 && Bit(OP_MAP_ALL, 2) == 1
  {
    Shr23(OP_MAP_ALL);
  }

  lemma PageOfFrame(f: nat, attr: nat)
    requires f < FRAMES && LowAttr(attr) && Bit(attr, 7) == 0
    ensures var w := PageWord(0x1000 * f, attr); HwWritable(w) && HwReadable(w) && Frame(w) == f
  {
    VpnOfFrame(f);
    PageWordReads(0x1000 * f, attr);
  }

  // ---------- EL3's registers ----------

  lemma StepAt(st: State, hs: seq<Chance>, k: nat)
    requires k < |hs|
    ensures Steps(st, hs[..0]) == st
    ensures Steps(st, hs[..k + 1]) == Step(Steps(st, hs[..k]), hs[k])
  {
    hide Step;
    assert hs[..k + 1][..k] == hs[..k];
  }

  /** The client's registers are live and it is about to make the request `r`. */
  predicate AboutTo(st: State, r: Request) {
    && !st.halted && st.el3.None? && st.live == Context(Nsec, Ready, Out)
    && st.done < |st.todo| && st.todo[st.done] == r && |st.results| == st.done
  }

  /** The five registers' keys. */
  predicate Register(key: nat) {
    1 <= key <= 5
  }

  /** A register call is one of three steps, or of five where it needs EL3. */
  function CallSteps(r: Request): nat
    requires r.GetReg? || r.SetReg?
  {
    if r.el == 3 then 5 else 3
  }

  /** What a register call delivers: at EL1 and EL3 the register as the handler finds it, SCR as the last write
      left it; a field without meaning comes back as it was sent. */
  predicate Delivers(st: State, r: Request, hs: seq<Chance>, d: Desc)
    requires (r.GetReg? || r.SetReg?) && |hs| >= 3
  {
    && Carries(r, d)
    && (r.GetReg? ==>
          d.Data() == if !Register(r.key) then hs[0].junk.Data()
                      else if r.el == 1 then hs[1].reg(1, r.key)
                      else if r.el == 3 && r.key == SCR then st.scr
                      else if r.el == 3 then hs[2].reg(3, r.key)
                      else hs[0].junk.Data())
  }

  /** The write that a call makes. */
  function Written(r: Request): seq<RegWrite> {
    if r.SetReg? && Register(r.key) && (r.el == 1 || r.el == 3) then [RegWrite(r.el, r.key, r.data)] else []
  }

  predicate RegisterCall(r: Request) {
    (r.GetReg? || r.SetReg?) && r.el < U32
  }

  /** Nonsecure EL1 is where `e` says, with the client's call under way. */
  predicate InTheCall(st: State, e: El1) {
    !st.halted && st.live == Context(Nsec, InCall, e)
  }

  /** Every register call of nonsecure EL0, at every level and for every key, completes in its number of steps
      without a world switch and resumes its caller, whatever is written. A read delivers the register that it
      names, a write reaches it once, and nothing else changes but the descriptor and the interop buffer. */
  lemma RegisterAccess(st: State, r: Request, hs: seq<Chance>)
    requires AboutTo(st, r) && RegisterCall(r) && |hs| >= 5
    requires r.el == 3 ==> Bit(st.scr, 7) == 0
    ensures var t := Steps(st, hs[..CallSteps(r)]);
            && t == st.(nsec := st.nsec.(arg := t.nsec.arg), buf := t.buf, scr := t.scr, done := st.done + 1,
                        writes := st.writes + Written(r), results := st.results + [t.nsec.arg])
            && t.scr == (if r.SetReg? && r.el == 3 && r.key == SCR then r.data else st.scr)
            && (r.el != 3 ==> t.buf == st.buf)
            && Delivers(st, r, hs, t.results[st.done])
  {
    hide Steps, Step, Carries, Written, Bit, Desc.Data, Register;
    CallReaches(st, r, hs);
    var s2 := Steps(st, hs[..2]);
    StepAt(st, hs, 2);
    if r.el == 3 {
      CallServed(s2, r, hs[2]);
      CallComesBack(st, r, hs);
    } else {
      CallOver(s2, hs[2]);
    }
  }

  /** The first two steps. */
  lemma CallReaches(st: State, r: Request, hs: seq<Chance>)
    requires AboutTo(st, r) && RegisterCall(r) && |hs| >= 2
    requires r.el == 3 ==> Bit(st.scr, 7) == 0
    ensures var t, d := Steps(st, hs[..2]), hs[0].junk.Data();
            && Carries(r, t.nsec.arg)
            && if r.el == 3 then
                 && t == st.(nsec := st.nsec.(arg := t.nsec.arg), buf := t.nsec.arg, el3 := Some(OpOf(r)),
                             live := Context(Nsec, InCall, Waiting(OpOf(r), Arg)))
                 && (r.GetReg? ==> t.buf.Data() == d)
               else
                 && t == st.(nsec := st.nsec.(arg := t.nsec.arg), writes := st.writes + Written(r),
                             live := Context(Nsec, InCall, Leaving(0)))
                 && (r.GetReg? ==>
                       t.nsec.arg.Data() == if r.el == 1 && Register(r.key) then hs[1].reg(1, r.key) else d)
  {
    hide Steps, Step, Carries, Written, Bit, Desc.Data, Register;
    CallIssued(st, r, hs[0]);
    StepAt(st, hs, 0);
    CallHandled(Steps(st, hs[..1]), r, hs[1]);
    StepAt(st, hs, 1);
  }

  /** The last two of a call to EL3. */
  lemma CallComesBack(st: State, r: Request, hs: seq<Chance>)
    requires RegisterCall(r) && |hs| >= 5
    requires var s3 := Steps(st, hs[..3]); InTheCall(s3, Back(OpOf(r), Arg, 0)) && s3.el3.None?
    ensures var s3, t := Steps(st, hs[..3]), Steps(st, hs[..5]);
            var d := if r.GetReg? then s3.buf else s3.nsec.arg;
            t == s3.(nsec := s3.nsec.(arg := d), live := Context(Nsec, Ready, Out), done := s3.done + 1,
                     results := s3.results + [d])
  {
    hide Steps, Step;
    CallReturns(Steps(st, hs[..3]), r, hs[3]);
    StepAt(st, hs, 3);
    CallOver(Steps(st, hs[..4]), hs[4]);
    StepAt(st, hs, 4);
  }

  /** The client's step. */
  lemma CallIssued(st: State, r: Request, h: Chance)
    requires AboutTo(st, r) && RegisterCall(r)
    ensures var t := Step(st, h);
            && t == st.(nsec := st.nsec.(arg := t.nsec.arg), live := Context(Nsec, InCall, Handling(OpOf(r), Arg)))
            && Carries(r, t.nsec.arg) && (r.GetReg? ==> t.nsec.arg.Data() == h.junk.Data())
  {
    hide Shr, Low, Or, Shl, Lo, Hi, Pack, Bit;
    PackReads(r.el, Hi(h.junk.w2));
  }

  /** EL1's: the access itself, or the trap to EL3. */
  lemma CallHandled(st: State, r: Request, h: Chance)
    requires RegisterCall(r) && InTheCall(st, Handling(OpOf(r), Arg)) && st.el3.None? && Carries(r, st.nsec.arg)
    requires r.el == 3 ==> Bit(st.scr, 7) == 0
    ensures var t, d := Step(st, h), st.nsec.arg;
            if r.el == 3 then
              t == st.(buf := d, el3 := Some(OpOf(r)), live := Context(Nsec, InCall, Waiting(OpOf(r), Arg)))
            else
              && t == st.(nsec := st.nsec.(arg := t.nsec.arg), live := Context(Nsec, InCall, Leaving(0)),
                          writes := st.writes + Written(r))
              && Carries(r, t.nsec.arg)
              && t.nsec.arg.Data() == if r.GetReg? && r.el == 1 && Register(r.key) then h.reg(1, r.key) else d.Data()
  {
    hide Shr, Low, Or, Shl, Lo, Hi, Pack, Bit;
  }

  /** EL3's. */
  lemma CallServed(st: State, r: Request, h: Chance)
    requires RegisterCall(r) && r.el == 3 && InTheCall(st, Waiting(OpOf(r), Arg)) && st.el3 == Some(OpOf(r))
    requires Carries(r, st.buf)
    ensures var t := Step(st, h);
            && t == st.(buf := t.buf, scr := t.scr, el3 := None, writes := st.writes + Written(r),
                        live := Context(Nsec, InCall, Back(OpOf(r), Arg, 0)))
            && t.scr == (if r.SetReg? && r.key == SCR then r.data else st.scr) && Carries(r, t.buf)
            && t.buf.Data() == if !r.GetReg? || !Register(r.key) then st.buf.Data()
                               else if r.key == SCR then st.scr else h.reg(3, r.key)
  {
    hide Shr, Low, Or, Shl, Lo, Hi, Pack, Bit;
  }

  /** EL1's again: a read copies the buffer out. */
  lemma CallReturns(st: State, r: Request, h: Chance)
    requires RegisterCall(r) && InTheCall(st, Back(OpOf(r), Arg, 0)) && st.el3.None?
    ensures Step(st, h) ==
            st.(nsec := st.nsec.(arg := if r.GetReg? then st.buf else st.nsec.arg),
                live := Context(Nsec, InCall, Leaving(0)))
  {
  }

  /** The return to the client. */
  lemma CallOver(st: State, h: Chance)
    requires InTheCall(st, Leaving(0)) && st.el3.None?
    ensures Step(st, h) ==
            st.(live := Context(Nsec, Ready, Out), done := st.done + 1, results := st.results + [st.nsec.arg])
  {
  }

  lemma {:induction false} StepsFrom(st: State, a: seq<Chance>, b: seq<Chance>)
    ensures Steps(st, a + b) == Steps(Steps(st, a), b)
  {
    hide Step;
    if b == [] {
      assert a + b == a;
    } else {
      assert (a + b)[..|a + b| - 1] == a + b[..|b| - 1];
      StepsFrom(st, a, b[..|b| - 1]);
    }
  }

  lemma {:induction false} HaltedStays(st: State, hs: seq<Chance>)
    requires st.halted
    ensures Steps(st, hs) == st
  {
    if hs != [] {
      HaltedStays(st, hs[..|hs| - 1]);
    }
  }

  /** What a client writes to SCR its next request reads back, if and only if the write leaves SMC
      enabled: after setting SMD no call reaches EL3 again. */
  lemma ScrReadsBack(st: State, data: nat, hs: seq<Chance>)
    requires AboutTo(st, SetReg(SCR, 3, data)) && ScrStores(data) && Bit(st.scr, 7) == 0 && |hs| == 10
    requires st.done + 1 < |st.todo| && st.todo[st.done + 1] == GetReg(SCR, 3)
    ensures var t := Steps(st, hs);
            if Bit(data, 7) == 0 then
              t.done == st.done + 2 && |t.results| == t.done && t.results[st.done + 1].Data() == data
            else t.halted && t.done == st.done + 1
  {
    hide Bit, Shr, Low, Steps, Step;
    RegisterAccess(st, SetReg(SCR, 3, data), hs);
    var s5, rest := Steps(st, hs[..5]), hs[5..];
    StepsFrom(st, hs[..5], rest);
    assert hs[..5] + rest == hs && rest[..5] == rest;
    if Bit(data, 7) == 0 {
      RegisterAccess(s5, GetReg(SCR, 3), rest);
      assert rest == rest[..5];
    } else {
      LockedOut(s5, GetReg(SCR, 3), rest);
      assert rest[..2] + rest[2..] == rest;
      StepsFrom(s5, rest[..2], rest[2..]);
      HaltedStays(Steps(s5, rest[..2]), rest[2..]);
    }
  }

  lemma LockedOut(st: State, r: Request, hs: seq<Chance>)
    requires AboutTo(st, r) && r.GetReg? && r.el == 3 && Bit(st.scr, 7) == 1 && |hs| >= 2
    ensures var t := Steps(st, hs[..2]); t.halted && t.done == st.done
  {
    hide Shr, Low, Or, Shl, Mapped, LookedUp, Lo, Hi, Pack, Hop, Bit, Steps;
    PackReads(3, Hi(hs[0].junk.w2));
    StepAt(st, hs, 0);
    StepAt(st, hs, 1);
  }

  /** A write that keeps SMC enabled leaves EL3's state variable equal to SCR.NS if and only if it keeps
      NS set. If it clears NS, the next dispatch to secure EL3 finds level and SCR matching but not the
      variable: run_test then issues an SVC from EL3, and the machine stops. If it keeps NS, the same
      dispatch goes to the secure world. */
  lemma FlippedWrite(st: State, data: nat, fid: nat, arg: nat, hs: seq<Chance>)
    requires AboutTo(st, SetReg(SCR, 3, data)) && ScrStores(data) && Bit(data, 7) == 0 && |hs| == 8
    requires Bit(st.scr, 7) == 0 && Bit(st.scr, 0) == 1 && st.el3State == 1 && st.secState == PARKED
    requires st.done + 1 < |st.todo| && st.todo[st.done + 1] == Dispatch(fid, 3, SECURE, arg) && fid < U32
    ensures var t := Steps(st, hs[..5]); t.el3State == Bit(t.scr, 0) <==> Bit(data, 0) == 1
    ensures var t := Steps(st, hs);
            if Bit(data, 0) == 0 then t.halted
            else !t.halted && t.live == Context(Sec, LoopCall, Back(OP_YIELD, Loop, OP_DISPATCH))
  {
    hide Bit, Shr, Low, Steps, Step;
    var r := Dispatch(fid, 3, SECURE, arg);
    RegisterAccess(st, SetReg(SCR, 3, data), hs);
    var s5, rest := Steps(st, hs[..5]), hs[5..];
    StepsFrom(st, hs[..5], rest);
    assert hs[..5] + rest == hs && rest[..3] == rest;
    SecureEl3Dispatch(s5, r, rest);
  }

  lemma SecureEl3Dispatch(st: State, r: Request, hs: seq<Chance>)
    requires AboutTo(st, r) && r.Dispatch? && r.el == 3 && r.state == SECURE && r.fid < U32 && |hs| == 3
    requires Bit(st.scr, 7) == 0 && st.el3State == 1 && st.secState == PARKED
    ensures var t := Steps(st, hs[..3]);
            if Bit(st.scr, 0) == 0 then t.halted
            else !t.halted && t.live == Context(Sec, LoopCall, Back(OP_YIELD, Loop, OP_DISPATCH))
  {
    hide Shr, Low, Or, Shl, Mapped, LookedUp, Lo, Hi, Pack, Hop, Bit, Steps;
    PackReads(r.fid, Hi(hs[0].junk.w0));
    StepAt(st, hs, 0);
    var s1 := Steps(st, hs[..1]);
    assert s1.live == Context(Nsec, InCall, Handling(OP_DISPATCH, Arg)) && Carries(r, s1.nsec.arg);
    StepAt(st, hs, 1);
    var s2 := Steps(st, hs[..2]);
    assert s2.el3 == Some(OP_DISPATCH) && Carries(r, s2.buf) &&
        s2.live == Context(Nsec, InCall, Waiting(OP_DISPATCH, Arg));
    StepAt(st, hs, 2);
  }

  // ---------- calls outside the protocol ----------

  /** The operations that EL3 serves. */
  predicate Served3(op: nat) {
    op == 0 || op == 1 || (3 <= op && op <= 7)
  }

  /** An SMC shuts the machine down if and only if EL3 does not serve its operation. (A dispatch may stop it in
      one more way, which `FlippedWrite` names.) No operation has no effect but its return. */
  lemma ShutsDown(st: State, op: nat, h: Chance)
    requires !st.halted && st.el3 == Some(op) && op != OP_DISPATCH && st.live.el1.Waiting?
    requires st.secState.el1.Waiting? && (st.nsecState.el1.Waiting? || st.nsecState.el1.Unstarted?)
    ensures Step(st, h).halted <==> !Served3(op)
    ensures op == 0 ==>
              Step(st, h) == st.(el3 := None, live := st.live.(el1 := Back(st.live.el1.op, st.live.el1.ptr, 0)))
  {
    hide Shr, Low, Or, Shl, Mapped, LookedUp, Lo, Hi, Pack, Hop, Bit;
  }

  /** An exit request of either world's EL0 stops the machine in two steps, by way of EL1. */
  lemma ExitStops(st: State, ptr: Ptr, hs: seq<Chance>)
    requires !st.halted && st.el3.None? && st.live.el1 == Handling(OP_EXIT, ptr) && |hs| >= 2
    ensures var t := Steps(st, hs[..2]); t.halted && t.done == st.done && t.switches == st.switches
  {
    hide Shr, Low, Or, Shl, Mapped, LookedUp, Lo, Hi, Pack, Hop, Bit, Steps;
    StepAt(st, hs, 0);
    StepAt(st, hs, 1);
  }

  /** The secure server asks to exit if and only if it is woken with an operation that it does not know. */
  lemma ServerExits(st: State, op: nat, h: Chance)
    requires !st.halted && st.el3.None? && st.live == Context(Sec, LoopTop(op), Out)
    ensures Step(st, h).live.el1 == Handling(OP_EXIT, Loop) <==> !(op == 0 || op == 1 || op == 3 || op == 6 || op == 7)
  {
    hide Shr, Low, Or, Shl, Mapped, LookedUp, Lo, Hi, Pack, Hop, Bit;
  }

  // ---------- the fall-through ----------

  /** SMC_OP_TEST falls into the register read. The hop count then stands where the read looks for its
      level, so the test survives for every register content if and only if the hop was not the third, or
      the tested value is no register key, or it is SCR's and SCR holds the value expected. The protocol's
      own EL3 hop is the second. */
  lemma FallThroughHarmless(b: Desc, scr: nat, orig: nat, n: nat)
    requires Tested(b, orig, n) && n < 63
    ensures (forall h: Chance :: Tested(El3GetReg(Hop(b), scr, h), orig, n + 1))
            <==> n != 2 || !RecognizedKey(orig) || (orig == SCR && scr == Shr(orig, n + 1))
  {
    var other := Chance(b, scr, (l: nat, k: nat) => Shr(orig, n + 1) + 1, b);
    assert Tested(El3GetReg(Hop(b), scr, other), orig, n + 1) ==>
             n != 2 || !RecognizedKey(orig) || (orig == SCR && scr == Shr(orig, n + 1));
    hide Shr, Low, Or, Shl, Pack, Hop, Lo, Hi;
    HopAdvances(b, orig, n);
  }
}
