/** Whole runs on real tables: the object machine follows the protocol, and what a request list does to
    the three address spaces is what the translation hardware then sees. */
module MachineRuns {
  import opened Bits
  import opened Vmsa
  import opened TableTree
  import opened AddressSpaces
  import opened Heap
  import opened PageRanges
  import opened Messages
  import opened Protocol
  import opened ProtocolProof
  import opened ProtocolRuns
  import opened ProtocolLaws
  import opened Machines

  // ---------- the pools suffice ----------

  function MapCount(rs: seq<Request>): nat {
    if rs == [] then 0 else MapCount(rs[..|rs| - 1]) + if rs[|rs| - 1].Map? then 1 else 0
  }

  lemma {:induction false} MapCountMonotone(rs: seq<Request>, k: nat)
    requires k < |rs|
    ensures MapCount(rs[..k]) + (if rs[k].Map? then 1 else 0) <= MapCount(rs)
  {
    var before := rs[..|rs| - 1];
    if k == |rs| - 1 {
    } else {
      assert before[..k] == rs[..k];
      MapCountMonotone(before, k);
    }
  }

  /** A request takes at most three pool pages in each address space, and only a map request takes any. */
  lemma {:induction false} PoolUse(g: Global, rs: seq<Request>)
    ensures var t := AfterAll(g, rs);
            && g.sec.next <= t.sec.next <= g.sec.next + 3 * MapCount(rs)
            && g.nsec.next <= t.nsec.next <= g.nsec.next + 3 * MapCount(rs)
            && g.el3.next <= t.el3.next <= g.el3.next + 3 * MapCount(rs)
  {
    hide Mapped, LookedUp, Bit;
    if rs != [] {
      var before, r := rs[..|rs| - 1], rs[|rs| - 1];
      PoolUse(g, before);
      var t := AfterAll(g, before);
      if r.Map? {
        MappedAtMost3(t.sec, r.va, Resolved(t, r.va, r.pa), PTE_USER_RW);
        MappedAtMost3(t.el3, r.va, Resolved(t, r.va, r.pa), PTE_PRIV_RW);
        MappedAtMost3(t.nsec, r.va, r.pa, PTE_USER_RW);
      }
    }
  }

  /** Where a map operation is about to happen, it is the current request's, on an untouched space. */
  lemma MapPoint(st: State, g: Global)
    requires Good(st, g)
    ensures st.el3 == Some(OP_MAP) ==>
              && st.done < |st.todo| && st.todo[st.done].Map?
              && st.buf.Va() == st.todo[st.done].va && st.el3Space == g.el3
    ensures st.el3.None? && st.live.el1.Handling? && st.live.el1.op == OP_MAP ==>
              && st.done < |st.todo| && st.todo[st.done].Map?
              && st.Cur().Get(st.live.el1.ptr).Va() == st.todo[st.done].va
              && st.Cur().space == if st.live.world == Nsec then g.nsec else g.sec
  {
    hide Shr, Low, Or, Shl, Mapped, LookedUp, Lo, Hi, Pack, Hop, Bit;
  }

  /** A page that a request list may map: outside the three pools, and not the interop buffer's. */
  ghost predicate Mappable(m: Machine, va: nat)
    reads m.Repr()
  {
    && OffPool(m.sec.tables, va) && OffPool(m.nsec.tables, va) && OffPool(m.el3Tables, va)
    && Vpn(va) != m.smcInteropBuf / 0x1000
  }

  /** The request list fits: room for its maps in every address space, at pages it may map. */
  ghost predicate Fits(m: Machine, g: Global)
    reads m.Repr()
  {
    && g.sec.next + 3 * MapCount(m.todo) <= m.sec.tables.limit
    && g.nsec.next + 3 * MapCount(m.todo) <= m.nsec.tables.limit
    && g.el3.next + 3 * MapCount(m.todo) <= m.el3Tables.limit
    && (forall k | 0 <= k < |m.todo| && m.todo[k].Map? :: Mappable(m, m.todo[k].va))
  }

  lemma NextFits(m: Machine, g: Global)
    requires m.Valid() && Fits(m, g) && m.done <= |m.todo|
    requires Good(m.St(), AfterAll(g, m.todo[..m.done]))
    ensures m.NextMapFits()
  {
    hide Inv, Good, Bit, After, Vpn, AfterAll, MapCount, m.Valid;
    MapPoint(m.St(), AfterAll(g, m.todo[..m.done]));
    PoolUse(g, m.todo[..m.done]);
    if m.done < |m.todo| {
      MapCountMonotone(m.todo, m.done);
    }
  }

  // ---------- runs ----------

  /** Any run of the machine is a run of the protocol: with a long enough list of chances the client
      finishes, and the spaces that the real tables then represent are those of the atomic requests. */
  method Run(m: Machine, hs: seq<Chance>, ghost g: Global)
    requires m.Valid() && Legals(m.todo) && m.done == 0 && Good(m.St(), g) && Fits(m, g)
    modifies m.Repr()
    ensures m.Valid() && m.St() == Steps(old(m.St()), hs) && m.done <= |m.todo|
    ensures Good(m.St(), AfterAll(g, m.todo[..m.done]))
    ensures |hs| > Rank(old(m.St())) ==> Finished(m.St()) && View(m.St()) == AfterAll(g, m.todo)
  {
    hide Inv, Good, Bit, Protocol.Step, After, Rank, Finished, View, m.Valid;
    ghost var s0 := m.St();
    assert m.todo[..0] == [];
    assert hs[..0] == [];
    for k := 0 to |hs|
      invariant m.Valid() && m.St() == Steps(s0, hs[..k])
    {
      assert hs[..k + 1][..k] == hs[..k] && hs[..k + 1][k] == hs[k];
      RunsAreAtomic(s0, g, hs[..k]);
      NextFits(m, g);
      m.Step(hs[k]);
    }
    assert hs[..|hs|] == hs;
    RunsFinish(s0, g, hs);
  }

  /** Only the client itself completes requests. */
  lemma MonitorKeepsDone(st: State, op: nat, h: Chance)
    ensures El3HandleSmc(st, op, h).done == st.done
  {
    hide Shr, Low, Or, Shl, Mapped, LookedUp, Lo, Hi, Pack, Hop, Bit, ClearEl3;
  }

  lemma El1KeepsDone(st: State, op: nat, ptr: Ptr, ret: nat, h: Chance)
    ensures El1HandleSvc(st, op, ptr, h).done == st.done
    ensures El1AfterSmc(st, op, ptr, ret).done == st.done
  {
    hide El1HandleSvc, El1AfterSmc;
    HandlerKeepsDone(st, op, ptr, h);
    AfterSmcKeepsDone(st, op, ptr, ret);
  }

  lemma HandlerKeepsDone(st: State, op: nat, ptr: Ptr, h: Chance)
    ensures El1HandleSvc(st, op, ptr, h).done == st.done
  {
    hide Shr, Low, Or, Shl, Mapped, LookedUp, Lo, Hi, Pack, Hop, Bit;
  }

  lemma AfterSmcKeepsDone(st: State, op: nat, ptr: Ptr, ret: nat)
    ensures El1AfterSmc(st, op, ptr, ret).done == st.done
  {
    hide Shr, Low, Or, Shl, Lo, Hi, Pack, Hop, Bit;
  }

  lemma ServerKeepsDone(st: State, op: nat, h: Chance)
    ensures SecLoop(st, op, h).done == st.done
  {
    hide Shr, Low, Or, Shl, Mapped, LookedUp, Lo, Hi, Pack, Hop, Bit;
  }

  /** The step that completes a request leaves the client between requests. */
  lemma CompletedAtRest(st: State, g: Global, h: Chance)
    requires Good(st, g) && Protocol.Step(st, h).done == st.done + 1
    ensures AtRest(Protocol.Step(st, h))
  {
    hide El3HandleSmc, El1HandleSvc, El1AfterSmc, SecLoop, Good, Bit;
    if st.el3.Some? {
      MonitorKeepsDone(st, st.el3.value, h);
      assert false;
    }
    match st.live.el1 {
      case Handling(op, ptr) =>
        El1KeepsDone(st, op, ptr, 0, h);
        assert false;
      case Back(op, ptr, ret) =>
        El1KeepsDone(st, op, ptr, ret, h);
        assert false;
      case Leaving(_) =>
        if st.live.el0.InCall? {
          InCallIsClient(st, g);
        }
      case Out =>
        if st.live.el0.LoopTop? {
          ServerKeepsDone(st, st.live.el0.op, h);
          assert false;
        } else if st.live.el0.Ready? {
          InCallIsClient(st, g);
        }
      case _ =>
    }
  }

  lemma InCallIsClient(st: State, g: Global)
    requires Good(st, g) && (st.live.el0.InCall? || st.live.el0.Ready?) && !st.live.el1.Waiting?
    ensures st.World() == Nsec
  {
    hide Shr, Low, Or, Shl, Mapped, LookedUp, Lo, Hi, Pack, Hop, Bit;
  }

  /** Runs the machine until request `k` is complete, or the chances are used up: `n` steps in all. */
  method RunThrough(m: Machine, hs: seq<Chance>, k: nat, ghost g: Global) returns (n: nat)
    requires m.Valid() && Legals(m.todo) && m.done == 0 && Good(m.St(), g) && Fits(m, g) && k < |m.todo|
    modifies m.Repr()
    ensures m.Valid() && n <= |hs| && m.St() == Steps(old(m.St()), hs[..n]) && m.done <= k + 1
    ensures m.done == k + 1 ==> AtRest(m.St()) && View(m.St()) == AfterAll(g, m.todo[..k + 1])
    ensures |hs| > Rank(old(m.St())) ==> m.done == k + 1
  {
    hide Inv, Good, Bit, Protocol.Step, After, Rank, AtRest, View, m.Valid, Steps;
    ghost var s0 := m.St();
    assert m.todo[..0] == [];
    n := 0;
    StepNone(s0, hs);
    while n < |hs| && m.done <= k
      invariant n <= |hs| && m.Valid() && m.St() == Steps(s0, hs[..n]) && m.done <= k + 1
      invariant Good(m.St(), AfterAll(g, m.todo[..m.done]))
      invariant m.done == k + 1 ==> AtRest(m.St())
    {
      ghost var s := m.St();
      StepAt(s0, hs, n);
      NextFits(m, g);
      StepKeeps(s, AfterAll(g, s.todo[..s.done]), hs[n]);
      if Protocol.Step(s, hs[n]).done == s.done + 1 {
        CompletedAtRest(s, AfterAll(g, s.todo[..s.done]), hs[n]);
      }
      m.Step(hs[n]);
      RunsAreAtomic(s0, g, hs[..n + 1]);
      n := n + 1;
    }
    if m.done == k + 1 {
      AtRestGood(m.St(), AfterAll(g, m.todo[..k + 1]));
    } else {
      assert hs[..n] == hs;
      RunsFinish(s0, g, hs);
    }
  }

  lemma StepNone(st: State, hs: seq<Chance>)
    ensures Steps(st, hs[..0]) == st
  {
    assert hs[..0] == [];
  }

  // ---------- what the hardware sees ----------

  /** What a space's flat map says, its tables do: an access to a page reaches the frame mapped there. */
  lemma TablesAgree(a: AddressSpace, x: nat, write: bool)
    requires a.Valid({}) && Shr(x, 48) == 0
    ensures Translate(a.ram.words, a.root, x, write) ==
            match Reaches(a.space, x, write) case None => None case Some(f) => Some(0x1000 * f + x % 0x1000)
  {
    hide Shr, Low, Or, Shl, Bit, Vpn, Frame, HwReadable, HwWritable, Translate;
    InvTree(a.ram.words, a.space, a.root, a.limit, {});
    TranslateIsFlat(a.ram.words, a.space, a.root, x, write);
  }

  /** The three regimes' tables in memory translate `x` alike. */
  ghost predicate AllTranslate(m: Machine, x: nat, write: bool)
    reads m.Repr()
  {
    var pa := Translate(m.ram.words, m.nsec.tables.root, x, write);
    && pa.Some?
    && Translate(m.ram.words, m.el3Tables.root, x, write) == pa
    && Translate(m.ram.words, m.sec.tables.root, x, write) == pa
  }

  lemma AllTranslateIs(m: Machine, x: nat, write: bool)
    requires m.Valid() && Shr(x, 48) == 0
    ensures AllTranslate(m, x, write) <==> Agree(View(m.St()), x, write)
  {
    hide Inv, Translate, Reaches, Shr;
    TablesAgree(m.nsec.tables, x, write);
    TablesAgree(m.el3Tables, x, write);
    TablesAgree(m.sec.tables, x, write);
  }

  /** The machine runs until a map request for all levels is complete. Then, for any address of the page,
      the walks through the three regimes' tables in memory end at the same byte if and only if nonsecure EL1
      had the page before the request, the caller did not ask for physical address zero instead, and the
      server was parked or secure EL1 had that frame already. Where nonsecure EL1 had no page, EL3 and a
      parked secure EL1 are left with none. */
  method MapAllLevels(m: Machine, hs: seq<Chance>, k: nat, x: nat, write: bool, ghost g: Global)
    requires m.Valid() && Legals(m.todo) && m.done == 0 && Good(m.St(), g) && Fits(m, g) && !g.stuck
    requires k < |m.todo| && m.todo[k].Map? && m.todo[k].kind == OP_MAP_ALL
    requires Vpn(x) == Vpn(m.todo[k].va) && Shr(x, 48) == 0
    requires |hs| > Rank(m.St())
    modifies m.Repr()
    ensures m.Valid() && m.done == k + 1
    ensures var before, stuck := AfterAll(g, m.todo[..k]), StuckAfter(m.todo[..k]);
            var f := Reaches(before.nsec, x, write);
            && m.nsec.tables.space == before.nsec && (stuck ==> m.sec.tables.space == before.sec)
            && (AllTranslate(m, x, write) <==>
                  f.Some? && (m.todo[k].pa != 0 || f == Some(0)) && (!stuck || Reaches(before.sec, x, write) == f))
            && (Vpn(x) !in before.nsec.flat && m.todo[k].pa != 0 ==>
                  && Translate(m.ram.words, m.el3Tables.root, x, write) == None
                  && (!stuck ==> Translate(m.ram.words, m.sec.tables.root, x, write) == None))
  {
    hide Inv, Good, Bit, After, Rank, AtRest, Vpn, Translate, Steps, Shr, AfterAll, Reaches;
    var n := RunThrough(m, hs, k, g);
    ghost var before, r := AfterAll(g, m.todo[..k]), m.todo[k];
    LegalsPrefix(m.todo, k);
    ExactlyOnce(g, m.todo[..k]);
    OneMore(g, m.todo, k);
    MapAllBits();
    MapEverywhere(before, r.kind, r.va, r.pa, write);
    if Vpn(x) !in before.nsec.flat && r.pa != 0 {
      MapUnmapped(before, r.kind, r.va, r.pa, write);
    }
    SamePage(before, x, r.va, write);
    SamePage(View(m.St()), x, r.va, write);
    AllTranslateIs(m, x, write);
    TablesAgree(m.el3Tables, x, write);
    TablesAgree(m.sec.tables, x, write);
  }

  lemma OneMore(g: Global, todo: seq<Request>, k: nat)
    requires k < |todo|
    ensures AfterAll(g, todo[..k + 1]) == After(AfterAll(g, todo[..k]), todo[k])
  {
    hide After;
    assert todo[..k + 1][..k] == todo[..k] && todo[..k + 1][k] == todo[k];
  }

  lemma SamePage(g: Global, x: nat, va: nat, write: bool)
    requires Vpn(x) == Vpn(va)
    ensures Reaches(g.nsec, x, write) == Reaches(g.nsec, va, write)
    ensures Reaches(g.el3, x, write) == Reaches(g.el3, va, write)
    ensures Reaches(g.sec, x, write) == Reaches(g.sec, va, write)
  {
    hide Vpn, Frame, HwWritable, HwReadable;
  }
}
