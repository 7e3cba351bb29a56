/** The protocol's handlers as they run: objects whose fields they update, and three translation regimes
    in one memory. The interop buffer is a page of that memory, which every handler reads and writes
    through the tables of the regime it runs in. */
module Machines {
  import opened Bits
  import opened Vmsa
  import opened TableTree
  import opened Bytes
  import opened Memory
  import opened AddressSpaces
  import opened Heap
  import opened PageRanges
  import opened Messages
  import opened Protocol
  import opened ProtocolRuns

  /** One world's memory: EL0's descriptors and EL1's tables. */
  class WorldThread {
    var arg: Desc
    var loop: Desc
    var disp: Desc
    const tables: AddressSpace

    constructor (d: Desc, tables: AddressSpace)
      ensures this.tables == tables && arg == d && loop == d && disp == d
    {
      this.tables := tables;
      this.arg, this.loop, this.disp := d, d, d;
    }

    ghost function State(): Thread
      reads this, tables
    {
      Thread(arg, loop, disp, tables.space)
    }

    function Get(p: Ptr): Desc
      reads this
    {
      match p case Arg => arg case Loop => loop case Disp => disp
    }

    method Set(p: Ptr, d: Desc)
      modifies this
      ensures State() == old(State()).Set(p, d)
    {
      match p
      case Arg => arg := d;
      case Loop => loop := d;
      case Disp => disp := d;
    }
  }

  // ---------- one memory, three regimes ----------

  /** The page at `buf` is mapped, outside the regime's pool, to the page at `pa`. */
  ghost predicate BufferIn(s: Space, root: nat, limit: nat, buf: nat, pa: nat) {
    var v := buf / 0x1000;
    && buf == At(v) && v < PAGE_NUMBERS && !(root <= v < limit)
    && v in s.flat && s.flat[v] == PageWord(pa, PTE_USER_RW)
  }

  ghost predicate PoolsApart(a: AddressSpace, b: AddressSpace) {
    a.limit <= b.root || b.limit <= a.root
  }

  ghost function BufferAt(mem: seq<nat>, f: nat): Desc {
    Desc(Entry(mem, f, 0), Entry(mem, f, 1), Entry(mem, f, 2), Entry(mem, f, 3), Entry(mem, f, 4))
  }

  /** Three valid managers of one memory with separate pools, and a page of EL3's data mapped at one
      address in all of them. */
  ghost predicate Shareable(sec: AddressSpace, nsec: AddressSpace, el3: AddressSpace, buf: nat, f: nat)
    reads sec, nsec, el3, sec.ram, nsec.ram, el3.ram
  {
    && sec != nsec && sec != el3 && nsec != el3
    && sec.ram == el3.ram && nsec.ram == el3.ram
    && sec.Valid({}) && nsec.Valid({}) && el3.Valid({})
    && PoolsApart(sec, nsec) && PoolsApart(sec, el3) && PoolsApart(nsec, el3)
    && f in el3.space.data && el3.root <= f < el3.limit <= FRAMES && 512 * el3.limit <= |el3.ram.words|
    && BufferIn(sec.space, sec.root, sec.limit, buf, At(f))
    && BufferIn(nsec.space, nsec.root, nsec.limit, buf, At(f))
    && BufferIn(el3.space, el3.root, el3.limit, buf, At(f))
  }

  lemma BufferReached(a: AddressSpace, buf: nat, f: nat, i: nat)
    requires a.Valid({}) && BufferIn(a.space, a.root, a.limit, buf, At(f)) && f < FRAMES && i < 512
    ensures Translate(a.ram.words, a.root, buf + 8 * i, false) == Some(0x1000 * f + 8 * i)
    ensures Translate(a.ram.words, a.root, buf + 8 * i, true) == Some(0x1000 * f + 8 * i)
  {
    hide Inv, Translate, Frame, HwWritable, PageWord, At;
    AtIs(f);
    UserPage(f);
    PageReachable(a, buf / 0x1000, 8 * i);
  }

  /** Growing one regime's tables leaves the buffer's words alone. */
  lemma BufferStays(mem: seq<nat>, mem': seq<nat>, s: Space, root: nat, limit: nat, f: nat)
    requires OldFramesKept(mem, mem', s, root, limit) && (f in s.data || !(root <= f < limit))
    ensures BufferAt(mem', f) == BufferAt(mem, f)
  {
    assert SameFrame(mem, mem', f);
  }

  // ---------- the machine ----------

  class Machine {
    const ram: Ram
    const sec: WorldThread
    const nsec: WorldThread
    const el3Tables: AddressSpace
    const smcInteropBuf: nat  // the same address in all three images
    ghost const bufFrame: nat
    const todo: seq<Request>
    var live: Context
    var secState: Context
    var nsecState: Context
    var el3: Option<nat>
    var scr: nat
    var secureState: nat  // EL3's
    var done: nat
    var results: seq<Desc>
    var log: seq<Event>
    var writes: seq<RegWrite>
    var switches: nat
    var halted: bool

    /** EL3 has started the secure world, whose server is about to yield for the first time. */
    constructor (secTables: AddressSpace, nsecTables: AddressSpace, el3Tables: AddressSpace, buf: nat,
                 ghost bufFrame: nat, todo: seq<Request>, d: Desc)
      requires Shareable(secTables, nsecTables, el3Tables, buf, bufFrame)
      ensures Valid() && fresh(this) && fresh(sec) && fresh(nsec) && ram == el3Tables.ram
      ensures sec.tables == secTables && nsec.tables == nsecTables && this.el3Tables == el3Tables
      ensures this.todo == todo && smcInteropBuf == buf && this.bufFrame == bufFrame
      ensures St() == Start(todo, secTables.space, nsecTables.space, el3Tables.space, d, Buf())
    {
      hide Inv;
      this.sec := new WorldThread(d, secTables);
      this.nsec := new WorldThread(d, nsecTables);
      this.ram, this.el3Tables, this.todo := el3Tables.ram, el3Tables, todo;
      this.smcInteropBuf, this.bufFrame := buf, bufFrame;
      this.live := Context(Sec, LoopTop(OP_YIELD), Out);
      this.secState := Context(Sec, Ready, Unstarted);
      this.nsecState := Context(Nsec, Ready, Unstarted);
      this.el3, this.scr, this.secureState := None, 0, SECURE;
      this.done, this.results, this.log, this.writes, this.switches, this.halted := 0, [], [], [], 0, false;
    }

    ghost function Repr(): set<object> {
      {this, sec, nsec, el3Tables, sec.tables, nsec.tables, ram}
    }

    /** Three managers in one memory, and the page they share. */
    ghost predicate Valid()
      reads el3Tables, sec.tables, nsec.tables, ram, el3Tables.ram, sec.tables.ram, nsec.tables.ram
    {
      && sec != nsec && el3Tables.ram == ram
      && Shareable(sec.tables, nsec.tables, el3Tables, smcInteropBuf, bufFrame)
    }

    /** What the interop buffer holds, in memory. */
    ghost function Buf(): Desc
      reads ram
    {
      BufferAt(ram.words, bufFrame)
    }

    ghost function St(): State
      reads Repr()
    {
      State(sec.State(), nsec.State(), live, secState, nsecState, el3, Buf(), scr, secureState, el3Tables.space,
            todo, done, results, log, writes, switches, halted)
    }

    function Cur(): WorldThread
      reads this
    {
      if live.world == Nsec then nsec else sec
    }

    lemma Distinct()
      requires Valid()
      ensures sec != nsec && sec.tables != nsec.tables && sec.tables != el3Tables && nsec.tables != el3Tables
    {
      hide Inv;
    }

    predicate Regime(a: AddressSpace) {
      a == sec.tables || a == nsec.tables || a == el3Tables
    }

    // ---------- the interop buffer ----------

    /** One word of the buffer, read through the tables of `a`. */
    method GetWord(a: AddressSpace, i: nat) returns (w: nat)
      requires Valid() && Regime(a) && i < 5
      ensures w == Entry(ram.words, bufFrame, i)
    {
      hide Inv, Translate;
      BufferReached(a, smcInteropBuf, bufFrame, i);
      w := a.Load(smcInteropBuf + 8 * i, bufFrame, i);
    }

    method ReadBuf(a: AddressSpace) returns (d: Desc)
      requires Valid() && Regime(a)
      ensures d == Buf()
    {
      hide Machine.Valid;
      var w0 := GetWord(a, 0);
      var w1 := GetWord(a, 1);
      var w2 := GetWord(a, 2);
      var w3 := GetWord(a, 3);
      var w4 := GetWord(a, 4);
      d := Desc(w0, w1, w2, w3, w4);
    }

    method PutWord(a: AddressSpace, i: nat, w: nat)
      requires Valid() && Regime(a) && i < 5
      modifies ram
      ensures Valid() && WritesOne(old(ram.words), ram.words, bufFrame, i, w)
    {
      hide Inv, Translate, OutsideKept, WritesOne;
      ghost var m := ram.words;
      BufferReached(a, smcInteropBuf, bufFrame, i);
      a.Store(smcInteropBuf + 8 * i, w, bufFrame, i);
      WriteEntry(m, bufFrame, i, w);
      OutsideRefl(m, el3Tables.root, el3Tables.limit);
      OutsideWrite(m, m, ram.words, el3Tables.root, el3Tables.limit, bufFrame, i, w);
      DataStoreKeepsInv(m, ram.words, el3Tables.space, el3Tables.root, el3Tables.limit, {}, bufFrame, i, w);
      InvOutside(m, ram.words, sec.tables.space, sec.tables.root, sec.tables.limit, el3Tables.root, el3Tables.limit);
      InvOutside(m, ram.words, nsec.tables.space, nsec.tables.root, nsec.tables.limit, el3Tables.root, el3Tables.limit);
    }

    method WriteBuf(a: AddressSpace, d: Desc)
      requires Valid() && Regime(a)
      modifies ram
      ensures Valid() && Buf() == d
      ensures St() == old(St()).(buf := d)
    {
      hide Machine.Valid, Inv;
      PutWord(a, 0, d.w0);
      PutWord(a, 1, d.w1);
      PutWord(a, 2, d.w2);
      PutWord(a, 3, d.w3);
      PutWord(a, 4, d.w4);
    }

    // ---------- mapping ----------

    /** Room for one more map, at a page outside the pool and not the buffer's. */
    ghost predicate CanMap(a: AddressSpace, va: nat)
      reads a
    {
      a.space.next + 3 <= a.limit && OffPool(a, va) && Vpn(va) != smcInteropBuf / 0x1000
    }

    /** A map by one regime: its space gains the page; the other two regimes and the interop buffer, in the
        same memory, are as they were. */
    method MapPage(a: AddressSpace, va: nat, pa: nat, attr: nat)
      requires Valid() && Regime(a) && CanMap(a, va) && LowAttr(attr)
      modifies a`nextPa, a`space, ram
      ensures Valid() && a.space == Mapped(old(a.space), va, pa, attr)
      ensures Vpn(va) in a.space.flat && a.space.flat[Vpn(va)] == PageWord(pa, attr)
      ensures Buf() == old(Buf())
    {
      hide Inv, Vpn, Mapped, Missing, Shr, LowAttr, OldFramesKept, OutsideKept, OnlyTables;
      ghost var m, s, lo, hi := ram.words, a.space, a.root, a.limit;
      MissingAtMost3(s, va);
      MappedAtMost3(s, va, pa, attr);
      InvTree(m, s, lo, hi, {});
      TablesInPool(m, s, lo, hi);
      MappedPage(s, lo, hi, va, pa, attr);
      ZeroAttr();
      a.MapPa(va, pa, 0, attr, {});
      TablesKeepFrames(m, ram.words, s, a.space, lo, hi);
      OldFramesOutside(m, ram.words, s, lo, hi);
      BufferStays(m, ram.words, s, lo, hi, bufFrame);
      if a != sec.tables {
        InvOutside(m, ram.words, sec.tables.space, sec.tables.root, sec.tables.limit, lo, hi);
      }
      if a != nsec.tables {
        InvOutside(m, ram.words, nsec.tables.space, nsec.tables.root, nsec.tables.limit, lo, hi);
      }
      if a != el3Tables {
        InvOutside(m, ram.words, el3Tables.space, el3Tables.root, el3Tables.limit, lo, hi);
      }
    }

    /** What a page mapped for the user is, and one mapped for EL3. */
    lemma OpenAfter(a: AddressSpace, va: nat, pa: nat)
      requires Valid() && Regime(a) && Vpn(va) in a.space.flat && a.space.flat[Vpn(va)] == PageWord(pa, PTE_USER_RW)
      ensures Vpn(pa) < FRAMES ==> OpenPage(ram.words, a.root, va, pa)
    {
      hide Inv, Vpn, Translate, PageWord, OpenPage;
      InvTree(ram.words, a.space, a.root, a.limit, {});
      UserOpens(ram.words, a.space, a.root, va, pa);
    }

    lemma ClosedAfter(a: AddressSpace, va: nat, pa: nat)
      requires Valid() && Regime(a) && Vpn(va) in a.space.flat && a.space.flat[Vpn(va)] == PageWord(pa, PTE_PRIV_RW)
      ensures Vpn(pa) < FRAMES ==> ClosedPage(ram.words, a.root, va, pa)
    {
      hide Inv, Vpn, Translate, PageWord, ClosedPage;
      InvTree(ram.words, a.space, a.root, a.limit, {});
      PrivilegedCloses(ram.words, a.space, a.root, va, pa);
    }

    // ---------- el1.c ----------

    method Smc(op: nat, ptr: Ptr, smc: nat)
      requires Valid()
      modifies this`live, this`el3, this`halted
      ensures Valid() && St() == Protocol.Smc(old(St()), op, ptr, smc)
    {
      hide Machine.Valid, Bit;
      if Bit(scr, 7) == 1 {
        halted := true;
      } else {
        live := live.(el1 := Waiting(op, ptr));
        el3 := Some(smc);
      }
    }

    method Leave(ret: nat)
      requires Valid()
      modifies this`live
      ensures Valid() && St() == Protocol.Leave(old(St()), ret)
    {
      hide Machine.Valid, Bit;
      live := live.(el1 := Leaving(ret));
    }

    method RunTest(fid: nat, level: nat, arg: nat, h: Chance)
      requires Valid()
      modifies this`log, this`scr, ram
      ensures Valid() && St() == Protocol.RunTest(old(St()), fid, level, arg, h)
    {
      hide Machine.Valid, Bit, Inv;
      log := log + [Event(fid, level, if Bit(scr, 0) == 1 then Nsec else Sec, arg)];
      WriteBuf(if level == 3 then el3Tables else Cur().tables, h.buf);
      if Bit(h.scr, 0) == Bit(scr, 0) && Bit(h.scr, 7) == 0 {
        scr := h.scr;
      }
    }

    /** mem_lookup_pa's result as a 64-bit word. */
    method LookupWord(a: AddressSpace, va: nat) returns (pa: nat)
      requires Valid() && Regime(a)
      ensures pa == LookedUp(a.space, va)
    {
      hide Inv;
      var r := a.LookupPa(va);
      pa := if r < 0 then NO_PAGE else r;
    }

    method El1MapSecure(ptr: Ptr)
      requires Valid()
      requires Bit(Cur().Get(ptr).Type(), 3) != 1 ==> CanMap(Cur().tables, Cur().Get(ptr).Va())
      modifies Repr()
      ensures Valid() && St() == Protocol.El1MapSecure(old(St()), ptr)
      ensures var d := old(Cur().Get(ptr));
              Bit(d.Type(), 3) != 1 && Vpn(d.Pa()) < FRAMES ==>
                OpenPage(ram.words, Cur().tables.root, d.Va(), d.Pa())
    {
      hide Machine.Valid, Inv, Vpn, Mapped, Bit, Lo, LookedUp, OpenPage;
      Distinct();
      var t := Cur();
      var req := t.Get(ptr);
      if Bit(req.Type(), 3) == 1 {
        var b := ReadBuf(t.tables);
        b := Desc(req.w0, req.w1, req.w2, req.w3, b.w4);  // memcpy of op_map_mem_t
        if b.Pa() != 0 {
          var pa := LookupWord(t.tables, b.Va());
          b := b.(w3 := pa);
        }
        WriteBuf(t.tables, b);
        Smc(OP_MAP, ptr, OP_MAP);
      } else {
        UserAttr();
        MapPage(t.tables, req.Va(), req.Pa(), PTE_USER_RW);
        OpenAfter(t.tables, req.Va(), req.Pa());
        Leave(0);
      }
    }

    method El1Dispatch(ptr: Ptr, h: Chance)
      requires Valid()
      modifies Repr()
      ensures Valid() && St() == Protocol.El1Dispatch(old(St()), ptr, h)
    {
      hide Machine.Valid, Inv, Bit, Lo, Protocol.RunTest, Protocol.Smc;
      var d := Cur().Get(ptr);
      if d.DispEl() == 1 && d.DispState() == Number(live.world) {
        RunTest(d.Fid(), 1, Lo(d.DispArg()), h);
        Leave(0);
      } else {
        WriteBuf(Cur().tables, d);
        Smc(OP_DISPATCH, ptr, OP_DISPATCH);
      }
    }

    method El1GetReg(ptr: Ptr, h: Chance)
      requires Valid()
      modifies Repr()
      ensures Valid() && St() == Protocol.El1GetReg(old(St()), ptr, h)
      ensures var d := old(Cur().Get(ptr));
              d.RegEl() == 1 && 1 <= d.Key() <= 5 ==> Cur().Get(ptr) == d.(w1 := h.reg(1, d.Key()))
    {
      hide Machine.Valid, Inv, Bit, Lo, Protocol.Smc;
      Distinct();
      var t := Cur();
      var d := t.Get(ptr);
      if d.RegEl() == 1 {
        if RecognizedKey(d.Key()) {
          t.Set(ptr, d.(w1 := h.reg(1, d.Key())));
        }
        Leave(0);
      } else if d.RegEl() == 3 {
        WriteBuf(t.tables, d);
        Smc(OP_GET_REG, ptr, OP_GET_REG);
      } else {
        Leave(0);
      }
    }

    method El1SetReg(ptr: Ptr)
      requires Valid()
      modifies Repr()
      ensures Valid() && St() == Protocol.El1SetReg(old(St()), ptr)
      ensures var d := old(Cur().Get(ptr));
              d.RegEl() == 1 && 1 <= d.Key() <= 5 ==> writes == old(writes) + [RegWrite(1, d.Key(), d.Data())]
    {
      hide Machine.Valid, Inv, Bit, Lo, Protocol.Smc;
      var d := Cur().Get(ptr);
      if d.RegEl() == 1 {
        if RecognizedKey(d.Key()) {
          writes := writes + [RegWrite(1, d.Key(), d.Data())];
        }
        Leave(0);
      } else if d.RegEl() == 3 {
        WriteBuf(Cur().tables, d);
        Smc(OP_SET_REG, ptr, OP_SET_REG);
      } else {
        Leave(0);
      }
    }

    /** el1_handle_svc, up to its SMC or its return. */
    method El1HandleSvc(op: nat, ptr: Ptr, h: Chance)
      requires Valid()
      requires op == OP_MAP && Bit(Cur().Get(ptr).Type(), 3) != 1 ==> CanMap(Cur().tables, Cur().Get(ptr).Va())
      modifies Repr()
      ensures Valid() && St() == Protocol.El1HandleSvc(old(St()), op, ptr, h)
      // at its own level a read delivers the register named, and a write reaches it
      ensures var d := old(Cur().Get(ptr));
              op == OP_GET_REG && d.RegEl() == 1 && 1 <= d.Key() <= 5 ==>
                Cur().Get(ptr) == d.(w1 := h.reg(1, d.Key()))
      ensures var d := old(Cur().Get(ptr));
              op == OP_SET_REG && d.RegEl() == 1 && 1 <= d.Key() <= 5 ==>
                writes == old(writes) + [RegWrite(1, d.Key(), d.Data())]
    {
      hide Machine.Valid, Inv, Bit, Lo, Hi, Shr, Hop, CanMap;
      hide Protocol.El1MapSecure, Protocol.El1GetReg, Protocol.El1SetReg, Protocol.El1Dispatch, Protocol.Smc;
      if op == OP_EXIT || op == OP_YIELD {
        Smc(op, ptr, op);
      } else if op == OP_MAP {
        El1MapSecure(ptr);
      } else if op == OP_GET_REG {
        El1GetReg(ptr, h);
      } else if op == OP_SET_REG {
        El1SetReg(ptr);
      } else if op == OP_TEST {
        var t := Cur();
        WriteBuf(t.tables, t.Get(ptr));
        var b := ReadBuf(t.tables);
        WriteBuf(t.tables, Hop(b));
        Smc(op, ptr, OP_TEST);
      } else if op == OP_DISPATCH {
        El1Dispatch(ptr, h);
      } else {
        Leave(0);
      }
    }

    /** The rest of el1_handle_svc, once its SMC has returned `ret`. */
    method El1AfterSmc(op: nat, ptr: Ptr, ret: nat)
      requires Valid()
      modifies Repr()
      ensures Valid() && St() == Protocol.El1AfterSmc(old(St()), op, ptr, ret)
    {
      hide Machine.Valid, Inv, Bit, Lo, Hi, Shr, Hop;
      Distinct();
      var t := Cur();
      if op == OP_YIELD {
        var b := ReadBuf(t.tables);
        t.Set(ptr, b);
        Leave(ret);
      } else if op == OP_TEST {
        var b := ReadBuf(t.tables);
        WriteBuf(t.tables, Hop(b));
        t.Set(ptr, Hop(b));
        Leave(0);
      } else if op == OP_DISPATCH || op == OP_GET_REG {
        var b := ReadBuf(t.tables);
        t.Set(ptr, b);
        Leave(0);
      } else {
        Leave(0);
      }
    }

    // ---------- el3.c ----------

    method El3MapMem() returns (ret: nat)
      requires Valid()
      requires Bit(Buf().Type(), 3) == 1 ==> CanMap(el3Tables, Buf().Va())
      modifies el3Tables`nextPa, el3Tables`space, ram
      ensures Valid() && (St(), ret) == Protocol.El3MapMem(old(St()))
      ensures var d := old(Buf());
              Bit(d.Type(), 3) == 1 && Vpn(d.Pa()) < FRAMES ==> ClosedPage(ram.words, el3Tables.root, d.Va(), d.Pa())
    {
      hide Machine.Valid, Inv, Vpn, Mapped, Bit, Lo, Hi, Shr, ClosedPage;
      Distinct();
      var d := ReadBuf(el3Tables);
      if Bit(d.Type(), 3) == 1 {
        UserAttr();
        MapPage(el3Tables, d.Va(), d.Pa(), PTE_PRIV_RW);
      }
      if Bit(d.Type(), 2) == 1 {
        WriteBuf(el3Tables, d.(w0 := Pack(ClearEl3(d.Type()), Hi(d.w0))));
        ret := OP_MAP;
      } else {
        ret := 0;
      }
      if Bit(d.Type(), 3) == 1 {
        ClosedAfter(el3Tables, d.Va(), d.Pa());
      }
    }

    method El3Dispatch(h: Chance) returns (ret: nat)
      requires Valid()
      modifies this, ram
      ensures Valid() && (St(), ret) == Protocol.El3Dispatch(old(St()), h)
    {
      hide Machine.Valid, Inv, Bit, Lo, Hi, Shr, Protocol.RunTest;
      var d := ReadBuf(el3Tables);
      ret := 0;
      if d.DispEl() == 3 && d.DispState() == Bit(scr, 0) {
        if secureState == d.DispState() {
          RunTest(d.Fid(), 3, Lo(d.DispArg()), h);
        } else {
          halted := true;
        }
      } else {
        ret := OP_DISPATCH;
      }
    }

    /** `eret` into the live context. */
    method El3Return()
      requires Valid()
      modifies this`live, this`el3, this`halted
      ensures Valid() && St() == Protocol.El3Return(old(St()))
    {
      hide Machine.Valid, Inv, Bit;
      match live.el1
      case Waiting(op, ptr) =>
        live := live.(el1 := Back(op, ptr, 0));
        el3 := None;
      case _ =>
        halted := true;
    }

    /** monitor_switch, and EL3's own share before it. */
    method MonitorSwitch(ret: nat)
      requires Valid()
      modifies this
      ensures Valid() && St() == Protocol.MonitorSwitch(old(St()), ret)
    {
      hide Machine.Valid, Inv, Bit, Protocol.Swapped, Protocol.Flipped, Protocol.Resumed;
      Swap();
      Flip();
      Resume(ret);
    }

    method Swap()
      requires Valid()
      modifies this`live, this`secState, this`nsecState
      ensures Valid() && St() == Protocol.Swapped(old(St()))
    {
      hide Machine.Valid, Inv, Bit, Buf, WorldThread.State;
      if Bit(scr, 0) == 1 {
        nsecState, live := live, secState;
      } else {
        secState, live := live, nsecState;
      }
    }

    method Flip()
      requires Valid()
      modifies this`secureState, this`scr, this`el3, this`switches
      ensures Valid() && St() == Protocol.Flipped(old(St()))
    {
      hide Machine.Valid, Inv, Bit, Buf, WorldThread.State;
      secureState := if secureState == 1 then 0 else 1;
      scr, el3, switches := 1 - Bit(scr, 0), None, switches + 1;
    }

    method Resume(ret: nat)
      requires Valid()
      modifies this
      ensures Valid() && St() == Protocol.Resumed(old(St()), ret)
    {
      hide Machine.Valid, Inv, Bit, Buf;
      match live.el1
      case Waiting(op, ptr) => live := live.(el1 := Back(op, ptr, ret));
      case Unstarted => live := live.(el1 := Out);
      case _ => halted := true;
    }

    /** el3_handle_smc and the vector code after it. */
    method El3HandleSmc(op: nat, h: Chance)
      requires Valid() && !halted
      requires op == OP_MAP && Bit(Buf().Type(), 3) == 1 ==> CanMap(el3Tables, Buf().Va())
      modifies Repr()
      ensures Valid() && St() == Protocol.El3HandleSmc(old(St()), op, h)
    {
      hide Machine.Valid, Inv, Bit, Lo, Hi, Shr, Hop, CanMap;
      hide Protocol.El3MapMem, Protocol.El3Dispatch, Protocol.El3GetReg, Protocol.MonitorSwitch, Protocol.El3Return;
      var ret := 0;
      if op == OP_YIELD {
        ret := OP_YIELD;
      } else if op == OP_MAP {
        ret := El3MapMem();
      } else if op == OP_NOOP {
      } else if op == OP_DISPATCH {
        ret := El3Dispatch(h);
      } else if op == OP_TEST {
        var b := ReadBuf(el3Tables);
        WriteBuf(el3Tables, Hop(b));
        ret := OP_TEST;
        b := ReadBuf(el3Tables);
        WriteBuf(el3Tables, El3GetReg(b, scr, h));  // falls through
      } else if op == OP_GET_REG {
        var b := ReadBuf(el3Tables);
        WriteBuf(el3Tables, El3GetReg(b, scr, h));
      } else if op == OP_SET_REG {
        var b := ReadBuf(el3Tables);
        if b.RegEl() == 3 && RecognizedKey(b.Key()) {
          if b.Key() == SCR {
            scr := b.Data();
          }
          writes := writes + [RegWrite(3, b.Key(), b.Data())];
        }
      } else {
        halted := true;
      }
      if !halted {
        if ret != 0 {
          MonitorSwitch(ret);
        } else {
          El3Return();
        }
      }
    }

    // ---------- EL0 ----------

    method Svc(e: El0, op: nat, ptr: Ptr)
      requires Valid()
      modifies this`live
      ensures Valid() && St() == Protocol.Svc(old(St()), e, op, ptr)
    {
      hide Machine.Valid, Inv, Bit;
      live := live.(el0 := e, el1 := Handling(op, ptr));
    }

    method Finish()
      requires Valid()
      modifies this
      ensures Valid() && St() == Protocol.Finish(old(St()))
    {
      hide Machine.Valid, Inv, Bit;
      live := live.(el0 := Ready, el1 := Out);
      results := results + [nsec.arg];
      done := done + 1;
    }

    method IssueWith(op: nat, d: Desc)
      requires Valid()
      modifies this`live, nsec
      ensures Valid() && St() == Protocol.IssueWith(old(St()), op, d)
    {
      hide Machine.Valid, Inv, Bit;
      Distinct();
      nsec.arg := d;
      Svc(InCall, op, Arg);
    }

    /** The client's next request: run_test, interop_test, map_va and the register macros. */
    method Issue(r: Request, h: Chance)
      requires Valid()
      modifies Repr()
      ensures Valid() && St() == Protocol.Issue(old(St()), r, h)
    {
      hide Machine.Valid, Inv, Bit, Lo, Hi, Shr, Pack, Protocol.RunTest, Protocol.Finish, Protocol.IssueWith;
      match r
      case Dispatch(fid, el, state, arg) =>
        if el == 0 && state == NONSECURE {
          RunTest(fid, 0, arg, h);
          Finish();
        } else {
          IssueWith(OP_DISPATCH, Desc(Pack(fid, Hi(h.junk.w0)), arg, state, el, h.junk.w4));
        }
      case Interop(orig) => IssueWith(OP_TEST, Desc(orig, orig, 0, h.junk.w3, h.junk.w4));
      case Map(kind, va, pa) => IssueWith(OP_MAP, Desc(Pack(kind, Hi(h.junk.w0)), h.junk.w1, va, pa, h.junk.w4));
      case Yield => IssueWith(OP_YIELD, h.junk);
      case GetReg(key, el) =>
        IssueWith(OP_GET_REG, Desc(key, h.junk.w1, Pack(el, Hi(h.junk.w2)), h.junk.w3, h.junk.w4));
      case SetReg(key, el, data) =>
        IssueWith(OP_SET_REG, Desc(key, data, Pack(el, Hi(h.junk.w2)), h.junk.w3, h.junk.w4));
    }

    /** One round of el0_sec_loop. */
    method SecLoop(op: nat, h: Chance)
      requires Valid()
      modifies Repr()
      ensures Valid() && St() == Protocol.SecLoop(old(St()), op, h)
    {
      hide Machine.Valid, Inv, Bit, Lo, Hi, Shr, Hop, Pack, Protocol.RunTest;
      Distinct();
      var t := Cur();
      var op := op;
      if op == OP_MAP {
        Svc(LoopCall, op, Loop);
      } else if op == OP_YIELD || op == 0 {
        op := OP_YIELD;
        Svc(LoopCall, op, Loop);
      } else if op == OP_TEST {
        t.loop := Hop(t.loop);
        op := OP_YIELD;
        Svc(LoopCall, op, Loop);
      } else if op == OP_DISPATCH {
        var d := t.loop;
        if Lo(d.DispEl()) == 0 && Lo(d.DispState()) == SECURE {
          RunTest(d.Fid(), 0, Lo(d.DispArg()), h);
          op := OP_YIELD;
          Svc(LoopCall, op, Loop);
        } else {
          t.disp := Desc(Pack(d.Fid(), Hi(h.junk.w0)), Lo(d.DispArg()), Lo(d.DispState()), Lo(d.DispEl()), h.junk.w4);
          Svc(TestCall, OP_DISPATCH, Disp);
        }
      } else {
        op := OP_EXIT;
        Svc(LoopCall, op, Loop);
      }
    }

    method ReturnToEl0(ret: nat)
      requires Valid()
      modifies Repr()
      ensures Valid() && St() == Protocol.ReturnToEl0(old(St()), ret)
    {
      hide Machine.Valid, Inv, Bit;
      match live.el0
      case InCall => Finish();
      case LoopCall => live := live.(el0 := LoopTop(ret), el1 := Out);
      case TestCall => Svc(LoopCall, OP_YIELD, Loop);
      case _ => halted := true;
    }

    // ---------- running ----------

    /** The map operation that the next step performs, if any, has room and a page it may use. */
    ghost predicate NextMapFits()
      reads Repr()
    {
      && (el3 == Some(OP_MAP) && Bit(Buf().Type(), 3) == 1 ==> CanMap(el3Tables, Buf().Va()))
      && (el3.None? && live.el1.Handling? && live.el1.op == OP_MAP && Bit(Cur().Get(live.el1.ptr).Type(), 3) != 1 ==>
            CanMap(Cur().tables, Cur().Get(live.el1.ptr).Va()))
    }

    method Step(h: Chance)
      requires Valid() && NextMapFits()
      modifies Repr()
      ensures Valid() && St() == Protocol.Step(old(St()), h)
    {
      hide Machine.Valid, Inv, Bit, Lo, Hi, Shr, Hop, CanMap, Protocol.El3HandleSmc, Protocol.El1HandleSvc;
      hide Protocol.El1AfterSmc, Protocol.ReturnToEl0, Protocol.Issue, Protocol.SecLoop;
      if halted {
        return;
      }
      match el3
      case Some(op) => El3HandleSmc(op, h);
      case None =>
        match live.el1 {
          case Handling(op, ptr) => El1HandleSvc(op, ptr, h);
          case Back(op, ptr, ret) => El1AfterSmc(op, ptr, ret);
          case Leaving(ret) => ReturnToEl0(ret);
          case Out =>
            match live.el0 {
              case Ready =>
                if done < |todo| {
                  Issue(todo[done], h);
                }
              case LoopTop(op) => SecLoop(op, h);
              case _ => halted := true;
            }
          case _ => halted := true;
        }
    }
  }

  lemma ZeroAttr()
    ensures LowAttr(0)
  {
    ConstantBits();
  }

  lemma UserAttr()
    ensures LowAttr(PTE_USER_RW) && LowAttr(PTE_PRIV_RW)
  {
    ConstantBits();
  }
}
