/** The cross-world call protocol as a machine of small steps: a nonsecure EL0 client, the EL1 service
    handler of each world, the secure EL0 server loop, and the EL3 monitor, sharing one interop buffer.
    The processor has one register context live; the monitor keeps one saved for each world, and SCR.NS
    says which world the processor takes itself to be in. */
module Protocol {
  import opened Bits
  import opened Vmsa
  import opened TableTree
  import opened Messages

  datatype World = Sec | Nsec

  function Number(w: World): nat {
    if w == Sec then SECURE else NONSECURE
  }

  /** run_test took its local branch: the test with this number, if there is one, ran here. */
  datatype Event = Event(fid: nat, level: nat, world: World, arg: nat)

  /** What nonsecure EL0 asks for. */
  datatype Request =
    | Dispatch(fid: nat, el: nat, state: nat, arg: nat)
    | Interop(orig: nat)
    | Map(kind: nat, va: nat, pa: nat)
    | Yield
    | GetReg(key: nat, el: nat)
    | SetReg(key: nat, el: nat, data: nat)

  /** Where a world's EL0 is: the client between requests or in a call; the server at its switch, in the
      loop's call, or in the call that run_test makes. */
  datatype El0 = Ready | InCall | LoopTop(op: nat) | LoopCall | TestCall

  /** Which descriptor EL0 passed: the client's argument, the loop's `desc`, or run_test's `disp`. */
  datatype Ptr = Arg | Loop | Disp

  /** Where a world's EL1 is: not started, not in a call, at the start of the handler, waiting in __smc,
      back from __smc, or returning to EL0. */
  datatype El1 =
    | Unstarted
    | Out
    | Handling(op: nat, ptr: Ptr)
    | Waiting(op: nat, ptr: Ptr)
    | Back(op: nat, ptr: Ptr, ret: nat)
    | Leaving(ret: nat)

  /** What the registers hold for the world they belong to: whose stack and tables are in use, and where
      its EL0 and EL1 are. */
  datatype Context = Context(world: World, el0: El0, el1: El1)

  /** What a world keeps in memory: EL0's descriptors and EL1's tables. */
  datatype Thread = Thread(arg: Desc, loop: Desc, disp: Desc, space: Space) {
    function Get(p: Ptr): Desc {
      match p case Arg => arg case Loop => loop case Disp => disp
    }

    function Set(p: Ptr, d: Desc): Thread {
      match p case Arg => this.(arg := d) case Loop => this.(loop := d) case Disp => this.(disp := d)
    }
  }

  /** What the model leaves open: what a test body leaves in the interop buffer and in SCR's other bits,
      what a register reads as (by level and key), and what uninitialised descriptor fields hold. */
  datatype Chance = Chance(buf: Desc, scr: nat, reg: (nat, nat) -> nat, junk: Desc)

  /** A register write: at which level, to which register, with what value. */
  datatype RegWrite = RegWrite(level: nat, key: nat, data: nat)

  datatype State = State(
    sec: Thread, nsec: Thread,
    live: Context,  // the registers
    secState: Context, nsecState: Context,  // the monitor's two buffers
    el3: Option<nat>,  // the SMC that EL3 is handling
    buf: Desc, scr: nat, el3State: nat, el3Space: Space,
    todo: seq<Request>, done: nat, results: seq<Desc>,
    log: seq<Event>, writes: seq<RegWrite>, switches: nat, halted: bool)
  {
    /** The security state that the processor is in. */
    function World(): World {
      if Bit(scr, 0) == 1 then Nsec else Sec
    }

    /** The memory of the world whose registers are live. */
    function Cur(): Thread {
      if live.world == Nsec then nsec else sec
    }

    function WithCur(t: Thread): State {
      if live.world == Nsec then this.(nsec := t) else this.(sec := t)
    }

    function At(e: El1): State {
      this.(live := live.(el1 := e))
    }
  }

  function RecognizedKey(key: nat): bool {
    key == CURRENTEL || key == CPTR_EL3 || key == CPACR || key == SCR || key == SCTLR
  }

  /** A test body runs at `level`. Its own register calls may leave anything in the interop buffer, and
      anything in SCR that keeps NS and leaves SMC enabled. */
  function RunTest(st: State, fid: nat, level: nat, arg: nat, h: Chance): State {
    st.(log := st.log + [Event(fid, level, st.World(), arg)],
        buf := h.buf,
        scr := if Bit(h.scr, 0) == Bit(st.scr, 0) && Bit(h.scr, 7) == 0 then h.scr else st.scr)
  }

  // ---------- EL1: el1_handle_svc ----------

  /** `__smc(op, smc_interop_buf)`: trap to EL3, unless SCR.SMD makes the instruction undefined. */
  function Smc(st: State, op: nat, ptr: Ptr, smc: nat): State {
    if Bit(st.scr, 7) == 1 then st.(halted := true)
    else st.At(Waiting(op, ptr)).(el3 := Some(smc))
  }

  function Leave(st: State, ret: nat): State {
    st.At(Leaving(ret))
  }

  const NO_PAGE := 0xFFFF_FFFF_FFFF_FFFF  // (void *)-1

  ghost function LookedUp(s: Space, va: nat): nat {
    if Vpn(va) in s.flat then Address(s.flat[Vpn(va)]) else NO_PAGE
  }

  ghost function El1MapSecure(st: State, ptr: Ptr): State {
    var d := st.Cur().Get(ptr);
    if Bit(d.Type(), 3) == 1 then
      var b := Desc(d.w0, d.w1, d.w2, if d.Pa() != 0 then LookedUp(st.Cur().space, d.Va()) else d.Pa(), st.buf.w4);
      Smc(st.(buf := b), OP_MAP, ptr, OP_MAP)
    else
      Leave(st.WithCur(st.Cur().(space := Mapped(st.Cur().space, d.Va(), d.Pa(), PTE_USER_RW))), 0)
  }

  function El1Dispatch(st: State, ptr: Ptr, h: Chance): State {
    var d := st.Cur().Get(ptr);
    if d.DispEl() == 1 && d.DispState() == Number(st.live.world) then
      Leave(RunTest(st, d.Fid(), 1, Lo(d.DispArg()), h), 0)
    else
      Smc(st.(buf := d), OP_DISPATCH, ptr, OP_DISPATCH)
  }

  function El1GetReg(st: State, ptr: Ptr, h: Chance): State {
    var d := st.Cur().Get(ptr);
    if d.RegEl() == 1 then
      Leave(st.WithCur(st.Cur().Set(ptr, if RecognizedKey(d.Key()) then d.(w1 := h.reg(1, d.Key())) else d)), 0)
    else if d.RegEl() == 3 then Smc(st.(buf := d), OP_GET_REG, ptr, OP_GET_REG)
    else Leave(st, 0)
  }

  function El1SetReg(st: State, ptr: Ptr): State {
    var d := st.Cur().Get(ptr);
    if d.RegEl() == 1 then
      Leave(if RecognizedKey(d.Key()) then st.(writes := st.writes + [RegWrite(1, d.Key(), d.Data())]) else st, 0)
    else if d.RegEl() == 3 then Smc(st.(buf := d), OP_SET_REG, ptr, OP_SET_REG)
    else Leave(st, 0)
  }

  /** From the entry of the handler to its SMC, or to its return. */
  ghost function El1HandleSvc(st: State, op: nat, ptr: Ptr, h: Chance): State {
    if op == OP_EXIT then Smc(st, op, ptr, OP_EXIT)
    else if op == OP_YIELD then Smc(st, op, ptr, OP_YIELD)
    else if op == OP_MAP then El1MapSecure(st, ptr)
    else if op == OP_GET_REG then El1GetReg(st, ptr, h)
    else if op == OP_SET_REG then El1SetReg(st, ptr)
    else if op == OP_TEST then Smc(st.(buf := Hop(st.Cur().Get(ptr))), op, ptr, OP_TEST)
    else if op == OP_DISPATCH then El1Dispatch(st, ptr, h)
    else Leave(st, 0)
  }

  /** From the return of the SMC to the handler's own return. */
  function El1AfterSmc(st: State, op: nat, ptr: Ptr, ret: nat): State {
    if op == OP_YIELD then Leave(st.WithCur(st.Cur().Set(ptr, st.buf)), ret)
    else if op == OP_TEST then
      var b := Hop(st.buf);
      Leave(st.(buf := b).WithCur(st.Cur().Set(ptr, b)), 0)
    else if op == OP_DISPATCH || op == OP_GET_REG then Leave(st.WithCur(st.Cur().Set(ptr, st.buf)), 0)
    else Leave(st, 0)
  }

  // ---------- EL3: el3_handle_smc and monitor_switch ----------

  /** The register read that SMC_OP_GET_REG performs, and that SMC_OP_TEST falls into. */
  function El3GetReg(b: Desc, scr: nat, h: Chance): Desc {
    if b.RegEl() == 3 && RecognizedKey(b.Key()) then b.(w1 := if b.Key() == SCR then scr else h.reg(3, b.Key())) else b
  }

  /** `eret` into the live context: its `__smc` returns 0. */
  function El3Return(st: State): State {
    match st.live.el1
    case Waiting(op, ptr) => st.At(Back(op, ptr, 0)).(el3 := None)
    case _ => st.(halted := true)
  }

  /** The monitor saves the live context to the buffer that SCR.NS names and loads the other buffer. */
  function Swapped(st: State): State {
    if st.World() == Nsec then st.(nsecState := st.live, live := st.secState)
    else st.(secState := st.live, live := st.nsecState)
  }

  /** The monitor flips SCR.NS, and EL3 its own state variable. */
  function Flipped(st: State): State {
    st.(el3State := if st.el3State == 1 then 0 else 1, scr := 1 - Bit(st.scr, 0),
        el3 := None, switches := st.switches + 1)
  }

  /** The `__smc` pending in the context loaded returns `ret`; a world entered for the first time starts
      its EL1. */
  function Resumed(st: State, ret: nat): State {
    match st.live.el1
    case Waiting(op, ptr) => st.At(Back(op, ptr, ret))
    case Unstarted => st.At(Out)
    case _ => st.(halted := true)
  }

  function MonitorSwitch(st: State, ret: nat): State {
    Resumed(Flipped(Swapped(st)), ret)
  }

  ghost function El3MapMem(st: State): (State, nat) {
    var d := st.buf;
    var t := if Bit(d.Type(), 3) == 1 then st.(el3Space := Mapped(st.el3Space, d.Va(), d.Pa(), PTE_PRIV_RW)) else st;
    if Bit(d.Type(), 2) == 1 then (t.(buf := d.(w0 := Pack(ClearEl3(d.Type()), Hi(d.w0)))), OP_MAP) else (t, 0)
  }

  function El3Dispatch(st: State, h: Chance): (State, nat) {
    var d := st.buf;
    if d.DispEl() == 3 && d.DispState() == Bit(st.scr, 0) then
      if st.el3State == d.DispState() then (RunTest(st, d.Fid(), 3, Lo(d.DispArg()), h), 0)
      else (st.(halted := true), 0)  // run_test would issue an SVC from EL3
    else (st, OP_DISPATCH)
  }

  function El3SetReg(st: State): State {
    var d := st.buf;
    if d.RegEl() == 3 && RecognizedKey(d.Key()) then
      st.(scr := if d.Key() == SCR then d.Data() else st.scr, writes := st.writes + [RegWrite(3, d.Key(), d.Data())])
    else st
  }

  ghost function El3HandleSmc(st: State, op: nat, h: Chance): State {
    var (t, ret) :=
      if op == OP_YIELD then (st, OP_YIELD)
      else if op == OP_MAP then El3MapMem(st)
      else if op == OP_NOOP then (st, 0)
      else if op == OP_DISPATCH then El3Dispatch(st, h)
      else if op == OP_TEST then (st.(buf := El3GetReg(Hop(st.buf), st.scr, h)), OP_TEST)
      else if op == OP_GET_REG then (st.(buf := El3GetReg(st.buf, st.scr, h)), 0)
      else if op == OP_SET_REG then (El3SetReg(st), 0)
      else (st.(halted := true), 0);  // SMC_OP_EXIT, or not an operation: shutdown
    if t.halted then t
    else if ret != 0 then MonitorSwitch(t, ret)
    else El3Return(t)
  }

  // ---------- EL0 ----------

  function Svc(st: State, el0: El0, op: nat, ptr: Ptr): State {
    st.(live := st.live.(el0 := el0, el1 := Handling(op, ptr)))
  }

  /** The client makes its next request: run_test, interop_test or map_va fill a descriptor. */
  function Issue(st: State, r: Request, h: Chance): State {
    match r
    case Dispatch(fid, el, state, arg) =>
      if el == 0 && state == NONSECURE then
        Finish(RunTest(st, fid, 0, arg, h))
      else
        IssueWith(st, OP_DISPATCH, Desc(Pack(fid, Hi(h.junk.w0)), arg, state, el, h.junk.w4))
    case Interop(orig) => IssueWith(st, OP_TEST, Desc(orig, orig, 0, h.junk.w3, h.junk.w4))
    case Map(kind, va, pa) => IssueWith(st, OP_MAP, Desc(Pack(kind, Hi(h.junk.w0)), h.junk.w1, va, pa, h.junk.w4))
    case Yield => IssueWith(st, OP_YIELD, h.junk)
    case GetReg(key, el) =>
      IssueWith(st, OP_GET_REG, Desc(key, h.junk.w1, Pack(el, Hi(h.junk.w2)), h.junk.w3, h.junk.w4))
    case SetReg(key, el, data) =>
      IssueWith(st, OP_SET_REG, Desc(key, data, Pack(el, Hi(h.junk.w2)), h.junk.w3, h.junk.w4))
  }

  function IssueWith(st: State, op: nat, d: Desc): State {
    Svc(st.(nsec := st.nsec.(arg := d)), InCall, op, Arg)
  }

  /** The request's call is over. */
  function Finish(st: State): State {
    st.(live := st.live.(el0 := Ready, el1 := Out), results := st.results + [st.nsec.arg], done := st.done + 1)
  }

  /** One round of el0_sec_loop, up to its call. */
  function SecLoop(st: State, op: nat, h: Chance): State {
    var d := st.Cur().loop;
    if op == OP_MAP then Svc(st, LoopCall, OP_MAP, Loop)
    else if op == OP_YIELD || op == 0 then Svc(st, LoopCall, OP_YIELD, Loop)
    else if op == OP_TEST then Svc(st.WithCur(st.Cur().(loop := Hop(d))), LoopCall, OP_YIELD, Loop)
    else if op == OP_DISPATCH then
      if Lo(d.DispEl()) == 0 && Lo(d.DispState()) == SECURE then
        Svc(RunTest(st, d.Fid(), 0, Lo(d.DispArg()), h), LoopCall, OP_YIELD, Loop)
      else
        var e := Desc(Pack(d.Fid(), Hi(h.junk.w0)), Lo(d.DispArg()), Lo(d.DispState()), Lo(d.DispEl()), h.junk.w4);
        Svc(st.WithCur(st.Cur().(disp := e)), TestCall, OP_DISPATCH, Disp)
    else Svc(st, LoopCall, OP_EXIT, Loop)  // exit, or not an operation
  }

  /** The handler returns `ret` to EL0. */
  function ReturnToEl0(st: State, ret: nat): State {
    match st.live.el0
    case InCall => Finish(st)
    case LoopCall => st.(live := st.live.(el0 := LoopTop(ret), el1 := Out))
    case TestCall => Svc(st, LoopCall, OP_YIELD, Loop)  // run_test is done: op = SVC_OP_YIELD
    case _ => st.(halted := true)
  }

  // ---------- one step ----------

  ghost function Step(st: State, h: Chance): State {
    if st.halted then st
    else if st.el3.Some? then El3HandleSmc(st, st.el3.value, h)
    else
      match st.live.el1
      case Handling(op, ptr) => El1HandleSvc(st, op, ptr, h)
      case Back(op, ptr, ret) => El1AfterSmc(st, op, ptr, ret)
      case Leaving(ret) => ReturnToEl0(st, ret)
      case Out =>
        (match st.live.el0
         case Ready => if st.done < |st.todo| then Issue(st, st.todo[st.done], h) else st
         case LoopTop(op) => SecLoop(st, op, h)
         case _ => st.(halted := true))
      case _ => st.(halted := true)
  }
}
