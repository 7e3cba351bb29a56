/** Every run of the protocol carries out the client's requests one after another, as if each were a
    single atomic action; and no run reaches an exit, a default arm or a stuck state. */
module ProtocolProof {
  import opened Bits
  import opened Vmsa
  import opened TableTree
  import opened Messages
  import opened Protocol

  // ---------- requests as atomic actions ----------

  /** What a request can change: the three address spaces, the tests run, the registers written, the world
      switches made, and whether the secure server is stuck inside run_test's call instead of parked in its yield. */
  datatype Global = Global(sec: Space, nsec: Space, el3: Space, log: seq<Event>, writes: seq<RegWrite>,
                           switches: nat, stuck: bool)

  const PARKED := Context(Sec, LoopCall, Waiting(OP_YIELD, Loop))
  const STUCK := Context(Sec, TestCall, Waiting(OP_DISPATCH, Disp))

  function ServerAt(stuck: bool): Context {
    if stuck then STUCK else PARKED
  }

  /** Between requests, when the secure world is switched out. */
  function View(st: State): Global {
    Global(st.sec.space, st.nsec.space, st.el3Space, st.log, st.writes, st.switches, st.secState == STUCK)
  }

  /** At any time. */
  predicate Shows(st: State, g: Global) {
    View(st).(stuck := g.stuck) == g
  }

  function OpOf(r: Request): nat {
    match r
    case Dispatch(_, _, _, _) => OP_DISPATCH
    case Interop(_) => OP_TEST
    case Map(_, _, _) => OP_MAP
    case Yield => OP_YIELD
    case GetReg(_, _) => OP_GET_REG
    case SetReg(_, _, _) => OP_SET_REG
  }

  function WorldOf(state: nat): World {
    if state == SECURE then Sec else Nsec
  }

  /** The physical address that a map request sends out: its own page's frame, unless it asked for 0. */
  ghost function Resolved(g: Global, va: nat, pa: nat): nat {
    if pa != 0 then LookedUp(g.nsec, va) else pa
  }

  /** A level and a state that some image answers to. */
  predicate Target(el: nat, state: nat) {
    (el == 0 || el == 1 || el == 3) && (state == SECURE || state == NONSECURE)
  }

  predicate Exists(r: Request) {
    r.Dispatch? ==> Target(r.el, r.state)
  }

  /** Requests that go to the secure world. */
  predicate Crosses(r: Request) {
    match r
    case Dispatch(_, el, state, _) => !(Target(el, state) && state == NONSECURE)
    case Interop(_) => true
    case Map(kind, _, _) => Bit(kind, 3) == 1 && Bit(kind, 2) == 1
    case Yield => true
    case GetReg(_, _) => false
    case SetReg(_, _, _) => false
  }

  /** After EL3's share and the switch to the secure world. */
  ghost function Delivered(g: Global, r: Request): Global {
    match r
    case Map(_, va, pa) => g.(el3 := Mapped(g.el3, va, Resolved(g, va, pa), PTE_PRIV_RW), switches := g.switches + 1)
    case _ => g.(switches := g.switches + 1)
  }

  /** After the secure world's share. */
  ghost function Executed(g: Global, r: Request): Global {
    var d := Delivered(g, r);
    match r
    case Map(_, va, pa) => d.(sec := Mapped(d.sec, va, Resolved(g, va, pa), PTE_USER_RW))
    case Dispatch(fid, el, state, arg) => d.(log := d.log + [Event(fid, el, Sec, arg)])
    case _ => d
  }

  /** A stuck server swallows what it is sent, and a dispatch that no image answers to runs nowhere. */
  ghost function Served(g: Global, r: Request): Global {
    if g.stuck || !Exists(r) then Delivered(g, r) else Executed(g, r)
  }

  /** The whole request. A dispatch without a target leaves a parked server stuck; any crossing request
      frees a stuck one. */
  ghost function After(g: Global, r: Request): Global {
    if Crosses(r) then
      var e := Served(g, r);
      e.(switches := e.switches + 1, stuck := !g.stuck && !Exists(r))
    else
      match r
      case Dispatch(fid, el, state, arg) => g.(log := g.log + [Event(fid, el, Nsec, arg)])
      case Map(kind, va, pa) =>
        if Bit(kind, 3) == 1 then g.(el3 := Mapped(g.el3, va, Resolved(g, va, pa), PTE_PRIV_RW))
        else g.(nsec := Mapped(g.nsec, va, pa, PTE_USER_RW))
      case SetReg(key, el, data) => g.(writes := g.writes + Writes(key, el, data))
      case _ => g
  }

  /** The register write that a request names, if there is such a register. */
  function Writes(key: nat, el: nat, data: nat): seq<RegWrite> {
    if (el == 1 || el == 3) && RecognizedKey(key) then [RegWrite(el, key, data)] else []
  }

  ghost function AfterAll(g: Global, rs: seq<Request>): Global {
    if rs == [] then g else After(AfterAll(g, rs[..|rs| - 1]), rs[|rs| - 1])
  }

  /** The bits that SCR stores on every processor; bits 4 and 5 are fixed, bits 6 and 8 depend on it. */
  predicate ScrStores(data: nat) {
    data < 0x4000 && Bit(data, 4) == 0 && Bit(data, 5) == 0 && Bit(data, 6) == 0 && Bit(data, 8) == 0
  }

  /** What the client may ask: any 32-bit values, and a write to SCR that keeps NS set and leaves SMC
      enabled. */
  predicate Legal(r: Request) {
    match r
    case Dispatch(fid, el, state, arg) => fid < U32 && arg < U32 && el < U32 && state < U32
    case Map(kind, _, _) => kind < U32
    case GetReg(_, el) => el < U32
    case SetReg(key, el, data) => el < U32 && (key == SCR ==> ScrStores(data) && Bit(data, 0) == 1 && Bit(data, 7) == 0)
    case _ => true
  }

  /** What the client is told: an interop test comes back with three hops and no failure, and the descriptor
      of a map or register request with its fields as they were sent, but for the value a read delivers. */
  predicate Answered(r: Request, d: Desc) {
    match r
    case Interop(orig) => Tested(d, orig, 3)
    case Map(_, _, _) => Carries(r, d)
    case GetReg(_, _) => Carries(r, d)
    case SetReg(_, _, _) => Carries(r, d)
    case _ => true
  }

  /** Requests whose descriptor comes back as the interop buffer. */
  predicate ReturnsBuffer(r: Request) {
    match r
    case Interop(_) => true
    case Yield => true
    case Dispatch(_, el, state, _) => el == 3 || Crosses(r)
    case GetReg(_, el) => el == 3
    case _ => false
  }

  // ---------- the invariant ----------

  /** A descriptor carries the request's fields. */
  predicate Carries(r: Request, d: Desc) {
    match r
    case Dispatch(fid, el, state, arg) => d.Fid() == fid && d.w1 == arg && d.w2 == state && d.w3 == el
    case Interop(orig) => Tested(d, orig, 0)
    case Map(kind, va, pa) => d.Type() == kind && d.w2 == va && d.w3 == pa
    case Yield => true
    case GetReg(key, el) => d.w0 == key && d.RegEl() == el
    case SetReg(key, el, data) => d.w0 == key && d.w1 == data && d.RegEl() == el
  }

  /** The interop buffer as nonsecure EL1 hands it to EL3. */
  ghost predicate Sent(g: Global, r: Request, b: Desc) {
    match r
    case Interop(orig) => Tested(b, orig, 1)
    case Map(kind, va, pa) => Bit(kind, 3) == 1 && b.Type() == kind && b.w2 == va && b.w3 == Resolved(g, va, pa)
    case Dispatch(_, el, state, _) => Carries(r, b) && (Crosses(r) || el == 3)
    case _ => Carries(r, b)
  }

  /** A descriptor as the secure world receives it. */
  ghost predicate Received(g: Global, r: Request, b: Desc) {
    match r
    case Interop(orig) => Tested(b, orig, 2)
    case Map(kind, va, pa) => Bit(b.Type(), 3) == 0 && b.w2 == va && b.w3 == Resolved(g, va, pa)
    case _ => Carries(r, b)
  }

  /** The nonsecure world runs, or EL3 on its behalf. */
  ghost predicate NsecRuns(st: State, g: Global) {
    var n := st.live;
    && n.world == Nsec
    && (st.el3.Some? || !n.el1.Out? ==> st.done < |st.todo| && n.el0 == InCall)
    && match st.el3
       case Some(op) =>
         var r := st.todo[st.done];
         n.el1 == Waiting(op, Arg) && op == OpOf(r) && Sent(g, r, st.buf) && NsecShows(st, g) &&
         (r.Map? || r.SetReg? ==> Carries(r, st.nsec.arg)) && (r.GetReg? || r.SetReg? ==> r.el == 3)
       case None =>
         match n.el1
         case Out => n.el0 == Ready && NsecShows(st, g)
         case Handling(op, ptr) =>
           var r := st.todo[st.done];
           ptr == Arg && op == OpOf(r) && Carries(r, st.nsec.arg) && NsecShows(st, g) &&
           !(r.Dispatch? && r.el == 0 && r.state == NONSECURE)
         case Back(op, ptr, _) =>
           var r := st.todo[st.done];
           ptr == Arg && op == OpOf(r) && NsecShows(st, After(g, r)) && ComesBack(st, r)
         case Leaving(_) =>
           var r := st.todo[st.done];
           NsecShows(st, After(g, r)) && Answered(r, st.nsec.arg) && (ReturnsBuffer(r) ==> st.nsec.arg == st.buf)
         case _ => false
  }

  /** What nonsecure EL1 finds when its SMC returns: the test after two hops, a read's fields in the buffer, a
      map's or write's fields still in the descriptor. */
  predicate ComesBack(st: State, r: Request) {
    match r
    case Interop(orig) => Tested(st.buf, orig, 2)
    case GetReg(_, _) => Carries(r, st.buf) && r.el == 3
    case Map(_, _, _) => Carries(r, st.nsec.arg)
    case SetReg(_, _, _) => Carries(r, st.nsec.arg)
    case Dispatch(_, el, _, _) => el == 3 || Crosses(r)
    case Yield => true
  }

  /** The effects are `g`'s and the secure world's saved context is where `g` says. */
  predicate NsecShows(st: State, g: Global) {
    Shows(st, g) && st.secState == ServerAt(g.stuck)
  }

  /** The secure world has yet to do its share. */
  ghost predicate Pending(st: State, g: Global, r: Request) {
    Shows(st, Delivered(g, r)) && !g.stuck
  }

  /** The secure world has done its share, or swallowed it, and is on its way to its yield. */
  ghost predicate Settled(st: State, g: Global, r: Request) {
    Shows(st, Served(g, r)) && (g.stuck || Exists(r))
  }

  /** The secure world runs for request `r`, or EL3 on its behalf. */
  ghost predicate SecRuns(st: State, g: Global, r: Request) {
    var s := st.live;
    match st.el3
    case Some(op) =>
      if op == OP_YIELD then s == PARKED && Settled(st, g, r)
      else op == OP_DISPATCH && r.Dispatch? && s == STUCK && Received(g, r, st.buf) && Pending(st, g, r) &&
           ((r.el == 3 && r.state == SECURE) || !Exists(r))
    case None =>
      match s.el1
      case Back(op, ptr, ret) =>
        if s.el0 == LoopCall then
          op == OP_YIELD && ptr == Loop && ret == OpOf(r) && Received(g, r, st.buf) && Pending(st, g, r)
        else
          s.el0 == TestCall && op == OP_DISPATCH && ptr == Disp && Settled(st, g, r)
      case Leaving(ret) =>
        if s.el0 == LoopCall && ret != 0 then ret == OpOf(r) && Received(g, r, st.sec.loop) && Pending(st, g, r)
        else (s.el0 == LoopCall || s.el0 == TestCall) && Settled(st, g, r)
      case Out =>
        s.el0.LoopTop? &&
        if s.el0.op != 0 then s.el0.op == OpOf(r) && Received(g, r, st.sec.loop) && Pending(st, g, r)
        else Settled(st, g, r)
      case Handling(op, ptr) =>
        if op == OP_YIELD then ptr == Loop && s.el0 == LoopCall && Settled(st, g, r)
        else if op == OP_MAP then
          ptr == Loop && s.el0 == LoopCall && r.Map? && Received(g, r, st.sec.loop) && Pending(st, g, r)
        else
          op == OP_DISPATCH && ptr == Disp && s.el0 == TestCall && r.Dispatch? && !(r.el == 0 && r.state == SECURE) &&
          Received(g, r, st.sec.disp) && Pending(st, g, r)
      case _ => false
  }

  /** Before the nonsecure world has started: the server is on its way to its first yield. */
  ghost predicate Starting(st: State, g: Global) {
    && st.live.world == Sec && st.nsecState == Context(Nsec, Ready, Unstarted) && st.done == 0
    && Shows(st, g.(switches := 0)) && g.switches == 1 && !g.stuck
    && match st.el3
       case Some(op) => op == OP_YIELD && st.live == PARKED
       case None =>
         || (st.live.el1 == Out && st.live.el0 == LoopTop(OP_YIELD))
         || (st.live.el1 == Handling(OP_YIELD, Loop) && st.live.el0 == LoopCall)
  }

  /** `g` is the effect of the requests completed so far. */
  ghost predicate Good(st: State, g: Global) {
    && !st.halted
    && st.done <= |st.todo| && |st.results| == st.done
    && (forall k | 0 <= k < |st.todo| :: Legal(st.todo[k]))
    && (forall k | 0 <= k < st.done :: Answered(st.todo[k], st.results[k]))
    && st.el3State == Bit(st.scr, 0) && Bit(st.scr, 7) == 0
    && if st.World() == Nsec then NsecRuns(st, g)
       else
         || Starting(st, g)
         || (&& st.live.world == Sec
             && st.done < |st.todo| && Crosses(st.todo[st.done])
             && st.nsecState == Context(Nsec, InCall, Waiting(OpOf(st.todo[st.done]), Arg))
             && ComesBack(st, st.todo[st.done])
             && SecRuns(st, g, st.todo[st.done]))
  }

  /** The client is between requests. */
  predicate AtRest(st: State) {
    st.World() == Nsec && st.el3.None? && st.live.el1.Out?
  }

  /** The client has nothing more to ask. */
  predicate Finished(st: State) {
    AtRest(st) && st.done == |st.todo|
  }

  predicate NotStarted(st: State) {
    st.nsecState.el1.Unstarted? && st.live.world == Sec
  }

  /** Distance to the end of the current request. */
  function Distance(st: State): nat {
    if st.World() == Nsec then
      if st.el3.Some? then 30
      else match st.live.el1
           case Handling(_, _) => 31
           case Back(_, _, _) => 10
           case Leaving(_) => 9
           case _ => 32
    else if st.el3.Some? then if st.el3 == Some(OP_YIELD) then 19 else 25
    else match st.live.el1
         case Back(_, ptr, _) => if ptr == Loop then 29 else 24
         case Leaving(ret) => if st.live.el0 == TestCall then 23 else if ret != 0 then 28 else 22
         case Out => if st.live.el0.LoopTop? && st.live.el0.op != 0 then 27 else 21
         case Handling(op, _) => if op == OP_YIELD then 20 else 26
         case _ => 0
  }

  function Rank(st: State): nat
    requires st.done <= |st.todo|
  {
    32 * (|st.todo| - st.done) + if NotStarted(st) then 32 + Distance(st) else Distance(st)
  }

  /** What one step establishes: the invariant, for the requests completed after it, and progress. */
  ghost predicate Kept(st: State, t: State, g: Global) {
    && t.todo == st.todo && st.done <= |st.todo|
    && (if t.done == st.done then Good(t, g)
        else t.done == st.done + 1 <= |st.todo| && Good(t, After(g, st.todo[st.done])))
    && (Finished(st) || Rank(t) < Rank(st))
  }

  lemma BitScr(x: nat)
    ensures Bit(0, 0) == 0 && Bit(1, 0) == 1 && Bit(0, 7) == 0 && Bit(1, 7) == 0
    ensures Bit(1 - Bit(x, 0), 0) == 1 - Bit(x, 0) && Bit(1 - Bit(x, 0), 7) == 0
  {
  }

  // ---------- one lemma for each place ----------

  lemma ClientKeeps(st: State, g: Global, h: Chance)
    requires Good(st, g) && st.World() == Nsec && st.el3.None? && st.live.el1.Out?
    ensures Kept(st, Step(st, h), g)
  {
    hide Shr, Low, Or, Shl, Mapped, LookedUp, Lo, Hi, Pack, Bit;
    if st.done < |st.todo| {
      var r := st.todo[st.done];
      assert Legal(r);
      match r
      case Dispatch(fid, _, _, _) => PackReads(fid, Hi(h.junk.w0));
      case Interop(orig) => InteropStarts(orig, h.junk);
      case Map(kind, _, _) => PackReads(kind, Hi(h.junk.w0));
      case GetReg(_, el) => PackReads(el, Hi(h.junk.w2));
      case SetReg(_, el, _) => PackReads(el, Hi(h.junk.w2));
      case Yield =>
    }
  }

  lemma InteropStarts(orig: nat, junk: Desc)
    ensures Tested(Desc(orig, orig, 0, junk.w3, junk.w4), orig, 0)
  {
    PackReads(0, 0);
    ShlZero(32);
    assert Shr(orig, 0) == orig;
  }

  /** A dispatched test's fields survive the conversions to 32 bits. */
  lemma DispatchFields(r: Request, junk: nat)
    requires Legal(r) && r.Dispatch?
    ensures Lo(r.fid) == r.fid && Lo(r.arg) == r.arg && Lo(r.el) == r.el && Lo(r.state) == r.state
    ensures Lo(Pack(r.fid, junk)) == r.fid
  {
    hide Lo, Pack;
    LoSmall(r.fid);
    LoSmall(r.arg);
    LoSmall(r.el);
    LoSmall(r.state);
    PackReads(r.fid, junk);
  }

  ghost predicate NsecHandles(st: State, g: Global) {
    Good(st, g) && st.World() == Nsec && st.el3.None? && st.live.el1.Handling?
  }

  lemma NsecDispatchKeeps(st: State, g: Global, h: Chance)
    requires NsecHandles(st, g) && st.todo[st.done].Dispatch?
    ensures Kept(st, Step(st, h), g)
  {
    hide Shr, Low, Or, Shl, Mapped, LookedUp, Lo, Hi, Pack, Hop, Bit, El1MapSecure, El1GetReg, El1SetReg;
    assert Legal(st.todo[st.done]);
    DispatchFields(st.todo[st.done], 0);
  }

  lemma NsecMapKeeps(st: State, g: Global, h: Chance)
    requires NsecHandles(st, g) && st.todo[st.done].Map?
    ensures Kept(st, Step(st, h), g)
  {
    hide Shr, Low, Or, Shl, Mapped, LookedUp, Lo, Hi, Pack, Hop, Bit, El1Dispatch, El1GetReg, El1SetReg;
  }

  /** Nonsecure EL1 takes the call. */
  lemma NsecHandlerKeeps(st: State, g: Global, h: Chance)
    requires NsecHandles(st, g)
    ensures Kept(st, Step(st, h), g)
  {
    hide Shr, Low, Or, Shl, Mapped, LookedUp, Lo, Hi, Pack, Hop, Bit, El1MapSecure, El1Dispatch;
    var r := st.todo[st.done];
    match r
    case Dispatch(_, _, _, _) => NsecDispatchKeeps(st, g, h);
    case Map(_, _, _) => NsecMapKeeps(st, g, h);
    case Interop(orig) => HopAdvances(st.nsec.arg, orig, 0);
    case _ =>
  }

  /** Nonsecure EL1 is back from its SMC, or returns to the client. */
  lemma NsecReturnKeeps(st: State, g: Global, h: Chance)
    requires Good(st, g) && st.World() == Nsec && st.el3.None? && (st.live.el1.Back? || st.live.el1.Leaving?)
    ensures Kept(st, Step(st, h), g)
  {
    hide Shr, Low, Or, Shl, Mapped, LookedUp, Lo, Hi, Pack, Hop, Bit;
    var r := st.todo[st.done];
    if st.live.el1.Back? && r.Interop? {
      HopAdvances(st.buf, r.orig, 2);
    }
  }

  ghost predicate NsecTraps(st: State, g: Global) {
    Good(st, g) && st.World() == Nsec && st.el3.Some?
  }

  lemma MonitorDispatchKeeps(st: State, g: Global, h: Chance)
    requires NsecTraps(st, g) && st.todo[st.done].Dispatch?
    ensures Kept(st, Step(st, h), g)
  {
    hide Shr, Low, Or, Shl, Mapped, LookedUp, Lo, Hi, Pack, Hop, Bit, El3MapMem, El3GetReg, El3SetReg;
    assert Legal(st.todo[st.done]);
    BitScr(st.scr);
    DispatchFields(st.todo[st.done], 0);
  }

  lemma MonitorMapKeeps(st: State, g: Global, h: Chance)
    requires NsecTraps(st, g) && st.todo[st.done].Map?
    ensures Kept(st, Step(st, h), g)
  {
    hide Shr, Low, Or, Shl, Mapped, LookedUp, Lo, Hi, Pack, Hop, ClearEl3, Bit, El3Dispatch, El3GetReg, El3SetReg;
    var r := st.todo[st.done];
    assert Legal(r);
    BitScr(st.scr);
    ClearEl3Works(r.kind);
    PackReads(ClearEl3(r.kind), Hi(st.buf.w0));
  }

  lemma MonitorRegisterKeeps(st: State, g: Global, h: Chance)
    requires NsecTraps(st, g) && (st.todo[st.done].GetReg? || st.todo[st.done].SetReg?)
    ensures Kept(st, Step(st, h), g)
  {
    hide Shr, Low, Or, Shl, Mapped, LookedUp, Lo, Hi, Pack, Hop, Bit, El3MapMem, El3Dispatch;
    assert Legal(st.todo[st.done]);
    BitScr(st.scr);
  }

  /** EL3 handles an SMC from the nonsecure world. */
  lemma MonitorForNsecKeeps(st: State, g: Global, h: Chance)
    requires NsecTraps(st, g)
    ensures Kept(st, Step(st, h), g)
  {
    hide Shr, Low, Or, Shl, Mapped, LookedUp, Lo, Hi, Pack, Hop, Bit, El3MapMem, El3Dispatch;
    var r := st.todo[st.done];
    assert Legal(r);
    BitScr(st.scr);
    match r
    case Dispatch(_, _, _, _) => MonitorDispatchKeeps(st, g, h);
    case Map(_, _, _) => MonitorMapKeeps(st, g, h);
    case Interop(orig) => HopAdvances(st.buf, orig, 1);
    case Yield =>
    case GetReg(_, _) => MonitorRegisterKeeps(st, g, h);
    case SetReg(_, _, _) => MonitorRegisterKeeps(st, g, h);
  }

  ghost predicate SecureTurn(st: State, g: Global) {
    Good(st, g) && st.World() == Sec && st.el3.None? && !NotStarted(st)
  }

  /** Secure EL1 is back from its SMC, or returns to the server. */
  lemma SecureReturnKeeps(st: State, g: Global, h: Chance)
    requires SecureTurn(st, g) && (st.live.el1.Back? || st.live.el1.Leaving?)
    ensures Kept(st, Step(st, h), g)
  {
    hide Shr, Low, Or, Shl, Mapped, LookedUp, Lo, Hi, Pack, Hop, Delivered, Served, Bit, Answered, Received, Carries,
         NsecRuns;
    var r := st.todo[st.done];
    assert Legal(r);
    if st.live.el1.Back? {
      assert st.live.el0 == LoopCall || st.live.el0 == TestCall;
    }
  }

  /** The server takes up what it was sent. */
  lemma SecureLoopKeeps(st: State, g: Global, h: Chance)
    requires SecureTurn(st, g) && st.live.el1.Out?
    ensures Kept(st, Step(st, h), g)
  {
    hide Shr, Low, Or, Shl, Mapped, LookedUp, Lo, Hi, Pack, Hop, Bit;
    var r := st.todo[st.done];
    assert Legal(r);
    if r.Dispatch? {
      DispatchFields(r, Hi(h.junk.w0));
    }
  }

  /** Secure EL1 takes the server's call. */
  lemma SecureHandlerKeeps(st: State, g: Global, h: Chance)
    requires SecureTurn(st, g) && st.live.el1.Handling?
    ensures Kept(st, Step(st, h), g)
  {
    hide Shr, Low, Or, Shl, Mapped, LookedUp, Lo, Hi, Pack, Hop, Bit;
    var r := st.todo[st.done];
    assert Legal(r);
    if r.Dispatch? {
      DispatchFields(r, 0);
    }
  }

  /** EL3 handles an SMC from the secure world. */
  lemma MonitorForSecureKeeps(st: State, g: Global, h: Chance)
    requires Good(st, g) && st.World() == Sec && st.el3.Some? && !NotStarted(st)
    ensures Kept(st, Step(st, h), g)
  {
    hide Shr, Low, Or, Shl, Mapped, LookedUp, Lo, Hi, Pack, Hop, Bit, El3MapMem, El3GetReg, El3SetReg, Served;
    var r := st.todo[st.done];
    assert Legal(r);
    BitScr(st.scr);
    ServedIs(g, r);
    if r.Dispatch? {
      DispatchFields(r, 0);
    }
  }

  lemma ServedIs(g: Global, r: Request)
    ensures !g.stuck && !Exists(r) ==> Served(g, r) == Delivered(g, r)
    ensures !g.stuck && r.Dispatch? && Exists(r) ==>
              Served(g, r) == Delivered(g, r).(log := Delivered(g, r).log + [Event(r.fid, r.el, Sec, r.arg)])
  {
  }

  /** The way to the first yield, and the first entry of the nonsecure world. */
  lemma StartingKeeps(st: State, g: Global, h: Chance)
    requires Good(st, g) && st.World() == Sec && NotStarted(st)
    ensures Kept(st, Step(st, h), g)
  {
    hide Shr, Low, Or, Shl, Mapped, LookedUp, Lo, Hi, Pack, Hop, Bit;
    BitScr(st.scr);
  }

  lemma StepKeeps(st: State, g: Global, h: Chance)
    requires Good(st, g)
    ensures Kept(st, Step(st, h), g)
  {
    hide Shr, Low, Or, Shl, Mapped, LookedUp, Step, Kept, Bit;
    if st.World() == Nsec {
      if st.el3.Some? {
        MonitorForNsecKeeps(st, g, h);
      } else if st.live.el1.Out? {
        ClientKeeps(st, g, h);
      } else if st.live.el1.Handling? {
        NsecHandlerKeeps(st, g, h);
      } else {
        NsecReturnKeeps(st, g, h);
      }
    } else if NotStarted(st) {
      StartingKeeps(st, g, h);
    } else if st.el3.Some? {
      MonitorForSecureKeeps(st, g, h);
    } else if st.live.el1.Out? {
      SecureLoopKeeps(st, g, h);
    } else if st.live.el1.Handling? {
      SecureHandlerKeeps(st, g, h);
    } else {
      SecureReturnKeeps(st, g, h);
    }
  }
}
