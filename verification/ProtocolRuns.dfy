/** What holds over whole runs of the protocol. */
module ProtocolRuns {
  import opened Bits
  import opened Vmsa
  import opened TableTree
  import opened Messages
  import opened Protocol
  import opened ProtocolProof

  /** After EL3 has started the secure world: its server is about to yield for the first time. */
  function Start(todo: seq<Request>, sec: Space, nsec: Space, el3: Space, d: Desc, buf: Desc): State {
    State(Thread(d, d, d, sec), Thread(d, d, d, nsec),
          Context(Sec, LoopTop(OP_YIELD), Out), Context(Sec, Ready, Unstarted), Context(Nsec, Ready, Unstarted),
          None, buf, 0, SECURE, el3, todo, 0, [], [], [], 0, false)
  }

  /** The first switch, which starts the nonsecure world, is not part of any request. */
  function Origin(sec: Space, nsec: Space, el3: Space): Global {
    Global(sec, nsec, el3, [], [], 1, false)
  }

  ghost function Steps(st: State, hs: seq<Chance>): State {
    if hs == [] then st else Step(Steps(st, hs[..|hs| - 1]), hs[|hs| - 1])
  }

  ghost predicate Legals(todo: seq<Request>) {
    forall k | 0 <= k < |todo| :: Legal(todo[k])
  }

  lemma StartGood(todo: seq<Request>, sec: Space, nsec: Space, el3: Space, d: Desc, buf: Desc)
    requires Legals(todo)
    ensures Good(Start(todo, sec, nsec, el3, d, buf), Origin(sec, nsec, el3))
  {
    BitScr(0);
  }

  /** Over every run, the completed requests have had exactly their atomic effects, in order. */
  lemma {:induction false} RunsAreAtomic(st: State, g: Global, hs: seq<Chance>)
    requires st.done <= |st.todo| && Good(st, AfterAll(g, st.todo[..st.done]))
    ensures var t := Steps(st, hs);
            && t.todo == st.todo && st.done <= t.done <= |t.todo|
            && Good(t, AfterAll(g, t.todo[..t.done]))
    decreases |hs|
  {
    hide Good, Step, After;
    if hs != [] {
      var t := Steps(st, hs[..|hs| - 1]);
      RunsAreAtomic(st, g, hs[..|hs| - 1]);
      StepKeeps(t, AfterAll(g, t.todo[..t.done]), hs[|hs| - 1]);
      var u := Step(t, hs[|hs| - 1]);
      if u.done == t.done + 1 {
        assert t.todo[..u.done][..t.done] == t.todo[..t.done] && t.todo[..u.done][t.done] == t.todo[t.done];
      }
    }
  }

  // ---------- safety ----------

  /** Nothing has gone wrong: the machine has not shut down; EL3's state variable is SCR.NS, and the live
      registers belong to that world; the monitor holds the other world's context, which while nonsecure
      code runs waits in the server's SMC_YIELD or, after a dispatch without a target, in run_test's call;
      whatever a switch delivers to the server is one of the four operations it knows; and every interop
      test completed so far has come back with three hops and no failure. */
  predicate SafeState(st: State) {
    && !st.halted
    && st.el3State == Bit(st.scr, 0) && st.live.world == st.World()
    && (st.World() == Nsec ==> st.secState == PARKED || st.secState == STUCK)
    && (st.World() == Sec ==> st.nsecState.world == Nsec && (st.nsecState.el1.Waiting? || st.nsecState.el1.Unstarted?))
    && (st.World() == Sec && st.el3.None? && st.live.el1.Back? && st.live.el1.op == OP_YIELD ==>
          st.live.el1.ret in {OP_YIELD, OP_MAP, OP_TEST, OP_DISPATCH})
    && (st.World() == Sec && st.live.el0.LoopTop? ==> st.live.el0.op in {0, OP_YIELD, OP_MAP, OP_TEST, OP_DISPATCH})
    && (st.el3.Some? ==> st.el3.value in {OP_YIELD, OP_MAP, OP_GET_REG, OP_SET_REG, OP_TEST, OP_DISPATCH})
    && st.done <= |st.todo| && |st.results| == st.done
    && forall k | 0 <= k < st.done && st.todo[k].Interop? :: Tested(st.results[k], st.todo[k].orig, 3)
  }

  lemma Safe(st: State, g: Global)
    requires Good(st, g)
    ensures SafeState(st)
  {
    hide Shr, Low, Or, Shl, Mapped, LookedUp, Lo, Hi, Bit;
    forall k | 0 <= k < st.done && st.todo[k].Interop?
      ensures Tested(st.results[k], st.todo[k].orig, 3)
    {
      assert Answered(st.todo[k], st.results[k]);
    }
  }

  /** Every state of every run from the start is safe. */
  lemma RunsSafe(todo: seq<Request>, sec: Space, nsec: Space, el3: Space, d: Desc, buf: Desc, hs: seq<Chance>)
    requires Legals(todo)
    ensures SafeState(Steps(Start(todo, sec, nsec, el3, d, buf), hs))
  {
    hide Good, Steps, SafeState;
    var st, g := Start(todo, sec, nsec, el3, d, buf), Origin(sec, nsec, el3);
    StartGood(todo, sec, nsec, el3, d, buf);
    assert st.todo[..0] == [];
    RunsAreAtomic(st, g, hs);
    var t := Steps(st, hs);
    Safe(t, AfterAll(g, t.todo[..t.done]));
  }

  // ---------- termination ----------

  /** A finished client stays finished. */
  lemma FinishedStays(st: State, h: Chance)
    requires Finished(st) && st.live.el0 == Ready && !st.halted
    ensures Step(st, h) == st
  {
    hide Shr, Low, Or, Shl, Mapped, LookedUp, Lo, Hi, Pack, Hop;
  }

  /** Between requests everything shows. */
  lemma AtRestGood(st: State, g: Global)
    requires Good(st, g) && AtRest(st)
    ensures st.live.el0 == Ready && !st.halted && View(st) == g
  {
    hide Shr, Low, Or, Shl, Mapped, LookedUp, Lo, Hi, Pack, Hop, Bit;
  }

  /** Whatever chance brings, a run that is long enough serves every request, and the result is that of
      the atomic requests in order. */
  lemma {:induction false} RunsFinish(st: State, g: Global, hs: seq<Chance>)
    requires st.done <= |st.todo| && Good(st, AfterAll(g, st.todo[..st.done]))
    ensures var t := Steps(st, hs);
            && t.todo == st.todo && st.done <= t.done <= |t.todo|
            && Good(t, AfterAll(g, t.todo[..t.done]))
            && (Finished(t) || Rank(t) + |hs| <= Rank(st))
    ensures |hs| > Rank(st) ==> Finished(Steps(st, hs)) && View(Steps(st, hs)) == AfterAll(g, st.todo)
    decreases |hs|
  {
    hide Good, Step, After, Rank, AtRest, View;
    var t := Steps(st, hs);
    if hs != [] {
      var s, h := Steps(st, hs[..|hs| - 1]), hs[|hs| - 1];
      RunsFinish(st, g, hs[..|hs| - 1]);
      RunsAreAtomic(st, g, hs);
      StepKeeps(s, AfterAll(g, s.todo[..s.done]), h);
      if Finished(s) {
        AtRestGood(s, AfterAll(g, s.todo[..s.done]));
        FinishedStays(s, h);
      }
    }
    if Finished(t) {
      AtRestGood(t, AfterAll(g, t.todo[..t.done]));
      AllDone(t);
    }
  }

  lemma AllDone(st: State)
    requires Finished(st)
    ensures st.done == |st.todo| && st.todo[..st.done] == st.todo
  {
  }
}
