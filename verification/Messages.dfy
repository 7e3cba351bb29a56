/** Call numbers and the descriptor that SVC and SMC calls share. The descriptor is a C union: one
    block of five 64-bit words under several views. */
module Messages {
  import opened Bits

  const OP_NOOP := 0
  const OP_YIELD := 1
  const OP_EXIT := 2
  const OP_MAP := 3
  const OP_GET_REG := 4
  const OP_SET_REG := 5
  const OP_TEST := 6
  const OP_DISPATCH := 7

  const SECURE := 0
  const NONSECURE := 1

  // A map request's type: bit 0 secure EL0, bit 1 nonsecure EL1, bit 2 secure EL1, bit 3 EL3.
  const OP_MAP_ALL := 15

  // register keys
  const CURRENTEL := 1
  const CPTR_EL3 := 2
  const CPACR := 3
  const SCR := 4
  const SCTLR := 5

  const U32 := 0x1_0000_0000

  function Lo(w: nat): nat {
    Low(w, 32)
  }

  function Hi(w: nat): nat {
    Shr(w, 32)
  }

  function Pack(lo: nat, hi: nat): nat {
    Shl(hi, 32) + lo
  }

  lemma Shl32()
    ensures Shl(1, 32) == U32
  {
    ShiftPage(1);
    ShiftPage(0x1000);
    assert Shl(1, 24) == 0x100_0000 by { ShlShl(1, 12, 12); }
    Shl3(1);
    Shl3(8);
    ShlShl(1, 3, 3);
    ShlShl(1, 6, 2);
    assert Shl(64, 1) == 128;
    assert Shl(64, 2) == 2 * Shl(64, 1);
    ShlShl(1, 8, 24);
    ShlScale(1, 8, 24);
  }

  lemma {:induction false} ShlScale(a: nat, j: nat, k: nat)
    ensures Shl(Shl(a, j), k) == Shl(Shl(a, k), j)
  {
    ShlShl(a, j, k);
    ShlShl(a, k, j);
  }

  lemma PackReads(lo: nat, hi: nat)
    requires lo < U32
    ensures Lo(Pack(lo, hi)) == lo && Hi(Pack(lo, hi)) == hi
  {
    Shl32();
    Parts(hi, lo, 32);
  }

  lemma LoSmall(x: nat)
    requires x < U32
    ensures Lo(x) == x
  {
    Shl32();
    ShlZero(32);
    PackReads(x, 0);
  }

  /** smc_op_desc_t and svc_op_desc_t. */
  datatype Desc = Desc(w0: nat, w1: nat, w2: nat, w3: nat, w4: nat) {
    // op_dispatch_t
    function Fid(): nat { Lo(w0) }
    function DispArg(): nat { w1 }
    function DispState(): nat { w2 }
    function DispEl(): nat { w3 }
    // op_map_mem_t
    function Type(): nat { Lo(w0) }
    function Va(): nat { w2 }
    function Pa(): nat { w3 }
    // op_data_t
    function Key(): nat { w0 }
    function Data(): nat { w1 }
    function RegEl(): nat { Lo(w2) }
    // op_test_t
    function Orig(): nat { w0 }
    function Val(): nat { w1 }
    function Count(): nat { Lo(w2) }
    function Fail(): nat { Hi(w2) }
  }

  /** One hop of the interop test: check, then halve the value and count the hop. */
  function Hop(d: Desc): Desc {
    var fail := if d.Val() != Shr(d.Orig(), d.Count()) then (d.Fail() + 1) % U32 else d.Fail();
    d.(w1 := Shr(d.Val(), 1), w2 := Pack((d.Count() + 1) % U32, fail))
  }

  /** The state of an interop test after `n` good hops. */
  predicate Tested(d: Desc, orig: nat, n: nat) {
    d.Orig() == orig && d.Val() == Shr(orig, n) && d.Count() == n && d.Fail() == 0
  }

  /** A good hop leads to the next good state. */
  lemma HopAdvances(d: Desc, orig: nat, n: nat)
    requires Tested(d, orig, n) && n < 64
    ensures Tested(Hop(d), orig, n + 1)
  {
    hide Shr, Low, Shl, Pack, Lo, Hi;
    ShrShr(orig, n, 1);
    PackReads(n + 1, 0);
  }

  /** Whether the value is wrong at the hop that comes after `k` others. */
  predicate Wrong(d: Desc, k: nat) {
    Shr(d.Val(), k) != Shr(d.Orig(), d.Count() + k)
  }

  /** How many of the next `n` hops find a wrong value. */
  function Misses(d: Desc, n: nat): nat {
    if n == 0 then 0 else Misses(d, n - 1) + if Wrong(d, n - 1) then 1 else 0
  }

  function Hops(d: Desc, n: nat): Desc {
    if n == 0 then d else Hop(Hops(d, n - 1))
  }

  /** From any state, good or bad, `n` hops halve the value `n` times, count `n` hops and one failure for each
      hop that found a wrong value. */
  lemma {:induction false} HopsFail(d: Desc, n: nat)
    requires d.Count() + n < U32 && d.Fail() + n < U32
    ensures Misses(d, n) <= n
    ensures var t := Hops(d, n);
            && t.Orig() == d.Orig() && t.Val() == Shr(d.Val(), n) && t.Count() == d.Count() + n
            && t.Fail() == d.Fail() + Misses(d, n)
  {
    hide Shr, Low, Shl, Pack, Lo, Hi, Hop;
    if n == 0 {
      ShrNothing(d.Val());
    } else {
      HopsFail(d, n - 1);
      ShrShr(d.Val(), n - 1, 1);
      HopReads(Hops(d, n - 1));
    }
  }

  /** What one hop does to any descriptor whose counters do not overflow. */
  lemma HopReads(d: Desc)
    requires d.Count() + 1 < U32 && d.Fail() + 1 < U32
    ensures var t := Hop(d);
            && t.Orig() == d.Orig() && t.Val() == Shr(d.Val(), 1) && t.Count() == d.Count() + 1
            && t.Fail() == d.Fail() + if d.Val() == Shr(d.Orig(), d.Count()) then 0 else 1
  {
    hide Shr, Low, Shl, Pack, Lo, Hi;
    PackReads(d.Count() + 1, if d.Val() != Shr(d.Orig(), d.Count()) then d.Fail() + 1 else d.Fail());
  }

  lemma ShrNothing(x: nat)
    ensures Shr(x, 0) == x
  {
  }

  /** A test comes out without a new failure if and only if its first hop found the right value. */
  lemma {:induction false} FailsFirst(d: Desc, n: nat)
    requires n > 0
    ensures Misses(d, n) == 0 <==> d.Val() == Shr(d.Orig(), d.Count())
  {
    hide Shr;
    ShrNothing(d.Val());
    if n > 1 {
      FailsFirst(d, n - 1);
      ShrShr(d.Orig(), d.Count(), n - 1);
    }
    assert n == 1 ==> Misses(d, 0) == 0;
  }

  function ClearEl3(t: nat): nat {
    if Bit(t, 3) == 1 && t >= 8 then t - 8 else t
  }

  lemma ClearEl3Works(t: nat)
    requires Bit(t, 3) == 1 && t < U32
    ensures t >= 8 && ClearEl3(t) < U32
    ensures Bit(ClearEl3(t), 3) == 0 && Bit(ClearEl3(t), 2) == Bit(t, 2)
  {
    hide Shr;
    Shr23(t);
    assert t / 2 / 2 / 2 % 2 == 1;
    Shr23(t - 8);
    Minus8(t);
  }

  lemma Minus8(t: nat)
    requires t >= 8
    ensures (t - 8) / 2 / 2 == t / 2 / 2 - 2 && (t - 8) / 2 / 2 / 2 == t / 2 / 2 / 2 - 1
  {
  }

  lemma Shr23(t: nat)
    ensures Shr(t, 2) == t / 2 / 2 && Shr(t, 3) == t / 2 / 2 / 2
  {
    assert Shr(t / 2, 1) == t / 2 / 2;
    assert Shr(t / 2, 2) == Shr(t / 2 / 2, 1) == t / 2 / 2 / 2;
  }
}
