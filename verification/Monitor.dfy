/** The monitor's world switch: saving one world's registers, restoring the other's, flipping SCR.NS. */
module Monitor {

  // The system registers of a world's context, in the order of the state buffer.
  const ELR_EL3 := 0
  const SPSR_EL3 := 1
  const ELR_EL1 := 2
  const SPSR_EL1 := 3
  const ESR_EL1 := 4
  const SP_EL1 := 5
  const SPSEL := 6
  const SP_EL0 := 7
  const SCTLR_EL1 := 8
  const ACTLR_EL1 := 9
  const CPACR_EL1 := 10
  const CSSELR_EL1 := 11
  const TTBR0_EL1 := 12
  const TTBR1_EL1 := 13
  const TCR_EL1 := 14
  const VBAR_EL1 := 15
  const MAIR_EL1 := 16
  const AMAIR_EL1 := 17
  const TPIDR_EL0 := 18
  const TPIDR_EL1 := 19
  const TPIDRRO_EL0 := 20
  const CONTEXTIDR_EL1 := 21
  const SYS_COUNT := 22

  const BUF_WORDS := 57  // state_buf: 30 system words, of which 8 are unused, and x4 to x30

  /** The SAVE_SYS_PAIR and RESTORE_SYS_PAIR rows: two registers and the pair of words that holds them. */
  const ROWS: seq<(nat, nat, nat)> := [
    (ELR_EL3, SPSR_EL3, 0), (ELR_EL1, SPSR_EL1, 1), (ESR_EL1, SP_EL1, 2), (SPSEL, SP_EL0, 3),
    (SCTLR_EL1, ACTLR_EL1, 6), (CPACR_EL1, CSSELR_EL1, 7), (TTBR0_EL1, TTBR1_EL1, 8), (TCR_EL1, VBAR_EL1, 9),
    (MAIR_EL1, AMAIR_EL1, 10), (TPIDR_EL0, TPIDR_EL1, 11), (TPIDRRO_EL0, CONTEXTIDR_EL1, 12)]

  /** The word that holds a system register. Words 8 to 11 are never used. */
  function WordOf(reg: nat): nat {
    if reg < 8 then reg else reg + 4
  }

  lemma RowIs(k: nat)
    requires k < 11
    ensures var (r1, r2, idx) := ROWS[k];
              r1 == 2 * k && r2 == 2 * k + 1 && 2 * idx == WordOf(2 * k) && 2 * idx + 1 == WordOf(2 * k + 1)
  {
    if k < 4 {
      assert k == 0 || k == 1 || k == 2 || k == 3;
    } else {
      assert k == 4 || k == 5 || k == 6 || k == 7 || k == 8 || k == 9 || k == 10;
    }
  }

  /** A world's context: its system registers and x4 to x30. */
  datatype Registers = Registers(sys: seq<nat>, regs: seq<nat>) {
    predicate Whole() {
      |sys| == SYS_COUNT && |regs| == 27
    }
  }

  /** The context that a state buffer holds. */
  function Held(buf: seq<nat>): (c: Registers)
    requires |buf| == BUF_WORDS
    ensures c.Whole()
  {
    Registers(seq(SYS_COUNT, r requires 0 <= r < SYS_COUNT => buf[WordOf(r)]), buf[30..57])
  }

  class Cpu {
    var x: seq<nat>  // x0 to x30
    var sys: seq<nat>
    var scr: nat  // scr_el3
    var secState: seq<nat>
    var nsecState: seq<nat>

    predicate Valid()
      reads this
    {
      |x| == 31 && |sys| == SYS_COUNT && |secState| == BUF_WORDS && |nsecState| == BUF_WORDS
    }

    /** The context live in the registers. */
    function Live(): Registers
      requires Valid()
      reads this
    {
      Registers(sys, x[4..31])
    }

    constructor (x: seq<nat>, sys: seq<nat>, scr: nat, secState: seq<nat>, nsecState: seq<nat>)
      requires |x| == 31 && |sys| == SYS_COUNT && |secState| == BUF_WORDS && |nsecState| == BUF_WORDS
      ensures Valid() && this.x == x && this.sys == sys && this.scr == scr
      ensures this.secState == secState && this.nsecState == nsecState
    {
      this.x, this.sys, this.scr, this.secState, this.nsecState := x, sys, scr, secState, nsecState;
    }

    /** MONITOR_SAVE_STATE into the buffer `b`; x1 and x2 carry the system registers. */
    method SaveState(b: seq<nat>) returns (buf: seq<nat>)
      requires Valid() && |b| == BUF_WORDS
      modifies this`x
      ensures Valid() && |buf| == BUF_WORDS && Held(buf) == Live() && Live() == old(Live())
      ensures x[0] == old(x)[0] && x[3] == old(x)[3]
    {
      ghost var x0 := x;
      buf := b;
      for k := 0 to 11
        invariant |buf| == BUF_WORDS && |x| == 31 && x[0] == x0[0] && x[3..] == x0[3..]
        invariant forall r | 0 <= r < 2 * k :: buf[WordOf(r)] == sys[r]
      {
        RowIs(k);
        var (r1, r2, idx) := ROWS[k];
        x := x[1 := sys[r1]][2 := sys[r2]];
        buf := buf[2 * idx := x[1]][2 * idx + 1 := x[2]];
      }
      ghost var saved := buf;
      for j := 15 to 28  // stp of x4, x5 up to x28, x29 at word pairs 15 to 27
        invariant |buf| == BUF_WORDS && buf[..30] == saved[..30]
        invariant forall w | 30 <= w < 2 * j :: buf[w] == x[w - 26]
      {
        buf := buf[2 * j := x[2 * j - 26]][2 * j + 1 := x[2 * j - 25]];
      }
      buf := buf[56 := x[30]];
      assert forall r | 0 <= r < SYS_COUNT :: buf[WordOf(r)] == saved[WordOf(r)] by {
        assert forall w | 0 <= w < 30 :: buf[..30][w] == buf[w] && saved[..30][w] == saved[w];
      }
      assert x[4..31] == x0[4..31] by {
        assert forall i | 4 <= i < 31 :: x[3..][i - 3] == x[i] && x0[3..][i - 3] == x0[i];
      }
    }

    /** MONITOR_RESTORE_STATE from the buffer `b`. */
    method RestoreState(b: seq<nat>)
      requires Valid() && |b| == BUF_WORDS
      modifies this`x, this`sys
      ensures Valid() && Live() == Held(b)
      ensures x[0] == old(x)[0] && x[3] == old(x)[3]
    {
      ghost var x0 := x;
      for k := 0 to 11
        invariant |x| == 31 && |sys| == SYS_COUNT && x[0] == x0[0] && x[3] == x0[3]
        invariant forall r | 0 <= r < 2 * k :: sys[r] == b[WordOf(r)]
      {
        RowIs(k);
        var (r1, r2, idx) := ROWS[k];
        x := x[1 := b[2 * idx]][2 := b[2 * idx + 1]];
        sys := sys[r1 := x[1]][r2 := x[2]];
      }
      ghost var restored := sys;
      for j := 15 to 28
        invariant |x| == 31 && x[0] == x0[0] && x[3] == x0[3] && sys == restored
        invariant forall w | 30 <= w < 2 * j :: x[w - 26] == b[w]
      {
        x := x[2 * j - 26 := b[2 * j]][2 * j - 25 := b[2 * j + 1]];
      }
      x := x[30 := b[56]];
    }

    /** monitor_switch: x0 to x3 go through the stack, the current world's context goes to its buffer, the
        other's comes back, and SCR becomes the other value of NS alone. */
    method MonitorSwitch()
      requires Valid()
      modifies this
      ensures Valid() && x[..4] == old(x)[..4]
      ensures scr == 1 - old(scr) % 2
      ensures old(scr) % 2 == 1 ==>
                Held(nsecState) == old(Live()) && secState == old(secState) && Live() == Held(secState)
      ensures old(scr) % 2 == 0 ==>
                Held(secState) == old(Live()) && nsecState == old(nsecState) && Live() == Held(nsecState)
    {
      var stack := x[..4];
      x := x[3 := scr];
      x := x[3 := x[3] % 2];
      assert Live() == old(Live());
      if x[3] != 0 {
        nsecState := SaveState(nsecState);
        RestoreState(secState);
      } else {
        secState := SaveState(secState);
        RestoreState(nsecState);
      }
      x := x[3 := 1 - x[3]];
      scr := x[3];
      ghost var live := Live();
      x := stack + x[4..];
      assert Live() == live;
    }

    /** Any number of rounds. In each the running world leaves arbitrary registers behind and is switched
        out. `ins[k]` is the context that the k-th switch brings in. */
    method Rounds(outs: seq<Registers>) returns (ins: seq<Registers>)
      requires Valid() && forall k | 0 <= k < |outs| :: outs[k].Whole()
      modifies this
      ensures Valid() && |ins| == |outs|
      ensures scr % 2 == (old(scr) + |outs|) % 2
      // every world comes back to exactly what it had when it was last switched out
      ensures forall k | 1 <= k < |ins| :: ins[k] == outs[k - 1]
      ensures |ins| > 0 ==> ins[0] == Held(if old(scr) % 2 == 1 then old(secState) else old(nsecState))
    {
      ins := [];
      for k := 0 to |outs|
        invariant Valid() && |ins| == k && scr % 2 == (old(scr) + k) % 2
        invariant forall i | 1 <= i < k :: ins[i] == outs[i - 1]
        invariant k > 0 ==> ins[0] == Held(if old(scr) % 2 == 1 then old(secState) else old(nsecState))
        invariant k == 0 ==> secState == old(secState) && nsecState == old(nsecState)
        invariant k > 0 ==> Held(if scr % 2 == 1 then secState else nsecState) == outs[k - 1]
      {
        assert outs[k].Whole();
        sys := outs[k].sys;
        x := x[..4] + outs[k].regs;
        assert Live() == outs[k];
        MonitorSwitch();
        ins := ins + [Live()];
      }
    }
  }
}
