/** The register swap is the protocol's swap of contexts, whatever encoding of a context in registers the
    processor uses. */
module MonitorRefines {
  import opened Bits
  import Protocol
  import opened Monitor

  /** The monitor's registers, buffers and SCR stand for a protocol state's, under the decoding `d`. */
  ghost predicate Stands(cpu: Cpu, d: Registers -> Protocol.Context, st: Protocol.State)
    requires cpu.Valid()
    reads cpu
  {
    && st.live == d(cpu.Live())
    && st.secState == d(Held(cpu.secState))
    && st.nsecState == d(Held(cpu.nsecState))
    && Bit(st.scr, 0) == cpu.scr % 2
  }

  /** monitor_switch does to the registers what `Swapped` and `Flipped` do to the contexts. */
  method SwitchRefines(cpu: Cpu, ghost d: Registers -> Protocol.Context, ghost st: Protocol.State)
    requires cpu.Valid() && Stands(cpu, d, st)
    modifies cpu
    ensures cpu.Valid() && Stands(cpu, d, Protocol.Flipped(Protocol.Swapped(st)))
    ensures cpu.scr == Protocol.Flipped(Protocol.Swapped(st)).scr && cpu.x[..4] == old(cpu.x)[..4]
  {
    FlippedBit(st.scr);
    cpu.MonitorSwitch();
  }

  lemma FlippedBit(x: nat)
    ensures Bit(1 - Bit(x, 0), 0) == 1 - Bit(x, 0)
  {
  }
}
