/** Over any sequence of calls the memory manager behaves as one flat map from virtual pages to leaf
    descriptors. The pool's own pages, which the tables occupy, are the one region set apart. */
module FlatMap {
  import opened Bits
  import opened Vmsa
  import opened TableTree
  import opened AddressSpaces

  datatype Call =
    | Map(va: nat, pa: nat, attr: nat)
    | Unmap(va: nat)
    | Lookup(va: nat)

  /** The flat map away from the pool. */
  ghost function Outside(m: map<nat, nat>, lo: nat, hi: nat): map<nat, nat> {
    map v | v in m && !(lo <= v < hi) :: m[v]
  }

  ghost function FlatStep(m: map<nat, nat>, c: Call): map<nat, nat> {
    match c
    case Map(va, pa, attr) => m[Vpn(va) := PageWord(pa, attr)]
    case Unmap(va) => m - {Vpn(va)}
    case Lookup(_) => m
  }

  ghost function FlatResult(m: map<nat, nat>, c: Call): int {
    match c
    case Map(_, _, _) => 0
    case Unmap(va) => if Vpn(va) in m then 0 else -1
    case Lookup(va) => if Vpn(va) in m then Address(m[Vpn(va)]) else -1
  }

  ghost function FlatRun(m: map<nat, nat>, calls: seq<Call>): map<nat, nat> {
    if calls == [] then m
    else FlatStep(FlatRun(m, calls[..|calls| - 1]), calls[|calls| - 1])
  }

  /** What the calls do to the whole space, pool included. */
  ghost function SpaceStep(s: Space, c: Call): Space {
    match c
    case Map(va, pa, attr) => Mapped(s, va, pa, attr)
    case Unmap(va) => Unmapped(s, va)
    case Lookup(_) => s
  }

  ghost function SpaceRun(s: Space, calls: seq<Call>): Space {
    if calls == [] then s
    else SpaceStep(SpaceRun(s, calls[..|calls| - 1]), calls[|calls| - 1])
  }

  /** The pool's pages may be looked up, but not mapped or unmapped. */
  ghost predicate Admissible(c: Call, lo: nat, hi: nat) {
    && (!c.Lookup? ==> !(lo <= Vpn(c.va) < hi))
    && (c.Map? ==> LowAttr(c.attr))
  }

  lemma ExtendedOutside(g: Space, va: nat, level: nat, lo: nat, hi: nat)
    requires level <= 3
    ensures Extended(g, va, level).next == g.next + 1
    ensures lo <= g.next < hi ==> Outside(Extended(g, va, level).flat, lo, hi) == Outside(g.flat, lo, hi)
  {
    hide Path, PageWord;
  }

  /** Growing tables maps pool pages only. */
  lemma {:induction false} GrownOutside(s: Space, va: nat, level: nat, lo: nat, hi: nat)
    requires level <= 3 && lo <= s.next && Grown(s, va, level).next <= hi
    ensures Outside(Grown(s, va, level).flat, lo, hi) == Outside(s.flat, lo, hi)
    ensures s.next <= Grown(s, va, level).next
  {
    hide Path, PageWord, Outside, Extended;
    if level > 0 {
      GrownCounts(s, va, level);
      GrownCounts(s, va, level - 1);
      GrownOutside(s, va, level - 1, lo, hi);
      ExtendedOutside(Grown(s, va, level - 1), va, level, lo, hi);
    }
  }

  lemma OutsideMapped(s: Space, va: nat, pa: nat, attr: nat, lo: nat, hi: nat)
    requires lo <= s.next && Mapped(s, va, pa, attr).next <= hi && !(lo <= Vpn(va) < hi)
    ensures Outside(Mapped(s, va, pa, attr).flat, lo, hi) == Outside(s.flat, lo, hi)[Vpn(va) := PageWord(pa, attr)]
  {
    hide Vpn, PageWord, Grown, Missing;
    GrownCounts(s, va, 3);
    GrownOutside(s, va, 3, lo, hi);
  }

  lemma OutsideUnmapped(s: Space, va: nat, lo: nat, hi: nat)
    requires !(lo <= Vpn(va) < hi)
    ensures Outside(Unmapped(s, va).flat, lo, hi) == Outside(s.flat, lo, hi) - {Vpn(va)}
    ensures Vpn(va) in Outside(s.flat, lo, hi) <==> Vpn(va) in s.flat
    ensures Vpn(va) in s.flat ==> Outside(s.flat, lo, hi)[Vpn(va)] == s.flat[Vpn(va)]
  {
    hide Vpn;
  }

  /** What a data access to `va` reaches under a flat map. */
  ghost function Access(m: map<nat, nat>, va: nat, write: bool): Option<nat> {
    if Shr(va, 48) == 0 && Vpn(va) in m && (if write then HwWritable(m[Vpn(va)]) else HwReadable(m[Vpn(va)]))
    then Some(0x1000 * Frame(m[Vpn(va)]) + va % 0x1000) else None
  }

  /** The translation hardware, walking the tables in memory, sees the flat map. */
  lemma HardwareSees(a: AddressSpace, va: nat, write: bool)
    requires a.Valid({})
    requires !(a.root <= Vpn(va) < a.limit)
    ensures Translate(a.ram.words, a.root, va, write) == Access(Outside(a.space.flat, a.root, a.limit), va, write)
  {
    hide Shr, Low, Or, Shl, Bit, Vpn, Frame, HwReadable, HwWritable, Translate;
    TranslateIsFlat(a.ram.words, a.space, a.root, va, write);
  }

  lemma StepGrows(s: Space, c: Call)
    ensures s.next <= SpaceStep(s, c).next
    ensures c.Map? ==> SpaceStep(s, c).next == s.next + Missing(s, c.va, 3)
  {
    hide Vpn, PageWord, Grown, Missing;
    if c.Map? {
      GrownCounts(s, c.va, 3);
    }
  }

  lemma {:induction false} RunGrows(s: Space, calls: seq<Call>, k: nat)
    requires k <= |calls|
    ensures SpaceRun(s, calls[..k]).next <= SpaceRun(s, calls).next
    decreases |calls|
  {
    hide SpaceStep;
    if k == |calls| {
      assert calls[..k] == calls;
    } else {
      var before := calls[..|calls| - 1];
      assert before[..k] == calls[..k];
      RunGrows(s, before, k);
      StepGrows(SpaceRun(s, before), calls[|calls| - 1]);
    }
  }

  lemma OutsideStep(s: Space, c: Call, lo: nat, hi: nat)
    requires lo <= s.next && SpaceStep(s, c).next <= hi && Admissible(c, lo, hi)
    ensures Outside(SpaceStep(s, c).flat, lo, hi) == FlatStep(Outside(s.flat, lo, hi), c)
  {
    hide Vpn, PageWord, Mapped, Unmapped, Outside;
    match c
    case Map(va, pa, attr) => OutsideMapped(s, va, pa, attr, lo, hi);
    case Unmap(va) => OutsideUnmapped(s, va, lo, hi);
    case Lookup(_) =>
  }

  /** Outside the pool the flat map answers on its own. */
  lemma OutsideAnswers(m: map<nat, nat>, c: Call, lo: nat, hi: nat)
    requires !(lo <= Vpn(c.va) < hi)
    ensures FlatResult(Outside(m, lo, hi), c) == FlatResult(m, c)
  {
    hide Vpn, Address;
  }

  lemma RunStart(s: Space, m: map<nat, nat>, calls: seq<Call>)
    ensures SpaceRun(s, calls[..0]) == s && FlatRun(m, calls[..0]) == m
  {
    assert calls[..0] == [];
  }

  lemma RunStep(s: Space, m: map<nat, nat>, calls: seq<Call>, k: nat)
    requires k < |calls|
    ensures SpaceRun(s, calls[..k + 1]) == SpaceStep(SpaceRun(s, calls[..k]), calls[k])
    ensures FlatRun(m, calls[..k + 1]) == FlatStep(FlatRun(m, calls[..k]), calls[k])
  {
    hide SpaceStep, FlatStep;
    assert calls[..k + 1][..k] == calls[..k] && calls[..k + 1][k] == calls[k];
  }

  /** One call. */
  method Perform(a: AddressSpace, c: Call) returns (r: int)
    requires a.Valid({}) && SpaceStep(a.space, c).next <= a.limit && Admissible(c, a.root, a.limit)
    modifies a`nextPa, a`space, a.ram
    ensures a.Valid({}) && a.space == SpaceStep(old(a.space), c)
    ensures r == FlatResult(old(a.space).flat, c)
  {
    hide Shr, Low, Or, Shl, Bit, Inv, Vpn, PageWord, Address, Missing, OnlyTables, Mapped, Unmapped;
    TablesInPool(a.ram.words, a.space, a.root, a.limit);
    StepGrows(a.space, c);
    r := 0;
    match c {
      case Map(va, pa, attr) =>
        ConstantBits();
        a.MapPa(va, pa, 0, attr, {});
      case Unmap(va) => r := a.UnmapVa(va);
      case Lookup(va) => r := a.LookupPa(va);
    }
  }

  /** Performs the calls in order and collects what they return. Room is needed for exactly the tables that
      are missing. Every answer is the flat map's as it then is; and outside the pool, where callers work,
      the flat map evolves by their calls alone. */
  method Execute(a: AddressSpace, calls: seq<Call>) returns (rs: seq<int>)
    requires a.Valid({}) && SpaceRun(a.space, calls).next <= a.limit
    requires forall k | 0 <= k < |calls| :: Admissible(calls[k], a.root, a.limit)
    modifies a`nextPa, a`space, a.ram
    ensures a.Valid({}) && a.space == SpaceRun(old(a.space), calls)
    ensures |rs| == |calls|
    ensures forall k | 0 <= k < |calls| :: rs[k] == FlatResult(SpaceRun(old(a.space), calls[..k]).flat, calls[k])
    ensures var m := old(Outside(a.space.flat, a.root, a.limit));
            && Outside(a.space.flat, a.root, a.limit) == FlatRun(m, calls)
            && forall k | 0 <= k < |calls| && !(a.root <= Vpn(calls[k].va) < a.limit) ::
                 rs[k] == FlatResult(FlatRun(m, calls[..k]), calls[k])
  {
    hide Inv, Vpn, Outside, SpaceStep, FlatStep, FlatResult, Admissible, SpaceRun, FlatRun;
    ghost var s0, m := a.space, Outside(a.space.flat, a.root, a.limit);
    rs := [];
    RunStart(s0, m, calls);
    for k := 0 to |calls|
      invariant a.Valid({}) && a.space == SpaceRun(s0, calls[..k]) && |rs| == k
      invariant Outside(a.space.flat, a.root, a.limit) == FlatRun(m, calls[..k])
      invariant forall j | 0 <= j < k :: rs[j] == FlatResult(SpaceRun(s0, calls[..j]).flat, calls[j])
      invariant forall j | 0 <= j < k && !(a.root <= Vpn(calls[j].va) < a.limit) ::
                  rs[j] == FlatResult(FlatRun(m, calls[..j]), calls[j])
    {
      RunStep(s0, m, calls, k);
      RunGrows(s0, calls, k + 1);
      TablesInPool(a.ram.words, a.space, a.root, a.limit);
      OutsideStep(a.space, calls[k], a.root, a.limit);
      if !(a.root <= Vpn(calls[k].va) < a.limit) {
        OutsideAnswers(a.space.flat, calls[k], a.root, a.limit);
      }
      var r := Perform(a, calls[k]);
      rs := rs + [r];
    }
    assert calls[..|calls|] == calls;
  }
}
