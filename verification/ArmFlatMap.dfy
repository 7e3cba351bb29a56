/** Over any sequence of calls the two-level manager maintains the same flat map as the four-level one.
    What it answers differs: only a missing second-level table is reported. */
module ArmFlatMap {
  import opened Bits
  import opened ArmTables
  import opened ArmManager
  import opened FlatMap

  ghost function ArmStep(m: map<nat, nat>, c: Call): map<nat, nat> {
    match c
    case Map(va, pa, attr) => m[ArmTables.Vpn(va) := ArmTables.PageWord(pa, attr)]
    case Unmap(va) => m - {ArmTables.Vpn(va)}
    case Lookup(_) => m
  }

  ghost function ArmRun(m: map<nat, nat>, calls: seq<Call>): map<nat, nat> {
    if calls == [] then m
    else ArmStep(ArmRun(m, calls[..|calls| - 1]), calls[|calls| - 1])
  }

  /** What the calls do to the whole space, pool included. */
  function ArmSpaceStep(s: ArmTables.Space, c: Call): ArmTables.Space {
    match c
    case Map(va, pa, attr) => ArmManager.Mapped(s, va, pa, attr)
    case Unmap(va) => ArmManager.Unmapped(s, va)
    case Lookup(_) => s
  }

  function ArmSpaceRun(s: ArmTables.Space, calls: seq<Call>): ArmTables.Space {
    if calls == [] then s
    else ArmSpaceStep(ArmSpaceRun(s, calls[..|calls| - 1]), calls[|calls| - 1])
  }

  /** The first-level entries in use: each call that maps makes its own present, and none disappears. */
  ghost function Present1(tables: set<nat>, calls: seq<Call>): set<nat> {
    tables + set c | c in calls && c.Map? :: L1(c.va)
  }

  /** What a call answers where a space is in force. */
  ghost function Answer(s: ArmTables.Space, c: Call): int {
    match c
    case Map(_, _, _) => 0
    case Unmap(va) => if L1(va) in s.tables then 0 else -1
    case Lookup(va) => ArmManager.LookedUp(s, va)
  }

  ghost predicate Failed(c: Call, r: int) {
    match c
    case Map(_, _, _) => false
    case Unmap(_) => r == -1
    case Lookup(_) => r == ERROR
  }

  /** The pool's pages may be looked up, but not mapped or unmapped. */
  ghost predicate ArmAdmissible(c: Call, lo: nat, hi: nat) {
    && (!c.Lookup? ==> !(lo <= ArmTables.Vpn(c.va) < hi))
    && (c.Map? ==> ArmTables.LowAttr(c.attr) && Shr(c.pa, 32) == 0)
  }

  lemma ArmStepLaws(s: ArmTables.Space, c: Call, lo: nat, hi: nat)
    requires lo <= s.next && ArmSpaceStep(s, c).next <= hi && ArmAdmissible(c, lo, hi)
    ensures var t := ArmSpaceStep(s, c);
            && Outside(t.flat, lo, hi) == ArmStep(Outside(s.flat, lo, hi), c)
            && s.next <= t.next <= s.next + 1 && (!c.Map? ==> t.next == s.next)
            && t.tables.Keys == s.tables.Keys + if c.Map? then {L1(c.va)} else {}
  {
    hide ArmTables.Vpn, ArmTables.PageWord, ArmTables.LowAttr, L1, Shr;
  }

  lemma ArmStepGrows(s: ArmTables.Space, c: Call)
    ensures s.next <= ArmSpaceStep(s, c).next
  {
    hide ArmTables.Vpn, ArmTables.PageWord, L1;
  }

  lemma {:induction false} ArmRunGrows(s: ArmTables.Space, calls: seq<Call>, k: nat)
    requires k <= |calls|
    ensures s.next <= ArmSpaceRun(s, calls[..k]).next <= ArmSpaceRun(s, calls).next
    decreases |calls|
  {
    hide ArmSpaceStep;
    if calls == [] {
      assert calls[..k] == [];
    } else {
      var before := calls[..|calls| - 1];
      ArmStepGrows(ArmSpaceRun(s, before), calls[|calls| - 1]);
      if k == |calls| {
        assert calls[..k] == calls;
        ArmRunGrows(s, before, |before|);
        assert before[..|before|] == before;
      } else {
        assert before[..k] == calls[..k];
        ArmRunGrows(s, before, k);
      }
    }
  }

  /** Outside the pool the space evolves as a flat map by the calls alone, and the first-level entries in
      use are those of the calls that map. */
  lemma {:induction false} ArmRunLaws(s: ArmTables.Space, calls: seq<Call>, lo: nat, hi: nat)
    requires lo <= s.next && ArmSpaceRun(s, calls).next <= hi
    requires forall k | 0 <= k < |calls| :: ArmAdmissible(calls[k], lo, hi)
    ensures Outside(ArmSpaceRun(s, calls).flat, lo, hi) == ArmRun(Outside(s.flat, lo, hi), calls)
    ensures ArmSpaceRun(s, calls).tables.Keys == Present1(s.tables.Keys, calls)
  {
    hide ArmSpaceStep, ArmStep, Outside, L1, ArmAdmissible, Present1;
    if calls == [] {
      Present1Step(s.tables.Keys, calls);
    } else {
      var before, c := calls[..|calls| - 1], calls[|calls| - 1];
      var t := ArmSpaceRun(s, before);
      ArmStepGrows(t, c);
      ArmRunGrows(s, before, |before|);
      assert before[..|before|] == before;
      ArmRunLaws(s, before, lo, hi);
      ArmStepLaws(t, c, lo, hi);
      Present1Step(s.tables.Keys, calls);
    }
  }

  lemma Present1Step(tables: set<nat>, calls: seq<Call>)
    ensures Present1(tables, calls) ==
            if calls == [] then tables
            else
              var c := calls[|calls| - 1];
              Present1(tables, calls[..|calls| - 1]) + if c.Map? then {L1(c.va)} else {}
  {
    hide L1;
    if calls != [] {
      assert calls == calls[..|calls| - 1] + [calls[|calls| - 1]];
    }
  }

  lemma TablesBelow(mem: seq<nat>, s: ArmTables.Space, root: nat, limit: nat)
    requires ArmTables.Inv(mem, s, root, limit, {})
    ensures root + 4 <= s.next && root + 4 <= limit
    ensures forall f: nat | TableFrame(s, root, f) :: root <= f < limit
  {
    hide Represents, SelfMapped, ArmTables.Covered;
  }

  /** One call. */
  method Perform(a: Manager, c: Call) returns (r: int)
    requires a.Valid({}) && ArmSpaceStep(a.space, c).next <= a.limit && ArmAdmissible(c, a.root, a.limit)
    modifies a`mem, a`nextPa, a`space
    ensures a.Valid({}) && a.space == ArmSpaceStep(old(a.space), c)
    ensures r == Answer(old(a.space), c)
  {
    hide Shr, Low, Or, Shl, Bit, ArmTables.Inv, ArmTables.Vpn, ArmTables.PageWord, ArmTables.Frame,
         ArmTables.LowAttr, L1;
    hide TableFrame, ArmManager.OnlyTables, ArmManager.Unmapped, ArmManager.LookedUp, Clean;
    TablesBelow(a.mem, a.space, a.root, a.limit);
    r := 0;
    match c {
      case Map(va, pa, attr) =>
        NoAttributes();
        a.MapPa(va, pa, 0, attr, {});
      case Unmap(va) => r := a.UnmapVa(va);
      case Lookup(va) => r := a.LookupPa(va);
    }
  }

  lemma NoAttributes()
    ensures ArmTables.LowAttr(0)
  {
  }

  /** Performs the calls in order and collects what they return. Room is needed for exactly the tables that
      are missing. */
  method Execute(a: Manager, calls: seq<Call>) returns (rs: seq<int>)
    requires a.Valid({}) && ArmSpaceRun(a.space, calls).next <= a.limit
    requires forall k | 0 <= k < |calls| :: ArmAdmissible(calls[k], a.root, a.limit)
    modifies a`mem, a`nextPa, a`space
    ensures a.Valid({}) && a.space == ArmSpaceRun(old(a.space), calls)
    ensures Outside(a.space.flat, a.root, a.limit) == ArmRun(old(Outside(a.space.flat, a.root, a.limit)), calls)
    ensures |rs| == |calls|
    ensures forall k | 0 <= k < |calls| :: rs[k] == Answer(ArmSpaceRun(old(a.space), calls[..k]), calls[k])
  {
    hide ArmTables.Inv, Clean, L1, Outside, Answer, ArmAdmissible, ArmSpaceStep, ArmRun;
    ghost var s0 := a.space;
    TablesBelow(a.mem, a.space, a.root, a.limit);
    ArmRunLaws(s0, calls, a.root, a.limit);
    rs := [];
    assert calls[..0] == [];
    for k := 0 to |calls|
      invariant a.Valid({}) && a.space == ArmSpaceRun(s0, calls[..k]) && |rs| == k
      invariant forall j | 0 <= j < k :: rs[j] == Answer(ArmSpaceRun(s0, calls[..j]), calls[j])
    {
      assert calls[..k + 1][..k] == calls[..k] && calls[..k + 1][k] == calls[k];
      ArmRunGrows(s0, calls, k + 1);
      var r := Perform(a, calls[k]);
      rs := rs + [r];
    }
    assert calls[..|calls|] == calls;
  }

  /** Once any page under a first-level entry has been mapped, no call there fails, but for one lookup whose
      proper answer is the error word: the last byte of a page mapped to the last frame. */
  lemma ErrorsVanish(s: ArmTables.Space, before: seq<Call>, c: Call, k: nat, lo: nat, hi: nat)
    requires lo <= s.next && ArmSpaceRun(s, before).next <= hi
    requires forall j | 0 <= j < |before| :: ArmAdmissible(before[j], lo, hi)
    requires k < |before| && before[k].Map? && L1(before[k].va) == L1(c.va)
    ensures var t, v := ArmSpaceRun(s, before), ArmTables.Vpn(c.va);
            Failed(c, Answer(t, c)) <==>
              c.Lookup? && v in t.flat && ArmTables.Frame(t.flat[v]) == 0xF_FFFF && c.va % 0x1000 == 0xFFF
  {
    hide L1, ArmTables.Vpn, ArmTables.Frame, ArmSpaceStep, ArmAdmissible, ArmManager.LookedUp;
    ArmRunLaws(s, before, lo, hi);
    assert before[k] in before;
    ErrorWord(ArmSpaceRun(s, before), c.va);
  }
}
