/** A platform on which the whole system can start: zeroed memory, three table regions, small image
    segments. What the power-on sequence asks for can be met. */
module Reset {
  import opened Vmsa
  import opened TableTree
  import opened Heap
  import opened Boot
  import opened Scripts
  import opened Startup
  import opened System

  // ---------- what a boot step costs ----------

  /** A step whose pages share one last-level table, and that takes at most one page for itself. */
  predicate Cheap(c: Step) {
    && Aligned(c)
    && (c.MapVa? ==> Pages(c.len) <= 1)
    && (Pages(c.len) > 0 ==> First(c) / 512 == (First(c) + Pages(c.len) - 1) / 512)
  }

  /** Where the tables exist already none is added. */
  lemma ReachedThere(s: Space, va: nat)
    requires Path(va, 1) in s.tables && Path(va, 2) in s.tables && Path(va, 3) in s.tables
    ensures Reached(s, va, 3) == s
  {
    hide Path;
    assert Reached(s, va, 0) == s;
    assert Reached(s, va, 1) == s;
    assert Reached(s, va, 2) == s;
  }

  lemma SamePath(v: nat, w: nat)
    requires v < PAGE_NUMBERS && w < PAGE_NUMBERS && v / 512 == w / 512
    ensures Path(At(v), 1) == Path(At(w), 1) && Path(At(v), 2) == Path(At(w), 2) && Path(At(v), 3) == Path(At(w), 3)
  {
    hide Path, At;
    PathAt(v);
    PathAt(w);
  }

  lemma {:induction false} CheapPages(s: Space, c: Step, n: nat)
    requires Cheap(c) && !c.Unmap? && 0 < n <= Pages(c.len)
    ensures var t, va := StepPages(s, c, n), At(First(c));
            && t.next <= s.next + 3 + (if c.MapVa? then 1 else 0)
            && Path(va, 1) in t.tables && Path(va, 2) in t.tables && Path(va, 3) in t.tables
  {
    hide Path, Vpn, BootWord, Pages, At, Reached;
    var t, v := StepPages(s, c, n - 1), First(c) + n - 1;
    InBlock(c, n);
    SamePath(First(c), v);
    ReachedCounts(t, At(v), 3);
    ReachedCounts(Claimed(t), At(v), 3);
    if n > 1 {
      CheapPages(s, c, n - 1);
      ReachedThere(t, At(v));
    } else {
      StepNone(s, c);
    }
  }

  lemma InBlock(c: Step, n: nat)
    requires Cheap(c) && 0 < n <= Pages(c.len)
    ensures c.addr + 0x1000 * (n - 1) == At(First(c) + n - 1)
    ensures First(c) / 512 == (First(c) + n - 1) / 512 && First(c) + n - 1 < PAGE_NUMBERS
  {
    hide Pages;
    assert First(c) / 512 <= (First(c) + n - 1) / 512 <= (First(c) + Pages(c.len) - 1) / 512;
  }

  lemma {:induction false} UnmapPages(s: Space, c: Step, n: nat)
    requires c.Unmap?
    ensures StepPages(s, c, n).next == s.next
  {
    hide Vpn;
    if n > 0 {
      UnmapPages(s, c, n - 1);
    }
  }

  lemma CheapStep(s: Space, c: Step)
    requires Cheap(c)
    ensures StepDone(s, c).next <= s.next + 4
  {
    hide StepPages, Pages, Cheap;
    if c.Unmap? {
      UnmapPages(s, c, Pages(c.len));
    } else if Pages(c.len) == 0 {
      StepNone(s, c);
    } else {
      CheapPages(s, c, Pages(c.len));
    }
  }

  lemma {:induction false} CheapSteps(s: Space, steps: seq<Step>)
    requires forall k | 0 <= k < |steps| :: Cheap(steps[k])
    ensures StepsDone(s, steps).next <= s.next + 4 * |steps|
  {
    hide StepDone, Cheap;
    if steps != [] {
      CheapSteps(s, steps[..|steps| - 1]);
      CheapStep(StepsDone(s, steps[..|steps| - 1]), steps[|steps| - 1]);
    }
  }

  // ---------- a platform ----------

  /** The table region at frame `root`, the heap at page `heap`, devices, stacks and segments in the lowest
      pages. */
  function SampleLayout(root: nat, heap: nat): Layout {
    Layout(At(6), PAGE_SIZE, At(7), 0x800, At(8), 0x10, At(9), At(10), At(3), At(4), At(root), At(heap), At(1), At(5))
  }

  function SampleMemory(): seq<nat> {
    seq(512 * 0x800, k requires 0 <= k < 512 * 0x800 => 0)
  }

  lemma MemoryZero(f: nat)
    ensures ZeroFrame(SampleMemory(), f)
  {
  }

  lemma PagesUsed()
    ensures Pages(PAGE_SIZE) == 1 && Pages(0x800) == 1 && Pages(0x10) == 1 && Pages(PGTBL_SIZE) == REGION_PAGES
  {
  }

  /** `steps` around the region's own step fit into the region's 64 pages. */
  lemma BootsCheaply(root: nat, heap: nat, before: seq<Step>, after: seq<Step>)
    requires root == 0x200 || root == 0x400 || root == 0x600
    requires forall k | 0 <= k < |before| :: Cheap(before[k])
    requires forall k | 0 <= k < |after| :: Cheap(after[k]) && Avoids(after[k], root, root + REGION_PAGES)
    requires |before| + |after| <= 10
    ensures var l := SampleLayout(root, heap);
            && CanBoot(SampleMemory(), l, root + 0x200, before, after)
            && StepsDone(Blank(root), before + [Region(l)] + after).next <= root + 45
  {
    hide StepsDone, Cheap, Avoids, ZeroFrame, SampleMemory, Pages;
    var l := SampleLayout(root, heap);
    var steps := before + [Region(l)] + after;
    RegionCheap(root, heap);
    forall k | 0 <= k < |steps|
      ensures Cheap(steps[k])
    {
      if k < |before| {
        assert steps[k] == before[k];
      } else if k > |before| {
        assert steps[k] == after[k - |before| - 1];
      }
    }
    CheapSteps(Blank(root), steps);
    forall f | root <= f < root + 0x200
      ensures ZeroFrame(SampleMemory(), f)
    {
      MemoryZero(f);
    }
    MemorySize();
  }

  lemma MemorySize()
    ensures |SampleMemory()| == 512 * 0x800
  {
  }

  lemma RegionCheap(root: nat, heap: nat)
    requires root == 0x200 || root == 0x400 || root == 0x600
    ensures Cheap(Region(SampleLayout(root, heap)))
  {
    PagesUsed();
  }

  /** None of its ranges meets another. */
  lemma SampleSeparate(root: nat, heap: nat)
    requires root == 0x200 || root == 0x400 || root == 0x600
    ensures El1Separate(SampleLayout(root, heap)) && El3Separate(SampleLayout(root, heap))
  {
    hide Pages;
    PagesUsed();
  }

  lemma El3Starts(root: nat, heap: nat, spare: nat)
    requires root == 0x200 || root == 0x400 || root == 0x600
    requires heap + 2 <= 0x200 && spare <= 453
    ensures var l := SampleLayout(root, heap); CanStart(SampleMemory(), El3Regime(l, root + 0x200), 2, 14 + spare)
  {
    hide StepsDone, ZeroFrame, SampleMemory, Pages;
    var l := SampleLayout(root, heap);
    PagesUsed();
    BootsCheaply(root, heap, El3Before(l), El3After(l));
  }

  lemma El1Starts(root: nat, heap: nat, spare: nat)
    requires root == 0x200 || root == 0x400 || root == 0x600
    requires heap + 1 <= 0x200 && spare <= 453
    ensures var l := SampleLayout(root, heap); CanStart(SampleMemory(), El1Regime(l, root + 0x200), 1, 13 + spare)
  {
    hide StepsDone, ZeroFrame, SampleMemory, Pages;
    var l := SampleLayout(root, heap);
    PagesUsed();
    BootsCheaply(root, heap, El1Before(l), El1After(l));
  }

  /** The power-on sequence can start here, with room for what `spare` pages allow. */
  lemma CanPowerOn(spare: nat)
    requires spare <= 453
    ensures var r3 := El3Regime(SampleLayout(0x200, 0x10), 0x400);
            var rs := El1Regime(SampleLayout(0x400, 0x20), 0x600);
            var rn := El1Regime(SampleLayout(0x600, 0x30), 0x800);
            && Regimes(r3, rs, rn) && Platform(SampleMemory(), r3, rs, rn, spare)
            && El3Separate(r3.l) && El1Separate(rs.l) && El1Separate(rn.l)
  {
    SampleSeparate(0x200, 0x10);
    SampleSeparate(0x400, 0x20);
    SampleSeparate(0x600, 0x30);
    hide El1Separate, El3Separate;
    hide CanStart, SampleMemory, El3Before, El3After, El1Before, El1After;
    El3Starts(0x200, 0x10, spare);
    El1Starts(0x400, 0x20, spare);
    El1Starts(0x600, 0x30, spare);
  }
}
