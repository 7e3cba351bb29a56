/** Any sequence of heap allocations: each gets its own pages on its own frames. */
module HeapRuns {
  import opened Vmsa
  import opened TableTree
  import opened AddressSpaces
  import opened Heap

  /** The pages that the allocations take together. */
  function Total(lens: seq<nat>): nat {
    if lens == [] then 0 else Total(lens[..|lens| - 1]) + Pages(lens[|lens| - 1])
  }

  lemma {:induction false} TotalGrows(lens: seq<nat>, j: nat, k: nat)
    requires j <= k <= |lens|
    ensures Total(lens[..j]) <= Total(lens[..k])
  {
    hide Pages;
    if j < k {
      TotalGrows(lens, j, k - 1);
      TotalStep(lens, k - 1);
    }
  }

  lemma TotalStep(lens: seq<nat>, k: nat)
    requires k < |lens|
    ensures Total(lens[..k + 1]) == Total(lens[..k]) + Pages(lens[k])
  {
    hide Pages;
    assert lens[..k + 1][..k] == lens[..k] && lens[..k + 1][k] == lens[k];
  }

  /** Two allocations one after the other are one. */
  lemma {:induction false} HeapedJoin(s: Space, v: nat, n: nat, m: nat)
    ensures Heaped(Heaped(s, At(v), n), At(v + n), m) == Heaped(s, At(v), n + m)
  {
    hide MappedFresh, At;
    if m == 0 {
      HeapedZero(Heaped(s, At(v), n), At(v + n));
    } else {
      HeapedJoin(s, v, n, m - 1);
      HeapedStep(Heaped(s, At(v), n), At(v + n), m - 1);
      HeapedStep(s, At(v), n + m - 1);
      AtNext(v + n, m - 1);
      AtNext(v, n + m - 1);
    }
  }

  /** Allocation `k` starts where the ones before it end. */
  function Place(base: nat, lens: seq<nat>, k: nat): nat
    requires k <= |lens|
  {
    base + 0x1000 * Total(lens[..k])
  }

  method AllocateAll(a: AddressSpace, lens: seq<nat>) returns (addrs: seq<nat>)
    requires a.Valid({}) && a.heapPool == At(a.heapPool / 0x1000)
    requires var v := a.heapPool / 0x1000;
             && v + Total(lens) <= PAGE_NUMBERS && (v + Total(lens) <= a.root || a.limit <= v)
             && Heaped(a.space, At(v), Total(lens)).next <= a.limit
    modifies a, a.ram
    ensures a.Valid({}) && a.heapPool == Place(old(a.heapPool), lens, |lens|)
    ensures |addrs| == |lens| && forall k | 0 <= k < |lens| :: addrs[k] == Place(old(a.heapPool), lens, k)
    ensures a.space == Heaped(old(a.space), old(a.heapPool), Total(lens))
    // EL0 can use every byte, each page on its own frame
    ensures forall k: nat, write: bool | k < 0x1000 * Total(lens) ::
              a.OpenAt(old(a.heapPool), k, write, Backing(old(a.space), old(a.heapPool) / 0x1000, k / 0x1000))
  {
    hide Inv, Heaped, Vpn, Pages, OnlyTables, a.OpenAt, Backing, Total;
    TotalNone();
    ghost var s, v := a.space, a.heapPool / 0x1000;
    addrs := [];
    HeapedZero(s, At(v));
    assert lens[..0] == [];
    for k := 0 to |lens|
      invariant a.Valid({}) && a.heapPool == At(v + Total(lens[..k])) && |addrs| == k
      invariant a.space == Heaped(s, At(v), Total(lens[..k]))
      invariant forall j | 0 <= j < k :: addrs[j] == Place(At(v), lens, j)
    {
      TotalStep(lens, k);
      TotalGrows(lens, k + 1, |lens|);
      assert lens[..|lens|] == lens;
      HeapedJoin(s, v, Total(lens[..k]), Pages(lens[k]));
      HeapedGrows(s, At(v), Total(lens[..k + 1]), Total(lens));
      OffPages(v + Total(lens[..k]), Pages(lens[k]), a.root, a.limit);
      var addr := a.HeapAllocate(lens[k]);
      AtNext(v + Total(lens[..k]), Pages(lens[k]));
      addrs := addrs + [addr];
    }
    assert lens[..|lens|] == lens;
    a.HeapOpened(old(a.ram.words), s, At(v), Total(lens));
  }

  lemma TotalNone()
    ensures Total([]) == 0
  {
  }

  lemma OffPages(v: nat, n: nat, root: nat, limit: nat)
    requires v + n <= PAGE_NUMBERS && (v + n <= root || limit <= v)
    ensures forall j | 0 <= j < n :: !(root <= Vpn(At(v) + 0x1000 * j) < limit)
  {
    hide Vpn;
    forall j | 0 <= j < n
      ensures !(root <= Vpn(At(v) + 0x1000 * j) < limit)
    {
      AtNext(v, j);
      VpnAt(v + j);
    }
  }

  /** The frame under page `j` of allocation `k`. */
  ghost function FrameOf(s: Space, v: nat, lens: seq<nat>, k: nat, j: nat): nat
    requires k <= |lens|
  {
    Backing(s, v, Total(lens[..k]) + j)
  }

  /** Different pages of the same or of different allocations have different addresses and different frames;
      each page is mapped to its frame, which none of the frames handed out before is. */
  lemma Disjoint(s: Space, root: nat, limit: nat, v: nat, lens: seq<nat>, k: nat, i: nat, l: nat, j: nat)
    requires root <= s.next && Heaped(s, At(v), Total(lens)).next <= limit
    requires v + Total(lens) <= PAGE_NUMBERS && (v + Total(lens) <= root || limit <= v)
    requires k < |lens| && i < Pages(lens[k]) && l < |lens| && j < Pages(lens[l]) && (k != l || i != j)
    ensures var t, p, q := Heaped(s, At(v), Total(lens)), FrameOf(s, v, lens, k, i), FrameOf(s, v, lens, l, j);
            && Place(At(v), lens, k) + 0x1000 * i != Place(At(v), lens, l) + 0x1000 * j
            && p != q && s.next <= p && p in t.data
            && BackedBy(t, v + Total(lens[..k]) + i, p)
            && At(v + Total(lens[..k]) + i) == Place(At(v), lens, k) + 0x1000 * i
  {
    hide Pages, Heaped, PageWord, Backing;
    HeapPages(s, root, limit, v, Total(lens));
    var x, y := Total(lens[..k]) + i, Total(lens[..l]) + j;
    Within(lens, k, i);
    Within(lens, l, j);
    if k < l {
      TotalGrows(lens, k + 1, l);
      TotalStep(lens, k);
    } else if l < k {
      TotalGrows(lens, l + 1, k);
      TotalStep(lens, l);
    }
    assert x != y;
    DifferentFrames(s, Heaped(s, At(v), Total(lens)), v, Total(lens), x, y);
  }

  lemma Within(lens: seq<nat>, k: nat, i: nat)
    requires k < |lens| && i < Pages(lens[k])
    ensures Total(lens[..k]) + i < Total(lens)
  {
    hide Pages;
    TotalStep(lens, k);
    TotalGrows(lens, k + 1, |lens|);
    assert lens[..|lens|] == lens;
  }

  lemma DifferentFrames(s: Space, t: Space, v: nat, n: nat, x: nat, y: nat)
    requires Backed(s, t, v, n) && x < n && y < n && x != y
    ensures Backing(s, v, x) != Backing(s, v, y) && s.next <= Backing(s, v, x) && Backing(s, v, x) in t.data
    ensures BackedBy(t, v + x, Backing(s, v, x))
  {
    hide Backing, PageWord;
    if x < y {
      assert Backing(s, v, x) < Backing(s, v, y);
    } else {
      assert Backing(s, v, y) < Backing(s, v, x);
    }
  }
}
