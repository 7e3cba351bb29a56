/** What a heap allocation hands out: distinct fresh frames under consecutive pages, and how much of
    the pool it consumes. */
module Heap {
  import opened Bits
  import opened Vmsa
  import opened TableTree

  /** The address of page number `v`. */
  function At(v: nat): nat {
    0x1000 * v
  }

  const PAGE_NUMBERS := 0x10_0000_0000  // 36-bit page numbers

  lemma Shl36()
    ensures Shl(1, 36) == PAGE_NUMBERS
  {
    ShiftPage(1);
    ShiftPage(0x1000);
    ShiftPage(0x100_0000);
    ShlShl(1, 12, 12);
    ShlShl(1, 24, 12);
  }

  lemma VpnAt(v: nat)
    requires v < PAGE_NUMBERS
    ensures Vpn(At(v)) == v
  {
    ShiftPage(v);
    ShlBits(v, 12, 0);
    Shl36();
    SplitAt(v, 36);
    ShlZero(36);
  }

  lemma AtIs(v: nat)
    ensures At(v) == 0x1000 * v
  {
  }

  lemma VpnAtOffset(v: nat, o: nat)
    requires v < PAGE_NUMBERS && o < 0x1000
    ensures Vpn(At(v) + o) == v && Shr(At(v) + o, 48) == 0
  {
    hide Shr, Low, Shl;
    ShiftPage(v);
    ShiftPage(1);
    Parts(v, o, 12);
    Shl36();
    SplitAt(v, 36);
    ShlZero(36);
    ShrShr(At(v) + o, 12, 36);
  }

  lemma Writable(w: nat)
    requires HwWritable(w)
    ensures HwReadable(w)
  {
  }

  lemma InvTree(mem: seq<nat>, s: Space, root: nat, limit: nat, taken: set<nat>)
    requires Inv(mem, s, root, limit, taken)
    ensures Tree(s, root) && Represents(mem, s)
    ensures 512 * limit <= |mem| && root < limit <= FRAMES && root < s.next
  {
  }

  /** A byte of a writable page that is open to EL0, for EL1 and for EL0. */
  lemma UserReached(mem: seq<nat>, s: Space, root: nat, v: nat, o: nat, write: bool)
    requires Tree(s, root) && Represents(mem, s) && v < PAGE_NUMBERS && o < 0x1000
    requires v in s.flat && HwWritable(s.flat[v]) && HwUser(s.flat[v])
    ensures Translate(mem, root, At(v) + o, write) == Some(0x1000 * Frame(s.flat[v]) + o)
    ensures TranslateEl0(mem, root, At(v) + o, write) == Some(0x1000 * Frame(s.flat[v]) + o)
  {
    hide Shr, Low, Or, Shl, Bit, Vpn, Frame, HwReadable, HwWritable, HwUser, Translate, TranslateEl0;
    VpnAtOffset(v, o);
    Writable(s.flat[v]);
    TranslateIsFlat(mem, s, root, At(v) + o, write);
    TranslateEl0IsFlat(mem, s, root, At(v) + o, write);
    assert (At(v) + o) % 0x1000 == o;
  }

  /** The table prefixes on the way to page `v`. */
  function Prefix(v: nat, level: nat): nat
    requires 1 <= level <= 3
  {
    if level == 3 then v / 512 else if level == 2 then v / 512 / 512 else v / 512 / 512 / 512
  }

  lemma PathAt(v: nat)
    requires v < PAGE_NUMBERS
    ensures Path(At(v), 3) == Node(3, Prefix(v, 3))
    ensures Path(At(v), 2) == Node(2, Prefix(v, 2))
    ensures Path(At(v), 1) == Node(1, Prefix(v, 1))
  {
    hide Shr, Low, Vpn, Index, Path;
    VpnAt(v);
    PathEnds(At(v));
    PathStep(At(v), 2);
    PathStep(At(v), 1);
  }

  // ---------- pages ----------

  /** The frame that backs page `j` of the allocation. */
  ghost function Backing(s: Space, v: nat, j: nat): nat {
    Heaped(s, At(v), j).next
  }

  /** One page: its frame is the allocator's next one, and no other page outside the pool changes. */
  lemma FreshPage(s: Space, root: nat, limit: nat, va: nat)
    requires root <= s.next && MappedFresh(s, va, PTE_USER_RW).next <= limit
    ensures var t := MappedFresh(s, va, PTE_USER_RW);
            && t.data == s.data + {s.next} && s.next < t.next
            && Vpn(va) in t.flat && t.flat[Vpn(va)] == PageWord(0x1000 * s.next, PTE_USER_RW)
            && (forall v | v != Vpn(va) && !(root <= v < limit) ::
                  (v in t.flat <==> v in s.flat) && (v in s.flat ==> t.flat[v] == s.flat[v]))
  {
    hide Shr, Low, Path, PageWord, Vpn;
    GrownCounts(Claimed(s), va, 3);
    GrownFlat(Claimed(s), va, 3);
  }

  lemma {:induction false} GrownFlat(s: Space, va: nat, level: nat)
    requires level <= 3
    ensures forall v :: !(s.next <= v < Grown(s, va, level).next) ==>
              (v in Grown(s, va, level).flat <==> v in s.flat) &&
                  (v in s.flat ==> Grown(s, va, level).flat[v] == s.flat[v])
  {
    hide Path, PageWord;
    if level > 0 {
      GrownCounts(s, va, level);
      GrownCounts(s, va, level - 1);
      GrownFlat(s, va, level - 1);
    }
  }

  ghost predicate BackedBy(t: Space, v: nat, f: nat) {
    v in t.flat && t.flat[v] == PageWord(0x1000 * f, PTE_USER_RW)
  }

  /** The first `n` pages from `v` on have their own frames, which ascend and are the data frames added. */
  ghost predicate Backed(s: Space, t: Space, v: nat, n: nat) {
    && s.next <= t.next
    && (forall j: nat | j < n :: BackedBy(t, v + j, Backing(s, v, j)) && s.next <= Backing(s, v, j) < t.next)
    && (forall i: nat, j: nat | i < j < n :: Backing(s, v, i) < Backing(s, v, j))
    && t.data == s.data + set j: nat | j < n :: Backing(s, v, j)
  }

  /** Pages outside the range and outside the pool are as they were. */
  ghost predicate KeptOutside(s: Space, t: Space, v: nat, n: nat, root: nat, limit: nat) {
    forall w: nat | !(v <= w < v + n) && !(root <= w < limit) ::
      (w in t.flat <==> w in s.flat) && (w in s.flat ==> t.flat[w] == s.flat[w])
  }

  lemma OneMoreBacked(s: Space, t: Space, u: Space, v: nat, n: nat, root: nat, limit: nat)
    requires Backed(s, t, v, n) && Backing(s, v, n) == t.next
    requires u.next > t.next && u.data == t.data + {t.next} && BackedBy(u, v + n, t.next)
    requires v + n < root || limit <= v
    requires KeptOutside(t, u, v + n, 1, root, limit)
    ensures Backed(s, u, v, n + 1)
  {
    hide Backing, PageWord;
    var fs := set j: nat | j < n :: Backing(s, v, j);
    assert (set j: nat | j < n + 1 :: Backing(s, v, j)) == fs + {t.next};
    forall j: nat | j < n + 1
      ensures BackedBy(u, v + j, Backing(s, v, j)) && s.next <= Backing(s, v, j) < u.next
    {
      assert j < n ==> BackedBy(t, v + j, Backing(s, v, j));
    }
    forall i: nat, j: nat | i < j < n + 1
      ensures Backing(s, v, i) < Backing(s, v, j)
    {
      assert BackedBy(t, v + i, Backing(s, v, i));
    }
  }

  /** Every page of the allocation is mapped to its own fresh frame, the frames ascend, they are the
      data frames added, and all other pages outside the pool stay as they were. */
  lemma {:induction false} HeapPages(s: Space, root: nat, limit: nat, v: nat, n: nat)
    requires root <= s.next && Heaped(s, At(v), n).next <= limit
    requires v + n <= PAGE_NUMBERS
    requires v + n <= root || limit <= v
    ensures Backed(s, Heaped(s, At(v), n), v, n)
    ensures KeptOutside(s, Heaped(s, At(v), n), v, n, root, limit)
  {
    hide Shr, Low, Path, PageWord, Vpn, MappedFresh, Backed, At;
    if n == 0 {
      NothingBacked(s, v);
    } else {
      var t := Heaped(s, At(v), n - 1);
      AtNext(v, n - 1);
      FreshKeepsTables(t, At(v + n - 1), PTE_USER_RW);
      HeapPages(s, root, limit, v, n - 1);
      BackedNext(s, t, v, n - 1);
      FreshPage(t, root, limit, At(v + n - 1));
      VpnAt(v + n - 1);
      OneMoreBacked(s, t, Heaped(s, At(v), n), v, n - 1, root, limit);
    }
  }

  lemma NothingBacked(s: Space, v: nat)
    ensures Backed(s, Heaped(s, At(v), 0), v, 0)
  {
  }

  lemma AtNext(v: nat, n: nat)
    ensures At(v) + 0x1000 * n == At(v + n)
  {
  }

  lemma BackedNext(s: Space, t: Space, v: nat, n: nat)
    requires Backed(s, t, v, n)
    ensures s.next <= t.next
  {
  }

  /** Every byte of the allocation is open to EL0, for loads and stores, at its page's own frame. */
  lemma HeapUsable(mem: seq<nat>, s: Space, root: nat, limit: nat, v: nat, n: nat, k: nat, write: bool)
    requires root <= s.next && Heaped(s, At(v), n).next <= limit && v + n <= PAGE_NUMBERS
    requires v + n <= root || limit <= v
    requires Inv(mem, Heaped(s, At(v), n), root, limit, {}) && k < 0x1000 * n
    ensures TranslateEl0(mem, root, At(v) + k, write) == Some(0x1000 * Backing(s, v, k / 0x1000) + k % 0x1000)
    ensures Translate(mem, root, At(v) + k, write) == Some(0x1000 * Backing(s, v, k / 0x1000) + k % 0x1000)
  {
    hide Inv, Heaped, Backing, PageWord, Frame, HwWritable, HwUser, Translate, TranslateEl0, KeptOutside;
    var t, j := Heaped(s, At(v), n), k / 0x1000;
    HeapPages(s, root, limit, v, n);
    assert BackedBy(t, v + j, Backing(s, v, j));
    InvTree(mem, t, root, limit, {});
    UserPage(Backing(s, v, j));
    AtNext(v, j);
    assert At(v) + k == At(v + j) + k % 0x1000;
    UserReached(mem, t, root, v + j, k % 0x1000, write);
  }

  lemma HeapedZero(s: Space, va: nat)
    ensures Heaped(s, va, 0) == s
  {
  }

  lemma HeapedStep(s: Space, va: nat, n: nat)
    ensures Heaped(s, va, n + 1) == MappedFresh(Heaped(s, va, n), va + 0x1000 * n, PTE_USER_RW)
  {
  }

  // ---------- pool consumption ----------

  /** Tables that the allocation adds at one level. */
  ghost function Added(s: Space, v: nat, n: nat, level: nat): nat
    requires 1 <= level <= 3
  {
    if n == 0 then 0
    else Added(s, v, n - 1, level) + Gap(Heaped(s, At(v), n - 1), At(v + n - 1), level)
  }

  lemma MissingByLevel(s: Space, va: nat)
    ensures Missing(s, va, 3) == Gap(s, va, 1) + Gap(s, va, 2) + Gap(s, va, 3)
  {
    hide Path;
    assert Missing(s, va, 1) == Gap(s, va, 1);
    assert Missing(s, va, 2) == Missing(s, va, 1) + Gap(s, va, 2);
  }

  function Gap(s: Space, va: nat, level: nat): nat
    requires level <= 3
  {
    if Path(va, level) in s.tables then 0 else 1
  }

  lemma PageConsumption(t: Space, va: nat)
    ensures MappedFresh(t, va, PTE_USER_RW).next == t.next + 1 + Gap(t, va, 1) + Gap(t, va, 2) + Gap(t, va, 3)
  {
    hide Path, PageWord, Vpn, Grown;
    GrownCounts(Claimed(t), va, 3);
    MissingByLevel(Claimed(t), va);
  }

  /** Pool pages consumed are the pages plus the new tables. */
  lemma {:induction false} Consumption(s: Space, v: nat, n: nat)
    ensures Heaped(s, At(v), n).next ==
            s.next + n + Added(s, v, n, 1) + Added(s, v, n, 2) + Added(s, v, n, 3)
  {
    hide Gap, MappedFresh;
    if n > 0 {
      assert At(v) + 0x1000 * (n - 1) == At(v + n - 1);
      Consumption(s, v, n - 1);
      PageConsumption(Heaped(s, At(v), n - 1), At(v + n - 1));
    }
  }

  lemma PrefixStep(v: nat, level: nat)
    requires 1 <= level <= 3
    ensures Prefix(v, level) <= Prefix(v + 1, level) <= Prefix(v, level) + 1
  {
    assert v / 512 <= (v + 1) / 512 <= v / 512 + 1;
  }

  lemma PathOnWay(t: Space, va: nat, level: nat)
    requires 1 <= level <= 3
    ensures Path(va, level) in MappedFresh(t, va, PTE_USER_RW).tables
  {
    hide Path, PageWord, Vpn, Grown;
    GrownCounts(Claimed(t), va, 3);
  }

  /** A level gains at most one table for each table-sized stretch that the pages touch. */
  lemma {:induction false} AddedBound(s: Space, v: nat, n: nat, level: nat)
    requires 1 <= level <= 3 && n > 0 && v + n <= PAGE_NUMBERS
    ensures Path(At(v + n - 1), level) in Heaped(s, At(v), n).tables
    ensures Added(s, v, n, level) <= Prefix(v + n - 1, level) - Prefix(v, level) + 1
  {
    hide Path, MappedFresh, Prefix;
    assert At(v) + 0x1000 * (n - 1) == At(v + n - 1);
    PathOnWay(Heaped(s, At(v), n - 1), At(v + n - 1), level);
    if n > 1 {
      AddedBound(s, v, n - 1, level);
      PathAt(v + n - 1);
      PathAt(v + n - 2);
      PrefixStep(v + n - 2, level);
    } else {
      assert Added(s, v, 0, level) == 0;
    }
  }

  /** The pool pages an allocation of `n` pages can take at most. */
  function Most(n: nat): nat {
    n + (Ceil(n, 512) + 1) + (Ceil(n, 0x4_0000) + 1) + (Ceil(n, 0x800_0000) + 1)
  }

  lemma SumDiv(a: nat, b: nat)
    ensures (a + b) / 512 <= a / 512 + b / 512 + 1
    ensures (a + b + 1) / 512 <= a / 512 + b / 512 + 1
  {
  }

  lemma DivTwice(x: nat)
    ensures x / 512 / 512 == x / 0x4_0000
  {
  }

  lemma DivThrice(x: nat)
    ensures x / 512 / 512 / 512 == x / 0x800_0000
  {
    DivTwice(x);
    assert x / 0x4_0000 / 512 == x / 0x800_0000;
  }

  lemma DivMono(a: nat, b: nat)
    requires a <= b
    ensures a / 512 <= b / 512
  {
  }

  lemma PrefixSpan(v: nat, m: nat)
    ensures Prefix(v + m, 3) <= Prefix(v, 3) + m / 512 + 1
    ensures Prefix(v + m, 2) <= Prefix(v, 2) + m / 0x4_0000 + 1
    ensures Prefix(v + m, 1) <= Prefix(v, 1) + m / 0x800_0000 + 1
  {
    hide *;
    var a, b := v / 512, m / 512;
    SumDiv(v, m);
    SumDiv(a, b);
    SumDiv(a / 512, b / 512);
    DivMono((v + m) / 512, a + b + 1);
    DivMono((v + m) / 512 / 512, (a + b + 1) / 512);
    DivMono((v + m) / 512 / 512, a / 512 + b / 512 + 1);
    DivTwice(m);
    DivThrice(m);
    PrefixValues(v);
    PrefixValues(v + m);
  }

  lemma PrefixValues(v: nat)
    ensures Prefix(v, 3) == v / 512 && Prefix(v, 2) == v / 512 / 512 && Prefix(v, 1) == v / 512 / 512 / 512
  {
  }

  lemma HeapFits(s: Space, v: nat, n: nat)
    requires v + n <= PAGE_NUMBERS
    ensures s.next + n <= Heaped(s, At(v), n).next <= s.next + Most(n)
  {
    hide Path, Heaped, Prefix, Added;
    Consumption(s, v, n);
    if n > 0 {
      AddedBound(s, v, n, 1);
      AddedBound(s, v, n, 2);
      AddedBound(s, v, n, 3);
      PrefixSpan(v, n - 1);
    } else {
      NoneAdded(s, v);
    }
  }

  lemma NoneAdded(s: Space, v: nat)
    ensures Heaped(s, At(v), 0).next == s.next
  {
  }
}
