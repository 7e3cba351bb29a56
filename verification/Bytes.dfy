/** Bytes of 64-bit memory words, and what a byte store to a data frame keeps. */
module Bytes {
  import opened Bits
  import opened TableTree

  /** Byte `j` of a word, lowest first. */
  function Byte(w: nat, j: nat): nat {
    Low(Shr(w, 8 * j), 8)
  }

  function SetByte(w: nat, j: nat, b: nat): nat {
    Shl(Shr(w, 8 * j + 8), 8 * j + 8) + (Shl(b, 8 * j) + Low(w, 8 * j))
  }

  lemma Shl8()
    ensures Shl(1, 8) == 0x100
  {
    Shl3(1);
    Shl3(8);
    ShlShl(1, 3, 3);
    ShlShl(1, 6, 2);
    assert Shl(64, 1) == 128;
    assert Shl(64, 2) == 2 * Shl(64, 1);
  }

  lemma {:induction false} ShlSum(a: nat, b: nat, k: nat)
    ensures Shl(a + b, k) == Shl(a, k) + Shl(b, k)
  {
    if k > 0 {
      ShlSum(a, b, k - 1);
    }
  }

  lemma ShlBound(b: nat, r: nat, k: nat)
    requires b < 0x100 && r < Shl(1, k)
    ensures Shl(b, k) + r < Shl(1, k + 8)
  {
    Shl8();
    Parts(b, r, k);
    SplitAt(b, 8);
    ShrShr(Shl(b, k) + r, k, 8);
    SplitAt(Shl(b, k) + r, k + 8);
  }

  /** A byte depends only on the bits below its end. */
  lemma ByteOfLow(w: nat, i: nat, k: nat)
    requires 8 * i + 8 <= k
    ensures Byte(w, i) == Low(Shr(Low(w, k), 8 * i), 8)
  {
    var m := k - 8 * i;
    ShrLow(w, 8 * i, m);
    LowLow(Shr(w, 8 * i), 8, m - 8);
  }

  lemma SetByteReads(w: nat, j: nat, b: nat, i: nat)
    requires b < 0x100
    ensures Byte(SetByte(w, j, b), i) == if i == j then b else Byte(w, i)
  {
    hide Shr, Low, Shl;
    var k := 8 * j;
    var q, r := Shr(w, k + 8), Low(w, k);
    var x := SetByte(w, j, b);
    SplitAt(w, k);
    ShlBound(b, r, k);
    Parts(q, Shl(b, k) + r, k + 8);
    if i == j {
      ShlShl(q, 8, k);
      ShlSum(Shl(q, 8), b, k);
      Parts(Shl(q, 8) + b, r, k);
      Shl8();
      Parts(q, b, 8);
    } else if i > j {
      ShrShr(x, k + 8, 8 * (i - j - 1));
      ShrShr(w, k + 8, 8 * (i - j - 1));
    } else {
      LowLow(x, k, 8);
      Parts(b, r, k);
      assert Low(x, k) == Low(w, k);
      ByteOfLow(x, i, k);
      ByteOfLow(w, i, k);
    }
  }

  /** Byte `o` of the page frame `f`. */
  function FrameByte(mem: seq<nat>, f: nat, o: nat): nat {
    Byte(Entry(mem, f, o / 8), o % 8)
  }

  lemma ByteSmall(mem: seq<nat>, f: nat, o: nat)
    ensures FrameByte(mem, f, o) < 0x100
  {
    hide Shr, Low, Shl;
    Shl8();
    SplitAt(Shr(Entry(mem, f, o / 8), 8 * (o % 8)), 8);
  }

  ghost predicate SameFrame(mem: seq<nat>, mem': seq<nat>, f: nat) {
    forall i | 0 <= i < 512 :: Entry(mem', f, i) == Entry(mem, f, i)
  }

  lemma SameBytes(mem: seq<nat>, mem': seq<nat>, f: nat, o: nat)
    requires SameFrame(mem, mem', f) && o < 0x1000
    ensures FrameByte(mem', f, o) == FrameByte(mem, f, o)
  {
    hide Byte;
    assert Entry(mem', f, o / 8) == Entry(mem, f, o / 8);
  }

  /** One byte of one frame changes. */
  ghost predicate WritesByte(mem: seq<nat>, mem': seq<nat>, f: nat, o: nat, b: nat) {
    && |mem'| == |mem|
    && (forall g | g != f :: SameFrame(mem, mem', g))
    && (forall p | 0 <= p < 0x1000 :: FrameByte(mem', f, p) == if p == o then b else FrameByte(mem, f, p))
  }

  lemma StoredByte(mem: seq<nat>, mem': seq<nat>, f: nat, o: nat, b: nat)
    requires o < 0x1000 && b < 0x100 && 512 * f + o / 8 < |mem|
    requires mem' == mem[512 * f + o / 8 := SetByte(Entry(mem, f, o / 8), o % 8, b)]
    ensures WritesByte(mem, mem', f, o, b)
    ensures WritesOne(mem, mem', f, o / 8, SetByte(Entry(mem, f, o / 8), o % 8, b))
  {
    hide Byte, SetByte;
    var w := SetByte(Entry(mem, f, o / 8), o % 8, b);
    WriteEntry(mem, f, o / 8, w);
    forall p | 0 <= p < 0x1000
      ensures FrameByte(mem', f, p) == if p == o then b else FrameByte(mem, f, p)
    {
      SetByteReads(Entry(mem, f, o / 8), o % 8, b, p % 8);
    }
    forall g | g != f
      ensures SameFrame(mem, mem', g)
    {
      forall i | 0 <= i < 512
        ensures Entry(mem', g, i) == Entry(mem, g, i)
      {
        EntryUpdated(mem, f, o / 8, w, g, i);
      }
    }
  }

  /** Writing to a data frame touches neither the tables nor the free pool. */
  lemma DataStoreKeepsInv(mem: seq<nat>, mem': seq<nat>, s: Space, root: nat, limit: nat, taken: set<nat>,
                          f: nat, i: nat, w: nat)
    requires Inv(mem, s, root, limit, taken)
    requires f in s.data && i < 512 && WritesOne(mem, mem', f, i, w)
    ensures Inv(mem', s, root, limit, taken)
  {
    hide Shr, Low, Or, Shl, Bit;
    forall g | s.next <= g < limit || g in taken
      ensures ZeroFrame(mem', g)
    {
      assert ZeroFrame(mem, g);
    }
    forall k, j | k in s.tables && 0 <= j < 512
      ensures EntryMatches(s, k, j, Entry(mem', s.tables[k], j))
    {
      assert s.tables[k] in s.tables.Values;
      assert EntryMatches(s, k, j, Entry(mem, s.tables[k], j));
    }
  }
}
