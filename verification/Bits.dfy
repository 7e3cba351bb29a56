/** Bit operations on natural numbers, as descriptor arithmetic needs them. */
module Bits {

  /** x >> k */
  function Shr(x: nat, k: nat): nat {
    if k == 0 then x else Shr(x / 2, k - 1)
  }

  /** x << k */
  function Shl(x: nat, k: nat): nat {
    if k == 0 then x else 2 * Shl(x, k - 1)
  }

  /** The low k bits of x: x & ((1 << k) - 1) */
  function Low(x: nat, k: nat): nat {
    if k == 0 then 0 else x % 2 + 2 * Low(x / 2, k - 1)
  }

  /** a | b */
  function Or(a: nat, b: nat): nat
    decreases a + b
  {
    if a == 0 then b
    else if b == 0 then a
    else 2 * Or(a / 2, b / 2) + (if a % 2 == 1 || b % 2 == 1 then 1 else 0)
  }

  function Bit(x: nat, k: nat): (b: nat)
    ensures b < 2
  {
    Shr(x, k) % 2
  }

  lemma OrStep(a: nat, b: nat)
    ensures Or(a, b) / 2 == Or(a / 2, b / 2)
    ensures Or(a, b) % 2 == if a % 2 == 1 || b % 2 == 1 then 1 else 0
  {
  }

  /** Or never carries: each bit of the result comes from the same bits of the operands. */
  lemma {:induction false} OrShr(a: nat, b: nat, k: nat)
    ensures Shr(Or(a, b), k) == Or(Shr(a, k), Shr(b, k))
    ensures Bit(Or(a, b), k) == if Bit(a, k) == 1 || Bit(b, k) == 1 then 1 else 0
  {
    OrStep(a, b);
    if k > 0 {
      OrShr(a / 2, b / 2, k - 1);
    }
  }

  /** Or-ing low bits into an aligned value adds them. */
  lemma {:induction false} OrAligned(q: nat, b: nat, k: nat)
    requires Shr(b, k) == 0
    ensures Or(Shl(q, k), b) == Shl(q, k) + b
  {
    if k > 0 {
      OrAligned(q, b / 2, k - 1);
      OrStep(Shl(q, k), b);
    }
  }

  lemma {:induction false} ShrShr(x: nat, a: nat, b: nat)
    ensures Shr(Shr(x, a), b) == Shr(x, a + b)
  {
    if a > 0 {
      ShrShr(x / 2, a - 1, b);
    }
  }

  lemma {:induction false} ShrLow(x: nat, a: nat, b: nat)
    ensures Shr(Low(x, a + b), a) == Low(Shr(x, a), b)
  {
    if a > 0 {
      ShrLow(x / 2, a - 1, b);
    }
  }

  lemma {:induction false} LowLow(x: nat, a: nat, b: nat)
    ensures Low(Low(x, a + b), a) == Low(x, a)
  {
    if a > 0 {
      LowLow(x / 2, a - 1, b);
    }
  }

  lemma {:induction false} ShlBits(q: nat, k: nat, j: nat)
    requires j < k
    ensures Shr(Shl(q, k), k) == q
    ensures Bit(Shl(q, k), j) == 0
  {
    if j > 0 {
      ShlBits(q, k - 1, j - 1);
    } else if k > 1 {
      ShlBits(q, k - 1, 0);
    }
  }

  /** Splitting a number at bit k, and the width of its low part. */
  lemma {:induction false} SplitAt(x: nat, k: nat)
    ensures x == Shl(Shr(x, k), k) + Low(x, k)
    ensures Low(x, k) < Shl(1, k)
    ensures x < Shl(1, k) <==> Shr(x, k) == 0
  {
    if k > 0 {
      SplitAt(x / 2, k - 1);
      ShrShr(x, 1, k - 1);
    }
  }

  /** The two parts determine the number, and are determined by it. */
  lemma {:induction false} Parts(q: nat, r: nat, k: nat)
    requires r < Shl(1, k)
    ensures Shr(Shl(q, k) + r, k) == q && Low(Shl(q, k) + r, k) == r
  {
    if k > 0 {
      var x := Shl(q, k) + r;
      assert x / 2 == Shl(q, k - 1) + r / 2 && x % 2 == r % 2;
      Parts(q, r / 2, k - 1);
    }
  }

  // ---------- the shifts used with pages and tables, as arithmetic ----------

  lemma ShiftPage(x: nat)
    ensures Shl(x, 12) == 0x1000 * x
    ensures Shl(x, 9) == 512 * x
  {
    Shl3(x);
    Shl3(8 * x);
    Shl3(64 * x);
    Shl3(512 * x);
    ShlShl(x, 3, 3);
    ShlShl(x, 6, 3);
    ShlShl(x, 9, 3);
  }

  lemma Shl3(x: nat)
    ensures Shl(x, 3) == 8 * x
  {
    assert Shl(x, 1) == 2 * x;
    assert Shl(x, 2) == 2 * Shl(x, 1);
    assert Shl(x, 3) == 2 * Shl(x, 2);
  }

  lemma {:induction false} ShlShl(x: nat, a: nat, b: nat)
    ensures Shl(Shl(x, a), b) == Shl(x, a + b)
  {
    if b > 0 {
      ShlShl(x, a, b - 1);
    }
  }

  lemma {:induction false} ShlZero(k: nat)
    ensures Shl(0, k) == 0
  {
    if k > 0 {
      ShlZero(k - 1);
    }
  }
}
