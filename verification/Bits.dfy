/** Bitwise operations on naturals, defined bit by bit, and the arithmetic they
    amount to for the masks, shifts and disjoint fields of page-table entries,
    segment descriptors and ring indices. */
module Bits {
  function Pow2(k: nat): (p: nat)
    ensures p > 0
  {
    if k == 0 then 1 else 2 * Pow2(k - 1)
  }

  function And(a: nat, b: nat): nat {
    if a == 0 || b == 0 then 0
    else (a % 2) * (b % 2) + 2 * And(a / 2, b / 2)
  }

  function Or(a: nat, b: nat): nat
    decreases a + b
  {
    if a == 0 then b
    else if b == 0 then a
    else (if a % 2 == 1 || b % 2 == 1 then 1 else 0) + 2 * Or(a / 2, b / 2)
  }

  function Shl(a: nat, k: nat): nat { a * Pow2(k) }

  function Shr(a: nat, k: nat): nat {
    if k == 0 then a else Shr(a / 2, k - 1)
  }

  lemma MulStep(x: nat, y: nat, d: nat)
    requires x < y
    ensures x * d + d <= y * d
  {
    assert y * d == x * d + (y - x) * d;
    assert (y - x) * d == d + (y - x - 1) * d;
  }

  lemma DivModUnique(a: nat, d: nat, q: nat, r: nat)
    requires 0 <= r < d && a == q * d + r
    ensures a / d == q && a % d == r
  {
    var q', r' := a / d, a % d;
    assert a == q' * d + r' && r' < d;
    if q' < q {
      MulStep(q', q, d);
    } else if q < q' {
      MulStep(q, q', d);
    }
  }

  lemma HalveDivMod(a: nat, p: nat)
    requires p > 0
    ensures a % (2 * p) == a % 2 + 2 * ((a / 2) % p)
    ensures a / (2 * p) == (a / 2) / p
  {
    var q, r := (a / 2) / p, (a / 2) % p;
    assert a == q * (2 * p) + (a % 2 + 2 * r);
    DivModUnique(a, 2 * p, q, a % 2 + 2 * r);
  }

  lemma {:induction false} ShrIsDiv(a: nat, k: nat)
    ensures Shr(a, k) == a / Pow2(k)
  {
    if k > 0 {
      ShrIsDiv(a / 2, k - 1);
      HalveDivMod(a, Pow2(k - 1));
    }
  }

  lemma {:induction false} Pow2Monotone(lo: nat, hi: nat)
    requires lo <= hi
    ensures Pow2(lo) <= Pow2(hi)
    decreases hi
  {
    if lo < hi {
      Pow2Monotone(lo, hi - 1);
    }
  }

  /** `a & (2^k - 1)` is the remainder modulo `2^k`. */
  lemma {:induction false} AndLowMask(a: nat, k: nat)
    ensures And(a, Pow2(k) - 1) == a % Pow2(k)
  {
    if k > 0 {
      AndLowMask(a / 2, k - 1);
      HalveDivMod(a, Pow2(k - 1));
      AndOdd(a, Pow2(k - 1) - 1);
    }
  }

  lemma AndOdd(a: nat, m: nat)
    ensures And(a, 2 * m + 1) == a % 2 + 2 * And(a / 2, m)
  {
    assert (2 * m + 1) / 2 == m && (2 * m + 1) % 2 == 1;
  }

  lemma AndEven(a: nat, m: nat)
    ensures And(a, 2 * m) == 2 * And(a / 2, m)
  {
    assert (2 * m) / 2 == m && (2 * m) % 2 == 0;
  }

  /** Masking with ones in bits `lo..hi` keeps exactly that field. */
  lemma {:induction false} AndField(a: nat, lo: nat, hi: nat)
    requires lo <= hi
    ensures Pow2(lo) <= Pow2(hi)
    ensures And(a, Pow2(hi) - Pow2(lo)) == a % Pow2(hi) - a % Pow2(lo)
    decreases lo
  {
    Pow2Monotone(lo, hi);
    if lo == 0 {
      AndLowMask(a, hi);
    } else {
      AndField(a / 2, lo - 1, hi - 1);
      Pow2Monotone(lo - 1, hi - 1);
      AndEven(a, Pow2(hi - 1) - Pow2(lo - 1));
      HalveDivMod(a, Pow2(hi - 1));
      HalveDivMod(a, Pow2(lo - 1));
    }
  }

  /** A number with `k` zero low bits joined with one below `2^k` is their sum. */
  lemma {:induction false} OrDisjoint(a: nat, b: nat, k: nat)
    requires a % Pow2(k) == 0 && b < Pow2(k)
    ensures Or(a, b) == a + b
    decreases k
  {
    if a != 0 && b != 0 {
      HalveDivMod(a, Pow2(k - 1));
      OrDisjoint(a / 2, b / 2, k - 1);
    }
  }

  lemma {:induction false} OrCommutes(a: nat, b: nat)
    ensures Or(a, b) == Or(b, a)
    decreases a + b
  {
    if a != 0 && b != 0 {
      OrCommutes(a / 2, b / 2);
    }
  }

  lemma SmallPowers()
    ensures Pow2(1) == 2 && Pow2(2) == 4 && Pow2(3) == 8 && Pow2(4) == 0x10
    ensures Pow2(7) == 0x80 && Pow2(8) == 0x100 && Pow2(9) == 0x200
  {
    PowAdd(4, 3);
    PowAdd(4, 4);
    PowAdd(8, 1);
  }

  /** The powers of two the page tables and descriptors use, as literals. */
  lemma Powers()
    ensures Pow2(1) == 2 && Pow2(2) == 4 && Pow2(3) == 8 && Pow2(4) == 0x10
    ensures Pow2(7) == 0x80 && Pow2(8) == 0x100 && Pow2(9) == 0x200
    ensures Pow2(12) == 0x1000 && Pow2(16) == 0x1_0000 && Pow2(17) == 0x2_0000
    ensures Pow2(21) == 0x20_0000 && Pow2(24) == 0x100_0000
    ensures Pow2(30) == 0x4000_0000 && Pow2(32) == 0x1_0000_0000
    ensures Pow2(39) == 0x80_0000_0000 && Pow2(40) == 0x100_0000_0000
    ensures Pow2(44) == 0x1000_0000_0000 && Pow2(48) == 0x1_0000_0000_0000
    ensures Pow2(52) == 0x10_0000_0000_0000
    ensures Pow2(56) == 0x100_0000_0000_0000
    ensures Pow2(64) == 0x1_0000_0000_0000_0000
  {
    SmallPowers();
    hide Pow2;
    PowAdd(8, 4); PowAdd(8, 8); PowAdd(9, 8); PowAdd(12, 9); PowAdd(12, 12);
    PowAdd(21, 9); PowAdd(16, 16); PowAdd(30, 9); PowAdd(32, 8); PowAdd(32, 12);
    PowAdd(32, 16); PowAdd(40, 12); PowAdd(48, 8); PowAdd(32, 32);
  }

  lemma {:induction false} PowAdd(a: nat, b: nat)
    ensures Pow2(a + b) == Pow2(a) * Pow2(b)
    decreases b
  {
    if b > 0 {
      PowAdd(a, b - 1);
    }
  }

  lemma {:induction false} OrBound(a: nat, b: nat, k: nat)
    requires a < Pow2(k) && b < Pow2(k)
    ensures Or(a, b) < Pow2(k)
    decreases k
  {
    if a != 0 && b != 0 {
      OrBound(a / 2, b / 2, k - 1);
    }
  }

  /** A nine-bit table index out of an address. */
  lemma IndexField(a: nat, k: nat)
    ensures And(Shr(a, k), 0x1FF) == a / Pow2(k) % 0x200
  {
    SmallPowers();
    ShrIsDiv(a, k);
    AndLowMask(a / Pow2(k), 9);
  }

  /** A single bit. */
  lemma {:induction false} AndBit(a: nat, k: nat)
    ensures And(a, Pow2(k)) == Pow2(k) * ((a / Pow2(k)) % 2)
  {
    if k == 0 {
      assert And(a, 1) == a % 2 + 2 * And(a / 2, 0);
    } else {
      AndEven(a, Pow2(k - 1));
      AndBit(a / 2, k - 1);
      HalveDivMod(a, Pow2(k - 1));
    }
  }

  /** Joining flags into a number whose low `k` bits already hold other flags. */
  lemma {:induction false} OrSplit(a: nat, x: nat, y: nat, k: nat)
    requires a % Pow2(k) == 0 && x < Pow2(k) && y < Pow2(k)
    ensures Or(a + x, y) == a + Or(x, y)
    decreases k
  {
    if k > 0 {
      HalveDivMod(a, Pow2(k - 1));
      assert (a + x) / 2 == a / 2 + x / 2 && (a + x) % 2 == x % 2;
      if x != 0 && y != 0 {
        OrSplit(a / 2, x / 2, y / 2, k - 1);
      } else if y != 0 && a != 0 {
        OrDisjoint(a, y, k);
      }
    } else {
      assert x == 0 && y == 0;
    }
  }
}
