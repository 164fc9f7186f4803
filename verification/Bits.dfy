/** 32-bit words as natural numbers: their range, bits, masks and powers of two; and the page size. */
module Bits {

  const WORD: nat := 0x1_0000_0000
  const PAGE: nat := 4096
  const KERNEL_BASE: nat := 0xC000_0000

  function Pow2(k: nat): (r: nat)
    ensures r > 0
  {
    if k == 0 then 1 else 2 * Pow2(k - 1)
  }

  /** Bit i of x. */
  predicate Bit(x: nat, i: nat)
    decreases i
  {
    if i == 0 then x % 2 == 1 else Bit(x / 2, i - 1)
  }

  function And(x: nat, y: nat): nat
    decreases x
  {
    if x == 0 || y == 0 then 0 else 2 * And(x / 2, y / 2) + (x % 2) * (y % 2)
  }

  function Or(x: nat, y: nat): nat
    decreases x
  {
    if x == 0 then y else 2 * Or(x / 2, y / 2) + if x % 2 == 1 || y % 2 == 1 then 1 else 0
  }

  lemma {:induction false} ZeroBit(i: nat)
    ensures !Bit(0, i)
    decreases i
  {
    if i > 0 { ZeroBit(i - 1); }
  }

  /** Bit i is the i-th binary digit. */
  lemma {:induction false} BitIs(x: nat, i: nat)
    ensures Bit(x, i) <==> x / Pow2(i) % 2 == 1
    decreases i
  {
    if i > 0 {
      BitIs(x / 2, i - 1);
      TwoQuotients(x, Pow2(i - 1));
    }
  }

  lemma TwoQuotients(x: nat, d: nat)
    requires d > 0
    ensures x / 2 / d == x / (2 * d)
  {
    var q := x / 2 / d;
    assert x / 2 < (q + 1) * d && q * d <= x / 2;
    assert q * (2 * d) <= x < (q + 1) * (2 * d);
    DivIs(x, 2 * d, q);
  }

  lemma {:induction false} AndBit(x: nat, y: nat, i: nat)
    ensures Bit(And(x, y), i) <==> Bit(x, i) && Bit(y, i)
    decreases i
  {
    ZeroBit(i);
    if x != 0 && y != 0 {
      assert And(x, y) / 2 == And(x / 2, y / 2);
      if i > 0 { AndBit(x / 2, y / 2, i - 1); }
    }
  }

  lemma {:induction false} OrBit(x: nat, y: nat, i: nat)
    ensures Bit(Or(x, y), i) <==> Bit(x, i) || Bit(y, i)
    decreases i
  {
    ZeroBit(i);
    if x != 0 {
      assert Or(x, y) / 2 == Or(x / 2, y / 2);
      if i > 0 { OrBit(x / 2, y / 2, i - 1); }
    }
  }

  lemma {:induction false} Pow2Bit(b: nat, i: nat)
    ensures Bit(Pow2(b), i) <==> i == b
    decreases i
  {
    if b == 0 {
      if i > 0 { ZeroBit(i - 1); }
    } else if i > 0 {
      Pow2Bit(b - 1, i - 1);
    }
  }

  /** The complement, in n bits. */
  lemma {:induction false} NotBit(x: nat, n: nat, i: nat)
    requires x < Pow2(n) && i < n
    ensures Bit(Pow2(n) - 1 - x, i) <==> !Bit(x, i)
    decreases i
  {
    if i > 0 {
      assert (Pow2(n) - 1 - x) / 2 == Pow2(n - 1) - 1 - x / 2;
      NotBit(x / 2, n - 1, i - 1);
    }
  }

  lemma {:induction false} NonZero(x: nat)
    requires x > 0
    ensures exists i: nat :: Bit(x, i)
    decreases x
  {
    if x % 2 == 1 {
      assert Bit(x, 0);
    } else {
      NonZero(x / 2);
      var i: nat :| Bit(x / 2, i);
      assert Bit(x, i + 1);
    }
  }

  lemma BitProduct(a: nat, b: nat)
    requires a < 2 && b < 2
    ensures a * b == if a == 1 then b else 0
  {
  }

  lemma {:induction false} AndBelow(x: nat, y: nat)
    ensures And(x, y) <= x && And(x, y) <= y
    decreases x
  {
    if x != 0 && y != 0 {
      AndBelow(x / 2, y / 2);
      BitProduct(x % 2, y % 2);
    }
  }

  lemma {:induction false} OrBelow(x: nat, y: nat, n: nat)
    requires x < Pow2(n) && y < Pow2(n)
    ensures Or(x, y) < Pow2(n)
    decreases n
  {
    if x != 0 {
      assert n > 0;
      OrBelow(x / 2, y / 2, n - 1);
    }
  }

  lemma {:induction false} PowMono(k: nat, n: nat)
    requires k <= n
    ensures Pow2(k) <= Pow2(n)
    decreases n
  {
    if k < n { PowMono(k, n - 1); }
  }

  lemma {:induction false} Pow2Add(a: nat, b: nat)
    ensures Pow2(a + b) == Pow2(a) * Pow2(b)
    decreases a
  {
    if a > 0 { Pow2Add(a - 1, b); }
  }

  lemma Pow2Values()
    ensures Pow2(5) == 32 && Pow2(12) == 4096 && Pow2(16) == 65536 && Pow2(32) == WORD
  {
    assert Pow2(4) == 16;
    Pow2Add(4, 4);
    Pow2Add(4, 8);
    Pow2Add(8, 8);
    Pow2Add(16, 16);
  }

  // ----- masks -----

  lemma MulMono(a: int, b: int, c: nat)
    requires a <= b
    ensures a * c <= b * c
  {
  }

  lemma DivIs(x: nat, d: nat, q: nat)
    requires d > 0 && q * d <= x < q * d + d
    ensures x / d == q
  {
    var r := x / d;
    assert r * d <= x < r * d + d;
    if r < q { MulMono(r + 1, q, d); }
    if r > q { MulMono(q + 1, r, d); }
  }

  lemma HalfQuotient(x: nat, p: nat)
    requires p > 0
    ensures x / (2 * p) * (2 * p) == 2 * (x / 2 / p * p)
  {
    var q := x / 2 / p;
    assert q * p <= x / 2 < q * p + p;
    assert q * (2 * p) == 2 * (q * p);
    DivIs(x, 2 * p, q);
  }

  lemma SmallQuotient(x: nat, d: nat)
    requires x < d
    ensures x / d == 0
  {
  }

  lemma {:induction false} AndOnes(x: nat, n: nat)
    requires x < Pow2(n)
    ensures And(x, Pow2(n) - 1) == x
    decreases n
  {
    if x > 0 {
      AndOnes(x / 2, n - 1);
      assert (Pow2(n) - 1) / 2 == Pow2(n - 1) - 1 && (Pow2(n) - 1) % 2 == 1;
    }
  }

  /** Masking with ones from bit k up to bit n clears the bits below k. */
  lemma {:induction false} AndMask(x: nat, k: nat, n: nat)
    requires k <= n && x < Pow2(n)
    ensures Pow2(k) <= Pow2(n) && And(x, Pow2(n) - Pow2(k)) == x / Pow2(k) * Pow2(k)
    decreases n
  {
    PowMono(k, n);
    if x == 0 {
    } else if k == 0 {
      AndOnes(x, n);
    } else {
      AndMask(x / 2, k - 1, n - 1);
      var m, p := Pow2(n) - Pow2(k), Pow2(k - 1);
      assert m == 2 * (Pow2(n - 1) - p) && m % 2 == 0 && m / 2 == Pow2(n - 1) - p;
      HalfQuotient(x, p);
      BitProduct(x % 2, m % 2);
      if m == 0 { SmallQuotient(x, Pow2(k)); }
    }
  }

  /** The lowest set bit of a word. */
  function LowBit(x: nat): (r: nat)
    requires x > 0
    ensures 0 < r <= x
  {
    if x % 2 == 1 then 1 else 2 * LowBit(x / 2)
  }

  lemma {:induction false} LowBitIsPower(x: nat)
    requires x > 0
    ensures LowBit(x) <= x && exists k: nat :: LowBit(x) == Pow2(k)
  {
    if x % 2 == 1 {
      assert LowBit(x) == Pow2(0);
    } else {
      LowBitIsPower(x / 2);
      var k: nat :| LowBit(x / 2) == Pow2(k);
      assert LowBit(x) == Pow2(k + 1);
    }
  }

  lemma {:induction false} LowBitOfPower(k: nat)
    ensures LowBit(Pow2(k)) == Pow2(k)
  {
    if k > 0 {
      LowBitOfPower(k - 1);
    }
  }

  lemma LowBitDouble(x: nat)
    requires x > 0
    ensures LowBit(2 * x) == 2 * LowBit(x)
  {
    assert 2 * x % 2 == 0 && 2 * x / 2 == x;
  }

  lemma {:induction false} AndComplement(x: nat, n: nat)
    requires x < Pow2(n)
    ensures And(x, Pow2(n) - 1 - x) == 0
    decreases n
  {
    if x > 0 {
      var y := Pow2(n) - 1 - x;
      AndComplement(x / 2, n - 1);
      assert y / 2 == Pow2(n - 1) - 1 - x / 2 && (x % 2) + (y % 2) == 1;
      BitProduct(x % 2, y % 2);
    }
  }

  /** A word and its negative have just the lowest set bit in common. */
  lemma {:induction false} AndNegative(x: nat, n: nat)
    requires 0 < x < Pow2(n)
    ensures And(x, Pow2(n) - x) == LowBit(x)
    decreases n
  {
    var y := Pow2(n) - x;
    if x % 2 == 0 {
      AndNegative(x / 2, n - 1);
      assert y / 2 == Pow2(n - 1) - x / 2 && y % 2 == 0;
    } else {
      AndComplement(x / 2, n - 1);
      assert y / 2 == Pow2(n - 1) - 1 - x / 2 && y % 2 == 1;
    }
    BitProduct(x % 2, y % 2);
  }
}
