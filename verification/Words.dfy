/**
 Machine words as natural numbers.

 The kernel manipulates 64-bit words bit by bit: block addresses, the mask of
 non-empty free lists, slab bitmaps, the mask of CPUs that still owe a TLB
 acknowledgement. Every operation below is the arithmetic meaning of one C
 expression, defined by recursion on the bit position, so that each fact about
 it is a short induction that only ever divides by two.
 */
module Words {

  const WORD_LIMIT: nat := 0x1_0000_0000_0000_0000

  function Pow2(k: nat): (r: nat)
    ensures r >= 1
  {
    if k == 0 then 1 else 2 * Pow2(k - 1)
  }

  /** (w >> k) & 1 */
  predicate Bit(w: nat, k: nat) {
    if k == 0 then w % 2 == 1 else Bit(w / 2, k - 1)
  }

  /** w | (1 << k) */
  function SetBit(w: nat, k: nat): nat {
    if k == 0 then w / 2 * 2 + 1 else 2 * SetBit(w / 2, k - 1) + w % 2
  }

  /** w & ~(1 << k) */
  function ClearBit(w: nat, k: nat): nat {
    if k == 0 then w / 2 * 2 else 2 * ClearBit(w / 2, k - 1) + w % 2
  }

  /** w ^ (1 << k) */
  function FlipBit(w: nat, k: nat): nat {
    if k == 0 then (if w % 2 == 0 then w + 1 else w - 1) else 2 * FlipBit(w / 2, k - 1) + w % 2
  }

  /** w & ~((1 << k) - 1) */
  function ClearLow(w: nat, k: nat): nat {
    if k == 0 then w else 2 * ClearLow(w / 2, k - 1)
  }

  /** Position of the lowest set bit (TZCNT). */
  function Ctz(w: nat): (k: nat)
    requires w > 0
    ensures Bit(w, k) && Aligned(w, k)
    ensures forall j :: 0 <= j < k ==> !Bit(w, j)
    decreases w
  {
    if w % 2 == 1 then 0 else
      var k := Ctz(w / 2) + 1;
      assert forall j :: 0 < j < k ==> Bit(w, j) == Bit(w / 2, j - 1);
      k
  }

  /** Position of the highest set bit (63 - LZCNT). */
  function Log2(w: nat): (k: nat)
    requires w > 0
    ensures Pow2(k) <= w < 2 * Pow2(k)
    decreases w
  {
    if w == 1 then 0 else Log2(w / 2) + 1
  }

  /** w is a multiple of 2^k. */
  predicate Aligned(w: nat, k: nat) {
    k == 0 || (w % 2 == 0 && Aligned(w / 2, k - 1))
  }

  // ---- single-bit updates -------------------------------------------------

  lemma DoubleParts(x: nat, r: nat)
    requires r < 2
    ensures (2 * x + r) / 2 == x && (2 * x + r) % 2 == r
  {}

  lemma {:induction false} BitOfSet(w: nat, k: nat, j: nat)
    ensures Bit(SetBit(w, k), j) <==> (j == k || Bit(w, j))
    decreases k
  {
    if k == 0 {
      DoubleParts(w / 2, 1);
    } else {
      DoubleParts(SetBit(w / 2, k - 1), w % 2);
      if j > 0 { BitOfSet(w / 2, k - 1, j - 1); }
    }
  }

  lemma {:induction false} BitOfClear(w: nat, k: nat, j: nat)
    ensures Bit(ClearBit(w, k), j) <==> (j != k && Bit(w, j))
    decreases k
  {
    if k == 0 {
      DoubleParts(w / 2, 0);
    } else {
      DoubleParts(ClearBit(w / 2, k - 1), w % 2);
      if j > 0 { BitOfClear(w / 2, k - 1, j - 1); }
    }
  }

  lemma {:induction false} BitOfFlip(w: nat, k: nat, j: nat)
    ensures Bit(FlipBit(w, k), j) <==> ((j == k) != Bit(w, j))
    decreases k
  {
    if k == 0 {
      DoubleParts(w / 2, 1 - w % 2);
    } else {
      DoubleParts(FlipBit(w / 2, k - 1), w % 2);
      if j > 0 { BitOfFlip(w / 2, k - 1, j - 1); }
    }
  }

  lemma {:induction false} BitOfClearLow(w: nat, k: nat, j: nat)
    ensures Bit(ClearLow(w, k), j) <==> (k <= j && Bit(w, j))
    decreases k
  {
    if k > 0 && j > 0 {
      BitOfClearLow(w / 2, k - 1, j - 1);
    }
  }

  lemma ZeroBit(j: nat)
    ensures !Bit(0, j)
  {}

  lemma {:induction false} LowBits(k: nat, j: nat)
    ensures Bit(Pow2(k) - 1, j) <==> j < k
  {
    if k == 0 {
      ZeroBit(j);
    } else {
      DoubleParts(Pow2(k - 1) - 1, 1);
      if j > 0 { LowBits(k - 1, j - 1); }
    }
  }

  /** A word with every bit set is the largest one. */
  lemma {:induction false} FullWord(w: nat, n: nat)
    requires w < Pow2(n) && forall j: nat :: j < n ==> Bit(w, j)
    ensures w == Pow2(n) - 1
  {
    if n > 0 {
      forall j: nat | j < n - 1 ensures Bit(w / 2, j) { assert Bit(w, j + 1); }
      FullWord(w / 2, n - 1);
      assert Bit(w, 0);
    }
  }

  // ---- alignment ----------------------------------------------------------

  lemma {:induction false} Pow2Monotone(j: nat, k: nat)
    requires j <= k
    ensures Pow2(j) <= Pow2(k)
    decreases k
  {
    if j < k { Pow2Monotone(j, k - 1); }
  }

  lemma {:induction false} Pow2Sum(j: nat, k: nat)
    ensures Pow2(j + k) == Pow2(j) * Pow2(k)
  {
    if k > 0 { Pow2Sum(j, k - 1); }
  }

  lemma LimitIsPow2()
    ensures Pow2(64) == WORD_LIMIT && Pow2(63) == WORD_LIMIT / 2
  {
    ByteIsPow2();
    hide Pow2;
    Pow2Sum(8, 8);
    Pow2Sum(7, 8);
    Pow2Sum(16, 16);
    Pow2Sum(15, 16);
    Pow2Sum(32, 32);
    Pow2Sum(31, 32);
  }

  lemma ByteIsPow2()
    ensures Pow2(8) == 256 && Pow2(7) == 128
  {}

  lemma {:induction false} AlignedDown(w: nat, k: nat, j: nat)
    requires Aligned(w, k) && j <= k
    ensures Aligned(w, j)
    decreases k
  {
    if j > 0 { AlignedDown(w / 2, k - 1, j - 1); }
  }

  lemma {:induction false} AlignedPow2(k: nat)
    ensures Aligned(Pow2(k), k)
  {
    if k > 0 {
      AlignedPow2(k - 1);
      DoubleParts(Pow2(k - 1), 0);
      var w := Pow2(k);
      assert w % 2 == 0 && w / 2 == Pow2(k - 1);
    }
  }

  lemma {:induction false} AlignedAdd(x: nat, y: nat, k: nat)
    requires Aligned(x, k) && Aligned(y, k)
    ensures Aligned(x + y, k)
    ensures x >= y ==> Aligned(x - y, k)
    decreases k
  {
    if k > 0 { AlignedAdd(x / 2, y / 2, k - 1); }
  }

  /** Two naturally aligned power-of-two regions are nested or disjoint. */
  lemma {:induction false} NestedOrDisjoint(a: nat, k: nat, r: nat, j: nat)
    requires Aligned(a, k) && Aligned(r, j) && j <= k
    ensures (a <= r && r + Pow2(j) <= a + Pow2(k)) || r + Pow2(j) <= a || a + Pow2(k) <= r
    decreases j
  {
    if j > 0 { NestedOrDisjoint(a / 2, k - 1, r / 2, j - 1); }
  }

  /** For a 2^k-aligned address, flipping bit k is adding or subtracting 2^k. */
  lemma {:induction false} FlipAligned(a: nat, k: nat)
    requires Aligned(a, k)
    ensures Aligned(FlipBit(a, k), k) && FlipBit(FlipBit(a, k), k) == a
    ensures if Aligned(a, k + 1) then FlipBit(a, k) == a + Pow2(k)
            else a == FlipBit(a, k) + Pow2(k) && Aligned(FlipBit(a, k), k + 1)
    decreases k
  {
    var b := FlipBit(a, k);
    if k == 0 {
      DoubleParts(a / 2, 1 - a % 2);
      assert Aligned(a, 1) <==> a % 2 == 0;
      assert Aligned(b, 1) <==> b % 2 == 0;
    } else {
      var h := FlipBit(a / 2, k - 1);
      FlipAligned(a / 2, k - 1);
      DoubleParts(h, 0);
      assert b % 2 == 0 && b / 2 == h;
      assert FlipBit(b, k) == 2 * FlipBit(h, k - 1);
      assert Aligned(a, k + 1) <==> Aligned(a / 2, k);
      assert Aligned(b, k + 1) <==> Aligned(h, k);
      assert Pow2(k) == 2 * Pow2(k - 1);
    }
  }

  lemma {:induction false} AlignedAtLeast(w: nat, k: nat)
    requires Aligned(w, k) && w > 0
    ensures w >= Pow2(k)
    decreases k
  {
    if k > 0 { AlignedAtLeast(w / 2, k - 1); }
  }

  /** Ctz is the largest alignment. */
  lemma {:induction false} CtzAtLeast(w: nat, k: nat)
    requires w > 0 && Aligned(w, k)
    ensures k <= Ctz(w)
    decreases k
  {
    if k > 0 { CtzAtLeast(w / 2, k - 1); }
  }

  lemma AlignedNibble(a: nat, k: nat)
    ensures Aligned(a, k + 4) <==> a % 16 == 0 && Aligned(a / 16, k)
  {
    var b := a / 2;
    var c := b / 2;
    var d := c / 2;
    assert Aligned(a, k + 4) <==> a % 2 == 0 && Aligned(b, k + 3);
    assert Aligned(b, k + 3) <==> b % 2 == 0 && Aligned(c, k + 2);
    assert Aligned(c, k + 2) <==> c % 2 == 0 && Aligned(d, k + 1);
    assert d / 2 == a / 16;
  }

  /** Page alignment. */
  lemma AlignedPage(a: nat)
    ensures Aligned(a, 12) <==> a % 4096 == 0
  {
    AlignedNibble(a, 8);
    AlignedNibble(a / 16, 4);
    AlignedNibble(a / 16 / 16, 0);
    NibblesOfPage(a);
  }

  lemma NibblesOfPage(a: nat)
    ensures a % 16 == 0 && (a / 16) % 16 == 0 && (a / 16 / 16) % 16 == 0 <==> a % 4096 == 0
  {
    var x := a / 16;
    var y := x / 16;
    var z := y / 16;
    var r := (a % 16) + 16 * (x % 16) + 256 * (y % 16);
    assert a == 16 * x + a % 16 && x == 16 * y + x % 16 && y == 16 * z + y % 16;
    assert a == z * 4096 + r && 0 <= r < 4096;
    DivModUnique(a, 4096, z, r);
  }

  /** Quotient and remainder are unique. */
  lemma DivModUnique(x: nat, m: nat, q: nat, r: nat)
    requires m > 0 && x == q * m + r && r < m
    ensures x / m == q && x % m == r
  {
    var q', r' := x / m, x % m;
    assert q * m + r == q' * m + r';
    if q' > q {
      assert q' * m == q * m + (q' - q) * m;
      MulAtLeast(q' - q, m);
    } else if q' < q {
      assert q * m == q' * m + (q - q') * m;
      MulAtLeast(q - q', m);
    }
  }

  lemma MulAtLeast(d: nat, m: nat)
    requires d >= 1
    ensures d * m >= m
  {}
}
