/** Dyadic arithmetic of the buddy system: powers of two, right shifts, aligned
    blocks of 2^k frames, and the "other half" pfn ^ (1 << k). */
module Dyadic {

  function Pow2(k: nat): (r: nat)
    ensures r > 0
  {
    if k == 0 then 1 else 2 * Pow2(k - 1)
  }

  /** x >> k */
  function Shr(x: nat, k: nat): nat {
    if k == 0 then x else Shr(x, k - 1) / 2
  }

  /** Bit j of x. */
  function Bit(x: nat, j: nat): nat {
    Shr(x, j) % 2
  }

  /** The low k bits of p are zero. */
  predicate Aligned(p: nat, k: nat) {
    k == 0 || (Aligned(p, k - 1) && Bit(p, k - 1) == 0)
  }

  /** Frame f lies in the aligned block of 2^k frames that holds p. */
  predicate InBlock(f: nat, p: nat, k: nat) {
    Shr(f, k) == Shr(p, k)
  }

  /** p ^ (1 << k): the other half of the block of order k + 1 around p. */
  function Buddy(p: nat, k: nat): nat {
    if Bit(p, k) == 0 then p + Pow2(k) else ShrAtLeast(p, k); p - Pow2(k)
  }

  function Min(a: nat, b: nat): nat { if a < b then a else b }

  function Max(a: nat, b: nat): nat { if a < b then b else a }

  /** Shr(x, k) is i exactly when x lies in the i-th run of 2^k numbers. */
  lemma {:induction false} ShrRange(x: nat, k: nat, i: nat)
    ensures Shr(x, k) == i <==> i * Pow2(k) <= x < i * Pow2(k) + Pow2(k)
  {
    if k > 0 {
      ShrRange(x, k - 1, Shr(x, k - 1));
      RunOf(x, Pow2(k - 1), Shr(x, k - 1), i);
      assert i * (2 * Pow2(k - 1)) == i * Pow2(k);
    }
  }

  /** A run of 2 h numbers is two runs of h. */
  lemma RunOf(x: nat, h: nat, y: nat, i: nat)
    requires y * h <= x < y * h + h
    ensures y / 2 == i <==> i * (2 * h) <= x < i * (2 * h) + 2 * h
  {
    assert i * (2 * h) == (2 * i) * h;
    if y / 2 == i {
      assert y == 2 * i || y == 2 * i + 1;
      assert (2 * i + 1) * h == (2 * i) * h + h;
    } else if y < 2 * i {
      MulMono(y + 1, 2 * i, h);
      assert (y + 1) * h == y * h + h;
    } else {
      MulMono(2 * i + 2, y, h);
      assert (2 * i + 2) * h == (2 * i) * h + 2 * h;
    }
  }

  lemma ShrAtLeast(x: nat, k: nat)
    requires Shr(x, k) > 0
    ensures x >= Pow2(k)
  {
    ShrRange(x, k, Shr(x, k));
    MulMono(1, Shr(x, k), Pow2(k));
  }

  lemma MulMono(a: nat, b: nat, c: nat)
    requires a <= b
    ensures a * c <= b * c
  {
  }

  /** The block of an aligned head is the interval of 2^k frames that starts there. */
  lemma BlockIsInterval(f: nat, p: nat, k: nat)
    requires Aligned(p, k)
    ensures InBlock(f, p, k) <==> p <= f < p + Pow2(k)
  {
    ShrRange(f, k, Shr(p, k));
    AlignedIffMultiple(p, k);
  }

  /** A larger shift is determined by a smaller one. */
  lemma {:induction false} ShrNest(x: nat, y: nat, j: nat, k: nat)
    requires j <= k && Shr(x, j) == Shr(y, j)
    ensures Shr(x, k) == Shr(y, k)
    decreases k
  {
    if j < k { ShrNest(x, y, j, k - 1); }
  }

  /** Aligned numbers are the multiples of 2^k. */
  lemma {:induction false} AlignedIffMultiple(p: nat, k: nat)
    ensures Aligned(p, k) <==> p == Shr(p, k) * Pow2(k)
  {
    if k > 0 {
      AlignedIffMultiple(p, k - 1);
      ShrRange(p, k - 1, Shr(p, k - 1));
      DoubleMultiple(p, Pow2(k - 1), Shr(p, k - 1));
    }
  }

  /** A multiple of h by y is one of 2 h by half of y exactly when y is even. */
  lemma DoubleMultiple(p: nat, h: nat, y: nat)
    requires y * h <= p < y * h + h
    ensures p == (y / 2) * (2 * h) <==> y % 2 == 0 && p == y * h
  {
    var i := y / 2;
    assert i * (2 * h) == (2 * i) * h;
    if y == 2 * i + 1 { assert y * h == (2 * i) * h + h; }
  }

  lemma {:induction false} AlignedDown(p: nat, j: nat, k: nat)
    requires j <= k && Aligned(p, k)
    ensures Aligned(p, j)
    decreases k
  {
    if j < k { AlignedDown(p, j, k - 1); }
  }

  /** A block has only one aligned head. */
  lemma {:induction false} HeadUnique(p: nat, q: nat, k: nat)
    requires Aligned(p, k) && Aligned(q, k) && InBlock(p, q, k)
    ensures p == q
  {
    if k > 0 { HeadUnique(p, q, k - 1); }
  }

  /** A number aligned to 2^k that lies in an aligned block of order j <= k heads it. */
  lemma AlignedHeads(q: nat, p: nat, j: nat, k: nat)
    requires j <= k && Aligned(q, k) && Aligned(p, j) && InBlock(q, p, j)
    ensures q == p
  {
    AlignedDown(q, j, k);
    HeadUnique(q, p, j);
  }

  /** Index of the sibling run: the last bit flipped. */
  function Sibling(i: nat): nat {
    if i % 2 == 0 then i + 1 else i - 1
  }

  lemma BuddyIndex(p: nat, k: nat)
    ensures Shr(Buddy(p, k), k) == Sibling(Shr(p, k))
    ensures Aligned(p, k) ==> Aligned(Buddy(p, k), k)
  {
    assert 1 * Pow2(k) == Pow2(k);
    var q := Buddy(p, k);
    if Bit(p, k) == 0 { ShrAdd(p, q, k, 1); } else { ShrAdd(q, p, k, 1); }
    if Aligned(p, k) {
      AlignedIffMultiple(p, k);
      AlignedIffMultiple(q, k);
      var i := Shr(p, k);
      assert (i + 1) * Pow2(k) == i * Pow2(k) + Pow2(k);
      assert i > 0 ==> (i - 1) * Pow2(k) == i * Pow2(k) - Pow2(k);
    }
  }

  /** The buddy is the other half of the block of order k + 1. */
  lemma BuddyHalves(p: nat, k: nat)
    requires Aligned(p, k)
    ensures Aligned(Buddy(p, k), k)
    ensures Shr(Buddy(p, k), k) == Sibling(Shr(p, k))
    ensures Buddy(Buddy(p, k), k) == p && Buddy(p, k) != p
    ensures InBlock(Buddy(p, k), p, k + 1)
    ensures Aligned(Min(p, Buddy(p, k)), k + 1)
    ensures !InBlock(Buddy(p, k), p, k)
    ensures Max(p, Buddy(p, k)) == Min(p, Buddy(p, k)) + Pow2(k)
  {
    BuddyIndex(p, k);
    var q := Buddy(p, k);
    BuddyIndex(q, k);
  }

  /** The frames of a block of order k + 1 are the frames of its two halves. */
  lemma HalvesCover(f: nat, p: nat, k: nat)
    requires Aligned(p, k)
    ensures InBlock(f, p, k + 1) <==> InBlock(f, p, k) || InBlock(f, Buddy(p, k), k)
  {
    BuddyIndex(p, k);
  }

  /** A head aligned to 2^(k+1) is the lower of its two halves. */
  lemma LowerHalf(p: nat, k: nat)
    requires Aligned(p, k + 1)
    ensures Aligned(p, k) && Buddy(p, k) == p + Pow2(k)
  {
  }

  /** Buddy flips bit k and no other bit, so it is exclusive-or with 1 << k. */
  lemma {:induction false} BuddyFlipsOneBit(p: nat, k: nat, j: nat)
    ensures Bit(Buddy(p, k), j) == if j == k then 1 - Bit(p, k) else Bit(p, j)
    decreases j
  {
    if j < k {
      BuddyLowBits(p, k, j);
    } else {
      BuddyIndex(p, k);
      if j > k {
        assert Shr(Buddy(p, k), k + 1) == Shr(p, k + 1);
        ShrNest(Buddy(p, k), p, k + 1, j);
      }
    }
  }

  /** Adding c * 2^j adds c to the shift by j. */
  lemma {:induction false} ShrAdd(x: nat, y: nat, j: nat, c: nat)
    requires y == x + c * Pow2(j)
    ensures Shr(y, j) == Shr(x, j) + c
  {
    if j > 0 {
      assert c * Pow2(j) == (2 * c) * Pow2(j - 1);
      ShrAdd(x, y, j - 1, 2 * c);
    }
  }

  lemma BuddyLowBits(p: nat, k: nat, j: nat)
    requires j < k
    ensures Bit(Buddy(p, k), j) == Bit(p, j)
  {
    var m := PowSplit(j, k);
    if Shr(p, k) % 2 == 0 { ShrAdd(p, Buddy(p, k), j, 2 * m); } else { ShrAdd(Buddy(p, k), p, j, 2 * m); }
  }

  lemma {:induction false} PowSplit(j: nat, k: nat) returns (m: nat)
    requires j < k
    ensures Pow2(k) == (2 * m) * Pow2(j) && m > 0
    decreases k
  {
    if j == k - 1 {
      m := 1;
    } else {
      var m' := PowSplit(j, k - 1);
      m := 2 * m';
      assert Pow2(k) == 2 * ((2 * m') * Pow2(j)) == (2 * m) * Pow2(j);
    }
  }

  /** Numbers with equal bits are equal. */
  lemma {:induction false} BitsDetermine(x: nat, y: nat)
    requires forall j: nat :: Bit(x, j) == Bit(y, j)
    ensures x == y
    decreases x + y
  {
    assert Bit(x, 0) == Bit(y, 0);
    if x != 0 || y != 0 {
      forall j: nat ensures Bit(x / 2, j) == Bit(y / 2, j) {
        ShrHalf(x, j);
        ShrHalf(y, j);
        assert Bit(x, j + 1) == Bit(y, j + 1);
      }
      BitsDetermine(x / 2, y / 2);
    }
  }

  /** So the buddy's number is the exclusive-or, by its bits, and no other number has those bits. */
  lemma BuddyIsXor(p: nat, k: nat, y: nat)
    ensures y == Buddy(p, k) <==> forall j: nat :: Bit(y, j) == if j == k then 1 - Bit(p, k) else Bit(p, j)
  {
    forall j: nat ensures Bit(Buddy(p, k), j) == if j == k then 1 - Bit(p, k)
      else Bit(p, j) { BuddyFlipsOneBit(p, k, j); }
    if forall j: nat :: Bit(y, j) == if j == k then 1 - Bit(p, k) else Bit(p, j) {
      BitsDetermine(y, Buddy(p, k));
    }
  }

  lemma {:induction false} ShrHalf(x: nat, j: nat)
    ensures Shr(x / 2, j) == Shr(x, j + 1)
  {
    if j > 0 { ShrHalf(x, j - 1); }
  }

  lemma {:induction false} PowMono(j: nat, k: nat)
    requires j <= k
    ensures Pow2(j) <= Pow2(k)
  {
    if j < k { PowMono(j, k - 1); }
  }
}
