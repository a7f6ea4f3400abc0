/** The bit-mask rounding of billiard/heap.py, on unbounded integers. */
module Rounding {

  function Pow2(k: nat): (p: nat)
    ensures p > 0
  {
    if k == 0 then 1 else 2 * Pow2(k - 1)
  }

  /** x & ~m for non-negative x and m, bit by bit. */
  function AndNot(x: nat, m: nat): nat {
    if x == 0 then 0
    else (if x % 2 == 1 && m % 2 == 0 then 1 else 0) + 2 * AndNot(x / 2, m / 2)
  }

  /** Adds the mask 2^k - 1 and clears its bits. */
  function RoundUp(n: nat, k: nat): nat {
    var mask := Pow2(k) - 1;
    AndNot(n + mask, mask)
  }

  ghost predicate Multiple(x: nat, d: nat) {
    exists q: nat :: x == q * d
  }

  lemma {:induction false} AndNotZero(x: nat)
    ensures AndNot(x, 0) == x
  {
    if x > 0 {
      AndNotZero(x / 2);
    }
  }

  lemma TwiceProduct(q: nat, p: nat)
    ensures q * (2 * p) == 2 * (q * p)
  {
  }

  /** Clearing the low k bits leaves the largest multiple of 2^k that is not above x. */
  lemma {:induction false} AndNotMask(x: nat, k: nat) returns (q: nat)
    ensures AndNot(x, Pow2(k) - 1) == q * Pow2(k)
    ensures q * Pow2(k) <= x < q * Pow2(k) + Pow2(k)
    decreases k
  {
    if k == 0 {
      AndNotZero(x);
      q := x;
    } else {
      var p := Pow2(k - 1);
      assert (Pow2(k) - 1) / 2 == p - 1;
      q := AndNotMask(x / 2, k - 1);
      TwiceProduct(q, p);
    }
  }

  /** The bit-mask formula gives the smallest multiple of the alignment that is at least n. */
  lemma RoundUpIsCeiling(n: nat, k: nat)
    ensures Multiple(RoundUp(n, k), Pow2(k))
    ensures n <= RoundUp(n, k) < n + Pow2(k)
  {
    var q := AndNotMask(n + Pow2(k) - 1, k);
  }

  /** A multiple of 2^k is a multiple of 8 when k >= 3. */
  lemma MultipleOfEight(x: nat, k: nat)
    requires k >= 3 && Multiple(x, Pow2(k))
    ensures x % 8 == 0
  {
    var q: nat :| x == q * Pow2(k);
    var c := EightDivides(k);
    EightfoldProduct(q, c);
  }

  lemma EightfoldProduct(q: nat, c: nat)
    ensures q * (8 * c) == 8 * (q * c)
  {
  }

  lemma {:induction false} EightDivides(k: nat) returns (c: nat)
    requires k >= 3
    ensures Pow2(k) == 8 * c
  {
    if k == 3 {
      assert Pow2(3) == 2 * Pow2(2) && Pow2(2) == 2 * Pow2(1);
      c := 1;
    } else {
      var d := EightDivides(k - 1);
      c := 2 * d;
    }
  }
}
