// Powers of two, single bits, and blocks of 2^o pages starting at a multiple of
// 2^o. Everything is by halving, so a block of order o is named by Shr(p, o).
module Dyadic {
  ghost function Pow2(n: nat): (r: nat)
    ensures r > 0
  {
    if n == 0 then 1 else 2 * Pow2(n - 1)
  }

  lemma {:induction false} Pow2Add(a: nat, b: nat)
    ensures Pow2(a + b) == Pow2(a) * Pow2(b)
  {
    if a > 0 {
      Pow2Add(a - 1, b);
      assert Pow2(a + b) == 2 * (Pow2(a - 1) * Pow2(b));
    }
  }

  lemma {:induction false} Pow2Monotone(a: nat, b: nat)
    requires a <= b
    ensures Pow2(a) <= Pow2(b)
  {
    if a < b {
      Pow2Monotone(a, b - 1);
    }
  }

  // ---- bits

  function Xor(a: nat, b: nat): nat {
    if a == 0 && b == 0 then 0 else 2 * Xor(a / 2, b / 2) + if a % 2 != b % 2 then 1 else 0
  }

  function And(a: nat, b: nat): nat {
    if a == 0 || b == 0 then 0 else 2 * And(a / 2, b / 2) + if a % 2 == 1 && b % 2 == 1 then 1 else 0
  }

  function Or(a: nat, b: nat): nat {
    if a == 0 && b == 0 then 0 else 2 * Or(a / 2, b / 2) + if a % 2 == 1 || b % 2 == 1 then 1 else 0
  }

  lemma {:induction false} OrZero(a: nat)
    ensures Or(a, 0) == a
  {
    if a > 0 { OrZero(a / 2); }
  }

  lemma {:induction false} OrFits(a: nat, b: nat, n: nat)
    requires a < Pow2(n) && b < Pow2(n)
    ensures Or(a, b) < Pow2(n)
  {
    if n > 0 { OrFits(a / 2, b / 2, n - 1); }
  }

  // Flags below bit n add onto a multiple of 2^n.
  lemma {:induction false} OrAdds(k: nat, f: nat, n: nat)
    requires f < Pow2(n)
    ensures Or(Pow2(n) * k, f) == Pow2(n) * k + f
  {
    if n == 0 {
      OrZero(k);
    } else {
      assert Pow2(n) * k == 2 * (Pow2(n - 1) * k);
      OrAdds(k, f / 2, n - 1);
    }
  }

  // p >> o
  ghost function Shr(p: nat, o: nat): nat {
    if o == 0 then p else Shr(p / 2, o - 1)
  }

  // p with bit o turned over: the buddy of p.
  ghost function Flip(p: nat, o: nat): nat {
    if o == 0 then (if p % 2 == 0 then p + 1 else p - 1) else 2 * Flip(p / 2, o - 1) + p % 2
  }

  // p with bit o cleared: the start of the merged block.
  ghost function Low(p: nat, o: nat): nat {
    if o == 0 then p - p % 2 else 2 * Low(p / 2, o - 1) + p % 2
  }

  ghost predicate Aligned(p: nat, o: nat) {
    o == 0 || (p % 2 == 0 && Aligned(p / 2, o - 1))
  }

  lemma {:induction false} XorZero(p: nat)
    ensures Xor(p, 0) == p
  {
    if p > 0 { XorZero(p / 2); }
  }

  lemma {:induction false} AndSelf(p: nat)
    ensures And(p, p) == p
  {
    if p > 0 { AndSelf(p / 2); }
  }

  // page_idx ^ (1UL << order)
  lemma {:induction false} XorFlips(p: nat, o: nat)
    ensures Xor(p, Pow2(o)) == Flip(p, o)
  {
    if o == 0 {
      XorZero(p / 2);
    } else {
      XorFlips(p / 2, o - 1);
    }
  }

  // buddy_idx & page_idx
  lemma {:induction false} AndLowers(p: nat, o: nat)
    ensures And(Flip(p, o), p) == Low(p, o)
  {
    if o == 0 {
      AndSelf(p / 2);
    } else {
      AndLowers(p / 2, o - 1);
    }
  }

  // ---- blocks

  lemma {:induction false} ShrStep(p: nat, o: nat)
    ensures Shr(p, o + 1) == Shr(p, o) / 2
  {
    if o > 0 { ShrStep(p / 2, o - 1); }
  }

  // Equal at some order means equal at every higher one.
  lemma {:induction false} ShrUp(p: nat, q: nat, o: nat, u: nat)
    requires o <= u && Shr(p, o) == Shr(q, o)
    ensures Shr(p, u) == Shr(q, u)
  {
    if o < u {
      ShrUp(p, q, o, u - 1);
      ShrStep(p, u - 1);
      ShrStep(q, u - 1);
    }
  }

  lemma {:induction false} AlignedDown(p: nat, o: nat, u: nat)
    requires u <= o && Aligned(p, o)
    ensures Aligned(p, u)
  {
    if u > 0 { AlignedDown(p / 2, o - 1, u - 1); }
  }

  // The block of an aligned p is an interval of 2^o pages.
  lemma {:induction false} BlockIsInterval(p: nat, o: nat, q: nat)
    requires Aligned(p, o)
    ensures Shr(q, o) == Shr(p, o) <==> p <= q < p + Pow2(o)
  {
    if o > 0 { BlockIsInterval(p / 2, o - 1, q / 2); }
  }

  lemma {:induction false} AlignedUnique(p: nat, q: nat, o: nat)
    requires Aligned(p, o) && Aligned(q, o) && Shr(p, o) == Shr(q, o)
    ensures p == q
  {
    if o > 0 { AlignedUnique(p / 2, q / 2, o - 1); }
  }

  // A buddy is the other half of the block one order up.
  lemma {:induction false} FlipFacts(p: nat, o: nat)
    ensures Flip(Flip(p, o), o) == p && Flip(p, o) != p
    ensures Shr(Flip(p, o), o) != Shr(p, o) && Shr(Flip(p, o), o + 1) == Shr(p, o + 1)
    ensures Aligned(p, o) ==> Aligned(Flip(p, o), o)
  {
    if o > 0 { FlipFacts(p / 2, o - 1); }
  }

  // Nothing else is: one order down there are only the two halves.
  lemma {:induction false} TwoHalves(p: nat, q: nat, o: nat)
    requires Shr(p, o + 1) == Shr(q, o + 1)
    ensures Shr(q, o) == Shr(p, o) || Shr(q, o) == Shr(Flip(p, o), o)
  {
    ShrStep(p, o);
    ShrStep(q, o);
    ShrStep(Flip(p, o), o);
    FlipFacts(p, o);
  }

  lemma {:induction false} LowFacts(p: nat, o: nat)
    ensures Shr(Low(p, o), o + 1) == Shr(p, o + 1)
    ensures Low(p, o) == if p <= Flip(p, o) then p else Flip(p, o)
    ensures p <= Flip(p, o) ==> Flip(p, o) == p + Pow2(o)
    ensures p > Flip(p, o) ==> p == Flip(p, o) + Pow2(o)
    ensures Aligned(p, o) ==> Aligned(Low(p, o), o + 1)
  {
    if o > 0 { LowFacts(p / 2, o - 1); }
  }

  // An aligned block starts with its lower half.
  lemma {:induction false} UpperHalf(p: nat, o: nat)
    requires Aligned(p, o + 1)
    ensures Flip(p, o) == p + Pow2(o) && Low(p, o) == p
  {
    if o > 0 { UpperHalf(p / 2, o - 1); }
  }
}
