// The buddy allocator of pmm_production.c on values: one free list per order.
module BuddySpec {
  import opened Wrappers
  import opened Dyadic

  type Lists = seq<seq<nat>>

  ghost function Max(a: nat, b: nat): nat {
    if a < b then b else a
  }

  // The blocks (p, o) and (q, u) share a page.
  ghost predicate Clash(p: nat, o: nat, q: nat, u: nat) {
    Shr(p, Max(o, u)) == Shr(q, Max(o, u))
  }

  ghost predicate NoDup(s: seq<nat>) {
    forall i, j :: 0 <= i < j < |s| ==> s[i] != s[j]
  }

  // Order o has p on its list.
  ghost predicate Has(l: Lists, o: nat, p: nat) {
    o < |l| && p in l[o]
  }

  // Page q lies in a free block.
  ghost predicate Covered(l: Lists, q: nat) {
    exists o: nat, p: nat :: Has(l, o, p) && Shr(q, o) == Shr(p, o)
  }

  // No free block shares a page with (p, o).
  ghost predicate Apart(l: Lists, p: nat, o: nat) {
    forall u: nat, q: nat :: Has(l, u, q) ==> !Clash(p, o, q, u)
  }

  ghost predicate Separated(l: Lists) {
    forall o: nat, p: nat, u: nat, q: nat :: Has(l, o, p) && Has(l, u, q) && Clash(p, o, q, u) ==> o == u && p == q
  }

  ghost predicate NoBuddies(l: Lists) {
    forall o: nat, p: nat :: Has(l, o, p) && o + 1 < |l| ==> !Has(l, o, Flip(p, o))
  }

  ghost predicate InZone(p: nat, o: nat, lo: nat, hi: nat) {
    Aligned(p, o) && lo <= p && p + Pow2(o) <= hi
  }

  // What every operation keeps: aligned, disjoint blocks inside the zone, and
  // no two buddies left unmerged.
  ghost predicate Inv(l: Lists, lo: nat, hi: nat) {
    (forall o: nat :: 0 <= o < |l| ==> NoDup(l[o])) &&
    (forall o: nat, p: nat :: Has(l, o, p) ==> InZone(p, o, lo, hi)) &&
    Separated(l) && NoBuddies(l)
  }

  // ---- list steps

  function Without(s: seq<nat>, x: nat): (r: seq<nat>)
    ensures x !in s ==> r == s
    ensures forall y :: y in r ==> y in s
    ensures forall y :: y in s && y != x ==> y in r
  {
    if s == [] then [] else if s[0] == x then s[1..] else [s[0]] + Without(s[1..], x)
  }

  lemma {:induction false} WithoutNoDup(s: seq<nat>, x: nat)
    requires NoDup(s)
    ensures NoDup(Without(s, x)) && x !in Without(s, x)
    ensures x in s ==> |Without(s, x)| == |s| - 1
  {
    if s != [] && s[0] != x {
      WithoutNoDup(s[1..], x);
      assert s[0] !in s[1..];
    }
  }

  function Take(l: Lists, o: nat, p: nat): (r: Lists)
    requires o < |l|
    ensures |r| == |l|
  {
    l[o := Without(l[o], p)]
  }

  function Put(l: Lists, o: nat, p: nat): (r: Lists)
    requires o < |l|
    ensures |r| == |l|
  {
    l[o := [p] + l[o]]
  }

  lemma TakeHas(l: Lists, o: nat, p: nat)
    requires o < |l| && NoDup(l[o])
    ensures forall u: nat, q: nat :: Has(Take(l, o, p), u, q) <==> Has(l, u, q) && !(u == o && q == p)
  {
    WithoutNoDup(l[o], p);
  }

  lemma PutHas(l: Lists, o: nat, p: nat)
    requires o < |l|
    ensures forall u: nat, q: nat :: Has(Put(l, o, p), u, q) <==> Has(l, u, q) || (u == o && q == p)
  {
  }

  lemma TakeInv(l: Lists, o: nat, p: nat, lo: nat, hi: nat)
    requires Inv(l, lo, hi) && Has(l, o, p)
    ensures Inv(Take(l, o, p), lo, hi) && Apart(Take(l, o, p), p, o)
  {
    TakeHas(l, o, p);
    WithoutNoDup(l[o], p);
  }

  lemma ApartHasNot(l: Lists, p: nat, o: nat)
    requires Apart(l, p, o)
    ensures !Has(l, o, p)
  {
    assert Clash(p, o, p, o);
  }

  lemma PutInv(l: Lists, o: nat, p: nat, lo: nat, hi: nat)
    requires Inv(l, lo, hi) && o < |l| && Apart(l, p, o) && InZone(p, o, lo, hi)
    requires o + 1 < |l| ==> !Has(l, o, Flip(p, o))
    ensures Inv(Put(l, o, p), lo, hi)
  {
    PutHas(l, o, p);
    ApartHasNot(l, p, o);
    FlipFacts(p, o);
    forall u: nat, q: nat | Has(Put(l, o, p), u, q) && u + 1 < |l| ensures !Has(Put(l, o, p), u, Flip(q, u)) {
      FlipFacts(q, u);
    }
  }

  // ---- freeing: merge with the buddy while it is free

  function Free(l: Lists, p: nat, o: nat): (r: Lists)
    requires o < |l|
    ensures |r| == |l|
    decreases |l| - o
  {
    var b := Xor(p, PowerOf2(o));
    if o < |l| - 1 && b in l[o] then Free(Take(l, o, b), And(b, p), o + 1) else Put(l, o, p)
  }

  // 1UL << n
  function PowerOf2(n: nat): (r: nat)
    ensures r == Pow2(n)
  {
    if n == 0 then 1 else 2 * PowerOf2(n - 1)
  }

  // Freeing in the words of the block theory.
  lemma FreeStep(l: Lists, p: nat, o: nat)
    requires o < |l|
    ensures Free(l, p, o) ==
      if o < |l| - 1 && Has(l, o, Flip(p, o)) then Free(Take(l, o, Flip(p, o)), Low(p, o), o + 1) else Put(l, o, p)
  {
    XorFlips(p, o);
    AndLowers(p, o);
  }

  // After merging with its buddy, the larger block still shares no page.
  lemma MergeApart(l: Lists, p: nat, o: nat, lo: nat, hi: nat)
    requires Inv(l, lo, hi) && o + 1 < |l| && Apart(l, p, o) && InZone(p, o, lo, hi) && Has(l, o, Flip(p, o))
    ensures Apart(Take(l, o, Flip(p, o)), Low(p, o), o + 1) && InZone(Low(p, o), o + 1, lo, hi)
  {
    var b := Flip(p, o);
    TakeHas(l, o, b);
    LowFacts(p, o);
    assert Pow2(o + 1) == 2 * Pow2(o);
    forall u: nat, q: nat | Has(Take(l, o, b), u, q) ensures !Clash(Low(p, o), o + 1, q, u) {
      if Clash(Low(p, o), o + 1, q, u) { MergeClash(p, o, q, u); }
    }
  }

  // Who shares a page with the merged block shares it with one of the halves.
  lemma MergeClash(p: nat, o: nat, q: nat, u: nat)
    requires Clash(Low(p, o), o + 1, q, u)
    ensures Clash(p, o, q, u) || Clash(Flip(p, o), o, q, u)
  {
    LowFacts(p, o);
    if u > o {
      ShrUp(Low(p, o), p, o + 1, u);
    } else {
      TwoHalves(p, q, o);
    }
  }

  // Freeing a block that shares no page keeps the invariant and adds exactly
  // the pages of the block.
  lemma {:induction false} FreeKeeps(l: Lists, p: nat, o: nat, lo: nat, hi: nat)
    requires Inv(l, lo, hi) && o < |l| && Apart(l, p, o) && InZone(p, o, lo, hi)
    ensures Inv(Free(l, p, o), lo, hi)
    ensures forall q: nat :: Covered(Free(l, p, o), q) <==> Covered(l, q) || Shr(q, o) == Shr(p, o)
    decreases |l| - o
  {
    FreeStep(l, p, o);
    var b := Flip(p, o);
    if o < |l| - 1 && Has(l, o, b) {
      MergeApart(l, p, o, lo, hi);
      TakeInv(l, o, b, lo, hi);
      FreeKeeps(Take(l, o, b), Low(p, o), o + 1, lo, hi);
      forall q: nat ensures Covered(Free(l, p, o), q) <==> Covered(l, q) || Shr(q, o) == Shr(p, o) {
        TakeCovers(l, o, b, q);
        MergedPages(p, o, q);
      }
    } else {
      PutInv(l, o, p, lo, hi);
      forall q: nat ensures Covered(Put(l, o, p), q) <==> Covered(l, q) || Shr(q, o) == Shr(p, o) {
        PutCovers(l, o, p, q);
      }
    }
  }

  // Freeing keeps the lists sound exactly when the block is one of the zone and
  // shares no page with a free block: nothing else checks for it.
  lemma {:induction false} FreeSound(l: Lists, p: nat, o: nat, lo: nat, hi: nat)
    requires Inv(l, lo, hi) && o < |l|
    ensures Inv(Free(l, p, o), lo, hi) <==> Apart(l, p, o) && InZone(p, o, lo, hi)
    decreases |l| - o
  {
    hide Inv, Apart, InZone, Free;
    if Apart(l, p, o) && InZone(p, o, lo, hi) {
      FreeKeeps(l, p, o, lo, hi);
    } else {
      FreeStep(l, p, o);
      var b := Flip(p, o);
      if o < |l| - 1 && Has(l, o, b) {
        TakeInv(l, o, b, lo, hi);
        MergeSound(l, p, o, lo, hi);
        FreeSound(Take(l, o, b), Low(p, o), o + 1, lo, hi);
      } else {
        PutUnsound(l, p, o, lo, hi);
      }
    }
  }

  // Merging with a free buddy mends nothing.
  lemma MergeSound(l: Lists, p: nat, o: nat, lo: nat, hi: nat)
    requires Inv(l, lo, hi) && o + 1 < |l| && Has(l, o, Flip(p, o))
    ensures Apart(Take(l, o, Flip(p, o)), Low(p, o), o + 1) && InZone(Low(p, o), o + 1, lo, hi) ==> Apart(l, p, o) && InZone(p, o, lo, hi)
  {
    var b := Flip(p, o);
    TakeHas(l, o, b);
    FlipFacts(p, o);
    if Apart(Take(l, o, b), Low(p, o), o + 1) && InZone(Low(p, o), o + 1, lo, hi) {
      BuddyPlace(p, o, lo, hi);
      forall u: nat, q: nat | Has(l, u, q) ensures !Clash(p, o, q, u) {
        if u != o || q != b {
          assert Has(Take(l, o, b), u, q);
          if Clash(p, o, q, u) { LowClash(p, o, q, u); }
        }
      }
    }
  }

  // Both halves of a block of the zone lie in the zone.
  lemma BuddyPlace(p: nat, o: nat, lo: nat, hi: nat)
    requires Aligned(Flip(p, o), o) && InZone(Low(p, o), o + 1, lo, hi)
    ensures InZone(p, o, lo, hi)
  {
    FlipFacts(Flip(p, o), o);
    FlipFacts(p, o);
    LowFacts(p, o);
    assert Pow2(o + 1) == 2 * Pow2(o);
  }

  // Who shares a page with one half shares it with the whole.
  lemma LowClash(p: nat, o: nat, q: nat, u: nat)
    requires Clash(p, o, q, u)
    ensures Clash(Low(p, o), o + 1, q, u)
  {
    LowFacts(p, o);
    ShrUp(p, q, Max(o, u), Max(o + 1, u));
    ShrUp(Low(p, o), p, o + 1, Max(o + 1, u));
  }

  // A block out of place, or over a free page, spoils the lists it is put on.
  lemma PutUnsound(l: Lists, p: nat, o: nat, lo: nat, hi: nat)
    requires o < |l| && !(Apart(l, p, o) && InZone(p, o, lo, hi))
    ensures !Inv(Put(l, o, p), lo, hi)
  {
    PutHas(l, o, p);
    assert Has(Put(l, o, p), o, p);
    if !Apart(l, p, o) {
      var u: nat, q: nat :| Has(l, u, q) && Clash(p, o, q, u);
      assert Has(Put(l, o, p), u, q);
      if u == o && q == p {
        var k :| 0 <= k < |l[o]| && l[o][k] == p;
        assert Put(l, o, p)[o][0] == Put(l, o, p)[o][k + 1];
      }
    }
  }

  // On sound lists the block just put there was on none.
  lemma PutAlone(l: Lists, o: nat, p: nat, lo: nat, hi: nat)
    requires o < |l| && Inv(Put(l, o, p), lo, hi)
    ensures forall u: nat :: !Has(l, u, p)
  {
    PutHas(l, o, p);
    forall u: nat ensures !Has(l, u, p) {
      if Has(l, u, p) {
        PutTwice(l, o, p, u, lo, hi);
      }
    }
  }

  lemma PutTwice(l: Lists, o: nat, p: nat, u: nat, lo: nat, hi: nat)
    requires o < |l| && Has(l, u, p)
    ensures !Inv(Put(l, o, p), lo, hi)
  {
    assert Clash(p, o, p, u);
    PutUnsound(l, p, o, lo, hi);
  }

  // Giving the same block back twice spoils the lists.
  lemma DoubleFree(l: Lists, k: nat, lo: nat, hi: nat)
    requires Inv(l, lo, hi) && k < |l| && Alloc(l, k).Some?
    ensures var (p, l') := Alloc(l, k).value; Inv(Free(l', p, k), lo, hi) && !Inv(Free(Free(l', p, k), p, k), lo, hi)
  {
    var (p, l') := Alloc(l, k).value;
    FreeUndoesAlloc(l, k, lo, hi);
    AllocKeeps(l, k, lo, hi);
    assert Covered(l, p);
    var u: nat, q: nat :| Has(l, u, q) && Shr(p, u) == Shr(q, u);
    ShrUp(p, q, u, Max(k, u));
    assert Clash(p, k, q, u);
    FreeSound(l, p, k, lo, hi);
  }

  // So on a zone of two pages that are one free block.
  lemma DoubleFreeOnce()
    ensures Inv([[], [256]], 256, 258) && Alloc([[], [256]], 0) == Some((256, [[257], []]))
    ensures !Inv(Free(Free([[257], []], 256, 0), 256, 0), 256, 258)
  {
    var l: Lists := [[], [256]];
    assert Pow2(1) == 2 && Aligned(256, 1) && PowerOf2(0) == 1;
    assert Inv(l, 256, 258);
    assert LeastOrder(l, 1) == Some(1) && LeastOrder(l, 0) == Some(1);
    var m := l[1 := l[1][1..]];
    assert l[1][1..] == [];
    assert m == [[], []] && [257] + m[0] == [257];
    assert Put(m, 0, 257) == [[257], []];
    assert Split(m, 256, 0, 1) == Split(Put(m, 0, 257), 256, 0, 0);
    DoubleFree(l, 0, 256, 258);
  }

  // Half of a block that is out may be given back by itself: the lists stay
  // sound, and those pages are free.
  lemma HalfGivenBack(l: Lists, p: nat, o: nat, lo: nat, hi: nat)
    requires Inv(l, lo, hi) && o + 1 < |l| && Apart(l, p, o + 1) && InZone(p, o + 1, lo, hi)
    ensures Inv(Free(l, p, o), lo, hi) && forall q: nat :: Covered(Free(l, p, o), q) <==> Covered(l, q) || Shr(q, o) == Shr(p, o)
  {
    HalfApart(l, p, o, lo, hi);
    assert Apart(l, p, o) by {
      forall u: nat, q: nat | Has(l, u, q) ensures !Clash(p, o, q, u) {
        PutHas(l, o, Flip(p, o));
        assert Has(Put(l, o, Flip(p, o)), u, q);
      }
    }
    FreeKeeps(l, p, o, lo, hi);
  }

  // The merged block has the pages of both halves.
  lemma MergedPages(p: nat, o: nat, q: nat)
    ensures Shr(q, o + 1) == Shr(Low(p, o), o + 1) <==> Shr(q, o) == Shr(p, o) || Shr(q, o) == Shr(Flip(p, o), o)
  {
    LowFacts(p, o);
    FlipFacts(p, o);
    if Shr(q, o + 1) == Shr(p, o + 1) {
      TwoHalves(p, q, o);
    } else if Shr(q, o) == Shr(p, o) {
      ShrUp(q, p, o, o + 1);
    } else if Shr(q, o) == Shr(Flip(p, o), o) {
      ShrUp(q, Flip(p, o), o, o + 1);
    }
  }

  lemma TakeCovers(l: Lists, o: nat, b: nat, q: nat)
    requires Has(l, o, b) && NoDup(l[o])
    ensures Covered(l, q) <==> Covered(Take(l, o, b), q) || Shr(q, o) == Shr(b, o)
  {
    TakeHas(l, o, b);
    if Covered(l, q) {
      var u: nat, p: nat :| Has(l, u, p) && Shr(q, u) == Shr(p, u);
      assert (u == o && p == b) || Has(Take(l, o, b), u, p);
    }
    if Covered(Take(l, o, b), q) {
      var u: nat, p: nat :| Has(Take(l, o, b), u, p) && Shr(q, u) == Shr(p, u);
      assert Has(l, u, p);
    }
  }

  lemma PutCovers(l: Lists, o: nat, p: nat, q: nat)
    requires o < |l|
    ensures Covered(Put(l, o, p), q) <==> Covered(l, q) || Shr(q, o) == Shr(p, o)
  {
    PutHas(l, o, p);
    if Covered(l, q) {
      var u: nat, r: nat :| Has(l, u, r) && Shr(q, u) == Shr(r, u);
      assert Has(Put(l, o, p), u, r);
    }
    if Shr(q, o) == Shr(p, o) {
      assert Has(Put(l, o, p), o, p);
    }
  }

  // ---- allocation: the first block of the least order, split down

  // Put the upper halves of (p, high) back, down to order low.
  function Split(l: Lists, p: nat, low: nat, high: nat): (r: Lists)
    requires low <= high < |l|
    ensures |r| == |l|
    decreases high
  {
    if high == low then l else Split(Put(l, high - 1, p + PowerOf2(high - 1)), p, low, high - 1)
  }

  // The least order from k on with a free block.
  function LeastOrder(l: Lists, k: nat): (o: Option<nat>)
    ensures o.Some? ==> k <= o.value < |l| && l[o.value] != [] && forall u: nat :: k <= u < o.value ==> l[u] == []
    ensures o.None? ==> forall u: nat :: k <= u < |l| ==> l[u] == []
    decreases |l| - k
  {
    if k >= |l| then None else if l[k] != [] then Some(k) else LeastOrder(l, k + 1)
  }

  function Alloc(l: Lists, k: nat): (r: Option<(nat, Lists)>) {
    match LeastOrder(l, k)
    case None => None
    case Some(o) => Some((l[o][0], Split(l[o := l[o][1..]], l[o][0], k, o)))
  }

  // Popping the head is taking it.
  lemma PopIsTake(l: Lists, o: nat)
    requires o < |l| && l[o] != []
    ensures l[o := l[o][1..]] == Take(l, o, l[o][0])
  {
  }

  lemma {:induction false} SplitKeeps(l: Lists, p: nat, low: nat, high: nat, lo: nat, hi: nat)
    requires Inv(l, lo, hi) && low <= high < |l| && Apart(l, p, high) && InZone(p, high, lo, hi)
    ensures Inv(Split(l, p, low, high), lo, hi) && Apart(Split(l, p, low, high), p, low) && InZone(p, low, lo, hi)
    ensures forall q: nat :: Covered(Split(l, p, low, high), q) || Shr(q, low) == Shr(p, low) <==> Covered(l, q) || Shr(q, high) == Shr(p, high)
    decreases high
  {
    if low < high {
      var o := high - 1;
      var b := Flip(p, o);
      UpperHalf(p, o);
      var l' := Put(l, o, b);
      assert Split(l, p, low, high) == Split(l', p, low, o);
      HalfApart(l, p, o, lo, hi);
      SplitKeeps(l', p, low, o, lo, hi);
      forall q: nat ensures Covered(l', q) || Shr(q, o) == Shr(p, o) <==> Covered(l, q) || Shr(q, high) == Shr(p, high) {
        PutCovers(l, o, b, q);
        MergedPages(p, o, q);
      }
    }
  }

  lemma HalfApart(l: Lists, p: nat, o: nat, lo: nat, hi: nat)
    requires Inv(l, lo, hi) && o + 1 < |l| && Apart(l, p, o + 1) && InZone(p, o + 1, lo, hi)
    ensures InZone(p, o, lo, hi) && Inv(Put(l, o, Flip(p, o)), lo, hi) && Apart(Put(l, o, Flip(p, o)), p, o)
  {
    var b := Flip(p, o);
    UpperHalf(p, o);
    AlignedDown(p, o + 1, o);
    FlipFacts(p, o);
    assert Pow2(o + 1) == 2 * Pow2(o);
    forall u: nat, q: nat | Has(l, u, q) ensures !Clash(p, o, q, u) && !Clash(b, o, q, u) {
      if Clash(p, o, q, u) {
        ShrUp(p, q, Max(o, u), Max(o + 1, u));
        assert Clash(p, o + 1, q, u);
      }
      if Clash(b, o, q, u) {
        ShrUp(b, q, Max(o, u), Max(o + 1, u));
        ShrUp(b, p, o + 1, Max(o + 1, u));
        assert Clash(p, o + 1, q, u);
      }
    }
    assert Apart(l, p, o);
    ApartHasNot(l, p, o);
    PutInv(l, o, b, lo, hi);
    PutHas(l, o, b);
  }

  // The upper half of a block about to be split can go on its list.
  lemma HalfFree(l: Lists, p: nat, o: nat, lo: nat, hi: nat)
    requires Inv(l, lo, hi) && o + 1 < |l| && Apart(l, p, o + 1) && InZone(p, o + 1, lo, hi)
    ensures Apart(l, Flip(p, o), o) && InZone(Flip(p, o), o, lo, hi) && !Has(l, o, Flip(Flip(p, o), o))
  {
    HalfApart(l, p, o, lo, hi);
    var l' := Put(l, o, Flip(p, o));
    PutHas(l, o, Flip(p, o));
    FlipFacts(p, o);
    assert Has(l', o, Flip(p, o));
    UpperHalf(p, o);
    forall u: nat, q: nat | Has(l, u, q) ensures !Clash(Flip(p, o), o, q, u) {
      assert Has(l', u, q);
    }
  }

  // A block handed out is aligned, inside the zone, was free, and no longer is;
  // all other pages stay as they were.
  lemma AllocKeeps(l: Lists, k: nat, lo: nat, hi: nat)
    requires Inv(l, lo, hi) && Alloc(l, k).Some?
    ensures var (p, l') := Alloc(l, k).value;
      Inv(l', lo, hi) && |l'| == |l| && k < |l| && InZone(p, k, lo, hi) && Apart(l', p, k) &&
      forall q: nat :: Covered(l, q) <==> Covered(l', q) || Shr(q, k) == Shr(p, k)
  {
    var o := LeastOrder(l, k).value;
    var p := l[o][0];
    PopIsTake(l, o);
    assert Has(l, o, p);
    TakeInv(l, o, p, lo, hi);
    SplitKeeps(Take(l, o, p), p, k, o, lo, hi);
    forall q: nat ensures Covered(l, q) <==> Covered(Alloc(l, k).value.1, q) || Shr(q, k) == Shr(p, k) {
      TakeCovers(l, o, p, q);
    }
  }

  // ---- completeness

  // All 2^k pages of the block of order k around page a are free.
  ghost predicate Full(l: Lists, a: nat, k: nat) {
    forall q: nat :: Shr(q, k) == Shr(a, k) ==> Covered(l, q)
  }

  // A fully free block of order k lies inside one free block.
  lemma {:induction false} FullIsOneBlock(l: Lists, a: nat, k: nat, lo: nat, hi: nat) returns (u: nat, b: nat)
    requires Inv(l, lo, hi) && k < |l| && Full(l, a, k)
    ensures k <= u && Has(l, u, b) && Shr(a, u) == Shr(b, u)
    decreases k
  {
    if k == 0 {
      assert Covered(l, a);
      u, b :| Has(l, u, b) && Shr(a, u) == Shr(b, u);
    } else {
      var o, c := k - 1, Flip(a, k - 1);
      FlipFacts(a, o);
      forall q: nat ensures (Shr(q, o) == Shr(a, o) ==> Covered(l, q)) && (Shr(q, o) == Shr(c, o) ==> Covered(l, q)) {
        MergedPages(a, o, q);
        LowFacts(a, o);
      }
      u, b := FullIsOneBlock(l, a, o, lo, hi);
      var v, d := FullIsOneBlock(l, c, o, lo, hi);
      if u == o && v == o {
        FlipFacts(b, o);
        ShrUp(a, b, o, k);
        ShrUp(c, d, o, k);
        TwoHalves(b, d, o);
        AlignedUnique(d, Flip(b, o), o);
        assert false;
      } else if u == o {
        ShrUp(a, c, k, v);
        u, b := v, d;
      }
    }
  }

  // Allocation fails exactly when no aligned run of 2^k pages is free.
  lemma AllocComplete(l: Lists, k: nat, lo: nat, hi: nat)
    requires Inv(l, lo, hi) && k < |l|
    ensures Alloc(l, k).None? <==> forall a: nat :: !Full(l, a, k)
  {
    if Alloc(l, k).None? {
      forall a: nat ensures !Full(l, a, k) {
        if Full(l, a, k) {
          var u, b := FullIsOneBlock(l, a, k, lo, hi);
        }
      }
    } else {
      AllocKeeps(l, k, lo, hi);
      assert Full(l, Alloc(l, k).value.0, k);
    }
  }

  // Two states with the same free pages have the same free blocks: the lists
  // are the one dyadic decomposition of the free set.
  lemma Canonical(l: Lists, m: Lists, lo: nat, hi: nat)
    requires Inv(l, lo, hi) && Inv(m, lo, hi) && |l| == |m|
    requires forall q: nat :: Covered(l, q) <==> Covered(m, q)
    ensures forall o: nat, p: nat :: Has(l, o, p) <==> Has(m, o, p)
  {
    forall o: nat, p: nat | Has(l, o, p) ensures Has(m, o, p) {
      CanonicalBlock(l, m, o, p, lo, hi);
    }
    forall o: nat, p: nat | Has(m, o, p) ensures Has(l, o, p) {
      CanonicalBlock(m, l, o, p, lo, hi);
    }
  }

  lemma CanonicalBlock(l: Lists, m: Lists, o: nat, p: nat, lo: nat, hi: nat)
    requires Inv(l, lo, hi) && Inv(m, lo, hi) && |l| == |m| && Has(l, o, p)
    requires forall q: nat :: Covered(l, q) <==> Covered(m, q)
    ensures Has(m, o, p)
  {
    assert Full(l, p, o);
    assert Full(m, p, o);
    var u, b := FullIsOneBlock(m, p, o, lo, hi);
    assert Full(m, b, u);
    assert Full(l, b, u);
    var w, d := FullIsOneBlock(l, b, u, lo, hi);
    ShrUp(p, b, u, w);
    assert Clash(p, o, d, w);
    AlignedUnique(p, b, o);
  }

  // ---- freeing undoes allocation, list for list

  lemma {:induction false} SplitBelow(l: Lists, p: nat, low: nat, high: nat, u: nat)
    requires u < low <= high < |l|
    ensures Split(l, p, low, high)[u] == l[u]
    decreases high
  {
    if low < high { SplitBelow(Put(l, high - 1, p + Pow2(high - 1)), p, low, high - 1, u); }
  }

  lemma {:induction false} SplitTop(l: Lists, p: nat, low: nat, high: nat)
    requires low < high < |l| && Aligned(p, high)
    ensures Split(l, p, low, high) == Put(Split(l, p, low + 1, high), low, Flip(p, low))
    decreases high
  {
    var o := high - 1;
    UpperHalf(p, o);
    AlignedDown(p, high, o);
    var l' := Put(l, o, p + Pow2(o));
    assert Split(l, p, low, high) == Split(l', p, low, o);
    if low + 1 < high {
      assert Split(l, p, low + 1, high) == Split(l', p, low + 1, o);
      SplitTop(l', p, low, o);
    } else {
      assert Split(l, p, low + 1, high) == l;
    }
  }

  lemma {:induction false} FreeUndoesSplit(l: Lists, p: nat, low: nat, high: nat)
    requires low <= high < |l| && Aligned(p, high)
    requires forall u: nat :: low <= u < high ==> l[u] == []
    requires high < |l| - 1 ==> !Has(l, high, Flip(p, high))
    ensures Free(Split(l, p, low, high), p, low) == Put(l, high, p)
    decreases high - low
  {
    var s := Split(l, p, low, high);
    FreeStep(s, p, low);
    if low < high {
      SplitTop(l, p, low, high);
      SplitBelow(l, p, low + 1, high, low);
      var t := Split(l, p, low + 1, high);
      assert s[low] == [Flip(p, low)];
      AlignedDown(p, high, low + 1);
      UpperHalf(p, low);
      assert Take(s, low, Flip(p, low)) == t;
      FreeUndoesSplit(l, p, low + 1, high);
    }
  }

  // Allocating and freeing at once restores every free list, in order.
  lemma FreeUndoesAlloc(l: Lists, k: nat, lo: nat, hi: nat)
    requires Inv(l, lo, hi) && k < |l| && Alloc(l, k).Some?
    ensures var (p, l') := Alloc(l, k).value; Free(l', p, k) == l
  {
    var o := LeastOrder(l, k).value;
    var p := l[o][0];
    PopIsTake(l, o);
    assert Has(l, o, p);
    TakeHas(l, o, p);
    FreeUndoesSplit(Take(l, o, p), p, k, o);
    assert Put(Take(l, o, p), o, p) == l by {
      assert [p] + l[o][1..] == l[o];
    }
  }

  // ---- the start page of the split

  lemma {:induction false} SplitAbove(l: Lists, p: nat, low: nat, high: nat, u: nat)
    requires low <= high <= u < |l|
    ensures Split(l, p, low, high)[u] == l[u]
    decreases high
  {
    if low < high { SplitAbove(Put(l, high - 1, p + PowerOf2(high - 1)), p, low, high - 1, u); }
  }

  // The lists left when the split of the block found starts from page q.
  function Expanded(l: Lists, k: nat, q: nat): Lists
    requires LeastOrder(l, k).Some?
  {
    var o := LeastOrder(l, k).value;
    Split(l[o := l[o][1..]], q, k, o)
  }

  // They depend on that page exactly when the block is larger than asked for.
  lemma ExpandMatters(l: Lists, k: nat)
    requires LeastOrder(l, k).Some?
    ensures (forall q: nat :: Expanded(l, k, q) == Alloc(l, k).value.1) <==> LeastOrder(l, k) == Some(k)
  {
    var o := LeastOrder(l, k).value;
    var p, l' := l[o][0], l[o := l[o][1..]];
    if o > k {
      SplitAbove(Put(l', o - 1, p + PowerOf2(o - 1)), p, k, o - 1, o - 1);
      SplitAbove(Put(l', o - 1, p + 1 + PowerOf2(o - 1)), p + 1, k, o - 1, o - 1);
      assert Expanded(l, k, p)[o - 1][0] == p + PowerOf2(o - 1);
      assert Expanded(l, k, p + 1)[o - 1][0] == p + 1 + PowerOf2(o - 1);
    }
  }

  // ---- conservation

  // The pages on a list of blocks of order o.
  ghost function PagesOn(n: nat, o: nat): nat {
    if n == 0 then 0 else Pow2(o) + PagesOn(n - 1, o)
  }

  // Free pages on the orders from o on: list length times 2^order each.
  ghost function FreePages(l: Lists, o: nat): nat
    decreases |l| - o
  {
    if o >= |l| then 0 else PagesOn(|l[o]|, o) + FreePages(l, o + 1)
  }

  lemma {:induction false} FreePagesUpdate(l: Lists, o: nat, s: seq<nat>, k: nat)
    requires k <= o < |l|
    ensures FreePages(l[o := s], k) + PagesOn(|l[o]|, o) == FreePages(l, k) + PagesOn(|s|, o)
    decreases |l| - k
  {
    if k < o {
      FreePagesUpdate(l, o, s, k + 1);
    } else {
      FreePagesBelow(l, o, s, k + 1);
    }
  }

  lemma {:induction false} FreePagesBelow(l: Lists, o: nat, s: seq<nat>, k: nat)
    requires o < k && o < |l|
    ensures FreePages(l[o := s], k) == FreePages(l, k)
    decreases |l| - k
  {
    if k < |l| { FreePagesBelow(l, o, s, k + 1); }
  }

  lemma TakePages(l: Lists, o: nat, p: nat)
    requires Has(l, o, p) && NoDup(l[o])
    ensures FreePages(Take(l, o, p), 0) + Pow2(o) == FreePages(l, 0)
  {
    WithoutNoDup(l[o], p);
    FreePagesUpdate(l, o, Without(l[o], p), 0);
  }

  lemma PutPages(l: Lists, o: nat, p: nat)
    requires o < |l|
    ensures FreePages(Put(l, o, p), 0) == FreePages(l, 0) + Pow2(o)
  {
    FreePagesUpdate(l, o, [p] + l[o], 0);
  }

  lemma {:induction false} FreeConserves(l: Lists, p: nat, o: nat, lo: nat, hi: nat)
    requires Inv(l, lo, hi) && o < |l| && Apart(l, p, o) && InZone(p, o, lo, hi)
    ensures FreePages(Free(l, p, o), 0) == FreePages(l, 0) + Pow2(o)
    decreases |l| - o
  {
    FreeStep(l, p, o);
    if o < |l| - 1 && Has(l, o, Flip(p, o)) {
      TakePages(l, o, Flip(p, o));
      MergeApart(l, p, o, lo, hi);
      TakeInv(l, o, Flip(p, o), lo, hi);
      FreeConserves(Take(l, o, Flip(p, o)), Low(p, o), o + 1, lo, hi);
    } else {
      PutPages(l, o, p);
    }
  }

  lemma AllocConserves(l: Lists, k: nat, lo: nat, hi: nat)
    requires Inv(l, lo, hi) && k < |l| && Alloc(l, k).Some?
    ensures FreePages(Alloc(l, k).value.1, 0) + Pow2(k) == FreePages(l, 0)
  {
    AllocKeeps(l, k, lo, hi);
    FreeUndoesAlloc(l, k, lo, hi);
    var (p, l') := Alloc(l, k).value;
    FreeConserves(l', p, k, lo, hi);
  }

  // ---- whole runs over one zone

  datatype Op = AllocOp(order: nat) | FreeOp(index: nat)

  // live: the blocks handed out and not yet given back.
  datatype State = State(free: Lists, live: seq<(nat, nat)>)

  function Step(s: State, op: Op): State {
    match op
    case AllocOp(k) =>
      (match Alloc(s.free, k)
       case None => s
       case Some(r) => State(r.1, s.live + [(r.0, k)]))
    case FreeOp(i) =>
      if i < |s.live| && s.live[i].1 < |s.free| then
        State(Free(s.free, s.live[i].0, s.live[i].1), s.live[..i] + s.live[i + 1..])
      else s
  }

  function Run(s: State, ops: seq<Op>): State
    decreases |ops|
  {
    if ops == [] then s else Run(Step(s, ops[0]), ops[1..])
  }

  // Live blocks are aligned, inside the zone, and share no page with a free
  // block or with each other.
  ghost predicate LiveOk(l: Lists, live: seq<(nat, nat)>, lo: nat, hi: nat) {
    (forall i :: 0 <= i < |live| ==>
      live[i].1 < |l| && InZone(live[i].0, live[i].1, lo, hi) && Apart(l, live[i].0, live[i].1)) &&
    forall i, j :: 0 <= i < j < |live| ==> !Clash(live[i].0, live[i].1, live[j].0, live[j].1)
  }

  ghost function LivePages(live: seq<(nat, nat)>): nat {
    if live == [] then 0 else LivePages(live[..|live| - 1]) + Pow2(live[|live| - 1].1)
  }

  ghost predicate Safe(s: State, lo: nat, hi: nat) {
    Inv(s.free, lo, hi) && LiveOk(s.free, s.live, lo, hi)
  }

  // Page q is free or handed out.
  ghost predicate Known(s: State, q: nat) {
    Covered(s.free, q) || LiveCovers(s.live, q)
  }

  ghost predicate LiveCovers(live: seq<(nat, nat)>, q: nat) {
    exists i :: 0 <= i < |live| && Shr(q, live[i].1) == Shr(live[i].0, live[i].1)
  }

  lemma {:induction false} LivePagesRemove(live: seq<(nat, nat)>, i: nat)
    requires i < |live|
    ensures LivePages(live[..i] + live[i + 1..]) + Pow2(live[i].1) == LivePages(live)
  {
    var n := |live| - 1;
    if i < n {
      LivePagesRemove(live[..n], i);
      var r := live[..i] + live[i + 1..];
      assert r[..n - 1] == live[..n][..i] + live[..n][i + 1..];
      assert r[n - 1] == live[n];
    } else {
      assert live[..i] + live[i + 1..] == live[..n];
    }
  }

  lemma StepAlloc(s: State, k: nat, lo: nat, hi: nat)
    requires Safe(s, lo, hi) && Alloc(s.free, k).Some?
    ensures var t := Step(s, AllocOp(k));
      Safe(t, lo, hi) && |t.free| == |s.free| &&
      FreePages(t.free, 0) + LivePages(t.live) == FreePages(s.free, 0) + LivePages(s.live) &&
      forall q: nat :: Known(t, q) <==> Known(s, q)
  {
    AllocKeeps(s.free, k, lo, hi);
    AllocConserves(s.free, k, lo, hi);
    var (p, l) := Alloc(s.free, k).value;
    var t := Step(s, AllocOp(k));
    assert t.live[..|s.live|] == s.live;
    forall i | 0 <= i < |s.live|
      ensures Apart(l, s.live[i].0, s.live[i].1) && !Clash(s.live[i].0, s.live[i].1, p, k)
    {
      FreshBlock(s.free, l, p, k, s.live[i].0, s.live[i].1, lo, hi);
    }
    forall q: nat ensures Known(t, q) <==> Known(s, q) {
      AddCovers(s.live, p, k, q);
    }
  }

  lemma AddCovers(live: seq<(nat, nat)>, p: nat, k: nat, q: nat)
    ensures LiveCovers(live + [(p, k)], q) <==> LiveCovers(live, q) || Shr(q, k) == Shr(p, k)
  {
    var t := live + [(p, k)];
    if LiveCovers(live, q) {
      var i :| 0 <= i < |live| && Shr(q, live[i].1) == Shr(live[i].0, live[i].1);
      assert t[i] == live[i];
    }
    assert t[|live|] == (p, k);
  }

  // A block (r, o) sharing no page with l shares none with what Alloc makes of
  // it, nor with the block handed out.
  lemma FreshBlock(l: Lists, l': Lists, p: nat, k: nat, r: nat, o: nat, lo: nat, hi: nat)
    requires Apart(l, r, o)
    requires forall q: nat :: Covered(l, q) <==> Covered(l', q) || Shr(q, k) == Shr(p, k)
    requires forall u: nat, q: nat :: Has(l', u, q) ==> Aligned(q, u)
    requires Aligned(p, k) && Aligned(r, o)
    ensures Apart(l', r, o) && !Clash(r, o, p, k)
  {
    forall q: nat | Shr(q, o) == Shr(r, o) ensures !Covered(l, q) {
      ApartUncovers(l, r, o, q);
    }
    forall u: nat, q: nat | Has(l', u, q) ensures !Clash(r, o, q, u) {
      if Clash(r, o, q, u) {
        var x := Meet(r, o, q, u);
        assert Covered(l', x);
      }
    }
    if Clash(r, o, p, k) {
      var x := Meet(r, o, p, k);
    }
  }

  lemma ApartUncovers(l: Lists, p: nat, o: nat, q: nat)
    requires Apart(l, p, o) && Shr(q, o) == Shr(p, o)
    ensures !Covered(l, q)
  {
    if Covered(l, q) {
      var u: nat, r: nat :| Has(l, u, r) && Shr(q, u) == Shr(r, u);
      ShrUp(q, p, o, Max(o, u));
      ShrUp(q, r, u, Max(o, u));
      assert Clash(p, o, r, u);
    }
  }

  // A page two clashing aligned blocks share: the start of the smaller one.
  lemma Meet(p: nat, o: nat, q: nat, u: nat) returns (x: nat)
    requires Clash(p, o, q, u)
    ensures Shr(x, o) == Shr(p, o) && Shr(x, u) == Shr(q, u)
  {
    x := if o <= u then p else q;
  }

  ghost function Drop(live: seq<(nat, nat)>, i: nat): seq<(nat, nat)>
    requires i < |live|
  {
    live[..i] + live[i + 1..]
  }

  lemma StepFree(s: State, i: nat, lo: nat, hi: nat)
    requires Safe(s, lo, hi) && i < |s.live|
    ensures var t := Step(s, FreeOp(i));
      Safe(t, lo, hi) && |t.free| == |s.free| &&
      FreePages(t.free, 0) + LivePages(t.live) == FreePages(s.free, 0) + LivePages(s.live) &&
      forall q: nat :: Known(t, q) <==> Known(s, q)
  {
    var (p, o) := s.live[i];
    FreeKeeps(s.free, p, o, lo, hi);
    FreeConserves(s.free, p, o, lo, hi);
    LivePagesRemove(s.live, i);
    var t := Step(s, FreeOp(i));
    assert t.live == Drop(s.live, i);
    DropOk(s.free, t.free, s.live, i, lo, hi);
    forall q: nat ensures Known(t, q) <==> Known(s, q) {
      DropCovers(s.live, i, q);
    }
  }

  lemma DropOk(l: Lists, l': Lists, live: seq<(nat, nat)>, i: nat, lo: nat, hi: nat)
    requires LiveOk(l, live, lo, hi) && i < |live| && |l| == |l'|
    requires forall q: nat :: Covered(l', q) <==> Covered(l, q) || Shr(q, live[i].1) == Shr(live[i].0, live[i].1)
    ensures LiveOk(l', Drop(live, i), lo, hi)
  {
    var d := Drop(live, i);
    forall j | 0 <= j < |d|
      ensures d[j].1 < |l'| && InZone(d[j].0, d[j].1, lo, hi) && Apart(l', d[j].0, d[j].1)
    {
      var k := if j < i then j else j + 1;
      assert d[j] == live[k];
      assert !Clash(live[i].0, live[i].1, live[k].0, live[k].1);
      GivenBack(l, l', live[i].0, live[i].1, d[j].0, d[j].1);
    }
    forall j, m | 0 <= j < m < |d| ensures !Clash(d[j].0, d[j].1, d[m].0, d[m].1) {
      assert d[j] == live[if j < i then j else j + 1] && d[m] == live[if m < i then m else m + 1];
    }
  }

  lemma DropCovers(live: seq<(nat, nat)>, i: nat, q: nat)
    requires i < |live|
    ensures LiveCovers(live, q) <==> LiveCovers(Drop(live, i), q) || Shr(q, live[i].1) == Shr(live[i].0, live[i].1)
  {
    var d := Drop(live, i);
    if LiveCovers(live, q) {
      var j :| 0 <= j < |live| && Shr(q, live[j].1) == Shr(live[j].0, live[j].1);
      assert j < i ==> d[j] == live[j];
      assert j > i ==> d[j - 1] == live[j];
    }
    if LiveCovers(d, q) {
      var j :| 0 <= j < |d| && Shr(q, d[j].1) == Shr(d[j].0, d[j].1);
      assert d[j] == live[if j < i then j else j + 1];
    }
  }

  lemma GivenBack(l: Lists, l': Lists, p: nat, o: nat, r: nat, v: nat)
    requires Apart(l, r, v) && !Clash(p, o, r, v)
    requires forall q: nat :: Covered(l', q) <==> Covered(l, q) || Shr(q, o) == Shr(p, o)
    ensures Apart(l', r, v)
  {
    forall u: nat, q: nat | Has(l', u, q) ensures !Clash(r, v, q, u) {
      if Clash(r, v, q, u) {
        var x := Meet(r, v, q, u);
        assert Covered(l', x);
        ApartUncovers(l, r, v, x);
        ShrUp(x, p, o, Max(o, v));
        ShrUp(x, r, v, Max(o, v));
      }
    }
  }

  // In every run: blocks stay aligned, inside the zone and disjoint; no page is
  // lost or made up; free plus handed-out pages is constant.
  lemma {:induction false} RunSafe(s: State, ops: seq<Op>, lo: nat, hi: nat)
    requires Safe(s, lo, hi)
    ensures var t := Run(s, ops);
      Safe(t, lo, hi) && |t.free| == |s.free| &&
      FreePages(t.free, 0) + LivePages(t.live) == FreePages(s.free, 0) + LivePages(s.live) &&
      forall q: nat :: Known(t, q) <==> Known(s, q)
    decreases |ops|
  {
    if ops != [] {
      var t := Step(s, ops[0]);
      match ops[0]
      case AllocOp(k) =>
        if Alloc(s.free, k).Some? { StepAlloc(s, k, lo, hi); }
        RunSafe(t, ops[1..], lo, hi);
      case FreeOp(i) =>
        if i < |s.live| { StepFree(s, i, lo, hi); }
        RunSafe(t, ops[1..], lo, hi);
    }
  }

  // Giving everything back, in any order, restores the same free blocks.
  lemma RunRestores(s: State, ops: seq<Op>, lo: nat, hi: nat)
    requires Safe(s, lo, hi) && s.live == [] && Run(s, ops).live == []
    ensures forall o: nat, p: nat :: Has(Run(s, ops).free, o, p) <==> Has(s.free, o, p)
  {
    RunSafe(s, ops, lo, hi);
    var t := Run(s, ops);
    assert forall q: nat :: !LiveCovers(s.live, q) && !LiveCovers(t.live, q);
    forall q: nat ensures Covered(t.free, q) <==> Covered(s.free, q) {
      assert Known(t, q) <==> Known(s, q);
    }
    Canonical(t.free, s.free, lo, hi);
  }
}
