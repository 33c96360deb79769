// build_exclude/buffer_cache.c: one set of buffer heads threaded through the
// hash chains, the LRU list and the dirty list.
module BufferCache {
  import opened Dyadic

  const HASH_BUCKETS: nat := 16384

  datatype BufferState = INVALID | CLEAN | DIRTY

  // The fields of a buffer head; stamp is the time of its last buffer_cache_get.
  datatype Cell = Cell(device: nat, block: nat, refCount: int, dirty: bool, uptodate: bool, locked: bool, state: BufferState,
    hashNext: Buffer?, hashPrev: Buffer?, lruNext: Buffer?, lruPrev: Buffer?, dirtyNext: Buffer?, dirtyPrev: Buffer?, stamp: nat)

  class Buffer {
    var device: nat
    var block: nat
    var refCount: int
    var dirty: bool
    var uptodate: bool
    var locked: bool
    var state: BufferState
    var hashNext: Buffer?
    var hashPrev: Buffer?
    var lruNext: Buffer?
    var lruPrev: Buffer?
    var dirtyNext: Buffer?
    var dirtyPrev: Buffer?
    ghost var stamp: nat

    ghost function Get(): Cell
      reads this
    {
      Cell(device, block, refCount, dirty, uptodate, locked, state, hashNext, hashPrev, lruNext, lruPrev, dirtyNext, dirtyPrev, stamp)
    }

    // buffer_alloc_head and the fields buffer_cache_get fills in.
    constructor (device: nat, block: nat, ghost stamp: nat)
      ensures Get() == Fresh(device, block, stamp)
    {
      this.device, this.block, refCount := device, block, 1;
      dirty, uptodate, locked, state := false, false, false, INVALID;
      hashNext, hashPrev, lruNext, lruPrev, dirtyNext, dirtyPrev := null, null, null, null, null, null;
      this.stamp := stamp;
    }
  }

  ghost function Fresh(device: nat, block: nat, stamp: nat): Cell {
    Cell(device, block, 1, false, false, false, INVALID, null, null, null, null, null, null, stamp)
  }

  type Heads = map<Buffer, Cell>

  ghost function Snap(nodes: set<Buffer>): (m: Heads)
    reads nodes
    ensures m.Keys == nodes
  {
    map b <- nodes :: b.Get()
  }

  // buffer_hash_function
  function Hash(device: nat, block: nat): (h: nat)
    ensures h < HASH_BUCKETS
  {
    var a := Xor(device, block);
    var b := Xor(a, a / 0x1_0000);
    Xor(b, b / 0x100) % HASH_BUCKETS
  }

  // ---- sequences of buffers

  ghost function At(s: seq<Buffer>, i: int): Buffer? {
    if 0 <= i < |s| then s[i] else null
  }

  ghost predicate NoDup(s: seq<Buffer>) {
    forall i, j :: 0 <= i < j < |s| ==> s[i] != s[j]
  }

  ghost function Cut(s: seq<Buffer>, i: nat): (r: seq<Buffer>)
    requires i < |s|
    ensures |r| == |s| - 1
  {
    s[..i] + s[i + 1..]
  }

  lemma CutNoDup(s: seq<Buffer>, i: nat)
    requires NoDup(s) && i < |s|
    ensures NoDup(Cut(s, i)) && s[i] !in Cut(s, i)
    ensures forall b :: b in s && b != s[i] ==> b in Cut(s, i)
    ensures forall b :: b in Cut(s, i) ==> b in s
  {
    var r := Cut(s, i);
    forall b | b in s && b != s[i] ensures b in r {
      var k :| 0 <= k < |s| && s[k] == b;
      assert b == r[if k < i then k else k - 1];
    }
  }

  // ---- three doubly linked lists over one set of heads

  datatype Kind = HashList | LruList | DirtyList

  datatype Link = Link(next: Buffer?, prev: Buffer?)

  ghost function LinkOf(c: Cell, k: Kind): Link {
    match k
    case HashList => Link(c.hashNext, c.hashPrev)
    case LruList => Link(c.lruNext, c.lruPrev)
    case DirtyList => Link(c.dirtyNext, c.dirtyPrev)
  }

  // The heads of s are linked in this order.
  ghost predicate Linked(s: seq<Buffer>, m: Heads, k: Kind) {
    NoDup(s) && (forall x <- s :: x in m) &&
    forall i: nat {:trigger m[s[i]]} :: i < |s| ==> LinkOf(m[s[i]], k) == Link(At(s, i + 1), At(s, i - 1))
  }

  // Pushing b in front: the old first head points back at it.
  lemma PushLinked(s: seq<Buffer>, m: Heads, b: Buffer, m': Heads, k: Kind)
    requires Linked(s, m, k) && b !in s && b in m' && LinkOf(m'[b], k) == Link(At(s, 0), null)
    requires forall x <- s :: x in m && x in m' && LinkOf(m'[x], k) == Link(LinkOf(m[x], k).next, if x == At(s, 0) then b else LinkOf(m[x], k).prev)
    ensures Linked([b] + s, m', k)
  {
    var t := [b] + s;
    forall i: nat | i < |t| ensures t[i] in m' && LinkOf(m'[t[i]], k) == Link(At(t, i + 1), At(t, i - 1)) {
      if i > 0 { assert t[i] == s[i - 1] && LinkOf(m[s[i - 1]], k) == Link(At(s, i), At(s, i - 2)); }
    }
  }

  // The link of x once s[i] is out: its neighbours point past it.
  ghost function Past(s: seq<Buffer>, i: nat, l: Link, x: Buffer): Link {
    Link(if x == At(s, i - 1) then At(s, i + 1) else l.next, if x == At(s, i + 1) then At(s, i - 1) else l.prev)
  }

  ghost function WithNext(m: Heads, b: Buffer?, x: Buffer?, k: Kind): Heads
    requires b == null || b in m
  {
    if b == null then m else
    match k
    case HashList => m[b := m[b].(hashNext := x)]
    case LruList => m[b := m[b].(lruNext := x)]
    case DirtyList => m[b := m[b].(dirtyNext := x)]
  }

  ghost function WithPrev(m: Heads, b: Buffer?, x: Buffer?, k: Kind): Heads
    requires b == null || b in m
  {
    if b == null then m else
    match k
    case HashList => m[b := m[b].(hashPrev := x)]
    case LruList => m[b := m[b].(lruPrev := x)]
    case DirtyList => m[b := m[b].(dirtyPrev := x)]
  }

  // Everything but the links of one list is as before.
  ghost predicate SameBut(k: Kind, m: Heads, m': Heads) {
    m.Keys == m'.Keys && forall b <- m :: Bare(m[b], k) == Bare(m'[b], k)
  }

  ghost function Bare(c: Cell, k: Kind): Cell {
    match k
    case HashList => c.(hashNext := null, hashPrev := null)
    case LruList => c.(lruNext := null, lruPrev := null)
    case DirtyList => c.(dirtyNext := null, dirtyPrev := null)
  }

  // The pointer writes of the three push-front routines.
  ghost function PushWrites(m: Heads, b: Buffer, first: Buffer?, k: Kind): Heads
    requires b in m && (first == null || first in m)
  {
    WithPrev(WithPrev(WithNext(m, b, first, k), b, null, k), first, b, k)
  }

  lemma PushDone(s: seq<Buffer>, m: Heads, b: Buffer, k: Kind)
    requires Linked(s, m, k) && b in m && b !in s
    ensures At(s, 0) == null || At(s, 0) in m
    ensures Linked([b] + s, PushWrites(m, b, At(s, 0), k), k) && SameBut(k, m, PushWrites(m, b, At(s, 0), k))
  {
    LinkedKeys(s, m, k);
    var m' := PushWrites(m, b, At(s, 0), k);
    hide LinkOf, Bare, PushWrites, Linked;
    forall x <- m ensures m'.Keys == m.Keys && Bare(m'[x], k) == Bare(m[x], k) &&
        LinkOf(m'[x], k) == if x == b then Link(At(s, 0), null) else Link(LinkOf(m[x], k).next, if x == At(s, 0) then b else LinkOf(m[x], k).prev) {
      PushAt(m, b, At(s, 0), k, x);
    }
    PushLinked(s, m, b, m', k);
  }

  lemma PushAt(m: Heads, b: Buffer, first: Buffer?, k: Kind, x: Buffer)
    requires b in m && (first == null || first in m) && x in m && first != b
    ensures PushWrites(m, b, first, k).Keys == m.Keys && Bare(PushWrites(m, b, first, k)[x], k) == Bare(m[x], k)
    ensures LinkOf(PushWrites(m, b, first, k)[x], k) ==
      if x == b then Link(first, null) else Link(LinkOf(m[x], k).next, if x == first then b else LinkOf(m[x], k).prev)
  {
    hide WithNext, WithPrev, Bare, LinkOf;
    var m1 := WithNext(m, b, first, k);
    NextAt(m, b, first, k, x);
    PrevAt(m1, b, null, k, x);
    PrevAt(WithPrev(m1, b, null, k), first, b, k, x);
  }

  lemma NextAt(m: Heads, b: Buffer?, v: Buffer?, k: Kind, x: Buffer)
    requires (b == null || b in m) && x in m
    ensures WithNext(m, b, v, k).Keys == m.Keys && Bare(WithNext(m, b, v, k)[x], k) == Bare(m[x], k)
    ensures LinkOf(WithNext(m, b, v, k)[x], k) == Link(if x == b then v else LinkOf(m[x], k).next, LinkOf(m[x], k).prev)
  {
  }

  lemma PrevAt(m: Heads, b: Buffer?, v: Buffer?, k: Kind, x: Buffer)
    requires (b == null || b in m) && x in m
    ensures WithPrev(m, b, v, k).Keys == m.Keys && Bare(WithPrev(m, b, v, k)[x], k) == Bare(m[x], k)
    ensures LinkOf(WithPrev(m, b, v, k)[x], k) == Link(LinkOf(m[x], k).next, if x == b then v else LinkOf(m[x], k).prev)
  {
  }

  // Pointing the neighbours p and n of a buffer past it.
  ghost function PastWrites(m: Heads, p: Buffer?, n: Buffer?, k: Kind): Heads
    requires (p == null || p in m) && (n == null || n in m)
  {
    WithPrev(WithNext(m, p, n, k), n, p, k)
  }

  // The two removals that also clear the links of the buffer.
  ghost function CutWrites(m: Heads, b: Buffer, p: Buffer?, n: Buffer?, k: Kind): Heads
    requires b in m && (p == null || p in m) && (n == null || n in m)
  {
    WithPrev(WithNext(PastWrites(m, p, n, k), b, null, k), b, null, k)
  }

  lemma PastAt(m: Heads, p: Buffer?, n: Buffer?, k: Kind, x: Buffer)
    requires (p == null || p in m) && (n == null || n in m) && x in m
    ensures PastWrites(m, p, n, k).Keys == m.Keys && Bare(PastWrites(m, p, n, k)[x], k) == Bare(m[x], k)
    ensures LinkOf(PastWrites(m, p, n, k)[x], k) == Link(if x == p then n else LinkOf(m[x], k).next, if x == n then p else LinkOf(m[x], k).prev)
  {
    NextAt(m, p, n, k, x);
    PrevAt(WithNext(m, p, n, k), n, p, k, x);
    hide WithNext, WithPrev, Bare, LinkOf;
  }

  lemma CutAt(m: Heads, b: Buffer, p: Buffer?, n: Buffer?, k: Kind, x: Buffer)
    requires b in m && (p == null || p in m) && (n == null || n in m) && x in m
    ensures CutWrites(m, b, p, n, k).Keys == m.Keys && Bare(CutWrites(m, b, p, n, k)[x], k) == Bare(m[x], k)
    ensures x != b ==> LinkOf(CutWrites(m, b, p, n, k)[x], k) == LinkOf(PastWrites(m, p, n, k)[x], k)
  {
    PastAt(m, p, n, k, x);
    var m1 := PastWrites(m, p, n, k);
    NextAt(m1, b, null, k, x);
    PrevAt(WithNext(m1, b, null, k), b, null, k, x);
    hide WithNext, WithPrev, Bare, LinkOf, PastWrites;
  }

  lemma PastDone(s: seq<Buffer>, m: Heads, i: nat, k: Kind)
    requires Linked(s, m, k) && i < |s|
    ensures var p, n := At(s, i - 1), At(s, i + 1); (p == null || p in m) && (n == null || n in m)
    ensures var m' := PastWrites(m, At(s, i - 1), At(s, i + 1), k); Linked(Cut(s, i), m', k) && SameBut(k, m, m')
    ensures forall x <- m :: x !in s ==> LinkOf(PastWrites(m, At(s, i - 1), At(s, i + 1), k)[x], k) == LinkOf(m[x], k)
  {
    LinkedAt(s, m, i, k);
    var m' := PastWrites(m, At(s, i - 1), At(s, i + 1), k);
    forall x <- m ensures m'.Keys == m.Keys && Bare(m'[x], k) == Bare(m[x], k) && LinkOf(m'[x], k) == Past(s, i, LinkOf(m[x], k), x) {
      PastAt(m, At(s, i - 1), At(s, i + 1), k, x);
    }
    hide PastWrites, LinkOf, Bare;
    CutLinked(s, m, i, m', k);
  }

  lemma CutDone(s: seq<Buffer>, m: Heads, i: nat, k: Kind)
    requires Linked(s, m, k) && i < |s|
    ensures var p, n := At(s, i - 1), At(s, i + 1); (p == null || p in m) && (n == null || n in m) && s[i] in m
    ensures var m' := CutWrites(m, s[i], At(s, i - 1), At(s, i + 1), k); Linked(Cut(s, i), m', k) && SameBut(k, m, m')
  {
    LinkedAt(s, m, i, k);
    var m' := CutWrites(m, s[i], At(s, i - 1), At(s, i + 1), k);
    forall x <- m ensures m'.Keys == m.Keys && Bare(m'[x], k) == Bare(m[x], k) && (x != s[i] ==> LinkOf(m'[x], k) == Past(s, i, LinkOf(m[x], k), x)) {
      CutAt(m, s[i], At(s, i - 1), At(s, i + 1), k, x);
      PastAt(m, At(s, i - 1), At(s, i + 1), k, x);
    }
    hide CutWrites, LinkOf, Bare;
    CutLinked(s, m, i, m', k);
  }

  lemma CutLinked(s: seq<Buffer>, m: Heads, i: nat, m': Heads, k: Kind)
    requires Linked(s, m, k) && i < |s|
    requires forall x <- s :: x in m && x in m' && (x != s[i] ==> LinkOf(m'[x], k) == Past(s, i, LinkOf(m[x], k), x))
    ensures Linked(Cut(s, i), m', k)
  {
    hide Cut, At, LinkOf, Past, NoDup;
    var t := Cut(s, i);
    CutNoDup(s, i);
    forall n: nat | n < |t| ensures t[n] in m' && LinkOf(m'[t[n]], k) == Link(At(t, n + 1), At(t, n - 1)) {
      var j := if n < i then n else n + 1;
      CutNeighbours(s, i, n, j);
      assert LinkOf(m[s[j]], k) == Link(At(s, j + 1), At(s, j - 1));
    }
  }

  lemma CutNeighbours(s: seq<Buffer>, i: nat, n: nat, j: nat)
    requires NoDup(s) && i < |s| && n < |s| - 1 && j == if n < i then n else n + 1
    ensures Cut(s, i)[n] == s[j] && s[j] != s[i]
    ensures Past(s, i, Link(At(s, j + 1), At(s, j - 1)), s[j]) == Link(At(Cut(s, i), n + 1), At(Cut(s, i), n - 1))
  {
  }

  // Lists none of whose links changed stay linked.
  lemma StaysLinked(s: seq<Buffer>, m: Heads, m': Heads, k: Kind)
    requires Linked(s, m, k) && forall x <- s :: x in m ==> x in m' && LinkOf(m'[x], k) == LinkOf(m[x], k)
    ensures Linked(s, m', k)
  {
  }

  lemma LinkedAt(s: seq<Buffer>, m: Heads, i: nat, k: Kind)
    requires Linked(s, m, k) && i < |s|
    ensures s[i] in m && LinkOf(m[s[i]], k) == Link(At(s, i + 1), At(s, i - 1))
    ensures At(s, i - 1) != s[i] && At(s, i + 1) != s[i] && (At(s, i + 1) != null ==> At(s, i + 1) != At(s, i - 1))
    ensures At(s, i - 1) != null ==> At(s, i - 1) in s
    ensures At(s, i + 1) != null ==> At(s, i + 1) in s
    ensures At(Cut(s, i), 0) == if At(s, i - 1) == null then At(s, i + 1) else At(s, 0)
    ensures At(Cut(s, i), |s| - 2) == if At(s, i + 1) == null then At(s, i - 1) else At(s, |s| - 1)
    ensures forall x <- s :: x in m
  {
  }

  // The chains are disjoint lists.
  ghost predicate AllLinked(c: seq<seq<Buffer>>, m: Heads) {
    (forall h: nat :: h < |c| ==> Linked(c[h], m, HashList)) &&
    forall h: nat, k: nat, x :: h < |c| && k < |c| && x in c[h] && x in c[k] ==> h == k
  }

  lemma ChainPush(c: seq<seq<Buffer>>, m: Heads, h: nat, b: Buffer)
    requires AllLinked(c, m) && h < |c| && b in m && forall k: nat :: k < |c| ==> b !in c[k]
    ensures At(c[h], 0) == null || At(c[h], 0) in m
    ensures var m' := PushWrites(m, b, At(c[h], 0), HashList); AllLinked(c[h := [b] + c[h]], m') && SameBut(HashList, m, m')
  {
    PushDone(c[h], m, b, HashList);
    var c', m' := c[h := [b] + c[h]], PushWrites(m, b, At(c[h], 0), HashList);
    forall k: nat | k < |c| && k != h ensures Linked(c[k], m', HashList) {
      assert At(c[h], 0) != null ==> At(c[h], 0) in c[h];
      StaysLinked(c[k], m, m', HashList);
    }
  }

  lemma ChainPast(c: seq<seq<Buffer>>, m: Heads, h: nat, i: nat)
    requires AllLinked(c, m) && h < |c| && i < |c[h]|
    ensures var p, n := At(c[h], i - 1), At(c[h], i + 1); (p == null || p in m) && (n == null || n in m)
    ensures var m' := PastWrites(m, At(c[h], i - 1), At(c[h], i + 1), HashList); AllLinked(c[h := Cut(c[h], i)], m') && SameBut(HashList, m, m')
  {
    PastDone(c[h], m, i, HashList);
    LinkedAt(c[h], m, i, HashList);
    CutNoDup(c[h], i);
    var m' := PastWrites(m, At(c[h], i - 1), At(c[h], i + 1), HashList);
    hide PastWrites, At, LinkOf;
    forall k: nat | k < |c| && k != h ensures Linked(c[k], m', HashList) {
      assert Linked(c[k], m, HashList);
      forall x <- c[k] ensures x in m ==> x in m' && LinkOf(m'[x], HashList) == LinkOf(m[x], HashList) {
        assert x !in c[h];
      }
      StaysLinked(c[k], m, m', HashList);
    }
  }

  // ---- what is where

  function Bucket(key: (nat, nat)): (h: nat)
    ensures h < HASH_BUCKETS
  {
    Hash(key.0, key.1)
  }

  ghost function Key(c: Cell): (nat, nat) {
    (c.device, c.block)
  }

  // One cached buffer per key; a buffer is on the LRU list exactly when it is
  // on a chain, and then on the chain of its own bucket.
  ghost predicate Placed(m: Heads, lru: seq<Buffer>, chains: seq<seq<Buffer>>) {
    |chains| == HASH_BUCKETS &&
    (forall b <- lru :: b in m && b in chains[Bucket(Key(m[b]))]) &&
    (forall h: nat, b :: h < |chains| && b in chains[h] ==> b in m && b in lru && Bucket(Key(m[b])) == h) &&
    forall a <- lru, b <- lru :: Key(m[a]) == Key(m[b]) ==> a == b
  }

  // The DIRTY flag says what is on the dirty list.
  ghost predicate Flagged(m: Heads, dirtyList: seq<Buffer>) {
    forall b <- m :: m[b].dirty <==> b in dirtyList
  }

  // The LRU list runs from the latest buffer_cache_get to the earliest.
  ghost predicate Stamped(m: Heads, lru: seq<Buffer>, clock: nat) {
    (forall b <- lru :: b in m && m[b].stamp <= clock) &&
    forall i, j :: 0 <= i < j < |lru| ==> m[lru[i]].stamp > m[lru[j]].stamp
  }

  ghost predicate Whole(m: Heads, lru: seq<Buffer>, dirtyList: seq<Buffer>, chains: seq<seq<Buffer>>, clock: nat) {
    Linked(lru, m, LruList) && Linked(dirtyList, m, DirtyList) && AllLinked(chains, m) &&
    Placed(m, lru, chains) && Flagged(m, dirtyList) && Stamped(m, lru, clock)
  }

  lemma SameLinked(s: seq<Buffer>, m: Heads, m': Heads, k: Kind, j: Kind)
    requires SameBut(j, m, m') && k != j && Linked(s, m, k)
    ensures Linked(s, m', k)
  {
    forall x <- s ensures x in m && LinkOf(m'[x], k) == LinkOf(m[x], k) {
      assert Bare(m[x], j) == Bare(m'[x], j);
    }
    StaysLinked(s, m, m', k);
  }

  lemma SameChains(c: seq<seq<Buffer>>, m: Heads, m': Heads, j: Kind)
    requires SameBut(j, m, m') && j != HashList && AllLinked(c, m)
    ensures AllLinked(c, m')
  {
    forall h: nat | h < |c| ensures Linked(c[h], m', HashList) {
      SameLinked(c[h], m, m', HashList, j);
    }
  }

  lemma SameFields(m: Heads, m': Heads, j: Kind)
    requires SameBut(j, m, m')
    ensures m.Keys == m'.Keys
    ensures forall b <- m :: Key(m'[b]) == Key(m[b]) && m'[b].stamp == m[b].stamp && m'[b].dirty == m[b].dirty && m'[b].refCount == m[b].refCount && m'[b].locked == m[b].locked
  {
    forall b <- m ensures Key(m'[b]) == Key(m[b]) && m'[b].stamp == m[b].stamp && m'[b].dirty == m[b].dirty && m'[b].refCount == m[b].refCount && m'[b].locked == m[b].locked {
      assert Bare(m[b], j) == Bare(m'[b], j);
    }
  }

  lemma CutPlaced(m: Heads, lru: seq<Buffer>, chains: seq<seq<Buffer>>, i: nat, h: nat, k: nat)
    requires Placed(m, lru, chains) && i < |lru| && h < |chains| && k < |chains[h]| && lru[i] == chains[h][k]
    requires NoDup(lru) && NoDup(chains[h])
    ensures Placed(m, Cut(lru, i), chains[h := Cut(chains[h], k)])
  {
    CutNoDup(lru, i);
    CutNoDup(chains[h], k);
    hide Bucket, Cut, NoDup;
    assert Bucket(Key(m[lru[i]])) == h;
  }

  lemma CutStamped(m: Heads, lru: seq<Buffer>, clock: nat, i: nat)
    requires Stamped(m, lru, clock) && i < |lru|
    ensures Stamped(m, Cut(lru, i), clock)
  {
    var t := Cut(lru, i);
    forall j | 0 <= j < |t| ensures t[j] == lru[if j < i then j else j + 1] {
    }
    forall j, k | 0 <= j < k < |t| ensures m[t[j]].stamp > m[t[k]].stamp {
      assert t[j] == lru[if j < i then j else j + 1] && t[k] == lru[if k < i then k else k + 1];
    }
  }

  // Taking lru[i] off its chain and off the LRU list.
  lemma UnhookWhole(m0: Heads, m1: Heads, m2: Heads, lru: seq<Buffer>, dirtyList: seq<Buffer>, chains: seq<seq<Buffer>>, clock: nat, i: nat, h: nat, k: nat)
    requires Whole(m0, lru, dirtyList, chains, clock) && i < |lru| && h < |chains| && k < |chains[h]| && lru[i] == chains[h][k]
    requires SameBut(HashList, m0, m1) && SameBut(LruList, m1, m2)
    requires AllLinked(chains[h := Cut(chains[h], k)], m1) && Linked(Cut(lru, i), m2, LruList)
    ensures Whole(m2, Cut(lru, i), dirtyList, chains[h := Cut(chains[h], k)], clock)
  {
    hide Linked, AllLinked, SameBut, Bucket, Key, Cut, Placed, Flagged, Stamped, NoDup;
    NoTwice(m0, lru, chains, h);
    CutPlaced(m0, lru, chains, i, h, k);
    CutStamped(m0, lru, clock, i);
    SameFields(m0, m1, HashList);
    SameFields(m1, m2, LruList);
    SameParts(m0, m2, Cut(lru, i), dirtyList, chains[h := Cut(chains[h], k)], clock);
    SameLinked(dirtyList, m0, m1, DirtyList, HashList);
    SameLinked(dirtyList, m1, m2, DirtyList, LruList);
    SameChains(chains[h := Cut(chains[h], k)], m1, m2, LruList);
  }

  lemma NoTwice(m: Heads, lru: seq<Buffer>, chains: seq<seq<Buffer>>, h: nat)
    requires Linked(lru, m, LruList) && AllLinked(chains, m) && h < |chains|
    ensures NoDup(lru) && NoDup(chains[h])
  {
  }

  lemma SameParts(m: Heads, m': Heads, lru: seq<Buffer>, dirtyList: seq<Buffer>, chains: seq<seq<Buffer>>, clock: nat)
    requires Placed(m, lru, chains) && Flagged(m, dirtyList) && Stamped(m, lru, clock) && m.Keys == m'.Keys
    requires forall b <- m :: Key(m'[b]) == Key(m[b]) && m'[b].stamp == m[b].stamp && m'[b].dirty == m[b].dirty
    ensures Placed(m', lru, chains) && Flagged(m', dirtyList) && Stamped(m', lru, clock)
  {
    hide Key, Bucket;
    SamePlaced(m, m', lru, chains);
  }

  // Fields the hash chains, the LRU list and the keys do not depend on.
  ghost predicate SameRest(m: Heads, m': Heads) {
    m.Keys == m'.Keys &&
    forall b <- m :: Key(m'[b]) == Key(m[b]) && m'[b].stamp == m[b].stamp &&
      LinkOf(m'[b], HashList) == LinkOf(m[b], HashList) && LinkOf(m'[b], LruList) == LinkOf(m[b], LruList)
  }

  lemma RestWhole(m: Heads, m': Heads, lru: seq<Buffer>, chains: seq<seq<Buffer>>, clock: nat)
    requires Linked(lru, m, LruList) && AllLinked(chains, m) && Placed(m, lru, chains) && Stamped(m, lru, clock) && SameRest(m, m')
    ensures Linked(lru, m', LruList) && AllLinked(chains, m') && Placed(m', lru, chains) && Stamped(m', lru, clock)
  {
    StaysLinked(lru, m, m', LruList);
    forall h: nat | h < |chains| ensures Linked(chains[h], m', HashList) {
      StaysLinked(chains[h], m, m', HashList);
    }
    hide Bucket, LinkOf;
  }

  // Putting b on the dirty list, or taking it off, with its flag.
  lemma DirtyWhole(m: Heads, m1: Heads, m2: Heads, lru: seq<Buffer>, dirtyList: seq<Buffer>, dirtyList': seq<Buffer>, chains: seq<seq<Buffer>>, clock: nat,
      b: Buffer, on: bool)
    requires Whole(m, lru, dirtyList, chains, clock) && b in m
    requires SameBut(DirtyList, m, m1) && Linked(dirtyList', m1, DirtyList) && m2 == m1[b := m1[b].(dirty := on)]
    requires forall x <- m :: x in dirtyList' <==> if x == b then on else x in dirtyList
    ensures Whole(m2, lru, dirtyList', chains, clock)
  {
    hide Linked, AllLinked, Placed, Stamped;
    forall x <- m ensures Bare(m1[x], DirtyList) == Bare(m[x], DirtyList) {
    }
    assert SameRest(m, m2);
    RestWhole(m, m2, lru, chains, clock);
    StaysLinked(dirtyList', m1, m2, DirtyList);
  }

  // c with the fields of d that no list depends on.
  ghost function Aside(c: Cell, d: Cell): Cell {
    c.(refCount := d.refCount, uptodate := d.uptodate, locked := d.locked, state := d.state)
  }

  lemma OtherFields(m: Heads, m': Heads, lru: seq<Buffer>, dirtyList: seq<Buffer>, chains: seq<seq<Buffer>>, clock: nat, b: Buffer, d: Cell)
    requires Whole(m, lru, dirtyList, chains, clock) && b in m
    requires m' == m[b := Aside(m[b], d)]
    ensures Whole(m', lru, dirtyList, chains, clock)
  {
    assert SameRest(m, m');
    RestWhole(m, m', lru, chains, clock);
    StaysLinked(dirtyList, m, m', DirtyList);
  }

  lemma FrontPlaced(m: Heads, lru: seq<Buffer>, chains: seq<seq<Buffer>>, i: nat)
    requires Placed(m, lru, chains) && i < |lru| && NoDup(lru)
    ensures Placed(m, [lru[i]] + Cut(lru, i), chains)
  {
    CutNoDup(lru, i);
    hide Bucket, Cut, NoDup;
  }

  lemma FrontStamped(m: Heads, m': Heads, lru: seq<Buffer>, clock: nat, b: Buffer)
    requires Stamped(m, lru, clock) && b !in lru && b in m' && m'[b].stamp == clock + 1
    requires forall a <- lru :: a in m' && m'[a].stamp == m[a].stamp
    ensures Stamped(m', [b] + lru, clock + 1)
  {
  }

  // Only the stamp of b differs.
  lemma StampFields(m: Heads, b: Buffer, t: nat, x: Buffer)
    requires b in m && x in m
    ensures var c := m[b := m[b].(stamp := t)][x]; LinkOf(c, HashList) == LinkOf(m[x], HashList) && LinkOf(c, LruList) == LinkOf(m[x], LruList) && LinkOf(c, DirtyList) == LinkOf(m[x], DirtyList) && Key(c) == Key(m[x]) && c.dirty == m[x].dirty && c.stamp == if x == b then t else m[x].stamp
  {
  }

  lemma SamePlaced(m: Heads, m': Heads, lru: seq<Buffer>, chains: seq<seq<Buffer>>)
    requires Placed(m, lru, chains) && m.Keys == m'.Keys && forall x <- m :: Key(m'[x]) == Key(m[x])
    ensures Placed(m', lru, chains)
  {
    hide Bucket, Key;
  }

  // Moving lru[i] to the front and stamping it.
  lemma TouchWhole(m: Heads, m2: Heads, m3: Heads, lru: seq<Buffer>, dirtyList: seq<Buffer>, chains: seq<seq<Buffer>>, clock: nat, i: nat)
    requires Whole(m, lru, dirtyList, chains, clock) && i < |lru| && lru[i] in m
    requires SameBut(LruList, m, m2) && Linked([lru[i]] + Cut(lru, i), m2, LruList) && m3 == m2[lru[i] := m2[lru[i]].(stamp := clock + 1)]
    ensures Whole(m3, [lru[i]] + Cut(lru, i), dirtyList, chains, clock + 1)
  {
    var b, s := lru[i], [lru[i]] + Cut(lru, i);
    SameFields(m, m2, LruList);
    forall x <- m2 ensures LinkOf(m3[x], HashList) == LinkOf(m2[x], HashList) && LinkOf(m3[x], LruList) == LinkOf(m2[x], LruList) && LinkOf(m3[x], DirtyList) == LinkOf(m2[x], DirtyList) && Key(m3[x]) == Key(m2[x]) && m3[x].dirty == m2[x].dirty && m3[x].stamp == if x == b then clock + 1 else m2[x].stamp {
      StampFields(m2, b, clock + 1, x);
    }
    hide LinkOf, Key, Cut, Bucket, NoDup, At, SameBut;
    TouchLists(m, m2, m3, lru, dirtyList, chains, i);
    FrontPlaced(m, lru, chains, i);
    SamePlaced(m, m3, s, chains);
    CutStamped(m, lru, clock, i);
    CutNoDup(lru, i);
    FrontStamped(m, m3, Cut(lru, i), clock, b);
  }

  lemma TouchLists(m: Heads, m2: Heads, m3: Heads, lru: seq<Buffer>, dirtyList: seq<Buffer>, chains: seq<seq<Buffer>>, i: nat)
    requires i < |lru| && Linked(dirtyList, m, DirtyList) && AllLinked(chains, m)
    requires SameBut(LruList, m, m2) && Linked([lru[i]] + Cut(lru, i), m2, LruList) && m2.Keys == m3.Keys
    requires forall x <- m2 :: LinkOf(m3[x], HashList) == LinkOf(m2[x], HashList) && LinkOf(m3[x], LruList) == LinkOf(m2[x], LruList) && LinkOf(m3[x], DirtyList) == LinkOf(m2[x], DirtyList)
    ensures Linked(dirtyList, m3, DirtyList) && AllLinked(chains, m3) && Linked([lru[i]] + Cut(lru, i), m3, LruList)
  {
    SameLinked(dirtyList, m, m2, DirtyList, LruList);
    SameChains(chains, m, m2, LruList);
    StaysLinked([lru[i]] + Cut(lru, i), m2, m3, LruList);
    StaysLinked(dirtyList, m2, m3, DirtyList);
    forall h: nat | h < |chains| ensures Linked(chains[h], m3, HashList) {
      StaysLinked(chains[h], m2, m3, HashList);
    }
  }

  // A new head, pushed on its chain and on the LRU list.
  lemma InsertWhole(m: Heads, m1: Heads, m2: Heads, m3: Heads, lru: seq<Buffer>, dirtyList: seq<Buffer>, chains: seq<seq<Buffer>>, clock: nat, b: Buffer, h: nat)
    requires Whole(m, lru, dirtyList, chains, clock) && b !in m && b in m1 && m1 == m[b := m1[b]]
    requires !m1[b].dirty && m1[b].stamp == clock + 1 && h == Bucket(Key(m1[b])) && forall a <- lru :: a in m ==> Key(m[a]) != Key(m1[b])
    requires SameBut(HashList, m1, m2) && h < |chains| && AllLinked(chains[h := [b] + chains[h]], m2)
    requires SameBut(LruList, m2, m3) && Linked([b] + lru, m3, LruList)
    ensures Whole(m3, [b] + lru, dirtyList, chains[h := [b] + chains[h]], clock + 1)
  {
    hide Linked, AllLinked, SameBut, Bucket, Key, LinkOf, Placed;
    LinkedKeys(lru, m, LruList);
    LinkedKeys(dirtyList, m, DirtyList);
    StaysLinked(dirtyList, m, m1, DirtyList);
    SameLinked(dirtyList, m1, m2, DirtyList, HashList);
    SameLinked(dirtyList, m2, m3, DirtyList, LruList);
    SameChains(chains[h := [b] + chains[h]], m2, m3, LruList);
    SameFields(m1, m2, HashList);
    SameFields(m2, m3, LruList);
    assert forall a <- lru :: a in m3 && Key(m3[a]) == Key(m[a]) && m3[a].stamp == m[a].stamp;
    assert b !in lru && b !in dirtyList;
    FrontStamped(m, m3, lru, clock, b);
    InsertPlaced(m, m3, lru, chains, b, h);
  }

  lemma LinkedKeys(s: seq<Buffer>, m: Heads, k: Kind)
    requires Linked(s, m, k)
    ensures forall a <- s :: a in m
  {
  }

  lemma InsertPlaced(m: Heads, m3: Heads, lru: seq<Buffer>, chains: seq<seq<Buffer>>, b: Buffer, h: nat)
    requires Placed(m, lru, chains) && b !in lru && b in m3 && h == Bucket(Key(m3[b]))
    requires forall a <- lru :: a in m3 && Key(m3[a]) == Key(m[a]) != Key(m3[b])
    ensures Placed(m3, [b] + lru, chains[h := [b] + chains[h]])
  {
    hide Bucket, Key;
  }

  // Nothing but links differs.
  ghost predicate SameData(m: Heads, m': Heads) {
    m.Keys == m'.Keys && forall b <- m :: Data(m[b]) == Data(m'[b])
  }

  ghost function Data(c: Cell): Cell {
    Bare(Bare(Bare(c, HashList), LruList), DirtyList)
  }

  lemma SameButData(m: Heads, m': Heads, k: Kind)
    requires SameBut(k, m, m')
    ensures SameData(m, m')
  {
    forall b <- m ensures Data(m[b]) == Data(m'[b]) {
      assert Bare(m[b], k) == Bare(m'[b], k);
    }
  }

  lemma UnhookData(m: Heads, m1: Heads, m2: Heads)
    requires SameBut(HashList, m, m1) && SameBut(LruList, m1, m2)
    ensures SameData(m, m2)
  {
    SameButData(m, m1, HashList);
    SameButData(m1, m2, LruList);
    hide Data;
  }

  lemma SameDataTwice(m: Heads, m1: Heads, m2: Heads)
    requires SameData(m, m1) && SameData(m1, m2)
    ensures SameData(m, m2)
  {
    hide Data;
  }

  lemma DataFields(m: Heads, m1: Heads, b: Buffer)
    requires SameData(m, m1) && b in m
    ensures b in m1 && m1[b].refCount == m[b].refCount && m1[b].dirty == m[b].dirty && m1[b].locked == m[b].locked && Key(m1[b]) == Key(m[b]) && m1[b].state == m[b].state
  {
    assert Data(m[b]) == Data(m1[b]);
  }

  // ---- what eviction leaves

  ghost function Evictable(m: Heads): set<Buffer> {
    set b <- m | m[b].refCount == 0 && !m[b].dirty
  }

  // s without the first c members of ev counted from the tail.
  ghost function Survivors(s: seq<Buffer>, ev: set<Buffer>, c: nat): seq<Buffer> {
    if s == [] || c == 0 then s else
    var last := |s| - 1;
    if s[last] in ev then Survivors(s[..last], ev, c - 1) else Survivors(s[..last], ev, c) + [s[last]]
  }

  // What making room leaves of the LRU list.
  ghost function Left(s: seq<Buffer>, m: Heads, headOk: bool): seq<Buffer> {
    if headOk then s else Survivors(s, Evictable(m), 16)
  }

  // Exactly c buffers go, or every evictable one; the others keep their order,
  // and a buffer that went lies behind every evictable one that stayed.
  lemma {:induction false} SurvivorsMean(s: seq<Buffer>, ev: set<Buffer>, c: nat)
    ensures |s| - c <= |Survivors(s, ev, c)| <= |s|
    ensures |s| - |Survivors(s, ev, c)| < c ==> forall b <- Survivors(s, ev, c) :: b !in ev
    ensures exists n: nat :: n <= |s| && CutPoint(s, ev, c, n)
  {
    if s != [] && c > 0 {
      var last := |s| - 1;
      SurvivorsMean(s[..last], ev, if s[last] in ev then c - 1 else c);
    }
    SurvivorsCut(s, ev, c);
  }

  lemma {:induction false} SurvivorsCut(s: seq<Buffer>, ev: set<Buffer>, c: nat)
    ensures exists n: nat :: n <= |s| && CutPoint(s, ev, c, n)
  {
    hide Keep;
    if s == [] || c == 0 {
      KeepEmpty(ev);
      assert s[|s|..] == [];
      assert CutPoint(s, ev, c, |s|);
    } else {
      var last := |s| - 1;
      var t := s[..last];
      var d := if s[last] in ev then c - 1 else c;
      SurvivorsCut(t, ev, d);
      var n: nat :| n <= |t| && CutPoint(t, ev, d, n);
      assert t[..n] == s[..n];
      assert s[n..] == t[n..] + [s[last]];
      KeepSnoc(t[n..], s[last], ev);
      assert CutPoint(s, ev, c, n);
    }
  }

  lemma KeepEmpty(gone: set<Buffer>)
    ensures Keep([], gone) == []
  {
  }

  // From position n on nothing evictable is left, and before it nothing went.
  ghost predicate CutPoint(s: seq<Buffer>, ev: set<Buffer>, c: nat, n: nat)
    requires n <= |s|
  {
    Survivors(s, ev, c) == s[..n] + Keep(s[n..], ev)
  }

  // s without the members of gone.
  ghost function Keep(s: seq<Buffer>, gone: set<Buffer>): seq<Buffer> {
    if s == [] then [] else (if s[0] in gone then [] else [s[0]]) + Keep(s[1..], gone)
  }

  lemma {:induction false} KeepMembers(s: seq<Buffer>, gone: set<Buffer>, b: Buffer)
    ensures b in Keep(s, gone) <==> b in s && b !in gone
  {
    if s != [] {
      KeepMembers(s[1..], gone, b);
    }
  }

  lemma {:induction false} KeepSnoc(s: seq<Buffer>, b: Buffer, gone: set<Buffer>)
    ensures Keep(s + [b], gone) == Keep(s, gone) + if b in gone then [] else [b]
  {
    if s == [] {
      assert [b][1..] == [];
    } else {
      assert (s + [b])[1..] == s[1..] + [b];
      KeepSnoc(s[1..], b, gone);
    }
  }

  class Cache {
    var table: seq<Buffer?>
    var lruHead: Buffer?
    var lruTail: Buffer?
    var dirtyHead: Buffer?
    var dirtyTail: Buffer?
    var cachedBuffers: int
    var dirtyBuffers: nat
    var hits: nat
    var misses: nat
    var evictions: nat
    ghost var nodes: set<Buffer>
    ghost var lru: seq<Buffer>
    ghost var dirtyList: seq<Buffer>
    ghost var chains: seq<seq<Buffer>>
    ghost var orphans: nat
    ghost var clock: nat

    // buffer_cache_init
    constructor ()
      ensures Valid() && lru == [] && dirtyList == [] && nodes == {} && orphans == 0 && cachedBuffers == 0
    {
      table := seq(HASH_BUCKETS, _ => null);
      lruHead, lruTail, dirtyHead, dirtyTail := null, null, null, null;
      cachedBuffers, dirtyBuffers, hits, misses, evictions := 0, 0, 0, 0, 0;
      nodes, lru, dirtyList, orphans, clock := {}, [], [], 0, 0;
      chains := seq(HASH_BUCKETS, _ => []);
    }

    // Field writes, as updates of the snapshot.

    method SetHashNext(b: Buffer, x: Buffer?)
      requires b in nodes
      modifies b`hashNext
      ensures Snap(nodes) == old(Snap(nodes))[b := old(Snap(nodes))[b].(hashNext := x)]
    {
      b.hashNext := x;
    }

    method SetHashPrev(b: Buffer, x: Buffer?)
      requires b in nodes
      modifies b`hashPrev
      ensures Snap(nodes) == old(Snap(nodes))[b := old(Snap(nodes))[b].(hashPrev := x)]
    {
      b.hashPrev := x;
    }

    method SetLruNext(b: Buffer, x: Buffer?)
      requires b in nodes
      modifies b`lruNext
      ensures Snap(nodes) == old(Snap(nodes))[b := old(Snap(nodes))[b].(lruNext := x)]
    {
      b.lruNext := x;
    }

    method SetLruPrev(b: Buffer, x: Buffer?)
      requires b in nodes
      modifies b`lruPrev
      ensures Snap(nodes) == old(Snap(nodes))[b := old(Snap(nodes))[b].(lruPrev := x)]
    {
      b.lruPrev := x;
    }

    method SetDirtyNext(b: Buffer, x: Buffer?)
      requires b in nodes
      modifies b`dirtyNext
      ensures Snap(nodes) == old(Snap(nodes))[b := old(Snap(nodes))[b].(dirtyNext := x)]
    {
      b.dirtyNext := x;
    }

    method SetDirtyPrev(b: Buffer, x: Buffer?)
      requires b in nodes
      modifies b`dirtyPrev
      ensures Snap(nodes) == old(Snap(nodes))[b := old(Snap(nodes))[b].(dirtyPrev := x)]
    {
      b.dirtyPrev := x;
    }

    method SetDirty(b: Buffer, x: bool)
      requires b in nodes
      modifies b`dirty
      ensures Snap(nodes) == old(Snap(nodes))[b := old(Snap(nodes))[b].(dirty := x)]
    {
      b.dirty := x;
    }

    method SetRefCount(b: Buffer, x: int)
      requires b in nodes
      modifies b`refCount
      ensures Snap(nodes) == old(Snap(nodes))[b := old(Snap(nodes))[b].(refCount := x)]
    {
      b.refCount := x;
    }

    method SetUptodate(b: Buffer, x: bool)
      requires b in nodes
      modifies b`uptodate
      ensures Snap(nodes) == old(Snap(nodes))[b := old(Snap(nodes))[b].(uptodate := x)]
    {
      b.uptodate := x;
    }

    method SetLocked(b: Buffer, x: bool)
      requires b in nodes
      modifies b`locked
      ensures Snap(nodes) == old(Snap(nodes))[b := old(Snap(nodes))[b].(locked := x)]
    {
      b.locked := x;
    }

    method SetState(b: Buffer, x: BufferState)
      requires b in nodes
      modifies b`state
      ensures Snap(nodes) == old(Snap(nodes))[b := old(Snap(nodes))[b].(state := x)]
    {
      b.state := x;
    }

    ghost method SetStamp(b: Buffer, x: nat)
      requires b in nodes
      modifies b`stamp
      ensures Snap(nodes) == old(Snap(nodes))[b := old(Snap(nodes))[b].(stamp := x)]
    {
      b.stamp := x;
    }

    ghost predicate LruLinked()
      reads this, nodes
    {
      Linked(lru, Snap(nodes), LruList) && lruHead == At(lru, 0) && lruTail == At(lru, |lru| - 1)
    }

    lemma HeadFields(b: Buffer)
      requires b in nodes
      ensures Snap(nodes)[b] == b.Get()
    {
    }

    // buffer_lru_add
    method LruAdd(b: Buffer)
      requires LruLinked() && b in nodes && b !in lru
      modifies this`lru, this`lruHead, this`lruTail, nodes
      ensures LruLinked() && lru == [b] + old(lru) && SameBut(LruList, old(Snap(nodes)), Snap(nodes))
    {
      hide Snap, Linked, SameBut;
      PushDone(lru, Snap(nodes), b, LruList);
      SetLruNext(b, lruHead);
      SetLruPrev(b, null);
      if lruHead != null {
        SetLruPrev(lruHead, b);
      } else {
        lruTail := b;
      }
      lruHead := b;
      lru := [b] + lru;
    }

    // Pointing the neighbours past b.
    method LruPast(prev: Buffer?, next: Buffer?)
      requires (prev == null || prev in nodes) && (next == null || next in nodes)
      modifies this`lruHead, this`lruTail, nodes
      ensures Snap(nodes) == PastWrites(old(Snap(nodes)), prev, next, LruList)
      ensures lruHead == (if prev == null then next else old(lruHead)) && lruTail == (if next == null then prev else old(lruTail))
    {
      hide Snap;
      if prev != null {
        SetLruNext(prev, next);
      } else {
        lruHead := next;
      }
      if next != null {
        SetLruPrev(next, prev);
      } else {
        lruTail := prev;
      }
    }

    lemma LruNeighbours(b: Buffer, i: nat)
      requires LruLinked() && i < |lru| && b == lru[i]
      ensures var m, p, n := Snap(nodes), b.lruPrev, b.lruNext;
        b in nodes && (p == null || p in nodes) && (n == null || n in nodes) &&
        Linked(Cut(lru, i), CutWrites(m, b, p, n, LruList), LruList) && SameBut(LruList, m, CutWrites(m, b, p, n, LruList)) &&
        At(Cut(lru, i), 0) == (if p == null then n else lruHead) && At(Cut(lru, i), |lru| - 2) == (if n == null then p else lruTail)
    {
      CutDone(lru, Snap(nodes), i, LruList);
      LinkedAt(lru, Snap(nodes), i, LruList);
      HeadFields(b);
    }

    // buffer_lru_remove
    method LruRemove(b: Buffer, ghost i: nat)
      requires LruLinked() && i < |lru| && b == lru[i]
      modifies this`lru, this`lruHead, this`lruTail, nodes
      ensures LruLinked() && lru == Cut(old(lru), i) && SameBut(LruList, old(Snap(nodes)), Snap(nodes))
    {
      hide Snap, Linked, SameBut, At, Cut, PastWrites;
      LruNeighbours(b, i);
      LruPast(b.lruPrev, b.lruNext);
      SetLruNext(b, null);
      SetLruPrev(b, null);
      lru := Cut(lru, i);
    }

    ghost predicate DirtyLinked()
      reads this, nodes
    {
      Linked(dirtyList, Snap(nodes), DirtyList) && dirtyHead == At(dirtyList, 0) && dirtyTail == At(dirtyList, |dirtyList| - 1)
    }

    // The pointers of buffer_dirty_add.
    method DirtyLinkIn(b: Buffer)
      requires DirtyLinked() && b in nodes && b !in dirtyList
      modifies this`dirtyList, this`dirtyHead, this`dirtyTail, nodes
      ensures DirtyLinked() && dirtyList == [b] + old(dirtyList) && SameBut(DirtyList, old(Snap(nodes)), Snap(nodes))
    {
      hide Snap, Linked, SameBut;
      PushDone(dirtyList, Snap(nodes), b, DirtyList);
      SetDirtyNext(b, dirtyHead);
      SetDirtyPrev(b, null);
      if dirtyHead != null {
        SetDirtyPrev(dirtyHead, b);
      } else {
        dirtyTail := b;
      }
      dirtyHead := b;
      dirtyList := [b] + dirtyList;
    }

    method DirtyPast(prev: Buffer?, next: Buffer?)
      requires (prev == null || prev in nodes) && (next == null || next in nodes)
      modifies this`dirtyHead, this`dirtyTail, nodes
      ensures Snap(nodes) == PastWrites(old(Snap(nodes)), prev, next, DirtyList)
      ensures dirtyHead == (if prev == null then next else old(dirtyHead)) && dirtyTail == (if next == null then prev else old(dirtyTail))
    {
      hide Snap;
      if prev != null {
        SetDirtyNext(prev, next);
      } else {
        dirtyHead := next;
      }
      if next != null {
        SetDirtyPrev(next, prev);
      } else {
        dirtyTail := prev;
      }
    }

    lemma DirtyNeighbours(b: Buffer, i: nat)
      requires DirtyLinked() && i < |dirtyList| && b == dirtyList[i]
      ensures var m, p, n := Snap(nodes), b.dirtyPrev, b.dirtyNext;
        b in nodes && (p == null || p in nodes) && (n == null || n in nodes) &&
        Linked(Cut(dirtyList, i), CutWrites(m, b, p, n, DirtyList), DirtyList) && SameBut(DirtyList, m, CutWrites(m, b, p, n, DirtyList)) &&
        At(Cut(dirtyList, i), 0) == (if p == null then n else dirtyHead) && At(Cut(dirtyList, i), |dirtyList| - 2) == (if n == null then p else dirtyTail)
    {
      CutDone(dirtyList, Snap(nodes), i, DirtyList);
      LinkedAt(dirtyList, Snap(nodes), i, DirtyList);
      HeadFields(b);
    }

    // The pointers of buffer_dirty_remove.
    method DirtyLinkOut(b: Buffer, ghost i: nat)
      requires DirtyLinked() && i < |dirtyList| && b == dirtyList[i]
      modifies this`dirtyList, this`dirtyHead, this`dirtyTail, nodes
      ensures DirtyLinked() && dirtyList == Cut(old(dirtyList), i) && SameBut(DirtyList, old(Snap(nodes)), Snap(nodes))
    {
      hide Snap, Linked, SameBut, At, Cut, PastWrites;
      DirtyNeighbours(b, i);
      DirtyPast(b.dirtyPrev, b.dirtyNext);
      SetDirtyNext(b, null);
      SetDirtyPrev(b, null);
      dirtyList := Cut(dirtyList, i);
    }

    ghost predicate HashLinked()
      reads this, nodes
    {
      AllLinked(chains, Snap(nodes)) && |table| == |chains| && forall h: nat :: h < |chains| ==> table[h] == At(chains[h], 0)
    }

    // The head is fresh, so its previous pointer is null already.
    lemma HashFront(b: Buffer, h: nat)
      requires HashLinked() && b in nodes && h < |chains| && b.hashPrev == null && forall k: nat :: k < |chains| ==> b !in chains[k]
      ensures var m, n := Snap(nodes), table[h];
        (n == null || n in nodes) && AllLinked(chains[h := [b] + chains[h]], WithPrev(WithNext(m, b, n, HashList), n, b, HashList)) &&
        SameBut(HashList, m, WithPrev(WithNext(m, b, n, HashList), n, b, HashList))
      ensures At([b] + chains[h], 0) == b
    {
      hide Linked, AllLinked, Snap, SameBut;
      ChainPush(chains, Snap(nodes), h, b);
      HeadFields(b);
      var m1 := WithNext(Snap(nodes), b, table[h], HashList);
      assert WithPrev(m1, b, null, HashList) == m1;
    }

    // buffer_cache_get: a new head goes first on its chain.
    method HashAdd(b: Buffer, h: nat)
      requires HashLinked() && b in nodes && h < |chains| && b.hashPrev == null && forall k: nat :: k < |chains| ==> b !in chains[k]
      modifies this`table, this`chains, nodes
      ensures HashLinked() && chains == old(chains)[h := [b] + old(chains)[h]] && SameBut(HashList, old(Snap(nodes)), Snap(nodes))
    {
      hide Snap, AllLinked, Linked, SameBut, At;
      HashFront(b, h);
      var first := table[h];
      SetHashNext(b, first);
      if first != null {
        SetHashPrev(first, b);
      }
      table := table[h := b];
      chains := chains[h := [b] + chains[h]];
    }

    lemma HashNeighbours(b: Buffer, h: nat, i: nat)
      requires HashLinked() && h < |chains| && i < |chains[h]| && b == chains[h][i]
      ensures var m, p, n := Snap(nodes), b.hashPrev, b.hashNext;
        b in nodes && (p == null || p in nodes) && (n == null || n in nodes) &&
        AllLinked(chains[h := Cut(chains[h], i)], PastWrites(m, p, n, HashList)) && SameBut(HashList, m, PastWrites(m, p, n, HashList)) &&
        At(Cut(chains[h], i), 0) == if p == null then n else table[h]
    {
      ChainPast(chains, Snap(nodes), h, i);
      LinkedAt(chains[h], Snap(nodes), i, HashList);
      HeadFields(b);
    }

    // Taking a head off its chain; its own hash pointers are left as they were.
    method HashRemove(b: Buffer, h: nat, ghost i: nat)
      requires HashLinked() && h < |chains| && i < |chains[h]| && b == chains[h][i]
      modifies this`table, this`chains, nodes
      ensures HashLinked() && chains == old(chains)[h := Cut(old(chains)[h], i)] && SameBut(HashList, old(Snap(nodes)), Snap(nodes))
    {
      hide Snap, AllLinked, Linked, SameBut, At, Cut;
      HashNeighbours(b, h, i);
      var prev, next := b.hashPrev, b.hashNext;
      if prev != null {
        SetHashNext(prev, next);
      } else {
        table := table[h := next];
      }
      if next != null {
        SetHashPrev(next, prev);
      }
      chains := chains[h := Cut(chains[h], i)];
    }

    // ---- the whole cache

    ghost predicate Ends()
      reads this
    {
      lruHead == At(lru, 0) && lruTail == At(lru, |lru| - 1) &&
      dirtyHead == At(dirtyList, 0) && dirtyTail == At(dirtyList, |dirtyList| - 1) &&
      |table| == |chains| && forall h: nat :: h < |chains| ==> table[h] == At(chains[h], 0)
    }

    // Only cached buffers are dirty, and the counters count. orphans are the
    // referenced buffers that buffer_cache_invalidate_device took out:
    // cached_buffers goes on counting them.
    ghost predicate Counted()
      reads this
    {
      dirtyBuffers == |dirtyList| && cachedBuffers == |lru| + orphans && forall b <- dirtyList :: b in lru
    }

    ghost predicate Valid()
      reads this, nodes
    {
      Whole(Snap(nodes), lru, dirtyList, chains, clock) && Ends() && Counted()
    }

    lemma Parts()
      requires Whole(Snap(nodes), lru, dirtyList, chains, clock) && Ends()
      ensures LruLinked() && DirtyLinked() && HashLinked() && NoDup(lru) && NoDup(dirtyList)
      ensures (forall b <- lru :: b in nodes) && forall b <- dirtyList :: b in nodes
      ensures forall b <- nodes :: b.dirty <==> b in dirtyList
    {
    }

    lemma Position(b: Buffer) returns (k: nat)
      requires Whole(Snap(nodes), lru, dirtyList, chains, clock) && b in lru
      ensures b in nodes
      ensures var h := Hash(b.device, b.block); h < |chains| && k < |chains[h]| && chains[h][k] == b
    {
      var h := Hash(b.device, b.block);
      assert b in Snap(nodes) && Bucket(Key(Snap(nodes)[b])) == h;
      k :| 0 <= k < |chains[h]| && chains[h][k] == b;
    }

    lemma HookedAt(b: Buffer) returns (k: nat)
      requires Whole(Snap(nodes), lru, dirtyList, chains, clock) && Ends() && b in lru
      ensures var h := Hash(b.device, b.block); h < |chains| && k < |chains[h]| && chains[h][k] == b && Cut(chains[h], k) == Keep(chains[h], {b})
      ensures LruLinked() && HashLinked()
    {
      k := Position(b);
      Parts();
      CutIsKeep(chains[Hash(b.device, b.block)], k);
    }

    // Off its chain and off the LRU list.
    method Unhook(b: Buffer, ghost i: nat)
      requires Whole(Snap(nodes), lru, dirtyList, chains, clock) && Ends() && i < |lru| && lru[i] == b
      modifies this`chains, this`table, this`lru, this`lruHead, this`lruTail, nodes
      ensures Whole(Snap(nodes), lru, dirtyList, chains, clock) && Ends() && lru == Cut(old(lru), i)
      ensures SameData(old(Snap(nodes)), Snap(nodes))
      ensures var h := old(Hash(b.device, b.block)); h < |old(chains)| && chains == old(chains)[h := Keep(old(chains)[h], {b})]
    {
      hide Snap, Whole, Linked, AllLinked, SameBut, SameData, At, Cut, NoDup, Hash, Keep;
      var h := Hash(b.device, b.block);
      ghost var k := HookedAt(b);
      HashRemove(b, h, k);
      ghost var m1 := Snap(nodes);
      SameLinked(lru, old(Snap(nodes)), m1, LruList, HashList);
      LruRemove(b, i);
      UnhookData(old(Snap(nodes)), m1, Snap(nodes));
      UnhookWhole(old(Snap(nodes)), m1, Snap(nodes), old(lru), dirtyList, old(chains), clock, i, h, k);
    }

    // What buffer_evict_lru does to one head.
    method EvictOne(b: Buffer, ghost i: nat)
      requires Valid() && i < |lru| && lru[i] == b && b in nodes && !b.dirty
      modifies this`chains, this`table, this`lru, this`lruHead, this`lruTail, this`cachedBuffers, this`evictions, nodes
      ensures Valid() && lru == Cut(old(lru), i) && SameData(old(Snap(nodes)), Snap(nodes)) && evictions == old(evictions) + 1
    {
      hide Snap, Whole, Linked, AllLinked, SameBut, SameData, At, Cut, NoDup, Hash;
      CleanStays(i);
      Unhook(b, i);
      cachedBuffers := cachedBuffers - 1;
      evictions := evictions + 1;
    }

    lemma CleanStays(i: nat)
      requires Valid() && i < |lru| && !lru[i].dirty
      ensures forall b <- dirtyList :: b in Cut(lru, i)
      ensures NoDup(lru) && forall b <- lru :: b in nodes
    {
      Parts();
      CutNoDup(lru, i);
    }

    lemma TailFacts(k: nat)
      requires Valid() && k < |lru|
      ensures lru[k] in nodes && lru[k].lruPrev == At(lru, k - 1)
      ensures lru[k].refCount == Snap(nodes)[lru[k]].refCount && lru[k].dirty == Snap(nodes)[lru[k]].dirty
    {
      Parts();
      LinkedAt(lru, Snap(nodes), k, LruList);
      HeadFields(lru[k]);
    }

    // buffer_evict_lru
    method EvictLru(count: nat) returns (evicted: nat)
      requires Valid()
      modifies this`chains, this`table, this`lru, this`lruHead, this`lruTail, this`cachedBuffers, this`evictions, nodes
      ensures Valid() && SameData(old(Snap(nodes)), Snap(nodes))
      ensures lru == Survivors(old(lru), Evictable(old(Snap(nodes))), count)
      ensures evicted == |old(lru)| - |lru| && evictions == old(evictions) + evicted
    {
      hide Valid, SameData, Snap, Cut, Survivors, Evictable;
      ghost var s, m, ev := lru, Snap(nodes), Evictable(Snap(nodes));
      var bh := lruTail;
      evicted := 0;
      ghost var k: nat := |s|;
      ghost var kept: seq<Buffer> := [];
      TailIs();
      SameDataRefl(m);
      assert s[..k] == s;
      while bh != null && evicted < count
        invariant Valid() && k <= |s| && bh == At(s, k - 1) && evicted <= count
        invariant lru == s[..k] + kept && evicted == |s| - |lru| && evictions == old(evictions) + evicted
        invariant Survivors(s, ev, count) == Survivors(s[..k], ev, count - evicted) + kept
        invariant SameData(m, Snap(nodes))
        decreases k
      {
        k := k - 1;
        TailFacts(k);
        SnapKeys();
        DataFields(m, Snap(nodes), bh);
        EvictableIs(m, bh);
        SurvivorsStep(s, k, ev, count - evicted, kept);
        var prev := bh.lruPrev;
        if bh.refCount == 0 && !bh.dirty {
          ghost var m1 := Snap(nodes);
          EvictOne(bh, k);
          SameDataTwice(m, m1, Snap(nodes));
          CutMiddle(s, k, kept);
          evicted := evicted + 1;
        } else {
          kept := [bh] + kept;
          assert lru == s[..k] + kept;
        }
        bh := prev;
      }
      SurvivorsEnd(s[..k], ev, count - evicted);
    }

    // ---- the dirty list

    // Valid, except that a head out of the cache may be dirty.
    ghost predicate Sound()
      reads this, nodes
    {
      Whole(Snap(nodes), lru, dirtyList, chains, clock) && Ends() && dirtyBuffers == |dirtyList| && cachedBuffers == |lru| + orphans
    }

    // buffer_dirty_add
    method DirtyAdd(b: Buffer)
      requires Sound() && b in nodes
      modifies this`dirtyList, this`dirtyHead, this`dirtyTail, this`dirtyBuffers, nodes
      ensures Sound() && dirtyList == (if old(b.dirty) then old(dirtyList) else [b] + old(dirtyList))
      ensures SameDataBut(b, old(Snap(nodes)), Snap(nodes)) && Data(Snap(nodes)[b]) == Data(old(Snap(nodes))[b]).(dirty := true)
    {
      hide Snap, Whole, Linked, AllLinked, SameBut, Data, SameDataBut, At;
      HeadFields(b);
      DirtyFacts(b);
      if b.dirty {
        return;
      }
      DirtyLinkIn(b);
      ghost var m1 := Snap(nodes);
      SetDirty(b, true);
      dirtyBuffers := dirtyBuffers + 1;
      DirtyWhole(old(Snap(nodes)), m1, Snap(nodes), lru, old(dirtyList), dirtyList, chains, clock, b, true);
      DirtyData(old(Snap(nodes)), m1, Snap(nodes), b, true);
    }

    lemma DirtyFacts(b: Buffer)
      requires Whole(Snap(nodes), lru, dirtyList, chains, clock) && Ends() && b in nodes
      ensures DirtyLinked() && (b.dirty <==> b in dirtyList) && NoDup(dirtyList)
      ensures b.dirty ==> SameDataBut(b, Snap(nodes), Snap(nodes)) && Data(Snap(nodes)[b]) == Data(Snap(nodes)[b]).(dirty := true)
      ensures !b.dirty ==> SameDataBut(b, Snap(nodes), Snap(nodes)) && Data(Snap(nodes)[b]) == Data(Snap(nodes)[b]).(dirty := false)
    {
      Parts();
    }

    // buffer_dirty_remove, whatever cached_buffers says; i is where b is, if it
    // is on the list.
    method DirtyOff(b: Buffer, ghost i: nat)
      requires Whole(Snap(nodes), lru, dirtyList, chains, clock) && Ends() && dirtyBuffers == |dirtyList|
      requires b in nodes && (b.dirty ==> i < |dirtyList| && dirtyList[i] == b)
      modifies this`dirtyList, this`dirtyHead, this`dirtyTail, this`dirtyBuffers, nodes
      ensures Whole(Snap(nodes), lru, dirtyList, chains, clock) && Ends() && dirtyBuffers == |dirtyList|
      ensures dirtyList == if old(b.dirty) then Cut(old(dirtyList), i) else old(dirtyList)
      ensures SameDataBut(b, old(Snap(nodes)), Snap(nodes)) && Data(Snap(nodes)[b]) == Data(old(Snap(nodes))[b]).(dirty := false)
    {
      hide Snap, Whole, Linked, AllLinked, SameBut, Data, SameDataBut, At, Cut;
      HeadFields(b);
      DirtyFacts(b);
      if !b.dirty {
        return;
      }
      CutNoDup(dirtyList, i);
      DirtyLinkOut(b, i);
      ghost var m1 := Snap(nodes);
      SetDirty(b, false);
      if dirtyBuffers > 0 {
        dirtyBuffers := dirtyBuffers - 1;
      }
      DirtyWhole(old(Snap(nodes)), m1, Snap(nodes), lru, old(dirtyList), dirtyList, chains, clock, b, false);
      DirtyData(old(Snap(nodes)), m1, Snap(nodes), b, false);
    }

    // buffer_dirty_remove.
    method DirtyRemove(b: Buffer, ghost i: nat)
      requires Sound() && b in nodes && (b.dirty ==> i < |dirtyList| && dirtyList[i] == b)
      modifies this`dirtyList, this`dirtyHead, this`dirtyTail, this`dirtyBuffers, nodes
      ensures Sound() && dirtyList == if old(b.dirty) then Cut(old(dirtyList), i) else old(dirtyList)
      ensures SameDataBut(b, old(Snap(nodes)), Snap(nodes)) && Data(Snap(nodes)[b]) == Data(old(Snap(nodes))[b]).(dirty := false)
    {
      hide Snap, Whole, Data, SameDataBut, Cut;
      DirtyFacts(b);
      if b.dirty {
        CutNoDup(dirtyList, i);
      }
      DirtyOff(b, i);
    }

    // ---- the operations on one head

    // Fields set aside from every list were written at b, giving it c.
    lemma AsideValid(m: Heads, b: Buffer, c: Cell)
      requires Whole(m, lru, dirtyList, chains, clock) && b in m && Ends() && Counted()
      requires Snap(nodes) == m[b := c] && c == Aside(m[b], c)
      ensures Valid() && SameDataBut(b, m, Snap(nodes))
    {
      OtherFields(m, Snap(nodes), lru, dirtyList, chains, clock, b, c);
    }

    lemma AsideSound(m: Heads, b: Buffer, c: Cell)
      requires Whole(m, lru, dirtyList, chains, clock) && b in m && Ends() && dirtyBuffers == |dirtyList| && cachedBuffers == |lru| + orphans
      requires Snap(nodes) == m[b := c] && c == Aside(m[b], c)
      ensures Sound() && SameDataBut(b, m, Snap(nodes))
    {
      OtherFields(m, Snap(nodes), lru, dirtyList, chains, clock, b, c);
    }

    // What Valid says beyond Sound.
    lemma AllCached()
      ensures Valid() <==> Sound() && forall b <- dirtyList :: b in lru
    {
      hide Whole, Ends;
    }

    // buffer_cache_put, also by the last holder of a head that was dropped.
    method Put(bh: Buffer?)
      requires Sound() && (bh != null ==> bh in nodes)
      modifies nodes
      ensures Sound() && (Valid() <==> old(Valid()))
      ensures bh == null ==> Snap(nodes) == old(Snap(nodes))
      ensures bh != null ==> SameDataBut(bh, old(Snap(nodes)), Snap(nodes))
      ensures bh != null ==> Snap(nodes)[bh] == old(Snap(nodes))[bh].(refCount := old(bh.refCount) - 1)
    {
      hide Snap, Whole, SameDataBut, At, Valid;
      AllCached();
      if bh == null {
        return;
      }
      HeadFields(bh);
      SetRefCount(bh, bh.refCount - 1);
      AsideSound(old(Snap(nodes)), bh, Snap(nodes)[bh]);
      AllCached();
    }

    // buffer_cache_read: a clean, up to date head is left alone and a locked one
    // refused; otherwise it is up to date and clean, even if it was dirty.
    // filled: the device was read.
    method Read(bh: Buffer?) returns (code: Code, filled: bool)
      requires Sound() && (bh != null ==> bh in nodes)
      modifies nodes
      ensures Sound() && (Valid() <==> old(Valid()))
      ensures code == if bh == null then InvalidArg else if (old(bh.uptodate) && old(bh.state) == CLEAN) || !old(bh.locked) then Success else Locked
      ensures filled <==> bh != null && !old(bh.locked) && !(old(bh.uptodate) && old(bh.state) == CLEAN)
      ensures code != Success ==> Snap(nodes) == old(Snap(nodes))
      ensures code == Success ==> SameDataBut(bh, old(Snap(nodes)), Snap(nodes)) && Snap(nodes)[bh] == old(Snap(nodes))[bh].(uptodate := true, state := CLEAN)
    {
      hide Snap, Whole, SameDataBut, Valid;
      AllCached();
      if bh == null {
        return InvalidArg, false;
      }
      HeadRead(bh);
      if bh.uptodate && bh.state == CLEAN {
        return Success, false;
      }
      if bh.locked {
        return Locked, false;
      }
      ReadIn(bh);
      AllCached();
      code, filled := Success, true;
    }

    lemma HeadRead(b: Buffer)
      requires b in nodes
      ensures Snap(nodes)[b] == b.Get() && SameDataBut(b, Snap(nodes), Snap(nodes))
    {
    }

    // The part of buffer_cache_read under the buffer lock.
    method ReadIn(bh: Buffer)
      requires Sound() && bh in nodes && !bh.locked
      modifies nodes
      ensures Sound() && SameDataBut(bh, old(Snap(nodes)), Snap(nodes))
      ensures Snap(nodes)[bh] == old(Snap(nodes))[bh].(uptodate := true, state := CLEAN)
    {
      hide Snap, Whole, SameDataBut;
      HeadRead(bh);
      ghost var m := Snap(nodes);
      SetLocked(bh, true);
      SetUptodate(bh, true);
      SetLocked(bh, false);
      SetState(bh, CLEAN);
      ghost var c := Snap(nodes)[bh];
      assert Snap(nodes) == m[bh := c];
      AsideSound(m, bh, c);
    }

    // buffer_cache_write; i is where the head is on the dirty list, if it is.
    method Write(bh: Buffer?, ghost i: nat) returns (code: Code)
      requires Sound() && (bh != null ==> bh in nodes && (bh.dirty ==> i < |dirtyList| && dirtyList[i] == bh))
      modifies this`dirtyList, this`dirtyHead, this`dirtyTail, this`dirtyBuffers, nodes
      ensures Sound() && (Valid() <==> forall b <- dirtyList :: b in lru)
      ensures code == if bh == null then InvalidArg else if old(bh.locked) then Locked else Success
      ensures code != Success ==> Snap(nodes) == old(Snap(nodes)) && dirtyList == old(dirtyList)
      ensures code == Success ==> SameDataBut(bh, old(Snap(nodes)), Snap(nodes))
      ensures code == Success ==> Data(Snap(nodes)[bh]) == Data(old(Snap(nodes))[bh]).(dirty := false, state := CLEAN)
      ensures code == Success ==> dirtyList == if old(bh.dirty) then Cut(old(dirtyList), i) else old(dirtyList)
    {
      hide Snap, Whole, Ends, SameDataBut, Data, Valid, Sound;
      AllCached();
      if bh == null {
        return InvalidArg;
      }
      HeadFields(bh);
      if bh.locked {
        return Locked;
      }
      WriteOut(bh, i);
      AllCached();
      code := Success;
    }

    // The part of buffer_cache_write under the buffer lock.
    method WriteOut(bh: Buffer, ghost i: nat)
      requires Sound() && bh in nodes && !bh.locked && (bh.dirty ==> i < |dirtyList| && dirtyList[i] == bh)
      modifies this`dirtyList, this`dirtyHead, this`dirtyTail, this`dirtyBuffers, nodes
      ensures Sound() && dirtyList == if old(bh.dirty) then Cut(old(dirtyList), i) else old(dirtyList)
      ensures SameDataBut(bh, old(Snap(nodes)), Snap(nodes))
      ensures Data(Snap(nodes)[bh]) == Data(old(Snap(nodes))[bh]).(dirty := false, state := CLEAN)
    {
      hide Snap, Whole, SameDataBut, Cut, Data;
      ghost var m := Snap(nodes);
      HeadFields(bh);
      SetLocked(bh, true);
      AsideSound(m, bh, Snap(nodes)[bh]);
      HeadFields(bh);
      ghost var m1 := Snap(nodes);
      DirtyRemove(bh, i);
      ghost var m2 := Snap(nodes);
      Unlock(bh);
      WriteData(m, m1, m2, Snap(nodes), bh);
    }

    method Unlock(bh: Buffer)
      requires Sound() && bh in nodes
      modifies nodes
      ensures Sound() && Snap(nodes) == old(Snap(nodes))[bh := Snap(nodes)[bh]]
      ensures Snap(nodes)[bh] == old(Snap(nodes))[bh].(locked := false, state := CLEAN)
    {
      hide Snap, Whole;
      ghost var m := Snap(nodes);
      HeadRead(bh);
      SetLocked(bh, false);
      SetState(bh, CLEAN);
      ghost var c := Snap(nodes)[bh];
      assert Snap(nodes) == m[bh := c];
      AsideSound(m, bh, c);
    }

    // buffer_cache_mark_dirty. A clean head that buffer_cache_invalidate_device
    // dropped goes on the dirty list too, and nothing cached answers for it.
    method MarkDirty(bh: Buffer?)
      requires Sound() && (bh != null ==> bh in nodes)
      modifies this`dirtyList, this`dirtyHead, this`dirtyTail, this`dirtyBuffers, nodes
      ensures Sound() && (Valid() <==> forall b <- dirtyList :: b in lru)
      ensures old(Valid()) ==> (Valid() <==> bh == null || old(bh.dirty) || bh in lru)
      ensures bh == null || old(bh.dirty) ==> Snap(nodes) == old(Snap(nodes)) && dirtyList == old(dirtyList)
      ensures bh != null && !old(bh.dirty) ==> dirtyList == [bh] + old(dirtyList) && SameDataBut(bh, old(Snap(nodes)), Snap(nodes))
      ensures bh != null && !old(bh.dirty) ==> Data(Snap(nodes)[bh]) == Data(old(Snap(nodes))[bh]).(dirty := true, state := DIRTY)
    {
      hide Snap, Whole, Ends, SameDataBut, Data, Sound, Valid;
      AllCached();
      if bh == null {
        return;
      }
      HeadFields(bh);
      if !bh.dirty {
        ghost var m := Snap(nodes);
        DirtyAdd(bh);
        ghost var m1 := Snap(nodes);
        Mark(bh);
        MarkData(m, m1, Snap(nodes), bh);
        AllCached();
      }
    }

    // Setting the state of a head to DIRTY.
    method Mark(b: Buffer)
      requires Sound() && b in nodes
      modifies nodes
      ensures Sound() && Snap(nodes) == old(Snap(nodes))[b := old(Snap(nodes))[b].(state := DIRTY)]
    {
      hide Snap, Whole, Ends;
      ghost var m := Snap(nodes);
      SnapKeys();
      SetState(b, DIRTY);
      OtherFields(m, Snap(nodes), lru, dirtyList, chains, clock, b, Snap(nodes)[b]);
    }

    // ---- syncing a device

    lemma DirtyAt(k: nat)
      requires Sound() && k < |dirtyList|
      ensures var b := dirtyList[k]; b in nodes && b.dirty && b.dirtyNext == At(dirtyList, k + 1) && Snap(nodes)[b] == b.Get()
      ensures dirtyHead == At(dirtyList, 0)
    {
      Parts();
      LinkedAt(dirtyList, Snap(nodes), k, DirtyList);
      HeadFields(dirtyList[k]);
    }

    lemma DirtyStart()
      requires Sound()
      ensures dirtyHead == At(dirtyList, 0)
    {
    }

    // One turn of the loop of buffer_cache_sync_device.
    method SyncOne(device: nat, bh: Buffer, ghost i: nat) returns (written: bool)
      requires Sound() && i < |dirtyList| && dirtyList[i] == bh
      modifies this`dirtyList, this`dirtyHead, this`dirtyTail, this`dirtyBuffers, nodes
      ensures Sound() && Alters(old(Snap(nodes)), Snap(nodes), if written then {bh} else {}, Sync)
      ensures written <==> bh in Targets(old(Snap(nodes)), device)
      ensures dirtyList == if written then Cut(old(dirtyList), i) else old(dirtyList)
    {
      hide Valid, Sound, Snap, Cut, SameTargets, SameDataBut, Data, Targets, Alters, Altered;
      DirtyAt(i);
      SameTargetsRefl(Snap(nodes));
      TargetOf(Snap(nodes), Snap(nodes), device, bh);
      AltersNone(Snap(nodes), Sync);
      written := false;
      if device == 0 || bh.device == device {
        var code := Write(bh, i);
        if code == Success {
          SyncedIs(old(Snap(nodes))[bh]);
          AltersOne(old(Snap(nodes)), Snap(nodes), bh, Sync);
          written := true;
        }
      }
    }

    // buffer_cache_sync_device: writes out exactly the dirty heads of the device
    // (of every device for 0) that are not locked, and counts them.
    method SyncDevice(device: nat) returns (count: nat)
      requires Sound()
      modifies this`dirtyList, this`dirtyHead, this`dirtyTail, this`dirtyBuffers, nodes
      ensures Sound() && dirtyList == Keep(old(dirtyList), Targets(old(Snap(nodes)), device))
      ensures count == |old(dirtyList)| - |dirtyList|
      ensures (Valid() <==> forall b <- dirtyList :: b in lru) && (old(Valid()) ==> Valid())
      ensures Snap(nodes).Keys == old(Snap(nodes)).Keys
      ensures forall b <- old(Snap(nodes)) ::
        Data(Snap(nodes)[b]) == if b in old(dirtyList) && b !in dirtyList then Data(old(Snap(nodes))[b]).(dirty := false, state := CLEAN) else Data(old(Snap(nodes))[b])
    {
      hide Valid, Sound, Snap, Cut, SameTargets, Targets, Keep, Walked, Sifted, At, Alters, Data, SyncedOf;
      AllCached();
      ghost var s, m, t := dirtyList, Snap(nodes), Targets(Snap(nodes), device);
      ghost var k: nat := 0;
      ghost var kept: seq<Buffer> := [];
      DirtyStart();
      AltersNone(m, Sync);
      SyncedNone(s, t);
      SoundDup();
      SiftStart(s, t);
      SiftEnd(kept, s, k, t);
      var bh := dirtyHead;
      count := 0;
      while bh != null
        invariant Sound() && k <= |s| && bh == At(s, k) && dirtyList == Walked(kept, s, k) && count + |kept| == k
        invariant Sifted(kept, s, k, t) && Alters(m, Snap(nodes), SyncedOf(s, k, t), Sync)
        decreases |s| - k
      {
        SiftEnd(kept, s, k, t);
        AtEnd(s, k);
        SiftStep(kept, s, k, t);
        DirtyAt(|kept|);
        ghost var m1 := Snap(nodes);
        AltersTargets(m, m1, SyncedOf(s, k, t));
        TargetsSame(m, m1, device);
        SyncedMore(s, k, t);
        var next := bh.dirtyNext;
        var written := SyncOne(device, bh, |kept|);
        AltersMore(m, m1, Snap(nodes), SyncedOf(s, k, t), if written then {bh} else {}, Sync);
        if written {
          count := count + 1;
        } else {
          kept := kept + [s[k]];
        }
        bh, k := next, k + 1;
      }
      SiftEnd(kept, s, k, t);
      AllCached();
      KeptFrom(s, t);
      SyncedFields(m, Snap(nodes), s, t);
    }

    lemma SoundDup()
      requires Sound()
      ensures NoDup(dirtyList)
    {
      Parts();
    }

    lemma KeptFrom(s: seq<Buffer>, gone: set<Buffer>)
      ensures forall b <- Keep(s, gone) :: b in s
    {
      forall b <- Keep(s, gone) ensures b in s { KeepMembers(s, gone, b); }
    }

    // ---- looking a block up

    ghost predicate Cached(device: nat, block: nat)
      reads this, nodes
    {
      exists b <- lru :: b in nodes && b.device == device && b.block == block
    }

    lemma ChainAt(h: nat, k: nat)
      requires Valid() && h < HASH_BUCKETS && |chains| == HASH_BUCKETS && k < |chains[h]|
      ensures var b := chains[h][k]; b in nodes && b in lru && b.hashNext == At(chains[h], k + 1)
    {
      Parts();
      LinkedAt(chains[h], Snap(nodes), k, HashList);
      HeadFields(chains[h][k]);
    }

    lemma ChainStart(h: nat)
      requires Valid() && h < HASH_BUCKETS
      ensures h < |table| == |chains| == HASH_BUCKETS && table[h] == At(chains[h], 0)
    {
    }

    // A head with this key would be on this chain.
    lemma NotCached(device: nat, block: nat)
      requires Valid() && |chains| == HASH_BUCKETS
      requires forall k: nat :: k < |chains[Hash(device, block)]| ==> !(chains[Hash(device, block)][k].device == device && chains[Hash(device, block)][k].block == block)
      ensures !Cached(device, block)
    {
      forall b <- lru | b in nodes ensures !(b.device == device && b.block == block) {
        if b.device == device && b.block == block {
          var k := Position(b);
        }
      }
    }

    // The search of buffer_cache_get.
    method Find(device: nat, block: nat) returns (bh: Buffer?)
      requires Valid()
      ensures bh == null ==> !Cached(device, block)
      ensures bh != null ==> bh in lru && bh in nodes && bh.device == device && bh.block == block
    {
      var h := Hash(device, block);
      hide Valid, Snap, Hash;
      ChainStart(h);
      ghost var k: nat := 0;
      bh := table[h];
      while bh != null
        invariant k <= |chains[h]| && bh == At(chains[h], k)
        invariant forall j: nat :: j < k ==> !(chains[h][j].device == device && chains[h][j].block == block)
        decreases |chains[h]| - k
      {
        ChainAt(h, k);
        if bh.device == device && bh.block == block {
          return;
        }
        bh, k := bh.hashNext, k + 1;
      }
      NotCached(device, block);
    }

    // buffer_lru_touch, moving the head to the front.
    method MoveFront(b: Buffer, ghost i: nat)
      requires LruLinked() && i < |lru| && lru[i] == b && b in nodes && b !in Cut(lru, i)
      modifies this`lru, this`lruHead, this`lruTail, nodes
      ensures LruLinked() && lru == [b] + Cut(old(lru), i) && SameBut(LruList, old(Snap(nodes)), Snap(nodes))
    {
      hide Snap, SameBut, LruLinked, Cut;
      LruRemove(b, i);
      ghost var m2 := Snap(nodes);
      LruAdd(b);
      SameButTwice(old(Snap(nodes)), m2, Snap(nodes), LruList);
    }

    // One more reference.
    method Reference(b: Buffer)
      requires Valid() && b in nodes
      modifies nodes
      ensures Valid() && Snap(nodes) == old(Snap(nodes))[b := old(Snap(nodes))[b].(refCount := old(b.refCount) + 1)]
    {
      hide Snap, Whole, SameDataBut, At;
      HeadFields(b);
      SetRefCount(b, b.refCount + 1);
      AsideValid(old(Snap(nodes)), b, Snap(nodes)[b]);
    }

    // buffer_lru_touch and the count of a hit.
    method Touch(b: Buffer, ghost i: nat)
      requires Valid() && i < |lru| && lru[i] == b && b in nodes
      modifies this`lru, this`lruHead, this`lruTail, this`clock, nodes
      ensures Valid() && lru == [b] + Cut(old(lru), i) && clock == old(clock) + 1
      ensures SameDataBut(b, old(Snap(nodes)), Snap(nodes))
      ensures Data(Snap(nodes)[b]) == Data(old(Snap(nodes))[b]).(refCount := old(b.refCount) + 1, stamp := clock)
    {
      hide Snap, Whole, Linked, AllLinked, SameBut, SameDataBut, Data, At, Cut;
      HeadFields(b);
      Reference(b);
      ghost var m, m1 := old(Snap(nodes)), Snap(nodes);
      LruParts(i);
      MoveFront(b, i);
      ghost var m3 := Snap(nodes);
      clock := clock + 1;
      SetStamp(b, clock);
      TouchDone(m, m1, m3, Snap(nodes), old(lru), dirtyList, chains, old(clock), i);
    }

    lemma LruParts(i: nat)
      requires Valid() && i < |lru|
      ensures LruLinked() && lru[i] !in Cut(lru, i) && forall b :: b in Cut(lru, i) <==> b in lru && b != lru[i]
    {
      Parts();
      CutNoDup(lru, i);
    }

    lemma SnapGrows(b: Buffer, was: set<Buffer>, m: Heads)
      requires nodes == was + {b} && b !in was && m.Keys == was && forall x <- was :: x.Get() == m[x]
      ensures Snap(nodes) == m[b := b.Get()]
    {
    }

    lemma NewHead(b: Buffer, m: Heads, device: nat, block: nat)
      requires Whole(m, lru, dirtyList, chains, clock) && Ends() && b !in m
      requires forall x <- lru :: x in m ==> Key(m[x]) != (device, block)
      requires Snap(nodes) == m[b := Fresh(device, block, clock + 1)] && b in nodes && b.hashPrev == null
      ensures LruLinked() && HashLinked() && b !in lru && forall k: nat :: k < |chains| ==> b !in chains[k]
      ensures Hash(device, block) < |chains|
    {
      var m1 := Snap(nodes);
      StaysLinked(lru, m, m1, LruList);
      forall h: nat | h < |chains| ensures Linked(chains[h], m1, HashList) {
        StaysLinked(chains[h], m, m1, HashList);
      }
    }

    // The miss path of buffer_cache_get, once memory was found.
    method Insert(device: nat, block: nat) returns (bh: Buffer)
      requires Valid() && !Cached(device, block)
      modifies this`table, this`chains, this`nodes, this`lru, this`lruHead, this`lruTail, this`clock, this`cachedBuffers, nodes
      ensures Valid() && fresh(bh) && nodes == old(nodes) + {bh} && clock == old(clock) + 1
      ensures lru == [bh] + old(lru)
      ensures SameData(old(Snap(nodes)), Snap(nodes) - {bh}) && Data(Snap(nodes)[bh]) == Fresh(device, block, clock)
    {
      hide Whole, Linked, AllLinked, SameBut, SameData, Hash, At;
      var h := Hash(device, block);
      KeysDiffer(device, block);
      ghost var m := Snap(nodes);
      bh := new Buffer(device, block, clock + 1);
      nodes := nodes + {bh};
      SnapGrows(bh, old(nodes), m);
      ghost var m1 := Snap(nodes);
      NewHead(bh, m, device, block);
      Place(bh, h, m);
      NewData(m, m1, Snap(nodes), bh, Fresh(device, block, clock));
    }

    lemma KeysDiffer(device: nat, block: nat)
      requires Valid() && !Cached(device, block)
      ensures forall x <- lru :: x in Snap(nodes) ==> Key(Snap(nodes)[x]) != (device, block)
    {
      Parts();
    }

    // Pushing the new head on its chain and on the LRU list.
    method Place(b: Buffer, h: nat, ghost m: Heads)
      requires Whole(m, lru, dirtyList, chains, clock) && Ends() && Counted() && b in nodes && b !in m
      requires Snap(nodes) == m[b := Snap(nodes)[b]] && Snap(nodes)[b].stamp == clock + 1 && !Snap(nodes)[b].dirty
      requires h == Bucket(Key(Snap(nodes)[b])) && forall a <- lru :: a in m ==> Key(m[a]) != Key(Snap(nodes)[b])
      requires LruLinked() && HashLinked() && b !in lru && b.hashPrev == null && h < |chains| && forall k: nat :: k < |chains| ==> b !in chains[k]
      modifies this`table, this`chains, this`lru, this`lruHead, this`lruTail, this`clock, this`cachedBuffers, nodes
      ensures Valid() && lru == [b] + old(lru) && clock == old(clock) + 1
      ensures SameData(old(Snap(nodes)), Snap(nodes))
    {
      hide Snap, Whole, Linked, AllLinked, SameBut, SameData, Hash, At, Bucket;
      ghost var m1 := Snap(nodes);
      HashAdd(b, h);
      ghost var m2 := Snap(nodes);
      SameLinked(lru, m1, m2, LruList, HashList);
      LruAdd(b);
      cachedBuffers := cachedBuffers + 1;
      clock := clock + 1;
      InsertWhole(m, m1, m2, Snap(nodes), old(lru), dirtyList, old(chains), old(clock), b, h);
      UnhookData(m1, m2, Snap(nodes));
    }

    // Finding memory for a new head: headOk says whether the allocator had some,
    // retryOk whether it has after eviction.
    method Room(headOk: bool, retryOk: bool) returns (ok: bool)
      requires Valid()
      modifies this`chains, this`table, this`lru, this`lruHead, this`lruTail, this`cachedBuffers, this`evictions, nodes
      ensures Valid() && SameData(old(Snap(nodes)), Snap(nodes))
      ensures lru == if headOk then old(lru) else Survivors(old(lru), Evictable(old(Snap(nodes))), 16)
      ensures ok <==> headOk || (retryOk && |lru| < |old(lru)|)
      ensures evictions == old(evictions) + |old(lru)| - |lru|
    {
      hide Valid, Snap, SameData, Survivors;
      if headOk {
        SameDataRefl(Snap(nodes));
        return true;
      }
      var evicted := EvictLru(16);
      ok := evicted > 0 && retryOk;
    }

    method CountHit()
      requires Valid()
      modifies this`hits
      ensures Valid() && hits == old(hits) + 1
    {
      hide Whole, At;
      hits := hits + 1;
    }

    method CountMiss()
      requires Valid()
      modifies this`misses
      ensures Valid() && misses == old(misses) + 1
    {
      hide Whole, At;
      misses := misses + 1;
    }

    lemma FoundAt(bh: Buffer) returns (i: nat)
      requires Valid() && bh in lru
      ensures i < |lru| && lru[i] == bh && Cut(lru, i) == Keep(lru, {bh})
    {
      Parts();
      i :| 0 <= i < |lru| && lru[i] == bh;
      CutIsKeep(lru, i);
    }

    // The hit path of buffer_cache_get.
    method Hit(bh: Buffer)
      requires Valid() && bh in lru && bh in nodes
      modifies this`lru, this`lruHead, this`lruTail, this`clock, this`hits, nodes
      ensures Valid() && lru == [bh] + Keep(old(lru), {bh}) && hits == old(hits) + 1 && clock == old(clock) + 1
      ensures SameDataBut(bh, old(Snap(nodes)), Snap(nodes))
      ensures Data(Snap(nodes)[bh]) == Data(old(Snap(nodes))[bh]).(refCount := old(bh.refCount) + 1, stamp := clock)
    {
      hide Valid, SameDataBut, Data, Keep, Cut;
      ghost var i := FoundAt(bh);
      Touch(bh, i);
      CountHit();
    }

    lemma KeysUncached(s: seq<Buffer>, m: Heads, device: nat, block: nat)
      requires Valid() && SameData(m, Snap(nodes)) && (forall b <- lru :: b in s)
      requires forall b <- s :: b in m ==> Key(m[b]) != (device, block)
      ensures !Cached(device, block)
    {
      forall b <- lru | b in nodes ensures !(b.device == device && b.block == block) {
        assert Data(m[b]) == Data(Snap(nodes)[b]);
      }
    }

    // The miss path of buffer_cache_get.
    method Miss(device: nat, block: nat, headOk: bool, retryOk: bool, dataOk: bool) returns (bh: Buffer?)
      requires Valid() && !Cached(device, block)
      modifies this`table, this`chains, this`nodes, this`lru, this`lruHead, this`lruTail, this`clock, this`cachedBuffers, this`evictions, this`misses, nodes
      ensures Valid() && misses == old(misses) + 1
      ensures bh == null <==> !dataOk || !(headOk || (retryOk && |Left(old(lru), old(Snap(nodes)), headOk)| < |old(lru)|))
      ensures lru == (if bh == null then [] else [bh]) + Left(old(lru), old(Snap(nodes)), headOk)
      ensures evictions == old(evictions) + |old(lru)| - |Left(old(lru), old(Snap(nodes)), headOk)|
      ensures bh == null ==> nodes == old(nodes) && SameData(old(Snap(nodes)), Snap(nodes))
      ensures bh != null ==> fresh(bh) && nodes == old(nodes) + {bh} && Data(Snap(nodes)[bh]) == Fresh(device, block, clock)
      ensures bh != null ==> SameData(old(Snap(nodes)), Snap(nodes) - {bh})
    {
      hide Valid, SameData, Data, Survivors, Fresh, Cached, Key;
      KeysDiffer(device, block);
      SurvivorsWithin(lru, Evictable(Snap(nodes)), 16);
      CountMiss();
      var ok := Room(headOk, retryOk);
      if !ok || !dataOk {
        return null;
      }
      KeysUncached(old(lru), old(Snap(nodes)), device, block);
      ghost var m1 := Snap(nodes);
      bh := Insert(device, block);
      SameDataTwice(old(Snap(nodes)), m1, Snap(nodes) - {bh});
    }

    // buffer_cache_get. A cached block moves to the front and is referenced once
    // more. Otherwise a new head goes in front, after evicting when memory is
    // short; the result is null only when memory stays short.
    method Get(device: nat, block: nat, headOk: bool, retryOk: bool, dataOk: bool) returns (bh: Buffer?)
      requires Valid()
      modifies this`table, this`chains, this`nodes, this`lru, this`lruHead, this`lruTail, this`clock, this`cachedBuffers, this`evictions, this`hits, this`misses, nodes
      ensures Valid() && (bh != null ==> bh in lru && bh in nodes && lru[0] == bh && Key(Snap(nodes)[bh]) == (device, block))
      ensures old(Cached(device, block)) ==> hits == old(hits) + 1 && misses == old(misses) && evictions == old(evictions)
      ensures old(Cached(device, block)) ==> bh != null && bh in old(lru) && bh in old(nodes) && lru == [bh] + Keep(old(lru), {bh}) && nodes == old(nodes)
      ensures old(Cached(device, block)) ==> bh != null && bh in nodes && SameDataBut(bh, old(Snap(nodes)), Snap(nodes)) && bh.refCount == old(bh.refCount) + 1
      ensures !old(Cached(device, block)) ==> hits == old(hits) && misses == old(misses) + 1
      ensures !old(Cached(device, block)) ==> (bh == null <==> !dataOk || !(headOk || (retryOk && |Left(old(lru), old(Snap(nodes)), headOk)| < |old(lru)|)))
      ensures !old(Cached(device, block)) ==> evictions == old(evictions) + |old(lru)| - |Left(old(lru), old(Snap(nodes)), headOk)|
      ensures !old(Cached(device, block)) ==> lru == (if bh == null then [] else [bh]) + Left(old(lru), old(Snap(nodes)), headOk)
      ensures !old(Cached(device, block)) && bh == null ==> SameData(old(Snap(nodes)), Snap(nodes))
      ensures !old(Cached(device, block)) && bh != null ==> fresh(bh) && bh in nodes && Data(Snap(nodes)[bh]) == Fresh(device, block, clock) && SameData(old(Snap(nodes)), Snap(nodes) - {bh})
    {
      hide Valid, SameData, SameDataBut, Data, Keep, Survivors, Left;
      bh := Find(device, block);
      if bh != null {
        HeadFields(bh);
        Hit(bh);
        HeadFields(bh);
        KeyOf(old(Snap(nodes))[bh], Snap(nodes)[bh], old(bh.refCount) + 1, clock);
      } else {
        bh := Miss(device, block, headOk, retryOk, dataOk);
        if bh != null {
          FreshData(device, block, clock);
          KeyOf(Fresh(device, block, clock), Snap(nodes)[bh], 1, clock);
        }
      }
    }

    // ---- invalidating a device

    lemma WhereOn(bh: Buffer) returns (i: nat, j: nat)
      requires Valid() && bh in lru
      ensures i < |lru| && lru[i] == bh && Cut(lru, i) == Keep(lru, {bh}) && bh in nodes
      ensures bh.dirty ==> j < |dirtyList| && dirtyList[j] == bh && Cut(dirtyList, j) == Keep(dirtyList, {bh})
      ensures !bh.dirty ==> dirtyList == Keep(dirtyList, {bh})
      ensures forall b <- dirtyList :: b != bh ==> b in Cut(lru, i)
      ensures forall b <- Keep(dirtyList, {bh}) :: b in dirtyList && b != bh
    {
      Parts();
      i := FoundAt(bh);
      CutNoDup(lru, i);
      j := 0;
      forall b <- dirtyList ensures b in Keep(dirtyList, {bh}) <==> b != bh {
        KeepMembers(dirtyList, {bh}, b);
      }
      forall b <- Keep(dirtyList, {bh}) ensures b in dirtyList && b != bh {
        KeepMembers(dirtyList, {bh}, b);
      }
      if bh.dirty {
        j :| 0 <= j < |dirtyList| && dirtyList[j] == bh;
        CutIsKeep(dirtyList, j);
      } else {
        KeepAll(dirtyList, {bh});
      }
    }

    // Valid but for what cached_buffers counts.
    ghost predicate Loose()
      reads this, nodes
    {
      Whole(Snap(nodes), lru, dirtyList, chains, clock) && Ends() && dirtyBuffers == |dirtyList|
    }

    method CountOut()
      requires Loose()
      modifies this`cachedBuffers
      ensures Loose() && cachedBuffers == old(cachedBuffers) - 1
    {
      hide Whole, At;
      cachedBuffers := cachedBuffers - 1;
    }

    // A referenced head leaves the cache: its flags go, its memory stays.
    method Orphan(bh: Buffer)
      requires Loose() && bh in nodes
      modifies this`orphans, nodes
      ensures Loose() && orphans == old(orphans) + 1
      ensures Snap(nodes) == old(Snap(nodes))[bh := old(Snap(nodes))[bh].(state := INVALID, uptodate := false, locked := false)]
    {
      hide Snap, Whole, At;
      ghost var m := Snap(nodes);
      SnapKeys();
      SetState(bh, INVALID);
      SetUptodate(bh, false);
      SetLocked(bh, false);
      ghost var c := Snap(nodes)[bh];
      assert Snap(nodes) == m[bh := c];
      OtherFields(m, Snap(nodes), lru, dirtyList, chains, clock, bh, c);
      orphans := orphans + 1;
    }

    // What buffer_cache_invalidate_device does to one head: off every list, and
    // counted out only if nobody refers to it.
    method Discard(bh: Buffer)
      requires Valid() && bh in lru && bh in nodes
      modifies this`chains, this`table, this`lru, this`lruHead, this`lruTail, this`dirtyList, this`dirtyHead, this`dirtyTail,
        this`dirtyBuffers, this`cachedBuffers, this`orphans, nodes
      ensures Valid() && lru == Keep(old(lru), {bh}) && dirtyList == Keep(old(dirtyList), {bh})
      ensures var h := old(Hash(bh.device, bh.block)); h < |old(chains)| && chains == old(chains)[h := Keep(old(chains)[h], {bh})]
      ensures orphans == old(orphans) + if old(bh.refCount) == 0 then 0 else 1
      ensures Alters(old(Snap(nodes)), Snap(nodes), {bh}, Drop)
    {
      hide Snap, Whole, Keep, Cut, Hash, SameData, SameDataBut, Data, SameKeys, Ends, Alters;
      ghost var i, j := WhereOn(bh);
      HeadFields(bh);
      Unhook(bh, i);
      ghost var m1 := Snap(nodes);
      HeadFields(bh);
      DataFields(old(Snap(nodes)), m1, bh);
      DirtyOff(bh, j);
      ghost var m2 := Snap(nodes);
      HeadFields(bh);
      DataKeys(old(Snap(nodes)), m1, m2, bh);
      if bh.refCount == 0 {
        CountOut();
      } else {
        Orphan(bh);
      }
      DropData(old(Snap(nodes)), m1, m2, Snap(nodes), bh);
    }

    lemma ChainFacts(device: nat, h: nat, k: nat)
      requires Valid() && h < |chains| && k < |chains[h]|
      ensures var b := chains[h][k]; b in nodes && b in lru && Hash(b.device, b.block) == h && b.hashNext == At(chains[h], k + 1)
      ensures var b := chains[h][k]; Cut(chains[h], k) == Keep(chains[h], {b}) && Snap(nodes)[b] == b.Get()
      ensures var b := chains[h][k]; b in OfDevice(Snap(nodes), device) <==> b.device == device
    {
      ChainAt(h, k);
      var b := chains[h][k];
      HeadFields(b);
      assert Bucket(Key(Snap(nodes)[b])) == h;
      assert NoDup(chains[h]);
      CutIsKeep(chains[h], k);
    }

    // One bucket of buffer_cache_invalidate_device. gone: the heads taken out.
    method PurgeChain(device: nat, h: nat) returns (ghost gone: set<Buffer>)
      requires Valid() && h < |chains| == HASH_BUCKETS
      modifies this`chains, this`table, this`lru, this`lruHead, this`lruTail, this`dirtyList, this`dirtyHead, this`dirtyTail,
        this`dirtyBuffers, this`cachedBuffers, this`orphans, nodes
      ensures Valid() && Alters(old(Snap(nodes)), Snap(nodes), gone, Drop)
      ensures chains == old(chains)[h := Keep(old(chains)[h], OfDevice(old(Snap(nodes)), device))]
      ensures gone <= OfDevice(old(Snap(nodes)), device) && (forall b <- gone :: b in old(lru))
      ensures lru == Keep(old(lru), gone) && dirtyList == Keep(old(dirtyList), gone)
      ensures orphans == old(orphans) + |gone * Referenced(old(Snap(nodes)))|
    {
      hide Valid, Snap, Cut, SameKeys, OfDevice, Referenced, Keep, Walked, Sifted, At, Hash, Alters;
      ghost var m, c, t := Snap(nodes), chains[h], OfDevice(Snap(nodes), device);
      ghost var k: nat := 0;
      ghost var kept: seq<Buffer> := [];
      gone := {};
      ChainStart(h);
      AltersNone(m, Drop);
      SiftStart(c, t);
      SiftEnd(kept, c, k, t);
      KeepNone(lru);
      KeepNone(dirtyList);
      assert chains == old(chains)[h := c];
      var bh := table[h];
      while bh != null
        invariant Valid() && k <= |c| && bh == At(c, k) && Alters(m, Snap(nodes), gone, Drop)
        invariant Sifted(kept, c, k, t) && chains == old(chains)[h := Walked(kept, c, k)]
        invariant gone <= t && (forall b <- gone :: b in old(lru)) && (forall b <- lru :: b in old(lru) && b !in gone)
        invariant lru == Keep(old(lru), gone) && dirtyList == Keep(old(dirtyList), gone)
        invariant orphans == old(orphans) + |gone * Referenced(m)|
        decreases |c| - k
      {
        AtEnd(c, k);
        SiftStep(kept, c, k, t);
        SiftEnd(kept, c, k, t);
        ChainFacts(device, h, |kept|);
        AltersKeys(m, Snap(nodes), gone, Drop);
        DeviceSame(m, Snap(nodes), device, bh);
        var next := bh.hashNext;
        if bh.device == device {
          ghost var m1 := Snap(nodes);
          KeepMore(old(lru), old(dirtyList), gone, bh);
          GoneMore(gone, Referenced(m), bh);
          Discard(bh);
          AltersMore(m, m1, Snap(nodes), gone, {bh}, Drop);
          gone := gone + {bh};
        } else {
          kept := kept + [c[k]];
        }
        bh, k := next, k + 1;
      }
      SiftEnd(kept, c, k, t);
    }

    lemma TableSize()
      requires Valid()
      ensures |chains| == |table| == HASH_BUCKETS && (forall b <- dirtyList :: b in lru) && forall b <- lru :: b in Snap(nodes)
    {
      Parts();
    }

    // No chain holds a head of the device any more, so no list does.
    lemma Purged(s: seq<Buffer>, d: seq<Buffer>, m: Heads, device: nat, gone: set<Buffer>)
      requires Valid() && SameKeys(m, Snap(nodes)) && gone <= OfDevice(m, device)
      requires forall h: nat, b :: h < |chains| && b in chains[h] ==> b !in OfDevice(m, device)
      requires (forall b <- gone :: b in s) && lru == Keep(s, gone) && dirtyList == Keep(d, gone) && (forall b <- d :: b in s) && forall b <- s :: b in m
      ensures lru == Keep(s, OfDevice(m, device)) && dirtyList == Keep(d, OfDevice(m, device))
      ensures gone == set b <- s | m[b].device == device
    {
      forall b <- s ensures b in gone <==> b in OfDevice(m, device) {
        KeepMembers(s, gone, b);
        if b in lru {
          var k := Position(b);
        }
      }
      KeepSame(s, gone, OfDevice(m, device));
      KeepSame(d, gone, OfDevice(m, device));
    }

    // buffer_cache_invalidate_device takes exactly the heads of the device off
    // every list. Those still referenced go on being counted as cached.
    method InvalidateDevice(device: nat)
      requires Valid()
      modifies this`chains, this`table, this`lru, this`lruHead, this`lruTail, this`dirtyList, this`dirtyHead, this`dirtyTail,
        this`dirtyBuffers, this`cachedBuffers, this`orphans, nodes
      ensures Valid() && Snap(nodes).Keys == old(Snap(nodes)).Keys
      ensures forall b <- old(Snap(nodes)) :: b !in old(lru) || old(Snap(nodes))[b].device != device ==> Data(Snap(nodes)[b]) == Data(old(Snap(nodes))[b])
      ensures forall b <- old(Snap(nodes)) :: b in old(lru) && old(Snap(nodes))[b].device == device && old(Snap(nodes))[b].refCount != 0 ==>
        Data(Snap(nodes)[b]) == Data(old(Snap(nodes))[b]).(dirty := false, uptodate := false, locked := false, state := INVALID)
      ensures lru == Keep(old(lru), OfDevice(old(Snap(nodes)), device)) && dirtyList == Keep(old(dirtyList), OfDevice(old(Snap(nodes)), device))
      ensures orphans == old(orphans) + |set b <- old(lru) | b in OfDevice(old(Snap(nodes)), device) && b in Referenced(old(Snap(nodes)))|
    {
      hide Valid, Snap, SameKeys, OfDevice, Referenced, Keep, At, Hash, Alters, Data;
      ghost var s, d, m, t := lru, dirtyList, Snap(nodes), OfDevice(Snap(nodes), device);
      ghost var gone: set<Buffer> := {};
      AltersNone(m, Drop);
      KeepNone(s);
      KeepNone(d);
      TableSize();
      var i := 0;
      while i < HASH_BUCKETS
        invariant i <= HASH_BUCKETS && |chains| == HASH_BUCKETS && Valid() && Alters(m, Snap(nodes), gone, Drop)
        invariant forall h: nat, b :: h < i && b in chains[h] ==> b !in t
        invariant gone <= t && (forall b <- gone :: b in s) && lru == Keep(s, gone) && dirtyList == Keep(d, gone)
        invariant orphans == old(orphans) + |gone * Referenced(m)|
      {
        ghost var m1, c := Snap(nodes), chains[i];
        AltersKeys(m, m1, gone, Drop);
        DeviceSets(m, m1, device);
        ghost var more := PurgeChain(device, i);
        GoneBoth(s, d, gone, more, Referenced(m));
        AltersMore(m, m1, Snap(nodes), gone, more, Drop);
        KeepOut(c, t);
        gone := gone + more;
        i := i + 1;
      }
      AltersKeys(m, Snap(nodes), gone, Drop);
      Purged(s, d, m, device, gone);
      CountOrphans(s, m, device, gone);
      DroppedFields(m, Snap(nodes), s, device, gone);
    }

    // A holder that reads a buffer of an invalidated device gets it from the
    // device, whatever it held and even if it was locked.
    method ReadDropped(device: nat, bh: Buffer) returns (code: Code, filled: bool)
      requires Valid() && bh in lru && bh in nodes && bh.device == device && bh.refCount != 0
      modifies this`chains, this`table, this`lru, this`lruHead, this`lruTail, this`dirtyList, this`dirtyHead, this`dirtyTail,
        this`dirtyBuffers, this`cachedBuffers, this`orphans, nodes
      ensures Valid() && code == Success && filled && bh !in lru
    {
      hide Snap, Whole, Ends, Keep, OfDevice;
      HeadFields(bh);
      ghost var m, s := Snap(nodes), lru;
      InvalidateDevice(device);
      HeadFields(bh);
      StaleFields(m[bh], Snap(nodes)[bh]);
      OfIt(m, device, bh);
      KeepMembers(s, OfDevice(m, device), bh);
      ValidSound();
      code, filled := Read(bh);
    }

    lemma ValidSound()
      requires Valid()
      ensures Sound()
    {
    }

    lemma TailIs()
      requires Valid()
      ensures lruTail == At(lru, |lru| - 1) && lruHead == At(lru, 0)
    {
    }

    lemma SnapKeys()
      ensures Snap(nodes).Keys == nodes
    {
    }
  }

  // Only b may differ, apart from links.
  ghost predicate SameDataBut(b: Buffer, m: Heads, m': Heads) {
    b in m && m.Keys == m'.Keys && forall x <- m :: x != b ==> Data(m[x]) == Data(m'[x])
  }

  lemma DirtyData(m: Heads, m1: Heads, m2: Heads, b: Buffer, on: bool)
    requires SameBut(DirtyList, m, m1) && b in m && m2 == m1[b := m1[b].(dirty := on)]
    ensures SameDataBut(b, m, m2) && Data(m2[b]) == Data(m[b]).(dirty := on)
  {
    SameButData(m, m1, DirtyList);
    assert Data(m[b]) == Data(m1[b]);
    forall x <- m | x != b ensures Data(m[x]) == Data(m2[x]) {
      assert m2[x] == m1[x];
    }
  }

  datatype Code = Success | InvalidArg | Locked

  lemma SameDataButTwice(m: Heads, m1: Heads, m2: Heads, b: Buffer)
    requires SameDataBut(b, m, m1) && SameDataBut(b, m1, m2)
    ensures SameDataBut(b, m, m2)
  {
    hide Data;
  }

  lemma WriteData(m: Heads, m1: Heads, m2: Heads, m3: Heads, b: Buffer)
    requires b in m && b in m1 && b in m2 && b in m3 && m1 == m[b := m[b].(locked := true)] && !m[b].locked
    requires SameDataBut(b, m1, m2) && Data(m2[b]) == Data(m1[b]).(dirty := false)
    requires m3 == m2[b := m2[b].(locked := false, state := CLEAN)]
    ensures SameDataBut(b, m, m3) && Data(m3[b]) == Data(m[b]).(dirty := false, state := CLEAN)
  {
    assert SameDataBut(b, m, m1);
    assert SameDataBut(b, m2, m3);
    SameDataButTwice(m, m1, m2, b);
    SameDataButTwice(m, m2, m3, b);
  }

  lemma MarkData(m: Heads, m1: Heads, m2: Heads, b: Buffer)
    requires b in m && b in m1 && SameDataBut(b, m, m1) && Data(m1[b]) == Data(m[b]).(dirty := true)
    requires m2 == m1[b := m1[b].(state := DIRTY)]
    ensures SameDataBut(b, m, m2) && Data(m2[b]) == Data(m[b]).(dirty := true, state := DIRTY)
  {
    assert SameDataBut(b, m1, m2);
    SameDataButTwice(m, m1, m2, b);
  }

  // The heads that syncing a device may write.
  ghost function Targets(m: Heads, device: nat): set<Buffer> {
    set b <- m | (device == 0 || m[b].device == device) && !m[b].locked
  }

  ghost predicate SameTargets(m: Heads, m': Heads) {
    m.Keys == m'.Keys && forall b <- m :: Key(m'[b]) == Key(m[b]) && m'[b].locked == m[b].locked && m'[b].refCount == m[b].refCount
  }

  lemma SameTargetsRefl(m: Heads)
    ensures SameTargets(m, m)
  {
  }

  lemma TargetOf(m: Heads, m1: Heads, device: nat, b: Buffer)
    requires SameTargets(m, m1) && b in m1
    ensures b in Targets(m, device) <==> (device == 0 || m1[b].device == device) && !m1[b].locked
  {
  }

  lemma TargetsSame(m: Heads, m1: Heads, device: nat)
    requires SameTargets(m, m1)
    ensures Targets(m1, device) == Targets(m, device)
  {
  }

  // A list of which the first k have been looked at, and kept of them left.
  ghost function Walked(kept: seq<Buffer>, s: seq<Buffer>, k: nat): seq<Buffer>
    requires k <= |s|
  {
    kept + s[k..]
  }

  ghost predicate Sifted(kept: seq<Buffer>, s: seq<Buffer>, k: nat, t: set<Buffer>)
    requires k <= |s|
  {
    Keep(s, t) == kept + Keep(s[k..], t)
  }

  lemma AtEnd(s: seq<Buffer>, k: nat)
    ensures At(s, k) != null ==> k < |s|
  {
  }

  lemma SiftStart(s: seq<Buffer>, t: set<Buffer>)
    ensures Walked([], s, 0) == s && Sifted([], s, 0, t)
  {
  }

  lemma SiftEnd(kept: seq<Buffer>, s: seq<Buffer>, k: nat, t: set<Buffer>)
    requires k <= |s| && Sifted(kept, s, k, t)
    ensures k == |s| ==> Walked(kept, s, k) == Keep(s, t)
    ensures |Walked(kept, s, k)| == |kept| + |s| - k && (At(s, k) == null ==> k == |s|)
  {
  }

  // One step of filtering a list while walking it.
  lemma SiftStep(kept: seq<Buffer>, s: seq<Buffer>, k: nat, t: set<Buffer>)
    requires k < |s| && Sifted(kept, s, k, t)
    ensures s[k] in t ==> Sifted(kept, s, k + 1, t) && Cut(Walked(kept, s, k), |kept|) == Walked(kept, s, k + 1)
    ensures s[k] !in t ==> Sifted(kept + [s[k]], s, k + 1, t) && Walked(kept, s, k) == Walked(kept + [s[k]], s, k + 1)
    ensures Walked(kept, s, k)[|kept|] == s[k] == At(s, k) && At(Walked(kept, s, k), |kept| + 1) == At(s, k + 1)
  {
    assert s[k..][1..] == s[k + 1..];
    assert kept + ([s[k]] + Keep(s[k + 1..], t)) == (kept + [s[k]]) + Keep(s[k + 1..], t);
    assert (kept + [s[k]]) + s[k + 1..] == kept + s[k..];
  }

  lemma TouchDone(m: Heads, m1: Heads, m3: Heads, m4: Heads, lru: seq<Buffer>, dirtyList: seq<Buffer>, chains: seq<seq<Buffer>>, clock: nat, i: nat)
    requires i < |lru| && lru[i] in m && lru[i] in m3 && m1 == m[lru[i] := m[lru[i]].(refCount := m[lru[i]].refCount + 1)]
    requires Whole(m1, lru, dirtyList, chains, clock)
    requires SameBut(LruList, m1, m3) && Linked([lru[i]] + Cut(lru, i), m3, LruList)
    requires m4 == m3[lru[i] := m3[lru[i]].(stamp := clock + 1)]
    ensures Whole(m4, [lru[i]] + Cut(lru, i), dirtyList, chains, clock + 1) && SameDataBut(lru[i], m, m4)
    ensures lru[i] in m4 && Data(m4[lru[i]]) == Data(m[lru[i]]).(refCount := m[lru[i]].refCount + 1, stamp := clock + 1)
  {
    hide Linked, Whole, SameBut, Cut, Data, SameDataBut;
    TouchWhole(m1, m3, m4, lru, dirtyList, chains, clock, i);
    TouchData(m, m1, m3, m4, lru[i], clock + 1);
  }

  lemma TouchData(m: Heads, m1: Heads, m3: Heads, m4: Heads, b: Buffer, t: nat)
    requires b in m && b in m3 && m1 == m[b := m[b].(refCount := m[b].refCount + 1)] && SameBut(LruList, m1, m3)
    requires m4 == m3[b := m3[b].(stamp := t)]
    ensures SameDataBut(b, m, m4) && Data(m4[b]) == Data(m[b]).(refCount := m[b].refCount + 1, stamp := t)
  {
    SameButData(m1, m3, LruList);
    forall x <- m ensures x != b ==> Data(m4[x]) == Data(m[x]) {
      assert Data(m1[x]) == Data(m3[x]);
    }
    assert Data(m1[b]) == Data(m3[b]);
  }

  lemma SameButTwice(m: Heads, m1: Heads, m2: Heads, k: Kind)
    requires SameBut(k, m, m1) && SameBut(k, m1, m2)
    ensures SameBut(k, m, m2)
  {
    hide Bare;
  }

  // With nothing locked, syncing every device leaves no head dirty.
  lemma {:induction false} SyncAllEmpties(s: seq<Buffer>, m: Heads)
    requires forall b <- s :: b in m && !m[b].locked
    ensures Keep(s, Targets(m, 0)) == []
  {
    if s != [] {
      SyncAllEmpties(s[1..], m);
    }
  }

  lemma NewData(m: Heads, m1: Heads, m2: Heads, b: Buffer, c: Cell)
    requires b !in m && m1 == m[b := c] && SameData(m1, m2) && Data(c) == c
    ensures b in m2 && SameData(m, m2 - {b}) && Data(m2[b]) == c
  {
    hide Data;
    forall x <- m ensures Data(m[x]) == Data(m2[x]) {
      assert Data(m1[x]) == Data(m2[x]);
    }
  }

  lemma {:induction false} CutIsKeep(s: seq<Buffer>, i: nat)
    requires NoDup(s) && i < |s|
    ensures Cut(s, i) == Keep(s, {s[i]})
  {
    hide Cut;
    CutTail(s, i);
    if i == 0 {
      KeepAll(s[1..], {s[0]});
    } else {
      CutIsKeep(s[1..], i - 1);
    }
  }

  lemma CutTail(s: seq<Buffer>, i: nat)
    requires i < |s|
    ensures Cut(s, i) == if i == 0 then s[1..] else [s[0]] + Cut(s[1..], i - 1)
  {
  }

  lemma {:induction false} KeepAll(s: seq<Buffer>, gone: set<Buffer>)
    requires forall b <- s :: b !in gone
    ensures Keep(s, gone) == s
  {
    if s != [] { KeepAll(s[1..], gone); }
  }

  lemma {:induction false} SurvivorsWithin(s: seq<Buffer>, ev: set<Buffer>, c: nat)
    ensures forall b <- Survivors(s, ev, c) :: b in s
  {
    if s != [] && c > 0 {
      var t := s[..|s| - 1];
      SurvivorsWithin(t, ev, if s[|s| - 1] in ev then c - 1 else c);
    }
  }

  lemma KeyOf(c: Cell, d: Cell, r: int, t: nat)
    requires Data(d) == Data(c).(refCount := r, stamp := t)
    ensures Key(d) == Key(c) && d.refCount == r
  {
  }

  lemma FreshData(device: nat, block: nat, t: nat)
    ensures Data(Fresh(device, block, t)) == Fresh(device, block, t) && Key(Fresh(device, block, t)) == (device, block)
    ensures Fresh(device, block, t) == Fresh(device, block, t).(refCount := 1, stamp := t)
  {
  }

  // What invalidating and syncing do to the fields of a head.
  datatype Change = Drop | Sync

  ghost function Altered(c: Cell, k: Change): Cell {
    match k
    case Drop => if c.refCount == 0 then c.(dirty := false) else c.(dirty := false, uptodate := false, locked := false, state := INVALID)
    case Sync => c.(dirty := false, state := CLEAN)
  }

  // The heads of gone were altered, and no other.
  ghost predicate Alters(m: Heads, m': Heads, gone: set<Buffer>, k: Change) {
    m.Keys == m'.Keys && forall b <- m :: Data(m'[b]) == if b in gone then Altered(Data(m[b]), k) else Data(m[b])
  }

  lemma AltersNone(m: Heads, k: Change)
    ensures Alters(m, m, {}, k)
  {
    hide Data;
  }

  lemma AltersMore(m: Heads, m1: Heads, m2: Heads, gone: set<Buffer>, more: set<Buffer>, k: Change)
    requires Alters(m, m1, gone, k) && Alters(m1, m2, more, k) && gone !! more
    ensures Alters(m, m2, gone + more, k)
  {
    hide Data, Altered;
  }

  lemma AltersKeys(m: Heads, m1: Heads, gone: set<Buffer>, k: Change)
    requires Alters(m, m1, gone, k)
    ensures SameKeys(m, m1)
  {
    forall b <- m ensures Key(m1[b]) == Key(m[b]) && m1[b].refCount == m[b].refCount {
      assert Data(m1[b]) == if b in gone then Altered(Data(m[b]), k) else Data(m[b]);
    }
  }

  lemma AltersTargets(m: Heads, m1: Heads, gone: set<Buffer>)
    requires Alters(m, m1, gone, Sync)
    ensures SameTargets(m, m1)
  {
    forall b <- m ensures Key(m1[b]) == Key(m[b]) && m1[b].locked == m[b].locked && m1[b].refCount == m[b].refCount {
      assert Data(m1[b]) == if b in gone then Altered(Data(m[b]), Sync) else Data(m[b]);
    }
  }

  lemma AltersOne(m: Heads, m1: Heads, b: Buffer, k: Change)
    requires SameDataBut(b, m, m1) && Data(m1[b]) == Altered(Data(m[b]), k)
    ensures Alters(m, m1, {b}, k)
  {
    hide Data, Altered;
  }

  lemma SyncedIs(c: Cell)
    ensures Altered(Data(c), Sync) == Data(c).(dirty := false, state := CLEAN)
  {
  }

  // The targets among the first k heads of s.
  ghost function SyncedOf(s: seq<Buffer>, k: nat, t: set<Buffer>): set<Buffer>
    requires k <= |s|
  {
    set i: nat | i < k && s[i] in t :: s[i]
  }

  lemma SyncedNone(s: seq<Buffer>, t: set<Buffer>)
    ensures SyncedOf(s, 0, t) == {}
  {
  }

  lemma SyncedMore(s: seq<Buffer>, k: nat, t: set<Buffer>)
    requires NoDup(s) && k < |s|
    ensures s[k] !in SyncedOf(s, k, t) && SyncedOf(s, k + 1, t) == SyncedOf(s, k, t) + if s[k] in t then {s[k]} else {}
  {
  }

  lemma SyncedFields(m: Heads, m1: Heads, s: seq<Buffer>, t: set<Buffer>)
    requires Alters(m, m1, SyncedOf(s, |s|, t), Sync)
    ensures m1.Keys == m.Keys
    ensures forall b <- m :: Data(m1[b]) == if b in s && b !in Keep(s, t) then Data(m[b]).(dirty := false, state := CLEAN) else Data(m[b])
  {
    forall b <- m ensures b in SyncedOf(s, |s|, t) <==> b in s && b !in Keep(s, t) {
      KeepMembers(s, t, b);
    }
    hide Keep, Data, SyncedOf;
  }

  // Off the lists, clean, and then flagged if somebody refers to it.
  lemma DropData(m: Heads, m1: Heads, m2: Heads, m3: Heads, b: Buffer)
    requires b in m && b in m1 && b in m2 && SameData(m, m1) && SameDataBut(b, m1, m2) && Data(m2[b]) == Data(m1[b]).(dirty := false)
    requires m3 == if m2[b].refCount == 0 then m2 else m2[b := m2[b].(state := INVALID, uptodate := false, locked := false)]
    ensures Alters(m, m3, {b}, Drop)
  {
    assert Data(m[b]) == Data(m1[b]);
    forall x <- m | x != b ensures Data(m3[x]) == Data(m[x]) {
      assert m3[x] == m2[x] && Data(m2[x]) == Data(m1[x]) && Data(m1[x]) == Data(m[x]);
    }
  }

  lemma DroppedFields(m: Heads, m1: Heads, s: seq<Buffer>, device: nat, gone: set<Buffer>)
    requires Alters(m, m1, gone, Drop) && (forall b <- s :: b in m) && gone == set b <- s | m[b].device == device
    ensures m1.Keys == m.Keys
    ensures forall b <- m :: b !in s || m[b].device != device ==> Data(m1[b]) == Data(m[b])
    ensures forall b <- m :: b in s && m[b].device == device && m[b].refCount != 0 ==>
      Data(m1[b]) == Data(m[b]).(dirty := false, uptodate := false, locked := false, state := INVALID)
  {
  }

  // A dropped head is neither up to date nor locked, so a read refills it.
  lemma StaleFields(c: Cell, d: Cell)
    requires Data(d) == Data(c).(dirty := false, uptodate := false, locked := false, state := INVALID)
    ensures !d.dirty && !d.uptodate && !d.locked && d.state == INVALID
  {
  }

  lemma OfIt(m: Heads, device: nat, b: Buffer)
    requires b in m
    ensures b in OfDevice(m, device) <==> m[b].device == device
  {
  }

  // Keys and reference counts are as they were.
  ghost predicate SameKeys(m: Heads, m': Heads) {
    m.Keys == m'.Keys && forall b <- m :: Key(m'[b]) == Key(m[b]) && m'[b].refCount == m[b].refCount
  }

  lemma DataKeys(m: Heads, m1: Heads, m2: Heads, b: Buffer)
    requires b in m && b in m1 && SameData(m, m1) && SameDataBut(b, m1, m2) && Data(m2[b]) == Data(m1[b]).(dirty := false)
    ensures SameKeys(m, m2)
  {
    forall x <- m ensures Key(m2[x]) == Key(m[x]) && m2[x].refCount == m[x].refCount {
      assert Data(m[x]) == Data(m1[x]);
      if x != b { assert Data(m1[x]) == Data(m2[x]); }
    }
  }

  ghost function OfDevice(m: Heads, device: nat): set<Buffer> {
    set b <- m | m[b].device == device
  }

  ghost function Referenced(m: Heads): set<Buffer> {
    set b <- m | m[b].refCount != 0
  }

  lemma DeviceSame(m: Heads, m1: Heads, device: nat, b: Buffer)
    requires SameKeys(m, m1) && b in m1
    ensures b in OfDevice(m, device) <==> b in OfDevice(m1, device)
    ensures b in Referenced(m) <==> m1[b].refCount != 0
  {
  }

  lemma KeepNone(s: seq<Buffer>)
    ensures Keep(s, {}) == s
  {
    KeepAll(s, {});
  }

  lemma KeepMore(s: seq<Buffer>, d: seq<Buffer>, gone: set<Buffer>, b: Buffer)
    ensures Keep(Keep(s, gone), {b}) == Keep(s, gone + {b}) && Keep(Keep(d, gone), {b}) == Keep(d, gone + {b})
    ensures forall x <- Keep(Keep(s, gone), {b}) :: x in Keep(s, gone) && x != b
  {
    KeepUnion(s, gone, {b});
    KeepUnion(d, gone, {b});
    forall x <- Keep(Keep(s, gone), {b}) ensures x in Keep(s, gone) && x != b {
      KeepMembers(Keep(s, gone), {b}, x);
    }
  }

  lemma GoneMore(gone: set<Buffer>, r: set<Buffer>, b: Buffer)
    requires b !in gone
    ensures |(gone + {b}) * r| == |gone * r| + if b in r then 1 else 0
  {
    assert (gone + {b}) * r == gone * r + if b in r then {b} else {};
  }

  // Two rounds of removal, the second from what the first left.
  lemma GoneBoth(s: seq<Buffer>, d: seq<Buffer>, gone: set<Buffer>, more: set<Buffer>, r: set<Buffer>)
    requires forall b <- more :: b in Keep(s, gone)
    ensures Keep(Keep(s, gone), more) == Keep(s, gone + more) && Keep(Keep(d, gone), more) == Keep(d, gone + more)
    ensures |(gone + more) * r| == |gone * r| + |more * r| && gone !! more && forall b <- more :: b in s
  {
    KeepUnion(s, gone, more);
    KeepUnion(d, gone, more);
    forall b <- more ensures b in s && b !in gone {
      KeepMembers(s, gone, b);
    }
    assert (gone + more) * r == gone * r + more * r;
    assert (gone * r) !! (more * r);
  }

  lemma KeepOut(c: seq<Buffer>, t: set<Buffer>)
    ensures forall b <- Keep(c, t) :: b !in t
  {
    forall b <- Keep(c, t) ensures b !in t {
      KeepMembers(c, t, b);
    }
  }

  lemma CountOrphans(s: seq<Buffer>, m: Heads, device: nat, gone: set<Buffer>)
    requires (forall b <- s :: b in m) && gone == set b <- s | m[b].device == device
    ensures gone * Referenced(m) == set b <- s | b in OfDevice(m, device) && b in Referenced(m)
  {
  }

  lemma DeviceSets(m: Heads, m1: Heads, device: nat)
    requires SameKeys(m, m1)
    ensures OfDevice(m1, device) == OfDevice(m, device) && Referenced(m1) == Referenced(m)
  {
  }

  lemma {:induction false} KeepSame(s: seq<Buffer>, p: set<Buffer>, q: set<Buffer>)
    requires forall b <- s :: b in p <==> b in q
    ensures Keep(s, p) == Keep(s, q)
  {
    if s != [] { KeepSame(s[1..], p, q); }
  }

  lemma {:induction false} KeepUnion(s: seq<Buffer>, p: set<Buffer>, q: set<Buffer>)
    ensures Keep(Keep(s, p), q) == Keep(s, p + q)
  {
    if s != [] {
      KeepUnion(s[1..], p, q);
      if s[0] in p {
        assert Keep(s, p) == Keep(s[1..], p);
      } else {
        assert Keep(s, p)[1..] == Keep(s[1..], p);
      }
    }
  }

  lemma SameDataRefl(m: Heads)
    ensures SameData(m, m)
  {
  }

  lemma SurvivorsStep(s: seq<Buffer>, k: nat, ev: set<Buffer>, c: nat, kept: seq<Buffer>)
    requires k < |s| && c > 0
    ensures s[k] in ev ==> Survivors(s[..k + 1], ev, c) == Survivors(s[..k], ev, c - 1)
    ensures s[k] !in ev ==> Survivors(s[..k + 1], ev, c) + kept == Survivors(s[..k], ev, c) + ([s[k]] + kept)
  {
    assert s[..k + 1][..k] == s[..k];
  }

  lemma SurvivorsEnd(s: seq<Buffer>, ev: set<Buffer>, c: nat)
    requires s == [] || c == 0
    ensures Survivors(s, ev, c) == s
  {
  }

  lemma EvictableIs(m: Heads, b: Buffer)
    requires b in m
    ensures b in Evictable(m) <==> m[b].refCount == 0 && !m[b].dirty
  {
  }

  lemma CutMiddle(s: seq<Buffer>, k: nat, kept: seq<Buffer>)
    requires k < |s|
    ensures Cut(s[..k + 1] + kept, k) == s[..k] + kept
  {
  }
}
