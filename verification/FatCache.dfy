// build_exclude/fat32_production.c: the FAT copies on disk and the cache of
// cluster links in front of them.
module FatCache {
  import opened Wrappers

  const CACHE_CLUSTERS: nat := 1024
  const CLUSTER_EOF: nat := 0x0FFFFFFF
  const LINK: nat := 0x1000_0000

  type Byte = n: nat | n < 256
  type Sector = seq<Byte>
  type Disk = seq<Sector>

  // ---- 32-bit little-endian fields of a sector buffer

  function Get32(b: Sector, off: nat): (v: nat)
    requires off + 4 <= |b|
    ensures v < 0x1_0000_0000
  {
    var b0: nat, b1: nat, b2: nat, b3: nat := b[off], b[off + 1], b[off + 2], b[off + 3];
    b0 + 0x100 * (b1 + 0x100 * (b2 + 0x100 * b3))
  }

  function Put32(b: Sector, off: nat, v: nat): (r: Sector)
    requires off + 4 <= |b|
    ensures |r| == |b|
  {
    b[off := v % 0x100][off + 1 := v / 0x100 % 0x100][off + 2 := v / 0x1_0000 % 0x100][off + 3 := v / 0x100_0000 % 0x100]
  }

  lemma PutGet(b: Sector, off: nat, v: nat, at: nat)
    requires off + 4 <= |b| && at + 4 <= |b| && off % 4 == 0 && at % 4 == 0 && v < 0x1_0000_0000
    ensures Get32(Put32(b, off, v), at) == if at == off then v else Get32(b, at)
  {
    if at == off {
      assert v / 0x1_0000 == v / 0x100 / 0x100 && v / 0x100_0000 == v / 0x100 / 0x100 / 0x100;
    } else {
      assert at + 4 <= off || off + 4 <= at;
    }
  }

  // ---- the FAT copies

  datatype Volume = Volume(sectorSize: nat, fatStart: nat, sectorsPerFat: nat, numFats: nat, totalClusters: nat)

  // A well-formed volume: entries do not straddle sectors, there is an entry
  // for every cluster, and the copies lie on the disk.
  ghost predicate Formed(v: Volume, disk: Disk) {
    v.sectorSize >= 4 && v.sectorSize % 4 == 0 && 1 <= v.numFats <= 4 && v.totalClusters + 2 <= LINK &&
    (v.totalClusters + 2) * 4 <= v.sectorsPerFat * v.sectorSize &&
    v.fatStart + v.numFats * v.sectorsPerFat <= |disk| &&
    forall s :: 0 <= s < |disk| ==> |disk[s]| == v.sectorSize
  }

  // fat32_is_cluster_valid
  predicate ClusterValid(v: Volume, cluster: nat) {
    2 <= cluster < v.totalClusters + 2
  }

  function SectorIn(v: Volume, cluster: nat): nat
    requires v.sectorSize > 0
  {
    cluster * 4 / v.sectorSize
  }

  function OffsetIn(v: Volume, cluster: nat): nat
    requires v.sectorSize > 0
  {
    cluster * 4 % v.sectorSize
  }

  // Sector k of copy i.
  function SectorAt(v: Volume, i: nat, k: nat): nat {
    v.fatStart + i * v.sectorsPerFat + k
  }

  // The sector of copy i that holds the entry of a cluster.
  function FatSector(v: Volume, i: nat, cluster: nat): nat
    requires v.sectorSize > 0
  {
    SectorAt(v, i, SectorIn(v, cluster))
  }

  lemma SectorFits(v: Volume, disk: Disk, i: nat, cluster: nat)
    requires Formed(v, disk) && i < v.numFats && cluster < v.totalClusters + 2
    ensures SectorIn(v, cluster) < v.sectorsPerFat && OffsetIn(v, cluster) + 4 <= v.sectorSize && OffsetIn(v, cluster) % 4 == 0
    ensures FatSector(v, i, cluster) < |disk| && |disk[FatSector(v, i, cluster)]| == v.sectorSize
  {
    var q, r := cluster * 4 / v.sectorSize, cluster * 4 % v.sectorSize;
    Quotient(cluster * 4, v.sectorSize, v.sectorsPerFat);
    Multiple(cluster, v.sectorSize);
    Rows(i, v.numFats, v.sectorsPerFat);
  }

  lemma Quotient(x: nat, m: nat, n: nat)
    requires m > 0 && x < n * m
    ensures x / m < n
  {
    assert x / m * m <= x;
  }

  lemma Multiple(c: nat, m: nat)
    requires m >= 4 && m % 4 == 0
    ensures c * 4 % m % 4 == 0 && c * 4 % m + 4 <= m
  {
    var r, q := c * 4 % m, c * 4 / m;
    assert c * 4 == q * m + r;
    assert m == 4 * (m / 4);
    assert q * m == 4 * (q * (m / 4));
    assert r == 4 * (c - q * (m / 4));
  }

  lemma {:induction false} Rows(i: nat, n: nat, w: nat)
    requires i < n
    ensures i * w + w <= n * w
  {
    assert n * w == (n - 1) * w + w;
    if i + 1 < n { Rows(i, n - 1, w); }
  }

  // Sectors of different copies are different sectors.
  lemma RowsApart(i: nat, j: nat, w: nat, a: nat, b: nat)
    requires a < w && b < w && i * w + a == j * w + b
    ensures i == j && a == b
  {
    if i < j { Rows(i, j, w); }
    if j < i { Rows(j, i, w); }
  }

  // The raw entry of a cluster in copy i, and the 28 bits that are the link.
  function Raw(v: Volume, disk: Disk, i: nat, cluster: nat): nat {
    if v.sectorSize > 0 && FatSector(v, i, cluster) < |disk| && OffsetIn(v, cluster) + 4 <= |disk[FatSector(v, i, cluster)]| then
      Get32(disk[FatSector(v, i, cluster)], OffsetIn(v, cluster))
    else 0
  }

  function Linked(v: Volume, disk: Disk, cluster: nat): nat {
    Raw(v, disk, 0, cluster) % LINK
  }

  ghost predicate CopiesEqual(v: Volume, disk: Disk) {
    forall i: nat, k: nat :: i < v.numFats && k < v.sectorsPerFat && SectorAt(v, i, k) < |disk| && SectorAt(v, 0, k) < |disk| ==>
      disk[SectorAt(v, i, k)] == disk[SectorAt(v, 0, k)]
  }

  // ---- writing one entry into the copies

  // The sector buffer read from copy 0, with the entry of the cluster replaced.
  function Edited(v: Volume, disk: Disk, cluster: nat, next: nat): Sector
    requires v.sectorSize > 0 && FatSector(v, 0, cluster) < |disk| && OffsetIn(v, cluster) + 4 <= |disk[FatSector(v, 0, cluster)]|
  {
    Put32(disk[FatSector(v, 0, cluster)], OffsetIn(v, cluster), next % LINK)
  }

  // The disk after buf went to the sector of the cluster in the first n copies.
  function Written(v: Volume, disk: Disk, cluster: nat, buf: Sector, n: nat): (r: Disk)
    requires v.sectorSize > 0
    ensures |r| == |disk|
  {
    if n == 0 then disk
    else if FatSector(v, n - 1, cluster) < |disk| then Written(v, disk, cluster, buf, n - 1)[FatSector(v, n - 1, cluster) := buf]
    else Written(v, disk, cluster, buf, n - 1)
  }

  lemma {:induction false} WrittenAt(v: Volume, disk: Disk, cluster: nat, buf: Sector, n: nat, s: nat)
    requires v.sectorSize > 0 && s < |disk|
    ensures Written(v, disk, cluster, buf, n)[s] == buf || Written(v, disk, cluster, buf, n)[s] == disk[s]
    ensures (forall i: nat :: i < n ==> FatSector(v, i, cluster) != s) ==> Written(v, disk, cluster, buf, n)[s] == disk[s]
    ensures (exists i: nat :: i < n && FatSector(v, i, cluster) == s) ==> Written(v, disk, cluster, buf, n)[s] == buf
  {
    if n > 0 {
      WrittenAt(v, disk, cluster, buf, n - 1, s);
    }
  }

  // In copy i, sector k: new if it is the edited sector of a written copy.
  lemma WrittenSector(v: Volume, disk: Disk, cluster: nat, buf: Sector, n: nat, i: nat, k: nat)
    requires Formed(v, disk) && n <= v.numFats && cluster < v.totalClusters + 2 && i < v.numFats && k < v.sectorsPerFat
    ensures SectorAt(v, i, k) < |disk|
    ensures Written(v, disk, cluster, buf, n)[SectorAt(v, i, k)] == if i < n && k == SectorIn(v, cluster) then buf else disk[SectorAt(v, i, k)]
  {
    Rows(i, v.numFats, v.sectorsPerFat);
    SectorFits(v, disk, i, cluster);
    WrittenAt(v, disk, cluster, buf, n, SectorAt(v, i, k));
    if i < n && k == SectorIn(v, cluster) {
      assert FatSector(v, i, cluster) == SectorAt(v, i, k);
    } else {
      forall j: nat | j < n ensures FatSector(v, j, cluster) != SectorAt(v, i, k) {
        if FatSector(v, j, cluster) == SectorAt(v, i, k) {
          RowsApart(j, i, v.sectorsPerFat, SectorIn(v, cluster), k);
        }
      }
    }
  }

  // Two clusters with one sector and one offset are one cluster.
  lemma SameEntry(v: Volume, c: nat, d: nat)
    requires v.sectorSize > 0 && SectorIn(v, c) == SectorIn(v, d) && OffsetIn(v, c) == OffsetIn(v, d)
    ensures c == d
  {
    assert c * 4 == c * 4 / v.sectorSize * v.sectorSize + c * 4 % v.sectorSize;
    assert d * 4 == d * 4 / v.sectorSize * v.sectorSize + d * 4 % v.sectorSize;
  }

  // What writing the entry into the first n copies does to every raw entry: a
  // written copy has the new entry and, around it in the sector, what copy 0 had.
  lemma WriteEntry(v: Volume, disk: Disk, cluster: nat, next: nat, n: nat, i: nat, d: nat)
    requires Formed(v, disk) && ClusterValid(v, cluster) && ClusterValid(v, d) && n <= v.numFats && i < v.numFats
    requires FatSector(v, 0, cluster) < |disk| && OffsetIn(v, cluster) + 4 <= |disk[FatSector(v, 0, cluster)]|
    ensures Raw(v, Written(v, disk, cluster, Edited(v, disk, cluster, next), n), i, d) ==
      if i < n && d == cluster then next % LINK
      else if i < n && SectorIn(v, d) == SectorIn(v, cluster) then Raw(v, disk, 0, d)
      else Raw(v, disk, i, d)
  {
    var buf := Edited(v, disk, cluster, next);
    SectorFits(v, disk, i, d);
    SectorFits(v, disk, 0, d);
    SectorFits(v, disk, 0, cluster);
    WrittenSector(v, disk, cluster, buf, n, i, SectorIn(v, d));
    if SectorIn(v, d) == SectorIn(v, cluster) {
      PutGet(disk[FatSector(v, 0, cluster)], OffsetIn(v, cluster), next % LINK, OffsetIn(v, d));
      if OffsetIn(v, d) == OffsetIn(v, cluster) { SameEntry(v, d, cluster); }
    }
  }

  // Where the copies were equal only that entry changes, in the written copies.
  lemma WriteOne(v: Volume, disk: Disk, cluster: nat, next: nat, n: nat, i: nat, d: nat)
    requires Formed(v, disk) && CopiesEqual(v, disk) && ClusterValid(v, cluster) && ClusterValid(v, d) && n <= v.numFats && i < v.numFats
    requires FatSector(v, 0, cluster) < |disk| && OffsetIn(v, cluster) + 4 <= |disk[FatSector(v, 0, cluster)]|
    ensures Raw(v, Written(v, disk, cluster, Edited(v, disk, cluster, next), n), i, d) ==
      if d == cluster && i < n then next % LINK else Raw(v, disk, i, d)
  {
    WriteEntry(v, disk, cluster, next, n, i, d);
    SectorFits(v, disk, i, d);
    SectorFits(v, disk, 0, d);
    hide Written, Edited;
    assert disk[SectorAt(v, i, SectorIn(v, d))] == disk[SectorAt(v, 0, SectorIn(v, d))];
  }

  lemma WriteFormed(v: Volume, disk: Disk, cluster: nat, buf: Sector, n: nat)
    requires Formed(v, disk) && |buf| == v.sectorSize
    ensures Formed(v, Written(v, disk, cluster, buf, n))
  {
    forall s: nat | s < |disk| ensures |Written(v, disk, cluster, buf, n)[s]| == v.sectorSize {
      WrittenAt(v, disk, cluster, buf, n, s);
    }
  }

  // Whatever the copies were, they are equal after n > 0 writes exactly when they
  // were outside the sector and the copies not reached have that sector already.
  lemma WriteHeals(v: Volume, disk: Disk, cluster: nat, buf: Sector, n: nat)
    requires Formed(v, disk) && ClusterValid(v, cluster) && 0 < n <= v.numFats
    ensures CopiesEqual(v, Written(v, disk, cluster, buf, n)) <==> EqualBut(v, disk, SectorIn(v, cluster)) && Reach(v, disk, SectorIn(v, cluster), buf, n)
  {
    var disk', k0 := Written(v, disk, cluster, buf, n), SectorIn(v, cluster);
    SectorFits(v, disk, 0, cluster);
    forall i: nat, k: nat | i < v.numFats && k < v.sectorsPerFat
      ensures SectorAt(v, i, k) < |disk| && disk'[SectorAt(v, i, k)] == if i < n && k == k0 then buf else disk[SectorAt(v, i, k)]
    {
      WrittenSector(v, disk, cluster, buf, n, i, k);
    }
    hide Written, SectorAt, SectorIn, Formed;
  }

  ghost predicate EqualBut(v: Volume, disk: Disk, k0: nat) {
    forall i: nat, k: nat :: i < v.numFats && k < v.sectorsPerFat && k != k0 && SectorAt(v, i, k) < |disk| && SectorAt(v, 0, k) < |disk| ==>
      disk[SectorAt(v, i, k)] == disk[SectorAt(v, 0, k)]
  }

  ghost predicate Reach(v: Volume, disk: Disk, k0: nat, buf: Sector, n: nat) {
    forall i: nat :: n <= i < v.numFats && SectorAt(v, i, k0) < |disk| ==> disk[SectorAt(v, i, k0)] == buf
  }

  // Copies that were equal stay so when all are written, or the entry was
  // already so.
  lemma WriteCopies(v: Volume, disk: Disk, cluster: nat, next: nat, n: nat)
    requires Formed(v, disk) && CopiesEqual(v, disk) && ClusterValid(v, cluster) && n <= v.numFats
    requires FatSector(v, 0, cluster) < |disk| && OffsetIn(v, cluster) + 4 <= |disk[FatSector(v, 0, cluster)]|
    ensures CopiesEqual(v, Written(v, disk, cluster, Edited(v, disk, cluster, next), n)) <==>
      n == 0 || n == v.numFats || Raw(v, disk, 0, cluster) == next % LINK
  {
    var buf, k0 := Edited(v, disk, cluster, next), SectorIn(v, cluster);
    SectorFits(v, disk, 0, cluster);
    SectorFits(v, disk, v.numFats - 1, cluster);
    PutSame(disk[FatSector(v, 0, cluster)], OffsetIn(v, cluster), next % LINK);
    if n > 0 {
      WriteHeals(v, disk, cluster, buf, n);
      hide Written;
      assert disk[SectorAt(v, v.numFats - 1, k0)] == disk[SectorAt(v, 0, k0)];
    }
  }

  lemma PutSame(b: Sector, off: nat, v: nat)
    requires off + 4 <= |b| && v < 0x1_0000_0000
    ensures Put32(b, off, v) == b <==> Get32(b, off) == v
  {
    var r := Put32(b, off, v);
    Bytes(v);
    if Get32(b, off) == v {
      Bytes(Get32(b, off));
      FourBytes(b[off], b[off + 1], b[off + 2], b[off + 3]);
      assert r == b;
    }
    if r == b {
      assert b[off] == r[off] && b[off + 1] == r[off + 1] && b[off + 2] == r[off + 2] && b[off + 3] == r[off + 3];
    }
  }

  lemma Bytes(v: nat)
    requires v < 0x1_0000_0000
    ensures v == v % 0x100 + 0x100 * (v / 0x100 % 0x100 + 0x100 * (v / 0x1_0000 % 0x100 + 0x100 * (v / 0x100_0000 % 0x100)))
  {
    assert v / 0x1_0000 == v / 0x100 / 0x100 && v / 0x100_0000 == v / 0x100 / 0x100 / 0x100;
  }

  lemma FourBytes(a: nat, b: nat, c: nat, d: nat)
    requires a < 0x100 && b < 0x100 && c < 0x100 && d < 0x100
    ensures var v := a + 0x100 * (b + 0x100 * (c + 0x100 * d));
      v % 0x100 == a && v / 0x100 % 0x100 == b && v / 0x1_0000 % 0x100 == c && v / 0x100_0000 % 0x100 == d
  {
    var v := a + 0x100 * (b + 0x100 * (c + 0x100 * d));
    assert v / 0x100 == b + 0x100 * (c + 0x100 * d);
    assert v / 0x1_0000 == v / 0x100 / 0x100 && v / 0x100_0000 == v / 0x100 / 0x100 / 0x100;
  }

  // ---- the cache of links

  datatype Entry = Entry(cluster: nat, next: nat)

  // Hash chains, and the clusters from the latest used to the earliest.
  datatype Cache = Cache(table: seq<seq<Entry>>, lru: seq<nat>)

  // The chain walk of the lookups.
  function FindIn(chain: seq<Entry>, cluster: nat, from: nat): (r: Option<nat>)
    requires from <= |chain|
    ensures r.Some? ==> from <= r.value < |chain| && chain[r.value].cluster == cluster
    ensures r.None? ==> forall j :: from <= j < |chain| ==> chain[j].cluster != cluster
    decreases |chain| - from
  {
    if from == |chain| then None else if chain[from].cluster == cluster then Some(from) else FindIn(chain, cluster, from + 1)
  }

  function Without(s: seq<nat>, x: nat): (r: seq<nat>)
    ensures forall y :: y in r <==> y in s && y != x
  {
    if s == [] then [] else (if s[0] == x then [] else [s[0]]) + Without(s[1..], x)
  }

  // fat32_cache_lru_touch
  function Touched(lru: seq<nat>, cluster: nat): seq<nat> {
    [cluster] + Without(lru, cluster)
  }

  // A cluster that is touched moves to the front, and the rest keeps its order.
  lemma TouchedFront(a: seq<nat>, cluster: nat, b: seq<nat>)
    requires cluster !in a && cluster !in b
    ensures Touched(a + [cluster] + b, cluster) == [cluster] + (a + b) && Touched(a + b, cluster) == [cluster] + (a + b)
  {
    WithoutAll(a, cluster);
    WithoutAll(b, cluster);
    WithoutOne(cluster);
    hide Without;
    WithoutJoin(a, b, cluster);
    WithoutJoin(a + [cluster], b, cluster);
    WithoutJoin(a, [cluster], cluster);
    assert a + [] == a;
  }

  lemma WithoutOne(x: nat)
    ensures Without([x], x) == []
  {
  }

  lemma {:induction false} WithoutAll(s: seq<nat>, x: nat)
    requires x !in s
    ensures Without(s, x) == s
  {
    if s != [] { WithoutAll(s[1..], x); }
  }

  lemma {:induction false} WithoutJoin(a: seq<nat>, b: seq<nat>, x: nat)
    ensures Without(a + b, x) == Without(a, x) + Without(b, x)
  {
    if a == [] {
      assert a + b == b;
    } else {
      assert (a + b)[1..] == a[1..] + b;
      WithoutJoin(a[1..], b, x);
    }
  }

  function Lookup(c: Cache, cluster: nat): Option<nat>
    requires |c.table| == CACHE_CLUSTERS
  {
    match FindIn(c.table[cluster % CACHE_CLUSTERS], cluster, 0)
    case None => None
    case Some(j) => Some(c.table[cluster % CACHE_CLUSTERS][j].next)
  }

  // fat32_cache_set_cluster
  function CacheSet(c: Cache, cluster: nat, next: nat, allocOk: bool): (r: Cache)
    requires |c.table| == CACHE_CLUSTERS
    ensures |r.table| == CACHE_CLUSTERS
  {
    var h := cluster % CACHE_CLUSTERS;
    match FindIn(c.table[h], cluster, 0)
    case Some(j) => Cache(c.table[h := c.table[h][j := c.table[h][j].(next := next)]], Touched(c.lru, cluster))
    case None => if allocOk then Cache(c.table[h := [Entry(cluster, next)] + c.table[h]], [cluster] + c.lru) else c
  }

  ghost predicate Distinct(s: seq<nat>) {
    forall i, j :: 0 <= i < j < |s| ==> s[i] != s[j]
  }

  ghost predicate ChainOk(chain: seq<Entry>, h: nat) {
    (forall j :: 0 <= j < |chain| ==> chain[j].cluster % CACHE_CLUSTERS == h) &&
    forall i, j :: 0 <= i < j < |chain| ==> chain[i].cluster != chain[j].cluster
  }

  // Every cached cluster is once in its own chain and once on the LRU list.
  ghost predicate CacheOk(c: Cache) {
    |c.table| == CACHE_CLUSTERS && Distinct(c.lru) &&
    (forall h: nat :: h < CACHE_CLUSTERS ==> ChainOk(c.table[h], h)) &&
    forall d: nat :: d in c.lru <==> Lookup(c, d).Some?
  }

  lemma {:induction false} WithoutDistinct(s: seq<nat>, x: nat)
    requires Distinct(s)
    ensures Distinct(Without(s, x))
  {
    if s != [] {
      WithoutDistinct(s[1..], x);
      assert s[0] !in s[1..];
    }
  }

  // Setting a link changes that link alone and uses the cluster last.
  lemma SetLookup(c: Cache, cluster: nat, next: nat, allocOk: bool)
    requires CacheOk(c)
    ensures var r := CacheSet(c, cluster, next, allocOk);
      CacheOk(r) && (forall d: nat :: d != cluster ==> Lookup(r, d) == Lookup(c, d)) &&
      (Lookup(r, cluster) == if Lookup(c, cluster).Some? || allocOk then Some(next) else None)
  {
    var r, h := CacheSet(c, cluster, next, allocOk), cluster % CACHE_CLUSTERS;
    assert ChainOk(c.table[h], h);
    WithoutDistinct(c.lru, cluster);
    var f := FindIn(c.table[h], cluster, 0);
    forall d: nat ensures Lookup(r, d) == if d == cluster && (f.Some? || allocOk) then Some(next) else Lookup(c, d) {
      if f.Some? {
        UpdateLookup(c.table[h], f.value, next, d);
      } else {
        PushLookup(c.table[h], Entry(cluster, next), d);
      }
    }
    assert cluster in c.lru <==> f.Some?;
    assert ChainOk(r.table[h], h);
    hide FindIn, Lookup;
  }

  // FindIn finds the first one.
  lemma {:induction false} FoundIs(chain: seq<Entry>, d: nat, from: nat, j: nat)
    requires from <= j < |chain| && chain[j].cluster == d && forall k :: from <= k < j ==> chain[k].cluster != d
    ensures FindIn(chain, d, from) == Some(j)
    decreases j - from
  {
    if from < j { FoundIs(chain, d, from + 1, j); }
  }

  lemma {:induction false} FoundFirst(chain: seq<Entry>, d: nat, from: nat)
    requires from <= |chain|
    ensures var f := FindIn(chain, d, from); f.Some? ==> forall k :: from <= k < f.value ==> chain[k].cluster != d
    decreases |chain| - from
  {
    if from < |chain| && chain[from].cluster != d { FoundFirst(chain, d, from + 1); }
  }

  // A chain whose entry for a cluster is updated in place.
  lemma UpdateLookup(chain: seq<Entry>, j: nat, next: nat, d: nat)
    requires j < |chain|
    ensures FindIn(chain[j := chain[j].(next := next)], d, 0) == FindIn(chain, d, 0)
  {
    var t := chain[j := chain[j].(next := next)];
    var f := FindIn(chain, d, 0);
    FoundFirst(chain, d, 0);
    if f.Some? {
      FoundIs(t, d, 0, f.value);
    } else {
      assert forall k :: 0 <= k < |t| ==> t[k].cluster != d;
    }
  }

  // A chain with a new entry in front.
  lemma PushLookup(chain: seq<Entry>, e: Entry, d: nat)
    ensures FindIn([e] + chain, d, 0) ==
      if d == e.cluster then Some(0) else match FindIn(chain, d, 0) case None => None case Some(j) => Some(j + 1)
  {
    var t, f := [e] + chain, FindIn(chain, d, 0);
    FoundFirst(chain, d, 0);
    if d != e.cluster {
      if f.Some? {
        assert forall k :: 1 <= k <= f.value + 1 ==> t[k] == chain[k - 1];
        FoundIs(t, d, 0, f.value + 1);
      } else {
        assert forall k :: 0 < k < |t| ==> t[k] == chain[k - 1];
      }
    }
  }

  // ---- get and set, as steps

  datatype State = State(disk: Disk, cache: Cache)

  datatype Code = Success | ReadOnly | InvalidArg | ReadFailed | WriteFailed

  // fat32_get_next_cluster; readOk and allocOk: whether the sector read and the
  // allocation of a cache entry succeed.
  function Get(v: Volume, s: State, cluster: nat, readOk: bool, allocOk: bool): (r: (State, nat))
    requires |s.cache.table| == CACHE_CLUSTERS
    ensures |r.0.cache.table| == CACHE_CLUSTERS
  {
    if !ClusterValid(v, cluster) then (s, CLUSTER_EOF) else
    match Lookup(s.cache, cluster)
    case Some(next) => (s.(cache := s.cache.(lru := Touched(s.cache.lru, cluster))), next)
    case None =>
      if !readOk then (s, CLUSTER_EOF)
      else (s.(cache := CacheSet(s.cache, cluster, Linked(v, s.disk, cluster), allocOk)), Linked(v, s.disk, cluster))
  }

  // fat32_set_next_cluster; writes: how many copies are written before a write
  // fails, all of them if none does.
  function Set(v: Volume, s: State, readOnly: bool, cluster: nat, next: nat, readOk: bool, writes: nat, allocOk: bool): (r: (State, Code))
    requires |s.cache.table| == CACHE_CLUSTERS
    requires v.sectorSize > 0 && (ClusterValid(v, cluster) ==> FatSector(v, 0, cluster) < |s.disk| && OffsetIn(v, cluster) + 4 <= |s.disk[FatSector(v, 0, cluster)]|)
    ensures |r.0.cache.table| == CACHE_CLUSTERS
  {
    if readOnly then (s, ReadOnly)
    else if !ClusterValid(v, cluster) then (s, InvalidArg)
    else if !readOk then (s, ReadFailed)
    else if writes < v.numFats then (s.(disk := Written(v, s.disk, cluster, Edited(v, s.disk, cluster, next), writes)), WriteFailed)
    else (State(Written(v, s.disk, cluster, Edited(v, s.disk, cluster, next), v.numFats), CacheSet(s.cache, cluster, next, allocOk)), Success)
  }

  lemma CachedIs(v: Volume, s: State, d: nat)
    requires Inv(v, s)
    ensures |s.cache.table| == CACHE_CLUSTERS && (d in s.cache.lru <==> Lookup(s.cache, d).Some?)
  {
  }

  // The cache says what copy 0 says.
  ghost predicate Agrees(v: Volume, s: State)
    requires |s.cache.table| == CACHE_CLUSTERS
  {
    forall d: nat :: Lookup(s.cache, d).Some? ==> ClusterValid(v, d) && Lookup(s.cache, d).value == Linked(v, s.disk, d)
  }

  ghost predicate Inv(v: Volume, s: State) {
    Formed(v, s.disk) && CopiesEqual(v, s.disk) && CacheOk(s.cache) && Agrees(v, s)
  }

  // A get returns the 28 bits of the entry whether it hits or misses, and end of
  // chain only for a bad cluster or a failed read; it changes no link.
  lemma GetReads(v: Volume, s: State, cluster: nat, readOk: bool, allocOk: bool)
    requires Inv(v, s)
    ensures var (t, next) := Get(v, s, cluster, readOk, allocOk);
      Inv(v, t) && t.disk == s.disk &&
      next == (if ClusterValid(v, cluster) && (Lookup(s.cache, cluster).Some? || readOk) then Linked(v, s.disk, cluster) else CLUSTER_EOF) &&
      forall d: nat :: d != cluster ==> Lookup(t.cache, d) == Lookup(s.cache, d)
  {
    SetLookup(s.cache, cluster, Linked(v, s.disk, cluster), allocOk);
    WithoutDistinct(s.cache.lru, cluster);
    var t := Get(v, s, cluster, readOk, allocOk).0;
    assert Lookup(s.cache, cluster).Some? ==> forall d: nat :: Lookup(t.cache, d) == Lookup(s.cache, d);
  }

  // A set that succeeds changes that entry in every copy and no other.
  lemma SetWrites(v: Volume, s: State, readOnly: bool, cluster: nat, next: nat, readOk: bool, writes: nat, allocOk: bool, i: nat, d: nat)
    requires Inv(v, s) && FatReady(v, s, cluster) && ClusterValid(v, d) && i < v.numFats
    ensures var (t, code) := Set(v, s, readOnly, cluster, next, readOk, writes, allocOk);
      Raw(v, t.disk, i, d) == if d == cluster && (code == Success || (code == WriteFailed && i < writes)) then next % LINK else Raw(v, s.disk, i, d)
  {
    if ClusterValid(v, cluster) {
      WriteOne(v, s.disk, cluster, next, if writes < v.numFats then writes else v.numFats, i, d);
    }
  }

  ghost predicate FatReady(v: Volume, s: State, cluster: nat) {
    v.sectorSize > 0 && (ClusterValid(v, cluster) ==> FatSector(v, 0, cluster) < |s.disk| && OffsetIn(v, cluster) + 4 <= |s.disk[FatSector(v, 0, cluster)]|)
  }

  lemma ReadyAlways(v: Volume, s: State, cluster: nat)
    requires Formed(v, s.disk)
    ensures FatReady(v, s, cluster)
  {
    if ClusterValid(v, cluster) { SectorFits(v, s.disk, 0, cluster); }
  }

  // How many copies a set writes, from what its caller can see.
  function Copies(v: Volume, readOnly: bool, cluster: nat, readOk: bool, writes: nat): (n: nat)
    ensures n <= v.numFats
  {
    if readOnly || !ClusterValid(v, cluster) || !readOk then 0 else if writes < v.numFats then writes else v.numFats
  }

  // A get by the numbers: the clusters from 2 on up to two past the count have an
  // entry, of which the low 28 bits are the link; any other reads as end of chain.
  lemma GetMeans(v: Volume, s: State, c: nat, readOk: bool, allocOk: bool)
    requires Inv(v, s)
    ensures |s.cache.table| == CACHE_CLUSTERS
    ensures var (t, next) := Get(v, s, c, readOk, allocOk);
      if 2 <= c < v.totalClusters + 2 then readOk ==> next == Raw(v, s.disk, 0, c) % 0x1000_0000
      else next == 0x0FFF_FFFF && t == s
  {
    GetReads(v, s, c, readOk, allocOk);
    Sizes(v, s);
    hide Inv, Raw;
  }

  // A set by the numbers.
  lemma SetMeans(v: Volume, s: State, readOnly: bool, c: nat, next: nat, readOk: bool, writes: nat, allocOk: bool)
    requires Inv(v, s)
    ensures FatReady(v, s, c) && |s.cache.table| == CACHE_CLUSTERS
    ensures var (t, code) := Set(v, s, readOnly, c, next, readOk, writes, allocOk);
      if readOnly then t == s && code == ReadOnly
      else if !(2 <= c < v.totalClusters + 2) then t == s && code == InvalidArg
      else if !readOk then t == s && code == ReadFailed
      else if writes < v.numFats then code == WriteFailed && t.cache == s.cache
      else code == Success && forall i: nat :: i < v.numFats ==> Raw(v, t.disk, i, c) == next % 0x1000_0000
  {
    Sizes(v, s);
    InvFormed(v, s);
    ReadyAlways(v, s, c);
    hide Raw, Inv, FatReady, Written, Edited, CacheSet;
    if 2 <= c < v.totalClusters + 2 {
      forall i: nat | i < v.numFats ensures Raw(v, Set(v, s, readOnly, c, next, readOk, writes, allocOk).0.disk, i, c) ==
          if !readOnly && readOk && i < writes then next % LINK else Raw(v, s.disk, i, c) {
        SetWrites(v, s, readOnly, c, next, readOk, writes, allocOk, i, c);
      }
    }
  }

  // Where the entry of a cluster stands in copy i, least byte first.
  lemma RawBytes(v: Volume, disk: Disk, i: nat, c: nat, k: nat, off: nat)
    requires Formed(v, disk) && i < v.numFats && c < v.totalClusters + 2
    requires k == v.fatStart + i * v.sectorsPerFat + c * 4 / v.sectorSize && off == c * 4 % v.sectorSize
    ensures k < |disk| && off + 4 <= |disk[k]| && IsWord(disk[k], off, Raw(v, disk, i, c))
  {
    SectorFits(v, disk, i, c);
    Placing(v, i, c, k, off);
    hide Formed, FatSector, OffsetIn;
    LittleEndian(disk[k], off);
  }

  ghost predicate IsWord(b: Sector, off: nat, w: nat)
    requires off + 4 <= |b|
  {
    var b0: nat, b1: nat, b2: nat, b3: nat := b[off], b[off + 1], b[off + 2], b[off + 3];
    w == b0 + 0x100 * b1 + 0x1_0000 * b2 + 0x100_0000 * b3
  }

  lemma Placing(v: Volume, i: nat, c: nat, k: nat, off: nat)
    requires v.sectorSize > 0 && k == v.fatStart + i * v.sectorsPerFat + c * 4 / v.sectorSize && off == c * 4 % v.sectorSize
    ensures FatSector(v, i, c) == k && OffsetIn(v, c) == off
  {
  }

  lemma LittleEndian(b: Sector, off: nat)
    requires off + 4 <= |b|
    ensures IsWord(b, off, Get32(b, off))
  {
  }

  // Exactly when a set keeps the copies equal and the cache right. It goes
  // wrong in three ways: a link of more than 28 bits is cached unmasked; a write
  // that fails between copies leaves them apart; and it leaves the old link in
  // the cache.
  lemma SetKeeps(v: Volume, s: State, readOnly: bool, cluster: nat, next: nat, readOk: bool, writes: nat, allocOk: bool)
    requires Inv(v, s) && FatReady(v, s, cluster)
    ensures var t, n := Set(v, s, readOnly, cluster, next, readOk, writes, allocOk).0, Copies(v, readOnly, cluster, readOk, writes);
      Formed(v, t.disk) && CacheOk(t.cache) &&
      (CopiesEqual(v, t.disk) <==> (0 < n < v.numFats ==> Linked28(v, s, cluster, next))) &&
      (Agrees(v, t) <==>
        (n == v.numFats && (Lookup(s.cache, cluster).Some? || allocOk) ==> next < LINK) &&
        (0 < n < v.numFats && Lookup(s.cache, cluster).Some? ==> Linked(v, s.disk, cluster) == next % LINK))
  {
    hide CopiesEqual, Formed, CacheOk, Lookup, Linked, Written, Edited, CacheSet, FatSector, OffsetIn, Linked28;
    Sizes(v, s);
    var (t, code) := Set(v, s, readOnly, cluster, next, readOk, writes, allocOk);
    SetLookup(s.cache, cluster, next, allocOk);
    if code == Success || code == WriteFailed {
      DiskKeeps(v, s, cluster, next, if code == Success then v.numFats else writes);
      AgreesAt(v, s, t, cluster);
    }
  }

  // The FAT32 File System Specification 1.03 has the four high bits of an entry
  // kept. In copy i they are exactly when that copy is not written or they were
  // zero already.
  lemma ReservedBits(v: Volume, s: State, readOnly: bool, cluster: nat, next: nat, readOk: bool, writes: nat, allocOk: bool, i: nat)
    requires Inv(v, s) && FatReady(v, s, cluster) && ClusterValid(v, cluster) && i < v.numFats
    ensures var t := Set(v, s, readOnly, cluster, next, readOk, writes, allocOk).0;
      Raw(v, t.disk, i, cluster) / LINK == Raw(v, s.disk, i, cluster) / LINK <==>
        (i < Copies(v, readOnly, cluster, readOk, writes) ==> Raw(v, s.disk, i, cluster) < LINK)
  {
    hide Raw, Inv, FatReady, Written, Edited, CacheSet;
    SetWrites(v, s, readOnly, cluster, next, readOk, writes, allocOk, i, cluster);
  }

  const SmallVolume := Volume(512, 32, 1, 2, 100)

  // Two copies of one sector; cluster 2 leads to 3 and has a reserved bit set.
  function SmallDisk(): (d: Disk)
    ensures |d| == 34 && forall s :: 0 <= s < 34 ==> d[s] == [0, 0, 0, 0, 0, 0, 0, 0, 3, 0, 0, 0x10] + seq(500, _ => 0)
  {
    seq(34, _ => [0, 0, 0, 0, 0, 0, 0, 0, 3, 0, 0, 0x10] + seq(500, _ => 0))
  }

  function SmallState(): State {
    State(SmallDisk(), Cache(seq(CACHE_CLUSTERS, _ => []), []))
  }

  lemma SmallInv()
    ensures Inv(SmallVolume, SmallState()) && Raw(SmallVolume, SmallDisk(), 0, 2) == 0x1000_0003 && |SmallState().cache.table| == CACHE_CLUSTERS
  {
    hide Raw, Formed, CopiesEqual, CacheOk, SmallDisk, Lookup;
    SmallFormed(SmallDisk());
    SmallRaw(SmallDisk());
    EmptyCache(SmallState().cache);
  }

  lemma SmallFormed(d: Disk)
    requires |d| == 34 && (forall s :: 0 <= s < 34 ==> |d[s]| == 512) && d[32] == d[33]
    ensures Formed(SmallVolume, d) && CopiesEqual(SmallVolume, d)
  {
  }

  lemma SmallRaw(d: Disk)
    requires |d| == 34 && |d[32]| == 512 && d[32][8] == 3 && d[32][9] == 0 && d[32][10] == 0 && d[32][11] == 0x10
    ensures Raw(SmallVolume, d, 0, 2) == 0x1000_0003
  {
    assert FatSector(SmallVolume, 0, 2) == 32 && OffsetIn(SmallVolume, 2) == 8;
  }

  lemma EmptyCache(c: Cache)
    requires |c.table| == CACHE_CLUSTERS && c.lru == [] && forall h: nat :: h < CACHE_CLUSTERS ==> c.table[h] == []
    ensures CacheOk(c) && forall k: nat :: Lookup(c, k) == None
  {
    assert forall k: nat :: Lookup(c, k) == None;
  }

  // Pointing cluster 2 at 5 clears its reserved bit.
  lemma ReservedBitLost()
    ensures FatReady(SmallVolume, SmallState(), 2) && |SmallState().cache.table| == CACHE_CLUSTERS
    ensures var t := Set(SmallVolume, SmallState(), false, 2, 5, true, 2, true).0;
      Raw(SmallVolume, SmallDisk(), 0, 2) / LINK == 1 && Raw(SmallVolume, t.disk, 0, 2) / LINK == 0
  {
    hide SmallDisk, SmallState, Raw, Inv, FatReady, Written, Edited, CacheSet, Lookup;
    SmallInv();
    InvFormed(SmallVolume, SmallState());
    ReadyAlways(SmallVolume, SmallState(), 2);
    SmallStateDisk();
    SetWrites(SmallVolume, SmallState(), false, 2, 5, true, 2, true, 0, 2);
  }

  // The same volume with cluster 2 in the cache.
  function CachedState(): State {
    State(SmallDisk(), CacheSet(SmallState().cache, 2, 3, true))
  }

  lemma CachedInv()
    ensures Inv(SmallVolume, CachedState()) && |CachedState().cache.table| == CACHE_CLUSTERS
    ensures Lookup(CachedState().cache, 2).Some? && Linked(SmallVolume, CachedState().disk, 2) == 3 && CachedState().disk == SmallDisk()
  {
    hide SmallDisk, Lookup, Raw, CacheSet, Formed, CopiesEqual, CacheOk;
    SmallInv();
    EmptyCache(SmallState().cache);
    SmallStateDisk();
    SetLookup(SmallState().cache, 2, 3, true);
  }

  // A link of 29 bits is cached as it is; a failure after the first copy leaves
  // the copies apart, and the old link in the cache.
  lemma SetFails()
    ensures FatReady(SmallVolume, SmallState(), 2) && |SmallState().cache.table| == CACHE_CLUSTERS
    ensures !Agrees(SmallVolume, Set(SmallVolume, SmallState(), false, 2, LINK, true, 2, true).0)
    ensures !CopiesEqual(SmallVolume, Set(SmallVolume, SmallState(), false, 2, 5, true, 1, true).0.disk)
    ensures FatReady(SmallVolume, CachedState(), 2) && |CachedState().cache.table| == CACHE_CLUSTERS
    ensures !Agrees(SmallVolume, Set(SmallVolume, CachedState(), false, 2, 5, true, 1, true).0)
  {
    hide SmallDisk, SmallState, CachedState, Linked, Raw, Inv, FatReady, Written, Edited, CacheSet, Lookup, Agrees, CopiesEqual;
    SmallInv();
    InvFormed(SmallVolume, SmallState());
    SmallStateDisk();
    ReadyAlways(SmallVolume, SmallState(), 2);
    SetKeeps(SmallVolume, SmallState(), false, 2, LINK, true, 2, true);
    SetKeeps(SmallVolume, SmallState(), false, 2, 5, true, 1, true);
    CachedInv();
    InvFormed(SmallVolume, CachedState());
    ReadyAlways(SmallVolume, CachedState(), 2);
    SetKeeps(SmallVolume, CachedState(), false, 2, 5, true, 1, true);
  }

  lemma InvFormed(v: Volume, s: State)
    requires Inv(v, s)
    ensures Formed(v, s.disk)
  {
  }

  lemma SmallStateDisk()
    ensures SmallState().disk == SmallDisk()
  {
  }

  // Only the cluster that was set can disagree.
  lemma AgreesAt(v: Volume, s: State, t: State, cluster: nat)
    requires |s.cache.table| == CACHE_CLUSTERS && |t.cache.table| == CACHE_CLUSTERS && Agrees(v, s) && ClusterValid(v, cluster)
    requires forall d: nat :: d != cluster ==> Lookup(t.cache, d) == Lookup(s.cache, d)
    requires forall d: nat :: d != cluster && ClusterValid(v, d) ==> Linked(v, t.disk, d) == Linked(v, s.disk, d)
    ensures Agrees(v, t) <==> (Lookup(t.cache, cluster).Some? ==> Lookup(t.cache, cluster).value == Linked(v, t.disk, cluster))
  {
    hide Lookup, Linked;
  }

  lemma DiskKeeps(v: Volume, s: State, cluster: nat, next: nat, n: nat)
    requires Inv(v, s) && ClusterValid(v, cluster) && n <= v.numFats && FatReady(v, s, cluster)
    ensures var disk := Written(v, s.disk, cluster, Edited(v, s.disk, cluster, next), n);
      Formed(v, disk) && (CopiesEqual(v, disk) <==> n == 0 || n == v.numFats || Linked28(v, s, cluster, next)) &&
      forall d: nat :: ClusterValid(v, d) ==> Linked(v, disk, d) == if d == cluster && n > 0 then next % LINK else Linked(v, s.disk, d)
  {
    hide CopiesEqual, Formed, Written, Raw, Edited, Linked, Inv, FatReady, FatSector, OffsetIn;
    InvCopies(v, s, cluster);
    var buf := Edited(v, s.disk, cluster, next);
    EditedSize(v, s.disk, cluster, next);
    WriteFormed(v, s.disk, cluster, buf, n);
    WriteCopies(v, s.disk, cluster, next, n);
    forall d: nat | ClusterValid(v, d) ensures Linked(v, Written(v, s.disk, cluster, buf, n), d) == if d == cluster && n > 0 then next % LINK else Linked(v, s.disk, d) {
      LinkedOne(v, s.disk, cluster, next, n, d);
    }
  }

  lemma InvCopies(v: Volume, s: State, cluster: nat)
    requires Inv(v, s) && ClusterValid(v, cluster) && FatReady(v, s, cluster)
    ensures Formed(v, s.disk) && CopiesEqual(v, s.disk) && 0 < v.numFats
    ensures v.sectorSize > 0 && FatSector(v, 0, cluster) < |s.disk| && OffsetIn(v, cluster) + 4 <= |s.disk[FatSector(v, 0, cluster)]|
  {
  }

  lemma LinkedOne(v: Volume, disk: Disk, cluster: nat, next: nat, n: nat, d: nat)
    requires Formed(v, disk) && CopiesEqual(v, disk) && ClusterValid(v, cluster) && ClusterValid(v, d) && n <= v.numFats && 0 < v.numFats
    requires FatSector(v, 0, cluster) < |disk| && OffsetIn(v, cluster) + 4 <= |disk[FatSector(v, 0, cluster)]|
    ensures Linked(v, Written(v, disk, cluster, Edited(v, disk, cluster, next), n), d) == if d == cluster && n > 0 then next % LINK else Linked(v, disk, d)
  {
    hide Formed, CopiesEqual, Raw, Written, Edited, FatSector, OffsetIn;
    WriteOne(v, disk, cluster, next, n, 0, d);
  }

  lemma EditedSize(v: Volume, disk: Disk, cluster: nat, next: nat)
    requires Formed(v, disk) && FatSector(v, 0, cluster) < |disk| && OffsetIn(v, cluster) + 4 <= |disk[FatSector(v, 0, cluster)]|
    ensures |Edited(v, disk, cluster, next)| == v.sectorSize
  {
  }

  lemma Sizes(v: Volume, s: State)
    requires Inv(v, s)
    ensures 0 < v.numFats && |s.cache.table| == CACHE_CLUSTERS
  {
  }

  // The raw entry is already what the set writes.
  ghost predicate Linked28(v: Volume, s: State, cluster: nat, next: nat) {
    Raw(v, s.disk, 0, cluster) == next % LINK
  }

  // ---- whole runs

  datatype Op =
    | GetOp(cluster: nat, readOk: bool, allocOk: bool)
    | SetOp(readOnly: bool, cluster: nat, next: nat, readOk: bool, writes: nat, allocOk: bool)

  // Links of 28 bits, and no write that fails between two copies.
  ghost predicate Calm(v: Volume, op: Op) {
    op.SetOp? ==> op.next < LINK && (op.writes == 0 || op.writes >= v.numFats)
  }

  ghost function Apply(v: Volume, s: State, op: Op): (t: State)
    requires Inv(v, s) && Calm(v, op)
    ensures Inv(v, t)
  {
    match op
    case GetOp(cluster, readOk, allocOk) =>
      GetReads(v, s, cluster, readOk, allocOk);
      Get(v, s, cluster, readOk, allocOk).0
    case SetOp(readOnly, cluster, next, readOk, writes, allocOk) =>
      ReadyAlways(v, s, cluster);
      SetKeeps(v, s, readOnly, cluster, next, readOk, writes, allocOk);
      Set(v, s, readOnly, cluster, next, readOk, writes, allocOk).0
  }

  ghost function Run(v: Volume, s: State, ops: seq<Op>): (t: State)
    requires Inv(v, s) && forall i :: 0 <= i < |ops| ==> Calm(v, ops[i])
    ensures Inv(v, t)
    decreases |ops|
  {
    if ops == [] then s else Run(v, Apply(v, s, ops[0]), ops[1..])
  }

  // What the last successful set of a cluster in a run wrote, if any did.
  ghost function LastSet(v: Volume, ops: seq<Op>, cluster: nat): Option<nat> {
    if ops == [] then None else
    var rest, op := LastSet(v, ops[1..], cluster), ops[0];
    if rest.Some? then rest
    else if op.SetOp? && op.cluster == cluster && !op.readOnly && op.readOk && op.writes >= v.numFats then Some(op.next)
    else None
  }

  // After any run, a get returns what was last set, or what was there at first.
  lemma {:induction false} RunReadsLast(v: Volume, s: State, ops: seq<Op>, cluster: nat, allocOk: bool)
    requires Inv(v, s) && (forall i :: 0 <= i < |ops| ==> Calm(v, ops[i])) && ClusterValid(v, cluster)
    ensures |Run(v, s, ops).cache.table| == CACHE_CLUSTERS
    ensures Get(v, Run(v, s, ops), cluster, true, allocOk).1 ==
      match LastSet(v, ops, cluster) case Some(next) => next case None => Linked(v, s.disk, cluster)
    decreases |ops|
  {
    if ops == [] {
      GetReads(v, s, cluster, true, allocOk);
    } else {
      RunReadsLast(v, Apply(v, s, ops[0]), ops[1..], cluster, allocOk);
      AppliedLink(v, s, ops[0], cluster);
      hide Linked, Get, Apply;
    }
  }

  lemma AppliedLink(v: Volume, s: State, op: Op, cluster: nat)
    requires Inv(v, s) && Calm(v, op) && ClusterValid(v, cluster)
    ensures Linked(v, Apply(v, s, op).disk, cluster) == match LastSet(v, [op], cluster) case Some(next) => next case None => Linked(v, s.disk, cluster)
  {
    assert [op][1..] == [];
    match op
    case GetOp(c, readOk, allocOk) => GetReads(v, s, c, readOk, allocOk);
    case SetOp(readOnly, c, next, readOk, writes, allocOk) => SetLink(v, s, readOnly, c, next, readOk, writes, allocOk, cluster);
  }

  lemma SetLink(v: Volume, s: State, readOnly: bool, c: nat, next: nat, readOk: bool, writes: nat, allocOk: bool, cluster: nat)
    requires Inv(v, s) && ClusterValid(v, cluster) && next < LINK && (writes == 0 || writes >= v.numFats)
    ensures FatReady(v, s, c) && |s.cache.table| == CACHE_CLUSTERS
    ensures Linked(v, Set(v, s, readOnly, c, next, readOk, writes, allocOk).0.disk, cluster) ==
      if c == cluster && !readOnly && readOk && writes >= v.numFats then next else Linked(v, s.disk, cluster)
  {
    hide Raw, Written, Edited, CacheSet, FatReady;
    ReadyAlways(v, s, c);
    Sizes(v, s);
    SetWrites(v, s, readOnly, c, next, readOk, writes, allocOk, 0, cluster);
  }

  // ---- the mount

  class Mount {
    const volume: Volume
    const readOnly: bool
    var disk: Disk
    var table: seq<seq<Entry>>
    var lru: seq<nat>
    var hits: nat
    var misses: nat

    ghost function Abs(): State
      reads this
    {
      State(disk, Cache(table, lru))
    }

    // fat32_init_cluster_cache
    constructor (volume: Volume, readOnly: bool, disk: Disk)
      requires Formed(volume, disk) && CopiesEqual(volume, disk)
      ensures this.volume == volume && this.readOnly == readOnly && this.disk == disk
      ensures Inv(volume, Abs()) && lru == []
    {
      this.volume, this.readOnly, this.disk := volume, readOnly, disk;
      table := seq(CACHE_CLUSTERS, _ => []);
      lru, hits, misses := [], 0, 0;
    }

    // The chain walk shared by the lookups.
    method FindEntry(cluster: nat) returns (r: Option<nat>)
      requires |table| == CACHE_CLUSTERS
      ensures r == FindIn(table[cluster % CACHE_CLUSTERS], cluster, 0)
    {
      var h, j := cluster % CACHE_CLUSTERS, 0;
      while j < |table[h]|
        invariant 0 <= j <= |table[h]| && FindIn(table[h], cluster, 0) == FindIn(table[h], cluster, j)
      {
        if table[h][j].cluster == cluster {
          return Some(j);
        }
        j := j + 1;
      }
      return None;
    }

    // fat32_cache_set_cluster
    method SetCluster(cluster: nat, next: nat, allocOk: bool)
      requires |table| == CACHE_CLUSTERS
      modifies this`table, this`lru
      ensures Cache(table, lru) == CacheSet(old(Abs()).cache, cluster, next, allocOk)
    {
      var h := cluster % CACHE_CLUSTERS;
      var j := FindEntry(cluster);
      if j.Some? {
        table := table[h := table[h][j.value := table[h][j.value].(next := next)]];
        lru := Touched(lru, cluster);
        return;
      }
      if !allocOk {
        return;
      }
      table := table[h := [Entry(cluster, next)] + table[h]];
      lru := [cluster] + lru;
    }

    // fat32_get_next_cluster
    method GetNext(cluster: nat, readOk: bool, allocOk: bool) returns (next: nat)
      requires Inv(volume, Abs())
      modifies this`table, this`lru, this`hits, this`misses
      ensures Inv(volume, Abs())
      ensures (Abs(), next) == Get(volume, old(Abs()), cluster, readOk, allocOk)
      ensures next == if ClusterValid(volume, cluster) && (Lookup(old(Abs()).cache, cluster).Some? || readOk) then Linked(volume, disk, cluster) else CLUSTER_EOF
      ensures readOk && 2 <= cluster < volume.totalClusters + 2 ==> next == Raw(volume, disk, 0, cluster) % 0x1000_0000
      ensures !(2 <= cluster < volume.totalClusters + 2) ==> next == 0x0FFF_FFFF && Abs() == old(Abs()) && hits == old(hits) && misses == old(misses)
      ensures 2 <= cluster < volume.totalClusters + 2 ==> if cluster in old(lru) then hits == old(hits) + 1 && misses == old(misses) else hits == old(hits) && misses == old(misses) + 1
    {
      GetReads(volume, Abs(), cluster, readOk, allocOk);
      GetMeans(volume, Abs(), cluster, readOk, allocOk);
      CachedIs(volume, Abs(), cluster);
      Sizes(volume, Abs());
      hide Inv, Linked, Raw, Get32, FatSector, OffsetIn;
      if !ClusterValid(volume, cluster) {
        return CLUSTER_EOF;
      }
      var j := FindEntry(cluster);
      if j.Some? {
        next := table[cluster % CACHE_CLUSTERS][j.value].next;
        lru := Touched(lru, cluster);
        hits := hits + 1;
        return;
      }
      misses := misses + 1;
      if !readOk {
        return CLUSTER_EOF;
      }
      next := LinkOnDisk(cluster);
      SetCluster(cluster, next, allocOk);
    }

    // The entry as it is picked out of the sector read from copy 0.
    method LinkOnDisk(cluster: nat) returns (next: nat)
      requires Inv(volume, Abs()) && ClusterValid(volume, cluster)
      ensures next == Linked(volume, disk, cluster)
    {
      SectorFits(volume, disk, 0, cluster);
      var buf := disk[volume.fatStart + cluster * 4 / volume.sectorSize];
      next := Get32(buf, cluster * 4 % volume.sectorSize) % LINK;
    }

    // The loop of fat32_set_next_cluster over the copies.
    method WriteAll(cluster: nat, buf: Sector, writeOk: seq<bool>) returns (ok: bool)
      requires volume.sectorSize > 0 && |writeOk| == volume.numFats
      modifies this`disk
      ensures disk == Written(volume, old(disk), cluster, buf, FirstFailure(writeOk)) && (ok <==> FirstFailure(writeOk) == volume.numFats)
    {
      var i := 0;
      while i < volume.numFats
        invariant 0 <= i <= FirstFailure(writeOk) && disk == Written(volume, old(disk), cluster, buf, i)
      {
        if !writeOk[i] {
          return false;
        }
        WriteCopy(i, cluster, buf);
        i := i + 1;
      }
      ok := true;
    }

    // fat32_set_next_cluster; writeOk: whether the write of each copy succeeds.
    method SetNext(cluster: nat, next: nat, readOk: bool, writeOk: seq<bool>, allocOk: bool) returns (code: Code)
      requires Inv(volume, Abs()) && |writeOk| == volume.numFats
      modifies this`disk, this`table, this`lru
      ensures FatReady(volume, old(Abs()), cluster) && |old(table)| == CACHE_CLUSTERS
      ensures (Abs(), code) == Set(volume, old(Abs()), readOnly, cluster, next, readOk, FirstFailure(writeOk), allocOk)
      ensures Calm(volume, SetOp(readOnly, cluster, next, readOk, FirstFailure(writeOk), allocOk)) ==> Inv(volume, Abs())
      ensures readOnly ==> code == ReadOnly && Abs() == old(Abs())
      ensures !readOnly && !(2 <= cluster < volume.totalClusters + 2) ==> code == InvalidArg && Abs() == old(Abs())
      ensures !readOnly && 2 <= cluster < volume.totalClusters + 2 && readOk && (forall i :: 0 <= i < |writeOk| ==> writeOk[i]) ==>
        code == Success && forall i: nat :: i < volume.numFats ==> Raw(volume, disk, i, cluster) == next % 0x1000_0000
    {
      SetMeans(volume, Abs(), readOnly, cluster, next, readOk, FirstFailure(writeOk), allocOk);
      AllSucceed(writeOk);
      ReadyAlways(volume, Abs(), cluster);
      Sizes(volume, Abs());
      SetKeeps(volume, Abs(), readOnly, cluster, next, readOk, FirstFailure(writeOk), allocOk);
      hide Formed, CopiesEqual, CacheOk, CacheSet, Put32, Written, Linked, Raw, Agrees, FirstFailure, Linked28;
      if readOnly {
        return ReadOnly;
      }
      if !ClusterValid(volume, cluster) {
        return InvalidArg;
      }
      if !readOk {
        return ReadFailed;
      }
      var offset := cluster * 4 % volume.sectorSize;
      var buf := Put32(disk[volume.fatStart + cluster * 4 / volume.sectorSize], offset, next % LINK);
      var ok := WriteAll(cluster, buf, writeOk);
      if !ok {
        return WriteFailed;
      }
      SetCluster(cluster, next, allocOk);
      code := Success;
    }

    // fat32_write_sector to copy i.
    method WriteCopy(i: nat, cluster: nat, buf: Sector)
      requires volume.sectorSize > 0
      modifies this`disk
      ensures disk == if FatSector(volume, i, cluster) < |old(disk)| then old(disk)[FatSector(volume, i, cluster) := buf] else old(disk)
    {
      var sector := volume.fatStart + i * volume.sectorsPerFat + cluster * 4 / volume.sectorSize;
      if sector < |disk| {
        disk := disk[sector := buf];
      }
    }
  }

  lemma AllSucceed(ok: seq<bool>)
    ensures (forall i :: 0 <= i < |ok| ==> ok[i]) ==> FirstFailure(ok) == |ok|
  {
  }

  // How many writes succeed before the first one that fails.
  ghost function FirstFailure(ok: seq<bool>): (n: nat)
    ensures n <= |ok| && (forall i :: 0 <= i < n ==> ok[i]) && (n < |ok| ==> !ok[n])
  {
    if ok == [] || !ok[0] then 0 else 1 + FirstFailure(ok[1..])
  }
}
