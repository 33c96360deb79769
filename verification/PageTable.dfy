// vmm_production_impl.c: four-level page tables in physical memory. The tables
// refine one partial map from 36-bit page numbers to entries per address space.
module PageTable {
  import opened Wrappers
  import opened Dyadic

  const WORD: nat := 0x1_0000_0000_0000_0000
  const PAGE: nat := 4096

  type Word = n: nat | n < 0x1_0000_0000_0000_0000

  // VMM_PTE_PRESENT | VMM_PTE_WRITE | VMM_PTE_USER
  const TABLE_FLAGS: Word := 7

  // An entry never written since the table was cleared is absent and reads 0.
  type Table = map<nat, Word>
  type Memory = map<Word, Table>

  function Index(a: Word, level: nat): nat
    requires 1 <= level <= 4
  {
    match level
    case 4 => a / 0x80_0000_0000 % 512
    case 3 => a / 0x4000_0000 % 512
    case 2 => a / 0x20_0000 % 512
    case _ => a / 0x1000 % 512
  }

  // The page number the four indices spell.
  function Page(a: Word): nat {
    a / PAGE % 0x10_0000_0000
  }

  lemma PageIsIndices(a: Word)
    ensures Page(a) == ((Index(a, 4) * 512 + Index(a, 3)) * 512 + Index(a, 2)) * 512 + Index(a, 1)
  {
    var p := a / PAGE;
    assert a / 0x20_0000 == p / 512;
    assert a / 0x4000_0000 == p / 512 / 512;
    assert a / 0x80_0000_0000 == p / 512 / 512 / 512;
  }

  // One page number, one path.
  lemma SamePage(a: Word, b: Word)
    ensures Page(a) == Page(b) <==>
      Index(a, 4) == Index(b, 4) && Index(a, 3) == Index(b, 3) && Index(a, 2) == Index(b, 2) && Index(a, 1) == Index(b, 1)
  {
    PageIsIndices(a);
    PageIsIndices(b);
    Digit(Index(a, 4) * 512 + Index(a, 3), Index(b, 4) * 512 + Index(b, 3), Index(a, 2), Index(b, 2));
    hide Index, Page;
  }

  // Digits below 512 are determined by the number they spell.
  lemma Digit(x: nat, y: nat, c: nat, d: nat)
    requires c < 512 && d < 512
    ensures x * 512 + c == y * 512 + d <==> x == y && c == d
  {
  }

  function Base(e: Word): Word {
    e - e % PAGE
  }

  function Ent(m: Memory, f: Word, i: nat): Word {
    if f in m && i in m[f] then m[f][i] else 0
  }

  predicate Present(e: Word) {
    e % 2 == 1
  }

  // The table of the level below that address a leads to, if any.
  function Down(m: Memory, f: Option<Word>, a: Word, level: nat): Option<Word>
    requires 1 <= level <= 4
  {
    if f.Some? && Present(Ent(m, f.value, Index(a, level))) then Some(Base(Ent(m, f.value, Index(a, level)))) else None
  }

  // The last-level table of address a under root.
  function Leaf(m: Memory, root: Word, a: Word): Option<Word> {
    Down(m, Down(m, Down(m, Some(root), a, 4), a, 3), a, 2)
  }

  // The entry of a, or 0 when a table on the way is missing.
  function Entry(m: Memory, root: Word, a: Word): Word {
    match Leaf(m, root, a)
    case None => 0
    case Some(t) => Ent(m, t, Index(a, 1))
  }

  function Translate(m: Memory, root: Word, a: Word): Word {
    var e := Entry(m, root, a);
    if Present(e) then Inside(e, a) else 0
  }

  // The frame of e with the offset of a in its page.
  function Inside(e: Word, a: Word): (r: Word)
    ensures r == e / PAGE * PAGE + a % PAGE == e - e % PAGE + a % PAGE
  {
    var k := e / PAGE;
    assert k < WORD / PAGE;
    k * PAGE + a % PAGE
  }

  // The walk of the hardware, number by number: nine bits of the address select
  // the entry at each level, bit 0 says whether it is there, and its upper bits
  // are the next table.
  lemma EntryMeans(m: Memory, root: Word, a: Word)
    ensures var e4 := Ent(m, root, a / 0x80_0000_0000 % 512);
      var e3 := Ent(m, e4 / 4096 * 4096, a / 0x4000_0000 % 512);
      var e2 := Ent(m, e3 / 4096 * 4096, a / 0x20_0000 % 512);
      Entry(m, root, a) ==
        if e4 % 2 == 0 || e3 % 2 == 0 || e2 % 2 == 0 then 0 else Ent(m, e2 / 4096 * 4096, a / 4096 % 512)
  {
  }

  // An absent entry translates to 0, any other to its frame and the offset.
  lemma TranslateMeans(m: Memory, root: Word, a: Word)
    ensures var e := Entry(m, root, a); Translate(m, root, a) == if e % 2 == 0 then 0 else e / 4096 * 4096 + a % 4096
  {
    hide Entry;
  }

  // ---- the shape of the tables

  // Where a table hangs. A second-level table knows only its slot, since
  // copied roots share it; every lower one has a single parent entry.
  datatype Place = Top | Upper(slot: nat) | Middle(parent: Word, index: nat) | Lowest(parent: Word, index: nat)

  ghost function Level(p: Place): nat {
    match p case Top => 4 case Upper(_) => 3 case Middle(_, _) => 2 case Lowest(_, _) => 1
  }

  ghost function Hang(p: Place, f: Word, i: nat): Place {
    match p case Top => Upper(i) case Upper(_) => Middle(f, i) case _ => Lowest(f, i)
  }

  ghost predicate LinkOk(m: Memory, g: map<Word, Place>, f: Word, i: nat, e: Word)
    requires f in g
  {
    e == 0 || (e % 4096 == 7 && e == Base(e) + TABLE_FLAGS && Base(e) in g && g[Base(e)] == Hang(g[f], f, i))
  }

  ghost predicate Shaped(m: Memory, g: map<Word, Place>) {
    g.Keys == m.Keys &&
    (forall f <- g :: f % PAGE == 0) &&
    forall f <- g, i: nat :: Level(g[f]) > 1 ==> LinkOk(m, g, f, i, Ent(m, f, i))
  }

  ghost predicate IsRoot(g: map<Word, Place>, r: Word) {
    r in g && g[r].Top?
  }

  // A present entry leads to a table that knows the entry.
  lemma Step(m: Memory, g: map<Word, Place>, f: Word, a: Word, level: nat)
    requires Shaped(m, g) && f in g && 2 <= level <= 4 && Level(g[f]) == level
    ensures var n := Down(m, Some(f), a, level); n.Some? ==>
      n.value in g && g[n.value] == Hang(g[f], f, Index(a, level)) && Level(g[n.value]) == level - 1
    ensures Down(m, Some(f), a, level).None? ==> Ent(m, f, Index(a, level)) == 0
  {
    assert LinkOk(m, g, f, Index(a, level), Ent(m, f, Index(a, level)));
  }

  // No aliasing: two walks that end in one table took the same path below the
  // root entry, and the root entries hold the same table.
  lemma NoAlias(m: Memory, g: map<Word, Place>, r: Word, a: Word, s: Word, b: Word)
    requires Shaped(m, g) && IsRoot(g, r) && IsRoot(g, s)
    requires Leaf(m, r, a).Some? && Leaf(m, r, a) == Leaf(m, s, b)
    ensures forall l :: 2 <= l <= 4 ==> Index(a, l) == Index(b, l)
    ensures Down(m, Some(r), a, 4) == Down(m, Some(s), b, 4) && Level(g[Leaf(m, r, a).value]) == 1
  {
    WalkPlaces(m, g, r, a);
    WalkPlaces(m, g, s, b);
  }

  lemma WalkPlaces(m: Memory, g: map<Word, Place>, r: Word, a: Word)
    requires Shaped(m, g) && IsRoot(g, r) && Leaf(m, r, a).Some?
    ensures var p := Down(m, Some(r), a, 4);
      var d := Down(m, p, a, 3);
      var t := Down(m, d, a, 2);
      p.Some? && d.Some? && t.Some? && p.value in g && d.value in g && t.value in g &&
      g[p.value] == Upper(Index(a, 4)) && g[d.value] == Middle(p.value, Index(a, 3)) && g[t.value] == Lowest(d.value, Index(a, 2))
  {
    Step(m, g, r, a, 4);
    Step(m, g, Down(m, Some(r), a, 4).value, a, 3);
    Step(m, g, Down(m, Down(m, Some(r), a, 4), a, 3).value, a, 2);
  }

  // ---- the two writes

  function Set(m: Memory, f: Word, i: nat, e: Word): Memory {
    m[f := (if f in m then m[f] else map[])[i := e]]
  }

  // Hanging a cleared table n under an empty entry.
  function Graft(m: Memory, f: Word, i: nat, n: Word): Memory
    requires n % PAGE == 0
  {
    Set(m[n := map[]], f, i, n + TABLE_FLAGS)
  }

  lemma GraftEnt(m: Memory, f: Word, i: nat, n: Word, h: Word, j: nat)
    requires f in m && n !in m && n % PAGE == 0
    ensures Ent(Graft(m, f, i, n), h, j) == if h == f && j == i then n + TABLE_FLAGS else Ent(m, h, j)
  {
  }

  lemma BaseOf(n: Word)
    requires n % PAGE == 0
    ensures n + TABLE_FLAGS < WORD && Base(n + TABLE_FLAGS) == n && Present(n + TABLE_FLAGS)
  {
  }

  lemma GraftShaped(m: Memory, g: map<Word, Place>, f: Word, i: nat, n: Word)
    requires Shaped(m, g) && f in g && n !in m && n % PAGE == 0 && Level(g[f]) > 1 && Ent(m, f, i) == 0
    ensures Shaped(Graft(m, f, i, n), g[n := Hang(g[f], f, i)])
  {
    BaseOf(n);
    var m', g' := Graft(m, f, i, n), g[n := Hang(g[f], f, i)];
    hide Base, Present;
    forall h <- g', j: nat | Level(g'[h]) > 1 ensures LinkOk(m', g', h, j, Ent(m', h, j)) {
      GraftEnt(m, f, i, n, h, j);
      hide Graft, Ent;
      if h != n {
        assert LinkOk(m, g, h, j, Ent(m, h, j));
      }
    }
  }

  lemma NoEnt(m: Memory, n: Word, j: nat)
    requires n !in m
    ensures Ent(m, n, j) == 0 && !Present(0)
  {
  }

  // One step of a walk after a graft: unchanged, or into the cleared table.
  lemma GraftDown(m: Memory, g: map<Word, Place>, f: Word, i: nat, n: Word, h: Word, a: Word, level: nat)
    requires Shaped(m, g) && f in g && n !in m && n % PAGE == 0 && Ent(m, f, i) == 0 && 1 <= level <= 4
    requires h in g || h == n
    ensures var d := Down(m, Some(h), a, level);
      var d' := Down(Graft(m, f, i, n), Some(h), a, level);
      d' == d || (d.None? && d' == Some(n))
    ensures h == n ==> Down(Graft(m, f, i, n), Some(h), a, level).None?
    ensures Ent(Graft(m, f, i, n), n, Index(a, level)) == 0
  {
    hide Graft, Ent, Index;
    BaseOf(n);
    GraftEnt(m, f, i, n, h, Index(a, level));
    GraftEnt(m, f, i, n, n, Index(a, level));
    NoEnt(m, n, Index(a, level));
    hide Base, Present;
  }

  // A graft changes no translation under any root.
  lemma GraftKeeps(m: Memory, g: map<Word, Place>, f: Word, i: nat, n: Word, r: Word, a: Word)
    requires Shaped(m, g) && f in g && n !in m && n % PAGE == 0 && Level(g[f]) > 1 && Ent(m, f, i) == 0 && IsRoot(g, r)
    ensures Entry(Graft(m, f, i, n), r, a) == Entry(m, r, a)
  {
    var m' := Graft(m, f, i, n);
    GraftDown(m, g, f, i, n, r, a, 4);
    GraftDown(m, g, f, i, n, n, a, 3);
    GraftDown(m, g, f, i, n, n, a, 2);
    GraftDown(m, g, f, i, n, n, a, 1);
    Step(m, g, r, a, 4);
    var p := Down(m, Some(r), a, 4);
    if p.Some? {
      GraftDown(m, g, f, i, n, p.value, a, 3);
      Step(m, g, p.value, a, 3);
      var d := Down(m, p, a, 3);
      if d.Some? {
        GraftDown(m, g, f, i, n, d.value, a, 2);
        Step(m, g, d.value, a, 2);
        var t := Down(m, d, a, 2);
        if t.Some? {
          GraftEnt(m, f, i, n, t.value, Index(a, 1));
        }
      }
    }
  }

  // Writing a last-level entry.
  lemma SetShaped(m: Memory, g: map<Word, Place>, t: Word, j: nat, e: Word)
    requires Shaped(m, g) && t in g && Level(g[t]) == 1
    ensures Shaped(Set(m, t, j, e), g)
    ensures forall h: Word, i: nat :: Ent(Set(m, t, j, e), h, i) == if h == t && i == j then e else Ent(m, h, i)
  {
    var m' := Set(m, t, j, e);
    forall h <- g, i: nat | Level(g[h]) > 1 ensures LinkOk(m', g, h, i, Ent(m', h, i)) {
      assert LinkOk(m, g, h, i, Ent(m, h, i));
    }
  }

  // Two roots see one second-level table at slot i.
  ghost predicate Shared(m: Memory, r: Word, s: Word, i: nat) {
    Ent(m, r, i) != 0 && Ent(m, r, i) == Ent(m, s, i)
  }

  // A cleared table n hung under an empty entry, all at once.
  lemma Grafted(m: Memory, g: map<Word, Place>, f: Word, i: nat, n: Word)
    requires Shaped(m, g) && f in g && n !in m && n % PAGE == 0 && Level(g[f]) > 1 && Ent(m, f, i) == 0
    ensures Shaped(Graft(m, f, i, n), g[n := Hang(g[f], f, i)]) && Grown(m, g, Graft(m, f, i, n), g[n := Hang(g[f], f, i)])
    ensures Ent(Graft(m, f, i, n), f, i) == n + TABLE_FLAGS && Base(n + TABLE_FLAGS) == n && Present(n + TABLE_FLAGS)
    ensures Graft(m, f, i, n).Keys == m.Keys + {n}
  {
    GraftShaped(m, g, f, i, n);
    GraftGrown(m, g, f, i, n);
    GraftEnt(m, f, i, n, f, i);
    BaseOf(n);
  }

  // Writing the entry of va changes exactly the addresses of its page, under
  // the roots that share the slot.
  lemma SetEntry(m: Memory, g: map<Word, Place>, s: Word, va: Word, e: Word, r: Word, a: Word)
    requires Shaped(m, g) && IsRoot(g, s) && IsRoot(g, r) && Leaf(m, s, va).Some?
    ensures Entry(Set(m, Leaf(m, s, va).value, Index(va, 1), e), r, a) ==
      if Page(a) == Page(va) && Shared(m, r, s, Index(va, 4)) then e else Entry(m, r, a)
  {
    var t := Leaf(m, s, va).value;
    WalkPlaces(m, g, s, va);
    var m' := Set(m, t, Index(va, 1), e);
    SetShaped(m, g, t, Index(va, 1), e);
    SetLeaf(m, g, t, Index(va, 1), e, r, a);
    SamePage(a, va);
    assert Page(a) == Page(va) && Shared(m, r, s, Index(va, 4)) ==> Leaf(m, r, a) == Leaf(m, s, va);
    if Leaf(m, r, a) == Some(t) {
      NoAlias(m, g, r, a, s, va);
      SharedSlot(m, g, r, s, Index(va, 4));
    }
  }

  lemma SharedSlot(m: Memory, g: map<Word, Place>, r: Word, s: Word, i: nat)
    requires Shaped(m, g) && IsRoot(g, s) && IsRoot(g, r)
    ensures Present(Ent(m, r, i)) <==> Ent(m, r, i) != 0
    ensures Present(Ent(m, r, i)) && Present(Ent(m, s, i)) && Base(Ent(m, r, i)) == Base(Ent(m, s, i)) ==> Shared(m, r, s, i)
  {
    hide Shaped, Base, Present, Ent;
    SlotForm(m, g, r, i);
    SlotForm(m, g, s, i);
  }

  // An entry above the last level is empty, or a table with the flags.
  lemma SlotForm(m: Memory, g: map<Word, Place>, f: Word, i: nat)
    requires Shaped(m, g) && f in g && Level(g[f]) > 1
    ensures var e := Ent(m, f, i); (Present(e) <==> e != 0) && (e != 0 ==> e == Base(e) + TABLE_FLAGS)
  {
    hide Ent;
    assert LinkOk(m, g, f, i, Ent(m, f, i));
    OddFlags(Ent(m, f, i));
  }

  lemma OddFlags(e: Word)
    ensures e % 4096 == 7 ==> Present(e)
    ensures !Present(0)
  {
    assert e % 4096 % 2 == e % 2;
  }

  lemma SetLeaf(m: Memory, g: map<Word, Place>, t: Word, j: nat, e: Word, r: Word, a: Word)
    requires Shaped(m, g) && t in g && Level(g[t]) == 1 && IsRoot(g, r)
    ensures Leaf(Set(m, t, j, e), r, a) == Leaf(m, r, a)
  {
    SetShaped(m, g, t, j, e);
    Step(m, g, r, a, 4);
    var p := Down(m, Some(r), a, 4);
    if p.Some? {
      Step(m, g, p.value, a, 3);
      var d := Down(m, p, a, 3);
      if d.Some? {
        Step(m, g, d.value, a, 2);
      }
    }
  }

  // ---- growing the tables

  ghost predicate Same(m: Memory, g: map<Word, Place>, m': Memory) {
    forall r: Word, a: Word :: IsRoot(g, r) ==> Entry(m', r, a) == Entry(m, r, a)
  }

  ghost predicate SameShares(m: Memory, g: map<Word, Place>, m': Memory) {
    forall r: Word, s: Word, j: nat :: IsRoot(g, r) && IsRoot(g, s) && r != s ==> Shared(m', r, s, j) == Shared(m, r, s, j)
  }

  ghost predicate SamePlaces(g: map<Word, Place>, g': map<Word, Place>) {
    (forall h <- g :: h in g' && g'[h] == g[h]) && forall h <- g' :: h in g || !g'[h].Top?
  }

  // No entry above the last level is ever overwritten.
  ghost predicate LinksStay(m: Memory, g: map<Word, Place>, m': Memory) {
    forall h: Word, j: nat :: h in g && Level(g[h]) > 1 && Ent(m, h, j) != 0 ==> Ent(m', h, j) == Ent(m, h, j)
  }

  // Tables were added, and nothing any root translates has changed.
  ghost predicate Grown(m: Memory, g: map<Word, Place>, m': Memory, g': map<Word, Place>) {
    SamePlaces(g, g') && LinksStay(m, g, m') && SameShares(m, g, m') && Same(m, g, m')
  }

  lemma GrownSelf(m: Memory, g: map<Word, Place>)
    ensures Grown(m, g, m, g)
  {
    hide Ent, Entry, Shared, Level;
  }

  lemma LinkAt(m: Memory, g: map<Word, Place>, f: Word, i: nat)
    requires Shaped(m, g) && f in g && Level(g[f]) > 1
    ensures !Present(Ent(m, f, i)) ==> Ent(m, f, i) == 0
    ensures Present(Ent(m, f, i)) ==> Base(Ent(m, f, i)) in g && g[Base(Ent(m, f, i))] == Hang(g[f], f, i)
  {
    assert LinkOk(m, g, f, i, Ent(m, f, i));
  }

  lemma DownIs(m: Memory, f: Word, a: Word, level: nat)
    requires 1 <= level <= 4
    ensures Down(m, Some(f), a, level) == if Present(Ent(m, f, Index(a, level))) then Some(Base(Ent(m, f, Index(a, level)))) else None
  {
  }

  // A link once made stays, and so do the places.
  lemma DownStays(m: Memory, g: map<Word, Place>, m': Memory, g': map<Word, Place>, f: Word, a: Word, level: nat)
    requires Grown(m, g, m', g') && 1 <= level <= 4 && f in g && Level(g[f]) > 1 && Down(m, Some(f), a, level).Some?
    ensures Down(m', Some(f), a, level) == Down(m, Some(f), a, level) && f in g' && g'[f] == g[f]
  {
    hide Same, SameShares;
  }

  lemma NoLeaf(m: Memory, root: Word, a: Word)
    requires var p := Down(m, Some(root), a, 4); p.None? || var d := Down(m, p, a, 3); d.None? || Down(m, d, a, 2).None?
    ensures Leaf(m, root, a).None?
  {
  }

  lemma GrownTwice(m: Memory, g: map<Word, Place>, m': Memory, g': map<Word, Place>, m'': Memory, g'': map<Word, Place>)
    requires Grown(m, g, m', g') && Grown(m', g', m'', g'')
    ensures Grown(m, g, m'', g'')
  {
    hide Ent, Entry;
  }

  lemma GraftShares(m: Memory, g: map<Word, Place>, f: Word, i: nat, n: Word)
    requires Shaped(m, g) && f in g && n !in m && n % PAGE == 0 && Level(g[f]) > 1 && Ent(m, f, i) == 0
    ensures SameShares(m, g, Graft(m, f, i, n))
  {
    var m' := Graft(m, f, i, n);
    BaseOf(n);
    forall r: Word, s: Word, j: nat | IsRoot(g, r) && IsRoot(g, s) && r != s ensures Shared(m', r, s, j) == Shared(m, r, s, j) {
      GraftEnt(m, f, i, n, r, j);
      GraftEnt(m, f, i, n, s, j);
      assert LinkOk(m, g, r, j, Ent(m, r, j)) && LinkOk(m, g, s, j, Ent(m, s, j));
      hide Graft, Ent, Base;
    }
  }

  lemma GraftGrown(m: Memory, g: map<Word, Place>, f: Word, i: nat, n: Word)
    requires Shaped(m, g) && f in g && n !in m && n % PAGE == 0 && Level(g[f]) > 1 && Ent(m, f, i) == 0
    ensures Grown(m, g, Graft(m, f, i, n), g[n := Hang(g[f], f, i)])
  {
    var m' := Graft(m, f, i, n);
    GraftShares(m, g, f, i, n);
    forall r: Word, a: Word | IsRoot(g, r) ensures Entry(m', r, a) == Entry(m, r, a) {
      GraftKeeps(m, g, f, i, n, r, a);
    }
    forall h: Word, j: nat ensures Ent(m, h, j) != 0 ==> Ent(m', h, j) == Ent(m, h, j) {
      GraftEnt(m, f, i, n, h, j);
    }
  }

  // ---- copying a root

  lemma CopyRoot(m: Memory, g: map<Word, Place>, k: Word, n: Word)
    requires Shaped(m, g) && IsRoot(g, k) && n !in m && n % PAGE == 0
    ensures var m', g' := m[n := m[k]], g[n := Top]; Shaped(m', g') && LinksStay(m, g, m') && Same(m, g, m') && SameShares(m, g, m')
    ensures forall a: Word :: Entry(m[n := m[k]], n, a) == Entry(m, k, a)
    ensures forall j: nat :: Shared(m[n := m[k]], n, k, j) <==> Ent(m, k, j) != 0
  {
    var m', g' := m[n := m[k]], g[n := Top];
    assert forall h: Word, j: nat :: Ent(m', h, j) == Ent(m, if h == n then k else h, j);
    forall h <- g', j: nat | Level(g'[h]) > 1 ensures LinkOk(m', g', h, j, Ent(m', h, j)) {
      assert LinkOk(m, g, if h == n then k else h, j, Ent(m, if h == n then k else h, j));
    }
    forall r: Word, a: Word | IsRoot(g', r) ensures Entry(m', r, a) == Entry(m, if r == n then k else r, a) {
      CopyWalk(m, g, k, n, r, a);
    }
  }

  lemma CopyWalk(m: Memory, g: map<Word, Place>, k: Word, n: Word, r: Word, a: Word)
    requires Shaped(m, g) && IsRoot(g, k) && n !in m && (r == n || IsRoot(g, r))
    ensures Entry(m[n := m[k]], r, a) == Entry(m, if r == n then k else r, a)
  {
    var s := if r == n then k else r;
    Step(m, g, s, a, 4);
    var p := Down(m, Some(s), a, 4);
    if p.Some? {
      Step(m, g, p.value, a, 3);
      var d := Down(m, p, a, 3);
      if d.Some? {
        Step(m, g, d.value, a, 2);
      }
    }
  }

  // ---- mapping a range

  // Pages one address space can tell apart: 2^36.
  const SPAN: nat := 0x10_0000_0000

  // vmm_page_align
  function AlignDown(a: Word): (r: Word)
    ensures r <= a < r + 4096 && r % 4096 == 0
  {
    a - a % PAGE
  }

  // PAGE_ALIGN. A size within a page of 2^64 wraps to nothing.
  function AlignUp(size: Word): (r: Word)
    ensures r % 4096 == 0 && if size + 4095 < WORD then size <= r < size + 4096 else r == 0
  {
    var t := (size + PAGE - 1) % WORD;
    t - t % PAGE
  }

  lemma WordIsPow2()
    ensures Pow2(64) == WORD && Pow2(12) == PAGE
  {
    assert Pow2(4) == 16;
    Pow2Add(4, 4);
    Pow2Add(8, 4);
    Pow2Add(8, 8);
    Pow2Add(16, 16);
    Pow2Add(32, 32);
  }

  function Pte(pa: Word, prot: Word): Word {
    WordIsPow2();
    OrFits(pa, prot, 64);
    Or(pa, prot)
  }

  // How many pages a lies after v, around the 48-bit space.
  function Distance(v: Word, a: Word): nat {
    (Page(a) - Page(v)) % SPAN
  }

  // The last of the first n pages of a range to fall d pages after its start.
  function Last(d: nat, n: nat): (k: nat)
    requires d < n
    ensures d <= k < n && k % SPAN == d % SPAN && n <= k + SPAN
  {
    d + SPAN * ((n - 1 - d) / SPAN)
  }

  // Entries after the first n pages of [v, ..) went to [p, ..) in root s.
  function Mapped(m: Memory, s: Word, v: Word, p: Word, prot: Word, n: nat, r: Word, a: Word): Word {
    if Distance(v, a) < n && (r == s || Ent(m, r, Index(a, 4)) == Ent(m, s, Index(a, 4)) != 0) then
      Pte((p + PAGE * Last(Distance(v, a), n)) % WORD, prot)
    else Entry(m, r, a)
  }

  // The n-th page of the range is the page at distance n modulo the span.
  lemma NthPage(v: Word, n: nat, a: Word)
    requires v % PAGE == 0
    ensures Page(a) == Page((v + PAGE * n) % WORD) <==> Distance(v, a) == n % SPAN
  {
    var x := v / PAGE;
    assert v == PAGE * x;
    hide Page, Distance;
    WrapPage(x + n);
    DistanceIs(x, v, a);
    ModSum(x, n, Page(a));
  }

  lemma DistanceIs(x: nat, v: Word, a: Word)
    requires v == PAGE * x
    ensures Page(a) < SPAN && Distance(v, a) == (Page(a) - x % SPAN) % SPAN
  {
    assert v / PAGE == x;
  }

  // Addresses wrap at 64 bits, and page numbers are read modulo the span.
  lemma WrapPage(y: nat)
    ensures Page((PAGE * y) % WORD) == y % SPAN
  {
    var q, r := y / 0x10_0000_0000_0000, y % 0x10_0000_0000_0000;
    assert PAGE * y == WORD * q + PAGE * r;
    WordMod(PAGE * y, q, PAGE * r);
    assert (PAGE * r) / PAGE == r;
    ModOfMod(y);
  }

  lemma WordMod(a: nat, q: nat, r: nat)
    requires a == WORD * q + r && r < WORD
    ensures a % WORD == r
  {
  }

  lemma ModOfMod(y: nat)
    ensures y % 0x10_0000_0000_0000 % SPAN == y % SPAN
  {
    assert y == 0x10_0000_0000_0000 * (y / 0x10_0000_0000_0000) + y % 0x10_0000_0000_0000;
  }

  lemma ModSum(x: nat, n: nat, b: nat)
    requires b < SPAN
    ensures b == (x + n) % SPAN <==> (b - x % SPAN) % SPAN == n % SPAN
  {
    var q, u := x / SPAN, n / SPAN;
    assert x + n == SPAN * (q + u) + x % SPAN + n % SPAN;
  }

  lemma LastStep(d: nat, n: nat)
    requires d < SPAN
    ensures n % SPAN == d ==> Last(d, n + 1) == n
    ensures n % SPAN != d && d < n ==> Last(d, n + 1) == Last(d, n)
    ensures n % SPAN != d ==> (d < n + 1 <==> d < n)
  {
    if n % SPAN == d {
      assert n - d == SPAN * (n / SPAN);
    } else if d < n {
      var k := Last(d, n);
      assert k + SPAN != n;
    }
  }

  // m1 is m after j pages of the range were mapped.
  ghost predicate Progress(m: Memory, g: map<Word, Place>, m1: Memory, g1: map<Word, Place>, s: Word, v: Word, p: Word, prot: Word, j: nat) {
    Shaped(m1, g1) && SamePlaces(g, g1) && LinksStay(m, g, m1) && SameShares(m, g, m1) &&
    forall r: Word, a: Word :: IsRoot(g, r) ==> Entry(m1, r, a) == Mapped(m, s, v, p, prot, j, r, a)
  }

  lemma ProgressGrown(m: Memory, g: map<Word, Place>, m1: Memory, g1: map<Word, Place>, m2: Memory, g2: map<Word, Place>,
      s: Word, v: Word, p: Word, prot: Word, j: nat)
    requires Progress(m, g, m1, g1, s, v, p, prot, j) && Grown(m1, g1, m2, g2) && Shaped(m2, g2)
    ensures Progress(m, g, m2, g2, s, v, p, prot, j)
  {
    hide Ent, Entry, Mapped, Shaped;
  }

  lemma ProgressEntry(m: Memory, g: map<Word, Place>, m2: Memory, g2: map<Word, Place>, s: Word, v: Word, p: Word, prot: Word, j: nat, r: Word, a: Word)
    requires Progress(m, g, m2, g2, s, v, p, prot, j) && IsRoot(g, s) && v % PAGE == 0 && IsRoot(g, r)
    requires Leaf(m2, s, (v + PAGE * j) % WORD).Some?
    ensures var va := (v + PAGE * j) % WORD;
      Entry(Set(m2, Leaf(m2, s, va).value, Index(va, 1), Pte((p + PAGE * j) % WORD, prot)), r, a) == Mapped(m, s, v, p, prot, j + 1, r, a)
  {
    hide Shaped, Entry, Index, Page, Last, Set, Leaf, Ent, Pte;
    var va := (v + PAGE * j) % WORD;
    var t, e := Leaf(m2, s, va).value, Pte((p + PAGE * j) % WORD, prot);
    WalkPlaces(m2, g2, s, va);
    SetEntry(m2, g2, s, va, e, r, a);
    NthPage(v, j, a);
    SamePage(a, va);
    LastStep(Distance(v, a), j);
    assert r != s ==> Shared(m2, r, s, Index(a, 4)) == Shared(m, r, s, Index(a, 4));
    SharedSelf(m2, g2, s, va);
  }

  lemma ProgressStep(m: Memory, g: map<Word, Place>, m2: Memory, g2: map<Word, Place>, s: Word, v: Word, p: Word, prot: Word, j: nat)
    requires Progress(m, g, m2, g2, s, v, p, prot, j) && IsRoot(g, s) && v % PAGE == 0
    requires Leaf(m2, s, (v + PAGE * j) % WORD).Some?
    ensures var va := (v + PAGE * j) % WORD;
      Progress(m, g, Set(m2, Leaf(m2, s, va).value, Index(va, 1), Pte((p + PAGE * j) % WORD, prot)), g2, s, v, p, prot, j + 1)
    ensures var t := Leaf(m2, s, (v + PAGE * j) % WORD).value; t in m2
  {
    var va := (v + PAGE * j) % WORD;
    var t, e := Leaf(m2, s, va).value, Pte((p + PAGE * j) % WORD, prot);
    var m3 := Set(m2, t, Index(va, 1), e);
    WalkPlaces(m2, g2, s, va);
    SetShaped(m2, g2, t, Index(va, 1), e);
    forall r: Word, a: Word | IsRoot(g, r) ensures Entry(m3, r, a) == Mapped(m, s, v, p, prot, j + 1, r, a) {
      ProgressEntry(m, g, m2, g2, s, v, p, prot, j, r, a);
    }
    assert SameShares(m, g, m3) && LinksStay(m, g, m3);
  }

  lemma ProgressRoot(m: Memory, g: map<Word, Place>, m1: Memory, g1: map<Word, Place>, s: Word, v: Word, p: Word, prot: Word, j: nat)
    requires Progress(m, g, m1, g1, s, v, p, prot, j) && IsRoot(g, s)
    ensures Shaped(m1, g1) && IsRoot(g1, s)
  {
  }

  lemma SetKeys(m: Memory, t: Word, j: nat, e: Word)
    requires t in m
    ensures Set(m, t, j, e).Keys == m.Keys
  {
  }

  lemma SharedSelf(m: Memory, g: map<Word, Place>, s: Word, a: Word)
    requires Shaped(m, g) && IsRoot(g, s) && Leaf(m, s, a).Some?
    ensures Shared(m, s, s, Index(a, 4))
  {
  }

  // ---- what mapping a range means

  lemma ProgressAt(m: Memory, g: map<Word, Place>, m1: Memory, g1: map<Word, Place>, s: Word, v: Word, p: Word, prot: Word, n: nat, r: Word, a: Word)
    requires Progress(m, g, m1, g1, s, v, p, prot, n) && IsRoot(g, r)
    ensures Entry(m1, r, a) == Mapped(m, s, v, p, prot, n, r, a)
  {
  }

  // A range of at most 2^36 pages, mapped with plain low flags: every address
  // of it translates to its own frame and offset, every other one as before.
  lemma RangeTranslates(m: Memory, g: map<Word, Place>, m1: Memory, g1: map<Word, Place>, s: Word, v: Word, p: Word, prot: Word, n: nat, a: Word)
    requires Progress(m, g, m1, g1, s, v, p, prot, n) && IsRoot(g, s) && n <= SPAN
    requires p % PAGE == 0 && prot < PAGE && Present(prot)
    ensures Translate(m1, s, a) ==
      if Distance(v, a) < n then (p + PAGE * Distance(v, a)) % WORD + a % PAGE else Translate(m, s, a)
  {
    hide Progress, Entry, Pte, Last, Distance;
    var d := Distance(v, a);
    ProgressAt(m, g, m1, g1, s, v, p, prot, n, s, a);
    if d < n {
      LastIsOnly(d, n);
      PteParts((p + PAGE * d) % WORD, prot);
      FrameAligned(p, d);
    }
  }

  // The same in page numbers, for a range below 2^48 whose frames do not wrap.
  lemma RangePlain(m: Memory, g: map<Word, Place>, m1: Memory, g1: map<Word, Place>, s: Word, vaddr: Word, paddr: Word, prot: Word, n: nat, a: Word)
    requires Progress(m, g, m1, g1, s, AlignDown(vaddr), AlignDown(paddr), prot, n) && IsRoot(g, s)
    requires vaddr / 4096 + n <= 0x10_0000_0000 && paddr / 4096 + n <= 0x10_0000_0000_0000 && a < 0x1_0000_0000_0000 && prot < 4096 && prot % 2 == 1
    ensures var (x, y, z) := (vaddr / 4096, paddr / 4096, a / 4096);
      if x <= z < x + n then Translate(m1, s, a) == (y + (z - x)) * 4096 + a % 4096 && Entry(m1, s, a) == (y + (z - x)) * 4096 + prot
      else Translate(m1, s, a) == Translate(m, s, a)
  {
    var (x, y, z) := (vaddr / 4096, paddr / 4096, a / 4096);
    hide Progress, Entry, Translate, Pte, Last, Present, IsRoot;
    PlainPresent(prot);
    RangeTranslates(m, g, m1, g1, s, AlignDown(vaddr), AlignDown(paddr), prot, n, a);
    PlainDistance(vaddr, a, n);
    if x <= z < x + n {
      PlainFrame(paddr, z - x);
      ProgressAt(m, g, m1, g1, s, AlignDown(vaddr), AlignDown(paddr), prot, n, s, a);
      LastIsOnly(z - x, n);
      PlainMapped(m, s, AlignDown(vaddr), AlignDown(paddr), prot, n, a);
      PteParts((y + (z - x)) * 4096, prot);
    }
  }

  lemma PlainPresent(prot: Word)
    ensures Present(prot) <==> prot % 2 == 1
  {
  }

  lemma PlainMapped(m: Memory, s: Word, v: Word, p: Word, prot: Word, n: nat, a: Word)
    requires Distance(v, a) < n
    ensures Mapped(m, s, v, p, prot, n, s, a) == Pte((p + PAGE * Last(Distance(v, a), n)) % WORD, prot)
  {
  }

  lemma PlainDistance(vaddr: Word, a: Word, n: nat)
    requires vaddr / 4096 + n <= SPAN && a < 0x1_0000_0000_0000
    ensures var (x, z) := (vaddr / 4096, a / 4096); if x <= z < x + n then Distance(AlignDown(vaddr), a) == z - x else Distance(AlignDown(vaddr), a) >= n
  {
    var x, z := vaddr / 4096, a / 4096;
    assert AlignDown(vaddr) == 4096 * x;
    hide Distance, Page, AlignDown;
    DistanceIs(x, AlignDown(vaddr), a);
    PageBelow(a);
    if n == 0 {
    } else if z >= x {
      assert (z - x) % SPAN == z - x;
    } else {
      assert (z - x) % SPAN == z - x + SPAN;
    }
  }

  lemma PageBelow(a: Word)
    requires a < 0x1_0000_0000_0000
    ensures Page(a) == a / 4096
  {
  }

  lemma PlainFrame(paddr: Word, d: nat)
    requires paddr / 4096 + d < 0x10_0000_0000_0000
    ensures (AlignDown(paddr) + PAGE * d) % WORD == (paddr / 4096 + d) * 4096
  {
    assert AlignDown(paddr) == 4096 * (paddr / 4096);
  }

  lemma LastIsOnly(d: nat, n: nat)
    requires d < n <= SPAN
    ensures Last(d, n) == d
  {
    assert (n - 1 - d) / SPAN == 0;
  }

  lemma FrameAligned(p: Word, d: nat)
    requires p % PAGE == 0
    ensures (p + PAGE * d) % WORD % PAGE == 0
  {
    var t := p + PAGE * d;
    assert t == PAGE * (p / PAGE + d);
    assert t % WORD == PAGE * (p / PAGE + d - 0x10_0000_0000_0000 * (t / WORD));
  }

  lemma PteParts(pa: Word, prot: Word)
    requires pa % PAGE == 0 && prot < PAGE
    ensures Pte(pa, prot) == pa + prot && Base(Pte(pa, prot)) == pa && Present(Pte(pa, prot)) == Present(prot)
  {
    PteAdds(pa, prot);
    Flagged(pa, prot);
    hide Pte;
  }

  lemma PteAdds(pa: Word, prot: Word)
    requires pa % PAGE == 0 && prot < PAGE
    ensures Pte(pa, prot) == pa + prot
  {
    WordIsPow2();
    OrAdds(pa / PAGE, prot, 12);
  }

  lemma Flagged(pa: Word, f: nat)
    requires pa % PAGE == 0 && f < PAGE
    ensures pa + f < WORD && (pa + f) % PAGE == f && (pa + f) % 2 == f % 2
  {
    var k := pa / PAGE;
    assert pa == PAGE * k && k < WORD / PAGE;
    assert pa + f == 2 * (PAGE / 2 * k) + f;
  }

  // Translation reads 48 bits of the address, so a longer range runs over its
  // own start: each page keeps its first frame exactly when the range has at
  // most 2^36 pages.
  lemma FirstFrameKept(v: Word, p: Word, n: nat)
    requires n * PAGE < WORD
    ensures (forall a: Word :: Distance(v, a) < n ==> (p + PAGE * Last(Distance(v, a), n)) % WORD == (p + PAGE * Distance(v, a)) % WORD) <==> n <= SPAN
  {
    if n <= SPAN {
      forall a: Word | Distance(v, a) < n ensures Last(Distance(v, a), n) == Distance(v, a) {
        LastIsOnly(Distance(v, a), n);
      }
    } else {
      var k := Last(0, n);
      assert Distance(v, v) == 0;
      assert 0 < PAGE * k < WORD;
      Moved(p, PAGE * k);
    }
  }

  lemma Moved(p: Word, x: nat)
    requires 0 < x < WORD
    ensures (p + x) % WORD != p
  {
  }

  // Spaces that share the slot of an address always agree on it.
  lemma SharersAgree(m: Memory, g: map<Word, Place>, r: Word, s: Word, a: Word)
    requires Shaped(m, g) && IsRoot(g, r) && IsRoot(g, s) && Shared(m, r, s, Index(a, 4))
    ensures Translate(m, r, a) == Translate(m, s, a)
  {
    assert LinkOk(m, g, r, Index(a, 4), Ent(m, r, Index(a, 4)));
    assert Down(m, Some(r), a, 4) == Down(m, Some(s), a, 4);
  }

  // A space that does not share the slot never sees the mapping.
  lemma OthersKeep(m: Memory, g: map<Word, Place>, m1: Memory, g1: map<Word, Place>, s: Word, v: Word, p: Word, prot: Word, n: nat, r: Word, a: Word)
    requires Progress(m, g, m1, g1, s, v, p, prot, n) && IsRoot(g, r) && r != s && !Shared(m, r, s, Index(a, 4))
    requires Shaped(m, g)
    ensures Translate(m1, r, a) == Translate(m, r, a)
  {
    assert Entry(m1, r, a) == Mapped(m, s, v, p, prot, n, r, a);
    if Ent(m, r, Index(a, 4)) == 0 {
      assert Entry(m, r, a) == 0;
    }
  }

  // ---- the machine

  // 0, -EINVAL and -ENOMEM.
  datatype Outcome = Ok | Invalid | NoMemory

  class AddressSpace {
    var pgd: Word
    var totalVm: nat
    var residentPages: nat

    constructor ()
      ensures pgd == 0 && totalVm == 0 && residentPages == 0
    {
      pgd, totalVm, residentPages := 0, 0, 0;
    }
  }

  // The frames still to be handed out are aligned, distinct and not in use.
  ghost predicate Stocked(frames: seq<Word>, used: set<Word>) {
    (forall i :: 0 <= i < |frames| ==> frames[i] != 0 && frames[i] % PAGE == 0 && frames[i] !in used) &&
    forall i, j :: 0 <= i < j < |frames| ==> frames[i] != frames[j]
  }

  // Physical memory as far as it holds page tables, and the frames
  // pmm_alloc_page has yet to hand out.
  class Vmm {
    var mem: Memory
    var frames: seq<Word>
    ghost var place: map<Word, Place>

    ghost predicate Valid()
      reads this
    {
      Shaped(mem, place) && Stocked(frames, mem.Keys)
    }

    constructor (supply: seq<Word>)
      requires Stocked(supply, {})
      ensures Valid() && mem == map[] && frames == supply
    {
      mem, frames, place := map[], supply, map[];
    }

    // pmm_alloc_page
    method AllocPage() returns (page: Option<Word>)
      modifies this`frames
      ensures old(frames) == [] ==> page.None? && frames == []
      ensures old(frames) != [] ==> page == Some(old(frames)[0]) && frames == old(frames)[1..]
    {
      if frames == [] {
        return None;
      }
      page := Some(frames[0]);
      frames := frames[1..];
    }

    // One level of vmm_walk_page_table.
    method Descend(f: Word, i: nat, create: bool) returns (next: Option<Word>)
      requires Valid() && f in place && Level(place[f]) > 1
      modifies this
      ensures Valid() && Grown(old(mem), old(place), mem, place)
      ensures next.None? ==> mem == old(mem) && place == old(place) && frames == old(frames) && !Present(Ent(mem, f, i))
      ensures next.None? && create ==> frames == []
      ensures !create || Present(old(Ent(mem, f, i))) ==> mem == old(mem) && place == old(place) && frames == old(frames)
      ensures next.Some? ==> Present(Ent(mem, f, i)) && next.value == Base(Ent(mem, f, i)) && next.value in place && place[next.value] == Hang(place[f], f, i)
      ensures f in place && place[f] == old(place[f])
      ensures old(frames) == [] ==> frames == []
    {
      hide Grown, Shaped;
      Here(f, i);
      if !Present(Ent(mem, f, i)) {
        if !create {
          return None;
        }
        var page := AllocPage();
        if page.None? {
          return None;
        }
        Grafted(mem, place, f, i, page.value);
        place := place[page.value := Hang(place[f], f, i)];
        mem := mem[page.value := map[]];
        mem := Set(mem, f, i, Flags(page.value));
      }
      next := Some(Base(Ent(mem, f, i)));
    }

    // What a walk finds at entry i of table f.
    lemma Here(f: Word, i: nat)
      requires Valid() && f in place && Level(place[f]) > 1
      ensures Grown(mem, place, mem, place) && f in mem && mem.Keys == place.Keys
      ensures !Present(Ent(mem, f, i)) ==> Ent(mem, f, i) == 0
      ensures Present(Ent(mem, f, i)) ==> Base(Ent(mem, f, i)) in place && place[Base(Ent(mem, f, i))] == Hang(place[f], f, i)
    {
      hide Grown, Stocked;
      GrownSelf(mem, place);
      LinkAt(mem, place, f, i);
    }

    // The entry of a new table: its address and the flags.
    function Flags(page: Word): (e: Word)
      requires page % PAGE == 0
      ensures e == page + TABLE_FLAGS
    {
      WordIsPow2();
      OrAdds(page / PAGE, TABLE_FLAGS, 12);
      Or(page, TABLE_FLAGS)
    }

    // vmm_walk_page_table: the table and index of the last-level entry. Without
    // create it changes nothing; with it only cleared tables are added.
    method Walk(mm: AddressSpace, vaddr: Word, create: bool) returns (pte: Option<(Word, nat)>)
      requires Valid() && (mm.pgd == 0 || IsRoot(place, mm.pgd))
      modifies this
      ensures Valid() && Grown(old(mem), old(place), mem, place)
      ensures !create ==> mem == old(mem) && place == old(place) && frames == old(frames)
      ensures pte.Some? ==> mm.pgd != 0 && Leaf(mem, mm.pgd, vaddr) == Some(pte.value.0) && pte.value.1 == Index(vaddr, 1)
      ensures pte.None? ==> mm.pgd == 0 || Leaf(mem, mm.pgd, vaddr).None?
      ensures pte.None? && create ==> mm.pgd == 0 || frames == []
      ensures old(frames) == [] ==> frames == []
    {
      hide Grown, Valid, Present, Base, Index, Ent;
      GrownSelf(mem, place);
      if mm.pgd == 0 {
        return None;
      }
      var pdpt := Descend(mm.pgd, Index(vaddr, 4), create);
      DownIs(mem, mm.pgd, vaddr, 4);
      if pdpt.None? {
        NoLeaf(mem, mm.pgd, vaddr);
        return None;
      }
      ghost var m1, g1 := mem, place;
      var pd := Descend(pdpt.value, Index(vaddr, 3), create);
      GrownTwice(old(mem), old(place), m1, g1, mem, place);
      DownStays(m1, g1, mem, place, mm.pgd, vaddr, 4);
      DownIs(mem, pdpt.value, vaddr, 3);
      if pd.None? {
        NoLeaf(mem, mm.pgd, vaddr);
        return None;
      }
      ghost var m2, g2 := mem, place;
      var pt := Descend(pd.value, Index(vaddr, 2), create);
      GrownTwice(old(mem), old(place), m2, g2, mem, place);
      DownStays(m2, g2, mem, place, mm.pgd, vaddr, 4);
      DownStays(m2, g2, mem, place, pdpt.value, vaddr, 3);
      DownIs(mem, pd.value, vaddr, 2);
      if pt.None? {
        NoLeaf(mem, mm.pgd, vaddr);
        return None;
      }
      return Some((pt.value, Index(vaddr, 1)));
    }

    // One turn of the loop of vmm_map_page.
    method MapOne(mm: AddressSpace, v: Word, p: Word, prot: Word, offset: Word, ghost m: Memory, ghost g: map<Word, Place>, ghost n: nat)
        returns (ok: bool)
      requires Valid() && IsRoot(g, mm.pgd) && mm.pgd != 0 && v % PAGE == 0 && offset == n * PAGE
      requires Progress(m, g, mem, place, mm.pgd, v, p, prot, n)
      modifies this, mm`totalVm, mm`residentPages
      ensures Valid() && Progress(m, g, mem, place, mm.pgd, v, p, prot, if ok then n + 1 else n)
      ensures mm.totalVm == old(mm.totalVm) + (if ok then PAGE else 0) && mm.residentPages == old(mm.residentPages) + (if ok then 1 else 0)
      ensures (!ok || old(frames) == []) ==> frames == []
    {
      hide Progress, Shaped, Stocked, Grown, Pte, Leaf, Index, Set;
      ProgressRoot(m, g, mem, place, mm.pgd, v, p, prot, n);
      var va, pa := (v + offset) % WORD, (p + offset) % WORD;
      ghost var m1, g1 := mem, place;
      var pte := Walk(mm, va, true);
      ProgressGrown(m, g, m1, g1, mem, place, mm.pgd, v, p, prot, n);
      if pte.None? {
        return false;
      }
      ProgressStep(m, g, mem, place, mm.pgd, v, p, prot, n);
      SetKeys(mem, pte.value.0, pte.value.1, Pte(pa, prot));
      mem := Set(mem, pte.value.0, pte.value.1, Pte(pa, prot));
      ProgressRoot(m, g, mem, place, mm.pgd, v, p, prot, n + 1);
      mm.totalVm := mm.totalVm + PAGE;
      mm.residentPages := mm.residentPages + 1;
      ok := true;
    }

    lemma NoProgress(s: Word, v: Word, p: Word, prot: Word)
      requires Valid()
      ensures Progress(mem, place, mem, place, s, v, p, prot, 0)
    {
    }

    // vmm_map_page. n pages were mapped: all of the range, or as many as the
    // supply of frames allowed.
    method MapPage(mm: AddressSpace, vaddr: Word, paddr: Word, size: Word, prot: Word) returns (ret: Outcome, ghost n: nat)
      requires Valid() && (mm.pgd == 0 || IsRoot(place, mm.pgd)) && prot < 0x1_0000_0000
      modifies this, mm`totalVm, mm`residentPages
      ensures Valid() && (ret == Invalid <==> mm.pgd == 0)
      ensures mm.pgd == 0 ==> n == 0 && mem == old(mem) && place == old(place)
      ensures mm.pgd != 0 ==> Progress(old(mem), old(place), mem, place, mm.pgd, AlignDown(vaddr), AlignDown(paddr), prot, n)
      ensures n * PAGE <= AlignUp(size) && (ret == Ok ==> n * PAGE == AlignUp(size))
      ensures ret == Ok ==> if size + 4095 < WORD then size <= n * 4096 < size + 4096 else n == 0
      ensures ret == NoMemory ==> n * PAGE < AlignUp(size) && frames == []
      ensures old(frames) == [] ==> frames == []
      ensures mm.totalVm == old(mm.totalVm) + n * PAGE && mm.residentPages == old(mm.residentPages) + n
    {
      n := 0;
      if mm.pgd == 0 {
        return Invalid, 0;
      }
      var v, p, length := AlignDown(vaddr), AlignDown(paddr), AlignUp(size);
      var offset := 0;
      NoProgress(mm.pgd, v, p, prot);
      ghost var m, g := mem, place;
      assert v % PAGE == 0 && length % PAGE == 0;
      hide Shaped, Progress, AlignDown, AlignUp;
      while offset < length
        invariant offset == n * PAGE && offset <= length
        invariant Valid() && Progress(m, g, mem, place, mm.pgd, v, p, prot, n) && (old(frames) == [] ==> frames == [])
        invariant mm.totalVm == old(mm.totalVm) + offset && mm.residentPages == old(mm.residentPages) + n
      {
        var ok := MapOne(mm, v, p, prot, offset, m, g, n);
        if !ok {
          return NoMemory, n;
        }
        offset, n := offset + PAGE, n + 1;
      }
      ret := Ok;
    }

    // vmm_virt_to_phys
    method VirtToPhys(mm: AddressSpace, vaddr: Word) returns (pa: Word)
      requires Valid() && (mm.pgd == 0 || IsRoot(place, mm.pgd))
      modifies this
      ensures Valid() && mem == old(mem) && place == old(place) && frames == old(frames)
      ensures pa == if mm.pgd == 0 then 0 else Translate(mem, mm.pgd, vaddr)
      ensures mm.pgd != 0 ==> var e := Entry(mem, mm.pgd, vaddr); pa == if e % 2 == 0 then 0 else e / 4096 * 4096 + vaddr % 4096
    {
      var pte := Walk(mm, vaddr, false);
      if pte.None? || !Present(Ent(mem, pte.value.0, pte.value.1)) {
        return 0;
      }
      pa := FrameAt(Ent(mem, pte.value.0, pte.value.1), vaddr);
    }

    // (*pte & ~VMM_PAGE_MASK) | vmm_page_offset(vaddr)
    function FrameAt(e: Word, vaddr: Word): (pa: Word)
      ensures pa == Base(e) + vaddr % PAGE
    {
      PteAdds(Base(e), vaddr % PAGE);
      Pte(Base(e), vaddr % PAGE)
    }

    // vmm_create_page_tables
    method CreatePageTables(mm: AddressSpace) returns (ret: Outcome)
      requires Valid()
      modifies this, mm`pgd
      ensures Valid()
      ensures ret == if old(frames) == [] then NoMemory else Ok
      ensures ret == NoMemory ==> mem == old(mem) && place == old(place) && mm.pgd == old(mm.pgd)
      ensures ret == Ok ==> mm.pgd != 0 && mm.pgd !in old(mem) && mm.pgd % PAGE == 0
      ensures ret == Ok ==> mem == old(mem)[mm.pgd := map[]] && place == old(place)[mm.pgd := Top]
    {
      var page := AllocPage();
      if page.None? {
        return NoMemory;
      }
      mm.pgd := page.value;
      mem := mem[page.value := map[]];
      place := place[page.value := Top];
      forall h <- place, j: nat | Level(place[h]) > 1 ensures LinkOk(mem, place, h, j, Ent(mem, h, j)) {
        assert h != page.value ==> LinkOk(old(mem), old(place), h, j, Ent(old(mem), h, j));
      }
      ret := Ok;
    }

    // vmm_create_address_space: the new space translates as the kernel does,
    // through the kernel's own second-level tables.
    method CreateAddressSpace(kernel: AddressSpace) returns (mm: Option<AddressSpace>)
      requires Valid() && IsRoot(place, kernel.pgd)
      modifies this
      ensures Valid()
      ensures mm.None? <==> old(frames) == []
      ensures mm.None? ==> mem == old(mem) && place == old(place)
      ensures mm.Some? ==> fresh(mm.value) && mm.value.pgd != 0 && mm.value.pgd !in old(place) && IsRoot(place, mm.value.pgd) && place == old(place)[mm.value.pgd := Top]
      ensures mm.Some? ==> LinksStay(old(mem), old(place), mem) && Same(old(mem), old(place), mem) && SameShares(old(mem), old(place), mem)
      ensures mm.Some? ==> forall a: Word :: Translate(mem, mm.value.pgd, a) == Translate(mem, kernel.pgd, a) == Translate(old(mem), kernel.pgd, a)
      ensures mm.Some? ==> forall j: nat :: Shared(mem, mm.value.pgd, kernel.pgd, j) <==> old(Ent(mem, kernel.pgd, j)) != 0
    {
      var space := new AddressSpace();
      var ret := CreatePageTables(space);
      if ret != Ok {
        return None;
      }
      CopyRoot(old(mem), old(place), kernel.pgd, space.pgd);
      mem := mem[space.pgd := mem[kernel.pgd]];
      assert mem == old(mem)[space.pgd := old(mem)[kernel.pgd]];
      mm := Some(space);
    }

    // Any run of mappings, in any order, made by a space and the kernel it was
    // copied from. In a shared slot both see every mapping, in any other each
    // sees its own and no more. done: how many pages each call mapped, all of
    // its range unless memory ran out.
    method Run(kernel: AddressSpace, child: AddressSpace, calls: seq<Call>) returns (rets: seq<Outcome>, ghost done: seq<nat>)
      requires Valid() && kernel != child && kernel.pgd != child.pgd && kernel.pgd != 0 && child.pgd != 0
      requires IsRoot(place, kernel.pgd) && IsRoot(place, child.pgd)
      requires forall k :: 0 <= k < |calls| ==> calls[k].prot < 0x1_0000_0000
      modifies this, kernel`totalVm, kernel`residentPages, child`totalVm, child`residentPages
      ensures Valid() && SamePlaces(old(place), place)
      ensures |rets| == |done| == |calls| && forall k :: 0 <= k < |calls| ==> Mapping(rets[k], done[k], calls[k].size, frames)
      ensures forall j: nat :: Shared(mem, kernel.pgd, child.pgd, j) == old(Shared(mem, kernel.pgd, child.pgd, j))
      ensures forall a: Word :: old(Shared(mem, kernel.pgd, child.pgd, Index(a, 4))) ==> Translate(mem, kernel.pgd, a) == Translate(mem, child.pgd, a)
      ensures Follows(old(mem), mem, kernel.pgd, child.pgd, calls, done)
    {
      hide Shaped, Progress, Shared, Laid, AlignUp;
      var x, y := kernel.pgd, child.pgd;
      ghost var m, g := mem, place;
      var k := 0;
      rets, done := [], [];
      FollowsNone(m, x, y);
      while k < |calls|
        invariant 0 <= k <= |calls| && Valid() && SamePlaces(g, place)
        invariant |rets| == |done| == k && forall l :: 0 <= l < k ==> Mapping(rets[l], done[l], calls[l].size, frames)
        invariant forall j: nat :: Shared(mem, x, y, j) == Shared(m, x, y, j)
        invariant Follows(m, mem, x, y, calls[..k], done)
      {
        var c := calls[k];
        ghost var m1, g1 := mem, place;
        var ret, n := MapPage(if c.byChild then child else kernel, c.vaddr, c.paddr, c.size, c.prot);
        RunStep(m, m1, g1, mem, place, x, y, calls[..k], done, c, n);
        assert calls[..k + 1] == calls[..k] + [c];
        rets, done := rets + [ret], done + [n];
        k := k + 1;
      }
      assert calls[..k] == calls;
      forall a: Word | Shared(m, x, y, Index(a, 4)) ensures Translate(mem, x, a) == Translate(mem, y, a) {
        SharersAgree(mem, place, x, y, a);
      }
    }
  }

  // A call mapped all of its range, or stopped short for want of frames.
  ghost predicate Mapping(ret: Outcome, n: nat, size: Word, frames: seq<Word>) {
    match ret
    case Ok => if size + 4095 < WORD then size <= n * 4096 < size + 4096 else n == 0
    case NoMemory => n * 4096 < size && frames == []
    case Invalid => false
  }

  datatype Call = Call(byChild: bool, vaddr: Word, paddr: Word, size: Word, prot: Word)

  // What an entry e of address a has become on one side: each call that reaches
  // it, made by that side or by any side on a shared slot, overwrites it.
  function Laid(e: Word, calls: seq<Call>, done: seq<nat>, byChild: bool, shared: bool, a: Word): Word
    requires |done| == |calls|
    decreases |calls|
  {
    if calls == [] then e else
    var k := |calls| - 1;
    var c := calls[k];
    if (shared || c.byChild == byChild) && Distance(AlignDown(c.vaddr), a) < done[k] then
      Pte((AlignDown(c.paddr) + PAGE * Last(Distance(AlignDown(c.vaddr), a), done[k])) % WORD, c.prot)
    else Laid(e, calls[..k], done[..k], byChild, shared, a)
  }

  // Every address of kernel x and child y has exactly the entry the calls give it.
  ghost predicate Follows(m: Memory, m1: Memory, x: Word, y: Word, calls: seq<Call>, done: seq<nat>) {
    |done| == |calls| &&
    forall a: Word :: Entry(m1, x, a) == Laid(Entry(m, x, a), calls, done, false, Shared(m, x, y, Index(a, 4)), a) &&
                      Entry(m1, y, a) == Laid(Entry(m, y, a), calls, done, true, Shared(m, x, y, Index(a, 4)), a)
  }

  lemma FollowsNone(m: Memory, x: Word, y: Word)
    ensures Follows(m, m, x, y, [], [])
  {
  }

  lemma LaidStep(e: Word, calls: seq<Call>, done: seq<nat>, c: Call, n: nat, byChild: bool, shared: bool, a: Word)
    requires |done| == |calls|
    ensures Laid(e, calls + [c], done + [n], byChild, shared, a) ==
      if (shared || c.byChild == byChild) && Distance(AlignDown(c.vaddr), a) < n then
        Pte((AlignDown(c.paddr) + PAGE * Last(Distance(AlignDown(c.vaddr), a), n)) % WORD, c.prot)
      else Laid(e, calls, done, byChild, shared, a)
  {
    assert (calls + [c])[..|calls|] == calls && (done + [n])[..|calls|] == done;
  }

  lemma RunStep(m: Memory, m1: Memory, g1: map<Word, Place>, m2: Memory, g2: map<Word, Place>, x: Word, y: Word, calls: seq<Call>, done: seq<nat>, c: Call, n: nat)
    requires Shaped(m1, g1) && IsRoot(g1, x) && IsRoot(g1, y) && x != y
    requires Progress(m1, g1, m2, g2, if c.byChild then y else x, AlignDown(c.vaddr), AlignDown(c.paddr), c.prot, n)
    requires forall j: nat :: Shared(m1, x, y, j) == Shared(m, x, y, j)
    requires Follows(m, m1, x, y, calls, done)
    ensures SamePlaces(g1, g2) && forall j: nat :: Shared(m2, x, y, j) == Shared(m, x, y, j)
    ensures Follows(m, m2, x, y, calls + [c], done + [n])
  {
    hide Shaped, Laid, Entry, Pte, Last, Distance;
    forall a: Word ensures
      Entry(m2, x, a) == Laid(Entry(m, x, a), calls + [c], done + [n], false, Shared(m, x, y, Index(a, 4)), a) &&
      Entry(m2, y, a) == Laid(Entry(m, y, a), calls + [c], done + [n], true, Shared(m, x, y, Index(a, 4)), a) {
      var sh := Shared(m1, x, y, Index(a, 4));
      LaidStep(Entry(m, x, a), calls, done, c, n, false, sh, a);
      LaidStep(Entry(m, y, a), calls, done, c, n, true, sh, a);
      StepEntry(m1, g1, m2, g2, x, y, c, n, a);
    }
  }

  // One call and either side.
  lemma StepEntry(m1: Memory, g1: map<Word, Place>, m2: Memory, g2: map<Word, Place>, x: Word, y: Word, c: Call, n: nat, a: Word)
    requires Shaped(m1, g1) && IsRoot(g1, x) && IsRoot(g1, y) && x != y
    requires Progress(m1, g1, m2, g2, if c.byChild then y else x, AlignDown(c.vaddr), AlignDown(c.paddr), c.prot, n)
    ensures var (v, p, sh) := (AlignDown(c.vaddr), AlignDown(c.paddr), Shared(m1, x, y, Index(a, 4)));
      (Entry(m2, x, a) == if (sh || !c.byChild) && Distance(v, a) < n then Pte((p + PAGE * Last(Distance(v, a), n)) % WORD, c.prot) else Entry(m1, x, a)) &&
      Entry(m2, y, a) == if (sh || c.byChild) && Distance(v, a) < n then Pte((p + PAGE * Last(Distance(v, a), n)) % WORD, c.prot) else Entry(m1, y, a)
  {
    hide Shaped, Entry, Pte, Last, Distance, AlignDown, LinksStay, SameShares, SamePlaces;
    var s := if c.byChild then y else x;
    ProgressAt(m1, g1, m2, g2, s, AlignDown(c.vaddr), AlignDown(c.paddr), c.prot, n, x, a);
    ProgressAt(m1, g1, m2, g2, s, AlignDown(c.vaddr), AlignDown(c.paddr), c.prot, n, y, a);
  }

  // The calls of one side, and what they mapped.
  function Mine(calls: seq<Call>, byChild: bool): seq<Call> {
    if calls == [] then [] else
    var k := |calls| - 1;
    Mine(calls[..k], byChild) + if calls[k].byChild == byChild then [calls[k]] else []
  }

  function MineDone(calls: seq<Call>, done: seq<nat>, byChild: bool): (r: seq<nat>)
    requires |done| == |calls|
    ensures |r| == |Mine(calls, byChild)|
  {
    if calls == [] then [] else
    var k := |calls| - 1;
    MineDone(calls[..k], done[..k], byChild) + if calls[k].byChild == byChild then [done[k]] else []
  }

  // Privacy: in a slot that is not shared the other side's calls could as well
  // not have been made.
  lemma {:induction false} PrivateRun(e: Word, calls: seq<Call>, done: seq<nat>, byChild: bool, a: Word)
    requires |done| == |calls|
    ensures Laid(e, calls, done, byChild, false, a) == Laid(e, Mine(calls, byChild), MineDone(calls, done, byChild), byChild, false, a)
    decreases |calls|
  {
    hide Laid;
    if calls == [] {
      assert done == [];
    } else {
      var k := |calls| - 1;
      var front, left := calls[..k], done[..k];
      assert calls == front + [calls[k]] && done == left + [done[k]];
      PrivateRun(e, front, left, byChild, a);
      LaidStep(e, front, left, calls[k], done[k], byChild, false, a);
      LaidStep(e, Mine(front, byChild), MineDone(front, left, byChild), calls[k], done[k], byChild, false, a);
      if calls[k].byChild != byChild {
        assert Mine(calls, byChild) == Mine(front, byChild) && MineDone(calls, done, byChild) == MineDone(front, left, byChild);
      }
    }
  }

  // So a side that maps nothing itself translates there as it did.
  lemma {:induction false} Untouched(e: Word, calls: seq<Call>, done: seq<nat>, byChild: bool, a: Word)
    requires |done| == |calls| && forall k :: 0 <= k < |calls| ==> calls[k].byChild != byChild
    ensures Laid(e, calls, done, byChild, false, a) == e
    decreases |calls|
  {
    if calls != [] {
      Untouched(e, calls[..|calls| - 1], done[..|calls| - 1], byChild, a);
    }
  }
}
