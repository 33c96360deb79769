// build_exclude/dns_resolver.c: reading a response and caching its address
// (section 4.1.3 of RFC 1035).
module DnsMessage {
  import opened Wrappers
  import opened DnsName

  const HEADER: nat := 12
  const QUESTION: nat := 4
  const RECORD: nat := 10
  const TYPE_A: nat := 1

  // ntohs
  function Get16(p: Bytes, off: nat): nat
    requires off + 2 <= |p|
  {
    var high: nat, low: nat := p[off], p[off + 1];
    high * 0x100 + low
  }

  // ntohl
  function Get32(p: Bytes, off: nat): nat
    requires off + 4 <= |p|
  {
    Get16(p, off) * 0x1_0000 + Get16(p, off + 2)
  }

  // ---- what a response says

  // The name of a record takes no bytes here; data is its RDATA.
  datatype Answer = Answer(kind: nat, ttl: nat, data: Bytes)

  // A record lies inside the packet behind its name, which ends at e.
  predicate RecordFits(p: Bytes, e: nat) {
    e + RECORD <= |p| && e + RECORD + Get16(p, e + 8) <= |p|
  }

  function RecordOf(p: Bytes, e: nat): Answer
    requires RecordFits(p, e)
  {
    Answer(Get16(p, e), Get32(p, e + 4), p[e + RECORD..e + RECORD + Get16(p, e + 8)])
  }

  function RecordEnd(p: Bytes, e: nat): (r: nat)
    requires RecordFits(p, e)
  {
    e + RECORD + Get16(p, e + 8)
  }

  // n records from off on, every name whole and of at most 255 bytes.
  predicate AnswersAt(p: Bytes, off: nat, n: nat)
    decreases n
  {
    n == 0 || (NameAt(p, off) && |NameText(p, off)| <= 255 && RecordFits(p, NameEnd(p, off)) && AnswersAt(p, RecordEnd(p, NameEnd(p, off)), n - 1))
  }

  function AnswerList(p: Bytes, off: nat, n: nat): (r: seq<Answer>)
    requires AnswersAt(p, off, n)
    ensures |r| == n
    decreases n
  {
    if n == 0 then [] else [RecordOf(p, NameEnd(p, off))] + AnswerList(p, RecordEnd(p, NameEnd(p, off)), n - 1)
  }

  // A header, one question and the answers it announces.
  predicate WellFormed(p: Bytes) {
    HEADER <= |p| < 0x1_0000 && NameAt(p, HEADER) && |NameText(p, HEADER)| <= 255 &&
    AnswersAt(p, NameEnd(p, HEADER) + QUESTION, Get16(p, 6))
  }

  function Answers(p: Bytes): seq<Answer>
    requires WellFormed(p)
  {
    AnswerList(p, NameEnd(p, HEADER) + QUESTION, Get16(p, 6))
  }

  predicate IsAddress(a: Answer) {
    a.kind == TYPE_A && |a.data| == 4
  }

  function FirstAddress(s: seq<Answer>): (r: Option<Answer>)
    ensures r.Some? ==> r.value in s && IsAddress(r.value)
    ensures r.None? ==> forall a <- s :: !IsAddress(a)
  {
    if s == [] then None else if IsAddress(s[0]) then Some(s[0]) else FirstAddress(s[1..])
  }

  // It is the first one.
  lemma {:induction false} FirstIsFirst(s: seq<Answer>, k: nat)
    requires k < |s| && s[k].kind == 1 && |s[k].data| == 4 && forall j :: 0 <= j < k ==> s[j].kind != 1 || |s[j].data| != 4
    ensures FirstAddress(s) == Some(s[k])
  {
    if k > 0 { FirstIsFirst(s[1..], k - 1); }
  }

  // The RCODE of the flags.
  function Rcode(p: Bytes): nat
    requires |p| >= HEADER
  {
    Get16(p, 2) % 0x10
  }

  // ---- building the answers

  function Put16(v: nat): Bytes
    requires v < 0x1_0000
  {
    [v / 0x100, v % 0x100]
  }

  // Numbers stand with the high byte first.
  lemma NetworkOrder()
    ensures Put16(0x1234) == [0x12, 0x34] && Get16([0x12, 0x34], 0) == 0x1234 && Get32([1, 2, 3, 4], 0) == 0x0102_0304
  {
  }

  predicate Fits(a: Answer) {
    a.kind < 0x1_0000 && a.ttl < 0x1_0000_0000 && |a.data| < 0x1_0000
  }

  // A record of class IN behind its name.
  function Record(name: Bytes, a: Answer): Bytes
    requires Fits(a)
  {
    name + Put16(a.kind) + Put16(1) + Put16(a.ttl / 0x1_0000) + Put16(a.ttl % 0x1_0000) + Put16(|a.data|) + a.data
  }

  function Section(names: seq<Bytes>, answers: seq<Answer>): Bytes
    requires |names| == |answers| && forall a <- answers :: Fits(a)
  {
    if names == [] then [] else Record(names[0], answers[0]) + Section(names[1..], answers[1..])
  }

  // The names stand whole where the section puts them: plain, or as a pointer to
  // a plain name anywhere in the packet.
  ghost predicate NamesStand(p: Bytes, off: nat, names: seq<Bytes>, answers: seq<Answer>)
    requires |names| == |answers|
    decreases |names|
  {
    names == [] || (
      NameAt(p, off) && NameEnd(p, off) == off + |names[0]| && |NameText(p, off)| <= 255 &&
      NamesStand(p, off + |names[0]| + RECORD + |answers[0].data|, names[1..], answers[1..]))
  }

  // The fields of a behind its name, which ends at e.
  ghost predicate RecordAt(p: Bytes, e: nat, a: Answer) {
    RecordFits(p, e) && RecordOf(p, e) == a
  }

  lemma RecordBytes(name: Bytes, a: Answer, p: Bytes, off: nat)
    requires Fits(a) && Holds(p, off, Record(name, a))
    ensures |Record(name, a)| == |name| + RECORD + |a.data|
    ensures RecordAt(p, off + |name|, a)
  {
    var w, n := Record(name, a), |name|;
    assert p[off + (n + 0)] == w[n + 0] && p[off + (n + 1)] == w[n + 1];
    assert p[off + (n + 4)] == w[n + 4] && p[off + (n + 5)] == w[n + 5] && p[off + (n + 6)] == w[n + 6] && p[off + (n + 7)] == w[n + 7];
    assert p[off + (n + 8)] == w[n + 8] && p[off + (n + 9)] == w[n + 9];
    forall k: nat | k < |a.data| ensures p[off + n + RECORD + k] == a.data[k] {
      assert p[off + (n + RECORD + k)] == w[n + RECORD + k];
    }
  }

  // The n records at off are the answers s.
  ghost predicate ListedAt(p: Bytes, off: nat, n: nat, s: seq<Answer>) {
    AnswersAt(p, off, n) && AnswerList(p, off, n) == s
  }

  // What was put in a section is what is read out of it.
  lemma {:induction false} SectionReads(names: seq<Bytes>, answers: seq<Answer>, p: Bytes, off: nat)
    requires |names| == |answers| && (forall a <- answers :: Fits(a))
    requires Holds(p, off, Section(names, answers)) && NamesStand(p, off, names, answers)
    ensures ListedAt(p, off, |answers|, answers)
  {
    hide Record, NameEnd, NameText, NameAt, Get16, Get32, ListedAt, Holds;
    if names == [] {
      NoAnswers(p, off);
    } else {
      var r, rest := Record(names[0], answers[0]), Section(names[1..], answers[1..]);
      HoldsParts(p, off, r, rest);
      RecordBytes(names[0], answers[0], p, off);
      SectionReads(names[1..], answers[1..], p, off + |r|);
      AnswersStep(p, off, off + |names[0]|, |answers|, answers[0], answers[1..]);
      assert answers == [answers[0]] + answers[1..];
    }
  }

  lemma NoAnswers(p: Bytes, off: nat)
    ensures ListedAt(p, off, 0, [])
  {
  }

  lemma AnswersStep(p: Bytes, off: nat, e: nat, n: nat, a: Answer, rest: seq<Answer>)
    requires n > 0 && NameAt(p, off) && |NameText(p, off)| <= 255 && NameEnd(p, off) == e && RecordAt(p, e, a)
    requires ListedAt(p, e + RECORD + |a.data|, n - 1, rest)
    ensures ListedAt(p, off, n, [a] + rest)
  {
    hide PlainAt, NameAt, NameEnd, NameText, Get16, Get32;
  }

  lemma HoldsParts(p: Bytes, off: nat, a: Bytes, b: Bytes)
    requires Holds(p, off, a + b)
    ensures Holds(p, off, a) && Holds(p, off + |a|, b)
  {
    forall k: nat | k < |a| ensures p[off + k] == a[k] {
      assert p[off + k] == (a + b)[k];
    }
    forall k: nat | k < |b| ensures p[off + |a| + k] == b[k] {
      assert p[off + (|a| + k)] == (a + b)[|a| + k];
    }
  }

  // The six fields of a header.
  function Header(id: nat, flags: nat, questions: nat, answers: nat, authorities: nat, additional: nat): Bytes
    requires id < 0x1_0000 && flags < 0x1_0000 && questions < 0x1_0000 && answers < 0x1_0000 && authorities < 0x1_0000 && additional < 0x1_0000
  {
    Put16(id) + Put16(flags) + Put16(questions) + Put16(answers) + Put16(authorities) + Put16(additional)
  }

  // RCODE is the low four bits of the flags, whatever QR and the others are.
  lemma HeaderReads(p: Bytes, id: nat, flags: nat, questions: nat, answers: nat, authorities: nat, additional: nat)
    requires id < 0x1_0000 && flags < 0x1_0000 && questions < 0x1_0000 && answers < 0x1_0000 && authorities < 0x1_0000 && additional < 0x1_0000
    requires Holds(p, 0, Header(id, flags, questions, answers, authorities, additional))
    ensures |p| >= 12 && Get16(p, 6) == answers && Rcode(p) == flags % 16
  {
    var w := Header(id, flags, questions, answers, authorities, additional);
    assert |w| == 12 && w[2] == flags / 0x100 && w[3] == flags % 0x100 && w[6] == answers / 0x100 && w[7] == answers % 0x100;
    assert p[0 + 2] == w[2] && p[0 + 3] == w[3] && p[0 + 6] == w[6] && p[0 + 7] == w[7];
  }

  // A response put together from its header, one question and its answers is
  // read as just that.
  lemma BuiltResponse(p: Bytes, id: nat, flags: nat, authorities: nat, additional: nat, names: seq<Bytes>, answers: seq<Answer>)
    requires id < 0x1_0000 && flags < 0x1_0000 && |answers| < 0x1_0000 && authorities < 0x1_0000 && additional < 0x1_0000 && |p| < 0x1_0000
    requires |names| == |answers| && (forall a <- answers :: Fits(a))
    requires Holds(p, 0, Header(id, flags, 1, |answers|, authorities, additional)) && NameAt(p, 12) && |NameText(p, 12)| <= 255
    requires Holds(p, NameEnd(p, 12) + 4, Section(names, answers)) && NamesStand(p, NameEnd(p, 12) + 4, names, answers)
    ensures |p| >= 12 && Rcode(p) == flags % 16 && Get16(p, 6) == |answers| && WellFormed(p) && Answers(p) == answers
  {
    hide Header, Section, Holds, NamesStand, NameAt, NameText, NameEnd, Get16, AnswersAt, AnswerList, Rcode;
    HeaderReads(p, id, flags, 1, |answers|, authorities, additional);
    SectionReads(names, answers, p, NameEnd(p, 12) + 4);
  }

  // ---- the cache of addresses, as the items on its list

  const MAX_HOST: nat := 255

  datatype Item = Item(host: Bytes, ip: Bytes, ttl: nat, time: nat)

  // The 32-bit sum wraps.
  predicate Expired(i: Item, now: nat) {
    now >= (i.time + i.ttl) % 0x1_0000_0000
  }

  // An entry is over once its time and ttl are, in 32 bits.
  lemma ExpiredIs(i: Item, now: nat)
    requires i.time < 0x1_0000_0000 && i.ttl < 0x1_0000_0000
    ensures Expired(i, now) <==> i.time + i.ttl <= now || 0x1_0000_0000 <= i.time + i.ttl <= now + 0x1_0000_0000
  {
  }

  function Alive(items: seq<Item>, now: nat): seq<Item> {
    if items == [] then [] else (if Expired(items[0], now) then [] else [items[0]]) + Alive(items[1..], now)
  }

  function Find(items: seq<Item>, host: Bytes): (r: Option<nat>)
    ensures r.Some? ==> r.value < |items| && items[r.value].host == host
    ensures r.None? ==> forall i <- items :: i.host != host
  {
    if items == [] then None
    else if items[0].host == host then Some(0)
    else match Find(items[1..], host) case None => None case Some(k) => Some(k + 1)
  }

  function Short(host: Bytes): Bytes {
    if |host| > MAX_HOST then host[..MAX_HOST] else host
  }

  // dns_cache_add
  function Added(items: seq<Item>, host: Bytes, ip: Bytes, ttl: nat, now: nat, allocOk: bool, max: nat): seq<Item> {
    match Find(items, host)
    case Some(k) => items[k := Item(items[k].host, ip, ttl, now)]
    case None =>
      var rest := if |items| >= max then Alive(items, now) else items;
      if allocOk then [Item(Short(host), ip, ttl, now)] + rest else rest
  }

  function Looked(items: seq<Item>, host: Bytes): Option<Item> {
    match Find(items, host) case None => None case Some(k) => Some(items[k])
  }

  // One item per host, and hosts as they are stored.
  ghost predicate Unique(items: seq<Item>) {
    (forall i <- items :: |i.host| <= MAX_HOST) && forall a, b :: 0 <= a < b < |items| ==> items[a].host != items[b].host
  }

  lemma {:induction false} AliveItems(items: seq<Item>, now: nat)
    ensures forall i :: i in Alive(items, now) <==> i in items && !Expired(i, now)
    ensures |Alive(items, now)| <= |items| && (|Alive(items, now)| == |items| <==> forall i <- items :: !Expired(i, now))
  {
    if items != [] { AliveItems(items[1..], now); }
  }

  lemma {:induction false} AliveUnique(items: seq<Item>, now: nat)
    requires Unique(items)
    ensures Unique(Alive(items, now))
  {
    if items != [] {
      AliveUnique(items[1..], now);
      AliveItems(items[1..], now);
      forall i <- items[1..] ensures i.host != items[0].host {
      }
    }
  }

  lemma UniqueFind(items: seq<Item>, i: Item)
    requires Unique(items) && i in items
    ensures Looked(items, i.host) == Some(i)
  {
    var k :| 0 <= k < |items| && items[k] == i;
  }

  // What is left of another item when room was made for a new host.
  function Kept(items: seq<Item>, host: Bytes, other: Bytes, now: nat, max: nat): Option<Item> {
    var i := Looked(items, other);
    if Find(items, host).None? && |items| >= max && i.Some? && Expired(i.value, now) then None else i
  }

  // What adding does to every lookup: the host gets its new address, exactly
  // when its name fits an entry; any other keeps its item, unless the cache was
  // full and the item had expired.
  lemma AddLookup(items: seq<Item>, host: Bytes, ip: Bytes, ttl: nat, now: nat, max: nat, other: Bytes)
    requires Unique(items)
    ensures var r := Added(items, host, ip, ttl, now, true, max);
      Looked(r, host) == (if |host| <= 255 then Some(Item(host, ip, ttl, now)) else None) &&
      (|host| <= 255 ==> Unique(r)) &&
      (|host| > 255 ==> Looked(r, host[..255]) == Some(Item(host[..255], ip, ttl, now))) &&
      (other != host && other != Short(host) ==> Looked(r, other) == Kept(items, host, other, now, max))
  {
    var r := Added(items, host, ip, ttl, now, true, max);
    if Find(items, host).Some? {
      UpdateUnique(items, Find(items, host).value, ip, ttl, now, other);
    } else {
      var rest := if |items| >= max then Alive(items, now) else items;
      RestKept(items, host, now, max, other);
      FrontLooked(rest, Item(Short(host), ip, ttl, now), host, other);
    }
  }

  lemma RestKept(items: seq<Item>, host: Bytes, now: nat, max: nat, other: Bytes)
    requires Unique(items) && Find(items, host).None?
    ensures var rest := if |items| >= max then Alive(items, now) else items;
      Unique(rest) && Find(rest, host).None? && Looked(rest, other) == Kept(items, host, other, now, max)
  {
    AliveItems(items, now);
    AliveUnique(items, now);
    AliveLooked(items, now, other);
  }

  lemma FrontLooked(rest: seq<Item>, i: Item, host: Bytes, other: Bytes)
    requires Unique(rest) && Find(rest, host).None? && i.host == Short(host)
    ensures Looked([i] + rest, host) == (if |host| <= MAX_HOST then Some(i) else None) && Looked([i] + rest, i.host) == Some(i)
    ensures |host| <= MAX_HOST ==> Unique([i] + rest)
    ensures other != i.host ==> Looked([i] + rest, other) == Looked(rest, other)
  {
    var r := [i] + rest;
    assert r[1..] == rest && r[0] == i;
    if |host| <= MAX_HOST {
      assert forall a :: 1 <= a < |r| ==> r[a] in rest;
    }
  }

  lemma UpdateUnique(items: seq<Item>, k: nat, ip: Bytes, ttl: nat, now: nat, other: Bytes)
    requires Unique(items) && k < |items|
    ensures var r := items[k := Item(items[k].host, ip, ttl, now)];
      Unique(r) && Looked(r, items[k].host) == Some(r[k]) && (other != items[k].host ==> Looked(r, other) == Looked(items, other))
  {
    var r := items[k := Item(items[k].host, ip, ttl, now)];
    assert r[k] in r;
    UniqueFind(r, r[k]);
    var f := Find(items, other);
    if f.Some? && other != items[k].host {
      assert r[f.value] == items[f.value] && r[f.value] in r;
      UniqueFind(r, r[f.value]);
    }
  }

  lemma AliveLooked(items: seq<Item>, now: nat, other: Bytes)
    requires Unique(items)
    ensures Looked(Alive(items, now), other) ==
      if Looked(items, other).Some? && Expired(Looked(items, other).value, now) then None else Looked(items, other)
  {
    AliveItems(items, now);
    AliveUnique(items, now);
    var f, g := Looked(items, other), Looked(Alive(items, now), other);
    if f.Some? && !Expired(f.value, now) {
      UniqueFind(Alive(items, now), f.value);
    }
    if g.Some? {
      UniqueFind(items, g.value);
    }
  }

  // The limit on the cache holds exactly as long as there is room or something
  // has expired.
  lemma SizeKept(items: seq<Item>, host: Bytes, ip: Bytes, ttl: nat, now: nat, max: nat)
    requires Find(items, host).None? && |items| <= max
    ensures |Added(items, host, ip, ttl, now, true, max)| <= max <==> |items| < max || exists i <- items :: Expired(i, now)
  {
    AliveItems(items, now);
  }

  // ---- the resolver

  class CacheEntry {
    const hostname: Bytes
    var ip: Bytes
    var ttl: nat
    var timestamp: nat
    var next: CacheEntry?

    constructor (hostname: Bytes, ip: Bytes, ttl: nat, timestamp: nat, next: CacheEntry?)
      ensures this.hostname == hostname && this.ip == ip && this.ttl == ttl && this.timestamp == timestamp && this.next == next
    {
      this.hostname, this.ip, this.ttl, this.timestamp, this.next := hostname, ip, ttl, timestamp, next;
    }

    ghost function Get(): Item
      reads this`ip, this`ttl, this`timestamp
    {
      Item(hostname, ip, ttl, timestamp)
    }
  }

  ghost function At(s: seq<CacheEntry>, i: int): CacheEntry? {
    if 0 <= i < |s| then s[i] else null
  }

  ghost function Items(s: seq<CacheEntry>): (r: seq<Item>)
    reads s`ip, s`ttl, s`timestamp
    ensures |r| == |s| && forall i :: 0 <= i < |s| ==> r[i] == s[i].Get()
  {
    if s == [] then [] else [s[0].Get()] + Items(s[1..])
  }

  // s[i..] hangs on first, each entry on the one before.
  ghost predicate Chained(first: CacheEntry?, s: seq<CacheEntry>)
    reads s`next
  {
    (forall i, j :: 0 <= i < j < |s| ==> s[i] != s[j]) && first == At(s, 0) &&
    forall i: nat {:trigger s[i].next} :: i < |s| ==> s[i].next == At(s, i + 1)
  }

  class Resolver {
    var cache: CacheEntry?
    var cacheSize: nat
    const maxCacheSize: nat
    ghost var list: seq<CacheEntry>

    ghost predicate Valid()
      reads this, list
    {
      Chained(cache, list) && cacheSize == |list|
    }

    constructor (maxCacheSize: nat)
      ensures Valid() && list == [] && this.maxCacheSize == maxCacheSize
    {
      cache, cacheSize, list := null, 0, [];
      this.maxCacheSize := maxCacheSize;
    }

    // dns_cache_lookup
    method CacheLookup(hostname: Bytes) returns (entry: CacheEntry?)
      requires Valid()
      ensures entry == match Find(Items(list), hostname) case None => null case Some(k) => list[k]
    {
      hide Find;
      entry := cache;
      ghost var k: nat := 0;
      while entry != null
        invariant k <= |list| && entry == At(list, k)
        invariant forall j :: 0 <= j < k ==> list[j].hostname != hostname
        decreases |list| - k
      {
        NextIs(k);
        if entry.hostname == hostname {
          FindFirst(Items(list), hostname, k);
          return;
        }
        entry, k := entry.next, k + 1;
      }
      FindNone(Items(list), hostname);
    }

    lemma NextIs(i: nat)
      requires Valid() && i < |list|
      ensures list[i].next == At(list, i + 1)
    {
    }

    // Taking the entry behind prev off the list, or the first one.
    method RemoveAfter(prev: CacheEntry?, entry: CacheEntry, ghost i: nat)
      requires Valid() && i < |list| && list[i] == entry && prev == At(list, i - 1)
      modifies this`cache, this`cacheSize, this`list, (if prev == null then {} else {prev})`next
      ensures Valid() && list == old(list)[..i] + old(list)[i + 1..]
    {
      if prev == null {
        cache := entry.next;
      } else {
        prev.next := entry.next;
      }
      cacheSize := cacheSize - 1;
      list := list[..i] + list[i + 1..];
      assert forall j: nat :: j < |list| ==> list[j] == old(list)[if j < i then j else j + 1];
    }

    lemma HeadIs()
      requires Valid()
      ensures cache == At(list, 0) && forall e <- list :: e in list
    {
    }

    // dns_cache_cleanup takes out exactly the expired entries. prev is the entry
    // the source's pointer to a pointer lies in.
    method CacheCleanup(now: nat)
      requires Valid()
      modifies this`cache, this`cacheSize, this`list, list`next
      ensures Valid() && Items(list) == Alive(old(Items(list)), now) && forall e <- list :: e in old(list)
    {
      hide Alive, Items, Swept, Chained, At;
      ghost var s, g := list, map e <- list :: e.Get();
      ghost var k: nat := 0;
      ghost var kept: seq<CacheEntry> := [];
      var prev: CacheEntry? := null;
      var entry := cache;
      HeadIs();
      SweptStart(s, g, now);
      while entry != null
        invariant k <= |s| && list == kept + s[k..] && Valid() && Swept(kept, s, k, g, now)
        invariant entry == At(s, k) && prev == At(kept, |kept| - 1) && (prev == null || prev in s)
        invariant forall e <- s :: e.Get() == g[e]
        decreases |s| - k
      {
        SweptAt(kept, s, k, g, now);
        NextIs(|kept|);
        var next := entry.next;
        prev, kept := SweepOne(prev, entry, now, kept, s, k);
        k, entry := k + 1, next;
      }
      SweptEnd(kept, s, k, g, now);
      SweptItems(list, old(list), g, now);
    }

    // One turn of the loop of dns_cache_cleanup.
    method SweepOne(prev: CacheEntry?, entry: CacheEntry, now: nat, ghost kept: seq<CacheEntry>, ghost s: seq<CacheEntry>, ghost k: nat)
        returns (last: CacheEntry?, ghost stay: seq<CacheEntry>)
      requires Valid() && k < |s| && entry == s[k] && list == kept + s[k..] && prev == At(kept, |kept| - 1)
      modifies this`cache, this`cacheSize, this`list, (if prev == null then {} else {prev})`next
      ensures Valid() && stay == (if Expired(entry.Get(), now) then kept else kept + [entry])
      ensures list == stay + s[k + 1..] && last == At(stay, |stay| - 1) && (last == prev || last == entry)
    {
      hide Chained;
      Middle(kept, s, k);
      if now >= (entry.timestamp + entry.ttl) % 0x1_0000_0000 {
        RemoveAfter(prev, entry, |kept|);
        last, stay := prev, kept;
      } else {
        last, stay := entry, kept + [entry];
      }
    }

    // The values have not changed; list holds the live entries of s.
    lemma SweptItems(kept: seq<CacheEntry>, s: seq<CacheEntry>, g: map<CacheEntry, Item>, now: nat)
      requires (forall e <- s :: e in g && e.Get() == g[e]) && (forall e <- kept :: e in s) && Values(kept, g) == Alive(Values(s, g), now)
      ensures Items(kept) == Alive(Items(s), now)
    {
      ItemsAre(kept, Values(kept, g));
      ItemsAre(s, Values(s, g));
    }

    // dns_cache_add
    method CacheAdd(hostname: Bytes, ip: Bytes, ttl: nat, now: nat, allocOk: bool)
      requires Valid()
      modifies this`cache, this`cacheSize, this`list, list
      ensures Valid() && Items(list) == Added(old(Items(list)), hostname, ip, ttl, now, allocOk, maxCacheSize)
    {
      hide Items, Alive, Find, Chained, Short;
      SizeIs();
      var existing := CacheLookup(hostname);
      if existing != null {
        Overwrite(existing, ip, ttl, now, Find(Items(list), hostname).value);
        return;
      }
      if cacheSize >= maxCacheSize {
        CacheCleanup(now);
      }
      if !allocOk {
        return;
      }
      PushFront(hostname, ip, ttl, now);
    }

    lemma SizeIs()
      requires Valid()
      ensures cacheSize == |Items(list)|
    {
    }

    method Overwrite(entry: CacheEntry, ip: Bytes, ttl: nat, now: nat, ghost k: nat)
      requires Valid() && k < |list| && list[k] == entry
      modifies entry`ip, entry`ttl, entry`timestamp
      ensures Valid() && Items(list) == old(Items(list))[k := Item(old(Items(list))[k].host, ip, ttl, now)]
    {
      ghost var vals := Items(list);
      hide Items;
      entry.ip := ip;
      entry.ttl := ttl;
      entry.timestamp := now;
      ItemsAre(list, vals[k := Item(vals[k].host, ip, ttl, now)]);
    }

    // The answer loop of dns_parse_response, from the first record on.
    method FirstRecord(packet: Bytes, first: nat, count: nat) returns (answer: Option<Answer>)
      requires AnswersAt(packet, first, count)
      ensures answer == FirstAddress(AnswerList(packet, first, count))
    {
      hide NameAt, NameEnd, NameText, Get16, Get32, AnswersAt, AnswerList, FirstAddress, FirstAt;
      FirstStart(packet, first, count);
      var name := new Byte[MAX_HOST + 1];
      var off: nat, i: nat := first, 0;
      while i < count
        invariant i <= count && AnswersAt(packet, off, count - i)
        invariant FirstAt(packet, off, count - i) == FirstAt(packet, first, count)
      {
        NextAnswer(packet, off, count - i);
        var end, _ := DecodeName(packet, off, name, MAX_HOST + 1);
        off := end;
        if off + RECORD > |packet| {
          break;
        }
        var kind, size, ttl := Get16(packet, off), Get16(packet, off + 8), Get32(packet, off + 4);
        off := off + RECORD;
        if kind == TYPE_A && size == 4 {
          return Some(Answer(kind, ttl, packet[off..off + size]));
        }
        off, i := off + size, i + 1;
      }
      NoMoreAnswers(packet, off);
      answer := None;
    }

    // dns_parse_response: the address of the first A record with four bytes of
    // data, which also goes into the cache.
    method ParseResponse(packet: Bytes, hostname: Bytes, now: nat, allocOk: bool) returns (ip: Option<Bytes>)
      requires Valid() && (|packet| < HEADER || Rcode(packet) != 0 || Get16(packet, 6) == 0 || WellFormed(packet))
      modifies this`cache, this`cacheSize, this`list, list
      ensures Valid()
      ensures var a := if |packet| < HEADER || Rcode(packet) != 0 || Get16(packet, 6) == 0 then None else FirstAddress(Answers(packet));
        match a
        case None => ip == None && Items(list) == old(Items(list))
        case Some(r) => ip == Some(r.data) && Items(list) == Added(old(Items(list)), hostname, r.data, r.ttl, now, allocOk, maxCacheSize)
    {
      hide NameAt, NameEnd, NameText, Get16, AnswersAt, AnswerList, FirstAddress, Added, Chained, Items;
      if |packet| < HEADER {
        return None;
      }
      if Rcode(packet) != 0 {
        return None;
      }
      var count := Get16(packet, 6);
      if count == 0 {
        return None;
      }
      var name := new Byte[MAX_HOST + 1];
      var end, _ := DecodeName(packet, HEADER, name, MAX_HOST + 1);
      var answer := FirstRecord(packet, end + QUESTION, count);
      if answer.None? {
        return None;
      }
      CacheAdd(hostname, answer.value.data, answer.value.ttl, now, allocOk);
      ip := Some(answer.value.data);
    }

    method PushFront(hostname: Bytes, ip: Bytes, ttl: nat, now: nat)
      requires Valid()
      modifies this`cache, this`cacheSize, this`list
      ensures Valid() && Items(list) == [Item(Short(hostname), ip, ttl, now)] + old(Items(list))
    {
      var entry := new CacheEntry(Short(hostname), ip, ttl, now, cache);
      cache := entry;
      cacheSize := cacheSize + 1;
      list := [entry] + list;
      assert list[1..] == old(list);
    }
  }

  lemma {:induction false} FindFirst(items: seq<Item>, host: Bytes, k: nat)
    requires k < |items| && items[k].host == host && forall j :: 0 <= j < k ==> items[j].host != host
    ensures Find(items, host) == Some(k)
  {
    if k > 0 { FindFirst(items[1..], host, k - 1); }
  }

  lemma FindNone(items: seq<Item>, host: Bytes)
    requires forall j :: 0 <= j < |items| ==> items[j].host != host
    ensures Find(items, host) == None
  {
  }

  ghost function Values(s: seq<CacheEntry>, g: map<CacheEntry, Item>): (r: seq<Item>)
    requires forall e <- s :: e in g
    ensures |r| == |s| && forall i :: 0 <= i < |s| ==> r[i] == g[s[i]]
  {
    seq(|s|, i requires 0 <= i < |s| => g[s[i]])
  }

  // kept are the live ones of the first k of s.
  ghost predicate Swept(kept: seq<CacheEntry>, s: seq<CacheEntry>, k: nat, g: map<CacheEntry, Item>, now: nat) {
    k <= |s| && (forall e <- s :: e in g) && (forall e <- kept :: e in s) && Values(kept, g) == Alive(Values(s, g)[..k], now)
  }

  lemma SweptStart(s: seq<CacheEntry>, g: map<CacheEntry, Item>, now: nat)
    requires forall e <- s :: e in g
    ensures Swept([], s, 0, g, now) && [] + s[0..] == s && At([], -1) == null
  {
    assert Values(s, g)[..0] == [];
  }

  lemma Middle(kept: seq<CacheEntry>, s: seq<CacheEntry>, k: nat)
    requires k < |s|
    ensures var l := kept + s[k..]; |l| > |kept| && l[|kept|] == s[k] && At(l, |kept| + 1) == At(s, k + 1) && At(l, |kept| - 1) == At(kept, |kept| - 1)
    ensures var l := kept + s[k..]; l[..|kept|] + l[|kept| + 1..] == kept + s[k + 1..] && l == (kept + [s[k]]) + s[k + 1..]
    ensures At(kept + [s[k]], |kept|) == s[k]
  {
  }

  lemma SweptAt(kept: seq<CacheEntry>, s: seq<CacheEntry>, k: nat, g: map<CacheEntry, Item>, now: nat)
    requires Swept(kept, s, k, g, now) && At(s, k) != null
    ensures k < |s| && At(s, k) == s[k] && s[k] in s && s[k] in g
    ensures var l := kept + s[k..]; |l| > |kept| && l[|kept|] == s[k] && At(l, |kept| + 1) == At(s, k + 1)
    ensures Expired(g[s[k]], now) ==> Swept(kept, s, k + 1, g, now)
    ensures !Expired(g[s[k]], now) ==> Swept(kept + [s[k]], s, k + 1, g, now)
  {
    AliveSnoc(Values(s, g), k, now);
    assert !Expired(g[s[k]], now) ==> Values(kept + [s[k]], g) == Values(kept, g) + [g[s[k]]];
    hide Alive;
  }

  lemma SweptEnd(kept: seq<CacheEntry>, s: seq<CacheEntry>, k: nat, g: map<CacheEntry, Item>, now: nat)
    requires Swept(kept, s, k, g, now) && At(s, k) == null
    ensures kept + s[k..] == kept && (forall e <- s :: e in g) && (forall e <- kept :: e in s) && Values(kept, g) == Alive(Values(s, g), now)
  {
    assert Values(s, g)[..k] == Values(s, g);
  }

  lemma {:induction false} AliveSnoc(items: seq<Item>, k: nat, now: nat)
    requires k < |items|
    ensures Alive(items[..k + 1], now) == Alive(items[..k], now) + if Expired(items[k], now) then [] else [items[k]]
  {
    if k > 0 {
      assert items[..k + 1][1..] == items[1..][..k] && items[..k][1..] == items[1..][..k - 1];
      AliveSnoc(items[1..], k - 1, now);
    } else {
      assert items[..1][1..] == [];
    }
  }

  lemma ItemsAre(s: seq<CacheEntry>, vals: seq<Item>)
    requires |s| == |vals| && forall j :: 0 <= j < |s| ==> s[j].Get() == vals[j]
    ensures Items(s) == vals
  {
  }

  ghost function FirstAt(p: Bytes, off: nat, n: nat): Option<Answer> {
    if AnswersAt(p, off, n) then FirstAddress(AnswerList(p, off, n)) else None
  }

  // What the loop of dns_parse_response sees of the record at off.
  lemma NextAnswer(p: Bytes, off: nat, n: nat)
    requires AnswersAt(p, off, n) && n > 0
    ensures NameAt(p, off) && |NameText(p, off)| <= MAX_HOST && RecordFits(p, NameEnd(p, off))
    ensures var e := NameEnd(p, off);
      AnswersAt(p, RecordEnd(p, e), n - 1) &&
      FirstAt(p, off, n) == if IsAddress(RecordOf(p, e)) then Some(RecordOf(p, e)) else FirstAt(p, RecordEnd(p, e), n - 1)
  {
    hide NameAt, NameEnd, NameText, PlainAt, RecordOf, RecordEnd, RecordFits;
    var l := AnswerList(p, off, n);
    assert l[1..] == AnswerList(p, RecordEnd(p, NameEnd(p, off)), n - 1);
  }

  lemma FirstStart(p: Bytes, off: nat, n: nat)
    requires AnswersAt(p, off, n)
    ensures FirstAt(p, off, n) == FirstAddress(AnswerList(p, off, n))
  {
    hide AnswersAt, AnswerList, FirstAddress;
  }

  lemma NoMoreAnswers(p: Bytes, off: nat)
    ensures FirstAt(p, off, 0) == None
  {
  }
}
