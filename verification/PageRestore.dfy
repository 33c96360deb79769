// build_exclude/memory_advanced.c: which pages compress_page lets a run-length
// decoder restore. A marker byte written raw sends the decoder out of step; once
// its output lags behind the run it is reading, it never catches up.
module PageRestore {
  import opened PageCompress

  function Run(s: seq<Byte>, a: nat): (n: nat)
    requires a < |s|
    ensures 1 <= n <= 255 && a + n <= |s|
  {
    RunFrom(s, a, 1)
  }

  lemma RunFacts(s: seq<Byte>, a: nat)
    requires a < |s|
    ensures forall k :: a <= k < a + Run(s, a) ==> s[k] == s[a]
    ensures Run(s, a) < 255 && a + Run(s, a) < |s| ==> s[a + Run(s, a)] != s[a]
  {
    RunIsRun(s, a, 1);
  }

  lemma {:induction false} RunIs(s: seq<Byte>, a: nat, count: nat, n: nat)
    requires a < |s| && 1 <= count <= n <= 255 && a + n <= |s| && (forall k :: a <= k < a + n ==> s[k] == s[a])
    requires n < 255 && a + n < |s| ==> s[a + n] != s[a]
    ensures RunFrom(s, a, count) == n
    decreases n - count
  {
    if count < n { RunIs(s, a, count + 1, n); }
  }

  // Inside a short run the rest of it is a run of its own.
  lemma ShortTail(s: seq<Byte>, a: nat)
    requires a < |s| && 1 < Run(s, a) <= 3
    ensures Run(s, a + 1) == Run(s, a) - 1 && s[a + 1] == s[a]
  {
    RunFacts(s, a);
    hide Run;
    RunIs(s, a + 1, 1, Run(s, a) - 1);
    RunNamed(s, a + 1);
  }

  lemma RunNamed(s: seq<Byte>, a: nat)
    requires a < |s|
    ensures Run(s, a) == RunFrom(s, a, 1)
  {
  }

  // A run that is packed has another byte before it than a short run has.
  lemma PackedNext(s: seq<Byte>, a: nat)
    requires a + 1 < |s| && Run(s, a) <= 3 < Run(s, a + 1)
    ensures s[a + 1] != s[a]
  {
    RunFacts(s, a);
    if Run(s, a) > 1 { ShortTail(s, a); }
  }

  // ---- the code of a whole input

  function Coded(s: seq<Byte>, a: nat): seq<Byte>
    requires a <= |s|
    decreases |s| - a
  {
    if a == |s| then []
    else if Run(s, a) > 3 then [MARKER, Run(s, a), s[a]] + Coded(s, a + Run(s, a))
    else [s[a]] + Coded(s, a + 1)
  }

  lemma {:induction false} CodedSize(s: seq<Byte>, a: nat)
    requires a <= |s|
    ensures |Coded(s, a)| <= |s| - a && (|s| - a >= 3 ==> |Coded(s, a)| >= 3)
    decreases |s| - a
  {
    if a < |s| { CodedSize(s, a + if Run(s, a) > 3 then Run(s, a) else 1); }
    if a + 2 < |s| && Run(s, a) <= 3 {
      CodedSize(s, a + 1);
      CodedTwo(s, a + 1);
    }
  }

  lemma CodedTwo(s: seq<Byte>, a: nat)
    requires a + 2 <= |s|
    ensures |Coded(s, a)| >= 2
  {
    if Run(s, a) <= 3 { assert |Coded(s, a + 1)| >= 1; }
  }

  lemma CodedByte(s: seq<Byte>, a: nat)
    requires a < |s| && Run(s, a) <= 3
    ensures Coded(s, a) == [s[a]] + Coded(s, a + 1)
  {
  }

  lemma {:induction false} CodedRun(s: seq<Byte>, a: nat, k: nat)
    requires a < |s| && k <= Run(s, a) <= 3
    ensures Coded(s, a) == Repeat(s[a], k) + Coded(s, a + k)
    decreases k
  {
    hide Coded, Repeat;
    if k == 0 {
      RepeatNone(s[a], Coded(s, a));
    } else {
      CodedByte(s, a);
      RepeatStep(s[a], k, Coded(s, a + k));
      if k > 1 {
        ShortTail(s, a);
        CodedRun(s, a + 1, k - 1);
      } else {
        RepeatNone(s[a], Coded(s, a + 1));
      }
    }
  }

  lemma RepeatNone(b: Byte, rest: seq<Byte>)
    ensures Repeat(b, 0) + rest == rest
  {
  }

  // What the encoder writes is the code of what it has read.
  lemma {:induction false} PackedIsCoded(s: seq<Byte>, i: nat, o: nat)
    requires i <= |s|
    ensures Packed(s, i, o) == Coded(s[..Reached(s, i, o)], i)
    decreases |s| - i
  {
    hide Packed, Chunk, Repeat, Coded;
    var p := s[..Reached(s, i, o)];
    if i < |s| && o < |s| - 1 {
      var n := RunFrom(s, i, 1);
      PackedIsCoded(s, i + n, o + |Chunk(s[i], n)|);
      PackedTurn(s, i, o);
      RunIsRun(s, i, 1);
      RunIs(p, i, 1, n);
      RunNamed(p, i);
      CodedChunk(p, i);
    } else {
      PackedEnd(s, i, o);
      CodedEnd(p);
    }
  }

  lemma CodedEnd(s: seq<Byte>)
    ensures Coded(s, |s|) == []
  {
  }

  lemma CodedChunk(s: seq<Byte>, a: nat)
    requires a < |s|
    ensures Coded(s, a) == Chunk(s[a], Run(s, a)) + Coded(s, a + Run(s, a))
  {
    if Run(s, a) <= 3 { CodedRun(s, a, Run(s, a)); }
  }

  // ---- places in the code

  // Before the code of s[a..], or at the count or the data byte of a packed run.
  datatype Place = Edge(a: nat) | Count(a: nat) | Data(a: nat)

  predicate In(s: seq<Byte>, f: Place) {
    if f.Edge? then f.a <= |s| else f.a < |s| && Run(s, f.a) > 3
  }

  predicate Last(s: seq<Byte>, f: Place) {
    f == Edge(|s|)
  }

  function Rest(s: seq<Byte>, f: Place): seq<Byte>
    requires In(s, f)
  {
    match f
    case Edge(a) => Coded(s, a)
    case Count(a) => [Run(s, a), s[a]] + Coded(s, a + Run(s, a))
    case Data(a) => [s[a]] + Coded(s, a + Run(s, a))
  }

  function Head(s: seq<Byte>, f: Place): Byte
    requires In(s, f) && !Last(s, f)
  {
    match f
    case Edge(a) => if Run(s, a) > 3 then MARKER else s[a]
    case Count(a) => Run(s, a)
    case Data(a) => s[a]
  }

  function Next(s: seq<Byte>, f: Place): (g: Place)
    requires In(s, f) && !Last(s, f)
    ensures In(s, g)
  {
    match f
    case Edge(a) => if Run(s, a) > 3 then Count(a) else Edge(a + 1)
    case Count(a) => Data(a)
    case Data(a) => Edge(a + Run(s, a))
  }

  lemma RestStep(s: seq<Byte>, f: Place)
    requires In(s, f)
    ensures Last(s, f) ==> Rest(s, f) == []
    ensures !Last(s, f) ==> Rest(s, f) == [Head(s, f)] + Rest(s, Next(s, f))
  {
    hide Run, Coded;
    var a := f.a;
    if Last(s, f) {
      CodedEnd(s);
    } else if f.Count? || (f.Edge? && Run(s, a) > 3) {
      CodedPacked(s, a);
      Cons([MARKER], [Run(s, a), s[a]], Coded(s, a + Run(s, a)));
      Cons([Run(s, a)], [s[a]], Coded(s, a + Run(s, a)));
    } else if f.Edge? {
      CodedByte(s, a);
    }
  }

  lemma CodedPacked(s: seq<Byte>, a: nat)
    requires a < |s| && Run(s, a) > 3
    ensures Coded(s, a) == [MARKER] + [Run(s, a), s[a]] + Coded(s, a + Run(s, a))
  {
  }

  lemma Cons(a: seq<Byte>, b: seq<Byte>, rest: seq<Byte>)
    ensures a + b + rest == a + (b + rest)
  {
  }

  // ---- the decoder behind

  // Where the run of s that a lies in begins; the end of s is a run of its own.
  function RunStart(s: seq<Byte>, a: nat): (r: nat)
    requires a <= |s|
    ensures r <= a && (a == |s| ==> r == a)
    ensures a < |s| ==> (forall k :: r <= k <= a ==> s[k] == s[a]) && (r > 0 ==> s[r - 1] != s[a])
  {
    if 0 < a < |s| && s[a - 1] == s[a] then RunStart(s, a - 1) else a
  }

  lemma StartMonotone(s: seq<Byte>, a: nat, b: nat)
    requires a <= b <= |s|
    ensures RunStart(s, a) <= RunStart(s, b)
  {
  }

  // The run of b begins after j when some byte in between differs from s[j].
  lemma StartAfter(s: seq<Byte>, j: nat, k: nat, b: nat)
    requires j < k <= b <= |s| && (k == |s| || s[j] != s[k])
    ensures RunStart(s, b) > j
  {
  }

  // s has n bytes x from d on.
  predicate Stands(s: seq<Byte>, d: nat, n: nat, x: Byte) {
    d + n <= |s| && forall k :: d <= k < d + n ==> s[k] == x
  }

  // Such bytes do not run into the run of a from outside.
  lemma StandsBefore(s: seq<Byte>, d: nat, n: nat, x: Byte, a: nat)
    requires a < |s| && Stands(s, d, n, x) && d < RunStart(s, a)
    ensures d + n <= RunStart(s, a) && (x == s[a] ==> d + n < RunStart(s, a))
  {
    var r := RunStart(s, a);
    assert s[r] == s[a] && s[r - 1] != s[a];
  }

  // d bytes are out when the decoder stands at f, too few ever to catch up.
  predicate Behind(s: seq<Byte>, f: Place, d: nat)
    requires In(s, f)
  {
    var r := RunStart(s, f.a);
    d < r ||
    (f.a < |s| && s[f.a] != MARKER && d + 254 <= f.a) ||
    (f.Data? && s[f.a] != MARKER && d <= f.a) ||
    (f.Data? && Run(s, f.a) < 255 && d <= r)
  }

  // One byte read as it is.
  lemma LiteralBehind(s: seq<Byte>, f: Place, d: nat)
    requires In(s, f) && !Last(s, f) && Behind(s, f, d) && Stands(s, d, 1, Head(s, f))
    requires f.Edge? ==> Run(s, f.a) <= 3
    ensures Behind(s, Next(s, f), d + 1)
  {
    var a := f.a;
    RunFacts(s, a);
    hide Run;
    if d < RunStart(s, a) {
      StandsBefore(s, d, 1, Head(s, f), a);
      StartMonotone(s, a, Next(s, f).a);
    }
    EdgeAfter(s, a, Next(s, f).a);
  }

  // Where a run ends the next one begins.
  lemma EdgeAfter(s: seq<Byte>, a: nat, b: nat)
    requires a < |s| && a <= b <= |s|
    ensures a < b && (b == |s| || s[b] != s[b - 1]) ==> RunStart(s, b) == b
  {
  }

  // A packed run read where it was written.
  lemma PackedBehind(s: seq<Byte>, a: nat, d: nat)
    requires a < |s| && Run(s, a) > 3 && Behind(s, Edge(a), d) && Stands(s, d, Run(s, a), s[a])
    ensures Behind(s, Edge(a + Run(s, a)), d + Run(s, a))
  {
    var b := a + Run(s, a);
    RunFacts(s, a);
    hide Run;
    if d < RunStart(s, a) {
      StandsBefore(s, d, Run(s, a), s[a], a);
      StartMonotone(s, a, b);
    }
    EdgeAfter(s, a, b);
  }

  // The two bytes behind a marker byte when they begin at an edge.
  lemma PairPlaces(s: seq<Byte>, e: nat)
    requires e < |s| && !Last(s, Next(s, Edge(e)))
    ensures var g, h := Next(s, Edge(e)), Next(s, Next(s, Edge(e)));
      if Run(s, e) > 3 then h == Data(e) && Head(s, Edge(e)) == MARKER && Head(s, g) == Run(s, e)
      else if Run(s, e + 1) > 3 then h == Count(e + 1) && Head(s, Edge(e)) == s[e] && Head(s, g) == MARKER && s[e + 1] != s[e]
      else h == Edge(e + 2) && Head(s, Edge(e)) == s[e] && Head(s, g) == s[e + 1]
  {
    if Run(s, e) <= 3 < Run(s, e + 1) { PackedNext(s, e); }
  }

  // A marker byte written raw, read with the two bytes behind it.
  lemma RawBehind(s: seq<Byte>, a: nat, d: nat)
    requires a + 1 < |s| && s[a] == MARKER && Run(s, a) <= 3 && Behind(s, Edge(a), d) && !Last(s, Next(s, Edge(a + 1)))
    requires Stands(s, d, Head(s, Edge(a + 1)), Head(s, Next(s, Edge(a + 1))))
    ensures Behind(s, Next(s, Next(s, Edge(a + 1))), d + Head(s, Edge(a + 1)))
  {
    var f := Edge(a + 1);
    var g := Next(s, f);
    var h, n, b := Next(s, g), Head(s, f), Head(s, g);
    PairPlaces(s, a + 1);
    StandsBefore(s, d, n, b, a);
    if Run(s, a + 1) > 3 { PackedNext(s, a); }
    hide Run, Head, Next;
    if b == MARKER {
      StartMonotone(s, a, h.a);
    } else if h.Edge? {
      StartAfter(s, a, a + 2, h.a);
    }
  }

  // The same for a data byte that looks like a marker.
  lemma DataBehind(s: seq<Byte>, a: nat, d: nat)
    requires a < |s| && Run(s, a) > 3 && s[a] == MARKER && Behind(s, Data(a), d)
    requires a + Run(s, a) < |s| && !Last(s, Next(s, Edge(a + Run(s, a))))
    requires var f := Edge(a + Run(s, a)); Stands(s, d, Head(s, f), Head(s, Next(s, f)))
    ensures var f := Edge(a + Run(s, a)); Behind(s, Next(s, Next(s, f)), d + Head(s, f))
  {
    hide Stands;
    var e := a + Run(s, a);
    var f := Edge(e);
    var g := Next(s, f);
    PairPlaces(s, e);
    RunFacts(s, a);
    if d < RunStart(s, a) {
      DataEarly(s, a, e, d, Next(s, g), Head(s, f), Head(s, g));
    } else {
      DataLate(s, a, e, d, Next(s, g), Head(s, f), Head(s, g));
    }
  }

  lemma DataEarly(s: seq<Byte>, a: nat, e: nat, d: nat, h: Place, n: Byte, b: Byte)
    requires a < e <= h.a && In(s, h) && s[a] == MARKER && d < RunStart(s, a) && Stands(s, d, n, b)
    requires (h.Edge? ==> h.a == e + 2 && b == s[e + 1]) && (h.Count? ==> b == MARKER) && (h.Data? ==> b == Run(s, h.a))
    ensures Behind(s, h, d + n)
  {
    hide Run, Stands, RunStart;
    StandsBefore(s, d, n, b, a);
    StartMonotone(s, a, h.a);
    if b != MARKER && h.Edge? { StartAfter(s, a, e + 1, h.a); }
  }

  lemma DataLate(s: seq<Byte>, a: nat, e: nat, d: nat, h: Place, n: Byte, b: Byte)
    requires d <= a < e < |s| && e <= h.a && In(s, h) && s[d] == s[a] == MARKER != s[e] && Stands(s, d, n, b)
    requires (h.Edge? ==> h.a == e + 2 && b == s[e + 1]) && (h.Count? ==> h.a == e + 1 && s[h.a] != s[e]) && (h.Data? ==> h.a == e)
    ensures Behind(s, h, d + n)
  {
    hide Run, Stands;
    WithinRun(s, d, n, b, e);
    StartAfter(s, a, e, h.a);
    if h.Edge? && n > 0 { StartAfter(s, e, e + 1, h.a); }
    EdgeAfter(s, e, h.a);
  }

  // Bytes that begin before e and differ from s[e] end there.
  lemma WithinRun(s: seq<Byte>, d: nat, n: nat, x: Byte, e: nat)
    requires d < e < |s| && Stands(s, d, n, x) && (n > 0 ==> s[d] != s[e])
    ensures d + n <= e && (n > 0 ==> x == s[d])
  {
  }

  // The same for a count byte of 255.
  lemma CountBehind(s: seq<Byte>, a: nat, d: nat)
    requires a + 255 < |s| && Run(s, a) == 255 && Behind(s, Count(a), d)
    requires Stands(s, d, s[a], Head(s, Edge(a + 255)))
    ensures Behind(s, Next(s, Edge(a + 255)), d + s[a])
  {
  }

  // At least two more bytes follow the one at f.
  predicate Deep(s: seq<Byte>, f: Place)
    requires In(s, f) && !Last(s, f)
  {
    !Last(s, Next(s, f)) && !Last(s, Next(s, Next(s, f)))
  }

  lemma TripleBehind(s: seq<Byte>, f: Place, d: nat)
    requires In(s, f) && !Last(s, f) && Behind(s, f, d) && Head(s, f) == MARKER && Deep(s, f)
    requires Stands(s, d, Head(s, Next(s, f)), Head(s, Next(s, Next(s, f))))
    ensures Behind(s, Next(s, Next(s, Next(s, f))), d + Head(s, Next(s, f)))
  {
    hide Behind, Stands;
    match f
    case Edge(a) => if Run(s, a) > 3 { PackedBehind(s, a, d); } else { RawBehind(s, a, d); }
    case Count(a) => CountBehind(s, a, d);
    case Data(a) => DataBehind(s, a, d);
  }

  lemma LiteralRead(b: Byte, rest: seq<Byte>, s: seq<Byte>, d: nat)
    requires d <= |s| && (b != MARKER || |rest| < 2) && Unpack([b] + rest) == s[d..]
    ensures Stands(s, d, 1, b) && Unpack(rest) == s[d + 1..]
  {
    assert ([b] + rest)[1..] == rest;
    assert s[d..][0] == b;
  }

  lemma TripleRead(n: Byte, b: Byte, rest: seq<Byte>, s: seq<Byte>, d: nat)
    requires d <= |s| && Unpack([MARKER, n, b] + rest) == s[d..]
    ensures Stands(s, d, n, b) && Unpack(rest) == s[d + n..]
  {
    var t := [MARKER, n, b] + rest;
    assert t[3..] == rest;
    forall k | d <= k < d + n ensures k < |s| && s[k] == b {
      assert s[d..][k - d] == Repeat(b, n)[k - d];
    }
  }

  lemma ThreeSteps(s: seq<Byte>, f: Place)
    requires In(s, f) && !Last(s, f) && Deep(s, f)
    ensures var g := Next(s, f); var h := Next(s, g); Rest(s, f) == [Head(s, f), Head(s, g), Head(s, h)] + Rest(s, Next(s, h))
  {
    RestStep(s, f);
    RestStep(s, Next(s, f));
    RestStep(s, Next(s, Next(s, f)));
    hide Rest, Next, Head;
  }

  lemma Shallow(s: seq<Byte>, f: Place)
    requires In(s, f) && !Last(s, f) && !Deep(s, f)
    ensures |Rest(s, Next(s, f))| < 2 && (f.Edge? ==> Run(s, f.a) <= 3)
  {
    RestStep(s, Next(s, f));
    if !Last(s, Next(s, f)) { RestStep(s, Next(s, Next(s, f))); }
  }

  // A decoder that is behind ends up with something else than the input.
  lemma {:induction false} NeverCatchesUp(s: seq<Byte>, f: Place, d: nat)
    requires In(s, f) && d <= |s| && Behind(s, f, d)
    ensures Unpack(Rest(s, f)) != s[d..]
    decreases |Rest(s, f)|
  {
    hide Behind, Unpack, Head, Rest;
    RestStep(s, f);
    if Last(s, f) {
      EndBehind(s, d);
    } else if Unpack(Rest(s, f)) == s[d..] {
      var g := Next(s, f);
      if Head(s, f) == MARKER && Deep(s, f) {
        var h := Next(s, g);
        ThreeSteps(s, f);
        TripleRead(Head(s, g), Head(s, h), Rest(s, Next(s, h)), s, d);
        TripleBehind(s, f, d);
        NeverCatchesUp(s, Next(s, h), d + Head(s, g));
      } else {
        LiteralEdge(s, f);
        LiteralRead(Head(s, f), Rest(s, g), s, d);
        LiteralBehind(s, f, d);
        NeverCatchesUp(s, g, d + 1);
      }
    }
  }

  lemma EndBehind(s: seq<Byte>, d: nat)
    requires Behind(s, Edge(|s|), d)
    ensures Unpack([]) == [] && d < |s|
  {
  }

  lemma LiteralEdge(s: seq<Byte>, f: Place)
    requires In(s, f) && !Last(s, f) && (Head(s, f) != MARKER || !Deep(s, f))
    ensures (Head(s, f) != MARKER || |Rest(s, Next(s, f))| < 2) && (f.Edge? ==> Run(s, f.a) <= 3)
  {
    hide Rest;
    if !Deep(s, f) { Shallow(s, f); }
  }

  // ---- which inputs are restored

  // A marker byte in a run too short to be packed is harmless only as one of the
  // last two bytes.
  predicate Harmless(s: seq<Byte>, a: nat)
    requires a <= |s|
    decreases |s| - a
  {
    a == |s| ||
    if Run(s, a) > 3 then Harmless(s, a + Run(s, a))
    else (s[a] == 0xFF ==> |s| - a <= 2) && Harmless(s, a + 1)
  }

  // The decoder reads a count where there is none and is behind from then on,
  // or its output is wrong at once.
  lemma LostAt(s: seq<Byte>, a: nat)
    requires a + 2 < |s| && s[a] == MARKER && Run(s, a) <= 3
    ensures Unpack(Coded(s, a)) != s[a..]
  {
    hide Unpack, Behind, Coded;
    if Unpack(Coded(s, a)) == s[a..] {
      var g := Next(s, Edge(a));
      var h := Next(s, g);
      DeepHere(s, a);
      ThreeSteps(s, Edge(a));
      TripleRead(Head(s, g), Head(s, h), Rest(s, Next(s, h)), s, a);
      FirstLag(s, a);
      NeverCatchesUp(s, Next(s, h), a + Head(s, g));
    }
  }

  lemma DeepHere(s: seq<Byte>, a: nat)
    requires a + 2 < |s| && s[a] == MARKER && Run(s, a) <= 3
    ensures Deep(s, Edge(a)) && Head(s, Edge(a)) == MARKER && Next(s, Edge(a)) == Edge(a + 1) && Rest(s, Edge(a)) == Coded(s, a)
  {
  }

  lemma FirstLag(s: seq<Byte>, a: nat)
    requires a + 2 < |s| && s[a] == MARKER && Run(s, a) <= 3 && Deep(s, Edge(a)) && Next(s, Edge(a)) == Edge(a + 1)
    requires Stands(s, a, Head(s, Edge(a + 1)), Head(s, Next(s, Edge(a + 1))))
    ensures Behind(s, Next(s, Next(s, Edge(a + 1))), a + Head(s, Edge(a + 1)))
  {
    var f := Edge(a + 1);
    var g := Next(s, f);
    var h, n, b := Next(s, g), Head(s, f), Head(s, g);
    PairPlaces(s, a + 1);
    RunFacts(s, a);
    if Run(s, a + 1) > 3 { PackedNext(s, a); }
    assert n > 0 ==> s[a] == b;
  }

  lemma {:induction false} Restored(s: seq<Byte>, a: nat)
    requires a <= |s|
    ensures Unpack(Coded(s, a)) == s[a..] <==> Harmless(s, a)
    decreases |s| - a
  {
    hide Unpack, Coded, Run;
    if a == |s| {
      CodedEnd(s);
      EndRead();
    } else if Run(s, a) > 3 {
      Restored(s, a + Run(s, a));
      PackedRestored(s, a);
    } else {
      Restored(s, a + 1);
      if s[a] == MARKER && |s| - a > 2 {
        LostAt(s, a);
      } else {
        ByteRestored(s, a);
      }
    }
  }

  lemma PackedRestored(s: seq<Byte>, a: nat)
    requires a < |s| && Run(s, a) > 3
    ensures Unpack(Coded(s, a)) == s[a..] <==> Unpack(Coded(s, a + Run(s, a))) == s[a + Run(s, a)..]
  {
    hide Unpack, Coded, Repeat, Chunk, Run;
    var b := a + Run(s, a);
    RunNamed(s, a);
    CodedChunk(s, a);
    UnpackChunk(s[a], Run(s, a), Coded(s, b));
    RunFacts(s, a);
    RunSlice(s, a, Run(s, a), |s|);
    Whole(s, a);
    Whole(s, b);
    Cancel(Repeat(s[a], Run(s, a)), Unpack(Coded(s, b)), s[b..]);
  }

  lemma ByteRestored(s: seq<Byte>, a: nat)
    requires a < |s| && Run(s, a) <= 3 && (s[a] == MARKER ==> |s| - a <= 2)
    ensures Unpack(Coded(s, a)) == s[a..] <==> Unpack(Coded(s, a + 1)) == s[a + 1..]
  {
    hide Unpack, Coded, Run;
    CodedByte(s, a);
    CodedSize(s, a + 1);
    UnpackLiteral(s[a], Coded(s, a + 1));
    assert s[a..] == [s[a]] + s[a + 1..];
    Cancel([s[a]], Unpack(Coded(s, a + 1)), s[a + 1..]);
  }

  lemma Whole(s: seq<Byte>, a: nat)
    requires a <= |s|
    ensures s[a..|s|] == s[a..]
  {
  }

  lemma Cancel(a: seq<Byte>, x: seq<Byte>, y: seq<Byte>)
    ensures a + x == a + y <==> x == y
  {
    if a + x == a + y {
      assert x == (a + x)[|a|..] && y == (a + y)[|a|..];
    }
  }

  lemma EndRead()
    ensures Unpack([]) == []
  {
  }

  lemma UnpackLiteral(b: Byte, rest: seq<Byte>)
    requires b != MARKER || |rest| < 2
    ensures Unpack([b] + rest) == [b] + Unpack(rest)
  {
    assert ([b] + rest)[1..] == rest;
  }

  // Reading the output back gives exactly the input that was read if and only if
  // no marker byte of it does harm.
  lemma UnpackRestores(s: seq<Byte>)
    ensures var p := s[..Reached(s, 0, 0)]; Unpack(Packed(s, 0, 0)) == p <==> Harmless(p, 0)
  {
    PackedIsCoded(s, 0, 0);
    Restored(s[..Reached(s, 0, 0)], 0);
  }

  // An output that saves two bytes or more is that of the whole input.
  lemma ShorterRestores(s: seq<Byte>)
    requires |Packed(s, 0, 0)| + 1 < |s|
    ensures Unpack(Packed(s, 0, 0)) == s <==> Harmless(s, 0)
  {
    PackedFits(s, 0, 0);
    UnpackRestores(s);
    assert s[..|s|] == s;
  }

  // The caller keeps a page only below three quarters of its size.
  predicate KeptPage(page: seq<Byte>) {
    |Packed(page, 0, 0)| < |page| * 3 / 4
  }

  lemma KeptPageRestores(page: seq<Byte>)
    requires KeptPage(page)
    ensures Unpack(Packed(page, 0, 0)) == page <==> Harmless(page, 0)
    ensures 0xFF !in page ==> Harmless(page, 0)
  {
    ShorterRestores(page);
    if MARKER !in page { NoMarkers(page, 0); }
  }

  lemma {:induction false} NoMarkers(s: seq<Byte>, a: nat)
    requires a <= |s| && MARKER !in s
    ensures Harmless(s, a)
    decreases |s| - a
  {
    if a < |s| { NoMarkers(s, a + if Run(s, a) > 3 then Run(s, a) else 1); }
  }

  // ---- a page that is kept and lost

  lemma {:induction false} ConstantCode(s: seq<Byte>, a: nat)
    requires a < |s| && forall k :: a <= k < |s| ==> s[k] == s[a]
    ensures 255 * |Coded(s, a)| <= 3 * (|s| - a) + 762
    decreases |s| - a
  {
    hide Run;
    RunIs(s, a, 1, if |s| - a < 255 then |s| - a else 255);
    RunNamed(s, a);
    CodedSize(s, a);
    CodedChunk(s, a);
    if a + 255 < |s| {
      ConstantCode(s, a + 255);
    } else {
      CodedEnd(s);
    }
  }

  lemma {:induction false} PackedShorter(s: seq<Byte>, i: nat, o: nat)
    requires i <= |s|
    ensures |Packed(s, i, o)| <= |Coded(s, i)|
    decreases |s| - i
  {
    hide Packed, Chunk, Coded;
    if i < |s| && o < |s| - 1 {
      RunNamed(s, i);
      PackedShorter(s, i + Run(s, i), o + |Chunk(s[i], Run(s, i))|);
      PackedTurn(s, i, o);
      CodedChunk(s, i);
    } else {
      PackedEnd(s, i, o);
    }
  }

  function LonePage(): (s: seq<Byte>)
    ensures |s| == 4096 && s[0] == 0xFF && s[1] == 7 && s[2] == 9 && forall k :: 3 <= k < 4096 ==> s[k] == 1
  {
    [MARKER, 7, 9] + seq(4093, _ => 1)
  }

  // One marker byte by itself costs a page that the caller keeps.
  lemma LoneMarkerLost()
    ensures KeptPage(LonePage()) && Unpack(Packed(LonePage(), 0, 0)) != LonePage()
  {
    var s := LonePage();
    hide LonePage, Packed, Coded, Run;
    LoneRuns(s);
    ConstantCode(s, 3);
    PackedShorter(s, 0, 0);
    ShorterRestores(s);
  }

  lemma LoneRuns(s: seq<Byte>)
    requires |s| == 4096 && s[0] == MARKER && s[1] == 7 && s[2] == 9 && s[3] == 1
    ensures !Harmless(s, 0) && |Coded(s, 0)| == 3 + |Coded(s, 3)|
  {
    RunIs(s, 0, 1, 1);
    RunIs(s, 1, 1, 1);
    RunIs(s, 2, 1, 1);
    assert Coded(s, 2) == [s[2]] + Coded(s, 3);
    assert Coded(s, 1) == [s[1]] + Coded(s, 2);
  }
}
