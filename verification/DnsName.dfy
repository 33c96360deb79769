// build_exclude/dns_resolver.c: host names on the wire (sections 3.1 and 4.1.4
// of RFC 1035).
module DnsName {
  import opened Wrappers

  type Byte = n: nat | n < 256
  type Bytes = seq<Byte>

  const DOT: Byte := 46
  const MAX_LABEL: nat := 63

  // ---- labels

  function FirstDot(h: Bytes): (k: nat)
    ensures k <= |h| && (k < |h| ==> h[k] == DOT) && forall j :: 0 <= j < k ==> h[j] != DOT
  {
    if h == [] || h[0] == DOT then 0 else 1 + FirstDot(h[1..])
  }

  function Split(h: Bytes): (r: seq<Bytes>)
    ensures r != []
    decreases |h|
  {
    var k := FirstDot(h);
    if k == |h| then [h] else [h[..k]] + Split(h[k + 1..])
  }

  function Dotted(labels: seq<Bytes>): Bytes {
    if labels == [] then [] else if |labels| == 1 then labels[0] else labels[0] + [DOT] + Dotted(labels[1..])
  }

  lemma {:induction false} SplitDotted(h: Bytes)
    ensures Dotted(Split(h)) == h
    decreases |h|
  {
    var k := FirstDot(h);
    if k < |h| {
      SplitDotted(h[k + 1..]);
      assert Split(h)[1..] == Split(h[k + 1..]);
      assert h == h[..k] + [DOT] + h[k + 1..];
    }
  }

  lemma {:induction false} SplitPlain(h: Bytes)
    ensures forall l <- Split(h) :: DOT !in l && |l| <= |h|
    decreases |h|
  {
    var k := FirstDot(h);
    if k < |h| { SplitPlain(h[k + 1..]); }
  }

  // What dns_encode_name writes for these labels. The length byte is the length
  // modulo 256, and an empty last label is not written.
  function Wire(labels: seq<Bytes>): Option<Bytes> {
    if labels == [] then Some([0]) else
    var n := |labels[0]| % 256;
    if n > MAX_LABEL then None
    else if |labels| == 1 && n == 0 then Some([0])
    else match Wire(labels[1..])
      case None => None
      case Some(rest) => Some([n] + labels[0][..n] + rest)
  }

  // ---- names in a packet

  // A name without compression starts at off and ends inside the packet.
  predicate PlainAt(p: Bytes, off: nat)
    decreases |p| - off
  {
    off < |p| && (p[off] == 0 || (p[off] <= MAX_LABEL && off + 1 + p[off] <= |p| && PlainAt(p, off + 1 + p[off])))
  }

  function LabelsAt(p: Bytes, off: nat): (r: seq<Bytes>)
    requires PlainAt(p, off)
    ensures forall l <- r :: l != []
    decreases |p| - off
  {
    if p[off] == 0 then [] else [p[off + 1..off + 1 + p[off]]] + LabelsAt(p, off + 1 + p[off])
  }

  // The offset just past a plain name.
  function EndAt(p: Bytes, off: nat): (e: nat)
    requires PlainAt(p, off)
    ensures off < e <= |p|
    decreases |p| - off
  {
    if p[off] == 0 then off + 1 else EndAt(p, off + 1 + p[off])
  }

  function TextAt(p: Bytes, off: nat): Bytes
    requires PlainAt(p, off)
  {
    Dotted(LabelsAt(p, off))
  }

  // ---- encoding, then decoding

  ghost predicate AllNamed(labels: seq<Bytes>) {
    forall l <- labels :: l != []
  }

  // w stands at off.
  ghost predicate Holds(p: Bytes, off: nat, w: Bytes) {
    off + |w| <= |p| && forall k: nat :: k < |w| ==> p[off + k] == w[k]
  }

  lemma WireHead(labels: seq<Bytes>, p: Bytes, off: nat)
    requires Wire(labels).Some? && Holds(p, off, Wire(labels).value) && forall l <- labels :: |l| < 256
    ensures off < |p| && p[off] == if labels == [] then 0 else |labels[0]|
  {
    var w := Wire(labels).value;
    assert p[off + 0] == w[0];
  }

  // The first label and what follows it.
  lemma WireStep(labels: seq<Bytes>, p: Bytes, off: nat)
    requires labels != [] && labels[0] != [] && Wire(labels).Some? && Holds(p, off, Wire(labels).value) && |labels[0]| < 256
    ensures var n := |labels[0]|; n <= MAX_LABEL && off + 1 + n <= |p| && p[off + 1..off + 1 + n] == labels[0]
    ensures Wire(labels[1..]).Some? && Holds(p, off + 1 + |labels[0]|, Wire(labels[1..]).value)
    ensures |Wire(labels).value| == 1 + |labels[0]| + |Wire(labels[1..]).value|
  {
    hide Wire;
    WireCons(labels);
    HoldsLabel(p, off, labels[0], Wire(labels[1..]).value);
  }

  lemma WireCons(labels: seq<Bytes>)
    requires labels != [] && labels[0] != [] && Wire(labels).Some? && |labels[0]| < 256
    ensures |labels[0]| <= MAX_LABEL && Wire(labels[1..]).Some?
    ensures Wire(labels).value == [|labels[0]|] + labels[0] + Wire(labels[1..]).value
  {
    assert labels[0][..|labels[0]|] == labels[0];
  }

  lemma HoldsLabel(p: Bytes, off: nat, part: Bytes, rest: Bytes)
    requires |part| < 256 && Holds(p, off, [|part|] + part + rest)
    ensures off + 1 + |part| <= |p| && p[off + 1..off + 1 + |part|] == part && Holds(p, off + 1 + |part|, rest)
  {
    var n, w := |part|, [|part|] + part + rest;
    forall k: nat | k < n ensures p[off + 1 + k] == part[k] {
      assert p[off + (1 + k)] == w[1 + k];
    }
    forall k: nat | k < |rest| ensures p[off + 1 + n + k] == rest[k] {
      assert p[off + (1 + n + k)] == w[1 + n + k];
    }
  }

  // Encoded labels without an empty one are read back as they are, and the name
  // ends where the encoding does; otherwise reading stops at the first empty one.
  lemma {:induction false} WireReads(labels: seq<Bytes>, p: Bytes, off: nat)
    requires Wire(labels).Some? && Holds(p, off, Wire(labels).value) && forall l <- labels :: |l| < 256
    ensures PlainAt(p, off)
    ensures AllNamed(labels) ==> LabelsAt(p, off) == labels && EndAt(p, off) == off + |Wire(labels).value|
    ensures !AllNamed(labels) ==> LabelsAt(p, off) != labels && |LabelsAt(p, off)| < |labels|
  {
    WireHead(labels, p, off);
    if labels != [] && labels[0] != [] {
      var n := |labels[0]|;
      WireStep(labels, p, off);
      hide Wire, Holds;
      WireReads(labels[1..], p, off + 1 + n);
      var rest := LabelsAt(p, off + 1 + n);
      assert LabelsAt(p, off) == [labels[0]] + rest;
      NamedStep(labels);
      if AllNamed(labels) {
        assert labels == [labels[0]] + rest;
      } else {
        Shorter(labels, rest);
      }
    } else {
      assert LabelsAt(p, off) == [];
      assert labels != [] ==> labels[0] in labels;
    }
  }

  lemma NamedStep(labels: seq<Bytes>)
    requires labels != []
    ensures AllNamed(labels) <==> labels[0] != [] && AllNamed(labels[1..])
  {
    assert labels == [labels[0]] + labels[1..];
    assert labels[0] in labels;
    forall l <- labels ensures l == labels[0] || l in labels[1..] {
    }
    forall l <- labels[1..] ensures l in labels {
    }
  }

  lemma Shorter(labels: seq<Bytes>, rest: seq<Bytes>)
    requires labels != [] && |rest| < |labels[1..]|
    ensures [labels[0]] + rest != labels && |[labels[0]] + rest| < |labels|
  {
  }

  lemma {:induction false} WireExists(labels: seq<Bytes>)
    requires labels != [] && forall l <- labels :: |l| < 256
    ensures Wire(labels).Some? <==> forall l <- labels :: |l| <= 63
  {
    if |labels| > 1 {
      WireExists(labels[1..]);
      assert labels == [labels[0]] + labels[1..];
    }
  }

  lemma {:induction false} DottedCount(a: seq<Bytes>, b: seq<Bytes>)
    requires Dotted(a) == Dotted(b) && (forall l <- a :: DOT !in l) && (forall l <- b :: DOT !in l)
    requires a != [] && b != []
    ensures a == b
  {
    FirstOfDotted(a);
    FirstOfDotted(b);
    if |a| > 1 {
      var k := FirstDot(Dotted(a));
      assert Dotted(a)[k + 1..] == Dotted(a[1..]) && Dotted(b)[k + 1..] == Dotted(b[1..]);
      DottedCount(a[1..], b[1..]);
      assert a == [a[0]] + a[1..] && b == [b[0]] + b[1..];
    }
  }

  lemma FirstOfDotted(a: seq<Bytes>)
    requires a != [] && forall l <- a :: DOT !in l
    ensures FirstDot(Dotted(a)) == |a[0]| && Dotted(a)[..|a[0]|] == a[0] && (|a| > 1 <==> |a[0]| < |Dotted(a)|)
    ensures |a| > 1 ==> Dotted(a)[|a[0]| + 1..] == Dotted(a[1..])
  {
    var d := Dotted(a);
    assert a[0] in a;
    assert forall j :: 0 <= j < |a[0]| ==> d[j] == a[0][j] && a[0][j] in a[0];
    FirstDotIs(d, |a[0]|);
  }

  lemma FirstDotIs(h: Bytes, k: nat)
    requires k <= |h| && (k < |h| ==> h[k] == DOT) && forall j :: 0 <= j < k ==> h[j] != DOT
    ensures FirstDot(h) == k
  {
    var f := FirstDot(h);
    assert k <= f;
    assert f <= k;
  }

  // The names dns_encode_name takes and dns_decode_name gives back: exactly
  // those of labels of 1 to 63 bytes, and the empty one.
  lemma NameRoundTrip(h: Bytes, p: Bytes, off: nat)
    requires |h| <= 255 && Wire(Split(h)).Some? && Holds(p, off, Wire(Split(h)).value)
    ensures PlainAt(p, off)
    ensures (TextAt(p, off) == h && EndAt(p, off) == off + |Wire(Split(h)).value|) <==> h == [] || AllNamed(Split(h))
  {
    var labels := Split(h);
    SplitPlain(h);
    SplitDotted(h);
    WireReads(labels, p, off);
    if h != [] && !AllNamed(labels) {
      LabelsPlain(labels, p, off);
      var got := LabelsAt(p, off);
      if TextAt(p, off) == h && got != [] {
        DottedCount(got, labels);
      }
    }
  }

  // Labels read back from an encoding hold no dot.
  lemma {:induction false} LabelsPlain(labels: seq<Bytes>, p: Bytes, off: nat)
    requires Wire(labels).Some? && Holds(p, off, Wire(labels).value) && (forall l <- labels :: |l| < 256 && DOT !in l) && PlainAt(p, off)
    ensures forall l <- LabelsAt(p, off) :: DOT !in l
  {
    WireHead(labels, p, off);
    if labels != [] && labels[0] != [] {
      var n := |labels[0]|;
      WireStep(labels, p, off);
      hide Wire, Holds;
      LabelsPlain(labels[1..], p, off + 1 + n);
      var rest := LabelsAt(p, off + 1 + n);
      assert LabelsAt(p, off) == [labels[0]] + rest;
      assert labels[0] in labels;
      hide LabelsAt;
    }
  }

  // ---- the encoder

  // memory_copy of a label behind its length byte.
  method PutLabel(buffer: array<Byte>, at: nat, name: Bytes) returns (end: nat)
    requires |name| <= MAX_LABEL && at + 1 + |name| <= buffer.Length
    modifies buffer
    ensures end == at + 1 + |name|
    ensures buffer[..end] == old(buffer[..at]) + [|name|] + name
  {
    buffer[at] := |name|;
    var i := 0;
    while i < |name|
      invariant 0 <= i <= |name| && buffer[..at + 1] == old(buffer[..at]) + [|name|]
      invariant forall j :: 0 <= j < i ==> buffer[at + 1 + j] == name[j]
    {
      buffer[at + 1 + i] := name[i];
      i := i + 1;
    }
    end := at + 1 + |name|;
  }

  // What is still to be written when the label from start on is at ptr.
  ghost function Rest(h: Bytes, start: nat): Option<Bytes>
    requires start <= |h|
  {
    Wire(Split(h[start..]))
  }

  // The loop of dns_encode_name ends a label at a dot.
  lemma RestAtDot(h: Bytes, start: nat, ptr: nat)
    requires start <= ptr < |h| && h[ptr] == DOT && forall j :: start <= j < ptr ==> h[j] != DOT
    ensures Rest(h, start) ==
      if (ptr - start) % 256 > MAX_LABEL then None
      else match Rest(h, ptr + 1) case None => None case Some(r) => Some([(ptr - start) % 256] + h[start..start + (ptr - start) % 256] + r)
  {
    var t := h[start..];
    FirstDotIs(t, ptr - start);
    assert t[..ptr - start] == h[start..ptr] && t[ptr - start + 1..] == h[ptr + 1..];
    assert Split(t)[1..] == Split(h[ptr + 1..]) && Split(t)[0] == h[start..ptr] && |Split(t)| >= 2;
    assert h[start..ptr][..(ptr - start) % 256] == h[start..start + (ptr - start) % 256];
  }

  lemma RestAtEnd(h: Bytes, start: nat)
    requires start <= |h| && forall j :: start <= j < |h| ==> h[j] != DOT
    ensures Rest(h, start) ==
      var n := (|h| - start) % 256;
      if n > MAX_LABEL then None else if n == 0 then Some([0]) else Some([n] + h[start..start + n] + [0])
  {
    var t := h[start..];
    FirstDotIs(t, |t|);
    var none: seq<Bytes> := [];
    assert Split(t) == [t] && Split(t)[1..] == none && Wire(none) == Some([0]);
    assert t[..(|h| - start) % 256] == h[start..start + (|h| - start) % 256];
  }

  // dns_encode_name: 0 when a label is too long, else the size of the encoding.
  method EncodeName(h: Bytes, buffer: array<Byte>) returns (size: nat)
    requires buffer.Length >= |h| + 2
    modifies buffer
    ensures Wire(Split(h)).None? ==> size == 0
    ensures Wire(Split(h)).Some? ==> size == |Wire(Split(h)).value| <= buffer.Length && buffer[..size] == Wire(Split(h)).value
  {
    hide Rest, Wire, Split;
    var at: nat, ptr: nat, start: nat := 0, 0, 0;
    WholeIsRest(h);
    while ptr < |h|
      invariant 0 <= start <= ptr <= |h| && at <= start + 1 && at + (|h| - start) + 2 <= buffer.Length + 1 && at <= start
      invariant forall j :: start <= j < ptr ==> h[j] != DOT
      invariant Wire(Split(h)) == Prefixed(buffer[..at], Rest(h, start))
      decreases |h| - ptr
    {
      if h[ptr] == DOT {
        var n := (ptr - start) % 256;
        RestAtDot(h, start, ptr);
        if n > MAX_LABEL {
          return 0;
        }
        PrefixLabel(buffer[..at], n, h[start..start + n], Rest(h, ptr + 1));
        at := PutLabel(buffer, at, h[start..start + n]);
        ptr := ptr + 1;
        start := ptr;
      } else {
        ptr := ptr + 1;
      }
    }
    RestAtEnd(h, start);
    var n := (|h| - start) % 256;
    if n > 0 {
      if n > MAX_LABEL {
        return 0;
      }
      PrefixLabel(buffer[..at], n, h[start..start + n], Some([0]));
      at := PutLabel(buffer, at, h[start..start + n]);
    }
    ghost var before := buffer[..at];
    buffer[at] := 0;
    size := at + 1;
    assert buffer[..size] == before + [0];
  }

  // What is written, then what remains.
  ghost function Prefixed(done: Bytes, rest: Option<Bytes>): Option<Bytes> {
    match rest case None => None case Some(r) => Some(done + r)
  }

  lemma WholeIsRest(h: Bytes)
    ensures Wire(Split(h)) == Prefixed([], Rest(h, 0))
  {
    assert h[0..] == h;
    assert Rest(h, 0).Some? ==> [] + Rest(h, 0).value == Rest(h, 0).value;
  }

  lemma PrefixLabel(done: Bytes, n: Byte, l: Bytes, rest: Option<Bytes>)
    ensures Prefixed(done, match rest case None => None case Some(r) => Some([n] + l + r)) == Prefixed(done + [n] + l, rest)
  {
    if rest.Some? { assert done + ([n] + l + rest.value) == done + [n] + l + rest.value; }
  }

  // ---- the decoder

  // A whole name at off: plain, or a single pointer to a plain one.
  predicate NameAt(p: Bytes, off: nat) {
    PlainAt(p, off) || (off + 1 < |p| && p[off] >= 0xC0 && PlainAt(p, Target(p, off)))
  }

  // ((*ptr & 0x3F) << 8) | *(ptr + 1)
  function Target(p: Bytes, off: nat): nat
    requires off + 1 < |p|
  {
    var high: nat, low: nat := p[off], p[off + 1];
    high % 0x40 * 0x100 + low
  }

  // Two bytes 11tttttt tttttttt point at offset t (section 4.1.4 of RFC 1035).
  lemma PointerReads(p: Bytes, off: nat, target: nat)
    requires target < 0x4000 && Holds(p, off, [0xC0 + target / 0x100, target % 0x100]) && PlainAt(p, target)
    ensures NameAt(p, off) && NameText(p, off) == TextAt(p, target) && NameEnd(p, off) == off + 2
  {
    var w: Bytes := [0xC0 + target / 0x100, target % 0x100];
    hide TextAt;
    assert p[off + 0] == w[0] && p[off + 1] == w[1];
    assert Target(p, off) == target;
  }

  // "www.a" byte by byte.
  lemma WireExample()
    ensures Wire(Split([119, 119, 119, 46, 97])) == Some([3, 119, 119, 119, 1, 97, 0])
  {
    var h: Bytes := [119, 119, 119, 46, 97];
    var x: Bytes, y: Bytes := [119, 119, 119], [97];
    var last: seq<Bytes>, all: seq<Bytes> := [y], [x, y];
    assert FirstDot(h) == 3 && h[..3] == x && h[4..] == y;
    assert FirstDot(y) == 1 && Split(y) == last;
    assert Split(h) == [x] + last == all;
    hide Split, FirstDot;
    assert all[1..] == last && last[1..] == [];
    WireExists(all);
    WireCons(all);
    WireCons(last);
    assert Wire([]) == Some([0]);
    hide Wire;
    assert Wire(last).value == [1, 97, 0];
    assert Wire(all).value == [3, 119, 119, 119, 1, 97, 0];
  }

  function NameText(p: Bytes, off: nat): Bytes
    requires NameAt(p, off)
  {
    if PlainAt(p, off) then TextAt(p, off) else TextAt(p, Target(p, off))
  }

  // Past the name; past the pointer, if it is one.
  function NameEnd(p: Bytes, off: nat): (e: nat)
    requires NameAt(p, off)
    ensures off < e <= |p|
  {
    if PlainAt(p, off) then EndAt(p, off) else off + 2
  }

  // The text of a plain name from ptr on, behind what is out already.
  ghost function Going(p: Bytes, ptr: nat, out: Bytes): Bytes
    requires PlainAt(p, ptr)
  {
    if p[ptr] == 0 then out else Then(out) + TextAt(p, ptr)
  }

  lemma TextStep(p: Bytes, ptr: nat)
    requires PlainAt(p, ptr) && p[ptr] != 0
    ensures PlainAt(p, ptr + 1 + p[ptr]) && ptr + 1 + p[ptr] < |p| && EndAt(p, ptr) == EndAt(p, ptr + 1 + p[ptr])
    ensures TextAt(p, ptr) == p[ptr + 1..ptr + 1 + p[ptr]] + if p[ptr + 1 + p[ptr]] == 0 then [] else [DOT] + TextAt(p, ptr + 1 + p[ptr])
  {
    var l, rest := p[ptr + 1..ptr + 1 + p[ptr]], LabelsAt(p, ptr + 1 + p[ptr]);
    assert LabelsAt(p, ptr) == [l] + rest;
    assert ([l] + rest)[1..] == rest;
    assert rest == [] <==> p[ptr + 1 + p[ptr]] == 0;
  }

  // out with a dot after it, unless it is empty.
  function Then(out: Bytes): Bytes {
    if out == [] then [] else out + [DOT]
  }

  lemma GoingStep(p: Bytes, ptr: nat, out: Bytes)
    requires PlainAt(p, ptr) && p[ptr] != 0
    ensures PlainAt(p, ptr + 1 + p[ptr]) && EndAt(p, ptr) == EndAt(p, ptr + 1 + p[ptr])
    ensures Going(p, ptr, out) == Going(p, ptr + 1 + p[ptr], Then(out) + p[ptr + 1..ptr + 1 + p[ptr]])
    ensures |Then(out)| + p[ptr] <= |Going(p, ptr, out)|
  {
    hide TextAt, EndAt, LabelsAt, Then;
    TextStep(p, ptr);
    var q, l := ptr + 1 + p[ptr], p[ptr + 1..ptr + 1 + p[ptr]];
    if p[q] != 0 {
      ThenOn(Then(out), l, TextAt(p, q));
    }
  }

  lemma ThenOn(out: Bytes, l: Bytes, rest: Bytes)
    requires l != []
    ensures out + (l + ([DOT] + rest)) == Then(out + l) + rest
  {
  }

  lemma GoingStart(p: Bytes, off: nat)
    requires PlainAt(p, off)
    ensures Going(p, off, []) == TextAt(p, off)
  {
    if p[off] == 0 { assert LabelsAt(p, off) == []; }
  }

  lemma Joined(s: Bytes, a: Bytes, b: Bytes)
    requires |s| == |a| + |b| && forall i :: 0 <= i < |s| ==> s[i] == if i < |a| then a[i] else b[i - |a|]
    ensures s == a + b
  {
  }

  // The bytes of a label, behind a dot unless it is the first.
  method TakeLabel(p: Bytes, ptr: nat, n: nat, hostname: array<Byte>, at: nat, limit: nat) returns (pos: nat)
    requires at <= hostname.Length && ptr + n <= |p| && |Then(hostname[..at])| + n <= limit < hostname.Length
    modifies hostname
    ensures pos == |Then(old(hostname[..at]))| + n && hostname[..pos] == Then(old(hostname[..at])) + p[ptr..ptr + n]
  {
    pos := at;
    if pos > 0 {
      hostname[pos] := DOT;
      pos := pos + 1;
    }
    assert hostname[..pos] == Then(old(hostname[..at]));
    pos := TakeBytes(p, ptr, n, hostname, pos, limit);
  }

  method TakeBytes(p: Bytes, ptr: nat, n: nat, hostname: array<Byte>, first: nat, limit: nat) returns (pos: nat)
    requires ptr + n <= |p| && first + n <= limit < hostname.Length
    modifies hostname
    ensures pos == first + n && hostname[..pos] == old(hostname[..first]) + p[ptr..ptr + n]
  {
    hide *;
    pos := first;
    var i: nat := 0;
    while i < n && pos < limit
      invariant i <= n && pos == first + i
      invariant forall k :: 0 <= k < first ==> hostname[k] == old(hostname[k])
      invariant forall k :: first <= k < pos ==> hostname[k] == p[ptr + (k - first)]
    {
      hostname[pos] := p[ptr + i];
      pos, i := pos + 1, i + 1;
    }
    Joined(hostname[..pos], old(hostname[..first]), p[ptr..ptr + n]);
  }

  // A plain name starts with a length, any other with a pointer.
  lemma FirstByte(p: Bytes, off: nat)
    requires NameAt(p, off)
    ensures off < |p| && (PlainAt(p, off) ==> p[off] <= MAX_LABEL)
    ensures !PlainAt(p, off) ==> p[off] >= 0xC0 && off + 1 < |p| && PlainAt(p, Target(p, off)) && NameText(p, off) == TextAt(p, Target(p, off))
  {
  }

  // dns_decode_name on a name of at most maxLen - 1 bytes: its text, and the
  // offset just past it.
  method DecodeName(p: Bytes, offset: nat, hostname: array<Byte>, maxLen: nat) returns (end: nat, ghost len: nat)
    requires NameAt(p, offset) && |NameText(p, offset)| < maxLen <= hostname.Length && maxLen > 1
    modifies hostname
    ensures len < maxLen && hostname[..len] == NameText(p, offset) && hostname[len] == 0 && end == NameEnd(p, offset)
  {
    hide TextAt, Then, PlainAt, EndAt, LabelsAt, Going, Target;
    FirstByte(p, offset);
    var ptr: nat, pos: nat, original: nat, jumped: bool := offset, 0, offset, false;
    if PlainAt(p, offset) { GoingStart(p, offset); }
    ghost var text := NameText(p, offset);
    while p[ptr] != 0 && pos < maxLen - 1
      invariant ptr < |p| && pos <= |text| && (!jumped ==> original == offset) && (PlainAt(p, ptr) || (ptr == offset && !jumped && pos == 0))
      invariant PlainAt(p, ptr) ==> Going(p, ptr, hostname[..pos]) == text
      invariant jumped ==> !PlainAt(p, offset) && original == offset + 2 && PlainAt(p, ptr)
      invariant !jumped && PlainAt(p, ptr) ==> PlainAt(p, offset) && EndAt(p, ptr) == EndAt(p, offset)
      decreases !jumped, |p| - ptr
    {
      FirstByte(p, ptr);
      if p[ptr] >= 0xC0 {
        if !jumped {
          original := original + 2;
        }
        ptr := Target(p, ptr);
        jumped := true;
        FirstByte(p, ptr);
        GoingStart(p, ptr);
        assert hostname[..pos] == [];
      } else {
        var n: nat := p[ptr];
        ptr := ptr + 1;
        if n > MAX_LABEL {
          break;
        }
        GoingStep(p, ptr - 1, hostname[..pos]);
        pos := TakeLabel(p, ptr, n, hostname, pos, maxLen - 1);
        ptr := ptr + n;
        FirstByte(p, ptr);
      }
    }
    NothingLeft(p, ptr, hostname[..pos]);
    len := pos;
    hostname[pos] := 0;
    assert hostname[..len] == text;
    if !jumped {
      original := ptr + 1;
    }
    end := original;
  }

  // Nothing is left of a name that ends here, or whose text is all out.
  lemma NothingLeft(p: Bytes, ptr: nat, out: Bytes)
    requires ptr < |p| && (p[ptr] == 0 || (PlainAt(p, ptr) && |Going(p, ptr, out)| <= |out|))
    ensures PlainAt(p, ptr) && p[ptr] == 0 && Going(p, ptr, out) == out && EndAt(p, ptr) == ptr + 1
  {
    if p[ptr] != 0 {
      GoingStep(p, ptr, out);
    }
  }
}
