// build_exclude/memory_advanced.c: compress_page, a run-length encoder that
// stops as soon as it saves nothing.
module PageCompress {
  type Byte = n: nat | n < 256

  const MARKER: Byte := 0xFF

  // ---- what the encoder writes

  // How many times s[i] repeats from i on, counted in a byte.
  function RunFrom(s: seq<Byte>, i: nat, count: nat): (n: nat)
    requires i + count <= |s| && count <= 255
    ensures count <= n <= 255 && i + n <= |s|
    ensures n < 255 && i + n < |s| ==> s[i + n] != s[i]
    decreases |s| - i - count
  {
    if i + count < |s| && s[i + count] == s[i] && count < 255 then RunFrom(s, i, count + 1) else count
  }

  function Repeat(b: Byte, n: nat): (r: seq<Byte>)
    ensures |r| == n && forall k :: 0 <= k < n ==> r[k] == b
  {
    seq(n, _ => b)
  }

  // One turn of the main loop.
  function Chunk(b: Byte, count: nat): seq<Byte>
    requires count <= 255
  {
    if count > 3 then [MARKER, count, b] else Repeat(b, count)
  }

  // The output from input position i on, when o bytes are out already.
  function Packed(s: seq<Byte>, i: nat, o: nat): seq<Byte>
    requires i <= |s|
    decreases |s| - i
  {
    if i < |s| && o < |s| - 1 then
      var n := RunFrom(s, i, 1);
      Chunk(s[i], n) + Packed(s, i + n, o + |Chunk(s[i], n)|)
    else []
  }

  // Where the input position ends up.
  function Reached(s: seq<Byte>, i: nat, o: nat): (r: nat)
    requires i <= |s|
    ensures i <= r <= |s|
    decreases |s| - i
  {
    if i < |s| && o < |s| - 1 then
      var n := RunFrom(s, i, 1);
      Reached(s, i + n, o + |Chunk(s[i], n)|)
    else i
  }

  // The output never overtakes the input, so it fits; and input is left over
  // only when nothing at all was saved on what was read.
  lemma {:induction false} PackedFits(s: seq<Byte>, i: nat, o: nat)
    requires o <= i <= |s|
    ensures o + |Packed(s, i, o)| <= Reached(s, i, o) <= |s|
    ensures Reached(s, i, o) < |s| ==> o + |Packed(s, i, o)| == Reached(s, i, o) == |s| - 1
    decreases |s| - i
  {
    if i < |s| && o < |s| - 1 {
      var n := RunFrom(s, i, 1);
      PackedFits(s, i + n, o + |Chunk(s[i], n)|);
    }
  }

  // ---- reading it back

  function Unpack(b: seq<Byte>): seq<Byte> {
    if b == [] then []
    else if b[0] == MARKER && |b| >= 3 then Repeat(b[2], b[1]) + Unpack(b[3..])
    else [b[0]] + Unpack(b[1..])
  }

  lemma {:induction false} RunIsRun(s: seq<Byte>, i: nat, count: nat)
    requires 1 <= count && i + count <= |s| && count <= 255 && forall k :: i <= k < i + count ==> s[k] == s[i]
    ensures forall k :: i <= k < i + RunFrom(s, i, count) ==> s[k] == s[i]
    decreases |s| - i - count
  {
    if i + count < |s| && s[i + count] == s[i] && count < 255 { RunIsRun(s, i, count + 1); }
  }

  lemma RunSlice(s: seq<Byte>, i: nat, n: nat, end: nat)
    requires i + n <= end <= |s| && forall k :: i <= k < i + n ==> s[k] == s[i]
    ensures n > 0 ==> s[i..end] == Repeat(s[i], n) + s[i + n..end]
  {
  }

  lemma {:induction false} UnpackLiterals(b: Byte, n: nat, rest: seq<Byte>)
    requires b != MARKER
    ensures Unpack(Repeat(b, n) + rest) == Repeat(b, n) + Unpack(rest)
  {
    if n == 0 {
      assert Repeat(b, n) + rest == rest;
      assert Repeat(b, n) + Unpack(rest) == Unpack(rest);
    } else {
      UnpackLiterals(b, n - 1, rest);
      RepeatStep(b, n, rest);
      RepeatStep(b, n, Unpack(rest));
      hide Repeat;
      UnpackOne(b, Repeat(b, n - 1) + rest);
    }
  }

  lemma RepeatStep(b: Byte, n: nat, rest: seq<Byte>)
    requires n > 0
    ensures Repeat(b, n) + rest == [b] + (Repeat(b, n - 1) + rest)
  {
  }

  lemma UnpackOne(b: Byte, rest: seq<Byte>)
    requires b != MARKER
    ensures Unpack([b] + rest) == [b] + Unpack(rest)
  {
    assert ([b] + rest)[1..] == rest;
  }

  lemma UnpackChunk(b: Byte, n: nat, rest: seq<Byte>)
    requires 1 <= n <= 255 && (b == MARKER ==> n > 3)
    ensures Unpack(Chunk(b, n) + rest) == Repeat(b, n) + Unpack(rest)
  {
    if n > 3 {
      var t := [MARKER, n, b] + rest;
      assert t[3..] == rest;
    } else {
      UnpackLiterals(b, n, rest);
    }
  }

  // ---- the encoder

  // The run at position i.
  method CountRun(input: array<Byte>, i: nat) returns (count: nat)
    requires i < input.Length
    ensures count == RunFrom(input[..], i, 1)
  {
    count := 1;
    while i + count < input.Length && input[i + count] == input[i] && count < 255
      invariant 1 <= count <= 255 && i + count <= input.Length && RunFrom(input[..], i, 1) == RunFrom(input[..], i, count)
    {
      count := count + 1;
    }
  }

  // Writing one chunk at position o.
  method Emit(output: array<Byte>, o: nat, current: Byte, count: nat) returns (end: nat)
    requires 1 <= count <= 255 && o + |Chunk(current, count)| <= output.Length
    modifies output
    ensures end == o + |Chunk(current, count)|
    ensures output[..end] == old(output[..o]) + Chunk(current, count) && output[end..] == old(output[end..])
  {
    if count > 3 {
      output[o], output[o + 1], output[o + 2] := MARKER, count, current;
      return o + 3;
    }
    var j := 0;
    while j < count
      invariant 0 <= j <= count && output[..o] == old(output[..o]) && output[o + count..] == old(output[o + count..])
      invariant forall k :: o <= k < o + j ==> output[k] == current
    {
      output[o + j] := current;
      j := j + 1;
    }
    end := o + count;
  }

  // compress_page
  method CompressPage(input: array<Byte>, output: array<Byte>) returns (size: nat)
    requires output != input && output.Length >= input.Length
    modifies output
    ensures size == |Packed(input[..], 0, 0)| && size <= input.Length
    ensures output[..size] == Packed(input[..], 0, 0) && output[size..] == old(output[size..])
  {
    hide Chunk, Packed, RunFrom, Reached;
    ghost var s := input[..];
    PackedFits(s, 0, 0);
    var i, o := 0, 0;
    while i < input.Length && o < input.Length - 1
      invariant o <= i <= input.Length && input[..] == s
      invariant Packed(s, 0, 0) == output[..o] + Packed(s, i, o)
      invariant output[o..] == old(output[o..])
    {
      var count := CountRun(input, i);
      PackedStep(s, i, o, output[..o]);
      ghost var tail := output[o..];
      var end := Emit(output, o, input[i], count);
      assert output[end..] == tail[end - o..] == old(output[end..]);
      o := end;
      i := i + count;
    }
    PackedEnd(s, i, o);
    size := o;
  }

  lemma PackedStep(s: seq<Byte>, i: nat, o: nat, before: seq<Byte>)
    requires o <= i < |s| && o < |s| - 1 && Packed(s, 0, 0) == before + Packed(s, i, o)
    ensures |Chunk(s[i], RunFrom(s, i, 1))| <= RunFrom(s, i, 1)
    ensures var n := RunFrom(s, i, 1); Packed(s, 0, 0) == (before + Chunk(s[i], n)) + Packed(s, i + n, o + |Chunk(s[i], n)|)
  {
    hide Packed, Chunk, Repeat;
    var n := RunFrom(s, i, 1);
    ChunkSize(s[i], n);
    PackedTurn(s, i, o);
    Regrouped(before, Chunk(s[i], n), Packed(s, i + n, o + |Chunk(s[i], n)|));
  }

  lemma ChunkSize(b: Byte, count: nat)
    requires count <= 255
    ensures |Chunk(b, count)| <= count
  {
  }

  lemma PackedTurn(s: seq<Byte>, i: nat, o: nat)
    requires i < |s| && o < |s| - 1
    ensures var n := RunFrom(s, i, 1); Packed(s, i, o) == Chunk(s[i], n) + Packed(s, i + n, o + |Chunk(s[i], n)|)
  {
    hide Chunk, Repeat;
  }

  lemma Regrouped(a: seq<Byte>, b: seq<Byte>, c: seq<Byte>)
    ensures a + (b + c) == (a + b) + c
  {
  }

  lemma PackedEnd(s: seq<Byte>, i: nat, o: nat)
    requires i <= |s| && !(i < |s| && o < |s| - 1)
    ensures Packed(s, i, o) == []
  {
  }
}
