// apps/text_editor.c: splitting a file into the editor's list of lines, and
// joining the lines into a file.
module TextFile {
  type Text = seq<char>

  const NUL: char := '\0'

  // The read buffer less its terminator.
  const MAX_BYTES: nat := 65535

  // ---- lines of a text

  predicate IsBreak(c: char) {
    c == '\n' || c == '\r'
  }

  // The first line break at or after from, or where the text stops.
  function FirstBreak(s: Text, from: nat): (k: nat)
    requires from <= |s|
    ensures from <= k <= |s| && (k < |s| ==> IsBreak(s[k]) || s[k] == NUL)
    ensures forall j :: from <= j < k ==> !IsBreak(s[j]) && s[j] != NUL
    decreases |s| - from
  {
    if from == |s| || s[from] == NUL || IsBreak(s[from]) then from else FirstBreak(s, from + 1)
  }

  // Past the break at k: CR LF is one break.
  function After(s: Text, k: nat): (p: nat)
    requires k < |s|
    ensures k < p <= |s|
  {
    if s[k] == '\r' && k + 1 < |s| && s[k + 1] == '\n' then k + 2 else k + 1
  }

  // LF, CR and CR LF end a line; an empty last piece is no line; NUL ends it all.
  function Lines(s: Text): seq<Text>
    decreases |s|
  {
    var k := FirstBreak(s, 0);
    if k == |s| || s[k] == NUL then (if k > 0 then [s[..k]] else [])
    else [s[..k]] + Lines(s[After(s, k)..])
  }

  function Join(lines: seq<Text>): Text {
    if lines == [] then [] else if |lines| == 1 then lines[0] else lines[0] + ['\n'] + Join(lines[1..])
  }

  // Every line break turned into LF, up to a NUL.
  function Normal(s: Text): Text
    decreases |s|
  {
    if s == [] || s[0] == NUL then [] else if IsBreak(s[0]) then ['\n'] + Normal(s[After(s, 0)..]) else [s[0]] + Normal(s[1..])
  }

  function DropBreak(t: Text): Text {
    if t != [] && t[|t| - 1] == '\n' then t[..|t| - 1] else t
  }

  // Character by character: CR LF, LF and CR alone are one LF, NUL ends the text.
  lemma NormalMeans(c: char, s: Text)
    ensures Normal([]) == [] && Normal(['\0'] + s) == [] && Normal(['\n'] + s) == ['\n'] + Normal(s)
    ensures Normal(['\r', '\n'] + s) == ['\n'] + Normal(s)
    ensures (s == [] || s[0] != '\n') ==> Normal(['\r'] + s) == ['\n'] + Normal(s)
    ensures c != '\n' && c != '\r' && c != '\0' ==> Normal([c] + s) == [c] + Normal(s)
  {
    assert (['\n'] + s)[1..] == s && (['\r'] + s)[1..] == s && ([c] + s)[1..] == s && (['\r', '\n'] + s)[2..] == s;
  }

  lemma DropMeans(t: Text, c: char)
    ensures DropBreak([]) == [] && DropBreak(t + ['\n']) == t && (c != '\n' ==> DropBreak(t + [c]) == t + [c])
  {
    assert (t + ['\n'])[..|t|] == t;
  }

  // No line holds a line break or a NUL.
  lemma {:induction false} LinesMeans(s: Text)
    ensures forall l <- Lines(s) :: '\n' !in l && '\r' !in l && '\0' !in l
    decreases |s|
  {
    var k := FirstBreak(s, 0);
    if k < |s| && s[k] != NUL { LinesMeans(s[After(s, k)..]); }
  }

  // ---- saving what was loaded

  lemma {:induction false} NormalPrefix(s: Text, k: nat)
    requires k <= |s| && forall j :: 0 <= j < k ==> !IsBreak(s[j]) && s[j] != NUL
    ensures Normal(s) == s[..k] + Normal(s[k..])
  {
    if k > 0 {
      NormalPrefix(s[1..], k - 1);
      assert s[1..][k - 1..] == s[k..] && s[..k] == [s[0]] + s[1..][..k - 1];
    } else {
      assert s[0..] == s;
    }
  }

  // A text has no lines exactly when nothing of it is left.
  lemma NoLines(s: Text)
    ensures Lines(s) == [] <==> Normal(s) == []
  {
    NormalPrefix(s, FirstBreak(s, 0));
  }

  // Saving what was loaded gives the text with every break an LF and one final
  // break dropped.
  lemma {:induction false} SaveOfLoad(s: Text)
    ensures Join(Lines(s)) == DropBreak(Normal(s))
    decreases |s|
  {
    hide Lines, Normal, Join, DropBreak, After, IsBreak;
    var k := FirstBreak(s, 0);
    NormalPrefix(s, k);
    LinesCut(s);
    if k == |s| || s[k] == NUL {
      NoBreak(s, k);
    } else {
      var rest := s[After(s, k)..];
      SaveOfLoad(rest);
      NoLines(rest);
      BreakThen(s, k);
      JoinCons(s[..k], Lines(rest));
      if Lines(rest) == [] {
        DropMeans(s[..k], ' ');
        assert Normal(s) == s[..k] + ['\n'];
      } else {
        assert Normal(s) == (s[..k] + ['\n']) + Normal(rest);
        DropLast(s[..k] + ['\n'], Normal(rest));
      }
    }
  }

  lemma LinesCut(s: Text)
    ensures var k := FirstBreak(s, 0);
      Lines(s) == if k == |s| || s[k] == NUL then (if k > 0 then [s[..k]] else []) else [s[..k]] + Lines(s[After(s, k)..])
  {
  }

  lemma NoBreak(s: Text, k: nat)
    requires k <= |s| && (k == |s| || s[k] == NUL) && forall j :: 0 <= j < k ==> !IsBreak(s[j])
    ensures Normal(s[k..]) == [] && s[..k] + [] == s[..k] && DropBreak(s[..k]) == s[..k]
    ensures Join(if k > 0 then [s[..k]] else []) == s[..k]
  {
  }

  lemma JoinCons(l: Text, rest: seq<Text>)
    ensures Join([l] + rest) == if rest == [] then l else l + ['\n'] + Join(rest)
  {
    assert ([l] + rest)[1..] == rest;
  }

  lemma BreakThen(s: Text, k: nat)
    requires k < |s| && IsBreak(s[k])
    ensures Normal(s[k..]) == ['\n'] + Normal(s[After(s, k)..])
  {
    assert s[k..][After(s[k..], 0)..] == s[After(s, k)..];
  }

  lemma DropLast(a: Text, b: Text)
    requires b != []
    ensures DropBreak(a + b) == a + DropBreak(b)
  {
  }

  // ---- loading what was saved

  predicate Plain(l: Text) {
    forall j :: 0 <= j < |l| ==> !IsBreak(l[j]) && l[j] != NUL
  }

  lemma LinesStep(l: Text, rest: Text)
    requires Plain(l)
    ensures Lines(l + ['\n'] + rest) == [l] + Lines(rest)
  {
    var s := l + ['\n'] + rest;
    var k := FirstBreak(s, 0);
    assert s[|l|] == '\n';
    assert forall j :: 0 <= j < |l| ==> s[j] == l[j];
    assert k == |l|;
    assert s[..k] == l && s[After(s, k)..] == rest;
  }

  lemma LinesLast(l: Text)
    requires Plain(l)
    ensures Lines(l) == if l == [] then [] else [l]
  {
    assert l[..|l|] == l;
  }

  // Loading what was saved gives the same lines exactly when the last one is
  // not empty.
  lemma LoadOfSave(lines: seq<Text>)
    requires forall i :: 0 <= i < |lines| ==> '\n' !in lines[i] && '\r' !in lines[i] && '\0' !in lines[i]
    ensures Lines(Join(lines)) == lines <==> lines == [] || lines[|lines| - 1] != []
    ensures lines != [] && lines[|lines| - 1] == [] ==> Lines(Join(lines)) == lines[..|lines| - 1]
  {
    hide Lines, Join;
    LoadJoined(lines);
  }

  lemma {:induction false} LoadJoined(lines: seq<Text>)
    requires forall i :: 0 <= i < |lines| ==> Plain(lines[i])
    ensures Lines(Join(lines)) == lines <==> lines == [] || lines[|lines| - 1] != []
    ensures lines != [] && lines[|lines| - 1] == [] ==> Lines(Join(lines)) == lines[..|lines| - 1]
  {
    if |lines| == 1 {
      LinesLast(lines[0]);
    } else if |lines| > 1 {
      LoadJoined(lines[1..]);
      LinesStep(lines[0], Join(lines[1..]));
      assert lines == [lines[0]] + lines[1..];
      assert lines[..|lines| - 1] == [lines[0]] + lines[1..][..|lines| - 2];
    }
  }

  // ---- the size of a saved file

  function Total(lines: seq<Text>): nat {
    if lines == [] then 0 else |lines[0]| + Total(lines[1..])
  }

  lemma {:induction false} JoinSize(lines: seq<Text>)
    ensures |Join(lines)| == if lines == [] then 0 else Total(lines) + |lines| - 1
  {
    if |lines| > 1 { JoinSize(lines[1..]); }
  }

  lemma {:induction false} JoinSnoc(lines: seq<Text>, l: Text)
    ensures Join(lines + [l]) == if lines == [] then l else Join(lines) + ['\n'] + l
  {
    var t := lines + [l];
    if |lines| == 1 {
      assert t[1..] == [l];
    } else if |lines| > 1 {
      assert t[1..] == lines[1..] + [l];
      JoinSnoc(lines[1..], l);
    }
  }

  lemma {:induction false} TotalSnoc(lines: seq<Text>, l: Text)
    ensures Total(lines + [l]) == Total(lines) + |l|
  {
    var t := lines + [l];
    if lines == [] {
      assert t[1..] == [];
    } else {
      assert t[1..] == lines[1..] + [l];
      TotalSnoc(lines[1..], l);
    }
  }

  // ---- the editor

  class Line {
    const content: Text
    var next: Line?
    var prev: Line?

    constructor (content: Text)
      ensures this.content == content && next == null && prev == null
    {
      this.content, next, prev := content, null, null;
    }
  }

  ghost function At(s: seq<Line>, i: int): Line? {
    if 0 <= i < |s| then s[i] else null
  }

  ghost function Texts(s: seq<Line>): (r: seq<Text>)
    ensures |r| == |s| && forall i :: 0 <= i < |s| ==> r[i] == s[i].content
  {
    seq(|s|, i requires 0 <= i < |s| => s[i].content)
  }

  class Editor {
    var lines: Line?
    var lineCount: nat
    ghost var list: seq<Line>

    ghost predicate Linked()
      reads this, list
    {
      (forall i, j :: 0 <= i < j < |list| ==> list[i] != list[j]) && lines == At(list, 0) && lineCount == |list| &&
      forall i: nat {:trigger list[i].next} {:trigger list[i].prev} :: i < |list| ==> list[i].next == At(list, i + 1) && list[i].prev == At(list, i - 1)
    }

    constructor ()
      ensures Linked() && list == []
    {
      lines, lineCount, list := null, 0, [];
    }

    // A new line goes to the end, found by walking the list.
    method Append(content: Text)
      requires Linked()
      modifies this, list
      ensures Linked() && (forall l <- list :: l in old(list) || fresh(l)) && Texts(list) == old(Texts(list)) + [content]
    {
      var line := new Line(content);
      if lines == null {
        lines := line;
      } else {
        var last := lines;
        ghost var k: nat := 0;
        while last.next != null
          invariant k < |list| && last == list[k]
          decreases |list| - k
        {
          last, k := last.next, k + 1;
        }
        last.next := line;
        line.prev := last;
      }
      list := list + [line];
      lineCount := lineCount + 1;
      assert Texts(list) == old(Texts(list)) + [content];
    }

    // text_editor_load_file once the file was read: buffer is what it holds.
    method Load(buffer: Text)
      requires |buffer| <= MAX_BYTES
      modifies this
      ensures Linked() && (forall l <- list :: fresh(l)) && Texts(list) == Lines(buffer)
    {
      hide Scanned, Lines, FirstBreak, Linked, Texts;
      lines, lineCount, list := null, 0, [];
      StartEmpty();
      var start, ptr := 0, 0;
      ScanStart(buffer);
      while ptr < |buffer| && buffer[ptr] != NUL
        invariant Linked() && (forall l <- list :: fresh(l)) && Scanned(Texts(list), buffer, start, ptr)
        invariant start <= ptr <= |buffer|
        decreases |buffer| - ptr
      {
        if IsBreak(buffer[ptr]) {
          ScanBreak(Texts(list), buffer, start, ptr);
          assert forall i :: 0 <= i < |list| ==> list[i] in list;
          Append(buffer[start..ptr]);
          ptr := if buffer[ptr] == '\r' && ptr + 1 < |buffer| && buffer[ptr + 1] == '\n' then ptr + 2 else ptr + 1;
          start := ptr;
        } else {
          ScanOn(Texts(list), buffer, start, ptr);
          ptr := ptr + 1;
        }
      }
      ScanEnd(Texts(list), buffer, start, ptr);
      if start < ptr {
        assert forall i :: 0 <= i < |list| ==> list[i] in list;
        Append(buffer[start..ptr]);
      }
    }

    lemma StartEmpty()
      requires list == [] && lines == null && lineCount == 0
      ensures Linked() && Texts(list) == []
    {
    }

    // The allocation of text_editor_save_file: a byte more per line.
    method Measure() returns (total: nat)
      requires Linked()
      ensures total == Total(Texts(list)) + |list|
    {
      total := 0;
      var line := lines;
      ghost var k: nat := 0;
      ghost var t := Texts(list);
      while line != null
        invariant k <= |list| && line == At(list, k) && total == Total(t[..k]) + k
        decreases |list| - k
      {
        TotalSnoc(t[..k], t[k]);
        assert t[..k + 1] == t[..k] + [t[k]];
        total := total + |line.content| + 1;
        line, k := line.next, k + 1;
      }
      assert t[..k] == t;
    }

    // text_editor_save_file up to the write: what goes to the file, which always
    // fits the buffer allocated for it.
    method Save() returns (file: Text)
      requires Linked()
      ensures file == Join(Texts(list))
    {
      hide Saved, Total, Join, Linked, Texts;
      var total := Measure();
      var content := new char[total + 1];
      var offset := 0;
      var line := lines;
      ghost var k: nat := 0;
      ghost var t := Texts(list);
      HeadIs();
      SavedStart(t);
      while line != null
        invariant k <= |t| && line == At(list, k) && 0 <= offset <= content.Length && content[..offset] == Saved(t, k)
        decreases |t| - k
      {
        SavedStep(t, k);
        NodeAt(k);
        CopyLine(content, offset, line.content);
        offset := offset + |line.content|;
        if line.next != null {
          content[offset] := '\n';
          offset := offset + 1;
        }
        line, k := line.next, k + 1;
      }
      SavedEnd(t);
      content[offset] := NUL;
      file := content[..offset];
    }

    lemma HeadIs()
      requires Linked()
      ensures lines == At(list, 0)
    {
    }

    lemma NodeAt(k: nat)
      requires Linked() && k < |list|
      ensures list[k].next == At(list, k + 1) && Texts(list)[k] == list[k].content && (At(list, k + 1) == null <==> k + 1 == |list|)
    {
    }

    // memory_copy of one line.
    method CopyLine(content: array<char>, offset: nat, text: Text)
      requires offset + |text| <= content.Length
      modifies content
      ensures content[..offset + |text|] == old(content[..offset]) + text
    {
      var i := 0;
      while i < |text|
        invariant 0 <= i <= |text| && content[..offset] == old(content[..offset])
        invariant forall j :: 0 <= j < i ==> content[offset + j] == text[j]
      {
        content[offset + i] := text[i];
        i := i + 1;
      }
    }
  }

  // The file after k lines went out.
  ghost function Saved(t: seq<Text>, k: nat): Text
    requires k <= |t|
  {
    Join(t[..k]) + if 0 < k < |t| then ['\n'] else []
  }

  lemma SavedStart(t: seq<Text>)
    ensures Saved(t, 0) == []
  {
    assert t[..0] == [];
  }

  lemma SavedEnd(t: seq<Text>)
    ensures Saved(t, |t|) == Join(t) && |Saved(t, |t|)| <= Total(t) + |t|
  {
    assert t[..|t|] == t;
    JoinSize(t);
  }

  // One line more, within the bytes counted for the lines.
  lemma SavedStep(t: seq<Text>, k: nat)
    requires k < |t|
    ensures Saved(t, k + 1) == Saved(t, k) + t[k] + if k + 1 < |t| then ['\n'] else []
    ensures |Saved(t, k)| + |t[k]| + 1 <= Total(t) + |t|
  {
    assert t[..k + 1] == t[..k] + [t[k]];
    JoinSnoc(t[..k], t[k]);
    JoinSize(t[..k]);
    TotalSnoc(t[..k], t[k]);
    TotalPrefix(t, k + 1);
    assert k == 0 ==> t[..k] == [];
  }

  lemma {:induction false} TotalPrefix(t: seq<Text>, k: nat)
    requires k <= |t|
    ensures Total(t[..k]) <= Total(t)
  {
    if k > 0 {
      TotalPrefix(t[1..], k - 1);
      assert t[..k][1..] == t[1..][..k - 1];
    }
  }

  // The lines in acc are what comes before start, and no line ends from there
  // to ptr.
  ghost predicate Scanned(acc: seq<Text>, b: Text, start: nat, ptr: nat) {
    start <= ptr <= |b| && Lines(b) == acc + Lines(b[start..]) && forall j :: start <= j < ptr ==> !IsBreak(b[j]) && b[j] != NUL
  }

  lemma ScanStart(b: Text)
    ensures Scanned([], b, 0, 0)
  {
    assert b[0..] == b;
  }

  lemma ScanOn(acc: seq<Text>, b: Text, start: nat, ptr: nat)
    requires Scanned(acc, b, start, ptr) && ptr < |b| && !IsBreak(b[ptr]) && b[ptr] != NUL
    ensures Scanned(acc, b, start, ptr + 1)
  {
  }

  lemma ScanBreak(acc: seq<Text>, b: Text, start: nat, ptr: nat)
    requires Scanned(acc, b, start, ptr) && ptr < |b| && IsBreak(b[ptr])
    ensures Scanned(acc + [b[start..ptr]], b, After(b, ptr), After(b, ptr))
  {
    hide Lines, After, FirstBreak;
    var s := b[start..];
    BreakIs(b, start, ptr);
    LinesCut(s);
    PastBreak(b, start, ptr);
    assert (acc + [b[start..ptr]]) + Lines(b[After(b, ptr)..]) == acc + ([b[start..ptr]] + Lines(b[After(b, ptr)..]));
  }

  lemma BreakIs(b: Text, start: nat, ptr: nat)
    requires start <= ptr < |b| && IsBreak(b[ptr]) && forall j :: start <= j < ptr ==> !IsBreak(b[j]) && b[j] != NUL
    ensures FirstBreak(b[start..], 0) == ptr - start && b[start..][ptr - start] == b[ptr] != NUL
  {
    var s := b[start..];
    assert s[ptr - start] == b[ptr];
    assert forall j :: 0 <= j < ptr - start ==> s[j] == b[start + j];
  }

  lemma PastBreak(b: Text, start: nat, ptr: nat)
    requires start <= ptr < |b|
    ensures var s := b[start..]; s[..ptr - start] == b[start..ptr] && s[After(s, ptr - start)..] == b[After(b, ptr)..]
  {
    var s := b[start..];
    assert s[ptr - start] == b[ptr] && (ptr + 1 < |b| ==> s[ptr - start + 1] == b[ptr + 1]);
  }

  lemma ScanEnd(acc: seq<Text>, b: Text, start: nat, ptr: nat)
    requires Scanned(acc, b, start, ptr) && (ptr == |b| || b[ptr] == NUL)
    ensures Lines(b) == if start < ptr then acc + [b[start..ptr]] else acc
  {
    var s := b[start..];
    var k := FirstBreak(s, 0);
    assert ptr < |b| ==> s[ptr - start] == b[ptr];
    assert forall j :: 0 <= j < ptr - start ==> s[j] == b[start + j];
    assert k == ptr - start && s[..k] == b[start..ptr];
  }
}
