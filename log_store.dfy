/** The in-memory, per-session log buffer: decoded output chunks are split on line feeds,
    the first piece continues the current last line, trailing carriage returns are trimmed
    and at most `MAX_LINES` lines are kept, the oldest evicted first. */
module Logs {
  import opened Util
  import opened Sessions

  const MAX_LINES: nat := 10000

  /** `trim_end_matches('\r')`: the longest prefix not ending in a carriage return, where
      only carriage returns were cut. */
  function TrimCR(s: string): (r: string)
    ensures |r| <= |s| && r == s[..|r|]
    ensures |r| == 0 || r[|r| - 1] != '\r'
    ensures forall k :: |r| <= k < |s| ==> s[k] == '\r'
    decreases |s|
  {
    if |s| > 0 && s[|s| - 1] == '\r' then TrimCR(s[..|s| - 1]) else s
  }

  lemma TrimCRNoCR(s: string)
    requires '\r' !in s
    ensures TrimCR(s) == s
  {
  }

  /** A stored line never holds a line feed and never ends in a carriage return. */
  predicate WellFormedLine(l: string)
  {
    '\n' !in l && (|l| == 0 || l[|l| - 1] != '\r')
  }

  predicate WellFormed(buffer: seq<string>)
  {
    forall k :: 0 <= k < |buffer| ==> WellFormedLine(buffer[k])
  }

  /** Each piece with its trailing carriage returns trimmed. */
  function TrimAll(parts: seq<string>): (r: seq<string>)
    ensures |r| == |parts| && forall k :: 0 <= k < |r| ==> r[k] == TrimCR(parts[k])
  {
    seq(|parts|, k requires 0 <= k < |parts| => TrimCR(parts[k]))
  }

  lemma TrimAllSnoc(parts: seq<string>, i: nat)
    requires 1 <= i < |parts|
    ensures TrimAll(parts[1..i + 1]) == TrimAll(parts[1..i]) + [TrimCR(parts[i])]
  {
  }

  /** The buffer with `first` continuing its last line (or as its only line when empty). */
  function Continue(buffer: seq<string>, first: string): (r: seq<string>)
    ensures |r| == if buffer == [] then 1 else |buffer|
  {
    if buffer == [] then [first] else buffer[..|buffer| - 1] + [buffer[|buffer| - 1] + first]
  }

  /** The buffer after one chunk, before eviction. */
  function Grow(buffer: seq<string>, text: string): (r: seq<string>)
    ensures r != [] && |r| >= |buffer|
  {
    var parts := Split(text, '\n');
    Continue(buffer, TrimCR(parts[0])) + TrimAll(parts[1..])
  }

  /** FIFO eviction: the newest `MAX_LINES` lines. */
  function Cap(lines: seq<string>): (r: seq<string>)
    ensures |r| == Min(|lines|, MAX_LINES)
    ensures r == lines[|lines| - |r|..]
  {
    if |lines| > MAX_LINES then lines[|lines| - MAX_LINES..] else lines
  }

  /** The buffer after `append`, as a function of the buffer before it. */
  function AppendSpec(buffer: seq<string>, text: string): seq<string>
  {
    Cap(Grow(buffer, text))
  }

  /** The buffer after a sequence of chunks appended one by one. */
  function AppendAll(buffer: seq<string>, chunks: seq<string>): seq<string>
    decreases |chunks|
  {
    if chunks == [] then buffer
    else AppendSpec(AppendAll(buffer, chunks[..|chunks| - 1]), chunks[|chunks| - 1])
  }

  /** One more chunk: the fold over a longer prefix is one more append. */
  lemma AppendAllSnoc(buffer: seq<string>, chunks: seq<string>, j: nat)
    requires j < |chunks|
    ensures AppendAll(buffer, chunks[..j + 1]) == AppendSpec(AppendAll(buffer, chunks[..j]), chunks[j])
  {
    assert chunks[..j + 1][..j] == chunks[..j];
  }

  /** The cap holds after every append, and eviction drops only a prefix of the oldest lines. */
  lemma AppendBounded(buffer: seq<string>, text: string)
    ensures |AppendSpec(buffer, text)| <= MAX_LINES
    ensures var g := Grow(buffer, text); var r := AppendSpec(buffer, text);
      r == g[|g| - |r|..]
  {
  }

  /** Without eviction: `k` line feeds add `k` lines to a non-empty buffer and `k + 1` to an
      empty one; the lines before the last are untouched and the old last line is a prefix of
      the line now at its index. */
  lemma {:induction false} AppendGrowth(buffer: seq<string>, text: string)
    requires |buffer| + Occurrences(text, '\n') + (if buffer == [] then 1 else 0) <= MAX_LINES
    ensures var r := AppendSpec(buffer, text);
      && |r| == |buffer| + Occurrences(text, '\n') + (if buffer == [] then 1 else 0)
      && (forall k :: 0 <= k < |buffer| - 1 ==> r[k] == buffer[k])
      && (buffer != [] ==> StartsWith(r[|buffer| - 1], buffer[|buffer| - 1]))
  {
    var parts := Split(text, '\n');
    var g := Grow(buffer, text);
    assert |g| == |buffer| + Occurrences(text, '\n') + (if buffer == [] then 1 else 0);
    if buffer != [] {
      var last := buffer[|buffer| - 1];
      assert g[|buffer| - 1] == last + TrimCR(parts[0]);
      assert (last + TrimCR(parts[0]))[..|last|] == last;
    }
  }

  /** Appending keeps every stored line well formed. */
  lemma AppendWellFormed(buffer: seq<string>, text: string)
    requires WellFormed(buffer)
    ensures WellFormed(AppendSpec(buffer, text))
  {
    var parts := Split(text, '\n');
    var c := Continue(buffer, TrimCR(parts[0]));
    TrimmedLine(parts[0]);
    ContinueWellFormed(buffer, TrimCR(parts[0]));
    var rest := TrimAll(parts[1..]);
    TrimAllWellFormed(parts[1..]);
    var g := c + rest;
    WellFormedConcat(c, rest);
    var r := AppendSpec(buffer, text);
    forall k | 0 <= k < |r| ensures WellFormedLine(r[k]) {
      assert r[k] == g[|g| - |r| + k];
    }
  }

  lemma TrimmedLine(piece: string)
    requires '\n' !in piece
    ensures WellFormedLine(TrimCR(piece))
  {
    AbsentPrefix(piece, |TrimCR(piece)|, '\n');
  }

  lemma JoinedLine(last: string, first: string)
    requires WellFormedLine(last) && WellFormedLine(first)
    ensures WellFormedLine(last + first)
  {
    AbsentConcat(last, first, '\n');
    if first == [] {
      assert last + first == last;
    } else {
      assert (last + first)[|last + first| - 1] == first[|first| - 1];
    }
  }

  lemma WellFormedConcat(a: seq<string>, b: seq<string>)
    requires WellFormed(a) && WellFormed(b)
    ensures WellFormed(a + b)
  {
    forall k | 0 <= k < |a + b| ensures WellFormedLine((a + b)[k]) {
      if k < |a| {
        assert (a + b)[k] == a[k];
      } else {
        assert (a + b)[k] == b[k - |a|];
      }
    }
  }

  lemma ContinueWellFormed(buffer: seq<string>, first: string)
    requires WellFormed(buffer) && WellFormedLine(first)
    ensures WellFormed(Continue(buffer, first))
  {
    if buffer != [] {
      var n := |buffer|;
      var prefix := buffer[..n - 1];
      var joined := buffer[n - 1] + first;
      assert WellFormedLine(joined) by {
        assert WellFormedLine(buffer[n - 1]);
        JoinedLine(buffer[n - 1], first);
      }
      assert WellFormed(prefix) by {
        forall k | 0 <= k < |prefix| ensures WellFormedLine(prefix[k]) {
          assert prefix[k] == buffer[k];
        }
      }
      WellFormedConcat(prefix, [joined]);
    }
  }

  lemma TrimAllWellFormed(parts: seq<string>)
    requires forall k :: 0 <= k < |parts| ==> '\n' !in parts[k]
    ensures WellFormed(TrimAll(parts))
  {
    var rest := TrimAll(parts);
    forall k | 0 <= k < |rest| ensures WellFormedLine(rest[k]) {
      var p := parts[k];
      forall m | 0 <= m < |rest[k]| ensures rest[k][m] != '\n' { assert rest[k][m] == p[m]; }
    }
  }

  /** Growing twice with carriage-return-free text is growing once with the concatenation. */
  lemma {:induction false} GrowConcat(buffer: seq<string>, x: string, y: string)
    requires '\r' !in x && '\r' !in y
    ensures Grow(Grow(buffer, x), y) == Grow(buffer, x + y)
  {
    var a, b := Split(x, '\n'), Split(y, '\n');
    SplitAppend(x, y, '\n');
    SplitKeepsAbsent(x, '\n', '\r');
    SplitKeepsAbsent(y, '\n', '\r');
    var p := Split(x + y, '\n');
    forall k | 0 <= k < |p| ensures '\r' !in p[k] {
      SplitKeepsAbsent(x + y, '\n', '\r');
    }
    TrimAllNoCR(a);
    TrimAllNoCR(b);
    TrimAllNoCR(p);
    var g1 := Grow(buffer, x);
    assert g1 == Continue(buffer, a[0]) + a[1..];
    assert Grow(g1, y) == Continue(g1, b[0]) + b[1..];
    assert Grow(buffer, x + y) == Continue(buffer, p[0]) + p[1..];
    if |a| == 1 {
      GrowConcatOnePiece(buffer, a, b, p);
    } else {
      GrowConcatPieces(buffer, a, b, p);
    }
  }

  lemma TrimAllNoCR(parts: seq<string>)
    requires forall k :: 0 <= k < |parts| ==> '\r' !in parts[k]
    ensures |parts| >= 1 ==> TrimCR(parts[0]) == parts[0] && TrimAll(parts[1..]) == parts[1..]
  {
    forall k | 0 <= k < |parts| ensures TrimCR(parts[k]) == parts[k] { TrimCRNoCR(parts[k]); }
  }

  lemma GrowConcatOnePiece(buffer: seq<string>, a: seq<string>, b: seq<string>, p: seq<string>)
    requires |a| == 1 && |b| >= 1
    requires p == a[..|a| - 1] + [a[|a| - 1] + b[0]] + b[1..]
    ensures var g1 := Continue(buffer, a[0]) + a[1..];
      Continue(g1, b[0]) + b[1..] == Continue(buffer, p[0]) + p[1..]
  {
    assert p == [a[0] + b[0]] + b[1..];
    assert p[0] == a[0] + b[0] && p[1..] == b[1..];
    assert a[1..] == [];
    var g1 := Continue(buffer, a[0]);
    assert Continue(buffer, a[0]) + a[1..] == g1;
    if buffer != [] {
      var n := |buffer|;
      assert g1[..|g1| - 1] == buffer[..n - 1];
      assert g1[|g1| - 1] == buffer[n - 1] + a[0];
      assert Continue(g1, b[0]) == buffer[..n - 1] + [(buffer[n - 1] + a[0]) + b[0]];
      assert (buffer[n - 1] + a[0]) + b[0] == buffer[n - 1] + (a[0] + b[0]);
    } else {
      assert Continue(g1, b[0]) == [a[0] + b[0]];
    }
  }

  lemma GrowConcatPieces(buffer: seq<string>, a: seq<string>, b: seq<string>, p: seq<string>)
    requires |a| >= 2 && |b| >= 1
    requires p == a[..|a| - 1] + [a[|a| - 1] + b[0]] + b[1..]
    ensures var g1 := Continue(buffer, a[0]) + a[1..];
      Continue(g1, b[0]) + b[1..] == Continue(buffer, p[0]) + p[1..]
  {
    assert p[0] == a[0];
    assert p[1..] == a[1..|a| - 1] + [a[|a| - 1] + b[0]] + b[1..];
    var c := Continue(buffer, a[0]);
    var g1 := c + a[1..];
    assert g1[..|g1| - 1] == c + a[1..|a| - 1];
    assert g1[|g1| - 1] == a[|a| - 1];
  }

  /** Growing commutes with dropping old lines, as long as one line is left. */
  lemma GrowDrop(g: seq<string>, k: nat, y: string)
    requires k < |g|
    ensures Grow(g[k..], y) == Grow(g, y)[k..]
  {
    var parts := Split(y, '\n');
    var first := TrimCR(parts[0]);
    var rest := TrimAll(parts[1..]);
    var n := |g|;
    var joined := g[n - 1] + first;
    assert g[k..][..n - k - 1] == g[k..n - 1];
    assert Continue(g[k..], first) == g[k..n - 1] + [joined];
    assert Continue(g, first) == g[..n - 1] + [joined];
    DropConcat(g[..n - 1], [joined], k);
    assert g[..n - 1][k..] == g[k..n - 1];
    DropConcat(g[..n - 1] + [joined], rest, k);
  }

  /** Capping after dropping old lines is capping, when at least the cap is left. */
  lemma CapDrop(g: seq<string>, k: nat)
    requires k <= |g| && (k == 0 || |g| - k >= MAX_LINES)
    ensures Cap(g[k..]) == Cap(g)
  {
    if k > 0 {
      DropDrop(g, k, |g| - k - MAX_LINES);
    } else {
      assert g[k..] == g;
    }
  }

  /** Eviction before growing loses nothing that eviction after growing keeps. */
  lemma GrowCapped(g: seq<string>, y: string)
    ensures Cap(Grow(Cap(g), y)) == Cap(Grow(g, y))
  {
    if g != [] {
      var k := |g| - |Cap(g)|;
      assert Cap(g) == g[k..];
      GrowDrop(g, k, y);
      assert k > 0 ==> |Cap(g)| == MAX_LINES;
      assert |Grow(g, y)| >= |g|;
      CapDrop(Grow(g, y), k);
    }
  }

  /** For carriage-return-free chunks, appending them one by one equals appending their
      concatenation, eviction included. */
  lemma {:induction false} AppendConcat(buffer: seq<string>, x: string, y: string)
    requires '\r' !in x && '\r' !in y
    ensures AppendSpec(AppendSpec(buffer, x), y) == AppendSpec(buffer, x + y)
  {
    GrowCapped(Grow(buffer, x), y);
    GrowConcat(buffer, x, y);
  }

  /** Where the reverse search for a non-empty line stops: the index of the newest
      non-empty line, or -1 when every line is empty. */
  function LastNonEmptyIndex(lines: seq<string>): (k: int)
    ensures -1 <= k < |lines|
    ensures k >= 0 ==> lines[k] != ""
    ensures forall j :: k < j < |lines| ==> lines[j] == ""
    decreases |lines|
  {
    if lines == [] then -1
    else if lines[|lines| - 1] != "" then |lines| - 1
    else LastNonEmptyIndex(lines[..|lines| - 1])
  }

  /** `lines.iter().rev().find(|l| !l.is_empty())`: the newest non-empty line. */
  function LastNonEmpty(lines: seq<string>): (r: Option<string>)
    ensures r.None? <==> forall k :: 0 <= k < |lines| ==> lines[k] == ""
    ensures r.Some? ==> var k := LastNonEmptyIndex(lines);
      0 <= k && r.value == lines[k] && r.value != ""
  {
    var k := LastNonEmptyIndex(lines);
    if k < 0 then None else Some(lines[k])
  }

  /** Every retained buffer respects the cap and holds only well-formed lines. */
  predicate Retained(logs: map<SessionId, seq<string>>)
  {
    forall id :: id in logs ==> |logs[id]| <= MAX_LINES && WellFormed(logs[id])
  }

  /** Appending to one buffer keeps every buffer within the cap and well formed. */
  lemma AppendRetained(logs: map<SessionId, seq<string>>, id: SessionId, text: string)
    requires Retained(logs)
    ensures var before := if id in logs then logs[id] else [];
      Retained(logs[id := AppendSpec(before, text)])
  {
    var before := if id in logs then logs[id] else [];
    AppendWellFormed(before, text);
    AppendBounded(before, text);
  }

  class LogStore {
    var logs: map<SessionId, seq<string>>

    ghost predicate Valid()
      reads this
    {
      Retained(logs)
    }

    constructor ()
      ensures Valid() && logs == map[]
    {
      logs := map[];
    }

    /** `lines`: the retained buffer, empty for a session never appended to. */
    function Lines(id: SessionId): (r: seq<string>)
      reads this
      ensures id !in logs ==> r == []
      ensures id in logs ==> r == logs[id]
    {
      if id in logs then logs[id] else []
    }

    /** `last_non_empty_line`: None for an absent or all-empty buffer. */
    function LastNonEmptyLine(id: SessionId): (r: Option<string>)
      reads this
      ensures r == LastNonEmpty(Lines(id))
      ensures id !in logs ==> r == None
    {
      if id in logs then LastNonEmpty(logs[id]) else None
    }

    /** `append`: the buffer of `id` becomes `AppendSpec` of what it was; no other buffer
        changes. */
    method Append(id: SessionId, data: string)
      requires Valid()
      modifies this
      ensures Valid()
      ensures logs == old(logs)[id := AppendSpec(old(Lines(id)), data)]
    {
      var buffer := if id in logs then logs[id] else [];
      ghost var before := buffer;
      buffer := GrowLines(buffer, data);
      if |buffer| > MAX_LINES {
        var drainCount := |buffer| - MAX_LINES;
        buffer := buffer[drainCount..];
      }
      assert buffer == AppendSpec(before, data);
      assert Retained(logs[id := buffer]) by { AppendRetained(logs, id, data); }
      logs := logs[id := buffer];
    }
  }

  /** The splitting part of `append`: the first piece, trimmed, continues the last line (or
      becomes the only line), and every further piece, trimmed, is pushed as a new line. */
  method GrowLines(buffer: seq<string>, data: string) returns (lines: seq<string>)
    ensures lines == Grow(buffer, data)
  {
    var parts := Split(data, '\n');
    ghost var first := TrimCR(parts[0]);
    if |buffer| > 0 {
      lines := buffer[..|buffer| - 1] + [buffer[|buffer| - 1] + TrimCR(parts[0])];
    } else {
      lines := [TrimCR(parts[0])];
    }
    assert lines == Continue(buffer, first) + TrimAll(parts[1..1]);
    var i := 1;
    while i < |parts|
      invariant 1 <= i <= |parts|
      invariant lines == Continue(buffer, first) + TrimAll(parts[1..i])
    {
      TrimAllSnoc(parts, i);
      lines := lines + [TrimCR(parts[i])];
      i := i + 1;
    }
    assert parts[1..i] == parts[1..];
  }

  /** With the trimmed pieces of the text known, and room for all of them, an append is the
      first piece continuing the buffer and the others as new lines. */
  lemma AppendBySplit(buffer: seq<string>, text: string, trimmed: seq<string>)
    requires |buffer| + |trimmed| <= MAX_LINES
    requires var p := Split(text, '\n');
      |p| == |trimmed| && forall k :: 0 <= k < |p| ==> TrimCR(p[k]) == trimmed[k]
    ensures AppendSpec(buffer, text) == Continue(buffer, trimmed[0]) + trimmed[1..]
  {
    var p := Split(text, '\n');
    assert TrimAll(p[1..]) == trimmed[1..];
    var g := Grow(buffer, text);
    assert g == Continue(buffer, trimmed[0]) + trimmed[1..];
    assert |g| <= MAX_LINES;
  }

  /** A line-feed-free line ended by a line feed splits into the line and an empty rest. */
  lemma SplitTerminated(line: string)
    requires '\n' !in line
    ensures Split(line + "\n", '\n') == [line, ""]
  {
    SplitLineFront(line, "");
    assert line + "\n" + "" == line + "\n";
    assert Split("", '\n') == [""];
  }

  /** The shapes of the unit-test transcripts, for any line text free of line feeds and
      carriage returns: one terminated line; an unterminated chunk continued by the next;
      three terminated lines; carriage-return line feeds. */
  lemma AppendTerminatedLine(line: string)
    requires '\n' !in line && '\r' !in line
    ensures AppendSpec([], line + "\n") == [line, ""]
  {
    SplitTerminated(line);
    TrimCRNoCR(line);
    AppendBySplit([], line + "\n", [line, ""]);
  }

  lemma AppendContinuesLine(head: string, tail: string)
    requires '\n' !in head && '\r' !in head && '\n' !in tail && '\r' !in tail
    ensures AppendSpec(AppendSpec([], head), tail + "\n") == [head + tail, ""]
  {
    assert AppendSpec([], head) == [head] by {
      SplitNoSeparator(head, '\n');
      TrimCRNoCR(head);
      AppendBySplit([], head, [head]);
    }
    assert AppendSpec([head], tail + "\n") == [head + tail, ""] by {
      SplitTerminated(tail);
      TrimCRNoCR(tail);
      AppendBySplit([head], tail + "\n", [tail, ""]);
      assert Continue([head], tail) == [head + tail];
    }
  }

  lemma AppendThreeLines(l1: string, l2: string, l3: string)
    requires '\n' !in l1 && '\r' !in l1 && '\n' !in l2 && '\r' !in l2 && '\n' !in l3 && '\r' !in l3
    ensures AppendSpec([], l1 + "\n" + l2 + "\n" + l3 + "\n") == [l1, l2, l3, ""]
  {
    SplitLineFront(l3, "");
    SplitLineFront(l2, l3 + "\n" + "");
    SplitLineFront(l1, l2 + "\n" + (l3 + "\n" + ""));
    var text := l1 + "\n" + (l2 + "\n" + (l3 + "\n" + ""));
    assert text == l1 + "\n" + l2 + "\n" + l3 + "\n";
    assert Split("", '\n') == [""];
    assert Split(text, '\n') == [l1, l2, l3, ""];
    TrimCRNoCR(l1);
    TrimCRNoCR(l2);
    TrimCRNoCR(l3);
    AppendBySplit([], text, [l1, l2, l3, ""]);
  }

  lemma TrimOneCR(line: string)
    requires '\r' !in line
    ensures TrimCR(line + "\r") == line
  {
    assert (line + "\r")[..|line|] == line;
    TrimCRNoCR(line);
  }

  lemma AppendCRLF(l1: string, l2: string)
    requires '\n' !in l1 && '\r' !in l1 && '\n' !in l2 && '\r' !in l2
    ensures AppendSpec([], l1 + "\r\n" + l2 + "\r\n") == [l1, l2, ""]
  {
    var p1, p2 := l1 + "\r", l2 + "\r";
    AbsentConcat(l1, "\r", '\n');
    AbsentConcat(l2, "\r", '\n');
    SplitLineFront(p2, "");
    SplitLineFront(p1, p2 + "\n" + "");
    var text := p1 + "\n" + (p2 + "\n" + "");
    assert text == l1 + "\r\n" + l2 + "\r\n";
    assert Split("", '\n') == [""];
    assert Split(text, '\n') == [p1, p2, ""];
    TrimOneCR(l1);
    TrimOneCR(l2);
    AppendBySplit([], text, [l1, l2, ""]);
  }
}
