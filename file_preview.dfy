/** The file preview panel: the loaded file's classification (unreadable, too large, binary
    or text), its line count and the scroll window over its lines. The file system's answers
    (metadata, the bytes read and their decoding) are inputs. */
module Preview {
  import opened Util

  /** Files above 1 MiB are not shown. */
  const MAX_FILE_SIZE: nat := 1048576

  /** The binary test looks at this many leading bytes. */
  const BINARY_PROBE: nat := 8192

  const NO_FILE: string := "(ファイル未選択)"
  const BINARY_FILE: string := "(バイナリファイル)"

  newtype byte = b: int | 0 <= b < 256

  /** `fs::metadata`: the length in bytes, or the error's message. */
  datatype Metadata = MetaOk(len: nat) | MetaErr(metaError: string)

  /** `fs::read`: the bytes with their lossy UTF-8 decoding, or the error's message. */
  datatype ReadResult = ReadOk(bytes: seq<byte>, decoded: string) | ReadErr(readError: string)

  function Unreadable(message: string): string
  {
    "(読み取り不可: " + message + ")"
  }

  function TooLarge(len: nat): string
  {
    "(ファイルが大きすぎます: " + NatToString(len) + " バイト、上限 " + NatToString(MAX_FILE_SIZE) + ")"
  }

  /** `s.strip_suffix('\r')`: at most one carriage return is removed. */
  function StripCR(s: string): (r: string)
    ensures r == s || (s == r + "\r")
  {
    if |s| > 0 && s[|s| - 1] == '\r' then s[..|s| - 1] else s
  }

  /** `str::lines`: the pieces between line feeds, a carriage return before a line feed
      dropped, and no final empty piece after a closing line feed. */
  function TextLines(t: string): (r: seq<string>)
    ensures forall k :: 0 <= k < |r| ==> '\n' !in r[k]
    ensures |r| == Occurrences(t, '\n') + (if t == [] || t[|t| - 1] == '\n' then 0 else 1)
  {
    var parts := Split(t, '\n');
    var last := parts[|parts| - 1];
    LastPieceEmpty(t);
    var front := seq(|parts| - 1, k requires 0 <= k < |parts| - 1 => StripCR(parts[k]));
    assert forall k :: 0 <= k < |front| ==> '\n' !in front[k] by {
      forall k | 0 <= k < |front| ensures '\n' !in front[k] {
        assert '\n' !in parts[k];
        assert forall m :: 0 <= m < |front[k]| ==> front[k][m] == parts[k][m];
      }
    }
    front + (if last == "" then [] else [last])
  }

  /** The last piece of the split is empty exactly when the text is empty or ends with a
      line feed. */
  lemma {:induction false} LastPieceEmpty(t: string)
    ensures var parts := Split(t, '\n');
      parts[|parts| - 1] == "" <==> (t == [] || t[|t| - 1] == '\n')
    decreases |t|
  {
    if t != [] {
      LastPieceEmpty(t[1..]);
      var rest := Split(t[1..], '\n');
      if |t| == 1 {
        assert t[1..] == [];
      } else {
        assert t[1..][|t[1..]| - 1] == t[|t| - 1];
        if t[0] != '\n' && |rest| == 1 {
          assert Split(t, '\n') == [[t[0]] + rest[0]];
        }
      }
    }
  }

  /** For text without carriage returns the lines, joined by line feeds and with the
      closing line feed put back, are the text. */
  lemma TextLinesJoin(t: string)
    requires '\r' !in t
    ensures t == Join(TextLines(t), "\n") + (if t != [] && t[|t| - 1] == '\n' then "\n" else "")
  {
    var parts := Split(t, '\n');
    var n := |parts|;
    var front := parts[..n - 1];
    var lines := TextLines(t);
    assert Join(parts, "\n") == t by { JoinSplit(t, '\n'); }
    assert forall k :: 0 <= k < n - 1 ==> lines[k] == parts[k] by {
      SplitKeepsAbsent(t, '\n', '\r');
      TextLinesPieces(t);
    }
    assert parts[n - 1] == "" <==> (t == [] || t[|t| - 1] == '\n') by { LastPieceEmpty(t); }
    TextLinesPieces(t);
    if parts[n - 1] == "" {
      assert lines == front;
      if n > 1 {
        assert parts == front + [""];
        JoinSnoc(front, "", "\n");
      }
    } else {
      assert lines == parts;
    }
  }

  /** The window of lines shown from `scroll` on: `lines[start..end]` with
      `start = min(scroll, n)` and `end = min(start + h, n)`. */
  function Window(lines: seq<string>, scroll: nat, h: nat): (w: seq<string>)
    ensures var start := Min(scroll, |lines|);
      |w| == Min(h, |lines| - start) && forall k :: 0 <= k < |w| ==> w[k] == lines[start + k]
  {
    var start := Min(scroll, |lines|);
    lines[start..Min(start + h, |lines|)]
  }

  /** `take(8192).any(|b| b == 0)`. */
  predicate IsBinary(bytes: seq<byte>)
  {
    exists k :: 0 <= k < |bytes| && k < BINARY_PROBE && bytes[k] == 0
  }

  /** What `load` stores: the content shown and the line count used for scrolling. */
  datatype Loaded = Loaded(content: string, totalLines: nat)

  /** The classification `load` makes. A metadata error or a read error shows the error,
      a file above the size limit shows its size and the limit, one with a zero byte among
      its first 8192 bytes is binary; each of these counts as one line. Otherwise the
      decoded text is shown with its number of lines, at least one. */
  function Classify(meta: Metadata, read: ReadResult): (r: Loaded)
    ensures r.totalLines >= 1
    ensures meta.MetaErr? ==> r == Loaded(Unreadable(meta.metaError), 1)
    ensures meta.MetaOk? && meta.len > MAX_FILE_SIZE ==> r == Loaded(TooLarge(meta.len), 1)
    ensures meta.MetaOk? && meta.len <= MAX_FILE_SIZE ==>
      match read
      case ReadErr(e) => r == Loaded(Unreadable(e), 1)
      case ReadOk(bytes, text) =>
        && ((exists k :: 0 <= k < |bytes| && k < BINARY_PROBE && bytes[k] == 0) ==> r == Loaded(BINARY_FILE, 1))
        && ((forall k :: 0 <= k < |bytes| && k < BINARY_PROBE ==> bytes[k] != 0) ==>
              r == Loaded(text, Max(1, |TextLines(text)|)))
  {
    match meta
    case MetaErr(e) => Loaded(Unreadable(e), 1)
    case MetaOk(len) =>
      if len > MAX_FILE_SIZE then Loaded(TooLarge(len), 1)
      else
        match read
        case ReadErr(e) => Loaded(Unreadable(e), 1)
        case ReadOk(bytes, text) =>
          if IsBinary(bytes) then Loaded(BINARY_FILE, 1)
          else Loaded(text, Max(1, |TextLines(text)|))
  }

  class FilePreview {
    var path: Option<string>
    var content: Option<string>
    var scroll: nat
    var totalLines: nat

    /** `FilePreview::new`: nothing selected. */
    constructor ()
      ensures path == None && content == None && scroll == 0 && totalLines == 0
    {
      path := None;
      content := None;
      scroll := 0;
      totalLines := 0;
    }

    /** `load`: selects `p`, scrolls to the top and stores the classification. */
    method Load(p: string, meta: Metadata, read: ReadResult)
      modifies this
      ensures path == Some(p) && scroll == 0
      ensures content == Some(Classify(meta, read).content)
      ensures totalLines == Classify(meta, read).totalLines
    {
      path := Some(p);
      scroll := 0;
      match meta {
        case MetaErr(e) =>
          content := Some(Unreadable(e));
          totalLines := 1;
          return;
        case MetaOk(len) =>
          if len > MAX_FILE_SIZE {
            content := Some(TooLarge(len));
            totalLines := 1;
            return;
          }
      }
      match read {
        case ReadOk(bytes, text) =>
          if IsBinary(bytes) {
            content := Some(BINARY_FILE);
            totalLines := 1;
          } else {
            totalLines := Max(1, |TextLines(text)|);
            content := Some(text);
          }
        case ReadErr(e) =>
          content := Some(Unreadable(e));
          totalLines := 1;
      }
    }

    /** `clear`: back to nothing selected. */
    method Clear()
      modifies this
      ensures path == None && content == None && scroll == 0 && totalLines == 0
    {
      path := None;
      content := None;
      scroll := 0;
      totalLines := 0;
    }

    /** `scroll_up`: one line up, never below the top. */
    method ScrollUp()
      modifies this
      ensures scroll == SaturatingSub(old(scroll), 1)
      ensures path == old(path) && content == old(content) && totalLines == old(totalLines)
    {
      if scroll > 0 {
        scroll := scroll - 1;
      }
    }

    /** `scroll_down`: one line down only while lines remain below a window of `h` lines,
        so a step never takes `scroll + h` past the line count. */
    method ScrollDown(h: nat)
      modifies this
      ensures scroll == if totalLines > h && old(scroll) + h < totalLines then old(scroll) + 1 else old(scroll)
      ensures scroll > old(scroll) ==> scroll + h <= totalLines
      ensures path == old(path) && content == old(content) && totalLines == old(totalLines)
    {
      if totalLines > h && scroll + h < totalLines {
        scroll := scroll + 1;
      }
    }

    /** `visible_content`: the window of `h` lines at the scroll position, joined by line
        feeds; the placeholder when nothing is loaded. */
    function VisibleContent(h: nat): (r: string)
      reads this
      ensures content.None? ==> r == NO_FILE
      ensures content.Some? ==> r == Join(Window(TextLines(content.value), scroll, h), "\n")
    {
      match content
      case None => NO_FILE
      case Some(text) => Join(Window(TextLines(text), scroll, h), "\n")
    }
  }

  /** Text written line by line, each line followed by a line feed. */
  function Terminated(lines: seq<string>): string
  {
    if lines == [] then "" else lines[0] + "\n" + Terminated(lines[1..])
  }

  /** `TextLines` piece by piece: every piece but the last with one carriage return
      stripped, then the last piece unless it is empty. */
  lemma TextLinesPieces(t: string)
    ensures var parts := Split(t, '\n'); var n := |parts|; var r := TextLines(t);
      && |r| == n - 1 + (if parts[n - 1] == "" then 0 else 1)
      && (forall k :: 0 <= k < n - 1 ==> r[k] == StripCR(parts[k]))
      && (parts[n - 1] != "" ==> r[n - 1] == parts[n - 1])
  {
  }

  /** A line ended by a line feed in front of a text that ends with one (or is empty) adds
      exactly that line in front. */
  lemma TextLinesCons(line: string, rest: string)
    requires '\n' !in line && '\r' !in line
    requires Split(rest, '\n')[|Split(rest, '\n')| - 1] == ""
    ensures TextLines(line + "\n" + rest) == [line] + TextLines(rest)
  {
    var t := line + "\n" + rest;
    var parts := Split(t, '\n');
    var rp := Split(rest, '\n');
    assert parts == [line] + rp by { SplitLineFront(line, rest); }
    assert StripCR(line) == line by {
      if |line| > 0 { assert line[|line| - 1] in line; }
    }
    TextLinesPieces(t);
    TextLinesPieces(rest);
    var a := TextLines(t);
    var b := TextLines(rest);
    forall k | 0 <= k < |a| ensures a[k] == ([line] + b)[k] {
      if k > 0 {
        assert parts[k] == rp[k - 1];
      }
    }
  }

  /** Lines written one per line feed are read back as the same lines. */
  lemma {:induction false} TextLinesTerminated(lines: seq<string>)
    requires forall k :: 0 <= k < |lines| ==> '\n' !in lines[k] && '\r' !in lines[k]
    ensures TextLines(Terminated(lines)) == lines
  {
    if lines != [] {
      TextLinesTerminated(lines[1..]);
      TerminatedShape(lines[1..]);
      TextLinesCons(lines[0], Terminated(lines[1..]));
      assert lines == [lines[0]] + lines[1..];
    }
  }

  /** A terminated text is empty or ends with a line feed, and its lines carry no line
      feed. */
  lemma {:induction false} TerminatedShape(lines: seq<string>)
    ensures var t := Terminated(lines); t == [] || t[|t| - 1] == '\n'
    ensures Split(Terminated(lines), '\n')[|Split(Terminated(lines), '\n')| - 1] == ""
  {
    if lines != [] {
      TerminatedShape(lines[1..]);
      var rest := Terminated(lines[1..]);
      var t := lines[0] + "\n" + rest;
      assert t[|t| - 1] == '\n' by {
        if rest != [] { assert t[|t| - 1] == rest[|rest| - 1]; }
      }
    }
    LastPieceEmpty(Terminated(lines));
  }

  /** The text-file test: three lines with no closing line feed count as three. */
  lemma ThreeLineFile(bytes: seq<byte>, l1: string, l2: string, l3: string)
    requires !IsBinary(bytes) && |bytes| <= MAX_FILE_SIZE
    requires '\n' !in l1 && '\n' !in l2 && '\n' !in l3 && l3 != ""
    ensures Classify(MetaOk(|bytes|), ReadOk(bytes, l1 + "\n" + l2 + "\n" + l3)).totalLines == 3
  {
    var t := l1 + "\n" + (l2 + "\n" + l3);
    assert t == l1 + "\n" + l2 + "\n" + l3;
    SplitLineFront(l1, l2 + "\n" + l3);
    SplitLineFront(l2, l3);
    SplitNoSeparator(l3, '\n');
    assert |Split(t, '\n')| == 3;
    assert t[|t| - 1] == l3[|l3| - 1];
  }

  /** The binary-file test: bytes 0, 1, 2, 255 are shown as a binary file. */
  lemma BinaryFile(decoded: string)
    ensures Classify(MetaOk(4), ReadOk([0, 1, 2, 255], decoded)).content == BINARY_FILE
  {
    var b: seq<byte> := [0, 1, 2, 255];
    assert b[0] == 0;
  }

  /** The scroll test on a file of 100 written lines: down one with a window of 10, up one,
      and up again stays at the top. */
  method ScrollNavigation(bytes: seq<byte>) returns (scrolls: seq<nat>)
    requires !IsBinary(bytes) && |bytes| <= MAX_FILE_SIZE
    ensures scrolls == [0, 1, 0, 0]
  {
    var lines := seq(100, i requires 0 <= i < 100 => "line " + NatToString(i));
    forall k | 0 <= k < |lines| ensures '\n' !in lines[k] && '\r' !in lines[k] {
      assert forall m :: 0 <= m < |lines[k]| ==> lines[k][m] in "line 0123456789";
    }
    TextLinesTerminated(lines);
    var preview := new FilePreview();
    preview.Load("f", MetaOk(|bytes|), ReadOk(bytes, Terminated(lines)));
    var s0 := preview.scroll;
    preview.ScrollDown(10);
    var s1 := preview.scroll;
    preview.ScrollUp();
    var s2 := preview.scroll;
    preview.ScrollUp();
    scrolls := [s0, s1, s2, preview.scroll];
  }

  /** The window test: with a window of three, a file of at least four non-empty written
      lines is shown from its first line, and after one step down from its second. */
  method WindowScroll(bytes: seq<byte>, lines: seq<string>) returns (first: string, second: string)
    requires !IsBinary(bytes) && |bytes| <= MAX_FILE_SIZE && |lines| >= 4
    requires forall k :: 0 <= k < |lines| ==> lines[k] != "" && '\n' !in lines[k] && '\r' !in lines[k]
    ensures StartsWith(first, lines[0]) && StartsWith(second, lines[1])
  {
    TextLinesTerminated(lines);
    var preview := new FilePreview();
    preview.Load("f", MetaOk(|bytes|), ReadOk(bytes, Terminated(lines)));
    first := preview.VisibleContent(3);
    JoinStartsWith(Window(lines, 0, 3), "\n");
    preview.ScrollDown(3);
    second := preview.VisibleContent(3);
    JoinStartsWith(Window(lines, 1, 3), "\n");
  }

  /** A join of several pieces begins with the first piece. */
  lemma JoinStartsWith(parts: seq<string>, sep: string)
    requires |parts| >= 1
    ensures StartsWith(Join(parts, sep), parts[0])
  {
    if |parts| > 1 {
      var j := Join(parts, sep);
      assert j == parts[0] + (sep + Join(parts[1..], sep));
    }
  }
}
