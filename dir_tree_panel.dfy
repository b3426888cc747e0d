/** The text of the directory panel: the rows of the flattened tree that fit the panel,
    scrolled so that the cursor row is shown, each marked, indented and labelled. */
module TreePanel {
  import opened Util
  import opened Tree

  /** The first row shown: 0 while the cursor fits the panel, else the offset that puts the
      cursor on the last visible row. */
  function ScrollOffset(cursor: nat, height: nat): (r: nat)
    ensures height > 0 ==> r <= cursor < r + height
    ensures cursor < height ==> r == 0
    ensures cursor >= height ==> r + height == cursor + 1
  {
    if cursor >= height then cursor - height + 1 else 0
  }

  /** Two characters telling an open directory, a closed one and a file apart. */
  function RowIcon(e: FlatEntry): (r: string)
    ensures |r| == 2
    ensures r == "- " <==> e.isDir && e.expanded
    ensures r == "+ " <==> e.isDir && !e.expanded
    ensures r == "  " <==> !e.isDir
  {
    if e.isDir then (if e.expanded then "- " else "+ ") else "  "
  }

  /** Two spaces per level of depth. */
  function Indent(depth: nat): (r: string)
    ensures |r| == 2 * depth
    ensures forall k :: 0 <= k < |r| ==> r[k] == ' '
  {
    if depth == 0 then "" else Indent(depth - 1) + "  "
  }

  /** One row: the cursor marker, the indentation, the icon, the name. */
  function Row(e: FlatEntry, selected: bool): (r: string)
    ensures |r| == 3 + 2 * e.depth + |e.name|
    ensures r[0] == '>' <==> selected
  {
    (if selected then ">" else " ") + Indent(e.depth) + RowIcon(e) + e.name
  }

  /** A row can be read back: its first character is the marker, then the indentation
      gives the depth, then come the icon and the entry's name. */
  lemma RowParts(e: FlatEntry, selected: bool)
    ensures var r := Row(e, selected); var d := 2 * e.depth;
      && |r| == 3 + d + |e.name|
      && (r[0] == '>' <==> selected)
      && (forall k :: 1 <= k < 1 + d ==> r[k] == ' ')
      && r[1 + d..3 + d] == RowIcon(e)
      && r[3 + d..] == e.name
  {
    var r := Row(e, selected);
    var d := 2 * e.depth;
    var m := if selected then ">" else " ";
    assert r == m + Indent(e.depth) + RowIcon(e) + e.name;
    assert r[1..1 + d] == Indent(e.depth);
  }

  /** The rows the panel shows: those from the scroll offset on, at most `height` of them. */
  function Rows(flat: seq<FlatEntry>, cursor: nat, height: nat): (r: seq<string>)
    ensures |r| <= height
    ensures |r| > 0 ==> ScrollOffset(cursor, height) + |r| <= |flat|
    ensures forall k :: 0 <= k < |r| ==>
      r[k] == Row(flat[ScrollOffset(cursor, height) + k], ScrollOffset(cursor, height) + k == cursor)
  {
    var off := ScrollOffset(cursor, height);
    var n := Min(height, SaturatingSub(|flat|, off));
    seq(n, k requires 0 <= k < n => Row(flat[off + k], off + k == cursor))
  }

  /** The `>` marker is on the cursor row and on no other; the cursor row is shown whenever
      the cursor is on a row and the panel has room for one. */
  lemma RowsMarker(flat: seq<FlatEntry>, cursor: nat, height: nat)
    ensures var off := ScrollOffset(cursor, height); var rs := Rows(flat, cursor, height);
      && (forall k :: 0 <= k < |rs| ==> (rs[k][0] == '>' <==> off + k == cursor))
      && (cursor < |flat| && height > 0 ==> cursor - off < |rs|)
  {
    var off := ScrollOffset(cursor, height);
    var rs := Rows(flat, cursor, height);
    forall k | 0 <= k < |rs| ensures rs[k][0] == '>' <==> off + k == cursor {
      RowParts(flat[off + k], off + k == cursor);
    }
  }

  /** The rows are those of the entries from the offset on, in order. */
  lemma RowsEntries(flat: seq<FlatEntry>, cursor: nat, height: nat)
    ensures var off := ScrollOffset(cursor, height); var rs := Rows(flat, cursor, height);
      forall k :: 0 <= k < |rs| ==> rs[k][3 + 2 * flat[off + k].depth..] == flat[off + k].name
  {
    var off := ScrollOffset(cursor, height);
    var rs := Rows(flat, cursor, height);
    forall k | 0 <= k < |rs| ensures rs[k][3 + 2 * flat[off + k].depth..] == flat[off + k].name {
      RowParts(flat[off + k], off + k == cursor);
    }
  }

  /** The row-building loop of `render`: skips to the offset, takes at most `height` rows. */
  method BuildRows(flat: seq<FlatEntry>, cursor: nat, height: nat) returns (lines: seq<string>)
    ensures lines == Rows(flat, cursor, height)
  {
    var off := ScrollOffset(cursor, height);
    lines := [];
    var i := off;
    while i < |flat| && |lines| < height
      invariant off <= i && |lines| == i - off
      invariant |lines| <= height && (lines == [] || i <= |flat|)
      invariant forall k :: 0 <= k < |lines| ==> lines[k] == Row(flat[off + k], off + k == cursor)
    {
      lines := lines + [Row(flat[i], i == cursor)];
      i := i + 1;
    }
  }

  /** `render`'s text: the placeholder when there are no rows, otherwise the visible rows
      joined by line feeds. */
  method RenderText(flat: seq<FlatEntry>, cursor: nat, height: nat) returns (content: string)
    ensures flat == [] ==> content == NO_SESSION
    ensures flat != [] ==> content == Join(Rows(flat, cursor, height), "\n")
  {
    if flat == [] {
      return NO_SESSION;
    }
    var lines := BuildRows(flat, cursor, height);
    content := Join(lines, "\n");
  }
}
