/** The directory tree of the selected session's root: nodes loaded lazily from directory
    listings, flattened into the visible rows, with a cursor over the rows. Listings are inputs:
    a path is a readable directory exactly when it has a listing. The tree is an owned value,
    so the operations that update nodes in place return the updated node. */
module Tree {
  import opened Util

  /** Nodes at this depth or deeper never load children. */
  const MAX_DEPTH: nat := 5

  /** One entry of a directory listing: its file name and whether it is a directory. */
  datatype FsEntry = FsEntry(name: string, isDir: bool)

  /** The listings of the readable directories, by path. */
  type Fs = map<string, seq<FsEntry>>

  datatype Node = Node(name: string, path: string, isDir: bool, depth: nat, expanded: bool, children: seq<Node>)

  /** One visible row of the tree. */
  datatype FlatEntry = FlatEntry(name: string, path: string, isDir: bool, depth: nat, expanded: bool)

  predicate IsHiddenName(name: string)
  {
    StartsWith(name, ".")
  }

  // Ordering by lower-cased name.

  /** Lexicographic order on code points, the order of `String::cmp`. */
  predicate LexLe(a: string, b: string)
    decreases |a|
  {
    a == [] || (b != [] && (a[0] < b[0] || (a[0] == b[0] && LexLe(a[1..], b[1..]))))
  }

  lemma {:induction false} LexLeTotal(a: string, b: string)
    ensures LexLe(a, b) || LexLe(b, a)
    decreases |a|
  {
    if a != [] && b != [] && a[0] == b[0] {
      LexLeTotal(a[1..], b[1..]);
    }
  }

  lemma {:induction false} LexLeTrans(a: string, b: string, c: string)
    requires LexLe(a, b) && LexLe(b, c)
    ensures LexLe(a, c)
    decreases |a|
  {
    if a != [] && b != [] && c != [] && a[0] == b[0] == c[0] {
      LexLeTrans(a[1..], b[1..], c[1..]);
    }
  }

  function Key(n: Node): string
  {
    LowerStr(n.name)
  }

  predicate SortedByName(s: seq<Node>)
  {
    forall i, j :: 0 <= i < j < |s| ==> LexLe(Key(s[i]), Key(s[j]))
  }

  /** Puts `x` after every element whose key is not above its own (keeps equal keys in
      arrival order). */
  function InsertByName(s: seq<Node>, x: Node): (r: seq<Node>)
    ensures multiset(r) == multiset(s) + multiset{x}
    ensures |r| == |s| + 1
    decreases |s|
  {
    if s == [] then [x]
    else if LexLe(Key(s[|s| - 1]), Key(x)) then s + [x]
    else
      assert s == s[..|s| - 1] + [s[|s| - 1]];
      InsertByName(s[..|s| - 1], x) + [s[|s| - 1]]
  }

  lemma {:induction false} InsertByNameSorted(s: seq<Node>, x: Node)
    requires SortedByName(s)
    ensures SortedByName(InsertByName(s, x))
    decreases |s|
  {
    if s != [] {
      var last := s[|s| - 1];
      if LexLe(Key(last), Key(x)) {
        forall i | 0 <= i < |s| ensures LexLe(Key(s[i]), Key(x)) {
          if i < |s| - 1 { LexLeTrans(Key(s[i]), Key(last), Key(x)); }
        }
        SortedSnoc(s, x);
      } else {
        var front := s[..|s| - 1];
        assert SortedByName(front);
        InsertByNameSorted(front, x);
        LexLeTotal(Key(last), Key(x));
        InsertBelow(front, x, last);
        SortedSnoc(InsertByName(front, x), last);
      }
    }
  }

  /** An element whose key is not below any key of a sorted sequence can follow it. */
  lemma SortedSnoc(s: seq<Node>, x: Node)
    requires SortedByName(s)
    requires forall i :: 0 <= i < |s| ==> LexLe(Key(s[i]), Key(x))
    ensures SortedByName(s + [x])
  {
    var r := s + [x];
    forall i, j | 0 <= i < j < |r| ensures LexLe(Key(r[i]), Key(r[j])) {
      if j == |s| {
        assert r[i] == s[i];
      }
    }
  }

  /** A bound above every key, and above the inserted one, stays above every key. */
  lemma InsertBelow(front: seq<Node>, x: Node, last: Node)
    requires forall k :: 0 <= k < |front| ==> LexLe(Key(front[k]), Key(last))
    requires LexLe(Key(x), Key(last))
    ensures forall i :: 0 <= i < |InsertByName(front, x)| ==> LexLe(Key(InsertByName(front, x)[i]), Key(last))
  {
    var ins := InsertByName(front, x);
    forall i | 0 <= i < |ins| ensures LexLe(Key(ins[i]), Key(last)) {
      assert ins[i] in multiset(ins);
      assert ins[i] in multiset(front) || ins[i] == x;
      if ins[i] != x {
        var k :| 0 <= k < |front| && front[k] == ins[i];
      }
    }
  }

  /** `sort_by` on the lower-cased names: a stable insertion sort. */
  function SortByName(s: seq<Node>): (r: seq<Node>)
    ensures multiset(r) == multiset(s) && |r| == |s|
    decreases |s|
  {
    if s == [] then []
    else
      assert s == s[..|s| - 1] + [s[|s| - 1]];
      InsertByName(SortByName(s[..|s| - 1]), s[|s| - 1])
  }

  lemma {:induction false} SortByNameSorted(s: seq<Node>)
    ensures SortedByName(SortByName(s))
    decreases |s|
  {
    if s != [] {
      SortByNameSorted(s[..|s| - 1]);
      InsertByNameSorted(SortByName(s[..|s| - 1]), s[|s| - 1]);
    }
  }

  // Loading children.

  predicate Shown(e: FsEntry, showHidden: bool)
  {
    showHidden || !IsHiddenName(e.name)
  }

  /** The child node for a listing entry: one level deeper, collapsed, nothing loaded. */
  function ChildOf(parent: Node, e: FsEntry): Node
  {
    Node(e.name, JoinPath(parent.path, e.name), e.isDir, parent.depth + 1, false, [])
  }

  /** The child nodes of the shown entries of one kind (directories or files), in listing
      order. */
  function Kind(parent: Node, entries: seq<FsEntry>, showHidden: bool, dirs: bool): (r: seq<Node>)
    ensures |r| <= |entries|
    decreases |entries|
  {
    if entries == [] then []
    else
      var e := entries[|entries| - 1];
      Kind(parent, entries[..|entries| - 1], showHidden, dirs) +
        (if Shown(e, showHidden) && e.isDir == dirs then [ChildOf(parent, e)] else [])
  }

  /** `load_children` as a function of the node before it: files and nodes at `MAX_DEPTH`
      are left as they are; otherwise the children become the shown directories sorted by
      name followed by the shown files sorted by name, or nothing when the directory cannot
      be read. */
  function Loaded(n: Node, showHidden: bool, fs: Fs): Node
  {
    if !n.isDir || n.depth >= MAX_DEPTH then n
    else if n.path !in fs then n.(children := [])
    else
      var entries := fs[n.path];
      n.(children := SortByName(Kind(n, entries, showHidden, true)) + SortByName(Kind(n, entries, showHidden, false)))
  }

  /** `load_children`: partitions the listing in one pass, then sorts each part. */
  method LoadChildren(n: Node, showHidden: bool, fs: Fs) returns (r: Node)
    ensures r == Loaded(n, showHidden, fs)
  {
    if !n.isDir || n.depth >= MAX_DEPTH {
      return n;
    }
    if n.path !in fs {
      return n.(children := []);
    }
    var entries := fs[n.path];
    var dirs: seq<Node> := [];
    var files: seq<Node> := [];
    var i := 0;
    while i < |entries|
      invariant 0 <= i <= |entries|
      invariant dirs == Kind(n, entries[..i], showHidden, true)
      invariant files == Kind(n, entries[..i], showHidden, false)
    {
      var e := entries[i];
      assert entries[..i + 1][..i] == entries[..i];
      if Shown(e, showHidden) {
        var child := ChildOf(n, e);
        if e.isDir {
          dirs := dirs + [child];
        } else {
          files := files + [child];
        }
      }
      i := i + 1;
    }
    assert entries[..i] == entries;
    r := n.(children := SortByName(dirs) + SortByName(files));
  }

  lemma {:induction false} KindMembers(parent: Node, entries: seq<FsEntry>, showHidden: bool, dirs: bool)
    ensures forall c :: c in Kind(parent, entries, showHidden, dirs) <==>
      exists e :: e in entries && Shown(e, showHidden) && e.isDir == dirs && c == ChildOf(parent, e)
    decreases |entries|
  {
    if entries != [] {
      var front := entries[..|entries| - 1];
      KindMembers(parent, front, showHidden, dirs);
      assert entries == front + [entries[|entries| - 1]];
    }
  }

  /** A child as loading creates it. */
  predicate FreshChild(parent: Node, c: Node, showHidden: bool)
  {
    c.depth == parent.depth + 1 && !c.expanded && c.children == [] &&
    (!showHidden ==> !IsHiddenName(c.name))
  }

  lemma KindFresh(parent: Node, entries: seq<FsEntry>, showHidden: bool, dirs: bool)
    ensures forall c :: c in Kind(parent, entries, showHidden, dirs) ==> FreshChild(parent, c, showHidden) && c.isDir == dirs
  {
    KindMembers(parent, entries, showHidden, dirs);
  }

  lemma SortedMembers(s: seq<Node>)
    ensures forall c :: c in SortByName(s) <==> c in s
  {
    var r := SortByName(s);
    forall c ensures c in r <==> c in s {
      assert c in r <==> c in multiset(r);
      assert c in s <==> c in multiset(s);
    }
  }

  /** What loading gives a readable directory above the depth limit: directories first,
      then files, each part sorted by lower-cased name; every child one level deeper,
      collapsed and unloaded; no hidden child unless hidden entries are shown. */
  lemma LoadedChildren(n: Node, showHidden: bool, fs: Fs)
    requires n.isDir && n.depth < MAX_DEPTH && n.path in fs
    ensures var cs := Loaded(n, showHidden, fs).children;
      && (exists m :: 0 <= m <= |cs| &&
           (forall i :: 0 <= i < m ==> cs[i].isDir) && (forall i :: m <= i < |cs| ==> !cs[i].isDir) &&
           SortedByName(cs[..m]) && SortedByName(cs[m..]))
      && (forall i :: 0 <= i < |cs| ==> FreshChild(n, cs[i], showHidden))
  {
    var entries := fs[n.path];
    var d := Kind(n, entries, showHidden, true);
    var f := Kind(n, entries, showHidden, false);
    KindFresh(n, entries, showHidden, true);
    KindFresh(n, entries, showHidden, false);
    SortByNameSorted(d);
    SortByNameSorted(f);
    SortedMembers(d);
    SortedMembers(f);
    DirsThenFiles(n, SortByName(d), SortByName(f), showHidden);
  }

  lemma DirsThenFiles(n: Node, sd: seq<Node>, sf: seq<Node>, showHidden: bool)
    requires SortedByName(sd) && SortedByName(sf)
    requires forall c :: c in sd ==> c.isDir && FreshChild(n, c, showHidden)
    requires forall c :: c in sf ==> !c.isDir && FreshChild(n, c, showHidden)
    ensures var cs := sd + sf;
      && (exists m :: 0 <= m <= |cs| &&
           (forall i :: 0 <= i < m ==> cs[i].isDir) && (forall i :: m <= i < |cs| ==> !cs[i].isDir) &&
           SortedByName(cs[..m]) && SortedByName(cs[m..]))
      && (forall i :: 0 <= i < |cs| ==> FreshChild(n, cs[i], showHidden))
  {
    var cs := sd + sf;
    var m := |sd|;
    assert cs[..m] == sd && cs[m..] == sf;
    forall i | 0 <= i < |cs| ensures cs[i].isDir == (i < m) && FreshChild(n, cs[i], showHidden) {
      if i < m { assert cs[i] == sd[i] && sd[i] in sd; } else { assert cs[i] == sf[i - m] && sf[i - m] in sf; }
    }
  }

  /** The loaded children are exactly the child nodes of the shown listing entries. */
  lemma LoadedMembers(n: Node, showHidden: bool, fs: Fs)
    requires n.isDir && n.depth < MAX_DEPTH && n.path in fs
    ensures forall c :: c in Loaded(n, showHidden, fs).children <==>
      exists e :: e in fs[n.path] && Shown(e, showHidden) && c == ChildOf(n, e)
  {
    var entries := fs[n.path];
    var d := Kind(n, entries, showHidden, true);
    var f := Kind(n, entries, showHidden, false);
    KindMembers(n, entries, showHidden, true);
    KindMembers(n, entries, showHidden, false);
    SortedMembers(d);
    SortedMembers(f);
  }

  /** Files and nodes at the depth limit load nothing. */
  lemma LoadedLeavesLeaves(n: Node, showHidden: bool, fs: Fs)
    requires !n.isDir || n.depth >= MAX_DEPTH
    ensures Loaded(n, showHidden, fs) == n
  {
  }

  /** Depths as loading assigns them: every child one level below its parent. */
  predicate WellDepth(n: Node)
    decreases n
  {
    forall i :: 0 <= i < |n.children| ==> n.children[i].depth == n.depth + 1 && WellDepth(n.children[i])
  }

  lemma LoadedWellDepth(n: Node, showHidden: bool, fs: Fs)
    requires WellDepth(n)
    ensures WellDepth(Loaded(n, showHidden, fs)) && Loaded(n, showHidden, fs).depth == n.depth
  {
    if n.isDir && n.depth < MAX_DEPTH && n.path in fs {
      var cs := Loaded(n, showHidden, fs).children;
      LoadedChildren(n, showHidden, fs);
      forall i | 0 <= i < |cs| ensures WellDepth(cs[i]) {
        assert cs[i].children == [];
      }
    }
  }

  // Flattening.

  /** A node is shown unless it is a hidden non-root entry and hidden entries are not shown. */
  predicate Visible(n: Node, showHidden: bool)
  {
    showHidden || !IsHiddenName(n.name) || n.depth == 0
  }

  function EntryOf(n: Node): FlatEntry
  {
    FlatEntry(n.name, n.path, n.isDir, n.depth, n.expanded)
  }

  /** The rows of a subtree in pre-order: the node, then, when it is expanded, the rows of
      each child in turn; a node that is not visible contributes nothing, its subtree
      included. */
  function Flattened(n: Node, showHidden: bool): seq<FlatEntry>
    decreases n, |n.children| + 1
  {
    if !Visible(n, showHidden) then []
    else [EntryOf(n)] + (if n.expanded then FlattenedFrom(n, showHidden, 0) else [])
  }

  /** The rows of the children of `n` from index `i` on. */
  function FlattenedFrom(n: Node, showHidden: bool, i: nat): seq<FlatEntry>
    requires i <= |n.children|
    decreases n, |n.children| - i
  {
    if i == |n.children| then []
    else Flattened(n.children[i], showHidden) + FlattenedFrom(n, showHidden, i + 1)
  }

  /** `flatten_node`: appends the rows of the subtree to `out`, one child at a time. */
  method FlattenNode(n: Node, showHidden: bool, out: seq<FlatEntry>) returns (r: seq<FlatEntry>)
    ensures r == out + Flattened(n, showHidden)
    decreases n
  {
    if !Visible(n, showHidden) {
      return out;
    }
    r := out + [EntryOf(n)];
    if n.expanded {
      assert Flattened(n, showHidden) == [EntryOf(n)] + FlattenedFrom(n, showHidden, 0);
      var i := 0;
      while i < |n.children|
        invariant 0 <= i <= |n.children|
        invariant r + FlattenedFrom(n, showHidden, i) == out + Flattened(n, showHidden)
      {
        ghost var before := r;
        ghost var rest := FlattenedFrom(n, showHidden, i + 1);
        r := FlattenNode(n.children[i], showHidden, r);
        assert FlattenedFrom(n, showHidden, i) == Flattened(n.children[i], showHidden) + rest;
        assert r + rest == before + (Flattened(n.children[i], showHidden) + rest);
        i := i + 1;
      }
    } else {
      assert Flattened(n, showHidden) == [EntryOf(n)];
    }
  }

  /** With hidden entries not shown, no row below the root has a hidden name. */
  lemma {:induction false} FlattenedNoHidden(n: Node)
    ensures forall k :: 0 <= k < |Flattened(n, false)| ==>
      Flattened(n, false)[k].depth > 0 ==> !IsHiddenName(Flattened(n, false)[k].name)
    decreases n, |n.children| + 1
  {
    if Visible(n, false) && n.expanded {
      FlattenedFromNoHidden(n, 0);
    }
  }

  lemma {:induction false} FlattenedFromNoHidden(n: Node, i: nat)
    requires i <= |n.children|
    ensures forall k :: 0 <= k < |FlattenedFrom(n, false, i)| ==>
      FlattenedFrom(n, false, i)[k].depth > 0 ==> !IsHiddenName(FlattenedFrom(n, false, i)[k].name)
    decreases n, |n.children| - i
  {
    if i < |n.children| {
      FlattenedNoHidden(n.children[i]);
      FlattenedFromNoHidden(n, i + 1);
    }
  }

  /** Pre-order: a visible node's own row comes first, and rows follow it exactly when it
      is expanded and has a visible child; a collapsed node is a single row. */
  lemma FlattenedShape(n: Node, showHidden: bool)
    requires Visible(n, showHidden)
    ensures Flattened(n, showHidden)[0] == EntryOf(n)
    ensures |Flattened(n, showHidden)| > 1 <==>
      n.expanded && exists i :: 0 <= i < |n.children| && Visible(n.children[i], showHidden)
    ensures !n.expanded ==> Flattened(n, showHidden) == [EntryOf(n)]
  {
    if n.expanded { FlattenedFromEmpty(n, showHidden, 0); }
  }

  lemma {:induction false} FlattenedFromEmpty(n: Node, showHidden: bool, i: nat)
    requires i <= |n.children|
    ensures FlattenedFrom(n, showHidden, i) != [] <==>
      exists j :: i <= j < |n.children| && Visible(n.children[j], showHidden)
    decreases |n.children| - i
  {
    if i < |n.children| {
      FlattenedFromEmpty(n, showHidden, i + 1);
      if exists j :: i <= j < |n.children| && Visible(n.children[j], showHidden) {
        var j :| i <= j < |n.children| && Visible(n.children[j], showHidden);
        if j > i { assert i + 1 <= j; }
      }
    }
  }

  /** A node whose children are collapsed and visible has one row per child below its own. */
  lemma {:induction false} FlattenedFromLeaves(n: Node, showHidden: bool, i: nat)
    requires i <= |n.children|
    requires forall j :: i <= j < |n.children| ==> !n.children[j].expanded && Visible(n.children[j], showHidden)
    ensures |FlattenedFrom(n, showHidden, i)| == |n.children| - i
    decreases |n.children| - i
  {
    if i < |n.children| {
      FlattenedFromLeaves(n, showHidden, i + 1);
    }
  }

  // Toggling.

  /** The node a path names in the search `toggle_node` makes: the node itself, or else,
      when it is expanded, the first child subtree in which the search succeeds. */
  function Found(n: Node, p: string): Option<Node>
    decreases n, |n.children| + 1
  {
    if n.path == p then Some(n)
    else if n.expanded then FoundFrom(n, p, 0)
    else None
  }

  function FoundFrom(n: Node, p: string, i: nat): Option<Node>
    requires i <= |n.children|
    decreases n, |n.children| - i
  {
    if i == |n.children| then None
    else if Found(n.children[i], p).Some? then Found(n.children[i], p)
    else FoundFrom(n, p, i + 1)
  }

  /** The found node flipped open or shut; opened with no children, it loads them. */
  function Flipped(n: Node, showHidden: bool, fs: Fs): Node
  {
    var m := n.(expanded := !n.expanded);
    if m.expanded && m.children == [] then Loaded(m, showHidden, fs) else m
  }

  /** `toggle_node` as a function: whether the path was found, and the tree after. A search
      that fails changes nothing, and only the children's sequence of the node can change. */
  function Toggled(n: Node, p: string, showHidden: bool, fs: Fs): (r: (bool, Node))
    ensures !r.0 ==> r.1 == n
    ensures r.1.path == n.path && r.1.depth == n.depth && r.1.name == n.name && r.1.isDir == n.isDir
    ensures n.path != p ==> r.1 == n.(children := r.1.children) && |r.1.children| == |n.children|
    decreases n, |n.children| + 1
  {
    if n.path == p then (true, Flipped(n, showHidden, fs))
    else if n.expanded then ToggledFrom(n, p, showHidden, fs, 0)
    else (false, n)
  }

  function ToggledFrom(n: Node, p: string, showHidden: bool, fs: Fs, i: nat): (r: (bool, Node))
    requires i <= |n.children|
    ensures !r.0 ==> r.1 == n
    ensures r.1 == n.(children := r.1.children) && |r.1.children| == |n.children|
    ensures forall k :: 0 <= k < i ==> r.1.children[k] == n.children[k]
    decreases n, |n.children| - i
  {
    if i == |n.children| then (false, n)
    else
      var t := Toggled(n.children[i], p, showHidden, fs);
      if t.0 then (true, n.(children := n.children[i := t.1]))
      else ToggledFrom(n, p, showHidden, fs, i + 1)
  }

  /** `toggle_node`: the recursive search with early exit, one child at a time. */
  method ToggleNode(n: Node, p: string, showHidden: bool, fs: Fs) returns (found: bool, r: Node)
    ensures (found, r) == Toggled(n, p, showHidden, fs)
    decreases n
  {
    if n.path == p {
      r := n.(expanded := !n.expanded);
      if r.expanded && r.children == [] {
        r := LoadChildren(r, showHidden, fs);
      }
      return true, r;
    }
    if n.expanded {
      var i := 0;
      while i < |n.children|
        invariant 0 <= i <= |n.children|
        invariant ToggledFrom(n, p, showHidden, fs, i) == Toggled(n, p, showHidden, fs)
      {
        var b, c := ToggleNode(n.children[i], p, showHidden, fs);
        if b {
          return true, n.(children := n.children[i := c]);
        }
        i := i + 1;
      }
    }
    return false, n;
  }

  /** Child `j` is the first from `i` on whose subtree holds the path, and `r` is `n` with
      that child toggled and the rest left as they are. */
  predicate FirstMatch(n: Node, p: string, showHidden: bool, fs: Fs, i: nat, j: nat, r: Node)
  {
    && i <= j < |n.children|
    && Found(n.children[j], p).Some?
    && (forall k :: i <= k < j ==> Found(n.children[k], p).None?)
    && r == n.(children := n.children[j := Toggled(n.children[j], p, showHidden, fs).1])
  }

  /** The search succeeds exactly when the path names a node, and it toggles the first
      match: the children before it hold no match and are left as they are, and so are the
      children after it. */
  lemma {:induction false} ToggledFirstMatch(n: Node, p: string, showHidden: bool, fs: Fs, i: nat)
    requires i <= |n.children|
    ensures var t := ToggledFrom(n, p, showHidden, fs, i);
      && (t.0 <==> FoundFrom(n, p, i).Some?)
      && (t.0 ==> exists j :: FirstMatch(n, p, showHidden, fs, i, j, t.1))
    decreases |n.children| - i
  {
    if i < |n.children| {
      ToggledFound(n.children[i], p, showHidden, fs);
      ToggledFirstMatch(n, p, showHidden, fs, i + 1);
      var t := ToggledFrom(n, p, showHidden, fs, i);
      if Toggled(n.children[i], p, showHidden, fs).0 {
        assert FirstMatch(n, p, showHidden, fs, i, i, t.1);
      } else if t.0 {
        var j :| FirstMatch(n, p, showHidden, fs, i + 1, j, t.1);
        assert FirstMatch(n, p, showHidden, fs, i, j, t.1);
      }
    }
  }

  lemma {:induction false} ToggledFound(n: Node, p: string, showHidden: bool, fs: Fs)
    ensures Toggled(n, p, showHidden, fs).0 <==> Found(n, p).Some?
    decreases n, |n.children| + 1
  {
    if n.path != p && n.expanded {
      ToggledFromFound(n, p, showHidden, fs, 0);
    }
  }

  lemma {:induction false} ToggledFromFound(n: Node, p: string, showHidden: bool, fs: Fs, i: nat)
    requires i <= |n.children|
    ensures ToggledFrom(n, p, showHidden, fs, i).0 <==> FoundFrom(n, p, i).Some?
    decreases n, |n.children| - i
  {
    if i < |n.children| {
      ToggledFound(n.children[i], p, showHidden, fs);
      ToggledFromFound(n, p, showHidden, fs, i + 1);
    }
  }

  /** Toggling the same path twice restores the tree when the node it names already has
      children (otherwise the first toggle loads them). */
  lemma {:induction false} ToggleTwice(n: Node, p: string, showHidden: bool, fs: Fs)
    requires Found(n, p).None? || Found(n, p).value.children != []
    ensures var t := Toggled(n, p, showHidden, fs); Toggled(t.1, p, showHidden, fs) == (t.0, n)
    decreases n, |n.children| + 1
  {
    if n.path != p && n.expanded {
      ToggleFromTwice(n, p, showHidden, fs, 0);
    }
  }

  lemma {:induction false} ToggleFromTwice(n: Node, p: string, showHidden: bool, fs: Fs, i: nat)
    requires i <= |n.children| && n.path != p && n.expanded
    requires FoundFrom(n, p, i).None? || FoundFrom(n, p, i).value.children != []
    ensures var t := ToggledFrom(n, p, showHidden, fs, i);
      t.1.path != p && t.1.expanded && ToggledFrom(t.1, p, showHidden, fs, i) == (t.0, n)
    decreases n, |n.children| - i
  {
    if i < |n.children| {
      var c := n.children[i];
      var t := Toggled(c, p, showHidden, fs);
      ToggledFound(c, p, showHidden, fs);
      if t.0 {
        ToggleTwice(c, p, showHidden, fs);
        var n' := n.(children := n.children[i := t.1]);
        assert n'.children[i] == t.1;
        assert n'.children[i := c] == n.children;
      } else {
        ToggleFromTwice(n, p, showHidden, fs, i + 1);
      }
    }
  }

  lemma {:induction false} ToggledWellDepth(n: Node, p: string, showHidden: bool, fs: Fs)
    requires WellDepth(n)
    ensures WellDepth(Toggled(n, p, showHidden, fs).1)
    decreases n, |n.children| + 1
  {
    if n.path == p {
      LoadedWellDepth(n.(expanded := !n.expanded), showHidden, fs);
    } else if n.expanded {
      ToggledFromWellDepth(n, p, showHidden, fs, 0);
    }
  }

  lemma {:induction false} ToggledFromWellDepth(n: Node, p: string, showHidden: bool, fs: Fs, i: nat)
    requires WellDepth(n) && i <= |n.children|
    ensures WellDepth(ToggledFrom(n, p, showHidden, fs, i).1)
    decreases n, |n.children| - i
  {
    if i < |n.children| {
      var t := Toggled(n.children[i], p, showHidden, fs);
      ToggledWellDepth(n.children[i], p, showHidden, fs);
      if !t.0 {
        ToggledFromWellDepth(n, p, showHidden, fs, i + 1);
      }
    }
  }

  // Reloading.

  /** Whether `reload_tree` reloads this node's children: an expanded directory above the
      depth limit. An expanded directory at the limit is recursed into but loads nothing. */
  predicate Reloads(n: Node)
  {
    n.isDir && n.expanded && n.depth < MAX_DEPTH
  }

  /** What loading gives a node's children that the reload descends into: collapsed fresh
      children after a real load, the node's own children otherwise. */
  lemma ReloadStep(n: Node, showHidden: bool, fs: Fs)
    requires WellDepth(n) && n.isDir && n.expanded
    ensures var m := Loaded(n, showHidden, fs);
      forall i :: 0 <= i < |m.children| ==>
        WellDepth(m.children[i]) && m.children[i].depth == n.depth + 1 &&
        (Reloads(n) ==> !m.children[i].expanded) &&
        (!Reloads(n) ==> m.children[i] == n.children[i])
  {
    LoadedWellDepth(n, showHidden, fs);
    if !Reloads(n) {
      assert Loaded(n, showHidden, fs) == n;
    } else if n.path in fs {
      LoadedChildren(n, showHidden, fs);
    }
  }

  /** `reload_tree` as a function: an expanded directory loads its children again and each
      child is reloaded in turn; any other node is left as it is. */
  function Reloaded(n: Node, showHidden: bool, fs: Fs): Node
    requires WellDepth(n)
    decreases if Reloads(n) then 1 else 0, n
  {
    if !(n.isDir && n.expanded) then n
    else
      var m := Loaded(n, showHidden, fs);
      ReloadStep(n, showHidden, fs);
      m.(children := seq(|m.children|, i requires 0 <= i < |m.children| => Reloaded(m.children[i], showHidden, fs)))
  }

  /** `reload_tree`: loads the children again, then reloads each child in place. */
  method ReloadTree(n: Node, showHidden: bool, fs: Fs) returns (r: Node)
    requires WellDepth(n)
    ensures r == Reloaded(n, showHidden, fs)
    decreases if Reloads(n) then 1 else 0, n
  {
    if !(n.isDir && n.expanded) {
      return n;
    }
    r := LoadChildren(n, showHidden, fs);
    ReloadStep(n, showHidden, fs);
    ghost var m := r;
    var i := 0;
    while i < |r.children|
      invariant 0 <= i <= |r.children| == |m.children|
      invariant r == m.(children := r.children)
      invariant forall k :: 0 <= k < i ==> r.children[k] == Reloaded(m.children[k], showHidden, fs)
      invariant forall k :: i <= k < |r.children| ==> r.children[k] == m.children[k]
    {
      var c := ReloadTree(r.children[i], showHidden, fs);
      r := r.(children := r.children[i := c]);
      i := i + 1;
    }
    assert r.children == seq(|m.children|, k requires 0 <= k < |m.children| => Reloaded(m.children[k], showHidden, fs));
  }

  /** What reloading amounts to: the node's own children are loaded afresh when it reloads,
      and nothing changes otherwise. The recursion into the children finds them all
      collapsed, so every expanded directory below the node is collapsed afterwards. */
  lemma {:induction false} ReloadedCases(n: Node, showHidden: bool, fs: Fs)
    requires WellDepth(n)
    ensures Reloaded(n, showHidden, fs) == if Reloads(n) then Loaded(n, showHidden, fs) else n
    decreases n
  {
    if n.isDir && n.expanded {
      var m := Loaded(n, showHidden, fs);
      ReloadStep(n, showHidden, fs);
      var cs := seq(|m.children|, i requires 0 <= i < |m.children| => Reloaded(m.children[i], showHidden, fs));
      forall i | 0 <= i < |m.children| ensures cs[i] == m.children[i] {
        if !Reloads(n) {
          ReloadedCases(m.children[i], showHidden, fs);
          assert !Reloads(m.children[i]);
        }
      }
      assert cs == m.children;
      if !Reloads(n) {
        assert m == n;
      }
    }
  }

  lemma ReloadedWellDepth(n: Node, showHidden: bool, fs: Fs)
    requires WellDepth(n)
    ensures WellDepth(Reloaded(n, showHidden, fs))
    ensures Reloaded(n, showHidden, fs).path == n.path && Reloaded(n, showHidden, fs).depth == n.depth
    ensures Reloaded(n, showHidden, fs).isDir == n.isDir && Reloaded(n, showHidden, fs).name == n.name
  {
    ReloadedCases(n, showHidden, fs);
    LoadedWellDepth(n, showHidden, fs);
  }

  // Counting rows.

  /** The number of listing entries that are shown. */
  function ShownCount(entries: seq<FsEntry>, showHidden: bool): (r: nat)
    ensures r <= |entries|
    ensures showHidden ==> r == |entries|
    decreases |entries|
  {
    if entries == [] then 0
    else ShownCount(entries[..|entries| - 1], showHidden) + (if Shown(entries[|entries| - 1], showHidden) then 1 else 0)
  }

  /** With hidden entries not shown, a listing holding a hidden name shows fewer entries than
      it has. */
  lemma {:induction false} ShownCountHidden(entries: seq<FsEntry>, k: nat)
    requires k < |entries| && IsHiddenName(entries[k].name)
    ensures ShownCount(entries, false) < |entries|
    decreases |entries|
  {
    var front := entries[..|entries| - 1];
    if k < |entries| - 1 {
      assert front[k] == entries[k];
      ShownCountHidden(front, k);
    }
  }

  /** A listing with a shown entry shows at least one entry. */
  lemma {:induction false} ShownCountShown(entries: seq<FsEntry>, showHidden: bool, k: nat)
    requires k < |entries| && Shown(entries[k], showHidden)
    ensures ShownCount(entries, showHidden) >= 1
    decreases |entries|
  {
    var front := entries[..|entries| - 1];
    if k < |entries| - 1 {
      assert front[k] == entries[k];
      ShownCountShown(front, showHidden, k);
    }
  }

  lemma {:induction false} KindCount(parent: Node, entries: seq<FsEntry>, showHidden: bool)
    ensures |Kind(parent, entries, showHidden, true)| + |Kind(parent, entries, showHidden, false)| == ShownCount(entries, showHidden)
    decreases |entries|
  {
    if entries != [] {
      KindCount(parent, entries[..|entries| - 1], showHidden);
    }
  }

  /** A freshly loaded, expanded, visible directory flattens to its own row and one row per
      shown listing entry. */
  lemma FlattenedLoaded(n: Node, showHidden: bool, fs: Fs)
    requires n.isDir && n.expanded && n.depth < MAX_DEPTH && n.path in fs && Visible(n, showHidden)
    ensures |Flattened(Loaded(n, showHidden, fs), showHidden)| == 1 + ShownCount(fs[n.path], showHidden)
  {
    var m := Loaded(n, showHidden, fs);
    LoadedChildren(n, showHidden, fs);
    KindCount(n, fs[n.path], showHidden);
    FlattenedFromLeaves(m, showHidden, 0);
  }

  // The tree with its row cache and cursor.

  /** The rows of the whole tree: none without a root. */
  function FlatOf(root: Option<Node>, showHidden: bool): seq<FlatEntry>
  {
    match root
    case None => []
    case Some(n) => Flattened(n, showHidden)
  }

  /** The root node `set_root` starts from: a directory at depth 0, expanded, not loaded. */
  function RootNode(name: string, path: string): Node
  {
    Node(name, path, true, 0, true, [])
  }

  /** A root as `set_root` leaves it: a directory at depth 0 whose descendants have the
      depths loading gives them. */
  predicate ValidRoot(n: Node)
  {
    n.isDir && n.depth == 0 && WellDepth(n)
  }

  class DirTree {
    var root: Option<Node>
    var cursor: nat
    var showHidden: bool
    var flat: seq<FlatEntry>

    /** The row cache is the flattening of the current tree. */
    ghost predicate Valid()
      reads this
    {
      (root.Some? ==> ValidRoot(root.value)) && flat == FlatOf(root, showHidden)
    }

    /** `DirTree::empty`: no root, no rows. */
    constructor Empty()
      ensures Valid() && root == None && cursor == 0 && !showHidden && flat == []
    {
      root := None;
      cursor := 0;
      showHidden := false;
      flat := [];
    }

    /** `DirTree::new`: the empty tree with `set_root` applied. `rootName` is the path's
        final component (or the whole path when it has none) and `rootIsDir` says whether the
        path is a directory. */
    constructor (rootPath: string, rootName: string, rootIsDir: bool, fs: Fs)
      ensures Valid() && !showHidden && cursor == 0
      ensures root == if rootIsDir then Some(Loaded(RootNode(rootName, rootPath), false, fs)) else None
    {
      root := None;
      cursor := 0;
      showHidden := false;
      flat := [];
      new;
      SetRoot(rootPath, rootName, rootIsDir, fs);
    }

    /** `set_root`: for a directory, a fresh expanded root with its children loaded, the
        cursor on it and the rows rebuilt; for anything else, no change. */
    method SetRoot(rootPath: string, rootName: string, rootIsDir: bool, fs: Fs)
      requires Valid()
      modifies this
      ensures Valid() && showHidden == old(showHidden)
      ensures rootIsDir ==> root == Some(Loaded(RootNode(rootName, rootPath), showHidden, fs)) && cursor == 0
      ensures !rootIsDir ==> root == old(root) && cursor == old(cursor) && flat == old(flat)
    {
      if rootIsDir {
        var node := LoadChildren(RootNode(rootName, rootPath), showHidden, fs);
        LoadedWellDepth(RootNode(rootName, rootPath), showHidden, fs);
        root := Some(node);
        cursor := 0;
        RebuildFlat();
      }
    }

    /** `rebuild_flat`: the rows recomputed from the tree. */
    method RebuildFlat()
      modifies this
      ensures flat == FlatOf(root, showHidden)
      ensures root == old(root) && cursor == old(cursor) && showHidden == old(showHidden)
    {
      flat := [];
      if root.Some? {
        flat := FlattenNode(root.value, showHidden, flat);
      }
    }

    /** `cursor_up`: one row up, stopping at the first. */
    method CursorUp()
      requires Valid()
      modifies this
      ensures Valid() && cursor == SaturatingSub(old(cursor), 1)
      ensures root == old(root) && showHidden == old(showHidden) && flat == old(flat)
    {
      if cursor > 0 {
        cursor := cursor - 1;
      }
    }

    /** `cursor_down`: one row down, stopping at the last row. */
    method CursorDown()
      requires Valid()
      modifies this
      ensures Valid() && cursor == if old(cursor) + 1 < |flat| then old(cursor) + 1 else old(cursor)
      ensures old(cursor) < |flat| ==> cursor < |flat|
      ensures root == old(root) && showHidden == old(showHidden) && flat == old(flat)
    {
      if cursor + 1 < |flat| {
        cursor := cursor + 1;
      }
    }

    /** `selected_path`: the path of the row under the cursor, if there is one. */
    function SelectedPath(): (r: Option<string>)
      reads this
      ensures r.Some? <==> cursor < |flat|
      ensures r.Some? ==> r.value == flat[cursor].path
    {
      if cursor < |flat| then Some(flat[cursor].path) else None
    }

    /** `selected_is_dir`: false when there is no row under the cursor. */
    function SelectedIsDir(): (r: bool)
      reads this
      ensures r <==> cursor < |flat| && flat[cursor].isDir
    {
      cursor < |flat| && flat[cursor].isDir
    }

    /** `toggle`: on a directory row, toggles the node with that path and rebuilds the
        rows; on a file row or past the last row, nothing changes. */
    method Toggle(fs: Fs)
      requires Valid()
      modifies this
      ensures Valid() && cursor == old(cursor) && showHidden == old(showHidden)
      ensures old(SelectedIsDir()) && old(root).Some? ==>
        root == Some(Toggled(old(root).value, old(flat)[cursor].path, showHidden, fs).1)
      ensures !old(SelectedIsDir()) ==> root == old(root) && flat == old(flat)
    {
      if cursor < |flat| && flat[cursor].isDir {
        var path := flat[cursor].path;
        if root.Some? {
          var _, r := ToggleNode(root.value, path, showHidden, fs);
          ToggledWellDepth(root.value, path, showHidden, fs);
          root := Some(r);
        }
        RebuildFlat();
      }
    }

    /** `toggle_hidden`: flips whether hidden entries are shown, reloads the tree, rebuilds
        the rows and pulls a cursor past the last row back onto it. */
    method ToggleHidden(fs: Fs)
      requires Valid()
      modifies this
      ensures Valid() && showHidden == !old(showHidden)
      ensures old(root).None? ==> root == None
      ensures old(root).Some? ==> root == Some(Reloaded(old(root).value, showHidden, fs))
      ensures cursor == if old(cursor) >= |flat| then SaturatingSub(|flat|, 1) else old(cursor)
    {
      showHidden := !showHidden;
      if root.Some? {
        var r := ReloadTree(root.value, showHidden, fs);
        ReloadedWellDepth(root.value, showHidden, fs);
        root := Some(r);
      }
      RebuildFlat();
      if cursor >= |flat| {
        cursor := SaturatingSub(|flat|, 1);
      }
    }
  }

  /** With a root, the first row is the root's own, and it is a directory at depth 0. */
  lemma RootRowFirst(root: Option<Node>, showHidden: bool)
    requires root.Some? && ValidRoot(root.value)
    ensures |FlatOf(root, showHidden)| >= 1
    ensures FlatOf(root, showHidden)[0] == EntryOf(root.value)
    ensures FlatOf(root, showHidden)[0].isDir && FlatOf(root, showHidden)[0].depth == 0
  {
    FlattenedShape(root.value, showHidden);
  }

  // The scenarios of the module's own tests, over any listing that has the entries they create.

  /** An empty tree has no rows and nothing selected. */
  method EmptyTree() returns (rows: nat, selected: Option<string>)
    ensures rows == 0 && selected == None
  {
    var t := new DirTree.Empty();
    rows := |t.flat|;
    selected := t.SelectedPath();
  }

  /** A directory with two shown entries gives at least three rows, the root's first. */
  method LoadsDirectory(rootPath: string, rootName: string, fs: Fs, j: nat, k: nat)
      returns (rows: nat, firstIsDir: bool)
    requires rootPath in fs && j < k < |fs[rootPath]|
    requires !IsHiddenName(fs[rootPath][j].name) && !IsHiddenName(fs[rootPath][k].name)
    ensures rows >= 3 && firstIsDir
  {
    var t := new DirTree(rootPath, rootName, true, fs);
    FlattenedLoaded(RootNode(rootName, rootPath), false, fs);
    ShownCountTwo(fs[rootPath], j, k);
    RootRowFirst(t.root, false);
    rows := |t.flat|;
    firstIsDir := t.flat[0].isDir;
  }

  lemma {:induction false} ShownCountTwo(entries: seq<FsEntry>, j: nat, k: nat)
    requires j < k < |entries| && !IsHiddenName(entries[j].name) && !IsHiddenName(entries[k].name)
    ensures ShownCount(entries, false) >= 2
    decreases |entries|
  {
    var front := entries[..|entries| - 1];
    assert front[j] == entries[j];
    if k < |entries| - 1 {
      assert front[k] == entries[k];
      ShownCountTwo(front, j, k);
    } else {
      ShownCountShown(front, false, j);
    }
  }

  /** Showing hidden entries adds rows when the root holds a hidden entry. */
  method HiddenFilesToggle(rootPath: string, rootName: string, fs: Fs, k: nat)
      returns (withoutHidden: nat, withHidden: nat)
    requires rootPath in fs && k < |fs[rootPath]| && IsHiddenName(fs[rootPath][k].name)
    ensures withHidden > withoutHidden
  {
    var t := new DirTree(rootPath, rootName, true, fs);
    var r0 := Loaded(RootNode(rootName, rootPath), false, fs);
    FlattenedLoaded(RootNode(rootName, rootPath), false, fs);
    ShownCountHidden(fs[rootPath], k);
    withoutHidden := |t.flat|;
    t.ToggleHidden(fs);
    LoadedWellDepth(RootNode(rootName, rootPath), false, fs);
    ReloadedCases(r0, true, fs);
    FlattenedLoaded(r0, true, fs);
    withHidden := |t.flat|;
  }

  /** Toggling the root collapses it to its own row; toggling it again restores every row. */
  method CollapseAndExpand(rootPath: string, rootName: string, fs: Fs, k: nat)
      returns (initial: nat, collapsed: nat, expanded: nat)
    requires rootPath in fs && k < |fs[rootPath]| && !IsHiddenName(fs[rootPath][k].name)
    ensures collapsed < initial && expanded == initial
  {
    var t := new DirTree(rootPath, rootName, true, fs);
    var r0 := Loaded(RootNode(rootName, rootPath), false, fs);
    FlattenedLoaded(RootNode(rootName, rootPath), false, fs);
    ShownCountShown(fs[rootPath], false, k);
    RootRowFirst(t.root, false);
    initial := |t.flat|;
    t.cursor := 0;
    t.Toggle(fs);
    assert t.root == Some(r0.(expanded := false));
    FlattenedShape(r0.(expanded := false), false);
    collapsed := |t.flat|;
    RootRowFirst(t.root, false);
    t.Toggle(fs);
    assert r0.children != [];
    assert t.root == Some(r0);
    expanded := |t.flat|;
  }

  /** Down moves to the second row, Up back to the first, and Up again stays there. */
  method CursorNavigation(rootPath: string, rootName: string, fs: Fs, k: nat) returns (cursors: seq<nat>)
    requires rootPath in fs && k < |fs[rootPath]| && !IsHiddenName(fs[rootPath][k].name)
    ensures cursors == [0, 1, 0, 0]
  {
    var t := new DirTree(rootPath, rootName, true, fs);
    FlattenedLoaded(RootNode(rootName, rootPath), false, fs);
    ShownCountShown(fs[rootPath], false, k);
    var c0 := t.cursor;
    t.CursorDown();
    var c1 := t.cursor;
    t.CursorUp();
    var c2 := t.cursor;
    t.CursorUp();
    cursors := [c0, c1, c2, t.cursor];
  }
}
