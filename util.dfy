/** Text and collection helpers shared by the model: the optional value, splitting and
    joining strings, decimal rendering of numbers, ASCII case folding and path joining. */
module Util {

  datatype Option<+T> = None | Some(value: T)

  function Min(a: int, b: int): int { if a <= b then a else b }

  function Max(a: int, b: int): int { if a >= b then a else b }

  /** `a - b` clamped at zero, the meaning of Rust's `usize::saturating_sub`. */
  function SaturatingSub(a: nat, b: nat): (r: nat)
    ensures r == Max(0, a - b)
  {
    if a >= b then a - b else 0
  }

  /** Number of occurrences of `c` in `s`. */
  function Occurrences(s: string, c: char): nat
  {
    if s == [] then 0 else (if s[0] == c then 1 else 0) + Occurrences(s[1..], c)
  }

  lemma {:induction false} OccurrencesAppend(x: string, y: string, c: char)
    ensures Occurrences(x + y, c) == Occurrences(x, c) + Occurrences(y, c)
  {
    if x != [] {
      assert (x + y)[1..] == x[1..] + y;
      OccurrencesAppend(x[1..], y, c);
    } else {
      assert x + y == y;
    }
  }

  /** `parts.join(sep)`. */
  function Join(parts: seq<string>, sep: string): string
  {
    if |parts| == 0 then ""
    else if |parts| == 1 then parts[0]
    else parts[0] + sep + Join(parts[1..], sep)
  }

  /** `s.split(sep)`: the pieces between separators, always at least one (the empty string
      splits into one empty piece). */
  function Split(s: string, sep: char): (parts: seq<string>)
    ensures |parts| == Occurrences(s, sep) + 1
    ensures forall k :: 0 <= k < |parts| ==> sep !in parts[k]
    decreases |s|
  {
    if s == [] then [""]
    else
      var rest := Split(s[1..], sep);
      if s[0] == sep then [""] + rest
      else [[s[0]] + rest[0]] + rest[1..]
  }

  /** Joining the pieces with the separator gives back the original text. */
  lemma {:induction false} JoinSplit(s: string, sep: char)
    ensures Join(Split(s, sep), [sep]) == s
    decreases |s|
  {
    if s != [] {
      var rest := Split(s[1..], sep);
      JoinSplit(s[1..], sep);
      if s[0] == sep {
        assert Split(s, sep) == [""] + rest;
        assert ([""] + rest)[1..] == rest;
      } else {
        var parts := Split(s, sep);
        assert parts == [[s[0]] + rest[0]] + rest[1..];
        if |rest| == 1 {
          assert Join(rest, [sep]) == rest[0];
        } else {
          assert parts[1..] == rest[1..];
          assert Join(rest, [sep]) == rest[0] + [sep] + Join(rest[1..], [sep]);
        }
      }
    }
  }

  /** Splitting the join of separator-free pieces gives the pieces back. */
  lemma {:induction false} SplitJoin(parts: seq<string>, sep: char)
    requires parts != [] && forall k :: 0 <= k < |parts| ==> sep !in parts[k]
    ensures Split(Join(parts, [sep]), sep) == parts
    decreases |parts|
  {
    if |parts| == 1 {
      SplitNoSeparator(parts[0], sep);
    } else {
      var j := Join(parts[1..], [sep]);
      SplitJoin(parts[1..], sep);
      SplitFront(parts[0], j, sep);
      assert Join(parts, [sep]) == parts[0] + [sep] + j;
      assert parts == [parts[0]] + parts[1..];
    }
  }

  /** Splitting a concatenation: the last piece of `x` and the first piece of `y` fuse. */
  lemma {:induction false} SplitAppend(x: string, y: string, sep: char)
    ensures var a, b := Split(x, sep), Split(y, sep);
      Split(x + y, sep) == a[..|a| - 1] + [a[|a| - 1] + b[0]] + b[1..]
    decreases |x|
  {
    var b := Split(y, sep);
    if x == [] {
      assert x + y == y;
      assert Split(x, sep) == [""];
      assert "" + b[0] == b[0];
      assert b == [b[0]] + b[1..];
    } else {
      var xy := x + y;
      assert xy[0] == x[0];
      assert xy[1..] == x[1..] + y;
      SplitAppend(x[1..], y, sep);
      var a' := Split(x[1..], sep);
      var r := Split(x[1..] + y, sep);
      assert Split(xy, sep) == (if x[0] == sep then [""] + r else [[x[0]] + r[0]] + r[1..]);
      if x[0] == sep {
        SplitAppendSep(x, a', r, b, sep);
      } else {
        SplitAppendChar(x, a', r, b, sep);
      }
    }
  }

  lemma SplitAppendSep(x: string, a': seq<string>, r: seq<string>, b: seq<string>, sep: char)
    requires x != [] && x[0] == sep && |a'| >= 1 && |b| >= 1
    requires a' == Split(x[1..], sep)
    requires r == a'[..|a'| - 1] + [a'[|a'| - 1] + b[0]] + b[1..]
    ensures var a := Split(x, sep); [""] + r == a[..|a| - 1] + [a[|a| - 1] + b[0]] + b[1..]
  {
    var a := Split(x, sep);
    assert a == [""] + a';
    assert a[..|a| - 1] == [""] + a'[..|a'| - 1];
  }

  lemma SplitAppendChar(x: string, a': seq<string>, r: seq<string>, b: seq<string>, sep: char)
    requires x != [] && x[0] != sep && |a'| >= 1 && |b| >= 1
    requires a' == Split(x[1..], sep)
    requires r == a'[..|a'| - 1] + [a'[|a'| - 1] + b[0]] + b[1..]
    ensures var a := Split(x, sep);
      [[x[0]] + r[0]] + r[1..] == a[..|a| - 1] + [a[|a| - 1] + b[0]] + b[1..]
  {
    var a := Split(x, sep);
    assert a == [[x[0]] + a'[0]] + a'[1..];
    if |a'| == 1 {
      SplitAppendCharOne(x[0], a'[0], r, b);
    } else {
      SplitAppendCharMany(x[0], a', r, b);
    }
  }

  lemma SplitAppendCharOne(c: char, p: string, r: seq<string>, b: seq<string>)
    requires |b| >= 1 && r == [p + b[0]] + b[1..]
    ensures var a := [[c] + p];
      [[c] + r[0]] + r[1..] == a[..|a| - 1] + [a[|a| - 1] + b[0]] + b[1..]
  {
    assert r[0] == p + b[0] && r[1..] == b[1..];
    assert [c] + (p + b[0]) == ([c] + p) + b[0];
  }

  lemma SplitAppendCharMany(c: char, a': seq<string>, r: seq<string>, b: seq<string>)
    requires |a'| >= 2 && |b| >= 1
    requires r == a'[..|a'| - 1] + [a'[|a'| - 1] + b[0]] + b[1..]
    ensures var a := [[c] + a'[0]] + a'[1..];
      [[c] + r[0]] + r[1..] == a[..|a| - 1] + [a[|a| - 1] + b[0]] + b[1..]
  {
    var a := [[c] + a'[0]] + a'[1..];
    assert r[0] == a'[0];
    assert r[1..] == a'[1..|a'| - 1] + [a'[|a'| - 1] + b[0]] + b[1..];
    assert a[..|a| - 1] == [[c] + a'[0]] + a'[1..|a'| - 1];
    assert a[|a| - 1] == a'[|a'| - 1];
  }

  /** Splitting text that holds no separator gives the text itself. */
  lemma SplitNoSeparator(s: string, sep: char)
    requires sep !in s
    ensures Split(s, sep) == [s]
    decreases |s|
  {
    if s != [] {
      assert sep !in s[1..];
      SplitNoSeparator(s[1..], sep);
      assert s == [s[0]] + s[1..];
    }
  }

  /** A separator-free piece followed by the separator splits off as one piece. */
  lemma SplitFront(piece: string, rest: string, sep: char)
    requires sep !in piece
    ensures Split(piece + [sep] + rest, sep) == [piece] + Split(rest, sep)
  {
    var t := [sep] + rest;
    assert t[0] == sep && t[1..] == rest;
    assert Split(t, sep) == [""] + Split(rest, sep);
    SplitNoSeparator(piece, sep);
    SplitAppend(piece, t, sep);
    assert piece + [sep] + rest == piece + t;
    assert piece + "" == piece;
  }

  /** A line-feed-free line followed by a line feed splits off as one piece. */
  lemma SplitLineFront(line: string, rest: string)
    requires '\n' !in line
    ensures Split(line + "\n" + rest, '\n') == [line] + Split(rest, '\n')
  {
    SplitFront(line, rest, '\n');
    assert line + "\n" + rest == line + ['\n'] + rest;
  }

  /** Splitting never introduces a character absent from the text. */
  lemma {:induction false} SplitKeepsAbsent(s: string, sep: char, c: char)
    requires c !in s
    ensures forall k :: 0 <= k < |Split(s, sep)| ==> c !in Split(s, sep)[k]
    decreases |s|
  {
    if s != [] {
      assert c !in s[1..];
      SplitKeepsAbsent(s[1..], sep, c);
    }
  }

  /** Joining one more piece appends the separator and that piece. */
  lemma {:induction false} JoinSnoc(parts: seq<string>, x: string, sep: string)
    requires parts != []
    ensures Join(parts + [x], sep) == Join(parts, sep) + sep + x
    decreases |parts|
  {
    if |parts| == 1 {
      assert (parts + [x])[1..] == [x];
    } else {
      assert (parts + [x])[1..] == parts[1..] + [x];
      JoinSnoc(parts[1..], x, sep);
    }
  }

  function DigitChar(d: nat): (c: char)
    requires d < 10
    ensures '0' <= c <= '9' && c as int - '0' as int == d
  {
    "0123456789"[d]
  }

  /** Decimal rendering of a natural number, as `format!("{}", n)` prints it. */
  function NatToString(n: nat): (r: string)
    ensures |r| >= 1
    ensures forall k :: 0 <= k < |r| ==> '0' <= r[k] <= '9'
    ensures n > 0 ==> r[0] != '0'
    decreases n
  {
    if n < 10 then [DigitChar(n)] else NatToString(n / 10) + [DigitChar(n % 10)]
  }

  /** The value a string of decimal digits denotes. */
  function DigitsValue(s: string): nat
    requires forall k :: 0 <= k < |s| ==> '0' <= s[k] <= '9'
  {
    if s == [] then 0
    else DigitsValue(s[..|s| - 1]) * 10 + (s[|s| - 1] as int - '0' as int)
  }

  /** Reading the rendering back yields the number: the rendering loses nothing. */
  lemma {:induction false} NatToStringRoundTrip(n: nat)
    ensures DigitsValue(NatToString(n)) == n
    decreases n
  {
    if n >= 10 {
      NatToStringRoundTrip(n / 10);
      var s := NatToString(n);
      assert s[..|s| - 1] == NatToString(n / 10);
    }
  }

  /** ASCII lower-casing of one character. */
  function Lower(c: char): (r: char)
    ensures 'A' <= c <= 'Z' ==> 'a' <= r <= 'z' && r as int == c as int + 32
    ensures !('A' <= c <= 'Z') ==> r == c
  {
    if 'A' <= c <= 'Z' then (c as int + 32) as char else c
  }

  /** ASCII lower-casing of a string. */
  function LowerStr(s: string): (r: string)
    ensures |r| == |s|
    ensures forall k :: 0 <= k < |s| ==> r[k] == Lower(s[k])
  {
    if s == [] then [] else [Lower(s[0])] + LowerStr(s[1..])
  }

  predicate StartsWith(s: string, prefix: string)
  {
    |prefix| <= |s| && s[..|prefix|] == prefix
  }

  /** `Path::join`: an absolute `name` replaces `dir`; otherwise a `/` is put between the
      two unless `dir` is empty or already ends with one. */
  function JoinPath(dir: string, name: string): (r: string)
    ensures StartsWith(name, "/") ==> r == name
    ensures !StartsWith(name, "/") && dir != [] && dir[|dir| - 1] != '/' ==> r == dir + "/" + name
  {
    if StartsWith(name, "/") then name
    else if dir == [] || dir[|dir| - 1] == '/' then dir + name
    else dir + "/" + name
  }

  /** `lines[start..].join("\n")` with `start = len - h` saturating: the last `h` lines. */
  function Tail<T>(s: seq<T>, h: nat): (r: seq<T>)
    ensures |r| == Min(h, |s|)
    ensures forall k :: 0 <= k < |r| ==> r[k] == s[|s| - |r| + k]
  {
    s[SaturatingSub(|s|, h)..]
  }

  /** The placeholder the panels show when there is nothing of a session to show. */
  const NO_SESSION: string := "(セッション未選択)"

  /** A second update of the same key overrides the first. */
  lemma UpdateTwice<K, V>(m: map<K, V>, k: K, a: V, b: V)
    ensures m[k := a][k := b] == m[k := b]
  {
  }

  /** Dropping a prefix of a concatenation that lies within its left part. */
  lemma DropConcat<T>(a: seq<T>, b: seq<T>, k: nat)
    requires k <= |a|
    ensures (a + b)[k..] == a[k..] + b
  {
  }

  /** Dropping twice is dropping the sum. */
  lemma DropDrop<T>(s: seq<T>, k: nat, m: nat)
    requires k + m <= |s|
    ensures s[k..][m..] == s[k + m..]
  {
  }

  /** A character absent from a text is absent from any of its prefixes. */
  lemma AbsentPrefix(s: string, n: nat, c: char)
    requires n <= |s| && c !in s
    ensures c !in s[..n]
  {
    forall k | 0 <= k < n ensures s[..n][k] != c {
      assert s[..n][k] == s[k];
    }
  }

  /** A character absent from two texts is absent from their concatenation. */
  lemma AbsentConcat(a: string, b: string, c: char)
    requires c !in a && c !in b
    ensures c !in a + b
  {
  }
}
