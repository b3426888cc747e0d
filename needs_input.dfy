/** The prompt detector: a text needs input when any of eight fixed patterns occurs in it.
    Each pattern has one of four shapes; every shape has a declarative meaning (a match span
    exists) and a left-to-right recogniser proved to agree with it. */
module NeedsInput {
  import opened Util

  /** The four shapes the eight patterns take.
      - `Literal(t)`: the exact text `t` occurs (case-sensitive).
      - `WordThenQuestion(w)`: `\bw\b.*\?` case-insensitively, `.` excluding line feeds.
      - `WordSpacesQuestion(w)`: `\bw\s*\?` case-insensitively.
      - `PhraseThenBoundary(p)`: `p\b` case-insensitively. */
  datatype Pattern =
    | Literal(text: string)
    | WordThenQuestion(word: string)
    | WordSpacesQuestion(word: string)
    | PhraseThenBoundary(phrase: string)

  /** `NeedsInputDetector::new`: the pattern list, in the order it is built. */
  function Patterns(): (ps: seq<Pattern>)
    ensures |ps| == 8
  {
    [ Literal("(y/n)"),
      Literal("(Y/n)"),
      Literal("(yes/no)"),
      WordThenQuestion("confirm"),
      WordSpacesQuestion("continue"),
      WordSpacesQuestion("proceed"),
      WordThenQuestion("allow"),
      PhraseThenBoundary("do you want to") ]
  }

  /** ASCII word characters, the ones `\b` separates from the rest. */
  predicate IsWordChar(c: char)
  {
    ('a' <= c <= 'z') || ('A' <= c <= 'Z') || ('0' <= c <= '9') || c == '_'
  }

  /** The Unicode White_Space characters, which `\s` matches. */
  predicate IsSpace(c: char)
  {
    c == ' ' || ('\t' <= c <= '\r') || c == '\U{0085}' || c == '\U{00A0}' || c == '\U{1680}' ||
    ('\U{2000}' <= c <= '\U{200A}') || c == '\U{2028}' || c == '\U{2029}' || c == '\U{202F}' ||
    c == '\U{205F}' || c == '\U{3000}'
  }

  /** `\b` at position `p`: exactly one of the characters on either side is a word character
      (outside the text counts as a non-word character). */
  predicate Boundary(s: string, p: int)
    requires 0 <= p <= |s|
  {
    (p > 0 && IsWordChar(s[p - 1])) != (p < |s| && IsWordChar(s[p]))
  }

  /** `lit` (all lower case) occurs at `i` under case-insensitive comparison. */
  predicate FoldedAt(s: string, i: int, lit: string)
    requires 0 <= i
  {
    i + |lit| <= |s| && forall k :: 0 <= k < |lit| ==> Lower(s[i + k]) == lit[k]
  }

  /** `.*\?` from `j`: a question mark at or after `j` with no line feed before it. */
  predicate QuestionLater(s: string, j: int)
    requires 0 <= j <= |s|
  {
    exists q :: j <= q < |s| && s[q] == '?' && forall m :: j <= m < q ==> s[m] != '\n'
  }

  /** `\s*\?` from `j`: a question mark at or after `j` with only white space before it. */
  predicate QuestionAfterSpaces(s: string, j: int)
    requires 0 <= j <= |s|
  {
    exists q :: j <= q < |s| && s[q] == '?' && forall m :: j <= m < q ==> IsSpace(s[m])
  }

  /** A match of `p` starts at position `i` of `s`. */
  predicate MatchesAt(p: Pattern, s: string, i: int)
    requires 0 <= i <= |s|
  {
    match p
    case Literal(t) => i + |t| <= |s| && s[i..i + |t|] == t
    case WordThenQuestion(w) =>
      Boundary(s, i) && FoldedAt(s, i, w) && Boundary(s, i + |w|) && QuestionLater(s, i + |w|)
    case WordSpacesQuestion(w) =>
      Boundary(s, i) && FoldedAt(s, i, w) && QuestionAfterSpaces(s, i + |w|)
    case PhraseThenBoundary(ph) => FoldedAt(s, i, ph) && Boundary(s, i + |ph|)
  }

  /** `is_match`: a match starts somewhere in `s`. */
  predicate Matches(p: Pattern, s: string)
  {
    exists i :: 0 <= i <= |s| && MatchesAt(p, s, i)
  }

  // Recognisers: one pass over the text, no backtracking.

  /** Scans for `?`, failing at the first line feed. */
  function ScanQuestion(s: string, j: nat): bool
    requires j <= |s|
    decreases |s| - j
  {
    if j == |s| then false
    else if s[j] == '?' then true
    else if s[j] == '\n' then false
    else ScanQuestion(s, j + 1)
  }

  /** Scans for `?`, failing at the first character that is not white space. */
  function ScanSpacesQuestion(s: string, j: nat): bool
    requires j <= |s|
    decreases |s| - j
  {
    if j == |s| then false
    else if s[j] == '?' then true
    else if !IsSpace(s[j]) then false
    else ScanSpacesQuestion(s, j + 1)
  }

  lemma {:induction false} ScanQuestionCorrect(s: string, j: nat)
    requires j <= |s|
    ensures ScanQuestion(s, j) <==> QuestionLater(s, j)
    decreases |s| - j
  {
    if j < |s| && s[j] != '?' && s[j] != '\n' {
      ScanQuestionCorrect(s, j + 1);
      if QuestionLater(s, j + 1) {
        var q :| j + 1 <= q < |s| && s[q] == '?' && forall m :: j + 1 <= m < q ==> s[m] != '\n';
        assert forall m :: j <= m < q ==> s[m] != '\n';
      }
    }
  }

  lemma {:induction false} ScanSpacesQuestionCorrect(s: string, j: nat)
    requires j <= |s|
    ensures ScanSpacesQuestion(s, j) <==> QuestionAfterSpaces(s, j)
    decreases |s| - j
  {
    if j < |s| && s[j] != '?' && IsSpace(s[j]) {
      ScanSpacesQuestionCorrect(s, j + 1);
      if QuestionAfterSpaces(s, j + 1) {
        var q :| j + 1 <= q < |s| && s[q] == '?' && forall m :: j + 1 <= m < q ==> IsSpace(s[m]);
        assert forall m :: j <= m < q ==> IsSpace(s[m]);
      }
    }
  }

  /** Case-insensitive comparison of the window at `i` with a lower-case literal. */
  function FoldedWindow(s: string, i: nat, lit: string): (r: bool)
    ensures r <==> FoldedAt(s, i, lit)
  {
    i + |lit| <= |s| && LowerStr(s[i..i + |lit|]) == lit
  }

  /** The recogniser for one start position. */
  function TryAt(p: Pattern, s: string, i: nat): bool
    requires i <= |s|
  {
    match p
    case Literal(t) => i + |t| <= |s| && s[i..i + |t|] == t
    case WordThenQuestion(w) =>
      Boundary(s, i) && FoldedWindow(s, i, w) && Boundary(s, i + |w|) && ScanQuestion(s, i + |w|)
    case WordSpacesQuestion(w) =>
      Boundary(s, i) && FoldedWindow(s, i, w) && ScanSpacesQuestion(s, i + |w|)
    case PhraseThenBoundary(ph) => FoldedWindow(s, i, ph) && Boundary(s, i + |ph|)
  }

  lemma TryAtCorrect(p: Pattern, s: string, i: nat)
    requires i <= |s|
    ensures TryAt(p, s, i) <==> MatchesAt(p, s, i)
  {
    match p
    case Literal(_) =>
    case WordThenQuestion(w) =>
      if FoldedAt(s, i, w) { ScanQuestionCorrect(s, i + |w|); }
    case WordSpacesQuestion(w) =>
      if FoldedAt(s, i, w) { ScanSpacesQuestionCorrect(s, i + |w|); }
    case PhraseThenBoundary(_) =>
  }

  /** Tries every start position from `i` on. */
  function Search(p: Pattern, s: string, i: nat): bool
    requires i <= |s|
    decreases |s| - i
  {
    TryAt(p, s, i) || (i < |s| && Search(p, s, i + 1))
  }

  lemma {:induction false} SearchCorrect(p: Pattern, s: string, i: nat)
    requires i <= |s|
    ensures Search(p, s, i) <==> exists k :: i <= k <= |s| && MatchesAt(p, s, k)
    decreases |s| - i
  {
    TryAtCorrect(p, s, i);
    if i < |s| {
      SearchCorrect(p, s, i + 1);
      if exists k :: i <= k <= |s| && MatchesAt(p, s, k) {
        var k :| i <= k <= |s| && MatchesAt(p, s, k);
        if k > i { assert i + 1 <= k <= |s| && MatchesAt(p, s, k); }
      }
    } else {
      if exists k :: i <= k <= |s| && MatchesAt(p, s, k) {
        var k :| i <= k <= |s| && MatchesAt(p, s, k);
        assert k == i;
      }
    }
  }

  /** `Regex::is_match` for one pattern, as a recogniser that agrees with the meaning. */
  function IsMatch(p: Pattern, s: string): (r: bool)
    ensures r <==> Matches(p, s)
  {
    SearchCorrect(p, s, 0);
    Search(p, s, 0)
  }

  /** Some pattern of `ps` matches `s`. */
  function AnyMatch(ps: seq<Pattern>, s: string): (r: bool)
    ensures r <==> exists k :: 0 <= k < |ps| && Matches(ps[k], s)
  {
    if ps == [] then false
    else if IsMatch(ps[0], s) then true
    else
      var rest := AnyMatch(ps[1..], s);
      assert forall k :: 1 <= k < |ps| ==> ps[k] == ps[1..][k - 1];
      rest
  }

  /** The meaning of `check`: one of the eight patterns matches somewhere in the text. */
  predicate Flagged(text: string)
  {
    exists k :: 0 <= k < 8 && Matches(Patterns()[k], text)
  }

  /** `check`: the `any` over the pattern list agrees with `Flagged`. */
  function Check(text: string): (r: bool)
    ensures r <==> Flagged(text)
  {
    AnyMatch(Patterns(), text)
  }

  /** Any text holding one of the three literal answers is flagged, wherever it occurs. */
  lemma LiteralAnswerFlagged(s: string, i: nat, k: nat)
    requires k < 3 && i + |Patterns()[k].text| <= |s|
    requires s[i..i + |Patterns()[k].text|] == Patterns()[k].text
    ensures Flagged(s)
  {
    assert MatchesAt(Patterns()[k], s, i);
  }

  /** Neither a question mark, nor an opening parenthesis, nor the letter `y` in either case. */
  predicate QuietChar(c: char)
  {
    c != '?' && c != '(' && c != 'y' && c != 'Y'
  }

  /** A text made only of such characters is never flagged: the literals need `(`, the four
      word patterns need `?` and the phrase needs a `y`. */

  lemma QuietText(s: string)
    requires forall k :: 0 <= k < |s| ==> QuietChar(s[k])
    ensures !Flagged(s)
  {
    forall k, i | 0 <= k < 8 && 0 <= i <= |s| ensures !MatchesAt(Patterns()[k], s, i) {
      var p := Patterns()[k];
      if k < 3 {
        if i + |p.text| <= |s| {
          assert s[i] in s;
          assert s[i..i + |p.text|][0] != p.text[0];
        }
      } else if k < 7 {
        if i + |p.word| <= |s| {
          forall q | i + |p.word| <= q < |s| ensures s[q] != '?' { assert s[q] in s; }
        }
      } else {
        if i + |p.phrase| <= |s| {
          assert s[i + 3] in s;
          assert Lower(s[i + 3]) != p.phrase[3];
        }
      }
    }
  }

  /** `(Y/N)` is none of the three literal answers: they are compared case-sensitively. */
  lemma UpperCaseAnswerIsNoLiteral()
    ensures forall k :: 0 <= k < 3 ==> !Matches(Patterns()[k], "(Y/N)")
  {
    var s := "(Y/N)";
    forall k, i | 0 <= k < 3 && 0 <= i <= |s| ensures !MatchesAt(Patterns()[k], s, i) {
      var t := Patterns()[k].text;
      if i + |t| <= |s| {
        assert i == 0;
        if k == 0 { assert s[1] != t[1]; } else { assert s[3] != t[3]; }
      }
    }
  }

  /** The flagged texts of the unit tests, each with the pattern and position that match. */
  lemma FlaggedYesNo()
    ensures Flagged("Continue? (y/n)")
  {
    LiteralAnswerFlagged("Continue? (y/n)", 10, 0);
  }

  lemma FlaggedUpperYesNo()
    ensures Flagged("Overwrite file? (Y/n)")
  {
    LiteralAnswerFlagged("Overwrite file? (Y/n)", 16, 1);
  }

  lemma FlaggedYesNoWords()
    ensures Flagged("Are you sure? (yes/no)")
  {
    LiteralAnswerFlagged("Are you sure? (yes/no)", 14, 2);
  }

  lemma FlaggedConfirm()
    ensures Flagged("Please confirm?")
  {
    var c := "Please confirm?";
    assert QuestionLater(c, 14) by { assert c[14] == '?'; }
    assert MatchesAt(Patterns()[3], c, 7);
  }

  lemma FlaggedAllow()
    ensures Flagged("Allow access to filesystem?")
  {
    var a := "Allow access to filesystem?";
    assert QuestionLater(a, 5) by {
      assert a[26] == '?' && forall m :: 5 <= m < 26 ==> a[m] != '\n';
    }
    assert MatchesAt(Patterns()[6], a, 0);
  }

  lemma FlaggedDoYouWantTo()
    ensures Flagged("Do you want to proceed?")
    ensures Flagged("do you want to install this package?")
  {
    assert MatchesAt(Patterns()[7], "Do you want to proceed?", 0);
    assert MatchesAt(Patterns()[7], "do you want to install this package?", 0);
  }

  lemma ContinueWord(w: string)
    requires w == "Would you like to continue?"
    ensures Boundary(w, 18) && FoldedAt(w, 18, "continue")
  {
  }

  lemma FlaggedContinue()
    ensures Flagged("Would you like to continue?")
  {
    var w := "Would you like to continue?";
    ContinueWord(w);
    assert QuestionAfterSpaces(w, 26) by { assert w[26] == '?'; }
    assert MatchesAt(Patterns()[4], w, 18);
  }

  lemma FlaggedProceed()
    ensures Flagged("Shall we proceed?")
  {
    var p := "Shall we proceed?";
    assert QuestionAfterSpaces(p, 16) by { assert p[16] == '?'; }
    assert MatchesAt(Patterns()[5], p, 9);
  }

  /** The ordinary output of the unit tests is not flagged. */
  lemma QuietBuildOutput()
    ensures !Flagged("")
    ensures !Flagged("Building project...")
    ensures !Flagged("Test passed")
    ensures !Flagged("Compiling main.rs")
  {
    QuietText("");
    QuietText("Building project...");
    QuietText("Test passed");
    QuietText("Compiling main.rs");
  }

  /** "confirm" inside "confirmation", and "allow" as a whole word, with no question mark,
      are not flagged. */
  lemma QuietConfirmation()
    ensures !Flagged("Sending confirmation email")
    ensures !Flagged("This will allow faster builds")
  {
    QuietText("Sending confirmation email");
    QuietText("This will allow faster builds");
  }
}
