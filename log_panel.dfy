/** The text of the log panel: the tail of the selected session's log, or the non-empty
    lines of every session tagged with its name, and the test that styles placeholders. */
module LogPanel {
  import opened Util
  import opened Sessions
  import opened Logs
  import App

  /** Shown when there are no lines to show. */
  const NO_OUTPUT: string := "(ログ出力なし)"

  /** `render`'s test: content starting with `(` is styled as a placeholder. */
  predicate IsPlaceholder(content: string)
  {
    StartsWith(content, "(")
  }

  /** `render_individual`: the last `height` lines of the selected session joined by line
      feeds, or a placeholder when no session is selected or its log is empty. */
  function IndividualText(sessions: seq<Session>, active: nat, store: LogStore, height: nat): (r: string)
    reads store
    ensures active >= |sessions| ==> r == NO_SESSION
    ensures active < |sessions| && store.Lines(sessions[active].id) == [] ==> r == NO_OUTPUT
    ensures active < |sessions| && store.Lines(sessions[active].id) != [] ==>
      var lines := store.Lines(sessions[active].id);
      r == Join(lines[|lines| - Min(height, |lines|)..], "\n")
  {
    if active < |sessions| then
      var lines := store.Lines(sessions[active].id);
      if lines == [] then NO_OUTPUT else Join(Tail(lines, height), "\n")
    else NO_SESSION
  }

  /** The non-empty lines of one session, each prefixed with `[name] `, in order. */
  function Tagged(name: string, lines: seq<string>): (r: seq<string>)
    ensures |r| <= |lines|
    decreases |lines|
  {
    if lines == [] then []
    else
      var l := lines[|lines| - 1];
      Tagged(name, lines[..|lines| - 1]) + (if l != "" then ["[" + name + "] " + l] else [])
  }

  /** The lines of the unified view, before the window: session by session, in order. */
  function UnifiedLines(sessions: seq<Session>, store: LogStore): seq<string>
    reads store
    decreases |sessions|
  {
    if sessions == [] then []
    else
      var s := sessions[|sessions| - 1];
      UnifiedLines(sessions[..|sessions| - 1], store) + Tagged(s.name, store.Lines(s.id))
  }

  /** Tagging keeps line order: it distributes over concatenation. */
  lemma {:induction false} TaggedConcat(name: string, a: seq<string>, b: seq<string>)
    ensures Tagged(name, a + b) == Tagged(name, a) + Tagged(name, b)
    decreases |b|
  {
    if b != [] {
      var b' := b[..|b| - 1];
      assert (a + b)[..|a + b| - 1] == a + b';
      TaggedConcat(name, a, b');
    } else {
      assert a + b == a;
    }
  }

  /** The tagged lines are exactly the non-empty lines with the session's prefix. */
  lemma {:induction false} TaggedMembers(name: string, lines: seq<string>)
    ensures forall x :: x in Tagged(name, lines) <==> exists l :: l in lines && l != "" && x == "[" + name + "] " + l
    decreases |lines|
  {
    if lines != [] {
      var front := lines[..|lines| - 1];
      TaggedMembers(name, front);
      assert lines == front + [lines[|lines| - 1]];
    }
  }

  /** The unified view keeps session order: it distributes over concatenation of the
      session list. */
  lemma {:induction false} UnifiedConcat(a: seq<Session>, b: seq<Session>, store: LogStore)
    ensures UnifiedLines(a + b, store) == UnifiedLines(a, store) + UnifiedLines(b, store)
    decreases |b|
  {
    if b != [] {
      var b' := b[..|b| - 1];
      assert (a + b)[..|a + b| - 1] == a + b';
      UnifiedConcat(a, b', store);
    } else {
      assert a + b == a;
    }
  }

  /** `x` is a non-empty line of one of the sessions, prefixed with that session's name. */
  predicate TaggedLineOf(sessions: seq<Session>, store: LogStore, x: string)
    reads store
  {
    exists k, l :: 0 <= k < |sessions| && l in store.Lines(sessions[k].id) && l != "" && x == "[" + sessions[k].name + "] " + l
  }

  /** Every unified line is a non-empty line of some session, prefixed with its name. */
  lemma {:induction false} UnifiedMembers(sessions: seq<Session>, store: LogStore)
    ensures forall x :: x in UnifiedLines(sessions, store) ==> TaggedLineOf(sessions, store, x)
    decreases |sessions|
  {
    if sessions != [] {
      var front := sessions[..|sessions| - 1];
      var s := sessions[|sessions| - 1];
      UnifiedMembers(front, store);
      TaggedMembers(s.name, store.Lines(s.id));
      forall x | x in UnifiedLines(sessions, store) ensures TaggedLineOf(sessions, store, x) {
        if x in UnifiedLines(front, store) {
          var k, l :| 0 <= k < |front| && l in store.Lines(front[k].id) && l != "" && x == "[" + front[k].name + "] " + l;
          assert sessions[k] == front[k];
        } else {
          var l :| l in store.Lines(s.id) && l != "" && x == "[" + s.name + "] " + l;
          assert sessions[|sessions| - 1] == s;
        }
      }
    }
  }

  /** The text of the unified view: the last `height` unified lines, or the placeholder. */
  function UnifiedText(sessions: seq<Session>, store: LogStore, height: nat): (r: string)
    reads store
  {
    var all := UnifiedLines(sessions, store);
    if all == [] then NO_OUTPUT else Join(Tail(all, height), "\n")
  }

  /** `render_unified`: the nested loops gathering the tagged lines, then the window. */
  method RenderUnified(sessions: seq<Session>, store: LogStore, height: nat) returns (content: string)
    ensures content == UnifiedText(sessions, store, height)
  {
    var all: seq<string> := [];
    var i := 0;
    while i < |sessions|
      invariant 0 <= i <= |sessions|
      invariant all == UnifiedLines(sessions[..i], store)
    {
      var s := sessions[i];
      var lines := store.Lines(s.id);
      ghost var before := all;
      var j := 0;
      while j < |lines|
        invariant 0 <= j <= |lines|
        invariant all == before + Tagged(s.name, lines[..j])
      {
        assert lines[..j + 1][..j] == lines[..j];
        if lines[j] != "" {
          all := all + ["[" + s.name + "] " + lines[j]];
        }
        j := j + 1;
      }
      assert lines[..j] == lines;
      assert sessions[..i + 1][..i] == sessions[..i];
      i := i + 1;
    }
    assert sessions[..i] == sessions;
    if all == [] {
      return NO_OUTPUT;
    }
    content := Join(Tail(all, height), "\n");
  }

  /** Joining lines gives text that starts as the first line does. */
  lemma JoinFirst(parts: seq<string>, sep: string)
    requires parts != [] && parts[0] != []
    ensures Join(parts, sep) != [] && Join(parts, sep)[0] == parts[0][0]
  {
    if |parts| > 1 {
      assert Join(parts, sep) == parts[0] + sep + Join(parts[1..], sep);
    }
  }

  /** Both placeholders are styled as placeholders; so is a shown window of the individual
      view whose first line starts with `(`, such as a `(y/n)` prompt. */
  lemma PlaceholderStyle(lines: seq<string>, height: nat)
    requires 0 < height && lines != [] && StartsWith(Tail(lines, height)[0], "(")
    ensures IsPlaceholder(NO_OUTPUT) && IsPlaceholder(NO_SESSION)
    ensures IsPlaceholder(Join(Tail(lines, height), "\n"))
  {
    JoinFirst(Tail(lines, height), "\n");
  }

  /** Lines the first of which starts with `[` join to text not styled as a placeholder. */
  lemma BracketNotPlaceholder(t: seq<string>)
    requires t != [] && t[0] != [] && t[0][0] == '['
    ensures !IsPlaceholder(Join(t, "\n"))
  {
    JoinFirst(t, "\n");
  }

  /** A unified view with lines to show is never styled as a placeholder: every line starts
      with `[`. */
  lemma UnifiedNotPlaceholder(sessions: seq<Session>, store: LogStore, height: nat)
    requires 0 < height && UnifiedLines(sessions, store) != []
    ensures !IsPlaceholder(UnifiedText(sessions, store, height))
  {
    var all := UnifiedLines(sessions, store);
    var t := Tail(all, height);
    UnifiedMembers(sessions, store);
    assert t[0] == all[|all| - |t|];
    assert TaggedLineOf(sessions, store, t[0]);
    var k, l :| 0 <= k < |sessions| && l in store.Lines(sessions[k].id) && l != "" &&
      t[0] == "[" + sessions[k].name + "] " + l;
    BracketNotPlaceholder(t);
    assert UnifiedText(sessions, store, height) == Join(t, "\n");
  }

  /** `render`: the text of the current mode, and whether it is styled as a placeholder. */
  method Render(mode: App.LogMode, sessions: seq<Session>, active: nat, store: LogStore, height: nat)
      returns (content: string, placeholder: bool)
    ensures mode == App.Individual ==> content == IndividualText(sessions, active, store, height)
    ensures mode == App.Unified ==> content == UnifiedText(sessions, store, height)
    ensures placeholder <==> IsPlaceholder(content)
  {
    if mode == App.Individual {
      content := IndividualText(sessions, active, store, height);
    } else {
      content := RenderUnified(sessions, store, height);
    }
    placeholder := StartsWith(content, "(");
  }
}
