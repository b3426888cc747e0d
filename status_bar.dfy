/** The status bar: how many sessions are in each status, and the summary line showing
    those counts before the key hints. */
module StatusBar {
  import opened Util
  import opened Sessions

  datatype Counts = Counts(running: nat, queued: nat, done: nat, failed: nat, needsInput: nat)

  /** The number of sessions in status `st`. */
  function CountOf(sessions: seq<Session>, st: Status): (r: nat)
    ensures r <= |sessions|
    decreases |sessions|
  {
    if sessions == [] then 0
    else CountOf(sessions[..|sessions| - 1], st) + (if sessions[|sessions| - 1].status == st then 1 else 0)
  }

  function Total(c: Counts): nat
  {
    c.running + c.queued + c.done + c.failed + c.needsInput
  }

  /** The counting loop of `render`: one counter per status, each bumped by its sessions. */
  method CountStatuses(sessions: seq<Session>) returns (c: Counts)
    ensures c.running == CountOf(sessions, Running) && c.queued == CountOf(sessions, Queued)
    ensures c.done == CountOf(sessions, Done) && c.failed == CountOf(sessions, Failed)
    ensures c.needsInput == CountOf(sessions, NeedsInput)
    ensures Total(c) == |sessions|
  {
    c := Counts(0, 0, 0, 0, 0);
    var i := 0;
    while i < |sessions|
      invariant 0 <= i <= |sessions|
      invariant c == Counts(CountOf(sessions[..i], Running), CountOf(sessions[..i], Queued),
        CountOf(sessions[..i], Done), CountOf(sessions[..i], Failed), CountOf(sessions[..i], NeedsInput))
    {
      assert sessions[..i + 1][..i] == sessions[..i];
      match sessions[i].status {
        case Running => c := c.(running := c.running + 1);
        case Queued => c := c.(queued := c.queued + 1);
        case Done => c := c.(done := c.done + 1);
        case Failed => c := c.(failed := c.failed + 1);
        case NeedsInput => c := c.(needsInput := c.needsInput + 1);
      }
      i := i + 1;
    }
    assert sessions[..i] == sessions;
    CountsSum(sessions);
  }

  /** Every session is in exactly one status, so the five counts add up to the number of
      sessions. */
  lemma {:induction false} CountsSum(sessions: seq<Session>)
    ensures CountOf(sessions, Running) + CountOf(sessions, Queued) + CountOf(sessions, Done) +
      CountOf(sessions, Failed) + CountOf(sessions, NeedsInput) == |sessions|
    decreases |sessions|
  {
    if sessions != [] {
      CountsSum(sessions[..|sessions| - 1]);
    }
  }

  const KEY_HINTS: string := " q:quit n:new d:del r:rename m:input-toggle"

  /** The six fields of the summary: the count of Running, Queued, Done, Failed (shown as
      Error) and NeedsInput (shown as Input) sessions, in that order, then the key hints. */
  function Fields(c: Counts): (r: seq<string>)
    ensures |r| == 6
  {
    [" Running: " + NatToString(c.running) + " ", " Queued: " + NatToString(c.queued) + " ",
     " Done: " + NatToString(c.done) + " ", " Error: " + NatToString(c.failed) + " ",
     " Input: " + NatToString(c.needsInput) + " ", KEY_HINTS]
  }

  /** The summary line of the status bar: the fields joined by `|`, which is the text of the
      format string with its five ` | ` separators. */
  function SummaryText(c: Counts): string
  {
    Join(Fields(c), "|")
  }

  /** The summary splits at its bars into exactly its six fields, and each count reads back
      from its field. */
  lemma SummaryFields(c: Counts)
    ensures Split(SummaryText(c), '|') == Fields(c)
    ensures DigitsValue(NatToString(c.running)) == c.running && DigitsValue(NatToString(c.queued)) == c.queued
    ensures DigitsValue(NatToString(c.done)) == c.done && DigitsValue(NatToString(c.failed)) == c.failed
    ensures DigitsValue(NatToString(c.needsInput)) == c.needsInput
  {
    assert Split(SummaryText(c), '|') == Fields(c) by {
      FieldsNoBar(c);
      SplitJoin(Fields(c), '|');
    }
    NatToStringRoundTrip(c.running);
    NatToStringRoundTrip(c.queued);
    NatToStringRoundTrip(c.done);
    NatToStringRoundTrip(c.failed);
    NatToStringRoundTrip(c.needsInput);
  }

  /** No field holds a bar. */
  lemma FieldsNoBar(c: Counts)
    ensures forall k :: 0 <= k < |Fields(c)| ==> '|' !in Fields(c)[k]
  {
    CountFieldNoBar(" Running: ", c.running);
    CountFieldNoBar(" Queued: ", c.queued);
    CountFieldNoBar(" Done: ", c.done);
    CountFieldNoBar(" Error: ", c.failed);
    CountFieldNoBar(" Input: ", c.needsInput);
    HintsNoBar();
  }

  lemma HintsNoBar()
    ensures '|' !in KEY_HINTS
  {
  }

  lemma CountFieldNoBar(tag: string, n: nat)
    requires '|' !in tag
    ensures '|' !in tag + NatToString(n) + " "
  {
    var digits := NatToString(n);
    assert '|' !in digits;
    AbsentConcat(tag, digits, '|');
    AbsentConcat(tag + digits, " ", '|');
  }
}
