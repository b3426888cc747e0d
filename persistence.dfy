/** Loading the saved session list, with the normalisation applied after a restart, and the
    header written at the top of each session's log file. */
module Persistence {
  import opened Util
  import opened Sessions

  /** What reading the sessions file produced: no readable file, or its text, which either
      parsed as a session list or did not. */
  datatype FileRead = Missing | Read(parsed: Option<seq<Session>>)

  /** A session as it is after loading: the processes of a previous run are gone, so a
      Running or NeedsInput session is queued again without a process id. */
  function Normalised(s: Session): (r: Session)
    ensures !IsActive(r.status)
    ensures IsActive(s.status) ==> r == s.(status := Queued, ptyPid := None)
    ensures !IsActive(s.status) ==> r == s
  {
    if s.status == Running || s.status == NeedsInput then s.(status := Queued, ptyPid := None) else s
  }

  /** `load_sessions`: a missing or unparsable file gives the empty list; otherwise every
      parsed session is normalised in place, keeping length and order. */
  method LoadSessions(file: FileRead) returns (sessions: seq<Session>)
    ensures file.Missing? || file.parsed.None? ==> sessions == []
    ensures file.Read? && file.parsed.Some? ==>
      && |sessions| == |file.parsed.value|
      && forall k :: 0 <= k < |sessions| ==> sessions[k] == Normalised(file.parsed.value[k])
    ensures forall k :: 0 <= k < |sessions| ==> !IsActive(sessions[k].status)
  {
    if file.Missing? || file.parsed.None? {
      return [];
    }
    sessions := file.parsed.value;
    var i := 0;
    while i < |sessions|
      invariant 0 <= i <= |sessions| == |file.parsed.value|
      invariant forall k :: 0 <= k < i ==> sessions[k] == Normalised(file.parsed.value[k])
      invariant forall k :: i <= k < |sessions| ==> sessions[k] == file.parsed.value[k]
    {
      var s := sessions[i];
      if s.status == Running || s.status == NeedsInput {
        sessions := sessions[i := s.(status := Queued, ptyPid := None)];
      }
      i := i + 1;
    }
  }

  /** Loading leaves every field but status and process id as saved, and changes nothing of
      a session that was Queued, Done or Failed. */
  lemma NormalisedKeepsRecord(s: Session)
    ensures var r := Normalised(s);
      r.id == s.id && r.name == s.name && r.rootPath == s.rootPath && r.instruction == s.instruction &&
      r.logPath == s.logPath && r.exitCode == s.exitCode && r.createdAt == s.createdAt &&
      r.updatedAt == s.updatedAt
    ensures s.status in {Queued, Done, Failed} ==> Normalised(s) == s
    ensures Normalised(Normalised(s)) == Normalised(s)
  {
  }

  const SESSION_TAG: string := "# Session: "
  const DIRECTORY_TAG: string := "# Directory: "
  const STARTED_TAG: string := "# Started: "

  /** The text `write_log_header` writes: four lines, each ended by a line feed. `started` is
      the rendering of the creation time. */
  function LogHeader(name: string, directory: string, started: string): string
  {
    SESSION_TAG + name + "\n" + DIRECTORY_TAG + directory + "\n" + STARTED_TAG + started + "\n" + "---\n"
  }

  lemma TagsSingleLine()
    ensures '\n' !in SESSION_TAG && '\n' !in DIRECTORY_TAG && '\n' !in STARTED_TAG && '\n' !in "---"
  {
  }

  /** The header regrouped line by line, from the back. */
  lemma LogHeaderGrouped(name: string, directory: string, started: string)
    ensures LogHeader(name, directory, started) ==
      (SESSION_TAG + name) + "\n" + ((DIRECTORY_TAG + directory) + "\n" + ((STARTED_TAG + started) + "\n" + ("---" + "\n" + "")))
  {
  }

  /** When the three values hold no line feed the header is exactly the four lines, in
      order, followed by the empty rest after the final line feed. */
  lemma LogHeaderLines(name: string, directory: string, started: string)
    requires '\n' !in name && '\n' !in directory && '\n' !in started
    ensures Split(LogHeader(name, directory, started), '\n') ==
      [SESSION_TAG + name, DIRECTORY_TAG + directory, STARTED_TAG + started, "---", ""]
  {
    var l1, l2, l3 := SESSION_TAG + name, DIRECTORY_TAG + directory, STARTED_TAG + started;
    TagsSingleLine();
    AbsentConcat(SESSION_TAG, name, '\n');
    AbsentConcat(DIRECTORY_TAG, directory, '\n');
    AbsentConcat(STARTED_TAG, started, '\n');
    var r4 := "---" + "\n" + "";
    var r3 := l3 + "\n" + r4;
    var r2 := l2 + "\n" + r3;
    assert Split(r4, '\n') == ["---", ""] by {
      SplitLineFront("---", "");
      assert Split("", '\n') == [""];
    }
    assert Split(r3, '\n') == [l3, "---", ""] by { SplitLineFront(l3, r4); }
    assert Split(r2, '\n') == [l2, l3, "---", ""] by { SplitLineFront(l2, r3); }
    assert Split(l1 + "\n" + r2, '\n') == [l1, l2, l3, "---", ""] by { SplitLineFront(l1, r2); }
    LogHeaderGrouped(name, directory, started);
  }
}
