/** The orchestrator: the session list with its selection, the focused panel, the input and
    dialog state, the log buffers, and the runtime maps from session to pseudo-terminal
    handle and to the time of its last output. The pseudo-terminal bridge is abstract: a key
    press is given the clock and the result of a spawn, a poll tick is given what each
    handle produced. Writes to a terminal and saves of the session list are recorded. */
module App {
  import opened Util
  import opened Sessions
  import opened Logs
  import opened NeedsInput
  import opened Persistence
  import opened Reconcile

  datatype Panel = SessionList | DirTree | FilePreview | Log | Input

  /** Focus order: session list, directory tree, file preview, log, input, and round. */
  function Next(p: Panel): Panel
  {
    match p
    case SessionList => DirTree
    case DirTree => FilePreview
    case FilePreview => Log
    case Log => Input
    case Input => SessionList
  }

  function Prev(p: Panel): Panel
  {
    match p
    case SessionList => Input
    case DirTree => SessionList
    case FilePreview => DirTree
    case Log => FilePreview
    case Input => Log
  }

  /** `prev` undoes `next` and `next` undoes `prev`; five steps of `next` visit every panel
      and come back. */
  lemma PanelCycle(p: Panel)
    ensures Prev(Next(p)) == p && Next(Prev(p)) == p
    ensures Next(Next(Next(Next(Next(p))))) == p
    ensures |{p, Next(p), Next(Next(p)), Next(Next(Next(p))), Next(Next(Next(Next(p))))}| == 5
  {
  }

  datatype LogMode = Individual | Unified

  datatype CreateStep = NameStep | PathStep

  datatype KeyCode = Char(c: char) | Up | Down | Enter | Backspace | Escape | Tab | OtherKey

  /** A key event: its code, whether Ctrl was held, and whether it is a press. */
  datatype KeyEvent = KeyEvent(code: KeyCode, ctrl: bool, press: bool)

  datatype Cmd = NoCmd | Quit

  /** What starting a terminal process gave: a handle with an optional process id, or an
      error message. */
  datatype SpawnResult = Spawned(pid: Option<nat>) | SpawnFailed(error: string)

  /** A live terminal handle, known by its process id. */
  datatype Handle = Handle(pid: Option<nat>)

  /** What the outside world supplies to one key press: the clock in milliseconds, what a
      spawn would give, the identifier a new session would get, the working directory, and
      which paths are directories. */
  datatype Env = Env(now: nat, spawn: SpawnResult, freshId: SessionId, cwd: string, dirs: set<string>)

  /** The byte Ctrl+C sends to a terminal. */
  const INTERRUPT: string := [3 as char]

  /** `String::pop`: drops the last character, if any. */
  function Pop(s: string): (r: string)
    ensures s == [] ==> r == []
    ensures s != [] ==> r + [s[|s| - 1]] == s
  {
    if s == [] then s else s[..|s| - 1]
  }

  /** The name a session gets when the dialog's name is left empty. */
  function DefaultName(count: nat): string
  {
    "session-" + NatToString(count + 1)
  }

  /** The statuses the spawn branch of Enter leaves. A successful spawn makes a Queued,
      NeedsInput or Failed session Running, leaves a Running one Running, and cannot move a
      Done one. A failed spawn ends every session Failed except a Done one, which stays Done. */
  lemma SpawnStatus(s: Session, now: nat)
    ensures Moved(s, Running, now).status == if s.status == Done then Done else Running
    ensures Moved(Moved(s, Running, now), Failed, now).status == if s.status == Done then Done else Failed
  {
  }

  /** A session is selected, or there are none and the selection is 0. */
  predicate SelectionInRange(active: nat, sessions: seq<Session>)
  {
    active < |sessions| || active == 0
  }

  class AppState {
    var sessions: seq<Session>
    var active: nat
    var panel: Panel
    var input: string
    var logMode: LogMode
    const store: LogStore
    const logsRoot: string
    var handles: map<SessionId, Handle>
    var lastOutput: map<SessionId, nat>
    var creating: bool
    var createStep: CreateStep
    var createName: string
    var createPath: string
    var renaming: bool
    var renameText: string
    /** The session list as the last save wrote it. */
    var saved: seq<Session>
    /** Everything written to terminals, in order, with the session written to. */
    var sent: seq<(SessionId, string)>

    ghost predicate Valid()
      reads this, store
    {
      store.Valid() && SelectionInRange(active, sessions)
    }

    /** `AppState::new`: the sessions as loading gives them, the first selected, the session
        list focused, no handles, no dialog. */
    constructor (file: FileRead, logsRoot: string, saved: seq<Session>)
      ensures Valid() && fresh(store) && store.logs == map[]
      ensures active == 0 && panel == SessionList && input == "" && logMode == Individual
      ensures handles == map[] && lastOutput == map[] && !creating && !renaming && sent == []
      ensures this.saved == saved && this.logsRoot == logsRoot
      ensures |sessions| == (if file.Read? && file.parsed.Some? then |file.parsed.value| else 0)
      ensures file.Read? && file.parsed.Some? ==>
        forall k :: 0 <= k < |sessions| ==> sessions[k] == Normalised(file.parsed.value[k])
      ensures forall k :: 0 <= k < |sessions| ==> !IsActive(sessions[k].status)
    {
      var loaded := LoadSessions(file);
      sessions := loaded;
      active := 0;
      panel := SessionList;
      input := "";
      logMode := Individual;
      store := new LogStore();
      this.logsRoot := logsRoot;
      handles := map[];
      lastOutput := map[];
      creating := false;
      createStep := NameStep;
      createName := "";
      createPath := "";
      renaming := false;
      renameText := "";
      this.saved := saved;
      sent := [];
    }

    /** Ctrl+C reaches the selected session's terminal exactly when that session is Running
        or NeedsInput and has a handle. */
    predicate Interruptible()
      reads this
    {
      active < |sessions| && IsActive(sessions[active].status) && sessions[active].id in handles
    }

    // The effects of the key handlers, each relating the state before a key to the state
    // after it. The handlers' contracts, and those of the dispatchers that call them, are
    // stated through these.

    /** The sessions, the selection, the handles, the output clocks and the saved list are
        as they were. */
    twostate predicate DataKept()
      reads this
    {
      sessions == old(sessions) && active == old(active) && handles == old(handles) &&
      lastOutput == old(lastOutput) && saved == old(saved)
    }

    /** The focused panel, the input line, the log view and the terminal writes are as they were. */
    twostate predicate ViewKept()
      reads this
    {
      panel == old(panel) && input == old(input) && logMode == old(logMode) && sent == old(sent)
    }

    /** The create dialog is as it was. */
    twostate predicate CreateKept()
      reads this
    {
      creating == old(creating) && createStep == old(createStep) &&
      createName == old(createName) && createPath == old(createPath)
    }

    /** The rename dialog is as it was. */
    twostate predicate RenameKept()
      reads this
    {
      renaming == old(renaming) && renameText == old(renameText)
    }

    /** Only the focus changed, to `p`. */
    twostate predicate PanelMoved(p: Panel)
      reads this
    {
      panel == p && DataKept() && input == old(input) && logMode == old(logMode) &&
      sent == old(sent) && CreateKept() && RenameKept()
    }

    /** The Ctrl+C branch: the interrupt byte is written to the selected session's terminal
        when it is interruptible, and nothing else changes. */
    twostate predicate Interrupted()
      reads this
    {
      && (old(Interruptible()) ==> sent == old(sent) + [(old(sessions)[old(active)].id, INTERRUPT)])
      && (!old(Interruptible()) ==> sent == old(sent))
      && DataKept() && panel == old(panel) && input == old(input) && logMode == old(logMode)
      && CreateKept() && RenameKept()
    }

    /** The Ctrl+C branch of `handle_key`: interrupt the selected session's process, or
        quit when there is none to interrupt. */
    method CtrlC() returns (cmd: Cmd)
      requires Valid()
      modifies this
      ensures Valid()
      ensures cmd == NoCmd <==> old(Interruptible())
      ensures Interrupted()
    {
      if active < |sessions| {
        var s := sessions[active];
        if s.status == Running || s.status == NeedsInput {
          if s.id in handles {
            sent := sent + [(s.id, INTERRUPT)];
            return NoCmd;
          }
        }
      }
      return Quit;
    }

    /** The `d` key on the sessions: with none, nothing changes; otherwise the selected
        session leaves the list with its handle and output clock, the selection moves up one
        when it was on the last row (and not the first), and the list is saved. */
    twostate predicate Deleted()
      reads this
    {
      && SelectionInRange(old(active), old(sessions))
      && (old(sessions) == [] ==> DataKept())
      && (old(sessions) != [] ==>
            var id := old(sessions)[old(active)].id;
            && sessions == old(sessions)[..old(active)] + old(sessions)[old(active) + 1..]
            && handles == old(handles) - {id} && lastOutput == old(lastOutput) - {id}
            && active == (if old(active) + 1 == |old(sessions)| && old(active) > 0 then old(active) - 1 else old(active))
            && saved == sessions)
    }

    /** The `m` key on the sessions: a Running selected session is marked NeedsInput, a
        NeedsInput one goes back to Running with its output clock reset, either change
        saved; any other status, or no selected session, leaves the list alone. */
    twostate predicate ToggledSelection(now: nat)
      reads this
    {
      && handles == old(handles) && active == old(active) && |sessions| == |old(sessions)|
      && (old(active) < |old(sessions)| && old(sessions)[old(active)].status == Running ==>
            sessions == old(sessions)[old(active) := Moved(old(sessions)[old(active)], NeedsInput, now)] &&
            lastOutput == old(lastOutput) && saved == sessions)
      && (old(active) < |old(sessions)| && old(sessions)[old(active)].status == NeedsInput ==>
            var id := old(sessions)[old(active)].id;
            sessions == old(sessions)[old(active) := Moved(old(sessions)[old(active)], Running, now)] &&
            lastOutput == old(lastOutput)[id := now] && saved == sessions)
      && (old(active) >= |old(sessions)| || old(sessions)[old(active)].status !in {Running, NeedsInput} ==>
            sessions == old(sessions) && lastOutput == old(lastOutput) && saved == old(saved))
    }

    /** `handle_session_list_key`: Up and Down move the selection within the list; `n` opens
        a cleared create dialog; `d` deletes (`Deleted`); `r` opens the rename dialog on the
        selected session's name; `m` toggles (`ToggledSelection`); other keys change nothing. */
    twostate predicate SessionListDone(code: KeyCode, now: nat)
      reads this
    {
      && ViewKept()
      && (code == Up ==> active == SaturatingSub(old(active), 1))
      && (code == Down ==> active == (if old(active) + 1 < |old(sessions)| then old(active) + 1 else old(active)))
      && (code == Char('n') ==> creating && createStep == NameStep && createName == "" && createPath == "")
      && (code != Char('n') ==> CreateKept())
      && (code == Char('d') ==> Deleted())
      && (code == Char('r') && old(active) < |old(sessions)| ==> renaming && renameText == old(sessions)[old(active)].name)
      && (code != Char('r') || old(active) >= |old(sessions)| ==> RenameKept())
      && (code == Char('m') ==> ToggledSelection(now))
      && (code !in {Up, Down, Char('d'), Char('m')} ==> DataKept())
      && (code in {Up, Down} ==>
            sessions == old(sessions) && handles == old(handles) && lastOutput == old(lastOutput) && saved == old(saved))
    }

    method SessionListKey(code: KeyCode, now: nat)
      requires Valid()
      modifies this
      ensures Valid()
      ensures SessionListDone(code, now)
    {
      match code {
        case Up =>
          if active > 0 {
            active := active - 1;
          }
        case Down =>
          if active + 1 < |sessions| {
            active := active + 1;
          }
        case Char('n') =>
          creating := true;
          createStep := NameStep;
          createName := "";
          createPath := "";
        case Char('d') =>
          DeleteSelected();
        case Char('r') =>
          if active < |sessions| {
            renaming := true;
            renameText := sessions[active].name;
          }
        case Char('m') =>
          ToggleSelected(now);
        case _ =>
      }
    }

    /** The `d` key (see `Deleted`). */
    method DeleteSelected()
      requires Valid()
      modifies this
      ensures Valid() && ViewKept() && CreateKept() && RenameKept()
      ensures Deleted()
    {
      if sessions != [] {
        var id := sessions[active].id;
        handles := handles - {id};
        lastOutput := lastOutput - {id};
        sessions := sessions[..active] + sessions[active + 1..];
        if active >= |sessions| && active > 0 {
          active := active - 1;
        }
        saved := sessions;
      }
    }

    /** The `m` key (see `ToggledSelection`). */
    method ToggleSelected(now: nat)
      requires Valid()
      modifies this
      ensures Valid() && ViewKept() && CreateKept() && RenameKept()
      ensures ToggledSelection(now)
    {
      if active < |sessions| {
        var s := sessions[active];
        if s.status == Running {
          sessions := sessions[active := Moved(s, NeedsInput, now)];
          saved := sessions;
        } else if s.status == NeedsInput {
          sessions := sessions[active := Moved(s, Running, now)];
          lastOutput := lastOutput[s.id := now];
          saved := sessions;
        }
      }
    }

    /** `handle_log_key`: `t` switches between the individual and the unified view, and
        nothing else changes. */
    twostate predicate LogDone(code: KeyCode)
      reads this
    {
      && logMode == (if code == Char('t') then (if old(logMode) == Individual then Unified else Individual) else old(logMode))
      && DataKept() && panel == old(panel) && input == old(input) && sent == old(sent)
      && CreateKept() && RenameKept()
    }

    method LogKey(code: KeyCode)
      modifies this
      ensures LogDone(code)
    {
      if code == Char('t') {
        logMode := if logMode == Individual then Unified else Individual;
      }
    }

    /** Enter reaches `Submit`: the input is not empty and there is a session. */
    predicate Submits(code: KeyCode)
      reads this
    {
      code == Enter && input != "" && sessions != []
    }

    /** `handle_input_key`: a character is appended to the input and Backspace drops the
        last one; Escape returns to the session list; Enter with a non-empty input and a
        session clears the input and submits it (`SubmitDone`). Every other case leaves the
        sessions, the handles, the log and the terminal writes alone. */
    twostate predicate InputDone(code: KeyCode, env: Env)
      reads this, store
    {
      && logMode == old(logMode) && CreateKept() && RenameKept()
      && panel == (if code == Escape then SessionList else old(panel))
      && (code.Char? ==> input == old(input) + [code.c])
      && (code == Backspace ==> input == Pop(old(input)))
      && (!code.Char? && code != Backspace && !old(Submits(code)) ==> input == old(input))
      && (!old(Submits(code)) ==> DataKept() && sent == old(sent) && store.logs == old(store.logs))
      && (old(Submits(code)) ==> input == "" && SubmitDone(old(input), env))
    }

    method InputKey(code: KeyCode, env: Env)
      requires Valid()
      modifies this, store
      ensures Valid()
      ensures InputDone(code, env)
    {
      match code {
        case Char(c) =>
          input := input + [c];
        case Backspace =>
          input := Pop(input);
        case Enter =>
          if input != "" && sessions != [] {
            var text := input;
            input := "";
            Submit(text, env);
          }
        case Escape =>
          panel := SessionList;
        case _ =>
      }
    }

    /** The Enter flow on the selected session. Without a handle, a spawn is attempted: on
        success the handle and the output clock are recorded, the session moves to Running
        (when the lifecycle allows it) with its process id and instruction set, and the list
        is saved; on failure the error goes to the session's log, the session is moved to
        Running and then Failed as far as the lifecycle allows, the list is saved and nothing
        is sent. Then a NeedsInput session resumes Running with its clock reset, and the text
        with a line feed is written to the handle, if there is one. No other session, and
        neither the focus, the log view nor a dialog, changes. */
    twostate predicate SubmitDone(text: string, env: Env)
      reads this, store
    {
      && old(active) < |old(sessions)| && active == old(active) && |sessions| == |old(sessions)|
      && panel == old(panel) && logMode == old(logMode) && CreateKept() && RenameKept()
      && (forall k :: 0 <= k < |sessions| && k != active ==> sessions[k] == old(sessions)[k])
      && var s, id := old(sessions)[active], old(sessions)[active].id;
        && (id !in old(handles) && env.spawn.SpawnFailed? ==>
              && sessions[active] == Moved(Moved(s, Running, env.now), Failed, env.now)
              && store.logs == old(store.logs)[id := AppendSpec(old(store.Lines(id)), "Failed to spawn PTY: " + env.spawn.error + "\n")]
              && handles == old(handles) && lastOutput == old(lastOutput) && sent == old(sent) && saved == sessions)
        && (id !in old(handles) && env.spawn.Spawned? && s.status == Done ==> sessions[active].status == Done && id in handles)
        && (id !in old(handles) && env.spawn.Spawned? ==>
              var t := Moved(s, Running, env.now).(ptyPid := env.spawn.pid, instruction := Some(text));
              && sessions[active] == (if t.status == NeedsInput then Moved(t, Running, env.now) else t)
              && handles == old(handles)[id := Handle(env.spawn.pid)] && lastOutput == old(lastOutput)[id := env.now]
              && store.logs == old(store.logs) && sent == old(sent) + [(id, text + "\n")] && saved == sessions)
        && (id in old(handles) ==>
              && sessions[active] == (if s.status == NeedsInput then Moved(s, Running, env.now) else s)
              && handles == old(handles) && store.logs == old(store.logs)
              && lastOutput == (if s.status == NeedsInput then old(lastOutput)[id := env.now] else old(lastOutput))
              && sent == old(sent) + [(id, text + "\n")]
              && saved == (if s.status == NeedsInput then sessions else old(saved)))
    }

    method Submit(text: string, env: Env)
      requires Valid() && active < |sessions|
      modifies this, store
      ensures Valid() && input == old(input)
      ensures SubmitDone(text, env)
    {
      var idx := active;
      var id := sessions[idx].id;
      if id !in handles {
        var spawned := SpawnSelected(text, env);
        if !spawned {
          return;
        }
      }
      Resume(text, env.now);
    }

    /** The rest of the Enter flow, once the selected session has a process: a NeedsInput
        session resumes Running with its output clock reset and is saved, and the text with a
        line feed is written to its handle. */
    method Resume(text: string, now: nat)
      requires Valid() && active < |sessions| && sessions[active].id in handles
      modifies this
      ensures Valid() && panel == old(panel) && input == old(input) && logMode == old(logMode) && CreateKept() && RenameKept()
      ensures active == old(active) && |sessions| == |old(sessions)| && handles == old(handles)
      ensures forall k :: 0 <= k < |sessions| && k != active ==> sessions[k] == old(sessions)[k]
      ensures var s, id := old(sessions)[active], old(sessions)[active].id;
        && sessions[active] == (if s.status == NeedsInput then Moved(s, Running, now) else s)
        && lastOutput == (if s.status == NeedsInput then old(lastOutput)[id := now] else old(lastOutput))
        && sent == old(sent) + [(id, text + "\n")]
        && saved == (if s.status == NeedsInput then sessions else old(saved))
    {
      var idx := active;
      var id := sessions[idx].id;
      if sessions[idx].status == NeedsInput {
        sessions := sessions[idx := Moved(sessions[idx], Running, now)];
        lastOutput := lastOutput[id := now];
        saved := sessions;
      }
      if id in handles {
        sent := sent + [(id, text + "\n")];
      }
    }

    /** The first submission to a session without a process: a successful spawn records the
        handle, resets the output clock, moves the session to Running with its process id and
        instruction, and saves; a failure goes to the session's log and moves the session to
        Running and then Failed as far as the lifecycle allows, and saves. */
    method SpawnSelected(text: string, env: Env) returns (spawned: bool)
      requires Valid() && active < |sessions| && sessions[active].id !in handles
      modifies this, store
      ensures Valid() && active == old(active) && |sessions| == |old(sessions)|
      ensures ViewKept() && CreateKept() && RenameKept() && spawned == env.spawn.Spawned?
      ensures forall k :: 0 <= k < |sessions| && k != active ==> sessions[k] == old(sessions)[k]
      ensures var s, id := old(sessions)[active], old(sessions)[active].id;
        && (env.spawn.SpawnFailed? ==>
              && sessions[active] == Moved(Moved(s, Running, env.now), Failed, env.now)
              && store.logs == old(store.logs)[id := AppendSpec(old(store.Lines(id)), "Failed to spawn PTY: " + env.spawn.error + "\n")]
              && handles == old(handles) && lastOutput == old(lastOutput) && saved == sessions)
        && (env.spawn.Spawned? ==>
              && sessions[active] == Moved(s, Running, env.now).(ptyPid := env.spawn.pid, instruction := Some(text))
              && handles == old(handles)[id := Handle(env.spawn.pid)] && lastOutput == old(lastOutput)[id := env.now]
              && store.logs == old(store.logs) && saved == sessions)
    {
      var idx := active;
      var id := sessions[idx].id;
      match env.spawn {
        case Spawned(pid) =>
          handles := handles[id := Handle(pid)];
          lastOutput := lastOutput[id := env.now];
          var t := Moved(sessions[idx], Running, env.now);
          t := t.(ptyPid := pid, instruction := Some(text));
          sessions := sessions[idx := t];
          saved := sessions;
          spawned := true;
        case SpawnFailed(e) =>
          SpawnFailure(e, env.now);
          spawned := false;
      }
    }

    /** A failed spawn: the error goes to the selected session's log, the session is moved to
        Running and then Failed as far as the lifecycle allows, and the list is saved. */
    method SpawnFailure(error: string, now: nat)
      requires Valid() && active < |sessions|
      modifies this, store
      ensures Valid() && active == old(active) && ViewKept() && CreateKept() && RenameKept()
      ensures handles == old(handles) && lastOutput == old(lastOutput) && saved == sessions
      ensures sessions == old(sessions)[active := Moved(Moved(old(sessions)[active], Running, now), Failed, now)]
      ensures var id := old(sessions)[active].id;
        store.logs == old(store.logs)[id := AppendSpec(old(store.Lines(id)), "Failed to spawn PTY: " + error + "\n")]
    {
      var idx := active;
      var id := sessions[idx].id;
      store.Append(id, "Failed to spawn PTY: " + error + "\n");
      var t := Moved(Moved(sessions[idx], Running, now), Failed, now);
      sessions := sessions[idx := t];
      saved := sessions;
    }

    /** Enter on the path step: the empty name becomes the default one (`session-<n+1>`) and
        the empty path the working directory; an existing directory gets a new Queued session,
        selected and saved, and any other path leaves the list alone; the dialog closes either
        way, and the handles and clocks are untouched. */
    twostate predicate Created(env: Env)
      reads this
    {
      var name := if old(createName) == "" then DefaultName(|old(sessions)|) else old(createName);
      var path := if old(createPath) == "" then env.cwd else old(createPath);
      && !creating && handles == old(handles) && lastOutput == old(lastOutput)
      && (path in env.dirs ==>
            && sessions == old(sessions) + [NewSession(env.freshId, name, path, logsRoot, env.now)]
            && active == |sessions| - 1 && saved == sessions)
      && (path !in env.dirs ==> sessions == old(sessions) && active == old(active) && saved == old(saved))
    }

    /** `handle_create_dialog`: characters and Backspace edit the name or the path by step;
        Escape closes the dialog; Enter moves from the name to the path, and on the path
        creates the session (`Created`). Nothing outside the dialog changes otherwise. */
    twostate predicate CreateDone(code: KeyCode, env: Env)
      reads this
    {
      && ViewKept() && RenameKept()
      && (code == Escape ==> !creating && createStep == old(createStep))
      && (code == Enter && old(createStep) == NameStep ==> createStep == PathStep && creating == old(creating))
      && (code == Enter && old(createStep) == PathStep ==> Created(env) && createStep == old(createStep))
      && (code != Enter ==> DataKept())
      && (code == Enter && old(createStep) == NameStep ==> DataKept())
      && (code != Escape && code != Enter ==> creating == old(creating) && createStep == old(createStep))
      && (code.Char? && old(createStep) == NameStep ==> createName == old(createName) + [code.c] && createPath == old(createPath))
      && (code.Char? && old(createStep) == PathStep ==> createPath == old(createPath) + [code.c] && createName == old(createName))
      && (code == Backspace && old(createStep) == NameStep ==> createName == Pop(old(createName)) && createPath == old(createPath))
      && (code == Backspace && old(createStep) == PathStep ==> createPath == Pop(old(createPath)) && createName == old(createName))
      && (!code.Char? && code != Backspace ==> createName == old(createName) && createPath == old(createPath))
    }

    method CreateDialog(code: KeyCode, env: Env)
      requires Valid()
      modifies this
      ensures Valid()
      ensures CreateDone(code, env)
    {
      match code {
        case Escape =>
          creating := false;
        case Enter =>
          if createStep == NameStep {
            createStep := PathStep;
          } else {
            FinishCreate(env);
          }
        case Char(c) =>
          if createStep == NameStep {
            createName := createName + [c];
          } else {
            createPath := createPath + [c];
          }
        case Backspace =>
          if createStep == NameStep {
            createName := Pop(createName);
          } else {
            createPath := Pop(createPath);
          }
        case _ =>
      }
    }

    /** Enter on the path step (see `Created`). */
    method FinishCreate(env: Env)
      requires Valid()
      modifies this
      ensures Valid() && ViewKept() && RenameKept()
      ensures createStep == old(createStep) && createName == old(createName) && createPath == old(createPath)
      ensures Created(env)
    {
      var name := if createName == "" then DefaultName(|sessions|) else createName;
      var path := if createPath == "" then env.cwd else createPath;
      if path in env.dirs {
        sessions := sessions + [NewSession(env.freshId, name, path, logsRoot, env.now)];
        active := |sessions| - 1;
        saved := sessions;
      }
      creating := false;
    }

    /** `handle_rename_dialog`: characters and Backspace edit the new name; Escape closes the
        dialog; Enter renames the selected session to a non-empty new name, saves, and closes
        the dialog. Only the selected session's name and the saved list can change. */
    twostate predicate RenameDone(code: KeyCode)
      reads this
    {
      && ViewKept() && CreateKept()
      && active == old(active) && handles == old(handles) && lastOutput == old(lastOutput)
      && (code in {Escape, Enter} ==> !renaming && renameText == old(renameText))
      && (code !in {Escape, Enter} ==> renaming == old(renaming))
      && (code == Enter && old(active) < |old(sessions)| && old(renameText) != "" ==>
            sessions == old(sessions)[old(active) := old(sessions)[old(active)].(name := old(renameText))] && saved == sessions)
      && (code != Enter || old(active) >= |old(sessions)| || old(renameText) == "" ==>
            sessions == old(sessions) && saved == old(saved))
      && (code.Char? ==> renameText == old(renameText) + [code.c])
      && (code == Backspace ==> renameText == Pop(old(renameText)))
      && (!code.Char? && code != Backspace ==> renameText == old(renameText))
    }

    method RenameDialog(code: KeyCode)
      requires Valid()
      modifies this
      ensures Valid()
      ensures RenameDone(code)
    {
      match code {
        case Escape =>
          renaming := false;
        case Enter =>
          if active < |sessions| && renameText != "" {
            sessions := sessions[active := sessions[active].(name := renameText)];
            saved := sessions;
          }
          renaming := false;
        case Char(c) =>
          renameText := renameText + [c];
        case Backspace =>
          renameText := Pop(renameText);
        case _ =>
      }
    }

    /** A key press that reaches the global keys: no dialog is open. */
    predicate Global(key: KeyEvent)
      reads this
    {
      key.press && !creating && !renaming
    }

    /** A key press that reaches the focused panel: no dialog is open and it is none of the
        global keys. */
    predicate PanelKey(key: KeyEvent)
      reads this
    {
      && Global(key)
      && !(key.code == Char('c') && key.ctrl)
      && !(key.code == Char('q') && panel != Input)
      && !(key.ctrl && key.code in {Char('h'), Char('k'), Char('l'), Char('j')})
      && key.code != Tab
    }

    /** `handle_key`: only presses count; an open dialog takes every key; then the global
        keys (Ctrl+C, `q` outside the input, Ctrl+H/K back and Ctrl+L/J and Tab forward
        through the panels); then the focused panel's keys, where the file panels take none. */
    method HandleKey(key: KeyEvent, env: Env) returns (cmd: Cmd)
      requires Valid()
      modifies this, store
      ensures Valid()
      ensures cmd == Quit <==> old(Global(key)) && (if key.code == Char('c') && key.ctrl then !old(Interruptible()) else key.code == Char('q') && old(panel) != Input)
      ensures !key.press ==> DataKept() && ViewKept() && CreateKept() && RenameKept()
      ensures key.press && old(creating) ==> CreateDone(key.code, env)
      ensures key.press && !old(creating) && old(renaming) ==> RenameDone(key.code)
      ensures old(Global(key)) && key.code == Char('c') && key.ctrl ==> Interrupted()
      ensures old(Global(key)) && key.code == Char('q') && old(panel) != Input ==>
        && sessions == old(sessions) && active == old(active) && handles == old(handles)
        && lastOutput == old(lastOutput) && saved == sessions
        && ViewKept() && CreateKept() && RenameKept()
      ensures old(Global(key)) && key.ctrl && key.code in {Char('h'), Char('k')} ==> PanelMoved(Prev(old(panel)))
      ensures old(Global(key)) && ((key.ctrl && key.code in {Char('l'), Char('j')}) || key.code == Tab) ==> PanelMoved(Next(old(panel)))
      ensures old(PanelKey(key)) && old(panel) == SessionList ==> SessionListDone(key.code, env.now)
      ensures old(PanelKey(key)) && old(panel) == Log ==> LogDone(key.code)
      ensures old(PanelKey(key)) && old(panel) == Input ==> InputDone(key.code, env)
      ensures old(PanelKey(key)) && old(panel) !in {SessionList, Log, Input} ==>
        DataKept() && ViewKept() && CreateKept() && RenameKept()
      ensures store.logs != old(store.logs) ==> old(PanelKey(key)) && old(panel) == Input
    {
      if !key.press {
        return NoCmd;
      }
      if creating {
        CreateDialog(key.code, env);
        return NoCmd;
      }
      if renaming {
        RenameDialog(key.code);
        return NoCmd;
      }
      if key.code == Char('c') && key.ctrl {
        cmd := CtrlC();
        return;
      }
      if key.code == Char('q') && panel != Input {
        saved := sessions;
        return Quit;
      }
      if (key.code == Char('h') || key.code == Char('k')) && key.ctrl {
        panel := Prev(panel);
        return NoCmd;
      }
      if (key.code == Char('l') || key.code == Char('j')) && key.ctrl {
        panel := Next(panel);
        return NoCmd;
      }
      if key.code == Tab {
        panel := Next(panel);
        return NoCmd;
      }
      match panel {
        case SessionList => SessionListKey(key.code, env.now);
        case Log => LogKey(key.code);
        case Input => InputKey(key.code, env);
        case _ =>
      }
      return NoCmd;
    }

    /** The inner loop of the drain: every chunk appended to the session's log, in order. */
    method AppendChunks(id: SessionId, chunks: seq<string>)
      requires store.Valid()
      modifies store
      ensures store.Valid()
      ensures store.logs == if chunks == [] then old(store.logs) else old(store.logs)[id := AppendAll(old(store.Lines(id)), chunks)]
    {
      if chunks == [] {
        return;
      }
      ghost var before := store.logs;
      ghost var start := store.Lines(id);
      store.Append(id, chunks[0]);
      ghost var buffer := AppendSpec(start, chunks[0]);
      assert buffer == AppendAll(start, chunks[..1]) by { AppendAllSnoc(start, chunks, 0); }
      var j := 1;
      while j < |chunks|
        invariant 1 <= j <= |chunks|
        invariant store.Valid()
        invariant buffer == AppendAll(start, chunks[..j])
        invariant store.logs == before[id := buffer]
      {
        ghost var previous := buffer;
        assert store.Lines(id) == previous;
        store.Append(id, chunks[j]);
        buffer := AppendSpec(previous, chunks[j]);
        assert buffer == AppendAll(start, chunks[..j + 1]) by { AppendAllSnoc(start, chunks, j); }
        assert store.logs == before[id := buffer] by { UpdateTwice(before, id, previous, buffer); }
        j := j + 1;
      }
      assert chunks[..j] == chunks;
    }

    /** The drain loop of `handle_pty_poll` over the active entries: the logs, the output
        clock, the detected sessions and the exits it leaves are those of `Drained`. */
    method DrainHandles(acts: seq<(SessionId, Status)>, bridge: map<SessionId, Poll>, now: nat)
      returns (lo: map<SessionId, nat>, detected: seq<SessionId>, finished: seq<(SessionId, Exit)>)
      requires store.Valid()
      modifies store
      ensures store.Valid()
      ensures Drain(store.logs, lo, detected, finished) == Drained(old(store.logs), lastOutput, acts, handles.Keys, bridge, now)
    {
      ghost var logs0, last0, keys := store.logs, lastOutput, handles.Keys;
      lo := lastOutput;
      finished := [];
      detected := [];
      var i := 0;
      while i < |acts|
        invariant 0 <= i <= |acts|
        invariant store.Valid()
        invariant Drain(store.logs, lo, detected, finished) == Drained(logs0, last0, acts[..i], keys, bridge, now)
      {
        lo, detected, finished := DrainEntry(acts[i], bridge, now, lo, detected, finished);
        assert acts[..i + 1][..i] == acts[..i];
        i := i + 1;
      }
      assert acts[..i] == acts;
    }

    /** One round of the drain loop, for the entry `a`: its chunks go to the log, output
        resets the clock, a Running session whose newest non-empty line is a question is
        detected, and an exit is recorded. */
    method DrainEntry(a: (SessionId, Status), bridge: map<SessionId, Poll>, now: nat,
                      lo0: map<SessionId, nat>, detected0: seq<SessionId>, finished0: seq<(SessionId, Exit)>)
      returns (lo: map<SessionId, nat>, detected: seq<SessionId>, finished: seq<(SessionId, Exit)>)
      requires store.Valid()
      modifies store
      ensures store.Valid()
      ensures Drain(store.logs, lo, detected, finished) ==
        DrainOne(Drain(old(store.logs), lo0, detected0, finished0), a, handles.Keys, bridge, now)
    {
      ghost var d := Drain(store.logs, lo0, detected0, finished0);
      lo, detected, finished := lo0, detected0, finished0;
      var id := a.0;
      if id in handles {
        var p := PollOf(bridge, id);
        ghost var grown := AppendAll(LinesIn(d.logs, id), p.chunks);
        assert store.Lines(id) == LinesIn(d.logs, id);
        AppendChunks(id, p.chunks);
        if p.chunks != [] {
          lo := lo[id := now];
          assert store.Lines(id) == grown;
          if a.1 == Running {
            var line := store.LastNonEmptyLine(id);
            if line.Some? && Check(line.value) {
              detected := detected + [id];
            }
          }
          assert detected == d.detected + (if a.1 == Running && Prompts(grown) then [id] else []);
          assert store.logs == d.logs[id := grown];
        } else {
          assert store.logs == d.logs;
        }
        if p.exit.Some? {
          finished := finished + [(id, p.exit.value)];
        }
        assert finished == d.finished + ExitEntry(id, p.exit);
      }
    }

    /** The four loops of `handle_pty_poll`, in order, over local copies of the list, the
        handles and the output clock; only the log store is written. */
    method RunTick(bridge: map<SessionId, Poll>, now: nat)
      returns (ss: seq<Session>, hs: map<SessionId, Handle>, lo: map<SessionId, nat>, changed: bool)
      requires store.Valid()
      modifies store
      ensures store.Valid()
      ensures var t := Tick(sessions, old(store.logs), handles.Keys, lastOutput, bridge, now);
        && ss == t.sessions && store.logs == t.logs && lo == t.lastOutput
        && hs == handles - t.removed && changed == t.changed
    {
      ghost var t := Tick(sessions, store.logs, handles.Keys, lastOutput, bridge, now);
      ghost var d := DrainOf(sessions, store.logs, handles.Keys, lastOutput, bridge, now);
      ghost var m := Marked(sessions, DetectedOf(sessions, store.logs, handles.Keys, lastOutput, bridge, now), now);
      var acts := Actives(sessions);
      var detected, finished;
      lo, detected, finished := DrainHandles(acts, bridge, now);
      assert lo == d.lastOutput && detected == d.detected && finished == d.finished && store.logs == d.logs;
      var late := ScanTimeouts(acts, lo, now);
      ss, changed := MarkSessions(sessions, detected + late, now);
      assert ss == m.0 && changed == m.1;
      hs := handles;
      if finished != [] {
        ss, hs, lo := FinishSessions(ss, hs, lo, finished, now);
        changed := true;
      } else {
        assert hs == handles - IdsOf(finished);
        assert lo == lo - IdsOf(finished);
      }
    }

    /** `handle_pty_poll`: the state after is `Tick` of the state before, and the session
        list is saved iff the tick changed it. */
    method PollTick(bridge: map<SessionId, Poll>, now: nat)
      requires Valid()
      modifies this, store
      ensures Valid()
      ensures var t := Tick(old(sessions), old(store.logs), old(handles).Keys, old(lastOutput), bridge, now);
        && sessions == t.sessions && store.logs == t.logs && lastOutput == t.lastOutput
        && handles == old(handles) - t.removed
        && saved == (if t.changed then t.sessions else old(saved))
      ensures active == old(active) && panel == old(panel) && input == old(input) && sent == old(sent)
      ensures creating == old(creating) && renaming == old(renaming) && logMode == old(logMode)
    {
      var ss, hs, lo, changed := RunTick(bridge, now);
      sessions := ss;
      handles := hs;
      lastOutput := lo;
      if changed {
        saved := ss;
      }
    }

    /** `subscriptions`: the 50 ms poll tick runs exactly while some session is Running or
        NeedsInput. */
    function PollSubscribed(): (r: bool)
      reads this
      ensures r <==> exists k :: 0 <= k < |sessions| && IsActive(sessions[k].status)
    {
      ActivesEmpty(sessions);
      Actives(sessions) != []
    }
  }

  /** The timeout loop of `handle_pty_poll`. */
  method ScanTimeouts(acts: seq<(SessionId, Status)>, lo: map<SessionId, nat>, now: nat) returns (late: seq<SessionId>)
    ensures late == TimedOut(acts, lo, now)
  {
    late := [];
    var i := 0;
    while i < |acts|
      invariant 0 <= i <= |acts|
      invariant late == TimedOut(acts[..i], lo, now)
    {
      var id := acts[i].0;
      if acts[i].1 == Running && id in lo && SaturatingSub(now, lo[id]) > TIMEOUT_MS {
        late := late + [id];
      }
      assert acts[..i + 1][..i] == acts[..i];
      i := i + 1;
    }
    assert acts[..i] == acts;
  }

  /** The marking loop of `handle_pty_poll`: the first session with each detected identifier
      moves to NeedsInput if it is Running. */
  method MarkSessions(sessions: seq<Session>, detected: seq<SessionId>, now: nat) returns (ss: seq<Session>, changed: bool)
    ensures (ss, changed) == Marked(sessions, detected, now)
  {
    ss := sessions;
    changed := false;
    var i := 0;
    while i < |detected|
      invariant 0 <= i <= |detected|
      invariant (ss, changed) == Marked(sessions, detected[..i], now)
    {
      var found := FindIndex(ss, detected[i]);
      if found.Some? && ss[found.value].status == Running {
        ss := ss[found.value := Moved(ss[found.value], NeedsInput, now)];
        changed := true;
      }
      assert detected[..i + 1][..i] == detected[..i];
      i := i + 1;
    }
    assert detected[..i] == detected;
  }

  /** The teardown loop of `handle_pty_poll`: each exit drops the handle and the clock of its
      session and finishes the first session with its identifier. */
  method FinishSessions(sessions: seq<Session>, handles: map<SessionId, Handle>, lo: map<SessionId, nat>,
                        finished: seq<(SessionId, Exit)>, now: nat)
    returns (ss: seq<Session>, hs: map<SessionId, Handle>, lo2: map<SessionId, nat>)
    ensures ss == FinishAll(sessions, finished, now)
    ensures hs == handles - IdsOf(finished) && lo2 == lo - IdsOf(finished)
  {
    ss, hs, lo2 := sessions, handles, lo;
    var i := 0;
    while i < |finished|
      invariant 0 <= i <= |finished|
      invariant hs == handles - IdsOf(finished[..i])
      invariant lo2 == lo - IdsOf(finished[..i])
      invariant ss == FinishAll(sessions, finished[..i], now)
    {
      var id := finished[i].0;
      hs := hs - {id};
      lo2 := lo2 - {id};
      ss := FinishEntry(ss, finished[i], now);
      assert hs == handles - IdsOf(finished[..i + 1]) by { MinusSnoc(handles, finished, i); }
      assert lo2 == lo - IdsOf(finished[..i + 1]) by { MinusSnoc(lo, finished, i); }
      assert ss == FinishAll(sessions, finished[..i + 1], now) by {
        assert finished[..i + 1][..i] == finished[..i];
      }
      i := i + 1;
    }
    assert finished[..i] == finished;
  }

  /** Removing the identifiers of one more entry is removing that entry's identifier. */
  lemma MinusSnoc<V, X>(m: map<SessionId, V>, fs: seq<(SessionId, X)>, i: nat)
    requires i < |fs|
    ensures m - IdsOf(fs[..i + 1]) == (m - IdsOf(fs[..i])) - {fs[i].0}
  {
    assert fs[..i + 1][..i] == fs[..i];
    assert IdsOf(fs[..i + 1]) == IdsOf(fs[..i]) + {fs[i].0};
  }

  /** One exit: the first session with its identifier, if any, is resumed should it be
      waiting for input, then moved to Done or Failed by the exit's outcome, with the exit
      code kept and the process id cleared. */
  method FinishEntry(ss: seq<Session>, f: (SessionId, Exit), now: nat) returns (r: seq<Session>)
    ensures r == FinishOne(ss, f, now)
  {
    r := ss;
    var found := FindIndex(ss, f.0);
    if found.Some? {
      var s := ss[found.value];
      if s.status == NeedsInput {
        s := Moved(s, Running, now);
      }
      s := Moved(s, if f.1.success then Done else Failed, now);
      s := s.(exitCode := Some(ToI32(f.1.code)), ptyPid := None);
      r := ss[found.value := s];
    }
  }
}
