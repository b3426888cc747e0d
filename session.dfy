/** One tracked unit of work: its lifecycle status, the allow/deny transition table and
    the record the controller persists. */
module Sessions {
  import opened Util

  /** A session identifier: the textual form of a random (version 4) UUID. */
  type SessionId = string

  datatype Status = Queued | Running | NeedsInput | Done | Failed

  /** Running or NeedsInput: the statuses under which a live process is expected. */
  predicate IsActive(s: Status)
  {
    s == Running || s == NeedsInput
  }

  /** The glyph shown beside a session in the list. */
  function Icon(s: Status): (g: string)
    ensures |g| == 1
  {
    match s
    case Queued => "\U{25CB}"
    case Running => "\U{25CF}"
    case NeedsInput => "\U{25C6}"
    case Done => "\U{2713}"
    case Failed => "\U{2717}"
  }

  /** The five statuses have five distinct glyphs. */
  lemma IconInjective(a: Status, b: Status)
    ensures Icon(a) == Icon(b) ==> a == b
  {
  }

  datatype Session = Session(
    id: SessionId,
    name: string,
    rootPath: string,
    status: Status,
    ptyPid: Option<nat>,
    instruction: Option<string>,
    logPath: string,
    exitCode: Option<int>,
    createdAt: nat,
    updatedAt: nat)

  /** `Session::new`: a queued session with no process, no instruction and no exit code,
      whose log file is `<logsRoot>/<id>.log`. The random identifier and the wall clock are
      parameters. */
  function NewSession(id: SessionId, name: string, rootPath: string, logsRoot: string, now: nat): (s: Session)
    ensures s.id == id && s.name == name && s.rootPath == rootPath
    ensures s.status == Queued
    ensures s.ptyPid == None && s.instruction == None && s.exitCode == None
    ensures s.createdAt == now && s.updatedAt == now
    ensures s.logPath == JoinPath(logsRoot, id + ".log")
  {
    Session(id, name, rootPath, Queued, None, None, JoinPath(logsRoot, id + ".log"), None, now, now)
  }

  /** Sessions are told apart by their random identifiers. */
  predicate UniqueIds(sessions: seq<Session>)
  {
    forall i, j :: 0 <= i < j < |sessions| ==> sessions[i].id != sessions[j].id
  }

  datatype Outcome = Accepted | Rejected(reason: string)

  /** The seven transitions the lifecycle allows, as a table independent of the match below. */
  const AllowedTransitions: set<(Status, Status)> :=
    {(Queued, Running), (Running, Done), (Running, Failed), (Running, NeedsInput),
     (NeedsInput, Running), (Failed, Running), (Done, Queued)}

  /** `can_transition_to`: accepts exactly the pairs of the table and gives every other pair
      a non-empty reason. */
  function CanTransitionTo(from: Status, to: Status): (r: Outcome)
    ensures r.Accepted? <==> (from, to) in AllowedTransitions
    ensures r.Rejected? ==> r.reason != ""
  {
    match (from, to)
    case (Queued, Running) => Accepted
    case (Running, Done) => Accepted
    case (Running, Failed) => Accepted
    case (Running, NeedsInput) => Accepted
    case (NeedsInput, Running) => Accepted
    case (Failed, Running) => Accepted
    case (Done, Queued) => Accepted
    case (Queued, Done) => Rejected("Cannot complete without running")
    case (Queued, NeedsInput) => Rejected("Cannot need input without running")
    case (Done, Running) => Rejected("Must go through Queued first")
    case (Done, Failed) => Rejected("Already completed successfully")
    case (Failed, Done) => Rejected("Must re-run through Running first")
    case _ => Rejected("Invalid state transition")
  }

  /** `transition_to`: an accepted move sets the status and refreshes `updatedAt` to `now`;
      a rejected one returns the reason and leaves the session exactly as it was. */
  function TransitionTo(s: Session, target: Status, now: nat): (r: (Outcome, Session))
    ensures r.0 == CanTransitionTo(s.status, target)
    ensures r.0.Accepted? ==> r.1 == s.(status := target, updatedAt := now)
    ensures r.0.Rejected? ==> r.1 == s
  {
    var verdict := CanTransitionTo(s.status, target);
    if verdict.Accepted? then (verdict, s.(status := target, updatedAt := now)) else (verdict, s)
  }

  /** The session after `transition_to`, with the result ignored (`let _ = ...`). */
  function Moved(s: Session, target: Status, now: nat): Session
  {
    TransitionTo(s, target, now).1
  }

  /** The table spelled out pair by pair: no self-transition is accepted, and from Done the
      only way out is back to Queued. */
  lemma TransitionTable(from: Status, to: Status)
    ensures CanTransitionTo(from, to).Accepted? <==>
      || (from == Queued && to == Running)
      || (from == Running && (to == Done || to == Failed || to == NeedsInput))
      || (from == NeedsInput && to == Running)
      || (from == Failed && to == Running)
      || (from == Done && to == Queued)
    ensures CanTransitionTo(from, from).Rejected?
  {
  }

  /** The specific reasons given for the five named rejections; every other pair outside the
      table, self-transitions included, gets the generic reason. */
  lemma RejectionReasons()
    ensures CanTransitionTo(Queued, Done) == Rejected("Cannot complete without running")
    ensures CanTransitionTo(Queued, NeedsInput) == Rejected("Cannot need input without running")
    ensures CanTransitionTo(Done, Running) == Rejected("Must go through Queued first")
    ensures CanTransitionTo(Done, Failed) == Rejected("Already completed successfully")
    ensures CanTransitionTo(Failed, Done) == Rejected("Must re-run through Running first")
    ensures CanTransitionTo(NeedsInput, Done) == Rejected("Invalid state transition")
    ensures forall from, to ::
      (from, to) !in AllowedTransitions &&
      (from, to) !in {(Queued, Done), (Queued, NeedsInput), (Done, Running), (Done, Failed), (Failed, Done)} ==>
      CanTransitionTo(from, to) == Rejected("Invalid state transition")
  {
  }

  /** The three lifecycles the unit tests walk: Queued, Running, Done and back to Queued;
      Running, NeedsInput, Running; Running, Failed, Running. Every step is accepted. */
  lemma LifecycleWalks(s: Session, t1: nat, t2: nat, t3: nat)
    requires s.status == Queued
    ensures var a := TransitionTo(s, Running, t1);
      var b := TransitionTo(a.1, Done, t2);
      var c := TransitionTo(b.1, Queued, t3);
      a.0.Accepted? && b.0.Accepted? && c.0.Accepted? && c.1.status == Queued && c.1.updatedAt == t3
    ensures var a := Moved(s, Running, t1);
      var b := TransitionTo(a, NeedsInput, t2);
      var c := TransitionTo(b.1, Running, t3);
      b.0.Accepted? && c.0.Accepted? && c.1.status == Running
    ensures var a := Moved(s, Running, t1);
      var b := TransitionTo(a, Failed, t2);
      var c := TransitionTo(b.1, Running, t3);
      b.0.Accepted? && c.0.Accepted? && c.1.status == Running
  {
  }
}
