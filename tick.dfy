/** The reconciliation tick of the orchestrator, as a function of the state before it and of
    what every terminal handle gave on this tick. It runs the stages of `handle_pty_poll` in
    order: drain the handles of the sessions that were Running or NeedsInput (logs, output
    clock, prompt detection, exits), the timeout fallback, the move to NeedsInput, and the
    teardown of finished sessions. */
module Reconcile {
  import opened Util
  import opened Sessions
  import opened Logs
  import opened NeedsInput

  newtype u32 = x: int | 0 <= x < 0x1_0000_0000

  /** How a process ended: whether it succeeded, and its exit code. */
  datatype Exit = Exit(success: bool, code: u32)

  /** What one handle gave on one tick: the chunks its reader had queued, and the exit
      status if the process has ended. */
  datatype Poll = Poll(chunks: seq<string>, exit: Option<Exit>)

  /** The default `needs_input_timeout_sec` of 30 seconds, on the millisecond clock. */
  const TIMEOUT_MS: nat := 30000

  /** The `code as i32` cast: the same 32 bits read as a two's complement number. */
  function ToI32(code: u32): (r: int)
    ensures -0x8000_0000 <= r < 0x8000_0000
    ensures r % 0x1_0000_0000 == code as int
    ensures r >= 0 <==> code < 0x8000_0000
  {
    if code < 0x8000_0000 then code as int else code as int - 0x1_0000_0000
  }

  /** What the handle of `id` gave; a handle the bridge says nothing about gave nothing. */
  function PollOf(bridge: map<SessionId, Poll>, id: SessionId): Poll
  {
    if id in bridge then bridge[id] else Poll([], None)
  }

  /** The buffer of `id` in a log map, empty when absent (as `LogStore.Lines`). */
  function LinesIn(logs: map<SessionId, seq<string>>, id: SessionId): seq<string>
  {
    if id in logs then logs[id] else []
  }

  /** The identifiers in a sequence of tagged entries. */
  function IdsOf<X>(s: seq<(SessionId, X)>): set<SessionId>
    decreases |s|
  {
    if s == [] then {} else IdsOf(s[..|s| - 1]) + {s[|s| - 1].0}
  }

  predicate DistinctIds<X>(s: seq<(SessionId, X)>)
  {
    forall i, j :: 0 <= i < j < |s| ==> s[i].0 != s[j].0
  }

  lemma {:induction false} IdsOfMembers<X>(s: seq<(SessionId, X)>, x: SessionId)
    ensures x in IdsOf(s) <==> exists j :: 0 <= j < |s| && s[j].0 == x
    decreases |s|
  {
    if s != [] {
      var p := s[..|s| - 1];
      IdsOfMembers(p, x);
      if x in IdsOf(p) {
        var j :| 0 <= j < |p| && p[j].0 == x;
        assert s[j].0 == x;
      }
      if exists j :: 0 <= j < |s| && s[j].0 == x {
        var j :| 0 <= j < |s| && s[j].0 == x;
        if j < |p| {
          assert p[j].0 == x;
        }
      }
    }
  }

  /** The last entry tagged `x`, if any (with distinct tags, the only one). */
  function ExitFor<X>(s: seq<(SessionId, X)>, x: SessionId): Option<X>
    decreases |s|
  {
    if s == [] then None
    else if s[|s| - 1].0 == x then Some(s[|s| - 1].1)
    else ExitFor(s[..|s| - 1], x)
  }

  lemma {:induction false} ExitForAbsent<X>(s: seq<(SessionId, X)>, x: SessionId)
    ensures ExitFor(s, x).None? <==> x !in IdsOf(s)
    decreases |s|
  {
    if s != [] {
      ExitForAbsent(s[..|s| - 1], x);
    }
  }

  lemma ExitForSnoc<X>(s: seq<(SessionId, X)>, e: seq<(SessionId, X)>, x: SessionId)
    requires |e| <= 1
    ensures ExitFor(s + e, x) == if e != [] && e[0].0 == x then Some(e[0].1) else ExitFor(s, x)
  {
    if e == [] {
      assert s + e == s;
    } else {
      assert (s + e)[..|s|] == s;
    }
  }

  /** The identifier and status of every session that is Running or NeedsInput, in list
      order: the sessions this tick looks at. */
  function Actives(sessions: seq<Session>): (r: seq<(SessionId, Status)>)
    ensures |r| <= |sessions|
    ensures forall j :: 0 <= j < |r| ==> IsActive(r[j].1)
    decreases |sessions|
  {
    if sessions == [] then []
    else
      var s := sessions[|sessions| - 1];
      Actives(sessions[..|sessions| - 1]) + (if IsActive(s.status) then [(s.id, s.status)] else [])
  }

  /** Every entry comes from a session with that identifier and status. */
  lemma {:induction false} ActivesFrom(sessions: seq<Session>, j: nat)
    requires j < |Actives(sessions)|
    ensures exists k :: 0 <= k < |sessions| && sessions[k].id == Actives(sessions)[j].0 && sessions[k].status == Actives(sessions)[j].1
    decreases |sessions|
  {
    var p := sessions[..|sessions| - 1];
    var s := sessions[|sessions| - 1];
    var rp := Actives(p);
    var r := Actives(sessions);
    assert r == rp + (if IsActive(s.status) then [(s.id, s.status)] else []);
    if j < |rp| {
      ActivesFrom(p, j);
      assert r[j] == rp[j];
      var k :| 0 <= k < |p| && p[k].id == rp[j].0 && p[k].status == rp[j].1;
      assert sessions[k] == p[k];
    } else {
      var k := |sessions| - 1;
      assert r[j] == (sessions[k].id, sessions[k].status);
    }
  }

  /** Every active session has an entry. */
  lemma {:induction false} ActivesCover(sessions: seq<Session>, k: nat)
    requires k < |sessions| && IsActive(sessions[k].status)
    ensures exists j :: 0 <= j < |Actives(sessions)| && Actives(sessions)[j].0 == sessions[k].id && Actives(sessions)[j].1 == sessions[k].status
    decreases |sessions|
  {
    var p := sessions[..|sessions| - 1];
    var s := sessions[|sessions| - 1];
    var rp := Actives(p);
    var r := Actives(sessions);
    assert r == rp + (if IsActive(s.status) then [(s.id, s.status)] else []);
    if k < |p| {
      assert p[k] == sessions[k];
      ActivesCover(p, k);
      var j :| 0 <= j < |rp| && rp[j].0 == p[k].id && rp[j].1 == p[k].status;
      assert r[j] == rp[j];
    } else {
      assert r[|rp|] == (s.id, s.status);
    }
  }

  /** The list is empty exactly when no session is Running or NeedsInput. */
  lemma ActivesEmpty(sessions: seq<Session>)
    ensures Actives(sessions) == [] <==> forall k :: 0 <= k < |sessions| ==> !IsActive(sessions[k].status)
  {
    if Actives(sessions) != [] {
      ActivesFrom(sessions, 0);
    }
    forall k | 0 <= k < |sessions| && IsActive(sessions[k].status) ensures Actives(sessions) != [] {
      ActivesCover(sessions, k);
    }
  }

  /** With distinct session identifiers the entries have distinct identifiers too. */
  lemma {:induction false} ActivesDistinct(sessions: seq<Session>)
    requires UniqueIds(sessions)
    ensures DistinctIds(Actives(sessions))
    decreases |sessions|
  {
    if sessions != [] {
      var p := sessions[..|sessions| - 1];
      var s := sessions[|sessions| - 1];
      assert UniqueIds(p) by {
        forall i, j | 0 <= i < j < |p| ensures p[i].id != p[j].id {
          assert p[i] == sessions[i] && p[j] == sessions[j];
        }
      }
      ActivesDistinct(p);
      var rp := Actives(p);
      if IsActive(s.status) {
        var r := Actives(sessions);
        assert r == rp + [(s.id, s.status)];
        forall i | 0 <= i < |rp| ensures rp[i].0 != s.id {
          ActivesFrom(p, i);
          var k :| 0 <= k < |p| && p[k].id == rp[i].0 && p[k].status == rp[i].1;
          assert p[k] == sessions[k];
        }
        forall i, j | 0 <= i < j < |r| ensures r[i].0 != r[j].0 {
          if j == |rp| {
            assert r[i] == rp[i] && r[j].0 == s.id;
          } else {
            assert r[i] == rp[i] && r[j] == rp[j];
          }
        }
      }
    }
  }

  /** Where a session stands among the entries: it has one iff it is active, and every
      entry with its identifier carries its status. */
  lemma ActiveEntry(sessions: seq<Session>, k: nat)
    requires UniqueIds(sessions) && k < |sessions|
    ensures var r := Actives(sessions); var s := sessions[k];
      && (s.id in IdsOf(r) <==> IsActive(s.status))
      && (forall j :: 0 <= j < |r| && r[j].0 == s.id ==> r[j].1 == s.status)
  {
    var r := Actives(sessions);
    var s := sessions[k];
    IdsOfMembers(r, s.id);
    forall j | 0 <= j < |r| && r[j].0 == s.id ensures r[j].1 == s.status {
      ActivesFrom(sessions, j);
      var m :| 0 <= m < |sessions| && sessions[m].id == r[j].0 && sessions[m].status == r[j].1;
      assert m == k;
    }
    if s.id in IdsOf(r) {
      var j :| 0 <= j < |r| && r[j].0 == s.id;
      assert IsActive(r[j].1);
    }
    if IsActive(s.status) {
      ActivesCover(sessions, k);
    }
  }

  /** Whether the newest non-empty line of a buffer is flagged as a question. */
  predicate Prompts(lines: seq<string>)
  {
    var l := LastNonEmpty(lines);
    l.Some? && Check(l.value)
  }

  /** What the drain loop has accumulated: the logs, the output clock, the sessions found
      asking for input and the exits seen. */
  datatype Drain = Drain(
    logs: map<SessionId, seq<string>>,
    lastOutput: map<SessionId, nat>,
    detected: seq<SessionId>,
    finished: seq<(SessionId, Exit)>)

  function ExitEntry(id: SessionId, e: Option<Exit>): seq<(SessionId, Exit)>
  {
    if e.Some? then [(id, e.value)] else []
  }

  /** One round of the drain loop for the entry `a`: only a session with a handle is
      drained; with output its log grows by the chunks, its clock is reset, and a Running
      session whose newest non-empty line is a question is detected; an exit is recorded. */
  function DrainOne(d: Drain, a: (SessionId, Status), handles: set<SessionId>, bridge: map<SessionId, Poll>, now: nat): Drain
  {
    if a.0 !in handles then d
    else
      var p := PollOf(bridge, a.0);
      if p.chunks == [] then d.(finished := d.finished + ExitEntry(a.0, p.exit))
      else
        var lines := AppendAll(LinesIn(d.logs, a.0), p.chunks);
        Drain(d.logs[a.0 := lines], d.lastOutput[a.0 := now],
              d.detected + (if a.1 == Running && Prompts(lines) then [a.0] else []),
              d.finished + ExitEntry(a.0, p.exit))
  }

  /** The drain loop over the entries, in order. */
  function Drained(logs: map<SessionId, seq<string>>, last: map<SessionId, nat>, acts: seq<(SessionId, Status)>,
                   handles: set<SessionId>, bridge: map<SessionId, Poll>, now: nat): Drain
    decreases |acts|
  {
    if acts == [] then Drain(logs, last, [], [])
    else DrainOne(Drained(logs, last, acts[..|acts| - 1], handles, bridge, now), acts[|acts| - 1], handles, bridge, now)
  }

  /** Dropping the last entry keeps identifiers distinct, and the last identifier is not
      among the others. */
  lemma DistinctSplit<X>(s: seq<(SessionId, X)>)
    requires DistinctIds(s) && s != []
    ensures DistinctIds(s[..|s| - 1]) && s[|s| - 1].0 !in IdsOf(s[..|s| - 1])
  {
    var pre := s[..|s| - 1];
    forall i, j | 0 <= i < j < |pre| ensures pre[i].0 != pre[j].0 {
      assert pre[i] == s[i] && pre[j] == s[j];
    }
    IdsOfMembers(pre, s[|s| - 1].0);
  }

  /** Whether the drain grew the log of `id`: it has an entry, a handle, and output. */
  predicate Grown(acts: seq<(SessionId, Status)>, handles: set<SessionId>, bridge: map<SessionId, Poll>, id: SessionId)
  {
    id in IdsOf(acts) && id in handles && PollOf(bridge, id).chunks != []
  }

  /** With distinct identifiers, the drain grows the log of `id` by its chunks iff it has an
      entry, a handle and output, and otherwise leaves it alone. */
  lemma {:induction false} DrainedLogsAt(logs: map<SessionId, seq<string>>, last: map<SessionId, nat>, acts: seq<(SessionId, Status)>,
                     handles: set<SessionId>, bridge: map<SessionId, Poll>, now: nat, id: SessionId)
    requires DistinctIds(acts)
    ensures LinesIn(Drained(logs, last, acts, handles, bridge, now).logs, id) ==
      if Grown(acts, handles, bridge, id) then AppendAll(LinesIn(logs, id), PollOf(bridge, id).chunks) else LinesIn(logs, id)
    decreases |acts|
  {
    if acts != [] {
      var pre, a := acts[..|acts| - 1], acts[|acts| - 1];
      DistinctSplit(acts);
      DrainedLogsAt(logs, last, pre, handles, bridge, now, id);
      var d0 := Drained(logs, last, pre, handles, bridge, now);
      assert IdsOf(acts) == IdsOf(pre) + {a.0};
      if a.0 != id {
        assert LinesIn(DrainOne(d0, a, handles, bridge, now).logs, id) == LinesIn(d0.logs, id);
      }
    }
  }

  /** The same for the output clock: set to `now` iff the log grew, else as before. */
  lemma {:induction false} DrainedClockAt(logs: map<SessionId, seq<string>>, last: map<SessionId, nat>, acts: seq<(SessionId, Status)>,
                     handles: set<SessionId>, bridge: map<SessionId, Poll>, now: nat, id: SessionId)
    requires DistinctIds(acts)
    ensures var d := Drained(logs, last, acts, handles, bridge, now);
      && (id in d.lastOutput <==> Grown(acts, handles, bridge, id) || id in last)
      && (id in d.lastOutput ==> d.lastOutput[id] == if Grown(acts, handles, bridge, id) then now else last[id])
    decreases |acts|
  {
    if acts != [] {
      var pre, a := acts[..|acts| - 1], acts[|acts| - 1];
      DistinctSplit(acts);
      DrainedClockAt(logs, last, pre, handles, bridge, now, id);
      assert IdsOf(acts) == IdsOf(pre) + {a.0};
    }
  }

  /** The exit recorded for `id` is its handle's, iff it has an entry and a handle. */
  lemma {:induction false} DrainedExitAt(logs: map<SessionId, seq<string>>, last: map<SessionId, nat>, acts: seq<(SessionId, Status)>,
                     handles: set<SessionId>, bridge: map<SessionId, Poll>, now: nat, id: SessionId)
    requires DistinctIds(acts)
    ensures ExitFor(Drained(logs, last, acts, handles, bridge, now).finished, id) ==
      if id in IdsOf(acts) && id in handles then PollOf(bridge, id).exit else None
    decreases |acts|
  {
    if acts != [] {
      var a := acts[|acts| - 1];
      DistinctSplit(acts);
      DrainedExitAt(logs, last, acts[..|acts| - 1], handles, bridge, now, id);
      var d0 := Drained(logs, last, acts[..|acts| - 1], handles, bridge, now);
      if a.0 in handles {
        ExitForSnoc(d0.finished, ExitEntry(a.0, PollOf(bridge, a.0).exit), id);
      }
    }
  }

  /** An identifier without an entry is never detected. */
  lemma {:induction false} DrainedUndetected(logs: map<SessionId, seq<string>>, last: map<SessionId, nat>, acts: seq<(SessionId, Status)>,
                     handles: set<SessionId>, bridge: map<SessionId, Poll>, now: nat, id: SessionId)
    requires id !in IdsOf(acts)
    ensures id !in Drained(logs, last, acts, handles, bridge, now).detected
    decreases |acts|
  {
    if acts != [] {
      DrainedUndetected(logs, last, acts[..|acts| - 1], handles, bridge, now, id);
    }
  }

  /** The identifier of entry `j` is detected iff that entry was Running and the drain grew
      its log to end in a question. */
  lemma {:induction false} DrainedDetectedAt(logs: map<SessionId, seq<string>>, last: map<SessionId, nat>, acts: seq<(SessionId, Status)>,
                     handles: set<SessionId>, bridge: map<SessionId, Poll>, now: nat, j: nat)
    requires DistinctIds(acts) && j < |acts|
    ensures var id := acts[j].0;
      id in Drained(logs, last, acts, handles, bridge, now).detected <==>
        Grown(acts, handles, bridge, id) && acts[j].1 == Running && Prompts(AppendAll(LinesIn(logs, id), PollOf(bridge, id).chunks))
    decreases |acts|
  {
    var pre := acts[..|acts| - 1];
    var id := acts[j].0;
    DistinctSplit(acts);
    if j == |acts| - 1 {
      DrainedUndetected(logs, last, pre, handles, bridge, now, id);
      DrainedLogsAt(logs, last, pre, handles, bridge, now, id);
    } else {
      assert pre[j] == acts[j];
      DrainedDetectedAt(logs, last, pre, handles, bridge, now, j);
      assert id in IdsOf(pre) by { IdsOfMembers(pre, id); }
      assert id != acts[|acts| - 1].0;
    }
  }

  /** The identifiers of the exits seen are distinct and each belongs to an entry. */
  lemma {:induction false} DrainedFinished(logs: map<SessionId, seq<string>>, last: map<SessionId, nat>, acts: seq<(SessionId, Status)>,
                                           handles: set<SessionId>, bridge: map<SessionId, Poll>, now: nat)
    requires DistinctIds(acts)
    ensures var d := Drained(logs, last, acts, handles, bridge, now);
      DistinctIds(d.finished) && IdsOf(d.finished) <= IdsOf(acts)
    decreases |acts|
  {
    if acts != [] {
      var pre := acts[..|acts| - 1];
      var a := acts[|acts| - 1];
      DistinctSplit(acts);
      DrainedFinished(logs, last, pre, handles, bridge, now);
      var d0 := Drained(logs, last, pre, handles, bridge, now);
      var d := Drained(logs, last, acts, handles, bridge, now);
      if d.finished != d0.finished {
        assert d.finished == d0.finished + [(a.0, PollOf(bridge, a.0).exit.value)];
        forall i, j | 0 <= i < j < |d.finished| ensures d.finished[i].0 != d.finished[j].0 {
          if j == |d0.finished| {
            IdsOfMembers(d0.finished, d0.finished[i].0);
          } else {
            assert d.finished[i] == d0.finished[i] && d.finished[j] == d0.finished[j];
          }
        }
        assert d.finished[..|d.finished| - 1] == d0.finished;
      }
    }
  }

  /** The timeout loop: the Running entries whose last output lies strictly more than the
      timeout in the past (elapsed time saturates at zero). */
  function TimedOut(acts: seq<(SessionId, Status)>, last: map<SessionId, nat>, now: nat): seq<SessionId>
    decreases |acts|
  {
    if acts == [] then []
    else
      var a := acts[|acts| - 1];
      TimedOut(acts[..|acts| - 1], last, now) +
      (if a.1 == Running && a.0 in last && SaturatingSub(now, last[a.0]) > TIMEOUT_MS then [a.0] else [])
  }

  lemma {:induction false} TimedOutAt(acts: seq<(SessionId, Status)>, last: map<SessionId, nat>, now: nat, id: SessionId)
    ensures id in TimedOut(acts, last, now) <==>
      exists j :: 0 <= j < |acts| && acts[j] == (id, Running) && id in last && SaturatingSub(now, last[id]) > TIMEOUT_MS
    decreases |acts|
  {
    if acts != [] {
      var pre := acts[..|acts| - 1];
      TimedOutAt(pre, last, now, id);
      if exists j :: 0 <= j < |pre| && pre[j] == (id, Running) && id in last && SaturatingSub(now, last[id]) > TIMEOUT_MS {
        var j :| 0 <= j < |pre| && pre[j] == (id, Running) && id in last && SaturatingSub(now, last[id]) > TIMEOUT_MS;
        assert acts[j] == pre[j];
      }
      if exists j :: 0 <= j < |acts| && acts[j] == (id, Running) && id in last && SaturatingSub(now, last[id]) > TIMEOUT_MS {
        var j :| 0 <= j < |acts| && acts[j] == (id, Running) && id in last && SaturatingSub(now, last[id]) > TIMEOUT_MS;
        if j < |pre| {
          assert pre[j] == acts[j];
        }
      }
    }
  }

  /** `iter().position(|s| s.id == id)`: the first session with identifier `id`. */
  function FindFrom(ss: seq<Session>, id: SessionId, i: nat): (r: Option<nat>)
    requires i <= |ss|
    ensures r.Some? ==> i <= r.value < |ss| && ss[r.value].id == id && forall k :: i <= k < r.value ==> ss[k].id != id
    ensures r.None? ==> forall k :: i <= k < |ss| ==> ss[k].id != id
    decreases |ss| - i
  {
    if i == |ss| then None else if ss[i].id == id then Some(i) else FindFrom(ss, id, i + 1)
  }

  function FindIndex(ss: seq<Session>, id: SessionId): (r: Option<nat>)
    ensures r.Some? ==> r.value < |ss| && ss[r.value].id == id && forall k :: 0 <= k < r.value ==> ss[k].id != id
    ensures r.None? ==> forall k :: 0 <= k < |ss| ==> ss[k].id != id
  {
    FindFrom(ss, id, 0)
  }

  /** Two lists whose sessions agree on identifiers, position by position. */
  predicate SameIds(a: seq<Session>, b: seq<Session>)
  {
    |a| == |b| && forall k :: 0 <= k < |a| ==> a[k].id == b[k].id
  }

  /** For distinct identifiers the first session with a given identifier is the one. */
  lemma FindUnique(ss: seq<Session>, k: nat)
    requires UniqueIds(ss) && k < |ss|
    ensures FindIndex(ss, ss[k].id) == Some(k)
  {
  }

  /** One round of the marking loop: the first session with identifier `id` moves to
      NeedsInput if it is Running; the flag says whether it did. */
  function MarkOne(ss: seq<Session>, id: SessionId, now: nat): (r: (seq<Session>, bool))
    ensures |r.0| == |ss|
  {
    match FindIndex(ss, id)
    case None => (ss, false)
    case Some(k) => if ss[k].status == Running then (ss[k := Moved(ss[k], NeedsInput, now)], true) else (ss, false)
  }

  /** The marking loop over the detected identifiers, with the `state_changed` flag. */
  function Marked(ss: seq<Session>, detected: seq<SessionId>, now: nat): (r: (seq<Session>, bool))
    ensures |r.0| == |ss|
    decreases |detected|
  {
    if detected == [] then (ss, false)
    else
      var m := Marked(ss, detected[..|detected| - 1], now);
      var o := MarkOne(m.0, detected[|detected| - 1], now);
      (o.0, m.1 || o.1)
  }

  /** With distinct identifiers, marking moves exactly the Running sessions whose
      identifier was detected (once, however often it was detected), and reports a change
      iff there is one. */
  lemma {:induction false} MarkedAt(ss: seq<Session>, detected: seq<SessionId>, now: nat)
    requires UniqueIds(ss)
    ensures var m := Marked(ss, detected, now);
      && SameIds(m.0, ss)
      && (forall k :: 0 <= k < |ss| ==>
            m.0[k] == if ss[k].id in detected && ss[k].status == Running then Moved(ss[k], NeedsInput, now) else ss[k])
      && (m.1 <==> exists k :: 0 <= k < |ss| && ss[k].id in detected && ss[k].status == Running)
    decreases |detected|
  {
    if detected != [] {
      var pre := detected[..|detected| - 1];
      var x := detected[|detected| - 1];
      assert detected == pre + [x];
      MarkedAt(ss, pre, now);
      var m := Marked(ss, pre, now);
      assert UniqueIds(m.0) by {
        forall i, j | 0 <= i < j < |m.0| ensures m.0[i].id != m.0[j].id {
          assert m.0[i].id == ss[i].id && m.0[j].id == ss[j].id;
        }
      }
      var f := FindIndex(m.0, x);
      if f.Some? {
        var k := f.value;
        FindUnique(m.0, k);
        var r := Marked(ss, detected, now);
        if ss[k].status == Running && x !in pre {
          assert r.1;
        }
        if r.1 && !m.1 {
          assert ss[k].id in detected && ss[k].status == Running;
        }
      }
    }
  }

  /** A finished session: a NeedsInput session goes through Running first, then it ends
      Done on success and Failed otherwise, with the exit code cast to i32 and no process. */
  function Finished(s: Session, e: Exit, now: nat): (r: Session)
    ensures r.id == s.id && r.ptyPid == None && r.exitCode == Some(ToI32(e.code))
    ensures IsActive(s.status) ==> r.status == (if e.success then Done else Failed) && r.updatedAt == now
    ensures r.name == s.name && r.rootPath == s.rootPath && r.instruction == s.instruction && r.logPath == s.logPath
  {
    var s1 := if s.status == NeedsInput then Moved(s, Running, now) else s;
    var s2 := Moved(s1, if e.success then Done else Failed, now);
    s2.(exitCode := Some(ToI32(e.code)), ptyPid := None)
  }

  function FinishOne(ss: seq<Session>, f: (SessionId, Exit), now: nat): (r: seq<Session>)
    ensures |r| == |ss|
  {
    match FindIndex(ss, f.0)
    case None => ss
    case Some(k) => ss[k := Finished(ss[k], f.1, now)]
  }

  /** The teardown loop over the exits seen, in order. */
  function FinishAll(ss: seq<Session>, fs: seq<(SessionId, Exit)>, now: nat): (r: seq<Session>)
    ensures |r| == |ss|
    decreases |fs|
  {
    if fs == [] then ss else FinishOne(FinishAll(ss, fs[..|fs| - 1], now), fs[|fs| - 1], now)
  }

  /** With distinct identifiers on both sides, every session with an exit is finished by
      that exit and every other session is left as it was. */
  lemma {:induction false} FinishAllAt(ss: seq<Session>, fs: seq<(SessionId, Exit)>, now: nat)
    requires UniqueIds(ss) && DistinctIds(fs)
    ensures var r := FinishAll(ss, fs, now);
      && SameIds(r, ss)
      && forall k :: 0 <= k < |ss| ==>
           r[k] == match ExitFor(fs, ss[k].id) { case None => ss[k] case Some(e) => Finished(ss[k], e, now) }
    decreases |fs|
  {
    if fs != [] {
      var pre := fs[..|fs| - 1];
      var x := fs[|fs| - 1];
      assert DistinctIds(pre) by {
        forall i, j | 0 <= i < j < |pre| ensures pre[i].0 != pre[j].0 {
          assert pre[i] == fs[i] && pre[j] == fs[j];
        }
      }
      FinishAllAt(ss, pre, now);
      var r0 := FinishAll(ss, pre, now);
      assert UniqueIds(r0) by {
        forall i, j | 0 <= i < j < |r0| ensures r0[i].id != r0[j].id {
          assert r0[i].id == ss[i].id && r0[j].id == ss[j].id;
        }
      }
      IdsOfMembers(pre, x.0);
      assert x.0 !in IdsOf(pre);
      ExitForAbsent(pre, x.0);
      var f := FindIndex(r0, x.0);
      if f.Some? {
        FindUnique(r0, f.value);
      }
    }
  }

  /** The state the tick leaves: sessions, logs and output clock, the identifiers whose
      handles are torn down, and whether the session list is saved. */
  datatype TickOut = TickOut(
    sessions: seq<Session>,
    logs: map<SessionId, seq<string>>,
    lastOutput: map<SessionId, nat>,
    removed: set<SessionId>,
    changed: bool)

  /** The drain stage over the active entries of `sessions`. */
  function DrainOf(sessions: seq<Session>, logs: map<SessionId, seq<string>>, handles: set<SessionId>,
                   last: map<SessionId, nat>, bridge: map<SessionId, Poll>, now: nat): Drain
  {
    Drained(logs, last, Actives(sessions), handles, bridge, now)
  }

  /** The identifiers to move to NeedsInput: those the drain detected, then those timed out. */
  function DetectedOf(sessions: seq<Session>, logs: map<SessionId, seq<string>>, handles: set<SessionId>,
                      last: map<SessionId, nat>, bridge: map<SessionId, Poll>, now: nat): seq<SessionId>
  {
    var d := DrainOf(sessions, logs, handles, last, bridge, now);
    d.detected + TimedOut(Actives(sessions), d.lastOutput, now)
  }

  /** `handle_pty_poll` as a function: the four loops, in order, over the state before. */
  function Tick(sessions: seq<Session>, logs: map<SessionId, seq<string>>, handles: set<SessionId>,
                last: map<SessionId, nat>, bridge: map<SessionId, Poll>, now: nat): (r: TickOut)
    ensures |r.sessions| == |sessions|
  {
    var d := DrainOf(sessions, logs, handles, last, bridge, now);
    var m := Marked(sessions, DetectedOf(sessions, logs, handles, last, bridge, now), now);
    var gone := IdsOf(d.finished);
    TickOut(FinishAll(m.0, d.finished, now), d.logs, d.lastOutput - gone, gone, m.1 || d.finished != [])
  }

  /** A session is drained iff it is active and has a handle. */
  predicate Drains(s: Session, handles: set<SessionId>)
  {
    IsActive(s.status) && s.id in handles
  }

  /** A Running session with a handle whose output this tick leaves its log ending in a
      question. */
  predicate Prompted(s: Session, logs: map<SessionId, seq<string>>, handles: set<SessionId>, bridge: map<SessionId, Poll>)
  {
    var p := PollOf(bridge, s.id);
    s.status == Running && s.id in handles && p.chunks != [] && Prompts(AppendAll(LinesIn(logs, s.id), p.chunks))
  }

  /** A Running session that produced no output this tick and whose last output lies
      strictly more than the timeout in the past. */
  predicate Silent(s: Session, handles: set<SessionId>, last: map<SessionId, nat>, bridge: map<SessionId, Poll>, now: nat)
  {
    s.status == Running && !(s.id in handles && PollOf(bridge, s.id).chunks != []) &&
    s.id in last && SaturatingSub(now, last[s.id]) > TIMEOUT_MS
  }

  /** How the session's process ended this tick, as far as the tick looks. */
  function ExitOf(s: Session, handles: set<SessionId>, bridge: map<SessionId, Poll>): Option<Exit>
  {
    if Drains(s, handles) then PollOf(bridge, s.id).exit else None
  }

  /** The reference for one session: moved to NeedsInput when asked to, then finished
      when its process ended. */
  function SessionTick(s: Session, asks: bool, exit: Option<Exit>, now: nat): Session
  {
    var s1 := if asks then Moved(s, NeedsInput, now) else s;
    if exit.Some? then Finished(s1, exit.value, now) else s1
  }

  /** The tick, session by session, when identifiers are distinct: each session is its
      reference `SessionTick`, asked to wait when it prompted or fell silent; its log grows
      by its chunks iff it is drained; its handle and clock go iff its process ended. */
  lemma TickPerSession(sessions: seq<Session>, logs: map<SessionId, seq<string>>, handles: set<SessionId>,
                       last: map<SessionId, nat>, bridge: map<SessionId, Poll>, now: nat, k: nat)
    requires UniqueIds(sessions) && k < |sessions|
    ensures var t := Tick(sessions, logs, handles, last, bridge, now); var s := sessions[k];
      && |t.sessions| == |sessions|
      && t.sessions[k] == SessionTick(s, Prompted(s, logs, handles, bridge) || Silent(s, handles, last, bridge, now), ExitOf(s, handles, bridge), now)
      && LinesIn(t.logs, s.id) == (if Drains(s, handles) && PollOf(bridge, s.id).chunks != [] then AppendAll(LinesIn(logs, s.id), PollOf(bridge, s.id).chunks) else LinesIn(logs, s.id))
      && (s.id in t.removed <==> ExitOf(s, handles, bridge).Some?)
      && (s.id in t.removed ==> s.id !in t.lastOutput)
  {
    var s := sessions[k];
    var t := Tick(sessions, logs, handles, last, bridge, now);
    var acts := Actives(sessions);
    ActivesDistinct(sessions);
    ActiveEntry(sessions, k);
    var d := Drained(logs, last, acts, handles, bridge, now);
    assert LinesIn(t.logs, s.id) == (if Drains(s, handles) && PollOf(bridge, s.id).chunks != [] then AppendAll(LinesIn(logs, s.id), PollOf(bridge, s.id).chunks) else LinesIn(logs, s.id)) by {
      DrainedLogsAt(logs, last, acts, handles, bridge, now, s.id);
    }
    assert s.id in t.removed <==> ExitOf(s, handles, bridge).Some? by {
      DrainedExitAt(logs, last, acts, handles, bridge, now, s.id);
      ExitForAbsent(d.finished, s.id);
    }
    assert t.sessions[k] == SessionTick(s, Prompted(s, logs, handles, bridge) || Silent(s, handles, last, bridge, now), ExitOf(s, handles, bridge), now) by {
      TickSessionAt(sessions, logs, handles, last, bridge, now, k);
    }
  }

  /** The session part of `TickPerSession`. */
  lemma TickSessionAt(sessions: seq<Session>, logs: map<SessionId, seq<string>>, handles: set<SessionId>,
                      last: map<SessionId, nat>, bridge: map<SessionId, Poll>, now: nat, k: nat)
    requires UniqueIds(sessions) && k < |sessions|
    ensures var t := Tick(sessions, logs, handles, last, bridge, now); var s := sessions[k];
      t.sessions[k] == SessionTick(s, Prompted(s, logs, handles, bridge) || Silent(s, handles, last, bridge, now), ExitOf(s, handles, bridge), now)
  {
    var s := sessions[k];
    var d := DrainOf(sessions, logs, handles, last, bridge, now);
    var det := DetectedOf(sessions, logs, handles, last, bridge, now);
    DetectedAt(sessions, logs, handles, last, bridge, now, k);
    ExitAt(sessions, logs, handles, last, bridge, now, k);
    MarkedAt(sessions, det, now);
    var m := Marked(sessions, det, now);
    SameIdsUnique(m.0, sessions);
    assert DistinctIds(d.finished) by {
      ActivesDistinct(sessions);
      DrainedFinished(logs, last, Actives(sessions), handles, bridge, now);
    }
    FinishAllAt(m.0, d.finished, now);
  }

  /** Relabelling nothing but the fields other than the identifier keeps them distinct. */
  lemma SameIdsUnique(a: seq<Session>, b: seq<Session>)
    requires SameIds(a, b) && UniqueIds(b)
    ensures UniqueIds(a)
  {
    forall i, j | 0 <= i < j < |a| ensures a[i].id != a[j].id {
      assert a[i].id == b[i].id && a[j].id == b[j].id;
    }
  }

  /** A session is among those to move to NeedsInput, while Running, iff it prompted or
      fell silent. */
  lemma DetectedAt(sessions: seq<Session>, logs: map<SessionId, seq<string>>, handles: set<SessionId>,
                   last: map<SessionId, nat>, bridge: map<SessionId, Poll>, now: nat, k: nat)
    requires UniqueIds(sessions) && k < |sessions|
    ensures var s := sessions[k];
      s.id in DetectedOf(sessions, logs, handles, last, bridge, now) && s.status == Running <==>
        Prompted(s, logs, handles, bridge) || Silent(s, handles, last, bridge, now)
  {
    var s := sessions[k];
    var acts := Actives(sessions);
    ActivesDistinct(sessions);
    ActiveEntry(sessions, k);
    var d := DrainOf(sessions, logs, handles, last, bridge, now);
    TimedOutAt(acts, d.lastOutput, now, s.id);
    DrainedClockAt(logs, last, acts, handles, bridge, now, s.id);
    if s.id in IdsOf(acts) {
      IdsOfMembers(acts, s.id);
      var j :| 0 <= j < |acts| && acts[j].0 == s.id;
      DrainedDetectedAt(logs, last, acts, handles, bridge, now, j);
    } else {
      DrainedUndetected(logs, last, acts, handles, bridge, now, s.id);
    }
  }

  /** The exit the drain records for a session is the one its handle reports, when it is
      drained, and none otherwise. */
  lemma ExitAt(sessions: seq<Session>, logs: map<SessionId, seq<string>>, handles: set<SessionId>,
               last: map<SessionId, nat>, bridge: map<SessionId, Poll>, now: nat, k: nat)
    requires UniqueIds(sessions) && k < |sessions|
    ensures ExitFor(DrainOf(sessions, logs, handles, last, bridge, now).finished, sessions[k].id) == ExitOf(sessions[k], handles, bridge)
  {
    ActivesDistinct(sessions);
    ActiveEntry(sessions, k);
    DrainedExitAt(logs, last, Actives(sessions), handles, bridge, now, sessions[k].id);
  }

  /** The tick's rules for one session, when identifiers are distinct. A session that was
      not Running or NeedsInput is not looked at: not drained, not moved, not torn down,
      whatever its handle holds. A Running session that prompted or fell silent ends
      NeedsInput unless its process ended. A drained session with output has its clock
      reset. A session whose process ended is torn down and ends Done on success and Failed
      otherwise, with the exit code recorded and no process id. */
  lemma TickOutcomes(sessions: seq<Session>, logs: map<SessionId, seq<string>>, handles: set<SessionId>,
                     last: map<SessionId, nat>, bridge: map<SessionId, Poll>, now: nat, k: nat)
    requires UniqueIds(sessions) && k < |sessions|
    ensures var t := Tick(sessions, logs, handles, last, bridge, now); var s := sessions[k];
      !IsActive(s.status) ==>
        && t.sessions[k] == s && LinesIn(t.logs, s.id) == LinesIn(logs, s.id) && s.id !in t.removed
        && (s.id in t.lastOutput <==> s.id in last) && (s.id in last ==> t.lastOutput[s.id] == last[s.id])
    ensures var t := Tick(sessions, logs, handles, last, bridge, now); var s := sessions[k];
      (Prompted(s, logs, handles, bridge) || Silent(s, handles, last, bridge, now)) && ExitOf(s, handles, bridge).None? ==>
        t.sessions[k] == Moved(s, NeedsInput, now) && t.sessions[k].status == NeedsInput
    ensures var t := Tick(sessions, logs, handles, last, bridge, now); var s := sessions[k];
      IsActive(s.status) && !Prompted(s, logs, handles, bridge) && !Silent(s, handles, last, bridge, now) && ExitOf(s, handles, bridge).None? ==>
        t.sessions[k] == s
    ensures var t := Tick(sessions, logs, handles, last, bridge, now); var s := sessions[k];
      Drains(s, handles) && PollOf(bridge, s.id).chunks != [] && ExitOf(s, handles, bridge).None? ==>
        s.id in t.lastOutput && t.lastOutput[s.id] == now
    ensures var t := Tick(sessions, logs, handles, last, bridge, now); var s := sessions[k]; var e := ExitOf(s, handles, bridge);
      e.Some? ==>
        && t.sessions[k].status == (if e.value.success then Done else Failed)
        && t.sessions[k].exitCode == Some(ToI32(e.value.code)) && t.sessions[k].ptyPid == None
        && s.id in t.removed && s.id !in t.lastOutput
  {
    var s := sessions[k];
    TickPerSession(sessions, logs, handles, last, bridge, now, k);
    var acts := Actives(sessions);
    ActivesDistinct(sessions);
    ActiveEntry(sessions, k);
    DrainedClockAt(logs, last, acts, handles, bridge, now, s.id);
  }

  /** A session the tick moves or tears down. */
  predicate Touched(s: Session, logs: map<SessionId, seq<string>>, handles: set<SessionId>,
                    last: map<SessionId, nat>, bridge: map<SessionId, Poll>, now: nat)
  {
    Prompted(s, logs, handles, bridge) || Silent(s, handles, last, bridge, now) || ExitOf(s, handles, bridge).Some?
  }

  /** Where a touched session stands in the stages: detected while Running, or with an
      exit recorded. */
  lemma TouchedAt(sessions: seq<Session>, logs: map<SessionId, seq<string>>, handles: set<SessionId>,
                  last: map<SessionId, nat>, bridge: map<SessionId, Poll>, now: nat, k: nat)
    requires UniqueIds(sessions) && k < |sessions|
    ensures var s := sessions[k];
      Touched(s, logs, handles, last, bridge, now) <==>
        (s.id in DetectedOf(sessions, logs, handles, last, bridge, now) && s.status == Running) ||
        ExitFor(DrainOf(sessions, logs, handles, last, bridge, now).finished, s.id).Some?
  {
    DetectedAt(sessions, logs, handles, last, bridge, now, k);
    ExitAt(sessions, logs, handles, last, bridge, now, k);
  }

  /** Some session has an exit recorded iff some exit was seen. */
  lemma FinishedWitness(sessions: seq<Session>, logs: map<SessionId, seq<string>>, handles: set<SessionId>,
                        last: map<SessionId, nat>, bridge: map<SessionId, Poll>, now: nat)
    requires UniqueIds(sessions)
    ensures var fs := DrainOf(sessions, logs, handles, last, bridge, now).finished;
      fs != [] <==> exists k :: 0 <= k < |sessions| && ExitFor(fs, sessions[k].id).Some?
  {
    var acts := Actives(sessions);
    ActivesDistinct(sessions);
    DrainedFinished(logs, last, acts, handles, bridge, now);
    var fs := DrainOf(sessions, logs, handles, last, bridge, now).finished;
    if fs != [] {
      var x := fs[0].0;
      IdsOfMembers(fs, x);
      ExitForAbsent(fs, x);
      IdsOfMembers(acts, x);
      var j :| 0 <= j < |acts| && acts[j].0 == x;
      ActivesFrom(sessions, j);
      var k :| 0 <= k < |sessions| && sessions[k].id == acts[j].0 && sessions[k].status == acts[j].1;
      assert ExitFor(fs, sessions[k].id).Some?;
    }
  }

  /** The tick saves iff it moved or tore down some session, and that is exactly when the
      session list it leaves differs from the one before. */
  lemma TickChanged(sessions: seq<Session>, logs: map<SessionId, seq<string>>, handles: set<SessionId>,
                    last: map<SessionId, nat>, bridge: map<SessionId, Poll>, now: nat)
    requires UniqueIds(sessions)
    ensures var t := Tick(sessions, logs, handles, last, bridge, now);
      && (t.changed <==> exists k :: 0 <= k < |sessions| && Touched(sessions[k], logs, handles, last, bridge, now))
      && (t.changed <==> t.sessions != sessions)
  {
    var t := Tick(sessions, logs, handles, last, bridge, now);
    assert t.changed <==> exists k :: 0 <= k < |sessions| && Touched(sessions[k], logs, handles, last, bridge, now) by {
      var det := DetectedOf(sessions, logs, handles, last, bridge, now);
      MarkedAt(sessions, det, now);
      FinishedWitness(sessions, logs, handles, last, bridge, now);
      forall k | 0 <= k < |sessions|
        ensures Touched(sessions[k], logs, handles, last, bridge, now) <==>
          (sessions[k].id in det && sessions[k].status == Running) ||
          ExitFor(DrainOf(sessions, logs, handles, last, bridge, now).finished, sessions[k].id).Some?
      {
        TouchedAt(sessions, logs, handles, last, bridge, now, k);
      }
    }
    forall k | 0 <= k < |sessions|
      ensures Touched(sessions[k], logs, handles, last, bridge, now) <==> t.sessions[k] != sessions[k]
    {
      TouchedChanges(sessions, logs, handles, last, bridge, now, k);
    }
    if t.sessions != sessions {
      var k :| 0 <= k < |sessions| && t.sessions[k] != sessions[k];
    }
  }

  /** A session is touched iff the tick changes it. */
  lemma TouchedChanges(sessions: seq<Session>, logs: map<SessionId, seq<string>>, handles: set<SessionId>,
                       last: map<SessionId, nat>, bridge: map<SessionId, Poll>, now: nat, k: nat)
    requires UniqueIds(sessions) && k < |sessions|
    ensures Touched(sessions[k], logs, handles, last, bridge, now) <==> Tick(sessions, logs, handles, last, bridge, now).sessions[k] != sessions[k]
  {
    TickSessionAt(sessions, logs, handles, last, bridge, now, k);
    TouchedStatus(sessions[k], logs, handles, last, bridge, now);
  }

  /** The reference changes a session iff it is touched. */
  lemma TouchedStatus(s: Session, logs: map<SessionId, seq<string>>, handles: set<SessionId>,
                      last: map<SessionId, nat>, bridge: map<SessionId, Poll>, now: nat)
    ensures var asks := Prompted(s, logs, handles, bridge) || Silent(s, handles, last, bridge, now);
      SessionTick(s, asks, ExitOf(s, handles, bridge), now) != s <==> Touched(s, logs, handles, last, bridge, now)
  {
  }
}

