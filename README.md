# A verified model of a multi-session agent terminal controller

The system is a terminal user interface that runs several `claude` agent processes side by
side. Each process runs in its own pseudo-terminal and belongs to a *session*. A session has a
name, a root directory, a lifecycle status (Queued, Running, NeedsInput, Done, Failed), a log
file and an optional exit code. The controller does five things:

- it keeps the session list, saves it after every change, and resets it after a restart;
- it collects each process's output into a per-session buffer of lines capped at 10 000;
- it watches the newest non-empty output line for a question and marks a session NeedsInput
  when one appears or when the session has been silent for 30 seconds;
- it tears a session down when its process exits;
- it drives the panels: session list, directory tree, file preview, log view, input bar and
  status bar.

This project models that logic in Dafny and proves what the code promises about it.

## Modules

Modules follow the source files:

| module | file | models |
|---|---|---|
| `Util` | `util.dfy` | `split`/`join`, decimal rendering, ASCII lower-casing, `Path::join`, saturating subtraction |
| `Sessions` | `session.dfy` | `src/session.rs`: statuses, glyphs, `Session::new`, the transition table, `transition_to` |
| `Logs` | `log_store.dfy` | `src/log_store.rs`: the line buffer (`LogStore` class) and the pure `AppendSpec` it is proved against |
| `NeedsInput` | `needs_input.dfy` | `src/needs_input.rs`: the eight patterns, each as a declarative meaning plus a recogniser proved equal to it |
| `History` | `input_history.dfy` | `src/input_history.rs`: the `InputHistory` class |
| `Persistence` | `persistence.dfy` | `src/persistence.rs`: the post-load reset loop and the log header text |
| `Preview` | `file_preview.dfy` | `src/file_preview.rs`: the `FilePreview` class, load classification, scrolling, the window |
| `Tree` | `dir_tree.dfy` | `src/dir_tree.rs`: tree nodes as values, loading, flattening, toggling, reloading, the `DirTree` class |
| `TreePanel` | `dir_tree_panel.dfy` | `src/ui/dir_tree_panel.rs`: scroll offset and row text |
| `LogPanel` | `log_panel.dfy` | `src/ui/log_panel.rs`: the individual and unified views and the placeholder test |
| `StatusBar` | `status_bar.dfy` | `src/ui/status_bar.rs`: the status counters and the summary text |
| `Reconcile` | `tick.dfy` | the reconciliation tick of `src/app.rs` (`handle_pty_poll`) as a function, with per-session lemmas |
| `App` | `app.dfy` | `src/app.rs`: the `AppState` class, its key handlers, the imperative tick proved equal to `Reconcile.Tick`, `subscriptions` |

The imperative parts stay imperative:

- `AppState`, `LogStore`, `InputHistory`, `FilePreview` and `DirTree` are classes whose methods
  update fields and say what the new state is.
- The loops of `handle_pty_poll`, `append`, `load_sessions`, `load_children`, `flatten_node`,
  `toggle_node`, `reload_tree`, `render_unified`, the directory-panel row loop and the
  status-bar counters are `while` loops. Each is proved equal to a specification function.
- Lemmas about those specification functions state the properties.

The pseudo-terminal bridge is abstract. A key press receives an `Env` with:

- the clock in milliseconds;
- what a spawn would return;
- the identifier a new session would get;
- the working directory;
- the set of paths that are directories.

A poll tick receives, for each session identifier, the chunks its reader queued and the exit
status if the process has ended. Writes to terminals go into a `sent` log, and every save of the
session list goes into `saved`.

Unique session identifiers are a premise of the tick lemmas (`UniqueIds`), not an invariant of
the state. Identifiers are random version-4 UUIDs, and nothing in the code checks them.

## Model

| member | source | states |
|---|---|---|
| Sessions.Icon | src/session.rs:16-24 | every status has a one-character glyph |
| Sessions.IconInjective | src/session.rs:162-168 | the five glyphs are distinct: equal glyphs mean equal statuses |
| Sessions.NewSession | src/session.rs:43-58 | a new session is Queued with no process id, no instruction, no exit code, both timestamps at the creation time, and log file `<logs root>/<id>.log` |
| Sessions.CanTransitionTo | src/session.rs:60-75 | a move is accepted iff it is in the table of seven allowed pairs; every rejection has a non-empty reason |
| Sessions.TransitionTo | src/session.rs:77-82 | the outcome is `can_transition_to`'s; an accepted move sets the status and refreshes `updated_at`; a rejected move leaves the session exactly as it was |
| Sessions.TransitionTable | src/session.rs:60-75 | the accepted pairs are exactly Queued→Running, Running→Done/Failed/NeedsInput, NeedsInput→Running, Failed→Running and Done→Queued; no self-transition is accepted |
| Sessions.RejectionReasons | src/session.rs:68-73 | the five named rejections carry their own messages, and every other pair outside the table (self-transitions included) gets "Invalid state transition" |
| Sessions.LifecycleWalks | src/session.rs:95-123 | Queued→Running→Done→Queued, Running→NeedsInput→Running and Running→Failed→Running are each accepted at every step |
| Logs.TrimCR | src/log_store.rs:30-37 | `trim_end_matches('\r')`: the result is a prefix of the input that does not end in CR, and only CRs were cut |
| Logs.Cap | src/log_store.rs:41-44 | FIFO eviction keeps the newest `min(n, 10000)` lines, as a suffix |
| Logs.AppendBounded | src/log_store.rs:41-44 | after any append the buffer has at most 10 000 lines, and eviction drops only a prefix of the oldest lines |
| Logs.AppendGrowth | src/log_store.rs:22-38 | without eviction, k line feeds add k lines to a non-empty buffer and k+1 to an empty one; every line before the last is unchanged; the old last line is a prefix of the line at its index |
| Logs.AppendWellFormed | src/log_store.rs:22-38 | after appending, no stored line contains a line feed or ends in a carriage return |
| Logs.AppendRetained | src/log_store.rs:19-45 | appending to one buffer keeps every buffer within the cap and well formed |
| Logs.AppendConcat | src/log_store.rs:19-45 | for chunks without CR, appending two chunks one after the other equals appending their concatenation, eviction included |
| Logs.GrowConcat | src/log_store.rs:22-38 | for CR-free text, splitting and continuing twice equals doing it once on the concatenation |
| Logs.GrowCapped | src/log_store.rs:41-44 | evicting before growing the buffer loses nothing that evicting afterwards keeps |
| Logs.AppendBySplit | src/log_store.rs:22-38 | with room for every piece, an append is the first trimmed piece continuing the buffer followed by the other trimmed pieces as new lines |
| Logs.LastNonEmptyIndex | src/log_store.rs:58 | the reverse search stops at a non-empty line with only empty lines after it, or at -1 when every line is empty |
| Logs.LastNonEmpty | src/log_store.rs:55-60 | None iff every line is empty; otherwise the newest non-empty line |
| Logs.LogStore.constructor | src/log_store.rs:11-15 | the store starts with no buffers |
| Logs.LogStore.Lines | src/log_store.rs:47-52 | the retained buffer, or empty for a session never appended to |
| Logs.LogStore.LastNonEmptyLine | src/log_store.rs:55-60 | None for an absent buffer; otherwise `LastNonEmpty` of the buffer |
| Logs.LogStore.Append | src/log_store.rs:19-45 | the buffer of `id` becomes `AppendSpec` of what it was, and no other buffer changes |
| Logs.GrowLines | src/log_store.rs:22-38 | the split-and-push loop produces `Grow`: the first trimmed piece continues the last line, and every later piece is pushed trimmed |
| Logs.AppendTerminatedLine | src/log_store.rs:68-75 | one line ended by a line feed gives `[line, ""]` |
| Logs.AppendContinuesLine | src/log_store.rs:77-85 | an unterminated chunk continued by a terminated one gives `[head + tail, ""]` |
| Logs.AppendThreeLines | src/log_store.rs:87-94 | three terminated lines give the three lines and `""` |
| Logs.AppendCRLF | src/log_store.rs:103-110 | CR LF line ends give the bare lines and `""` |
| NeedsInput.Patterns | src/needs_input.rs:9-18 | the detector holds eight patterns: three literals, four word patterns and one phrase |
| NeedsInput.ScanQuestionCorrect | src/needs_input.rs:13-16 | the `.*\?` scanner succeeds iff a `?` follows with no line feed before it |
| NeedsInput.ScanSpacesQuestionCorrect | src/needs_input.rs:14-15 | the `\s*\?` scanner succeeds iff a `?` follows after only white space |
| NeedsInput.FoldedWindow | src/needs_input.rs:13-17 | the case-insensitive window comparison holds iff the lower-cased text at that position is the literal |
| NeedsInput.TryAtCorrect | src/needs_input.rs:10-17 | the recogniser for one start position accepts iff a match of the pattern starts there |
| NeedsInput.SearchCorrect | src/needs_input.rs:10-17 | trying every position from `i` succeeds iff a match starts at some position from `i` on |
| NeedsInput.IsMatch | src/needs_input.rs:23 | `is_match` holds iff some match span exists |
| NeedsInput.AnyMatch | src/needs_input.rs:23 | the `any` over a pattern list holds iff one of its patterns matches |
| NeedsInput.Check | src/needs_input.rs:22-24 | `check` holds iff one of the eight patterns matches somewhere in the text |
| NeedsInput.LiteralAnswerFlagged | src/needs_input.rs:10-12 | any text that contains `(y/n)`, `(Y/n)` or `(yes/no)` anywhere is flagged |
| NeedsInput.UpperCaseAnswerIsNoLiteral | src/needs_input.rs:10-12 | `(Y/N)` matches none of the three literals, which are case-sensitive |
| NeedsInput.QuietText | src/needs_input.rs:9-18 | a text with no `?`, no `(` and no `y`/`Y` is never flagged |
| NeedsInput.FlaggedYesNo | src/needs_input.rs:38 | "Continue? (y/n)" is flagged |
| NeedsInput.FlaggedUpperYesNo | src/needs_input.rs:39 | "Overwrite file? (Y/n)" is flagged |
| NeedsInput.FlaggedYesNoWords | src/needs_input.rs:40 | "Are you sure? (yes/no)" is flagged |
| NeedsInput.FlaggedDoYouWantTo | src/needs_input.rs:46-47 | "Do you want to proceed?" and "do you want to install this package?" are flagged |
| NeedsInput.FlaggedContinue | src/needs_input.rs:48 | "Would you like to continue?" is flagged |
| NeedsInput.FlaggedProceed | src/needs_input.rs:49 | "Shall we proceed?" is flagged |
| NeedsInput.FlaggedConfirm | src/needs_input.rs:55 | "Please confirm?" is flagged |
| NeedsInput.FlaggedAllow | src/needs_input.rs:56 | "Allow access to filesystem?" is flagged |
| NeedsInput.QuietBuildOutput | src/needs_input.rs:62-65 | "Building project...", "Test passed", "Compiling main.rs" and "" are not flagged |
| NeedsInput.QuietConfirmation | src/needs_input.rs:72-74 | "Sending confirmation email" and "This will allow faster builds" are not flagged |
| History.InputHistory.constructor | src/input_history.rs:7-12 | the history starts with no entries and the cursor at 0 |
| History.InputHistory.Push | src/input_history.rs:14-19 | a non-empty entry is appended and an empty one ignored; the cursor moves to one past the newest; `cursor <= len` is kept |
| History.InputHistory.Up | src/input_history.rs:22-29 | above 0 the cursor steps back and yields the entry it now names; at 0 it stays and yields the oldest entry, or None when empty; the entries are unchanged |
| History.InputHistory.Down | src/input_history.rs:32-40 | below the newest the cursor steps forward and yields that entry; otherwise it goes to `len` and yields None; the entries are unchanged |
| History.EmptyRecall | src/input_history.rs:52-57 | on an empty history both Up and Down yield None |
| History.EmptyEntryIgnored | src/input_history.rs:89-94 | after pushing "" Up still yields None |
| History.PushAndRecall | src/input_history.rs:59-73 | after "first" and "second", Up, Up, Up, Down, Down yield second, first, first, second, None |
| Persistence.Normalised | src/persistence.rs:10-15 | a Running or NeedsInput session becomes Queued with no process id; any other session is unchanged; the result is never active |
| Persistence.LoadSessions | src/persistence.rs:4-17 | a missing or unparsable file gives the empty list; otherwise every session is normalised in place, keeping length and order; none is left Running or NeedsInput |
| Persistence.NormalisedKeepsRecord | src/persistence.rs:10-15 | the reset touches only status and process id; Queued, Done and Failed sessions are unchanged; normalising twice is normalising once |
| Persistence.LogHeaderLines | src/persistence.rs:33-36 | for single-line values the header is exactly the four lines `# Session: <name>`, `# Directory: <path>`, `# Started: <created>`, `---`, in that order, each ended by a line feed |
| Preview.StripCR | src/file_preview.rs:54 | at most one trailing carriage return is removed |
| Preview.TextLines | src/file_preview.rs:54 | `str::lines` gives pieces without line feeds, one per line feed plus one for an unterminated last line |
| Preview.LastPieceEmpty | src/file_preview.rs:54 | the last piece of the split is empty iff the text is empty or ends with a line feed |
| Preview.TextLinesJoin | src/file_preview.rs:54 | for CR-free text, the lines joined by line feeds, plus a closing line feed when the text had one, give back the text |
| Preview.TextLinesTerminated | src/file_preview.rs:103-112 | lines written one per line feed are read back as the same lines |
| Preview.Window | src/file_preview.rs:87-90 | the window has `min(h, n - start)` lines with `start = min(scroll, n)`, and they are the lines from `start` on |
| Preview.Classify | src/file_preview.rs:27-62 | a metadata or read error shows the error, a file over 1 MiB shows its size and the limit, a zero byte in the first 8192 bytes shows the binary notice (each of these counts 1 line); otherwise the decoded text is shown with `max(1, line count)` lines |
| Preview.FilePreview.constructor | src/file_preview.rs:14-21 | nothing selected, no content, scroll and line count 0 |
| Preview.FilePreview.Load | src/file_preview.rs:23-63 | the path is selected, the scroll goes back to 0, and content and line count are those of `Classify` |
| Preview.FilePreview.Clear | src/file_preview.rs:65-70 | path and content become None; scroll and line count become 0 |
| Preview.FilePreview.ScrollUp | src/file_preview.rs:72-76 | the scroll decreases by one, never below 0; nothing else changes |
| Preview.FilePreview.ScrollDown | src/file_preview.rs:78-82 | the scroll increases by one exactly when `total > h` and `scroll + h < total`, so a step never puts `scroll + h` beyond the line count |
| Preview.FilePreview.VisibleContent | src/file_preview.rs:84-94 | with no content it returns the "no file selected" placeholder; otherwise the window of `h` lines at the scroll position, joined by line feeds |
| Preview.ThreeLineFile | src/file_preview.rs:103-112 | a text file of three lines without a closing line feed counts three lines |
| Preview.BinaryFile | src/file_preview.rs:167-175 | the bytes 0, 1, 2, 255 are shown as a binary file |
| Preview.ScrollNavigation | src/file_preview.rs:114-131 | on a 100-line file with a window of 10, down, up, up give scrolls 1, 0, 0 |
| Preview.WindowScroll | src/file_preview.rs:147-165 | with a window of three, the content starts at the first line, and after one step down at the second |
| Tree.LexLeTotal | src/dir_tree.rs:162-163 | the name order is total |
| Tree.LexLeTrans | src/dir_tree.rs:162-163 | the name order is transitive |
| Tree.InsertByName | src/dir_tree.rs:162-163 | inserting adds exactly the one node, as a multiset |
| Tree.InsertByNameSorted | src/dir_tree.rs:162-163 | inserting into a sorted list keeps it sorted by lower-cased name |
| Tree.SortByName | src/dir_tree.rs:162-163 | `sort_by` keeps the same nodes: the result is a permutation of the input |
| Tree.SortByNameSorted | src/dir_tree.rs:162-163 | `sort_by` gives a list sorted by lower-cased name |
| Tree.LoadChildren | src/dir_tree.rs:131-168 | the partition loop and the two sorts compute `Loaded`: files and nodes at depth 5 are unchanged; an unreadable directory gets no children; otherwise the shown directories come first, then the shown files, each group sorted |
| Tree.LoadedChildren | src/dir_tree.rs:131-166 | for a readable directory above the depth limit, all directories come before all files, each group is sorted by lower-cased name, and every child is one level deeper, collapsed, unloaded and not hidden unless hidden entries are shown |
| Tree.LoadedMembers | src/dir_tree.rs:139-160 | the loaded children are exactly the child nodes of the listing entries that are shown |
| Tree.LoadedLeavesLeaves | src/dir_tree.rs:132-134 | files and nodes at depth 5 or more load nothing |
| Tree.LoadedWellDepth | src/dir_tree.rs:151-166 | after loading, every child is still exactly one level below its parent |
| Tree.FlattenNode | src/dir_tree.rs:170-186 | the recursive push produces `out` followed by the pre-order rows of the subtree |
| Tree.FlattenedShape | src/dir_tree.rs:170-186 | a visible node's own row comes first; rows follow it iff it is expanded and has a visible child; a collapsed node is one row |
| Tree.FlattenedNoHidden | src/dir_tree.rs:171-173 | with hidden entries not shown, no row below the root has a name starting with `.` |
| Tree.Toggled | src/dir_tree.rs:188-204 | a failed search changes nothing; only the `children` of the searched nodes can change, and the node keeps its path, depth, name and kind |
| Tree.ToggleNode | src/dir_tree.rs:188-204 | the recursive search with early exit computes `Toggled` |
| Tree.ToggledFound | src/dir_tree.rs:188-204 | the search succeeds iff the path names the node or a node in an expanded subtree |
| Tree.ToggledFirstMatch | src/dir_tree.rs:196-203 | only expanded subtrees are searched; the first child that holds the path is toggled; children before it hold no match and are unchanged, and so are children after it |
| Tree.ToggleTwice | src/dir_tree.rs:188-195 | toggling the same path twice restores the tree when the node it names already has children |
| Tree.ToggledWellDepth | src/dir_tree.rs:188-204 | toggling keeps every child one level below its parent |
| Tree.ReloadTree | src/dir_tree.rs:206-213 | reloading the children and then each child in place computes `Reloaded` |
| Tree.ReloadedCases | src/dir_tree.rs:206-213 | an expanded directory above the depth limit gets freshly loaded, collapsed children; any other node is unchanged |
| Tree.ReloadedWellDepth | src/dir_tree.rs:206-213 | reloading keeps depths consistent and the node's path, depth, name and kind |
| Tree.ShownCountHidden | src/dir_tree.rs:142-144 | with hidden entries not shown, a listing with a hidden name shows fewer entries than it has |
| Tree.FlattenedLoaded | src/dir_tree.rs:131-186 | a freshly loaded, expanded directory flattens to its own row plus one row per shown listing entry |
| Tree.DirTree.Empty | src/dir_tree.rs:42-49 | the empty tree has no root, no rows, the cursor at 0 and hidden entries not shown |
| Tree.DirTree.constructor | src/dir_tree.rs:31-40 | for a directory, the root is loaded and expanded with the cursor on it; otherwise the tree is empty |
| Tree.DirTree.SetRoot | src/dir_tree.rs:51-70 | for a directory, a fresh expanded root with its children loaded, the cursor at 0 and the rows rebuilt; for anything else, no change |
| Tree.DirTree.RebuildFlat | src/dir_tree.rs:76-81 | the rows become the flattening of the current tree; nothing else changes |
| Tree.DirTree.CursorUp | src/dir_tree.rs:83-87 | the cursor moves up one row and never goes below 0 |
| Tree.DirTree.CursorDown | src/dir_tree.rs:89-93 | the cursor moves down one row only while a row is below it, so a cursor on a row stays on a row |
| Tree.DirTree.SelectedPath | src/dir_tree.rs:95-97 | there is a path iff the cursor is on a row, and it is that row's path |
| Tree.DirTree.SelectedIsDir | src/dir_tree.rs:99-104 | true iff the cursor is on a row and that row is a directory |
| Tree.DirTree.Toggle | src/dir_tree.rs:106-117 | on a directory row the node with that path is toggled and the rows rebuilt; on a file row or past the last row nothing changes |
| Tree.DirTree.ToggleHidden | src/dir_tree.rs:119-128 | the flag flips, the tree is reloaded under the new flag, the rows are rebuilt, and the cursor is clamped to `max(0, rows - 1)` |
| Tree.RootRowFirst | src/dir_tree.rs:76-81 | with a root, the first row is the root's own: a directory at depth 0 |
| Tree.EmptyTree | src/dir_tree.rs:220-225 | an empty tree has no rows and no selected path |
| Tree.LoadsDirectory | src/dir_tree.rs:227-237 | a directory with two entries that are not hidden gives at least three rows, the first a directory |
| Tree.HiddenFilesToggle | src/dir_tree.rs:254-266 | showing hidden entries adds rows when the root holds a hidden entry |
| Tree.CollapseAndExpand | src/dir_tree.rs:268-286 | toggling the root collapses it to fewer rows, and toggling again restores the row count |
| Tree.CursorNavigation | src/dir_tree.rs:288-306 | down, up, up move the cursor 0→1→0→0 |
| TreePanel.ScrollOffset | src/ui/dir_tree_panel.rs:28-32 | for `h > 0`, `offset <= cursor < offset + h`, so the cursor row is shown; the offset is 0 while the cursor fits |
| TreePanel.RowIcon | src/ui/dir_tree_panel.rs:36-44 | `- ` for an expanded directory, `+ ` for a collapsed one, two spaces for a file |
| TreePanel.Indent | src/ui/dir_tree_panel.rs:35 | two spaces per level of depth |
| TreePanel.RowParts | src/ui/dir_tree_panel.rs:35-46 | a row reads back as the marker, `2·depth` spaces, the icon and the name; the marker is `>` iff the row is selected |
| TreePanel.Rows | src/ui/dir_tree_panel.rs:34-48 | at most `h` rows, each the row of the entry at `offset + k`, marked iff that index is the cursor |
| TreePanel.RowsMarker | src/ui/dir_tree_panel.rs:35-45 | only the cursor row carries `>`, and it is among the rows whenever the cursor is on an entry and `h > 0` |
| TreePanel.BuildRows | src/ui/dir_tree_panel.rs:34-48 | the skip/take loop produces `Rows` |
| TreePanel.RenderText | src/ui/dir_tree_panel.rs:18-49 | an empty tree renders only the placeholder; otherwise the rows joined by line feeds |
| LogPanel.IndividualText | src/ui/log_panel.rs:29-40 | with no selected session, or an empty log, a placeholder; otherwise the last `min(h, n)` lines joined by line feeds |
| LogPanel.TaggedConcat | src/ui/log_panel.rs:48-52 | tagging distributes over concatenation, so line order is kept |
| LogPanel.TaggedMembers | src/ui/log_panel.rs:48-52 | the tagged lines are exactly the non-empty lines prefixed with `[name] ` |
| LogPanel.UnifiedConcat | src/ui/log_panel.rs:45-53 | the unified lines distribute over the session list, so session order is kept |
| LogPanel.UnifiedMembers | src/ui/log_panel.rs:45-53 | every unified line is a non-empty line of some session prefixed with that session's name |
| LogPanel.RenderUnified | src/ui/log_panel.rs:42-61 | the nested loops and the window produce `UnifiedText`: the placeholder, or the last `min(h, n)` unified lines |
| LogPanel.PlaceholderStyle | src/ui/log_panel.rs:21-25 | both placeholders are styled as placeholders, and so is an individual view whose first shown line starts with `(` |
| LogPanel.UnifiedNotPlaceholder | src/ui/log_panel.rs:21-60 | a unified view with lines is never styled as a placeholder |
| LogPanel.Render | src/ui/log_panel.rs:8-27 | the content is that of the current mode, and it is styled as a placeholder iff it starts with `(` |
| StatusBar.CountOf | src/ui/status_bar.rs:17-25 | a counter never exceeds the number of sessions |
| StatusBar.CountStatuses | src/ui/status_bar.rs:11-25 | each counter equals the number of sessions with its status, and the five add up to the number of sessions |
| StatusBar.CountsSum | src/ui/status_bar.rs:17-25 | the five per-status counts add up to the number of sessions |
| StatusBar.Fields | src/ui/status_bar.rs:27-30 | the summary has six fields |
| StatusBar.SummaryFields | src/ui/status_bar.rs:27-30 | the summary splits at its bars into Running, Queued, Done, Error (Failed), Input (NeedsInput) and the key hints, in that order, and each count reads back from its field |
| Reconcile.ToI32 | src/app.rs:420 | `code as i32`: the same 32 bits read as two's complement |
| Reconcile.Actives | src/app.rs:339-346 | the entries are the Running and NeedsInput sessions, with their status at the start of the tick |
| Reconcile.ActivesEmpty | src/app.rs:339-346 | there are no entries iff no session is Running or NeedsInput |
| Reconcile.ActiveEntry | src/app.rs:339-346 | with distinct identifiers, a session has an entry iff it is active, and that entry carries its status |
| Reconcile.DrainedLogsAt | src/app.rs:351-360 | a log grows by its chunks iff its session has an entry, a handle and output; otherwise it is unchanged |
| Reconcile.DrainedClockAt | src/app.rs:362-363 | the output clock is set to now iff the log grew, and is otherwise as before |
| Reconcile.DrainedExitAt | src/app.rs:375-378 | the exit recorded for a session is its handle's iff it has an entry and a handle |
| Reconcile.DrainedDetectedAt | src/app.rs:362-372 | an entry is detected iff it was Running, its log grew, and the newest non-empty line is flagged |
| Reconcile.DrainedFinished | src/app.rs:375-378 | the exits seen have distinct identifiers, each belonging to an entry |
| Reconcile.TimedOutAt | src/app.rs:382-392 | an identifier is timed out iff its entry was Running and its last output lies strictly more than 30 s in the past |
| Reconcile.FindIndex | src/app.rs:397-410 | `find` returns the first session with the identifier, or None when there is none |
| Reconcile.MarkedAt | src/app.rs:394-403 | exactly the Running sessions whose identifier was detected move to NeedsInput, once however often detected; the flag is set iff some session moved |
| Reconcile.Finished | src/app.rs:410-422 | a finished session goes from NeedsInput through Running, ends Done on success and Failed otherwise, keeps the cast exit code, and has no process id |
| Reconcile.FinishAllAt | src/app.rs:406-425 | every session with an exit is finished by that exit and every other session is unchanged |
| Reconcile.TickPerSession | src/app.rs:337-432 | per session: it becomes its reference `SessionTick` (asked to wait iff it prompted or fell silent, finished iff its process ended); its log grows iff it is drained with output; its handle and clock go iff its process ended |
| Reconcile.TickOutcomes | src/app.rs:339-425 | a session that is not Running or NeedsInput is not drained, moved or torn down; one that prompted or fell silent and did not exit ends NeedsInput; a drained session with output has its clock reset; one that exited ends Done or Failed with the exit code, no process, no handle and no clock |
| Reconcile.DetectedAt | src/app.rs:362-403 | a Running session is marked for NeedsInput iff it prompted or fell silent |
| Reconcile.ExitAt | src/app.rs:375-378 | the recorded exit is the handle's for a drained session and none otherwise |
| Reconcile.TickChanged | src/app.rs:395-429 | the tick saves iff it moved or tore down some session, which is exactly when the session list it leaves differs from the one before |
| Reconcile.TouchedChanges | src/app.rs:395-425 | a session is moved or torn down iff the tick changes it |
| Reconcile.TouchedStatus | src/app.rs:395-425 | the per-session reference changes a session iff the session is moved or torn down |
| App.PanelCycle | src/app.rs:29-48 | `prev` undoes `next` and `next` undoes `prev`, and five steps of `next` visit all five panels and come back |
| App.Pop | src/app.rs:275 | `pop` removes the last character, if any |
| App.SpawnStatus | src/app.rs:293-309 | a successful spawn leaves every session Running except a Done one; a failed spawn leaves every session Failed except a Done one |
| App.AppState.constructor | src/app.rs:102-122 | the sessions are the loaded ones, normalised one by one and none Running or NeedsInput (an empty list without a readable file); the first is selected, the session list focused, no handles, no logs and no dialog |
| App.AppState.CtrlC | src/app.rs:146-159 | the interrupt is written, and the app does not quit, iff the selected session is Running or NeedsInput and has a handle; otherwise it quits and writes nothing; nothing else changes (`Interrupted`) |
| App.AppState.SessionListKey | src/app.rs:197-254 | `SessionListDone`: Up and Down move the selection within the list; `n` opens the create dialog cleared; `d` deletes as `Deleted` says, with its exact new selection; `r` opens rename with the current name; `m` toggles as `ToggledSelection` says; each key leaves the dialogs, focus, input, log view and terminal writes it does not name unchanged, and other keys change nothing |
| App.AppState.DeleteSelected | src/app.rs:215-226 | `Deleted`: the selected session, its handle and its output time are removed; the selection moves up one exactly when it was on the last row and not the first, and is otherwise kept; the list is saved; with no sessions nothing changes; focus, input and dialogs are untouched |
| App.AppState.ToggleSelected | src/app.rs:233-250 | `ToggledSelection`: Running becomes NeedsInput; NeedsInput becomes Running with its clock reset; either change is saved; any other status is left alone; handles, selection, focus and dialogs are untouched |
| App.AppState.LogKey | src/app.rs:256-267 | `LogDone`: `t` switches between the individual and the unified view, and no other field changes |
| App.AppState.InputKey | src/app.rs:269-335 | `InputDone`: characters extend the input and Backspace pops it; Escape focuses the session list; Enter with text and a session clears the input and has exactly `Submit`'s effect with that text (`SubmitDone`); in every other case the sessions, handles, clocks, log and terminal writes are unchanged |
| App.AppState.Submit | src/app.rs:277-327 | `SubmitDone`: the spawn (see `SpawnSelected`), then a NeedsInput session resumes Running with its clock reset and is saved, then the input plus a line feed is written to the handle, if there is one; a failed spawn sends nothing; a Done session keeps Done with a live handle; no other session, the focus or a dialog changes |
| App.AppState.SpawnSelected | src/app.rs:285-314 | success: the handle is recorded, the clock reset, the session moved to Running with its process id and instruction set, and saved; failure: the error line is appended to the log, the session moved to Running then Failed as the table allows, and saved |
| App.AppState.Resume | src/app.rs:317-326 | with a handle in place, a NeedsInput session resumes Running with its clock reset and is saved, and the text plus a line feed is written to the handle; no other session changes |
| App.AppState.SpawnFailure | src/app.rs:302-312 | the error line is appended to the session's log, the session is moved to Running then Failed as the lifecycle allows, and the list is saved; handles and clocks are untouched |
| App.AppState.CreateDialog | src/app.rs:434-480 | `CreateDone`: characters and Backspace edit the name or the path by step; Escape closes; Enter advances from name to path, and on the path step creates the session (`Created`); the rename dialog, focus and input are untouched |
| App.AppState.FinishCreate | src/app.rs:443-460 | `Created`: the empty name becomes `session-<n+1>` and the empty path the working directory; for a directory a new Queued session is appended, selected and saved, otherwise the list is kept; the dialog closes either way |
| App.AppState.RenameDialog | src/app.rs:482-505 | `RenameDone`: characters and Backspace edit the name; Escape closes; Enter renames the selected session to a non-empty name, saves, and closes; nothing else changes |
| App.AppState.HandleKey | src/app.rs:128-195 | a release changes nothing; an open create or rename dialog gets the key with exactly `CreateDone`/`RenameDone`; then Ctrl+C (`Interrupted`), `q` outside the input (save and quit), Ctrl+H/K back, Ctrl+L/J and Tab forward (`PanelMoved`); any other key has the focused panel's effect (`SessionListDone`, `LogDone`, `InputDone`), and none on the file panels; only the input panel's Enter touches the log; the app quits exactly on `q` or on a Ctrl+C with nothing to interrupt |
| App.AppState.AppendChunks | src/app.rs:357-360 | every chunk is appended to the session's log, in order, and no other log changes |
| App.AppState.DrainHandles | src/app.rs:351-380 | the drain loop leaves the logs, clock, detected list and exits that `Drained` gives |
| App.AppState.DrainEntry | src/app.rs:352-379 | one round of the drain loop is `DrainOne` |
| App.AppState.RunTick | src/app.rs:337-425 | the four loops compute `Tick` of the state before: sessions, logs, clock, handles without the finished ones, and the change flag |
| App.AppState.PollTick | src/app.rs:337-432 | the state after is `Tick` of the state before, and the session list is saved iff the tick changed it; selection, panel, input and dialogs are unchanged |
| App.AppState.PollSubscribed | src/app.rs:575-588 | the 50 ms poll runs iff some session is Running or NeedsInput |
| App.ScanTimeouts | src/app.rs:382-392 | the timeout loop computes `TimedOut` |
| App.MarkSessions | src/app.rs:394-403 | the marking loop computes `Marked` |
| App.FinishSessions | src/app.rs:406-425 | the teardown loop finishes the sessions as `FinishAll` does and drops the handles and clocks of every finished identifier |
| App.FinishEntry | src/app.rs:407-423 | one exit is `FinishOne` |
| Util.Split | src/log_store.rs:22 | `split` gives one more piece than there are separators, none holding a separator |
| Util.JoinSplit | src/log_store.rs:22 | joining the pieces with the separator gives back the text |
| Util.SplitJoin | src/ui/status_bar.rs:27-30 | splitting the join of separator-free pieces gives back the pieces |
| Util.NatToStringRoundTrip | src/ui/status_bar.rs:27-30 | the decimal rendering of a count reads back as the count |
| Util.JoinPath | src/session.rs:45 | `Path::join`: an absolute name replaces the directory, otherwise a `/` goes between them |
| Util.Tail | src/ui/log_panel.rs:35-36 | the last `min(h, n)` elements, in order |

## Left out

- The pseudo-terminal manager (`src/pty_manager.rs`) is not part of this model. It uses OS pseudo-terminals, a reader thread and a channel. The model replaces it with an abstract bridge: per tick, a map from identifier to the queued chunks and an optional exit, where a missing entry gives no chunks and no exit. A spawn result comes with each key press. `send_input` and `send_sigint` are recorded in `sent`, and their write failures are ignored, as in the code.
- Wall-clock time (`Instant::now`, `Utc::now`, the `chrono` rendering of `created_at`) is a natural-number millisecond clock passed in. The rendered start time of the log header is a string parameter.
- `String::from_utf8_lossy`: chunks and file contents arrive already decoded, and the decoded text of a read is an input next to its bytes.
- The regex engine is replaced by hand-written recognisers of the eight patterns. `\b` uses ASCII word characters, and `(?i)` is ASCII case folding. That is exact for these letters but not Unicode-aware in general.
- `to_lowercase` in the directory sort is ASCII lower-casing, so names with non-ASCII capitals may sort differently from the code.
- File and JSON I/O is not modelled: `save_sessions`, `append_log`, the file half of `write_log_header` and serde. A save is recorded in `saved`. Loading takes the parse result (`FileRead`). The directory listings, metadata and file reads are data, and "path is a directory" is membership in `Env.dirs`.
- `src/config.rs`, `src/br_poller.rs` and `src/main.rs` are not part of this model. The timeout is the default 30 s as a constant.
- All rendering is left out: `view`, the dialog renderers, theme, session list, input bar and file panel. Only the text computations of the log panel, the directory panel and the status bar are modelled.
- Integer widths are not modelled for the `u32` status counters and the `usize` indices, which are unbounded. Exit codes are a 32-bit newtype (`Reconcile.u32`), and the `code as i32` cast is written out.
- Tree nodes are values, not mutable records. `toggle_node` and `reload_tree` return the updated node instead of mutating it in place.
- `Session::transition_to` is a function returning the outcome and the new session, because sessions are values held in a sequence.
- The tick methods (`RunTick`) work on local copies of the session list, handles and clock, and `PollTick` assigns them at the end. Each loop reads the copies left by the loops before it, so the final state is the same as with the code's in-place updates.
- `InputHistory` is modelled on its own. `AppState` (src/app.rs:72-93) has no history field, and no key handler uses it.
- The parse result `FileRead` is more general than the file format: `pty_pid` is not serialised (src/session.rs:33-34), so a parsed session never carries a process id, but `FileRead.parsed` may hold one. Loading clears it only for the sessions it resets to Queued, and no stated property depends on it.
- `reset_cursor` is test-only code and is not modelled.
- `StatusBar.SummaryText` is the six fields joined by `|`, which is how the format string lays out its five ` | ` separators. Its colours are left out.
- Logs.AppendConcat: split invariance is proved only for chunks without carriage returns. Trimming happens per chunk, so `"a\r"` then `"b\n"` gives `"ab"`, while one chunk `"a\rb\n"` keeps `"a\rb"`.
- App.AppState.Submit: a Done session on Enter gets a live handle while its status stays Done. The tick never polls that handle, because it drains only Running and NeedsInput sessions. The model states this outcome and claims no invariant tying handles to active statuses.
- Reconcile.TickPerSession: this lemma, like the other tick lemmas, assumes distinct session identifiers. The code relies on random UUIDs and does not check them.
