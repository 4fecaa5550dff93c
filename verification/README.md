# A verified model of Strukt's editor core, file watching and file scanning

Strukt is a desktop code workspace. This project models the parts of it whose
correctness rests on arithmetic, ordering and asynchrony, and proves what they
promise. A member of a class follows the source's own updates in place and is
proved equal to a function of the old state; the properties are then lemmas about
that function, over every input or every run.

| file | what it models |
|---|---|
| `Transactions`, `TextBuffer` | sorted edit transactions, their atomic application to a character buffer, the computed inverse |
| `History` | bounded undo and redo stacks with coalesced typing and eviction |
| `Document`, `DocumentProperties`, `DocumentSafety` | the document state machine under edits, saves, disk changes, reload, recovery and the read-only upgrade |
| `EditorWorkspace`, `WorkspaceProperties` | tabs, the one replaceable preview, focus, close decisions |
| `Caret` | the mapping between line/column positions and character offsets, and the transactions of the editing keys |
| `EventChannel` | the lossy bounded channel between the file watcher and its reader, as atomic steps in any interleaving |
| `Utf8`, `ReadDocument` | reading and classifying a file in arbitrary pieces, with a carry for characters the pieces cut |
| `Paths`, `Discovery`, `DiscoveryProperties`, `DiscoveryVisibility`, `AcceptedCursor` | the limited depth-first listing of a workspace, what it shows and what stops it, and the one-pass merge that marks ignored entries |
| `QuickOpen`, `Search` | greedy path scores and their ranking; content search within a byte budget |
| `Scheduler` | the coalescing file-refresh scheduler and the serialised persistence scheduler, which block each other |
| `LanguageCoordinator` | which language-server generations are discovered, granted a process and become ready |
| `Sorting`, `Wrappers` | what the standard library's stable sort promises; `Option`, `Result` and a shared fact about sequences |

## Where the code does less than one would say of it

For each of these there is a lemma with a concrete input or run, and one that gives
the exact condition under which the code does meet the stronger statement.

- **Undo at the last revision.** `undo` and `redo` move the history entry before the
  buffer is asked to apply it. When the revision counter is exhausted the entry has
  then changed stacks although the text has not (`FailureIsAtomicIff`), and a second
  undo can answer that its range is out of bounds instead (`UndoCanGoOutOfBounds`).
  That answer is given exactly when no revision is left and a range of the entry
  ends beyond the text (`TraversalErrors`). Even then no edit is lost: the retained
  edits stay one chain through the text (`ReachableAnchored`), and until a traversal
  is refused they stay split at it (`ReachableChain`).
- **The read-only upgrade.** It starts the revisions again at zero. A save captured
  before it, at any revision, is accepted once the document has advanced that often
  since, and takes the text of that moment for the captured one
  (`UpgradeForgesCapture`, with a run for every revision and text in
  `AnyCaptureCanBeForged`); so is an edit that was prepared before it
  (`UpgradeAdmitsOldEdits`). The upgrade also drops recovered text that was never
  saved, although the document stays marked as recovered (`UpgradeDropsRecoveredText`).
- **`None` from the watcher.** A producer that is idle when the call ends is not enough
  for "nothing was lost": its flag store may have landed between the reader's swap and
  its receive (`NoneCanPrecedeTheReport`). Whatever the producer does during the call,
  everything is accounted for exactly when it was idle as the call began, or the event
  it was about to flag had already been reported (`CallAccountsForAllIff`;
  `FlagCanOutliveItsReport` reaches the second case).
- **A file that shrinks while it is opened.** If it was too large to edit at the size
  check and small enough when read, only its first `preview_bytes + 4` bytes are
  handed out, as an editable, untruncated document (`ShrunkFileIsCutShort`,
  `EditableIsWholeIff`).
- **`truncated` in a discovery report.** The limit is checked before visibility, so a
  hidden or ignored entry that is met once the list is full marks a report as
  truncated although everything shown is in it (`TruncatedThoughComplete`,
  `ScanTruncatedIff`). The path-based discovery has no such case (`DiscoverReport`).
- **`truncated` in a search result.** A budget that the last file uses up exactly marks a
  complete answer as truncated (`ExactBudgetLooksTruncated`, `CompleteIff`).
- **Positions on a last line that has an ending.** An offset anywhere past its text is
  refused, the end of the document included (`EndAfterEndingIsRefused`,
  `FailsExactlyInEndings`).
- **Finishing a discovery as ready or as starting.** `discovery_finished` takes any
  state; with these two it skips the grant, and readiness can follow without one
  (`FinishingAsReadySkipsTheGrant`, `FinishingAsStartingSkipsTheGrant`). A message keeps
  "ready only after a grant" exactly when it does not do that (`KeepsGrantsIff`,
  `AlwaysGrantedIff`); the application never does (`ReportedNeverSkips`).

## Model

| member | source | states |
|---|---|---|
| Transactions.NewSucceedsIffDisjoint | crates/strukt-editor/src/transaction.rs:57-72 | construction succeeds exactly when no two replacements overlap, in whatever order they are given |
| Transactions.NewGivesWellFormed | crates/strukt-editor/src/transaction.rs:57-72 | a constructed transaction is sorted, disjoint, a permutation of the request, and keeps several inserts at one point in the caller's order |
| Transactions.NewOfWellFormed | crates/strukt-editor/src/transaction.rs:57-72 | a list that is already sorted and disjoint is accepted unchanged |
| Transactions.PlacedIffWellFormed | crates/strukt-editor/src/buffer.rs:60-67 | the recursive placement used by the proofs is sortedness, disjointness and the bounds check together |
| Transactions.RoundTrip | crates/strukt-editor/src/buffer.rs:69-104 | the computed inverse is sorted, disjoint and in bounds, restores the exact text, and its own inverse has exactly the original ranges and texts |
| Transactions.InversePlaced | crates/strukt-editor/src/buffer.rs:73-101 | no offset of the inverse leaves the changed text, so the fallible construction after the mutation cannot fail |
| Transactions.ReplaceOnce | crates/strukt-editor/src/buffer.rs:46-105 | one replacement is one splice, and its inverse is written out |
| TextBuffers.TextBuffer.constructor | crates/strukt-editor/src/buffer.rs:22-29 | a new buffer holds the given text at the first revision |
| TextBuffers.TextBuffer.Apply | crates/strukt-editor/src/buffer.rs:46-105 | an edit lands exactly on the revision it was made for, in bounds and with a revision left; a stale one is refused first and nothing changes on any refusal; on success the text is the simultaneous substitution, the inverse leads back and the byte counts account for the growth |
| TextBuffers.ApplyAnswers | crates/strukt-editor/src/buffer.rs:54-68 | which answer means what: success if and only if current, in bounds and not exhausted, and each refusal in its turn, the out-of-bounds one naming the first range that ends beyond the text |
| TextBuffers.TextBuffer.SpliceAll | crates/strukt-editor/src/buffer.rs:92-96 | the right-to-left remove and insert loop is the simultaneous left-to-right substitution |
| TextBuffers.FindEndBeyond | crates/strukt-editor/src/buffer.rs:60-67 | the bounds check reports the first range that ends beyond the text |
| TextBuffers.BuildInverse | crates/strukt-editor/src/buffer.rs:69-91 | the accumulated signed delta yields the inverse, and the two byte totals are those of the inserted and the removed text |
| TextBuffers.BytesConserved | crates/strukt-editor/src/buffer.rs:73-104 | the two byte counts of an application account for the whole change of the document's size |
| TextBuffers.DetectLineEndingMeans | crates/strukt-editor/src/buffer.rs:117-126 | a text is classified by which of its line feeds have a carriage return before them |
| Histories.EvictKeepsLongestFit | crates/strukt-editor/src/history.rs:130-139 | eviction keeps the longest run of newest entries that both limits allow |
| Histories.RecordKeepsBudget | crates/strukt-editor/src/history.rs:85-96 | after recording, undo and redo together are within the entry and byte limits |
| Histories.UndoKeepsBudget | crates/strukt-editor/src/history.rs:103-109 | undo keeps undo and redo together within the limits |
| Histories.RedoNeverEvicts | crates/strukt-editor/src/history.rs:116-123 | redo exactly moves one entry back and evicts none; undo then returns the history |
| Histories.RedoInvertsUndo | crates/strukt-editor/src/history.rs:103-123 | redo after undo gives back the same two stacks |
| Histories.MergeFits | crates/strukt-editor/src/history.rs:163-193 | a coalesced entry leads from before the first edit to after the second, and back |
| Histories.MergeSpans | crates/strukt-editor/src/history.rs:185-192 | a coalesced entry begins at the first caret and ends at the second one's, and its byte cost is the sum |
| Histories.CoalescesExactlyWhen | crates/strukt-editor/src/history.rs:163-183 | two recorded edits merge exactly when both are typing, single insertions, and the second starts where the first one's insertion and caret end |
| Histories.CoalescingIsAssociative | crates/strukt-editor/src/history.rs:163-193 | merging does not change what merges next, on either side, and three entries give the same one however they are grouped |
| Histories.RecordKeepsChain | crates/strukt-editor/src/history.rs:85-96 | with coalescing and eviction, every undo entry still leads to its pre-text |
| Histories.UndoKeepsChain | crates/strukt-editor/src/history.rs:103-109 | undo moves an entry so that both stacks still lead where they should |
| Histories.RedoKeepsChain | crates/strukt-editor/src/history.rs:116-123 | redo does the same forward |
| Histories.History.constructor | crates/strukt-editor/src/history.rs:76-83 | a new history is empty and retains no bytes |
| Histories.History.Record | crates/strukt-editor/src/history.rs:85-96 | the stacks after recording; the retained bytes stay the sum of the undo costs |
| Histories.History.Undo | crates/strukt-editor/src/history.rs:103-109 | the newest inverse, retargeted, and one entry moved; fails only on an empty stack, unchanged |
| Histories.History.Redo | crates/strukt-editor/src/history.rs:116-123 | the newest undone edit, retargeted, and one entry moved; fails only on an empty stack, unchanged |
| Histories.History.EnforceBudget | crates/strukt-editor/src/history.rs:130-139 | the loop evicts oldest entries until both limits hold, and no further |
| Histories.History.CoalesceTyping | crates/strukt-editor/src/history.rs:163-193 | the previous entry is extended exactly when the new one continues its typing, from the first caret to the last |
| Documents.Document.constructor | crates/strukt-editor/src/document.rs:90-107 | an opened document is clean, at the first revision, with an empty history |
| Documents.Document.UpgradeReadOnly | crates/strukt-editor/src/document.rs:144-154 | a read-only document starts again from the full text; an editable one is untouched |
| Documents.Document.Edit | crates/strukt-editor/src/document.rs:161-187 | the refusals in order, and otherwise the applied text, the recorded entry and the refreshed status |
| Documents.Document.Undo | crates/strukt-editor/src/document.rs:189-200 | the history moves first, then the inverse is applied |
| Documents.Document.Redo | crates/strukt-editor/src/document.rs:202-207 | the history moves first, then the edit is applied again |
| Documents.Document.CompleteSave | crates/strukt-editor/src/document.rs:214-225 | a current save makes the text the baseline; a stale one changes nothing |
| Documents.Document.ObserveDiskChange | crates/strukt-editor/src/document.rs:233-263 | a clean document takes the disk's text, any other goes into conflict |
| Documents.Document.ObserveMissing | crates/strukt-editor/src/document.rs:270-274 | a current event marks the document as missing |
| Documents.Document.ReloadFromDisk | crates/strukt-editor/src/document.rs:282-314 | a conflict's disk text is taken as one recorded edit and becomes the baseline |
| Documents.Document.KeepEditing | crates/strukt-editor/src/document.rs:322-328 | a conflict is left for the dirty state |
| Documents.Document.RestoreRecovery | crates/strukt-editor/src/document.rs:335-352 | the recovered text is shown, flagged, and starts a new history |
| Documents.Document.MarkRecovered | crates/strukt-editor/src/document.rs:354-359 | the flag is set and a clean document becomes dirty |
| Documents.Document.IsRecoverable | crates/strukt-editor/src/document.rs:367-369 | recovered, or in any state but clean |
| Documents.Document.RefreshDirtyStatus | crates/strukt-editor/src/document.rs:387-395 | a clean or dirty document becomes clean exactly when its text is the baseline; conflict and missing stay |
| DocumentProperties.StepKeepsInv | crates/strukt-editor/src/document.rs:161-359 | every event, failed ones included, keeps: a clean document shows its saved text, the history is within budget, and while revisions are left every undo and redo entry leads where it should |
| DocumentProperties.Reachable | crates/strukt-editor/src/document.rs:90-359 | the same after every run from opening a document |
| DocumentProperties.ReachableWithinBudget | crates/strukt-editor/src/history.rs:5-6 | after every run at most 10,000 edits and 64 MiB of text are retained for undo and redo together |
| DocumentProperties.StepKeepsChain | crates/strukt-editor/src/document.rs:161-359 | at every revision, the last included, each undo entry still leads to its pre-text and each redo entry forward, unless the event is a traversal that moves an entry and is refused |
| DocumentProperties.ReachableChain | crates/strukt-editor/src/document.rs:90-359 | the same after every run from opening a document in which no traversal was refused |
| DocumentProperties.StepKeepsAnchor | crates/strukt-editor/src/document.rs:161-359 | at every revision, even when a traversal is refused, the retained edits stay one chain through the text |
| DocumentProperties.ReachableAnchored | crates/strukt-editor/src/document.rs:90-359 | the same after every run from opening a document |
| DocumentProperties.UndoFailsOnlyWhenEmpty | crates/strukt-editor/src/document.rs:189-207 | with revisions left, undo and redo fail only with nothing to undo or redo |
| DocumentProperties.TraversalSucceedsIff | crates/strukt-editor/src/document.rs:189-207 | undo and redo succeed exactly when there is an entry and a revision left |
| DocumentProperties.TraversalErrors | crates/strukt-editor/src/document.rs:189-207 | the only refusals of undo and redo; out of bounds exactly when no revision is left and the moved entry ends beyond the text |
| DocumentProperties.FailureIsAtomicIff | crates/strukt-editor/src/document.rs:161-359 | a failed event changes nothing unless it is an undo or redo with an entry to move, which happens only at the last revision |
| DocumentProperties.UndoCanGoOutOfBounds | crates/strukt-editor/src/document.rs:189-200 | a run from opening a file after which the second undo at the last revision answers that its range is out of bounds |
| DocumentProperties.RevisionsCanBeSpent | crates/strukt-editor/src/document.rs:233-263 | a clean document without history reaches every later revision, otherwise unchanged, by disk changes that repeat its text |
| DocumentProperties.UndosReach | crates/strukt-editor/src/document.rs:189-200 | `k` undos walk the text back over the last `k` undo boundaries |
| DocumentProperties.UndosThenRedos | crates/strukt-editor/src/document.rs:189-207 | `k` undos and `k` redos return the text, the history, the baseline and the status |
| DocumentProperties.ReachableUndosThenRedos | crates/strukt-editor/src/document.rs:161-314 | the same after every run: through coalesced typing, evictions, saves and reloads |
| DocumentProperties.EditThenUndo | crates/strukt-editor/src/document.rs:161-200 | undo after an edit returns to before it, or to before the typing it continued |
| DocumentProperties.TypingLeavesOneEntry | crates/strukt-editor/src/history.rs:85-193 | any run of typed characters adds exactly one undo entry, for the whole run, to what the budget keeps |
| DocumentProperties.TypingIsOneUndo | crates/strukt-editor/src/history.rs:85-193 | one undo leads to the text before the first character of the run, and one redo back to all of it |
| DocumentProperties.ReloadThenUndo | crates/strukt-editor/src/document.rs:276-314 | reloading a conflict leaves one undo boundary back to the local text, when the two texts fit the byte budget |
| DocumentSafety.StaleEventsChangeNothing | crates/strukt-editor/src/document.rs:376-385 | a save or disk event for another revision changes nothing and is reported as stale |
| DocumentSafety.UnsavedTextSurvives | crates/strukt-editor/src/document.rs:214-274 | in every run, text that differs from the baseline is never replaced by a disk change, a missing file or a save |
| DocumentSafety.DiskChangeOutcomes | crates/strukt-editor/src/document.rs:233-263 | a current disk change is taken exactly when the document is clean, and otherwise recorded as a conflict |
| DocumentSafety.StepRevision | crates/strukt-editor/src/document.rs:144-359 | apart from the read-only upgrade, a step keeps revision and text, or takes the next revision |
| DocumentSafety.RevisionFixesText | crates/strukt-editor/src/document.rs:161-359 | over every run without the upgrade, the same revision means the same text |
| DocumentSafety.SaveRecordsCapturedText | crates/strukt-editor/src/document.rs:214-226 | a save is accepted exactly when no edit came between, and then records the captured text |
| DocumentSafety.EditLandsOnItsText | crates/strukt-editor/src/document.rs:161-187 | an edit prepared on a document and offered after any events is accepted exactly when the revision, and so the text, is still the one it was prepared on; otherwise it is refused and changes nothing |
| DocumentSafety.ReportsKeepTheRest | crates/strukt-editor/src/document.rs:214-274 | the whole effect of a current save, disk change or missing file: baseline, warning, or new text with a new history one revision later |
| DocumentSafety.EditingKeepsWarnings | crates/strukt-editor/src/document.rs:387-395 | an edit, undo or redo keeps a conflict, its disk text included, and keeps a missing file missing |
| DocumentSafety.EditingComparesWithBaseline | crates/strukt-editor/src/document.rs:387-395 | otherwise a successful one ends clean exactly when the text is the saved one; the baseline and the recovered flag stay |
| DocumentSafety.ConflictEndsIff | crates/strukt-editor/src/document.rs:144-359 | the exact list of events that end a conflict; any other keeps its disk text, but for a newer disk change |
| DocumentSafety.ConflictLastsIff | crates/strukt-editor/src/document.rs:144-359 | over every run a conflict lasts exactly while none of those happens, and it offers the newest disk text reported |
| DocumentSafety.MissingEndsIff | crates/strukt-editor/src/document.rs:144-359 | the exact list of events after which a document is no longer missing |
| DocumentSafety.WaysOutOfConflict | crates/strukt-editor/src/document.rs:282-328 | keeping the local text changes only the status; reloading shows the disk's text and takes its revision as the baseline |
| DocumentSafety.RecoveryIsMarked | crates/strukt-editor/src/document.rs:335-359 | recovered text is shown, flagged and unsaved whatever the status was; only spent revisions refuse it |
| DocumentSafety.UpgradeReopens | crates/strukt-editor/src/document.rs:144-154 | the upgrade is a new opening that remembers the recovered flag, and does nothing to an editable document |
| DocumentSafety.UpgradeForgesCapture | crates/strukt-editor/src/document.rs:144-154 | across the upgrade, a save captured at any revision is accepted exactly when the document has since advanced that often, and records the text of that moment |
| DocumentSafety.UpgradeAdmitsOldEdits | crates/strukt-editor/src/document.rs:144-187 | across the upgrade, an edit prepared at any revision is accepted exactly when the document has since advanced that often and the ranges fit |
| DocumentSafety.AnyCaptureCanBeForged | crates/strukt-editor/src/document.rs:144-263 | for every captured revision and every other text, a run in which the save is accepted with that text |
| DocumentSafety.UpgradeDropsRecoveredText | crates/strukt-editor/src/document.rs:144-154 | the upgrade replaces recovered text without an undo boundary and leaves the recovered flag set |
| EditorWorkspaces.DocumentIds.FetchAdd | crates/strukt-editor/src/document.rs:97-97 | the counter hands out each id once |
| EditorWorkspaces.EditorWorkspace.constructor | crates/strukt-editor/src/tabs.rs:54-61 | a new workspace is empty |
| EditorWorkspaces.EditorWorkspace.Open | crates/strukt-editor/src/tabs.rs:69-107 | an open path is focused, and pinned or upgraded as asked; a new one replaces the preview as asked, with an id no open document has |
| EditorWorkspaces.EditorWorkspace.Edit | crates/strukt-editor/src/tabs.rs:109-125 | the one document changes as the document's own edit says, and a successful edit pins it |
| EditorWorkspaces.EditorWorkspace.Undo | crates/strukt-editor/src/tabs.rs:127-135 | the one document is undone, and pinned as the source says |
| EditorWorkspaces.EditorWorkspace.Redo | crates/strukt-editor/src/tabs.rs:137-145 | the one document is redone, and pinned as the source says |
| EditorWorkspaces.EditorWorkspace.CompleteSave | crates/strukt-editor/src/tabs.rs:147-161 | the one document's save is completed; the other tabs and the focus stay |
| EditorWorkspaces.EditorWorkspace.Select | crates/strukt-editor/src/tabs.rs:163-173 | an open document takes the focus; an unknown id changes nothing |
| EditorWorkspaces.EditorWorkspace.PinDocument | crates/strukt-editor/src/tabs.rs:175-182 | a preview becomes an ordinary tab |
| EditorWorkspaces.EditorWorkspace.MarkRecovered | crates/strukt-editor/src/tabs.rs:184-192 | the document is flagged and pinned |
| EditorWorkspaces.EditorWorkspace.ObserveDiskChange | crates/strukt-editor/src/tabs.rs:194-212 | the document sees the disk change, and is pinned when it has become recoverable |
| EditorWorkspaces.EditorWorkspace.ObserveMissing | crates/strukt-editor/src/tabs.rs:214-226 | the document sees the missing file, and is pinned |
| EditorWorkspaces.EditorWorkspace.ReloadFromDisk | crates/strukt-editor/src/tabs.rs:228-236 | the one document reloads; the other tabs stay |
| EditorWorkspaces.EditorWorkspace.KeepEditing | crates/strukt-editor/src/tabs.rs:238-246 | the one document leaves its conflict; the other tabs stay |
| EditorWorkspaces.EditorWorkspace.RestoreRecovery | crates/strukt-editor/src/tabs.rs:248-260 | the one document shows its recovered text and is pinned |
| EditorWorkspaces.EditorWorkspace.RequestClose | crates/strukt-editor/src/tabs.rs:262-277 | a document with nothing to recover is closed, any other asks for a decision and stays |
| EditorWorkspaces.EditorWorkspace.ResolveClose | crates/strukt-editor/src/tabs.rs:279-294 | only an explicit discard closes |
| EditorWorkspaces.EditorWorkspace.Find | crates/strukt-editor/src/tabs.rs:330-335 | the position of the first document with an id |
| EditorWorkspaces.EditorWorkspace.FindPath | crates/strukt-editor/src/tabs.rs:77-81 | the position of the first document with a path |
| EditorWorkspaces.EditorWorkspace.ClearReplaceablePreview | crates/strukt-editor/src/tabs.rs:346-356 | the preview is removed if it may be replaced, and otherwise becomes an ordinary tab |
| EditorWorkspaces.EditorWorkspace.Remove | crates/strukt-editor/src/tabs.rs:358-377 | the tab goes, with its focus and preview marks moved as the source says |
| WorkspaceProperties.RespondKeepsInv | crates/strukt-editor/src/tabs.rs:69-377 | every command keeps: unique ids and paths, a focus exactly when something is open, an open preview with nothing to recover, and every document's own invariant |
| WorkspaceProperties.RunKeepsInv | crates/strukt-editor/src/tabs.rs:69-377 | so does every run of commands |
| WorkspaceProperties.FocusAfterClosing | crates/strukt-editor/src/tabs.rs:358-377 | closing the focused tab moves the focus to the one before it, or to the new first one |
| WorkspaceProperties.LeavesExactlyWhen | crates/strukt-editor/src/tabs.rs:69-377 | the exact ways in which an open document leaves: preview replacement, an unasked close, a discard |
| WorkspaceProperties.NothingUnsavedIsLost | crates/strukt-editor/src/tabs.rs:262-294 | what leaves without an explicit discard showed exactly its saved text |
| WorkspaceProperties.RecoverableLeavesOnlyByDiscard | crates/strukt-editor/src/tabs.rs:262-356 | in every run a document with something to recover leaves exactly through an explicit discard |
| WorkspaceProperties.OpenShowsThePath | crates/strukt-editor/src/tabs.rs:69-107 | opening focuses the one tab of the path, and changes an open document only by the read-only upgrade |
| WorkspaceProperties.OpenMarks | crates/strukt-editor/src/tabs.rs:77-106 | a new tab comes last and is the preview exactly when asked to be; an open one keeps its mark unless it is opened for good |
| WorkspaceProperties.UnknownIdIsRefused | crates/strukt-editor/src/tabs.rs:116-294 | a command for a document that is not open changes nothing and says so |
| WorkspaceProperties.SelectAndPin | crates/strukt-editor/src/tabs.rs:163-182 | selecting moves the focus only; pinning takes the preview mark only |
| WorkspaceProperties.ClosingAsks | crates/strukt-editor/src/tabs.rs:262-277 | closing asks first exactly when the document was recovered or is not clean, and then changes nothing |
| WorkspaceProperties.DecisionAnswers | crates/strukt-editor/src/tabs.rs:279-294 | what each decision answers; only a discard changes anything |
| WorkspaceProperties.EventsPin | crates/strukt-editor/src/tabs.rs:109-260 | a document event takes the preview mark exactly when it succeeds and is neither a save nor a disk change; other tabs and the focus stay |
| Carets.LineStartOffset | crates/strukt-app/src/editor.rs:368-380 | the length of the text before a line, or the refusal of a line that does not exist |
| Carets.PositionForOffset | crates/strukt-app/src/editor.rs:338-366 | the first line the offset lies on, and the byte column there |
| Carets.PositionRoundTrip | crates/strukt-app/src/editor.rs:324-366 | from a position to its offset and back |
| Carets.OffsetRoundTrip | crates/strukt-app/src/editor.rs:324-366 | from an offset to its position and back, on every list of lines |
| Carets.FailsExactlyInEndings | crates/strukt-app/src/editor.rs:338-366 | an offset has no position exactly past the text and inside an ending |
| Carets.EndAfterEndingIsRefused | crates/strukt-app/src/editor.rs:338-366 | the end of a one-line document that has an ending has no position |
| Carets.ActionsApply | crates/strukt-app/src/editor.rs:250-322 | every editing key gives one applicable replacement, and the caret it leaves lies in the changed text |
| Carets.ActionsRefused | crates/strukt-app/src/editor.rs:255-264 | a cursor end that is not between two characters of a line is refused whatever the action; then an action that edits nothing is |
| Carets.SelectionIsReplaced | crates/strukt-app/src/editor.rs:261-275 | typing, pasting, a new line and both deleting keys replace the selection, whichever end the caret is at, with the first line's ending for a new line; only a paste is not typing |
| Carets.CaretsAfter | crates/strukt-app/src/editor.rs:276-321 | where the deleting and shifting keys leave the caret, and which of them rebuild the surface |
| Carets.BackspaceRemoves | crates/strukt-app/src/editor.rs:276-281 | Backspace removes one character, or one whole line ending, or nothing |
| Carets.DeleteRemoves | crates/strukt-app/src/editor.rs:282-287 | Delete removes one character, or one whole line ending, or nothing |
| Carets.IndentShifts | crates/strukt-app/src/editor.rs:288-312 | indenting and unindenting change the leading spaces of the caret's line only |
| Carets.UnindentInvertsIndent | crates/strukt-app/src/editor.rs:288-312 | unindenting takes back an indent |
| Carets.TypingCoalesces | crates/strukt-app/src/editor.rs:265-265 | two typed characters make one undo entry exactly when the second is typed where the first left the caret |
| EventChannels.StepKeepsInv | crates/strukt-fs/src/watcher.rs:44-147 | every atomic step of either side keeps the accounting, whatever the other side is in the middle of |
| EventChannels.NothingIsSilentlyLost | crates/strukt-fs/src/watcher.rs:44-147 | over every interleaving: each event was delivered in order or is followed by a loss report, unless it is queued, the flag is set, a recovery is under way, or it is the one event whose failed send is about to be flagged; no report comes without a loss, and a hang-up is reported at most once |
| EventChannels.NoneAccountsForAll | crates/strukt-fs/src/watcher.rs:93-114 | with the flag clear, `None` means every event was delivered or its loss reported exactly when the producer is idle or its newest event was covered |
| EventChannels.CallAccountsForAllIff | crates/strukt-fs/src/watcher.rs:93-114 | whatever the producer does during a call that answers `None`, every event is accounted for exactly when it was idle as the call began, or the event it was about to flag had been reported |
| EventChannels.NoneCanPrecedeTheReport | crates/strukt-fs/src/watcher.rs:44-114 | an interleaving in which `None` is answered, the producer idle, with a loss still unreported |
| EventChannels.FlagCanOutliveItsReport | crates/strukt-fs/src/watcher.rs:44-147 | an interleaving in which `None` is answered with the flag raised and yet every event accounted for |
| EventChannels.EventChannel.constructor | crates/strukt-fs/src/watcher.rs:75-91 | a new channel is empty, connected and not stale |
| EventChannels.EventChannel.TrySend | crates/strukt-fs/src/watcher.rs:45-53 | an event is queued exactly when there is room, and otherwise raises the flag |
| EventChannels.EventChannel.RecoverEventLoss | crates/strukt-fs/src/watcher.rs:116-130 | a raised flag is taken down and what was queued behind the loss discarded |
| EventChannels.EventChannel.DrainObsoleteEvents | crates/strukt-fs/src/watcher.rs:132-147 | the bounded loop empties the queue, and notes a hang-up exactly when there was room left in it |
| EventChannels.EventChannel.TryRecv | crates/strukt-fs/src/watcher.rs:93-114 | a loss report before anything else, then events in order, then one report of a hang-up, then `None` |
| EventChannels.EventChannel.PollUntilNone | crates/strukt-fs/src/watcher.rs:93-114 | once the producer has stopped, polling gives exactly the answers that are due (a loss, or the queued events in order; and a hang-up not noted before) and leaves every event accounted for |
| Utf8.OkIffWellFormed | crates/strukt-fs/src/document.rs:170-182 | the library's decoder accepts exactly the octet strings of section 4 of RFC 3629 |
| Utf8.LongestValidPrefix | crates/strukt-fs/src/document.rs:203-209 | the valid length in a decoding error is that of the longest prefix of whole characters |
| Utf8.FinalError | crates/strukt-fs/src/document.rs:172-179 | an error with a length cannot be repaired by what follows |
| ReadDocuments.CarryStep | crates/strukt-fs/src/document.rs:170-180 | after each piece the carry is the cut-off last character, of at most three bytes, or the bytes so far are beyond repair |
| ReadDocuments.CarryDecides | crates/strukt-fs/src/document.rs:182-182 | at the end of the file an empty carry means well-formed |
| ReadDocuments.ReadDocument | crates/strukt-fs/src/document.rs:120-224 | however the reads split the file, the answer is that of the whole file: binary exactly with a zero byte among its first 8192, otherwise invalid exactly when it is not well formed, both without text; size and digest of the whole file; read-only and truncated exactly when too long |
| ReadDocuments.ClassifiedIsVerdict | crates/strukt-fs/src/document.rs:182-223 | the same of the answer for any file, and the one refusal: a file that shrank and was cut inside a character |
| ReadDocuments.PreviewIsLongest | crates/strukt-fs/src/document.rs:202-209 | an oversized file is shown read-only as the longest run of whole characters in its first `preview_bytes` bytes, at most three bytes short |
| ReadDocuments.EditableIsWholeIff | crates/strukt-fs/src/document.rs:128-138 | an editable result is the complete file exactly when the size taken before reading let the loop capture it |
| ReadDocuments.StableLengthIsWhole | crates/strukt-fs/src/document.rs:128-223 | a file whose length did not change since the size check is never cut short |
| ReadDocuments.ShrunkFileIsCutShort | crates/strukt-fs/src/document.rs:132-138 | a file that shrank in between is handed out cut short, editable and marked as complete |
| Discovery.IgnoredByMeans | crates/strukt-fs/src/discovery.rs:405-416 | an entry is ignored exactly when some ignore file ignores it and every one nearer to it is undecided |
| Discovery.ScanIsPrefix | crates/strukt-fs/src/discovery.rs:269-303 | the limited walk lists the first entries of the unlimited one, and all of them when it is not truncated |
| Discovery.ScanTruncatedIff | crates/strukt-fs/src/discovery.rs:271-274 | it is truncated exactly when some visit, shown or not, finds the list full |
| Discovery.ScanFailsIff | crates/strukt-fs/src/discovery.rs:262-306 | it fails exactly when an unreadable entry is reached before the list is full |
| DiscoveryProperties.VisitsParentsFirst | crates/strukt-fs/src/discovery.rs:253-329 | every listed entry is at its own depth and comes after the listed folder that holds it |
| DiscoveryProperties.VisitsAscend | crates/strukt-fs/src/discovery.rs:267-326 | depth first with sorted siblings lists paths in strictly increasing component order |
| DiscoveryProperties.ListedIffReached | crates/strukt-fs/src/discovery.rs:276-326 | an entry is listed, with its kind and flags, exactly when it and every folder above it are shown |
| Discovery.CapabilityDiscovery.WalkCapability | crates/strukt-fs/src/discovery.rs:253-329 | the recursive walk yields the limited scan of the preorder, and leaves the ignore stack as it found it |
| Discovery.DiscoverReportForRoot | crates/strukt-fs/src/discovery.rs:204-243 | a report of that walk, or the error of a root that moved or cannot be read, in the order they are checked |
| DiscoveryProperties.ReportLists | crates/strukt-fs/src/discovery.rs:204-243 | a report holds the first entries of the pruned preorder, folders first, in strictly increasing path order |
| DiscoveryProperties.UntruncatedIsComplete | crates/strukt-fs/src/discovery.rs:204-329 | a report that is not truncated holds exactly the entries that can be reached through shown folders |
| DiscoveryVisibility.ReachedMeans | crates/strukt-fs/src/discovery.rs:276-326 | an entry is reached exactly when a way leads to it on which every dotted component is allowed by the one option and every heavy or ignored one by the other, and it then states kind, depth and flags as the tree has them |
| DiscoveryVisibility.ReportHoldsWhatStands | crates/strukt-fs/src/discovery.rs:204-329 | every listed entry of every report stands so in the tree, and a report that is not truncated holds every entry that does |
| DiscoveryVisibility.ReportFailsOnlyIfBlocked | crates/strukt-fs/src/discovery.rs:262-326 | reading fails only if an entry without a type, or a shown folder that cannot be read, blocks the walk; and a complete report means nothing does |
| DiscoveryProperties.TruncatedThoughComplete | crates/strukt-fs/src/discovery.rs:271-288 | a tree whose report is truncated although it holds everything shown |
| AcceptedCursors.AcceptedCursor.constructor | crates/strukt-fs/src/discovery.rs:453-465 | a new cursor stands before the pruned walk |
| AcceptedCursors.AcceptedCursor.Contains | crates/strukt-fs/src/discovery.rs:467-494 | for targets that do not go back, the single pass answers whether the target is in the accepted walk |
| AcceptedCursors.DiscoverReport | crates/strukt-fs/src/discovery.rs:110-164 | each entry is marked by membership in the accepted walk, up to the limit, and truncated means exactly that there were more |
| AcceptedCursors.WalksAscend | crates/strukt-fs/src/discovery.rs:521-540 | what a walk with sorted siblings yields ascends, whatever is pruned, as the merge asks of both walks |
| AcceptedCursors.MergeMarksUnreached | crates/strukt-fs/src/discovery.rs:110-164 | over the two walks of one tree, an entry is marked ignored exactly when the pruned walk does not accept its path, or a component of it is heavy; it is hidden exactly with a dotted component |
| AcceptedCursors.AcceptsMeans | crates/strukt-fs/src/discovery.rs:118-140 | the pruned walk accepts a path exactly when a way leads there on which no dotted, heavy or ignored component is one its options hide |
| QuickOpens.SubsequenceScore | crates/strukt-fs/src/search.rs:93-106 | the greedy loop over byte offsets is the greedy score |
| QuickOpens.ScoreIsLeastCost | crates/strukt-fs/src/search.rs:93-106 | a query scores exactly when it is a subsequence, and the score is the least, over all embeddings, of the end of the last match less the query's bytes; an empty one costs the whole path |
| QuickOpens.QuickOpenCandidates | crates/strukt-fs/src/search.rs:65-91 | the matching files, sorted and cut |
| QuickOpens.MatchingIff | crates/strukt-fs/src/search.rs:73-83 | the candidates are exactly the offered files whose lower-cased path scores |
| QuickOpens.KeptRankFirst | crates/strukt-fs/src/search.rs:84-90 | the answer is sorted and as long as allowed, and nothing dropped ranks before anything kept |
| QuickOpens.AnswerRanks | crates/strukt-fs/src/search.rs:65-91 | only files that match, lowest score first and then by path, are answered; a match is missing only when the answer is full of ones that may stand before it |
| Searches.PiecesRejoin | crates/strukt-fs/src/search.rs:297-297 | lines and their endings make up the text again, and only the last may lack an ending |
| Searches.BoundedPreview | crates/strukt-fs/src/search.rs:343-353 | the backward search stops at the nearest character boundary that leaves room for the ellipsis |
| Searches.PreviewIsBounded | crates/strukt-fs/src/search.rs:343-353 | a preview is valid text of at most 512 bytes |
| Searches.PreviewMeans | crates/strukt-fs/src/search.rs:343-353 | a line of up to 512 bytes is kept whole; a longer one is its longest run of whole characters within 509 bytes and an ellipsis |
| Searches.ReadUpTo | crates/strukt-fs/src/search.rs:267-283 | at most the limit is read, and an error behind it is never seen |
| Searches.ReadFile | crates/strukt-fs/src/search.rs:244-295 | which files yield text, which are passed over, and which errors end the search |
| Searches.ReadingOf | crates/strukt-fs/src/search.rs:244-295 | a file yields its text exactly when it is a readable, small enough, valid text without a NUL; at most one byte beyond the limit is read |
| Searches.ReadingMeans | crates/strukt-fs/src/search.rs:244-295 | which refusals end the search, exactly, and how much of the budget a file is charged |
| Searches.HitsMean | crates/strukt-fs/src/search.rs:297-313 | the matches of a file are its lines that contain the needle, with their numbers |
| Searches.HitsAreMatchingLines | crates/strukt-fs/src/search.rs:297-313 | a match names the file, the number of a line that contains the needle, counted from one, and its trimmed preview; the matches are in line order |
| Searches.SearchLines | crates/strukt-fs/src/search.rs:297-313 | the matches of a file are added up to the first there is no room for |
| Searches.SearchFiles | crates/strukt-fs/src/search.rs:229-318 | in every run at most one byte beyond the budget is read and at most `max_results` matches are given |
| Searches.CompleteIff | crates/strukt-fs/src/search.rs:229-318 | an answer is complete exactly when discovery was, every file could be searched in its turn, budget is left and the matches fit; it then holds all of them in order |
| Searches.ExactBudgetLooksTruncated | crates/strukt-fs/src/search.rs:229-318 | a one-file search whose budget is used up exactly holds every match and is marked as truncated |
| Searches.AnswersAreFirstMatches | crates/strukt-fs/src/search.rs:229-318 | every answer holds the first matches of some of the files, in discovery and line order |
| Searches.FailsOnlyWhenDenied | crates/strukt-fs/src/search.rs:229-318 | a search fails only because some file refused to be looked at or read |
| Searches.SearchContent | crates/strukt-fs/src/search.rs:203-319 | the refusals in order, the 64 MiB ceiling, and the search of the reported files |
| Searches.CompleteSearchFindsAll | crates/strukt-fs/src/search.rs:203-319 | over a discovered tree, a complete answer holds a match for every matching line of every file at the end of a permitted way, and nothing else |
| Schedulers.HandleKeepsInv | crates/strukt-app/src/app.rs:2877-3044 | every message keeps the agreement between the scheduler's fields, the running tasks and what was requested |
| Schedulers.AtMostOneOfEach | crates/strukt-app/src/app.rs:5856-5895 | at most one scan and one write run; an overtaken scan has its successor waiting |
| Schedulers.NoRefreshIsLost | crates/strukt-app/src/app.rs:2999-3044 | with no scan running, the newest request was answered with the current root and options |
| Schedulers.AcceptedScanIsCurrent | crates/strukt-app/src/app.rs:2999-3034 | an accepted report was computed with the root and options current at that moment, across workspace replacement |
| Schedulers.SnapshotsInOrder | crates/strukt-app/src/app.rs:5476-5583 | with a store, started snapshots are an in-order selection of the requested, and at rest the newest was started |
| Schedulers.NoRootIsLost | crates/strukt-app/src/app.rs:4326-4351 | every recorded recent root has been written, is in the batch being written, or is pending, each at most once |
| Schedulers.RestIsWritten | crates/strukt-app/src/app.rs:5476-5583 | with a store and no task running, the write started last is of the current root and options |
| Schedulers.RestHasWrittenRoots | crates/strukt-app/src/app.rs:5554-5597 | no root is written that was not recorded, and at rest, when no write has failed, the written roots are exactly the recorded ones |
| Schedulers.SettledRoots | crates/strukt-app/src/app.rs:4338-4342 | on failure every root that was active or pending is pending exactly once |
| Schedulers.RequeuedIs | crates/strukt-app/src/app.rs:5591-5597 | requeueing keeps every root exactly once, the failed batch first and in its order |
| Schedulers.EnqueuedIs | crates/strukt-app/src/app.rs:5585-5589 | a recorded root is pending exactly once |
| Schedulers.ScanCompletion | crates/strukt-app/src/app.rs:2999-3044 | a completion shows its report exactly when it succeeded and no newer request waits, and starts the successor otherwise |
| Schedulers.OpeningAsks | crates/strukt-app/src/app.rs:2877-2957 | opening takes the given root and options, records the root and asks for a snapshot of them and a scan; from rest the snapshot is written at once |
| Schedulers.TogglingAsks | crates/strukt-app/src/app.rs:2981-2998 | each toggle flips its own option only, when the explorer may be used; the new options are snapshotted and wait behind the scan |
| Schedulers.RequestsAsk | crates/strukt-app/src/app.rs:5856-5870 | each refresh request takes a new generation, scanned at once or left pending; each request to persist asks for the current state |
| Schedulers.OnlyOpeningRecords | crates/strukt-app/src/app.rs:5476-5513 | nothing else records a root, and without a workspace nothing is asked for |
| Schedulers.StaleCompletionsChangeNothing | crates/strukt-app/src/app.rs:2999-3002 | a completion that is not awaited changes nothing that is held or shown and starts nothing |
| Schedulers.StruktApp.EnqueueRecentRoot | crates/strukt-app/src/app.rs:5585-5589 | the deque after recording a root |
| Schedulers.StruktApp.RequeueRecentRoots | crates/strukt-app/src/app.rs:5591-5597 | the deque after the backward loop |
| Schedulers.StruktApp.StartFileRefresh | crates/strukt-app/src/app.rs:5872-5895 | a scan of the current root and options starts, if a workspace is open |
| Schedulers.StruktApp.RequestFileRefresh | crates/strukt-app/src/app.rs:5856-5870 | a new generation, scanned at once or left pending |
| Schedulers.StruktApp.StartPersistence | crates/strukt-app/src/app.rs:5554-5583 | a write starts with all pending roots, if there is a store |
| Schedulers.StruktApp.RequestPersistence | crates/strukt-app/src/app.rs:5476-5513 | a snapshot is written at once or replaces the pending one |
| Schedulers.StruktApp.OnWorkspaceOpened | crates/strukt-app/src/app.rs:2877-2957 | options, generation and pending flag are replaced, then persistence and a scan are requested |
| Schedulers.StruktApp.OnToggleHiddenFiles | crates/strukt-app/src/app.rs:2981-2989 | the option flips and both schedulers are asked |
| Schedulers.StruktApp.OnToggleIgnoredFiles | crates/strukt-app/src/app.rs:2990-2998 | the option flips and both schedulers are asked |
| Schedulers.StruktApp.OnFilesRefreshed | crates/strukt-app/src/app.rs:2999-3044 | stale completions are dropped; the next scan or the waiting write starts |
| Schedulers.StruktApp.OnWorkspacePersisted | crates/strukt-app/src/app.rs:4326-4351 | stale completions are dropped; failed roots return to the queue and the waiting write starts |
| LanguageCoordinators.HandleKeepsInv | crates/strukt-app/src/language.rs:1149-1427 | every message, however stale, keeps the discipline of generations |
| LanguageCoordinators.GenerationDiscipline | crates/strukt-app/src/language.rs:1149-1427 | in every run each generation is discovered, granted and ready at most once, grants and readiness follow its discovery, and generations strictly increase |
| LanguageCoordinators.AnnouncesExactly | crates/strukt-app/src/language.rs:1017-1427 | the exact condition under which each message starts a generation, grants a process or announces readiness; everything else announces nothing |
| LanguageCoordinators.ChoicesAreRecorded | crates/strukt-app/src/language.rs:1380-1418 | an accepted choice is recorded for its language only; disabling takes the server down and remembers a running one; a refused choice changes nothing |
| LanguageCoordinators.DisabledStaysQuiet | crates/strukt-app/src/language.rs:1017-1427 | in every run after a language was disabled, nothing is discovered, granted or ready for it until the user enables or retries it |
| LanguageCoordinators.StaleResultsChangeNothing | crates/strukt-app/src/language.rs:1149-1378 | results for another generation or workspace change nothing |
| LanguageCoordinators.GoingDown | crates/strukt-app/src/language.rs:1226-1378 | where failing, denying and stopping lead; a stopped server starts again exactly when it is selected and wanted |
| LanguageCoordinators.ComingUp | crates/strukt-app/src/language.rs:1168-1427 | where finishing, waiting for approval, approving and asking for a restart lead |
| LanguageCoordinators.DocumentsAreBound | crates/strukt-app/src/language.rs:1017-1126 | opening binds one document; closing forgets it and touches no server |
| LanguageCoordinators.HandleKeepsGrants | crates/strukt-app/src/language.rs:1149-1313 | no message makes a generation ready without a grant, unless it finishes a current discovery as ready or as starting |
| LanguageCoordinators.KeepsGrantsIff | crates/strukt-app/src/language.rs:1149-1313 | and one that does breaks it: the condition is exact |
| LanguageCoordinators.AlwaysGrantedIff | crates/strukt-app/src/language.rs:1149-1427 | over a run, the grants hold after every message exactly when none of them does that |
| LanguageCoordinators.ReadyOnlyAfterGrant | crates/strukt-app/src/language.rs:1149-1427 | in every such run of a new coordinator each readiness follows the grant of its generation |
| LanguageCoordinators.ReportedNeverSkips | crates/strukt-app/src/app.rs:3448-3471 | the outcomes the application reports for a discovery without a server never skip the grant |
| LanguageCoordinators.FinishingAsReadySkipsTheGrant | crates/strukt-app/src/language.rs:1168-1187 | a run in which finishing a discovery as ready is readiness without a grant |
| LanguageCoordinators.FinishingAsStartingSkipsTheGrant | crates/strukt-app/src/language.rs:1168-1313 | a run in which finishing a discovery as starting leads to readiness without a grant |
| LanguageCoordinators.LanguageCoordinator.EnsureLanguageStarted | crates/strukt-app/src/language.rs:1707-1727 | a stopped, unavailable or failed server starts a new generation; any other is left |
| LanguageCoordinators.LanguageCoordinator.DiscoveryAvailable | crates/strukt-app/src/language.rs:1149-1166 | a current discovery is granted its process, a stale one changes nothing |
| LanguageCoordinators.LanguageCoordinator.DiscoveryFinished | crates/strukt-app/src/language.rs:1168-1187 | a current discovery takes the given state, a stale one changes nothing |
| LanguageCoordinators.LanguageCoordinator.DiscoveryRequiresApproval | crates/strukt-app/src/language.rs:1189-1208 | a current discovery waits for approval, a stale one changes nothing |
| LanguageCoordinators.LanguageCoordinator.Approve | crates/strukt-app/src/language.rs:1210-1224 | one waiting server is granted its process; it is taken even when the approval cannot be stored |
| LanguageCoordinators.LanguageCoordinator.Deny | crates/strukt-app/src/language.rs:1226-1239 | a waiting server is disabled |
| LanguageCoordinators.LanguageCoordinator.Retry | crates/strukt-app/src/language.rs:1241-1264 | an unavailable, disabled or failed server starts a new generation |
| LanguageCoordinators.LanguageCoordinator.MarkReady | crates/strukt-app/src/language.rs:1287-1313 | a starting server of that generation becomes ready, once |
| LanguageCoordinators.LanguageCoordinator.FailLanguage | crates/strukt-app/src/language.rs:1315-1338 | the server of that generation has failed; any other is left |
| LanguageCoordinators.LanguageCoordinator.MarkStopped | crates/strukt-app/src/language.rs:1345-1378 | the server of that generation has stopped, and starts again when enabled and wanted |
| LanguageCoordinators.LanguageCoordinator.DisableLanguage | crates/strukt-app/src/language.rs:1380-1393 | the choice is recorded, and the running generation, if any, is answered for shutdown |
| LanguageCoordinators.LanguageCoordinator.EnableLanguage | crates/strukt-app/src/language.rs:1395-1418 | the choice is recorded, and a wanted server starts unless one is still shutting down |
| LanguageCoordinators.LanguageCoordinator.RestartLanguage | crates/strukt-app/src/language.rs:1420-1427 | a ready server is asked to shut down, once |
| Sorting.StableSortUnique | crates/strukt-editor/src/transaction.rs:61-61 | sortedness and stability determine the result of the library's sort |
| Sorting.StableSortSorts | crates/strukt-fs/src/discovery.rs:267-267 | the sort sorts, for every total preorder |
| Sorting.StableSortIsStable | crates/strukt-fs/src/search.rs:84-88 | the sort keeps equal elements in their order |

## Left out

- Machine integers: buffer offsets, byte counts, the lengths of lists and the generation counters of the two schedulers and of the language coordinator are unbounded, where the source has 64-bit words that saturate or wrap; the revision counter and the arithmetic of reading a document are exact.
- Ranges whose start lies behind their end: `CharRange::new` refuses them, and a literal one would make the rope panic, so the lemmas about construction ask for ordered ranges.
- Ropes and line caches: a buffer is a sequence of characters; `ropey`'s own cost and errors do not appear.
- Document ids: one process-wide counter, which `Open` proves never to repeat the id of an open document; the runs of commands take that as given.
- The workspace id, relative-path normalisation and the tab view: plain data and simple checks that would only add easy members.
- Carets: lines and positions are given; that the text widget splits a text into such lines is not proved. Language-server positions and completion insertion in the same file are not modelled.
- EventChannels: the receiver lives as long as the channel, so a send into a channel without one, whose flag nobody reads, has no step; and atomic accesses are taken as sequentially consistent steps.
- ReadDocument: opening and scoping the file, and its revision hash, are parameters; saving a document depends on the operating system's atomic rename.
- Discovery: the matching of one ignore file, the loading of ignore files and the warnings it leaves are parameters of the tree; the hidden attribute of Windows, cancellation and the change of a tree while it is walked are left out.
- DiscoverReport: that the `ignore` crate's walker yields a preorder with sorted siblings is taken from its options; what follows for the order and for the marks is proved of such a preorder.
- QuickOpenCandidates: lower-casing and the text of a path are parameters.
- Search: trimming a line is a parameter that must keep valid text valid; cancellation is left out; a path answers the same way for the one time it is read.
- Schedulers: the contributions copied into a snapshot are left out; a snapshot is its number, root and explorer options, and the requests are numbered only to be told apart.
- RequestPersistence: takes the number of the request from its caller, because the source's snapshots have none.
- LanguageCoordinator: diagnostics, feature panels, document texts and the effects beyond discovery, grant and readiness are left out, and so is which descriptor or fingerprint a choice stores.
- MarkReady: the documents it asks to open in the server are not part of this model.
- Iced widgets, key routing, themes, the SSH helper, sessions, the terminal runtime and the keyring: presentation, or input and output over crates outside this model.
- Find and replace by regular expression: matching would be a parameter and the rest is easy.
