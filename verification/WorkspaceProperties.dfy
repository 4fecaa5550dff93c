/** What holds of every editor workspace over every run of commands. */
module WorkspaceProperties {
  import opened Wrappers
  import opened Transactions
  import opened Documents
  import opened EditorWorkspaces
  import DocumentProperties

  predicate ActiveOk(s: WorkspaceState) {
    && (s.active.Some? <==> s.tabs != [])
    && (s.active.Some? ==> IsOpen(s, s.active.value))
  }

  predicate PreviewOk(s: WorkspaceState) {
    s.preview.Some? ==> IsOpen(s, s.preview.value) && !Recoverable(s.tabs[IndexOf(s.tabs, s.preview.value)].doc)
  }

  /** Ids and paths are unique; a document is focused exactly when one is open,
      and then an open one; the preview is open and has nothing to recover. */
  predicate Inv(s: WorkspaceState) {
    && Distinct(s.tabs)
    && ActiveOk(s)
    && PreviewOk(s)
    && (forall t | t in s.tabs :: DocumentProperties.Inv(t.doc))
  }

  /** New documents draw their ids from one process-wide counter, and the
      read-only upgrade happens only inside `open`. */
  predicate Possible(s: WorkspaceState, c: Command) {
    && (c.Open? ==> forall t | t in s.tabs :: t.id != c.freshId)
    && (c.OnDocument? ==> !c.event.UpgradeReadOnly?)
  }

  lemma IndexIsTheOne(tabs: seq<Tab>, i: nat)
    requires Distinct(tabs) && i < |tabs|
    ensures IndexOf(tabs, tabs[i].id) == i
  {
  }

  /** Every tab but the closed one, in the same order. */
  lemma RemovedTabs(s: WorkspaceState, id: nat)
    requires Distinct(s.tabs) && IsOpen(s, id)
    ensures var s', index := Removed(s, id), IndexOf(s.tabs, id);
            && s'.tabs == s.tabs[..index] + s.tabs[index + 1..] && Distinct(s'.tabs) && !IsOpen(s', id)
            && (forall t :: t in s'.tabs <==> t in s.tabs && t.id != id)
  {
    var s', index := Removed(s, id), IndexOf(s.tabs, id);
    assert s.tabs == s.tabs[..index] + [s.tabs[index]] + s.tabs[index + 1..];
  }

  lemma RemovedLeavesOthers(s: WorkspaceState, id: nat, other: nat)
    requires Distinct(s.tabs) && IsOpen(s, id) && other != id && IsOpen(s, other)
    ensures var s' := Removed(s, id);
            IsOpen(s', other) && s'.tabs[IndexOf(s'.tabs, other)] == s.tabs[IndexOf(s.tabs, other)]
  {
    var s', index, k := Removed(s, id), IndexOf(s.tabs, id), IndexOf(s.tabs, other);
    RemovedTabs(s, id);
    var k' := if k < index then k else k - 1;
    assert s'.tabs[k'] == s.tabs[k];
    IndexIsTheOne(s'.tabs, k');
  }

  lemma RemovedKeepsActive(s: WorkspaceState, id: nat)
    requires Distinct(s.tabs) && ActiveOk(s) && IsOpen(s, id)
    ensures ActiveOk(Removed(s, id))
  {
    RemovedTabs(s, id);
    var s', index := Removed(s, id), IndexOf(s.tabs, id);
    if s.active.value != id {
      RemovedLeavesOthers(s, id, s.active.value);
    } else if s'.tabs != [] {
      IndexIsTheOne(s'.tabs, if index == 0 then 0 else index - 1);
    }
  }

  lemma RemovedKeepsPreview(s: WorkspaceState, id: nat)
    requires Distinct(s.tabs) && PreviewOk(s) && IsOpen(s, id)
    ensures PreviewOk(Removed(s, id))
  {
    hide Recoverable;
    if s.preview.Some? && s.preview.value != id {
      RemovedLeavesOthers(s, id, s.preview.value);
    }
  }

  lemma {:induction false} RemovedKeepsInv(s: WorkspaceState, id: nat)
    requires Inv(s)
    ensures Inv(Removed(s, id))
  {
    hide DocumentProperties.Inv, ActiveOk, PreviewOk;
    if IsOpen(s, id) {
      RemovedTabs(s, id);
      RemovedKeepsActive(s, id);
      RemovedKeepsPreview(s, id);
    }
  }

  /** The tabs that stay: a closed tab's neighbour takes the focus it had. */
  lemma FocusAfterClosing(s: WorkspaceState, id: nat)
    requires Inv(s) && IsOpen(s, id)
    ensures var s', index := Removed(s, id), IndexOf(s.tabs, id);
            && (s.active != Some(id) ==> s'.active == s.active)
            && (s.active == Some(id) && index > 0 ==> s'.active == Some(s.tabs[index - 1].id))
            && (s.active == Some(id) && index == 0 && |s.tabs| > 1 ==> s'.active == Some(s.tabs[1].id))
            && (|s.tabs| == 1 ==> s'.active == None)
  {
    hide DocumentProperties.Inv, PreviewOk;
    RemovedTabs(s, id);
  }

  /** Changing one document in place disturbs no other tab. */
  lemma ReplacedTab(s: WorkspaceState, i: nat, doc: DocState)
    requires Distinct(s.tabs) && i < |s.tabs|
    ensures var tabs' := s.tabs[i := s.tabs[i].(doc := doc)];
            && Distinct(tabs')
            && (forall id :: IndexOf(tabs', id) == IndexOf(s.tabs, id))
  {
    var tabs' := s.tabs[i := s.tabs[i].(doc := doc)];
    forall id
      ensures IndexOf(tabs', id) == IndexOf(s.tabs, id)
    {
      var k := IndexOf(s.tabs, id);
      assert k < |tabs'| ==> tabs'[k].id == id;
      assert forall j | 0 <= j < k :: tabs'[j].id != id;
    }
  }

  lemma {:induction false} AppendedTab(tabs: seq<Tab>, tab: Tab, id: nat)
    requires forall t | t in tabs :: t.id != tab.id
    ensures IndexOf(tabs + [tab], id)
         == if id == tab.id then |tabs|
            else if IndexOf(tabs, id) < |tabs| then IndexOf(tabs, id)
            else |tabs| + 1
  {
    if tabs != [] {
      AppendedTab(tabs[1..], tab, id);
      assert (tabs + [tab])[1..] == tabs[1..] + [tab];
    }
  }

  // -------------------------------------------------------------- each command

  lemma ClearedKeepsInv(s: WorkspaceState)
    requires Inv(s)
    ensures Inv(PreviewCleared(s)) && PreviewCleared(s).preview.None?
  {
    hide DocumentProperties.Inv, Recoverable;
    if s.preview.Some? {
      var taken := s.(preview := None);
      assert Inv(taken);
      RemovedKeepsInv(taken, s.preview.value);
    }
  }

  lemma ClearedTabs(s: WorkspaceState)
    requires Inv(s)
    ensures forall t | t in PreviewCleared(s).tabs :: t in s.tabs
    ensures forall t | t in s.tabs && t !in PreviewCleared(s).tabs :: s.preview == Some(t.id) && !Recoverable(t.doc)
  {
    hide DocumentProperties.Inv, Recoverable;
    if s.preview.Some? {
      var id, taken := s.preview.value, s.(preview := None);
      RemovedTabs(taken, id);
      forall t | t in s.tabs && t !in PreviewCleared(s).tabs
        ensures s.preview == Some(t.id) && !Recoverable(t.doc)
      {
        var k :| 0 <= k < |s.tabs| && s.tabs[k] == t;
        IndexIsTheOne(s.tabs, k);
      }
    }
  }

  lemma FocusKeepsInv(s: WorkspaceState, i: nat, text: string, disk: DiskRevision)
    requires Inv(s) && i < |s.tabs|
    ensures Inv(s.(tabs := s.tabs[i := s.tabs[i].(doc := Upgraded(s.tabs[i].doc, text, disk))],
                   active := Some(s.tabs[i].id)))
    ensures Inv(s.(active := Some(s.tabs[i].id)))
  {
    hide DocumentProperties.Inv;
    var tab := s.tabs[i];
    assert tab in s.tabs;
    IndexIsTheOne(s.tabs, i);
    ReplacedTab(s, i, Upgraded(tab.doc, text, disk));
    DocumentProperties.StepKeepsInv(tab.doc, UpgradeReadOnly(text, disk));
  }

  lemma NewTabKeepsInv(room: WorkspaceState, tab: Tab, asPreview: bool)
    requires Inv(room) && DocumentProperties.Inv(tab.doc) && !Recoverable(tab.doc)
    requires forall t | t in room.tabs :: t.id != tab.id && t.path != tab.path
    ensures Inv(WorkspaceState(room.tabs + [tab], Some(tab.id), if asPreview then Some(tab.id) else None))
  {
    hide DocumentProperties.Inv, Recoverable;
    AppendedTab(room.tabs, tab, tab.id);
  }

  lemma OpenKeepsInv(s: WorkspaceState, path: string, text: string, disk: DiskRevision, readOnly: bool,
                     disposition: OpenDisposition, freshId: nat)
    requires Inv(s) && forall t | t in s.tabs :: t.id != freshId
    ensures Inv(OpenReply(s, path, text, disk, readOnly, disposition, freshId).state)
  {
    hide DocumentProperties.Inv, Upgraded;
    var i := IndexOfPath(s.tabs, path);
    if i < |s.tabs| {
      FocusKeepsInv(s, i, text, disk);
    } else {
      ClearedKeepsInv(s);
      ClearedTabs(s);
      NoSuchPath(s.tabs, path);
      NewDocument(text, disk, readOnly);
      var room := if disposition == Preview then PreviewCleared(s) else s;
      NewTabKeepsInv(room, Tab(freshId, path, Opened(text, disk, readOnly)), disposition == Preview);
    }
  }

  lemma NewDocument(text: string, disk: DiskRevision, readOnly: bool)
    ensures DocumentProperties.Inv(Opened(text, disk, readOnly)) && !Recoverable(Opened(text, disk, readOnly))
  {
    DocumentProperties.EmptyHistoryIsChain(text);
  }

  lemma NoSuchPath(tabs: seq<Tab>, path: string)
    requires IndexOfPath(tabs, path) == |tabs|
    ensures forall t | t in tabs :: t.path != path
  {
  }

  /** A failed document event leaves the recoverable flag alone. */
  lemma FailureKeepsRecoverable(doc: DocState, e: DocEvent)
    requires DocumentProperties.Inv(doc) && Step(doc, e).result.Err?
    ensures Recoverable(Step(doc, e).state) == Recoverable(doc)
  {
    hide Step, DocumentProperties.Inv;
    DocumentProperties.FailureIsAtomicIff(doc, e);
  }

  lemma UpdateKeepsInv(s: WorkspaceState, i: nat, doc: DocState)
    requires Inv(s) && i < |s.tabs| && DocumentProperties.Inv(doc)
    requires s.preview == Some(s.tabs[i].id) ==> !Recoverable(doc)
    ensures Inv(s.(tabs := s.tabs[i := s.tabs[i].(doc := doc)]))
  {
    hide DocumentProperties.Inv, Recoverable;
    ReplacedTab(s, i, doc);
    IndexIsTheOne(s.tabs, i);
  }

  lemma {:induction false} DocumentKeepsInv(s: WorkspaceState, id: nat, e: DocEvent)
    requires Inv(s) && !e.UpgradeReadOnly?
    ensures Inv(DocumentReply(s, id, e).state)
  {
    hide DocumentProperties.Inv, Step, Recoverable;
    var i := IndexOf(s.tabs, id);
    if i < |s.tabs| {
      var doc := s.tabs[i].doc;
      assert s.tabs[i] in s.tabs;
      DocumentProperties.StepKeepsInv(doc, e);
      var doc' := Step(doc, e).state;
      if Step(doc, e).result.Err? {
        FailureKeepsRecoverable(doc, e);
        UpdateKeepsInv(s, i, doc');
      } else if Pins(e, doc') {
        UpdateKeepsInv(PinnedTab(s, id), i, doc');
      } else {
        UnpinnedIsUnrecoverable(doc, e);
        UpdateKeepsInv(s, i, doc');
      }
    }
  }

  lemma UnpinnedIsUnrecoverable(doc: DocState, e: DocEvent)
    requires Step(doc, e).result.Ok? && !Pins(e, Step(doc, e).state)
    ensures !Recoverable(Step(doc, e).state)
  {
  }

  /** Every command keeps the invariant. */
  lemma {:induction false} RespondKeepsInv(s: WorkspaceState, c: Command)
    requires Inv(s) && Possible(s, c)
    ensures Inv(Respond(s, c).state)
  {
    hide DocumentProperties.Inv, OpenReply, DocumentReply, Removed;
    match c
    case Open(path, text, disk, readOnly, disposition, freshId) =>
      OpenKeepsInv(s, path, text, disk, readOnly, disposition, freshId);
    case OnDocument(id, e) => DocumentKeepsInv(s, id, e);
    case Select(id) =>
    case PinDocument(id) =>
    case RequestClose(id) => RemovedKeepsInv(s, id);
    case ResolveClose(id, decision) => RemovedKeepsInv(s, id);
  }

  // --------------------------------------------------------------- whole runs

  const EMPTY_WORKSPACE := WorkspaceState([], None, None)

  function RunAll(s: WorkspaceState, commands: seq<Command>): WorkspaceState
    decreases |commands|
  {
    if commands == [] then s else RunAll(Respond(s, commands[0]).state, commands[1..])
  }

  predicate AllPossible(s: WorkspaceState, commands: seq<Command>)
    decreases |commands|
  {
    commands == [] || (Possible(s, commands[0]) && AllPossible(Respond(s, commands[0]).state, commands[1..]))
  }

  lemma {:induction false} RunKeepsInv(s: WorkspaceState, commands: seq<Command>)
    requires Inv(s) && AllPossible(s, commands)
    ensures Inv(RunAll(s, commands))
    decreases |commands|
  {
    hide Inv, Respond, Possible;
    if commands != [] {
      RespondKeepsInv(s, commands[0]);
      RunKeepsInv(Respond(s, commands[0]).state, commands[1..]);
    }
  }

  /** The three ways a document leaves the workspace, exactly. */
  predicate Leaves(s: WorkspaceState, c: Command, tab: Tab) {
    || c == ResolveClose(tab.id, Discard)
    || (c == RequestClose(tab.id) && !Recoverable(tab.doc))
    || (c.Open? && c.disposition == Preview && IndexOfPath(s.tabs, c.path) == |s.tabs| && s.preview == Some(tab.id))
  }

  lemma LeavesExactlyWhen(s: WorkspaceState, c: Command, tab: Tab)
    requires Inv(s) && Possible(s, c) && tab in s.tabs
    ensures !IsOpen(Respond(s, c).state, tab.id) <==> Leaves(s, c, tab)
  {
    hide DocumentProperties.Inv, Recoverable, OpenReply, DocumentReply, Removed, ActiveOk, PreviewOk;
    var k :| 0 <= k < |s.tabs| && s.tabs[k] == tab;
    IndexIsTheOne(s.tabs, k);
    match c
    case Open(path, text, disk, readOnly, disposition, freshId) =>
      LeavesOnOpen(s, path, text, disk, readOnly, disposition, freshId, tab);
    case OnDocument(id, e) => LeavesOnDocument(s, id, e, tab.id);
    case Select(id) =>
    case PinDocument(id) =>
    case RequestClose(id) => LeavesOnRemove(s, id, tab.id);
    case ResolveClose(id, decision) => LeavesOnRemove(s, id, tab.id);
  }

  lemma LeavesOnDocument(s: WorkspaceState, id: nat, e: DocEvent, other: nat)
    requires Distinct(s.tabs)
    ensures IsOpen(DocumentReply(s, id, e).state, other) <==> IsOpen(s, other)
  {
    hide Step;
    if IsOpen(s, id) {
      var i := IndexOf(s.tabs, id);
      ReplacedTab(s, i, Step(s.tabs[i].doc, e).state);
    }
  }

  lemma LeavesOnRemove(s: WorkspaceState, id: nat, other: nat)
    requires Distinct(s.tabs) && IsOpen(s, other)
    ensures IsOpen(Removed(s, id), other) <==> other != id
  {
    if IsOpen(s, id) {
      RemovedTabs(s, id);
      if other != id {
        RemovedLeavesOthers(s, id, other);
      }
    }
  }

  lemma LeavesOnOpen(s: WorkspaceState, path: string, text: string, disk: DiskRevision, readOnly: bool,
                     disposition: OpenDisposition, freshId: nat, tab: Tab)
    requires Inv(s) && (forall t | t in s.tabs :: t.id != freshId) && tab in s.tabs && IsOpen(s, tab.id)
    ensures !IsOpen(OpenReply(s, path, text, disk, readOnly, disposition, freshId).state, tab.id)
       <==> disposition == Preview && IndexOfPath(s.tabs, path) == |s.tabs| && s.preview == Some(tab.id)
  {
    hide DocumentProperties.Inv, Upgraded;
    var i := IndexOfPath(s.tabs, path);
    if i < |s.tabs| {
      ReplacedTab(s, i, Upgraded(s.tabs[i].doc, text, disk));
    } else {
      var room := if disposition == Preview then PreviewCleared(s) else s;
      ClearedTabs(s);
      AppendedTab(room.tabs, Tab(freshId, path, Opened(text, disk, readOnly)), tab.id);
      LeavesOnClear(s, tab.id);
    }
  }

  lemma LeavesOnClear(s: WorkspaceState, other: nat)
    requires Inv(s) && IsOpen(s, other)
    ensures IsOpen(PreviewCleared(s), other) <==> s.preview != Some(other)
  {
    hide DocumentProperties.Inv, Recoverable;
    if s.preview.Some? {
      LeavesOnRemove(s.(preview := None), s.preview.value, other);
    }
  }

  /** Whatever leaves without an explicit discard showed exactly its saved text,
      and had no recovered or conflicting content. */
  lemma NothingUnsavedIsLost(s: WorkspaceState, c: Command, tab: Tab)
    requires Inv(s) && Possible(s, c) && tab in s.tabs
    requires !IsOpen(Respond(s, c).state, tab.id) && c != ResolveClose(tab.id, Discard)
    ensures !Recoverable(tab.doc) && tab.doc.text == tab.doc.savedText
  {
    hide Respond;
    LeavesExactlyWhen(s, c, tab);
    var k :| 0 <= k < |s.tabs| && s.tabs[k] == tab;
    IndexIsTheOne(s.tabs, k);
  }

  /** From an empty workspace, over every run: a document with something to
      recover leaves only through an explicit discard. */
  lemma RecoverableLeavesOnlyByDiscard(commands: seq<Command>, c: Command, tab: Tab)
    requires AllPossible(EMPTY_WORKSPACE, commands)
    requires var s := RunAll(EMPTY_WORKSPACE, commands); Possible(s, c) && tab in s.tabs && Recoverable(tab.doc)
    ensures IsOpen(Respond(RunAll(EMPTY_WORKSPACE, commands), c).state, tab.id) <==> c != ResolveClose(tab.id, Discard)
  {
    hide Respond, RunAll, AllPossible, Inv;
    assert Inv(EMPTY_WORKSPACE) by { EmptyWorkspaceInv(); }
    RunKeepsInv(EMPTY_WORKSPACE, commands);
    var s := RunAll(EMPTY_WORKSPACE, commands);
    LeavesExactlyWhen(s, c, tab);
    if !IsOpen(Respond(s, c).state, tab.id) && c != ResolveClose(tab.id, Discard) {
      NothingUnsavedIsLost(s, c, tab);
      assert false;
    }
  }

  lemma EmptyWorkspaceInv()
    ensures Inv(EMPTY_WORKSPACE)
  {
  }

  /** Opening focuses the one tab of that path; a path that is already open gets
      no second tab, and its text changes only by the read-only upgrade. */
  lemma {:induction false} OpenShowsThePath(s: WorkspaceState, path: string, text: string, disk: DiskRevision,
                                            readOnly: bool, disposition: OpenDisposition, freshId: nat)
    requires Inv(s) && forall t | t in s.tabs :: t.id != freshId
    ensures var r := OpenReply(s, path, text, disk, readOnly, disposition, freshId);
            && r.result.Ok? && r.result.value.Shown? && r.state.active == Some(r.result.value.id)
            && IsOpen(r.state, r.result.value.id)
            && var shown := r.state.tabs[IndexOf(r.state.tabs, r.result.value.id)];
               && shown.path == path
               && (IndexOfPath(s.tabs, path) == |s.tabs| ==> shown.doc == Opened(text, disk, readOnly))
               && (IndexOfPath(s.tabs, path) < |s.tabs| ==>
                     && |r.state.tabs| == |s.tabs|
                     && var was := s.tabs[IndexOfPath(s.tabs, path)];
                        shown.doc == if readOnly || !was.doc.readOnly then was.doc else Upgraded(was.doc, text, disk))
  {
    hide DocumentProperties.Inv, Recoverable;
    var i := IndexOfPath(s.tabs, path);
    if i < |s.tabs| {
      IndexIsTheOne(s.tabs, i);
      ReplacedTab(s, i, Upgraded(s.tabs[i].doc, text, disk));
    } else {
      var room := if disposition == Preview then PreviewCleared(s) else s;
      ClearedTabs(s);
      AppendedTab(room.tabs, Tab(freshId, path, Opened(text, disk, readOnly)), freshId);
    }
  }

  // ------------------------------------------------- what each command answers

  /** Whatever names a document that is not open changes nothing. */
  lemma UnknownIdIsRefused(s: WorkspaceState, c: Command)
    requires !c.Open? && forall t | t in s.tabs :: t.id != c.id
    ensures Respond(s, c) == Reply(s, Err(DocumentNotFound(c.id)))
  {
    forall k | 0 <= k < |s.tabs|
      ensures s.tabs[k].id != c.id
    {
      assert s.tabs[k] in s.tabs;
    }
  }

  /** Selecting moves the focus and nothing else; pinning takes the preview mark. */
  lemma SelectAndPin(s: WorkspaceState, tab: Tab)
    requires Inv(s) && tab in s.tabs
    ensures Respond(s, Select(tab.id)) == Reply(s.(active := Some(tab.id)), Ok(Done))
    ensures var pinned := Respond(s, PinDocument(tab.id));
            && pinned.result == Ok(Done) && pinned.state.tabs == s.tabs && pinned.state.active == s.active
            && (pinned.state.preview == s.preview || pinned.state.preview == None)
            && pinned.state.preview != Some(tab.id)
            && (s.preview != Some(tab.id) ==> pinned.state == s)
  {
    hide DocumentProperties.Inv, ActiveOk, PreviewOk, Distinct;
    OpenTab(s, tab);
  }

  /** Closing asks first exactly when the document was recovered or is not clean, and
      then leaves everything as it is. */
  lemma ClosingAsks(s: WorkspaceState, tab: Tab)
    requires Inv(s) && tab in s.tabs
    ensures var asks, r := tab.doc.recovered || tab.doc.status != Clean, Respond(s, RequestClose(tab.id));
            && r.result == Ok(Closing(if asks then NeedsDecision else Closed))
            && (if asks then r.state == s else !IsOpen(r.state, tab.id))
  {
    hide DocumentProperties.Inv, ActiveOk, PreviewOk, Removed, IsOpen, Distinct;
    OpenTab(s, tab);
    RemovedTabs(s, tab.id);
  }

  lemma OpenTab(s: WorkspaceState, tab: Tab)
    requires Inv(s) && tab in s.tabs
    ensures IsOpen(s, tab.id) && s.tabs[IndexOf(s.tabs, tab.id)] == tab
  {
    hide DocumentProperties.Inv, ActiveOk, PreviewOk;
    var k :| 0 <= k < |s.tabs| && s.tabs[k] == tab;
    IndexIsTheOne(s.tabs, k);
  }

  /** A decision to cancel or to save leaves everything as it is; to discard, closes. */
  lemma DecisionAnswers(s: WorkspaceState, tab: Tab, decision: CloseDecision)
    requires Inv(s) && tab in s.tabs
    ensures var r := Respond(s, ResolveClose(tab.id, decision));
            && (decision == Cancel ==> r == Reply(s, Ok(Closing(Cancelled))))
            && (decision == Save ==> r == Reply(s, Ok(Closing(SaveRequired))))
            && (decision == Discard ==> r.result == Ok(Closing(Closed)) && !IsOpen(r.state, tab.id))
  {
    hide DocumentProperties.Inv, ActiveOk, PreviewOk, Removed, IsOpen, Distinct;
    OpenTab(s, tab);
    RemovedTabs(s, tab.id);
  }

  /** An event of one document takes its preview mark exactly when it succeeds and is
      neither a save nor a disk change (a preview has nothing to recover, so that it
      takes the new text). Focus, marks and documents of other tabs stay. */
  lemma {:induction false} EventsPin(s: WorkspaceState, tab: Tab, e: DocEvent)
    requires Inv(s) && tab in s.tabs && !e.UpgradeReadOnly?
    ensures var r, o := Respond(s, OnDocument(tab.id, e)), Step(tab.doc, e);
            && r.result == (if o.result.Ok? then Ok(Done) else Err(DocumentFailed(o.result.error)))
            && r.state.active == s.active
            && r.state.preview
               == (if s.preview == Some(tab.id) && o.result.Ok? && !e.CompleteSave? && !e.ObserveDiskChange? then None
                   else s.preview)
            && |r.state.tabs| == |s.tabs|
            && forall k | 0 <= k < |s.tabs| ::
                 r.state.tabs[k] == if s.tabs[k].id == tab.id then tab.(doc := o.state) else s.tabs[k]
  {
    hide DocumentProperties.Inv, Step;
    var k :| 0 <= k < |s.tabs| && s.tabs[k] == tab;
    IndexIsTheOne(s.tabs, k);
    if s.preview == Some(tab.id) && e.ObserveDiskChange? {
      CleanStaysClean(tab.doc, e);
    }
  }

  lemma CleanStaysClean(doc: DocState, e: DocEvent)
    requires !Recoverable(doc) && e.ObserveDiskChange?
    ensures !Recoverable(Step(doc, e).state)
  {
  }

  /** A new tab comes last and is the preview exactly when asked to be; no other tab
      keeps the mark. A path that is open keeps it unless it is opened for good. */
  lemma OpenMarks(s: WorkspaceState, path: string, text: string, disk: DiskRevision, readOnly: bool,
                  disposition: OpenDisposition, freshId: nat)
    requires Inv(s)
    ensures var r, i := OpenReply(s, path, text, disk, readOnly, disposition, freshId), IndexOfPath(s.tabs, path);
            && (i == |s.tabs| ==>
                  && r.state.preview == (if disposition == Preview then Some(freshId) else None)
                  && r.state.tabs != []
                  && r.state.tabs[|r.state.tabs| - 1] == Tab(freshId, path, Opened(text, disk, readOnly))
                  && (disposition == Pinned ==> r.state.tabs[..|s.tabs|] == s.tabs))
            && (i < |s.tabs| ==>
                  r.state.preview == if disposition == Pinned && s.preview == Some(s.tabs[i].id) then None
                                     else s.preview)
  {
  }
}
