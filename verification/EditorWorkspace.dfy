/** Tabs (`tabs.rs`): open documents, the focused one, and one replaceable preview. */
module EditorWorkspaces {
  import opened Wrappers
  import opened Transactions
  import opened Histories
  import opened Documents

  datatype OpenDisposition = Preview | Pinned

  datatype CloseDecision = Save | Discard | Cancel

  datatype CloseOutcome = Closed | NeedsDecision | SaveRequired | Cancelled

  datatype WorkspaceError = DocumentNotFound(id: nat) | DocumentFailed(error: DocumentError)

  datatype Tab = Tab(id: nat, path: string, doc: DocState)

  datatype WorkspaceState = WorkspaceState(tabs: seq<Tab>, active: Option<nat>, preview: Option<nat>)

  datatype Answer = Done | Shown(id: nat) | Closing(outcome: CloseOutcome)

  datatype Reply = Reply(state: WorkspaceState, result: Result<Answer, WorkspaceError>)

  // ------------------------------------------------------------ specification

  function IndexOf(tabs: seq<Tab>, id: nat): (i: nat)
    ensures i <= |tabs|
    ensures i < |tabs| ==> tabs[i].id == id
    ensures forall k | 0 <= k < i :: tabs[k].id != id
  {
    if tabs == [] || tabs[0].id == id then 0 else 1 + IndexOf(tabs[1..], id)
  }

  function IndexOfPath(tabs: seq<Tab>, path: string): (i: nat)
    ensures i <= |tabs|
    ensures i < |tabs| ==> tabs[i].path == path
    ensures forall k | 0 <= k < i :: tabs[k].path != path
  {
    if tabs == [] || tabs[0].path == path then 0 else 1 + IndexOfPath(tabs[1..], path)
  }

  predicate IsOpen(s: WorkspaceState, id: nat) {
    IndexOf(s.tabs, id) < |s.tabs|
  }

  function PinnedTab(s: WorkspaceState, id: nat): WorkspaceState {
    if s.preview == Some(id) then s.(preview := None) else s
  }

  function IdAt(tabs: seq<Tab>, index: nat): Option<nat> {
    if index < |tabs| then Some(tabs[index].id) else None
  }

  /** The tab that takes the focus when the one at `index` has been removed. */
  function Neighbour(remaining: seq<Tab>, index: nat): Option<nat> {
    var left := IdAt(remaining, if index == 0 then 0 else index - 1);
    if left.Some? then left else IdAt(remaining, index)
  }

  function Removed(s: WorkspaceState, id: nat): WorkspaceState {
    var index := IndexOf(s.tabs, id);
    if index == |s.tabs| then s
    else
      var remaining := s.tabs[..index] + s.tabs[index + 1..];
      WorkspaceState(remaining,
                     if s.active == Some(id) then Neighbour(remaining, index) else s.active,
                     if s.preview == Some(id) then None else s.preview)
  }

  function PreviewCleared(s: WorkspaceState): WorkspaceState {
    if s.preview.None? then s
    else
      var id, taken := s.preview.value, s.(preview := None);
      if IsOpen(s, id) && !Recoverable(s.tabs[IndexOf(s.tabs, id)].doc) then Removed(taken, id) else taken
  }

  function OpenReply(s: WorkspaceState, path: string, text: string, disk: DiskRevision, readOnly: bool,
                     disposition: OpenDisposition, freshId: nat): Reply
  {
    var i := IndexOfPath(s.tabs, path);
    if i < |s.tabs| then
      var tab := s.tabs[i];
      var shown := if readOnly then s else s.(tabs := s.tabs[i := tab.(doc := Upgraded(tab.doc, text, disk))]);
      var focused := shown.(active := Some(tab.id));
      Reply(if disposition == Pinned then PinnedTab(focused, tab.id) else focused, Ok(Shown(tab.id)))
    else
      var room := if disposition == Preview then PreviewCleared(s) else s;
      var tab := Tab(freshId, path, Opened(text, disk, readOnly));
      Reply(WorkspaceState(room.tabs + [tab], Some(freshId), if disposition == Preview then Some(freshId) else None),
            Ok(Shown(freshId)))
  }

  /** Which successful document events turn a preview into a pinned tab. */
  predicate Pins(e: DocEvent, after: DocState) {
    !e.CompleteSave? && (e.ObserveDiskChange? ==> Recoverable(after))
  }

  /** What follows a document's own transition: its error, or the pin. */
  function Settled(s: WorkspaceState, id: nat, result: Result<(), DocumentError>, pins: bool): Reply {
    if result.Err? then Reply(s, Err(DocumentFailed(result.error)))
    else Reply(if pins then PinnedTab(s, id) else s, Ok(Done))
  }

  function WithDocument(s: WorkspaceState, i: nat, doc: DocState): WorkspaceState
    requires i < |s.tabs|
  {
    s.(tabs := s.tabs[i := s.tabs[i].(doc := doc)])
  }

  function DocumentReply(s: WorkspaceState, id: nat, e: DocEvent): Reply {
    var i := IndexOf(s.tabs, id);
    if i == |s.tabs| then Reply(s, Err(DocumentNotFound(id)))
    else
      var o := Step(s.tabs[i].doc, e);
      Settled(WithDocument(s, i, o.state), id, o.result, Pins(e, o.state))
  }

  function SelectReply(s: WorkspaceState, id: nat): Reply {
    if !IsOpen(s, id) then Reply(s, Err(DocumentNotFound(id))) else Reply(s.(active := Some(id)), Ok(Done))
  }

  function PinReply(s: WorkspaceState, id: nat): Reply {
    if !IsOpen(s, id) then Reply(s, Err(DocumentNotFound(id))) else Reply(PinnedTab(s, id), Ok(Done))
  }

  function RequestCloseReply(s: WorkspaceState, id: nat): Reply {
    if !IsOpen(s, id) then Reply(s, Err(DocumentNotFound(id)))
    else if Recoverable(s.tabs[IndexOf(s.tabs, id)].doc) then Reply(s, Ok(Closing(NeedsDecision)))
    else Reply(Removed(s, id), Ok(Closing(Closed)))
  }

  function ResolveCloseReply(s: WorkspaceState, id: nat, decision: CloseDecision): Reply {
    if !IsOpen(s, id) then Reply(s, Err(DocumentNotFound(id)))
    else match decision
      case Cancel => Reply(s, Ok(Closing(Cancelled)))
      case Save => Reply(s, Ok(Closing(SaveRequired)))
      case Discard => Reply(Removed(s, id), Ok(Closing(Closed)))
  }

  datatype Command =
    | Open(path: string, text: string, diskRevision: DiskRevision, readOnly: bool, disposition: OpenDisposition,
           freshId: nat)
    | OnDocument(id: nat, event: DocEvent)
    | Select(id: nat)
    | PinDocument(id: nat)
    | RequestClose(id: nat)
    | ResolveClose(id: nat, decision: CloseDecision)

  function Respond(s: WorkspaceState, c: Command): Reply {
    match c
    case Open(path, text, disk, readOnly, disposition, freshId) =>
      OpenReply(s, path, text, disk, readOnly, disposition, freshId)
    case OnDocument(id, e) => DocumentReply(s, id, e)
    case Select(id) => SelectReply(s, id)
    case PinDocument(id) => PinReply(s, id)
    case RequestClose(id) => RequestCloseReply(s, id)
    case ResolveClose(id, decision) => ResolveCloseReply(s, id, decision)
  }

  // ---------------------------------------------------------------- invariant

  predicate Distinct(tabs: seq<Tab>) {
    forall i, j | 0 <= i < j < |tabs| :: tabs[i].id != tabs[j].id && tabs[i].path != tabs[j].path
  }

  // --------------------------------------------------------------- the object

  /** The process-wide id counter. */
  class DocumentIds {
    var next: nat

    constructor ()
      ensures next == 1
    {
      next := 1;
    }

    method FetchAdd() returns (id: nat)
      modifies this
      ensures id == old(next) && next == old(next) + 1
    {
      id := next;
      next := next + 1;
    }
  }

  lemma ShownTab(s: WorkspaceState, i: nat, path: string, text: string, disk: DiskRevision, readOnly: bool,
                 disposition: OpenDisposition, freshId: nat)
    requires i == IndexOfPath(s.tabs, path) < |s.tabs|
    ensures var shown := if readOnly then s else WithDocument(s, i, Upgraded(s.tabs[i].doc, text, disk));
            var focused := shown.(active := Some(s.tabs[i].id));
            OpenReply(s, path, text, disk, readOnly, disposition, freshId)
            == Reply(if disposition == Pinned then PinnedTab(focused, s.tabs[i].id) else focused,
                     Ok(Shown(s.tabs[i].id)))
  {
  }

  class EditorWorkspace {
    const ids: DocumentIds
    var documents: seq<Document>
    var active: Option<nat>
    var preview: Option<nat>
    ghost var tabs: seq<Tab>
    ghost var repr: set<object>

    /** Documents share no storage, and their ids came from the counter. */
    ghost predicate Valid()
      reads this`documents, this`tabs, this`repr, ids, repr
    {
      && this !in repr && ids !in repr
      && (forall d | d in documents ::
            d in repr && d.buffer in repr && d.history in repr && d.Valid() && d.id < ids.next)
      && (forall i, j | 0 <= i < j < |documents| ::
            documents[i] != documents[j] && documents[i].buffer != documents[j].buffer
            && documents[i].history != documents[j].history)
      && |tabs| == |documents|
      && (forall i | 0 <= i < |documents| ::
            tabs[i] == Tab(documents[i].id, documents[i].path, documents[i].View()))
    }

    ghost function View(): WorkspaceState
      reads this`tabs, this`active, this`preview
    {
      WorkspaceState(tabs, active, preview)
    }

    constructor (ids: DocumentIds)
      ensures Valid() && this.ids == ids && View() == WorkspaceState([], None, None) && repr == {}
    {
      this.ids := ids;
      documents, active, preview, tabs := [], None, None, [];
      repr := {};
    }

    method Find(id: nat) returns (i: nat)
      requires Valid()
      ensures i == IndexOf(View().tabs, id) && |View().tabs| == |documents|
    {
      hide Document.Valid, Document.View;
      i := 0;
      while i < |documents| && documents[i].id != id
        invariant i <= |documents|
        invariant forall k | 0 <= k < i :: documents[k].id != id
      {
        i := i + 1;
      }
      assert forall k | 0 <= k < |documents| :: View().tabs[k].id == documents[k].id;
    }

    method FindPath(path: string) returns (i: nat)
      requires Valid()
      ensures i == IndexOfPath(View().tabs, path) && |View().tabs| == |documents|
    {
      hide Document.Valid, Document.View;
      i := 0;
      while i < |documents| && documents[i].path != path
        invariant i <= |documents|
        invariant forall k | 0 <= k < i :: documents[k].path != path
      {
        i := i + 1;
      }
      assert forall k | 0 <= k < |documents| :: View().tabs[k].path == documents[k].path;
    }

    lemma Apart()
      requires Valid()
      ensures this !in repr && ids !in repr
    {
    }

    lemma Member(i: nat)
      requires Valid() && i < |documents|
      ensures |tabs| == |documents| && documents[i].Valid()
      ensures documents[i] in repr && documents[i].buffer in repr && documents[i].history in repr
      ensures this !in repr && ids !in repr
      ensures tabs[i] == Tab(documents[i].id, documents[i].path, documents[i].View())
    {
    }

    /** Only the document at `i`, and the bookkeeping that follows it, changed. */
    twostate predicate OnlyChanged(i: nat)
      reads this, ids, repr
    {
      && old(Valid()) && documents == old(documents) && unchanged(ids) && i < |documents|
      && documents[i] in repr && documents[i].buffer in repr && documents[i].history in repr
      && repr == old(repr) + documents[i].Repr()
      && tabs == old(tabs)[i := Tab(documents[i].id, documents[i].path, documents[i].View())]
      && documents[i].Valid() && fresh(documents[i].Repr() - old(documents[i].Repr()))
      && (forall o | o in old(repr) && o !in old(documents[i].Repr()) :: unchanged(o))
    }

    /** Updating one document in place leaves every other one as it was. */
    twostate lemma OthersUntouched(i: nat)
      requires OnlyChanged(i)
      ensures forall j | 0 <= j < |documents| && j != i ::
                && documents[j].View() == old(documents[j].View()) && documents[j].Valid()
                && documents[j].buffer == old(documents[j].buffer) && documents[j].history == old(documents[j].history)
    {
      forall j | 0 <= j < |documents| && j != i
        ensures documents[j].View() == old(documents[j].View()) && documents[j].Valid()
        ensures documents[j].buffer == old(documents[j].buffer) && documents[j].history == old(documents[j].history)
      {
        var d := documents[j];
        assert d in documents;
        assert d !in old(documents[i].Repr());
        assert old(d.buffer) !in old(documents[i].Repr());
        assert old(d.history) !in old(documents[i].Repr());
        assert unchanged(d) && unchanged(old(d.buffer)) && unchanged(old(d.history));
      }
    }

    twostate lemma Touched(i: nat)
      requires OnlyChanged(i)
      ensures Valid() && fresh(repr - old(repr))
    {
      hide Document.Valid, Document.View;
      OthersUntouched(i);
      forall j | 0 <= j < |documents| && j != i
        ensures documents[i] != documents[j] && documents[i].buffer != documents[j].buffer
        ensures documents[i].history != documents[j].history
      {
        assert documents[j] in documents;
      }
    }

    /** Brings the model up to date with a document that was changed in place. */
    ghost method Track(i: nat)
      requires i < |documents| && |tabs| == |documents|
      modifies this`repr, this`tabs
      ensures repr == old(repr) + documents[i].Repr()
      ensures tabs == old(tabs)[i := old(tabs)[i].(doc := documents[i].View())]
    {
      repr := repr + documents[i].Repr();
      tabs := tabs[i := tabs[i].(doc := documents[i].View())];
    }

    method Settle(id: nat, o: Result<(), DocumentError>, pins: bool) returns (r: Result<Answer, WorkspaceError>)
      requires Valid()
      modifies this`preview
      ensures Valid()
      ensures Reply(View(), r) == Settled(old(View()), id, o, pins)
    {
      hide Valid, Document.Valid, Removed, Recoverable;
      Apart();
      if o.Err? {
        return Err(DocumentFailed(o.error));
      }
      if pins && preview == Some(id) {
        preview := None;
      }
      r := Ok(Done);
    }

    method Edit(id: nat, transaction: WfTransaction, kind: EditKind, cursorBefore: nat, cursorAfter: nat)
      returns (r: Result<Answer, WorkspaceError>)
      requires Valid()
      modifies this, repr
      ensures Valid() && fresh(repr - old(repr))
      ensures Reply(View(), r)
           == DocumentReply(old(View()), id, DocEvent.Edit(transaction, kind, cursorBefore, cursorAfter))
    {
      hide EditOutcome, Document.Valid, Document.View, Settled, Valid;
      Apart();
      var i := Find(id);
      if i == |documents| {
        return Err(DocumentNotFound(id));
      }
      Member(i);
      var o := documents[i].Edit(transaction, kind, cursorBefore, cursorAfter);
      Track(i);
      Touched(i);
      r := Settle(id, o, true);
    }

    method Undo(id: nat) returns (r: Result<Answer, WorkspaceError>)
      requires Valid()
      modifies this, repr
      ensures Valid() && fresh(repr - old(repr))
      ensures Reply(View(), r) == DocumentReply(old(View()), id, DocEvent.Undo)
    {
      hide UndoOutcome, Document.Valid, Document.View, Settled, Valid;
      Apart();
      var i := Find(id);
      if i == |documents| {
        return Err(DocumentNotFound(id));
      }
      Member(i);
      var o := documents[i].Undo();
      Track(i);
      Touched(i);
      r := Settle(id, o, true);
    }

    method Redo(id: nat) returns (r: Result<Answer, WorkspaceError>)
      requires Valid()
      modifies this, repr
      ensures Valid() && fresh(repr - old(repr))
      ensures Reply(View(), r) == DocumentReply(old(View()), id, DocEvent.Redo)
    {
      hide RedoOutcome, Document.Valid, Document.View, Settled, Valid;
      Apart();
      var i := Find(id);
      if i == |documents| {
        return Err(DocumentNotFound(id));
      }
      Member(i);
      var o := documents[i].Redo();
      Track(i);
      Touched(i);
      r := Settle(id, o, true);
    }

    method CompleteSave(id: nat, expected: Revision, diskRevision: DiskRevision)
      returns (r: Result<Answer, WorkspaceError>)
      requires Valid()
      modifies this, repr
      ensures Valid() && fresh(repr - old(repr))
      ensures Reply(View(), r) == DocumentReply(old(View()), id, DocEvent.CompleteSave(expected, diskRevision))
    {
      hide SaveOutcome, Document.Valid, Document.View, Settled, Valid;
      Apart();
      var i := Find(id);
      if i == |documents| {
        return Err(DocumentNotFound(id));
      }
      Member(i);
      var o := documents[i].CompleteSave(expected, diskRevision);
      Track(i);
      Touched(i);
      r := Settle(id, o, false);
    }

    method MarkRecovered(id: nat) returns (r: Result<Answer, WorkspaceError>)
      requires Valid()
      modifies this, repr
      ensures Valid() && fresh(repr - old(repr))
      ensures Reply(View(), r) == DocumentReply(old(View()), id, DocEvent.MarkRecovered)
    {
      hide Recover, Document.Valid, Document.View, Settled, Valid;
      Apart();
      var i := Find(id);
      if i == |documents| {
        return Err(DocumentNotFound(id));
      }
      Member(i);
      documents[i].MarkRecovered();
      var o := Ok(());
      Track(i);
      Touched(i);
      r := Settle(id, o, true);
    }

    method ObserveDiskChange(id: nat, expected: Revision, diskRevision: DiskRevision, text: string)
      returns (r: Result<Answer, WorkspaceError>)
      requires Valid()
      modifies this, repr
      ensures Valid() && fresh(repr - old(repr))
      ensures Reply(View(), r)
           == DocumentReply(old(View()), id, DocEvent.ObserveDiskChange(expected, diskRevision, text))
    {
      hide DiskChangeOutcome, Document.Valid, Document.View, Settled, Valid;
      Apart();
      var i := Find(id);
      if i == |documents| {
        return Err(DocumentNotFound(id));
      }
      Member(i);
      var o := documents[i].ObserveDiskChange(expected, diskRevision, text);
      Track(i);
      Touched(i);
      var recoverable := documents[i].IsRecoverable();
      r := Settle(id, o, recoverable);
    }

    method ObserveMissing(id: nat, expected: Revision) returns (r: Result<Answer, WorkspaceError>)
      requires Valid()
      modifies this, repr
      ensures Valid() && fresh(repr - old(repr))
      ensures Reply(View(), r) == DocumentReply(old(View()), id, DocEvent.ObserveMissing(expected))
    {
      hide MissingOutcome, Document.Valid, Document.View, Settled, Valid;
      Apart();
      var i := Find(id);
      if i == |documents| {
        return Err(DocumentNotFound(id));
      }
      Member(i);
      var o := documents[i].ObserveMissing(expected);
      Track(i);
      Touched(i);
      r := Settle(id, o, true);
    }

    method ReloadFromDisk(id: nat) returns (r: Result<Answer, WorkspaceError>)
      requires Valid()
      modifies this, repr
      ensures Valid() && fresh(repr - old(repr))
      ensures Reply(View(), r) == DocumentReply(old(View()), id, DocEvent.ReloadFromDisk)
    {
      hide ReloadOutcome, Document.Valid, Document.View, Settled, Valid;
      Apart();
      var i := Find(id);
      if i == |documents| {
        return Err(DocumentNotFound(id));
      }
      Member(i);
      var o := documents[i].ReloadFromDisk();
      Track(i);
      Touched(i);
      r := Settle(id, o, true);
    }

    method KeepEditing(id: nat) returns (r: Result<Answer, WorkspaceError>)
      requires Valid()
      modifies this, repr
      ensures Valid() && fresh(repr - old(repr))
      ensures Reply(View(), r) == DocumentReply(old(View()), id, DocEvent.KeepEditing)
    {
      hide KeepEditingOutcome, Document.Valid, Document.View, Settled, Valid;
      Apart();
      var i := Find(id);
      if i == |documents| {
        return Err(DocumentNotFound(id));
      }
      Member(i);
      var o := documents[i].KeepEditing();
      Track(i);
      Touched(i);
      r := Settle(id, o, true);
    }

    method RestoreRecovery(id: nat, text: string) returns (r: Result<Answer, WorkspaceError>)
      requires Valid()
      modifies this, repr
      ensures Valid() && fresh(repr - old(repr))
      ensures Reply(View(), r) == DocumentReply(old(View()), id, DocEvent.RestoreRecovery(text))
    {
      hide RestoreOutcome, Document.Valid, Document.View, Settled, Valid;
      Apart();
      var i := Find(id);
      if i == |documents| {
        return Err(DocumentNotFound(id));
      }
      Member(i);
      var o := documents[i].RestoreRecovery(text);
      Track(i);
      Touched(i);
      r := Settle(id, o, true);
    }

    method Select(id: nat) returns (r: Result<Answer, WorkspaceError>)
      requires Valid()
      modifies this`active
      ensures Valid() && Reply(View(), r) == SelectReply(old(View()), id)
    {
      hide Valid;
      Apart();
      var i := Find(id);
      if i == |documents| {
        return Err(DocumentNotFound(id));
      }
      active := Some(id);
      r := Ok(Done);
    }

    method PinDocument(id: nat) returns (r: Result<Answer, WorkspaceError>)
      requires Valid()
      modifies this`preview
      ensures Valid() && Reply(View(), r) == PinReply(old(View()), id)
    {
      hide Valid, Document.Valid, Removed, Recoverable;
      Apart();
      var i := Find(id);
      if i == |documents| {
        return Err(DocumentNotFound(id));
      }
      r := Settle(id, Ok(()), true);
    }

    method RemoveAt(index: nat)
      requires Valid() && index < |documents|
      modifies this`documents, this`tabs
      ensures Valid()
      ensures documents == old(documents)[..index] + old(documents)[index + 1..]
      ensures tabs == old(tabs)[..index] + old(tabs)[index + 1..]
    {
      hide Document.Valid, Document.View;
      documents := documents[..index] + documents[index + 1..];
      tabs := tabs[..index] + tabs[index + 1..];
      assert forall k | 0 <= k < |documents| :: documents[k] == old(documents)[if k < index then k else k + 1];
      assert forall k | 0 <= k < |documents| :: documents[k] in old(documents);
    }

    method GetId(index: nat) returns (id: Option<nat>)
      requires Valid()
      ensures id == IdAt(tabs, index)
    {
      hide Document.Valid, Document.View;
      id := if index < |documents| then Some(documents[index].id) else None;
    }

    method Remove(id: nat)
      requires Valid()
      modifies this`documents, this`tabs, this`active, this`preview
      ensures Valid() && View() == Removed(old(View()), id)
    {
      hide Valid, IdAt;
      var index := Find(id);
      if index == |documents| {
        return;
      }
      RemoveAt(index);
      Apart();
      if preview == Some(id) {
        preview := None;
      }
      if active == Some(id) {
        active := GetId(if index == 0 then 0 else index - 1);
        if active.None? {
          active := GetId(index);
        }
      }
    }

    method ClearReplaceablePreview()
      requires Valid()
      modifies this`documents, this`tabs, this`active, this`preview
      ensures Valid() && View() == PreviewCleared(old(View()))
    {
      hide Valid, Removed, Recoverable, Document.Valid;
      if preview.None? {
        return;
      }
      var id := preview.value;
      Apart();
      var i := Find(id);
      preview := None;
      if i < |documents| {
        Member(i);
        var recoverable := documents[i].IsRecoverable();
        if !recoverable {
          Remove(id);
        }
      }
    }

    method RequestClose(id: nat) returns (r: Result<Answer, WorkspaceError>)
      requires Valid()
      modifies this`documents, this`tabs, this`active, this`preview
      ensures Valid() && Reply(View(), r) == RequestCloseReply(old(View()), id)
    {
      hide Valid, Document.Valid, Removed, Recoverable;
      Apart();
      var i := Find(id);
      if i == |documents| {
        return Err(DocumentNotFound(id));
      }
      Member(i);
      var recoverable := documents[i].IsRecoverable();
      if recoverable {
        return Ok(Closing(NeedsDecision));
      }
      Remove(id);
      r := Ok(Closing(Closed));
    }

    method ResolveClose(id: nat, decision: CloseDecision) returns (r: Result<Answer, WorkspaceError>)
      requires Valid()
      modifies this`documents, this`tabs, this`active, this`preview
      ensures Valid() && Reply(View(), r) == ResolveCloseReply(old(View()), id, decision)
    {
      hide Valid, Document.Valid, Removed, Recoverable;
      Apart();
      var i := Find(id);
      if i == |documents| {
        return Err(DocumentNotFound(id));
      }
      match decision
      case Cancel => r := Ok(Closing(Cancelled));
      case Save => r := Ok(Closing(SaveRequired));
      case Discard =>
        Remove(id);
        r := Ok(Closing(Closed));
    }

    /** Opens or focuses a document; a new one takes the counter's next id, which
        no open document has. */
    method Open(path: string, text: string, diskRevision: DiskRevision, readOnly: bool, disposition: OpenDisposition)
      returns (r: Result<Answer, WorkspaceError>)
      requires Valid()
      modifies this, repr, ids
      ensures Valid() && fresh(repr - old(repr))
      ensures forall t | t in old(View()).tabs :: t.id != old(ids.next)
      ensures Reply(View(), r) == OpenReply(old(View()), path, text, diskRevision, readOnly, disposition, old(ids.next))
    {
      hide Document.Valid, Upgraded, Opened, PreviewCleared, WithDocument, PinnedTab;
      var i := FindPath(path);
      if i < |documents| {
        if !readOnly {
          UpgradeAt(i, text, diskRevision);
        }
        r := ShowExisting(documents[i].id, disposition);
        ShownTab(old(View()), i, path, text, diskRevision, readOnly, disposition, old(ids.next));
      } else {
        if disposition == Preview {
          ClearReplaceablePreview();
        }
        r := AddNew(path, text, diskRevision, readOnly, disposition);
      }
    }

    method UpgradeAt(i: nat, text: string, diskRevision: DiskRevision)
      requires Valid() && i < |documents|
      modifies this`repr, this`tabs, repr
      ensures Valid() && fresh(repr - old(repr)) && documents[i] == old(documents[i])
      ensures View() == WithDocument(old(View()), i, Upgraded(old(View()).tabs[i].doc, text, diskRevision))
    {
      hide Document.Valid, Upgraded;
      documents[i].UpgradeReadOnly(text, diskRevision);
      Track(i);
      Touched(i);
    }

    method ShowExisting(id: nat, disposition: OpenDisposition) returns (r: Result<Answer, WorkspaceError>)
      requires Valid()
      modifies this`active, this`preview
      ensures Valid() && r == Ok(Shown(id))
      ensures View() == var focused := old(View()).(active := Some(id));
                        if disposition == Pinned then PinnedTab(focused, id) else focused
    {
      hide Valid;
      Apart();
      active := Some(id);
      if disposition == Pinned && preview == Some(id) {
        preview := None;
      }
      r := Ok(Shown(id));
    }

    method Append(document: Document)
      requires Valid() && document.Valid() && document.id < ids.next
      requires document !in repr && document.buffer !in repr && document.history !in repr
      modifies this`documents, this`repr, this`tabs
      ensures Valid() && documents == old(documents) + [document] && repr == old(repr) + document.Repr()
      ensures tabs == old(tabs) + [Tab(document.id, document.path, document.View())]
    {
      hide Document.Valid, Document.View;
      documents := documents + [document];
      repr := repr + document.Repr();
      tabs := tabs + [Tab(document.id, document.path, document.View())];
    }

    /** Drawing an id leaves the open documents as they are. */
    method NextId() returns (id: nat)
      requires Valid()
      modifies ids
      ensures Valid() && id == old(ids.next) < ids.next
    {
      hide Document.Valid, Document.View;
      id := ids.FetchAdd();
    }

    method AddNew(path: string, text: string, diskRevision: DiskRevision, readOnly: bool, disposition: OpenDisposition)
      returns (r: Result<Answer, WorkspaceError>)
      requires Valid()
      modifies this, ids
      ensures Valid() && fresh(repr - old(repr)) && r == Ok(Shown(old(ids.next)))
      ensures View().tabs == old(View()).tabs + [Tab(old(ids.next), path, Opened(text, diskRevision, readOnly))]
      ensures View().active == Some(old(ids.next))
      ensures View().preview == if disposition == Preview then Some(old(ids.next)) else None
    {
      hide Valid, Document.Valid, Document.View, Opened;
      var id := NextId();
      var document := new Document(id, path, text, diskRevision, readOnly);
      Append(document);
      Apart();
      active := Some(id);
      preview := if disposition == Preview then Some(id) else None;
      r := Ok(Shown(id));
    }
  }
}
