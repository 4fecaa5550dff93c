/** The document state machine (`document.rs`): user edits, undo and redo, and
    the asynchronous save and disk events. */
module Documents {
  import opened Wrappers
  import opened Transactions
  import opened TextBuffers
  import opened Histories

  type DiskRevision = string

  datatype DocumentStatus =
    | Clean
    | Dirty
    | Conflict(diskRevision: DiskRevision, diskText: string)
    | Missing

  datatype DocumentError =
    | ReadOnly
    | NoDiskConflict
    | StaleEvent(expected: Revision, actual: Revision)
    | TransactionFailed(transaction: TransactionError)
    | HistoryFailed(history: HistoryError)

  datatype DocState = DocState(
    text: string, revision: Revision, history: HistoryState, savedText: string,
    diskRevision: DiskRevision, status: DocumentStatus, readOnly: bool, recovered: bool)

  datatype DocEvent =
    | Edit(transaction: WfTransaction, kind: EditKind, cursorBefore: nat, cursorAfter: nat)
    | Undo
    | Redo
    | CompleteSave(expected: Revision, diskRevision: DiskRevision)
    | ObserveDiskChange(expected: Revision, diskRevision: DiskRevision, diskText: string)
    | ObserveMissing(expected: Revision)
    | ReloadFromDisk
    | KeepEditing
    | RestoreRecovery(recoveredText: string)
    | MarkRecovered
    | UpgradeReadOnly(fullText: string, diskRevision: DiskRevision)

  datatype Outcome = Outcome(state: DocState, result: Result<(), DocumentError>)

  function Opened(text: string, diskRevision: DiskRevision, readOnly: bool): DocState {
    DocState(text, 0, EMPTY_HISTORY, text, diskRevision, Clean, readOnly, false)
  }

  function Refreshed(s: DocState): DocState {
    if s.status.Clean? || s.status.Dirty? then s.(status := if s.text == s.savedText then Clean else Dirty) else s
  }

  /** The one transaction the event handlers build themselves. */
  function ReplaceAll(s: DocState, text: string): WfTransaction {
    EditTransaction(s.revision, [Replacement(CharRange(0, |s.text|), text)])
  }

  function WithText(s: DocState, t: WfTransaction): DocState
    requires ApplyResult(s.text, s.revision, t).Ok?
  {
    s.(text := Substitute(s.text, t.replacements), revision := s.revision + 1)
  }

  function WithEdit(s: DocState, t: WfTransaction, kind: EditKind, cursorBefore: nat, cursorAfter: nat): DocState
    requires ApplyResult(s.text, s.revision, t).Ok?
  {
    var entry := FromApplied(s.text, s.revision, t, kind, cursorBefore, cursorAfter);
    WithText(s, t).(history := Recorded(DEFAULT_BUDGET, s.history, entry))
  }

  function Recover(s: DocState): DocState {
    s.(recovered := true, status := if s.status.Clean? then Dirty else s.status)
  }

  function Fail(s: DocState, error: DocumentError): Outcome {
    Outcome(s, Err(error))
  }

  /** Moves through the history first and applies second, as the source does. */
  function Traverse(moved: DocState, t: WfTransaction): Outcome {
    var applied := ApplyResult(moved.text, moved.revision, t);
    if applied.Err? then Fail(moved, TransactionFailed(applied.error))
    else Outcome(Refreshed(WithText(moved, t)), Ok(()))
  }

  function EditOutcome(s: DocState, t: WfTransaction, kind: EditKind, cursorBefore: nat, cursorAfter: nat): Outcome {
    var applied := ApplyResult(s.text, s.revision, t);
    if s.readOnly then Fail(s, ReadOnly)
    else if applied.Err? then Fail(s, TransactionFailed(applied.error))
    else Outcome(Refreshed(WithEdit(s, t, kind, cursorBefore, cursorAfter)), Ok(()))
  }

  function UndoOutcome(s: DocState): Outcome {
    if s.history.undo == [] then Fail(s, HistoryFailed(NothingToUndo))
    else Traverse(s.(history := Undone(s.history)), Retarget(Last(s.history.undo).inverse, s.revision))
  }

  function RedoOutcome(s: DocState): Outcome {
    if s.history.redo == [] then Fail(s, HistoryFailed(NothingToRedo))
    else Traverse(s.(history := Redone(DEFAULT_BUDGET, s.history)),
                  Retarget(Last(s.history.redo).forward, s.revision))
  }

  function SaveOutcome(s: DocState, expected: Revision, diskRevision: DiskRevision): Outcome {
    if expected != s.revision then Fail(s, StaleEvent(s.revision, expected))
    else Outcome(s.(savedText := s.text, diskRevision := diskRevision, status := Clean, recovered := false), Ok(()))
  }

  function DiskChangeOutcome(s: DocState, expected: Revision, diskRevision: DiskRevision, diskText: string): Outcome {
    var applied := ApplyResult(s.text, s.revision, ReplaceAll(s, diskText));
    if expected != s.revision then Fail(s, StaleEvent(s.revision, expected))
    else if !s.status.Clean? then Outcome(s.(status := Conflict(diskRevision, diskText)), Ok(()))
    else if applied.Err? then Fail(s, TransactionFailed(applied.error))
    else Outcome(WithText(s, ReplaceAll(s, diskText)).(history := EMPTY_HISTORY, savedText := diskText,
                                                       diskRevision := diskRevision, status := Clean), Ok(()))
  }

  function MissingOutcome(s: DocState, expected: Revision): Outcome {
    if expected != s.revision then Fail(s, StaleEvent(s.revision, expected))
    else Outcome(s.(status := Missing), Ok(()))
  }

  function ReloadOutcome(s: DocState): Outcome {
    if !s.status.Conflict? then Fail(s, NoDiskConflict)
    else
      var t := ReplaceAll(s, s.status.diskText);
      var applied := ApplyResult(s.text, s.revision, t);
      if applied.Err? then Fail(s, TransactionFailed(applied.error))
      else Outcome(WithEdit(s, t, Other, 0, 0).(savedText := s.status.diskText, status := Clean, recovered := false,
                                                diskRevision := s.status.diskRevision), Ok(()))
  }

  function KeepEditingOutcome(s: DocState): Outcome {
    if !s.status.Conflict? then Fail(s, NoDiskConflict) else Outcome(s.(status := Dirty), Ok(()))
  }

  function RestoreOutcome(s: DocState, text: string): Outcome {
    var applied := ApplyResult(s.text, s.revision, ReplaceAll(s, text));
    if s.text == text then Outcome(Recover(s), Ok(()))
    else if applied.Err? then Fail(s, TransactionFailed(applied.error))
    else Outcome(Recover(WithText(s, ReplaceAll(s, text)).(history := EMPTY_HISTORY)), Ok(()))
  }

  function Upgraded(s: DocState, text: string, diskRevision: DiskRevision): DocState {
    if !s.readOnly then s
    else DocState(text, 0, EMPTY_HISTORY, text, diskRevision, Clean, false, s.recovered)
  }

  function Step(s: DocState, e: DocEvent): Outcome {
    match e
    case Edit(t, kind, cursorBefore, cursorAfter) => EditOutcome(s, t, kind, cursorBefore, cursorAfter)
    case Undo => UndoOutcome(s)
    case Redo => RedoOutcome(s)
    case CompleteSave(expected, diskRevision) => SaveOutcome(s, expected, diskRevision)
    case ObserveDiskChange(expected, diskRevision, diskText) => DiskChangeOutcome(s, expected, diskRevision, diskText)
    case ObserveMissing(expected) => MissingOutcome(s, expected)
    case ReloadFromDisk => ReloadOutcome(s)
    case KeepEditing => KeepEditingOutcome(s)
    case RestoreRecovery(text) => RestoreOutcome(s, text)
    case MarkRecovered => Outcome(Recover(s), Ok(()))
    case UpgradeReadOnly(text, diskRevision) => Outcome(Upgraded(s, text, diskRevision), Ok(()))
  }

  function Run(s: DocState, events: seq<DocEvent>): DocState
    decreases |events|
  {
    if events == [] then s else Run(Step(s, events[0]).state, events[1..])
  }

  predicate Recoverable(s: DocState) {
    s.recovered || !s.status.Clean?
  }

  // -------------------------------------------------------------- the object

  class Document {
    const id: nat
    const path: string
    var buffer: TextBuffer
    var history: History
    var savedText: string
    var diskRevision: DiskRevision
    var status: DocumentStatus
    var readOnly: bool
    var recovered: bool

    ghost function Repr(): set<object>
      reads this
    {
      {this, buffer, history}
    }

    ghost predicate Valid()
      reads this, buffer, history
    {
      buffer.Valid() && history.Valid() && history.budget == DEFAULT_BUDGET
    }

    ghost function View(): DocState
      reads this, buffer, history
    {
      DocState(buffer.text, buffer.revision, history.View(), savedText, diskRevision, status, readOnly, recovered)
    }

    constructor (id: nat, path: string, text: string, diskRevision: DiskRevision, readOnly: bool)
      ensures Valid() && fresh(Repr())
      ensures this.id == id && this.path == path && View() == Opened(text, diskRevision, readOnly)
    {
      this.id, this.path := id, path;
      buffer := new TextBuffer(text);
      history := new History(DEFAULT_BUDGET);
      savedText := text;
      this.diskRevision := diskRevision;
      status := Clean;
      this.readOnly := readOnly;
      recovered := false;
    }

    method UpgradeReadOnly(text: string, diskRevision: DiskRevision)
      requires Valid()
      modifies Repr()
      ensures Valid() && fresh(Repr() - old(Repr()))
      ensures View() == Upgraded(old(View()), text, diskRevision)
    {
      if !readOnly {
        return;
      }
      buffer := new TextBuffer(text);
      history := new History(DEFAULT_BUDGET);
      savedText := text;
      this.diskRevision := diskRevision;
      status := Clean;
      readOnly := false;
    }

    method Edit(transaction: WfTransaction, kind: EditKind, cursorBefore: nat, cursorAfter: nat)
      returns (r: Result<(), DocumentError>)
      requires Valid()
      modifies Repr()
      ensures Valid() && fresh(Repr() - old(Repr()))
      ensures Outcome(View(), r) == EditOutcome(old(View()), transaction, kind, cursorBefore, cursorAfter)
    {
      hide ApplyResult, Substitute, Applicable, TotalCost;
      if readOnly {
        return Err(ReadOnly);
      }
      ghost var before, revision := buffer.text, buffer.revision;
      var applied := buffer.Apply(transaction);
      if applied.Err? {
        return Err(TransactionFailed(applied.error));
      }
      assert Mirrors(FromApplied(before, revision, transaction, kind, cursorBefore, cursorAfter));
      history.Record(EntryRecord(transaction, applied.value.inverse, kind, cursorBefore, cursorAfter,
                                 applied.value.insertedBytes + applied.value.removedBytes));
      RefreshDirtyStatus();
      r := Ok(());
    }

    method Undo() returns (r: Result<(), DocumentError>)
      requires Valid()
      modifies Repr()
      ensures Valid() && fresh(Repr() - old(Repr()))
      ensures Outcome(View(), r) == UndoOutcome(old(View()))
    {
      hide ApplyResult, Substitute, Applicable, TotalCost;
      var transaction := history.Undo(buffer.revision);
      if transaction.Err? {
        return Err(HistoryFailed(transaction.error));
      }
      var applied := buffer.Apply(transaction.value);
      if applied.Err? {
        return Err(TransactionFailed(applied.error));
      }
      RefreshDirtyStatus();
      r := Ok(());
    }

    method Redo() returns (r: Result<(), DocumentError>)
      requires Valid()
      modifies Repr()
      ensures Valid() && fresh(Repr() - old(Repr()))
      ensures Outcome(View(), r) == RedoOutcome(old(View()))
    {
      hide ApplyResult, Substitute, Applicable, TotalCost;
      var transaction := history.Redo(buffer.revision);
      if transaction.Err? {
        return Err(HistoryFailed(transaction.error));
      }
      var applied := buffer.Apply(transaction.value);
      if applied.Err? {
        return Err(TransactionFailed(applied.error));
      }
      RefreshDirtyStatus();
      r := Ok(());
    }

    method CompleteSave(expected: Revision, diskRevision: DiskRevision) returns (r: Result<(), DocumentError>)
      requires Valid()
      modifies Repr()
      ensures Valid() && fresh(Repr() - old(Repr()))
      ensures Outcome(View(), r) == SaveOutcome(old(View()), expected, diskRevision)
    {
      if expected != buffer.revision {
        return Err(StaleEvent(buffer.revision, expected));
      }
      savedText := buffer.text;
      this.diskRevision := diskRevision;
      status := Clean;
      recovered := false;
      r := Ok(());
    }

    method ObserveDiskChange(expected: Revision, diskRevision: DiskRevision, diskText: string)
      returns (r: Result<(), DocumentError>)
      requires Valid()
      modifies Repr()
      ensures Valid() && fresh(Repr() - old(Repr()))
      ensures Outcome(View(), r) == DiskChangeOutcome(old(View()), expected, diskRevision, diskText)
    {
      hide ApplyResult, Substitute, Applicable, TotalCost;
      if expected != buffer.revision {
        return Err(StaleEvent(buffer.revision, expected));
      }
      if status == Clean {
        var transaction := WholeReplacement(diskText);
        var applied := buffer.Apply(transaction);
        if applied.Err? {
          return Err(TransactionFailed(applied.error));
        }
        history := new History(DEFAULT_BUDGET);
        savedText := diskText;
        this.diskRevision := diskRevision;
        status := Clean;
      } else {
        status := Conflict(diskRevision, diskText);
      }
      r := Ok(());
    }

    method ObserveMissing(expected: Revision) returns (r: Result<(), DocumentError>)
      requires Valid()
      modifies Repr()
      ensures Valid() && fresh(Repr() - old(Repr()))
      ensures Outcome(View(), r) == MissingOutcome(old(View()), expected)
    {
      if expected != buffer.revision {
        return Err(StaleEvent(buffer.revision, expected));
      }
      status := Missing;
      r := Ok(());
    }

    method ReloadFromDisk() returns (r: Result<(), DocumentError>)
      requires Valid()
      modifies Repr()
      ensures Valid() && fresh(Repr() - old(Repr()))
      ensures Outcome(View(), r) == ReloadOutcome(old(View()))
    {
      hide ApplyResult, Substitute, Applicable, TotalCost, WithinBudget, Recorded, DetectLineEnding, Mirrors;
      if !status.Conflict? {
        return Err(NoDiskConflict);
      }
      var diskText, newRevision := status.diskText, status.diskRevision;
      var transaction := WholeReplacement(diskText);
      ghost var before, revision := buffer.text, buffer.revision;
      var applied := buffer.Apply(transaction);
      if applied.Err? {
        return Err(TransactionFailed(applied.error));
      }
      assert Mirrors(FromApplied(before, revision, transaction, Other, 0, 0));
      history.Record(EntryRecord(transaction, applied.value.inverse, Other, 0, 0,
                                 applied.value.insertedBytes + applied.value.removedBytes));
      savedText := diskText;
      diskRevision := newRevision;
      status := Clean;
      recovered := false;
      r := Ok(());
    }

    method KeepEditing() returns (r: Result<(), DocumentError>)
      requires Valid()
      modifies Repr()
      ensures Valid() && fresh(Repr() - old(Repr()))
      ensures Outcome(View(), r) == KeepEditingOutcome(old(View()))
    {
      if !status.Conflict? {
        return Err(NoDiskConflict);
      }
      status := Dirty;
      r := Ok(());
    }

    method RestoreRecovery(text: string) returns (r: Result<(), DocumentError>)
      requires Valid()
      modifies Repr()
      ensures Valid() && fresh(Repr() - old(Repr()))
      ensures Outcome(View(), r) == RestoreOutcome(old(View()), text)
    {
      hide ApplyResult, Substitute, Applicable, TotalCost;
      ghost var before := View();
      if buffer.text != text {
        var transaction := WholeReplacement(text);
        var applied := buffer.Apply(transaction);
        if applied.Err? {
          return Err(TransactionFailed(applied.error));
        }
        history := new History(DEFAULT_BUDGET);
        assert View() == WithText(before, transaction).(history := EMPTY_HISTORY);
      }
      MarkRecovered();
      r := Ok(());
    }

    method MarkRecovered()
      requires Valid()
      modifies Repr()
      ensures Valid() && fresh(Repr() - old(Repr()))
      ensures buffer == old(buffer) && history == old(history)
      ensures View() == Recover(old(View()))
    {
      recovered := true;
      if status == Clean {
        status := Dirty;
      }
    }

    method IsRecoverable() returns (b: bool)
      requires Valid()
      ensures b == Recoverable(View())
    {
      b := recovered || status != Clean;
    }

    method RefreshDirtyStatus()
      requires Valid()
      modifies this`status
      ensures View() == Refreshed(old(View()))
    {
      if status == Clean || status == Dirty {
        status := if buffer.text == savedText then Clean else Dirty;
      }
    }

    /** `EditTransaction::new` on one range spanning the text: it cannot fail. */
    method WholeReplacement(text: string) returns (t: WfTransaction)
      requires Valid()
      ensures t == ReplaceAll(View(), text)
    {
      var whole := [Replacement(CharRange(0, |buffer.text|), text)];
      NewOfWellFormed(buffer.revision, whole);
      t := NewTransaction(buffer.revision, whole).value;
    }
  }
}
