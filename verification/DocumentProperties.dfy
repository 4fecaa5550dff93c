/** What holds of every document over every run of events. */
module DocumentProperties {
  import opened Wrappers
  import opened Transactions
  import opened TextBuffers
  import opened Histories
  import opened Documents

  /** A clean document shows its saved text, the history is within budget, and,
      unless the revision counter is used up, it is a chain from the text. */
  predicate Inv(s: DocState) {
    && (s.status.Clean? ==> s.text == s.savedText)
    && WithinBudget(DEFAULT_BUDGET, s.history)
    && (s.revision < MAX_REVISION ==> Chain(s.text, s.history))
  }

  lemma ReplaceAllResult(s: DocState, text: string)
    ensures Applicable(s.text, ReplaceAll(s, text).replacements)
    ensures Substitute(s.text, ReplaceAll(s, text).replacements) == text
    ensures Inverse(s.text, ReplaceAll(s, text).replacements) == [Replacement(CharRange(0, |text|), s.text)]
  {
    var r := Replacement(CharRange(0, |s.text|), text);
    PlacedIffWellFormed([r], 0, |s.text|);
    assert [r][1..] == [];
    assert SubstituteFrom(s.text, [], |s.text|) == "";
    assert InverseFrom(s.text, [], |s.text|, |text| - |s.text|) == [];
    assert s.text[0..|s.text|] == s.text && s.text[0..0] == "";
  }

  // --------------------------------------------------------------- invariance

  lemma EmptyHistoryIsChain(text: string)
    ensures Chain(text, EMPTY_HISTORY) && WithinBudget(DEFAULT_BUDGET, EMPTY_HISTORY)
  {
  }

  lemma EditKeepsChain(s: DocState, t: WfTransaction, kind: EditKind, before: nat, after: nat)
    requires Inv(s) && ApplyResult(s.text, s.revision, t).Ok?
    ensures var s' := WithEdit(s, t, kind, before, after);
            Chain(s'.text, s'.history) && WithinBudget(DEFAULT_BUDGET, s'.history)
  {
    var entry := FromApplied(s.text, s.revision, t, kind, before, after);
    RecordKeepsChain(DEFAULT_BUDGET, s.history, entry, s.text, Substitute(s.text, t.replacements));
    RecordKeepsBudget(DEFAULT_BUDGET, s.history, entry);
  }

  function AfterUndo(s: DocState): DocState
    requires s.history.undo != [] && Applicable(s.text, Last(s.history.undo).inverse.replacements)
    requires s.revision < MAX_REVISION
  {
    s.(text := Substitute(s.text, Last(s.history.undo).inverse.replacements),
       revision := s.revision + 1, history := Undone(s.history))
  }

  function AfterRedo(s: DocState): DocState
    requires s.history.redo != [] && Applicable(s.text, Last(s.history.redo).forward.replacements)
    requires s.revision < MAX_REVISION
  {
    s.(text := Substitute(s.text, Last(s.history.redo).forward.replacements),
       revision := s.revision + 1, history := Redone(DEFAULT_BUDGET, s.history))
  }

  /** Undo on a chained document: where it leads, and its one refusal. */
  lemma UndoResult(s: DocState)
    requires Chain(s.text, s.history) && s.history.undo != []
    ensures Applicable(s.text, Last(s.history.undo).inverse.replacements)
    ensures Step(s, Undo) ==
            if s.revision == MAX_REVISION then
              Outcome(s.(history := Undone(s.history)), Err(TransactionFailed(RevisionExhausted)))
            else Outcome(Refreshed(AfterUndo(s)), Ok(()))
  {
  }

  lemma RedoResult(s: DocState)
    requires Chain(s.text, s.history) && s.history.redo != []
    ensures Applicable(s.text, Last(s.history.redo).forward.replacements)
    ensures Step(s, Redo) ==
            if s.revision == MAX_REVISION then
              Outcome(s.(history := Redone(DEFAULT_BUDGET, s.history)), Err(TransactionFailed(RevisionExhausted)))
            else Outcome(Refreshed(AfterRedo(s)), Ok(()))
  {
  }

  lemma RefreshedKeepsInv(s: DocState)
    requires WithinBudget(DEFAULT_BUDGET, s.history) && Chain(s.text, s.history)
    requires s.status.Clean? || s.status.Dirty? || !Refreshed(s).status.Clean?
    ensures Inv(Refreshed(s)) && Chain(Refreshed(s).text, Refreshed(s).history)
  {
  }

  /** The traversal moves an entry and is then refused: no revision is left. */
  predicate Refused(s: DocState, e: DocEvent) {
    s.revision == MAX_REVISION && ((e.Undo? && s.history.undo != []) || (e.Redo? && s.history.redo != []))
  }

  lemma {:induction false} UndoKeepsInv(s: DocState)
    requires Inv(s)
    ensures Inv(Step(s, Undo).state)
    ensures Chain(s.text, s.history) && !Refused(s, Undo) ==>
              Chain(Step(s, Undo).state.text, Step(s, Undo).state.history)
  {
    hide Chain, Substitute, Applicable;
    if s.history.undo != [] {
      UndoKeepsBudget(DEFAULT_BUDGET, s.history);
      if s.revision < MAX_REVISION {
        UndoResult(s);
        UndoKeepsChain(s.text, s.history);
        RefreshedKeepsInv(AfterUndo(s));
      }
    }
  }

  lemma {:induction false} RedoKeepsInv(s: DocState)
    requires Inv(s)
    ensures Inv(Step(s, Redo).state)
    ensures Chain(s.text, s.history) && !Refused(s, Redo) ==>
              Chain(Step(s, Redo).state.text, Step(s, Redo).state.history)
  {
    hide Chain, Substitute, Applicable;
    if s.history.redo != [] {
      RedoNeverEvicts(DEFAULT_BUDGET, s.history);
      if s.revision < MAX_REVISION {
        RedoResult(s);
        RedoKeepsChain(DEFAULT_BUDGET, s.text, s.history);
        RefreshedKeepsInv(AfterRedo(s));
      }
    }
  }

  lemma EditKeepsInv(s: DocState, t: WfTransaction, kind: EditKind, before: nat, after: nat)
    requires Inv(s)
    ensures Inv(Step(s, DocEvent.Edit(t, kind, before, after)).state)
  {
    hide Recorded, FromApplied, Inverse, Substitute, Chain;
    if !s.readOnly && ApplyResult(s.text, s.revision, t).Ok? {
      EditKeepsChain(s, t, kind, before, after);
      RefreshedKeepsInv(WithEdit(s, t, kind, before, after));
    }
  }

  lemma ReloadKeepsInv(s: DocState)
    requires Inv(s)
    ensures Inv(Step(s, ReloadFromDisk).state)
  {
    hide Chain, Recorded, Substitute, Inverse, FromApplied;
    if s.status.Conflict? && s.revision < MAX_REVISION {
      ReplaceAllResult(s, s.status.diskText);
      EditKeepsChain(s, ReplaceAll(s, s.status.diskText), Other, 0, 0);
    }
  }

  /** Events that replace the text start a new history. */
  lemma ReplacementKeepsInv(s: DocState, e: DocEvent)
    requires Inv(s) && (e.ObserveDiskChange? || e.RestoreRecovery? || e.UpgradeReadOnly?)
    ensures Inv(Step(s, e).state)
  {
    hide Chain, Substitute, Inverse;
    var text := match e
      case ObserveDiskChange(_, _, t) => t
      case RestoreRecovery(t) => t
      case UpgradeReadOnly(t, _) => t;
    ReplaceAllResult(s, text);
    EmptyHistoryIsChain(text);
  }

  /** Every event keeps the invariant, failed ones included. */
  lemma {:induction false} StepKeepsInv(s: DocState, e: DocEvent)
    requires Inv(s)
    ensures Inv(Step(s, e).state)
  {
    match e
    case Edit(t, kind, before, after) => EditKeepsInv(s, t, kind, before, after);
    case Undo => UndoKeepsInv(s);
    case Redo => RedoKeepsInv(s);
    case ReloadFromDisk => ReloadKeepsInv(s);
    case ObserveDiskChange(_, _, _) => ReplacementKeepsInv(s, e);
    case RestoreRecovery(_) => ReplacementKeepsInv(s, e);
    case UpgradeReadOnly(_, _) => ReplacementKeepsInv(s, e);
    case CompleteSave(_, _) =>
    case ObserveMissing(_) =>
    case KeepEditing =>
    case MarkRecovered =>
  }

  lemma {:induction false} RunKeepsInv(s: DocState, events: seq<DocEvent>)
    requires Inv(s)
    ensures Inv(Run(s, events))
    decreases |events|
  {
    if events != [] {
      StepKeepsInv(s, events[0]);
      RunKeepsInv(Step(s, events[0]).state, events[1..]);
    }
  }

  /** Every document a program can reach, from opening on. */
  lemma Reachable(text: string, diskRevision: DiskRevision, readOnly: bool, events: seq<DocEvent>)
    ensures Inv(Run(Opened(text, diskRevision, readOnly), events))
  {
    EmptyHistoryIsChain(text);
    RunKeepsInv(Opened(text, diskRevision, readOnly), events);
  }

  /** However long it is edited, a document retains at most ten thousand edits and
      64 MiB of text for undo and redo together. */
  lemma ReachableWithinBudget(text: string, diskRevision: DiskRevision, readOnly: bool, events: seq<DocEvent>)
    ensures var history := Run(Opened(text, diskRevision, readOnly), events).history;
            && |history.undo| + |history.redo| <= 10_000
            && TotalCost(history.undo) + TotalCost(history.redo) <= 67_108_864
  {
    hide Run, Chain, TotalCost;
    Reachable(text, diskRevision, readOnly, events);
  }

  /** A chain split at the text stays one, at the last revision too, until a
      traversal is refused after it has moved its entry. */
  lemma StepKeepsChain(s: DocState, e: DocEvent)
    requires Inv(s) && Chain(s.text, s.history) && !Refused(s, e)
    ensures Inv(Step(s, e).state) && Chain(Step(s, e).state.text, Step(s, e).state.history)
  {
    hide Chain, WithinBudget, Substitute, Applicable, Recorded, Inverse;
    StepKeepsInv(s, e);
    match e
    case Edit(t, kind, before, after) =>
      if !s.readOnly && ApplyResult(s.text, s.revision, t).Ok? {
        EditKeepsChain(s, t, kind, before, after);
      }
    case Undo => UndoKeepsInv(s);
    case Redo => RedoKeepsInv(s);
    case ReloadFromDisk =>
      if s.status.Conflict? && s.revision < MAX_REVISION {
        ReplaceAllResult(s, s.status.diskText);
        EditKeepsChain(s, ReplaceAll(s, s.status.diskText), Other, 0, 0);
      }
    case _ => EmptyHistoryIsChain(Step(s, e).state.text);
  }

  predicate NeverRefused(s: DocState, events: seq<DocEvent>)
    decreases |events|
  {
    events != [] ==> !Refused(s, events[0]) && NeverRefused(Step(s, events[0]).state, events[1..])
  }

  lemma {:induction false} RunKeepsChain(s: DocState, events: seq<DocEvent>)
    requires Inv(s) && Chain(s.text, s.history) && NeverRefused(s, events)
    ensures var s' := Run(s, events); Inv(s') && Chain(s'.text, s'.history)
    decreases |events|
  {
    hide Inv, Chain, Step;
    if events != [] {
      StepKeepsChain(s, events[0]);
      RunKeepsChain(Step(s, events[0]).state, events[1..]);
    }
  }

  /** In every run without a refused traversal, at whatever revision it ends, every
      undo entry leads to its pre-text and every redo entry forward. */
  lemma ReachableChain(text: string, diskRevision: DiskRevision, readOnly: bool, events: seq<DocEvent>)
    requires NeverRefused(Opened(text, diskRevision, readOnly), events)
    ensures var s := Run(Opened(text, diskRevision, readOnly), events); Chain(s.text, s.history)
  {
    hide Run;
    EmptyHistoryIsChain(text);
    RunKeepsChain(Opened(text, diskRevision, readOnly), events);
  }

  // ------------------------------------- when a traversal has been refused

  function Reversed(s: seq<HistoryEntry>): seq<HistoryEntry> {
    if s == [] then [] else [Last(s)] + Reversed(Init(s))
  }

  /** All retained edits, oldest first, done and undone alike. */
  function Timeline(h: HistoryState): seq<HistoryEntry> {
    h.undo + Reversed(h.redo)
  }

  /** The text stands at some boundary of the retained edits: split there, the undo
      entries lead back from it and the redo entries forward. */
  ghost predicate Anchored(text: string, h: HistoryState) {
    exists split: HistoryState :: Chain(text, split) && Timeline(split) == Timeline(h)
  }

  lemma ChainIsAnchored(text: string, h: HistoryState)
    requires Chain(text, h)
    ensures Anchored(text, h)
  {
  }

  lemma ReversedOfAppend(s: seq<HistoryEntry>, e: HistoryEntry)
    ensures Reversed(s + [e]) == [e] + Reversed(s)
  {
    assert Init(s + [e]) == s;
  }

  lemma UndoneTimeline(h: HistoryState)
    requires h.undo != []
    ensures Timeline(Undone(h)) == Timeline(h)
  {
    hide Reversed, Mirrors;
    ReversedOfAppend(h.redo, Last(h.undo));
    assert h.undo == Init(h.undo) + [Last(h.undo)];
    Rebracket(Init(h.undo), [Last(h.undo)], Reversed(h.redo));
  }

  /** A traversal, refused or not, only moves the mark along the retained edits. */
  lemma RedoneTimeline(h: HistoryState)
    requires WithinBudget(DEFAULT_BUDGET, h) && h.redo != []
    ensures Timeline(Redone(DEFAULT_BUDGET, h)) == Timeline(h)
  {
    RedoNeverEvicts(DEFAULT_BUDGET, h);
  }

  lemma SameTimelineAnchors(text: string, h: HistoryState, moved: HistoryState)
    requires Anchored(text, h) && Timeline(moved) == Timeline(h)
    ensures Anchored(text, moved)
  {
  }

  /** At the last revision the text and the history only change by the read-only
      upgrade, which starts both again, and by traversals that are refused. */
  lemma SpentKeepsText(s: DocState, e: DocEvent)
    requires s.revision == MAX_REVISION && !Refused(s, e) && !(e.UpgradeReadOnly? && s.readOnly)
    ensures Step(s, e).state.text == s.text && Step(s, e).state.history == s.history
  {
  }

  lemma RefusedKeepsTimeline(s: DocState, e: DocEvent)
    requires Inv(s) && Refused(s, e)
    ensures Step(s, e).state.text == s.text && Timeline(Step(s, e).state.history) == Timeline(s.history)
  {
    hide Chain, Timeline;
    if e.Undo? {
      UndoneTimeline(s.history);
    } else {
      RedoneTimeline(s.history);
    }
  }

  /** No event, refused or not, loses the place of the text in the retained edits. */
  lemma {:induction false} StepKeepsAnchor(s: DocState, e: DocEvent)
    requires Inv(s) && Anchored(s.text, s.history)
    ensures Anchored(Step(s, e).state.text, Step(s, e).state.history)
  {
    hide Chain, Step, Timeline, Anchored, WithinBudget;
    var s' := Step(s, e).state;
    if s.revision < MAX_REVISION {
      StepKeepsChain(s, e);
      ChainIsAnchored(s'.text, s'.history);
    } else if Refused(s, e) {
      RefusedKeepsTimeline(s, e);
      SameTimelineAnchors(s.text, s.history, s'.history);
    } else if e.UpgradeReadOnly? && s.readOnly {
      UpgradeIsAnchored(s, e.fullText, e.diskRevision);
    } else {
      SpentKeepsText(s, e);
    }
  }

  lemma UpgradeIsAnchored(s: DocState, text: string, disk: DiskRevision)
    requires s.readOnly
    ensures var s' := Step(s, UpgradeReadOnly(text, disk)).state; Anchored(s'.text, s'.history)
  {
    EmptyHistoryIsChain(text);
    ChainIsAnchored(text, EMPTY_HISTORY);
  }

  lemma {:induction false} RunKeepsAnchor(s: DocState, events: seq<DocEvent>)
    requires Inv(s) && Anchored(s.text, s.history)
    ensures Anchored(Run(s, events).text, Run(s, events).history)
    decreases |events|
  {
    hide Inv, Anchored, Step;
    if events != [] {
      StepKeepsInv(s, events[0]);
      StepKeepsAnchor(s, events[0]);
      RunKeepsAnchor(Step(s, events[0]).state, events[1..]);
    }
  }

  /** In every run whatever, the retained edits are one chain through the text. */
  lemma ReachableAnchored(text: string, diskRevision: DiskRevision, readOnly: bool, events: seq<DocEvent>)
    ensures var s := Run(Opened(text, diskRevision, readOnly), events); Anchored(s.text, s.history)
  {
    hide Run, Anchored;
    EmptyHistoryIsChain(text);
    ChainIsAnchored(text, EMPTY_HISTORY);
    RunKeepsAnchor(Opened(text, diskRevision, readOnly), events);
  }

  // ---------------------------------------------------------- undo and redo

  /** With revisions left, undo fails only when there is nothing to undo. */
  lemma UndoFailsOnlyWhenEmpty(s: DocState)
    requires Inv(s) && s.revision < MAX_REVISION
    ensures Step(s, Undo).result == if s.history.undo == [] then Err(HistoryFailed(NothingToUndo)) else Ok(())
    ensures Step(s, Redo).result == if s.history.redo == [] then Err(HistoryFailed(NothingToRedo)) else Ok(())
  {
    if s.history.undo != [] {
      UndoResult(s);
    }
    if s.history.redo != [] {
      RedoResult(s);
    }
  }

  /** Undo succeeds exactly when there is an entry and a revision left; so does redo. */
  lemma TraversalSucceedsIff(s: DocState)
    requires Inv(s)
    ensures Step(s, Undo).result.Ok? <==> s.history.undo != [] && s.revision < MAX_REVISION
    ensures Step(s, Redo).result.Ok? <==> s.history.redo != [] && s.revision < MAX_REVISION
  {
    hide Chain, Substitute, Inverse, Redone;
    if s.revision < MAX_REVISION {
      UndoFailsOnlyWhenEmpty(s);
    }
  }

  predicate OutOfBounds(r: Result<(), DocumentError>) {
    r.Err? && r.error.TransactionFailed? && r.error.transaction.RangeOutOfBounds?
  }

  /** Besides having nothing to do, a traversal can only be refused because the
      revisions are spent. It then says so, unless the entry it moved does not fit
      the text, which it reports instead. */
  lemma TraversalErrors(s: DocState)
    requires Inv(s)
    ensures OutOfBounds(Step(s, Undo).result)
       <==> && s.revision == MAX_REVISION && s.history.undo != []
            && !WithinLength(Last(s.history.undo).inverse.replacements, |s.text|)
    ensures OutOfBounds(Step(s, Redo).result)
       <==> && s.revision == MAX_REVISION && s.history.redo != []
            && !WithinLength(Last(s.history.redo).forward.replacements, |s.text|)
    ensures Step(s, Undo).result.Err? ==>
              || Step(s, Undo).result.error == HistoryFailed(NothingToUndo)
              || Step(s, Undo).result.error == TransactionFailed(RevisionExhausted)
              || OutOfBounds(Step(s, Undo).result)
    ensures Step(s, Redo).result.Err? ==>
              || Step(s, Redo).result.error == HistoryFailed(NothingToRedo)
              || Step(s, Redo).result.error == TransactionFailed(RevisionExhausted)
              || OutOfBounds(Step(s, Redo).result)
  {
    hide Substitute, Inverse, Redone, Chain;
    if s.revision < MAX_REVISION {
      UndoFailsOnlyWhenEmpty(s);
    }
  }

  /** Any failed event but undo and redo leaves the document exactly as it was. */
  lemma OtherFailuresAreAtomic(s: DocState, e: DocEvent)
    requires Step(s, e).result.Err? && !e.Undo? && !e.Redo?
    ensures Step(s, e).state == s
  {
  }

  lemma FailedUndo(s: DocState)
    requires Inv(s) && Step(s, Undo).result.Err?
    ensures Step(s, Undo).state == (if s.history.undo == [] then s else s.(history := Undone(s.history)))
    ensures Step(s, Undo).state != s ==> s.revision == MAX_REVISION
  {
    if s.revision < MAX_REVISION {
      UndoFailsOnlyWhenEmpty(s);
    }
  }

  lemma FailedRedo(s: DocState)
    requires Inv(s) && Step(s, Redo).result.Err?
    ensures Step(s, Redo).state
         == if s.history.redo == [] then s else s.(history := Redone(DEFAULT_BUDGET, s.history))
    ensures Step(s, Redo).state != s ==> s.revision == MAX_REVISION
  {
    if s.revision < MAX_REVISION {
      UndoFailsOnlyWhenEmpty(s);
    }
  }

  /** A failed event leaves the document exactly as it was, except when undo or
      redo had an entry to move: that entry has then changed stacks although
      the text has not changed. Only an exhausted revision counter gets there. */
  lemma FailureIsAtomicIff(s: DocState, e: DocEvent)
    requires Inv(s) && Step(s, e).result.Err?
    ensures Step(s, e).state == s <==> !(e.Undo? && s.history.undo != []) && !(e.Redo? && s.history.redo != [])
    ensures Step(s, e).state.(history := s.history) == s
    ensures Step(s, e).state != s ==> s.revision == MAX_REVISION
  {
    hide Inv, Step;
    match e
    case Undo =>
      FailedUndo(s);
      assert s.history.undo != [] ==> |Undone(s.history).undo| < |s.history.undo|;
    case Redo =>
      FailedRedo(s);
      assert s.history.redo != [] ==> |Redone(DEFAULT_BUDGET, s.history).redo| < |s.history.redo|;
    case _ => OtherFailuresAreAtomic(s, e);
  }

  function Repeat(e: DocEvent, k: nat): seq<DocEvent> {
    if k == 0 then [] else [e] + Repeat(e, k - 1)
  }

  /** The text `k` undo boundaries back. */
  function TextBack(text: string, undo: seq<HistoryEntry>, k: nat): string
    requires k <= |undo| && UndoChain(text, undo)
    decreases k
  {
    if k == 0 then text else TextBack(Substitute(text, Last(undo).inverse.replacements), Init(undo), k - 1)
  }

  lemma {:induction false} RunOfConcat(s: DocState, a: seq<DocEvent>, b: seq<DocEvent>)
    ensures Run(s, a + b) == Run(Run(s, a), b)
    decreases |a|
  {
    hide Step;
    if a == [] {
      assert a + b == b;
    } else {
      RunOfConcat(Step(s, a[0]).state, a[1..], b);
      assert (a + b)[1..] == a[1..] + b;
    }
  }

  lemma RunOfNothing(s: DocState)
    ensures Run(s, []) == s
  {
  }

  lemma RunOfFirst(s: DocState, e: DocEvent, rest: seq<DocEvent>)
    ensures Run(s, [e] + rest) == Run(Step(s, e).state, rest)
  {
    assert ([e] + rest)[1..] == rest;
  }

  lemma InitThenTake<T>(s: seq<T>, k: nat)
    requires 0 < k <= |s|
    ensures Init(s)[..|s| - k] == s[..|s| - k]
  {
  }

  /** `k` undos walk the text back boundary by boundary. */
  lemma {:induction false} UndosReach(s: DocState, k: nat)
    requires Inv(s) && k <= |s.history.undo| && s.revision + k <= MAX_REVISION
    requires Chain(s.text, s.history)
    ensures var s' := Run(s, Repeat(Undo, k));
            && s'.text == TextBack(s.text, s.history.undo, k)
            && s'.history.undo == s.history.undo[..|s.history.undo| - k]
            && s'.revision == s.revision + k
    decreases k
  {
    hide Applicable, Substitute, EntryFits, WithinBudget, Inv, Step, RedoChain, EntryFits;
    if k > 0 {
      UndoResult(s);
      UndoKeepsInv(s);
      RunOfFirst(s, Undo, Repeat(Undo, k - 1));
      var s1 := Refreshed(AfterUndo(s));
      UndosReach(s1, k - 1);
      InitThenTake(s.history.undo, k);
    }
  }

  lemma RepeatAtEnd(e: DocEvent, k: nat)
    ensures Repeat(e, k) + [e] == [e] + Repeat(e, k)
  {
  }

  function Later(s: DocState, spent: nat): DocState
    requires s.revision + spent <= MAX_REVISION
  {
    s.(revision := s.revision + spent)
  }

  lemma RefreshedAgain(s: DocState, t: DocState, spent: nat)
    requires s.revision + spent <= MAX_REVISION
    requires t == s.(revision := s.revision + spent, status := t.status)
    requires t.status == s.status || ((t.status.Clean? || t.status.Dirty?) && (s.status.Clean? || s.status.Dirty?))
    ensures Refreshed(t) == Later(Refreshed(s), spent)
  {
  }

  /** Undoing leaves an entry whose redo leads back to the text and history. */
  lemma UndoneCanBeRedone(s: DocState)
    requires Chain(s.text, s.history) && WithinBudget(DEFAULT_BUDGET, s.history) && s.history.undo != []
    requires s.revision < MAX_REVISION
    ensures Applicable(s.text, Last(s.history.undo).inverse.replacements)
    ensures var s1 := AfterUndo(s);
            && Last(s1.history.redo) == Last(s.history.undo)
            && Applicable(s1.text, Last(s1.history.redo).forward.replacements)
            && Substitute(s1.text, Last(s1.history.redo).forward.replacements) == s.text
            && Redone(DEFAULT_BUDGET, s1.history) == s.history
  {
    RedoInvertsUndo(DEFAULT_BUDGET, s.history);
  }

  /** One undo and one redo return to the document, up to its dirty flag. */
  lemma {:induction false} UndoThenRedo(s: DocState, spent: nat)
    requires Inv(s) && s.history.undo != [] && s.revision + spent + 2 <= MAX_REVISION
    ensures var s1 := Step(s, Undo).state;
            && Inv(s1) && Refreshed(s1) == s1 && s1.revision == s.revision + 1
            && |s1.history.undo| == |s.history.undo| - 1
            && Step(Later(s1, spent), Redo).state == Later(Refreshed(s), spent + 2)
  {
    hide UndoChain, RedoChain, Applicable, Substitute, WithinBudget;
    UndoResult(s);
    UndoKeepsInv(s);
    UndoneCanBeRedone(s);
    var s1 := Later(Refreshed(AfterUndo(s)), spent);
    RedoResult(s1);
    RefreshedAgain(s, AfterRedo(s1), spent + 2);
  }

  /** `k` undos and then `k` redos return the document: the same text, history,
      baseline and status (once that has been brought up to date). */
  lemma {:induction false} UndosThenRedos(s: DocState, k: nat)
    requires Inv(s) && k <= |s.history.undo| && s.revision + 2 * k <= MAX_REVISION
    ensures Run(s, Repeat(Undo, k) + Repeat(Redo, k)) == Later(if k == 0 then s else Refreshed(s), 2 * k)
    decreases k
  {
    hide Inv, Step, Refreshed;
    if k > 0 {
      var s1 := Step(s, Undo).state;
      UndoThenRedo(s, 2 * (k - 1));
      UndosThenRedos(s1, k - 1);
      UndoRedoNesting(s, k);
    }
  }

  /** The run is one undo, the shorter run, and one redo. */
  lemma UndoRedoNesting(s: DocState, k: nat)
    requires k > 0
    ensures Run(s, Repeat(Undo, k) + Repeat(Redo, k))
         == Step(Run(Step(s, Undo).state, Repeat(Undo, k - 1) + Repeat(Redo, k - 1)), Redo).state
  {
    hide Step, Run;
    var inner := Repeat(Undo, k - 1) + Repeat(Redo, k - 1);
    var s1 := Step(s, Undo).state;
    assert Run(Step(Run(s1, inner), Redo).state, []) == Step(Run(s1, inner), Redo).state by {
      RunOfNothing(Step(Run(s1, inner), Redo).state);
    }
    RepeatAtEnd(Redo, k - 1);
    assert Repeat(Undo, k) + Repeat(Redo, k) == [Undo] + (inner + [Redo]);
    RunOfFirst(s, Undo, inner + [Redo]);
    RunOfConcat(s1, inner, [Redo]);
    assert [Redo] == [Redo] + [];
    RunOfFirst(Run(s1, inner), Redo, []);
  }

  /** Over every run: whatever was typed, coalesced, evicted, saved or reloaded. */
  lemma ReachableUndosThenRedos(text: string, disk: DiskRevision, readOnly: bool, events: seq<DocEvent>, k: nat)
    requires var s := Run(Opened(text, disk, readOnly), events);
             k <= |s.history.undo| && s.revision + 2 * k <= MAX_REVISION
    ensures var s := Run(Opened(text, disk, readOnly), events);
            var s' := Run(s, Repeat(Undo, k) + Repeat(Redo, k));
            s'.text == s.text && s'.history == s.history && s'.savedText == s.savedText
  {
    Reachable(text, disk, readOnly, events);
    UndosThenRedos(Run(Opened(text, disk, readOnly), events), k);
  }

  lemma EditResult(s: DocState, t: WfTransaction, kind: EditKind, before: nat, after: nat)
    requires !s.readOnly && ApplyResult(s.text, s.revision, t).Ok?
    ensures Applicable(s.text, t.replacements)
    ensures var s1 := Step(s, DocEvent.Edit(t, kind, before, after));
            && s1.result.Ok? && s1.state.text == Substitute(s.text, t.replacements)
            && s1.state.revision == s.revision + 1
            && s1.state.history == Recorded(DEFAULT_BUDGET, s.history,
                                            FromApplied(s.text, s.revision, t, kind, before, after))
  {
  }

  /** Where undoing `entry`, recorded on top of `undo`, leads: back to the text
      before it or, when it continued the previous typing, before that typing. */
  function UndoneText(pre: string, undo: seq<HistoryEntry>, entry: HistoryEntry): string
    requires UndoChain(pre, undo)
  {
    if undo != [] && Coalesces(Last(undo), entry) then TextBack(pre, undo, 1) else pre
  }

  lemma {:induction false} EditThenUndo(s: DocState, t: WfTransaction, kind: EditKind, before: nat, after: nat)
    requires Inv(s) && !s.readOnly && ApplyResult(s.text, s.revision, t).Ok? && s.revision + 2 <= MAX_REVISION
    requires Step(s, DocEvent.Edit(t, kind, before, after)).state.history.undo != []
    ensures var entry := FromApplied(s.text, s.revision, t, kind, before, after);
            var s2 := Step(Step(s, DocEvent.Edit(t, kind, before, after)).state, Undo);
            s2.result.Ok? && s2.state.text == UndoneText(s.text, s.history.undo, entry)
  {
    hide Applicable, Substitute, EntryFits, RedoChain, WithinBudget, UndoneText, EditOutcome, Recorded,
      FromApplied;
    EditResult(s, t, kind, before, after);
    EditKeepsInv(s, t, kind, before, after);
    var entry := FromApplied(s.text, s.revision, t, kind, before, after);
    var s1 := Step(s, DocEvent.Edit(t, kind, before, after)).state;
    RecordedUndo(s.history, entry);
    UndoOfRecorded(s.text, s1.text, s.history.undo, entry);
    UndoResult(s1);
  }

  lemma RecordedUndo(h: HistoryState, entry: HistoryEntry)
    ensures Recorded(DEFAULT_BUDGET, h, entry).undo == Evict(DEFAULT_BUDGET, Push(h.undo, entry))
  {
  }

  lemma UndoOfRecorded(pre: string, post: string, undo: seq<HistoryEntry>, entry: HistoryEntry)
    requires UndoChain(pre, undo) && EntryFits(entry, pre, post)
    requires Evict(DEFAULT_BUDGET, Push(undo, entry)) != []
    ensures var top := Last(Evict(DEFAULT_BUDGET, Push(undo, entry)));
            && Applicable(post, top.inverse.replacements)
            && Substitute(post, top.inverse.replacements) == UndoneText(pre, undo, entry)
  {
    var pushed := Push(undo, entry);
    EvictKeepsLongestFit(DEFAULT_BUDGET, pushed, 0);
    assert Last(Evict(DEFAULT_BUDGET, pushed)) == Last(pushed);
    if undo != [] && Coalesces(Last(undo), entry) {
      var before := Substitute(pre, Last(undo).inverse.replacements);
      MergeFits(Last(undo), entry, before, pre, post);
      EntryFitsBackwards(Last(pushed), before, post);
      assert TextBack(pre, undo, 1) == TextBack(before, Init(undo), 0);
    } else {
      EntryFitsBackwards(entry, pre, post);
    }
  }

  // ------------------------------------------------------------ typing a run

  function TypedEvent(revision: Revision, at: nat, c: char): DocEvent {
    DocEvent.Edit(EditTransaction(revision, [Replacement(CharRange(at, at), [c])]), Typing, at, at + 1)
  }

  /** Typing `cs` character by character, the caret moving along with it. */
  function TypedEvents(revision: nat, at: nat, cs: string): seq<DocEvent>
    requires revision + |cs| <= MAX_REVISION
    decreases |cs|
  {
    if cs == "" then []
    else
      var n := |cs| - 1;
      TypedEvents(revision, at, cs[..n]) + [TypedEvent(revision + n, at + n, cs[n])]
  }

  function Inserted(text: string, at: nat, cs: string): string
    requires at <= |text|
  {
    text[..at] + cs + text[at..]
  }

  /** The next character, typed at the end of what has been inserted. */
  lemma {:induction false} TypedStep(s: DocState, text: string, at: nat, cs: string, c: char)
    requires at <= |text| && s.text == Inserted(text, at, cs) && !s.readOnly && s.revision < MAX_REVISION
    ensures var i := at + |cs|;
            var s' := Step(s, TypedEvent(s.revision, i, c)).state;
            && s'.text == Inserted(text, at, cs + [c])
            && s'.revision == s.revision + 1 && !s'.readOnly
            && s'.history == Recorded(DEFAULT_BUDGET, s.history, TypedEntry(s.revision, i, [c]))
  {
    hide Recorded, Applicable, Substitute, Inverse;
    var i := at + |cs|;
    var r := Replacement(CharRange(i, i), [c]);
    var t := EditTransaction(s.revision, [r]);
    PlacedIffWellFormed([r], 0, |s.text|);
    InsertOnce(s.text, r);
    EditResult(s, t, Typing, i, i + 1);
    InsertedBytesOfOne(r);
    InsertedBytesOfOne(Replacement(CharRange(i, i + 1), ""));
    assert FromApplied(s.text, s.revision, t, Typing, i, i + 1) == TypedEntry(s.revision, i, [c]);
    assert s.text[..i] == text[..at] + cs && s.text[i..] == text[at..];
  }

  /** The newest entry is typing that ends at the caret, so that the next character
      continues it. */
  predicate ContinuesTyping(undo: seq<HistoryEntry>, at: nat) {
    undo != [] && Last(undo).kind == Typing && Last(undo).cursorAfter == at && OneInsertion(Last(undo))
    && Last(undo).forward.replacements[0].range.start + |Last(undo).forward.replacements[0].text| == at
    && |Last(undo).inverse.replacements| == 1 && Last(undo).inverse.replacements[0].text == ""
  }

  lemma FirstTypedIsPushed(undo: seq<HistoryEntry>, revision: nat, at: nat, c: char)
    requires revision + 1 <= MAX_REVISION
    ensures !ContinuesTyping(undo, at) ==>
              Push(undo, TypedEntry(revision, at, [c])) == undo + [TypedEntry(revision, at, [c])]
    ensures ContinuesTyping(undo, at) <==> undo != [] && Coalesces(Last(undo), TypedEntry(revision, at, [c]))
  {
  }

  /** Recording the next character extends the entry of the ones before. */
  lemma NextTypedIsMerged(undo: seq<HistoryEntry>, revision: nat, at: nat, cs: string, c: char)
    requires revision + |cs| + 1 <= MAX_REVISION && Utf8Length(cs) <= DEFAULT_BUDGET.maxBytes
    ensures var kept := Evict(DEFAULT_BUDGET, undo + [TypedEntry(revision, at, cs)]);
            Evict(DEFAULT_BUDGET, Push(kept, TypedEntry(revision + |cs|, at + |cs|, [c])))
            == Evict(DEFAULT_BUDGET, undo + [TypedEntry(revision, at, cs + [c])])
  {
    hide Mirrors, Evict;
    var before, after := TypedEntry(revision, at, cs), TypedEntry(revision, at, cs + [c]);
    TypedMerges(revision, at, cs, c);
    Utf8LengthOfConcat(cs, [c]);
    EvictTwice(DEFAULT_BUDGET, undo, before, after);
  }

  /** Where typing `cs` at `at` leads: the text with the insertion, and one entry
      for all of it on top of what was there. */
  predicate Typed(s: DocState, at: nat, cs: string, s': DocState)
    requires at <= |s.text| && s.revision + |cs| <= MAX_REVISION
  {
    && s'.text == Inserted(s.text, at, cs) && s'.revision == s.revision + |cs| && !s'.readOnly
    && s'.history == HistoryState(
         Evict(DEFAULT_BUDGET, s.history.undo + [TypedEntry(s.revision, at, cs)]), [])
  }

  lemma {:induction false} TypedEventsOfAppend(s: DocState, at: nat, cs: string, c: char)
    requires s.revision + |cs| + 1 <= MAX_REVISION
    ensures Run(s, TypedEvents(s.revision, at, cs + [c]))
         == Step(Run(s, TypedEvents(s.revision, at, cs)), TypedEvent(s.revision + |cs|, at + |cs|, c)).state
  {
    hide Step, Run;
    var e := TypedEvent(s.revision + |cs|, at + |cs|, c);
    var s1 := Run(s, TypedEvents(s.revision, at, cs));
    assert (cs + [c])[..|cs|] == cs;
    RunOfConcat(s, TypedEvents(s.revision, at, cs), [e]);
    assert [e] == [e] + [];
    RunOfFirst(s1, e, []);
    RunOfNothing(Step(s1, e).state);
  }

  lemma {:induction false} TypingLeavesOneEntry(s: DocState, at: nat, cs: string)
    requires at <= |s.text| && !s.readOnly && cs != "" && s.revision + |cs| <= MAX_REVISION
    requires !ContinuesTyping(s.history.undo, at) && Utf8Length(cs) <= DEFAULT_BUDGET.maxBytes
    ensures Typed(s, at, cs, Run(s, TypedEvents(s.revision, at, cs)))
    decreases |cs|
  {
    hide Step, Evict, Push, TypedEntry, ContinuesTyping, Run, TypedEvents, Mirrors;
    var n := |cs| - 1;
    var before, c := cs[..n], cs[n];
    assert cs == before + [c];
    Utf8LengthOfConcat(before, [c]);
    var s1 := Run(s, TypedEvents(s.revision, at, before));
    TypedEventsOfAppend(s, at, before, c);
    if n == 0 {
      NothingTyped(s, at);
      FirstTypedIsPushed(s.history.undo, s.revision, at, c);
      TypedStep(s, s.text, at, "", c);
    } else {
      TypingLeavesOneEntry(s, at, before);
      TypedStep(s1, s.text, at, before, c);
      NextTypedIsMerged(s.history.undo, s.revision, at, before, c);
    }
  }

  lemma NothingTyped(s: DocState, at: nat)
    requires at <= |s.text|
    ensures Run(s, TypedEvents(s.revision, at, "")) == s && Inserted(s.text, at, "") == s.text
  {
  }

  /** Undoing the entry of a run takes the run out of the text again. */
  lemma TypedEntryIsUndone(text: string, revision: nat, at: nat, cs: string)
    requires at <= |text| && revision + |cs| <= MAX_REVISION
    ensures var inverse := TypedEntry(revision, at, cs).inverse.replacements;
            && Applicable(Inserted(text, at, cs), inverse)
            && Substitute(Inserted(text, at, cs), inverse) == text
  {
    var r := Replacement(CharRange(at, at + |cs|), "");
    var typed := Inserted(text, at, cs);
    ReplaceOnce(typed, r);
    assert typed[..at] == text[..at] && typed[at + |cs|..] == text[at..];
    assert text[..at] + "" + text[at..] == text;
  }

  lemma NewestTypedIsKept(undo: seq<HistoryEntry>, revision: nat, at: nat, cs: string)
    requires revision + |cs| <= MAX_REVISION && Utf8Length(cs) <= DEFAULT_BUDGET.maxBytes
    ensures var kept := Evict(DEFAULT_BUDGET, undo + [TypedEntry(revision, at, cs)]);
            kept != [] && Last(kept) == TypedEntry(revision, at, cs)
  {
    EvictTwice(DEFAULT_BUDGET, undo, TypedEntry(revision, at, cs), TypedEntry(revision, at, cs));
  }

  /** Any run of typing is one undo boundary: a single undo leads to the text before
      its first character, a redo after it to the text with the whole run. */
  lemma {:induction false} TypingIsOneUndo(s: DocState, at: nat, cs: string)
    requires Inv(s) && at <= |s.text| && !s.readOnly && cs != "" && s.revision + |cs| + 2 <= MAX_REVISION
    requires !ContinuesTyping(s.history.undo, at) && Utf8Length(cs) <= DEFAULT_BUDGET.maxBytes
    ensures var s1 := Run(s, TypedEvents(s.revision, at, cs));
            var s2 := Step(s1, Undo);
            var s3 := Step(s2.state, Redo);
            && s1.text == s.text[..at] + cs + s.text[at..]
            && s1.history.undo == Evict(DEFAULT_BUDGET, s.history.undo + [TypedEntry(s.revision, at, cs)])
            && s1.history.undo != []
            && s2.result.Ok? && s2.state.text == s.text
            && s2.state.history.undo == Init(s1.history.undo)
            && s3.state.text == s1.text && s3.state.history == s1.history
  {
    hide Evict, Step, Mirrors, Run, TypedEvents, ContinuesTyping, TypedEntry, Chain, WithinBudget, Substitute,
      Applicable;
    var s1 := Run(s, TypedEvents(s.revision, at, cs));
    RunKeepsInv(s, TypedEvents(s.revision, at, cs));
    TypingLeavesOneEntry(s, at, cs);
    NewestTypedIsKept(s.history.undo, s.revision, at, cs);
    TypedEntryIsUndone(s.text, s.revision, at, cs);
    UndoResult(s1);
    UndoThenRedo(s1, 0);
  }

  lemma ReloadResult(s: DocState)
    requires s.status.Conflict? && s.revision < MAX_REVISION
    ensures var t := ReplaceAll(s, s.status.diskText);
            var s1 := Step(s, ReloadFromDisk);
            && ApplyResult(s.text, s.revision, t).Ok? && Substitute(s.text, t.replacements) == s.status.diskText
            && s1.result.Ok? && s1.state.text == s.status.diskText == s1.state.savedText
            && s1.state.status.Clean? && s1.state.revision == s.revision + 1
            && s1.state.history == Recorded(DEFAULT_BUDGET, s.history, FromApplied(s.text, s.revision, t, Other, 0, 0))
  {
    ReplaceAllResult(s, s.status.diskText);
  }

  /** The entry that replacing the whole text leaves. */
  lemma {:induction false} ReplacedEntry(s: DocState, text: string, before: nat, after: nat)
    requires s.revision < MAX_REVISION
    ensures ApplyResult(s.text, s.revision, ReplaceAll(s, text)).Ok?
    ensures var entry := FromApplied(s.text, s.revision, ReplaceAll(s, text), Other, before, after);
            && entry.kind == Other
            && entry.inverse.replacements == [Replacement(CharRange(0, |text|), s.text)]
            && entry.byteCost == Utf8Length(s.text) + Utf8Length(text)
  {
    hide Substitute, Inverse;
    ReplaceAllResult(s, text);
    InsertedBytesOfOne(ReplaceAll(s, text).replacements[0]);
    InsertedBytesOfOne(Replacement(CharRange(0, |text|), s.text));
  }

  /** An entry that fits the budget by itself is kept. */
  lemma NewestIsKept(undo: seq<HistoryEntry>, entry: HistoryEntry)
    requires entry.kind == Other && entry.byteCost <= DEFAULT_BUDGET.maxBytes
    ensures Evict(DEFAULT_BUDGET, Push(undo, entry)) != []
  {
    hide Mirrors;
    var pushed := Push(undo, entry);
    assert pushed == undo + [entry];
    EvictKeepsLongestFit(DEFAULT_BUDGET, pushed, 1);
    assert pushed[|pushed| - 1..] == [entry] && [entry][1..] == [];
    assert TotalCost([entry]) == entry.byteCost;
  }

  /** Reloading a conflict leaves one undo boundary back to the local text, if the two
      texts together fit the history's byte budget. */
  lemma {:induction false} ReloadThenUndo(s: DocState)
    requires Inv(s) && s.status.Conflict? && s.revision + 2 <= MAX_REVISION
    requires Utf8Length(s.text) + Utf8Length(s.status.diskText) <= DEFAULT_BUDGET.maxBytes
    ensures var s1, s2 := Step(s, ReloadFromDisk), Step(Step(s, ReloadFromDisk).state, Undo);
            && s1.result.Ok? && s1.state.text == s.status.diskText == s1.state.savedText && s1.state.status.Clean?
            && s2.result.Ok? && s2.state.text == s.text
            && s2.state.status == (if s.text == s.status.diskText then Clean else Dirty)
  {
    hide Applicable, Substitute, EntryFits, RedoChain, WithinBudget, ReloadOutcome, Recorded, FromApplied;
    ReloadResult(s);
    ReloadKeepsInv(s);
    var entry := FromApplied(s.text, s.revision, ReplaceAll(s, s.status.diskText), Other, 0, 0);
    ReplacedEntry(s, s.status.diskText, 0, 0);
    NewestIsKept(s.history.undo, entry);
    RecordedUndo(s.history, entry);
    UndoOfRecorded(s.text, s.status.diskText, s.history.undo, entry);
    UndoResult(Step(s, ReloadFromDisk).state);
  }

  // ------------------------------------------------- the exhausted counter

  /** Reloading an unchanged file costs a revision and changes nothing else. */
  lemma {:induction false} RevisionsCanBeSpent(s: DocState, n: Revision) returns (events: seq<DocEvent>)
    requires s.status.Clean? && s.history == EMPTY_HISTORY && s.text == s.savedText && s.revision <= n
    ensures Run(s, events) == s.(revision := n)
  {
    hide Substitute, Inverse, Applicable;
    events := [];
    for k := s.revision to n
      invariant Run(s, events) == s.(revision := k)
    {
      var later := s.(revision := k);
      var e := ObserveDiskChange(k, s.diskRevision, s.text);
      ReplaceAllResult(later, s.text);
      RunOfConcat(s, events, [e]);
      assert Run(later, [e]) == Step(later, e).state;
      events := events + [e];
    }
  }

  function Retyped(s: DocState, text: string): DocEvent {
    DocEvent.Edit(ReplaceAll(s, text), Other, |s.text|, |text|)
  }

  /** Recording such an entry on a short stack of its kind neither merges nor evicts. */
  lemma RecordedOnShort(h: HistoryState, entry: HistoryEntry)
    requires entry.kind == Other && |h.undo| <= 1
    requires TotalCost(h.undo) + entry.byteCost <= DEFAULT_BUDGET.maxBytes
    ensures Recorded(DEFAULT_BUDGET, h, entry) == HistoryState(h.undo + [entry], [])
    ensures TotalCost(h.undo + [entry]) == TotalCost(h.undo) + entry.byteCost
  {
    PushCost(h.undo, entry);
    assert Push(h.undo, entry) == h.undo + [entry];
  }

  /** Replacing the whole text as one edit, on a short undo stack. */
  lemma {:induction false} AfterRetyping(s: DocState, text: string)
    requires !s.readOnly && s.revision < MAX_REVISION && |s.history.undo| <= 1
    requires TotalCost(s.history.undo) + Utf8Length(s.text) + Utf8Length(text) <= DEFAULT_BUDGET.maxBytes
    ensures var s' := Step(s, Retyped(s, text)).state;
            && s'.text == text && s'.revision == s.revision + 1 && !s'.readOnly
            && |s'.history.undo| == |s.history.undo| + 1 && s'.history.undo[..|s.history.undo|] == s.history.undo
            && Last(s'.history.undo).inverse.replacements == [Replacement(CharRange(0, |text|), s.text)]
            && TotalCost(s'.history.undo) == TotalCost(s.history.undo) + Utf8Length(s.text) + Utf8Length(text)
  {
    hide Applicable, Substitute, Inverse, Recorded, FromApplied, TotalCost, Utf8Length, Mirrors;
    var t := ReplaceAll(s, text);
    ReplaceAllResult(s, text);
    ReplacedEntry(s, text, |s.text|, |text|);
    var entry := FromApplied(s.text, s.revision, t, Other, |s.text|, |text|);
    RecordedOnShort(s.history, entry);
    EditResult(s, t, Other, |s.text|, |text|);
  }

  /** The refusal that `TraversalErrors` admits is reached: after one undo has been
      refused at the last revision, a second one answers that its range is out of
      bounds. A run that gets there from opening a file spends revisions, types "ab"
      and takes it out again. */
  lemma {:induction false} UndoCanGoOutOfBounds(disk: DiskRevision) returns (events: seq<DocEvent>)
    ensures var s := Run(Opened("", disk, false), events);
            && Step(s, Undo).result == Err(TransactionFailed(RevisionExhausted))
            && Step(Step(s, Undo).state, Undo).result == Err(TransactionFailed(RangeOutOfBounds(2, 0)))
  {
    var spent := RevisionsCanBeSpent(Opened("", disk, false), MAX_REVISION - 2);
    var s := Opened("", disk, false).(revision := MAX_REVISION - 2);
    AfterRetyping(s, "ab");
    var s1 := Step(s, Retyped(s, "ab")).state;
    AfterRetyping(s1, "");
    var s2 := Step(s1, Retyped(s1, "")).state;
    events := spent + ([Retyped(s, "ab")] + [Retyped(s1, "")]);
    RunsToEnd(Opened("", disk, false), spent, Retyped(s, "ab"), Retyped(s1, ""));
  }

  lemma RunsToEnd(s: DocState, events: seq<DocEvent>, a: DocEvent, b: DocEvent)
    ensures Run(s, events + ([a] + [b])) == Step(Step(Run(s, events), a).state, b).state
  {
    RunOfConcat(s, events, [a] + [b]);
    RunOfFirst(Run(s, events), a, [b]);
    assert [b] == [b] + [];
    RunOfFirst(Step(Run(s, events), a).state, b, []);
  }

}
