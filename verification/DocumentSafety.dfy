/** What background events can and cannot do to a document's text. */
module DocumentSafety {
  import opened Wrappers
  import opened Transactions
  import opened TextBuffers
  import opened Histories
  import opened Documents
  import opened DocumentProperties

  /** Results of background work carry the revision they were computed for. */
  predicate Guarded(e: DocEvent) {
    e.CompleteSave? || e.ObserveDiskChange? || e.ObserveMissing?
  }

  lemma StaleEventsChangeNothing(s: DocState, e: DocEvent)
    requires Guarded(e) && e.expected != s.revision
    ensures Step(s, e) == Outcome(s, Err(StaleEvent(s.revision, e.expected)))
  {
  }

  /** In every run, text that differs from the saved baseline is replaced only by
      an edit, undo, redo, a chosen reload or recovery, or the read-only upgrade:
      never by a disk change, a missing file, a save or a flag. */
  lemma UnsavedTextSurvives(text: string, disk: DiskRevision, readOnly: bool, events: seq<DocEvent>, e: DocEvent)
    ensures var s := Run(Opened(text, disk, readOnly), events);
            s.text != s.savedText && Step(s, e).state.text != s.text ==>
              || e.Edit? || e.Undo? || e.Redo? || e.ReloadFromDisk? || e.RestoreRecovery?
              || (e.UpgradeReadOnly? && s.readOnly)
  {
    hide Run, Chain, WithinBudget, Opened;
    Reachable(text, disk, readOnly, events);
  }

  /** A disk change reaches the text exactly when the document is clean and the
      event current; otherwise the text stays and the document is in conflict. */
  lemma DiskChangeOutcomes(s: DocState, expected: Revision, disk: DiskRevision, diskText: string)
    requires Inv(s) && s.revision < MAX_REVISION && expected == s.revision
    ensures var s' := Step(s, ObserveDiskChange(expected, disk, diskText));
            && s'.result.Ok?
            && (s.status.Clean? ==> s.text == s.savedText && s'.state.text == diskText == s'.state.savedText
                                    && s'.state.status.Clean? && s'.state.diskRevision == disk)
            && (!s.status.Clean? ==> s'.state == s.(status := Conflict(disk, diskText)))
  {
    hide Chain, WithinBudget;
    ReplaceAllResult(s, diskText);
  }

  // ------------------------------------------------- revisions and saved text

  /** Apart from the upgrade of a read-only document, a step keeps the revision
      and the text, or moves to the next revision. */
  lemma StepRevision(s: DocState, e: DocEvent)
    requires !s.readOnly || !e.UpgradeReadOnly?
    ensures var s' := Step(s, e).state;
            && (s'.readOnly == s.readOnly)
            && (s'.revision == s.revision + 1 || (s'.revision == s.revision && s'.text == s.text))
  {
    hide Recorded, Redone, Substitute, FromApplied, Inverse, Applicable, InsertedBytes;
  }

  predicate NeverUpgraded(s: DocState, events: seq<DocEvent>) {
    !s.readOnly || forall e | e in events :: !e.UpgradeReadOnly?
  }

  lemma {:induction false} RevisionFixesText(s: DocState, events: seq<DocEvent>)
    requires NeverUpgraded(s, events)
    ensures var s' := Run(s, events);
            && s'.revision >= s.revision && (s'.revision == s.revision ==> s'.text == s.text)
            && s'.readOnly == s.readOnly
    decreases |events|
  {
    hide Step;
    if events != [] {
      StepRevision(s, events[0]);
      RevisionFixesText(Step(s, events[0]).state, events[1..]);
    }
  }

  /** A save that was started on `s` and completes after any further events is
      accepted exactly when no edit came between, and then records the text that
      was captured. */
  lemma {:induction false} SaveRecordsCapturedText(s: DocState, events: seq<DocEvent>, disk: DiskRevision)
    requires NeverUpgraded(s, events)
    ensures var s1, done := Run(s, events), Step(Run(s, events), CompleteSave(s.revision, disk));
            && (done.result.Ok? <==> s1.revision == s.revision)
            && (done.result.Ok? ==> done.state.savedText == s.text == done.state.text
                                    && done.state.status.Clean? && done.state.diskRevision == disk
                                    && !done.state.recovered)
            && (done.result.Err? ==> done.state == s1)
  {
    hide Run;
    RevisionFixesText(s, events);
  }

  /** An edit that was prepared on `s` and arrives after any further events lands
      only while the revision, and with it the text, is the one it was prepared on.
      Any other is refused and leaves the document as it is. */
  lemma {:induction false} EditLandsOnItsText(s: DocState, events: seq<DocEvent>, t: WfTransaction, kind: EditKind,
                                              before: nat, after: nat)
    requires NeverUpgraded(s, events) && t.expectedRevision == s.revision
    ensures var s1, done := Run(s, events), Step(Run(s, events), DocEvent.Edit(t, kind, before, after));
            && (done.result.Ok? <==> && !s.readOnly && s1.revision == s.revision
                                     && WithinLength(t.replacements, |s.text|) && s.revision < MAX_REVISION)
            && (done.result.Ok? ==> && s1.text == s.text && Applicable(s.text, t.replacements)
                                    && done.state.text == Substitute(s.text, t.replacements)
                                    && done.state.revision == s.revision + 1)
            && (s.readOnly ==> done.result == Err(ReadOnly))
            && (!s.readOnly && s1.revision != s.revision ==>
                  done.result == Err(TransactionFailed(StaleRevision(s1.revision, s.revision))))
            && (done.result.Err? ==> done.state == s1)
  {
    hide Run, Substitute, Inverse, Recorded, FromApplied;
    RevisionFixesText(s, events);
    ApplyAnswers(Run(s, events).text, Run(s, events).revision, t);
  }

  /** How often a run takes the next revision. */
  function Advances(s: DocState, events: seq<DocEvent>): nat
    decreases |events|
  {
    if events == [] then 0
    else
      var s' := Step(s, events[0]).state;
      (if s'.revision == s.revision then 0 else 1) + Advances(s', events[1..])
  }

  lemma {:induction false} RevisionCountsAdvances(s: DocState, events: seq<DocEvent>)
    requires NeverUpgraded(s, events)
    ensures Run(s, events).revision == s.revision + Advances(s, events)
    decreases |events|
  {
    hide Step;
    if events != [] {
      StepRevision(s, events[0]);
      RevisionCountsAdvances(Step(s, events[0]).state, events[1..]);
    }
  }

  /** Without that exclusion it fails: upgrading a read-only document starts its
      revisions again. A save captured before, at whatever revision, is accepted
      after the upgrade exactly when the document has since advanced that often, and
      takes the text of that moment for the captured one. */
  lemma UpgradeForgesCapture(s: DocState, captured: Revision, fullText: string, disk: DiskRevision,
                             post: seq<DocEvent>, saved: DiskRevision)
    requires s.readOnly
    ensures var upgraded := Step(s, DocEvent.UpgradeReadOnly(fullText, disk)).state;
            var s1 := Run(s, [DocEvent.UpgradeReadOnly(fullText, disk)] + post);
            var done := Step(s1, CompleteSave(captured, saved));
            && (done.result.Ok? <==> Advances(upgraded, post) == captured)
            && (done.result.Ok? ==> done.state.savedText == s1.text && done.state.status.Clean?)
  {
    hide Run, Advances;
    RunOfFirst(s, DocEvent.UpgradeReadOnly(fullText, disk), post);
    RevisionCountsAdvances(Step(s, DocEvent.UpgradeReadOnly(fullText, disk)).state, post);
  }

  /** Nor does it hold for an edit: one prepared before the upgrade, on text that is
      gone, lands exactly when the upgraded document has advanced to its revision. */
  lemma {:induction false} UpgradeAdmitsOldEdits(s: DocState, t: WfTransaction, kind: EditKind, before: nat,
                                                 after: nat, fullText: string, disk: DiskRevision,
                                                 post: seq<DocEvent>)
    requires s.readOnly
    ensures var upgraded := Step(s, DocEvent.UpgradeReadOnly(fullText, disk)).state;
            var s1 := Run(s, [DocEvent.UpgradeReadOnly(fullText, disk)] + post);
            Step(s1, DocEvent.Edit(t, kind, before, after)).result.Ok?
            <==> && Advances(upgraded, post) == t.expectedRevision
                 && WithinLength(t.replacements, |s1.text|) && t.expectedRevision < MAX_REVISION
  {
    hide Run, Advances, Substitute, Inverse, Recorded, FromApplied;
    var upgraded := Step(s, DocEvent.UpgradeReadOnly(fullText, disk)).state;
    RunOfFirst(s, DocEvent.UpgradeReadOnly(fullText, disk), post);
    RevisionCountsAdvances(upgraded, post);
    RevisionFixesText(upgraded, post);
    ApplyAnswers(Run(upgraded, post).text, Run(upgraded, post).revision, t);
  }

  /** So no capture is safe: whatever revision it was taken at, some run after the
      upgrade has it accepted for any other text. */
  lemma AnyCaptureCanBeForged(s: DocState, captured: Revision, otherText: string, disk: DiskRevision)
    returns (post: seq<DocEvent>)
    requires s.readOnly
    ensures var s1 := Run(s, [DocEvent.UpgradeReadOnly(otherText, disk)] + post);
            var done := Step(s1, CompleteSave(captured, disk));
            done.result.Ok? && done.state.savedText == otherText
  {
    hide Run;
    var upgraded := Step(s, DocEvent.UpgradeReadOnly(otherText, disk)).state;
    post := RevisionsCanBeSpent(upgraded, captured);
    RunOfFirst(s, DocEvent.UpgradeReadOnly(otherText, disk), post);
  }

  /** The upgrade also drops recovered text that was never saved, without an undo
      boundary, although the document stays marked as recovered. */
  lemma UpgradeDropsRecoveredText(s: DocState, recoveredText: string, fullText: string, disk: DiskRevision)
    requires s.readOnly && s.revision < MAX_REVISION
    ensures var recovered := Step(s, RestoreRecovery(recoveredText)).state;
            var upgraded := Step(recovered, DocEvent.UpgradeReadOnly(fullText, disk)).state;
            && recovered.text == recoveredText && Recoverable(recovered)
            && upgraded.text == fullText && upgraded.history == EMPTY_HISTORY && Recoverable(upgraded)
  {
    ReplaceAllResult(s, recoveredText);
  }

  // ------------------------------------------- conflicts and missing files

  predicate UserEdits(e: DocEvent) { e.Edit? || e.Undo? || e.Redo? }

  /** Editing neither resolves a conflict nor forgets that the file is missing. */
  lemma EditingKeepsWarnings(s: DocState, e: DocEvent)
    requires UserEdits(e) && (s.status.Conflict? || s.status.Missing?)
    ensures Step(s, e).state.status == s.status
  {
    hide ApplyResult, Substitute, Recorded, Redone, FromApplied;
  }

  /** Otherwise it compares with the baseline, which it leaves alone: the document is
      clean exactly when it shows its saved text again. A refused one changes nothing
      of either. */
  lemma EditingComparesWithBaseline(s: DocState, e: DocEvent)
    requires UserEdits(e) && (s.status.Clean? || s.status.Dirty?)
    ensures var s' := Step(s, e);
            && s'.state.savedText == s.savedText && s'.state.diskRevision == s.diskRevision
            && s'.state.recovered == s.recovered && s'.state.readOnly == s.readOnly
            && (s'.result.Ok? ==> s'.state.status == (if s'.state.text == s.savedText then Clean else Dirty))
            && (s'.result.Err? ==> s'.state.status == s.status && s'.state.text == s.text)
  {
    hide ApplyResult, Substitute, Recorded, Undone, Redone, FromApplied, Retarget, Applicable, Mirrors;
  }

  predicate Current(s: DocState, e: DocEvent) { Guarded(e) && e.expected == s.revision }

  /** The events that end a conflict: a save or a vanished file, reported for the
      current revision; the two choices the user has; and the read-only upgrade. */
  predicate EndsConflict(s: DocState, e: DocEvent) {
    || (Current(s, e) && (e.CompleteSave? || e.ObserveMissing?))
    || e.KeepEditing?
    || (e.ReloadFromDisk? && s.revision < MAX_REVISION)
    || (e.UpgradeReadOnly? && s.readOnly)
  }

  /** Exactly those end it. Any other event keeps the disk text of the conflict, but
      for a newer disk change, which brings its own. */
  lemma {:induction false} ConflictEndsIff(s: DocState, e: DocEvent)
    requires s.status.Conflict?
    ensures !Step(s, e).state.status.Conflict? <==> EndsConflict(s, e)
    ensures !EndsConflict(s, e) ==> Step(s, e).state.status == LastReported(s, [e], s.status)
  {
    hide Substitute, Recorded, Redone, FromApplied;
    if UserEdits(e) {
      EditingKeepsWarnings(s, e);
    } else if e.ReloadFromDisk? {
      ReplaceAllResult(s, s.status.diskText);
    }
  }

  predicate NeverEnds(s: DocState, events: seq<DocEvent>)
    decreases |events|
  {
    events != [] ==> !EndsConflict(s, events[0]) && NeverEnds(Step(s, events[0]).state, events[1..])
  }

  predicate AlwaysInConflict(s: DocState, events: seq<DocEvent>)
    decreases |events|
  {
    s.status.Conflict? && (events != [] ==> AlwaysInConflict(Step(s, events[0]).state, events[1..]))
  }

  /** The newest of `last` and the disk changes that the run reports in time. */
  function LastReported(s: DocState, events: seq<DocEvent>, last: DocumentStatus): DocumentStatus
    decreases |events|
  {
    if events == [] then last
    else
      var e := events[0];
      LastReported(Step(s, e).state, events[1..],
                   if e.ObserveDiskChange? && Current(s, e) then Conflict(e.diskRevision, e.diskText) else last)
  }

  /** Over every run: a conflict lasts through all of it exactly when none of those
      events happens, and it then offers the newest disk text that was reported. */
  lemma {:induction false} ConflictLastsIff(s: DocState, events: seq<DocEvent>)
    requires s.status.Conflict?
    ensures AlwaysInConflict(s, events) <==> NeverEnds(s, events)
    ensures NeverEnds(s, events) ==> Run(s, events).status == LastReported(s, events, s.status)
    decreases |events|
  {
    hide Step, EndsConflict;
    if events != [] {
      var s' := Step(s, events[0]).state;
      ConflictEndsIff(s, events[0]);
      assert [events[0]][1..] == [];
      if !EndsConflict(s, events[0]) {
        ConflictLastsIff(s', events[1..]);
      }
    }
  }

  /** A missing file is noticed as back by a save or a disk change for the current
      revision, and forgotten by the upgrade: by nothing else. */
  lemma {:induction false} MissingEndsIff(s: DocState, e: DocEvent)
    requires s.status.Missing?
    ensures Step(s, e).state.status != s.status
       <==> (Current(s, e) && (e.CompleteSave? || e.ObserveDiskChange?)) || (e.UpgradeReadOnly? && s.readOnly)
  {
    hide Substitute, Recorded, Redone, FromApplied;
    if UserEdits(e) {
      EditingKeepsWarnings(s, e);
    }
  }

  /** Where each way out of a conflict leads. Only reloading changes the text. */
  lemma {:induction false} WaysOutOfConflict(s: DocState)
    requires s.status.Conflict? && s.revision < MAX_REVISION
    ensures var kept, reloaded := Step(s, KeepEditing), Step(s, ReloadFromDisk);
            && kept == Outcome(s.(status := Dirty), Ok(()))
            && reloaded.result.Ok?
            && reloaded.state.text == s.status.diskText == reloaded.state.savedText
            && reloaded.state.diskRevision == s.status.diskRevision
            && reloaded.state.status == Clean && !reloaded.state.recovered
            && reloaded.state.revision == s.revision + 1
    ensures Step(s, ObserveMissing(s.revision)) == Outcome(s.(status := Missing), Ok(()))
  {
    ReloadResult(s);
  }

  /** Outside a conflict both choices are refused. */
  lemma NoConflictToResolve(s: DocState, e: DocEvent)
    requires !s.status.Conflict? && (e.ReloadFromDisk? || e.KeepEditing?)
    ensures Step(s, e) == Outcome(s, Err(NoDiskConflict))
  {
  }

  /** What a current report about the disk leaves alone: all but the baseline of a save,
      all but the warning otherwise; only a clean document takes new text, with a new
      history and one revision later. */
  lemma {:induction false} ReportsKeepTheRest(s: DocState, e: DocEvent)
    requires Current(s, e)
    ensures var s' := Step(s, e).state;
            && s'.readOnly == s.readOnly
            && (e.CompleteSave? ==>
                  s' == s.(savedText := s.text, diskRevision := e.diskRevision, status := Clean, recovered := false))
            && (e.ObserveDiskChange? && !s.status.Clean? ==>
                  s' == s.(status := Conflict(e.diskRevision, e.diskText)))
            && (e.ObserveMissing? ==> s' == s.(status := Missing))
            && (e.ObserveDiskChange? && s.status.Clean? && s.revision < MAX_REVISION ==>
                  s' == DocState(e.diskText, s.revision + 1, EMPTY_HISTORY, e.diskText, e.diskRevision, Clean,
                                 s.readOnly, s.recovered))
  {
    hide Substitute, Inverse;
    if e.ObserveDiskChange? {
      ReplaceAllResult(s, e.diskText);
    }
  }

  /** The upgrade is a new opening that remembers whether the document was recovered. */
  lemma UpgradeReopens(s: DocState, fullText: string, disk: DiskRevision)
    ensures Step(s, DocEvent.UpgradeReadOnly(fullText, disk)).state
         == if s.readOnly then Opened(fullText, disk, false).(recovered := s.recovered) else s
  {
  }

  /** Recovered text is shown, marked and counted as unsaved, whatever the baseline.
      Only spent revisions refuse it. */
  lemma {:induction false} RecoveryIsMarked(s: DocState, text: string)
    ensures var s' := Step(s, RestoreRecovery(text));
            && (s'.result.Ok? <==> s.text == text || s.revision < MAX_REVISION)
            && (s'.result.Err? ==> s' == Outcome(s, Err(TransactionFailed(RevisionExhausted))))
            && (s'.result.Ok? ==>
                  && s'.state.text == text && s'.state.recovered && !s'.state.status.Clean?
                  && s'.state.savedText == s.savedText && s'.state.diskRevision == s.diskRevision
                  && (s.status.Clean? || s'.state.status == s.status) && s'.state.readOnly == s.readOnly
                  && s'.state.revision == (if s.text == text then s.revision else s.revision + 1)
                  && s'.state.history == (if s.text == text then s.history else EMPTY_HISTORY))
    ensures Step(s, MarkRecovered) == Step(s, RestoreRecovery(s.text))
  {
    ReplaceAllResult(s, text);
  }
}
