/** Bounded undo and redo (`history.rs`). */
module Histories {
  import opened Wrappers
  import opened Transactions
  import opened TextBuffers

  datatype EditKind = Typing | Other

  datatype HistoryBudget = HistoryBudget(maxEntries: nat, maxBytes: nat)

  const DEFAULT_BUDGET := HistoryBudget(10_000, 64 * 1024 * 1024)

  datatype EntryRecord = EntryRecord(
    forward: EditTransaction, inverse: EditTransaction, kind: EditKind,
    cursorBefore: nat, cursorAfter: nat, byteCost: nat)

  /** The shape every applied edit leaves: the inverse has one range per
      replacement, the first one lying where the first insertion went, and the
      byte cost counts the characters both directions carry. */
  predicate Mirrors(e: EntryRecord) {
    var forward, inverse := e.forward.replacements, e.inverse.replacements;
    && WellFormed(forward) && WellFormed(inverse)
    && |inverse| == |forward|
    && (|forward| > 0 ==>
          inverse[0].range == CharRange(forward[0].range.start, forward[0].range.start + |forward[0].text|))
    && e.byteCost == InsertedBytes(forward) + InsertedBytes(inverse)
  }

  type HistoryEntry = e: EntryRecord | Mirrors(e)
    witness EntryRecord(EditTransaction(0, []), EditTransaction(0, []), Other, 0, 0, 0)

  datatype HistoryState = HistoryState(undo: seq<HistoryEntry>, redo: seq<HistoryEntry>)

  datatype HistoryError = NothingToUndo | NothingToRedo

  const EMPTY_HISTORY := HistoryState([], [])

  /** `from_applied`, for an edit that the buffer accepted. */
  function FromApplied(text: string, revision: Revision, forward: WfTransaction, kind: EditKind,
                       cursorBefore: nat, cursorAfter: nat): (e: HistoryEntry)
    requires ApplyResult(text, revision, forward).Ok?
    ensures EntryFits(e, text, Substitute(text, forward.replacements))
  {
    var applied := ApplyResult(text, revision, forward).value;
    RoundTrip(text, forward.replacements);
    InverseLength(text, forward.replacements);
    EntryRecord(forward, applied.inverse, kind, cursorBefore, cursorAfter,
                applied.insertedBytes + applied.removedBytes)
  }

  function Retarget(t: EditTransaction, revision: Revision): EditTransaction {
    t.(expectedRevision := revision)
  }

  /** `usize::saturating_sub`. */
  function SaturatingSub(a: nat, b: nat): nat {
    if a < b then 0 else a - b
  }

  function Last<T>(s: seq<T>): T
    requires s != []
  {
    s[|s| - 1]
  }

  function Init<T>(s: seq<T>): seq<T>
    requires s != []
  {
    s[..|s| - 1]
  }

  // ------------------------------------------------------------------ budget

  function TotalCost(entries: seq<HistoryEntry>): nat {
    if entries == [] then 0 else entries[0].byteCost + TotalCost(entries[1..])
  }

  lemma {:induction false} TotalCostOfConcat(a: seq<HistoryEntry>, b: seq<HistoryEntry>)
    ensures TotalCost(a + b) == TotalCost(a) + TotalCost(b)
  {
    if a == [] {
      assert a + b == b;
    } else {
      TotalCostOfConcat(a[1..], b);
      assert (a + b)[1..] == a[1..] + b;
    }
  }

  predicate Fits(budget: HistoryBudget, entries: seq<HistoryEntry>) {
    |entries| <= budget.maxEntries && TotalCost(entries) <= budget.maxBytes
  }

  function Evict(budget: HistoryBudget, undo: seq<HistoryEntry>): (kept: seq<HistoryEntry>)
    ensures Fits(budget, kept)
    ensures |kept| <= |undo|
  {
    if Fits(budget, undo) then undo else Evict(budget, undo[1..])
  }

  /** Eviction keeps the longest run of newest entries that the budget allows. */
  lemma {:induction false} EvictKeepsLongestFit(budget: HistoryBudget, undo: seq<HistoryEntry>, longer: nat)
    ensures var kept := Evict(budget, undo);
            kept == undo[|undo| - |kept|..]
            && (|kept| < longer <= |undo| ==> !Fits(budget, undo[|undo| - longer..]))
  {
    if !Fits(budget, undo) {
      EvictKeepsLongestFit(budget, undo[1..], longer);
      if longer == |undo| {
        assert undo[0..] == undo;
      } else if longer < |undo| {
        assert undo[1..][|undo| - 1 - longer..] == undo[|undo| - longer..];
      }
    } else {
      assert undo[0..] == undo;
    }
  }

  // -------------------------------------------------------------- transitions

  predicate Coalesces(previous: HistoryEntry, next: HistoryEntry) {
    && previous.kind == Typing && next.kind == Typing
    && previous.cursorAfter == next.cursorBefore
    && |previous.forward.replacements| == 1 && |next.forward.replacements| == 1
    && |previous.inverse.replacements| == 1 && |next.inverse.replacements| == 1
    && var p, n := previous.forward.replacements[0], next.forward.replacements[0];
       && p.range.start == p.range.end
       && n.range.start == n.range.end
       && p.range.start + |p.text| == n.range.start
       && previous.inverse.replacements[0].text == ""
       && next.inverse.replacements[0].text == ""
  }

  function Merge(previous: HistoryEntry, next: HistoryEntry): HistoryEntry
    requires Coalesces(previous, next)
  {
    var p, n := previous.forward.replacements[0], next.forward.replacements[0];
    var undone, last := previous.inverse.replacements[0], next.inverse.replacements[0];
    Utf8LengthOfConcat(p.text, n.text);
    var joined, removal := p.(text := p.text + n.text), undone.(range := undone.range.(end := last.range.end));
    InsertedBytesOfOne(p);
    InsertedBytesOfOne(n);
    InsertedBytesOfOne(joined);
    InsertedBytesOfOne(undone);
    InsertedBytesOfOne(last);
    InsertedBytesOfOne(removal);
    assert previous.forward.replacements == [p] && next.forward.replacements == [n];
    assert previous.inverse.replacements == [undone] && next.inverse.replacements == [last];
    previous.(
      forward := previous.forward.(replacements := [joined]),
      inverse := EditTransaction(next.inverse.expectedRevision, [removal]),
      cursorAfter := next.cursorAfter,
      byteCost := previous.byteCost + next.byteCost)
  }

  function Push(undo: seq<HistoryEntry>, entry: HistoryEntry): seq<HistoryEntry> {
    if undo != [] && Coalesces(Last(undo), entry) then Init(undo) + [Merge(Last(undo), entry)] else undo + [entry]
  }

  function Recorded(budget: HistoryBudget, h: HistoryState, entry: HistoryEntry): HistoryState {
    HistoryState(Evict(budget, Push(h.undo, entry)), [])
  }

  function Undone(h: HistoryState): HistoryState
    requires h.undo != []
  {
    HistoryState(Init(h.undo), h.redo + [Last(h.undo)])
  }

  function Redone(budget: HistoryBudget, h: HistoryState): HistoryState
    requires h.redo != []
  {
    HistoryState(Evict(budget, h.undo + [Last(h.redo)]), Init(h.redo))
  }

  predicate WithinBudget(budget: HistoryBudget, h: HistoryState) {
    |h.undo| + |h.redo| <= budget.maxEntries && TotalCost(h.undo) + TotalCost(h.redo) <= budget.maxBytes
  }

  /** Pushing adds exactly the new entry's cost, whether or not it coalesces. */
  lemma PushCost(undo: seq<HistoryEntry>, entry: HistoryEntry)
    ensures TotalCost(Push(undo, entry)) == TotalCost(undo) + entry.byteCost
  {
    TotalCostOfConcat(undo, [entry]);
    if undo != [] && Coalesces(Last(undo), entry) {
      TotalCostOfConcat(Init(undo), [Last(undo)]);
      TotalCostOfConcat(Init(undo), [Merge(Last(undo), entry)]);
      assert undo == Init(undo) + [Last(undo)];
    }
  }

  lemma MoveCost(entries: seq<HistoryEntry>)
    requires entries != []
    ensures TotalCost(entries) == TotalCost(Init(entries)) + Last(entries).byteCost
  {
    TotalCostOfConcat(Init(entries), [Last(entries)]);
    assert entries == Init(entries) + [Last(entries)];
  }

  /** Undo and redo together stay within the budget. */
  lemma RecordKeepsBudget(budget: HistoryBudget, h: HistoryState, entry: HistoryEntry)
    ensures WithinBudget(budget, Recorded(budget, h, entry))
  {
  }

  lemma UndoKeepsBudget(budget: HistoryBudget, h: HistoryState)
    requires WithinBudget(budget, h) && h.undo != []
    ensures WithinBudget(budget, Undone(h))
  {
    MoveCost(h.undo);
    TotalCostOfConcat(h.redo, [Last(h.undo)]);
  }

  /** So `redo` never evicts: it exactly moves one entry back. */
  lemma RedoNeverEvicts(budget: HistoryBudget, h: HistoryState)
    requires WithinBudget(budget, h) && h.redo != []
    ensures Redone(budget, h) == HistoryState(h.undo + [Last(h.redo)], Init(h.redo))
    ensures WithinBudget(budget, Redone(budget, h))
    ensures Undone(Redone(budget, h)) == h
  {
    MoveCost(h.redo);
    TotalCostOfConcat(h.undo, [Last(h.redo)]);
    assert h.redo == Init(h.redo) + [Last(h.redo)];
    assert Init(h.undo + [Last(h.redo)]) == h.undo;
  }

  lemma RedoInvertsUndo(budget: HistoryBudget, h: HistoryState)
    requires WithinBudget(budget, h) && h.undo != []
    ensures Redone(budget, Undone(h)) == h
  {
    UndoKeepsBudget(budget, h);
    RedoNeverEvicts(budget, Undone(h));
    assert h.undo == Init(h.undo) + [Last(h.undo)];
    assert Init(h.redo + [Last(h.undo)]) == h.redo;
  }

  class History {
    const budget: HistoryBudget
    var undo: seq<HistoryEntry>
    var redo: seq<HistoryEntry>
    var retainedBytes: nat

    ghost function View(): HistoryState
      reads this
    {
      HistoryState(undo, redo)
    }

    ghost predicate Valid()
      reads this
    {
      retainedBytes == TotalCost(undo) && WithinBudget(budget, View())
    }

    constructor (budget: HistoryBudget)
      ensures this.budget == budget && Valid() && View() == EMPTY_HISTORY
    {
      this.budget := budget;
      undo, redo, retainedBytes := [], [], 0;
    }

    method Record(entry: HistoryEntry)
      requires Valid()
      modifies this
      ensures Valid() && View() == Recorded(budget, old(View()), entry)
    {
      redo := [];
      PushCost(undo, entry);
      var coalesced := false;
      if undo != [] {
        coalesced := CoalesceTyping(entry);
      }
      if coalesced {
        retainedBytes := retainedBytes + entry.byteCost;
      } else {
        retainedBytes := retainedBytes + entry.byteCost;
        undo := undo + [entry];
      }
      EnforceBudget();
    }

    method Undo(currentRevision: Revision) returns (r: Result<WfTransaction, HistoryError>)
      requires Valid()
      modifies this
      ensures Valid()
      ensures old(undo) == [] ==> r == Err(NothingToUndo) && unchanged(this)
      ensures old(undo) != [] ==>
                r == Ok(Retarget(Last(old(undo)).inverse, currentRevision)) && View() == Undone(old(View()))
    {
      if undo == [] {
        return Err(NothingToUndo);
      }
      var entry := Last(undo);
      UndoKeepsBudget(budget, View());
      MoveCost(undo);
      undo := Init(undo);
      retainedBytes := SaturatingSub(retainedBytes, entry.byteCost);
      redo := redo + [entry];
      r := Ok(Retarget(entry.inverse, currentRevision));
    }

    method Redo(currentRevision: Revision) returns (r: Result<WfTransaction, HistoryError>)
      requires Valid()
      modifies this
      ensures Valid()
      ensures old(redo) == [] ==> r == Err(NothingToRedo) && unchanged(this)
      ensures old(redo) != [] ==>
                r == Ok(Retarget(Last(old(redo)).forward, currentRevision)) && View() == Redone(budget, old(View()))
    {
      if redo == [] {
        return Err(NothingToRedo);
      }
      var entry := Last(redo);
      RedoNeverEvicts(budget, View());
      TotalCostOfConcat(undo, [entry]);
      redo := Init(redo);
      retainedBytes := retainedBytes + entry.byteCost;
      undo := undo + [entry];
      EnforceBudget();
      r := Ok(Retarget(entry.forward, currentRevision));
    }

    method EnforceBudget()
      requires retainedBytes == TotalCost(undo)
      modifies this`undo, this`retainedBytes
      ensures retainedBytes == TotalCost(undo) && undo == Evict(budget, old(undo))
    {
      while |undo| > budget.maxEntries || retainedBytes > budget.maxBytes
        invariant retainedBytes == TotalCost(undo)
        invariant Evict(budget, undo) == Evict(budget, old(undo))
        decreases |undo|
      {
        if undo == [] {
          break;
        }
        var entry := undo[0];
        undo := undo[1..];
        retainedBytes := SaturatingSub(retainedBytes, entry.byteCost);
      }
    }

    /** Extends the newest undo entry in place when `next` continues its typing. */
    method CoalesceTyping(next: HistoryEntry) returns (coalesced: bool)
      requires undo != []
      modifies this`undo
      ensures coalesced == Coalesces(Last(old(undo)), next)
      ensures undo == if coalesced then Push(old(undo), next) else old(undo)
    {
      var previous := Last(undo);
      if !Coalesces(previous, next) {
        return false;
      }
      undo := Init(undo) + [Merge(previous, next)];
      return true;
    }
  }

  // ------------------------------------------------------------------- chains

  /** `e` records the edit that turned `pre` into `post`. */
  predicate EntryFits(e: HistoryEntry, pre: string, post: string) {
    && Applicable(pre, e.forward.replacements)
    && Substitute(pre, e.forward.replacements) == post
    && e.inverse.replacements == Inverse(pre, e.forward.replacements)
  }

  lemma EntryFitsBackwards(e: HistoryEntry, pre: string, post: string)
    requires EntryFits(e, pre, post)
    ensures Applicable(post, e.inverse.replacements)
    ensures Substitute(post, e.inverse.replacements) == pre
  {
    RoundTrip(pre, e.forward.replacements);
  }

  /** Walking the undo stack back from `text`, every inverse is in bounds and
      leads to a text from which its own forward edit leads here again. */
  predicate UndoChain(text: string, undo: seq<HistoryEntry>)
    decreases |undo|
  {
    undo == [] ||
    (&& Applicable(text, Last(undo).inverse.replacements)
     && var pre := Substitute(text, Last(undo).inverse.replacements);
        EntryFits(Last(undo), pre, text) && UndoChain(pre, Init(undo)))
  }

  predicate RedoChain(text: string, redo: seq<HistoryEntry>)
    decreases |redo|
  {
    redo == [] ||
    (&& Applicable(text, Last(redo).forward.replacements)
     && var post := Substitute(text, Last(redo).forward.replacements);
        EntryFits(Last(redo), text, post) && RedoChain(post, Init(redo)))
  }

  predicate Chain(text: string, h: HistoryState) {
    UndoChain(text, h.undo) && RedoChain(text, h.redo)
  }

  lemma {:induction false} UndoChainOfSuffix(text: string, undo: seq<HistoryEntry>, k: nat)
    requires k <= |undo| && UndoChain(text, undo)
    ensures UndoChain(text, undo[k..])
    decreases |undo|
  {
    if k < |undo| {
      var pre := Substitute(text, Last(undo).inverse.replacements);
      UndoChainOfSuffix(pre, Init(undo), k);
      assert Init(undo)[k..] == Init(undo[k..]);
    }
  }

  /** A merged entry records the two edits as one, from before the first. */
  lemma MergeFits(previous: HistoryEntry, next: HistoryEntry, before: string, pre: string, post: string)
    requires Coalesces(previous, next)
    requires EntryFits(previous, before, pre) && EntryFits(next, pre, post)
    ensures EntryFits(Merge(previous, next), before, post)
  {
    var p, n := previous.forward.replacements[0], next.forward.replacements[0];
    var at := p.range.start;
    assert previous.forward.replacements == [p] && next.forward.replacements == [n];
    InsertOnce(before, p);
    InsertOnce(pre, n);
    var merged := p.(text := p.text + n.text);
    assert Merge(previous, next).forward.replacements == [merged];
    InsertOnce(before, merged);
  }

  /** A single insertion, written out. */
  lemma InsertOnce(text: string, r: Replacement)
    requires r.range.start == r.range.end
    ensures Applicable(text, [r]) <==> r.range.start <= |text|
    ensures r.range.start <= |text| ==>
              && Substitute(text, [r]) == text[..r.range.start] + r.text + text[r.range.start..]
              && Inverse(text, [r]) == [Replacement(CharRange(r.range.start, r.range.start + |r.text|), "")]
  {
    ReplaceOnce(text, r);
    if r.range.start <= |text| {
      assert text[r.range.start..r.range.end] == "";
    }
  }

  predicate OneInsertion(e: HistoryEntry) {
    |e.forward.replacements| == 1 && e.forward.replacements[0].range.start == e.forward.replacements[0].range.end
  }

  /** Two recorded edits merge exactly when both are typing, each is a single
      insertion, and the second continues the first: its insertion starts where the
      first one ends, and its caret starts where the first one left it. */
  lemma {:induction false} CoalescesExactlyWhen(a: HistoryEntry, b: HistoryEntry, before: string, pre: string,
                                                post: string)
    requires EntryFits(a, before, pre) && EntryFits(b, pre, post)
    ensures Coalesces(a, b)
       <==> && a.kind == Typing && b.kind == Typing && a.cursorAfter == b.cursorBefore
            && OneInsertion(a) && OneInsertion(b)
            && var inserted := a.forward.replacements[0];
               b.forward.replacements[0].range.start == inserted.range.start + |inserted.text|
  {
    if OneInsertion(a) && OneInsertion(b) {
      var p, n := a.forward.replacements[0], b.forward.replacements[0];
      assert a.forward.replacements == [p] && b.forward.replacements == [n];
      InsertOnce(before, p);
      InsertOnce(pre, n);
    }
  }

  /** A merged entry spans both edits, carets included. */
  lemma MergeSpans(a: HistoryEntry, b: HistoryEntry)
    requires Coalesces(a, b)
    ensures var merged := Merge(a, b);
            && merged.kind == Typing && merged.byteCost == a.byteCost + b.byteCost
            && merged.cursorBefore == a.cursorBefore && merged.cursorAfter == b.cursorAfter
            && merged.forward.expectedRevision == a.forward.expectedRevision
            && merged.inverse.expectedRevision == b.inverse.expectedRevision
  {
  }

  /** Merging does not change what merges next, on either side, and three entries
      that continue each other become the same one however they are grouped. */
  lemma CoalescingIsAssociative(a: HistoryEntry, b: HistoryEntry, c: HistoryEntry)
    ensures Coalesces(a, b) ==> (Coalesces(Merge(a, b), c) <==> Coalesces(b, c))
    ensures Coalesces(b, c) ==> (Coalesces(a, Merge(b, c)) <==> Coalesces(a, b))
    ensures Coalesces(a, b) && Coalesces(b, c) ==> Merge(Merge(a, b), c) == Merge(a, Merge(b, c))
  {
    if Coalesces(a, b) && Coalesces(b, c) {
      Rebracket(a.forward.replacements[0].text, b.forward.replacements[0].text, c.forward.replacements[0].text);
    }
  }

  // ------------------------------------------------------------- typing runs

  /** The one entry that typing `cs` at `at` leaves, from revision `revision` on. */
  function TypedEntry(revision: nat, at: nat, cs: string): (e: HistoryEntry)
    requires revision + |cs| <= MAX_REVISION
  {
    var inserted := [Replacement(CharRange(at, at), cs)];
    var removal := [Replacement(CharRange(at, at + |cs|), "")];
    InsertedBytesOfOne(inserted[0]);
    InsertedBytesOfOne(removal[0]);
    EntryRecord(EditTransaction(revision, inserted), EditTransaction(revision + |cs|, removal),
                Typing, at, at + |cs|, Utf8Length(cs))
  }

  lemma TypedMerges(revision: nat, at: nat, cs: string, c: char)
    requires revision + |cs| + 1 <= MAX_REVISION
    ensures var first, next := TypedEntry(revision, at, cs), TypedEntry(revision + |cs|, at + |cs|, [c]);
            Coalesces(first, next) && Merge(first, next) == TypedEntry(revision, at, cs + [c])
  {
    Utf8LengthOfConcat(cs, [c]);
  }

  /** What a budget evicts now it would also evict later. */
  lemma {:induction false} EvictTwice(budget: HistoryBudget, undo: seq<HistoryEntry>, shorter: HistoryEntry,
                                      grown: HistoryEntry)
    requires shorter.byteCost <= grown.byteCost && shorter.byteCost <= budget.maxBytes && budget.maxEntries > 0
    ensures var kept := Evict(budget, undo + [shorter]);
            kept != [] && Last(kept) == shorter && Evict(budget, Init(kept) + [grown]) == Evict(budget, undo + [grown])
    decreases |undo|
  {
    TotalCostOfConcat(undo, [shorter]);
    TotalCostOfConcat(undo, [grown]);
    if undo == [] {
      assert undo + [shorter] == [shorter] && [shorter][1..] == [];
    } else if !Fits(budget, undo + [shorter]) {
      assert (undo + [shorter])[1..] == undo[1..] + [shorter];
      assert (undo + [grown])[1..] == undo[1..] + [grown];
      EvictTwice(budget, undo[1..], shorter, grown);
    } else {
      assert Init(undo + [shorter]) == undo;
    }
  }

  lemma PushKeepsChain(undo: seq<HistoryEntry>, entry: HistoryEntry, pre: string, post: string)
    requires UndoChain(pre, undo) && EntryFits(entry, pre, post)
    ensures UndoChain(post, Push(undo, entry))
  {
    if undo != [] && Coalesces(Last(undo), entry) {
      var before := Substitute(pre, Last(undo).inverse.replacements);
      var merged := Merge(Last(undo), entry);
      MergeFits(Last(undo), entry, before, pre, post);
      EntryFitsBackwards(merged, before, post);
      assert Init(Push(undo, entry)) == Init(undo) && Last(Push(undo, entry)) == merged;
    } else {
      EntryFitsBackwards(entry, pre, post);
      assert Init(undo + [entry]) == undo && Last(undo + [entry]) == entry;
    }
  }

  lemma EvictKeepsChain(budget: HistoryBudget, text: string, undo: seq<HistoryEntry>)
    requires UndoChain(text, undo)
    ensures UndoChain(text, Evict(budget, undo))
  {
    EvictKeepsLongestFit(budget, undo, 0);
    UndoChainOfSuffix(text, undo, |undo| - |Evict(budget, undo)|);
  }

  /** Recording an edit, with whatever coalescing and eviction that brings,
      leaves a chain from the new text. */
  lemma RecordKeepsChain(budget: HistoryBudget, h: HistoryState, entry: HistoryEntry, pre: string, post: string)
    requires UndoChain(pre, h.undo) && EntryFits(entry, pre, post)
    ensures Chain(post, Recorded(budget, h, entry))
  {
    PushKeepsChain(h.undo, entry, pre, post);
    EvictKeepsChain(budget, post, Push(h.undo, entry));
  }

  lemma UndoKeepsChain(text: string, h: HistoryState)
    requires Chain(text, h) && h.undo != []
    ensures Chain(Substitute(text, Last(h.undo).inverse.replacements), Undone(h))
  {
    assert Init(h.redo + [Last(h.undo)]) == h.redo;
  }

  lemma RedoKeepsChain(budget: HistoryBudget, text: string, h: HistoryState)
    requires Chain(text, h) && h.redo != []
    ensures Chain(Substitute(text, Last(h.redo).forward.replacements), Redone(budget, h))
  {
    var post := Substitute(text, Last(h.redo).forward.replacements);
    var pushed := h.undo + [Last(h.redo)];
    EntryFitsBackwards(Last(h.redo), text, post);
    assert Init(pushed) == h.undo && Last(pushed) == Last(h.redo);
    EvictKeepsChain(budget, post, pushed);
  }
}
