/** Edit transactions (`transaction.rs`, `position.rs`) and what applying one
    means: the simultaneous substitution of disjoint ranges, and its inverse. */
module Transactions {
  import opened Wrappers
  import Sorting

  const MAX_REVISION: nat := 0xFFFF_FFFF_FFFF_FFFF

  /** A `u64` counter that is incremented with a check. */
  type Revision = r: nat | r <= MAX_REVISION

  datatype CharRange = CharRange(start: nat, end: nat)

  datatype Replacement = Replacement(range: CharRange, text: string)

  datatype EditTransaction = EditTransaction(expectedRevision: Revision, replacements: seq<Replacement>)

  datatype AppliedTransaction =
    AppliedTransaction(revision: Revision, inverse: EditTransaction, insertedBytes: nat, removedBytes: nat)

  datatype TransactionError =
    | OverlappingRanges
    | RangeOutOfBounds(end: nat, charLen: nat)
    | StaleRevision(expected: Revision, actual: Revision)
    | RevisionExhausted

  function NextRevision(r: Revision): Result<Revision, TransactionError> {
    if r == MAX_REVISION then Err(RevisionExhausted) else Ok(r + 1)
  }

  // ---------------------------------------------------------------- creation

  /** The sort key `(start, end)` of a replacement, compared lexicographically. */
  predicate KeyLe(a: Replacement, b: Replacement) {
    a.range.start < b.range.start || (a.range.start == b.range.start && a.range.end <= b.range.end)
  }

  predicate AdjacentPairOverlaps(rs: seq<Replacement>) {
    exists i | 0 <= i < |rs| - 1 :: rs[i + 1].range.start < rs[i].range.end
  }

  function NewTransaction(revision: Revision, rs: seq<Replacement>): Result<EditTransaction, TransactionError> {
    var sorted := Sorting.StableSort(KeyLe, rs);
    if AdjacentPairOverlaps(sorted) then Err(OverlappingRanges) else Ok(EditTransaction(revision, sorted))
  }

  predicate OrderedRange(r: Replacement) { r.range.start <= r.range.end }

  predicate Disjoint(a: Replacement, b: Replacement) {
    a.range.end <= b.range.start || b.range.end <= a.range.start
  }

  /** Every range is ordered, and each ends no later than the next one starts. */
  predicate WellFormed(rs: seq<Replacement>) {
    && (forall i | 0 <= i < |rs| :: OrderedRange(rs[i]))
    && (forall i | 0 <= i < |rs| - 1 :: rs[i].range.end <= rs[i + 1].range.start)
  }

  predicate WithinLength(rs: seq<Replacement>, length: nat) {
    forall i | 0 <= i < |rs| :: rs[i].range.end <= length
  }

  type WfTransaction = t: EditTransaction | WellFormed(t.replacements) witness EditTransaction(0, [])

  lemma {:induction false} WellFormedIsOrdered(rs: seq<Replacement>, i: nat, j: nat)
    requires WellFormed(rs) && i < j < |rs|
    ensures rs[i].range.end <= rs[j].range.start
    ensures KeyLe(rs[i], rs[j])
    decreases j - i
  {
    if i + 1 < j {
      WellFormedIsOrdered(rs, i + 1, j);
      assert OrderedRange(rs[i + 1]);
    }
    assert OrderedRange(rs[i]) && OrderedRange(rs[j]);
  }

  /** A well-formed list of replacements comes back from the constructor unchanged. */
  lemma NewOfWellFormed(revision: Revision, rs: seq<Replacement>)
    requires WellFormed(rs)
    ensures NewTransaction(revision, rs) == Ok(EditTransaction(revision, rs))
  {
    forall i, j | 0 <= i < j < |rs|
      ensures KeyLe(rs[i], rs[j])
    {
      WellFormedIsOrdered(rs, i, j);
    }
    Sorting.StableSortOfSorted(KeyLe, rs);
  }

  /** What a success gives: a well-formed permutation that keeps same-range
      replacements (several inserts at one point) in the caller's order. */
  lemma NewGivesWellFormed(revision: Revision, rs: seq<Replacement>, key: Replacement)
    requires forall r | r in rs :: OrderedRange(r)
    requires NewTransaction(revision, rs).Ok?
    ensures var made := NewTransaction(revision, rs).value;
            && made.expectedRevision == revision
            && WellFormed(made.replacements)
            && multiset(made.replacements) == multiset(rs)
            && Sorting.EqualTo(KeyLe, made.replacements, key) == Sorting.EqualTo(KeyLe, rs, key)
  {
    var sorted := Sorting.StableSort(KeyLe, rs);
    Sorting.StableSortPermutes(KeyLe, rs);
    Sorting.StableSortIsStable(KeyLe, rs, key);
    forall i | 0 <= i < |sorted|
      ensures OrderedRange(sorted[i])
    {
      assert sorted[i] in multiset(sorted);
      assert sorted[i] in multiset(rs);
    }
  }

  lemma SortedRangesAreOrdered(rs: seq<Replacement>)
    requires forall r | r in rs :: OrderedRange(r)
    ensures var sorted := Sorting.StableSort(KeyLe, rs);
            && multiset(sorted) == multiset(rs)
            && (forall i | 0 <= i < |sorted| :: OrderedRange(sorted[i]))
            && (forall i | 0 <= i < |sorted| - 1 :: KeyLe(sorted[i], sorted[i + 1]))
  {
    var sorted := Sorting.StableSort(KeyLe, rs);
    Sorting.StableSortPermutes(KeyLe, rs);
    Sorting.StableSortSorts(KeyLe, rs);
    forall i | 0 <= i < |sorted|
      ensures OrderedRange(sorted[i])
    {
      assert sorted[i] in multiset(sorted);
      assert sorted[i] in multiset(rs);
    }
  }

  lemma OverlapFound(sorted: seq<Replacement>)
    requires forall i | 0 <= i < |sorted| :: OrderedRange(sorted[i])
    requires forall i | 0 <= i < |sorted| - 1 :: KeyLe(sorted[i], sorted[i + 1])
    ensures AdjacentPairOverlaps(sorted) <==> !WellFormed(sorted)
    ensures AdjacentPairOverlaps(sorted) <==> exists i, j | 0 <= i < j < |sorted| :: !Disjoint(sorted[i], sorted[j])
  {
    if AdjacentPairOverlaps(sorted) {
      var i :| 0 <= i < |sorted| - 1 && sorted[i + 1].range.start < sorted[i].range.end;
      assert KeyLe(sorted[i], sorted[i + 1]) && OrderedRange(sorted[i + 1]);
      assert !Disjoint(sorted[i], sorted[i + 1]);
    } else {
      forall i, j | 0 <= i < j < |sorted|
        ensures Disjoint(sorted[i], sorted[j])
      {
        WellFormedIsOrdered(sorted, i, j);
      }
    }
  }

  /** The adjacent-pair test after sorting decides the order-free question:
      construction succeeds exactly when no two replacements overlap. */
  lemma NewSucceedsIffDisjoint(revision: Revision, rs: seq<Replacement>)
    requires forall r | r in rs :: OrderedRange(r)
    ensures NewTransaction(revision, rs).Ok? <==> forall i, j | 0 <= i < j < |rs| :: Disjoint(rs[i], rs[j])
    ensures NewTransaction(revision, rs).Err? ==> NewTransaction(revision, rs) == Err(OverlappingRanges)
  {
    hide Disjoint, OrderedRange, KeyLe, WellFormed, AdjacentPairOverlaps;
    var sorted := Sorting.StableSort(KeyLe, rs);
    SortedRangesAreOrdered(rs);
    OverlapFound(sorted);
    if forall i, j | 0 <= i < j < |sorted| :: Disjoint(sorted[i], sorted[j]) {
      PairsFollowPermutation(sorted, rs);
    }
    if forall i, j | 0 <= i < j < |rs| :: Disjoint(rs[i], rs[j]) {
      PairsFollowPermutation(rs, sorted);
    }
  }

  lemma {:induction false} CountAtTwoPlaces<T>(s: seq<T>, i: nat, j: nat)
    requires i < j < |s| && s[i] == s[j]
    ensures multiset(s)[s[i]] >= 2
  {
    assert s == s[..j] + s[j..];
    assert s[i] in multiset(s[..j]);
    assert s[j] in multiset(s[j..]) by { assert s[j..][0] == s[j]; }
  }

  lemma {:induction false} TwoPlacesFromCount<T>(s: seq<T>, x: T) returns (i: nat, j: nat)
    requires multiset(s)[x] >= 2
    ensures i < j < |s| && s[i] == x && s[j] == x
  {
    i :| 0 <= i < |s| && s[i] == x;
    var rest := s[..i] + s[i + 1..];
    assert s == s[..i] + [s[i]] + s[i + 1..];
    assert multiset(rest)[x] >= 1;
    var k :| 0 <= k < |rest| && rest[k] == x;
    j := if k < i then k else k + 1;
    i, j := if i < j then i else j, if i < j then j else i;
  }

  /** Pairwise disjointness does not depend on the order of the list. */
  lemma PairsFollowPermutation(s: seq<Replacement>, t: seq<Replacement>)
    requires multiset(s) == multiset(t)
    requires forall i, j | 0 <= i < j < |s| :: Disjoint(s[i], s[j])
    ensures forall i, j | 0 <= i < j < |t| :: Disjoint(t[i], t[j])
  {
    forall i, j | 0 <= i < j < |t|
      ensures Disjoint(t[i], t[j])
    {
      if t[i] == t[j] {
        CountAtTwoPlaces(t, i, j);
        var a, b := TwoPlacesFromCount(s, t[i]);
        assert Disjoint(s[a], s[b]);
      } else {
        assert t[i] in multiset(s) && t[j] in multiset(s);
        var a :| 0 <= a < |s| && s[a] == t[i];
        var b :| 0 <= b < |s| && s[b] == t[j];
        assert Disjoint(s[if a < b then a else b], s[if a < b then b else a]);
      }
    }
  }

  // ------------------------------------------------------------ substitution

  /** `rs` sits, in order and without overlap, inside `from..to`. */
  predicate Placed(rs: seq<Replacement>, from: nat, to: nat) {
    && from <= to
    && (rs != [] ==> from <= rs[0].range.start <= rs[0].range.end <= to && Placed(rs[1..], rs[0].range.end, to))
  }

  lemma {:induction false} PlacedIffWellFormed(rs: seq<Replacement>, from: nat, to: nat)
    requires from <= to && (rs != [] ==> from <= rs[0].range.start)
    ensures Placed(rs, from, to) <==> WellFormed(rs) && WithinLength(rs, to)
  {
    if rs != [] {
      var tail := rs[1..];
      if OrderedRange(rs[0]) && rs[0].range.end <= to && (tail != [] ==> rs[0].range.end <= tail[0].range.start) {
        PlacedIffWellFormed(tail, rs[0].range.end, to);
        if WellFormed(tail) && WithinLength(tail, to) {
          forall i | 0 <= i < |rs|
            ensures OrderedRange(rs[i]) && rs[i].range.end <= to
            ensures i < |rs| - 1 ==> rs[i].range.end <= rs[i + 1].range.start
          {
            if i > 0 {
              assert rs[i] == tail[i - 1];
            }
          }
        }
        if WellFormed(rs) && WithinLength(rs, to) {
          forall i | 0 <= i < |tail|
            ensures OrderedRange(tail[i]) && tail[i].range.end <= to
            ensures i < |tail| - 1 ==> tail[i].range.end <= tail[i + 1].range.start
          {
            assert tail[i] == rs[i + 1];
          }
        }
      } else if tail != [] {
        assert tail[0] == rs[1];
      }
    }
  }

  /** The text from `from` on, with every range of `rs` replaced at once: one
      left-to-right pass that copies what lies between the ranges. */
  function SubstituteFrom(text: string, rs: seq<Replacement>, from: nat): string
    requires Placed(rs, from, |text|)
  {
    if rs == [] then text[from..]
    else
      text[from..rs[0].range.start] + rs[0].text + SubstituteFrom(text, rs[1..], rs[0].range.end)
  }

  /** The replacements, in the coordinates of the new text, that put the old text back. */
  function InverseFrom(text: string, rs: seq<Replacement>, from: nat, delta: int): seq<Replacement>
    requires Placed(rs, from, |text|) && from + delta >= 0
  {
    if rs == [] then []
    else
      var start := rs[0].range.start + delta;
      var grown := |rs[0].text| - (rs[0].range.end - rs[0].range.start);
      [Replacement(CharRange(start, start + |rs[0].text|), text[rs[0].range.start..rs[0].range.end])]
      + InverseFrom(text, rs[1..], rs[0].range.end, delta + grown)
  }

  predicate Applicable(text: string, rs: seq<Replacement>) {
    WellFormed(rs) && WithinLength(rs, |text|)
  }

  function Substitute(text: string, rs: seq<Replacement>): string
    requires Applicable(text, rs)
  {
    PlacedIffWellFormed(rs, 0, |text|);
    SubstituteFrom(text, rs, 0)
  }

  function Inverse(text: string, rs: seq<Replacement>): seq<Replacement>
    requires Applicable(text, rs)
  {
    PlacedIffWellFormed(rs, 0, |text|);
    InverseFrom(text, rs, 0, 0)
  }

  lemma {:induction false} InverseLengthFrom(text: string, rs: seq<Replacement>, from: nat, delta: int)
    requires Placed(rs, from, |text|) && from + delta >= 0
    ensures |InverseFrom(text, rs, from, delta)| == |rs|
  {
    if rs != [] {
      InverseLengthFrom(text, rs[1..], rs[0].range.end, delta + |rs[0].text| - (rs[0].range.end - rs[0].range.start));
    }
  }

  lemma InverseLength(text: string, rs: seq<Replacement>)
    requires Applicable(text, rs)
    ensures |Inverse(text, rs)| == |rs|
  {
    PlacedIffWellFormed(rs, 0, |text|);
    InverseLengthFrom(text, rs, 0, 0);
  }

  lemma {:induction false} InversePlaced(text: string, rs: seq<Replacement>, from: nat, delta: int)
    requires Placed(rs, from, |text|) && from + delta >= 0
    ensures Placed(InverseFrom(text, rs, from, delta), from + delta,
                   from + delta + |SubstituteFrom(text, rs, from)|)
  {
    if rs != [] {
      var grown := |rs[0].text| - (rs[0].range.end - rs[0].range.start);
      InversePlaced(text, rs[1..], rs[0].range.end, delta + grown);
      var inverse := InverseFrom(text, rs, from, delta);
      assert inverse[1..] == InverseFrom(text, rs[1..], rs[0].range.end, delta + grown);
    }
  }

  /** What the first step of the inverse pass sees in the changed text. */
  lemma InverseHead(text: string, rs: seq<Replacement>, from: nat, delta: int, changed: string)
    requires Placed(rs, from, |text|) && from + delta >= 0 && rs != []
    requires from + delta <= |changed| && changed[from + delta..] == SubstituteFrom(text, rs, from)
    ensures var r, inverse := rs[0], InverseFrom(text, rs, from, delta);
            var next := delta + |r.text| - (r.range.end - r.range.start);
            && inverse[1..] == InverseFrom(text, rs[1..], r.range.end, next)
            && r.range.end + next == inverse[0].range.end <= |changed|
            && changed[r.range.end + next..] == SubstituteFrom(text, rs[1..], r.range.end)
            && changed[from + delta..inverse[0].range.start] == text[from..r.range.start]
            && changed[inverse[0].range.start..inverse[0].range.end] == r.text
  {
    var r := rs[0];
  }

  lemma SubstituteHead(text: string, rs: seq<Replacement>, from: nat)
    requires rs != [] && Placed(rs, from, |text|)
    ensures SubstituteFrom(text, rs, from)
         == text[from..rs[0].range.start] + rs[0].text + SubstituteFrom(text, rs[1..], rs[0].range.end)
  {
  }

  /** Behind any prefix of the right length, the inverse undoes the substitution. */
  lemma {:induction false} RestoreFrom(text: string, rs: seq<Replacement>, from: nat, delta: int, changed: string)
    requires Placed(rs, from, |text|) && from + delta >= 0
    requires from + delta <= |changed| && changed[from + delta..] == SubstituteFrom(text, rs, from)
    ensures Placed(InverseFrom(text, rs, from, delta), from + delta, |changed|)
    ensures SubstituteFrom(changed, InverseFrom(text, rs, from, delta), from + delta) == text[from..]
  {
    hide SubstituteFrom;
    InversePlaced(text, rs, from, delta);
    var inverse := InverseFrom(text, rs, from, delta);
    if rs == [] {
      SubstituteNone(text, from);
      SubstituteNone(changed, from + delta);
    } else {
      var r := rs[0];
      var next := delta + |r.text| - (r.range.end - r.range.start);
      InverseHead(text, rs, from, delta, changed);
      RestoreFrom(text, rs[1..], r.range.end, next, changed);
      SubstituteHead(changed, inverse, from + delta);
      assert inverse[0].text == text[r.range.start..r.range.end];
    }
  }

  lemma SubstituteNone(text: string, from: nat)
    requires from <= |text|
    ensures SubstituteFrom(text, [], from) == text[from..]
  {
  }

  /** And the inverse of the inverse is the original list of replacements. */
  lemma {:induction false} InverseTwiceFrom(text: string, rs: seq<Replacement>, from: nat, delta: int, changed: string)
    requires Placed(rs, from, |text|) && from + delta >= 0
    requires from + delta <= |changed| && changed[from + delta..] == SubstituteFrom(text, rs, from)
    requires Placed(InverseFrom(text, rs, from, delta), from + delta, |changed|)
    ensures InverseFrom(changed, InverseFrom(text, rs, from, delta), from + delta, -delta) == rs
  {
    hide SubstituteFrom;
    if rs != [] {
      var r := rs[0];
      var next := delta + |r.text| - (r.range.end - r.range.start);
      InverseHead(text, rs, from, delta, changed);
      InverseTwiceFrom(text, rs[1..], r.range.end, next, changed);
      assert rs == [r] + rs[1..];
    }
  }

  /** The computed inverse is already well formed and in bounds, restores the
      exact text, and its own inverse is the original list, ranges and texts. */
  lemma RoundTrip(text: string, rs: seq<Replacement>)
    requires Applicable(text, rs)
    ensures Applicable(Substitute(text, rs), Inverse(text, rs))
    ensures Substitute(Substitute(text, rs), Inverse(text, rs)) == text
    ensures Inverse(Substitute(text, rs), Inverse(text, rs)) == rs
  {
    PlacedIffWellFormed(rs, 0, |text|);
    var changed := Substitute(text, rs);
    assert changed[0..] == changed;
    RestoreFrom(text, rs, 0, 0, changed);
    InverseTwiceFrom(text, rs, 0, 0, changed);
    var inverse := Inverse(text, rs);
    PlacedIffWellFormed(inverse, 0, |changed|);
    assert text[0..] == text;
  }

  /** One replacement, written out. */
  lemma ReplaceOnce(text: string, r: Replacement)
    requires r.range.start <= r.range.end
    ensures WellFormed([r])
    ensures Applicable(text, [r]) <==> r.range.end <= |text|
    ensures r.range.end <= |text| ==>
              && Substitute(text, [r]) == text[..r.range.start] + r.text + text[r.range.end..]
              && Inverse(text, [r]) == [Replacement(CharRange(r.range.start, r.range.start + |r.text|),
                                                    text[r.range.start..r.range.end])]
  {
    assert WithinLength([r], |text|) <==> [r][0].range.end <= |text|;
    if r.range.end <= |text| {
      PlacedIffWellFormed([r], 0, |text|);
      assert [r][1..] == [];
      SubstituteNone(text, r.range.end);
      assert Substitute(text, [r]) == text[0..r.range.start] + r.text + text[r.range.end..];
      assert InverseFrom(text, [], r.range.end, |r.text| - (r.range.end - r.range.start)) == [];
    }
  }
}
