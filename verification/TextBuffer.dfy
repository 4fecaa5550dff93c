/** The character buffer (`buffer.rs`): atomic application of a transaction. */
module TextBuffers {
  import opened Wrappers
  import opened Transactions

  datatype LineEnding = NoEnding | Lf | CrLf | Mixed

  // ------------------------------------------------------------- byte counts

  function Utf8Width(c: char): nat {
    var code := c as int;
    if code < 0x80 then 1 else if code < 0x800 then 2 else if code < 0x1_0000 then 3 else 4
  }

  function Utf8Length(text: string): nat {
    if text == "" then 0 else Utf8Width(text[0]) + Utf8Length(text[1..])
  }

  function InsertedBytes(rs: seq<Replacement>): nat {
    if rs == [] then 0 else Utf8Length(rs[0].text) + InsertedBytes(rs[1..])
  }

  lemma {:induction false} Utf8LengthOfConcat(a: string, b: string)
    ensures Utf8Length(a + b) == Utf8Length(a) + Utf8Length(b)
  {
    if a == "" {
      assert a + b == b;
    } else {
      Utf8LengthOfConcat(a[1..], b);
      assert (a + b)[1..] == a[1..] + b;
    }
  }

  lemma {:induction false} InsertedBytesOfAppend(rs: seq<Replacement>, r: Replacement)
    ensures InsertedBytes(rs + [r]) == InsertedBytes(rs) + Utf8Length(r.text)
  {
    if rs != [] {
      InsertedBytesOfAppend(rs[1..], r);
      assert (rs + [r])[1..] == rs[1..] + [r];
    }
  }

  lemma InsertedBytesOfOne(r: Replacement)
    ensures InsertedBytes([r]) == Utf8Length(r.text)
  {
    assert [r][1..] == [];
  }

  lemma Utf8LengthOfThree(a: string, b: string, c: string)
    ensures Utf8Length(a + b + c) == Utf8Length(a) + Utf8Length(b) + Utf8Length(c)
  {
    Utf8LengthOfConcat(a + b, c);
    Utf8LengthOfConcat(a, b);
  }

  lemma {:induction false} BytesConservedFrom(text: string, rs: seq<Replacement>, from: nat, delta: int)
    requires Placed(rs, from, |text|) && from + delta >= 0
    ensures Utf8Length(SubstituteFrom(text, rs, from)) + InsertedBytes(InverseFrom(text, rs, from, delta))
         == Utf8Length(text[from..]) + InsertedBytes(rs)
  {
    hide Utf8Length;
    if rs != [] {
      var r := rs[0];
      var next := delta + |r.text| - (r.range.end - r.range.start);
      BytesConservedFrom(text, rs[1..], r.range.end, next);
      var kept, removed := text[from..r.range.start], text[r.range.start..r.range.end];
      assert text[from..] == kept + removed + text[r.range.end..];
      Utf8LengthOfThree(kept, removed, text[r.range.end..]);
      Utf8LengthOfThree(kept, r.text, SubstituteFrom(text, rs[1..], r.range.end));
    }
  }

  /** The two byte counts an application reports (what it inserts, what its
      inverse would insert) account for the whole change of the document's size. */
  lemma BytesConserved(text: string, rs: seq<Replacement>)
    requires Applicable(text, rs)
    ensures Utf8Length(Substitute(text, rs)) + InsertedBytes(Inverse(text, rs)) == Utf8Length(text) + InsertedBytes(rs)
  {
    PlacedIffWellFormed(rs, 0, |text|);
    BytesConservedFrom(text, rs, 0, 0);
    assert text[0..] == text;
  }

  // ------------------------------------------------------------ line endings

  function CountCrLf(text: string): nat {
    if |text| < 2 then 0
    else if text[0] == '\r' && text[1] == '\n' then 1 + CountCrLf(text[2..])
    else CountCrLf(text[1..])
  }

  function CountLf(text: string): nat {
    if text == "" then 0 else (if text[0] == '\n' then 1 else 0) + CountLf(text[1..])
  }

  function DetectLineEnding(text: string): LineEnding {
    var crlf := CountCrLf(text);
    var lf := if CountLf(text) >= crlf then CountLf(text) - crlf else 0;
    if crlf == 0 && lf == 0 then NoEnding
    else if crlf == 0 then Lf
    else if lf == 0 then CrLf
    else Mixed
  }

  predicate LfAt(text: string, i: nat) { i < |text| && text[i] == '\n' }

  predicate CrLfAt(text: string, i: nat) { LfAt(text, i) && i > 0 && text[i - 1] == '\r' }

  lemma {:induction false} CountsMean(text: string)
    ensures CountCrLf(text) <= CountLf(text)
    ensures CountCrLf(text) > 0 <==> exists i: nat :: CrLfAt(text, i)
    ensures CountLf(text) > CountCrLf(text) <==> exists i: nat :: LfAt(text, i) && !CrLfAt(text, i)
  {
    if |text| >= 2 {
      if text[0] == '\r' && text[1] == '\n' {
        CountsMean(text[2..]);
        assert text[1..][1..] == text[2..];
        assert CrLfAt(text, 1);
        forall i: nat
          ensures LfAt(text[2..], i) <==> LfAt(text, i + 2)
          ensures CrLfAt(text[2..], i) <==> CrLfAt(text, i + 2)
        {
        }
        forall i: nat | LfAt(text, i) && !CrLfAt(text, i)
          ensures exists k: nat :: LfAt(text[2..], k) && !CrLfAt(text[2..], k)
        {
          assert LfAt(text[2..], i - 2);
        }
      } else {
        CountsMean(text[1..]);
        forall i: nat
          ensures LfAt(text[1..], i) <==> LfAt(text, i + 1)
          ensures CrLfAt(text[1..], i) <==> CrLfAt(text, i + 1)
        {
        }
        forall i: nat | LfAt(text, i) && i > 0
          ensures LfAt(text[1..], i - 1) && (CrLfAt(text, i) <==> CrLfAt(text[1..], i - 1))
        {
        }
        if LfAt(text, 0) {
          assert !CrLfAt(text, 0);
        }
      }
    } else if |text| == 1 {
      assert LfAt(text, 0) <==> text[0] == '\n';
    }
  }

  /** The counting classifies by line: a buffer is `CrLf` exactly when it has a
      line break and every one is preceded by a carriage return, and so on. */
  lemma DetectLineEndingMeans(text: string)
    ensures DetectLineEnding(text) ==
            if (exists i: nat :: CrLfAt(text, i)) && (exists i: nat :: LfAt(text, i) && !CrLfAt(text, i)) then Mixed
            else if exists i: nat :: CrLfAt(text, i) then CrLf
            else if exists i: nat :: LfAt(text, i) then Lf
            else NoEnding
  {
    CountsMean(text);
  }

  // -------------------------------------------------------------- application

  function FirstEndBeyond(rs: seq<Replacement>, length: nat): nat
    requires !WithinLength(rs, length)
  {
    if rs[0].range.end > length then rs[0].range.end
    else
      assert !WithinLength(rs[1..], length) by {
        var i :| 0 <= i < |rs| && rs[i].range.end > length;
        assert rs[1..][i - 1].range.end > length;
      }
      FirstEndBeyond(rs[1..], length)
  }

  /** What `apply` answers: the three refusals in the order they are tested. */
  function ApplyResult(text: string, revision: Revision, t: WfTransaction)
    : Result<AppliedTransaction, TransactionError>
  {
    if t.expectedRevision != revision then Err(StaleRevision(revision, t.expectedRevision))
    else if !WithinLength(t.replacements, |text|) then
      Err(RangeOutOfBounds(FirstEndBeyond(t.replacements, |text|), |text|))
    else if revision == MAX_REVISION then Err(RevisionExhausted)
    else
      var inverse := Inverse(text, t.replacements);
      Ok(AppliedTransaction(revision + 1, EditTransaction(revision + 1, inverse),
                            InsertedBytes(t.replacements), InsertedBytes(inverse)))
  }

  /** What an answer means. A transaction lands only on the revision it was made for,
      inside the text and with a revision left; the refusals are tested in that order,
      an out-of-bounds one naming the first range that ends beyond the text. */
  ghost predicate Answers(text: string, revision: Revision, t: WfTransaction,
                          r: Result<AppliedTransaction, TransactionError>)
  {
    var rs := t.replacements;
    && (r.Ok? <==> t.expectedRevision == revision && WithinLength(rs, |text|) && revision < MAX_REVISION)
    && (t.expectedRevision != revision ==> r == Err(StaleRevision(revision, t.expectedRevision)))
    && (t.expectedRevision == revision && !WithinLength(rs, |text|) ==>
          exists i :: 0 <= i < |rs| && WithinLength(rs[..i], |text|) && rs[i].range.end > |text|
                      && r == Err(RangeOutOfBounds(rs[i].range.end, |text|)))
    && (t.expectedRevision == revision == MAX_REVISION && WithinLength(rs, |text|) ==> r == Err(RevisionExhausted))
  }

  /** The inverse of an applied edit is made for the new revision and leads back, and
      the byte counts say by how much the text grew. */
  predicate Undoes(before: string, after: string, revision: Revision, applied: AppliedTransaction) {
    && applied.revision == revision == applied.inverse.expectedRevision
    && Applicable(after, applied.inverse.replacements)
    && Substitute(after, applied.inverse.replacements) == before
    && Utf8Length(after) + applied.removedBytes == Utf8Length(before) + applied.insertedBytes
  }

  lemma {:induction false} FirstEndIsFirst(rs: seq<Replacement>, length: nat) returns (i: nat)
    requires !WithinLength(rs, length)
    ensures i < |rs| && WithinLength(rs[..i], length) && rs[i].range.end > length
    ensures FirstEndBeyond(rs, length) == rs[i].range.end
  {
    if rs[0].range.end > length {
      i := 0;
    } else {
      assert !WithinLength(rs[1..], length) by {
        var k :| 0 <= k < |rs| && rs[k].range.end > length;
        assert rs[1..][k - 1].range.end > length;
      }
      var before := FirstEndIsFirst(rs[1..], length);
      i := before + 1;
      assert rs[..i] == [rs[0]] + rs[1..][..before];
    }
  }

  lemma ApplyAnswers(text: string, revision: Revision, t: WfTransaction)
    ensures Answers(text, revision, t, ApplyResult(text, revision, t))
  {
    if !WithinLength(t.replacements, |text|) {
      var i := FirstEndIsFirst(t.replacements, |text|);
    }
  }

  /** `usize::saturating_add_signed`, at its lower end. */
  function SaturatingAddSigned(base: nat, delta: int): nat {
    if base + delta < 0 then 0 else base + delta
  }

  class TextBuffer {
    var text: string
    var revision: Revision
    var lineEnding: LineEnding

    ghost predicate Valid()
      reads this
    {
      lineEnding == DetectLineEnding(text)
    }

    constructor (text: string)
      ensures Valid() && this.text == text && revision == 0
    {
      this.text := text;
      revision := 0;
      lineEnding := DetectLineEnding(text);
    }

    method Apply(transaction: WfTransaction) returns (r: Result<AppliedTransaction, TransactionError>)
      requires Valid()
      modifies this
      ensures Valid()
      ensures r == ApplyResult(old(text), old(revision), transaction)
      ensures r.Ok? ==> text == Substitute(old(text), transaction.replacements) && revision == old(revision) + 1
      ensures r.Err? ==> unchanged(this)
      ensures Answers(old(text), old(revision), transaction, r)
      ensures r.Ok? ==> Undoes(old(text), text, revision, r.value)
      ensures r.Ok? ==> r.value.insertedBytes == InsertedBytes(transaction.replacements)
    {
      ApplyAnswers(text, revision, transaction);
      var rs := transaction.replacements;
      if transaction.expectedRevision != revision {
        return Err(StaleRevision(revision, transaction.expectedRevision));
      }
      var beyond := FindEndBeyond(rs, |text|);
      if beyond.Some? {
        return Err(RangeOutOfBounds(beyond.value, |text|));
      }
      var next := NextRevision(revision);
      if next.Err? {
        return Err(next.error);
      }
      RoundTrip(text, rs);
      BytesConserved(text, rs);
      var inverse, insertedBytes, removedBytes := BuildInverse(text, rs);
      SpliceAll(rs);
      revision := next.value;
      lineEnding := DetectLineEnding(text);
      NewOfWellFormed(next.value, inverse);
      var made := NewTransaction(next.value, inverse);
      assert made.Ok?;  // so the fallible construction cannot leave a half-applied edit
      r := Ok(AppliedTransaction(next.value, made.value, insertedBytes, removedBytes));
    }

    /** The in-place half: ranges are removed and inserted from the last to the
        first, so that earlier offsets stay those of the original text. */
    method SpliceAll(rs: seq<Replacement>)
      requires Applicable(text, rs)
      modifies this`text
      ensures text == Substitute(old(text), rs)
    {
      PlacedIffWellFormed(rs, 0, |text|);
      ghost var before := text;
      for i := |rs| downto 0
        invariant Placed(rs[i..], 0, |before|)
        invariant text == SubstituteFrom(before, rs[i..], 0)
      {
        PlacedSuffix(rs, i, |before|);
        SpliceOne(before, rs, i);
        text := text[..rs[i].range.start] + text[rs[i].range.end..];
        text := text[..rs[i].range.start] + rs[i].text + text[rs[i].range.start..];
      }
      assert rs[0..] == rs;
    }
  }

  method FindEndBeyond(rs: seq<Replacement>, charLen: nat) returns (end: Option<nat>)
    ensures end == if WithinLength(rs, charLen) then None else Some(FirstEndBeyond(rs, charLen))
  {
    for i := 0 to |rs|
      invariant forall k | 0 <= k < i :: rs[k].range.end <= charLen
      invariant !WithinLength(rs, charLen) ==>
        !WithinLength(rs[i..], charLen) && FirstEndBeyond(rs[i..], charLen) == FirstEndBeyond(rs, charLen)
    {
      if rs[i].range.end > charLen {
        return Some(rs[i].range.end);
      }
      assert rs[i..][1..] == rs[i + 1..];
    }
    end := None;
  }

  /** The forward pass: final offsets are found by accumulating a signed delta. */
  method BuildInverse(text: string, rs: seq<Replacement>)
    returns (inverse: seq<Replacement>, insertedBytes: nat, removedBytes: nat)
    requires Applicable(text, rs)
    ensures inverse == Inverse(text, rs)
    ensures insertedBytes == InsertedBytes(rs)
    ensures removedBytes == InsertedBytes(inverse)
  {
    hide Placed, InverseFrom, SubstituteFrom, WellFormed;
    PlacedIffWellFormed(rs, 0, |text|);
    InverseLength(text, rs);
    inverse, insertedBytes, removedBytes := [], 0, 0;
    var charDelta := 0;
    ghost var from: nat := 0;
    ghost var all := Inverse(text, rs);
    assert rs[0..] == rs && all[0..] == all;
    for i := 0 to |rs|
      invariant Placed(rs[i..], from, |text|) && from + charDelta >= 0
      invariant i <= |all| && inverse == all[..i] && all[i..] == InverseFrom(text, rs[i..], from, charDelta)
      invariant insertedBytes + InsertedBytes(rs[i..]) == InsertedBytes(rs)
      invariant removedBytes == InsertedBytes(inverse)
    {
      var range := rs[i].range;
      InverseStep(text, rs, i, from, charDelta, all);
      var removed := text[range.start..range.end];
      var insertedChars := |rs[i].text|;
      var finalStart := SaturatingAddSigned(range.start, charDelta);
      var undone := Replacement(CharRange(finalStart, finalStart + insertedChars), removed);
      InsertedBytesOfAppend(inverse, undone);
      inverse := inverse + [undone];
      charDelta := charDelta + insertedChars - (range.end - range.start);
      insertedBytes := insertedBytes + Utf8Length(rs[i].text);
      removedBytes := removedBytes + Utf8Length(removed);
      from := range.end;
    }
  }

  /** One step of the forward pass over `all`, the whole inverse. */
  lemma InverseStep(text: string, rs: seq<Replacement>, i: nat, from: nat, delta: int, all: seq<Replacement>)
    requires i < |rs| && Placed(rs[i..], from, |text|) && from + delta >= 0
    requires i <= |all| && all[i..] == InverseFrom(text, rs[i..], from, delta)
    ensures var r := rs[i];
            var start, next := r.range.start + delta, delta + |r.text| - (r.range.end - r.range.start);
            && from <= r.range.start <= r.range.end <= |text|
            && i < |all|
            && all[i] == Replacement(CharRange(start, start + |r.text|), text[r.range.start..r.range.end])
            && Placed(rs[i + 1..], r.range.end, |text|)
            && all[i + 1..] == InverseFrom(text, rs[i + 1..], r.range.end, next)
    ensures InsertedBytes(rs[i..]) == Utf8Length(rs[i].text) + InsertedBytes(rs[i + 1..])
  {
    assert rs[i..][0] == rs[i] && rs[i..][1..] == rs[i + 1..];
    assert all[i] == all[i..][0] && all[i + 1..] == all[i..][1..];
  }

  lemma {:induction false} PlacedSuffix(rs: seq<Replacement>, i: nat, to: nat)
    requires i < |rs| && Placed(rs, 0, to)
    ensures Placed(rs[i..], 0, to)
    decreases i
  {
    if i > 0 {
      PlacedSuffix(rs, i - 1, to);
      assert rs[i - 1..][1..] == rs[i..];
      assert rs[i..] == [] || Placed(rs[i..], 0, to);
    } else {
      assert rs[0..] == rs;
    }
  }

  /** Splicing one more range, to the left of those already spliced, in place. */
  lemma SpliceOne(before: string, rs: seq<Replacement>, i: nat)
    requires i < |rs| && Placed(rs[i..], 0, |before|) && Placed(rs[i + 1..], 0, |before|)
    ensures var text, r := SubstituteFrom(before, rs[i + 1..], 0), rs[i];
            && r.range.start <= r.range.end <= |text|
            && text[..r.range.start] + r.text + text[r.range.end..] == SubstituteFrom(before, rs[i..], 0)
  {
    var r := rs[i];
    assert rs[i..][0] == r && rs[i..][1..] == rs[i + 1..];
    var text := SubstituteFrom(before, rs[i + 1..], 0);
    assert text[..r.range.start] == before[..r.range.start] == before[0..r.range.start];
    assert text[r.range.end..] == SubstituteFrom(before, rs[i + 1..], r.range.end);
  }

}
