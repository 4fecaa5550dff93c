/** Caret arithmetic of the editor surface (`editor.rs`): line and byte-column
    positions, character offsets, and the transaction an editing action makes. */
module Carets {
  import opened Wrappers
  import opened Transactions
  import opened TextBuffers
  import opened Histories

  datatype Ending = NoEnding | Lf | CrLf | Cr | LfCr

  datatype Line = Line(text: string, ending: Ending)

  datatype Position = Position(line: nat, column: nat)

  datatype Cursor = Cursor(position: Position, selection: Option<Position>)

  datatype CaretError = InvalidCursor | UnsupportedAction | Refused(error: TransactionError)

  function EndingText(e: Ending): string {
    match e
    case NoEnding => ""
    case Lf => "\n"
    case CrLf => "\r\n"
    case Cr => "\r"
    case LfCr => "\n\r"
  }

  function LineText(line: Line): string {
    line.text + EndingText(line.ending)
  }

  /** The document the lines stand for. */
  function Text(lines: seq<Line>): string {
    if lines == [] then "" else LineText(lines[0]) + Text(lines[1..])
  }

  lemma TextOfCons(line: Line, rest: seq<Line>)
    ensures Text([line] + rest) == LineText(line) + Text(rest)
  {
    assert ([line] + rest)[1..] == rest;
  }

  lemma TextOfNone()
    ensures Text([]) == ""
  {
  }

  lemma {:induction false} TextOfConcat(a: seq<Line>, b: seq<Line>)
    ensures Text(a + b) == Text(a) + Text(b)
  {
    hide Text, LineText;
    if a == [] {
      assert a + b == b;
      TextOfNone();
    } else {
      TextOfConcat(a[1..], b);
      TextOfCons(a[0], a[1..] + b);
      TextOfCons(a[0], a[1..]);
      assert a + b == [a[0]] + (a[1..] + b);
      assert a == [a[0]] + a[1..];
      Rebracket(LineText(a[0]), Text(a[1..]), Text(b));
    }
  }

  lemma TextOfOne(line: Line)
    ensures Text([line]) == LineText(line)
  {
    assert [line][1..] == [];
  }

  lemma TextThrough(lines: seq<Line>, i: nat)
    requires i < |lines|
    ensures Text(lines[..i + 1]) == Text(lines[..i]) + LineText(lines[i])
  {
    hide Text, LineText;
    assert lines[..i + 1] == lines[..i] + [lines[i]];
    TextOfConcat(lines[..i], [lines[i]]);
    TextOfOne(lines[i]);
  }

  /** The document around line `i`. */
  lemma {:induction false} TextAround(lines: seq<Line>, i: nat)
    requires i < |lines|
    ensures Text(lines) == Text(lines[..i]) + LineText(lines[i]) + Text(lines[i + 1..])
  {
    hide Text, LineText;
    assert lines == lines[..i + 1] + lines[i + 1..];
    TextOfConcat(lines[..i + 1], lines[i + 1..]);
    TextThrough(lines, i);
  }

  function StartOf(lines: seq<Line>, i: nat): nat
    requires i <= |lines|
  {
    |Text(lines[..i])|
  }

  lemma StartOfNext(lines: seq<Line>, i: nat)
    requires i < |lines|
    ensures StartOf(lines, i + 1) == StartOf(lines, i) + |lines[i].text| + |EndingText(lines[i].ending)|
  {
    TextThrough(lines, i);
  }

  // ---------------------------------------------------------- bytes and chars

  /** The number of characters before byte `column`, when it is a character boundary. */
  function CharIndex(text: string, column: nat): (k: Option<nat>)
    ensures k.Some? ==> k.value <= |text| && Utf8Length(text[..k.value]) == column
  {
    if column == 0 then Some(0)
    else if text == "" || column < Utf8Width(text[0]) then None
    else
      var rest := CharIndex(text[1..], column - Utf8Width(text[0]));
      if rest.None? then None
      else
        assert text[..rest.value + 1][1..] == text[1..][..rest.value];
        Some(rest.value + 1)
  }

  lemma {:induction false} CharIndexOfPrefix(text: string, k: nat)
    requires k <= |text|
    ensures CharIndex(text, Utf8Length(text[..k])) == Some(k)
  {
    if k > 0 {
      assert text[..k][1..] == text[1..][..k - 1];
      CharIndexOfPrefix(text[1..], k - 1);
    }
  }

  // ---------------------------------------------------- positions and offsets

  method LineStartOffset(lines: seq<Line>, lineIndex: nat) returns (r: Result<nat, CaretError>)
    ensures r == if lineIndex <= |lines| then Ok(StartOf(lines, lineIndex)) else Err(InvalidCursor)
  {
    var offset := 0;
    assert lines[..0] == [];
    for index := 0 to lineIndex
      invariant index <= |lines| && offset == StartOf(lines, index)
    {
      if index >= |lines| {
        return Err(InvalidCursor);
      }
      StartOfNext(lines, index);
      offset := offset + |lines[index].text| + |EndingText(lines[index].ending)|;
    }
    r := Ok(offset);
  }

  function OffsetForPosition(lines: seq<Line>, position: Position): Result<nat, CaretError> {
    if position.line >= |lines| then Err(InvalidCursor)
    else
      var k := CharIndex(lines[position.line].text, position.column);
      if k.None? then Err(InvalidCursor) else Ok(StartOf(lines, position.line) + k.value)
  }

  /** `offset` lies on line `i`, between its first character and its ending. */
  predicate OnLine(lines: seq<Line>, offset: nat, i: nat) {
    i < |lines| && StartOf(lines, i) <= offset <= StartOf(lines, i) + |lines[i].text|
  }

  function FirstLineWith(lines: seq<Line>, offset: nat, from: nat): (i: nat)
    requires from <= |lines|
    ensures from <= i <= |lines|
    ensures i < |lines| ==> OnLine(lines, offset, i)
    ensures forall j | from <= j < i :: !OnLine(lines, offset, j)
    decreases |lines| - from
  {
    if from == |lines| || OnLine(lines, offset, from) then from else FirstLineWith(lines, offset, from + 1)
  }

  /** The first line the offset lies on, and the byte column there. */
  function PositionFor(lines: seq<Line>, offset: nat): Result<Position, CaretError> {
    var i := FirstLineWith(lines, offset, 0);
    if i == |lines| then Err(InvalidCursor)
    else Ok(Position(i, Utf8Length(lines[i].text[..offset - StartOf(lines, i)])))
  }

  lemma FirstLineIs(lines: seq<Line>, offset: nat, i: nat)
    requires i <= |lines| && (i < |lines| ==> OnLine(lines, offset, i))
    requires forall j | 0 <= j < i :: !OnLine(lines, offset, j)
    ensures FirstLineWith(lines, offset, 0) == i
  {
  }

  method PositionForOffset(lines: seq<Line>, offset: nat) returns (r: Result<Position, CaretError>)
    ensures r == PositionFor(lines, offset)
  {
    var rest: nat := offset;
    assert lines[..0] == [];
    for i := 0 to |lines|
      invariant StartOf(lines, i) + rest == offset
      invariant forall j | 0 <= j < i :: !OnLine(lines, offset, j)
    {
      var lineChars := |lines[i].text|;
      if rest <= lineChars {
        FirstLineIs(lines, offset, i);
        return Ok(Position(i, Utf8Length(lines[i].text[..rest])));
      }
      assert !OnLine(lines, offset, i);
      StartOfNext(lines, i);
      var endingChars := |EndingText(lines[i].ending)|;
      if rest < lineChars + endingChars {
        LaterLinesStartLater(lines, offset, i + 1);
        FirstLineIs(lines, offset, |lines|);
        return Err(InvalidCursor);
      }
      rest := rest - (lineChars + endingChars);
    }
    FirstLineIs(lines, offset, |lines|);
    r := Err(InvalidCursor);
  }

  lemma {:induction false} StartsGrow(lines: seq<Line>, i: nat, j: nat)
    requires i <= j <= |lines|
    ensures StartOf(lines, i) <= StartOf(lines, j)
    decreases j - i
  {
    if i < j {
      StartOfNext(lines, i);
      StartsGrow(lines, i + 1, j);
    }
  }

  lemma LaterLinesStartLater(lines: seq<Line>, offset: nat, i: nat)
    requires i <= |lines| && offset < StartOf(lines, i)
    requires forall j | 0 <= j < i :: !OnLine(lines, offset, j)
    ensures forall j: nat :: !OnLine(lines, offset, j)
  {
    forall j: nat | OnLine(lines, offset, j)
      ensures false
    {
      if j >= i {
        StartsGrow(lines, i, j);
      }
    }
  }

  /** Lines other than the last end in something. */
  predicate ProperLines(lines: seq<Line>) {
    forall i | 0 <= i < |lines| - 1 :: lines[i].ending != Ending.NoEnding
  }

  lemma AtMostOneLine(lines: seq<Line>, offset: nat, i: nat, j: nat)
    requires ProperLines(lines) && OnLine(lines, offset, i) && OnLine(lines, offset, j)
    ensures i == j
  {
    if i < j {
      StartOfNext(lines, i);
      StartsGrow(lines, i + 1, j);
    } else if j < i {
      StartOfNext(lines, j);
      StartsGrow(lines, j + 1, i);
    }
  }

  /** From a position to its offset and back. */
  lemma PositionRoundTrip(lines: seq<Line>, position: Position)
    requires ProperLines(lines) && OffsetForPosition(lines, position).Ok?
    ensures PositionFor(lines, OffsetForPosition(lines, position).value) == Ok(position)
  {
    var offset := OffsetForPosition(lines, position).value;
    assert OnLine(lines, offset, position.line);
    AtMostOneLine(lines, offset, position.line, FirstLineWith(lines, offset, 0));
  }

  /** From an offset to its position and back: this needs no assumption. */
  lemma OffsetRoundTrip(lines: seq<Line>, offset: nat)
    ensures PositionFor(lines, offset).Ok? ==> OffsetForPosition(lines, PositionFor(lines, offset).value) == Ok(offset)
  {
    var i := FirstLineWith(lines, offset, 0);
    if i < |lines| {
      CharIndexOfPrefix(lines[i].text, offset - StartOf(lines, i));
    }
  }

  /** `offset` is past the text of line `i` but not yet at the next line: strictly
      inside its ending or, on the last line, anywhere within it. */
  predicate InEnding(lines: seq<Line>, offset: nat, i: nat) {
    && i < |lines|
    && StartOf(lines, i) + |lines[i].text| < offset
    && (offset < StartOf(lines, i + 1) || (i == |lines| - 1 && offset == StartOf(lines, i + 1)))
  }

  /** The conversion fails exactly without lines, past the text, and inside endings. */
  lemma FailsExactlyInEndings(lines: seq<Line>, offset: nat)
    requires ProperLines(lines)
    ensures PositionFor(lines, offset).Err?
       <==> lines == [] || offset > |Text(lines)| || exists i: nat :: InEnding(lines, offset, i)
  {
    var found := FirstLineWith(lines, offset, 0);
    assert lines[..|lines|] == lines;
    if lines != [] && found == |lines| && offset <= |Text(lines)| {
      var i := LineHolding(lines, offset, |lines|);
      assert !OnLine(lines, offset, i);
      assert InEnding(lines, offset, i);
    }
    if found < |lines| {
      StartOfNext(lines, found);
      StartsGrow(lines, found + 1, |lines|);
      forall i: nat
        ensures !InEnding(lines, offset, i)
      {
        NotInEnding(lines, offset, found, i);
      }
    }
  }

  /** The end of a document whose last line has an ending is one of those offsets. */
  lemma EndAfterEndingIsRefused()
    ensures var lines := [Line("a", Ending.Lf)];
            |Text(lines)| == 2 && PositionFor(lines, 2).Err?
  {
    var lines := [Line("a", Ending.Lf)];
    TextOfOne(lines[0]);
    StartOfNext(lines, 0);
    assert lines[..0] == [] && lines[..1] == lines;
    assert InEnding(lines, 2, 0);
    FailsExactlyInEndings(lines, 2);
  }

  lemma NotInEnding(lines: seq<Line>, offset: nat, on: nat, i: nat)
    requires ProperLines(lines) && OnLine(lines, offset, on)
    ensures !InEnding(lines, offset, i)
  {
    if i < |lines| {
      StartOfNext(lines, i);
      StartOfNext(lines, on);
      if on < i {
        StartsGrow(lines, on + 1, i);
      } else if i < on {
        StartsGrow(lines, i + 1, on);
      }
    }
  }

  lemma {:induction false} LineHolding(lines: seq<Line>, offset: nat, n: nat) returns (i: nat)
    requires 0 < n <= |lines| && offset <= StartOf(lines, n)
    ensures i < n && StartOf(lines, i) <= offset
    ensures offset < StartOf(lines, i + 1) || (i == n - 1 && offset <= StartOf(lines, i + 1))
    decreases n
  {
    assert lines[..0] == [];
    if offset >= StartOf(lines, n - 1) {
      i := n - 1;
    } else {
      i := LineHolding(lines, offset, n - 1);
    }
  }

  // ----------------------------------------------------------------- actions

  datatype EditAction =
    | Insert(character: char)
    | Paste(pasted: string)
    | Enter
    | Backspace
    | Delete
    | Indent
    | Unindent

  datatype Action = Edit(edit: EditAction) | Other

  /** The transaction, its kind, the caret before and after, and whether the
      surface must be rebuilt from the document. */
  datatype Plan = Plan(transaction: EditTransaction, kind: EditKind, before: nat, after: nat, rebuild: bool)

  function PreviousOffset(lines: seq<Line>, position: Position, caret: nat): Result<nat, CaretError> {
    if position.column > 0 || position.line == 0 then Ok(SaturatingSub(caret, 1))
    else if position.line - 1 >= |lines| then Err(InvalidCursor)
    else Ok(SaturatingSub(caret, |EndingText(lines[position.line - 1].ending)|))
  }

  function NextOffset(lines: seq<Line>, position: Position, caret: nat): Result<nat, CaretError> {
    if position.line >= |lines| then Err(InvalidCursor)
    else if position.column < Utf8Length(lines[position.line].text) then Ok(caret + 1)
    else if position.line + 1 < |lines| then Ok(caret + |EndingText(lines[position.line].ending)|)
    else Ok(caret)
  }

  /** The ending of the first line is the document's. */
  function EndingOf(lines: seq<Line>): string {
    if lines == [] || lines[0].ending.NoEnding? then "\n" else EndingText(lines[0].ending)
  }

  /** How many of the first four characters are leading spaces. */
  function LeadingSpaces(text: string, limit: nat): (n: nat)
    ensures n <= limit && n <= |text|
    ensures forall i | 0 <= i < n :: text[i] == ' '
    ensures n < limit && n < |text| ==> text[n] != ' '
  {
    if limit == 0 || text == "" || text[0] != ' ' then 0 else 1 + LeadingSpaces(text[1..], limit - 1)
  }

  function StartResult(lines: seq<Line>, i: nat): Result<nat, CaretError> {
    if i <= |lines| then Ok(StartOf(lines, i)) else Err(InvalidCursor)
  }

  /** The range, replacement, kind and rebuild flag of an edit. */
  function EditFor(lines: seq<Line>, position: Position, caret: nat, selection: CharRange, edit: EditAction)
    : Result<(CharRange, string, EditKind, bool), CaretError>
  {
    match edit
    case Insert(character) => Ok((selection, [character], Typing, false))
    case Paste(text) => Ok((selection, text, EditKind.Other, false))
    case Enter => Ok((selection, EndingOf(lines), Typing, false))
    case Backspace =>
      if selection.start != selection.end then Ok((selection, "", Typing, false))
      else
        var previous := PreviousOffset(lines, position, caret);
        if previous.Err? then Err(previous.error) else Ok((CharRange(previous.value, caret), "", Typing, false))
    case Delete =>
      if selection.start != selection.end then Ok((selection, "", Typing, false))
      else
        var next := NextOffset(lines, position, caret);
        if next.Err? then Err(next.error) else Ok((CharRange(caret, next.value), "", Typing, false))
    case Indent =>
      var start := StartResult(lines, position.line);
      if start.Err? then Err(start.error)
      else Ok((CharRange(start.value, start.value), "    ", EditKind.Other, true))
    case Unindent =>
      var start := StartResult(lines, position.line);
      if start.Err? then Err(start.error)
      else
        var removable := if position.line < |lines| then LeadingSpaces(lines[position.line].text, 4) else 0;
        Ok((CharRange(start.value, start.value + removable), "", EditKind.Other, true))
  }

  function TransactionForAction(lines: seq<Line>, cursor: Cursor, revision: Revision, action: Action)
    : Result<Plan, CaretError>
  {
    var caret := OffsetForPosition(lines, cursor.position);
    var anchor := if cursor.selection.None? then caret else OffsetForPosition(lines, cursor.selection.value);
    if caret.Err? then Err(caret.error)
    else if anchor.Err? then Err(anchor.error)
    else if action.Other? then Err(UnsupportedAction)
    else
      var selection := CharRange(if caret.value < anchor.value then caret.value else anchor.value,
                                 if caret.value < anchor.value then anchor.value else caret.value);
      var edit := EditFor(lines, cursor.position, caret.value, selection, action.edit);
      if edit.Err? then Err(edit.error)
      else
        var (range, text, kind, rebuild) := edit.value;
        var made := NewTransaction(revision, [Replacement(range, text)]);
        if made.Err? then Err(Refused(made.error))
        else Ok(Plan(made.value, kind, caret.value, range.start + |text|, rebuild))
  }

  predicate ValidPosition(lines: seq<Line>, position: Position) {
    OffsetForPosition(lines, position).Ok?
  }

  predicate ValidCursor(lines: seq<Line>, cursor: Cursor) {
    ValidPosition(lines, cursor.position) && (cursor.selection.Some? ==> ValidPosition(lines, cursor.selection.value))
  }

  lemma PreviousInBounds(lines: seq<Line>, position: Position)
    requires ValidPosition(lines, position)
    ensures var caret := OffsetForPosition(lines, position).value;
            var previous := PreviousOffset(lines, position, caret);
            previous.Ok? && previous.value <= caret
  {
  }

  lemma NextInBounds(lines: seq<Line>, position: Position)
    requires ValidPosition(lines, position)
    ensures var caret := OffsetForPosition(lines, position).value;
            var next := NextOffset(lines, position, caret);
            next.Ok? && caret <= next.value <= |Text(lines)|
  {
    hide Text;
    var l := position.line;
    TextAround(lines, l);
    assert lines[l].text[..|lines[l].text|] == lines[l].text;
  }

  lemma LineInBounds(lines: seq<Line>, l: nat)
    requires l < |lines|
    ensures StartOf(lines, l) + |lines[l].text| <= |Text(lines)|
  {
    TextAround(lines, l);
  }

  /** The range an edit replaces lies inside the document. */
  lemma EditInBounds(lines: seq<Line>, position: Position, anchor: nat, edit: EditAction)
    requires ValidPosition(lines, position) && anchor <= |Text(lines)|
    ensures var caret := OffsetForPosition(lines, position).value;
            var selection := CharRange(if caret < anchor then caret else anchor,
                                       if caret < anchor then anchor else caret);
            var made := EditFor(lines, position, caret, selection, edit);
            made.Ok? && made.value.0.start <= made.value.0.end <= |Text(lines)|
  {
    hide Text, PreviousOffset, NextOffset, StartOf;
    OffsetInText(lines, position);
    LineInBounds(lines, position.line);
    PreviousInBounds(lines, position);
    NextInBounds(lines, position);
  }

  lemma OffsetInText(lines: seq<Line>, position: Position)
    requires ValidPosition(lines, position)
    ensures position.line < |lines| && OffsetForPosition(lines, position).value <= |Text(lines)|
  {
    TextAround(lines, position.line);
  }

  /** With a cursor inside the document every editing action gives an applicable
      transaction, and the caret it leaves is inside the changed document. */
  lemma ActionsApply(lines: seq<Line>, cursor: Cursor, revision: Revision, edit: EditAction)
    requires ValidCursor(lines, cursor)
    ensures var r := TransactionForAction(lines, cursor, revision, Edit(edit));
            && r.Ok?
            && r.value.transaction.expectedRevision == revision
            && |r.value.transaction.replacements| == 1
            && Applicable(Text(lines), r.value.transaction.replacements)
            && r.value.before == OffsetForPosition(lines, cursor.position).value
            && r.value.after <= |Substitute(Text(lines), r.value.transaction.replacements)|
  {
    OffsetInText(lines, cursor.position);
    var caret := OffsetForPosition(lines, cursor.position).value;
    var anchor := if cursor.selection.None? then caret else OffsetForPosition(lines, cursor.selection.value).value;
    if cursor.selection.Some? {
      OffsetInText(lines, cursor.selection.value);
    }
    EditInBounds(lines, cursor.position, anchor, edit);
    var selection := CharRange(if caret < anchor then caret else anchor, if caret < anchor then anchor else caret);
    var made := EditFor(lines, cursor.position, caret, selection, edit).value;
    var r := Replacement(made.0, made.1);
    ReplaceOnce(Text(lines), r);
    NewOfWellFormed(revision, [r]);
  }

  /** `position` names a place between two characters of a line. */
  predicate BetweenCharacters(lines: seq<Line>, position: Position) {
    && position.line < |lines|
    && exists k | 0 <= k <= |lines[position.line].text| ::
         Utf8Length(lines[position.line].text[..k]) == position.column
  }

  /** A cursor inside the document is one with both ends between characters. Any other is
      refused as such, whatever the action; then an action that edits nothing is. */
  lemma {:induction false} ActionsRefused(lines: seq<Line>, cursor: Cursor, revision: Revision, action: Action)
    ensures ValidCursor(lines, cursor)
       <==> && BetweenCharacters(lines, cursor.position)
            && (cursor.selection.Some? ==> BetweenCharacters(lines, cursor.selection.value))
    ensures !ValidCursor(lines, cursor) ==> TransactionForAction(lines, cursor, revision, action) == Err(InvalidCursor)
    ensures ValidCursor(lines, cursor) && action.Other? ==>
              TransactionForAction(lines, cursor, revision, action) == Err(UnsupportedAction)
  {
    hide CharIndex, Utf8Length, StartOf, BetweenCharacters;
    OffsetIsBetween(lines, cursor.position);
    if cursor.selection.Some? {
      OffsetIsBetween(lines, cursor.selection.value);
    }
  }

  lemma OffsetIsBetween(lines: seq<Line>, position: Position)
    ensures OffsetForPosition(lines, position).Ok? <==> BetweenCharacters(lines, position)
  {
    if BetweenCharacters(lines, position) {
      var text := lines[position.line].text;
      var k :| 0 <= k <= |text| && Utf8Length(text[..k]) == position.column;
      CharIndexOfPrefix(text, k);
    }
  }

  // ------------------------------------------------- what the actions mean

  function WithText(lines: seq<Line>, l: nat, text: string): seq<Line>
    requires l < |lines|
  {
    lines[l := lines[l].(text := text)]
  }

  /** Line `l` and the next one, without the ending between them. */
  function Joined(lines: seq<Line>, l: nat): seq<Line>
    requires l + 1 < |lines|
  {
    lines[..l] + [Line(lines[l].text + lines[l + 1].text, lines[l + 1].ending)] + lines[l + 2..]
  }

  lemma TextWithLine(lines: seq<Line>, l: nat, text: string)
    requires l < |lines|
    ensures Text(WithText(lines, l, text))
         == Text(lines[..l]) + text + EndingText(lines[l].ending) + Text(lines[l + 1..])
  {
    var changed := WithText(lines, l, text);
    TextAround(changed, l);
    assert changed[..l] == lines[..l] && changed[l + 1..] == lines[l + 1..];
    Rebracket(Text(lines[..l]), text, EndingText(lines[l].ending));
  }

  lemma TextOfJoined(lines: seq<Line>, l: nat)
    requires l + 1 < |lines|
    ensures Text(Joined(lines, l)) == Text(lines[..l]) + lines[l].text + LineText(lines[l + 1]) + Text(lines[l + 2..])
  {
    hide Text, LineText;
    var joined, middle := Joined(lines, l), Line(lines[l].text + lines[l + 1].text, lines[l + 1].ending);
    TextOfConcat(lines[..l] + [middle], lines[l + 2..]);
    TextOfConcat(lines[..l], [middle]);
    TextOfOne(middle);
    LineTextIs(middle);
    LineTextIs(lines[l + 1]);
    var p, a, b, e := Text(lines[..l]), lines[l].text, lines[l + 1].text, EndingText(lines[l + 1].ending);
    assert p + ((a + b) + e) == p + a + (b + e);
  }

  lemma Regroup(p: string, a: string, e: string, b: string, rest: string)
    ensures p + (a + e) + (b + rest) == p + a + e + b + rest
  {
  }

  lemma SplitHead<T>(s: seq<T>, i: nat)
    requires i < |s|
    ensures s[i..] == [s[i]] + s[i + 1..]
  {
  }

  lemma LineTextIs(line: Line)
    ensures LineText(line) == line.text + EndingText(line.ending)
  {
  }

  lemma {:induction false} TextOfTwo(lines: seq<Line>, l: nat)
    requires l + 1 < |lines|
    ensures Text(lines) == Text(lines[..l]) + lines[l].text + EndingText(lines[l].ending)
                           + LineText(lines[l + 1]) + Text(lines[l + 2..])
  {
    hide Text, LineText;
    TextAround(lines, l);
    TextOfCons(lines[l + 1], lines[l + 2..]);
    SplitHead(lines, l + 1);
    assert LineText(lines[l]) == lines[l].text + EndingText(lines[l].ending) by { LineTextIs(lines[l]); }
    Regroup(Text(lines[..l]), lines[l].text, EndingText(lines[l].ending), LineText(lines[l + 1]), Text(lines[l + 2..]));
  }

  lemma Cut(p: string, a: string, b: string, c: string)
    ensures var whole := p + a + b + c;
            whole[..|p| + |a|] + "" + whole[|p| + |a| + |b|..] == p + a + c
  {
  }

  function PlanFor(lines: seq<Line>, cursor: Cursor, revision: Revision, edit: EditAction): (plan: Plan)
    requires ValidCursor(lines, cursor)
    ensures Applicable(Text(lines), plan.transaction.replacements)
  {
    ActionsApply(lines, cursor, revision, edit);
    TransactionForAction(lines, cursor, revision, Edit(edit)).value
  }

  /** The document after an action with a bare caret. */
  function After(lines: seq<Line>, position: Position, revision: Revision, edit: EditAction): string
    requires ValidPosition(lines, position)
  {
    Substitute(Text(lines), PlanFor(lines, Cursor(position, None), revision, edit).transaction.replacements)
  }

  /** Such an action is the splice of its range. */
  lemma AfterIsSplice(lines: seq<Line>, position: Position, revision: Revision, edit: EditAction)
    requires ValidPosition(lines, position)
    ensures var caret := OffsetForPosition(lines, position).value;
            var made := EditFor(lines, position, caret, CharRange(caret, caret), edit);
            && made.Ok? && made.value.0.start <= made.value.0.end <= |Text(lines)|
            && After(lines, position, revision, edit)
               == Text(lines)[..made.value.0.start] + made.value.1 + Text(lines)[made.value.0.end..]
  {
    hide PreviousOffset, NextOffset, Text, EditFor;
    var caret := OffsetForPosition(lines, position).value;
    OffsetInText(lines, position);
    EditInBounds(lines, position, caret, edit);
    var made := EditFor(lines, position, caret, CharRange(caret, caret), edit).value;
    ReplaceOnce(Text(lines), Replacement(made.0, made.1));
    NewOfWellFormed(revision, [Replacement(made.0, made.1)]);
  }

  /** Cutting one character out of line `l`. */
  lemma CutCharacter(lines: seq<Line>, l: nat, k: nat)
    requires l < |lines| && k < |lines[l].text|
    ensures var at, text := StartOf(lines, l) + k, lines[l].text;
            && at + 1 <= |Text(lines)|
            && Text(lines)[..at] + "" + Text(lines)[at + 1..] == Text(WithText(lines, l, text[..k] + text[k + 1..]))
  {
    hide Text;
    var text := lines[l].text;
    TextWithLine(lines, l, text[..k] + text[k + 1..]);
    TextAround(lines, l);
    RemoveOne(Text(lines[..l]), text, k, EndingText(lines[l].ending), Text(lines[l + 1..]));
  }

  /** Cutting the ending between line `l` and the next. */
  lemma CutEnding(lines: seq<Line>, l: nat)
    requires l + 1 < |lines|
    ensures var at, ending := StartOf(lines, l) + |lines[l].text|, EndingText(lines[l].ending);
            && at + |ending| == StartOf(lines, l + 1) <= |Text(lines)|
            && Text(lines)[..at] + "" + Text(lines)[at + |ending|..] == Text(Joined(lines, l))
  {
    hide Text;
    TextOfJoined(lines, l);
    TextOfTwo(lines, l);
    StartOfNext(lines, l);
    JoinCut(Text(lines[..l]), lines[l].text, EndingText(lines[l].ending), LineText(lines[l + 1]), Text(lines[l + 2..]));
  }

  /** Backspace removes the one character before the caret, or joins the line to
      the previous one by removing its whole ending, or does nothing at the start. */
  lemma BackspaceRemoves(lines: seq<Line>, position: Position, revision: Revision)
    requires ValidPosition(lines, position)
    ensures var l, k := position.line, CharIndex(lines[position.line].text, position.column).value;
            var text := lines[l].text;
            After(lines, position, revision, Backspace)
            == if k > 0 then Text(WithText(lines, l, text[..k - 1] + text[k..]))
               else if l > 0 then Text(Joined(lines, l - 1))
               else Text(lines)
  {
    hide Text, After, WithText, Joined, StartOf, CharIndex, Utf8Length;
    var l, k := position.line, CharIndex(lines[position.line].text, position.column).value;
    AfterIsSplice(lines, position, revision, Backspace);
    ColumnAtEnd(lines[l].text, position.column);
    if k > 0 {
      CutCharacter(lines, l, k - 1);
    } else if l > 0 {
      CutEnding(lines, l - 1);
    } else {
      StartOfFirst(lines);
      assert Text(lines)[..0] + "" + Text(lines)[0..] == Text(lines);
    }
  }

  lemma StartOfFirst(lines: seq<Line>)
    ensures StartOf(lines, 0) == 0
  {
    assert lines[..0] == [];
  }

  /** Delete removes the one character after the caret, or joins the next line by
      removing the ending between them, or does nothing at the end. */
  lemma {:induction false} DeleteRemoves(lines: seq<Line>, position: Position, revision: Revision)
    requires ValidPosition(lines, position)
    ensures var l, k := position.line, CharIndex(lines[position.line].text, position.column).value;
            var text := lines[l].text;
            After(lines, position, revision, Delete)
            == if k < |text| then Text(WithText(lines, l, text[..k] + text[k + 1..]))
               else if l + 1 < |lines| then Text(Joined(lines, l))
               else Text(lines)
  {
    hide Text, After, WithText, Joined, StartOf, CharIndex, Utf8Length;
    var l, k := position.line, CharIndex(lines[position.line].text, position.column).value;
    AfterIsSplice(lines, position, revision, Delete);
    ColumnAtEnd(lines[l].text, position.column);
    if k < |lines[l].text| {
      CutCharacter(lines, l, k);
    } else if l + 1 < |lines| {
      CutEnding(lines, l);
    } else {
      var caret := StartOf(lines, l) + k;
      assert Text(lines)[..caret] + "" + Text(lines)[caret..] == Text(lines);
    }
  }

  lemma RemoveOne(p: string, text: string, k: nat, ending: string, rest: string)
    requires k < |text|
    ensures var whole := p + (text + ending) + rest;
            whole[..|p| + k] + "" + whole[|p| + k + 1..] == p + (text[..k] + text[k + 1..]) + ending + rest
  {
    assert p + (text + ending) + rest == p + text[..k] + text[k..k + 1] + (text[k + 1..] + ending + rest) by {
      assert text == text[..k] + text[k..k + 1] + text[k + 1..];
    }
    Cut(p, text[..k], text[k..k + 1], text[k + 1..] + ending + rest);
  }

  lemma JoinCut(p: string, a: string, e: string, b: string, rest: string)
    ensures var whole := p + a + e + b + rest;
            whole[..|p| + |a|] + "" + whole[|p| + |a| + |e|..] == p + a + b + rest
  {
    assert p + a + e + b + rest == p + a + e + (b + rest);
    Cut(p, a, e, b + rest);
    assert p + a + (b + rest) == p + a + b + rest;
  }

  lemma {:induction false} ColumnAtEnd(text: string, column: nat)
    requires CharIndex(text, column).Some?
    ensures column < Utf8Length(text) <==> CharIndex(text, column).value < |text|
    ensures column > 0 <==> CharIndex(text, column).value > 0
  {
    if column > 0 {
      ColumnAtEnd(text[1..], column - Utf8Width(text[0]));
    }
  }

  /** Indenting and unindenting change the caret's line only. */
  lemma IndentShifts(lines: seq<Line>, position: Position, revision: Revision)
    requires ValidPosition(lines, position)
    ensures var l, text := position.line, lines[position.line].text;
            && After(lines, position, revision, Indent) == Text(WithText(lines, l, "    " + text))
            && After(lines, position, revision, Unindent) == Text(WithText(lines, l, text[LeadingSpaces(text, 4)..]))
  {
    hide Text, After, WithText, LeadingSpaces;
    var text := lines[position.line].text;
    AfterIsSplice(lines, position, revision, Indent);
    AfterIsSplice(lines, position, revision, Unindent);
    SpliceAtLineStart(lines, position.line, "    ", 0);
    SpliceAtLineStart(lines, position.line, "", LeadingSpaces(text, 4));
    assert "    " + text[0..] == "    " + text;
    assert "" + text[LeadingSpaces(text, 4)..] == text[LeadingSpaces(text, 4)..];
  }

  lemma SpliceAtLineStart(lines: seq<Line>, l: nat, inserted: string, removed: nat)
    requires l < |lines| && removed <= |lines[l].text|
    ensures var at := StartOf(lines, l);
            && at + removed <= |Text(lines)|
            && Text(lines)[..at] + inserted + Text(lines)[at + removed..]
               == Text(WithText(lines, l, inserted + lines[l].text[removed..]))
  {
    hide Text;
    TextAround(lines, l);
    TextWithLine(lines, l, inserted + lines[l].text[removed..]);
    AtLineStart(Text(lines[..l]), inserted, removed, lines[l].text, EndingText(lines[l].ending), Text(lines[l + 1..]));
  }

  lemma AtLineStart(p: string, inserted: string, removed: nat, text: string, ending: string, rest: string)
    requires removed <= |text|
    ensures var whole := p + (text + ending) + rest;
            whole[..|p|] + inserted + whole[|p| + removed..] == p + (inserted + text[removed..]) + ending + rest
  {
    var whole := p + (text + ending) + rest;
    assert whole[..|p|] == p;
    assert whole[|p| + removed..] == text[removed..] + ending + rest;
  }

  /** Unindenting takes back an indent. */
  lemma UnindentInvertsIndent(text: string)
    ensures LeadingSpaces("    " + text, 4) == 4
    ensures ("    " + text)[LeadingSpaces("    " + text, 4)..] == text
  {
    assert forall i | 0 <= i < 4 :: ("    " + text)[i] == ' ';
  }

  /** What an action puts in place of the selection. A new line takes the ending of the
      first line, or a line feed when that has none. */
  function TypedText(lines: seq<Line>, edit: EditAction): string
    requires lines != []
  {
    match edit
    case Insert(character) => [character]
    case Paste(pasted) => pasted
    case Enter =>
      (match lines[0].ending
       case NoEnding => "\n"
       case Lf => "\n"
       case CrLf => "\r\n"
       case Cr => "\r"
       case LfCr => "\n\r")
    case _ => ""
  }

  /** The offset of the other end of the selection, or of the caret itself. */
  function AnchorOf(lines: seq<Line>, cursor: Cursor): nat
    requires ValidCursor(lines, cursor)
  {
    OffsetForPosition(lines, if cursor.selection.Some? then cursor.selection.value else cursor.position).value
  }

  /** Typing, pasting and a new line replace the selection, whichever end the caret is
      at; both deleting keys remove it when there is one. The caret then stands behind
      what was put in, and only a paste is not typing. */
  lemma SelectionIsReplaced(lines: seq<Line>, cursor: Cursor, revision: Revision, edit: EditAction)
    requires ValidCursor(lines, cursor)
    requires var caret, anchor := OffsetForPosition(lines, cursor.position).value, AnchorOf(lines, cursor);
             edit.Insert? || edit.Paste? || edit.Enter? || (caret != anchor && (edit.Backspace? || edit.Delete?))
    ensures var caret, anchor := OffsetForPosition(lines, cursor.position).value, AnchorOf(lines, cursor);
            var from, to := if caret < anchor then caret else anchor, if caret < anchor then anchor else caret;
            var plan, text := PlanFor(lines, cursor, revision, edit), Text(lines);
            && lines != [] && from <= to <= |text|
            && Substitute(text, plan.transaction.replacements) == text[..from] + TypedText(lines, edit) + text[to..]
            && plan.transaction.expectedRevision == revision
            && plan.before == caret && plan.after == from + |TypedText(lines, edit)|
            && plan.kind == (if edit.Paste? then EditKind.Other else Typing) && !plan.rebuild
  {
    hide Text, PreviousOffset, NextOffset, StartOf, CharIndex, Inverse, Substitute, Applicable, OffsetForPosition,
      NewTransaction;
    OffsetInText(lines, cursor.position);
    if cursor.selection.Some? {
      OffsetInText(lines, cursor.selection.value);
    }
    var caret, anchor := OffsetForPosition(lines, cursor.position).value, AnchorOf(lines, cursor);
    var from, to := if caret < anchor then caret else anchor, if caret < anchor then anchor else caret;
    var r := Replacement(CharRange(from, to), TypedText(lines, edit));
    ReplaceOnce(Text(lines), r);
    NewOfWellFormed(revision, [r]);
  }

  /** The carets of the other actions: deleting leaves it where the removed text was,
      and shifting a line puts it behind the new margin and rebuilds the surface. */
  lemma {:induction false} CaretsAfter(lines: seq<Line>, position: Position, revision: Revision, edit: EditAction)
    requires ValidPosition(lines, position) && !edit.Insert? && !edit.Paste? && !edit.Enter?
    ensures var caret, start := OffsetForPosition(lines, position).value, StartOf(lines, position.line);
            var plan := PlanFor(lines, Cursor(position, None), revision, edit);
            && plan.before == caret
            && (edit.Backspace? || edit.Delete? ==> plan.kind == Typing && !plan.rebuild)
            && (edit.Backspace? ==> caret - plan.after == |Text(lines)| - |After(lines, position, revision, edit)|)
            && (edit.Delete? ==> plan.after == caret)
            && (edit.Indent? || edit.Unindent? ==> plan.kind == EditKind.Other && plan.rebuild)
            && (edit.Indent? ==> plan.after == start + 4)
            && (edit.Unindent? ==> plan.after == start)
  {
    hide Text, After, StartOf, PlanFor;
    AfterIsSplice(lines, position, revision, edit);
    PlanIs(lines, position, revision, edit);
    if edit.Backspace? {
      PreviousInBounds(lines, position);
      OffsetInText(lines, position);
    }
  }

  lemma PlanIs(lines: seq<Line>, position: Position, revision: Revision, edit: EditAction)
    requires ValidPosition(lines, position)
    ensures var caret := OffsetForPosition(lines, position).value;
            var made := EditFor(lines, position, caret, CharRange(caret, caret), edit);
            var plan := PlanFor(lines, Cursor(position, None), revision, edit);
            && made.Ok? && plan.before == caret && plan.kind == made.value.2 && plan.rebuild == made.value.3
            && plan.after == made.value.0.start + |made.value.1|
  {
    hide Text, EditFor, Applicable, Substitute;
    ActionsApply(lines, Cursor(position, None), revision, edit);
  }

  lemma TypedPlan(lines: seq<Line>, position: Position, c: char, revision: Revision)
    requires ValidPosition(lines, position)
    ensures var at := OffsetForPosition(lines, position).value;
            PlanFor(lines, Cursor(position, None), revision, Insert(c))
            == Plan(EditTransaction(revision, [Replacement(CharRange(at, at), [c])]), Typing, at, at + 1, false)
  {
    hide Text;
    var at := OffsetForPosition(lines, position).value;
    NewOfWellFormed(revision, [Replacement(CharRange(at, at), [c])]);
  }

  /** The history entry that typing one character leaves. */
  function TypedEntry(lines: seq<Line>, position: Position, c: char, revision: Revision): (e: HistoryEntry)
    requires revision < MAX_REVISION && ValidPosition(lines, position)
    ensures var at := OffsetForPosition(lines, position).value;
            && e.forward.replacements == [Replacement(CharRange(at, at), [c])]
            && e.inverse.replacements == [Replacement(CharRange(at, at + 1), "")]
            && e.kind == Typing && e.cursorBefore == at && e.cursorAfter == at + 1
  {
    TypedEntryIs(lines, position, c, revision);
    var plan := PlanFor(lines, Cursor(position, None), revision, Insert(c));
    FromApplied(Text(lines), revision, plan.transaction, plan.kind, plan.before, plan.after)
  }

  lemma TypedEntryIs(lines: seq<Line>, position: Position, c: char, revision: Revision)
    requires revision < MAX_REVISION && ValidPosition(lines, position)
    ensures var at := OffsetForPosition(lines, position).value;
            var plan := PlanFor(lines, Cursor(position, None), revision, Insert(c));
            && ApplyResult(Text(lines), revision, plan.transaction).Ok?
            && var e := FromApplied(Text(lines), revision, plan.transaction, plan.kind, plan.before, plan.after);
               && e.forward.replacements == [Replacement(CharRange(at, at), [c])]
               && e.inverse.replacements == [Replacement(CharRange(at, at + 1), "")]
               && e.kind == Typing && e.cursorBefore == at && e.cursorAfter == at + 1
  {
    hide Text, PlanFor, Substitute, Inverse, Applicable, StartOf, Utf8Length;
    TypedPlan(lines, position, c, revision);
    var at := OffsetForPosition(lines, position).value;
    OffsetInText(lines, position);
    InsertOnce(Text(lines), Replacement(CharRange(at, at), [c]));
    TypedIsWithin(at, c, |Text(lines)|);
  }

  lemma TypedIsWithin(at: nat, c: char, length: nat)
    requires at <= length
    ensures WithinLength([Replacement(CharRange(at, at), [c])], length)
  {
  }

  /** Characters typed one after the other, with no selection and the caret where
      the last one left it, make one undo entry. */
  lemma TypingCoalesces(lines: seq<Line>, position: Position, a: char, revision: Revision,
                        lines': seq<Line>, position': Position, b: char, revision': Revision)
    requires revision < MAX_REVISION && revision' < MAX_REVISION
    requires ValidPosition(lines, position) && ValidPosition(lines', position')
    ensures Coalesces(TypedEntry(lines, position, a, revision), TypedEntry(lines', position', b, revision'))
       <==> OffsetForPosition(lines', position').value
            == PlanFor(lines, Cursor(position, None), revision, Insert(a)).after
  {
    hide Text;
    TypedPlan(lines, position, a, revision);
  }
}
