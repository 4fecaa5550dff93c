/** Content search (`search.rs`): every file of a discovery report is read within a
    byte budget, and its matching lines are gathered up to a limit. */
module Searches {
  import opened Wrappers
  import opened Paths
  import opened Discovery
  import opened DiscoveryProperties
  import opened DiscoveryVisibility
  import opened Utf8
  import ReadDocuments

  const MAX_TOTAL_SEARCH_BYTES: nat := 64 * 1024 * 1024
  const MAX_PREVIEW_BYTES: nat := 512
  /** The ellipsis character, three bytes long. */
  const ELLIPSIS: seq<Byte> := [0xE2, 0x80, 0xA6]
  const LF: Byte := 0x0A
  const CR: Byte := 0x0D

  datatype SearchOptions = SearchOptions(maxResults: nat, maxFileBytes: nat)

  datatype SearchMatch = SearchMatch(relativePath: Path, line: nat, preview: seq<Byte>)

  datatype SearchResult = SearchResult(matches: seq<SearchMatch>, truncated: bool)

  datatype SearchError = WorkspaceMoved | DiscoveryFailed(error: DiscoveryError) | IoFailed

  // -------------------------------------------------------- what the files answer

  datatype Io<T> = Got(value: T) | NotFound | Denied

  datatype Metadata = Metadata(isFile: bool, len: nat)

  /** How the reads of an open file end. */
  datatype Ending = EndOfFile | Vanished | ReadDenied

  /** What one path answers while it is searched: the metadata before the open and
      after it, and the bytes in the pieces they are read. */
  datatype FileIo = FileIo(stat: Io<Metadata>, open: Io<()>, fstat: Io<Metadata>, chunks: seq<seq<Byte>>,
                           ending: Ending)

  function Content(file: FileIo): seq<Byte> { ReadDocuments.Joined(file.chunks) }

  function Min(a: nat, b: nat): nat { if a < b then a else b }

  // -------------------------------------------------------------------- lines

  datatype Piece = Piece(text: seq<Byte>, ending: seq<Byte>)

  function FirstLf(s: seq<Byte>): (index: nat)
    ensures index <= |s| && (index < |s| ==> s[index] == LF)
    ensures forall i | 0 <= i < index :: s[i] != LF
  {
    if s == [] || s[0] == LF then 0 else 1 + FirstLf(s[1..])
  }

  /** The piece up to and with a line feed at `index`. */
  function EndedPiece(s: seq<Byte>, index: nat): Piece
    requires index < |s|
  {
    if index > 0 && s[index - 1] == CR then Piece(s[..index - 1], [CR, LF]) else Piece(s[..index], [LF])
  }

  function Pieces(s: seq<Byte>): seq<Piece>
    decreases |s|
  {
    if s == [] then []
    else
      var index := FirstLf(s);
      if index == |s| then [Piece(s, [])] else [EndedPiece(s, index)] + Pieces(s[index + 1..])
  }

  function Rejoined(pieces: seq<Piece>): seq<Byte> {
    if pieces == [] then [] else pieces[0].text + pieces[0].ending + Rejoined(pieces[1..])
  }

  predicate IsPiece(piece: Piece, last: bool) {
    && LF !in piece.text
    && (piece.ending == [CR, LF]
        || (piece.ending == [LF] && (piece.text != [] ==> piece.text[|piece.text| - 1] != CR))
        || (last && piece.ending == [] && piece.text != []))
  }

  lemma EndedPieceIs(s: seq<Byte>, index: nat)
    requires index < |s| && s[index] == LF && LF !in s[..index]
    ensures var piece := EndedPiece(s, index); IsPiece(piece, false) && piece.text + piece.ending == s[..index + 1]
  {
    var piece := EndedPiece(s, index);
    assert s[..index + 1] == s[..index] + [LF];
    if piece.ending == [CR, LF] {
      assert s[..index] == piece.text + [CR];
      assert s[..index + 1] == piece.text + ([CR] + [LF]);
    }
  }

  predicate ArePieces(pieces: seq<Piece>) {
    forall i | 0 <= i < |pieces| :: IsPiece(pieces[i], i == |pieces| - 1)
  }

  /** The lines and their endings are the text again, and only the last may lack one. */
  lemma {:induction false} PiecesRejoin(s: seq<Byte>)
    ensures Rejoined(Pieces(s)) == s && ArePieces(Pieces(s))
    decreases |s|
  {
    hide IsPiece, EndedPiece, Rejoined, ArePieces;
    if s == [] {
      NoPieces();
    } else {
      var index := FirstLf(s);
      if index < |s| {
        var piece, rest := EndedPiece(s, index), Pieces(s[index + 1..]);
        EndedPieceIs(s, index);
        PiecesRejoin(s[index + 1..]);
        RejoinStep(piece, rest);
        ArePiecesStep(piece, rest);
        assert s == s[..index + 1] + s[index + 1..];
      } else {
        LastPieceIs(s);
      }
    }
  }

  lemma NoPieces()
    ensures Rejoined([]) == [] && ArePieces([])
  {
  }

  lemma ArePiecesStep(piece: Piece, rest: seq<Piece>)
    requires IsPiece(piece, false) && ArePieces(rest)
    ensures ArePieces([piece] + rest)
  {
    hide IsPiece;
    EndedNotLast(piece);
    var all := [piece] + rest;
    forall i | 0 < i < |all|
      ensures IsPiece(all[i], i == |all| - 1)
    {
      assert all[i] == rest[i - 1];
    }
  }

  lemma RejoinStep(piece: Piece, rest: seq<Piece>)
    ensures Rejoined([piece] + rest) == (piece.text + piece.ending) + Rejoined(rest)
  {
    assert ([piece] + rest)[1..] == rest;
  }

  lemma LastPieceIs(s: seq<Byte>)
    requires s != [] && FirstLf(s) == |s|
    ensures Rejoined([Piece(s, [])]) == s && ArePieces([Piece(s, [])])
  {
    assert [Piece(s, [])][1..] == [] && s + [] + [] == s;
  }

  lemma EndedNotLast(piece: Piece)
    requires IsPiece(piece, false)
    ensures IsPiece(piece, true)
  {
  }

  predicate HasAt(line: seq<Byte>, needle: seq<Byte>, i: nat) {
    i + |needle| <= |line| && line[i..i + |needle|] == needle
  }

  predicate Contains(line: seq<Byte>, needle: seq<Byte>) {
    exists i: nat | i <= |line| :: HasAt(line, needle, i)
  }

  // ------------------------------------------------------------------- previews

  /** Before this index a character ends. */
  predicate IsCharBoundary(s: seq<Byte>, i: nat) {
    i == |s| || (i < |s| && !Tail(s[i]))
  }

  lemma TailInside(s: seq<Byte>, i: nat)
    requires s != [] && FrontOf(s).Char? && 0 < i < FrontOf(s).width
    ensures Tail(s[i])
  {
  }

  /** Well-formed text can be cut at a boundary. */
  lemma {:induction false} CutAtBoundary(s: seq<Byte>, i: nat)
    requires WellFormed(s) && i <= |s| && IsCharBoundary(s, i)
    ensures WellFormed(s[..i])
    decreases |s|
  {
    hide FrontOf, WellFormed;
    if i == 0 {
      EmptyIsWellFormed(s);
    } else {
      WellFormedHead(s);
      var width := FrontOf(s).width;
      if i < width {
        TailInside(s, i);
      }
      CutAtBoundary(s[width..], i - width);
      OneCharacter(s);
      WellFormedAfter(s[..width], s[width..][..i - width]);
      assert s[..i] == s[..width] + s[width..][..i - width];
    }
  }

  lemma FirstIsBoundary(s: seq<Byte>)
    requires WellFormed(s)
    ensures IsCharBoundary(s, 0)
  {
    if s != [] {
      WellFormedHead(s);
    }
  }

  /** A whole line, or its longest start made of whole characters that leaves room for
      the ellipsis. */
  method BoundedPreview(line: seq<Byte>) returns (preview: seq<Byte>)
    requires WellFormed(line)
    ensures preview == PreviewOf(line)
  {
    hide WellFormed;
    if |line| <= MAX_PREVIEW_BYTES {
      return line;
    }
    var end: nat := MAX_PREVIEW_BYTES - |ELLIPSIS|;
    FirstIsBoundary(line);
    while !IsCharBoundary(line, end)
      invariant end <= MAX_PREVIEW_BYTES - |ELLIPSIS|
      invariant BoundaryBefore(line, end) == BoundaryBefore(line, MAX_PREVIEW_BYTES - |ELLIPSIS|)
      decreases end
    {
      end := end - 1;
    }
    return line[..end] + ELLIPSIS;
  }

  function BoundaryBefore(s: seq<Byte>, i: nat): (b: nat)
    requires i <= |s|
    ensures b <= i && forall j: nat | b < j <= i :: !IsCharBoundary(s, j)
    ensures IsCharBoundary(s, 0) ==> IsCharBoundary(s, b)
  {
    if i == 0 || IsCharBoundary(s, i) then i else BoundaryBefore(s, i - 1)
  }

  function PreviewOf(line: seq<Byte>): seq<Byte> {
    if |line| <= MAX_PREVIEW_BYTES then line
    else line[..BoundaryBefore(line, MAX_PREVIEW_BYTES - |ELLIPSIS|)] + ELLIPSIS
  }

  /** A preview is valid text of at most 512 bytes. */
  lemma PreviewIsBounded(line: seq<Byte>)
    requires WellFormed(line)
    ensures WellFormed(PreviewOf(line)) && |PreviewOf(line)| <= MAX_PREVIEW_BYTES
  {
    hide WellFormed;
    FirstIsBoundary(line);
    if |line| > MAX_PREVIEW_BYTES {
      var end := BoundaryBefore(line, MAX_PREVIEW_BYTES - |ELLIPSIS|);
      CutAtBoundary(line, end);
      EllipsisIsWellFormed();
      WellFormedAfter(line[..end], ELLIPSIS);
    }
  }

  lemma WellFormedPrefixEndsAtBoundary(line: seq<Byte>, j: nat)
    requires WellFormed(line) && j <= |line| && WellFormed(line[..j])
    ensures IsCharBoundary(line, j)
  {
    hide WellFormed;
    assert line == line[..j] + line[j..];
    WellFormedAfter(line[..j], line[j..]);
    FirstIsBoundary(line[j..]);
  }

  /** A line of up to 512 bytes is shown as it is. A longer one ends in an ellipsis,
      after the longest run of whole characters that leaves room for it: at most three
      bytes are given up. */
  lemma {:induction false} PreviewMeans(line: seq<Byte>) returns (end: nat)
    requires WellFormed(line)
    ensures |line| <= 512 ==> PreviewOf(line) == line
    ensures |line| > 512 ==>
              && 506 <= end <= 509 && WellFormed(line[..end])
              && PreviewOf(line) == line[..end] + [0xE2, 0x80, 0xA6]
              && forall j: nat | end < j <= 509 :: !WellFormed(line[..j])
  {
    hide WellFormed, IsCharBoundary;
    end := 0;
    if |line| > 512 {
      FirstIsBoundary(line);
      end := BoundaryBefore(line, 509);
      CutAtBoundary(line, end);
      forall j: nat | end < j <= 509
        ensures !WellFormed(line[..j])
      {
        if WellFormed(line[..j]) {
          WellFormedPrefixEndsAtBoundary(line, j);
        }
      }
      var whole := ReadDocuments.ValidPrefix(line[..509]);
      ReadDocuments.ShortTail(line, 509);
      assert whole == line[..|whole|];
    }
  }

  lemma EllipsisIsWellFormed()
    ensures WellFormed(ELLIPSIS)
  {
    assert FrontOf(ELLIPSIS) == Char(3);
    OneCharacter(ELLIPSIS);
    assert ELLIPSIS[..3] == ELLIPSIS;
  }

  /** Lines of valid text are valid text. */
  lemma {:induction false} PiecesWellFormed(s: seq<Byte>, i: nat)
    requires WellFormed(s) && i < |Pieces(s)|
    ensures WellFormed(Pieces(s)[i].text)
    decreases |s|
  {
    hide WellFormed, FrontOf;
    var index := FirstLf(s);
    if index < |s| {
      CutAtBoundary(s, index);
      if index > 0 && s[index - 1] == CR {
        CutAtBoundary(s, index - 1);
      }
      assert s == s[..index] + s[index..];
      WellFormedAfter(s[..index], s[index..]);
      AfterLf(s[index..]);
      assert s[index..][1..] == s[index + 1..];
      if i > 0 {
        PiecesWellFormed(s[index + 1..], i - 1);
      }
    }
  }

  lemma AfterLf(s: seq<Byte>)
    requires s != [] && s[0] == LF && WellFormed(s)
    ensures WellFormed(s[1..])
  {
    WellFormedHead(s);
    assert FrontOf(s) == Char(1);
  }

  // ------------------------------------------------------------ reading one file

  /** At most `limit` bytes of what the reads return; when the limit stops them the
      end of the file is never seen. */
  method ReadUpTo(chunks: seq<seq<Byte>>, ending: Ending, limit: nat) returns (bytes: seq<Byte>, result: Ending)
    ensures var all := ReadDocuments.Joined(chunks);
            && bytes == all[..Min(|all|, limit)]
            && result == if |all| >= limit then EndOfFile else ending
  {
    bytes := [];
    var i := 0;
    ReadDocuments.ReadNothing();
    assert chunks[..0] == [];
    while i < |chunks| && |bytes| < limit
      invariant i <= |chunks|
      invariant var read := ReadDocuments.Joined(chunks[..i]); bytes == read[..Min(|read|, limit)]
    {
      ReadDocuments.JoinedStep(chunks, i);
      ReadDocuments.CaptureStep(ReadDocuments.Joined(chunks[..i]), chunks[i], limit);
      bytes := bytes + chunks[i][..Min(|chunks[i]|, limit - |bytes|)];
      i := i + 1;
    }
    JoinedPrefix(chunks, i);
    if i == |chunks| {
      assert chunks[..i] == chunks;
    }
    result := if |bytes| == limit then EndOfFile else ending;
  }

  lemma {:induction false} JoinedPrefix(chunks: seq<seq<Byte>>, i: nat)
    requires i <= |chunks|
    ensures ReadDocuments.Joined(chunks[..i]) <= ReadDocuments.Joined(chunks)
    decreases |chunks| - i
  {
    if i == |chunks| {
      assert chunks[..i] == chunks;
    } else {
      ReadDocuments.JoinedStep(chunks, i);
      JoinedPrefix(chunks, i + 1);
    }
  }

  /** What comes of one file: an error that ends the search, a file passed over, or its
      text; with the bytes that were read. */
  datatype Reading = Fatal(read: nat) | Skipped(read: nat) | Whole(content: seq<Byte>)

  function BytesOf(reading: Reading): nat {
    if reading.Whole? then |reading.content| else reading.read
  }

  /** A file that can be searched: small enough before and after the open, no longer
      than that in fact, and valid text without a NUL. */
  predicate Searchable(file: FileIo, limit: nat) {
    && file.stat.Got? && file.stat.value.isFile && file.stat.value.len <= limit
    && file.open.Got?
    && file.fstat.Got? && file.fstat.value.isFile && file.fstat.value.len <= limit
    && |Content(file)| <= limit && file.ending.EndOfFile?
    && 0 !in Content(file) && WellFormed(Content(file))
  }

  predicate Usable(metadata: Metadata, limit: nat) {
    metadata.isFile && metadata.len <= limit
  }

  method ReadFile(file: FileIo, limit: nat) returns (reading: Reading)
    ensures reading == ReadingOf(file, limit)
  {
    hide WellFormed, FromUtf8, FrontOf;
    if file.stat.Denied? {
      return Fatal(0);
    }
    if file.stat.NotFound? || !Usable(file.stat.value, limit) {
      return Skipped(0);
    }
    if file.open.Denied? {
      return Fatal(0);
    }
    if file.open.NotFound? {
      return Skipped(0);
    }
    if file.fstat.Denied? {
      return Fatal(0);
    }
    if file.fstat.NotFound? || !Usable(file.fstat.value, limit) {
      return Skipped(0);
    }
    var bytes, ending := ReadUpTo(file.chunks, file.ending, limit + 1);
    assert |Content(file)| <= limit ==> bytes == Content(file);
    if ending.ReadDenied? {
      return Fatal(|bytes|);
    }
    if ending.Vanished? || |bytes| > limit || 0 in bytes {
      return Skipped(|bytes|);
    }
    OkIffWellFormed(bytes);
    if FromUtf8(bytes).Err? {
      return Skipped(|bytes|);
    }
    return Whole(bytes);
  }

  /** A read that is refused ends the search; a file that is missing, unsuitable or
      disappears does not. */
  function ReadingOf(file: FileIo, limit: nat): (reading: Reading)
    ensures BytesOf(reading) <= limit + 1
    ensures reading.Whole? <==> Searchable(file, limit)
    ensures reading.Whole? ==> reading.content == Content(file)
  {
    if file.stat.Denied? then Fatal(0)
    else if file.stat.NotFound? || !Usable(file.stat.value, limit) then Skipped(0)
    else if file.open.Denied? then Fatal(0)
    else if file.open.NotFound? then Skipped(0)
    else if file.fstat.Denied? then Fatal(0)
    else if file.fstat.NotFound? || !Usable(file.fstat.value, limit) then Skipped(0)
    else
      var content := Content(file);
      if |content| > limit then Skipped(limit + 1)
      else if file.ending.ReadDenied? then Fatal(|content|)
      else if file.ending.EndOfFile? && 0 !in content && WellFormed(content) then Whole(content)
      else Skipped(|content|)
  }

  /** The file is opened and found to be a usable one, before and after. */
  predicate Opens(file: FileIo, limit: nat) {
    && file.stat.Got? && file.stat.value.isFile && file.stat.value.len <= limit
    && file.open.Got?
    && file.fstat.Got? && file.fstat.value.isFile && file.fstat.value.len <= limit
  }

  /** Some look at the file or read of it is refused. */
  predicate EverDenied(file: FileIo) {
    file.stat.Denied? || file.open.Denied? || file.fstat.Denied? || file.ending.ReadDenied?
  }

  /** Only a refusal ends the search, and only where the search comes to it: at the
      first look, at the open or the second look of a usable file, or in the reads,
      unless the limit stops them before. What is charged is what was read. */
  lemma {:induction false} ReadingMeans(file: FileIo, limit: nat)
    ensures ReadingOf(file, limit).Fatal?
       <==> || file.stat.Denied?
            || (file.stat.Got? && Usable(file.stat.value, limit)
                && (file.open.Denied? || (file.open.Got? && file.fstat.Denied?)))
            || (Opens(file, limit) && file.ending.ReadDenied? && |Content(file)| <= limit)
    ensures ReadingOf(file, limit).Fatal? ==> EverDenied(file)
    ensures BytesOf(ReadingOf(file, limit)) == if Opens(file, limit) then Min(|Content(file)|, limit + 1) else 0
  {
    hide WellFormed, Content;
  }

  // ------------------------------------------------------------------- the search

  /** What stays the same while one search runs; `trim` is the library's. */
  datatype Job = Job(needle: seq<Byte>, options: SearchOptions, trim: seq<Byte> -> seq<Byte>, probe: Path -> FileIo)

  ghost predicate TrimKeepsText(trim: seq<Byte> -> seq<Byte>) {
    forall s: seq<Byte> {:trigger trim(s)} :: WellFormed(s) ==> WellFormed(trim(s))
  }

  function MatchAt(job: Job, path: Path, pieces: seq<Piece>, i: nat): SearchMatch
    requires i < |pieces|
  {
    SearchMatch(path, i + 1, PreviewOf(job.trim(pieces[i].text)))
  }

  /** The matching lines of one file, in order. */
  function Hits(job: Job, path: Path, pieces: seq<Piece>): seq<SearchMatch> {
    if pieces == [] then []
    else
      var last := |pieces| - 1;
      Hits(job, path, pieces[..last])
      + if Contains(pieces[last].text, job.needle) then [MatchAt(job, path, pieces, last)] else []
  }

  predicate HitAt(job: Job, path: Path, pieces: seq<Piece>, i: nat, m: SearchMatch)
    requires i < |pieces|
  {
    Contains(pieces[i].text, job.needle) && m == MatchAt(job, path, pieces, i)
  }

  lemma HitBefore(job: Job, path: Path, pieces: seq<Piece>, last: nat, i: nat, m: SearchMatch)
    requires i < last <= |pieces|
    ensures HitAt(job, path, pieces[..last], i, m) <==> HitAt(job, path, pieces, i, m)
  {
    hide Contains, PreviewOf;
    assert pieces[..last][i] == pieces[i];
  }

  lemma HitsEnd(job: Job, path: Path, pieces: seq<Piece>, m: SearchMatch)
    requires pieces != []
    ensures var last := |pieces| - 1;
            m in Hits(job, path, pieces) <==> m in Hits(job, path, pieces[..last]) || HitAt(job, path, pieces, last, m)
  {
    hide Contains, PreviewOf;
  }

  lemma {:induction false} HitsMean(job: Job, path: Path, pieces: seq<Piece>, m: SearchMatch)
    ensures m in Hits(job, path, pieces) <==> exists i: nat | i < |pieces| :: HitAt(job, path, pieces, i, m)
  {
    hide HitAt;
    if pieces != [] {
      hide Hits;
      var last := |pieces| - 1;
      HitsEnd(job, path, pieces, m);
      HitsMean(job, path, pieces[..last], m);
      forall i: nat | i < last
        ensures HitAt(job, path, pieces[..last], i, m) <==> HitAt(job, path, pieces, i, m)
      {
        HitBefore(job, path, pieces, last, i, m);
      }
    }
  }

  /** What a match says: the file, the number of a line that holds the needle somewhere,
      counted from one, and the preview of that line without its margins. */
  ghost predicate Reports(m: SearchMatch, job: Job, path: Path, line: Piece, number: nat) {
    && m.relativePath == path && m.line == number && m.preview == PreviewOf(job.trim(line.text))
    && exists before, after :: line.text == before + job.needle + after
  }

  /** The matches of a file are its matching lines, each once and in order. */
  lemma {:induction false} HitsAreMatchingLines(job: Job, path: Path, pieces: seq<Piece>, m: SearchMatch)
    ensures m in Hits(job, path, pieces)
       <==> exists i | 0 <= i < |pieces| :: Reports(m, job, path, pieces[i], i + 1)
    ensures forall j, k | 0 <= j < k < |Hits(job, path, pieces)| ::
              Hits(job, path, pieces)[j].line < Hits(job, path, pieces)[k].line
  {
    hide Hits, PreviewOf, HitAt, Reports;
    HitsMean(job, path, pieces, m);
    forall i: nat | i < |pieces|
      ensures HitAt(job, path, pieces, i, m) <==> Reports(m, job, path, pieces[i], i + 1)
    {
      HitReports(job, path, pieces, i, m);
    }
    HitsAscend(job, path, pieces);
  }

  lemma HitReports(job: Job, path: Path, pieces: seq<Piece>, i: nat, m: SearchMatch)
    requires i < |pieces|
    ensures HitAt(job, path, pieces, i, m) <==> Reports(m, job, path, pieces[i], i + 1)
  {
    hide PreviewOf;
    ContainsMeans(pieces[i].text, job.needle);
  }

  lemma ContainsMeans(text: seq<Byte>, needle: seq<Byte>)
    ensures Contains(text, needle) <==> exists before, after :: text == before + needle + after
  {
    if Contains(text, needle) {
      var at: nat :| at <= |text| && HasAt(text, needle, at);
      assert text == text[..at] + needle + text[at + |needle|..];
    }
    if before, after :| text == before + needle + after {
      assert HasAt(text, needle, |before|);
    }
  }

  lemma NoHits(job: Job, path: Path)
    ensures Hits(job, path, []) == []
  {
  }

  lemma {:induction false} HitsAscend(job: Job, path: Path, pieces: seq<Piece>)
    ensures var hits := Hits(job, path, pieces);
            && (forall j | 0 <= j < |hits| :: hits[j].line <= |pieces|)
            && forall j, k | 0 <= j < k < |hits| :: hits[j].line < hits[k].line
  {
    hide Contains, PreviewOf, Hits;
    if pieces == [] {
      NoHits(job, path);
    } else {
      var last := |pieces| - 1;
      assert pieces[..last + 1] == pieces;
      HitsStep(job, path, pieces, last);
      HitsAscend(job, path, pieces[..last]);
    }
  }

  function FileHits(job: Job, path: Path): seq<SearchMatch> {
    Hits(job, path, Pieces(Content(job.probe(path))))
  }

  function FirstOf(all: seq<SearchMatch>, limit: nat): seq<SearchMatch> {
    if |all| <= limit then all else all[..limit]
  }

  /** The lines of one file, up to the first match there is no room for. */
  method SearchLines(job: Job, path: Path, content: seq<Byte>, matches: seq<SearchMatch>)
    returns (gathered: seq<SearchMatch>, full: bool)
    requires |matches| <= job.options.maxResults && WellFormed(content) && TrimKeepsText(job.trim)
    ensures var all := matches + Hits(job, path, Pieces(content));
            gathered == FirstOf(all, job.options.maxResults) && (full <==> |all| > job.options.maxResults)
  {
    hide WellFormed, PreviewOf, Contains, Pieces;
    var pieces := Pieces(content);
    gathered := matches;
    var i := 0;
    assert pieces[..0] == [];
    while i < |pieces|
      invariant i <= |pieces| && |gathered| <= job.options.maxResults
      invariant gathered == matches + Hits(job, path, pieces[..i])
    {
      HitsStep(job, path, pieces, i);
      if Contains(pieces[i].text, job.needle) {
        if |gathered| == job.options.maxResults {
          FullHere(job, path, pieces, i, matches);
          return gathered, true;
        }
        PiecesWellFormed(content, i);
        var preview := BoundedPreview(job.trim(pieces[i].text));
        gathered := gathered + [SearchMatch(path, i + 1, preview)];
      }
      i := i + 1;
    }
    assert pieces[..i] == pieces;
    return gathered, false;
  }

  lemma HitsStep(job: Job, path: Path, pieces: seq<Piece>, i: nat)
    requires i < |pieces|
    ensures Hits(job, path, pieces[..i + 1])
         == Hits(job, path, pieces[..i])
            + if Contains(pieces[i].text, job.needle) then [MatchAt(job, path, pieces, i)] else []
  {
    assert pieces[..i + 1][..i] == pieces[..i];
  }

  lemma {:induction false} HitsGrow(job: Job, path: Path, pieces: seq<Piece>, i: nat)
    requires i <= |pieces|
    ensures Hits(job, path, pieces[..i]) <= Hits(job, path, pieces)
    decreases |pieces| - i
  {
    hide Contains;
    if i == |pieces| {
      assert pieces[..i] == pieces;
    } else {
      HitsStep(job, path, pieces, i);
      HitsGrow(job, path, pieces, i + 1);
    }
  }

  lemma FullHere(job: Job, path: Path, pieces: seq<Piece>, i: nat, matches: seq<SearchMatch>)
    requires i < |pieces| && Contains(pieces[i].text, job.needle)
    requires |matches + Hits(job, path, pieces[..i])| == job.options.maxResults
    ensures var all := matches + Hits(job, path, pieces);
            |all| > job.options.maxResults
            && FirstOf(all, job.options.maxResults) == matches + Hits(job, path, pieces[..i])
  {
    hide Contains;
    HitsStep(job, path, pieces, i);
    HitsGrow(job, path, pieces, i + 1);
    HitsGrow(job, path, pieces, i);
  }

  /** The files in turn, from a state of the search. */
  function SearchFrom(job: Job, files: seq<Path>, matches: seq<SearchMatch>, remaining: nat, incomplete: bool)
    : Result<SearchResult, SearchError>
    decreases |files|
  {
    if files == [] then Ok(SearchResult(matches, incomplete || remaining == 0))
    else if remaining == 0 then Ok(SearchResult(matches, true))
    else
      match ReadingOf(job.probe(files[0]), Min(job.options.maxFileBytes, remaining))
      case Fatal(_) => Err(IoFailed)
      case Skipped(read) => SearchFrom(job, files[1..], matches, ReadDocuments.SaturatingSub(remaining, read), true)
      case Whole(content) =>
        var all := matches + Hits(job, files[0], Pieces(content));
        if |all| > job.options.maxResults then Ok(SearchResult(FirstOf(all, job.options.maxResults), true))
        else SearchFrom(job, files[1..], all, ReadDocuments.SaturatingSub(remaining, |content|), incomplete)
  }

  /** Never more than one byte beyond the budget is read. */
  method SearchFiles(job: Job, files: seq<Path>, budget: nat, discoveryIncomplete: bool)
    returns (r: Result<SearchResult, SearchError>, ghost bytesRead: nat)
    requires TrimKeepsText(job.trim)
    ensures r == SearchFrom(job, files, [], budget, discoveryIncomplete)
    ensures r.Ok? ==> |r.value.matches| <= job.options.maxResults
    ensures bytesRead <= budget + 1
  {
    hide Pieces, Hits, ReadingOf, WellFormed, TrimKeepsText;
    var matches: seq<SearchMatch> := [];
    var remaining := budget;
    var incomplete := discoveryIncomplete;
    bytesRead := 0;
    var i := 0;
    assert files[0..] == files;
    while i < |files|
      invariant i <= |files| && |matches| <= job.options.maxResults
      invariant bytesRead + remaining == budget || (remaining == 0 && bytesRead == budget + 1)
      invariant SearchFrom(job, files, [], budget, discoveryIncomplete)
             == SearchFrom(job, files[i..], matches, remaining, incomplete)
    {
      assert files[i..][0] == files[i] && files[i..][1..] == files[i + 1..];
      if remaining == 0 {
        return Ok(SearchResult(matches, true)), bytesRead;
      }
      var limit := Min(job.options.maxFileBytes, remaining);
      var reading := ReadFile(job.probe(files[i]), limit);
      bytesRead := bytesRead + BytesOf(reading);
      remaining := ReadDocuments.SaturatingSub(remaining, BytesOf(reading));
      if reading.Fatal? {
        return Err(IoFailed), bytesRead;
      } else if reading.Skipped? {
        incomplete := true;
      } else {
        var gathered, full := SearchLines(job, files[i], reading.content, matches);
        if full {
          return Ok(SearchResult(gathered, true)), bytesRead;
        }
        matches := gathered;
      }
      i := i + 1;
    }
    return Ok(SearchResult(matches, incomplete || remaining == 0)), bytesRead;
  }

  // ------------------------------------------------- what an answer promises

  function AllHits(job: Job, files: seq<Path>): seq<SearchMatch> {
    if files == [] then [] else FileHits(job, files[0]) + AllHits(job, files[1..])
  }

  function TotalBytes(job: Job, files: seq<Path>): nat {
    if files == [] then 0 else |Content(job.probe(files[0]))| + TotalBytes(job, files[1..])
  }

  /** The budget left for file `i` when all before it were read. */
  function LeftFor(job: Job, files: seq<Path>, budget: nat, i: nat): nat
    requires i < |files|
  {
    ReadDocuments.SaturatingSub(budget, TotalBytes(job, files[..i]))
  }

  predicate SearchableAt(job: Job, files: seq<Path>, budget: nat, i: nat)
    requires i < |files|
  {
    Searchable(job.probe(files[i]), Min(job.options.maxFileBytes, LeftFor(job, files, budget, i)))
  }

  /** Every file can be searched in its turn, and some of the budget is left over. */
  predicate EverythingFits(job: Job, files: seq<Path>, budget: nat) {
    && TotalBytes(job, files) < budget
    && forall i: nat | i < |files| :: SearchableAt(job, files, budget, i)
  }

  lemma LeftForNext(job: Job, files: seq<Path>, budget: nat, i: nat)
    requires i + 1 < |files| && |Content(job.probe(files[0]))| <= budget
    ensures LeftFor(job, files, budget, i + 1) == LeftFor(job, files[1..], budget - |Content(job.probe(files[0]))|, i)
  {
    assert files[..i + 1][1..] == files[1..][..i];
  }

  lemma FitsStep(job: Job, files: seq<Path>, budget: nat)
    requires files != [] && budget > 0
    ensures EverythingFits(job, files, budget)
       <==> && Searchable(job.probe(files[0]), Min(job.options.maxFileBytes, budget))
            && EverythingFits(job, files[1..], ReadDocuments.SaturatingSub(budget, |Content(job.probe(files[0]))|))
  {
    hide Searchable, Content;
    var first := |Content(job.probe(files[0]))|;
    if EverythingFits(job, files, budget) {
      assert SearchableAt(job, files, budget, 0);
      forall i: nat {:trigger SearchableAt(job, files[1..], budget - first, i)} | i < |files[1..]|
        ensures SearchableAt(job, files[1..], budget - first, i)
      {
        LeftForNext(job, files, budget, i);
        assert SearchableAt(job, files, budget, i + 1);
      }
    }
    if Searchable(job.probe(files[0]), Min(job.options.maxFileBytes, budget))
       && EverythingFits(job, files[1..], ReadDocuments.SaturatingSub(budget, first)) {
      forall i: nat | i < |files|
        ensures SearchableAt(job, files, budget, i)
      {
        if i > 0 {
          LeftForNext(job, files, budget, i - 1);
          assert SearchableAt(job, files[1..], budget - first, i - 1);
        }
      }
    }
  }

  predicate Complete(r: Result<SearchResult, SearchError>) {
    r.Ok? && !r.value.truncated
  }

  /** Once a file has been passed over the answer stays incomplete. */
  lemma {:induction false} IncompleteStays(job: Job, files: seq<Path>, matches: seq<SearchMatch>, remaining: nat)
    ensures !Complete(SearchFrom(job, files, matches, remaining, true))
    decreases |files|
  {
    hide ReadingOf, Hits, Pieces;
    if files != [] && remaining > 0 {
      var reading := ReadingOf(job.probe(files[0]), Min(job.options.maxFileBytes, remaining));
      var next := ReadDocuments.SaturatingSub(remaining, BytesOf(reading));
      if reading.Skipped? {
        IncompleteStays(job, files[1..], matches, next);
      } else if reading.Whole? {
        IncompleteStays(job, files[1..], matches + Hits(job, files[0], Pieces(reading.content)), next);
      }
    }
  }

  /** An answer is marked complete exactly when discovery was, every file could be
      searched within what was left of the budget, some budget is left over and the
      matches fit; and then it holds all of them, file by file and line by line. */
  lemma {:induction false} CompleteIff(job: Job, files: seq<Path>, matches: seq<SearchMatch>, remaining: nat,
                                       incomplete: bool)
    requires |matches| <= job.options.maxResults
    ensures Complete(SearchFrom(job, files, matches, remaining, incomplete))
       <==> && !incomplete && EverythingFits(job, files, remaining)
            && |matches + AllHits(job, files)| <= job.options.maxResults
    ensures Complete(SearchFrom(job, files, matches, remaining, incomplete))
        ==> SearchFrom(job, files, matches, remaining, incomplete).value.matches == matches + AllHits(job, files)
    decreases |files|
  {
    hide Searchable, Hits, Pieces, ReadingOf, EverythingFits;
    if files == [] {
      NothingFits(job, remaining);
    } else if remaining == 0 {
      NoBudgetFitsNothing(job, files);
    } else {
      FitsStep(job, files, remaining);
      var limit := Min(job.options.maxFileBytes, remaining);
      var reading := ReadingOf(job.probe(files[0]), limit);
      if reading.Whole? {
        var hits := Hits(job, files[0], Pieces(reading.content));
        Rebracket(matches, hits, AllHits(job, files[1..]));
        if |matches + hits| <= job.options.maxResults {
          CompleteIff(job, files[1..], matches + hits, ReadDocuments.SaturatingSub(remaining, |reading.content|),
                      incomplete);
        }
      } else if reading.Skipped? {
        IncompleteStays(job, files[1..], matches, ReadDocuments.SaturatingSub(remaining, reading.read));
      }
    }
  }

  /** One such condition is easily missed: a budget that the files use up exactly. The
      answer holds every match and is marked as truncated. */
  lemma ExactBudgetLooksTruncated(trim: seq<Byte> -> seq<Byte>)
    ensures var file := FileIo(Got(Metadata(true, 1)), Got(()), Got(Metadata(true, 1)), [[0x61]], EndOfFile);
            var job := Job([0x61], SearchOptions(1, 1), trim, _ => file);
            && |AllHits(job, [["a"]])| == 1
            && SearchFrom(job, [["a"]], [], 1, false) == Ok(SearchResult(AllHits(job, [["a"]]), true))
            && SearchFrom(job, [["a"]], [], 2, false) == Ok(SearchResult(AllHits(job, [["a"]]), false))
  {
    var file := FileIo(Got(Metadata(true, 1)), Got(()), Got(Metadata(true, 1)), [[0x61]], EndOfFile);
    var job := Job([0x61], SearchOptions(1, 1), trim, _ => file);
    LetterFile(file);
    LetterHits(job, ["a"]);
    var hits := FileHits(job, ["a"]);
    assert [["a"]][1..] == [] && hits + [] == hits == [] + hits;
    assert AllHits(job, [["a"]]) == hits;
  }

  lemma LetterFile(file: FileIo)
    requires file == FileIo(Got(Metadata(true, 1)), Got(()), Got(Metadata(true, 1)), [[0x61]], EndOfFile)
    ensures Content(file) == [0x61] && ReadingOf(file, 1) == Whole([0x61])
  {
    assert [[0x61 as Byte]][..0] == [] && [] + [0x61 as Byte] == [0x61];
    OneCharacter([0x61]);
    assert [0x61 as Byte][..1] == [0x61];
  }

  lemma LetterHits(job: Job, path: Path)
    requires Content(job.probe(path)) == [0x61] && job.needle == [0x61]
    ensures |FileHits(job, path)| == 1
  {
    var s: seq<Byte> := [0x61];
    assert s[1..] == [] && FirstLf(s) == 1;
    var pieces := [Piece(s, [])];
    assert Pieces(s) == pieces && pieces[..0] == [];
    assert HasAt(s, job.needle, 0);
    assert Hits(job, path, pieces) == [] + [MatchAt(job, path, pieces, 0)];
  }

  lemma NothingFits(job: Job, remaining: nat)
    ensures EverythingFits(job, [], remaining) <==> remaining > 0
    ensures AllHits(job, []) == []
  {
  }

  lemma NoBudgetFitsNothing(job: Job, files: seq<Path>)
    ensures !EverythingFits(job, files, 0)
  {
  }

  /** The matches of the files that are kept. */
  function KeptHits(job: Job, files: seq<Path>, keep: seq<bool>): seq<SearchMatch>
    requires |keep| == |files|
  {
    if files == [] then []
    else (if keep[0] then FileHits(job, files[0]) else []) + KeptHits(job, files[1..], keep[1..])
  }

  /** Every answer, complete or not, holds the first matches of some of the files, in
      the order of discovery and of their lines. */
  lemma {:induction false} AnswersAreFirstMatches(job: Job, files: seq<Path>, matches: seq<SearchMatch>,
                                                  remaining: nat, incomplete: bool)
    returns (keep: seq<bool>)
    requires |matches| <= job.options.maxResults
    requires SearchFrom(job, files, matches, remaining, incomplete).Ok?
    ensures |keep| == |files|
    ensures SearchFrom(job, files, matches, remaining, incomplete).value.matches
         == FirstOf(matches + KeptHits(job, files, keep), job.options.maxResults)
    decreases |files|
  {
    hide Searchable, Hits, Pieces, ReadingOf, Content;
    if files == [] || remaining == 0 {
      keep := seq(|files|, _ => false);
      NoneKept(job, files, keep);
      assert matches + [] == matches;
      return;
    }
    var limit := Min(job.options.maxFileBytes, remaining);
    var reading := ReadingOf(job.probe(files[0]), limit);
    if reading.Whole? {
      var hits := FileHits(job, files[0]);
      if |matches + hits| > job.options.maxResults {
        var none := seq(|files| - 1, _ => false);
        NoneKept(job, files[1..], none);
        keep := [true] + none;
        assert keep[1..] == none && hits + [] == hits;
      } else {
        var rest := AnswersAreFirstMatches(job, files[1..], matches + hits,
                                           ReadDocuments.SaturatingSub(remaining, |reading.content|), incomplete);
        keep := [true] + rest;
        assert keep[1..] == rest;
        Rebracket(matches, hits, KeptHits(job, files[1..], rest));
      }
    } else {
      var rest := AnswersAreFirstMatches(job, files[1..], matches,
                                         ReadDocuments.SaturatingSub(remaining, reading.read), true);
      keep := [false] + rest;
      assert keep[1..] == rest;
      assert [] + KeptHits(job, files[1..], rest) == KeptHits(job, files[1..], rest);
    }
  }

  lemma {:induction false} NoneKept(job: Job, files: seq<Path>, keep: seq<bool>)
    requires |keep| == |files| && forall i | 0 <= i < |keep| :: !keep[i]
    ensures KeptHits(job, files, keep) == []
  {
    if files != [] {
      NoneKept(job, files[1..], keep[1..]);
    }
  }

  /** A search that fails was refused by one of its files; where none ever refuses,
      every search answers. */
  lemma {:induction false} FailsOnlyWhenDenied(job: Job, files: seq<Path>, matches: seq<SearchMatch>, remaining: nat,
                                               incomplete: bool)
    ensures var r := SearchFrom(job, files, matches, remaining, incomplete);
            r.Err? ==> r == Err(IoFailed) && exists path | path in files :: EverDenied(job.probe(path))
    decreases |files|
  {
    hide Hits, Pieces, Content, ReadingOf, EverDenied;
    if files != [] && remaining > 0 {
      var limit := Min(job.options.maxFileBytes, remaining);
      var reading := ReadingOf(job.probe(files[0]), limit);
      ReadingMeans(job.probe(files[0]), limit);
      var next := ReadDocuments.SaturatingSub(remaining, BytesOf(reading));
      if reading.Fatal? {
        assert files[0] in files;
      } else if reading.Skipped? {
        FailsOnlyWhenDenied(job, files[1..], matches, next, true);
      } else {
        FailsOnlyWhenDenied(job, files[1..], matches + Hits(job, files[0], Pieces(reading.content)), next, incomplete);
      }
    }
  }

  // ------------------------------------------------- from discovery to the answer

  function FilePaths(entries: seq<FileEntry>): seq<Path> {
    if entries == [] then []
    else (if entries[0].kind == File then [entries[0].relativePath] else []) + FilePaths(entries[1..])
  }

  lemma {:induction false} FilePathsMean(entries: seq<FileEntry>, path: Path)
    ensures path in FilePaths(entries)
         <==> exists entry | entry in entries :: entry.kind == File && entry.relativePath == path
  {
    if entries != [] {
      FilePathsMean(entries[1..], path);
      assert entries == [entries[0]] + entries[1..];
    }
  }

  lemma {:induction false} AllHitsMean(job: Job, files: seq<Path>, m: SearchMatch)
    ensures m in AllHits(job, files) <==> exists path | path in files :: m in FileHits(job, path)
  {
    hide FileHits;
    if files != [] {
      AllHitsMean(job, files[1..], m);
      assert files == [files[0]] + files[1..];
    }
  }

  /** `located` and `relocated` are the checks of the root before and after discovery,
      `cloned` whether its capability could be duplicated; `warned` whether discovery
      left warnings. */
  method SearchContent(job: Job, located: bool, discovered: Result<DiscoveryReport, DiscoveryError>, warned: bool,
                       relocated: bool, cloned: bool, totalBudget: nat)
    returns (r: Result<SearchResult, SearchError>, ghost bytesRead: nat)
    requires TrimKeepsText(job.trim)
    ensures located && discovered.Ok? && relocated && cloned ==>
              r == SearchFrom(job, FilePaths(discovered.value.entries), [], Min(totalBudget, MAX_TOTAL_SEARCH_BYTES),
                              discovered.value.truncated || warned)
    ensures !located ==> r == Err(WorkspaceMoved)
    ensures located && discovered.Err? ==> r == Err(DiscoveryFailed(discovered.error))
    ensures located && discovered.Ok? && !(relocated && cloned) ==> r == Err(WorkspaceMoved)
    ensures bytesRead <= Min(totalBudget, MAX_TOTAL_SEARCH_BYTES) + 1
    ensures r.Ok? ==> |r.value.matches| <= job.options.maxResults
  {
    bytesRead := 0;
    if !located {
      return Err(WorkspaceMoved), bytesRead;
    }
    if discovered.Err? {
      return Err(DiscoveryFailed(discovered.error)), bytesRead;
    }
    if !relocated || !cloned {
      return Err(WorkspaceMoved), bytesRead;
    }
    var report := discovered.value;
    r, bytesRead := SearchFiles(job, FilePaths(report.entries), Min(totalBudget, MAX_TOTAL_SEARCH_BYTES),
                                report.truncated || warned);
  }

  /** A complete answer over a discovered tree holds a match for every matching line of
      every file that stands at the end of a permitted way, and nothing else. */
  lemma {:induction false} CompleteSearchFindsAll(job: Job, root: seq<DirEntry>, rules: seq<IgnoreFile>, w: Walk,
                                                  done: Outcome, warned: bool, budget: nat, m: SearchMatch)
    requires done == Scan([], Preorder(root, rules, w), w.options.maxEntries) && done.Done?
    requires Complete(SearchFrom(job, FilePaths(done.entries), [], budget, done.truncated || warned))
    ensures m in SearchFrom(job, FilePaths(done.entries), [], budget, done.truncated || warned).value.matches
       <==> exists entry: FileEntry, nodes | Stands(root, rules, nodes, entry.relativePath, entry, w) ::
              entry.kind == File && m in FileHits(job, entry.relativePath)
  {
    hide Reaches, Scan, Preorder, FileHits, SearchFrom, EverythingFits, Stands;
    var files := FilePaths(done.entries);
    CompleteIff(job, files, [], budget, done.truncated || warned);
    assert [] + AllHits(job, files) == AllHits(job, files);
    AllHitsMean(job, files, m);
    if path :| path in files && m in FileHits(job, path) {
      FilePathsMean(done.entries, path);
      var entry :| entry in done.entries && entry.kind == File && entry.relativePath == path;
      UntruncatedIsComplete(root, rules, w, entry);
      ReachedMeans(root, rules, path, entry, w);
      var nodes :| Stands(root, rules, nodes, path, entry, w);
      assert Stands(root, rules, nodes, entry.relativePath, entry, w);
    }
    if entry: FileEntry, nodes :| Stands(root, rules, nodes, entry.relativePath, entry, w)
                                  && entry.kind == File && m in FileHits(job, entry.relativePath) {
      StandsSomewhere(root, rules, nodes, entry, w);
      ReachedMeans(root, rules, entry.relativePath, entry, w);
      UntruncatedIsComplete(root, rules, w, entry);
      FilePathsMean(done.entries, entry.relativePath);
    }
  }

  lemma StandsSomewhere(root: seq<DirEntry>, rules: seq<IgnoreFile>, nodes: seq<DirEntry>, entry: FileEntry, w: Walk)
    requires Stands(root, rules, nodes, entry.relativePath, entry, w)
    ensures entry.relativePath != []
  {
  }
}
