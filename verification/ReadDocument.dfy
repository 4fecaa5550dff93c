/** Reading and classifying a file chunk by chunk (`document.rs` of the file
    crate). A file is what its reads return, in the pieces they return it. */
module ReadDocuments {
  import opened Wrappers
  import opened Utf8

  const USIZE_MAX: nat := 0xFFFF_FFFF_FFFF_FFFF
  const BINARY_SNIFF_BYTES: nat := 8 * 1024

  /** A 64-bit machine word. */
  type Word = n: nat | n <= USIZE_MAX

  datatype ReadOptions = ReadOptions(maxEditableBytes: Word, previewBytes: Word, forceFull: bool)

  datatype DocumentKind = Text(readOnly: bool, truncated: bool) | Binary | InvalidUtf8

  /** The text is kept as its bytes; the revision is the digest of the content. */
  datatype DocumentRead = DocumentRead(kind: DocumentKind, text: Option<seq<Byte>>, size: nat, diskRevision: string)

  datatype ReadError = ReadFailed | InvalidData

  /** The reads end at the end of the file, or one of them fails. */
  datatype Ending = EndOfFile | Failure

  function SaturatingAdd(a: nat, b: nat): nat {
    if a + b > USIZE_MAX then USIZE_MAX else a + b
  }

  function SaturatingSub(a: nat, b: nat): nat {
    if a < b then 0 else a - b
  }

  function Min(a: nat, b: nat): nat { if a < b then a else b }

  function Max(a: nat, b: nat): nat { if a < b then b else a }

  function Joined(chunks: seq<seq<Byte>>): seq<Byte> {
    if chunks == [] then [] else Joined(chunks[..|chunks| - 1]) + chunks[|chunks| - 1]
  }

  function CaptureLimit(options: ReadOptions, metadataSize: Word): nat {
    if options.forceFull then USIZE_MAX
    else if metadataSize > options.maxEditableBytes then SaturatingAdd(options.previewBytes, 4)
    else Max(SaturatingAdd(options.maxEditableBytes, 1), SaturatingAdd(options.previewBytes, 4))
  }

  /** The whole characters at the front of a buffer. */
  function ValidPrefix(s: seq<Byte>): (prefix: seq<Byte>)
    ensures WellFormed(prefix) && prefix <= s
  {
    OkIffWellFormed(s);
    if FromUtf8(s).Ok? then s
    else
      ErrorSplits(s);
      s[..FromUtf8(s).error.validUpTo]
  }

  predicate HasNul(s: seq<Byte>) { 0 in s }

  /** What the read answers for a file with these bytes, however they arrive. */
  function Classified(file: seq<Byte>, options: ReadOptions, metadataSize: Word, digest: seq<Byte> -> string)
    : Result<DocumentRead, ReadError>
  {
    var captured := file[..Min(|file|, CaptureLimit(options, metadataSize))];
    var oversized := |file| > options.maxEditableBytes && !options.forceFull;
    if HasNul(file[..Min(|file|, BINARY_SNIFF_BYTES)]) then Ok(DocumentRead(Binary, None, |file|, digest(file)))
    else if !WellFormed(file) then Ok(DocumentRead(InvalidUtf8, None, |file|, digest(file)))
    else if oversized then
      Ok(DocumentRead(Text(true, true), Some(ValidPrefix(captured[..Min(options.previewBytes, |captured|)])),
                      |file|, digest(file)))
    else if WellFormed(captured) then
      Ok(DocumentRead(Text(false, false), Some(captured), |file|, digest(file)))
    else Err(InvalidData)
  }

  ghost predicate NulNearTheFront(file: seq<Byte>) {
    exists i :: 0 <= i < |file| && i < 8192 && file[i] == 0
  }

  /** What an answer says about the file. It is binary exactly when a zero byte lies in
      the first 8192, and otherwise invalid exactly when it is not well formed as a
      whole; neither comes with text. A text is a well-formed prefix of the file,
      read-only and truncated exactly when the file is too long to edit. The size and
      the digest are always those of the whole file. The one refusal is a file that
      shrank since its size was taken and was cut inside a character. */
  ghost predicate Verdict(file: seq<Byte>, options: ReadOptions, metadataSize: Word, digest: seq<Byte> -> string,
                          r: Result<DocumentRead, ReadError>)
  {
    var tooLong := |file| > options.maxEditableBytes && !options.forceFull;
    && (r.Ok? ==>
          var answer := r.value;
          && answer.size == |file| && answer.diskRevision == digest(file)
          && (answer.kind.Binary? <==> NulNearTheFront(file))
          && (answer.kind.InvalidUtf8? <==> !NulNearTheFront(file) && !WellFormed(file))
          && (answer.text == None <==> !answer.kind.Text?)
          && (answer.kind.Text? ==>
                && answer.kind.readOnly == tooLong && answer.kind.truncated == tooLong
                && answer.text.value <= file && WellFormed(answer.text.value)))
    && (r.Err? ==> r == Err(InvalidData))
    && (r.Err? <==>
          && !NulNearTheFront(file) && WellFormed(file) && !tooLong
          && !options.forceFull && metadataSize > options.maxEditableBytes
          && options.previewBytes + 4 < |file| && !WellFormed(file[..options.previewBytes + 4]))
  }

  /** While no byte has been refused the carry holds the cut-off character. */
  predicate CarryOk(read: seq<Byte>, carry: seq<Byte>) {
    && |carry| <= 3 && |carry| <= |read| && read[|read| - |carry|..] == carry
    && WellFormed(read[..|read| - |carry|])
    && (carry != [] ==> FrontOf(carry).CutOff?)
  }

  ghost predicate Refused(read: seq<Byte>) {
    forall more: seq<Byte> :: !WellFormed(read + more)
  }

  lemma CarryAccepts(read: seq<Byte>, done: seq<Byte>, carry: seq<Byte>)
    requires read == done + carry && WellFormed(done)
    requires carry != [] ==> FrontOf(carry).CutOff?
    ensures CarryOk(read, carry)
  {
    hide WellFormed, FrontOf;
    assert read[..|read| - |carry|] == done && read[|read| - |carry|..] == carry;
  }

  lemma CarryRefuses(done: seq<Byte>, buffer: seq<Byte>)
    requires WellFormed(done) && FromUtf8(buffer).Err? && FromUtf8(buffer).error.errorLen.Some?
    ensures Refused(done + buffer)
  {
    hide WellFormed, FromUtf8;
    forall more: seq<Byte>
      ensures !WellFormed(done + buffer + more)
    {
      FinalError(buffer, more);
      WellFormedAfter(done, buffer + more);
      assert done + (buffer + more) == done + buffer + more;
    }
  }

  /** One chunk through the carry. */
  lemma CarryStep(read: seq<Byte>, carry: seq<Byte>, chunk: seq<Byte>)
    requires CarryOk(read, carry)
    ensures var buffer := carry + chunk;
            match FromUtf8(buffer)
            case Ok(_) => CarryOk(read + chunk, [])
            case Err(e) =>
              if e.errorLen.None? then CarryOk(read + chunk, buffer[e.validUpTo..]) else Refused(read + chunk)
  {
    hide WellFormed, FromUtf8, FrontOf, Refused;
    var done := read[..|read| - |carry|];
    var buffer := carry + chunk;
    assert read == done + carry;
    assert read + chunk == done + buffer;
    match FromUtf8(buffer)
    case Ok(_) =>
      OkIffWellFormed(buffer);
      WellFormedAfter(done, buffer);
      CarryAccepts(read + chunk, read + chunk, []);
    case Err(e) =>
      ErrorSplits(buffer);
      if e.errorLen.None? {
        var kept, rest := buffer[..e.validUpTo], buffer[e.validUpTo..];
        WellFormedAfter(done, kept);
        assert read + chunk == (done + kept) + rest;
        CarryAccepts(read + chunk, done + kept, rest);
      } else {
        CarryRefuses(done, buffer);
      }
  }

  /** A cut-off character at the end of the file is not well formed. */
  lemma CarryDecides(read: seq<Byte>, carry: seq<Byte>)
    requires CarryOk(read, carry)
    ensures WellFormed(read) <==> carry == []
  {
    assert read == read[..|read| - |carry|] + carry;
    WellFormedAfter(read[..|read| - |carry|], carry);
    if carry != [] {
      WellFormedHead(carry);
    }
  }

  lemma {:induction false} JoinedStep(chunks: seq<seq<Byte>>, i: nat)
    requires i < |chunks|
    ensures Joined(chunks[..i + 1]) == Joined(chunks[..i]) + chunks[i]
  {
    assert chunks[..i + 1][..i] == chunks[..i];
  }

  /** A sniffed chunk adds to the verdict exactly its bytes before the limit. */
  lemma SniffStep(read: seq<Byte>, chunk: seq<Byte>)
    ensures var head := chunk[..Min(SaturatingSub(BINARY_SNIFF_BYTES, |read|), |chunk|)];
            HasNul((read + chunk)[..Min(|read + chunk|, BINARY_SNIFF_BYTES)])
            <==> HasNul(read[..Min(|read|, BINARY_SNIFF_BYTES)]) || HasNul(head)
  {
    var head := chunk[..Min(SaturatingSub(BINARY_SNIFF_BYTES, |read|), |chunk|)];
    assert (read + chunk)[..Min(|read + chunk|, BINARY_SNIFF_BYTES)] == read[..Min(|read|, BINARY_SNIFF_BYTES)] + head;
  }

  lemma CaptureStep(read: seq<Byte>, chunk: seq<Byte>, limit: nat)
    ensures (read + chunk)[..Min(|read + chunk|, limit)]
         == read[..Min(|read|, limit)] + chunk[..Min(SaturatingSub(limit, |read|), |chunk|)]
  {
  }

  lemma ReadNothing()
    ensures CarryOk([], []) && !HasNul([]) && Joined([]) == []
  {
  }

  lemma NoNulInNothing(bytes: seq<Byte>)
    ensures !HasNul(bytes[..0])
  {
  }

  lemma {:induction false} JoinedGrows(chunks: seq<seq<Byte>>, i: nat)
    requires i <= |chunks|
    ensures |Joined(chunks[..i])| <= |Joined(chunks)|
    decreases |chunks| - i
  {
    if i < |chunks| {
      JoinedStep(chunks, i);
      JoinedGrows(chunks, i + 1);
    } else {
      assert chunks[..i] == chunks;
    }
  }

  lemma RefusedGrows(read: seq<Byte>, bytes: seq<Byte>)
    requires Refused(read)
    ensures Refused(read + bytes)
  {
    forall more: seq<Byte>
      ensures !WellFormed(read + bytes + more)
    {
      assert read + bytes + more == read + (bytes + more);
    }
  }

  lemma RefusedIsNot(read: seq<Byte>)
    requires Refused(read)
    ensures !WellFormed(read)
  {
    assert read + [] == read;
  }

  /** The verdict, once the whole file has been read. */
  method Decide(ghost file: seq<Byte>, size: nat, captured: seq<Byte>, binary: bool, validUtf8: bool,
                options: ReadOptions, ghost metadataSize: Word, diskRevision: string, ghost digest: seq<Byte> -> string)
    returns (r: Result<DocumentRead, ReadError>)
    requires size == |file| && diskRevision == digest(file)
    requires captured == file[..Min(|file|, CaptureLimit(options, metadataSize))]
    requires binary <==> HasNul(file[..Min(|file|, BINARY_SNIFF_BYTES)])
    requires validUtf8 <==> WellFormed(file)
    ensures r == Classified(file, options, metadataSize, digest)
  {
    hide WellFormed, FromUtf8, HasNul;
    if binary {
      return Ok(DocumentRead(Binary, None, size, diskRevision));
    }
    if !validUtf8 {
      return Ok(DocumentRead(InvalidUtf8, None, size, diskRevision));
    }
    var oversized := size > options.maxEditableBytes && !options.forceFull;
    if oversized {
      var end := Min(options.previewBytes, |captured|);
      var checked := FromUtf8(captured[..end]);
      var validEnd := if checked.Ok? then end else checked.error.validUpTo;
      PrefixOfValid(captured[..end]);
      assert captured[..validEnd] == ValidPrefix(captured[..end]);
      return Ok(DocumentRead(Text(true, true), Some(captured[..validEnd]), size, diskRevision));
    }
    OkIffWellFormed(captured);
    if FromUtf8(captured).Err? {
      return Err(InvalidData);
    }
    r := Ok(DocumentRead(Text(false, false), Some(captured), size, diskRevision));
  }

  lemma PrefixOfValid(s: seq<Byte>)
    ensures ValidPrefix(s) == if FromUtf8(s).Ok? then s else s[..FromUtf8(s).error.validUpTo]
  {
  }

  lemma {:induction false} SniffedHead(file: seq<Byte>)
    ensures HasNul(file[..Min(|file|, BINARY_SNIFF_BYTES)]) <==> NulNearTheFront(file)
  {
    var head := file[..Min(|file|, BINARY_SNIFF_BYTES)];
    if NulNearTheFront(file) {
      var i :| 0 <= i < |file| && i < 8192 && file[i] == 0;
      assert head[i] == 0;
    }
  }

  lemma {:induction false} ClassifiedIsVerdict(file: seq<Byte>, options: ReadOptions, metadataSize: Word,
                                               digest: seq<Byte> -> string)
    requires |file| <= USIZE_MAX
    ensures Verdict(file, options, metadataSize, digest, Classified(file, options, metadataSize, digest))
  {
    hide WellFormed, HasNul, NulNearTheFront, FromUtf8;
    SniffedHead(file);
    var limit := CaptureLimit(options, metadataSize);
    if |file| <= limit {
      assert file[..|file|] == file;
    }
  }

  /** Each read returns a non-empty piece; the first empty one is the end. */
  method ReadDocument(chunks: seq<seq<Byte>>, ending: Ending, options: ReadOptions, metadataSize: Word,
                      digest: seq<Byte> -> string)
    returns (r: Result<DocumentRead, ReadError>)
    requires forall i | 0 <= i < |chunks| :: chunks[i] != []
    requires |Joined(chunks)| <= USIZE_MAX
    ensures r == if ending == Failure then Err(ReadFailed)
                 else Classified(Joined(chunks), options, metadataSize, digest)
    ensures ending == EndOfFile ==> Verdict(Joined(chunks), options, metadataSize, digest, r)
  {
    hide Verdict, CarryOk, Refused, HasNul, FromUtf8, WellFormed, Joined, CaptureLimit, Classified;
    var captureLimit := CaptureLimit(options, metadataSize);
    var captured: seq<Byte>, hashed: seq<Byte>, carry: seq<Byte> := [], [], [];
    var validUtf8, binary, size := true, false, 0;
    ghost var read: seq<Byte> := [];
    ReadNothing();
    assert chunks[..0] == [];
    for i := 0 to |chunks|
      invariant read == Joined(chunks[..i]) && size == |read| && hashed == read
      invariant binary <==> HasNul(read[..Min(|read|, BINARY_SNIFF_BYTES)])
      invariant captured == read[..Min(|read|, captureLimit)]
      invariant if validUtf8 then CarryOk(read, carry) else Refused(read)
    {
      var bytes := chunks[i];
      JoinedStep(chunks, i);
      JoinedGrows(chunks, i + 1);
      SniffStep(read, bytes);
      CaptureStep(read, bytes, captureLimit);
      size := SaturatingAdd(size, |bytes|);
      hashed := hashed + bytes;
      if size <= BINARY_SNIFF_BYTES || size - |bytes| < BINARY_SNIFF_BYTES {
        var sniffStart := size - |bytes|;
        var sniffLen := Min(SaturatingSub(BINARY_SNIFF_BYTES, sniffStart), |bytes|);
        binary := binary || HasNul(bytes[..sniffLen]);
      } else {
        NoNulInNothing(bytes);
      }
      if |captured| < captureLimit {
        var remaining := captureLimit - |captured|;
        captured := captured + bytes[..Min(remaining, |bytes|)];
      }
      if validUtf8 {
        CarryStep(read, carry, bytes);
        carry := carry + bytes;
        match FromUtf8(carry)
        case Ok(_) => carry := [];
        case Err(error) =>
          if error.errorLen.None? {
            carry := carry[error.validUpTo..];
          } else {
            validUtf8 := false;
          }
      } else {
        RefusedGrows(read, bytes);
      }
      read := read + bytes;
    }
    assert chunks[..|chunks|] == chunks;
    if ending == Failure {
      return Err(ReadFailed);
    }
    if validUtf8 {
      CarryDecides(read, carry);
    } else {
      RefusedIsNot(read);
    }
    validUtf8 := validUtf8 && carry == [];
    ClassifiedIsVerdict(read, options, metadataSize, digest);
    r := Decide(read, size, captured, binary, validUtf8, options, metadataSize, digest(hashed), digest);
  }

  // ------------------------------------------------------ what the verdict means

  /** An oversized file is shown read-only, as the longest run of whole characters
      within its first `previewBytes` bytes; at most three bytes are given up. */
  lemma PreviewIsLongest(file: seq<Byte>, options: ReadOptions, metadataSize: Word, digest: seq<Byte> -> string, m: nat)
    requires WellFormed(file) && !HasNul(file[..Min(|file|, BINARY_SNIFF_BYTES)])
    requires |file| > options.maxEditableBytes && !options.forceFull && |file| <= USIZE_MAX
    ensures var r := Classified(file, options, metadataSize, digest);
            && r.Ok? && r.value.kind == Text(true, true) && r.value.text.Some?
            && var text, end := r.value.text.value, Min(options.previewBytes, |file|);
               && text <= file[..end] && WellFormed(text)
               && (m <= end && WellFormed(file[..m]) ==> m <= |text|)
               && |text| + 3 >= end
  {
    hide FrontOf;
    var limit, end := CaptureLimit(options, metadataSize), Min(options.previewBytes, |file|);
    var captured := file[..Min(|file|, limit)];
    assert captured[..Min(options.previewBytes, |captured|)] == file[..end];
    var s := file[..end];
    ShortTail(file, end);
    if m <= end && WellFormed(file[..m]) {
      assert s[..m] == file[..m];
      if FromUtf8(s).Err? {
        LongestValidPrefix(s, m);
      }
    }
  }

  /** A prefix of a well-formed file breaks off within its last three bytes. */
  lemma ShortTail(file: seq<Byte>, end: nat)
    requires WellFormed(file) && end <= |file|
    ensures |ValidPrefix(file[..end])| + 3 >= end
  {
    var s := file[..end];
    if FromUtf8(s).Err? {
      assert file == s + file[end..];
      if FromUtf8(s).error.errorLen.Some? {
        FinalError(s, file[end..]);
      }
      ErrorSplits(s);
    }
  }

  /** An editable result is the complete file exactly when the file fits what the
      size taken before reading let the loop capture. */
  lemma EditableIsWholeIff(file: seq<Byte>, options: ReadOptions, metadataSize: Word, digest: seq<Byte> -> string)
    requires WellFormed(file) && !HasNul(file[..Min(|file|, BINARY_SNIFF_BYTES)])
    requires (|file| <= options.maxEditableBytes || options.forceFull) && |file| <= USIZE_MAX
    ensures Classified(file, options, metadataSize, digest)
            == Ok(DocumentRead(Text(false, false), Some(file), |file|, digest(file)))
       <==> options.forceFull || metadataSize <= options.maxEditableBytes
            || |file| <= SaturatingAdd(options.previewBytes, 4)
  {
    if |file| <= CaptureLimit(options, metadataSize) {
      assert file[..|file|] == file;
    }
  }

  /** So a file whose length did not change since is never cut short. */
  lemma StableLengthIsWhole(file: seq<Byte>, options: ReadOptions, digest: seq<Byte> -> string)
    requires WellFormed(file) && !HasNul(file[..Min(|file|, BINARY_SNIFF_BYTES)])
    requires (|file| <= options.maxEditableBytes || options.forceFull) && |file| <= USIZE_MAX
    ensures Classified(file, options, |file|, digest)
            == Ok(DocumentRead(Text(false, false), Some(file), |file|, digest(file)))
  {
    EditableIsWholeIff(file, options, |file|, digest);
  }

  /** A file that shrank between the size check and the read is not: its first
      bytes are handed out as an editable, untruncated document. */
  lemma {:induction false} ShrunkFileIsCutShort(digest: seq<Byte> -> string)
    ensures var file: seq<Byte> := [0x61, 0x61, 0x61, 0x61, 0x61];
            Classified(file, ReadOptions(5, 0, false), 6, digest)
            == Ok(DocumentRead(Text(false, false), Some([0x61, 0x61, 0x61, 0x61]), 5, digest(file)))
  {
    var file: seq<Byte> := [0x61, 0x61, 0x61, 0x61, 0x61];
    LettersAreWellFormed(file);
    LettersAreWellFormed(file[..4]);
    assert file[..4] == [0x61, 0x61, 0x61, 0x61];
    assert file[..5] == file;
  }

  lemma {:induction false} LettersAreWellFormed(s: seq<Byte>)
    requires forall i | 0 <= i < |s| :: s[i] == 0x61
    ensures WellFormed(s)
    decreases |s|
  {
    if s != [] {
      LettersAreWellFormed(s[1..]);
      assert Utf8One(s[..1]);
      assert Utf8Char(s[..1]);
    }
  }
}
