/** UTF-8 as section 4 of RFC 3629 defines it, and the validation that
    `std::str::from_utf8` performs on a buffer that may end mid-character. */
module Utf8 {
  import opened Wrappers

  type Byte = b: nat | b < 256

  // ------------------------------------------------- the grammar of the standard

  predicate Tail(b: Byte) { 0x80 <= b <= 0xBF }

  predicate Utf8One(s: seq<Byte>) {
    |s| == 1 && s[0] <= 0x7F
  }

  predicate Utf8Two(s: seq<Byte>) {
    |s| == 2 && 0xC2 <= s[0] <= 0xDF && Tail(s[1])
  }

  predicate Utf8Three(s: seq<Byte>) {
    |s| == 3 &&
    (|| (s[0] == 0xE0 && 0xA0 <= s[1] <= 0xBF && Tail(s[2]))
     || (0xE1 <= s[0] <= 0xEC && Tail(s[1]) && Tail(s[2]))
     || (s[0] == 0xED && 0x80 <= s[1] <= 0x9F && Tail(s[2]))
     || (0xEE <= s[0] <= 0xEF && Tail(s[1]) && Tail(s[2])))
  }

  predicate Utf8Four(s: seq<Byte>) {
    |s| == 4 &&
    (|| (s[0] == 0xF0 && 0x90 <= s[1] <= 0xBF && Tail(s[2]) && Tail(s[3]))
     || (0xF1 <= s[0] <= 0xF3 && Tail(s[1]) && Tail(s[2]) && Tail(s[3]))
     || (s[0] == 0xF4 && 0x80 <= s[1] <= 0x8F && Tail(s[2]) && Tail(s[3])))
  }

  predicate Utf8Char(s: seq<Byte>) {
    Utf8One(s) || Utf8Two(s) || Utf8Three(s) || Utf8Four(s)
  }

  /** `UTF8-octets = *( UTF8-char )` */
  predicate WellFormed(s: seq<Byte>)
    decreases |s|
  {
    s == [] || exists n | 1 <= n <= |s| :: Utf8Char(s[..n]) && WellFormed(s[n..])
  }

  // ------------------------------------------------------- the library's decoder

  /** What stands at the front of a buffer: a character, the start of one that the
      buffer cuts off, or bytes that start none. */
  datatype Front = Char(width: nat) | CutOff | Bad(errorLen: nat)

  predicate SecondFits(first: Byte, second: Byte) {
    if first == 0xE0 then 0xA0 <= second <= 0xBF
    else if first == 0xED then 0x80 <= second <= 0x9F
    else if first == 0xF0 then 0x90 <= second <= 0xBF
    else if first == 0xF4 then 0x80 <= second <= 0x8F
    else Tail(second)
  }

  /** The width a first byte announces; zero when it announces none. */
  function Announced(first: Byte): nat {
    if first <= 0x7F then 1
    else if 0xC2 <= first <= 0xDF then 2
    else if 0xE0 <= first <= 0xEF then 3
    else if 0xF0 <= first <= 0xF4 then 4
    else 0
  }

  function FrontOf(s: seq<Byte>): (front: Front)
    requires s != []
    ensures front.Char? ==> 1 <= front.width <= |s|
    ensures front.CutOff? ==> |s| < Announced(s[0])
  {
    var width := Announced(s[0]);
    if width == 0 then Bad(1)
    else if width == 1 then Char(1)
    else if |s| < 2 then CutOff
    else if !SecondFits(s[0], s[1]) then Bad(1)
    else if width == 2 then Char(2)
    else if |s| < 3 then CutOff
    else if !Tail(s[2]) then Bad(2)
    else if width == 3 then Char(3)
    else if |s| < 4 then CutOff
    else if !Tail(s[3]) then Bad(3)
    else Char(4)
  }

  /** `Utf8Error`: how far the buffer is valid, and the length of the offending
      sequence, or `None` when the buffer merely ends too early. */
  datatype Utf8Error = Utf8Error(validUpTo: nat, errorLen: Option<nat>)

  function FromUtf8(s: seq<Byte>): (r: Result<(), Utf8Error>)
    ensures r.Err? ==> r.error.validUpTo < |s|
    decreases |s|
  {
    if s == [] then Ok(())
    else
      var front := FrontOf(s);
      match front
      case CutOff => Err(Utf8Error(0, None))
      case Bad(errorLen) => Err(Utf8Error(0, Some(errorLen)))
      case Char(width) =>
        var rest := FromUtf8(s[width..]);
        if rest.Ok? then Ok(()) else Err(Utf8Error(width + rest.error.validUpTo, rest.error.errorLen))
  }

  // ----------------------------------------------------------- the two agree

  /** The first byte of a character fixes its width: characters are prefix-free. */
  lemma CharWidth(s: seq<Byte>, n: nat)
    requires n <= |s| && Utf8Char(s[..n])
    ensures n == Announced(s[0])
  {
    assert s[..n][0] == s[0];
  }

  lemma FrontIsChar(s: seq<Byte>)
    requires s != []
    ensures FrontOf(s).Char? <==> exists n | 1 <= n <= |s| :: Utf8Char(s[..n])
    ensures FrontOf(s).Char? ==> Utf8Char(s[..FrontOf(s).width])
  {
    if FrontOf(s).Char? {
      var n := FrontOf(s).width;
      assert Utf8Char(s[..n]) by {
        var c := s[..n];
        assert |c| == n && c[0] == s[0] && (n > 1 ==> c[1] == s[1]) && (n > 2 ==> c[2] == s[2])
               && (n > 3 ==> c[3] == s[3]);
      }
    }
    if n :| 1 <= n <= |s| && Utf8Char(s[..n]) {
      CharWidth(s, n);
      var c := s[..n];
      assert c[0] == s[0] && (n > 1 ==> c[1] == s[1]) && (n > 2 ==> c[2] == s[2]) && (n > 3 ==> c[3] == s[3]);
    }
  }

  /** Bytes after a bad front cannot repair it. */
  lemma BadStaysBad(s: seq<Byte>, more: seq<Byte>)
    requires s != [] && FrontOf(s).Bad?
    ensures FrontOf(s + more).Bad?
  {
  }

  lemma WellFormedHead(s: seq<Byte>)
    requires s != []
    ensures WellFormed(s) <==> FrontOf(s).Char? && WellFormed(s[FrontOf(s).width..])
  {
    FrontIsChar(s);
    if WellFormed(s) {
      var n :| 1 <= n <= |s| && Utf8Char(s[..n]) && WellFormed(s[n..]);
      CharWidth(s, n);
      CharWidth(s, FrontOf(s).width);
    }
  }

  /** The decoder accepts exactly the octet strings of the grammar. */
  lemma {:induction false} OkIffWellFormed(s: seq<Byte>)
    ensures FromUtf8(s).Ok? <==> WellFormed(s)
    decreases |s|
  {
    if s != [] {
      WellFormedHead(s);
      if FrontOf(s).Char? {
        OkIffWellFormed(s[FrontOf(s).width..]);
      }
    }
  }

  lemma FrontOfLonger(s: seq<Byte>, more: seq<Byte>)
    requires s != [] && FrontOf(s).Char?
    ensures FrontOf(s + more) == FrontOf(s)
  {
  }

  /** A well-formed prefix can be taken off. */
  lemma {:induction false} WellFormedAfter(p: seq<Byte>, q: seq<Byte>)
    requires WellFormed(p)
    ensures WellFormed(p + q) <==> WellFormed(q)
    decreases |p|
  {
    if p == [] {
      assert p + q == q;
    } else {
      WellFormedHead(p);
      var width := FrontOf(p).width;
      FrontOfLonger(p, q);
      WellFormedHead(p + q);
      WellFormedAfter(p[width..], q);
      assert (p + q)[width..] == p[width..] + q;
    }
  }

  lemma OneCharacter(s: seq<Byte>)
    requires s != [] && FrontOf(s).Char?
    ensures WellFormed(s[..FrontOf(s).width])
  {
    FrontIsChar(s);
    var c := s[..FrontOf(s).width];
    assert c[..|c|] == c && c[|c|..] == [];
  }

  lemma EmptyIsWellFormed(s: seq<Byte>)
    ensures WellFormed(s[..0]) && s[0..] == s
  {
  }

  /** Where an error is found the prefix is well formed, and the rest starts no
      character; when the error has a length, nothing appended can help. */
  lemma {:induction false} ErrorSplits(s: seq<Byte>)
    requires FromUtf8(s).Err?
    ensures var e := FromUtf8(s).error;
            && WellFormed(s[..e.validUpTo])
            && !FrontOf(s[e.validUpTo..]).Char?
            && (e.errorLen.None? <==> FrontOf(s[e.validUpTo..]).CutOff?)
    decreases |s|
  {
    hide WellFormed, FrontOf;
    var e := FromUtf8(s).error;
    if FrontOf(s).Char? {
      var width := FrontOf(s).width;
      ErrorSplits(s[width..]);
      var rest := FromUtf8(s[width..]).error.validUpTo;
      assert s[width..][rest..] == s[e.validUpTo..];
      assert s[..e.validUpTo] == s[..width] + s[width..][..rest];
      OneCharacter(s);
      WellFormedAfter(s[..width], s[width..][..rest]);
    } else {
      EmptyIsWellFormed(s);
    }
  }

  /** The valid prefix is the longest one made of whole characters. */
  lemma LongestValidPrefix(s: seq<Byte>, m: nat)
    requires FromUtf8(s).Err? && m <= |s| && WellFormed(s[..m])
    ensures m <= FromUtf8(s).error.validUpTo
  {
    hide WellFormed, FrontOf, FromUtf8;
    var n := FromUtf8(s).error.validUpTo;
    ErrorSplits(s);
    if m > n {
      assert s[..m] == s[..n] + s[n..m];
      WellFormedAfter(s[..n], s[n..m]);
      assert s[n..m] + s[m..] == s[n..];
      WellFormedHead(s[n..m]);
      FrontOfLonger(s[n..m], s[m..]);
    }
  }

  /** An error with a length is final, whatever follows. */
  lemma FinalError(s: seq<Byte>, more: seq<Byte>)
    requires FromUtf8(s).Err? && FromUtf8(s).error.errorLen.Some?
    ensures !WellFormed(s + more)
  {
    var n := FromUtf8(s).error.validUpTo;
    ErrorSplits(s);
    assert s + more == s[..n] + (s[n..] + more);
    WellFormedAfter(s[..n], s[n..] + more);
    BadStaysBad(s[n..], more);
    WellFormedHead(s[n..] + more);
  }
}
