/** Quick open (`search.rs`): greedy subsequence scores, a stable sort by score and
    path, and a cut at the number of results asked for. */
module QuickOpens {
  import opened Wrappers
  import opened Sorting
  import opened Paths
  import opened Discovery
  import TextBuffers

  // ------------------------------------------------------------------ the score

  /** The first place at or after `from` that holds `c`. */
  function IndexFrom(s: string, c: char, from: nat): (index: Option<nat>)
    requires from <= |s|
    ensures index.Some? ==> from <= index.value < |s| && s[index.value] == c
    decreases |s| - from
  {
    if from == |s| then None
    else if s[from] == c then Some(from)
    else IndexFrom(s, c, from + 1)
  }

  lemma {:induction false} IndexIsFirst(s: string, c: char, from: nat, place: nat)
    requires from <= place < |s| && s[place] == c
    ensures IndexFrom(s, c, from).Some? && IndexFrom(s, c, from).value <= place
    decreases |s| - from
  {
    if s[from] != c {
      IndexIsFirst(s, c, from + 1, place);
    }
  }

  /** Where a greedy match ends, and the bytes it stepped over. */
  datatype Greedy = Greedy(end: nat, skipped: nat)

  function GreedyFrom(candidate: string, query: string, from: nat): (found: Option<Greedy>)
    requires from <= |candidate|
    ensures found.Some? ==> from <= found.value.end <= |candidate|
    decreases |query|
  {
    if query == [] then Some(Greedy(from, 0))
    else
      var index := IndexFrom(candidate, query[0], from);
      if index.None? then None
      else
        var rest := GreedyFrom(candidate, query[1..], index.value + 1);
        if rest.None? then None
        else Some(Greedy(rest.value.end, TextBuffers.Utf8Length(candidate[from..index.value]) + rest.value.skipped))
  }

  function Score(candidate: string, query: string): Option<nat> {
    if query == [] then Some(TextBuffers.Utf8Length(candidate))
    else
      var greedy := GreedyFrom(candidate, query, 0);
      if greedy.None? then None else Some(greedy.value.skipped)
  }

  /** The search in bytes: `score` counts the bytes skipped, one find per character. */
  method SubsequenceScore(candidate: string, query: string) returns (score: Option<nat>)
    ensures score == Score(candidate, query)
  {
    if query == [] {
      return Some(TextBuffers.Utf8Length(candidate));
    }
    var next: nat := 0;
    var skipped: nat := 0;
    var k: nat := 0;
    ghost var whole := GreedyFrom(candidate, query, 0);
    assert query[0..] == query;
    while k < |query|
      invariant k <= |query| && next <= |candidate|
      invariant var rest := GreedyFrom(candidate, query[k..], next);
                whole == if rest.None? then None else Some(Greedy(rest.value.end, skipped + rest.value.skipped))
    {
      assert query[k..][0] == query[k] && query[k..][1..] == query[k + 1..];
      var index := IndexFrom(candidate, query[k], next);
      if index.None? {
        return None;
      }
      skipped := skipped + TextBuffers.Utf8Length(candidate[next..index.value]);
      next := index.value + 1;
      k := k + 1;
    }
    return Some(skipped);
  }

  /** Positions that spell `query` in `candidate`, in order, from `from` on. */
  ghost predicate Embeds(places: seq<nat>, candidate: string, query: string, from: nat) {
    && |places| == |query|
    && (forall i | 0 <= i < |places| :: from <= places[i] < |candidate| && candidate[places[i]] == query[i])
    && (forall i, j | 0 <= i < j < |places| :: places[i] < places[j])
  }

  ghost predicate IsSubsequence(query: string, candidate: string) {
    exists places :: Embeds(places, candidate, query, 0)
  }

  /** The greedy match ends no later than any other. */
  lemma {:induction false} GreedyIsLeast(candidate: string, query: string, from: nat, places: seq<nat>)
    requires from <= |candidate| && Embeds(places, candidate, query, from)
    ensures GreedyFrom(candidate, query, from).Some?
    ensures query != [] ==> GreedyFrom(candidate, query, from).value.end <= places[|places| - 1] + 1
    decreases |query|
  {
    if query != [] {
      IndexIsFirst(candidate, query[0], from, places[0]);
      var index := IndexFrom(candidate, query[0], from);
      GreedyIsLeast(candidate, query[1..], index.value + 1, places[1..]);
    }
  }

  /** A greedy match is an embedding that ends where it says. */
  lemma {:induction false} GreedyEmbeds(candidate: string, query: string, from: nat) returns (places: seq<nat>)
    requires from <= |candidate| && GreedyFrom(candidate, query, from).Some?
    ensures Embeds(places, candidate, query, from)
    ensures query != [] ==> GreedyFrom(candidate, query, from).value.end == places[|places| - 1] + 1
    decreases |query|
  {
    if query == [] {
      return [];
    }
    var index := IndexFrom(candidate, query[0], from).value;
    var rest := GreedyEmbeds(candidate, query[1..], index + 1);
    return [index] + rest;
  }

  lemma BytesAround(s: string, from: nat, index: nat, end: nat)
    requires from <= index < end <= |s|
    ensures TextBuffers.Utf8Length(s[from..end])
         == TextBuffers.Utf8Length(s[from..index]) + TextBuffers.Utf8Length([s[index]])
            + TextBuffers.Utf8Length(s[index + 1..end])
  {
    assert s[from..end] == s[from..index] + [s[index]] + s[index + 1..end];
    TextBuffers.Utf8LengthOfThree(s[from..index], [s[index]], s[index + 1..end]);
  }

  /** What is skipped and what is matched make up all the bytes up to the end. */
  lemma {:induction false} GreedyBytes(candidate: string, query: string, from: nat)
    requires from <= |candidate| && GreedyFrom(candidate, query, from).Some?
    ensures var greedy := GreedyFrom(candidate, query, from).value;
            greedy.skipped + TextBuffers.Utf8Length(query) == TextBuffers.Utf8Length(candidate[from..greedy.end])
    decreases |query|
  {
    var greedy := GreedyFrom(candidate, query, from).value;
    if query == [] {
      assert candidate[from..from] == [];
    } else {
      var index := IndexFrom(candidate, query[0], from).value;
      GreedyBytes(candidate, query[1..], index + 1);
      assert query == [query[0]] + query[1..];
      TextBuffers.Utf8LengthOfConcat([query[0]], query[1..]);
      BytesAround(candidate, from, index, greedy.end);
    }
  }

  /** The bytes up to the end of the last match, less those of the query. */
  ghost function Cost(places: seq<nat>, candidate: string, query: string): int
    requires Embeds(places, candidate, query, 0) && query != []
  {
    TextBuffers.Utf8Length(candidate[..places[|places| - 1] + 1]) - TextBuffers.Utf8Length(query)
  }

  /** A query scores exactly when it is a subsequence, and then its score is the least
      cost over all the ways to embed it. The empty one costs the whole path. */
  lemma ScoreIsLeastCost(candidate: string, query: string)
    ensures query == [] ==> Score(candidate, query) == Some(TextBuffers.Utf8Length(candidate))
    ensures Score(candidate, query).Some? <==> IsSubsequence(query, candidate)
    ensures query != [] && Score(candidate, query).Some? ==>
              && (exists places :: Embeds(places, candidate, query, 0)
                                   && Cost(places, candidate, query) == Score(candidate, query).value)
              && (forall places :: Embeds(places, candidate, query, 0) ==>
                                     Score(candidate, query).value <= Cost(places, candidate, query))
  {
    hide GreedyFrom, TextBuffers.Utf8Length;
    if query == [] {
      assert Embeds([], candidate, query, 0);
    } else {
      var greedy := GreedyFrom(candidate, query, 0);
      if greedy.Some? {
        var places := GreedyEmbeds(candidate, query, 0);
        GreedyBytes(candidate, query, 0);
        assert candidate[0..greedy.value.end] == candidate[..greedy.value.end];
        assert Cost(places, candidate, query) == greedy.value.skipped;
      }
      forall places | Embeds(places, candidate, query, 0)
        ensures greedy.Some? && greedy.value.skipped <= Cost(places, candidate, query)
      {
        GreedyIsLeast(candidate, query, 0, places);
        GreedyBytes(candidate, query, 0);
        var end, last := greedy.value.end, places[|places| - 1] + 1;
        assert candidate[..last] == candidate[0..end] + candidate[end..last];
        TextBuffers.Utf8LengthOfConcat(candidate[0..end], candidate[end..last]);
      }
    }
  }

  // ---------------------------------------------------------------- the ranking

  datatype QuickOpenCandidate = QuickOpenCandidate(relativePath: Path, score: nat)

  /** Lower scores first, then paths in order. */
  predicate CandidateLe(a: QuickOpenCandidate, b: QuickOpenCandidate) {
    || a.score < b.score
    || (a.score == b.score && (a.relativePath == b.relativePath || PathLess(a.relativePath, b.relativePath)))
  }

  lemma CandidateLeIsPreorder()
    ensures TotalPreorder(CandidateLe)
  {
    hide PathLess;
    forall a: QuickOpenCandidate, b: QuickOpenCandidate
      ensures CandidateLe(a, b) || CandidateLe(b, a)
    {
      PathOrder(a.relativePath, b.relativePath);
    }
    forall a: QuickOpenCandidate, b: QuickOpenCandidate, c: QuickOpenCandidate | CandidateLe(a, b) && CandidateLe(b, c)
      ensures CandidateLe(a, c)
    {
      if PathLess(a.relativePath, b.relativePath) && PathLess(b.relativePath, c.relativePath) {
        PathLessTransitive(a.relativePath, b.relativePath, c.relativePath);
      }
    }
  }

  predicate Offered(entry: FileEntry, includeIgnored: bool) {
    entry.kind == File && (includeIgnored || !entry.ignored)
  }

  /** `shown` is a path's lower-cased text; `query` is lower-cased already. */
  function Matching(entries: seq<FileEntry>, query: string, includeIgnored: bool, shown: Path -> string)
    : seq<QuickOpenCandidate>
  {
    if entries == [] then []
    else
      var last := entries[|entries| - 1];
      var before := Matching(entries[..|entries| - 1], query, includeIgnored, shown);
      var score := Score(shown(last.relativePath), query);
      if Offered(last, includeIgnored) && score.Some? then before + [QuickOpenCandidate(last.relativePath, score.value)]
      else before
  }

  function Cut(ranked: seq<QuickOpenCandidate>, maxResults: nat): seq<QuickOpenCandidate> {
    if |ranked| <= maxResults then ranked else ranked[..maxResults]
  }

  method QuickOpenCandidates(entries: seq<FileEntry>, query: string, maxResults: nat, includeIgnored: bool,
                             lower: string -> string, shown: Path -> string)
    returns (candidates: seq<QuickOpenCandidate>)
    ensures candidates == Cut(StableSort(CandidateLe, Matching(entries, lower(query), includeIgnored, shown)),
                              maxResults)
  {
    var lowered := lower(query);
    candidates := [];
    var i := 0;
    while i < |entries|
      invariant i <= |entries|
      invariant candidates == Matching(entries[..i], lowered, includeIgnored, shown)
    {
      var entry := entries[i];
      assert entries[..i + 1][..i] == entries[..i];
      i := i + 1;
      if Offered(entry, includeIgnored) {
        var score := SubsequenceScore(shown(entry.relativePath), lowered);
        if score.Some? {
          candidates := candidates + [QuickOpenCandidate(entry.relativePath, score.value)];
        }
      }
    }
    assert entries[..i] == entries;
    candidates := StableSort(CandidateLe, candidates);
    if |candidates| > maxResults {
      candidates := candidates[..maxResults];
    }
  }

  /** Exactly the offered files whose path scores are candidates. */
  lemma {:induction false} MatchingIff(entries: seq<FileEntry>, query: string, includeIgnored: bool,
                                       shown: Path -> string, candidate: QuickOpenCandidate)
    ensures candidate in Matching(entries, query, includeIgnored, shown)
       <==> exists entry | entry in entries ::
              && Offered(entry, includeIgnored) && entry.relativePath == candidate.relativePath
              && Score(shown(entry.relativePath), query) == Some(candidate.score)
  {
    if entries != [] {
      var last := |entries| - 1;
      MatchingIff(entries[..last], query, includeIgnored, shown, candidate);
      assert entries == entries[..last] + [entries[last]];
    }
  }

  lemma CutSplits(ranked: seq<QuickOpenCandidate>, n: nat)
    requires n <= |ranked| && SortedBy(CandidateLe, ranked)
    ensures SortedBy(CandidateLe, ranked[..n])
    ensures multiset(ranked[..n]) + multiset(ranked[n..]) == multiset(ranked)
    ensures forall k, d | k in ranked[..n] && d in ranked[n..] :: CandidateLe(k, d)
  {
    hide CandidateLe;
    assert ranked == ranked[..n] + ranked[n..];
    forall k, d | k in ranked[..n] && d in ranked[n..]
      ensures CandidateLe(k, d)
    {
      var i :| 0 <= i < n && ranked[..n][i] == k;
      var j :| 0 <= j < |ranked| - n && ranked[n..][j] == d;
      assert ranked[i] == k && ranked[n + j] == d;
    }
  }

  /** The answer is sorted, holds as many candidates as it may, and no candidate that
      is left out ranks before one that is kept. */
  lemma KeptRankFirst(matching: seq<QuickOpenCandidate>, maxResults: nat)
    ensures var kept := Cut(StableSort(CandidateLe, matching), maxResults);
            && SortedBy(CandidateLe, kept)
            && |kept| == (if |matching| <= maxResults then |matching| else maxResults)
            && exists dropped: seq<QuickOpenCandidate> ::
                 && multiset(kept) + multiset(dropped) == multiset(matching)
                 && forall k, d | k in kept && d in dropped :: CandidateLe(k, d)
  {
    hide CandidateLe, StableSort, SortedBy;
    var ranked := StableSort(CandidateLe, matching);
    CandidateLeIsPreorder();
    StableSortSorts(CandidateLe, matching);
    StableSortPermutes(CandidateLe, matching);
    var n := if |ranked| <= maxResults then |ranked| else maxResults;
    assert ranked[..n] == Cut(ranked, maxResults);
    CutSplits(ranked, n);
  }

  /** `a` may stand before `b`: a lower score, or the same and an earlier path. */
  predicate MayPrecede(a: QuickOpenCandidate, b: QuickOpenCandidate) {
    && a.score <= b.score
    && (a.score == b.score && a.relativePath != b.relativePath ==> PathLess(a.relativePath, b.relativePath))
  }

  /** A file the search looks at, and what it makes of it. */
  ghost predicate Candidate(entries: seq<FileEntry>, query: string, includeIgnored: bool, shown: Path -> string,
                            candidate: QuickOpenCandidate)
  {
    exists entry | entry in entries ::
      && entry.kind == File && (entry.ignored ==> includeIgnored)
      && entry.relativePath == candidate.relativePath
      && IsSubsequence(query, shown(entry.relativePath))
      && Score(shown(entry.relativePath), query) == Some(candidate.score)
  }

  /** What quick open answers: candidates only, the lowest scores first, equal scores by
      path; and a candidate is only missing when the answer is full of ones that may
      all stand before it. */
  lemma {:induction false} AnswerRanks(entries: seq<FileEntry>, query: string, maxResults: nat, includeIgnored: bool,
                                       shown: Path -> string, candidate: QuickOpenCandidate)
    ensures var answer := Cut(StableSort(CandidateLe, Matching(entries, query, includeIgnored, shown)), maxResults);
            && |answer| <= maxResults
            && (forall i, j | 0 <= i < j < |answer| :: MayPrecede(answer[i], answer[j]))
            && (candidate in answer ==> Candidate(entries, query, includeIgnored, shown, candidate))
            && (Candidate(entries, query, includeIgnored, shown, candidate) && candidate !in answer ==>
                  |answer| == maxResults && forall kept | kept in answer :: MayPrecede(kept, candidate))
  {
    hide Matching, Candidate, MayPrecede, StableSort, Cut;
    MatchingAreCandidates(entries, query, includeIgnored, shown, candidate);
    CutRanks(Matching(entries, query, includeIgnored, shown), maxResults, candidate);
  }

  lemma {:induction false} CutRanks(matching: seq<QuickOpenCandidate>, maxResults: nat, candidate: QuickOpenCandidate)
    ensures var answer := Cut(StableSort(CandidateLe, matching), maxResults);
            && |answer| <= maxResults
            && (forall i, j | 0 <= i < j < |answer| :: MayPrecede(answer[i], answer[j]))
            && (candidate in answer ==> candidate in matching)
            && (candidate in matching && candidate !in answer ==>
                  |answer| == maxResults && forall kept | kept in answer :: MayPrecede(kept, candidate))
  {
    hide StableSort, SortedBy, CandidateLe, MayPrecede;
    var ranked := StableSort(CandidateLe, matching);
    CandidateLeIsPreorder();
    StableSortSorts(CandidateLe, matching);
    StableSortPermutes(CandidateLe, matching);
    assert candidate in matching <==> candidate in multiset(matching);
    assert candidate in ranked <==> candidate in multiset(ranked);
    if |ranked| <= maxResults {
      SortedMayPrecede(ranked);
    } else {
      CutSplits(ranked, maxResults);
      SortedMayPrecede(ranked[..maxResults]);
      assert ranked == ranked[..maxResults] + ranked[maxResults..];
      forall kept | kept in ranked[..maxResults] && candidate in ranked[maxResults..]
        ensures MayPrecede(kept, candidate)
      {
        LeMayPrecede(kept, candidate);
      }
    }
  }

  lemma LeMayPrecede(a: QuickOpenCandidate, b: QuickOpenCandidate)
    ensures CandidateLe(a, b) <==> MayPrecede(a, b)
  {
  }

  lemma SortedMayPrecede(ranked: seq<QuickOpenCandidate>)
    requires SortedBy(CandidateLe, ranked)
    ensures forall i, j | 0 <= i < j < |ranked| :: MayPrecede(ranked[i], ranked[j])
  {
    hide CandidateLe, MayPrecede;
    forall i, j | 0 <= i < j < |ranked|
      ensures MayPrecede(ranked[i], ranked[j])
    {
      LeMayPrecede(ranked[i], ranked[j]);
    }
  }

  lemma {:induction false} MatchingAreCandidates(entries: seq<FileEntry>, query: string, includeIgnored: bool,
                                                 shown: Path -> string, candidate: QuickOpenCandidate)
    ensures candidate in Matching(entries, query, includeIgnored, shown)
       <==> Candidate(entries, query, includeIgnored, shown, candidate)
  {
    hide Matching, Score, IsSubsequence;
    MatchingIff(entries, query, includeIgnored, shown, candidate);
    ScoreIsLeastCost(shown(candidate.relativePath), query);
  }
}
