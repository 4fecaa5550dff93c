/** Listing a workspace (`discovery.rs`): a depth-first walk with sorted siblings,
    a stack of ignore files, pruning and an entry limit. */
module Discovery {
  import opened Wrappers
  import opened Sorting
  import opened Paths

  datatype DiscoveryOptions = DiscoveryOptions(showHidden: bool, showIgnored: bool, maxEntries: nat)

  datatype FileKind = Directory | File | Symlink

  datatype FileEntry = FileEntry(relativePath: Path, kind: FileKind, depth: nat, hidden: bool, ignored: bool)

  datatype DiscoveryReport = DiscoveryReport(entries: seq<FileEntry>, truncated: bool)

  datatype DiscoveryError = WorkspaceChanged | Io

  /** A loaded `.gitignore`, `.ignore` or `.git/info/exclude`. */
  datatype IgnoreFile = IgnoreFile(directory: Path, lines: seq<string>)

  datatype Verdict = Undecided | Ignored | Whitelisted

  /** The matching library: what one ignore file says of a path. */
  type Matcher = (IgnoreFile, Path, bool) -> Verdict

  /** One entry of a directory, in the order the file system returns them. A folder
      whose listing is unreadable cannot be opened or read; an unclassified entry has no
      readable file type. */
  datatype DirEntry =
    | Leaf(name: string, symlink: bool)
    | Folder(name: string, rules: seq<IgnoreFile>, listing: Listing)
    | Unclassified(name: string)

  datatype Listing = Entries(entries: seq<DirEntry>) | Unreadable

  // --------------------------------------------------------- siblings in order

  predicate EntryLe(a: DirEntry, b: DirEntry) { NameLe(a.name, b.name) }

  function Siblings(es: seq<DirEntry>): seq<DirEntry> { StableSort(EntryLe, es) }

  // ------------------------------------------------------------ sizes, to recurse

  function Size(e: DirEntry): (size: nat)
    ensures size >= 1
  {
    if e.Folder? && e.listing.Entries? then 1 + SizeAll(e.listing.entries) else 1
  }

  function SizeAll(es: seq<DirEntry>): nat {
    if es == [] then 0 else Size(es[0]) + SizeAll(es[1..])
  }

  lemma {:induction false} InsertKeepsSize(e: DirEntry, es: seq<DirEntry>)
    ensures SizeAll(Insert(EntryLe, e, es)) == Size(e) + SizeAll(es)
  {
    var r := Insert(EntryLe, e, es);
    if es == [] || EntryLe(e, es[0]) {
      assert r[1..] == es;
    } else {
      InsertKeepsSize(e, es[1..]);
      assert r[1..] == Insert(EntryLe, e, es[1..]);
    }
  }

  lemma {:induction false} SortKeepsSize(es: seq<DirEntry>)
    ensures SizeAll(Siblings(es)) == SizeAll(es)
  {
    if es != [] {
      SortKeepsSize(es[1..]);
      InsertKeepsSize(es[0], Siblings(es[1..]));
    }
  }

  // -------------------------------------------------------------- what is visible

  predicate HasDotComponent(path: Path) {
    exists i | 0 <= i < |path| :: path[i] != "" && path[i][0] == '.'
  }

  predicate HasHeavyComponent(path: Path) {
    exists i | 0 <= i < |path| :: path[i] in [".git", "node_modules", "target"]
  }

  /** The innermost ignore file that has an opinion decides. */
  predicate IgnoredBy(stack: seq<IgnoreFile>, path: Path, isDirectory: bool, matcher: Matcher) {
    if stack == [] then false
    else
      var last := |stack| - 1;
      match matcher(stack[last], path, isDirectory)
      case Ignored => true
      case Whitelisted => false
      case Undecided => IgnoredBy(stack[..last], path, isDirectory, matcher)
  }

  predicate DecidedAt(stack: seq<IgnoreFile>, path: Path, isDirectory: bool, matcher: Matcher, i: nat)
    requires i < |stack|
  {
    && matcher(stack[i], path, isDirectory) == Ignored
    && forall j | i < j < |stack| :: matcher(stack[j], path, isDirectory) == Undecided
  }

  lemma {:induction false} IgnoredByMeans(stack: seq<IgnoreFile>, path: Path, isDirectory: bool, matcher: Matcher)
    ensures IgnoredBy(stack, path, isDirectory, matcher)
       <==> exists i: nat | i < |stack| :: DecidedAt(stack, path, isDirectory, matcher, i)
  {
    if stack != [] {
      var last := |stack| - 1;
      if matcher(stack[last], path, isDirectory) == Undecided {
        IgnoredByMeans(stack[..last], path, isDirectory, matcher);
        if i: nat :| i < |stack[..last]| && DecidedAt(stack[..last], path, isDirectory, matcher, i) {
          assert DecidedAt(stack, path, isDirectory, matcher, i);
        }
        if i: nat :| i < |stack| && DecidedAt(stack, path, isDirectory, matcher, i) {
          assert DecidedAt(stack[..last], path, isDirectory, matcher, i);
        }
      } else if matcher(stack[last], path, isDirectory) == Ignored {
        assert DecidedAt(stack, path, isDirectory, matcher, last);
      }
    }
  }

  function EntryOf(e: DirEntry, base: Path, stack: seq<IgnoreFile>, matcher: Matcher): FileEntry {
    var path := base + [e.name];
    FileEntry(path, if e.Folder? then Directory else if e.Leaf? && e.symlink then Symlink else File, |path|,
              HasDotComponent(path), IgnoredBy(stack, path, e.Folder?, matcher) || HasHeavyComponent(path))
  }

  predicate Shown(entry: FileEntry, options: DiscoveryOptions) {
    && (options.showHidden || !entry.hidden)
    && (options.showIgnored || !entry.ignored)
  }

  // ------------------------------------------------- the walk without a limit

  datatype Walk = Walk(options: DiscoveryOptions, matcher: Matcher)

  /** What the walk meets, in order: an entry it lists or passes over, or one that
      makes it fail. A listed folder that is not `readable` fails once listed. */
  datatype Visit = Seen(entry: FileEntry, listed: bool, readable: bool) | NoType

  function VisitOf(e: DirEntry, base: Path, stack: seq<IgnoreFile>, w: Walk): Visit {
    if e.Unclassified? then NoType
    else
      var entry := EntryOf(e, base, stack, w.matcher);
      Seen(entry, Shown(entry, w.options), e.Folder? ==> e.listing.Entries?)
  }

  predicate Entered(e: DirEntry, base: Path, stack: seq<IgnoreFile>, w: Walk) {
    e.Folder? && e.listing.Entries? && Shown(EntryOf(e, base, stack, w.matcher), w.options)
  }

  function Inside(e: DirEntry, base: Path, stack: seq<IgnoreFile>, w: Walk): seq<Visit>
    decreases Size(e), 0
  {
    if Entered(e, base, stack, w) then
      SortKeepsSize(e.listing.entries);
      Visits(Siblings(e.listing.entries), base + [e.name], stack + e.rules, w)
    else []
  }

  /** Depth first, a folder before what it holds, siblings as `es` orders them. */
  function Visits(es: seq<DirEntry>, base: Path, stack: seq<IgnoreFile>, w: Walk): seq<Visit>
    decreases SizeAll(es), 1
  {
    if es == [] then []
    else
      [VisitOf(es[0], base, stack, w)]
      + Inside(es[0], base, stack, w)
      + Visits(es[1..], base, stack, w)
  }

  /** The entries the walk lists when nothing stops it. */
  function Listed(vs: seq<Visit>): seq<FileEntry> {
    if vs == [] then [] else Own(vs[0]) + Listed(vs[1..])
  }

  function Own(v: Visit): seq<FileEntry> {
    if v.Seen? && v.listed then [v.entry] else []
  }

  lemma {:induction false} ListedOfConcat(a: seq<Visit>, b: seq<Visit>)
    ensures Listed(a + b) == Listed(a) + Listed(b)
  {
    if a == [] {
      assert a + b == b;
    } else {
      hide Own;
      ListedOfConcat(a[1..], b);
      assert (a + b)[0] == a[0] && (a + b)[1..] == a[1..] + b;
      Rebracket(Own(a[0]), Listed(a[1..]), Listed(b));
    }
  }

  // --------------------------------------------------------- the walk with a limit

  datatype Outcome = Failed | Done(entries: seq<FileEntry>, truncated: bool)

  predicate Breaks(v: Visit) { v.NoType? || (v.listed && !v.readable) }

  /** Takes the visits in order until the list is full, one fails, or none is left. */
  function Scan(entries: seq<FileEntry>, vs: seq<Visit>, limit: nat): Outcome
    requires |entries| <= limit
    decreases |vs|
  {
    if vs == [] then Done(entries, false)
    else if |entries| == limit then Done(entries, true)
    else if Breaks(vs[0]) then Failed
    else Scan(if vs[0].listed then entries + [vs[0].entry] else entries, vs[1..], limit)
  }

  lemma {:induction false} ScanOfConcat(entries: seq<FileEntry>, a: seq<Visit>, b: seq<Visit>, limit: nat)
    requires |entries| <= limit
    ensures Scan(entries, a, limit).Done? ==> |entries| <= |Scan(entries, a, limit).entries| <= limit
    ensures Scan(entries, a + b, limit)
         == var first := Scan(entries, a, limit);
            if first.Done? && !first.truncated then Scan(first.entries, b, limit) else first
    decreases |a|
  {
    if a == [] {
      assert a + b == b;
    } else {
      assert (a + b)[1..] == a[1..] + b;
      if |entries| < limit && !Breaks(a[0]) {
        ScanOfConcat(if a[0].listed then entries + [a[0].entry] else entries, a[1..], b, limit);
      }
    }
  }

  /** The list is full before visit `k` is looked at. */
  predicate FullBefore(vs: seq<Visit>, k: nat, room: nat)
    requires k <= |vs|
  {
    |Listed(vs[..k])| >= room
  }

  lemma ListedStep(vs: seq<Visit>, k: nat)
    requires 0 < k <= |vs|
    ensures Listed(vs[..k]) == Own(vs[0]) + Listed(vs[1..][..k - 1])
  {
    assert vs[..k][1..] == vs[1..][..k - 1];
  }

  function First(all: seq<FileEntry>, limit: nat): seq<FileEntry> {
    if |all| <= limit then all else all[..limit]
  }

  lemma ListedHead(entries: seq<FileEntry>, vs: seq<Visit>)
    requires vs != [] && vs[0].Seen?
    ensures (if vs[0].listed then entries + [vs[0].entry] else entries) + Listed(vs[1..]) == entries + Listed(vs)
  {
  }

  /** The limited walk lists the first entries of the unlimited one, as many as there
      is room for. */
  lemma {:induction false} ScanIsPrefix(entries: seq<FileEntry>, vs: seq<Visit>, limit: nat)
    requires |entries| <= limit && Scan(entries, vs, limit).Done?
    ensures Scan(entries, vs, limit).entries == First(entries + Listed(vs), limit)
    ensures !Scan(entries, vs, limit).truncated ==> |entries + Listed(vs)| <= limit
    decreases |vs|
  {
    if vs == [] {
      assert entries + Listed(vs) == entries;
    } else if |entries| == limit {
      assert (entries + Listed(vs))[..limit] == entries;
    } else {
      ListedHead(entries, vs);
      ScanIsPrefix(if vs[0].listed then entries + [vs[0].entry] else entries, vs[1..], limit);
    }
  }

  /** It is reported as truncated exactly when some visit, to be listed or not, finds
      the list full. */
  lemma {:induction false} ScanTruncatedIff(entries: seq<FileEntry>, vs: seq<Visit>, limit: nat)
    requires |entries| <= limit && Scan(entries, vs, limit).Done?
    ensures Scan(entries, vs, limit).truncated <==> vs != [] && FullBefore(vs, |vs| - 1, limit - |entries|)
    decreases |vs|
  {
    if vs != [] {
      if |entries| < limit {
        ScanTruncatedIff(if vs[0].listed then entries + [vs[0].entry] else entries, vs[1..], limit);
        if |vs| > 1 {
          ListedStep(vs, |vs| - 1);
        }
      }
    }
  }

  /** It fails exactly when a visit that fails is reached before the list is full. */
  lemma {:induction false} ScanFailsIff(entries: seq<FileEntry>, vs: seq<Visit>, limit: nat)
    requires |entries| <= limit
    ensures Scan(entries, vs, limit).Failed?
       <==> exists k: nat | k < |vs| :: Breaks(vs[k]) && !FullBefore(vs, k, limit - |entries|)
    decreases |vs|
  {
    if vs != [] && |entries| < limit {
      if Breaks(vs[0]) {
        assert !FullBefore(vs, 0, limit - |entries|);
      } else {
        var more := if vs[0].listed then entries + [vs[0].entry] else entries;
        ScanFailsIff(more, vs[1..], limit);
        forall k: nat {:trigger FullBefore(vs[1..], k, limit - |more|)} | k < |vs| - 1
          ensures FullBefore(vs[1..], k, limit - |more|) == FullBefore(vs, k + 1, limit - |entries|)
        {
          ListedStep(vs, k + 1);
        }
        if k: nat :| k < |vs| && Breaks(vs[k]) && !FullBefore(vs, k, limit - |entries|) {
          assert Breaks(vs[1..][k - 1]) && !FullBefore(vs[1..], k - 1, limit - |more|);
        }
        if k: nat :| k < |vs| - 1 && Breaks(vs[1..][k]) && !FullBefore(vs[1..], k, limit - |more|) {
          assert Breaks(vs[k + 1]) && !FullBefore(vs, k + 1, limit - |entries|);
        }
      }
    }
  }

  // ---------------------------------------------------------- the walk itself

  /** `CapabilityDiscovery`, together with the stack of ignore files the walk carries. */
  class CapabilityDiscovery {
    const walk: Walk
    var entries: seq<FileEntry>
    var truncated: bool
    var ignores: seq<IgnoreFile>

    constructor (walk: Walk, ignores: seq<IgnoreFile>)
      ensures this.walk == walk && this.ignores == ignores && entries == [] && !truncated
    {
      this.walk := walk;
      this.ignores := ignores;
      entries := [];
      truncated := false;
    }

    /** Walks one directory and what lies below it. On success the entries are those
        of the limited scan of the preorder, and the ignore stack is as it was. */
    method WalkCapability(listing: Listing, relativeDirectory: Path, depth: nat) returns (r: Result<(), DiscoveryError>)
      requires !truncated && |entries| <= walk.options.maxEntries && depth == |relativeDirectory|
      modifies this
      ensures r.Err? ==> r.error == Io
      ensures r.Ok? ==> ignores == old(ignores)
      ensures if listing.Unreadable? then r.Err?
              else Agrees(Scan(old(entries), Visits(Siblings(listing.entries), relativeDirectory, old(ignores), walk),
                               walk.options.maxEntries), r)
      decreases if listing.Entries? then SizeAll(listing.entries) else 0
    {
      hide Visits, VisitOf, Inside, EntryOf, Siblings, Scan, Shown;
      if listing.Unreadable? {
        return Err(Io);
      }
      var sorted := Siblings(listing.entries);
      ghost var all := Visits(sorted, relativeDirectory, ignores, walk);
      SortKeepsSize(listing.entries);
      var i := 0;
      while i < |sorted|
        invariant i <= |sorted| && SizeAll(sorted[i..]) <= SizeAll(sorted)
        invariant !truncated && |entries| <= walk.options.maxEntries && ignores == old(ignores)
        invariant Scan(old(entries), all, walk.options.maxEntries)
               == Scan(entries, Visits(sorted[i..], relativeDirectory, ignores, walk), walk.options.maxEntries)
      {
        var e := sorted[i];
        ghost var rest := Visits(sorted[i + 1..], relativeDirectory, ignores, walk);
        VisitsStep(sorted, i, relativeDirectory, ignores, walk);
        VisitStep(entries, e, relativeDirectory, ignores, walk, rest);
        if |entries| == walk.options.maxEntries {
          truncated := true;
          return Ok(());
        }
        if e.Unclassified? {
          return Err(Io);
        }
        var entry := EntryOf(e, relativeDirectory, ignores, walk.matcher);
        if Shown(entry, walk.options) {
          entries := entries + [entry];
          if e.Folder? {
            var previousLen := |ignores|;
            ghost var before := ignores;
            if e.listing.Unreadable? {
              return Err(Io);
            }
            ignores := ignores + e.rules;
            InsideIs(e, relativeDirectory, before, walk);
            ScanOfConcat(entries, Inside(e, relativeDirectory, before, walk), rest, walk.options.maxEntries);
            r := WalkCapability(e.listing, relativeDirectory + [e.name], depth + 1);
            if r.Err? {
              return;
            }
            ignores := ignores[..previousLen];
            if truncated {
              return;
            }
          }
        }
        i := i + 1;
      }
      ScanOfNone(entries, sorted, relativeDirectory, ignores, walk);
      return Ok(());
    }

    predicate Agrees(outcome: Outcome, r: Result<(), DiscoveryError>)
      reads this
    {
      if outcome.Failed? then r.Err?
      else r.Ok? && entries == outcome.entries && truncated == outcome.truncated
    }
  }

  lemma VisitsStep(es: seq<DirEntry>, i: nat, base: Path, stack: seq<IgnoreFile>, w: Walk)
    requires i < |es|
    ensures Visits(es[i..], base, stack, w)
         == [VisitOf(es[i], base, stack, w)] + (Inside(es[i], base, stack, w) + Visits(es[i + 1..], base, stack, w))
    ensures SizeAll(es[i..]) == Size(es[i]) + SizeAll(es[i + 1..])
  {
    assert es[i..][1..] == es[i + 1..];
  }

  lemma InsideIs(e: DirEntry, base: Path, stack: seq<IgnoreFile>, w: Walk)
    requires Shown(EntryOf(e, base, stack, w.matcher), w.options) && e.Folder? && e.listing.Entries?
    ensures Inside(e, base, stack, w) == Visits(Siblings(e.listing.entries), base + [e.name], stack + e.rules, w)
    ensures SizeAll(e.listing.entries) < Size(e)
  {
  }

  lemma ScanOfNone(entries: seq<FileEntry>, es: seq<DirEntry>, base: Path, stack: seq<IgnoreFile>, w: Walk)
    requires |entries| <= w.options.maxEntries
    ensures Scan(entries, Visits(es[|es|..], base, stack, w), w.options.maxEntries) == Done(entries, false)
  {
  }

  /** One turn of the loop, on the visits that are left. */
  lemma VisitStep(entries: seq<FileEntry>, e: DirEntry, base: Path, stack: seq<IgnoreFile>, w: Walk, rest: seq<Visit>)
    requires |entries| <= w.options.maxEntries
    ensures Scan(entries, [VisitOf(e, base, stack, w)] + (Inside(e, base, stack, w) + rest), w.options.maxEntries)
         == if |entries| == w.options.maxEntries then Done(entries, true)
            else if e.Unclassified? then Failed
            else if !Shown(EntryOf(e, base, stack, w.matcher), w.options) then Scan(entries, rest, w.options.maxEntries)
            else if e.Leaf? then Scan(entries + [EntryOf(e, base, stack, w.matcher)], rest, w.options.maxEntries)
            else if e.listing.Unreadable? then Failed
            else Scan(entries + [EntryOf(e, base, stack, w.matcher)], Inside(e, base, stack, w) + rest,
                      w.options.maxEntries)
  {
    hide Visits, IgnoredBy, HasDotComponent, HasHeavyComponent;
    var all := [VisitOf(e, base, stack, w)] + (Inside(e, base, stack, w) + rest);
    assert all[1..] == Inside(e, base, stack, w) + rest;
    if Inside(e, base, stack, w) == [] {
      assert all[1..] == rest;
    }
  }

  // ------------------------------------------------------------- the whole report

  function Preorder(root: seq<DirEntry>, rules: seq<IgnoreFile>, w: Walk): seq<Visit> {
    Visits(Siblings(root), [], rules, w)
  }

  /** `located` and `stillLocated` are the two checks that the display path names the
      retained root, `cloned` whether its capability could be duplicated. */
  function ReportOf(located: bool, cloned: bool, root: Listing, rules: seq<IgnoreFile>, stillLocated: bool, w: Walk)
    : Result<DiscoveryReport, DiscoveryError>
  {
    if !located || !cloned then Err(WorkspaceChanged)
    else if root.Unreadable? then Err(Io)
    else
      match Scan([], Preorder(root.entries, rules, w), w.options.maxEntries)
      case Failed => Err(Io)
      case Done(entries, truncated) =>
        if stillLocated then Ok(DiscoveryReport(entries, truncated)) else Err(WorkspaceChanged)
  }

  method DiscoverReportForRoot(located: bool, cloned: bool, root: Listing, rules: seq<IgnoreFile>, stillLocated: bool,
                               w: Walk)
    returns (r: Result<DiscoveryReport, DiscoveryError>)
    ensures r == ReportOf(located, cloned, root, rules, stillLocated, w)
    ensures r == Err(Io) ==> located && cloned
    ensures located && cloned && root.Unreadable? ==> r == Err(Io)
    ensures !located || !cloned ==> r == Err(WorkspaceChanged)
    ensures r.Ok? ==> stillLocated && |r.value.entries| <= w.options.maxEntries
  {
    if !located || !cloned {
      return Err(WorkspaceChanged);
    }
    var context := new CapabilityDiscovery(w, rules);
    var walked := context.WalkCapability(root, [], 0);
    if walked.Err? {
      return Err(walked.error);
    }
    if !stillLocated {
      return Err(WorkspaceChanged);
    }
    ScanIsPrefix([], Preorder(root.entries, rules, w), w.options.maxEntries);
    return Ok(DiscoveryReport(context.entries, context.truncated));
  }
}
