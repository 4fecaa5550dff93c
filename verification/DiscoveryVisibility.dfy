/** What a listing shows and what stops it, said of the tree alone. */
module DiscoveryVisibility {
  import opened Wrappers
  import opened Sorting
  import opened Paths
  import opened Discovery
  import opened DiscoveryProperties

  // ------------------------------------------------------ what being shown means

  /** `nodes` lead down along `path`: each is named by its component and has a readable
      type, and each but the last is a folder that holds the next. */
  predicate Leads(es: seq<DirEntry>, nodes: seq<DirEntry>, path: Path) {
    && |nodes| == |path| > 0 && nodes[0] in es
    && (forall k | 0 <= k < |nodes| :: nodes[k].name == path[k] && !nodes[k].Unclassified?)
    && (forall k | 0 <= k < |nodes| - 1 ::
          nodes[k].Folder? && nodes[k].listing.Entries? && nodes[k + 1] in nodes[k].listing.entries)
  }

  /** The ignore files in force where node `k` stands, outermost first. */
  function RulesAbove(rules: seq<IgnoreFile>, nodes: seq<DirEntry>, k: nat): seq<IgnoreFile>
    requires k <= |nodes|
  {
    if k == 0 then rules
    else RulesAbove(rules, nodes, k - 1) + if nodes[k - 1].Folder? then nodes[k - 1].rules else []
  }

  /** The innermost ignore file with an opinion on node `k` ignores it. */
  predicate IgnoredAt(rules: seq<IgnoreFile>, nodes: seq<DirEntry>, path: Path, matcher: Matcher, k: nat)
    requires k < |nodes| == |path|
  {
    var files := RulesAbove(rules, nodes, k);
    exists i | 0 <= i < |files| ::
      && matcher(files[i], path[..k + 1], nodes[k].Folder?) == Ignored
      && forall j | i < j < |files| :: matcher(files[j], path[..k + 1], nodes[k].Folder?) == Undecided
  }

  predicate Dotted(name: string) { name != "" && name[0] == '.' }

  predicate Heavy(name: string) { name == ".git" || name == "node_modules" || name == "target" }

  /** A dotted component needs the option that shows hidden entries. A heavy one, or an
      ignore verdict on the entry or a folder above it, needs the other option. */
  predicate Permitted(rules: seq<IgnoreFile>, nodes: seq<DirEntry>, path: Path, w: Walk)
    requires |nodes| == |path|
  {
    forall k | 0 <= k < |path| ::
      && (Dotted(path[k]) ==> w.options.showHidden)
      && (Heavy(path[k]) || IgnoredAt(rules, nodes, path, w.matcher, k) ==> w.options.showIgnored)
  }

  /** What the entry of the last node says, read off the tree. */
  predicate Describes(rules: seq<IgnoreFile>, nodes: seq<DirEntry>, path: Path, matcher: Matcher, entry: FileEntry)
    requires |nodes| == |path| > 0
  {
    var last := nodes[|nodes| - 1];
    && entry.relativePath == path && entry.depth == |path|
    && (entry.kind == Directory <==> last.Folder?)
    && (entry.kind == Symlink <==> last.Leaf? && last.symlink)
    && (entry.hidden <==> exists k | 0 <= k < |path| :: Dotted(path[k]))
    && (entry.ignored <==> || IgnoredAt(rules, nodes, path, matcher, |path| - 1)
                           || exists k | 0 <= k < |path| :: Heavy(path[k]))
  }

  predicate Stands(root: seq<DirEntry>, rules: seq<IgnoreFile>, nodes: seq<DirEntry>, path: Path, entry: FileEntry,
                   w: Walk)
  {
    Leads(root, nodes, path) && Permitted(rules, nodes, path, w) && Describes(rules, nodes, path, w.matcher, entry)
  }

  /** Node `k`, as the walk sees it when it gets there. */
  function SeenAt(nodes: seq<DirEntry>, base: Path, stack: seq<IgnoreFile>, rest: Path, w: Walk, k: nat): FileEntry
    requires k < |nodes| == |rest|
  {
    EntryOf(nodes[k], base + rest[..k], RulesAbove(stack, nodes, k), w.matcher)
  }

  predicate AllShown(nodes: seq<DirEntry>, base: Path, stack: seq<IgnoreFile>, rest: Path, w: Walk)
    requires |nodes| == |rest|
  {
    forall k | 0 <= k < |nodes| :: Shown(SeenAt(nodes, base, stack, rest, w, k), w.options)
  }

  /** `Reaches`, with the nodes on the way named. */
  predicate Along(es: seq<DirEntry>, nodes: seq<DirEntry>, base: Path, stack: seq<IgnoreFile>, rest: Path,
                  entry: FileEntry, w: Walk)
  {
    && Leads(es, nodes, rest) && AllShown(nodes, base, stack, rest, w)
    && entry == SeenAt(nodes, base, stack, rest, w, |rest| - 1)
  }

  lemma {:induction false} RulesBelow(rules: seq<IgnoreFile>, nodes: seq<DirEntry>, k: nat)
    requires k < |nodes| && nodes[0].Folder?
    ensures RulesAbove(rules + nodes[0].rules, nodes[1..], k) == RulesAbove(rules, nodes, k + 1)
    decreases k
  {
    if k > 0 {
      RulesBelow(rules, nodes, k - 1);
    }
  }

  lemma {:induction false} SeenBelow(nodes: seq<DirEntry>, base: Path, stack: seq<IgnoreFile>, rest: Path, w: Walk,
                                     k: nat)
    requires k + 1 < |nodes| == |rest| && nodes[0].Folder?
    ensures SeenAt(nodes[1..], base + [rest[0]], stack + nodes[0].rules, rest[1..], w, k)
         == SeenAt(nodes, base, stack, rest, w, k + 1)
  {
    RulesBelow(stack, nodes, k);
    assert base + [rest[0]] + rest[1..][..k] == base + rest[..k + 1];
  }

  lemma {:induction false} LeadsBelow(es: seq<DirEntry>, nodes: seq<DirEntry>, path: Path)
    requires |nodes| == |path| > 1
    ensures Leads(es, nodes, path)
       <==> && nodes[0] in es && nodes[0].name == path[0] && nodes[0].Folder? && nodes[0].listing.Entries?
            && Leads(nodes[0].listing.entries, nodes[1..], path[1..])
  {
    var e, below := nodes[0], nodes[1..];
    assert below[0] == nodes[1];
    if e in es && e.name == path[0] && e.Folder? && e.listing.Entries? && Leads(e.listing.entries, below, path[1..]) {
      forall k | 0 <= k < |nodes|
        ensures nodes[k].name == path[k] && !nodes[k].Unclassified?
      {
        assert k > 0 ==> nodes[k] == below[k - 1] && path[k] == path[1..][k - 1];
      }
      forall k | 0 <= k < |nodes| - 1
        ensures nodes[k].Folder? && nodes[k].listing.Entries? && nodes[k + 1] in nodes[k].listing.entries
      {
        assert k > 0 ==> nodes[k] == below[k - 1] && nodes[k + 1] == below[k];
      }
    }
  }

  lemma {:induction false} AllShownBelow(nodes: seq<DirEntry>, base: Path, stack: seq<IgnoreFile>, rest: Path, w: Walk)
    requires |nodes| == |rest| > 1 && nodes[0].Folder?
    ensures AllShown(nodes, base, stack, rest, w)
       <==> && Shown(EntryOf(nodes[0], base, stack, w.matcher), w.options)
            && AllShown(nodes[1..], base + [rest[0]], stack + nodes[0].rules, rest[1..], w)
  {
    hide EntryOf, Shown, RulesAbove, SeenAt;
    FirstSeen(nodes, base, stack, rest, w);
    var below, inner, files, left := nodes[1..], base + [rest[0]], stack + nodes[0].rules, rest[1..];
    forall k: nat | k < |below|
      ensures SeenAt(below, inner, files, left, w, k) == SeenAt(nodes, base, stack, rest, w, k + 1)
    {
      SeenBelow(nodes, base, stack, rest, w, k);
    }
    if Shown(EntryOf(nodes[0], base, stack, w.matcher), w.options) && AllShown(below, inner, files, left, w) {
      forall k: nat | k < |nodes|
        ensures Shown(SeenAt(nodes, base, stack, rest, w, k), w.options)
      {
        if k > 0 {
          assert Shown(SeenAt(below, inner, files, left, w, k - 1), w.options);
        }
      }
    }
  }

  lemma {:induction false} AlongBelow(es: seq<DirEntry>, nodes: seq<DirEntry>, base: Path, stack: seq<IgnoreFile>,
                                      rest: Path, entry: FileEntry, w: Walk)
    requires |nodes| == |rest| > 1
    ensures Along(es, nodes, base, stack, rest, entry, w)
       <==> && nodes[0] in es && nodes[0].name == rest[0] && nodes[0].Folder? && nodes[0].listing.Entries?
            && Shown(EntryOf(nodes[0], base, stack, w.matcher), w.options)
            && Along(nodes[0].listing.entries, nodes[1..], base + [rest[0]], stack + nodes[0].rules, rest[1..], entry,
                     w)
  {
    hide Leads, EntryOf, Shown, RulesAbove, AllShown, SeenAt;
    LeadsBelow(es, nodes, rest);
    if nodes[0].Folder? {
      AllShownBelow(nodes, base, stack, rest, w);
      SeenBelow(nodes, base, stack, rest, w, |rest| - 2);
    }
  }

  /** Reaching an entry is standing at the end of such a way. */
  lemma {:induction false} ReachedAlong(es: seq<DirEntry>, base: Path, stack: seq<IgnoreFile>, rest: Path,
                                        entry: FileEntry, w: Walk)
    ensures Reaches(es, base, stack, rest, entry, w) <==> exists nodes :: Along(es, nodes, base, stack, rest, entry, w)
    decreases |rest|
  {
    hide EntryOf, Shown, Along;
    if Reaches(es, base, stack, rest, entry, w) {
      var e :| e in es && ReachesThrough(e, base, stack, rest, entry, w);
      if |rest| == 1 {
        AlongOne(es, [e], base, stack, rest, entry, w);
      } else {
        ReachedAlong(e.listing.entries, base + [e.name], stack + e.rules, rest[1..], entry, w);
        var below :| Along(e.listing.entries, below, base + [e.name], stack + e.rules, rest[1..], entry, w);
        AlongLength(e.listing.entries, below, base + [e.name], stack + e.rules, rest[1..], entry, w);
        assert ([e] + below)[1..] == below;
        AlongBelow(es, [e] + below, base, stack, rest, entry, w);
      }
    }
    if nodes: seq<DirEntry> :| Along(es, nodes, base, stack, rest, entry, w) {
      AlongLength(es, nodes, base, stack, rest, entry, w);
      if |rest| == 1 {
        AlongOne(es, nodes, base, stack, rest, entry, w);
      } else {
        AlongBelow(es, nodes, base, stack, rest, entry, w);
        ReachedAlong(nodes[0].listing.entries, base + [rest[0]], stack + nodes[0].rules, rest[1..], entry, w);
      }
      assert ReachesThrough(nodes[0], base, stack, rest, entry, w);
    }
  }

  lemma AlongLength(es: seq<DirEntry>, nodes: seq<DirEntry>, base: Path, stack: seq<IgnoreFile>, rest: Path,
                    entry: FileEntry, w: Walk)
    requires Along(es, nodes, base, stack, rest, entry, w)
    ensures |nodes| == |rest| > 0 && nodes[0] in es
  {
  }

  lemma AlongOne(es: seq<DirEntry>, nodes: seq<DirEntry>, base: Path, stack: seq<IgnoreFile>, rest: Path,
                 entry: FileEntry, w: Walk)
    requires |nodes| == |rest| == 1
    ensures Along(es, nodes, base, stack, rest, entry, w)
       <==> && nodes[0] in es && nodes[0].name == rest[0] && !nodes[0].Unclassified?
            && Shown(EntryOf(nodes[0], base, stack, w.matcher), w.options)
            && entry == EntryOf(nodes[0], base, stack, w.matcher)
  {
    hide EntryOf, Shown;
    FirstSeen(nodes, base, stack, rest, w);
  }

  lemma FirstSeen(nodes: seq<DirEntry>, base: Path, stack: seq<IgnoreFile>, rest: Path, w: Walk)
    requires |nodes| == |rest| > 0
    ensures SeenAt(nodes, base, stack, rest, w, 0) == EntryOf(nodes[0], base, stack, w.matcher)
  {
    assert base + rest[..0] == base;
  }

  lemma ComponentsUpTo(path: Path, k: nat)
    requires k < |path|
    ensures HasDotComponent(path[..k + 1]) <==> exists i | 0 <= i <= k :: Dotted(path[i])
    ensures HasHeavyComponent(path[..k + 1]) <==> exists i | 0 <= i <= k :: Heavy(path[i])
  {
    var front := path[..k + 1];
    assert forall i | 0 <= i <= k :: front[i] == path[i];
    if i :| 0 <= i <= k && Heavy(path[i]) {
      assert front[i] in [".git", "node_modules", "target"];
    }
    if i :| 0 <= i < |front| && front[i] in [".git", "node_modules", "target"] {
      assert Heavy(path[i]);
    }
    if i :| 0 <= i <= k && Dotted(path[i]) {
      assert front[i] != "" && front[i][0] == '.';
    }
    if i :| 0 <= i < |front| && front[i] != "" && front[i][0] == '.' {
      assert Dotted(path[i]);
    }
  }

  lemma IgnoredAtIs(rules: seq<IgnoreFile>, nodes: seq<DirEntry>, path: Path, matcher: Matcher, k: nat)
    requires k < |nodes| == |path|
    ensures IgnoredAt(rules, nodes, path, matcher, k)
       <==> IgnoredBy(RulesAbove(rules, nodes, k), path[..k + 1], nodes[k].Folder?, matcher)
  {
    hide IgnoredBy, RulesAbove;
    var files := RulesAbove(rules, nodes, k);
    IgnoredByMeans(files, path[..k + 1], nodes[k].Folder?, matcher);
    if IgnoredAt(rules, nodes, path, matcher, k) {
      var i :| 0 <= i < |files| && matcher(files[i], path[..k + 1], nodes[k].Folder?) == Ignored
               && forall j | i < j < |files| :: matcher(files[j], path[..k + 1], nodes[k].Folder?) == Undecided;
      assert DecidedAt(files, path[..k + 1], nodes[k].Folder?, matcher, i);
    }
  }

  lemma SeenMeans(rules: seq<IgnoreFile>, nodes: seq<DirEntry>, path: Path, w: Walk, k: nat)
    requires k < |nodes| == |path| && nodes[k].name == path[k]
    ensures var seen := SeenAt(nodes, [], rules, path, w, k);
            && seen.relativePath == path[..k + 1] && seen.depth == k + 1
            && seen.kind == (if nodes[k].Folder? then Directory
                             else if nodes[k].Leaf? && nodes[k].symlink then Symlink else File)
            && (seen.hidden <==> exists i | 0 <= i <= k :: Dotted(path[i]))
            && (seen.ignored <==> || IgnoredAt(rules, nodes, path, w.matcher, k)
                                  || exists i | 0 <= i <= k :: Heavy(path[i]))
  {
    hide IgnoredBy, RulesAbove, HasDotComponent, HasHeavyComponent, IgnoredAt, Dotted, Heavy;
    assert [] + path[..k] + [nodes[k].name] == path[..k + 1];
    ComponentsUpTo(path, k);
    IgnoredAtIs(rules, nodes, path, w.matcher, k);
  }

  lemma ShownIsPermitted(rules: seq<IgnoreFile>, nodes: seq<DirEntry>, path: Path, w: Walk)
    requires |nodes| == |path| && forall k | 0 <= k < |nodes| :: nodes[k].name == path[k]
    ensures AllShown(nodes, [], rules, path, w) <==> Permitted(rules, nodes, path, w)
  {
    hide SeenAt, IgnoredAt, Dotted, Heavy;
    forall k: nat | k < |nodes|
      ensures var seen := SeenAt(nodes, [], rules, path, w, k);
              && (seen.hidden <==> exists i | 0 <= i <= k :: Dotted(path[i]))
              && (seen.ignored <==> || IgnoredAt(rules, nodes, path, w.matcher, k)
                                    || exists i | 0 <= i <= k :: Heavy(path[i]))
    {
      SeenMeans(rules, nodes, path, w, k);
    }
    if AllShown(nodes, [], rules, path, w) {
      forall k: nat | k < |path|
        ensures Dotted(path[k]) ==> w.options.showHidden
        ensures Heavy(path[k]) || IgnoredAt(rules, nodes, path, w.matcher, k) ==> w.options.showIgnored
      {
        assert Shown(SeenAt(nodes, [], rules, path, w, k), w.options);
      }
    }
  }

  /** An entry is reached exactly when it stands at the end of a permitted way through
      the tree, and it then says of itself what the tree says. */
  lemma {:induction false} ReachedMeans(root: seq<DirEntry>, rules: seq<IgnoreFile>, path: Path, entry: FileEntry,
                                        w: Walk)
    ensures Reaches(root, [], rules, path, entry, w) <==> exists nodes :: Stands(root, rules, nodes, path, entry, w)
  {
    hide Reaches, AllShown, Permitted, IgnoredAt, SeenAt;
    ReachedAlong(root, [], rules, path, entry, w);
    forall nodes: seq<DirEntry>
      ensures Along(root, nodes, [], rules, path, entry, w) <==> Stands(root, rules, nodes, path, entry, w)
    {
      if Leads(root, nodes, path) {
        ShownIsPermitted(rules, nodes, path, w);
        SeenMeans(rules, nodes, path, w, |path| - 1);
        assert path[..|path| - 1 + 1] == path;
      }
    }
    if Reaches(root, [], rules, path, entry, w) {
      var nodes :| Along(root, nodes, [], rules, path, entry, w);
      assert Stands(root, rules, nodes, path, entry, w);
    }
    if nodes: seq<DirEntry> :| Stands(root, rules, nodes, path, entry, w) {
      assert Along(root, nodes, [], rules, path, entry, w);
    }
  }

  /** What a report lists, said of the tree alone. Every entry of every report stands at
      the end of a permitted way and describes it: a dotted component on the way only
      if hidden entries are shown; a heavy one, or an ignored folder or entry, only if
      ignored ones are. A report that is not truncated holds every such entry. */
  lemma {:induction false} ReportHoldsWhatStands(located: bool, cloned: bool, root: Listing, rules: seq<IgnoreFile>,
                                                 stillLocated: bool, w: Walk, entry: FileEntry)
    requires ReportOf(located, cloned, root, rules, stillLocated, w).Ok?
    ensures root.Entries?
    ensures var report := ReportOf(located, cloned, root, rules, stillLocated, w).value;
            var standing := exists nodes :: Stands(root.entries, rules, nodes, entry.relativePath, entry, w);
            && (entry in report.entries ==> standing)
            && (!report.truncated ==> (entry in report.entries <==> standing))
  {
    hide Listed, Visits, Scan, Reaches, PlacedWell, Stands, Permitted, Leads;
    var vs := Preorder(root.entries, rules, w);
    var path := entry.relativePath;
    ScanIsPrefix([], vs, w.options.maxEntries);
    assert [] + Listed(vs) == Listed(vs);
    ListedStands(root.entries, rules, w, entry);
  }

  lemma {:induction false} ListedStands(root: seq<DirEntry>, rules: seq<IgnoreFile>, w: Walk, entry: FileEntry)
    ensures entry in Listed(Preorder(root, rules, w))
       <==> exists nodes :: Stands(root, rules, nodes, entry.relativePath, entry, w)
  {
    hide Listed, Visits, Reaches, PlacedWell, Permitted, IgnoredAt;
    var path, listed := entry.relativePath, Listed(Preorder(root, rules, w));
    if path != [] {
      assert path == [] + path;
      ListedIffReached(Siblings(root), [], rules, path, entry, w);
      SiblingsReach(root, [], rules, path, entry, w);
      ReachedMeans(root, rules, path, entry, w);
    } else if entry in listed {
      VisitsParentsFirst(Siblings(root), [], rules, w);
      var k: nat :| k < |listed| && listed[k] == entry;
      assert PlacedWell(listed, k, []);
      PlacedIsBelow(listed, k, []);
    }
  }

  // ------------------------------------------------------- what makes it fail

  /** The walk cannot get past it: no readable type, or a folder that does not open. */
  predicate Unusable(e: DirEntry) {
    e.Unclassified? || (e.Folder? && e.listing.Unreadable?)
  }

  /** The walk is stopped at this entry or below it. An entry without a type is met
      whatever it is called; a folder only if it is shown. */
  ghost predicate Halts(e: DirEntry, base: Path, stack: seq<IgnoreFile>, w: Walk)
    decreases e
  {
    || (Unusable(e) && (e.Unclassified? || Shown(EntryOf(e, base, stack, w.matcher), w.options)))
    || (Entered(e, base, stack, w)
        && exists x | x in e.listing.entries :: Halts(x, base + [e.name], stack + e.rules, w))
  }

  ghost predicate HaltsAmong(es: seq<DirEntry>, base: Path, stack: seq<IgnoreFile>, w: Walk) {
    exists e | e in es :: Halts(e, base, stack, w)
  }

  predicate AnyBreaks(vs: seq<Visit>) { exists v | v in vs :: Breaks(v) }

  lemma AnyBreaksOfConcat(a: seq<Visit>, b: seq<Visit>)
    ensures AnyBreaks(a + b) <==> AnyBreaks(a) || AnyBreaks(b)
  {
    if v :| v in a && Breaks(v) {
      assert v in a + b;
    }
    if v :| v in b && Breaks(v) {
      assert v in a + b;
    }
  }

  lemma BreaksOfOne(e: DirEntry, base: Path, stack: seq<IgnoreFile>, w: Walk)
    ensures AnyBreaks([VisitOf(e, base, stack, w)])
       <==> Unusable(e) && (e.Unclassified? || Shown(EntryOf(e, base, stack, w.matcher), w.options))
    ensures AnyBreaks([]) == false
  {
    hide EntryOf, Shown;
    var v := VisitOf(e, base, stack, w);
    assert v in [v];
  }

  lemma SiblingsHalt(es: seq<DirEntry>, base: Path, stack: seq<IgnoreFile>, w: Walk)
    ensures HaltsAmong(Siblings(es), base, stack, w) <==> HaltsAmong(es, base, stack, w)
  {
    hide Halts;
    if e :| e in es && Halts(e, base, stack, w) {
      SiblingsMembers(es, e);
    }
    if e :| e in Siblings(es) && Halts(e, base, stack, w) {
      SiblingsMembers(es, e);
    }
  }

  lemma HaltsFirstOrRest(e: DirEntry, es: seq<DirEntry>, base: Path, stack: seq<IgnoreFile>, w: Walk)
    ensures HaltsAmong([e] + es, base, stack, w) <==> Halts(e, base, stack, w) || HaltsAmong(es, base, stack, w)
  {
    hide Halts;
    assert e in [e] + es;
    if x :| x in es && Halts(x, base, stack, w) {
      assert x in [e] + es;
    }
  }

  lemma HaltsIs(e: DirEntry, base: Path, stack: seq<IgnoreFile>, w: Walk)
    ensures Halts(e, base, stack, w)
       <==> || (Unusable(e) && (e.Unclassified? || Shown(EntryOf(e, base, stack, w.matcher), w.options)))
            || (Entered(e, base, stack, w) && HaltsAmong(e.listing.entries, base + [e.name], stack + e.rules, w))
  {
    hide EntryOf, Shown, Unusable;
  }

  /** The walk meets a visit that fails exactly when it is stopped somewhere. */
  lemma {:induction false} BreaksIffHalts(es: seq<DirEntry>, base: Path, stack: seq<IgnoreFile>, w: Walk)
    ensures AnyBreaks(Visits(es, base, stack, w)) <==> HaltsAmong(es, base, stack, w)
    decreases SizeAll(es), 2
  {
    hide Halts, HaltsAmong, AnyBreaks, EntryOf, Shown, VisitOf, Inside;
    if es == [] {
      NothingHalts(base, stack, w);
    } else {
      var e, others := es[0], es[1..];
      assert es == [e] + others;
      assert SizeAll(es) == Size(e) + SizeAll(others);
      BreaksIffHalts(others, base, stack, w);
      HaltsFirstOrRest(e, others, base, stack, w);
      HaltsIs(e, base, stack, w);
      BreaksOfOne(e, base, stack, w);
      InsideBreaks(e, base, stack, w);
      AnyBreaksOfConcat([VisitOf(e, base, stack, w)], Inside(e, base, stack, w));
      AnyBreaksOfConcat([VisitOf(e, base, stack, w)] + Inside(e, base, stack, w), Visits(others, base, stack, w));
    }
  }

  lemma NothingHalts(base: Path, stack: seq<IgnoreFile>, w: Walk)
    ensures !AnyBreaks(Visits([], base, stack, w)) && !HaltsAmong([], base, stack, w)
  {
  }

  lemma InsideBreaks(e: DirEntry, base: Path, stack: seq<IgnoreFile>, w: Walk)
    ensures AnyBreaks(Inside(e, base, stack, w))
       <==> Entered(e, base, stack, w) && HaltsAmong(e.listing.entries, base + [e.name], stack + e.rules, w)
    decreases Size(e), 1
  {
    hide AnyBreaks, Entered, Visits, HaltsAmong;
    BreaksOfOne(e, base, stack, w);
    if Entered(e, base, stack, w) {
      EnteredMeans(e, base, stack, w);
      SortKeepsSize(e.listing.entries);
      BreaksIffHalts(Siblings(e.listing.entries), base + [e.name], stack + e.rules, w);
      SiblingsHalt(e.listing.entries, base + [e.name], stack + e.rules, w);
    }
  }

  lemma EnteredMeans(e: DirEntry, base: Path, stack: seq<IgnoreFile>, w: Walk)
    requires Entered(e, base, stack, w)
    ensures e.Folder? && e.listing.Entries? && SizeAll(e.listing.entries) < Size(e)
  {
  }

  predicate HoldsUnclassified(es: seq<DirEntry>) { exists e | e in es :: e.Unclassified? }

  /** A folder that stands open to the walk and stops it. */
  predicate Stops(e: DirEntry) {
    e.Folder? && (e.listing.Unreadable? || HoldsUnclassified(e.listing.entries))
  }

  /** A way through shown folders to one that stops the walk. */
  predicate BlocksFrom(es: seq<DirEntry>, nodes: seq<DirEntry>, base: Path, stack: seq<IgnoreFile>, rest: Path,
                       w: Walk)
  {
    Leads(es, nodes, rest) && AllShown(nodes, base, stack, rest, w) && Stops(nodes[|nodes| - 1])
  }

  lemma BlocksOne(e: DirEntry, es: seq<DirEntry>, base: Path, stack: seq<IgnoreFile>, w: Walk)
    requires e in es && Stops(e)
    ensures BlocksFrom(es, [e], base, stack, [e.name], w) <==> Shown(EntryOf(e, base, stack, w.matcher), w.options)
  {
    hide EntryOf, Shown, Stops;
    assert e.Folder? by { StopsIsFolder(e); }
    FirstSeen([e], base, stack, [e.name], w);
  }

  lemma StopsIsFolder(e: DirEntry)
    requires Stops(e)
    ensures e.Folder?
  {
  }

  lemma BlocksBelow(es: seq<DirEntry>, nodes: seq<DirEntry>, base: Path, stack: seq<IgnoreFile>, rest: Path, w: Walk)
    requires |nodes| == |rest| > 1
    ensures BlocksFrom(es, nodes, base, stack, rest, w)
       <==> && nodes[0] in es && nodes[0].name == rest[0] && Entered(nodes[0], base, stack, w)
            && BlocksFrom(nodes[0].listing.entries, nodes[1..], base + [rest[0]], stack + nodes[0].rules, rest[1..], w)
  {
    hide Leads, EntryOf, Shown, RulesAbove, AllShown, SeenAt, Stops;
    LeadsBelow(es, nodes, rest);
    if nodes[0].Folder? {
      AllShownBelow(nodes, base, stack, rest, w);
    }
  }

  lemma {:induction false} HaltBlocks(e: DirEntry, es: seq<DirEntry>, base: Path, stack: seq<IgnoreFile>, w: Walk)
    returns (nodes: seq<DirEntry>, path: Path)
    requires e in es && Halts(e, base, stack, w) && !e.Unclassified?
    ensures BlocksFrom(es, nodes, base, stack, path, w)
    decreases e
  {
    hide EntryOf, Shown, BlocksFrom;
    HaltsIs(e, base, stack, w);
    if Entered(e, base, stack, w) && !HoldsUnclassified(e.listing.entries) {
      var x :| x in e.listing.entries && Halts(x, base + [e.name], stack + e.rules, w);
      nodes, path := HaltBlocks(x, e.listing.entries, base + [e.name], stack + e.rules, w);
      BlocksLength(e.listing.entries, nodes, base + [e.name], stack + e.rules, path, w);
      assert ([e] + nodes)[1..] == nodes && ([e.name] + path)[1..] == path;
      BlocksBelow(es, [e] + nodes, base, stack, [e.name] + path, w);
      nodes, path := [e] + nodes, [e.name] + path;
    } else {
      BlocksOne(e, es, base, stack, w);
      nodes, path := [e], [e.name];
    }
  }

  lemma BlocksLength(es: seq<DirEntry>, nodes: seq<DirEntry>, base: Path, stack: seq<IgnoreFile>, rest: Path, w: Walk)
    requires BlocksFrom(es, nodes, base, stack, rest, w)
    ensures |nodes| == |rest| > 0 && nodes[0] in es && nodes[0].name == rest[0] && nodes[0].Folder?
    ensures Shown(EntryOf(nodes[0], base, stack, w.matcher), w.options)
    ensures |nodes| == 1 ==> Stops(nodes[0])
  {
    hide EntryOf, Shown;
    FirstSeen(nodes, base, stack, rest, w);
  }

  lemma {:induction false} BlockHalts(es: seq<DirEntry>, nodes: seq<DirEntry>, base: Path, stack: seq<IgnoreFile>,
                                      rest: Path, w: Walk)
    requires BlocksFrom(es, nodes, base, stack, rest, w)
    ensures HaltsAmong(es, base, stack, w)
    decreases |nodes|
  {
    hide EntryOf, Shown, BlocksFrom, Halts;
    BlocksLength(es, nodes, base, stack, rest, w);
    var e := nodes[0];
    HaltsIs(e, base, stack, w);
    if |nodes| > 1 {
      BlocksBelow(es, nodes, base, stack, rest, w);
      BlockHalts(e.listing.entries, nodes[1..], base + [e.name], stack + e.rules, rest[1..], w);
    } else if e.listing.Entries? {
      var x :| x in e.listing.entries && x.Unclassified?;
      HaltsIs(x, base + [e.name], stack + e.rules, w);
      assert HaltsAmong(e.listing.entries, base + [e.name], stack + e.rules, w);
    }
    assert Halts(e, base, stack, w);
  }

  /** What stops the walk, said of the tree alone: an entry without a readable type at
      the top, or a permitted way to a folder that cannot be read or holds such an entry. */
  ghost predicate Blocked(root: seq<DirEntry>, rules: seq<IgnoreFile>, w: Walk) {
    || HoldsUnclassified(root)
    || exists nodes, path :: Leads(root, nodes, path) && Permitted(rules, nodes, path, w) && Stops(nodes[|nodes| - 1])
  }

  lemma {:induction false} BlockedHalts(root: seq<DirEntry>, rules: seq<IgnoreFile>, w: Walk)
    ensures Blocked(root, rules, w) <==> HaltsAmong(root, [], rules, w)
  {
    hide AllShown, Permitted, Stops, Halts;
    forall nodes: seq<DirEntry>, path: Path | Leads(root, nodes, path)
      ensures AllShown(nodes, [], rules, path, w) <==> Permitted(rules, nodes, path, w)
    {
      ShownIsPermitted(rules, nodes, path, w);
    }
    if e :| e in root && Halts(e, [], rules, w) {
      if !e.Unclassified? {
        var nodes, path := HaltBlocks(e, root, [], rules, w);
      }
    }
    if e :| e in root && e.Unclassified? {
      HaltsIs(e, [], rules, w);
    }
    if nodes, path :| Leads(root, nodes, path) && Permitted(rules, nodes, path, w) && Stops(nodes[|nodes| - 1]) {
      BlockHalts(root, nodes, [], rules, path, w);
    }
  }

  /** A report whose root is located and readable fails to read only if something blocks
      the walk; and if it is complete, nothing does. */
  lemma {:induction false} ReportFailsOnlyIfBlocked(located: bool, cloned: bool, root: Listing, rules: seq<IgnoreFile>,
                                                    stillLocated: bool, w: Walk)
    requires located && cloned && root.Entries?
    ensures var r := ReportOf(located, cloned, root, rules, stillLocated, w);
            && (r == Err(Io) ==> Blocked(root.entries, rules, w))
            && (r.Ok? && !r.value.truncated ==> !Blocked(root.entries, rules, w))
            && (!stillLocated && r != Err(Io) ==> r == Err(WorkspaceChanged))
  {
    hide Visits, HaltsAmong, Blocked, Scan;
    BlockedHalts(root.entries, rules, w);
    BreaksIffHalts(Siblings(root.entries), [], rules, w);
    SiblingsHalt(root.entries, [], rules, w);
    ScanMeetsBreaks([], Preorder(root.entries, rules, w), w.options.maxEntries);
  }

  lemma {:induction false} ScanMeetsBreaks(entries: seq<FileEntry>, vs: seq<Visit>, limit: nat)
    requires |entries| <= limit
    ensures Scan(entries, vs, limit).Failed? ==> AnyBreaks(vs)
    ensures Scan(entries, vs, limit).Done? && !Scan(entries, vs, limit).truncated ==> !AnyBreaks(vs)
    decreases |vs|
  {
    if vs != [] && |entries| < limit && !Breaks(vs[0]) {
      ScanMeetsBreaks(if vs[0].listed then entries + [vs[0].entry] else entries, vs[1..], limit);
      assert vs == [vs[0]] + vs[1..];
      AnyBreaksOfConcat([vs[0]], vs[1..]);
    }
  }
}
