/** Marking ignored entries (`discovery.rs`): a walk that shows everything is merged
    with a second walk that prunes, through a cursor that only moves forward. */
module AcceptedCursors {
  import opened Wrappers
  import opened Paths
  import opened Discovery
  import opened DiscoveryProperties
  import opened DiscoveryVisibility

  /** What the walking library yields next. */
  datatype WalkItem = Found(path: Path, kind: FileKind) | Root | Failure

  function FoundAt(item: WalkItem): (found: seq<WalkItem>)
    ensures forall one | one in found :: one.Found?
  {
    if item.Found? then [item] else []
  }

  function PathAt(item: WalkItem): seq<Path> {
    if item.Found? then [item.path] else []
  }

  function FoundIn(items: seq<WalkItem>): (found: seq<WalkItem>)
    ensures forall item | item in found :: item.Found?
  {
    if items == [] then [] else FoundAt(items[0]) + FoundIn(items[1..])
  }

  function PathsIn(items: seq<WalkItem>): seq<Path> {
    if items == [] then [] else PathAt(items[0]) + PathsIn(items[1..])
  }

  lemma PathsStep(items: seq<WalkItem>, i: nat)
    requires i < |items|
    ensures PathsIn(items[i..]) == PathAt(items[i]) + PathsIn(items[i + 1..])
    ensures FoundIn(items[i..]) == FoundAt(items[i]) + FoundIn(items[i + 1..])
  {
    assert items[i..][1..] == items[i + 1..];
  }

  lemma {:induction false} PathsOfFound(items: seq<WalkItem>)
    ensures |FoundIn(items)| == |PathsIn(items)|
    ensures forall i | 0 <= i < |FoundIn(items)| ::
              FoundIn(items)[i].Found? && FoundIn(items)[i].path == PathsIn(items)[i]
  {
    if items != [] {
      PathsOfFound(items[1..]);
    }
  }

  predicate NotAfter(p: Path, q: Path) { p == q || PathLess(p, q) }

  /** Everything passed lies before the target; what is left ascends from its head. */
  predicate Splits(accepted: seq<Path>, dropped: seq<Path>, pending: seq<Path>, target: Path) {
    && Ascending(accepted) && accepted == dropped + pending
    && forall d | d in dropped :: PathLess(d, target)
  }

  lemma DropHead(accepted: seq<Path>, dropped: seq<Path>, pending: seq<Path>, target: Path)
    requires Splits(accepted, dropped, pending, target) && pending != [] && PathLess(pending[0], target)
    ensures Splits(accepted, dropped + [pending[0]], pending[1..], target)
  {
  }

  lemma HeadDecides(accepted: seq<Path>, dropped: seq<Path>, pending: seq<Path>, target: Path)
    requires Splits(accepted, dropped, pending, target)
    requires pending != [] ==> !PathLess(pending[0], target)
    ensures target in accepted <==> pending != [] && pending[0] == target
  {
    hide PathLess;
    PathOrder(target, target);
    if target in accepted {
      assert target in pending;
      var i :| 0 <= i < |pending| && pending[i] == target;
      assert accepted[|dropped|] == pending[0] && accepted[|dropped| + i] == target;
    }
    if pending != [] && pending[0] == target {
      assert accepted[|dropped|] == target;
    }
  }

  lemma TargetMoves(accepted: seq<Path>, dropped: seq<Path>, pending: seq<Path>, last: Path, target: Path)
    requires Splits(accepted, dropped, pending, last) && NotAfter(last, target)
    ensures Splits(accepted, dropped, pending, target)
  {
    forall d | d in dropped
      ensures PathLess(d, target)
    {
      if last != target {
        PathLessTransitive(d, last, target);
      }
    }
  }

  class AcceptedCursor {
    var walk: seq<WalkItem>
    var next: Option<Path>
    ghost const accepted: seq<Path>
    ghost var dropped: seq<Path>
    /** The last target asked for. */
    ghost var last: Option<Path>

    ghost function Pending(): seq<Path>
      reads this
    {
      (if next.Some? then [next.value] else []) + PathsIn(walk)
    }

    ghost predicate Valid()
      reads this
    {
      if last.Some? then Splits(accepted, dropped, Pending(), last.value)
      else Ascending(accepted) && dropped == [] && accepted == Pending()
    }

    constructor (walk: seq<WalkItem>)
      requires Ascending(PathsIn(walk))
      ensures Valid() && accepted == PathsIn(walk) && last == None
    {
      this.walk := walk;
      next := None;
      accepted := PathsIn(walk);
      dropped := [];
      last := None;
    }

    /** On targets that do not go back, the one pass answers membership. */
    method Contains(target: Path) returns (found: bool)
      requires Valid() && (last.Some? ==> NotAfter(last.value, target))
      modifies this
      ensures Valid() && last == Some(target)
      ensures found <==> target in accepted
    {
      hide PathLess, Ascending;
      if last.Some? {
        TargetMoves(accepted, dropped, Pending(), last.value, target);
      }
      last := Some(target);
      while true
        invariant Valid() && last == Some(target)
        decreases |walk|
      {
        if next.Some? {
          PathOrder(next.value, target);
          assert Pending()[0] == next.value;
          if PathLess(next.value, target) {
            DropHead(accepted, dropped, Pending(), target);
            assert Pending()[1..] == PathsIn(walk);
            dropped := dropped + [next.value];
            next := None;
          } else {
            HeadDecides(accepted, dropped, Pending(), target);
            return next.value == target;
          }
        }
        assert Pending() == PathsIn(walk);
        if walk == [] {
          HeadDecides(accepted, dropped, Pending(), target);
          return false;
        }
        var item := walk[0];
        PathsStep(walk, 0);
        walk := walk[1..];
        if item.Found? {
          next := Some(item.path);
        }
      }
    }
  }

  // ------------------------------------------------------------ the marked report

  /** An entry is marked when the pruning walk does not accept it. */
  function Marked(item: WalkItem, accepted: seq<Path>, options: DiscoveryOptions): FileEntry
    requires item.Found?
  {
    FileEntry(item.path, item.kind, |item.path|, HasDotComponent(item.path),
              (options.showIgnored && item.path !in accepted) || HasHeavyComponent(item.path))
  }

  function MarkedAll(items: seq<WalkItem>, accepted: seq<Path>, options: DiscoveryOptions): (entries: seq<FileEntry>)
    requires forall item | item in items :: item.Found?
    ensures |entries| == |items| && forall i | 0 <= i < |items| :: entries[i] == Marked(items[i], accepted, options)
  {
    seq(|items|, i requires 0 <= i < |items| => Marked(items[i], accepted, options))
  }

  method Mark(accepted: AcceptedCursor, item: WalkItem, options: DiscoveryOptions) returns (entry: FileEntry)
    requires item.Found? && accepted.Valid() && (accepted.last.Some? ==> NotAfter(accepted.last.value, item.path))
    modifies accepted
    ensures accepted.Valid()
    ensures accepted.last == if options.showIgnored then Some(item.path) else old(accepted.last)
    ensures entry == Marked(item, accepted.accepted, options)
  {
    var ignoredByRules := false;
    if options.showIgnored {
      var contained := accepted.Contains(item.path);
      ignoredByRules := !contained;
    }
    return FileEntry(item.path, item.kind, |item.path|, HasDotComponent(item.path),
                     ignoredByRules || HasHeavyComponent(item.path));
  }

  /** The cursor was last asked for the entry before the `k`th. */
  ghost predicate AskedUpTo(last: Option<Path>, paths: seq<Path>, k: nat)
    requires k <= |paths|
  {
    last.Some? ==> k > 0 && last.value == paths[k - 1]
  }

  lemma NextIsLater(last: Option<Path>, paths: seq<Path>, k: nat)
    requires Ascending(paths) && k < |paths| && AskedUpTo(last, paths, k)
    ensures last.Some? ==> NotAfter(last.value, paths[k])
  {
  }

  /** Both walks ascend; each entry of the first is marked by whether the second has
      it, and the report is truncated exactly when the first has more than fit. */
  method DiscoverReport(walk: seq<WalkItem>, pruned: seq<WalkItem>, options: DiscoveryOptions)
    returns (report: DiscoveryReport)
    requires Ascending(PathsIn(walk)) && Ascending(PathsIn(pruned))
    ensures report.entries == First(MarkedAll(FoundIn(walk), PathsIn(pruned), options), options.maxEntries)
    ensures report.truncated <==> |FoundIn(walk)| > options.maxEntries
  {
    hide PathLess, Ascending, HasDotComponent, HasHeavyComponent, NotAfter, Marked, FoundIn, PathsIn;
    ghost var found, paths := FoundIn(walk), PathsIn(walk);
    PathsOfFound(walk);
    ghost var all := MarkedAll(found, PathsIn(pruned), options);
    var accepted := new AcceptedCursor(pruned);
    var entries: seq<FileEntry> := [];
    var i := 0;
    assert walk[0..] == walk && found[0..] == found;
    while i < |walk|
      invariant i <= |walk| && |entries| <= |found| && |entries| <= options.maxEntries
      invariant FoundIn(walk[i..]) == found[|entries|..] && entries == all[..|entries|]
      invariant accepted.Valid() && fresh(accepted) && accepted.accepted == PathsIn(pruned)
      invariant AskedUpTo(accepted.last, paths, |entries|) && (!options.showIgnored ==> accepted.last == None)
    {
      var item := walk[i];
      PathsStep(walk, i);
      i := i + 1;
      if item.Found? {
        if |entries| == options.maxEntries {
          return DiscoveryReport(entries, true);
        }
        NextIsLater(accepted.last, paths, |entries|);
        var entry := Mark(accepted, item, options);
        assert entry == all[|entries|];
        entries := entries + [entry];
      } else {
        assert FoundIn(walk[i..]) == found[|entries|..];
      }
    }
    NothingFound(walk);
    return DiscoveryReport(entries, false);
  }

  lemma NothingFound(walk: seq<WalkItem>)
    ensures FoundIn(walk[|walk|..]) == []
  {
  }

  // ------------------------------------------------- two walks of one tree

  /** What the library yields for one visit of a walk: an entry that is listed, and a
      failure where a type or a directory cannot be read. */
  function ItemsFor(v: Visit): seq<WalkItem> {
    if v.NoType? then [Failure]
    else if !v.listed then []
    else [Found(v.entry.relativePath, v.entry.kind)] + if v.readable then [] else [Failure]
  }

  function ItemsOf(vs: seq<Visit>): seq<WalkItem> {
    if vs == [] then [] else ItemsFor(vs[0]) + ItemsOf(vs[1..])
  }

  /** A walk of the library starts with the root itself. */
  function WalkItems(root: seq<DirEntry>, rules: seq<IgnoreFile>, w: Walk): seq<WalkItem> {
    [Root] + ItemsOf(Preorder(root, rules, w))
  }

  lemma {:induction false} FoundInConcat(a: seq<WalkItem>, b: seq<WalkItem>)
    ensures FoundIn(a + b) == FoundIn(a) + FoundIn(b)
  {
    hide FoundAt;
    if a == [] {
      assert a + b == b;
    } else {
      FoundInConcat(a[1..], b);
      assert (a + b)[0] == a[0] && (a + b)[1..] == a[1..] + b;
      Rebracket(FoundAt(a[0]), FoundIn(a[1..]), FoundIn(b));
    }
  }

  lemma {:induction false} PathsInConcat(a: seq<WalkItem>, b: seq<WalkItem>)
    ensures PathsIn(a + b) == PathsIn(a) + PathsIn(b)
  {
    hide PathAt;
    if a == [] {
      assert a + b == b;
    } else {
      PathsInConcat(a[1..], b);
      assert (a + b)[0] == a[0] && (a + b)[1..] == a[1..] + b;
      Rebracket(PathAt(a[0]), PathsIn(a[1..]), PathsIn(b));
    }
  }

  function FoundOf(entry: FileEntry): WalkItem { Found(entry.relativePath, entry.kind) }

  /** The items found are the listed entries, in their order. */
  predicate AreFound(found: seq<WalkItem>, entries: seq<FileEntry>) {
    |found| == |entries| && forall i | 0 <= i < |found| :: found[i] == FoundOf(entries[i])
  }

  lemma OneItem(item: WalkItem)
    ensures FoundIn([item]) == FoundAt(item) && PathsIn([item]) == PathAt(item)
  {
    assert [item][1..] == [];
  }

  lemma FoundForOne(v: Visit)
    ensures PathsIn(ItemsFor(v)) == PathsOf(Own(v))
    ensures AreFound(FoundIn(ItemsFor(v)), Own(v))
  {
    hide FoundIn, PathsIn;
    NothingIsFound();
    OneItem(Failure);
    if v.Seen? {
      var found := FoundOf(v.entry);
      OneItem(found);
      FoundInConcat([found], [Failure]);
      PathsInConcat([found], [Failure]);
      assert PathsOf([v.entry]) == [v.entry.relativePath];
      assert [found] + [] == [found];
    }
  }

  lemma AreFoundOfConcat(a: seq<WalkItem>, b: seq<WalkItem>, c: seq<FileEntry>, d: seq<FileEntry>)
    requires AreFound(a, c) && AreFound(b, d)
    ensures AreFound(a + b, c + d)
  {
  }

  lemma PathsOfAppend(a: seq<FileEntry>, b: seq<FileEntry>)
    ensures PathsOf(a + b) == PathsOf(a) + PathsOf(b)
  {
  }

  lemma {:induction false} FoundAreListed(vs: seq<Visit>)
    ensures PathsIn(ItemsOf(vs)) == PathsOf(Listed(vs))
    ensures AreFound(FoundIn(ItemsOf(vs)), Listed(vs))
  {
    hide FoundIn, PathsIn, PathsOf, ItemsFor, Own, AreFound;
    if vs == [] {
      NothingIsFound();
    } else {
      FoundAreListed(vs[1..]);
      FoundInConcat(ItemsFor(vs[0]), ItemsOf(vs[1..]));
      PathsInConcat(ItemsFor(vs[0]), ItemsOf(vs[1..]));
      FoundForOne(vs[0]);
      AreFoundOfConcat(FoundIn(ItemsFor(vs[0])), FoundIn(ItemsOf(vs[1..])), Own(vs[0]), Listed(vs[1..]));
      PathsOfAppend(Own(vs[0]), Listed(vs[1..]));
    }
  }

  lemma NothingIsFound()
    ensures FoundIn([]) == [] && PathsIn([]) == PathsOf([]) && AreFound([], [])
  {
  }

  lemma WalkIsListed(root: seq<DirEntry>, rules: seq<IgnoreFile>, w: Walk)
    ensures PathsIn(WalkItems(root, rules, w)) == PathsOf(Listed(Preorder(root, rules, w)))
    ensures AreFound(FoundIn(WalkItems(root, rules, w)), Listed(Preorder(root, rules, w)))
  {
    hide Visits, Listed, ItemsOf, PathsOf, AreFound;
    FoundAreListed(Preorder(root, rules, w));
    var items := ItemsOf(Preorder(root, rules, w));
    PathsStep([Root] + items, 0);
    assert ([Root] + items)[0..] == [Root] + items && ([Root] + items)[1..] == items;
    assert PathsIn([Root] + items) == PathsIn(items) && FoundIn([Root] + items) == FoundIn(items);
  }

  /** Whatever is pruned, a walk with sorted siblings ascends, as the merge asks. */
  lemma WalksAscend(root: seq<DirEntry>, rules: seq<IgnoreFile>, w: Walk)
    requires WellNamed(root)
    ensures Ascending(PathsIn(WalkItems(root, rules, w)))
  {
    hide WellNamed, StrictlyNamed, Visits, Listed, Ascending, ItemsOf, PathsOf, PathsIn;
    SiblingsStrict(root);
    VisitsAscend(Siblings(root), [], rules, w);
    WalkIsListed(root, rules, w);
  }

  /** The pruned walk reaches an entry at this path. */
  ghost predicate Accepts(root: seq<DirEntry>, rules: seq<IgnoreFile>, w: Walk, path: Path) {
    exists entry: FileEntry :: entry.relativePath == path && Reaches(root, [], rules, path, entry, w)
  }

  lemma AcceptedAreReached(root: seq<DirEntry>, rules: seq<IgnoreFile>, w: Walk, path: Path)
    requires path != []
    ensures path in PathsOf(Listed(Preorder(root, rules, w))) <==> Accepts(root, rules, w, path)
  {
    hide Reaches, Visits, Listed;
    var listed := Listed(Preorder(root, rules, w));
    if path in PathsOf(listed) {
      var i :| 0 <= i < |listed| && PathsOf(listed)[i] == path;
      assert [] + path == path;
      ListedIffReached(Siblings(root), [], rules, path, listed[i], w);
      SiblingsReach(root, [], rules, path, listed[i], w);
    }
    if entry: FileEntry :| entry.relativePath == path && Reaches(root, [], rules, path, entry, w) {
      assert [] + path == path;
      ListedIffReached(Siblings(root), [], rules, path, entry, w);
      SiblingsReach(root, [], rules, path, entry, w);
      var i :| 0 <= i < |listed| && listed[i] == entry;
      assert PathsOf(listed)[i] == path;
    }
  }

  /** The merge over the two walks of one tree: an entry of the full walk is marked as
      ignored exactly when the pruned walk cannot reach it through accepted folders,
      or a component of its path is one of the heavy ones. */
  lemma MergeMarksUnreached(root: seq<DirEntry>, rules: seq<IgnoreFile>, w: Walk, i: nat)
    requires w.options.showIgnored && i < |Listed(Preorder(root, rules, w))|
    ensures var pruning := w.(options := w.options.(showIgnored := false));
            var marked := MarkedAll(FoundIn(WalkItems(root, rules, w)), PathsIn(WalkItems(root, rules, pruning)),
                                    w.options);
            var entry := Listed(Preorder(root, rules, w))[i];
            && |marked| == |Listed(Preorder(root, rules, w))|
            && marked[i].relativePath == entry.relativePath && marked[i].kind == entry.kind
            && marked[i].depth == |entry.relativePath|
            && (marked[i].hidden <==> exists k | 0 <= k < |entry.relativePath| :: Dotted(entry.relativePath[k]))
            && (marked[i].ignored <==>
                  || !Accepts(root, rules, pruning, entry.relativePath)
                  || exists k | 0 <= k < |entry.relativePath| :: Heavy(entry.relativePath[k]))
  {
    hide Dotted, Heavy, Visits, Listed, PathsIn, FoundIn, Accepts, HasDotComponent, HasHeavyComponent, WalkItems,
      PlacedWell;
    var pruning := w.(options := w.options.(showIgnored := false));
    WalkIsListed(root, rules, w);
    WalkIsListed(root, rules, pruning);
    VisitsParentsFirst(Siblings(root), [], rules, w);
    var entry := Listed(Preorder(root, rules, w))[i];
    assert PlacedWell(Listed(Preorder(root, rules, w)), i, []);
    PlacedIsBelow(Listed(Preorder(root, rules, w)), i, []);
    AcceptedAreReached(root, rules, pruning, entry.relativePath);
    ComponentsUpTo(entry.relativePath, |entry.relativePath| - 1);
    assert entry.relativePath[..|entry.relativePath| - 1 + 1] == entry.relativePath;
  }

  /** What accepting means, said of the tree: a way leads to the path on which every
      dotted, heavy or ignored component is one the walk's options let it show. */
  lemma {:induction false} AcceptsMeans(root: seq<DirEntry>, rules: seq<IgnoreFile>, w: Walk, path: Path)
    ensures Accepts(root, rules, w, path)
       <==> exists nodes :: Leads(root, nodes, path) && Permitted(rules, nodes, path, w)
  {
    hide Reaches, Permitted, IgnoredAt, SeenAt;
    if Accepts(root, rules, w, path) {
      var entry: FileEntry :| entry.relativePath == path && Reaches(root, [], rules, path, entry, w);
      ReachedMeans(root, rules, path, entry, w);
      var nodes :| Stands(root, rules, nodes, path, entry, w);
      assert Leads(root, nodes, path) && Permitted(rules, nodes, path, w);
    }
    if nodes: seq<DirEntry> :| Leads(root, nodes, path) && Permitted(rules, nodes, path, w) {
      SeenMeans(rules, nodes, path, w, |path| - 1);
      assert path[..|path| - 1 + 1] == path;
      var entry := SeenAt(nodes, [], rules, path, w, |path| - 1);
      assert Stands(root, rules, nodes, path, entry, w);
      ReachedMeans(root, rules, path, entry, w);
    }
  }
}
