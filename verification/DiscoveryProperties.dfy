/** What a listing of a workspace holds, and in which order. */
module DiscoveryProperties {
  import opened Wrappers
  import opened Sorting
  import opened Paths
  import opened Discovery

  // ------------------------------------------------------- parents come first

  predicate HasParentAmong(entries: seq<FileEntry>, k: nat)
    requires k < |entries| && entries[k].relativePath != []
  {
    var path := entries[k].relativePath;
    exists j: nat | j < k :: entries[j].kind == Directory && entries[j].relativePath == path[..|path| - 1]
  }

  predicate PlacedWell(entries: seq<FileEntry>, k: nat, base: Path)
    requires k < |entries|
  {
    var e := entries[k];
    && Below(e.relativePath, base) && e.depth == |e.relativePath|
    && (|e.relativePath| > |base| + 1 ==> HasParentAmong(entries, k))
  }

  /** Every entry lies below `base`, at its own depth, after the folder that holds it. */
  predicate ParentsFirst(entries: seq<FileEntry>, base: Path) {
    forall k: nat | k < |entries| :: PlacedWell(entries, k, base)
  }

  lemma PlacedInSlice(entries: seq<FileEntry>, all: seq<FileEntry>, offset: nat, k: nat, base: Path)
    requires offset + |entries| <= |all| && all[offset..offset + |entries|] == entries
    requires k < |entries| && PlacedWell(entries, k, base)
    ensures PlacedWell(all, offset + k, base)
  {
    assert all[offset..offset + |entries|][k] == all[offset + k];
    if |entries[k].relativePath| > |base| + 1 {
    }
  }

  lemma ParentsFirstOfConcat(a: seq<FileEntry>, b: seq<FileEntry>, base: Path)
    requires ParentsFirst(a, base) && ParentsFirst(b, base)
    ensures ParentsFirst(a + b, base)
  {
    hide PlacedWell;
    assert (a + b)[0..0 + |a|] == a && (a + b)[|a|..|a| + |b|] == b;
    forall k: nat | k < |a + b|
      ensures PlacedWell(a + b, k, base)
    {
      if k < |a| {
        PlacedInSlice(a, a + b, 0, k, base);
      } else {
        PlacedInSlice(b, a + b, |a|, k - |a|, base);
      }
    }
  }

  lemma ParentsFirstOfFolder(folder: FileEntry, inner: seq<FileEntry>, base: Path, name: string)
    requires folder.relativePath == base + [name] && folder.depth == |folder.relativePath|
    requires inner != [] ==> folder.kind == Directory
    requires ParentsFirst(inner, base + [name])
    ensures ParentsFirst([folder] + inner, base)
  {
    var all := [folder] + inner;
    assert all[1..1 + |inner|] == inner;
    forall k: nat | k < |all|
      ensures PlacedWell(all, k, base)
    {
      if k > 0 {
        var path := all[k].relativePath;
        assert all[k] == inner[k - 1] && PlacedWell(inner, k - 1, base + [name]);
        assert path[..|base|] == path[..|base| + 1][..|base|];
        if |path| > |base| + 2 {
        } else {
          assert path[..|path| - 1] == base + [name];
        }
      }
    }
  }

  lemma ListedOfStep(e: DirEntry, es: seq<DirEntry>, base: Path, stack: seq<IgnoreFile>, w: Walk)
    ensures Listed(Visits([e] + es, base, stack, w))
         == Listed([VisitOf(e, base, stack, w)]) + Listed(Inside(e, base, stack, w))
            + Listed(Visits(es, base, stack, w))
  {
    assert ([e] + es)[1..] == es;
    var first := [VisitOf(e, base, stack, w)] + Inside(e, base, stack, w);
    ListedOfConcat(first, Visits(es, base, stack, w));
    ListedOfConcat([VisitOf(e, base, stack, w)], Inside(e, base, stack, w));
  }

  lemma ListedOfOne(v: Visit)
    ensures Listed([v]) == Own(v)
  {
    assert [v][1..] == [];
  }

  lemma {:induction false} VisitsParentsFirst(es: seq<DirEntry>, base: Path, stack: seq<IgnoreFile>, w: Walk)
    ensures ParentsFirst(Listed(Visits(es, base, stack, w)), base)
    decreases SizeAll(es), 1
  {
    hide Listed, ParentsFirst;
    if es == [] {
      NothingParentsFirst(base);
    } else {
      var e, rest := es[0], es[1..];
      assert es == [e] + rest;
      ListedOfStep(e, rest, base, stack, w);
      ListedOfOne(VisitOf(e, base, stack, w));
      assert SizeAll(es) == Size(e) + SizeAll(rest);
      VisitsParentsFirst(rest, base, stack, w);
      EntryParentsFirst(e, base, stack, w);
      ParentsFirstOfConcat(Listed([VisitOf(e, base, stack, w)]) + Listed(Inside(e, base, stack, w)),
                           Listed(Visits(rest, base, stack, w)), base);
    }
  }

  lemma NothingParentsFirst(base: Path)
    ensures ParentsFirst(Listed([]), base)
  {
  }

  lemma EntryParentsFirst(e: DirEntry, base: Path, stack: seq<IgnoreFile>, w: Walk)
    ensures ParentsFirst(Listed([VisitOf(e, base, stack, w)]) + Listed(Inside(e, base, stack, w)), base)
    decreases Size(e), 0
  {
    hide Listed, ParentsFirst, Visits;
    ListedOfOne(VisitOf(e, base, stack, w));
    var inner := Listed(Inside(e, base, stack, w));
    NothingParentsFirst(base);
    NothingParentsFirst(base + [e.name]);
    ListedOfNothing();
    if Entered(e, base, stack, w) {
      SortKeepsSize(e.listing.entries);
      VisitsParentsFirst(Siblings(e.listing.entries), base + [e.name], stack + e.rules, w);
    }
    if !e.Unclassified? && Shown(EntryOf(e, base, stack, w.matcher), w.options) {
      ParentsFirstOfFolder(EntryOf(e, base, stack, w.matcher), inner, base, e.name);
    } else {
      assert Listed([VisitOf(e, base, stack, w)]) + inner == [];
    }
  }

  lemma ListedOfNothing()
    ensures Listed([]) == []
  {
  }

  // ------------------------------------------------------------ paths in order

  function PathsOf(entries: seq<FileEntry>): (paths: seq<Path>)
    ensures |paths| == |entries| && forall i | 0 <= i < |entries| :: paths[i] == entries[i].relativePath
  {
    seq(|entries|, i requires 0 <= i < |entries| => entries[i].relativePath)
  }

  /** No two entries of one directory share a name. */
  predicate WellNamed(es: seq<DirEntry>) {
    && (forall i, j | 0 <= i < j < |es| :: es[i].name != es[j].name)
    && forall i | 0 <= i < |es| :: NamesInside(es[i])
  }

  predicate NamesInside(e: DirEntry) {
    e.Folder? && e.listing.Entries? ==> WellNamed(e.listing.entries)
  }

  predicate StrictlyNamed(es: seq<DirEntry>) {
    && (forall i, j | 0 <= i < j < |es| :: NameLess(es[i].name, es[j].name))
    && forall i | 0 <= i < |es| :: NamesInside(es[i])
  }

  lemma {:induction false} InsertMembers(e: DirEntry, es: seq<DirEntry>, x: DirEntry)
    ensures x in Insert(EntryLe, e, es) <==> x == e || x in es
  {
    if es != [] && !EntryLe(e, es[0]) {
      InsertMembers(e, es[1..], x);
      assert es == [es[0]] + es[1..];
    }
  }

  lemma {:induction false} SiblingsMembers(es: seq<DirEntry>, x: DirEntry)
    ensures x in Siblings(es) <==> x in es
  {
    if es != [] {
      SiblingsMembers(es[1..], x);
      InsertMembers(es[0], Siblings(es[1..]), x);
      assert es == [es[0]] + es[1..];
    }
  }

  lemma {:induction false} InsertStrict(e: DirEntry, es: seq<DirEntry>)
    requires StrictlyNamed(es) && NamesInside(e) && forall x | x in es :: x.name != e.name
    ensures StrictlyNamed(Insert(EntryLe, e, es))
  {
    hide NamesInside, NameLe;
    if es == [] {
    } else if EntryLe(e, es[0]) {
      forall x | x in es
        ensures NameLess(e.name, x.name)
      {
        if x != es[0] {
          NameLeTransitive(e.name, es[0].name, x.name);
        }
      }
    } else {
      var rest := es[1..];
      NameLeTotal(e.name, es[0].name);
      InsertStrict(e, rest);
      var inserted := Insert(EntryLe, e, rest);
      forall x | x in inserted
        ensures NameLess(es[0].name, x.name)
      {
        InsertMembers(e, rest, x);
      }
      assert Insert(EntryLe, e, es) == [es[0]] + inserted;
    }
  }

  lemma {:induction false} SiblingsStrict(es: seq<DirEntry>)
    requires WellNamed(es)
    ensures StrictlyNamed(Siblings(es))
  {
    hide NamesInside;
    if es != [] {
      SiblingsStrict(es[1..]);
      forall x | x in Siblings(es[1..])
        ensures x.name != es[0].name
      {
        SiblingsMembers(es[1..], x);
      }
      InsertStrict(es[0], Siblings(es[1..]));
    }
  }

  /** The entry's own paths: below `base`, through the name. */
  predicate Through(entries: seq<FileEntry>, base: Path, name: string) {
    forall i | 0 <= i < |entries| ::
      Below(entries[i].relativePath, base) && entries[i].relativePath[|base|] == name
  }

  predicate ThroughLater(entries: seq<FileEntry>, base: Path, name: string) {
    forall i | 0 <= i < |entries| ::
      Below(entries[i].relativePath, base) && NameLess(name, entries[i].relativePath[|base|])
  }

  lemma AscendingOfConcat(a: seq<FileEntry>, b: seq<FileEntry>, base: Path, name: string)
    requires Ascending(PathsOf(a)) && Ascending(PathsOf(b))
    requires Through(a, base, name) && ThroughLater(b, base, name)
    ensures Ascending(PathsOf(a + b))
  {
    hide NameLess;
    forall i, j | 0 <= i < |a| && 0 <= j < |b|
      ensures PathLess(a[i].relativePath, b[j].relativePath)
    {
      var p, q := a[i].relativePath, b[j].relativePath;
      BelowIsConcat(p, base);
      BelowIsConcat(q, base);
      PathLessBelow(base, p[|base|..], q[|base|..]);
    }
    var all := PathsOf(a + b);
    forall i, j | 0 <= i < j < |all|
      ensures PathLess(all[i], all[j])
    {
      if j < |a| {
        assert all[i] == PathsOf(a)[i] && all[j] == PathsOf(a)[j];
      } else if i < |a| {
        assert all[i] == a[i].relativePath && all[j] == b[j - |a|].relativePath;
      } else {
        assert all[i] == PathsOf(b)[i - |a|] && all[j] == PathsOf(b)[j - |a|];
      }
    }
  }

  lemma AscendingOfFolder(folder: FileEntry, inner: seq<FileEntry>, base: Path, name: string)
    requires folder.relativePath == base + [name]
    requires Ascending(PathsOf(inner)) && ParentsFirst(inner, base + [name])
    ensures Ascending(PathsOf([folder] + inner))
  {
    var all := [folder] + inner;
    forall i | 0 < i < |all|
      ensures PathLess(folder.relativePath, all[i].relativePath)
    {
      var p := all[i].relativePath;
      assert PlacedWell(inner, i - 1, base + [name]);
      BelowIsConcat(p, base + [name]);
      PathLessBelow(base + [name], [], p[|base| + 1..]);
      assert (base + [name]) + [] == base + [name];
    }
    var paths := PathsOf(all);
    forall i, j | 0 <= i < j < |paths|
      ensures PathLess(paths[i], paths[j])
    {
      if i > 0 {
        assert paths[i] == PathsOf(inner)[i - 1] && paths[j] == PathsOf(inner)[j - 1];
      }
    }
  }

  lemma EntryThrough(e: DirEntry, base: Path, stack: seq<IgnoreFile>, w: Walk)
    ensures Through(Listed([VisitOf(e, base, stack, w)]) + Listed(Inside(e, base, stack, w)), base, e.name)
  {
    hide Listed, ParentsFirst, Visits, IgnoredBy, HasDotComponent, HasHeavyComponent;
    ListedOfOne(VisitOf(e, base, stack, w));
    var inner := Listed(Inside(e, base, stack, w));
    ListedOfNothing();
    NothingParentsFirst(base + [e.name]);
    if Entered(e, base, stack, w) {
      VisitsParentsFirst(Siblings(e.listing.entries), base + [e.name], stack + e.rules, w);
    }
    if !e.Unclassified? && Shown(EntryOf(e, base, stack, w.matcher), w.options) {
      ThroughFolder(EntryOf(e, base, stack, w.matcher), inner, base, e.name);
    } else {
      assert Listed([VisitOf(e, base, stack, w)]) + inner == [];
    }
  }

  lemma ThroughFolder(folder: FileEntry, inner: seq<FileEntry>, base: Path, name: string)
    requires folder.relativePath == base + [name] && ParentsFirst(inner, base + [name])
    ensures Through([folder] + inner, base, name)
  {
    var all := [folder] + inner;
    forall i | 0 <= i < |all|
      ensures Below(all[i].relativePath, base) && all[i].relativePath[|base|] == name
    {
      if i > 0 {
        var p := all[i].relativePath;
        assert PlacedWell(inner, i - 1, base + [name]);
        assert p[..|base|] == p[..|base| + 1][..|base|];
        assert p[..|base| + 1][|base|] == name;
      }
    }
  }

  lemma LaterOfConcat(own: seq<FileEntry>, later: seq<FileEntry>, base: Path, name: string, ownName: string)
    requires Through(own, base, ownName) && NameLess(name, ownName) && ThroughLater(later, base, name)
    ensures ThroughLater(own + later, base, name)
  {
  }

  lemma {:induction false} VisitsLater(es: seq<DirEntry>, base: Path, stack: seq<IgnoreFile>, w: Walk, name: string)
    requires forall x | x in es :: NameLess(name, x.name)
    ensures ThroughLater(Listed(Visits(es, base, stack, w)), base, name)
    decreases |es|
  {
    hide Through, ThroughLater, NameLess, Inside;
    if es == [] {
      ListedOfNothing();
      NothingLater(base, name);
    } else {
      var e, rest := es[0], es[1..];
      assert es == [e] + rest;
      ListedOfStep(e, rest, base, stack, w);
      VisitsLater(rest, base, stack, w, name);
      EntryThrough(e, base, stack, w);
      assert e in es;
      LaterOfConcat(Listed([VisitOf(e, base, stack, w)]) + Listed(Inside(e, base, stack, w)),
                    Listed(Visits(rest, base, stack, w)), base, name, e.name);
    }
  }

  lemma NothingLater(base: Path, name: string)
    ensures ThroughLater([], base, name)
  {
  }

  /** With sorted, distinctly named siblings the preorder lists paths in strictly
      increasing order. */
  lemma {:induction false} VisitsAscend(es: seq<DirEntry>, base: Path, stack: seq<IgnoreFile>, w: Walk)
    requires StrictlyNamed(es)
    ensures Ascending(PathsOf(Listed(Visits(es, base, stack, w))))
    decreases SizeAll(es), 1
  {
    hide Ascending, ParentsFirst, NamesInside, NameLe, NameLess, PathLess, Through, ThroughLater, Inside;
    if es == [] {
      ListedOfNothing();
      NothingAscends();
    } else {
      var e, rest := es[0], es[1..];
      assert es == [e] + rest;
      ListedOfStep(e, rest, base, stack, w);
      assert SizeAll(es) == Size(e) + SizeAll(rest);
      VisitsAscend(rest, base, stack, w);
      EntryAscends(e, base, stack, w);
      EntryThrough(e, base, stack, w);
      VisitsLater(rest, base, stack, w, e.name);
      AscendingOfConcat(Listed([VisitOf(e, base, stack, w)]) + Listed(Inside(e, base, stack, w)),
                        Listed(Visits(rest, base, stack, w)), base, e.name);
    }
  }

  lemma NothingAscends()
    ensures Ascending(PathsOf([]))
  {
  }

  lemma EntryAscends(e: DirEntry, base: Path, stack: seq<IgnoreFile>, w: Walk)
    requires NamesInside(e)
    ensures Ascending(PathsOf(Listed([VisitOf(e, base, stack, w)]) + Listed(Inside(e, base, stack, w))))
    decreases Size(e), 0
  {
    hide Listed, ParentsFirst, Visits, Ascending, WellNamed, StrictlyNamed;
    ListedOfOne(VisitOf(e, base, stack, w));
    var inner := Listed(Inside(e, base, stack, w));
    ListedOfNothing();
    NothingAscends();
    NothingParentsFirst(base + [e.name]);
    if Entered(e, base, stack, w) {
      var within := Siblings(e.listing.entries);
      SortKeepsSize(e.listing.entries);
      SiblingsStrict(e.listing.entries);
      VisitsAscend(within, base + [e.name], stack + e.rules, w);
      VisitsParentsFirst(within, base + [e.name], stack + e.rules, w);
    }
    if !e.Unclassified? && Shown(EntryOf(e, base, stack, w.matcher), w.options) {
      AscendingOfFolder(EntryOf(e, base, stack, w.matcher), inner, base, e.name);
    } else {
      assert Listed([VisitOf(e, base, stack, w)]) + inner == [];
    }
  }

  // ----------------------------------------------------- exactly what is listed

  /** `entry` stands at `rest` below a directory with these entries, and it and every
      folder on the way are shown. The order of the entries plays no part. */
  ghost predicate Reaches(es: seq<DirEntry>, base: Path, stack: seq<IgnoreFile>, rest: Path, entry: FileEntry, w: Walk)
    decreases |rest|, 1
  {
    exists e | e in es :: ReachesThrough(e, base, stack, rest, entry, w)
  }

  ghost predicate ReachesThrough(e: DirEntry, base: Path, stack: seq<IgnoreFile>, rest: Path, entry: FileEntry, w: Walk)
    decreases |rest|, 0
  {
    && rest != [] && e.name == rest[0] && !e.Unclassified?
    && Shown(EntryOf(e, base, stack, w.matcher), w.options)
    && if |rest| == 1 then entry == EntryOf(e, base, stack, w.matcher)
       else e.Folder? && e.listing.Entries?
            && Reaches(e.listing.entries, base + [e.name], stack + e.rules, rest[1..], entry, w)
  }

  lemma SiblingsReach(es: seq<DirEntry>, base: Path, stack: seq<IgnoreFile>, rest: Path, entry: FileEntry, w: Walk)
    ensures Reaches(Siblings(es), base, stack, rest, entry, w) <==> Reaches(es, base, stack, rest, entry, w)
  {
    hide ReachesThrough;
    if e :| e in es && ReachesThrough(e, base, stack, rest, entry, w) {
      SiblingsMembers(es, e);
    }
    if e :| e in Siblings(es) && ReachesThrough(e, base, stack, rest, entry, w) {
      SiblingsMembers(es, e);
    }
  }

  lemma ReachesFirstOrRest(e: DirEntry, es: seq<DirEntry>, base: Path, stack: seq<IgnoreFile>, rest: Path,
                           entry: FileEntry, w: Walk)
    ensures Reaches([e] + es, base, stack, rest, entry, w)
       <==> ReachesThrough(e, base, stack, rest, entry, w) || Reaches(es, base, stack, rest, entry, w)
  {
    hide ReachesThrough;
    assert e in [e] + es;
    if x :| x in es && ReachesThrough(x, base, stack, rest, entry, w) {
      assert x in [e] + es;
    }
  }

  /** The walk lists the entries that are reached through shown folders, and no other. */
  lemma {:induction false} ListedIffReached(es: seq<DirEntry>, base: Path, stack: seq<IgnoreFile>, rest: Path,
                                            entry: FileEntry, w: Walk)
    requires entry.relativePath == base + rest && rest != []
    ensures entry in Listed(Visits(es, base, stack, w)) <==> Reaches(es, base, stack, rest, entry, w)
    decreases SizeAll(es), 2
  {
    hide ReachesThrough, Listed;
    if es == [] {
      ListedOfNothing();
    } else {
      var e, others := es[0], es[1..];
      assert es == [e] + others;
      assert SizeAll(es) == Size(e) + SizeAll(others);
      ListedOfStep(e, others, base, stack, w);
      ReachesFirstOrRest(e, others, base, stack, rest, entry, w);
      ListedIffReached(others, base, stack, rest, entry, w);
      EntryListedIff(e, base, stack, rest, entry, w);
    }
  }

  lemma EntryListedIff(e: DirEntry, base: Path, stack: seq<IgnoreFile>, rest: Path, entry: FileEntry, w: Walk)
    requires entry.relativePath == base + rest && rest != []
    ensures entry in Listed([VisitOf(e, base, stack, w)]) + Listed(Inside(e, base, stack, w))
       <==> ReachesThrough(e, base, stack, rest, entry, w)
    decreases Size(e), 1
  {
    hide Listed, Visits, Reaches, ParentsFirst, IgnoredBy, HasDotComponent, HasHeavyComponent;
    ListedOfOne(VisitOf(e, base, stack, w));
    ListedOfNothing();
    var own := EntryOf(e, base, stack, w.matcher);
    var inner := Listed(Inside(e, base, stack, w));
    SamePlace(base, rest, e.name);
    if Entered(e, base, stack, w) {
      var within := Siblings(e.listing.entries);
      InnerListedIff(e, within, base, stack, rest, entry, w);
    } else {
      assert inner == [];
    }
  }

  lemma SamePlace(base: Path, rest: Path, name: string)
    requires rest != []
    ensures base + rest == base + [name] <==> |rest| == 1 && rest[0] == name
    ensures Below(base + rest, base + [name]) <==> |rest| > 1 && rest[0] == name
    ensures rest[0] == name ==> base + rest == (base + [name]) + rest[1..]
  {
    if base + rest == base + [name] {
      assert (base + rest)[|base|] == rest[0] && |base + rest| == |base| + |rest|;
    }
    if Below(base + rest, base + [name]) {
      assert (base + rest)[..|base| + 1][|base|] == rest[0];
    }
  }

  lemma InnerListedIff(e: DirEntry, within: seq<DirEntry>, base: Path, stack: seq<IgnoreFile>, rest: Path,
                       entry: FileEntry, w: Walk)
    requires entry.relativePath == base + rest && rest != []
    requires Entered(e, base, stack, w) && within == Siblings(e.listing.entries)
    ensures entry in Listed(Visits(within, base + [e.name], stack + e.rules, w))
       <==> |rest| > 1 && rest[0] == e.name
            && Reaches(e.listing.entries, base + [e.name], stack + e.rules, rest[1..], entry, w)
    decreases Size(e), 0
  {
    hide Listed, Visits, Reaches, PlacedWell, IgnoredBy;
    SortKeepsSize(e.listing.entries);
    SamePlace(base, rest, e.name);
    var found := Listed(Visits(within, base + [e.name], stack + e.rules, w));
    if |rest| > 1 && rest[0] == e.name {
      ListedIffReached(within, base + [e.name], stack + e.rules, rest[1..], entry, w);
      SiblingsReach(e.listing.entries, base + [e.name], stack + e.rules, rest[1..], entry, w);
    } else if entry in found {
      VisitsParentsFirst(within, base + [e.name], stack + e.rules, w);
      var k: nat :| k < |found| && found[k] == entry;
      assert PlacedWell(found, k, base + [e.name]);
      PlacedIsBelow(found, k, base + [e.name]);
    }
  }

  lemma PlacedIsBelow(entries: seq<FileEntry>, k: nat, base: Path)
    requires k < |entries| && PlacedWell(entries, k, base)
    ensures Below(entries[k].relativePath, base)
  {
  }

  // ------------------------------------------------------------- the whole report

  lemma PrefixKeepsParents(all: seq<FileEntry>, limit: nat, base: Path)
    requires ParentsFirst(all, base)
    ensures ParentsFirst(First(all, limit), base)
  {
    var some := First(all, limit);
    forall k: nat | k < |some|
      ensures PlacedWell(some, k, base)
    {
      assert some[k] == all[k] && PlacedWell(all, k, base);
      if |some[k].relativePath| > |base| + 1 {
        var path := all[k].relativePath;
        var j: nat :| j < k && all[j].kind == Directory && all[j].relativePath == path[..|path| - 1];
      }
    }
  }

  /** A report lists the first entries of the pruned preorder, every folder before what
      it holds, in strictly increasing path order. */
  lemma ReportLists(root: seq<DirEntry>, rules: seq<IgnoreFile>, w: Walk)
    requires Scan([], Preorder(root, rules, w), w.options.maxEntries).Done?
    ensures var done := Scan([], Preorder(root, rules, w), w.options.maxEntries);
            var all := Listed(Preorder(root, rules, w));
            && done.entries == First(all, w.options.maxEntries)
            && ParentsFirst(done.entries, [])
            && (WellNamed(root) ==> Ascending(PathsOf(done.entries)))
  {
    hide Listed, Visits, ParentsFirst, Ascending, Scan;
    var vs := Preorder(root, rules, w);
    var all := Listed(vs);
    ScanIsPrefix([], vs, w.options.maxEntries);
    assert [] + all == all;
    VisitsParentsFirst(Siblings(root), [], rules, w);
    PrefixKeepsParents(all, w.options.maxEntries, []);
    if WellNamed(root) {
      SiblingsStrict(root);
      VisitsAscend(Siblings(root), [], rules, w);
      FirstAscends(all, w.options.maxEntries);
    }
  }

  lemma FirstAscends(all: seq<FileEntry>, limit: nat)
    requires Ascending(PathsOf(all))
    ensures Ascending(PathsOf(First(all, limit)))
  {
    var some := PathsOf(First(all, limit));
    forall i, j | 0 <= i < j < |some|
      ensures PathLess(some[i], some[j])
    {
      assert some[i] == PathsOf(all)[i] && some[j] == PathsOf(all)[j];
    }
  }

  /** A report that is not truncated lists every entry that can be reached through
      shown folders, and nothing else. */
  lemma UntruncatedIsComplete(root: seq<DirEntry>, rules: seq<IgnoreFile>, w: Walk, entry: FileEntry)
    requires Scan([], Preorder(root, rules, w), w.options.maxEntries).Done?
    requires !Scan([], Preorder(root, rules, w), w.options.maxEntries).truncated
    ensures entry in Scan([], Preorder(root, rules, w), w.options.maxEntries).entries
       <==> entry.relativePath != [] && Reaches(root, [], rules, entry.relativePath, entry, w)
  {
    hide Listed, Visits, Scan, Reaches, PlacedWell;
    var vs := Preorder(root, rules, w);
    ScanIsPrefix([], vs, w.options.maxEntries);
    assert [] + Listed(vs) == Listed(vs);
    if entry.relativePath != [] {
      assert entry.relativePath == [] + entry.relativePath;
      ListedIffReached(Siblings(root), [], rules, entry.relativePath, entry, w);
      SiblingsReach(root, [], rules, entry.relativePath, entry, w);
    } else if entry in Listed(vs) {
      VisitsParentsFirst(Siblings(root), [], rules, w);
      var k: nat :| k < |Listed(vs)| && Listed(vs)[k] == entry;
      assert PlacedWell(Listed(vs), k, []);
      PlacedIsBelow(Listed(vs), k, []);
    }
  }

  /** The converse fails: an ignored entry that is met once the list is full marks a
      report as truncated although everything shown is in it. */
  lemma TruncatedThoughComplete(matcher: Matcher)
    ensures var root := [Leaf("a", false), Folder("target", [], Entries([]))];
            var w := Walk(DiscoveryOptions(false, false, 1), matcher);
            var done := Scan([], Preorder(root, [], w), 1);
            done.Done? && done.truncated && done.entries == Listed(Preorder(root, [], w))
  {
    var a, target := Leaf("a", false), Folder("target", [], Entries([]));
    var root := [a, target];
    var w := Walk(DiscoveryOptions(false, false, 1), matcher);
    assert NameLe("a", "target");
    assert root[1..] == [target] && [target][1..] == [];
    assert StableSort(EntryLe, [target]) == [target];
    assert Siblings(root) == root;
    assert !HasDotComponent(["a"]) && !HasHeavyComponent(["a"]);
    assert EntryOf(a, [], [], matcher) == FileEntry(["a"], File, 1, false, false);
    assert HasHeavyComponent(["target"]) by {
      assert ["target"][0] in [".git", "node_modules", "target"];
    }
    var listed := VisitOf(a, [], [], w);
    var skipped := VisitOf(target, [], [], w);
    assert [] + ["target"] == ["target"];
    assert !skipped.listed;
    assert Visits([target], [], [], w) == [skipped];
    assert Inside(a, [], [], w) == [];
    assert Visits(root, [], [], w) == [listed] + [] + [skipped];
    assert Preorder(root, [], w) == [listed, skipped];
    assert [listed, skipped][1..] == [skipped];
    assert Scan([listed.entry], [skipped], 1) == Done([listed.entry], true);
    assert Scan([], [listed, skipped], 1) == Scan([] + [listed.entry], [skipped], 1);
    ListedOfOne(skipped);
    assert Listed([listed, skipped]) == [listed.entry];
    assert Scan([], Preorder(root, [], w), 1) == Done([listed.entry], true);
    assert Listed(Preorder(root, [], w)) == [listed.entry];
  }
}
