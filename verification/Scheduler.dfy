/** The two schedulers of the application (`app.rs`): a coalescing scan of the
    workspace files and a serialised write of the workspace state. */
module Schedulers {
  import opened Wrappers

  type Root = string

  datatype ExplorerOptions = ExplorerOptions(showHidden: bool, showIgnored: bool)

  datatype Workspace = Workspace(root: Root, explorer: ExplorerOptions)

  /** A snapshot of the workspace state to be written; requests are numbered. */
  datatype Snapshot = Snapshot(serial: nat, root: Root, explorer: ExplorerOptions)

  /** A background scan, with what it was started for. */
  datatype Scan = Scan(generation: nat, root: Root, options: ExplorerOptions)

  /** A background write, with the recent roots it records. */
  datatype Write = Write(generation: nat, snapshot: Snapshot, recentRoots: seq<Root>)

  /** The scheduler's own fields. */
  datatype AppState = AppState(
    hasStore: bool,
    workspace: Option<Workspace>,
    explorerOptions: ExplorerOptions,
    refreshGeneration: nat, refreshInFlight: Option<nat>, refreshPending: bool,
    persistenceGeneration: nat, persistenceInFlight: Option<(nat, Root)>, persistencePending: Option<Snapshot>,
    pendingRecentRoots: seq<Root>, activeRecentRoots: seq<Root>)

  /** What the outside world has seen: the tasks still running, the scans and
      writes started, the snapshots asked for, the scan whose report was shown
      last, and the recent roots recorded and safely written. */
  datatype World = World(
    scans: seq<Scan>, writes: seq<Write>,
    lastScan: Option<Scan>, shown: Option<Scan>,
    requested: seq<Snapshot>, started: seq<Snapshot>,
    recorded: set<Root>, written: set<Root>)

  datatype System = System(app: AppState, world: World)

  datatype Message =
    | WorkspaceOpened(root: Root, explorer: ExplorerOptions)
    | ToggleHiddenFiles(allowed: bool)
    | ToggleIgnoredFiles(allowed: bool)
    | RefreshRequested
    | PersistenceRequested
    | FilesRefreshed(scan: Scan, succeeded: bool)
    | WorkspacePersisted(write: Write, succeeded: bool)

  function Initial(hasStore: bool): System {
    System(AppState(hasStore, None, ExplorerOptions(false, false), 0, None, false, 0, None, None, [], []),
           World([], [], None, None, [], [], {}, {}))
  }

  // ------------------------------------------------------------- recent roots

  function Without(roots: seq<Root>, root: Root): seq<Root> {
    if roots == [] then []
    else (if roots[0] == root then [] else [roots[0]]) + Without(roots[1..], root)
  }

  function Enqueued(pending: seq<Root>, root: Root): seq<Root> {
    Without(pending, root) + [root]
  }

  /** Taken from the last to the first, each moved to the front. */
  function Requeued(pending: seq<Root>, roots: seq<Root>): seq<Root> {
    if roots == [] then pending
    else [roots[0]] + Without(Requeued(pending, roots[1..]), roots[0])
  }

  predicate Distinct(roots: seq<Root>) {
    forall i, j | 0 <= i < j < |roots| :: roots[i] != roots[j]
  }

  function Members(roots: seq<Root>): set<Root> {
    set root | root in roots
  }

  lemma DistinctCons(root: Root, rest: seq<Root>)
    requires Distinct(rest) && root !in rest
    ensures Distinct([root] + rest)
  {
  }

  lemma DistinctTail(roots: seq<Root>)
    requires Distinct(roots) && roots != []
    ensures Distinct(roots[1..]) && roots[0] !in roots[1..]
  {
  }

  lemma DistinctSnoc(rest: seq<Root>, root: Root)
    requires Distinct(rest) && root !in rest
    ensures Distinct(rest + [root])
  {
  }

  lemma {:induction false} WithoutIs(roots: seq<Root>, root: Root)
    ensures forall r :: r in Without(roots, root) <==> r in roots && r != root
    ensures Distinct(roots) ==> Distinct(Without(roots, root))
  {
    if roots != [] {
      WithoutIs(roots[1..], root);
      if Distinct(roots) {
        DistinctTail(roots);
        if roots[0] != root {
          DistinctCons(roots[0], Without(roots[1..], root));
        } else {
          assert [] + Without(roots[1..], root) == Without(roots[1..], root);
        }
      }
    }
  }

  /** Requeueing a failed batch keeps every root of the batch and of the queue,
      each exactly once, the batch first and in its order. */
  lemma {:induction false} RequeuedIs(pending: seq<Root>, roots: seq<Root>)
    requires Distinct(pending) && Distinct(roots)
    ensures Distinct(Requeued(pending, roots))
    ensures forall r :: r in Requeued(pending, roots) <==> r in roots || r in pending
    ensures roots <= Requeued(pending, roots)
  {
    if roots != [] {
      DistinctTail(roots);
      RequeuedIs(pending, roots[1..]);
      var rest := Requeued(pending, roots[1..]);
      WithoutIs(rest, roots[0]);
      DistinctCons(roots[0], Without(rest, roots[0]));
      WithoutKeepsPrefix(roots[1..], rest, roots[0]);
    }
  }

  lemma {:induction false} WithoutKeepsPrefix(prefix: seq<Root>, roots: seq<Root>, root: Root)
    requires prefix <= roots && root !in prefix
    ensures prefix <= Without(roots, root)
  {
    if prefix != [] {
      WithoutKeepsPrefix(prefix[1..], roots[1..], root);
    }
  }

  lemma EnqueuedIs(pending: seq<Root>, root: Root)
    requires Distinct(pending)
    ensures Distinct(Enqueued(pending, root))
    ensures forall r :: r in Enqueued(pending, root) <==> r in pending || r == root
  {
    WithoutIs(pending, root);
    DistinctSnoc(Without(pending, root), root);
  }

  // -------------------------------------------------------------- transitions

  function StartScan(s: System): System {
    if s.app.workspace.None? then s
    else
      var scan := Scan(s.app.refreshGeneration, s.app.workspace.value.root, s.app.explorerOptions);
      System(s.app.(refreshInFlight := Some(s.app.refreshGeneration)),
             s.world.(scans := s.world.scans + [scan], lastScan := Some(scan)))
  }

  function RequestScan(s: System): System {
    var bumped := s.(app := s.app.(refreshGeneration := s.app.refreshGeneration + 1));
    if s.app.workspace.None? then bumped
    else
      var workspace := s.app.workspace.value.(explorer := s.app.explorerOptions);
      var noted := bumped.(app := bumped.app.(workspace := Some(workspace)));
      if s.app.refreshInFlight.Some? then noted.(app := noted.app.(refreshPending := true)) else StartScan(noted)
  }

  function StartWrite(s: System, snapshot: Snapshot): System {
    if !s.app.hasStore then s
    else
      var generation := s.app.persistenceGeneration + 1;
      var write := Write(generation, snapshot, s.app.pendingRecentRoots);
      System(s.app.(persistenceGeneration := generation, persistenceInFlight := Some((generation, snapshot.root)),
                    pendingRecentRoots := [], activeRecentRoots := s.app.pendingRecentRoots),
             s.world.(writes := s.world.writes + [write], started := s.world.started + [snapshot]))
  }

  /** A snapshot of the current state, with the next number. */
  function NextSnapshot(s: System): Snapshot
    requires s.app.workspace.Some?
  {
    Snapshot(|s.world.requested|, s.app.workspace.value.root, s.app.workspace.value.explorer)
  }

  function RequestWrite(s: System, recordRecent: bool): System {
    if s.app.workspace.None? then s
    else
      var workspace := s.app.workspace.value;
      var snapshot := NextSnapshot(s);
      var asked := s.(world := s.world.(requested := s.world.requested + [snapshot]));
      var noted := if !recordRecent then asked
                   else System(asked.app.(pendingRecentRoots := Enqueued(asked.app.pendingRecentRoots, workspace.root)),
                               asked.world.(recorded := asked.world.recorded + {workspace.root}));
      if s.app.persistenceInFlight.Some? || s.app.refreshInFlight.Some? then
        noted.(app := noted.app.(persistencePending := Some(snapshot)))
      else StartWrite(noted, snapshot)
  }

  function Opened(s: System, root: Root, explorer: ExplorerOptions): System {
    var replaced := s.(app := s.app.(workspace := Some(Workspace(root, explorer)), explorerOptions := explorer,
                                     refreshGeneration := s.app.refreshGeneration + 1, refreshPending := false));
    RequestScan(RequestWrite(replaced, true))
  }

  function Toggled(s: System, allowed: bool, options: ExplorerOptions): System {
    if s.app.workspace.None? || !allowed then s
    else RequestWrite(RequestScan(s.(app := s.app.(explorerOptions := options))), false)
  }

  function FilesDone(s: System, generation: nat, scan: Scan, succeeded: bool): System {
    if s.app.refreshInFlight != Some(generation) then s
    else
      var landed := s.(app := s.app.(refreshInFlight := None));
      var shown := if generation == s.app.refreshGeneration && succeeded
                   then landed.(world := landed.world.(shown := Some(scan))) else landed;
      if s.app.refreshPending then StartScan(shown.(app := shown.app.(refreshPending := false)))
      else if s.app.persistenceInFlight.None? && s.app.persistencePending.Some? then
        StartWrite(shown.(app := shown.app.(persistencePending := None)), s.app.persistencePending.value)
      else shown
  }

  function WriteDone(s: System, generation: nat, root: Root, recentRoots: seq<Root>, succeeded: bool): System {
    if s.app.persistenceInFlight != Some((generation, root)) || s.app.activeRecentRoots != recentRoots then s
    else
      var landed := s.(app := s.app.(persistenceInFlight := None, activeRecentRoots := []));
      var written, pending := landed.world.written, landed.app.pendingRecentRoots;
      var settled := if succeeded then landed.(world := landed.world.(written := written + Members(recentRoots)))
                     else landed.(app := landed.app.(pendingRecentRoots := Requeued(pending, recentRoots)));
      if s.app.persistencePending.Some? then
        StartWrite(settled.(app := settled.app.(persistencePending := None)), s.app.persistencePending.value)
      else settled
  }

  function RemoveFirst<T(==)>(s: seq<T>, x: T): seq<T> {
    if s == [] then [] else if s[0] == x then s[1..] else [s[0]] + RemoveFirst(s[1..], x)
  }

  /** Completions come from running tasks, which end with them. */
  predicate Possible(s: System, m: Message) {
    && (m.FilesRefreshed? ==> m.scan in s.world.scans)
    && (m.WorkspacePersisted? ==> m.write in s.world.writes)
  }

  function Handle(s: System, m: Message): System {
    match m
    case WorkspaceOpened(root, explorer) => Opened(s, root, explorer)
    case ToggleHiddenFiles(allowed) =>
      Toggled(s, allowed, s.app.explorerOptions.(showHidden := !s.app.explorerOptions.showHidden))
    case ToggleIgnoredFiles(allowed) =>
      Toggled(s, allowed, s.app.explorerOptions.(showIgnored := !s.app.explorerOptions.showIgnored))
    case RefreshRequested => RequestScan(s)
    case PersistenceRequested => RequestWrite(s, false)
    case FilesRefreshed(scan, succeeded) =>
      FilesDone(s.(world := s.world.(scans := RemoveFirst(s.world.scans, scan))), scan.generation, scan, succeeded)
    case WorkspacePersisted(write, succeeded) =>
      WriteDone(s.(world := s.world.(writes := RemoveFirst(s.world.writes, write))),
                write.generation, write.snapshot.root, write.recentRoots, succeeded)
  }

  // ----------------------------------------------------------------- invariant

  /** One scan at most; an outdated one has a successor waiting; a current one
      was started for the current root and options. */
  predicate ScansOk(s: System) {
    && (s.app.refreshInFlight.None? ==> s.world.scans == [] && !s.app.refreshPending)
    && (s.app.refreshInFlight.Some? ==>
          && s.app.workspace.Some?
          && |s.world.scans| == 1 && s.world.scans[0].generation == s.app.refreshInFlight.value
          && s.world.lastScan == Some(s.world.scans[0]))
    && (s.app.workspace.Some? ==>
          && s.app.workspace.value.explorer == s.app.explorerOptions
          && s.world.lastScan.Some?
          && s.world.lastScan.value.generation <= s.app.refreshGeneration
          && (s.world.lastScan.value.generation < s.app.refreshGeneration <==> s.app.refreshPending)
          && (s.world.lastScan.value.generation == s.app.refreshGeneration ==>
                s.world.lastScan.value.root == s.app.workspace.value.root
                && s.world.lastScan.value.options == s.app.explorerOptions))
  }

  /** One write at most, and it is the one the application waits for. */
  predicate WritesOk(s: System) {
    && (s.app.persistenceInFlight.None? ==> s.world.writes == [] && s.app.activeRecentRoots == [])
    && (s.app.persistenceInFlight.Some? ==>
          && |s.world.writes| == 1
          && s.app.persistenceInFlight.value == (s.world.writes[0].generation, s.world.writes[0].snapshot.root)
          && s.app.activeRecentRoots == s.world.writes[0].recentRoots)
    && (!s.app.hasStore ==> s.app.persistenceInFlight.None? && s.world.started == [])
  }

  /** Started snapshots follow the order of the requests, and with a store the
      newest request is either started or waiting behind a task. */
  predicate SnapshotsOk(s: System) {
    && (forall i | 0 <= i < |s.world.requested| :: s.world.requested[i].serial == i)
    && (forall i | 0 <= i < |s.world.started| ::
          && s.world.started[i].serial < |s.world.requested|
          && s.world.started[i] == s.world.requested[s.world.started[i].serial])
    && (forall i, j | 0 <= i < j < |s.world.started| :: s.world.started[i].serial < s.world.started[j].serial)
    && (s.app.persistencePending.Some? ==>
          && s.world.requested != [] && s.app.persistencePending.value == s.world.requested[|s.world.requested| - 1]
          && (forall i | 0 <= i < |s.world.started| ::
                s.world.started[i].serial < s.app.persistencePending.value.serial)
          && (s.app.persistenceInFlight.Some? || s.app.refreshInFlight.Some?))
    && (s.app.hasStore && s.app.persistencePending.None? && s.world.requested != [] ==>
          s.world.started != [] && s.world.started[|s.world.started| - 1] == s.world.requested[|s.world.requested| - 1])
  }

  /** No recorded root is ever lost. */
  predicate RootsOk(s: System) {
    && Distinct(s.app.pendingRecentRoots) && Distinct(s.app.activeRecentRoots)
    && (forall r | r in s.world.recorded ::
          r in s.world.written || r in s.app.pendingRecentRoots || r in s.app.activeRecentRoots)
  }

  predicate Inv(s: System) {
    ScansOk(s) && WritesOk(s) && SnapshotsOk(s) && RootsOk(s)
  }

  /** What a new request needs to find: it repairs the rest. */
  predicate ScansReady(s: System) {
    && (s.app.refreshInFlight.None? ==> s.world.scans == [] && !s.app.refreshPending)
    && (s.app.refreshInFlight.Some? ==>
          && s.app.workspace.Some?
          && |s.world.scans| == 1 && s.world.scans[0].generation == s.app.refreshInFlight.value
          && s.world.lastScan == Some(s.world.scans[0])
          && s.world.scans[0].generation <= s.app.refreshGeneration)
  }

  lemma RequestScanIsOk(s: System)
    requires ScansReady(s)
    ensures ScansOk(RequestScan(s))
  {
  }

  /** The fields and logs the write scheduler goes by. */
  predicate SameWriteSide(s: System, t: System) {
    && t.app.hasStore == s.app.hasStore
    && t.app.persistenceInFlight == s.app.persistenceInFlight && t.app.persistencePending == s.app.persistencePending
    && t.app.pendingRecentRoots == s.app.pendingRecentRoots && t.app.activeRecentRoots == s.app.activeRecentRoots
    && t.world.writes == s.world.writes && t.world.requested == s.world.requested && t.world.started == s.world.started
    && t.world.recorded == s.world.recorded && t.world.written == s.world.written
    && (s.app.refreshInFlight.Some? ==> t.app.refreshInFlight.Some?)
  }

  lemma SameWriteSideIsOk(s: System, t: System)
    requires SameWriteSide(s, t) && WritesOk(s) && SnapshotsOk(s) && RootsOk(s)
    ensures WritesOk(t) && SnapshotsOk(t) && RootsOk(t)
  {
  }

  /** Requests for scans leave the write side alone. */
  lemma RequestScanKeepsWrites(s: System)
    ensures SameWriteSide(s, RequestScan(s))
  {
  }

  lemma RequestWriteKeepsScans(s: System, recordRecent: bool)
    ensures ScansOk(s) ==> ScansOk(RequestWrite(s, recordRecent))
    ensures ScansReady(s) ==> ScansReady(RequestWrite(s, recordRecent))
    ensures RequestWrite(s, recordRecent).app.workspace == s.app.workspace
  {
    hide Enqueued;
  }

  /** `snapshot` is the last one requested, and nothing as new has been started. */
  predicate NewestIs(s: System, snapshot: Snapshot) {
    && (forall i | 0 <= i < |s.world.requested| :: s.world.requested[i].serial == i)
    && s.world.requested != [] && snapshot == s.world.requested[|s.world.requested| - 1]
    && (forall i | 0 <= i < |s.world.started| ::
          && s.world.started[i].serial < snapshot.serial
          && s.world.started[i] == s.world.requested[s.world.started[i].serial])
    && (forall i, j | 0 <= i < j < |s.world.started| :: s.world.started[i].serial < s.world.started[j].serial)
  }

  /** Starting a write for the newest request, with nothing else in flight. */
  lemma StartWriteIsOk(s: System, snapshot: Snapshot)
    requires WritesOk(s) && s.app.persistenceInFlight.None? && s.app.persistencePending.None?
    requires NewestIs(s, snapshot)
    ensures WritesOk(StartWrite(s, snapshot)) && SnapshotsOk(StartWrite(s, snapshot))
  {
    var s' := StartWrite(s, snapshot);
    if s.app.hasStore {
      assert s'.world.started[|s.world.started|] == snapshot;
    }
  }

  /** Leaving it to wait behind a task that is running. */
  lemma WaitingIsOk(s: System, snapshot: Snapshot)
    requires WritesOk(s) && NewestIs(s, snapshot)
    requires s.app.persistenceInFlight.Some? || s.app.refreshInFlight.Some?
    ensures var s' := s.(app := s.app.(persistencePending := Some(snapshot))); WritesOk(s') && SnapshotsOk(s')
  {
  }

  lemma StartWriteKeepsRoots(s: System, snapshot: Snapshot)
    requires RootsOk(s) && s.app.activeRecentRoots == []
    ensures RootsOk(StartWrite(s, snapshot))
  {
    hide Distinct;
    DistinctEmpty();
  }

  lemma DistinctEmpty()
    ensures Distinct([])
  {
  }

  /** A write request up to the point where it starts or waits. */
  function Asked(s: System, recordRecent: bool): System
    requires s.app.workspace.Some?
  {
    var workspace := s.app.workspace.value;
    var asked := s.(world := s.world.(requested := s.world.requested + [NextSnapshot(s)]));
    if !recordRecent then asked
    else System(asked.app.(pendingRecentRoots := Enqueued(asked.app.pendingRecentRoots, workspace.root)),
                asked.world.(recorded := asked.world.recorded + {workspace.root}))
  }

  lemma RequestWriteIs(s: System, recordRecent: bool)
    requires s.app.workspace.Some?
    ensures var asked, snapshot := Asked(s, recordRecent), NextSnapshot(s);
            RequestWrite(s, recordRecent)
            == if s.app.persistenceInFlight.Some? || s.app.refreshInFlight.Some?
               then asked.(app := asked.app.(persistencePending := Some(snapshot))) else StartWrite(asked, snapshot)
  {
  }

  lemma AskedKeepsRoots(s: System, recordRecent: bool)
    requires s.app.workspace.Some? && RootsOk(s)
    ensures RootsOk(Asked(s, recordRecent))
  {
    hide Distinct, Enqueued;
    EnqueuedIs(s.app.pendingRecentRoots, s.app.workspace.value.root);
  }

  lemma AskedIsNewest(s: System, recordRecent: bool)
    requires s.app.workspace.Some? && WritesOk(s) && SnapshotsOk(s)
    ensures var asked := Asked(s, recordRecent);
            && WritesOk(asked) && NewestIs(asked, NextSnapshot(s))
            && asked.app.refreshInFlight == s.app.refreshInFlight
            && asked.app.persistenceInFlight == s.app.persistenceInFlight
            && (s.app.persistenceInFlight.None? && s.app.refreshInFlight.None? ==>
                  asked.app.persistencePending.None? && asked.app.activeRecentRoots == [])
  {
    hide Enqueued;
  }

  lemma {:induction false} RequestWriteIsOk(s: System, recordRecent: bool)
    requires WritesOk(s) && SnapshotsOk(s) && RootsOk(s)
    ensures var s' := RequestWrite(s, recordRecent); WritesOk(s') && SnapshotsOk(s') && RootsOk(s')
  {
    hide Asked, NewestIs, WritesOk, RootsOk, StartWrite;
    if s.app.workspace.Some? {
      var asked, snapshot := Asked(s, recordRecent), NextSnapshot(s);
      RequestWriteIs(s, recordRecent);
      AskedKeepsRoots(s, recordRecent);
      AskedIsNewest(s, recordRecent);
      if s.app.persistenceInFlight.None? && s.app.refreshInFlight.None? {
        StartWriteIsOk(asked, snapshot);
        StartWriteKeepsRoots(asked, snapshot);
      } else {
        WaitingIsOk(asked, snapshot);
        SameRoots(asked, asked.(app := asked.app.(persistencePending := Some(snapshot))));
      }
    }
  }

  lemma SameRoots(s: System, t: System)
    requires RootsOk(s)
    requires t.app.pendingRecentRoots == s.app.pendingRecentRoots && t.app.activeRecentRoots == s.app.activeRecentRoots
    requires t.world.recorded == s.world.recorded && t.world.written == s.world.written
    ensures RootsOk(t)
  {
  }

  lemma OnlyOne<T>(s: seq<T>, x: T)
    requires |s| == 1 && x in s
    ensures s == [x] && RemoveFirst(s, x) == []
  {
  }

  /** A scan's completion is always accepted, and its report is shown exactly when
      no newer request is waiting; it is then about the current root and options. */
  lemma ScanCompletion(s: System, scan: Scan, succeeded: bool)
    requires ScansOk(s) && scan in s.world.scans
    ensures var s' := Handle(s, FilesRefreshed(scan, succeeded));
            && s.app.refreshInFlight == Some(scan.generation)
            && ScansOk(s')
            && (s'.world.shown != s.world.shown ==> s'.world.shown == Some(scan))
            && (succeeded && !s.app.refreshPending ==> s'.world.shown == Some(scan))
            && (!succeeded || s.app.refreshPending ==> s'.world.shown == s.world.shown)
            && (!s.app.refreshPending ==>
                  scan.root == s.app.workspace.value.root && scan.options == s.app.explorerOptions)
            && (s.app.refreshPending ==> s'.app.refreshInFlight == Some(s.app.refreshGeneration))
  {
    OnlyOne(s.world.scans, scan);
  }

  /** The system once a scan has landed, before anything else is started. */
  function Landed(s: System, scan: Scan, succeeded: bool): System {
    System(s.app.(refreshInFlight := None),
           s.world.(scans := RemoveFirst(s.world.scans, scan),
                    shown := if scan.generation == s.app.refreshGeneration && succeeded then Some(scan)
                             else s.world.shown))
  }

  lemma ScanCompletionIs(s: System, scan: Scan, succeeded: bool)
    requires ScansOk(s) && scan in s.world.scans
    ensures var landed := Landed(s, scan, succeeded);
            Handle(s, FilesRefreshed(scan, succeeded))
            == if s.app.refreshPending then StartScan(landed.(app := landed.app.(refreshPending := false)))
               else if s.app.persistenceInFlight.None? && s.app.persistencePending.Some? then
                 StartWrite(landed.(app := landed.app.(persistencePending := None)), s.app.persistencePending.value)
               else landed
  {
    OnlyOne(s.world.scans, scan);
  }

  lemma {:induction false} ScanCompletionKeepsWrites(s: System, scan: Scan, succeeded: bool)
    requires Inv(s) && scan in s.world.scans
    ensures var s' := Handle(s, FilesRefreshed(scan, succeeded)); WritesOk(s') && SnapshotsOk(s') && RootsOk(s')
  {
    hide Distinct, StartWrite;
    ScanCompletionIs(s, scan, succeeded);
    var landed := Landed(s, scan, succeeded);
    if s.app.refreshPending {
      SameWriteSideIsOk(s, StartScan(landed.(app := landed.app.(refreshPending := false))));
    } else if s.app.persistenceInFlight.None? && s.app.persistencePending.Some? {
      var ready := landed.(app := landed.app.(persistencePending := None));
      StartWriteIsOk(ready, s.app.persistencePending.value);
      SameRoots(s, ready);
      StartWriteKeepsRoots(ready, s.app.persistencePending.value);
    } else {
      SameRoots(s, landed);
    }
  }

  /** The system once a write has ended, before the next one is started. */
  function Settled(s: System, write: Write, succeeded: bool): System {
    var app := s.app.(persistenceInFlight := None, activeRecentRoots := []);
    var world := s.world.(writes := RemoveFirst(s.world.writes, write));
    if succeeded then System(app, world.(written := world.written + Members(write.recentRoots)))
    else System(app.(pendingRecentRoots := Requeued(app.pendingRecentRoots, write.recentRoots)), world)
  }

  /** A write's completion is always accepted. */
  lemma WriteCompletionIs(s: System, write: Write, succeeded: bool)
    requires WritesOk(s) && write in s.world.writes
    ensures s.app.persistenceInFlight == Some((write.generation, write.snapshot.root))
    ensures s.app.activeRecentRoots == write.recentRoots && s.world.writes == [write]
    ensures var settled := Settled(s, write, succeeded);
            Handle(s, WorkspacePersisted(write, succeeded))
            == if s.app.persistencePending.Some? then
                 StartWrite(settled.(app := settled.app.(persistencePending := None)), s.app.persistencePending.value)
               else settled
  {
    hide Requeued, Members;
    OnlyOne(s.world.writes, write);
  }

  /** A failed batch returns to the queue: every root that was active or pending
      is pending exactly once, the batch first; a successful one is written. */
  lemma SettledRoots(s: System, write: Write, succeeded: bool)
    requires RootsOk(s) && s.app.activeRecentRoots == write.recentRoots
    ensures RootsOk(Settled(s, write, succeeded))
    ensures !succeeded ==>
              && Distinct(Settled(s, write, succeeded).app.pendingRecentRoots)
              && write.recentRoots <= Settled(s, write, succeeded).app.pendingRecentRoots
              && forall r :: r in Settled(s, write, succeeded).app.pendingRecentRoots
                             <==> r in s.app.activeRecentRoots || r in s.app.pendingRecentRoots
  {
    hide Distinct, Requeued;
    DistinctEmpty();
    RequeuedIs(s.app.pendingRecentRoots, write.recentRoots);
  }

  lemma WriteCompletionIsOk(s: System, write: Write, succeeded: bool)
    requires Inv(s) && write in s.world.writes
    ensures Inv(Handle(s, WorkspacePersisted(write, succeeded)))
  {
    hide Distinct, StartWrite, Requeued, Members, RootsOk, ScansOk;
    WriteCompletionIs(s, write, succeeded);
    var settled := Settled(s, write, succeeded);
    OnlyOne(s.world.writes, write);
    SettledRoots(s, write, succeeded);
    if s.app.persistencePending.Some? {
      var ready := settled.(app := settled.app.(persistencePending := None));
      StartWriteIsOk(ready, s.app.persistencePending.value);
      SameRoots(settled, ready);
      StartWriteKeepsRoots(ready, s.app.persistencePending.value);
      StartWriteKeepsScans(s, ready, s.app.persistencePending.value);
    } else {
      SameScans(s, settled);
    }
  }

  lemma SameScans(s: System, t: System)
    requires ScansOk(s)
    requires t.app.refreshInFlight == s.app.refreshInFlight && t.app.refreshPending == s.app.refreshPending
    requires t.app.workspace == s.app.workspace && t.app.explorerOptions == s.app.explorerOptions
    requires t.app.refreshGeneration == s.app.refreshGeneration
    requires t.world.scans == s.world.scans && t.world.lastScan == s.world.lastScan
    ensures ScansOk(t)
  {
  }

  lemma StartWriteKeepsScans(s: System, t: System, snapshot: Snapshot)
    requires ScansOk(s)
    requires t.app.refreshInFlight == s.app.refreshInFlight && t.app.refreshPending == s.app.refreshPending
    requires t.app.workspace == s.app.workspace && t.app.explorerOptions == s.app.explorerOptions
    requires t.app.refreshGeneration == s.app.refreshGeneration
    requires t.world.scans == s.world.scans && t.world.lastScan == s.world.lastScan
    ensures ScansOk(StartWrite(t, snapshot))
  {
    SameScans(s, StartWrite(t, snapshot));
  }

  lemma OpenedIsOk(s: System, root: Root, explorer: ExplorerOptions)
    requires Inv(s)
    ensures Inv(Opened(s, root, explorer))
  {
    hide Distinct, StartWrite, RequestScan, RequestWrite;
    var replaced := s.(app := s.app.(workspace := Some(Workspace(root, explorer)), explorerOptions := explorer,
                                     refreshGeneration := s.app.refreshGeneration + 1, refreshPending := false));
    SameWriteSideIsOk(s, replaced);
    RequestWriteIsOk(replaced, true);
    RequestWriteKeepsScans(replaced, true);
    RequestIsOk(RequestWrite(replaced, true));
  }

  lemma RequestIsOk(s: System)
    requires ScansReady(s) && WritesOk(s) && SnapshotsOk(s) && RootsOk(s)
    ensures Inv(RequestScan(s))
  {
    hide RequestScan, ScansOk, ScansReady, WritesOk, SnapshotsOk, RootsOk;
    RequestScanIsOk(s);
    RequestScanKeepsWrites(s);
    SameWriteSideIsOk(s, RequestScan(s));
  }

  lemma ToggledIsOk(s: System, allowed: bool, options: ExplorerOptions)
    requires Inv(s)
    ensures Inv(Toggled(s, allowed, options))
  {
    hide Distinct, StartWrite, RequestScan, RequestWrite;
    if s.app.workspace.Some? && allowed {
      var changed := s.(app := s.app.(explorerOptions := options));
      SameWriteSideIsOk(s, changed);
      RequestIsOk(changed);
      RequestWriteIsOk(RequestScan(changed), false);
      RequestWriteKeepsScans(RequestScan(changed), false);
    }
  }

  /** Every message keeps the invariant. */
  lemma {:induction false} HandleKeepsInv(s: System, m: Message)
    requires Inv(s) && Possible(s, m)
    ensures Inv(Handle(s, m))
  {
    hide Distinct, Opened, Toggled, RequestScan, RequestWrite, FilesDone, WriteDone, SnapshotsOk, RootsOk;
    match m
    case WorkspaceOpened(root, explorer) => OpenedIsOk(s, root, explorer);
    case ToggleHiddenFiles(allowed) =>
      ToggledIsOk(s, allowed, s.app.explorerOptions.(showHidden := !s.app.explorerOptions.showHidden));
    case ToggleIgnoredFiles(allowed) =>
      ToggledIsOk(s, allowed, s.app.explorerOptions.(showIgnored := !s.app.explorerOptions.showIgnored));
    case RefreshRequested => RequestIsOk(s);
    case PersistenceRequested =>
      RequestWriteIsOk(s, false);
      RequestWriteKeepsScans(s, false);
    case FilesRefreshed(scan, succeeded) =>
      ScanCompletion(s, scan, succeeded);
      ScanCompletionKeepsWrites(s, scan, succeeded);
    case WorkspacePersisted(write, succeeded) => WriteCompletionIsOk(s, write, succeeded);
  }

  // ---------------------------------------------------------------- whole runs

  predicate Runs(s: System, messages: seq<Message>)
    decreases |messages|
  {
    messages == [] || (Possible(s, messages[0]) && Runs(Handle(s, messages[0]), messages[1..]))
  }

  function Run(s: System, messages: seq<Message>): System
    decreases |messages|
  {
    if messages == [] then s else Run(Handle(s, messages[0]), messages[1..])
  }

  lemma {:induction false} RunKeepsInv(s: System, messages: seq<Message>)
    requires Inv(s) && Runs(s, messages)
    ensures Inv(Run(s, messages))
    decreases |messages|
  {
    hide Inv, Handle, Possible;
    if messages != [] {
      HandleKeepsInv(s, messages[0]);
      RunKeepsInv(Handle(s, messages[0]), messages[1..]);
    }
  }

  lemma InitialInv(hasStore: bool)
    ensures Inv(Initial(hasStore))
  {
  }

  /** In every run at most one scan and one write are running, and a scan that was
      overtaken by a newer request has that request waiting behind it. */
  lemma AtMostOneOfEach(hasStore: bool, messages: seq<Message>)
    requires Runs(Initial(hasStore), messages)
    ensures var s := Run(Initial(hasStore), messages);
            && |s.world.scans| <= 1 && |s.world.writes| <= 1
            && (s.app.refreshPending ==> s.world.scans != [])
            && (forall scan | scan in s.world.scans && scan.generation < s.app.refreshGeneration ::
                  s.app.refreshPending)
  {
    hide Run, RootsOk, SnapshotsOk;
    InitialInv(hasStore);
    RunKeepsInv(Initial(hasStore), messages);
  }

  /** No request is lost: with no scan running, the newest request was answered by
      a scan of the current root with the current options. */
  lemma NoRefreshIsLost(hasStore: bool, messages: seq<Message>)
    requires Runs(Initial(hasStore), messages)
    requires var s := Run(Initial(hasStore), messages); s.app.workspace.Some? && s.world.scans == []
    ensures var s := Run(Initial(hasStore), messages);
            s.world.lastScan == Some(Scan(s.app.refreshGeneration, s.app.workspace.value.root, s.app.explorerOptions))
  {
    hide Run, RootsOk, SnapshotsOk, WritesOk;
    InitialInv(hasStore);
    RunKeepsInv(Initial(hasStore), messages);
  }

  /** Whatever report is accepted was computed with the root and the options that
      are current at that moment, across every workspace replacement. */
  lemma AcceptedScanIsCurrent(hasStore: bool, messages: seq<Message>, scan: Scan)
    requires Runs(Initial(hasStore), messages)
    requires var s := Run(Initial(hasStore), messages);
             scan in s.world.scans && Handle(s, FilesRefreshed(scan, true)).world.shown != s.world.shown
    ensures var s := Run(Initial(hasStore), messages);
            && Handle(s, FilesRefreshed(scan, true)).world.shown == Some(scan)
            && s.app.workspace.Some? && scan.root == s.app.workspace.value.root && scan.options == s.app.explorerOptions
  {
    hide Run, RootsOk, SnapshotsOk, WritesOk, Handle;
    InitialInv(hasStore);
    RunKeepsInv(Initial(hasStore), messages);
    ScanCompletion(Run(Initial(hasStore), messages), scan, true);
  }

  /** With a store, started snapshots are an in-order selection of the requested
      ones, and when neither task is running the newest request was started. */
  lemma SnapshotsInOrder(messages: seq<Message>)
    requires Runs(Initial(true), messages)
    ensures var s := Run(Initial(true), messages);
            && (forall i | 0 <= i < |s.world.started| ::
                  && s.world.started[i].serial < |s.world.requested|
                  && s.world.started[i] == s.world.requested[s.world.started[i].serial])
            && (forall i, j | 0 <= i < j < |s.world.started| :: s.world.started[i].serial < s.world.started[j].serial)
            && (s.world.scans == [] && s.world.writes == [] && s.world.requested != [] ==>
                  && s.world.started != []
                  && s.world.started[|s.world.started| - 1] == s.world.requested[|s.world.requested| - 1])
  {
    hide Run, RootsOk;
    InitialInv(true);
    RunKeepsInv(Initial(true), messages);
    StoreStays(Initial(true), messages);
  }

  lemma {:induction false} StoreStays(s: System, messages: seq<Message>)
    ensures Run(s, messages).app.hasStore == s.app.hasStore
    decreases |messages|
  {
    if messages != [] {
      StoreStaysOnce(s, messages[0]);
      hide Handle;
      StoreStays(Handle(s, messages[0]), messages[1..]);
    }
  }

  lemma StoreStaysOnce(s: System, m: Message)
    ensures Handle(s, m).app.hasStore == s.app.hasStore
  {
    hide Enqueued, Requeued, RemoveFirst;
  }

  /** No recent root is lost: each one recorded has been written, or waits, or is
      in the batch being written. */
  lemma NoRootIsLost(hasStore: bool, messages: seq<Message>, root: Root)
    requires Runs(Initial(hasStore), messages) && root in Run(Initial(hasStore), messages).world.recorded
    ensures var s := Run(Initial(hasStore), messages);
            && Distinct(s.app.pendingRecentRoots) && Distinct(s.app.activeRecentRoots)
            && (root in s.world.written || root in s.app.pendingRecentRoots || root in s.app.activeRecentRoots)
  {
    hide Run, ScansOk, SnapshotsOk, WritesOk, Distinct;
    InitialInv(hasStore);
    RunKeepsInv(Initial(hasStore), messages);
  }

  // ------------------------------------------------- what has reached the disk

  /** The newest request is for the state the application is in, and no root is queued
      or written that was not recorded. */
  ghost predicate RequestsCurrent(s: System) {
    && (s.app.workspace.Some? ==>
          && s.world.requested != []
          && var last := s.world.requested[|s.world.requested| - 1];
             last.root == s.app.workspace.value.root
             && last.explorer == s.app.workspace.value.explorer == s.app.explorerOptions)
    && (forall r | r in s.app.pendingRecentRoots || r in s.app.activeRecentRoots || r in s.world.written ::
          r in s.world.recorded)
  }

  /** Roots wait only for a write that is itself waiting. */
  predicate NoneLeftBehind(s: System) {
    s.app.hasStore && s.app.persistencePending.None? ==> s.app.pendingRecentRoots == []
  }

  lemma RequestScanKeeps(s: System)
    requires s.app.workspace.Some? ==> s.app.workspace.value.explorer == s.app.explorerOptions
    ensures RequestsCurrent(s) ==> RequestsCurrent(RequestScan(s))
    ensures NoneLeftBehind(s) ==> NoneLeftBehind(RequestScan(s))
  {
  }

  /** A write request makes the newest snapshot the current one, whatever it was. */
  lemma RequestWriteKeeps(s: System, recordRecent: bool)
    requires s.app.workspace.Some? && s.app.workspace.value.explorer == s.app.explorerOptions
    requires forall r | r in s.app.pendingRecentRoots || r in s.app.activeRecentRoots || r in s.world.written ::
               r in s.world.recorded
    requires Distinct(s.app.pendingRecentRoots)
    ensures RequestsCurrent(RequestWrite(s, recordRecent))
    ensures NoneLeftBehind(RequestWrite(s, recordRecent))
  {
    hide Enqueued, Distinct;
    EnqueuedIs(s.app.pendingRecentRoots, s.app.workspace.value.root);
  }

  lemma ToggleKeeps(s: System, allowed: bool, options: ExplorerOptions)
    requires Inv(s) && RequestsCurrent(s)
    ensures RequestsCurrent(Toggled(s, allowed, options))
    ensures NoneLeftBehind(s) ==> NoneLeftBehind(Toggled(s, allowed, options))
  {
    hide Distinct, RequestWrite, SnapshotsOk, WritesOk, NoneLeftBehind;
    if s.app.workspace.Some? && allowed {
      RequestWriteKeeps(RequestScan(s.(app := s.app.(explorerOptions := options))), false);
    }
  }

  lemma OpeningKeeps(s: System, root: Root, explorer: ExplorerOptions)
    requires Inv(s) && RequestsCurrent(s)
    ensures RequestsCurrent(Opened(s, root, explorer)) && NoneLeftBehind(Opened(s, root, explorer))
  {
    hide Distinct, RequestWrite, RequestScan, SnapshotsOk, WritesOk, ScansOk, NoneLeftBehind;
    var replaced := s.(app := s.app.(workspace := Some(Workspace(root, explorer)), explorerOptions := explorer,
                                     refreshGeneration := s.app.refreshGeneration + 1, refreshPending := false));
    RequestWriteKeeps(replaced, true);
    RequestWriteKeepsScans(replaced, true);
    RequestScanKeeps(RequestWrite(replaced, true));
  }

  lemma ScanCompletionKeeps(s: System, scan: Scan, succeeded: bool)
    requires Inv(s) && scan in s.world.scans && RequestsCurrent(s)
    ensures var s' := Handle(s, FilesRefreshed(scan, succeeded));
            RequestsCurrent(s') && (NoneLeftBehind(s) ==> NoneLeftBehind(s'))
  {
    hide Distinct, SnapshotsOk, Handle;
    ScanCompletionIs(s, scan, succeeded);
  }

  lemma WriteCompletionKeeps(s: System, write: Write, succeeded: bool)
    requires Inv(s) && write in s.world.writes && RequestsCurrent(s)
    ensures var s' := Handle(s, WorkspacePersisted(write, succeeded));
            RequestsCurrent(s') && (NoneLeftBehind(s) && succeeded ==> NoneLeftBehind(s'))
  {
    hide Distinct, SnapshotsOk, Handle, Requeued;
    WriteCompletionIs(s, write, succeeded);
    RequeuedIs(s.app.pendingRecentRoots, write.recentRoots);
  }

  predicate Fails(m: Message) { m.WorkspacePersisted? && !m.succeeded }

  lemma {:induction false} HandleKeeps(s: System, m: Message)
    requires Inv(s) && Possible(s, m) && RequestsCurrent(s)
    ensures RequestsCurrent(Handle(s, m))
    ensures NoneLeftBehind(s) && !Fails(m) ==> NoneLeftBehind(Handle(s, m))
  {
    hide Distinct, Opened, Toggled, RequestScan, FilesDone, WriteDone, SnapshotsOk, StartWrite, Enqueued;
    match m
    case WorkspaceOpened(root, explorer) => OpeningKeeps(s, root, explorer);
    case ToggleHiddenFiles(allowed) =>
      ToggleKeeps(s, allowed, s.app.explorerOptions.(showHidden := !s.app.explorerOptions.showHidden));
    case ToggleIgnoredFiles(allowed) =>
      ToggleKeeps(s, allowed, s.app.explorerOptions.(showIgnored := !s.app.explorerOptions.showIgnored));
    case RefreshRequested => RequestScanKeeps(s);
    case PersistenceRequested =>
      if s.app.workspace.Some? {
        RequestWriteKeeps(s, false);
      }
    case FilesRefreshed(scan, succeeded) => ScanCompletionKeeps(s, scan, succeeded);
    case WorkspacePersisted(write, succeeded) => WriteCompletionKeeps(s, write, succeeded);
  }

  lemma {:induction false} RunKeeps(s: System, messages: seq<Message>)
    requires Inv(s) && Runs(s, messages) && RequestsCurrent(s)
    ensures RequestsCurrent(Run(s, messages))
    ensures NoneLeftBehind(s) && (forall m | m in messages :: !Fails(m)) ==> NoneLeftBehind(Run(s, messages))
    decreases |messages|
  {
    hide Inv, Handle, Possible, RequestsCurrent, NoneLeftBehind, Fails;
    if messages != [] {
      HandleKeepsInv(s, messages[0]);
      HandleKeeps(s, messages[0]);
      RunKeeps(Handle(s, messages[0]), messages[1..]);
    }
  }

  /** With a store and no task running, the write started last is of the current root
      and options. */
  lemma RestIsWritten(messages: seq<Message>)
    requires Runs(Initial(true), messages)
    requires var s := Run(Initial(true), messages);
             s.app.workspace.Some? && s.world.scans == [] && s.world.writes == []
    ensures var s := Run(Initial(true), messages);
            && s.world.started != []
            && var last := s.world.started[|s.world.started| - 1];
               last.root == s.app.workspace.value.root && last.explorer == s.app.explorerOptions
  {
    hide Run, Inv;
    InitialInv(true);
    RunKeeps(Initial(true), messages);
    SnapshotsInOrder(messages);
  }

  /** No root is invented; and with a store, once no task is running and no write has
      failed, the roots that were recorded are exactly the ones on disk. */
  lemma RestHasWrittenRoots(messages: seq<Message>)
    requires Runs(Initial(true), messages)
    ensures var s := Run(Initial(true), messages);
            && (forall r | r in s.world.written :: r in s.world.recorded)
            && ((forall m | m in messages :: !Fails(m)) && s.world.scans == [] && s.world.writes == [] ==>
                  s.world.written == s.world.recorded)
  {
    hide Run, Fails, ScansOk, Distinct;
    InitialInv(true);
    RunKeepsInv(Initial(true), messages);
    RunKeeps(Initial(true), messages);
    StoreStays(Initial(true), messages);
    RestHasNothingPending(Run(Initial(true), messages));
  }

  lemma RestHasNothingPending(s: System)
    requires Inv(s)
    ensures s.world.scans == [] && s.world.writes == [] ==>
              s.app.persistencePending.None? && s.app.activeRecentRoots == []
  {
  }

  // --------------------------------------------------- what each message asks for

  /** Opening a workspace makes it the current one, records its root, and asks for one
      snapshot of it and for one scan; from rest the snapshot is written at once. */
  lemma OpeningAsks(s: System, root: Root, explorer: ExplorerOptions)
    ensures var s' := Handle(s, WorkspaceOpened(root, explorer));
            && s'.app.workspace == Some(Workspace(root, explorer)) && s'.app.explorerOptions == explorer
            && s'.world.recorded == s.world.recorded + {root} && s'.world.written == s.world.written
            && s'.world.requested == s.world.requested + [Snapshot(|s.world.requested|, root, explorer)]
            && s'.app.refreshGeneration > s.app.refreshGeneration
            && s'.world.shown == s.world.shown
            && (s.app.hasStore && s.app.persistenceInFlight.None? && s.app.refreshInFlight.None? ==>
                  && |s'.world.writes| == |s.world.writes| + 1 && |s'.world.scans| == |s.world.scans| + 1
                  && s'.world.writes[|s.world.writes|].snapshot == s'.world.requested[|s.world.requested|])
  {
    hide Enqueued;
  }

  /** Each refresh request takes a new generation and is scanned at once or waits behind
      the scan that is running; each request to persist asks for one current snapshot. */
  lemma {:induction false} RequestsAsk(s: System)
    requires s.app.workspace.Some?
    ensures var s' := Handle(s, RefreshRequested);
            && s'.app.refreshGeneration == s.app.refreshGeneration + 1
            && (if s.app.refreshInFlight.Some? then s'.app.refreshPending && s'.world == s.world
                else && s'.app.refreshInFlight == Some(s'.app.refreshGeneration)
                     && s'.world.scans == s.world.scans + [Scan(s'.app.refreshGeneration, s.app.workspace.value.root,
                                                                s.app.explorerOptions)])
    ensures var s' := Handle(s, PersistenceRequested);
            && s'.world.requested == s.world.requested + [NextSnapshot(s)]
            && s'.app.refreshGeneration == s.app.refreshGeneration
            && (s.app.hasStore && s.app.persistenceInFlight.None? && s.app.refreshInFlight.None? ==>
                  s'.world.started == s.world.started + [NextSnapshot(s)])
  {
  }

  /** Only opening a workspace records a root; and with no workspace nothing is asked for. */
  lemma {:induction false} OnlyOpeningRecords(s: System, m: Message)
    requires !m.WorkspaceOpened?
    ensures Handle(s, m).world.recorded == s.world.recorded && Handle(s, m).app.workspace.Some? == s.app.workspace.Some?
    ensures s.app.workspace.None? && !m.FilesRefreshed? && !m.WorkspacePersisted? ==>
              Handle(s, m).world == s.world
  {
    hide Enqueued, Requeued, RemoveFirst;
  }

  /** A completion that is not the one awaited changes nothing the application holds or
      shows, and starts nothing. */
  lemma {:induction false} StaleCompletionsChangeNothing(s: System, m: Message)
    requires || (m.FilesRefreshed? && s.app.refreshInFlight != Some(m.scan.generation))
             || (m.WorkspacePersisted?
                 && (s.app.persistenceInFlight != Some((m.write.generation, m.write.snapshot.root))
                     || s.app.activeRecentRoots != m.write.recentRoots))
    ensures var s' := Handle(s, m);
            && s'.app == s.app && s'.world.shown == s.world.shown && s'.world.written == s.world.written
            && s'.world.started == s.world.started && s'.world.lastScan == s.world.lastScan
  {
    hide RemoveFirst;
  }

  /** A toggle flips its own option only, and only when the explorer may be used; the
      snapshot it asks for has the new options and waits behind the scan, and no root is
      recorded. */
  lemma TogglingAsks(s: System, m: Message)
    requires m.ToggleHiddenFiles? || m.ToggleIgnoredFiles?
    ensures var s' := Handle(s, m);
            var before, after := s.app.explorerOptions, s'.app.explorerOptions;
            if s.app.workspace.None? || !m.allowed then s' == s
            else
              && (after.showHidden != before.showHidden <==> m.ToggleHiddenFiles?)
              && (after.showIgnored != before.showIgnored <==> m.ToggleIgnoredFiles?)
              && s'.app.workspace == Some(Workspace(s.app.workspace.value.root, after))
              && s'.world.requested
                 == s.world.requested + [Snapshot(|s.world.requested|, s.app.workspace.value.root, after)]
              && s'.world.recorded == s.world.recorded
              && s'.app.refreshGeneration == s.app.refreshGeneration + 1
              && s'.world.writes == s.world.writes && s'.app.refreshInFlight.Some?
              && s'.app.persistencePending == Some(s'.world.requested[|s.world.requested|])
  {
    hide RequestScan, RequestWrite, StartScan, StartWrite, Toggled;
    if s.app.workspace.Some? && m.allowed {
      var before := s.app.explorerOptions;
      ToggledAsks(s, if m.ToggleHiddenFiles? then before.(showHidden := !before.showHidden)
                     else before.(showIgnored := !before.showIgnored));
    } else {
      NothingToggled(s, m);
    }
  }

  lemma NothingToggled(s: System, m: Message)
    requires (m.ToggleHiddenFiles? || m.ToggleIgnoredFiles?) && (s.app.workspace.None? || !m.allowed)
    ensures Handle(s, m) == s
  {
  }

  lemma ToggledAsks(s: System, options: ExplorerOptions)
    requires s.app.workspace.Some?
    ensures var s', root := Toggled(s, true, options), s.app.workspace.value.root;
            && s'.app.explorerOptions == options && s'.app.workspace == Some(Workspace(root, options))
            && s'.world.requested == s.world.requested + [Snapshot(|s.world.requested|, root, options)]
            && s'.world.recorded == s.world.recorded && s'.world.writes == s.world.writes
            && s'.app.refreshGeneration == s.app.refreshGeneration + 1 && s'.app.refreshInFlight.Some?
            && s'.app.persistencePending == Some(s'.world.requested[|s.world.requested|])
  {
    hide RequestScan, RequestWrite;
    var changed := s.(app := s.app.(explorerOptions := options));
    ScanAsked(changed);
    RequestScanKeepsWrites(changed);
    RequestWriteIs(RequestScan(changed), false);
  }

  lemma ScanAsked(s: System)
    requires s.app.workspace.Some?
    ensures var s' := RequestScan(s);
            && s'.app.explorerOptions == s.app.explorerOptions
            && s'.app.workspace == Some(Workspace(s.app.workspace.value.root, s.app.explorerOptions))
            && s'.app.refreshGeneration == s.app.refreshGeneration + 1 && s'.app.refreshInFlight.Some?
  {
  }

  // --------------------------------------------------------------- the object

  /** The scheduling fields of `StruktApp`; `world` is what its tasks amount to. */
  class StruktApp {
    const hasStore: bool
    var workspace: Option<Workspace>
    var explorerOptions: ExplorerOptions
    var refreshGeneration: nat
    var refreshInFlight: Option<nat>
    var refreshPending: bool
    var persistenceGeneration: nat
    var persistenceInFlight: Option<(nat, Root)>
    var persistencePending: Option<Snapshot>
    var pendingRecentRoots: seq<Root>
    var activeRecentRoots: seq<Root>
    ghost var world: World

    ghost function View(): System
      reads this
    {
      System(AppState(hasStore, workspace, explorerOptions, refreshGeneration, refreshInFlight, refreshPending,
                      persistenceGeneration, persistenceInFlight, persistencePending,
                      pendingRecentRoots, activeRecentRoots), world)
    }

    constructor (hasStore: bool)
      ensures View() == Initial(hasStore)
    {
      this.hasStore := hasStore;
      workspace, explorerOptions := None, ExplorerOptions(false, false);
      refreshGeneration, refreshInFlight, refreshPending := 0, None, false;
      persistenceGeneration, persistenceInFlight, persistencePending := 0, None, None;
      pendingRecentRoots, activeRecentRoots := [], [];
      world := World([], [], None, None, [], [], {}, {});
    }

    method EnqueueRecentRoot(root: Root)
      modifies this`pendingRecentRoots
      ensures pendingRecentRoots == Enqueued(old(pendingRecentRoots), root)
    {
      pendingRecentRoots := Without(pendingRecentRoots, root);
      pendingRecentRoots := pendingRecentRoots + [root];
    }

    method RequeueRecentRoots(roots: seq<Root>)
      modifies this`pendingRecentRoots
      ensures pendingRecentRoots == Requeued(old(pendingRecentRoots), roots)
    {
      for i := |roots| downto 0
        invariant pendingRecentRoots == Requeued(old(pendingRecentRoots), roots[i..])
      {
        assert roots[i..][0] == roots[i] && roots[i..][1..] == roots[i + 1..];
        pendingRecentRoots := Without(pendingRecentRoots, roots[i]);
        pendingRecentRoots := [roots[i]] + pendingRecentRoots;
      }
      assert roots[0..] == roots;
    }

    method StartFileRefresh()
      modifies this
      ensures View() == StartScan(old(View()))
    {
      if workspace.None? {
        return;
      }
      ghost var scan := Scan(refreshGeneration, workspace.value.root, explorerOptions);
      refreshInFlight := Some(refreshGeneration);
      world := world.(scans := world.scans + [scan], lastScan := Some(scan));
    }

    method RequestFileRefresh()
      modifies this
      ensures View() == RequestScan(old(View()))
    {
      refreshGeneration := refreshGeneration + 1;
      if workspace.None? {
        return;
      }
      workspace := Some(workspace.value.(explorer := explorerOptions));
      if refreshInFlight.Some? {
        refreshPending := true;
      } else {
        StartFileRefresh();
      }
    }

    method StartPersistence(snapshot: Snapshot)
      modifies this
      ensures View() == StartWrite(old(View()), snapshot)
    {
      if !hasStore {
        return;
      }
      persistenceGeneration := persistenceGeneration + 1;
      var recentRoots := pendingRecentRoots;
      pendingRecentRoots := [];
      activeRecentRoots := recentRoots;
      persistenceInFlight := Some((persistenceGeneration, snapshot.root));
      world := world.(writes := world.writes + [Write(persistenceGeneration, snapshot, recentRoots)],
                      started := world.started + [snapshot]);
    }

    /** `serial` numbers the request; the snapshot itself is of the current state. */
    method RequestPersistence(recordRecent: bool, serial: nat)
      requires serial == |world.requested|
      modifies this
      ensures View() == RequestWrite(old(View()), recordRecent)
    {
      if workspace.None? {
        return;
      }
      var snapshot := Snapshot(serial, workspace.value.root, workspace.value.explorer);
      world := world.(requested := world.requested + [snapshot]);
      if recordRecent {
        EnqueueRecentRoot(snapshot.root);
        world := world.(recorded := world.recorded + {snapshot.root});
      }
      if persistenceInFlight.Some? || refreshInFlight.Some? {
        persistencePending := Some(snapshot);
      } else {
        StartPersistence(snapshot);
      }
    }

    method OnWorkspaceOpened(root: Root, explorer: ExplorerOptions, serial: nat)
      requires serial == |world.requested|
      modifies this
      ensures View() == Handle(old(View()), WorkspaceOpened(root, explorer))
    {
      explorerOptions := explorer;
      workspace := Some(Workspace(root, explorer));
      refreshGeneration := refreshGeneration + 1;
      refreshPending := false;
      RequestPersistence(true, serial);
      RequestFileRefresh();
    }

    method OnToggleHiddenFiles(allowed: bool, serial: nat)
      requires serial == |world.requested|
      modifies this
      ensures View() == Handle(old(View()), ToggleHiddenFiles(allowed))
    {
      if workspace.None? || !allowed {
        return;
      }
      explorerOptions := explorerOptions.(showHidden := !explorerOptions.showHidden);
      RequestFileRefresh();
      RequestPersistence(false, serial);
    }

    method OnToggleIgnoredFiles(allowed: bool, serial: nat)
      requires serial == |world.requested|
      modifies this
      ensures View() == Handle(old(View()), ToggleIgnoredFiles(allowed))
    {
      if workspace.None? || !allowed {
        return;
      }
      explorerOptions := explorerOptions.(showIgnored := !explorerOptions.showIgnored);
      RequestFileRefresh();
      RequestPersistence(false, serial);
    }

    /** The task that carried `scan` has ended. */
    method OnFilesRefreshed(generation: nat, succeeded: bool, ghost scan: Scan)
      requires scan.generation == generation
      modifies this
      ensures View() == Handle(old(View()), FilesRefreshed(scan, succeeded))
    {
      world := world.(scans := RemoveFirst(world.scans, scan));
      if refreshInFlight != Some(generation) {
        return;
      }
      refreshInFlight := None;
      if generation == refreshGeneration && succeeded {
        world := world.(shown := Some(scan));
      }
      if refreshPending {
        refreshPending := false;
        StartFileRefresh();
      } else if persistenceInFlight.None? && persistencePending.Some? {
        var snapshot := persistencePending.value;
        persistencePending := None;
        StartPersistence(snapshot);
      }
    }

    /** The task that carried `write` has ended. */
    method OnWorkspacePersisted(generation: nat, root: Root, recentRoots: seq<Root>, succeeded: bool,
                                ghost write: Write)
      requires write.generation == generation && write.snapshot.root == root && write.recentRoots == recentRoots
      modifies this
      ensures View() == Handle(old(View()), WorkspacePersisted(write, succeeded))
    {
      world := world.(writes := RemoveFirst(world.writes, write));
      if persistenceInFlight != Some((generation, root)) || activeRecentRoots != recentRoots {
        return;
      }
      persistenceInFlight := None;
      activeRecentRoots := [];
      if !succeeded {
        RequeueRecentRoots(recentRoots);
      } else {
        world := world.(written := world.written + Members(recentRoots));
      }
      if persistencePending.Some? {
        var snapshot := persistencePending.value;
        persistencePending := None;
        StartPersistence(snapshot);
      }
    }
  }
}
