/** The generation discipline of the language coordinator (`language.rs`): which
    server lifetimes are discovered, granted a process, and become ready. */
module LanguageCoordinators {
  import opened Wrappers

  datatype LanguageState =
    | Stopped
    | Discovering
    | ApprovalRequired
    | Starting
    | Ready
    | Unavailable
    | Disabled
    | Failed

  datatype Server = Server(generation: nat, state: LanguageState, shutdownPending: bool, pendingApproval: bool)

  datatype Binding = Binding(language: string, eligible: bool)

  /** What the coordinator has told the outside world, in order. */
  datatype Entry =
    | Discover(language: string, generation: nat)
    | Spawn(language: string, generation: nat)
    | BecameReady(language: string, generation: nat)

  datatype Coordinator = Coordinator(
    workspaceId: string, servers: map<string, Server>, selections: map<string, bool>, documents: map<nat, Binding>,
    log: seq<Entry>)

  /** `described` says whether a language has a built-in server descriptor;
      `storable` whether a snapshot of a choice passes its own checks. */
  datatype Message =
    | OpenDocument(id: nat, binding: Binding)
    | CloseDocument(id: nat)
    | DiscoveryAvailable(workspaceId: string, language: string, generation: nat)
    | DiscoveryFinished(workspaceId: string, language: string, generation: nat, state: LanguageState)
    | DiscoveryRequiresApproval(workspaceId: string, language: string, generation: nat)
    | Approve(language: string, storable: bool)
    | Deny(language: string)
    | Retry(language: string)
    | MarkReady(language: string, generation: nat)
    | Fail(language: string, generation: nat)
    | MarkStopped(language: string, generation: nat)
    | DisableLanguage(language: string, described: bool, storable: bool)
    | EnableLanguage(language: string, described: bool, storable: bool)
    | RestartLanguage(language: string)

  const DEFAULT_SERVER := Server(0, Stopped, false, false)

  function New(workspaceId: string, selections: map<string, bool>): Coordinator {
    Coordinator(workspaceId, map[], selections, map[], [])
  }

  // -------------------------------------------------------------- transitions

  /** The server of a language, as `entry().or_default()` yields it. */
  function ServerOf(c: Coordinator, language: string): Server {
    if language in c.servers then c.servers[language] else DEFAULT_SERVER
  }

  function WithServer(c: Coordinator, language: string, server: Server): Coordinator {
    c.(servers := c.servers[language := server])
  }

  function Logged(c: Coordinator, e: Entry): Coordinator {
    c.(log := c.log + [e])
  }

  function SelectionEnabled(c: Coordinator, language: string): bool {
    language !in c.selections || c.selections[language]
  }

  function HasDocument(c: Coordinator, language: string): bool {
    exists id | id in c.documents :: c.documents[id] == Binding(language, true)
  }

  function Rediscovered(c: Coordinator, language: string, server: Server): Coordinator {
    var next := server.(generation := server.generation + 1, state := Discovering);
    Logged(WithServer(c, language, next), Discover(language, next.generation))
  }

  function EnsureStarted(c: Coordinator, language: string): Coordinator {
    var server := ServerOf(c, language);
    if server.state.Stopped? || server.state.Unavailable? || server.state.Failed? then Rediscovered(c, language, server)
    else WithServer(c, language, server)
  }

  /** A discovery result counts only for the workspace, generation and state it was for. */
  predicate DiscoveryCurrent(c: Coordinator, workspaceId: string, language: string, generation: nat) {
    && language in c.servers
    && c.workspaceId == workspaceId
    && c.servers[language].generation == generation
    && c.servers[language].state.Discovering?
  }

  function Opened(c: Coordinator, id: nat, binding: Binding): Coordinator {
    var bound := c.(documents := c.documents[id := binding]);
    if !binding.eligible || !SelectionEnabled(bound, binding.language) then bound
    else if binding.language in bound.servers && bound.servers[binding.language].state.Ready? then bound
    else EnsureStarted(bound, binding.language)
  }

  function Approved(c: Coordinator, language: string, storable: bool): Coordinator {
    if || language !in c.servers || !c.servers[language].state.ApprovalRequired?
       || !c.servers[language].pendingApproval then c
    else
      var taken := c.servers[language].(pendingApproval := false);
      if !storable then WithServer(c, language, taken)
      else Logged(WithServer(c, language, taken.(state := Starting)), Spawn(language, taken.generation))
  }

  function Finished(c: Coordinator, language: string, state: LanguageState): Coordinator
    requires language in c.servers
  {
    var server := c.servers[language].(state := state, pendingApproval := false);
    var moved := WithServer(c, language, server);
    if state.Ready? then Logged(moved, BecameReady(language, server.generation)) else moved
  }

  function Stopping(c: Coordinator, language: string): Coordinator
    requires language in c.servers
  {
    var enabled := SelectionEnabled(c, language);
    var server := c.servers[language].(shutdownPending := false, state := if enabled then Stopped else Disabled);
    var stopped := WithServer(c, language, server);
    if enabled && HasDocument(stopped, language) then EnsureStarted(stopped, language) else stopped
  }

  function Handle(c: Coordinator, m: Message): Coordinator {
    match m
    case OpenDocument(id, binding) => Opened(c, id, binding)
    case CloseDocument(id) => c.(documents := c.documents - {id})
    case DiscoveryAvailable(workspaceId, language, generation) =>
      if !DiscoveryCurrent(c, workspaceId, language, generation) then c
      else Logged(WithServer(c, language, c.servers[language].(state := Starting)), Spawn(language, generation))
    case DiscoveryFinished(workspaceId, language, generation, state) =>
      if !DiscoveryCurrent(c, workspaceId, language, generation) then c else Finished(c, language, state)
    case DiscoveryRequiresApproval(workspaceId, language, generation) =>
      if !DiscoveryCurrent(c, workspaceId, language, generation) then c
      else WithServer(c, language, c.servers[language].(state := ApprovalRequired, pendingApproval := true))
    case Approve(language, storable) => Approved(c, language, storable)
    case Deny(language) =>
      if language !in c.servers || !c.servers[language].state.ApprovalRequired? then c
      else WithServer(c, language, c.servers[language].(pendingApproval := false, state := Disabled))
    case Retry(language) =>
      if language !in c.servers then c
      else
        var server := c.servers[language];
        if server.state.Unavailable? || server.state.Disabled? || server.state.Failed?
        then Rediscovered(c, language, server.(pendingApproval := false)) else c
    case MarkReady(language, generation) =>
      if || language !in c.servers || c.servers[language].generation != generation
         || !c.servers[language].state.Starting? then c
      else Logged(WithServer(c, language, c.servers[language].(state := Ready)), BecameReady(language, generation))
    case Fail(language, generation) =>
      if language !in c.servers || c.servers[language].generation != generation then c
      else WithServer(c, language, c.servers[language].(state := Failed))
    case MarkStopped(language, generation) =>
      if language !in c.servers || c.servers[language].generation != generation then c else Stopping(c, language)
    case DisableLanguage(language, described, storable) =>
      if (language !in c.selections && !described) || !storable then c
      else
        var chosen := c.(selections := c.selections[language := false]);
        var server := ServerOf(c, language);
        WithServer(chosen, language, server.(shutdownPending := server.state.Ready?, state := Disabled))
    case EnableLanguage(language, described, storable) =>
      if (language !in c.selections && !described) || !storable then c
      else
        var chosen := c.(selections := c.selections[language := true]);
        var server := ServerOf(c, language);
        if server.shutdownPending then WithServer(chosen, language, server)
        else
          var stopped := WithServer(chosen, language, server.(state := Stopped));
          if HasDocument(stopped, language) then EnsureStarted(stopped, language) else stopped
    case RestartLanguage(language) =>
      if language !in c.servers || !c.servers[language].state.Ready? || c.servers[language].shutdownPending then c
      else WithServer(c, language, c.servers[language].(shutdownPending := true))
  }

  // ----------------------------------------------------------------- invariant

  predicate Has(log: seq<Entry>, e: Entry) {
    exists i :: 0 <= i < |log| && log[i] == e
  }

  /** Nothing is announced twice. */
  predicate Once(log: seq<Entry>) {
    forall i, j | 0 <= i < j < |log| :: log[i] != log[j]
  }

  /** A spawn grant or readiness follows the discovery of its generation. */
  predicate AfterDiscovery(log: seq<Entry>) {
    forall j | 0 <= j < |log| && !log[j].Discover? ::
      Has(log[..j], Discover(log[j].language, log[j].generation))
  }

  predicate Increasing(log: seq<Entry>) {
    forall i, j | 0 <= i < j < |log| && log[i].Discover? && log[j].Discover? && log[i].language == log[j].language ::
      log[i].generation < log[j].generation
  }

  predicate LogOk(log: seq<Entry>) {
    Once(log) && AfterDiscovery(log) && Increasing(log)
  }

  /** How far the current generation of a language has come. */
  predicate ServerOk(c: Coordinator, language: string) {
    var server := ServerOf(c, language);
    var g := server.generation;
    && (forall i | 0 <= i < |c.log| && c.log[i].language == language :: c.log[i].generation <= g)
    && (server.state.Discovering? || server.state.ApprovalRequired? || server.state.Starting? || server.state.Ready? ==>
          Has(c.log, Discover(language, g)))
    && (server.state.Discovering? || server.state.ApprovalRequired? ==>
          !Has(c.log, Spawn(language, g)) && !Has(c.log, BecameReady(language, g)))
    && (server.state.Starting? ==> !Has(c.log, BecameReady(language, g)))
  }

  ghost predicate Inv(c: Coordinator) {
    LogOk(c.log) && forall language: string :: ServerOk(c, language)
  }

  lemma HasOfAppend(log: seq<Entry>, e: Entry, x: Entry)
    ensures Has(log + [e], x) <==> Has(log, x) || x == e
  {
    if Has(log, x) {
      var i :| 0 <= i < |log| && log[i] == x;
      assert (log + [e])[i] == x;
    }
    if x == e {
      assert (log + [e])[|log|] == x;
    }
    if Has(log + [e], x) && x != e {
      var i :| 0 <= i < |log + [e]| && (log + [e])[i] == x;
      assert log[i] == x;
    }
  }

  lemma LogOfAppend(log: seq<Entry>, e: Entry)
    requires LogOk(log) && !Has(log, e)
    requires e.Discover? ==>
               forall i | 0 <= i < |log| && log[i].language == e.language :: log[i].generation < e.generation
    requires !e.Discover? ==> Has(log, Discover(e.language, e.generation))
    ensures LogOk(log + [e])
  {
    hide Has;
    forall i | 0 <= i < |log|
      ensures log[i] != e
    {
      HasAt(log, i);
    }
    forall j | 0 <= j < |log + [e]| && !(log + [e])[j].Discover?
      ensures Has((log + [e])[..j], Discover((log + [e])[j].language, (log + [e])[j].generation))
    {
      assert (log + [e])[..j] == log[..j];
      assert log[..|log|] == log;
    }
  }

  lemma HasAt(log: seq<Entry>, i: nat)
    requires i < |log|
    ensures Has(log, log[i])
  {
  }

  /** Changing one server, with or without an announcement for it. */
  lemma ServerChange(c: Coordinator, c': Coordinator, language: string, announced: Option<Entry>)
    requires Inv(c)
    requires forall l | l != language :: ServerOf(c', l) == ServerOf(c, l)
    requires c'.log == if announced.Some? then c.log + [announced.value] else c.log
    requires announced.Some? ==> announced.value.language == language && !Has(c.log, announced.value)
    requires announced.Some? && announced.value.Discover? ==>
               forall i | 0 <= i < |c.log| && c.log[i].language == language ::
                 c.log[i].generation < announced.value.generation
    requires announced.Some? && !announced.value.Discover? ==>
               Has(c.log, Discover(language, announced.value.generation))
    requires ServerOk(c', language)
    ensures Inv(c')
  {
    hide LogOk, Has;
    if announced.Some? {
      LogOfAppend(c.log, announced.value);
    }
    forall l: string
      ensures ServerOk(c', l)
    {
      if l != language {
        OtherServer(c, c', language, announced, l);
      }
    }
  }

  lemma OtherServer(c: Coordinator, c': Coordinator, language: string, announced: Option<Entry>, l: string)
    requires ServerOk(c, l) && l != language && ServerOf(c', l) == ServerOf(c, l)
    requires c'.log == if announced.Some? then c.log + [announced.value] else c.log
    requires announced.Some? ==> announced.value.language == language
    ensures ServerOk(c', l)
  {
    hide Has;
    if announced.Some? {
      var g := ServerOf(c, l).generation;
      HasOfAppend(c.log, announced.value, Discover(l, g));
      HasOfAppend(c.log, announced.value, Spawn(l, g));
      HasOfAppend(c.log, announced.value, BecameReady(l, g));
    }
  }

  // ---------------------------------------------------------- kinds of change

  predicate AtRest(state: LanguageState) {
    state.Stopped? || state.Unavailable? || state.Disabled? || state.Failed?
  }

  lemma QuietChange(c: Coordinator, language: string, server: Server)
    requires Inv(c) && server.generation == ServerOf(c, language).generation
    requires AtRest(server.state) || server.state == ServerOf(c, language).state
             || (ServerOf(c, language).state.Discovering? && !server.state.Ready?)
    ensures Inv(WithServer(c, language, server))
  {
    hide Has, LogOk;
    assert ServerOk(c, language);
    ServerChange(c, WithServer(c, language, server), language, None);
  }

  lemma SpawnChange(c: Coordinator, language: string, server: Server)
    requires Inv(c) && server.generation == ServerOf(c, language).generation && server.state.Starting?
    requires ServerOf(c, language).state.Discovering? || ServerOf(c, language).state.ApprovalRequired?
    ensures Inv(Logged(WithServer(c, language, server), Spawn(language, server.generation)))
  {
    hide Has, LogOk;
    assert ServerOk(c, language);
    var g := server.generation;
    HasOfAppend(c.log, Spawn(language, g), Discover(language, g));
    HasOfAppend(c.log, Spawn(language, g), BecameReady(language, g));
    ServerChange(c, Logged(WithServer(c, language, server), Spawn(language, g)), language, Some(Spawn(language, g)));
  }

  lemma ReadyChange(c: Coordinator, language: string, server: Server)
    requires Inv(c) && server.generation == ServerOf(c, language).generation && server.state.Ready?
    requires ServerOf(c, language).state.Discovering? || ServerOf(c, language).state.Starting?
    ensures Inv(Logged(WithServer(c, language, server), BecameReady(language, server.generation)))
  {
    hide Has, LogOk;
    assert ServerOk(c, language);
    var g := server.generation;
    HasOfAppend(c.log, BecameReady(language, g), Discover(language, g));
    ServerChange(c, Logged(WithServer(c, language, server), BecameReady(language, g)), language,
                 Some(BecameReady(language, g)));
  }

  /** A new generation starts with a clean record. */
  lemma RediscoverChange(c: Coordinator, language: string, server: Server)
    requires Inv(c) && server.generation == ServerOf(c, language).generation
    ensures Inv(Rediscovered(c, language, server))
  {
    hide LogOk;
    assert ServerOk(c, language);
    var g := server.generation + 1;
    assert forall i | 0 <= i < |c.log| && c.log[i].language == language :: c.log[i].generation < g;
    HasOfAppend(c.log, Discover(language, g), Discover(language, g));
    HasOfAppend(c.log, Discover(language, g), Spawn(language, g));
    HasOfAppend(c.log, Discover(language, g), BecameReady(language, g));
    ServerChange(c, Rediscovered(c, language, server), language, Some(Discover(language, g)));
  }

  lemma EnsureStartedIsOk(c: Coordinator, language: string)
    requires Inv(c)
    ensures Inv(EnsureStarted(c, language))
  {
    hide Inv, Rediscovered;
    RediscoverChange(c, language, ServerOf(c, language));
    QuietChange(c, language, ServerOf(c, language));
  }

  lemma SameServers(c: Coordinator, c': Coordinator)
    requires Inv(c) && c'.servers == c.servers && c'.log == c.log
    ensures Inv(c')
  {
    hide Has, LogOk;
    forall l: string
      ensures ServerOk(c', l)
    {
      assert ServerOk(c, l);
    }
  }

  lemma OpenedIsOk(c: Coordinator, id: nat, binding: Binding)
    requires Inv(c)
    ensures Inv(Opened(c, id, binding))
  {
    hide Inv, EnsureStarted;
    var bound := c.(documents := c.documents[id := binding]);
    SameServers(c, bound);
    EnsureStartedIsOk(bound, binding.language);
  }

  lemma StoppingIsOk(c: Coordinator, language: string)
    requires Inv(c) && language in c.servers
    ensures Inv(Stopping(c, language))
  {
    hide Inv, EnsureStarted, HasDocument;
    var enabled := SelectionEnabled(c, language);
    var server := c.servers[language].(shutdownPending := false, state := if enabled then Stopped else Disabled);
    QuietChange(c, language, server);
    EnsureStartedIsOk(WithServer(c, language, server), language);
  }

  lemma ChoiceIsOk(c: Coordinator, m: Message)
    requires Inv(c) && (m.DisableLanguage? || m.EnableLanguage?)
    ensures Inv(Handle(c, m))
  {
    hide Inv, EnsureStarted, HasDocument;
    var language := m.language;
    if (language in c.selections || m.described) && m.storable {
      var chosen := c.(selections := c.selections[language := m.EnableLanguage?]);
      var server := ServerOf(c, language);
      SameServers(c, chosen);
      if m.DisableLanguage? {
        QuietChange(chosen, language, server.(shutdownPending := server.state.Ready?, state := Disabled));
      } else {
        QuietChange(chosen, language, server);
        var stopped := WithServer(chosen, language, server.(state := Stopped));
        QuietChange(chosen, language, server.(state := Stopped));
        EnsureStartedIsOk(stopped, language);
      }
    }
  }

  lemma ApprovedIsOk(c: Coordinator, language: string, storable: bool)
    requires Inv(c)
    ensures Inv(Approved(c, language, storable))
  {
    hide Inv;
    if language in c.servers && c.servers[language].state.ApprovalRequired? {
      var taken := c.servers[language].(pendingApproval := false);
      QuietChange(c, language, taken);
      SpawnChange(c, language, taken.(state := Starting));
    }
  }

  lemma FinishedIsOk(c: Coordinator, language: string, state: LanguageState)
    requires Inv(c) && language in c.servers && c.servers[language].state.Discovering?
    ensures Inv(Finished(c, language, state))
  {
    hide Inv;
    var server := c.servers[language].(state := state, pendingApproval := false);
    if state.Ready? {
      ReadyChange(c, language, server);
    } else {
      QuietChange(c, language, server);
    }
  }

  lemma ServerMessageIsOk(c: Coordinator, m: Message)
    requires Inv(c)
    requires m.DiscoveryAvailable? || m.DiscoveryRequiresApproval? || m.Deny? || m.Retry? || m.MarkReady? || m.Fail?
             || m.RestartLanguage?
    ensures Inv(Handle(c, m))
  {
    hide Inv, Rediscovered;
    if m.language in c.servers {
      var server := c.servers[m.language];
      match m
      case DiscoveryAvailable(_, language, _) =>
        if server.state.Discovering? { SpawnChange(c, language, server.(state := Starting)); }
      case DiscoveryRequiresApproval(_, language, _) =>
        if server.state.Discovering? {
          QuietChange(c, language, server.(state := ApprovalRequired, pendingApproval := true));
        }
      case Deny(language) => QuietChange(c, language, server.(pendingApproval := false, state := Disabled));
      case Retry(language) => RediscoverChange(c, language, server.(pendingApproval := false));
      case MarkReady(language, _) =>
        if server.state.Starting? { ReadyChange(c, language, server.(state := Ready)); }
      case Fail(language, _) => QuietChange(c, language, server.(state := Failed));
      case RestartLanguage(language) => QuietChange(c, language, server.(shutdownPending := true));
    }
  }

  /** Every message keeps the discipline, whatever order they come in and however
      stale they are. */
  lemma HandleKeepsInv(c: Coordinator, m: Message)
    requires Inv(c)
    ensures Inv(Handle(c, m))
  {
    hide Inv, Opened, Approved, Finished, Stopping;
    match m
    case OpenDocument(id, binding) => OpenedIsOk(c, id, binding);
    case CloseDocument(id) => SameServers(c, c.(documents := c.documents - {id}));
    case DiscoveryFinished(_, language, _, state) =>
      if language in c.servers && c.servers[language].state.Discovering? {
        FinishedIsOk(c, language, state);
      }
    case Approve(language, storable) => ApprovedIsOk(c, language, storable);
    case MarkStopped(language, _) =>
      if language in c.servers {
        StoppingIsOk(c, language);
      }
    case DisableLanguage(_, _, _) => ChoiceIsOk(c, m);
    case EnableLanguage(_, _, _) => ChoiceIsOk(c, m);
    case _ => ServerMessageIsOk(c, m);
  }

  function Run(c: Coordinator, messages: seq<Message>): Coordinator
    decreases |messages|
  {
    if messages == [] then c else Run(Handle(c, messages[0]), messages[1..])
  }

  lemma {:induction false} RunKeepsInv(c: Coordinator, messages: seq<Message>)
    requires Inv(c)
    ensures Inv(Run(c, messages))
    decreases |messages|
  {
    hide Inv, Handle;
    if messages != [] {
      HandleKeepsInv(c, messages[0]);
      RunKeepsInv(Handle(c, messages[0]), messages[1..]);
    }
  }

  lemma NewInv(workspaceId: string, selections: map<string, bool>)
    ensures Inv(New(workspaceId, selections))
  {
  }

  /** In every run: each generation of a language is discovered, granted a process
      and ready at most once each; a grant or readiness comes only after its
      discovery; and the generations discovered for a language strictly increase. */
  lemma GenerationDiscipline(workspaceId: string, selections: map<string, bool>, messages: seq<Message>)
    ensures var log := Run(New(workspaceId, selections), messages).log;
            Once(log) && AfterDiscovery(log) && Increasing(log)
  {
    hide Run, ServerOk;
    NewInv(workspaceId, selections);
    RunKeepsInv(New(workspaceId, selections), messages);
  }

  // ------------------------------------------------- what each message announces

  function LanguageOf(m: Message): string
    requires !m.CloseDocument?
  {
    if m.OpenDocument? then m.binding.language else m.language
  }

  /** The user's choice, on unless it was taken back. */
  predicate Selected(c: Coordinator, language: string) {
    language in c.selections ==> c.selections[language]
  }

  predicate Wanted(c: Coordinator, language: string) {
    exists id | id in c.documents :: c.documents[id].language == language && c.documents[id].eligible
  }

  predicate AcceptsChoice(c: Coordinator, m: Message)
    requires m.DisableLanguage? || m.EnableLanguage?
  {
    (m.language in c.selections || m.described) && m.storable
  }

  /** The messages that start a new generation: opening a document that asks for a
      selected server that is down; a retry; the end of a server that is selected and
      still wanted; and a choice for a wanted language that has no shutdown to await. */
  predicate StartsGeneration(c: Coordinator, m: Message) {
    match m
    case OpenDocument(_, binding) =>
      binding.eligible && Selected(c, binding.language)
      && ServerOf(c, binding.language).state in {Stopped, Unavailable, Failed}
    case Retry(language) => language in c.servers && c.servers[language].state in {Unavailable, Disabled, Failed}
    case MarkStopped(language, generation) =>
      language in c.servers && c.servers[language].generation == generation
      && Selected(c, language) && Wanted(c, language)
    case EnableLanguage(language, _, _) =>
      AcceptsChoice(c, m) && !ServerOf(c, language).shutdownPending && Wanted(c, language)
    case _ => false
  }

  /** The messages that grant a process: the discovery that is awaited finds a server,
      or a server that waits for approval gets one that can be stored. */
  predicate GrantsProcess(c: Coordinator, m: Message) {
    match m
    case DiscoveryAvailable(workspaceId, language, generation) => DiscoveryCurrent(c, workspaceId, language, generation)
    case Approve(language, storable) =>
      language in c.servers && c.servers[language].state == ApprovalRequired && c.servers[language].pendingApproval
      && storable
    case _ => false
  }

  /** The messages that announce readiness, for the current generation only. */
  predicate AnnouncesReady(c: Coordinator, m: Message) {
    match m
    case MarkReady(language, generation) =>
      language in c.servers && c.servers[language].generation == generation && c.servers[language].state == Starting
    case DiscoveryFinished(workspaceId, language, generation, state) =>
      DiscoveryCurrent(c, workspaceId, language, generation) && state == Ready
    case _ => false
  }

  /** One announcement goes out, about the next generation or the current one, or none. */
  ghost predicate Announces(c: Coordinator, m: Message, c': Coordinator) {
    && (StartsGeneration(c, m) ==>
          var next := ServerOf(c, LanguageOf(m)).generation + 1;
          && c'.log == c.log + [Discover(LanguageOf(m), next)]
          && ServerOf(c', LanguageOf(m)).generation == next && ServerOf(c', LanguageOf(m)).state == Discovering)
    && (GrantsProcess(c, m) ==>
          && c'.log == c.log + [Spawn(m.language, ServerOf(c, m.language).generation)]
          && ServerOf(c', m.language).state == Starting)
    && (AnnouncesReady(c, m) ==>
          && c'.log == c.log + [BecameReady(m.language, ServerOf(c, m.language).generation)]
          && ServerOf(c', m.language).state == Ready)
    && (!StartsGeneration(c, m) && !GrantsProcess(c, m) && !AnnouncesReady(c, m) ==> c'.log == c.log)
    && (!StartsGeneration(c, m) ==> forall l: string :: ServerOf(c', l).generation == ServerOf(c, l).generation)
  }

  lemma WantedAfter(c: Coordinator, c': Coordinator, language: string)
    requires c'.documents == c.documents
    ensures HasDocument(c', language) <==> Wanted(c, language)
  {
    if id :| id in c.documents && c.documents[id].language == language && c.documents[id].eligible {
      assert c'.documents[id] == Binding(language, true);
    }
  }

  lemma {:induction false} OpeningAnnounces(c: Coordinator, id: nat, binding: Binding)
    ensures Announces(c, OpenDocument(id, binding), Handle(c, OpenDocument(id, binding)))
  {
    hide Wanted;
  }

  lemma {:induction false} StoppingAnnounces(c: Coordinator, language: string, generation: nat)
    ensures Announces(c, MarkStopped(language, generation), Handle(c, MarkStopped(language, generation)))
  {
    hide Wanted, HasDocument;
    if language in c.servers {
      var down := if SelectionEnabled(c, language) then Stopped else Disabled;
      WantedAfter(c, WithServer(c, language, c.servers[language].(shutdownPending := false, state := down)), language);
    }
  }

  lemma {:induction false} EnablingAnnounces(c: Coordinator, language: string, described: bool, storable: bool)
    ensures var m := EnableLanguage(language, described, storable); Announces(c, m, Handle(c, m))
  {
    hide Wanted, HasDocument;
    var chosen := c.(selections := c.selections[language := true]);
    WantedAfter(c, WithServer(chosen, language, ServerOf(c, language).(state := Stopped)), language);
  }

  lemma {:induction false} OthersAnnounce(c: Coordinator, m: Message)
    requires !m.OpenDocument? && !m.MarkStopped? && !m.EnableLanguage?
    ensures Announces(c, m, Handle(c, m))
  {
    hide Wanted, HasDocument, Selected;
  }

  /** What every message announces, exactly. */
  lemma AnnouncesExactly(c: Coordinator, m: Message)
    ensures Announces(c, m, Handle(c, m))
  {
    hide Announces, Handle;
    match m
    case OpenDocument(id, binding) => OpeningAnnounces(c, id, binding);
    case MarkStopped(language, generation) => StoppingAnnounces(c, language, generation);
    case EnableLanguage(language, described, storable) => EnablingAnnounces(c, language, described, storable);
    case _ => OthersAnnounce(c, m);
  }

  /** A choice that is accepted is recorded and touches no other language's; disabling
      takes the server down and remembers whether a running one has still to end. One
      that is not accepted changes nothing. */
  lemma ChoicesAreRecorded(c: Coordinator, m: Message)
    requires m.DisableLanguage? || m.EnableLanguage?
    ensures var c' := Handle(c, m);
            if !AcceptsChoice(c, m) then c' == c
            else
              && c'.selections == c.selections[m.language := m.EnableLanguage?]
              && c'.documents == c.documents
              && (forall l | l != m.language :: ServerOf(c', l) == ServerOf(c, l))
              && (m.DisableLanguage? ==>
                    && ServerOf(c', m.language).state == Disabled && c'.log == c.log
                    && (ServerOf(c', m.language).shutdownPending <==> ServerOf(c, m.language).state == Ready))
              && (m.EnableLanguage? && ServerOf(c, m.language).shutdownPending ==>
                    ServerOf(c', m.language) == ServerOf(c, m.language) && c'.log == c.log)
  {
    hide HasDocument;
  }

  predicate ForGeneration(m: Message) {
    || m.DiscoveryAvailable? || m.DiscoveryFinished? || m.DiscoveryRequiresApproval?
    || m.MarkReady? || m.Fail? || m.MarkStopped?
  }

  /** Results of background work for another generation, or for another workspace, change
      nothing at all. */
  lemma StaleResultsChangeNothing(c: Coordinator, m: Message)
    requires ForGeneration(m)
    requires || m.language !in c.servers || m.generation != c.servers[m.language].generation
             || ((m.DiscoveryAvailable? || m.DiscoveryFinished? || m.DiscoveryRequiresApproval?)
                 && m.workspaceId != c.workspaceId)
    ensures Handle(c, m) == c
  {
  }

  /** How a server goes down: one that failed has failed, one that was denied is
      disabled, and one that ended is stopped, or disabled when the choice is off, unless
      it is started again; no shutdown or approval stays pending for it. */
  lemma GoingDown(c: Coordinator, language: string)
    requires language in c.servers
    ensures var server := c.servers[language];
            var failed := ServerOf(Handle(c, Fail(language, server.generation)), language);
            var denied := ServerOf(Handle(c, Deny(language)), language);
            var stopped := ServerOf(Handle(c, MarkStopped(language, server.generation)), language);
            && failed == server.(state := Failed)
            && denied == (if server.state == ApprovalRequired then server.(pendingApproval := false, state := Disabled)
                          else server)
            && !stopped.shutdownPending
            && stopped.state == (if !Selected(c, language) then Disabled
                                 else if Wanted(c, language) then Discovering else Stopped)
  {
    hide Wanted, HasDocument;
    var down := if SelectionEnabled(c, language) then Stopped else Disabled;
    WantedAfter(c, WithServer(c, language, c.servers[language].(shutdownPending := false, state := down)), language);
  }

  /** How far a server has come otherwise: an awaited discovery takes the state it was
      finished with or waits for approval; an approval that cannot be stored is used up;
      and a restart only notes, once, that a ready server has to end. */
  lemma ComingUp(c: Coordinator, m: Message)
    requires m.DiscoveryFinished? || m.DiscoveryRequiresApproval? || m.Approve? || m.RestartLanguage?
    requires m.language in c.servers
    ensures var server, moved := c.servers[m.language], ServerOf(Handle(c, m), m.language);
            match m
            case DiscoveryFinished(workspaceId, language, generation, state) =>
              DiscoveryCurrent(c, workspaceId, language, generation) ==>
                moved.state == state && !moved.pendingApproval && moved.generation == generation
            case DiscoveryRequiresApproval(workspaceId, language, generation) =>
              DiscoveryCurrent(c, workspaceId, language, generation) ==>
                moved.state == ApprovalRequired && moved.pendingApproval && moved.generation == generation
            case Approve(language, storable) =>
              if server.state == ApprovalRequired && server.pendingApproval
              then !moved.pendingApproval && moved.state == (if storable then Starting else ApprovalRequired)
              else moved == server
            case _ => moved == if server.state == Ready then server.(shutdownPending := true) else server
  {
  }

  /** A document is bound under its id, or forgotten; no server and no choice changes
      when one closes. */
  lemma DocumentsAreBound(c: Coordinator, id: nat, binding: Binding)
    ensures Handle(c, OpenDocument(id, binding)).documents == c.documents[id := binding]
    ensures Handle(c, OpenDocument(id, binding)).selections == c.selections
    ensures Handle(c, CloseDocument(id)) == c.(documents := c.documents - {id})
  {
  }

  /** The user's choice is off and the server is down. */
  predicate Off(c: Coordinator, language: string) {
    !Selected(c, language) && ServerOf(c, language).state in {Disabled, Failed}
  }

  predicate BringsBack(m: Message, language: string) {
    (m.EnableLanguage? || m.Retry?) && m.language == language
  }

  predicate Quiet(before: seq<Entry>, after: seq<Entry>, language: string) {
    before <= after && forall i | |before| <= i < |after| :: after[i].language != language
  }

  lemma {:induction false} OffStaysOff(c: Coordinator, m: Message, language: string)
    requires Off(c, language) && !BringsBack(m, language)
    ensures Off(Handle(c, m), language) && Quiet(c.log, Handle(c, m).log, language)
  {
    hide HasDocument;
  }

  lemma QuietTwice(a: seq<Entry>, b: seq<Entry>, c: seq<Entry>, language: string)
    requires Quiet(a, b, language) && Quiet(b, c, language)
    ensures Quiet(a, c, language)
  {
  }

  lemma {:induction false} OffRunIsQuiet(c: Coordinator, messages: seq<Message>, language: string)
    requires Off(c, language) && forall m | m in messages :: !BringsBack(m, language)
    ensures Off(Run(c, messages), language) && Quiet(c.log, Run(c, messages).log, language)
    decreases |messages|
  {
    hide Handle, Off, BringsBack;
    if messages != [] {
      OffStaysOff(c, messages[0], language);
      OffRunIsQuiet(Handle(c, messages[0]), messages[1..], language);
      QuietTwice(c.log, Handle(c, messages[0]).log, Run(c, messages).log, language);
    }
  }

  /** A language that has been disabled is left alone: however its old server ends and
      whatever documents are opened, nothing is discovered, granted or ready for it until
      the user enables it or retries it. */
  lemma DisabledStaysQuiet(c: Coordinator, language: string, described: bool, messages: seq<Message>)
    requires (language in c.selections || described) && forall m | m in messages :: !BringsBack(m, language)
    ensures var log := Run(Handle(c, DisableLanguage(language, described, true)), messages).log;
            Quiet(c.log, log, language)
  {
    hide Run, BringsBack;
    var off := Handle(c, DisableLanguage(language, described, true));
    OffRunIsQuiet(off, messages, language);
  }

  // -------------------------------------------------- readiness needs a grant

  /** A discovery may be finished with any state; two of them skip the grant. */
  predicate SkipsGrant(c: Coordinator, m: Message) {
    && m.DiscoveryFinished? && DiscoveryCurrent(c, m.workspaceId, m.language, m.generation)
    && (m.state.Ready? || m.state.Starting?)
  }

  predicate AfterGrant(log: seq<Entry>) {
    forall j | 0 <= j < |log| && log[j].BecameReady? :: Has(log[..j], Spawn(log[j].language, log[j].generation))
  }

  predicate GrantedIfStarting(c: Coordinator, language: string) {
    ServerOf(c, language).state.Starting? ==> Has(c.log, Spawn(language, ServerOf(c, language).generation))
  }

  ghost predicate GrantInv(c: Coordinator) {
    AfterGrant(c.log) && forall language: string :: GrantedIfStarting(c, language)
  }

  /** Appending to the log keeps what was granted. */
  lemma GrantOfAppend(c: Coordinator, e: Entry)
    requires GrantInv(c)
    requires e.BecameReady? ==> Has(c.log, Spawn(e.language, e.generation))
    ensures AfterGrant(c.log + [e])
    ensures forall language: string :: ServerOf(c, language).state.Starting? ==>
              Has(c.log + [e], Spawn(language, ServerOf(c, language).generation))
  {
    hide Has;
    forall j | 0 <= j < |c.log + [e]| && (c.log + [e])[j].BecameReady?
      ensures Has((c.log + [e])[..j], Spawn((c.log + [e])[j].language, (c.log + [e])[j].generation))
    {
      assert (c.log + [e])[..j] == c.log[..j];
      assert c.log[..|c.log|] == c.log;
    }
    forall language: string | ServerOf(c, language).state.Starting?
      ensures Has(c.log + [e], Spawn(language, ServerOf(c, language).generation))
    {
      assert GrantedIfStarting(c, language);
      HasOfAppend(c.log, e, Spawn(language, ServerOf(c, language).generation));
    }
  }

  /** A change of one server that does not leave it starting without a grant. */
  lemma GrantChange(c: Coordinator, language: string, server: Server, announced: Option<Entry>)
    requires GrantInv(c)
    requires announced.Some? && announced.value.BecameReady? ==>
               Has(c.log, Spawn(announced.value.language, announced.value.generation))
    requires server.state.Starting? ==>
               announced == Some(Spawn(language, server.generation)) || server == ServerOf(c, language)
    ensures var moved := WithServer(c, language, server);
            GrantInv(if announced.Some? then Logged(moved, announced.value) else moved)
  {
    hide Has;
    var moved := WithServer(c, language, server);
    var c' := if announced.Some? then Logged(moved, announced.value) else moved;
    if announced.Some? {
      GrantOfAppend(c, announced.value);
      HasOfAppend(c.log, announced.value, announced.value);
    }
    forall l: string
      ensures GrantedIfStarting(c', l)
    {
      assert GrantedIfStarting(c, l);
    }
  }

  lemma GrantSame(c: Coordinator, c': Coordinator)
    requires GrantInv(c) && c'.servers == c.servers && c'.log == c.log
    ensures GrantInv(c')
  {
    hide Has;
    forall l: string
      ensures GrantedIfStarting(c', l)
    {
      assert GrantedIfStarting(c, l);
    }
  }

  lemma GrantEnsureStarted(c: Coordinator, language: string)
    requires GrantInv(c)
    ensures GrantInv(EnsureStarted(c, language))
  {
    hide GrantInv;
    var server := ServerOf(c, language);
    var next := server.(generation := server.generation + 1, state := Discovering);
    GrantChange(c, language, server, None);
    GrantChange(c, language, next, Some(Discover(language, next.generation)));
  }

  lemma HandleKeepsGrants(c: Coordinator, m: Message)
    requires GrantInv(c) && !SkipsGrant(c, m)
    ensures GrantInv(Handle(c, m))
  {
    hide GrantInv, EnsureStarted, HasDocument, Has;
    match m
    case OpenDocument(id, binding) =>
      var bound := c.(documents := c.documents[id := binding]);
      GrantSame(c, bound);
      GrantEnsureStarted(bound, binding.language);
    case CloseDocument(id) => GrantSame(c, c.(documents := c.documents - {id}));
    case DisableLanguage(_, _, _) => ChoiceKeepsGrants(c, m);
    case EnableLanguage(_, _, _) => ChoiceKeepsGrants(c, m);
    case _ =>
      if m.language in c.servers {
        ServerMessageKeepsGrants(c, m);
      }
  }

  lemma ChoiceKeepsGrants(c: Coordinator, m: Message)
    requires GrantInv(c) && (m.DisableLanguage? || m.EnableLanguage?)
    ensures GrantInv(Handle(c, m))
  {
    hide GrantInv, EnsureStarted, HasDocument, Has;
    var chosen := c.(selections := c.selections[m.language := m.EnableLanguage?]);
    var server := ServerOf(c, m.language);
    GrantSame(c, chosen);
    GrantChange(chosen, m.language, server, None);
    GrantChange(chosen, m.language, server.(shutdownPending := server.state.Ready?, state := Disabled), None);
    GrantChange(chosen, m.language, server.(state := Stopped), None);
    GrantEnsureStarted(WithServer(chosen, m.language, server.(state := Stopped)), m.language);
  }

  lemma ServerMessageKeepsGrants(c: Coordinator, m: Message)
    requires !m.OpenDocument? && !m.CloseDocument? && !m.DisableLanguage? && !m.EnableLanguage?
    requires GrantInv(c) && !SkipsGrant(c, m) && m.language in c.servers
    ensures GrantInv(Handle(c, m))
  {
    hide EnsureStarted, HasDocument, Has, AfterGrant;
    var server := c.servers[m.language];
    assert GrantedIfStarting(c, m.language);
    match m
    case DiscoveryAvailable(_, language, _) =>
      GrantChange(c, language, server.(state := Starting), Some(Spawn(language, server.generation)));
    case DiscoveryFinished(workspaceId, language, generation, state) =>
      if DiscoveryCurrent(c, workspaceId, language, generation) {
        GrantChange(c, language, server.(state := state, pendingApproval := false), None);
      }
    case DiscoveryRequiresApproval(_, language, _) =>
      GrantChange(c, language, server.(state := ApprovalRequired, pendingApproval := true), None);
    case Approve(language, _) =>
      if server.state.ApprovalRequired? {
        GrantChange(c, language, server.(pendingApproval := false), None);
        GrantChange(c, language, server.(pendingApproval := false, state := Starting),
                    Some(Spawn(language, server.generation)));
      }
    case Deny(language) => GrantChange(c, language, server.(pendingApproval := false, state := Disabled), None);
    case Retry(language) =>
      GrantChange(c, language,
                  server.(pendingApproval := false, generation := server.generation + 1, state := Discovering),
                  Some(Discover(language, server.generation + 1)));
    case MarkReady(language, _) =>
      if server.state.Starting? {
        GrantChange(c, language, server.(state := Ready), Some(BecameReady(language, server.generation)));
      }
    case Fail(language, _) => GrantChange(c, language, server.(state := Failed), None);
    case MarkStopped(language, _) => StoppingKeepsGrants(c, language);
    case RestartLanguage(language) =>
      if server.state.Ready? {
        GrantChange(c, language, server.(shutdownPending := true), None);
      }
  }

  lemma StoppingKeepsGrants(c: Coordinator, language: string)
    requires GrantInv(c) && language in c.servers
    ensures GrantInv(Stopping(c, language))
  {
    hide GrantInv, EnsureStarted, HasDocument;
    var enabled := SelectionEnabled(c, language);
    var server := c.servers[language].(shutdownPending := false, state := if enabled then Stopped else Disabled);
    GrantChange(c, language, server, None);
    GrantEnsureStarted(WithServer(c, language, server), language);
  }

  /** Skipping the grant is noticed at once: the finished generation has none. */
  lemma SkippingBreaksGrants(c: Coordinator, m: Message)
    requires Inv(c) && SkipsGrant(c, m)
    ensures !GrantInv(Handle(c, m))
  {
    hide Has;
    assert ServerOk(c, m.language);
    var c' := Handle(c, m);
    if m.state.Starting? {
      assert !GrantedIfStarting(c', m.language);
    } else {
      assert c'.log[|c.log|] == BecameReady(m.language, m.generation) && c'.log[..|c.log|] == c.log;
    }
  }

  /** One message keeps "ready only after a grant" exactly when it does not finish a
      current discovery as ready or as starting. */
  lemma KeepsGrantsIff(c: Coordinator, m: Message)
    requires Inv(c) && GrantInv(c)
    ensures GrantInv(Handle(c, m)) <==> !SkipsGrant(c, m)
  {
    hide Inv, GrantInv, SkipsGrant, Handle;
    if SkipsGrant(c, m) {
      SkippingBreaksGrants(c, m);
    } else {
      HandleKeepsGrants(c, m);
    }
  }

  predicate NeverSkips(c: Coordinator, messages: seq<Message>)
    decreases |messages|
  {
    messages != [] ==> !SkipsGrant(c, messages[0]) && NeverSkips(Handle(c, messages[0]), messages[1..])
  }

  /** The grants hold after each message of a run. */
  ghost predicate AlwaysGranted(c: Coordinator, messages: seq<Message>)
    decreases |messages|
  {
    messages != [] ==> GrantInv(Handle(c, messages[0])) && AlwaysGranted(Handle(c, messages[0]), messages[1..])
  }

  lemma {:induction false} AlwaysGrantedIff(c: Coordinator, messages: seq<Message>)
    requires Inv(c) && GrantInv(c)
    ensures AlwaysGranted(c, messages) <==> NeverSkips(c, messages)
    ensures NeverSkips(c, messages) ==> GrantInv(Run(c, messages))
    decreases |messages|
  {
    hide Inv, GrantInv, SkipsGrant, Handle;
    if messages != [] {
      KeepsGrantsIff(c, messages[0]);
      if !SkipsGrant(c, messages[0]) {
        HandleKeepsInv(c, messages[0]);
        AlwaysGrantedIff(Handle(c, messages[0]), messages[1..]);
      }
    }
  }

  /** In every run of a new coordinator that never skips, a language becomes ready
      only for a generation that was granted a process. */
  lemma ReadyOnlyAfterGrant(workspaceId: string, selections: map<string, bool>, messages: seq<Message>)
    requires NeverSkips(New(workspaceId, selections), messages)
    ensures AfterGrant(Run(New(workspaceId, selections), messages).log)
  {
    hide Run, NeverSkips, Inv;
    NewInv(workspaceId, selections);
    AlwaysGrantedIff(New(workspaceId, selections), messages);
  }

  /** The outcomes the application reports when a discovery ends without a server. */
  predicate Reported(m: Message) {
    m.DiscoveryFinished? ==> m.state.Unavailable? || m.state.Disabled? || m.state.Failed?
  }

  lemma {:induction false} ReportedNeverSkips(c: Coordinator, messages: seq<Message>)
    requires forall m | m in messages :: Reported(m)
    ensures NeverSkips(c, messages)
    decreases |messages|
  {
    hide Handle;
    if messages != [] {
      assert Reported(messages[0]);
      ReportedNeverSkips(Handle(c, messages[0]), messages[1..]);
    }
  }

  lemma RunOfLast(c: Coordinator, messages: seq<Message>, m: Message)
    ensures Run(c, messages + [m]) == Handle(Run(c, messages), m)
    decreases |messages|
  {
    hide Handle;
    if messages == [] {
      assert [] + [m] == [m] && [m][1..] == [];
    } else {
      RunOfLast(Handle(c, messages[0]), messages[1..], m);
      assert (messages + [m])[1..] == messages[1..] + [m];
    }
  }

  /** A coordinator that has just begun to discover a language. */
  lemma FirstDiscovery(language: string)
    ensures var c := Run(New("w", map[]), [OpenDocument(0, Binding(language, true))]);
            && c.workspaceId == "w" && language in c.servers
            && c.servers[language] == Server(1, Discovering, false, false) && c.log == [Discover(language, 1)]
  {
    var m := OpenDocument(0, Binding(language, true));
    assert [m][1..] == [];
    assert Handle(New("w", map[]), m).log == [] + [Discover(language, 1)];
  }

  /** Both skips lead to readiness without a grant: finishing a discovery as ready, */
  lemma FinishingAsReadySkipsTheGrant(language: string)
    ensures var c := Run(New("w", map[]), [OpenDocument(0, Binding(language, true))]
                                          + [DiscoveryFinished("w", language, 1, Ready)]);
            c.log == [Discover(language, 1), BecameReady(language, 1)] && !AfterGrant(c.log)
  {
    var first := [OpenDocument(0, Binding(language, true))];
    FirstDiscovery(language);
    RunOfLast(New("w", map[]), first, DiscoveryFinished("w", language, 1, Ready));
    assert [Discover(language, 1)] + [BecameReady(language, 1)] == [Discover(language, 1), BecameReady(language, 1)];
    NoGrantBefore(language);
  }

  /** and finishing it as starting, once the server reports that it is ready. */
  lemma FinishingAsStartingSkipsTheGrant(language: string)
    ensures var c := Run(New("w", map[]), [OpenDocument(0, Binding(language, true))]
                                          + [DiscoveryFinished("w", language, 1, Starting)]
                                          + [Message.MarkReady(language, 1)]);
            c.log == [Discover(language, 1), BecameReady(language, 1)] && !AfterGrant(c.log)
  {
    var first := [OpenDocument(0, Binding(language, true))];
    var finished := DiscoveryFinished("w", language, 1, Starting);
    FirstDiscovery(language);
    RunOfLast(New("w", map[]), first, finished);
    RunOfLast(New("w", map[]), first + [finished], Message.MarkReady(language, 1));
    assert [Discover(language, 1)] + [BecameReady(language, 1)] == [Discover(language, 1), BecameReady(language, 1)];
    NoGrantBefore(language);
  }

  lemma NoGrantBefore(language: string)
    ensures !AfterGrant([Discover(language, 1), BecameReady(language, 1)])
  {
    var log := [Discover(language, 1), BecameReady(language, 1)];
    assert log[1].BecameReady? && log[..1] == [Discover(language, 1)];
  }

  // --------------------------------------------------------------- the object

  class LanguageCoordinator {
    const workspaceId: string
    var servers: map<string, Server>
    var selections: map<string, bool>
    var documents: map<nat, Binding>
    ghost var log: seq<Entry>

    ghost function View(): Coordinator
      reads this
    {
      Coordinator(workspaceId, servers, selections, documents, log)
    }

    constructor (workspaceId: string, selections: map<string, bool>)
      ensures View() == New(workspaceId, selections)
    {
      this.workspaceId := workspaceId;
      this.selections := selections;
      servers, documents, log := map[], map[], [];
    }

    /** Announces a discovery exactly when it starts a new generation. */
    method EnsureLanguageStarted(language: string) returns (discover: Option<nat>)
      modifies this
      ensures View() == EnsureStarted(old(View()), language)
      ensures log == if discover.Some? then old(log) + [Discover(language, discover.value)] else old(log)
    {
      var server := if language in servers then servers[language] else DEFAULT_SERVER;
      servers := servers[language := server];
      if !(server.state.Stopped? || server.state.Unavailable? || server.state.Failed?) {
        return None;
      }
      discover := NextGeneration(language);
    }

    method NextGeneration(language: string) returns (discover: Option<nat>)
      requires language in servers
      modifies this
      ensures View() == Rediscovered(old(View()), language, old(servers)[language])
      ensures discover.Some? && log == old(log) + [Discover(language, discover.value)]
    {
      var server := servers[language].(generation := servers[language].generation + 1);
      server := server.(state := Discovering);
      servers := servers[language := server];
      log := log + [Discover(language, server.generation)];
      discover := Some(server.generation);
    }

    method OpenDocument(id: nat, binding: Binding) returns (discover: Option<nat>)
      modifies this
      ensures View() == Handle(old(View()), Message.OpenDocument(id, binding))
      ensures log == if discover.Some? then old(log) + [Discover(binding.language, discover.value)] else old(log)
    {
      documents := documents[id := binding];
      if !binding.eligible || (binding.language in selections && !selections[binding.language]) {
        return None;
      }
      if binding.language in servers && servers[binding.language].state.Ready? {
        return None;
      }
      discover := EnsureLanguageStarted(binding.language);
    }

    method CloseDocument(id: nat)
      modifies this
      ensures View() == Handle(old(View()), Message.CloseDocument(id))
    {
      documents := documents - {id};
    }

    method DiscoveryAvailable(workspaceId: string, language: string, generation: nat) returns (granted: bool)
      modifies this
      ensures View() == Handle(old(View()), Message.DiscoveryAvailable(workspaceId, language, generation))
      ensures log == if granted then old(log) + [Spawn(language, generation)] else old(log)
    {
      if language !in servers || this.workspaceId != workspaceId
         || servers[language].generation != generation || !servers[language].state.Discovering? {
        return false;
      }
      servers := servers[language := servers[language].(state := Starting)];
      log := log + [Spawn(language, generation)];
      granted := true;
    }

    method DiscoveryFinished(workspaceId: string, language: string, generation: nat, state: LanguageState)
      returns (accepted: bool)
      modifies this
      ensures View() == Handle(old(View()), Message.DiscoveryFinished(workspaceId, language, generation, state))
      ensures accepted == DiscoveryCurrent(old(View()), workspaceId, language, generation)
      ensures !accepted ==> unchanged(this)
    {
      if language !in servers || this.workspaceId != workspaceId
         || servers[language].generation != generation || !servers[language].state.Discovering? {
        return false;
      }
      servers := servers[language := servers[language].(state := state, pendingApproval := false)];
      if state.Ready? {
        log := log + [BecameReady(language, generation)];
      }
      accepted := true;
    }

    method DiscoveryRequiresApproval(workspaceId: string, language: string, generation: nat) returns (accepted: bool)
      modifies this
      ensures View() == Handle(old(View()), Message.DiscoveryRequiresApproval(workspaceId, language, generation))
      ensures accepted == DiscoveryCurrent(old(View()), workspaceId, language, generation)
      ensures !accepted ==> unchanged(this)
    {
      if language !in servers || this.workspaceId != workspaceId
         || servers[language].generation != generation || !servers[language].state.Discovering? {
        return false;
      }
      servers := servers[language := servers[language].(state := ApprovalRequired, pendingApproval := true)];
      accepted := true;
    }

    /** The pending server is taken before its approval is known to be storable. */
    method Approve(language: string, storable: bool) returns (granted: Option<nat>)
      modifies this
      ensures View() == Handle(old(View()), Message.Approve(language, storable))
      ensures log == if granted.Some? then old(log) + [Spawn(language, granted.value)] else old(log)
    {
      if language !in servers || !servers[language].state.ApprovalRequired? {
        return None;
      }
      if !servers[language].pendingApproval {
        return None;
      }
      servers := servers[language := servers[language].(pendingApproval := false)];
      if !storable {
        return None;
      }
      servers := servers[language := servers[language].(state := Starting)];
      log := log + [Spawn(language, servers[language].generation)];
      granted := Some(servers[language].generation);
    }

    method Deny(language: string) returns (denied: bool)
      modifies this
      ensures View() == Handle(old(View()), Message.Deny(language)) && log == old(log)
      ensures denied == (language in old(servers) && old(servers)[language].state.ApprovalRequired?)
      ensures !denied ==> unchanged(this)
    {
      if language !in servers || !servers[language].state.ApprovalRequired? {
        return false;
      }
      servers := servers[language := servers[language].(pendingApproval := false, state := Disabled)];
      denied := true;
    }

    method Retry(language: string) returns (discover: Option<nat>)
      modifies this
      ensures View() == Handle(old(View()), Message.Retry(language))
      ensures log == if discover.Some? then old(log) + [Discover(language, discover.value)] else old(log)
    {
      if language !in servers {
        return None;
      }
      var state := servers[language].state;
      if !(state.Unavailable? || state.Disabled? || state.Failed?) {
        return None;
      }
      servers := servers[language := servers[language].(pendingApproval := false)];
      discover := NextGeneration(language);
    }

    method MarkReady(language: string, generation: nat) returns (ready: bool)
      modifies this
      ensures View() == Handle(old(View()), Message.MarkReady(language, generation))
      ensures log == if ready then old(log) + [BecameReady(language, generation)] else old(log)
    {
      if language !in servers || servers[language].generation != generation || !servers[language].state.Starting? {
        return false;
      }
      servers := servers[language := servers[language].(state := Ready)];
      log := log + [BecameReady(language, generation)];
      ready := true;
    }

    method FailLanguage(language: string, generation: nat) returns (failed: bool)
      modifies this
      ensures View() == Handle(old(View()), Fail(language, generation)) && log == old(log)
      ensures failed == (language in old(servers) && old(servers)[language].generation == generation)
      ensures !failed ==> unchanged(this)
    {
      if language !in servers || servers[language].generation != generation {
        return false;
      }
      servers := servers[language := servers[language].(state := Failed)];
      failed := true;
    }

    method MarkStopped(language: string, generation: nat) returns (discover: Option<nat>)
      modifies this
      ensures View() == Handle(old(View()), Message.MarkStopped(language, generation))
      ensures log == if discover.Some? then old(log) + [Discover(language, discover.value)] else old(log)
    {
      hide HasDocument;
      var enabled := language !in selections || selections[language];
      if language !in servers || servers[language].generation != generation {
        return None;
      }
      servers := servers[language := servers[language].(shutdownPending := false,
                                                        state := if enabled then Stopped else Disabled)];
      var wanted := exists id | id in documents :: documents[id] == Binding(language, true);
      WantedIs(language);
      if enabled && wanted {
        discover := EnsureLanguageStarted(language);
      } else {
        discover := None;
      }
    }

    lemma WantedIs(language: string)
      ensures HasDocument(View(), language) <==> exists id | id in documents :: documents[id] == Binding(language, true)
    {
    }

    /** Answers the generation to shut down, if a server is running. */
    method DisableLanguage(language: string, described: bool, storable: bool) returns (running: Option<nat>)
      modifies this
      ensures View() == Handle(old(View()), Message.DisableLanguage(language, described, storable)) && log == old(log)
      ensures var server := ServerOf(old(View()), language);
              running == if (language in old(selections) || described) && storable && server.state.Ready?
                         then Some(server.generation) else None
    {
      if (language !in selections && !described) || !storable {
        return None;
      }
      selections := selections[language := false];
      var server := if language in servers then servers[language] else DEFAULT_SERVER;
      running := if server.state.Ready? then Some(server.generation) else None;
      servers := servers[language := server.(shutdownPending := running.Some?, state := Disabled)];
    }

    method EnableLanguage(language: string, described: bool, storable: bool) returns (discover: Option<nat>)
      modifies this
      ensures View() == Handle(old(View()), Message.EnableLanguage(language, described, storable))
      ensures log == if discover.Some? then old(log) + [Discover(language, discover.value)] else old(log)
    {
      hide HasDocument;
      if (language !in selections && !described) || !storable {
        return None;
      }
      selections := selections[language := true];
      var server := if language in servers then servers[language] else DEFAULT_SERVER;
      servers := servers[language := server];
      if server.shutdownPending {
        return None;
      }
      servers := servers[language := server.(state := Stopped)];
      assert servers == old(servers)[language := server.(state := Stopped)];
      var wanted := exists id | id in documents :: documents[id] == Binding(language, true);
      WantedIs(language);
      if wanted {
        discover := EnsureLanguageStarted(language);
      } else {
        discover := None;
      }
    }

    method RestartLanguage(language: string) returns (running: Option<nat>)
      modifies this
      ensures View() == Handle(old(View()), Message.RestartLanguage(language)) && log == old(log)
      ensures var server := ServerOf(old(View()), language);
              running == if server.state.Ready? && !server.shutdownPending then Some(server.generation) else None
    {
      if language !in servers || !servers[language].state.Ready? || servers[language].shutdownPending {
        return None;
      }
      servers := servers[language := servers[language].(shutdownPending := true)];
      running := Some(servers[language].generation);
    }
  }
}
