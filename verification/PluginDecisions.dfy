/** Which declared plugins run in which phase, and the order they initialise in. */
module PluginDecisions {
  import opened Wrappers
  import opened ServiceRegistry
  import StableSort

  datatype Kind = Required | Optional | Transport

  datatype Phase = RequiredPhase | OptionalPhase

  datatype Source = Config | Env | Panel | Default | Installed | NotInstalled

  datatype Outcome = Initialized | Disabled | NotFound | Failed | Unsatisfied

  datatype KernelError =
    | DisablesRequired | NotProvided | DoesNotLoad | DuplicateProvider
    | Substitute | NotRunning | ChosenInPanel

  /**
   A plugin class the loader found, with what it does when it is run: what it
   publishes in register() and in initialize(), and how its hooks answer.
   */
  datatype Plugin = Plugin(kind: Kind, needs: seq<Requirement>, offers: set<string>, priority: int,
                           directory: bool,
                           constructs: bool, publishes: seq<Provider>, registers: bool,
                           publishesLater: seq<Provider>, initializes: bool,
                           checks: bool, cleans: bool)

  /** A declaration of the catalogue; priority 0 is none, and so is an empty dialect. */
  datatype Entry = Entry(id: string, kind: Kind, priority: int, enabled: Option<bool>, dialect: string)

  type Catalogue = seq<Entry>

  /** What the deployment says: one database dialect, the environment's lists, the panel's overrides. */
  datatype Deployment = Deployment(dialect: string, disable: set<string>, enable: set<string>,
                                   overrides: map<string, bool>, candidates: map<string, Plugin>)

  predicate DistinctIds(cat: Catalogue) {
    forall i, j :: 0 <= i < j < |cat| ==> cat[i].id != cat[j].id
  }

  function Candidate(d: Deployment, id: string): Option<Plugin> {
    if id in d.candidates then Some(d.candidates[id]) else None
  }

  /** The code's kind, when the code is there. */
  function KindOf(d: Deployment, e: Entry): Kind {
    if e.id in d.candidates then d.candidates[e.id].kind else e.kind
  }

  /** The decision about an optional plugin: environment, panel, file, and off otherwise. */
  function Resolve(d: Deployment, e: Entry): (bool, Source) {
    if e.id in d.disable then (false, Env)
    else if e.id in d.enable then (true, Env)
    else if e.id in d.overrides then (d.overrides[e.id], Panel)
    else if e.enabled.Some? then (e.enabled.value, Config)
    else (false, Default)
  }

  function Lowered(s: string): string {
    if s == "" then ""
    else [if 'A' <= s[0] <= 'Z' then s[0] - 'A' + 'a' else s[0]] + Lowered(s[1..])
  }

  function Enabled(d: Deployment, e: Entry): Result<(bool, Source), KernelError> {
    var kind := KindOf(d, e);
    if d.dialect != "" && e.dialect != "" then Ok((Lowered(e.dialect) == Lowered(d.dialect), Config))
    else if !kind.Optional? then
      if e.id in d.disable then
        if e.id in d.candidates then Err(DisablesRequired) else Ok((false, NotInstalled))
      else if e.enabled == Some(false) then Ok((false, Config))
      else if e.id in d.enable then Ok((true, Env))
      else if e.id in d.candidates then Ok((true, Installed))
      else if e.enabled == Some(true) then Ok((true, Config))
      else Ok((false, NotInstalled))
    else Ok(Resolve(d, e))
  }

  /** A plugin the administrator may decide about, and no dialect chooses. */
  predicate IsOptional(d: Deployment, e: Entry) {
    && (if e.id in d.candidates then d.candidates[e.id].kind.Optional? else e.kind.Optional?)
    && (d.dialect == "" || e.dialect == "")
  }

  /**
   What the environment, the panel and the file come to, strongest first: not
   disabled, and enabled or, where the environment is silent, switched on in the
   panel or, where that is silent too, in the file.
   */
  predicate SwitchedOn(d: Deployment, e: Entry) {
    && e.id !in d.disable
    && (e.id in d.enable || (if e.id in d.overrides then d.overrides[e.id] else e.enabled == Some(true)))
  }

  /** Source by source: who decides about an optional plugin, and what. */
  lemma OptionalIsDecidedBy(d: Deployment, e: Entry)
    requires IsOptional(d, e)
    ensures Enabled(d, e).Ok? && (Enabled(d, e).value.0 <==> SwitchedOn(d, e))
    ensures e.id in d.disable ==> Enabled(d, e) == Ok((false, Env))
    ensures e.id !in d.disable && e.id in d.enable ==> Enabled(d, e) == Ok((true, Env))
    ensures e.id !in d.disable + d.enable && e.id in d.overrides ==> Enabled(d, e) == Ok((d.overrides[e.id], Panel))
    ensures e.id !in d.disable + d.enable && e.id !in d.overrides && e.enabled.Some? ==>
              Enabled(d, e) == Ok((e.enabled.value, Config))
    ensures e.id !in d.disable + d.enable && e.id !in d.overrides && e.enabled.None? ==>
              Enabled(d, e) == Ok((false, Default))
  {
  }

  /**
   A required plugin or a transport without a dialect choice: the environment stops the
   start by disabling an installed one; otherwise it runs unless disabled or off
   in its file, when it is installed or somebody asks for it. The panel has no say.
   */
  lemma RequiredIsDecidedBy(d: Deployment, e: Entry)
    requires !KindOf(d, e).Optional? && (d.dialect == "" || e.dialect == "")
    ensures Enabled(d, e).Err? <==> e.id in d.disable && e.id in d.candidates
    ensures Enabled(d, e).Ok? ==>
      (Enabled(d, e).value.0 <==>
         e.id !in d.disable && e.enabled != Some(false)
         && (e.id in d.enable || e.id in d.candidates || e.enabled == Some(true)))
    ensures e.id in d.disable && e.id !in d.candidates ==> Enabled(d, e) == Ok((false, NotInstalled))
    ensures e.id !in d.disable ==>
      Enabled(d, e).Ok? && Enabled(d, e).value.1 ==
        if e.enabled == Some(false) then Config
        else if e.id in d.enable then Env
        else if e.id in d.candidates then Installed
        else if e.enabled == Some(true) then Config
        else NotInstalled
  {
  }

  /** The same letter, capital or small. */
  predicate SameLetter(a: char, b: char) {
    a == b || ('A' <= a <= 'Z' && b as int == a as int + 32) || ('A' <= b <= 'Z' && a as int == b as int + 32)
  }

  lemma {:induction false} LoweredIff(a: string, b: string)
    ensures Lowered(a) == Lowered(b) <==> |a| == |b| && forall i :: 0 <= i < |a| ==> SameLetter(a[i], b[i])
  {
    if a != "" && b != "" {
      LoweredIff(a[1..], b[1..]);
      assert Lowered(a)[1..] == Lowered(a[1..]) && Lowered(b)[1..] == Lowered(b[1..]);
      assert Lowered(a)[0] == Lowered(b)[0] <==> SameLetter(a[0], b[0]);
      assert Lowered(a) == [Lowered(a)[0]] + Lowered(a)[1..] && Lowered(b) == [Lowered(b)[0]] + Lowered(b)[1..];
      assert forall i :: 0 <= i < |a| - 1 ==> a[1..][i] == a[i + 1];
      assert forall i :: 0 <= i < |b| - 1 ==> b[1..][i] == b[i + 1];
    }
  }

  /** With one database configured, a plugin for a dialect runs exactly when it is that one, whoever says otherwise. */
  lemma DialectDecides(d: Deployment, e: Entry)
    requires d.dialect != "" && e.dialect != ""
    ensures Enabled(d, e).Ok? && Enabled(d, e).value.1 == Config
    ensures Enabled(d, e).value.0 <==>
            |d.dialect| == |e.dialect| && forall i :: 0 <= i < |e.dialect| ==> SameLetter(e.dialect[i], d.dialect[i])
  {
    LoweredIff(e.dialect, d.dialect);
  }

  /** The panel moves the decision of an optional plugin that nothing else settles, and of no other. */
  lemma PanelMovesOnly(d: Deployment, overrides: map<string, bool>, e: Entry)
    requires Enabled(d, e) != Enabled(d.(overrides := overrides), e)
    ensures KindOf(d, e).Optional? && e.id !in d.disable && e.id !in d.enable
    ensures d.dialect == "" || e.dialect == ""
    ensures e.id in d.overrides || e.id in overrides
  {
  }

  /** A required plugin that is installed runs unless its file or the dialect says no; naming it in the
      environment's list of disabled ones stops the start. */
  lemma InstalledRequiredIsOn(d: Deployment, e: Entry)
    requires e.id in d.candidates && !KindOf(d, e).Optional? && (d.dialect == "" || e.dialect == "")
    ensures Enabled(d, e).Err? <==> e.id in d.disable
    ensures Enabled(d, e).Ok? ==> (Enabled(d, e).value.0 <==> e.enabled != Some(false))
  {
  }

  predicate Wanted(phase: Phase, kind: Kind) {
    phase.RequiredPhase? <==> kind.Required?
  }

  /** What stops the start while one entry is decided. */
  function Refusal(d: Deployment, e: Entry): Option<KernelError> {
    match Enabled(d, e)
    case Err(error) => Some(error)
    case Ok(answer) =>
      if answer.0 && e.id !in d.candidates && KindOf(d, e).Required? && e.enabled == Some(true)
      then Some(NotProvided) else None
  }

  lemma DecidedUnlessRefused(d: Deployment, e: Entry)
    requires Refusal(d, e).None?
    ensures Enabled(d, e).Ok?
  {
  }

  predicate Stops(d: Deployment, e: Entry, phase: Phase) {
    Wanted(phase, KindOf(d, e)) && Refusal(d, e).Some?
  }

  /** `at` is the entry's place in the catalogue. */
  datatype PluginState = PluginState(id: string, at: nat, kind: Kind, priority: int, enabled: bool,
                                     source: Source, plugin: Option<Plugin>,
                                     loaded: bool, initialized: bool, outcome: Outcome)

  function StateOf(d: Deployment, cat: Catalogue, at: nat): PluginState
    requires at < |cat| && Enabled(d, cat[at]).Ok?
  {
    var e := cat[at];
    var plugin := Candidate(d, e.id);
    var (enabled, source) := Enabled(d, e).value;
    PluginState(e.id, at, KindOf(d, e),
                if e.priority != 0 then e.priority else if plugin.Some? then plugin.value.priority else 0,
                enabled, source, plugin, false, false,
                if enabled && plugin.None? then NotFound else Disabled)
  }

  /** What a state says of the entry it was decided for: its own priority, then the plugin's, then none. */
  predicate TellsOf(d: Deployment, e: Entry, s: PluginState) {
    var there := e.id in d.candidates;
    && s.id == e.id && s.kind == (if there then d.candidates[e.id].kind else e.kind)
    && (e.priority != 0 ==> s.priority == e.priority)
    && (e.priority == 0 ==> s.priority == if there then d.candidates[e.id].priority else 0)
    && (there ==> s.plugin == Some(d.candidates[e.id])) && (!there ==> s.plugin.None?)
    && !s.loaded && !s.initialized
    && (s.outcome.NotFound? <==> s.enabled && !there) && (s.outcome.Disabled? <==> !s.enabled || there)
    && (IsOptional(d, e) ==> (s.enabled <==> SwitchedOn(d, e)))
  }

  lemma StateTellsOf(d: Deployment, cat: Catalogue, at: nat)
    requires at < |cat| && Enabled(d, cat[at]).Ok?
    ensures TellsOf(d, cat[at], StateOf(d, cat, at)) && StateOf(d, cat, at).at == at
  {
    if IsOptional(d, cat[at]) {
      OptionalIsDecidedBy(d, cat[at]);
    }
  }

  /**
   The environment disables an installed plugin that is no optional one, or the
   file asks by name for a required one that nobody installed and that is not disabled.
   */
  predicate MustStop(d: Deployment, e: Entry) {
    var chosen := d.dialect != "" && e.dialect != "";
    || (!chosen && !KindOf(d, e).Optional? && e.id in d.disable && e.id in d.candidates)
    || (KindOf(d, e).Required? && e.id !in d.candidates && e.enabled == Some(true)
        && if chosen then Lowered(e.dialect) == Lowered(d.dialect) else e.id !in d.disable)
  }

  lemma RefusedIff(d: Deployment, e: Entry)
    ensures Refusal(d, e).Some? <==> MustStop(d, e)
  {
  }

  /** An entry of the phase must stop the start. */
  predicate PhaseMustStop(d: Deployment, cat: Catalogue, phase: Phase) {
    exists e <- cat :: (phase.RequiredPhase? <==> KindOf(d, e).Required?) && MustStop(d, e)
  }

  lemma PhaseMustStopIff(d: Deployment, cat: Catalogue, phase: Phase)
    ensures PhaseMustStop(d, cat, phase) <==> exists e <- cat :: Stops(d, e, phase)
  {
    forall e ensures Refusal(d, e).Some? <==> MustStop(d, e) {
      RefusedIff(d, e);
    }
  }

  /** An enabled plugin nobody installed is recorded and not run. */
  predicate Listed(d: Deployment, e: Entry) {
    Enabled(d, e).Ok? && (Enabled(d, e).value.0 ==> e.id in d.candidates)
  }

  /** The states of one phase among the first n entries, in catalogue order. */
  function Listing(d: Deployment, cat: Catalogue, phase: Phase, n: nat): seq<PluginState>
    requires n <= |cat|
  {
    if n == 0 then []
    else
      var e := cat[n - 1];
      Listing(d, cat, phase, n - 1)
      + (if Wanted(phase, KindOf(d, e)) && Listed(d, e) then [StateOf(d, cat, n - 1)] else [])
  }

  /** Entry k belongs to this phase and is not recorded as missing. */
  predicate Belongs(d: Deployment, cat: Catalogue, phase: Phase, k: nat)
    requires k < |cat|
  {
    Wanted(phase, KindOf(d, cat[k])) && Listed(d, cat[k])
  }

  /** The states of the list are decided entries before n, in catalogue order. */
  predicate Sound(d: Deployment, cat: Catalogue, phase: Phase, n: nat, list: seq<PluginState>)
    requires n <= |cat|
  {
    && (forall s <- list :: s.at < n && Belongs(d, cat, phase, s.at) && s == StateOf(d, cat, s.at))
    && (forall i, j :: 0 <= i < j < |list| ==> list[i].at < list[j].at)
  }

  lemma OneMoreIsSound(d: Deployment, cat: Catalogue, phase: Phase, n: nat, list: seq<PluginState>)
    requires n < |cat| && Sound(d, cat, phase, n, list)
    ensures Sound(d, cat, phase, n + 1, list)
    ensures Belongs(d, cat, phase, n) ==> Sound(d, cat, phase, n + 1, list + [StateOf(d, cat, n)])
  {
    hide Wanted;
    if Belongs(d, cat, phase, n) {
      var more := list + [StateOf(d, cat, n)];
      forall i, j | 0 <= i < j < |more| ensures more[i].at < more[j].at {
        if j == |list| {
          assert more[i] in list;
        }
      }
    }
  }

  lemma ListingGrows(d: Deployment, cat: Catalogue, phase: Phase, n: nat)
    requires n < |cat|
    ensures Listing(d, cat, phase, n + 1)
         == if Belongs(d, cat, phase, n) then Listing(d, cat, phase, n) + [StateOf(d, cat, n)]
            else Listing(d, cat, phase, n)
  {
  }

  lemma ListingStaysSound(d: Deployment, cat: Catalogue, phase: Phase, n: nat)
    requires n < |cat| && Sound(d, cat, phase, n, Listing(d, cat, phase, n))
    ensures Sound(d, cat, phase, n + 1, Listing(d, cat, phase, n + 1))
  {
    hide *;
    ListingGrows(d, cat, phase, n);
    OneMoreIsSound(d, cat, phase, n, Listing(d, cat, phase, n));
  }

  lemma NothingIsSound(d: Deployment, cat: Catalogue, phase: Phase)
    ensures Sound(d, cat, phase, 0, Listing(d, cat, phase, 0))
  {
  }

  lemma {:induction false} ListingIsSound(d: Deployment, cat: Catalogue, phase: Phase, n: nat)
    requires n <= |cat|
    ensures Sound(d, cat, phase, n, Listing(d, cat, phase, n))
  {
    hide *;
    if n == 0 {
      NothingIsSound(d, cat, phase);
    } else {
      ListingIsSound(d, cat, phase, n - 1);
      ListingStaysSound(d, cat, phase, n - 1);
    }
  }

  lemma ListingTellsOf(d: Deployment, cat: Catalogue, phase: Phase)
    ensures forall s <- Listing(d, cat, phase, |cat|) ::
      s.at < |cat| && TellsOf(d, cat[s.at], s) && (s.enabled ==> s.plugin.Some?)
  {
    ListingIsSound(d, cat, phase, |cat|);
    forall s | s in Listing(d, cat, phase, |cat|)
      ensures s.at < |cat| && TellsOf(d, cat[s.at], s) && (s.enabled ==> s.plugin.Some?)
    {
      StateTellsOf(d, cat, s.at);
    }
  }

  lemma {:induction false} ListingIsComplete(d: Deployment, cat: Catalogue, phase: Phase, n: nat, k: nat)
    requires k < n <= |cat| && Belongs(d, cat, phase, k)
    ensures StateOf(d, cat, k) in Listing(d, cat, phase, n)
  {
    if k < n - 1 { ListingIsComplete(d, cat, phase, n - 1, k); }
  }

  // ---------- the order of initialisation ----------

  /** Lower priority first; ties keep catalogue order. */
  predicate Precedes(a: PluginState, b: PluginState) {
    a.priority < b.priority || (a.priority == b.priority && a.at < b.at)
  }

  function PriorityOf(s: PluginState): int {
    s.priority
  }

  /** A stable sort by priority. */
  function ByPriority(states: seq<PluginState>): seq<PluginState> {
    StableSort.By(states, PriorityOf)
  }

  ghost predicate InOrder(states: seq<PluginState>) {
    forall i, j :: 0 <= i < j < |states| ==> Precedes(states[i], states[j])
  }

  lemma {:induction false} PlacedKeepsOrder(s: PluginState, sorted: seq<PluginState>)
    requires InOrder(sorted) && forall t <- sorted :: s.at < t.at
    ensures InOrder(StableSort.Placed(s, sorted, PriorityOf))
  {
    if sorted != [] && s.priority > sorted[0].priority {
      var head, rest := sorted[0], StableSort.Placed(s, sorted[1..], PriorityOf);
      PlacedKeepsOrder(s, sorted[1..]);
      StableSort.PlacedAdds(s, sorted[1..], PriorityOf);
      forall i | 0 <= i < |rest| ensures Precedes(head, rest[i]) {
        assert rest[i] in multiset(rest);
        assert rest[i] == s || rest[i] in multiset(sorted[1..]);
      }
    }
  }

  /** Catalogue order in, the same states in priority order out. */
  lemma {:induction false} ByPriorityIsStable(states: seq<PluginState>)
    requires forall i, j :: 0 <= i < j < |states| ==> states[i].at < states[j].at
    ensures InOrder(ByPriority(states))
    ensures multiset(ByPriority(states)) == multiset(states)
    ensures |ByPriority(states)| == |states|
  {
    StableSort.ByIsStable(states, PriorityOf);
    assert |multiset(ByPriority(states))| == |multiset(states)|;
    if states != [] {
      ByPriorityIsStable(states[1..]);
      var rest := ByPriority(states[1..]);
      forall t | t in rest ensures states[0].at < t.at {
        assert t in multiset(rest);
        assert t in states[1..];
      }
      PlacedKeepsOrder(states[0], rest);
    }
  }
}
