/** The runtime: two decided phases, registration, initialisation, freeze, and the stop. */
module PluginRuntime {
  import opened Wrappers
  import opened ServiceRegistry
  import opened PluginDecisions
  import opened PluginInvariant

  class Runtime {
    const d: Deployment
    const cat: Catalogue
    const services: Registry
    var states: States
    var initOrder: seq<string>
    var loaded: map<string, Plugin>
    var started: bool

    constructor (d: Deployment, cat: Catalogue)
      ensures this.d == d && this.cat == cat && Unused() && fresh(services)
    {
      this.d, this.cat := d, cat;
      states, initOrder, loaded, started := map[], [], map[], false;
      services := new Registry();
    }

    ghost predicate Unused()
      reads this, services
    {
      && states == map[] && initOrder == [] && loaded == map[] && !started
      && services.providers == map[] && services.required == {} && !services.frozen
    }

    ghost predicate Valid()
      reads this, services
    {
      DistinctIds(cat) && AllOk(d, cat, states, loaded, services.required, services.providers)
    }

    /** Decides and records one entry; whether the phase goes on with it. */
    method DecideOne(k: nat) returns (r: Result<bool, KernelError>)
      requires Valid() && k < |cat| && cat[k].id !in states
      modifies this`states
      ensures Valid()
      ensures r.Err? <==> Refusal(d, cat[k]).Some?
      ensures r.Ok? ==> (r.value <==> Listed(d, cat[k]))
      ensures r.Ok? ==> cat[k].id in states && TellsOf(d, cat[k], states[cat[k].id])
      ensures r.Ok? ==> (r.value <==> states[cat[k].id].enabled ==> cat[k].id in d.candidates)
      ensures states == if Enabled(d, cat[k]).Ok? then old(states)[cat[k].id := StateOf(d, cat, k)]
                        else old(states)
    {
      var answer := Enabled(d, cat[k]);
      if answer.Err? {
        return Err(answer.error);
      }
      var s := StateOf(d, cat, k);
      StateTellsOf(d, cat, k);
      states := states[s.id := s];
      if s.enabled && s.id !in d.candidates {
        if s.kind.Required? && cat[k].enabled == Some(true) {
          return Err(NotProvided);
        }
        return Ok(false);
      }
      r := Ok(true);
    }

    /** Decides one phase; refuses exactly when one of its entries must stop the start. */
    method Decide(phase: Phase) returns (r: Result<seq<PluginState>, KernelError>)
      requires Valid()
      requires forall id <- states :: !Wanted(phase, states[id].kind)
      modifies this`states
      ensures Valid()
      ensures r.Err? <==> exists e <- cat :: Stops(d, e, phase)
      ensures r.Err? <==> PhaseMustStop(d, cat, phase)
      ensures r.Ok? ==> r.value == Listing(d, cat, phase, |cat|)
      ensures r.Ok? ==> Recorded(d, cat, old(states), states, phase, |cat|)
      ensures r.Ok? ==> forall s <- r.value :: s.at < |cat| && TellsOf(d, cat[s.at], s) && (s.enabled ==> s.plugin.Some?)
    {
      ListingTellsOf(d, cat, phase);
      PhaseMustStopIff(d, cat, phase);
      hide PhaseMustStop;
      hide TellsOf;
      hide AllOk, Recorded, Listing, Listed, StateOf, Refusal;
      var list: seq<PluginState> := [];
      var k := 0;
      NothingRecorded(d, cat, states, phase);
      while k < |cat|
        invariant k <= |cat| && Valid()
        invariant list == Listing(d, cat, phase, k)
        invariant Recorded(d, cat, old(states), states, phase, k)
        invariant forall i :: 0 <= i < k ==> !Stops(d, cat[i], phase)
      {
        if Wanted(phase, KindOf(d, cat[k])) {
          ghost var was := states;
          NotYetRecorded(d, cat, old(states), states, loaded, services.required, services.providers, phase, k);
          var answer := DecideOne(k);
          if answer.Err? {
            assert Stops(d, cat[k], phase);
            return Err(answer.error);
          }
          DecidedUnlessRefused(d, cat[k]);
          RecordedGrows(d, cat, old(states), was, states, phase, k);
          if answer.value {
            list := list + [states[cat[k].id]];
          }
        } else {
          RecordedSkips(d, cat, old(states), states, phase, k);
        }
        k := k + 1;
      }
      r := Ok(list);
    }

    /** Publishes in order until one is refused. */
    method PublishAll(ps: seq<Provider>) returns (ok: bool)
      requires !services.frozen
      modifies services`providers
      ensures services.providers == PublishedAll(old(services.providers), ps)
      ensures ok <==> AllNamed(ps)
      ensures Grows(old(services.providers), services.providers)
    {
      ok := true;
      var n := 0;
      while n < |ps|
        invariant n <= |ps|
        invariant PublishedAll(services.providers, ps[n..]) == PublishedAll(old(services.providers), ps)
        invariant AllNamed(ps[..n])
        invariant Grows(old(services.providers), services.providers)
      {
        assert ps[n..][1..] == ps[n + 1..] && ps[..n + 1] == ps[..n] + [ps[n]];
        var r := services.Provide(ps[n]);
        if r.Err? {
          assert ps[n] in ps;
          return false;
        }
        n := n + 1;
      }
      assert ps[..n] == ps;
    }

    method MarkNeeds(p: Plugin)
      modifies services`required
      ensures services.required >= old(services.required) && NeedsMarked(p, services.required)
    {
      var n := 0;
      while n < |p.needs|
        invariant n <= |p.needs|
        invariant services.required >= old(services.required)
        invariant forall r <- p.needs[..n] :: r.name in services.required
      {
        services.MarkRequired(p.needs[n].name);
        n := n + 1;
      }
    }

    /** Constructs one plugin and lets it publish; a required one that cannot stops the start. */
    method RegisterOne(s: PluginState) returns (r: Result<bool, KernelError>)
      requires Valid() && s.id in states && SameDecision(states[s.id], s) && !states[s.id].initialized
      requires s.enabled && s.plugin.Some? && !services.frozen
      modifies this`states, this`loaded, services`providers, services`required
      ensures services.providers == if s.plugin.value.constructs
                                    then PublishedAll(old(services.providers), s.plugin.value.publishes)
                                    else old(services.providers)
      ensures Grows(old(services.providers), services.providers)
      ensures services.required >= old(services.required)
      ensures SameRun(old(states), states) && Valid() && states.Keys == old(states).Keys
      ensures forall id <- states :: id != s.id ==> states[id] == old(states)[id]
      ensures r.Err? <==> s.kind.Required? && !Loadable(s)
      ensures Loadable(s) <==> Loads(s.plugin.value)
      ensures var p := s.plugin.value;
        Loadable(s) <==> p.constructs && p.registers && forall x <- p.publishes :: x.name != ""
      ensures Loads(s.plugin.value) ==> states[s.id] == old(states)[s.id].(loaded := true)
      ensures !Loads(s.plugin.value) && !old(states)[s.id].loaded ==>
                states[s.id] == old(states)[s.id].(outcome := Failed)
    {
      hide AllOk;
      var p := s.plugin.value;
      var was := states[s.id];
      OneOk(d, cat, states, loaded, services.required, services.providers, s.id);
      if !p.constructs {
        SetState(was.(outcome := Failed), loaded);
        return if s.kind.Required? then Err(DoesNotLoad) else Ok(false);
      }
      var ok := PublishAll(p.publishes);
      GrowthKeepsAllOk(d, cat, states, loaded, old(services.required), old(services.providers),
                       services.required, services.providers);
      if !ok || !p.registers {
        SetState(was.(outcome := Failed, loaded := false), loaded - {s.id});
        return if s.kind.Required? then Err(DoesNotLoad) else Ok(false);
      }
      PublishedAreOnShelf(old(services.providers), p.publishes);
      MarkNeeds(p);
      GrowthKeepsAllOk(d, cat, states, loaded, old(services.required), services.providers,
                       services.required, services.providers);
      SetState(was.(loaded := true), loaded[s.id := p]);
      r := Ok(true);
    }

    method SetState(s: PluginState, loaded': map<string, Plugin>)
      requires Valid() && s.id in states && SameDecision(s, states[s.id])
      requires s.initialized == states[s.id].initialized
      requires StateOk(s, loaded', services.required, services.providers)
      requires loaded - {s.id} == loaded' - {s.id}
      modifies this`states, this`loaded
      ensures Valid() && SameRun(old(states), states)
      ensures states == old(states)[s.id := s] && loaded == loaded'
    {
      hide AllOk;
      UpdateKeepsAllOk(d, cat, states, loaded, loaded', services.required, services.providers, s);
      states := states[s.id := s];
      loaded := loaded';
    }

    /** Constructs a phase's plugins in catalogue order; a required one that does not load stops the start. */
    method Register(list: seq<PluginState>) returns (r: Result<bool, KernelError>)
      requires Valid() && Lists(states, list) && NotYetLoaded(states, list, 0) && !services.frozen
      requires forall s <- list :: !states[s.id].initialized
      modifies this`states, this`loaded, services`providers, services`required
      ensures r.Err? <==> exists s <- list :: s.kind.Required? && s.enabled && !Loadable(s)
      ensures r.Ok? ==> LoadedUpTo(states, list, |list|)
      ensures Grows(old(services.providers), services.providers)
      ensures services.required >= old(services.required)
      ensures SameRun(old(states), states) && Valid()
    {
      hide AllOk, LoadedUpTo, NotYetLoaded, Loads, SameRun, Lists, Loadable, Grows;
      DistinctInList(d, cat, states, list, loaded, services.required, services.providers);
      var k := 0;
      NothingLoaded(states, list, services.providers);
      while k < |list|
        invariant k <= |list| && Valid()
        invariant SameRun(old(states), states)
        invariant LoadedUpTo(states, list, k) && NotYetLoaded(states, list, k)
        invariant forall s <- list[..k] :: s.kind.Required? && s.enabled ==> Loadable(s)
        invariant Grows(old(services.providers), services.providers)
        invariant services.required >= old(services.required)
      {
        NextToRegister(old(states), states, list, k);
        ghost var was := states;
        if list[k].enabled {
          ghost var shelf := services.providers;
          r := RegisterOne(list[k]);
          SameRunTrans(old(states), was, states);
          GrowsTrans(old(services.providers), shelf, services.providers);
          if r.Err? {
            return;
          }
        }
        LoadedOneMore(list, k, was, states);
        assert list[..k + 1] == list[..k] + [list[k]];
        k := k + 1;
      }
      assert list[..k] == list;
      r := Ok(true);
    }

    /**
     Initialises one plugin: nothing when it did not load, `unsatisfied` when a
     need is not met at this moment, and in the order only when initialize() said yes.
     */
    method InitializeOne(s: PluginState)
      requires Valid() && OrderOk(states, initOrder) && !services.frozen
      requires Pending(states, initOrder, [s])
      modifies this`states, this`initOrder, services`providers
      ensures Valid() && OrderOk(states, initOrder)
      ensures Grows(old(services.providers), services.providers)
      ensures s.id in states && states == old(states)[s.id := states[s.id]]
      ensures SameDecision(states[s.id], s)
      ensures initOrder == old(initOrder) + if states[s.id].initialized then [s.id] else []
      ensures states[s.id].initialized <==>
        old(states)[s.id].loaded && NeedsMet(s.plugin.value, old(services.providers)) && Initializes(s.plugin.value)
      ensures states[s.id].initialized <==>
        && old(states)[s.id].loaded && Supplied(s.plugin.value, old(services.providers))
        && s.plugin.value.initializes && forall x <- s.plugin.value.publishesLater :: x.name != ""
      ensures states[s.id].loaded == old(states)[s.id].loaded
      ensures services.providers ==
              if old(states)[s.id].loaded && NeedsMet(s.plugin.value, old(services.providers))
              then PublishedAll(old(services.providers), s.plugin.value.publishesLater)
              else old(services.providers)
    {
      hide AllOk;
      assert s in [s];
      var was := states[s.id];
      OneOk(d, cat, states, loaded, services.required, services.providers, s.id);
      if !was.loaded { return; }
      var p := was.plugin.value;
      SuppliedIff(p, services.providers);
      hide Supplied, Has;
      if exists r <- p.needs :: !Has(services.providers, r) {
        SetOutcome(was.(outcome := Outcome.Unsatisfied));
        return;
      }
      var ok := PublishAll(p.publishesLater);
      GrowthKeepsAllOk(d, cat, states, loaded, services.required, old(services.providers),
                       services.required, services.providers);
      if !ok || !p.initializes {
        SetOutcome(was.(outcome := Failed));
        return;
      }
      NeedsStayMet(p, old(services.providers), services.providers);
      var now := was.(initialized := true, outcome := Initialized);
      UpdateKeepsAllOk(d, cat, states, loaded, loaded, services.required, services.providers, now);
      AppendKeepsOrder(states, initOrder, now);
      states := states[s.id := now];
      initOrder := initOrder + [s.id];
    }

    method SetOutcome(s: PluginState)
      requires Valid() && OrderOk(states, initOrder)
      requires s.id in states && s == states[s.id].(outcome := s.outcome)
      modifies this`states
      ensures Valid() && OrderOk(states, initOrder)
      ensures states == old(states)[s.id := s]
    {
      hide AllOk;
      OneOk(d, cat, states, loaded, services.required, services.providers, s.id);
      UpdateKeepsAllOk(d, cat, states, loaded, loaded, services.required, services.providers, s);
      SameRunKeepsOrder(states, states[s.id := s], initOrder);
      states := states[s.id := s];
    }

    /** Initialises a phase in priority order, ties keeping catalogue order. */
    method Initialize(list: seq<PluginState>)
      requires Valid() && OrderOk(states, initOrder) && !services.frozen
      requires Lists(states, list) && OnePhase(list)
      requires forall s <- list :: Pending(states, initOrder, [s])
      modifies this`states, this`initOrder, services`providers
      ensures Valid() && OrderOk(states, initOrder)
      ensures Grows(old(services.providers), services.providers)
      ensures SameDecisions(old(states), states)
      ensures Untouched(old(states), states, list)
      ensures old(initOrder) <= initOrder
      ensures Lists(states, list)
      ensures ReadyRan(old(states), list, old(services.providers), states) && SameLoaded(old(states), states)
    {
      hide AllOk, ReadyRan, Ready, SameLoaded, SameDecisions, Untouched;
      hide Lists, Grows, OrderOk, OnePhase, Pending, InOrder;
      SameAtFirst(states, list, services.providers);
      var sorted := ByPriority(list);
      SortedIsPending(states, initOrder, list, sorted);
      var k := 0;
      while k < |sorted|
        invariant k <= |sorted|
        invariant Valid() && OrderOk(states, initOrder)
        invariant Grows(old(services.providers), services.providers)
        invariant SameDecisions(old(states), states)
        invariant Untouched(old(states), states, list)
        invariant old(initOrder) <= initOrder
        invariant InOrder(sorted) && OnePhase(sorted) && multiset(sorted) == multiset(list)
        invariant Pending(states, initOrder, sorted[k..])
        invariant SameLoaded(old(states), states)
        invariant ReadyRan(old(states), sorted[..k], old(services.providers), states)
      {
        ghost var was, order, shelf := states, initOrder, services.providers;
        NextIsPending(states, initOrder, list, sorted, k);
        ReadyStays(old(states), states, sorted[k], old(services.providers), services.providers);
        InitializeOne(sorted[k]);
        GrowsTrans(old(services.providers), shelf, services.providers);
        ReadyRanOneMore(old(states), was, sorted, k, old(services.providers), states);
        PendingAdvances(was, order, states, initOrder, sorted, k);
        OneChanged(old(states), was, states, list, sorted[k]);
        k := k + 1;
      }
      SameDecisionsKeepLists(old(states), states, list);
      assert sorted[..k] == sorted;
      ReadyRanIsUnordered(old(states), list, sorted, old(services.providers), states);
    }

    /** A check that said no takes its plugin out of the picture. */
    method CheckOne(s: PluginState) returns (stopped: bool)
      requires Valid() && s.id in states && SameDecision(states[s.id], s)
      modifies this`states, this`initOrder
      ensures Valid() && SameDecisions(old(states), states)
      ensures forall id <- states :: id != s.id ==> states[id] == old(states)[id]
      ensures old(states)[s.id].initialized ==> s.plugin.Some?
      ensures stopped <==> old(states)[s.id].initialized && !s.plugin.value.checks
      ensures stopped ==> s.enabled && !states[s.id].initialized
      ensures !stopped ==> states == old(states) && initOrder == old(initOrder)
      ensures OrderOk(old(states), old(initOrder)) ==> OrderOk(states, initOrder)
    {
      hide OrderOk, Without, Decided;
      var was := states[s.id];
      assert StateOk(was, loaded, services.required, services.providers);
      stopped := was.initialized && !was.plugin.value.checks;
      if stopped {
        var gone := was.(outcome := Failed, initialized := false);
        UpdateKeepsAllOk(d, cat, states, loaded, loaded, services.required, services.providers, gone);
        if OrderOk(states, initOrder) { StoppingKeepsOrder(states, initOrder, gone); }
        states := states[s.id := gone];
        initOrder := Without(initOrder, s.id);
      }
    }

    /**
     Asks every running plugin of the required phase whether the deployment can
     work. All said yes and nothing changed, or one that must run does not.
     */
    method CheckTheRequired(list: seq<PluginState>)
      requires Valid() && Lists(states, list)
      requires forall s <- list :: s.kind.Required?
      modifies this`states, this`initOrder
      ensures Valid() && SameDecisions(old(states), states)
      ensures (states == old(states) && initOrder == old(initOrder) && Checked(list, states))
              || exists s <- list :: s.id in states && !Runs(s, states)
      ensures OrderOk(old(states), old(initOrder)) ==> OrderOk(states, initOrder)
    {
      hide AllOk, OrderOk;
      var sorted := ByPriority(list);
      ByPriorityIsStable(list);
      var k := 0;
      ghost var broken := false;
      while k < |sorted|
        invariant k <= |sorted| && Valid() && SameDecisions(old(states), states)
        invariant !broken ==> states == old(states) && initOrder == old(initOrder) && Checked(sorted[..k], states)
        invariant broken ==> exists s <- list :: s.id in states && !Runs(s, states)
        invariant OrderOk(old(states), old(initOrder)) ==> OrderOk(states, initOrder)
      {
        ghost var was := states;
        assert sorted[k] in multiset(sorted);
        SameDecisionsKeepLists(old(states), states, list);
        assert sorted[k] in list;
        var stopped := CheckOne(sorted[k]);
        SameDecisionsTrans(old(states), was, states);
        if stopped {
          StoppedStaysStopped(list, sorted[k], was, states, broken);
          broken := true;
        } else if !broken {
          CheckedOneMore(sorted, k, states);
        }
        k := k + 1;
      }
      assert sorted[..k] == sorted;
      if !broken { CheckedIsUnordered(sorted, list, states); }
    }

    /** The required phase's last word: every enabled required plugin runs, or the start stops. */
    method RequireTheRequired(list: seq<PluginState>) returns (r: Result<bool, KernelError>)
      requires Lists(states, list)
      ensures r.Ok? <==> forall s <- list :: Runs(s, states)
    {
      if exists s <- list :: !Runs(s, states) {
        return Err(NotRunning);
      }
      r := Ok(true);
    }

    /** Every service an enabled plugin cannot run without is required, whether or not it came up. */
    method MarkRequiredServices(list: seq<PluginState>)
      modifies services`required
      ensures services.required >= old(services.required)
      ensures forall s <- list :: s.enabled && s.plugin.Some? ==> NeedsMarked(s.plugin.value, services.required)
    {
      var k := 0;
      while k < |list|
        invariant k <= |list| && services.required >= old(services.required)
        invariant forall s <- list[..k] ::
          s.enabled && s.plugin.Some? ==> NeedsMarked(s.plugin.value, services.required)
      {
        if list[k].enabled && list[k].plugin.Some? {
          MarkNeeds(list[k].plugin.value);
        }
        k := k + 1;
      }
    }

    /** A file of the application may not provide what the required phase needs. */
    method RefuseSubstitutes(list: seq<PluginState>) returns (r: Result<bool, KernelError>)
      requires Lists(states, list)
      ensures r.Ok? <==>
        forall s <- list :: (states[s.id].loaded && s.plugin.Some? && s.plugin.value.directory)
          ==> s.plugin.value.offers !! services.required
    {
      if exists s <- list :: states[s.id].loaded && s.plugin.Some? && s.plugin.value.directory
                             && !(s.plugin.value.offers !! services.required) {
        return Err(Substitute);
      }
      r := Ok(true);
    }

    /** The panel decides whether an optional plugin runs, not who provides a required service. */
    method RefuseProvidersThePanelChose(list: seq<PluginState>) returns (r: Result<bool, KernelError>)
      ensures r.Ok? <==> forall s <- list :: PanelChose(s) ==> s.plugin.value.offers !! services.required
    {
      if exists s <- list :: PanelChose(s) && !(s.plugin.value.offers !! services.required) {
        return Err(ChosenInPanel);
      }
      r := Ok(true);
    }

    /** The required phase, from registration to its last word. */
    method RunRequired(first: seq<PluginState>) returns (r: Result<bool, KernelError>)
      requires Valid() && initOrder == [] && Lists(states, first) && !services.frozen
      requires forall s <- first :: s.kind.Required?
      requires forall id <- states :: !states[id].initialized && !states[id].loaded
      modifies this`states, this`initOrder, this`loaded, services`providers, services`required
      ensures Valid() && SameDecisions(old(states), states)
      ensures r.Ok? ==> OrderOk(states, initOrder) && Checked(first, states)
      ensures r.Ok? ==> forall s <- first :: Runs(s, states)
    {
      hide AllOk;
      r := Register(first);
      if r.Err? { return; }
      SameRunKeepsLists(old(states), states, first);
      var clash := services.CheckDuplicates();
      if clash { return Err(DuplicateProvider); }
      r := RefuseSubstitutes(first);
      if r.Err? { return; }
      ghost var registered := states;
      Initialize(first);
      SameDecisionsTrans(old(states), registered, states);
      ghost var ran, order := states, initOrder;
      CheckTheRequired(first);
      SameDecisionsTrans(old(states), ran, states);
      SameDecisionsKeepLists(ran, states, first);
      r := RequireTheRequired(first);
    }

    /** The optional phase, with every need marked before anything of it is constructed. */
    method RunOptional(first: seq<PluginState>, second: seq<PluginState>)
      returns (r: Result<bool, KernelError>, ghost marked: set<string>)
      requires Valid() && OrderOk(states, initOrder) && Lists(states, second) && !services.frozen
      requires forall s <- second :: !s.kind.Required? && !states[s.id].initialized && !states[s.id].loaded
      requires forall id <- initOrder :: states[id].kind.Required?
      modifies this`states, this`initOrder, this`loaded, services`providers, services`required
      ensures Valid() && SameDecisions(old(states), states)
      ensures forall id <- old(states) :: old(states)[id].initialized ==> states[id].initialized
      ensures r.Ok? ==> OrderOk(states, initOrder) && old(initOrder) <= initOrder
      ensures r.Ok? ==> PanelRefused(first, second, marked) && AbleOnesRan(second, states)
    {
      hide AllOk;
      MarkRequiredServices(first + second);
      GrowthKeepsAllOk(d, cat, states, loaded, old(services.required), services.providers,
                       services.required, services.providers);
      marked := services.required;
      r := RefuseProvidersThePanelChose(second);
      if r.Err? { return; }
      r := Register(second);
      if r.Err? { return; }
      SameRunKeepsLists(old(states), states, second);
      SameRunKeepsOrder(old(states), states, initOrder);
      ghost var registered, shelf := states, services.providers;
      Initialize(second);
      SameDecisionsTrans(old(states), registered, states);
      ReadyMeansAble(d, cat, registered, states, loaded, services.required, shelf, second);
    }

    /** Everything a deployment relies on once the start succeeded. */
    ghost predicate Up()
      reads this, services
    {
      && started && services.frozen
      && Valid() && OrderOk(states, initOrder)
      && (forall id <- initOrder :: OneProviderEach(states[id], services.providers))
      && (forall e <- cat :: MustRun(d, e) ==> e.id in initOrder && d.candidates[e.id].checks)
      && (forall e <- cat :: !KindOf(d, e).Required? && ShouldRun(d, e, states) ==> e.id in initOrder)
      && RunsAsSwitched(d, cat, states, initOrder)
      && PanelChoseNoProvider(states)
    }

    /** Both phases. */
    method RunPhases() returns (r: Result<bool, KernelError>)
      requires Unused() && DistinctIds(cat)
      modifies this`states, this`initOrder, this`loaded, services`providers, services`required
      ensures Valid()
      ensures r.Ok? ==> OrderOk(states, initOrder) && PanelChoseNoProvider(states)
      ensures r.Ok? ==> forall e <- cat :: MustRun(d, e) ==> e.id in initOrder && d.candidates[e.id].checks
      ensures r.Ok? ==>
        forall e <- cat :: !KindOf(d, e).Required? && ShouldRun(d, e, states) ==> e.id in initOrder
    {
      var decided := Decide(RequiredPhase);
      if decided.Err? { return Err(decided.error); }
      var first := decided.value;
      RecordedIsListed(d, cat, map[], states, RequiredPhase);
      RequiredIsNotThePanels(d, cat);
      r := RunRequired(first);
      if r.Err? { return; }
      ghost var afterFirst := states;
      decided := Decide(OptionalPhase);
      if decided.Err? { return Err(decided.error); }
      var second := decided.value;
      RecordedIsListed(d, cat, afterFirst, states, OptionalPhase);
      NewDecisionsKeepOrder(d, cat, afterFirst, states, initOrder, OptionalPhase);
      ListingIsSound(d, cat, OptionalPhase, |cat|);
      RequiredRun(d, cat, states, initOrder);
      ghost var marked;
      r, marked := RunOptional(first, second);
      if r.Err? { return; }
      PanelKeepsOff(d, cat, states, loaded, services.required, services.providers, marked);
      OptionalRun(d, cat, states, initOrder);
    }

    method Start() returns (r: Result<bool, KernelError>)
      requires DistinctIds(cat) && (started || Unused())
      modifies this`states, this`initOrder, this`loaded, this`started
      modifies services`providers, services`required, services`frozen
      ensures old(started) ==> r == Ok(true) && initOrder == old(initOrder) && states == old(states)
      ensures !old(started) && r.Ok? ==> Up()
      ensures r.Err? ==> !started
    {
      if started { return Ok(true); }
      r := RunPhases();
      if r.Err? { return; }
      var frozen := services.Freeze();
      if frozen.Err? { return Err(DuplicateProvider); }
      NeedsHaveOneProvider(d, cat, states, initOrder, loaded, services.required, services.providers);
      SwitchesHold(d, cat, states, initOrder, loaded, services.required, services.providers);
      started := true;
    }

    /** Cleans up in the reverse of the start order; one failing hook does not stop the rest. */
    method Stop() returns (cleaned: seq<string>)
      modifies this`initOrder, this`started, services`built
      ensures cleaned == Cleaned(old(initOrder), loaded)
      ensures initOrder == [] && !started && services.built == map[]
    {
      hide Cleaned;
      cleaned := [];
      var k := |initOrder|;
      assert initOrder[..k] == initOrder && initOrder[..0] == [];
      NothingIsCleaned(loaded);
      while k > 0
        invariant 0 <= k <= |initOrder| && initOrder == old(initOrder)
        invariant cleaned + Cleaned(initOrder[..k], loaded) == Cleaned(initOrder, loaded)
      {
        CleanedBefore(initOrder, loaded, k);
        k := k - 1;
        if initOrder[k] in loaded && loaded[initOrder[k]].cleans {
          cleaned := cleaned + [initOrder[k]];
        }
      }
      services.built := map[];
      initOrder := [];
      started := false;
    }
  }

  /** One life of a runtime: what came up is what is cleaned, in reverse. */
  method StartAndStop(runtime: Runtime) returns (up: bool, order: seq<string>, cleaned: seq<string>)
    requires DistinctIds(runtime.cat) && runtime.Unused()
    modifies runtime, runtime.services
    ensures up ==> forall id :: id in cleaned <==> id in order && id in runtime.loaded && runtime.loaded[id].cleans
    ensures up ==> forall e <- runtime.cat :: MustRun(runtime.d, e) ==> e.id in order
    ensures up ==> ReversesStart(runtime.states, cleaned)
    ensures up ==> runtime.initOrder == [] && !runtime.started
  {
    order, cleaned := [], [];
    var r := runtime.Start();
    up := r.Ok?;
    if up {
      order := runtime.initOrder;
      CleanedAre(order, runtime.loaded);
      StopReversesTheStart(runtime.states, order, runtime.loaded);
      cleaned := runtime.Stop();
    }
  }
}
