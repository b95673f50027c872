/** What holds of the runtime's records while it starts, on values. */
module PluginInvariant {
  import opened Wrappers
  import opened ServiceRegistry
  import opened PluginDecisions

  type States = map<string, PluginState>

  /** The decision part of a state never changes after it was taken. */
  predicate SameDecision(a: PluginState, b: PluginState) {
    a == b.(loaded := a.loaded, initialized := a.initialized, outcome := a.outcome)
  }

  /** The required phase starts first; within a phase priority, then the catalogue. */
  predicate RunsBefore(a: PluginState, b: PluginState) {
    if a.kind.Required? == b.kind.Required? then Precedes(a, b) else a.kind.Required?
  }

  predicate NeedsMarked(p: Plugin, required: set<string>) {
    forall r <- p.needs :: r.name in required
  }

  predicate NeedsMet(p: Plugin, shelf: Shelf) {
    forall r <- p.needs :: Has(shelf, r)
  }

  /** Its class constructs, everything it publishes has a name, and its register() answers. */
  predicate Loads(p: Plugin) {
    p.constructs && AllNamed(p.publishes) && p.registers
  }

  /** Each need has a provider of its name that is new enough. */
  predicate Supplied(p: Plugin, shelf: Shelf) {
    forall n <- p.needs :: n.name in shelf && exists q <- shelf[n.name] :: q.version >= n.minimum
  }

  lemma SuppliedIff(p: Plugin, shelf: Shelf)
    ensures NeedsMet(p, shelf) <==> Supplied(p, shelf)
  {
    forall n | n in p.needs
      ensures Has(shelf, n) <==> n.name in shelf && exists q <- shelf[n.name] :: q.version >= n.minimum
    {
      HasIff(shelf, n);
    }
  }

  predicate Initializes(p: Plugin) {
    AllNamed(p.publishesLater) && p.initializes
  }

  /** Loaded, able to initialise, and with every need met when its phase begins. */
  predicate Ready(states: States, s: PluginState, shelf: Shelf) {
    && s.id in states && states[s.id].loaded && s.plugin.Some?
    && Initializes(s.plugin.value) && NeedsMet(s.plugin.value, shelf)
  }

  // ---------- the invariant, on values ----------

  predicate Decided(d: Deployment, cat: Catalogue, s: PluginState) {
    && s.at < |cat| && cat[s.at].id == s.id && Enabled(d, cat[s.at]).Ok?
    && SameDecision(s, StateOf(d, cat, s.at))
  }

  /** What one state says about the registry: loaded marks its needs, initialised has them met. */
  predicate StateOk(s: PluginState, loaded: map<string, Plugin>, required: set<string>, shelf: Shelf) {
    && (s.initialized ==> s.loaded)
    && (s.loaded ==> s.enabled && s.plugin.Some? && s.id in loaded && loaded[s.id] == s.plugin.value
                     && s.plugin.value.constructs && s.plugin.value.registers
                     && NeedsMarked(s.plugin.value, required) && OnShelf(s.plugin.value.publishes, shelf))
    && (s.initialized ==> s.plugin.value.initializes && NeedsMet(s.plugin.value, shelf))
  }

  ghost predicate AllOk(d: Deployment, cat: Catalogue, states: States,
                        loaded: map<string, Plugin>, required: set<string>, shelf: Shelf)
  {
    forall id <- states :: states[id].id == id && Decided(d, cat, states[id])
                           && StateOk(states[id], loaded, required, shelf)
  }

  /** The order names exactly the initialised plugins, each once, each in its turn. */
  ghost predicate OrderOk(states: States, order: seq<string>) {
    && (forall id <- order :: id in states && states[id].initialized)
    && (forall id <- states :: states[id].initialized ==> id in order)
    && (forall i, j :: 0 <= i < j < |order| ==> RunsBefore(states[order[i]], states[order[j]]))
  }

  /** Nothing the order depends on changed. */
  ghost predicate SameRun(a: States, b: States) {
    a.Keys == b.Keys && forall id <- a :: SameDecision(b[id], a[id]) && b[id].initialized == a[id].initialized
  }

  /** A phase's list names decisions that are recorded, in catalogue order. */
  ghost predicate Lists(states: States, list: seq<PluginState>) {
    && (forall s <- list :: s.id in states && SameDecision(states[s.id], s))
    && (forall s <- list :: s.enabled ==> s.plugin.Some?)
    && (forall i, j :: 0 <= i < j < |list| ==> list[i].at < list[j].at)
  }

  lemma SameRunKeepsOrder(a: States, b: States, order: seq<string>)
    requires SameRun(a, b) && OrderOk(a, order)
    ensures OrderOk(b, order)
  {
    forall i, j | 0 <= i < j < |order| ensures RunsBefore(b[order[i]], b[order[j]]) {
      assert RunsBefore(a[order[i]], a[order[j]]);
    }
  }

  lemma SameRunKeepsLists(a: States, b: States, list: seq<PluginState>)
    requires SameRun(a, b) && Lists(a, list)
    ensures Lists(b, list)
  {
    forall s | s in list ensures s.id in b && SameDecision(b[s.id], s) {
      assert SameDecision(a[s.id], s);
    }
  }

  lemma SameRunTrans(a: States, b: States, c: States)
    requires SameRun(a, b) && SameRun(b, c)
    ensures SameRun(a, c)
  {
    forall id | id in a ensures SameDecision(c[id], a[id]) && c[id].initialized == a[id].initialized {
      assert SameDecision(b[id], a[id]) && SameDecision(c[id], b[id]);
    }
  }

  /** What the invariant says of one state. */
  lemma OneOk(d: Deployment, cat: Catalogue, states: States, loaded: map<string, Plugin>,
              required: set<string>, shelf: Shelf, id: string)
    requires AllOk(d, cat, states, loaded, required, shelf) && id in states
    ensures states[id].id == id && StateOk(states[id], loaded, required, shelf)
  {
  }

  /** A phase's list names each plugin once. */
  lemma DistinctInList(d: Deployment, cat: Catalogue, states: States, list: seq<PluginState>,
                       loaded: map<string, Plugin>, required: set<string>, shelf: Shelf)
    requires AllOk(d, cat, states, loaded, required, shelf) && Lists(states, list)
    ensures forall i, j :: 0 <= i < j < |list| ==> list[i].id != list[j].id
  {
    forall i, j | 0 <= i < j < |list| ensures list[i].id != list[j].id {
      assert list[i] in list && list[j] in list;
      assert SameDecision(states[list[i].id], list[i]) && SameDecision(states[list[j].id], list[j]);
    }
  }

  lemma GrowthKeepsAllOk(d: Deployment, cat: Catalogue, states: States, loaded: map<string, Plugin>,
                         required: set<string>, shelf: Shelf, required': set<string>, shelf': Shelf)
    requires AllOk(d, cat, states, loaded, required, shelf)
    requires Grows(shelf, shelf') && required <= required'
    ensures AllOk(d, cat, states, loaded, required', shelf')
  {
    forall id | id in states ensures StateOk(states[id], loaded, required', shelf') {
      if states[id].loaded {
        GrowsKeepsOnShelf(states[id].plugin.value.publishes, shelf, shelf');
      }
      if states[id].initialized {
        forall r | r in states[id].plugin.value.needs ensures Has(shelf', r) {
          GrowsKeepsHas(shelf, shelf', r);
        }
      }
    }
  }

  lemma UpdateKeepsAllOk(d: Deployment, cat: Catalogue, states: States, loaded: map<string, Plugin>,
                         loaded': map<string, Plugin>, required: set<string>, shelf: Shelf,
                         s: PluginState)
    requires AllOk(d, cat, states, loaded, required, shelf)
    requires s.id in states && SameDecision(s, states[s.id]) && StateOk(s, loaded', required, shelf)
    requires loaded - {s.id} == loaded' - {s.id}
    ensures AllOk(d, cat, states[s.id := s], loaded', required, shelf)
  {
    forall id | id in states && id != s.id ensures StateOk(states[id], loaded', required, shelf) {
      assert StateOk(states[id], loaded, required, shelf);
      assert id in loaded ==> id in loaded - {s.id} && id in loaded' - {s.id};
    }
  }

  /** What one phase recorded: the decisions of its first n entries beside the ones it found. */
  ghost predicate Recorded(d: Deployment, cat: Catalogue, was: States, states: States, phase: Phase, n: nat)
    requires n <= |cat|
  {
    && (forall id <- was :: id in states && states[id] == was[id])
    && (forall id <- states :: id !in was ==>
          states[id].at < |cat| && cat[states[id].at].id == id
          && states[id].at < n && Wanted(phase, states[id].kind) && !states[id].initialized)
    && (forall s <- Listing(d, cat, phase, n) :: s.id in states && states[s.id] == s)
  }

  lemma NothingRecorded(d: Deployment, cat: Catalogue, states: States, phase: Phase)
    ensures Recorded(d, cat, states, states, phase, 0) && Listing(d, cat, phase, 0) == []
  {
  }

  lemma NotYetRecorded(d: Deployment, cat: Catalogue, was: States, states: States, loaded: map<string, Plugin>,
                       required: set<string>, shelf: Shelf, phase: Phase, k: nat)
    requires DistinctIds(cat) && k < |cat| && Recorded(d, cat, was, states, phase, k)
    requires AllOk(d, cat, states, loaded, required, shelf)
    requires forall id <- was :: !Wanted(phase, was[id].kind)
    requires Wanted(phase, KindOf(d, cat[k]))
    ensures cat[k].id !in states
  {
  }

  lemma RecordedGrows(d: Deployment, cat: Catalogue, was: States, states: States, states': States,
                      phase: Phase, k: nat)
    requires k < |cat| && Recorded(d, cat, was, states, phase, k)
    requires Wanted(phase, KindOf(d, cat[k])) && Enabled(d, cat[k]).Ok?
    requires cat[k].id !in states && states' == states[cat[k].id := StateOf(d, cat, k)]
    ensures Recorded(d, cat, was, states', phase, k + 1)
    ensures Listing(d, cat, phase, k + 1) ==
      Listing(d, cat, phase, k) + if Listed(d, cat[k]) then [states'[cat[k].id]] else []
  {
    forall s | s in Listing(d, cat, phase, k + 1) ensures s.id in states' && states'[s.id] == s {
      assert s in Listing(d, cat, phase, k) || s == StateOf(d, cat, k);
    }
  }

  lemma RecordedSkips(d: Deployment, cat: Catalogue, was: States, states: States, phase: Phase, k: nat)
    requires k < |cat| && Recorded(d, cat, was, states, phase, k) && !Wanted(phase, KindOf(d, cat[k]))
    ensures Recorded(d, cat, was, states, phase, k + 1)
    ensures Listing(d, cat, phase, k + 1) == Listing(d, cat, phase, k)
  {
  }

  lemma RecordedIsListed(d: Deployment, cat: Catalogue, was: States, states: States, phase: Phase)
    requires Recorded(d, cat, was, states, phase, |cat|)
    ensures Lists(states, Listing(d, cat, phase, |cat|))
    ensures forall s <- Listing(d, cat, phase, |cat|) :: states[s.id] == s && !s.initialized && !s.loaded
  {
    ListingIsSound(d, cat, phase, |cat|);
  }

  ghost predicate SameDecisions(a: States, b: States) {
    a.Keys == b.Keys && forall id <- a :: SameDecision(b[id], a[id])
  }

  lemma SameDecisionsTrans(a: States, b: States, c: States)
    requires SameDecisions(a, b) && SameDecisions(b, c)
    ensures SameDecisions(a, c)
  {
    forall id | id in a ensures SameDecision(c[id], a[id]) {
      assert SameDecision(b[id], a[id]) && SameDecision(c[id], b[id]);
    }
  }

  lemma SameDecisionsKeepLists(a: States, b: States, list: seq<PluginState>)
    requires SameDecisions(a, b) && Lists(a, list)
    ensures Lists(b, list)
  {
    forall s | s in list ensures s.id in b && SameDecision(b[s.id], s) {
      assert SameDecision(a[s.id], s);
    }
  }

  /** What is still to initialise, and comes after everything already running. */
  ghost predicate Pending(states: States, order: seq<string>, rest: seq<PluginState>) {
    forall s <- rest ::
      && s.id in states && SameDecision(states[s.id], s) && !states[s.id].initialized
      && forall id <- order :: id in states && RunsBefore(states[id], s)
  }

  predicate OnePhase(list: seq<PluginState>) {
    forall s <- list, t <- list :: s.kind.Required? == t.kind.Required?
  }

  lemma SortedIsPending(states: States, order: seq<string>, list: seq<PluginState>, sorted: seq<PluginState>)
    requires forall s <- list :: Pending(states, order, [s])
    requires Lists(states, list) && sorted == ByPriority(list) && OnePhase(list)
    ensures Pending(states, order, sorted) && OnePhase(sorted) && InOrder(sorted)
    ensures multiset(sorted) == multiset(list) && sorted[0..] == sorted && sorted[..0] == []
  {
    ByPriorityIsStable(list);
    forall s, t | s in sorted && t in sorted ensures s.kind.Required? == t.kind.Required? {
      assert s in multiset(sorted) && t in multiset(sorted);
      assert s in list && t in list;
    }
    forall s | s in sorted ensures Pending(states, order, [s]) && s in [s] {
      assert s in multiset(sorted);
      assert s in list;
    }
  }

  lemma NeedsStayMet(p: Plugin, shelf: Shelf, shelf': Shelf)
    requires NeedsMet(p, shelf) && Grows(shelf, shelf')
    ensures NeedsMet(p, shelf')
  {
    forall r | r in p.needs ensures Has(shelf', r) { GrowsKeepsHas(shelf, shelf', r); }
  }

  lemma AppendKeepsOrder(states: States, order: seq<string>, s: PluginState)
    requires OrderOk(states, order)
    requires s.id in states && SameDecision(s, states[s.id]) && !states[s.id].initialized && s.initialized
    requires forall id <- order :: RunsBefore(states[id], s)
    ensures OrderOk(states[s.id := s], order + [s.id])
  {
    var states', order' := states[s.id := s], order + [s.id];
    forall i, j | 0 <= i < j < |order'| ensures RunsBefore(states'[order'[i]], states'[order'[j]]) {
      assert order[i] in order && order[i] != s.id;
      if j < |order| { assert RunsBefore(states[order[i]], states[order[j]]) && order[j] in order; }
    }
  }

  /** One plugin of the sorted list was handled; the rest is still to come, and after it. */
  lemma PendingAdvances(was: States, order: seq<string>, states: States, order': seq<string>,
                        sorted: seq<PluginState>, k: nat)
    requires k < |sorted| && InOrder(sorted) && Pending(was, order, sorted[k..])
    requires OnePhase(sorted)
    requires var s := sorted[k];
      && s.id in was && s.id in states && states == was[s.id := states[s.id]] && SameDecision(states[s.id], s)
      && order' == order + if states[s.id].initialized then [s.id] else []
    ensures Pending(states, order', sorted[k + 1..])
  {
    var s := sorted[k];
    forall t | t in sorted[k + 1..]
      ensures && t.id in states && SameDecision(states[t.id], t) && !states[t.id].initialized
              && forall id <- order' :: id in states && RunsBefore(states[id], t)
    {
      var j :| k < j < |sorted| && sorted[j] == t;
      assert t in sorted[k..] && s in sorted[k..];
      assert Precedes(s, t);
      assert t.id != s.id;
      forall id | id in order' ensures id in states && RunsBefore(states[id], t) {
        if id in order && id != s.id { assert RunsBefore(was[id], t); }
      }
    }
  }

  /** States outside the list are as they were. */
  ghost predicate Untouched(was: States, states: States, list: seq<PluginState>) {
    forall id <- was :: (forall s <- list :: s.id != id) ==> id in states && states[id] == was[id]
  }

  lemma NextIsPending(states: States, order: seq<string>, list: seq<PluginState>,
                      sorted: seq<PluginState>, k: nat)
    requires k < |sorted| && Pending(states, order, sorted[k..])
    requires multiset(sorted) == multiset(list)
    ensures Pending(states, order, [sorted[k]]) && sorted[k] in list
    ensures sorted[k].id in states && !states[sorted[k].id].initialized
    ensures SameDecision(states[sorted[k].id], sorted[k])
  {
    assert sorted[k] in sorted[k..];
    assert sorted[k] in multiset(sorted);
  }

  lemma OneChanged(first: States, was: States, states: States, list: seq<PluginState>, s: PluginState)
    requires SameDecisions(first, was) && Untouched(first, was, list) && s in list
    requires s.id in was && s.id in states && states == was[s.id := states[s.id]]
    requires SameDecision(states[s.id], was[s.id])
    ensures SameDecisions(first, states) && Untouched(first, states, list)
  {
    forall id | id in first ensures id in states && SameDecision(states[id], first[id]) {
      assert SameDecision(was[id], first[id]);
    }
    assert states.Keys == was.Keys;
  }

  // ---------- what the whole start adds up to ----------

  /** A required plugin that is enabled is running. */
  predicate Runs(s: PluginState, states: States) {
    s.id in states && (s.kind.Required? && s.enabled ==> states[s.id].initialized)
  }

  /** Every plugin of the list that is running answered yes to its check. */
  predicate Checked(list: seq<PluginState>, states: States) {
    forall s <- list :: s.id in states && (states[s.id].initialized ==> s.plugin.Some? && s.plugin.value.checks)
  }

  lemma CheckedOneMore(sorted: seq<PluginState>, k: nat, states: States)
    requires k < |sorted| && Checked(sorted[..k], states) && Checked([sorted[k]], states)
    ensures Checked(sorted[..k + 1], states)
  {
    assert sorted[..k + 1] == sorted[..k] + [sorted[k]];
    assert sorted[k] in [sorted[k]];
  }

  lemma CheckedIsUnordered(sorted: seq<PluginState>, list: seq<PluginState>, states: States)
    requires Checked(sorted, states) && multiset(sorted) == multiset(list)
    ensures Checked(list, states)
  {
    forall s | s in list ensures s in sorted { assert s in multiset(sorted); }
  }

  /** An optional plugin an administrator switched on, installed. */
  predicate PanelChose(s: PluginState) {
    s.source.Panel? && s.enabled && s.plugin.Some?
  }

  function NeedNames(p: Plugin): set<string> {
    set r <- p.needs :: r.name
  }

  /** Each service the plugin needs has exactly one provider, new enough. */
  ghost predicate OneProviderEach(s: PluginState, shelf: Shelf) {
    s.plugin.Some? && forall n <- s.plugin.value.needs :: ExactlyOne(shelf, n)
  }

  /** No panel-chosen plugin provides what an enabled plugin cannot run without. */
  ghost predicate PanelChoseNoProvider(states: States) {
    forall p <- states, q <- states ::
      PanelChose(states[p]) && states[q].enabled && states[q].plugin.Some?
      ==> states[p].plugin.value.offers !! NeedNames(states[q].plugin.value)
  }

  /** Required by its kind, enabled by the decisions and installed. */
  predicate MustRun(d: Deployment, e: Entry) {
    KindOf(d, e).Required? && Enabled(d, e).Ok? && Enabled(d, e).value.0 && e.id in d.candidates
  }

  function Without(order: seq<string>, id: string): seq<string> {
    if order == [] then []
    else if order[0] == id then order[1..]
    else [order[0]] + Without(order[1..], id)
  }

  /** The first mention goes, and nothing else. */
  lemma {:induction false} WithoutIs(order: seq<string>, id: string) returns (k: nat)
    ensures id !in order ==> Without(order, id) == order && k == 0
    ensures id in order ==> k < |order| && order[k] == id && Without(order, id) == order[..k] + order[k + 1..]
  {
    if order == [] || order[0] == id {
      k := 0;
    } else {
      k := WithoutIs(order[1..], id);
      if id in order {
        assert id in order[1..];
        k := k + 1;
        assert Without(order, id) == [order[0]] + (order[1..][..k - 1] + order[1..][k..]);
        assert order[..k] == [order[0]] + order[1..][..k - 1] && order[k + 1..] == order[1..][k..];
      } else {
        assert order == [order[0]] + order[1..] && id !in order[1..];
        k := 0;
      }
    }
  }

  lemma OrderIsDistinct(states: States, order: seq<string>)
    requires OrderOk(states, order)
    ensures forall i, j :: 0 <= i < j < |order| ==> order[i] != order[j]
  {
    forall i, j | 0 <= i < j < |order| ensures order[i] != order[j] {
      assert RunsBefore(states[order[i]], states[order[j]]);
    }
  }

  /** A plugin that is stopped leaves the order, and the order is still exactly that of those running. */
  lemma StoppingKeepsOrder(states: States, order: seq<string>, gone: PluginState)
    requires OrderOk(states, order) && gone.id in states && states[gone.id].initialized && !gone.initialized
    ensures OrderOk(states[gone.id := gone], Without(order, gone.id))
  {
    OrderIsDistinct(states, order);
    hide RunsBefore, Without;
    var k := WithoutIs(order, gone.id);
    OrderWithoutOne(states, order, gone, k, Without(order, gone.id));
  }

  lemma OrderWithoutOne(states: States, order: seq<string>, gone: PluginState, k: nat, left: seq<string>)
    requires OrderOk(states, order) && gone.id in states && states[gone.id].initialized && !gone.initialized
    requires forall i, j :: 0 <= i < j < |order| ==> order[i] != order[j]
    requires k < |order| && order[k] == gone.id && left == order[..k] + order[k + 1..]
    ensures OrderOk(states[gone.id := gone], left)
  {
    hide RunsBefore;
    var states' := states[gone.id := gone];
    assert forall i :: 0 <= i < |left| ==> left[i] == order[if i < k then i else i + 1] && left[i] != gone.id;
    forall other | other in states' && states'[other].initialized ensures other in left {
      assert other in order;
      var i :| 0 <= i < |order| && order[i] == other;
      assert left[if i < k then i else i - 1] == other;
    }
    forall i, j | 0 <= i < j < |left| ensures RunsBefore(states'[left[i]], states'[left[j]]) {
      assert RunsBefore(states[order[if i < k then i else i + 1]], states[order[if j < k then j else j + 1]]);
    }
  }

  lemma StoppedStaysStopped(list: seq<PluginState>, s: PluginState, was: States, states: States, broken: bool)
    requires s in list && s.kind.Required? && s.id in was && SameDecision(was[s.id], s) && was[s.id].enabled
    requires states.Keys == was.Keys && !states[s.id].initialized
    requires forall id <- was :: id != s.id ==> states[id] == was[id]
    requires broken ==> exists t <- list :: t.id in was && !Runs(t, was)
    ensures exists t <- list :: t.id in states && !Runs(t, states)
  {
    assert !Runs(s, states);
  }

  /** The optional decisions leave the required phase's order as it is. */
  lemma NewDecisionsKeepOrder(d: Deployment, cat: Catalogue, was: States, states: States,
                              order: seq<string>, phase: Phase)
    requires Recorded(d, cat, was, states, phase, |cat|) && OrderOk(was, order)
    ensures OrderOk(states, order)
  {
    forall i, j | 0 <= i < j < |order| ensures RunsBefore(states[order[i]], states[order[j]]) {
      assert order[i] in order && order[j] in order;
      assert RunsBefore(was[order[i]], was[order[j]]);
    }
  }

  /** Every enabled and installed plugin on record is in one of the two lists. */
  lemma RecordedMeansListed(d: Deployment, cat: Catalogue, states: States, loaded: map<string, Plugin>,
                            required: set<string>, shelf: Shelf, id: string) returns (s: PluginState)
    requires AllOk(d, cat, states, loaded, required, shelf) && id in states
    requires states[id].enabled && states[id].plugin.Some?
    ensures s in Listing(d, cat, RequiredPhase, |cat|) + Listing(d, cat, OptionalPhase, |cat|)
    ensures SameDecision(states[id], s)
  {
    var k := states[id].at;
    assert Decided(d, cat, states[id]);
    s := StateOf(d, cat, k);
    ListingIsComplete(d, cat, if s.kind.Required? then RequiredPhase else OptionalPhase, |cat|, k);
  }

  /** The needs of both phases are marked, and no panel-chosen plugin offers a marked one. */
  ghost predicate PanelRefused(first: seq<PluginState>, second: seq<PluginState>, marked: set<string>) {
    && (forall s <- first + second :: s.enabled && s.plugin.Some? ==> NeedsMarked(s.plugin.value, marked))
    && (forall s <- second :: PanelChose(s) ==> s.plugin.value.offers !! marked)
  }

  lemma PanelKeepsOff(d: Deployment, cat: Catalogue, states: States, loaded: map<string, Plugin>,
                      required: set<string>, shelf: Shelf, marked: set<string>)
    requires AllOk(d, cat, states, loaded, required, shelf)
    requires PanelRefused(Listing(d, cat, RequiredPhase, |cat|), Listing(d, cat, OptionalPhase, |cat|), marked)
    ensures PanelChoseNoProvider(states)
  {
    forall p, q | p in states && q in states
      && PanelChose(states[p]) && states[q].enabled && states[q].plugin.Some?
      ensures states[p].plugin.value.offers !! NeedNames(states[q].plugin.value)
    {
      var sp := RecordedMeansListed(d, cat, states, loaded, required, shelf, p);
      var sq := RecordedMeansListed(d, cat, states, loaded, required, shelf, q);
      assert NeedNames(sq.plugin.value) <= marked;
      RequiredIsNotThePanels(d, cat);
      assert sp in Listing(d, cat, OptionalPhase, |cat|);
    }
  }

  /** No decision about a required plugin comes from the panel. */
  lemma {:induction false} RequiredIsNotThePanels(d: Deployment, cat: Catalogue)
    ensures forall s <- Listing(d, cat, RequiredPhase, |cat|) :: !PanelChose(s) && s.kind.Required?
  {
    ListingIsSound(d, cat, RequiredPhase, |cat|);
  }

  lemma RequiredRun(d: Deployment, cat: Catalogue, states: States, order: seq<string>)
    requires OrderOk(states, order)
    requires forall s <- Listing(d, cat, RequiredPhase, |cat|) :: Runs(s, states)
    requires Checked(Listing(d, cat, RequiredPhase, |cat|), states)
    ensures forall e <- cat :: MustRun(d, e) ==> e.id in order && d.candidates[e.id].checks
  {
    forall e | e in cat && MustRun(d, e) ensures e.id in order && d.candidates[e.id].checks {
      var k :| 0 <= k < |cat| && cat[k] == e;
      ListingIsComplete(d, cat, RequiredPhase, |cat|, k);
      assert Runs(StateOf(d, cat, k), states);
    }
  }

  lemma NeedsHaveOneProvider(d: Deployment, cat: Catalogue, states: States, order: seq<string>,
                             loaded: map<string, Plugin>, required: set<string>, shelf: Shelf)
    requires AllOk(d, cat, states, loaded, required, shelf) && OrderOk(states, order)
    requires Unambiguous(shelf, required)
    ensures forall id <- order :: OneProviderEach(states[id], shelf)
  {
    forall id | id in order ensures OneProviderEach(states[id], shelf) {
      assert StateOk(states[id], loaded, required, shelf);
      forall n | n in states[id].plugin.value.needs ensures ExactlyOne(shelf, n) {
        SatisfiedAndUnambiguousIsExactlyOne(shelf, required, n);
      }
    }
  }

  // ---------- who loads, and who initialises ----------

  predicate Loadable(s: PluginState) {
    s.enabled && s.plugin.Some? && Loads(s.plugin.value)
  }

  /** Of the first n of the list, exactly those that can are loaded. */
  predicate LoadedUpTo(states: States, list: seq<PluginState>, n: nat)
    requires n <= |list|
  {
    forall i :: 0 <= i < n ==> list[i].id in states && (states[list[i].id].loaded <==> Loadable(list[i]))
  }

  predicate NotYetLoaded(states: States, list: seq<PluginState>, n: nat) {
    forall i :: n <= i < |list| ==> list[i].id in states && !states[list[i].id].loaded
  }

  lemma NothingLoaded(states: States, list: seq<PluginState>, shelf: Shelf)
    ensures LoadedUpTo(states, list, 0) && SameRun(states, states) && Grows(shelf, shelf)
  {
  }

  lemma NextToRegister(first: States, states: States, list: seq<PluginState>, k: nat)
    requires k < |list| && NotYetLoaded(states, list, k) && Lists(first, list) && SameRun(first, states)
    requires forall s <- list :: s.id in first ==> !first[s.id].initialized
    ensures var s := list[k];
      && s in list && s.id in states && SameDecision(states[s.id], s)
      && !states[s.id].loaded && !states[s.id].initialized && (s.enabled ==> s.plugin.Some?)
      && (!s.enabled ==> !Loadable(s))
  {
    assert list[k] in list;
    SameRunKeepsLists(first, states, list);
  }

  lemma GrowsTrans(a: Shelf, b: Shelf, c: Shelf)
    requires Grows(a, b) && Grows(b, c)
    ensures Grows(a, c)
  {
  }

  lemma LoadedOneMore(list: seq<PluginState>, k: nat, was: States, states: States)
    requires k < |list| && LoadedUpTo(was, list, k) && NotYetLoaded(was, list, k)
    requires forall i, j :: 0 <= i < j < |list| ==> list[i].id != list[j].id
    requires states.Keys == was.Keys && list[k].id in states
    requires forall id <- was :: id != list[k].id ==> states[id] == was[id]
    requires states[list[k].id].loaded <==> Loadable(list[k])
    ensures LoadedUpTo(states, list, k + 1) && NotYetLoaded(states, list, k + 1)
  {
  }

  ghost predicate SameLoaded(a: States, b: States) {
    a.Keys == b.Keys && forall id <- a :: b[id].loaded == a[id].loaded
  }

  /** Everything of the list that was ready when its phase began is running. */
  ghost predicate ReadyRan(was: States, list: seq<PluginState>, shelf: Shelf, states: States) {
    forall s <- list :: Ready(was, s, shelf) ==> s.id in states && states[s.id].initialized
  }

  lemma SameAtFirst(states: States, list: seq<PluginState>, shelf: Shelf)
    ensures SameLoaded(states, states) && SameDecisions(states, states) && Untouched(states, states, list)
    ensures ReadyRan(states, [], shelf, states) && Grows(shelf, shelf)
  {
  }

  /** Nothing published is withdrawn, so what was ready still is when its turn comes. */
  lemma ReadyStays(was: States, states: States, s: PluginState, before: Shelf, shelf: Shelf)
    requires SameLoaded(was, states) && Grows(before, shelf)
    ensures Ready(was, s, before) ==> Ready(states, s, shelf)
  {
    if Ready(was, s, before) {
      NeedsStayMet(s.plugin.value, before, shelf);
    }
  }

  lemma ReadyRanOneMore(first: States, was: States, sorted: seq<PluginState>, k: nat, shelf: Shelf, states: States)
    requires k < |sorted| && SameLoaded(first, was) && ReadyRan(first, sorted[..k], shelf, was)
    requires sorted[k].id in was && sorted[k].id in states && states == was[sorted[k].id := states[sorted[k].id]]
    requires !was[sorted[k].id].initialized
    requires states[sorted[k].id].loaded == was[sorted[k].id].loaded
    requires Ready(first, sorted[k], shelf) ==> states[sorted[k].id].initialized
    ensures SameLoaded(first, states) && ReadyRan(first, sorted[..k + 1], shelf, states)
  {
    hide Ready;
    assert sorted[..k + 1] == sorted[..k] + [sorted[k]];
  }

  lemma ReadyRanIsUnordered(first: States, list: seq<PluginState>, sorted: seq<PluginState>, shelf: Shelf,
                            states: States)
    requires multiset(sorted) == multiset(list) && ReadyRan(first, sorted, shelf, states)
    ensures ReadyRan(first, list, shelf, states)
  {
    forall s | s in list ensures s in sorted {
      assert s in multiset(sorted);
    }
  }

  /** Each need was published by a plugin that registered. */
  predicate NeedsOffered(p: Plugin, states: States) {
    forall n <- p.needs ::
      exists q <- states :: states[q].loaded && states[q].plugin.Some? && Offers(states[q].plugin.value, n)
  }

  predicate Offers(p: Plugin, n: Requirement) {
    exists pr <- p.publishes :: pr.name == n.name && pr.version >= n.minimum
  }

  lemma OfferedIsMet(d: Deployment, cat: Catalogue, states: States, loaded: map<string, Plugin>,
                     required: set<string>, shelf: Shelf, p: Plugin)
    requires AllOk(d, cat, states, loaded, required, shelf) && NeedsOffered(p, states)
    ensures NeedsMet(p, shelf)
  {
    forall n | n in p.needs ensures Has(shelf, n) {
      var q :| q in states && states[q].loaded && states[q].plugin.Some? && Offers(states[q].plugin.value, n);
      OneOk(d, cat, states, loaded, required, shelf, q);
      var pr :| pr in states[q].plugin.value.publishes && pr.name == n.name && pr.version >= n.minimum;
      assert pr in shelf[n.name];
    }
  }

  lemma SameLoadedSameOffers(a: States, b: States, p: Plugin)
    requires SameLoaded(a, b) && SameDecisions(a, b) && NeedsOffered(p, b)
    ensures NeedsOffered(p, a)
  {
    forall n | n in p.needs
      ensures exists q <- a :: a[q].loaded && a[q].plugin.Some? && Offers(a[q].plugin.value, n)
    {
      var q :| q in b && b[q].loaded && b[q].plugin.Some? && Offers(b[q].plugin.value, n);
      assert SameDecision(b[q], a[q]);
    }
  }

  /** Nothing but its own hooks or an unpublished need keeps a plugin of the list from running. */
  ghost predicate AbleOnesRan(list: seq<PluginState>, states: States) {
    forall s <- list ::
      Loadable(s) && Initializes(s.plugin.value) && NeedsOffered(s.plugin.value, states)
      ==> s.id in states && states[s.id].initialized
  }

  lemma ReadyMeansAble(d: Deployment, cat: Catalogue, was: States, states: States, loaded: map<string, Plugin>,
                       required: set<string>, shelf: Shelf, list: seq<PluginState>)
    requires AllOk(d, cat, was, loaded, required, shelf) && LoadedUpTo(was, list, |list|)
    requires SameLoaded(was, states) && SameDecisions(was, states) && ReadyRan(was, list, shelf, states)
    ensures AbleOnesRan(list, states)
  {
    hide NeedsOffered, AllOk, NeedsMet;
    forall s | s in list && Loadable(s) && Initializes(s.plugin.value) && NeedsOffered(s.plugin.value, states)
      ensures s.id in states && states[s.id].initialized
    {
      SameLoadedSameOffers(was, states, s.plugin.value);
      OfferedIsMet(d, cat, was, loaded, required, shelf, s.plugin.value);
      var i :| 0 <= i < |list| && list[i] == s;
      assert Ready(was, s, shelf);
    }
  }

  /** Switched on and installed, able to load and initialise, and with every need published by somebody. */
  predicate ShouldRun(d: Deployment, e: Entry, states: States) {
    && Enabled(d, e).Ok? && Enabled(d, e).value.0 && e.id in d.candidates
    && Loads(d.candidates[e.id]) && Initializes(d.candidates[e.id]) && NeedsOffered(d.candidates[e.id], states)
  }

  lemma OptionalRun(d: Deployment, cat: Catalogue, states: States, order: seq<string>)
    requires OrderOk(states, order) && AbleOnesRan(Listing(d, cat, OptionalPhase, |cat|), states)
    ensures forall e <- cat :: !KindOf(d, e).Required? && ShouldRun(d, e, states) ==> e.id in order
  {
    hide NeedsOffered, Loads, Initializes, RunsBefore;
    forall e | e in cat && !KindOf(d, e).Required? && ShouldRun(d, e, states) ensures e.id in order {
      var k :| 0 <= k < |cat| && cat[k] == e;
      ListingIsComplete(d, cat, OptionalPhase, |cat|, k);
      assert Loadable(StateOf(d, cat, k));
    }
  }

  /**
   The administrator's word holds: an optional plugin that runs is switched on, and
   one that is switched on, able and satisfied runs.
   */
  ghost predicate RunsAsSwitched(d: Deployment, cat: Catalogue, states: States, order: seq<string>) {
    forall e <- cat :: IsOptional(d, e) ==>
      && (e.id in order ==> SwitchedOn(d, e) && e.id in d.candidates)
      && (SwitchedOn(d, e) && e.id in d.candidates
          && Loads(d.candidates[e.id]) && Initializes(d.candidates[e.id]) && NeedsOffered(d.candidates[e.id], states)
          ==> e.id in order)
  }

  lemma SwitchesHold(d: Deployment, cat: Catalogue, states: States, order: seq<string>,
                     loaded: map<string, Plugin>, required: set<string>, shelf: Shelf)
    requires DistinctIds(cat) && AllOk(d, cat, states, loaded, required, shelf) && OrderOk(states, order)
    requires forall e <- cat :: !KindOf(d, e).Required? && ShouldRun(d, e, states) ==> e.id in order
    ensures RunsAsSwitched(d, cat, states, order)
  {
    hide NeedsOffered, Loads, Initializes, RunsBefore, NeedsMarked, NeedsMet, OnShelf;
    forall e | e in cat && IsOptional(d, e)
      ensures e.id in order ==> SwitchedOn(d, e) && e.id in d.candidates
    {
      OptionalIsDecidedBy(d, e);
      if e.id in order {
        var s := states[e.id];
        assert s.id == e.id && Decided(d, cat, s) && s.loaded && s.enabled;
      }
    }
    forall e | e in cat && IsOptional(d, e) && SwitchedOn(d, e) && e.id in d.candidates
      && Loads(d.candidates[e.id]) && Initializes(d.candidates[e.id]) && NeedsOffered(d.candidates[e.id], states)
      ensures e.id in order
    {
      OptionalIsDecidedBy(d, e);
      assert ShouldRun(d, e, states);
    }
  }

  // ---------- the stop ----------

  /** The plugins a stop cleans: the order from its end, those with a cleanup hook. */
  function Cleaned(order: seq<string>, loaded: map<string, Plugin>): seq<string> {
    if order == [] then []
    else
      var last := order[|order| - 1];
      (if last in loaded && loaded[last].cleans then [last] else []) + Cleaned(order[..|order| - 1], loaded)
  }

  lemma NothingIsCleaned(loaded: map<string, Plugin>)
    ensures Cleaned([], loaded) == []
  {
  }

  /** The last of the first k comes before the others. */
  lemma CleanedBefore(order: seq<string>, loaded: map<string, Plugin>, k: nat)
    requires 0 < k <= |order|
    ensures Cleaned(order[..k], loaded)
         == (if order[k - 1] in loaded && loaded[order[k - 1]].cleans then [order[k - 1]] else [])
            + Cleaned(order[..k - 1], loaded)
  {
    assert order[..k][..k - 1] == order[..k - 1];
  }

  lemma {:induction false} CleanedAre(order: seq<string>, loaded: map<string, Plugin>)
    ensures forall id :: id in Cleaned(order, loaded) <==> id in order && id in loaded && loaded[id].cleans
  {
    if order != [] {
      CleanedAre(order[..|order| - 1], loaded);
      assert order == order[..|order| - 1] + [order[|order| - 1]];
    }
  }

  ghost predicate ReversesStart(states: States, c: seq<string>) {
    && (forall id <- c :: id in states)
    && (forall i, j :: 0 <= i < j < |c| ==> c[i] != c[j] && RunsBefore(states[c[j]], states[c[i]]))
  }

  /** Each initialised plugin with a hook exactly once, in the reverse of the start. */
  lemma {:induction false} StopReversesTheStart(states: States, order: seq<string>, loaded: map<string, Plugin>)
    requires forall id <- order :: id in states
    requires forall i, j :: 0 <= i < j < |order| ==> RunsBefore(states[order[i]], states[order[j]])
    ensures ReversesStart(states, Cleaned(order, loaded))
  {
    if order != [] {
      var front, last := order[..|order| - 1], order[|order| - 1];
      CleanedAre(front, loaded);
      CleanedAre(order, loaded);
      forall i, j | 0 <= i < j < |front| ensures RunsBefore(states[front[i]], states[front[j]]) {
        assert front[i] == order[i] && front[j] == order[j];
      }
      assert forall id <- front :: id in order;
      StopReversesTheStart(states, front, loaded);
      assert ReversesStart(states, Cleaned(front, loaded));
      forall id | id in Cleaned(front, loaded) ensures id != last && RunsBefore(states[id], states[last]) {
        var k :| 0 <= k < |front| && front[k] == id;
        assert order[k] == id && order[|order| - 1] == last;
      }
      LastComesFirst(states, last, Cleaned(front, loaded));
    }
  }

  lemma LastComesFirst(states: States, last: string, rest: seq<string>)
    requires ReversesStart(states, rest) && last in states
    requires forall k | 0 <= k < |rest| :: rest[k] != last && RunsBefore(states[rest[k]], states[last])
    ensures ReversesStart(states, [last] + rest) && [] + rest == rest
  {
    hide RunsBefore;
    var c := [last] + rest;
    forall i, j | 0 <= i < j < |c|
      ensures c[i] in states && c[j] in states && c[i] != c[j] && RunsBefore(states[c[j]], states[c[i]])
    {
      if i > 0 {
        OneAtATime(states, rest, i - 1, j - 1);
      }
    }
  }

  lemma OneAtATime(states: States, c: seq<string>, i: nat, j: nat)
    requires ReversesStart(states, c) && i < j < |c|
    ensures c[i] in states && c[j] in states && c[i] != c[j] && RunsBefore(states[c[j]], states[c[i]])
  {
    hide RunsBefore;
  }
}
