/** The services plugins publish, and how a consumer is handed one. */
module ServiceRegistry {
  import opened Wrappers

  /** Published as an object, as a factory that builds it on first use, or as neither. */
  datatype Form = Object | Factory | Nothing

  datatype Provider = Provider(name: string, version: int, plugin: string, form: Form)

  datatype Requirement = Requirement(name: string, minimum: int)

  datatype ServiceError = Frozen | Nameless | Unsatisfied | Duplicate

  type Shelf = map<string, seq<Provider>>

  /** The newest provider at or above the minimum, the earliest of equals. */
  function Newest(ps: seq<Provider>, minimum: int): (r: Option<Provider>)
    ensures r.None? <==> forall p <- ps :: p.version < minimum
    ensures r.Some? ==> r.value in ps && r.value.version >= minimum
    ensures r.Some? ==> forall p <- ps :: p.version <= r.value.version
  {
    if ps == [] then None
    else
      var rest := Newest(ps[1..], minimum);
      assert ps == [ps[0]] + ps[1..];
      if ps[0].version < minimum then rest
      else if rest.Some? && rest.value.version > ps[0].version then rest
      else Some(ps[0])
  }

  function Best(shelf: Shelf, name: string, minimum: int): Option<Provider> {
    if name in shelf then Newest(shelf[name], minimum) else None
  }

  predicate Has(shelf: Shelf, r: Requirement) {
    Best(shelf, r.name, r.minimum).Some?
  }

  /** A requirement is satisfied by any provider of its name that is new enough. */
  lemma HasIff(shelf: Shelf, r: Requirement)
    ensures Has(shelf, r) <==> r.name in shelf && exists p <- shelf[r.name] :: p.version >= r.minimum
  {
    if Has(shelf, r) {
      assert Best(shelf, r.name, r.minimum).value in shelf[r.name];
    }
  }

  function Published(shelf: Shelf, p: Provider): Shelf {
    shelf[p.name := (if p.name in shelf then shelf[p.name] else []) + [p]]
  }

  /** Publishing in order, up to the first that has no name. */
  function PublishedAll(shelf: Shelf, ps: seq<Provider>): Shelf
    decreases |ps|
  {
    if ps == [] || ps[0].name == "" then shelf else PublishedAll(Published(shelf, ps[0]), ps[1..])
  }

  /** Every one of these stands on the shelf under its name. */
  predicate OnShelf(ps: seq<Provider>, shelf: Shelf) {
    forall p <- ps :: p.name in shelf && p in shelf[p.name]
  }

  lemma GrowsKeepsOnShelf(ps: seq<Provider>, a: Shelf, b: Shelf)
    requires OnShelf(ps, a) && Grows(a, b)
    ensures OnShelf(ps, b)
  {
    forall p | p in ps ensures p.name in b && p in b[p.name] {
      assert a[p.name] <= b[p.name];
    }
  }

  lemma {:induction false} PublishedAreOnShelf(shelf: Shelf, ps: seq<Provider>)
    requires AllNamed(ps)
    ensures OnShelf(ps, PublishedAll(shelf, ps)) && Grows(shelf, PublishedAll(shelf, ps))
    decreases |ps|
  {
    if ps != [] {
      var one, rest := Published(shelf, ps[0]), ps[1..];
      assert ps == [ps[0]] + rest;
      assert forall p <- rest :: p in ps;
      PublishedAreOnShelf(one, rest);
      assert OnShelf([ps[0]], one);
      GrowsKeepsOnShelf([ps[0]], one, PublishedAll(one, rest));
      assert ps[0] in [ps[0]];
    }
  }

  predicate AllNamed(ps: seq<Provider>) {
    forall p <- ps :: p.name != ""
  }

  /** Nothing published is ever withdrawn. */
  ghost predicate Grows(a: Shelf, b: Shelf) {
    forall n <- a :: n in b && a[n] <= b[n]
  }

  lemma GrowsKeepsHas(a: Shelf, b: Shelf, r: Requirement)
    requires Grows(a, b) && Has(a, r)
    ensures Has(b, r)
  {
    var p := Best(a, r.name, r.minimum).value;
    assert p in b[r.name];
  }

  /** A required name has at most one provider. */
  predicate Unambiguous(shelf: Shelf, required: set<string>) {
    forall n <- required :: n in shelf ==> |shelf[n]| <= 1
  }

  /** The one provider a satisfied requirement has once duplicates are refused. */
  ghost predicate ExactlyOne(shelf: Shelf, r: Requirement) {
    r.name in shelf && |shelf[r.name]| == 1 && shelf[r.name][0].version >= r.minimum
  }

  lemma SatisfiedAndUnambiguousIsExactlyOne(shelf: Shelf, required: set<string>, r: Requirement)
    requires Has(shelf, r) && Unambiguous(shelf, required) && r.name in required
    ensures ExactlyOne(shelf, r)
  {
    var p := Best(shelf, r.name, r.minimum).value;
    assert p in shelf[r.name];
  }

  // ---------- what a consumer is handed ----------

  /** What stands built under a name: the provider whose factory made the object. */
  type Built = map<string, Provider>

  /** The provider whose object answers, or None when the requirement fails. */
  function Handed(shelf: Shelf, built: Built, r: Requirement): Option<Provider> {
    var best := Best(shelf, r.name, r.minimum);
    if best.None? || best.value.form.Object? then best
    else if r.name in built then Some(built[r.name])
    else if best.value.form.Nothing? then None
    else best
  }

  function BuiltAfter(shelf: Shelf, built: Built, r: Requirement): Built {
    var best := Best(shelf, r.name, r.minimum);
    if best.Some? && best.value.form.Factory? && r.name !in built then built[r.name := best.value] else built
  }

  /** A provider offered or a requirement asked for. */
  datatype Call = Provides(p: Provider) | Requires(r: Requirement)

  function ShelfAfter(frozen: bool, shelf: Shelf, c: Call): Shelf {
    if c.Provides? && !frozen && c.p.name != "" then Published(shelf, c.p) else shelf
  }

  /** Of these calls in turn every requirement answered is answered at its version or a higher one. */
  predicate AllMet(frozen: bool, shelf: Shelf, built: Built, calls: seq<Call>)
    decreases |calls|
  {
    calls == []
    || (var c := calls[0];
        if c.Provides? then AllMet(frozen, ShelfAfter(frozen, shelf, c), built, calls[1..])
        else
          && (Handed(shelf, built, c.r).Some? ==> Handed(shelf, built, c.r).value.version >= c.r.minimum)
          && AllMet(frozen, shelf, BuiltAfter(shelf, built, c.r), calls[1..]))
  }

  /** The name has no newer provider than this one, or the newest brings its own object. */
  predicate Current(shelf: Shelf, name: string, p: Provider) {
    var newer := Best(shelf, name, p.version + 1);
    newer.None? || newer.value.form.Object?
  }

  predicate NoneNewer(shelf: Shelf, built: Built) {
    forall n <- built :: Current(shelf, n, built[n])
  }

  /** What is the newest at a lower minimum too is the newest at a higher one it meets. */
  lemma {:induction false} NewestForAll(ps: seq<Provider>, a: int, b: int)
    requires a <= b && Newest(ps, b).Some?
    ensures Newest(ps, a) == Newest(ps, b)
  {
    if ps != [] {
      assert ps == [ps[0]] + ps[1..];
      if Newest(ps[1..], b).Some? {
        NewestForAll(ps[1..], a, b);
      } else {
        assert forall p <- ps[1..] :: p.version < b;
      }
    }
  }

  lemma CurrentIsMet(shelf: Shelf, name: string, minimum: int, p: Provider)
    requires Best(shelf, name, minimum).Some? && !Best(shelf, name, minimum).value.form.Object?
    requires Current(shelf, name, p)
    ensures p.version >= minimum
  {
    hide Newest;
    if p.version < minimum {
      NewestForAll(shelf[name], p.version + 1, minimum);
    }
  }

  lemma HandedIsMet(shelf: Shelf, built: Built, r: Requirement)
    requires NoneNewer(shelf, built) && Handed(shelf, built, r).Some?
    ensures Handed(shelf, built, r).value.version >= r.minimum
  {
    var best := Best(shelf, r.name, r.minimum);
    if !best.value.form.Object? && r.name in built {
      CurrentIsMet(shelf, r.name, r.minimum, built[r.name]);
    }
  }

  /** The nth provider of a name is the newest one, and the first of its version. */
  predicate IsNewest(ps: seq<Provider>, n: nat)
    requires n < |ps|
  {
    && (forall p <- ps :: p.version <= ps[n].version)
    && forall j :: 0 <= j < n ==> ps[j].version < ps[n].version
  }

  lemma {:induction false} OneIsNewest(ps: seq<Provider>) returns (n: nat)
    requires ps != []
    ensures n < |ps| && IsNewest(ps, n)
  {
    n := 0;
    assert ps == [ps[0]] + ps[1..];
    if |ps| > 1 {
      var k := OneIsNewest(ps[1..]);
      if ps[k + 1].version > ps[0].version { n := k + 1; }
      assert forall j :: 0 < j < |ps| ==> ps[j] == ps[1..][j - 1];
    }
  }

  lemma {:induction false} NewestIsFirst(ps: seq<Provider>, minimum: int) returns (i: nat)
    requires Newest(ps, minimum).Some?
    ensures i < |ps| && ps[i] == Newest(ps, minimum).value
    ensures forall j :: 0 <= j < i ==> ps[j].version < ps[i].version
  {
    if ps[0].version >= minimum && Newest(ps, minimum) == Some(ps[0]) {
      i := 0;
    } else {
      var k := NewestIsFirst(ps[1..], minimum);
      i := k + 1;
      forall j | 0 <= j < i ensures ps[j].version < ps[i].version {
        assert j > 0 ==> ps[j] == ps[1..][j - 1];
      }
    }
  }

  lemma NewestIs(ps: seq<Provider>, n: nat, minimum: int)
    requires n < |ps| && IsNewest(ps, n)
    ensures Newest(ps, minimum) == if ps[n].version >= minimum then Some(ps[n]) else None
  {
    assert ps[n] in ps;
    if ps[n].version >= minimum {
      var r := Newest(ps, minimum).value;
      var i := NewestIsFirst(ps, minimum);
      assert r.version == ps[n].version;
      assert i == n;
    }
  }

  lemma AskKeepsNoneNewer(shelf: Shelf, built: Built, r: Requirement)
    requires NoneNewer(shelf, built)
    ensures NoneNewer(shelf, BuiltAfter(shelf, built, r))
  {
    var best := Best(shelf, r.name, r.minimum);
    if best.Some? {
      assert forall p <- shelf[r.name] :: p.version <= best.value.version;
      assert Current(shelf, r.name, best.value);
    }
  }

  lemma {:induction false} FrozenIsMet(shelf: Shelf, built: Built, calls: seq<Call>)
    requires NoneNewer(shelf, built)
    ensures AllMet(true, shelf, built, calls)
    decreases |calls|
  {
    if calls != [] {
      if calls[0].Provides? {
        FrozenIsMet(shelf, built, calls[1..]);
      } else {
        var r := calls[0].r;
        if Handed(shelf, built, r).Some? { HandedIsMet(shelf, built, r); }
        AskKeepsNoneNewer(shelf, built, r);
        FrozenIsMet(shelf, BuiltAfter(shelf, built, r), calls[1..]);
      }
    }
  }

  function Highest(ps: seq<Provider>): (v: int)
    ensures forall p <- ps :: p.version <= v
  {
    if ps == [] then 0
    else
      var v := Highest(ps[1..]);
      assert ps == [ps[0]] + ps[1..];
      if ps[0].version > v then ps[0].version else v
  }

  lemma PublishedIsBest(shelf: Shelf, p: Provider)
    requires p.name in shelf ==> forall q <- shelf[p.name] :: q.version < p.version
    ensures Best(Published(shelf, p), p.name, p.version) == Some(p)
  {
    assert p in Published(shelf, p)[p.name];
  }

  lemma StaleAfter(frozen: bool, shelf: Shelf, built: Built, c: Call, rest: seq<Call>)
    requires !AllMet(frozen, ShelfAfter(frozen, shelf, c), if c.Requires? then BuiltAfter(shelf, built, c.r) else built, rest)
    ensures !AllMet(frozen, shelf, built, [c] + rest)
  {
    assert ([c] + rest)[1..] == rest;
  }

  /** However the first requirement of a name is answered, a newer lazy provider than all is not handed out after it. */
  lemma NewerIsNotHanded(shelf: Shelf, built: Built, older: Provider, newer: Provider)
    requires older.name == newer.name && older.version < newer.version && older.form.Factory? && newer.form.Factory?
    requires older.name in shelf ==> forall p <- shelf[older.name] :: p.version < older.version
    requires older.name in built ==> built[older.name].version < newer.version
    ensures var name, one := older.name, Published(shelf, older);
      var built' := BuiltAfter(one, built, Requirement(name, older.version));
      var answer := Handed(Published(one, newer), built', Requirement(name, newer.version));
      answer.Some? && answer.value.version < newer.version
  {
    var one := Published(shelf, older);
    PublishedIsBest(shelf, older);
    assert forall p: Provider <- one[older.name] :: p.version < newer.version;
    PublishedIsBest(one, newer);
    hide Best, Published;
  }

  /** Before the freeze two lazy providers, each newer than all before it, make a stale answer. */
  lemma UnfrozenIsStale(shelf: Shelf, built: Built) returns (calls: seq<Call>)
    ensures !AllMet(false, shelf, built, calls)
  {
    var name := "cache";
    var top := Highest((if name in shelf then shelf[name] else []) + (if name in built then [built[name]] else []));
    assert name in built ==> built[name] in [built[name]];
    var older, newer := Provider(name, top + 1, "a", Factory), Provider(name, top + 2, "b", Factory);
    NewerIsNotHanded(shelf, built, older, newer);
    StaleAfterTwo(shelf, built, older, newer);
    calls := [Provides(older), Requires(Requirement(name, top + 1)), Provides(newer), Requires(Requirement(name, top + 2))];
  }

  lemma StaleAfterTwo(shelf: Shelf, built: Built, older: Provider, newer: Provider)
    requires older.name == newer.name && older.name != ""
    requires var name, one := older.name, Published(shelf, older);
      var built' := BuiltAfter(one, built, Requirement(name, older.version));
      var answer := Handed(Published(one, newer), built', Requirement(name, newer.version));
      answer.Some? && answer.value.version < newer.version
    ensures !AllMet(false, shelf, built,
      [Provides(older), Requires(Requirement(older.name, older.version)),
       Provides(newer), Requires(Requirement(older.name, newer.version))])
  {
    hide Published, BuiltAfter, Handed;
    var r, r' := Requirement(older.name, older.version), Requirement(older.name, newer.version);
    var one := Published(shelf, older);
    var built' := BuiltAfter(one, built, r);
    assert [Requires(r')][1..] == [] && !AllMet(false, Published(one, newer), built', [Requires(r')]);
    StaleAfter(false, one, built', Provides(newer), [Requires(r')]);
    StaleAfter(false, one, built, Requires(r), [Provides(newer)] + [Requires(r')]);
    StaleAfter(false, shelf, built, Provides(older), [Requires(r)] + ([Provides(newer)] + [Requires(r')]));
    assert [Provides(older), Requires(r), Provides(newer), Requires(r')]
        == [Provides(older)] + ([Requires(r)] + ([Provides(newer)] + [Requires(r')]));
  }

  lemma OldAnswer(frozen: bool, shelf: Shelf, built: Built, name: string)
    requires name in built && !Current(shelf, name, built[name])
    ensures !AllMet(frozen, shelf, built, [Requires(Requirement(name, built[name].version + 1))])
  {
    var r := Requirement(name, built[name].version + 1);
    assert Handed(shelf, built, r) == Some(built[name]);
    var calls := [Requires(r)];
    assert calls[0].r == r;
  }

  /**
   Every sequence of offers and requirements is answered at the versions asked
   for exactly when the registry is frozen and no built name has a newer provider
   without an object of its own.
   */
  lemma NeverStaleIff(frozen: bool, shelf: Shelf, built: Built)
    ensures (forall calls :: AllMet(frozen, shelf, built, calls)) <==> frozen && NoneNewer(shelf, built)
  {
    if !frozen {
      var calls := UnfrozenIsStale(shelf, built);
    } else if NoneNewer(shelf, built) {
      forall calls ensures AllMet(frozen, shelf, built, calls) { FrozenIsMet(shelf, built, calls); }
    } else {
      var n :| n in built && !Current(shelf, n, built[n]);
      OldAnswer(frozen, shelf, built, n);
    }
  }

  class Registry {
    var providers: Shelf
    var built: Built
    var required: set<string>
    var frozen: bool

    constructor ()
      ensures providers == map[] && built == map[] && required == {} && !frozen
    {
      providers, built, required, frozen := map[], map[], {}, false;
    }

    /** Appends the provider, unless the registry is frozen or the name is empty. */
    method Provide(p: Provider) returns (r: Result<Provider, ServiceError>)
      modifies this`providers
      ensures r == if frozen then Err(Frozen) else if p.name == "" then Err(Nameless) else Ok(p)
      ensures providers == if r.Ok? then Published(old(providers), p) else old(providers)
      ensures Grows(old(providers), providers)
    {
      if frozen { return Err(Frozen); }
      if p.name == "" { return Err(Nameless); }
      providers := providers[p.name := (if p.name in providers then providers[p.name] else []) + [p]];
      r := Ok(p);
    }

    method MarkRequired(name: string)
      modifies this`required
      ensures required == old(required) + {name}
    {
      required := required + {name};
    }

    /**
     The object behind a name, told by the provider that made it. A factory's
     object is kept under the name and not under the provider.
     */
    method Require(r: Requirement) returns (made: Result<Provider, ServiceError>)
      modifies this`built
      ensures made == (match Handed(providers, old(built), r) case Some(p) => Ok(p) case None => Err(Unsatisfied))
      ensures built == BuiltAfter(providers, old(built), r)
      ensures r.name !in providers ==> made == Err(Unsatisfied) && built == old(built)
      ensures r.name in providers ==> forall n {:trigger IsNewest(providers[r.name], n)} ::
        0 <= n < |providers[r.name]| && IsNewest(providers[r.name], n) ==>
          var p := providers[r.name][n];
          && (p.version < r.minimum ==> made == Err(Unsatisfied) && built == old(built))
          && (p.version >= r.minimum && p.form.Object? ==> made == Ok(p) && built == old(built))
          && (p.version >= r.minimum && !p.form.Object? && r.name in old(built) ==>
                made == Ok(old(built)[r.name]) && built == old(built))
          && (p.version >= r.minimum && p.form.Factory? && r.name !in old(built) ==>
                made == Ok(p) && built == old(built)[r.name := p])
          && (p.version >= r.minimum && p.form.Nothing? && r.name !in old(built) ==>
                made == Err(Unsatisfied) && built == old(built))
      ensures NoneNewer(providers, old(built)) ==>
                NoneNewer(providers, built) && (made.Ok? ==> made.value.version >= r.minimum)
    {
      if r.name in providers {
        forall n | 0 <= n < |providers[r.name]| && IsNewest(providers[r.name], n)
          ensures Newest(providers[r.name], r.minimum)
               == if providers[r.name][n].version >= r.minimum then Some(providers[r.name][n]) else None
        {
          NewestIs(providers[r.name], n, r.minimum);
        }
      }
      if NoneNewer(providers, built) {
        AskKeepsNoneNewer(providers, built, r);
        if Handed(providers, built, r).Some? { HandedIsMet(providers, built, r); }
      }
      var best := Best(providers, r.name, r.minimum);
      if best.None? { return Err(Unsatisfied); }
      if best.value.form.Object? { return Ok(best.value); }
      if r.name !in built {
        if best.value.form.Nothing? { return Err(Unsatisfied); }
        built := built[r.name := best.value];
      }
      made := Ok(built[r.name]);
    }

    method CheckDuplicates() returns (clash: bool)
      ensures clash <==> !Unambiguous(providers, required)
      ensures clash <==> exists n <- required :: n in providers && |providers[n]| >= 2
    {
      clash := false;
      var names := required;
      while names != {}
        invariant names <= required
        invariant clash <==> !Unambiguous(providers, required - names)
        decreases names
      {
        var n :| n in names;
        clash := clash || (n in providers && |providers[n]| > 1);
        assert required - (names - {n}) == (required - names) + {n};
        names := names - {n};
      }
      assert required - {} == required;
    }

    /** Refuses a duplicate; otherwise nothing is published from here on. */
    method Freeze() returns (r: Result<bool, ServiceError>)
      modifies this`frozen
      ensures r.Ok? <==> Unambiguous(providers, required)
      ensures r.Ok? <==> forall n <- required :: n in providers ==> |providers[n]| < 2
      ensures frozen == (r.Ok? || old(frozen))
    {
      var clash := CheckDuplicates();
      if clash { return Err(Duplicate); }
      frozen := true;
      r := Ok(true);
    }
  }

  /**
   "Handed to a consumer at the version it asked for" fails for a lazy service
   built before a newer provider came: the old object answers for the new version.
   */
  method StaleBuild() returns (made: Result<Provider, ServiceError>)
    ensures made.Ok? && made.value.version < 2
  {
    var registry := new Registry();
    var older, newer := Provider("cache", 1, "a", Factory), Provider("cache", 2, "b", Factory);
    var _ := registry.Provide(older);
    assert registry.providers["cache"] == [older];
    made := registry.Require(Requirement("cache", 1));
    var _ := registry.Provide(newer);
    assert registry.providers["cache"] == [older, newer];
    assert newer in registry.providers["cache"];
    made := registry.Require(Requirement("cache", 2));
  }
}
