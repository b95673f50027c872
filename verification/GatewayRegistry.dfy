/**
 The gateway's registry: services lease prefixes by repeating a registration, and
 each replica reads the live rows as routes.
 */
module GatewayRegistry {
  import opened Wrappers
  import opened GatewayTable

  datatype Key = Key(name: string, address: string, prefix: string)

  /** A leased prefix: the route's own keys, and until when. */
  datatype Row = Row(settings: Settings, expires: int)

  type Rows = map<Key, Row>

  const MAX_PREFIXES := 32
  const DEFAULT_TTL_SECONDS := 30
  const MAX_TTL_SECONDS := 300
  const REFRESH_SECONDS := 2

  // ---------- what a registration may say ----------

  /** `address` is the text given, with what the URL library reads in it once trimmed. */
  datatype Record = Record(name: string, address: Address, prefixes: seq<string>, settings: Settings,
                           ttl: Option<int>)

  datatype Error = Bad | Taken(prefix: string)

  /** A name or an address: some text within its limit. */
  predicate IsText(s: string, limit: nat) {
    Trim(s) != "" && |s| <= limit
  }

  predicate Addressed(name: string, address: string) {
    IsText(name, 100) && IsText(address, 500)
  }

  function Cleaned(prefix: string): string {
    var p := TrimRight(Trim(prefix), {'/'});
    if p == "" then "/" else p
  }

  function CleanedAll(prefixes: seq<string>): (cleaned: seq<string>)
    ensures |cleaned| == |prefixes|
    ensures forall i :: 0 <= i < |prefixes| ==> cleaned[i] == Cleaned(prefixes[i])
  {
    if prefixes == [] then [] else [Cleaned(prefixes[0])] + CleanedAll(prefixes[1..])
  }

  /** A registration's headers are not passed on to its routes. */
  predicate WellFormed(r: Record) {
    && Addressed(r.name, r.address.text)
    && Reachable(r.address) && Fit(r.settings.(headers := {}))
    && 0 < |r.prefixes| <= MAX_PREFIXES && 0 < r.ttl.UnwrapOr(DEFAULT_TTL_SECONDS) <= MAX_TTL_SECONDS
    && (forall p <- CleanedAll(r.prefixes) :: Servable(p))
    && (forall i, j :: 0 <= i < j < |r.prefixes| ==> Cleaned(r.prefixes[i]) != Cleaned(r.prefixes[j]))
  }

  // ---------- the statements, and the whole registration ----------

  predicate TakenBy(rows: Rows, name: string, prefix: string, now: int) {
    exists k <- rows :: k.prefix == prefix && k.name != name && rows[k].expires > now
  }

  predicate Conflicts(rows: Rows, reserved: set<string>, name: string, prefix: string, now: int) {
    prefix in reserved || TakenBy(rows, name, prefix, now)
  }

  /** The first prefix somebody else holds. */
  function FirstTaken(rows: Rows, reserved: set<string>, name: string, held: seq<string>, now: int)
    : Option<string>
  {
    if held == [] then None
    else if Conflicts(rows, reserved, name, held[0], now) then Some(held[0])
    else FirstTaken(rows, reserved, name, held[1..], now)
  }

  function KeysOf(name: string, address: string, held: seq<string>): set<Key> {
    set p <- held :: Key(name, address, p)
  }

  predicate Of(k: Key, name: string, address: string) {
    k.name == name && k.address == address
  }

  /** The address's rows whose prefixes are not named again. */
  function Stale(rows: Rows, name: string, address: string, held: seq<string>): set<Key> {
    set k | k in rows && Of(k, name, address) && k.prefix !in held
  }

  /** The rows after an address took exactly these prefixes. */
  function Leased(rows: Rows, name: string, address: string, held: seq<string>, row: Row): Rows {
    Partly(rows, Stale(rows, name, address, held), KeysOf(name, address, held), row)
  }

  /** The rows after some of a registration's statements: these rows deleted, those written. */
  function Partly(rows: Rows, gone: set<Key>, written: set<Key>, row: Row): Rows {
    map k | k in rows.Keys + written && (k in written || k !in gone) ::
      if k in written then row else rows[k]
  }

  function Registered(rows: Rows, reserved: set<string>, r: Record, now: int): Result<seq<string>, Error> {
    if !WellFormed(r) then Err(Bad)
    else
      match FirstTaken(rows, reserved, Trim(r.name), CleanedAll(r.prefixes), now)
      case Some(p) => Err(Taken(p))
      case None => Ok(CleanedAll(r.prefixes))
  }

  function RowFor(r: Record, now: int): Row {
    Row(r.settings.(headers := {}), now + r.ttl.UnwrapOr(DEFAULT_TTL_SECONDS))
  }

  function AfterRegister(rows: Rows, reserved: set<string>, r: Record, now: int): Rows {
    if Registered(rows, reserved, r, now).Ok?
    then Leased(rows, Trim(r.name), Trim(r.address.text), CleanedAll(r.prefixes), RowFor(r, now))
    else rows
  }

  /** The first n of these, or all. */
  function First(held: seq<string>, n: nat): seq<string> {
    if n <= |held| then held[..n] else held
  }

  /** The rows a broken registration has deleted: some of the stale ones, and all once it began to write. */
  function Deleted(rows: Rows, r: Record, gone: set<Key>, n: nat): set<Key> {
    var stale := Stale(rows, Trim(r.name), Trim(r.address.text), CleanedAll(r.prefixes));
    if n == 0 then stale * gone else stale
  }

  /** What is left when the database fails between the statements: deletes first, then n writes in order. */
  function AfterBroken(rows: Rows, reserved: set<string>, r: Record, now: int, gone: set<Key>, n: nat): Rows {
    if Registered(rows, reserved, r, now).Ok?
    then
      Partly(rows, Deleted(rows, r, gone, n),
             KeysOf(Trim(r.name), Trim(r.address.text), First(CleanedAll(r.prefixes), n)), RowFor(r, now))
    else rows
  }

  /** Whether there is a row to forget. */
  predicate Forgets(rows: Rows, name: string, address: string) {
    exists k <- rows :: Of(k, name, address)
  }

  function Deregistered(rows: Rows, name: string, address: string): Result<bool, Error> {
    if Addressed(name, address) then Ok(Forgets(rows, Trim(name), Trim(address))) else Err(Bad)
  }

  function Forgotten(rows: Rows, name: string, address: string): Rows {
    map k | k in rows && !Of(k, name, address) :: rows[k]
  }

  function AfterDeregister(rows: Rows, name: string, address: string): Rows {
    if Addressed(name, address) then Forgotten(rows, Trim(name), Trim(address)) else rows
  }

  function Purged(rows: Rows, now: int): Rows {
    map k | k in rows && rows[k].expires > now :: rows[k]
  }

  // ---------- the machine ----------

  datatype State = State(now: int, rows: Rows)

  datatype Step =
    | Tick(dt: nat)
    | Register(record: Record, reserved: set<string>)
    | BreakOff(record: Record, reserved: set<string>, gone: set<Key>, n: nat)
    | Deregister(name: string, address: string)
    | Purge

  function Apply(s: State, e: Step): State {
    match e
    case Tick(dt) => s.(now := s.now + dt)
    case Register(r, reserved) => s.(rows := AfterRegister(s.rows, reserved, r, s.now))
    case BreakOff(r, reserved, gone, n) => s.(rows := AfterBroken(s.rows, reserved, r, s.now, gone, n))
    case Deregister(name, address) => s.(rows := AfterDeregister(s.rows, name, address))
    case Purge => s.(rows := Purged(s.rows, s.now))
  }

  function After(s: State, steps: seq<Step>): State
    decreases |steps|
  {
    if steps == [] then s else After(Apply(s, steps[0]), steps[1..])
  }

  // ---------- one service per prefix ----------

  predicate Live(rows: Rows, k: Key, t: int) {
    k in rows && rows[k].expires > t
  }

  ghost predicate OneService(rows: Rows, t: int) {
    forall a, b :: Live(rows, a, t) && Live(rows, b, t) && a.prefix == b.prefix ==> a.name == b.name
  }

  lemma {:induction false} NoneTaken(rows: Rows, reserved: set<string>, name: string, held: seq<string>, now: int)
    ensures FirstTaken(rows, reserved, name, held, now).None?
       <==> forall p <- held :: !Conflicts(rows, reserved, name, p, now)
  {
    if held != [] {
      NoneTaken(rows, reserved, name, held[1..], now);
      assert held == [held[0]] + held[1..];
    }
  }

  /** However far the statements came, one service stays behind each live prefix. */
  lemma PartlyKeepsOneService(rows: Rows, reserved: set<string>, name: string, address: string,
                              held: seq<string>, gone: set<Key>, written: set<Key>, row: Row, now: int)
    requires OneService(rows, now) && forall p <- held :: !Conflicts(rows, reserved, name, p, now)
    requires written <= KeysOf(name, address, held)
    ensures OneService(Partly(rows, gone, written, row), now)
  {
    var rows' := Partly(rows, gone, written, row);
    forall a, b | Live(rows', a, now) && Live(rows', b, now) && a.prefix == b.prefix ensures a.name == b.name {
      if a !in written && b !in written {
        assert Live(rows, a, now) && Live(rows, b, now);
      } else if a !in written {
        assert Live(rows, a, now) && b.prefix in held && !TakenBy(rows, name, b.prefix, now);
      } else if b !in written {
        assert Live(rows, b, now) && a.prefix in held && !TakenBy(rows, name, a.prefix, now);
      }
    }
  }

  lemma StepKeepsOneService(s: State, e: Step)
    requires OneService(s.rows, s.now)
    ensures OneService(Apply(s, e).rows, Apply(s, e).now)
  {
    hide WellFormed, Trim, CleanedAll;
    var s' := Apply(s, e);
    match e
    case Register(r, reserved) =>
      if Registered(s.rows, reserved, r, s.now).Ok? {
        var name, address, held := Trim(r.name), Trim(r.address.text), CleanedAll(r.prefixes);
        NoneTaken(s.rows, reserved, name, held, s.now);
        PartlyKeepsOneService(s.rows, reserved, name, address, held, Stale(s.rows, name, address, held),
                              KeysOf(name, address, held), RowFor(r, s.now), s.now);
      }
    case BreakOff(r, reserved, gone, n) =>
      if Registered(s.rows, reserved, r, s.now).Ok? {
        var name, address, held := Trim(r.name), Trim(r.address.text), CleanedAll(r.prefixes);
        NoneTaken(s.rows, reserved, name, held, s.now);
        PartlyKeepsOneService(s.rows, reserved, name, address, held, Deleted(s.rows, r, gone, n),
                              KeysOf(name, address, First(held, n)), RowFor(r, s.now), s.now);
      }
    case _ =>
      forall a | Live(s'.rows, a, s'.now) ensures Live(s.rows, a, s.now) {}
  }

  /** Now and at every instant to come, the live rows of a prefix belong to one service. */
  lemma {:induction false} OneServicePerPrefix(s: State, steps: seq<Step>, t: int)
    requires OneService(s.rows, s.now) && t >= After(s, steps).now
    ensures OneService(After(s, steps).rows, t)
    decreases |steps|
  {
    if steps == [] {
      forall a | Live(s.rows, a, t) ensures Live(s.rows, a, s.now) {}
    } else {
      StepKeepsOneService(s, steps[0]);
      OneServicePerPrefix(Apply(s, steps[0]), steps[1..], t);
    }
  }

  // ---------- all of its prefixes, or none ----------

  /**
   An accepted registration leaves its address with exactly the prefixes it named,
   each for its whole time to live; a refused one changes nothing; either way
   every other address is untouched.
   */
  lemma AllOrNothing(rows: Rows, reserved: set<string>, r: Record, now: int)
    ensures var rows' := AfterRegister(rows, reserved, r, now);
      && (forall k :: !Of(k, Trim(r.name), Trim(r.address.text)) ==>
            (k in rows' <==> k in rows) && (k in rows ==> rows'[k] == rows[k]))
      && (Registered(rows, reserved, r, now).Ok? ==>
            (forall k :: Of(k, Trim(r.name), Trim(r.address.text)) ==>
               (k in rows' <==> k.prefix in Registered(rows, reserved, r, now).value))
            && (forall k :: Of(k, Trim(r.name), Trim(r.address.text)) && k in rows' ==>
                  rows'[k].settings == r.settings.(headers := {})
                  && rows'[k].expires - now == r.ttl.UnwrapOr(DEFAULT_TTL_SECONDS)))
      && (Registered(rows, reserved, r, now).Err? ==> rows' == rows)
  {
    KeysAre(Trim(r.name), Trim(r.address.text), CleanedAll(r.prefixes));
  }

  lemma KeysAre(name: string, address: string, held: seq<string>)
    ensures forall k :: k in KeysOf(name, address, held) <==> Of(k, name, address) && k.prefix in held
  {
    forall k | Of(k, name, address) ensures k in KeysOf(name, address, held) <==> k.prefix in held {
      assert k == Key(name, address, k.prefix);
    }
  }

  lemma {:induction false} SameFirstTaken(a: Rows, b: Rows, reserved: set<string>, name: string, held: seq<string>,
                                          now: int)
    requires forall p <- held :: TakenBy(a, name, p, now) <==> TakenBy(b, name, p, now)
    ensures FirstTaken(a, reserved, name, held, now) == FirstTaken(b, reserved, name, held, now)
  {
    if held != [] {
      assert held[0] in held && forall p <- held[1..] :: p in held;
      SameFirstTaken(a, b, reserved, name, held[1..], now);
    }
  }

  /** Two tables differ at most in the rows of one address, which are under these prefixes. */
  ghost predicate ButFor(a: Rows, b: Rows, name: string, address: string, contested: set<string>) {
    && (forall k :: !Of(k, name, address) ==> (k in a <==> k in b) && (k in a ==> a[k] == b[k]))
    && (forall k :: Of(k, name, address) && (k in a || k in b) ==> k.prefix in contested)
  }

  predicate ItsOwn(r: Record, name: string, address: string) {
    Trim(r.name) == name && Trim(r.address.text) == address
  }

  /** A step of somebody else who is after none of these prefixes, unless for the same service. */
  predicate Elsewhere(e: Step, name: string, address: string, contested: set<string>) {
    match e
    case Tick(_) => true
    case Purge => true
    case Deregister(n, a) => Trim(n) != name || Trim(a) != address
    case _ =>
      && !ItsOwn(e.record, name, address)
      && (Trim(e.record.name) != name ==> forall p <- CleanedAll(e.record.prefixes) :: p !in contested)
  }

  /** Others who want other prefixes are answered the same. */
  lemma SameForOthers(a: Rows, b: Rows, name: string, address: string, contested: set<string>,
                      reserved: set<string>, other: string, held: seq<string>, now: int)
    requires ButFor(a, b, name, address, contested)
    requires other != name ==> forall p <- held :: p !in contested
    ensures FirstTaken(a, reserved, other, held, now) == FirstTaken(b, reserved, other, held, now)
  {
    forall p | p in held ensures TakenBy(a, other, p, now) <==> TakenBy(b, other, p, now) {
      assert forall k: Key :: k.prefix == p && k.name != other ==> !Of(k, name, address) || (k !in a && k !in b);
    }
    SameFirstTaken(a, b, reserved, other, held, now);
  }

  lemma PartlyKeepsButFor(a: Rows, b: Rows, name: string, address: string, contested: set<string>,
                          x: set<Key>, y: set<Key>, written: set<Key>, row: Row)
    requires ButFor(a, b, name, address, contested)
    requires forall k <- written :: !Of(k, name, address)
    requires forall k :: !Of(k, name, address) ==> (k in x <==> k in y)
    ensures ButFor(Partly(a, x, written, row), Partly(b, y, written, row), name, address, contested)
  {
  }

  lemma RegisterKeepsButFor(a: State, b: State, e: Step, name: string, address: string, contested: set<string>)
    requires a.now == b.now && ButFor(a.rows, b.rows, name, address, contested)
    requires (e.Register? || e.BreakOff?) && Elsewhere(e, name, address, contested)
    ensures ButFor(Apply(a, e).rows, Apply(b, e).rows, name, address, contested) && Told(a, e) == Told(b, e)
  {
    hide WellFormed, Trim, CleanedAll, FirstTaken, RowFor, Partly, ButFor, First;
    var r := e.record;
    var other, at, held := Trim(r.name), Trim(r.address.text), CleanedAll(r.prefixes);
    SameForOthers(a.rows, b.rows, name, address, contested, e.reserved, other, held, a.now);
    StaleElsewhere(a.rows, b.rows, name, address, contested, other, at, held);
    if e.Register? {
      PartlyKeepsButFor(a.rows, b.rows, name, address, contested, Stale(a.rows, other, at, held),
                        Stale(b.rows, other, at, held), KeysOf(other, at, held), RowFor(r, a.now));
    } else {
      PartlyKeepsButFor(a.rows, b.rows, name, address, contested, Deleted(a.rows, r, e.gone, e.n),
                        Deleted(b.rows, r, e.gone, e.n), KeysOf(other, at, First(held, e.n)), RowFor(r, a.now));
    }
  }

  lemma StaleElsewhere(a: Rows, b: Rows, name: string, address: string, contested: set<string>,
                       other: string, at: string, held: seq<string>)
    requires ButFor(a, b, name, address, contested) && !(other == name && at == address)
    ensures forall k :: !Of(k, name, address) ==> (k in Stale(a, other, at, held) <==> k in Stale(b, other, at, held))
    ensures forall more, k :: k in KeysOf(other, at, more) ==> !Of(k, name, address)
  {
  }

  lemma ForgettingKeepsButFor(a: Rows, b: Rows, name: string, address: string, contested: set<string>,
                              n: string, at: string)
    requires ButFor(a, b, name, address, contested) && !(n == name && at == address)
    ensures ButFor(Forgotten(a, n, at), Forgotten(b, n, at), name, address, contested)
    ensures Forgets(a, n, at) <==> Forgets(b, n, at)
  {
    assert forall k :: Of(k, n, at) ==> !Of(k, name, address);
  }

  lemma StepKeepsButFor(a: State, b: State, e: Step, name: string, address: string, contested: set<string>)
    requires a.now == b.now && ButFor(a.rows, b.rows, name, address, contested)
    requires Elsewhere(e, name, address, contested)
    ensures Apply(a, e).now == Apply(b, e).now
    ensures ButFor(Apply(a, e).rows, Apply(b, e).rows, name, address, contested) && Told(a, e) == Told(b, e)
  {
    hide Trim, CleanedAll, ButFor, Forgets, Forgotten;
    match e
    case Register(_, _) => RegisterKeepsButFor(a, b, e, name, address, contested);
    case BreakOff(_, _, _, _) => RegisterKeepsButFor(a, b, e, name, address, contested);
    case Deregister(n, at) => ForgettingKeepsButFor(a.rows, b.rows, name, address, contested, Trim(n), Trim(at));
    case Purge => PurgingKeepsButFor(a.rows, b.rows, name, address, contested, a.now);
    case Tick(_) =>
  }

  lemma PurgingKeepsButFor(a: Rows, b: Rows, name: string, address: string, contested: set<string>, now: int)
    requires ButFor(a, b, name, address, contested)
    ensures ButFor(Purged(a, now), Purged(b, now), name, address, contested)
  {
  }

  lemma {:induction false} ButForOverRuns(a: State, b: State, steps: seq<Step>, name: string, address: string,
                                          contested: set<string>)
    requires a.now == b.now && ButFor(a.rows, b.rows, name, address, contested)
    requires forall e <- steps :: Elsewhere(e, name, address, contested)
    ensures After(a, steps).now == After(b, steps).now && Answers(a, steps) == Answers(b, steps)
    ensures ButFor(After(a, steps).rows, After(b, steps).rows, name, address, contested)
    decreases |steps|
  {
    if steps != [] {
      assert steps[0] in steps;
      hide ButFor, Elsewhere, Apply, Told;
      StepKeepsButFor(a, b, steps[0], name, address, contested);
      ButForOverRuns(Apply(a, steps[0]), Apply(b, steps[0]), steps[1..], name, address, contested);
    }
  }

  /** An address's registration is answered the same and leaves the same rows, whatever rows the address had. */
  lemma OwnIsTheSame(a: State, b: State, r: Record, reserved: set<string>, name: string, address: string,
                     contested: set<string>)
    requires a.now == b.now && ButFor(a.rows, b.rows, name, address, contested) && ItsOwn(r, name, address)
    ensures Registered(a.rows, reserved, r, a.now) == Registered(b.rows, reserved, r, b.now)
    ensures Registered(a.rows, reserved, r, a.now).Ok? ==> Apply(a, Register(r, reserved)) == Apply(b, Register(r, reserved))
  {
    hide WellFormed, Trim, CleanedAll, FirstTaken, RowFor;
    var held := CleanedAll(r.prefixes);
    SameForOthers(a.rows, b.rows, name, address, contested, reserved, name, held, a.now);
    KeysAre(name, address, held);
    var x, y := Leased(a.rows, name, address, held, RowFor(r, a.now)), Leased(b.rows, name, address, held, RowFor(r, b.now));
    assert x.Keys == y.Keys && forall k <- x :: x[k] == y[k];
    assert x == y;
  }

  /** A registration broken off deletes none of the prefixes it names, and none but its own address's. */
  lemma BrokenKeepsNamed(rows: Rows, reserved: set<string>, r: Record, now: int, gone: set<Key>, n: nat, k: Key)
    requires k in rows && (k.prefix in CleanedAll(r.prefixes) || !Of(k, Trim(r.name), Trim(r.address.text)))
    ensures k in AfterBroken(rows, reserved, r, now, gone, n)
  {
  }

  /** The prefixes an address has or asks for. */
  function Contested(rows: Rows, r: Record): set<string> {
    (set k | k in rows && Of(k, Trim(r.name), Trim(r.address.text)) :: k.prefix) + (set p | p in CleanedAll(r.prefixes))
  }

  lemma BrokenIsItsOwn(rows: Rows, reserved: set<string>, r: Record, now: int, gone: set<Key>, n: nat)
    ensures ButFor(AfterBroken(rows, reserved, r, now, gone, n), rows, Trim(r.name), Trim(r.address.text),
                   Contested(rows, r))
  {
    hide Trim, CleanedAll, Registered, RowFor;
    KeysAre(Trim(r.name), Trim(r.address.text), First(CleanedAll(r.prefixes), n));
    assert forall p <- First(CleanedAll(r.prefixes), n) :: p in CleanedAll(r.prefixes);
  }

  /**
   A registration the database broke off takes nothing from anybody. Whatever
   others do who are not after its prefixes, they are told the same; and the next
   registration of the address is answered as if the broken one had never been,
   and leaves the same table.
   */
  lemma RepeatingMakesItWhole(s: State, r: Record, reserved: set<string>, gone: set<Key>, n: nat, steps: seq<Step>,
                              again: Record, reserved': set<string>)
    requires forall e <- steps :: Elsewhere(e, Trim(r.name), Trim(r.address.text), Contested(s.rows, r))
    requires ItsOwn(again, Trim(r.name), Trim(r.address.text))
    ensures var broken, never := After(Apply(s, BreakOff(r, reserved, gone, n)), steps), After(s, steps);
      && Answers(Apply(s, BreakOff(r, reserved, gone, n)), steps) == Answers(s, steps)
      && Told(broken, Register(again, reserved')) == Told(never, Register(again, reserved'))
      && (Told(never, Register(again, reserved')).r.Ok? ==>
            Apply(broken, Register(again, reserved')) == Apply(never, Register(again, reserved')))
  {
    hide Trim, ButFor, Elsewhere, Contested, AfterBroken, Registered, AfterRegister, ItsOwn;
    var name, address, contested := Trim(r.name), Trim(r.address.text), Contested(s.rows, r);
    BrokenIsItsOwn(s.rows, reserved, r, s.now, gone, n);
    ButForOverRuns(Apply(s, BreakOff(r, reserved, gone, n)), s, steps, name, address, contested);
    OwnIsTheSame(After(Apply(s, BreakOff(r, reserved, gone, n)), steps), After(s, steps), again, reserved',
                 name, address, contested);
  }

  /** A name or an address says something and is no longer than this. */
  predicate Says(s: string, most: int) {
    HasText(s) && |s| <= most
  }

  /** Blanks off, and trailing slashes. */
  function Stripped(p: string): string {
    TrimRight(Trim(p), {'/'})
  }

  /**
   What may register: a name of a hundred characters and a web address of five
   hundred at most, one to thirty-two different prefixes the gateway may serve,
   fitting settings whatever its headers, and up to five minutes to live.
   */
  ghost predicate MayRegister(r: Record) {
    && Says(r.name, 100) && Says(r.address.text, 500)
    && MayReach(r.address) && MaySet(r.settings.(headers := {}))
    && 1 <= |r.prefixes| <= 32 && (r.ttl.Some? ==> 1 <= r.ttl.value <= 300)
    && (forall p <- r.prefixes :: MayServe(Stripped(p)))
    && (forall i, j :: 0 <= i < j < |r.prefixes| ==>
          Stripped(r.prefixes[i]) != Stripped(r.prefixes[j]))
  }

  lemma CleanedIs(p: string)
    ensures Servable(Cleaned(p)) <==> MayServe(Stripped(p))
    ensures Servable(Cleaned(p)) ==> Cleaned(p) == Stripped(p)
  {
    ServableIff(Cleaned(p));
    ServableIff(Stripped(p));
  }

  lemma SaysIff(s: string, most: nat)
    ensures IsText(s, most) <==> Says(s, most)
  {
    TrimIsEmptyIff(s);
  }

  lemma PrefixesIff(prefixes: seq<string>)
    ensures (forall p <- CleanedAll(prefixes) :: Servable(p)) <==> (forall p <- prefixes :: MayServe(Stripped(p)))
    ensures (forall p <- prefixes :: MayServe(Stripped(p))) ==>
              forall i :: 0 <= i < |prefixes| ==> Cleaned(prefixes[i]) == Stripped(prefixes[i])
  {
    var held := CleanedAll(prefixes);
    forall i | 0 <= i < |prefixes|
      ensures Servable(held[i]) <==> MayServe(Stripped(prefixes[i]))
      ensures Servable(held[i]) ==> held[i] == Stripped(prefixes[i])
    {
      CleanedIs(prefixes[i]);
    }
    hide Servable, MayServe, Stripped, Cleaned, CleanedAll;
    if forall p <- prefixes :: MayServe(Stripped(p)) {
      assert forall i :: 0 <= i < |prefixes| ==> prefixes[i] in prefixes;
    }
    if forall p <- held :: Servable(p) {
      assert forall i :: 0 <= i < |prefixes| ==> held[i] in held;
    }
  }

  lemma WellFormedIff(r: Record)
    ensures WellFormed(r) <==> MayRegister(r)
  {
    hide Says, IsText, Fit, MaySet, Servable, MayServe, Cleaned, CleanedAll, Stripped, Reachable, MayReach;
    SaysIff(r.name, 100);
    SaysIff(r.address.text, 500);
    ReachIff(r.address);
    FitIff(r.settings.(headers := {}));
    PrefixesIff(r.prefixes);
  }

  lemma ReachIff(a: Address)
    ensures Reachable(a) <==> MayReach(a)
  {
  }

  /** It is accepted exactly when it may register and nobody else holds any of its prefixes. */
  lemma AcceptedIff(rows: Rows, reserved: set<string>, r: Record, now: int)
    ensures Registered(rows, reserved, r, now).Ok?
       <==> MayRegister(r)
            && forall p <- CleanedAll(r.prefixes) ::
                 p !in reserved
                 && forall k :: Live(rows, k, now) && k.prefix == p ==> k.name == Trim(r.name)
  {
    WellFormedIff(r);
    hide WellFormed, MayRegister;
    NoneTaken(rows, reserved, Trim(r.name), CleanedAll(r.prefixes), now);
    forall p | p in CleanedAll(r.prefixes)
      ensures TakenBy(rows, Trim(r.name), p, now)
         <==> exists k :: Live(rows, k, now) && k.prefix == p && k.name != Trim(r.name)
    {
    }
  }

  // ---------- purging ----------

  ghost predicate SameLive(a: Rows, b: Rows, now: int) {
    forall k ::
      (Live(a, k, now) <==> Live(b, k, now)) && (Live(a, k, now) ==> a[k] == b[k])
  }

  /** Deregistering any address is answered the same. */
  ghost predicate SameForgets(a: Rows, b: Rows) {
    forall name, address :: Forgets(a, name, address) <==> Forgets(b, name, address)
  }

  /** What a caller is told; a tick, a purge and a registration the database broke off tell nothing. */
  datatype Answer = Silence | Registration(r: Result<seq<string>, Error>) | Deregistration(d: Result<bool, Error>)

  function Told(s: State, e: Step): Answer {
    match e
    case Register(r, reserved) => Registration(Registered(s.rows, reserved, r, s.now))
    case Deregister(name, address) => Deregistration(Deregistered(s.rows, name, address))
    case _ => Silence
  }

  /** What the callers are told over a run, step by step. */
  function Answers(s: State, steps: seq<Step>): (told: seq<Answer>)
    ensures |told| == |steps|
    decreases |steps|
  {
    if steps == [] then [] else [Told(s, steps[0])] + Answers(Apply(s, steps[0]), steps[1..])
  }

  lemma SameTaken(a: Rows, b: Rows, reserved: set<string>, name: string, held: seq<string>, now: int)
    requires SameLive(a, b, now)
    ensures FirstTaken(a, reserved, name, held, now) == FirstTaken(b, reserved, name, held, now)
  {
    forall p ensures TakenBy(a, name, p, now) <==> TakenBy(b, name, p, now) {
      SameTakenOne(a, b, name, p, now);
    }
    SameFirstTaken(a, b, reserved, name, held, now);
  }

  lemma SameTakenOne(a: Rows, b: Rows, name: string, prefix: string, now: int)
    requires SameLive(a, b, now)
    ensures TakenBy(a, name, prefix, now) <==> TakenBy(b, name, prefix, now)
  {
    if TakenBy(a, name, prefix, now) {
      var k :| k in a && k.prefix == prefix && k.name != name && a[k].expires > now;
      assert Live(a, k, now) && k in b;
    }
    if TakenBy(b, name, prefix, now) {
      var k :| k in b && k.prefix == prefix && k.name != name && b[k].expires > now;
      assert Live(b, k, now) && Live(a, k, now) && k in a;
    }
  }

  /** Purges, ticks and whole registrations and deregistrations: nothing the database broke off. */
  predicate Whole(steps: seq<Step>) {
    forall e <- steps :: !e.BreakOff?
  }

  lemma PartlyKeepsSameLive(a: Rows, b: Rows, x: set<Key>, y: set<Key>, written: set<Key>, row: Row, now: int)
    requires SameLive(a, b, now) && forall k :: Live(a, k, now) ==> (k in x <==> k in y)
    ensures SameLive(Partly(a, x, written, row), Partly(b, y, written, row), now)
  {
    var c, d := Partly(a, x, written, row), Partly(b, y, written, row);
    forall k ensures (Live(c, k, now) <==> Live(d, k, now)) && (Live(c, k, now) ==> c[k] == d[k]) {
      assert Live(a, k, now) <==> Live(b, k, now);
    }
  }

  lemma StepKeepsSameLive(a: State, b: State, e: Step)
    requires a.now == b.now && SameLive(a.rows, b.rows, a.now)
    ensures Apply(a, e).now == Apply(b, e).now && SameLive(Apply(a, e).rows, Apply(b, e).rows, Apply(a, e).now)
    ensures e.Register? ==> Told(a, e) == Told(b, e)
  {
    hide WellFormed, Trim, CleanedAll, FirstTaken, RowFor, Partly, KeysOf;
    match e
    case Register(r, reserved) =>
      var name, address, held := Trim(r.name), Trim(r.address.text), CleanedAll(r.prefixes);
      SameTaken(a.rows, b.rows, reserved, name, held, a.now);
      PartlyKeepsSameLive(a.rows, b.rows, Stale(a.rows, name, address, held), Stale(b.rows, name, address, held),
                          KeysOf(name, address, held), RowFor(r, a.now), a.now);
    case BreakOff(r, reserved, gone, n) =>
      var name, address, held := Trim(r.name), Trim(r.address.text), CleanedAll(r.prefixes);
      SameTaken(a.rows, b.rows, reserved, name, held, a.now);
      PartlyKeepsSameLive(a.rows, b.rows, Deleted(a.rows, r, gone, n), Deleted(b.rows, r, gone, n),
                          KeysOf(name, address, First(held, n)), RowFor(r, a.now), a.now);
    case Tick(dt) =>
      forall k ensures Live(a.rows, k, a.now + dt) ==> Live(a.rows, k, a.now)
               ensures Live(b.rows, k, a.now + dt) ==> Live(b.rows, k, a.now) {}
    case Deregister(_, _) =>
    case Purge =>
  }

  /** A registration leaves its address with a row, a deregistration with none, and others as they were. */
  lemma StepKeepsSameForgets(a: State, b: State, e: Step)
    requires a.now == b.now && SameLive(a.rows, b.rows, a.now) && SameForgets(a.rows, b.rows) && !e.BreakOff?
    ensures SameForgets(Apply(a, e).rows, Apply(b, e).rows) && Told(a, e) == Told(b, e)
  {
    assert e.Register? && WellFormed(e.record) ==> CleanedAll(e.record.prefixes) != [];
    hide WellFormed, Trim, CleanedAll;
    StepKeepsSameLive(a, b, e);
    match e
    case Register(r, reserved) =>
      if Told(a, e).r.Ok? {
        var name, address, held := Trim(r.name), Trim(r.address.text), CleanedAll(r.prefixes);
        ForgetsAfterLease(a.rows, name, address, held, RowFor(r, a.now));
        ForgetsAfterLease(b.rows, name, address, held, RowFor(r, b.now));
      }
    case Deregister(name, address) =>
      ForgetsAfterForgetting(a.rows, Trim(name), Trim(address));
      ForgetsAfterForgetting(b.rows, Trim(name), Trim(address));
    case Tick(_) =>
    case Purge =>
      assert Purged(a.rows, a.now) == Purged(b.rows, b.now) by {
        assert forall k :: k in Purged(a.rows, a.now) <==> Live(a.rows, k, a.now);
        assert forall k :: k in Purged(b.rows, b.now) <==> Live(b.rows, k, b.now);
      }
  }

  lemma ForgetsAfterLease(rows: Rows, name: string, address: string, held: seq<string>, row: Row)
    requires held != []
    ensures forall n, a :: Forgets(Leased(rows, name, address, held, row), n, a)
                      <==> (n == name && a == address) || Forgets(rows, n, a)
  {
    KeysAre(name, address, held);
    var rows' := Leased(rows, name, address, held, row);
    assert Key(name, address, held[0]) in rows' && Of(Key(name, address, held[0]), name, address);
    forall n, a | n != name || a != address ensures Forgets(rows', n, a) <==> Forgets(rows, n, a) {
      assert forall k :: Of(k, n, a) ==> (k in rows' <==> k in rows);
    }
  }

  lemma ForgetsAfterForgetting(rows: Rows, name: string, address: string)
    ensures forall n, a :: Forgets(Forgotten(rows, name, address), n, a)
                      <==> !(n == name && a == address) && Forgets(rows, n, a)
  {
    var rows' := Forgotten(rows, name, address);
    forall n, a | n != name || a != address ensures Forgets(rows', n, a) <==> Forgets(rows, n, a) {
      assert forall k :: Of(k, n, a) ==> (k in rows' <==> k in rows);
    }
  }

  /** Equal live rows and equal answers to deregistering are kept by every run, so all answers are equal. */
  lemma {:induction false} SameAnswersOverRuns(a: State, b: State, steps: seq<Step>)
    requires a.now == b.now && SameLive(a.rows, b.rows, a.now) && SameForgets(a.rows, b.rows) && Whole(steps)
    ensures Answers(a, steps) == Answers(b, steps)
    decreases |steps|
  {
    if steps != [] {
      assert steps[0] in steps;
      StepKeepsSameLive(a, b, steps[0]);
      StepKeepsSameForgets(a, b, steps[0]);
      SameAnswersOverRuns(Apply(a, steps[0]), Apply(b, steps[0]), steps[1..]);
    }
  }

  lemma {:induction false} SameLiveOverRuns(a: State, b: State, steps: seq<Step>)
    requires a.now == b.now && SameLive(a.rows, b.rows, a.now)
    ensures forall i | 0 <= i < |steps| && steps[i].Register? :: Answers(a, steps)[i] == Answers(b, steps)[i]
    ensures After(a, steps).now == After(b, steps).now
    ensures SameLive(After(a, steps).rows, After(b, steps).rows, After(a, steps).now)
    decreases |steps|
  {
    if steps != [] {
      StepKeepsSameLive(a, b, steps[0]);
      SameLiveOverRuns(Apply(a, steps[0]), Apply(b, steps[0]), steps[1..]);
    }
  }

  /** Whatever follows it, a purge changes no registration's answer and no live row. */
  lemma PurgeChangesNoRegistration(s: State, steps: seq<Step>)
    ensures var p := Apply(s, Purge);
      && (forall i | 0 <= i < |steps| && steps[i].Register? :: Answers(p, steps)[i] == Answers(s, steps)[i])
      && SameLive(After(p, steps).rows, After(s, steps).rows, After(s, steps).now)
  {
    SameLiveOverRuns(Apply(s, Purge), s, steps);
  }

  predicate HasLive(rows: Rows, name: string, address: string, now: int) {
    exists k <- rows :: Of(k, name, address) && rows[k].expires > now
  }

  /** Every address that has a row has a live one. */
  predicate EachLives(s: State) {
    forall k <- s.rows :: HasLive(s.rows, k.name, k.address, s.now)
  }

  /** The purge changes no answer of any run after it in which the database breaks nothing off. */
  ghost predicate UnseenUnbroken(s: State) {
    forall steps :: Whole(steps) ==> Answers(Apply(s, Purge), steps) == Answers(s, steps)
  }

  /** The purge changes no answer of any run after it. */
  ghost predicate PurgeIsUnseen(s: State) {
    forall steps :: Answers(Apply(s, Purge), steps) == Answers(s, steps)
  }

  /** Rows are stored under trimmed names and addresses. */
  predicate Stored(rows: Rows) {
    forall k <- rows :: Addressed(k.name, k.address) && Trim(k.name) == k.name && Trim(k.address) == k.address
  }

  lemma StepKeepsStored(s: State, e: Step)
    requires Stored(s.rows)
    ensures Stored(Apply(s, e).rows)
  {
    hide CleanedAll, FirstTaken, Trim;
    if e.Register? || e.BreakOff? {
      TrimIsDone(e.record.name);
      TrimIsDone(e.record.address.text);
    }
  }

  lemma {:induction false} TrimRightIsPrefix(s: string, drop: set<char>)
    ensures TrimRight(s, drop) <= s
    ensures TrimRight(s, drop) != [] ==> TrimRight(s, drop)[|TrimRight(s, drop)| - 1] !in drop
  {
    if s != [] && s[|s| - 1] in drop {
      TrimRightIsPrefix(s[..|s| - 1], drop);
    }
  }

  lemma {:induction false} TrimLeftKeepsEnd(s: string, drop: set<char>)
    ensures var t := TrimLeft(s, drop);
      && |t| <= |s| && t == s[|s| - |t|..] && (t != [] ==> t[0] !in drop)
  {
    if s != [] && s[0] in drop {
      TrimLeftKeepsEnd(s[1..], drop);
    }
  }

  /** Trimming twice is trimming once. */
  lemma TrimIsDone(s: string)
    ensures Trim(Trim(s)) == Trim(s) && |Trim(s)| <= |s|
  {
    var r := TrimRight(s, BLANKS);
    TrimRightIsPrefix(s, BLANKS);
    TrimLeftKeepsEnd(r, BLANKS);
    var t := TrimLeft(r, BLANKS);
    if t != [] {
      assert t[|t| - 1] == r[|r| - 1];
    }
    assert TrimRight(t, BLANKS) == t && TrimLeft(t, BLANKS) == t;
  }

  lemma ForgetsAfterPurge(rows: Rows, now: int, name: string, address: string)
    ensures Forgets(Purged(rows, now), name, address) <==> HasLive(rows, name, address, now)
  {
    var left := Purged(rows, now);
    if HasLive(rows, name, address, now) {
      var k :| k in rows && Of(k, name, address) && rows[k].expires > now;
      assert k in left;
    }
  }

  lemma PurgeKeepsForgets(s: State)
    requires EachLives(s)
    ensures SameForgets(Purged(s.rows, s.now), s.rows)
  {
    hide Purged, HasLive;
    forall name, address ensures Forgets(Purged(s.rows, s.now), name, address) <==> Forgets(s.rows, name, address) {
      ForgetsAfterPurge(s.rows, s.now, name, address);
      LivesIsThere(s.rows, s.now, name, address);
    }
  }

  lemma LivesIsThere(rows: Rows, now: int, name: string, address: string)
    ensures HasLive(rows, name, address, now) ==> Forgets(rows, name, address)
  {
  }

  lemma PurgeKeepsLive(s: State)
    ensures SameLive(Purged(s.rows, s.now), s.rows, s.now)
  {
  }

  lemma DeadAddressIsSeen(s: State, k: Key)
    requires Stored(s.rows) && k in s.rows && !HasLive(s.rows, k.name, k.address, s.now)
    ensures !UnseenUnbroken(s)
  {
    hide Trim, Purged, HasLive;
    var p, e := Apply(s, Purge), Deregister(k.name, k.address);
    ForgetsAfterPurge(s.rows, s.now, k.name, k.address);
    assert Of(k, k.name, k.address);
    assert Told(s, e) == Deregistration(Ok(true)) && Told(p, e) == Deregistration(Ok(false));
    assert Answers(p, [e])[0] != Answers(s, [e])[0];
    assert Whole([e]);
  }

  /**
   A purge goes unseen in every unbroken run after it exactly when every address
   that has a row has a live one: an expired row counts when its address is
   deregistered.
   */
  lemma UnseenUnbrokenIff(s: State)
    requires Stored(s.rows)
    ensures UnseenUnbroken(s) <==> EachLives(s)
  {
    if EachLives(s) {
      PurgeKeepsForgets(s);
      PurgeKeepsLive(s);
      forall steps | Whole(steps) ensures Answers(Apply(s, Purge), steps) == Answers(s, steps) {
        SameAnswersOverRuns(Apply(s, Purge), s, steps);
      }
    } else {
      var k :| k in s.rows && !HasLive(s.rows, k.name, k.address, s.now);
      DeadAddressIsSeen(s, k);
    }
  }

  /** A prefix longer than any of these. */
  lemma {:induction false} LongerThanAll(keys: set<Key>) returns (n: nat)
    ensures n > 0 && forall k <- keys :: |k.prefix| <= n
  {
    if keys == {} {
      n := 1;
    } else {
      var k :| k in keys;
      n := LongerThanAll(keys - {k});
      if |k.prefix| > n { n := |k.prefix|; }
    }
  }

  function Long(n: nat): string {
    seq(n, _ => 'x')
  }

  lemma LongIsServable(n: nat)
    requires n > 0
    ensures Servable("/" + Long(n)) && Trim("/" + Long(n)) == "/" + Long(n)
  {
    var s := "/" + Long(n);
    OneSegment(Long(n));
    FarFromOwn(s);
    NoBlanks(s);
    assert s[1] == 'x' && Long(n)[0] == 'x';
  }

  /** A registration of one new prefix is accepted. */
  lemma NewIsAccepted(rows: Rows, name: string, address: string, prefix: string, now: int)
    requires Servable(prefix) && Trim(prefix) == prefix && Trim(name) == name && Trim(address) == address
    requires Addressed(name, address) && forall k <- rows :: k.prefix != prefix
    ensures Registered(rows, {}, Single(name, address, prefix), now) == Ok([prefix])
    ensures CleanedAll(Single(name, address, prefix).prefixes) == [prefix]
  {
    var r := Single(name, address, prefix);
    assert TrimRight(prefix, {'/'}) == prefix;
    assert r.prefixes[1..] == [] && CleanedAll(r.prefixes) == [prefix];
    assert WellFormed(r);
    NoneTaken(rows, {}, name, [prefix], now);
  }

  lemma SecondAnswerTells(a: State, b: State, x: Step, y: Step)
    requires Told(Apply(a, x), y) != Told(Apply(b, x), y)
    ensures Answers(a, [x, y]) != Answers(b, [x, y])
  {
    assert [x, y][1..] == [y];
    assert Answers(a, [x, y])[1] == Told(Apply(a, x), y) && Answers(b, [x, y])[1] == Told(Apply(b, x), y);
  }

  /**
   An expired row is seen: a registration for a new prefix deletes its address's
   live rows and is broken off, and deregistering finds the expired one or nothing.
   */
  lemma ExpiredIsSeen(s: State, k: Key)
    requires Stored(s.rows) && k in s.rows && s.rows[k].expires <= s.now
    ensures !PurgeIsUnseen(s)
  {
    var n := LongerThanAll(s.rows.Keys);
    LongIsServable(n);
    assert |"/" + Long(n)| > n;
    hide Trim, Servable, Long;
    NewPrefixSees(s, k, "/" + Long(n));
  }

  lemma NewPrefixSees(s: State, k: Key, unused: string)
    requires Stored(s.rows) && k in s.rows && s.rows[k].expires <= s.now
    requires Servable(unused) && Trim(unused) == unused && forall l <- s.rows :: l.prefix != unused
    ensures !PurgeIsUnseen(s)
  {
    hide Trim, Servable, Registered, CleanedAll, AfterBroken;
    var p := Apply(s, Purge);
    var r, live := Single(k.name, k.address, unused), set l | l in p.rows && Of(l, k.name, k.address);
    NewIsAccepted(s.rows, k.name, k.address, unused, s.now);
    NewIsAccepted(p.rows, k.name, k.address, unused, s.now);
    BrokenLeaves(s.rows, k.name, k.address, unused, s.now, live);
    BrokenLeaves(p.rows, k.name, k.address, unused, s.now, live);
    hide Single;
    var a, b := Apply(s, BreakOff(r, {}, live, 0)), Apply(p, BreakOff(r, {}, live, 0));
    assert k in a.rows && Of(k, k.name, k.address) && !Forgets(b.rows, k.name, k.address);
    SecondAnswerTells(p, s, BreakOff(r, {}, live, 0), Deregister(k.name, k.address));
  }

  lemma BrokenLeaves(rows: Rows, name: string, address: string, unused: string, now: int, gone: set<Key>)
    requires Trim(name) == name && Trim(address) == address && forall k <- rows :: k.prefix != unused
    requires Registered(rows, {}, Single(name, address, unused), now) == Ok([unused])
    requires CleanedAll(Single(name, address, unused).prefixes) == [unused]
    ensures forall k :: k in AfterBroken(rows, {}, Single(name, address, unused), now, gone, 0)
                   <==> k in rows && !(k in gone && Of(k, name, address))
  {
    hide Trim, Registered, CleanedAll, RowFor;
    assert First([unused], 0) == [];
  }

  /** In every run after it, broken registrations included, a purge goes unseen exactly when no row is expired. */
  lemma PurgeIsUnseenIff(s: State)
    requires Stored(s.rows)
    ensures PurgeIsUnseen(s) <==> forall k <- s.rows :: s.rows[k].expires > s.now
  {
    if k :| k in s.rows && s.rows[k].expires <= s.now {
      ExpiredIsSeen(s, k);
    } else {
      assert Purged(s.rows, s.now) == s.rows;
      assert Apply(s, Purge) == s;
    }
  }

  lemma {:induction false} StoredOverRuns(s: State, steps: seq<Step>)
    requires Stored(s.rows)
    ensures Stored(After(s, steps).rows)
    decreases |steps|
  {
    if steps != [] {
      StepKeepsStored(s, steps[0]);
      StoredOverRuns(Apply(s, steps[0]), steps[1..]);
    }
  }

  /** So it is over every run from an empty table. */
  lemma PurgeIsUnseenOverRuns(now: int, steps: seq<Step>)
    ensures var s := After(State(now, map[]), steps);
      && (UnseenUnbroken(s) <==> EachLives(s))
      && (PurgeIsUnseen(s) <==> forall k <- s.rows :: s.rows[k].expires > s.now)
  {
    StoredOverRuns(State(now, map[]), steps);
    UnseenUnbrokenIff(After(State(now, map[]), steps));
    PurgeIsUnseenIff(After(State(now, map[]), steps));
  }

  const PLAIN := Settings([], "", None, {}, [], false)

  /** A service called a offers /x, its lease runs out, and a purge changes how its deregistration is answered. */
  lemma PurgeIsSeen() returns (s: State, steps: seq<Step>, last: Step)
    ensures s == After(State(0, map[]), steps) && Told(s, last) == Deregistration(Ok(true))
    ensures Told(Apply(s, Purge), last) == Deregistration(Ok(false))
  {
    var register, k := Register(Single("a", "h", "/x"), {}), Key("a", "h", "/x");
    steps, last := [register, Tick(30)], Deregister("a", "h");
    NoBlanks("a");
    NoBlanks("h");
    NoBlanks("/x");
    XIsServable();
    hide Trim, Servable, Registered, AfterRegister;
    Accepted(map[], "a", "h", "/x");
    var s1 := Apply(State(0, map[]), register);
    s := Apply(s1, Tick(30));
    assert steps[1..] == [Tick(30)] && steps[1..][1..] == [];
    assert After(s1, steps[1..]) == s;
    assert k in s.rows && Of(k, "a", "h") && s.rows.Keys == {k};
  }

  // ---------- the route of a row ----------

  function IdOf(name: string, prefix: string): string {
    "service:" + name + ":" + prefix
  }

  /** Some prefix one service may register has the id of some prefix the other may. */
  ghost predicate IdsMeet(a: string, b: string) {
    exists p, q :: Servable(p) && Servable(q) && IdOf(a, p) == IdOf(b, q)
  }

  lemma IdsEqual(a: string, p: string, b: string, q: string)
    ensures IdOf(a, p) == IdOf(b, q) <==> a + ":" + p == b + ":" + q
  {
    var x, y := a + ":" + p, b + ":" + q;
    assert IdOf(a, p) == "service:" + x && IdOf(b, q) == "service:" + y;
    assert IdOf(a, p)[8..] == x && IdOf(b, q)[8..] == y;
  }

  lemma SameLengthSame(a: string, p: string, b: string, q: string)
    requires a + ":" + p == b + ":" + q && |a| == |b|
    ensures a == b && p == q
  {
    var x, y := a + ":" + p, b + ":" + q;
    assert x[..|a|] == a && y[..|b|] == b;
    assert x[|a| + 1..] == p && y[|b| + 1..] == q;
  }

  /** A longer name that has an id of a shorter one continues it by a colon and a slash. */
  lemma LongerContinues(a: string, p: string, b: string, q: string)
    requires "/" <= p && a + ":" + p == b + ":" + q && |a| < |b|
    ensures a + ":/" <= b
  {
    var x, y := a + ":" + p, b + ":" + q;
    assert x[|a| + 1] == p[0] && y[|b|] == ':';
    assert x[|a| + 1] == y[|a| + 1];
    forall i | 0 <= i < |a| ensures a[i] == b[i] {
      assert x[i] == y[i];
    }
    assert x[|a|] == ':' && y[|a|] == b[|a|];
  }

  /**
   The longer name is the shorter one, a colon, and a text that makes a servable
   prefix once a colon ends it: it starts with a slash, holds no brace, no ".."
   between slashes, and is not below one of the gateway's own prefixes.
   */
  predicate Continues(a: string, b: string) {
    a + ":" <= b && Servable(b[|a| + 1..] + ":")
  }

  lemma OwnHoldNoColon()
    ensures forall own <- OWN_PREFIXES :: ':' !in own
  {
  }

  /** What a colon ends is servable exactly when any servable prefix may follow it. */
  lemma ServableAtColon(rest: string, q: string)
    requires Servable(q)
    ensures Servable(rest + ":" + q) <==> Servable(rest + ":")
  {
    hide Split;
    var head, p, tail := rest + ":", rest + ":" + q, q[1..];
    assert p == head + "/" + tail && q == "" + "/" + tail;
    SplitsAtSlash(head, tail);
    SplitsAtSlash("", tail);
    assert ".." in Split(p) <==> ".." in Split(head) by {
      assert ".." !in Split(tail);
    }
    assert p[|p| - 1] == q[|q| - 1];
    assert p[|rest|] == ':' && head[|rest|] == ':';
    assert "/" <= p <==> "/" <= head by { assert p[0] == head[0]; }
    OwnHoldNoColon();
    forall own | own in OWN_PREFIXES
      ensures p != own && head != own && !(p + "/" <= own) && !(head + "/" <= own)
      ensures own + "/" <= p <==> own + "/" <= head
    {
      ColonIsAway(own, head, p, |rest|);
    }
  }

  lemma ColonEnds(t: string, p: string, at: nat)
    requires ':' !in t && at < |p| && p[at] == ':' && t <= p
    ensures |t| <= at
  {
    assert forall i :: 0 <= i < |t| ==> t[i] == p[i] && t[i] in t;
  }

  lemma ColonIsAway(own: string, head: string, p: string, at: nat)
    requires ':' !in own && |head| == at + 1 && head <= p && head[at] == ':'
    ensures p != own && head != own && !(p + "/" <= own) && !(head + "/" <= own)
    ensures own + "/" <= p <==> own + "/" <= head
  {
    assert p[at] == ':' && (p + "/")[at] == ':' && (head + "/")[at] == ':';
    if own + "/" <= p {
      ColonEnds(own + "/", p, at);
    }
  }

  /** Two services can share a route id exactly when one's name continues the other's. */
  lemma IdsMeetIff(a: string, b: string)
    requires a != b
    ensures IdsMeet(a, b) <==> Continues(a, b) || Continues(b, a)
  {
    hide Servable, IdOf;
    if IdsMeet(a, b) {
      var p, q :| Servable(p) && Servable(q) && IdOf(a, p) == IdOf(b, q);
      IdsEqual(a, p, b, q);
      if |a| == |b| {
        SameLengthSame(a, p, b, q);
        assert false;
      } else if |a| < |b| {
        MeetingContinues(a, p, b, q);
      } else {
        MeetingContinues(b, q, a, p);
      }
    }
    if Continues(a, b) {
      var p, q := ContinuationMeets(a, b);
    }
    if Continues(b, a) {
      var p, q := ContinuationMeets(b, a);
      assert IdOf(a, q) == IdOf(b, p);
    }
  }

  lemma MeetingContinues(a: string, p: string, b: string, q: string)
    requires Servable(p) && Servable(q) && a + ":" + p == b + ":" + q && |a| < |b|
    ensures Continues(a, b)
  {
    LongerContinues(a, p, b, q);
    var rest := b[|a| + 1..];
    assert b == a + ":" + rest;
    assert p == rest + ":" + q by {
      assert (a + ":" + p)[|a| + 1..] == p;
      assert (b + ":" + q)[|a| + 1..] == rest + ":" + q;
    }
    ServableAtColon(rest, q);
  }

  lemma ContinuationMeets(a: string, b: string) returns (p: string, q: string)
    requires Continues(a, b)
    ensures Servable(p) && Servable(q) && IdOf(a, p) == IdOf(b, q)
  {
    var rest := b[|a| + 1..];
    p, q := rest + ":" + "/x", "/x";
    assert Servable("/x") by { XIsServable(); }
    ServableAtColon(rest, "/x");
    assert b == a + ":" + rest;
    assert a + ":" + p == b + ":" + q;
    IdsEqual(a, p, b, q);
  }

  lemma XIsServable()
    ensures Servable("/x")
  {
    OneSegment("x");
    assert "/x" == "/" + "x";
    FarFromOwn("/x");
  }

  /** The gateway's own prefixes all begin with an a or a k. */
  lemma FarFromOwn(prefix: string)
    requires |prefix| >= 2 && prefix[1] != 'a' && prefix[1] != 'k'
    ensures forall own <- OWN_PREFIXES :: prefix != own && !(own + "/" <= prefix) && !(prefix + "/" <= own)
  {
    forall own | own in OWN_PREFIXES
      ensures prefix != own && !(own + "/" <= prefix) && !(prefix + "/" <= own)
    {
      assert |own| > 1 && own[1] != prefix[1];
      assert (own + "/")[1] == own[1] && (prefix + "/")[1] == prefix[1];
    }
  }

  /** A one-prefix registration is accepted where nobody holds the prefix and the address has no row. */
  lemma Accepted(rows: Rows, name: string, address: string, prefix: string)
    requires Servable(prefix) && Trim(prefix) == prefix && Trim(name) == name && Trim(address) == address
    requires 0 < |name| <= 100 && 0 < |address| <= 500
    requires forall k <- rows :: k.prefix != prefix && !Of(k, name, address)
    ensures var r := Single(name, address, prefix);
      && Registered(rows, {}, r, 0) == Ok([prefix])
      && AfterRegister(rows, {}, r, 0) == rows[Key(name, address, prefix) := Row(PLAIN, 30)]
  {
    var r := Single(name, address, prefix);
    assert TrimRight(prefix, {'/'}) == prefix;
    assert CleanedAll(r.prefixes) == [prefix] by {
      assert r.prefixes[1..] == [];
    }
    assert WellFormed(r);
    NoneTaken(rows, {}, name, [prefix], 0);
    assert KeysOf(name, address, [prefix]) == {Key(name, address, prefix)};
    assert Stale(rows, name, address, [prefix]) == {};
  }

  function Single(name: string, address: string, prefix: string): Record {
    Record(name, Address(address, "http", "h", false), [prefix], PLAIN, None)
  }

  /** Two services are accepted, one as a with /b:/c and one as a:/b with /c, and share a route id. */
  lemma TwoShareAnId() returns (first: Record, second: Record)
    ensures Registered(map[], {}, first, 0) == Ok(["/b:/c"])
    ensures Registered(AfterRegister(map[], {}, first, 0), {}, second, 0) == Ok(["/c"])
    ensures Trim(first.name) != Trim(second.name)
    ensures IdOf(Trim(first.name), "/b:/c") == IdOf(Trim(second.name), "/c")
  {
    NoBlanks("a");
    NoBlanks("a:/b");
    NoBlanks("h");
    NoBlanks("/b:/c");
    NoBlanks("/c");
    ColonIsServable();
    IdsAgree();
    hide Trim, Servable, Registered, AfterRegister, IdOf;
    first, second := Single("a", "h", "/b:/c"), Single("a:/b", "h", "/c");
    var k := Key("a", "h", "/b:/c");
    Accepted(map[], k.name, k.address, k.prefix);
    var rows := map[k := Row(PLAIN, 30)];
    assert k.prefix != "/c" && !Of(k, "a:/b", "h");
    Accepted(rows, "a:/b", "h", "/c");
  }

  lemma IdsAgree()
    ensures IdOf("a", "/b:/c") == IdOf("a:/b", "/c")
  {
    assert "a" + ":" + "/b:/c" == "a:/b" + ":" + "/c";
    IdsEqual("a", "/b:/c", "a:/b", "/c");
  }

  lemma NoBlanks(s: string)
    requires s != [] && s[0] !in BLANKS && s[|s| - 1] !in BLANKS
    ensures Trim(s) == s
  {
  }

  lemma ColonIsServable()
    ensures Servable("/c") && Servable("/b:/c")
  {
    hide Split;
    OneSegment("c");
    OneSegment("b:");
    assert "/c" == "/" + "c" && "/b:" == "/" + "b:" && "/b:/c" == "/b:" + "/" + "c";
    SplitsAtSlash("", "c");
    SplitsAtSlash("/b:", "c");
    assert ".." !in Split("c") && ".." !in Split("/b:");
    FarFromOwn("/c");
    FarFromOwn("/b:/c");
  }

  lemma OneSegment(s: string)
    requires '/' !in s
    ensures Split("/" + s) == ["", s] && Split(s) == [s]
  {
    assert "/" + s == "" + "/" + s;
    SplitsAtSlash("", s);
    assert Split("") == [""] && Split(s) == [s];
  }

  lemma ContinuationHasSlash(a: string, b: string)
    requires a + ":/" <= b
    ensures '/' in b
  {
    assert b[|a| + 1] == '/';
  }

  /** Names without a slash: an id names one service and one prefix. */
  lemma IdIsInjective(a: string, p: string, b: string, q: string)
    requires "/" <= p && "/" <= q && '/' !in a && '/' !in b && IdOf(a, p) == IdOf(b, q)
    ensures a == b && p == q
  {
    IdsEqual(a, p, b, q);
    if |a| == |b| {
      SameLengthSame(a, p, b, q);
    } else if |a| < |b| {
      LongerContinues(a, p, b, q);
      ContinuationHasSlash(a, b);
      assert false;
    } else {
      LongerContinues(b, q, a, p);
      ContinuationHasSlash(b, a);
      assert false;
    }
  }

  // ---------- reading the live rows as routes ----------

  /** The rows a query answers: each live key once, in some order. */
  ghost predicate Reads(rows: Rows, now: int, read: seq<Key>) {
    && (forall k :: k in read <==> Live(rows, k, now))
    && (forall i, j :: 0 <= i < j < |read| ==> read[i] != read[j])
  }

  /** The rows read but those whose settings no longer parse. */
  function Parsing(read: seq<Key>, bad: set<Key>): (good: seq<Key>)
    ensures forall k :: k in good <==> k in read && k !in bad
  {
    if read == [] then []
    else
      var front, k := read[..|read| - 1], read[|read| - 1];
      Parsing(front, bad) + if k in bad then [] else [k]
  }

  /** The addresses of one service's prefix as its route has them, in the order read. */
  function AddressesOf(read: seq<Key>, name: string, prefix: string): seq<string> {
    if read == [] then []
    else
      var front, k := read[..|read| - 1], read[|read| - 1];
      AddressesOf(front, name, prefix)
      + if k.name == name && k.prefix == prefix then [TrimRight(k.address, {'/'})] else []
  }

  /** No two services share a route id among these rows. */
  predicate IdsApart(read: seq<Key>) {
    forall a <- read, b <- read ::
      IdOf(a.name, a.prefix) == IdOf(b.name, b.prefix) ==> a.name == b.name && a.prefix == b.prefix
  }

  /** The routes are the rows read, grouped by service and prefix. */
  predicate Grouped(read: seq<Key>, byRoute: map<string, Route>) {
    && (forall id <- byRoute :: exists k <- read :: id == IdOf(k.name, k.prefix))
    && (forall k <- read :: Placed(read, byRoute, k))
  }

  /** The row stands in the route of its service and prefix, beside all the others of it. */
  predicate Placed(read: seq<Key>, byRoute: map<string, Route>, k: Key) {
    var id := IdOf(k.name, k.prefix);
    && id in byRoute && byRoute[id].id == id && byRoute[id].prefix == k.prefix
    && byRoute[id].group == k.name && byRoute[id].upstreams == AddressesOf(read, k.name, k.prefix)
  }

  lemma {:induction false} AddressesAre(read: seq<Key>, name: string, prefix: string)
    ensures forall a :: a in AddressesOf(read, name, prefix)
                   <==> exists k <- read :: k.name == name && k.prefix == prefix && a == TrimRight(k.address, {'/'})
  {
    if read != [] {
      var front, last := read[..|read| - 1], read[|read| - 1];
      AddressesAre(front, name, prefix);
      assert read == front + [last];
      assert forall k :: k in read <==> k in front || k == last;
    }
  }

  /** Grouping is exact: a route's addresses are the live, parsing ones of its service and prefix; each route has one. */
  lemma GroupedIsExact(rows: Rows, now: int, read: seq<Key>, bad: set<Key>, byRoute: map<string, Route>, id: string)
    requires Reads(rows, now, read) && Grouped(Parsing(read, bad), byRoute) && id in byRoute
    ensures byRoute[id].upstreams != []
    ensures forall a :: a in byRoute[id].upstreams
                   <==> exists k :: Live(rows, k, now) && k !in bad && k.name == byRoute[id].group
                                    && k.prefix == byRoute[id].prefix && a == TrimRight(k.address, {'/'})
  {
    var good := Parsing(read, bad);
    var k :| k in good && id == IdOf(k.name, k.prefix);
    AddressesAre(good, k.name, k.prefix);
    assert TrimRight(k.address, {'/'}) in byRoute[id].upstreams;
    assert forall k :: k in read <==> Live(rows, k, now);
  }

  function RouteOf(k: Key, strip: bool): Route {
    Route(IdOf(k.name, k.prefix), k.prefix, [TrimRight(k.address, {'/'})], strip, k.name)
  }

  /** One more row: its address joins the route of its id, or begins it. */
  function Folding(byRoute: map<string, Route>, route: Route): map<string, Route> {
    byRoute[route.id :=
      if route.id in byRoute
      then byRoute[route.id].(upstreams := byRoute[route.id].upstreams + route.upstreams)
      else route]
  }

  /** The rows read, folded in order into routes by id. */
  function Folded(rows: Rows, read: seq<Key>): map<string, Route>
    requires forall k <- read :: k in rows
  {
    if read == [] then map[]
    else
      var front, k := read[..|read| - 1], read[|read| - 1];
      Folding(Folded(rows, front), RouteOf(k, rows[k].settings.strip))
  }

  /** A route strips exactly when the first row read of it says so. */
  lemma {:induction false} StripIsTheFirsts(rows: Rows, read: seq<Key>, n: nat)
    requires (forall k <- read :: k in rows) && n < |read|
    requires forall j :: 0 <= j < n ==> IdOf(read[j].name, read[j].prefix) != IdOf(read[n].name, read[n].prefix)
    ensures var id := IdOf(read[n].name, read[n].prefix);
      id in Folded(rows, read) && Folded(rows, read)[id].strip == rows[read[n]].settings.strip
    decreases |read|
  {
    hide IdOf, TrimRight;
    var front := read[..|read| - 1];
    if n < |front| {
      StripIsTheFirsts(rows, front, n);
    } else {
      FoldedHasRead(rows, front, IdOf(read[n].name, read[n].prefix));
    }
  }

  lemma {:induction false} FoldedHasRead(rows: Rows, read: seq<Key>, id: string)
    requires forall k <- read :: k in rows
    ensures id in Folded(rows, read) ==> exists j :: 0 <= j < |read| && IdOf(read[j].name, read[j].prefix) == id
    decreases |read|
  {
    hide IdOf, TrimRight;
    if read != [] {
      FoldedHasRead(rows, read[..|read| - 1], id);
    }
  }

  /** Services whose names hold no slash are always told apart. */
  lemma SlashFreeNamesAreApart(read: seq<Key>)
    requires forall k <- read :: '/' !in k.name && "/" <= k.prefix
    ensures IdsApart(read)
  {
    hide IdOf;
    forall a, b | a in read && b in read && IdOf(a.name, a.prefix) == IdOf(b.name, b.prefix)
      ensures a.name == b.name && a.prefix == b.prefix
    {
      IdIsInjective(a.name, a.prefix, b.name, b.prefix);
    }
  }

  /** The fold groups the rows by service and prefix exactly when no two services share an id. */
  lemma FoldGroupsIff(rows: Rows, read: seq<Key>)
    requires forall k <- read :: k in rows
    ensures Grouped(read, Folded(rows, read)) <==> IdsApart(read)
  {
    hide IdOf, Folded, AddressesOf;
    if IdsApart(read) {
      FoldGroups(rows, read);
    }
    if Grouped(read, Folded(rows, read)) {
      var byRoute := Folded(rows, read);
      forall a, b | a in read && b in read && IdOf(a.name, a.prefix) == IdOf(b.name, b.prefix)
        ensures a.name == b.name && a.prefix == b.prefix
      {
        assert Placed(read, byRoute, a) && Placed(read, byRoute, b);
      }
    }
  }

  lemma {:induction false} FoldGroups(rows: Rows, read: seq<Key>)
    requires (forall k <- read :: k in rows) && IdsApart(read)
    ensures Grouped(read, Folded(rows, read))
  {
    hide IdOf, AddressesOf;
    if read != [] {
      var n := |read| - 1;
      assert forall k <- read[..n] :: k in read;
      FoldGroups(rows, read[..n]);
      assert read[..n + 1] == read;
      OneMoreRow(read, n, Folded(rows, read[..n]), Folded(rows, read), rows[read[n]].settings.strip);
    }
  }

  /** Folding one more row into its route keeps the routes grouped. */
  lemma OneMoreRow(read: seq<Key>, i: nat, before: map<string, Route>, after: map<string, Route>, strip: bool)
    requires i < |read| && IdsApart(read) && Grouped(read[..i], before)
    requires after == Folding(before, RouteOf(read[i], strip))
    ensures Grouped(read[..i + 1], after)
  {
    hide IdOf, AddressesOf, TrimRight;
    var k, front, all := read[i], read[..i], read[..i + 1];
    var id := IdOf(k.name, k.prefix);
    assert all == front + [k];
    assert k in read && forall x <- front :: x in read;
    forall x | x in all ensures Placed(all, after, x) {
      AddressesGrow(front, k, x.name, x.prefix);
      if x != k {
        assert Placed(front, before, x);
      } else if id in before {
        var y :| y in front && id == IdOf(y.name, y.prefix);
        assert Placed(front, before, y);
      } else {
        forall y | y in front ensures y.name != k.name || y.prefix != k.prefix {
          assert Placed(front, before, y);
        }
        NoAddresses(front, k.name, k.prefix);
      }
    }
    forall other | other in after ensures exists x <- all :: other == IdOf(x.name, x.prefix) {
      if other == id {
        assert k in all;
      } else {
        var x :| x in front && other == IdOf(x.name, x.prefix);
        assert x in all;
      }
    }
  }

  lemma AddressesGrow(front: seq<Key>, k: Key, name: string, prefix: string)
    ensures AddressesOf(front + [k], name, prefix)
         == AddressesOf(front, name, prefix)
            + if k.name == name && k.prefix == prefix then [TrimRight(k.address, {'/'})] else []
  {
    assert (front + [k])[..|front|] == front;
  }

  lemma {:induction false} NoAddresses(read: seq<Key>, name: string, prefix: string)
    requires forall x <- read :: x.name != name || x.prefix != prefix
    ensures AddressesOf(read, name, prefix) == []
  {
    if read != [] {
      NoAddresses(read[..|read| - 1], name, prefix);
    }
  }

  /** The two services that share an id: one route answers for both, with both addresses under the first's prefix. */
  lemma OneRouteForTwo(rows: Rows, k: Key, l: Key)
    requires k in rows && l in rows && IdOf(k.name, k.prefix) == IdOf(l.name, l.prefix)
    ensures var routes := Folded(rows, [k, l]);
      && routes.Keys == {IdOf(k.name, k.prefix)}
      && routes[IdOf(k.name, k.prefix)].prefix == k.prefix
      && routes[IdOf(k.name, k.prefix)].upstreams == [TrimRight(k.address, {'/'}), TrimRight(l.address, {'/'})]
  {
    hide IdOf, TrimRight;
    assert [k, l][..1] == [k] && [k][..0] == [];
    assert Folded(rows, [k]) == map[IdOf(k.name, k.prefix) := RouteOf(k, rows[k].settings.strip)];
  }

  // ---------- the object ----------

  lemma NothingParsed(rows: Rows, bad: set<Key>)
    ensures Parsing([], bad) == [] && Folded(rows, []) == map[]
  {
  }

  lemma ReadAreThere(rows: Rows, now: int, read: seq<Key>)
    requires Reads(rows, now, read)
    ensures forall k <- read :: k in rows
  {
    assert forall k <- read :: Live(rows, k, now);
  }

  lemma ParsingOneMore(read: seq<Key>, bad: set<Key>, i: nat)
    requires i < |read|
    ensures Parsing(read[..i + 1], bad)
         == if read[i] in bad then Parsing(read[..i], bad) else Parsing(read[..i], bad) + [read[i]]
  {
    assert read[..i + 1][..i] == read[..i];
  }

  lemma FoldedOneMore(rows: Rows, good: seq<Key>, k: Key)
    requires k in rows && forall l <- good :: l in rows
    ensures Folded(rows, good + [k]) == Folding(Folded(rows, good), RouteOf(k, rows[k].settings.strip))
  {
    assert (good + [k])[..|good|] == good;
  }

  lemma NothingYet(rows: Rows, row: Row)
    ensures Partly(rows, {}, {}, row) == rows
  {
  }

  lemma OneGone(rows: Rows, gone: set<Key>, k: Key, row: Row)
    ensures Partly(rows, gone, {}, row) - {k} == Partly(rows, gone + {k}, {}, row)
  {
  }

  lemma NoKeys(name: string, address: string)
    ensures KeysOf(name, address, []) == {}
  {
  }

  lemma OneMoreKey(name: string, address: string, held: seq<string>, i: nat)
    requires i < |held|
    ensures KeysOf(name, address, held[..i + 1]) == KeysOf(name, address, held[..i]) + {Key(name, address, held[i])}
  {
    assert held[..i + 1] == held[..i] + [held[i]];
  }

  lemma OneWritten(rows: Rows, gone: set<Key>, written: set<Key>, k: Key, row: Row)
    ensures Partly(rows, gone, written, row)[k := row] == Partly(rows, gone, written + {k}, row)
  {
  }

  class Registry {
    var rows: Rows
    var copy: map<string, Route>
    var readAt: Option<int>

    constructor ()
      ensures rows == map[] && copy == map[] && readAt.None?
    {
      rows, copy, readAt := map[], map[], None;
    }

    method Check(reserved: set<string>, name: string, held: seq<string>, now: int) returns (taken: Option<string>)
      ensures taken == FirstTaken(rows, reserved, name, held, now)
    {
      var i := 0;
      while i < |held|
        invariant 0 <= i <= |held|
        invariant FirstTaken(rows, reserved, name, held, now) == FirstTaken(rows, reserved, name, held[i..], now)
      {
        assert held[i..][1..] == held[i + 1..];
        if held[i] in reserved || TakenBy(rows, name, held[i], now) {
          return Some(held[i]);
        }
        i := i + 1;
      }
      taken := None;
    }

    /** Deletes the address's other prefixes one by one, then writes those it named. */
    method Write(name: string, address: string, held: seq<string>, row: Row)
      modifies this`rows
      ensures rows == Leased(old(rows), name, address, held, row)
    {
      hide Partly, KeysOf;
      var stale := set k | k in rows && Of(k, name, address) && k.prefix !in held;
      ghost var before, all := rows, Stale(rows, name, address, held);
      NothingYet(rows, row);
      assert all - stale == {};
      while stale != {}
        invariant stale <= all && rows == Partly(before, all - stale, {}, row)
        decreases |stale|
      {
        var k :| k in stale;
        OneGone(before, all - stale, k, row);
        assert all - (stale - {k}) == (all - stale) + {k};
        rows := rows - {k};
        stale := stale - {k};
      }
      assert all - stale == all && held[..0] == [];
      NoKeys(name, address);
      var i := 0;
      while i < |held|
        invariant 0 <= i <= |held|
        invariant rows == Partly(before, all, KeysOf(name, address, held[..i]), row)
      {
        OneWritten(before, all, KeysOf(name, address, held[..i]), Key(name, address, held[i]), row);
        OneMoreKey(name, address, held, i);
        rows := rows[Key(name, address, held[i]) := row];
        i := i + 1;
      }
      assert held[..i] == held;
    }

    method Register(r: Record, reserved: set<string>, now: int) returns (answer: Result<seq<string>, Error>)
      modifies this
      ensures answer == Registered(old(rows), reserved, r, now)
      ensures rows == AfterRegister(old(rows), reserved, r, now)
      ensures if answer.Ok? then readAt.None? else readAt == old(readAt)
      ensures copy == old(copy)
    {
      hide WellFormed, Trim, CleanedAll, FirstTaken, Leased;
      if !WellFormed(r) {
        return Err(Bad);
      }
      var name, address, held := Trim(r.name), Trim(r.address.text), CleanedAll(r.prefixes);
      var taken := Check(reserved, name, held, now);
      if taken.Some? {
        return Err(Taken(taken.value));
      }
      Write(name, address, held, Row(r.settings.(headers := {}), now + r.ttl.UnwrapOr(DEFAULT_TTL_SECONDS)));
      readAt := None;
      answer := Ok(held);
    }

    method Deregister(name: string, address: string) returns (answer: Result<bool, Error>)
      modifies this
      ensures answer.Err? <==> !Says(name, 100) || !Says(address, 500)
      ensures answer.Err? ==> answer == Err(Bad) && rows == old(rows)
      ensures answer.Ok? ==>
        && (answer.value <==> exists k <- old(rows) :: Of(k, Trim(name), Trim(address)))
        && (forall k :: k in rows <==> k in old(rows) && !Of(k, Trim(name), Trim(address)))
        && (forall k <- rows :: rows[k] == old(rows)[k])
      ensures answer == Deregistered(old(rows), name, address)
      ensures rows == AfterDeregister(old(rows), name, address) && copy == old(copy)
      ensures if answer.Ok? then readAt.None? else readAt == old(readAt)
    {
      SaysIff(name, 100);
      SaysIff(address, 500);
      hide Says, IsText;
      if !Addressed(name, address) {
        return Err(Bad);
      }
      var removed := exists k <- rows :: Of(k, Trim(name), Trim(address));
      rows := map k | k in rows && !Of(k, Trim(name), Trim(address)) :: rows[k];
      readAt := None;
      answer := Ok(removed);
    }

    /**
     The routes of the live services. `read` is what the query answers, or None
     when it fails, `bad` are the rows whose settings no longer parse, and the clock
     of the copy is `ticks`: a copy younger than the refresh is answered as it is,
     and so is any copy when the query fails.
     */
    method Routes(now: int, ticks: int, read: Option<seq<Key>>, bad: set<Key>) returns (routes: map<string, Route>)
      requires read.Some? ==> Reads(rows, now, read.value)
      modifies this`copy, this`readAt
      ensures routes == copy
      ensures if read.None? || (old(readAt).Some? && ticks - old(readAt).value < 2)
              then copy == old(copy) && readAt == old(readAt)
              else
                var good := Parsing(read.value, bad);
                && readAt == Some(ticks) && routes == Folded(rows, good)
                && (Grouped(good, routes) <==> IdsApart(good))
    {
      hide IdOf, IdsApart, Grouped, AddressesOf, TrimRight, Parsing, Folded, Reads;
      NothingParsed(rows, bad);
      if read.Some? { ReadAreThere(rows, now, read.value); }
      if readAt.Some? && ticks - readAt.value < REFRESH_SECONDS {
        return copy;
      }
      if read.None? {
        return copy;
      }
      var byRoute: map<string, Route> := map[];
      var i := 0;
      assert read.value[..0] == [];
      while i < |read.value|
        invariant 0 <= i <= |read.value|
        invariant (forall k <- read.value :: k in rows) && byRoute == Folded(rows, Parsing(read.value[..i], bad))
      {
        var k := read.value[i];
        ParsingOneMore(read.value, bad, i);
        if k !in bad {
          var route := RouteOf(k, rows[k].settings.strip);
          FoldedOneMore(rows, Parsing(read.value[..i], bad), k);
          if route.id in byRoute {
            var known := byRoute[route.id];
            byRoute := byRoute[route.id := known.(upstreams := known.upstreams + route.upstreams)];
          } else {
            byRoute := byRoute[route.id := route];
          }
        }
        i := i + 1;
      }
      assert read.value[..i] == read.value;
      FoldGroupsIff(rows, Parsing(read.value, bad));
      copy, readAt := byRoute, Some(ticks);
      routes := copy;
    }
  }
}
