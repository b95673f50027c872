/**
 Signed-in sessions: the rows of auth_session, the tokens issued against them,
 and the two doors a session is renewed through. Instants are ticks of the clock, whose
 datetimes count microseconds.
 */
module Sessions {
  import opened Wrappers

  type Sid = string

  /**
   The windows a deployment runs with, how long the token may lag behind the first
   clock reading of its request, and how far local time is ahead of UTC.
   */
  datatype Policy = Policy(lifetime: int, renewal: int, remember: int, keep: int, lag: int, zone: int)

  const SECOND := 1_000_000
  const HOUR := 60 * 60 * SECOND
  const DEFAULT_POLICY := Policy(HOUR, 24 * HOUR, 30 * 24 * HOUR, 7 * 24 * HOUR, 0, 0)

  /** A lifetime is some minutes, a zone whole seconds. */
  predicate Sensible(p: Policy) {
    && p.lifetime > 0 && p.renewal > 0 && p.remember > 0 && p.keep >= 0 && p.lag >= 0
    && p.lifetime % SECOND == 0 && p.lifetime >= 60 * SECOND && p.zone % SECOND == 0
  }

  /** A claim of a token keeps whole seconds. */
  function Floor(t: int): (f: int)
    ensures f <= t < f + SECOND && f % SECOND == 0
    ensures t % SECOND == 0 ==> f == t
  {
    t / SECOND * SECOND
  }

  /** The mark of a beginning: the UTC instant is taken for local time, and the mark is read as UTC. */
  function Mark(p: Policy, began: int): int {
    Floor(began - p.zone)
  }

  datatype Row = Row(user: int, remember: bool, expiresAt: int, revoked: bool, digest: Option<string>)

  type Rows = map<Sid, Row>

  datatype Account = Account(id: int, active: bool)

  datatype Token = Token(sid: Sid, name: string, exp: int, start: Option<int>, remember: bool)

  // ---------- the rules, and the statements ----------

  /** A session with no recorded beginning is not renewable. */
  predicate IsRenewable(p: Policy, start: Option<int>, now: int, remember: bool) {
    start.Some? && now - start.value <= (if remember then p.remember else p.renewal)
  }

  function Window(p: Policy, remember: bool): int {
    if remember then p.remember else p.lifetime
  }

  function Opened(rows: Rows, sid: Sid, user: int, remember: bool, digest: Option<string>, end: int): Rows {
    rows[sid := Row(user, remember, end, false, digest)]
  }

  /** UPDATE ... SET expires_at WHERE sid = :sid AND revoked_at IS NULL */
  function Extended(rows: Rows, sid: Sid, end: int): Rows {
    if sid in rows && !rows[sid].revoked then rows[sid := rows[sid].(expiresAt := end)] else rows
  }

  function Revoked(rows: Rows, sid: Sid): Rows {
    if sid in rows then rows[sid := rows[sid].(revoked := true)] else rows
  }

  function AllRevoked(rows: Rows, user: int): Rows {
    map sid | sid in rows :: if rows[sid].user == user then rows[sid].(revoked := true) else rows[sid]
  }

  /** DELETE ... WHERE expires_at < :cutoff */
  function Purged(rows: Rows, cutoff: int): Rows {
    map sid | sid in rows && rows[sid].expiresAt >= cutoff :: rows[sid]
  }

  /** The account of a live session, or None when it is revoked or unknown. */
  function SessionOwner(rows: Rows, sid: Sid): Option<int> {
    if sid in rows && !rows[sid].revoked then Some(rows[sid].user) else None
  }

  /** The row this renewal credential names may be renewed through it. */
  predicate CredentialHolds(rows: Rows, sid: Sid, digest: string, now: int) {
    && sid in rows && rows[sid].digest == Some(digest)
    && !rows[sid].revoked && rows[sid].remember && rows[sid].expiresAt > now
  }

  // ---------- the machine ----------

  /** A renewal whose checks passed at `at` and whose token is not minted yet. */
  datatype Grant = Grant(sid: Sid, name: string, start: Option<int>, remember: bool, at: int)

  /**
   `seen` are tokens some request presented while they were good; `began`,
   `asked`, `digests`, `renewed` and `ended` record each session's login, checkbox,
   renewal digest, last token and revocation.
   */
  datatype State = State(now: int, rows: Rows, accounts: map<string, Account>,
                         issued: set<Token>, seen: set<Token>, grants: set<Grant>,
                         began: map<Sid, int>, asked: map<Sid, bool>, digests: map<Sid, Option<string>>,
                         renewed: map<Sid, int>, ended: set<Sid>)

  datatype Step =
    | Tick(dt: nat)
    | SetAccounts(accounts: map<string, Account>)
    | SignIn(sid: Sid, name: string, remember: bool, digest: Option<string>, wrote: int)
    | Present(token: Token)
    | CheckToken(token: Token)
    | CheckCredential(sid: Sid, name: string, secret: string)
    | Mint(grant: Grant, wrote: int)
    | Revoke(sid: Sid)
    | RevokeAll(user: int)
    | Purge

  predicate Accepts(s: State, t: Token) {
    && t in s.issued && s.now < t.exp
    && t.name in s.accounts && s.accounts[t.name].active
    && SessionOwner(s.rows, t.sid) == Some(s.accounts[t.name].id)
  }

  predicate Enabled(p: Policy, s: State, e: Step) {
    match e
    case Tick(_) => true
    case SetAccounts(_) => true
    case SignIn(sid, name, remember, digest, wrote) =>
      sid !in s.began && name in s.accounts && (digest.Some? ==> remember) && s.now - p.lag <= wrote <= s.now
    case Present(t) => Accepts(s, t)
    case CheckToken(t) => t in s.seen && IsRenewable(p, t.start, s.now, t.remember)
    case CheckCredential(sid, name, digest) =>
      && CredentialHolds(s.rows, sid, digest, s.now)
      && name in s.accounts && s.accounts[name] == Account(s.rows[sid].user, true)
    case Mint(g, wrote) => g in s.grants && g.at <= wrote <= s.now <= g.at + p.lag
    case Revoke(_) => true
    case RevokeAll(_) => true
    case Purge => true
  }

  /** issue_session_token after its check: the row's end moves, and a token is minted. */
  function Minted(p: Policy, now: int, g: Grant): Token {
    Token(g.sid, g.name, Floor(now + p.lifetime), Some(Mark(p, g.start.UnwrapOr(now))), g.remember)
  }

  function Apply(p: Policy, s: State, e: Step): State
    requires Enabled(p, s, e)
  {
    match e
    case Tick(dt) => s.(now := s.now + dt)
    case SetAccounts(accounts) => s.(accounts := accounts)
    case SignIn(sid, name, remember, digest, wrote) =>
      s.(rows := Opened(s.rows, sid, s.accounts[name].id, remember, digest, wrote + Window(p, remember)),
         issued := s.issued + {Token(sid, name, Floor(s.now + p.lifetime), Some(Mark(p, s.now)), remember)},
         began := s.began[sid := s.now], asked := s.asked[sid := remember],
         digests := s.digests[sid := digest],
         renewed := s.renewed[sid := s.now])
    case Present(t) => s.(seen := s.seen + {t})
    case CheckToken(t) =>
      s.(grants := s.grants + {Grant(t.sid, t.name, if t.remember then None else t.start, t.remember, s.now)})
    case CheckCredential(sid, name, _) =>
      s.(grants := s.grants + {Grant(sid, name, None, true, s.now)})
    case Mint(g, wrote) =>
      s.(rows := Extended(s.rows, g.sid, wrote + Window(p, g.remember)),
         issued := s.issued + {Minted(p, s.now, g)}, grants := s.grants - {g},
         renewed := s.renewed[g.sid := s.now])
    case Revoke(sid) =>
      s.(rows := Revoked(s.rows, sid), ended := if sid in s.rows then s.ended + {sid} else s.ended)
    case RevokeAll(user) =>
      s.(rows := AllRevoked(s.rows, user),
         ended := s.ended + set sid | sid in s.rows && s.rows[sid].user == user)
    case Purge => s.(rows := Purged(s.rows, s.now - p.keep))
  }

  predicate Legal(p: Policy, s: State, steps: seq<Step>)
    decreases |steps|
  {
    steps == [] || (Enabled(p, s, steps[0]) && Legal(p, Apply(p, s, steps[0]), steps[1..]))
  }

  function After(p: Policy, s: State, steps: seq<Step>): State
    requires Legal(p, s, steps)
    decreases |steps|
  {
    if steps == [] then s else After(p, Apply(p, s, steps[0]), steps[1..])
  }

  predicate Init(s: State) {
    && s.rows == map[] && s.issued == {} && s.seen == {} && s.grants == {}
    && s.began == map[] && s.asked == map[] && s.digests == map[] && s.renewed == map[] && s.ended == {}
  }

  // ---------- the invariant ----------

  /** No token of a session without "remember" outlives this. */
  predicate UnderItsCeiling(p: Policy, s: State, t: Token) {
    t.sid in s.began && t.sid in s.asked
    && (!s.asked[t.sid] ==> t.exp <= s.began[t.sid] + p.renewal + p.lag + p.lifetime)
  }

  /** A mark no later than the beginning bounds it, and in UTC it is the beginning's second. */
  predicate TokenOk(p: Policy, s: State, t: Token) {
    && t.sid in s.began && t.sid in s.asked && t.sid in s.renewed
    && t.remember == s.asked[t.sid]
    && t.start.Some? && (t.remember ==> t.start.value <= s.renewed[t.sid] - p.zone)
    && t.exp <= s.renewed[t.sid] + p.lifetime
    && (!t.remember && p.zone >= 0 ==> t.start.value <= s.began[t.sid] && UnderItsCeiling(p, s, t))
    && (!t.remember && p.zone == 0 ==> t.start.value == Floor(s.began[t.sid]))
  }

  predicate GrantOk(p: Policy, s: State, g: Grant) {
    && g.sid in s.began && g.sid in s.asked && g.sid in s.renewed
    && g.remember == s.asked[g.sid] && g.at <= s.now
    && (g.remember <==> g.start.None?)
    && (!g.remember && p.zone >= 0 ==> g.start.value <= s.began[g.sid] && g.at - g.start.value <= p.renewal)
    && (!g.remember && p.zone == 0 ==> g.start.value == Floor(s.began[g.sid]))
  }

  predicate RowOk(p: Policy, s: State, sid: Sid)
    requires sid in s.rows
  {
    && sid in s.began && sid in s.asked && sid in s.renewed
    && s.rows[sid].remember == s.asked[sid] && sid in s.digests && s.rows[sid].digest == s.digests[sid]
    && (s.rows[sid].revoked <==> sid in s.ended)
    && (!s.rows[sid].revoked ==>
          var renewed := s.rows[sid].expiresAt - Window(p, s.asked[sid]);
          s.renewed[sid] - p.lag <= renewed <= s.renewed[sid])
  }

  ghost predicate Inv(p: Policy, s: State) {
    && (forall t <- s.issued :: TokenOk(p, s, t))
    && s.seen <= s.issued
    && (forall g <- s.grants :: GrantOk(p, s, g))
    && (forall sid <- s.rows :: RowOk(p, s, sid))
    && (forall sid <- s.ended :: sid in s.began)
    && (forall sid <- s.renewed :: sid in s.began && s.began[sid] <= s.renewed[sid] <= s.now)
  }

  lemma MintKeepsInv(p: Policy, s: State, g: Grant, wrote: int)
    requires Sensible(p) && Inv(p, s) && Enabled(p, s, Mint(g, wrote))
    ensures Inv(p, Apply(p, s, Mint(g, wrote)))
  {
    var s' := Apply(p, s, Mint(g, wrote));
    assert GrantOk(p, s, g);
    forall t | t in s'.issued ensures TokenOk(p, s', t) {
      if t in s.issued { assert TokenOk(p, s, t); }
    }
    forall h | h in s'.grants ensures GrantOk(p, s', h) { assert GrantOk(p, s, h); }
    forall sid | sid in s'.rows ensures RowOk(p, s', sid) { assert RowOk(p, s, sid); }
  }

  lemma SignInKeepsInv(p: Policy, s: State, e: Step)
    requires Sensible(p) && Inv(p, s) && e.SignIn? && Enabled(p, s, e)
    ensures Inv(p, Apply(p, s, e))
  {
    var s' := Apply(p, s, e);
    forall t | t in s'.issued ensures TokenOk(p, s', t) {
      if t in s.issued { assert TokenOk(p, s, t); }
    }
    forall h | h in s'.grants ensures GrantOk(p, s', h) { assert GrantOk(p, s, h); }
    forall sid | sid in s'.rows ensures RowOk(p, s', sid) {
      if sid != e.sid { assert RowOk(p, s, sid); }
    }
  }

  /** A check that passes leaves a grant for its session and changes nothing else. */
  lemma CheckKeepsInv(p: Policy, s: State, e: Step)
    requires Sensible(p) && Inv(p, s) && (e.CheckToken? || e.CheckCredential?) && Enabled(p, s, e)
    ensures Inv(p, Apply(p, s, e))
  {
    var s' := Apply(p, s, e);
    if e.CheckToken? { assert TokenOk(p, s, e.token); } else { assert RowOk(p, s, e.sid); }
    forall g | g in s'.grants ensures GrantOk(p, s', g) {
      if g in s.grants { assert GrantOk(p, s, g); }
    }
    forall t | t in s'.issued ensures TokenOk(p, s', t) { assert TokenOk(p, s, t); }
    forall sid | sid in s'.rows ensures RowOk(p, s', sid) { assert RowOk(p, s, sid); }
  }

  /** Revoking and purging touch rows alone, and what is revoked is recorded. */
  lemma RowsKeepInv(p: Policy, s: State, e: Step)
    requires Sensible(p) && Inv(p, s) && (e.Revoke? || e.RevokeAll? || e.Purge?) && Enabled(p, s, e)
    ensures Inv(p, Apply(p, s, e))
  {
    var s' := Apply(p, s, e);
    forall sid | sid in s'.rows ensures RowOk(p, s', sid) { assert RowOk(p, s, sid); }
    forall sid | sid in s'.ended ensures sid in s'.began {
      if sid !in s.ended { assert RowOk(p, s, sid); }
    }
    forall t | t in s'.issued ensures TokenOk(p, s', t) { assert TokenOk(p, s, t); }
    forall g | g in s'.grants ensures GrantOk(p, s', g) { assert GrantOk(p, s, g); }
  }

  lemma StepKeepsInv(p: Policy, s: State, e: Step)
    requires Sensible(p) && Inv(p, s) && Enabled(p, s, e)
    ensures Inv(p, Apply(p, s, e))
  {
    match e
    case Mint(g, wrote) => MintKeepsInv(p, s, g, wrote);
    case SignIn(_, _, _, _, _) => SignInKeepsInv(p, s, e);
    case CheckToken(_) => CheckKeepsInv(p, s, e);
    case CheckCredential(_, _, _) => CheckKeepsInv(p, s, e);
    case Revoke(_) => RowsKeepInv(p, s, e);
    case RevokeAll(_) => RowsKeepInv(p, s, e);
    case Purge => RowsKeepInv(p, s, e);
    case _ => StillKeepsInv(p, s, e);
  }

  /** Time, accounts and what is presented change nothing of tokens, grants and rows. */
  lemma StillKeepsInv(p: Policy, s: State, e: Step)
    requires Sensible(p) && Inv(p, s) && (e.Tick? || e.SetAccounts? || e.Present?) && Enabled(p, s, e)
    ensures Inv(p, Apply(p, s, e))
  {
    var s' := Apply(p, s, e);
    forall t | t in s'.issued ensures TokenOk(p, s', t) { assert TokenOk(p, s, t); }
    forall g | g in s'.grants ensures GrantOk(p, s', g) { assert GrantOk(p, s, g); }
    forall sid | sid in s'.rows ensures RowOk(p, s', sid) { assert RowOk(p, s, sid); }
  }

  lemma {:induction false} InvOverRuns(p: Policy, s: State, steps: seq<Step>)
    requires Sensible(p) && Inv(p, s) && Legal(p, s, steps)
    ensures Inv(p, After(p, s, steps))
    decreases |steps|
  {
    if steps != [] {
      StepKeepsInv(p, s, steps[0]);
      InvOverRuns(p, Apply(p, s, steps[0]), steps[1..]);
    }
  }

  // ---------- what is promised ----------

  /**
   Over every renewal chain a session never turns remembered, and an ordinary one
   ends within its window unless local time is behind UTC; in UTC it keeps its mark.
   */
  lemma SessionCeiling(p: Policy, s: State, steps: seq<Step>, t: Token)
    requires Sensible(p) && Init(s) && Legal(p, s, steps) && t in After(p, s, steps).issued
    ensures var s' := After(p, s, steps);
            && t.sid in s'.began && t.sid in s'.asked
            && t.remember == s'.asked[t.sid]
            && (p.zone >= 0 ==> UnderItsCeiling(p, s', t))
            && (p.zone == 0 && !t.remember ==> t.start == Some(Floor(s'.began[t.sid])))
  {
    InvOverRuns(p, s, steps);
    assert TokenOk(p, After(p, s, steps), t);
  }

  /** In any state of a run a token is let through exactly when it was issued, has not run out, and its session is alive. */
  lemma AcceptsIff(p: Policy, s: State, steps: seq<Step>, t: Token)
    requires Sensible(p) && Init(s) && Legal(p, s, steps)
    ensures var s' := After(p, s, steps);
      Accepts(s', t) <==>
      && t in s'.issued && s'.now < t.exp && t.sid in s'.rows && t.sid !in s'.ended
      && t.name in s'.accounts && s'.accounts[t.name] == Account(s'.rows[t.sid].user, true)
  {
    InvOverRuns(p, s, steps);
    var s' := After(p, s, steps);
    if t.sid in s'.rows { assert RowOk(p, s', t.sid); }
  }

  /** Past its ceiling nothing of an ordinary session is let through, where local time is not behind UTC. */
  lemma OverIsOver(p: Policy, s: State, steps: seq<Step>, t: Token)
    requires Sensible(p) && p.zone >= 0 && Init(s) && Legal(p, s, steps)
    requires var s' := After(p, s, steps);
      && t.sid in s'.began && t.sid in s'.asked && !s'.asked[t.sid]
      && s'.now >= s'.began[t.sid] + p.renewal + p.lag + p.lifetime
    ensures !Accepts(After(p, s, steps), t)
  {
    if t in After(p, s, steps).issued {
      SessionCeiling(p, s, steps, t);
    }
  }

  /** An ordinary session that has a token good for its whole lifetime, with a mark yet to come. */
  ghost predicate GoesOn(p: Policy, s: State, sid: Sid, t: Token) {
    && t in s.issued && t.sid == sid && !t.remember && t.exp == s.now + p.lifetime && s.now % SECOND == 0
    && t.start.Some? && t.start.value >= s.now + SECOND
    && s.accounts == map["u" := Account(1, true)] && t.name == "u"
    && SessionOwner(s.rows, sid) == Some(1)
    && s.began == map[sid := 0] && s.asked == map[sid := false]
  }

  /** A step at the front of a run. */
  lemma Leads(p: Policy, s: State, e: Step, steps: seq<Step>)
    requires Enabled(p, s, e) && Legal(p, Apply(p, s, e), steps)
    ensures Legal(p, s, [e] + steps) && After(p, s, [e] + steps) == After(p, Apply(p, s, e), steps)
  {
    assert ([e] + steps)[1..] == steps;
  }

  /** A token that is accepted and renewable buys the next one at once. */
  lemma RenewsNow(p: Policy, s: State, t: Token) returns (steps: seq<Step>)
    requires Sensible(p) && Accepts(s, t) && !t.remember && IsRenewable(p, t.start, s.now, false)
    ensures Legal(p, s, steps)
    ensures var s', g := After(p, s, steps), Grant(t.sid, t.name, t.start, false, s.now);
      && s'.now == s.now && s'.issued == s.issued + {Minted(p, s.now, g)}
      && s'.rows == Extended(s.rows, t.sid, s.now + p.lifetime)
      && s'.accounts == s.accounts && s'.began == s.began && s'.asked == s.asked
  {
    var g := Grant(t.sid, t.name, t.start, false, s.now);
    var present, check, mint := Present(t), CheckToken(t), Mint(g, s.now);
    hide Accepts, Extended, Minted, Floor, IsRenewable;
    var s1 := Apply(p, s, present);
    var s2 := Apply(p, s1, check);
    Leads(p, s2, mint, []);
    Leads(p, s1, check, [mint]);
    Leads(p, s, present, [check, mint]);
    steps := [present, check, mint];
  }

  lemma NextMark(p: Policy, start: int, now: int)
    requires Sensible(p) && p.zone < 0 && start >= now && now % SECOND == 0
    ensures Mark(p, start) >= now + SECOND && Floor(now + p.lifetime) == now + p.lifetime
    ensures (now + SECOND) % SECOND == 0
  {
    assert start - p.zone >= now + SECOND;
  }

  /** A second later it is renewed, and the mark moves on as far as local time is behind. */
  lemma RenewsAgain(p: Policy, s: State, sid: Sid, t: Token)
    returns (steps: seq<Step>, next: Token)
    requires Sensible(p) && p.zone < 0 && GoesOn(p, s, sid, t)
    ensures Legal(p, s, steps) && After(p, s, steps).now == s.now + SECOND
    ensures GoesOn(p, After(p, s, steps), sid, next)
  {
    hide Mark, Floor;
    var s1 := Apply(p, s, Tick(SECOND));
    assert Accepts(s1, t);
    NextMark(p, t.start.value, s1.now);
    next := Minted(p, s1.now, Grant(sid, "u", t.start, false, s1.now));
    var more := RenewsNow(p, s1, t);
    Leads(p, s, Tick(SECOND), more);
    steps := [Tick(SECOND)] + more;
  }

  lemma {:induction false} RunsJoin(p: Policy, s: State, a: seq<Step>, b: seq<Step>)
    requires Legal(p, s, a) && Legal(p, After(p, s, a), b)
    ensures Legal(p, s, a + b) && After(p, s, a + b) == After(p, After(p, s, a), b)
    decreases |a|
  {
    if a == [] {
      assert a + b == b;
    } else {
      assert (a + b)[1..] == a[1..] + b;
      RunsJoin(p, Apply(p, s, a[0]), a[1..], b);
    }
  }

  /** Where local time is behind UTC an ordinary session is renewed for as many seconds as one likes. */
  lemma {:induction false} NeverEnds(p: Policy, seconds: nat) returns (s: State, steps: seq<Step>, t: Token)
    requires Sensible(p) && p.zone < 0
    ensures Init(s) && Legal(p, s, steps) && After(p, s, steps).now == seconds * SECOND
    ensures GoesOn(p, After(p, s, steps), "s", t)
  {
    if seconds == 0 {
      s := State(0, map[], map["u" := Account(1, true)], {}, {}, {}, map[], map[], map[], map[], {});
      var signIn := SignIn("s", "u", false, None, 0);
      Leads(p, s, signIn, []);
      steps := [signIn];
      t := Token("s", "u", p.lifetime, Some(-p.zone), false);
    } else {
      var more;
      s, steps, t := NeverEnds(p, seconds - 1);
      more, t := RenewsAgain(p, After(p, s, steps), "s", t);
      RunsJoin(p, s, steps, more);
      steps := steps + more;
    }
  }

  /** The ceiling holds over every run exactly when local time is not behind UTC. */
  lemma SessionCeilingIff(p: Policy)
    requires Sensible(p)
    ensures (forall s, steps, t :: Init(s) && Legal(p, s, steps) && t in After(p, s, steps).issued ==>
                                     UnderItsCeiling(p, After(p, s, steps), t))
       <==> p.zone >= 0
  {
    if p.zone >= 0 {
      forall s, steps, t | Init(s) && Legal(p, s, steps) && t in After(p, s, steps).issued
        ensures UnderItsCeiling(p, After(p, s, steps), t)
      {
        SessionCeiling(p, s, steps, t);
      }
    } else {
      var s, steps, t := NeverEnds(p, p.renewal + p.lag + 1);
      assert !UnderItsCeiling(p, After(p, s, steps), t);
    }
  }

  /** Through either door a remembered session renews only within its window of the last renewal. */
  lemma RememberedRenewsWithinItsWindow(p: Policy, s: State, steps: seq<Step>, e: Step)
    requires Sensible(p) && Init(s) && Legal(p, s, steps) && Enabled(p, After(p, s, steps), e)
    requires (e.CheckToken? && e.token.remember) || e.CheckCredential?
    ensures var s', sid := After(p, s, steps), if e.CheckToken? then e.token.sid else e.sid;
            && sid in s'.asked && s'.asked[sid]
            && sid in s'.renewed
            && s'.now - s'.renewed[sid] <= p.remember - (if e.CheckToken? then p.zone else 0)
  {
    InvOverRuns(p, s, steps);
    var s' := After(p, s, steps);
    if e.CheckToken? { assert TokenOk(p, s', e.token); } else { assert RowOk(p, s', e.sid); }
  }

  /**
   The second door over every run: it opens for a session exactly while its row is
   there, to the digest it was signed in with, before it is revoked, if it was
   asked to stay signed in, and until its row's end.
   */
  lemma CredentialIsItsOwn(p: Policy, s: State, steps: seq<Step>, sid: Sid, name: string, secret: string)
    requires Sensible(p) && Init(s) && Legal(p, s, steps)
    ensures var s' := After(p, s, steps);
      Enabled(p, s', CheckCredential(sid, name, secret)) <==>
      && sid in s'.rows && sid in s'.digests && s'.digests[sid] == Some(secret)
      && sid !in s'.ended && sid in s'.asked && s'.asked[sid] && s'.now < s'.rows[sid].expiresAt
      && name in s'.accounts && s'.accounts[name].active && s'.accounts[name].id == s'.rows[sid].user
  {
    InvOverRuns(p, s, steps);
    var s' := After(p, s, steps);
    if sid in s'.rows { assert RowOk(p, s', sid); }
  }

  lemma StepKeepsEnded(p: Policy, s: State, e: Step, sid: Sid)
    requires Sensible(p) && Inv(p, s) && Enabled(p, s, e) && sid in s.ended
    ensures sid in Apply(p, s, e).ended
  {
  }

  /** Once revoked, a session has no accepted token in any later state. */
  lemma {:induction false} RevocationIsPermanent(p: Policy, s: State, steps: seq<Step>, t: Token)
    requires Sensible(p) && Inv(p, s) && Legal(p, s, steps) && t.sid in s.ended
    ensures !Accepts(After(p, s, steps), t)
    decreases |steps|
  {
    if steps == [] {
      if t.sid in s.rows { assert RowOk(p, s, t.sid); }
    } else {
      StepKeepsInv(p, s, steps[0]);
      StepKeepsEnded(p, s, steps[0], t.sid);
      RevocationIsPermanent(p, Apply(p, s, steps[0]), steps[1..], t);
    }
  }

  /** A purge takes the live row behind no token that has not yet expired. */
  ghost predicate PurgeSpares(p: Policy, s: State) {
    forall t <- s.issued :: (t.sid in s.rows && !s.rows[t.sid].revoked && s.now < t.exp)
      ==> t.sid in Apply(p, s, Purge).rows
  }

  /** A token lives no longer than its row is kept, however late it was minted. */
  predicate RowsOutlive(p: Policy) {
    p.lifetime + p.lag <= p.remember + p.keep + 1 && p.lag <= p.keep + 1
  }

  lemma PurgeSparesLiveTokens(p: Policy, s: State, steps: seq<Step>)
    requires Sensible(p) && Init(s) && Legal(p, s, steps)
    requires RowsOutlive(p)
    ensures PurgeSpares(p, After(p, s, steps))
  {
    InvOverRuns(p, s, steps);
    var s' := After(p, s, steps);
    forall t | t in s'.issued && t.sid in s'.rows && !s'.rows[t.sid].revoked && s'.now < t.exp
      ensures t.sid in Apply(p, s', Purge).rows
    {
      assert TokenOk(p, s', t) && RowOk(p, s', t.sid);
    }
  }

  /** When they are not kept as long, a purge takes the live row of a session that never renewed. */
  lemma PurgeTakesALiveRow(p: Policy) returns (s: State, steps: seq<Step>)
    requires Sensible(p) && !RowsOutlive(p)
    ensures Init(s) && Legal(p, s, steps) && !PurgeSpares(p, After(p, s, steps))
  {
    hide Mark, Floor;
    var remember := p.lag <= p.keep + 1;
    s := State(0, map[], map["u" := Account(1, true)], {}, {}, {}, map[], map[], map[], map[], {});
    var signIn, tick := SignIn("s", "u", remember, None, -p.lag), Tick(p.lifetime - 1);
    var s1 := Apply(p, s, signIn);
    var s2 := Apply(p, s1, tick);
    Leads(p, s1, tick, []);
    Leads(p, s, signIn, [tick]);
    steps := [signIn, tick];
    var t := Token("s", "u", p.lifetime, Some(Mark(p, 0)), remember);
    assert t in s2.issued && s2.now < t.exp;
  }

  /** Rows are kept long enough for every run exactly when no token outlives them. */
  lemma PurgeIsSafeIff(p: Policy)
    requires Sensible(p)
    ensures (forall s, steps :: Init(s) && Legal(p, s, steps) ==> PurgeSpares(p, After(p, s, steps)))
       <==> RowsOutlive(p)
  {
    if RowsOutlive(p) {
      forall s, steps | Init(s) && Legal(p, s, steps) ensures PurgeSpares(p, After(p, s, steps)) {
        PurgeSparesLiveTokens(p, s, steps);
      }
    } else {
      var s, steps := PurgeTakesALiveRow(p);
    }
  }
}
