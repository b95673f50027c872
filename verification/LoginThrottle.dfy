/**
 Counting sign-in attempts per name. A login looks whether the name is locked,
 reserves a number in one statement, and reaches the password check only with a
 number within the limit; any number of logins interleave.
 */
module LoginThrottle {
  import opened Wrappers

  datatype Policy = Policy(max: nat, window: int)

  predicate Sensible(p: Policy) {
    p.max > 0 && p.window > 0
  }

  datatype Row = Row(failures: int, last: Option<int>)

  type Rows = map<string, Row>

  /** When this name may try again, or None when it may try now. */
  function LockedUntil(p: Policy, rows: Rows, name: string, now: int): Option<int> {
    if name == "" || name !in rows || rows[name].failures < p.max || rows[name].last.None? then None
    else
      var until := rows[name].last.value + p.window;
      if until > now then Some(until) else None
  }

  /** A name whose window has passed starts its count again. */
  function Restarts(p: Policy, row: Row, stamp: int): bool {
    row.last.Some? && row.last.value <= stamp - p.window
  }

  /** INSERT ... ON CONFLICT DO UPDATE: one more failure, or the first of a new count. */
  function Counted(p: Policy, rows: Rows, name: string, stamp: int): Rows {
    var failures :=
      if name !in rows || Restarts(p, rows[name], stamp) then 1 else rows[name].failures + 1;
    rows[name := Row(failures, Some(stamp))]
  }

  /** The number reserve_attempt answers; an empty name is never counted. */
  function Number(p: Policy, rows: Rows, name: string, stamp: int): int {
    if name == "" then 0 else Counted(p, rows, name, stamp)[name].failures
  }

  /**
   "No longer locked" and "this attempt restarts the count" are one boundary for a
   spent count whose last failure is known.
   */
  lemma BoundaryAgrees(p: Policy, rows: Rows, name: string, now: int)
    requires Sensible(p) && name != "" && name in rows
    requires rows[name].failures >= p.max && rows[name].last.Some?
    ensures LockedUntil(p, rows, name, now).None? <==> Number(p, rows, name, now) == 1
    ensures LockedUntil(p, rows, name, now).Some? ==> Number(p, rows, name, now) > p.max
  {
  }

  /** A reservation is within the limit exactly when the name is not locked and not spent. */
  lemma WithinLimitIff(p: Policy, rows: Rows, name: string, now: int)
    requires Sensible(p) && name != ""
    ensures Number(p, rows, name, now) <= p.max
       <==> (name in rows && rows[name].failures >= p.max ==>
               rows[name].last.Some? && LockedUntil(p, rows, name, now).None?)
  {
  }

  /** A name is locked once its count is spent, for a window from its last failure; the empty name never is. */
  lemma LockedUntilIs(p: Policy, rows: Rows, name: string, now: int, until: int)
    ensures LockedUntil(p, rows, name, now) == Some(until) <==>
      && name != "" && name in rows && rows[name].failures >= p.max && rows[name].last.Some?
      && until == rows[name].last.value + p.window && now < until
  {
  }

  /** An attempt is the next of its count, or the first once a window has passed since the last one; it stamps the row. */
  lemma CountedIs(p: Policy, rows: Rows, name: string, stamp: int)
    requires name != ""
    ensures var anew := name !in rows || (rows[name].last.Some? && stamp - rows[name].last.value >= p.window);
      && Number(p, rows, name, stamp) == (if anew then 1 else rows[name].failures + 1)
      && Counted(p, rows, name, stamp) == rows[name := Row(Number(p, rows, name, stamp), Some(stamp))]
    ensures Number(p, rows, "", stamp) == 0
  {
  }

  // ---------- the machine ----------

  /**
   What happened to one name since its last success: the stamp its count began
   with, how often and when last the count restarted, and the checks reached.
   */
  datatype Tally = Tally(since: int, turn: nat, restarted: int, inTurn: nat, sinceSuccess: nat)

  const BLANK := Tally(0, 0, 0, 0, 0)

  datatype State = State(now: int, rows: Rows, waiting: map<int, string>, tally: map<string, Tally>)

  datatype Step =
    | Tick(dt: nat)
    | Look(login: int, name: string)
    | Reserve(login: int, stamp: int)
    | Succeed(name: string)

  predicate Enabled(p: Policy, s: State, e: Step) {
    match e
    case Tick(_) => true
    case Look(login, name) => login !in s.waiting && LockedUntil(p, s.rows, name, s.now).None?
    case Reserve(login, stamp) => login in s.waiting && stamp <= s.now
    case Succeed(name) => name != ""
  }

  function TallyOf(s: State, name: string): Tally {
    if name in s.tally then s.tally[name] else BLANK
  }

  /** The tally after a reservation: a restart begins a turn, a number within the limit reaches the check. */
  function Reached(p: Policy, s: State, name: string, stamp: int): Tally {
    var t := TallyOf(s, name);
    var t1 :=
      if name == "" then t
      else if name !in s.rows then Tally(stamp, 0, stamp, 0, 0)
      else if Restarts(p, s.rows[name], stamp) then t.(turn := t.turn + 1, restarted := stamp, inTurn := 0)
      else t;
    if Number(p, s.rows, name, stamp) <= p.max
    then t1.(inTurn := t1.inTurn + 1, sinceSuccess := t1.sinceSuccess + 1)
    else t1
  }

  function Apply(p: Policy, s: State, e: Step): State
    requires Enabled(p, s, e)
  {
    match e
    case Tick(dt) => s.(now := s.now + dt)
    case Look(login, name) => s.(waiting := s.waiting[login := name])
    case Reserve(login, stamp) =>
      var name := s.waiting[login];
      s.(rows := if name == "" then s.rows else Counted(p, s.rows, name, stamp),
         waiting := s.waiting - {login},
         tally := s.tally[name := Reached(p, s, name, stamp)])
    case Succeed(name) => s.(rows := s.rows - {name}, tally := s.tally - {name})
  }

  /** A reservation reaches the check exactly when its number is within the limit, and every check is counted. */
  lemma ReachesIff(p: Policy, s: State, login: int, stamp: int)
    requires Enabled(p, s, Reserve(login, stamp)) && s.waiting[login] != ""
    ensures var name := s.waiting[login];
      var number, before, after :=
        Number(p, s.rows, name, stamp), TallyOf(s, name), TallyOf(Apply(p, s, Reserve(login, stamp)), name);
      && after.sinceSuccess == (if name in s.rows then before.sinceSuccess else 0) + (if number <= p.max then 1 else 0)
      && after.inTurn == (if number > 1 || (name in s.rows && !Restarts(p, s.rows[name], stamp)) then before.inTurn else 0)
                         + (if number <= p.max then 1 else 0)
  {
  }

  predicate Legal(p: Policy, s: State, steps: seq<Step>)
    decreases |steps|
  {
    steps == [] || (Enabled(p, s, steps[0]) && Legal(p, Apply(p, s, steps[0]), steps[1..]))
  }

  function After(p: Policy, s: State, steps: seq<Step>): State
    requires Legal(p, s, steps)
    decreases |steps|
  {
    if steps == [] then s else After(p, Apply(p, s, steps[0]), steps[1..])
  }

  predicate Init(s: State) {
    s.rows == map[] && s.waiting == map[] && s.tally == map[]
  }

  // ---------- at most max checks between two resets ----------

  predicate NameOk(p: Policy, s: State, name: string) {
    var t := TallyOf(s, name);
    && t.inTurn <= p.max
    && (if name in s.rows then s.rows[name].failures >= 1 && t.inTurn <= s.rows[name].failures
        else t == BLANK)
    && t.sinceSuccess <= t.turn * p.max + t.inTurn
  }

  ghost predicate Inv(p: Policy, s: State) {
    forall name :: name != "" ==> NameOk(p, s, name)
  }

  lemma ReserveKeepsName(p: Policy, s: State, login: int, stamp: int)
    requires Sensible(p) && Inv(p, s) && Enabled(p, s, Reserve(login, stamp)) && s.waiting[login] != ""
    ensures NameOk(p, Apply(p, s, Reserve(login, stamp)), s.waiting[login])
  {
    var name := s.waiting[login];
    var t := TallyOf(s, name);
    assert NameOk(p, s, name);
    assert (t.turn + 1) * p.max == t.turn * p.max + p.max;
  }

  lemma StepKeepsInv(p: Policy, s: State, e: Step)
    requires Sensible(p) && Inv(p, s) && Enabled(p, s, e)
    ensures Inv(p, Apply(p, s, e))
  {
    var s' := Apply(p, s, e);
    forall name | name != "" ensures NameOk(p, s', name) {
      assert NameOk(p, s, name);
      if e.Reserve? && s.waiting[e.login] == name {
        ReserveKeepsName(p, s, e.login, e.stamp);
      }
    }
  }

  lemma {:induction false} InvOverRuns(p: Policy, s: State, steps: seq<Step>)
    requires Sensible(p) && Inv(p, s) && Legal(p, s, steps)
    ensures Inv(p, After(p, s, steps))
    decreases |steps|
  {
    if steps != [] {
      StepKeepsInv(p, s, steps[0]);
      InvOverRuns(p, Apply(p, s, steps[0]), steps[1..]);
    }
  }

  /** However the logins interleave, a count lets at most max of them reach the password check. */
  lemma AtMostMaxChecks(p: Policy, s: State, steps: seq<Step>, name: string)
    requires Sensible(p) && Init(s) && Legal(p, s, steps) && name != ""
    ensures var t := TallyOf(After(p, s, steps), name);
            t.inTurn <= p.max && t.sinceSuccess <= (t.turn + 1) * p.max
  {
    InvOverRuns(p, s, steps);
    var t := TallyOf(After(p, s, steps), name);
    assert NameOk(p, After(p, s, steps), name);
    assert (t.turn + 1) * p.max == t.turn * p.max + p.max;
  }

  // ---------- and a restart costs a window ----------

  /** Every reservation's statement runs within `lag` of the clock its replica read. */
  predicate Timely(p: Policy, lag: int, s: State, steps: seq<Step>)
    requires Legal(p, s, steps)
    decreases |steps|
  {
    steps != [] ==>
      && (steps[0].Reserve? ==> s.now <= steps[0].stamp + lag)
      && Timely(p, lag, Apply(p, s, steps[0]), steps[1..])
  }

  /** The last restart lies a window, less the lag, after the one before it, and so on back to the first attempt. */
  predicate Paced(p: Policy, lag: int, s: State, name: string) {
    name in s.rows ==>
      var t := TallyOf(s, name);
      && s.rows[name].last.Some? && t.restarted - lag <= s.rows[name].last.value <= s.now
      && t.since + t.turn * (p.window - lag) <= t.restarted <= s.now
  }

  lemma StepKeepsPace(p: Policy, lag: int, s: State, e: Step, name: string)
    requires Sensible(p) && lag >= 0 && Enabled(p, s, e) && name != "" && Paced(p, lag, s, name)
    requires e.Reserve? ==> s.now <= e.stamp + lag
    ensures Paced(p, lag, Apply(p, s, e), name)
  {
    var t, cost := TallyOf(s, name), p.window - lag;
    assert (t.turn + 1) * cost == t.turn * cost + cost;
  }

  lemma {:induction false} PaceOverRuns(p: Policy, lag: int, s: State, steps: seq<Step>, name: string)
    requires Sensible(p) && lag >= 0 && Legal(p, s, steps) && Timely(p, lag, s, steps)
    requires name != "" && Paced(p, lag, s, name)
    ensures Paced(p, lag, After(p, s, steps), name)
    decreases |steps|
  {
    if steps != [] {
      StepKeepsPace(p, lag, s, steps[0], name);
      PaceOverRuns(p, lag, Apply(p, s, steps[0]), steps[1..], name);
    }
  }

  /**
   The rate at which a name's password can be guessed: since its last success, at
   most max checks for every window, less the lag, begun.
   */
  lemma GuessRate(p: Policy, lag: int, s: State, steps: seq<Step>, name: string)
    requires Sensible(p) && 0 <= lag < p.window
    requires Init(s) && Legal(p, s, steps) && Timely(p, lag, s, steps) && name != ""
    ensures var s' := After(p, s, steps);
            var t := TallyOf(s', name);
            name in s'.rows ==>
              t.since <= s'.now && t.sinceSuccess <= ((s'.now - t.since) / (p.window - lag) + 1) * p.max
  {
    var s' := After(p, s, steps);
    if name in s'.rows {
      AtMostMaxChecks(p, s, steps, name);
      PaceOverRuns(p, lag, s, steps, name);
      var t, cost := TallyOf(s', name), p.window - lag;
      TurnsFit(t.turn, s'.now - t.since, cost);
      Grows(t.turn + 1, (s'.now - t.since) / cost + 1, p.max);
    }
  }

  lemma Grows(a: nat, b: nat, factor: nat)
    requires a <= b
    ensures a * factor <= b * factor
  {
    assert b * factor == a * factor + (b - a) * factor;
  }

  lemma TurnsFit(turn: nat, span: int, window: int)
    requires window > 0 && turn * window <= span
    ensures span >= 0 && turn <= span / window
  {
    var q := span / window;
    assert (q + 1) * window == q * window + window;
    if turn > q {
      Grows(q + 1, turn, window);
    }
  }

  function Earlier(a: int, b: int): int {
    if a <= b then a else b
  }

  /**
   Once a count is spent nothing more reaches the check until a whole window has
   passed since the last attempt counted, or since any later one could be stamped,
   unless the name signs in meanwhile.
   */
  lemma SpentStaysShut(p: Policy, lag: int, s: State, steps: seq<Step>, name: string)
    requires Sensible(p) && lag >= 0 && Legal(p, s, steps) && Timely(p, lag, s, steps) && name != ""
    requires name in s.rows && s.rows[name].failures >= p.max
    requires s.rows[name].last.Some? && s.rows[name].last.value <= s.now
    requires Succeed(name) !in steps
    requires After(p, s, steps).now < Earlier(s.rows[name].last.value, s.now - lag) + p.window
    ensures TallyOf(After(p, s, steps), name) == TallyOf(s, name)
  {
    ShutSince(p, lag, s, steps, name, Earlier(s.rows[name].last.value, s.now - lag));
  }

  lemma {:induction false} ShutSince(p: Policy, lag: int, s: State, steps: seq<Step>, name: string, mark: int)
    requires Sensible(p) && Legal(p, s, steps) && Timely(p, lag, s, steps) && name != ""
    requires name in s.rows && s.rows[name].failures >= p.max
    requires s.rows[name].last.Some? && mark <= s.rows[name].last.value && mark <= s.now - lag
    requires Succeed(name) !in steps && After(p, s, steps).now < mark + p.window
    ensures TallyOf(After(p, s, steps), name) == TallyOf(s, name)
    decreases |steps|
  {
    if steps != [] {
      var s1 := Apply(p, s, steps[0]);
      assert steps[0] in steps;
      NowGrows(p, s1, steps[1..]);
      ShutSince(p, lag, s1, steps[1..], name, mark);
    }
  }

  lemma {:induction false} NowGrows(p: Policy, s: State, steps: seq<Step>)
    requires Legal(p, s, steps)
    ensures After(p, s, steps).now >= s.now
    decreases |steps|
  {
    if steps != [] {
      NowGrows(p, Apply(p, s, steps[0]), steps[1..]);
    }
  }

  // ---------- the name nobody counts ----------

  /** The throttle bounds a name's checks exactly when the name is not empty. */
  lemma ThrottledIff(p: Policy, name: string)
    requires Sensible(p)
    ensures (forall s, steps :: Init(s) && Legal(p, s, steps) ==> TallyOf(After(p, s, steps), name).inTurn <= p.max)
       <==> name != ""
  {
    if name == "" {
      var s := State(0, map[], map[], map[]);
      var steps := Unthrottled(p, s, p.max + 1);
    } else {
      forall s, steps | Init(s) && Legal(p, s, steps)
        ensures TallyOf(After(p, s, steps), name).inTurn <= p.max
      {
        AtMostMaxChecks(p, s, steps, name);
      }
    }
  }

  /** Any number of logins under the empty name reach the check. */
  lemma {:induction false} Unthrottled(p: Policy, s: State, n: nat) returns (steps: seq<Step>)
    requires Sensible(p) && s.rows == map[] && s.waiting == map[]
    ensures Legal(p, s, steps)
    ensures TallyOf(After(p, s, steps), "").inTurn == TallyOf(s, "").inTurn + n
    decreases n
  {
    if n == 0 { return []; }
    var look, reserve := Look(0, ""), Reserve(0, s.now);
    var s1 := Apply(p, s, look);
    var s2 := Apply(p, s1, reserve);
    var rest := Unthrottled(p, s2, n - 1);
    var tail := [reserve] + rest;
    assert tail[1..] == rest;
    steps := [look] + tail;
    assert steps[1..] == tail;
  }

  // ---------- the calls themselves ----------

  datatype Answer = SignedIn | WrongPassword | TooMany

  /** The table login_attempts, and a login's order of checks against it. */
  class LoginAttempts {
    const policy: Policy
    var rows: Rows

    constructor (policy: Policy)
      ensures this.policy == policy && rows == map[]
    {
      this.policy, this.rows := policy, map[];
    }

    method ReserveAttempt(name: string, now: int) returns (number: int)
      modifies this
      ensures number == Number(policy, old(rows), name, now)
      ensures rows == if name == "" then old(rows) else Counted(policy, old(rows), name, now)
    {
      if name == "" {
        return 0;
      }
      if name !in rows {
        rows := rows[name := Row(1, Some(now))];
      } else {
        var row := rows[name];
        if row.last.Some? && row.last.value <= now - policy.window {
          rows := rows[name := Row(1, Some(now))];
        } else {
          rows := rows[name := Row(row.failures + 1, Some(now))];
        }
      }
      number := rows[name].failures;
    }

    method RecordSuccess(name: string)
      modifies this
      ensures rows == if name == "" then old(rows) else old(rows) - {name}
      ensures forall now :: LockedUntil(policy, rows, name, now).None?
    {
      if name != "" {
        rows := rows - {name};
      }
    }

    /**
     One login, its two database calls at `looked` and `counted`. The password is
     looked at only within the limit, a refused name is counted only when it was
     not locked, and only a right password within the limit forgets the failures.
     */
    method Login(name: string, right: bool, looked: int, counted: int) returns (answer: Answer, checked: bool)
      modifies this
      ensures checked <==>
              LockedUntil(policy, old(rows), name, looked).None?
              && Number(policy, old(rows), name, counted) <= policy.max
      ensures answer == if !checked then TooMany else if right then SignedIn else WrongPassword
      ensures name == "" || LockedUntil(policy, old(rows), name, looked).Some? ==> rows == old(rows)
      ensures answer.SignedIn? && name != "" ==> rows == old(rows) - {name}
      ensures LockedUntil(policy, old(rows), name, looked).None? && !answer.SignedIn? && name != "" ==>
                rows == Counted(policy, old(rows), name, counted)
    {
      checked := false;
      var until := LockedUntil(policy, rows, name, looked);
      if until.Some? {
        return TooMany, checked;
      }
      var attempt := ReserveAttempt(name, counted);
      if attempt > policy.max {
        return TooMany, checked;
      }
      checked := true;
      if !right {
        return WrongPassword, checked;
      }
      RecordSuccess(name);
      answer := SignedIn;
      assert name != "" ==> rows == old(rows) - {name};
    }
  }
}
