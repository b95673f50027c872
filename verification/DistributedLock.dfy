/**
 The lock replicas take in the `distributed_locks` table.

 Each SQL statement is one function on the table; the machine below interleaves
 those statements of any number of replicas with the clock and with crashes. A
 statement carries the instant its replica read from the clock (`stamp`), which
 may be older than the moment the database runs it.
 */
module DistributedLock {
  import opened Wrappers

  /** A DatabaseLock object, of which a process has one for each name at a time: instance ids are a process's own. */
  datatype Locker = Locker(name: string, instance: string)

  datatype Row = Row(instance: string, acquiredAt: int)

  type Table = map<string, Row>

  // ---------- the statements ----------

  /** DELETE ... WHERE lock_name = :name AND acquired_at < :cutoff */
  function Swept(t: Table, name: string, cutoff: int): Table {
    if name in t && t[name].acquiredAt < cutoff then t - {name} else t
  }

  /** INSERT; the primary key refuses a second row of one name. */
  function Inserted(t: Table, l: Locker, stamp: int): Option<Table> {
    if l.name in t then None else Some(t[l.name := Row(l.instance, stamp)])
  }

  /** UPDATE ... WHERE lock_name = :name AND instance_id = :instance */
  function Renewed(t: Table, l: Locker, stamp: int): Option<Table> {
    if Names(t, l) then Some(t[l.name := Row(l.instance, stamp)]) else None
  }

  /** DELETE ... WHERE lock_name = :name AND instance_id = :instance */
  function Released(t: Table, l: Locker): Table {
    if Names(t, l) then t - {l.name} else t
  }

  /** The takeover's DELETE, which filters by the name alone. */
  function Cleared(t: Table, name: string): Table {
    t - {name}
  }

  /** The table's row says this locker holds the lock. */
  predicate Names(t: Table, l: Locker) {
    l.name in t && t[l.name].instance == l.instance
  }

  // ---------- the machine ----------

  /** Where a locker stands between two awaits. */
  datatype Phase =
    | Idle       // not acquired
    | Entering   // its INSERT went through, `acquired` is not set yet
    | Holding    // `acquired` is true
    | Leaving    // its release DELETE went through, `acquired` is still set
    | Dead       // the process is gone

  /** `expired[l]` is the row l read and judged expired, before its DELETE runs. */
  datatype State = State(now: int, table: Table, phase: map<Locker, Phase>,
                         expired: map<Locker, Row>)

  datatype Step =
    | Tick(dt: nat)
    | Sweep(l: Locker, stamp: int)
    | Insert(l: Locker, stamp: int)
    | SetFlag(l: Locker)
    | ReadExpired(l: Locker, stamp: int)
    | TakeOver(l: Locker)
    | Renew(l: Locker, stamp: int)
    | Release(l: Locker)
    | ClearFlag(l: Locker)
    | Crash(l: Locker)

  /** max_lock_time of every locker of the deployment. */
  type Limits = map<Locker, int>

  predicate Enabled(m: Limits, s: State, e: Step) {
    if e.Tick? then true
    else
      && e.l in s.phase && e.l in m
      && match e {
           case Tick(_) => true
           case Sweep(_, stamp) => stamp <= s.now
           case Insert(l, stamp) => s.phase[l].Idle? && stamp <= s.now
           case SetFlag(l) => s.phase[l].Entering?
           case ReadExpired(l, stamp) =>
             && s.phase[l].Idle? && stamp <= s.now
             && l.name in s.table && stamp - s.table[l.name].acquiredAt > m[l]
           case TakeOver(l) => l in s.expired
           case Renew(l, stamp) => !s.phase[l].Entering? && stamp <= s.now
           case Release(l) => s.phase[l].Holding?
           case ClearFlag(l) => s.phase[l].Leaving?
           case Crash(l) => true
         }
  }

  function Apply(m: Limits, s: State, e: Step): State
    requires Enabled(m, s, e)
  {
    match e
    case Tick(dt) => s.(now := s.now + dt)
    case Sweep(l, stamp) => s.(table := Swept(s.table, l.name, stamp - m[l]))
    case Insert(l, stamp) =>
      var t := Inserted(s.table, l, stamp);
      if t.Some? then s.(table := t.value, phase := s.phase[l := Entering]) else s
    case SetFlag(l) => s.(phase := s.phase[l := Holding])
    case ReadExpired(l, _) => s.(expired := s.expired[l := s.table[l.name]])
    case TakeOver(l) => s.(table := Cleared(s.table, l.name), expired := s.expired - {l})
    case Renew(l, stamp) =>
      var t := Renewed(s.table, l, stamp);
      if t.Some? then s.(table := t.value)
      else if s.phase[l].Holding? then s.(phase := s.phase[l := Idle])
      else s
    case Release(l) => s.(table := Released(s.table, l), phase := s.phase[l := Leaving])
    case ClearFlag(l) => s.(phase := s.phase[l := Idle])
    case Crash(l) => s.(phase := s.phase[l := Dead])
  }

  predicate Legal(m: Limits, s: State, steps: seq<Step>)
    decreases |steps|
  {
    steps == [] || (Enabled(m, s, steps[0]) && Legal(m, Apply(m, s, steps[0]), steps[1..]))
  }

  function After(m: Limits, s: State, steps: seq<Step>): State
    requires Legal(m, s, steps)
    decreases |steps|
  {
    if steps == [] then s else After(m, Apply(m, s, steps[0]), steps[1..])
  }

  predicate Init(m: Limits, s: State) {
    && s.table == map[] && s.expired == map[]
    && s.phase.Keys == m.Keys
    && forall l <- s.phase :: s.phase[l].Idle?
  }

  // ---------- what is promised ----------

  /** A locker is inside from its INSERT until its release DELETE. */
  predicate Inside(s: State, l: Locker) {
    l in s.phase && (s.phase[l].Entering? || s.phase[l].Holding?)
  }

  ghost predicate MutualExclusion(s: State) {
    && (forall l, k :: Inside(s, l) && Inside(s, k) && l.name == k.name ==> l == k)
    && (forall l :: Inside(s, l) ==> Names(s.table, l))
  }

  /** No inside row is older than the smallest limit anybody uses for its name. */
  ghost predicate Fresh(m: Limits, s: State) {
    forall l, k :: Inside(s, l) && Names(s.table, l) && k in m && k.name == l.name
      ==> s.now - s.table[l.name].acquiredAt <= m[k]
  }

  /** The takeover's read and DELETE act as one: the row read is the row deleted. */
  predicate RowUnchanged(s: State, e: Step) {
    (e.TakeOver? && e.l in s.expired && e.l.name in s.table) ==>
      s.table[e.l.name] == s.expired[e.l]
  }

  /** Every row judged expired was expired for its reader. */
  ghost predicate JudgedExpired(m: Limits, s: State) {
    forall l <- s.expired :: l in m && s.now - s.expired[l].acquiredAt > m[l]
  }

  ghost predicate Inv(m: Limits, s: State) {
    s.phase.Keys == m.Keys && MutualExclusion(s) && JudgedExpired(m, s)
  }

  /** First assumption, at every state of a run. */
  ghost predicate FreshThroughout(m: Limits, s: State, steps: seq<Step>)
    requires Legal(m, s, steps)
    decreases |steps|
  {
    && Fresh(m, s)
    && (steps != [] ==> FreshThroughout(m, Apply(m, s, steps[0]), steps[1..]))
  }

  /** Second assumption, at every step of a run. */
  predicate TakeOversAtomic(m: Limits, s: State, steps: seq<Step>)
    requires Legal(m, s, steps)
    decreases |steps|
  {
    steps != [] ==>
      RowUnchanged(s, steps[0]) && TakeOversAtomic(m, Apply(m, s, steps[0]), steps[1..])
  }

  lemma StepKeepsInv(m: Limits, s: State, e: Step)
    requires Inv(m, s) && Enabled(m, s, e) && Fresh(m, s) && RowUnchanged(s, e)
    ensures Inv(m, Apply(m, s, e))
  {
    var s' := Apply(m, s, e);
    forall l | Inside(s', l) ensures Names(s'.table, l) {
      if Inside(s, l) { assert Names(s.table, l); }
    }
    forall l, k | Inside(s', l) && Inside(s', k) && l.name == k.name ensures l == k {
      assert Names(s'.table, l) && Names(s'.table, k);
    }
  }

  /** Over every run, at most one locker is inside and the row names it. */
  lemma {:induction false} MutualExclusionOverRuns(m: Limits, s: State, steps: seq<Step>)
    requires Inv(m, s) && Legal(m, s, steps)
    requires FreshThroughout(m, s, steps) && TakeOversAtomic(m, s, steps)
    ensures Inv(m, After(m, s, steps))
    decreases |steps|
  {
    if steps != [] {
      StepKeepsInv(m, s, steps[0]);
      MutualExclusionOverRuns(m, Apply(m, s, steps[0]), steps[1..]);
    }
  }

  lemma InitialStatesAreExclusive(m: Limits, s: State)
    requires Init(m, s)
    ensures Inv(m, s)
  {
  }

  /**
   The DELETE of a takeover keeps mutual exclusion exactly when the row it finds
   is not one an inside locker owns.
   */
  lemma TakeOverIsSafeIff(m: Limits, s: State, l: Locker)
    requires Inv(m, s) && Enabled(m, s, TakeOver(l))
    ensures MutualExclusion(Apply(m, s, TakeOver(l)))
       <==> (l.name in s.table ==> !Inside(s, Locker(l.name, s.table[l.name].instance)))
  {
    var s' := Apply(m, s, TakeOver(l));
    if l.name in s.table {
      var owner := Locker(l.name, s.table[l.name].instance);
      if Inside(s, owner) {
        assert Inside(s', owner) && !Names(s'.table, owner);
      } else {
        forall k | Inside(s', k) ensures Names(s'.table, k) {
          assert Inside(s, k) && Names(s.table, k);
          assert k.name == l.name ==> k == owner;
        }
      }
    } else {
      forall k | Inside(s', k) ensures Names(s'.table, k) { assert Inside(s, k); }
    }
  }

  /** A takeover finds no row whose owner is inside. */
  predicate Spares(s: State, e: Step) {
    e.TakeOver? && e.l.name in s.table ==> !Inside(s, Locker(e.l.name, s.table[e.l.name].instance))
  }

  predicate TakeOversSpare(m: Limits, s: State, steps: seq<Step>)
    requires Legal(m, s, steps)
    decreases |steps|
  {
    steps != [] ==> Spares(s, steps[0]) && TakeOversSpare(m, Apply(m, s, steps[0]), steps[1..])
  }

  ghost predicate ExclusiveThroughout(m: Limits, s: State, steps: seq<Step>)
    requires Legal(m, s, steps)
    decreases |steps|
  {
    && MutualExclusion(s)
    && (steps != [] ==> ExclusiveThroughout(m, Apply(m, s, steps[0]), steps[1..]))
  }

  lemma SparingKeepsInv(m: Limits, s: State, e: Step)
    requires Inv(m, s) && Enabled(m, s, e) && Fresh(m, s) && Spares(s, e)
    ensures Inv(m, Apply(m, s, e))
  {
    if e.TakeOver? {
      TakeOverIsSafeIff(m, s, e.l);
    } else {
      StepKeepsInv(m, s, e);
    }
  }

  /**
   Over every run whose rows stay fresh, at most one locker is inside at each
   moment exactly when no takeover finds the row of a locker that is inside.
   */
  lemma {:induction false} ExclusiveThroughoutIff(m: Limits, s: State, steps: seq<Step>)
    requires Inv(m, s) && Legal(m, s, steps) && FreshThroughout(m, s, steps)
    ensures ExclusiveThroughout(m, s, steps) <==> TakeOversSpare(m, s, steps)
    decreases |steps|
  {
    if steps != [] {
      var e := steps[0];
      if Spares(s, e) {
        SparingKeepsInv(m, s, e);
        ExclusiveThroughoutIff(m, Apply(m, s, e), steps[1..]);
      } else {
        TakeOverIsSafeIff(m, s, e.l);
        assert !ExclusiveThroughout(m, Apply(m, s, e), steps[1..]);
      }
    }
  }

  /** The row a takeover finds cannot be an inside locker's: nobody's it is, or too old for somebody's limit. */
  predicate Abandoned(m: Limits, t: Table, name: string, now: int) {
    name in t ==>
      || Locker(name, t[name].instance) !in m
      || exists k <- m :: k.name == name && now - t[name].acquiredAt > m[k]
  }

  /** What the replica sees: the table, its clock and the limits. */
  ghost predicate Seen(m: Limits, s: State, t: Table, now: int, l: Locker) {
    Inv(m, s) && Fresh(m, s) && s.table == t && s.now == now && Enabled(m, s, TakeOver(l))
  }

  /**
   From the table alone: the DELETE of a takeover is safe in every state that
   looks like this exactly when the row it finds is abandoned.
   */
  lemma TakeOverIsSafeToSeeIff(m: Limits, t: Table, now: int, l: Locker)
    requires l in m
    ensures (forall s :: Seen(m, s, t, now, l) ==> MutualExclusion(Apply(m, s, TakeOver(l))))
       <==> Abandoned(m, t, l.name, now)
  {
    if Abandoned(m, t, l.name, now) {
      forall s | Seen(m, s, t, now, l) ensures MutualExclusion(Apply(m, s, TakeOver(l))) {
        TakeOverIsSafeIff(m, s, l);
        if l.name in t {
          var owner := Locker(l.name, t[l.name].instance);
          assert Inside(s, owner) ==> Names(s.table, owner);
        }
      }
    } else {
      var s := OwnerInside(m, t, now, l);
      TakeOverIsSafeIff(m, s, l);
    }
  }

  /** A state that looks like this with the row's owner inside. */
  lemma OwnerInside(m: Limits, t: Table, now: int, l: Locker) returns (s: State)
    requires l in m && !Abandoned(m, t, l.name, now)
    ensures Seen(m, s, t, now, l) && Inside(s, Locker(l.name, t[l.name].instance))
  {
    var owner := Locker(l.name, t[l.name].instance);
    var phase := map k | k in m :: if k == owner then Holding else Idle;
    s := State(now, t, phase, map[l := Row("gone", now - m[l] - 1)]);
    assert forall k :: Inside(s, k) <==> k == owner;
  }

  /**
   Without the second assumption the lock is lost although every row is fresh:
   b judges a dead holder's row expired, c sweeps it and enters, b's DELETE by
   name removes c's row and b enters beside c.
   */
  lemma TakeOverRace() returns (m: Limits, s: State, steps: seq<Step>)
    ensures Init(m, s) && Legal(m, s, steps) && FreshThroughout(m, s, steps)
    ensures !MutualExclusion(After(m, s, steps))
  {
    var first, second, third;
    var t1: seq<State>, t2: seq<State>, t3: seq<State>;
    m, t1, first := RaceBegins();
    t2, second := RaceWaits(m, t1[2]);
    t3, third := RaceEnds(m, t2[5]);
    s := t1[0];
    hide Enabled, Apply, Fresh, Init, MutualExclusion;
    TraceIsRun(m, t1, first);
    TraceIsRun(m, t2, second);
    TraceIsRun(m, t3, third);
    RunsJoin(m, s, first, second);
    RunsJoin(m, s, first + second, third);
    steps := first + second + third;
  }

  const A := Locker("job", "a")
  const B := Locker("job", "b")
  const C := Locker("job", "c")

  /** a takes the lock and dies. */
  lemma RaceBegins() returns (m: Limits, trace: seq<State>, steps: seq<Step>)
    ensures m == map[A := 10, B := 10, C := 10]
    ensures |trace| == 3 && |steps| == 2 && Init(m, trace[0])
    ensures forall i | 0 <= i < 2 :: Enabled(m, trace[i], steps[i]) && Apply(m, trace[i], steps[i]) == trace[i + 1]
    ensures forall t <- trace :: Fresh(m, t)
    ensures trace[2] == State(0, map["job" := Row("a", 0)], map[A := Dead, B := Idle, C := Idle], map[])
  {
    m := map[A := 10, B := 10, C := 10];
    var dead := map["job" := Row("a", 0)];
    trace := [State(0, map[], map[A := Idle, B := Idle, C := Idle], map[]),
              State(0, dead, map[A := Entering, B := Idle, C := Idle], map[]),
              State(0, dead, map[A := Dead, B := Idle, C := Idle], map[])];
    steps := [Insert(A, 0), Crash(A)];
    assert forall l :: Inside(trace[1], l) ==> l == A;
    assert forall l :: !Inside(trace[2], l);
  }

  /** b sweeps and inserts in vain while the row is good, and then judges it expired. */
  lemma RaceWaits(m: Limits, s: State) returns (trace: seq<State>, steps: seq<Step>)
    requires m == map[A := 10, B := 10, C := 10]
    requires s == State(0, map["job" := Row("a", 0)], map[A := Dead, B := Idle, C := Idle], map[])
    ensures |trace| == 6 && |steps| == 5 && trace[0] == s
    ensures forall i | 0 <= i < 5 :: Enabled(m, trace[i], steps[i]) && Apply(m, trace[i], steps[i]) == trace[i + 1]
    ensures forall t <- trace :: Fresh(m, t)
    ensures trace[5] == State(11, map["job" := Row("a", 0)], map[A := Dead, B := Idle, C := Idle], map[B := Row("a", 0)])
  {
    var waiting, late := s.(now := 10), s.(now := 11);
    var judged := late.(expired := map[B := Row("a", 0)]);
    assert Apply(m, s, Tick(10)) == waiting && Apply(m, waiting, Tick(1)) == late;
    assert Apply(m, waiting, Sweep(B, 10)) == waiting && Apply(m, waiting, Insert(B, 10)) == waiting;
    assert Enabled(m, late, ReadExpired(B, 11)) && Apply(m, late, ReadExpired(B, 11)) == judged;
    NobodyInside(m, s);
    hide Apply, Enabled, Fresh;
    trace := [s, waiting, waiting, waiting, late, judged];
    steps := [Tick(10), Sweep(B, 10), Insert(B, 10), Tick(1), ReadExpired(B, 11)];
  }

  lemma NobodyInside(m: Limits, s: State)
    requires forall l <- s.phase :: s.phase[l].Dead? || s.phase[l].Idle?
    ensures forall now, expired :: Fresh(m, s.(now := now, expired := expired))
  {
  }

  /** c sweeps it and enters, b deletes c's row, sweeps and enters. */
  lemma RaceEnds(m: Limits, s: State) returns (trace: seq<State>, steps: seq<Step>)
    requires m == map[A := 10, B := 10, C := 10]
    requires s == State(11, map["job" := Row("a", 0)], map[A := Dead, B := Idle, C := Idle], map[B := Row("a", 0)])
    ensures |trace| == 6 && |steps| == 5 && trace[0] == s
    ensures forall i | 0 <= i < 5 :: Enabled(m, trace[i], steps[i]) && Apply(m, trace[i], steps[i]) == trace[i + 1]
    ensures forall t <- trace :: Fresh(m, t)
    ensures !MutualExclusion(trace[5])
  {
    var dead := map[A := Dead, B := Idle, C := Idle];
    trace := [s,
              State(11, map[], dead, s.expired),
              State(11, map["job" := Row("c", 11)], dead[C := Entering], s.expired),
              State(11, map[], dead[C := Entering], map[]),
              State(11, map[], dead[C := Entering], map[]),
              State(11, map["job" := Row("b", 11)], dead[C := Entering][B := Entering], map[])];
    steps := [Sweep(C, 11), Insert(C, 11), TakeOver(B), Sweep(B, 11), Insert(B, 11)];
    assert Inside(trace[5], B) && Inside(trace[5], C);
  }

  /** Two runs one after the other are a run. */
  lemma {:induction false} RunsJoin(m: Limits, s: State, a: seq<Step>, b: seq<Step>)
    requires Legal(m, s, a) && FreshThroughout(m, s, a)
    requires Legal(m, After(m, s, a), b) && FreshThroughout(m, After(m, s, a), b)
    ensures Legal(m, s, a + b) && FreshThroughout(m, s, a + b)
    ensures After(m, s, a + b) == After(m, After(m, s, a), b)
    decreases |a|
  {
    if a == [] {
      assert a + b == b;
    } else {
      RunsJoin(m, Apply(m, s, a[0]), a[1..], b);
      assert (a + b)[1..] == a[1..] + b && (a + b)[0] == a[0];
    }
  }

  /** A sequence of fresh states linked by enabled steps is a run. */
  lemma {:induction false} TraceIsRun(m: Limits, trace: seq<State>, steps: seq<Step>)
    requires |trace| == |steps| + 1
    requires forall i | 0 <= i < |steps| ::
      Enabled(m, trace[i], steps[i]) && Apply(m, trace[i], steps[i]) == trace[i + 1]
    requires forall i | 0 <= i < |trace| :: Fresh(m, trace[i])
    ensures Legal(m, trace[0], steps) && FreshThroughout(m, trace[0], steps)
    ensures After(m, trace[0], steps) == trace[|steps|]
    decreases |steps|
  {
    if steps != [] {
      TraceIsRun(m, trace[1..], steps[1..]);
    }
  }
}
