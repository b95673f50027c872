/**
 The renewal beat discharges the freshness assumption of the lock machine, and
 exactly the limits it discharges it for.

 A holder sleeps a whole beat after its last call returned, then reads its clock
 and sends the next UPDATE. `due[l]` is when it wakes; its call is over within a
 lag of that, and so is the INSERT within a lag of the clock it carries. A beat
 renews the row or is missed (the UPDATE failed). No more beats in a row are
 missed than tolerated.
 */
module LockBeat {
  import opened DistributedLock

  const RENEWAL_FRACTION := 3

  /** How many beats in a row may be missed, and how long a call may take. */
  datatype Slack = Slack(misses: nat, lag: nat)

  /** "A third leaves room for two missed beats." */
  const TOLERATED := Slack(2, 0)

  function Beat(maxLockTime: int): (beat: int)
    ensures beat >= 1
  {
    var third := maxLockTime / RENEWAL_FRACTION;
    if third > 1 then third else 1
  }

  datatype Timed = Timed(s: State, due: map<Locker, int>, missed: map<Locker, nat>)

  /**
   A statement that starts a new beat, due at `wakes`; a missed beat, after which
   the next is due at `wakes`; and every other step of the machine.
   */
  datatype TimedStep = Pulse(e: Step, wakes: int) | Miss(l: Locker, wakes: int) | Do(e: Step)

  /** The call begun or stamped at `since` returns within the lag, and the next one comes a beat later. */
  predicate Wakes(c: Slack, now: int, since: int, beat: int, wakes: int) {
    now + beat <= wakes <= since + c.lag + beat
  }

  ghost predicate TimedEnabled(m: Limits, c: Slack, t: Timed, e: TimedStep) {
    match e
    case Pulse(Insert(l, stamp), wakes) =>
      && Enabled(m, t.s, e.e) && l.name !in t.s.table
      && Wakes(c, t.s.now, stamp, Beat(m[l]), wakes)
    case Pulse(Renew(l, stamp), wakes) =>
      && Enabled(m, t.s, e.e) && Inside(t.s, l) && l in t.due
      && t.due[l] <= stamp && Wakes(c, t.s.now, t.due[l], Beat(m[l]), wakes)
    case Pulse(_, _) => false
    case Miss(l, wakes) =>
      && l in m && l in t.s.phase && t.s.phase[l].Holding?
      && l in t.due && l in t.missed && t.missed[l] < c.misses
      && t.due[l] <= t.s.now && Wakes(c, t.s.now, t.due[l], Beat(m[l]), wakes)
    case Do(e) =>
      && Enabled(m, t.s, e) && RowUnchanged(t.s, e)
      && (e.Tick? ==> forall l | Inside(t.s, l) && l in t.due :: t.s.now + e.dt <= t.due[l] + c.lag)
      && (e.Insert? ==> e.l.name in t.s.table)
      && (e.Renew? && Inside(t.s, e.l) && e.l.name in t.s.table ==> e.stamp >= t.s.table[e.l.name].acquiredAt)
  }

  function TimedApply(m: Limits, t: Timed, e: TimedStep): Timed
    requires !e.Miss? ==> Enabled(m, t.s, e.e)
    requires e.Pulse? ==> e.e.Insert? || e.e.Renew?
    requires e.Miss? ==> e.l in t.missed
  {
    match e
    case Pulse(e, wakes) => Timed(Apply(m, t.s, e), t.due[e.l := wakes], t.missed[e.l := 0])
    case Miss(l, wakes) => t.(due := t.due[l := wakes], missed := t.missed[l := t.missed[l] + 1])
    case Do(e) => t.(s := Apply(m, t.s, e))
  }

  ghost predicate TimedLegal(m: Limits, c: Slack, t: Timed, steps: seq<TimedStep>)
    decreases |steps|
  {
    steps == [] || (TimedEnabled(m, c, t, steps[0]) && TimedLegal(m, c, TimedApply(m, t, steps[0]), steps[1..]))
  }

  ghost function TimedAfter(m: Limits, c: Slack, t: Timed, steps: seq<TimedStep>): Timed
    requires TimedLegal(m, c, t, steps)
    decreases |steps|
  {
    if steps == [] then t else TimedAfter(m, c, TimedApply(m, t, steps[0]), steps[1..])
  }

  /** How far from the row's stamp a beat may be due after this many misses: a beat and a call each time. */
  function Reach(missed: nat, beat: int, lag: nat): int {
    (if missed == 0 then 0 else Reach(missed - 1, beat, lag)) + beat + lag
  }

  /** The UPDATE after the last tolerated miss comes within the limit of anybody who wants the same name. */
  ghost predicate BeatsFit(m: Limits, c: Slack) {
    forall l, k :: l in m && k in m && l.name == k.name ==>
      Reach(c.misses, Beat(m[l]), c.lag) + c.lag <= m[k]
  }

  ghost predicate OnBeat(m: Limits, c: Slack, t: Timed, l: Locker)
    requires l in m && Names(t.s.table, l)
  {
    && l in t.due && l in t.missed
    && t.missed[l] <= c.misses
    && t.s.now <= t.due[l] + c.lag
    && t.due[l] - t.s.table[l.name].acquiredAt <= Reach(t.missed[l], Beat(m[l]), c.lag)
  }

  lemma {:induction false} ReachGrows(a: nat, b: nat, beat: int, lag: nat)
    requires a <= b && beat >= 0
    ensures Reach(a, beat, lag) <= Reach(b, beat, lag)
  {
    if a < b {
      ReachGrows(a, b - 1, beat, lag);
    }
  }

  lemma {:induction false} ReachIs(misses: nat, beat: int, lag: nat)
    ensures Reach(misses, beat, lag) == (misses + 1) * (beat + lag)
  {
    if misses > 0 {
      ReachIs(misses - 1, beat, lag);
    }
  }

  ghost predicate TimedInv(m: Limits, c: Slack, t: Timed) {
    Inv(m, t.s) && forall l | Inside(t.s, l) :: OnBeat(m, c, t, l)
  }

  lemma OnBeatIsFresh(m: Limits, c: Slack, t: Timed)
    requires TimedInv(m, c, t) && BeatsFit(m, c)
    ensures Fresh(m, t.s)
  {
    forall l, k | Inside(t.s, l) && Names(t.s.table, l) && k in m && k.name == l.name
      ensures t.s.now - t.s.table[l.name].acquiredAt <= m[k]
    {
      assert OnBeat(m, c, t, l);
      ReachGrows(t.missed[l], c.misses, Beat(m[l]), c.lag);
    }
  }

  /** A step that starts no beat leaves an inside locker's row alone, or renews it. */
  lemma RowStays(m: Limits, s: State, e: Step, l: Locker)
    requires Enabled(m, s, e) && Inside(s, l) && Names(s.table, l) && Names(Apply(m, s, e).table, l)
    requires e.Renew? && e.l == l ==> e.stamp >= s.table[l.name].acquiredAt
    ensures Apply(m, s, e).table[l.name].acquiredAt >= s.table[l.name].acquiredAt
  {
    assert e.Renew? && e.l.name == l.name && Names(s.table, e.l) ==> e.l == l;
  }

  /** A pulse touches no row but its own locker's. */
  lemma PulseIsOwn(m: Limits, s: State, e: Step, l: Locker)
    requires Enabled(m, s, e) && (e.Insert? || e.Renew?) && e.l != l && Names(Apply(m, s, e).table, l)
    ensures Names(s.table, l) && Apply(m, s, e).table[l.name] == s.table[l.name]
    ensures Inside(Apply(m, s, e), l) <==> Inside(s, l)
  {
  }

  lemma EntersByPulse(m: Limits, s: State, e: Step, l: Locker)
    requires Enabled(m, s, e) && Inside(Apply(m, s, e), l) && !(e.Insert? && e.l == l && l.name !in s.table)
    ensures Inside(s, l)
  {
  }

  /** A statement that starts a beat leaves its locker on that beat, and every other on its own. */
  lemma PulseKeepsBeat(m: Limits, c: Slack, t: Timed, e: TimedStep, l: Locker)
    requires TimedInv(m, c, t) && e.Pulse? && TimedEnabled(m, c, t, e)
    requires Inv(m, Apply(m, t.s, e.e)) && Inside(Apply(m, t.s, e.e), l)
    ensures OnBeat(m, c, TimedApply(m, t, e), l)
  {
    var s' := Apply(m, t.s, e.e);
    assert Names(s'.table, l);
    if e.e.l == l {
      assert e.e.Renew? ==> Names(t.s.table, l);
      hide Inv, TimedInv;
      assert s'.table[l.name].acquiredAt == e.e.stamp;
      assert Reach(0, Beat(m[l]), c.lag) == Beat(m[l]) + c.lag;
    } else {
      PulseIsOwn(m, t.s, e.e, l);
      assert OnBeat(m, c, t, l);
    }
  }

  /** Any other step leaves every inside locker on the beat it is on. */
  lemma DoKeepsBeat(m: Limits, c: Slack, t: Timed, e: Step, l: Locker)
    requires TimedInv(m, c, t) && TimedEnabled(m, c, t, Do(e))
    requires Inv(m, Apply(m, t.s, e)) && Inside(Apply(m, t.s, e), l)
    ensures OnBeat(m, c, TimedApply(m, t, Do(e)), l)
  {
    EntersByPulse(m, t.s, e, l);
    assert Names(Apply(m, t.s, e).table, l) && Names(t.s.table, l) && OnBeat(m, c, t, l);
    RowStays(m, t.s, e, l);
    hide Inv, TimedInv, Apply, Reach, Beat;
  }

  /** A miss puts the next beat off by a beat and a call, and no other locker's. */
  lemma MissKeepsBeat(m: Limits, c: Slack, t: Timed, e: TimedStep, l: Locker)
    requires TimedInv(m, c, t) && e.Miss? && TimedEnabled(m, c, t, e) && Inside(t.s, l)
    ensures OnBeat(m, c, TimedApply(m, t, e), l)
  {
    assert OnBeat(m, c, t, l);
  }

  lemma TimedStepKeepsInv(m: Limits, c: Slack, t: Timed, e: TimedStep)
    requires TimedInv(m, c, t) && BeatsFit(m, c) && TimedEnabled(m, c, t, e)
    ensures TimedInv(m, c, TimedApply(m, t, e))
  {
    hide Fresh, BeatsFit, Reach, Beat, Enabled, RowUnchanged;
    var t' := TimedApply(m, t, e);
    OnBeatIsFresh(m, c, t);
    match e {
      case Pulse(d, _) =>
        StepKeepsInv(m, t.s, d);
        forall l | Inside(t'.s, l) ensures OnBeat(m, c, t', l) { PulseKeepsBeat(m, c, t, e, l); }
      case Miss(k, _) =>
        forall l | Inside(t'.s, l) ensures OnBeat(m, c, t', l) { MissKeepsBeat(m, c, t, e, l); }
      case Do(d) =>
        StepKeepsInv(m, t.s, d);
        forall l | Inside(t'.s, l) ensures OnBeat(m, c, t', l) { DoKeepsBeat(m, c, t, d, l); }
    }
  }

  /**
   Over every run whose lockers keep the beat, nobody's row goes stale under it
   and at most one locker is inside: the freshness assumption is discharged.
   */
  lemma {:induction false} BeatKeepsTheLock(m: Limits, c: Slack, t: Timed, steps: seq<TimedStep>)
    requires TimedInv(m, c, t) && BeatsFit(m, c) && TimedLegal(m, c, t, steps)
    ensures MutualExclusion(TimedAfter(m, c, t, steps).s)
    ensures Fresh(m, TimedAfter(m, c, t, steps).s)
    ensures TimedInv(m, c, TimedAfter(m, c, t, steps))
    decreases |steps|
  {
    if steps == [] {
      OnBeatIsFresh(m, c, t);
    } else {
      TimedStepKeepsInv(m, c, t, steps[0]);
      BeatKeepsTheLock(m, c, TimedApply(m, t, steps[0]), steps[1..]);
    }
  }

  lemma TimedRunsStart(m: Limits, c: Slack, t: Timed)
    requires Init(m, t.s)
    ensures TimedInv(m, c, t)
  {
  }

  // ---------- exactly the limits that fit ----------

  lemma {:induction false} TimedAppend(m: Limits, c: Slack, t: Timed, steps: seq<TimedStep>, e: TimedStep)
    requires TimedLegal(m, c, t, steps) && TimedEnabled(m, c, TimedAfter(m, c, t, steps), e)
    ensures TimedLegal(m, c, t, steps + [e])
    ensures TimedAfter(m, c, t, steps + [e]) == TimedApply(m, TimedAfter(m, c, t, steps), e)
    decreases |steps|
  {
    if steps == [] {
      assert [e][1..] == [] && TimedLegal(m, c, TimedApply(m, t, e), []);
    } else {
      assert (steps + [e])[1..] == steps[1..] + [e];
      TimedAppend(m, c, TimedApply(m, t, steps[0]), steps[1..], e);
    }
  }

  /** l alone holds its name since 0, has missed this many beats, and is due as late as may be. */
  ghost predicate AsLateAsMayBe(m: Limits, c: Slack, t: Timed, l: Locker, misses: nat) {
    && t.s.table == map[l.name := Row(l.instance, 0)]
    && t.s.phase.Keys == m.Keys && l in m && t.s.phase[l].Holding?
    && (forall k <- m :: k != l ==> t.s.phase[k].Idle?)
    && t.due == map[l := Reach(misses, Beat(m[l]), c.lag)] && t.missed == map[l := misses]
    && t.s.now <= t.due[l] + c.lag
  }

  lemma NoSteps(m: Limits, c: Slack, t: Timed)
    ensures TimedLegal(m, c, t, []) && TimedAfter(m, c, t, []) == t
  {
  }

  /** The INSERT takes the whole lag. */
  lemma LateInsert(m: Limits, c: Slack, l: Locker) returns (t: Timed, steps: seq<TimedStep>)
    requires l in m
    ensures Init(m, t.s) && TimedLegal(m, c, t, steps)
    ensures AsLateAsMayBe(m, c, TimedAfter(m, c, t, steps), l, 0)
  {
    hide TimedLegal, TimedAfter, Beat;
    t := Timed(State(0, map[], map k | k in m :: Idle, map[]), map[], map[]);
    var tick, insert, flag := Do(Tick(c.lag)), Pulse(Insert(l, 0), c.lag + Beat(m[l])), Do(SetFlag(l));
    assert Reach(0, Beat(m[l]), c.lag) == Beat(m[l]) + c.lag;
    NoSteps(m, c, t);
    TimedAppend(m, c, t, [], tick);
    TimedAppend(m, c, t, [] + [tick], insert);
    TimedAppend(m, c, t, [] + [tick] + [insert], flag);
    steps := [] + [tick] + [insert] + [flag];
  }

  /** Every call takes the whole lag and every beat so far is missed. */
  lemma {:induction false} LateRun(m: Limits, c: Slack, l: Locker, misses: nat)
    returns (t: Timed, steps: seq<TimedStep>)
    requires l in m && misses <= c.misses
    ensures Init(m, t.s) && TimedLegal(m, c, t, steps)
    ensures AsLateAsMayBe(m, c, TimedAfter(m, c, t, steps), l, misses)
  {
    hide *;
    if misses == 0 {
      t, steps := LateInsert(m, c, l);
    } else {
      t, steps := LateRun(m, c, l, misses - 1);
      steps := AtTheEnd(m, c, t, steps, l, misses - 1);
      steps := OneMoreMiss(m, c, t, steps, l, misses);
    }
  }

  lemma OneMoreMiss(m: Limits, c: Slack, t: Timed, steps: seq<TimedStep>, l: Locker, misses: nat)
    returns (longer: seq<TimedStep>)
    requires 0 < misses <= c.misses && TimedLegal(m, c, t, steps)
    requires AsLateAsMayBe(m, c, TimedAfter(m, c, t, steps), l, misses - 1)
    requires TimedAfter(m, c, t, steps).s.now == Reach(misses - 1, Beat(m[l]), c.lag) + c.lag
    ensures TimedLegal(m, c, t, longer)
    ensures AsLateAsMayBe(m, c, TimedAfter(m, c, t, longer), l, misses)
  {
    hide TimedLegal, TimedAfter;
    var last := TimedAfter(m, c, t, steps);
    var miss := Miss(l, last.s.now + Beat(m[l]));
    assert Reach(misses, Beat(m[l]), c.lag) == Reach(misses - 1, Beat(m[l]), c.lag) + Beat(m[l]) + c.lag;
    TimedAppend(m, c, t, steps, miss);
    longer := steps + [miss];
  }

  /** Time runs on to the end of the call that is due. */
  lemma AtTheEnd(m: Limits, c: Slack, t: Timed, steps: seq<TimedStep>, l: Locker, misses: nat)
    returns (longer: seq<TimedStep>)
    requires TimedLegal(m, c, t, steps) && AsLateAsMayBe(m, c, TimedAfter(m, c, t, steps), l, misses)
    ensures TimedLegal(m, c, t, longer)
    ensures AsLateAsMayBe(m, c, TimedAfter(m, c, t, longer), l, misses)
    ensures TimedAfter(m, c, t, longer).s.now == Reach(misses, Beat(m[l]), c.lag) + c.lag
  {
    var last := TimedAfter(m, c, t, steps);
    var tick := Do(Tick(Reach(misses, Beat(m[l]), c.lag) + c.lag - last.s.now));
    TimedAppend(m, c, t, steps, tick);
    longer := steps + [tick];
  }

  /** When the beats do not fit, a holder that kept every rule finds its row swept. */
  lemma SweptWhileInside(m: Limits, c: Slack, l: Locker, k: Locker) returns (t: Timed, steps: seq<TimedStep>)
    requires l in m && k in m && l.name == k.name && Reach(c.misses, Beat(m[l]), c.lag) + c.lag > m[k]
    ensures Init(m, t.s) && TimedLegal(m, c, t, steps)
    ensures var s := TimedAfter(m, c, t, steps).s;
      Inside(s, l) && l.name !in s.table && k in s.phase && (k != l ==> s.phase[k].Idle?)
  {
    t, steps := LateRun(m, c, l, c.misses);
    steps := AtTheEnd(m, c, t, steps, l, c.misses);
    var sweep := Do(Sweep(k, TimedAfter(m, c, t, steps).s.now));
    TimedAppend(m, c, t, steps, sweep);
    steps := steps + [sweep];
  }

  /** And another replica that wants the name enters beside it. */
  lemma TwoInside(m: Limits, c: Slack, l: Locker, k: Locker) returns (t: Timed, steps: seq<TimedStep>)
    requires l in m && k in m && l != k && l.name == k.name
    requires Reach(c.misses, Beat(m[l]), c.lag) + c.lag > m[k]
    ensures Init(m, t.s) && TimedLegal(m, c, t, steps)
    ensures Inside(TimedAfter(m, c, t, steps).s, l) && Inside(TimedAfter(m, c, t, steps).s, k)
  {
    t, steps := SweptWhileInside(m, c, l, k);
    var now := TimedAfter(m, c, t, steps).s.now;
    var insert := Pulse(Insert(k, now), now + Beat(m[k]));
    TimedAppend(m, c, t, steps, insert);
    steps := steps + [insert];
  }

  /** The beat keeps the lock over every run from an empty table exactly when the beats fit. */
  lemma BeatKeepsTheLockIff(m: Limits, c: Slack)
    ensures (forall t: Timed, steps :: Init(m, t.s) && TimedLegal(m, c, t, steps) ==>
                                  MutualExclusion(TimedAfter(m, c, t, steps).s))
       <==> BeatsFit(m, c)
  {
    if BeatsFit(m, c) {
      forall t: Timed, steps | Init(m, t.s) && TimedLegal(m, c, t, steps)
        ensures MutualExclusion(TimedAfter(m, c, t, steps).s)
      {
        TimedRunsStart(m, c, t);
        BeatKeepsTheLock(m, c, t, steps);
      }
    } else {
      var l, k :| l in m && k in m && l.name == k.name && Reach(c.misses, Beat(m[l]), c.lag) + c.lag > m[k];
      var t, steps := SweptWhileInside(m, c, l, k);
      var s := TimedAfter(m, c, t, steps).s;
      assert !Names(s.table, l);
    }
  }

  /**
   With one limit for everybody: two misses fit exactly when the limit is three
   seconds or more and calls take no time at all, because the beats use up the
   limit to within the remainder; one miss leaves a third for three calls.
   */
  lemma BeatsFitIff(m: Limits, limit: int, c: Slack)
    requires m.Keys != {} && forall l <- m :: m[l] == limit
    ensures BeatsFit(m, c) <==> (c.misses + 1) * Beat(limit) + (c.misses + 2) * c.lag <= limit
    ensures c.misses == 2 ==> (BeatsFit(m, c) <==> limit >= 3 && c.lag == 0)
    ensures c.misses == 1 && limit >= 3 ==> (BeatsFit(m, c) <==> 3 * c.lag <= limit / 3 + limit % 3)
    ensures BeatsFit(m, TOLERATED) <==> limit >= 3
  {
    var l :| l in m;
    var beat := Beat(limit);
    ReachIs(c.misses, beat, c.lag);
    ReachIs(2, beat, 0);
    assert (c.misses + 1) * (beat + c.lag) == (c.misses + 1) * beat + (c.misses + 1) * c.lag;
    assert (c.misses + 2) * c.lag == (c.misses + 1) * c.lag + c.lag;
    assert limit == 3 * (limit / 3) + limit % 3;
  }

  /** Ten minutes, two misses and calls of one second: two replicas end up inside. */
  lemma TwoMissesAndASecond() returns (m: Limits, t: Timed, steps: seq<TimedStep>)
    ensures m == map[A := 600, B := 600] && Init(m, t.s) && TimedLegal(m, Slack(2, 1), t, steps)
    ensures Inside(TimedAfter(m, Slack(2, 1), t, steps).s, A) && Inside(TimedAfter(m, Slack(2, 1), t, steps).s, B)
  {
    m := map[A := 600, B := 600];
    ReachIs(2, Beat(600), 1);
    t, steps := TwoInside(m, Slack(2, 1), A, B);
  }
}
