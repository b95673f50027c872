/**
 A replica's cache of what the database says: values by key, each good for a
 lifetime, loaded outside the lock by any number of threads at once.
 */
module ReplicaCaches {
  import opened Wrappers

  /** What the source says of a key at an instant. */
  type Source = (string, int) -> string

  /** `readAt`, the instant the source was read at, is the model's own mark on a value. */
  datatype Entry = Entry(value: string, readAt: int, expires: int)

  /** A thread inside get: its clock read, its look-up missed, its load done. */
  datatype Thread =
    | Begun(key: string, at: int)
    | Missed(key: string, at: int)
    | Loaded(key: string, at: int, value: string, readAt: int)

  /** A get that returned: when it began, when it returned, and what. */
  datatype Return = Return(key: string, at: int, done: int, value: string, readAt: int)

  datatype State = State(now: int, entries: map<string, Entry>, threads: map<int, Thread>, answers: seq<Return>)

  /** A lifetime, and how long a load may take from reading the source to storing. */
  datatype Policy = Policy(ttl: int, load: int)

  datatype Step =
    | Tick(dt: nat)
    | Begin(id: int, key: string)
    | LookUp(id: int)
    | Read(id: int)
    | Store(id: int)
    | Fail(id: int)
    | Invalidate(which: Option<string>)

  predicate Enabled(p: Policy, s: State, e: Step) {
    match e
    case Tick(_) => true
    case Begin(id, _) => id !in s.threads
    case LookUp(id) => id in s.threads && s.threads[id].Begun?
    case Read(id) => id in s.threads && s.threads[id].Missed?
    case Store(id) => id in s.threads && s.threads[id].Loaded? && s.now <= s.threads[id].readAt + p.load
    case Fail(id) => id in s.threads && s.threads[id].Missed?
    case Invalidate(_) => true
  }

  predicate Hit(s: State, t: Thread) {
    t.key in s.entries && s.entries[t.key].expires > t.at
  }

  function Dropped(entries: map<string, Entry>, key: Option<string>): map<string, Entry> {
    if key.None? then map[] else entries - {key.value}
  }

  function Apply(p: Policy, source: Source, s: State, e: Step): State
    requires Enabled(p, s, e)
  {
    match e
    case Tick(dt) => s.(now := s.now + dt)
    case Begin(id, key) => s.(threads := s.threads[id := Begun(key, s.now)])
    case LookUp(id) =>
      var t := s.threads[id];
      if Hit(s, t) then
        var entry := s.entries[t.key];
        s.(threads := s.threads - {id},
           answers := s.answers + [Return(t.key, t.at, s.now, entry.value, entry.readAt)])
      else s.(threads := s.threads[id := Missed(t.key, t.at)])
    case Read(id) =>
      var t := s.threads[id];
      s.(threads := s.threads[id := Loaded(t.key, t.at, source(t.key, s.now), s.now)])
    case Store(id) =>
      var t := s.threads[id];
      s.(entries := s.entries[t.key := Entry(t.value, t.readAt, s.now + p.ttl)],
         threads := s.threads - {id},
         answers := s.answers + [Return(t.key, t.at, s.now, t.value, t.readAt)])
    case Fail(id) => s.(threads := s.threads - {id})
    case Invalidate(which) => s.(entries := Dropped(s.entries, which))
  }

  predicate Legal(p: Policy, source: Source, s: State, steps: seq<Step>)
    decreases |steps|
  {
    steps == [] || (Enabled(p, s, steps[0]) && Legal(p, source, Apply(p, source, s, steps[0]), steps[1..]))
  }

  function After(p: Policy, source: Source, s: State, steps: seq<Step>): State
    requires Legal(p, source, s, steps)
    decreases |steps|
  {
    if steps == [] then s else After(p, source, Apply(p, source, s, steps[0]), steps[1..])
  }

  predicate Init(s: State) {
    s.entries == map[] && s.threads == map[] && s.answers == []
  }

  // ---------- bounded staleness ----------

  /** The value was the source's, at an instant at most a lifetime and a load before the get began. */
  predicate Recent(p: Policy, source: Source, r: Return) {
    r.value == source(r.key, r.readAt) && r.at - p.ttl - p.load < r.readAt <= r.done
  }

  /** Every entry holds what the source said once, and no longer than a load and a lifetime from then. */
  ghost predicate Tied(p: Policy, source: Source, entries: map<string, Entry>, now: int) {
    forall key <- entries ::
      var entry := entries[key];
      && entry.value == source(key, entry.readAt)
      && entry.readAt <= now && entry.expires <= entry.readAt + p.load + p.ttl
  }

  ghost predicate Inv(p: Policy, source: Source, s: State) {
    && Tied(p, source, s.entries, s.now)
    && (forall id <- s.threads :: s.threads[id].at <= s.now)
    && (forall id <- s.threads :: s.threads[id].Loaded? ==>
          var t := s.threads[id];
          t.value == source(t.key, t.readAt) && t.at <= t.readAt <= s.now)
    && (forall i :: 0 <= i < |s.answers| ==> Recent(p, source, s.answers[i]))
  }

  lemma StepKeepsInv(p: Policy, source: Source, s: State, e: Step)
    requires p.ttl > 0 && p.load >= 0 && Inv(p, source, s) && Enabled(p, s, e)
    ensures Inv(p, source, Apply(p, source, s, e))
  {
  }

  lemma {:induction false} InvOverRuns(p: Policy, source: Source, s: State, steps: seq<Step>)
    requires p.ttl > 0 && p.load >= 0 && Inv(p, source, s) && Legal(p, source, s, steps)
    ensures Inv(p, source, After(p, source, s, steps))
    decreases |steps|
  {
    if steps != [] {
      StepKeepsInv(p, source, s, steps[0]);
      InvOverRuns(p, source, Apply(p, source, s, steps[0]), steps[1..]);
    }
  }

  /** Whatever the threads do, every value returned is recent. */
  lemma BoundedStaleness(p: Policy, source: Source, s: State, steps: seq<Step>, i: nat)
    requires p.ttl > 0 && p.load >= 0 && Init(s) && Legal(p, source, s, steps)
    requires i < |After(p, source, s, steps).answers|
    ensures Recent(p, source, After(p, source, s, steps).answers[i])
  {
    InvOverRuns(p, source, s, steps);
  }

  // ---------- what an invalidate promises ----------

  lemma {:induction false} ReturnsGrow(p: Policy, source: Source, s: State, steps: seq<Step>)
    requires Legal(p, source, s, steps)
    ensures s.answers <= After(p, source, s, steps).answers
    decreases |steps|
  {
    if steps != [] {
      ReturnsGrow(p, source, Apply(p, source, s, steps[0]), steps[1..]);
    }
  }

  /** A load of this key that read the source before now and may still store what it read. */
  predicate InFlight(p: Policy, s: State, key: string, id: int) {
    && id in s.threads && s.threads[id].Loaded? && s.threads[id].key == key
    && s.threads[id].readAt < s.now <= s.threads[id].readAt + p.load
  }

  /** Every get begun from now on returns, whatever happens, a value read from now on. */
  ghost predicate Holds(p: Policy, source: Source, s: State, key: string) {
    forall steps, i ::
      Legal(p, source, s, steps) && |s.answers| <= i < |After(p, source, s, steps).answers|
      && After(p, source, s, steps).answers[i].key == key && After(p, source, s, steps).answers[i].at >= s.now
      ==> After(p, source, s, steps).answers[i].readAt >= s.now
  }

  /** Invalidating a key holds exactly when no load of it is in flight. */
  lemma InvalidateHoldsIff(p: Policy, source: Source, s: State, key: string, all: bool)
    requires p.ttl > 0 && Enabled(p, s, Invalidate(if all then None else Some(key)))
    ensures Holds(p, source, Apply(p, source, s, Invalidate(if all then None else Some(key))), key)
       <==> forall id :: !InFlight(p, s, key, id)
  {
    var s1 := Apply(p, source, s, Invalidate(if all then None else Some(key)));
    assert forall id :: InFlight(p, s1, key, id) <==> InFlight(p, s, key, id);
    if id :| InFlight(p, s1, key, id) {
      var steps := StoresLate(p, source, s1, key, id);
      var s' := After(p, source, s1, steps);
      assert s'.answers[|s1.answers| + 1].readAt < s1.now;
    } else {
      forall id | id in s1.threads && s1.threads[id].Loaded? && s1.threads[id].key == key
        ensures s1.threads[id].readAt < s1.now ==> s1.now > s1.threads[id].readAt + p.load
      {
        assert !InFlight(p, s1, key, id);
      }
      forall steps, i | Legal(p, source, s1, steps) && |s1.answers| <= i < |After(p, source, s1, steps).answers|
                        && After(p, source, s1, steps).answers[i].key == key
        ensures After(p, source, s1, steps).answers[i].readAt >= s1.now
      {
        LateOnesNeverStore(p, source, s1, steps, key, s1.now, i);
      }
    }
  }

  /** The load in flight stores its older value, and the next get finds it. */
  lemma StoresLate(p: Policy, source: Source, s: State, key: string, id: int) returns (steps: seq<Step>)
    requires p.ttl > 0 && InFlight(p, s, key, id)
    ensures Legal(p, source, s, steps)
    ensures var answers := After(p, source, s, steps).answers;
            |answers| == |s.answers| + 2
            && answers[|s.answers| + 1] == Return(key, s.now, s.now, s.threads[id].value, s.threads[id].readAt)
  {
    var store, begin, look := Store(id), Begin(id, key), LookUp(id);
    var s1 := Apply(p, source, s, store);
    var s2 := Apply(p, source, s1, begin);
    assert Hit(s2, s2.threads[id]);
    var s3 := Apply(p, source, s2, look);
    assert [look][1..] == [] && [begin, look][1..] == [look] && [store, begin, look][1..] == [begin, look];
    assert Legal(p, source, s3, []) && Legal(p, source, s2, [look]) && After(p, source, s2, [look]) == s3;
    assert Legal(p, source, s1, [begin, look]) && After(p, source, s1, [begin, look]) == s3;
    steps := [store, begin, look];
  }

  /**
   From an empty cache: a get reads the source at 0, the key is invalidated at 1,
   the load stores what it read, and a get begun after that is answered with it.
   */
  lemma StoredLate(p: Policy, source: Source, key: string) returns (s: State, steps: seq<Step>, rest: seq<Step>)
    requires p.ttl > 0 && p.load > 0
    ensures Init(s) && steps == [Begin(0, key), LookUp(0), Read(0), Tick(1), Invalidate(Some(key))]
    ensures Legal(p, source, s, steps) && Legal(p, source, After(p, source, s, steps), rest)
    ensures After(p, source, s, steps).now == 1
    ensures var answers := After(p, source, After(p, source, s, steps), rest).answers;
            |answers| == 2 && answers[1] == Return(key, 1, 1, source(key, 0), 0)
  {
    s := State(0, map[], map[], []);
    var s1 := Apply(p, source, s, Begin(0, key));
    var s2 := Apply(p, source, s1, LookUp(0));
    var s3 := Apply(p, source, s2, Read(0));
    var s4 := Apply(p, source, s3, Tick(1));
    var s5 := Apply(p, source, s4, Invalidate(Some(key)));
    var late := [Tick(1), Invalidate(Some(key))];
    Leads(p, source, s4, Invalidate(Some(key)), []);
    Leads(p, source, s3, Tick(1), [Invalidate(Some(key))]);
    Leads(p, source, s2, Read(0), late);
    Leads(p, source, s1, LookUp(0), [Read(0)] + late);
    Leads(p, source, s, Begin(0, key), [LookUp(0)] + ([Read(0)] + late));
    steps := [Begin(0, key), LookUp(0), Read(0), Tick(1), Invalidate(Some(key))];
    assert steps == [Begin(0, key)] + ([LookUp(0)] + ([Read(0)] + late));
    rest := StoresLate(p, source, s5, key, 0);
  }

  /** With no load in flight, a load that read earlier has run out of time, and what is kept stays new. */
  ghost predicate OldOnesAreLate(p: Policy, s: State, key: string, since: int) {
    && since <= s.now
    && (key in s.entries ==> s.entries[key].readAt >= since)
    && forall id <- s.threads ::
         s.threads[id].Loaded? && s.threads[id].key == key && s.threads[id].readAt < since ==>
           s.now > s.threads[id].readAt + p.load
  }

  lemma {:induction false} LateOnesNeverStore(p: Policy, source: Source, s: State, steps: seq<Step>, key: string,
                                              since: int, i: nat)
    requires OldOnesAreLate(p, s, key, since) && Legal(p, source, s, steps)
    requires |s.answers| <= i < |After(p, source, s, steps).answers|
    requires After(p, source, s, steps).answers[i].key == key
    ensures After(p, source, s, steps).answers[i].readAt >= since
    decreases |steps|
  {
    if steps != [] {
      var s1 := Apply(p, source, s, steps[0]);
      ReturnsGrow(p, source, s1, steps[1..]);
      if i >= |s1.answers| {
        LateOnesNeverStore(p, source, s1, steps[1..], key, since, i);
      }
    }
  }

  // ---------- the object ----------

  /** A get nobody disturbs: its clock read, its load's instant and outcome, and when it stores. */
  datatype Call = Call(key: string, began: int, readAt: int, loaded: Option<string>, stored: int)

  /** The load gives what the source says, in order and in time. */
  predicate Loads(p: Policy, source: Source, c: Call) {
    && c.began <= c.readAt <= c.stored <= c.readAt + p.load
    && (c.loaded.Some? ==> c.loaded.value == source(c.key, c.readAt))
  }

  predicate Fresh(entries: map<string, Entry>, key: string, now: int) {
    key in entries && entries[key].expires > now
  }

  /** The steps of the machine it takes. */
  function StepsOf(entries: map<string, Entry>, c: Call, id: int): seq<Step>
    requires c.began <= c.readAt <= c.stored
  {
    [Begin(id, c.key), LookUp(id)]
    + (if Fresh(entries, c.key, c.began) then []
       else if c.loaded.None? then [Fail(id)]
       else [Tick(c.readAt - c.began), Read(id), Tick(c.stored - c.readAt), Store(id)])
  }

  /** A step at the front of a legal run. */
  lemma Leads(p: Policy, source: Source, s: State, e: Step, steps: seq<Step>)
    requires Enabled(p, s, e) && Legal(p, source, Apply(p, source, s, e), steps)
    ensures Legal(p, source, s, [e] + steps)
    ensures After(p, source, s, [e] + steps) == After(p, source, Apply(p, source, s, e), steps)
  {
    assert ([e] + steps)[1..] == steps;
  }

  /** Those steps are a run from every state with these entries, and this is what it leaves and answers. */
  lemma CallIsARun(p: Policy, source: Source, s: State, c: Call, id: int)
    requires Loads(p, source, c) && s.now == c.began && id !in s.threads
    ensures Legal(p, source, s, StepsOf(s.entries, c, id))
    ensures var s' := After(p, source, s, StepsOf(s.entries, c, id));
      if Fresh(s.entries, c.key, c.began) then
        s'.entries == s.entries
        && s'.answers == s.answers + [Return(c.key, c.began, c.began, s.entries[c.key].value, s.entries[c.key].readAt)]
      else if c.loaded.None? then s'.entries == s.entries && s'.answers == s.answers
      else
        s'.entries == s.entries[c.key := Entry(c.loaded.value, c.readAt, c.stored + p.ttl)]
        && s'.answers == s.answers + [Return(c.key, c.began, c.stored, c.loaded.value, c.readAt)]
  {
    var begin, look := Begin(id, c.key), LookUp(id);
    var s1 := Apply(p, source, s, begin);
    var s2 := Apply(p, source, s1, look);
    var rest := StepsOf(s.entries, c, id)[2..];
    assert StepsOf(s.entries, c, id) == [begin] + ([look] + rest);
    assert Hit(s1, s1.threads[id]) <==> Fresh(s.entries, c.key, c.began);
    if Fresh(s.entries, c.key, c.began) {
      assert rest == [];
    } else if c.loaded.None? {
      assert rest == [Fail(id)] + [];
      Leads(p, source, s2, Fail(id), []);
    } else {
      MissedIsARun(p, source, s2, c, id);
      assert rest == [Tick(c.readAt - c.began), Read(id), Tick(c.stored - c.readAt), Store(id)];
    }
    Leads(p, source, s1, look, rest);
    Leads(p, source, s, begin, [look] + rest);
  }

  lemma MissedIsARun(p: Policy, source: Source, s: State, c: Call, id: int)
    requires Loads(p, source, c) && c.loaded.Some? && s.now == c.began
    requires id in s.threads && s.threads[id] == Missed(c.key, c.began)
    ensures var steps := [Tick(c.readAt - c.began), Read(id), Tick(c.stored - c.readAt), Store(id)];
      && Legal(p, source, s, steps)
      && After(p, source, s, steps).entries
      == s.entries[c.key := Entry(c.loaded.value, c.readAt, c.stored + p.ttl)]
      && After(p, source, s, steps).answers
      == s.answers + [Return(c.key, c.began, c.stored, c.loaded.value, c.readAt)]
  {
    var a, b := Tick(c.readAt - c.began), Tick(c.stored - c.readAt);
    var s1 := Apply(p, source, s, a);
    var s2 := Apply(p, source, s1, Read(id));
    var s3 := Apply(p, source, s2, b);
    Leads(p, source, s3, Store(id), []);
    Leads(p, source, s2, b, [Store(id)] + []);
    Leads(p, source, s1, Read(id), [b] + ([Store(id)] + []));
    Leads(p, source, s, a, [Read(id)] + ([b] + ([Store(id)] + [])));
    assert [a, Read(id), b, Store(id)] == [a] + ([Read(id)] + ([b] + ([Store(id)] + [])));
  }

  class ReplicaCache {
    const ttl: int
    var entries: map<string, Entry>

    constructor (ttl: int)
      ensures this.ttl == ttl && entries == map[]
    {
      this.ttl, this.entries := ttl, map[];
    }

    /**
     One get that nobody disturbs. It leaves and answers what its steps do in the
     machine, from every state with these entries; entries tied to the source stay
     so; and what it answers the source said no longer than a lifetime and a load
     before the get began. Asked again within the lifetime it answers the same.
     */
    method Get(ghost p: Policy, ghost source: Source, c: Call) returns (value: Option<string>)
      requires p.ttl == ttl > 0 && Loads(p, source, c)
      modifies this`entries
      ensures forall s: State, id {:trigger After(p, source, s, StepsOf(s.entries, c, id))} ::
        s.entries == old(entries) && s.now == c.began && id !in s.threads ==>
          && Legal(p, source, s, StepsOf(s.entries, c, id))
          && var s' := After(p, source, s, StepsOf(s.entries, c, id));
             && s'.entries == entries
             && (if value.None? then s'.answers == s.answers
                 else |s'.answers| == |s.answers| + 1 && s'.answers[|s.answers|].value == value.value)
      ensures Tied(p, source, old(entries), c.began) ==>
        && Tied(p, source, entries, c.stored)
        && (value.Some? ==>
              exists t :: c.began - ttl - p.load < t <= c.stored && value.value == source(c.key, t))
      ensures value.Some? ==>
        c.key in entries && entries[c.key].value == value.value
        && (Fresh(old(entries), c.key, c.began) || entries[c.key].expires == c.stored + ttl)
      ensures value.None? <==> !Fresh(old(entries), c.key, c.began) && c.loaded.None?
    {
      forall s: State, id | s.entries == entries && s.now == c.began && id !in s.threads
        ensures Legal(p, source, s, StepsOf(s.entries, c, id))
        ensures var s' := After(p, source, s, StepsOf(s.entries, c, id));
          if Fresh(s.entries, c.key, c.began) then
            s'.entries == s.entries
            && s'.answers == s.answers + [Return(c.key, c.began, c.began, s.entries[c.key].value, s.entries[c.key].readAt)]
          else if c.loaded.None? then s'.entries == s.entries && s'.answers == s.answers
          else
            s'.entries == s.entries[c.key := Entry(c.loaded.value, c.readAt, c.stored + p.ttl)]
            && s'.answers == s.answers + [Return(c.key, c.began, c.stored, c.loaded.value, c.readAt)]
      {
        CallIsARun(p, source, s, c, id);
      }
      if c.key in entries && entries[c.key].expires > c.began {
        return Some(entries[c.key].value);
      }
      if c.loaded.None? {
        return None;
      }
      entries := entries[c.key := Entry(c.loaded.value, c.readAt, c.stored + ttl)];
      value := c.loaded;
    }

    /** Does the machine's step in every state with these entries, and no get finds the key afterwards. */
    method Invalidate(ghost p: Policy, ghost source: Source, key: Option<string>)
      modifies this`entries
      ensures forall s: State :: s.entries == old(entries) ==>
                entries == Apply(p, source, s, Step.Invalidate(key)).entries
      ensures forall s: State, t: Thread ::
                s.entries == entries && (key.None? || t.key == key.value) ==> !Hit(s, t)
      ensures forall k <- old(entries) :: key.Some? && k != key.value ==>
                k in entries && entries[k] == old(entries)[k]
    {
      if key.None? {
        entries := map[];
      } else {
        entries := entries - {key.value};
      }
    }
  }
}
