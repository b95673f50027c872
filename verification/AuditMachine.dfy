/**
 Every interleaving of request starts, request ends, picks, successful writes,
 failed writes and cancelled flushes. `started`, `told`, `ends`, `written`,
 `dropped`, `lost` and `order`, the requests in the order they were written, record what happened.
 */
module AuditMachine {
  import opened Wrappers
  import opened AuditBuffer

  datatype State = State(buffer: seq<Item>, picked: seq<Item>, table: Table,
                         written: set<Id>, dropped: set<Id>, lost: set<Id>,
                         started: map<Id, Key>, told: map<Id, seq<Outcome>>, ends: map<Id, seq<int>>,
                         order: seq<Id>)

  datatype Step =
    | Start(id: Id, key: Key)
    | End(id: Id, outcome: Outcome, now: int)
    | Pick(shutdown: bool, now: int)
    | WriteDone
    | WriteFailed
    | Cancelled(saved: bool)

  const Initial := State([], [], map[], {}, {}, {}, map[], map[], map[], [])

  /**
   Request ids are fresh; one flush runs at a time. A flush cancelled during its
   write puts nothing back, and its write ends well or not in its own thread.
   */
  predicate Enabled(s: State, e: Step) {
    match e
    case Start(id, _) => id !in s.started
    case End(_, _, _) => true
    case Pick(_, _) => s.picked == []
    case WriteDone => s.picked != []
    case WriteFailed => s.picked != []
    case Cancelled(_) => s.picked != []
  }

  /** end_request's answer. */
  predicate Answers(s: State, id: Id) {
    id in Ids(s.buffer)
  }

  function Apply(limit: nat, s: State, e: Step): State
    requires Enabled(s, e)
  {
    match e
    case Start(id, key) =>
      var grown := s.buffer + [Item(id, Entry(key, None, NOTHING))];
      s.(buffer := Kept(grown, limit), dropped := s.dropped + Ids(Cut(grown, limit)),
         started := s.started[id := key], told := s.told[id := []], ends := s.ends[id := []])
    case End(id, outcome, now) =>
      var at := Find(s.buffer, id);
      if at.None? then s
      else s.(buffer := s.buffer[at.value := Item(id, Ended(s.buffer[at.value].entry, outcome, now))],
              told := s.told[id := (if id in s.told then s.told[id] else []) + [outcome]],
              ends := s.ends[id := (if id in s.ends then s.ends[id] else []) + [now]])
    case Pick(shutdown, now) =>
      s.(buffer := Left(s.buffer, shutdown, now), picked := Chosen(s.buffer, shutdown, now))
    case WriteDone => Written(s)
    case WriteFailed =>
      s.(buffer := PutBack(s.buffer, s.picked), picked := [])
    case Cancelled(saved) =>
      if saved then Written(s) else s.(lost := s.lost + Ids(s.picked), picked := [])
  }

  function Written(s: State): State {
    s.(table := Stored(s.table, s.picked), written := s.written + Ids(s.picked),
       order := s.order + InOrder(s.picked), picked := [])
  }

  function InOrder(items: seq<Item>): seq<Id> {
    seq(|items|, i requires 0 <= i < |items| => items[i].id)
  }

  predicate Legal(limit: nat, s: State, steps: seq<Step>)
    decreases |steps|
  {
    steps == [] || (Enabled(s, steps[0]) && Legal(limit, Apply(limit, s, steps[0]), steps[1..]))
  }

  function After(limit: nat, s: State, steps: seq<Step>): State
    requires Legal(limit, s, steps)
    decreases |steps|
  {
    if steps == [] then s else After(limit, Apply(limit, s, steps[0]), steps[1..])
  }

  // ---------- conservation ----------

  /** Every started request is in exactly one place. */
  ghost predicate Conserved(s: State) {
    && Distinct(s.buffer) && Distinct(s.picked)
    && Partition(Ids(s.buffer), Ids(s.picked), s.written, s.dropped, s.lost, s.started.Keys)
  }

  ghost predicate Partition(a: set<Id>, b: set<Id>, c: set<Id>, d: set<Id>, e: set<Id>, all: set<Id>) {
    && a !! b && a !! c && a !! d && a !! e && b !! c && b !! d && b !! e && c !! d && c !! e && d !! e
    && a + b + c + d + e == all
  }

  /** One new id, and a part of the first set moved to the last. */
  lemma PartitionMoves(a: set<Id>, b: set<Id>, c: set<Id>, d: set<Id>, e: set<Id>, all: set<Id>,
                       id: Id, kept: set<Id>, cut: set<Id>)
    requires Partition(a, b, c, d, e, all) && id !in all
    requires kept !! cut && kept + cut == a + {id}
    ensures Partition(kept, b, c, d + cut, e, all + {id})
  {
    assert forall x :: x in kept || x in cut <==> x in a || x == id;
  }

  lemma StartConserves(limit: nat, s: State, id: Id, key: Key)
    requires Conserved(s) && id !in s.started
    ensures Conserved(Apply(limit, s, Start(id, key)))
  {
    var s' := Apply(limit, s, Start(id, key));
    var one := [Item(id, Entry(key, None, NOTHING))];
    var grown := s.buffer + one;
    assert Distinct(grown) && Ids(grown) == Ids(s.buffer) + {id} by {
      assert Ids(one) == {id};
      AppendKeepsIds(s.buffer, one);
    }
    TrimSplits(grown, limit);
    assert s'.started.Keys == s.started.Keys + {id};
    PartitionMoves(Ids(s.buffer), Ids(s.picked), s.written, s.dropped, s.lost, s.started.Keys,
                   id, Ids(Kept(grown, limit)), Ids(Cut(grown, limit)));
  }

  lemma EndConserves(limit: nat, s: State, id: Id, outcome: Outcome, now: int)
    requires Conserved(s)
    ensures Conserved(Apply(limit, s, End(id, outcome, now)))
    ensures Ids(Apply(limit, s, End(id, outcome, now)).buffer) == Ids(s.buffer)
  {
    var at := Find(s.buffer, id);
    if at.Some? {
      UpdateKeepsIds(s.buffer, at.value, Ended(s.buffer[at.value].entry, outcome, now));
      assert s.buffer[at.value] in s.buffer;
      assert id in Ids(s.buffer);
    }
  }

  lemma PutBackConserves(limit: nat, s: State)
    requires Conserved(s) && s.picked != []
    ensures Conserved(Apply(limit, s, WriteFailed))
    ensures Ids(Apply(limit, s, WriteFailed).buffer) == Ids(s.buffer) + Ids(s.picked)
  {
    PutBackAppends(s.buffer, s.picked);
    AppendKeepsIds(s.buffer, s.picked);
  }

  lemma StepConserves(limit: nat, s: State, e: Step)
    requires Conserved(s) && Enabled(s, e)
    ensures Conserved(Apply(limit, s, e))
  {
    match e {
      case Start(id, key) => StartConserves(limit, s, id, key);
      case End(id, outcome, now) => EndConserves(limit, s, id, outcome, now);
      case Pick(shutdown, now) => PickSplits(s.buffer, shutdown, now);
      case WriteDone =>
      case WriteFailed => PutBackConserves(limit, s);
      case Cancelled(_) =>
    }
  }

  lemma UpdateKeepsIds(items: seq<Item>, at: nat, e: Entry)
    requires Distinct(items) && at < |items|
    ensures Distinct(items[at := Item(items[at].id, e)])
    ensures Ids(items[at := Item(items[at].id, e)]) == Ids(items)
  {
    var items' := items[at := Item(items[at].id, e)];
    forall x ensures x in Ids(items) <==> x in Ids(items') {
      if x in Ids(items) { var k :| 0 <= k < |items| && items[k].id == x; assert items'[k] in items'; }
      if x in Ids(items') { var k :| 0 <= k < |items'| && items'[k].id == x; assert items[k] in items; }
    }
  }

  lemma AppendKeepsIds(a: seq<Item>, b: seq<Item>)
    requires Distinct(a) && Distinct(b) && Ids(a) !! Ids(b)
    ensures Distinct(a + b) && Ids(a + b) == Ids(a) + Ids(b)
  {
    assert forall i <- a :: i.id in Ids(a);
    assert forall i <- b :: i.id in Ids(b);
  }

  lemma {:induction false} ConservationOverRuns(limit: nat, s: State, steps: seq<Step>)
    requires Conserved(s) && Legal(limit, s, steps)
    ensures Conserved(After(limit, s, steps))
    decreases |steps|
  {
    if steps != [] {
      StepConserves(limit, s, steps[0]);
      ConservationOverRuns(limit, Apply(limit, s, steps[0]), steps[1..]);
    }
  }

  /** Only a cancelled flush whose write failed loses requests, and those of its batch alone. */
  lemma LostOnlyByCancelling(limit: nat, s: State, e: Step)
    requires Conserved(s) && Enabled(s, e)
    ensures Apply(limit, s, e).lost == if e == Cancelled(false) then s.lost + Ids(s.picked) else s.lost
    ensures e == Cancelled(false) ==> s.picked != [] && Ids(s.picked) !! s.lost
  {
  }

  /** A run loses requests exactly when it cancels a flush whose write failed. */
  lemma {:induction false} LosesIffCancelled(limit: nat, s: State, steps: seq<Step>)
    requires Conserved(s) && Legal(limit, s, steps)
    ensures s.lost <= After(limit, s, steps).lost
    ensures After(limit, s, steps).lost == s.lost <==> Cancelled(false) !in steps
    decreases |steps|
  {
    if steps != [] {
      var e, rest := steps[0], steps[1..];
      assert steps == [e] + rest;
      StepConserves(limit, s, e);
      LostOnlyByCancelling(limit, s, e);
      LosesIffCancelled(limit, Apply(limit, s, e), rest);
      if e == Cancelled(false) {
        assert s.picked[0].id in Ids(s.picked);
      }
    }
  }

  /** The counts always add up to the number of requests started, and four of them do exactly when nothing is lost. */
  lemma CountsAddUp(limit: nat, steps: seq<Step>)
    requires Legal(limit, Initial, steps)
    ensures var s := After(limit, Initial, steps);
            && |s.buffer| + |s.picked| + |s.written| + |s.dropped| + |s.lost| == |s.started|
            && (s.lost == {} <==> Cancelled(false) !in steps)
  {
    ConservationOverRuns(limit, Initial, steps);
    LosesIffCancelled(limit, Initial, steps);
    var s := After(limit, Initial, steps);
    DistinctCount(s.buffer);
    DistinctCount(s.picked);
    assert |s.started.Keys| == |s.started|;
  }

  /** A start ends within the limit and never drops its own request. */
  lemma StartEndsWithinLimit(limit: nat, s: State, id: Id, key: Key)
    requires Conserved(s) && limit > 0 && id !in s.started
    ensures var s' := Apply(limit, s, Start(id, key));
            |s'.buffer| <= limit && Answers(s', id) && id !in s'.dropped
  {
    var s' := Apply(limit, s, Start(id, key));
    StepConserves(limit, s, Start(id, key));
    var grown := s.buffer + [Item(id, Entry(key, None, NOTHING))];
    assert s'.buffer[|s'.buffer| - 1] == grown[|grown| - 1];
    assert grown[|grown| - 1] in s'.buffer;
  }

  /** The put-back meets none of its requests in the buffer, so none is lost or overwritten. */
  lemma PutBackRestores(limit: nat, s: State)
    requires Conserved(s) && s.picked != []
    ensures Apply(limit, s, WriteFailed).buffer == s.buffer + s.picked
  {
    PutBackAppends(s.buffer, s.picked);
  }

  // ---------- outcomes ----------

  function LastStatus(h: seq<Outcome>): Option<int> {
    if h == [] then None
    else if h[|h| - 1].status.Some? then h[|h| - 1].status else LastStatus(h[..|h| - 1])
  }

  function LastResponse(h: seq<Outcome>): Option<Body> {
    if h == [] then None
    else if h[|h| - 1].response.Some? then h[|h| - 1].response else LastResponse(h[..|h| - 1])
  }

  function LastError(h: seq<Outcome>): Option<string> {
    if h == [] then None
    else if h[|h| - 1].error.Some? then h[|h| - 1].error else LastError(h[..|h| - 1])
  }

  function LastEnd(ends: seq<int>): Option<int> {
    if ends == [] then None else Some(ends[|ends| - 1])
  }

  /** The entry holds the last thing it was told in each of the three respects, and when it was last told. */
  predicate Faithful(e: Entry, key: Key, h: seq<Outcome>, ends: seq<int>) {
    && e.key == key
    && |ends| == |h| && e.endAt == LastEnd(ends)
    && e.outcome == Outcome(LastStatus(h), LastResponse(h), LastError(h))
  }

  /** So does the row; an empty response is stored as NULL. */
  predicate Records(r: Row, h: seq<Outcome>, ends: seq<int>) {
    && |ends| == |h| && r.endAt == LastEnd(ends)
    && r.status == LastStatus(h)
    && r.error == LastError(h)
    && r.response == match LastResponse(h) { case Some(Full(text)) => Some(text) case _ => None }
  }

  ghost predicate OutcomesKept(s: State) {
    && s.told.Keys == s.started.Keys && s.ends.Keys == s.started.Keys
    && (forall i <- s.buffer + s.picked ::
          i.id in s.started && Faithful(i.entry, s.started[i.id], s.told[i.id], s.ends[i.id]))
    && (forall k <- s.table :: s.table[k].request in s.written)
    && (forall k <- s.table :: s.table[k].request in s.started && s.started[s.table[k].request] == k
                               && Records(s.table[k], s.told[s.table[k].request], s.ends[s.table[k].request]))
    && (forall id <- s.written :: id in s.started && s.started[id] in s.table)
  }

  function KeyOf(started: map<Id, Key>, id: Id): Option<Key> {
    if id in started then Some(started[id]) else None
  }

  /** The nth request written is the first of its key. */
  predicate FirstOfItsKey(started: map<Id, Key>, order: seq<Id>, n: nat)
    requires n < |order|
  {
    forall j :: 0 <= j < n ==> KeyOf(started, order[j]) != KeyOf(started, order[n])
  }

  predicate RecordedIfFirst(started: map<Id, Key>, table: Table, order: seq<Id>, n: nat)
    requires n < |order|
  {
    var id := order[n];
    && id in started && started[id] in table
    && (table[started[id]].request == id <==> FirstOfItsKey(started, order, n))
  }

  /** Each key's row is that of the first request of it that was written. */
  ghost predicate RowsAreFirst(started: map<Id, Key>, table: Table, order: seq<Id>) {
    forall n :: 0 <= n < |order| ==> RecordedIfFirst(started, table, order, n)
  }

  /** `order` lists the written requests, each once. */
  ghost predicate Lists(order: seq<Id>, written: set<Id>) {
    && (forall id :: id in order <==> id in written)
    && (forall i, j :: 0 <= i < j < |order| ==> order[i] != order[j])
  }

  ghost predicate Inv(s: State) {
    Conserved(s) && OutcomesKept(s) && Lists(s.order, s.written) && RowsAreFirst(s.started, s.table, s.order)
  }

  lemma EndKeepsOutcomes(limit: nat, s: State, id: Id, outcome: Outcome, now: int)
    requires Inv(s)
    ensures OutcomesKept(Apply(limit, s, End(id, outcome, now)))
  {
    var s' := Apply(limit, s, End(id, outcome, now));
    var at := Find(s.buffer, id);
    if at.Some? {
      var was := s.buffer[at.value];
      assert was in s.buffer + s.picked;
      var h := s.told[id];
      assert (h + [outcome])[..|h|] == h && |s.ends[id]| == |h|;
      assert id in Ids(s.buffer);
      forall i | i in s'.buffer + s'.picked
        ensures i.id in s'.started && Faithful(i.entry, s'.started[i.id], s'.told[i.id], s'.ends[i.id])
      {
        if i in s'.picked {
          assert i.id in Ids(s.picked) && i in s.buffer + s.picked;
        } else {
          var k :| 0 <= k < |s'.buffer| && s'.buffer[k] == i;
          if k != at.value { assert s.buffer[k] in s.buffer + s.picked && i.id != id; }
        }
      }
    }
  }

  lemma WriteKeepsOutcomes(limit: nat, s: State)
    requires Inv(s) && s.picked != []
    ensures OutcomesKept(Written(s))
  {
    var s' := Written(s);
    StoredKeeps(s.table, s.picked);
    forall k | k in s'.table
      ensures && s'.table[k].request in s'.written && s'.table[k].request in s.started
              && s.started[s'.table[k].request] == k
              && Records(s'.table[k], s.told[s'.table[k].request], s.ends[s'.table[k].request])
    {
      if k !in s.table {
        var i :| i in s.picked && i.entry.key == k && s'.table[k] == RowOf(i);
        assert i in s.buffer + s.picked && i.id in Ids(s.picked);
      }
    }
    forall id | id in s'.written ensures id in s.started && s.started[id] in s'.table {
      if id !in s.written {
        var i :| i in s.picked && i.id == id;
        assert i in s.buffer + s.picked;
      }
    }
  }

  /** A key is in the table exactly when some request of it was written. */
  lemma KeyInTableIff(s: State, key: Key)
    requires Inv(s)
    ensures key in s.table <==> exists j :: 0 <= j < |s.order| && KeyOf(s.started, s.order[j]) == Some(key)
  {
    if key in s.table {
      var id := s.table[key].request;
      assert id in s.order && s.started[id] == key;
      var j :| 0 <= j < |s.order| && s.order[j] == id;
    }
    if j :| 0 <= j < |s.order| && KeyOf(s.started, s.order[j]) == Some(key) {
      assert s.order[j] in s.order;
    }
  }

  lemma NotYetRecorded(s: State, at: nat)
    requires Inv(s) && at < |s.picked|
    ensures s.picked[at].id in s.started && s.started[s.picked[at].id] == s.picked[at].entry.key
    ensures forall k <- s.table :: s.table[k].request != s.picked[at].id
  {
    assert s.picked[at] in s.buffer + s.picked;
    assert s.picked[at].id in Ids(s.picked);
  }

  /** More rows and more written requests change nothing about those before them. */
  lemma EarlierStays(started: map<Id, Key>, t: Table, t': Table, order: seq<Id>, more: seq<Id>, n: nat)
    requires n < |order| && RecordedIfFirst(started, t, order, n) && forall k <- t :: k in t' && t'[k] == t[k]
    ensures RecordedIfFirst(started, t', order + more, n)
  {
    assert forall j :: 0 <= j <= n ==> (order + more)[j] == order[j];
  }

  /** First among all: first in the batch, and none before the batch. */
  lemma FirstSplits(started: map<Id, Key>, order: seq<Id>, more: seq<Id>, at: nat)
    requires at < |more|
    ensures FirstOfItsKey(started, order + more, |order| + at)
       <==> (forall j :: 0 <= j < |order| ==> KeyOf(started, order[j]) != KeyOf(started, more[at]))
            && FirstOfItsKey(started, more, at)
  {
    var all, n := order + more, |order|;
    assert forall j :: 0 <= j < n ==> all[j] == order[j];
    assert forall j :: n <= j <= n + at ==> all[j] == more[j - n];
    assert forall j :: 0 <= j < at ==> more[j] == all[n + j];
  }

  lemma BatchRecorded(s: State, at: nat)
    requires Inv(s) && at < |s.picked|
    ensures RecordedIfFirst(s.started, Stored(s.table, s.picked), s.order + InOrder(s.picked), |s.order| + at)
  {
    var ids, key := InOrder(s.picked), s.picked[at].entry.key;
    NotYetRecorded(s, at);
    KeyInTableIff(s, key);
    forall j | 0 <= j <= at ensures KeyOf(s.started, ids[j]) == Some(s.picked[j].entry.key) {
      NotYetRecorded(s, j);
    }
    assert Distinct(s.picked);
    hide Conserved, OutcomesKept, RowsAreFirst, Lists, Stored;
    RecordedIffFirstOfItsKey(s.table, s.picked, at);
    FirstSplits(s.started, s.order, ids, at);
  }

  lemma WriteKeepsFirst(s: State)
    requires Inv(s)
    ensures RowsAreFirst(s.started, Stored(s.table, s.picked), s.order + InOrder(s.picked))
  {
    hide RecordedIfFirst, Conserved, OutcomesKept, Lists, InOrder, Stored;
    var t', more := Stored(s.table, s.picked), InOrder(s.picked);
    StoredKeeps(s.table, s.picked);
    forall n | 0 <= n < |s.order| + |more| ensures RecordedIfFirst(s.started, t', s.order + more, n) {
      if n < |s.order| {
        EarlierStays(s.started, s.table, t', s.order, more, n);
      } else {
        SameLength(s.picked);
        BatchRecorded(s, n - |s.order|);
      }
    }
  }

  lemma SameLength(items: seq<Item>)
    ensures |InOrder(items)| == |items|
  {
  }

  lemma InOrderLists(items: seq<Item>)
    requires Distinct(items)
    ensures Lists(InOrder(items), Ids(items))
  {
    var ids := InOrder(items);
    forall id ensures id in ids <==> id in Ids(items) {
      if id in ids { var k :| 0 <= k < |ids| && ids[k] == id; assert items[k] in items; }
      if id in Ids(items) { var k :| 0 <= k < |items| && items[k].id == id; assert ids[k] == id; }
    }
  }

  lemma ListsAppend(a: seq<Id>, x: set<Id>, b: seq<Id>, y: set<Id>)
    requires Lists(a, x) && Lists(b, y) && x !! y
    ensures Lists(a + b, x + y)
  {
    forall i, j | 0 <= i < j < |a + b| ensures (a + b)[i] != (a + b)[j] {
      if i < |a| <= j {
        assert a[i] in a && b[j - |a|] in b;
      }
    }
  }

  lemma WriteKeepsInv(limit: nat, s: State)
    requires Inv(s) && s.picked != []
    ensures Inv(Written(s))
  {
    StepConserves(limit, s, WriteDone);
    WriteKeepsOutcomes(limit, s);
    WriteKeepsFirst(s);
    InOrderLists(s.picked);
    hide RowsAreFirst;
    ListsAppend(s.order, s.written, InOrder(s.picked), Ids(s.picked));
  }

  /** What is written goes by the keys the requests started with, which never change. */
  lemma SameFirst(started: map<Id, Key>, started': map<Id, Key>, table: Table, order: seq<Id>)
    requires RowsAreFirst(started, table, order)
    requires forall id <- order :: id in started && id in started' && started'[id] == started[id]
    ensures RowsAreFirst(started', table, order)
  {
    forall n | 0 <= n < |order| ensures RecordedIfFirst(started', table, order, n) {
      assert RecordedIfFirst(started, table, order, n);
      assert forall j :: 0 <= j <= n ==> KeyOf(started', order[j]) == KeyOf(started, order[j]);
    }
  }

  /** A step that writes nothing leaves the rows as they are. */
  lemma OthersKeepFirst(limit: nat, s: State, e: Step)
    requires Inv(s) && Enabled(s, e) && !e.WriteDone? && e != Cancelled(true)
    ensures var s' := Apply(limit, s, e);
            Lists(s'.order, s'.written) && RowsAreFirst(s'.started, s'.table, s'.order)
  {
    assert forall id <- s.order :: id in s.started;
    hide RowsAreFirst;
    SameFirst(s.started, Apply(limit, s, e).started, s.table, s.order);
  }

  lemma StepKeepsInv(limit: nat, s: State, e: Step)
    requires Inv(s) && Enabled(s, e)
    ensures Inv(Apply(limit, s, e))
  {
    hide Conserved, OutcomesKept, RowsAreFirst, Lists;
    StepConserves(limit, s, e);
    if e.WriteDone? || e == Cancelled(true) {
      WriteKeepsInv(limit, s);
    } else {
      OthersKeepFirst(limit, s, e);
      OthersKeepOutcomes(limit, s, e);
    }
  }

  lemma OthersKeepOutcomes(limit: nat, s: State, e: Step)
    requires Inv(s) && Enabled(s, e) && !e.WriteDone? && e != Cancelled(true)
    ensures OutcomesKept(Apply(limit, s, e))
  {
    var s' := Apply(limit, s, e);
    match e {
      case Start(id, key) =>
        var grown := s.buffer + [Item(id, Entry(key, None, NOTHING))];
        forall i | i in s'.buffer + s'.picked
          ensures i.id in s'.started && Faithful(i.entry, s'.started[i.id], s'.told[i.id], s'.ends[i.id])
        {
          assert i in grown || i in s.picked;
          assert i.id != id ==> i in s.buffer + s.picked;
          if i in s.buffer { assert i in s.buffer + s.picked; }
          if i in s.picked { assert i in s.buffer + s.picked; }
        }
      case End(id, outcome, now) => EndKeepsOutcomes(limit, s, id, outcome, now);
      case Pick(shutdown, now) =>
        PickSplits(s.buffer, shutdown, now);
        assert forall i <- s'.buffer + s'.picked :: i in s.buffer + s.picked;
      case WriteFailed =>
        PutBackAppends(s.buffer, s.picked);
        assert forall i <- s'.buffer + s'.picked :: i in s.buffer + s.picked;
      case Cancelled(_) =>
        assert forall i <- s'.buffer + s'.picked :: i in s.buffer + s.picked;
    }
  }

  lemma {:induction false} InvOverRuns(limit: nat, s: State, steps: seq<Step>)
    requires Inv(s) && Legal(limit, s, steps)
    ensures Inv(After(limit, s, steps))
    decreases |steps|
  {
    if steps != [] {
      StepKeepsInv(limit, s, steps[0]);
      InvOverRuns(limit, Apply(limit, s, steps[0]), steps[1..]);
    }
  }

  /** The request has a row of its own, with what its end calls were told. */
  predicate HasItsRow(s: State, id: Id) {
    && id in s.started && id in s.told && id in s.ends && s.started[id] in s.table
    && s.table[s.started[id]].request == id
    && Records(s.table[s.started[id]], s.told[id], s.ends[id])
  }

  /** The request was written, before every other of its key. */
  ghost predicate WrittenFirst(s: State, id: Id) {
    exists n :: 0 <= n < |s.order| && s.order[n] == id && FirstOfItsKey(s.started, s.order, n)
  }

  /**
   Whatever happens in between, a request has a row with the last status, response
   and error it was told and the instant of its last end call exactly when it was
   written before every other of its key.
   */
  lemma OutcomesSurvive(limit: nat, steps: seq<Step>, id: Id)
    requires Legal(limit, Initial, steps)
    ensures HasItsRow(After(limit, Initial, steps), id) <==> WrittenFirst(After(limit, Initial, steps), id)
  {
    InvOverRuns(limit, Initial, steps);
    var s := After(limit, Initial, steps);
    if HasItsRow(s, id) {
      assert id in s.order;
      var n :| 0 <= n < |s.order| && s.order[n] == id;
      assert RecordedIfFirst(s.started, s.table, s.order, n);
    }
    if WrittenFirst(s, id) {
      var n :| 0 <= n < |s.order| && s.order[n] == id && FirstOfItsKey(s.started, s.order, n);
      assert RecordedIfFirst(s.started, s.table, s.order, n);
    }
  }

  /** So a written request whose key no other request shares always has its row. */
  lemma OwnKeySurvives(limit: nat, steps: seq<Step>, id: Id)
    requires Legal(limit, Initial, steps)
    requires var s := After(limit, Initial, steps);
      id in s.written && forall other <- s.started :: other != id ==> KeyOf(s.started, other) != KeyOf(s.started, id)
    ensures HasItsRow(After(limit, Initial, steps), id)
  {
    InvOverRuns(limit, Initial, steps);
    var s := After(limit, Initial, steps);
    assert id in s.order;
    var n :| 0 <= n < |s.order| && s.order[n] == id;
    forall j | 0 <= j < n ensures KeyOf(s.started, s.order[j]) != KeyOf(s.started, id) {
      assert s.order[j] in s.order;
    }
    assert FirstOfItsKey(s.started, s.order, n);
    OutcomesSurvive(limit, steps, id);
  }

  /**
   Before the write one can tell: a request of the batch gets its row, and keeps it
   in every run from there, exactly when its key is not in the table and no request
   before it in the batch has it.
   */
  lemma RecordedForGoodIff(limit: nat, s: State, at: nat, steps: seq<Step>)
    requires Inv(s) && s.picked != [] && at < |s.picked| && Legal(limit, Written(s), steps)
    ensures HasItsRow(After(limit, Written(s), steps), s.picked[at].id)
       <==> s.picked[at].entry.key !in s.table
            && forall j | 0 <= j < at :: s.picked[j].entry.key != s.picked[at].entry.key
  {
    var s', i := Written(s), s.picked[at];
    assert i in s.buffer + s.picked && i.id in s'.written;
    WriteKeepsInv(limit, s);
    NotYetRecorded(s, at);
    RecordedIffFirstOfItsKey(s.table, s.picked, at);
    WrittenIsFinal(limit, s', steps, i.id);
  }

  /** The record of a request is the same in both states. */
  predicate SameRecord(s: State, s': State, id: Id) {
    && id in s.started && id in s'.started && s'.started[id] == s.started[id]
    && id in s.told && id in s'.told && s'.told[id] == s.told[id]
    && id in s.ends && id in s'.ends && s'.ends[id] == s.ends[id]
    && s.started[id] in s.table && s.started[id] in s'.table
    && s'.table[s.started[id]] == s.table[s.started[id]]
  }

  lemma WrittenStays(limit: nat, s: State, e: Step, id: Id)
    requires Inv(s) && Enabled(s, e) && id in s.written
    ensures id in Apply(limit, s, e).written && SameRecord(s, Apply(limit, s, e), id)
  {
    assert id in s.started && s.started[id] in s.table;
    match e {
      case End(n, _, _) =>
        var at := Find(s.buffer, n);
        if at.Some? { assert s.buffer[at.value] in s.buffer && n in Ids(s.buffer); }
      case WriteDone => StoredKeeps(s.table, s.picked);
      case Cancelled(_) => StoredKeeps(s.table, s.picked);
      case _ =>
    }
  }

  /** Once written, a request takes no more outcomes and its row never changes. */
  lemma {:induction false} WrittenIsFinal(limit: nat, s: State, steps: seq<Step>, id: Id)
    requires Inv(s) && Legal(limit, s, steps) && id in s.written
    ensures id in After(limit, s, steps).written && !Answers(After(limit, s, steps), id)
    ensures SameRecord(s, After(limit, s, steps), id)
    decreases |steps|
  {
    if steps == [] {
      assert id in s.started && s.started[id] in s.table;
    } else {
      StepKeepsInv(limit, s, steps[0]);
      WrittenStays(limit, s, steps[0], id);
      WrittenIsFinal(limit, Apply(limit, s, steps[0]), steps[1..], id);
    }
  }

  /** A request never told anything leaves the buffer only when stale, at shutdown, or past the limit. */
  lemma UnfinishedLeavesOnlyWhen(limit: nat, s: State, e: Step, id: Id)
    requires Inv(s) && Enabled(s, e) && id in s.started && id in s.told
    requires Answers(s, id) && s.told[id] == []
    requires !Answers(Apply(limit, s, e), id)
    ensures || (e.Start? && |s.buffer| >= limit && id in Apply(limit, s, e).dropped)
            || (e.Pick? && (e.shutdown || e.now - s.started[id].startAt >= IN_FLIGHT_STALE_SECONDS))
  {
    match e {
      case Start(n, key) => StartDropsOnlyPastLimit(limit, s, n, key, id);
      case End(n, outcome, now) => EndConserves(limit, s, n, outcome, now);
      case Pick(shutdown, now) =>
        PickSplits(s.buffer, shutdown, now);
        var j :| j in Chosen(s.buffer, shutdown, now) && j.id == id;
        assert j in s.buffer + s.picked;
      case WriteDone =>
      case WriteFailed => PutBackConserves(limit, s);
      case Cancelled(_) =>
    }
  }

  /** A pick takes a request out exactly at shutdown, when an end call told it something, or when it is stale. */
  lemma PickTakesIff(limit: nat, s: State, shutdown: bool, now: int, id: Id)
    requires Inv(s) && s.picked == [] && Answers(s, id) && id in s.started && id in s.ends
    ensures id in Ids(Apply(limit, s, Pick(shutdown, now)).picked)
       <==> shutdown || s.ends[id] != [] || now - s.started[id].startAt >= 60 * 60
    ensures Answers(Apply(limit, s, Pick(shutdown, now)), id)
       <==> !shutdown && s.ends[id] == [] && now - s.started[id].startAt < 60 * 60
  {
    PickSplits(s.buffer, shutdown, now);
    var i :| i in s.buffer && i.id == id;
    assert i in s.buffer + s.picked;
    var s' := Apply(limit, s, Pick(shutdown, now));
    if j :| j in s'.picked && j.id == id { assert j == i by { OneOfItsId(s.buffer, i, j); } }
    if j :| j in s'.buffer && j.id == id { assert j == i by { OneOfItsId(s.buffer, i, j); } }
  }

  lemma OneOfItsId(items: seq<Item>, i: Item, j: Item)
    requires Distinct(items) && i in items && j in items && i.id == j.id
    ensures i == j
  {
  }

  lemma StartDropsOnlyPastLimit(limit: nat, s: State, n: Id, key: Key, id: Id)
    requires Conserved(s) && n !in s.started && Answers(s, id)
    requires !Answers(Apply(limit, s, Start(n, key)), id)
    ensures |s.buffer| >= limit && id in Apply(limit, s, Start(n, key)).dropped
  {
    StartConserves(limit, s, n, key);
    var grown := s.buffer + [Item(n, Entry(key, None, NOTHING))];
    var i :| i in s.buffer && i.id == id;
    assert i in grown;
  }

  // ---------- what the comments promise and the code does not ----------

  /**
   "An ignored row is already in the table" fails for two requests of one
   instance, method, endpoint and start: exactly the first of a key is recorded.
   */
  lemma {:induction false} RecordedIffFirstOfItsKey(t: Table, rows: seq<Item>, at: nat)
    requires Distinct(rows) && at < |rows|
    requires rows[at].entry.key in t ==> t[rows[at].entry.key].request != rows[at].id
    ensures rows[at].entry.key in Stored(t, rows)
    ensures Stored(t, rows)[rows[at].entry.key].request == rows[at].id
       <==> rows[at].entry.key !in t && forall j | 0 <= j < at :: rows[j].entry.key != rows[at].entry.key
    decreases |rows|
  {
    var key := rows[at].entry.key;
    var t1 := if rows[0].entry.key in t then t else t[rows[0].entry.key := RowOf(rows[0])];
    if at == 0 {
      StoredKeeps(t1, rows[1..]);
    } else {
      assert rows[0].id != rows[at].id;
      RecordedIffFirstOfItsKey(t1, rows[1..], at - 1);
      assert forall j | 0 < j < at :: rows[j] == rows[1..][j - 1];
      assert forall j | 0 <= j < at - 1 :: rows[1..][j] == rows[j + 1];
    }
  }

  /** Two requests of one key are written together at shutdown, and the second is nowhere in the table. */
  lemma SecondOfAKeyIsLost() returns (steps: seq<Step>)
    ensures Legal(2, Initial, steps)
    ensures var s := After(2, Initial, steps); "b" in s.written && !HasItsRow(s, "b")
  {
    var key := Key("i", "GET", "/", 0);
    steps := [Start("a", key), Start("b", key), Pick(true, 0), WriteDone];
    var s1, s2 := StartedTwo(key);
    var a, b := s2.buffer[0], s2.buffer[1];
    assert s2.buffer == [a, b];
    BothChosen(a, b);
    var s3 := Apply(2, s2, steps[2]);
    BothStored(a, b);
    var s4 := Written(s3);
    assert s4.table == map[key := RowOf(a)] && b in [a, b];
    assert "b" in s4.written && !HasItsRow(s4, "b");
    assert Enabled(s3, steps[3]) && Apply(2, s3, steps[3]) == s4;
    hide Apply, Enabled;
    TraceIsRun(2, [Initial, s1, s2, s3, s4], steps);
  }

  lemma StartedTwo(key: Key) returns (s1: State, s2: State)
    ensures s1 == Apply(2, Initial, Start("a", key)) && "b" !in s1.started
    ensures s2 == Apply(2, s1, Start("b", key))
    ensures s2.buffer == [Item("a", Entry(key, None, NOTHING)), Item("b", Entry(key, None, NOTHING))]
    ensures s2.picked == [] && s2.table == map[] && s2.started == map["a" := key, "b" := key]
  {
    s1 := Apply(2, Initial, Start("a", key));
    assert s1.buffer == [Item("a", Entry(key, None, NOTHING))];
    s2 := Apply(2, s1, Start("b", key));
  }

  lemma BothChosen(a: Item, b: Item)
    ensures Chosen([a, b], true, 0) == [a, b] && Left([a, b], true, 0) == []
  {
    assert [a, b][1..] == [b] && [b][1..] == [];
    assert Chosen([b], true, 0) == [b] && Left([b], true, 0) == [];
  }

  lemma BothStored(a: Item, b: Item)
    requires a.entry.key == b.entry.key
    ensures Stored(map[], [a, b]) == map[a.entry.key := RowOf(a)]
  {
    var one := map[a.entry.key := RowOf(a)];
    assert [a, b][1..] == [b] && [b][1..] == [];
    assert Stored(one, [b]) == Stored(one, []) == one;
    assert map[][a.entry.key := RowOf(a)] == one;
  }

  /** The oldest start comes first in the buffer. */
  predicate OldestFirst(items: seq<Item>) {
    forall i, j :: 0 <= i < j < |items| ==> items[i].entry.key.startAt <= items[j].entry.key.startAt
  }

  /**
   "The first key is the oldest request" survives a put-back only when nothing in
   the buffer is younger than the batch that comes back behind it.
   */
  lemma PutBackKeepsOldestFirstIff(limit: nat, s: State)
    requires Conserved(s) && s.picked != [] && OldestFirst(s.buffer) && OldestFirst(s.picked)
    ensures OldestFirst(Apply(limit, s, WriteFailed).buffer)
       <==> (s.buffer != [] ==>
               s.buffer[|s.buffer| - 1].entry.key.startAt <= s.picked[0].entry.key.startAt)
  {
    PutBackAppends(s.buffer, s.picked);
    var both := s.buffer + s.picked;
    if s.buffer != [] {
      var last := |s.buffer| - 1;
      assert both[last] == s.buffer[last] && both[last + 1] == s.picked[0];
    }
  }

  /** After a failed flush the trimming drops a younger request and keeps an older one. */
  lemma TrimDropsTheYounger() returns (steps: seq<Step>)
    ensures Legal(2, Initial, steps)
    ensures var s := After(2, Initial, steps);
            && "b" in s.dropped && Answers(s, "a")
            && "a" in s.started && "b" in s.started && s.started["a"].startAt < s.started["b"].startAt
  {
    var a, b, c := Key("i", "GET", "/a", 0), Key("i", "GET", "/b", 1), Key("i", "GET", "/c", 2);
    var e := Outcome(Some(200), None, None);
    var ia := Item("a", Entry(a, Some(0), e));
    var ib := Item("b", Entry(b, None, NOTHING));
    var s2;
    s2, steps := FailedFlush(a, b, e);
    var s3 := Apply(2, s2, Start("c", c));
    var ic := Item("c", Entry(c, None, NOTHING));
    assert [ib, ia] + [ic] == [ib, ia, ic];
    assert Cut([ib, ia, ic], 2) == [ib] && Kept([ib, ia, ic], 2) == [ia, ic];
    assert ib in [ib] && ia in s3.buffer;
    AppendStep(2, Initial, steps, Start("c", c));
    steps := steps + [Start("c", c)];
  }

  /** Request a ends, is picked, b starts during the write, the write fails. */
  lemma FailedFlush(a: Key, b: Key, e: Outcome) returns (s: State, steps: seq<Step>)
    requires e == Outcome(Some(200), None, None)
    ensures Legal(2, Initial, steps) && After(2, Initial, steps) == s
    ensures s.buffer == [Item("b", Entry(b, None, NOTHING)), Item("a", Entry(a, Some(0), e))]
    ensures s.picked == [] && s.started == map["a" := a, "b" := b]
  {
    var ia, ib := Item("a", Entry(a, Some(0), e)), Item("b", Entry(b, None, NOTHING));
    var trace;
    trace, steps := EndedAndPicked(a, e);
    var s4 := Apply(2, trace[3], Start("b", b));
    assert s4.buffer == [ib];
    PutBackAppends([ib], [ia]);
    s := Apply(2, s4, WriteFailed);
    TraceIsRun(2, trace, steps);
    AppendStep(2, Initial, steps, Start("b", b));
    AppendStep(2, Initial, steps + [Start("b", b)], WriteFailed);
    steps := steps + [Start("b", b)] + [WriteFailed];
  }

  /** Request a has ended and is picked; the flush is cancelled, its write fails, and a is nowhere. */
  lemma CancelledBatchIsLost() returns (steps: seq<Step>)
    ensures Legal(2, Initial, steps)
    ensures var s := After(2, Initial, steps); "a" in s.told && "a" in s.lost && !Answers(s, "a") && s.table == map[]
  {
    var a, e := Key("i", "GET", "/a", 0), Outcome(Some(200), None, None);
    var ia := Item("a", Entry(a, Some(0), e));
    var trace;
    trace, steps := EndedAndPicked(a, e);
    assert ia in [ia];
    TraceIsRun(2, trace, steps);
    AppendStep(2, Initial, steps, Cancelled(false));
    steps := steps + [Cancelled(false)];
  }

  lemma EndedAndPicked(a: Key, e: Outcome) returns (trace: seq<State>, steps: seq<Step>)
    requires e == Outcome(Some(200), None, None)
    ensures |trace| == 4 && |steps| == 3 && trace[0] == Initial
    ensures forall i | 0 <= i < 3 :: Enabled(trace[i], steps[i]) && Apply(2, trace[i], steps[i]) == trace[i + 1]
    ensures trace[3].buffer == [] && trace[3].picked == [Item("a", Entry(a, Some(0), e))]
    ensures trace[3].started == map["a" := a] && trace[3].table == map[] && "a" in trace[3].told
  {
    steps := [Start("a", a), End("a", e, 0), Pick(false, 0)];
    var ia := Item("a", Entry(a, Some(0), e));
    var s1 := Apply(2, Initial, steps[0]);
    assert s1.buffer == [Item("a", Entry(a, None, NOTHING))];
    assert Find(s1.buffer, "a") == Some(0);
    var s2 := Apply(2, s1, steps[1]);
    assert s2.buffer == [ia];
    assert Chosen([ia][1..], false, 0) == [] && Left([ia][1..], false, 0) == [];
    var s3 := Apply(2, s2, steps[2]);
    trace := [Initial, s1, s2, s3];
  }

  lemma {:induction false} AppendStep(limit: nat, s: State, steps: seq<Step>, e: Step)
    requires Legal(limit, s, steps) && Enabled(After(limit, s, steps), e)
    ensures Legal(limit, s, steps + [e])
    ensures After(limit, s, steps + [e]) == Apply(limit, After(limit, s, steps), e)
    decreases |steps|
  {
    if steps == [] {
      assert [] + [e] == [e];
    } else {
      AppendStep(limit, Apply(limit, s, steps[0]), steps[1..], e);
      assert (steps + [e])[1..] == steps[1..] + [e];
    }
  }

  lemma {:induction false} TraceIsRun(limit: nat, trace: seq<State>, steps: seq<Step>)
    requires |trace| == |steps| + 1
    requires forall i | 0 <= i < |steps| ::
      Enabled(trace[i], steps[i]) && Apply(limit, trace[i], steps[i]) == trace[i + 1]
    ensures Legal(limit, trace[0], steps) && After(limit, trace[0], steps) == trace[|steps|]
    decreases |steps|
  {
    if steps != [] { TraceIsRun(limit, trace[1..], steps[1..]); }
  }
}
