/**
 The buffer of incoming requests: what start, end and flush do to it, and the
 machine of their interleavings. A flush picks its rows under the buffer's lock,
 writes them outside it, and puts them back when the write failed; one flush runs
 at a time.
 */
module AuditBuffer {
  import opened Wrappers

  const IN_FLIGHT_STALE_SECONDS := 3600

  type Id = string

  /** A redacted payload; the table stores NULL for an empty one. */
  datatype Body = Empty | Full(text: string)

  /** The table's unique key. */
  datatype Key = Key(instance: string, verb: string, endpoint: string, startAt: int)

  /** What one end_request call was told. */
  datatype Outcome = Outcome(status: Option<int>, response: Option<Body>, error: Option<string>)

  datatype Entry = Entry(key: Key, endAt: Option<int>, outcome: Outcome)

  datatype Item = Item(id: Id, entry: Entry)

  /** A row of incoming_requests; `request` says which request it records. */
  datatype Row = Row(request: Id, endAt: Option<int>, status: Option<int>, response: Option<string>,
                     error: Option<string>)

  const NOTHING := Outcome(None, None, None)

  // ---------- the buffer's own functions ----------

  function Ids(items: seq<Item>): set<Id> {
    set i | i in items :: i.id
  }

  predicate Distinct(items: seq<Item>) {
    forall i, j :: 0 <= i < j < |items| ==> items[i].id != items[j].id
  }

  function Find(items: seq<Item>, id: Id): (r: Option<nat>)
    ensures r.Some? ==> r.value < |items| && items[r.value].id == id
    ensures r.None? ==> id !in Ids(items)
  {
    if items == [] then None
    else if items[0].id == id then Some(0)
    else var r := Find(items[1..], id); if r.Some? then Some(r.value + 1) else None
  }

  /** Past the limit the first entries of the dictionary go. */
  function Kept(items: seq<Item>, limit: nat): seq<Item> {
    if |items| <= limit then items else items[|items| - limit..]
  }

  function Cut(items: seq<Item>, limit: nat): seq<Item> {
    if |items| <= limit then [] else items[..|items| - limit]
  }

  /** Only what this call was told, never over an outcome already recorded. */
  function Merge(known: Outcome, told: Outcome): Outcome {
    Outcome(if told.status.Some? then told.status else known.status,
            if told.response.Some? then told.response else known.response,
            if told.error.Some? then told.error else known.error)
  }

  function Ended(e: Entry, told: Outcome, now: int): Entry {
    e.(endAt := Some(now), outcome := Merge(e.outcome, told))
  }

  /** What a flush takes out of the buffer. */
  predicate Due(i: Item, shutdown: bool, now: int) {
    shutdown || i.entry.endAt.Some? || now - i.entry.key.startAt >= IN_FLIGHT_STALE_SECONDS
  }

  function Chosen(items: seq<Item>, shutdown: bool, now: int): seq<Item> {
    if items == [] then []
    else if Due(items[0], shutdown, now) then [items[0]] + Chosen(items[1..], shutdown, now)
    else Chosen(items[1..], shutdown, now)
  }

  function Left(items: seq<Item>, shutdown: bool, now: int): seq<Item> {
    if items == [] then []
    else if Due(items[0], shutdown, now) then Left(items[1..], shutdown, now)
    else [items[0]] + Left(items[1..], shutdown, now)
  }

  /** setdefault of every picked entry, in order. */
  function PutBack(items: seq<Item>, chosen: seq<Item>): seq<Item>
    decreases |chosen|
  {
    if chosen == [] then items
    else if chosen[0].id in Ids(items) then PutBack(items, chosen[1..])
    else PutBack(items + [chosen[0]], chosen[1..])
  }

  function RowOf(i: Item): Row {
    var o := i.entry.outcome;
    Row(i.id, i.entry.endAt, o.status,
        if o.response.Some? && o.response.value.Full? then Some(o.response.value.text) else None,
        o.error)
  }

  /** The row says of the request what its entry says, an empty response as NULL. */
  ghost predicate Carries(r: Row, i: Item) {
    && r.request == i.id && r.endAt == i.entry.endAt
    && r.status == i.entry.outcome.status && r.error == i.entry.outcome.error
    && (forall text :: r.response == Some(text) <==> i.entry.outcome.response == Some(Full(text)))
  }

  type Table = map<Key, Row>

  /** The rows already there are as they were, and every new one carries an entry of the batch. */
  ghost predicate Adds(t: Table, t': Table, batch: seq<Item>) {
    && (forall k <- t :: k in t' && t'[k] == t[k])
    && (forall k <- t' :: k in t || exists i <- batch :: i.entry.key == k && Carries(t'[k], i))
    && (forall i <- batch :: i.entry.key in t')
  }

  /** INSERT ... ON CONFLICT DO NOTHING of the rows, in order. */
  function Stored(t: Table, rows: seq<Item>): Table
    decreases |rows|
  {
    if rows == [] then t
    else if rows[0].entry.key in t then Stored(t, rows[1..])
    else Stored(t[rows[0].entry.key := RowOf(rows[0])], rows[1..])
  }

  // ---------- facts about them ----------

  lemma ConsIds(i: Item, rest: seq<Item>)
    ensures Ids([i] + rest) == {i.id} + Ids(rest)
    ensures Distinct([i] + rest) <==> i.id !in Ids(rest) && Distinct(rest)
  {
    var all := [i] + rest;
    assert all[1..] == rest;
    if Distinct(all) {
      forall k | 0 <= k < |rest| ensures rest[k].id != i.id { assert all[k + 1] == rest[k] && all[0] == i; }
      forall j, k | 0 <= j < k < |rest| ensures rest[j].id != rest[k].id {
        assert all[j + 1] == rest[j] && all[k + 1] == rest[k];
      }
    }
    if i.id !in Ids(rest) && Distinct(rest) {
      forall j, k | 0 <= j < k < |all| ensures all[j].id != all[k].id {
        assert all[k] == rest[k - 1] && rest[k - 1] in rest;
      }
    }
  }

  /** Picked is what has ended, what runs for an hour, and at shutdown everything. */
  lemma {:induction false} ChosenIff(items: seq<Item>, shutdown: bool, now: int)
    ensures forall i ::
      i in Chosen(items, shutdown, now)
      <==> i in items && (shutdown || i.entry.endAt.Some? || now - i.entry.key.startAt >= 60 * 60)
  {
    if items != [] {
      ChosenIff(items[1..], shutdown, now);
      assert items == [items[0]] + items[1..];
    }
  }

  lemma {:induction false} PickSplits(items: seq<Item>, shutdown: bool, now: int)
    requires Distinct(items)
    ensures var c, l := Chosen(items, shutdown, now), Left(items, shutdown, now);
            && Distinct(c) && Distinct(l)
            && Ids(c) !! Ids(l) && Ids(c) + Ids(l) == Ids(items)
            && (forall i <- c :: i in items && Due(i, shutdown, now))
            && (forall i <- l :: i in items && !Due(i, shutdown, now))
  {
    if items != [] {
      var head, rest := items[0], items[1..];
      assert items == [head] + rest;
      ConsIds(head, rest);
      hide Ids, Distinct, Due;
      PickSplits(rest, shutdown, now);
      ConsIds(head, Chosen(rest, shutdown, now));
      ConsIds(head, Left(rest, shutdown, now));
    } else {
      assert Ids(items) == {};
    }
  }

  /** Nothing of the batch is in the buffer: all of it comes back, behind what is there. */
  lemma {:induction false} PutBackAppends(items: seq<Item>, chosen: seq<Item>)
    requires Distinct(chosen) && Ids(items) !! Ids(chosen)
    ensures PutBack(items, chosen) == items + chosen
    decreases |chosen|
  {
    if chosen == [] {
      assert items + chosen == items;
    } else {
      var head, rest := chosen[0], chosen[1..];
      assert chosen == [head] + rest;
      ConsIds(head, rest);
      assert Ids(items + [head]) == Ids(items) + {head.id};
      hide Ids, Distinct;
      PutBackAppends(items + [head], rest);
      assert items + [head] + rest == items + chosen;
    }
  }

  /** What is buffered stays in front as it is, and only what is missing comes behind it. */
  lemma {:induction false} PutBackKeeps(items: seq<Item>, chosen: seq<Item>)
    ensures items <= PutBack(items, chosen) && Ids(PutBack(items, chosen)) == Ids(items) + Ids(chosen)
    ensures forall i <- PutBack(items, chosen) :: i in items || (i in chosen && i.id !in Ids(items))
    decreases |chosen|
  {
    if chosen != [] {
      var head, rest := chosen[0], chosen[1..];
      assert chosen == [head] + rest;
      assert Ids(chosen) == {head.id} + Ids(rest);
      if head.id in Ids(items) {
        PutBackKeeps(items, rest);
      } else {
        assert Ids(items + [head]) == Ids(items) + {head.id};
        PutBackKeeps(items + [head], rest);
      }
    }
  }

  lemma IdsOfBoth(a: seq<Item>, b: seq<Item>)
    requires Distinct(a + b)
    ensures Distinct(a) && Distinct(b) && Ids(a) !! Ids(b) && Ids(a) + Ids(b) == Ids(a + b)
  {
    var all := a + b;
    assert forall i :: 0 <= i < |a| ==> all[i] == a[i];
    assert forall j :: 0 <= j < |b| ==> all[|a| + j] == b[j];
    forall i, j | i in a && j in b ensures i.id != j.id {
      var x :| 0 <= x < |a| && a[x] == i;
      var y :| 0 <= y < |b| && b[y] == j;
      assert all[x] == i && all[|a| + y] == j;
    }
  }

  lemma TrimSplits(items: seq<Item>, limit: nat)
    requires Distinct(items)
    ensures var c, k := Cut(items, limit), Kept(items, limit);
            && items == c + k && Distinct(k) && Ids(c) !! Ids(k) && Ids(c) + Ids(k) == Ids(items)
            && |k| <= limit
  {
    var c, k := Cut(items, limit), Kept(items, limit);
    assert items == c + k;
    IdsOfBoth(c, k);
  }

  lemma {:induction false} StoredKeeps(t: Table, rows: seq<Item>)
    ensures var t' := Stored(t, rows);
            && (forall k <- t :: k in t' && t'[k] == t[k])
            && (forall k <- t' :: k in t || exists i :: i in rows && i.entry.key == k && t'[k] == RowOf(i))
            && (forall i <- rows :: i.entry.key in t')
    decreases |rows|
  {
    if rows != [] {
      var t1 := if rows[0].entry.key in t then t else t[rows[0].entry.key := RowOf(rows[0])];
      StoredKeeps(t1, rows[1..]);
      assert rows == [rows[0]] + rows[1..];
      forall k | k in Stored(t, rows) && k !in t
        ensures exists i :: i in rows && i.entry.key == k && Stored(t, rows)[k] == RowOf(i)
      {
        if k in t1 { assert rows[0] in rows; }
        else {
          var i :| i in rows[1..] && i.entry.key == k && Stored(t, rows)[k] == RowOf(i);
          assert i in rows;
        }
      }
    }
  }

  lemma StoredAdds(t: Table, rows: seq<Item>)
    ensures Adds(t, Stored(t, rows), rows)
  {
    StoredKeeps(t, rows);
    forall k | k in Stored(t, rows) && k !in t
      ensures exists i <- rows :: i.entry.key == k && Carries(Stored(t, rows)[k], i)
    {
      var i :| i in rows && i.entry.key == k && Stored(t, rows)[k] == RowOf(i);
      assert Carries(RowOf(i), i);
    }
  }

  lemma DistinctCount(items: seq<Item>)
    requires Distinct(items)
    ensures |Ids(items)| == |items|
  {
    if items == [] {
      assert Ids(items) == {};
    } else {
      var rest := items[..|items| - 1];
      DistinctCount(rest);
      assert items == rest + [items[|items| - 1]];
      assert Ids(items) == Ids(rest) + {items[|items| - 1].id};
    }
  }
}
