/** The logger object: the buffer's dictionary and counters, changed in place. */
module RequestLogger {
  import opened Wrappers
  import opened AuditBuffer
  import opened AuditMachine

  const BUFFER_MAX_SIZE := 100
  const BUFFER_HARD_LIMIT := 10_000
  const FLUSH_RETRY_PAUSE_SECONDS := 5

  class RequestsTable {
    var rows: Table

    /** One batch; how many of its rows were new. */
    method InsertOrIgnore(batch: seq<Item>) returns (inserted: nat)
      modifies this
      ensures rows == Stored(old(rows), batch) && Adds(old(rows), rows, batch)
      ensures |rows| == |old(rows)| + inserted
    {
      StoredAdds(rows, batch);
      inserted := 0;
      var n := 0;
      while n < |batch|
        invariant n <= |batch|
        invariant Stored(rows, batch[n..]) == Stored(old(rows), batch)
        invariant |rows| == |old(rows)| + inserted
      {
        if batch[n].entry.key !in rows {
          rows := rows[batch[n].entry.key := RowOf(batch[n])];
          inserted := inserted + 1;
        }
        n := n + 1;
        assert batch[n - 1..][1..] == batch[n..];
      }
    }
  }

  class IncomingRequestLogger {
    var buffer: seq<Item>
    var droppedRequests: nat
    var pausedUntil: int

    constructor ()
      ensures buffer == [] && droppedRequests == 0 && pausedUntil == 0
    {
      buffer, droppedRequests, pausedUntil := [], 0, 0;
    }

    /**
     Appends the request and trims the oldest entries of the dictionary; answers
     whether a flush is to be scheduled. The buffer is the machine's after Start.
     */
    method StartRequest(id: Id, key: Key, flushing: bool, now: int) returns (flush: bool)
      modifies this
      ensures var grown := old(buffer) + [Item(id, Entry(key, None, NOTHING))];
              && buffer == Kept(grown, BUFFER_HARD_LIMIT)
              && droppedRequests == old(droppedRequests) + |Cut(grown, BUFFER_HARD_LIMIT)|
      ensures |buffer| == if |old(buffer)| < 10_000 then |old(buffer)| + 1 else 10_000
      ensures forall k | 0 <= k < |buffer| - 1 :: buffer[k] == old(buffer)[|old(buffer)| + 1 - |buffer| + k]
      ensures buffer[|buffer| - 1] == Item(id, Entry(key, None, NOTHING))
      ensures flush <==> |buffer| >= BUFFER_MAX_SIZE && !flushing && now >= pausedUntil
      ensures pausedUntil == old(pausedUntil)
    {
      ghost var grown := buffer + [Item(id, Entry(key, None, NOTHING))];
      buffer := buffer + [Item(id, Entry(key, None, NOTHING))];
      while |buffer| > BUFFER_HARD_LIMIT
        invariant |buffer| <= |grown| && buffer == grown[|grown| - |buffer|..]
        invariant |grown| > BUFFER_HARD_LIMIT ==> |buffer| >= BUFFER_HARD_LIMIT
        invariant |grown| <= BUFFER_HARD_LIMIT ==> buffer == grown
        invariant droppedRequests == old(droppedRequests) + |grown| - |buffer|
        invariant pausedUntil == old(pausedUntil)
      {
        buffer := buffer[1..];
        droppedRequests := droppedRequests + 1;
      }
      flush := |buffer| >= BUFFER_MAX_SIZE && !flushing && now >= pausedUntil;
    }

    /** True exactly when the request is in the buffer; the others are untouched. */
    method EndRequest(id: Id, outcome: Outcome, now: int) returns (known: bool)
      modifies this`buffer
      ensures known <==> id in Ids(old(buffer))
      ensures |buffer| == |old(buffer)|
      ensures forall k | 0 <= k < |buffer| :: buffer[k].id == old(buffer)[k].id
      ensures forall k | 0 <= k < |buffer| && old(buffer)[k].id != id :: buffer[k] == old(buffer)[k]
      ensures known ==>
        exists k | 0 <= k < |buffer| :: old(buffer)[k].id == id
          && buffer == old(buffer)[k := Item(id, Ended(old(buffer)[k].entry, outcome, now))]
    {
      var at := Find(buffer, id);
      if at.None? { return false; }
      assert buffer[at.value] in buffer;
      buffer := buffer[at.value := Item(id, Ended(buffer[at.value].entry, outcome, now))];
      known := true;
    }

    /** Under the buffer's lock: what is due leaves, the rest keeps its order. */
    method TakeDue(shutdown: bool, now: int) returns (chosen: seq<Item>)
      modifies this`buffer
      ensures chosen == Chosen(old(buffer), shutdown, now)
      ensures buffer == Left(old(buffer), shutdown, now)
    {
      chosen := [];
      var left: seq<Item> := [];
      var n := 0;
      while n < |buffer|
        invariant n <= |buffer| && buffer == old(buffer)
        invariant chosen + Chosen(buffer[n..], shutdown, now) == Chosen(buffer, shutdown, now)
        invariant left + Left(buffer[n..], shutdown, now) == Left(buffer, shutdown, now)
      {
        assert buffer[n..][1..] == buffer[n + 1..];
        if Due(buffer[n], shutdown, now) {
          chosen := chosen + [buffer[n]];
        } else {
          left := left + [buffer[n]];
        }
        n := n + 1;
      }
      buffer := left;
    }

    /** The failed write: setdefault of every picked entry, and a pause. */
    method GiveBack(chosen: seq<Item>, now: int)
      modifies this`buffer, this`pausedUntil
      ensures buffer == PutBack(old(buffer), chosen)
      ensures old(buffer) <= buffer && Ids(buffer) == Ids(old(buffer)) + Ids(chosen)
      ensures forall i <- buffer :: i in old(buffer) || (i in chosen && i.id !in Ids(old(buffer)))
      ensures pausedUntil == now + FLUSH_RETRY_PAUSE_SECONDS
    {
      PutBackKeeps(buffer, chosen);
      pausedUntil := now + FLUSH_RETRY_PAUSE_SECONDS;
      var n := 0;
      while n < |chosen|
        invariant n <= |chosen|
        invariant PutBack(buffer, chosen[n..]) == PutBack(old(buffer), chosen)
        invariant pausedUntil == now + FLUSH_RETRY_PAUSE_SECONDS
      {
        assert chosen[n..][1..] == chosen[n + 1..];
        if chosen[n].id !in Ids(buffer) {
          buffer := buffer + [chosen[n]];
        }
        n := n + 1;
      }
    }

    /**
     One flush with nobody in between. A successful one moves what was due into
     the table; a failed one moves it behind the rest and loses nothing.
     */
    method FlushBuffer(table: RequestsTable, shutdown: bool, now: int, writes: bool) returns (count: nat)
      requires Distinct(buffer)
      modifies this, table
      ensures forall i ::
        i in Chosen(old(buffer), shutdown, now)
        <==> i in old(buffer) && (shutdown || i.entry.endAt.Some? || now - i.entry.key.startAt >= 60 * 60)
      ensures writes ==>
        && buffer == Left(old(buffer), shutdown, now)
        && table.rows == Stored(old(table.rows), Chosen(old(buffer), shutdown, now))
        && Adds(old(table.rows), table.rows, Chosen(old(buffer), shutdown, now))
        && |table.rows| == |old(table.rows)| + count
      ensures !writes ==>
        && buffer == Left(old(buffer), shutdown, now) + Chosen(old(buffer), shutdown, now)
        && table.rows == old(table.rows) && count == 0
      ensures Distinct(buffer)
      ensures droppedRequests == if writes && Chosen(old(buffer), shutdown, now) != [] then 0
                                 else old(droppedRequests)
    {
      PickSplits(buffer, shutdown, now);
      ChosenIff(buffer, shutdown, now);
      var chosen := TakeDue(shutdown, now);
      if chosen == [] {
        assert buffer + chosen == buffer;
        StoredAdds(table.rows, chosen);
        return 0;
      }
      if writes {
        count := table.InsertOrIgnore(chosen);
        droppedRequests := 0;
      } else {
        PutBackAppends(buffer, chosen);
        AppendKeepsIds(buffer, chosen);
        GiveBack(chosen, now);
        count := 0;
      }
    }

    /**
     log_api_request around a route that reported `during` and then failed or
     not: the calls of the except and finally clauses erase nothing.
     */
    method LogApiRequest(id: Id, key: Key, during: seq<Outcome>, failure: Option<string>, now: int)
      requires id !in Ids(buffer) && Distinct(buffer)
      modifies this
      ensures exists k | 0 <= k < |buffer| ::
        && buffer[k].id == id
        && buffer[k].entry.endAt == Some(now)
        && buffer[k].entry.outcome.status == LastStatus(during)
        && buffer[k].entry.outcome.response == LastResponse(during)
        && buffer[k].entry.outcome.error == (if failure.Some? then failure else LastError(during))
    {
      var flush := StartRequest(id, key, false, now);
      ghost var at := |buffer| - 1;
      assert forall k | 0 <= k < at :: buffer[k] in old(buffer) && buffer[k].id in Ids(old(buffer));
      var n := 0;
      var known: bool;
      while n < |during|
        invariant 0 <= at < |buffer| && n <= |during|
        invariant buffer[at].id == id && forall k | 0 <= k < |buffer| && k != at :: buffer[k].id != id
        invariant buffer[at].entry.outcome ==
                  Outcome(LastStatus(during[..n]), LastResponse(during[..n]), LastError(during[..n]))
      {
        known := EndRequest(id, during[n], now);
        n := n + 1;
        assert during[..n][..n - 1] == during[..n - 1];
      }
      assert during[..n] == during;
      if failure.Some? {
        known := EndRequest(id, NOTHING.(error := failure), now);
      }
      known := EndRequest(id, NOTHING, now);
      assert buffer[at] in buffer;
    }
  }
}
