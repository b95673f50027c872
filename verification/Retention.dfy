/** Deleting what is older than a retention, oldest first, in chunks of a bounded size. */
module Retention {

  /** The rows of a table: each id with its instant. */
  type Rows = map<int, int>

  const SECONDS_PER_DAY := 24 * 60 * 60

  function Old(rows: Rows, cutoff: int): set<int> {
    set id | id in rows && rows[id] < cutoff
  }

  function Ids(ids: seq<int>): set<int> {
    set id | id in ids
  }

  function Min(a: nat, b: nat): nat {
    if a < b then a else b
  }

  /** The most rows a pass of this many chunks deletes. */
  function Allowed(chunkRows: nat, chunks: nat): nat {
    if chunks == 0 then 0 else Allowed(chunkRows, chunks - 1) + chunkRows
  }

  lemma {:induction false} AllowedIsProduct(chunkRows: nat, chunks: nat)
    ensures Allowed(chunkRows, chunks) == chunkRows * chunks
  {
    if chunks > 0 {
      AllowedIsProduct(chunkRows, chunks - 1);
      assert chunkRows * (chunks - 1) + chunkRows == chunkRows * chunks;
    }
  }

  lemma {:induction false} AllowedGrows(chunkRows: nat, a: nat, b: nat)
    requires a <= b
    ensures Allowed(chunkRows, a) <= Allowed(chunkRows, b)
    ensures chunkRows == 0 ==> Allowed(chunkRows, a) == Allowed(chunkRows, b)
    decreases b
  {
    if a < b {
      AllowedGrows(chunkRows, a, b - 1);
    }
  }

  function Cutoff(now: int, days: int): int {
    now - days * SECONDS_PER_DAY
  }

  /** `gone` are the `limit` oldest rows before the cutoff, or all of them when there are fewer. */
  ghost predicate AreOldest(rows: Rows, cutoff: int, limit: nat, gone: set<int>) {
    && gone <= Old(rows, cutoff)
    && |gone| == Min(|Old(rows, cutoff)|, limit)
    && forall g, left :: g in gone && left in Old(rows, cutoff) - gone ==> rows[g] <= rows[left]
  }

  /** Taking the oldest twice is taking the oldest once, of both limits together. */
  lemma OldestCompose(rows: Rows, cutoff: int, a: nat, b: nat, first: set<int>, second: set<int>)
    requires AreOldest(rows, cutoff, a, first) && AreOldest(rows - first, cutoff, b, second)
    ensures AreOldest(rows, cutoff, a + b, first + second)
    ensures first !! second && rows - first - second == rows - (first + second)
  {
    var all, rest := Old(rows, cutoff), Old(rows - first, cutoff);
    assert rest == all - first;
    assert |all - first| == |all| - |first|;
    assert first !! second;
    assert |first + second| == |first| + |second|;
    forall g, left | g in first + second && left in all - (first + second) ensures rows[g] <= rows[left] {
      if g in second {
        assert left in rest - second;
      } else {
        assert left in all - first;
      }
    }
  }

  /** With no two rows of one instant there is only one set of the oldest. */
  lemma OldestAreUnique(rows: Rows, cutoff: int, limit: nat, x: set<int>, y: set<int>)
    requires AreOldest(rows, cutoff, limit, x) && AreOldest(rows, cutoff, limit, y)
    requires forall a, b :: a in rows && b in rows && rows[a] == rows[b] ==> a == b
    ensures x == y
  {
    if x - y == {} {
      SameSizeSubset(x, y);
    } else if y - x == {} {
      SameSizeSubset(y, x);
    } else {
      var a := AnyOf(x - y);
      var b := AnyOf(y - x);
      assert false;
    }
  }

  lemma AnyOf<T>(s: set<T>) returns (x: T)
    requires s != {}
    ensures x in s
  {
    x :| x in s;
  }

  lemma SameSizeSubset(x: set<int>, y: set<int>)
    requires x - y == {} && |x| == |y|
    ensures x == y
  {
    assert x <= y;
    assert y == x + (y - x);
    assert |y| == |x| + |y - x|;
  }

  /** These are older than the days kept, no more than allowed, and if fewer all that are. */
  ghost predicate OnlyTooOld(rows: Rows, now: int, days: int, allowed: int, gone: set<int>) {
    && (forall id <- gone :: id in rows && now - rows[id] > days * 24 * 60 * 60)
    && |gone| <= allowed
    && (|gone| < allowed ==> forall id <- rows :: id !in gone ==> now - rows[id] <= days * 24 * 60 * 60)
  }

  lemma OldestAreTooOld(rows: Rows, now: int, days: int, chunkRows: nat, chunks: nat, gone: set<int>)
    requires AreOldest(rows, Cutoff(now, days), Allowed(chunkRows, chunks), gone)
    ensures OnlyTooOld(rows, now, days, Allowed(chunkRows, chunks), gone)
  {
    var all := Old(rows, Cutoff(now, days));
    if |gone| < Allowed(chunkRows, chunks) {
      assert |gone| == |all|;
      assert |all - gone| == |all| - |gone|;
      assert all - gone == {};
      forall id | id in rows && id !in gone ensures now - rows[id] <= days * 24 * 60 * 60 {
        assert id !in all;
      }
    }
  }

  class Table {
    var rows: Rows

    constructor (rows: Rows)
      ensures this.rows == rows
    {
      this.rows := rows;
    }

    /** SELECT id ... ORDER BY ... ASC LIMIT: equal instants come in any order. */
    method SelectOldest(cutoff: int, limit: nat) returns (ids: seq<int>)
      ensures forall i, j :: 0 <= i < j < |ids| ==> ids[i] != ids[j]
      ensures AreOldest(rows, cutoff, limit, Ids(ids)) && |ids| == |Ids(ids)|
    {
      ids := [];
      var left := Old(rows, cutoff);
      ghost var all := left;
      while |ids| < limit && left != {}
        invariant left <= all && forall id :: id in ids <==> id in all && id !in left
        invariant forall i, j :: 0 <= i < j < |ids| ==> ids[i] != ids[j]
        invariant |ids| + |left| == |all| && |ids| <= limit
        invariant forall g, l :: g in ids && l in left ==> rows[g] <= rows[l]
        decreases |left|
      {
        OldestExists(rows, left);
        var id :| id in left && forall x <- left :: rows[id] <= rows[x];
        ids := ids + [id];
        left := left - {id};
      }
      ghost var taken := Ids(ids);
      assert forall id :: id in taken <==> id in all && id !in left;
      assert taken == all - left;
      assert |all - left| == |all| - |left|;
    }

    /** One chunk: the oldest rows selected, and deleted by their ids. */
    method DeleteChunk(cutoff: int, chunkRows: nat) returns (found: nat, ghost gone: set<int>)
      modifies this
      ensures AreOldest(old(rows), cutoff, chunkRows, gone)
      ensures rows == old(rows) - gone && found == |gone|
    {
      var ids := SelectOldest(cutoff, chunkRows);
      gone := Ids(ids);
      found := |ids|;
      if ids != [] {
        rows := rows - Ids(ids);
      }
    }

    /**
     One pass: the rows deleted are the oldest, as many as all chunks together
     allow, and their number is returned; nothing else changes.
     */
    method PurgeOlderThan(days: int, chunkRows: nat, maxChunks: nat, now: int) returns (removed: nat)
      modifies this
      ensures var gone := old(rows).Keys - rows.Keys;
              AreOldest(old(rows), Cutoff(now, days), Allowed(chunkRows, maxChunks), gone)
              && rows == old(rows) - gone && removed == |gone|
      ensures OnlyTooOld(old(rows), now, days, Allowed(chunkRows, maxChunks), old(rows).Keys - rows.Keys)
    {
      hide Allowed, Cutoff, AreOldest, Old, OnlyTooOld;
      var cutoff := Cutoff(now, days);
      removed := 0;
      ghost var start := rows;
      ghost var gone: set<int>, limit: nat := {}, 0;
      assert rows == start - gone;
      NoneAreOldest(rows, cutoff);
      OneChunkMore(chunkRows, 0, maxChunks);
      ghost var full := Allowed(chunkRows, maxChunks);
      var chunk := 0;
      while chunk < maxChunks
        invariant chunk <= maxChunks && gone <= start.Keys
        invariant rows == start - gone && removed == |gone|
        invariant limit == Allowed(chunkRows, chunk) && AreOldest(start, cutoff, limit, gone)
      {
        var found, next := DeleteChunk(cutoff, chunkRows);
        OneChunkMore(chunkRows, chunk, maxChunks);
        MoreChangesNothing(start, cutoff, limit, chunkRows, full, gone, next);
        gone := gone + next;
        removed := removed + found;
        if found == 0 || found < chunkRows {
          limit := full;
          break;
        }
        chunk, limit := chunk + 1, limit + chunkRows;
      }
      PassIs(start, rows, now, days, chunkRows, maxChunks, gone);
    }
  }

  /** What is missing after the pass is what was taken: the oldest, and only what is too old. */
  lemma PassIs(start: Rows, rows: Rows, now: int, days: int, chunkRows: nat, chunks: nat, gone: set<int>)
    requires gone <= start.Keys && rows == start - gone
    requires AreOldest(start, Cutoff(now, days), Allowed(chunkRows, chunks), gone)
    ensures start.Keys - rows.Keys == gone
    ensures OnlyTooOld(start, now, days, Allowed(chunkRows, chunks), start.Keys - rows.Keys)
  {
    assert start.Keys - rows.Keys == gone;
    OldestAreTooOld(start, now, days, chunkRows, chunks, gone);
  }

  lemma OneChunkMore(chunkRows: nat, chunk: nat, chunks: nat)
    ensures Allowed(chunkRows, 0) == 0
    ensures Allowed(chunkRows, chunk + 1) == Allowed(chunkRows, chunk) + chunkRows
    ensures chunk < chunks ==> Allowed(chunkRows, chunk + 1) <= Allowed(chunkRows, chunks)
    ensures chunk < chunks && chunkRows == 0 ==> Allowed(chunkRows, chunks) == Allowed(chunkRows, chunk)
  {
    if chunk < chunks {
      AllowedGrows(chunkRows, chunk + 1, chunks);
    }
  }

  lemma NoneAreOldest(rows: Rows, cutoff: int)
    ensures AreOldest(rows, cutoff, 0, {}) && rows - {} == rows
  {
  }

  lemma {:induction false} OldestExists(rows: Rows, left: set<int>)
    requires left != {} && left <= rows.Keys
    ensures exists id :: id in left && forall x <- left :: rows[id] <= rows[x]
    decreases |left|
  {
    var a := AnyOf(left);
    if left == {a} {
      assert forall x <- left :: rows[a] <= rows[x];
    } else {
      OldestExists(rows, left - {a});
      var b :| b in left - {a} && forall x <- left - {a} :: rows[b] <= rows[x];
      var c := if rows[a] <= rows[b] then a else b;
      assert forall x <- left :: x != a ==> x in left - {a};
      assert c in left && forall x <- left :: rows[c] <= rows[x];
    }
  }

  /** A chunk that is not full took the last old row: a greater limit takes no more. */
  lemma MoreChangesNothing(rows: Rows, cutoff: int, a: nat, b: nat, limit: nat, first: set<int>, second: set<int>)
    requires AreOldest(rows, cutoff, a, first) && AreOldest(rows - first, cutoff, b, second)
    requires a + b <= limit
    ensures |second| < b || (b == 0 && limit == a) ==> AreOldest(rows, cutoff, limit, first + second)
    ensures AreOldest(rows, cutoff, a + b, first + second)
    ensures first + second <= rows.Keys && |first + second| == |first| + |second|
    ensures rows - first - second == rows - (first + second)
  {
    OldestCompose(rows, cutoff, a, b, first, second);
    var rest := Old(rows - first, cutoff);
    assert rest == Old(rows, cutoff) - first;
    if b > 0 {
      assert |rest| == |Old(rows, cutoff)| - |first|;
    }
  }
}
