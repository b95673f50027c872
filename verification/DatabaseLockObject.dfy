/**
 The lock object of one replica: its methods run the statements of the machine
 in the order the source does, and set the `acquired` flag from their answers.
 */
module DatabaseLockObject {
  import opened Wrappers
  import opened DistributedLock

  /** The `distributed_locks` table; each method is one committed statement. */
  class LockTable {
    var rows: Table

    constructor ()
      ensures rows == map[]
    {
      rows := map[];
    }

    method Sweep(name: string, cutoff: int)
      modifies this
      ensures rows == Swept(old(rows), name, cutoff)
    {
      if name in rows && rows[name].acquiredAt < cutoff {
        rows := rows - {name};
      }
    }

    method Insert(l: Locker, stamp: int) returns (ok: bool)
      modifies this
      ensures ok == Inserted(old(rows), l, stamp).Some?
      ensures rows == if ok then Inserted(old(rows), l, stamp).value else old(rows)
    {
      ok := l.name !in rows;
      if ok { rows := rows[l.name := Row(l.instance, stamp)]; }
    }

    method Clear(name: string)
      modifies this
      ensures rows == Cleared(old(rows), name)
    {
      rows := rows - {name};
    }

    method Update(l: Locker, stamp: int) returns (moved: bool)
      modifies this
      ensures moved == Renewed(old(rows), l, stamp).Some?
      ensures rows == if moved then Renewed(old(rows), l, stamp).value else old(rows)
    {
      moved := l.name in rows && rows[l.name].instance == l.instance;
      if moved { rows := rows[l.name := Row(l.instance, stamp)]; }
    }

    method Delete(l: Locker)
      modifies this
      ensures rows == Released(old(rows), l)
    {
      if l.name in rows && rows[l.name].instance == l.instance {
        rows := rows - {l.name};
      }
    }
  }

  class DatabaseLock {
    const me: Locker
    const maxLockTime: int
    const db: LockTable
    var acquired: bool

    /** `maxLockTime` is twice the timeout when the caller names none. */
    constructor (me: Locker, timeout: nat, maxLockTime: Option<nat>, db: LockTable)
      ensures this.me == me && this.db == db && !acquired
      ensures this.maxLockTime ==
        if maxLockTime.Some? && maxLockTime.value != 0 then maxLockTime.value else 2 * timeout
    {
      this.me, this.db, this.acquired := me, db, false;
      this.maxLockTime :=
        if maxLockTime.Some? && maxLockTime.value != 0 then maxLockTime.value else timeout * 2;
    }

    /** The holder's own rows survive the attempt; a row strictly older than the limit does not. */
    ghost function Attempted(t: Table, sweepAt: int, insertAt: int, readAt: int): (r: (Table, bool)) {
      var swept := Swept(t, me.name, sweepAt - maxLockTime);
      if me.name !in swept then (swept[me.name := Row(me.instance, insertAt)], true)
      else if readAt - swept[me.name].acquiredAt > maxLockTime
      then (swept[me.name := Row(me.instance, readAt)], true)
      else (swept, false)
    }

    /**
     Sweep, INSERT, and on a refused INSERT the takeover of an expired row, which
     sweeps and inserts once more. With nobody between the statements the lock is
     taken exactly when no row of its name is within the limit at the last look.
     */
    method Acquire(sweepAt: int, insertAt: int, readAt: int) returns (ok: bool)
      requires sweepAt <= insertAt <= readAt
      modifies this, db
      ensures (db.rows, ok) == Attempted(old(db.rows), sweepAt, insertAt, readAt)
      ensures ok <==> (me.name in old(db.rows) ==>
        readAt - old(db.rows)[me.name].acquiredAt > maxLockTime
        || sweepAt - old(db.rows)[me.name].acquiredAt > maxLockTime)
      ensures ok ==> acquired && db.rows == old(db.rows)[me.name := Row(me.instance,
        if me.name !in old(db.rows) || sweepAt - old(db.rows)[me.name].acquiredAt > maxLockTime then insertAt else readAt)]
      ensures !ok ==> acquired == old(acquired) && db.rows == old(db.rows)
      ensures forall n | n in old(db.rows) && n != me.name :: n in db.rows && db.rows[n] == old(db.rows)[n]
    {
      db.Sweep(me.name, sweepAt - maxLockTime);
      ok := db.Insert(me, insertAt);
      if !ok {
        ok := TryAcquireExisting(readAt);
      } else {
        acquired := true;
      }
    }

    method TryAcquireExisting(readAt: int) returns (ok: bool)
      modifies this, db
      ensures ok <==> me.name in old(db.rows) && readAt - old(db.rows)[me.name].acquiredAt > maxLockTime
      ensures db.rows == if ok then old(db.rows)[me.name := Row(me.instance, readAt)] else old(db.rows)
      ensures acquired == (ok || old(acquired))
    {
      ok := false;
      if me.name !in db.rows { return; }
      if readAt - db.rows[me.name].acquiredAt > maxLockTime {
        db.Clear(me.name);
        db.Sweep(me.name, readAt - maxLockTime);
        ok := db.Insert(me, readAt);
        acquired := true;
      }
    }

    /** True exactly when the row was still this holder's to move; otherwise the flag goes. */
    method Renew(now: int) returns (moved: bool)
      modifies this, db
      ensures moved <==> old(acquired) && Names(old(db.rows), me)
      ensures acquired == moved
      ensures db.rows == if moved then old(db.rows)[me.name := Row(me.instance, now)] else old(db.rows)
    {
      if !acquired { return false; }
      moved := db.Update(me, now);
      if !moved { acquired := false; }
    }

    /** Only a holder deletes, and only its own row. */
    method Release()
      modifies this, db
      ensures !acquired
      ensures db.rows == if old(acquired) && Names(old(db.rows), me) then old(db.rows) - {me.name} else old(db.rows)
    {
      if !acquired { return; }
      db.Delete(me);
      acquired := false;
    }
  }

  // ---------- the methods are runs of the machine ----------

  lemma Leads(m: Limits, s: State, e: Step, steps: seq<Step>)
    requires Enabled(m, s, e) && Legal(m, Apply(m, s, e), steps)
    ensures Legal(m, s, [e] + steps) && After(m, s, [e] + steps) == After(m, Apply(m, s, e), steps)
  {
    assert ([e] + steps)[1..] == steps;
  }

  lemma TwoSteps(m: Limits, s: State, a: Step, b: Step)
    requires Enabled(m, s, a) && Enabled(m, Apply(m, s, a), b)
    ensures Legal(m, s, [a, b]) && After(m, s, [a, b]) == Apply(m, Apply(m, s, a), b)
  {
    Leads(m, Apply(m, s, a), b, []);
    Leads(m, s, a, [b]);
  }

  /** The steps of an attempt that is not refused at once, and of one that is. */
  function Attempt(l: Locker, at: int, limit: int, t: Table): seq<Step> {
    var swept := Swept(t, l.name, at - limit);
    if l.name !in swept then [Sweep(l, at), Insert(l, at)] + [SetFlag(l)] else [Sweep(l, at), Insert(l, at)]
  }

  /**
   With one clock for its statements an attempt of an idle locker is a run of the
   machine: sweep, INSERT and the flag. It is held afterwards exactly when no row
   of its name was within its limit, and then the row is its own.
   */
  lemma AcquireIsARun(m: Limits, s: State, l: Locker)
    requires l in m && l in s.phase && s.phase[l].Idle?
    ensures var steps := Attempt(l, s.now, m[l], s.table);
      && Legal(m, s, steps)
      && var s' := After(m, s, steps);
         && s'.now == s.now && s'.expired == s.expired
         && (l.name in s.table && s.now - s.table[l.name].acquiredAt <= m[l] ==> s'.table == s.table && s'.phase == s.phase)
         && (l.name !in s.table || s.now - s.table[l.name].acquiredAt > m[l] ==>
               s'.table == s.table[l.name := Row(l.instance, s.now)] && s'.phase == s.phase[l := Holding])
  {
    var sweep, insert := Sweep(l, s.now), Insert(l, s.now);
    var s1 := Apply(m, s, sweep);
    var s2 := Apply(m, s1, insert);
    TwoSteps(m, s, sweep, insert);
    if l.name !in s1.table {
      var flag := SetFlag(l);
      Leads(m, s2, flag, []);
      Leads(m, s1, insert, [flag]);
      Leads(m, s, sweep, [insert] + [flag]);
      assert Attempt(l, s.now, m[l], s.table) == [sweep] + ([insert] + [flag]);
      assert (s.table - {l.name})[l.name := Row(l.instance, s.now)] == s.table[l.name := Row(l.instance, s.now)];
    }
  }

  /** A holder's renewal in the machine: its own row takes the stamp, or the flag goes and the table stays. */
  lemma RenewIsAStep(m: Limits, s: State, l: Locker, stamp: int)
    requires l in m && l in s.phase && s.phase[l].Holding? && stamp <= s.now
    ensures Enabled(m, s, Step.Renew(l, stamp))
    ensures var s' := Apply(m, s, Step.Renew(l, stamp));
      && (Names(s.table, l) ==>
            s'.table == s.table[l.name := Row(l.instance, stamp)] && s'.phase == s.phase)
      && (!Names(s.table, l) ==> s'.table == s.table && s'.phase == s.phase[l := Idle])
      && s'.now == s.now && s'.expired == s.expired
  {
  }

  /** A holder's release in the machine: its own row goes, no other's does, and it is idle again. */
  lemma ReleaseIsARun(m: Limits, s: State, l: Locker)
    requires l in m && l in s.phase && s.phase[l].Holding?
    ensures Legal(m, s, [Step.Release(l), ClearFlag(l)])
    ensures var s' := After(m, s, [Step.Release(l), ClearFlag(l)]);
      && s'.table == (if Names(s.table, l) then s.table - {l.name} else s.table)
      && s'.phase == s.phase[l := Idle] && s'.now == s.now && s'.expired == s.expired
  {
    TwoSteps(m, s, Step.Release(l), ClearFlag(l));
    assert s.phase[l := Leaving][l := Idle] == s.phase[l := Idle];
  }

  /**
   The context manager: a new lock taken, renewed on its beats and released. It
   leaves no row of its name behind, and a lock it could not take as it was.
   */
  method DistributedLockScope(me: Locker, timeout: nat, maxLockTime: Option<nat>, db: LockTable, now: int,
                              beats: seq<int>)
    returns (ok: bool)
    modifies db
    ensures ok ==> db.rows == old(db.rows) - {me.name}
    ensures !ok ==> db.rows == old(db.rows) && me.name in db.rows
  {
    var lock := new DatabaseLock(me, timeout, maxLockTime, db);
    ok := lock.Acquire(now, now, now);
    if ok {
      var n := 0;
      while n < |beats|
        invariant lock.acquired && lock.me == me && lock.db == db && Names(db.rows, me)
        invariant db.rows - {me.name} == old(db.rows) - {me.name}
      {
        var _ := lock.Renew(beats[n]);
        n := n + 1;
      }
    }
    lock.Release();
  }
}
