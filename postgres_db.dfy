/**
 * The public operations of `PostgresDB` (src/pgdb.py:77-247), each wrapped by
 * `with_db_connection` (src/pgdb.py:37-65): borrow a connection and probe it,
 * run the operation on it, and hand the connection back closed. Closing a
 * connection discards whatever transaction it left open.
 */
module Database {
  import opened Common
  import opened Feed
  import opened Schema
  import opened Ingest
  import opened PgStore
  import opened Pool

  /**
   * The operations below run under the corrected wrapper. What the wrapper as
   * written would do agrees with that: it raises the same way and leaves the
   * same connections lent, and its calls on the pool are the same ones unless
   * the probe finds the connection stale and the reset's `getconn` raises.
   */
  ghost predicate AsWrittenAgrees(before: PoolState, script: Script, bodyRaises: bool, after: PoolState, raised: bool)
  {
    var w := BorrowAsWritten(before, script, bodyRaises);
    w.raised == raised && w.pool.lent == after.lent &&
    (!(script.firstGet && script.firstProbe == Stale && !script.secondGet) ==> w.pool == after)
  }

  class PostgresDB {
    const store: Store
    const pool: ConnectionPool

    ghost predicate Valid()
      reads this, store, pool
    {
      store.Idle() && pool.Valid()
    }

    constructor (initial: State)
      requires Schema.Valid(initial)
      ensures Valid() && fresh(store) && fresh(pool)
      ensures store.committed == initial && pool.State() == PoolState({}, 0, [])
    {
      store := new Store(initial);
      pool := new ConnectionPool();
    }

    /**
     * `insert_items` under the wrapper. The feed is written and committed only
     * when a connection was obtained and every entry went through; the pool
     * ends with exactly the connections it had lent before.
     */
    method InsertItems(entries: seq<Entry>, p: Parsers, script: Script) returns (raised: bool, fault: Option<Fault>)
      requires Valid()
      modifies store, pool
      ensures Valid()
      ensures var acquired := !AcquireSteps(old(pool.State()), script).raised;
        var x := IngestAll(old(store.committed), entries, p);
        var r := Borrow(old(pool.State()), script, x.Err?);
        pool.State() == r.pool && raised == r.raised && pool.lent == old(pool.lent) &&
        AsWrittenAgrees(old(pool.State()), script, x.Err?, pool.State(), raised) &&
        (acquired && x.Ok? ==> !raised && fault.None? && store.committed == x.value) &&
        (acquired && x.Err? ==> raised && fault == Some(x.fault) && store.committed == old(store.committed)) &&
        (!acquired ==> raised && fault.None? && store.committed == old(store.committed))
    {
      BorrowReleasesEachOnce(pool.State(), script, IngestAll(store.committed, entries, p).Err?);
      BorrowAsWrittenDiffers(pool.State(), script, IngestAll(store.committed, entries, p).Err?);
      var connection, acquireRaised := pool.Acquire(script);
      fault := None;
      if !acquireRaised {
        fault := store.InsertItems(entries, p);
        store.Rollback();
      }
      raised := pool.Release(connection, acquireRaised || fault.Some?);
    }

    /**
     * `delete_item` under the wrapper. The operation itself reports its faults
     * instead of raising, so the call raises only when no connection could be
     * had; `None` then stands for "not run".
     */
    method DeleteItem(text: string, castUuid: string -> Option<string>, script: Script) returns (raised: bool, r: Option<Deletion>)
      requires Valid()
      modifies store, pool
      ensures Valid()
      ensures var acquired := !AcquireSteps(old(pool.State()), script).raised;
        var b := Borrow(old(pool.State()), script, false);
        pool.State() == b.pool && raised == b.raised && raised == !acquired && pool.lent == old(pool.lent) &&
        AsWrittenAgrees(old(pool.State()), script, false, pool.State(), raised) &&
        (!acquired ==> r.None? && store.committed == old(store.committed)) &&
        (acquired && PodcastItem !in old(store.committed).present ==>
          r == Some(DeleteFailed(UndefinedTable(PodcastItem))) && store.committed == old(store.committed)) &&
        (acquired && PodcastItem in old(store.committed).present && castUuid(text).None? ==>
          r == Some(DeleteFailed(InvalidUuidText)) && store.committed == old(store.committed)) &&
        (acquired && castUuid(text).Some? ==>
          var x := Schema.DeleteItem(old(store.committed), castUuid(text).value);
          if x.Err? then r == Some(DeleteFailed(x.fault)) && store.committed == old(store.committed)
          else r == Some(if x.value.1 > 0 then Deleted else NotFound) && store.committed == x.value.0)
    {
      BorrowReleasesEachOnce(pool.State(), script, false);
      BorrowAsWrittenDiffers(pool.State(), script, false);
      var connection, acquireRaised := pool.Acquire(script);
      r := None;
      if !acquireRaised {
        var d := store.DeleteItem(text, castUuid);
        r := Some(d);
      }
      raised := pool.Release(connection, acquireRaised);
    }

    /** `create_cv_tables(drop)` under the wrapper: the schema changes only when a connection was obtained. */
    method CreateCvTables(drop: bool, script: Script) returns (raised: bool)
      requires Valid()
      modifies store, pool
      ensures Valid()
      ensures var acquired := !AcquireSteps(old(pool.State()), script).raised;
        var b := Borrow(old(pool.State()), script, false);
        pool.State() == b.pool && raised == b.raised && raised == !acquired && pool.lent == old(pool.lent) &&
        AsWrittenAgrees(old(pool.State()), script, false, pool.State(), raised) &&
        store.committed == (if acquired then CreateTables(old(store.committed), drop) else old(store.committed))
    {
      BorrowReleasesEachOnce(pool.State(), script, false);
      BorrowAsWrittenDiffers(pool.State(), script, false);
      var connection, acquireRaised := pool.Acquire(script);
      if !acquireRaised {
        store.CreateCvTables(drop);
      }
      raised := pool.Release(connection, acquireRaised);
    }
  }
}
