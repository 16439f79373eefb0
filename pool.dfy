/**
 * The connection-borrowing wrapper `with_db_connection` (src/pgdb.py:37-65)
 * over an abstract pool. `getconn` either hands out a new connection or
 * raises; `putconn(close=True)` takes back a connection it lent and refuses
 * (raises) one it did not; the liveness probe is answered by a `Script`.
 * Every call is appended to a log so that what was taken and given back can
 * be counted.
 */
module Pool {
  import opened Common

  /** One call on the pool. */
  datatype Event = Got(conn: nat) | GetFailed | Put(conn: nat) | PutRejected(conn: nat)

  /** The connections lent out and not yet given back, the next connection's name, and the calls so far. */
  datatype PoolState = PoolState(lent: set<nat>, nextConn: nat, log: seq<Event>)

  /** How the probe `SELECT version();` on a connection ends: `Stale` is an OperationalError or InterfaceError. */
  datatype Probe = Alive | Stale | Broken

  /** How the environment answers, in order: the first `getconn`, its probe, the reset `getconn`, and `SELECT 1`. */
  datatype Script = Script(firstGet: bool, firstProbe: Probe, secondGet: bool, secondProbe: bool)

  /** The value of `connection` after the `try` prefix (lines 40-53), and whether that prefix raised. */
  datatype Acquired = Acquired(pool: PoolState, conn: Option<nat>, raised: bool)

  /** The pool after the `except`/`finally` handlers, and whether the call raises. */
  datatype Released = Released(pool: PoolState, raised: bool)

  ghost predicate PoolValid(p: PoolState)
  {
    forall c :: c in p.lent ==> c < p.nextConn
  }

  function GetConnStep(p: PoolState, available: bool): (PoolState, Option<nat>)
  {
    if available then (PoolState(p.lent + {p.nextConn}, p.nextConn + 1, p.log + [Got(p.nextConn)]), Some(p.nextConn))
    else (p.(log := p.log + [GetFailed]), None)
  }

  function PutConnStep(p: PoolState, c: nat): (PoolState, bool)
  {
    if c in p.lent then (p.(lent := p.lent - {c}, log := p.log + [Put(c)]), true)
    else (p.(log := p.log + [PutRejected(c)]), false)
  }

  /**
   * Lines 40-53 as written: when the reset's `getconn` raises, `connection`
   * still names the stale connection that was already put back.
   */
  function AcquireAsWrittenSteps(p: PoolState, script: Script): Acquired
  {
    var (p1, first) := GetConnStep(p, script.firstGet);
    if first.None? then Acquired(p1, None, true)
    else
      match script.firstProbe
      case Alive => Acquired(p1, first, false)
      case Broken => Acquired(p1, first, true)
      case Stale =>
        var (p2, _) := PutConnStep(p1, first.value);
        var (p3, second) := GetConnStep(p2, script.secondGet);
        if second.None? then Acquired(p3, first, true)
        else Acquired(p3, second, !script.secondProbe)
  }

  /** Lines 40-53 with `connection` cleared once the stale connection is put back. */
  function AcquireSteps(p: PoolState, script: Script): Acquired
  {
    var (p1, first) := GetConnStep(p, script.firstGet);
    if first.None? then Acquired(p1, None, true)
    else
      match script.firstProbe
      case Alive => Acquired(p1, first, false)
      case Broken => Acquired(p1, first, true)
      case Stale =>
        var (p2, _) := PutConnStep(p1, first.value);
        var (p3, second) := GetConnStep(p2, script.secondGet);
        Acquired(p3, second, second.None? || !script.secondProbe)
  }

  /**
   * Lines 55-63: on a raise, put the connection back and clear it; then, in
   * `finally`, put back whatever `connection` still names. A refused put
   * raises from inside the handler, so `connection` is not cleared.
   */
  function ReleaseSteps(p: PoolState, conn: Option<nat>, raised: bool): Released
  {
    if conn.None? then Released(p, raised)
    else if raised then
      var (p1, accepted) := PutConnStep(p, conn.value);
      if accepted then Released(p1, true)
      else Released(PutConnStep(p1, conn.value).0, true)
    else
      var (p1, accepted) := PutConnStep(p, conn.value);
      Released(p1, !accepted)
  }

  /** The whole wrapper around a body that raises or not; the body runs only when acquiring did not raise. */
  function Borrow(p: PoolState, script: Script, bodyRaises: bool): Released
  {
    var a := AcquireSteps(p, script);
    ReleaseSteps(a.pool, a.conn, a.raised || bodyRaises)
  }

  function BorrowAsWritten(p: PoolState, script: Script, bodyRaises: bool): Released
  {
    var a := AcquireAsWrittenSteps(p, script);
    ReleaseSteps(a.pool, a.conn, a.raised || bodyRaises)
  }

  /** How many times `getconn` was called. */
  function Gets(log: seq<Event>): nat
  {
    if log == [] then 0 else (if log[0].Got? || log[0] == GetFailed then 1 else 0) + Gets(log[1..])
  }

  ghost predicate NoRejectedPut(log: seq<Event>)
  {
    forall k :: 0 <= k < |log| ==> !log[k].PutRejected?
  }

  /**
   * A run of pool calls that calls `getconn` at most twice, gives back every
   * connection it got exactly once and nothing else, and never has a put refused.
   */
  ghost predicate Balanced(calls: seq<Event>)
  {
    Gets(calls) <= 2 && NoRejectedPut(calls) &&
    (forall c :: Got(c) in calls ==> multiset(calls)[Put(c)] == 1) &&
    (forall c :: Put(c) in calls ==> Got(c) in calls)
  }

  /**
   * Whatever the pool and the probes do and whether the body raises, the
   * wrapper calls `getconn` at most twice, gives back every connection it got
   * exactly once, never hands back one it does not hold, lends nothing out
   * when it returns, and raises exactly when acquiring or the body raised.
   */
  lemma BorrowReleasesEachOnce(p: PoolState, script: Script, bodyRaises: bool)
    requires PoolValid(p)
    ensures var r := Borrow(p, script, bodyRaises);
      var calls := r.pool.log[|p.log|..];
      PoolValid(r.pool) && r.pool.lent == p.lent && |p.log| <= |r.pool.log| && r.pool.log[..|p.log|] == p.log &&
      Balanced(calls) &&
      (r.raised <==> AcquireSteps(p, script).raised || bodyRaises)
  {
    var c0 := p.nextConn;
    var c1 := p.nextConn + 1;
    assert c0 !in p.lent && c1 !in p.lent;
    var r := Borrow(p, script, bodyRaises);
    var calls := r.pool.log[|p.log|..];
    if !script.firstGet {
      assert r.pool.log == p.log + [GetFailed];
    } else if script.firstProbe != Stale {
      assert r.pool.log == p.log + [Got(c0), Put(c0)];
    } else if !script.secondGet {
      assert r.pool.log == p.log + [Got(c0), Put(c0), GetFailed];
    } else {
      assert r.pool.log == p.log + [Got(c0), Put(c0), Got(c1), Put(c1)];
    }
    CallShapes(calls, c0, c1);
  }

  /** The four call sequences the wrapper can make are balanced. */
  lemma CallShapes(calls: seq<Event>, c0: nat, c1: nat)
    requires c0 != c1
    requires calls == [Got(c0), Put(c0)] || calls == [GetFailed] ||
             calls == [Got(c0), Put(c0), GetFailed] || calls == [Got(c0), Put(c0), Got(c1), Put(c1)]
    ensures Balanced(calls)
  {
    if calls == [Got(c0), Put(c0), Got(c1), Put(c1)] {
      ResetBalanced(c0, c1);
    } else if calls == [Got(c0), Put(c0), GetFailed] {
      FailedResetBalanced(c0);
    } else if calls == [Got(c0), Put(c0)] {
      SingleBalanced(c0);
    } else {
      assert calls[1..] == [];
    }
  }

  /** One connection, got and put back. */
  lemma SingleBalanced(c: nat)
    ensures Balanced([Got(c), Put(c)])
  {
    var calls := [Got(c), Put(c)];
    assert calls[1..] == [Put(c)] && calls[1..][1..] == [];
    assert Gets(calls[1..]) == 0;
  }

  /** A stale connection put back, then a reset whose `getconn` raises. */
  lemma FailedResetBalanced(c: nat)
    ensures Balanced([Got(c), Put(c), GetFailed])
  {
    var calls := [Got(c), Put(c), GetFailed];
    assert calls[1..] == [Put(c), GetFailed] && calls[1..][1..] == [GetFailed];
    assert Gets(calls[1..][1..]) == 1;
  }

  /** A stale connection put back, then a second connection got and put back. */
  lemma ResetBalanced(c0: nat, c1: nat)
    requires c0 != c1
    ensures Balanced([Got(c0), Put(c0), Got(c1), Put(c1)])
  {
    var calls := [Got(c0), Put(c0), Got(c1), Put(c1)];
    var tail := calls[1..];
    assert tail == [Put(c0), Got(c1), Put(c1)];
    assert tail[1..] == [Got(c1), Put(c1)];
    assert tail[1..][1..] == [Put(c1)];
    assert Gets(tail[1..][1..]) == 0;
    assert Gets(tail) == 1;
  }

  /**
   * The code as written differs from the corrected wrapper in one case only:
   * the probe finds the connection stale and the reset's `getconn` raises.
   * Then the stale connection, already given back, is put back twice more and
   * both puts are refused, so the pool's error replaces the original one. The
   * call raises either way and the pool ends lending the same connections.
   */
  lemma BorrowAsWrittenDiffers(p: PoolState, script: Script, bodyRaises: bool)
    requires PoolValid(p)
    ensures BorrowAsWritten(p, script, bodyRaises).raised == Borrow(p, script, bodyRaises).raised
    ensures BorrowAsWritten(p, script, bodyRaises).pool.lent == Borrow(p, script, bodyRaises).pool.lent
    ensures !(script.firstGet && script.firstProbe == Stale && !script.secondGet) ==>
      BorrowAsWritten(p, script, bodyRaises) == Borrow(p, script, bodyRaises)
    ensures script.firstGet && script.firstProbe == Stale && !script.secondGet ==>
      BorrowAsWritten(p, script, bodyRaises).pool.log ==
        p.log + [Got(p.nextConn), Put(p.nextConn), GetFailed, PutRejected(p.nextConn), PutRejected(p.nextConn)]
  {
    assert p.nextConn !in p.lent;
  }

  /** The concrete run that shows it, on a fresh pool. */
  lemma StaleResetDoubleRelease()
    ensures BorrowAsWritten(PoolState({}, 0, []), Script(true, Stale, false, true), false).pool.log ==
      [Got(0), Put(0), GetFailed, PutRejected(0), PutRejected(0)]
    ensures !NoRejectedPut(BorrowAsWritten(PoolState({}, 0, []), Script(true, Stale, false, true), false).pool.log)
  {
    var log := BorrowAsWritten(PoolState({}, 0, []), Script(true, Stale, false, true), false).pool.log;
    assert log[3].PutRejected?;
  }

  /** The pool, as an object whose state the wrapper changes call by call. */
  class ConnectionPool {
    var lent: set<nat>
    var nextConn: nat
    var log: seq<Event>

    function State(): PoolState
      reads this
    {
      PoolState(lent, nextConn, log)
    }

    ghost predicate Valid()
      reads this
    {
      PoolValid(State())
    }

    constructor ()
      ensures Valid() && State() == PoolState({}, 0, [])
    {
      lent := {};
      nextConn := 0;
      log := [];
    }

    /** `self._db_pool.getconn()`; `available` says whether the pool can hand out a connection. */
    method GetConn(available: bool) returns (conn: Option<nat>)
      modifies this
      ensures (State(), conn) == GetConnStep(old(State()), available)
    {
      var (q, c) := GetConnStep(State(), available);
      lent, nextConn, log := q.lent, q.nextConn, q.log;
      return c;
    }

    /** `self._db_pool.putconn(conn, close=True)`; `accepted` is false when it raises. */
    method PutConn(conn: nat) returns (accepted: bool)
      modifies this
      ensures (State(), accepted) == PutConnStep(old(State()), conn)
    {
      var (q, ok) := PutConnStep(State(), conn);
      lent, nextConn, log := q.lent, q.nextConn, q.log;
      return ok;
    }

    /** The `try` prefix of the wrapper as written (lines 40-53). */
    method AcquireAsWritten(script: Script) returns (connection: Option<nat>, raised: bool)
      modifies this
      ensures Acquired(State(), connection, raised) == AcquireAsWrittenSteps(old(State()), script)
    {
      connection := None;
      var first := GetConn(script.firstGet);
      if first.None? {
        return None, true;
      }
      connection := first;
      raised := false;
      match script.firstProbe {
        case Alive =>
        case Broken =>
          raised := true;
        case Stale =>
          var _ := PutConn(connection.value);
          var second := GetConn(script.secondGet);
          if second.None? {
            return connection, true;
          }
          connection := second;
          raised := !script.secondProbe;
      }
    }

    /** The `try` prefix with `connection` cleared after the stale connection is put back. */
    method Acquire(script: Script) returns (connection: Option<nat>, raised: bool)
      modifies this
      ensures Acquired(State(), connection, raised) == AcquireSteps(old(State()), script)
    {
      connection := None;
      var first := GetConn(script.firstGet);
      if first.None? {
        return None, true;
      }
      connection := first;
      raised := false;
      match script.firstProbe {
        case Alive =>
        case Broken =>
          raised := true;
        case Stale =>
          var _ := PutConn(connection.value);
          connection := None;
          connection := GetConn(script.secondGet);
          raised := connection.None? || !script.secondProbe;
      }
    }

    /** The `except` and `finally` handlers (lines 55-63). */
    method Release(conn: Option<nat>, raisedBefore: bool) returns (raised: bool)
      modifies this
      ensures Released(State(), raised) == ReleaseSteps(old(State()), conn, raisedBefore)
    {
      var connection := conn;
      raised := raisedBefore;
      if raised && connection.Some? {
        var accepted := PutConn(connection.value);
        if accepted {
          connection := None;
        }
      }
      if connection.Some? {
        var accepted := PutConn(connection.value);
        if !accepted {
          raised := true;
        }
      }
    }
  }
}
