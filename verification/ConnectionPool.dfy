/**
 * The connection pool of `connection_pool.cpp` as a monitor: each method is one stretch of code
 * under the queue's mutex, made by the producer, a caller, a caller's deleter or the scanner.
 * Clock readings and the outcome of connecting are inputs.
 */
module ConnectionPool {

  /** A connection and the clock when it last became idle. */
  datatype Connection = Connection(id: nat, since: int)

  datatype Lease = TimedOut | Lent(conn: Connection)

  /** Idle times never decrease from the front of the queue to its back. */
  ghost predicate Ordered(idle: seq<Connection>) {
    forall i, j | 0 <= i <= j < |idle| :: idle[i].since <= idle[j].since
  }

  ghost predicate DistinctIds(idle: seq<Connection>) {
    forall i, j | 0 <= i < j < |idle| :: idle[i].id != idle[j].id
  }

  /** The idle time that makes a connection removable. */
  predicate Expired(c: Connection, now: int, maxIdleTime: int) {
    now - c.since >= maxIdleTime * 1000
  }

  /** The first `n` of `idle` were each expired when the scanner looked at them. */
  ghost predicate ExpiredOnSight(idle: seq<Connection>, clock: seq<int>, n: nat, maxIdleTime: int)
    requires n <= |idle| <= |clock|
  {
    forall i | 0 <= i < n :: Expired(idle[i], clock[i], maxIdleTime)
  }

  /** Behind a front that has not expired nothing has. */
  lemma FreshFront(idle: seq<Connection>, now: int, maxIdleTime: int)
    requires Ordered(idle) && idle != [] && !Expired(idle[0], now, maxIdleTime)
    ensures forall c | c in idle :: !Expired(c, now, maxIdleTime)
  {
  }

  ghost predicate Rising(clock: seq<int>) {
    forall i, j | 0 <= i <= j < |clock| :: clock[i] <= clock[j]
  }

  class Pool {
    const initSize: int
    const maxSize: int
    const maxIdleTime: int
    var idle: seq<Connection>
    var cnt: int
    var made: nat                   // identities used so far
    ghost var lent: set<nat>        // identities out with callers
    ghost var last: int             // the latest clock reading

    ghost predicate Valid()
      reads this
    {
      && cnt == |idle| + |lent| && (cnt <= maxSize || cnt <= initSize || cnt == 0)
      && Ordered(idle) && DistinctIds(idle)
      && (forall i | 0 <= i < |idle| :: idle[i].id < made && idle[i].id !in lent && idle[i].since <= last)
      && (forall id | id in lent :: id < made)
    }

    /** One idle connection for each of the first `initSize` tries that connects, idle since then. */
    constructor (initSize: int, maxSize: int, maxIdleTime: int, connects: seq<bool>, clock: seq<int>)
      requires |connects| == |clock| && |clock| >= initSize && Rising(clock)
      ensures Valid() && lent == {} && cnt == |idle| == |set i | 0 <= i < initSize && connects[i]|
      ensures forall c | c in idle :: exists i :: 0 <= i < initSize && connects[i] && c.since == clock[i]
      ensures this.initSize == initSize && this.maxSize == maxSize && this.maxIdleTime == maxIdleTime
    {
      this.initSize, this.maxSize, this.maxIdleTime := initSize, maxSize, maxIdleTime;
      idle, cnt, made, lent := [], 0, 0, {};
      last := if clock == [] then 0 else clock[0];
      new;
      var i := 0;
      while i < initSize
        invariant 0 <= i && (i <= initSize || i == 0) && Valid() && lent == {} && cnt <= i
        invariant i < |clock| ==> last <= clock[i]
        invariant |idle| == |set j | 0 <= j < i && connects[j]|
        invariant forall c | c in idle :: exists j :: 0 <= j < i && connects[j] && c.since == clock[j]
      {
        ghost var before := set j | 0 <= j < i && connects[j];
        assert (set j | 0 <= j < i + 1 && connects[j]) == if connects[i] then before + {i} else before;
        if connects[i] {
          Push(clock[i]);
        }
        i := i + 1;
      }
      assert (set j | 0 <= j < i && connects[j]) == set j | 0 <= j < initSize && connects[j];
    }

    /** A freshly connected connection joins the queue. */
    method Push(now: int)
      requires Valid() && now >= last && (cnt < maxSize || cnt < initSize)
      modifies this
      ensures Valid() && last == now && lent == old(lent)
      ensures idle == old(idle) + [Connection(old(made), now)] && cnt == old(cnt) + 1
    {
      idle := idle + [Connection(made, now)];
      cnt := cnt + 1;
      made := made + 1;
      last := now;
    }

    /** `produceConnectionTask`, once the queue is empty: at most one connection, and only below the limit. */
    method Produce(connects: bool, now: int)
      requires Valid() && idle == [] && now >= last
      modifies this
      ensures Valid() && lent == old(lent)
      ensures cnt == old(cnt) + |idle| && |idle| == if old(cnt) < maxSize && connects then 1 else 0
    {
      if cnt < maxSize {
        if connects {
          Push(now);
        }
      }
    }

    /** `getConnection`, once the queue has a connection or the wait has timed out: the longest idle one. */
    method GetConnection() returns (r: Lease)
      requires Valid()
      modifies this
      ensures Valid() && cnt == old(cnt)
      ensures r == TimedOut <==> old(idle) == []
      ensures r == TimedOut ==> unchanged(this)
      ensures r.Lent? ==> [r.conn] + idle == old(idle) && lent == old(lent) + {r.conn.id} && r.conn.id !in old(lent)
    {
      if idle == [] {
        return TimedOut;
      }
      r := Lent(idle[0]);
      idle := idle[1..];
      lent := lent + {r.conn.id};
    }

    /** The deleter of a lent connection: back of the queue, idle from now. */
    method GiveBack(conn: Connection, now: int)
      requires Valid() && conn.id in lent && now >= last
      modifies this
      ensures Valid() && cnt == old(cnt)
      ensures idle == old(idle) + [conn.(since := now)] && lent == old(lent) - {conn.id}
    {
      idle := idle + [conn.(since := now)];
      lent := lent - {conn.id};
      last := now;
    }

    /** The front of the queue is removed for good. */
    method Drop() returns (c: Connection)
      requires Valid() && idle != [] && cnt > initSize
      modifies `idle, `cnt
      ensures Valid() && c == old(idle)[0] && idle == old(idle)[1..] && cnt == old(cnt) - 1
    {
      c := idle[0];
      idle := idle[1..];
      cnt := cnt - 1;
    }

    /**
     * One pass of `scannerConnectionTask`; turn `i` reads the clock as `clock[i]`, and `dry` says that
     * it asked for the front of an empty queue, which happens exactly when more than `initSize`
     * connections are lent and every idle one is found expired. Otherwise it removes the longest
     * idle connections only, and leaves either at most `initSize` or none that was expired when it stopped.
     */
    method Scan(clock: seq<int>) returns (dry: bool, gone: seq<Connection>)
      requires Valid() && |clock| >= |idle| && Rising(clock)
      modifies `idle, `cnt
      ensures Valid() && old(idle) == gone + idle
      ensures ExpiredOnSight(old(idle), clock, |gone|, maxIdleTime)
      ensures |gone| > 0 ==> cnt >= initSize
      ensures dry <==> |lent| > initSize && ExpiredOnSight(old(idle), clock, |old(idle)|, maxIdleTime)
      ensures dry ==> idle == []
      ensures !dry && cnt > initSize ==>
                |gone| < |clock| && forall c | c in idle :: !Expired(c, clock[|gone|], maxIdleTime)
    {
      dry, gone := false, [];
      ghost var was := idle;
      while cnt > initSize
        invariant Valid() && |gone| <= |was| && gone == was[..|gone|] && idle == was[|gone|..]
        invariant ExpiredOnSight(was, clock, |gone|, maxIdleTime)
        invariant |gone| > 0 ==> cnt >= initSize
        decreases |idle|
      {
        if idle == [] {
          dry := true;
          break;
        }
        if !Expired(idle[0], clock[|gone|], maxIdleTime) {
          FreshFront(idle, clock[|gone|], maxIdleTime);
          break;
        }
        var c := Drop();
        gone := gone + [c];
      }
    }
  }

  /** Whatever was created is idle or lent, and never more than the limit. */
  lemma CreatedWithinLimit(p: Pool)
    requires p.Valid() && 0 <= p.initSize <= p.maxSize
    ensures p.cnt == |p.idle| + |p.lent| <= p.maxSize
  {
  }
}
