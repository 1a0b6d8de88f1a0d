/**
 * The pool's operations on real connections. At an await other users of the pool get in
 * between (`Others`): they take idle connections, give back others, and may close the pool.
 */
module Pools {
  import opened Message
  import opened Peer
  import opened Connection
  import opened PoolSteps
  import Programs

  datatype Idle = Idle(conn: BoltConnection, createdAt: nat, idledAt: nat)

  /** What happened to the idle list: a connection came back, one was taken, or all were. */
  datatype Event = Pushed(entry: Idle) | Popped(at: nat) | Emptied

  /** The idle list those events make. */
  function Replay(log: seq<Event>): seq<Idle> {
    if log == [] then []
    else
      var before, last := Replay(log[..|log| - 1]), log[|log| - 1];
      if last.Pushed? then before + [last.entry]
      else if last.Popped? && before != [] then before[..|before| - 1]
      else []
  }

  lemma ReplayOne(log: seq<Event>, e: Event)
    ensures var before, after := Replay(log), Replay(log + [e]);
      && (e.Pushed? ==> after == before + [e.entry])
      && (e.Popped? && before != [] ==> after == before[..|before| - 1])
      && (e.Emptied? ==> after == [])
  {
    assert (log + [e])[..|log|] == log;
  }

  /** What came back last is what is taken, and the list is then as it was before. */
  lemma LastInFirstOut(log: seq<Event>, e: Idle, at: nat)
    ensures Replay(log + [Pushed(e), Popped(at)]) == Replay(log)
    ensures Replay(log + [Emptied]) == []
  {
    hide Replay;
    ReplayOne(log, Pushed(e));
    ReplayOne(log + [Pushed(e)], Popped(at));
    ReplayOne(log, Emptied);
    assert log + [Pushed(e), Popped(at)] == log + [Pushed(e)] + [Popped(at)];
  }

  /** The entry that event `k` took is the one that is missing after it. */
  lemma TakenIsMissing(log: seq<Event>, k: nat, config: Config, conn: BoltConnection, createdAt: nat)
    requires k < |log| && TakenInTime(log, k, config, conn, createdAt)
    ensures exists idledAt: nat ::
      && Replay(log[..k]) == Replay(log[..k + 1]) + [Idle(conn, createdAt, idledAt)]
      && (config.idleTimeout.None? || log[k].at <= idledAt + config.idleTimeout.value)
      && (config.maxLifetime.None? || log[k].at <= createdAt + config.maxLifetime.value)
  {
    var before := Replay(log[..k]);
    assert log[..k + 1] == log[..k] + [log[k]];
    ReplayOne(log[..k], log[k]);
    UsableUntil(config, createdAt, before[|before| - 1].idledAt, log[k].at);
    hide Replay, Expired;
    assert before == before[..|before| - 1] + [Idle(conn, createdAt, before[|before| - 1].idledAt)];
  }

  /** The connection taken by event `k` had been the last to come back, and was not too old then. */
  ghost predicate TakenInTime(log: seq<Event>, k: nat, config: Config, conn: BoltConnection, createdAt: nat)
    requires k < |log|
  {
    && log[k].Popped? && Replay(log[..k]) != []
    && var e := Replay(log[..k])[|Replay(log[..k])| - 1];
       e.conn == conn && e.createdAt == createdAt && !Expired(config, createdAt, e.idledAt, log[k].at)
  }

  class Pool {
    const config: Config
    const greedy: bool
    var idle: seq<Idle>
    var closed: bool
    /** The clock, which never goes back. */
    var now: nat
    /** All that ever happened to `idle`. */
    ghost var log: seq<Event>

    ghost function Idlers(): set<BoltConnection>
      reads this
    {
      set e | e in idle :: e.conn
    }

    /** Idle connections are fit for reuse, and idle in one place only. */
    ghost predicate Valid()
      reads this, Idlers()
    {
      && idle == Replay(log)
      && (forall e | e in idle :: Fit(e.conn) && e.idledAt <= now)
      && (forall i, j :: 0 <= i < j < |idle| ==> idle[i].conn != idle[j].conn)
    }

    constructor (config: Config, greedy: bool)
      ensures Valid() && log == [] && !closed && this.config == config
    {
      this.config, this.greedy := config, greedy;
      idle, closed, now, log := [], false, 0, [];
    }

    predicate TooOld(createdAt: nat, idledAt: nat)
      reads this
    {
      Expired(config, createdAt, idledAt, now)
    }

    /** A connection comes back, unless it is unfit or the pool is closed. */
    method GiveBack(conn: BoltConnection, createdAt: nat)
      requires Valid() && conn.Valid() && conn.Idle() && conn !in Idlers()
      modifies this`idle, this`log
      ensures Valid()
      ensures var kept := !conn.broken && conn.pending == 0 && !closed;
        && idle == (if kept then old(idle) + [Idle(conn, createdAt, now)] else old(idle))
        && log == if kept then old(log) + [Pushed(Idle(conn, createdAt, now))] else old(log)
      ensures Idlers() <= old(Idlers()) + {conn}
    {
      hide Synced, Logged, Replay;
      if !conn.IsReusable() {
        return;
      }
      if closed {
        return;
      }
      ReplayOne(log, Pushed(Idle(conn, createdAt, now)));
      idle, log := idle + [Idle(conn, createdAt, now)], log + [Pushed(Idle(conn, createdAt, now))];
    }

    /** Takes the connection that came back last. */
    method Pop() returns (entry: Option<Idle>)
      requires Valid()
      modifies this`idle, this`log
      ensures Valid()
      ensures old(idle) == [] ==> entry == None && idle == [] && log == old(log)
      ensures old(idle) != [] ==> entry.Some? && old(idle) == idle + [entry.value] && log == old(log) + [Popped(now)]
      ensures entry.Some? ==>
        && entry.value.conn !in Idlers() && entry.value.conn in old(Idlers()) && Idlers() <= old(Idlers())
        && Fit(entry.value.conn)
    {
      hide Synced, Logged, Replay;
      if idle == [] {
        return None;
      }
      var last := |idle| - 1;
      entry := Some(idle[last]);
      assert idle == idle[..last] + [idle[last]];
      ReplayOne(log, Popped(now));
      idle, log := idle[..last], log + [Popped(now)];
    }

    /** A new session. */
    method Mint() returns (conn: BoltConnection)
      ensures fresh(conn) && InSync(conn) && conn.net.requests == []
    {
      hide Synced, Logged;
      conn := new BoltConnection(greedy);
    }

    /** What other users of the pool may do in the meantime. */
    method Others()
      requires Valid()
      modifies this, Idlers()
      ensures Valid() && fresh(Idlers() - old(Idlers())) && old(now) <= now && (old(closed) ==> closed)
      ensures old(log) <= log
    {
      hide Synced, Logged, Replay;
      var steps := Programs.AnyNumber();
      for _ := 0 to steps
        invariant Valid() && fresh(Idlers() - old(Idlers())) && old(now) <= now && (old(closed) ==> closed)
        invariant old(log) <= log
      {
        Other();
      }
    }

    method Other()
      requires Valid()
      modifies this, Idlers()
      ensures Valid() && fresh(Idlers() - old(Idlers())) && old(now) <= now && (old(closed) ==> closed)
      ensures old(log) <= log
    {
      hide Synced, Logged, Grows, Prompt, Replay;
      if * {
        now := now + 1;
      } else if * {
        closed := true;
      } else if * {
        TakeAndReturn();
      } else {
        var conn := new BoltConnection(greedy);
        Programs.UseSession(conn);
        GiveBack(conn, now);
      }
    }

    method TakeAndReturn()
      requires Valid()
      modifies this`idle, this`log, Idlers()
      ensures Valid() && Idlers() <= old(Idlers()) && old(log) <= log
    {
      hide Synced, Logged, Grows, Prompt, Replay;
      var entry := Pop();
      if entry.Some? {
        Programs.UseSession(entry.value.conn);
        if * {
          GiveBack(entry.value.conn, entry.value.createdAt);
        }
      }
    }

    /**
     * A connection for one user, in sync and READY, and no longer idle. Either it was taken from
     * the idle list since the call, within both age limits at that time, and a RESET was its last
     * request; or it is new. A closed pool hands out nothing.
     */
    method Checkout() returns (r: Outcome<PooledConnection>)
      requires Valid()
      modifies this, Idlers()
      ensures Valid() && fresh(Idlers() - old(Idlers())) && old(log) <= log
      ensures old(closed) ==> !r.Done?
      ensures r.Done? ==> var out := r.value;
        && fresh(out) && out.pool == this && out.conn.Some? && InSync(out.conn.value) && out.conn.value !in Idlers()
        && (out.conn.value in old(Idlers()) || fresh(out.conn.value))
        && ((fresh(out.conn.value) && IsNew(out.conn.value, out.createdAt, old(now), now))
            || IsReused(old(log), log, config, old(now), now, out.conn.value, out.createdAt))
    {
      hide Fit, InSync, EmptyRequest, Expired, Replay, IsNew, IsReused;
      // A permit is awaited.
      Others();
      if closed {
        return Fail(Error.Closed);
      }
      if * {
        return Cancelled;
      }
      var patience := Programs.AnyNumber();
      while true
        invariant Valid() && fresh(Idlers() - old(Idlers())) && old(now) <= now && !old(closed) && old(log) <= log
        decreases patience
      {
        ghost var before := log;
        var popped := Pop();
        if popped.None? {
          break;
        }
        if patience == 0 {
          return Cancelled;
        }
        patience := patience - 1;
        var entry := popped.value;
        if TooOld(entry.createdAt, entry.idledAt) {
          continue;
        }
        var conn := entry.conn;
        ghost var at := now;
        if conn.IsReusable() {
          var reset := Probe(conn);
          Others();
          if reset.Cancelled? {
            return Cancelled;
          }
          if reset.Done? {
            WasReused(old(log), before, entry, at, log, config, old(now), now, conn);
            var out := new PooledConnection(conn, entry.createdAt, this);
            return Done(out);
          }
        }
      }
      // Nothing idle: mint one.
      if * {
        return Cancelled;
      } else if * {
        return Fail(Io);
      }
      var conn := Mint();
      Others();
      WasMinted(conn, old(now), now);
      var out := new PooledConnection(conn, now, this);
      r := Done(out);
    }

    /**
     * No checkout succeeds any more. At some point the idle list was emptied, and what it held
     * then gets a GOODBYE and is not handed out again.
     */
    method Close()
      requires Valid()
      modifies this, Idlers()
      ensures Valid() && closed && fresh(Idlers() - old(Idlers())) && old(log) <= log
      ensures exists k :: |old(log)| <= k < |log| && log[k].Emptied? && AllClosed(Replay(log[..k]), Idlers())
    {
      hide Fit, SaidGoodbye, Replay;
      closed := true;
      Others();
      var closing := idle;
      ghost var before := log;
      ReplayOne(log, Emptied);
      idle, log := [], log + [Emptied];
      for i := 0 to |closing|
        invariant Valid() && closed && fresh(Idlers() - old(Idlers())) && before + [Emptied] <= log
        invariant forall k | 0 <= k < |closing| ::
          && closing[k].conn !in Idlers() && (closing[k].conn in old(Idlers()) || fresh(closing[k].conn))
        invariant forall k | 0 <= k < i :: SaidGoodbye(closing[k].conn)
        invariant forall k | i <= k < |closing| :: Fit(closing[k].conn)
        invariant forall j, k :: 0 <= j < k < |closing| ==> closing[j].conn != closing[k].conn
      {
        SayGoodbye(closing[i].conn);
        Others();
      }
      assert log[..|before|] == before && log[|before|] == Emptied;
      assert AllClosed(closing, Idlers());
    }
  }

  /** None of these is idle, and each was told GOODBYE. */
  ghost predicate AllClosed(entries: seq<Idle>, idlers: set<BoltConnection>)
    reads set e | e in entries :: e.conn
  {
    forall e | e in entries :: e.conn !in idlers && SaidGoodbye(e.conn)
  }

  /** Minted since `from`, and nothing was asked of it yet. */
  ghost predicate IsNew(conn: BoltConnection, createdAt: nat, from: nat, now: nat)
    reads conn
  {
    conn.net.requests == [] && from <= createdAt <= now
  }

  /** Taken from the idle list since `was` and `from`, in time, and RESET just before. */
  ghost predicate IsReused(
    was: seq<Event>, log: seq<Event>, config: Config, from: nat, now: nat, conn: BoltConnection, createdAt: nat)
    reads conn
  {
    && conn.net.requests != [] && conn.net.requests[|conn.net.requests| - 1] == EmptyRequest(RESET)
    && exists k :: |was| <= k < |log| && TakenInTime(log, k, config, conn, createdAt) && from <= log[k].at <= now
  }

  lemma WasMinted(conn: BoltConnection, from: nat, now: nat)
    requires conn.net.requests == [] && from <= now
    ensures IsNew(conn, now, from, now)
  {
  }

  lemma WasReused(
    was: seq<Event>, before: seq<Event>, e: Idle, at: nat, log: seq<Event>, config: Config, from: nat, now: nat,
    conn: BoltConnection)
    requires was <= before && before + [Popped(at)] <= log && from <= at <= now && e.conn == conn
    requires Replay(before) != [] && Replay(before)[|Replay(before)| - 1] == e
    requires !Expired(config, e.createdAt, e.idledAt, at)
    requires conn.net.requests != [] && conn.net.requests[|conn.net.requests| - 1] == EmptyRequest(RESET)
    ensures IsReused(was, log, config, from, now, conn, e.createdAt)
  {
    hide Expired, Replay;
    assert log[..|before|] == before && log[|before|] == Popped(at);
    assert TakenInTime(log, |before|, config, conn, e.createdAt);
  }

  /** GOODBYE was the last thing said to it, unless it broke. */
  ghost predicate SaidGoodbye(conn: BoltConnection)
    reads conn
  {
    conn.broken || (conn.net.written != [] && conn.net.written[|conn.net.written| - 1] == EmptyRequest(GOODBYE))
  }

  /** Closes a connection that was idle, whatever comes of it. */
  method SayGoodbye(conn: BoltConnection)
    requires Fit(conn)
    modifies conn
    ensures SaidGoodbye(conn)
  {
    hide Synced, Logged;
    var _ := conn.Close();
  }

  /** Fit to be idle: intact, owing no reply, and READY if it looks it. */
  ghost predicate Fit(conn: BoltConnection)
    reads conn
  {
    conn.Valid() && conn.Idle() && conn.IsReusable()
  }

  /** RESETs an idle connection. */
  method Probe(conn: BoltConnection) returns (r: Outcome<()>)
    requires Fit(conn)
    modifies conn
    ensures r.Done? ==> InSync(conn) && conn.net.requests == old(conn.net).requests + [EmptyRequest(RESET)]
  {
    hide Synced, Logged, Grows, Prompt, Replay;
    r := conn.Reset();
  }

  /** In sync and READY. */
  ghost predicate InSync(conn: BoltConnection)
    reads conn
  {
    conn.Valid() && conn.IsReady() && conn.Idle() && conn.server == Ready && Debt(conn.net) == 0
  }

  class PooledConnection {
    const pool: Pool
    const createdAt: nat
    var conn: Option<BoltConnection>

    constructor (conn: BoltConnection, createdAt: nat, pool: Pool)
      ensures this.conn == Some(conn) && this.createdAt == createdAt && this.pool == pool
    {
      this.conn, this.createdAt, this.pool := Some(conn), createdAt, pool;
    }

    /** Takes the connection out of the pool's care. */
    method Detach() returns (c: BoltConnection)
      requires conn.Some?
      modifies this
      ensures conn == None && old(conn) == Some(c)
    {
      c := conn.value;
      conn := None;
    }

    /** Gives the connection back, unless it was detached: only one fit for reuse is kept. */
    method Drop()
      requires pool.Valid() && (conn.Some? ==> conn.value.Valid() && conn.value.Idle() && conn.value !in pool.Idlers())
      modifies this, pool`idle, pool`log
      ensures pool.Valid() && conn == None
      ensures pool.idle ==
        if old(conn).Some? && old(conn).value.IsReusable() && !pool.closed
        then old(pool.idle) + [Idle(old(conn).value, createdAt, pool.now)]
        else old(pool.idle)
    {
      hide Synced, Logged;
      if conn.Some? {
        var c := conn.value;
        conn := None;
        pool.GiveBack(c, createdAt);
      }
    }
  }
}
