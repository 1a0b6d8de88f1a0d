/**
 * Whole runs: any number of operations in any order, each ending in any way it may, cancelled
 * ones included, with transactions and streams used for any number of steps and then
 * finished or dropped.
 */
module Programs {
  import opened Bytes
  import opened Message
  import opened Peer
  import opened Connection
  import opened Streams
  import opened Transactions

  method AnyNumber() returns (n: nat)
  {
    var i: int := *;
    n := if i < 0 then 0 else i;
  }

  /** Uses a stream for any number of steps and leaves it, by finishing or dropping it. */
  method UseStream(stream: RecordStream)
    requires stream.Valid()
    modifies stream, stream.conn
    ensures stream.conn.Valid() && stream.Left() && Quiet(old(stream.conn.net), stream.conn.net)
    ensures !stream.tx ==> stream.conn.Idle()
  {
    hide Synced, Logged, Grows, Quiet, Tracks, Started, Concludes, Reported, AllEnded;
    ghost var was := stream.conn.net;
    GrowsSelf(was);
    var steps: nat := AnyNumber();
    for _ := 0 to steps
      invariant stream.Valid() && Quiet(was, stream.conn.net)
    {
      ghost var before := stream.conn.net;
      var _ := stream.Next();
      QuietTransitive(was, before, stream.conn.net);
    }
    if * {
      ghost var before := stream.conn.net;
      var _ := stream.Finish();
      QuietTransitive(was, before, stream.conn.net);
    } else {
      stream.Standing();
      stream.Drop();
    }
  }

  /**
   * Runs any statements in a transaction and ends it in any way. Whenever a RUN or a COMMIT went
   * out for it, no reply was owed and every request of the transaction so far had ended well. So
   * once a statement has failed, been cancelled or been dropped with rows to come, no RUN and
   * no COMMIT follows, except after a stream's failure that was RESET.
   */
  method UseTransaction(tx: Transaction)
    requires tx.Valid() && !tx.Dead()
    modifies tx, tx.conn
    ensures tx.conn.Valid() && tx.conn.Idle() && Grows(old(tx.conn.net), tx.conn.net)
    ensures CleanSends(tx.conn.net, |old(tx.conn.net).requests|)
  {
    hide Synced, Logged, Grows, Quiet, CleanSends, AllEnded, Tracks, Started, Concludes, Reported, Collected, Opened,
      EndsWithRollback, Settled;
    ghost var was, from := tx.conn.net, |tx.conn.net.requests|;
    GrowsSelf(was);
    CleanNone(was);
    var steps: nat := AnyNumber();
    for _ := 0 to steps
      invariant tx.Valid() && Grows(was, tx.conn.net) && from <= |tx.conn.net.requests|
      invariant CleanSends(tx.conn.net, from)
      invariant !tx.Dead() ==> AllEnded(tx.conn.net, from, |tx.conn.net.requests|, false)
    {
      ghost var before := tx.conn.net;
      UseStatement(tx);
      Used(was, before, tx.conn.net);
      if before != tx.conn.net {
        CleanThen(before, tx.conn.net, from);
        if !tx.Dead() {
          AllEndedThen(before, tx.conn.net, from);
        }
      }
    }
    ghost var before := tx.conn.net;
    if * {
      ghost var dead := tx.Dead();
      var _ := tx.Commit();
      Used(was, before, tx.conn.net);
      if !dead {
        CleanThen(before, tx.conn.net, from);
      }
    } else if * {
      var _ := tx.Rollback();
      QuietGrows(before, tx.conn.net);
      Used(was, before, tx.conn.net);
      CleanQuiet(before, tx.conn.net, from);
    } else {
      tx.Drop();
    }
  }

  lemma Used(was: Net, before: Net, after: Net)
    requires Grows(was, before) && Grows(before, after)
    ensures Grows(was, after) && |was.requests| <= |before.requests| <= |after.requests|
  {
  }

  /**
   * Runs one statement, or streams one. Dead, the transaction sends nothing and stays dead;
   * still usable afterwards, what was sent has ended well.
   */
  method UseStatement(tx: Transaction)
    requires tx.Valid()
    modifies tx, tx.conn
    ensures tx.Valid() && Grows(old(tx.conn.net), tx.conn.net)
    ensures CleanSends(tx.conn.net, |old(tx.conn.net).requests|)
    ensures old(tx.Dead()) ==> tx.Dead() && tx.conn.net == old(tx.conn.net)
    ensures !tx.Dead() ==> AllEnded(tx.conn.net, |old(tx.conn.net).requests|, |tx.conn.net.requests|, false)
  {
    hide Synced, Logged, Grows, Quiet, CleanSends, AllEnded, Tracks, Started, Concludes, Reported, Collected, Opened;
    ghost var was := tx.conn.net;
    GrowsSelf(was);
    CleanNone(was);
    var query: Text, parameters: Meta, batch: int64 := *, *, *;
    if * {
      var _ := tx.Run(query, parameters);
    } else {
      var stream := tx.RunStream(query, parameters, batch);
      if stream.Done? {
        ghost var open := tx.conn.net;
        UseStream(stream.value);
        QuietGrows(open, tx.conn.net);
        GrowsTransitive(was, open, tx.conn.net);
        CleanQuiet(open, tx.conn.net, |was.requests|);
        tx.AfterStream(stream.value);
      }
    }
  }

  /**
   * Any operations on a session, one after the other, ending anyhow. A session that looks ready
   * is READY and owes nothing, and every RUN and COMMIT went out when nothing was owed.
   */
  method UseSession(conn: BoltConnection)
    requires conn.Valid() && conn.Idle()
    modifies conn
    ensures conn.Valid() && Grows(old(conn.net), conn.net) && Prompt(conn.net, |old(conn.net).requests|)
    ensures conn.IsReady() ==> conn.server == Ready && Debt(conn.net) == 0
  {
    hide Synced, Logged, Grows, Prompt;
    ghost var was := conn.net;
    GrowsSelf(was);
    PromptNone(was);
    var steps: nat := AnyNumber();
    for _ := 0 to steps
      invariant conn.Valid() && conn.Idle() && Grows(was, conn.net) && Prompt(conn.net, |was.requests|)
    {
      ghost var before := conn.net;
      UseOnce(conn);
      GrowsTransitive(was, before, conn.net);
      PromptThen(before, conn.net, |was.requests|);
    }
  }

  method UseOnce(conn: BoltConnection)
    requires conn.Valid() && conn.Idle()
    modifies conn
    ensures conn.Valid() && conn.Idle() && Grows(old(conn.net), conn.net)
    ensures Prompt(conn.net, |old(conn.net).requests|)
  {
    hide Synced, Logged, Grows, Quiet, Prompt, CleanSends, AllEnded, Tracks, Started, Concludes, Reported, Collected,
      Opened, Settled;
    ghost var was := conn.net;
    var query: Text, parameters: Meta, extra: Meta, batch: int64 := *, *, *, *;
    if * {
      var _ := conn.RunWith(query, parameters, extra);
    } else if * {
      var _ := conn.Route(parameters, extra);
      QuietGrows(was, conn.net);
      QuietIsPrompt(was, conn.net);
    } else if * {
      var _ := conn.Reset();
      QuietIsPrompt(was, conn.net);
    } else if * {
      var stream := RunStreamWith(conn, query, parameters, extra, batch);
      if stream.Done? {
        ghost var open := conn.net;
        UseStream(stream.value);
        QuietGrows(open, conn.net);
        QuietIsPrompt(open, conn.net);
        GrowsTransitive(was, open, conn.net);
        PromptThen(open, conn.net, |was.requests|);
      }
    } else {
      var tx := BeginWith(conn, extra);
      ghost var begun := conn.net;
      QuietGrows(was, begun);
      QuietIsPrompt(was, begun);
      if tx.Done? {
        UseTransaction(tx.value);
        GrowsTransitive(was, begun, conn.net);
        CleanIsPrompt(conn.net, |begun.requests|);
        PromptThen(begun, conn.net, |was.requests|);
      }
    }
  }
}
