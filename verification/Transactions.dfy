/**
 * Explicit transactions. A statement that fails or is cancelled leaves `needsReset` set or
 * the transaction done, after which only a ROLLBACK may still be sent for it.
 */
module Transactions {
  import opened Bytes
  import opened Message
  import opened Peer
  import opened Connection
  import opened Streams

  class Transaction {
    const conn: BoltConnection
    var done: bool
    /** A statement failed or was cancelled. */
    ghost var spoiled: bool

    ghost predicate Valid()
      reads this, conn
    {
      && conn.Valid() && (spoiled ==> Dead())
      && (if done then conn.Idle() else !conn.broken && !conn.needsReset ==> Open())
    }

    /** READY in the transaction; or, after a stream's FAILURE was RESET, READY without it. */
    ghost predicate Open()
      reads conn
    {
      conn.pending == 0 && (conn.server == TxReady || conn.server == Ready)
    }

    /** Nothing more can be run in it or committed. */
    predicate Dead()
      reads this, conn
    {
      done || conn.needsReset || conn.broken
    }

    constructor (conn: BoltConnection)
      requires conn.Valid() && conn.IsReady() && conn.server == TxReady
      ensures Valid() && fresh(this) && this.conn == conn && !done && !spoiled
    {
      this.conn, done, spoiled := conn, false, false;
    }

    /** Whether statements may still be run: otherwise nothing is sent. */
    method GuardOpen() returns (r: Outcome<()>)
      requires Valid()
      modifies this`done
      ensures Valid() && r.Done? == !old(Dead()) && (old(Dead()) ==> Dead())
      ensures done == (old(done) || (!conn.broken && conn.needsReset))
      ensures conn.broken ==> r == Fail(Closed)
      ensures !r.Done? ==> r.Fail? && !r.error.ServerFailure?
    {
      if conn.broken {
        return Fail(Closed);
      }
      if conn.needsReset {
        done := true;
        return Fail(Protocol);
      }
      if done {
        return Fail(Protocol);
      }
      r := Done(());
    }

    /**
     * Runs a statement and collects its records. Anything but success, a cancellation
     * included, ends the transaction; once it is dead, nothing is sent.
     */
    method Run(query: Text, parameters: Meta) returns (r: Outcome<(seq<Text>, seq<Row>)>)
      requires Valid()
      modifies this, conn
      ensures Valid() && Grows(old(conn.net), conn.net) && CleanSends(conn.net, |old(conn.net).requests|)
      ensures old(Dead()) ==> !r.Done? && conn.net == old(conn.net)
      ensures r.Done? ==> !Dead() && spoiled == old(spoiled) && conn.server == old(conn.server)
      ensures r.Done? ==> Collected(old(conn.net), old(conn.server), RunRequest(query, parameters, map[]),
        conn.net, conn.server, r.value.0, r.value.1)
      ensures r.Done? ==> Delivered(old(conn.net), conn.net, r.value.0, r.value.1)
      ensures r.Done? ==> AllEnded(conn.net, |old(conn.net).requests|, |conn.net.requests|, false)
      ensures !r.Done? ==> spoiled
      ensures !old(Dead()) ==> done == r.Fail?
      ensures r.Fail? ==> Blames(old(conn.net), conn.net, r.error)
    {
      hide Synced, Logged, Collected, Delivered, Grows, CleanSends, AllEnded, Reported;
      ghost var was, s := conn.net, conn.server;
      GrowsSelf(conn.net);
      CleanNone(conn.net);
      var open := GuardOpen();
      if !open.Done? {
        spoiled := true;
        return open.PropagateFailure();
      }
      conn.needsReset := true;
      r := conn.RunInner(RunRequest(query, parameters, map[]));
      match r {
        case Done(_) =>
          CollectedDelivered(
            was, s, RunRequest(query, parameters, map[]), conn.net, conn.server, r.value.0, r.value.1);
          conn.needsReset := false;
        case Fail(_) => done := true;
        case Cancelled =>
      }
      spoiled := !r.Done?;
    }

    /** Opens a statement's stream: the transaction may be used again once it has been left. */
    method RunStream(query: Text, parameters: Meta, batch: int64) returns (r: Outcome<RecordStream>)
      requires Valid()
      modifies this, conn
      ensures Valid() && Grows(old(conn.net), conn.net) && CleanSends(conn.net, |old(conn.net).requests|)
      ensures old(Dead()) || !ValidBatch(batch) ==> !r.Done? && conn.net == old(conn.net)
      ensures r.Done? ==> var stream := r.value;
        && fresh(stream) && stream.conn == conn && stream.Valid() && stream.Unused()
        && stream.start == old(conn.net) && (stream.tx <==> old(conn.server) == TxReady)
        && !done && spoiled == old(spoiled)
        && Opened(old(conn.net), old(conn.server), RunRequest(query, parameters, map[]), batch, conn.greedy,
                  conn.net, conn.server, (stream.columns, stream.qid))
      ensures !r.Done? && ValidBatch(batch) ==> spoiled
      ensures !old(Dead()) && ValidBatch(batch) ==> done == r.Fail?
      ensures !ValidBatch(batch) ==>
        done == old(done) && spoiled == old(spoiled) && Dead() == old(Dead()) && conn.server == old(conn.server)
      ensures r.Fail? ==> Blames(old(conn.net), conn.net, r.error)
    {
      hide Synced, Logged, Grows, CleanSends, Reported, Opened, Tracks, Started, Concludes;
      ghost var was, s := conn.net, conn.server;
      GrowsSelf(was);
      CleanNone(was);
      if !ValidBatch(batch) {
        return Fail(Protocol);
      }
      var open := GuardOpen();
      if !open.Done? {
        spoiled := true;
        return open.PropagateFailure();
      }
      conn.needsReset := true;
      var run := RunRequest(query, parameters, map[]);
      var opening := conn.SendRunPull(run, batch);
      if !opening.Done? {
        if opening.Fail? {
          done := true;
        }
        spoiled := true;
        return opening.PropagateFailure();
      }
      var stream := new RecordStream(conn, opening.value.0, opening.value.1, batch, was, s, run);
      r := Done(stream);
    }

    /**
     * A stream that has been left, by its end or by dropping it, gives the transaction back.
     * If it failed and the RESET went through, a call of the stream reported a server failure,
     * but the transaction does not know that it is gone: it is not dead, and what is run in it
     * next runs outside any transaction.
     */
    lemma AfterStream(stream: RecordStream)
      requires conn.Valid() && stream.conn == conn && stream.Left() && !done && !spoiled
      ensures Valid()
      ensures !Dead() ==> (conn.server == TxReady <==> stream.tx && !stream.reported) && stream.Over()
      ensures stream.failed && conn.IsReady() ==> stream.reported && !Dead() && conn.server == Ready
    {
    }

    /** Awaits the reply that ends the transaction. */
    method FinishEnd(ghost before: Net) returns (r: Outcome<Meta>)
      requires conn.Valid() && !conn.broken && conn.needsReset
      modifies conn
      ensures conn.Valid() && Quiet(old(conn.net), conn.net)
      ensures r.Done? ==>
        && !conn.broken && conn.needsReset && conn.server == old(conn.server)
        && OnlyRead(old(conn.net), conn.net) && Answered(old(conn.net), conn.net, Success(r.value))
      ensures !r.Done? ==> conn.Idle()
      ensures conn.net.requests == old(conn.net).requests
        + (if |conn.net.requests| == |old(conn.net).requests| then [] else [EmptyRequest(RESET)])
      ensures r.Fail? && |before.requests| <= old(conn.net).next ==> Blames(before, conn.net, r.error)
    {
      hide Synced, Logged, Grows, Quiet, Reported, Answered, Position;
      ghost var unread := conn.net;
      Positioned(unread, conn.rbuf + conn.incoming);
      var reply :- conn.ReadMessage();
      match reply {
        case Success(meta) => r := Done(meta);
        case Failure(code, message) =>
          ghost var read := conn.net;
          var error := conn.FailReset(code, message);
          QuietTransitive(unread, read, conn.net);
          if |before.requests| <= unread.next {
            BlamesRead(before, unread, read, conn.net, code, message);
          }
          r := error.PropagateFailure();
        case _ => r := Fail(Protocol);
      }
    }

    /** COMMIT, unless the transaction is dead; its bookmark is that of COMMIT's own SUCCESS. */
    method TryCommit() returns (r: Outcome<Option<Text>>)
      requires Valid()
      modifies this, conn
      ensures Valid() && Grows(old(conn.net), conn.net) && CleanSends(conn.net, |old(conn.net).requests|)
      ensures old(Dead()) ==> !r.Done? && conn.net == old(conn.net)
      ensures r.Done? ==> old(conn.server) == TxReady
      ensures r.Done? ==> done && conn.IsReady() && exists meta ::
        && Settled(old(conn.net), old(conn.server), EmptyRequest(COMMIT), conn.greedy, conn.net, conn.server, meta)
        && r.value == Bookmark(meta)
      ensures r.Done? ==> conn.net.output == old(conn.net).output + [0x00, 0x02, 0xB0, 0x12, 0x00, 0x00]
      ensures r.Fail? ==> Blames(old(conn.net), conn.net, r.error)
    {
      hide Synced, Logged, Grows, Quiet, CleanSends, Reported, Answered, Sent, Settled, Bookmark, Wrote;
      ghost var was, s := conn.net, conn.server;
      GrowsSelf(was);
      CleanNone(was);
      var _ :- GuardOpen();
      CaughtUp(was, conn.rbuf + conn.incoming);
      done := true;
      conn.needsReset := true;
      var sent := conn.WriteMessage(EmptyRequest(COMMIT));
      if !sent.Done? {
        CleanCut(was, conn.net);
        return sent.PropagateFailure();
      }
      ghost var wrote := conn.net;
      CommitSent(was, s, conn.greedy, wrote, conn.server);
      WroteBare(was.output, COMMIT, wrote.output);
      var ended := FinishEnd(was);
      QuietGrows(wrote, conn.net);
      CleanQuiet(wrote, conn.net, |was.requests|);
      GrowsTransitive(was, wrote, conn.net);
      var meta :- ended;
      Settles(was, s, EmptyRequest(COMMIT), conn.greedy, wrote, wrote, conn.net, conn.server, meta);
      conn.needsReset := false;
      r := Done(Bookmark(meta));
    }

    /**
     * ROLLBACK, unless the transaction is over. It is sent even if a reply to a cancelled
     * statement is still owed, and then takes that reply for its own: it consumes its own
     * exactly if none was owed.
     */
    method TryRollback() returns (r: Outcome<()>)
      requires Valid()
      modifies this, conn
      ensures Valid() && Quiet(old(conn.net), conn.net)
      ensures old(done) ==> r == Done(()) && conn.net == old(conn.net)
      ensures r.Done? && !old(done) ==>
        && done && !conn.broken && conn.pending == old(conn.pending)
        && conn.net.requests == old(conn.net).requests + [EmptyRequest(ROLLBACK)]
        && conn.net.next == old(conn.net).next + 1
        && conn.net.output == old(conn.net).output + [0x00, 0x02, 0xB0, 0x13, 0x00, 0x00]
      ensures r.Done? && !old(done) && old(conn.pending) == 0 ==> exists meta ::
        Settled(old(conn.net), old(conn.server), EmptyRequest(ROLLBACK), conn.greedy, conn.net, conn.server, meta)
      ensures EndsWithRollback(old(conn.net).requests, conn.net.requests)
    {
      hide Synced, Logged, Grows, Quiet, Reported, Answered, Legal, Settled, Wrote;
      ghost var was, s := conn.net, conn.server;
      GrowsSelf(was);
      if done {
        return Done(());
      }
      if !conn.broken && conn.pending == 0 {
        CaughtUp(was, conn.rbuf + conn.incoming);
      }
      done := true;
      conn.needsReset := true;
      var _ :- conn.WriteMessage(EmptyRequest(ROLLBACK));
      ghost var wrote := conn.net;
      WroteBare(was.output, ROLLBACK, wrote.output);
      var ended := FinishEnd(was);
      QuietTransitive(was, wrote, conn.net);
      assert EndsWithRollback(was.requests, conn.net.requests) by {
        assert was.requests + [EmptyRequest(ROLLBACK)] + [EmptyRequest(RESET)]
            == was.requests + [EmptyRequest(ROLLBACK), EmptyRequest(RESET)];
      }
      var meta :- ended;
      AnsweredSuccess(wrote, conn.net, meta);
      if old(conn.pending) == 0 {
        Settles(was, s, EmptyRequest(ROLLBACK), conn.greedy, wrote, wrote, conn.net, conn.server, meta);
      }
      conn.needsReset := false;
      r := Done(());
    }

    /** Dropped before it is done, the transaction leaves the session to be RESET. */
    method Drop()
      requires Valid()
      modifies conn`needsReset
      ensures Valid() && conn.Idle() && conn.needsReset == (!done || old(conn.needsReset))
    {
      if !done {
        conn.needsReset := true;
      }
    }

    /** COMMIT consumes the transaction: it is dropped however that ends. */
    method Commit() returns (r: Outcome<Option<Text>>)
      requires Valid()
      modifies this, conn
      ensures conn.Valid() && conn.Idle() && Grows(old(conn.net), conn.net)
      ensures CleanSends(conn.net, |old(conn.net).requests|)
      ensures old(Dead()) ==> !r.Done? && conn.net == old(conn.net)
      ensures r.Done? ==> old(conn.server) == TxReady
      ensures r.Done? ==> conn.IsReady() && exists meta ::
        && Settled(old(conn.net), old(conn.server), EmptyRequest(COMMIT), conn.greedy, conn.net, conn.server, meta)
        && r.value == Bookmark(meta)
      ensures r.Fail? ==> Blames(old(conn.net), conn.net, r.error)
    {
      hide Synced, Logged, Grows, CleanSends, Reported, Settled, Bookmark;
      r := TryCommit();
      Drop();
    }

    method Rollback() returns (r: Outcome<()>)
      requires Valid()
      modifies this, conn
      ensures conn.Valid() && conn.Idle() && Quiet(old(conn.net), conn.net)
      ensures EndsWithRollback(old(conn.net).requests, conn.net.requests)
    {
      hide Synced, Logged, Grows, Quiet, EndsWithRollback, Settled;
      r := TryRollback();
      Drop();
    }
  }

  /** At most a ROLLBACK was sent, and after it at most a RESET. */
  predicate EndsWithRollback(before: seq<Request>, after: seq<Request>) {
    || after == before
    || after == before + [EmptyRequest(ROLLBACK)]
    || after == before + [EmptyRequest(ROLLBACK), EmptyRequest(RESET)]
  }

  lemma CommitSent(before: Net, s: ServerState, greedy: bool, after: Net, s': ServerState)
    requires Sent(before, s, EmptyRequest(COMMIT), greedy, after, s') && before.next == |before.requests|
    ensures CleanSends(after, |before.requests|)
  {
    hide Legal, CleanSends;
    CleanCommit(before, EmptyRequest(COMMIT), after);
  }

  lemma AnsweredSuccess(unread: Net, read: Net, meta: Meta)
    requires OnlyRead(unread, read) && Answered(unread, read, Success(meta))
    ensures read.next == unread.next + 1 && read.requests == unread.requests
  {
    hide Decode;
  }

  /** BEGINs an explicit transaction. */
  method BeginWith(conn: BoltConnection, extra: Meta) returns (r: Outcome<Transaction>)
    requires conn.Valid() && conn.Idle()
    modifies conn
    ensures conn.Valid() && Quiet(old(conn.net), conn.net)
    ensures r.Done? ==>
      && fresh(r.value) && r.value.conn == conn && r.value.Valid() && !r.value.Dead() && !r.value.spoiled
      && conn.server == TxReady && exists before, meta ::
        && Quiet(old(conn.net), before) && Quiet(before, conn.net)
        && Settled(before, Ready, BeginRequest(extra), conn.greedy, conn.net, TxReady, meta)
    ensures !r.Done? ==> conn.Idle()
    ensures r.Fail? ==> Blames(old(conn.net), conn.net, r.error)
  {
    hide Synced, Logged, Grows, Quiet, Answered, Settled, Sent, Reported, Legal, Position, Wrote;
    ghost var was := conn.net;
    var _ :- conn.EnsureClean();
    conn.needsReset := true;
    ghost var before := conn.net;
    CaughtUp(before, conn.rbuf + conn.incoming);
    var sent := conn.WriteMessage(BeginRequest(extra));
    QuietTransitive(was, before, conn.net);
    if !sent.Done? {
      return sent.PropagateFailure();
    }
    ghost var wrote := conn.net;
    Positioned(wrote, conn.rbuf + conn.incoming);
    var reply := conn.ReadMessage();
    QuietTransitive(before, wrote, conn.net);
    QuietTransitive(was, wrote, conn.net);
    GrowsSelf(conn.net);
    var response :- reply;
    match response {
      case Success(meta) =>
        Settles(before, Ready, BeginRequest(extra), conn.greedy, wrote, wrote, conn.net, conn.server, meta);
        conn.needsReset := false;
        var tx := new Transaction(conn);
        r := Done(tx);
      case Failure(code, message) =>
        BlamesRead(before, wrote, conn.net, conn.net, code, message);
        BlamesLater(was, before, conn.net, ServerFailure(code, message));
        r := Fail(ServerFailure(code, message));
      case _ => r := Fail(Protocol);
    }
  }
}
