/**
 * A statement's records in batches: each PULL asks for at most `batch` rows, and the next is
 * sent only when the buffered ones have been handed out. Any call may be cancelled at an
 * await and retried.
 */
module Streams {
  import opened Bytes
  import opened Division
  import PackStreamLaws
  import opened Message
  import opened Peer
  import opened Wire
  import opened Connection

  // ---- where a stream stands ----

  /** Of the rows in `all` the client has `got`, handed out or buffered. */
  datatype Cursor = Cursor(all: seq<Row>, tx: bool, got: seq<Row>, hasMore: bool, inFlight: bool)

  /** The rows the client has, those under way and those the server still holds make up the result. */
  ghost predicate InStep(c: Cursor, net: Net, server: ServerState) {
    if c.inFlight then
      && c.hasMore && Debt(net) == 1 && net.next < |net.answers| && net.skip < |net.answers[net.next]|
      && PullUnderWay(net.answers[net.next], net.skip, c.all, c.got, c.tx, server)
    else if c.hasMore then
      && Debt(net) == 0 && HasStream(server) && (InTx(server) <==> c.tx)
      && server.rows != [] && c.got + server.rows == c.all
    else
      Debt(net) == 0 && server == (if c.tx then TxReady else Ready) && c.got == c.all
  }

  /** Against a greedy server, each of the first `pulls - 1` PULLs got a full batch. */
  ghost predicate Paced(c: Cursor, batch: int, pulls: int, net: Net) {
    && batch >= 1 && pulls >= 1 && (pulls > 1 ==> (pulls - 1) * batch < |c.all|)
    && if c.inFlight then
         && net.next < |net.answers| && Block(net.answers[net.next])
         && |c.got| == (pulls - 1) * batch + net.skip <= |c.all| + net.skip
         && (Succeeded(net.answers[net.next]) ==>
           PullServes(|c.all| - (pulls - 1) * batch, batch, true, |RowsOf(net.answers[net.next])|))
       else if c.hasMore then |c.got| == pulls * batch
       else |c.all| <= pulls * batch
  }

  /** One PULL for an empty result, else as many as it takes to fetch `rows` rows by `batch`. */
  function PullsFor(rows: nat, batch: nat): nat
    requires batch >= 1
  {
    if rows == 0 then 1 else (rows + batch - 1) / batch
  }

  lemma PullsAre(rows: nat, batch: nat, pulls: nat)
    requires batch >= 1 && pulls >= 1 && rows <= pulls * batch && (pulls > 1 ==> (pulls - 1) * batch < rows)
    ensures pulls == PullsFor(rows, batch)
  {
    if rows > 0 {
      assert (pulls - 1) * batch == pulls * batch - batch;
      Quotient(rows + batch - 1, batch, pulls);
    }
  }

  lemma StreamBegins(
    before: Net, s: ServerState, run: Request, batch: int64, greedy: bool, after: Net, s': ServerState,
    result: (seq<Text>, Option<int64>))
    requires Opened(before, s, run, batch, greedy, after, s', result)
    ensures |before.requests| in after.results && |after.requests| == |before.requests| + 2
    ensures var c := Cursor(after.results[|before.requests|], InTx(s), [], true, true);
            InStep(c, after, s') && (greedy && batch >= 1 ==> Paced(c, batch, 1, after))
  {
    hide PullRequest, Columns, Decode;
    var a := after.answers[|before.requests| + 1];
    assert RowsAhead(a, 0) == RowsOf(a);
  }

  lemma PullSent(
    c: Cursor, batch: int64, qid: Option<int64>, greedy: bool, pulls: int,
    net: Net, s: ServerState, after: Net, s': ServerState)
    requires InStep(c, net, s) && c.hasMore && !c.inFlight && net.next == |net.answers| && net.skip == 0
    requires Sent(net, s, PullRequest(batch, qid), greedy, after, s')
    ensures InStep(c.(inFlight := true), after, s') && after.next == net.next && after.skip == 0
    ensures batch != 0 && Succeeded(after.answers[net.next]) ==> RowsOf(after.answers[net.next]) != []
    ensures greedy && Paced(c, batch, pulls, net) ==> Paced(c.(inFlight := true), batch, pulls + 1, after)
  {
    hide Decode, PullRequest, Legal;
    var a := after.answers[net.next];
    PullStarts(s, batch, qid, greedy, a, s', c.all, c.got);
    assert RowsAhead(a, 0) == RowsOf(a);
  }

  lemma RecordRead(c: Cursor, batch: int, pulls: int, net: Net, s: ServerState, after: Net, row: Row)
    requires InStep(c, net, s) && c.inFlight
    requires OnlyRead(net, after) && Answered(net, after, Record(row))
    ensures var c' := c.(got := c.got + [row]);
            && InStep(c', after, s) && c'.got <= c.all
            && after.next == net.next && after.skip == net.skip + 1
            && (Paced(c, batch, pulls, net) ==> Paced(c', batch, pulls, after))
  {
    hide Decode, Succeeded, RowsOf;
    PullRecord(net.answers[net.next], net.skip, c.all, c.got, c.tx, s, row);
  }

  /** The next answer, if it is a SUCCESS, brings at least one row. */
  ghost predicate PullsSome(answers: seq<Answer>, next: nat) {
    next < |answers| && Block(answers[next]) && (Succeeded(answers[next]) ==> RowsOf(answers[next]) != [])
  }

  /** The last answer is a SUCCESS with this metadata. */
  ghost predicate Concludes(net: Net, meta: Meta) {
    && net.answers != [] && Block(net.answers[|net.answers| - 1])
    && SummaryOf(net.answers[|net.answers| - 1]) == Some(Success(meta))
  }

  lemma SummaryRead(c: Cursor, batch: int, greedy: bool, pulls: int, net: Net, s: ServerState, after: Net, meta: Meta)
    requires InStep(c, net, s) && c.inFlight
    requires OnlyRead(net, after) && Answered(net, after, Success(meta))
    requires |net.answers| == |net.requests|
    ensures var c' := c.(hasMore := HasMore(meta), inFlight := false);
            && InStep(c', after, s)
            && (Paced(c, batch, pulls, net) ==> Paced(c', batch, pulls, after))
    ensures Concludes(after, meta) && after.skip == 0
    ensures Succeeded(net.answers[net.next]) && |RowsOf(net.answers[net.next])| == net.skip
  {
    hide Decode, HasMore;
    var a := net.answers[net.next];
    PullSummary(a, net.skip, c.all, c.got, c.tx, s);
    assert (pulls - 1) * batch == pulls * batch - batch;
  }

  /** The whole invariant of an open stream: in step, at pace, and only its own requests sent. */
  ghost predicate Tracks(
    c: Cursor, id: nat, batch: int64, qid: Option<int64>, greedy: bool, net: Net, server: ServerState)
  {
    && InStep(c, net, server)
    && (greedy && batch >= 1 ==> Paced(c, batch, |net.requests| - id - 1, net))
    && |net.answers| == |net.requests| >= id + 2
    && AllEnded(net, id, net.next, c.hasMore && !c.inFlight)
    && net.requests[id + 1].signature == PULL
    && (forall i :: id + 2 <= i < |net.requests| ==> net.requests[i] == PullRequest(batch, qid))
  }

  /** The next PULL or DISCARD goes on with what was open. */
  lemma EndedNext(net: Net, id: nat, req: Request, after: Net)
    requires AllEnded(net, id, |net.requests|, true) && Continues(req)
    requires after.requests == net.requests + [req] && net.answers <= after.answers && Balanced(after)
    ensures AllEnded(after, id, |net.requests|, false)
  {
    hide Block, SummaryOf, HasMore;
    forall i | id <= i < |net.requests|
      ensures Ended(after, i, false)
    {
      assert Ended(net, i, true);
    }
  }

  lemma EndedRead(net: Net, id: nat, upto: nat, open: bool, after: Net)
    requires AllEnded(net, id, upto, open) && OnlyRead(net, after)
    ensures AllEnded(after, id, upto, open)
  {
    hide Block, SummaryOf, HasMore;
    assert forall i :: Ended(net, i, open) ==> Ended(after, i, open);
  }

  /** The last request succeeded, and more may be to come if it says so. */
  lemma EndedLast(net: Net, id: nat, meta: Meta, open: bool)
    requires net.requests != [] && Balanced(net) && AllEnded(net, id, |net.requests| - 1, false)
    requires Concludes(net, meta)
    requires Continues(net.requests[|net.requests| - 1]) && HasMore(meta) ==> open
    ensures AllEnded(net, id, |net.requests|, open)
  {
    hide Block, SummaryOf, HasMore;
    forall i | id <= i < |net.requests|
      ensures Ended(net, i, open)
    {
      assert i < |net.requests| - 1 ==> Ended(net, i, false);
    }
  }

  /** The last request was a PULL or DISCARD that failed, and then the session was RESET. */
  lemma EndedReset(net: Net, id: nat, after: Net)
    requires net.requests != [] && Balanced(net) && AllEnded(net, id, |net.requests| - 1, false)
    requires Continues(net.requests[|net.requests| - 1])
    requires var a := net.answers[|net.answers| - 1]; Block(a) && SummaryOf(a).Some? && SummaryOf(a).value.Failure?
    requires after.requests == net.requests + [EmptyRequest(RESET)] && net.answers <= after.answers
    requires Balanced(after) && LastSucceeded(after)
    ensures AllEnded(after, id, |after.requests|, false)
  {
    hide Block, SummaryOf, HasMore;
    forall i | id <= i < |after.requests|
      ensures Ended(after, i, false)
    {
      assert i < |net.requests| - 1 ==> Ended(net, i, false);
    }
  }

  /** A failure that was read is the summary of the answer it was read from. */
  lemma FailureIsSummary(unread: Net, read: Net, code: Text, message: Text)
    requires OnlyRead(unread, read) && Answered(unread, read, Response.Failure(code, message))
    requires Position(unread.answers, unread.next, unread.skip)
    ensures Block(unread.answers[unread.next])
    ensures SummaryOf(unread.answers[unread.next]) == Some(Response.Failure(code, message))
  {
    hide Decode;
    BlockBody(unread.answers[unread.next], unread.skip);
  }

  /** One of the stream's requests was not answered SUCCESS. */
  ghost predicate Refused(net: Net, id: nat) {
    exists k :: id <= k < |net.answers| && Block(net.answers[k]) && !Succeeded(net.answers[k])
  }

  lemma StillRefused(net: Net, after: Net, id: nat)
    requires Refused(net, id) && Grows(net, after)
    ensures Refused(after, id)
  {
    var k :| id <= k < |net.answers| && Block(net.answers[k]) && !Succeeded(net.answers[k]);
    assert after.answers[k] == net.answers[k];
  }

  /** A summary other than SUCCESS was read. */
  lemma RefusedRead(unread: Net, read: Net, response: Response, id: nat)
    requires OnlyRead(unread, read) && Answered(unread, read, response) && !response.Record? && !response.Success?
    requires Position(unread.answers, unread.next, unread.skip) && id <= unread.next
    ensures Refused(read, id)
  {
    hide Decode;
    BlockBody(unread.answers[unread.next], unread.skip);
  }

  lemma TracksFailed(
    c: Cursor, id: nat, batch: int64, qid: Option<int64>, greedy: bool, unread: Net, s: ServerState, read: Net,
    code: Text, message: Text, after: Net)
    requires Tracks(c, id, batch, qid, greedy, unread, s) && c.inFlight
    requires OnlyRead(unread, read) && Answered(unread, read, Response.Failure(code, message))
    requires Position(unread.answers, unread.next, unread.skip) && Balanced(unread)
    requires after.requests == read.requests + [EmptyRequest(RESET)] && Grows(read, after)
    requires Balanced(after) && LastSucceeded(after)
    ensures AllEnded(after, id, |after.requests|, false)
  {
    hide Answered, Position, AllEnded, Block, SummaryOf, PullUnderWay, Paced, LastSucceeded;
    FailureIsSummary(unread, read, code, message);
    PullSignature(batch, qid);
    EndedRead(unread, id, unread.next, false, read);
    EndedReset(read, id, after);
  }

  lemma PullSignature(n: int64, qid: Option<int64>)
    ensures PullRequest(n, qid).signature == PULL
  {
  }

  lemma TracksStart(
    before: Net, s: ServerState, run: Request, batch: int64, greedy: bool, after: Net, s': ServerState,
    result: (seq<Text>, Option<int64>))
    requires Opened(before, s, run, batch, greedy, after, s', result) && run.signature == RUN
    ensures var id := |before.requests|;
            && id in after.results
            && Tracks(Cursor(after.results[id], InTx(s), [], true, true), id, batch, result.1, greedy, after, s')
  {
    hide InStep, Paced, PullRequest, AllEnded;
    PullSignature(batch, None);
    StreamBegins(before, s, run, batch, greedy, after, s', result);
    RunEnded(before, s, run, batch, greedy, after, s', result);
  }

  /** A RUN that opened a stream has ended well. */
  lemma RunEnded(
    before: Net, s: ServerState, run: Request, batch: int64, greedy: bool, after: Net, s': ServerState,
    result: (seq<Text>, Option<int64>))
    requires Opened(before, s, run, batch, greedy, after, s', result) && run.signature == RUN
    ensures AllEnded(after, |before.requests|, after.next, false)
  {
    hide PullRequest, PullUnderWay, HasMore, Columns, Decode;
  }

  lemma TracksPull(
    c: Cursor, id: nat, batch: int64, qid: Option<int64>, greedy: bool,
    net: Net, s: ServerState, after: Net, s': ServerState)
    requires Tracks(c, id, batch, qid, greedy, net, s) && c.hasMore && !c.inFlight
    requires net.next == |net.answers| && net.skip == 0
    requires Sent(net, s, PullRequest(batch, qid), greedy, after, s')
    ensures Tracks(c.(inFlight := true), id, batch, qid, greedy, after, s')
    ensures after.next == net.next && after.skip == 0
    ensures batch != 0 ==> PullsSome(after.answers, after.next)
  {
    hide InStep, Paced, PullRequest, Legal, Block, Ended, AllEnded;
    PullSignature(batch, qid);
    EndedNext(net, id, PullRequest(batch, qid), after);
    PullSent(c, batch, qid, greedy, |net.requests| - id - 1, net, s, after, s');
    LegalBlock(s, PullRequest(batch, qid), greedy, after.answers[net.next], s');
  }

  lemma TracksRecord(
    c: Cursor, id: nat, batch: int64, qid: Option<int64>, greedy: bool, net: Net, s: ServerState, after: Net, row: Row)
    requires Tracks(c, id, batch, qid, greedy, net, s) && c.inFlight
    requires OnlyRead(net, after) && Answered(net, after, Record(row))
    ensures var c' := c.(got := c.got + [row]);
            Tracks(c', id, batch, qid, greedy, after, s) && c'.got <= c.all
    ensures after.answers == net.answers && after.next == net.next && after.skip == net.skip + 1
  {
    hide InStep, Paced, PullRequest, Answered, AllEnded;
    EndedRead(net, id, net.next, false, after);
    RecordRead(c, batch, |net.requests| - id - 1, net, s, after, row);
  }

  lemma TracksSummary(
    c: Cursor, id: nat, batch: int64, qid: Option<int64>, greedy: bool, net: Net, s: ServerState, after: Net,
    meta: Meta)
    requires Tracks(c, id, batch, qid, greedy, net, s) && c.inFlight && Balanced(net)
    requires OnlyRead(net, after) && Answered(net, after, Success(meta))
    ensures Tracks(c.(hasMore := HasMore(meta), inFlight := false), id, batch, qid, greedy, after, s)
    ensures Concludes(after, meta) && (!HasMore(meta) ==> c.got == c.all)
    ensures PullsSome(net.answers, net.next) ==> net.skip > 0
  {
    hide Paced, PullRequest, Answered, Concludes, HasMore, PullUnderWay, AllEnded, Utf8, Utf8Step, IsRecord, Records;
    EndedRead(net, id, net.next, false, after);
    SummaryRead(c, batch, greedy, |net.requests| - id - 1, net, s, after, meta);
    PullUnderWayBlock(net.answers[net.next], net.skip, c.all, c.got, c.tx, s);
    EndedLast(after, id, meta, HasMore(meta));
  }

  lemma PullUnderWayBlock(a: Answer, skip: nat, all: seq<Row>, got: seq<Row>, tx: bool, s: ServerState)
    requires PullUnderWay(a, skip, all, got, tx, s)
    ensures Block(a)
  {
  }

  /** Reading nothing changes nothing. */
  lemma TracksUnread(
    c: Cursor, id: nat, batch: int64, qid: Option<int64>, greedy: bool, net: Net, s: ServerState, after: Net)
    requires Tracks(c, id, batch, qid, greedy, net, s)
    ensures NothingConsumed(net, after) ==> Tracks(c, id, batch, qid, greedy, after, s)
  {
    hide PullRequest, PullUnderWay, Block, Succeeded, RowsOf, PullServes, AllEnded;
    if NothingConsumed(net, after) {
      EndedRead(net, id, net.next, c.hasMore && !c.inFlight, after);
    }
  }

  /** The first request after `start` opened a statement with rows `all`, with nothing owed. */
  ghost predicate Started(start: Net, net: Net, all: seq<Row>) {
    var id := |start.requests|;
    && Grows(start, net) && id < |net.requests| && id in net.results && net.results[id] == all
    && CleanSends(net, id)
  }

  lemma StartedLater(start: Net, all: seq<Row>, was: Net, net: Net, after: Net)
    requires Started(start, net, all) && Quiet(was, net) && Quiet(net, after) && Balanced(after)
    ensures Started(start, after, all) && Quiet(was, after) && Grows(net, after)
  {
    hide CleanSends;
    CleanQuiet(net, after, |start.requests|);
  }

  lemma StartedMeans(start: Net, net: Net, all: seq<Row>)
    requires Started(start, net, all)
    ensures |start.requests| < |net.requests| && CleanSends(net, |start.requests|)
  {
  }

  lemma StartedAt(
    before: Net, s: ServerState, run: Request, batch: int64, greedy: bool, after: Net, s': ServerState,
    result: (seq<Text>, Option<int64>))
    requires Grows(before, after) && Opened(before, s, run, batch, greedy, after, s', result)
    requires CleanSends(after, |before.requests|)
    ensures Started(before, after, after.results[|before.requests|])
  {
    hide PullRequest, Columns, PullUnderWay, CleanSends;
  }

  /** What a stream that tracks means for the connection. */
  lemma TracksMeans(
    c: Cursor, id: nat, batch: int64, qid: Option<int64>, greedy: bool, net: Net, s: ServerState)
    requires Tracks(c, id, batch, qid, greedy, net, s)
    ensures |net.requests| >= id + 2 && Debt(net) == if c.inFlight then 1 else 0
    ensures c.inFlight ==> c.hasMore && net.next < |net.answers| && net.skip < |net.answers[net.next]|
    ensures c.hasMore && !c.inFlight ==> HasStream(s) && (InTx(s) <==> c.tx)
    ensures !c.inFlight ==> AllEnded(net, id, |net.requests|, c.hasMore)
    ensures !c.hasMore ==> c.got == c.all && s == if c.tx then TxReady else Ready
    ensures !c.hasMore && !c.inFlight && greedy && batch >= 1 ==> |net.requests| - id - 1 == PullsFor(|c.all|, batch)
  {
    hide PullsFor, PullUnderWay, PullRequest, PullServes, AllEnded, Block, RowsOf, Succeeded;
    if !c.hasMore && greedy && batch >= 1 {
      PullsAre(|c.all|, batch, |net.requests| - id - 1);
    }
  }

  /** None of a drained stream's requests was refused. */
  lemma NotRefused(
    c: Cursor, id: nat, batch: int64, qid: Option<int64>, greedy: bool, net: Net, s: ServerState)
    requires Tracks(c, id, batch, qid, greedy, net, s) && !c.hasMore && !c.inFlight
    ensures !Refused(net, id)
  {
    hide Paced, Block, SummaryOf, HasMore;
    PullSignature(batch, qid);
    forall k | id <= k < |net.answers|
      ensures Block(net.answers[k]) && Succeeded(net.answers[k])
    {
      assert Ended(net, k, false);
    }
  }

  // ---- the stream ----

  /** The records of a statement whose RUN succeeded and whose first PULL went with it. */
  class RecordStream {
    const conn: BoltConnection
    const columns: seq<Text>
    const qid: Option<int64>
    const batch: int64
    /** Rows received and not handed out yet. */
    var buffer: seq<Row>
    var hasMore: bool
    /** Whether the summary of a PULL is owed, as that of the first one is from the start. */
    var pullInFlight: bool
    var done: bool
    var summary: Option<Meta>
    /** What had been exchanged before RUN, whose id is the number of requests then. */
    ghost const start: Net
    /** The rows of the statement this stream is of. */
    ghost const all: seq<Row>
    /** Whether it was opened in a transaction. */
    ghost const tx: bool
    /** The rows handed out. */
    ghost var returned: seq<Row>
    /** A PULL got a FAILURE or was IGNORED. */
    ghost var failed: bool
    /** Some call gave a server failure as its error. */
    ghost var reported: bool

    ghost predicate Valid()
      reads this, conn
    {
      && conn.Valid() && Started(start, conn.net, all)
      && returned + buffer <= all && ValidBatch(batch)
      && (done && !failed ==> !hasMore) && (pullInFlight || failed ==> hasMore)
      && (!hasMore ==> returned + buffer == all && !conn.broken) && (summary.Some? <==> !hasMore)
      && (reported ==> failed) && (failed && !reported ==> !conn.IsReady())
      && (if failed then done && Recovered() && Refused(conn.net, |start.requests|) else OnTrack())
    }

    /** The connection after a failed PULL: waiting for a RESET, or RESET. */
    ghost predicate Recovered()
      reads this, conn
    {
      conn.broken || conn.needsReset || (conn.pending == 0 && conn.server == Ready && Over())
    }

    /** Every request the stream sent has ended well. */
    ghost predicate Over()
      reads this, conn
    {
      AllEnded(conn.net, |start.requests|, |conn.net.requests|, false)
    }

    /** Just opened. */
    ghost predicate Unused()
      reads this
    {
      returned == [] && !done && !failed && !reported
    }

    ghost function Place(): Cursor
      reads this
    {
      Cursor(all, tx, returned + buffer, hasMore, pullInFlight)
    }

    /** As long as the connection lives, the stream is in step with the server. */
    ghost predicate OnTrack()
      reads this, conn
    {
      !conn.broken ==>
        && Tracks(Place(), |start.requests|, batch, qid, conn.greedy, conn.net, conn.server)
        && (conn.needsReset <==> hasMore)
        && (summary.Some? ==> Concludes(conn.net, summary.value) && !HasMore(summary.value))
    }

    constructor (
      conn: BoltConnection, columns: seq<Text>, qid: Option<int64>, batch: int64, ghost start: Net,
      ghost s: ServerState, ghost run: Request)
      requires conn.Valid() && !conn.broken && conn.needsReset && Grows(start, conn.net) && run.signature == RUN
      requires CleanSends(conn.net, |start.requests|)
      requires ValidBatch(batch) && Opened(start, s, run, batch, conn.greedy, conn.net, conn.server, (columns, qid))
      ensures Valid() && fresh(this) && this.conn == conn && this.start == start && tx == InTx(s)
      ensures this.columns == columns && this.batch == batch && this.qid == qid
      ensures Unused()
    {
      hide Grows, Opened, Tracks, Synced, Logged, PullRequest, Started;
      TracksStart(start, s, run, batch, conn.greedy, conn.net, conn.server, (columns, qid));
      StartedAt(start, s, run, batch, conn.greedy, conn.net, conn.server, (columns, qid));
      this.conn, this.columns, this.qid, this.batch := conn, columns, qid, batch;
      buffer, hasMore, pullInFlight, done, summary := [], true, true, false, None;
      this.start, this.all, this.tx := start, conn.net.results[|start.requests|], InTx(s);
      returned, failed, reported := [], false, false;
    }

    /** Sends the next PULL, unless one is under way. */
    method StartPull() returns (r: Outcome<()>)
      requires Valid() && !done && hasMore && !conn.broken
      modifies this`pullInFlight, conn
      ensures Valid() && Quiet(old(conn.net), conn.net)
      ensures r.Done? ==> !conn.broken && pullInFlight
      ensures r.Done? && !old(pullInFlight) ==> conn.net.skip == 0 && PullsSome(conn.net.answers, conn.net.next)
      ensures !r.Done? ==> conn.broken
      ensures r.Fail? ==> !r.error.ServerFailure?
    {
      hide Tracks, AllEnded, Started, Refused, Synced, Logged, Grows, Quiet, Sent, PullRequest, Concludes, PullsSome,
        Wrote;
      ghost var was, place, s := conn.net, Place(), conn.server;
      GrowsSelf(was);
      if !pullInFlight {
        TracksMeans(place, |start.requests|, batch, qid, conn.greedy, was, s);
        CaughtUp(was, conn.rbuf + conn.incoming);
        PullPacks(batch, qid);
        var sent := conn.WriteMessage(PullRequest(batch, qid));
        StartedLater(start, all, was, was, conn.net);
        if !sent.Done? {
          return sent;
        }
        TracksPull(place, |start.requests|, batch, qid, conn.greedy, was, s, conn.net, conn.server);
        pullInFlight := true;
      }
      r := Done(());
    }

    /** Reads one reply to the PULL under way; whether there are more to come. */
    method NextReply() returns (r: Outcome<bool>)
      requires Valid() && !done && pullInFlight && !conn.broken
      modifies this, conn
      ensures Valid() && returned == old(returned) && Quiet(old(conn.net), conn.net)
      ensures r.Done? ==> !conn.broken && !done && pullInFlight == r.value && (hasMore || summary.Some?)
      ensures r == Done(true) ==>
        && old(buffer) <= buffer && |buffer| == |old(buffer)| + 1
        && conn.net.answers == old(conn.net.answers) && conn.net.next == old(conn.net.next)
        && conn.net.skip == old(conn.net.skip) + 1
      ensures r != Done(true) ==> buffer == old(buffer)
      ensures r == Done(false) && old(PullsSome(conn.net.answers, conn.net.next)) ==> old(conn.net.skip) > 0
      ensures !r.Done? ==> failed || hasMore
      ensures r.Fail? ==> Blames(start, conn.net, r.error)
      ensures reported <==> r.Fail? && r.error.ServerFailure?
    {
      hide Tracks, AllEnded, Started, Synced, Logged, Grows, Quiet, Answered, Reported, Concludes, PullsSome,
        Position, Refused, HasMore, OnlyRead, NothingConsumed, Utf8, Utf8Step, IsRecord, Block, LastSucceeded, Decode;
      ghost var id, unread, place, stream := |start.requests|, conn.net, Place(), conn.rbuf + conn.incoming;
      GrowsSelf(unread);
      var reply := conn.ReadMessage();
      StartedLater(start, all, unread, unread, conn.net);
      if !reply.Done? {
        TracksUnread(place, id, batch, qid, conn.greedy, unread, conn.server, conn.net);
        return reply.PropagateFailure();
      }
      match reply.value {
        case Record(values) =>
          TracksRecord(place, id, batch, qid, conn.greedy, unread, conn.server, conn.net, values);
          Assoc(returned, buffer, [values]);
          buffer := buffer + [values];
          r := Done(true);
        case Success(meta) =>
          TracksSummary(place, id, batch, qid, conn.greedy, unread, conn.server, conn.net, meta);
          pullInFlight := false;
          hasMore := HasMore(meta);
          if !hasMore {
            summary := Some(meta);
            conn.needsReset := false;
          }
          r := Done(false);
        case Failure(code, message) =>
          done, failed := true, true;
          Positioned(unread, stream);
          TracksMeans(place, id, batch, qid, conn.greedy, unread, conn.server);
          RefusedRead(unread, conn.net, reply.value, id);
          ghost var read, s := conn.net, conn.server;
          var error := conn.FailReset(code, message);
          StillRefused(read, conn.net, id);
          r := error.PropagateFailure();
          reported := r.Fail?;
          StartedLater(start, all, unread, read, conn.net);
          BlamesRead(start, unread, read, conn.net, code, message);
          if conn.IsReady() {
            TracksFailed(place, id, batch, qid, conn.greedy, unread, s, read, code, message, conn.net);
          }
        case Ignored =>
          done, failed := true, true;
          Positioned(unread, stream);
          TracksMeans(place, id, batch, qid, conn.greedy, unread, conn.server);
          RefusedRead(unread, conn.net, reply.value, id);
          r := Fail(Protocol);
      }
    }

    /** Reads the batch under way into the buffer. */
    method ReceiveBatch() returns (r: Outcome<()>)
      requires Valid() && !done && pullInFlight && !conn.broken
      modifies this, conn
      ensures Valid() && returned == old(returned) && old(buffer) <= buffer
      ensures Quiet(old(conn.net), conn.net)
      ensures r.Done? ==> !conn.broken && !pullInFlight && !done && (hasMore || summary.Some?)
      ensures r.Done? && old(conn.net.skip == 0 && PullsSome(conn.net.answers, conn.net.next)) ==> buffer != []
      ensures !r.Done? ==> failed || hasMore
      ensures r.Fail? ==> Blames(start, conn.net, r.error)
      ensures reported <==> r.Fail? && r.error.ServerFailure?
    {
      hide Tracks, AllEnded, Started, Refused, Synced, Logged, Grows, Quiet, Reported, Concludes, PullsSome;
      ghost var first := conn.net;
      GrowsSelf(first);
      var more := true;
      while more
        invariant Valid() && !conn.broken && !done && pullInFlight == more && Quiet(first, conn.net)
        invariant returned == old(returned) && old(buffer) <= buffer && (hasMore || summary.Some?)
        invariant more ==> conn.net.answers == first.answers && conn.net.next == first.next
        invariant more ==> |buffer| == |old(buffer)| + conn.net.skip - first.skip
        invariant !more && first.skip == 0 && PullsSome(first.answers, first.next) ==> buffer != []
        decreases more, if first.next < |first.answers| then |first.answers[first.next]| - conn.net.skip else 0
      {
        ghost var unread := conn.net;
        TracksMeans(Place(), |start.requests|, batch, qid, conn.greedy, unread, conn.server);
        var reply := NextReply();
        QuietTransitive(first, unread, conn.net);
        more :- reply;
      }
      r := Done(());
    }

    /** Reads one batch into the buffer, sending its PULL first unless that is already under way. */
    method FetchBatch() returns (r: Outcome<()>)
      requires Valid() && !done && hasMore
      modifies this, conn
      ensures Valid() && returned == old(returned) && old(buffer) <= buffer
      ensures Quiet(old(conn.net), conn.net)
      ensures r.Done? ==> !conn.broken && !pullInFlight && !done && (hasMore || summary.Some?)
      ensures r.Done? && !old(pullInFlight) ==> buffer != [] || !hasMore
      ensures !r.Done? ==> failed || hasMore
      ensures r.Fail? ==> Blames(start, conn.net, r.error)
      ensures reported <==> r.Fail? && r.error.ServerFailure?
      ensures old(conn.broken) ==>
        r == Fail(Closed) && conn.broken && buffer == old(buffer) && conn.net == old(conn.net)
    {
      hide Tracks, AllEnded, Started, Refused, Synced, Logged, Grows, Quiet, Concludes, Reported, PullsSome;
      ghost var was := conn.net;
      GrowsSelf(was);
      if conn.broken {
        return Fail(Closed); // what sending and reading check first
      }
      var _ :- StartPull();
      ghost var sent := conn.net;
      r := ReceiveBatch();
      QuietTransitive(was, sent, conn.net);
    }

    /**
     * Hands out one more row of the statement. `None` means that all of them have been handed
     * out, unless the server refused a PULL. A caller sees which it is: `None` is premature
     * exactly if an earlier call gave a server failure or the session does not look ready.
     */
    method Next() returns (r: Outcome<Option<Row>>)
      requires Valid()
      modifies this, conn
      ensures Valid() && Quiet(old(conn.net), conn.net)
      ensures returned == old(returned) + if r.Done? && r.value.Some? then [r.value.value] else []
      ensures old(buffer) != [] ==> r == Done(Some(old(buffer)[0]))
      ensures old(buffer) == [] && (old(done) || !old(hasMore)) ==> r == Done(None)
      ensures r.Done? ==> failed == old(failed)
      ensures reported <==> old(reported) || (r.Fail? && r.error.ServerFailure?)
      ensures r == Done(None) ==> done && buffer == []
      ensures r == Done(None) ==> (failed <==> reported || !conn.IsReady())
      ensures r == Done(None) ==> (failed <==> Refused(conn.net, |start.requests|))
      ensures r == Done(None) && !failed ==>
        && returned == all && conn.server == (if tx then TxReady else Ready)
        && (conn.greedy && batch >= 1 ==> |conn.net.requests| == |start.requests| + 1 + PullsFor(|all|, batch))
      ensures !old(failed) && failed && conn.IsReady() ==>
        r.Fail? && r.error.ServerFailure? && conn.server == Ready
      ensures r.Fail? ==> Blames(start, conn.net, r.error)
      ensures !r.Done? && !failed ==> !done
    {
      hide Tracks, AllEnded, Started, Refused, Synced, Logged, Grows, Quiet, Concludes, Reported, PullsFor, HasMore,
        HasStream, InTx, Balanced;
      ghost var was := conn.net;
      GrowsSelf(was);
      assert returned + [] == returned;
      while true
        invariant Valid() && returned == old(returned) && Quiet(was, conn.net)
        invariant failed == old(failed) && reported == old(reported)
        invariant
          || (buffer == old(buffer) && done == old(done) && hasMore == old(hasMore))
          || (old(buffer) == [] && !old(done) && old(hasMore))
        decreases if buffer == [] && hasMore then (if pullInFlight then 2 else 1) else 0
      {
        if buffer != [] {
          var row := buffer[0];
          Assoc(returned, [row], buffer[1..]);
          assert [row] + buffer[1..] == buffer;
          buffer := buffer[1..];
          returned := returned + [row];
          return Done(Some(row));
        }
        if done || !hasMore {
          done := true;
          if !failed {
            TracksMeans(Place(), |start.requests|, batch, qid, conn.greedy, conn.net, conn.server);
            NotRefused(Place(), |start.requests|, batch, qid, conn.greedy, conn.net, conn.server);
          }
          return Done(None);
        }
        ghost var before := conn.net;
        var fetched := FetchBatch();
        QuietTransitive(was, before, conn.net);
        var _ :- fetched;
      }
    }

    /** How a stream may leave the connection: ready after a failure, that failure was reported. */
    ghost predicate Left()
      reads this, conn
    {
      && (reported ==> failed) && (failed && conn.IsReady() ==> reported)
      && (|| conn.broken || conn.needsReset
          || (conn.pending == 0 && conn.server == (if tx && !failed then TxReady else Ready) && Over()))
    }

    /** Dropped before it is done, the stream leaves the session to be RESET. */
    method Drop()
      requires conn.Valid() && (reported ==> failed) && (done ==> Left())
      modifies conn`needsReset
      ensures conn.Valid() && Left() && (!done ==> conn.needsReset)
      ensures done ==> conn.needsReset == old(conn.needsReset)
      ensures !tx ==> conn.Idle()
    {
      if !done {
        conn.needsReset := true;
      }
    }

    /** What a stream in use means for its connection. */
    lemma Standing()
      requires Valid()
      ensures done || !hasMore ==> Left()
      ensures !conn.broken && !failed && !pullInFlight && hasMore ==>
        && conn.pending == 0 && HasStream(conn.server) && (InTx(conn.server) <==> tx)
        && AllEnded(conn.net, |start.requests|, |conn.net.requests|, true)
    {
      hide InStep, Paced, Synced, Logged, Grows, Quiet, Concludes, Started, Refused, AllEnded;
      if !failed && !conn.broken {
        TracksMeans(Place(), |start.requests|, batch, qid, conn.greedy, conn.net, conn.server);
      }
    }

    /** DISCARDs whatever remains; the metadata is that of the statement's last summary. */
    method Conclude() returns (r: Outcome<Meta>)
      requires Valid()
      modifies this, conn
      ensures conn.Valid() && Quiet(old(conn.net), conn.net) && (reported ==> failed) && (done ==> Left())
      ensures r.Done? ==> done && failed == old(failed) && (failed <==> reported || !conn.IsReady())
      ensures old(failed) ==> r == Done(map[])
      ensures old(summary).Some? ==> r == Done(old(summary).value)
      ensures r.Done? && !failed ==> Concludes(conn.net, r.value) && !HasMore(r.value)
      ensures reported <==> old(reported) || (r.Fail? && r.error.ServerFailure?)
      ensures r.Fail? ==> Blames(start, conn.net, r.error)
    {
      hide Tracks, AllEnded, Started, Refused, Synced, Logged, Grows, Quiet, Concludes, Reported;
      ghost var was := conn.net;
      GrowsSelf(was);
      Standing();
      if summary.Some? {
        var meta := summary.value;
        summary, done := None, true;
        return Done(meta);
      }
      if done {
        return Done(map[]);
      }
      if pullInFlight {
        var _ :- FetchBatch();
        Standing();
        buffer := [];
        if summary.Some? {
          var meta := summary.value;
          summary, done := None, true;
          return Done(meta);
        }
      }
      ghost var fetched := conn.net;
      r := Discard();
      QuietTransitive(was, fetched, conn.net);
    }

    /** Sends DISCARD for what the server still holds and awaits its SUCCESS. */
    method Discard() returns (r: Outcome<Meta>)
      requires conn.Valid() && Started(start, conn.net, all) && !failed && !reported && !done
      requires !conn.broken ==>
        && conn.needsReset && conn.pending == 0 && HasStream(conn.server) && (InTx(conn.server) <==> tx)
        && AllEnded(conn.net, |start.requests|, |conn.net.requests|, true)
      modifies this`done, this`failed, this`reported, conn
      ensures conn.Valid() && Quiet(old(conn.net), conn.net) && done && Left()
      ensures r.Done? ==> conn.IsReady() && !failed && Concludes(conn.net, r.value) && !HasMore(r.value)
      ensures reported <==> r.Fail? && r.error.ServerFailure?
      ensures r.Fail? ==> Blames(start, conn.net, r.error)
    {
      hide Started, Refused, Synced, Logged, Grows, Quiet, Reported, Answered, OnlyRead, Sent, Settled,
        Position, HasStream, DiscardRequest, Utf8, Utf8Step, AllEnded, Concludes, Block, SummaryOf, LastSucceeded,
        Wrote, HasMore;
      done := true;
      ghost var was, s, req, id := conn.net, conn.server, DiscardRequest(-1, qid), |start.requests|;
      if !conn.broken {
        CaughtUp(was, conn.rbuf + conn.incoming);
      }
      StartedMeans(start, was, all);
      DiscardsAll(-1, qid);
      var sent := conn.WriteMessage(DiscardRequest(-1, qid));
      OnlyReadSelf(conn.net);
      if !sent.Done? {
        return sent.PropagateFailure();
      }
      ghost var wrote, s' := conn.net, conn.server;
      SentEnded(was, s, req, conn.greedy, wrote, s', id);
      while true
        invariant conn.Valid() && !conn.broken && conn.needsReset && done && !failed && !reported && conn.server == s'
        invariant OnlyRead(wrote, conn.net) && conn.net.next == wrote.next && Quiet(was, conn.net)
        invariant conn.net.requests == was.requests + [req] && AllEnded(conn.net, id, |was.requests|, false)
        decreases if conn.net.next < |conn.net.answers| then |conn.net.answers[conn.net.next]| - conn.net.skip else 0
      {
        ghost var unread, stream := conn.net, conn.rbuf + conn.incoming;
        Positioned(unread, stream);
        var reply := conn.ReadMessage();
        QuietTransitive(was, unread, conn.net);
        EndedRead(unread, id, |was.requests|, false, conn.net);
        ReadsOn(wrote, unread, conn.net);
        if !reply.Done? {
          return reply.PropagateFailure();
        }
        match reply.value {
          case Success(meta) =>
            Settles(was, s, req, conn.greedy, wrote, unread, conn.net, conn.server, meta);
            SettledConcludes(was, s, req, conn.greedy, conn.net, conn.server, meta);
            EndedLast(conn.net, id, meta, false);
            conn.needsReset := false;
            return Done(meta);
          case Record(_) =>
            Progress(unread, conn.net, reply.value);
          case Failure(code, message) =>
            failed := true;
            ghost var read := conn.net;
            var error := conn.FailReset(code, message);
            QuietTransitive(was, read, conn.net);
            BlamesRead(start, unread, read, conn.net, code, message);
            if conn.IsReady() {
              DiscardFailed(|was.requests|, req, unread, read, code, message, conn.net, id);
            }
            reported := error.Fail?;
            return error.PropagateFailure();
          case Ignored =>
            failed := true;
            return Fail(Protocol);
        }
      }
    }

    /**
     * Ends the stream, leaving no row at the server, and gives its last summary's metadata; or
     * none after a failure: a caller tells the two apart as with `Next`.
     */
    method Finish() returns (r: Outcome<Meta>)
      requires Valid()
      modifies this, conn
      ensures conn.Valid() && Quiet(old(conn.net), conn.net) && Left()
      ensures r.Done? ==> failed == old(failed) && (failed <==> reported || !conn.IsReady())
      ensures old(failed) ==> r == Done(map[])
      ensures old(summary).Some? ==> r == Done(old(summary).value)
      ensures r.Done? && !failed ==> Concludes(conn.net, r.value) && !HasMore(r.value)
      ensures r.Done? && !failed ==> conn.server == (if tx then TxReady else Ready) && RowsLeft(conn.server) == []
      ensures reported <==> old(reported) || (r.Fail? && r.error.ServerFailure?)
      ensures r.Fail? ==> Blames(start, conn.net, r.error)
      ensures !tx ==> conn.Idle()
    {
      hide Synced, Logged, Grows, Quiet, Concludes, Reported;
      r := Conclude();
      Drop();
    }
  }

  lemma DiscardsAll(n: int64, qid: Option<int64>)
    ensures DiscardRequest(n, qid).signature == DISCARD && PullLimit(DiscardRequest(n, qid)) == n
  {
    PullLimitIs(n, qid);
  }

  /** A DISCARD that failed, and the RESET after it. */
  lemma DiscardFailed(
    n: nat, req: Request, unread: Net, read: Net, code: Text, message: Text, after: Net, id: nat)
    requires Balanced(read) && |read.requests| == n + 1 && read.requests[n] == req && Continues(req)
    requires OnlyRead(unread, read) && Answered(unread, read, Response.Failure(code, message)) && unread.next == n
    requires Position(unread.answers, unread.next, unread.skip) && AllEnded(read, id, n, false)
    requires after.requests == read.requests + [EmptyRequest(RESET)] && Grows(read, after)
    requires Balanced(after) && LastSucceeded(after)
    ensures AllEnded(after, id, |after.requests|, false)
  {
    hide Answered, Position, AllEnded, Block, SummaryOf, LastSucceeded;
    FailureIsSummary(unread, read, code, message);
    EndedReset(read, id, after);
  }

  lemma SentEnded(net: Net, s: ServerState, req: Request, greedy: bool, after: Net, s': ServerState, id: nat)
    requires Sent(net, s, req, greedy, after, s') && Continues(req) && AllEnded(net, id, |net.requests|, true)
    ensures AllEnded(after, id, |net.requests|, false) && after.requests == net.requests + [req]
  {
    hide Legal, AllEnded;
    EndedNext(net, id, req, after);
  }

  lemma OnlyReadSelf(net: Net)
    ensures OnlyRead(net, net)
  {
  }

  lemma SettledConcludes(
    before: Net, s: ServerState, req: Request, greedy: bool, after: Net, s': ServerState, meta: Meta)
    requires Settled(before, s, req, greedy, after, s', meta)
    ensures Concludes(after, meta)
  {
    LegalBlock(s, req, greedy, after.answers[|before.requests|], s');
  }

  lemma PullPacks(n: int64, qid: Option<int64>)
    ensures Packable(PullRequest(n, qid)) && PullRequest(n, qid).signature == PULL
  {
    var meta := PullRequest(n, qid).fields[0];
    assert PackStreamLaws.Within(meta, false) by {
      assert |N_KEY| == 1 && |QID_KEY| == 3;
    }
  }

  /** -1 for all rows at once, or a positive number of rows. */
  predicate ValidBatch(batch: int64) {
    batch != 0 && batch >= -1
  }

  /** Opens a stream on an auto-commit statement. */
  method RunStreamWith(conn: BoltConnection, query: Text, parameters: Meta, extra: Meta, batch: int64)
    returns (r: Outcome<RecordStream>)
    requires conn.Valid() && conn.Idle()
    modifies conn
    ensures conn.Valid() && Grows(old(conn.net), conn.net) && Prompt(conn.net, |old(conn.net).requests|)
    ensures r.Done? ==> var stream := r.value;
      && fresh(stream) && stream.conn == conn && stream.Valid() && !stream.tx && stream.Unused()
      && Grows(old(conn.net), stream.start) && stream.batch == batch
      && Opened(stream.start, Ready, RunRequest(query, parameters, extra), batch, conn.greedy, conn.net, conn.server,
                (stream.columns, stream.qid))
    ensures !r.Done? ==> conn.Idle()
    ensures r.Fail? ==> Blames(old(conn.net), conn.net, r.error)
    ensures batch == 0 || batch < -1 ==> r == Fail(Protocol) && conn.net == old(conn.net)
  {
    hide Synced, Logged, Grows, Quiet, CleanSends, Prompt, Reported, Opened, Tracks, Started, Refused;
    ghost var was := conn.net;
    GrowsSelf(was);
    PromptNone(was);
    if !ValidBatch(batch) {
      return Fail(Protocol);
    }
    var clean := conn.EnsureClean();
    QuietIsPrompt(was, conn.net);
    var _ :- clean;
    conn.needsReset := true;
    ghost var start := conn.net;
    var run := RunRequest(query, parameters, extra);
    var opening := conn.SendRunPull(run, batch);
    GrowsTransitive(was, start, conn.net);
    CleanIsPrompt(conn.net, |start.requests|);
    PromptThen(start, conn.net, |was.requests|);
    if !opening.Done? {
      if opening.Fail? {
        BlamesLater(was, start, conn.net, opening.error);
      }
      return opening.PropagateFailure();
    }
    var stream := new RecordStream(conn, opening.value.0, opening.value.1, batch, start, Ready, run);
    r := Done(stream);
  }

  /**
   * Reads a stream to its end through any schedule of cancelled and failed calls, each
   * retried while there is patience. What it has is always a prefix of the statement's rows.
   * Once the end is reported, the server refused nothing, and these are all of them, exactly
   * if no call gave a server failure and the session looks ready; `calm`, if no call failed
   * or was cancelled, is enough for that.
   */
  method Collect(stream: RecordStream, patience: nat)
    returns (rows: seq<Row>, ended: bool, failure: bool, calm: bool)
    requires stream.Valid() && stream.Unused()
    modifies stream, stream.conn
    ensures stream.Valid() && rows == stream.returned <= stream.all
    ensures ended ==>
      (stream.conn.IsReady() && !failure <==> !Refused(stream.conn.net, |stream.start.requests|))
    ensures ended && stream.conn.IsReady() && !failure ==> rows == stream.all
    ensures ended && calm ==> stream.conn.IsReady() && !failure
  {
    hide Synced, Logged, Grows, Reported, Opened, Tracks, Started, Refused, Concludes;
    rows, ended, failure, calm := [], false, false, true;
    for _ := 0 to patience
      invariant stream.Valid() && rows == stream.returned && failure == stream.reported
      invariant calm ==> !stream.failed
    {
      var reply := stream.Next();
      match reply {
        case Done(Some(row)) => rows := rows + [row];
        case Done(None) =>
          ended := true;
          break;
        case Fail(error) =>
          failure, calm := failure || error.ServerFailure?, false;
        case Cancelled => calm := false;
      }
    }
    assert stream.returned <= stream.returned + stream.buffer;
  }
}
