/**
 * One Bolt session over a byte stream. Every `await` is a place where the operation may be
 * cancelled: its future is dropped, so the method just stops there with `Cancelled`.
 */
module Connection {
  import opened Bytes
  import opened Message
  import opened Peer
  import opened Wire
  import opened Vocabulary
  import Framing

  datatype Error = Closed | Io | Timeout | Protocol | ServerFailure(code: Text, message: Text)

  /** How an asynchronous operation ends: with a result, an error, or cut off at an await. */
  datatype Outcome<+T> = Done(value: T) | Fail(error: Error) | Cancelled {
    predicate IsFailure() {
      !Done?
    }

    function PropagateFailure<U>(): Outcome<U>
      requires !Done?
    {
      if Fail? then Fail(error) else Cancelled
    }

    function Extract(): T
      requires Done?
    {
      value
    }
  }

  /** Nothing was written; at most replies were read. */
  ghost predicate OnlyRead(a: Net, b: Net) {
    b == a.(next := b.next, skip := b.skip, items := b.items)
  }

  /** No reply was consumed; at most leading NOOPs left the stream. */
  ghost predicate NothingConsumed(a: Net, b: Net) {
    b == a.(items := b.items)
  }

  /** A write cut after `k` bytes. */
  predicate Cut(before: Net, bytes: seq<byte>, k: nat, after: Net) {
    k <= |bytes| && after == before.(output := before.output + bytes[..k])
  }

  /** The bytes written are exactly the framing of the requests made. */
  ghost predicate Logged(net: Net) {
    && Framing.ValidItems(net.sent)
    && CarriesAll(net.sent, net.written)
    && net.output == Framing.Wire(net.sent)
    && net.requests == Answerable(net.written)
  }

  /** Since it was written, `reqs` were answered. */
  ghost predicate Replied(wrote: Net, reqs: seq<Request>, net: Net) {
    && net.output == wrote.output && net.sent == wrote.sent && net.written == wrote.written
    && net.requests == wrote.requests + reqs
  }

  lemma LoggedAppend(net: Net, after: Net, items: seq<Framing.Item>, reqs: seq<Request>)
    requires Logged(net) && Outgoing(items, reqs)
    requires Replied(Write(net, Framing.Wire(items), items, reqs), Answerable(reqs), after)
    ensures Logged(after)
  {
    hide Carries, FullChunks, Framing.Wire, Framing.ValidItem, Answerable;
    Framing.WireConcat(net.sent, items);
    AnswerableConcat(net.written, reqs);
  }

  /** Reading leaves the log of writes alone. */
  lemma LoggedReads(net: Net)
    requires Logged(net)
    ensures forall after | OnlyRead(net, after) :: Logged(after)
  {
  }

  lemma OnlyReadQuiet(net: Net)
    ensures forall after | OnlyRead(net, after) :: Quiet(net, after) && Grows(net, after)
  {
  }

  lemma WriteSynced(
    net: Net, stream: seq<byte>, bytes: seq<byte>, items: seq<Framing.Item>, reqs: seq<Request>, s: ServerState,
    greedy: bool)
    requires Synced(net, stream)
    ensures Synced(Write(net, bytes, items, reqs), stream)
    ensures Accepted(net, [], [s], greedy, Write(net, bytes, items, reqs))
  {
    hide Owed, Block, Framing.Wire, Framing.Bodies;
    AcceptedNone(net, s, greedy, bytes, items, reqs);
  }

  /** `response` is the decoded next body owed, and the read position is past it. */
  ghost predicate Answered(before: Net, after: Net, response: Response) {
    && before.next < |before.answers| && before.skip < |before.answers[before.next]|
    && Decode(before.answers[before.next][before.skip]) == Some(response)
    && after.next == (if response.Record? then before.next else before.next + 1)
    && after.skip == (if response.Record? then before.skip + 1 else 0)
  }

  /** Taking from the read buffer either consumes the next body owed or drops NOOPs. */
  lemma TakeReply(net: Net, rbuf: seq<byte>, incoming: seq<byte>) returns (rest: seq<Framing.Item>)
    requires Synced(net, rbuf + incoming)
    ensures match Framing.TakeMessage(rbuf)
            case (Whole(body, _), rbuf') =>
              && net.next < |net.answers| == |net.requests| && net.skip < |net.answers[net.next]|
              && body == net.answers[net.next][net.skip]
              && Synced(Consume(net, rest), rbuf' + incoming)
            case (Partial, rbuf') => Synced(net.(items := rest), rbuf' + incoming)
            case (TooLong, _) => true
  {
    hide Framing.TakeMessage, Block, Framing.Wire, Framing.Bodies, Owed;
    rest := Framing.TakeFromStream(rbuf, incoming, net.items);
    var (cut, rbuf') := Framing.TakeMessage(rbuf);
    if cut.Whole? {
      ConsumeSynced(net, rbuf + incoming, cut.body, rest, rbuf' + incoming);
    }
  }

  lemma LegalBlock(s: ServerState, req: Request, greedy: bool, a: Answer, s': ServerState)
    requires Legal(s, req, greedy, a, s')
    ensures Block(a)
  {
  }

  /** One request was sent and answered. */
  ghost predicate Sent(
    before: Net, s: ServerState, req: Request, greedy: bool, after: Net, s': ServerState)
  {
    var n := |before.requests|;
    && Balanced(before) && Balanced(after)
    && after.requests == before.requests + [req] && before.answers <= after.answers
    && after.readBy == before.readBy + [before.next]
    && Legal(s, req, greedy, after.answers[n], s')
    && (req.signature == RUN && HasStream(s') ==> n in after.results && after.results[n] == RowsLeft(s'))
    && after.next == before.next && after.skip == before.skip
  }

  lemma EmptyPacks(signature: byte)
    ensures Packable(EmptyRequest(signature))
  {
  }

  lemma RunPullAnswerable(run: Request, n: int64)
    requires run.signature == RUN
    ensures Answerable([run, PullRequest(n, None)]) == [run, PullRequest(n, None)]
    ensures PullRequest(n, None).signature == PULL
  {
    AnswerableSnoc([], run);
    AnswerableSnoc([run], PullRequest(n, None));
    assert [] + [run] == [run] && [run] + [PullRequest(n, None)] == [run, PullRequest(n, None)];
  }

  /**
   * A statement was opened: RUN's SUCCESS has been consumed, and its PULL is under way with
   * all of the statement's rows still to come.
   */
  ghost predicate Opened(
    before: Net, s: ServerState, run: Request, limit: int64, greedy: bool, after: Net, s': ServerState,
    result: (seq<Text>, Option<int64>))
  {
    var id := |before.requests|;
    && |before.answers| == id && |after.answers| == id + 2
    && after.requests == before.requests + [run, PullRequest(limit, None)]
    && after.next == id + 1 && after.skip == 0
    && id in after.results && Block(after.answers[id]) && Succeeded(after.answers[id])
    && result == (Columns(SummaryOf(after.answers[id]).value.meta), Qid(SummaryOf(after.answers[id]).value.meta))
    && PullUnderWay(after.answers[id + 1], 0, after.results[id], [], InTx(s), s')
    && (Succeeded(after.answers[id + 1]) ==>
      PullServes(|after.results[id]|, limit, greedy, |RowsAhead(after.answers[id + 1], 0)|))
  }

  lemma OpensStatement(
    before: Net, run: Request, limit: int64, states: seq<ServerState>, greedy: bool, wrote: Net, after: Net, meta: Meta)
    requires run.signature == RUN && before.next == |before.answers| == |before.requests| && before.skip == 0
    requires Accepted(before, [run, PullRequest(limit, None)], states, greedy, wrote)
    requires OnlyRead(wrote, after) && Answered(wrote, after, Success(meta))
    requires Position(wrote.answers, wrote.next, wrote.skip)
    ensures |states| == 3
    ensures Opened(before, states[0], run, limit, greedy, after, states[2], (Columns(meta), Qid(meta)))
  {
    hide Decode, PullLimit, Columns, Qid;
    var id := |before.requests|;
    var a := wrote.answers[id];
    BlockBody(a, 0);
    RunOpens(states[0], run, greedy, a, states[1]);
    assert [] + states[1].rows == states[1].rows;
    PullStarts(states[1], limit, None, greedy, wrote.answers[id + 1], states[2], states[1].rows, []);
  }

  /** One request went out and its SUCCESS, and nothing else, came in. */
  ghost predicate Settled(
    before: Net, s: ServerState, req: Request, greedy: bool, after: Net, s': ServerState, meta: Meta)
  {
    var n := |before.requests|;
    && |before.answers| == n && |after.answers| == n + 1
    && after.requests == before.requests + [req]
    && after.next == n + 1 && after.skip == 0
    && Legal(s, req, greedy, after.answers[n], s')
    && SummaryOf(after.answers[n]) == Some(Success(meta))
  }

  /** The summary read in `unread`, perhaps after records, settles the request sent in `wrote`. */
  lemma Settles(
    before: Net, s: ServerState, req: Request, greedy: bool, wrote: Net, unread: Net, after: Net, s': ServerState,
    meta: Meta)
    requires before.next == |before.answers| == |before.requests| && before.skip == 0
    requires Sent(before, s, req, greedy, wrote, s')
    requires OnlyRead(wrote, unread) && unread.next == wrote.next
    requires OnlyRead(unread, after) && Answered(unread, after, Success(meta))
    ensures Settled(before, s, req, greedy, after, s', meta) && Debt(after) == 0
    ensures req.signature == BEGIN ==> s' == TxReady
    ensures req.signature == DISCARD && PullLimit(req) < 0 ==>
      HasStream(s) && !HasMore(meta) && s' == if InTx(s) then TxReady else Ready
    ensures req.signature == ROUTE || req.signature == COMMIT || req.signature == ROLLBACK ==> s' == Ready
    ensures req.signature == COMMIT || req.signature == ROLLBACK ==> InTx(s)
  {
    hide Decode, PullLimit, HasMore;
    BlockBody(wrote.answers[|before.requests|], unread.skip);
  }

  /** A request made since `before` was answered by this FAILURE. */
  ghost predicate Reported(before: Net, after: Net, code: Text, message: Text) {
    exists k ::
      && |before.requests| <= k < |after.answers| && Block(after.answers[k])
      && SummaryOf(after.answers[k]) == Some(Response.Failure(code, message))
  }

  /** A server failure given as an error is one reported since `before`. */
  ghost predicate Blames(before: Net, after: Net, error: Error) {
    error.ServerFailure? ==> Reported(before, after, error.code, error.message)
  }

  lemma BlamesLater(before: Net, between: Net, after: Net, error: Error)
    requires Grows(before, between) && Blames(between, after, error)
    ensures Blames(before, after, error)
  {
  }

  /** The failure just read is that of the answer being read. */
  lemma BlamesRead(before: Net, unread: Net, read: Net, after: Net, code: Text, message: Text)
    requires Answered(unread, read, Response.Failure(code, message)) && OnlyRead(unread, read)
    requires Position(unread.answers, unread.next, unread.skip) && |before.requests| <= unread.next
    requires Grows(read, after)
    ensures Blames(before, after, ServerFailure(code, message))
  {
    hide Decode;
    var k := unread.next;
    BlockBody(unread.answers[k], unread.skip);
    assert after.answers[k] == unread.answers[k];
  }

  /** A statement was run to its end: `columns` and `records` are those of its own RUN and PULL. */
  ghost predicate Collected(
    before: Net, s: ServerState, run: Request, after: Net, s': ServerState, columns: seq<Text>, records: seq<Row>)
  {
    var id := |before.requests|;
    && |before.answers| == id && |after.answers| == id + 2
    && after.requests == before.requests + [run, PullRequest(-1, None)]
    && after.next == id + 2 && after.skip == 0
    && Block(after.answers[id]) && Succeeded(after.answers[id])
    && columns == Columns(SummaryOf(after.answers[id]).value.meta)
    && Block(after.answers[id + 1]) && Succeeded(after.answers[id + 1])
    && !HasMore(SummaryOf(after.answers[id + 1]).value.meta)
    && id in after.results && records == RowsOf(after.answers[id + 1]) == after.results[id]
    && s' == if InTx(s) then TxReady else Ready
  }

  /** The output goes on with the frames of these requests. */
  ghost predicate Wrote(before: seq<byte>, reqs: seq<Request>, after: seq<byte>) {
    exists items :: Outgoing(items, reqs) && after == before + Framing.Wire(items)
  }

  lemma WroteAll(before: seq<byte>, items: seq<Framing.Item>, reqs: seq<Request>)
    requires Outgoing(items, reqs)
    ensures Wrote(before, reqs, before + Framing.Wire(items))
  {
    hide CarriesAll, FullChunks, Framing.Wire;
  }

  /** A request without fields is its signature in a structure of no fields, in one chunk. */
  lemma WroteBare(before: seq<byte>, signature: byte, after: seq<byte>)
    requires Wrote(before, [EmptyRequest(signature)], after)
    ensures after == before + [0x00, 0x02, 0xB0, signature, 0x00, 0x00]
  {
    hide CarriesAll, FullChunks;
    var items :| Outgoing(items, [EmptyRequest(signature)]) && after == before + Framing.Wire(items);
    BareBytes(items, signature);
  }

  /** The bodies that columns and records are read from: a SUCCESS, and a RECORD for each record. */
  ghost predicate Delivered(before: Net, after: Net, columns: seq<Text>, records: seq<Row>) {
    var id := |before.requests|;
    && id + 2 <= |after.answers| && after.answers[id] != [] && |after.answers[id + 1]| == |records| + 1
    && (exists meta :: CarriesMeta(after.answers[id][|after.answers[id]| - 1], meta) && columns == Columns(meta))
    && forall k :: 0 <= k < |records| ==> CarriesRow(after.answers[id + 1][k], records[k])
  }

  lemma CollectedDelivered(
    before: Net, s: ServerState, run: Request, after: Net, s': ServerState, columns: seq<Text>, records: seq<Row>)
    requires Collected(before, s, run, after, s', columns, records)
    ensures Delivered(before, after, columns, records)
  {
    hide Decode, HasMore, Columns, CarriesRow, CarriesMeta, PullRequest;
    var id := |before.requests|;
    var begun, pulled := after.answers[id], after.answers[id + 1];
    CarriesWhat(begun[|begun| - 1]);
    forall k | 0 <= k < |records|
      ensures CarriesRow(pulled[k], records[k])
    {
      CarriesWhat(pulled[k]);
      assert pulled[..|pulled| - 1][k] == pulled[k];
    }
  }

  /** A statement run to its end has ended well. */
  lemma CollectedEnded(
    before: Net, s: ServerState, run: Request, after: Net, s': ServerState, columns: seq<Text>, records: seq<Row>)
    requires Collected(before, s, run, after, s', columns, records) && run.signature == RUN && Balanced(after)
    ensures AllEnded(after, |before.requests|, |after.requests|, false)
  {
    hide Decode, HasMore, Columns;
  }

  /** A write that was cut off adds no request. */
  lemma CleanCut(before: Net, net: Net)
    requires net == before.(output := net.output)
    ensures CleanSends(net, |before.requests|)
  {
  }

  /**
   * Since `start` the client has only read: `got` are the rows it has of those the statement
   * has in `all`, and the answer that is next is the statement's PULL, of which it has as many
   * rows as it has beyond the `base` it started with.
   */
  ghost predicate Pulling(start: Net, base: nat, all: seq<Row>, tx: bool, s': ServerState, net: Net, got: seq<Row>) {
    && OnlyRead(start, net) && net.next == start.next < |net.answers|
    && |got| == base + net.skip && net.skip < |net.answers[net.next]|
    && PullUnderWay(net.answers[net.next], net.skip, all, got, tx, s')
  }

  lemma PullingStart(
    before: Net, s: ServerState, run: Request, limit: int64, greedy: bool, start: Net, s': ServerState,
    result: (seq<Text>, Option<int64>))
    requires Opened(before, s, run, limit, greedy, start, s', result)
    ensures |before.requests| in start.results && start.next == |before.requests| + 1
    ensures Pulling(start, 0, start.results[|before.requests|], InTx(s), s', start, [])
  {
    hide PullRequest, Columns;
  }

  lemma PullingRecord(
    start: Net, base: nat, all: seq<Row>, tx: bool, s': ServerState, net: Net, got: seq<Row>, after: Net, row: Row)
    requires Pulling(start, base, all, tx, s', net, got)
    requires OnlyRead(net, after) && Answered(net, after, Record(row))
    ensures Pulling(start, base, all, tx, s', after, got + [row])
  {
    hide Decode;
    PullRecord(net.answers[net.next], net.skip, all, got, tx, s', row);
  }

  lemma CollectsAll(
    before: Net, s: ServerState, run: Request, greedy: bool, start: Net, s': ServerState,
    result: (seq<Text>, Option<int64>), unread: Net, records: seq<Row>, meta: Meta, after: Net)
    requires Opened(before, s, run, -1, greedy, start, s', result) && |before.requests| in start.results
    requires Pulling(start, 0, start.results[|before.requests|], InTx(s), s', unread, records)
    requires OnlyRead(unread, after) && Answered(unread, after, Success(meta))
    ensures Collected(before, s, run, after, s', result.0, records) && Debt(after) == 0
    ensures s' == if InTx(s) then TxReady else Ready
  {
    hide Decode, PullRequest, Columns;
    var id := |before.requests|;
    var a := start.answers[id + 1];
    PullSummary(a, unread.skip, start.results[id], records, InTx(s), s');
    assert RowsAhead(a, 0) == RowsOf(a);
    assert [] + RowsOf(a) == RowsOf(a);
  }

  /** The last request was answered SUCCESS. */
  ghost predicate LastSucceeded(net: Net) {
    net.answers != [] && Block(net.answers[|net.answers| - 1]) && Succeeded(net.answers[|net.answers| - 1])
  }

  /** Reading since a RESET was sent. */
  lemma ReadsAfter(before: Net, s: ServerState, greedy: bool, sent: Net, s': ServerState)
    requires Grows(before, sent) && Sent(before, s, EmptyRequest(RESET), greedy, sent, s')
    ensures OnlyRead(sent, sent)
    ensures forall after | OnlyRead(sent, after) ::
      && Grows(before, after) && Quiet(before, after)
      && after.requests == before.requests + [EmptyRequest(RESET)] && after.output == sent.output
  {
    hide Legal;
  }

  lemma ReadsOn(sent: Net, unread: Net, after: Net)
    requires OnlyRead(sent, unread)
    ensures OnlyRead(unread, after) ==> OnlyRead(sent, after) && after.requests == sent.requests
  {
  }

  /** A record shortens the answer being read; a summary ends it. */
  lemma Progress(unread: Net, after: Net, response: Response)
    requires OnlyRead(unread, after) && Answered(unread, after, response)
    ensures unread.next < |unread.answers| && unread.skip < |unread.answers[unread.next]|
    ensures response.Record? ==>
      after.next == unread.next && after.answers == unread.answers && after.skip == unread.skip + 1
  {
    hide Decode;
  }

  /** The reply after which nothing is owed is RESET's own: its SUCCESS. */
  lemma ResetReply(
    before: Net, s: ServerState, greedy: bool, sent: Net, s': ServerState, unread: Net, after: Net, response: Response)
    requires Sent(before, s, EmptyRequest(RESET), greedy, sent, s')
    requires OnlyRead(sent, unread) && OnlyRead(unread, after) && Answered(unread, after, response) && Debt(after) == 0
    ensures response.Success? && s' == Ready && LastSucceeded(after)
  {
    hide Decode, Legal;
    LegalBlock(s, EmptyRequest(RESET), greedy, sent.answers[|before.requests|], s');
    BlockBody(sent.answers[|before.requests|], unread.skip);
    ResetAnswer(s, EmptyRequest(RESET), greedy, sent.answers[|before.requests|], s', unread.skip);
  }

  function SaturatingPred(n: nat): nat {
    if n == 0 then 0 else n - 1
  }

  /** `body` was the next one owed. */
  ghost predicate Took(before: Net, after: Net, body: seq<byte>) {
    && before.next < |before.answers| == |before.requests| && before.skip < |before.answers[before.next]|
    && body == before.answers[before.next][before.skip]
    && after == Consume(before, after.items)
  }

  class BoltConnection {
    /** Set while the server may be in a state other than READY. */
    var needsReset: bool
    /** The debt, as the client counts it. */
    var pending: nat
    /** Set once the two byte streams can no longer be trusted. */
    var broken: bool
    /** The part of the reply stream that has been received. */
    var rbuf: seq<byte>
    /** The part of the reply stream that is still under way. */
    var incoming: seq<byte>
    /** The peer's state, which nothing but the peer's own answers depends on. */
    var server: ServerState
    /** Whether the peer serves a PULL as many rows as it may. */
    const greedy: bool
    ghost var net: Net

    /** A session that has just been established: HELLO and LOGON are not part of its history. */
    constructor (greedy: bool)
      ensures Valid() && IsReady() && Idle() && this.greedy == greedy
      ensures rbuf == [] && incoming == [] && net == Net([], [], map[], 0, 0, [], [], [], [], [])
    {
      needsReset, pending, broken := false, 0, false;
      rbuf, incoming, server := [], [], Ready;
      this.greedy := greedy;
      net := Net([], [], map[], 0, 0, [], [], [], [], []);
    }

    /**
     * While the framing holds, the bytes received and under way are exactly the replies
     * owed, `pending` is the exact debt, and the bytes written are exactly the requests.
     */
    ghost predicate Valid()
      reads this
    {
      && Balanced(net)
      && (!broken ==> Synced(net, rbuf + incoming) && pending == Debt(net) && Logged(net))
    }

    /** Nothing owed, nothing to clear up. */
    predicate IsReady()
      reads this
    {
      !broken && !needsReset && pending == 0
    }

    /** Nothing owed, though a RESET may be due. */
    predicate IsReusable()
      reads this
    {
      !broken && pending == 0
    }

    // ---- framing ----

    /** Writes `bytes`; cut off midway, a prefix is on the wire and the connection stays broken. */
    method WriteBytes(bytes: seq<byte>) returns (r: Outcome<()>)
      modifies `broken, `net
      ensures r.Done? ==> !broken && net == old(net).(output := old(net).output + bytes)
      ensures !r.Done? ==> broken && exists k :: Cut(old(net), bytes, k, net)
      ensures r.Fail? ==> !r.error.ServerFailure?
    {
      broken := true;
      if * {
        ghost var k: nat :| k <= |bytes|;
        net := net.(output := net.output + bytes[..k]);
        assert Cut(old(net), bytes, k, net);
        if * {
          return Cancelled;
        }
        return Fail(Io);
      }
      net := net.(output := net.output + bytes);
      broken := false;
      r := Done(());
    }

    /**
     * Receives a non-empty piece of the stream.
     * Cancelled or timed out, nothing changes; a hang-up or a transport error breaks the
     * connection.
     */
    method Fill() returns (r: Outcome<()>)
      modifies `rbuf, `broken, `incoming
      ensures rbuf + incoming == old(rbuf + incoming)
      ensures r.Done? ==> broken == old(broken) && |incoming| < |old(incoming)|
      ensures !r.Done? ==> rbuf == old(rbuf)
      ensures broken == (old(broken) || r == Fail(Closed) || r == Fail(Io))
      ensures r.Fail? ==> !r.error.ServerFailure?
    {
      if * {
        return Cancelled;
      } else if * {
        return Fail(Timeout);
      } else if * {
        broken := true;
        return Fail(Closed);
      } else if * {
        broken := true;
        return Fail(Io);
      }
      if incoming == [] {
        return Cancelled;
      }
      var n: nat :| 0 < n <= |incoming|;
      rbuf, incoming := rbuf + incoming[..n], incoming[n..];
      r := Done(());
    }

    /** Drops leading NOOPs. */
    method SkipNoops()
      modifies `rbuf
      ensures rbuf == old(rbuf)[2 * Framing.Noops(old(rbuf))..]
    {
      var noops := 0;
      assert rbuf[0..] == rbuf;
      while 2 * noops + 2 <= |rbuf| && rbuf[2 * noops] == 0 && rbuf[2 * noops + 1] == 0
        invariant 2 * noops <= |rbuf|
        invariant Framing.Noops(rbuf) == noops + Framing.Noops(rbuf[2 * noops..])
        decreases |rbuf| - noops
      {
        assert rbuf[2 * noops..][2..] == rbuf[2 * (noops + 1)..];
        noops := noops + 1;
      }
      rbuf := rbuf[2 * noops..];
    }

    /** Takes from the received bytes what the specification takes. */
    method TakeMessage() returns (r: Outcome<Option<seq<byte>>>)
      modifies `rbuf, `broken
      ensures rbuf == Framing.TakeMessage(old(rbuf)).1
      ensures match Framing.TakeMessage(old(rbuf)).0
              case Whole(body, _) => r == Done(Some(body)) && broken == old(broken)
              case Partial => r == Done(None) && broken == old(broken)
              case TooLong => r == Fail(Protocol) && broken
    {
      hide Framing.Walk, Framing.WalkedTo, Framing.Header, Framing.Noops;
      SkipNoops();
      var buf := rbuf;

      var pos, total := 0, 0;
      ghost var passed := [];
      Framing.WalkStart(buf);
      while true
        invariant 0 <= pos <= |buf| && total == |passed| <= Framing.MAX_MESSAGE && Framing.WalkedTo(buf, pos, passed)
        invariant rbuf == buf && broken == old(broken)
        decreases |buf| - pos
      {
        Framing.WalkStep(buf, pos, passed);
        if pos + 2 > |buf| {
          return Done(None);
        }
        var size := Framing.Header(buf[pos..]);
        if size == 0 {
          break;
        }
        total := total + size;
        if total > Framing.MAX_MESSAGE {
          broken := true;
          return Fail(Protocol);
        }
        if |buf| < pos + 2 + size {
          return Done(None);
        }
        passed := passed + buf[pos + 2..pos + 2 + size];
        pos := pos + 2 + size;
      }

      assert Framing.Walk(buf, 0) == Framing.Whole(passed, pos + 2);
      var body: seq<byte> := [];
      var at := 0;
      while at < pos
        invariant 0 <= at <= pos && |body| <= Framing.MAX_MESSAGE && Framing.WalkedTo(buf, at, body)
        invariant broken == old(broken)
      {
        Framing.WalkStep(buf, at, body);
        var size := Framing.Header(buf[at..]);
        body := body + buf[at + 2..at + 2 + size];
        at := at + 2 + size;
      }
      Framing.WalkStep(buf, pos, body);
      rbuf := buf[pos + 2..];
      r := Done(Some(body));
    }

    /** The body of the next reply, read until it is all there. */
    method NextBody() returns (r: Outcome<seq<byte>>)
      requires Valid() && !broken
      modifies `rbuf, `broken, `incoming, `net
      ensures !broken ==> Synced(net, rbuf + incoming) && Logged(net)
      ensures r.Done? ==> !broken && Took(old(net), net, r.value)
      ensures !r.Done? && !broken ==> NothingConsumed(old(net), net)
      ensures OnlyRead(old(net), net)
      ensures r.Fail? ==> !r.error.ServerFailure?
    {
      hide Synced, Framing.TakeMessage, Logged;
      LoggedReads(net);
      while true
        invariant !broken && Synced(net, rbuf + incoming) && NothingConsumed(old(net), net)
        decreases |incoming|
      {
        ghost var rest := TakeReply(net, rbuf, incoming);
        var message :- TakeMessage();
        if message.Some? {
          net := Consume(net, rest);
          return Done(message.value);
        }
        net := net.(items := rest);
        var _ :- Fill();
      }
    }

    /**
     * The next reply. Cancelled or timed out while it is still incomplete, nothing is lost;
     * a body past the size limit or undecodable breaks the connection.
     */
    method ReadMessage() returns (r: Outcome<Response>)
      requires Valid()
      modifies `rbuf, `broken, `incoming, `pending, `net
      ensures Valid() && OnlyRead(old(net), net) && Grows(old(net), net) && Quiet(old(net), net)
      ensures old(broken) ==> r == Fail(Closed) && broken && rbuf == old(rbuf) && net == old(net)
      ensures r.Done? ==> !broken && Answered(old(net), net, r.value)
      ensures r.Done? ==> old(pending) > 0 && pending == old(pending) - if r.value.Record? then 0 else 1
      ensures !r.Done? && !broken ==> NothingConsumed(old(net), net) && pending == old(pending)
      ensures r.Fail? ==> !r.error.ServerFailure?
    {
      hide Synced, Logged, Decode, Grows, Quiet;
      OnlyReadQuiet(net);
      if broken {
        return Fail(Closed);
      }
      var body :- NextBody();
      var response := DecodeBody(body);
      if response.None? {
        broken := true;
        return Fail(Protocol);
      }
      if !response.value.Record? {
        assert pending > 0;
        pending := SaturatingPred(pending);
      }
      r := Done(response.value);
    }

    /** The peer answers a request that is complete on the wire, its `reqs`-th since `before`. */
    method BeAnswered(req: Request, ghost before: Net, ghost reqs: seq<Request>, ghost states: seq<ServerState>)
      requires Synced(net, rbuf + incoming)
      requires Accepted(before, reqs, states, greedy, net) && states != [] && states[|states| - 1] == server
      modifies `incoming, `server, `net
      ensures Synced(net, rbuf + incoming) && Debt(net) == Debt(old(net)) + 1
      ensures Accepted(before, reqs + [req], states + [server], greedy, net)
      ensures Replied(old(net), [req], net)
    {
      hide Synced, Legal, Delivers, Accepted;
      var a, s', replies := AnswerAny(server, req, greedy);
      LegalBlock(server, req, greedy, a, s');
      ReceiveSynced(net, rbuf + incoming, req, a, s', replies);
      AcceptedOne(before, reqs, states, greedy, net, req, a, s', replies);
      Assoc(rbuf, incoming, Framing.Wire(replies));
      net := Receive(net, req, a, s', replies);
      incoming := incoming + Framing.Wire(replies);
      server := s';
    }

    /**
     * Sends the frames of all requests in a single write. Nothing is counted or
     * answered unless all of it was written.
     */
    method WriteMessages(reqs: seq<Request>) returns (r: Outcome<()>, ghost states: seq<ServerState>)
      requires Valid()
      modifies `broken, `incoming, `server, `pending, `net
      ensures Valid() && Grows(old(net), net) && net.next == old(net).next && net.skip == old(net).skip
      ensures (forall i :: 0 <= i < |Answerable(reqs)| ==> !Statement(Answerable(reqs)[i])) ==> Quiet(old(net), net)
      ensures old(broken) ==> r == Fail(Closed) && broken && net == old(net)
      ensures r.Done? ==>
        && !broken && states != [] && states[0] == old(server) && states[|states| - 1] == server
        && Accepted(old(net), Answerable(reqs), states, greedy, net)
        && net.written == old(net).written + reqs && Wrote(old(net).output, reqs, net.output)
      ensures !r.Done? && !broken ==> net == old(net) && server == old(server) && pending == old(pending)
      ensures !r.Done? ==> net == old(net).(output := net.output)
      ensures r.Fail? ==> !r.error.ServerFailure?
      ensures (forall i :: 0 <= i < |reqs| ==> Packable(reqs[i])) ==> r.Done? || broken
    {
      hide Synced, Logged, Outgoing, Wrote, Legal, Delivers, Framing.Wire, Accepted;
      states := [server];
      if broken {
        return Fail(Closed), states;
      }
      ghost var items;
      var encoded;
      encoded, items := EncodeAll(reqs);
      if encoded.None? {
        return Fail(Protocol), states;
      }
      var wrote := WriteBytes(encoded.value);
      if !wrote.Done? {
        return wrote, states;
      }
      ghost var wrote0 := Write(old(net), encoded.value, items, reqs);
      net := wrote0;
      WriteSynced(old(net), rbuf + incoming, encoded.value, items, reqs, server, greedy);
      for i := 0 to |reqs|
        invariant !broken && Synced(net, rbuf + incoming) && pending == Debt(net)
        invariant states != [] && states[0] == old(server) && states[|states| - 1] == server
        invariant Accepted(old(net), Answerable(reqs[..i]), states, greedy, net)
        invariant Replied(wrote0, Answerable(reqs[..i]), net)
      {
        assert reqs[..i + 1] == reqs[..i] + [reqs[i]];
        AnswerableSnoc(reqs[..i], reqs[i]);
        if reqs[i].signature != GOODBYE {
          BeAnswered(reqs[i], old(net), Answerable(reqs[..i]), states);
          states := states + [server];
          pending := pending + 1;
        }
      }
      assert reqs[..|reqs|] == reqs;
      LoggedAppend(old(net), net, items, reqs);
      WroteAll(old(net).output, items, reqs);
      AcceptedGrows(old(net), Answerable(reqs), states, greedy, net);
      r := Done(());
    }

    // ---- the session ----

    /** A session that looks ready is: the server is READY. */
    ghost predicate Idle()
      reads this
    {
      IsReady() ==> server == Ready
    }

    method WriteMessage(req: Request) returns (r: Outcome<()>)
      requires Valid() && req.signature != GOODBYE
      modifies `broken, `incoming, `server, `pending, `net
      ensures Valid() && Grows(old(net), net) && net.next == old(net).next && net.skip == old(net).skip
      ensures !Statement(req) ==> Quiet(old(net), net)
      ensures old(broken) ==> r == Fail(Closed) && broken && net == old(net)
      ensures r.Done? ==> !broken && Sent(old(net), old(server), req, greedy, net, server)
      ensures r.Done? ==> Wrote(old(net).output, [req], net.output)
      ensures !r.Done? && !broken ==> net == old(net) && server == old(server) && pending == old(pending)
      ensures !r.Done? ==> net == old(net).(output := net.output)
      ensures r.Fail? ==> !r.error.ServerFailure?
      ensures Packable(req) ==> r.Done? || broken
    {
      hide Synced, Logged, Legal, Packable, Wrote, Grows, Quiet, Statement;
      ghost var states;
      r, states := WriteMessages([req]);
      AnswerableSnoc([], req);
      assert [] + [req] == [req];
    }

    /**
     * Sends RESET and awaits its SUCCESS, draining what is still owed to earlier requests
     * first: every owed summary and its records, then RESET's own reply, and nothing else.
     */
    method Reset() returns (r: Outcome<()>)
      requires Valid()
      modifies `needsReset, `pending, `broken, `rbuf, `incoming, `server, `net
      ensures Valid() && Grows(old(net), net) && Quiet(old(net), net)
      ensures old(broken) ==> r == Fail(Closed) && broken && net == old(net)
      ensures r.Done? ==> IsReady() && server == Ready && Debt(net) == 0
      ensures net.requests == old(net).requests
        + (if |net.requests| == |old(net).requests| then [] else [EmptyRequest(RESET)])
      ensures r.Done? ==> |net.requests| == |old(net).requests| + 1 && LastSucceeded(net)
      ensures r.Done? ==> net.output == old(net).output + [0x00, 0x02, 0xB0, 0x0F, 0x00, 0x00]
      ensures !r.Done? ==> needsReset == old(needsReset) && (broken || pending > 0)
      ensures r.Fail? ==> !r.error.ServerFailure?
    {
      hide Synced, Logged, Legal, Packable, Grows, Quiet, Sent, Answered, OnlyRead, NothingConsumed, LastSucceeded,
        Wrote;
      EmptyPacks(RESET);
      ghost var before, s := net, server;
      var _ :- WriteMessage(EmptyRequest(RESET));
      ghost var sent, s' := net, server;
      WroteBare(before.output, RESET, sent.output);
      ReadsAfter(before, s, greedy, sent, s');
      while true
        invariant Valid() && !broken && pending > 0 && OnlyRead(sent, net)
        invariant needsReset == old(needsReset) && server == s'
        decreases pending, if net.next < |net.answers| then |net.answers[net.next]| - net.skip else 0
      {
        ghost var unread := net;
        var reply := ReadMessage();
        ReadsOn(sent, unread, net);
        var response :- reply;
        Progress(unread, net, response);
        if pending > 0 {
          continue;
        }
        ResetReply(before, s, greedy, sent, s', unread, net, response);
        match response {
          case Success(_) =>
            needsReset := false;
            return Done(());
          case Failure(code, message) => return Fail(ServerFailure(code, message));
          case _ => return Fail(Protocol);
        }
      }
    }

    /** Makes the session READY with nothing owed, by a RESET only if it may not be. */
    method EnsureClean() returns (r: Outcome<()>)
      requires Valid() && Idle()
      modifies this
      ensures Valid() && Idle() && Grows(old(net), net) && Quiet(old(net), net)
      ensures r.Done? ==> IsReady() && server == Ready && Debt(net) == 0
      ensures r.Fail? ==> !r.error.ServerFailure?
      ensures old(IsReady()) ==> r.Done? && net == old(net)
      ensures old(broken) ==> r == Fail(Closed) && broken && net == old(net)
    {
      hide Synced, Logged;
      if broken {
        return Fail(Closed);
      }
      if needsReset || pending > 0 {
        var _ :- Reset();
      }
      r := Done(());
    }

    /** Leaves the post-FAILURE state, whether or not that works, and surfaces the error. */
    method FailReset(code: Text, message: Text) returns (error: Outcome<()>)
      requires Valid()
      modifies this
      ensures Valid() && Grows(old(net), net) && Quiet(old(net), net) && !error.Done?
      ensures IsReady() ==> |net.requests| == |old(net).requests| + 1 && LastSucceeded(net)
      ensures net.requests == old(net).requests
        + (if |net.requests| == |old(net).requests| then [] else [EmptyRequest(RESET)])
      ensures error == Cancelled || error == Fail(ServerFailure(code, message))
      ensures broken || pending > 0 || (IsReady() && server == Ready)
      ensures !IsReady() ==> needsReset == old(needsReset)
      ensures error.Cancelled? ==> !IsReady()
      ensures IsReady() ==> server == Ready && Debt(net) == 0
    {
      hide Synced, Logged;
      var reset := Reset();
      error := if reset.Cancelled? then Cancelled else Fail(ServerFailure(code, message));
    }

    /**
     * Sends RUN and a PULL together and awaits RUN's SUCCESS; the PULL's replies are left
     * for the caller.
     */
    method SendRunPull(run: Request, n: int64) returns (r: Outcome<(seq<Text>, Option<int64>)>)
      requires Valid() && run.signature == RUN
      requires !broken ==> needsReset && pending == 0 && (server == Ready || server == TxReady)
      modifies this
      ensures Valid() && Grows(old(net), net) && CleanSends(net, |old(net).requests|)
      ensures r.Done? ==> !broken && needsReset && Opened(old(net), old(server), run, n, greedy, net, server, r.value)
      ensures !r.Done? ==> Idle() && (r.Fail? ==> Blames(old(net), net, r.error))
      ensures r.Cancelled? ==> broken || needsReset
      ensures old(broken) ==> r == Fail(Closed) && broken && net == old(net)
    {
      hide Synced, Logged, Legal, Accepted, Grows, Quiet, CleanSends, Answered, Opened, PullRequest, Columns, Qid,
        Reported, Wrote;
      ghost var before := net;
      if !broken {
        CaughtUp(net, rbuf + incoming);
      }
      CleanNone(net);
      RunPullAnswerable(run, n);
      ghost var states;
      var sent;
      sent, states := WriteMessages([run, PullRequest(n, None)]);
      if !sent.Done? {
        CleanCut(before, net);
        return sent.PropagateFailure();
      }
      ghost var wrote := net;
      CleanRunPull(before, run, PullRequest(n, None), states, greedy, wrote);
      Positioned(net, rbuf + incoming);
      var reply := ReadMessage();
      GrowsTransitive(before, wrote, net);
      CleanQuiet(wrote, net, |before.requests|);
      if !reply.Done? {
        return reply.PropagateFailure();
      }
      match reply.value {
        case Success(meta) =>
          OpensStatement(before, run, n, states, greedy, wrote, net, meta);
          r := Done((Columns(meta), Qid(meta)));
        case Failure(code, message) =>
          ghost var read := net;
          var failed := FailReset(code, message);
          GrowsTransitive(before, read, net);
          CleanQuiet(read, net, |before.requests|);
          r := failed.PropagateFailure();
          BlamesRead(before, wrote, read, net, code, message);
        case _ => r := Fail(Protocol);
      }
    }

    /** RUN and PULL of all rows, pipelined, collecting the records; no state checks. */
    method RunInner(run: Request) returns (r: Outcome<(seq<Text>, seq<Row>)>)
      requires Valid() && run.signature == RUN
      requires !broken ==> needsReset && pending == 0 && (server == Ready || server == TxReady)
      modifies this
      ensures Valid() && Grows(old(net), net) && CleanSends(net, |old(net).requests|)
      ensures r.Done? ==> AllEnded(net, |old(net).requests|, |net.requests|, false)
      ensures r.Done? ==> !broken && needsReset && pending == 0
      ensures r.Done? ==> server == if InTx(old(server)) then TxReady else Ready
      ensures r.Done? ==> Collected(old(net), old(server), run, net, server, r.value.0, r.value.1)
      ensures !r.Done? ==> Idle() && (r.Fail? ==> Blames(old(net), net, r.error))
      ensures r.Cancelled? ==> broken || needsReset
      ensures old(broken) ==> r == Fail(Closed) && broken && net == old(net)
    {
      hide Synced, Logged, Opened, Collected, Grows, Quiet, CleanSends, AllEnded, PullUnderWay, Reported, Answered;
      ghost var before, s := net, server;
      var opening :- SendRunPull(run, -1);
      ghost var begun, s' := net, server;
      PullingStart(before, s, run, -1, greedy, begun, s', opening);
      ghost var all := begun.results[|before.requests|];
      var records := [];
      while true
        invariant Valid() && !broken && needsReset && server == s'
        invariant Grows(before, net) && CleanSends(net, |before.requests|)
        invariant Pulling(begun, 0, all, InTx(s), s', net, records)
        decreases if net.next < |net.answers| then |net.answers[net.next]| - net.skip else 0
      {
        ghost var unread := net;
        Positioned(net, rbuf + incoming);
        var reply := ReadMessage();
        GrowsTransitive(before, unread, net);
        CleanQuiet(unread, net, |before.requests|);
        if !reply.Done? {
          return reply.PropagateFailure();
        }
        match reply.value {
          case Record(values) =>
            PullingRecord(begun, 0, all, InTx(s), s', unread, records, net, values);
            records := records + [values];
          case Success(meta) =>
            CollectsAll(before, s, run, greedy, begun, s', opening, unread, records, meta, net);
            CollectedEnded(before, s, run, net, s', opening.0, records);
            return Done((opening.0, records));
          case Failure(code, message) =>
            ghost var read := net;
            var failed := FailReset(code, message);
            GrowsTransitive(before, read, net);
            CleanQuiet(read, net, |before.requests|);
            r := failed.PropagateFailure();
            BlamesRead(before, unread, read, net, code, message);
            return;
          case Ignored => return Fail(Protocol);
        }
      }
    }

    /** Runs an auto-commit statement and collects its records. */
    method RunWith(query: Text, parameters: Meta, extra: Meta) returns (r: Outcome<(seq<Text>, seq<Row>)>)
      requires Valid() && Idle()
      modifies this
      ensures Valid() && Idle() && Grows(old(net), net) && Prompt(net, |old(net).requests|)
      ensures r.Done? ==> IsReady() && exists before ::
        && Grows(old(net), before) && Grows(before, net)
        && Collected(before, Ready, RunRequest(query, parameters, extra), net, Ready, r.value.0, r.value.1)
        && Delivered(before, net, r.value.0, r.value.1)
      ensures r.Fail? ==> Blames(old(net), net, r.error)
      ensures old(broken) ==> r == Fail(Closed) && broken && net == old(net)
    {
      hide Synced, Logged, Collected, Delivered, Grows, Quiet, CleanSends, AllEnded, Prompt, Reported;
      var clean := EnsureClean();
      QuietIsPrompt(old(net), net);
      if !clean.Done? {
        return clean.PropagateFailure();
      }
      needsReset := true;
      ghost var before := net;
      r := RunInner(RunRequest(query, parameters, extra));
      GrowsTransitive(old(net), before, net);
      CleanIsPrompt(net, |before.requests|);
      PromptThen(before, net, |old(net).requests|);
      if r.Fail? {
        BlamesLater(old(net), before, net, r.error);
      }
      if r.Done? {
        CollectedDelivered(
          before, Ready, RunRequest(query, parameters, extra), net, server, r.value.0, r.value.1);
        needsReset := false;
      }
    }

    /** Fetches the routing table's metadata. */
    method Route(context: Meta, extra: Meta) returns (r: Outcome<Meta>)
      requires Valid() && Idle()
      modifies this
      ensures Valid() && Idle() && Quiet(old(net), net)
      ensures r.Done? ==> IsReady() && exists before ::
        && Quiet(old(net), before) && Quiet(before, net)
        && Settled(before, Ready, RouteRequest(context, extra), greedy, net, Ready, r.value)
      ensures r.Fail? ==> Blames(old(net), net, r.error)
      ensures old(broken) ==> r == Fail(Closed) && broken && net == old(net)
    {
      hide Synced, Logged, Grows, Quiet, Settled, Reported;
      var _ :- EnsureClean();
      needsReset := true;
      ghost var before := net;
      r := AskRoute(RouteRequest(context, extra));
      QuietTransitive(old(net), before, net);
      if r.Done? {
        needsReset := false;
      } else if r.Fail? {
        BlamesLater(old(net), before, net, r.error);
      }
    }

    /** Sends a ROUTE on a clean session and awaits its reply. */
    method AskRoute(req: Request) returns (r: Outcome<Meta>)
      requires Valid() && !broken && needsReset && pending == 0 && server == Ready && req.signature == ROUTE
      modifies this
      ensures Valid() && Quiet(old(net), net) && (!r.Done? ==> Idle())
      ensures r.Done? ==> !broken && pending == 0 && server == Ready
      ensures r.Done? ==> Settled(old(net), Ready, req, greedy, net, Ready, r.value)
      ensures r.Fail? ==> Blames(old(net), net, r.error)
    {
      hide Synced, Logged, Grows, Quiet, Answered, Settled, Sent, Reported, Legal, LastSucceeded, Packable, Wrote;
      ghost var before := net;
      CaughtUp(net, rbuf + incoming);
      var _ :- WriteMessage(req);
      ghost var wrote := net;
      Positioned(net, rbuf + incoming);
      var reply := ReadMessage();
      QuietTransitive(before, wrote, net);
      var response :- reply;
      match response {
        case Success(meta) =>
          Settles(before, Ready, req, greedy, wrote, wrote, net, server, meta);
          r := Done(meta);
        case Failure(code, message) =>
          ghost var read := net;
          var failed := FailReset(code, message);
          QuietTransitive(before, read, net);
          r := failed.PropagateFailure();
          BlamesRead(before, wrote, read, net, code, message);
        case _ => r := Fail(Protocol);
      }
    }

    /** Says GOODBYE, which is not answered, unless broken; then closes the socket. */
    method Close() returns (r: Outcome<()>)
      requires Valid()
      modifies this
      ensures Valid() && net.requests == old(net).requests && (old(broken) ==> net == old(net))
      ensures !broken ==> pending == old(pending)
      ensures broken || net.written == old(net).written + [EmptyRequest(GOODBYE)]
      ensures broken || net.output == old(net).output + [0x00, 0x02, 0xB0, 0x02, 0x00, 0x00]
    {
      hide Synced, Logged, Legal, Grows, Packable, Wrote;
      if !broken {
        EmptyPacks(GOODBYE);
        ghost var states;
        var sent;
        sent, states := WriteMessages([EmptyRequest(GOODBYE)]);
        AnswerableSnoc([], EmptyRequest(GOODBYE));
        assert [] + [EmptyRequest(GOODBYE)] == [EmptyRequest(GOODBYE)];
        if !sent.Done? {
          return sent;
        }
        WroteBare(old(net).output, GOODBYE, net.output);
      }
      if * {
        return Fail(Io);
      } else if * {
        return Cancelled;
      }
      r := Done(());
    }
  }
}
