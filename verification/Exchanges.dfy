/** Possible exchanges in which a transaction or a stream is not what its user takes it for. */
module Exchanges {
  import opened Bytes
  import opened Values
  import opened PackStream
  import opened Framing
  import opened Message
  import opened Peer
  import opened Wire
  import opened Connection
  import opened Streams
  import opened Transactions

  // ---- replies without fields ----

  const OK: seq<byte> := [0xB0, SUCCESS]
  const NO: seq<byte> := [0xB0, FAILURE]

  lemma Bare(signature: byte)
    ensures Decode([0xB0, signature]) == FromStructure(signature, [])
  {
    var body: seq<byte> := [0xB0, signature];
    assert ParseHead(body) == Ok((Sized(KStruct, 0), 1));
    var rest := body[1..];
    assert rest == [signature] && rest[0..1] == [signature];
    assert ParseAll(rest[1..], 0) == Ok(([], 0));
    assert ParseRest(Sized(KStruct, 0), rest) == Ok((StructureOf(signature, []), 1));
    assert Parse(body) == Ok((StructureOf(signature, []), 2));
    assert Unpack(body) == Ok((Structure(signature, []), 2));
  }

  /** An answer that is one summary. */
  lemma Alone(body: seq<byte>)
    requires body != [] && Decode(body).Some? && !Decode(body).value.Record?
    ensures Block([body]) && RowsOf([body]) == [] && SummaryOf([body]) == Decode(body)
  {
    hide Decode;
    assert [body][..0] == [] && Records([body][..0]);
  }

  const SUCCEEDED := Success(map[])
  const FAILED := Response.Failure(UNKNOWN_CODE, NO_MESSAGE)

  lemma BareReplies()
    ensures Decode(OK) == Some(SUCCEEDED) && Decode(NO) == Some(FAILED)
    ensures Block([OK]) && RowsOf([OK]) == [] && SummaryOf([OK]) == Some(SUCCEEDED)
    ensures Block([NO]) && RowsOf([NO]) == [] && SummaryOf([NO]) == Some(FAILED)
  {
    Bare(SUCCESS);
    Bare(FAILURE);
    hide Decode;
    Alone(OK);
    Alone(NO);
  }

  // ---- one step of an exchange ----

  ghost predicate InSync(net: Net) {
    ValidItems(net.items) && Synced(net, Framing.Wire(net.items))
  }

  /** The peer answers a request with one body, in one chunk. */
  function Answered1(net: Net, req: Request, body: seq<byte>, s': ServerState): Net {
    Receive(net, req, [body], s', [Framing.Message([body])])
  }

  /** The client takes the next message. */
  function Read1(net: Net): Net
    requires net.items != [] && net.next < |net.answers| && net.skip < |net.answers[net.next]|
  {
    Consume(net, net.items[1..])
  }

  lemma ReceiveStep(net: Net, req: Request, a: Answer, s': ServerState, items: seq<Item>)
    requires InSync(net) && Block(a) && Delivers(items, a)
    ensures InSync(Receive(net, req, a, s', items))
  {
    hide Block, Synced;
    ReceiveSynced(net, Framing.Wire(net.items), req, a, s', items);
    WireConcat(net.items, items);
  }

  lemma AnswerStep(net: Net, req: Request, body: seq<byte>, s': ServerState)
    requires InSync(net) && Block([body]) && 0 < |body| <= MAX_CHUNK
    ensures var after := Answered1(net, req, body, s');
      && InSync(after) && Debt(after) == Debt(net) + 1 && after.next == net.next && after.skip == net.skip
      && after.items == net.items + [Framing.Message([body])] && after.answers == net.answers + [[body]]
      && after.requests == net.requests + [req] && after.results ==
        if req.signature == RUN && HasStream(s') then net.results[|net.requests| := RowsLeft(s')] else net.results
  {
    hide Block, InSync, Delivers;
    OneBody(body);
    ReceiveStep(net, req, [body], s', [Framing.Message([body])]);
  }

  lemma OneBody(body: seq<byte>)
    requires 0 < |body| <= MAX_CHUNK
    ensures Delivers([Framing.Message([body])], [body])
  {
    var chunks := [body];
    assert chunks[1..] == [] && Concat(chunks) == body;
    var items := [Framing.Message(chunks)];
    assert items[1..] == [] && Bodies(items) == [Concat(chunks)];
  }

  lemma ReadStep(net: Net, body: seq<byte>, response: Response)
    requires InSync(net) && net.items != [] && net.items[0] == Framing.Message([body]) && body != []
    requires Decode(body) == Some(response)
    ensures net.next < |net.answers| && net.skip < |net.answers[net.next]|
    ensures var after := Read1(net);
      && InSync(after) && Debt(after) == Debt(net) - (if response.Record? then 0 else 1)
      && after.items == net.items[1..] && after.answers == net.answers && after.requests == net.requests
      && after.results == net.results
      && Answered(net, after, response) && OnlyRead(net, after)
  {
    var items := net.items;
    assert Concat([body]) == body by {
      assert [body][1..] == [];
    }
    assert ItemBodies(items[0]) == [body];
    assert Bodies(items) == [body] + Bodies(items[1..]);
    assert ValidItems(items[1..]);
    hide Decode, Synced, Bodies, Framing.Wire;
    ConsumeSynced(net, Framing.Wire(items), body, items[1..], Framing.Wire(items[1..]));
  }

  // ---- a ROLLBACK that takes another's reply ----

  lemma BareLegal(a: Answer, s: ServerState, req: Request, s': ServerState)
    requires Block(a) && RowsOf(a) == [] && SummaryOf(a) == Some(SUCCEEDED)
    requires if req.signature == RESET then s' == Ready else Succeeds(s, req, true, 0, map[], s')
    ensures Legal(s, req, true, a, s')
  {
    hide Decode, Succeeds, PullLimit, Block, RowsOf, SummaryOf;
  }

  lemma BarePull(req: Request)
    requires req.signature == PULL && PullLimit(req) == -1
    ensures Succeeds(TxStreaming([]), req, true, 0, map[], TxReady)
  {
    hide PullLimit;
  }

  lemma BareFailure(a: Answer, s: ServerState, req: Request)
    requires Block(a) && RowsOf(a) == [] && SummaryOf(a) == Some(FAILED) && req.signature != RESET && !s.Failed?
    ensures Legal(s, req, true, a, Failed)
  {
    hide Decode, PullLimit, Block, RowsOf, SummaryOf;
  }

  /**
   * In a transaction on which nothing is owed, a RUN and its PULL are sent, the statement is
   * cancelled, and a ROLLBACK follows. All three are answered SUCCESS in turn. The reply that
   * is read next is RUN's; ROLLBACK's own is still owed.
   */
  lemma RollbackTakesStaleReply(start: Net, run: Request) returns (unread: Net)
    requires InSync(start) && start.items == [] && Debt(start) == 0 && run.signature == RUN
    ensures Legal(TxReady, run, true, [OK], TxStreaming([]))
    ensures Legal(TxStreaming([]), PullRequest(-1, None), true, [OK], TxReady)
    ensures Legal(TxReady, EmptyRequest(ROLLBACK), true, [OK], Ready)
    ensures var n1 := Answered1(start, run, OK, TxStreaming([]));
            var n2 := Answered1(n1, PullRequest(-1, None), OK, TxReady);
            unread == Answered1(n2, EmptyRequest(ROLLBACK), OK, Ready)
    ensures InSync(unread) && unread.items != []
    ensures unread.next == |start.requests| < |unread.answers| && unread.skip < |unread.answers[unread.next]|
    ensures Answered(unread, Read1(unread), SUCCEEDED) && Debt(Read1(unread)) == 2
  {
    hide Decode, Block, Legal, PullRequest, PullLimit, RowsOf, SummaryOf, Answered, InSync, OnlyRead, Answered1, Read1,
      Utf8, Utf8Step;
    TransactionReplies(run);
    BareReplies();
    BareLegal([OK], TxReady, EmptyRequest(ROLLBACK), Ready);
    var n1 := Answered1(start, run, OK, TxStreaming([]));
    AnswerStep(start, run, OK, TxStreaming([]));
    var n2 := Answered1(n1, PullRequest(-1, None), OK, TxReady);
    AnswerStep(n1, PullRequest(-1, None), OK, TxReady);
    unread := Answered1(n2, EmptyRequest(ROLLBACK), OK, Ready);
    AnswerStep(n2, EmptyRequest(ROLLBACK), OK, Ready);
    ReadStep(unread, OK, SUCCEEDED);
  }

  lemma TransactionReplies(run: Request)
    requires run.signature == RUN
    ensures Legal(TxReady, run, true, [OK], TxStreaming([]))
    ensures Legal(TxStreaming([]), PullRequest(-1, None), true, [OK], TxReady)
    ensures Legal(TxStreaming([]), PullRequest(-1, None), true, [NO], Failed)
  {
    hide Decode, Block, Legal, PullRequest, PullLimit, RowsOf, SummaryOf;
    BareReplies();
    PullLimitIs(-1, None);
    PullPacks(-1, None);
    BarePull(PullRequest(-1, None));
    BareLegal([OK], TxReady, run, TxStreaming([]));
    BareLegal([OK], TxStreaming([]), PullRequest(-1, None), TxReady);
    BareFailure([NO], TxStreaming([]), PullRequest(-1, None));
  }

  // ---- a stream whose failure ends the transaction unnoticed ----

  /** What is exchanged when a stream's first PULL fails and the session is RESET. */
  datatype Escape = Escape(sent: Net, began: Net, failed: Net, resetting: Net, reset: Net)

  /**
   * In a transaction on which nothing is owed, a stream is opened: RUN succeeds and its PULL
   * fails. The client reads both replies, sends RESET and reads its SUCCESS. Nothing is owed
   * then, the server is READY, and the next RUN does not open a stream in a transaction.
   */
  lemma FailureEscapes(start: Net, run: Request) returns (e: Escape)
    requires InSync(start) && start.items == [] && Debt(start) == 0 && run.signature == RUN
    ensures Legal(TxReady, run, true, [OK], TxStreaming([]))
    ensures Legal(TxStreaming([]), PullRequest(-1, None), true, [NO], Failed)
    ensures Legal(Failed, EmptyRequest(RESET), true, [OK], Ready)
    ensures e.sent == Answered1(Answered1(start, run, OK, TxStreaming([])), PullRequest(-1, None), NO, Failed)
    ensures Answered(e.sent, e.began, SUCCEEDED) && OnlyRead(e.sent, e.began)
    ensures Answered(e.began, e.failed, FAILED) && OnlyRead(e.began, e.failed)
    ensures e.resetting == Answered1(e.failed, EmptyRequest(RESET), OK, Ready)
    ensures Answered(e.resetting, e.reset, SUCCEEDED) && OnlyRead(e.resetting, e.reset)
    ensures InSync(e.reset) && e.reset.items == [] && Debt(e.reset) == 0
    ensures e.reset.requests == start.requests + [run, PullRequest(-1, None), EmptyRequest(RESET)]
    ensures e.reset.answers == start.answers + [[OK], [NO], [OK]]
    ensures forall greedy, a, s' :: Legal(Ready, run, greedy, a, s') ==> !InTx(s')
  {
    hide Decode, Block, Legal, PullRequest, PullLimit, RowsOf, SummaryOf, Answered, InSync, OnlyRead, Answered1, Read1,
      Utf8, Utf8Step;
    RunOutside(run);
    TransactionReplies(run);
    BareReplies();
    BareLegal([OK], Failed, EmptyRequest(RESET), Ready);
    var n1 := Answered1(start, run, OK, TxStreaming([]));
    AnswerStep(start, run, OK, TxStreaming([]));
    var sent := Answered1(n1, PullRequest(-1, None), NO, Failed);
    AnswerStep(n1, PullRequest(-1, None), NO, Failed);
    ReadStep(sent, OK, SUCCEEDED);
    var began := Read1(sent);
    ReadStep(began, NO, FAILED);
    var failed := Read1(began);
    var resetting := Answered1(failed, EmptyRequest(RESET), OK, Ready);
    AnswerStep(failed, EmptyRequest(RESET), OK, Ready);
    ReadStep(resetting, OK, SUCCEEDED);
    e := Escape(sent, began, failed, resetting, Read1(resetting));
  }

  lemma RunOutside(run: Request)
    requires run.signature == RUN
    ensures forall greedy, a, s' :: Legal(Ready, run, greedy, a, s') ==> !InTx(s')
  {
    hide Block, RowsOf, SummaryOf, PullLimit;
  }

  /**
   * A statement is streamed in a transaction, in any number of calls ending anyhow, and dropped,
   * and another is run. What runs then runs outside the transaction exactly if a call of the
   * stream gave a server failure and the session looked ready after it.
   */
  method StreamThenRun(tx: Transaction, query: Text, parameters: Meta, batch: int64, next: Text, patience: nat)
    returns (escaped: bool, r: Outcome<(seq<Text>, seq<Row>)>)
    requires tx.Valid() && !tx.Dead() && tx.conn.server == TxReady
    modifies tx, tx.conn
    ensures tx.Valid() && Grows(old(tx.conn.net), tx.conn.net)
    ensures r.Done? ==> exists before, columns, rows ::
      && Grows(old(tx.conn.net), before) && r.value == (columns, rows)
      && Collected(before, if escaped then Ready else TxReady, RunRequest(next, parameters, map[]),
                   tx.conn.net, if escaped then Ready else TxReady, columns, rows)
  {
    hide Synced, Logged, Grows, Quiet, CleanSends, AllEnded, Tracks, Started, Refused, Concludes, Reported, Collected,
      Opened;
    ghost var was := tx.conn.net;
    escaped := StreamAndDrop(tx, query, parameters, batch, patience);
    ghost var before := tx.conn.net;
    r := tx.Run(next, parameters);
    GrowsTransitive(was, before, tx.conn.net);
  }

  /** Leaves the transaction usable outside itself exactly if `escaped`. */
  method StreamAndDrop(tx: Transaction, query: Text, parameters: Meta, batch: int64, patience: nat)
    returns (escaped: bool)
    requires tx.Valid() && !tx.Dead() && tx.conn.server == TxReady
    modifies tx, tx.conn
    ensures tx.Valid() && Grows(old(tx.conn.net), tx.conn.net)
    ensures escaped ==> !tx.Dead()
    ensures !tx.Dead() ==> tx.conn.server == if escaped then Ready else TxReady
  {
    hide Synced, Logged, Grows, Quiet, CleanSends, AllEnded, Tracks, Started, Refused, Concludes, Reported, Opened;
    ghost var was := tx.conn.net;
    var opening := tx.RunStream(query, parameters, batch);
    if !opening.Done? {
      return false;
    }
    ghost var open := tx.conn.net;
    GrowsSelf(open);
    var stream := opening.value;
    var failure := false;
    for _ := 0 to patience
      invariant stream.Valid() && failure == stream.reported && Quiet(open, tx.conn.net)
      invariant !tx.done && !tx.spoiled
    {
      ghost var before := tx.conn.net;
      var reply := stream.Next();
      failure := failure || (reply.Fail? && reply.error.ServerFailure?);
      QuietTransitive(open, before, tx.conn.net);
    }
    stream.Standing();
    stream.Drop();
    escaped := failure && tx.conn.IsReady();
    tx.AfterStream(stream);
    QuietGrows(open, tx.conn.net);
    GrowsTransitive(was, open, tx.conn.net);
  }

  /**
   * What the client may hold after that exchange: a transaction that is not done, on a connection
   * that needs no RESET, so that it may be used, while the server is READY outside it.
   */
  method EscapedTransaction(run: Request) returns (tx: Transaction)
    requires run.signature == RUN && Packable(run)
    ensures fresh(tx) && fresh(tx.conn) && tx.Valid() && !tx.done && !tx.conn.needsReset && !tx.Dead()
    ensures tx.conn.net.requests == [run, PullRequest(-1, None), EmptyRequest(RESET)]
    ensures tx.conn.net.answers == [[OK], [NO], [OK]] && tx.conn.server == Ready
    ensures forall greedy, a, s' :: Legal(Ready, run, greedy, a, s') ==> !InTx(s')
  {
    hide Legal, PullRequest, InSync, Synced, Logged, CarriesAll, Packable, Framing.Wire, ValidItems;
    var conn := new BoltConnection(true);
    conn.server := TxReady;
    tx := new Transaction(conn);
    ghost var net := EscapedNet(conn.net, run);
    PullPacks(-1, None);
    EmptyPacks(RESET);
    var encoded;
    ghost var items;
    encoded, items := EncodeAll([run, PullRequest(-1, None), EmptyRequest(RESET)]);
    EscapeLogged(net, run, PullRequest(-1, None), items);
    conn.server := Ready;
    conn.net := net.(output := encoded.value, sent := items, written := net.requests);
  }

  lemma EscapedNet(start: Net, run: Request) returns (net: Net)
    requires start == Net([], [], map[], 0, 0, [], [], [], [], []) && run.signature == RUN
    ensures InSync(net) && net.items == [] && Debt(net) == 0
    ensures net.requests == [run, PullRequest(-1, None), EmptyRequest(RESET)] && net.answers == [[OK], [NO], [OK]]
    ensures forall greedy, a, s' :: Legal(Ready, run, greedy, a, s') ==> !InTx(s')
  {
    hide Decode, Block, Legal, PullRequest, Answered, InSync, OnlyRead, Answered1;
    Begun(start);
    var e := FailureEscapes(start, run);
    net := e.reset;
  }

  lemma EscapeLogged(net: Net, run: Request, pull: Request, items: seq<Item>)
    requires InSync(net) && net.items == [] && Debt(net) == 0
    requires net.requests == [run, pull, EmptyRequest(RESET)] && run.signature == RUN && pull.signature == PULL
    requires CarriesAll(items, net.requests) && ValidItems(items)
    ensures var after := net.(output := Framing.Wire(items), sent := items, written := net.requests);
      Synced(after, [] + []) && Logged(after) && Balanced(after)
  {
    hide Carries, Bodies, Owed, Block;
    var reqs := net.requests;
    AnswerableSnoc([], run);
    AnswerableSnoc([run], pull);
    AnswerableSnoc([run, pull], EmptyRequest(RESET));
    assert [] + [run] == [run] && [run] + [pull] == [run, pull] && [run, pull] + [EmptyRequest(RESET)] == reqs;
    assert Framing.Wire(net.items) == [];
  }

  lemma Begun(net: Net)
    requires net == Net([], [], map[], 0, 0, [], [], [], [], [])
    ensures InSync(net) && Debt(net) == 0
  {
  }

  // ---- a stream that ends too early ----

  const ROW: seq<byte> := [0xB0, RECORD]
  const NO_FIELDS: Row := []

  /** One record, and then FAILURE. */
  lemma RowThenFailure()
    ensures Decode(ROW) == Some(Record(NO_FIELDS))
    ensures Block([ROW, NO]) && RowsOf([ROW, NO]) == [NO_FIELDS] && SummaryOf([ROW, NO]) == Some(FAILED)
    ensures Delivers([Framing.Message([ROW]), Framing.Message([NO])], [ROW, NO])
  {
    hide Decode, Delivers;
    RowDecodes();
    BareReplies();
    assert [ROW, NO][..1] == [ROW] && [ROW][1..] == [];
    assert RowsIn([ROW]) == [Decode(ROW).value.values] + RowsIn([]);
    TwoBodies(ROW, NO);
  }

  lemma RowDecodes()
    ensures Decode(ROW) == Some(Record(NO_FIELDS))
  {
    hide Decode;
    Bare(RECORD);
  }

  lemma TwoBodies(a: seq<byte>, b: seq<byte>)
    requires 0 < |a| <= MAX_CHUNK && 0 < |b| <= MAX_CHUNK
    ensures Delivers([Framing.Message([a]), Framing.Message([b])], [a, b])
  {
    OneBody(a);
    OneBody(b);
    var first, second := Framing.Message([a]), Framing.Message([b]);
    assert [first, second][1..] == [second];
    assert ItemBodies(first) == [a] && Bodies([first, second]) == [a] + Bodies([second]);
  }

  lemma FailingPull(more: seq<Row>)
    ensures Legal(Streaming([NO_FIELDS] + more), PullRequest(-1, None), true, [ROW, NO], Failed)
  {
    RowThenFailure();
    hide Decode, Block, RowsOf, SummaryOf, PullLimit, Delivers;
    assert PullRequest(-1, None).signature == PULL;
  }

  /** What is exchanged when a PULL fails after one record and the RESET after it is not awaited. */
  datatype Cutoff = Cutoff(sent: Net, began: Net, got: Net, failed: Net, cut: Net)

  /**
   * A statement with at least two rows is streamed outside any transaction. RUN succeeds, and its
   * PULL gives one record and then FAILURE. The client reads all of that, sends RESET and is cut
   * off there. It has one row, and what is owed to it is RESET's reply: no other row comes, and
   * no other word of the FAILURE.
   */
  lemma FailureCutOff(start: Net, run: Request, more: seq<Row>) returns (e: Cutoff)
    requires InSync(start) && start.items == [] && Debt(start) == 0 && run.signature == RUN && more != []
    ensures Legal(Ready, run, true, [OK], Streaming([NO_FIELDS] + more))
    ensures Legal(Streaming([NO_FIELDS] + more), PullRequest(-1, None), true, [ROW, NO], Failed)
    ensures Legal(Failed, EmptyRequest(RESET), true, [OK], Ready)
    ensures e.sent == Receive(
      Answered1(start, run, OK, Streaming([NO_FIELDS] + more)), PullRequest(-1, None), [ROW, NO], Failed,
      [Framing.Message([ROW]), Framing.Message([NO])])
    ensures Answered(e.sent, e.began, SUCCEEDED) && OnlyRead(e.sent, e.began)
    ensures Answered(e.began, e.got, Record(NO_FIELDS)) && OnlyRead(e.began, e.got)
    ensures Answered(e.got, e.failed, FAILED) && OnlyRead(e.got, e.failed) && Debt(e.failed) == 0
    ensures e.cut == Answered1(e.failed, EmptyRequest(RESET), OK, Ready)
    ensures InSync(e.cut) && Debt(e.cut) == 1 && e.cut.items == [Framing.Message([OK])]
    ensures var id := |start.requests|; id in e.cut.results && [NO_FIELDS] < e.cut.results[id]
  {
    hide Decode, Block, Legal, PullRequest, PullLimit, RowsOf, SummaryOf, Answered, InSync, OnlyRead, Answered1, Read1,
      Utf8, Utf8Step;
    var rows := [NO_FIELDS] + more;
    BareReplies();
    RowThenFailure();
    FailingPull(more);
    PullSignature(-1, None);
    BareLegal([OK], Ready, run, Streaming(rows));
    BareLegal([OK], Failed, EmptyRequest(RESET), Ready);
    AnswerStep(start, run, OK, Streaming(rows));
    var n1 := Answered1(start, run, OK, Streaming(rows));
    var items := [Framing.Message([ROW]), Framing.Message([NO])];
    var sent := Receive(n1, PullRequest(-1, None), [ROW, NO], Failed, items);
    ReceiveStep(n1, PullRequest(-1, None), [ROW, NO], Failed, items);
    ReadStep(sent, OK, SUCCEEDED);
    var began := Read1(sent);
    ReadStep(began, ROW, Record(NO_FIELDS));
    var got := Read1(began);
    ReadStep(got, NO, FAILED);
    var failed := Read1(got);
    AnswerStep(failed, EmptyRequest(RESET), OK, Ready);
    e := Cutoff(sent, began, got, failed, Answered1(failed, EmptyRequest(RESET), OK, Ready));
  }
}
