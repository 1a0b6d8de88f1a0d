/**
 * The server and the byte stream between it and the client. Every complete request gets a
 * block of replies in order: RECORDs (a PULL's only), then one summary. Which block is open,
 * within what the protocol allows, and is fixed when the request is complete; when its bytes
 * arrive, and in what pieces, is open too. After a FAILURE the server answers IGNORED until
 * a RESET, which it answers SUCCESS.
 */
module Peer {
  import opened Bytes
  import opened Values
  import opened PackStream
  import opened Framing
  import opened Message

  datatype ServerState =
    | Ready
    | Streaming(rows: seq<Row>)
    | TxReady
    | TxStreaming(rows: seq<Row>)
    | Failed

  /** Result rows the server still holds. */
  function RowsLeft(s: ServerState): seq<Row> {
    if s.Streaming? || s.TxStreaming? then s.rows else []
  }

  predicate HasStream(s: ServerState) {
    s.Streaming? || s.TxStreaming?
  }

  predicate InTx(s: ServerState) {
    s.TxReady? || s.TxStreaming?
  }

  /** The stream with its first `k` rows gone; closed once none are left. */
  function Served(s: ServerState, k: nat): ServerState
    requires HasStream(s)
  {
    if k < |s.rows| then (if s.Streaming? then Streaming(s.rows[k..]) else TxStreaming(s.rows[k..]))
    else if s.Streaming? then Ready else TxReady
  }

  // ---- answers ----

  /** The message bodies that answer one request. */
  type Answer = seq<seq<byte>>

  predicate IsRecord(body: seq<byte>) {
    Decode(body).Some? && Decode(body).value.Record?
  }

  predicate Records(bodies: seq<seq<byte>>) {
    forall i :: 0 <= i < |bodies| ==> IsRecord(bodies[i])
  }

  function RowsIn(bodies: seq<seq<byte>>): (rows: seq<Row>)
    requires Records(bodies)
    ensures |rows| == |bodies|
    ensures forall i :: 0 <= i < |rows| ==> Decode(bodies[i]) == Some(Record(rows[i]))
  {
    if bodies == [] then [] else [Decode(bodies[0]).value.values] + RowsIn(bodies[1..])
  }

  /** RECORDs, then exactly one summary: anything else, undecodable bodies included. */
  predicate Block(a: Answer) {
    a != [] && Records(a[..|a| - 1]) && !IsRecord(a[|a| - 1]) && forall i :: 0 <= i < |a| ==> a[i] != []
  }

  function RowsOf(a: Answer): seq<Row>
    requires Block(a)
  {
    RowsIn(a[..|a| - 1])
  }

  function SummaryOf(a: Answer): Option<Response>
    requires Block(a)
  {
    Decode(a[|a| - 1])
  }

  predicate Succeeded(a: Answer)
    requires Block(a)
  {
    SummaryOf(a).Some? && SummaryOf(a).value.Success?
  }

  /** The row limit of a PULL or DISCARD, all rows if it is negative or missing. */
  function PullLimit(req: Request): int {
    var meta := TakeMap(req.fields);
    if N_KEY in meta && meta[N_KEY].Atom? && meta[N_KEY].a.Int? then meta[N_KEY].a.i else -1
  }

  /**
   * How many rows a PULL may get or a DISCARD may drop: at least one if there is any, and from a
   * greedy server as many as it may.
   */
  predicate PullServes(available: nat, limit: int, greedy: bool, k: nat) {
    && k <= available
    && (limit < 0 ==> k == available)
    && (limit >= 0 ==> k <= limit)
    && (limit != 0 && available > 0 ==> k > 0)
    && (greedy ==> k == available || k == limit)
  }

  /** SUCCESS in answer to a request other than RESET. */
  predicate Succeeds(s: ServerState, req: Request, greedy: bool, k: nat, meta: Meta, s': ServerState) {
    if req.signature == RUN then
      (s.Ready? && s'.Streaming?) || (InTx(s) && s'.TxStreaming?)
    else if req.signature == PULL then
      && HasStream(s)
      && PullServes(|s.rows|, PullLimit(req), greedy, k)
      && (HasMore(meta) <==> k < |s.rows|)
      && s' == Served(s, k)
    else if req.signature == DISCARD then
      && HasStream(s)
      && var dropped := |s.rows| - |RowsLeft(s')|;
      && dropped >= 0
      && PullServes(|s.rows|, PullLimit(req), greedy, dropped)
      && (HasMore(meta) <==> dropped < |s.rows|)
      && s' == Served(s, dropped)
    else if req.signature == BEGIN then s.Ready? && s'.TxReady?
    else if req.signature == COMMIT || req.signature == ROLLBACK then InTx(s) && s'.Ready?
    else if req.signature == ROUTE then s.Ready? && s'.Ready?
    else false
  }

  /**
   * A block the server may answer `req` with in state `s`, and the state it is in then. An
   * IGNORED outside `Failed` is a request overtaken by a later RESET. A peer that sends
   * something undecodable is at fault; nothing it does later matters to the client.
   */
  predicate Legal(s: ServerState, req: Request, greedy: bool, a: Answer, s': ServerState) {
    && Block(a)
    && (RowsOf(a) != [] ==> req.signature == PULL && HasStream(s))
    && RowsOf(a) <= RowsLeft(s)
    && match SummaryOf(a)
       case None => s' == Failed
       case Some(Success(meta)) =>
         if req.signature == RESET then s' == Ready
         else Succeeds(s, req, greedy, |RowsOf(a)|, meta, s')
       case Some(other) =>
         req.signature != RESET && s' == Failed && (s.Failed? ==> other == Ignored)
  }

  /** There always is a legal answer. */
  lemma CanAnswer(s: ServerState, req: Request, greedy: bool)
    ensures Legal(s, req, greedy, [[0xFF]], Failed)
  {
    var body: seq<byte> := [0xFF];
    assert ParseHead(body) == Ok((Scalar(Int(-1)), 1));
    assert ParseRest(Scalar(Int(-1)), body[1..]) == Ok((Leaf(Int(-1)), 0));
    assert Unpack(body) == Ok((Atom(Int(-1)), 1));
    assert [body][..0] == [];
  }

  // ---- the byte stream ----

  /**
   * What has been exchanged so far. The position of a request in `requests` is its id;
   * `answers` holds what it was answered, and `results` the rows of the statement each
   * successful RUN opened. The client has consumed the answers before `next` and `skip`
   * bodies of that one; `items` is the reply stream it has not taken messages from.
   * `readBy` is, for each request, how many answers the client had consumed when it was sent.
   * `output` is every byte the client ever wrote, `sent` the messages in it and `written`
   * the requests they carry, of which `requests` are the ones that get an answer.
   */
  datatype Net = Net(
    requests: seq<Request>,
    answers: seq<Answer>,
    results: map<nat, seq<Row>>,
    next: nat,
    skip: nat,
    items: seq<Item>,
    output: seq<byte>,
    sent: seq<Item>,
    written: seq<Request>,
    readBy: seq<nat>)

  /** Every request has an answer, and it is known what had been read when it was sent. */
  predicate Balanced(net: Net) {
    |net.answers| == |net.requests| == |net.readBy|
  }

  /** GOODBYE is not answered. */
  function Answerable(reqs: seq<Request>): seq<Request> {
    if reqs == [] then []
    else (if reqs[0].signature == GOODBYE then [] else [reqs[0]]) + Answerable(reqs[1..])
  }

  lemma AnswerableSnoc(a: seq<Request>, req: Request)
    ensures Answerable(a + [req]) == if req.signature == GOODBYE then Answerable(a) else Answerable(a) + [req]
  {
    AnswerableConcat(a, [req]);
    assert [req][1..] == [];
    assert Answerable([req]) == if req.signature == GOODBYE then [] else [req];
  }

  lemma {:induction false} AnswerableConcat(a: seq<Request>, b: seq<Request>)
    ensures Answerable(a + b) == Answerable(a) + Answerable(b)
  {
    if a == [] {
      assert a + b == b;
    } else {
      assert (a + b)[1..] == a[1..] + b;
      AnswerableConcat(a[1..], b);
    }
  }

  /** A read position: at the end, or before a body of an answer. */
  predicate Position(answers: seq<Answer>, next: nat, skip: nat) {
    && (forall i :: 0 <= i < |answers| ==> Block(answers[i]))
    && (if next < |answers| then skip < |answers[next]| else next == |answers| && skip == 0)
  }

  /** The bodies still owed, in order. */
  function Owed(answers: seq<Answer>, next: nat, skip: nat): seq<seq<byte>>
    requires Position(answers, next, skip)
    decreases |answers| - next
  {
    if next == |answers| then [] else answers[next][skip..] + Owed(answers, next + 1, 0)
  }

  /** In a block, the records are all but the last body. */
  lemma BlockBody(a: Answer, k: nat)
    requires Block(a) && k < |a|
    ensures IsRecord(a[k]) <==> k + 1 < |a|
    ensures k + 1 < |a| ==> RowsOf(a)[k] == Decode(a[k]).value.values
  {
    hide Decode;
    assert k + 1 < |a| ==> a[..|a| - 1][k] == a[k];
  }

  lemma OwedFirst(answers: seq<Answer>, next: nat, skip: nat)
    requires Position(answers, next, skip) && next < |answers|
    ensures var owed := Owed(answers, next, skip);
            && owed != [] && owed[0] == answers[next][skip]
            && if IsRecord(answers[next][skip])
               then Position(answers, next, skip + 1) && owed[1..] == Owed(answers, next, skip + 1)
               else Position(answers, next + 1, 0) && owed[1..] == Owed(answers, next + 1, 0)
  {
    hide Block, IsRecord;
    var a := answers[next];
    BlockBody(a, skip);
    if next + 1 < |answers| {
      BlockNotEmpty(answers[next + 1]);
    }
    DropFirst(a, skip, Owed(answers, next + 1, 0));
    assert skip + 1 == |a| ==> a[skip + 1..] + Owed(answers, next + 1, 0) == Owed(answers, next + 1, 0);
  }

  lemma {:induction false} OwedAppend(answers: seq<Answer>, next: nat, skip: nat, a: Answer)
    requires Position(answers, next, skip) && Block(a)
    ensures Position(answers + [a], next, skip)
    ensures Owed(answers + [a], next, skip) == Owed(answers, next, skip) + a
    decreases |answers| - next
  {
    hide Block;
    var all := answers + [a];
    assert forall i :: 0 <= i < |answers| ==> all[i] == answers[i];
    if next < |answers| {
      if next + 1 < |answers| {
        BlockNotEmpty(answers[next + 1]);
      }
      OwedAppend(answers, next + 1, 0, a);
      Assoc(answers[next][skip..], Owed(answers, next + 1, 0), a);
    } else {
      BlockNotEmpty(a);
      assert Owed(all, next + 1, 0) == [];
    }
  }

  lemma BlockNotEmpty(a: Answer)
    requires Block(a)
    ensures a != []
  {
  }

  /** The bytes received and on their way spell exactly the replies owed. */
  ghost predicate Synced(net: Net, stream: seq<byte>) {
    && Balanced(net)
    && Position(net.answers, net.next, net.skip)
    && ValidItems(net.items)
    && stream == Wire(net.items)
    && Bodies(net.items) == Owed(net.answers, net.next, net.skip)
  }

  /** Requests complete on the wire whose summary the client has not consumed. */
  function Debt(net: Net): int {
    |net.requests| - net.next
  }

  /** The stream items that carry a new answer, in any chunks and with any NOOPs. */
  predicate Delivers(items: seq<Item>, a: Answer) {
    ValidItems(items) && Bodies(items) == a
  }

  /** A complete request is answered `a`, which leaves the server in `s'`. */
  function Receive(net: Net, req: Request, a: Answer, s': ServerState, items: seq<Item>): Net {
    net.(
      requests := net.requests + [req],
      answers := net.answers + [a],
      readBy := net.readBy + [net.next],
      results := if req.signature == RUN && HasStream(s') then net.results[|net.requests| := RowsLeft(s')]
                 else net.results,
      items := net.items + items)
  }

  lemma ReceiveSynced(net: Net, stream: seq<byte>, req: Request, a: Answer, s': ServerState, items: seq<Item>)
    requires Synced(net, stream) && Delivers(items, a) && Block(a)
    ensures Synced(Receive(net, req, a, s', items), stream + Wire(items))
  {
    hide Wire, Bodies, Block, Owed;
    WireConcat(net.items, items);
    OwedAppend(net.answers, net.next, net.skip, a);
  }

  /** The client consumes the next body: a record, or the summary that ends its answer. */
  function Consume(net: Net, items: seq<Item>): Net
    requires net.next < |net.answers| && net.skip < |net.answers[net.next]|
  {
    var record := IsRecord(net.answers[net.next][net.skip]);
    net.(
      next := if record then net.next else net.next + 1,
      skip := if record then net.skip + 1 else 0,
      items := items)
  }

  /** Taking a message off the stream is consuming the next owed body. */
  lemma ConsumeSynced(net: Net, stream: seq<byte>, body: seq<byte>, rest: seq<Item>, stream': seq<byte>)
    requires Synced(net, stream)
    requires ValidItems(rest) && stream' == Wire(rest) && Bodies(net.items) == [body] + Bodies(rest)
    ensures net.next < |net.answers| == |net.requests| && net.skip < |net.answers[net.next]|
    ensures body == net.answers[net.next][net.skip]
    ensures Synced(Consume(net, rest), stream')
  {
    hide Wire, Bodies, IsRecord, Block;
    if net.next < |net.answers| {
      OwedFirst(net.answers, net.next, net.skip);
      assert ([body] + Bodies(rest))[1..] == Bodies(rest);
    }
  }

  lemma CanDeliver()
    ensures Delivers([Message([[0xFF]])], [[0xFF]])
  {
    var chunks: seq<seq<byte>> := [[0xFF]];
    assert chunks[1..] == [] && Concat(chunks) == [0xFF];
    var items := [Message(chunks)];
    assert items[1..] == [] && Bodies(items) == [Concat(chunks)];
  }

  /** Any legal answer, in any framing. */
  method AnswerAny(s: ServerState, req: Request, greedy: bool)
    returns (a: Answer, s': ServerState, items: seq<Item>)
    ensures Legal(s, req, greedy, a, s') && Delivers(items, a)
  {
    a, s', items := *, *, *;
    if !(Legal(s, req, greedy, a, s') && Delivers(items, a)) {
      a, s', items := [[0xFF]], Failed, [Message([[0xFF]])];
      CanAnswer(s, req, greedy);
      CanDeliver();
    }
  }

  /** `reqs` were answered one after the other, the server passing through `states`. */
  ghost predicate Accepted(
    before: Net, reqs: seq<Request>, states: seq<ServerState>, greedy: bool, after: Net)
  {
    var n := |before.requests|;
    && Balanced(before) && Balanced(after) && |states| == |reqs| + 1
    && after.requests == before.requests + reqs && before.answers <= after.answers
    && before.readBy <= after.readBy && (forall i :: n <= i < n + |reqs| ==> after.readBy[i] == before.next)
    && (forall i :: 0 <= i < |reqs| ==> Legal(states[i], reqs[i], greedy, after.answers[n + i], states[i + 1]))
    && (forall i :: 0 <= i < |reqs| && reqs[i].signature == RUN && HasStream(states[i + 1]) ==>
      n + i in after.results && after.results[n + i] == RowsLeft(states[i + 1]))
    && (forall k :: k in before.results && k < n ==> k in after.results && after.results[k] == before.results[k])
    && after.next == before.next && after.skip == before.skip
  }

  /** The write itself, before any answer. */
  function Write(net: Net, bytes: seq<byte>, items: seq<Item>, reqs: seq<Request>): Net {
    net.(output := net.output + bytes, sent := net.sent + items, written := net.written + reqs)
  }

  lemma AcceptedNone(net: Net, s: ServerState, greedy: bool, bytes: seq<byte>, items: seq<Item>, reqs: seq<Request>)
    requires Balanced(net)
    ensures Accepted(net, [], [s], greedy, Write(net, bytes, items, reqs))
  {
  }

  lemma AcceptedOne(
    before: Net, reqs: seq<Request>, states: seq<ServerState>, greedy: bool, net: Net,
    req: Request, a: Answer, s': ServerState, items: seq<Item>)
    requires Accepted(before, reqs, states, greedy, net)
    requires states != [] && Legal(states[|states| - 1], req, greedy, a, s')
    ensures Accepted(before, reqs + [req], states + [s'], greedy, Receive(net, req, a, s', items))
  {
    hide Legal;
    var after := Receive(net, req, a, s', items);
    var n := |before.requests|;
    assert after.answers[..n + |reqs|] == net.answers && after.readBy[..n + |reqs|] == net.readBy;
  }

  // ---- statements ----

  lemma PullLimitIs(n: int64, qid: Option<int64>)
    ensures PullLimit(PullRequest(n, qid)) == n && PullLimit(DiscardRequest(n, qid)) == n
  {
    assert N_KEY != QID_KEY by {
      assert |N_KEY| == 1 && |QID_KEY| == 3;
    }
  }

  /** A RUN that succeeded is answered by its summary alone, and opens a stream. */
  lemma RunOpens(s: ServerState, req: Request, greedy: bool, a: Answer, s': ServerState)
    requires Legal(s, req, greedy, a, s') && req.signature == RUN && Succeeded(a)
    ensures |a| == 1 && HasStream(s') && (InTx(s') <==> InTx(s))
  {
  }

  /** The rows a PULL's answer has not delivered yet once `skip` of its bodies are consumed. */
  function RowsAhead(a: Answer, skip: nat): seq<Row>
    requires Block(a) && skip < |a|
  {
    RowsOf(a)[skip..]
  }

  /**
   * A PULL in flight on a statement with rows `all`, of which the client has the first
   * `got`: what is under way continues them, and if the PULL succeeds, what the server then
   * still holds completes them.
   */
  ghost predicate PullUnderWay(a: Answer, skip: nat, all: seq<Row>, got: seq<Row>, tx: bool, s': ServerState) {
    && Block(a) && skip < |a|
    && got + RowsAhead(a, skip) <= all
    && (match SummaryOf(a)
        case Some(Success(meta)) =>
          && got + RowsAhead(a, skip) + RowsLeft(s') == all
          && (HasMore(meta) <==> RowsLeft(s') != [])
          && Between(s', tx)
        case _ => s' == Failed)
  }

  /** Between batches: a stream with rows left, or drained. */
  predicate Between(s: ServerState, tx: bool) {
    if HasStream(s) then s.rows != [] && (InTx(s) <==> tx) else s == (if tx then TxReady else Ready)
  }

  lemma PullStarts(
    s: ServerState, n: int64, qid: Option<int64>, greedy: bool, a: Answer, s': ServerState, all: seq<Row>,
    got: seq<Row>)
    requires HasStream(s) && got + s.rows == all && Legal(s, PullRequest(n, qid), greedy, a, s')
    ensures PullUnderWay(a, 0, all, got, InTx(s), s')
    ensures Succeeded(a) ==> PullServes(|s.rows|, n, greedy, |RowsAhead(a, 0)|)
  {
    PullLimitIs(n, qid);
    var k := |RowsOf(a)|;
    assert RowsAhead(a, 0) == RowsOf(a) == s.rows[..k];
    assert s.rows == s.rows[..k] + s.rows[k..];
    Assoc(got, s.rows[..k], s.rows[k..]);
    assert (got + s.rows)[..|got| + k] == got + s.rows[..k];
  }

  /** A record of the answer moves from the way to the client's rows. */
  lemma PullRecord(a: Answer, skip: nat, all: seq<Row>, got: seq<Row>, tx: bool, s': ServerState, row: Row)
    requires PullUnderWay(a, skip, all, got, tx, s') && Decode(a[skip]) == Some(Record(row))
    ensures PullUnderWay(a, skip + 1, all, got + [row], tx, s')
    ensures RowsAhead(a, skip) == [row] + RowsAhead(a, skip + 1)
  {
    hide Decode;
    BlockBody(a, skip);
    assert RowsAhead(a, skip) == [row] + RowsAhead(a, skip + 1);
    Assoc(got, [row], RowsAhead(a, skip + 1));
  }

  /** At the summary, all records of the answer have been consumed. */
  lemma PullSummary(a: Answer, skip: nat, all: seq<Row>, got: seq<Row>, tx: bool, s': ServerState)
    requires PullUnderWay(a, skip, all, got, tx, s') && !IsRecord(a[skip])
    ensures skip + 1 == |a| && RowsAhead(a, skip) == [] && Decode(a[skip]) == SummaryOf(a)
    ensures Succeeded(a) ==> got + RowsLeft(s') == all
  {
    hide Decode;
    BlockBody(a, skip);
    assert got + [] == got;
  }

  /** The one decodable answer to a RESET. */
  lemma ResetAnswer(s: ServerState, req: Request, greedy: bool, a: Answer, s': ServerState, k: nat)
    requires Legal(s, req, greedy, a, s') && req.signature == RESET
    requires k < |a| && Decode(a[k]).Some?
    ensures Decode(a[k]).value.Success? && s' == Ready && |a| == 1
  {
    hide Decode;
    BlockBody(a, k);
  }

  // ---- growing ----

  /** `b` continues `a`: what was exchanged is not forgotten. */
  ghost predicate Grows(a: Net, b: Net) {
    && a.requests <= b.requests && a.answers <= b.answers && a.readBy <= b.readBy && a.output <= b.output
    && forall k :: k in a.results && k < |a.requests| ==> k in b.results && b.results[k] == a.results[k]
  }

  /** What only an open transaction, or none, may send. */
  predicate Statement(req: Request) {
    req.signature == RUN || req.signature == COMMIT
  }

  /** `b` continues `a` without a RUN or COMMIT. */
  ghost predicate Quiet(a: Net, b: Net) {
    Grows(a, b) && forall i :: |a.requests| <= i < |b.requests| ==> !Statement(b.requests[i])
  }

  lemma AcceptedGrows(before: Net, reqs: seq<Request>, states: seq<ServerState>, greedy: bool, after: Net)
    requires Accepted(before, reqs, states, greedy, after) && before.output <= after.output
    ensures Grows(before, after) && Balanced(after) && after.next == before.next && after.skip == before.skip
    ensures (forall i :: 0 <= i < |reqs| ==> !Statement(reqs[i])) ==> Quiet(before, after)
  {
    hide Legal;
    assert after.requests[|before.requests|..] == reqs;
  }

  lemma GrowsSelf(a: Net)
    ensures Grows(a, a) && Quiet(a, a)
  {
  }

  lemma GrowsTransitive(a: Net, b: Net, c: Net)
    requires Grows(a, b) && Grows(b, c)
    ensures Grows(a, c)
  {
  }

  lemma QuietTransitive(a: Net, b: Net, c: Net)
    requires Quiet(a, b) && Quiet(b, c)
    ensures Quiet(a, c)
  {
  }

  lemma QuietGrows(a: Net, b: Net)
    requires Quiet(a, b)
    ensures Grows(a, b)
  {
  }

  // ---- how requests end ----

  /** Requests that say what is to become of the rest of a result. */
  predicate Continues(req: Request) {
    req.signature == PULL || req.signature == DISCARD
  }

  /**
   * Request `i` ended well: it was answered SUCCESS, and if that announces more rows then PULL
   * or DISCARD went out next, unless it is the last and the result is still `open`. The one
   * other good end is that of a PULL or DISCARD that failed and was followed by a RESET.
   */
  ghost predicate Ended(net: Net, i: nat, open: bool) {
    && i < |net.answers| == |net.requests| && Block(net.answers[i])
    && match SummaryOf(net.answers[i])
       case Some(Success(meta)) =>
         Continues(net.requests[i]) && HasMore(meta) ==>
           if i + 1 < |net.requests| then Continues(net.requests[i + 1]) else open
       case Some(Failure(_, _)) =>
         Continues(net.requests[i]) && i + 1 < |net.requests| && net.requests[i + 1].signature == RESET
       case _ => false
  }

  ghost predicate AllEnded(net: Net, from: nat, upto: nat, open: bool) {
    forall i :: from <= i < upto ==> Ended(net, i, open)
  }

  /** When request `j` went out, nothing was owed and all requests since `from` had ended well. */
  ghost predicate CleanAt(net: Net, from: nat, j: nat) {
    j < |net.readBy| && net.readBy[j] == j && AllEnded(net, from, j, false)
  }

  /** So it is for every RUN and COMMIT since `from`. */
  ghost predicate CleanSends(net: Net, from: nat) {
    forall j :: from <= j < |net.requests| && Statement(net.requests[j]) ==> CleanAt(net, from, j)
  }

  /** Every RUN and COMMIT since `from` went out when nothing was owed. */
  ghost predicate Prompt(net: Net, from: nat) {
    forall j :: from <= j < |net.requests| && Statement(net.requests[j]) ==> j < |net.readBy| && net.readBy[j] == j
  }

  lemma CleanIsPrompt(net: Net, from: nat)
    requires CleanSends(net, from)
    ensures Prompt(net, from)
  {
  }

  lemma PromptNone(a: Net)
    ensures Prompt(a, |a.requests|)
  {
  }

  lemma QuietIsPrompt(a: Net, b: Net)
    requires Quiet(a, b)
    ensures Prompt(b, |a.requests|)
  {
  }

  lemma PromptThen(a: Net, b: Net, from: nat)
    requires Prompt(a, from) && Grows(a, b) && Prompt(b, |a.requests|)
    ensures Prompt(b, from)
  {
  }

  lemma EndedLater(a: Net, b: Net, i: nat)
    requires Ended(a, i, false) && Grows(a, b) && Balanced(b)
    ensures Ended(b, i, false)
  {
    hide Block, SummaryOf, HasMore;
  }

  lemma AllEndedLater(a: Net, b: Net, from: nat, upto: nat)
    requires AllEnded(a, from, upto, false) && Grows(a, b) && Balanced(b)
    ensures AllEnded(b, from, upto, false)
  {
    hide Ended, Grows;
    forall i | from <= i < upto
      ensures Ended(b, i, false)
    {
      EndedLater(a, b, i);
    }
  }

  lemma CleanNone(net: Net)
    ensures CleanSends(net, |net.requests|)
    ensures AllEnded(net, |net.requests|, |net.requests|, false)
  {
  }

  /** A RUN and its PULL sent by a client that owed nothing. */
  lemma CleanRunPull(
    before: Net, run: Request, pull: Request, states: seq<ServerState>, greedy: bool, after: Net)
    requires Accepted(before, [run, pull], states, greedy, after) && before.next == |before.requests|
    requires pull.signature == PULL
    ensures CleanSends(after, |before.requests|)
  {
    hide Legal, Ended;
  }

  lemma CleanCommit(before: Net, commit: Request, after: Net)
    requires Balanced(before) && Balanced(after) && before.next == |before.requests|
    requires after.requests == before.requests + [commit] && after.readBy == before.readBy + [before.next]
    ensures CleanSends(after, |before.requests|)
  {
    hide Ended;
  }

  lemma CleanLater(a: Net, b: Net, from: nat, j: nat)
    requires CleanAt(a, from, j) && Grows(a, b) && Balanced(b)
    ensures CleanAt(b, from, j)
  {
    hide AllEnded;
    AllEndedLater(a, b, from, j);
  }

  /** Nothing but RUN and COMMIT is at stake. */
  lemma CleanQuiet(a: Net, b: Net, from: nat)
    requires CleanSends(a, from) && Quiet(a, b) && Balanced(b)
    ensures CleanSends(b, from)
  {
    hide CleanAt;
    forall j | from <= j < |b.requests| && Statement(b.requests[j])
      ensures CleanAt(b, from, j)
    {
      CleanLater(a, b, from, j);
    }
  }

  /** Clean since `from`, all ended well, and clean since then: clean since `from`. */
  lemma CleanThen(a: Net, b: Net, from: nat)
    requires CleanSends(a, from) && AllEnded(a, from, |a.requests|, false)
    requires Grows(a, b) && Balanced(b) && CleanSends(b, |a.requests|) && from <= |a.requests|
    ensures CleanSends(b, from)
  {
    hide Ended;
    AllEndedLater(a, b, from, |a.requests|);
    forall j | from <= j < |b.requests| && Statement(b.requests[j])
      ensures CleanAt(b, from, j)
    {
      if j < |a.requests| {
        CleanLater(a, b, from, j);
      }
    }
  }

  lemma AllEndedThen(a: Net, b: Net, from: nat)
    requires AllEnded(a, from, |a.requests|, false) && Grows(a, b) && Balanced(b)
    requires AllEnded(b, |a.requests|, |b.requests|, false)
    ensures AllEnded(b, from, |b.requests|, false)
  {
    hide Ended, Grows;
    AllEndedLater(a, b, from, |a.requests|);
  }

  /** Without debt, the client has read everything. */
  lemma CaughtUp(net: Net, stream: seq<byte>)
    requires Synced(net, stream) && Debt(net) == 0
    ensures net.next == |net.answers| == |net.requests| && net.skip == 0
  {
    hide Wire, Bodies, Owed, Block;
  }

  lemma Positioned(net: Net, stream: seq<byte>)
    requires Synced(net, stream)
    ensures |net.answers| == |net.requests| && Position(net.answers, net.next, net.skip)
  {
    hide Wire, Bodies, Owed, Block;
  }
}
