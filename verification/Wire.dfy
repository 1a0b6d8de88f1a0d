/** Requests to bytes: packing, chunking, and reading the result back end to end. */
module Wire {
  import opened Bytes
  import opened Values
  import opened PackStream
  import opened PackStreamLaws
  import opened Framing
  import opened Codec
  import opened Message
  import opened Reencoding

  function AsValue(req: Request): Value {
    Structure(req.signature, req.fields)
  }

  /** The stream item carries `req`: packed in some enumeration order, in chunks. */
  ghost predicate Carries(item: Item, req: Request) {
    && ValidItem(item) && item.Message?
    && exists t :: Distinct(t) && Erase(t) == AsValue(req) && Concat(item.chunks) == Pack(t)
  }

  ghost predicate CarriesAll(items: seq<Item>, reqs: seq<Request>) {
    |items| == |reqs| && forall i :: 0 <= i < |items| ==> Carries(items[i], reqs[i])
  }

  /** Every size in the request fits 32 bits, so it packs. */
  predicate Packable(req: Request) {
    Within(AsValue(req), false)
  }

  /** Appends `body` to `out` in chunks of at most `MAX_CHUNK` bytes, then the terminator. */
  method WriteFrame(body: seq<byte>, out: ByteBuffer)
    modifies out
    ensures out.data == old(out.data) + Frame(Chunks(body))
  {
    hide Chunks, Frame, Length;
    ghost var start := out.data;
    assert body[0..] == body;
    var at := 0;
    while at < |body|
      invariant 0 <= at <= |body|
      invariant out.data + Frame(Chunks(body[at..])) == start + Frame(Chunks(body))
    {
      var size := ChunkSize(|body| - at);
      ghost var before := out.data;
      ghost var rest := Frame(Chunks(body[at + size..]));
      ChunkStep(body[at..]);
      assert body[at..][size..] == body[at + size..] && body[at..][..size] == body[at..at + size];
      out.Extend(Length(size));
      out.Extend(body[at..at + size]);
      assert out.data + rest == before + (Length(size) + body[at..at + size] + rest);
      at := at + size;
    }
    assert body[at..] == [];
    out.Extend([0, 0]);
    EmptyFrame();
  }

  lemma EmptyFrame()
    ensures Frame(Chunks([])) == [0, 0]
  {
  }

  /** `n` bytes fit the capacity that is reserved for a body before it is chunked. */
  predicate FitsReserve(body: seq<byte>, n: int) {
    n <= |body| + |body| / 65_535 * 2 + 4
  }

  /** `body` was appended in its frame, which is spelled out if one chunk is enough. */
  predicate InFrame(body: seq<byte>, before: seq<byte>, after: seq<byte>) {
    && FitsReserve(body, |after| - |before|)
    && (|body| <= 65_535 ==> after == before + ([|body| / 256, |body| % 256] + body + [0, 0]))
  }

  lemma FrameAppended(body: seq<byte>, before: seq<byte>)
    requires body != []
    ensures InFrame(body, before, before + Frame(Chunks(body)))
  {
    hide Frame, Chunks;
    FrameFitsReserve(body);
    if |body| <= 65_535 {
      FrameBytes(body, []);
    }
  }

  /** Appends `req` to `out` as one chunked message, or nothing if it does not pack. */
  method Encode(req: Request, out: ByteBuffer) returns (ok: bool, ghost item: Item)
    modifies out
    ensures ok <==> Packable(req)
    ensures ok ==> Carries(item, req) && out.data == old(out.data) + Wire([item])
    ensures ok ==> exists body :: item == Message(Chunks(body)) && InFrame(body, old(out.data), out.data)
    ensures !ok ==> out.data == old(out.data)
  {
    hide Within, Pack, Erase, Distinct, Concat, Chunks, Frame, InFrame;
    item := Noop;
    var buffer := new ByteBuffer();
    ghost var t;
    ok, t := PackValue(AsValue(req), buffer);
    if !ok {
      return;
    }
    var body := buffer.data;
    WriteFrame(body, out);
    item := Message(Chunks(body));
    ChunksConcat(body);
    assert body == Pack(t);
    assert Wire([item]) == Frame(item.chunks) + Wire([]);
    FrameAppended(body, old(out.data));
    assert InFrame(body, old(out.data), out.data);
  }

  /** No chunk but the last is shorter than it may be. */
  ghost predicate FullChunks(item: Item) {
    exists body :: item == Message(Chunks(body))
  }

  /** What goes out for `reqs`: one frame each, in chunks that are full. */
  ghost predicate Outgoing(items: seq<Item>, reqs: seq<Request>) {
    CarriesAll(items, reqs) && ValidItems(items) && forall i :: 0 <= i < |items| ==> FullChunks(items[i])
  }

  /** Frames every request into one buffer. Nothing is sent if one of them does not pack. */
  method EncodeAll(reqs: seq<Request>) returns (r: Option<seq<byte>>, ghost items: seq<Item>)
    ensures r.Some? <==> forall i :: 0 <= i < |reqs| ==> Packable(reqs[i])
    ensures r.Some? ==> Outgoing(items, reqs) && r.value == Wire(items)
  {
    hide Packable, Carries, Framing.Wire, Bodies, ValidItem, InFrame;
    var out := new ByteBuffer();
    items := [];
    EmptyWire();
    for i := 0 to |reqs|
      invariant Outgoing(items, reqs[..i]) && out.data == Wire(items)
      invariant forall j :: 0 <= j < i ==> Packable(reqs[j])
    {
      var ok;
      ghost var item;
      ok, item := Encode(reqs[i], out);
      if !ok {
        return None, [];
      }
      CarriesValid(item, reqs[i]);
      WireConcat(items, [item]);
      CarriesSnoc(items, reqs[..i], item, reqs[i]);
      assert reqs[..i + 1] == reqs[..i] + [reqs[i]];
      items := items + [item];
    }
    assert reqs[..|reqs|] == reqs;
    r := Some(out.data);
  }

  lemma EmptyWire()
    ensures Wire([]) == []
  {
  }

  lemma CarriesSnoc(items: seq<Item>, reqs: seq<Request>, item: Item, req: Request)
    requires CarriesAll(items, reqs) && Carries(item, req)
    ensures CarriesAll(items + [item], reqs + [req])
  {
    hide Carries;
  }

  lemma CarriesValid(item: Item, req: Request)
    requires Carries(item, req)
    ensures ValidItem(item)
  {
  }

  /** A reply's body, read with the cursor-based decoder; trailing bytes are ignored. */
  method DecodeBody(body: seq<byte>) returns (r: Option<Response>)
    ensures r == Decode(body)
  {
    hide Parse, FromStructure;
    var reader := new Reader(body);
    assert reader.Rest() == body;
    var value := reader.UnpackValue();
    match value {
      case Ok(Structure(signature, fields)) => r := FromStructure(signature, fields);
      case _ => r := None;
    }
  }

  // ---- end to end ----

  /** What a peer makes of a message body it received. */
  function DecodeRequest(body: seq<byte>): Option<Request> {
    match Unpack(body)
    case Ok((Structure(signature, fields), _)) => Some(Request(signature, fields))
    case _ => None
  }

  lemma CarriedDecodes(item: Item, req: Request)
    requires Carries(item, req) && Within(AsValue(req), true)
    ensures DecodeRequest(Concat(item.chunks)) == Some(req)
  {
    hide Pack, Erase, Distinct, Parse, TreeWithin, Within, Concat;
    var t :| Distinct(t) && Erase(t) == AsValue(req) && Concat(item.chunks) == Pack(t);
    WithinErase(t, true);
    RoundTrip(t, []);
    assert Pack(t) + [] == Pack(t);
  }

  lemma {:induction false} BodiesOfMessages(items: seq<Item>)
    requires forall i :: 0 <= i < |items| ==> items[i].Message?
    ensures |Bodies(items)| == |items|
    ensures forall i :: 0 <= i < |items| ==> Bodies(items)[i] == Concat(items[i].chunks)
  {
    if items != [] {
      BodiesOfMessages(items[1..]);
    }
  }

  /**
   * The buffer written for a list of requests, delivered in any fragments and interleaved
   * with reads in any way, is taken apart into exactly those requests, in order.
   */
  lemma EndToEnd(reqs: seq<Request>, items: seq<Item>, events: seq<Event>, n: nat)
    requires CarriesAll(items, reqs) && ValidItems(items) && NoneTooLong(items)
    requires forall i :: 0 <= i < |reqs| ==> Within(AsValue(reqs[i]), true)
    requires Arrived(events) == Wire(items) && n >= |reqs|
    ensures var bodies := Run([], events + Takes(n)).bodies;
            && |bodies| == |reqs|
            && forall i :: 0 <= i < |reqs| ==> DecodeRequest(bodies[i]) == Some(reqs[i])
  {
    hide Run, Wire, Bodies, Takes, DecodeRequest, Within, NoneTooLong;
    BodiesOfMessages(items);
    assert [] + Arrived(events) == Wire(items);
    AllDelivered([], events, items, n);
    forall i | 0 <= i < |reqs| ensures DecodeRequest(Bodies(items)[i]) == Some(reqs[i]) {
      CarriedDecodes(items[i], reqs[i]);
    }
  }
}
