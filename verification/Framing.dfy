/**
 * Chunked framing: a message is 16-bit length-prefixed chunks and a zero terminator, and
 * empty messages (NOOPs) may come between messages. `Cut` takes the next whole message off
 * a buffer that holds any prefix of such a stream.
 */
module Framing {
  import opened Bytes

  const MAX_CHUNK: nat := 65_535
  const MAX_MESSAGE: nat := 64 * 1024 * 1024

  // ---- writing ----

  function Concat(chunks: seq<seq<byte>>): seq<byte> {
    if chunks == [] then [] else chunks[0] + Concat(chunks[1..])
  }

  /** A chunk header: the length as a 16-bit number. */
  function Length(n: nat): seq<byte>
    requires n <= MAX_CHUNK
  {
    [n / 256, n % 256]
  }

  predicate ValidChunks(chunks: seq<seq<byte>>) {
    forall i :: 0 <= i < |chunks| ==> 1 <= |chunks[i]| <= MAX_CHUNK
  }

  function Frame(chunks: seq<seq<byte>>): (s: seq<byte>)
    requires ValidChunks(chunks)
    ensures |s| >= 2
  {
    if chunks == [] then [0, 0] else Length(|chunks[0]|) + chunks[0] + Frame(chunks[1..])
  }

  function ChunkSize(n: nat): nat {
    if n < MAX_CHUNK then n else MAX_CHUNK
  }

  /** `body.chunks(MAX_CHUNK)`: full chunks, then a shorter last one. */
  function Chunks(body: seq<byte>): (chunks: seq<seq<byte>>)
    ensures ValidChunks(chunks) && (chunks == [] <==> body == [])
  {
    if body == [] then []
    else var size := ChunkSize(|body|); [body[..size]] + Chunks(body[size..])
  }

  lemma {:induction false} ChunksConcat(body: seq<byte>)
    ensures Concat(Chunks(body)) == body
  {
    if body != [] {
      ChunksConcat(body[ChunkSize(|body|)..]);
    }
  }

  lemma FrameCons(chunk: seq<byte>, chunks: seq<seq<byte>>)
    requires 1 <= |chunk| <= MAX_CHUNK && ValidChunks(chunks)
    ensures Frame([chunk] + chunks) == Length(|chunk|) + chunk + Frame(chunks)
  {
    assert ([chunk] + chunks)[1..] == chunks;
  }

  /** The first chunk of a body. */
  lemma ChunkStep(body: seq<byte>)
    requires body != []
    ensures var size := ChunkSize(|body|);
            Frame(Chunks(body)) == Length(size) + body[..size] + Frame(Chunks(body[size..]))
  {
    hide Frame;
    var size := ChunkSize(|body|);
    FrameCons(body[..size], Chunks(body[size..]));
  }

  /** The capacity the encoder reserves is enough for the frame. */
  lemma {:induction false} FrameFitsReserve(body: seq<byte>)
    ensures |Frame(Chunks(body))| <= |body| + |body| / 65_535 * 2 + 4
  {
    if body != [] {
      ChunkStep(body);
      FrameFitsReserve(body[ChunkSize(|body|)..]);
    }
  }

  // ---- reading ----

  /** How far a buffer's first message goes: all there, not yet, or past the size limit. */
  datatype Cut = Whole(body: seq<byte>, used: nat) | Partial | TooLong

  function Header(buf: seq<byte>): (n: nat)
    requires |buf| >= 2
    ensures n <= MAX_CHUNK
  {
    buf[0] as int * 256 + buf[1]
  }

  /** Walks chunk headers from a message boundary, `total` body bytes into the message. */
  function Walk(buf: seq<byte>, total: nat): (c: Cut)
    ensures c.Whole? ==> 2 <= c.used <= |buf|
  {
    if |buf| < 2 then Partial else
      var size := Header(buf);
      if size == 0 then Whole([], 2)
      else if total + size > MAX_MESSAGE then TooLong
      else if |buf| < 2 + size then Partial
      else match Walk(buf[2 + size..], total + size)
           case Whole(body, used) => Whole(buf[2..2 + size] + body, 2 + size + used)
           case c => c
  }

  /** Leading zero pairs. */
  function Noops(buf: seq<byte>): (n: nat)
    ensures 2 * n <= |buf|
  {
    if |buf| >= 2 && Header(buf) == 0 then 1 + Noops(buf[2..]) else 0
  }

  /** What `take_message` finds, and the buffer it leaves behind. */
  function TakeMessage(buf: seq<byte>): (r: (Cut, seq<byte>))
  {
    var rest := buf[2 * Noops(buf)..];
    match Walk(rest, 0)
    case Whole(body, used) => (Whole(body, used), rest[used..])
    case c => (c, rest)
  }

  // ---- the walk, one header at a time ----

  /** `buf` walked up to `pos`, `body` being the chunks passed. */
  ghost predicate WalkedTo(buf: seq<byte>, pos: nat, body: seq<byte>)
    requires pos <= |buf|
  {
    Walk(buf, 0) == match Walk(buf[pos..], |body|)
                            case Whole(rest, used) => Whole(body + rest, pos + used)
                            case c => c
  }

  lemma WalkStart(buf: seq<byte>)
    ensures WalkedTo(buf, 0, [])
  {
    assert buf[0..] == buf;
  }

  /** What the next chunk header decides. */
  lemma WalkStep(buf: seq<byte>, pos: nat, body: seq<byte>)
    requires pos <= |buf| && WalkedTo(buf, pos, body)
    ensures if |buf| < pos + 2 then Walk(buf, 0) == Partial else
            var size := Header(buf[pos..]);
            if size == 0 then Walk(buf, 0) == Whole(body, pos + 2)
            else if |body| + size > MAX_MESSAGE then Walk(buf, 0) == TooLong
            else if |buf| < pos + 2 + size then Walk(buf, 0) == Partial
            else
              && WalkedTo(buf, pos + 2 + size, body + buf[pos + 2..pos + 2 + size])
              && (Walk(buf, 0).Whole? ==> pos + 2 + size + 2 <= Walk(buf, 0).used)
  {
    hide Walk, Header;
    WalkOn(buf[pos..], |body|);
    if |buf| >= pos + 2 {
      var n := 2 + Header(buf[pos..]);
      if n > 2 && |body| + n - 2 <= MAX_MESSAGE && pos + n <= |buf| {
        var chunk := buf[pos + 2..pos + n];
        assert buf[pos..][n..] == buf[pos + n..] && buf[pos..][2..n] == chunk;
        match Walk(buf[pos + n..], |body| + |chunk|)
        case Whole(rest, used) => Assoc(body, chunk, rest);
        case _ =>
      }
    }
  }

  lemma WalkOn(buf: seq<byte>, total: nat)
    ensures if |buf| < 2 then Walk(buf, total) == Partial else
            var size := Header(buf);
            Walk(buf, total)
            == if size == 0 then Whole([], 2)
               else if total + size > MAX_MESSAGE then TooLong
               else if |buf| < 2 + size then Partial
               else match Walk(buf[2 + size..], total + size)
                    case Whole(body, used) => Whole(buf[2..2 + size] + body, 2 + size + used)
                    case c => c
  {
  }

  // ---- streams ----

  datatype Item = Noop | Message(chunks: seq<seq<byte>>)

  /** A message the protocol allows: not empty. */
  predicate ValidItem(item: Item) {
    item.Message? ==> item.chunks != [] && ValidChunks(item.chunks)
  }

  predicate ValidItems(items: seq<Item>) {
    forall i :: 0 <= i < |items| ==> ValidItem(items[i])
  }

  /** No message is past the size limit. */
  predicate NoneTooLong(items: seq<Item>) {
    forall i :: 0 <= i < |items| && items[i].Message? ==> |Concat(items[i].chunks)| <= MAX_MESSAGE
  }

  /** The bytes of a stream. */
  function Wire(items: seq<Item>): seq<byte>
    requires ValidItems(items)
  {
    if items == [] then [] else ItemBytes(items[0]) + Wire(items[1..])
  }

  function ItemBytes(item: Item): seq<byte>
    requires ValidItem(item)
  {
    if item.Noop? then [0, 0] else Frame(item.chunks)
  }

  function Bodies(items: seq<Item>): seq<seq<byte>> {
    if items == [] then [] else ItemBodies(items[0]) + Bodies(items[1..])
  }

  function ItemBodies(item: Item): seq<seq<byte>> {
    if item.Noop? then [] else [Concat(item.chunks)]
  }

  lemma {:induction false} WireConcat(a: seq<Item>, b: seq<Item>)
    requires ValidItems(a) && ValidItems(b)
    ensures ValidItems(a + b) && Wire(a + b) == Wire(a) + Wire(b) && Bodies(a + b) == Bodies(a) + Bodies(b)
  {
    hide ItemBytes, ItemBodies, ValidItem;
    if a == [] {
      assert a + b == b;
    } else {
      assert (a + b)[0] == a[0] && (a + b)[1..] == a[1..] + b;
      WireConcat(a[1..], b);
      Assoc(ItemBytes(a[0]), Wire(a[1..]), Wire(b));
      Assoc(ItemBodies(a[0]), Bodies(a[1..]), Bodies(b));
    }
  }

  /** `rest` is what is left of a stream once `n` NOOPs and, if `taken`, a message are gone. */
  predicate AdvancesBy(items: seq<Item>, taken: bool, rest: seq<Item>, n: nat) {
    && n <= |items|
    && (forall i :: 0 <= i < n ==> items[i].Noop?)
    && if taken then n < |items| && items[n].Message? && rest == items[n + 1..] else rest == items[n..]
  }

  ghost predicate Advances(items: seq<Item>, taken: bool, rest: seq<Item>) {
    exists n: nat :: AdvancesBy(items, taken, rest, n)
  }

  /** A stream buffer's front is the stream's. */
  lemma Front(buf: seq<byte>, unread: seq<byte>, first: seq<byte>, tail: seq<byte>)
    requires buf + unread == first + tail
    ensures |buf| >= |first| ==> buf[..|first|] == first && buf[|first|..] + unread == tail
    ensures |buf| >= 2 && |first| >= 2 ==> buf[0] == first[0] && buf[1] == first[1]
  {
    var all := buf + unread;
    assert forall i :: 0 <= i < |buf| ==> buf[i] == all[i];
    if |buf| >= |first| {
      assert all[|first|..] == tail;
    }
  }

  /** One step of the walk, over a chunk of the stream. */
  lemma WalkChunk(chunk: seq<byte>, total: nat, buf: seq<byte>, unread: seq<byte>, tail: seq<byte>)
    requires 1 <= |chunk| <= MAX_CHUNK && buf + unread == Length(|chunk|) + chunk + tail
    ensures var n := 2 + |chunk|;
            if |buf| < 2 then Walk(buf, total) == Partial
            else if total + |chunk| > MAX_MESSAGE then Walk(buf, total) == TooLong
            else if |buf| < n then Walk(buf, total) == Partial
            else
              && buf[n..] + unread == tail
              && Walk(buf, total) == match Walk(buf[n..], total + |chunk|)
                                     case Whole(body, used) => Whole(chunk + body, n + used)
                                     case c => c
  {
    var first := Length(|chunk|) + chunk;
    Front(buf, unread, first, tail);
    if |buf| >= |first| {
      assert buf[2..|first|] == first[2..] == chunk;
    }
  }

  lemma WalkEnd(total: nat, buf: seq<byte>, unread: seq<byte>, tail: seq<byte>)
    requires buf + unread == [0, 0] + tail
    ensures Walk(buf, total) == if |buf| < 2 then Partial else Whole([], 2)
  {
    Front(buf, unread, [0, 0], tail);
  }

  /** The walk over a buffer holding a prefix of a frame and what follows it. */
  lemma {:induction false} WalkFrame(
    chunks: seq<seq<byte>>, total: nat, buf: seq<byte>, unread: seq<byte>, tail: seq<byte>)
    requires ValidChunks(chunks) && total <= MAX_MESSAGE
    requires buf + unread == Frame(chunks) + tail
    ensures if total + |Concat(chunks)| > MAX_MESSAGE then !Walk(buf, total).Whole?
            else Walk(buf, total)
                 == if |buf| < |Frame(chunks)| then Partial else Whole(Concat(chunks), |Frame(chunks)|)
    ensures Walk(buf, total).Partial? ==> |buf| < |Frame(chunks)|
  {
    hide Walk;
    if chunks == [] {
      WalkEnd(total, buf, unread, tail);
    } else {
      var n := 2 + |chunks[0]|;
      assert Length(|chunks[0]|) + chunks[0] + (Frame(chunks[1..]) + tail) == Frame(chunks) + tail;
      WalkChunk(chunks[0], total, buf, unread, Frame(chunks[1..]) + tail);
      if |buf| >= n && total + |chunks[0]| <= MAX_MESSAGE {
        WalkFrame(chunks[1..], total + |chunks[0]|, buf[n..], unread, tail);
      }
    }
  }

  /** Taking from the front of a frame. */
  lemma TakeFrame(chunks: seq<seq<byte>>, buf: seq<byte>, unread: seq<byte>, tail: seq<byte>)
    requires ValidItem(Message(chunks)) && buf + unread == Frame(chunks) + tail
    ensures var n := |Frame(chunks)|;
            if TakeMessage(buf).0.TooLong? then |Concat(chunks)| > MAX_MESSAGE
            else if |buf| < n then TakeMessage(buf) == (Partial, buf)
            else TakeMessage(buf) == (Whole(Concat(chunks), n), buf[n..]) && buf[n..] + unread == tail
  {
    WalkFrame(chunks, 0, buf, unread, tail);
    Front(buf, unread, Frame(chunks), tail);
    assert Frame(chunks)[..2] == Length(|chunks[0]|);
    assert Noops(buf) == 0;
    assert buf[0..] == buf;
  }

  /** What taking from the front of the stream `items` may find, `rest` being left of it. */
  ghost predicate Taken(items: seq<Item>, cut: Cut, rest: seq<Item>) {
    && Advances(items, cut.Whole?, rest)
    && Bodies(items) == (if cut.Whole? then [cut.body] else []) + Bodies(rest)
    && (ValidItems(items) ==> ValidItems(rest))
    && (NoneTooLong(items) ==> NoneTooLong(rest))
  }

  /**
   * Taking from a buffer that holds the front of a valid stream either takes its first
   * message whole, or removes nothing but NOOPs because that message is not all there, or
   * refuses because a message in the stream is past the limit.
   */
  lemma {:induction false} TakeFromStream(buf: seq<byte>, unread: seq<byte>, items: seq<Item>) returns (rest: seq<Item>)
    requires ValidItems(items) && buf + unread == Wire(items)
    ensures var (cut, buf') := TakeMessage(buf);
            if cut.TooLong? then !NoneTooLong(items) else
            && Taken(items, cut, rest)
            && ValidItems(rest) && buf' + unread == Wire(rest)
            && (cut.Partial? && unread == [] ==> rest == [])
  {
    hide TakeMessage, Concat, Frame, Taken, NoneTooLong;
    rest := items;
    TakenNone(items);
    if items == [] {
      assert buf == [];
      TakeShort(buf);
    } else if items[0].Noop? {
      Front(buf, unread, [0, 0], Wire(items[1..]));
      if |buf| >= 2 {
        rest := TakeFromStream(buf[2..], unread, items[1..]);
        TakeNoop(buf);
        TakenNoop(items, TakeMessage(buf).0, rest);
      } else {
        TakeShort(buf);
      }
    } else {
      TakeFrame(items[0].chunks, buf, unread, Wire(items[1..]));
      TakenMessage(items);
      if TakeMessage(buf).0.Whole? {
        rest := items[1..];
      }
    }
  }

  lemma TakenNone(items: seq<Item>)
    ensures Taken(items, Partial, items)
  {
    assert AdvancesBy(items, false, items, 0);
  }

  lemma TakenNoop(items: seq<Item>, cut: Cut, rest: seq<Item>)
    requires items != [] && items[0].Noop?
    ensures Taken(items[1..], cut, rest) ==> Taken(items, cut, rest)
    ensures !NoneTooLong(items[1..]) ==> !NoneTooLong(items)
  {
    NoneTooLongTail(items);
    if Taken(items[1..], cut, rest) {
      AdvancesNoop(items, cut.Whole?, rest);
    }
  }

  lemma TakenMessage(items: seq<Item>)
    requires items != [] && items[0].Message?
    ensures forall n :: Taken(items, Whole(Concat(items[0].chunks), n), items[1..])
    ensures |Concat(items[0].chunks)| > MAX_MESSAGE ==> !NoneTooLong(items)
  {
    assert AdvancesBy(items, true, items[1..], 0);
  }

  lemma NoneTooLongTail(items: seq<Item>)
    requires items != []
    ensures NoneTooLong(items) ==> NoneTooLong(items[1..])
  {
  }

  lemma TakeShort(buf: seq<byte>)
    requires |buf| < 2
    ensures TakeMessage(buf) == (Partial, buf)
  {
  }

  lemma TakeNoop(buf: seq<byte>)
    requires |buf| >= 2 && Header(buf) == 0
    ensures TakeMessage(buf) == TakeMessage(buf[2..])
  {
    assert buf[2..][2 * Noops(buf[2..])..] == buf[2 * Noops(buf)..];
  }

  lemma AdvancesNoop(items: seq<Item>, taken: bool, rest: seq<Item>)
    requires items != [] && items[0].Noop? && Advances(items[1..], taken, rest)
    ensures Advances(items, taken, rest)
  {
    var n: nat :| AdvancesBy(items[1..], taken, rest, n);
    assert AdvancesBy(items, taken, rest, n + 1);
  }

  // ---- byte for byte ----

  /** A body that fits one chunk: its length, high byte first, the body, and two zeros. */
  lemma FrameBytes(body: seq<byte>, tail: seq<byte>)
    requires 1 <= |body| <= 65_535
    ensures var frame := [|body| / 256, |body| % 256] + body + [0, 0];
      Frame(Chunks(body)) == frame && TakeMessage(frame + tail) == (Whole(body, |body| + 4), tail)
  {
    hide *;
    var frame := Frame(Chunks(body));
    OneChunk(body);
    TakesWhole(body, tail);
    assert |frame| == |body| + 4;
  }

  /** A frame is taken whole, and what follows it is left. */
  lemma TakesWhole(body: seq<byte>, tail: seq<byte>)
    requires 1 <= |body| <= 67_108_864
    ensures TakeMessage(Frame(Chunks(body)) + tail) == (Whole(body, |Frame(Chunks(body))|), tail)
  {
    hide Frame, Walk, Noops;
    var frame := Frame(Chunks(body));
    ChunksConcat(body);
    assert frame + tail + [] == frame + tail;
    WalkFrame(Chunks(body), 0, frame + tail, [], tail);
    TakeFrame(Chunks(body), frame + tail, [], tail);
    assert (frame + tail)[|frame|..] == tail;
  }

  lemma OneChunk(body: seq<byte>)
    requires 1 <= |body| <= 65_535
    ensures Frame(Chunks(body)) == [|body| / 256, |body| % 256] + body + [0, 0]
  {
    hide *;
    ChunkStep(body);
    NoChunk();
    assert body[..|body|] == body && body[|body|..] == [];
    FullSize(body);
  }

  lemma NoChunk()
    ensures Frame(Chunks([])) == [0, 0]
  {
  }

  lemma FullSize(body: seq<byte>)
    requires |body| <= 65_535
    ensures ChunkSize(|body|) == |body| && Length(|body|) == [|body| / 256, |body| % 256]
  {
  }

  /** A longer body goes on after a full chunk, and its frame is taken whole up to 64 MiB. */
  lemma LongFrameBytes(body: seq<byte>, tail: seq<byte>)
    requires 65_535 < |body|
    ensures Frame(Chunks(body)) == [0xFF, 0xFF] + body[..65_535] + Frame(Chunks(body[65_535..]))
    ensures TakeMessage(Frame(Chunks(body)) + tail) ==
      if |body| <= 67_108_864 then (Whole(body, |Frame(Chunks(body))|), tail)
      else (TooLong, Frame(Chunks(body)) + tail)
  {
    hide Frame, TakeMessage;
    var frame := Frame(Chunks(body));
    ChunkStep(body);
    ChunksConcat(body);
    if |body| <= 67_108_864 {
      TakesWhole(body, tail);
    } else {
      assert frame + tail + [] == frame + tail;
      WalkFrame(Chunks(body), 0, frame + tail, [], tail);
      RefusedWhole(frame + tail);
    }
  }

  lemma RefusedWhole(buf: seq<byte>)
    requires |buf| >= 2 && buf[0] != 0 && Walk(buf, 0) == TooLong
    ensures TakeMessage(buf) == (TooLong, buf)
  {
    hide Walk;
    assert Noops(buf) == 0;
    assert buf[0..] == buf;
  }

  /** What any two bytes at a chunk boundary mean, `total` bytes into a message. */
  lemma WalkBytes(buf: seq<byte>, total: nat)
    requires |buf| >= 2
    ensures var n := buf[0] as int * 256 + buf[1];
      Walk(buf, total)
      == if n == 0 then Whole([], 2)
         else if total + n > 67_108_864 then TooLong
         else if |buf| < 2 + n then Partial
         else match Walk(buf[2 + n..], total + n)
              case Whole(body, used) => Whole(buf[2..2 + n] + body, 2 + n + used)
              case c => c
    ensures buf[0] == 0 && buf[1] == 0 ==> TakeMessage(buf) == TakeMessage(buf[2..])
  {
    if buf[0] == 0 && buf[1] == 0 {
      TakeNoop(buf);
    }
  }

  // ---- whole runs ----

  /** The connection's view of a stream: bytes arrive in pieces, messages are taken at any time. */
  datatype Event = Arrive(bytes: seq<byte>) | Take

  datatype Progress = Progress(buf: seq<byte>, bodies: seq<seq<byte>>, failed: bool)

  /** The buffer and the bodies taken after `events`; a message past the limit ends the run. */
  function Run(buf: seq<byte>, events: seq<Event>): Progress
    decreases events
  {
    if events == [] then Progress(buf, [], false)
    else if events[0].Arrive? then Run(buf + events[0].bytes, events[1..])
    else match TakeMessage(buf)
         case (Whole(body, _), buf') =>
           var later := Run(buf', events[1..]);
           later.(bodies := [body] + later.bodies)
         case (Partial, buf') => Run(buf', events[1..])
         case (TooLong, buf') => Progress(buf', [], true)
  }

  function Arrived(events: seq<Event>): seq<byte> {
    if events == [] then []
    else (if events[0].Arrive? then events[0].bytes else []) + Arrived(events[1..])
  }

  /**
   * However a valid stream is cut into reads and whenever messages are asked for, the bodies
   * taken so far are the stream's first ones, in order, and nothing else is lost: the buffer
   * and the bytes still to come are exactly the rest of the stream.
   */
  lemma {:induction false} AnyFragmentation(buf: seq<byte>, events: seq<Event>, unread: seq<byte>, items: seq<Item>)
    returns (rest: seq<Item>)
    requires ValidItems(items) && NoneTooLong(items) && buf + Arrived(events) + unread == Wire(items)
    ensures var r := Run(buf, events);
            && !r.failed
            && ValidItems(rest) && NoneTooLong(rest) && r.buf + unread == Wire(rest)
            && Bodies(items) == r.bodies + Bodies(rest)
    decreases events
  {
    hide TakeMessage, Wire, Bodies;
    if events == [] {
      rest := items;
      assert buf + [] == buf;
    } else if events[0].Arrive? {
      assert buf + Arrived(events) == buf + events[0].bytes + Arrived(events[1..]);
      rest := AnyFragmentation(buf + events[0].bytes, events[1..], unread, items);
    } else {
      assert Arrived(events) == Arrived(events[1..]);
      assert buf + (Arrived(events[1..]) + unread) == Wire(items);
      var rest0 := TakeFromStream(buf, Arrived(events[1..]) + unread, items);
      var buf' := TakeMessage(buf).1;
      assert buf' + Arrived(events[1..]) + unread == Wire(rest0);
      rest := AnyFragmentation(buf', events[1..], unread, rest0);
    }
  }

  function Takes(n: nat): seq<Event> {
    if n == 0 then [] else [Take] + Takes(n - 1)
  }

  /** Once a whole stream has arrived, asking often enough yields every body, in order. */
  lemma AllDelivered(buf: seq<byte>, events: seq<Event>, items: seq<Item>, n: nat)
    requires ValidItems(items) && NoneTooLong(items) && buf + Arrived(events) == Wire(items) && n >= |Bodies(items)|
    ensures Run(buf, events + Takes(n)).bodies == Bodies(items)
  {
    hide TakeMessage, Wire, Bodies, Takes;
    assert buf + Arrived(events) + [] == Wire(items);
    var rest := AnyFragmentation(buf, events, [], items);
    var r := Run(buf, events);
    assert r.buf + [] == r.buf;
    RunAppend(buf, events, Takes(n));
    Drain(r.buf, rest, n);
  }

  lemma {:induction false} RunAppend(buf: seq<byte>, first: seq<Event>, second: seq<Event>)
    requires !Run(buf, first).failed
    ensures var r := Run(buf, first); Run(buf, first + second).bodies == r.bodies + Run(r.buf, second).bodies
    decreases first
  {
    hide TakeMessage;
    if first == [] {
      assert first + second == second;
    } else {
      assert (first + second)[1..] == first[1..] + second;
      RunAppend(if first[0].Arrive? then buf + first[0].bytes else TakeMessage(buf).1, first[1..], second);
    }
  }

  lemma {:induction false} Drain(buf: seq<byte>, items: seq<Item>, n: nat)
    requires ValidItems(items) && NoneTooLong(items) && buf == Wire(items) && n >= |Bodies(items)|
    ensures Run(buf, Takes(n)).bodies == Bodies(items)
    decreases n
  {
    hide TakeMessage, Wire;
    if n > 0 {
      assert buf + [] == buf;
      var rest := TakeFromStream(buf, [], items);
      var buf' := TakeMessage(buf).1;
      assert buf' + [] == buf';
      Drain(buf', rest, n - 1);
    }
  }

  /** A decision once made stands, whatever arrives later, on any byte stream at all. */
  lemma {:induction false} WalkStable(buf: seq<byte>, more: seq<byte>, total: nat)
    requires !Walk(buf, total).Partial?
    ensures Walk(buf + more, total) == Walk(buf, total)
  {
    var size := Header(buf);
    assert Header(buf + more) == size;
    if size > 0 && total + size <= MAX_MESSAGE {
      var n := 2 + size;
      assert (buf + more)[2..n] == buf[2..n] && (buf + more)[n..] == buf[n..] + more;
      WalkStable(buf[n..], more, total + size);
    }
  }

  /** An incomplete message holds at most three bytes per body byte the limit still allows. */
  lemma {:induction false} WalkBound(buf: seq<byte>, total: nat)
    requires total <= MAX_MESSAGE && Walk(buf, total).Partial?
    ensures |buf| <= 3 * (MAX_MESSAGE - total) + 1
  {
    if |buf| >= 2 && |buf| >= 2 + Header(buf) {
      WalkBound(buf[2 + Header(buf)..], total + Header(buf));
    }
  }

  /** Whatever a peer sends and however it is chunked, what stays buffered is bounded. */
  lemma BufferBound(buf: seq<byte>)
    requires TakeMessage(buf).0.Partial?
    ensures |TakeMessage(buf).1| <= 3 * 67_108_864 + 1
  {
    WalkBound(buf[2 * Noops(buf)..], 0);
  }
}
