# boltwire in Dafny

A model of the hard parts of boltwire, an asynchronous Rust client for the Bolt protocol, with
proofs about them:

- **Values and PackStream** (`Bytes`, `Unicode`, `Values`, `PackStream`, `Octets`, `PackStreamLaws`,
  `Reencoding`, `Codec`): the encoder and the cursor-based decoder as methods over a byte buffer, proved against
  a specification (`Pack`, `Parse`) that is then shown to round-trip with any tail, to be
  prefix-free and local, and never to grow when something decoded is encoded again. A map is a
  value without order; a `Tree` is a value together with the order in which each of its maps is
  enumerated, so what holds for every tree holds for every `HashMap` order.
- **Chunking** (`Framing`, `Wire`): cutting messages out of a read buffer that fills up in any
  pieces, and the one buffer that pipelined requests are written in.
- **The session** (`Message`, `Vocabulary`, `Peer`, `Connection`, `Streams`, `Transactions`, `Programs`, `Exchanges`): one
  connection with its flags `broken`, `needsReset` and `pending`, the operations on it, batched
  record streams and explicit transactions. Every await is a point where the method may stop with
  `Cancelled`: inside a write some prefix of the bytes is out and `broken` stays set; inside a read
  nothing is lost. A cancelled future is not resumed, so what a method guarantees for `Cancelled`
  is the state its caller finds.
- **The pool** (`PoolSteps`, `Pools`): all users interleaved step by step, and the operations on
  real connections with other users getting in between at each await.
- **URIs and addresses** (`Uri`) and **the cluster pool** (`Routed`).
- What is on the wire is also stated in literals, apart from the functions that print and read it:
  `Octets` gives every value's bytes, `Vocabulary` the signatures, fields and keys of every message,
  `Framing.FrameBytes` a frame, `Uri.Spelt` two whole URIs.
- `Division` has the arithmetic facts about division that two of these need.

## The peer

`Net` is a ghost record of what a connection has exchanged: the requests that were completely
written, by id, the answer each one got, how far the client has consumed them, and how far it had
when each request went out. `Synced` says
that the bytes received and under way spell exactly the answers not consumed yet, in any chunking
and with any NOOPs between messages. The peer follows the Bolt message and server state
specifications (sections "Pipelining", "RUN", "PULL", "DISCARD", "RESET" and "Chunking"): it
answers every request in order with RECORDs (a PULL's only) and one summary, ignores requests after
a FAILURE until a RESET, and answers a RESET with SUCCESS. A PULL gets, and a DISCARD drops, no more
rows than its own `n` says, and either says whether rows are left. Which answer, of those `Legal` allows,
is open. An answer is chosen when its request is complete; when its bytes arrive, and in what
pieces, is open, and the client never sees an answer before that. An IGNORED outside the failed
state is a request overtaken by a later RESET. A peer that sends something undecodable is at
fault, and the client breaks the connection. A peer that fails a RESET is not modelled.

The main invariant is `BoltConnection.Valid`: unless the connection is broken, its bytes and the
answers owed are in sync, `pending` is exactly the number of requests whose summary has not been
consumed, and the bytes ever written are exactly the framing of the requests made.
`Programs.UseSession` is any program over a session: any operations in any order, ending anyhow,
with streams and transactions used for any number of steps and then finished or dropped.

## Where the code falls short of its promise

- A `Bytes` value of 2^32 bytes or more is encoded with a truncated length. `RoundTripExactly`:
  a value round-trips if and only if it has no such part; `HugeBytesLost` is one that does not.
- `Transaction::rollback` does not check for a statement that was cut off. `TryRollback`: it takes
  its own reply if and only if none was owed when it was called; `RollbackTakesStaleReply` is an
  exchange in which it takes that of a RUN.
- A FAILURE inside a transaction's stream RESETs the session without marking the transaction done.
  `AfterStream`: a transaction that is still usable is one the session is in if and only if no call
  of the stream gave a server failure. `StreamThenRun` goes on: the next statement that succeeds is
  an auto-commit one exactly if one did and the session looked ready. `FailureEscapes` is an
  exchange for it, and `EscapedTransaction` a valid transaction that holds what it leaves behind. A
  COMMIT does not succeed (`TryCommit`).
- `RecordStream::next` cancelled between reading a PULL's FAILURE and the reply to the RESET after it
  never shows that failure: the next call reports the end of the stream although rows are missing,
  and `finish` gives empty metadata. `FailureCutOff` is such an exchange. `Next`: when the
  end is reported, the server refused a request of the stream if and only if an earlier call gave a
  server failure or the session does not look ready; otherwise all rows were returned. In particular
  (`Collect`) they all were if no call before failed or was cancelled. `Finish` gives empty metadata
  under the same condition.
- An address is read back if and only if its host is `Addressable`; `DoubleBracket` is a URI that
  is accepted whose address is not. `UriRoundTrip` and `Reprinted` say exactly when a configuration
  survives printing and reading.
- A lap over the servers of a role tries each exactly once if and only if the cursor does not wrap
  within it or the number of servers divides 2^64 (`LapIsFair`). So a checkout that reached nobody
  empties the role under that condition, and, if the router lists no server twice, only under it
  (`Acquire`).
- After `Pool::close`, connections may still become idle: `StaysEmpty` says that this happens
  exactly if somebody has passed the check that the pool is open and not pushed yet.

## Model

| member | source | states |
|---|---|---|
| Codec.PackValue | src/packstream.rs:52-81 | appends an encoding of the value under some enumeration of its maps; refuses exactly the values with a part of 2^32 or more items, entries or text bytes |
| Codec.PackSeq | src/packstream.rs:84-89 | packs the items back to back, or stops at the first that cannot be packed |
| Codec.PackMap | src/packstream.rs:92-99 | packs a map in whatever order its keys come, each exactly once |
| Codec.PackHeader | src/packstream.rs:148-174 | the header of a given kind and size, refused from 2^32 |
| Codec.PackBytes | src/packstream.rs:136-146 | bytes with the narrowest length, truncated to 32 bits |
| Codec.PackText | src/packstream.rs:129-134 | a string with its header, refused from 2^32 bytes |
| Codec.PackStruct | src/packstream.rs:66-78 | field count, signature, fields |
| Octets.ScalarBytes | src/packstream.rs:53-57 | null is C0, true C3, false C2, and a double C1 and its eight bytes |
| Octets.IntBytes | src/packstream.rs:107-127 | the bytes of every integer: one byte for -16..127, else C8, C9, CA or CB and its two's complement, high byte first, in the narrowest width |
| Octets.StringBytes | src/packstream.rs:129-134 | the bytes of every string, with its header in each of four widths |
| Octets.BlobBytes | src/packstream.rs:136-146 | the bytes of every byte string, with its header in each of three widths, the widest cut to 32 bits |
| Octets.ListBytes | src/packstream.rs:61-64 | a list's header in each width, and then its items |
| Octets.MapBytes | src/packstream.rs:92-99 | a map's header in each width, and then its entries |
| Octets.StructBytes | src/packstream.rs:66-78 | a structure's header in each width, its signature, and then its fields |
| Octets.MemberBytes | src/packstream.rs:84-89 | members follow each other, first to last |
| Octets.EntryBytes | src/packstream.rs:94-97 | entries follow each other, each its key and then its value |
| Codec.Reader.Take | src/packstream.rs:187-202 | the next bytes and no more, or an error that leaves the cursor where it was; never past the end |
| Codec.Reader.Size | src/packstream.rs:208-216 | a big-endian length of one, two or four bytes |
| Codec.Reader.UnpackValue | src/packstream.rs:219-292 | decodes exactly what the specification decodes, moves the cursor exactly past it, and fails exactly when it fails |
| Codec.Reader.UnpackN | src/packstream.rs:312-318 | a counted run of values, as the specification parses it |
| Codec.Reader.UnpackMap | src/packstream.rs:324-338 | fills a map entry by entry; a later duplicate key wins; keys must be strings |
| Codec.Reader.UnpackStruct | src/packstream.rs:340-346 | signature, then the fields |
| Codec.Reader.UnpackString | src/packstream.rs:294-299 | text, refused if it is not UTF-8 |
| Codec.Reader.UnpackBytes | src/packstream.rs:301-305 | bytes with a length of the given width |
| Octets.ReadsScalar | src/packstream.rs:219-257 | what the one-byte integers, null, booleans and doubles are read as |
| Octets.ReadsInt | src/packstream.rs:258-274 | what an integer of each width is read as, needed or not, sign included, and that a cut one is refused |
| Octets.ReadsNothing | src/packstream.rs:187-292 | an empty input, every marker that does not exist and every size that is cut off are refused, each with its error |
| Octets.ReadsString | src/packstream.rs:294-299 | a string in each width: its text, or refused if it is cut off or not UTF-8 |
| Octets.ReadsBlob | src/packstream.rs:301-305 | bytes in each width, or refused if they are cut off |
| Octets.ReadsList | src/packstream.rs:320-322 | a list in each width is as many values as its header says |
| Octets.ReadsMap | src/packstream.rs:324-338 | a map in each width is as many entries as its header says |
| Octets.ReadsStruct | src/packstream.rs:340-346 | a structure in each width is the byte after its header and as many values as that says |
| Octets.ReadsMembers | src/packstream.rs:312-318 | values are read one after the other, and the first error ends it |
| Octets.ReadsEntry | src/packstream.rs:326-336 | a key and its value are read in turn, and a key that is not a string is refused |
| Octets.MembersStand | src/packstream.rs:312-318 | the items of the value read are those of the tree, in order |
| Octets.EntryStands | src/packstream.rs:335-335 | an entry is in the map read unless a later one has its key |
| Octets.OneForEach | src/packstream.rs:92-99 | a map that is packed has as many entries as keys |
| Unicode.Utf8IsScalars | src/packstream.rs:294-299 | the texts accepted are exactly the encodings of sequences of Unicode scalar values |
| PackStreamLaws.IntRoundTrip | src/packstream.rs:107-127 | every 64-bit integer, in the narrowest of its five widths, is read back with any tail |
| PackStreamLaws.SizedRoundTrip | src/packstream.rs:148-174 | every header below 2^32 is read back as its kind and size with any tail |
| PackStreamLaws.HeadMinimal | src/packstream.rs:107-174 | no accepted header is shorter than the one written for what it says |
| PackStreamLaws.ParseShrinks | src/packstream.rs:219-346 | whatever is accepted encodes in at most the bytes it took, over-wide headers and integers included |
| Reencoding.RoundTrip | src/packstream.rs:52-171 | any value within the 32-bit limits, in any map order and before any bytes, is decoded to itself with the cursor at exactly those bytes |
| Reencoding.RoundTripExactly | src/packstream.rs:136-146 | what can be packed round-trips if and only if it holds no bytes of 2^32 or more |
| Reencoding.HugeBytesLost | src/packstream.rs:143-143 | bytes whose encoding is read back as something else |
| Reencoding.UnpackLocal | src/packstream.rs:187-202 | what is decoded depends only on the bytes consumed |
| Reencoding.StrictPrefixRejected | src/packstream.rs:187-202 | no strict prefix of an encoding is accepted |
| Reencoding.PrefixFree | src/packstream.rs:52-81 | encodings of different values differ, and neither starts the other |
| Reencoding.ReencodingNeverGrows | src/packstream.rs:219-346 | whatever was decoded can be packed, in no more bytes than it was decoded from, and decodes to itself again; duplicate keys included |
| Reencoding.DecodedSizeBound | src/packstream.rs:307-318 | a decoded value has at most as many nodes, keys included, as bytes consumed, whatever its headers claim |
| Framing.ChunksConcat | src/connection.rs:629-634 | the chunks of a body are legal chunks and put together are the body |
| Framing.FrameBytes | src/connection.rs:628-635 | a body of up to 65535 bytes is framed as its length, high byte first, itself and two zeros, and taken from that with anything after it left alone |
| Framing.LongFrameBytes | src/connection.rs:629-634 | a longer one starts with a chunk FF FF, and its frame is taken whole up to 64 MiB and refused beyond |
| Framing.WalkBytes | src/connection.rs:570-590 | what any two bytes at a chunk boundary mean: the end, a chunk of that size, one that is not all there, or one too many; two zeros before a message are dropped |
| Framing.TakeFromStream | src/connection.rs:558-599 | on any buffered part of a stream, cutting takes the next body or, if it is not all there, at most leading NOOPs |
| Framing.AnyFragmentation | src/connection.rs:531-608 | however a stream is cut into arrivals and however often a message is asked for, the bodies taken are the first ones sent, in order, and nothing of the rest is lost |
| Framing.AllDelivered | src/connection.rs:531-608 | once all has arrived, asking as often as there are messages delivers exactly the bodies sent |
| Framing.WalkStable | src/connection.rs:570-590 | a message cut or refused is the same however many bytes arrived after it |
| Framing.BufferBound | src/connection.rs:580-590 | an incomplete message leaves at most 3 * 64 MiB + 1 bytes buffered, in any chunk sizes |
| Framing.FrameFitsReserve | src/connection.rs:628-635 | a framed body fits the capacity reserved for it |
| Wire.Encode | src/connection.rs:618-637 | appends one frame whose body decodes to the request, in no more bytes than were reserved for that body, or nothing; a body that fits one chunk is framed by its length, high byte first, and two zeros |
| Wire.DecodeBody | src/connection.rs:639-648 | a body is read with the cursor-based decoder as the reply the specification decodes, or refused with it |
| Wire.EncodeAll | src/connection.rs:510-513 | one buffer with the frames of all requests in order |
| Wire.CarriedDecodes | src/packstream.rs:340-346 | the body of an encoded request decodes to its signature and fields |
| Vocabulary.StatementRequests | src/message.rs:86-140 | RUN is 10 with query, parameters and extra, BEGIN 11 with extra, ROUTE 66 with context, no bookmarks and extra |
| Vocabulary.StreamRequests | src/message.rs:104-121 | PULL is 3F and DISCARD 2F, each with a map of `n` and, if there is one, `qid` |
| Vocabulary.BareRequests | src/message.rs:8-13 | COMMIT is 12, ROLLBACK 13, RESET 0F and GOODBYE 02, without fields |
| Vocabulary.RequestBytes | src/connection.rs:621-627 | a body that carries a request is its number of fields, its signature and the fields |
| Vocabulary.BareBytes | src/connection.rs:618-637 | what goes out for a request without fields: 00 02 B0, its signature, 00 00 |
| Vocabulary.ReplySays | src/message.rs:176-206 | what a structure says as a reply: 70 is SUCCESS with the map that is its last field, 71 RECORD with the list that is its last field, 7E IGNORED, 7F FAILURE with the texts under `code` and `message` or their defaults; anything else is refused |
| Vocabulary.MetaSays | src/connection.rs:351-353 | `has_more`, `qid` and `bookmark` are read from those keys, and the column names are the strings among the list under `fields`, in order |
| Vocabulary.RowBytes | src/message.rs:179-182 | the body B1 71 92 a b is the row of those two integers |
| Wire.EndToEnd | src/connection.rs:508-517 | the buffer written for any requests, arriving in any pieces, gives exactly those requests at the other end |
| Peer.OwedFirst | src/connection.rs:601-614 | the next body owed is a record of the open answer or its summary, and taking it leaves exactly the rest owed |
| Peer.ConsumeSynced | src/connection.rs:601-614 | taking a message off the stream consumes the next reply owed, keeping stream and debt in step |
| Peer.PullStarts | src/connection.rs:842-848 | a PULL on a stream puts under way rows that continue those the client has |
| Peer.PullSummary | src/connection.rs:852-863 | at a PULL's summary all its records have been consumed, and with what the server still holds they are all rows |
| Peer.ResetAnswer | src/connection.rs:479-487 | the one reply to a RESET is its SUCCESS, which leaves the server READY |
| Connection.BoltConnection.constructor | src/connection.rs:185-212 | an established session is in sync and READY |
| Connection.BoltConnection.WriteBytes | src/connection.rs:521-527 | all bytes are out and the connection intact, or a prefix is and it is broken |
| Connection.BoltConnection.Fill | src/connection.rs:531-554 | moves a non-empty piece of the stream into the buffer, or changes nothing; a hang-up breaks the connection |
| Connection.BoltConnection.TakeMessage | src/connection.rs:558-599 | computes the specification of cutting a message, and breaks the connection exactly if the message is too long |
| Connection.BoltConnection.ReadMessage | src/connection.rs:601-614 | a result is the next reply owed, and exactly a summary lowers `pending`, which was positive; without a result nothing is consumed unless the connection broke; broken, nothing is read |
| Connection.BoltConnection.WriteMessages | src/connection.rs:508-517 | all requests are written, answerable and counted, or none is counted and only a broken connection may have sent bytes |
| Connection.BoltConnection.Reset | src/connection.rs:472-490 | success means that 00 02 B0 0F 00 00 was written, every reply owed and RESET's own were consumed, nothing is owed, and the session is READY; otherwise `needsReset` is as it was and the session not ready |
| Connection.BoltConnection.EnsureClean | src/connection.rs:216-222 | afterwards nothing is owed and the server is READY, or the operation fails |
| Connection.BoltConnection.FailReset | src/connection.rs:301-304 | gives the failure as the error, and leaves the session READY or not looking ready |
| Connection.BoltConnection.SendRunPull | src/connection.rs:337-360 | a result is that of its own RUN, columns and `qid`, with all rows of the statement under way or still at the server |
| Connection.BoltConnection.RunInner | src/connection.rs:364-387 | columns and records are exactly those of its own RUN and PULL |
| Connection.BoltConnection.RunWith | src/connection.rs:317-330 | the same for an auto-commit statement, whatever was owed before: each record is the list in the RECORD body it was read from, in order, and the columns are those of its RUN's SUCCESS; a server failure it reports answered one of its own requests; however it ends, a session that looks ready is READY |
| Connection.BoltConnection.Route | src/connection.rs:449-468 | the metadata is that of its own ROUTE's SUCCESS |
| Connection.BoltConnection.Close | src/connection.rs:493-499 | GOODBYE, 00 02 B0 02 00 00, is the last thing written unless the connection is broken, and is not counted |
| Connection.ResetReply | src/connection.rs:475-487 | the reply after which nothing is owed is RESET's own SUCCESS, never an earlier request's |
| Connection.CollectsAll | src/connection.rs:375-386 | when the PULL's SUCCESS is read, the records collected are all of the statement's |
| Streams.RecordStream.FetchBatch | src/connection.rs:842-874 | sends a PULL only if none is under way; cancelled, it keeps the rows received and may be called again |
| Streams.RecordStream.Next | src/connection.rs:829-840 | returns the statement's rows once each and in order through any schedule of cancelled and repeated calls; the end, when it is reported, comes too early if and only if the server refused a request of the stream, which is if and only if an earlier call gave a server failure or the session does not look ready; otherwise all rows were returned, the session is READY, and against a server that fills its batches exactly max(1, ceil(N / batch)) PULLs were sent; a call that reads a FAILURE never gives a result |
| Streams.RecordStream.Finish | src/connection.rs:877-913 | no row is left at the server and the metadata is that of the last summary, which says so; or it is empty after a failed PULL, which was so if and only if a call gave a server failure or the session does not look ready; the session is left READY or to be RESET |
| Streams.RecordStream.Drop | src/connection.rs:916-922 | a stream that is not done leaves the session to be RESET |
| Streams.RunStreamWith | src/connection.rs:401-424 | an accepted batch size opens a stream on its own statement |
| Streams.Collect | src/connection.rs:829-840 | any schedule of calls collects a prefix of the rows `run` would; once the end is reported, nothing was refused and these are all rows exactly if no call gave a server failure and the session looks ready, which is so if every call gave a result |
| Streams.RecordRead | src/connection.rs:851-851 | a record read moves from the rows under way to those the client has |
| Streams.SummaryRead | src/connection.rs:852-863 | after a batch, the rows the client has and those at the server are the whole result, and earlier batches were full |
| Streams.PullsAre | src/connection.rs:842-863 | the number of PULLs that fits full batches and a drained stream is max(1, ceil(N / batch)) |
| Transactions.BeginWith | src/connection.rs:433-445 | the transaction is open on a session that its own BEGIN's SUCCESS left in it |
| Transactions.Transaction.GuardOpen | src/connection.rs:693-707 | succeeds exactly if nothing went wrong before |
| Transactions.Transaction.Run | src/connection.rs:711-725 | columns and records are its own, as read from the bodies; anything but success, cancellation included, leaves the transaction dead; dead, nothing is sent |
| Transactions.Transaction.RunStream | src/connection.rs:729-761 | the same for opening a stream, which is of its own statement |
| Transactions.Transaction.AfterStream | src/connection.rs:864-867 | after a stream the transaction is dead, or every request of the stream ended well and the session is in the transaction if and only if the stream was in it and no call of it gave a server failure; a failed stream on a session that looks ready leaves the transaction usable outside itself |
| Exchanges.RollbackTakesStaleReply | src/connection.rs:775-785 | from any session in a transaction that owes nothing, an exchange in which ROLLBACK takes the reply to a cancelled RUN while its own is still owed |
| Exchanges.FailureEscapes | src/connection.rs:864-867 | from any such session, an exchange in which a stream's PULL fails and the RESET succeeds, after which nothing is owed and the next RUN opens no stream in a transaction |
| Exchanges.StreamThenRun | src/connection.rs:711-761 | after any calls of a stream in a transaction, the next statement that succeeds in it ran outside it exactly if a call gave a server failure and the session looked ready after it |
| Exchanges.FailureCutOff | src/connection.rs:864-867 | from any session that owes nothing, an exchange in which a PULL gives one of several rows and then FAILURE, the client reads that, and is cut off with nothing but the reply to its RESET still to come |
| Transactions.Transaction.TryCommit | src/connection.rs:764-771 | dead, nothing is sent; success means that 00 02 B0 12 00 00 was written and got its own SUCCESS, in the transaction, with its bookmark |
| Transactions.Transaction.TryRollback | src/connection.rs:775-785 | success means that 00 02 B0 13 00 00 was written; it took its own reply if and only if none was owed |
| Transactions.Transaction.Drop | src/connection.rs:798-804 | a transaction that is not done leaves the session to be RESET |
| Programs.UseTransaction | src/connection.rs:693-804 | over any statements and any end: whenever a RUN or a COMMIT goes out, no reply is owed and every request of the transaction so far ended well, that is with SUCCESS and no rows left behind, except for a stream's failed PULL or DISCARD that was followed by a RESET |
| Programs.UseSession | src/connection.rs:216-254 | over any operations: a session that looks ready owes no reply and is READY, and every RUN and COMMIT went out when nothing was owed |
| PoolSteps.EveryRun | src/pool.rs:153-177 | at every point of every interleaving, idle connections and users probing, minting or holding one do not exceed the slots; mints started are accounted for exactly, and never exceed the slots plus those that failed and the connections that left |
| PoolSteps.UsableUntil | src/pool.rs:179-183 | a connection may be reused up to and including the ends of its idle time and its lifetime, where there are such limits |
| PoolSteps.StepBounded | src/pool.rs:96-96 | every permit is accounted for after every step |
| PoolSteps.StepConserved | src/pool.rs:260-277 | every step keeps every connection in exactly one place |
| PoolSteps.OnePlace | src/pool.rs:160-172 | no connection is held twice, or held and idle |
| PoolSteps.ClosedRun | src/pool.rs:122-129 | once closed, no permit is handed out and nothing adds to the connections idle or coming back |
| PoolSteps.StaysEmpty | src/pool.rs:267-270 | a closed and emptied pool stays empty if and only if nobody is between the check and the push |
| Pools.Pool.Checkout | src/pool.rs:153-177 | a connection handed out is in sync, READY and no longer idle; it is new, with an age counted from some time since the call, or it was on top of the idle list when it was taken, within both age limits at that moment, and a RESET was its last request; a closed pool hands out none |
| Pools.LastInFirstOut | src/pool.rs:163-163 | taking a connection right after one came back undoes that |
| Pools.TakenIsMissing | src/pool.rs:163-170 | the connection taken was last on the list and within both limits, and is missing from it afterwards |
| Pools.Pool.GiveBack | src/pool.rs:260-277 | only an intact connection that owes nothing is kept, and only while the pool is open |
| Pools.Pool.Close | src/pool.rs:122-129 | at some moment the idle list was emptied, and every connection on it then got a GOODBYE unless it broke and is not idle again |
| Pools.PooledConnection.Detach | src/pool.rs:242-244 | the connection leaves the pool's care |
| Pools.PooledConnection.Drop | src/pool.rs:260-277 | gives back what was not detached |
| Uri.AddrRoundTrip | src/uri.rs:103-109 | an address gives back its host, and with it its port, if and only if the host is addressable |
| Uri.HostPortGrammar | src/uri.rs:155-176 | a host and a port are found exactly in the texts that spell them: a bracketed host, or one without colons, and perhaps a colon and a port; anything else is refused |
| Uri.PortGrammar | src/uri.rs:156-156 | a port is read exactly from the number as it is printed, perhaps after zeros, and those perhaps after a plus |
| Uri.PortRoundTrip | src/uri.rs:156-156 | a printed port is read back |
| Uri.DecimalIs | src/uri.rs:103-109 | a number is printed in decimal digits |
| Uri.UriGrammar | src/uri.rs:64-100 | a URI is accepted, and as this configuration, exactly if it is put together from its parts with the separators in the right places |
| Uri.SchemeIs | src/uri.rs:18-29 | the scheme of an accepted URI is the one it starts with |
| Uri.Spelt | src/uri.rs:64-109 | a URI with every part and one with a bare IPv6 host, read, and their addresses, printed |
| Uri.QueryGrammar | src/uri.rs:88-91 | the database is that of the first item of the query, split at every `&`, that starts with `db=`, and there is none if none does |
| Uri.UriRoundTrip | src/uri.rs:64-100 | a configuration is read back from its URI if and only if nothing in a part ends it early and its host is addressable |
| Uri.Accepted | src/uri.rs:64-100 | what every accepted URI says is free of the separators that would end it early |
| Uri.Reprinted | src/uri.rs:64-109 | reading, printing and reading again gives the same configuration if and only if the host has a colon or no leading bracket |
| Uri.DoubleBracket | src/uri.rs:159-167 | an accepted URI whose address is refused |
| Routed.LapIsFair | src/routed.rs:292-294 | a lap tries each server exactly once if and only if the cursor does not wrap in it or the number of servers divides 2^64 |
| Routed.StartsEvenly | src/routed.rs:292-292 | any n * k consecutive checkouts start at each of n servers exactly k times, if the cursor does not wrap in between or n divides 2^64 |
| Routed.StartsEvenlyExactly | src/routed.rs:292-292 | up to 2^64 checkouts do so if and only if the cursor does not wrap in between, or n divides 2^64, or a multiple of n of them come after the wrap |
| Routed.RoutedPool.Lap | src/routed.rs:292-301 | servers are tried in cursor order until one answers or all are down, and nobody else is asked |
| Routed.RoutedPool.Try | src/routed.rs:295-300 | a server found down is in no role and has no pool, and any other has a pool |
| Routed.LapEmpties | src/routed.rs:293-301 | after a lap that found nobody no server tried has a pool or is in the role; none is left in it if the cursor did not wrap within the lap or the number of servers divides 2^64, and, for servers listed once, only if so |
| Routed.RoutedPool.Acquire | src/routed.rs:269-304 | whom a checkout asks, in which order and with what result: a lap over a fresh table, and if nobody answers a forced refresh and one more lap; a server asked for reading is a reader of the table fetched last before that, and one asked for writing a writer; the one handed out is the last one asked; when nobody is reachable no server tried has a pool, the last lap found every server of the new table's role down, and none is left in the role if the cursor did not wrap within that lap or the number of servers divides 2^64, and, for servers listed once, only if so |
| Routed.RoutedPool.Refresh | src/routed.rs:219-244 | known routers are asked in order and then the seeds, until one answers, whose table replaces the old one; otherwise nothing changes |
| Routed.RoutedPool.EnsureFresh | src/routed.rs:253-267 | nobody is asked while the table is fresh; a stale one is replaced |
| Routed.RoutedPool.FreshUntil | src/routed.rs:253-262 | a table is fresh until its time to live has passed since it was fetched, and without one never |
| Routed.RoutedPool.Evict | src/routed.rs:319-323 | the server is no longer a router, reader or writer and has no pool; the others are what they were |
| Routed.RoutedPool.Committed | src/routed.rs:200-208 | merges a commit's bookmark |
| Routed.BookmarksKept | src/routed.rs:200-208 | after any commits: no duplicates, at most 16, none made up, and the latest is among them |
| Routed.BookmarkSurvives | src/routed.rs:202-207 | a bookmark outlives any fewer than 16 commits after its own |

## Left out

- Sockets, TLS, the handshake, HELLO and LOGON: a session starts established. Timeouts are errors that may come at any read.
- Serde conversion, value accessors, `TxOptions::into_meta` and the other request builders: the metadata maps are arbitrary.
- `RoutingTable::from_meta`: `Route` gives the metadata, and `Routed` takes tables as they come.
- Retry counts and backoff of `mint` and `execute`, and `execute` itself: a mint succeeds or fails, and `Committed` is the merge in `try_once`.
- UTF-8 decoding beyond validity, and floats, which are eight opaque bytes.
- `Pool::get` with an acquire timeout: a checkout that times out is one that is cancelled.
- Error texts, tracing and Debug output. An error says its kind, and a server failure its code and message.
- A `Transaction` or `RecordStream` that is leaked, so that its destructor never takes place.
- A server that answers a PULL with no rows and `has_more` although it holds rows: such a server could keep `Next` going for ever, and the model is one of calls that end.
- Capacity kept or given back by the read buffer, and the overflow check on a cursor plus a 32-bit length, which a 64-bit word cannot fail.
- Pools.Pool.Checkout: gives up at some point instead of probing for ever connections that others keep giving back. The others give back connections that were idle or that they minted since the call; one that was checked out before the call and comes back during it is not among them.
- Permits: they are counted in `PoolSteps`, where connections are only names; nothing relates that to the operations in `Pools`, whose connections are real.
- Routed.RoutedPool.Acquire: other users of the cluster pool do not get in between, and a server's own pool is an answer that comes back; `start + i` wraps as in a release build.
- Routed.StartsEvenlyExactly: not for more than 2^64 checkouts, in which the cursor may wrap more than once.
