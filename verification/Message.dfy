/** Request and response messages, each a PackStream structure on the wire. */
module Message {
  import opened Bytes
  import opened Values
  import opened PackStream

  const GOODBYE: byte := 0x02
  const RESET: byte := 0x0F
  const RUN: byte := 0x10
  const BEGIN: byte := 0x11
  const COMMIT: byte := 0x12
  const ROLLBACK: byte := 0x13
  const DISCARD: byte := 0x2F
  const PULL: byte := 0x3F
  const ROUTE: byte := 0x66

  const SUCCESS: byte := 0x70
  const RECORD: byte := 0x71
  const IGNORED: byte := 0x7E
  const FAILURE: byte := 0x7F

  type Meta = map<Text, Value>
  type Row = seq<Value>

  datatype Option<+T> = None | Some(value: T)

  datatype Request = Request(signature: byte, fields: seq<Value>)

  datatype Response =
    | Success(meta: Meta)
    | Record(values: Row)
    | Failure(code: Text, message: Text)
    | Ignored

  // ---- text literals ----

  lemma {:induction false} AsciiIsUtf8(s: seq<byte>)
    requires forall i :: 0 <= i < |s| ==> s[i] < 0x80
    ensures Utf8(s)
  {
    if s != [] {
      AsciiIsUtf8(s[1..]);
    }
  }

  function Ascii(s: string): (t: Text)
    requires forall i :: 0 <= i < |s| ==> s[i] < 128 as char
    ensures |t| == |s|
  {
    var bytes: seq<byte> := seq(|s|, i requires 0 <= i < |s| => s[i] as int);
    AsciiIsUtf8(bytes);
    bytes
  }

  const N_KEY: Text := Ascii("n")
  const QID_KEY: Text := Ascii("qid")
  const FIELDS_KEY: Text := Ascii("fields")
  const HAS_MORE_KEY: Text := Ascii("has_more")
  const BOOKMARK_KEY: Text := Ascii("bookmark")
  const CODE_KEY: Text := Ascii("code")
  const MESSAGE_KEY: Text := Ascii("message")
  const UNKNOWN_CODE: Text := Ascii("Unknown")
  const NO_MESSAGE: Text := Ascii("(no message)")

  // ---- requests ----

  function RunRequest(query: Text, parameters: Meta, extra: Meta): Request {
    Request(RUN, [Atom(String(query)), Map(parameters), Map(extra)])
  }

  function WithN(signature: byte, n: int64, qid: Option<int64>): Request {
    var meta: Meta := map[N_KEY := Atom(Int(n))];
    Request(signature, [Map(if qid.Some? then meta[QID_KEY := Atom(Int(qid.value))] else meta)])
  }

  function PullRequest(n: int64, qid: Option<int64>): Request {
    WithN(PULL, n, qid)
  }

  function DiscardRequest(n: int64, qid: Option<int64>): Request {
    WithN(DISCARD, n, qid)
  }

  function BeginRequest(extra: Meta): Request {
    Request(BEGIN, [Map(extra)])
  }

  function RouteRequest(context: Meta, extra: Meta): Request {
    Request(ROUTE, [Map(context), List([]), Map(extra)])
  }

  /** COMMIT, ROLLBACK, RESET and GOODBYE carry no fields. */
  function EmptyRequest(signature: byte): Request {
    Request(signature, [])
  }

  // ---- responses ----

  /** The last field, if it is a map. */
  function TakeMap(fields: seq<Value>): Meta {
    if fields != [] && fields[|fields| - 1].Map? then fields[|fields| - 1].m else map[]
  }

  function TextOf(meta: Meta, key: Text, default: Text): Text {
    if key in meta && meta[key].Atom? && meta[key].a.String? then meta[key].a.s else default
  }

  function FromStructure(signature: byte, fields: seq<Value>): Option<Response> {
    if signature == SUCCESS then Some(Success(TakeMap(fields)))
    else if signature == RECORD then
      Some(Record(if fields != [] && fields[|fields| - 1].List? then fields[|fields| - 1].items else []))
    else if signature == IGNORED then Some(Ignored)
    else if signature == FAILURE then
      var meta := TakeMap(fields);
      Some(Failure(TextOf(meta, CODE_KEY, UNKNOWN_CODE), TextOf(meta, MESSAGE_KEY, NO_MESSAGE)))
    else None
  }

  /** A message body as a response: anything that is not a structure with a known signature is refused. */
  function Decode(body: seq<byte>): Option<Response> {
    match Unpack(body)
    case Ok((Structure(signature, fields), _)) => FromStructure(signature, fields)
    case _ => None
  }

  /** A batch is complete or there is more: `has_more`, false if missing. */
  function HasMore(meta: Meta): bool {
    HAS_MORE_KEY in meta && meta[HAS_MORE_KEY] == Atom(Bool(true))
  }

  /** The column names a RUN's SUCCESS lists; items that are not strings are skipped. */
  function Columns(meta: Meta): seq<Text> {
    if FIELDS_KEY in meta && meta[FIELDS_KEY].List? then Strings(meta[FIELDS_KEY].items) else []
  }

  function Strings(items: seq<Value>): seq<Text> {
    if items == [] then []
    else (if items[0].Atom? && items[0].a.String? then [items[0].a.s] else []) + Strings(items[1..])
  }

  function Qid(meta: Meta): Option<int64> {
    if QID_KEY in meta && meta[QID_KEY].Atom? && meta[QID_KEY].a.Int? then Some(meta[QID_KEY].a.i) else None
  }

  /** The bookmark a COMMIT's SUCCESS carries. */
  function Bookmark(meta: Meta): Option<Text> {
    if BOOKMARK_KEY in meta && meta[BOOKMARK_KEY].Atom? && meta[BOOKMARK_KEY].a.String? then
      Some(meta[BOOKMARK_KEY].a.s)
    else None
  }
}
