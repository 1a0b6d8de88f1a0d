/**
 * PackStream version 1 as functions: `Pack` prints a tree, `Parse` reads one back from the
 * front of a byte sequence and says how many bytes it used.
 */
module PackStream {
  import opened Bytes
  import opened Values

  datatype Kind = KString | KList | KMap | KStruct | KBytes

  /** A decoded marker: a whole small value, or the kind and claimed size of what follows. */
  datatype Head = Scalar(a: Atom) | Sized(kind: Kind, n: nat)

  datatype DecodeError = UnexpectedEnd | UnknownMarker(marker: byte) | InvalidUtf8 | KeyNotString

  const NULL: byte := 0xC0
  const FLOAT_64: byte := 0xC1
  const FALSE: byte := 0xC2
  const TRUE: byte := 0xC3
  const INT_8: byte := 0xC8
  const INT_16: byte := 0xC9
  const INT_32: byte := 0xCA
  const INT_64: byte := 0xCB

  /** First of a kind's sixteen markers that hold the size in the low nibble. */
  function TinyMarker(kind: Kind): (m: byte)
    requires kind != KBytes
    ensures m % 16 == 0 && 0x80 <= m <= 0xB0
  {
    match kind
    case KString => 0x80
    case KList => 0x90
    case KMap => 0xA0
    case KStruct => 0xB0
  }

  /** A kind's marker for a one-byte size; the two- and four-byte ones follow it. */
  function Marker8(kind: Kind): (m: byte)
    ensures 0xCC <= m <= 0xDC
  {
    match kind
    case KBytes => 0xCC
    case KString => 0xD0
    case KList => 0xD4
    case KMap => 0xD8
    case KStruct => 0xDC
  }

  // ---- printing ----

  /**
   * A container header. `% U32_LIMIT` is the unchecked cast `pack_bytes` makes; the other
   * kinds refuse sizes that do not fit before they get here.
   */
  function PackHead(kind: Kind, n: nat): (s: seq<byte>)
    ensures 1 <= |s| <= 5
  {
    if kind != KBytes && n < 16 then [TinyMarker(kind) + n]
    else if n < 256 then [Marker8(kind), n]
    else if n < 65_536 then [Marker8(kind) + 1] + BE(n, 2)
    else [Marker8(kind) + 2] + BE(n % U32_LIMIT, 4)
  }

  function PackInt(i: int64): (s: seq<byte>)
    ensures 1 <= |s| <= 9
  {
    Widths();
    if -16 <= i <= 127 then SignedBE(i, 1)
    else if -128 <= i <= 127 then [INT_8] + SignedBE(i, 1)
    else if -32_768 <= i <= 32_767 then [INT_16] + SignedBE(i, 2)
    else if -2_147_483_648 <= i <= 2_147_483_647 then [INT_32] + SignedBE(i, 4)
    else [INT_64] + SignedBE(i, 8)
  }

  /** The bytes `ParseHead` reads back as `head`. */
  function HeadBytes(head: Head): (s: seq<byte>)
    ensures 1 <= |s| <= 9
  {
    match head
    case Sized(kind, n) => PackHead(kind, n)
    case Scalar(Bool(b)) => [if b then TRUE else FALSE]
    case Scalar(Int(i)) => PackInt(i)
    case Scalar(Float(bits)) => [FLOAT_64] + bits
    case Scalar(_) => [NULL]
  }

  function AtomHead(a: Atom): Head {
    match a
    case String(s) => Sized(KString, |s|)
    case Bytes(data) => Sized(KBytes, |data|)
    case _ => Scalar(a)
  }

  function AtomRest(a: Atom): seq<byte> {
    match a
    case String(s) => s
    case Bytes(data) => data
    case _ => []
  }

  function HeadOf(t: Tree): Head {
    match t
    case Leaf(a) => AtomHead(a)
    case ListOf(items) => Sized(KList, |items|)
    case MapOf(entries) => Sized(KMap, Count(entries))
    case StructureOf(_, fields) => Sized(KStruct, |fields|)
  }

  function PackString(s: Text): (bytes: seq<byte>)
    ensures bytes != []
  {
    HeadBytes(Sized(KString, |s|)) + s
  }

  function Pack(t: Tree): (s: seq<byte>)
    ensures s != []
    decreases t, 1
  {
    HeadBytes(HeadOf(t)) + PackRest(t)
  }

  /** What follows the header. */
  function PackRest(t: Tree): seq<byte>
    decreases t, 0
  {
    match t
    case Leaf(a) => AtomRest(a)
    case ListOf(items) => PackAll(items)
    case MapOf(entries) => PackEntries(entries)
    case StructureOf(signature, fields) => [signature] + PackAll(fields)
  }

  function PackAll(ts: seq<Tree>): seq<byte>
    decreases ts
  {
    if ts == [] then [] else Pack(ts[0]) + PackAll(ts[1..])
  }

  function PackEntries(es: Entries): seq<byte>
    decreases es
  {
    if es.Nil? then [] else (PackString(es.key) + Pack(es.value)) + PackEntries(es.rest)
  }

  // ---- parsing ----

  /** `n` bytes at offset `k`. */
  function Take(s: seq<byte>, k: nat, n: nat): (r: Result<seq<byte>, DecodeError>)
    requires k <= |s|
    ensures r.Ok? <==> k + n <= |s|
    ensures r.Ok? ==> |r.value| == n
  {
    if k + n <= |s| then Ok(s[k..k + n]) else Err(UnexpectedEnd)
  }

  function ParseSize(kind: Kind, s: seq<byte>, w: nat): Result<(Head, nat), DecodeError>
    requires s != []
  {
    var b :- Take(s, 1, w);
    Ok((Sized(kind, FromBE(b)), 1 + w))
  }

  function ParseInt(s: seq<byte>, w: nat): Result<(Head, nat), DecodeError>
    requires s != [] && (w == 1 || w == 2 || w == 4 || w == 8)
  {
    var b :- Take(s, 1, w);
    Widths();
    Ok((Scalar(Int(FromSignedBE(b))), 1 + w))
  }

  /** The marker byte and the fixed-size payload that belongs to it. */
  function ParseHead(s: seq<byte>): (r: Result<(Head, nat), DecodeError>)
    ensures r.Ok? ==> 1 <= r.value.1 <= |s|
  {
    var first :- Take(s, 0, 1);
    var m: int := first[0];
    if m < 0x80 then Ok((Scalar(Int(m)), 1))
    else if m >= 0xF0 then Ok((Scalar(Int(m - 256)), 1))
    else if m < 0x90 then Ok((Sized(KString, m - 0x80), 1))
    else if m < 0xA0 then Ok((Sized(KList, m - 0x90), 1))
    else if m < 0xB0 then Ok((Sized(KMap, m - 0xA0), 1))
    else if m < 0xC0 then Ok((Sized(KStruct, m - 0xB0), 1))
    else if m == NULL then Ok((Scalar(Null), 1))
    else if m == TRUE then Ok((Scalar(Bool(true)), 1))
    else if m == FALSE then Ok((Scalar(Bool(false)), 1))
    else if m == FLOAT_64 then
      var bits :- Take(s, 1, 8);
      Ok((Scalar(Float(bits)), 9))
    else if m == INT_8 then ParseInt(s, 1)
    else if m == INT_16 then ParseInt(s, 2)
    else if m == INT_32 then ParseInt(s, 4)
    else if m == INT_64 then ParseInt(s, 8)
    else if m == 0xCC then ParseSize(KBytes, s, 1)
    else if m == 0xCD then ParseSize(KBytes, s, 2)
    else if m == 0xCE then ParseSize(KBytes, s, 4)
    else if m == 0xD0 then ParseSize(KString, s, 1)
    else if m == 0xD1 then ParseSize(KString, s, 2)
    else if m == 0xD2 then ParseSize(KString, s, 4)
    else if m == 0xD4 then ParseSize(KList, s, 1)
    else if m == 0xD5 then ParseSize(KList, s, 2)
    else if m == 0xD6 then ParseSize(KList, s, 4)
    else if m == 0xD8 then ParseSize(KMap, s, 1)
    else if m == 0xD9 then ParseSize(KMap, s, 2)
    else if m == 0xDA then ParseSize(KMap, s, 4)
    else if m == 0xDC then ParseSize(KStruct, s, 1)
    else if m == 0xDD then ParseSize(KStruct, s, 2)
    else if m == 0xDE then ParseSize(KStruct, s, 4)
    else Err(UnknownMarker(m))
  }

  /** The tree the front of `s` spells, and the number of bytes it takes up. */
  function Parse(s: seq<byte>): (r: Result<(Tree, nat), DecodeError>)
    ensures r.Ok? ==> 1 <= r.value.1 <= |s|
    decreases |s|, 0, 0
  {
    var (head, k) :- ParseHead(s);
    var (t, used) :- ParseRest(head, s[k..]);
    Ok((t, k + used))
  }

  /** The part of a tree that follows its header. */
  function ParseRest(head: Head, s: seq<byte>): (r: Result<(Tree, nat), DecodeError>)
    ensures r.Ok? ==> r.value.1 <= |s|
    decreases |s|, 2, 0
  {
    match head
    case Scalar(a) => Ok((Leaf(a), 0))
    case Sized(KString, n) =>
      var text :- Take(s, 0, n);
      if Utf8(text) then Ok((Leaf(String(text)), n)) else Err(InvalidUtf8)
    case Sized(KBytes, n) =>
      var data :- Take(s, 0, n);
      Ok((Leaf(Bytes(data)), n))
    case Sized(KList, n) =>
      var (items, used) :- ParseAll(s, n);
      Ok((ListOf(items), used))
    case Sized(KMap, n) =>
      var (entries, used) :- ParseEntries(s, n);
      Ok((MapOf(entries), used))
    case Sized(KStruct, n) =>
      var signature :- Take(s, 0, 1);
      var (fields, used) :- ParseAll(s[1..], n);
      Ok((StructureOf(signature[0], fields), 1 + used))
  }

  /** `n` trees back to back. */
  function ParseAll(s: seq<byte>, n: nat): (r: Result<(seq<Tree>, nat), DecodeError>)
    ensures r.Ok? ==> r.value.1 <= |s| && |r.value.0| == n
    decreases |s|, 1, n
  {
    if n == 0 then Ok(([], 0)) else
      var (t, k) :- Parse(s);
      var (ts, used) :- ParseAll(s[k..], n - 1);
      Ok(([t] + ts, k + used))
  }

  /** A tree that must be a string, then the value. */
  function ParseEntry(s: seq<byte>): (r: Result<(Text, Tree, nat), DecodeError>)
    ensures r.Ok? ==> 2 <= r.value.2 <= |s|
    decreases |s|, 1, 0
  {
    var (key, k) :- Parse(s);
    if !(key.Leaf? && key.a.String?) then Err(KeyNotString) else
      var (value, j) :- Parse(s[k..]);
      Ok((key.a.s, value, k + j))
  }

  /** `n` entries back to back. */
  function ParseEntries(s: seq<byte>, n: nat): (r: Result<(Entries, nat), DecodeError>)
    ensures r.Ok? ==> r.value.1 <= |s| && Count(r.value.0) == n
    decreases |s|, 1, n
  {
    if n == 0 then Ok((Nil, 0)) else
      var (key, value, k) :- ParseEntry(s);
      var (rest, used) :- ParseEntries(s[k..], n - 1);
      Ok((Cons(key, value, rest), k + used))
  }

  /** What `Reader::unpack` returns: the tree as a value, duplicate map keys merged. */
  function Unpack(s: seq<byte>): (r: Result<(Value, nat), DecodeError>)
    ensures r.Ok? ==> 1 <= r.value.1 <= |s|
  {
    var (t, k) :- Parse(s);
    Ok((Erase(t), k))
  }
}
