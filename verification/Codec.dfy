/** The packer and the cursor-based reader, step by step, against `Pack` and `Parse`. */
module Codec {
  import opened Bytes
  import opened Values
  import opened PackStream
  import opened PackStreamLaws

  // ---- packing ----

  /** The growing output buffer every packing routine appends to. */
  class ByteBuffer {
    var data: seq<byte>

    constructor ()
      ensures data == []
    {
      data := [];
    }

    method Extend(bytes: seq<byte>)
      modifies this
      ensures data == old(data) + bytes
    {
      data := data + bytes;
    }
  }

  /** `es` with one more entry at the end. */
  ghost function Snoc(es: Entries, key: Text, value: Tree): Entries {
    match es
    case Nil => Cons(key, value, Nil)
    case Cons(k, v, rest) => Cons(k, v, Snoc(rest, key, value))
  }

  lemma {:induction false} SnocLaws(es: Entries, key: Text, value: Tree)
    requires DistinctEntries(es) && key !in Keys(es) && Distinct(value)
    ensures DistinctEntries(Snoc(es, key, value)) && Keys(Snoc(es, key, value)) == Keys(es) + {key}
    ensures Count(Snoc(es, key, value)) == Count(es) + 1
    ensures PackEntries(Snoc(es, key, value)) == PackEntries(es) + (PackString(key) + Pack(value))
  {
    hide Pack, PackString, Utf8;
    if es.Cons? {
      SnocLaws(es.rest, key, value);
    }
  }

  lemma {:induction false} EraseSnoc(es: Entries, key: Text, value: Tree)
    requires key !in Keys(es)
    ensures EraseEntries(Snoc(es, key, value)) == EraseEntries(es)[key := Erase(value)]
  {
    hide Erase, Utf8;
    if es.Cons? {
      EraseSnoc(es.rest, key, value);
    }
  }

  lemma {:induction false} PackAllSnoc(ts: seq<Tree>, t: Tree)
    ensures PackAll(ts + [t]) == PackAll(ts) + Pack(t)
    ensures EraseAll(ts + [t]) == EraseAll(ts) + [Erase(t)]
    ensures DistinctAll(ts + [t]) <==> DistinctAll(ts) && Distinct(t)
  {
    hide Pack, Erase, Distinct;
    if ts == [] {
      assert ts + [t] == [t];
    } else {
      assert (ts + [t])[1..] == ts[1..] + [t];
      PackAllSnoc(ts[1..], t);
    }
  }

  /** Refuses only a size of 2^32 or more; `PackBytes` writes its header without asking. */
  method PackHeader(kind: Kind, size: nat, out: ByteBuffer) returns (ok: bool)
    requires kind != KBytes
    modifies out
    ensures ok <==> size < U32_LIMIT
    ensures out.data == old(out.data) + if ok then HeadBytes(Sized(kind, size)) else []
  {
    if size < 16 {
      out.Extend([TinyMarker(kind) + size]);
    } else if size < 256 {
      out.Extend([Marker8(kind)] + [size]);
    } else if size < 65_536 {
      out.Extend([Marker8(kind) + 1] + BE(size, 2));
    } else if size < U32_LIMIT {
      out.Extend([Marker8(kind) + 2] + BE(size, 4));
    } else {
      return false;
    }
    ok := true;
  }

  method PackBytesHeader(n: nat, out: ByteBuffer)
    modifies out
    ensures out.data == old(out.data) + PackHead(KBytes, n)
  {
    if n < 256 {
      out.Extend([0xCC, n]);
    } else if n < 65_536 {
      out.Extend([0xCD] + BE(n, 2));
    } else {
      out.Extend([0xCE] + BE(n % U32_LIMIT, 4));
    }
  }

  method PackBytes(b: seq<byte>, out: ByteBuffer)
    modifies out
    ensures out.data == old(out.data) + Pack(Leaf(Bytes(b)))
  {
    hide PackHead;
    PackBytesHeader(|b|, out);
    out.Extend(b);
  }

  method PackText(s: Text, out: ByteBuffer) returns (ok: bool)
    modifies out
    ensures ok <==> |s| < U32_LIMIT
    ensures ok ==> out.data == old(out.data) + PackString(s)
    ensures old(out.data) <= out.data
  {
    hide HeadBytes;
    ok := PackHeader(KString, |s|, out);
    if ok {
      out.Extend(s);
    }
  }

  predicate Fits(vs: seq<Value>) {
    forall x <- vs :: Within(x, false)
  }

  /** What `Packed` out of a value's parts makes of the value. */
  ghost predicate Packed(v: Value, t: Tree, before: seq<byte>, after: seq<byte>) {
    Distinct(t) && Erase(t) == v && after == before + Pack(t)
  }

  /**
   * Appends `v` in some enumeration order `t` of its maps. Fails exactly when a string,
   * list, map or structure in it has 2^32 or more bytes or members.
   */
  method PackValue(v: Value, out: ByteBuffer) returns (ok: bool, ghost t: Tree)
    modifies out
    ensures ok <==> Within(v, false)
    ensures ok ==> Packed(v, t, old(out.data), out.data)
    ensures old(out.data) <= out.data
    decreases v, 2
  {
    hide Within, Packed;
    match v
    case Atom(a) => ok, t := PackScalar(a, out);
    case List(items) => ok, t := PackList(items, out);
    case Map(m) => ok, t := PackMap(m, out);
    case Structure(signature, fields) => ok, t := PackStruct(signature, fields, out);
  }

  method PackList(items: seq<Value>, out: ByteBuffer) returns (ok: bool, ghost t: Tree)
    modifies out
    ensures ok <==> Within(List(items), false)
    ensures ok ==> Packed(List(items), t, old(out.data), out.data)
    ensures old(out.data) <= out.data
    decreases List(items), 1
  {
    hide PackAll, EraseAll, DistinctAll, HeadBytes;
    t := Leaf(Null);
    ok := PackHeader(KList, |items|, out);
    if ok {
      ghost var ts;
      ok, ts := PackSeq(items, out);
      t := ListOf(ts);
      assert ok ==> out.data == old(out.data) + Pack(t);
    }
  }

  /** The header counts the fields; the signature is not one of them. */
  method PackStruct(signature: byte, fields: seq<Value>, out: ByteBuffer) returns (ok: bool, ghost t: Tree)
    modifies out
    ensures ok <==> Within(Structure(signature, fields), false)
    ensures ok ==> Packed(Structure(signature, fields), t, old(out.data), out.data)
    ensures old(out.data) <= out.data
    decreases Structure(signature, fields), 1
  {
    hide PackAll, EraseAll, DistinctAll, HeadBytes;
    t := Leaf(Null);
    ok := PackHeader(KStruct, |fields|, out);
    if ok {
      out.Extend([signature]);
      ghost var ts;
      ok, ts := PackSeq(fields, out);
      t := StructureOf(signature, ts);
      assert ok ==> out.data == old(out.data) + Pack(t);
    }
  }

  method PackScalar(a: Atom, out: ByteBuffer) returns (ok: bool, ghost t: Tree)
    modifies out
    ensures ok <==> Within(Atom(a), false)
    ensures ok ==> Packed(Atom(a), t, old(out.data), out.data)
    ensures old(out.data) <= out.data
  {
    hide HeadBytes, PackString, Utf8;
    t := Leaf(a);
    match a
    case String(s) =>
      ok := PackText(s, out);
      PackStringIsPack(s);
      assert ok ==> out.data == old(out.data) + Pack(t);
    case Bytes(b) =>
      PackBytes(b, out);
      ok := true;
    case _ =>
      out.Extend(HeadBytes(Scalar(a)));
      ok := true;
      assert PackRest(t) == [];
  }

  method PackSeq(items: seq<Value>, out: ByteBuffer) returns (ok: bool, ghost ts: seq<Tree>)
    modifies out
    ensures ok <==> Fits(items)
    ensures ok ==> DistinctAll(ts) && EraseAll(ts) == items && out.data == old(out.data) + PackAll(ts)
    ensures old(out.data) <= out.data
    decreases items, 0
  {
    hide Pack, Erase, Distinct, Within;
    ts := [];
    for i := 0 to |items|
      invariant DistinctAll(ts) && EraseAll(ts) == items[..i] && out.data == old(out.data) + PackAll(ts)
      invariant forall j :: 0 <= j < i ==> Within(items[j], false)
    {
      ghost var t;
      ok, t := PackValue(items[i], out);
      if !ok {
        return;
      }
      PackAllSnoc(ts, t);
      ts := ts + [t];
    }
    ok := true;
  }

  /** `es` enumerates the entries of `m` outside `rest`, and they all fit. */
  ghost predicate Enumerated(m: map<Text, Value>, rest: set<Text>, es: Entries) {
    && rest <= m.Keys
    && DistinctEntries(es)
    && Keys(es) == m.Keys - rest
    && Count(es) == |m| - |rest|
    && (forall k <- EraseEntries(es) :: EraseEntries(es)[k] == m[k])
    && (forall k <- m.Keys - rest :: |k| < U32_LIMIT && Within(m[k], false))
  }

  lemma EnumerateStep(
    m: map<Text, Value>, rest: set<Text>, es: Entries, k: Text, t: Tree, before: seq<byte>, after: seq<byte>)
    requires Enumerated(m, rest, es) && k in rest
    requires |k| < U32_LIMIT && Within(m[k], false) && Packed(m[k], t, before + PackString(k), after)
    ensures Enumerated(m, rest - {k}, Snoc(es, k, t))
    ensures exists entry :: after == before + entry && PackEntries(Snoc(es, k, t)) == PackEntries(es) + entry
  {
    hide Pack, PackString, Erase, Distinct, Utf8, Within, EraseEntries, PackEntries, DistinctEntries, Keys, Count, Snoc;
    SnocLaws(es, k, t);
    EraseSnoc(es, k, t);
    assert after == before + (PackString(k) + Pack(t));
  }

  lemma EnumeratedAll(m: map<Text, Value>, es: Entries)
    requires |m| < U32_LIMIT && Enumerated(m, {}, es)
    ensures EraseEntries(es) == m && Count(es) == |m| && DistinctEntries(es) && Within(Map(m), false)
  {
    hide Utf8, EraseEntries, DistinctEntries, Keys, Count;
  }

  lemma EnumerateDone(m: map<Text, Value>, es: Entries, before: seq<byte>, after: seq<byte>)
    requires |m| < U32_LIMIT && Enumerated(m, {}, es)
    requires after == before + HeadBytes(Sized(KMap, |m|)) + PackEntries(es)
    ensures Packed(Map(m), MapOf(es), before, after) && Within(Map(m), false)
  {
    hide Utf8, EraseEntries, PackEntries, DistinctEntries, Keys, Count, HeadBytes, Enumerated, Within;
    EnumeratedAll(m, es);
    assert HeadOf(MapOf(es)) == Sized(KMap, |m|) && PackRest(MapOf(es)) == PackEntries(es);
    assert after == before + Pack(MapOf(es));
  }

  lemma EnumerateFailed(m: map<Text, Value>, k: Text)
    requires k in m && !(|k| < U32_LIMIT && Within(m[k], false))
    ensures !Within(Map(m), false)
  {
    hide Utf8;
  }

  /** The hash map is enumerated in no particular order. */
  method PackMap(m: map<Text, Value>, out: ByteBuffer) returns (ok: bool, ghost t: Tree)
    modifies out
    ensures ok <==> Within(Map(m), false)
    ensures ok ==> Packed(Map(m), t, old(out.data), out.data)
    ensures old(out.data) <= out.data
    decreases Map(m), 1
  {
    hide PackString, HeadBytes, Within, Packed, Utf8, Enumerated, EraseEntries, PackEntries, DistinctEntries, Keys,
      Count;
    t := Leaf(Null);
    EnumerateStart(m);
    ghost var es := Nil;
    ok := PackHeader(KMap, |m|, out);
    if !ok {
      return;
    }
    var rest := m.Keys;
    ghost var start := out.data;
    while rest != {}
      invariant rest <= m.Keys && Enumerated(m, rest, es)
      invariant out.data == start + PackEntries(es)
      decreases rest
    {
      var k :| k in rest;
      ok := PackText(k, out);
      if !ok {
        EnumerateFailed(m, k);
        return;
      }
      ghost var v;
      ok, v := PackValue(m[k], out);
      if !ok {
        EnumerateFailed(m, k);
        return;
      }
      EnumerateStep(m, rest, es, k, v, start + PackEntries(es), out.data);
      es := Snoc(es, k, v);
      rest := rest - {k};
      assert out.data == start + PackEntries(es);
    }
    t := MapOf(es);
    EnumerateDone(m, es, old(out.data), out.data);
    ok := true;
  }

  lemma EnumerateStart(m: map<Text, Value>)
    ensures Enumerated(m, m.Keys, Nil) && PackEntries(Nil) == []
    ensures |m| >= U32_LIMIT ==> !Within(Map(m), false)
  {
  }

  // ---- unpacking ----

  /** What a parser of the specification says about a reader's result and cursor movement. */
  ghost predicate Agrees(spec: Result<(Tree, nat), DecodeError>, r: Result<Value, DecodeError>, moved: int) {
    match spec
    case Ok((t, k)) => r == Ok(Erase(t)) && moved == k
    case Err(e) => r == Err(e)
  }

  /** The same for a container whose `w`-byte size comes first. */
  ghost predicate AgreesSized(kind: Kind, w: nat, s: seq<byte>, r: Result<Value, DecodeError>, moved: int) {
    if |s| < w then r == Err(UnexpectedEnd)
    else Agrees(ParseRest(Sized(kind, FromBE(s[..w])), s[w..]), r, moved - w)
  }

  /** Once its marker is read, a header's size or integer is the next `w` bytes. */
  lemma MarkedLaw(marker: byte, rest: seq<byte>)
    ensures var s := [marker] + rest;
            && (forall kind, w, r, moved ::
              ParseHead(s) == ParseSize(kind, s, w) && AgreesSized(kind, w, rest, r, moved) ==>
                Agrees(Parse(s), r, moved + 1))
            && (forall w, r, moved :: (w == 1 || w == 2 || w == 4 || w == 8) ==>
              ParseHead(s) == ParseInt(s, w) && AgreesInt(w, rest, r, moved) ==> Agrees(Parse(s), r, moved + 1))
  {
    hide ParseHead;
    var s := [marker] + rest;
    assert s[1..] == rest;
    assert forall w: nat | w <= |rest| :: s[1..1 + w] == rest[..w] && s[1 + w..] == rest[w..];
  }

  ghost predicate AgreesInt(w: nat, s: seq<byte>, r: Result<Value, DecodeError>, moved: int)
    requires w == 1 || w == 2 || w == 4 || w == 8
  {
    Widths();
    if |s| < w then r == Err(UnexpectedEnd)
    else r == Ok(Atom(Int(FromSignedBE(s[..w])))) && moved == w
  }

  /** A map decoded so far, `rest` being what parsing the remaining entries gives. */
  ghost predicate MapFilled(
    all: Result<(Entries, nat), DecodeError>, rest: Result<(Entries, nat), DecodeError>,
    m: map<Text, Value>, moved: int)
  {
    match rest
    case Ok((es, k)) =>
      all.Ok? && EraseEntries(all.value.0) == m + EraseEntries(es) && all.value.1 == moved + k
    case Err(e) => all == Err(e)
  }

  lemma MapStart(s: seq<byte>, n: nat)
    ensures MapFilled(ParseEntries(s, n), ParseEntries(s, n), map[], 0)
  {
    hide ParseEntries, EraseEntries, Utf8;
    if ParseEntries(s, n).Ok? {
      var m := EraseEntries(ParseEntries(s, n).value.0);
      assert map[] + m == m;
    }
  }

  lemma MapStep(s0: seq<byte>, n0: nat, s: seq<byte>, n: nat, m: map<Text, Value>, moved: int)
    requires n > 0 && MapFilled(ParseEntries(s0, n0), ParseEntries(s, n), m, moved)
    ensures match ParseEntry(s)
            case Ok((key, value, k)) =>
              MapFilled(ParseEntries(s0, n0), ParseEntries(s[k..], n - 1), m[key := Erase(value)], moved + k)
            case Err(e) => forall j :: Agrees(ParseRest(Sized(KMap, n0), s0), Err(e), j)
  {
    hide ParseEntry, Erase, Utf8;
    if ParseEntry(s).Ok? {
      var (key, value, k) := ParseEntry(s).value;
      if ParseEntries(s[k..], n - 1).Ok? {
        var es := ParseEntries(s[k..], n - 1).value.0;
        assert m + EraseEntries(Cons(key, value, es)) == m[key := Erase(value)] + EraseEntries(es);
      }
    }
  }

  lemma MapDone(s0: seq<byte>, n: nat, s: seq<byte>, m: map<Text, Value>, moved: int)
    requires MapFilled(ParseEntries(s0, n), ParseEntries(s, 0), m, moved)
    ensures Agrees(ParseRest(Sized(KMap, n), s0), Ok(Map(m)), moved)
  {
    hide Utf8;
    assert m + map[] == m;
  }

  lemma ScalarLaw(a: Atom, s: seq<byte>)
    ensures ParseRest(Scalar(a), s) == Ok((Leaf(a), 0)) && Erase(Leaf(a)) == Atom(a)
  {
  }

  lemma EraseAtom(t: Tree)
    ensures Erase(t).Atom? <==> t.Leaf?
    ensures t.Leaf? ==> Erase(t) == Atom(t.a)
  {
  }

  /** Decodes a message body from front to back. */
  class Reader {
    const buf: seq<byte>
    var pos: nat

    ghost predicate Valid()
      reads this
    {
      pos <= |buf|
    }

    ghost function Rest(): seq<byte>
      requires Valid()
      reads this
    {
      buf[pos..]
    }

    constructor (buf: seq<byte>)
      ensures Valid() && this.buf == buf && pos == 0
    {
      this.buf := buf;
      pos := 0;
    }

    /** Unread bytes; never negative, whatever counts headers claim. */
    function Remaining(): (n: nat)
      requires Valid()
      reads this
      ensures n == |Rest()|
    {
      |buf| - pos
    }

    method Take(n: nat) returns (r: Result<seq<byte>, DecodeError>)
      requires Valid()
      modifies `pos
      ensures Valid() && r == PackStream.Take(old(Rest()), 0, n)
      ensures pos == if r.Ok? then old(pos) + n else old(pos)
    {
      var end := pos + n;
      if end > |buf| {
        return Err(UnexpectedEnd);
      }
      assert buf[pos..end] == Rest()[0..n];
      r := Ok(buf[pos..end]);
      pos := end;
    }

    method Size(w: nat) returns (r: Result<nat, DecodeError>)
      requires Valid() && (w == 1 || w == 2 || w == 4)
      modifies `pos
      ensures Valid()
      ensures r.Ok? <==> old(pos) + w <= |buf|
      ensures r.Ok? ==> pos == old(pos) + w && r.value == FromBE(old(Rest())[..w])
      ensures r.Err? ==> r.error == UnexpectedEnd && pos == old(pos)
    {
      var bytes :- Take(w);
      r := Ok(FromBE(bytes));
    }

    /** A `w`-byte two's complement integer. */
    method Signed(w: nat) returns (r: Result<Value, DecodeError>)
      requires Valid() && (w == 1 || w == 2 || w == 4 || w == 8)
      modifies `pos
      ensures Valid() && old(pos) <= pos
      ensures AgreesInt(w, old(Rest()), r, pos - old(pos))
    {
      var bytes :- Take(w);
      Widths();
      r := Ok(Atom(Int(FromSignedBE(bytes))));
    }

    /** Decodes the next value: the value and cursor `Unpack` gives, or its error. */
    method UnpackValue() returns (r: Result<Value, DecodeError>)
      requires Valid()
      modifies `pos
      ensures Valid() && old(pos) <= pos
      ensures Agrees(Parse(old(Rest())), r, pos - old(pos))
      decreases |buf| - pos, 0, 0
    {
      hide ParseRest, Erase;
      var first :- Take(1);
      var marker: int := first[0];
      ghost var s := old(Rest());
      assert marker == s[0] && Rest() == s[1..] && s != [];
      if marker < 0x80 {
        ScalarLaw(Int(marker), s[1..]);
        return Ok(Atom(Int(marker)));
      }
      if marker >= 0xF0 {
        ScalarLaw(Int(marker - 256), s[1..]);
        return Ok(Atom(Int(marker - 256)));
      }
      var low := marker % 16;
      match marker - low {
        case 0x80 => r := UnpackString(low);
        case 0x90 => r := UnpackList(low);
        case 0xA0 => r := UnpackMap(low);
        case 0xB0 => r := UnpackStruct(low);
        case _ =>
          assert [marker] + s[1..] == s;
          r := UnpackMarked(marker);
      }
    }

    /** Markers `0xC0..=0xEF`: the whole byte selects the type. */
    method UnpackMarked(marker: byte) returns (r: Result<Value, DecodeError>)
      requires Valid() && 0xC0 <= marker < 0xF0
      modifies `pos
      ensures Valid() && old(pos) <= pos
      ensures Agrees(Parse([marker] + old(Rest())), r, pos - old(pos) + 1)
      decreases |buf| - pos, 4, 0
    {
      hide ParseRest, Erase, AgreesSized, AgreesInt;
      ghost var s := [marker] + Rest();
      MarkedLaw(marker, Rest());
      assert s[1..] == Rest();
      assert |Rest()| >= 8 ==> s[1..9] == Rest()[0..8];
      ScalarLaw(Null, s[1..]);
      ScalarLaw(Bool(true), s[1..]);
      ScalarLaw(Bool(false), s[1..]);
      match marker {
        case 0xC0 => r := Ok(Atom(Null));
        case 0xC3 => r := Ok(Atom(Bool(true)));
        case 0xC2 => r := Ok(Atom(Bool(false)));
        case 0xC1 =>
          var b :- Take(8);
          r := Ok(Atom(Float(b)));
          ScalarLaw(Float(b), s[9..]);
        case 0xC8 => r := Signed(1);
        case 0xC9 => r := Signed(2);
        case 0xCA => r := Signed(4);
        case 0xCB => r := Signed(8);
        case 0xCC => r := UnpackBytes(1);
        case 0xCD => r := UnpackBytes(2);
        case 0xCE => r := UnpackBytes(4);
        case 0xD0 => r := UnpackSized(KString, 1);
        case 0xD1 => r := UnpackSized(KString, 2);
        case 0xD2 => r := UnpackSized(KString, 4);
        case 0xD4 => r := UnpackSized(KList, 1);
        case 0xD5 => r := UnpackSized(KList, 2);
        case 0xD6 => r := UnpackSized(KList, 4);
        case 0xD8 => r := UnpackSized(KMap, 1);
        case 0xD9 => r := UnpackSized(KMap, 2);
        case 0xDA => r := UnpackSized(KMap, 4);
        case 0xDC => r := UnpackSized(KStruct, 1);
        case 0xDD => r := UnpackSized(KStruct, 2);
        case 0xDE => r := UnpackSized(KStruct, 4);
        case _ => r := Err(UnknownMarker(marker));
      }
    }

    /** A size of `w` bytes and the bytes or members it announces. */
    method UnpackSized(kind: Kind, w: nat) returns (r: Result<Value, DecodeError>)
      requires Valid() && (w == 1 || w == 2 || w == 4) && kind != KBytes
      modifies `pos
      ensures Valid() && old(pos) <= pos
      ensures AgreesSized(kind, w, old(Rest()), r, pos - old(pos))
      decreases |buf| - pos, 3, 0
    {
      var n :- Size(w);
      match kind {
        case KString => r := UnpackString(n);
        case KList => r := UnpackList(n);
        case KMap => r := UnpackMap(n);
        case KStruct => r := UnpackStruct(n);
      }
    }

    method UnpackBytes(w: nat) returns (r: Result<Value, DecodeError>)
      requires Valid() && (w == 1 || w == 2 || w == 4)
      modifies `pos
      ensures Valid() && old(pos) <= pos
      ensures AgreesSized(KBytes, w, old(Rest()), r, pos - old(pos))
    {
      var n :- Size(w);
      var data :- Take(n);
      r := Ok(Atom(Bytes(data)));
    }

    method UnpackString(n: nat) returns (r: Result<Value, DecodeError>)
      requires Valid()
      modifies `pos
      ensures Valid() && old(pos) <= pos
      ensures Agrees(ParseRest(Sized(KString, n), old(Rest())), r, pos - old(pos))
    {
      var bytes :- Take(n);
      r := if Utf8(bytes) then Ok(Atom(String(bytes))) else Err(InvalidUtf8);
    }

    /** Decodes `n` consecutive values. */
    method UnpackN(n: nat) returns (r: Result<seq<Value>, DecodeError>)
      requires Valid()
      modifies `pos
      ensures Valid() && old(pos) <= pos
      ensures match ParseAll(old(Rest()), n)
              case Ok((ts, k)) => r == Ok(EraseAll(ts)) && pos == old(pos) + k
              case Err(e) => r == Err(e)
      decreases |buf| - pos, 1, n
    {
      hide Parse, Erase;
      var items := [];
      for i := 0 to n
        invariant Valid() && old(pos) <= pos && (i > 0 ==> old(pos) < pos)
        invariant match ParseAll(Rest(), n - i)
                  case Ok((ts, k)) =>
                    && ParseAll(old(Rest()), n).Ok?
                    && EraseAll(ParseAll(old(Rest()), n).value.0) == items + EraseAll(ts)
                    && ParseAll(old(Rest()), n).value.1 == pos - old(pos) + k
                  case Err(e) => ParseAll(old(Rest()), n) == Err(e)
      {
        ghost var s := Rest();
        var item :- UnpackValue();
        assert Rest() == s[Parse(s).value.1..];
        items := items + [item];
      }
      assert items + [] == items;
      r := Ok(items);
    }

    method UnpackList(n: nat) returns (r: Result<Value, DecodeError>)
      requires Valid()
      modifies `pos
      ensures Valid() && old(pos) <= pos
      ensures Agrees(ParseRest(Sized(KList, n), old(Rest())), r, pos - old(pos))
      decreases |buf| - pos, 2, 0
    {
      var items :- UnpackN(n);
      r := Ok(List(items));
    }

    /** Fills a hash map: a key that comes again replaces the earlier value. */
    method UnpackMap(n: nat) returns (r: Result<Value, DecodeError>)
      requires Valid()
      modifies `pos
      ensures Valid() && old(pos) <= pos
      ensures Agrees(ParseRest(Sized(KMap, n), old(Rest())), r, pos - old(pos))
      decreases |buf| - pos, 2, 0
    {
      hide Parse, Erase, Utf8, MapFilled, ParseEntries, ParseEntry, ParseRest, EraseEntries, Agrees;
      var m: map<Text, Value> := map[];
      ghost var s0 := Rest();
      MapStart(s0, n);
      for i := 0 to n
        invariant Valid() && old(pos) <= pos && (i > 0 ==> old(pos) < pos)
        invariant MapFilled(ParseEntries(s0, n), ParseEntries(Rest(), n - i), m, pos - old(pos))
      {
        ghost var s := Rest();
        MapStep(s0, n, s, n - i, m, pos - old(pos));
        var entry :- UnpackEntry();
        assert Rest() == s[ParseEntry(s).value.2..];
        m := m[entry.0 := entry.1];
      }
      MapDone(s0, n, Rest(), m, pos - old(pos));
      r := Ok(Map(m));
    }

    /** One round of the map loop: a key, which must be a string, and its value. */
    method UnpackEntry() returns (r: Result<(Text, Value), DecodeError>)
      requires Valid()
      modifies `pos
      ensures Valid() && old(pos) <= pos
      ensures match ParseEntry(old(Rest()))
              case Ok((key, value, k)) => r == Ok((key, Erase(value))) && pos == old(pos) + k
              case Err(e) => r == Err(e)
      decreases |buf| - pos, 1, 0
    {
      hide Parse, Erase, Utf8;
      ghost var s := Rest();
      var first :- UnpackValue();
      EraseAtom(Parse(s).value.0);
      if !(first.Atom? && first.a.String?) {
        return Err(KeyNotString);
      }
      assert Rest() == s[Parse(s).value.1..];
      var value :- UnpackValue();
      r := Ok((first.a.s, value));
    }

    method UnpackStruct(n: nat) returns (r: Result<Value, DecodeError>)
      requires Valid()
      modifies `pos
      ensures Valid() && old(pos) <= pos
      ensures Agrees(ParseRest(Sized(KStruct, n), old(Rest())), r, pos - old(pos))
      decreases |buf| - pos, 2, 0
    {
      ghost var s := old(Rest());
      var signature :- Take(1);
      assert Rest() == s[1..];
      var fields :- UnpackN(n);
      r := Ok(Structure(signature[0], fields));
    }
  }
}
