/**
 * Requests and replies in literals: the signature bytes, the order of the fields and the keys of
 * the metadata, as the Bolt message specification gives them.
 */
module Vocabulary {
  import opened Bytes
  import opened Values
  import opened PackStream
  import opened PackStreamLaws
  import opened Framing
  import opened Message
  import opened Wire
  import Octets

  /** The text with these ASCII characters. */
  predicate Spells(text: Text, ascii: string) {
    |text| == |ascii| && forall i :: 0 <= i < |ascii| ==> text[i] == ascii[i] as int
  }

  lemma SpellsOnce(a: Text, b: Text, ascii: string)
    requires Spells(a, ascii) && Spells(b, ascii)
    ensures a == b
  {
  }

  // ---- requests ----

  lemma StatementRequests(query: Text, parameters: Meta, extra: Meta, context: Meta)
    ensures RunRequest(query, parameters, extra) == Request(0x10, [Atom(String(query)), Map(parameters), Map(extra)])
    ensures BeginRequest(extra) == Request(0x11, [Map(extra)])
    ensures RouteRequest(context, extra) == Request(0x66, [Map(context), List([]), Map(extra)])
  {
  }

  lemma StreamRequests(n: int64, qid: int64, nKey: Text, qidKey: Text)
    requires Spells(nKey, "n") && Spells(qidKey, "qid")
    ensures PullRequest(n, None) == Request(0x3F, [Map(map[nKey := Atom(Int(n))])])
    ensures PullRequest(n, Some(qid)) == Request(0x3F, [Map(map[nKey := Atom(Int(n)), qidKey := Atom(Int(qid))])])
    ensures DiscardRequest(n, None) == Request(0x2F, [Map(map[nKey := Atom(Int(n))])])
    ensures DiscardRequest(n, Some(qid)) == Request(0x2F, [Map(map[nKey := Atom(Int(n)), qidKey := Atom(Int(qid))])])
  {
    hide Utf8;
    SpellsOnce(nKey, N_KEY, "n");
    SpellsOnce(qidKey, QID_KEY, "qid");
  }

  lemma BareRequests()
    ensures EmptyRequest(COMMIT) == Request(0x12, []) && EmptyRequest(ROLLBACK) == Request(0x13, [])
    ensures EmptyRequest(RESET) == Request(0x0F, []) && EmptyRequest(GOODBYE) == Request(0x02, [])
  {
  }

  /** The body that carries a request: a structure of its fields, each packed in some map order. */
  lemma RequestBytes(item: Item, req: Request) returns (fields: seq<Tree>)
    requires Carries(item, req) && |req.fields| < 0x10
    ensures EraseAll(fields) == req.fields && DistinctAll(fields)
    ensures Concat(item.chunks) == [0xB0 + |req.fields|, req.signature] + PackAll(fields)
  {
    hide Pack, PackAll, Concat, EraseAll, DistinctAll;
    var t :| Distinct(t) && Erase(t) == AsValue(req) && Concat(item.chunks) == Pack(t);
    fields := t.fields;
    Octets.StructBytes(req.signature, fields);
  }

  /** What is written for a request without fields. */
  lemma BareBytes(items: seq<Item>, signature: byte)
    requires Outgoing(items, [EmptyRequest(signature)])
    ensures ValidItems(items) && Framing.Wire(items) == [0x00, 0x02, 0xB0, signature, 0x00, 0x00]
  {
    hide Frame, Chunks, Carries, Concat, PackAll;
    var item := items[0];
    assert Carries(item, EmptyRequest(signature));
    var fields := RequestBytes(item, EmptyRequest(signature));
    assert fields == [] && PackAll([]) == [] by {
      Octets.MemberBytes([], []);
    }
    var body :| item == Message(Chunks(body));
    ChunksConcat(body);
    assert body == [0xB0, signature];
    FrameBytes(body, []);
    assert items == [item] && items[1..] == [];
    assert Framing.Wire(items) == Frame(Chunks(body)) + Framing.Wire([]);
    assert [0x00, 0x02] + body + [0x00, 0x00] == [0x00, 0x02, 0xB0, signature, 0x00, 0x00];
  }

  // ---- replies ----

  /** What a body says, by its signature and its last field: anything else is refused. */
  lemma ReplySays(body: seq<byte>, signature: byte, fields: seq<Value>, used: nat, codeKey: Text, messageKey: Text)
    requires Unpack(body) == Ok((Structure(signature, fields), used))
    requires Spells(codeKey, "code") && Spells(messageKey, "message")
    ensures signature == 0x70 ==> Decode(body) == Some(Success(MapIn(fields)))
    ensures signature == 0x71 ==> Decode(body) == Some(Record(ListIn(fields)))
    ensures signature == 0x7E ==> Decode(body) == Some(Ignored)
    ensures signature == 0x7F ==>
      && Decode(body).Some? && Decode(body).value.Failure?
      && TextIs(Decode(body).value.code, MapIn(fields), codeKey, "Unknown")
      && TextIs(Decode(body).value.message, MapIn(fields), messageKey, "(no message)")
    ensures signature != 0x70 && signature != 0x71 && signature != 0x7E && signature != 0x7F ==> Decode(body) == None
  {
    hide Utf8, Unpack;
    SpellsOnce(codeKey, CODE_KEY, "code");
    SpellsOnce(messageKey, MESSAGE_KEY, "message");
  }

  /** The rows and metadata of a reply are its last field. */
  function ListIn(fields: seq<Value>): (row: Row)
    ensures forall others, items :: fields == others + [List(items)] ==> row == items
    ensures (forall others, items :: fields != others + [List(items)]) ==> row == []
  {
    if fields != [] && fields[|fields| - 1].List? then
      assert fields == fields[..|fields| - 1] + [List(fields[|fields| - 1].items)];
      fields[|fields| - 1].items
    else []
  }

  function MapIn(fields: seq<Value>): (meta: Meta)
    ensures forall others, m :: fields == others + [Map(m)] ==> meta == m
    ensures (forall others, m :: fields != others + [Map(m)]) ==> meta == map[]
  {
    if fields != [] && fields[|fields| - 1].Map? then
      assert fields == fields[..|fields| - 1] + [Map(fields[|fields| - 1].m)];
      fields[|fields| - 1].m
    else map[]
  }

  /** The text under a key, or else what `missing` spells. */
  ghost predicate TextIs(text: Text, meta: Meta, key: Text, missing: string) {
    if exists t :: key in meta && meta[key] == Atom(String(t)) then meta[key] == Atom(String(text))
    else Spells(text, missing)
  }

  /** The body is a RECORD with this row, or a SUCCESS with this metadata. */
  ghost predicate CarriesRow(body: seq<byte>, row: Row) {
    exists fields, used :: Unpack(body) == Ok((Structure(0x71, fields), used)) && row == ListIn(fields)
  }

  ghost predicate CarriesMeta(body: seq<byte>, meta: Meta) {
    exists fields, used :: Unpack(body) == Ok((Structure(0x70, fields), used)) && meta == MapIn(fields)
  }

  lemma CarriesWhat(body: seq<byte>)
    ensures forall row :: Decode(body) == Some(Record(row)) <==> CarriesRow(body, row)
    ensures forall meta :: Decode(body) == Some(Success(meta)) <==> CarriesMeta(body, meta)
  {
    hide Unpack;
    if Unpack(body).Ok? && Unpack(body).value.0.Structure? {
      var (v, used) := Unpack(body).value;
      Keys();
      ReplySays(body, v.signature, v.fields, used, CODE_KEY, MESSAGE_KEY);
    } else {
      NoReply(body);
    }
  }

  /** A body that is no structure is refused. */
  lemma NoReply(body: seq<byte>)
    requires Unpack(body).Ok? ==> !Unpack(body).value.0.Structure?
    ensures Decode(body) == None
  {
    hide Unpack;
  }

  /** What the metadata of a SUCCESS says. */
  lemma MetaSays(meta: Meta, moreKey: Text, fieldsKey: Text, qidKey: Text, bookmarkKey: Text)
    requires Spells(moreKey, "has_more") && Spells(fieldsKey, "fields")
    requires Spells(qidKey, "qid") && Spells(bookmarkKey, "bookmark")
    ensures HasMore(meta) <==> moreKey in meta && meta[moreKey] == Atom(Bool(true))
    ensures forall q: int64 :: Qid(meta) == Some(q) <==> qidKey in meta && meta[qidKey] == Atom(Int(q))
    ensures forall b :: Bookmark(meta) == Some(b) <==> bookmarkKey in meta && meta[bookmarkKey] == Atom(String(b))
    ensures forall items :: fieldsKey in meta && meta[fieldsKey] == List(items) ==> NamesIn(items, Columns(meta))
    ensures (fieldsKey in meta ==> !meta[fieldsKey].List?) ==> Columns(meta) == []
  {
    hide Utf8, Strings, NamesIn;
    SpellsOnce(moreKey, HAS_MORE_KEY, "has_more");
    SpellsOnce(fieldsKey, FIELDS_KEY, "fields");
    SpellsOnce(qidKey, QID_KEY, "qid");
    SpellsOnce(bookmarkKey, BOOKMARK_KEY, "bookmark");
    if fieldsKey in meta && meta[fieldsKey].List? {
      StringsAre(meta[fieldsKey].items);
    }
  }

  /** `names` are the strings among `items`, in order. */
  ghost predicate NamesIn(items: seq<Value>, names: seq<Text>) {
    exists at: seq<nat> :: Picks(items, names, at)
  }

  ghost predicate Picks(items: seq<Value>, names: seq<Text>, at: seq<nat>) {
    && |at| == |names|
    && (forall k :: 0 <= k < |at| ==> at[k] < |items| && items[at[k]] == Atom(String(names[k])))
    && (forall j, k :: 0 <= j < k < |at| ==> at[j] < at[k])
    && (forall i :: 0 <= i < |items| && items[i].Atom? && items[i].a.String? ==> i in at)
  }

  lemma {:induction false} StringsAre(items: seq<Value>)
    ensures NamesIn(items, Strings(items))
  {
    hide Utf8, Strings;
    if items == [] {
      assert Strings([]) == [] by {
        StringsLast([], Atom(Null));
      }
      assert Picks(items, [], []);
    } else {
      var n := |items| - 1;
      StringsAre(items[..n]);
      StringsLast(items[..n], items[n]);
      assert items == items[..n] + [items[n]];
      var at: seq<nat> :| Picks(items[..n], Strings(items[..n]), at);
      PicksLast(items[..n], items[n], Strings(items[..n]), at);
    }
  }

  lemma {:induction false} StringsLast(items: seq<Value>, v: Value)
    ensures Strings([]) == []
    ensures Strings(items + [v]) == Strings(items) + if v.Atom? && v.a.String? then [v.a.s] else []
  {
    hide Utf8;
    if items == [] {
      assert [v][1..] == [] && [] + [v] == [v];
    } else {
      assert (items + [v])[1..] == items[1..] + [v];
      StringsLast(items[1..], v);
    }
  }

  lemma PicksLast(items: seq<Value>, v: Value, names: seq<Text>, at: seq<nat>)
    requires Picks(items, names, at)
    ensures NamesIn(items + [v], names + if v.Atom? && v.a.String? then [v.a.s] else [])
  {
    hide Utf8;
    if v.Atom? && v.a.String? {
      assert Picks(items + [v], names + [v.a.s], at + [|items|]);
    } else {
      assert names + [] == names;
      assert Picks(items + [v], names, at);
    }
  }

  /** A row of two integers, byte by byte. */
  lemma RowBytes(a: byte, b: byte)
    requires a < 0x80 && b < 0x80
    ensures Decode([0xB1, 0x71, 0x92, a, b]) == Some(Record([Atom(Int(a)), Atom(Int(b))]))
  {
    hide *;
    var body: seq<byte> := [0xB1, 0x71, 0x92, a, b];
    var items := [Leaf(Int(a)), Leaf(Int(b))];
    TwoInts(a, b);
    var list: seq<byte> := [0x92, a, b];
    assert body[2..] == list && list[1..] == [a, b] && list[3..] == [];
    Octets.ReadsStruct(body, 1, 1);
    Octets.ReadsMembers(list, 1);
    Octets.ReadsList(list, 1, 2);
    Octets.ReadsMembers([], 0);
    var none: seq<Tree> := [];
    assert [ListOf(items)] + none == [ListOf(items)];
    RowStands(items);
    assert Unpack(body) == Ok((Erase(StructureOf(0x71, [ListOf(items)])), 5)) by {
      Unpacks(body);
    }
    var codeKey, messageKey := CODE_KEY, MESSAGE_KEY;
    Keys();
    ReplySays(body, 0x71, [List([Atom(Int(a)), Atom(Int(b))])], 5, codeKey, messageKey);
    assert [List([Atom(Int(a)), Atom(Int(b))])] == [] + [List([Atom(Int(a)), Atom(Int(b))])];
  }

  lemma Keys()
    ensures Spells(CODE_KEY, "code") && Spells(MESSAGE_KEY, "message")
  {
  }

  lemma Unpacks(s: seq<byte>)
    ensures Parse(s).Ok? ==> Unpack(s) == Ok((Erase(Parse(s).value.0), Parse(s).value.1))
  {
    hide Parse, Erase;
  }

  lemma TwoInts(a: byte, b: byte)
    requires a < 0x80 && b < 0x80
    ensures ParseAll([a, b], 2) == Ok(([Leaf(Int(a)), Leaf(Int(b))], 2))
  {
    hide *;
    var s: seq<byte> := [a, b];
    Octets.ReadsMembers(s, 2);
    Octets.ReadsScalar(s);
    var rest: seq<byte> := [b];
    assert s[1..] == rest && rest[1..] == [];
    Octets.ReadsMembers(rest, 1);
    Octets.ReadsScalar(rest);
    Octets.ReadsMembers([], 0);
    var none: seq<Tree> := [];
    assert [Leaf(Int(b))] + none == [Leaf(Int(b))];
    assert [Leaf(Int(a))] + [Leaf(Int(b))] == [Leaf(Int(a)), Leaf(Int(b))];
  }

  lemma RowStands(items: seq<Tree>)
    requires |items| == 2 && items[0].Leaf? && items[1].Leaf?
    ensures Erase(StructureOf(0x71, [ListOf(items)])) ==
      Structure(0x71, [List([Atom(items[0].a), Atom(items[1].a)])])
  {
    Octets.MembersStand(items);
    Octets.MembersStand([ListOf(items)]);
    assert EraseAll(items) == [Erase(items[0]), Erase(items[1])];
    assert EraseAll([ListOf(items)]) == [Erase(ListOf(items))];
  }
}
