/** Laws of the codec: round trip, locality, prefix-freeness, and re-encoding never grows. */
module PackStreamLaws {
  import opened Bytes
  import opened Values
  import opened PackStream

  // ---- sizes that fit 32 bits ----

  /**
   * Every size in the tree fits 32 bits; those of `Bytes` only if `bytesToo`. Without it this
   * is when `pack` succeeds, with it when what `pack` wrote can be read back.
   */
  predicate TreeWithin(t: Tree, bytesToo: bool) {
    match t
    case Leaf(a) => AtomWithin(a, bytesToo)
    case ListOf(items) => |items| < U32_LIMIT && AllWithin(items, bytesToo)
    case MapOf(entries) => Count(entries) < U32_LIMIT && EntriesWithin(entries, bytesToo)
    case StructureOf(_, fields) => |fields| < U32_LIMIT && AllWithin(fields, bytesToo)
  }

  predicate AtomWithin(a: Atom, bytesToo: bool) {
    match a
    case String(s) => |s| < U32_LIMIT
    case Bytes(data) => bytesToo ==> |data| < U32_LIMIT
    case _ => true
  }

  predicate AllWithin(ts: seq<Tree>, bytesToo: bool) {
    ts == [] || (TreeWithin(ts[0], bytesToo) && AllWithin(ts[1..], bytesToo))
  }

  predicate EntriesWithin(es: Entries, bytesToo: bool) {
    es.Nil? ||
    (|es.key| < U32_LIMIT && TreeWithin(es.value, bytesToo) && EntriesWithin(es.rest, bytesToo))
  }

  /** The same of a value, where no order is fixed. */
  predicate Within(v: Value, bytesToo: bool) {
    match v
    case Atom(a) => AtomWithin(a, bytesToo)
    case List(items) => |items| < U32_LIMIT && forall x <- items :: Within(x, bytesToo)
    case Map(m) => |m| < U32_LIMIT && forall k <- m :: |k| < U32_LIMIT && Within(m[k], bytesToo)
    case Structure(_, fields) => |fields| < U32_LIMIT && forall x <- fields :: Within(x, bytesToo)
  }

  // ---- headers ----

  lemma SizedRoundTrip(kind: Kind, n: nat, tail: seq<byte>)
    requires n < U32_LIMIT
    ensures ParseHead(PackHead(kind, n) + tail) == Ok((Sized(kind, n), |PackHead(kind, n)|))
  {
    Widths();
    var s := PackHead(kind, n) + tail;
    if n >= 65_536 {
      assert s[1..5] == BE(n, 4);
      FromBEofBE(n, 4);
    } else if n >= 256 {
      assert s[1..3] == BE(n, 2);
      FromBEofBE(n, 2);
    } else {
      FromBEofBE(n, 1);
      assert BE(n, 1) == [n];
      assert n >= 16 || kind == KBytes ==> s[1..2] == [n];
    }
  }

  lemma IntRoundTrip(i: int64, tail: seq<byte>)
    ensures ParseHead(PackInt(i) + tail) == Ok((Scalar(Int(i)), |PackInt(i)|))
  {
    Widths();
    var s := PackInt(i) + tail;
    var w := |PackInt(i)| - 1;
    if w == 0 {
      assert SignedBE(i, 1) == [if i < 0 then i + 256 else i];
    } else {
      assert s[1..1 + w] == SignedBE(i, w);
      FromSignedBEofSignedBE(i, w);
    }
  }

  predicate HeadWithin(head: Head) {
    match head
    case Scalar(a) => !a.String? && !a.Bytes?
    case Sized(_, n) => n < U32_LIMIT
  }

  lemma HeadRoundTrip(head: Head, tail: seq<byte>)
    requires HeadWithin(head)
    ensures ParseHead(HeadBytes(head) + tail) == Ok((head, |HeadBytes(head)|))
  {
    match head
    case Sized(kind, n) => SizedRoundTrip(kind, n, tail);
    case Scalar(Int(i)) => IntRoundTrip(i, tail);
    case Scalar(Float(bits)) => assert (HeadBytes(head) + tail)[1..9] == bits;
    case _ =>
  }

  /** A parsed header depends only on the bytes it used. */
  lemma HeadLocal(s: seq<byte>, tail: seq<byte>)
    requires ParseHead(s).Ok?
    ensures ParseHead(s[..ParseHead(s).value.1] + tail) == ParseHead(s)
  {
    var k := ParseHead(s).value.1;
    var s' := s[..k] + tail;
    assert s'[0] == s[0];
    assert s'[1..k] == s[1..k];
  }

  /** No header for what was parsed is shorter than the printed one. */
  lemma HeadMinimal(s: seq<byte>)
    requires ParseHead(s).Ok?
    ensures var (head, k) := ParseHead(s).value; HeadWithin(head) && |HeadBytes(head)| <= k
  {
    Widths();
  }

  // ---- trees ----

  /** Round trip with any tail: the parser returns the tree and stops where the tail starts. */
  lemma {:induction false} ParsePack(t: Tree, tail: seq<byte>)
    requires TreeWithin(t, true)
    ensures Parse(Pack(t) + tail) == Ok((t, |Pack(t)|))
    decreases t, 2
  {
    hide ParseHead, ParseRest, PackRest, HeadBytes;
    var h := HeadBytes(HeadOf(t));
    var rest := PackRest(t) + tail;
    assert Pack(t) + tail == h + rest && (h + rest)[|h|..] == rest;
    HeadRoundTrip(HeadOf(t), rest);
    ParsePackRest(t, tail);
  }

  lemma {:induction false} ParsePackRest(t: Tree, tail: seq<byte>)
    requires TreeWithin(t, true)
    ensures ParseRest(HeadOf(t), PackRest(t) + tail) == Ok((t, |PackRest(t)|))
    decreases t, 1
  {
    hide ParseAll, ParseEntries, PackAll, PackEntries;
    var s := PackRest(t) + tail;
    match t
    case Leaf(a) => assert s[..|AtomRest(a)|] == AtomRest(a);
    case ListOf(items) => ParsePackAll(items, tail);
    case MapOf(entries) => ParsePackEntries(entries, tail);
    case StructureOf(signature, fields) =>
      assert s[1..] == PackAll(fields) + tail;
      ParsePackAll(fields, tail);
  }

  lemma PackStringIsPack(text: Text)
    ensures PackString(text) == Pack(Leaf(String(text)))
  {
  }

  lemma ParsePackString(text: Text, tail: seq<byte>)
    requires |text| < U32_LIMIT
    ensures Parse(PackString(text) + tail) == Ok((Leaf(String(text)), |PackString(text)|))
  {
    hide ParseHead, HeadBytes;
    var h := HeadBytes(Sized(KString, |text|));
    HeadRoundTrip(Sized(KString, |text|), text + tail);
    assert PackString(text) + tail == h + (text + tail) && (h + (text + tail))[|h|..] == text + tail;
    assert (text + tail)[..|text|] == text;
  }

  lemma {:induction false} ParsePackAll(ts: seq<Tree>, tail: seq<byte>)
    requires AllWithin(ts, true)
    ensures ParseAll(PackAll(ts) + tail, |ts|) == Ok((ts, |PackAll(ts)|))
    decreases ts, 0
  {
    hide Parse, Pack;
    if ts != [] {
      var first, rest := Pack(ts[0]), PackAll(ts[1..]) + tail;
      assert PackAll(ts) + tail == first + rest && (first + rest)[|first|..] == rest;
      ParsePack(ts[0], rest);
      ParsePackAll(ts[1..], tail);
      assert [ts[0]] + ts[1..] == ts;
    }
  }

  lemma {:induction false} ParsePackEntry(key: Text, value: Tree, tail: seq<byte>)
    requires |key| < U32_LIMIT && TreeWithin(value, true)
    ensures var bytes := PackString(key) + Pack(value);
            ParseEntry(bytes + tail) == Ok((key, value, |bytes|))
    decreases value, 3
  {
    hide Parse, Pack, PackString;
    var k, v := PackString(key), Pack(value);
    var s := k + v + tail;
    assert s == k + (v + tail) && s[|k|..] == v + tail;
    ParsePackString(key, v + tail);
    ParsePack(value, tail);
  }

  lemma {:induction false} ParsePackEntries(es: Entries, tail: seq<byte>)
    requires EntriesWithin(es, true)
    ensures ParseEntries(PackEntries(es) + tail, Count(es)) == Ok((es, |PackEntries(es)|))
    decreases es, 0
  {
    hide Parse, Pack, PackString, ParseEntry;
    if es.Cons? {
      var first := PackString(es.key) + Pack(es.value);
      var rest := PackEntries(es.rest) + tail;
      assert PackEntries(es) + tail == first + rest && (first + rest)[|first|..] == rest;
      ParsePackEntry(es.key, es.value, rest);
      ParsePackEntries(es.rest, tail);
    }
  }

  /** Parsing depends only on the bytes it uses. */
  lemma {:induction false} ParseLocal(s: seq<byte>, tail: seq<byte>)
    requires Parse(s).Ok?
    ensures Parse(s[..Parse(s).value.1] + tail) == Parse(s)
    decreases |s|, 0, 0
  {
    hide ParseHead, ParseRest;
    var (head, k) := ParseHead(s).value;
    var end := Parse(s).value.1;
    var s' := s[..end] + tail;
    HeadLocal(s, s[k..end] + tail);
    assert s' == s[..k] + (s[k..end] + tail);
    ParseRestLocal(head, s[k..], tail);
    assert s'[k..] == s[k..][..end - k] + tail;
  }

  lemma {:induction false} ParseRestLocal(head: Head, s: seq<byte>, tail: seq<byte>)
    requires ParseRest(head, s).Ok?
    ensures ParseRest(head, s[..ParseRest(head, s).value.1] + tail) == ParseRest(head, s)
    decreases |s|, 2, 0
  {
    hide ParseAll, ParseEntries;
    var end := ParseRest(head, s).value.1;
    var s' := s[..end] + tail;
    match head
    case Sized(KList, n) => ParseAllLocal(s, n, tail);
    case Sized(KMap, n) => ParseEntriesLocal(s, n, tail);
    case Sized(KStruct, n) =>
      ParseAllLocal(s[1..], n, tail);
      assert s'[..1] == s[..1];
      assert s'[1..] == s[1..][..end - 1] + tail;
    case Sized(_, n) => assert s'[..n] == s[..n];
    case Scalar(_) =>
  }

  lemma {:induction false} ParseAllLocal(s: seq<byte>, n: nat, tail: seq<byte>)
    requires ParseAll(s, n).Ok?
    ensures ParseAll(s[..ParseAll(s, n).value.1] + tail, n) == ParseAll(s, n)
    decreases |s|, 1, n
  {
    hide Parse;
    if n > 0 {
      var k := Parse(s).value.1;
      var end := ParseAll(s, n).value.1;
      var s' := s[..end] + tail;
      ParseLocal(s, s[k..end] + tail);
      assert s' == s[..k] + (s[k..end] + tail);
      ParseAllLocal(s[k..], n - 1, tail);
      assert s'[k..] == s[k..][..end - k] + tail;
    }
  }

  lemma {:induction false} ParseEntryLocal(s: seq<byte>, tail: seq<byte>)
    requires ParseEntry(s).Ok?
    ensures ParseEntry(s[..ParseEntry(s).value.2] + tail) == ParseEntry(s)
    decreases |s|, 1, 0
  {
    hide Parse;
    var k := Parse(s).value.1;
    var end := ParseEntry(s).value.2;
    var s' := s[..end] + tail;
    ParseLocal(s, s[k..end] + tail);
    assert s' == s[..k] + (s[k..end] + tail);
    ParseLocal(s[k..], tail);
    assert s'[k..] == s[k..][..end - k] + tail;
  }

  lemma {:induction false} ParseEntriesLocal(s: seq<byte>, n: nat, tail: seq<byte>)
    requires ParseEntries(s, n).Ok?
    ensures ParseEntries(s[..ParseEntries(s, n).value.1] + tail, n) == ParseEntries(s, n)
    decreases |s|, 1, n
  {
    hide ParseEntry;
    if n > 0 {
      var k := ParseEntry(s).value.2;
      var end := ParseEntries(s, n).value.1;
      var s' := s[..end] + tail;
      ParseEntryLocal(s, s[k..end] + tail);
      assert s' == s[..k] + (s[k..end] + tail);
      ParseEntriesLocal(s[k..], n - 1, tail);
      assert s'[k..] == s[k..][..end - k] + tail;
    }
  }

  /** Printing what was parsed takes no more bytes than were used, duplicate keys included. */
  lemma {:induction false} ParseShrinks(s: seq<byte>)
    requires Parse(s).Ok?
    ensures var (t, k) := Parse(s).value; TreeWithin(t, true) && |Pack(t)| <= k
    decreases |s|, 0, 0
  {
    hide ParseHead, ParseRest, HeadBytes, PackRest;
    var (head, k) := ParseHead(s).value;
    HeadMinimal(s);
    ParseRestShrinks(head, s[k..]);
  }

  lemma {:induction false} ParseRestShrinks(head: Head, s: seq<byte>)
    requires HeadWithin(head) && ParseRest(head, s).Ok?
    ensures var (t, k) := ParseRest(head, s).value;
            HeadOf(t) == head && TreeWithin(t, true) && |PackRest(t)| <= k
    decreases |s|, 2, 0
  {
    hide ParseAll, ParseEntries, PackAll, PackEntries;
    match head
    case Sized(KList, n) => ParseAllShrinks(s, n);
    case Sized(KMap, n) => ParseEntriesShrinks(s, n);
    case Sized(KStruct, n) => ParseAllShrinks(s[1..], n);
    case _ =>
  }

  lemma {:induction false} ParseAllShrinks(s: seq<byte>, n: nat)
    requires ParseAll(s, n).Ok?
    ensures var (ts, k) := ParseAll(s, n).value; AllWithin(ts, true) && |PackAll(ts)| <= k
    decreases |s|, 1, n
  {
    hide Parse, Pack;
    if n > 0 {
      ParseShrinks(s);
      ParseAllShrinks(s[Parse(s).value.1..], n - 1);
    }
  }

  lemma {:induction false} ParseEntriesShrinks(s: seq<byte>, n: nat)
    requires ParseEntries(s, n).Ok?
    ensures var (es, k) := ParseEntries(s, n).value; EntriesWithin(es, true) && |PackEntries(es)| <= k
    decreases |s|, 1, n
  {
    hide Parse, Pack;
    if n > 0 {
      var (key, k) := Parse(s).value;
      ParseShrinks(s);
      PackStringIsPack(key.a.s);
      ParseShrinks(s[k..]);
      ParseEntriesShrinks(s[ParseEntry(s).value.2..], n - 1);
    }
  }
}
