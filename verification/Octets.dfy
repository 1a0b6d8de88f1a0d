/**
 * The wire format of values in literals: which bytes `Pack` prints for every atom and container,
 * and what `Parse` reads from every marker byte there is, wider than needed or cut off.
 */
module Octets {
  import opened Bytes
  import opened Values
  import opened PackStream

  // ---- printing ----

  lemma ScalarBytes(b: bool, bits: Float64)
    ensures Pack(Leaf(Null)) == [0xC0]
    ensures Pack(Leaf(Bool(b))) == if b then [0xC3] else [0xC2]
    ensures Pack(Leaf(Float(bits))) == [0xC1] + bits
  {
  }

  /** Integers take the narrowest form; `n` is what its bytes spell without a sign. */
  lemma IntBytes(i: int64)
    ensures -0x10 <= i < 0x80 ==> Pack(Leaf(Int(i))) == [if i < 0 then i + 0x100 else i]
    ensures -0x80 <= i < -0x10 ==> Pack(Leaf(Int(i))) == [0xC8, i + 0x100]
    ensures -0x8000 <= i < -0x80 || 0x80 <= i < 0x8000 ==>
      var s, n := Pack(Leaf(Int(i))), if i < 0 then i + 0x1_0000 else i;
      |s| == 3 && s[0] == 0xC9 && n == s[1] as int * 0x100 + s[2]
    ensures -0x8000_0000 <= i < -0x8000 || 0x8000 <= i < 0x8000_0000 ==>
      var s, n := Pack(Leaf(Int(i))), if i < 0 then i + 0x1_0000_0000 else i;
      |s| == 5 && s[0] == 0xCA && n == ((s[1] as int * 0x100 + s[2]) * 0x100 + s[3]) * 0x100 + s[4]
    ensures i < -0x8000_0000 || 0x8000_0000 <= i ==>
      var s, n := Pack(Leaf(Int(i))), if i < 0 then i + 0x1_0000_0000_0000_0000 else i;
      && |s| == 9 && s[0] == 0xCB
      && var high := ((s[1] as int * 0x100 + s[2]) * 0x100 + s[3]) * 0x100 + s[4];
         n == (((high * 0x100 + s[5]) * 0x100 + s[6]) * 0x100 + s[7]) * 0x100 + s[8]
  {
    hide *;
    var w := IntWidth(i);
    if w == 0 || w == 1 {
      OneByte(i);
    } else {
      NumberBytes(Pack(Leaf(Int(i))), i, w);
    }
  }

  lemma IntWidth(i: int64) returns (w: nat)
    ensures w in {0, 1, 2, 4, 8} && Range(1) == 0x100 && Range(2) == 0x1_0000 && Range(4) == 0x1_0000_0000
    ensures Range(8) == 0x1_0000_0000_0000_0000
    ensures w == if -0x10 <= i < 0x80 then 0 else if -0x80 <= i < 0x80 then 1 else if -0x8000 <= i < 0x8000 then 2
                 else if -0x8000_0000 <= i < 0x8000_0000 then 4 else 8
    ensures Pack(Leaf(Int(i))) ==
            (match w case 0 => [] case 1 => [0xC8] case 2 => [0xC9] case 4 => [0xCA] case _ => [0xCB])
            + SignedBE(i, if w == 0 then 1 else w)
  {
    Widths();
    w := |PackInt(i)| - 1;
    if w == 0 {
      assert [] + SignedBE(i, 1) == SignedBE(i, 1);
    }
  }

  lemma OneByte(i: int64)
    requires -0x80 <= i < 0x80
    ensures 0 <= i + Range(1) && SignedBE(i, 1) == [if i < 0 then i + 0x100 else i]
  {
  }

  lemma NumberBytes(s: seq<byte>, i: int64, w: nat)
    requires (w == 2 || w == 4 || w == 8) && |s| == w + 1 && 0 <= i + Range(w) && i < Range(w)
    requires s[1..] == SignedBE(i, w)
    ensures FromBE(s[1..]) == if i < 0 then i + Range(w) else i
    ensures w == 2 ==> FromBE(s[1..]) == s[1] as int * 0x100 + s[2]
    ensures w == 4 ==> FromBE(s[1..]) == ((s[1] as int * 0x100 + s[2]) * 0x100 + s[3]) * 0x100 + s[4]
    ensures w == 8 ==>
      var high := ((s[1] as int * 0x100 + s[2]) * 0x100 + s[3]) * 0x100 + s[4];
      FromBE(s[1..]) == (((high * 0x100 + s[5]) * 0x100 + s[6]) * 0x100 + s[7]) * 0x100 + s[8]
  {
    FromBEofBE(if i < 0 then i + Range(w) else i, w);
    Spelled(s[1..]);
    hide FromBE, BE, Range;
  }

  /** A header, given its marker for tiny sizes and its marker for sizes of one byte. */
  lemma HeadsOut(kind: Kind, n: nat)
    requires n < 0x1_0000_0000 || kind == KBytes
    ensures var m := n % 0x1_0000_0000;
      var (tiny, marker) := match kind
        case KString => (0x80, 0xD0)
        case KList => (0x90, 0xD4)
        case KMap => (0xA0, 0xD8)
        case KStruct => (0xB0, 0xDC)
        case KBytes => (0, 0xCC);
      && (n < 0x10 && kind != KBytes ==> HeadBytes(Sized(kind, n)) == [tiny + n])
      && (0x10 <= n < 0x100 || (n < 0x10 && kind == KBytes) ==> HeadBytes(Sized(kind, n)) == [marker, n])
      && (0x100 <= n < 0x1_0000 ==> HeadBytes(Sized(kind, n)) == [marker + 1, n / 0x100, n % 0x100])
      && (0x1_0000 <= n ==>
            HeadBytes(Sized(kind, n))
            == [marker + 2, m / 0x100 / 0x100 / 0x100, m / 0x100 / 0x100 % 0x100, m / 0x100 % 0x100, m % 0x100])
  {
    hide HeadBytes;
    if n < 0x100 {
      NarrowHead(kind, n);
    } else if n < 0x1_0000 {
      MiddleHead(kind, n);
    } else {
      WideHead(kind, n);
    }
  }

  lemma NarrowHead(kind: Kind, n: nat)
    requires n < 0x100
    ensures HeadBytes(Sized(kind, n)) ==
            if n < 0x10 && kind != KBytes then [TinyMarker(kind) + n] else [Marker8(kind), n]
  {
  }

  lemma MiddleHead(kind: Kind, n: nat)
    requires 0x100 <= n < 0x1_0000
    ensures HeadBytes(Sized(kind, n)) == [Marker8(kind) + 1, n / 0x100, n % 0x100]
  {
    Quotients(n);
    hide BE, Marker8;
  }

  lemma WideHead(kind: Kind, n: nat)
    requires 0x1_0000 <= n
    ensures var m := n % 0x1_0000_0000;
      HeadBytes(Sized(kind, n))
      == [Marker8(kind) + 2, m / 0x100 / 0x100 / 0x100, m / 0x100 / 0x100 % 0x100, m / 0x100 % 0x100, m % 0x100]
  {
    Quotients(n % 0x1_0000_0000);
    hide BE, Marker8;
  }

  lemma Parted(t: Tree)
    ensures t.ListOf? ==> Pack(t) == HeadBytes(Sized(KList, |t.items|)) + PackAll(t.items)
    ensures t.MapOf? ==> Pack(t) == HeadBytes(Sized(KMap, Count(t.entries))) + PackEntries(t.entries)
    ensures t.StructureOf? ==>
      Pack(t) == HeadBytes(Sized(KStruct, |t.fields|)) + ([t.signature] + PackAll(t.fields))
  {
    hide HeadBytes, PackAll, PackEntries, Count;
  }

  lemma StringBytes(s: Text)
    ensures |s| < 0x10 ==> Pack(Leaf(String(s))) == [0x80 + |s|] + s
    ensures 0x10 <= |s| < 0x100 ==> Pack(Leaf(String(s))) == [0xD0, |s|] + s
    ensures 0x100 <= |s| < 0x1_0000 ==> Pack(Leaf(String(s))) == [0xD1, |s| / 0x100, |s| % 0x100] + s
    ensures 0x1_0000 <= |s| < 0x1_0000_0000 ==>
      Pack(Leaf(String(s)))
      == [0xD2, |s| / 0x100 / 0x100 / 0x100, |s| / 0x100 / 0x100 % 0x100, |s| / 0x100 % 0x100, |s| % 0x100]
         + s
  {
    if |s| < 0x1_0000_0000 {
      HeadsOut(KString, |s|);
    }
    hide HeadBytes;
  }

  /** There is no tiny form, and a size of 2^32 or more is cut off. */
  lemma BlobBytes(data: seq<byte>)
    ensures |data| < 0x100 ==> Pack(Leaf(Bytes(data))) == [0xCC, |data|] + data
    ensures 0x100 <= |data| < 0x1_0000 ==> Pack(Leaf(Bytes(data))) == [0xCD, |data| / 0x100, |data| % 0x100] + data
    ensures 0x1_0000 <= |data| ==>
      var m := |data| % 0x1_0000_0000;
      Pack(Leaf(Bytes(data)))
      == [0xCE, m / 0x100 / 0x100 / 0x100, m / 0x100 / 0x100 % 0x100, m / 0x100 % 0x100, m % 0x100] + data
  {
    HeadsOut(KBytes, |data|);
    hide HeadBytes;
  }

  lemma ListBytes(items: seq<Tree>)
    ensures |items| < 0x10 ==> Pack(ListOf(items)) == [0x90 + |items|] + PackAll(items)
    ensures 0x10 <= |items| < 0x100 ==> Pack(ListOf(items)) == [0xD4, |items|] + PackAll(items)
    ensures 0x100 <= |items| < 0x1_0000 ==>
      Pack(ListOf(items)) == [0xD5, |items| / 0x100, |items| % 0x100] + PackAll(items)
    ensures 0x1_0000 <= |items| < 0x1_0000_0000 ==>
      Pack(ListOf(items))
      == [0xD6, |items| / 0x100 / 0x100 / 0x100, |items| / 0x100 / 0x100 % 0x100, |items| / 0x100 % 0x100,
          |items| % 0x100]
         + PackAll(items)
  {
    hide *;
    Parted(ListOf(items));
    ListHead(|items|, HeadBytes(Sized(KList, |items|)));
  }

  lemma ListHead(n: nat, head: seq<byte>)
    requires head == HeadBytes(Sized(KList, n))
    ensures n < 0x10 ==> head == [0x90 + n]
    ensures 0x10 <= n < 0x100 ==> head == [0xD4, n]
    ensures 0x100 <= n < 0x1_0000 ==> head == [0xD5, n / 0x100, n % 0x100]
    ensures 0x1_0000 <= n < 0x1_0000_0000 ==>
      head == [0xD6, n / 0x100 / 0x100 / 0x100, n / 0x100 / 0x100 % 0x100, n / 0x100 % 0x100, n % 0x100]
  {
    hide *;
    if n < 0x1_0000_0000 {
      HeadsOut(KList, n);
    }
  }

  lemma MapBytes(es: Entries)
    ensures Count(es) < 0x10 ==> Pack(MapOf(es)) == [0xA0 + Count(es)] + PackEntries(es)
    ensures 0x10 <= Count(es) < 0x100 ==> Pack(MapOf(es)) == [0xD8, Count(es)] + PackEntries(es)
    ensures 0x100 <= Count(es) < 0x1_0000 ==>
      Pack(MapOf(es)) == [0xD9, Count(es) / 0x100, Count(es) % 0x100] + PackEntries(es)
    ensures 0x1_0000 <= Count(es) < 0x1_0000_0000 ==>
      Pack(MapOf(es))
      == [0xDA, Count(es) / 0x100 / 0x100 / 0x100, Count(es) / 0x100 / 0x100 % 0x100, Count(es) / 0x100 % 0x100,
          Count(es) % 0x100]
         + PackEntries(es)
  {
    hide *;
    Parted(MapOf(es));
    MapHead(Count(es), HeadBytes(Sized(KMap, Count(es))));
  }

  lemma MapHead(n: nat, head: seq<byte>)
    requires head == HeadBytes(Sized(KMap, n))
    ensures n < 0x10 ==> head == [0xA0 + n]
    ensures 0x10 <= n < 0x100 ==> head == [0xD8, n]
    ensures 0x100 <= n < 0x1_0000 ==> head == [0xD9, n / 0x100, n % 0x100]
    ensures 0x1_0000 <= n < 0x1_0000_0000 ==>
      head == [0xDA, n / 0x100 / 0x100 / 0x100, n / 0x100 / 0x100 % 0x100, n / 0x100 % 0x100, n % 0x100]
  {
    hide *;
    if n < 0x1_0000_0000 {
      HeadsOut(KMap, n);
    }
  }

  lemma StructBytes(signature: byte, fields: seq<Tree>)
    ensures |fields| < 0x10 ==>
      Pack(StructureOf(signature, fields)) == [0xB0 + |fields|, signature] + PackAll(fields)
    ensures 0x10 <= |fields| < 0x100 ==>
      Pack(StructureOf(signature, fields)) == [0xDC, |fields|, signature] + PackAll(fields)
    ensures 0x100 <= |fields| < 0x1_0000 ==>
      Pack(StructureOf(signature, fields)) == [0xDD, |fields| / 0x100, |fields| % 0x100, signature] + PackAll(fields)
    ensures 0x1_0000 <= |fields| < 0x1_0000_0000 ==>
      Pack(StructureOf(signature, fields))
      == [0xDE, |fields| / 0x100 / 0x100 / 0x100, |fields| / 0x100 / 0x100 % 0x100, |fields| / 0x100 % 0x100,
          |fields| % 0x100, signature] + PackAll(fields)
  {
    hide *;
    var n, head := |fields|, HeadBytes(Sized(KStruct, |fields|));
    Parted(StructureOf(signature, fields));
    Assoc(head, [signature], PackAll(fields));
    StructHead(n, head, signature);
  }

  lemma StructHead(n: nat, head: seq<byte>, signature: byte)
    requires head == HeadBytes(Sized(KStruct, n))
    ensures n < 0x10 ==> head + [signature] == [0xB0 + n, signature]
    ensures 0x10 <= n < 0x100 ==> head + [signature] == [0xDC, n, signature]
    ensures 0x100 <= n < 0x1_0000 ==> head + [signature] == [0xDD, n / 0x100, n % 0x100, signature]
    ensures 0x1_0000 <= n < 0x1_0000_0000 ==>
      head + [signature]
      == [0xDE, n / 0x100 / 0x100 / 0x100, n / 0x100 / 0x100 % 0x100, n / 0x100 % 0x100, n % 0x100, signature]
  {
    hide *;
    if n < 0x1_0000_0000 {
      HeadsOut(KStruct, n);
    }
  }

  /** Members come one after the other, first to last. */
  lemma {:induction false} MemberBytes(ts: seq<Tree>, us: seq<Tree>)
    ensures PackAll([]) == [] && forall t :: PackAll([t]) == Pack(t)
    ensures PackAll(ts + us) == PackAll(ts) + PackAll(us)
  {
    hide Pack;
    assert forall t: Tree :: [t][1..] == [];
    if ts == [] {
      assert ts + us == us;
    } else {
      assert (ts + us)[1..] == ts[1..] + us;
      MemberBytes(ts[1..], us);
    }
  }

  /** Entries come one after the other, each its key and then its value. */
  lemma EntryBytes(key: Text, value: Tree, rest: Entries)
    ensures PackEntries(Nil) == []
    ensures PackEntries(Cons(key, value, rest)) == Pack(Leaf(String(key))) + Pack(value) + PackEntries(rest)
  {
  }

  // ---- parsing ----

  /** Atoms of a fixed size. */
  lemma ReadsScalar(s: seq<byte>)
    requires s != []
    ensures s[0] < 0x80 ==> Parse(s) == Ok((Leaf(Int(s[0])), 1))
    ensures s[0] >= 0xF0 ==> Parse(s) == Ok((Leaf(Int(s[0] as int - 0x100)), 1))
    ensures s[0] == 0xC0 ==> Parse(s) == Ok((Leaf(Null), 1))
    ensures s[0] == 0xC2 ==> Parse(s) == Ok((Leaf(Bool(false)), 1))
    ensures s[0] == 0xC3 ==> Parse(s) == Ok((Leaf(Bool(true)), 1))
    ensures s[0] == 0xC1 ==> Parse(s) == if |s| < 9 then Err(UnexpectedEnd) else Ok((Leaf(Float(s[1..9])), 9))
  {
    hide ParseAll, ParseEntries, Utf8;
  }

  /** Integers of each width, whether or not they need it. */
  lemma ReadsInt(s: seq<byte>)
    requires s != []
    ensures s[0] == 0xC8 ==>
      Parse(s) ==
      if |s| < 2 then Err(UnexpectedEnd)
      else Ok((Leaf(Int(if s[1] < 0x80 then s[1] else s[1] as int - 0x100)), 2))
    ensures s[0] == 0xC9 ==>
      Parse(s) ==
      if |s| < 3 then Err(UnexpectedEnd)
      else
        var n := s[1] as int * 0x100 + s[2];
        Ok((Leaf(Int(if n < 0x8000 then n else n - 0x1_0000)), 3))
    ensures s[0] == 0xCA ==>
      Parse(s) ==
      if |s| < 5 then Err(UnexpectedEnd)
      else
        var n := ((s[1] as int * 0x100 + s[2]) * 0x100 + s[3]) * 0x100 + s[4];
        Ok((Leaf(Int(if n < 0x8000_0000 then n else n - 0x1_0000_0000)), 5))
    ensures s[0] == 0xCB ==>
      Parse(s) ==
      if |s| < 9 then Err(UnexpectedEnd)
      else
        var high := ((s[1] as int * 0x100 + s[2]) * 0x100 + s[3]) * 0x100 + s[4];
        var n := (((high * 0x100 + s[5]) * 0x100 + s[6]) * 0x100 + s[7]) * 0x100 + s[8];
        Ok((Leaf(Int(if n < 0x8000_0000_0000_0000 then n else n - 0x1_0000_0000_0000_0000)), 9))
  {
    hide *;
    if 0xC8 <= s[0] <= 0xCB {
      var w := if s[0] == 0xC8 then 1 else if s[0] == 0xC9 then 2 else if s[0] == 0xCA then 4 else 8;
      IntIn(s, w);
      if |s| > w {
        Signed(s, w);
      }
    }
  }

  lemma IntIn(s: seq<byte>, w: nat)
    requires s != [] && w in {1, 2, 4, 8}
    requires s[0] == if w == 1 then 0xC8 else if w == 2 then 0xC9 else if w == 4 then 0xCA else 0xCB
    ensures if |s| <= w then Parse(s) == Err(UnexpectedEnd)
            else
              var i := FromSignedBE(s[1..1 + w]);
              -0x8000_0000_0000_0000 <= i < 0x8000_0000_0000_0000 && Parse(s) == Ok((Leaf(Int(i)), 1 + w))
  {
    hide ParseHead, FromSignedBE, ParseAll, ParseEntries, Utf8, FromBE, Range;
    HeadInt(s, w);
  }

  lemma HeadInt(s: seq<byte>, w: nat)
    requires s != [] && w in {1, 2, 4, 8}
    requires s[0] == if w == 1 then 0xC8 else if w == 2 then 0xC9 else if w == 4 then 0xCA else 0xCB
    ensures if |s| <= w then ParseHead(s) == Err(UnexpectedEnd)
            else
              var i := FromSignedBE(s[1..1 + w]);
              -0x8000_0000_0000_0000 <= i < 0x8000_0000_0000_0000 && ParseHead(s) == Ok((Scalar(Int(i)), 1 + w))
  {
    Widths();
    hide FromBE;
  }

  lemma Signed(s: seq<byte>, w: nat)
    requires |s| > w && w in {1, 2, 4, 8}
    ensures var n := FromBE(s[1..1 + w]);
      var limit := if w == 1 then 0x100 else if w == 2 then 0x1_0000 else
                   if w == 4 then 0x1_0000_0000 else 0x1_0000_0000_0000_0000;
      FromSignedBE(s[1..1 + w]) == if 2 * n < limit then n else n - limit
    ensures w == 1 ==> FromBE(s[1..1 + w]) == s[1]
    ensures w == 2 ==> FromBE(s[1..1 + w]) == s[1] as int * 0x100 + s[2]
    ensures w == 4 ==> FromBE(s[1..1 + w]) == ((s[1] as int * 0x100 + s[2]) * 0x100 + s[3]) * 0x100 + s[4]
    ensures w == 8 ==>
      var n := ((s[1] as int * 0x100 + s[2]) * 0x100 + s[3]) * 0x100 + s[4];
      FromBE(s[1..1 + w]) == (((n * 0x100 + s[5]) * 0x100 + s[6]) * 0x100 + s[7]) * 0x100 + s[8]
  {
    Widths();
    Spelled(s[1..1 + w]);
    hide FromBE, Range;
  }

  /** Nothing there, a marker that does not exist, or a size that is cut off. */
  lemma ReadsNothing(s: seq<byte>)
    ensures s == [] ==> Parse(s) == Err(UnexpectedEnd)
    ensures s != [] && (0xC4 <= s[0] < 0xC8 || s[0] == 0xCF || s[0] == 0xD3 || s[0] == 0xD7) ==>
      Parse(s) == Err(UnknownMarker(s[0]))
    ensures s != [] && (s[0] == 0xDB || 0xDF <= s[0] < 0xF0) ==> Parse(s) == Err(UnknownMarker(s[0]))
    ensures |s| == 1 && (s[0] == 0xCC || s[0] == 0xD0 || s[0] == 0xD4 || s[0] == 0xD8 || s[0] == 0xDC) ==>
      Parse(s) == Err(UnexpectedEnd)
    ensures 1 <= |s| < 3 && (s[0] == 0xCD || s[0] == 0xD1 || s[0] == 0xD5 || s[0] == 0xD9 || s[0] == 0xDD) ==>
      Parse(s) == Err(UnexpectedEnd)
    ensures 1 <= |s| < 5 && (s[0] == 0xCE || s[0] == 0xD2 || s[0] == 0xD6 || s[0] == 0xDA || s[0] == 0xDE) ==>
      Parse(s) == Err(UnexpectedEnd)
  {
    HeadNothing(s);
    hide ParseHead, ParseRest;
  }

  lemma HeadNothing(s: seq<byte>)
    ensures var r := ParseHead(s);
      && (s == [] ==> r == Err(UnexpectedEnd))
      && (s != [] && (0xC4 <= s[0] < 0xC8 || s[0] == 0xCF || s[0] == 0xD3 || s[0] == 0xD7 || s[0] == 0xDB
                      || 0xDF <= s[0] < 0xF0) ==>
            r == Err(UnknownMarker(s[0])))
      && (|s| == 1 && (s[0] == 0xCC || s[0] == 0xD0 || s[0] == 0xD4 || s[0] == 0xD8 || s[0] == 0xDC) ==>
            r == Err(UnexpectedEnd))
      && (1 <= |s| < 3 && (s[0] == 0xCD || s[0] == 0xD1 || s[0] == 0xD5 || s[0] == 0xD9 || s[0] == 0xDD) ==>
            r == Err(UnexpectedEnd))
      && (1 <= |s| < 5 && (s[0] == 0xCE || s[0] == 0xD2 || s[0] == 0xD6 || s[0] == 0xDA || s[0] == 0xDE) ==>
            r == Err(UnexpectedEnd))
  {
    hide FromBE, Range;
  }

  lemma ReadsString(s: seq<byte>, h: nat, n: nat)
    requires
      || (h == 1 && 1 <= |s| && n < 0x10 && s[0] as int == 0x80 + n)
      || (h == 2 && 2 <= |s| && s[0] == 0xD0 && n == s[1])
      || (h == 3 && 3 <= |s| && s[0] == 0xD1 && n == s[1] as int * 0x100 + s[2])
      || (h == 5 && 5 <= |s| && s[0] == 0xD2
          && n == ((s[1] as int * 0x100 + s[2]) * 0x100 + s[3]) * 0x100 + s[4])
    ensures Parse(s) ==
      if |s| < h + n then Err(UnexpectedEnd)
      else if !Utf8(s[h..h + n]) then Err(InvalidUtf8)
      else Ok((Leaf(String(s[h..h + n])), h + n))
  {
    hide *;
    HeadsIn(s, KString, h, n);
    ReadsOn(s);
    TextIn(s[h..], n);
    Sliced(s, h, n);
  }

  lemma Sliced(s: seq<byte>, h: nat, n: nat)
    ensures |s| >= h + n ==> s[h..][..n] == s[h..h + n]
  {
  }

  lemma ReadsOn(s: seq<byte>)
    requires ParseHead(s).Ok?
    ensures var (head, k) := ParseHead(s).value;
      Parse(s) == match ParseRest(head, s[k..]) case Ok((t, used)) => Ok((t, k + used)) case Err(e) => Err(e)
  {
    hide ParseHead, ParseRest;
  }

  lemma TextIn(s: seq<byte>, n: nat)
    ensures ParseRest(Sized(KString, n), s) ==
      if |s| < n then Err(UnexpectedEnd)
      else if !Utf8(s[..n]) then Err(InvalidUtf8)
      else Ok((Leaf(String(s[..n])), n))
  {
    hide Utf8;
  }

  lemma ReadsBlob(s: seq<byte>, h: nat, n: nat)
    requires
      || (h == 2 && 2 <= |s| && s[0] == 0xCC && n == s[1])
      || (h == 3 && 3 <= |s| && s[0] == 0xCD && n == s[1] as int * 0x100 + s[2])
      || (h == 5 && 5 <= |s| && s[0] == 0xCE
          && n == ((s[1] as int * 0x100 + s[2]) * 0x100 + s[3]) * 0x100 + s[4])
    ensures Parse(s) == if |s| < h + n then Err(UnexpectedEnd) else Ok((Leaf(Bytes(s[h..h + n])), h + n))
  {
    hide FromBE, ParseAll, ParseEntries, Utf8, ParseHead;
    HeadsIn(s, KBytes, h, n);
    Sliced(s, h, n);
  }

  lemma ReadsList(s: seq<byte>, h: nat, n: nat)
    requires
      || (h == 1 && 1 <= |s| && n < 0x10 && s[0] as int == 0x90 + n)
      || (h == 2 && 2 <= |s| && s[0] == 0xD4 && n == s[1])
      || (h == 3 && 3 <= |s| && s[0] == 0xD5 && n == s[1] as int * 0x100 + s[2])
      || (h == 5 && 5 <= |s| && s[0] == 0xD6
          && n == ((s[1] as int * 0x100 + s[2]) * 0x100 + s[3]) * 0x100 + s[4])
    ensures Parse(s) == match ParseAll(s[h..], n)
                        case Ok((items, used)) => Ok((ListOf(items), h + used))
                        case Err(e) => Err(e)
  {
    hide ParseHead, ParseAll, ParseEntries, Utf8;
    HeadsIn(s, KList, h, n);
  }

  lemma ReadsMap(s: seq<byte>, h: nat, n: nat)
    requires
      || (h == 1 && 1 <= |s| && n < 0x10 && s[0] as int == 0xA0 + n)
      || (h == 2 && 2 <= |s| && s[0] == 0xD8 && n == s[1])
      || (h == 3 && 3 <= |s| && s[0] == 0xD9 && n == s[1] as int * 0x100 + s[2])
      || (h == 5 && 5 <= |s| && s[0] == 0xDA
          && n == ((s[1] as int * 0x100 + s[2]) * 0x100 + s[3]) * 0x100 + s[4])
    ensures Parse(s) == match ParseEntries(s[h..], n)
                        case Ok((entries, used)) => Ok((MapOf(entries), h + used))
                        case Err(e) => Err(e)
  {
    hide ParseHead, ParseAll, ParseEntries, Utf8;
    HeadsIn(s, KMap, h, n);
  }

  /** The signature is the byte after the header. */
  lemma ReadsStruct(s: seq<byte>, h: nat, n: nat)
    requires
      || (h == 1 && 1 <= |s| && n < 0x10 && s[0] as int == 0xB0 + n)
      || (h == 2 && 2 <= |s| && s[0] == 0xDC && n == s[1])
      || (h == 3 && 3 <= |s| && s[0] == 0xDD && n == s[1] as int * 0x100 + s[2])
      || (h == 5 && 5 <= |s| && s[0] == 0xDE
          && n == ((s[1] as int * 0x100 + s[2]) * 0x100 + s[3]) * 0x100 + s[4])
    ensures Parse(s) ==
      if |s| == h then Err(UnexpectedEnd)
      else match ParseAll(s[h + 1..], n)
           case Ok((fields, used)) => Ok((StructureOf(s[h], fields), h + 1 + used))
           case Err(e) => Err(e)
  {
    hide ParseHead, ParseAll, ParseEntries, Utf8;
    HeadsIn(s, KStruct, h, n);
    if |s| > h {
      assert s[h..][1..] == s[h + 1..];
    }
  }

  lemma HeadsIn(s: seq<byte>, kind: Kind, h: nat, n: nat)
    requires var (tiny, marker) := match kind
        case KString => (0x80, 0xD0)
        case KList => (0x90, 0xD4)
        case KMap => (0xA0, 0xD8)
        case KStruct => (0xB0, 0xDC)
        case KBytes => (0, 0xCC);
      || (h == 1 && 1 <= |s| && n < 0x10 && kind != KBytes && s[0] as int == tiny + n)
      || (h == 2 && 2 <= |s| && s[0] == marker && n == s[1])
      || (h == 3 && 3 <= |s| && s[0] == marker + 1 && n == s[1] as int * 0x100 + s[2])
      || (h == 5 && 5 <= |s| && s[0] == marker + 2
          && n == ((s[1] as int * 0x100 + s[2]) * 0x100 + s[3]) * 0x100 + s[4])
    ensures ParseHead(s) == Ok((Sized(kind, n), h))
  {
    hide FromBE;
    if h > 1 {
      Spelled(s[1..h]);
    }
  }

  /** Members and entries are read one after the other until one fails. */
  lemma ReadsMembers(s: seq<byte>, n: nat)
    ensures ParseAll(s, 0) == Ok(([], 0)) && ParseEntries(s, 0) == Ok((Nil, 0))
    ensures n > 0 ==>
      ParseAll(s, n) ==
      match Parse(s)
      case Err(e) => Err(e)
      case Ok((t, k)) =>
        match ParseAll(s[k..], n - 1)
        case Err(e) => Err(e)
        case Ok((ts, used)) => Ok(([t] + ts, k + used))
  {
    hide Parse;
  }

  /** A key must be a string. */
  lemma ReadsEntry(s: seq<byte>, n: nat)
    requires n > 0
    ensures ParseEntries(s, n) ==
      match Parse(s)
      case Err(e) => Err(e)
      case Ok((key, k)) =>
        if !(key.Leaf? && key.a.String?) then Err(KeyNotString)
        else
          match Parse(s[k..])
          case Err(e) => Err(e)
          case Ok((value, j)) =>
            match ParseEntries(s[k + j..], n - 1)
            case Err(e) => Err(e)
            case Ok((rest, used)) => Ok((Cons(key.a.s, value, rest), k + j + used))
  {
    hide Parse, Utf8;
  }

  // ---- what a tree stands for ----

  lemma {:induction false} MembersStand(ts: seq<Tree>)
    ensures |EraseAll(ts)| == |ts| && forall i :: 0 <= i < |ts| ==> EraseAll(ts)[i] == Erase(ts[i])
  {
    hide Erase;
    if ts != [] {
      MembersStand(ts[1..]);
    }
  }

  /** An entry counts unless a later one has its key. */
  lemma EntryStands(key: Text, value: Tree, rest: Entries)
    ensures EraseEntries(Nil) == map[]
    ensures EraseEntries(Cons(key, value, rest)) ==
            if key in EraseEntries(rest) then EraseEntries(rest) else EraseEntries(rest)[key := Erase(value)]
  {
    hide Erase, Utf8;
  }

  /** In a tree that holds no key twice there is one entry for each key. */
  lemma {:induction false} OneForEach(es: Entries)
    requires DistinctEntries(es)
    ensures |EraseEntries(es)| == Count(es)
    ensures es.Cons? ==> es.key !in EraseEntries(es.rest)
    decreases es
  {
    hide Erase, Distinct, Utf8;
    if es.Cons? {
      OneForEach(es.rest);
      EntryStands(es.key, es.value, es.rest);
    }
  }
}
