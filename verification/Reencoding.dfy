/** What the codec's laws say about values, whatever order their maps enumerate in. */
module Reencoding {
  import opened Bytes
  import opened Values
  import opened PackStream
  import opened PackStreamLaws

  // ---- lengths and sizes of values ----

  /** Length of the printed value; `PackedLen` shows no enumeration order changes it. */
  ghost function EncodedLen(v: Value): nat
    decreases v, 0
  {
    match v
    case Atom(a) => |HeadBytes(AtomHead(a))| + |AtomRest(a)|
    case List(items) => |PackHead(KList, |items|)| + EncodedLenAll(items)
    case Map(m) => |PackHead(KMap, |m|)| + Sum(map k | k in m :: EntryLen(k, m[k]))
    case Structure(_, fields) => |PackHead(KStruct, |fields|)| + 1 + EncodedLenAll(fields)
  }

  ghost function EntryLen(k: Text, v: Value): nat
    decreases v, 1
  {
    |PackString(k)| + EncodedLen(v)
  }

  ghost function EncodedLenAll(vs: seq<Value>): nat {
    if vs == [] then 0 else EncodedLen(vs[0]) + EncodedLenAll(vs[1..])
  }

  ghost function EntryLens(m: map<Text, Value>): map<Text, nat> {
    map k | k in m :: EntryLen(k, m[k])
  }

  /** Values in the tree: containers, their contents and map keys. */
  ghost function Nodes(v: Value): nat {
    match v
    case Atom(_) => 1
    case List(items) => 1 + NodesAll(items)
    case Map(m) => 1 + Sum(map k | k in m :: 1 + Nodes(m[k]))
    case Structure(_, fields) => 1 + NodesAll(fields)
  }

  ghost function NodesAll(vs: seq<Value>): nat {
    if vs == [] then 0 else Nodes(vs[0]) + NodesAll(vs[1..])
  }

  lemma CountKeys(es: Entries)
    ensures |Keys(es)| <= Count(es)
    ensures DistinctEntries(es) ==> |Keys(es)| == Count(es)
  {
  }

  lemma HeadMonotone(kind: Kind, a: nat, b: nat)
    requires a <= b
    ensures |PackHead(kind, a)| <= |PackHead(kind, b)|
  {
  }

  lemma {:induction false} PackedLen(t: Tree)
    ensures EncodedLen(Erase(t)) <= |Pack(t)|
    ensures Distinct(t) ==> EncodedLen(Erase(t)) == |Pack(t)|
    decreases t, 1
  {
    hide PackHead;
    match t
    case Leaf(_) =>
    case ListOf(items) => PackedLenAll(items);
    case StructureOf(_, fields) => PackedLenAll(fields);
    case MapOf(entries) =>
      PackedLenEntries(entries);
      CountKeys(entries);
      var m := EraseEntries(entries);
      assert |m| == |m.Keys|;
      HeadMonotone(KMap, |m|, Count(entries));
      assert EncodedLen(Map(m)) == |PackHead(KMap, |m|)| + Sum(EntryLens(m));
  }

  lemma {:induction false} PackedLenAll(ts: seq<Tree>)
    ensures EncodedLenAll(EraseAll(ts)) <= |PackAll(ts)|
    ensures DistinctAll(ts) ==> EncodedLenAll(EraseAll(ts)) == |PackAll(ts)|
    decreases ts, 0
  {
    if ts != [] {
      PackedLen(ts[0]);
      PackedLenAll(ts[1..]);
      assert EraseAll(ts)[1..] == EraseAll(ts[1..]);
    }
  }

  /** Putting an entry in front of a map: a key that comes again later adds nothing. */
  lemma SumCons(key: Text, v: Value, rest: map<Text, Value>)
    ensures var all, n := Sum(EntryLens(map[key := v] + rest)), EntryLen(key, v);
            if key in rest then all == Sum(EntryLens(rest)) else all == Sum(EntryLens(rest)) + n
  {
    hide EntryLen, Sum, Utf8;
    var n := EntryLen(key, v);
    if key in rest {
      assert map[key := v] + rest == rest;
    } else {
      assert EntryLens(map[key := v] + rest) == EntryLens(rest)[key := n];
      SumInsert(EntryLens(rest), key, n);
    }
  }

  lemma {:induction false} PackedLenEntries(es: Entries)
    ensures Sum(EntryLens(EraseEntries(es))) <= |PackEntries(es)|
    ensures DistinctEntries(es) ==> Sum(EntryLens(EraseEntries(es))) == |PackEntries(es)|
    decreases es, 0
  {
    hide Pack, PackString, EncodedLen, Erase, EntryLens, Sum;
    if es.Nil? {
      assert Sum(EntryLens(map[])) == 0 by { EmptySum(); }
    } else {
      PackedLen(es.value);
      PackedLenEntries(es.rest);
      SumCons(es.key, Erase(es.value), EraseEntries(es.rest));
    }
  }

  lemma EmptySum()
    ensures Sum(EntryLens(map[])) == 0
  {
    assert EntryLens(map[]) == map[];
  }

  /** Size limits survive erasing, and come back for every enumeration of the value. */
  lemma {:induction false} WithinErase(t: Tree, bytesToo: bool)
    ensures TreeWithin(t, bytesToo) ==> Within(Erase(t), bytesToo)
    ensures Distinct(t) && Within(Erase(t), bytesToo) ==> TreeWithin(t, bytesToo)
    decreases t, 1
  {
    match t
    case Leaf(_) =>
    case ListOf(items) => WithinEraseAll(items, bytesToo);
    case StructureOf(_, fields) => WithinEraseAll(fields, bytesToo);
    case MapOf(entries) =>
      WithinEraseEntries(entries, bytesToo);
      CountKeys(entries);
      var m := EraseEntries(entries);
      assert |m| == |m.Keys|;
  }

  lemma {:induction false} WithinEraseAll(ts: seq<Tree>, bytesToo: bool)
    ensures AllWithin(ts, bytesToo) ==> forall x <- EraseAll(ts) :: Within(x, bytesToo)
    ensures DistinctAll(ts) && (forall x <- EraseAll(ts) :: Within(x, bytesToo)) ==> AllWithin(ts, bytesToo)
    decreases ts, 0
  {
    if ts != [] {
      WithinErase(ts[0], bytesToo);
      WithinEraseAll(ts[1..], bytesToo);
      assert EraseAll(ts) == [Erase(ts[0])] + EraseAll(ts[1..]);
    }
  }

  lemma {:induction false} WithinEraseEntries(es: Entries, bytesToo: bool)
    ensures var m := EraseEntries(es);
            EntriesWithin(es, bytesToo) ==> forall k <- m :: |k| < U32_LIMIT && Within(m[k], bytesToo)
    ensures var m := EraseEntries(es);
            DistinctEntries(es) && (forall k <- m :: |k| < U32_LIMIT && Within(m[k], bytesToo))
            ==> EntriesWithin(es, bytesToo)
    decreases es, 0
  {
    if es.Cons? {
      WithinErase(es.value, bytesToo);
      WithinEraseEntries(es.rest, bytesToo);
      var m, rest := EraseEntries(es), EraseEntries(es.rest);
      assert forall k <- rest :: k in m && m[k] == rest[k];
      assert es.key in m;
    }
  }

  lemma {:induction false} NodesBound(v: Value)
    ensures Nodes(v) <= EncodedLen(v)
    decreases v, 1
  {
    match v
    case Atom(_) =>
    case List(items) => NodesBoundAll(items);
    case Structure(_, fields) => NodesBoundAll(fields);
    case Map(m) =>
      forall k <- m ensures Nodes(m[k]) <= EncodedLen(m[k]) {
        NodesBound(m[k]);
      }
      SumMonotone(map k | k in m :: 1 + Nodes(m[k]), map k | k in m :: EntryLen(k, m[k]));
  }

  lemma {:induction false} NodesBoundAll(vs: seq<Value>)
    ensures NodesAll(vs) <= EncodedLenAll(vs)
    decreases vs, 0
  {
    if vs != [] {
      NodesBound(vs[0]);
      NodesBoundAll(vs[1..]);
    }
  }

  lemma {:induction false} SumMonotone(a: map<Text, nat>, b: map<Text, nat>)
    requires a.Keys == b.Keys && forall k <- a :: a[k] <= b[k]
    ensures Sum(a) <= Sum(b)
    decreases |a|
  {
    if a != map[] {
      var k :| k in a;
      SumRemove(a, k);
      SumRemove(b, k);
      SumMonotone(a - {k}, b - {k});
    }
  }

  // ---- main results ----

  /**
   * Every value whose sizes fit 32 bits, in every enumeration order and with any trailing
   * bytes, decodes to itself and leaves the cursor exactly at the trailing bytes.
   */
  lemma RoundTrip(t: Tree, tail: seq<byte>)
    requires TreeWithin(t, true)
    ensures Unpack(Pack(t) + tail) == Ok((Erase(t), |Pack(t)|))
  {
    hide Parse, Pack, Erase;
    ParsePack(t, tail);
  }

  /**
   * When `pack` succeeds, what it wrote reads back exactly when no `Bytes` is 4 GiB or
   * longer: `pack_bytes` truncates such a length without an error.
   */
  lemma RoundTripExactly(t: Tree, tail: seq<byte>)
    requires Distinct(t) && TreeWithin(t, false)
    ensures Unpack(Pack(t) + tail) == Ok((Erase(t), |Pack(t)|)) <==> TreeWithin(t, true)
  {
    hide Parse, Pack, Erase, TreeWithin;
    if Unpack(Pack(t) + tail) == Ok((Erase(t), |Pack(t)|)) {
      ParseShrinks(Pack(t) + tail);
      var p := Parse(Pack(t) + tail).value.0;
      WithinErase(p, true);
      WithinErase(t, true);
    } else if TreeWithin(t, true) {
      RoundTrip(t, tail);
    }
  }

  function Zeros(n: nat): seq<byte> {
    seq(n, _ => 0)
  }

  /** The header a 4 GiB byte string gets is that of an empty one, in the 32-bit form. */
  lemma ZerosHead(data: seq<byte>)
    requires |data| == U32_LIMIT
    ensures ParseHead(PackHead(KBytes, |data|) + data) == Ok((Sized(KBytes, 0), 5))
  {
    Widths();
    FromBEofBE(0, 4);
    assert (PackHead(KBytes, |data|) + data)[1..5] == BE(0, 4);
  }

  /** A 4 GiB byte string packs without an error and reads back as an empty one. */
  lemma HugeBytesLost()
    ensures var huge := Leaf(Bytes(Zeros(U32_LIMIT)));
            TreeWithin(huge, false) && Unpack(Pack(huge)) == Ok((Atom(Bytes([])), 5))
  {
    hide ParseHead;
    var data := Zeros(U32_LIMIT);
    ZerosHead(data);
    assert Pack(Leaf(Bytes(data))) == PackHead(KBytes, |data|) + data;
    assert ParseRest(Sized(KBytes, 0), data) == Ok((Leaf(Bytes([])), 0));
    assert (PackHead(KBytes, |data|) + data)[5..] == data;
  }

  /** Decoding depends only on the bytes it consumes. */
  lemma UnpackLocal(s: seq<byte>, tail: seq<byte>)
    requires Unpack(s).Ok?
    ensures Unpack(s[..Unpack(s).value.1] + tail) == Unpack(s)
  {
    hide Parse, Erase;
    ParseLocal(s, tail);
  }

  /** Every strict prefix of an accepted encoding, minimal or not, is rejected. */
  lemma StrictPrefixRejected(s: seq<byte>, j: nat)
    requires Unpack(s).Ok? && j < Unpack(s).value.1
    ensures Unpack(s[..j]).Err?
  {
    hide Parse, Erase;
    if Unpack(s[..j]).Ok? {
      var k := Unpack(s[..j]).value.1;
      assert s[..j][..k] + s[k..] == s;
      UnpackLocal(s[..j], s[k..]);
    }
  }

  /** Encodings are prefix-free, so no two values share one. */
  lemma PrefixFree(t: Tree, u: Tree, tail: seq<byte>)
    requires TreeWithin(t, true) && TreeWithin(u, true)
    requires Pack(t) + tail == Pack(u)
    ensures t == u && tail == []
  {
    hide Parse, Pack, TreeWithin;
    ParsePack(t, tail);
    ParsePack(u, []);
    assert Pack(u) + [] == Pack(u);
  }

  /**
   * Re-encoding never grows: whatever bytes were accepted (over-wide headers and integers,
   * duplicate keys), packing the decoded value in any order succeeds, takes no more bytes
   * than were consumed, and decodes to the same value. So `pack` is a shortest encoding.
   */
  lemma ReencodingNeverGrows(s: seq<byte>, t: Tree, tail: seq<byte>)
    requires Unpack(s).Ok? && Erase(t) == Unpack(s).value.0 && Distinct(t)
    ensures TreeWithin(t, true)
    ensures |Pack(t)| <= Unpack(s).value.1
    ensures Unpack(Pack(t) + tail) == Ok((Unpack(s).value.0, |Pack(t)|))
  {
    hide Parse, Pack, Erase, TreeWithin;
    var p := Parse(s).value.0;
    ParseShrinks(s);
    PackedLen(p);
    PackedLen(t);
    WithinErase(p, true);
    WithinErase(t, true);
    RoundTrip(t, tail);
  }

  /** A decoded value has no more nodes, map keys included, than bytes consumed. */
  lemma DecodedSizeBound(s: seq<byte>)
    requires Unpack(s).Ok?
    ensures var (v, k) := Unpack(s).value; Nodes(v) <= k <= |s| && Within(v, true)
  {
    hide Parse, Pack, Erase, TreeWithin, Within;
    var p := Parse(s).value.0;
    ParseShrinks(s);
    PackedLen(p);
    WithinErase(p, true);
    NodesBound(Erase(p));
  }
}
