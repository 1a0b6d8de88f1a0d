/** The Bolt value model, and values together with the order their maps enumerate in. */
module Values {
  import opened Bytes

  datatype Result<+T, +E> = Ok(value: T) | Err(error: E) {
    predicate IsFailure() {
      Err?
    }

    function PropagateFailure<U>(): Result<U, E>
      requires Err?
    {
      Err(error)
    }

    function Extract(): T
      requires Ok?
    {
      value
    }
  }

  /** An IEEE 754 double, kept as its eight bytes. */
  type Float64 = s: seq<byte> | |s| == 8 witness [0, 0, 0, 0, 0, 0, 0, 0]

  datatype Atom =
    | Null
    | Bool(b: bool)
    | Int(i: int64)
    | Float(bits: Float64)
    | String(s: Text)
    | Bytes(data: seq<byte>)

  datatype Value =
    | Atom(a: Atom)
    | List(items: seq<Value>)
    | Map(m: map<Text, Value>)
    | Structure(signature: byte, fields: seq<Value>)

  /**
   * A value whose maps carry the order their entries are enumerated in. A hash map may
   * enumerate in any order, so what holds for every `Distinct` tree holds for every order.
   * Bytes on the wire also spell a tree, possibly one with a key twice.
   */
  datatype Tree =
    | Leaf(a: Atom)
    | ListOf(items: seq<Tree>)
    | MapOf(entries: Entries)
    | StructureOf(signature: byte, fields: seq<Tree>)

  datatype Entries =
    | Nil
    | Cons(key: Text, value: Tree, rest: Entries)

  function Count(es: Entries): nat {
    if es.Nil? then 0 else 1 + Count(es.rest)
  }

  function Keys(es: Entries): set<Text> {
    if es.Nil? then {} else {es.key} + Keys(es.rest)
  }

  /** The value a tree stands for: entries are inserted in order, so a later duplicate key wins. */
  function Erase(t: Tree): Value {
    match t
    case Leaf(a) => Atom(a)
    case ListOf(items) => List(EraseAll(items))
    case MapOf(entries) => Map(EraseEntries(entries))
    case StructureOf(signature, fields) => Structure(signature, EraseAll(fields))
  }

  function EraseAll(ts: seq<Tree>): (vs: seq<Value>)
    ensures |vs| == |ts|
  {
    if ts == [] then [] else [Erase(ts[0])] + EraseAll(ts[1..])
  }

  function EraseEntries(es: Entries): (m: map<Text, Value>)
    ensures m.Keys == Keys(es)
  {
    if es.Nil? then map[] else map[es.key := Erase(es.value)] + EraseEntries(es.rest)
  }

  /** No map in the tree holds a key twice: the tree is some enumeration of a value. */
  predicate Distinct(t: Tree) {
    match t
    case Leaf(_) => true
    case ListOf(items) => DistinctAll(items)
    case MapOf(entries) => DistinctEntries(entries)
    case StructureOf(_, fields) => DistinctAll(fields)
  }

  predicate DistinctAll(ts: seq<Tree>) {
    ts == [] || (Distinct(ts[0]) && DistinctAll(ts[1..]))
  }

  predicate DistinctEntries(es: Entries) {
    es.Nil? || (es.key !in Keys(es.rest) && Distinct(es.value) && DistinctEntries(es.rest))
  }

  /** The sum of a map's values. */
  ghost function Sum(m: map<Text, nat>): nat
    decreases |m|
  {
    if m == map[] then 0 else var k :| k in m; m[k] + Sum(m - {k})
  }

  /** `Sum` does not depend on the key removed first. */
  lemma {:induction false} SumRemove(m: map<Text, nat>, k: Text)
    requires k in m
    ensures Sum(m) == m[k] + Sum(m - {k})
    decreases |m|
  {
    hide Utf8;
    var k' :| k' in m && Sum(m) == m[k'] + Sum(m - {k'});
    if k' != k {
      SumRemove(m - {k'}, k);
      assert m - {k'} - {k} == m - {k} - {k'};
      SumRemove(m - {k}, k');
    }
  }

  /** Inserting a key, fresh or not, adds at most its value. */
  lemma SumInsert(m: map<Text, nat>, k: Text, n: nat)
    ensures Sum(m[k := n]) <= Sum(m) + n
    ensures k !in m ==> Sum(m[k := n]) == Sum(m) + n
  {
    SumRemove(m[k := n], k);
    if k in m {
      SumRemove(m, k);
      assert m[k := n] - {k} == m - {k};
    } else {
      assert m[k := n] - {k} == m;
    }
  }
}
