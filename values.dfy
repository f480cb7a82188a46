/**
 * Loaded configuration documents and wire payloads. Both are untyped
 * dictionary data in the system: a task configuration comes out of a YAML
 * loader and a request body out of a JSON decoder. One value type covers both.
 */
module Values {

  datatype Option<+T> = None | Some(value: T)

  /** The controller's two node-status markers. Their concrete values are not
      part of this model; all that matters is that they differ. */
  datatype NodeStatus = NodeOnline | NodeTerm

  datatype Value =
    | Map(entries: seq<(string, Value)>)  // a mapping, in insertion order
    | List(items: seq<Value>)
    | Str(s: string)
    | Int(i: int)
    | Bool(b: bool)
    | Marker(status: NodeStatus)
    | Null                                // None / null, also what a missing key reads as
    | Other(truthy: bool)                 // any other scalar, with its truth value

  /** The entries of a mapping, in mapping order. */
  type Dict = seq<(string, Value)>

  function Keys(d: Dict): set<string>
  {
    if d == [] then {} else {d[0].0} + Keys(d[1..])
  }

  /** `key in d` */
  predicate HasKey(d: Dict, key: string)
  {
    key in Keys(d)
  }

  /** The value stored under `key`, if any (the first entry with that key). */
  function Find(d: Dict, key: string): (r: Option<Value>)
    ensures r.Some? <==> HasKey(d, key)
    ensures r.Some? ==> (key, r.value) in d
  {
    if d == [] then None
    else if d[0].0 == key then Some(d[0].1)
    else Find(d[1..], key)
  }

  /** `d.get(key)`, and `d[key]` on a loaded configuration: `None` when absent. */
  function Lookup(d: Dict, key: string): Value
  {
    match Find(d, key)
    case Some(v) => v
    case None => Null
  }

  /** A dictionary never holds one key twice. */
  ghost predicate IsDict(d: Dict)
  {
    forall i, j :: 0 <= i < j < |d| ==> d[i].0 != d[j].0
  }

  /** Python truthiness: empty containers, empty strings, zero, False and None are false. */
  predicate Truthy(v: Value)
  {
    match v
    case Map(e) => |e| > 0
    case List(xs) => |xs| > 0
    case Str(s) => |s| > 0
    case Int(i) => i != 0
    case Bool(b) => b
    case Marker(_) => true
    case Null => false
    case Other(t) => t
  }

  /** In a dictionary, an entry's key reads back that entry's value. */
  lemma {:induction false} LookupInDict(d: Dict, key: string, v: Value)
    requires IsDict(d)
    requires (key, v) in d
    ensures HasKey(d, key) && Lookup(d, key) == v
  {
    if d[0] != (key, v) {
      assert d[0].0 != key by {
        var j :| 0 <= j < |d| && d[j] == (key, v);
        assert j != 0;
      }
      assert (key, v) in d[1..] by {
        var j :| 0 <= j < |d| && d[j] == (key, v);
        assert d[1..][j - 1] == (key, v);
      }
      LookupInDict(d[1..], key, v);
    }
  }

  /** An entry whose key no earlier entry has is what a lookup of that key finds. */
  lemma {:induction false} LookupAt(d: Dict, i: nat)
    requires i < |d|
    requires forall j :: 0 <= j < i ==> d[j].0 != d[i].0
    ensures HasKey(d, d[i].0) && Lookup(d, d[i].0) == d[i].1
  {
    if i > 0 {
      assert d[1..][i - 1] == d[i];
      LookupAt(d[1..], i - 1);
    }
  }

  /** Every entry's key is a key of the dictionary. */
  lemma {:induction false} EntryKeys(d: Dict)
    ensures forall i :: 0 <= i < |d| ==> HasKey(d, d[i].0)
  {
    if d != [] {
      EntryKeys(d[1..]);
      assert forall i :: 1 <= i < |d| ==> d[i] == d[1..][i - 1];
    }
  }

  /** Appending is associative; stated once so that proofs about logs built by
      appending need not compare them element by element. */
  lemma AppendAssoc<T>(a: seq<T>, b: seq<T>, c: seq<T>)
    ensures a + b + c == a + (b + c)
  {
  }
}
