/** Decoded JSON documents, with Python's scalar types kept apart. */
module Json {

  datatype Option<+T> = None | Some(value: T)

  datatype Json =
    | Null
    | Bool(b: bool)
    | Int(n: int)
    | Float(r: real)
    | Str(s: string)
    | Arr(items: seq<Json>)
    | Obj(fields: Fields)

  type Fields = map<string, Json>

  /** `fields.get(key)`: a missing key and an explicit null are both None. */
  function Get(fields: Fields, key: string): Json {
    if key in fields then fields[key] else Null
  }

  /** The representative Python hashes and compares a value by when it is used in a set or as
      a dictionary key: `True`, `1` and `1.0` are one key, lists and dictionaries are unhashable. */
  function HashKey(j: Json): Option<Json> {
    match j
    case Bool(b) => Some(Int(if b then 1 else 0))
    case Float(r) => Some(if r == r.Floor as real then Int(r.Floor) else j)
    case Arr(_) | Obj(_) => None
    case _ => Some(j)
  }

  lemma OneKey<V>(m: map<string, V>, a: string, b: string)
    requires |m| == 1 && a in m && b in m
    ensures a == b
  {
    assert |m.Keys - {a}| == 0;
    assert b !in m.Keys - {a};
  }

  /** The key of a one-entry object: `next(iter(item))`. */
  function OnlyKey<V>(m: map<string, V>): (k: string)
    requires |m| == 1
    ensures k in m && forall other | other in m :: other == k
  {
    assert exists k :: k in m by { assert m.Keys != {}; }
    forall a, b | a in m && b in m ensures a == b { OneKey(m, a, b); }
    var k :| k in m;
    k
  }
}
