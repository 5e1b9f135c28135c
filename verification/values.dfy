/**
 The configuration object the command line tool receives from its option
 parser, seen as JavaScript sees it: an object whose own entries are
 walked in order, holding loosely typed values that are judged by
 truthiness.
 */
module JsValues {

  /** The kinds of value an option can hold. Numbers are restricted to
      integers; arrays are the lists of hosts, schemes or URLs; a plain
      object, as a configuration file can supply, is a list of its entries. */
  datatype Value =
    | Undefined
    | Null
    | Bool(b: bool)
    | Num(n: int)
    | Str(s: string)
    | Arr(items: seq<Value>)
    | Obj(fields: seq<(string, Value)>)

  /** JavaScript truthiness: `undefined`, `null`, `false`, `0` and the
      empty string are falsy; every array and every object, even an empty
      one, is truthy. */
  predicate Truthy(v: Value) {
    match v
    case Undefined => false
    case Null => false
    case Bool(b) => b
    case Num(n) => n != 0
    case Str(s) => s != ""
    case Arr(_) => true
    case Obj(_) => true
  }

  /** One own property of the configuration object: key and value. */
  type Entry = (string, Value)

  predicate DistinctKeys(entries: seq<Entry>) {
    forall i, j :: 0 <= i < j < |entries| ==> entries[i].0 != entries[j].0
  }

  /** The configuration object, as the sequence `Object.entries` yields.
      An object never holds the same key twice. */
  type Config = c: seq<Entry> | DistinctKeys(c) witness []

  /** Property access `config[key]`: the value stored under `key`, or
      `undefined` when the object has no such key. */
  function Get(c: Config, key: string): (v: Value)
    ensures forall i :: 0 <= i < |c| && c[i].0 == key ==> v == c[i].1
    ensures (forall i :: 0 <= i < |c| ==> c[i].0 != key) ==> v == Undefined
    decreases |c|
  {
    if c == [] then Undefined
    else if c[0].0 == key then c[0].1
    else
      var rest: Config := c[1..];
      Get(rest, key)
  }
}
