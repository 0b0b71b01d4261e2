/** The Python values the response layer handles: JSON-like data from the API, dicts that the code
    wraps in `DotDict`, and plain objects whose attributes are read with `getattr`. */
module Values {
  import opened Py

  datatype Value =
    | PyNone
    | Bool(b: bool)
    | Int(i: int)
    | Str(s: string)
    | List(items: seq<Value>)
    | Dict(entries: map<string, Value>)  // a dict with string keys, read through `DotDict`
    | Obj(attrs: map<string, Value>)     // an instance of a plain class, by its attributes

  /** Python truthiness: `None`, `False`, `0` and empty containers are falsy; objects are truthy. */
  predicate Truthy(v: Value) {
    match v
    case PyNone => false
    case Bool(b) => b
    case Int(i) => i != 0
    case Str(s) => s != ""
    case List(items) => items != []
    case Dict(entries) => entries != map[]
    case Obj(_) => true
  }

  /** `str(v)` for the scalar values; containers, whose rendering depends on Python's `repr`, are
      rendered as the empty string. */
  function Text(v: Value): string {
    match v
    case PyNone => "None"
    case Bool(b) => if b then "True" else "False"
    case Int(i) => IntToString(i)
    case Str(s) => s
    case _ => ""
  }

  /** `d.get(k, default)` on a dict. */
  function DictGet(entries: map<string, Value>, k: string, default: Value): (r: Value)
    ensures k in entries ==> r == entries[k]
    ensures k !in entries ==> r == default
  {
    if k in entries then entries[k] else default
  }
}

/** A Python dict in insertion order: assignment to an existing key keeps its position, a new key
    goes to the end. */
module ODicts {
  import opened Wrappers
  import opened Values

  type ODict = seq<(string, Value)>

  function Keys(d: ODict): (ks: set<string>) {
    set i | 0 <= i < |d| :: d[i].0
  }

  lemma KeysCons(d: ODict)
    requires d != []
    ensures Keys(d) == {d[0].0} + Keys(d[1..])
  {
    forall k | k in Keys(d) ensures k in {d[0].0} + Keys(d[1..]) {
      var i :| 0 <= i < |d| && d[i].0 == k;
      if i > 0 { assert d[1..][i - 1].0 == k; }
    }
    forall k | k in Keys(d[1..]) ensures k in Keys(d) {
      var i :| 0 <= i < |d[1..]| && d[1..][i].0 == k;
      assert d[i + 1].0 == k;
    }
  }

  /** A dict holds each key once. */
  predicate DistinctKeys(d: ODict) {
    d == [] || (d[0].0 !in Keys(d[1..]) && DistinctKeys(d[1..]))
  }

  /** `d.get(k)`, as an Option: the value stored under `k`, if any. */
  function Get(d: ODict, k: string): (r: Option<Value>)
    ensures r.None? <==> k !in Keys(d)
  {
    if d == [] then None
    else
      KeysCons(d);
      if d[0].0 == k then Some(d[0].1) else Get(d[1..], k)
  }

  /** The entry at position `i` of a dict is what `d.get` finds under its key. */
  lemma {:induction false} GetAt(d: ODict, i: nat)
    requires DistinctKeys(d) && i < |d|
    ensures Get(d, d[i].0) == Some(d[i].1)
  {
    if i > 0 {
      GetAt(d[1..], i - 1);
      KeysCons(d);
      assert d[1..][i - 1] == d[i];
      assert d[i].0 in Keys(d[1..]);
    }
  }

  /** The dict as a map from its keys to their values. */
  function AsMap(d: ODict): (m: map<string, Value>)
    ensures forall k :: k in m <==> k in Keys(d)
    ensures forall k :: k in m ==> Some(m[k]) == Get(d, k)
  {
    map k | k in Keys(d) :: Get(d, k).value
  }

  /** `d[k] = v` */
  function Put(d: ODict, k: string, v: Value): (r: ODict)
    ensures Keys(r) == Keys(d) + {k}
  {
    if d == [] then
      KeysCons([(k, v)]);
      [(k, v)]
    else if d[0].0 == k then
      KeysCons(d);
      KeysCons([(k, v)] + d[1..]);
      assert ([(k, v)] + d[1..])[1..] == d[1..];
      [(k, v)] + d[1..]
    else
      var rest := Put(d[1..], k, v);
      KeysCons(d);
      KeysCons([d[0]] + rest);
      assert ([d[0]] + rest)[1..] == rest;
      [d[0]] + rest
  }

  /** After `d[k] = v`, `k` holds `v` and every other key holds what it held. */
  lemma {:induction false} GetPut(d: ODict, k: string, v: Value, k': string)
    ensures Get(Put(d, k, v), k') == if k' == k then Some(v) else Get(d, k')
  {
    if d != [] && d[0].0 != k {
      GetPut(d[1..], k, v, k');
    }
  }

  /** Assignment keeps keys distinct; a key already present keeps its position, a new one is
      appended. */
  lemma {:induction false} PutShape(d: ODict, k: string, v: Value)
    requires DistinctKeys(d)
    ensures DistinctKeys(Put(d, k, v))
    ensures k !in Keys(d) ==> Put(d, k, v) == d + [(k, v)]
    ensures k in Keys(d) ==> |Put(d, k, v)| == |d|
  {
    if d == [] {
      assert Put(d, k, v)[1..] == [];
    } else {
      KeysCons(d);
      if d[0].0 == k {
        assert Put(d, k, v)[1..] == d[1..];
      } else {
        PutShape(d[1..], k, v);
        assert Put(d, k, v)[1..] == Put(d[1..], k, v);
      }
    }
  }

  /** The entries of `d` whose value is not `None`, in order:
      `{k: v for k, v in d.items() if v is not None}`. */
  function DropNone(d: ODict): (r: ODict)
    ensures forall i :: 0 <= i < |r| ==> r[i].1 != PyNone
    ensures |r| <= |d|
  {
    if d == [] then []
    else (if d[0].1 == PyNone then [] else [d[0]]) + DropNone(d[1..])
  }

  /** Dropping the `None` entries keeps exactly the keys whose value is not `None`, with their
      values. */
  lemma {:induction false} GetDropNone(d: ODict, k: string)
    requires DistinctKeys(d)
    ensures Get(DropNone(d), k) == if Get(d, k) == Some(PyNone) then None else Get(d, k)
  {
    if d != [] {
      GetDropNone(d[1..], k);
      KeysCons(d);
      var rest := DropNone(d[1..]);
      if d[0].1 != PyNone {
        assert DropNone(d) == [d[0]] + rest;
      } else {
        assert DropNone(d) == rest;
      }
    }
  }
}
