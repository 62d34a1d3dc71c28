/** A JSON document as `json.loads` hands it to Python: objects become
    dicts (a repeated key keeps its last value), numbers become `int` or
    `float`. Python's truth test on each kind of value is `Truthy`. */
module Json {
  import opened Common

  datatype Json =
    | Null
    | Bool(b: bool)
    | Int(i: int)
    | Float(r: real)
    | Str(s: string)
    | Array(items: seq<Json>)
    | Object(members: seq<Member>)

  /** One `"key": value` pair of an object, in document order. */
  datatype Member = Member(key: string, value: Json)

  /** Python's `bool(v)`: `None`, `False`, zero, and empty strings, lists
      and dicts are false; everything else is true. */
  predicate Truthy(j: Json) {
    match j
    case Null => false
    case Bool(b) => b
    case Int(i) => i != 0
    case Float(r) => r != 0.0
    case Str(s) => s != ""
    case Array(items) => items != []
    case Object(members) => members != []
  }

  /** `key in d` and `d[key]` on the dict `json.loads` builds from
      `members`: the last member with that key supplies the value. */
  function Lookup(members: seq<Member>, key: string): (r: Option<Json>)
    ensures r.None? <==> forall i :: 0 <= i < |members| ==> members[i].key != key
    ensures r.Some? ==> exists i :: 0 <= i < |members| && members[i] == Member(key, r.value)
                                    && forall j :: i < j < |members| ==> members[j].key != key
  {
    if members == [] then None
    else if members[|members| - 1].key == key then Some(members[|members| - 1].value)
    else Lookup(members[..|members| - 1], key)
  }

  /** A member added at the end decides its key and no other. */
  lemma {:induction false} LookupAppend(members: seq<Member>, m: Member, key: string)
    ensures Lookup(members + [m], key) == if m.key == key then Some(m.value) else Lookup(members, key)
  {
    assert (members + [m])[..|members|] == members;
  }

  /** `d.get(key)`: the value, or `None` (JSON null) when the key is absent. */
  function Get(members: seq<Member>, key: string): Json {
    match Lookup(members, key)
    case Some(v) => v
    case None => Null
  }
}
