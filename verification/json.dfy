/**
 * JSON documents as JavaScript sees them after `JSON.parse`, and the text of a JSON file.
 * Numbers are integers here; an object keeps its members in source order, as JavaScript does.
 */
module Json {
  import opened Wrappers

  datatype Json =
    | Null
    | Bool(b: bool)
    | Num(n: int)
    | Str(s: string)
    | Arr(items: seq<Json>)
    | Obj(members: seq<(string, Json)>)

  /** JavaScript truthiness: `null`, `false`, `0` and `""` are falsy, every array and object is truthy. */
  predicate Truthy(j: Json) {
    match j
    case Null => false
    case Bool(b) => b
    case Num(n) => n != 0
    case Str(s) => s != ""
    case _ => true
  }

  /** The value of the first member named `key` (`undefined` when there is none). */
  function Lookup(members: seq<(string, Json)>, key: string): (r: Option<Json>)
    ensures r.None? <==> forall i :: 0 <= i < |members| ==> members[i].0 != key
    ensures r.Some? ==> exists i :: 0 <= i < |members| && members[i] == (key, r.value)
  {
    if members == [] then None
    else if members[0].0 == key then Some(members[0].1)
    else
      var r := Lookup(members[1..], key);
      assert forall i :: 1 <= i < |members| ==> members[i] == members[1..][i - 1];
      r
  }

  /** `value[key]` on a value that is not `null`: only objects have members here. */
  function Get(value: Json, key: string): Option<Json> {
    if value.Obj? then Lookup(value.members, key) else None
  }

  /** `obj[key] = v`: replaces the value of an existing member in place, or appends a member. */
  function SetMember(members: seq<(string, Json)>, key: string, v: Json): (r: seq<(string, Json)>)
    ensures Lookup(r, key) == Some(v)
    ensures forall k :: k != key ==> Lookup(r, k) == Lookup(members, k)
  {
    if members == [] then [(key, v)]
    else if members[0].0 == key then [(key, v)] + members[1..]
    else [members[0]] + SetMember(members[1..], key, v)
  }

  /** The contents of a text file that ought to hold JSON: the serialisation of a value, or text `JSON.parse` rejects. */
  datatype Text = Encoded(value: Json) | Garbled

  /** `JSON.stringify` (its character-level format is not modelled). */
  function Stringify(j: Json): Text {
    Encoded(j)
  }

  /** `JSON.parse`, with `None` for the `SyntaxError` it throws. */
  function Parse(t: Text): Option<Json> {
    match t
    case Encoded(v) => Some(v)
    case Garbled => None
  }

  lemma ParseStringify(j: Json)
    ensures Parse(Stringify(j)) == Some(j)
  {
  }
}
