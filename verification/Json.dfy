/**
 JSON values as serde_json holds them: integers and floating-point numbers are told apart, and an
 object is a finite map from member names to values.
 */
module Json {
  import opened Common

  datatype Value =
    | Null
    | Bool(flag: bool)
    | Integer(integer: int)
    | Decimal(decimal: real)
    | Text(text: string)
    | Array(items: seq<Value>)
    | Object(members: map<string, Value>)

  /** The value reached by following member names through nested objects. */
  function At(v: Value, path: seq<string>): Option<Value> {
    if path == [] then Some(v)
    else if v.Object? && path[0] in v.members then At(v.members[path[0]], path[1..])
    else None
  }

  function MembersOf(v: Value): map<string, Value> {
    if v.Object? then v.members else map[]
  }

  function Lookup(members: map<string, Value>, key: string): Option<Value> {
    if key in members then Some(members[key]) else None
  }

  lemma LookupsDetermine(a: map<string, Value>, b: map<string, Value>)
    requires forall k :: Lookup(a, k) == Lookup(b, k)
    ensures a == b
  {
    forall k ensures k in a <==> k in b { assert Lookup(a, k) == Lookup(b, k); }
    forall k | k in a ensures a[k] == b[k] { assert Lookup(a, k) == Lookup(b, k); }
  }

  /** A member of an optional value; absent members count as null. */
  function Sub(v: Value, key: string): Value {
    if key in MembersOf(v) then MembersOf(v)[key] else Null
  }

  /** `Value::get`: the member of that name, if the value is an object that has it. */
  function Get(v: Value, key: string): Option<Value> {
    Lookup(MembersOf(v), key)
  }
}
