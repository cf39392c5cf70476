/** The part of a decoded JSON document (serde_json's `Value`) that project
    extraction inspects, with the three accessors it uses: `get` with a string
    key, `as_str` and `as_array`. */
module Json {
  import opened Wrappers

  /** A JSON value. Objects keep their members in document order; a key may
      occur more than once, and lookup answers the LAST binding, as the
      decoder's map keeps the last value it inserted for a key. Numbers only
      matter here as "not a string", so a real stands for any JSON number. */
  datatype Value =
    | Null
    | Bool(b: bool)
    | Num(n: real)
    | Str(s: string)
    | Arr(items: seq<Value>)
    | Obj(members: seq<(string, Value)>)

  /** `v` is bound to `key` by member `i`, and no later member rebinds `key`. */
  ghost predicate BindsLast(members: seq<(string, Value)>, key: string, i: int, v: Value)
  {
    && 0 <= i < |members|
    && members[i] == (key, v)
    && forall j :: i < j < |members| ==> members[j].0 != key
  }

  /** The value of the last member named `key`, if any. */
  function Lookup(members: seq<(string, Value)>, key: string): (r: Option<Value>)
    ensures r.None? <==> forall i :: 0 <= i < |members| ==> members[i].0 != key
    ensures r.Some? ==> exists i :: BindsLast(members, key, i, r.value)
    decreases |members|
  {
    if |members| == 0 then None
    else if members[|members| - 1].0 == key then
      assert BindsLast(members, key, |members| - 1, members[|members| - 1].1);
      Some(members[|members| - 1].1)
    else
      var prefix := members[..|members| - 1];
      assert forall i, v :: BindsLast(prefix, key, i, v) ==> BindsLast(members, key, i, v);
      Lookup(prefix, key)
  }

  /** serde_json's `Value::get(&str)`: only an object has members; asking any
      other value for a key yields nothing. */
  function Get(v: Value, key: string): (r: Option<Value>)
    ensures !v.Obj? ==> r.None?
    ensures v.Obj? ==> (r.Some? <==> exists i :: 0 <= i < |v.members| && v.members[i].0 == key)
    ensures r.Some? ==> exists i :: BindsLast(v.members, key, i, r.value)
  {
    match v
    case Obj(members) => Lookup(members, key)
    case _ => None
  }

  /** serde_json's `Value::as_str`: the text of a string, nothing otherwise. */
  function AsStr(v: Value): (r: Option<string>)
    ensures r.Some? <==> v.Str?
    ensures r.Some? ==> v == Str(r.value)
  {
    if v.Str? then Some(v.s) else None
  }

  /** serde_json's `Value::as_array`: the elements of an array, nothing otherwise. */
  function AsArray(v: Value): (r: Option<seq<Value>>)
    ensures r.Some? <==> v.Arr?
    ensures r.Some? ==> v == Arr(r.value)
  {
    if v.Arr? then Some(v.items) else None
  }

  /** `v` is an object whose member `key` is finally bound to the string `s`. */
  ghost predicate HasStringMember(v: Value, key: string, s: string)
  {
    v.Obj? && exists i :: BindsLast(v.members, key, i, Str(s))
  }
}
