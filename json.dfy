/** The JSON values that the API's replies serialise to. */
module Json {
  import opened Wrappers

  datatype Value =
    | String(text: string)
    | Number(n: int)
    | Object(members: seq<(string, Value)>)

  /** The value of the first member called `key`, when `v` is an object that has one. */
  function Member(v: Value, key: string): (r: Option<Value>)
    ensures r.Some? ==> v.Object? && (key, r.value) in v.members
    ensures v.Object? && |v.members| > 0 && v.members[0].0 == key ==> r == Some(v.members[0].1)
    decreases if v.Object? then |v.members| else 0
  {
    match v
    case Object(ms) =>
      if |ms| == 0 then None
      else if ms[0].0 == key then Some(ms[0].1)
      else
        var rest := Member(Object(ms[1..]), key);
        assert rest.Some? ==> (key, rest.value) in ms[1..];
        rest
    case _ => None
  }
}
