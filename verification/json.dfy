/** Parsed JSON values and the little of JavaScript's value semantics the
    server applies to them: truthiness and property access. */
module Json {
  import opened Wrappers

  /** A value produced by `JSON.parse`. Numbers are exact reals; object
      members keep their textual order. */
  datatype Json =
    | JNull
    | JBool(b: bool)
    | JNumber(n: real)
    | JString(s: string)
    | JArray(elems: seq<Json>)
    | JObject(members: seq<(string, Json)>)

  /** JavaScript truthiness of a value that may be `undefined` (None):
      `undefined`, `null`, `false`, `0` and `""` are falsy; every array and
      object, even an empty one, is truthy. */
  predicate Truthy(v: Option<Json>) {
    match v
    case None => false
    case Some(JNull) => false
    case Some(JBool(b)) => b
    case Some(JNumber(n)) => n != 0.0
    case Some(JString(s)) => s != ""
    case Some(JArray(_)) => true
    case Some(JObject(_)) => true
  }

  /** The value of the member called `key`; when the name occurs more than
      once the last occurrence wins, as it does in `JSON.parse`. */
  function Lookup(members: seq<(string, Json)>, key: string): (r: Option<Json>)
    ensures r.None? <==> forall k :: 0 <= k < |members| ==> members[k].0 != key
    ensures r.Some? ==> exists k :: (0 <= k < |members| && members[k] == (key, r.value) &&
                                     forall j :: k < j < |members| ==> members[j].0 != key)
  {
    if |members| == 0 then None
    else if members[|members| - 1].0 == key then Some(members[|members| - 1].1)
    else Lookup(members[..|members| - 1], key)
  }

  /** The property names the server reads from parsed values. None of them
      is an array index or a property of a built-in prototype, so reading
      one from anything but an object gives `undefined`. */
  datatype Key = Choices | Error | Message | Content

  function Name(k: Key): string {
    match k
    case Choices => "choices"
    case Error => "error"
    case Message => "message"
    case Content => "content"
  }

  /** `v.key`; reading a property of `null` throws, so callers guard it. */
  function Prop(v: Json, k: Key): (r: Option<Json>)
    requires !v.JNull?
    ensures r.Some? ==> v.JObject?
  {
    match v
    case JObject(m) => Lookup(m, Name(k))
    case _ => None
  }

  /** `v[0]`: the first element of an array, the member named "0" of an
      object, the first character of a string, otherwise `undefined`. */
  function First(v: Json): (r: Option<Json>)
    requires !v.JNull?
    ensures r.Some? ==> !v.JBool? && !v.JNumber?
  {
    match v
    case JArray(e) => if |e| > 0 then Some(e[0]) else None
    case JObject(m) => Lookup(m, "0")
    case JString(s) => if |s| > 0 then Some(JString([s[0]])) else None
    case _ => None
  }
}
