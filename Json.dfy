/** An already-parsed JSON document, and the reading rules that Swift's
    `JSONDecoder` applies to it when it fills in the library's `Decodable`
    types: which values decode as `Int`, `Double`, `String`, `[Int]` and
    `[String: String]`, and how a missing or `null` key is reported. */
module Json {
  import opened Wrappers

  datatype Json =
    | JNull
    | JBool(b: bool)
    | JNumber(n: real)
    | JString(s: string)
    | JArray(items: seq<Json>)
    | JObject(fields: map<string, Json>)

  /** The failures of a decode, after Swift's `DecodingError`; each names
      the key being read. */
  datatype DecodeError =
    | KeyNotFound(key: string)
    | ValueNotFound(key: string)
    | TypeMismatch(key: string)
    | DataCorrupted(key: string)

  /** Swift's `Int` is 64 bits wide. */
  const IntMin: int := -0x8000_0000_0000_0000
  const IntMax: int := 0x7FFF_FFFF_FFFF_FFFF

  predicate FitsInt(n: real)
  {
    n.Floor as real == n && IntMin <= n.Floor <= IntMax
  }

  /** `container.decode(_:forKey:)` first looks the key up. */
  function Get(o: map<string, Json>, key: string): (r: Result<Json, DecodeError>)
    ensures r.Ok? <==> key in o
    ensures r.Ok? ==> r.value == o[key]
    ensures r.Err? ==> r.error == KeyNotFound(key)
  {
    if key in o then Ok(o[key]) else Err(KeyNotFound(key))
  }

  /** An `Int`: a whole number within 64 bits. */
  function AsInt(j: Json, key: string): (r: Result<int, DecodeError>)
    ensures r.Ok? <==> j.JNumber? && FitsInt(j.n)
    ensures r.Ok? ==> r.value as real == j.n && IntMin <= r.value <= IntMax
  {
    match j
    case JNull => Err(ValueNotFound(key))
    case JNumber(n) => if FitsInt(n) then Ok(n.Floor) else Err(DataCorrupted(key))
    case _ => Err(TypeMismatch(key))
  }

  /** A `Double`: any number. */
  function AsDouble(j: Json, key: string): (r: Result<real, DecodeError>)
    ensures r.Ok? <==> j.JNumber?
    ensures r.Ok? ==> r.value == j.n
  {
    match j
    case JNull => Err(ValueNotFound(key))
    case JNumber(n) => Ok(n)
    case _ => Err(TypeMismatch(key))
  }

  /** A `String`: a JSON string, no conversion from other values. */
  function AsString(j: Json, key: string): (r: Result<string, DecodeError>)
    ensures r.Ok? <==> j.JString?
    ensures r.Ok? ==> r.value == j.s
  {
    match j
    case JNull => Err(ValueNotFound(key))
    case JString(s) => Ok(s)
    case _ => Err(TypeMismatch(key))
  }

  /** An `[Int]`: an array whose items all decode as `Int`, in order. */
  function AsIntList(j: Json, key: string): (r: Result<seq<int>, DecodeError>)
    ensures r.Ok? <==> j.JArray? && forall i :: 0 <= i < |j.items| ==> AsInt(j.items[i], key).Ok?
    ensures r.Ok? ==> |r.value| == |j.items| && forall i :: 0 <= i < |j.items| ==> AsInt(j.items[i], key) == Ok(r.value[i])
  {
    match j
    case JNull => Err(ValueNotFound(key))
    case JArray(items) => IntItems(items, key)
    case _ => Err(TypeMismatch(key))
  }

  function IntItems(items: seq<Json>, key: string): (r: Result<seq<int>, DecodeError>)
    ensures r.Ok? <==> forall i :: 0 <= i < |items| ==> AsInt(items[i], key).Ok?
    ensures r.Ok? ==> |r.value| == |items| && forall i :: 0 <= i < |items| ==> AsInt(items[i], key) == Ok(r.value[i])
  {
    if items == [] then Ok([])
    else
      var first :- AsInt(items[0], key);
      var rest :- IntItems(items[1..], key);
      assert forall i :: 1 <= i < |items| ==> items[i] == items[1..][i - 1];
      Ok([first] + rest)
  }

  /** A `[String: String]`: an object whose values are all strings. */
  function AsStringMap(j: Json, key: string): (r: Result<map<string, string>, DecodeError>)
    ensures r.Ok? <==> j.JObject? && forall k :: k in j.fields ==> j.fields[k].JString?
    ensures r.Ok? ==> r.value.Keys == j.fields.Keys && forall k :: k in r.value ==> j.fields[k] == JString(r.value[k])
  {
    match j
    case JNull => Err(ValueNotFound(key))
    case JObject(fields) =>
      if forall k :: k in fields ==> fields[k].JString? then Ok(map k | k in fields :: fields[k].s)
      else Err(TypeMismatch(key))
    case _ => Err(TypeMismatch(key))
  }

  /** `decodeIfPresent([String: String].self, forKey:) ?? [:]`: an absent or
      `null` key reads as the empty map. */
  function StringMapOrEmpty(o: map<string, Json>, key: string): (r: Result<map<string, string>, DecodeError>)
    ensures key !in o || o[key] == JNull ==> r == Ok(map[])
    ensures key in o && o[key] != JNull ==> r == AsStringMap(o[key], key)
  {
    if key !in o || o[key] == JNull then Ok(map[]) else AsStringMap(o[key], key)
  }
}
