/** The decoded form of an upstream `data:` payload. JSON.parse and
    JSON.stringify belong to the runtime and stay abstract: the gateway takes
    them as function parameters. An object is a map from keys to values (key
    order is not modelled). */
module Json {

  datatype Option<+T> = None | Some(value: T)

  datatype Json =
    | JNull
    | JBool(b: bool)
    | JNumber(n: real)
    | JString(s: string)
    | JArray(items: seq<Json>)
    | JObject(fields: map<string, Json>)

  /** JavaScript truthiness of a decoded value: what `x || ''` keeps. */
  predicate Truthy(j: Json)
  {
    match j
    case JNull => false
    case JBool(b) => b
    case JNumber(n) => n != 0.0
    case JString(s) => s != ""
    case JArray(_) => true
    case JObject(_) => true
  }

  /** `j?.[key]` for a named property: only objects have one. */
  function Member(j: Json, key: string): (r: Option<Json>)
    ensures r.Some? <==> j.JObject? && key in j.fields
    ensures r.Some? ==> r.value == j.fields[key]
  {
    if j.JObject? && key in j.fields then Some(j.fields[key]) else None
  }

  /** `j?.[0]`: the first element of an array, or an object's "0" property.
      (Indexing a string gives a one-character string, which has no `delta`
      property, so for the lookup below it is as good as nothing.) */
  function FirstElement(j: Json): (r: Option<Json>)
    ensures j.JArray? && j.items != [] ==> r == Some(j.items[0])
    ensures j.JObject? ==> r == Member(j, "0")
    ensures !j.JArray? && !j.JObject? ==> r.None?
  {
    match j
    case JArray(items) => if items != [] then Some(items[0]) else None
    case JObject(_) => Member(j, "0")
    case _ => None
  }

  /** Where `choices?.[0]?.delta?.content` was found: the top-level fields,
      the fields of choice 0 and the content value itself. */
  datatype Located = Located(top: map<string, Json>, choice: map<string, Json>, content: Json)

  /** `data.choices?.[0]?.delta?.content`, for a payload that is not null. */
  function FindContent(data: Json): (r: Option<Located>)
    ensures r.Some? ==>
      data == JObject(r.value.top) &&
      Member(data, "choices").Some? &&
      FirstElement(Member(data, "choices").value) == Some(JObject(r.value.choice)) &&
      Member(JObject(r.value.choice), "delta").Some? &&
      Member(Member(JObject(r.value.choice), "delta").value, "content") == Some(r.value.content)
    ensures r.None? ==>
      Member(data, "choices").None? ||
      FirstElement(Member(data, "choices").value).None? ||
      !FirstElement(Member(data, "choices").value).value.JObject? ||
      Member(FirstElement(Member(data, "choices").value).value, "delta").None? ||
      Member(Member(FirstElement(Member(data, "choices").value).value, "delta").value, "content").None?
  {
    match Member(data, "choices")
    case None => None
    case Some(choices) =>
      match FirstElement(choices)
      case Some(JObject(choice)) =>
        (match Member(JObject(choice), "delta")
         case None => None
         case Some(delta) =>
           match Member(delta, "content")
           case None => None
           case Some(content) => Some(Located(data.fields, choice, content)))
      case _ => None
  }
}
