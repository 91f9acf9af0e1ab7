/** The values `json.loads` can return, and the Python operations the core applies to them:
    key lookup on a decoded object, hashability, and `str()` as used inside f-strings. */
module JsonValue {

  import opened Wrappers
  import opened Text

  /** A decoded JSON document. Objects keep their members in source order; numbers are
      integers (fractional and exponent forms are not modelled). */
  datatype Json =
    | JNull
    | JBool(b: bool)
    | JInt(i: int)
    | JString(s: string)
    | JArray(items: seq<Json>)
    | JObject(fields: seq<(string, Json)>)

  /** `d.get(key)` on a dict built from `fields`: when a key repeats, the last binding wins,
      as it does when `json.loads` builds a dict. */
  function Lookup(fields: seq<(string, Json)>, key: string): (r: Option<Json>)
    ensures r.Some? <==> exists k :: 0 <= k < |fields| && fields[k].0 == key
    ensures r.Some? ==> exists k :: 0 <= k < |fields| && fields[k] == (key, r.value)
                                    && forall j :: k < j < |fields| ==> fields[j].0 != key
    decreases |fields|
  {
    if |fields| == 0 then None
    else if fields[|fields| - 1].0 == key then Some(fields[|fields| - 1].1)
    else Lookup(fields[..|fields| - 1], key)
  }

  /** `key in d` for a dict `d`. */
  predicate HasKey(fields: seq<(string, Json)>, key: string) {
    Lookup(fields, key).Some?
  }

  /** `d.get(key, default)` */
  function GetOr(fields: seq<(string, Json)>, key: string, default: Json): Json {
    Lookup(fields, key).GetOr(default)
  }

  /** Whether Python can use the value as a dict key: lists and dicts raise `TypeError`. */
  predicate Hashable(j: Json) {
    !j.JArray? && !j.JObject?
  }

  /** `repr()` of a string. Python picks double quotes only when the text holds a single quote
      and no double quote; backslash escapes are not modelled. */
  function ReprString(s: string): string {
    if '\'' in s && '"' !in s then "\"" + s + "\"" else "'" + s + "'"
  }

  /** `repr()` of a decoded value, as it appears inside the `str()` of a list or dict. */
  function Repr(j: Json): string
    decreases j
  {
    match j
    case JNull => "None"
    case JBool(b) => if b then "True" else "False"
    case JInt(i) => IntToString(i)
    case JString(s) => ReprString(s)
    case JArray(items) =>
      "[" + Join(seq(|items|, k requires 0 <= k < |items| => Repr(items[k])), ", ") + "]"
    case JObject(fields) =>
      "{" + Join(seq(|fields|, k requires 0 <= k < |fields| =>
                       ReprString(fields[k].0) + ": " + Repr(fields[k].1)), ", ") + "}"
  }

  /** `str()` of a decoded value, which is what an f-string interpolates. */
  function Str(j: Json): (r: string)
    ensures j.JString? ==> r == j.s
    ensures j.JInt? ==> r == IntToString(j.i)
    ensures j.JNull? ==> r == "None"
  {
    if j.JString? then j.s else Repr(j)
  }
}
