/** Values shared by every part of the model: optional values, the way a
    Python view reads a missing or empty request value, and the responses
    the views return. */
module Base {

  datatype Option<+T> = None | Some(value: T)

  /** Python's `(v or "")` for a value read from a request: a missing key, a
      JSON null and the empty string all give "". */
  function OrEmpty(v: Option<string>): (r: string)
    ensures v.Some? ==> r == v.value
    ensures v.None? ==> r == ""
  {
    if v.Some? then v.value else ""
  }

  /** Python's `(v or default)`: the default replaces a missing, null or empty value. */
  function OrDefault(v: Option<string>, default: string): (r: string)
    ensures Truthy(v) ==> r == v.value
    ensures !Truthy(v) ==> r == default
  {
    if Truthy(v) then v.value else default
  }

  /** Python's `(v or None)`: the empty string becomes None. */
  function OrNone(v: Option<string>): (r: Option<string>)
    ensures Truthy(v) <==> r.Some?
    ensures r.Some? ==> r == v
  {
    if Truthy(v) then v else None
  }

  /** Truthiness of an optional string in Python: present and non-empty. */
  predicate Truthy(v: Option<string>) {
    v.Some? && v.value != ""
  }

  /** `d.get(k)` on a mapping whose values may be JSON null. */
  function Get(d: map<string, Option<string>>, k: string): (r: Option<string>)
    ensures k !in d ==> r.None?
    ensures k in d ==> r == d[k]
  {
    if k in d then d[k] else None
  }

  /** `d.get(k)` on a query-string mapping (values are never null). */
  function Param(d: map<string, string>, k: string): (r: Option<string>)
    ensures r.Some? <==> k in d
    ensures r.Some? ==> r.value == d[k]
  {
    if k in d then Some(d[k]) else None
  }

  /** A JSON value of a returned row: a number (dates are numbers here),
      a string, a boolean or null. */
  datatype JsonValue = JInt(i: int) | JStr(s: string) | JBool(b: bool) | JNull

  /** What a view hands back: a status code with a "detail" message, a status
      code with a JSON payload, or an exception that escaped the view (which
      the framework turns into a 500 page). */
  datatype Response<+T> =
    | Detail(status: nat, detail: string)
    | Json(status: nat, data: T)
    | ServerError
  {
    function Status(): nat {
      match this
      case Detail(s, _) => s
      case Json(s, _) => s
      case ServerError => 500
    }
  }

  /** The methods an admin detail view accepts; any other is refused with a
      405 before the view body runs. */
  datatype Verb = HttpGet | HttpPut | HttpPatch | HttpDelete
}
