/** JSON values as the routes and the page see them after parsing. Parsing,
    validity and pretty-printing are not modelled: operations that need them take
    them as function parameters. Numbers are integral here. */
module Json {
  import opened Wrappers
  import opened Text

  datatype Json =
    | JNull
    | JBool(b: bool)
    | JNum(n: int)
    | JStr(s: string)
    | JArr(items: seq<Json>)
    | JObj(fields: map<string, Json>)

  /** A parser: `Some(v)` when the text is valid JSON denoting `v`, `None` when
      `JSON.parse` would throw. */
  type Parser = string -> Option<Json>

  /** The empty object `{}`. */
  const EmptyObject: Json := JObj(map[])

  /** JavaScript truthiness of a parsed value. */
  predicate Truthy(j: Json) {
    match j
    case JNull => false
    case JBool(b) => b
    case JNum(n) => n != 0
    case JStr(s) => s != ""
    case JArr(_) => true
    case JObj(_) => true
  }

  /** `typeof v === 'object'` (which includes `null` and arrays). */
  predicate IsObjectType(j: Json) {
    j.JNull? || j.JArr? || j.JObj?
  }

  /** Optional property access `v?.key` for a property that no primitive or
      array prototype defines (such as "body" or "error"): only an object's own
      member is found. */
  function Member(j: Json, key: string): (r: Option<Json>)
    ensures r.Some? <==> j.JObj? && key in j.fields
    ensures r.Some? ==> r.value == j.fields[key]
  {
    if j.JObj? && key in j.fields then Some(j.fields[key]) else None
  }

  /** `String(v)`, the conversion a template literal applies: arrays join their
      elements with ',' (a null element becoming ""), objects print as
      "[object Object]". */
  function Display(j: Json): (r: string)
    ensures j.JStr? ==> r == j.s
    ensures j.JObj? ==> r == "[object Object]"
    ensures j.JNull? ==> r == "null"
    ensures j.JBool? ==> (r == "true" <==> j.b) && (r == "false" <==> !j.b)
    ensures j.JNum? && j.n >= 0 ==> && |r| > 0 && (forall i :: 0 <= i < |r| ==> IsDigit(r[i]))
                                    && (|r| > 1 ==> r[0] != '0') && DecimalValue(r) == j.n
    ensures j.JNum? && j.n < 0 ==> && |r| > 1 && r[0] == '-' && (forall i :: 1 <= i < |r| ==> IsDigit(r[i]))
                                   && (|r| > 2 ==> r[1] != '0') && DecimalValue(r[1..]) == -j.n
    decreases j, 1
  {
    match j
    case JNull => "null"
    case JBool(b) => if b then "true" else "false"
    case JNum(n) =>
      NatToStringRoundTrip(if n >= 0 then n else -n);
      var r := IntToString(n);
      assert n < 0 ==> r[1..] == NatToString(-n);
      r
    case JStr(s) => s
    case JArr(items) => JoinItems(items)
    case JObj(_) => "[object Object]"
  }

  /** `Array.prototype.join(',')` over already-parsed elements. */
  function JoinItems(items: seq<Json>): string
    decreases items, 0
  {
    if items == [] then ""
    else
      var first := if items[0].JNull? then "" else Display(items[0]);
      if |items| == 1 then first else first + "," + JoinItems(items[1..])
  }
}
