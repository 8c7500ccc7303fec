/** JSON values as the site's JavaScript handles them after `JSON.parse` or a
    fetch: the value shapes, JavaScript truthiness, `||`, `??`, property access
    with optional chaining, object spread and template-literal conversion. */
module JsonValues {
  import opened Text

  datatype Option<+T> = None | Some(value: T)

  /** A component prop with a default parameter value: `None` (an omitted
      prop) takes the default. */
  function PropOr<T>(prop: Option<T>, default: T): T {
    if prop.Some? then prop.value else default
  }

  datatype Json =
    | Undefined                      // a property that is not there
    | Null
    | Bool(b: bool)
    | Num(n: int)
    | Str(s: string)
    | Arr(items: seq<Json>)
    | Obj(fields: map<string, Json>)

  /** JavaScript truthiness: `undefined`, `null`, `false`, `0` and `''` are falsy. */
  predicate Truthy(j: Json) {
    match j
    case Undefined => false
    case Null => false
    case Bool(b) => b
    case Num(n) => n != 0
    case Str(s) => s != ""
    case Arr(_) => true
    case Obj(_) => true
  }

  /** `j.key` on a truthy value, and `j?.key`: a missing property, or any
      property of a non-object, reads as `undefined`. */
  function Get(j: Json, key: string): Json {
    if j.Obj? && key in j.fields then j.fields[key] else Undefined
  }

  /** `a || b`. */
  function Or(a: Json, b: Json): Json {
    if Truthy(a) then a else b
  }

  /** `a ?? b`. */
  function Coalesce(a: Json, b: Json): Json {
    if a == Undefined || a == Null then b else a
  }

  /** The string a string method sees. A value of another type, on which the
      JavaScript would throw a TypeError, reads as the empty string. */
  function TextOf(j: Json): string {
    if j.Str? then j.s else ""
  }

  /** `obj.key = v`; assignments to primitives have no effect. */
  function SetField(j: Json, key: string, v: Json): (r: Json)
    ensures j.Obj? ==> r.Obj? && r.fields == j.fields[key := v]
    ensures !j.Obj? ==> r == j
  {
    if j.Obj? then Obj(j.fields[key := v]) else j
  }

  /** `{...j}`: an object's own fields, a string's or array's elements under
      their decimal indices, nothing for any other value. */
  function SpreadFields(j: Json): map<string, Json> {
    match j
    case Obj(fields) => fields
    case Str(s) => IndexedFields(seq(|s|, i requires 0 <= i < |s| => Str([s[i]])))
    case Arr(items) => IndexedFields(items)
    case _ => map[]
  }

  function IndexedFields(items: seq<Json>): map<string, Json>
  {
    if items == [] then map[]
    else IndexedFields(items[..|items| - 1])[NatToString(|items| - 1) := items[|items| - 1]]
  }

  /** `${j}` in a template literal. */
  function ToJsString(j: Json): string {
    match j
    case Undefined => "undefined"
    case Null => "null"
    case Bool(b) => if b then "true" else "false"
    case Num(n) => IntToString(n)
    case Str(s) => s
    case Arr(items) => ArrayToString(items)
    case Obj(_) => "[object Object]"
  }

  /** `Array.prototype.toString`: elements joined by `,`, with `null` and
      `undefined` elements printed as nothing. */
  function ArrayToString(items: seq<Json>): string
    decreases items
  {
    if items == [] then ""
    else
      var head := if items[0] == Undefined || items[0] == Null then "" else ToJsString(items[0]);
      if |items| == 1 then head else head + "," + ArrayToString(items[1..])
  }
}
