/** JavaScript values as the engine meets them in fetched JSON documents, with
    the conversions it applies to them: truthiness, `String(x)`, property reads. */
module Json {
  import opened Text

  /** A value produced by `JSON.parse`, plus `Undefined`, the value of a
      property that is absent. JSON numbers are modelled as integers. */
  datatype Json =
    | Undefined
    | Null
    | Bool(b: bool)
    | Num(n: int)
    | Str(s: string)
    | Arr(items: seq<Json>)
    | Obj(fields: map<string, Json>)

  /** `value.name` on a value that is not null or undefined: objects have their
      own fields, other values have none that the engine reads. */
  function Get(j: Json, name: string): Json {
    if j.Obj? && name in j.fields then j.fields[name] else Undefined
  }

  /** JavaScript truthiness (`if (x)`, `x || y`, `!x`). */
  predicate Truthy(j: Json) {
    match j
    case Undefined => false
    case Null => false
    case Bool(b) => b
    case Num(n) => n != 0
    case Str(s) => s != ""
    case Arr(_) => true
    case Obj(_) => true
  }

  /** `x || y`. */
  function Or(x: Json, y: Json): Json {
    if Truthy(x) then x else y
  }

  /** `String(x)`; arrays convert as `join(",")`, where null and undefined
      elements become empty. */
  function ToJsString(j: Json): string {
    match j
    case Undefined => "undefined"
    case Null => "null"
    case Bool(b) => if b then "true" else "false"
    case Num(n) => IntToString(n)
    case Str(s) => s
    case Arr(items) =>
      Join(seq(|items|, i requires 0 <= i < |items| =>
                 if items[i].Undefined? || items[i].Null? then "" else ToJsString(items[i])), ",")
    case Obj(_) => "[object Object]"
  }
}
