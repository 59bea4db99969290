/**
 The JavaScript values the input pipeline handles, and the two built-ins it
 relies on (`Number` and `JSON.parse`), which are taken as parameters.
 */
module JsValues {

  /** A JavaScript number: a finite value, NaN, or one of the two infinities. */
  datatype Num = Finite(x: real) | NaN | PosInfinity | NegInfinity

  /** A value `JSON.parse` can produce; a JSON array's elements are kept as they are. */
  datatype Value =
    | Null
    | Bool(b: bool)
    | Number(n: Num)
    | Str(s: string)
    | Array(items: seq<Value>)
    | Object(entries: seq<(string, Value)>)

  /** What a call of `JSON.parse` does: throw a SyntaxError or return a value. */
  datatype JsonOutcome = SyntaxError | Parsed(v: Value)

  /**
   The two built-ins, as opaque parameters: `number` is `Number(text)`,
   `jsonParse` is `JSON.parse(text)`. Every property of the pipeline is
   stated for whatever these return.
   */
  datatype Builtins = Builtins(number: string -> Num, jsonParse: string -> JsonOutcome)

  /** `Array.isArray(JSON.parse(text))`, false when parsing throws. */
  predicate IsJsonArray(o: JsonOutcome) {
    o.Parsed? && o.v.Array?
  }
}
