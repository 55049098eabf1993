/** The few JavaScript value shapes the bug tracker's request handling relies on. */
module Js {

  /** An object property that may be missing (`undefined`). */
  datatype Option<+T> = None | Some(value: T)

  /** A JSON/JavaScript value as far as the sanitiser distinguishes it: strings
      are transformed, everything else is passed through. */
  datatype JsValue =
    | JsString(s: string)
    | JsNumber(n: int)
    | JsBool(b: bool)
    | JsNull
    | JsUndefined

  /** JavaScript truthiness of an optional string property: it is present and
      not the empty string. */
  predicate Truthy(field: Option<string>)
  {
    field.Some? && |field.value| > 0
  }
}
