/** The JSON-like value a form binds to, and the small wrappers used for
    absent values and failures. */
module JsonValues {

  datatype Option<+T> = None | Some(value: T) {
    function GetOr(default: T): T {
      match this
      case Some(v) => v
      case None => default
    }
  }

  /** Either a value or the fact that the source would have thrown. */
  datatype Result<+T> = Ok(value: T) | Err

  /** A form value: scalars, `undefined` (Undef), arrays and plain objects.
      Objects are maps, so key insertion order is not part of a value. */
  datatype Json =
    | Str(s: string)
    | Num(n: int)
    | Bool(b: bool)
    | Null
    | Undef
    | Arr(items: seq<Json>)
    | Obj(fields: map<string, Json>)
  {
    /** `null` or `undefined`. */
    predicate IsNullish() {
      Null? || Undef?
    }

    /** lodash `isObject` restricted to JSON: arrays and plain objects. */
    predicate IsContainer() {
      Arr? || Obj?
    }
  }
}
