/**
 * The JavaScript values the UI code passes around, reduced to what it
 * inspects: whether a value is truthy, and equality.
 */
module Values {

  /** A JavaScript value as seen by the editors and the test-result display.
      Numbers are integers; any object or array is an opaque `Composite`. */
  datatype Value =
    | Undefined
    | Null
    | Bool(b: bool)
    | Num(n: int)
    | Str(s: string)
    | Composite(ref: nat)

  /** JavaScript truthiness: `undefined`, `null`, `false`, `0` and `""` are falsy. */
  predicate Truthy(v: Value)
  {
    match v
    case Undefined => false
    case Null => false
    case Bool(b) => b
    case Num(n) => n != 0
    case Str(s) => s != ""
    case Composite(_) => true
  }

  /** The stored form of an editable expression (`ExpressionObj` in the UI types). */
  datatype ExpressionObj = ExpressionObj(expression: string, language: string)
}
