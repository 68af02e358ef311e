/**
 * The custom value tree of the mod metadata: an immutable, tagged value that is
 * null, a boolean, a number, a string, an array or a string-keyed object, and the
 * result type the conversion protocol returns.
 */
module Values {

  /**
   * One custom value. A number keeps its exact value; an array keeps its
   * element order; an object is a hash map from key text to value, so it has
   * no entry order.
   */
  datatype Value =
    | Null
    | Boolean(b: bool)
    | Number(n: real)
    | String(text: string)
    | Array(elems: seq<Value>)
    | Object(fields: map<string, Value>)

  /**
   * Why an operation refused its input. Each case keeps the value that the
   * source embeds in its error message; the message text itself is not modelled.
   */
  datatype Problem =
    | NotANumber(input: Value)
    | NotABoolean(input: Value)
    | NotAString(input: Value)
    | NotAnArray(input: Value)
    | NotAnObject(input: Value)
    | MapNotAnObject(input: Value)
    | KeyNotAString(input: Value)
    | KeysNotStrings(keys: seq<Value>)

  /**
   * A recoverable result: a value, an error, or an error that still carries
   * the best-effort partial value.
   */
  datatype Result<+T> =
    | Success(value: T)
    | Error(problem: Problem)
    | PartialError(problem: Problem, partial: T)
}
