/**
 * The primitive constructors of an arbitrary target representation, as a value
 * of what `convertTo` builds: one case per constructor the conversion protocol
 * offers to the outbound direction.
 */
module Target {

  datatype Out =
    | Empty
    | Bool(b: bool)
    | Str(s: string)
    | Byte(i: int)
    | Short(i: int)
    | Int(i: int)
    | Long(i: int)
    | Float(d: real)
    | Double(d: real)
    | List(items: seq<Out>)
    | Map(entries: map<string, Out>)
  {
    /** True of the four signed integer constructors. */
    predicate IsIntegral() {
      Byte? || Short? || Int? || Long?
    }

    /** True of every numeric constructor. */
    predicate IsNumeric() {
      IsIntegral() || Float? || Double?
    }
  }
}
