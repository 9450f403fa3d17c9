/** JSON values as `serde_json` holds them: numbers are integers (of `i64` or `u64`) or finite
    doubles, and equality of values compares doubles as numbers. */
module Json {
  import opened Wrappers
  import opened F64

  datatype Number = Int(i: int) | Float(bits: Bits)

  datatype Value =
    | Null
    | Bool(b: bool)
    | Num(n: Number)
    | Str(s: string)
    | Arr(items: seq<Value>)
    | Obj(fields: map<string, Value>)

  /** Renders a value as JSON text. The rendering of doubles is not modelled, so the text is a
      parameter wherever it matters. */
  type Printer = Value -> string

  /** The value with every negative zero replaced by the positive one. */
  function Canon(v: Value): Value {
    match v
    case Num(Float(bits)) => if bits == NEGATIVE_ZERO then Num(Float(POSITIVE_ZERO)) else v
    case Arr(items) => Arr(seq(|items|, i requires 0 <= i < |items| => Canon(items[i])))
    case Obj(fields) => Obj(map k | k in fields :: Canon(fields[k]))
    case _ => v
  }

  /** `==` on values: -0.0 and 0.0 are equal, an integer never equals a double. */
  predicate Equal(a: Value, b: Value) { Canon(a) == Canon(b) }

  /** `value.get(field)` */
  function Field(v: Value, field: string): Option<Value> {
    if v.Obj? && field in v.fields then Some(v.fields[field]) else None
  }
}
