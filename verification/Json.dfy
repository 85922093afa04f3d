/** JSON values. Text encoding and number parsing are left abstract: a codec carries them. */
module Json {
  import opened Text

  /** A double: `mantissa` times two to the `exponent`, or one of the values that are no such product. */
  datatype Double = Finite(mantissa: int, exponent: int) | Infinite(negative: bool) | NotANumber

  datatype Json =
    | Null
    | Bool(b: bool)
    | Int(i: int)
    | Num(n: Double)
    | Str(s: string)
    | Arr(items: seq<Json>)
    | Obj(fields: map<string, Json>)

  /** `parse` yields None on text that is not JSON, `number` on text that is not wholly a number. */
  datatype Codec = Codec(dump: Json -> string, parse: string -> Option<Json>, number: string -> Option<Double>)
}
