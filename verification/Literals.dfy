/** Reading JSON values as literals of the primitive types. */
module Literals {

  import opened Prelude
  import opened Json
  import opened Truth

  datatype PrimitiveType =
    | BooleanType | IntType | LongType | FloatType | DoubleType | StringType | UuidType
    | DateType | TimeType | TimestampType | TimestamptzType | TimestampNsType | TimestamptzNsType
    | DecimalType(precision: nat, scale: nat) | FixedType(length: nat) | BinaryType
  {
    predicate IsFloating() {
      FloatType? || DoubleType?
    }
  }

  /** How text is read as a UUID, a date, a time, a timestamp, a decimal or bytes in hexadecimal. */
  type TextReader = (string, PrimitiveType) -> Option<Datum>

  function WholeNumber(n: int, least: int, most: int): Option<Datum> {
    if least <= n <= most then Some(IntDatum(n)) else None
  }

  /** `datum_from_json`: a value of one JSON shape is a literal of some types and of no others. */
  function DatumFromJson(read: TextReader, j: Json, p: PrimitiveType): Option<Datum> {
    match p
    case BooleanType => if j.Bool? then Some(BoolDatum(j.b)) else None
    case IntType => if j.Int? then WholeNumber(j.n, MIN_I32, MAX_I32) else None
    case LongType => if j.Int? then WholeNumber(j.n, MIN_I64, MAX_I64) else None
    case FloatType => Number(j)
    case DoubleType => Number(j)
    case StringType => if j.Str? then Some(StrDatum(j.s)) else None
    case DateType => if j.Str? then read(j.s, p) else if j.Int? then WholeNumber(j.n, MIN_I32, MAX_I32) else None
    case TimestampType => Instant(read, j, p)
    case TimestamptzType => Instant(read, j, p)
    case TimestampNsType => Instant(read, j, p)
    case TimestamptzNsType => Instant(read, j, p)
    case _ => if j.Str? then read(j.s, p) else None
  }

  function Number(j: Json): Option<Datum> {
    match j
    case Int(n) => Some(RealDatum(n as real))
    case Float(r) => Some(RealDatum(r))
    case _ => None
  }

  /** Text, or a count of the column's own unit. */
  function Instant(read: TextReader, j: Json, p: PrimitiveType): Option<Datum> {
    if j.Str? then read(j.s, p) else if j.Int? then WholeNumber(j.n, MIN_I64, MAX_I64) else None
  }
}
