/** Values as decoders send them, and the columns they land in. */
module Values {
  import opened Wrappers

  /** `Value`; a float is its bit pattern. */
  datatype Value =
    | Null | Str(text: string) | Integer(i: int) | Float(bits: int) | Boolean(b: bool)
    | Date(days: int) | Instant(ts: int)

  /** A stored value of any column type. */
  type Cell(==, !new)

  datatype TimeUnit = Second | Millisecond | Microsecond | Nanosecond

  /** The storage of a column. */
  datatype Variant =
    | StringColumn | Int64Column | Float64Column | BooleanColumn | Date32Column
    | TimestampColumn(unit: TimeUnit) | Decimal128Column(scale: nat) | DictionaryColumn

  /** The conversions of the column types: what a value becomes in a column (`None` when it does
      not parse), and an integer cell as a float. */
  datatype Conversions = Conversions(store: (Variant, Value) -> Option<Cell>, widen: Cell -> Cell)

  /** What a parser sends to its sink. */
  datatype Event = BeginRow | Put(name: string, value: Value) | EndRow
}
