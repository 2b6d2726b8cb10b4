/**
 * The Hive side of the serde: type descriptors of columns, and the values a row
 * delivers for them. A row is a sequence of fields, each the type its object
 * inspector reports together with the value or a null marker.
 */
module HiveTypes {
  import opened Wrappers
  import opened IsoFormat

  /** Hive's primitive type categories. */
  datatype PrimitiveCategory =
    | VOID | BOOLEAN | BYTE | SHORT | INT | LONG | FLOAT | DOUBLE | STRING
    | DATE | TIMESTAMP | BINARY | DECIMAL | VARCHAR | CHAR
    | INTERVAL_YEAR_MONTH | INTERVAL_DAY_TIME | UNKNOWN

  /** The non-primitive categories; their element types play no part here. */
  datatype NestedCategory = LIST | MAP | STRUCT | UNION

  datatype TypeInfo = Primitive(primitive: PrimitiveCategory) | Nested(category: NestedCategory)

  /** Java's fixed-width integers and the bit patterns of its floating-point numbers. */
  type Int8 = x: int | -0x80 <= x < 0x80
  type Int16 = x: int | -0x8000 <= x < 0x8000
  type Int32 = x: int | -0x8000_0000 <= x < 0x8000_0000
  type Int64 = x: int | -0x8000_0000_0000_0000 <= x < 0x8000_0000_0000_0000
  type Bits32 = x: nat | x < 0x1_0000_0000
  type Bits64 = x: nat | x < 0x1_0000_0000_0000_0000

  /** b is the pattern of a float NaN: all eight exponent bits set and a non-zero fraction. */
  predicate IsNaN32(b: Bits32) {
    b / 0x80_0000 % 0x100 == 0xff && b % 0x80_0000 != 0
  }

  /** b is the pattern of a double NaN: all eleven exponent bits set and a non-zero fraction. */
  predicate IsNaN64(b: Bits64) {
    b / 0x10_0000_0000_0000 % 0x800 == 0x7ff && b % 0x10_0000_0000_0000 != 0
  }

  /**
   * Float.floatToIntBits and Double.doubleToLongBits of a Java number: its bit pattern,
   * with every NaN collapsed to the canonical one. This is what DataOutput's writeFloat
   * and writeDouble put on the stream.
   */
  type FloatBits = b: Bits32 | !IsNaN32(b) || b == FLOAT_NAN_BITS
  type DoubleBits = b: Bits64 | !IsNaN64(b) || b == DOUBLE_NAN_BITS

  /** Byte.MIN_VALUE, Short.MIN_VALUE, Integer.MIN_VALUE and Long.MIN_VALUE. */
  const BYTE_MIN_VALUE: Int8 := -0x80
  const SHORT_MIN_VALUE: Int16 := -0x8000
  const INT_MIN_VALUE: Int32 := -0x8000_0000
  const LONG_MIN_VALUE: Int64 := -0x8000_0000_0000_0000

  /** The bit patterns Java writes for Float.NaN and Double.NaN. */
  const FLOAT_NAN_BITS: Bits32 := 0x7fc0_0000
  const DOUBLE_NAN_BITS: Bits64 := 0x7ff8_0000_0000_0000

  /** A non-null column value, as the object inspector of its column reads it. */
  datatype Value =
    | BoolValue(flag: bool)
    | ByteValue(i8: Int8)
    | ShortValue(i16: Int16)
    | IntValue(i32: Int32)
    | LongValue(i64: Int64)
    | FloatValue(f32: FloatBits)
    | DoubleValue(f64: DoubleBits)
    | TextValue(text: string)
    | DateValue(date: Date)
    | TimestampValue(stamp: Timestamp)
    | OtherValue  // the value of a column of a category the serde does not support

  /** One field of a row: the type its inspector reports, and its data or null. */
  datatype Field = Field(ty: TypeInfo, data: Option<Value>)

  /** A value read through an inspector of type t: what each cast in the encoder expects. */
  predicate HasType(v: Value, t: TypeInfo) {
    match t
    case Nested(_) => v.OtherValue?
    case Primitive(p) =>
      match p
      case BOOLEAN => v.BoolValue?
      case BYTE => v.ByteValue?
      case SHORT => v.ShortValue?
      case INT => v.IntValue?
      case LONG => v.LongValue?
      case FLOAT => v.FloatValue?
      case DOUBLE => v.DoubleValue?
      case CHAR => v.TextValue?
      case VARCHAR => v.TextValue?
      case STRING => v.TextValue?
      case DATE => v.DateValue?
      case TIMESTAMP => v.TimestampValue?
      case _ => v.OtherValue?
  }

  /** The inspector describes the data it hands out. */
  predicate WellTyped(f: Field) {
    f.data.Some? ==> HasType(f.data.value, f.ty)
  }

  /** The serde's errors (SerDeException), and the out-of-range field lookup of a short row. */
  datatype SerDeError =
    | UnsupportedPrimitive(primitive: PrimitiveCategory)
    | UnsupportedCategory(category: NestedCategory)
    | FieldIndexOutOfRange(index: nat)
}
