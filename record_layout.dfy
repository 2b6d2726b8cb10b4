/**
 * The binary-table layout of one record: the field type each column is bound to
 * (the type mapping done when the schema is bound), the typed one-element slots of
 * the model row, and how the writer flattens them into bytes, big-endian and
 * without padding between fields (section 7.3 of the FITS Standard 4.0).
 */
module RecordLayout {
  import opened Wrappers
  import opened FitsPacking
  import opened IsoFormat
  import opened HiveTypes

  /** Width of every CHAR, VARCHAR and STRING column. */
  const STRING_FIELD_LENGTH: nat := 255

  /** The FITS field types of the columns, with their TFORM codes. */
  datatype FieldType =
    | LogicalField    // L
    | ByteField       // B
    | ShortField      // I
    | IntField        // J
    | LongField       // K
    | FloatField      // E
    | DoubleField     // D
    | StringField     // 255A
    | DateField       // 10A
    | TimestampField  // 23A

  /** Bytes a field of each type takes in a record. */
  function Width(ft: FieldType): nat {
    match ft
    case LogicalField => 1
    case ByteField => 1
    case ShortField => 2
    case IntField => 4
    case LongField => 8
    case FloatField => 4
    case DoubleField => 8
    case StringField => STRING_FIELD_LENGTH
    case DateField => DATE_WIDTH
    case TimestampField => TIMESTAMP_WIDTH
  }

  /** The field type a column of type t is bound to; None for the unsupported types. */
  function FieldTypeOf(t: TypeInfo): Option<FieldType> {
    match t
    case Nested(_) => None
    case Primitive(p) =>
      match p
      case BOOLEAN => Some(LogicalField)
      case BYTE => Some(ByteField)
      case SHORT => Some(ShortField)
      case INT => Some(IntField)
      case LONG => Some(LongField)
      case FLOAT => Some(FloatField)
      case DOUBLE => Some(DoubleField)
      case CHAR => Some(StringField)
      case VARCHAR => Some(StringField)
      case STRING => Some(StringField)
      case DATE => Some(DateField)
      case TIMESTAMP => Some(TimestampField)
      case _ => None
  }

  /** Every column of the schema has a supported type. */
  predicate AllSupported(types: seq<TypeInfo>) {
    forall i :: 0 <= i < |types| ==> FieldTypeOf(types[i]).Some?
  }

  /** The error raised for a column of an unsupported type. */
  function UnsupportedError(t: TypeInfo): SerDeError {
    match t
    case Nested(c) => UnsupportedCategory(c)
    case Primitive(p) => UnsupportedPrimitive(p)
  }

  /** The bound field types of a schema all of whose columns are supported. */
  function SchemaOf(types: seq<TypeInfo>): seq<FieldType>
    requires AllSupported(types)
  {
    seq(|types|, i requires 0 <= i < |types| => FieldTypeOf(types[i]).value)
  }

  /** A one-element column array of the model row. */
  datatype Slot =
    | LogicalSlot(flag: bool)
    | ByteSlot(i8: Int8)
    | ShortSlot(i16: Int16)
    | IntSlot(i32: Int32)
    | LongSlot(i64: Int64)
    | FloatSlot(f32: Bits32)
    | DoubleSlot(f64: Bits64)
    | TextSlot(text: string)

  /** A character is written as one byte, its low eight bits. */
  function CharByte(c: char): Byte {
    (c as int) % 256
  }

  /** The bytes the writer emits for one slot. */
  function SlotBytes(s: Slot): seq<Byte> {
    match s
    case LogicalSlot(b) => [if b then 'T' as int else 'F' as int]
    case ByteSlot(v) => PackSigned(v, 1)
    case ShortSlot(v) => PackSigned(v, 2)
    case IntSlot(v) => PackSigned(v, 4)
    case LongSlot(v) => PackSigned(v, 8)
    case FloatSlot(bits) => BigEndian(bits, 4)
    case DoubleSlot(bits) => BigEndian(bits, 8)
    case TextSlot(t) => seq(|t|, k requires 0 <= k < |t| => CharByte(t[k]))
  }

  /** Slot s has the shape and width a column of field type ft was laid out with. */
  predicate Fits(ft: FieldType, s: Slot) {
    match ft
    case LogicalField => s.LogicalSlot? || (s.TextSlot? && |s.text| == 1)
    case ByteField => s.ByteSlot?
    case ShortField => s.ShortSlot?
    case IntField => s.IntSlot?
    case LongField => s.LongSlot?
    case FloatField => s.FloatSlot?
    case DoubleField => s.DoubleSlot?
    case StringField => s.TextSlot? && |s.text| == STRING_FIELD_LENGTH
    case DateField => s.TextSlot? && |s.text| == DATE_WIDTH
    case TimestampField => s.TextSlot? && |s.text| == TIMESTAMP_WIDTH
  }

  lemma FitsWidth(ft: FieldType, s: Slot)
    requires Fits(ft, s)
    ensures |SlotBytes(s)| == Width(ft)
  {
  }

  /** The model row m is laid out as the field types fts say. */
  predicate LaidOut(fts: seq<FieldType>, m: seq<Slot>) {
    |fts| == |m| && forall i :: 0 <= i < |m| ==> Fits(fts[i], m[i])
  }

  /** The record: every slot's bytes, in column order, with nothing between them. */
  function Flatten(m: seq<Slot>): seq<Byte> {
    if m == [] then [] else Flatten(m[..|m| - 1]) + SlotBytes(m[|m| - 1])
  }

  /** The sum of the widths of the columns. */
  function RecordWidth(fts: seq<FieldType>): nat {
    if fts == [] then 0 else RecordWidth(fts[..|fts| - 1]) + Width(fts[|fts| - 1])
  }

  /** Where column i starts in a record. */
  function Offset(fts: seq<FieldType>, i: nat): nat
    requires i <= |fts|
  {
    RecordWidth(fts[..i])
  }

  /** A prefix of a laid-out row is laid out as the prefix of the field types. */
  lemma LaidOutPrefix(fts: seq<FieldType>, m: seq<Slot>, n: nat)
    requires LaidOut(fts, m) && n <= |m|
    ensures LaidOut(fts[..n], m[..n])
  {
    assert forall i :: 0 <= i < n ==> fts[..n][i] == fts[i] && m[..n][i] == m[i];
  }

  /** A record is exactly as long as the sum of its columns' widths. */
  lemma {:induction false} FlattenLength(fts: seq<FieldType>, m: seq<Slot>)
    requires LaidOut(fts, m)
    ensures |Flatten(m)| == RecordWidth(fts)
  {
    if m != [] {
      var n := |m|;
      LaidOutPrefix(fts, m, n - 1);
      FlattenLength(fts[..n - 1], m[..n - 1]);
      FitsWidth(fts[n - 1], m[n - 1]);
      assert |Flatten(m)| == |Flatten(m[..n - 1])| + |SlotBytes(m[n - 1])|;
    }
  }

  /** The record of the first j + 1 slots is the record of the first j followed by slot j. */
  lemma FlattenSnoc(m: seq<Slot>, j: nat)
    requires j < |m|
    ensures Flatten(m[..j + 1]) == Flatten(m[..j]) + SlotBytes(m[j])
  {
    assert m[..j + 1][..j] == m[..j];
  }

  /** The record of the first j slots is a prefix of the whole record. */
  lemma {:induction false} FlattenPrefix(m: seq<Slot>, j: nat)
    requires j <= |m|
    ensures |Flatten(m[..j])| <= |Flatten(m)|
    ensures Flatten(m)[..|Flatten(m[..j])|] == Flatten(m[..j])
  {
    if j < |m| {
      var n := |m|;
      FlattenPrefix(m[..n - 1], j);
      assert m[..n - 1][..j] == m[..j];
      var front := Flatten(m[..n - 1]);
      assert Flatten(m) == front + SlotBytes(m[n - 1]);
      var k := |Flatten(m[..j])|;
      assert (front + SlotBytes(m[n - 1]))[..k] == front[..k];
    } else {
      assert m[..j] == m;
    }
  }

  /** Column i occupies bytes Offset(i) to Offset(i) + Width(fts[i]) of the record, and they are its slot's bytes. */
  lemma FlattenField(fts: seq<FieldType>, m: seq<Slot>, i: nat)
    requires LaidOut(fts, m) && i < |m|
    ensures Offset(fts, i) + Width(fts[i]) <= |Flatten(m)|
    ensures Flatten(m)[Offset(fts, i)..Offset(fts, i) + Width(fts[i])] == SlotBytes(m[i])
  {
    LaidOutPrefix(fts, m, i);
    FlattenLength(fts[..i], m[..i]);
    FitsWidth(fts[i], m[i]);
    FlattenSnoc(m, i);
    FlattenPrefix(m, i + 1);
    PrefixSlice(Flatten(m), Flatten(m[..i]), SlotBytes(m[i]));
  }

  /** When p + s is a prefix of x, s sits in x right after p. */
  lemma PrefixSlice(x: seq<Byte>, p: seq<Byte>, s: seq<Byte>)
    requires |p + s| <= |x| && x[..|p + s|] == p + s
    ensures x[|p|..|p| + |s|] == s
  {
    assert x[|p|..|p| + |s|] == (p + s)[|p|..];
  }

  /** A one-column record is its slot's bytes. */
  lemma FlattenOne(m: seq<Slot>)
    requires |m| == 1
    ensures Flatten(m) == SlotBytes(m[0])
  {
    assert Flatten(m) == Flatten(m[..0]) + SlotBytes(m[0]);
  }

  /** The record width only depends on the field types: it is the same for every row. */
  lemma SameWidth(fts: seq<FieldType>, m1: seq<Slot>, m2: seq<Slot>)
    requires LaidOut(fts, m1) && LaidOut(fts, m2)
    ensures |Flatten(m1)| == |Flatten(m2)|
  {
    FlattenLength(fts, m1);
    FlattenLength(fts, m2);
  }

  /** A string of n copies of c: spaces in a string sample, NULs in an empty text slot. */
  function Repeat(c: char, n: nat): (r: string)
    ensures |r| == n && forall k :: 0 <= k < n ==> r[k] == c
  {
    seq(n, _ => c)
  }

  /**
   * The sample slot built for a column when the schema is bound: a zero of the
   * numeric types, false, 255 spaces, or the current date and time as text.
   */
  function Sample(ft: FieldType, now: Timestamp): (s: Slot)
    ensures Fits(ft, s)
  {
    match ft
    case LogicalField => LogicalSlot(false)
    case ByteField => ByteSlot(0)
    case ShortField => ShortSlot(0)
    case IntField => IntSlot(0)
    case LongField => LongSlot(0)
    case FloatField => FloatSlot(0)
    case DoubleField => DoubleSlot(0)
    case StringField => TextSlot(Repeat(' ', STRING_FIELD_LENGTH))
    case DateField => TextSlot(FormatDate(now.date))
    case TimestampField => TextSlot(FormatTimestamp(now))
  }

  /** The sample row of a schema. */
  function Samples(fts: seq<FieldType>, now: Timestamp): (r: seq<Slot>)
    ensures LaidOut(fts, r)
  {
    seq(|fts|, i requires 0 <= i < |fts| => Sample(fts[i], now))
  }

  /**
   * The slot the model row starts with for a column of field type ft: the shape and
   * width of the column's sample with empty contents, that is false, zero, or NUL
   * characters. Every field type but the logical one is then written as zero bytes.
   */
  function EmptySlot(ft: FieldType): (s: Slot)
    ensures Fits(ft, s)
    ensures ft == LogicalField ==> SlotBytes(s) == ['F' as int]
    ensures ft != LogicalField ==> SlotBytes(s) == Zeros(Width(ft))
  {
    ZeroPattern(1);
    ZeroPattern(2);
    ZeroPattern(4);
    ZeroPattern(8);
    match ft
    case LogicalField => LogicalSlot(false)
    case ByteField => ByteSlot(0)
    case ShortField => ShortSlot(0)
    case IntField => IntSlot(0)
    case LongField => LongSlot(0)
    case FloatField => FloatSlot(0)
    case DoubleField => DoubleSlot(0)
    case StringField => TextSlot(Repeat('\0', STRING_FIELD_LENGTH))
    case DateField => TextSlot(Repeat('\0', DATE_WIDTH))
    case TimestampField => TextSlot(Repeat('\0', TIMESTAMP_WIDTH))
  }

  /** The empty model row of a schema. */
  function EmptyRow(fts: seq<FieldType>): (r: seq<Slot>)
    ensures LaidOut(fts, r)
    ensures forall i :: 0 <= i < |fts| ==> r[i] == EmptySlot(fts[i])
  {
    seq(|fts|, i requires 0 <= i < |fts| => EmptySlot(fts[i]))
  }

  /** The empty model row is written as 'F' for each logical column and zero bytes for all others. */
  lemma EmptyRecord(fts: seq<FieldType>, i: nat)
    requires i < |fts|
    ensures Offset(fts, i) + Width(fts[i]) <= |Flatten(EmptyRow(fts))|
    ensures Flatten(EmptyRow(fts))[Offset(fts, i)..Offset(fts, i) + Width(fts[i])]
            == if fts[i] == LogicalField then ['F' as int] else Zeros(Width(fts[i]))
  {
    FlattenField(fts, EmptyRow(fts), i);
  }
}
