/**
 * The per-column encoding rules the serde applies to each field of a row, and the
 * row-level result of applying them in column order to the model row.
 */
module RowEncoder {
  import opened Wrappers
  import opened FitsPacking
  import opened IsoFormat
  import opened HiveTypes
  import opened RecordLayout

  /** StringUtils.rightPad: s if it already has n characters, else s followed by copies of c up to n. */
  function RightPad(s: string, n: nat, c: char): (r: string)
    ensures |r| == if |s| >= n then |s| else n
    ensures r[..|s|] == s
    ensures forall k :: |s| <= k < |r| ==> r[k] == c
  {
    if |s| >= n then s else s + seq(n - |s|, _ => c)
  }

  /** A string value as stored in a string slot: NUL-padded, then cut to exactly 255 characters. */
  function FixedText(s: string): (r: string)
    ensures |r| == STRING_FIELD_LENGTH
    ensures forall k :: 0 <= k < |r| ==> r[k] == if k < |s| then s[k] else '\0'
  {
    RightPad(s, STRING_FIELD_LENGTH, '\0')[..STRING_FIELD_LENGTH]
  }

  predicate WellTypedRow(fields: seq<Field>) {
    forall i :: 0 <= i < |fields| ==> WellTyped(fields[i])
  }

  /**
   * The new content of a model slot whose previous content is prev, for field f.
   * Ok(prev) is the slot left as it was.
   */
  function EncodeField(f: Field, prev: Slot): Result<Slot, SerDeError>
    requires WellTyped(f)
  {
    match f.ty
    case Nested(c) => Err(UnsupportedCategory(c))
    case Primitive(p) =>
      match p
      case BOOLEAN =>
        if f.data.None? then Ok(prev) else Ok(TextSlot(if f.data.value.flag then "T" else "F"))
      case BYTE => Ok(ByteSlot(if f.data.None? then BYTE_MIN_VALUE else f.data.value.i8))
      case SHORT => Ok(ShortSlot(if f.data.None? then SHORT_MIN_VALUE else f.data.value.i16))
      case INT => Ok(IntSlot(if f.data.None? then INT_MIN_VALUE else f.data.value.i32))
      case LONG => Ok(LongSlot(if f.data.None? then LONG_MIN_VALUE else f.data.value.i64))
      case FLOAT => Ok(FloatSlot(if f.data.None? then FLOAT_NAN_BITS else f.data.value.f32))
      case DOUBLE => Ok(DoubleSlot(if f.data.None? then DOUBLE_NAN_BITS else f.data.value.f64))
      case CHAR => EncodeText(f.data, prev)
      case VARCHAR => EncodeText(f.data, prev)
      case STRING => EncodeText(f.data, prev)
      case DATE =>
        if f.data.None? then Ok(prev) else Ok(TextSlot(FormatDate(f.data.value.date)))
      case TIMESTAMP =>
        if f.data.None? then Ok(prev) else Ok(TextSlot(FormatTimestamp(f.data.value.stamp)))
      case _ => Err(UnsupportedPrimitive(p))
  }

  function EncodeText(data: Option<Value>, prev: Slot): Result<Slot, SerDeError>
    requires data.Some? ==> data.value.TextValue?
  {
    if data.None? then Ok(prev) else Ok(TextSlot(FixedText(data.value.text)))
  }

  /** What the encoder loop does at column i: encode field i, or fail when the row has no field i. */
  function ColumnResult(prev: seq<Slot>, fields: seq<Field>, i: nat): Result<Slot, SerDeError>
    requires i < |prev| && WellTypedRow(fields)
  {
    if i < |fields| then EncodeField(fields[i], prev[i]) else Err(FieldIndexOutOfRange(i))
  }

  /**
   * Columns 0 to n - 1 encoded in order: the first failing column's error, or the
   * new slots of those columns.
   */
  function EncodePrefix(prev: seq<Slot>, fields: seq<Field>, n: nat): (r: Result<seq<Slot>, SerDeError>)
    requires n <= |prev| && WellTypedRow(fields)
    ensures r.Ok? <==> forall j :: 0 <= j < n ==> ColumnResult(prev, fields, j).Ok?
    ensures r.Ok? ==> |r.value| == n && forall j :: 0 <= j < n ==> ColumnResult(prev, fields, j) == Ok(r.value[j])
    ensures r.Err? ==> exists j :: 0 <= j < n && ColumnResult(prev, fields, j) == Err(r.error)
                          && forall k :: 0 <= k < j ==> ColumnResult(prev, fields, k).Ok?
  {
    if n == 0 then Ok([])
    else
      match EncodePrefix(prev, fields, n - 1)
      case Err(e) => Err(e)
      case Ok(done) =>
        match ColumnResult(prev, fields, n - 1)
        case Err(e) => Err(e)
        case Ok(s) => Ok(done + [s])
  }

  /** Once column i fails after columns 0 to i - 1 succeeded, every longer prefix fails with i's error. */
  lemma {:induction false} ErrorStops(prev: seq<Slot>, fields: seq<Field>, i: nat, n: nat)
    requires i < n <= |prev| && WellTypedRow(fields)
    requires EncodePrefix(prev, fields, i).Ok? && ColumnResult(prev, fields, i).Err?
    ensures EncodePrefix(prev, fields, n) == Err(ColumnResult(prev, fields, i).error)
  {
    if n > i + 1 {
      ErrorStops(prev, fields, i, n - 1);
    }
  }

  /** The whole row encoded into a new model row. */
  function EncodeRow(prev: seq<Slot>, fields: seq<Field>): Result<seq<Slot>, SerDeError>
    requires WellTypedRow(fields)
  {
    EncodePrefix(prev, fields, |prev|)
  }

  /** The row's field types agree with the bound schema, column by column. */
  predicate Conforms(fts: seq<FieldType>, fields: seq<Field>) {
    |fields| >= |fts| && forall i :: 0 <= i < |fts| ==> FieldTypeOf(fields[i].ty) == Some(fts[i])
  }

  /** A field of a column's own type never fails and keeps the slot's width. */
  lemma EncodeFieldFits(ft: FieldType, f: Field, prev: Slot)
    requires WellTyped(f) && FieldTypeOf(f.ty) == Some(ft) && Fits(ft, prev)
    ensures EncodeField(f, prev).Ok? && Fits(ft, EncodeField(f, prev).value)
  {
  }

  /** A row that conforms to the schema always encodes, and the model keeps its layout. */
  lemma ConformingRowEncodes(fts: seq<FieldType>, prev: seq<Slot>, fields: seq<Field>)
    requires LaidOut(fts, prev) && WellTypedRow(fields) && Conforms(fts, fields)
    ensures EncodeRow(prev, fields).Ok?
    ensures LaidOut(fts, EncodeRow(prev, fields).value)
  {
    forall j | 0 <= j < |prev|
      ensures ColumnResult(prev, fields, j).Ok? && Fits(fts[j], ColumnResult(prev, fields, j).value)
    {
      EncodeFieldFits(fts[j], fields[j], prev[j]);
    }
  }

  /** Column i of the new model depends on field i and the old slot i only. */
  lemma EncodeRowAt(prev: seq<Slot>, fields: seq<Field>, i: nat)
    requires WellTypedRow(fields) && EncodeRow(prev, fields).Ok? && i < |prev|
    ensures i < |fields| && EncodeField(fields[i], prev[i]).Ok?
    ensures EncodeRow(prev, fields).value[i] == EncodeField(fields[i], prev[i]).value
  {
    assert ColumnResult(prev, fields, i).Ok?;
  }

  /** A row with fewer fields than columns is refused, at the first missing column. */
  lemma ShortRowFails(prev: seq<Slot>, fields: seq<Field>)
    requires WellTypedRow(fields) && |fields| < |prev|
    ensures EncodeRow(prev, fields).Err?
  {
    assert ColumnResult(prev, fields, |fields|).Err?;
  }

  /** A field of a type the serde does not support fails the row. */
  lemma UnsupportedFieldFails(prev: seq<Slot>, fields: seq<Field>, i: nat)
    requires WellTypedRow(fields) && i < |prev| && i < |fields| && FieldTypeOf(fields[i].ty).None?
    ensures EncodeRow(prev, fields).Err?
  {
    assert ColumnResult(prev, fields, i) == Err(UnsupportedError(fields[i].ty));
  }

  /** A non-null boolean is the single character 'T' when true and 'F' when false. */
  lemma BooleanEncoding(b: bool, prev: Slot)
    ensures EncodeField(Field(Primitive(BOOLEAN), Some(BoolValue(b))), prev).Ok?
    ensures SlotBytes(EncodeField(Field(Primitive(BOOLEAN), Some(BoolValue(b))), prev).value)
            == [if b then 84 else 70]
  {
  }

  /** The width in bytes of the integer type p. */
  function IntegerWidth(p: PrimitiveCategory): nat {
    match p
    case BYTE => 1
    case SHORT => 2
    case INT => 4
    case LONG => 8
    case _ => 0
  }

  /** The integer a non-null value of an integer type carries. */
  function IntegerOf(v: Value): int {
    match v
    case ByteValue(x) => x
    case ShortValue(x) => x
    case IntValue(x) => x
    case LongValue(x) => x
    case _ => 0
  }

  /** The value an integer slot holds. */
  function SlotInteger(s: Slot): int {
    match s
    case ByteSlot(x) => x
    case ShortSlot(x) => x
    case IntSlot(x) => x
    case LongSlot(x) => x
    case _ => 0
  }

  /**
   * An integer field is stored unchanged, and a null one as the minimum of its width,
   * written as two's complement, most-significant byte first.
   */
  lemma IntegerEncoding(f: Field, prev: Slot)
    requires WellTyped(f) && f.ty.Primitive? && IntegerWidth(f.ty.primitive) > 0
    ensures EncodeField(f, prev).Ok?
    ensures var w := IntegerWidth(f.ty.primitive);
            var v := if f.data.None? then SignedMin(w) else IntegerOf(f.data.value);
            SlotInteger(EncodeField(f, prev).value) == v
            && InSignedRange(v, w) && SlotBytes(EncodeField(f, prev).value) == PackSigned(v, w)
  {
    Pow256Values();
  }

  /** A null integer is 0x80 followed by zero bytes: 0x80000000 for a null INT. */
  lemma NullIntegerBytes(p: PrimitiveCategory, prev: Slot)
    requires IntegerWidth(p) > 0
    ensures EncodeField(Field(Primitive(p), None), prev).Ok?
    ensures SlotBytes(EncodeField(Field(Primitive(p), None), prev).value)
            == [128] + Zeros(IntegerWidth(p) - 1)
  {
    IntegerEncoding(Field(Primitive(p), None), prev);
    MinimumPattern(IntegerWidth(p));
  }

  /** A null FLOAT is Java's NaN bit pattern 0x7fc00000. */
  lemma NullFloatBytes(prev: Slot)
    ensures SlotBytes(EncodeField(Field(Primitive(FLOAT), None), prev).value) == [0x7f, 0xc0, 0, 0]
  {
    assert EncodeField(Field(Primitive(FLOAT), None), prev).value == FloatSlot(FLOAT_NAN_BITS);
    assert BigEndian(0x7fc0, 2) == BigEndian(0x7f, 1) + [0xc0];
    assert Pow256(2) == 0x1_0000;
    ZeroByte(0x7fc0, 2);
    ZeroByte(0x7f_c000, 3);
  }

  /** A null DOUBLE is Java's NaN bit pattern 0x7ff8000000000000. */
  lemma NullDoubleBytes(prev: Slot)
    ensures SlotBytes(EncodeField(Field(Primitive(DOUBLE), None), prev).value) == [0x7f, 0xf8, 0, 0, 0, 0, 0, 0]
  {
    assert EncodeField(Field(Primitive(DOUBLE), None), prev).value == DoubleSlot(DOUBLE_NAN_BITS);
    assert BigEndian(0x7ff8, 2) == BigEndian(0x7f, 1) + [0xf8];
    assert Pow256(2) == 0x1_0000;
    ZeroByte(0x7ff8, 2);
    ZeroByte(0x7f_f800, 3);
    ZeroByte(0x7ff8_0000, 4);
    ZeroByte(0x7f_f800_0000, 5);
    ZeroByte(0x7ff8_0000_0000, 6);
    ZeroByte(0x7f_f800_0000_0000, 7);
  }

  /**
   * A non-null string takes exactly 255 bytes whatever its length: its first 255
   * characters, then NUL bytes.
   */
  lemma StringEncoding(p: PrimitiveCategory, s: string, prev: Slot)
    requires p == CHAR || p == VARCHAR || p == STRING
    ensures EncodeField(Field(Primitive(p), Some(TextValue(s))), prev).Ok?
    ensures var bs := SlotBytes(EncodeField(Field(Primitive(p), Some(TextValue(s))), prev).value);
            |bs| == STRING_FIELD_LENGTH
            && forall k :: 0 <= k < STRING_FIELD_LENGTH ==> bs[k] == if k < |s| then CharByte(s[k]) else 0
  {
  }

  /** A non-null DATE or TIMESTAMP is its ISO-8601 text, 10 or 23 bytes. */
  lemma DateEncoding(d: Date, t: Timestamp, prev: Slot)
    ensures EncodeField(Field(Primitive(DATE), Some(DateValue(d))), prev) == Ok(TextSlot(FormatDate(d)))
    ensures |SlotBytes(EncodeField(Field(Primitive(DATE), Some(DateValue(d))), prev).value)| == DATE_WIDTH
    ensures EncodeField(Field(Primitive(TIMESTAMP), Some(TimestampValue(t))), prev) == Ok(TextSlot(FormatTimestamp(t)))
    ensures |SlotBytes(EncodeField(Field(Primitive(TIMESTAMP), Some(TimestampValue(t))), prev).value)| == TIMESTAMP_WIDTH
  {
  }

  /** The categories whose null leaves the slot as the previous row left it. */
  predicate KeepsStaleOnNull(p: PrimitiveCategory) {
    p == BOOLEAN || p == CHAR || p == VARCHAR || p == STRING || p == DATE || p == TIMESTAMP
  }

  /** A null BOOLEAN, string, DATE or TIMESTAMP field leaves the slot exactly as it was. */
  lemma NullKeepsSlot(p: PrimitiveCategory, prev: Slot)
    requires KeepsStaleOnNull(p)
    ensures EncodeField(Field(Primitive(p), None), prev) == Ok(prev)
  {
  }

  /** For every other supported category null is written explicitly, replacing the previous value. */
  lemma NullOverwritesSlot(p: PrimitiveCategory, prev: Slot)
    requires FieldTypeOf(Primitive(p)).Some? && !KeepsStaleOnNull(p)
    ensures EncodeField(Field(Primitive(p), None), prev).Ok?
    ensures EncodeField(Field(Primitive(p), None), prev).value == EncodeField(Field(Primitive(p), None), LogicalSlot(false)).value
  {
  }

  /**
   * The class comment promises that a null BOOLEAN is written as a NUL byte. After a
   * row holding true, a null BOOLEAN still writes 'T'.
   */
  lemma NullBooleanIsNotNul()
    ensures var prev := EncodeField(Field(Primitive(BOOLEAN), Some(BoolValue(true))), LogicalSlot(false)).value;
            SlotBytes(EncodeField(Field(Primitive(BOOLEAN), None), prev).value) == [84] != [0]
  {
  }

  /**
   * Likewise a null string is promised as 255 NUL bytes, but after a row holding "ab"
   * it is written as "ab" and 253 NULs again.
   */
  lemma NullStringIsNotAllNul(prev: Slot)
    ensures var last := EncodeField(Field(Primitive(STRING), Some(TextValue("ab"))), prev).value;
            var bs := SlotBytes(EncodeField(Field(Primitive(STRING), None), last).value);
            bs == [97, 98] + Zeros(STRING_FIELD_LENGTH - 2) && bs != Zeros(STRING_FIELD_LENGTH)
  {
    StringEncoding(STRING, "ab", prev);
    var last := EncodeField(Field(Primitive(STRING), Some(TextValue("ab"))), prev).value;
    var bs := SlotBytes(EncodeField(Field(Primitive(STRING), None), last).value);
    assert bs == SlotBytes(last);
    assert bs[0] == 97;
  }

  /**
   * A null written over the empty model slot writes that slot's bytes: NULs for a
   * string, DATE or TIMESTAMP, and 'F' for a BOOLEAN. Since each null keeps the slot,
   * a text column is written as NULs until its first non-null value after binding.
   */
  lemma FirstNullIsEmpty(p: PrimitiveCategory)
    requires KeepsStaleOnNull(p)
    ensures FieldTypeOf(Primitive(p)).Some?
    ensures var ft := FieldTypeOf(Primitive(p)).value;
            SlotBytes(EncodeField(Field(Primitive(p), None), EmptySlot(ft)).value)
            == if p == BOOLEAN then ['F' as int] else Zeros(Width(ft))
  {
  }
}
