/**
 * Reading a field back out of a record: the inverse of the per-column rules, with
 * the FITS null conventions (minimum integer, NaN, text up to the first NUL). The
 * serde itself has no such reader; it states what the written bytes mean.
 */
module FieldReader {
  import opened Wrappers
  import opened FitsPacking
  import opened IsoFormat
  import opened HiveTypes
  import opened RecordLayout
  import opened RowEncoder

  /** The bytes as characters, one character per byte. */
  function AsText(bs: seq<Byte>): (s: string)
    ensures |s| == |bs|
  {
    seq(|bs|, k requires 0 <= k < |bs| => bs[k] as char)
  }

  /** The characters before the first NUL byte (all of them if there is none). */
  function TextBefore(bs: seq<Byte>): (s: string)
    ensures |s| <= |bs|
  {
    if bs == [] || bs[0] == 0 then [] else [bs[0] as char] + TextBefore(bs[1..])
  }

  /** The value a field of type ft holds in its bytes bs; None for null or unreadable bytes. */
  function ReadField(ft: FieldType, bs: seq<Byte>): Option<Value> {
    Pow256Values();
    match ft
    case LogicalField =>
      if bs == [84] then Some(BoolValue(true)) else if bs == [70] then Some(BoolValue(false)) else None
    case ByteField =>
      if |bs| != 1 then None
      else var v := UnpackSigned(bs); if v == BYTE_MIN_VALUE then None else Some(ByteValue(v))
    case ShortField =>
      if |bs| != 2 then None
      else var v := UnpackSigned(bs); if v == SHORT_MIN_VALUE then None else Some(ShortValue(v))
    case IntField =>
      if |bs| != 4 then None
      else var v := UnpackSigned(bs); if v == INT_MIN_VALUE then None else Some(IntValue(v))
    case LongField =>
      if |bs| != 8 then None
      else var v := UnpackSigned(bs); if v == LONG_MIN_VALUE then None else Some(LongValue(v))
    case FloatField =>
      if |bs| != 4 then None
      else var b := UnsignedOf(bs); if IsNaN32(b) then None else Some(FloatValue(b))
    case DoubleField =>
      if |bs| != 8 then None
      else var b := UnsignedOf(bs); if IsNaN64(b) then None else Some(DoubleValue(b))
    case StringField => Some(TextValue(TextBefore(bs)))
    case DateField =>
      (match ParseDate(AsText(bs))
       case Some(d) => Some(DateValue(d))
       case None => None)
    case TimestampField =>
      match ParseTimestamp(AsText(bs))
      case Some(t) => Some(TimestampValue(t))
      case None => None
  }

  /**
   * The values the reader can tell from null and read back whole: integers other than
   * the minimum, floating-point numbers other than NaN, text without NUL whose
   * characters fit in a byte.
   */
  predicate Representable(v: Value) {
    match v
    case ByteValue(x) => x != BYTE_MIN_VALUE
    case ShortValue(x) => x != SHORT_MIN_VALUE
    case IntValue(x) => x != INT_MIN_VALUE
    case LongValue(x) => x != LONG_MIN_VALUE
    case FloatValue(b) => !IsNaN32(b)
    case DoubleValue(b) => !IsNaN64(b)
    case TextValue(s) => forall k :: 0 <= k < |s| ==> 0 < s[k] as int < 256
    case _ => true
  }

  /** What a value reads back as: itself, except that text is cut to 255 characters. */
  function Clipped(v: Value): Value {
    match v
    case TextValue(s) => TextValue(if |s| <= STRING_FIELD_LENGTH then s else s[..STRING_FIELD_LENGTH])
    case _ => v
  }

  lemma {:induction false} TextBeforePrefix(bs: seq<Byte>, t: string)
    requires |t| <= |bs|
    requires forall k :: 0 <= k < |t| ==> bs[k] != 0 && bs[k] == t[k] as int
    requires |t| == |bs| || bs[|t|] == 0
    ensures TextBefore(bs) == t
  {
    if t != [] {
      TextBeforePrefix(bs[1..], t[1..]);
    }
  }

  lemma AsciiText(s: string)
    requires Ascii(s)
    ensures AsText(SlotBytes(TextSlot(s))) == s
  {
  }

  lemma TextRoundTrip(s: string)
    requires Representable(TextValue(s))
    ensures TextBefore(SlotBytes(TextSlot(FixedText(s)))) == Clipped(TextValue(s)).text
  {
    var bs := SlotBytes(TextSlot(FixedText(s)));
    var t := Clipped(TextValue(s)).text;
    TextBeforePrefix(bs, t);
  }

  lemma IntegerRoundTrip(ft: FieldType, f: Field, prev: Slot)
    requires WellTyped(f) && FieldTypeOf(f.ty) == Some(ft) && ft in {ByteField, ShortField, IntField, LongField}
    requires f.data.Some? && Representable(f.data.value)
    ensures EncodeField(f, prev).Ok?
    ensures ReadField(ft, SlotBytes(EncodeField(f, prev).value)) == Some(f.data.value)
  {
    Pow256Values();
    IntegerEncoding(f, prev);
    var w := IntegerWidth(f.ty.primitive);
    SignedRoundTrip(IntegerOf(f.data.value), w);
  }

  lemma FloatingRoundTrip(ft: FieldType, f: Field, prev: Slot)
    requires WellTyped(f) && FieldTypeOf(f.ty) == Some(ft) && ft in {FloatField, DoubleField}
    requires f.data.Some? && Representable(f.data.value)
    ensures EncodeField(f, prev).Ok?
    ensures ReadField(ft, SlotBytes(EncodeField(f, prev).value)) == Some(f.data.value)
  {
    Pow256Values();
    if ft == FloatField {
      UnsignedRoundTrip(f.data.value.f32, 4);
    } else {
      UnsignedRoundTrip(f.data.value.f64, 8);
    }
  }

  lemma TextualRoundTrip(ft: FieldType, f: Field, prev: Slot)
    requires WellTyped(f) && FieldTypeOf(f.ty) == Some(ft) && ft in {StringField, DateField, TimestampField}
    requires f.data.Some? && Representable(f.data.value)
    ensures EncodeField(f, prev).Ok?
    ensures ReadField(ft, SlotBytes(EncodeField(f, prev).value)) == Some(Clipped(f.data.value))
  {
    if ft == StringField {
      StringFieldRoundTrip(f, prev);
    } else if ft == DateField {
      DateFieldRoundTrip(f, prev);
    } else {
      TimestampFieldRoundTrip(f, prev);
    }
  }

  /** A present string comes back clipped to its column. */
  lemma StringFieldRoundTrip(f: Field, prev: Slot)
    requires WellTyped(f) && FieldTypeOf(f.ty) == Some(StringField)
    requires f.data.Some? && Representable(f.data.value)
    ensures EncodeField(f, prev).Ok?
    ensures ReadField(StringField, SlotBytes(EncodeField(f, prev).value)) == Some(Clipped(f.data.value))
  {
    TextRoundTrip(f.data.value.text);
  }

  /** A present date comes back as itself. */
  lemma DateFieldRoundTrip(f: Field, prev: Slot)
    requires WellTyped(f) && FieldTypeOf(f.ty) == Some(DateField)
    requires f.data.Some? && Representable(f.data.value)
    ensures EncodeField(f, prev).Ok?
    ensures ReadField(DateField, SlotBytes(EncodeField(f, prev).value)) == Some(Clipped(f.data.value))
  {
    AsciiText(FormatDate(f.data.value.date));
    DateRoundTrip(f.data.value.date);
  }

  /** The text of a timestamp, as the slot holds it, reads back as that timestamp. */
  lemma TimestampTextReads(t: Timestamp)
    ensures ReadField(TimestampField, SlotBytes(TextSlot(FormatTimestamp(t)))) == Some(TimestampValue(t))
  {
    var s := FormatTimestamp(t);
    var bs := SlotBytes(TextSlot(s));
    AsciiText(s);
    TimestampRoundTrip(t);
    assert ParseTimestamp(AsText(bs)) == Some(t);
    ReadsTimestamp(bs);
  }

  /** How the reader takes a TIMESTAMP column's bytes. */
  lemma ReadsTimestamp(bs: seq<Byte>)
    ensures ReadField(TimestampField, bs)
            == if ParseTimestamp(AsText(bs)).Some? then Some(TimestampValue(ParseTimestamp(AsText(bs)).value)) else None
  {
  }

  /** A present timestamp comes back as itself. */
  lemma TimestampFieldRoundTrip(f: Field, prev: Slot)
    requires WellTyped(f) && FieldTypeOf(f.ty) == Some(TimestampField)
    requires f.data.Some? && Representable(f.data.value)
    ensures EncodeField(f, prev).Ok?
    ensures ReadField(TimestampField, SlotBytes(EncodeField(f, prev).value)) == Some(Clipped(f.data.value))
  {
    var t := f.data.value.stamp;
    assert f.ty == Primitive(TIMESTAMP) && f.data.value == TimestampValue(t);
    DateEncoding(t.date, t, prev);
    TimestampTextReads(t);
  }

  /** Every representable non-null value of a column's type reads back from the bytes written for it. */
  lemma FieldRoundTrip(ft: FieldType, f: Field, prev: Slot)
    requires WellTyped(f) && FieldTypeOf(f.ty) == Some(ft)
    requires f.data.Some? && Representable(f.data.value)
    ensures EncodeField(f, prev).Ok?
    ensures ReadField(ft, SlotBytes(EncodeField(f, prev).value)) == Some(Clipped(f.data.value))
  {
    if ft == LogicalField {
      assert SlotBytes(EncodeField(f, prev).value) == [if f.data.value.flag then 84 else 70];
    } else if ft in {ByteField, ShortField, IntField, LongField} {
      IntegerRoundTrip(ft, f, prev);
    } else if ft in {FloatField, DoubleField} {
      FloatingRoundTrip(ft, f, prev);
    } else {
      TextualRoundTrip(ft, f, prev);
    }
  }

  /**
   * A non-null NaN is written exactly as a null FLOAT or DOUBLE is, so the reader can
   * only take it for null.
   */
  lemma NaNReadsAsNull(f: Field, prev: Slot)
    requires WellTyped(f) && f.data.Some?
    requires f.ty == Primitive(FLOAT) || f.ty == Primitive(DOUBLE)
    requires f.ty == Primitive(FLOAT) ==> IsNaN32(f.data.value.f32)
    requires f.ty == Primitive(DOUBLE) ==> IsNaN64(f.data.value.f64)
    ensures EncodeField(f, prev) == EncodeField(Field(f.ty, None), prev)
    ensures ReadField(FieldTypeOf(f.ty).value, SlotBytes(EncodeField(f, prev).value)) == None
  {
    var ft := FieldTypeOf(f.ty).value;
    NullRoundTrip(ft, Field(f.ty, None), prev);
  }

  /** A null integer or floating-point field reads back as null. */
  lemma NullRoundTrip(ft: FieldType, f: Field, prev: Slot)
    requires WellTyped(f) && FieldTypeOf(f.ty) == Some(ft) && f.data.None?
    requires ft in {ByteField, ShortField, IntField, LongField, FloatField, DoubleField}
    ensures EncodeField(f, prev).Ok?
    ensures ReadField(ft, SlotBytes(EncodeField(f, prev).value)) == None
  {
    if ft == FloatField {
      assert EncodeField(f, prev) == Ok(FloatSlot(FLOAT_NAN_BITS));
      NaNPatternsReadAsNull();
    } else if ft == DoubleField {
      assert EncodeField(f, prev) == Ok(DoubleSlot(DOUBLE_NAN_BITS));
      NaNPatternsReadAsNull();
    } else {
      Pow256Values();
      IntegerEncoding(f, prev);
      var w := IntegerWidth(f.ty.primitive);
      SignedRoundTrip(SignedMin(w), w);
    }
  }

  /** The canonical NaN patterns, as a float or double slot writes them, read back as null. */
  lemma NaNPatternsReadAsNull()
    ensures ReadField(FloatField, SlotBytes(FloatSlot(FLOAT_NAN_BITS))) == None
    ensures ReadField(DoubleField, SlotBytes(DoubleSlot(DOUBLE_NAN_BITS))) == None
  {
    Pow256Values();
    assert IsNaN32(FLOAT_NAN_BITS) && IsNaN64(DOUBLE_NAN_BITS);
    UnsignedRoundTrip(FLOAT_NAN_BITS, 4);
    UnsignedRoundTrip(DOUBLE_NAN_BITS, 8);
  }

  /** The bytes of column i of the record made from a conforming row. */
  function ColumnBytes(fts: seq<FieldType>, record: seq<Byte>, i: nat): seq<Byte>
    requires i < |fts| && Offset(fts, i) + Width(fts[i]) <= |record|
  {
    record[Offset(fts, i)..Offset(fts, i) + Width(fts[i])]
  }

  /**
   * For a row that conforms to the schema the record has the schema's width, and
   * column i of it reads back as field i.
   */
  lemma RecordRoundTrip(fts: seq<FieldType>, prev: seq<Slot>, fields: seq<Field>, i: nat)
    requires LaidOut(fts, prev) && WellTypedRow(fields) && Conforms(fts, fields) && i < |fts|
    requires fields[i].data.Some? && Representable(fields[i].data.value)
    ensures EncodeRow(prev, fields).Ok?
    ensures var record := Flatten(EncodeRow(prev, fields).value);
            |record| == RecordWidth(fts)
            && Offset(fts, i) + Width(fts[i]) <= |record|
            && ReadField(fts[i], ColumnBytes(fts, record, i)) == Some(Clipped(fields[i].data.value))
  {
    ConformingRowEncodes(fts, prev, fields);
    var m := EncodeRow(prev, fields).value;
    FlattenLength(fts, m);
    FlattenField(fts, m, i);
    EncodeRowAt(prev, fields, i);
    FieldRoundTrip(fts[i], fields[i], prev[i]);
  }

  /**
   * Integer columns decode back to what was encoded: the value, or the minimum of
   * the width for null.
   */
  lemma IntegerColumnDecodes(fts: seq<FieldType>, prev: seq<Slot>, fields: seq<Field>, i: nat)
    requires LaidOut(fts, prev) && WellTypedRow(fields) && Conforms(fts, fields) && i < |fts|
    requires fts[i] in {ByteField, ShortField, IntField, LongField}
    ensures EncodeRow(prev, fields).Ok?
    ensures var record := Flatten(EncodeRow(prev, fields).value);
            var w := Width(fts[i]);
            Offset(fts, i) + w <= |record|
            && UnpackSigned(ColumnBytes(fts, record, i))
               == if fields[i].data.None? then SignedMin(w) else IntegerOf(fields[i].data.value)
  {
    ConformingRowEncodes(fts, prev, fields);
    var m := EncodeRow(prev, fields).value;
    FlattenField(fts, m, i);
    EncodeRowAt(prev, fields, i);
    IntegerEncoding(fields[i], prev[i]);
    var w := Width(fts[i]);
    assert w == IntegerWidth(fields[i].ty.primitive);
    var v := if fields[i].data.None? then SignedMin(w) else IntegerOf(fields[i].data.value);
    SignedRoundTrip(v, w);
  }

  /** Scenario: columns (BOOLEAN, INT), row (true, null): 'T' then the four bytes of INT_MIN. */
  lemma ExampleBooleanInt(prev: seq<Slot>)
    requires LaidOut([LogicalField, IntField], prev)
    ensures var fields := [Field(Primitive(BOOLEAN), Some(BoolValue(true))), Field(Primitive(INT), None)];
            EncodeRow(prev, fields).Ok? && Flatten(EncodeRow(prev, fields).value) == [84, 0x80, 0, 0, 0]
  {
    var fields := [Field(Primitive(BOOLEAN), Some(BoolValue(true))), Field(Primitive(INT), None)];
    ConformingRowEncodes([LogicalField, IntField], prev, fields);
    var m := EncodeRow(prev, fields).value;
    EncodeRowAt(prev, fields, 0);
    EncodeRowAt(prev, fields, 1);
    NullIntegerBytes(INT, prev[1]);
    assert m == [TextSlot("T"), IntSlot(INT_MIN_VALUE)];
    assert SlotBytes(m[0]) == [84];
    assert Flatten(m[..1]) == Flatten(m[..1][..0]) + SlotBytes(m[0]);
    assert m[..1][..0] == [];
    assert Flatten(m) == Flatten(m[..1]) + SlotBytes(m[1]);
  }

  /** Scenario: a STRING column holding "ab" is 'a', 'b' and 253 NUL bytes. */
  lemma ExampleString(prev: seq<Slot>)
    requires LaidOut([StringField], prev)
    ensures var fields := [Field(Primitive(STRING), Some(TextValue("ab")))];
            EncodeRow(prev, fields).Ok? && Flatten(EncodeRow(prev, fields).value) == [97, 98] + Zeros(253)
  {
    var fields := [Field(Primitive(STRING), Some(TextValue("ab")))];
    ConformingRowEncodes([StringField], prev, fields);
    var m := EncodeRow(prev, fields).value;
    EncodeRowAt(prev, fields, 0);
    StringEncoding(STRING, "ab", prev[0]);
    FlattenOne(m);
  }

  lemma ExampleDateBytes()
    ensures SlotBytes(TextSlot("2024-01-05")) == [50, 48, 50, 52, 45, 48, 49, 45, 48, 53]
  {
  }

  /** Scenario: a DATE column holding 5 January 2024 is the ten ASCII bytes of "2024-01-05". */
  lemma ExampleDateColumn(prev: seq<Slot>)
    requires LaidOut([DateField], prev)
    ensures var fields := [Field(Primitive(DATE), Some(DateValue(Date(2024, 1, 5))))];
            EncodeRow(prev, fields).Ok?
            && Flatten(EncodeRow(prev, fields).value) == [50, 48, 50, 52, 45, 48, 49, 45, 48, 53]
  {
    var fields := [Field(Primitive(DATE), Some(DateValue(Date(2024, 1, 5))))];
    ConformingRowEncodes([DateField], prev, fields);
    var m := EncodeRow(prev, fields).value;
    EncodeRowAt(prev, fields, 0);
    ExampleDate();
    assert m[0] == TextSlot("2024-01-05");
    FlattenOne(m);
    ExampleDateBytes();
  }
}
