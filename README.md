# RecArraySerDe — a verified model of the FITS record encoder

`RecArraySerDe` is a Hive serializer/deserializer that writes each row of a table as
one fixed-width record of a FITS binary table. This project models its core in Dafny.

- **Binding a schema** (`initialize`). Each column type is mapped to a FITS field type:
  logical, 8/16/32/64-bit integer, 32/64-bit float, or a 255-, 10- or 23-character text.
  The method rejects any other type and builds a one-element sample slot per column.
  The model row is then the empty row of the sample's shape.
- **Encoding a row** (`serialize`). The output buffer is reset. Each column then
  overwrites its slot of the model row in place, following its type's value and null
  rules. Finally the model row is written out big-endian, with no padding between
  fields.
- **Deserializing** (`deserialize`). This returns the cached sample row whatever it is given.

The modules follow that structure:

- `FitsPacking`: big-endian unsigned and two's-complement packing. The 16-, 32- and
  64-bit integers are those of sections 5.2.2 to 5.2.4 of the FITS Standard 4.0. A
  TINYINT is written as Java's two's-complement byte, which FITS reads as an unsigned
  8-bit integer (section 5.2.1) unless a TZERO keyword shifts it.
- `IsoFormat`: the `yyyy-MM-dd` and `yyyy-MM-dd'T'HH:mm:ss.SSS` formats, together
  with a parser that inverts them.
- `HiveTypes`: Hive's type categories and the typed field values of a row.
- `RecordLayout`: the binding from column type to field type, and the slots and
  their widths (section 7.3 of the FITS Standard 4.0). It also defines how the model
  row flattens into a record, and the sample slots.
- `RowEncoder`: the per-column rules as functions, plus their row-level result.
- `FieldReader`: a reader for the written bytes. It gives the encoder a partner, so
  the round trips can be stated.
- `SerDe`: the class `RecArraySerDe`, with the fields `columnNames`, `columnTypes`,
  `row`, `model` (an `array` updated in place) and `output`. Its methods are
  `Initialize`, `Serialize` (with its loop `EncodeModel` and one pass `EncodeColumn`),
  `WriteArray` and `Deserialize`.

Nulls follow the code, not the class comment. The comment says that a null BOOLEAN is
written as NUL and that a null string, date or timestamp is written as all NULs. The
code writes nothing for these: it leaves the model slot as the previous row left it,
so the previous row's value is written again. `RowEncoder.NullKeepsSlot` states this
behaviour. `RowEncoder.NullBooleanIsNotNul` and `RowEncoder.NullStringIsNotAllNul`
give concrete rows on which the comment's promise does not hold. For a string, DATE or
TIMESTAMP column the promise holds until the column's first non-null value after binding:
the model row starts empty, and each null leaves the slot of NULs in place
(`RowEncoder.FirstNullIsEmpty`, `RowEncoder.NullKeepsSlot`). For a BOOLEAN column it never
holds in this model, because the empty logical slot is false and is written as 'F'.

## Model

| member | source | states |
|---|---|---|
| SerDe.RecArraySerDe.Initialize | src/main/java/es/pic/astro/hadoop/serde/RecArraySerDe.java:172-249 | binding succeeds exactly when every column type is supported. On success, the sample row is each column's sample, it is laid out as the schema says, and the model row is a fresh array holding the schema's empty row: false, zero or NUL text of each column's width. On failure, the first unsupported column's error is returned, the earlier samples were filled in, and no model row was built. |
| SerDe.RecArraySerDe.BuildSample | src/main/java/es/pic/astro/hadoop/serde/RecArraySerDe.java:202-237 | a supported column gets its type's sample slot. A nested category or an unsupported primitive gets the matching error. |
| RecordLayout.Sample | src/main/java/es/pic/astro/hadoop/serde/RecArraySerDe.java:206-225 | every sample slot has its field type's shape and width: one boolean, one integer or float, 255 characters, 10 characters or 23 characters. |
| RecordLayout.Samples | src/main/java/es/pic/astro/hadoop/serde/RecArraySerDe.java:199-239 | the sample row is laid out column by column as the schema says. |
| RecordLayout.EmptySlot | src/main/java/es/pic/astro/hadoop/serde/RecArraySerDe.java:241-248 | a column's empty model slot has the column's shape and width. It writes 'F' for a logical field and all zero bytes for every other type, including NUL text. |
| RecordLayout.EmptyRow | src/main/java/es/pic/astro/hadoop/serde/RecArraySerDe.java:241-248 | the empty model row is laid out as the schema says, and column i holds that column's empty slot. |
| RecordLayout.EmptyRecord | src/main/java/es/pic/astro/hadoop/serde/RecArraySerDe.java:241-248 | the record of the empty row is 'F' where a logical column sits and zero bytes everywhere else, column by column at its offset. |
| SerDe.RecArraySerDe.Deserialize | src/main/java/es/pic/astro/hadoop/serde/RecArraySerDe.java:261-264 | the result is the cached sample row, whatever the input bytes. |
| SerDe.RecArraySerDe.Serialize | src/main/java/es/pic/astro/hadoop/serde/RecArraySerDe.java:267-386 | succeeds exactly when the row-level encoding succeeds. On success the model row is the encoded row, and the result and the output buffer are exactly its flattening, because the buffer was reset first. On failure the buffer is empty, and the columns before the failing one are updated while the rest are untouched. When the model is laid out and the row conforms to the schema, the call succeeds, the layout is kept, and the record is as long as the sum of the column widths. |
| SerDe.RecArraySerDe.EncodeModel | src/main/java/es/pic/astro/hadoop/serde/RecArraySerDe.java:278-374 | the loop visits the columns in schema order and overwrites only model[i] at step i. It stops at the first failing column, either a missing field or an unsupported type, leaving every later slot untouched. |
| SerDe.RecArraySerDe.EncodeColumn | src/main/java/es/pic/astro/hadoop/serde/RecArraySerDe.java:283-373 | one pass replaces slot i alone, with the field's encoding. On an unsupported type it changes nothing and reports that type. |
| SerDe.RecArraySerDe.WriteArray | src/main/java/es/pic/astro/hadoop/serde/RecArraySerDe.java:376-383 | the buffer grows by the model row's bytes, slot after slot, with nothing in between. |
| RowEncoder.EncodePrefix | src/main/java/es/pic/astro/hadoop/serde/RecArraySerDe.java:278-374 | encoding the first n columns succeeds exactly when each of them succeeds, and the slots are then those columns' encodings. On failure the error is that of the first failing column. |
| RowEncoder.ErrorStops | src/main/java/es/pic/astro/hadoop/serde/RecArraySerDe.java:364-372 | once a column fails, every longer prefix fails with that column's error, because the exception ends the loop. |
| RowEncoder.RightPad | src/main/java/es/pic/astro/hadoop/serde/RecArraySerDe.java:346 | the result has length max(\|s\|, n), starts with s, and is padding after s. |
| RowEncoder.FixedText | src/main/java/es/pic/astro/hadoop/serde/RecArraySerDe.java:344-346 | a string slot is exactly 255 characters. Position k holds s[k] when k < \|s\| and NUL otherwise. |
| RowEncoder.StringEncoding | src/main/java/es/pic/astro/hadoop/serde/RecArraySerDe.java:338-348 | a non-null CHAR, VARCHAR or STRING is written as exactly 255 bytes: truncated when long, NUL-padded when short. |
| RowEncoder.BooleanEncoding | src/main/java/es/pic/astro/hadoop/serde/RecArraySerDe.java:287-295 | a non-null boolean is written as the single byte 'T' when true and 'F' when false. |
| RowEncoder.IntegerEncoding | src/main/java/es/pic/astro/hadoop/serde/RecArraySerDe.java:296-323 | a BYTE, SHORT, INT or LONG is stored unchanged, and a null one as the minimum of its width. Either way the bytes are its two's complement, big-endian. |
| RowEncoder.NullIntegerBytes | src/main/java/es/pic/astro/hadoop/serde/RecArraySerDe.java:296-323 | a null integer is written as 0x80 followed by zero bytes. |
| RowEncoder.NullFloatBytes | src/main/java/es/pic/astro/hadoop/serde/RecArraySerDe.java:324-330 | a null FLOAT is written as Java's NaN pattern 7f c0 00 00. |
| RowEncoder.NullDoubleBytes | src/main/java/es/pic/astro/hadoop/serde/RecArraySerDe.java:331-337 | a null DOUBLE is written as Java's NaN pattern 7f f8 00 00 00 00 00 00. |
| RowEncoder.DateEncoding | src/main/java/es/pic/astro/hadoop/serde/RecArraySerDe.java:349-360 | a non-null DATE is its yyyy-MM-dd text (10 bytes). A non-null TIMESTAMP is its yyyy-MM-dd'T'HH:mm:ss.SSS text (23 bytes). |
| RowEncoder.NullKeepsSlot | src/main/java/es/pic/astro/hadoop/serde/RecArraySerDe.java:287-360 | a null BOOLEAN, CHAR, VARCHAR, STRING, DATE or TIMESTAMP leaves the model slot exactly as it was. |
| RowEncoder.NullOverwritesSlot | src/main/java/es/pic/astro/hadoop/serde/RecArraySerDe.java:296-337 | a null integer, float or double is written as a fixed value that does not depend on the previous slot. |
| RowEncoder.NullBooleanIsNotNul | src/main/java/es/pic/astro/hadoop/serde/RecArraySerDe.java:133-134 | after a row holding true, a null BOOLEAN is written as 'T', not as the NUL the class comment promises. |
| RowEncoder.NullStringIsNotAllNul | src/main/java/es/pic/astro/hadoop/serde/RecArraySerDe.java:133-137 | after a row holding "ab", a null STRING is written as the bytes of "ab" followed by 253 NULs, so not as the 255 NULs the class comment promises. |
| RowEncoder.FirstNullIsEmpty | src/main/java/es/pic/astro/hadoop/serde/RecArraySerDe.java:287-360 | on the first row after binding, a null BOOLEAN is 'F', and a null string, DATE or TIMESTAMP is all NUL bytes: the empty model slot, left as it was. |
| RowEncoder.EncodeFieldFits | src/main/java/es/pic/astro/hadoop/serde/RecArraySerDe.java:283-373 | a field of its column's own type always encodes, and it keeps the slot's shape and width. |
| RowEncoder.ConformingRowEncodes | src/main/java/es/pic/astro/hadoop/serde/RecArraySerDe.java:278-374 | a row that conforms to the schema always encodes, and the model row keeps its layout. |
| RowEncoder.EncodeRowAt | src/main/java/es/pic/astro/hadoop/serde/RecArraySerDe.java:278-374 | in a successful encoding, slot i of the new model depends only on field i and the old slot i. |
| RowEncoder.ShortRowFails | src/main/java/es/pic/astro/hadoop/serde/RecArraySerDe.java:279 | a row with fewer fields than columns is refused. |
| RowEncoder.UnsupportedFieldFails | src/main/java/es/pic/astro/hadoop/serde/RecArraySerDe.java:361-372 | a field of a nested category, or of an unsupported primitive category, fails the row. |
| RecordLayout.FitsWidth | src/main/java/es/pic/astro/hadoop/serde/RecArraySerDe.java:121-131 | a slot laid out for a field type writes exactly that type's width: 1, 1, 2, 4, 8, 4, 8, 255, 10 or 23 bytes. |
| RecordLayout.FlattenLength | src/main/java/es/pic/astro/hadoop/serde/RecArraySerDe.java:376-383 | a record is exactly as long as the sum of its columns' widths. |
| RecordLayout.FlattenField | src/main/java/es/pic/astro/hadoop/serde/RecArraySerDe.java:376-383 | column i occupies the bytes from its offset (the sum of the earlier widths) for its own width, and those bytes are its slot's bytes. |
| RecordLayout.FlattenPrefix | src/main/java/es/pic/astro/hadoop/serde/RecArraySerDe.java:376-383 | the record of the first j slots is a prefix of the whole record. |
| RecordLayout.FlattenSnoc | src/main/java/es/pic/astro/hadoop/serde/RecArraySerDe.java:376-383 | writing one more slot appends exactly that slot's bytes. |
| RecordLayout.SameWidth | src/main/java/es/pic/astro/hadoop/serde/RecArraySerDe.java:376-383 | all records of one schema have the same length, whatever their values. |
| FitsPacking.UnsignedRoundTrip | src/main/java/es/pic/astro/hadoop/serde/RecArraySerDe.java:377 | big-endian bytes of an unsigned value decode back to that value. |
| FitsPacking.BigEndianOfUnsigned | src/main/java/es/pic/astro/hadoop/serde/RecArraySerDe.java:377 | every byte string is the big-endian encoding of the value it decodes to. |
| FitsPacking.SignedRoundTrip | src/main/java/es/pic/astro/hadoop/serde/RecArraySerDe.java:377 | the two's-complement big-endian bytes of an integer in range decode back to that integer. |
| FitsPacking.SignByte | src/main/java/es/pic/astro/hadoop/serde/RecArraySerDe.java:377 | the first byte has its top bit set exactly when the integer is negative. |
| FitsPacking.MinimumPattern | src/main/java/es/pic/astro/hadoop/serde/RecArraySerDe.java:300-321 | the minimum of a width is written as 0x80 followed by zero bytes. |
| FitsPacking.ZeroPattern | src/main/java/es/pic/astro/hadoop/serde/RecArraySerDe.java:377 | zero is written as zero bytes at every width, unsigned and two's complement. |
| IsoFormat.DatePatternRenders | src/main/java/es/pic/astro/hadoop/serde/RecArraySerDe.java:150 | SimpleDateFormat's rendering of DATE_FORMAT, token by token, is the date's yyyy-MM-dd text. |
| IsoFormat.TimestampPatternRenders | src/main/java/es/pic/astro/hadoop/serde/RecArraySerDe.java:151 | SimpleDateFormat's rendering of TIMESTAMP_FORMAT, token by token, is the timestamp's yyyy-MM-dd'T'HH:mm:ss.SSS text. |
| IsoFormat.DatePatternThen | src/main/java/es/pic/astro/hadoop/serde/RecArraySerDe.java:150 | a pattern that starts with yyyy-MM-dd renders as the date's text followed by whatever the rest of the pattern renders. |
| IsoFormat.TimePatternRenders | src/main/java/es/pic/astro/hadoop/serde/RecArraySerDe.java:151 | the quoted 'T' and HH:mm:ss.SSS render as 'T' and the time of day, each number zero-padded to its run's length. |
| IsoFormat.Padded | src/main/java/es/pic/astro/hadoop/serde/RecArraySerDe.java:150-151 | a number written by a run of n letters is all digits and reads back as the number. It is exactly n digits long when the number has at most n digits. |
| IsoFormat.FormatDate | src/main/java/es/pic/astro/hadoop/serde/RecArraySerDe.java:150 | a formatted date is 10 ASCII characters, with dashes at positions 4 and 7. |
| IsoFormat.FormatTimestamp | src/main/java/es/pic/astro/hadoop/serde/RecArraySerDe.java:151 | a formatted timestamp is 23 ASCII characters: the date, then 'T', with ':' at positions 13 and 16 and '.' at 19. |
| IsoFormat.DateRoundTrip | src/main/java/es/pic/astro/hadoop/serde/RecArraySerDe.java:150 | a formatted date parses back to the same date. |
| IsoFormat.DateTextUnique | src/main/java/es/pic/astro/hadoop/serde/RecArraySerDe.java:150 | every text that parses as a date is the formatting of that date. |
| IsoFormat.TimestampRoundTrip | src/main/java/es/pic/astro/hadoop/serde/RecArraySerDe.java:151 | a formatted timestamp parses back to the same timestamp. |
| IsoFormat.TimestampTextUnique | src/main/java/es/pic/astro/hadoop/serde/RecArraySerDe.java:151 | every text that parses as a timestamp is the formatting of that timestamp. |
| IsoFormat.ExampleDate | src/main/java/es/pic/astro/hadoop/serde/RecArraySerDe.java:150 | 5 January 2024 is formatted as "2024-01-05". |
| FieldReader.TextRoundTrip | src/main/java/es/pic/astro/hadoop/serde/RecArraySerDe.java:338-348 | a string without NUL whose characters fit in a byte reads back from its slot, up to its first NUL, as the string cut to 255 characters. |
| FieldReader.FieldRoundTrip | src/main/java/es/pic/astro/hadoop/serde/RecArraySerDe.java:283-373 | every non-null value the reader can tell from null reads back from its written bytes. Text is cut to 255 characters. |
| FieldReader.NaNReadsAsNull | src/main/java/es/pic/astro/hadoop/serde/RecArraySerDe.java:324-337 | a non-null NaN FLOAT or DOUBLE is encoded exactly as a null one, so the reader takes it for null. |
| FieldReader.NullRoundTrip | src/main/java/es/pic/astro/hadoop/serde/RecArraySerDe.java:296-337 | a null integer, float or double reads back as null. |
| FieldReader.RecordRoundTrip | src/main/java/es/pic/astro/hadoop/serde/RecArraySerDe.java:267-386 | for a conforming row, the record has the schema's width, and a non-null field i that the reader can tell from null reads back from column i, text cut to 255 characters. |
| FieldReader.IntegerColumnDecodes | src/main/java/es/pic/astro/hadoop/serde/RecArraySerDe.java:296-323 | an integer column of the record decodes to the field's value, or to the width's minimum when the field is null. |
| FieldReader.ExampleBooleanInt | src/main/java/es/pic/astro/hadoop/serde/RecArraySerDe.java:287-316 | columns (BOOLEAN, INT) holding (true, null) produce the record 54 80 00 00 00. |
| FieldReader.ExampleString | src/main/java/es/pic/astro/hadoop/serde/RecArraySerDe.java:338-348 | a STRING column holding "ab" produces 'a', 'b' and then 253 NUL bytes. |
| FieldReader.ExampleDateColumn | src/main/java/es/pic/astro/hadoop/serde/RecArraySerDe.java:349-354 | a DATE column holding 5 January 2024 produces the ten bytes of "2024-01-05". |

## Left out

- Hive plumbing is not modelled. This covers `AbstractSerDe`, the object inspectors,
  `getObjectInspector`, `getSerializedClass`, `getSerDeStats` and the `BytesWritable`
  wrapper. A row is a sequence of typed fields, each of which may be null.
- Reading the column names and types from the table properties is not modelled.
  `TypeInfoUtils` parsing belongs to a library that is not part of this model, so
  the column types are an input. The names/types count assertion is the
  precondition of `Initialize`.
- The FITS library is not modelled. That covers `FitsFactory.HDUFactory`,
  `getModelRow` and `BufferedDataOutputStream.writeArray`, each replaced by the
  effect assumed for it:
  - the writer packs each slot big-endian, with no padding;
  - a boolean slot is written as 'T'/'F';
  - a text slot is written with one byte per character, its low eight bits.
- The failure paths of that library are left out: a `FitsException` while building
  the table and an `IOException` while writing or flushing.
- Initialize: the library's `getModelRow` is not modelled. The model row it returns
  is taken to be an empty row of the sample's shape: false for a logical column, zero
  for a number, and NUL characters of the column's width for text. The comment at
  line 241 of `RecArraySerDe.java` calls it the empty model row. The empty logical
  slot is written as 'F' because the writer is taken to follow the logical field of a
  FITS binary table, ASCII 'T' for true and 'F' for false, as for every boolean slot.
  A writer that used `DataOutput.writeBoolean` would write 1 and 0 instead.
- FixedText: lengths are counted in Unicode scalar values. Java's `rightPad` and
  `substring` count UTF-16 code units, so for text outside the Basic Multilingual Plane
  Java keeps fewer characters. Java's cut through a surrogate pair is not modelled.
- RightPad: counts Unicode scalar values, not UTF-16 code units, as for `FixedText`.
- StringEncoding: with Hive's own object inspectors, a non-null CHAR or VARCHAR field
  fails with a `ClassCastException` at the cast to `StringObjectInspector` (line 345 of
  `RecArraySerDe.java`).
  `HiveCharObjectInspector` and `HiveVarcharObjectInspector` are imported at lines 75
  and 79 but never used. The CHAR and VARCHAR cases model the evidently intended
  behaviour, which is to write them like a STRING, not the code as written.
- `SimpleDateFormat` is modelled with these limits:
  - `Render` covers only what the two patterns use: the numeric letters y, M, d, H,
    m, s and S, quoted text, and copied literal characters. Month names, other
    letters and locale rules are not modelled;
  - there is no time zone, so a date or timestamp is given as local calendar fields;
  - years are limited to 1..9999. This matters for the source: for a later year
    `yyyy` writes more than four digits, and the DATE and TIMESTAMP text is never cut
    (lines 352 and 358 of `RecArraySerDe.java`). So the fixed record width
    (`RecordLayout.FlattenLength`, the width bound of `Serialize`) holds for the source
    only inside that range;
  - the clock is one `now` parameter shared by every DATE and TIMESTAMP sample of a
    binding;
  - timestamps are truncated to milliseconds, taken as given.
- Floating point has no arithmetic in the model. A FLOAT or DOUBLE value is its
  `Float.floatToIntBits` or `Double.doubleToLongBits` image (types `FloatBits` and
  `DoubleBits`), the pattern `writeFloat` and `writeDouble` put on the stream, so every
  NaN is the canonical pattern. Null is written as that same pattern, so a non-null NaN
  reads back as null (`FieldReader.NaNReadsAsNull`).
- `Serialize` does not ask the row's field types to match the bound schema, as Hive
  does not either. It guarantees that the layout is kept, and gives the record-length
  bound, only for rows that conform.
- Concurrency is left out. The serde's buffers belong to a single caller.
