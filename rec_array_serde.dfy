/**
 * The serde object: bound once to a schema, it keeps the sample row, the model row
 * that every record is encoded into, and the output buffer the record is written to.
 */
module SerDe {
  import opened Wrappers
  import opened FitsPacking
  import opened IsoFormat
  import opened HiveTypes
  import opened RecordLayout
  import opened RowEncoder

  class RecArraySerDe {
    var columnNames: seq<string>
    var columnTypes: seq<TypeInfo>
    /** The sample row built when the schema is bound; it fixes the widths of the columns. */
    var row: array<Slot>
    /** The model row, overwritten in place by every record. */
    var model: array<Slot>
    /** The output buffer the writer appends the record to. */
    var output: seq<Byte>

    /** The object is bound to a schema of supported columns. */
    predicate Valid()
      reads this
    {
      |columnNames| == |columnTypes| == row.Length == model.Length
      && row != model
      && AllSupported(columnTypes)
    }

    /** The field types the columns are bound to. */
    function Schema(): seq<FieldType>
      reads this
      requires Valid()
    {
      SchemaOf(columnTypes)
    }

    /** The model row still has the layout the schema fixed. */
    predicate ModelLaidOut()
      reads this, model
      requires Valid()
    {
      LaidOut(Schema(), model[..])
    }

    /** A serde not yet bound: no columns. */
    constructor ()
      ensures Valid() && columnNames == [] && columnTypes == [] && output == []
      ensures fresh(row) && fresh(model) && row.Length == 0 && model.Length == 0
    {
      columnNames, columnTypes := [], [];
      row := new Slot[0];
      model := new Slot[0];
      output := [];
    }

    /**
     * Binds the serde to a schema: checks every column type and builds the sample
     * row, then the empty model row of the same shape. now is the date and time the
     * clock reads.
     */
    method Initialize(names: seq<string>, types: seq<TypeInfo>, now: Timestamp) returns (r: Result<(), SerDeError>)
      requires |names| == |types|
      modifies this
      ensures columnNames == names && columnTypes == types && output == old(output)
      ensures fresh(row) && row.Length == |types|
      ensures r.Ok? <==> AllSupported(types)
      ensures r.Ok? ==> Valid() && fresh(model) && ModelLaidOut()
                        && row[..] == Samples(Schema(), now) && model[..] == EmptyRow(Schema())
      ensures r.Err? ==> model == old(model)
      ensures r.Err? ==> exists k :: 0 <= k < |types| && FieldTypeOf(types[k]).None?
                          && r.error == UnsupportedError(types[k])
                          && forall j :: 0 <= j < k ==>
                               FieldTypeOf(types[j]).Some? && row[j] == Sample(FieldTypeOf(types[j]).value, now)
    {
      columnNames := names;
      columnTypes := types;
      var n := |names|;
      row := new Slot[n](_ => LogicalSlot(false));
      for i := 0 to n
        modifies row
        invariant forall j :: 0 <= j < i ==>
                    FieldTypeOf(types[j]).Some? && row[j] == Sample(FieldTypeOf(types[j]).value, now)
      {
        var slot := BuildSample(types[i], now);
        if slot.Err? {
          return Err(slot.error);
        }
        row[i] := slot.value;
      }
      var schema := SchemaOf(types);
      model := new Slot[n](j requires 0 <= j < n => EmptySlot(schema[j]));
      return Ok(());
    }

    /** The sample slot of one column: a one-element array of the column's type, or the type's rejection. */
    static method BuildSample(t: TypeInfo, now: Timestamp) returns (r: Result<Slot, SerDeError>)
      ensures FieldTypeOf(t).Some? ==> r == Ok(Sample(FieldTypeOf(t).value, now))
      ensures FieldTypeOf(t).None? ==> r == Err(UnsupportedError(t))
    {
      match t
      case Nested(c) =>
        r := Err(UnsupportedCategory(c));
      case Primitive(p) =>
        match p
        case BOOLEAN => r := Ok(LogicalSlot(false));
        case BYTE => r := Ok(ByteSlot(0));
        case SHORT => r := Ok(ShortSlot(0));
        case INT => r := Ok(IntSlot(0));
        case LONG => r := Ok(LongSlot(0));
        case FLOAT => r := Ok(FloatSlot(0));
        case DOUBLE => r := Ok(DoubleSlot(0));
        case CHAR | VARCHAR | STRING => r := Ok(TextSlot(Repeat(' ', STRING_FIELD_LENGTH)));
        case DATE => r := Ok(TextSlot(FormatDate(now.date)));
        case TIMESTAMP => r := Ok(TextSlot(FormatTimestamp(now)));
        case _ => r := Err(UnsupportedPrimitive(p));
    }

    /** Always the sample row, whatever bytes are given. */
    method Deserialize(blob: seq<Byte>) returns (r: array<Slot>)
      ensures r == row
    {
      return row;
    }

    /**
     * Encodes one row: resets the output buffer, overwrites the model row column by
     * column, then writes the model row to the buffer and returns its bytes.
     */
    method Serialize(fields: seq<Field>) returns (r: Result<seq<Byte>, SerDeError>)
      requires Valid() && WellTypedRow(fields)
      modifies this`output, model
      ensures Valid()
      ensures r.Ok? <==> EncodeRow(old(model[..]), fields).Ok?
      ensures r.Ok? ==> model[..] == EncodeRow(old(model[..]), fields).value
                        && r.value == Flatten(model[..]) && output == r.value
      ensures r.Err? ==> r.error == EncodeRow(old(model[..]), fields).error && output == []
      ensures r.Err? ==>
                exists k :: 0 <= k < model.Length && ColumnResult(old(model[..]), fields, k).Err?
                  && EncodePrefix(old(model[..]), fields, k) == Ok(model[..k]) && model[k..] == old(model[k..])
      ensures old(ModelLaidOut()) && Conforms(Schema(), fields) ==>
                r.Ok? && ModelLaidOut() && |r.value| == RecordWidth(Schema())
    {
      ghost var prev := model[..];
      ghost var conforming := LaidOut(Schema(), prev) && Conforms(Schema(), fields);
      if conforming {
        ConformingRowEncodes(Schema(), prev, fields);
      }
      output := [];
      var e := EncodeModel(fields);
      if e.Some? {
        return Err(e.value);
      }
      WriteArray();
      assert output == [] + Flatten(model[..]);
      r := Ok(output);
      if conforming {
        FlattenLength(Schema(), model[..]);
      }
    }

    /** The encoder loop: the columns in schema order, each overwriting its own slot of the model row. */
    method EncodeModel(fields: seq<Field>) returns (e: Option<SerDeError>)
      requires WellTypedRow(fields)
      modifies model
      ensures e.None? <==> EncodeRow(old(model[..]), fields).Ok?
      ensures e.None? ==> model[..] == EncodeRow(old(model[..]), fields).value
      ensures e.Some? ==> e.value == EncodeRow(old(model[..]), fields).error
      ensures e.Some? ==>
                exists k :: 0 <= k < model.Length && ColumnResult(old(model[..]), fields, k).Err?
                  && EncodePrefix(old(model[..]), fields, k) == Ok(model[..k]) && model[k..] == old(model[k..])
    {
      ghost var prev := model[..];
      var n := model.Length;
      for i := 0 to n
        invariant model[i..] == prev[i..]
        invariant EncodePrefix(prev, fields, i) == Ok(model[..i])
      {
        if i >= |fields| {
          ErrorStops(prev, fields, i, n);
          return Some(FieldIndexOutOfRange(i));
        }
        var c := EncodeColumn(i, fields[i]);
        if c.Some? {
          ErrorStops(prev, fields, i, n);
          return c;
        }
        assert model[..i + 1] == model[..i] + [model[i]];
      }
      assert model[..n] == model[..];
      return None;
    }

    /**
     * One pass of the encoder loop: overwrites model[i] as field f asks, or reports
     * the unsupported type of f and leaves the model alone.
     */
    method EncodeColumn(i: nat, f: Field) returns (e: Option<SerDeError>)
      requires i < model.Length && WellTyped(f)
      modifies model
      ensures EncodeField(f, old(model[i])).Ok? ==>
                e.None? && model[..] == old(model[..])[i := EncodeField(f, old(model[i])).value]
      ensures EncodeField(f, old(model[i])).Err? ==>
                e == Some(EncodeField(f, old(model[i])).error) && model[..] == old(model[..])
    {
      e := None;
      match f.ty
      case Nested(c) =>
        e := Some(UnsupportedCategory(c));
      case Primitive(p) =>
        match p
        case BOOLEAN =>
          if f.data.Some? {
            if f.data.value.flag {
              model[i] := TextSlot("T");
            } else {
              model[i] := TextSlot("F");
            }
          }
        case BYTE =>
          if f.data.Some? { model[i] := ByteSlot(f.data.value.i8); } else { model[i] := ByteSlot(BYTE_MIN_VALUE); }
        case SHORT =>
          if f.data.Some? { model[i] := ShortSlot(f.data.value.i16); } else { model[i] := ShortSlot(SHORT_MIN_VALUE); }
        case INT =>
          if f.data.Some? { model[i] := IntSlot(f.data.value.i32); } else { model[i] := IntSlot(INT_MIN_VALUE); }
        case LONG =>
          if f.data.Some? { model[i] := LongSlot(f.data.value.i64); } else { model[i] := LongSlot(LONG_MIN_VALUE); }
        case FLOAT =>
          if f.data.Some? { model[i] := FloatSlot(f.data.value.f32); } else { model[i] := FloatSlot(FLOAT_NAN_BITS); }
        case DOUBLE =>
          if f.data.Some? { model[i] := DoubleSlot(f.data.value.f64); } else { model[i] := DoubleSlot(DOUBLE_NAN_BITS); }
        case CHAR | VARCHAR | STRING =>
          if f.data.Some? {
            var len := STRING_FIELD_LENGTH;
            model[i] := TextSlot(RightPad(f.data.value.text, len, '\0')[..len]);
          }
        case DATE =>
          if f.data.Some? { model[i] := TextSlot(FormatDate(f.data.value.date)); }
        case TIMESTAMP =>
          if f.data.Some? { model[i] := TextSlot(FormatTimestamp(f.data.value.stamp)); }
        case _ =>
          e := Some(UnsupportedPrimitive(p));
    }

    /** Appends the model row's bytes, slot after slot, to the output buffer. */
    method WriteArray()
      modifies this`output
      ensures output == old(output) + Flatten(model[..])
    {
      for j := 0 to model.Length
        invariant output == old(output) + Flatten(model[..j])
      {
        output := output + SlotBytes(model[j]);
        FlattenSnoc(model[..], j);
        assert model[..][..j + 1] == model[..j + 1] && model[..][..j] == model[..j];
      }
      assert model[..model.Length] == model[..];
    }
  }
}
