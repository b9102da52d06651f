/**
 The `from_point` that `#[derive(FromPoint)]` generates (`from_point.rs`),
 as an interpreter over the parsed description. The generated struct
 literal reads the time field from the point's time, then every tag field,
 then every plain field, in declaration order within each group; the first
 failing read is the error. A tag's text is converted with the field
 type's `FromStr`, which is a parameter here except for `String`.
 */
module DeriveFromPoint {
  import opened Base
  import opened Decimal
  import opened Names
  import opened TagNames
  import opened PointValues
  import opened Codec
  import opened Points
  import opened MacroParser
  import opened DeriveToPoint

  const IgnoredNeedsDefault: string := "Ignored fields must also be marked with #[influxdb(default)]"
  const NeedsTime: string :=
    "FromPoint requires a time field (either named 'time' or marked with #[influxdb(time)])"

  // ---- The derive --------------------------------------------------------

  /** The first field from `i` on that is ignored without being marked `default`. */
  function FirstIgnoredWithoutDefault(fs: seq<FieldInfo>, i: nat): (r: Option<nat>)
    decreases |fs| - i
    ensures r.Some? ==> i <= r.value < |fs| && fs[r.value].ignore && !fs[r.value].useDefault
    ensures r.None? ==> forall j :: i <= j < |fs| ==> !fs[j].ignore || fs[j].useDefault
  {
    if i >= |fs| then None
    else if fs[i].ignore && !fs[i].useDefault then Some(i)
    else FirstIgnoredWithoutDefault(fs, i + 1)
  }

  /** Whether the loop over the fields from `i` on sets `time_extraction`. */
  function HasTimeFrom(fs: seq<FieldInfo>, i: nat): (b: bool)
    decreases |fs| - i
    ensures b <==> exists j :: i <= j < |fs| && fs[j].fieldType == Time
  {
    if i >= |fs| then false
    else fs[i].fieldType == Time || HasTimeFrom(fs, i + 1)
  }

  /**
   `derive_from_point_impl`: the parse, then the check that every ignored
   field is also `default`, then the check for a time field.
   */
  function DeriveFromPoint(input: DeriveInput): (r: Result<StructInfo, SynError>)
    ensures ParseStruct(input).Err? ==> r == Err(ParseStruct(input).error)
    ensures ParseStruct(input).Ok? ==>
      var fs := ParseStruct(input).value.fields;
      (r.Ok? <==> (forall i :: 0 <= i < |fs| ==> fs[i].ignore ==> fs[i].useDefault)
                  && exists i :: 0 <= i < |fs| && fs[i].fieldType == Time)
      && ((exists i :: 0 <= i < |fs| && fs[i].ignore && !fs[i].useDefault) ==> r == Err(SynError(IgnoredNeedsDefault)))
      && (((forall i :: 0 <= i < |fs| ==> fs[i].ignore ==> fs[i].useDefault)
           && !(exists i :: 0 <= i < |fs| && fs[i].fieldType == Time))
          ==> r == Err(SynError(NeedsTime)))
    ensures r.Err? ==>
              || r.error == SynError(IgnoredNeedsDefault)
              || r.error == SynError(NeedsTime)
              || (ParseStruct(input).Err? && r.error == ParseStruct(input).error)
    ensures r.Ok? ==> r == ParseStruct(input)
  {
    match ParseStruct(input)
    case Err(e) => Err(e)
    case Ok(info) =>
      if FirstIgnoredWithoutDefault(info.fields, 0).Some? then Err(SynError(IgnoredNeedsDefault))
      else if !HasTimeFrom(info.fields, 0) then Err(SynError(NeedsTime))
      else Ok(info)
  }

  /** A struct the derive accepts has exactly one field in the time role. */
  lemma DerivedHasOneTime(input: DeriveInput)
    requires DeriveFromPoint(input).Ok?
    ensures var fs := DeriveFromPoint(input).value.fields;
      exists i :: 0 <= i < |fs| && fs[i].fieldType == Time
         && forall j :: 0 <= j < |fs| && j != i ==> fs[j].fieldType != Time
  {
    ParseStructMeasurement(input);
    var fs := DeriveFromPoint(input).value.fields;
    assert fs == ParseFields(input.data.fields.decls, 0).value;
    assert HasTimeFrom(fs, 0);
    AtMostOneTime(input.data.fields.decls);
    var i :| 0 <= i < |fs| && fs[i].fieldType == Time;
    forall j | 0 <= j < |fs| && j != i
      ensures fs[j].fieldType != Time
    {
    }
  }

  // ---- Reading one field -------------------------------------------------

  /** The types with a `Default`: every modelled type but `PointValue`. */
  predicate HasDefault(t: Ty) {
    !t.PointValueTy?
  }

  /** `Default::default()`: zero, `false`, the empty text, the Unix epoch, `None`. */
  function DefaultOf(t: Ty): (v: Val)
    requires HasDefault(t)
    ensures HasType(v, t)
  {
    match t
    case UnitTy => UnitV
    case F64Ty => FloatV(F64(0))
    case BoolTy => BoolV(false)
    case StringTy => TextV("")
    case DateTimeTy => TimeV(0)
    case OptionTy(_) => NoneV
    case I8Ty | I16Ty | I32Ty | I64Ty | U8Ty | U16Ty | U32Ty | U64Ty => IntV(0)
  }

  /** `FromStr` for the types whose parser the model does not define (`f64`, for one). */
  type Parser = (Ty, string) -> Option<Val>

  /**
   `s.parse::<T>()`: `String` takes the text as it is, `bool` accepts exactly
   `true` and `false`, and the integer types read decimal text within their
   range. `None` stands for every parse error.
   */
  function ParseTag(t: Ty, s: string, parse: Parser): (r: Option<Val>)
    ensures t == StringTy ==> r == Some(TextV(s))
    ensures t == BoolTy ==> (r.Some? <==> s == "true" || s == "false")
    ensures (t == BoolTy || t.IsSigned() || t.IsUnsigned()) && r.Some? ==> HasType(r.value, t)
    ensures t.IsSigned() || t.IsUnsigned() ==>
      (r.Some? <==> DecimalText(s, t.IsSigned()) && MinOf(t) <= DecimalValue(s) <= MaxOf(t))
      && (r.Some? ==> r == Some(IntV(DecimalValue(s))))
  {
    match t
    case StringTy => Some(TextV(s))
    case BoolTy =>
      if s == "true" then Some(BoolV(true)) else if s == "false" then Some(BoolV(false)) else None
    case I8Ty | I16Ty | I32Ty | I64Ty | U8Ty | U16Ty | U32Ty | U64Ty =>
      var n := ParseInt(s, MinOf(t), MaxOf(t), t.IsSigned());
      if n.Some? then Some(IntV(n.value)) else None
    case _ => parse(t, s)
  }

  function MissingTag(key: string): string {
    "Missing required tag: " + key
  }

  function TagParseFailure(key: string, tyText: string): string {
    "Failed to parse tag '" + key + "' as " + tyText
  }

  function MissingField(key: string): string {
    "Missing required field: " + key
  }

  /**
   The `{:?}` text of a conversion error, without the debug escape of the
   message: the messages the modelled `Decode` produces contain no quote,
   backslash or control character, which the escape would change.
   */
  function ConversionDebug(message: string): string {
    "InvalidPointValueConversion(\"" + message + "\")"
  }

  function ConvertFailure(key: string, message: string): string {
    "Failed to convert field '" + key + "': " + ConversionDebug(message)
  }

  /** The field is read with default fallback only, never from the point. */
  predicate Defaulted(fi: FieldInfo) {
    fi.fieldType != Time && fi.ignore && fi.useDefault
  }

  /**
   What the generated code needs to compile and not panic: a time field is
   `DateTime<Utc>`; `default` needs `Default`; a tag read from the point
   uses a valid tag name (`get_tag` panics on any other); a field read from
   the point has a `Decode` type.
   */
  predicate Readable(fi: FieldInfo) {
    (fi.fieldType == Time ==> fi.ty == DateTimeTy)
    && (fi.useDefault ==> HasDefault(fi.ty))
    && (fi.fieldType == Tag && !Defaulted(fi) ==> ValidateName(PointName(fi)))
    && (fi.fieldType == Field && !Defaulted(fi) ==> Decodable(fi.ty))
  }

  /** The expression the generated struct literal uses for one field. */
  function Extract(fi: FieldInfo, p: Point, parse: Parser): (r: Result<Val, Error>)
    requires Readable(fi)
    ensures fi.fieldType == Time ==> r == Ok(TimeV(p.time))
    ensures Defaulted(fi) ==> r == Ok(DefaultOf(fi.ty))
    ensures r.Err? ==> r.error.Other?
    ensures fi.fieldType == Tag && !Defaulted(fi) && GetTag(p, PointName(fi)).None? ==>
      r == if fi.useDefault then Ok(DefaultOf(fi.ty)) else Err(Other(MissingTag(PointName(fi))))
    ensures fi.fieldType == Field && !Defaulted(fi) && PointName(fi) !in p.fields ==>
      r == if fi.useDefault then Ok(DefaultOf(fi.ty)) else Err(Other(MissingField(PointName(fi))))
    ensures fi.fieldType == Tag && !Defaulted(fi) && GetTag(p, PointName(fi)).Some? ==>
      var parsed := ParseTag(fi.ty, GetTag(p, PointName(fi)).value, parse);
      r == if parsed.Some? then Ok(parsed.value) else Err(Other(TagParseFailure(PointName(fi), fi.tyText)))
    ensures fi.fieldType == Field && !Defaulted(fi) && PointName(fi) in p.fields ==>
      var decoded := Decode(fi.ty, p.fields[PointName(fi)]);
      && (r.Ok? <==> decoded.Ok?)
      && (r.Ok? ==> HasType(r.value, fi.ty) && Encode(fi.ty, r.value) == p.fields[PointName(fi)])
      && (r.Err? ==> r.error == Other(ConvertFailure(PointName(fi), decoded.error.message)))
  {
    var key := PointName(fi);
    match fi.fieldType
    case Time => Ok(TimeV(p.time))
    case Tag =>
      if fi.useDefault && fi.ignore then Ok(DefaultOf(fi.ty))
      else (
        match GetTag(p, key)
        case None => if fi.useDefault then Ok(DefaultOf(fi.ty)) else Err(Other(MissingTag(key)))
        case Some(s) => (
          match ParseTag(fi.ty, s, parse)
          case None => Err(Other(TagParseFailure(key, fi.tyText)))
          case Some(v) => Ok(v)))
    case Field =>
      if fi.useDefault && fi.ignore then Ok(DefaultOf(fi.ty))
      else (
        match GetField(p, key, fi.ty)
        case Err(e) => Err(Other(ConvertFailure(key, e.message)))
        case Ok(None) => if fi.useDefault then Ok(DefaultOf(fi.ty)) else Err(Other(MissingField(key)))
        case Ok(Some(v)) => Ok(v))
  }

  // ---- The struct literal --------------------------------------------------

  predicate AllReadable(fs: seq<FieldInfo>) {
    forall i :: 0 <= i < |fs| ==> Readable(fs[i])
  }

  /** The group a field is read in: the time first, then the tags, then the plain fields. */
  function ReadRank(t: FieldType): nat {
    match t
    case Time => 0
    case Tag => 1
    case Field => 2
  }

  /** The field at `k` is read before the field at `j`. */
  predicate ReadBefore(fs: seq<FieldInfo>, k: nat, j: nat)
    requires k < |fs| && j < |fs|
  {
    var rk := ReadRank(fs[k].fieldType);
    var rj := ReadRank(fs[j].fieldType);
    rk < rj || (rk == rj && k < j)
  }

  /** The first field from `i` on, in the given role, whose read fails. */
  function FirstFailing(fs: seq<FieldInfo>, p: Point, parse: Parser, role: FieldType, i: nat): (r: Option<nat>)
    requires AllReadable(fs)
    decreases |fs| - i
    ensures r.Some? ==>
              && i <= r.value < |fs| && fs[r.value].fieldType == role
              && Extract(fs[r.value], p, parse).Err?
    ensures forall k :: i <= k < |fs| && (r.None? || k < r.value) && fs[k].fieldType == role ==>
              Extract(fs[k], p, parse).Ok?
  {
    if i >= |fs| then None
    else if fs[i].fieldType == role && Extract(fs[i], p, parse).Err? then Some(i)
    else
      assert fs[i].fieldType == role ==> Extract(fs[i], p, parse).Ok?;
      FirstFailing(fs, p, parse, role, i + 1)
  }

  /** A failing read with no failure before it in its group, nor in an earlier group, is the first failure. */
  lemma FailureIsFirst(fs: seq<FieldInfo>, p: Point, parse: Parser, j: nat)
    requires AllReadable(fs) && j < |fs| && Extract(fs[j], p, parse).Err?
    requires forall k :: 0 <= k < j && fs[k].fieldType == fs[j].fieldType ==> Extract(fs[k], p, parse).Ok?
    requires fs[j].fieldType == Field ==> forall k :: 0 <= k < |fs| && fs[k].fieldType == Tag ==> Extract(fs[k], p, parse).Ok?
    ensures forall k :: 0 <= k < |fs| && ReadBefore(fs, k, j) ==> Extract(fs[k], p, parse).Ok?
  {
  }

  /**
   The generated `from_point(point)`: one value per declared field, or the
   error of the first read that fails in the literal's order.
   */
  function FromPoint(info: StructInfo, p: Point, parse: Parser): (r: Result<seq<Val>, Error>)
    requires AllReadable(info.fields)
    ensures r.Ok? <==> forall i :: 0 <= i < |info.fields| ==> Extract(info.fields[i], p, parse).Ok?
    ensures r.Ok? ==>
              && |r.value| == |info.fields|
              && forall i :: 0 <= i < |info.fields| ==> Extract(info.fields[i], p, parse) == Ok(r.value[i])
    ensures r.Err? ==>
              exists j :: && 0 <= j < |info.fields|
                          && Extract(info.fields[j], p, parse) == Err(r.error)
                          && forall k :: 0 <= k < |info.fields| && ReadBefore(info.fields, k, j) ==>
                                           Extract(info.fields[k], p, parse).Ok?
  {
    var fs := info.fields;
    match FirstFailing(fs, p, parse, Tag, 0)
    case Some(j) =>
      FailureIsFirst(fs, p, parse, j);
      Err(Extract(fs[j], p, parse).error)
    case None => (
      match FirstFailing(fs, p, parse, Field, 0)
      case Some(j) =>
        FailureIsFirst(fs, p, parse, j);
        Err(Extract(fs[j], p, parse).error)
      case None =>
        assert forall i :: 0 <= i < |fs| ==> Extract(fs[i], p, parse).Ok? by {
          forall i | 0 <= i < |fs| ensures Extract(fs[i], p, parse).Ok? {
            if fs[i].fieldType == Time {
            }
          }
        }
        Ok(seq(|fs|, i requires 0 <= i < |fs| => Extract(fs[i], p, parse).value)))
  }

  // ---- Properties --------------------------------------------------------

  /** What a plain round trip through a point needs of the struct and its value. */
  predicate RoundTrippable(fs: seq<FieldInfo>, values: seq<Val>) {
    Convertible(fs, values) && AllReadable(fs)
    && (forall i :: 0 <= i < |fs| ==>
          (fs[i].fieldType == Time ==> !fs[i].ignore)
          && (fs[i].ignore ==> fs[i].useDefault && values[i] == DefaultOf(fs[i].ty))
          && (Assigned(fs[i], Field) ==> Flat(fs[i].ty) && ValidateName(PointName(fs[i]))))
    && (forall i, j :: 0 <= i < j < |fs| ==> !(fs[i].fieldType == Time && fs[j].fieldType == Time))
    && (forall i, j :: 0 <= i < j < |fs| && Assigned(fs[i], Tag) && Assigned(fs[j], Tag) ==>
          PointName(fs[i]) != PointName(fs[j]))
    && (forall i, j :: 0 <= i < j < |fs| && Assigned(fs[i], Field) && Assigned(fs[j], Field) ==>
          PointName(fs[i]) != PointName(fs[j]))
  }

  /** Reading one field back from the point `to_point` made gives its value. */
  lemma ExtractOfToPoint(info: StructInfo, values: seq<Val>, now: int, parse: Parser, i: nat)
    requires RoundTrippable(info.fields, values) && i < |info.fields|
    ensures Extract(info.fields[i], ToPoint(info, values, now), parse) == Ok(values[i])
  {
    var fs := info.fields;
    match fs[i].fieldType
    case Time =>
      TimeOfField(fs, values, |fs|, now, i);
    case Tag =>
      if !fs[i].ignore {
        ExtractTagOfToPoint(info, values, now, parse, i);
      }
    case Field =>
      if !fs[i].ignore {
        ExtractFieldOfToPoint(info, values, now, parse, i);
      }
  }

  lemma ExtractTagOfToPoint(info: StructInfo, values: seq<Val>, now: int, parse: Parser, i: nat)
    requires RoundTrippable(info.fields, values) && i < |info.fields| && Assigned(info.fields[i], Tag)
    ensures Extract(info.fields[i], ToPoint(info, values, now), parse) == Ok(values[i])
  {
    var fs := info.fields;
    TagMapLast(fs, values, |fs|, i);
    assert TagEntry(fs, values, i).0 == TagNameText(PointName(fs[i]));
  }

  lemma ExtractFieldOfToPoint(info: StructInfo, values: seq<Val>, now: int, parse: Parser, i: nat)
    requires RoundTrippable(info.fields, values) && i < |info.fields| && Assigned(info.fields[i], Field)
    ensures Extract(info.fields[i], ToPoint(info, values, now), parse) == Ok(values[i])
  {
    var fs := info.fields;
    FieldMapLast(fs, values, |fs|, i);
    EncodeThenDecode(fs[i].ty, values[i]);
  }

  /**
   `from_point` undoes `to_point`: every field comes back, given distinct
   keys per role, valid field names, flat field types, at most one time
   field that is not ignored, and defaults in the ignored fields.
   */
  lemma ToPointThenFromPoint(info: StructInfo, values: seq<Val>, now: int, parse: Parser)
    requires RoundTrippable(info.fields, values)
    ensures FromPoint(info, ToPoint(info, values, now), parse) == Ok(values)
  {
    var fs := info.fields;
    var p := ToPoint(info, values, now);
    forall i | 0 <= i < |fs|
      ensures Extract(fs[i], p, parse) == Ok(values[i])
    {
      ExtractOfToPoint(info, values, now, parse, i);
    }
    var r := FromPoint(info, p, parse);
    assert r.Ok?;
    assert r.value == values;
  }

  /** An integer-typed tag holding the decimal text of a value of its type reads as that value. */
  lemma IntegerTagReadBack(t: Ty, v: int, parse: Parser)
    requires (t.IsSigned() || t.IsUnsigned()) && MinOf(t) <= v <= MaxOf(t)
    ensures ParseTag(t, IntText(v), parse) == Some(IntV(v))
  {
    ParseIntText(v, MinOf(t), MaxOf(t), t.IsSigned());
  }

  /** Fields that are ignored and `default` never look at the point. */
  lemma DefaultedNeverReads(fi: FieldInfo, p: Point, p': Point, parse: Parser, parse': Parser)
    requires Readable(fi) && Defaulted(fi)
    ensures Extract(fi, p, parse) == Extract(fi, p', parse')
  {
  }

  /**
   A field named `time` and marked `ignore, default` stays in the time role:
   `to_point` skips it and sets the time to `now`, while `from_point` fills it
   with the point's time, not its default.
   */
  lemma IgnoredTimeStillRead(now: int, parse: Parser)
    requires now != 0
    ensures var fi := FieldInfo("time", Time, None, DateTimeTy, "DateTime < Utc >", true, true);
      var info := StructInfo("Sample", "sample", [fi]);
      ToPoint(info, [TimeV(0)], now).time == now
      && FromPoint(info, ToPoint(info, [TimeV(0)], now), parse) == Ok([TimeV(now)])
  {
    var fi := FieldInfo("time", Time, None, DateTimeTy, "DateTime < Utc >", true, true);
    var info := StructInfo("Sample", "sample", [fi]);
    TimeOfNone(info.fields, [TimeV(0)], 1, now);
    var r := FromPoint(info, ToPoint(info, [TimeV(0)], now), parse);
    assert r.Ok? && |r.value| == 1;
    assert r.value == [TimeV(now)];
  }

  /** A tag field without `default` that the point lacks is the error, ahead of any plain field. */
  lemma MissingTagReported(p: Point, parse: Parser)
    requires p.tags == map[]
    ensures ValidateName("host")
    ensures var tag := FieldInfo("host", Tag, None, StringTy, "String", false, false);
      var load := FieldInfo("load", Field, None, F64Ty, "f64", false, false);
      FromPoint(StructInfo("Cpu", "cpu", [load, tag]), p, parse) == Err(Other("Missing required tag: host"))
  {
    var tag := FieldInfo("host", Tag, None, StringTy, "String", false, false);
    var load := FieldInfo("load", Field, None, F64Ty, "f64", false, false);
    var fs := [load, tag];
    assert GetTag(p, "host") == None;
    assert Extract(tag, p, parse) == Err(Other(MissingTag("host")));
    assert FirstFailing(fs, p, parse, Tag, 1) == Some(1);
    assert FirstFailing(fs, p, parse, Tag, 0) == Some(1);
    assert MissingTag("host") == "Missing required tag: host";
  }
}
