/**
 The `Encode` and `Decode` capabilities of `point_value.rs`, as functions
 indexed by a description of the Rust type (`Ty`). A Rust value of that type
 is a `Val` satisfying `HasType`.

 `String` and `&str` behave identically here and share `StringTy`; the
 blanket `Encode for &T` is the `Encode` of `T`. `f32` is not modelled.
 */
module Codec {
  import opened Base
  import opened PointValues

  datatype Ty =
    | UnitTy
    | F64Ty
    | I8Ty | I16Ty | I32Ty | I64Ty
    | U8Ty | U16Ty | U32Ty | U64Ty
    | BoolTy
    | StringTy
    | DateTimeTy
    | PointValueTy
    | OptionTy(inner: Ty)
  {
    predicate IsSigned() { I8Ty? || I16Ty? || I32Ty? || I64Ty? }
    predicate IsUnsigned() { U8Ty? || U16Ty? || U32Ty? || U64Ty? }
  }

  /** A value of some Rust type. Signed and unsigned integers share `IntV`. */
  datatype Val =
    | UnitV
    | FloatV(f: F64)
    | IntV(i: int)
    | BoolV(b: bool)
    | TextV(s: string)
    | TimeV(nanos: int)
    | RawV(v: PointValue)
    | NoneV
    | SomeV(inner: Val)

  /** Least value of an integer type. */
  function MinOf(t: Ty): int
    requires t.IsSigned() || t.IsUnsigned()
  {
    match t
    case I8Ty => I8_MIN
    case I16Ty => I16_MIN
    case I32Ty => I32_MIN
    case I64Ty => I64_MIN
    case _ => 0
  }

  /** Greatest value of an integer type. */
  function MaxOf(t: Ty): int
    requires t.IsSigned() || t.IsUnsigned()
  {
    match t
    case I8Ty => I8_MAX
    case I16Ty => I16_MAX
    case I32Ty => I32_MAX
    case I64Ty => I64_MAX
    case U8Ty => U8_MAX
    case U16Ty => U16_MAX
    case U32Ty => U32_MAX
    case _ => U64_MAX
  }

  /** `v` is a value of the Rust type `t`. */
  predicate HasType(v: Val, t: Ty) {
    match t
    case UnitTy => v.UnitV?
    case F64Ty => v.FloatV?
    case BoolTy => v.BoolV?
    case StringTy => v.TextV?
    case DateTimeTy => v.TimeV?
    case PointValueTy => v.RawV?
    case OptionTy(u) => v.NoneV? || (v.SomeV? && HasType(v.inner, u))
    case _ => v.IntV? && MinOf(t) <= v.i <= MaxOf(t)
  }

  /** The types that implement `Decode`: neither `()` nor `PointValue` does. */
  predicate Decodable(t: Ty) {
    match t
    case UnitTy => false
    case PointValueTy => false
    case OptionTy(u) => Decodable(u)
    case _ => true
  }

  /** Types with no `Option` nested directly inside an `Option`. */
  predicate Flat(t: Ty) {
    t.OptionTy? ==> !t.inner.OptionTy?
  }

  /**
   The `Encode` implementations: total, the variant chosen by the type. The
   value is always of a variant the type's `Decode` reads, and it is `Null`
   only for `()` and for a `None` at some level of an option.
   */
  function Encode(t: Ty, v: Val): (r: PointValue)
    requires HasType(v, t)
    ensures Decodable(t) ==> Accepts(t, r)
    ensures t.OptionTy? && v.NoneV? ==> r.Null?
    ensures !t.OptionTy? ==> (r.Null? <==> t.UnitTy? || (t.PointValueTy? && v.v.Null?))
  {
    match t
    case UnitTy => Null
    case F64Ty => Float(v.f)
    case BoolTy => Boolean(v.b)
    case StringTy => String(v.s)
    case DateTimeTy => Timestamp(v.nanos)
    case PointValueTy => v.v
    case OptionTy(u) => if v.NoneV? then Null else Encode(u, v.inner)
    case I8Ty | I16Ty | I32Ty | I64Ty => Integer(v.i)
    case U8Ty | U16Ty | U32Ty | U64Ty => UInteger(v.i)
  }

  /** The variant of `PointValue` the type's `Decode` is prepared to read. */
  predicate Accepts(t: Ty, pv: PointValue)
    requires Decodable(t)
  {
    match t
    case F64Ty => pv.Float?
    case BoolTy => pv.Boolean?
    case StringTy => pv.String?
    case DateTimeTy => pv.Timestamp?
    case OptionTy(u) => pv.Null? || Accepts(u, pv)
    case I8Ty | I16Ty | I32Ty | I64Ty => pv.Integer?
    case U8Ty | U16Ty | U32Ty | U64Ty => pv.UInteger?
  }

  function Mismatch(t: Ty, pv: PointValue): string
    requires Decodable(t) && !t.OptionTy?
  {
    match t
    case F64Ty => "PointValue is not a Float"
    case BoolTy => "PointValue is not a Boolean"
    case StringTy => "PointValue is not a String"
    case DateTimeTy => "PointValue is not a Timestamp"
    case I64Ty => "PointValue is not an Integer " + VariantName(pv)
    case I8Ty | I16Ty | I32Ty => "PointValue is not an Integer"
    case U8Ty | U16Ty | U32Ty | U64Ty => "PointValue is not a UInteger"
  }

  function OutOfRange(t: Ty): string
    requires t.IsSigned() || t.IsUnsigned()
  {
    match t
    case I8Ty => "Value out of range for i8"
    case I16Ty => "Value out of range for i16"
    case I32Ty => "Value out of range for i32"
    case U8Ty => "Value out of range for u8"
    case U16Ty => "Value out of range for u16"
    case U32Ty => "Value out of range for u32"
    case _ => ""
  }

  function VariantName(pv: PointValue): string {
    match pv
    case Null => "Null"
    case Float(_) => "Float"
    case Integer(_) => "Integer"
    case UInteger(_) => "UInteger"
    case Boolean(_) => "Boolean"
    case String(_) => "String"
    case Timestamp(_) => "Timestamp"
  }

  /**
   The `Decode` implementations: exact variant match, with a range check for
   the narrower integer widths; `Option<T>` maps `Null` to `None`.
   */
  function Decode(t: Ty, pv: PointValue): (r: Result<Val, Error>)
    requires Decodable(t)
    ensures r.Ok? ==> HasType(r.value, t)
    ensures r.Err? ==> r.error.InvalidPointValueConversion?
  {
    match t
    case OptionTy(u) =>
      if pv.Null? then Ok(NoneV)
      else (
        match Decode(u, pv)
        case Ok(x) => Ok(SomeV(x))
        case Err(e) => Err(e))
    case F64Ty =>
      if pv.Float? then Ok(FloatV(pv.f)) else Err(InvalidPointValueConversion(Mismatch(t, pv)))
    case BoolTy =>
      if pv.Boolean? then Ok(BoolV(pv.b)) else Err(InvalidPointValueConversion(Mismatch(t, pv)))
    case StringTy =>
      if pv.String? then Ok(TextV(pv.s)) else Err(InvalidPointValueConversion(Mismatch(t, pv)))
    case DateTimeTy =>
      if pv.Timestamp? then Ok(TimeV(pv.nanos)) else Err(InvalidPointValueConversion(Mismatch(t, pv)))
    case I8Ty | I16Ty | I32Ty | I64Ty =>
      if !pv.Integer? then Err(InvalidPointValueConversion(Mismatch(t, pv)))
      else if MinOf(t) <= pv.i <= MaxOf(t) then Ok(IntV(pv.i))
      else Err(InvalidPointValueConversion(OutOfRange(t)))
    case U8Ty | U16Ty | U32Ty | U64Ty =>
      if !pv.UInteger? then Err(InvalidPointValueConversion(Mismatch(t, pv)))
      else if pv.u <= MaxOf(t) then Ok(IntV(pv.u))
      else Err(InvalidPointValueConversion(OutOfRange(t)))
  }

  /** `PointValue::get_value`: `Null` is `None`, anything else is decoded. */
  function GetValue(pv: PointValue, t: Ty): (r: Result<Option<Val>, Error>)
    requires Decodable(t)
    ensures pv.Null? ==> r == Ok(None)
    ensures r.Ok? && r.value.Some? ==> HasType(r.value.value, t) && Encode(t, r.value.value) == pv
    ensures !pv.Null? ==> (r.Ok? <==> Decode(t, pv).Ok?)
    ensures r.Err? ==> r.error.InvalidPointValueConversion?
  {
    if pv.Null? then Ok(None)
    else
      match Decode(t, pv)
      case Ok(x) => DecodeThenEncode(t, pv); Ok(Some(x))
      case Err(e) => Err(e)
  }

  // ---- Properties --------------------------------------------------------

  /** Decoding what a value encodes to gives the value back, for every flat decodable type. */
  lemma {:induction false} EncodeThenDecode(t: Ty, v: Val)
    requires Decodable(t) && Flat(t) && HasType(v, t)
    ensures Decode(t, Encode(t, v)) == Ok(v)
  {
    match t
    case OptionTy(u) =>
      if v.SomeV? {
        EncodeThenDecode(u, v.inner);
      }
    case _ =>
  }

  /** Whatever decodes successfully encodes back to the same `PointValue`. */
  lemma {:induction false} DecodeThenEncode(t: Ty, pv: PointValue)
    requires Decodable(t) && Decode(t, pv).Ok?
    ensures Encode(t, Decode(t, pv).value) == pv
  {
    match t
    case OptionTy(u) =>
      if !pv.Null? {
        DecodeThenEncode(u, pv);
      }
    case _ =>
  }

  /** Decoding never coerces across variants: success requires the variant the type reads. */
  lemma {:induction false} DecodeOnlyAccepted(t: Ty, pv: PointValue)
    requires Decodable(t)
    ensures !Accepts(t, pv) ==> Decode(t, pv).Err? && Decode(t, pv).error.InvalidPointValueConversion?
  {
    match t
    case OptionTy(u) =>
      DecodeOnlyAccepted(u, pv);
    case _ =>
  }

  /** A narrowing signed decode succeeds exactly when the value is in the target range. */
  lemma SignedNarrowing(t: Ty, x: i64)
    requires t.IsSigned()
    ensures Decode(t, Integer(x)).Ok? <==> MinOf(t) <= x <= MaxOf(t)
    ensures Decode(t, Integer(x)).Ok? ==> Decode(t, Integer(x)).value == IntV(x)
    ensures t.I64Ty? ==> Decode(t, Integer(x)) == Ok(IntV(x))
  {
  }

  /** A narrowing unsigned decode succeeds exactly when the value is in the target range. */
  lemma UnsignedNarrowing(t: Ty, x: u64)
    requires t.IsUnsigned()
    ensures Decode(t, UInteger(x)).Ok? <==> x <= MaxOf(t)
    ensures Decode(t, UInteger(x)).Ok? ==> Decode(t, UInteger(x)).value == IntV(x)
    ensures t.U64Ty? ==> Decode(t, UInteger(x)) == Ok(IntV(x))
  {
  }

  /** Unsigned into `i64` and signed into `bool`, for instance, are conversion errors. */
  lemma NoCrossVariantCoercion(x: i64, y: u64)
    ensures Decode(I64Ty, UInteger(y)).Err?
    ensures Decode(BoolTy, Integer(x)).Err?
    ensures Decode(U64Ty, Integer(x)).Err?
    ensures Decode(StringTy, Boolean(true)) == Err(InvalidPointValueConversion("PointValue is not a String"))
  {
  }

  /** `Option` composition: `None` encodes to `Null`, and decoding `Null` as an option never fails. */
  lemma OptionComposition(u: Ty, pv: PointValue)
    requires Decodable(u)
    ensures Encode(OptionTy(u), NoneV) == Null
    ensures Decode(OptionTy(u), Null) == Ok(NoneV)
    ensures !pv.Null? && Decode(u, pv).Ok? ==> Decode(OptionTy(u), pv) == Ok(SomeV(Decode(u, pv).value))
    ensures !pv.Null? && Decode(u, pv).Err? ==> Decode(OptionTy(u), pv) == Err(Decode(u, pv).error)
  {
    if !pv.Null? {
      var d := Decode(u, pv);
      assert Decode(OptionTy(u), pv) == if d.Ok? then Ok(SomeV(d.value)) else Err(d.error);
    }
  }

  /** `get_value::<T>` behaves as `Decode` for `Option<T>`. */
  lemma GetValueIsOptionDecode(pv: PointValue, t: Ty)
    requires Decodable(t)
    ensures GetValue(pv, t) == Ok(None) <==> Decode(OptionTy(t), pv) == Ok(NoneV)
    ensures forall x :: GetValue(pv, t) == Ok(Some(x)) <==> Decode(OptionTy(t), pv) == Ok(SomeV(x))
  {
  }

  /** A nested option does not round-trip: `Some(None)` comes back as `None`. */
  lemma NestedOptionCollapses()
    ensures Encode(OptionTy(OptionTy(I64Ty)), SomeV(NoneV)) == Null
    ensures Decode(OptionTy(OptionTy(I64Ty)), Null) == Ok(NoneV)
  {
  }
}
