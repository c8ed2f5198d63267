/**
 Scalar conversion: JSON values to stored scalars (once for table slots, once for struct bytes) and back.
 */
module Scalars {
  import opened Wrappers
  import opened Floats
  import opened Bytes
  import opened Schema
  import J = Json
  import Text

  datatype BuildError =
    | RootNotObject
    | UnknownField
    | MissingRequiredField
    | TypeMismatch
    | IntegerOutOfRange
    | UnknownEnumName
    | InvalidBase64
    | InvalidHex
    | MissingUnionDiscriminator
    | NestingTooDeep
    | Unsupported
    | Internal

  datatype ToJsonError = NonFiniteFloat | BadReflection

  /** A stored scalar: booleans are 0 and 1, floats their bits. */
  datatype Scalar = I(n: int) | F4(single: F32) | F8(double: F64)

  // JSON to numbers.

  /** `f as i64` saturates. */
  function Saturate(x: int): int {
    if x < Text.I64_MIN then Text.I64_MIN else if x > Text.I64_MAX then Text.I64_MAX else x
  }

  /** The float fallback of `decode_signed_int`: an integral value between the bounds cast to `f64`. */
  function FloatFallback(v: J.Value, min: int, max: int): Option<int>
    requires Text.I64_MIN <= min <= max <= Text.I64_MAX
  {
    match J.AsF64(v)
    case None => None
    case Some(f) =>
      match Integral(f)
      case None => None
      case Some(x) => if RoundToDouble(min) <= x <= RoundToDouble(max) then Some(Saturate(x)) else None
  }

  function DecodeSigned(v: J.Value, min: int, max: int): Result<int, BuildError>
    requires Text.I64_MIN <= min <= max <= Text.I64_MAX
  {
    var n := if J.AsI64(v).Some? then J.AsI64(v) else FloatFallback(v, min, max);
    if n.None? then Err(TypeMismatch)
    else if n.value < min || n.value > max then Err(IntegerOutOfRange)
    else Ok(n.value)
  }

  function DecodeUnsigned(v: J.Value, max: int): Result<int, BuildError> {
    match J.AsU64(v)
    case None => Err(TypeMismatch)
    case Some(n) => if n > max then Err(IntegerOutOfRange) else Ok(n)
  }

  function DecodeBool(v: J.Value): Result<bool, BuildError> {
    if v.Bool? then Ok(v.b) else Err(TypeMismatch)
  }

  function DecodeFloat(v: J.Value): Result<F64, BuildError> {
    match J.AsF64(v)
    case None => Err(TypeMismatch)
    case Some(f) => Ok(f)
  }

  /** A member name, or a raw number. */
  function DecodeEnum(v: J.Value, en: EnumDef): Result<I64, BuildError> {
    match v
    case Str(s) =>
      (match ValueOfName(en.values, s)
       case Some(n) => Ok(n)
       case None => Err(UnknownEnumName))
    case Num(_) =>
      (match J.AsI64(v)
       case Some(n) => Ok(n)
       case None => Err(TypeMismatch))
    case _ => Err(TypeMismatch)
  }

  // The table path: `encode_scalar` and `scalar_from_signed`.

  function ScalarFromSigned(st: ScalarType, n: int): Result<Scalar, BuildError> {
    match st
    case Byte | UByte | UType | Short | UShort | Int | UInt =>
      if n < MinInt(st) || n > MaxInt(st) then Err(IntegerOutOfRange) else Ok(I(n))
    case Long => Ok(I(n))
    case ULong => if n < 0 then Err(IntegerOutOfRange) else Ok(I(n))
    case Bool | Float | Double => Err(Internal)
  }

  function EncodePlain(st: ScalarType, v: J.Value): Result<Scalar, BuildError> {
    match st
    case Bool => var b :- DecodeBool(v); Ok(I(if b then 1 else 0))
    case Byte | Short | Int | Long => var n :- DecodeSigned(v, MinInt(st), MaxInt(st)); Ok(I(n))
    case UByte | UType | UShort | UInt | ULong => var n :- DecodeUnsigned(v, MaxInt(st)); Ok(I(n))
    case Float => var f :- DecodeFloat(v); Ok(F4(Narrow(f)))
    case Double => var f :- DecodeFloat(v); Ok(F8(f))
  }

  function EncodeScalar(st: ScalarType, en: Option<EnumDef>, v: J.Value): Result<Scalar, BuildError> {
    match en
    case Some(def) => var n :- DecodeEnum(v, def); ScalarFromSigned(st, n)
    case None => EncodePlain(st, v)
  }

  /** The schema default, cast to the field's type. */
  function DefaultScalar(st: ScalarType, defaultInt: int, defaultReal: F64): Scalar {
    match st
    case Bool => I(if defaultInt != 0 then 1 else 0)
    case Float => F4(Narrow(defaultReal))
    case Double => F8(defaultReal)
    case _ => I(Cast(st, defaultInt))
  }

  /** `==` on the stored type: what `push_slot` compares a value with its default by. */
  predicate SameScalar(a: Scalar, b: Scalar) {
    match (a, b)
    case (I(x), I(y)) => x == y
    case (F4(x), F4(y)) => Eq32(x, y)
    case (F8(x), F8(y)) => Eq64(x, y)
    case _ => false
  }

  // The struct path: `write_enum_scalar` and `write_scalar_no_enum`.

  /** `v.to_le_bytes()` of an integer of `size` bytes. */
  function IntBytes(n: int, size: nat): (bs: seq<byte>)
    ensures |bs| == size
  {
    LittleEndian(if n + Pow256(size) < 0 then 0 else Encode(n, size), size)
  }

  function EnumScalarBytes(st: ScalarType, n: int): (r: Result<seq<byte>, BuildError>)
    ensures r.Ok? ==> |r.value| == SizeOf(st)
  {
    match st
    case Byte | UByte | UType => if MinInt(st) <= n <= MaxInt(st) then Ok(IntBytes(n, 1)) else Err(IntegerOutOfRange)
    case Short | UShort => if MinInt(st) <= n <= MaxInt(st) then Ok(IntBytes(n, 2)) else Err(IntegerOutOfRange)
    case Int | UInt => if MinInt(st) <= n <= MaxInt(st) then Ok(IntBytes(n, 4)) else Err(IntegerOutOfRange)
    case Long => Ok(IntBytes(n, 8))
    case ULong => if 0 <= n then Ok(IntBytes(n, 8)) else Err(IntegerOutOfRange)
    case Bool | Float | Double => Err(Internal)
  }

  function PlainIntBytes(st: ScalarType, v: J.Value): (r: Result<seq<byte>, BuildError>)
    requires IsInteger(st)
    ensures r.Ok? ==> |r.value| == SizeOf(st)
  {
    match st
    case Byte => var n :- DecodeSigned(v, -0x80, 0x7F); Ok(IntBytes(n, 1))
    case UByte | UType => var n :- DecodeUnsigned(v, 0xFF); Ok(IntBytes(n, 1))
    case Short => var n :- DecodeSigned(v, -0x8000, 0x7FFF); Ok(IntBytes(n, 2))
    case UShort => var n :- DecodeUnsigned(v, 0xFFFF); Ok(IntBytes(n, 2))
    case Int => var n :- DecodeSigned(v, -0x8000_0000, 0x7FFF_FFFF); Ok(IntBytes(n, 4))
    case UInt => var n :- DecodeUnsigned(v, 0xFFFF_FFFF); Ok(IntBytes(n, 4))
    case Long => var n :- DecodeSigned(v, Text.I64_MIN, Text.I64_MAX); Ok(IntBytes(n, 8))
    case ULong => var n :- DecodeUnsigned(v, 0xFFFF_FFFF_FFFF_FFFF); Ok(IntBytes(n, 8))
  }

  function PlainScalarBytes(st: ScalarType, v: J.Value): (r: Result<seq<byte>, BuildError>)
    ensures r.Ok? ==> |r.value| == SizeOf(st)
  {
    match st
    case Bool => var b :- DecodeBool(v); Ok(if b then [1] else [0])
    case Float => var f :- DecodeFloat(v); Ok(IntBytes(Narrow(f), 4))
    case Double => var f :- DecodeFloat(v); Ok(IntBytes(f, 8))
    case _ => PlainIntBytes(st, v)
  }

  function StructScalarBytes(st: ScalarType, en: Option<EnumDef>, v: J.Value): (r: Result<seq<byte>, BuildError>)
    ensures r.Ok? ==> |r.value| == SizeOf(st)
  {
    match en
    case Some(def) => var n :- DecodeEnum(v, def); EnumScalarBytes(st, n)
    case None => PlainScalarBytes(st, v)
  }

  // Reading back.

  /** `read_scalar_at::<T>`. */
  function ReadScalar(st: ScalarType, buf: seq<byte>, loc: nat): Scalar {
    var size := SizeOf(st);
    var w := Unsigned(Window(buf, loc, size));
    match st
    case Float => F4(w % 0x1_0000_0000)
    case Double => F8(w % 0x1_0000_0000_0000_0000)
    case _ => I(if IsSigned(st) then AsSigned(w, size) else w)
  }

  /** `enum_value_to_json`: the member name, or the number when no member has the value. */
  function EnumJson(n: int, en: EnumDef): J.Value
    requires Text.I64_MIN <= n <= Text.I64_MAX
  {
    match NameOfValue(en.values, n)
    case Some(name) => J.Str(name)
    case None => J.Num(J.Int(n))
  }

  /** `v as i64` for an integer of at most 64 bits. */
  function WrapI64(n: int): (r: int)
    ensures Text.I64_MIN <= r <= Text.I64_MAX
    ensures Text.I64_MIN <= n <= Text.I64_MAX ==> r == n
  {
    TwosComplement(n % 0x1_0000_0000_0000_0000, 0x8000_0000_0000_0000)
  }

  /** `float_to_json_value`: JSON has no infinities or NaNs. */
  function FloatJson(f: F64): Result<J.Value, ToJsonError> {
    if IsFinite(f) then Ok(J.Num(J.Float(f))) else Err(NonFiniteFloat)
  }

  /** The JSON form of a stored scalar (`scalar_to_json`, `struct_scalar_to_json`). */
  function ScalarJson(st: ScalarType, en: Option<EnumDef>, sc: Scalar): Result<J.Value, ToJsonError> {
    match sc
    case F4(b) => FloatJson(Widen(b))
    case F8(b) => FloatJson(b)
    case I(n) =>
      if st.Bool? then Ok(J.Bool(n != 0))
      else if en.Some? then Ok(EnumJson(WrapI64(n), en.value))
      else if st.ULong? then Ok(J.Num(J.Int(n % 0x1_0000_0000_0000_0000)))
      else Ok(J.Num(J.Int(WrapI64(n))))
  }

  // A scalar that a slot or field of type `st` can hold.

  predicate Fits(st: ScalarType, sc: Scalar) {
    match st
    case Float => sc.F4?
    case Double => sc.F8?
    case _ => sc.I? && MinInt(st) <= sc.n <= MaxInt(st)
  }

  function ZeroScalar(st: ScalarType): (sc: Scalar)
    ensures Fits(st, sc)
  {
    match st
    case Float => F4(0)
    case Double => F8(0)
    case _ => I(0)
  }

  /** Little-endian bytes of a stored scalar. */
  function ScalarBytes(st: ScalarType, sc: Scalar): (bs: seq<byte>)
    ensures |bs| == SizeOf(st)
  {
    match sc
    case I(n) => IntBytes(n, SizeOf(st))
    case F4(b) => IntBytes(b, SizeOf(st))
    case F8(b) => IntBytes(b, SizeOf(st))
  }

  // Facts.

  lemma {:induction false} CastBounds()
    ensures RoundToDouble(Text.I64_MAX) == 0x8000_0000_0000_0000
    ensures RoundToDouble(Text.I64_MIN) == -0x8000_0000_0000_0000
  {
    hide Pow2, Log2, RoundHalfEven;
    TopBinade(Text.I64_MIN);
    MaxBinade();
    TopsRound();
  }

  /** The bounds of the smaller types are doubles. */
  lemma {:induction false} SmallBounds(st: ScalarType)
    requires IsSigned(st)
    ensures !st.Long? ==> RoundToDouble(MinInt(st)) == MinInt(st) && RoundToDouble(MaxInt(st)) == MaxInt(st)
  {
  }

  lemma {:induction false} MaxBinade()
    ensures Log2(0x7FFF_FFFF_FFFF_FFFF) == 62 && Pow2(10) == 1024
  {
    Pow2Values();
    assert Pow2(63) == 2 * Pow2(62);
    Log2Unique(0x7FFF_FFFF_FFFF_FFFF, 62);
  }

  /** `i64::MAX` rounds up to 2^63; `i64::MIN` is a double. */
  lemma {:induction false} TopsRound()
    ensures RoundHalfEven(0x7FFF_FFFF_FFFF_FFFF, 1024) == 0x20_0000_0000_0000
    ensures RoundHalfEven(0x8000_0000_0000_0000, 2048) == 0x10_0000_0000_0000
  {
  }

  lemma {:induction false} Log2Unique(a: nat, k: nat)
    requires a > 0 && Pow2(k) <= a < Pow2(k + 1)
    ensures Log2(a) == k
  {
    Log2AtLeast(a, k);
    Log2Small(a, k + 1);
  }

  /** Between 2^63 and 2^64 a double is a multiple of 2048. */
  lemma {:induction false} TopBinade(n: int)
    requires 0x8000_0000_0000_0000 <= n < 0x1_0000_0000_0000_0000 || n == Text.I64_MIN
    ensures var a := if n < 0 then -n else n;
            RoundToDouble(n) == Floats.Signed(n < 0, RoundHalfEven(a, 2048) * 2048)
  {
    var a: nat := if n < 0 then -n else n;
    assert Log2(a) == 63 by {
      Pow2Values();
      Log2Unique(a, 63);
    }
    assert Pow2(11) == 2048;
  }

  /** What `encode_scalar` accepts fits the field's type. */
  lemma {:induction false} EncodedFits(st: ScalarType, en: Option<EnumDef>, v: J.Value)
    requires EncodeScalar(st, en, v).Ok?
    ensures Fits(st, EncodeScalar(st, en, v).value)
  {
    hide FloatFallback, Narrow, OfInt;
  }

  lemma {:induction false} DefaultFits(st: ScalarType, defaultInt: int, defaultReal: F64)
    ensures Fits(st, DefaultScalar(st, defaultInt, defaultReal))
  {
    if IsInteger(st) {
      CastRange(st, defaultInt);
    }
  }

  lemma {:induction false} IntBytesRoundTrip(n: int, size: nat)
    requires size in {1, 2, 4, 8}
    requires 0 <= 2 * n + Pow256(size) && n < Pow256(size)
    ensures Unsigned(IntBytes(n, size)) == Encode(n, size)
    ensures 2 * n < Pow256(size) ==> AsSigned(Unsigned(IntBytes(n, size)), size) == n
    ensures 0 <= n ==> Unsigned(IntBytes(n, size)) == n
  {
    LittleEndianRoundTrip(Encode(n, size), size);
  }

  /** Reading the bytes of a stored scalar back gives the scalar, wherever they lie. */
  lemma {:induction false} ReadScalarBytes(st: ScalarType, sc: Scalar, buf: seq<byte>, loc: nat)
    requires Fits(st, sc) && Window(buf, loc, SizeOf(st)) == ScalarBytes(st, sc)
    ensures ReadScalar(st, buf, loc) == sc
  {
    hide Encode, AsSigned, Unsigned, Window, IntBytes, Pow256;
    match sc
    case I(n) => IntegerBytes(st, n);
    case F4(b) =>
      Pow256Values();
      WordBytes(b, 4);
    case F8(b) =>
      Pow256Values();
      WordBytes(b, 8);
  }

  lemma {:induction false} IntegerBytes(st: ScalarType, n: int)
    requires !st.Float? && !st.Double? && MinInt(st) <= n <= MaxInt(st)
    ensures var w := Unsigned(IntBytes(n, SizeOf(st))); n == if IsSigned(st) then AsSigned(w, SizeOf(st)) else w
  {
    hide Encode, AsSigned, Unsigned, IntBytes, Pow256;
    Pow256Values();
    IntBytesRoundTrip(n, SizeOf(st));
  }

  lemma {:induction false} WordBytes(b: nat, size: nat)
    requires size in {4, 8} && b < Pow256(size)
    ensures Unsigned(IntBytes(b, size)) == b
  {
    IntBytesRoundTrip(b, size);
  }

  /** The table encoder and the struct writer accept the same values, fail alike, and store the same number. */
  lemma {:induction false} TableAndStructAgree(st: ScalarType, en: Option<EnumDef>, v: J.Value)
    ensures StructScalarBytes(st, en, v) ==
            match EncodeScalar(st, en, v)
            case Ok(sc) => Ok(ScalarBytes(st, sc))
            case Err(e) => Err(e)
  {
    hide DecodeSigned, DecodeUnsigned, DecodeFloat, DecodeEnum, Narrow;
    if en.None? && st.Bool? && v.Bool? {
      assert LittleEndian(0, 1) == [0] && LittleEndian(1, 1) == [1] by { assert LittleEndian(0, 0) == []; }
    }
  }

  /** JSON integers that round to 2^63 when cast to `f64`. */
  predicate InLongBand(n: int) {
    0x8000_0000_0000_0000 <= n <= 0x8000_0000_0000_0400
  }

  /**
   A plain integer field accepts a JSON integer exactly when it is in range, and stores it unchanged;
   the one exception is a `long`, which also takes the band just above its range and stores i64::MAX.
   */
  lemma {:induction false} IntegersAreExact(st: ScalarType, n: J.JsonInt)
    requires IsInteger(st)
    ensures var r := EncodeScalar(st, None, J.Num(J.Int(n)));
            && (r.Ok? <==> MinInt(st) <= n <= MaxInt(st) || (st.Long? && InLongBand(n)))
            && (r.Ok? ==> r.value == I(if st.Long? && InLongBand(n) then Text.I64_MAX else n))
  {
    if IsSigned(st) {
      SignedAreExact(st, n);
    }
  }

  lemma {:induction false} SignedAreExact(st: ScalarType, n: J.JsonInt)
    requires IsSigned(st)
    ensures DecodeSigned(J.Num(J.Int(n)), MinInt(st), MaxInt(st)) ==
            if MinInt(st) <= n <= MaxInt(st) then Ok(n)
            else if st.Long? && InLongBand(n) then Ok(Text.I64_MAX)
            else if n <= Text.I64_MAX then Err(IntegerOutOfRange)
            else Err(TypeMismatch)
  {
    hide Integral, RoundToDouble, OfInt, RoundHalfEven;
    if n > Text.I64_MAX {
      OfIntValue(n);
      TopBinade(n);
      BandRounding(n);
      SmallBounds(st);
      CastBounds();
    }
  }

  lemma {:induction false} BandRounding(n: int)
    requires 0x8000_0000_0000_0000 <= n < 0x1_0000_0000_0000_0000
    ensures RoundHalfEven(n, 2048) * 2048 >= 0x8000_0000_0000_0000
    ensures RoundHalfEven(n, 2048) * 2048 <= 0x8000_0000_0000_0000 <==> InLongBand(n)
  {
  }

  /** An integer written as a JSON float (`5.0`) is taken at its exact value. */
  lemma {:induction false} IntegralFloatsAreExact(st: ScalarType, f: FiniteF64)
    requires IsSigned(st)
    ensures var r := EncodeScalar(st, None, J.Num(J.Float(f)));
            && (r.Ok? ==>
                  && Integral(f).Some?
                  && var n := Integral(f).value;
                     r.value == I(if n == 0x8000_0000_0000_0000 then 0x7FFF_FFFF_FFFF_FFFF else n))
            && (r.Ok? <==> Integral(f).Some? && (MinInt(st) <= Integral(f).value <= MaxInt(st)
                                                 || (st.Long? && Integral(f).value == 0x8000_0000_0000_0000)))
  {
    hide Integral, RoundToDouble, OfInt;
    SmallBounds(st);
    CastBounds();
  }

  /** Only `true` and `false` are taken for a bool. */
  lemma {:induction false} BoolsAreExact(v: J.Value)
    ensures EncodeScalar(Bool, None, v) ==
            if v == J.Bool(true) then Ok(I(1)) else if v == J.Bool(false) then Ok(I(0)) else Err(TypeMismatch)
  {
  }

  /**
   An enum takes the name of a member, for the value of the first member so called, and any JSON integer
   within `i64`; both must be in the type's range. Nothing else is taken.
   */
  lemma {:induction false} EnumsAreExact(st: ScalarType, en: EnumDef, v: J.Value) returns (e: Option<EnumVal>)
    requires IsInteger(st)
    ensures IsFirst(en.values, (x: EnumVal) => v == J.Str(x.name), e)
    ensures var n := if e.Some? then Some(e.value.value as int)
                     else if v.Num? && v.num.Int? && v.num.n < 0x8000_0000_0000_0000 then Some(v.num.n as int)
                       else None;
            EncodeScalar(st, Some(en), v) ==
            if n.None? then Err(if v.Str? then UnknownEnumName else TypeMismatch)
            else if MinInt(st) <= n.value <= MaxInt(st) then Ok(I(n.value))
            else Err(IntegerOutOfRange)
  {
    e := None;
    if v.Str? {
      e := ValueIsNamed(en.values, v.s);
      SameFirst(en.values, v.s, v, e);
    }
  }

  lemma {:induction false} SameFirst(values: seq<EnumVal>, name: string, v: J.Value, e: Option<EnumVal>)
    requires v == J.Str(name) && IsFirst(values, (x: EnumVal) => x.name == name, e)
    ensures IsFirst(values, (x: EnumVal) => v == J.Str(x.name), e)
  {
    if e.Some? {
      var i :| 0 <= i < |values| && values[i] == e.value && values[i].name == name
        && forall j :: 0 <= j < i ==> values[j].name != name;
    }
  }

  /** A float takes every number and nothing else: a `double` the nearest one, a `float` that narrowed. */
  lemma {:induction false} FloatsAreExact(v: J.Value)
    ensures var f := if !v.Num? then None else if v.num.Int? then Some(OfInt(v.num.n)) else Some(v.num.f);
            && EncodeScalar(Double, None, v) == (if f.Some? then Ok(F8(f.value)) else Err(TypeMismatch))
            && EncodeScalar(Float, None, v) == (if f.Some? then Ok(F4(Narrow(f.value))) else Err(TypeMismatch))
  {
    hide OfInt, Narrow;
  }

  /**
   A stored integer is shown as that number, a bool as whether it is not zero, an enum's by the first name of its
   number as an `i64`, or as that number.
   */
  lemma {:induction false} ShownExactly(st: ScalarType, n: int, en: EnumDef) returns (e: Option<EnumVal>)
    requires Fits(st, I(n))
    ensures IsInteger(st) ==> ScalarJson(st, None, I(n)) == Ok(J.Num(J.Int(n)))
    ensures st.Bool? ==> ScalarJson(st, None, I(n)) == ScalarJson(st, Some(en), I(n)) == Ok(J.Bool(n == 1))
    ensures var k := if n < 0x8000_0000_0000_0000 then n else n - 0x1_0000_0000_0000_0000;
            && IsFirst(en.values, (x: EnumVal) => x.value == k, e)
            && (IsInteger(st) ==>
                  ScalarJson(st, Some(en), I(n)) == Ok(if e.Some? then J.Str(e.value.name) else J.Num(J.Int(k))))
  {
    e := NameIsValues(en.values, if n < 0x8000_0000_0000_0000 then n else n - 0x1_0000_0000_0000_0000);
  }

  predicate ShowsFloat(r: Result<J.Value, ToJsonError>, f: F64, finite: bool) {
    if finite then r.Ok? && r.value.Num? && r.value.num.Float? && r.value.num.f == f else r == Err(NonFiniteFloat)
  }

  /** A stored float is shown as the number it is, or not at all. */
  lemma {:induction false} FloatsShown(b: F32, d: F64)
    ensures ShowsFloat(ScalarJson(Float, None, F4(b)), Widen(b), Exp32(b) < 255)
    ensures ShowsFloat(ScalarJson(Double, None, F8(d)), d, Exp64(d) < 2047)
  {
    hide Widen, Exp32, Exp64;
    WidenFinite(b);
  }
}
