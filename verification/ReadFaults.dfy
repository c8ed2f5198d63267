/**
 What `to_json` cannot show of a document that `from_json` accepts.

 The faults of a document are listed in the order in which the reader meets them: a number that a `float`
 field cannot hold, a missing float field whose default is not finite, and a union left out that has no
 variant for NONE. An accepted document without faults converts back; with faults, the first is the error.
 */
module ReadFaults {
  import opened Wrappers
  import opened Bytes
  import opened Floats
  import opened Schema
  import opened Scalars
  import opened Buffer
  import opened StructJson
  import opened StructLayout
  import opened Blobs
  import opened KeyText
  import opened FromJson
  import opened ToJson
  import opened WritePhase
  import opened Canon
  import R = RoundTrip
  import SL = SugarLookup
  import J = Json

  type Faults = seq<ToJsonError>

  // The faults of a document.

  /** A number whose magnitude rounds past the largest `f32`. */
  function ScalarFaults(st: ScalarType, x: J.Value): Faults {
    if st.Float? && J.AsF64(x).Some? && Magnitude(J.AsF64(x).value) >= F32_OVERFLOW then [NonFiniteFloat] else []
  }

  function DefaultFaults(f: Field): Faults
    requires f.typ.Scalar?
  {
    if f.typ.st.Float? && Magnitude(f.defaultReal) >= F32_OVERFLOW then [NonFiniteFloat]
    else if f.typ.st.Double? && !IsFinite(f.defaultReal) then [NonFiniteFloat]
    else []
  }

  function StructFaults(v: J.Value, def: StructDef): Faults
    decreases def, 1, 0
  {
    ByIdIsWithin(def);
    if v.Obj? then StructFieldsFaults(v.m, StructById(def.fields), def) else []
  }

  function StructFieldsFaults(m: map<string, J.Value>, todo: seq<StructField>, ghost within: StructDef): Faults
    requires forall f :: f in todo ==> f in within.fields
    decreases within, 0, |todo|
  {
    if todo == [] then []
    else
      assert todo[0] in within.fields;
      (if todo[0].name in m then StructFieldFaults(todo[0].typ, m[todo[0].name]) else []) +
        StructFieldsFaults(m, todo[1..], within)
  }

  function StructFieldFaults(t: StructFieldType, v: J.Value): Faults
    decreases t, 2, 0
  {
    match t
    case SScalar(st, _) => ScalarFaults(st, v)
    case SStruct(d) => StructFaults(v, d)
    case _ => if v.Arr? then ElementFaults(t, v.items) else []
  }

  function ElementFaults(t: StructFieldType, items: seq<J.Value>): Faults
    requires t.SScalarArray? || t.SStructArray?
    decreases t, 1, |items|
  {
    if items == [] then []
    else
      ElementFaults(t, items[..|items| - 1]) +
      match t
      case SScalarArray(st, _) => ScalarFaults(st, items[|items| - 1])
      case SStructArray(d, _) => StructFaults(items[|items| - 1], d)
  }

  function TableFaults(v: J.Value, t: nat, s: Schema): Faults
    decreases J.Height(v), 3, 0
  {
    if v.Obj? then FieldsFaults(v, ById(TableAt(s, t).fields), TableAt(s, t).fields, s) else []
  }

  function FieldsFaults(v: J.Value, todo: seq<Field>, fields: seq<Field>, s: Schema): Faults
    requires v.Obj?
    decreases J.Height(v), 2, |todo|
  {
    if todo == [] then [] else FieldFaults(v, todo[0], fields, s) + FieldsFaults(v, todo[1..], fields, s)
  }

  function FieldFaults(v: J.Value, f: Field, fields: seq<Field>, s: Schema): Faults
    requires v.Obj?
    decreases J.Height(v), 1, 0
  {
    if IsDiscriminator(f, fields) then []
    else if f.typ.Union? then UnionFaults(v, f, s)
    else
      match J.Present(v.m, f.name)
      case None => if f.typ.Scalar? then DefaultFaults(f) else []
      case Some(x) =>
        J.MemberHeight(v.m, f.name);
        ValueFaults(x, f, s)
  }

  function ValueFaults(x: J.Value, f: Field, s: Schema): Faults
    decreases J.Height(x), 4, 0
  {
    match f.typ
    case Scalar(st, _) => ScalarFaults(st, x)
    case Struct(def) => StructFaults(x, def)
    case Table(t) => TableFaults(x, t, s)
    case Vector(el) => VectorFaults(x, el, s)
    case _ => []
  }

  /** A union left out shows its NONE variant. */
  function UnionFaults(v: J.Value, f: Field, s: Schema): Faults
    requires v.Obj? && f.typ.Union?
    decreases J.Height(v), 0, 0
  {
    var tag := DiscKey(f.name);
    if tag !in v.m then (if VariantByValue(f.typ.variants, 0).None? then [BadReflection] else [])
    else if !v.m[tag].Str? then []
    else
      match VariantByName(f.typ.variants, v.m[tag].s)
      case None => []
      case Some(variant) =>
        if variant.value == 0 || variant.typ.None? || f.name !in v.m then []
        else
          J.MemberHeight(v.m, f.name);
          VariantFaults(v.m[f.name], variant.typ.value, s)
  }

  function VariantFaults(x: J.Value, t: VariantType, s: Schema): Faults
    decreases J.Height(x), 4, 0
  {
    match t
    case VTable(i) => TableFaults(x, i, s)
    case VStruct(def) => StructFaults(x, def)
    case VString => []
  }

  function VectorFaults(x: J.Value, el: ElementType, s: Schema): Faults
    decreases J.Height(x), 3, 0
  {
    match el
    case EScalar(st, _) => if x.Arr? then ScalarsFaults(x.items, st) else []
    case EStruct(def) => if x.Arr? then StructsFaults(x.items, def) else []
    case ETable(t) =>
      var kf := KeyedField(TableAt(s, t).fields);
      if kf.Some? && (x.Arr? || x.Obj?) && CanonInput(x, kf.value).Ok? then TablesFaults(CanonInput(x, kf.value).value,
        t, s, J.Height(x))
      else if kf.None? && x.Arr? then
        ItemHeights(x);
        TablesFaults(x.items, t, s, J.Height(x))
      else []
    case _ => []
  }

  function ScalarsFaults(items: seq<J.Value>, st: ScalarType): Faults {
    if items == [] then [] else ScalarsFaults(items[..|items| - 1], st) + ScalarFaults(st, items[|items| - 1])
  }

  function StructsFaults(items: seq<J.Value>, def: StructDef): Faults {
    if items == [] then [] else StructsFaults(items[..|items| - 1], def) + StructFaults(items[|items| - 1], def)
  }

  function TablesFaults(rows: seq<J.Value>, t: nat, s: Schema, ghost bound: nat): Faults
    requires forall i :: 0 <= i < |rows| ==> J.Height(rows[i]) < bound
    decreases bound, 1, |rows|
  {
    if rows == [] then [] else TablesFaults(rows[..|rows| - 1], t, s, bound) + TableFaults(rows[|rows| - 1], t, s)
  }

  /** Success without faults, and otherwise the first fault. */
  predicate Faulted<T>(r: Result<T, ToJsonError>, faults: Faults) {
    if faults == [] then r.Ok? else r == Err(faults[0])
  }

  // Scalars and structs.

  lemma {:induction false} IntegersAreFinite(n: J.JsonInt)
    ensures IsFinite(OfInt(n))
  {
    hide OfInt, RoundToDouble, Pow2;
    OfIntValue(n);
  }

  lemma {:induction false} ScalarFaulted(st: ScalarType, en: Option<EnumDef>, x: J.Value)
    requires EncodeScalar(st, en, x).Ok?
    ensures Faulted(ScalarJson(st, en, EncodeScalar(st, en, x).value), ScalarFaults(st, x))
  {
    hide Narrow, Widen, OfInt, FloatFallback, IsFinite, IsFinite32, Magnitude, NameOfValue, ValueOfName;
    EncodedFits(st, en, x);
    if x.Num? && x.num.Int? { IntegersAreFinite(x.num.n); }
    if st.Float? {
      var f := J.AsF64(x).value;
      WidenFinite(Narrow(f));
      NarrowFinite(f);
    }
  }

  /** A value and its default are finite together when they are the same number. */
  lemma {:induction false} EffectiveFaulted(st: ScalarType, en: Option<EnumDef>, sc: Scalar, d: Scalar, faults: Faults)
    requires Faulted(ScalarJson(st, en, sc), faults) && |faults| <= 1 && (faults != [] ==> faults[0].NonFiniteFloat?)
    ensures Faulted(ScalarJson(st, en, Effective(sc, d)), faults)
  {
    hide Widen, NameOfValue;
    match (sc, d) {
      case (F4(a), F4(b)) =>
        WidenFinite(a);
        WidenFinite(b);
      case _ =>
    }
  }

  lemma {:induction false} DefaultFaulted(f: Field)
    requires f.typ.Scalar?
    ensures Faulted(ScalarJson(f.typ.st, f.typ.en, DefaultScalar(f.typ.st, f.defaultInt, f.defaultReal)),
      DefaultFaults(f))
  {
    hide Narrow, Widen, IsFinite, IsFinite32, Magnitude, NameOfValue, Cast;
    WidenFinite(Narrow(f.defaultReal));
    NarrowFinite(f.defaultReal);
  }

  lemma {:induction false} Then<T, U>(a: Result<T, ToJsonError>, fa: Faults, b: Result<U, ToJsonError>, fb: Faults,
                                      r: Result<U, ToJsonError>)
    requires Faulted(a, fa) && (a.Ok? ==> Faulted(b, fb))
    requires if a.Err? then r == Err(a.error) else if b.Err? then r == Err(b.error) else r.Ok?
    ensures Faulted(r, fa + fb)
  {
  }

  lemma {:induction false} CanonScalarFaulted(st: ScalarType, en: Option<EnumDef>, x: J.Value)
    requires EncodeScalar(st, en, x).Ok?
    ensures Faulted(CanonScalar(st, en, x), ScalarFaults(st, x))
  {
    hide EncodeScalar, ScalarJson, ScalarFaults;
    ScalarFaulted(st, en, x);
  }

  /** Every field of a struct that was written is there and was accepted. */
  lemma {:induction false} FilledField(m: map<string, J.Value>, fields: seq<StructField>, buf: seq<byte>,
                                       f: StructField)
    requires FillFields(m, fields, buf).Ok? && f in fields
    ensures f.name in m && FieldBytes(f.typ, m[f.name]).Ok?
    decreases |fields|
  {
    hide FieldBytes, Splice;
    if f != fields[0] {
      FilledField(m, fields[1..], Splice(buf, fields[0].offset,
        FieldBytes(fields[0].typ, J.Present(m, fields[0].name).value).value), f);
    }
  }

  lemma {:induction false} StructFaulted(v: J.Value, def: StructDef)
    requires StructBytes(v, def).Ok?
    ensures Faulted(CanonStruct(v, def), StructFaults(v, def))
    decreases def, 3, 0
  {
    hide CanonFields, StructById, FieldBytes, StructFieldsFaults, FillFields;
    ByIdIsWithin(def);
    forall f | f in StructById(def.fields) ensures f.name in v.m && FieldBytes(f.typ, v.m[f.name]).Ok? {
      FilledField(v.m, def.fields, Zeros(def.bytesize), f);
    }
    StructFieldsFaulted(v.m, StructById(def.fields), map[], def);
  }

  lemma {:induction false} StructFieldsFaulted(m: map<string, J.Value>, todo: seq<StructField>, acc: map<string,
                                               J.Value>, within: StructDef)
    requires forall f :: f in todo ==> f in within.fields && f.name in m && FieldBytes(f.typ, m[f.name]).Ok?
    ensures Faulted(CanonFields(m, todo, acc, within), StructFieldsFaults(m, todo, within))
    decreases within, 2, |todo|
  {
    hide CanonField, FieldBytes, StructFieldFaults;
    if todo != [] {
      var f := todo[0];
      assert f in within.fields && f.typ < within;
      var j := CanonField(f.typ, m[f.name]);
      StructFieldFaulted(f.typ, m[f.name]);
      if j.Ok? {
        var rest := CanonFields(m, todo[1..], acc[f.name := j.value], within);
        StructFieldsFaulted(m, todo[1..], acc[f.name := j.value], within);
        Then(j, StructFieldFaults(f.typ, m[f.name]), rest, StructFieldsFaults(m, todo[1..], within), rest);
      }
    }
  }

  lemma {:induction false} StructFieldFaulted(t: StructFieldType, v: J.Value)
    requires FieldBytes(t, v).Ok?
    ensures Faulted(CanonField(t, v), StructFieldFaults(t, v))
    decreases t, 4, 0
  {
    hide CanonStruct, CanonScalar, CanonElements, ElementBytes, StructScalarBytes, EncodeScalar, StructBytes,
      StructFaults, ScalarFaults, ElementFaults;
    match t {
      case SScalar(st, en) =>
        TableAndStructAgree(st, en, v);
        CanonScalarFaulted(st, en, v);
      case SStruct(d) => StructFaulted(v, d);
      case _ => ElementsFaulted(t, v.items);
    }
  }

  lemma {:induction false} ElementsFaulted(t: StructFieldType, items: seq<J.Value>)
    requires (t.SScalarArray? || t.SStructArray?) && ElementBytes(t, items).Ok?
    ensures Faulted(CanonElements(t, items), ElementFaults(t, items))
    decreases t, 3, |items|
  {
    hide CanonStruct, CanonScalar, StructScalarBytes, PlainScalarBytes, EncodeScalar, StructBytes, StructFaults,
      ScalarFaults;
    if items != [] {
      var n := |items| - 1;
      ElementsFaulted(t, items[..n]);
      match t {
        case SScalarArray(st, _) =>
          TableAndStructAgree(st, None, items[n]);
          PlainIsStruct(st, items[n]);
          CanonScalarFaulted(st, None, items[n]);
        case SStructArray(d, _) => StructFaulted(items[n], d);
      }
    }
  }

  lemma {:induction false} PlainIsStruct(st: ScalarType, v: J.Value)
    ensures StructScalarBytes(st, None, v) == PlainScalarBytes(st, v)
  {
    hide PlainScalarBytes;
  }

  // Tables.

  /** An accepted document converts back exactly if it has no faults; otherwise the error is its first fault. */
  lemma {:induction false} TableFaulted(v: J.Value, t: nat, s: Schema, depth: nat, o: Options, rd: KeyReader)
    requires EncTable(v, t, s, depth, o).Ok?
    ensures Faulted(CanonTable(v, t, s, rd), TableFaults(v, t, s))
    decreases J.Height(v), 6, 0
  {
    hide *;
    R.TableParts(v, t, s, depth, o);
    var fields := TableAt(s, t).fields;
    R.ByIdMembers(fields);
    FieldsFaulted(v, t, s, depth, o, rd, ById(fields), map[]);
    OfMembers(v, t, s, rd);
  }

  lemma {:induction false} OfMembers(v: J.Value, t: nat, s: Schema, rd: KeyReader)
    requires v.Obj?
    requires var fields := TableAt(s, t).fields;
      Faulted(CanonMembers(v, ById(fields), fields, map[], s, rd), FieldsFaults(v, ById(fields), fields, s))
    ensures Faulted(CanonTable(v, t, s, rd), TableFaults(v, t, s))
  {
    hide CanonMembers, ById, TableAt, FieldsFaults;
  }

  lemma {:induction false} FieldsFaulted(v: J.Value, t: nat, s: Schema, depth: nat, o: Options, rd: KeyReader,
                                         todo: seq<Field>, acc: map<string, J.Value>)
    requires EncTable(v, t, s, depth, o).Ok? && v.Obj? && forall f :: f in todo ==> f in TableAt(s, t).fields
    ensures Faulted(CanonMembers(v, todo, TableAt(s, t).fields, acc, s, rd),
      FieldsFaults(v, todo, TableAt(s, t).fields, s))
    decreases J.Height(v), 5, |todo|
  {
    hide EncTable, CanonMember, TableAt, EncField, FieldFaults;
    if todo != [] {
      var fields := TableAt(s, t).fields;
      assert todo[0] in fields;
      var k :| 0 <= k < |fields| && fields[k] == todo[0];
      SL.FieldsOfTable(v, t, s, depth, o, k);
      var head := CanonMember(v, todo[0], fields, acc, s, rd);
      FieldFaulted(v, todo[0], fields, s, depth, o, rd, acc);
      if head.Ok? {
        var rest := CanonMembers(v, todo[1..], fields, head.value, s, rd);
        FieldsFaulted(v, t, s, depth, o, rd, todo[1..], head.value);
        Then(head, FieldFaults(v, todo[0], fields, s), rest, FieldsFaults(v, todo[1..], fields, s), rest);
      }
    }
  }

  lemma {:induction false} FieldFaulted(v: J.Value, f: Field, fields: seq<Field>, s: Schema, depth: nat, o: Options,
                                        rd: KeyReader, acc: map<string, J.Value>)
    requires v.Obj? && EncField(v, f, s, depth, o).Ok?
    ensures Faulted(CanonMember(v, f, fields, acc, s, rd), FieldFaults(v, f, fields, s))
    decreases J.Height(v), 4, 0
  {
    hide EncUnion, EncPresent, CanonUnion, CanonValue, ScalarJson, DefaultScalar, IsDiscriminator, UnionFaults,
      ValueFaults, DefaultFaults, J.Height;
    if IsDiscriminator(f, fields) {
    } else if f.typ.Union? {
      UnionFaulted(v, f, s, depth + 1, o, rd, acc);
    } else {
      match J.Present(v.m, f.name) {
        case None => if f.typ.Scalar? { DefaultFaulted(f); }
        case Some(x) =>
          J.MemberHeight(v.m, f.name);
          ValueFaulted(x, f, s, depth, o, rd);
      }
    }
  }

  lemma {:induction false} ValueFaulted(x: J.Value, f: Field, s: Schema, depth: nat, o: Options, rd: KeyReader)
    requires !f.typ.Union? && EncPresent(x, f, s, depth, o).Ok?
    ensures Faulted(CanonValue(x, f, s, rd), ValueFaults(x, f, s))
    decreases J.Height(x), 7, 0
  {
    hide EncTable, EncVector, CanonTable, CanonVector, CanonStruct, EncodeScalar, ScalarJson, DefaultScalar, Effective,
      J.Height, TableFaults, VectorFaults,
      StructFaults, StructBytes;
    match f.typ {
      case Scalar(st, en) =>
        ScalarFaulted(st, en, x);
        EffectiveFaulted(st, en, EncodeScalar(st, en, x).value, DefaultScalar(st, f.defaultInt, f.defaultReal),
          ScalarFaults(st, x));
      case Struct(def) => StructFaulted(x, def);
      case Table(t) => TableFaulted(x, t, s, depth + 1, o, rd);
      case Vector(el) => VectorFaulted(x, el, f.hex, s, depth + 1, o, rd);
      case _ =>
    }
  }

  lemma {:induction false} UnionFaulted(v: J.Value, f: Field, s: Schema, depth: nat, o: Options, rd: KeyReader,
                                        acc: map<string, J.Value>)
    requires v.Obj? && f.typ.Union? && EncUnion(v, f.name, f.typ.variants, s, depth, o).Ok?
    ensures Faulted(CanonUnion(v, f, acc, s, rd), UnionFaults(v, f, s))
    decreases J.Height(v), 3, 0
  {
    hide EncVariant, CanonVariant, VariantByName, VariantByValue, VariantFaults, J.Height;
    var tag := DiscKey(f.name);
    if tag in v.m {
      var variant := VariantByName(f.typ.variants, v.m[tag].s).value;
      if variant.value != 0 {
        J.MemberHeight(v.m, f.name);
        VariantFaulted(v.m[f.name], variant.typ.value, s, depth, o, rd);
      }
    }
  }

  lemma {:induction false} VariantFaulted(x: J.Value, t: VariantType, s: Schema, depth: nat, o: Options, rd: KeyReader)
    requires EncVariant(x, t, s, depth, o).Ok?
    ensures Faulted(CanonVariant(x, t, s, rd), VariantFaults(x, t, s))
    decreases J.Height(x), 7, 0
  {
    hide EncTable, CanonTable, CanonStruct, TableFaults, StructFaults, StructBytes, J.Height;
    match t {
      case VTable(i) => TableFaulted(x, i, s, depth, o, rd);
      case VStruct(def) => StructFaulted(x, def);
      case VString =>
    }
  }

  // Vectors.

  lemma {:induction false} VectorFaulted(x: J.Value, el: ElementType, hex: bool, s: Schema, depth: nat, o: Options,
                                         rd: KeyReader)
    requires EncVector(x, el, hex, s, depth, o).Ok?
    ensures Faulted(CanonVector(x, el, hex, s, rd), VectorFaults(x, el, s))
    decreases J.Height(x), 6, 0
  {
    hide EncTables, EncKeyed, EncScalars, EncStrings, EncStructs, EncBlob, CanonBlob, CanonScalars, CanonStructs,
      CanonTables, CanonRows, CanonInput, TableAt,
      KeyedField, TablesFaults, ScalarsFaults, StructsFaults, J.Height;
    if IsBlob(el) {
      BlobIsFine(x, hex);
      if x.Arr? { BytesAreFine(x.items, el.st); }
    } else {
      match el {
        case EScalar(st, en) => ScalarsFaulted(x.items, st, ElementEnum(st, en));
        case EStruct(def) => StructsFaulted(x.items, def);
        case ETable(t) => TablesInVector(x, t, hex, s, depth, o, rd);
        case _ =>
      }
    }
  }

  lemma {:induction false} BlobIsFine(x: J.Value, hex: bool)
    requires EncBlob(x, hex).Ok?
    ensures CanonBlob(x, hex).Ok?
  {
    hide ParseBlob, BlobText, EncByteItems;
  }

  lemma {:induction false} BytesAreFine(items: seq<J.Value>, st: ScalarType)
    requires !st.Float?
    ensures ScalarsFaults(items, st) == []
  {
    if items != [] { BytesAreFine(items[..|items| - 1], st); }
  }

  lemma {:induction false} ScalarsFaulted(items: seq<J.Value>, st: ScalarType, en: Option<EnumDef>)
    requires EncScalars(items, st, en).Ok?
    ensures Faulted(CanonScalars(items, st, en), ScalarsFaults(items, st))
  {
    hide CanonScalar, EncodeScalar, ScalarFaults;
    if items != [] {
      var n := |items| - 1;
      ScalarsFaulted(items[..n], st, en);
      CanonScalarFaulted(st, en, items[n]);
    }
  }

  lemma {:induction false} StructsFaulted(items: seq<J.Value>, def: StructDef)
    requires EncStructs(items, def).Ok?
    ensures Faulted(CanonStructs(items, def), StructsFaults(items, def))
  {
    hide CanonStruct, StructBytes, StructFaults;
    if items != [] {
      var n := |items| - 1;
      StructsFaulted(items[..n], def);
      StructFaulted(items[n], def);
    }
  }

  lemma {:induction false} TablesInVector(x: J.Value, t: nat, hex: bool, s: Schema, depth: nat, o: Options,
                                          rd: KeyReader)
    requires EncVector(x, ETable(t), hex, s, depth, o).Ok?
    ensures Faulted(CanonVector(x, ETable(t), hex, s, rd), VectorFaults(x, ETable(t), s))
    decreases J.Height(x), 5, 0
  {
    hide *;
    R.VectorOfTables(x, t, hex, s, depth, o);
    var kf := KeyedField(TableAt(s, t).fields);
    var rows := R.TableInput(x, kf).value;
    var d := if x.Obj? then depth + 2 else depth + 1;
    if kf.Some? {
      RowsFaulted(rows, kf.value, t, s, d, o, rd, J.Height(x));
    } else {
      TablesFaulted(rows, t, s, d, o, rd, J.Height(x));
    }
    OfTables(x, rows, t, hex, s, rd);
  }

  lemma {:induction false} OfTables(x: J.Value, rows: seq<J.Value>, t: nat, hex: bool, s: Schema, rd: KeyReader)
    requires forall i :: 0 <= i < |rows| ==> J.Height(rows[i]) < J.Height(x)
    requires var kf := KeyedField(TableAt(s, t).fields);
      (x.Arr? || (x.Obj? && kf.Some?)) && (if kf.Some? then CanonInput(x, kf.value) == Ok(rows)
        else x.Arr? && rows == x.items)
    requires var kf := KeyedField(TableAt(s, t).fields);
      if kf.Some? then Faulted(CanonRows(rows, kf.value, t, s, rd, J.Height(x)), TablesFaults(rows, t, s, J.Height(x)))
      else Faulted(CanonTables(rows, t, s, rd, J.Height(x)), TablesFaults(rows, t, s, J.Height(x)))
    ensures Faulted(CanonVector(x, ETable(t), hex, s, rd), VectorFaults(x, ETable(t), s))
  {
    hide CanonTables, CanonRows, CanonInput, TablesFaults, KeyedField, TableAt, J.Height;
  }

  lemma {:induction false} TablesFaulted(rows: seq<J.Value>, t: nat, s: Schema, depth: nat, o: Options, rd: KeyReader,
                                         bound: nat)
    requires (forall i :: 0 <= i < |rows| ==> J.Height(rows[i]) < bound) && EncTables(rows, t, s, depth, o, bound).Ok?
    ensures Faulted(CanonTables(rows, t, s, rd, bound), TablesFaults(rows, t, s, bound))
    decreases bound, 1, |rows|
  {
    hide EncTable, CanonTable, TableFaults, J.Height;
    if rows != [] {
      var n := |rows| - 1;
      TablesFaulted(rows[..n], t, s, depth, o, rd, bound);
      TableFaulted(rows[n], t, s, depth, o, rd);
    }
  }

  lemma {:induction false} RowsFaulted(rows: seq<J.Value>, kf: Field, t: nat, s: Schema, depth: nat, o: Options,
                                       rd: KeyReader, bound: nat)
    requires (forall i :: 0 <= i < |rows| ==> J.Height(rows[i]) < bound) && EncTables(rows, t, s, depth, o, bound).Ok?
    ensures Faulted(CanonRows(rows, kf, t, s, rd, bound), TablesFaults(rows, t, s, bound))
    decreases bound, 1, |rows|
  {
    hide EncTable, CanonTable, TableFaults, DocumentKey, J.Height;
    if rows != [] {
      var n := |rows| - 1;
      RowsFaulted(rows[..n], kf, t, s, depth, o, rd, bound);
      TableFaulted(rows[n], t, s, depth, o, rd);
    }
  }

  // One document for each fault.

  /** `table T { x: <typ> = <default>; }`. */
  function OneField(typ: FieldType, defaultInt: I64, defaultReal: F64): Schema {
    Schema([TableDef("T", [Field("x", 0, 4, typ, defaultInt, defaultReal, false, false, false)])])
  }

  const INFINITY: F64 := 0x7FF0_0000_0000_0000

  const TWO_TO_128: FiniteF64 := 0x47F0_0000_0000_0000

  lemma {:induction false} OneFieldTable(typ: FieldType, defaultInt: I64, defaultReal: F64)
    ensures var fields := TableAt(OneField(typ, defaultInt, defaultReal), 0).fields;
            && |fields| == 1 && fields == [Field("x", 0, 4, typ, defaultInt, defaultReal, false, false, false)]
            && fields[1..] == [] && fields[..0] == [] && ById(fields) == fields
  {
    var fields := TableAt(OneField(typ, defaultInt, defaultReal), 0).fields;
    assert ById([]) == [] && fields[..0] == [];
    assert InsertById(fields[0], []) == [fields[0]];
  }

  lemma {:induction false} OneFieldPending(v: J.Value, f: Field, s: Schema, o: Options)
    requires v.Obj? && EncField(v, f, s, 0, o).Ok?
    ensures EncFields(v, [f], s, 0, o) == Ok(ToPending(f, EncField(v, f, s, 0, o).value))
  {
    hide EncField, ToPending;
    var p := ToPending(f, EncField(v, f, s, 0, o).value);
    assert [f][1..] == [] && EncFields(v, [], s, 0, o) == Ok([]) && p + [] == p;
  }

  lemma {:induction false} EmptyBuilds(typ: FieldType, defaultInt: I64, defaultReal: F64, o: Options)
    ensures JsonToBuf(J.Obj(map[]), 0, OneField(typ, defaultInt, defaultReal), o) == Ok(TableVal(map[]))
  {
    hide EncFields;
    OneFieldTable(typ, defaultInt, defaultReal);
    var v, s := J.Obj(map[]), OneField(typ, defaultInt, defaultReal);
    var f := TableAt(s, 0).fields[0];
    assert EncField(v, f, s, 0, o) == Ok(None);
    OneFieldPending(v, f, s, o);
  }

  /** With one fault, that is the reader's error. */
  lemma {:induction false} OneFault(v: J.Value, s: Schema, o: Options, rd: KeyReader, e: ToJsonError)
    requires GoodSchema(s) && JsonToBuf(v, 0, s, o).Ok? && TableFaults(v, 0, s) == [e]
    ensures ReadTable(JsonToBuf(v, 0, s, o).value, 0, s, rd) == Err(e)
  {
    hide EncTable, ReadTable, CanonTable, TableFaults, GoodSchema;
    R.TableRoundTrip(v, 0, s, 0, o, rd);
    TableFaulted(v, 0, s, 0, o, rd);
  }

  lemma {:induction false} OneFieldIsGood(typ: FieldType, defaultInt: I64, defaultReal: F64)
    requires typ.Scalar? || typ == Union([])
    ensures GoodSchema(OneField(typ, defaultInt, defaultReal))
  {
  }

  /** `{}` is accepted with an infinite default, and the buffer does not convert back. */
  lemma {:induction false} InfiniteDefault(o: Options, rd: KeyReader)
    ensures var v, s := J.Obj(map[]), OneField(Scalar(Double, None), 0, INFINITY);
            && JsonToBuf(v, 0, s, o).Ok? && TableFaults(v, 0, s) == [NonFiniteFloat]
            && ReadTable(JsonToBuf(v, 0, s, o).value, 0, s, rd) == Err(NonFiniteFloat)
  {
    hide JsonToBuf, ReadTable;
    var v, s := J.Obj(map[]), OneField(Scalar(Double, None), 0, INFINITY);
    EmptyBuilds(Scalar(Double, None), 0, INFINITY, o);
    OneFieldTable(Scalar(Double, None), 0, INFINITY);
    assert FieldsFaults(v, [], TableAt(s, 0).fields, s) == [];
    OneFieldIsGood(Scalar(Double, None), 0, INFINITY);
    OneFault(v, s, o, rd, NonFiniteFloat);
  }

  /** The same with a union that has no variant of value 0. */
  lemma {:induction false} NoNoneVariant(o: Options, rd: KeyReader)
    ensures var v, s := J.Obj(map[]), OneField(Union([]), 0, 0);
            && JsonToBuf(v, 0, s, o).Ok? && TableFaults(v, 0, s) == [BadReflection]
            && ReadTable(JsonToBuf(v, 0, s, o).value, 0, s, rd) == Err(BadReflection)
  {
    hide JsonToBuf, ReadTable;
    var v, s := J.Obj(map[]), OneField(Union([]), 0, 0);
    EmptyBuilds(Union([]), 0, 0, o);
    OneFieldTable(Union([]), 0, 0);
    assert FieldsFaults(v, [], TableAt(s, 0).fields, s) == [];
    OneFieldIsGood(Union([]), 0, 0);
    OneFault(v, s, o, rd, BadReflection);
  }

  /** `{"x": 3.4028236692093846e38}`, which is 2^128, is accepted for a `float` and overflows. */
  lemma {:induction false} OverflowingNumber(o: Options, rd: KeyReader)
    ensures var v := J.Obj(map["x" := J.Num(J.Float(TWO_TO_128))]); var s := OneField(Scalar(Float, None), 0, 0);
            && JsonToBuf(v, 0, s, o).Ok? && TableFaults(v, 0, s) == [NonFiniteFloat]
            && ReadTable(JsonToBuf(v, 0, s, o).value, 0, s, rd) == Err(NonFiniteFloat)
  {
    hide JsonToBuf, ReadTable, TableFaults;
    var s := OneField(Scalar(Float, None), 0, 0);
    var v := J.Obj(map["x" := J.Num(J.Float(TWO_TO_128))]);
    OneFieldTable(Scalar(Float, None), 0, 0);
    NumberBuilds(v, TableAt(s, 0).fields[0], s, o);
    OverflowIsFault(v, TableAt(s, 0).fields[0], s);
    OneFieldIsGood(Scalar(Float, None), 0, 0);
    OneFault(v, s, o, rd, NonFiniteFloat);
  }

  lemma {:induction false} NumberBuilds(v: J.Value, f: Field, s: Schema, o: Options)
    requires f.typ == Scalar(Float, None) && f.name == "x" && v == J.Obj(map["x" := J.Num(J.Float(TWO_TO_128))])
    requires TableAt(s, 0).fields == [f]
    ensures JsonToBuf(v, 0, s, o).Ok?
  {
    hide EncFields, EncField, Narrow, WriteSlots;
    NumberAccepted(v, f, s, o);
    assert KnownKey("x", [f]) by { assert [f][0].name == "x"; }
    OneFieldPending(v, f, s, o);
    assert !HasUnknownKey(v.m, [f]);
  }

  lemma {:induction false} OverflowIsFault(v: J.Value, f: Field, s: Schema)
    requires f.typ == Scalar(Float, None) && f.name == "x" && v == J.Obj(map["x" := J.Num(J.Float(TWO_TO_128))])
    requires TableAt(s, 0).fields == [f] && ById([f]) == [f]
    ensures TableFaults(v, 0, s) == [NonFiniteFloat]
  {
    var fields := TableAt(s, 0).fields;
    assert ScalarFaults(Float, v.m["x"]) == [NonFiniteFloat];
    assert FieldFaults(v, f, fields, s) == [NonFiniteFloat];
    assert fields[1..] == [] && FieldsFaults(v, [], fields, s) == [];
  }

  lemma {:induction false} NumberAccepted(v: J.Value, f: Field, s: Schema, o: Options)
    requires f.typ == Scalar(Float, None) && f.name == "x" && v == J.Obj(map["x" := J.Num(J.Float(TWO_TO_128))])
    ensures EncField(v, f, s, 0, o).Ok? && WriteSlots(ToPending(f, EncField(v, f, s, 0, o).value), map[]).Ok?
  {
    hide Narrow, DefaultScalar;
    var x := v.m["x"];
    assert EncPresent(x, f, s, 0, o).Ok? && EncPresent(x, f, s, 0, o).value.PushScalar?;
    var p := Pending(f.offset, EncPresent(x, f, s, 0, o).value);
    assert [p][1..] == [];
    assert WriteSlots([p], map[]).Ok?;
  }
}
