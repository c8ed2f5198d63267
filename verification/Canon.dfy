/**
 The canonical form of a table document: nulls dropped, scalar defaults and NONE tags filled in, numbers
 named where an enum has a name for them, floats narrowed, keyed arrays turned into objects and byte
 arrays into text. It is defined on documents alone, without a buffer.
 */
module Canon {
  import opened Wrappers
  import opened Schema
  import opened Scalars
  import opened StructJson
  import opened Blobs
  import opened KeyText
  import opened FromJson
  import opened ToJson
  import J = Json

  /** A scalar equal to its default reads back as the default (the two zeros of a float are equal). */
  function Effective(sc: Scalar, default: Scalar): Scalar {
    if SameScalar(sc, default) then default else sc
  }

  function CanonTable(v: J.Value, t: nat, s: Schema, rd: KeyReader): Json
    decreases J.Height(v), 3, 0
  {
    if !v.Obj? then Err(BadReflection)
    else
      var fields := TableAt(s, t).fields;
      var m :- CanonMembers(v, ById(fields), fields, map[], s, rd);
      Ok(J.Obj(m))
  }

  function CanonMembers(v: J.Value, todo: seq<Field>, fields: seq<Field>, acc: map<string, J.Value>, s: Schema,
                        rd: KeyReader): JsonMap
    requires v.Obj?
    decreases J.Height(v), 2, |todo|
  {
    if todo == [] then Ok(acc)
    else
      var next :- CanonMember(v, todo[0], fields, acc, s, rd);
      CanonMembers(v, todo[1..], fields, next, s, rd)
  }

  function CanonMember(v: J.Value, f: Field, fields: seq<Field>, acc: map<string, J.Value>, s: Schema,
                       rd: KeyReader): JsonMap
    requires v.Obj?
    decreases J.Height(v), 1, 0
  {
    if IsDiscriminator(f, fields) then Ok(acc)
    else if f.typ.Union? then CanonUnion(v, f, acc, s, rd)
    else
      match J.Present(v.m, f.name)
      case None =>
        if IsNullable(f.typ) then Ok(acc)
        else
          var j :- ScalarJson(f.typ.st, f.typ.en, DefaultScalar(f.typ.st, f.defaultInt, f.defaultReal));
          Ok(acc[f.name := j])
      case Some(x) =>
        J.MemberHeight(v.m, f.name);
        var j :- CanonValue(x, f, s, rd);
        Ok(acc[f.name := j])
  }

  function CanonValue(x: J.Value, f: Field, s: Schema, rd: KeyReader): Json
    decreases J.Height(x), 4, 0
  {
    match f.typ
    case Scalar(st, en) =>
      (match EncodeScalar(st, en, x)
       case Ok(sc) => ScalarJson(st, en, Effective(sc, DefaultScalar(st, f.defaultInt, f.defaultReal)))
       case Err(_) => Err(BadReflection))
    case String => Ok(x)
    case Struct(def) => CanonStruct(x, def)
    case Table(t) => CanonTable(x, t, s, rd)
    case Vector(el) => CanonVector(x, el, f.hex, s, rd)
    case Union(_) | Vector64 => Err(BadReflection)
  }

  /** An absent union shows its NONE tag; a present one its tag's name and the variant's canonical value. */
  function CanonUnion(v: J.Value, f: Field, acc: map<string, J.Value>, s: Schema, rd: KeyReader): JsonMap
    requires v.Obj? && f.typ.Union?
    decreases J.Height(v), 0, 0
  {
    var tag := DiscKey(f.name);
    if tag !in v.m then
      match VariantByValue(f.typ.variants, 0)
      case None => Err(BadReflection)
      case Some(none) => Ok(acc[tag := J.Str(none.name)])
    else if !v.m[tag].Str? then Err(BadReflection)
    else
      match VariantByName(f.typ.variants, v.m[tag].s)
      case None => Err(BadReflection)
      case Some(variant) =>
        if variant.value == 0 then Ok(acc[tag := v.m[tag]])
        else if variant.typ.None? || f.name !in v.m then Err(BadReflection)
        else
          J.MemberHeight(v.m, f.name);
          var j :- CanonVariant(v.m[f.name], variant.typ.value, s, rd);
          Ok(acc[tag := v.m[tag]][f.name := j])
  }

  function CanonVariant(x: J.Value, t: VariantType, s: Schema, rd: KeyReader): Json
    decreases J.Height(x), 4, 0
  {
    match t
    case VTable(i) => CanonTable(x, i, s, rd)
    case VStruct(def) => CanonStruct(x, def)
    case VString => Ok(x)
  }

  function CanonVector(x: J.Value, el: ElementType, hex: bool, s: Schema, rd: KeyReader): Json
    decreases J.Height(x), 3, 0
  {
    if IsBlob(el) then CanonBlob(x, hex)
    else if !x.Arr? && !(x.Obj? && el.ETable?) then Err(BadReflection)
    else
      match el
      case EScalar(st, en) => var items :- CanonScalars(x.items, st, ElementEnum(st, en)); Ok(J.Arr(items))
      case EString => Ok(x)
      case EStruct(def) => var items :- CanonStructs(x.items, def); Ok(J.Arr(items))
      case ETable(t) =>
        var kf := KeyedField(TableAt(s, t).fields);
        if kf.Some? then
          var rows :- CanonInput(x, kf.value);
          var m :- CanonRows(rows, kf.value, t, s, rd, J.Height(x));
          Ok(J.Obj(m))
        else if x.Obj? then Err(BadReflection)
        else
          ItemHeights(x);
          var items :- CanonTables(x.items, t, s, rd, J.Height(x));
          Ok(J.Arr(items))
      case EOther => Err(BadReflection)
  }

  /** The rows of a keyed vector document in wire order. */
  function CanonInput(x: J.Value, kf: Field): (r: Result<seq<J.Value>, ToJsonError>)
    requires x.Arr? || x.Obj?
    ensures r.Ok? ==> forall i :: 0 <= i < |r.value| ==> J.Height(r.value[i]) < J.Height(x)
  {
    if x.Arr? then
      ItemHeights(x);
      Ok(x.items)
    else
      match SortedEntries(x, kf)
      case Err(_) => Err(BadReflection)
      case Ok(entries) =>
        assert forall i :: 0 <= i < |entries| ==> entries[i] in entries;
        Ok(Rows(entries))
  }

  function CanonBlob(x: J.Value, hex: bool): Json {
    match x
    case Str(text) =>
      (match ParseBlob(text, hex)
       case Some(bytes) => Ok(J.Str(BlobText(bytes, hex)))
       case None => Err(BadReflection))
    case Arr(items) =>
      (match EncByteItems(items)
       case Ok(bytes) => Ok(J.Str(BlobText(bytes, hex)))
       case Err(_) => Err(BadReflection))
    case _ => Err(BadReflection)
  }

  function CanonScalars(items: seq<J.Value>, st: ScalarType, en: Option<EnumDef>): Result<seq<J.Value>, ToJsonError> {
    if items == [] then Ok([])
    else
      var init :- CanonScalars(items[..|items| - 1], st, en);
      var last :- CanonScalar(st, en, items[|items| - 1]);
      Ok(init + [last])
  }

  function CanonStructs(items: seq<J.Value>, def: StructDef): Result<seq<J.Value>, ToJsonError> {
    if items == [] then Ok([])
    else
      var init :- CanonStructs(items[..|items| - 1], def);
      var last :- CanonStruct(items[|items| - 1], def);
      Ok(init + [last])
  }

  function CanonTables(items: seq<J.Value>, t: nat, s: Schema, rd: KeyReader,
                       ghost bound: nat): Result<seq<J.Value>, ToJsonError>
    requires forall i :: 0 <= i < |items| ==> J.Height(items[i]) < bound
    decreases bound, 1, |items|
  {
    if items == [] then Ok([])
    else
      var init :- CanonTables(items[..|items| - 1], t, s, rd, bound);
      var last :- CanonTable(items[|items| - 1], t, s, rd);
      Ok(init + [last])
  }

  function CanonRows(rows: seq<J.Value>, kf: Field, t: nat, s: Schema, rd: KeyReader, ghost bound: nat): JsonMap
    requires forall i :: 0 <= i < |rows| ==> J.Height(rows[i]) < bound
    decreases bound, 1, |rows|
  {
    if rows == [] then Ok(map[])
    else
      var init :- CanonRows(rows[..|rows| - 1], kf, t, s, rd, bound);
      var row :- CanonTable(rows[|rows| - 1], t, s, rd);
      Ok(init[DocumentKey(rows[|rows| - 1], kf, rd) := row])
  }

  /** The key under which a row appears: its key member's text, or the reader's absent text for a default. */
  function DocumentKey(row: J.Value, kf: Field, rd: KeyReader): string {
    match J.Present(if row.Obj? then row.m else map[], kf.name)
    case None => AbsentText(kf, rd)
    case Some(x) =>
      match kf.typ
      case Scalar(st, en) =>
        (match EncodeScalar(st, en, x)
         case Ok(sc) =>
           if SameScalar(sc, DefaultScalar(st, kf.defaultInt, kf.defaultReal)) then AbsentText(kf, rd)
             else ScalarText(sc, rd)
         case Err(_) => AbsentText(kf, rd))
      case String => if x.Str? then x.s else AbsentText(kf, rd)
      case _ => AbsentText(kf, rd)
  }
}
