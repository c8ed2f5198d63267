/** What `to_json.rs` reads from a buffer's tree. `JsonReader` has the same walk with the source's loops. */
module ToJson {
  import opened Wrappers
  import opened Bytes
  import opened Schema
  import opened Scalars
  import opened StructJson
  import opened Buffer
  import opened Blobs
  import opened KeyText
  import J = Json

  type JsonMap = Result<map<string, J.Value>, ToJsonError>

  function Slots(v: Val): map<nat, Val> {
    if v.TableVal? then v.slots else map[]
  }

  function Lookup(slots: map<nat, Val>, o: nat): Option<Val> {
    if o in slots then Some(slots[o]) else None
  }

  /** `table.get::<T>`: the stored scalar, or the schema default. */
  function SlotScalar(slots: map<nat, Val>, f: Field, st: ScalarType): Scalar {
    match Lookup(slots, f.offset)
    case Some(ScalarVal(sc)) => if Fits(st, sc) then sc else DefaultScalar(st, f.defaultInt, f.defaultReal)
    case _ => DefaultScalar(st, f.defaultInt, f.defaultReal)
  }

  /** The union tag stored just before the value slot; absent is NONE. */
  function Discriminator(slots: map<nat, Val>, valueSlot: nat): nat {
    if valueSlot < 2 then 0
    else
      match Lookup(slots, valueSlot - 2)
      case Some(ScalarVal(I(n))) => if 0 <= n <= 0xFF then n else 0
      case _ => 0
  }

  /** A `<name>_type` field beside the union `<name>`. */
  predicate IsDiscriminator(f: Field, fields: seq<Field>) {
    && f.typ.Scalar? && f.typ.st.UType?
    && exists i :: 0 <= i < |fields| && fields[i].typ.Union? && f.name == DiscKey(fields[i].name)
  }

  predicate IsNullable(t: FieldType) {
    !t.Scalar?
  }

  function RowKey(v: Val, kf: Field, rd: KeyReader): string {
    match Lookup(Slots(v), kf.offset)
    case Some(ScalarVal(sc)) => ScalarText(sc, rd)
    case Some(StringVal(s)) => s
    case _ => AbsentText(kf, rd)
  }

  /** `table_to_json`. */
  function ReadTable(v: Val, t: nat, s: Schema, rd: KeyReader): Json
    decreases v, 2, 0
  {
    var fields := TableAt(s, t).fields;
    var m :- ReadFields(v, ById(fields), fields, map[], s, rd);
    Ok(J.Obj(m))
  }

  /** Fields in id order, inserted into the object one by one. */
  function ReadFields(v: Val, todo: seq<Field>, fields: seq<Field>, acc: map<string, J.Value>, s: Schema,
                      rd: KeyReader): JsonMap
    decreases v, 1, |todo|
  {
    if todo == [] then Ok(acc)
    else
      var next :- ReadField(v, todo[0], fields, acc, s, rd);
      ReadFields(v, todo[1..], fields, next, s, rd)
  }

  function ReadField(v: Val, f: Field, fields: seq<Field>, acc: map<string, J.Value>, s: Schema, rd: KeyReader): JsonMap
    decreases v, 0, 1
  {
    if IsDiscriminator(f, fields) then Ok(acc)
    else if f.typ.Union? then ReadUnion(v, f, acc, s, rd)
    else
      match Lookup(Slots(v), f.offset)
      case None =>
        if IsNullable(f.typ) then Ok(acc)
        else
          var j :- ScalarJson(f.typ.st, f.typ.en, SlotScalar(Slots(v), f, f.typ.st));
          Ok(acc[f.name := j])
      case Some(x) =>
        var j :- ReadValue(v, x, f, s, rd);
        Ok(acc[f.name := j])
  }

  function ReadValue(v: Val, x: Val, f: Field, s: Schema, rd: KeyReader): Json
    requires f.offset in Slots(v) && x == Slots(v)[f.offset]
    decreases v, 0, 0
  {
    match f.typ
    case Scalar(st, en) => ScalarJson(st, en, SlotScalar(Slots(v), f, st))
    case String => Ok(J.Str(if x.StringVal? then x.s else ""))
    case Struct(def) => if x.StructVal? then ReadStruct(x.bytes, 0, def) else Ok(J.Null)
    case Table(t) => if x.TableVal? then ReadTable(x, t, s, rd) else Ok(J.Null)
    case Vector(el) => ReadVector(x, el, f.hex, s, rd)
    case Union(_) | Vector64 => Err(BadReflection)
  }

  /** `emit_union_pair`. */
  function ReadUnion(v: Val, f: Field, acc: map<string, J.Value>, s: Schema, rd: KeyReader): JsonMap
    requires f.typ.Union?
    decreases v, 0, 0
  {
    var disc := Discriminator(Slots(v), f.offset);
    if f.offset < 2 then Err(BadReflection)
    else
      match VariantByValue(f.typ.variants, disc)
      case None => Err(BadReflection)
      case Some(variant) =>
        var withType := acc[DiscKey(f.name) := J.Str(variant.name)];
        if disc == 0 then Ok(withType)
        else if variant.typ.None? then Err(BadReflection)
        else
          match Lookup(Slots(v), f.offset)
          case None => Ok(withType[f.name := J.Null])
          case Some(x) =>
            var j :- ReadVariant(x, variant.typ.value, s, rd);
            Ok(withType[f.name := j])
  }

  function ReadVariant(x: Val, t: VariantType, s: Schema, rd: KeyReader): Json
    decreases x, 3, 0
  {
    match t
    case VTable(i) => if x.TableVal? then ReadTable(x, i, s, rd) else Ok(J.Null)
    case VStruct(def) => if x.StructVal? then ReadStruct(x.bytes, 0, def) else Ok(J.Null)
    case VString => Ok(if x.StringVal? then J.Str(x.s) else J.Null)
  }

  function Items(x: Val): seq<Val> {
    if x.VectorVal? then x.items else []
  }

  function Body(x: Val): seq<byte> {
    if x.StructVectorVal? then x.body else []
  }

  /** `vector_to_json`. */
  function ReadVector(x: Val, el: ElementType, hex: bool, s: Schema, rd: KeyReader): Json
    decreases x, 3, 0
  {
    match el
    case EScalar(st, en) =>
      if st.UByte? || st.UType? then Ok(if x.BytesVal? then J.Str(BlobText(x.bytes, hex)) else J.Arr([]))
      else
        var items :- ReadScalars(Items(x), st, if st.Int? then en else None);
        Ok(J.Arr(items))
    case EString => Ok(J.Arr(ReadStrings(Items(x))))
    case EStruct(def) =>
      var items :- ReadStructs(Body(x), def, Unsigned(Window(Body(x), 0, 4)));
      Ok(J.Arr(items))
    case ETable(t) =>
      var kf := KeyedField(TableAt(s, t).fields);
      if kf.Some? then
        var m :- ReadRows(x, |Items(x)|, kf.value, t, s, rd);
        Ok(J.Obj(m))
      else
        var items :- ReadTables(x, |Items(x)|, t, s, rd);
        Ok(J.Arr(items))
    case EOther => Err(BadReflection)
  }

  /** An element of a scalar vector, all of which have the vector's type. */
  function ItemScalar(x: Val, st: ScalarType): Scalar {
    if x.ScalarVal? && Fits(st, x.sc) then x.sc else ZeroScalar(st)
  }

  function ReadScalars(items: seq<Val>, st: ScalarType, en: Option<EnumDef>): Result<seq<J.Value>, ToJsonError> {
    if items == [] then Ok([])
    else
      var init :- ReadScalars(items[..|items| - 1], st, en);
      var last :- ScalarJson(st, en, ItemScalar(items[|items| - 1], st));
      Ok(init + [last])
  }

  function ReadStrings(items: seq<Val>): seq<J.Value> {
    seq(|items|, i requires 0 <= i < |items| => J.Str(if items[i].StringVal? then items[i].s else ""))
  }

  /** `vector_of_struct_to_json`: element `i` lies at `4 + i * bytesize`. */
  function ReadStructs(body: seq<byte>, def: StructDef, n: nat): Result<seq<J.Value>, ToJsonError> {
    if n == 0 then Ok([])
    else
      var init :- ReadStructs(body, def, n - 1);
      var last :- ReadStruct(body, 4 + Offset(n - 1, def.bytesize), def);
      Ok(init + [last])
  }

  function ReadTables(x: Val, n: nat, t: nat, s: Schema, rd: KeyReader): Result<seq<J.Value>, ToJsonError>
    requires n <= |Items(x)|
    decreases x, 1, n
  {
    if n == 0 then Ok([])
    else
      var init :- ReadTables(x, n - 1, t, s, rd);
      var last :- ReadTable(Items(x)[n - 1], t, s, rd);
      Ok(init + [last])
  }

  /** A keyed vector as an object; of two rows with one key the later stays. */
  function ReadRows(x: Val, n: nat, kf: Field, t: nat, s: Schema, rd: KeyReader): JsonMap
    requires n <= |Items(x)|
    decreases x, 1, n
  {
    if n == 0 then Ok(map[])
    else
      var init :- ReadRows(x, n - 1, kf, t, s, rd);
      var row :- ReadTable(Items(x)[n - 1], t, s, rd);
      Ok(init[RowKey(Items(x)[n - 1], kf, rd) := row])
  }
}
