/**
 What `from_json.rs` builds: the table tree a JSON document denotes under a schema, or the first error.
 `Builder` builds it node by node; `ToJson` reads it back.
 */
module FromJson {
  import opened Wrappers
  import opened Bytes
  import opened Schema
  import opened Scalars
  import opened StructLayout
  import opened Buffer
  import opened Blobs
  import J = Json
  import Text

  datatype Options = Options(maxDepth: nat, unknownIsError: bool)

  type Built = Result<Val, BuildError>

  /** A field's contribution, decided before the table is opened. */
  datatype Push =
    | PushScalar(value: Scalar, default: Scalar)
    | PushOffset(v: Val)
    | PushStruct(bytes: seq<byte>, align: nat)
    | PushUnion(disc: nat, content: Option<Val>)

  datatype Pending = Pending(slot: nat, push: Push)

  /** The (size, alignment) pairs the inline-struct adapter is instantiated for. */
  predicate Dispatchable(size: nat, align: nat) {
    match align
    case 1 => size in {1, 2, 3, 4, 8}
    case 2 => size in {2, 4, 6, 8, 10, 12, 16}
    case 4 => size in {4, 8, 12, 16, 20, 24, 28, 32, 36, 40, 44, 48, 56, 64}
    case 8 => size in {8, 16, 24, 32, 40, 48, 56, 64, 72, 80, 96, 128, 192, 256}
    case _ => false
  }

  // Tables.

  /** `build_table`. */
  function EncTable(v: J.Value, t: nat, s: Schema, depth: nat, o: Options): Built
    decreases J.Height(v), 3, 0
  {
    var def := TableAt(s, t);
    if !v.Obj? then Err(TypeMismatch)
    else if depth > o.maxDepth then Err(NestingTooDeep)
    else if o.unknownIsError && HasUnknownKey(v.m, def.fields) then Err(UnknownField)
    else
      var pending :- EncFields(v, def.fields, s, depth, o);
      var slots :- WriteSlots(pending, map[]);
      Ok(TableVal(slots))
  }

  /** A key that names no field and no union's discriminator. */
  predicate HasUnknownKey(m: map<string, J.Value>, fields: seq<Field>) {
    exists k :: k in m && !KnownKey(k, fields)
  }

  predicate KnownKey(k: string, fields: seq<Field>) {
    exists i :: 0 <= i < |fields| && (fields[i].name == k || (fields[i].typ.Union? && DiscKey(fields[i].name) == k))
  }

  function EncFields(v: J.Value, fields: seq<Field>, s: Schema, depth: nat,
                     o: Options): Result<seq<Pending>, BuildError>
    requires v.Obj?
    decreases J.Height(v), 2, |fields|
  {
    if fields == [] then Ok([])
    else
      var head :- EncField(v, fields[0], s, depth, o);
      var rest :- EncFields(v, fields[1..], s, depth, o);
      Ok(ToPending(fields[0], head) + rest)
  }

  function ToPending(f: Field, push: Option<Push>): seq<Pending> {
    match push
    case None => []
    case Some(p) => [Pending(f.offset, p)]
  }

  /** One turn of the pre-build loop: `None` when the document leaves the field out. */
  function EncField(v: J.Value, f: Field, s: Schema, depth: nat, o: Options): Result<Option<Push>, BuildError>
    requires v.Obj?
    decreases J.Height(v), 1, 0
  {
    if f.typ.Union? then
      var pair :- EncUnion(v, f.name, f.typ.variants, s, depth + 1, o);
      if pair.None? && f.required then Err(MissingRequiredField) else Ok(pair)
    else
      match J.Present(v.m, f.name)
      case None => if f.required then Err(MissingRequiredField) else Ok(None)
      case Some(x) =>
        J.MemberHeight(v.m, f.name);
        var p :- EncPresent(x, f, s, depth, o);
        Ok(Some(p))
  }

  function EncPresent(x: J.Value, f: Field, s: Schema, depth: nat, o: Options): Result<Push, BuildError>
    decreases J.Height(x), 4, 0
  {
    match f.typ
    case Scalar(st, en) =>
      var sc :- EncodeScalar(st, en, x);
      Ok(PushScalar(sc, DefaultScalar(st, f.defaultInt, f.defaultReal)))
    case String => if x.Str? then Ok(PushOffset(StringVal(x.s))) else Err(TypeMismatch)
    case Struct(def) =>
      var bytes :- StructBytes(x, def);
      if def.minalign == 0 then Err(Internal) else Ok(PushStruct(bytes, def.minalign))
    case Table(t) => var w :- EncTable(x, t, s, depth + 1, o); Ok(PushOffset(w))
    case Vector(el) => var w :- EncVector(x, el, f.hex, s, depth + 1, o); Ok(PushOffset(w))
    case Union(_) | Vector64 => Err(Internal)
  }

  /** The write phase; a later write to a slot wins and a scalar equal to its default is left out. */
  function WriteSlots(pending: seq<Pending>, slots: map<nat, Val>): Result<map<nat, Val>, BuildError> {
    if pending == [] then Ok(slots)
    else
      var next :- WriteSlot(pending[0], slots);
      WriteSlots(pending[1..], next)
  }

  function WriteSlot(p: Pending, slots: map<nat, Val>): Result<map<nat, Val>, BuildError> {
    match p.push
    case PushScalar(value, default) =>
      Ok(if SameScalar(value, default) then slots else slots[p.slot := ScalarVal(value)])
    case PushOffset(v) => Ok(slots[p.slot := v])
    case PushStruct(bytes, align) =>
      if Dispatchable(|bytes|, align) then Ok(slots[p.slot := StructVal(bytes)]) else Err(Unsupported)
    case PushUnion(disc, content) =>
      if p.slot < 2 then Err(Internal)
      else
        var withDisc := if disc == 0 then slots else slots[p.slot - 2 := ScalarVal(I(disc))];
        Ok(if content.Some? then withDisc[p.slot := content.value] else withDisc)
  }

  // Unions.

  /** `build_union_pair`: `None` when the document has neither the discriminator nor the value. */
  function EncUnion(v: J.Value, name: string, variants: seq<Variant>, s: Schema, depth: nat, o: Options)
    : Result<Option<Push>, BuildError>
    requires v.Obj?
    decreases J.Height(v), 0, 0
  {
    if DiscKey(name) !in v.m then
      if J.Present(v.m, name).None? then Ok(None) else Err(MissingUnionDiscriminator)
    else if !v.m[DiscKey(name)].Str? then Err(TypeMismatch)
    else
      match VariantByName(variants, v.m[DiscKey(name)].s)
      case None => Err(UnknownEnumName)
      case Some(variant) =>
        if variant.value < 0 || variant.value > 0xFF then Err(Internal)
        else if variant.value == 0 then Ok(Some(PushUnion(0, None)))
        else if variant.typ.None? then Err(Internal)
        else if name !in v.m then Err(MissingRequiredField)
        else
          J.MemberHeight(v.m, name);
          var w :- EncVariant(v.m[name], variant.typ.value, s, depth, o);
          Ok(Some(PushUnion(variant.value, Some(w))))
  }

  function EncVariant(x: J.Value, t: VariantType, s: Schema, depth: nat, o: Options): Built
    decreases J.Height(x), 4, 0
  {
    match t
    case VTable(i) => EncTable(x, i, s, depth, o)
    case VStruct(def) =>
      var bytes :- StructBytes(x, def);
      if def.minalign == 0 then Err(Internal)
      else if !Dispatchable(|bytes|, def.minalign) then Err(Unsupported)
      else Ok(StructVal(bytes))
    case VString => if x.Str? then Ok(StringVal(x.s)) else Err(TypeMismatch)
  }

  // Vectors.

  /** `build_vector`. */
  function EncVector(x: J.Value, el: ElementType, hex: bool, s: Schema, depth: nat, o: Options): Built
    decreases J.Height(x), 3, 0
  {
    if depth > o.maxDepth then Err(NestingTooDeep)
    else if IsBlob(el) then EncBlob(x, hex)
    else if x.Obj? && el.ETable? && KeyedField(TableAt(s, el.index).fields).Some? then
      EncKeyed(x, el.index, KeyedField(TableAt(s, el.index).fields).value, s, depth + 1, o)
    else if !x.Arr? then Err(TypeMismatch)
    else
      match el
      case EScalar(st, en) => var items :- EncScalars(x.items, st, ElementEnum(st, en)); Ok(VectorVal(items))
      case EString => var items :- EncStrings(x.items); Ok(VectorVal(items))
      case EStruct(def) =>
        if def.minalign == 0 then Err(Internal)
        else
          var all :- EncStructs(x.items, def);
          PushStructVector(|x.items|, all, def)
      case ETable(t) =>
        ItemHeights(x);
        var items :- EncTables(x.items, t, s, depth + 1, o, J.Height(x));
        Ok(VectorVal(items))
      case EOther => Err(Internal)
  }

  /** `push_vector_of_structs`. The builder cannot hold 2^32 elements (it panics past 2 GiB). */
  function PushStructVector(count: nat, all: seq<byte>, def: StructDef): Built {
    if !Dispatchable(def.bytesize, def.minalign) then Err(Unsupported)
    else if count >= 0x1_0000_0000 then Err(Internal)
    else Ok(StructVectorVal(StructVectorBody(count, all)))
  }

  lemma {:induction false} ItemHeights(x: J.Value)
    requires x.Arr?
    ensures forall i :: 0 <= i < |x.items| ==> J.Height(x.items[i]) < J.Height(x)
  {
    forall i | 0 <= i < |x.items| ensures J.Height(x.items[i]) < J.Height(x) {
      J.ItemHeight(x.items, i);
    }
  }

  /** `[ubyte]` takes its own path. */
  predicate IsBlob(el: ElementType) {
    el.EScalar? && (el.st.UByte? || el.st.UType?)
  }

  /** Only `int` vectors name their enum members. */
  function ElementEnum(st: ScalarType, en: Option<EnumDef>): Option<EnumDef> {
    if st.Int? then en else None
  }

  function EncBlob(x: J.Value, hex: bool): Built {
    match x
    case Str(s) =>
      (match ParseBlob(s, hex)
       case Some(bytes) => Ok(BytesVal(bytes))
       case None => Err(if hex then InvalidHex else InvalidBase64))
    case Arr(items) => var bytes :- EncByteItems(items); Ok(BytesVal(bytes))
    case _ => Err(TypeMismatch)
  }

  /** An array of numbers is those bytes, in its order. */
  function EncByteItems(items: seq<J.Value>): (r: Result<seq<byte>, BuildError>)
    ensures r.Ok? ==> |r.value| == |items| && forall i :: 0 <= i < |items| ==> items[i] == J.Num(J.Int(r.value[i]))
  {
    if items == [] then Ok([])
    else
      var init :- EncByteItems(items[..|items| - 1]);
      var last :- DecodeUnsigned(items[|items| - 1], 0xFF);
      Ok(init + [last])
  }

  function EncScalars(items: seq<J.Value>, st: ScalarType, en: Option<EnumDef>): (r: Result<seq<Val>, BuildError>)
    ensures r.Ok? ==> |r.value| == |items|
  {
    if items == [] then Ok([])
    else
      var init :- EncScalars(items[..|items| - 1], st, en);
      var last :- EncodeScalar(st, en, items[|items| - 1]);
      Ok(init + [ScalarVal(last)])
  }

  function EncStrings(items: seq<J.Value>): (r: Result<seq<Val>, BuildError>)
    ensures r.Ok? ==> |r.value| == |items|
  {
    if items == [] then Ok([])
    else
      var init :- EncStrings(items[..|items| - 1]);
      if items[|items| - 1].Str? then Ok(init + [StringVal(items[|items| - 1].s)]) else Err(TypeMismatch)
  }

  /** Struct elements back to back. */
  function EncStructs(items: seq<J.Value>, def: StructDef): (r: Result<seq<byte>, BuildError>)
    ensures r.Ok? ==> |r.value| == Offset(|items|, def.bytesize)
  {
    if items == [] then Ok([])
    else
      var init :- EncStructs(items[..|items| - 1], def);
      var last :- StructBytes(items[|items| - 1], def);
      Ok(init + last)
  }

  function EncTables(items: seq<J.Value>, t: nat, s: Schema, depth: nat, o: Options, ghost bound: nat)
    : (r: Result<seq<Val>, BuildError>)
    requires forall i :: 0 <= i < |items| ==> J.Height(items[i]) < bound
    ensures r.Ok? ==> |r.value| == |items|
    decreases bound, 1, |items|
  {
    if items == [] then Ok([])
    else
      var init :- EncTables(items[..|items| - 1], t, s, depth, o, bound);
      var last :- EncTable(items[|items| - 1], t, s, depth, o);
      Ok(init + [last])
  }

  // Keyed vectors from an object.

  datatype SortKey = TextKey(text: string) | IntKey(n: int)
  datatype Entry = Entry(key: SortKey, row: J.Value)

  /** The key field's JSON value for an object key, and the key entries are sorted by. */
  function KeyOf(kf: Field, jsonKey: string): Result<(SortKey, J.Value), BuildError> {
    if kf.typ.String? then Ok((TextKey(jsonKey), J.Str(jsonKey)))
    else if IsIntegerKey(kf) then
      match Text.ParseI64(jsonKey)
      case Some(n) => Ok((IntKey(n), J.Num(J.Int(n))))
      case None => Err(TypeMismatch)
    else Err(Unsupported)
  }

  predicate IsIntegerKey(kf: Field) {
    kf.typ.Scalar? && IsInteger(kf.typ.st) && !kf.typ.st.UType?
  }

  /** Put the key into the row, or check that the row already says the same. */
  function MergeKey(row: map<string, J.Value>, name: string, key: J.Value): Result<map<string, J.Value>, BuildError> {
    if name !in row then Ok(row[name := key])
    else if row[name] == key then Ok(row)
    else Err(TypeMismatch)
  }

  function OneEntry(m: map<string, J.Value>, k: string, kf: Field): (r: Result<Entry, BuildError>)
    requires k in m
    ensures r.Ok? ==> r.value.row.Obj? && J.Height(r.value.row) < J.Height(J.Obj(m))
  {
    if !m[k].Obj? then Err(TypeMismatch)
    else
      var key :- KeyOf(kf, k);
      var row :- MergeKey(m[k].m, kf.name, key.1);
      J.MemberHeight(m, k);
      J.InjectedHeight(m[k].m, kf.name, key.1);
      Ok(Entry(key.0, J.Obj(row)))
  }

  /** Entries in the order the object iterates, ascending by JSON key. */
  function KeyedEntries(m: map<string, J.Value>, keys: seq<string>, kf: Field): (r: Result<seq<Entry>, BuildError>)
    requires forall k :: k in keys ==> k in m
    ensures r.Ok? ==> |r.value| == |keys|
    ensures r.Ok? ==> forall i :: 0 <= i < |keys| ==> OneEntry(m, keys[i], kf) == Ok(r.value[i])
  {
    if keys == [] then Ok([])
    else
      var init :- KeyedEntries(m, keys[..|keys| - 1], kf);
      var last :- OneEntry(m, keys[|keys| - 1], kf);
      Ok(init + [last])
  }

  predicate KeyLess(a: SortKey, b: SortKey) {
    match (a, b)
    case (TextKey(x), TextKey(y)) => Text.Less(x, y)
    case (IntKey(x), IntKey(y)) => x < y
    case _ => false
  }

  /** Stable insertion of a later entry. */
  function InsertEntry(e: Entry, es: seq<Entry>): (r: seq<Entry>)
    ensures multiset(r) == multiset(es) + multiset{e}
  {
    if es == [] then [e]
    else if KeyLess(e.key, es[|es| - 1].key) then
      assert es == es[..|es| - 1] + [es[|es| - 1]];
      InsertEntry(e, es[..|es| - 1]) + [es[|es| - 1]]
    else es + [e]
  }

  /** `entries.sort_by` (stable). */
  function SortEntries(es: seq<Entry>): (r: seq<Entry>)
    ensures multiset(r) == multiset(es)
  {
    if es == [] then []
    else
      assert es == es[..|es| - 1] + [es[|es| - 1]];
      InsertEntry(es[|es| - 1], SortEntries(es[..|es| - 1]))
  }

  function Rows(es: seq<Entry>): (rows: seq<J.Value>)
    ensures |rows| == |es| && forall i :: 0 <= i < |es| ==> rows[i] == es[i].row
  {
    seq(|es|, i requires 0 <= i < |es| => es[i].row)
  }

  /** The rows of a keyed object in wire order, the order `LookupByKey` needs. */
  function SortedEntries(x: J.Value, kf: Field): (r: Result<seq<Entry>, BuildError>)
    requires x.Obj?
    ensures r.Ok? ==> forall e :: e in r.value ==> e.row.Obj? && J.Height(e.row) < J.Height(x)
  {
    var entries :- KeyedEntries(x.m, Text.SortedKeys(x.m.Keys), kf);
    EntriesAreLow(x, kf, entries);
    Ok(SortEntries(entries))
  }

  lemma {:induction false} EntriesAreLow(x: J.Value, kf: Field, entries: seq<Entry>)
    requires x.Obj? && KeyedEntries(x.m, Text.SortedKeys(x.m.Keys), kf) == Ok(entries)
    ensures forall e :: e in SortEntries(entries) ==> e.row.Obj? && J.Height(e.row) < J.Height(x)
  {
    hide SortEntries, OneEntry, Text.SortedKeys, J.Height;
    forall e | e in SortEntries(entries) ensures e.row.Obj? && J.Height(e.row) < J.Height(x) {
      assert e in multiset(SortEntries(entries)) && e in multiset(entries);
      var i :| 0 <= i < |entries| && entries[i] == e;
      assert OneEntry(x.m, Text.SortedKeys(x.m.Keys)[i], kf) == Ok(e);
    }
  }

  /** `build_vector_of_keyed_tables_from_object`. */
  function EncKeyed(x: J.Value, t: nat, kf: Field, s: Schema, depth: nat, o: Options): Built
    requires x.Obj?
    decreases J.Height(x), 2, 0
  {
    if depth > o.maxDepth then Err(NestingTooDeep)
    else
      var entries :- SortedEntries(x, kf);
      assert forall i :: 0 <= i < |entries| ==> entries[i] in entries;
      var items :- EncTables(Rows(entries), t, s, depth + 1, o, J.Height(x));
      Ok(VectorVal(items))
  }

  /** `json_to_buf`, up to the finished size. */
  function JsonToBuf(v: J.Value, root: nat, s: Schema, o: Options): Built {
    if !v.Obj? then Err(RootNotObject) else EncTable(v, root, s, 0, o)
  }
}
