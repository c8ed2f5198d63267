/**
 The query executor: walkers over the nodes of a buffer, driven by the schema and a list of path steps.

 Every walker consumes a step before it enters another table, so each terminates by the length of the
 path on any graph of nodes, shared or cyclic. `requires steps != []` on `WalkTable` is the source's
 `expect`: that every call meets it is part of what is verified.
 */
module Executor {
  import opened Wrappers
  import opened Floats
  import opened Bytes
  import opened Schema
  import opened Scalars
  import opened Buffer
  import opened KeyText
  import Q = Query
  import Text

  /** A leaf's text; a float's is what Postgres's `float4out` or `float8out` prints for these bits. */
  datatype Leaf = Plain(text: string) | Float4(single: F32) | Float8(double: F64)

  datatype ExecError = FieldNotFound | UnsupportedStep | UnsupportedType | ReflectionError

  type Leaves = Result<seq<Option<Leaf>>, ExecError>

  datatype ExecOptions = ExecOptions(fillDefaults: bool, strictKeys: bool, reader: KeyReader)

  // Leaves.

  /** The same for a vector whose elements are leaves, which may be bytes. */
  function ElementsAtSlot(h: Heap, slots: map<nat, Slot>, o: nat, el: ElementType): Option<seq<Slot>> {
    if o in slots && slots[o].Ref? && slots[o].node < |h| && h[slots[o].node].BytesNode? && el.EScalar?
      && el.st.UByte? then
      Some(seq(|h[slots[o].node].bytes|,
        i requires 0 <= i < |h[slots[o].node].bytes| => Direct(I(h[slots[o].node].bytes[i]))))
    else VectorAtSlot(h, slots, o)
  }

  function ScalarLeaf(sc: Scalar): Leaf {
    match sc
    case I(n) => Plain(Text.Dec(n))
    case F4(b) => Float4(b)
    case F8(b) => Float8(b)
  }

  /** `scalar_default_string`: integer defaults print as stored in the schema, without a cast. */
  function DefaultLeaf(f: Field, st: ScalarType): Leaf {
    match st
    case Float => Float4(Narrow(f.defaultReal))
    case Double => Float8(f.defaultReal)
    case _ => Plain(Text.Dec(f.defaultInt))
  }

  /** `read_leaf` of a present scalar. */
  function PresentScalar(slots: map<nat, Slot>, f: Field, st: ScalarType): Leaf
    requires f.offset in slots
  {
    match slots[f.offset]
    case Direct(sc) => if Fits(st, sc) then ScalarLeaf(sc) else DefaultLeaf(f, st)
    case _ => DefaultLeaf(f, st)
  }

  function FindField(fields: seq<Field>, r: Q.FieldRef): Option<Field> {
    match r
    case Name(name) => FieldByName(fields, name)
    case Id(id) => FieldById(fields, id)
  }

  function FindStructField(fields: seq<StructField>, r: Q.FieldRef): Option<StructField> {
    match r
    case Name(name) => StructFieldByName(fields, name)
    case Id(id) => StructFieldById(fields, id)
  }

  // Structs.

  /** `walk_struct`. */
  function WalkStruct(buf: seq<byte>, loc: nat, def: StructDef, steps: seq<Q.Step>): Leaves
    decreases |steps|, 0, 0
  {
    if steps == [] || !steps[0].Field? then Err(UnsupportedType)
    else
      var tail := steps[1..];
      match FindStructField(def.fields, steps[0].ref)
      case None => Err(FieldNotFound)
      case Some(f) =>
        match f.typ
        case SStruct(d) => WalkStruct(buf, loc + f.offset, d, tail)
        case SScalar(st, _) => if tail == [] then StructLeaf(buf, loc + f.offset, st) else Err(UnsupportedType)
        case _ => WalkArray(buf, loc + f.offset, f.typ, tail)
  }

  /** `read_struct_scalar_leaf`: union tags have no arm. */
  function StructLeaf(buf: seq<byte>, loc: nat, st: ScalarType): Leaves {
    if st.UType? then Err(UnsupportedType) else Ok([Some(ScalarLeaf(ReadScalar(st, buf, loc)))])
  }

  /** `walk_array`. */
  function WalkArray(buf: seq<byte>, loc: nat, t: StructFieldType, steps: seq<Q.Step>): Leaves
    requires t.SScalarArray? || t.SStructArray?
    decreases |steps|, 0, 0
  {
    if t.SStructArray? && t.elemDef.bytesize == 0 then Err(ReflectionError)
    else if steps == [] then Err(UnsupportedType)
    else
      match steps[0]
      case Index(i) =>
        if i >= t.len then Ok([None]) else WalkArrayElement(buf, loc + Offset(i, ArrayStride(t)), t, steps[1..])
      case All => FanArray(buf, loc, t, t.len, steps[1..])
      case _ => Err(UnsupportedType)
  }

  function ArrayStride(t: StructFieldType): nat
    requires t.SScalarArray? || t.SStructArray?
  {
    match t
    case SScalarArray(st, _) => SizeOf(st)
    case SStructArray(d, _) => d.bytesize
  }

  function WalkArrayElement(buf: seq<byte>, loc: nat, t: StructFieldType, tail: seq<Q.Step>): Leaves
    requires t.SScalarArray? || t.SStructArray?
    decreases |tail|, 1, 0
  {
    match t
    case SStructArray(d, _) => if tail == [] then Err(UnsupportedType) else WalkStruct(buf, loc, d, tail)
    case SScalarArray(st, _) => if tail != [] then Err(UnsupportedType) else StructLeaf(buf, loc, st)
  }

  /** The leaves of the first `n` elements, in order; the first failing element's error. */
  function FanArray(buf: seq<byte>, loc: nat, t: StructFieldType, n: nat, tail: seq<Q.Step>): Leaves
    requires t.SScalarArray? || t.SStructArray?
    decreases |tail|, 1, n + 1
  {
    if n == 0 then Ok([])
    else
      var init :- FanArray(buf, loc, t, n - 1, tail);
      var last :- WalkArrayElement(buf, loc + Offset(n - 1, ArrayStride(t)), t, tail);
      Ok(init + last)
  }

  // Tables.

  /** `walk_table`. */
  function WalkTable(h: Heap, slots: map<nat, Slot>, t: nat, s: Schema, steps: seq<Q.Step>, o: ExecOptions): Leaves
    requires steps != []
    decreases |steps|, 0, 0
  {
    if !steps[0].Field? then Err(UnsupportedStep)
    else
      match FindField(TableAt(s, t).fields, steps[0].ref)
      case None => Err(FieldNotFound)
      case Some(f) => WalkField(h, slots, f, s, steps[1..], o)
  }

  function WalkField(h: Heap, slots: map<nat, Slot>, f: Field, s: Schema, tail: seq<Q.Step>, o: ExecOptions): Leaves
    decreases |tail|, 2, 0
  {
    if tail != [] && tail[0].UnionType? then
      if !f.typ.Union? || |tail| > 1 then Err(UnsupportedStep) else UnionTypeLeaf(slots, f)
    else if f.typ.Vector64? then Err(UnsupportedType)
    else if f.typ.Vector? then WalkVector(h, slots, f, f.typ.elem, s, tail, o)
    else if f.offset !in slots then
      if !f.typ.Scalar? then Ok([None])
      else if tail != [] then Err(UnsupportedType)
      else Ok([if o.fillDefaults then Some(DefaultLeaf(f, f.typ.st)) else None])
    else if tail == [] then
      match f.typ
      case Scalar(st, _) => Ok([Some(PresentScalar(slots, f, st))])
      case String => Ok([Some(Plain(StringAtSlot(h, slots, f.offset).UnwrapOr("")))])
      case Union(_) => UnionValueLeaf(h, slots, f)
      case _ => Err(UnsupportedType)
    else
      match f.typ
      case Struct(def) =>
        (match StructAtSlot(h, slots, f.offset)
         case Some(bytes) => WalkStruct(bytes, 0, def, tail)
         case None => Ok([None]))
      case Table(t) =>
        (match TableAtSlot(h, slots, f.offset)
         case Some(child) => WalkTable(h, child, t, s, tail, o)
         case None => Ok([None]))
      case Union(_) => WalkUnion(h, slots, f, s, tail, o)
      case _ => Err(UnsupportedType)
  }

  // Unions.

  /** The tag in the slot before the value's. */
  function Tag(slots: map<nat, Slot>, valueSlot: nat): nat
    requires valueSlot >= 2
  {
    if valueSlot - 2 in slots && slots[valueSlot - 2].Direct? && slots[valueSlot - 2].sc.I?
      && 0 <= slots[valueSlot - 2].sc.n <= 0xFF
    then slots[valueSlot - 2].sc.n else 0
  }

  /** `resolve_active_variant`: `Ok(None)` for NONE. */
  function ActiveVariant(slots: map<nat, Slot>, f: Field): Result<Option<VariantType>, ExecError>
    requires f.typ.Union?
  {
    if f.offset < 2 then Err(ReflectionError)
    else if Tag(slots, f.offset) == 0 then Ok(None)
    else
      match VariantByValue(f.typ.variants, Tag(slots, f.offset))
      case None => Err(ReflectionError)
      case Some(variant) => if variant.typ.None? then Err(ReflectionError) else Ok(variant.typ)
  }

  /** `walk_union`. */
  function WalkUnion(h: Heap, slots: map<nat, Slot>, f: Field, s: Schema, tail: seq<Q.Step>, o: ExecOptions): Leaves
    requires f.typ.Union? && tail != []
    decreases |tail|, 1, 0
  {
    var active :- ActiveVariant(slots, f);
    match active
    case None => Ok([None])
    case Some(VTable(t)) =>
      (match TableAtSlot(h, slots, f.offset)
       case Some(child) => WalkTable(h, child, t, s, tail, o)
       case None => Ok([None]))
    case Some(VStruct(def)) =>
      (match StructAtSlot(h, slots, f.offset)
       case Some(bytes) => WalkStruct(bytes, 0, def, tail)
       case None => Ok([None]))
    case Some(VString) => Err(UnsupportedType)
  }

  /** `read_union_type_leaf`: NONE has a name too. */
  function UnionTypeLeaf(slots: map<nat, Slot>, f: Field): Leaves
    requires f.typ.Union?
  {
    if f.offset < 2 then Err(ReflectionError)
    else
      match VariantByValue(f.typ.variants, Tag(slots, f.offset))
      case None => Err(ReflectionError)
      case Some(variant) => Ok([Some(Plain(variant.name))])
  }

  /** `read_union_value_leaf`: only a string variant is a leaf. */
  function UnionValueLeaf(h: Heap, slots: map<nat, Slot>, f: Field): Leaves
    requires f.typ.Union?
  {
    var active :- ActiveVariant(slots, f);
    match active
    case None => Ok([None])
    case Some(VString) =>
      (match StringAtSlot(h, slots, f.offset)
       case Some(text) => Ok([Some(Plain(text))])
       case None => Ok([None]))
    case Some(_) => Err(UnsupportedType)
  }

  // Vectors.

  /** `walk_vector`. */
  function WalkVector(h: Heap, slots: map<nat, Slot>, f: Field, el: ElementType, s: Schema, steps: seq<Q.Step>,
                      o: ExecOptions): Leaves
    decreases |steps|, 1, 0
  {
    if steps == [] then Err(UnsupportedType)
    else
      var tail := steps[1..];
      match steps[0]
      case Index(i) => WalkIndex(h, slots, f, el, s, i, tail, o)
      case All => WalkAll(h, slots, f, el, s, tail, o)
      case MapKey(key) => WalkMapKey(h, slots, f, el, s, key, tail, o)
      case MapKeys => WalkMapKeys(h, slots, f, el, s, tail, o)
      case UnionType => Err(UnsupportedStep)
      case Field(_) => Err(ReflectionError)
  }

  /** `walk_vector_at_index`. */
  function WalkIndex(h: Heap, slots: map<nat, Slot>, f: Field, el: ElementType, s: Schema, i: nat, tail: seq<Q.Step>,
                     o: ExecOptions): Leaves
    decreases |tail|, 1, 0
  {
    match el
    case EStruct(def) =>
      if tail == [] then Err(UnsupportedType)
      else
        (match BodyAtSlot(h, slots, f.offset)
         case None => Ok([None])
         case Some(body) =>
           if i >= Count(body) then Ok([None])
           else if def.bytesize == 0 then Err(ReflectionError)
           else WalkStruct(body, 4 + Offset(i, def.bytesize), def, tail))
    case ETable(t) =>
      (match VectorAtSlot(h, slots, f.offset)
       case None => Ok([None])
       case Some(items) =>
         if i >= |items| then Ok([None])
         else if tail == [] then Err(UnsupportedType)
         else WalkTable(h, SlotsAt(h, items[i]), t, s, tail, o))
    case _ =>
      if tail != [] then Err(UnsupportedType) else ReadElement(h, slots, f, el, i)
  }

  predicate ReadableElement(el: ElementType) {
    el.EString? || (el.EScalar? && !el.st.UType?)
  }

  /** The text of one scalar or string element. */
  function ElementLeaf(h: Heap, item: Slot, el: ElementType): Leaf {
    match el
    case EScalar(st, _) => ScalarLeaf(if item.Direct? && Fits(st, item.sc) then item.sc else ZeroScalar(st))
    case _ => Plain(if item.Ref? && item.node < |h| && h[item.node].StringNode? then h[item.node].s else "")
  }

  /** `read_vector_element`. */
  function ReadElement(h: Heap, slots: map<nat, Slot>, f: Field, el: ElementType, i: nat): Leaves {
    if !ReadableElement(el) then Err(UnsupportedType)
    else
      match ElementsAtSlot(h, slots, f.offset, el)
      case None => Ok([None])
      case Some(items) => if i >= |items| then Ok([None]) else Ok([Some(ElementLeaf(h, items[i], el))])
  }

  /** `read_vector_all`. */
  function ReadAll(h: Heap, slots: map<nat, Slot>, f: Field, el: ElementType): Leaves {
    if !ReadableElement(el) then Err(UnsupportedType)
    else
      match ElementsAtSlot(h, slots, f.offset, el)
      case None => Ok([])
      case Some(items) => Ok(seq(|items|, i requires 0 <= i < |items| => Some(ElementLeaf(h, items[i], el))))
  }

  /** `walk_vector_all`. */
  function WalkAll(h: Heap, slots: map<nat, Slot>, f: Field, el: ElementType, s: Schema, tail: seq<Q.Step>,
                   o: ExecOptions): Leaves
    decreases |tail|, 2, 0
  {
    match el
    case EStruct(def) =>
      if tail == [] then Err(UnsupportedType)
      else
        (match BodyAtSlot(h, slots, f.offset)
         case None => Ok([])
         case Some(body) => if def.bytesize == 0 then Err(ReflectionError)
           else FanStructs(body, def, Count(body), tail))
    case ETable(t) =>
      (match VectorAtSlot(h, slots, f.offset)
       case None => Ok([])
       case Some(items) => if tail == [] then Err(UnsupportedType) else FanTables(h, items, |items|, t, s, tail, o))
    case _ =>
      if tail != [] then Err(UnsupportedType) else ReadAll(h, slots, f, el)
  }

  /** The leaves of the first `n` struct elements. */
  function FanStructs(body: seq<byte>, def: StructDef, n: nat, tail: seq<Q.Step>): Leaves {
    if n == 0 then Ok([])
    else
      var init :- FanStructs(body, def, n - 1, tail);
      var last :- WalkStruct(body, 4 + Offset(n - 1, def.bytesize), def, tail);
      Ok(init + last)
  }

  /** The leaves of the first `n` table elements. */
  function FanTables(h: Heap, items: seq<Slot>, n: nat, t: nat, s: Schema, tail: seq<Q.Step>, o: ExecOptions): Leaves
    requires tail != [] && n <= |items|
    decreases |tail|, 1, n
  {
    if n == 0 then Ok([])
    else
      var init :- FanTables(h, items, n - 1, t, s, tail, o);
      var last :- WalkTable(h, SlotsAt(h, items[n - 1]), t, s, tail, o);
      Ok(init + last)
  }

  // Keyed vectors.

  /** `lookup_keyed_field`: exactly one. */
  function LookupKeyedField(fields: seq<Field>): Result<Field, ExecError> {
    match KeyedField(fields)
    case None => Err(UnsupportedType)
    case Some(kf) => if KeyCount(fields) > 1 then Err(ReflectionError) else Ok(kf)
  }

  /** `get_any_field_string` of an element's key. */
  function ElementKey(h: Heap, slots: map<nat, Slot>, kf: Field, rd: KeyReader): string {
    if kf.offset !in slots then AbsentText(kf, rd)
    else
      match slots[kf.offset]
      case Direct(sc) => ScalarText(sc, rd)
      case Ref(j) => if j < |h| && h[j].StringNode? then h[j].s else AbsentText(kf, rd)
      case Inline(_) => AbsentText(kf, rd)
  }

  predicate IsIntegerKeyType(t: FieldType) {
    t.Scalar? && IsInteger(t.st) && !t.st.UType?
  }

  datatype CompiledKey = TextKey(text: string) | IntKey(n: int)

  /** `compile_key`: `Ok(None)` when no element can match. */
  function CompileKey(kf: Field, key: Q.MapKey): Result<Option<CompiledKey>, ExecError> {
    match key
    case KeyText(text) =>
      if kf.typ.String? then Ok(Some(TextKey(text)))
      else if IsIntegerKeyType(kf.typ) then
        match Text.ParseI64(text)
        case Some(n) => Ok(Some(IntKey(n)))
        case None => Ok(None)
      else Err(UnsupportedType)
    case KeyInt(n) =>
      if kf.typ.String? then Ok(None)
      else if IsIntegerKeyType(kf.typ) then Ok(Some(IntKey(n)))
      else Err(UnsupportedType)
  }

  datatype Ordering = Less | Equal | Greater

  /** `compare_actual_to_compiled`: an integer that does not parse counts as less. */
  function Compare(actual: string, key: CompiledKey): Ordering {
    match key
    case TextKey(text) => if Text.Less(actual, text) then Less else if actual == text then Equal else Greater
    case IntKey(n) =>
      match Text.ParseI64(actual)
      case None => Less
      case Some(v) => if v < n then Less else if v == n then Equal else Greater
  }

  /** `key_matches`, the comparison of the linear scan. */
  function KeyMatches(actual: string, kf: Field, key: Q.MapKey): Result<bool, ExecError> {
    match key
    case KeyText(text) =>
      if kf.typ.String? then Ok(actual == text)
      else if IsIntegerKeyType(kf.typ) then
        if Text.ParseI64(text).None? then Ok(false)
        else Ok(Text.ParseI64(actual) == Text.ParseI64(text))
      else Err(UnsupportedType)
    case KeyInt(n) =>
      if kf.typ.String? then Ok(false)
      else if IsIntegerKeyType(kf.typ) then Ok(Text.ParseI64(actual) == Some(n))
      else Err(UnsupportedType)
  }

  /** The keys of a vector's elements, in wire order. */
  function Keys(h: Heap, items: seq<Slot>, kf: Field, rd: KeyReader): (keys: seq<string>)
    ensures |keys| == |items|
  {
    seq(|items|, i requires 0 <= i < |items| => ElementKey(h, SlotsAt(h, items[i]), kf, rd))
  }

  /** The binary search of the strict mode over `keys[lo..hi]`: the index it stops at. */
  function Bisect(keys: seq<string>, key: CompiledKey, lo: nat, hi: nat): (r: Option<nat>)
    requires lo <= hi <= |keys|
    ensures r.Some? ==> r.value < |keys|
    decreases hi - lo
  {
    if lo == hi then None
    else
      var mid := lo + (hi - lo) / 2;
      match Compare(keys[mid], key)
      case Equal => Some(mid)
      case Less => Bisect(keys, key, mid + 1, hi)
      case Greater => Bisect(keys, key, lo, mid)
  }

  /** The first match of the scan from `i` on. */
  function Scan(keys: seq<string>, kf: Field, key: Q.MapKey, i: nat): (r: Result<Option<nat>, ExecError>)
    requires i <= |keys|
    ensures r.Ok? && r.value.Some? ==> r.value.value < |keys|
    decreases |keys| - i
  {
    if i == |keys| then Ok(None)
    else
      match KeyMatches(keys[i], kf, key)
      case Err(e) => Err(e)
      case Ok(hit) => if hit then Ok(Some(i)) else Scan(keys, kf, key, i + 1)
  }

  function StrictIndex(keys: seq<string>, kf: Field, key: Q.MapKey): (r: Result<Option<nat>, ExecError>)
    ensures r.Ok? && r.value.Some? ==> r.value.value < |keys|
  {
    var compiled :- CompileKey(kf, key);
    match compiled
    case None => Ok(None)
    case Some(c) => Ok(Bisect(keys, c, 0, |keys|))
  }

  /** The index a lookup settles on. */
  function KeyIndex(keys: seq<string>, kf: Field, key: Q.MapKey, o: ExecOptions): (r: Result<Option<nat>, ExecError>)
    ensures r.Ok? && r.value.Some? ==> r.value.value < |keys|
  {
    if o.strictKeys then StrictIndex(keys, kf, key) else Scan(keys, kf, key, 0)
  }

  /** `walk_vector_at_map_key`. */
  function WalkMapKey(h: Heap, slots: map<nat, Slot>, f: Field, el: ElementType, s: Schema, key: Q.MapKey,
                      tail: seq<Q.Step>, o: ExecOptions): Leaves
    decreases |tail|, 1, 0
  {
    if !el.ETable? then Err(UnsupportedType)
    else
      var kf :- LookupKeyedField(TableAt(s, el.index).fields);
      if tail == [] then Err(UnsupportedType)
      else
        match VectorAtSlot(h, slots, f.offset)
        case None => Ok([None])
        case Some(items) =>
          var found :- KeyIndex(Keys(h, items, kf, o.reader), kf, key, o);
          match found
          case None => Ok([None])
          case Some(i) => WalkTable(h, SlotsAt(h, items[i]), el.index, s, tail, o)
  }

  /** `walk_vector_map_keys`. */
  function WalkMapKeys(h: Heap, slots: map<nat, Slot>, f: Field, el: ElementType, s: Schema, tail: seq<Q.Step>,
                       o: ExecOptions): Leaves {
    if !el.ETable? then Err(UnsupportedType)
    else
      var kf :- LookupKeyedField(TableAt(s, el.index).fields);
      if tail != [] then Err(UnsupportedType)
      else
        match VectorAtSlot(h, slots, f.offset)
        case None => Ok([])
        case Some(items) =>
          var keys := Keys(h, items, kf, o.reader);
          Ok(seq(|keys|, i requires 0 <= i < |keys| => Some(Plain(keys[i]))))
  }
}
