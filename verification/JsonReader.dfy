/**
 `to_json.rs` with its loops: each walker fills a local object or array and stops at the first error. The
 readers work on the nodes of the buffer; what they return is `ToJson` of the tree.
 */
module JsonReader {
  import opened Wrappers
  import opened Bytes
  import opened Schema
  import opened Scalars
  import opened Buffer
  import opened Blobs
  import opened KeyText
  import opened ToJson
  import opened HeapTree
  import S = StructJson
  import J = Json

  /** `buf_to_json` of the table at node `root`. */
  method BufToJson(h: Heap, root: nat, t: nat, s: Schema, rd: KeyReader) returns (r: S.Json)
    requires Backward(h) && root < |h|
    ensures r == ReadTable(Unfold(h, root), t, s, rd)
  {
    hide ReadTable;
    MirrorsNode(h, Ref(root), root + 1);
    assert UnfoldSlot(h, Ref(root), root + 1) == Unfold(h, root);
    r := TableToJson(h, SlotsAt(h, Ref(root)), root, Unfold(h, root), t, s, rd);
  }

  /** `table_to_json`: fields in id order into one object. */
  method TableToJson(h: Heap, slots: map<nat, Slot>, ghost b: nat, ghost v: Val, t: nat, s: Schema,
                     rd: KeyReader) returns (r: S.Json)
    requires Backward(h) && Mirrors(h, slots, b, v)
    ensures r == ReadTable(v, t, s, rd)
    decreases v, 5
  {
    hide ToJson.ReadField, ById, Mirrors, Backward, TableAt;
    var fields := TableAt(s, t).fields;
    var order := ById(fields);
    var m: map<string, J.Value> := map[];
    for i := 0 to |order|
      invariant ToJson.ReadFields(v, order, fields, map[], s, rd) == ToJson.ReadFields(v, order[i..], fields, m, s, rd)
    {
      assert order[i..][0] == order[i] && order[i..][1..] == order[i + 1..];
      var next := FieldToJson(h, slots, b, v, order[i], fields, m, s, rd);
      if next.Err? { return Err(next.error); }
      m := next.value;
    }
    return Ok(J.Obj(m));
  }

  method FieldToJson(h: Heap, slots: map<nat, Slot>, ghost b: nat, ghost v: Val, f: Field, fields: seq<Field>,
                     acc: map<string, J.Value>,
                     s: Schema, rd: KeyReader) returns (r: JsonMap)
    requires Backward(h) && Mirrors(h, slots, b, v)
    ensures r == ToJson.ReadField(v, f, fields, acc, s, rd)
    decreases v, 4
  {
    hide ReadValue, ReadUnion, ScalarJson, DefaultScalar, Mirrors, Backward, IsDiscriminator, UnfoldSlot, SlotScalar;
    SlotMirrored(h, slots, b, v, f.offset);
    if IsDiscriminator(f, fields) { return Ok(acc); }
    if f.typ.Union? {
      r := UnionToJson(h, slots, b, v, f, acc, s, rd);
      return;
    }
    if f.offset !in slots {
      if IsNullable(f.typ) { return Ok(acc); }
      AbsentScalar(v, f);
      var j := ScalarJson(f.typ.st, f.typ.en, DefaultScalar(f.typ.st, f.defaultInt, f.defaultReal));
      return if j.Err? then Err(j.error) else Ok(acc[f.name := j.value]);
    }
    var j := ValueToJson(h, slots, b, v, f, s, rd);
    return if j.Err? then Err(j.error) else Ok(acc[f.name := j.value]);
  }

  lemma {:induction false} AbsentScalar(v: Val, f: Field)
    requires f.typ.Scalar? && f.offset !in Slots(v)
    ensures SlotScalar(Slots(v), f, f.typ.st) == DefaultScalar(f.typ.st, f.defaultInt, f.defaultReal)
  {
  }

  lemma {:induction false} PresentScalar(h: Heap, slots: map<nat, Slot>, b: nat, v: Val, f: Field)
    requires Mirrors(h, slots, b, v) && f.typ.Scalar? && f.offset in slots
    ensures SlotScalar(Slots(v), f, f.typ.st) ==
            if slots[f.offset].Direct? && Fits(f.typ.st, slots[f.offset].sc) then slots[f.offset].sc
            else DefaultScalar(f.typ.st, f.defaultInt, f.defaultReal)
  {
    hide DefaultScalar, Fits, Mirrors;
    SlotMirrored(h, slots, b, v, f.offset);
    UnfoldedScalar(h, slots[f.offset], b);
  }

  method ValueToJson(h: Heap, slots: map<nat, Slot>, ghost b: nat, ghost v: Val, f: Field, s: Schema,
                     rd: KeyReader) returns (r: S.Json)
    requires Backward(h) && Mirrors(h, slots, b, v) && f.offset in slots && !f.typ.Union?
    ensures f.offset in Slots(v) && r == ReadValue(v, Slots(v)[f.offset], f, s, rd)
    decreases v, 3
  {
    hide ReadTable, ToJson.ReadVector, S.ReadStruct, ScalarJson, DefaultScalar, Mirrors, Backward, UnfoldSlot,
      SlotScalar, Fits,
         TableAtSlot, StructAtSlot, StringAtSlot;
    SlotMirrored(h, slots, b, v, f.offset);
    match f.typ {
      case Scalar(st, en) =>
        PresentScalar(h, slots, b, v, f);
        var stored := slots[f.offset].Direct? && Fits(st, slots[f.offset].sc);
        return ScalarJson(st, en, if stored then slots[f.offset].sc
          else DefaultScalar(st, f.defaultInt, f.defaultReal));
      case String => return Ok(J.Str(StringAtSlot(h, slots, f.offset).UnwrapOr("")));
      case Struct(def) =>
        var bytes := StructAtSlot(h, slots, f.offset);
        if bytes.None? { return Ok(J.Null); }
        r := S.StructToJson(bytes.value, 0, def);
      case Table(t) =>
        var child := TableAtSlot(h, slots, f.offset);
        if child.None? { return Ok(J.Null); }
        ChildMirrors(h, slots, b, v, f.offset);
        Smaller(v);
        r := TableToJson(h, child.value, slots[f.offset].node, Slots(v)[f.offset], t, s, rd);
      case Vector(el) => r := VectorToJson(h, slots, b, v, f.offset, el, f.hex, s, rd);
      case Vector64 => return Err(BadReflection);
    }
  }

  /** `emit_union_pair`: the tag's name, then the value when the tag is not NONE. */
  method UnionToJson(h: Heap, slots: map<nat, Slot>, ghost b: nat, ghost v: Val, f: Field, acc: map<string, J.Value>,
                     s: Schema, rd: KeyReader)
    returns (r: JsonMap)
    requires Backward(h) && Mirrors(h, slots, b, v) && f.typ.Union?
    ensures r == ReadUnion(v, f, acc, s, rd)
    decreases v, 3
  {
    hide ReadVariant, Mirrors, Backward, UnfoldSlot, VariantByValue, Discriminator;
    if f.offset < 2 { return Err(BadReflection); }
    var tag := ReadTag(h, slots, b, v, f.offset);
    SlotMirrored(h, slots, b, v, f.offset);
    var variant := VariantByValue(f.typ.variants, tag);
    if variant.None? { return Err(BadReflection); }
    var m := acc[DiscKey(f.name) := J.Str(variant.value.name)];
    if tag == 0 { return Ok(m); }
    if variant.value.typ.None? { return Err(BadReflection); }
    if f.offset !in slots { return Ok(m[f.name := J.Null]); }
    var j := VariantToJson(h, slots, b, v, f.offset, variant.value.typ.value, s, rd);
    return if j.Err? then Err(j.error) else Ok(m[f.name := j.value]);
  }

  method ReadTag(h: Heap, slots: map<nat, Slot>, ghost b: nat, ghost v: Val, valueSlot: nat) returns (tag: nat)
    requires Mirrors(h, slots, b, v) && valueSlot >= 2
    ensures tag == Discriminator(Slots(v), valueSlot)
  {
    var o: nat := valueSlot - 2;
    tag := 0;
    if o in slots {
      SlotMirrored(h, slots, b, v, o);
      UnfoldedScalar(h, slots[o], b);
      if slots[o].Direct? && slots[o].sc.I? && 0 <= slots[o].sc.n <= 0xFF { tag := slots[o].sc.n; }
    }
  }

  method VariantToJson(h: Heap, slots: map<nat, Slot>, ghost b: nat, ghost v: Val, o: nat, t: VariantType, s: Schema,
                       rd: KeyReader)
    returns (r: S.Json)
    requires Backward(h) && Mirrors(h, slots, b, v) && o in slots
    ensures o in Slots(v) && r == ReadVariant(Slots(v)[o], t, s, rd)
    decreases v, 2
  {
    hide ReadTable, S.ReadStruct, Mirrors, Backward, UnfoldSlot, TableAtSlot, StructAtSlot, StringAtSlot;
    SlotMirrored(h, slots, b, v, o);
    match t {
      case VTable(i) =>
        var child := TableAtSlot(h, slots, o);
        if child.None? { return Ok(J.Null); }
        ChildMirrors(h, slots, b, v, o);
        Smaller(v);
        r := TableToJson(h, child.value, slots[o].node, Slots(v)[o], i, s, rd);
      case VStruct(def) =>
        var bytes := StructAtSlot(h, slots, o);
        if bytes.None? { return Ok(J.Null); }
        r := S.StructToJson(bytes.value, 0, def);
      case VString =>
        var text := StringAtSlot(h, slots, o);
        return Ok(if text.Some? then J.Str(text.value) else J.Null);
    }
  }

  // Vectors.

  /** `vector_to_json`. */
  method VectorToJson(h: Heap, slots: map<nat, Slot>, ghost b: nat, ghost v: Val, o: nat, el: ElementType, hex: bool,
                      s: Schema, rd: KeyReader)
    returns (r: S.Json)
    requires Backward(h) && Mirrors(h, slots, b, v) && o in slots
    ensures o in Slots(v) && r == ToJson.ReadVector(Slots(v)[o], el, hex, s, rd)
    decreases v, 2
  {
    hide ReadScalars, ReadStrings, ReadStructs, ReadTables, ReadRows, Mirrors, Backward, UnfoldSlot, VectorAtSlot,
      BodyAtSlot, Items, Body,
         ElementsMirror, BlobText, Unsigned, Window, KeyedField, TableAt;
    SlotMirrored(h, slots, b, v, o);
    ghost var x := Slots(v)[o];
    ghost var seen, nb := VectorMirrored(h, slots, b, v, o);
    var items := VectorAtSlot(h, slots, o).value;
    MirrorLength(h, items, nb, Items(x));
    Smaller(v);
    match el {
      case EScalar(st, en) =>
        if st.UByte? || st.UType? {
          var bytes := BytesAtSlot(h, slots, b, v, o);
          return Ok(if bytes.Some? then J.Str(BlobText(bytes.value, hex)) else J.Arr([]));
        }
        var out := ScalarsToJson(h, items, nb, Items(x), st, if st.Int? then en else None);
        return if out.Err? then Err(out.error) else Ok(J.Arr(out.value));
      case EString =>
        var out := StringsToJson(h, items, nb, Items(x));
        return Ok(J.Arr(out));
      case EStruct(def) =>
        var out := StructsToJson(BodyAtSlot(h, slots, o).value, def);
        return if out.Err? then Err(out.error) else Ok(J.Arr(out.value));
      case ETable(t) =>
        var kf := KeyedField(TableAt(s, t).fields);
        if kf.Some? {
          var m := RowsToJson(h, items, nb, x, kf.value, t, s, rd);
          return if m.Err? then Err(m.error) else Ok(J.Obj(m.value));
        }
        var out := TablesToJson(h, items, nb, x, t, s, rd);
        return if out.Err? then Err(out.error) else Ok(J.Arr(out.value));
      case EOther => return Err(BadReflection);
    }
  }

  /** Slots and elements are smaller trees, so the walk ends. */
  lemma {:induction false} Smaller(v: Val)
    ensures forall o :: o in Slots(v) ==> Slots(v)[o] < v
    ensures forall i :: 0 <= i < |Items(v)| ==> Items(v)[i] < v
  {
  }

  method BytesAtSlot(h: Heap, slots: map<nat, Slot>, ghost b: nat, ghost v: Val,
                     o: nat) returns (bytes: Option<seq<byte>>)
    requires Mirrors(h, slots, b, v) && o in slots
    ensures o in Slots(v) && bytes == if Slots(v)[o].BytesVal? then Some(Slots(v)[o].bytes) else None
  {
    SlotMirrored(h, slots, b, v, o);
    var slot := slots[o];
    bytes := if slot.Ref? && h[slot.node].BytesNode? then Some(h[slot.node].bytes) else None;
  }

  method ScalarsToJson(h: Heap, items: seq<Slot>, ghost nb: nat, ghost vals: seq<Val>, st: ScalarType,
                       en: Option<EnumDef>)
    returns (r: Result<seq<J.Value>, ToJsonError>)
    requires ElementsMirror(h, items, nb, vals)
    ensures r == ReadScalars(vals, st, en)
  {
    hide ScalarJson, ElementsMirror, ReadScalars, UnfoldSlot, Fits, ZeroScalar;
    MirrorLength(h, items, nb, vals);
    var out: seq<J.Value> := [];
    OneMoreScalar(vals, 0, st, en);
    for i := 0 to |items|
      invariant ReadScalars(vals[..i], st, en) == Ok(out)
    {
      MirrorAt(h, items, nb, vals, i);
      UnfoldedScalar(h, items[i], nb);
      var sc := if items[i].Direct? && Fits(st, items[i].sc) then items[i].sc else ZeroScalar(st);
      var j := ScalarJson(st, en, sc);
      OneMoreScalar(vals, i, st, en);
      if j.Err? {
        ScalarsError(vals, i, |vals|, st, en);
        assert vals[..|vals|] == vals;
        return Err(j.error);
      }
      out := out + [j.value];
    }
    assert vals[..|vals|] == vals;
    return Ok(out);
  }

  lemma {:induction false} OneMoreScalar(vals: seq<Val>, i: nat, st: ScalarType, en: Option<EnumDef>)
    ensures ReadScalars(vals[..0], st, en) == Ok([])
    ensures i < |vals| && ReadScalars(vals[..i], st, en).Ok? ==>
              ReadScalars(vals[..i + 1], st, en) ==
              var j := ScalarJson(st, en, ItemScalar(vals[i], st));
              if j.Err? then Err(j.error) else Ok(ReadScalars(vals[..i], st, en).value + [j.value])
  {
    hide ScalarJson, ItemScalar;
    if i < |vals| { assert vals[..i + 1][..i] == vals[..i]; }
  }

  lemma {:induction false} ScalarsError(vals: seq<Val>, i: nat, n: nat, st: ScalarType, en: Option<EnumDef>)
    requires i < n <= |vals| && ReadScalars(vals[..i + 1], st, en).Err?
    ensures ReadScalars(vals[..n], st, en) == ReadScalars(vals[..i + 1], st, en)
    decreases n
  {
    hide ScalarJson, ItemScalar;
    if i + 1 < n {
      ScalarsError(vals, i, n - 1, st, en);
      assert vals[..n][..n - 1] == vals[..n - 1];
    }
  }

  method StringsToJson(h: Heap, items: seq<Slot>, ghost nb: nat, ghost vals: seq<Val>) returns (out: seq<J.Value>)
    requires ElementsMirror(h, items, nb, vals)
    ensures out == ReadStrings(vals)
  {
    hide ElementsMirror;
    MirrorLength(h, items, nb, vals);
    out := [];
    for i := 0 to |items|
      invariant |out| == i && forall k :: 0 <= k < i ==> out[k] == ReadStrings(vals)[k]
    {
      MirrorAt(h, items, nb, vals, i);
      var text := if items[i].Ref? && h[items[i].node].StringNode? then h[items[i].node].s else "";
      out := out + [J.Str(text)];
    }
  }

  /** `vector_of_struct_to_json`: the count word, then one struct per stride. */
  method StructsToJson(body: seq<byte>, def: StructDef) returns (r: Result<seq<J.Value>, ToJsonError>)
    ensures r == ReadStructs(body, def, Unsigned(Window(body, 0, 4)))
  {
    hide S.ReadStruct, Offset, Unsigned, Window;
    var n := Unsigned(Window(body, 0, 4));
    var out: seq<J.Value> := [];
    for i := 0 to n
      invariant ReadStructs(body, def, i) == Ok(out)
    {
      var j := S.StructToJson(body, 4 + Offset(i, def.bytesize), def);
      if j.Err? {
        StructsError(body, def, i, n);
        return Err(j.error);
      }
      out := out + [j.value];
    }
    return Ok(out);
  }

  lemma {:induction false} StructsError(body: seq<byte>, def: StructDef, i: nat, n: nat)
    requires i < n && ReadStructs(body, def, i).Ok? && S.ReadStruct(body, 4 + Offset(i, def.bytesize), def).Err?
    ensures ReadStructs(body, def, n) == Err(S.ReadStruct(body, 4 + Offset(i, def.bytesize), def).error)
    decreases n
  {
    hide S.ReadStruct, Offset;
    if i + 1 < n { StructsError(body, def, i, n - 1); }
  }

  method TablesToJson(h: Heap, items: seq<Slot>, ghost nb: nat, ghost x: Val, t: nat, s: Schema, rd: KeyReader)
    returns (r: Result<seq<J.Value>, ToJsonError>)
    requires Backward(h) && ElementsMirror(h, items, nb, Items(x))
    ensures r == ReadTables(x, |Items(x)|, t, s, rd)
    decreases x, 6
  {
    hide ReadTable, Items, ElementsMirror, Backward, Mirrors, SlotsAt, UnfoldSlot;
    MirrorLength(h, items, nb, Items(x));
    var out: seq<J.Value> := [];
    for i := 0 to |items|
      invariant ReadTables(x, i, t, s, rd) == Ok(out)
    {
      MirrorAt(h, items, nb, Items(x), i);
      MirrorsNode(h, items[i], nb);
      Smaller(x);
      var j := ElementToJson(h, items[i], nb, Items(x)[i], t, s, rd);
      if j.Err? {
        TablesError(x, i, |items|, t, s, rd);
        return Err(j.error);
      }
      out := out + [j.value];
    }
    return Ok(out);
  }

  method ElementToJson(h: Heap, item: Slot, ghost nb: nat, ghost v: Val, t: nat, s: Schema,
                       rd: KeyReader) returns (r: S.Json)
    requires Backward(h) && (item.Ref? ==> item.node < nb)
      && Mirrors(h, SlotsAt(h, item), if item.Ref? then item.node else 0, v)
    ensures r == ReadTable(v, t, s, rd)
    decreases v, 6
  {
    r := TableToJson(h, SlotsAt(h, item), if item.Ref? then item.node else 0, v, t, s, rd);
  }

  lemma {:induction false} TablesError(x: Val, i: nat, n: nat, t: nat, s: Schema, rd: KeyReader)
    requires i < n <= |Items(x)| && ReadTables(x, i, t, s, rd).Ok? && ReadTable(Items(x)[i], t, s, rd).Err?
    ensures ReadTables(x, n, t, s, rd) == Err(ReadTable(Items(x)[i], t, s, rd).error)
    decreases n
  {
    hide ReadTable, Items;
    if i + 1 < n { TablesError(x, i, n - 1, t, s, rd); }
  }

  /** The keyed branch of `vector_to_json`: rows into one object under their keys. */
  method RowsToJson(h: Heap, items: seq<Slot>, ghost nb: nat, ghost x: Val, kf: Field, t: nat, s: Schema,
                    rd: KeyReader) returns (r: JsonMap)
    requires Backward(h) && ElementsMirror(h, items, nb, Items(x))
    ensures r == ReadRows(x, |Items(x)|, kf, t, s, rd)
    decreases x, 6
  {
    hide ReadTable, Items, ElementsMirror, Backward, Mirrors, SlotsAt, UnfoldSlot, RowKey;
    MirrorLength(h, items, nb, Items(x));
    var m: map<string, J.Value> := map[];
    for i := 0 to |items|
      invariant ReadRows(x, i, kf, t, s, rd) == Ok(m)
    {
      MirrorAt(h, items, nb, Items(x), i);
      MirrorsNode(h, items[i], nb);
      Smaller(x);
      var row := ElementToJson(h, items[i], nb, Items(x)[i], t, s, rd);
      if row.Err? {
        RowsError(x, i, |items|, kf, t, s, rd);
        return Err(row.error);
      }
      var key := KeyOfRow(h, SlotsAt(h, items[i]), if items[i].Ref? then items[i].node else 0, Items(x)[i], kf, rd);
      m := m[key := row.value];
    }
    return Ok(m);
  }

  lemma {:induction false} RowsError(x: Val, i: nat, n: nat, kf: Field, t: nat, s: Schema, rd: KeyReader)
    requires i < n <= |Items(x)| && ReadRows(x, i, kf, t, s, rd).Ok? && ReadTable(Items(x)[i], t, s, rd).Err?
    ensures ReadRows(x, n, kf, t, s, rd) == Err(ReadTable(Items(x)[i], t, s, rd).error)
    decreases n
  {
    hide ReadTable, Items, RowKey;
    if i + 1 < n { RowsError(x, i, n - 1, kf, t, s, rd); }
  }

  method KeyOfRow(h: Heap, slots: map<nat, Slot>, ghost b: nat, ghost v: Val, kf: Field,
                  rd: KeyReader) returns (key: string)
    requires Mirrors(h, slots, b, v)
    ensures key == RowKey(v, kf, rd)
  {
    hide AbsentText, ScalarText;
    SlotMirrored(h, slots, b, v, kf.offset);
    if kf.offset in slots { UnfoldedScalar(h, slots[kf.offset], b); }
    if kf.offset in slots && slots[kf.offset].Direct? { return ScalarText(slots[kf.offset].sc, rd); }
    var text := StringAtSlot(h, slots, kf.offset);
    return if text.Some? then text.value else AbsentText(kf, rd);
  }
}
