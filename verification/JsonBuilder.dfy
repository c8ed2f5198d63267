/**
 `build_table`, `build_vector`, `build_union_pair` and the keyed-object form, as they drive the builder.

 A table's children are built first, because a builder holds one open table at a time; their offsets wait
 in a list of pending pushes. Every method only appends nodes, so what earlier calls built stays what it
 was, and every method returns either a node that unfolds to the value `FromJson` specifies or the error
 it specifies. After an error the builder is dropped, so nothing is said about it but that it is sound.

 Loops carry the part of the specification that is still to come: the fields not yet visited, the elements
 not yet built, the members not yet decoded.
 */
module JsonBuilder {
  import opened Wrappers
  import opened Bytes
  import opened Schema
  import opened Scalars
  import opened StructLayout
  import opened Buffer
  import opened Blobs
  import opened FromJson
  import opened WritePhase
  import opened Builder
  import R = RoundTrip
  import J = Json
  import Text

  /** `json_to_buf`, up to the finished size. */
  method BuildBuffer(v: J.Value, root: nat, s: Schema, o: Options) returns (fbb: FlatBufferBuilder, r: Result<nat,
                     BuildError>)
    requires GoodSchema(s)
    ensures fresh(fbb) && Backward(fbb.nodes) && Builds(fbb.nodes, r, JsonToBuf(v, root, s, o))
  {
    hide EncTable, GoodSchema;
    fbb := new FlatBufferBuilder();
    if !v.Obj? { return fbb, Err(RootNotObject); }
    r := BuildTable(fbb, v, root, s, 0, o);
  }

  /** What is left of a list when some of it is done. */
  function Resume<T>(done: seq<T>, rest: Result<seq<T>, BuildError>): Result<seq<T>, BuildError> {
    if rest.Err? then rest else Ok(done + rest.value)
  }

  /** `build_table`: children first, then the table that points at them. */
  method BuildTable(fbb: FlatBufferBuilder, v: J.Value, t: nat, s: Schema, depth: nat,
                    o: Options) returns (r: Result<nat, BuildError>)
    requires GoodSchema(s) && Backward(fbb.nodes)
    modifies fbb
    ensures Backward(fbb.nodes) && old(fbb.nodes) <= fbb.nodes && Builds(fbb.nodes, r, EncTable(v, t, s, depth, o))
    decreases J.Height(v), 3, 0
  {
    hide *;
    TableUnfolds(v, t, s, depth, o);
    if !v.Obj? { return Err(TypeMismatch); }
    if depth > o.maxDepth { return Err(NestingTooDeep); }
    var def := TableAt(s, t);
    if o.unknownIsError && HasUnknownKey(v.m, def.fields) { return Err(UnknownField); }
    GoodAt(s, t);
    var pending: seq<RealPending> := [];
    ghost var done: seq<Pending> := [];
    NothingPending(fbb.nodes, EncFields(v, def.fields, s, depth, o));
    assert def.fields[0..] == def.fields;
    for i := 0 to |def.fields|
      invariant Backward(fbb.nodes) && old(fbb.nodes) <= fbb.nodes
      invariant AllRealize(fbb.nodes, pending, done)
      invariant EncFields(v, def.fields, s, depth, o) == Resume(done, EncFields(v, def.fields[i..], s, depth, o))
    {
      R.FieldIsGood(def, i);
      ghost var before := fbb.nodes;
      var push := BuildField(fbb, v, def.fields[i], s, depth, o);
      FieldsStep(v, def.fields, i, s, depth, o, done);
      PushesMeans(fbb.nodes, push, EncField(v, def.fields[i], s, depth, o));
      if push.Err? {
        TableFails(v, t, s, depth, o, push.error);
        return Err(push.error);
      }
      AllRealizeStable(before, fbb.nodes, pending, done);
      if push.value.Some? {
        ghost var p := Pending(def.fields[i].offset, EncField(v, def.fields[i], s, depth, o).value.value);
        OneMorePending(fbb.nodes, pending, done, RealPending(def.fields[i].offset, push.value.value), p);
        pending, done := pending + [RealPending(def.fields[i].offset, push.value.value)], done + [p];
      }
    }
    FieldsDone(v, def.fields, s, depth, o, done);
    r := WriteTable(fbb, pending, done);
    TableWritten(v, t, s, depth, o, done);
  }

  lemma {:induction false} TableUnfolds(v: J.Value, t: nat, s: Schema, depth: nat, o: Options)
    ensures forall h, e :: !v.Obj? && e == TypeMismatch ==> Builds(h, Err(e), EncTable(v, t, s, depth, o))
    ensures forall h :: v.Obj? && depth > o.maxDepth ==> Builds(h, Err(NestingTooDeep), EncTable(v, t, s, depth, o))
    ensures forall h ::
      v.Obj? && depth <= o.maxDepth && o.unknownIsError && HasUnknownKey(v.m, TableAt(s, t).fields) ==>
              Builds(h, Err(UnknownField), EncTable(v, t, s, depth, o))
  {
    hide EncFields, WriteSlots, HasUnknownKey, Leads;
  }

  lemma {:induction false} NothingPending(h: Heap, all: Result<seq<Pending>, BuildError>)
    ensures AllRealize(h, [], []) && Resume([], all) == all
  {
    if all.Ok? { assert [] + all.value == all.value; }
  }

  lemma {:induction false} PushesMeans(h: Heap, r: Result<Option<RealPush>, BuildError>, p: Result<Option<Push>,
                                       BuildError>)
    requires Pushes(h, r, p)
    ensures r.Err? ==> p == Err(r.error)
    ensures r.Ok? ==>
      p.Ok? && r.value.Some? == p.value.Some? && (r.value.Some? ==> Realizes(h, r.value.value, p.value.value))
  {
  }

  /** One turn of the loop over fields. */
  lemma {:induction false} FieldsStep(v: J.Value, fields: seq<Field>, i: nat, s: Schema, depth: nat, o: Options,
                                      done: seq<Pending>)
    requires v.Obj? && i < |fields|
    ensures var head := EncField(v, fields[i], s, depth, o);
      var all := Resume(done, EncFields(v, fields[i..], s, depth, o));
            if head.Err? then all == Err(head.error)
            else all == Resume(done + ToPending(fields[i], head.value), EncFields(v, fields[i + 1..], s, depth, o))
                 && (head.value.None? ==> done + ToPending(fields[i], head.value) == done)
                 && (head.value.Some? ==>
                   done + ToPending(fields[i], head.value) == done + [Pending(fields[i].offset, head.value.value)])
  {
    hide EncField;
    assert fields[i..][0] == fields[i] && fields[i..][1..] == fields[i + 1..];
    var head, rest := EncField(v, fields[i], s, depth, o), EncFields(v, fields[i + 1..], s, depth, o);
    if head.Ok? && rest.Ok? {
      assert done + (ToPending(fields[i], head.value) + rest.value) == done + ToPending(fields[i], head.value) +
        rest.value;
    }
    if head.Ok? && head.value.None? { assert done + [] == done; }
  }

  lemma {:induction false} OneMorePending(h: Heap, rs: seq<RealPending>, ps: seq<Pending>, r: RealPending, p: Pending)
    requires AllRealize(h, rs, ps) && r.slot == p.slot && Realizes(h, r.push, p.push)
    ensures AllRealize(h, rs + [r], ps + [p])
  {
    hide Realizes;
  }

  lemma {:induction false} FieldsDone(v: J.Value, fields: seq<Field>, s: Schema, depth: nat, o: Options,
                                      done: seq<Pending>)
    requires v.Obj? && EncFields(v, fields, s, depth, o) == Resume(done, EncFields(v, fields[|fields|..], s, depth, o))
    ensures EncFields(v, fields, s, depth, o) == Ok(done)
  {
    hide EncField;
    assert fields[|fields|..] == [] && done + [] == done;
  }

  lemma {:induction false} TableFails(v: J.Value, t: nat, s: Schema, depth: nat, o: Options, e: BuildError)
    requires v.Obj? && depth <= o.maxDepth && !(o.unknownIsError && HasUnknownKey(v.m, TableAt(s, t).fields))
    requires EncFields(v, TableAt(s, t).fields, s, depth, o) == Err(e)
    ensures forall h :: Builds(h, Err(e), EncTable(v, t, s, depth, o))
  {
    hide EncFields, WriteSlots, HasUnknownKey, Leads;
  }

  lemma {:induction false} TableWritten(v: J.Value, t: nat, s: Schema, depth: nat, o: Options, pending: seq<Pending>)
    requires v.Obj? && depth <= o.maxDepth && !(o.unknownIsError && HasUnknownKey(v.m, TableAt(s, t).fields))
    requires EncFields(v, TableAt(s, t).fields, s, depth, o) == Ok(pending)
    ensures var slots := WriteSlots(pending, map[]);
            EncTable(v, t, s, depth, o) == if slots.Err? then Err(slots.error) else Ok(TableVal(slots.value))
  {
    hide EncFields, WriteSlots, HasUnknownKey;
  }

  /** One turn of the pre-build phase. */
  method BuildField(fbb: FlatBufferBuilder, v: J.Value, f: Field, s: Schema, depth: nat,
                    o: Options) returns (r: Result<Option<RealPush>, BuildError>)
    requires GoodSchema(s) && GoodField(f) && Backward(fbb.nodes) && v.Obj?
    modifies fbb
    ensures Backward(fbb.nodes) && old(fbb.nodes) <= fbb.nodes && Pushes(fbb.nodes, r, EncField(v, f, s, depth, o))
    decreases J.Height(v), 1, 0
  {
    hide Backward, Realizes, EncPresent, EncUnion, GoodSchema, GoodField, J.Height;
    if f.typ.Union? {
      r := BuildUnionPair(fbb, v, f, s, depth + 1, o);
      if r.Ok? && r.value.None? && f.required { return Err(MissingRequiredField); }
      return;
    }
    var x := J.Present(v.m, f.name);
    if x.None? { return if f.required then Err(MissingRequiredField) else Ok(None); }
    J.MemberHeight(v.m, f.name);
    r := BuildPresent(fbb, x.value, f, s, depth, o);
  }

  /** A field's push, as `Pushes` with the push always there. */
  method BuildPresent(fbb: FlatBufferBuilder, x: J.Value, f: Field, s: Schema, depth: nat,
                      o: Options) returns (r: Result<Option<RealPush>, BuildError>)
    requires GoodSchema(s) && GoodField(f) && Backward(fbb.nodes) && !f.typ.Union?
    modifies fbb
    ensures Backward(fbb.nodes) && old(fbb.nodes) <= fbb.nodes
    ensures r.Ok? ==> r.value.Some?
    ensures var p := EncPresent(x, f, s, depth, o);
      Pushes(fbb.nodes, r, if p.Err? then Err(p.error) else Ok(Some(p.value)))
    decreases J.Height(x), 4, 0
  {
    hide Backward, EncTable, EncVector, StructBytes, EncodeScalar, DefaultScalar, GoodSchema, ValidLayout, J.Height,
      Leads, InBounds;
    match f.typ {
      case Scalar(st, en) =>
        var sc := EncodeScalar(st, en, x);
        if sc.Err? { return Err(sc.error); }
        return Ok(Some(ScalarSlot(sc.value, DefaultScalar(st, f.defaultInt, f.defaultReal))));
      case String =>
        if !x.Str? { return Err(TypeMismatch); }
        var node := BuildString(fbb, x.s);
        return Ok(Some(OffsetSlot(node)));
      case Struct(def) =>
        ValidIsInBounds(def);
        var bytes := BuildStructBytes(x, def);
        if bytes.Err? { return Err(bytes.error); }
        if def.minalign == 0 { return Err(Internal); }
        return Ok(Some(InlineStruct(bytes.value, def.minalign)));
      case Table(t) =>
        var node := BuildTable(fbb, x, t, s, depth + 1, o);
        return if node.Err? then Err(node.error) else Ok(Some(OffsetSlot(node.value)));
      case Vector(el) =>
        var node := BuildVector(fbb, x, el, f.hex, s, depth + 1, o);
        return if node.Err? then Err(node.error) else Ok(Some(OffsetSlot(node.value)));
      case Vector64 => return Err(Internal);
    }
  }

  method BuildString(fbb: FlatBufferBuilder, text: string) returns (node: nat)
    requires Backward(fbb.nodes)
    modifies fbb
    ensures Backward(fbb.nodes) && old(fbb.nodes) <= fbb.nodes && Leads(fbb.nodes, node, StringVal(text))
  {
    hide Backward;
    node := fbb.Append(StringNode(text));
  }

  /** `build_union_pair`. */
  method BuildUnionPair(fbb: FlatBufferBuilder, v: J.Value, f: Field, s: Schema, depth: nat,
                        o: Options) returns (r: Result<Option<RealPush>, BuildError>)
    requires GoodSchema(s) && GoodField(f) && Backward(fbb.nodes) && v.Obj? && f.typ.Union?
    modifies fbb
    ensures Backward(fbb.nodes) && old(fbb.nodes) <= fbb.nodes
    ensures Pushes(fbb.nodes, r, EncUnion(v, f.name, f.typ.variants, s, depth, o))
    decreases J.Height(v), 0, 0
  {
    hide Backward, EncVariant, GoodSchema, GoodField, J.Height, Leads, VariantByName, ValidLayout;
    var tag := DiscKey(f.name);
    if tag !in v.m {
      return if J.Present(v.m, f.name).None? then Ok(None) else Err(MissingUnionDiscriminator);
    }
    if !v.m[tag].Str? { return Err(TypeMismatch); }
    var variant := VariantByName(f.typ.variants, v.m[tag].s);
    if variant.None? { return Err(UnknownEnumName); }
    if variant.value.value < 0 || variant.value.value > 0xFF { return Err(Internal); }
    if variant.value.value == 0 { return Ok(Some(UnionPair(0, None))); }
    if variant.value.typ.None? { return Err(Internal); }
    if f.name !in v.m { return Err(MissingRequiredField); }
    J.MemberHeight(v.m, f.name);
    VariantIsGood(f, v.m[tag].s);
    var node := BuildVariant(fbb, v.m[f.name], variant.value.typ.value, s, depth, o);
    return if node.Err? then Err(node.error) else Ok(Some(UnionPair(variant.value.value, Some(node.value))));
  }

  lemma {:induction false} VariantIsGood(f: Field, name: string)
    requires GoodField(f) && f.typ.Union?
    ensures VariantByName(f.typ.variants, name).Some? && VariantByName(f.typ.variants, name).value.typ.Some? ==>
              R.GoodVariant(VariantByName(f.typ.variants, name).value.typ.value)
  {
    hide ValidLayout;
    VariantsByNameAndValue(f.typ.variants, name);
  }

  method BuildVariant(fbb: FlatBufferBuilder, x: J.Value, t: VariantType, s: Schema, depth: nat,
                      o: Options) returns (r: Result<nat, BuildError>)
    requires GoodSchema(s) && R.GoodVariant(t) && Backward(fbb.nodes)
    modifies fbb
    ensures Backward(fbb.nodes) && old(fbb.nodes) <= fbb.nodes && Builds(fbb.nodes, r, EncVariant(x, t, s, depth, o))
    decreases J.Height(x), 4, 0
  {
    hide Backward, EncTable, StructBytes, GoodSchema, J.Height, Leads, ValidLayout, Dispatchable, InBounds;
    match t {
      case VTable(i) => r := BuildTable(fbb, x, i, s, depth, o);
      case VStruct(def) =>
        ValidIsInBounds(def);
        var bytes := BuildStructBytes(x, def);
        if bytes.Err? { return Err(bytes.error); }
        if def.minalign == 0 { return Err(Internal); }
        if !Dispatchable(|bytes.value|, def.minalign) { return Err(Unsupported); }
        var node := BuildStruct(fbb, bytes.value);
        return Ok(node);
      case VString =>
        if !x.Str? { return Err(TypeMismatch); }
        var node := BuildString(fbb, x.s);
        return Ok(node);
    }
  }

  /** `push_struct_out_of_line`. */
  method BuildStruct(fbb: FlatBufferBuilder, bytes: seq<byte>) returns (node: nat)
    requires Backward(fbb.nodes)
    modifies fbb
    ensures Backward(fbb.nodes) && old(fbb.nodes) <= fbb.nodes && Leads(fbb.nodes, node, StructVal(bytes))
  {
    hide Backward;
    node := fbb.Append(StructNode(bytes));
  }

  // Vectors.

  /** `build_vector`. */
  method BuildVector(fbb: FlatBufferBuilder, x: J.Value, el: ElementType, hex: bool, s: Schema, depth: nat,
                     o: Options) returns (r: Result<nat, BuildError>)
    requires GoodSchema(s) && (el.EStruct? ==> ValidLayout(el.def)) && Backward(fbb.nodes)
    modifies fbb
    ensures Backward(fbb.nodes) && old(fbb.nodes) <= fbb.nodes
      && Builds(fbb.nodes, r, EncVector(x, el, hex, s, depth, o))
    decreases J.Height(x), 3, 0
  {
    hide Backward, EncBlob, EncKeyed, EncScalars, EncStrings, EncStructs, EncTables, PushStructVector, GoodSchema,
      J.Height, Leads, ValidLayout,
         KeyedField, TableAt;
    if depth > o.maxDepth { return Err(NestingTooDeep); }
    if IsBlob(el) {
      r := BuildBlob(fbb, x, hex);
      return;
    }
    if x.Obj? && el.ETable? && KeyedField(TableAt(s, el.index).fields).Some? {
      r := BuildKeyed(fbb, x, el.index, KeyedField(TableAt(s, el.index).fields).value, s, depth + 1, o);
      return;
    }
    if !x.Arr? { return Err(TypeMismatch); }
    match el {
      case EScalar(st, en) => r := BuildScalars(fbb, x.items, st, ElementEnum(st, en));
      case EString => r := BuildStrings(fbb, x.items);
      case EStruct(def) =>
        if def.minalign == 0 { return Err(Internal); }
        r := BuildStructs(fbb, x.items, def);
      case ETable(t) =>
        ItemHeights(x);
        r := BuildTables(fbb, x.items, t, s, depth + 1, o, J.Height(x));
      case EOther => return Err(Internal);
    }
  }

  method BuildBlob(fbb: FlatBufferBuilder, x: J.Value, hex: bool) returns (r: Result<nat, BuildError>)
    requires Backward(fbb.nodes)
    modifies fbb
    ensures Backward(fbb.nodes) && old(fbb.nodes) <= fbb.nodes && Builds(fbb.nodes, r, EncBlob(x, hex))
  {
    hide Backward, EncBlob;
    var blob := EncBlob(x, hex);
    if blob.Err? { return Err(blob.error); }
    BlobIsBytes(x, hex);
    var node := fbb.Append(BytesNode(blob.value.bytes));
    return Ok(node);
  }

  lemma {:induction false} BlobIsBytes(x: J.Value, hex: bool)
    ensures EncBlob(x, hex).Ok? ==> EncBlob(x, hex).value.BytesVal?
  {
    hide ParseBlob, EncByteItems;
  }

  method BuildScalars(fbb: FlatBufferBuilder, items: seq<J.Value>, st: ScalarType,
                      en: Option<EnumDef>) returns (r: Result<nat, BuildError>)
    requires Backward(fbb.nodes)
    modifies fbb
    ensures Backward(fbb.nodes) && old(fbb.nodes) <= fbb.nodes
    ensures var ws := EncScalars(items, st, en);
      Builds(fbb.nodes, r, if ws.Err? then Err(ws.error) else Ok(VectorVal(ws.value)))
  {
    hide Backward, EncodeScalar, EncScalars, Unfold;
    var out: seq<Slot> := [];
    ghost var ws: seq<Val> := [];
    ScalarsStep(items, 0, st, en);
    for i := 0 to |items|
      invariant fbb.nodes == old(fbb.nodes)
      invariant EncScalars(items[..i], st, en) == Ok(ws) && DirectAll(out, ws)
    {
      var sc := EncodeScalar(st, en, items[i]);
      ScalarsStep(items, i, st, en);
      if sc.Err? {
        ScalarsFail(items, i, |items|, st, en);
        assert items[..|items|] == items;
        return Err(sc.error);
      }
      out, ws := out + [Direct(sc.value)], ws + [ScalarVal(sc.value)];
    }
    assert items[..|items|] == items;
    VectorOfScalars(fbb.nodes, out, ws);
    var node := fbb.Append(VectorNode(out));
    return Ok(node);
  }

  predicate DirectAll(out: seq<Slot>, ws: seq<Val>) {
    |out| == |ws| && forall i :: 0 <= i < |out| ==> out[i].Direct? && ws[i] == ScalarVal(out[i].sc)
  }

  lemma {:induction false} VectorOfScalars(h: Heap, out: seq<Slot>, ws: seq<Val>)
    requires DirectAll(out, ws)
    ensures NodeBackward(VectorNode(out), |h|) && Leads(h + [VectorNode(out)], |h|, VectorVal(ws))
  {
    var g := h + [VectorNode(out)];
    forall i | 0 <= i < |out| ensures UnfoldSlot(g, out[i], |h|) == ws[i] { }
    assert Unfold(g, |h|).items == ws;
  }

  lemma {:induction false} ScalarsStep(items: seq<J.Value>, i: nat, st: ScalarType, en: Option<EnumDef>)
    ensures EncScalars(items[..0], st, en) == Ok([])
    ensures i < |items| && EncScalars(items[..i], st, en).Ok? ==>
              var sc := EncodeScalar(st, en, items[i]);
              EncScalars(items[..i + 1], st, en) == if sc.Err? then Err(sc.error)
                else Ok(EncScalars(items[..i], st, en).value + [ScalarVal(sc.value)])
  {
    hide EncodeScalar;
    if i < |items| { assert items[..i + 1][..i] == items[..i]; }
  }

  lemma {:induction false} ScalarsFail(items: seq<J.Value>, i: nat, n: nat, st: ScalarType, en: Option<EnumDef>)
    requires i < n <= |items| && EncScalars(items[..i + 1], st, en).Err?
    ensures EncScalars(items[..n], st, en) == EncScalars(items[..i + 1], st, en)
    decreases n
  {
    hide EncodeScalar;
    if i + 1 < n {
      ScalarsFail(items, i, n - 1, st, en);
      assert items[..n][..n - 1] == items[..n - 1];
    }
  }

  /** Strings out of line, then the vector of their offsets. */
  method BuildStrings(fbb: FlatBufferBuilder, items: seq<J.Value>) returns (r: Result<nat, BuildError>)
    requires Backward(fbb.nodes)
    modifies fbb
    ensures Backward(fbb.nodes) && old(fbb.nodes) <= fbb.nodes
    ensures var ws := EncStrings(items);
      Builds(fbb.nodes, r, if ws.Err? then Err(ws.error) else Ok(VectorVal(ws.value)))
  {
    hide Backward, EncStrings, Leads, AllLead;
    var offs: seq<nat> := [];
    ghost var ws: seq<Val> := [];
    StringsStep(items, 0);
    NoneLead(fbb.nodes);
    for i := 0 to |items|
      invariant Backward(fbb.nodes) && old(fbb.nodes) <= fbb.nodes
      invariant EncStrings(items[..i]) == Ok(ws) && AllLead(fbb.nodes, offs, ws)
    {
      StringsStep(items, i);
      if !items[i].Str? {
        StringsFail(items, i, |items|);
        assert items[..|items|] == items;
        return Err(TypeMismatch);
      }
      ghost var before := fbb.nodes;
      var node := BuildString(fbb, items[i].s);
      AllLeadStable(before, fbb.nodes, offs, ws);
      OneMoreLeads(fbb.nodes, offs, ws, node, StringVal(items[i].s));
      offs, ws := offs + [node], ws + [StringVal(items[i].s)];
    }
    assert items[..|items|] == items;
    var node := PushVectorOfOffsets(fbb, offs, ws);
    return Ok(node);
  }

  lemma {:induction false} NoneLead(h: Heap)
    ensures AllLead(h, [], [])
  {
  }

  lemma {:induction false} OneMoreLeads(h: Heap, nodes: seq<nat>, ws: seq<Val>, node: nat, w: Val)
    requires AllLead(h, nodes, ws) && Leads(h, node, w)
    ensures AllLead(h, nodes + [node], ws + [w])
  {
    hide Leads;
  }

  lemma {:induction false} StringsStep(items: seq<J.Value>, i: nat)
    ensures EncStrings(items[..0]) == Ok([])
    ensures i < |items| && EncStrings(items[..i]).Ok? ==>
              EncStrings(items[..i + 1]) ==
              if items[i].Str? then Ok(EncStrings(items[..i]).value + [StringVal(items[i].s)]) else Err(TypeMismatch)
  {
    if i < |items| { assert items[..i + 1][..i] == items[..i]; }
  }

  lemma {:induction false} StringsFail(items: seq<J.Value>, i: nat, n: nat)
    requires i < n <= |items| && EncStrings(items[..i + 1]).Err?
    ensures EncStrings(items[..n]) == EncStrings(items[..i + 1])
    decreases n
  {
    if i + 1 < n {
      StringsFail(items, i, n - 1);
      assert items[..n][..n - 1] == items[..n - 1];
    }
  }

  /** Struct elements back to back, handed over as one run of bytes. */
  method BuildStructs(fbb: FlatBufferBuilder, items: seq<J.Value>, def: StructDef) returns (r: Result<nat, BuildError>)
    requires Backward(fbb.nodes) && ValidLayout(def)
    modifies fbb
    ensures Backward(fbb.nodes) && old(fbb.nodes) <= fbb.nodes
    ensures var all := EncStructs(items, def);
      Builds(fbb.nodes, r, if all.Err? then Err(all.error) else PushStructVector(|items|, all.value, def))
  {
    hide Backward, EncStructs, StructBytes, ValidLayout, InBounds, PushStructVector, Leads;
    ValidIsInBounds(def);
    var all: seq<byte> := [];
    StructsStep(items, 0, def);
    for i := 0 to |items|
      invariant fbb.nodes == old(fbb.nodes) && EncStructs(items[..i], def) == Ok(all)
    {
      var bytes := BuildStructBytes(items[i], def);
      StructsStep(items, i, def);
      if bytes.Err? {
        StructsFail(items, i, |items|, def);
        assert items[..|items|] == items;
        return Err(bytes.error);
      }
      all := all + bytes.value;
    }
    assert items[..|items|] == items;
    r := PushVectorOfStructs(fbb, all, |items|, def);
  }

  lemma {:induction false} StructsStep(items: seq<J.Value>, i: nat, def: StructDef)
    ensures EncStructs(items[..0], def) == Ok([])
    ensures i < |items| && EncStructs(items[..i], def).Ok? ==>
              var bytes := StructBytes(items[i], def);
              EncStructs(items[..i + 1], def) == if bytes.Err? then Err(bytes.error)
                else Ok(EncStructs(items[..i], def).value + bytes.value)
  {
    hide StructBytes;
    if i < |items| { assert items[..i + 1][..i] == items[..i]; }
  }

  lemma {:induction false} StructsFail(items: seq<J.Value>, i: nat, n: nat, def: StructDef)
    requires i < n <= |items| && EncStructs(items[..i + 1], def).Err?
    ensures EncStructs(items[..n], def) == EncStructs(items[..i + 1], def)
    decreases n
  {
    hide StructBytes;
    if i + 1 < n {
      StructsFail(items, i, n - 1, def);
      assert items[..n][..n - 1] == items[..n - 1];
    }
  }

  /** Tables first, then the vector of their offsets. */
  method BuildTables(fbb: FlatBufferBuilder, items: seq<J.Value>, t: nat, s: Schema, depth: nat, o: Options,
                     ghost bound: nat)
    returns (r: Result<nat, BuildError>)
    requires GoodSchema(s) && Backward(fbb.nodes) && forall i :: 0 <= i < |items| ==> J.Height(items[i]) < bound
    modifies fbb
    ensures Backward(fbb.nodes) && old(fbb.nodes) <= fbb.nodes
    ensures var ws := EncTables(items, t, s, depth, o, bound);
      Builds(fbb.nodes, r, if ws.Err? then Err(ws.error) else Ok(VectorVal(ws.value)))
    decreases bound, 1, 0
  {
    hide Backward, EncTables, EncTable, Leads, AllLead, GoodSchema, J.Height;
    var offs: seq<nat> := [];
    ghost var ws: seq<Val> := [];
    TablesStep(items, 0, t, s, depth, o, bound);
    NoneLead(fbb.nodes);
    for i := 0 to |items|
      invariant Backward(fbb.nodes) && old(fbb.nodes) <= fbb.nodes
      invariant EncTables(items[..i], t, s, depth, o, bound) == Ok(ws) && AllLead(fbb.nodes, offs, ws)
    {
      ghost var before := fbb.nodes;
      var node := BuildTable(fbb, items[i], t, s, depth, o);
      TablesStep(items, i, t, s, depth, o, bound);
      if node.Err? {
        TablesFail(items, i, |items|, t, s, depth, o, bound);
        assert items[..|items|] == items;
        return Err(node.error);
      }
      AllLeadStable(before, fbb.nodes, offs, ws);
      ghost var w := EncTable(items[i], t, s, depth, o).value;
      OneMoreLeads(fbb.nodes, offs, ws, node.value, w);
      offs, ws := offs + [node.value], ws + [w];
    }
    assert items[..|items|] == items;
    var node := PushVectorOfOffsets(fbb, offs, ws);
    return Ok(node);
  }

  lemma {:induction false} TablesStep(items: seq<J.Value>, i: nat, t: nat, s: Schema, depth: nat, o: Options,
                                      bound: nat)
    requires forall i :: 0 <= i < |items| ==> J.Height(items[i]) < bound
    ensures EncTables(items[..0], t, s, depth, o, bound) == Ok([])
    ensures i < |items| && EncTables(items[..i], t, s, depth, o, bound).Ok? ==>
              var w := EncTable(items[i], t, s, depth, o);
              EncTables(items[..i + 1], t, s, depth, o, bound) ==
              if w.Err? then Err(w.error) else Ok(EncTables(items[..i], t, s, depth, o, bound).value + [w.value])
  {
    hide EncTable, J.Height;
    if i < |items| { assert items[..i + 1][..i] == items[..i]; }
  }

  lemma {:induction false} TablesFail(items: seq<J.Value>, i: nat, n: nat, t: nat, s: Schema, depth: nat, o: Options,
                                      bound: nat)
    requires forall i :: 0 <= i < |items| ==> J.Height(items[i]) < bound
    requires i < n <= |items| && EncTables(items[..i + 1], t, s, depth, o, bound).Err?
    ensures EncTables(items[..n], t, s, depth, o, bound) == EncTables(items[..i + 1], t, s, depth, o, bound)
    decreases n
  {
    hide EncTable, J.Height;
    if i + 1 < n {
      TablesFail(items, i, n - 1, t, s, depth, o, bound);
      assert items[..n][..n - 1] == items[..n - 1];
    }
  }

  /** `build_vector_of_keyed_tables_from_object`: collect, sort, build in the sorted order. */
  method BuildKeyed(fbb: FlatBufferBuilder, x: J.Value, t: nat, kf: Field, s: Schema, depth: nat,
                    o: Options) returns (r: Result<nat, BuildError>)
    requires GoodSchema(s) && Backward(fbb.nodes) && x.Obj?
    modifies fbb
    ensures Backward(fbb.nodes) && old(fbb.nodes) <= fbb.nodes && Builds(fbb.nodes, r, EncKeyed(x, t, kf, s, depth, o))
    decreases J.Height(x), 2, 0
  {
    hide Backward, EncTables, Leads, GoodSchema, J.Height, SortEntries, KeyedEntries, OneEntry, Text.SortedKeys;
    if depth > o.maxDepth { return Err(NestingTooDeep); }
    var entries := CollectEntries(x, kf);
    if entries.Err? { return Err(entries.error); }
    var sorted := SortEntries(entries.value);
    assert SortedEntries(x, kf) == Ok(sorted);
    assert forall i :: 0 <= i < |sorted| ==> sorted[i] in sorted;
    r := BuildTables(fbb, Rows(sorted), t, s, depth + 1, o, J.Height(x));
  }

  /** The loop over the object's members, in the order the object iterates. */
  method CollectEntries(x: J.Value, kf: Field) returns (r: Result<seq<Entry>, BuildError>)
    requires x.Obj?
    ensures r == KeyedEntries(x.m, Text.SortedKeys(x.m.Keys), kf)
  {
    hide OneEntry, Text.SortedKeys, KeyedEntries;
    var keys := Text.SortedKeys(x.m.Keys);
    var entries: seq<Entry> := [];
    EntriesStep(x.m, keys, 0, kf);
    for i := 0 to |keys|
      invariant KeyedEntries(x.m, keys[..i], kf) == Ok(entries)
    {
      assert keys[i] in keys;
      var entry := OneEntry(x.m, keys[i], kf);
      EntriesStep(x.m, keys, i, kf);
      if entry.Err? {
        EntriesFail(x.m, keys, i, |keys|, kf);
        assert keys[..|keys|] == keys;
        return Err(entry.error);
      }
      entries := entries + [entry.value];
    }
    assert keys[..|keys|] == keys;
    return Ok(entries);
  }

  lemma {:induction false} EntriesStep(m: map<string, J.Value>, keys: seq<string>, i: nat, kf: Field)
    requires forall k :: k in keys ==> k in m
    ensures KeyedEntries(m, keys[..0], kf) == Ok([])
    ensures i < |keys| && KeyedEntries(m, keys[..i], kf).Ok? ==>
              var e := OneEntry(m, keys[i], kf);
              KeyedEntries(m, keys[..i + 1], kf) == if e.Err? then Err(e.error)
                else Ok(KeyedEntries(m, keys[..i], kf).value + [e.value])
  {
    hide OneEntry;
    if i < |keys| { assert keys[..i + 1][..i] == keys[..i]; }
  }

  lemma {:induction false} EntriesFail(m: map<string, J.Value>, keys: seq<string>, i: nat, n: nat, kf: Field)
    requires forall k :: k in keys ==> k in m
    requires i < n <= |keys| && KeyedEntries(m, keys[..i + 1], kf).Err?
    ensures KeyedEntries(m, keys[..n], kf) == KeyedEntries(m, keys[..i + 1], kf)
    decreases n
  {
    hide OneEntry;
    if i + 1 < n {
      EntriesFail(m, keys, i, n - 1, kf);
      assert keys[..n][..n - 1] == keys[..n - 1];
    }
  }
}
