/**
 Union pairs: the two writers of a tag agree, a tag and its value come together, and all readers resolve
 one variant.
 */
module Unions {
  import opened Wrappers
  import opened Schema
  import opened Scalars
  import opened Buffer
  import opened KeyText
  import opened FromJson
  import opened ToJson
  import opened WritePhase
  import opened RoundTrip
  import E = Executor
  import J = Json

  /** In every built table the tag is non-zero exactly when the value is there. */
  lemma {:induction false} TagIffValue(v: J.Value, t: nat, s: Schema, depth: nat, o: Options, k: nat)
    requires EncTable(v, t, s, depth, o).Ok? && GoodTable(TableAt(s, t))
    requires k < |TableAt(s, t).fields| && TableAt(s, t).fields[k].typ.Union?
    ensures var w := EncTable(v, t, s, depth, o).value; var f := TableAt(s, t).fields[k];
            && w.TableVal? && f.offset >= 2
            && (Discriminator(w.slots, f.offset) != 0 <==> f.offset in w.slots)
  {
    hide EncTable, EncField, GoodTable, TableAt;
    SlotsOfUnion(v, t, s, depth, o, k);
    PushOfUnion(v, t, s, depth, o, k);
  }

  lemma {:induction false} PushOfUnion(v: J.Value, t: nat, s: Schema, depth: nat, o: Options, k: nat)
    requires EncTable(v, t, s, depth, o).Ok?
    requires k < |TableAt(s, t).fields| && TableAt(s, t).fields[k].typ.Union?
    ensures v.Obj?
    ensures var f := TableAt(s, t).fields[k]; var push := EncField(v, f, s, depth, o);
            && push.Ok? && EncUnion(v, f.name, f.typ.variants, s, depth + 1, o) == push
            && (push.value.Some? ==>
                  && push.value.value.PushUnion? && DiscKey(f.name) in v.m && v.m[DiscKey(f.name)].Str?
                  && push.value.value.disc <= 0xFF && (push.value.value.disc == 0 <==> push.value.value.content.None?))
            && (push.value.None? ==> DiscKey(f.name) !in v.m)
  {
    hide WriteSlots, HasUnknownKey, EncVariant;
    var f := TableAt(s, t).fields[k];
    PendingOfFields(v, TableAt(s, t).fields, s, depth, o);
    if EncField(v, f, s, depth, o).value.Some? { UnionPush(v, f, s, depth + 1, o); }
  }

  /** The executor finds the tag the JSON reader finds, in any buffer. */
  lemma {:induction false} TagThroughHeap(h: Heap, j: nat, valueSlot: nat)
    requires j < |h| && h[j].TableNode? && valueSlot >= 2
    ensures E.Tag(h[j].slots, valueSlot) == Discriminator(Slots(Unfold(h, j)), valueSlot)
  {
    var slots := h[j].slots;
    var o: nat := valueSlot - 2;
    assert Slots(Unfold(h, j)).Keys == slots.Keys;
    if o in slots {
      assert Slots(Unfold(h, j))[o] == UnfoldSlot(h, slots[o], j);
      UnfoldIsNoScalar(h, slots[o], j);
    }
  }

  lemma {:induction false} UnfoldIsNoScalar(h: Heap, s: Slot, below: nat)
    ensures UnfoldSlot(h, s, below).ScalarVal? <==> s.Direct?
    ensures s.Direct? ==> UnfoldSlot(h, s, below) == ScalarVal(s.sc)
  {
  }

  /** `to_json` and `|type` name the same variant, or fail alike; descent resolves that variant's type. */
  lemma {:induction false} ReadersResolveAlike(h: Heap, j: nat, f: Field, s: Schema, rd: KeyReader, acc: map<string,
                                               J.Value>)
    requires j < |h| && h[j].TableNode? && f.typ.Union? && f.offset >= 2
    ensures var variant := VariantByValue(f.typ.variants, Discriminator(Slots(Unfold(h, j)), f.offset));
            && E.UnionTypeLeaf(h[j].slots, f) ==
              (if variant.None? then Err(E.ReflectionError) else Ok([Some(E.Plain(variant.value.name))]))
            && (var m := ReadUnion(Unfold(h, j), f, acc, s, rd);
                && (variant.None? ==> m == Err(BadReflection))
                && (m.Ok? && f.name != DiscKey(f.name) ==>
                  DiscKey(f.name) in m.value && m.value[DiscKey(f.name)] == J.Str(variant.value.name)))
            && (var active := E.ActiveVariant(h[j].slots, f);
                if Discriminator(Slots(Unfold(h, j)), f.offset) == 0 then active == Ok(None)
                else if variant.None? || variant.value.typ.None? then active == Err(E.ReflectionError)
                else active == Ok(variant.value.typ))
  {
    hide E.Tag, Discriminator, ReadVariant, Unfold;
    TagThroughHeap(h, j, f.offset);
  }

  /**
   A document's tag survives: after building, `|type` returns the name the document gave and descent
   enters the type of the variant so named; a document without the union reads as NONE.
   */
  lemma {:induction false} BuiltVariant(v: J.Value, t: nat, s: Schema, depth: nat, o: Options, k: nat, h: Heap, j: nat)
    requires EncTable(v, t, s, depth, o).Ok? && GoodTable(TableAt(s, t)) && j < |h|
      && Unfold(h, j) == EncTable(v, t, s, depth, o).value
    requires k < |TableAt(s, t).fields| && TableAt(s, t).fields[k].typ.Union?
    ensures h[j].TableNode? && v.Obj? && TableAt(s, t).fields[k].offset >= 2
    ensures var f := TableAt(s, t).fields[k]; var tag := f.name + "_type";
            if tag !in v.m then E.Tag(h[j].slots, f.offset) == 0 && E.ActiveVariant(h[j].slots, f) == Ok(None)
            else
              && v.m[tag].Str?
              && E.UnionTypeLeaf(h[j].slots, f) == Ok([Some(E.Plain(v.m[tag].s))])
              && VariantByName(f.typ.variants, v.m[tag].s).Some?
              && var variant := VariantByName(f.typ.variants, v.m[tag].s).value;
                 E.ActiveVariant(h[j].slots, f) == Ok(if variant.value == 0 then None else variant.typ)
  {
    hide *;
    var f := TableAt(s, t).fields[k];
    var tag := f.name + "_type";
    TagKey(f.name);
    TableParts(v, t, s, depth, o);
    TableNodeOf(h, j);
    SlotsOfUnion(v, t, s, depth, o, k);
    FieldIsGood(TableAt(s, t), k);
    PushOfUnion(v, t, s, depth, o, k);
    TagThroughHeap(h, j, f.offset);
    ReadTag(h[j].slots, f);
    SlotsOf(h, j);
    DiscriminatorOf(Slots(Unfold(h, j)), f, EncField(v, f, s, depth, o).value);
    if tag in v.m {
      NamedVariant(v, f, s, depth + 1, o);
      VariantOfPush(v, f, s, depth + 1, o);
    }
  }

  lemma {:induction false} TagKey(name: string)
    ensures DiscKey(name) == name + "_type"
  {
  }

  lemma {:induction false} TableNodeOf(h: Heap, j: nat)
    requires j < |h| && Unfold(h, j).TableVal?
    ensures h[j].TableNode?
  {
  }

  lemma {:induction false} SlotsOf(h: Heap, j: nat)
    requires Unfold(h, j).TableVal?
    ensures Slots(Unfold(h, j)) == Unfold(h, j).slots
  {
  }

  lemma {:induction false} ReadTag(slots: map<nat, Slot>, f: Field)
    requires f.typ.Union? && f.offset >= 2
    ensures E.Tag(slots, f.offset) == 0 ==> E.ActiveVariant(slots, f) == Ok(None)
    ensures VariantByValue(f.typ.variants, E.Tag(slots, f.offset)).Some? ==>
              var variant := VariantByValue(f.typ.variants, E.Tag(slots, f.offset)).value;
              && E.UnionTypeLeaf(slots, f) == Ok([Some(E.Plain(variant.name))])
              && (E.Tag(slots, f.offset) != 0 && variant.typ.Some? ==> E.ActiveVariant(slots, f) == Ok(variant.typ))
  {
    hide E.Tag;
  }

  lemma {:induction false} DiscriminatorOf(slots: map<nat, Val>, f: Field, push: Option<Push>)
    requires f.offset >= 2
    requires push.None? ==> Lookup(slots, f.offset - 2) == None
    requires push.Some? ==>
      push.value.PushUnion? && push.value.disc <= 0xFF && Lookup(slots, f.offset - 2) == TagOf(push.value.disc)
    ensures Discriminator(slots, f.offset) == if push.None? then 0 else push.value.disc
  {
  }

  lemma {:induction false} NamedVariant(v: J.Value, f: Field, s: Schema, depth: nat, o: Options)
    requires v.Obj? && f.typ.Union? && EncUnion(v, f.name, f.typ.variants, s, depth, o).Ok? && DiscKey(f.name) in v.m
    ensures EncUnion(v, f.name, f.typ.variants, s, depth, o).value.Some?
    ensures v.m[DiscKey(f.name)].Str? && VariantByName(f.typ.variants, v.m[DiscKey(f.name)].s).Some?
  {
    hide EncVariant;
  }

  /** A tag whose value is not there is shown with `null`; one without a type is a fault of the schema. */
  lemma {:induction false} TagWithoutValue(v: Val, f: Field, x: Variant, s: Schema, rd: KeyReader,
                                           acc: map<string, J.Value>)
    requires f.typ.Union? && f.offset >= 2 && f.offset !in Slots(v) && Discriminator(Slots(v), f.offset) != 0
    requires IsFirst(f.typ.variants, (y: Variant) => y.value == Discriminator(Slots(v), f.offset), Some(x))
    ensures ReadUnion(v, f, acc, s, rd) ==
            if x.typ.None? then Err(BadReflection)
            else Ok(acc[f.name + "_type" := J.Str(x.name)][f.name := J.Null])
  {
    hide VariantByValue, Slots;
    var tag := Discriminator(Slots(v), f.offset);
    VariantWithValue(f.typ.variants, tag);
    FirstIsUnique(f.typ.variants, (y: Variant) => y.value == tag, VariantByValue(f.typ.variants, tag), Some(x));
  }
}
