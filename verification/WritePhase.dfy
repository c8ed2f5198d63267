/**
 What each slot of a built table holds.

 `build_table` collects pushes field by field and writes them afterwards; two of them may write one
 slot, because a union's tag is written by the union and by its `<name>_type` field. In a schema whose
 slots are distinct but for that pair, every slot is decided by one field of the document.
 */
module WritePhase {
  import opened Wrappers
  import opened Schema
  import opened Scalars
  import opened Buffer
  import opened FromJson
  import opened StructLayout
  import opened ToJson
  import J = Json

  // Well-formed schemas.

  function EnumOf(variants: seq<Variant>): seq<EnumVal> {
    if variants == [] then [] else [EnumVal(variants[0].name, variants[0].value)] + EnumOf(variants[1..])
  }

  /** `g` is the tag field that the compiler generates for the union `f`. */
  predicate IsTagOf(g: Field, f: Field) {
    && f.typ.Union?
    && g.name == DiscKey(f.name)
    && g.typ == Scalar(UType, Some(EnumDef(EnumOf(f.typ.variants))))
    && g.defaultInt == 0
  }

  predicate GoodVariants(variants: seq<Variant>) {
    && (forall i, j :: 0 <= i < j < |variants| ==> variants[i].value != variants[j].value)
    && (forall i :: 0 <= i < |variants| && variants[i].typ.Some? && variants[i].typ.value.VStruct? ==>
          ValidLayout(variants[i].typ.value.def))
  }

  predicate GoodField(f: Field) {
    match f.typ
    case Struct(def) => ValidLayout(def)
    case Union(variants) => f.offset >= 2 && !f.key && GoodVariants(variants)
    case Vector(el) => el.EStruct? ==> ValidLayout(el.def)
    case _ => true
  }

  /** Vtable slots are distinct, and only a union's own tag field shares the slot before the union's. */
  predicate GoodTable(def: TableDef) {
    && (forall i :: 0 <= i < |def.fields| ==> GoodField(def.fields[i]))
    && (forall i, j :: 0 <= i < j < |def.fields| ==> def.fields[i].offset != def.fields[j].offset)
    && (forall i, j :: 0 <= i < |def.fields| && 0 <= j < |def.fields| ==> SharesOnlyTag(def.fields[j], def.fields[i]))
  }

  predicate SharesOnlyTag(g: Field, f: Field) {
    f.typ.Union? && g.offset + 2 == f.offset ==> IsTagOf(g, f)
  }

  predicate GoodSchema(s: Schema) {
    forall t :: 0 <= t < |s.tables| ==> GoodTable(s.tables[t])
  }

  lemma {:induction false} GoodAt(s: Schema, t: nat)
    requires GoodSchema(s)
    ensures GoodTable(TableAt(s, t))
  {
  }

  lemma {:induction false} VariantsByNameAndValue(variants: seq<Variant>, name: string)
    requires GoodVariants(variants)
    ensures ValueOfName(EnumOf(variants), name) ==
            match VariantByName(variants, name) case Some(x) => Some(x.value) case None => None
    ensures match VariantByName(variants, name)
            case Some(x) => x in variants && VariantByValue(variants, x.value) == Some(x) && x.name == name
            case None => true
  {
    if variants != [] {
      VariantsByNameAndValue(variants[1..], name);
    }
  }

  // One slot at a time.

  predicate Touches(p: Pending, slot: nat) {
    p.slot == slot || (p.push.PushUnion? && p.slot == slot + 2)
  }

  /** What a push leaves in a slot it touches that was empty. */
  function Effect(p: Pending, slot: nat): Option<Val> {
    match p.push
    case PushScalar(value, default) => if SameScalar(value, default) then None else Some(ScalarVal(value))
    case PushOffset(v) => Some(v)
    case PushStruct(bytes, _) => Some(StructVal(bytes))
    case PushUnion(disc, content) =>
      if p.slot == slot then content
      else if disc == 0 then None else Some(ScalarVal(I(disc)))
  }

  /** If every push that touches a slot agrees on its effect, that is what the slot ends up with. */
  lemma {:induction false} SlotAfter(pending: seq<Pending>, slots: map<nat, Val>, slot: nat, effect: Option<Val>)
    requires WriteSlots(pending, slots).Ok?
    requires forall i :: 0 <= i < |pending| && Touches(pending[i], slot) ==> Effect(pending[i], slot) == effect
    requires Lookup(slots, slot) == None || Lookup(slots, slot) == effect
    ensures Lookup(WriteSlots(pending, slots).value, slot) ==
            if exists i :: 0 <= i < |pending| && Touches(pending[i], slot) then effect else Lookup(slots, slot)
  {
    if pending != [] {
      var next := WriteSlot(pending[0], slots).value;
      if Touches(pending[0], slot) {
        assert Effect(pending[0], slot) == effect;
        assert Lookup(next, slot) == effect;
      } else {
        assert Lookup(next, slot) == Lookup(slots, slot);
      }
      SlotAfter(pending[1..], next, slot, effect);
      if i :| 0 <= i < |pending| && Touches(pending[i], slot) {
        if i > 0 { assert pending[1..][i - 1] == pending[i]; }
      }
      if i :| 0 <= i < |pending[1..]| && Touches(pending[1..][i], slot) {
        assert pending[i + 1] == pending[1..][i];
      }
    }
  }

  /** The pending pushes are exactly the fields' pushes. */
  lemma {:induction false} PendingOfFields(v: J.Value, fields: seq<Field>, s: Schema, depth: nat, o: Options)
    requires v.Obj? && EncFields(v, fields, s, depth, o).Ok?
    ensures var pending := EncFields(v, fields, s, depth, o).value;
            && (forall i :: 0 <= i < |fields| ==> EncField(v, fields[i], s, depth, o).Ok?)
            && (forall p :: p in pending ==>
              exists i :: 0 <= i < |fields| && p in ToPending(fields[i], EncField(v, fields[i], s, depth, o).value))
            && (forall i, p ::
              0 <= i < |fields| && p in ToPending(fields[i], EncField(v, fields[i], s, depth, o).value) ==>
              p in pending)
    decreases |fields|
  {
    if fields != [] {
      var rest := fields[1..];
      PendingOfFields(v, rest, s, depth, o);
      var pending := EncFields(v, fields, s, depth, o).value;
      forall i | 0 <= i < |fields|
        ensures EncField(v, fields[i], s, depth, o).Ok?
        ensures forall p :: p in ToPending(fields[i], EncField(v, fields[i], s, depth, o).value) ==> p in pending
      {
        if i > 0 { assert fields[i] == rest[i - 1]; }
      }
      forall p | p in pending
        ensures exists i :: 0 <= i < |fields| && p in ToPending(fields[i], EncField(v, fields[i], s, depth, o).value)
      {
        if p in ToPending(fields[0], EncField(v, fields[0], s, depth, o).value) {
        } else {
          var i :| 0 <= i < |rest| && p in ToPending(rest[i], EncField(v, rest[i], s, depth, o).value);
          assert fields[i + 1] == rest[i];
        }
      }
    }
  }

  /** A union's tag field encodes the very number the union pushes. */
  lemma {:induction false} TagAgrees(v: J.Value, g: Field, f: Field, s: Schema, depth: nat, o: Options)
    requires v.Obj? && IsTagOf(g, f) && GoodField(f)
    requires EncField(v, f, s, depth, o).Ok? && EncField(v, f, s, depth, o).value.Some?
    requires EncField(v, g, s, depth, o).Ok?
    ensures var p := EncField(v, f, s, depth, o).value.value;
            && p.PushUnion?
            && EncField(v, g, s, depth, o).value == Some(PushScalar(I(p.disc), I(0)))
  {
    hide EncTable, EncVector, EncVariant, EncPresent, StructBytes;
    UnionPush(v, f, s, depth + 1, o);
    var tag := v.m[DiscKey(f.name)];
    VariantsByNameAndValue(f.typ.variants, tag.s);
    TagScalar(tag, g, f, s, depth, o);
  }

  lemma {:induction false} UnionPush(v: J.Value, f: Field, s: Schema, depth: nat, o: Options)
    requires v.Obj? && f.typ.Union?
    requires EncUnion(v, f.name, f.typ.variants, s, depth, o).Ok?
      && EncUnion(v, f.name, f.typ.variants, s, depth, o).value.Some?
    ensures var p := EncUnion(v, f.name, f.typ.variants, s, depth, o).value.value;
            && p.PushUnion?
            && DiscKey(f.name) in v.m && v.m[DiscKey(f.name)].Str?
            && VariantByName(f.typ.variants, v.m[DiscKey(f.name)].s).Some?
            && VariantByName(f.typ.variants, v.m[DiscKey(f.name)].s).value.value == p.disc <= 0xFF
            && (p.disc == 0 <==> p.content.None?)
  {
  }

  lemma {:induction false} TagScalar(tag: J.Value, g: Field, f: Field, s: Schema, depth: nat, o: Options)
    requires IsTagOf(g, f) && tag.Str? && ValueOfName(EnumOf(f.typ.variants), tag.s).Some?
    requires 0 <= ValueOfName(EnumOf(f.typ.variants), tag.s).value <= 0xFF
    ensures EncPresent(tag, g, s, depth, o) == Ok(PushScalar(I(ValueOfName(EnumOf(f.typ.variants), tag.s).value), I(0)))
  {
  }

  /** Only a union pushes a pair. */
  lemma {:induction false} PairsComeFromUnions(v: J.Value, f: Field, s: Schema, depth: nat, o: Options)
    requires v.Obj? && EncField(v, f, s, depth, o).Ok? && EncField(v, f, s, depth, o).value.Some?
    ensures EncField(v, f, s, depth, o).value.value.PushUnion? <==> f.typ.Union?
  {
    if f.typ.Union? { UnionPush(v, f, s, depth + 1, o); }
  }

  /** What the pushes of field `i` leave in slot `slot`. */
  predicate Decides(v: J.Value, def: TableDef, s: Schema, depth: nat, o: Options, slot: nat, effect: Option<Val>) {
    v.Obj? && forall i :: 0 <= i < |def.fields| && EncField(v, def.fields[i], s, depth, o).Ok? ==>
      forall p :: p in ToPending(def.fields[i], EncField(v, def.fields[i], s, depth, o).value) && Touches(p, slot) ==>
        Effect(p, slot) == effect
  }

  /** If all fields agree on a slot's content, a built table has it there, or nothing touched the slot. */
  lemma {:induction false} DecidedSlot(v: J.Value, t: nat, s: Schema, depth: nat, o: Options, slot: nat,
                                       effect: Option<Val>, k: nat)
    requires EncTable(v, t, s, depth, o).Ok? && k < |TableAt(s, t).fields|
    requires Decides(v, TableAt(s, t), s, depth, o, slot, effect)
    ensures var w := EncTable(v, t, s, depth, o).value; var push := EncField(v, TableAt(s, t).fields[k], s, depth, o);
            && push.Ok? && w.TableVal?
            && (Lookup(w.slots, slot) == effect || Lookup(w.slots, slot) == None)
            && ((exists p :: p in ToPending(TableAt(s, t).fields[k], push.value) && Touches(p, slot)) ==>
              Lookup(w.slots, slot) == effect)
  {
    hide EncField, Effect, Touches, ToPending, HasUnknownKey;
    var def := TableAt(s, t);
    var pending := EncFields(v, def.fields, s, depth, o).value;
    PendingOfFields(v, def.fields, s, depth, o);
    forall i | 0 <= i < |pending| && Touches(pending[i], slot) ensures Effect(pending[i], slot) == effect {
      assert pending[i] in pending;
    }
    SlotAfter(pending, map[], slot, effect);
    if p :| p in ToPending(def.fields[k], EncField(v, def.fields[k], s, depth, o).value) && Touches(p, slot) {
      assert p in pending;
    }
  }

  /** The slot of a field that is not a union holds what that field pushed, and nothing else. */
  lemma {:induction false} SlotOfField(v: J.Value, t: nat, s: Schema, depth: nat, o: Options, k: nat)
    requires EncTable(v, t, s, depth, o).Ok? && GoodTable(TableAt(s, t))
    requires k < |TableAt(s, t).fields| && !TableAt(s, t).fields[k].typ.Union?
    ensures var w := EncTable(v, t, s, depth, o).value; var f := TableAt(s, t).fields[k];
      var push := EncField(v, f, s, depth, o);
            && w.TableVal? && push.Ok?
            && Lookup(w.slots, f.offset) ==
              match push.value case None => None case Some(p) => Effect(Pending(f.offset, p), f.offset)
  {
    hide EncField, EncFields, WriteSlots, Effect, IsTagOf, GoodField;
    var def := TableAt(s, t);
    var f := def.fields[k];
    assert v.Obj? && EncField(v, f, s, depth, o).Ok? by { PendingOfFields(v, def.fields, s, depth, o); }
    var own := EncField(v, f, s, depth, o).value;
    var effect := match own case None => None case Some(p) => Effect(Pending(f.offset, p), f.offset);
    forall j, p | 0 <= j < |def.fields| && EncField(v, def.fields[j], s, depth, o).Ok?
      && p in ToPending(def.fields[j], EncField(v, def.fields[j], s, depth, o).value) && Touches(p, f.offset)
      ensures Effect(p, f.offset) == effect
    {
      if j != k {
        PairsComeFromUnions(v, def.fields[j], s, depth, o);
        assert SharesOnlyTag(f, def.fields[j]);
        TagAgrees(v, f, def.fields[j], s, depth, o);
        TagEffect(p, f.offset, own);
      }
    }
    DecidedSlot(v, t, s, depth, o, f.offset, effect, k);
    if own.Some? {
      assert Pending(f.offset, own.value) in ToPending(f, own);
    }
  }

  lemma {:induction false} TagEffect(p: Pending, slot: nat, own: Option<Push>)
    requires p.push.PushUnion? && p.slot == slot + 2 && own == Some(PushScalar(I(p.push.disc), I(0)))
    ensures Effect(p, slot) == Effect(Pending(slot, own.value), slot)
  {
  }

  /** The two slots of a union hold the tag and the content the union pushed. */
  lemma {:induction false} SlotsOfUnion(v: J.Value, t: nat, s: Schema, depth: nat, o: Options, k: nat)
    requires EncTable(v, t, s, depth, o).Ok? && GoodTable(TableAt(s, t))
    requires k < |TableAt(s, t).fields| && TableAt(s, t).fields[k].typ.Union?
    ensures var w := EncTable(v, t, s, depth, o).value; var f := TableAt(s, t).fields[k];
      var push := EncField(v, f, s, depth, o);
            && w.TableVal? && push.Ok? && f.offset >= 2
            && match push.value
               case None => Lookup(w.slots, f.offset) == None && Lookup(w.slots, f.offset - 2) == None
               case Some(p) =>
                 p.PushUnion? && Lookup(w.slots, f.offset) == p.content
                   && Lookup(w.slots, f.offset - 2) == TagOf(p.disc)
  {
    hide EncField, EncFields, WriteSlots, IsTagOf;
    var def := TableAt(s, t);
    var f := def.fields[k];
    assert v.Obj? && EncField(v, f, s, depth, o).Ok? by { PendingOfFields(v, def.fields, s, depth, o); }
    assert GoodField(f);
    var own := EncField(v, f, s, depth, o).value;
    if own.Some? { PairsComeFromUnions(v, f, s, depth, o); }
    ContentSlot(v, def, s, depth, o, k);
    TagSlot(v, def, s, depth, o, k);
    DecidedSlot(v, t, s, depth, o, f.offset, if own.None? then None else own.value.content, k);
    DecidedSlot(v, t, s, depth, o, f.offset - 2, if own.None? then None else TagOf(own.value.disc), k);
    if own.Some? {
      assert Pending(f.offset, own.value) in ToPending(f, own);
    }
  }

  function TagOf(disc: nat): Option<Val> {
    if disc == 0 then None else Some(ScalarVal(I(disc)))
  }

  lemma {:induction false} ContentSlot(v: J.Value, def: TableDef, s: Schema, depth: nat, o: Options, k: nat)
    requires v.Obj? && GoodTable(def) && k < |def.fields| && def.fields[k].typ.Union?
      && EncField(v, def.fields[k], s, depth, o).Ok?
    ensures var own := EncField(v, def.fields[k], s, depth, o).value;
            && (own.Some? ==> own.value.PushUnion?)
            && Decides(v, def, s, depth, o, def.fields[k].offset, if own.None? then None else own.value.content)
  {
    hide EncField, IsTagOf, GoodField;
    var f := def.fields[k];
    var own := EncField(v, f, s, depth, o).value;
    if own.Some? { PairsComeFromUnions(v, f, s, depth, o); }
    forall j, p | 0 <= j < |def.fields| && EncField(v, def.fields[j], s, depth, o).Ok?
      && p in ToPending(def.fields[j], EncField(v, def.fields[j], s, depth, o).value) && Touches(p, f.offset)
      ensures Effect(p, f.offset) == if own.None? then None else own.value.content
    {
      if j != k {
        PairsComeFromUnions(v, def.fields[j], s, depth, o);
        assert SharesOnlyTag(f, def.fields[j]);
        TagIsNoUnion(f, def.fields[j]);
      }
    }
  }

  lemma {:induction false} TagIsNoUnion(g: Field, f: Field)
    requires g.typ.Union?
    ensures !IsTagOf(g, f)
  {
  }

  lemma {:induction false} TagSlot(v: J.Value, def: TableDef, s: Schema, depth: nat, o: Options, k: nat)
    requires v.Obj? && GoodTable(def) && k < |def.fields| && def.fields[k].typ.Union?
      && EncField(v, def.fields[k], s, depth, o).Ok?
    ensures var own := EncField(v, def.fields[k], s, depth, o).value;
            && (own.Some? ==> own.value.PushUnion?) && def.fields[k].offset >= 2
            && Decides(v, def, s, depth, o, def.fields[k].offset - 2, if own.None? then None else TagOf(own.value.disc))
  {
    hide EncField, IsTagOf;
    var f := def.fields[k];
    assert GoodField(f);
    var own := EncField(v, f, s, depth, o).value;
    if own.Some? { PairsComeFromUnions(v, f, s, depth, o); }
    forall j, p | 0 <= j < |def.fields| && EncField(v, def.fields[j], s, depth, o).Ok?
      && p in ToPending(def.fields[j], EncField(v, def.fields[j], s, depth, o).value) && Touches(p, f.offset - 2)
      ensures Effect(p, f.offset - 2) == if own.None? then None else TagOf(own.value.disc)
    {
      if j != k {
        PairsComeFromUnions(v, def.fields[j], s, depth, o);
        assert SharesOnlyTag(def.fields[j], f);
        if p.slot == f.offset - 2 {
          TagFieldEffect(v, def.fields[j], f, s, depth, o);
          TagAgrees(v, def.fields[j], f, s, depth, o);
        }
      }
    }
  }

  lemma {:induction false} TagFieldEffect(v: J.Value, g: Field, f: Field, s: Schema, depth: nat, o: Options)
    requires v.Obj? && IsTagOf(g, f) && GoodField(f)
    requires EncField(v, f, s, depth, o).Ok? && EncField(v, g, s, depth, o).Ok?
      && EncField(v, g, s, depth, o).value.Some?
    ensures EncField(v, f, s, depth, o).value.Some?
  {
  }
}
