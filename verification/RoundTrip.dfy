/**
 The whole-document round trip: whatever `from_json` builds, `to_json` reads back as the canonical form
 of the document.
 */
module RoundTrip {
  import opened Wrappers
  import opened Bytes
  import opened Schema
  import opened Scalars
  import opened StructLayout
  import opened StructJson
  import opened Buffer
  import opened Blobs
  import opened KeyText
  import opened FromJson
  import opened ToJson
  import opened WritePhase
  import opened Canon
  import J = Json

  /** Every document that builds reads back as its canonical form, or fails as that does. */
  lemma {:induction false} TableRoundTrip(v: J.Value, t: nat, s: Schema, depth: nat, o: Options, rd: KeyReader)
    requires GoodSchema(s) && EncTable(v, t, s, depth, o).Ok?
    ensures ReadTable(EncTable(v, t, s, depth, o).value, t, s, rd) == CanonTable(v, t, s, rd)
    decreases J.Height(v), 3, 0
  {
    hide *;
    var fields := TableAt(s, t).fields;
    TableParts(v, t, s, depth, o);
    ByIdMembers(fields);
    MembersAgree(v, t, s, depth, o, rd, ById(fields), map[]);
    TableOfMembers(v, EncTable(v, t, s, depth, o).value, t, s, rd);
  }

  lemma {:induction false} TableParts(v: J.Value, t: nat, s: Schema, depth: nat, o: Options)
    requires EncTable(v, t, s, depth, o).Ok?
    ensures v.Obj? && EncTable(v, t, s, depth, o).value.TableVal?
  {
    hide EncFields, WriteSlots, HasUnknownKey;
  }

  lemma {:induction false} ByIdMembers(fields: seq<Field>)
    ensures forall f :: f in ById(fields) <==> f in fields
  {
    hide ById;
    forall f ensures f in ById(fields) <==> f in fields {
      assert f in ById(fields) <==> f in multiset(ById(fields));
      assert f in fields <==> f in multiset(fields);
    }
  }

  lemma {:induction false} TableOfMembers(v: J.Value, w: Val, t: nat, s: Schema, rd: KeyReader)
    requires v.Obj?
    requires var fields := TableAt(s, t).fields;
      ToJson.ReadFields(w, ById(fields), fields, map[], s, rd) == CanonMembers(v, ById(fields), fields, map[], s, rd)
    ensures ReadTable(w, t, s, rd) == CanonTable(v, t, s, rd)
  {
    hide ToJson.ReadFields, CanonMembers, ById, TableAt;
  }

  lemma {:induction false} MembersAgree(v: J.Value, t: nat, s: Schema, depth: nat, o: Options, rd: KeyReader,
                                        todo: seq<Field>, acc: map<string, J.Value>)
    requires GoodSchema(s) && EncTable(v, t, s, depth, o).Ok? && v.Obj?
    requires forall f :: f in todo ==> f in TableAt(s, t).fields
    ensures ToJson.ReadFields(EncTable(v, t, s, depth, o).value, todo, TableAt(s, t).fields, acc, s, rd)
            == CanonMembers(v, todo, TableAt(s, t).fields, acc, s, rd)
    decreases J.Height(v), 2, |todo|
  {
    hide GoodSchema, EncTable, ToJson.ReadField, CanonMember, TableAt;
    if todo != [] {
      var fields := TableAt(s, t).fields;
      assert todo[0] in fields;
      var k :| 0 <= k < |fields| && fields[k] == todo[0];
      MemberAgrees(v, t, s, depth, o, rd, k, acc);
      var next := CanonMember(v, todo[0], fields, acc, s, rd);
      if next.Ok? {
        MembersAgree(v, t, s, depth, o, rd, todo[1..], next.value);
      }
    }
  }

  /** One member: the field's slots decide what is read, and they hold what the document's member encodes. */
  lemma {:induction false} MemberAgrees(v: J.Value, t: nat, s: Schema, depth: nat, o: Options, rd: KeyReader,
                                        k: nat, acc: map<string, J.Value>)
    requires GoodSchema(s) && EncTable(v, t, s, depth, o).Ok? && v.Obj? && k < |TableAt(s, t).fields|
    ensures var fields := TableAt(s, t).fields;
            ToJson.ReadField(EncTable(v, t, s, depth, o).value, fields[k], fields, acc, s, rd) ==
              CanonMember(v, fields[k], fields, acc, s, rd)
    decreases J.Height(v), 1, 0
  {
    hide *;
    var f := TableAt(s, t).fields[k];
    var w := EncTable(v, t, s, depth, o).value;
    GoodAt(s, t);
    FieldIsGood(TableAt(s, t), k);
    if f.typ.Union? {
      SlotsOfUnion(v, t, s, depth, o, k);
      UnionAgrees(v, w, f, TableAt(s, t).fields, s, depth, o, rd, acc);
    } else {
      SlotOfField(v, t, s, depth, o, k);
      PlainAgrees(v, w, f, TableAt(s, t).fields, s, depth, o, rd, acc);
    }
  }

  lemma {:induction false} FieldIsGood(def: TableDef, k: nat)
    requires GoodTable(def) && k < |def.fields|
    ensures GoodField(def.fields[k])
  {
    hide GoodField, SharesOnlyTag;
  }

  lemma {:induction false} PlainAgrees(v: J.Value, w: Val, f: Field, fields: seq<Field>, s: Schema, depth: nat,
                                       o: Options,
                                       rd: KeyReader, acc: map<string, J.Value>)
    requires GoodSchema(s) && GoodField(f) && v.Obj? && w.TableVal? && !f.typ.Union?
    requires EncField(v, f, s, depth, o).Ok?
    requires Lookup(w.slots, f.offset) ==
             match EncField(v, f, s, depth, o).value case None => None case Some(p) => Effect(Pending(f.offset, p),
               f.offset)
    ensures ToJson.ReadField(w, f, fields, acc, s, rd) == CanonMember(v, f, fields, acc, s, rd)
    decreases J.Height(v), 0, 0
  {
    hide *;
    FieldOfPresent(v, f, s, depth, o);
    if J.Present(v.m, f.name).None? {
      AbsentMember(v, w, f, fields, s, rd, acc);
    } else {
      var x := J.Present(v.m, f.name).value;
      J.MemberHeight(v.m, f.name);
      if f.typ.Scalar? {
        ScalarMember(v, w, x, f, fields, s, depth, o, rd, acc);
      } else {
        ValueRoundTrip(w, x, f, s, depth, o, rd);
        PresentMember(v, w, x, f, fields, s, rd, acc);
      }
    }
  }

  lemma {:induction false} FieldOfPresent(v: J.Value, f: Field, s: Schema, depth: nat, o: Options)
    requires v.Obj? && !f.typ.Union? && EncField(v, f, s, depth, o).Ok?
    ensures match J.Present(v.m, f.name)
            case None => EncField(v, f, s, depth, o).value == None
            case Some(x) => f.name in v.m && v.m[f.name] == x && EncPresent(x, f, s, depth, o).Ok?
                            && EncField(v, f, s, depth, o).value == Some(EncPresent(x, f, s, depth, o).value)
  {
    hide EncPresent, EncUnion;
  }

  lemma {:induction false} AbsentMember(v: J.Value, w: Val, f: Field, fields: seq<Field>, s: Schema, rd: KeyReader,
                                        acc: map<string, J.Value>)
    requires v.Obj? && w.TableVal? && !f.typ.Union?
    requires J.Present(v.m, f.name).None? && Lookup(w.slots, f.offset) == None
    ensures ToJson.ReadField(w, f, fields, acc, s, rd) == CanonMember(v, f, fields, acc, s, rd)
  {
    hide ScalarJson, DefaultScalar, IsDiscriminator;
  }

  lemma {:induction false} PresentMember(v: J.Value, w: Val, x: J.Value, f: Field, fields: seq<Field>, s: Schema,
                                         rd: KeyReader, acc: map<string, J.Value>)
    requires v.Obj? && w.TableVal? && !f.typ.Union?
    requires J.Present(v.m, f.name) == Some(x) && f.offset in w.slots
    requires ToJson.ReadValue(w, w.slots[f.offset], f, s, rd) == CanonValue(x, f, s, rd)
    ensures ToJson.ReadField(w, f, fields, acc, s, rd) == CanonMember(v, f, fields, acc, s, rd)
  {
    hide ToJson.ReadValue, CanonValue, IsDiscriminator;
  }

  /** A scalar left out because it equals its default reads back as the default. */
  lemma {:induction false} ScalarMember(v: J.Value, w: Val, x: J.Value, f: Field, fields: seq<Field>, s: Schema,
                                        depth: nat, o: Options,
                     rd: KeyReader, acc: map<string, J.Value>)
    requires v.Obj? && w.TableVal? && f.typ.Scalar?
    requires J.Present(v.m, f.name) == Some(x) && EncPresent(x, f, s, depth, o).Ok?
    requires Lookup(w.slots, f.offset) == Effect(Pending(f.offset, EncPresent(x, f, s, depth, o).value), f.offset)
    ensures ToJson.ReadField(w, f, fields, acc, s, rd) == CanonMember(v, f, fields, acc, s, rd)
  {
    hide ScalarJson, DefaultScalar, IsDiscriminator, EncodeScalar, SameScalar, Fits;
    EncodedFits(f.typ.st, f.typ.en, x);
  }

  lemma {:induction false} ValueRoundTrip(w: Val, x: J.Value, f: Field, s: Schema, depth: nat, o: Options,
                                          rd: KeyReader)
    requires GoodSchema(s) && GoodField(f) && w.TableVal? && !f.typ.Scalar? && !f.typ.Union?
    requires EncPresent(x, f, s, depth, o).Ok?
    requires Lookup(w.slots, f.offset) == Effect(Pending(f.offset, EncPresent(x, f, s, depth, o).value), f.offset)
    ensures f.offset in w.slots && ToJson.ReadValue(w, w.slots[f.offset], f, s, rd) == CanonValue(x, f, s, rd)
    decreases J.Height(x), 5, 0
  {
    hide EncTable, EncVector, StructBytes, ReadStruct, ReadTable, ToJson.ReadVector, CanonTable, CanonStruct,
      CanonVector, GoodSchema, ValidLayout, DefaultScalar;
    match f.typ {
      case Struct(def) => StructAtStart(x, def);
      case Table(t) =>
        TableParts(x, t, s, depth + 1, o);
        TableRoundTrip(x, t, s, depth + 1, o, rd);
      case Vector(el) => VectorRoundTrip(x, el, f.hex, s, depth + 1, o, rd);
      case _ =>
    }
  }

  lemma {:induction false} StructAtStart(x: J.Value, def: StructDef)
    requires ValidLayout(def) && StructBytes(x, def).Ok?
    ensures ReadStruct(StructBytes(x, def).value, 0, def) == CanonStruct(x, def)
  {
    hide StructBytes, ReadStruct, CanonStruct, ValidLayout;
    var bytes := StructBytes(x, def).value;
    assert Window(bytes, 0, def.bytesize) == bytes;
    StructRoundTrip(x, def, bytes, 0);
  }

  lemma {:induction false} UnionAgrees(v: J.Value, w: Val, f: Field, fields: seq<Field>, s: Schema, depth: nat,
                                       o: Options,
                                       rd: KeyReader, acc: map<string, J.Value>)
    requires GoodSchema(s) && GoodField(f) && v.Obj? && w.TableVal? && f.typ.Union? && f.offset >= 2
    requires EncField(v, f, s, depth, o).Ok?
    requires match EncField(v, f, s, depth, o).value
             case None => Lookup(w.slots, f.offset) == None && Lookup(w.slots, f.offset - 2) == None
             case Some(p) =>
               p.PushUnion? && Lookup(w.slots, f.offset) == p.content && Lookup(w.slots, f.offset - 2) == TagOf(p.disc)
    ensures ToJson.ReadField(w, f, fields, acc, s, rd) == CanonMember(v, f, fields, acc, s, rd)
    decreases J.Height(v), 0, 0
  {
    hide *;
    UnionMember(v, w, f, fields, s, depth, o, rd, acc);
    var pair := EncUnion(v, f.name, f.typ.variants, s, depth + 1, o);
    if pair.value.None? {
      NoUnion(v, w, f, s, depth + 1, o, rd, acc);
    } else {
      UnionPush(v, f, s, depth + 1, o);
      VariantOfPush(v, f, s, depth + 1, o);
      if pair.value.value.content.Some? {
        var x := v.m[f.name];
        J.MemberHeight(v.m, f.name);
        VariantRoundTrip(x, VariantByName(f.typ.variants, v.m[DiscKey(f.name)].s).value.typ.value, s, depth + 1, o, rd);
      }
      SomeUnion(v, w, f, s, depth + 1, o, rd, acc);
    }
  }

  lemma {:induction false} UnionMember(v: J.Value, w: Val, f: Field, fields: seq<Field>, s: Schema, depth: nat,
                                       o: Options,
                    rd: KeyReader, acc: map<string, J.Value>)
    requires v.Obj? && f.typ.Union? && EncField(v, f, s, depth, o).Ok?
    ensures EncUnion(v, f.name, f.typ.variants, s, depth + 1, o) == EncField(v, f, s, depth, o)
    ensures ToJson.ReadField(w, f, fields, acc, s, rd) == ReadUnion(w, f, acc, s, rd)
    ensures CanonMember(v, f, fields, acc, s, rd) == CanonUnion(v, f, acc, s, rd)
  {
    hide EncUnion, ReadUnion, CanonUnion;
  }

  lemma {:induction false} NoUnion(v: J.Value, w: Val, f: Field, s: Schema, depth: nat, o: Options, rd: KeyReader,
                                   acc: map<string, J.Value>)
    requires v.Obj? && w.TableVal? && f.typ.Union? && f.offset >= 2
    requires EncUnion(v, f.name, f.typ.variants, s, depth, o) == Ok(None) && Lookup(w.slots, f.offset - 2) == None
    ensures ReadUnion(w, f, acc, s, rd) == CanonUnion(v, f, acc, s, rd)
  {
    hide EncVariant, ReadVariant, CanonVariant;
  }

  /** The variant a pushed pair names, and where its content comes from. */
  lemma {:induction false} VariantOfPush(v: J.Value, f: Field, s: Schema, depth: nat, o: Options)
    requires v.Obj? && f.typ.Union? && GoodField(f)
    requires EncUnion(v, f.name, f.typ.variants, s, depth, o).Ok?
      && EncUnion(v, f.name, f.typ.variants, s, depth, o).value.Some?
    requires DiscKey(f.name) in v.m && v.m[DiscKey(f.name)].Str?
    requires VariantByName(f.typ.variants, v.m[DiscKey(f.name)].s).Some?
    ensures var p := EncUnion(v, f.name, f.typ.variants, s, depth, o).value.value;
            var variant := VariantByName(f.typ.variants, v.m[DiscKey(f.name)].s).value;
            && p.PushUnion? && variant.value == p.disc <= 0xFF
              && VariantByValue(f.typ.variants, p.disc) == Some(variant)
            && v.m[DiscKey(f.name)] == J.Str(variant.name)
            && (p.disc == 0 ==> p.content == None)
            && (p.disc != 0 ==> variant.typ.Some? && GoodVariant(variant.typ.value) && f.name in v.m
                                && EncVariant(v.m[f.name], variant.typ.value, s, depth, o).Ok?
                                && p.content == Some(EncVariant(v.m[f.name], variant.typ.value, s, depth, o).value))
  {
    hide EncVariant, ValidLayout;
    VariantsByNameAndValue(f.typ.variants, v.m[DiscKey(f.name)].s);
  }

  predicate GoodVariant(t: VariantType) {
    t.VStruct? ==> ValidLayout(t.def)
  }

  lemma {:induction false} SomeUnion(v: J.Value, w: Val, f: Field, s: Schema, depth: nat, o: Options, rd: KeyReader,
                                     acc: map<string, J.Value>)
    requires v.Obj? && w.TableVal? && f.typ.Union? && f.offset >= 2 && GoodField(f)
    requires EncUnion(v, f.name, f.typ.variants, s, depth, o).Ok?
      && EncUnion(v, f.name, f.typ.variants, s, depth, o).value.Some?
    requires DiscKey(f.name) in v.m && v.m[DiscKey(f.name)].Str?
      && VariantByName(f.typ.variants, v.m[DiscKey(f.name)].s).Some?
    requires var p := EncUnion(v, f.name, f.typ.variants, s, depth, o).value.value;
             && p.PushUnion? && Lookup(w.slots, f.offset) == p.content && Lookup(w.slots, f.offset - 2) == TagOf(p.disc)
             && (p.content.Some? ==>
                   var variant := VariantByName(f.typ.variants, v.m[DiscKey(f.name)].s).value;
                   && variant.typ.Some? && f.name in v.m
                   && ReadVariant(p.content.value, variant.typ.value, s, rd) ==
                     CanonVariant(v.m[f.name], variant.typ.value, s, rd))
    ensures ReadUnion(w, f, acc, s, rd) == CanonUnion(v, f, acc, s, rd)
  {
    hide EncUnion, EncVariant, ReadVariant, CanonVariant, VariantByName, VariantByValue, GoodField;
    VariantOfPush(v, f, s, depth, o);
  }

  lemma {:induction false} VariantRoundTrip(x: J.Value, t: VariantType, s: Schema, depth: nat, o: Options,
                                            rd: KeyReader)
    requires GoodSchema(s) && GoodVariant(t) && EncVariant(x, t, s, depth, o).Ok?
    ensures ReadVariant(EncVariant(x, t, s, depth, o).value, t, s, rd) == CanonVariant(x, t, s, rd)
    decreases J.Height(x), 4, 0
  {
    hide EncTable, StructBytes, ReadStruct, ReadTable, CanonTable, CanonStruct, GoodSchema, ValidLayout;
    match t {
      case VTable(i) =>
        TableParts(x, i, s, depth, o);
        TableRoundTrip(x, i, s, depth, o, rd);
      case VStruct(def) => StructAtStart(x, def);
      case VString =>
    }
  }

  // Vectors.

  lemma {:induction false} VectorRoundTrip(x: J.Value, el: ElementType, hex: bool, s: Schema, depth: nat, o: Options,
                                           rd: KeyReader)
    requires GoodSchema(s) && (el.EStruct? ==> ValidLayout(el.def)) && EncVector(x, el, hex, s, depth, o).Ok?
    ensures ToJson.ReadVector(EncVector(x, el, hex, s, depth, o).value, el, hex, s, rd) ==
      CanonVector(x, el, hex, s, rd)
    decreases J.Height(x), 4, 0
  {
    hide *;
    if IsBlob(el) {
      BlobAgrees(x, el, hex, s, depth, o, rd);
    } else {
      match el {
        case EScalar(st, en) => ScalarVector(x, el, hex, s, depth, o, rd);
        case EString => StringVector(x, el, hex, s, depth, o, rd);
        case EStruct(def) => StructVector(x, el, hex, s, depth, o, rd);
        case ETable(t) => TableVector(x, t, hex, s, depth, o, rd);
        case EOther => NoOtherVector(x, hex, s, depth, o);
      }
    }
  }

  lemma {:induction false} NoOtherVector(x: J.Value, hex: bool, s: Schema, depth: nat, o: Options)
    ensures EncVector(x, EOther, hex, s, depth, o).Err?
  {
  }

  lemma {:induction false} BlobAgrees(x: J.Value, el: ElementType, hex: bool, s: Schema, depth: nat, o: Options,
                                      rd: KeyReader)
    requires IsBlob(el) && EncVector(x, el, hex, s, depth, o).Ok?
    ensures ToJson.ReadVector(EncVector(x, el, hex, s, depth, o).value, el, hex, s, rd) ==
      CanonVector(x, el, hex, s, rd)
  {
    hide ParseBlob, BlobText, EncByteItems;
  }

  lemma {:induction false} ScalarVector(x: J.Value, el: ElementType, hex: bool, s: Schema, depth: nat, o: Options,
                                        rd: KeyReader)
    requires el.EScalar? && !IsBlob(el) && EncVector(x, el, hex, s, depth, o).Ok?
    ensures ToJson.ReadVector(EncVector(x, el, hex, s, depth, o).value, el, hex, s, rd) ==
      CanonVector(x, el, hex, s, rd)
  {
    hide EncScalars, CanonScalars, ReadScalars;
    ScalarsAgree(x.items, el.st, ElementEnum(el.st, el.en));
  }

  lemma {:induction false} ScalarsAgree(items: seq<J.Value>, st: ScalarType, en: Option<EnumDef>)
    requires EncScalars(items, st, en).Ok?
    ensures ReadScalars(EncScalars(items, st, en).value, st, en) == CanonScalars(items, st, en)
  {
    hide *;
    if |items| == 0 {
      assert items == [];
      NoScalars(st, en);
    } else {
      var n := |items| - 1;
      LastScalar(items, st, en);
      ScalarsAgree(items[..n], st, en);
      ScalarsStep(items, EncScalars(items, st, en).value, st, en);
    }
  }

  lemma {:induction false} NoScalars(st: ScalarType, en: Option<EnumDef>)
    ensures EncScalars([], st, en) == Ok([]) && ReadScalars([], st, en) == CanonScalars([], st, en)
  {
  }

  lemma {:induction false} LastScalar(items: seq<J.Value>, st: ScalarType, en: Option<EnumDef>)
    requires items != [] && EncScalars(items, st, en).Ok?
    ensures var n := |items| - 1;
            && EncScalars(items[..n], st, en).Ok? && EncodeScalar(st, en, items[n]).Ok?
            && EncScalars(items, st, en).value == EncScalars(items[..n], st, en).value +
              [ScalarVal(EncodeScalar(st, en, items[n]).value)]
            && EncScalars(items, st, en).value[..n] == EncScalars(items[..n], st, en).value
  {
    hide EncodeScalar;
    var n := |items| - 1;
    var init := EncScalars(items[..n], st, en).value;
    assert (init + [ScalarVal(EncodeScalar(st, en, items[n]).value)])[..n] == init;
  }

  lemma {:induction false} ScalarsStep(items: seq<J.Value>, vals: seq<Val>, st: ScalarType, en: Option<EnumDef>)
    requires items != [] && |vals| == |items| && EncodeScalar(st, en, items[|items| - 1]).Ok?
    requires var n := |items| - 1;
      && ReadScalars(vals[..n], st, en) == CanonScalars(items[..n], st, en)
      && vals[n] == ScalarVal(EncodeScalar(st, en, items[n]).value)
    ensures ReadScalars(vals, st, en) == CanonScalars(items, st, en)
  {
    hide EncodeScalar, ScalarJson, Fits, ZeroScalar;
    EncodedFits(st, en, items[|items| - 1]);
  }

  lemma {:induction false} StringVector(x: J.Value, el: ElementType, hex: bool, s: Schema, depth: nat, o: Options,
                                        rd: KeyReader)
    requires el.EString? && EncVector(x, el, hex, s, depth, o).Ok?
    ensures ToJson.ReadVector(EncVector(x, el, hex, s, depth, o).value, el, hex, s, rd) ==
      CanonVector(x, el, hex, s, rd)
  {
    hide EncStrings;
    StringsAgree(x.items);
  }

  lemma {:induction false} StringsAgree(items: seq<J.Value>)
    requires EncStrings(items).Ok?
    ensures ReadStrings(EncStrings(items).value) == items
  {
    if items != [] {
      var n := |items| - 1;
      StringsAgree(items[..n]);
      var init := EncStrings(items[..n]).value;
      assert EncStrings(items).value == init + [StringVal(items[n].s)];
      forall i | 0 <= i < |items| ensures ReadStrings(EncStrings(items).value)[i] == items[i] {
        if i < n { assert ReadStrings(init)[i] == items[..n][i]; }
      }
    }
  }

  lemma {:induction false} StructVector(x: J.Value, el: ElementType, hex: bool, s: Schema, depth: nat, o: Options,
                                        rd: KeyReader)
    requires el.EStruct? && ValidLayout(el.def) && EncVector(x, el, hex, s, depth, o).Ok?
    ensures ToJson.ReadVector(EncVector(x, el, hex, s, depth, o).value, el, hex, s, rd) ==
      CanonVector(x, el, hex, s, rd)
  {
    hide EncStructs, CanonStructs, ReadStructs, ValidLayout, LittleEndian, Unsigned, Dispatchable;
    var all := EncStructs(x.items, el.def).value;
    var count := LittleEndian(|x.items|, 4);
    assert Window(StructVectorBody(|x.items|, all), 0, 4) == count;
    assert Unsigned(count) == |x.items| by {
      Pow256Values();
      LittleEndianRoundTrip(|x.items|, 4);
    }
    StructsAgree(x.items, el.def, count, all);
  }

  /** Element `i` of the body is found at `4 + i * bytesize`. */
  lemma {:induction false} StructsAgree(items: seq<J.Value>, def: StructDef, count: seq<byte>, all: seq<byte>)
    requires ValidLayout(def) && EncStructs(items, def).Ok? && |count| == 4
    requires EncStructs(items, def).value <= all
    ensures ReadStructs(count + all, def, |items|) == CanonStructs(items, def)
    decreases |items|
  {
    hide *;
    if |items| == 0 {
      assert items == [];
      NoStructs(def, count + all);
    } else {
      var n := |items| - 1;
      StructElements(items, def, count, all);
      StructsAgree(items[..n], def, count, all);
      StructRoundTrip(items[n], def, count + all, 4 + Offset(n, def.bytesize));
      StructsStep(items, def, count + all);
    }
  }

  lemma {:induction false} NoStructs(def: StructDef, body: seq<byte>)
    ensures ReadStructs(body, def, 0) == CanonStructs([], def)
  {
  }

  lemma {:induction false} StructElements(items: seq<J.Value>, def: StructDef, count: seq<byte>, all: seq<byte>)
    requires EncStructs(items, def).Ok? && |count| == 4 && items != [] && EncStructs(items, def).value <= all
    ensures var n := |items| - 1;
            && EncStructs(items[..n], def).Ok? && EncStructs(items[..n], def).value <= all
            && StructBytes(items[n], def).Ok?
            && 4 + Offset(n, def.bytesize) + def.bytesize <= |count + all|
            && Window(count + all, 4 + Offset(n, def.bytesize), def.bytesize) == StructBytes(items[n], def).value
  {
    hide *;
    LastStruct(items, def);
    var n := |items| - 1;
    PrefixWindow(count, EncStructs(items[..n], def).value, StructBytes(items[n], def).value,
      EncStructs(items, def).value, all,
                 Offset(n, def.bytesize), def.bytesize);
  }

  lemma {:induction false} LastStruct(items: seq<J.Value>, def: StructDef)
    requires EncStructs(items, def).Ok? && items != []
    ensures var n := |items| - 1;
            && EncStructs(items[..n], def).Ok? && StructBytes(items[n], def).Ok?
            && EncStructs(items, def).value == EncStructs(items[..n], def).value + StructBytes(items[n], def).value
            && |EncStructs(items[..n], def).value| == Offset(n, def.bytesize)
              && |StructBytes(items[n], def).value| == def.bytesize
  {
    hide StructBytes, Offset;
  }

  lemma {:induction false} PrefixWindow(count: seq<byte>, init: seq<byte>, last: seq<byte>, both: seq<byte>,
                                        all: seq<byte>, at: nat, size: nat)
    requires both <= all && both == init + last && |init| == at && |last| == size
    ensures init <= all
    ensures |count| + at + size <= |count + all| && Window(count + all, |count| + at, size) == last
  {
    assert init == both[..|init|];
    var window := (count + all)[|count| + |init|..|count| + |init| + |last|];
    assert window == all[|init|..|init| + |last|] == last;
  }

  lemma {:induction false} StructsStep(items: seq<J.Value>, def: StructDef, body: seq<byte>)
    requires items != []
    requires var n := |items| - 1;
      && ReadStructs(body, def, n) == CanonStructs(items[..n], def)
      && ReadStruct(body, 4 + Offset(n, def.bytesize), def) == CanonStruct(items[n], def)
    ensures ReadStructs(body, def, |items|) == CanonStructs(items, def)
  {
    hide ReadStruct, CanonStruct, Offset;
  }

  /** The row documents of a vector of tables, in wire order. */
  function TableInput(x: J.Value, kf: Option<Field>): Result<seq<J.Value>, ToJsonError>
    requires x.Arr? || (x.Obj? && kf.Some?)
  {
    if kf.Some? then CanonInput(x, kf.value) else Ok(x.items)
  }

  lemma {:induction false} TableVector(x: J.Value, t: nat, hex: bool, s: Schema, depth: nat, o: Options, rd: KeyReader)
    requires GoodSchema(s) && EncVector(x, ETable(t), hex, s, depth, o).Ok?
    ensures ToJson.ReadVector(EncVector(x, ETable(t), hex, s, depth, o).value, ETable(t), hex, s, rd) ==
      CanonVector(x, ETable(t), hex, s, rd)
    decreases J.Height(x), 3, 0
  {
    hide *;
    VectorOfTables(x, t, hex, s, depth, o);
    var kf := KeyedField(TableAt(s, t).fields);
    var rows := TableInput(x, kf).value;
    var d := if x.Obj? then depth + 2 else depth + 1;
    var w := EncVector(x, ETable(t), hex, s, depth, o).value;
    if kf.Some? {
      RowsAgree(w, rows, kf.value, t, s, d, o, rd, J.Height(x));
      KeyedVectorOfRows(x, w, rows, kf.value, t, hex, s, rd);
    } else {
      TablesAgree(w, rows, t, s, d, o, rd, J.Height(x));
      PlainVectorOfRows(x, w, t, hex, s, rd);
    }
  }

  lemma {:induction false} VectorOfTables(x: J.Value, t: nat, hex: bool, s: Schema, depth: nat, o: Options)
    requires EncVector(x, ETable(t), hex, s, depth, o).Ok?
    ensures var kf := KeyedField(TableAt(s, t).fields);
            && (x.Arr? || (x.Obj? && kf.Some?)) && TableInput(x, kf).Ok?
            && var rows := TableInput(x, kf).value; var d := if x.Obj? then depth + 2 else depth + 1;
            && (forall i :: 0 <= i < |rows| ==> J.Height(rows[i]) < J.Height(x))
            && EncTables(rows, t, s, d, o, J.Height(x)).Ok?
            && Items(EncVector(x, ETable(t), hex, s, depth, o).value) == EncTables(rows, t, s, d, o, J.Height(x)).value
            && (if kf.Some? then CanonInput(x, kf.value) == Ok(rows) else x.Arr? && rows == x.items)
  {
    hide *;
    var kf := KeyedField(TableAt(s, t).fields);
    TablesShape(x, t, hex, s, depth, o);
    if x.Arr? {
      ArrayBuilt(x, t, hex, s, depth, o);
      InputOf(x, kf, x.items);
    } else {
      EntriesBuilt(x, t, kf.value, s, depth + 1, o);
      InputOf(x, kf, Rows(SortedEntries(x, kf.value).value));
      ItemsAre(EncKeyed(x, t, kf.value, s, depth + 1, o).value);
    }
  }

  lemma {:induction false} TablesShape(x: J.Value, t: nat, hex: bool, s: Schema, depth: nat, o: Options)
    requires EncVector(x, ETable(t), hex, s, depth, o).Ok?
    ensures var kf := KeyedField(TableAt(s, t).fields);
            && (x.Arr? || (x.Obj? && kf.Some?))
            && (x.Obj? ==> EncVector(x, ETable(t), hex, s, depth, o) == EncKeyed(x, t, kf.value, s, depth + 1, o))
  {
    hide EncKeyed, EncTables, KeyedField, TableAt, J.Height;
  }

  lemma {:induction false} ArrayBuilt(x: J.Value, t: nat, hex: bool, s: Schema, depth: nat, o: Options)
    requires x.Arr? && EncVector(x, ETable(t), hex, s, depth, o).Ok?
    ensures (forall i :: 0 <= i < |x.items| ==> J.Height(x.items[i]) < J.Height(x))
      && EncTables(x.items, t, s, depth + 1, o, J.Height(x)).Ok?
    ensures Items(EncVector(x, ETable(t), hex, s, depth, o).value) ==
            EncTables(x.items, t, s, depth + 1, o, J.Height(x)).value
  {
    hide EncKeyed, EncTables, KeyedField, TableAt, J.Height;
    ItemHeights(x);
  }

  lemma {:induction false} InputOf(x: J.Value, kf: Option<Field>, rows: seq<J.Value>)
    requires (x.Arr? && rows == x.items) || (x.Obj? && kf.Some? && CanonInput(x, kf.value) == Ok(rows))
    ensures TableInput(x, kf) == Ok(rows) && (kf.Some? ==> CanonInput(x, kf.value) == Ok(rows))
  {
    hide J.Height, SortedEntries;
  }

  lemma {:induction false} ItemsAre(w: Val)
    ensures w.VectorVal? ==> Items(w) == w.items
  {
  }

  lemma {:induction false} EntriesBuilt(x: J.Value, t: nat, kf: Field, s: Schema, depth: nat, o: Options)
    requires x.Obj? && EncKeyed(x, t, kf, s, depth, o).Ok?
    ensures SortedEntries(x, kf).Ok?
    ensures var rows := Rows(SortedEntries(x, kf).value);
            && (forall i :: 0 <= i < |rows| ==> J.Height(rows[i]) < J.Height(x))
            && EncTables(rows, t, s, depth + 1, o, J.Height(x)).Ok?
            && EncKeyed(x, t, kf, s, depth, o).value ==
              VectorVal(EncTables(rows, t, s, depth + 1, o, J.Height(x)).value)
            && CanonInput(x, kf) == Ok(rows)
  {
    hide EncTables, SortedEntries, J.Height;
    var es := SortedEntries(x, kf).value;
    assert forall i :: 0 <= i < |es| ==> es[i] in es;
  }

  lemma {:induction false} KeyedVectorOfRows(x: J.Value, w: Val, rows: seq<J.Value>, kf: Field, t: nat, hex: bool,
                                             s: Schema, rd: KeyReader)
    requires KeyedField(TableAt(s, t).fields) == Some(kf) && (x.Arr? || x.Obj?) && CanonInput(x, kf) == Ok(rows)
    requires |rows| == |Items(w)| && forall i :: 0 <= i < |rows| ==> J.Height(rows[i]) < J.Height(x)
    requires ReadRows(w, |Items(w)|, kf, t, s, rd) == CanonRows(rows, kf, t, s, rd, J.Height(x))
    ensures ToJson.ReadVector(w, ETable(t), hex, s, rd) == CanonVector(x, ETable(t), hex, s, rd)
  {
    hide ReadRows, CanonRows, CanonInput, KeyedField, TableAt, J.Height;
  }

  lemma {:induction false} PlainVectorOfRows(x: J.Value, w: Val, t: nat, hex: bool, s: Schema, rd: KeyReader)
    requires KeyedField(TableAt(s, t).fields) == None && x.Arr? && |x.items| == |Items(w)|
    requires forall i :: 0 <= i < |x.items| ==> J.Height(x.items[i]) < J.Height(x)
    requires ReadTables(w, |Items(w)|, t, s, rd) == CanonTables(x.items, t, s, rd, J.Height(x))
    ensures ToJson.ReadVector(w, ETable(t), hex, s, rd) == CanonVector(x, ETable(t), hex, s, rd)
  {
    hide ReadTables, CanonTables, KeyedField, TableAt, J.Height;
  }

  lemma {:induction false} TablesAgree(w: Val, rows: seq<J.Value>, t: nat, s: Schema, depth: nat, o: Options,
                                       rd: KeyReader, bound: nat)
    requires GoodSchema(s) && forall i :: 0 <= i < |rows| ==> J.Height(rows[i]) < bound
    requires EncTables(rows, t, s, depth, o, bound).Ok? && EncTables(rows, t, s, depth, o, bound).value <= Items(w)
    ensures ReadTables(w, |rows|, t, s, rd) == CanonTables(rows, t, s, rd, bound)
    decreases bound, 1, |rows|
  {
    hide *;
    if |rows| == 0 {
      assert rows == [];
      NoTables(w, t, s, rd, bound);
    } else {
      LastTable(w, rows, t, s, depth, o, bound);
      TablesAgree(w, rows[..|rows| - 1], t, s, depth, o, rd, bound);
      TableRoundTrip(rows[|rows| - 1], t, s, depth, o, rd);
      TablesStep(w, rows, t, s, rd, bound);
    }
  }

  lemma {:induction false} NoTables(w: Val, t: nat, s: Schema, rd: KeyReader, bound: nat)
    ensures ReadTables(w, 0, t, s, rd) == CanonTables([], t, s, rd, bound)
  {
  }

  lemma {:induction false} LastTable(w: Val, rows: seq<J.Value>, t: nat, s: Schema, depth: nat, o: Options, bound: nat)
    requires rows != [] && forall i :: 0 <= i < |rows| ==> J.Height(rows[i]) < bound
    requires EncTables(rows, t, s, depth, o, bound).Ok? && EncTables(rows, t, s, depth, o, bound).value <= Items(w)
    ensures var n := |rows| - 1;
            && EncTables(rows[..n], t, s, depth, o, bound).Ok?
              && EncTables(rows[..n], t, s, depth, o, bound).value <= Items(w)
            && EncTable(rows[n], t, s, depth, o) == Ok(Items(w)[n])
  {
    hide EncTable, Items;
    var n := |rows| - 1;
    var init := EncTables(rows[..n], t, s, depth, o, bound).value;
    var all := EncTables(rows, t, s, depth, o, bound).value;
    assert all[..n] == init && all[n] == Items(w)[n];
  }

  lemma {:induction false} TablesStep(w: Val, rows: seq<J.Value>, t: nat, s: Schema, rd: KeyReader, bound: nat)
    requires rows != [] && |rows| <= |Items(w)| && forall i :: 0 <= i < |rows| ==> J.Height(rows[i]) < bound
    requires var n := |rows| - 1;
      && ReadTables(w, n, t, s, rd) == CanonTables(rows[..n], t, s, rd, bound)
      && ReadTable(Items(w)[n], t, s, rd) == CanonTable(rows[n], t, s, rd)
    ensures ReadTables(w, |rows|, t, s, rd) == CanonTables(rows, t, s, rd, bound)
  {
    hide ReadTable, CanonTable, Items, J.Height;
  }

  lemma {:induction false} RowsAgree(w: Val, rows: seq<J.Value>, kf: Field, t: nat, s: Schema, depth: nat, o: Options,
                                     rd: KeyReader, bound: nat)
    requires GoodSchema(s) && KeyedField(TableAt(s, t).fields) == Some(kf)
    requires forall i :: 0 <= i < |rows| ==> J.Height(rows[i]) < bound
    requires EncTables(rows, t, s, depth, o, bound).Ok? && EncTables(rows, t, s, depth, o, bound).value <= Items(w)
    ensures ReadRows(w, |rows|, kf, t, s, rd) == CanonRows(rows, kf, t, s, rd, bound)
    decreases bound, 1, |rows|
  {
    hide *;
    if |rows| == 0 {
      assert rows == [];
      NoRows(w, kf, t, s, rd, bound);
    } else {
      LastTable(w, rows, t, s, depth, o, bound);
      RowsAgree(w, rows[..|rows| - 1], kf, t, s, depth, o, rd, bound);
      TableRoundTrip(rows[|rows| - 1], t, s, depth, o, rd);
      KeyAgrees(rows[|rows| - 1], kf, t, s, depth, o, rd);
      RowsStep(w, rows, kf, t, s, rd, bound);
    }
  }

  lemma {:induction false} NoRows(w: Val, kf: Field, t: nat, s: Schema, rd: KeyReader, bound: nat)
    ensures ReadRows(w, 0, kf, t, s, rd) == CanonRows([], kf, t, s, rd, bound)
  {
  }

  lemma {:induction false} RowsStep(w: Val, rows: seq<J.Value>, kf: Field, t: nat, s: Schema, rd: KeyReader, bound: nat)
    requires rows != [] && |rows| <= |Items(w)| && forall i :: 0 <= i < |rows| ==> J.Height(rows[i]) < bound
    requires var n := |rows| - 1;
      && ReadRows(w, n, kf, t, s, rd) == CanonRows(rows[..n], kf, t, s, rd, bound)
      && ReadTable(Items(w)[n], t, s, rd) == CanonTable(rows[n], t, s, rd)
      && RowKey(Items(w)[n], kf, rd) == DocumentKey(rows[n], kf, rd)
    ensures ReadRows(w, |rows|, kf, t, s, rd) == CanonRows(rows, kf, t, s, rd, bound)
  {
    hide ReadTable, CanonTable, Items, RowKey, DocumentKey, J.Height;
  }

  /** The key a reader finds in a built row is the key its document shows. */
  lemma {:induction false} KeyAgrees(row: J.Value, kf: Field, t: nat, s: Schema, depth: nat, o: Options, rd: KeyReader)
    requires GoodSchema(s) && KeyedField(TableAt(s, t).fields) == Some(kf) && EncTable(row, t, s, depth, o).Ok?
    ensures RowKey(EncTable(row, t, s, depth, o).value, kf, rd) == DocumentKey(row, kf, rd)
  {
    hide *;
    TableParts(row, t, s, depth, o);
    GoodAt(s, t);
    var k := KeyedFieldIndex(TableAt(s, t).fields);
    FieldIsGood(TableAt(s, t), k);
    KeyIsNoUnion(kf);
    SlotOfField(row, t, s, depth, o, k);
    FieldOfPresent(row, kf, s, depth, o);
    KeySlot(row, EncTable(row, t, s, depth, o).value, kf, s, depth, o, rd);
  }

  lemma {:induction false} KeyedFieldIndex(fields: seq<Field>) returns (k: nat)
    requires KeyedField(fields).Some?
    ensures k < |fields| && fields[k] == KeyedField(fields).value && fields[k].key
  {
    if fields[0].key {
      k := 0;
    } else {
      var j := KeyedFieldIndex(fields[1..]);
      k := j + 1;
    }
  }

  lemma {:induction false} KeyIsNoUnion(kf: Field)
    requires GoodField(kf) && kf.key
    ensures !kf.typ.Union?
  {
  }

  lemma {:induction false} KeySlot(row: J.Value, w: Val, kf: Field, s: Schema, depth: nat, o: Options, rd: KeyReader)
    requires row.Obj? && w.TableVal? && !kf.typ.Union? && EncField(row, kf, s, depth, o).Ok?
    requires match J.Present(row.m, kf.name)
             case None => EncField(row, kf, s, depth, o).value == None
             case Some(x) =>
               && EncPresent(x, kf, s, depth, o).Ok?
               && EncField(row, kf, s, depth, o).value == Some(EncPresent(x, kf, s, depth, o).value)
    requires Lookup(w.slots, kf.offset) ==
             match EncField(row, kf, s, depth, o).value case None => None case Some(p) => Effect(Pending(kf.offset, p),
               kf.offset)
    ensures RowKey(w, kf, rd) == DocumentKey(row, kf, rd)
  {
    hide EncField, EncodeScalar, EncTable, EncVector, StructBytes, DefaultScalar, SameScalar, AbsentText, ScalarText;
    if J.Present(row.m, kf.name).Some? {
      BuiltShape(J.Present(row.m, kf.name).value, kf, s, depth, o);
    }
  }

  /** No nested value looks like a scalar or a string to the key reader. */
  lemma {:induction false} BuiltShape(x: J.Value, f: Field, s: Schema, depth: nat, o: Options)
    requires EncPresent(x, f, s, depth, o).Ok?
    ensures match EncPresent(x, f, s, depth, o).value
            case PushScalar(_, _) => f.typ.Scalar?
            case PushOffset(v) => !v.ScalarVal? && (v.StringVal? ==> f.typ.String?)
            case PushStruct(_, _) => f.typ.Struct?
            case PushUnion(_, _) => false
  {
    hide EncTables, EncKeyed, EncFields, WriteSlots, EncodeScalar, StructBytes, EncScalars, EncStrings, EncStructs,
      EncBlob;
    if f.typ.Vector? { VectorShape(x, f.typ.elem, f.hex, s, depth + 1, o); }
  }

  lemma {:induction false} VectorShape(x: J.Value, el: ElementType, hex: bool, s: Schema, depth: nat, o: Options)
    requires EncVector(x, el, hex, s, depth, o).Ok?
    ensures var w := EncVector(x, el, hex, s, depth, o).value; w.VectorVal? || w.BytesVal? || w.StructVectorVal?
  {
    hide EncTables, SortedEntries, EncScalars, EncStrings, EncStructs, EncByteItems, ParseBlob;
  }
}
