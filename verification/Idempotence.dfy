/**
 The parts of a canonical document, on which `FixedPoints` and `ReencodeTables` build.

 - Canonical scalars, structs and bytes are their own canonical form. A default shown in a document that
   does not give the field is one exactly if `DefaultReturns`.
 - Each field contributes its own members, whatever was there before, and the members of a finished
   document are exactly the contributions of its fields: nothing that another field adds can stand where a
   field looks (`Contributed`).

 The schema must give enum members, variants and fields one name each, and may only call integers enums.
 */
module Idempotence {
  import opened Wrappers
  import opened Floats
  import opened Schema
  import opened Scalars
  import opened StructJson
  import opened Blobs
  import opened KeyText
  import opened FromJson
  import opened ToJson
  import opened Canon
  import opened Lenient
  import SR = SameReaders
  import D = DocumentPaths
  import J = Json
  import Text

  // What the schema must promise.

  predicate DistinctEnumNames(values: seq<EnumVal>) {
    forall i, j :: 0 <= i < j < |values| ==> values[i].name != values[j].name
  }

  /** Enum members have one name each; only integers are enums. */
  predicate GoodEnum(st: ScalarType, en: Option<EnumDef>) {
    en.Some? ==> IsInteger(st) && DistinctEnumNames(en.value.values)
  }

  predicate GoodStruct(def: StructDef) {
    && D.DistinctStructNames(def.fields)
    && forall i :: 0 <= i < |def.fields| ==> GoodStructField(def.fields[i].typ)
  }

  predicate GoodStructField(t: StructFieldType) {
    match t
    case SScalar(st, en) => GoodEnum(st, en)
    case SStruct(d) => GoodStruct(d)
    case SScalarArray(_, _) => true
    case SStructArray(d, _) => GoodStruct(d)
  }

  predicate GoodVariants(variants: seq<Variant>) {
    && D.DistinctVariantNames(variants)
    && (forall i :: 0 <= i < |variants| && variants[i].typ.Some? && variants[i].typ.value.VStruct? ==>
      GoodStruct(variants[i].typ.value.def))
  }

  predicate GoodType(f: Field) {
    match f.typ
    case Scalar(st, en) => GoodEnum(st, en)
    case Struct(def) => GoodStruct(def)
    case Vector(el) => (el.EScalar? ==> GoodEnum(el.st, ElementEnum(el.st, el.en)))
      && (el.EStruct? ==> GoodStruct(el.def))
    case Union(variants) => GoodVariants(variants)
    case _ => true
  }

  predicate CanonSchema(s: Schema) {
    && NamedApart(s)
    && forall t, i :: 0 <= t < |s.tables| && 0 <= i < |s.tables[t].fields| ==> GoodType(s.tables[t].fields[i])
  }

  // Scalars.

  lemma {:induction false} NameAndValue(values: seq<EnumVal>, n: int)
    requires DistinctEnumNames(values)
    ensures NameOfValue(values, n).Some? ==> ValueOfName(values, NameOfValue(values, n).value) == Some(n)
    ensures NameOfValue(values, n).Some? ==>
      exists i :: 0 <= i < |values| && values[i].name == NameOfValue(values, n).value
  {
    if values != [] && values[0].value != n {
      NameAndValue(values[1..], n);
      if NameOfValue(values, n).Some? {
        var i :| 0 <= i < |values[1..]| && values[1..][i].name == NameOfValue(values, n).value;
        assert values[i + 1].name == NameOfValue(values, n).value;
      }
    }
  }

  /** A scalar shown as JSON encodes to itself. */
  lemma {:induction false} ScalarFixed(st: ScalarType, en: Option<EnumDef>, sc: Scalar, j: J.Value)
    requires GoodEnum(st, en) && Fits(st, sc) && (en.Some? ==> sc.n <= Text.I64_MAX) && ScalarJson(st, en, sc) == Ok(j)
    ensures EncodeScalar(st, en, j) == Ok(sc) && !j.Null?
  {
    hide Narrow, Widen, IsFinite, FloatFallback, NameOfValue, ValueOfName, DistinctEnumNames, IsFinite32;
    match sc {
      case F4(b) =>
        WidenFinite(b);
        if IsFinite32(b) { NarrowWiden(b); }
      case F8(b) =>
      case I(n) => if en.Some? { NameAndValue(en.value.values, n); }
    }
  }

  /**
   The field's default, once shown, is a value that `from_json` takes: a `ulong` enum takes no negative
   number, although its default, an `i64` in the schema, may be one.
   */
  predicate DefaultReturns(f: Field) {
    f.typ.Scalar? && f.typ.st.ULong? && f.typ.en.Some? ==> f.defaultInt >= 0
  }

  lemma {:induction false} DefaultReencodes(f: Field)
    requires f.typ.Scalar? && GoodType(f)
    ensures var d := DefaultScalar(f.typ.st, f.defaultInt, f.defaultReal);
            Fits(f.typ.st, d) && (f.typ.en.Some? && DefaultReturns(f) ==> d.n <= Text.I64_MAX)
  {
    DefaultFits(f.typ.st, f.defaultInt, f.defaultReal);
  }

  /** A negative number of a `ulong` enum is refused by name and as a number. */
  lemma {:induction false} NegativeIsRefused(en: EnumDef, n: I64)
    requires DistinctEnumNames(en.values) && n < 0
    ensures EncodeScalar(ULong, Some(en), EnumJson(n, en)).Err?
  {
    hide NameOfValue, ValueOfName, DistinctEnumNames;
    NameAndValue(en.values, n);
  }

  /** The shown default is accepted exactly if it returns, and then it is the default. */
  lemma {:induction false} DefaultDecides(f: Field, j: J.Value)
    requires f.typ.Scalar? && GoodType(f)
    requires ScalarJson(f.typ.st, f.typ.en, DefaultScalar(f.typ.st, f.defaultInt, f.defaultReal)) == Ok(j)
    ensures !j.Null? && (EncodeScalar(f.typ.st, f.typ.en, j).Ok? <==> DefaultReturns(f))
    ensures DefaultReturns(f) ==>
              EncodeScalar(f.typ.st, f.typ.en, j) == Ok(DefaultScalar(f.typ.st, f.defaultInt, f.defaultReal))
  {
    hide EncodeScalar, ScalarJson, DefaultScalar, Fits, GoodEnum;
    DefaultReencodes(f);
    if DefaultReturns(f) {
      ScalarFixed(f.typ.st, f.typ.en, DefaultScalar(f.typ.st, f.defaultInt, f.defaultReal), j);
    } else {
      NegativeDefault(f, j);
      NegativeIsRefused(f.typ.en.value, f.defaultInt);
    }
  }

  lemma {:induction false} NegativeDefault(f: Field, j: J.Value)
    requires f.typ.Scalar? && GoodType(f) && !DefaultReturns(f)
    requires ScalarJson(f.typ.st, f.typ.en, DefaultScalar(f.typ.st, f.defaultInt, f.defaultReal)) == Ok(j)
    ensures f.typ.en.Some? && DistinctEnumNames(f.typ.en.value.values) && f.defaultInt < 0
    ensures j == EnumJson(f.defaultInt, f.typ.en.value) && !j.Null?
  {
    hide DistinctEnumNames, NameOfValue;
  }

  lemma {:induction false} EncodedIsSmall(st: ScalarType, en: Option<EnumDef>, x: J.Value)
    requires GoodEnum(st, en) && EncodeScalar(st, en, x).Ok?
    ensures Fits(st, EncodeScalar(st, en, x).value) && (en.Some? ==> EncodeScalar(st, en, x).value.n <= Text.I64_MAX)
  {
    hide FloatFallback, Narrow, OfInt, Fits;
    EncodedFits(st, en, x);
    if en.Some? { EnumIsSmall(st, en.value, x); }
  }

  lemma {:induction false} EnumIsSmall(st: ScalarType, en: EnumDef, x: J.Value)
    requires EncodeScalar(st, Some(en), x).Ok?
    ensures EncodeScalar(st, Some(en), x).value.I? && EncodeScalar(st, Some(en), x).value.n <= Text.I64_MAX
  {
  }

  /** A scalar member's canonical value encodes to the scalar it shows, and is its own canonical value. */
  lemma {:induction false} ScalarValueFixed(x: J.Value, f: Field, s: Schema, rd: KeyReader, j: J.Value)
    requires f.typ.Scalar? && GoodType(f) && CanonValue(x, f, s, rd) == Ok(j)
    ensures CanonValue(j, f, s, rd) == Ok(j) && EncodeScalar(f.typ.st, f.typ.en, j).Ok? && !j.Null?
  {
    hide EncodeScalar, ScalarJson, DefaultScalar, Fits;
    DefaultReencodes(f);
    EncodedIsSmall(f.typ.st, f.typ.en, x);
    var sc := EncodeScalar(f.typ.st, f.typ.en, x).value;
    var d := DefaultScalar(f.typ.st, f.defaultInt, f.defaultReal);
    var e := Effective(sc, d);
    EnumsAreNumbers(f.typ.st, f.typ.en, sc);
    assert sc.I? ==> e == sc;
    ScalarFixed(f.typ.st, f.typ.en, e, j);
    assert Effective(e, d) == e;
  }

  lemma {:induction false} EnumsAreNumbers(st: ScalarType, en: Option<EnumDef>, sc: Scalar)
    requires GoodEnum(st, en) && Fits(st, sc)
    ensures en.Some? ==> sc.I?
  {
  }

  lemma {:induction false} DefaultValueFixed(f: Field, s: Schema, rd: KeyReader, j: J.Value)
    requires f.typ.Scalar? && GoodType(f)
    requires ScalarJson(f.typ.st, f.typ.en, DefaultScalar(f.typ.st, f.defaultInt, f.defaultReal)) == Ok(j)
    ensures !j.Null? && (CanonValue(j, f, s, rd) == Ok(j) <==> DefaultReturns(f))
  {
    hide EncodeScalar, ScalarJson, DefaultScalar, SameScalar, DefaultReturns, GoodType;
    DefaultDecides(f, j);
  }

  lemma {:induction false} CanonScalarFixed(st: ScalarType, en: Option<EnumDef>, x: J.Value, j: J.Value)
    requires GoodEnum(st, en) && CanonScalar(st, en, x) == Ok(j)
    ensures CanonScalar(st, en, j) == Ok(j)
  {
    hide EncodeScalar, ScalarJson, Fits, GoodEnum;
    EncodedIsSmall(st, en, x);
    ScalarFixed(st, en, EncodeScalar(st, en, x).value, j);
  }

  lemma {:induction false} ScalarsFixed(items: seq<J.Value>, st: ScalarType, en: Option<EnumDef>, docs: seq<J.Value>)
    requires GoodEnum(st, en) && CanonScalars(items, st, en) == Ok(docs)
    ensures CanonScalars(docs, st, en) == Ok(docs)
  {
    hide CanonScalar, GoodEnum;
    if items != [] {
      var n := |items| - 1;
      ScalarsFixed(items[..n], st, en, CanonScalars(items[..n], st, en).value);
      assert docs[..|docs| - 1] == CanonScalars(items[..n], st, en).value;
      CanonScalarFixed(st, en, items[n], docs[|docs| - 1]);
    }
  }

  // Structs.

  lemma {:induction false} StructFixed(v: J.Value, def: StructDef, c: J.Value)
    requires GoodStruct(def) && CanonStruct(v, def) == Ok(c)
    ensures CanonStruct(c, def) == Ok(c)
    decreases def, 3, 0
  {
    hide CanonField, StructById, GoodStruct;
    ByIdIsWithin(def);
    StructFieldsFixed(v.m, StructById(def.fields), map[], def, c.m);
  }

  /** With the finished object in hand, canonicalising it again adds the same members one by one. */
  lemma {:induction false} StructFieldsFixed(m: map<string, J.Value>, todo: seq<StructField>, acc: map<string,
                                             J.Value>, within: StructDef, c: map<string, J.Value>)
    requires GoodStruct(within) && (forall f :: f in todo ==> f in within.fields)
    requires CanonFields(m, todo, acc, within) == Ok(c)
    ensures CanonFields(c, todo, acc, within) == Ok(c)
    decreases within, 2, |todo|
  {
    hide CanonField, GoodStruct;
    if todo != [] {
      var f := todo[0];
      assert f in within.fields;
      var j := CanonField(f.typ, m[f.name]).value;
      DistinctFieldNames(within);
      StructMemberStays(m, todo[1..], acc[f.name := j], within, c, f, j);
      GoodStructAt(within, f);
      StructFieldFixed(f.typ, m[f.name], j);
      StructFieldsFixed(m, todo[1..], acc[f.name := j], within, c);
    }
  }

  lemma {:induction false} DistinctFieldNames(def: StructDef)
    requires GoodStruct(def)
    ensures D.DistinctStructNames(def.fields)
  {
  }

  lemma {:induction false} GoodStructAt(def: StructDef, f: StructField)
    requires GoodStruct(def) && f in def.fields
    ensures GoodStructField(f.typ) && f.typ < def
  {
  }

  lemma {:induction false} StructMemberStays(m: map<string, J.Value>, todo: seq<StructField>, acc: map<string,
                                             J.Value>, within: StructDef,
                                             c: map<string, J.Value>, f: StructField, j: J.Value)
    requires D.DistinctStructNames(within.fields) && f in within.fields
      && (forall g :: g in todo ==> g in within.fields)
    requires CanonFields(m, todo, acc, within) == Ok(c) && SR.Has(acc, f.name, j)
    requires f.name in m && CanonField(f.typ, m[f.name]) == Ok(j)
    ensures SR.Has(c, f.name, j)
    decreases |todo|
  {
    hide CanonField, D.DistinctStructNames;
    if todo != [] {
      var g := todo[0];
      assert g in within.fields;
      if g.name == f.name { SR.SameName(within.fields, f, g); }
      StructMemberStays(m, todo[1..], acc[g.name := CanonField(g.typ, m[g.name]).value], within, c, f, j);
    }
  }

  lemma {:induction false} StructFieldFixed(t: StructFieldType, v: J.Value, j: J.Value)
    requires GoodStructField(t) && CanonField(t, v) == Ok(j)
    ensures CanonField(t, j) == Ok(j)
    decreases t, 4, 0
  {
    hide CanonStruct, CanonScalar, GoodEnum, GoodStruct, CanonElements;
    match t {
      case SScalar(st, en) => CanonScalarFixed(st, en, v, j);
      case SStruct(d) => StructFixed(v, d, j);
      case _ => ElementsFixed(t, v.items, j.items);
    }
  }

  lemma {:induction false} ElementsFixed(t: StructFieldType, items: seq<J.Value>, docs: seq<J.Value>)
    requires (t.SScalarArray? || t.SStructArray?) && GoodStructField(t) && CanonElements(t, items) == Ok(docs)
    ensures CanonElements(t, docs) == Ok(docs)
    decreases t, 3, |items|
  {
    hide CanonStruct, CanonScalar, GoodStruct;
    if items != [] {
      var n := |items| - 1;
      ElementsFixed(t, items[..n], CanonElements(t, items[..n]).value);
      assert docs[..|docs| - 1] == CanonElements(t, items[..n]).value;
      match t {
        case SScalarArray(st, _) => CanonScalarFixed(st, None, items[n], docs[|docs| - 1]);
        case SStructArray(d, _) => StructFixed(items[n], d, docs[|docs| - 1]);
      }
    }
  }

  lemma {:induction false} StructsFixed(items: seq<J.Value>, def: StructDef, docs: seq<J.Value>)
    requires GoodStruct(def) && CanonStructs(items, def) == Ok(docs)
    ensures CanonStructs(docs, def) == Ok(docs)
  {
    hide CanonStruct, GoodStruct;
    if items != [] {
      var n := |items| - 1;
      StructsFixed(items[..n], def, CanonStructs(items[..n], def).value);
      assert docs[..|docs| - 1] == CanonStructs(items[..n], def).value;
      StructFixed(items[n], def, docs[|docs| - 1]);
    }
  }

  lemma {:induction false} BlobFixed(x: J.Value, hex: bool, j: J.Value)
    requires CanonBlob(x, hex) == Ok(j)
    ensures CanonBlob(j, hex) == Ok(j)
  {
    hide ParseBlob, BlobText, EncByteItems;
    match x {
      case Str(text) => BlobRoundTrip(ParseBlob(text, hex).value, hex);
      case Arr(items) => BlobRoundTrip(EncByteItems(items).value, hex);
    }
  }

  // Tables.

  predicate Owns(f: Field, k: string) {
    k == f.name || (f.typ.Union? && k == DiscKey(f.name))
  }

  function Member(v: J.Value, f: Field, fields: seq<Field>, s: Schema, rd: KeyReader): JsonMap
    requires v.Obj?
  {
    CanonMember(v, f, fields, map[], s, rd)
  }

  /** A member's contribution does not depend on the members before it. */
  lemma {:induction false} MemberMerges(v: J.Value, f: Field, fields: seq<Field>, acc: map<string, J.Value>, s: Schema,
                                        rd: KeyReader)
    requires v.Obj?
    ensures var r := Member(v, f, fields, s, rd);
            && CanonMember(v, f, fields, acc, s, rd) == (if r.Err? then r else Ok(acc + r.value))
            && (r.Ok? ==> forall k :: k in r.value ==> Owns(f, k))
  {
    hide CanonValue, CanonUnion, ScalarJson, DefaultScalar, IsDiscriminator;
    if f.typ.Union? { UnionMerges(v, f, acc, s, rd); }
    var r, m := Member(v, f, fields, s, rd), CanonMember(v, f, fields, acc, s, rd);
    if r.Ok? && !f.typ.Union? { assert m.value == acc + r.value; }
    if IsDiscriminator(f, fields) { assert acc == acc + map[]; }
  }

  lemma {:induction false} UnionMerges(v: J.Value, f: Field, acc: map<string, J.Value>, s: Schema, rd: KeyReader)
    requires v.Obj? && f.typ.Union?
    ensures var r := CanonUnion(v, f, map[], s, rd);
            && CanonUnion(v, f, acc, s, rd) == (if r.Err? then r else Ok(acc + r.value))
            && (r.Ok? ==> forall k :: k in r.value ==> Owns(f, k))
  {
    hide CanonVariant, VariantByName, VariantByValue;
    var r, m := CanonUnion(v, f, map[], s, rd), CanonUnion(v, f, acc, s, rd);
    if r.Ok? { assert m.value == acc + r.value; }
  }

  predicate SameAt(a: map<string, J.Value>, b: map<string, J.Value>, k: string) {
    (k in a <==> k in b) && (k in a ==> a[k] == b[k])
  }

  lemma {:induction false} OwnersDiffer(fields: seq<Field>, g: Field, f: Field, k: string)
    requires DistinctNames(fields) && TagNamesReserved(fields) && g in fields && f in fields && g != f
    requires !IsDiscriminator(f, fields) && !IsDiscriminator(g, fields)
    ensures !(Owns(f, k) && Owns(g, k))
  {
    hide IsDiscriminator;
    SR.NamesDiffer(fields, g, f);
    SR.NamesDiffer(fields, f, g);
    if f.typ.Union? && g.typ.Union? && DiscKey(f.name) == DiscKey(g.name) { SR.DiscKeyInjective(f.name, g.name); }
  }

  /** A finished document holds, under a field's keys, what the field contributed. */
  lemma {:induction false} Contributed(v: J.Value, todo: seq<Field>, fields: seq<Field>, acc: map<string, J.Value>,
                                       s: Schema, rd: KeyReader,
                                       f: Field, k: string)
    requires v.Obj? && DistinctNames(fields) && TagNamesReserved(fields) && f in fields && !IsDiscriminator(f, fields)
      && Owns(f, k)
    requires (forall g :: g in todo ==> g in fields) && CanonMembers(v, todo, fields, acc, s, rd).Ok?
    requires Member(v, f, fields, s, rd).Ok?
    requires k !in acc || SameAt(acc, Member(v, f, fields, s, rd).value, k)
    requires f !in todo ==> SameAt(acc, Member(v, f, fields, s, rd).value, k)
    ensures SameAt(CanonMembers(v, todo, fields, acc, s, rd).value, Member(v, f, fields, s, rd).value, k)
    decreases |todo|
  {
    hide CanonMember, Member, IsDiscriminator, Owns, DistinctNames, TagNamesReserved;
    if todo != [] {
      var g := todo[0];
      var next := CanonMember(v, g, fields, acc, s, rd).value;
      MemberMerges(v, g, fields, acc, s, rd);
      if g != f {
        if IsDiscriminator(g, fields) { TagAddsNothing(v, g, fields, s, rd); } else { OwnersDiffer(fields, g, f, k); }
      }
      Contributed(v, todo[1..], fields, next, s, rd, f, k);
    }
  }

  lemma {:induction false} TagAddsNothing(v: J.Value, g: Field, fields: seq<Field>, s: Schema, rd: KeyReader)
    requires v.Obj? && IsDiscriminator(g, fields)
    ensures Member(v, g, fields, s, rd) == Ok(map[])
  {
  }

  lemma {:induction false} MembersAllOk(v: J.Value, todo: seq<Field>, fields: seq<Field>, acc: map<string, J.Value>,
                                        s: Schema, rd: KeyReader, f: Field)
    requires v.Obj? && CanonMembers(v, todo, fields, acc, s, rd).Ok? && f in todo
    ensures Member(v, f, fields, s, rd).Ok?
    decreases |todo|
  {
    hide CanonMember, Member;
    MemberMerges(v, todo[0], fields, acc, s, rd);
    if todo[0] != f { MembersAllOk(v, todo[1..], fields, CanonMember(v, todo[0], fields, acc, s, rd).value, s, rd, f); }
  }

  /** If every member of `c` contributes what it contributed to `c`, the document is a fixed point. */
  lemma {:induction false} SameMembers(v: J.Value, c: J.Value, todo: seq<Field>, fields: seq<Field>, acc: map<string,
                                       J.Value>, s: Schema, rd: KeyReader)
    requires v.Obj? && c.Obj?
    requires forall f :: f in todo ==> Member(c, f, fields, s, rd) == Member(v, f, fields, s, rd)
    ensures CanonMembers(c, todo, fields, acc, s, rd) == CanonMembers(v, todo, fields, acc, s, rd)
    decreases |todo|
  {
    hide CanonMember, Member;
    if todo != [] {
      assert todo[0] in todo;
      MemberMerges(v, todo[0], fields, acc, s, rd);
      MemberMerges(c, todo[0], fields, acc, s, rd);
      var next := CanonMember(v, todo[0], fields, acc, s, rd);
      if next.Ok? { SameMembers(v, c, todo[1..], fields, next.value, s, rd); }
    }
  }

  /** Two documents whose canonical forms hold the same under a field's keys contribute the same there. */
  lemma {:induction false} SameContribution(c: J.Value, a: map<string, J.Value>, b: map<string, J.Value>, f: Field)
    requires c.Obj? && (forall k :: k in a ==> Owns(f, k)) && (forall k :: k in b ==> Owns(f, k))
    requires forall k :: Owns(f, k) ==> SameAt(c.m, a, k) && SameAt(c.m, b, k)
    ensures a == b
  {
    hide Owns;
    forall k ensures SameAt(a, b, k) {
      if Owns(f, k) { assert SameAt(c.m, a, k) && SameAt(c.m, b, k); }
    }
  }

  lemma {:induction false} TableShape(v: J.Value, t: nat, s: Schema, rd: KeyReader, c: J.Value)
    requires CanonTable(v, t, s, rd) == Ok(c)
    ensures v.Obj? && c.Obj?
    ensures var fields := TableAt(s, t).fields; CanonMembers(v, ById(fields), fields, map[], s, rd) == Ok(c.m)
  {
    hide CanonMembers, ById, TableAt;
  }

  lemma {:induction false} TableShapeBack(v: J.Value, t: nat, s: Schema, rd: KeyReader, c: J.Value)
    requires v.Obj? && c.Obj?
    requires var fields := TableAt(s, t).fields; CanonMembers(v, ById(fields), fields, map[], s, rd) == Ok(c.m)
    ensures CanonTable(v, t, s, rd) == Ok(c)
  {
    hide CanonMembers, ById, TableAt;
  }

  lemma {:induction false} NamesApartIn(s: Schema)
    requires CanonSchema(s)
    ensures NamedApart(s)
  {
  }

  lemma {:induction false} GoodTypeAt(s: Schema, t: nat, i: nat)
    requires CanonSchema(s) && i < |TableAt(s, t).fields|
    ensures GoodType(TableAt(s, t).fields[i])
  {
    hide GoodType, NamedApart;
  }

  lemma {:induction false} OwnsBoth(f: Field)
    requires f.typ.Union?
    ensures Owns(f, f.name) && Owns(f, DiscKey(f.name))
  {
  }

  lemma {:induction false} OwnsName(f: Field)
    ensures Owns(f, f.name)
  {
  }

  lemma {:induction false} UnionIs(v: J.Value, f: Field, fields: seq<Field>, s: Schema, rd: KeyReader)
    requires v.Obj? && f.typ.Union? && !IsDiscriminator(f, fields)
    ensures Member(v, f, fields, s, rd) == CanonUnion(v, f, map[], s, rd)
  {
    hide CanonUnion, IsDiscriminator;
  }

  lemma {:induction false} PresentIn(v: J.Value, name: string)
    requires v.Obj? && J.Present(v.m, name).Some?
    ensures name in v.m && v.m[name] == J.Present(v.m, name).value && !v.m[name].Null?
  {
  }

  /** What a plain member contributes. */
  lemma {:induction false} PlainIs(v: J.Value, f: Field, fields: seq<Field>, s: Schema, rd: KeyReader)
    requires v.Obj? && !f.typ.Union? && !IsDiscriminator(f, fields)
    ensures J.Present(v.m, f.name).Some? ==>
              var j := CanonValue(J.Present(v.m, f.name).value, f, s, rd);
              Member(v, f, fields, s, rd) == if j.Err? then Err(j.error) else Ok(map[f.name := j.value])
    ensures J.Present(v.m, f.name).None? && !f.typ.Scalar? ==> Member(v, f, fields, s, rd) == Ok(map[])
    ensures J.Present(v.m, f.name).None? && f.typ.Scalar? ==>
              var j := ScalarJson(f.typ.st, f.typ.en, DefaultScalar(f.typ.st, f.defaultInt, f.defaultReal));
              Member(v, f, fields, s, rd) == if j.Err? then Err(j.error) else Ok(map[f.name := j.value])
  {
    hide CanonValue, ScalarJson, DefaultScalar, IsDiscriminator;
  }

  lemma {:induction false} MissingIsMissing(v: J.Value, c: J.Value, f: Field, fields: seq<Field>, s: Schema,
                                            rd: KeyReader)
    requires v.Obj? && c.Obj? && Member(v, f, fields, s, rd).Ok?
      && SameAt(c.m, Member(v, f, fields, s, rd).value, f.name)
    ensures Member(v, f, fields, s, rd) == Ok(map[]) ==> J.Present(c.m, f.name) == None
  {
    hide CanonMember;
  }

  lemma {:induction false} OneMember(c: J.Value, name: string, j: J.Value, r: map<string, J.Value>)
    requires c.Obj? && r == map[name := j] && SameAt(c.m, r, name) && !j.Null?
    ensures J.Present(c.m, name) == Some(j)
  {
  }

  lemma {:induction false} StructShown(x: J.Value, def: StructDef)
    ensures CanonStruct(x, def).Ok? ==> CanonStruct(x, def).value.Obj?
  {
    hide CanonFields, StructById;
  }

  // Unions.

  /** The table of a union's variant that the document's tag names. */
  function ActiveTable(m: map<string, J.Value>, name: string, variants: seq<Variant>): Option<nat> {
    if DiscKey(name) in m && m[DiscKey(name)].Str? && name in m then
      match VariantByName(variants, m[DiscKey(name)].s)
      case Some(Variant(_, value, Some(VTable(i)))) => if value == 0 then None else Some(i)
      case _ => None
    else None
  }

  lemma {:induction false} VariantListed(variants: seq<Variant>, name: string)
    ensures VariantByName(variants, name).Some? ==> VariantByName(variants, name).value in variants
  {
    if variants != [] { VariantListed(variants[1..], name); }
  }

  lemma {:induction false} BlobIsText(x: J.Value, hex: bool)
    ensures CanonBlob(x, hex).Ok? ==> CanonBlob(x, hex).value.Str?
  {
    hide ParseBlob, BlobText, EncByteItems;
  }
}
