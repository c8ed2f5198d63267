/**
 The induction behind `Reencode`: the canonical document is accepted again exactly if the document returns.

 The canonical rows of a keyed vector are read as entries, which may put a missing string key into the
 row; so the claim is about canonical objects with string members put in.
 */
module ReencodeTables {
  import opened Wrappers
  import opened Schema
  import opened Scalars
  import opened StructLayout
  import opened StructJson
  import opened KeyText
  import opened FromJson
  import opened ToJson
  import opened WritePhase
  import Buffer
  import D = DocumentPaths
  import opened Canon
  import opened Lenient
  import opened Idempotence
  import opened RowKeys
  import opened ReencodeLeaves
  import opened Reencode
  import R = RoundTrip
  import SR = SameReaders
  import J = Json

  // Accepting a table.

  predicate Writable(p: Pending) {
    match p.push
    case PushStruct(bytes, align) => Dispatchable(|bytes|, align)
    case PushUnion(_, _) => p.slot >= 2
    case _ => true
  }

  lemma {:induction false} WritablesWrite(pending: seq<Pending>, slots: map<nat, Buffer.Val>)
    ensures (forall p :: p in pending ==> Writable(p)) <==> WriteSlots(pending, slots).Ok?
    decreases |pending|
  {
    hide Dispatchable;
    if pending != [] {
      var next := WriteSlot(pending[0], slots);
      assert next.Ok? <==> Writable(pending[0]);
      if next.Ok? { WritablesWrite(pending[1..], next.value); }
      assert pending == [pending[0]] + pending[1..];
    }
  }

  lemma {:induction false} FieldsAccepted(c: J.Value, fields: seq<Field>, s: Schema, d: nat, o: Options)
    requires c.Obj?
    ensures EncFields(c, fields, s, d, o).Ok? <==> forall i :: 0 <= i < |fields| ==> EncField(c, fields[i], s, d, o).Ok?
    decreases |fields|
  {
    hide EncField, ToPending;
    if fields != [] {
      FieldsAccepted(c, fields[1..], s, d, o);
      if EncFields(c, fields, s, d, o).Ok? {
        forall i | 0 <= i < |fields| ensures EncField(c, fields[i], s, d, o).Ok? {
          if i > 0 { assert fields[i] == fields[1..][i - 1]; }
        }
      }
    }
  }

  /** What the field pushes, if it is accepted, can be written. */
  predicate FieldWrites(c: J.Value, f: Field, s: Schema, d: nat, o: Options)
    requires c.Obj?
  {
    EncField(c, f, s, d, o).Ok? ==> forall p :: p in ToPending(f, EncField(c, f, s, d, o).value) ==> Writable(p)
  }

  lemma {:induction false} TableAccepted(c: J.Value, t: nat, s: Schema, d: nat, o: Options)
    requires c.Obj? && !HasUnknownKey(c.m, TableAt(s, t).fields)
    requires forall i :: 0 <= i < |TableAt(s, t).fields| ==> FieldWrites(c, TableAt(s, t).fields[i], s, d, o)
    ensures EncTable(c, t, s, d, o).Ok? <==>
            d <= o.maxDepth && forall i :: 0 <= i < |TableAt(s, t).fields| ==>
              EncField(c, TableAt(s, t).fields[i], s, d, o).Ok?
  {
    hide EncField, EncFields, WriteSlots, HasUnknownKey, TableAt, ToPending, Writable;
    var fields := TableAt(s, t).fields;
    FieldsAccepted(c, fields, s, d, o);
    if EncFields(c, fields, s, d, o).Ok? {
      PendingOfFields(c, fields, s, d, o);
      WritablesWrite(EncFields(c, fields, s, d, o).value, map[]);
    }
  }

  /** In an accepted table every field was written. */
  lemma {:induction false} WritesOfTable(v: J.Value, t: nat, s: Schema, d: nat, o: Options, i: nat)
    requires EncTable(v, t, s, d, o).Ok? && v.Obj? && i < |TableAt(s, t).fields|
    ensures EncField(v, TableAt(s, t).fields[i], s, d, o).Ok? && FieldWrites(v, TableAt(s, t).fields[i], s, d, o)
  {
    hide EncField, EncFields, WriteSlots, HasUnknownKey, TableAt, ToPending, Writable;
    var fields := TableAt(s, t).fields;
    PendingOfFields(v, fields, s, d, o);
    WritablesWrite(EncFields(v, fields, s, d, o).value, map[]);
  }

  // The keys of a canonical object.

  lemma {:induction false} KeysKnown(v: J.Value, todo: seq<Field>, fields: seq<Field>, acc: map<string, J.Value>,
                                     s: Schema, rd: KeyReader)
    requires v.Obj? && (forall f :: f in todo ==> f in fields) && CanonMembers(v, todo, fields, acc, s, rd).Ok?
    requires forall k :: k in acc ==> KnownKey(k, fields)
    ensures forall k :: k in CanonMembers(v, todo, fields, acc, s, rd).value ==> KnownKey(k, fields)
    decreases |todo|
  {
    hide CanonMember, Member, KnownKey, Owns;
    if todo != [] {
      var f := todo[0];
      MemberMerges(v, f, fields, acc, s, rd);
      forall k | k in Member(v, f, fields, s, rd).value ensures KnownKey(k, fields) {
        assert f in fields;
        OwnedIsKnown(f, fields, k);
      }
      KeysKnown(v, todo[1..], fields, CanonMember(v, f, fields, acc, s, rd).value, s, rd);
    }
  }

  lemma {:induction false} OwnedIsKnown(f: Field, fields: seq<Field>, k: string)
    requires f in fields && Owns(f, k)
    ensures KnownKey(k, fields)
  {
  }

  /** String members that a canonical object does not have. */
  ghost predicate Injectable(injected: map<string, J.Value>, m: map<string, J.Value>, fields: seq<Field>) {
    forall k :: k in injected ==> k !in m && injected[k].Str? && exists i ::
      0 <= i < |fields| && NamedString(fields[i], k)
  }

  predicate NamedString(f: Field, k: string) {
    f.name == k && f.typ.String?
  }

  lemma {:induction false} NoUnknownKeys(v: J.Value, t: nat, s: Schema, rd: KeyReader, cv: J.Value,
                                         injected: map<string, J.Value>)
    requires v.Obj? && cv.Obj? && CanonTable(v, t, s, rd) == Ok(cv) && Injectable(injected, cv.m, TableAt(s, t).fields)
    ensures !HasUnknownKey(cv.m + injected, TableAt(s, t).fields)
  {
    hide CanonTable, CanonMembers, ById, TableAt, KnownKey, NamedString;
    var fields := TableAt(s, t).fields;
    TableShape(v, t, s, rd, cv);
    R.ByIdMembers(fields);
    KeysKnown(v, ById(fields), fields, map[], s, rd);
    forall k | k in cv.m + injected ensures KnownKey(k, fields) {
      if k in injected {
        var i :| 0 <= i < |fields| && NamedString(fields[i], k);
        NameIsKnown(fields, i, k);
      }
    }
  }

  lemma {:induction false} NameIsKnown(fields: seq<Field>, i: nat, k: string)
    requires i < |fields| && NamedString(fields[i], k)
    ensures KnownKey(k, fields)
  {
  }

  // One field.

  /** The object holds what the field contributed, or a string put in for a string field. */
  predicate Stands(c: J.Value, v: J.Value, f: Field, fields: seq<Field>, s: Schema, rd: KeyReader)
    requires c.Obj? && v.Obj? && Member(v, f, fields, s, rd).Ok?
  {
    || (SameAt(c.m, Member(v, f, fields, s, rd).value, f.name)
        && (f.typ.Union? ==> SameAt(c.m, Member(v, f, fields, s, rd).value, DiscKey(f.name))))
    || (f.typ.String? && f.name in c.m && c.m[f.name].Str?)
  }

  lemma {:induction false} FieldStands(v: J.Value, t: nat, s: Schema, rd: KeyReader, cv: J.Value, injected: map<string,
                                       J.Value>, f: Field)
    requires ReturnSchema(s) && v.Obj? && CanonTable(v, t, s, rd) == Ok(cv) && cv.Obj?
      && Injectable(injected, cv.m, TableAt(s, t).fields)
    requires f in TableAt(s, t).fields && !IsDiscriminator(f, TableAt(s, t).fields)
    ensures Member(v, f, TableAt(s, t).fields, s, rd).Ok?
      && Stands(J.Obj(cv.m + injected), v, f, TableAt(s, t).fields, s, rd)
  {
    hide *;
    var fields := TableAt(s, t).fields;
    OwnsName(f);
    ReturnSchemaAt(s, t);
    ContributedAt(v, t, s, rd, cv, f, f.name);
    if f.typ.Union? {
      OwnsBoth(f);
      ContributedAt(v, t, s, rd, cv, f, DiscKey(f.name));
    }
    StandsWith(cv, injected, v, f, fields, s, rd);
  }

  lemma {:induction false} StandsWith(cv: J.Value, injected: map<string, J.Value>, v: J.Value, f: Field,
                                      fields: seq<Field>, s: Schema, rd: KeyReader)
    requires cv.Obj? && v.Obj? && Member(v, f, fields, s, rd).Ok? && Injectable(injected, cv.m, fields) && f in fields
      && DistinctNames(fields)
    requires TagNamesReserved(fields) && SameAt(cv.m, Member(v, f, fields, s, rd).value, f.name)
    requires f.typ.Union? ==> SameAt(cv.m, Member(v, f, fields, s, rd).value, DiscKey(f.name))
    ensures Stands(J.Obj(cv.m + injected), v, f, fields, s, rd)
  {
    hide Member, CanonMember;
    var j :| 0 <= j < |fields| && fields[j] == f;
    if f.name in injected {
      var i :| 0 <= i < |fields| && NamedString(fields[i], f.name);
      assert fields[i].name == fields[j].name;
    }
    assert f.typ.Union? ==> forall i :: 0 <= i < |fields| ==> !NamedString(fields[i], DiscKey(fields[j].name));
  }

  /** A tag field takes the tag that the union shows. */
  lemma {:induction false} TagReturns(v: J.Value, c: J.Value, g: Field, f: Field, s: Schema, d0: nat, o0: Options,
                                      rd: KeyReader, d: nat, o: Options)
    requires v.Obj? && c.Obj? && IsTagOf(g, f) && GoodField(f) && GoodType(f)
    requires EncField(v, f, s, d0, o0).Ok? && CanonUnion(v, f, map[], s, rd).Ok?
      && SameAt(c.m, CanonUnion(v, f, map[], s, rd).value, DiscKey(f.name))
    ensures EncField(c, g, s, d, o).Ok? && FieldWrites(c, g, s, d, o)
  {
    hide EncVariant, CanonVariant, VariantByName, VariantByValue, ValueOfName, DefaultScalar, EnumOf;
    SR.DiscKeyDiffers(f.name);
    var tag := DiscKey(f.name);
    NamesOfUnion(f);
    if tag !in v.m { SR.NamedVariant(f.typ.variants, 0); }
    var name := c.m[tag].s;
    VariantsByNameAndValue(f.typ.variants, name);
    assert EncodeScalar(UType, g.typ.en, c.m[tag]).Ok?;
  }

  lemma {:induction false} NamesOfUnion(f: Field)
    requires GoodType(f) && GoodField(f) && f.typ.Union?
    ensures D.DistinctVariantNames(f.typ.variants) && WritePhase.GoodVariants(f.typ.variants)
  {
  }

  /** A field that is no tag: accepted again exactly if it returns. */
  lemma {:induction false} FieldReturns(v: J.Value, c: J.Value, f: Field, fields: seq<Field>, s: Schema, d0: nat,
                                        o0: Options, rd: KeyReader, d: nat, o: Options)
    requires ReturnSchema(s) && GoodField(f) && GoodType(f) && v.Obj? && c.Obj? && !IsDiscriminator(f, fields)
    requires EncField(v, f, s, d0, o0).Ok? && FieldWrites(v, f, s, d0, o0) && Member(v, f, fields, s, rd).Ok?
      && Stands(c, v, f, fields, s, rd)
    ensures EncField(c, f, s, d, o).Ok? <==> ReturnsAt(v, f, s, rd, o.maxDepth - d)
    ensures FieldWrites(c, f, s, d, o)
    decreases J.Height(v), 5, 0
  {
    hide *;
    if f.typ.Union? {
      UnionIs(v, f, fields, s, rd);
      UnionStands(c, v, f, fields, s, rd);
      UnionReturns(v, c, f, s, d0, o0, rd, d, o);
      UnionWrites(c, f, s, d, o);
    } else if f.typ.String? && f.name in c.m && c.m[f.name].Str? {
      StringReturns(v, c, f, s, rd, d, o);
    } else {
      PlainStands(c, v, f, fields, s, rd);
      PlainReturns(v, c, f, fields, s, d0, o0, rd, d, o);
    }
  }

  lemma {:induction false} UnionStands(c: J.Value, v: J.Value, f: Field, fields: seq<Field>, s: Schema, rd: KeyReader)
    requires c.Obj? && v.Obj? && f.typ.Union? && Member(v, f, fields, s, rd).Ok? && Stands(c, v, f, fields, s, rd)
    ensures SameAt(c.m, Member(v, f, fields, s, rd).value, f.name)
      && SameAt(c.m, Member(v, f, fields, s, rd).value, DiscKey(f.name))
  {
    hide Member, SameAt;
  }

  lemma {:induction false} PlainStands(c: J.Value, v: J.Value, f: Field, fields: seq<Field>, s: Schema, rd: KeyReader)
    requires c.Obj? && v.Obj? && Member(v, f, fields, s, rd).Ok? && Stands(c, v, f, fields, s, rd)
      && !(f.typ.String? && f.name in c.m && c.m[f.name].Str?)
    ensures SameAt(c.m, Member(v, f, fields, s, rd).value, f.name)
  {
    hide Member, SameAt;
  }

  lemma {:induction false} StringReturns(v: J.Value, c: J.Value, f: Field, s: Schema, rd: KeyReader, d: nat, o: Options)
    requires v.Obj? && c.Obj? && f.typ.String? && f.name in c.m && c.m[f.name].Str?
    ensures EncField(c, f, s, d, o).Ok? && FieldWrites(c, f, s, d, o) && ReturnsAt(v, f, s, rd, o.maxDepth - d)
  {
  }

  lemma {:induction false} UnionWrites(c: J.Value, f: Field, s: Schema, d: nat, o: Options)
    requires c.Obj? && f.typ.Union? && GoodField(f)
    ensures FieldWrites(c, f, s, d, o)
  {
    hide EncVariant, VariantByName, WritePhase.GoodVariants;
    if EncField(c, f, s, d, o).Ok? && EncField(c, f, s, d, o).value.Some? { UnionPush(c, f, s, d + 1, o); }
  }

  lemma {:induction false} PlainReturns(v: J.Value, c: J.Value, f: Field, fields: seq<Field>, s: Schema, d0: nat,
                                        o0: Options, rd: KeyReader, d: nat, o: Options)
    requires ReturnSchema(s) && GoodType(f) && v.Obj? && c.Obj? && !f.typ.Union? && !IsDiscriminator(f, fields)
    requires EncField(v, f, s, d0, o0).Ok? && FieldWrites(v, f, s, d0, o0)
    requires Member(v, f, fields, s, rd).Ok? && SameAt(c.m, Member(v, f, fields, s, rd).value, f.name)
    ensures EncField(c, f, s, d, o).Ok? <==> ReturnsAt(v, f, s, rd, o.maxDepth - d)
    ensures FieldWrites(c, f, s, d, o)
    decreases J.Height(v), 4, 0
  {
    hide *;
    PlainIs(v, f, fields, s, rd);
    R.FieldOfPresent(v, f, s, d0, o0);
    if J.Present(v.m, f.name).Some? {
      PresentIn(v, f.name);
      J.MemberHeight(v.m, f.name);
      var x := v.m[f.name];
      var j := CanonValue(x, f, s, rd).value;
      ValueReturns(x, f, s, d0, o0, rd, j, d, o);
      OneMember(c, f.name, j, Member(v, f, fields, s, rd).value);
      PresentField(v, f, s, d0, o0, x);
      PresentField(c, f, s, d, o, j);
      ReturnsPresent(v, f, s, rd, o.maxDepth - d, x);
      if EncPresent(j, f, s, d, o).Ok? { ValueWrites(x, j, f, s, d0, o0, d, o); }
    } else if f.typ.Scalar? {
      var j := ScalarJson(f.typ.st, f.typ.en, DefaultScalar(f.typ.st, f.defaultInt, f.defaultReal)).value;
      DefaultAccepted(f, s, j, d, o);
      OneMember(c, f.name, j, Member(v, f, fields, s, rd).value);
      PresentField(c, f, s, d, o, j);
      ReturnsAbsent(v, f, s, rd, o.maxDepth - d);
    } else {
      MissingIsMissing(v, c, f, fields, s, rd);
      AbsentField(v, c, f, s, d0, o0, d, o);
      ReturnsAbsent(v, f, s, rd, o.maxDepth - d);
    }
  }

  lemma {:induction false} PresentField(c: J.Value, f: Field, s: Schema, d: nat, o: Options, j: J.Value)
    requires c.Obj? && !f.typ.Union? && J.Present(c.m, f.name) == Some(j)
    ensures EncField(c, f, s, d, o).Ok? <==> EncPresent(j, f, s, d, o).Ok?
    ensures FieldWrites(c, f, s, d, o) <==> (EncPresent(j, f, s, d, o).Ok? ==>
      Writable(Pending(f.offset, EncPresent(j, f, s, d, o).value)))
  {
    hide EncPresent, Writable, EncUnion;
    if EncPresent(j, f, s, d, o).Ok? {
      assert Pending(f.offset, EncPresent(j, f, s, d, o).value) in ToPending(f, EncField(c, f, s, d, o).value);
    }
  }

  lemma {:induction false} AbsentField(v: J.Value, c: J.Value, f: Field, s: Schema, d0: nat, o0: Options, d: nat,
                                       o: Options)
    requires v.Obj? && c.Obj? && !f.typ.Union? && J.Present(v.m, f.name).None? && J.Present(c.m, f.name).None?
      && EncField(v, f, s, d0, o0).Ok?
    ensures EncField(c, f, s, d, o) == Ok(None) && FieldWrites(c, f, s, d, o)
  {
    hide EncPresent, Writable, EncUnion;
  }

  lemma {:induction false} ReturnsPresent(v: J.Value, f: Field, s: Schema, rd: KeyReader, budget: int, x: J.Value)
    requires v.Obj? && !f.typ.Union? && J.Present(v.m, f.name) == Some(x)
    ensures ReturnsAt(v, f, s, rd, budget) <==> ReturnsValue(x, f, s, rd, budget)
  {
    hide ReturnsValue;
  }

  lemma {:induction false} ReturnsAbsent(v: J.Value, f: Field, s: Schema, rd: KeyReader, budget: int)
    requires v.Obj? && !f.typ.Union? && J.Present(v.m, f.name).None?
    ensures ReturnsAt(v, f, s, rd, budget) <==> DefaultReturns(f)
    ensures !f.typ.Scalar? ==> DefaultReturns(f)
  {
    hide ReturnsValue;
  }

  lemma {:induction false} DefaultAccepted(f: Field, s: Schema, j: J.Value, d: nat, o: Options)
    requires f.typ.Scalar? && GoodType(f)
    requires ScalarJson(f.typ.st, f.typ.en, DefaultScalar(f.typ.st, f.defaultInt, f.defaultReal)) == Ok(j)
    ensures !j.Null? && (EncPresent(j, f, s, d, o).Ok? <==> DefaultReturns(f))
    ensures EncPresent(j, f, s, d, o).Ok? ==> Writable(Pending(f.offset, EncPresent(j, f, s, d, o).value))
  {
    hide EncodeScalar, ScalarJson, DefaultScalar, DefaultReturns, GoodType;
    DefaultDecides(f, j);
  }

  lemma {:induction false} ScalarReturns(x: J.Value, f: Field, s: Schema, rd: KeyReader, j: J.Value, d: nat, o: Options)
    requires f.typ.Scalar? && GoodType(f) && CanonValue(x, f, s, rd) == Ok(j)
    ensures !j.Null? && EncPresent(j, f, s, d, o).Ok?
  {
    hide EncodeScalar, ScalarJson, DefaultScalar, SameScalar, GoodType;
    ScalarValueFixed(x, f, s, rd, j);
  }

  /** A struct has its size whatever it holds. */
  lemma {:induction false} ValueWrites(x: J.Value, j: J.Value, f: Field, s: Schema, d0: nat, o0: Options, d: nat,
                                       o: Options)
    requires EncPresent(x, f, s, d0, o0).Ok? && Writable(Pending(f.offset, EncPresent(x, f, s, d0, o0).value))
      && EncPresent(j, f, s, d, o).Ok?
    ensures Writable(Pending(f.offset, EncPresent(j, f, s, d, o).value))
  {
    hide EncTable, EncVector, EncodeScalar, StructBytes, Dispatchable, DefaultScalar;
  }

  lemma {:induction false} ValueReturns(x: J.Value, f: Field, s: Schema, d0: nat, o0: Options, rd: KeyReader,
                                        j: J.Value, d: nat, o: Options)
    requires ReturnSchema(s) && GoodType(f) && !f.typ.Union? && EncPresent(x, f, s, d0, o0).Ok?
      && CanonValue(x, f, s, rd) == Ok(j)
    ensures !j.Null?
    ensures EncPresent(j, f, s, d, o).Ok? <==> ReturnsValue(x, f, s, rd, o.maxDepth - d)
    decreases J.Height(x), 7, 0
  {
    hide EncTable, EncVector, CanonTable, CanonVector, CanonStruct, EncodeScalar, ScalarJson, Effective, DefaultScalar,
      StructBytes, ReturnSchema, GoodStruct,
      GoodEnum, Returns, ReturnsVector, J.Height;
    match f.typ {
      case Scalar(_, _) => ScalarReturns(x, f, s, rd, j, d, o);
      case Struct(def) => StructReencodes(x, def, j);
      case Table(t) =>
        TableReturns(x, t, s, d0 + 1, o0, rd, j, map[], d + 1, o);
        NothingPut(x, t, s, rd, j);
      case Vector(el) => VectorReturns(x, el, f.hex, s, d0 + 1, o0, rd, j, d + 1, o);
      case _ =>
    }
  }

  lemma {:induction false} NothingPut(v: J.Value, t: nat, s: Schema, rd: KeyReader, c: J.Value)
    requires CanonTable(v, t, s, rd) == Ok(c)
    ensures c.Obj? && J.Obj(c.m + map[]) == c
  {
    hide CanonTable;
    TableShape(v, t, s, rd, c);
    assert c.m + map[] == c.m;
  }

  // Unions.

  lemma {:induction false} UnionAccepted(v: J.Value, f: Field, s: Schema, d: nat, o: Options)
    requires v.Obj? && f.typ.Union?
    ensures EncField(v, f, s, d, o).Ok? ==> EncUnion(v, f.name, f.typ.variants, s, d + 1, o) == EncField(v, f, s, d, o)
    ensures DiscKey(f.name) in v.m ==> EncField(v, f, s, d, o) == EncUnion(v, f.name, f.typ.variants, s, d + 1, o)
  {
    hide EncVariant, VariantByName;
  }

  /** A union without content is accepted under its tag. */
  lemma {:induction false} NoneReturns(c: J.Value, f: Field, variant: Variant, s: Schema, d: nat, o: Options)
    requires c.Obj? && f.typ.Union? && DiscKey(f.name) in c.m && c.m[DiscKey(f.name)].Str?
    requires VariantByName(f.typ.variants, c.m[DiscKey(f.name)].s) == Some(variant) && variant.value == 0
    ensures EncUnion(c, f.name, f.typ.variants, s, d, o).Ok?
  {
    hide VariantByName;
  }

  lemma {:induction false} SomeReturns(c: J.Value, f: Field, variant: Variant, s: Schema, d: nat, o: Options)
    requires c.Obj? && f.typ.Union? && DiscKey(f.name) in c.m && c.m[DiscKey(f.name)].Str? && f.name in c.m
    requires VariantByName(f.typ.variants, c.m[DiscKey(f.name)].s) == Some(variant) && 0 < variant.value <= 0xFF
      && variant.typ.Some?
    ensures EncUnion(c, f.name, f.typ.variants, s, d, o).Ok?
      <==> EncVariant(c.m[f.name], variant.typ.value, s, d, o).Ok?
  {
    hide VariantByName, EncVariant;
  }

  lemma {:induction false} UnionReturns(v: J.Value, c: J.Value, f: Field, s: Schema, d0: nat, o0: Options,
                                        rd: KeyReader, d: nat, o: Options)
    requires ReturnSchema(s) && GoodField(f) && GoodType(f) && v.Obj? && c.Obj? && f.typ.Union?
    requires EncField(v, f, s, d0, o0).Ok? && CanonUnion(v, f, map[], s, rd).Ok?
    requires SameAt(c.m, CanonUnion(v, f, map[], s, rd).value, f.name)
      && SameAt(c.m, CanonUnion(v, f, map[], s, rd).value, DiscKey(f.name))
    ensures EncField(c, f, s, d, o).Ok? <==> ReturnsAt(v, f, s, rd, o.maxDepth - d)
    decreases J.Height(v), 3, 0
  {
    hide EncField, EncVariant, CanonVariant, VariantByName, VariantByValue, Returns, ReturnSchema, GoodStruct,
      WritePhase.GoodVariants, J.Height;
    var tag := DiscKey(f.name);
    SR.DiscKeyDiffers(f.name);
    NamesOfUnion(f);
    UnionAccepted(v, f, s, d0, o0);
    UnionAccepted(c, f, s, d, o);
    if tag !in v.m {
      SR.NamedVariant(f.typ.variants, 0);
      NoneReturns(c, f, VariantByValue(f.typ.variants, 0).value, s, d + 1, o);
    } else {
      var variant := VariantByName(f.typ.variants, v.m[tag].s).value;
      if variant.value == 0 {
        NoneReturns(c, f, variant, s, d + 1, o);
      } else {
        J.MemberHeight(v.m, f.name);
        var x := v.m[f.name];
        var typ := variant.typ.value;
        VariantListed(f.typ.variants, v.m[tag].s);
        SomeReturns(c, f, variant, s, d + 1, o);
        VariantReturns(x, typ, s, d0 + 1, o0, rd, CanonVariant(x, typ, s, rd).value, d + 1, o);
        ActiveIs(v, f, variant);
      }
    }
  }

  lemma {:induction false} ActiveIs(v: J.Value, f: Field, variant: Variant)
    requires v.Obj? && f.typ.Union? && DiscKey(f.name) in v.m && v.m[DiscKey(f.name)].Str? && f.name in v.m
    requires VariantByName(f.typ.variants, v.m[DiscKey(f.name)].s) == Some(variant) && variant.value != 0
      && variant.typ.Some?
    ensures ActiveTable(v.m, f.name, f.typ.variants) == if variant.typ.value.VTable? then Some(variant.typ.value.index)
      else None
  {
    hide VariantByName;
  }

  lemma {:induction false} VariantReturns(x: J.Value, t: VariantType, s: Schema, d0: nat, o0: Options, rd: KeyReader,
                                          j: J.Value, d: nat, o: Options)
    requires ReturnSchema(s) && (t.VStruct? ==> GoodStruct(t.def)) && EncVariant(x, t, s, d0, o0).Ok?
      && CanonVariant(x, t, s, rd) == Ok(j)
    ensures EncVariant(j, t, s, d, o).Ok? <==> (t.VTable? ==> Returns(x, t.index, s, rd, o.maxDepth - d))
    decreases J.Height(x), 7, 0
  {
    hide EncTable, CanonTable, CanonStruct, StructBytes, ReturnSchema, GoodStruct, Returns, Dispatchable, J.Height;
    match t {
      case VTable(i) =>
        TableReturns(x, i, s, d0, o0, rd, j, map[], d, o);
        NothingPut(x, i, s, rd, j);
      case VStruct(def) => StructReencodes(x, def, j);
      case VString =>
    }
  }

  // Vectors.

  lemma {:induction false} VectorReturns(x: J.Value, el: ElementType, hex: bool, s: Schema, d0: nat, o0: Options,
                                         rd: KeyReader, j: J.Value, d: nat, o: Options)
    requires ReturnSchema(s) && (el.EScalar? ==> GoodEnum(el.st, ElementEnum(el.st, el.en)))
      && (el.EStruct? ==> GoodStruct(el.def))
    requires EncVector(x, el, hex, s, d0, o0).Ok? && CanonVector(x, el, hex, s, rd) == Ok(j)
    ensures !j.Null?
    ensures EncVector(j, el, hex, s, d, o).Ok? <==> ReturnsVector(x, el, s, rd, o.maxDepth - d)
    decreases J.Height(x), 6, 0
  {
    hide *;
    if el.ETable? {
      var t := el.index;
      assert el == ETable(t);
      if KeyedField(TableAt(s, t).fields).Some? {
        KeyedReturns(x, t, KeyedField(TableAt(s, t).fields).value, hex, s, d0, o0, rd, j, d, o);
      } else {
        PlainTablesReturn(x, t, hex, s, d0, o0, rd, j, d, o);
      }
      VectorOfTablesReturns(x, t, s, rd, o.maxDepth - d);
    } else {
      LeavesReencode(x, el, hex, s, d0, o0, rd, j, d, o);
      NoTablesReturn(x, el, s, rd, o.maxDepth - d);
    }
  }

  lemma {:induction false} NoTablesReturn(x: J.Value, el: ElementType, s: Schema, rd: KeyReader, budget: int)
    requires !el.ETable?
    ensures ReturnsVector(x, el, s, rd, budget) <==> 0 <= budget
  {
  }

  lemma {:induction false} VectorOfTablesReturns(x: J.Value, t: nat, s: Schema, rd: KeyReader, budget: int)
    ensures ReturnsVector(x, ETable(t), s, rd, budget) <==> 0 <= budget && ReturnsTables(x, t, s, rd, budget)
  {
    hide ReturnsTables;
  }

  lemma {:induction false} TablesAccepted(rows: seq<J.Value>, t: nat, s: Schema, d: nat, o: Options, bound: nat)
    requires forall i :: 0 <= i < |rows| ==> J.Height(rows[i]) < bound
    ensures EncTables(rows, t, s, d, o, bound).Ok?
      <==> forall i :: 0 <= i < |rows| ==> EncTable(rows[i], t, s, d, o).Ok?
    decreases |rows|
  {
    hide EncTable, J.Height;
    if rows != [] {
      var n := |rows| - 1;
      TablesAccepted(rows[..n], t, s, d, o, bound);
      if EncTables(rows, t, s, d, o, bound).Ok? {
        forall i | 0 <= i < |rows| ensures EncTable(rows[i], t, s, d, o).Ok? {
          if i < n { assert rows[i] == rows[..n][i]; }
        }
      }
    }
  }

  lemma {:induction false} PlainTablesReturn(x: J.Value, t: nat, hex: bool, s: Schema, d0: nat, o0: Options,
                                             rd: KeyReader, j: J.Value, d: nat, o: Options)
    requires ReturnSchema(s) && KeyedField(TableAt(s, t).fields).None?
    requires EncVector(x, ETable(t), hex, s, d0, o0).Ok? && CanonVector(x, ETable(t), hex, s, rd) == Ok(j)
    ensures j.Arr? && (EncVector(j, ETable(t), hex, s, d, o).Ok?
      <==> o.maxDepth - d >= 0 && ReturnsTables(x, t, s, rd, o.maxDepth - d))
    decreases J.Height(x), 5, 0
  {
    hide *;
    R.VectorOfTables(x, t, hex, s, d0, o0);
    ArrayConverts(x, t, hex, s, rd, j);
    TablesAccepted(x.items, t, s, d0 + 1, o0, J.Height(x));
    TablesConvert(x.items, t, s, rd, J.Height(x), j.items);
    ItemHeights(j);
    PlainVector(j, t, hex, s, d, o);
    TablesAccepted(j.items, t, s, d + 1, o, J.Height(j));
    PlainTablesIff(x, t, s, rd, o.maxDepth - d);
    forall i | 0 <= i < |x.items| ensures EncTable(j.items[i], t, s, d + 1, o).Ok?
      <==> Returns(x.items[i], t, s, rd, o.maxDepth - d - 1) {
      if j.items[i].Obj? { NoneInjected(j.items[i].m, TableAt(s, t).fields); }
      TableReturns(x.items[i], t, s, d0 + 1, o0, rd, j.items[i], map[], d + 1, o);
      NothingPut(x.items[i], t, s, rd, j.items[i]);
    }
  }

  lemma {:induction false} PlainVector(j: J.Value, t: nat, hex: bool, s: Schema, d: nat, o: Options)
    requires j.Arr? && forall i :: 0 <= i < |j.items| ==> J.Height(j.items[i]) < J.Height(j)
    ensures EncVector(j, ETable(t), hex, s, d, o).Ok?
      <==> d <= o.maxDepth && EncTables(j.items, t, s, d + 1, o, J.Height(j)).Ok?
  {
    hide EncTables, KeyedField, TableAt, J.Height;
  }

  lemma {:induction false} PlainTablesIff(x: J.Value, t: nat, s: Schema, rd: KeyReader, budget: int)
    requires x.Arr? && KeyedField(TableAt(s, t).fields).None?
    ensures ReturnsTables(x, t, s, rd, budget)
      <==> forall i :: 0 <= i < |x.items| ==> Returns(x.items[i], t, s, rd, budget - 1)
  {
    hide KeyedField, TableAt, J.Height;
  }

  // Keyed vectors.

  /** One row of an object is accepted. */
  predicate RowAccepted(m: map<string, J.Value>, k: string, kf: Field, t: nat, s: Schema, d: nat, o: Options)
    requires k in m
  {
    OneEntry(m, k, kf).Ok? && EncTable(OneEntry(m, k, kf).value.row, t, s, d, o).Ok?
  }

  lemma {:induction false} KeyedAccepted(c: J.Value, t: nat, kf: Field, s: Schema, d: nat, o: Options)
    requires c.Obj?
    ensures EncKeyed(c, t, kf, s, d, o).Ok?
      <==> d <= o.maxDepth && forall k :: k in c.m ==> RowAccepted(c.m, k, kf, t, s, d + 1, o)
  {
    hide *;
    EntriesAccepted(c, kf);
    KeyedParts(c, t, kf, s, d, o);
    if SortedEntries(c, kf).Ok? {
      var es := SortedEntries(c, kf).value;
      EntriesListed(c, kf);
      EntryHeights(c, kf);
      TablesAccepted(Rows(es), t, s, d + 1, o, J.Height(c));
      if forall k :: k in c.m ==> RowAccepted(c.m, k, kf, t, s, d + 1, o) {
        forall i | 0 <= i < |es| ensures EncTable(Rows(es)[i], t, s, d + 1, o).Ok? {
          assert es[i] in es;
          var k := MemberOfEntry(es[i], c.m, kf);
          AcceptedRow(c.m, k, kf, t, s, d + 1, o);
        }
      }
      if forall i :: 0 <= i < |es| ==> EncTable(Rows(es)[i], t, s, d + 1, o).Ok? {
        forall k | k in c.m ensures RowAccepted(c.m, k, kf, t, s, d + 1, o) {
          var i :| 0 <= i < |es| && es[i] == OneEntry(c.m, k, kf).value;
          assert EncTable(Rows(es)[i], t, s, d + 1, o).Ok?;
          AcceptedRow(c.m, k, kf, t, s, d + 1, o);
        }
      }
    } else {
      var k :| k in c.m && !OneEntry(c.m, k, kf).Ok?;
      AcceptedRow(c.m, k, kf, t, s, d + 1, o);
    }
  }

  lemma {:induction false} AcceptedRow(m: map<string, J.Value>, k: string, kf: Field, t: nat, s: Schema, d: nat,
                                       o: Options)
    requires k in m
    ensures RowAccepted(m, k, kf, t, s, d, o)
      <==> OneEntry(m, k, kf).Ok? && EncTable(OneEntry(m, k, kf).value.row, t, s, d, o).Ok?
  {
    hide OneEntry, EncTable;
  }

  lemma {:induction false} EntryHeights(c: J.Value, kf: Field)
    requires c.Obj? && SortedEntries(c, kf).Ok?
    ensures var rows := Rows(SortedEntries(c, kf).value);
      forall i :: 0 <= i < |rows| ==> J.Height(rows[i]) < J.Height(c)
  {
    hide SortedEntries, J.Height;
    var es := SortedEntries(c, kf).value;
    assert forall i :: 0 <= i < |es| ==> es[i] in es;
  }

  lemma {:induction false} KeyedParts(c: J.Value, t: nat, kf: Field, s: Schema, d: nat, o: Options)
    requires c.Obj?
    ensures EncKeyed(c, t, kf, s, d, o).Ok? <==>
            && d <= o.maxDepth && SortedEntries(c, kf).Ok?
            && (forall i :: 0 <= i < |Rows(SortedEntries(c, kf).value)| ==>
              J.Height(Rows(SortedEntries(c, kf).value)[i]) < J.Height(c))
            && EncTables(Rows(SortedEntries(c, kf).value), t, s, d + 1, o, J.Height(c)).Ok?
  {
    hide SortedEntries, EncTables, J.Height, Rows;
    if SortedEntries(c, kf).Ok? { EntryHeights(c, kf); }
  }

  lemma {:induction false} KeyedVector(c: J.Value, t: nat, kf: Field, hex: bool, s: Schema, d: nat, o: Options)
    requires c.Obj? && KeyedField(TableAt(s, t).fields) == Some(kf)
    ensures EncVector(c, ETable(t), hex, s, d, o).Ok? <==> d <= o.maxDepth && EncKeyed(c, t, kf, s, d + 1, o).Ok?
  {
    hide EncKeyed, KeyedField, TableAt, J.Height;
  }

  /** A row of the document returns. */
  ghost predicate RowReturns(row: J.Value, kf: Field, t: nat, s: Schema, rd: KeyReader, budget: int) {
    KeyReturns(row, kf, rd) && Returns(row, t, s, rd, budget - 2)
  }

  lemma {:induction false} KeyedIff(x: J.Value, t: nat, kf: Field, s: Schema, rd: KeyReader, rows: seq<J.Value>,
                                    budget: int)
    requires KeyedField(TableAt(s, t).fields) == Some(kf) && (x.Arr? || x.Obj?) && CanonInput(x, kf) == Ok(rows)
    ensures ReturnsTables(x, t, s, rd, budget) <==>
            1 <= budget && forall i :: 0 <= i < |rows| && IsLast(rows, i, kf, rd) ==>
              RowReturns(rows[i], kf, t, s, rd, budget)
  {
    hide Returns, KeyReturns, CanonInput, IsLast, KeyedField, TableAt;
    if 1 <= budget && forall i :: 0 <= i < |rows| && IsLast(rows, i, kf, rd) ==>
      RowReturns(rows[i], kf, t, s, rd, budget) {
      forall i | 0 <= i < |rows| && IsLast(rows, i, kf, rd) ensures KeyReturns(rows[i], kf, rd)
        && Returns(rows[i], t, s, rd, budget - 2) {
        assert RowReturns(rows[i], kf, t, s, rd, budget);
      }
    }
  }

  lemma {:induction false} KeyedReturns(x: J.Value, t: nat, kf: Field, hex: bool, s: Schema, d0: nat, o0: Options,
                                        rd: KeyReader, j: J.Value, d: nat, o: Options)
    requires ReturnSchema(s) && KeyedField(TableAt(s, t).fields) == Some(kf)
    requires EncVector(x, ETable(t), hex, s, d0, o0).Ok? && CanonVector(x, ETable(t), hex, s, rd) == Ok(j)
    ensures j.Obj? && (EncVector(j, ETable(t), hex, s, d, o).Ok?
      <==> o.maxDepth - d >= 0 && ReturnsTables(x, t, s, rd, o.maxDepth - d))
    decreases J.Height(x), 5, 0
  {
    hide *;
    R.VectorOfTables(x, t, hex, s, d0, o0);
    var rows := R.TableInput(x, KeyedField(TableAt(s, t).fields)).value;
    var dd := if x.Obj? then d0 + 2 else d0 + 1;
    TablesAccepted(rows, t, s, dd, o0, J.Height(x));
    KeyedRows(x, t, kf, hex, s, rd, j);
    RowsListed(rows, kf, t, s, rd, J.Height(x));
    KeyedVector(j, t, kf, hex, s, d, o);
    KeyedAccepted(j, t, kf, s, d + 1, o);
    KeyedIff(x, t, kf, s, rd, rows, o.maxDepth - d);
    forall i | 0 <= i < |rows| && IsLast(rows, i, kf, rd)
      ensures var k := DocumentKey(rows[i], kf, rd);
              k in j.m && (RowAccepted(j.m, k, kf, t, s, d + 2, o)
                <==> RowReturns(rows[i], kf, t, s, rd, o.maxDepth - d))
    {
      RowDecides(rows[i], j.m, kf, t, s, dd, o0, rd, d, o);
    }
    if forall i :: 0 <= i < |rows| && IsLast(rows, i, kf, rd) ==> RowReturns(rows[i], kf, t, s, rd, o.maxDepth - d) {
      forall k | k in j.m ensures RowAccepted(j.m, k, kf, t, s, d + 2, o) {
        var i :| 0 <= i < |rows| && IsLast(rows, i, kf, rd) && DocumentKey(rows[i], kf, rd) == k;
      }
    }
  }

  lemma {:induction false} RowDecides(row: J.Value, m: map<string, J.Value>, kf: Field, t: nat, s: Schema, d0: nat,
                                      o0: Options, rd: KeyReader, d: nat, o: Options)
    requires ReturnSchema(s) && KeyedField(TableAt(s, t).fields) == Some(kf) && EncTable(row, t, s, d0, o0).Ok?
    requires DocumentKey(row, kf, rd) in m && CanonTable(row, t, s, rd) == Ok(m[DocumentKey(row, kf, rd)])
    ensures RowAccepted(m, DocumentKey(row, kf, rd), kf, t, s, d + 2, o)
      <==> RowReturns(row, kf, t, s, rd, o.maxDepth - d)
    decreases J.Height(row), 7, 0
  {
    hide *;
    var k := DocumentKey(row, kf, rd);
    ReturnSchemaAt(s, t);
    RowEntry(m, k, row, kf, t, s, rd);
    AcceptedRow(m, k, kf, t, s, d + 2, o);
    RowIff(row, kf, t, s, rd, o.maxDepth - d);
    if OneEntry(m, k, kf).Ok? {
      EntryIsInjected(m, k, kf, rd);
      InjectedIsInjectable(m[k].m, kf, k, TableAt(s, t).fields);
      TableReturns(row, t, s, d0, o0, rd, m[k], Injected(m[k].m, kf, k), d + 2, o);
    }
  }

  lemma {:induction false} RowIff(row: J.Value, kf: Field, t: nat, s: Schema, rd: KeyReader, budget: int)
    ensures RowReturns(row, kf, t, s, rd, budget) <==> KeyReturns(row, kf, rd) && Returns(row, t, s, rd, budget - 2)
  {
    hide Returns, KeyReturns;
  }

  lemma {:induction false} EntryIsInjected(m: map<string, J.Value>, k: string, kf: Field, rd: KeyReader)
    requires k in m && OneEntry(m, k, kf).Ok? && EntryStays(m, k, kf, rd)
    ensures m[k].Obj? && OneEntry(m, k, kf).value.row == J.Obj(m[k].m + Injected(m[k].m, kf, k))
  {
    hide OneEntry, Injected, DocumentKey;
  }

  lemma {:induction false} InjectedIsInjectable(m: map<string, J.Value>, kf: Field, k: string, fields: seq<Field>)
    requires KeyedField(fields) == Some(kf)
    ensures Injectable(Injected(m, kf, k), m, fields)
  {
    var i := R.KeyedFieldIndex(fields);
    if kf.typ.String? { assert NamedString(fields[i], kf.name); }
  }

  lemma {:induction false} NoneInjected(m: map<string, J.Value>, fields: seq<Field>)
    ensures Injectable(map[], m, fields)
  {
  }

  // Tables.

  /** The canonical form, with missing strings put in or not, is accepted again exactly if the document returns. */
  lemma {:induction false} TableReturns(v: J.Value, t: nat, s: Schema, d0: nat, o0: Options, rd: KeyReader,
                                        cv: J.Value, injected: map<string, J.Value>, d: nat, o: Options)
    requires ReturnSchema(s) && EncTable(v, t, s, d0, o0).Ok? && CanonTable(v, t, s, rd) == Ok(cv)
    requires cv.Obj? ==> Injectable(injected, cv.m, TableAt(s, t).fields)
    ensures cv.Obj? && (EncTable(J.Obj(cv.m + injected), t, s, d, o).Ok? <==> Returns(v, t, s, rd, o.maxDepth - d))
    decreases J.Height(v), 6, 0
  {
    hide *;
    R.TableParts(v, t, s, d0, o0);
    TableShape(v, t, s, rd, cv);
    ReturnSchemaAt(s, t);
    var fields := TableAt(s, t).fields;
    var c := J.Obj(cv.m + injected);
    forall i | 0 <= i < |fields|
      ensures EncField(c, fields[i], s, d, o).Ok? <==> ReturnsAt(v, fields[i], s, rd, o.maxDepth - d)
      ensures FieldWrites(c, fields[i], s, d, o)
    {
      var f := fields[i];
      R.FieldIsGood(TableAt(s, t), i);
      GoodTypeAt(s, t, i);
      WritesOfTable(v, t, s, d0, o0, i);
      if IsDiscriminator(f, fields) {
        TagField(v, t, s, d0, o0, rd, cv, injected, i, d, o);
      } else {
        FieldStands(v, t, s, rd, cv, injected, f);
        FieldReturns(v, c, f, fields, s, d0, o0, rd, d, o);
      }
    }
    NoUnknownKeys(v, t, s, rd, cv, injected);
    TableAccepted(c, t, s, d, o);
    TableIff(v, t, s, rd, o.maxDepth - d);
  }

  lemma {:induction false} TableIff(v: J.Value, t: nat, s: Schema, rd: KeyReader, budget: int)
    requires v.Obj?
    ensures Returns(v, t, s, rd, budget) <==>
            0 <= budget && forall i :: 0 <= i < |TableAt(s, t).fields| ==>
              ReturnsAt(v, TableAt(s, t).fields[i], s, rd, budget)
  {
    hide ReturnsAt, TableAt;
  }

  lemma {:induction false} TagField(v: J.Value, t: nat, s: Schema, d0: nat, o0: Options, rd: KeyReader, cv: J.Value,
                                    injected: map<string, J.Value>, i: nat,
                                    d: nat, o: Options)
    requires ReturnSchema(s) && EncTable(v, t, s, d0, o0).Ok? && v.Obj? && cv.Obj? && CanonTable(v, t, s, rd) == Ok(cv)
    requires Injectable(injected, cv.m, TableAt(s, t).fields)
    requires i < |TableAt(s, t).fields| && IsDiscriminator(TableAt(s, t).fields[i], TableAt(s, t).fields)
    ensures var g := TableAt(s, t).fields[i]; var c := J.Obj(cv.m + injected);
            EncField(c, g, s, d, o).Ok? && FieldWrites(c, g, s, d, o) && ReturnsAt(v, g, s, rd, o.maxDepth - d)
    decreases J.Height(v), 5, 0
  {
    hide *;
    var fields := TableAt(s, t).fields;
    var n := UnionOfTag(fields, i);
    var f := fields[n];
    ReturnSchemaAt(s, t);
    TagOfUnion(fields, n, i);
    R.FieldIsGood(TableAt(s, t), n);
    GoodTypeAt(s, t, n);
    WritesOfTable(v, t, s, d0, o0, n);
    UnionIsNoTag(f, fields);
    OwnsBoth(f);
    ContributedAt(v, t, s, rd, cv, f, DiscKey(f.name));
    UnionIs(v, f, fields, s, rd);
    TagKept(v, cv, injected, f, fields, s, rd);
    TagReturns(v, J.Obj(cv.m + injected), fields[i], f, s, d0, o0, rd, d, o);
    TagsReturn(v, fields[i], f, s, rd, o.maxDepth - d);
  }

  lemma {:induction false} UnionOfTag(fields: seq<Field>, i: nat) returns (n: nat)
    requires i < |fields| && IsDiscriminator(fields[i], fields)
    ensures n < |fields| && fields[n].typ.Union? && fields[i].name == DiscKey(fields[n].name) && fields[i].typ.Scalar?
  {
    n :| 0 <= n < |fields| && fields[n].typ.Union? && fields[i].name == DiscKey(fields[n].name);
  }

  lemma {:induction false} TagOfUnion(fields: seq<Field>, n: nat, i: nat)
    requires TagFields(fields) && n < |fields| && i < |fields| && fields[n].typ.Union?
      && fields[i].name == DiscKey(fields[n].name)
    ensures IsTagOf(fields[i], fields[n])
  {
    hide IsTagOf;
  }

  lemma {:induction false} UnionIsNoTag(f: Field, fields: seq<Field>)
    requires f.typ.Union?
    ensures !IsDiscriminator(f, fields)
  {
  }

  lemma {:induction false} TagKept(v: J.Value, cv: J.Value, injected: map<string, J.Value>, f: Field,
                                   fields: seq<Field>, s: Schema, rd: KeyReader)
    requires v.Obj? && cv.Obj? && f.typ.Union? && CanonUnion(v, f, map[], s, rd).Ok?
      && Injectable(injected, cv.m, fields)
    requires SameAt(cv.m, CanonUnion(v, f, map[], s, rd).value, DiscKey(f.name))
    ensures SameAt(cv.m + injected, CanonUnion(v, f, map[], s, rd).value, DiscKey(f.name))
  {
    hide CanonVariant, VariantByName, VariantByValue, NamedString;
    SR.DiscKeyDiffers(f.name);
  }

  lemma {:induction false} TagsReturn(v: J.Value, g: Field, f: Field, s: Schema, rd: KeyReader, budget: int)
    requires v.Obj? && IsTagOf(g, f)
    ensures ReturnsAt(v, g, s, rd, budget)
  {
  }
}
