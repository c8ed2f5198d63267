/**
 The executor and `to_json` are two readers of one buffer: a query that names its fields returns the text
 of the values that its path selects in the buffer's document.

 A table of the buffer and the tree it unfolds to are held together by `Mirrors`. The walk then consumes
 one step at a time on both sides: a field of the table is a member of its document, whatever members
 stand beside it; a struct field or array element lies where the document's value was read from; a vector
 element is the element of the JSON array; a union continues in the variant that both readers resolve.
 Absent values agree too: a missing member under an index or a field is one NULL, under `[*]` nothing.
 */
module SameReaders {
  import opened Wrappers
  import opened Bytes
  import opened Schema
  import opened Scalars
  import opened Buffer
  import opened HeapTree
  import opened KeyText
  import opened ToJson
  import opened DocumentPaths
  import opened Lenient
  import opened LookupModes
  import S = StructJson
  import R = RoundTrip
  import L = StructLayout
  import M = MapKeys
  import E = Executor
  import J = Json
  import Q = Query
  import Text

  // Scalars.

  /** What a slot or a struct holds of this type prints as the number it is. */
  predicate Printable(st: ScalarType, sc: Scalar) {
    sc.I? ==> st.Bool? || (if st.ULong? then 0 <= sc.n < 0x1_0000_0000_0000_0000
      else Text.I64_MIN <= sc.n <= Text.I64_MAX)
  }

  lemma {:induction false} ScalarShows(st: ScalarType, sc: Scalar, j: J.Value)
    requires Printable(st, sc) && ScalarJson(st, None, sc) == Ok(j)
    ensures Shows(E.ScalarLeaf(sc), j)
  {
    hide Text.Dec;
    if sc.I? && st.Bool? { TruthText(sc.n); }
  }

  lemma {:induction false} TruthText(n: int)
    ensures Text.Dec(n) == "0" <==> n == 0
  {
    assert Text.Dec(0) == "0";
    if Text.Dec(n) == "0" { Text.DecInjective(n, 0); }
  }

  lemma {:induction false} FittingIsPrintable(st: ScalarType, sc: Scalar)
    requires Fits(st, sc)
    ensures Printable(st, sc)
  {
  }

  lemma {:induction false} UnsignedBound(bs: seq<byte>)
    ensures Unsigned(bs) < Pow256(|bs|)
  {
    if bs != [] { UnsignedBound(bs[1..]); }
  }

  lemma {:induction false} ReadIsPrintable(st: ScalarType, buf: seq<byte>, loc: nat)
    ensures Printable(st, ReadScalar(st, buf, loc))
  {
    Pow256Values();
    UnsignedBound(Window(buf, loc, SizeOf(st)));
    if loc + SizeOf(st) > |buf| { assert Window(buf, loc, SizeOf(st)) == []; }
  }

  /** An absent scalar's filled default is the number `to_json` shows exactly if it lies in its type's range. */
  lemma {:induction false} DefaultShows(f: Field, st: ScalarType, j: J.Value)
    requires ScalarJson(st, None, DefaultScalar(st, f.defaultInt, f.defaultReal)) == Ok(j)
    ensures Shows(E.DefaultLeaf(f, st), j) <==> PlainDefault(f, st)
  {
    hide Text.Dec, Cast;
    if IsInteger(st) {
      CastRange(st, f.defaultInt);
      if PlainDefault(f, st) { CastExact(st, f.defaultInt); }
      if Text.Dec(f.defaultInt) == Text.Dec(Cast(st, f.defaultInt)) {
        Text.DecInjective(f.defaultInt, Cast(st, f.defaultInt));
      }
    }
    if st.Bool? { TruthText(f.defaultInt); }
  }

  // Selections and runs, one element at a time.

  lemma {:induction false} NoneMissing(run: E.Leaves, verdict: Verdict, vals: seq<Option<J.Value>>)
    requires run == Ok([None]) && vals == [None] && !verdict.Refused?
    ensures Agrees(run, verdict, vals)
  {
  }

  lemma {:induction false} EachStep(items: seq<J.Value>, n: nat, path: seq<Q.Step>)
    ensures SelectEach(items[..0], path) == []
    ensures n < |items| ==> SelectEach(items[..n + 1], path) == SelectEach(items[..n], path) + Select(items[n], path)
  {
    hide Select;
    if n < |items| { assert items[..n + 1][..n] == items[..n]; }
  }

  lemma {:induction false} AgreeConcat(a: E.Leaves, b: E.Leaves, run: E.Leaves, va: Verdict, vb: Verdict,
                                       x: seq<Option<J.Value>>, y: seq<Option<J.Value>>)
    requires Agrees(a, va, x) && Agrees(b, vb, y)
    requires run.Ok? <==> a.Ok? && b.Ok?
    requires run.Ok? ==> run.value == a.value + b.value
    ensures Agrees(run, Both(va, vb), x + y)
  {
    hide LeafShows;
  }

  // Structs.

  /** The members of a struct's document are its fields. */
  lemma {:induction false} StructMembers(buf: seq<byte>, loc: nat, todo: seq<StructField>, acc: map<string, J.Value>,
                                         within: StructDef, f: StructField)
    requires forall g :: g in todo ==> g in within.fields
    requires f in within.fields && DistinctStructNames(within.fields)
    requires S.ReadFields(buf, loc, todo, acc, within).Ok?
    requires f in todo || (S.ReadField(buf, loc + f.offset, f.typ).Ok?
      && Has(acc, f.name, S.ReadField(buf, loc + f.offset, f.typ).value))
    ensures S.ReadField(buf, loc + f.offset, f.typ).Ok?
    ensures Has(S.ReadFields(buf, loc, todo, acc, within).value, f.name, S.ReadField(buf, loc + f.offset, f.typ).value)
    decreases |todo|
  {
    hide S.ReadField;
    if todo != [] {
      var g := todo[0];
      var v := S.ReadField(buf, loc + g.offset, g.typ).value;
      var next := acc[g.name := v];
      assert g in within.fields;
      if g.name == f.name { SameName(within.fields, f, g); }
      if f !in todo[1..] && f in todo { assert f == g; }
      StructMembers(buf, loc, todo[1..], next, within, f);
    }
  }

  predicate Has(m: map<string, J.Value>, name: string, j: J.Value) {
    name in m && m[name] == j
  }

  lemma {:induction false} SameName(fields: seq<StructField>, f: StructField, g: StructField)
    requires f in fields && g in fields && DistinctStructNames(fields) && f.name == g.name
    ensures f == g
  {
  }

  lemma {:induction false} MemberOfStruct(buf: seq<byte>, loc: nat, def: StructDef, doc: J.Value, f: StructField)
    requires DistinctStructNames(def.fields) && f in def.fields && S.ReadStruct(buf, loc, def) == Ok(doc)
    ensures S.ReadField(buf, loc + f.offset, f.typ).Ok?
      && Member(doc, f.name) == Some(S.ReadField(buf, loc + f.offset, f.typ).value)
  {
    hide S.ReadField, S.ReadFields, StructById;
    S.ByIdIsWithin(def);
    StructMembers(buf, loc, StructById(def.fields), map[], def, f);
  }

  /** The same in a struct. */
  lemma {:induction false} FoundStructField(fields: seq<StructField>, r: Q.FieldRef)
    ensures var found := E.FindStructField(fields, r);
            && (found.Some? ==>
                  found.value in fields && (if r.Name? then found.value.name == r.name else found.value.id == r.id))
            && (found.None? ==> forall f :: f in fields ==> if r.Name? then f.name != r.name else f.id != r.id)
  {
    if r.Name? { NamedStructField(fields, r.name); } else { StructFieldWithId(fields, r.id); }
  }

  /** Walking a struct is selecting from its document. */
  lemma {:induction false} StructAgrees(buf: seq<byte>, loc: nat, def: StructDef, steps: seq<Q.Step>,
                                        path: seq<Q.Step>, doc: J.Value)
    requires SpellsStruct(def, steps, path) && S.ReadStruct(buf, loc, def) == Ok(doc)
    ensures Agrees(E.WalkStruct(buf, loc, def, steps), Of(StructAnswers(def, steps)), Select(doc, path))
    decreases |steps|, 0, 0
  {
    hide S.ReadStruct, S.ReadField, E.FindStructField, Agrees, SpellsStructBelow, DistinctStructNames, E.StructLeaf,
      E.WalkArray, StructFieldAnswers;
    match E.FindStructField(def.fields, steps[0].ref) {
      case None => NothingRan(E.WalkStruct(buf, loc, def, steps), Refused, Select(doc, path));
      case Some(f) =>
        FoundStructField(def.fields, steps[0].ref);
        MemberOfStruct(buf, loc, def, doc, f);
        StructFieldAgrees(buf, loc + f.offset, f.typ, steps[1..], path[1..], Member(doc, f.name).value);
        assert Select(doc, path) == Select(Member(doc, f.name).value, path[1..]);
        assert E.WalkStruct(buf, loc, def, steps) == StructFieldRun(buf, loc + f.offset, f.typ, steps[1..]);
    }
  }

  lemma {:induction false} NothingRan(run: E.Leaves, verdict: Verdict, vals: seq<Option<J.Value>>)
    requires run.Err? && !verdict.Answered?
    ensures Agrees(run, verdict, vals)
  {
  }

  function StructFieldRun(buf: seq<byte>, loc: nat, t: StructFieldType, tail: seq<Q.Step>): E.Leaves {
    match t
    case SStruct(d) => E.WalkStruct(buf, loc, d, tail)
    case SScalar(st, _) => if tail == [] then E.StructLeaf(buf, loc, st) else Err(E.UnsupportedType)
    case _ => E.WalkArray(buf, loc, t, tail)
  }

  lemma {:induction false} StructFieldAgrees(buf: seq<byte>, loc: nat, t: StructFieldType, tail: seq<Q.Step>,
                                             path: seq<Q.Step>, doc: J.Value)
    requires SpellsStructBelow(t, tail, path) && S.ReadField(buf, loc, t) == Ok(doc)
    ensures Agrees(StructFieldRun(buf, loc, t, tail), Of(StructFieldAnswers(t, tail)), Select(doc, path))
    decreases |tail|, 2, 0
  {
    hide S.ReadStruct, Agrees, SpellsStruct, E.StructLeaf, E.WalkArray, E.WalkStruct, ScalarJson, ReadScalar, Select,
      S.ReadElements;
    match t {
      case SScalar(st, _) =>
        if tail == [] {
          LeafAgrees(buf, loc, st, doc);
        } else {
          NothingRan(StructFieldRun(buf, loc, t, tail), Refused, Select(doc, path));
        }
      case SStruct(d) =>
        if tail == [] {
          NoStructLeaf(buf, loc, d);
          NothingRan(E.WalkStruct(buf, loc, d, tail), Refused, Select(doc, path));
        }
        else { StructAgrees(buf, loc, d, tail, path, doc); }
      case _ =>
        if tail == [] {
          NoArrayLeaf(buf, loc, t);
          NothingRan(E.WalkArray(buf, loc, t, tail), Refused, Select(doc, path));
        }
        else { ArrayAgrees(buf, loc, t, tail, path, doc); }
    }
  }

  lemma {:induction false} NoStructLeaf(buf: seq<byte>, loc: nat, d: StructDef)
    ensures E.WalkStruct(buf, loc, d, []).Err?
  {
  }

  lemma {:induction false} NoArrayLeaf(buf: seq<byte>, loc: nat, t: StructFieldType)
    requires t.SScalarArray? || t.SStructArray?
    ensures E.WalkArray(buf, loc, t, []).Err?
  {
  }

  lemma {:induction false} LeafAgrees(buf: seq<byte>, loc: nat, st: ScalarType, doc: J.Value)
    requires ScalarJson(st, None, ReadScalar(st, buf, loc)) == Ok(doc)
    ensures Agrees(E.StructLeaf(buf, loc, st), Of(!st.UType?), Select(doc, []))
  {
    hide ReadScalar, Shows, E.ScalarLeaf;
    ReadIsPrintable(st, buf, loc);
    ScalarShows(st, ReadScalar(st, buf, loc), doc);
  }

  lemma {:induction false} ElementsRead(buf: seq<byte>, loc: nat, t: StructFieldType, n: nat, i: nat)
    requires (t.SScalarArray? || t.SStructArray?) && i < n && S.ReadElements(buf, loc, t, n).Ok?
    ensures |S.ReadElements(buf, loc, t, n).value| == n
    ensures S.ReadElement(buf, loc + Offset(i, E.ArrayStride(t)), t) == Ok(S.ReadElements(buf, loc, t, n).value[i])
    decreases n
  {
    hide S.ReadElement, Offset;
    assert L.Stride(t) == E.ArrayStride(t);
    if n > 1 { ElementsRead(buf, loc, t, n - 1, if i < n - 1 then i else 0); }
  }

  lemma {:induction false} ArrayAgrees(buf: seq<byte>, loc: nat, t: StructFieldType, tail: seq<Q.Step>,
                                       path: seq<Q.Step>, doc: J.Value)
    requires (t.SScalarArray? || t.SStructArray?) && tail != [] && SpellsStructBelow(t, tail, path)
      && S.ReadField(buf, loc, t) == Ok(doc)
    ensures Agrees(E.WalkArray(buf, loc, t, tail), Of(StructFieldAnswers(t, tail)), Select(doc, path))
    decreases |tail|, 1, 0
  {
    hide S.ReadElement, S.ReadElements, E.WalkArrayElement, Agrees, SpellsStruct, E.FanArray, Offset, SelectEach,
      StructAnswers;
    assert S.ReadElements(buf, loc, t, t.len) == Ok(doc.items);
    if t.len > 0 { ElementsRead(buf, loc, t, t.len, 0); } else { NoElements(buf, loc, t); }
    if t.SStructArray? && t.elemDef.bytesize == 0 {
      NothingRan(E.WalkArray(buf, loc, t, tail), Refused, Select(doc, path));
    } else {
      match tail[0] {
        case Index(i) =>
          if i >= t.len {
            NoneMissing(E.WalkArray(buf, loc, t, tail), Answered, Select(doc, path));
          } else {
            ElementsRead(buf, loc, t, t.len, i);
            ElementAgrees(buf, loc + Offset(i, E.ArrayStride(t)), t, tail, path, doc.items[i]);
          }
        case All =>
          FanAgrees(buf, loc, t, t.len, tail, path, doc.items);
          assert doc.items[..t.len] == doc.items;
      }
    }
  }

  lemma {:induction false} NoElements(buf: seq<byte>, loc: nat, t: StructFieldType)
    requires t.SScalarArray? || t.SStructArray?
    ensures S.ReadElements(buf, loc, t, 0) == Ok([])
  {
  }

  lemma {:induction false} ElementAgrees(buf: seq<byte>, loc: nat, t: StructFieldType, tail: seq<Q.Step>,
                                         path: seq<Q.Step>, doc: J.Value)
    requires (t.SScalarArray? || t.SStructArray?) && tail != [] && SpellsStructBelow(t, tail, path)
      && S.ReadElement(buf, loc, t) == Ok(doc)
    ensures Agrees(E.WalkArrayElement(buf, loc, t, tail[1..]), Of(ElementAnswers(t, tail[1..])), Select(doc, path[1..]))
    decreases |tail|, 0, 0
  {
    hide S.ReadStruct, Agrees, SpellsStruct, E.StructLeaf, E.WalkStruct, ScalarJson, ReadScalar, Select;
    var run, vals := E.WalkArrayElement(buf, loc, t, tail[1..]), Select(doc, path[1..]);
    match t {
      case SScalarArray(st, _) =>
        if tail[1..] != [] { NothingRan(run, Refused, vals); } else { LeafAgrees(buf, loc, st, doc); }
      case SStructArray(d, _) =>
        if tail[1..] == [] {
          NothingRan(run, Refused, vals);
        } else {
          StructAgrees(buf, loc, d, tail[1..], path[1..], doc);
        }
    }
  }

  /** Below one element of a fixed array. */
  predicate ElementAnswers(t: StructFieldType, tail: seq<Q.Step>)
    requires t.SScalarArray? || t.SStructArray?
  {
    match t
    case SScalarArray(st, _) => tail == [] && !st.UType?
    case SStructArray(d, _) => StructAnswers(d, tail)
  }

  lemma {:induction false} FanAgrees(buf: seq<byte>, loc: nat, t: StructFieldType, n: nat, tail: seq<Q.Step>,
                                     path: seq<Q.Step>, docs: seq<J.Value>)
    requires (t.SScalarArray? || t.SStructArray?) && tail != [] && path != [] && SpellsStructBelow(t, tail, path)
    requires S.ReadElements(buf, loc, t, t.len) == Ok(docs) && n <= |docs| == t.len
    ensures Agrees(E.FanArray(buf, loc, t, n, tail[1..]), Of(n == 0 || ElementAnswers(t, tail[1..])),
      SelectEach(docs[..n], path[1..]))
    decreases |tail|, 0, n + 1
  {
    hide S.ReadElement, S.ReadElements, E.WalkArrayElement, Agrees, SpellsStructBelow, Offset, SelectEach, Select;
    if n == 0 {
      EachStep(docs, 0, path[1..]);
      NoneRan(E.FanArray(buf, loc, t, 0, tail[1..]));
    } else {
      EachStep(docs, n - 1, path[1..]);
      ElementsRead(buf, loc, t, t.len, n - 1);
      FanAgrees(buf, loc, t, n - 1, tail, path, docs);
      ElementAgrees(buf, loc + Offset(n - 1, E.ArrayStride(t)), t, tail, path, docs[n - 1]);
      AgreeConcat(E.FanArray(buf, loc, t, n - 1, tail[1..]),
        E.WalkArrayElement(buf, loc + Offset(n - 1, E.ArrayStride(t)), t, tail[1..]),
                  E.FanArray(buf, loc, t, n, tail[1..]), Of(n == 1 || ElementAnswers(t, tail[1..])),
                    Of(ElementAnswers(t, tail[1..])),
                  SelectEach(docs[..n - 1], path[1..]), Select(docs[n - 1], path[1..]));
    }
  }

  lemma {:induction false} NoneRan(run: E.Leaves)
    requires run == Ok([])
    ensures Agrees(run, Answered, [])
  {
  }

  // Tables.

  /** The member of a table's document for one field: `None` when the document leaves it out. */
  function MemberOf(v: Val, f: Field, s: Schema, rd: KeyReader): Result<Option<J.Value>, ToJsonError> {
    if f.typ.Union? then UnionMember(v, f, s, rd)
    else
      match Lookup(Slots(v), f.offset)
      case None =>
        if IsNullable(f.typ) then Ok(None)
        else
          var j :- ScalarJson(f.typ.st, f.typ.en, DefaultScalar(f.typ.st, f.defaultInt, f.defaultReal));
          Ok(Some(j))
      case Some(x) =>
        var j :- ReadValue(v, x, f, s, rd);
        Ok(Some(j))
  }

  function UnionMember(v: Val, f: Field, s: Schema, rd: KeyReader): Result<Option<J.Value>, ToJsonError>
    requires f.typ.Union?
  {
    var disc := Discriminator(Slots(v), f.offset);
    if f.offset < 2 then Err(BadReflection)
    else
      match VariantByValue(f.typ.variants, disc)
      case None => Err(BadReflection)
      case Some(variant) =>
        if disc == 0 then Ok(None)
        else if variant.typ.None? then Err(BadReflection)
        else
          match Lookup(Slots(v), f.offset)
          case None => Ok(Some(J.Null))
          case Some(x) =>
            var j :- ReadVariant(x, variant.typ.value, s, rd);
            Ok(Some(j))
  }

  predicate Holds(m: map<string, J.Value>, name: string, member: Option<J.Value>) {
    if member.Some? then Has(m, name, member.value) else name !in m
  }

  /** Reading field `g` sets its own member and leaves the others alone. */
  lemma {:induction false} OwnMember(v: Val, f: Field, fields: seq<Field>, acc: map<string, J.Value>, s: Schema,
                                     rd: KeyReader)
    requires !IsDiscriminator(f, fields) && ToJson.ReadField(v, f, fields, acc, s, rd).Ok?
    ensures MemberOf(v, f, s, rd).Ok?
    ensures (f.name !in acc || Holds(acc, f.name, MemberOf(v, f, s, rd).value)) && f.name != DiscKey(f.name) ==>
              Holds(ToJson.ReadField(v, f, fields, acc, s, rd).value, f.name, MemberOf(v, f, s, rd).value)
  {
    hide ReadValue, ReadVariant, ScalarJson, DefaultScalar, Discriminator, IsDiscriminator;
  }

  lemma {:induction false} DiscKeyDiffers(name: string)
    ensures DiscKey(name) != name
  {
    assert |DiscKey(name)| == |name| + 5;
  }

  lemma {:induction false} OtherMember(v: Val, g: Field, f: Field, fields: seq<Field>, acc: map<string, J.Value>,
                                       s: Schema, rd: KeyReader)
    requires ToJson.ReadField(v, g, fields, acc, s, rd).Ok?
    requires g.name != f.name && (g.typ.Union? ==> DiscKey(g.name) != f.name)
    ensures var m := ToJson.ReadField(v, g, fields, acc, s, rd).value;
            (f.name in m <==> f.name in acc) && (f.name in acc ==> m[f.name] == acc[f.name])
  {
    hide ReadValue, ReadVariant, ScalarJson, DefaultScalar, Discriminator, IsDiscriminator;
  }

  lemma {:induction false} NamesDiffer(fields: seq<Field>, g: Field, f: Field)
    requires DistinctNames(fields) && TagNamesReserved(fields) && g in fields && f in fields
      && !IsDiscriminator(f, fields)
    ensures g != f ==> g.name != f.name && (g.typ.Union? ==> DiscKey(g.name) != f.name)
  {
    var i :| 0 <= i < |fields| && fields[i] == g;
    var k :| 0 <= k < |fields| && fields[k] == f;
  }

  lemma {:induction false} TableMembers(v: Val, todo: seq<Field>, fields: seq<Field>, acc: map<string, J.Value>,
                                        s: Schema, rd: KeyReader, f: Field)
    requires DistinctNames(fields) && TagNamesReserved(fields) && !IsDiscriminator(f, fields) && f in fields
    requires forall g :: g in todo ==> g in fields
    requires ToJson.ReadFields(v, todo, fields, acc, s, rd).Ok?
    requires f in todo || MemberOf(v, f, s, rd).Ok?
    requires f.name !in acc || (MemberOf(v, f, s, rd).Ok? && Holds(acc, f.name, MemberOf(v, f, s, rd).value))
    requires f !in todo ==> Holds(acc, f.name, MemberOf(v, f, s, rd).value)
    ensures MemberOf(v, f, s, rd).Ok?
    ensures Holds(ToJson.ReadFields(v, todo, fields, acc, s, rd).value, f.name, MemberOf(v, f, s, rd).value)
    decreases |todo|
  {
    hide ToJson.ReadField, MemberOf, IsDiscriminator, DistinctNames, TagNamesReserved;
    if todo != [] {
      var g := todo[0];
      var next := ToJson.ReadField(v, g, fields, acc, s, rd).value;
      NamesDiffer(fields, g, f);
      DiscKeyDiffers(f.name);
      if g == f { OwnMember(v, f, fields, acc, s, rd); } else { OtherMember(v, g, f, fields, acc, s, rd); }
      TableMembers(v, todo[1..], fields, next, s, rd, f);
    }
  }

  lemma {:induction false} MemberOfTable(v: Val, t: nat, s: Schema, rd: KeyReader, doc: J.Value, f: Field)
    requires NamedApart(s) && f in TableAt(s, t).fields && !IsDiscriminator(f, TableAt(s, t).fields)
      && ReadTable(v, t, s, rd) == Ok(doc)
    ensures doc.Obj? && MemberOf(v, f, s, rd) == Ok(Member(doc, f.name))
  {
    hide MemberOf, ToJson.ReadFields, ById, IsDiscriminator;
    NamesApartAt(s, t);
    R.ByIdMembers(TableAt(s, t).fields);
    TableMembers(v, ById(TableAt(s, t).fields), TableAt(s, t).fields, map[], s, rd, f);
  }

  /** A step refers to the field of its name or id, and to none exactly if the table has no such field. */
  lemma {:induction false} FoundField(fields: seq<Field>, r: Q.FieldRef)
    ensures var found := E.FindField(fields, r);
            && (found.Some? ==>
                  found.value in fields && (if r.Name? then found.value.name == r.name else found.value.id == r.id))
            && (found.None? ==> forall f :: f in fields ==> if r.Name? then f.name != r.name else f.id != r.id)
  {
    if r.Name? { NamedField(fields, r.name); } else { FieldWithId(fields, r.id); }
  }

  /** Only an `UType` scalar is left out of the document as a tag. */
  lemma {:induction false} PlainIsNoTag(s: Schema, f: Field, fields: seq<Field>, tail: seq<Q.Step>, path: seq<Q.Step>)
    requires SpellsBelow(s, f, tail, path)
    ensures !IsDiscriminator(f, fields)
  {
  }

  /** The tag member names the variant that the buffer's tag selects. */
  predicate TagSeen(v: Val, f: Field, tag: Option<J.Value>) {
    f.typ.Union? && VariantByValue(f.typ.variants, Discriminator(Slots(v), f.offset)).Some? ==>
      tag == Some(J.Str(VariantByValue(f.typ.variants, Discriminator(Slots(v), f.offset)).value.name))
  }

  lemma {:induction false} OwnTag(v: Val, f: Field, acc: map<string, J.Value>, s: Schema, rd: KeyReader)
    requires f.typ.Union? && ReadUnion(v, f, acc, s, rd).Ok?
    ensures VariantByValue(f.typ.variants, Discriminator(Slots(v), f.offset)).Some?
    ensures Has(ReadUnion(v, f, acc, s, rd).value, DiscKey(f.name),
                J.Str(VariantByValue(f.typ.variants, Discriminator(Slots(v), f.offset)).value.name))
  {
    hide ReadVariant, Discriminator;
    DiscKeyDiffers(f.name);
  }

  lemma {:induction false} DiscKeyInjective(a: string, b: string)
    requires DiscKey(a) == DiscKey(b)
    ensures a == b
  {
    assert DiscKey(a)[..|DiscKey(a)| - 5] == a && DiscKey(b)[..|DiscKey(b)| - 5] == b;
  }

  /** No other field writes a union's tag member. */
  lemma {:induction false} OtherTag(v: Val, g: Field, f: Field, fields: seq<Field>, acc: map<string, J.Value>,
                                    s: Schema, rd: KeyReader)
    requires ToJson.ReadField(v, g, fields, acc, s, rd).Ok? && f.typ.Union? && g != f && f in fields && g in fields
    requires DistinctNames(fields) && TagNamesReserved(fields)
    ensures var m := ToJson.ReadField(v, g, fields, acc, s, rd).value; var k := DiscKey(f.name);
            (k in m <==> k in acc) && (k in acc ==> m[k] == acc[k])
  {
    hide ReadValue, ReadVariant, ScalarJson, DefaultScalar, Discriminator;
    var i :| 0 <= i < |fields| && fields[i] == f;
    var j :| 0 <= j < |fields| && fields[j] == g;
    if g.typ.Union? && DiscKey(g.name) == DiscKey(f.name) { DiscKeyInjective(g.name, f.name); }
  }

  lemma {:induction false} TableTags(v: Val, todo: seq<Field>, fields: seq<Field>, acc: map<string, J.Value>,
                                     s: Schema, rd: KeyReader, f: Field)
    requires DistinctNames(fields) && TagNamesReserved(fields) && f.typ.Union? && f in fields
      && (forall g :: g in todo ==> g in fields)
    requires ToJson.ReadFields(v, todo, fields, acc, s, rd).Ok?
    requires f in todo || TagSeen(v, f, Member(J.Obj(acc), DiscKey(f.name)))
    ensures TagSeen(v, f, Member(J.Obj(ToJson.ReadFields(v, todo, fields, acc, s, rd).value), DiscKey(f.name)))
    decreases |todo|
  {
    hide ToJson.ReadField, IsDiscriminator, DistinctNames, TagNamesReserved, Discriminator;
    if todo != [] {
      var g := todo[0];
      var next := ToJson.ReadField(v, g, fields, acc, s, rd).value;
      if g == f {
        UnionRead(v, f, fields, acc, s, rd);
        OwnTag(v, f, acc, s, rd);
      } else {
        OtherTag(v, g, f, fields, acc, s, rd);
      }
      TableTags(v, todo[1..], fields, next, s, rd, f);
    }
  }

  lemma {:induction false} UnionRead(v: Val, f: Field, fields: seq<Field>, acc: map<string, J.Value>, s: Schema,
                                     rd: KeyReader)
    requires f.typ.Union?
    ensures ToJson.ReadField(v, f, fields, acc, s, rd) == ReadUnion(v, f, acc, s, rd)
  {
    hide ReadUnion;
  }

  lemma {:induction false} TagOfTable(v: Val, t: nat, s: Schema, rd: KeyReader, doc: J.Value, f: Field)
    requires NamedApart(s) && f in TableAt(s, t).fields && ReadTable(v, t, s, rd) == Ok(doc)
    ensures TagSeen(v, f, Member(doc, DiscKey(f.name)))
  {
    hide ToJson.ReadFields, ById, IsDiscriminator, Discriminator;
    NamesApartAt(s, t);
    R.ByIdMembers(TableAt(s, t).fields);
    if f.typ.Union? { TableTags(v, ById(TableAt(s, t).fields), TableAt(s, t).fields, map[], s, rd, f); }
  }

  /** Running a query on a table is selecting from its document. */
  lemma {:induction false} TableAgrees(h: Heap, slots: map<nat, Slot>, b: nat, v: Val, t: nat, s: Schema,
                                       steps: seq<Q.Step>, path: seq<Q.Step>,
                                       o: E.ExecOptions, rd: KeyReader, doc: J.Value)
    requires Backward(h) && Mirrors(h, slots, b, v) && NamedApart(s) && o.fillDefaults && o.reader == rd
    requires Spells(s, t, steps, path) && GoodLookups(Listed, h, slots, t, s, steps, o)
      && ReadTable(v, t, s, rd) == Ok(doc)
    ensures Agrees(E.WalkTable(h, slots, t, s, steps, o), TableVerdict(s, t, steps, doc), Select(doc, path))
    decreases |steps|, 0, 0
  {
    hide *;
    SpelledField(s, t, steps, path);
    var found := E.FindField(TableAt(s, t).fields, steps[0].ref);
    RunOfTable(h, slots, t, s, steps, o);
    VerdictOfTable(s, t, steps, doc);
    if found.None? {
      NothingRan(E.WalkTable(h, slots, t, s, steps, o), Refused, Select(doc, path));
    } else {
      var f := found.value;
      FoundField(TableAt(s, t).fields, steps[0].ref);
      PlainIsNoTag(s, f, TableAt(s, t).fields, steps[1..], path[1..]);
      MemberOfTable(v, t, s, rd, doc, f);
      TagOfTable(v, t, s, rd, doc, f);
      LookupsOfField(h, slots, t, s, steps, o);
      FieldAgrees(h, slots, b, v, f, s, steps[1..], path[1..], o, rd, Member(doc, f.name),
        Member(doc, DiscKey(f.name)));
      SelectedMember(doc, f.name, path);
    }
  }

  lemma {:induction false} VerdictOfTable(s: Schema, t: nat, steps: seq<Q.Step>, doc: J.Value)
    requires steps != [] && steps[0].Field?
    ensures var found := E.FindField(TableAt(s, t).fields, steps[0].ref);
            TableVerdict(s, t, steps, doc) ==
            if found.None? then Refused
            else FieldVerdict(s, found.value, steps[1..], Member(doc, found.value.name),
              Member(doc, DiscKey(found.value.name)))
  {
    hide FieldVerdict, TableAt, E.FindField;
  }

  lemma {:induction false} LookupsOfField(h: Heap, slots: map<nat, Slot>, t: nat, s: Schema, steps: seq<Q.Step>,
                                          o: E.ExecOptions)
    requires steps != [] && steps[0].Field? && GoodLookups(Listed, h, slots, t, s, steps, o)
    requires E.FindField(TableAt(s, t).fields, steps[0].ref).Some?
    ensures LookupsBelow(Listed, h, slots, E.FindField(TableAt(s, t).fields, steps[0].ref).value, s, steps[1..], o)
  {
    hide LookupsBelow, TableAt, E.FindField;
  }

  lemma {:induction false} SpelledField(s: Schema, t: nat, steps: seq<Q.Step>, path: seq<Q.Step>)
    requires Spells(s, t, steps, path)
    ensures steps != [] && steps[0].Field?
    ensures var found := E.FindField(TableAt(s, t).fields, steps[0].ref);
            found.Some? ==>
              NamesField(path, found.value.name) && path != [] && SpellsBelow(s, found.value, steps[1..], path[1..])
  {
    hide SpellsBelow, TableAt, E.FindField;
  }

  lemma {:induction false} RunOfTable(h: Heap, slots: map<nat, Slot>, t: nat, s: Schema, steps: seq<Q.Step>,
                                      o: E.ExecOptions)
    requires steps != [] && steps[0].Field?
    ensures var found := E.FindField(TableAt(s, t).fields, steps[0].ref);
      var run := E.WalkTable(h, slots, t, s, steps, o);
            if found.None? then run.Err? else run == E.WalkField(h, slots, found.value, s, steps[1..], o)
  {
    hide E.WalkField, TableAt, E.FindField;
  }

  lemma {:induction false} SelectedMember(doc: J.Value, name: string, path: seq<Q.Step>)
    requires NamesField(path, name) && path != [] && doc.Obj?
    ensures Select(doc, path) == SelectMember(Member(doc, name), path[1..])
  {
    hide Member, Missing;
  }

  /** A field's run against the document's member. */
  lemma {:induction false} FieldAgrees(h: Heap, slots: map<nat, Slot>, b: nat, v: Val, f: Field, s: Schema,
                                       tail: seq<Q.Step>, path: seq<Q.Step>,
                                       o: E.ExecOptions, rd: KeyReader, member: Option<J.Value>, tag: Option<J.Value>)
    requires Backward(h) && Mirrors(h, slots, b, v) && NamedApart(s) && o.fillDefaults && o.reader == rd
    requires SpellsBelow(s, f, tail, path) && LookupsBelow(Listed, h, slots, f, s, tail, o)
    requires MemberOf(v, f, s, rd) == Ok(member) && TagSeen(v, f, tag)
    ensures Agrees(E.WalkField(h, slots, f, s, tail, o), FieldVerdict(s, f, tail, member, tag),
      SelectMember(member, path))
    decreases |tail|, 3, 0
  {
    hide *;
    match f.typ {
      case Scalar(st, en) => ScalarFieldAgrees(h, slots, b, v, f, s, tail, path, o, rd, member, tag);
      case String => StringFieldAgrees(h, slots, b, v, f, s, tail, path, o, rd, member, tag);
      case Struct(def) => StructFieldInTable(h, slots, b, v, f, s, tail, path, o, rd, member, tag);
      case Table(t) => SubTableAgrees(h, slots, b, v, f, s, tail, path, o, rd, member, tag);
      case Union(_) => UnionFieldAgrees(h, slots, b, v, f, s, tail, path, o, rd, member, tag);
      case Vector(el) => VectorFieldAgrees(h, slots, b, v, f, s, tail, path, o, rd, member, tag);
      case Vector64 => NoVector64(h, slots, f, s, tail, o, member, tag, SelectMember(member, path));
    }
  }

  lemma {:induction false} NoVector64(h: Heap, slots: map<nat, Slot>, f: Field, s: Schema, tail: seq<Q.Step>,
                                      o: E.ExecOptions,
                                      member: Option<J.Value>, tag: Option<J.Value>, vals: seq<Option<J.Value>>)
    requires f.typ.Vector64?
    ensures Agrees(E.WalkField(h, slots, f, s, tail, o), FieldVerdict(s, f, tail, member, tag), vals)
  {
  }

  lemma {:induction false} ScalarFieldAgrees(h: Heap, slots: map<nat, Slot>, b: nat, v: Val, f: Field, s: Schema,
                                             tail: seq<Q.Step>, path: seq<Q.Step>,
                          o: E.ExecOptions, rd: KeyReader, member: Option<J.Value>, tag: Option<J.Value>)
    requires f.typ.Scalar? && Mirrors(h, slots, b, v) && o.fillDefaults
    requires SpellsBelow(s, f, tail, path) && MemberOf(v, f, s, rd) == Ok(member)
    ensures Agrees(E.WalkField(h, slots, f, s, tail, o), FieldVerdict(s, f, tail, member, tag),
      SelectMember(member, path))
  {
    hide ScalarJson, Shows, E.ScalarLeaf, E.DefaultLeaf, DefaultScalar, Fits, PlainDefault, Mirrors;
    var st := f.typ.st;
    if tail != [] {
      NothingRan(E.WalkField(h, slots, f, s, tail, o), Refused, SelectMember(member, path));
      return;
    }
    var stored := StoredScalar(h, slots, b, v, f, st);
    assert E.WalkField(h, slots, f, s, tail, o) ==
      Ok([Some(if stored.Some? then E.ScalarLeaf(stored.value) else E.DefaultLeaf(f, st))]);
    if stored.Some? {
      FittingIsPrintable(st, stored.value);
      ScalarShows(st, stored.value, member.value);
    } else {
      DefaultShows(f, st, member.value);
    }
    NumberIsNotNull(st, if stored.Some? then stored.value else DefaultScalar(st, f.defaultInt, f.defaultReal));
  }

  lemma {:induction false} NumberIsNotNull(st: ScalarType, sc: Scalar)
    ensures ScalarJson(st, None, sc).Ok? ==> !ScalarJson(st, None, sc).value.Null?
  {
  }

  /** The scalar both readers find in a slot, if they do not fall back to the default. */
  lemma {:induction false} StoredScalar(h: Heap, slots: map<nat, Slot>, b: nat, v: Val, f: Field,
                                        st: ScalarType) returns (stored: Option<Scalar>)
    requires Mirrors(h, slots, b, v) && f.typ.Scalar? && f.typ.st == st
    ensures SlotScalar(Slots(v), f, st) == if stored.Some? then stored.value
      else DefaultScalar(st, f.defaultInt, f.defaultReal)
    ensures stored.Some? ==> Fits(st, stored.value)
    ensures f.offset in slots <==> f.offset in Slots(v)
    ensures f.offset !in slots ==> stored.None?
    ensures f.offset in slots ==> E.PresentScalar(slots, f, st) == if stored.Some? then E.ScalarLeaf(stored.value)
      else E.DefaultLeaf(f, st)
  {
    hide DefaultScalar, Fits, E.ScalarLeaf, E.DefaultLeaf;
    stored := None;
    if f.offset in slots {
      assert Slots(v)[f.offset] == UnfoldSlot(h, slots[f.offset], b);
      UnfoldedScalar(h, slots[f.offset], b);
      if slots[f.offset].Direct? && Fits(st, slots[f.offset].sc) { stored := Some(slots[f.offset].sc); }
    }
  }

  lemma {:induction false} StringFieldAgrees(h: Heap, slots: map<nat, Slot>, b: nat, v: Val, f: Field, s: Schema,
                                             tail: seq<Q.Step>, path: seq<Q.Step>,
                          o: E.ExecOptions, rd: KeyReader, member: Option<J.Value>, tag: Option<J.Value>)
    requires f.typ.String? && Mirrors(h, slots, b, v)
    requires SpellsBelow(s, f, tail, path) && MemberOf(v, f, s, rd) == Ok(member)
    ensures Agrees(E.WalkField(h, slots, f, s, tail, o), FieldVerdict(s, f, tail, member, tag),
      SelectMember(member, path))
  {
    hide Mirrors, StringAtSlot, UnfoldSlot;
    SlotMirrored(h, slots, b, v, f.offset);
    var run := E.WalkField(h, slots, f, s, tail, o);
    if tail != [] && (f.offset in slots || tail[0].UnionType?) {
      NothingRan(run, Refused, SelectMember(member, path));
    } else if f.offset in slots {
      TextShows(StringAtSlot(h, slots, f.offset).UnwrapOr(""));
      OneShows(E.Plain(StringAtSlot(h, slots, f.offset).UnwrapOr("")), member.value, run);
    } else {
      NoneMissing(run, Answered, SelectMember(member, path));
    }
  }

  lemma {:induction false} StructFieldInTable(h: Heap, slots: map<nat, Slot>, b: nat, v: Val, f: Field, s: Schema,
                                              tail: seq<Q.Step>, path: seq<Q.Step>,
                           o: E.ExecOptions, rd: KeyReader, member: Option<J.Value>, tag: Option<J.Value>)
    requires f.typ.Struct? && Mirrors(h, slots, b, v)
    requires SpellsBelow(s, f, tail, path) && MemberOf(v, f, s, rd) == Ok(member)
    ensures Agrees(E.WalkField(h, slots, f, s, tail, o), FieldVerdict(s, f, tail, member, tag),
      SelectMember(member, path))
  {
    hide E.WalkStruct, S.ReadStruct, Agrees, Select, Mirrors, SpellsStruct, StructAtSlot, StructAnswers;
    var run := E.WalkField(h, slots, f, s, tail, o);
    var vals := SelectMember(member, path);
    SlotMirrored(h, slots, b, v, f.offset);
    if f.offset !in slots {
      NoneMissing(run, Answered, vals);
    } else if tail == [] {
      NothingRan(run, Refused, vals);
    } else if StructAtSlot(h, slots, f.offset).Some? {
      StructIsNoNull(StructAtSlot(h, slots, f.offset).value, 0, f.typ.def);
      StructAgrees(StructAtSlot(h, slots, f.offset).value, 0, f.typ.def, tail, path, member.value);
    } else {
      SelectNull(path);
      NoneMissing(run, Answered, vals);
    }
  }

  lemma {:induction false} SelectNull(path: seq<Q.Step>)
    requires path == [] || path[0].Field?
    ensures Select(J.Null, path) == [None]
  {
  }

  lemma {:induction false} StructIsNoNull(buf: seq<byte>, loc: nat, def: StructDef)
    ensures S.ReadStruct(buf, loc, def).Ok? ==> S.ReadStruct(buf, loc, def).value.Obj?
  {
    hide S.ReadFields, StructById;
  }

  lemma {:induction false} TableIsNoNull(v: Val, t: nat, s: Schema, rd: KeyReader)
    ensures ReadTable(v, t, s, rd).Ok? ==> ReadTable(v, t, s, rd).value.Obj?
  {
    hide ToJson.ReadFields, ById, TableAt;
  }

  lemma {:induction false} NullAgrees(run: E.Leaves, verdict: Verdict, path: seq<Q.Step>)
    requires run == Ok([None]) && !verdict.Refused? && (path == [] || path[0].Field?)
    ensures Agrees(run, verdict, Select(J.Null, path)) && Agrees(run, verdict, Missing(path))
  {
  }

  lemma {:induction false} SubTableAgrees(h: Heap, slots: map<nat, Slot>, b: nat, v: Val, f: Field, s: Schema,
                                          tail: seq<Q.Step>, path: seq<Q.Step>,
                                          o: E.ExecOptions, rd: KeyReader, member: Option<J.Value>,
                                          tag: Option<J.Value>)
    requires f.typ.Table? && Backward(h) && Mirrors(h, slots, b, v) && NamedApart(s) && o.fillDefaults && o.reader == rd
    requires SpellsBelow(s, f, tail, path) && LookupsBelow(Listed, h, slots, f, s, tail, o)
    requires MemberOf(v, f, s, rd) == Ok(member) && TagSeen(v, f, tag)
    ensures Agrees(E.WalkField(h, slots, f, s, tail, o), FieldVerdict(s, f, tail, member, tag),
      SelectMember(member, path))
    decreases |tail|, 2, 0
  {
    hide E.WalkTable, ReadTable, Agrees, Select, Mirrors, Spells, TableAtSlot, SlotsAt, Backward, NamedApart,
      TableVerdict, GoodLookups;
    var run := E.WalkField(h, slots, f, s, tail, o);
    var vals := SelectMember(member, path);
    SlotMirrored(h, slots, b, v, f.offset);
    if f.offset !in slots {
      NullAgrees(run, Answered, path);
    } else if tail == [] {
      NothingRan(run, Refused, vals);
    } else if TableAtSlot(h, slots, f.offset).Some? {
      ChildMirrors(h, slots, b, v, f.offset);
      TableIsNoNull(Slots(v)[f.offset], f.typ.index, s, rd);
      TableAgrees(h, TableAtSlot(h, slots, f.offset).value, slots[f.offset].node, Slots(v)[f.offset], f.typ.index, s,
        tail, path, o, rd, member.value);
    } else {
      NullAgrees(run, Answered, path);
    }
  }

  // Unions.

  lemma {:induction false} TagMirrored(h: Heap, slots: map<nat, Slot>, b: nat, v: Val, valueSlot: nat)
    requires Mirrors(h, slots, b, v) && valueSlot >= 2
    ensures E.Tag(slots, valueSlot) == Discriminator(Slots(v), valueSlot)
  {
    var o: nat := valueSlot - 2;
    if o in slots {
      assert Slots(v)[o] == UnfoldSlot(h, slots[o], b);
      UnfoldedScalar(h, slots[o], b);
    }
  }

  /** The variant both readers see, or none; it is the variant that the document's tag names. */
  lemma {:induction false} VariantSeen(h: Heap, slots: map<nat, Slot>, b: nat, v: Val, f: Field, s: Schema,
                                       rd: KeyReader, member: Option<J.Value>, tag: Option<J.Value>)
    returns (active: Option<VariantType>)
    requires f.typ.Union? && DistinctVariantNames(f.typ.variants)
    requires Mirrors(h, slots, b, v) && MemberOf(v, f, s, rd) == Ok(member) && TagSeen(v, f, tag)
    ensures E.ActiveVariant(slots, f) == Ok(active)
    ensures active.Some? ==> exists i :: 0 <= i < |f.typ.variants| && f.typ.variants[i].typ == active
    ensures member == None <==> active == None
    ensures active.Some? ==>
              member.Some? && if f.offset in Slots(v) then ReadVariant(Slots(v)[f.offset], active.value, s, rd) ==
                Ok(member.value) else member.value == J.Null
    ensures active.Some? ==> VariantNamed(f.typ.variants, tag, active.value)
  {
    hide E.Tag, Discriminator, ReadVariant, Mirrors, VariantByValue, VariantByName, DistinctVariantNames;
    TagMirrored(h, slots, b, v, f.offset);
    var variant := VariantByValue(f.typ.variants, Discriminator(Slots(v), f.offset));
    if Discriminator(Slots(v), f.offset) == 0 {
      active := None;
    } else {
      active := variant.value.typ;
      VariantIsListed(f.typ.variants, Discriminator(Slots(v), f.offset));
      var i :| 0 <= i < |f.typ.variants| && f.typ.variants[i] == variant.value;
      NamedVariant(f.typ.variants, Discriminator(Slots(v), f.offset));
    }
  }

  /** The tag's name finds the variant of this type. */
  predicate VariantNamed(variants: seq<Variant>, tag: Option<J.Value>, t: VariantType) {
    && tag.Some? && tag.value.Str? && VariantByName(variants, tag.value.s).Some?
    && VariantByName(variants, tag.value.s).value.typ == Some(t)
  }

  lemma {:induction false} NamedVariant(variants: seq<Variant>, value: int)
    requires DistinctVariantNames(variants)
    ensures VariantByValue(variants, value).Some? ==>
              && VariantByValue(variants, value).value.value == value
                && VariantByValue(variants, value).value in variants
              && VariantByName(variants, VariantByValue(variants, value).value.name) == VariantByValue(variants, value)
  {
    if variants != [] && variants[0].value != value {
      NamedVariant(variants[1..], value);
      if VariantByValue(variants, value).Some? {
        var i :| 0 <= i < |variants[1..]| && variants[1..][i] == VariantByValue(variants, value).value;
        assert variants[i + 1] == VariantByValue(variants, value).value;
      }
    }
  }

  /** The verdict on a present union is that on its variant. */
  lemma {:induction false} VerdictOfUnion(s: Schema, f: Field, tail: seq<Q.Step>, value: J.Value, tag: Option<J.Value>,
                                          t: VariantType)
    requires f.typ.Union? && VariantNamed(f.typ.variants, tag, t)
    ensures FieldVerdict(s, f, tail, Some(value), tag) == VariantVerdict(s, t, tail, value)
  {
    hide VariantVerdict, VariantByName;
  }

  lemma {:induction false} VariantIsListed(variants: seq<Variant>, value: int)
    ensures VariantByValue(variants, value).Some? ==> VariantByValue(variants, value).value in variants
  {
    if variants != [] { VariantIsListed(variants[1..], value); }
  }

  lemma {:induction false} UnionFieldAgrees(h: Heap, slots: map<nat, Slot>, b: nat, v: Val, f: Field, s: Schema,
                                            tail: seq<Q.Step>, path: seq<Q.Step>,
                                            o: E.ExecOptions, rd: KeyReader, member: Option<J.Value>,
                                            tag: Option<J.Value>)
    requires f.typ.Union? && Backward(h) && Mirrors(h, slots, b, v) && NamedApart(s) && o.fillDefaults && o.reader == rd
    requires SpellsBelow(s, f, tail, path) && LookupsBelow(Listed, h, slots, f, s, tail, o)
    requires MemberOf(v, f, s, rd) == Ok(member) && TagSeen(v, f, tag)
    ensures Agrees(E.WalkField(h, slots, f, s, tail, o), FieldVerdict(s, f, tail, member, tag),
      SelectMember(member, path))
    decreases |tail|, 2, 0
  {
    hide E.WalkUnion, E.UnionValueLeaf, Agrees, Select, Mirrors, Backward, NamedApart, MemberOf, SpellsVariants,
      ReadVariant, E.ActiveVariant, Missing,
      UnionVerdict, VariantVerdict, LookupsInChild, TagSeen, VariantNamed, DistinctVariantNames;
    var active := VariantSeen(h, slots, b, v, f, s, rd, member, tag);
    SlotMirrored(h, slots, b, v, f.offset);
    var run := E.WalkField(h, slots, f, s, tail, o);
    var vals := SelectMember(member, path);
    if active.Some? {
      var verdict := VariantVerdict(s, active.value, tail, member.value);
      VerdictOfUnion(s, f, tail, member.value, tag, active.value);
      if f.offset !in slots {
        NullVerdict(s, active.value, tail);
        NullAgrees(run, verdict, path);
      } else if tail == [] {
        VariantLeafAgrees(h, slots, f, Slots(v)[f.offset], active.value, s, rd, member.value);
      } else {
        SpelledVariant(s, f.typ.variants, active.value, tail, path);
        VariantAgrees(h, slots, b, v, f, active.value, s, tail, path, o, rd, member.value);
      }
    } else {
      NoVariant(h, slots, f, s, tail, o);
      NullAgrees(run, Answered, path);
    }
  }

  /** No query of a missing union value is refused. */
  lemma {:induction false} NullVerdict(s: Schema, t: VariantType, tail: seq<Q.Step>)
    ensures !VariantVerdict(s, t, tail, J.Null).Refused?
  {
    hide TableVerdict, StructAnswers;
  }

  lemma {:induction false} NoVariant(h: Heap, slots: map<nat, Slot>, f: Field, s: Schema, tail: seq<Q.Step>,
                                     o: E.ExecOptions)
    requires f.typ.Union? && E.ActiveVariant(slots, f) == Ok(None) && (tail != [] ==> tail[0].Field?)
    ensures E.WalkField(h, slots, f, s, tail, o) == Ok([None])
  {
    hide E.ActiveVariant;
  }

  lemma {:induction false} SpelledVariant(s: Schema, variants: seq<Variant>, t: VariantType, tail: seq<Q.Step>,
                                          path: seq<Q.Step>)
    requires SpellsVariants(s, variants, tail, path) && exists i :: 0 <= i < |variants| && variants[i].typ == Some(t)
    ensures SpellsVariant(s, t, tail, path)
  {
    hide SpellsVariant;
  }

  lemma {:induction false} VariantLeafAgrees(h: Heap, slots: map<nat, Slot>, f: Field, x: Val, t: VariantType,
                                             s: Schema, rd: KeyReader, doc: J.Value)
    requires f.typ.Union? && E.ActiveVariant(slots, f) == Ok(Some(t)) && ReadVariant(x, t, s, rd) == Ok(doc)
    requires StringAtSlot(h, slots, f.offset) == if x.StringVal? then Some(x.s) else None
    ensures Agrees(E.UnionValueLeaf(h, slots, f), VariantVerdict(s, t, [], doc), Select(doc, []))
  {
    hide E.ActiveVariant, StringAtSlot, ReadTable, S.ReadStruct, TableVerdict, StructAnswers;
  }

  lemma {:induction false} VariantAgrees(h: Heap, slots: map<nat, Slot>, b: nat, v: Val, f: Field, t: VariantType,
                                         s: Schema, tail: seq<Q.Step>,
                                         path: seq<Q.Step>, o: E.ExecOptions, rd: KeyReader, doc: J.Value)
    requires f.typ.Union? && Backward(h) && Mirrors(h, slots, b, v) && NamedApart(s) && o.fillDefaults && o.reader == rd
    requires t.VTable? ==> LookupsInChild(Listed, h, slots, f.offset, t.index, s, tail, o)
    requires E.ActiveVariant(slots, f) == Ok(Some(t)) && tail != [] && EntersField(tail, path)
      && SpellsVariant(s, t, tail, path)
    requires f.offset in Slots(v) && ReadVariant(Slots(v)[f.offset], t, s, rd) == Ok(doc)
    ensures Agrees(E.WalkUnion(h, slots, f, s, tail, o), VariantVerdict(s, t, tail, doc), Select(doc, path))
    decreases |tail|, 1, 0
  {
    hide E.WalkTable, E.WalkStruct, Agrees, Select, Mirrors, Backward, NamedApart, ReadTable, S.ReadStruct,
      E.ActiveVariant, Spells, SpellsStruct,
         TableAtSlot, StructAtSlot, StringAtSlot, UnfoldSlot, Missing, TableVerdict, StructAnswers, GoodLookups;
    SlotMirrored(h, slots, b, v, f.offset);
    var x := Slots(v)[f.offset];
    var run := E.WalkUnion(h, slots, f, s, tail, o);
    match t {
      case VTable(i) =>
        if x.TableVal? {
          ChildMirrors(h, slots, b, v, f.offset);
          TableIsNoNull(x, i, s, rd);
          TableAgrees(h, TableAtSlot(h, slots, f.offset).value, slots[f.offset].node, x, i, s, tail, path, o, rd, doc);
        } else {
          NullAgrees(run, Answered, path);
        }
      case VStruct(def) =>
        if x.StructVal? {
          StructIsNoNull(x.bytes, 0, def);
          StructAgrees(x.bytes, 0, def, tail, path, doc);
        } else {
          NullAgrees(run, Answered, path);
        }
      case VString => NothingRan(run, VariantVerdict(s, t, tail, doc), Select(doc, path));
    }
  }

  // Vectors.

  lemma {:induction false} VectorFieldAgrees(h: Heap, slots: map<nat, Slot>, b: nat, v: Val, f: Field, s: Schema,
                                             tail: seq<Q.Step>, path: seq<Q.Step>,
                                             o: E.ExecOptions, rd: KeyReader, member: Option<J.Value>,
                                             tag: Option<J.Value>)
    requires f.typ.Vector? && Backward(h) && Mirrors(h, slots, b, v) && NamedApart(s) && o.fillDefaults
      && o.reader == rd
    requires SpellsBelow(s, f, tail, path) && LookupsBelow(Listed, h, slots, f, s, tail, o)
    requires MemberOf(v, f, s, rd) == Ok(member) && TagSeen(v, f, tag)
    ensures Agrees(E.WalkField(h, slots, f, s, tail, o), FieldVerdict(s, f, tail, member, tag),
      SelectMember(member, path))
    decreases |tail|, 2, 0
  {
    hide E.WalkIndex, E.WalkAll, E.WalkMapKey, ToJson.ReadVector, Agrees, Select, Mirrors, Backward, NamedApart,
      BodyAtSlot, VectorAtSlot, VectorVerdict,
      LookupsInVector, SpellsKey, SpellsVector;
    var run := E.WalkField(h, slots, f, s, tail, o);
    var vals := SelectMember(member, path);
    SlotMirrored(h, slots, b, v, f.offset);
    if tail == [] {
      NoVectorLeaf(h, slots, f, s, o);
      NothingRan(run, Refused, vals);
    } else if tail[0].MapKey? {
      KeyStep(s, f, tail, path);
      KeyLookupAgrees(h, slots, b, v, f, s, tail, path, o, rd, member);
    } else if f.offset !in slots {
      VectorStep(s, f, tail, path);
      NoVector(h, slots, f, s, tail, path, o);
    } else {
      var x := Slots(v)[f.offset];
      VectorStep(s, f, tail, path);
      LookupsOfStep(h, slots, f, s, tail, o);
      match f.typ.elem {
        case EStruct(def) => StructVectorAgrees(h, slots, f, def, x, s, tail, path, o, rd, member.value);
        case ETable(t) => TableVectorAgrees(h, slots, b, v, f, t, s, tail, path, o, rd, member.value);
        case EOther =>
          NoOther(x, f.hex, s, rd);
          assert false;
        case _ =>
          if tail[1..] == [] {
            LeafVectorAgrees(h, slots, b, v, f, s, tail, path, o, rd, member.value);
          } else {
            NothingBelowLeaves(h, slots, f, s, tail, o, member);
            NothingRan(run, Refused, vals);
          }
      }
    }
  }

  /** Whatever the step, the elements it enters keep the promise about lookups. */
  lemma {:induction false} LookupsOfStep(h: Heap, slots: map<nat, Slot>, f: Field, s: Schema, tail: seq<Q.Step>,
                                         o: E.ExecOptions)
    requires tail != [] && LookupsBelow(Listed, h, slots, f, s, tail, o)
    ensures f.typ.Vector? && f.typ.elem.ETable? && VectorAtSlot(h, slots, f.offset).Some? ==>
              LookupsInVector(Listed, h, VectorAtSlot(h, slots, f.offset).value, f.typ.elem.index, s, tail[0],
                tail[1..], o)
  {
    hide LookupsInVector, LookupsInChild, VectorAtSlot;
  }

  lemma {:induction false} KeyStep(s: Schema, f: Field, tail: seq<Q.Step>, path: seq<Q.Step>)
    requires f.typ.Vector? && SpellsBelow(s, f, tail, path) && tail != [] && tail[0].MapKey?
    ensures SpellsKey(s, f.typ.elem, tail, path)
  {
    hide SpellsKey;
  }

  lemma {:induction false} NoVectorLeaf(h: Heap, slots: map<nat, Slot>, f: Field, s: Schema, o: E.ExecOptions)
    requires f.typ.Vector?
    ensures E.WalkField(h, slots, f, s, [], o).Err?
  {
    assert E.WalkVector(h, slots, f, f.typ.elem, s, [], o).Err?;
  }

  lemma {:induction false} NothingBelowLeaves(h: Heap, slots: map<nat, Slot>, f: Field, s: Schema, tail: seq<Q.Step>,
                                              o: E.ExecOptions, member: Option<J.Value>)
    requires f.typ.Vector? && (f.typ.elem.EScalar? || f.typ.elem.EString?)
    requires tail != [] && tail[1..] != [] && (tail[0].Index? || tail[0].All?)
    ensures E.WalkField(h, slots, f, s, tail, o).Err?
      && VectorVerdict(s, f.typ.elem, tail[0], tail[1..], member) == Refused
  {
    RunOfVector(h, slots, f, s, tail, o);
  }

  lemma {:induction false} NoOther(x: Val, hex: bool, s: Schema, rd: KeyReader)
    ensures ToJson.ReadVector(x, EOther, hex, s, rd).Err?
  {
  }

  lemma {:induction false} VectorStep(s: Schema, f: Field, tail: seq<Q.Step>, path: seq<Q.Step>)
    requires f.typ.Vector? && SpellsBelow(s, f, tail, path) && tail != [] && !tail[0].MapKey?
    ensures SpellsVector(s, f.typ.elem, tail, path) && SameStep(tail, path)
  {
  }

  lemma {:induction false} NoVector(h: Heap, slots: map<nat, Slot>, f: Field, s: Schema, tail: seq<Q.Step>,
                                    path: seq<Q.Step>, o: E.ExecOptions)
    requires f.typ.Vector? && f.offset !in slots && SameStep(tail, path)
    ensures Agrees(E.WalkField(h, slots, f, s, tail, o), VectorVerdict(s, f.typ.elem, tail[0], tail[1..], None),
      Missing(path))
  {
    hide E.WalkTable, E.WalkStruct, E.WalkField, TableVerdict, StructAnswers;
    RunOfVector(h, slots, f, s, tail, o);
    var run := VectorRun(h, slots, f, s, tail, o);
    if tail[0].Index? {
      assert run.Err? || run == Ok([None]);
    } else {
      assert run.Err? || run == Ok([]);
    }
  }

  /** The run over a present vector. */
  function VectorRun(h: Heap, slots: map<nat, Slot>, f: Field, s: Schema, tail: seq<Q.Step>, o: E.ExecOptions): E.Leaves
    requires f.typ.Vector? && tail != [] && (tail[0].Index? || tail[0].All?)
  {
    if tail[0].Index? then E.WalkIndex(h, slots, f, f.typ.elem, s, tail[0].index, tail[1..], o)
    else E.WalkAll(h, slots, f, f.typ.elem, s, tail[1..], o)
  }

  lemma {:induction false} RunOfVector(h: Heap, slots: map<nat, Slot>, f: Field, s: Schema, tail: seq<Q.Step>,
                                       o: E.ExecOptions)
    requires f.typ.Vector? && tail != [] && (tail[0].Index? || tail[0].All?)
    ensures E.WalkField(h, slots, f, s, tail, o) == VectorRun(h, slots, f, s, tail, o)
  {
    hide E.WalkIndex, E.WalkAll;
  }

  lemma {:induction false} SelectedItems(items: seq<J.Value>, path: seq<Q.Step>)
    requires path != []
    ensures path[0].All? ==> Select(J.Arr(items), path) == SelectEach(items[..|items|], path[1..])
    ensures path[0].Index? ==>
              Select(J.Arr(items), path) == if path[0].index < |items| then Select(items[path[0].index], path[1..])
                else [None]
  {
    hide SelectEach;
    assert items[..|items|] == items;
  }

  lemma {:induction false} StructsRead(body: seq<byte>, def: StructDef, n: nat)
    requires ReadStructs(body, def, n).Ok?
    ensures var docs := ReadStructs(body, def, n).value;
            |docs| == n && forall i: nat :: i < n ==>
              S.ReadStruct(body, 4 + Offset(i, def.bytesize), def) == Ok(docs[i])
    decreases n
  {
    hide S.ReadStruct, Offset;
    if n > 0 { StructsRead(body, def, n - 1); }
  }

  lemma {:induction false} StructVectorAgrees(h: Heap, slots: map<nat, Slot>, f: Field, def: StructDef, x: Val,
                                              s: Schema, tail: seq<Q.Step>,
                                              path: seq<Q.Step>, o: E.ExecOptions, rd: KeyReader, doc: J.Value)
    requires f.typ == Vector(EStruct(def)) && tail != [] && SpellsVector(s, EStruct(def), tail, path)
    requires SameStep(tail, path)
    requires BodyAtSlot(h, slots, f.offset) == Some(Body(x))
      && ToJson.ReadVector(x, EStruct(def), f.hex, s, rd) == Ok(doc)
    ensures Agrees(E.WalkField(h, slots, f, s, tail, o), VectorVerdict(s, EStruct(def), tail[0], tail[1..], Some(doc)),
      Select(doc, path))
    decreases |tail|, 1, 0
  {
    hide S.ReadStruct, Offset, E.WalkStruct, E.FanStructs, Agrees, Select, SelectEach, SpellsStruct, Body, BodyAtSlot,
      ReadStructs, E.WalkField, Unsigned, Window, StructAnswers;
    var body := Body(x);
    var n := Count(body);
    RunOfVector(h, slots, f, s, tail, o);
    StructsRead(body, def, n);
    SelectedItems(doc.items, path);
    var run := E.WalkField(h, slots, f, s, tail, o);
    if tail[1..] == [] || (def.bytesize == 0 && run.Err?) {
      NothingRan(run, Refused, Select(doc, path));
    } else if tail[0].Index? {
      if tail[0].index < n {
        StructAgrees(body, 4 + Offset(tail[0].index, def.bytesize), def, tail[1..], path[1..],
          doc.items[tail[0].index]);
      } else {
        NoneMissing(run, Answered, Select(doc, path));
      }
    } else {
      StructsFanAgrees(body, def, n, tail[1..], path[1..], doc.items);
    }
  }

  lemma {:induction false} StructsFanAgrees(body: seq<byte>, def: StructDef, n: nat, tail: seq<Q.Step>,
                                            path: seq<Q.Step>, docs: seq<J.Value>)
    requires SpellsStruct(def, tail, path) && n <= |docs|
    requires forall i: nat :: i < |docs| ==> S.ReadStruct(body, 4 + Offset(i, def.bytesize), def) == Ok(docs[i])
    ensures Agrees(E.FanStructs(body, def, n, tail), Of(n == 0 || StructAnswers(def, tail)),
      SelectEach(docs[..n], path))
    decreases |tail|, 1, n
  {
    hide S.ReadStruct, Offset, E.WalkStruct, Agrees, Select, SelectEach, SpellsStruct, StructAnswers;
    if n == 0 {
      EachStep(docs, 0, path);
      NoneRan(E.FanStructs(body, def, 0, tail));
    } else {
      EachStep(docs, n - 1, path);
      StructsFanAgrees(body, def, n - 1, tail, path, docs);
      var at := 4 + Offset(n - 1, def.bytesize);
      StructAgrees(body, at, def, tail, path, docs[n - 1]);
      AgreeConcat(E.FanStructs(body, def, n - 1, tail), E.WalkStruct(body, at, def, tail),
        E.FanStructs(body, def, n, tail),
                  Of(n == 1 || StructAnswers(def, tail)), Of(StructAnswers(def, tail)),
                    SelectEach(docs[..n - 1], path), Select(docs[n - 1], path));
    }
  }

  lemma {:induction false} TablesRead(x: Val, n: nat, t: nat, s: Schema, rd: KeyReader)
    requires n <= |Items(x)| && ReadTables(x, n, t, s, rd).Ok?
    ensures var docs := ReadTables(x, n, t, s, rd).value;
            |docs| == n && forall i: nat :: i < n ==> ReadTable(Items(x)[i], t, s, rd) == Ok(docs[i])
    decreases n
  {
    hide ReadTable, Items;
    if n > 0 { TablesRead(x, n - 1, t, s, rd); }
  }

  lemma {:induction false} TableVectorAgrees(h: Heap, slots: map<nat, Slot>, b: nat, v: Val, f: Field, t: nat,
                                             s: Schema, tail: seq<Q.Step>,
                                             path: seq<Q.Step>, o: E.ExecOptions, rd: KeyReader, doc: J.Value)
    requires Backward(h) && Mirrors(h, slots, b, v) && NamedApart(s) && o.fillDefaults && o.reader == rd
    requires f.typ == Vector(ETable(t)) && tail != [] && SpellsVector(s, ETable(t), tail, path) && SameStep(tail, path)
    requires f.offset in slots && f.offset in Slots(v)
      && ToJson.ReadVector(Slots(v)[f.offset], ETable(t), f.hex, s, rd) == Ok(doc)
    requires VectorAtSlot(h, slots, f.offset).Some? ==>
      LookupsInVector(Listed, h, VectorAtSlot(h, slots, f.offset).value, t, s, tail[0], tail[1..], o)
    ensures Agrees(E.WalkField(h, slots, f, s, tail, o), VectorVerdict(s, ETable(t), tail[0], tail[1..], Some(doc)),
      Select(doc, path))
    decreases |tail|, 1, 0
  {
    hide ReadTable, ReadTables, E.WalkTable, E.FanTables, Agrees, Select, SelectEach, Spells, E.WalkField, SlotsAt,
      Mirrors, Backward, NamedApart,
         VectorAtSlot, ElementsMirror, Items, TableAt, KeyedField, TableVerdict, EachVerdict, GoodLookups;
    var x := Slots(v)[f.offset];
    var items, nb := VectorMirrored(h, slots, b, v, f.offset);
    MirrorLength(h, items, nb, Items(x));
    RunOfVector(h, slots, f, s, tail, o);
    TablesRead(x, |Items(x)|, t, s, rd);
    SelectedItems(doc.items, path);
    var run := E.WalkField(h, slots, f, s, tail, o);
    if tail[0].Index? && tail[0].index >= |items| {
      NoneMissing(run, Answered, Select(doc, path));
    } else if tail[1..] == [] {
      NothingRan(run, Refused, Select(doc, path));
    } else if tail[0].Index? {
      ElementTableAgrees(h, items, nb, Items(x), tail[0].index, t, s, tail[1..], path[1..], o, rd,
        doc.items[tail[0].index]);
    } else {
      TablesFanAgrees(h, items, nb, Items(x), |items|, t, s, tail[1..], path[1..], o, rd, doc.items);
      assert doc.items[..|items|] == doc.items;
    }
  }

  lemma {:induction false} ElementTableAgrees(h: Heap, items: seq<Slot>, nb: nat, vals: seq<Val>, i: nat, t: nat,
                                              s: Schema, tail: seq<Q.Step>,
                                              path: seq<Q.Step>, o: E.ExecOptions, rd: KeyReader, doc: J.Value)
    requires Backward(h) && ElementsMirror(h, items, nb, vals) && NamedApart(s) && o.fillDefaults && o.reader == rd
    requires i < |items| && i < |vals| && Spells(s, t, tail, path) && ReadTable(vals[i], t, s, rd) == Ok(doc)
    requires GoodLookups(Listed, h, SlotsAt(h, items[i]), t, s, tail, o)
    ensures tail != [] && Agrees(E.WalkTable(h, SlotsAt(h, items[i]), t, s, tail, o), TableVerdict(s, t, tail, doc),
      Select(doc, path))
    decreases |tail|, 1, 0
  {
    hide ReadTable, E.WalkTable, Agrees, Select, Spells, SlotsAt, Mirrors, Backward, NamedApart, UnfoldSlot,
      TableVerdict, GoodLookups;
    SpelledField(s, t, tail, path);
    MirrorsNode(h, items[i], nb);
    TableAgrees(h, SlotsAt(h, items[i]), if items[i].Ref? then items[i].node
      else 0, vals[i], t, s, tail, path, o, rd, doc);
  }

  lemma {:induction false} TablesFanAgrees(h: Heap, items: seq<Slot>, nb: nat, vals: seq<Val>, n: nat, t: nat,
                                           s: Schema, tail: seq<Q.Step>,
                                           path: seq<Q.Step>, o: E.ExecOptions, rd: KeyReader, docs: seq<J.Value>)
    requires Backward(h) && ElementsMirror(h, items, nb, vals) && NamedApart(s) && o.fillDefaults && o.reader == rd
    requires tail != [] && n <= |items| == |vals| == |docs| && Spells(s, t, tail, path)
    requires forall i :: 0 <= i < |items| ==> GoodLookups(Listed, h, SlotsAt(h, items[i]), t, s, tail, o)
    requires forall i: nat :: i < |docs| ==> ReadTable(vals[i], t, s, rd) == Ok(docs[i])
    ensures Agrees(E.FanTables(h, items, n, t, s, tail, o), EachVerdict(s, t, tail, docs[..n]),
      SelectEach(docs[..n], path))
    decreases |tail|, 2, n
  {
    hide ReadTable, E.WalkTable, Agrees, Select, SelectEach, Spells, SlotsAt, Backward, NamedApart, ElementsMirror,
      TableVerdict, GoodLookups;
    if n == 0 {
      EachStep(docs, 0, path);
      NoneRan(E.FanTables(h, items, 0, t, s, tail, o));
    } else {
      EachStep(docs, n - 1, path);
      TablesFanAgrees(h, items, nb, vals, n - 1, t, s, tail, path, o, rd, docs);
      ElementTableAgrees(h, items, nb, vals, n - 1, t, s, tail, path, o, rd, docs[n - 1]);
      AgreeConcat(E.FanTables(h, items, n - 1, t, s, tail, o), E.WalkTable(h, SlotsAt(h, items[n - 1]), t, s, tail, o),
                  E.FanTables(h, items, n, t, s, tail, o), EachVerdict(s, t, tail, docs[..n - 1]),
                    TableVerdict(s, t, tail, docs[n - 1]),
                  SelectEach(docs[..n - 1], path), Select(docs[n - 1], path));
      assert docs[..n][..n - 1] == docs[..n - 1];
    }
  }

  // Rows of a keyed vector.

  /** Both readers see one key of a row. */
  lemma {:induction false} KeySeen(h: Heap, item: Slot, nb: nat, x: Val, kf: Field, rd: KeyReader)
    requires Backward(h) && nb <= |h| && (item.Ref? ==> item.node < nb) && x == UnfoldSlot(h, item, nb)
    ensures E.ElementKey(h, SlotsAt(h, item), kf, rd) == RowKey(x, kf, rd)
  {
    hide AbsentText, ScalarText, UnfoldSlot, SlotsAt;
    MirrorsNode(h, item, nb);
    var slots := SlotsAt(h, item);
    var b := if item.Ref? then item.node else 0;
    if kf.offset in slots {
      UnfoldedScalar(h, slots[kf.offset], b);
      SlotMirrored(h, slots, b, x, kf.offset);
    }
  }

  lemma {:induction false} KeysSeen(h: Heap, items: seq<Slot>, nb: nat, vals: seq<Val>, kf: Field, rd: KeyReader)
    requires Backward(h) && ElementsMirror(h, items, nb, vals)
    ensures |vals| == |items| && forall i :: 0 <= i < |items| ==> E.Keys(h, items, kf, rd)[i] == RowKey(vals[i], kf, rd)
  {
    hide E.ElementKey, RowKey, SlotsAt, UnfoldSlot, Backward;
    forall i | 0 <= i < |items| ensures E.Keys(h, items, kf, rd)[i] == RowKey(vals[i], kf, rd) {
      KeySeen(h, items[i], nb, vals[i], kf, rd);
    }
  }

  predicate DistinctTexts(keys: seq<string>) {
    forall i, j :: 0 <= i < j < |keys| ==> keys[i] != keys[j]
  }

  lemma {:induction false} AscendingIsDistinct(keys: seq<string>, isText: bool)
    requires M.Ascending(keys, isText)
    ensures DistinctTexts(keys)
  {
    hide Text.ParseI64;
    forall i, j | 0 <= i < j < |keys| ensures keys[i] != keys[j] { Text.LessTrichotomy(keys[i], keys[j]); }
  }

  /** Rows with distinct keys are the members of the document's object, each under its key. */
  lemma {:induction false} RowsRead(x: Val, n: nat, kf: Field, t: nat, s: Schema, rd: KeyReader, keys: seq<string>)
    requires n <= |Items(x)| == |keys| && DistinctTexts(keys) && ReadRows(x, n, kf, t, s, rd).Ok?
    requires forall i :: 0 <= i < |keys| ==> keys[i] == RowKey(Items(x)[i], kf, rd)
    ensures var m := ReadRows(x, n, kf, t, s, rd).value;
            && (forall i :: 0 <= i < n ==> keys[i] in m && ReadTable(Items(x)[i], t, s, rd) == Ok(m[keys[i]]))
            && (forall k :: k in m ==> k in keys)
    decreases n
  {
    hide ReadTable, Items, RowKey;
    if n > 0 { RowsRead(x, n - 1, kf, t, s, rd, keys); }
  }

  predicate SupportedKeyType(kf: Field) {
    kf.typ.String? || E.IsIntegerKeyType(kf.typ)
  }

  /** The row a literal finds is the one listed under its name, and a literal that finds none has no name there. */
  lemma {:induction false} FoundUnderName(keys: seq<string>, kf: Field, text: string, o: E.ExecOptions)
    requires SupportedKeyType(kf) && GoodLookup(Listed, keys, kf, Q.KeyText(text))
    ensures var found := E.KeyIndex(keys, kf, Q.KeyText(text), o);
            && found.Ok? && found == E.Scan(keys, kf, Q.KeyText(text), 0)
            && (found.value.Some? ==> keys[found.value.value] == KeyName(kf, text))
            && (found.value.None? ==> KeyName(kf, text) !in keys)
  {
    hide E.StrictIndex, E.Scan, M.Ascending, Text.ParseI64, Text.Dec;
    M.BisectRefinesScan(keys, kf, Q.KeyText(text));
    M.ScanFindsFirst(keys, kf, Q.KeyText(text), 0);
    if kf.typ.String? { TextUnderName(keys, text); } else { NumberUnderName(keys, kf, text); }
  }

  lemma {:induction false} TextUnderName(keys: seq<string>, text: string)
    ensures var found := M.FirstEqual(keys, E.TextKey(text), 0);
      if found.Some? then keys[found.value] == text else text !in keys
  {
    hide Text.Less;
    forall i | 0 <= i < |keys| ensures E.Compare(keys[i], E.TextKey(text)) == E.Equal <==> keys[i] == text {
      Text.LessTrichotomy(keys[i], text);
    }
  }

  lemma {:induction false} NumberUnderName(keys: seq<string>, kf: Field, text: string)
    requires !kf.typ.String? && CanonicalKeys(keys)
    ensures Text.ParseI64(text).None? ==> KeyName(kf, text) !in keys
    ensures Text.ParseI64(text).Some? ==>
              var found := M.FirstEqual(keys, E.IntKey(Text.ParseI64(text).value), 0);
              if found.Some? then keys[found.value] == KeyName(kf, text) else KeyName(kf, text) !in keys
  {
    hide Text.Dec;
    if Text.ParseI64(text).Some? { Text.ParseDec(Text.ParseI64(text).value); }
  }

  lemma {:induction false} RunOfKey(h: Heap, slots: map<nat, Slot>, f: Field, t: nat, s: Schema, tail: seq<Q.Step>,
                                    o: E.ExecOptions)
    requires f.typ == Vector(ETable(t)) && tail != [] && tail[0].MapKey?
    ensures E.WalkField(h, slots, f, s, tail, o) == E.WalkMapKey(h, slots, f, ETable(t), s, tail[0].key, tail[1..], o)
  {
    hide E.WalkMapKey;
  }

  /** Looking up a row and walking on is selecting under the row's name in the document's object. */
  lemma {:induction false} KeyLookupAgrees(h: Heap, slots: map<nat, Slot>, b: nat, v: Val, f: Field, s: Schema,
                                           tail: seq<Q.Step>, path: seq<Q.Step>,
                                           o: E.ExecOptions, rd: KeyReader, member: Option<J.Value>)
    requires f.typ.Vector? && Backward(h) && Mirrors(h, slots, b, v) && NamedApart(s) && o.fillDefaults
      && o.reader == rd
    requires tail != [] && tail[0].MapKey? && SpellsKey(s, f.typ.elem, tail, path)
      && LookupsBelow(Listed, h, slots, f, s, tail, o)
    requires MemberOf(v, f, s, rd) == Ok(member)
    ensures Agrees(E.WalkField(h, slots, f, s, tail, o), VectorVerdict(s, f.typ.elem, tail[0], tail[1..], member),
      SelectMember(member, path))
    decreases |tail|, 1, 0
  {
    hide E.WalkMapKey, ToJson.ReadVector, Agrees, Select, Mirrors, Backward, NamedApart, VectorAtSlot, LookupsInVector,
      Spells, TableAt, E.LookupKeyedField,
      KeyVerdict;
    var run := E.WalkField(h, slots, f, s, tail, o);
    var t := f.typ.elem.index;
    var kf := E.LookupKeyedField(TableAt(s, t).fields).value;
    RunOfKey(h, slots, f, t, s, tail, o);
    SlotMirrored(h, slots, b, v, f.offset);
    LookupsOfStep(h, slots, f, s, tail, o);
    if tail[1..] == [] || f.offset !in slots {
      NoRows(h, slots, f, t, s, tail, o);
      KeyVerdictOfNone(s, t, tail[0].key, tail[1..], member);
      if tail[1..] == [] {
        NothingRan(run, Refused, SelectMember(member, path));
      } else {
        NoneMissing(run, Answered, SelectMember(member, path));
      }
    } else {
      var items, nb := VectorMirrored(h, slots, b, v, f.offset);
      RowAgrees(h, slots, f, items, nb, Slots(v)[f.offset], t, kf, s, tail, path, o, rd, member.value);
    }
  }

  lemma {:induction false} NoRows(h: Heap, slots: map<nat, Slot>, f: Field, t: nat, s: Schema, tail: seq<Q.Step>,
                                  o: E.ExecOptions)
    requires f.typ == Vector(ETable(t)) && tail != [] && tail[0].MapKey? && E.LookupKeyedField(TableAt(s, t).fields).Ok?
    ensures var run := E.WalkMapKey(h, slots, f, ETable(t), s, tail[0].key, tail[1..], o);
            && (tail[1..] == [] ==> run.Err?)
            && (tail[1..] != [] && f.offset !in slots ==> run == Ok([None]))
  {
    hide TableAt, E.LookupKeyedField;
  }

  lemma {:induction false} KeyVerdictOfNone(s: Schema, t: nat, key: Q.MapKey, rest: seq<Q.Step>,
                                            member: Option<J.Value>)
    requires key.KeyText? && E.LookupKeyedField(TableAt(s, t).fields).Ok?
    ensures rest == [] ==> KeyVerdict(s, ETable(t), key, rest, member) == Refused
    ensures rest != [] && member.None? ==> KeyVerdict(s, ETable(t), key, rest, member) == Answered
  {
    hide TableAt, E.LookupKeyedField;
  }

  lemma {:induction false} RowAgrees(h: Heap, slots: map<nat, Slot>, f: Field, items: seq<Slot>, nb: nat, x: Val,
                                     t: nat, kf: Field, s: Schema, tail: seq<Q.Step>,
                                     path: seq<Q.Step>, o: E.ExecOptions, rd: KeyReader, doc: J.Value)
    requires Backward(h) && ElementsMirror(h, items, nb, Items(x)) && NamedApart(s) && o.fillDefaults && o.reader == rd
    requires f.typ == Vector(ETable(t)) && tail != [] && tail[0].MapKey? && tail[1..] != []
      && SpellsKey(s, ETable(t), tail, path)
    requires E.LookupKeyedField(TableAt(s, t).fields) == Ok(kf) && VectorAtSlot(h, slots, f.offset) == Some(items)
    requires LookupsInVector(Listed, h, items, t, s, tail[0], tail[1..], o)
      && ToJson.ReadVector(x, ETable(t), f.hex, s, rd) == Ok(doc)
    ensures Agrees(E.WalkField(h, slots, f, s, tail, o), KeyVerdict(s, ETable(t), tail[0].key, tail[1..], Some(doc)),
      Select(doc, path))
    decreases |tail|, 0, 0
  {
    hide *;
    SpelledKey(s, t, kf, tail, path);
    var text := tail[0].key.text;
    var keys := E.Keys(h, items, kf, rd);
    KeysSeen(h, items, nb, Items(x), kf, rd);
    LookupsOfKey(h, items, t, kf, s, tail, o);
    FoundUnderName(keys, kf, text, o);
    AscendingOfGood(keys, kf, text);
    KeyedObject(x, t, kf, f.hex, s, rd, doc);
    RowsRead(x, |Items(x)|, kf, t, s, rd, keys);
    RunOfKey(h, slots, f, t, s, tail, o);
    RunOfRow(h, slots, f, items, t, kf, s, text, tail[1..], o);
    KeyVerdictOfRow(s, t, kf, tail[0].key, tail[1..], doc);
    SelectedRow(doc, KeyName(kf, text), path);
    var found := E.KeyIndex(keys, kf, Q.KeyText(text), o).value;
    if found.None? {
      NoneMissing(E.WalkField(h, slots, f, s, tail, o), Answered, Select(doc, path));
    } else {
      RowLookups(h, items, t, kf, s, tail, o, found.value);
      ElementTableAgrees(h, items, nb, Items(x), found.value, t, s, tail[1..], path[1..], o, rd,
        doc.m[KeyName(kf, text)]);
    }
  }

  lemma {:induction false} SpelledKey(s: Schema, t: nat, kf: Field, tail: seq<Q.Step>, path: seq<Q.Step>)
    requires tail != [] && tail[0].MapKey? && tail[1..] != [] && SpellsKey(s, ETable(t), tail, path)
    requires E.LookupKeyedField(TableAt(s, t).fields) == Ok(kf)
    ensures tail[0].key.KeyText? && SupportedKeyType(kf) && path != [] && NamesKey(path, KeyName(kf, tail[0].key.text))
      && Spells(s, t, tail[1..], path[1..])
  {
    hide Spells, TableAt, E.LookupKeyedField;
  }

  lemma {:induction false} LookupsOfKey(h: Heap, items: seq<Slot>, t: nat, kf: Field, s: Schema, tail: seq<Q.Step>,
                                        o: E.ExecOptions)
    requires tail != [] && tail[0].MapKey? && tail[0].key.KeyText? && tail[1..] != []
    requires E.LookupKeyedField(TableAt(s, t).fields) == Ok(kf)
      && LookupsInVector(Listed, h, items, t, s, tail[0], tail[1..], o)
    ensures GoodLookup(Listed, E.Keys(h, items, kf, o.reader), kf, Q.KeyText(tail[0].key.text))
  {
    hide GoodLookup, LookupsInRow, TableAt, E.LookupKeyedField;
  }

  lemma {:induction false} RowLookups(h: Heap, items: seq<Slot>, t: nat, kf: Field, s: Schema, tail: seq<Q.Step>,
                                      o: E.ExecOptions, i: nat)
    requires tail != [] && tail[0].MapKey? && tail[0].key.KeyText? && tail[1..] != [] && i < |items|
    requires E.LookupKeyedField(TableAt(s, t).fields) == Ok(kf)
      && LookupsInVector(Listed, h, items, t, s, tail[0], tail[1..], o)
    requires E.Scan(E.Keys(h, items, kf, o.reader), kf, Q.KeyText(tail[0].key.text), 0) == Ok(Some(i))
    ensures GoodLookups(Listed, h, SlotsAt(h, items[i]), t, s, tail[1..], o)
  {
    hide GoodLookup, GoodLookups, TableAt, E.LookupKeyedField, E.Scan, E.Keys;
  }

  lemma {:induction false} AscendingOfGood(keys: seq<string>, kf: Field, text: string)
    requires GoodLookup(Listed, keys, kf, Q.KeyText(text))
    ensures DistinctTexts(keys)
  {
    hide M.Ascending, DistinctTexts;
    AscendingIsDistinct(keys, kf.typ.String?);
  }

  lemma {:induction false} KeyedObject(x: Val, t: nat, kf: Field, hex: bool, s: Schema, rd: KeyReader, doc: J.Value)
    requires E.LookupKeyedField(TableAt(s, t).fields) == Ok(kf)
      && ToJson.ReadVector(x, ETable(t), hex, s, rd) == Ok(doc)
    ensures doc.Obj? && ReadRows(x, |Items(x)|, kf, t, s, rd) == Ok(doc.m)
  {
    hide ReadRows, TableAt;
  }

  lemma {:induction false} RunOfRow(h: Heap, slots: map<nat, Slot>, f: Field, items: seq<Slot>, t: nat, kf: Field,
                                    s: Schema, text: string, rest: seq<Q.Step>,
                                    o: E.ExecOptions)
    requires rest != [] && E.LookupKeyedField(TableAt(s, t).fields) == Ok(kf)
      && VectorAtSlot(h, slots, f.offset) == Some(items)
    requires E.KeyIndex(E.Keys(h, items, kf, o.reader), kf, Q.KeyText(text), o).Ok?
    ensures var found := E.KeyIndex(E.Keys(h, items, kf, o.reader), kf, Q.KeyText(text), o).value;
            E.WalkMapKey(h, slots, f, ETable(t), s, Q.KeyText(text), rest, o) ==
            if found.None? then Ok([None]) else E.WalkTable(h, SlotsAt(h, items[found.value]), t, s, rest, o)
  {
    hide E.WalkTable, E.KeyIndex, E.Keys, TableAt, E.LookupKeyedField;
  }

  lemma {:induction false} KeyVerdictOfRow(s: Schema, t: nat, kf: Field, key: Q.MapKey, rest: seq<Q.Step>, doc: J.Value)
    requires key.KeyText? && rest != [] && E.LookupKeyedField(TableAt(s, t).fields) == Ok(kf) && doc.Obj?
    ensures KeyVerdict(s, ETable(t), key, rest, Some(doc)) ==
            if KeyName(kf, key.text) in doc.m then TableVerdict(s, t, rest, doc.m[KeyName(kf, key.text)]) else Answered
  {
    hide TableVerdict, TableAt, E.LookupKeyedField, KeyName;
  }

  lemma {:induction false} SelectedRow(doc: J.Value, name: string, path: seq<Q.Step>)
    requires path != [] && NamesKey(path, name) && doc.Obj?
    ensures Select(doc, path) == if name in doc.m then Select(doc.m[name], path[1..]) else [None]
  {
  }

  // Vectors of leaves.

  /** Element for element, the text is the document's value. */
  lemma {:induction false} LeafElementShows(h: Heap, item: Slot, nb: nat, el: ElementType, x: Val, doc: J.Value)
    requires LeafElement(el) && nb <= |h| && x == UnfoldSlot(h, item, nb) && (item.Ref? ==> item.node < nb)
    requires el.EScalar? ==> ScalarJson(el.st, None, ItemScalar(x, el.st)) == Ok(doc)
    requires el.EString? ==> doc == J.Str(if x.StringVal? then x.s else "")
    ensures Shows(E.ElementLeaf(h, item, el), doc) && !doc.Null?
  {
    hide ScalarJson, Fits, ZeroScalar, E.ScalarLeaf, Shows;
    UnfoldedScalar(h, item, nb);
    if el.EScalar? {
      FittingIsPrintable(el.st, ItemScalar(x, el.st));
      ScalarShows(el.st, ItemScalar(x, el.st), doc);
      NumberIsNotNull(el.st, ItemScalar(x, el.st));
    } else {
      TextShows(E.ElementLeaf(h, item, el).text);
    }
  }

  lemma {:induction false} TextShows(text: string)
    ensures Shows(E.Plain(text), J.Str(text))
  {
  }

  lemma {:induction false} ScalarsRead(vals: seq<Val>, st: ScalarType)
    requires ReadScalars(vals, st, None).Ok?
    ensures var docs := ReadScalars(vals, st, None).value;
            |docs| == |vals| && forall i :: 0 <= i < |vals| ==>
              ScalarJson(st, None, ItemScalar(vals[i], st)) == Ok(docs[i])
  {
    hide ScalarJson, ItemScalar;
    if vals != [] { ScalarsRead(vals[..|vals| - 1], st); }
  }

  /** The document's array of a vector of leaves. */
  lemma {:induction false} LeavesRead(x: Val, el: ElementType, hex: bool, s: Schema, rd: KeyReader, doc: J.Value)
    requires LeafElement(el) && ToJson.ReadVector(x, el, hex, s, rd) == Ok(doc)
    ensures doc.Arr? && |doc.items| == |Items(x)|
    ensures forall i :: 0 <= i < |doc.items| && el.EScalar? ==>
      ScalarJson(el.st, None, ItemScalar(Items(x)[i], el.st)) == Ok(doc.items[i])
    ensures forall i :: 0 <= i < |doc.items| && el.EString? ==>
      doc.items[i] == J.Str(if Items(x)[i].StringVal? then Items(x)[i].s else "")
  {
    hide ScalarJson, ItemScalar, ReadScalars;
    if el.EScalar? {
      assert ElementEnumNone(el);
      ScalarsRead(Items(x), el.st);
    }
  }

  predicate ElementEnumNone(el: ElementType) {
    el.EScalar? && !(el.st.Int? && el.en.Some?)
  }

  lemma {:induction false} LeafVectorAgrees(h: Heap, slots: map<nat, Slot>, b: nat, v: Val, f: Field, s: Schema,
                                            tail: seq<Q.Step>, path: seq<Q.Step>,
                         o: E.ExecOptions, rd: KeyReader, doc: J.Value)
    requires Backward(h) && Mirrors(h, slots, b, v)
    requires f.typ.Vector? && LeafElement(f.typ.elem) && tail != [] && SpellsVector(s, f.typ.elem, tail, path)
    requires SameStep(tail, path) && tail[1..] == []
    requires f.offset in slots && f.offset in Slots(v)
      && ToJson.ReadVector(Slots(v)[f.offset], f.typ.elem, f.hex, s, rd) == Ok(doc)
    ensures Agrees(E.WalkField(h, slots, f, s, tail, o), VectorVerdict(s, f.typ.elem, tail[0], tail[1..], Some(doc)),
      Select(doc, path))
  {
    hide ToJson.ReadVector, Agrees, Select, SelectEach, E.WalkField, Mirrors, Backward, VectorAtSlot, ElementsMirror,
      Items, E.ElementLeaf, ScalarJson, ItemScalar;
    var el := f.typ.elem;
    var x := Slots(v)[f.offset];
    var items, nb := VectorMirrored(h, slots, b, v, f.offset);
    MirrorLength(h, items, nb, Items(x));
    LeavesRead(x, el, f.hex, s, rd, doc);
    RunOfVector(h, slots, f, s, tail, o);
    SelectedItems(doc.items, path);
    forall i | 0 <= i < |items| ensures Shows(E.ElementLeaf(h, items[i], el), doc.items[i]) && !doc.items[i].Null? {
      MirrorAt(h, items, nb, Items(x), i);
      LeafElementShows(h, items[i], nb, el, Items(x)[i], doc.items[i]);
    }
    LeafRun(h, slots, f, items, s, tail, o);
    if tail[0].Index? {
      if tail[0].index < |items| {
        OneShows(E.ElementLeaf(h, items[tail[0].index], el), doc.items[tail[0].index],
          VectorRun(h, slots, f, s, tail, o));
      } else {
        NoneMissing(VectorRun(h, slots, f, s, tail, o), Answered, Select(doc, path));
      }
    } else {
      EveryShows(doc.items, |items|);
      AllLeavesAgree(h, items, el, doc.items, VectorRun(h, slots, f, s, tail, o));
    }
  }

  lemma {:induction false} LeafRun(h: Heap, slots: map<nat, Slot>, f: Field, items: seq<Slot>, s: Schema,
                                   tail: seq<Q.Step>, o: E.ExecOptions)
    requires f.typ.Vector? && LeafElement(f.typ.elem) && VectorAtSlot(h, slots, f.offset) == Some(items)
    requires tail != [] && tail[1..] == [] && (tail[0].Index? || tail[0].All?)
    ensures var run := VectorRun(h, slots, f, s, tail, o);
            if tail[0].All? then run == Ok(seq(|items|,
              i requires 0 <= i < |items| => Some(E.ElementLeaf(h, items[i], f.typ.elem))))
            else run == Ok([if tail[0].index < |items| then Some(E.ElementLeaf(h, items[tail[0].index], f.typ.elem))
              else None])
  {
    hide E.ElementLeaf;
  }

  lemma {:induction false} OneShows(leaf: E.Leaf, doc: J.Value, run: E.Leaves)
    requires Shows(leaf, doc) && !doc.Null? && run == Ok([Some(leaf)])
    ensures Agrees(run, Answered, Select(doc, []))
  {
    hide Shows;
  }

  lemma {:induction false} EveryShows(docs: seq<J.Value>, n: nat)
    requires n <= |docs| && forall i :: 0 <= i < |docs| ==> !docs[i].Null?
    ensures SelectEach(docs[..n], []) == seq(n, i requires 0 <= i < n => Some(docs[i]))
  {
    if n > 0 {
      EveryShows(docs, n - 1);
      EachStep(docs, n - 1, []);
    } else {
      EachStep(docs, 0, []);
    }
  }

  lemma {:induction false} AllLeavesAgree(h: Heap, items: seq<Slot>, el: ElementType, docs: seq<J.Value>, run: E.Leaves)
    requires |items| == |docs| && forall i :: 0 <= i < |items| ==>
      Shows(E.ElementLeaf(h, items[i], el), docs[i]) && !docs[i].Null?
    requires run == Ok(seq(|items|, i requires 0 <= i < |items| => Some(E.ElementLeaf(h, items[i], el))))
    ensures Agrees(run, Answered, seq(|docs|, i requires 0 <= i < |docs| => Some(docs[i])))
  {
    hide Shows, E.ElementLeaf;
  }

  lemma {:induction false} RootSlot(h: Heap, root: nat)
    ensures UnfoldSlot(h, Ref(root), root + 1) == Unfold(h, root)
  {
  }
}
