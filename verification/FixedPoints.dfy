/**
 When the canonical form of a document is its own canonical form, that is, when putting it through both
 converters again gives the same document.

 It is exactly if the document is `Kept`: every default that is filled in returns, and the last row under
 each key has a key that returns and, if that key is a string, says it. A row without its string key is
 listed under the key reader's text for an absent key, and reading it back puts that text into the row.

 Both directions go down the document together. A canonical table's members are exactly what its fields
 contributed, so the table is a fixed point exactly if each field's contribution is one. The rows of a
 canonical object are read as entries, each under its own key again, so the object is a fixed point exactly
 if each entry's canonical form is the row it came from.
 */
module FixedPoints {
  import opened Wrappers
  import opened Schema
  import opened Scalars
  import opened StructJson
  import opened KeyText
  import opened FromJson
  import opened ToJson
  import opened Canon
  import opened Idempotence
  import opened RowKeys
  import R = RoundTrip
  import SR = SameReaders
  import J = Json

  // Documents.

  ghost predicate Kept(v: J.Value, t: nat, s: Schema, rd: KeyReader)
    decreases J.Height(v), 2
  {
    v.Obj? && forall i :: 0 <= i < |TableAt(s, t).fields| ==> KeptAt(v, TableAt(s, t).fields[i], s, rd)
  }

  ghost predicate KeptAt(v: J.Value, f: Field, s: Schema, rd: KeyReader)
    requires v.Obj?
    decreases J.Height(v), 1
  {
    if f.typ.Union? then
      ActiveTable(v.m, f.name, f.typ.variants).Some? ==>
        (J.MemberHeight(v.m, f.name);
         Kept(v.m[f.name], ActiveTable(v.m, f.name, f.typ.variants).value, s, rd))
    else if J.Present(v.m, f.name).Some? then
      J.MemberHeight(v.m, f.name);
      KeptValue(v.m[f.name], f.typ, s, rd)
    else DefaultReturns(f)
  }

  ghost predicate KeptValue(x: J.Value, typ: FieldType, s: Schema, rd: KeyReader)
    decreases J.Height(x), 4
  {
    match typ
    case Table(t) => Kept(x, t, s, rd)
    case Vector(ETable(t)) => KeptRows(x, t, s, rd)
    case _ => true
  }

  ghost predicate KeptRows(x: J.Value, t: nat, s: Schema, rd: KeyReader)
    decreases J.Height(x), 3
  {
    match KeyedField(TableAt(s, t).fields)
    case Some(kf) =>
      (x.Arr? || x.Obj?) && CanonInput(x, kf).Ok? ==>
        forall i :: 0 <= i < |CanonInput(x, kf).value| && IsLast(CanonInput(x, kf).value, i, kf, rd) ==>
          KeyKept(CanonInput(x, kf).value[i], kf, rd) && Kept(CanonInput(x, kf).value[i], t, s, rd)
    case None =>
      x.Arr? ==>
        (ItemHeights(x);
         forall i :: 0 <= i < |x.items| ==> Kept(x.items[i], t, s, rd))
  }

  /** The row's key returns, and a string key is there. */
  predicate KeyKept(row: J.Value, kf: Field, rd: KeyReader) {
    KeyReturns(row, kf, rd) && (kf.typ.String? ==> row.Obj? && J.Present(row.m, kf.name).Some?)
  }

  // Tables.

  /** A canonical table is a fixed point exactly if the document is kept. */
  lemma {:induction false} TableFixed(v: J.Value, t: nat, s: Schema, rd: KeyReader, c: J.Value)
    requires CanonSchema(s) && CanonTable(v, t, s, rd) == Ok(c)
    ensures CanonTable(c, t, s, rd) == Ok(c) <==> Kept(v, t, s, rd)
    decreases J.Height(v), 6, 0
  {
    hide *;
    TableShape(v, t, s, rd, c);
    var fields := TableAt(s, t).fields;
    R.ByIdMembers(fields);
    forall i | 0 <= i < |fields|
      ensures Member(c, fields[i], fields, s, rd) == Member(v, fields[i], fields, s, rd) <==>
              KeptAt(v, fields[i], s, rd)
    {
      var f := fields[i];
      GoodTypeAt(s, t, i);
      if IsDiscriminator(f, fields) {
        TagAddsNothing(v, f, fields, s, rd);
        TagAddsNothing(c, f, fields, s, rd);
        TagIsKept(v, f, fields, s, rd);
      } else {
        ContributedIn(v, t, s, rd, c, f);
        MemberFixed(v, c, f, fields, s, rd);
      }
    }
    KeptIff(v, t, s, rd);
    if Kept(v, t, s, rd) {
      forall f | f in fields ensures Member(c, f, fields, s, rd) == Member(v, f, fields, s, rd) {
        var i :| 0 <= i < |fields| && fields[i] == f;
      }
      SameMembers(v, c, ById(fields), fields, map[], s, rd);
      TableShapeBack(c, t, s, rd, c);
    }
    if CanonTable(c, t, s, rd) == Ok(c) {
      forall i | 0 <= i < |fields|
        ensures Member(c, fields[i], fields, s, rd) == Member(v, fields[i], fields, s, rd)
      {
        MembersAgree(v, c, t, s, rd, fields[i]);
      }
    }
  }

  lemma {:induction false} KeptIff(v: J.Value, t: nat, s: Schema, rd: KeyReader)
    requires v.Obj?
    ensures Kept(v, t, s, rd) <==>
            forall i :: 0 <= i < |TableAt(s, t).fields| ==> KeptAt(v, TableAt(s, t).fields[i], s, rd)
  {
    hide KeptAt, TableAt;
  }

  lemma {:induction false} TagIsKept(v: J.Value, f: Field, fields: seq<Field>, s: Schema, rd: KeyReader)
    requires v.Obj? && IsDiscriminator(f, fields)
    ensures KeptAt(v, f, s, rd)
  {
  }

  lemma {:induction false} ContributedIn(v: J.Value, t: nat, s: Schema, rd: KeyReader, c: J.Value, f: Field)
    requires CanonSchema(s) && v.Obj? && CanonTable(v, t, s, rd) == Ok(c) && f in TableAt(s, t).fields
      && !IsDiscriminator(f, TableAt(s, t).fields)
    ensures c.Obj? && Member(v, f, TableAt(s, t).fields, s, rd).Ok?
    ensures forall k :: Owns(f, k) ==> SameAt(c.m, Member(v, f, TableAt(s, t).fields, s, rd).value, k)
  {
    hide *;
    TableShape(v, t, s, rd, c);
    OwnsName(f);
    ContributedAt(v, t, s, rd, c, f, f.name);
    forall k | Owns(f, k) ensures SameAt(c.m, Member(v, f, TableAt(s, t).fields, s, rd).value, k) {
      ContributedAt(v, t, s, rd, c, f, k);
    }
  }

  /** In a fixed point every field contributes what it contributed to it. */
  lemma {:induction false} MembersAgree(v: J.Value, c: J.Value, t: nat, s: Schema, rd: KeyReader, f: Field)
    requires CanonSchema(s) && v.Obj? && c.Obj? && f in TableAt(s, t).fields
    requires CanonTable(v, t, s, rd) == Ok(c) && CanonTable(c, t, s, rd) == Ok(c)
    ensures Member(c, f, TableAt(s, t).fields, s, rd) == Member(v, f, TableAt(s, t).fields, s, rd)
  {
    hide *;
    var fields := TableAt(s, t).fields;
    if IsDiscriminator(f, fields) {
      TagAddsNothing(v, f, fields, s, rd);
      TagAddsNothing(c, f, fields, s, rd);
    } else {
      ContributedIn(v, t, s, rd, c, f);
      ContributedIn(c, t, s, rd, c, f);
      MemberMerges(v, f, fields, map[], s, rd);
      MemberMerges(c, f, fields, map[], s, rd);
      SameContribution(c, Member(c, f, fields, s, rd).value, Member(v, f, fields, s, rd).value, f);
    }
  }

  /** One member: the canonical document contributes what the document did exactly if the member is kept. */
  lemma {:induction false} MemberFixed(v: J.Value, c: J.Value, f: Field, fields: seq<Field>, s: Schema, rd: KeyReader)
    requires CanonSchema(s) && v.Obj? && c.Obj? && GoodType(f) && !IsDiscriminator(f, fields)
    requires Member(v, f, fields, s, rd).Ok?
    requires forall k :: Owns(f, k) ==> SameAt(c.m, Member(v, f, fields, s, rd).value, k)
    ensures Member(c, f, fields, s, rd) == Member(v, f, fields, s, rd) <==> KeptAt(v, f, s, rd)
    decreases J.Height(v), 5, 0
  {
    hide *;
    if f.typ.Union? {
      OwnsBoth(f);
      UnionIs(v, f, fields, s, rd);
      UnionIs(c, f, fields, s, rd);
      UnionFixed(v, c, f, s, rd);
    } else {
      OwnsName(f);
      PlainFixed(v, c, f, fields, s, rd);
    }
  }

  lemma {:induction false} PlainFixed(v: J.Value, c: J.Value, f: Field, fields: seq<Field>, s: Schema, rd: KeyReader)
    requires CanonSchema(s) && v.Obj? && c.Obj? && !f.typ.Union? && GoodType(f) && !IsDiscriminator(f, fields)
    requires Member(v, f, fields, s, rd).Ok? && SameAt(c.m, Member(v, f, fields, s, rd).value, f.name)
    ensures Member(c, f, fields, s, rd) == Member(v, f, fields, s, rd) <==> KeptAt(v, f, s, rd)
    decreases J.Height(v), 4, 0
  {
    hide *;
    PlainIs(v, f, fields, s, rd);
    PlainIs(c, f, fields, s, rd);
    if J.Present(v.m, f.name).Some? {
      PresentIn(v, f.name);
      J.MemberHeight(v.m, f.name);
      var j := CanonValue(v.m[f.name], f, s, rd).value;
      ValueFixed(v.m[f.name], f, s, rd, j);
      OneMember(c, f.name, j, Member(v, f, fields, s, rd).value);
      KeptPresent(v, f, s, rd);
      OneValue(f.name, CanonValue(j, f, s, rd), j);
    } else if f.typ.Scalar? {
      var j := ScalarJson(f.typ.st, f.typ.en, DefaultScalar(f.typ.st, f.defaultInt, f.defaultReal)).value;
      DefaultValueFixed(f, s, rd, j);
      OneMember(c, f.name, j, Member(v, f, fields, s, rd).value);
      KeptAbsent(v, f, s, rd);
      OneValue(f.name, CanonValue(j, f, s, rd), j);
    } else {
      MissingIsMissing(v, c, f, fields, s, rd);
      KeptAbsent(v, f, s, rd);
    }
  }

  lemma {:induction false} OneValue(name: string, r: Json, j: J.Value)
    ensures (if r.Err? then Err(r.error) else Ok(map[name := r.value])) == Ok(map[name := j]) <==> r == Ok(j)
  {
    if r.Ok? && map[name := r.value] == map[name := j] { assert map[name := r.value][name] == j; }
  }

  lemma {:induction false} KeptPresent(v: J.Value, f: Field, s: Schema, rd: KeyReader)
    requires v.Obj? && !f.typ.Union? && J.Present(v.m, f.name).Some?
    ensures KeptAt(v, f, s, rd) <==> KeptValue(v.m[f.name], f.typ, s, rd)
  {
    hide KeptValue;
  }

  lemma {:induction false} KeptAbsent(v: J.Value, f: Field, s: Schema, rd: KeyReader)
    requires v.Obj? && !f.typ.Union? && J.Present(v.m, f.name).None?
    ensures KeptAt(v, f, s, rd) <==> DefaultReturns(f)
    ensures !f.typ.Scalar? ==> DefaultReturns(f)
  {
  }

  lemma {:induction false} ValueFixed(x: J.Value, f: Field, s: Schema, rd: KeyReader, j: J.Value)
    requires CanonSchema(s) && GoodType(f) && !f.typ.Union? && !x.Null? && CanonValue(x, f, s, rd) == Ok(j)
    ensures !j.Null? && (CanonValue(j, f, s, rd) == Ok(j) <==> KeptValue(x, f.typ, s, rd))
    decreases J.Height(x), 7, 0
  {
    hide CanonTable, CanonVector, CanonStruct, EncodeScalar, ScalarJson, Effective, DefaultScalar, CanonSchema,
      GoodStruct, GoodEnum, Kept, KeptRows;
    match f.typ {
      case Scalar(_, _) => ScalarValueFixed(x, f, s, rd, j);
      case Struct(def) =>
        StructFixed(x, def, j);
        StructShown(x, def);
      case Table(t) =>
        TableFixed(x, t, s, rd, j);
        TableShape(x, t, s, rd, j);
      case Vector(el) => VectorFixed(x, el, f.hex, s, rd, j);
      case _ =>
    }
  }

  // Unions.

  /** A canonical union's pair is a fixed point exactly if the table it holds, if any, is kept. */
  lemma {:induction false} UnionFixed(v: J.Value, c: J.Value, f: Field, s: Schema, rd: KeyReader)
    requires CanonSchema(s) && v.Obj? && c.Obj? && f.typ.Union? && GoodType(f)
    requires CanonUnion(v, f, map[], s, rd).Ok?
    requires SameAt(c.m, CanonUnion(v, f, map[], s, rd).value, f.name)
      && SameAt(c.m, CanonUnion(v, f, map[], s, rd).value, DiscKey(f.name))
    ensures CanonUnion(c, f, map[], s, rd) == CanonUnion(v, f, map[], s, rd) <==> KeptAt(v, f, s, rd)
    decreases J.Height(v), 4, 0
  {
    hide CanonVariant, VariantByName, VariantByValue, Kept, CanonSchema, GoodStruct;
    var tag := DiscKey(f.name);
    SR.DiscKeyDiffers(f.name);
    if tag !in v.m {
      SR.NamedVariant(f.typ.variants, 0);
    } else {
      var variant := VariantByName(f.typ.variants, v.m[tag].s).value;
      if variant.value != 0 {
        J.MemberHeight(v.m, f.name);
        VariantListed(f.typ.variants, v.m[tag].s);
        VariantFixed(v.m[f.name], variant.typ.value, s, rd, CanonVariant(v.m[f.name], variant.typ.value, s, rd).value);
      }
    }
  }

  lemma {:induction false} VariantFixed(x: J.Value, t: VariantType, s: Schema, rd: KeyReader, j: J.Value)
    requires CanonSchema(s) && (t.VStruct? ==> GoodStruct(t.def)) && CanonVariant(x, t, s, rd) == Ok(j)
    ensures CanonVariant(j, t, s, rd) == Ok(j) <==> (t.VTable? ==> Kept(x, t.index, s, rd))
    decreases J.Height(x), 7, 0
  {
    hide CanonTable, CanonStruct, CanonSchema, GoodStruct, Kept;
    match t {
      case VTable(i) => TableFixed(x, i, s, rd, j);
      case VStruct(def) => StructFixed(x, def, j);
      case VString =>
    }
  }

  // Vectors.

  /** A canonical vector of anything but tables is a fixed point; one of tables exactly if its rows are kept. */
  lemma {:induction false} VectorFixed(x: J.Value, el: ElementType, hex: bool, s: Schema, rd: KeyReader, j: J.Value)
    requires CanonSchema(s) && (el.EScalar? ==> GoodEnum(el.st, ElementEnum(el.st, el.en)))
      && (el.EStruct? ==> GoodStruct(el.def)) && !x.Null? && CanonVector(x, el, hex, s, rd) == Ok(j)
    ensures !j.Null? && (CanonVector(j, el, hex, s, rd) == Ok(j) <==> (el.ETable? ==> KeptRows(x, el.index, s, rd)))
    decreases J.Height(x), 6, 0
  {
    hide CanonBlob, CanonScalars, CanonStructs, CanonTables, CanonRows, CanonInput, CanonSchema, GoodStruct, GoodEnum,
      KeptRows, KeyedField, TableAt, J.Height;
    if IsBlob(el) {
      BlobFixed(x, hex, j);
      BlobIsText(x, hex);
    } else {
      match el {
        case EScalar(st, en) => ScalarsFixed(x.items, st, ElementEnum(st, en), j.items);
        case EString =>
        case EStruct(def) => StructsFixed(x.items, def, j.items);
        case ETable(t) =>
          if KeyedField(TableAt(s, t).fields).Some? {
            KeyedFixed(x, t, KeyedField(TableAt(s, t).fields).value, hex, s, rd, j);
          } else {
            PlainTablesFixed(x, t, hex, s, rd, j);
          }
        case EOther =>
      }
    }
  }

  lemma {:induction false} PlainTablesFixed(x: J.Value, t: nat, hex: bool, s: Schema, rd: KeyReader, j: J.Value)
    requires CanonSchema(s) && KeyedField(TableAt(s, t).fields).None? && CanonVector(x, ETable(t), hex, s, rd) == Ok(j)
    ensures j.Arr? && (CanonVector(j, ETable(t), hex, s, rd) == Ok(j) <==> KeptRows(x, t, s, rd))
    decreases J.Height(x), 5, 0
  {
    hide *;
    ArrayConverts(x, t, hex, s, rd, j);
    TablesConvert(x.items, t, s, rd, J.Height(x), j.items);
    PlainRowsIff(x, t, s, rd);
    forall i | 0 <= i < |x.items|
      ensures CanonTable(j.items[i], t, s, rd) == Ok(j.items[i]) <==> Kept(x.items[i], t, s, rd)
    {
      TableFixed(x.items[i], t, s, rd, j.items[i]);
    }
    ItemHeights(j);
    ArrayIs(j, t, hex, s, rd);
    if KeptRows(x, t, s, rd) {
      TablesAgain(j.items, t, s, rd, J.Height(j));
    } else if CanonVector(j, ETable(t), hex, s, rd) == Ok(j) {
      TablesConvert(j.items, t, s, rd, J.Height(j), j.items);
    }
  }

  lemma {:induction false} ArrayIs(j: J.Value, t: nat, hex: bool, s: Schema, rd: KeyReader)
    requires j.Arr? && KeyedField(TableAt(s, t).fields).None?
      && forall i :: 0 <= i < |j.items| ==> J.Height(j.items[i]) < J.Height(j)
    ensures CanonVector(j, ETable(t), hex, s, rd) == Ok(j) <==>
            CanonTables(j.items, t, s, rd, J.Height(j)) == Ok(j.items)
  {
    hide CanonTables, KeyedField, TableAt, J.Height;
  }

  lemma {:induction false} PlainRowsIff(x: J.Value, t: nat, s: Schema, rd: KeyReader)
    requires x.Arr? && KeyedField(TableAt(s, t).fields).None?
    ensures KeptRows(x, t, s, rd) <==> forall i :: 0 <= i < |x.items| ==> Kept(x.items[i], t, s, rd)
  {
    hide KeyedField, TableAt, J.Height;
  }

  lemma {:induction false} TablesAgain(docs: seq<J.Value>, t: nat, s: Schema, rd: KeyReader, bound: nat)
    requires forall i :: 0 <= i < |docs| ==> J.Height(docs[i]) < bound
    requires forall i :: 0 <= i < |docs| ==> CanonTable(docs[i], t, s, rd) == Ok(docs[i])
    ensures CanonTables(docs, t, s, rd, bound) == Ok(docs)
    decreases |docs|
  {
    hide *;
    if docs == [] {
      NoTables(t, s, rd, bound);
    } else {
      TablesAgain(docs[..|docs| - 1], t, s, rd, bound);
      LastTable(docs, t, s, rd, bound);
    }
  }

  lemma {:induction false} NoTables(t: nat, s: Schema, rd: KeyReader, bound: nat)
    ensures CanonTables([], t, s, rd, bound) == Ok([])
  {
  }

  lemma {:induction false} LastTable(docs: seq<J.Value>, t: nat, s: Schema, rd: KeyReader, bound: nat)
    requires docs != [] && forall i :: 0 <= i < |docs| ==> J.Height(docs[i]) < bound
    requires var n := |docs| - 1;
      CanonTables(docs[..n], t, s, rd, bound) == Ok(docs[..n]) && CanonTable(docs[n], t, s, rd) == Ok(docs[n])
    ensures CanonTables(docs, t, s, rd, bound) == Ok(docs)
  {
    hide CanonTable, J.Height;
    assert docs == docs[..|docs| - 1] + [docs[|docs| - 1]];
  }

  // Keyed vectors.

  /** The entry of the row under `k` converts to that row again. */
  ghost predicate EntryFixed(m: map<string, J.Value>, k: string, kf: Field, t: nat, s: Schema, rd: KeyReader)
    requires k in m
  {
    OneEntry(m, k, kf).Ok? && CanonTable(OneEntry(m, k, kf).value.row, t, s, rd) == Ok(m[k])
  }

  /** A canonical object of rows is a fixed point exactly if the last row under each key is kept with its key. */
  lemma {:induction false} KeyedFixed(x: J.Value, t: nat, kf: Field, hex: bool, s: Schema, rd: KeyReader, j: J.Value)
    requires CanonSchema(s) && KeyedField(TableAt(s, t).fields) == Some(kf)
      && CanonVector(x, ETable(t), hex, s, rd) == Ok(j)
    ensures j.Obj? && (CanonVector(j, ETable(t), hex, s, rd) == Ok(j) <==> KeptRows(x, t, s, rd))
    decreases J.Height(x), 5, 0
  {
    hide *;
    KeyedRows(x, t, kf, hex, s, rd, j);
    var rows := CanonInput(x, kf).value;
    RowsListed(rows, kf, t, s, rd, J.Height(x));
    KeptRowsIff(x, t, kf, s, rd, rows);
    forall i | 0 <= i < |rows| && IsLast(rows, i, kf, rd)
      ensures var k := DocumentKey(rows[i], kf, rd);
              && k in j.m && EntryStays(j.m, k, kf, rd)
              && (EntryFixed(j.m, k, kf, t, s, rd) <==> RowKept(rows[i], kf, t, s, rd))
    {
      RowFixed(rows[i], j.m, kf, t, s, rd);
    }
    forall k | k in j.m ensures EntryStays(j.m, k, kf, rd) {
      var i :| 0 <= i < |rows| && IsLast(rows, i, kf, rd) && DocumentKey(rows[i], kf, rd) == k;
    }
    ObjectFixed(j, t, kf, hex, s, rd);
    if KeptRows(x, t, s, rd) {
      forall k | k in j.m ensures EntryFixed(j.m, k, kf, t, s, rd) {
        var i :| 0 <= i < |rows| && IsLast(rows, i, kf, rd) && DocumentKey(rows[i], kf, rd) == k;
      }
    }
  }

  ghost predicate RowKept(row: J.Value, kf: Field, t: nat, s: Schema, rd: KeyReader) {
    KeyKept(row, kf, rd) && Kept(row, t, s, rd)
  }

  lemma {:induction false} KeptRowsIff(x: J.Value, t: nat, kf: Field, s: Schema, rd: KeyReader, rows: seq<J.Value>)
    requires KeyedField(TableAt(s, t).fields) == Some(kf) && (x.Arr? || x.Obj?) && CanonInput(x, kf) == Ok(rows)
    ensures KeptRows(x, t, s, rd) <==>
            forall i :: 0 <= i < |rows| && IsLast(rows, i, kf, rd) ==> RowKept(rows[i], kf, t, s, rd)
  {
    hide Kept, KeyKept, CanonInput, IsLast, KeyedField, TableAt;
    if forall i :: 0 <= i < |rows| && IsLast(rows, i, kf, rd) ==> RowKept(rows[i], kf, t, s, rd) {
      forall i | 0 <= i < |rows| && IsLast(rows, i, kf, rd)
        ensures KeyKept(rows[i], kf, rd) && Kept(rows[i], t, s, rd)
      {
        assert RowKept(rows[i], kf, t, s, rd);
      }
    }
  }

  /** A row's entry converts to the canonical row exactly if the row and its key are kept. */
  lemma {:induction false} RowFixed(row: J.Value, m: map<string, J.Value>, kf: Field, t: nat, s: Schema, rd: KeyReader)
    requires CanonSchema(s) && KeyedField(TableAt(s, t).fields) == Some(kf)
    requires DocumentKey(row, kf, rd) in m && CanonTable(row, t, s, rd) == Ok(m[DocumentKey(row, kf, rd)])
    ensures EntryStays(m, DocumentKey(row, kf, rd), kf, rd)
    ensures EntryFixed(m, DocumentKey(row, kf, rd), kf, t, s, rd) <==> RowKept(row, kf, t, s, rd)
    decreases J.Height(row), 7, 0
  {
    hide *;
    var k := DocumentKey(row, kf, rd);
    RowEntry(m, k, row, kf, t, s, rd);
    TableShape(row, t, s, rd, m[k]);
    TableFixed(row, t, s, rd, m[k]);
    RowKeptIff(row, kf, t, s, rd);
    EntryFixedIff(m, k, kf, t, s, rd);
    if OneEntry(m, k, kf).Ok? {
      if kf.typ.String? {
        StringKept(row, m[k], kf, t, s, rd);
        if J.Present(row.m, kf.name).None? { InjectedStays(m[k], k, kf, t, s, rd); }
      }
    }
  }

  lemma {:induction false} RowKeptIff(row: J.Value, kf: Field, t: nat, s: Schema, rd: KeyReader)
    requires row.Obj?
    ensures RowKept(row, kf, t, s, rd) <==>
            && KeyReturns(row, kf, rd) && (kf.typ.String? ==> J.Present(row.m, kf.name).Some?)
            && Kept(row, t, s, rd)
  {
    hide Kept, KeyReturns;
  }

  lemma {:induction false} EntryFixedIff(m: map<string, J.Value>, k: string, kf: Field, t: nat, s: Schema,
                                         rd: KeyReader)
    requires k in m && m[k].Obj? && EntryStays(m, k, kf, rd)
    ensures EntryFixed(m, k, kf, t, s, rd) <==>
            OneEntry(m, k, kf).Ok? && CanonTable(J.Obj(m[k].m + Injected(m[k].m, kf, k)), t, s, rd) == Ok(m[k])
    ensures !(kf.typ.String? && kf.name !in m[k].m) ==> J.Obj(m[k].m + Injected(m[k].m, kf, k)) == m[k]
  {
    hide OneEntry, CanonTable, DocumentKey;
    assert m[k].m + map[] == m[k].m;
  }

  /** A canonical row has its string key exactly if the row had. */
  lemma {:induction false} StringKept(row: J.Value, c: J.Value, kf: Field, t: nat, s: Schema, rd: KeyReader)
    requires CanonSchema(s) && KeyedField(TableAt(s, t).fields) == Some(kf) && kf.typ.String?
    requires row.Obj? && c.Obj? && CanonTable(row, t, s, rd) == Ok(c)
    ensures kf.name in c.m <==> J.Present(row.m, kf.name).Some?
  {
    hide *;
    var fields := TableAt(s, t).fields;
    var i := R.KeyedFieldIndex(fields);
    assert kf == fields[i] && kf in fields;
    StringIsPlain(kf, fields);
    OwnsName(kf);
    ContributedAt(row, t, s, rd, c, kf, kf.name);
    PlainIs(row, kf, fields, s, rd);
    HeldIff(c, kf.name, Member(row, kf, fields, s, rd).value);
  }

  lemma {:induction false} StringIsPlain(kf: Field, fields: seq<Field>)
    requires kf.typ.String?
    ensures !kf.typ.Union? && !kf.typ.Scalar? && !IsDiscriminator(kf, fields)
  {
  }

  lemma {:induction false} HeldIff(c: J.Value, name: string, r: map<string, J.Value>)
    requires c.Obj? && SameAt(c.m, r, name)
    ensures name in c.m <==> name in r
  {
  }

  /** A string key put into a row is there in the row's canonical form. */
  lemma {:induction false} InjectedStays(c: J.Value, k: string, kf: Field, t: nat, s: Schema, rd: KeyReader)
    requires CanonSchema(s) && KeyedField(TableAt(s, t).fields) == Some(kf) && kf.typ.String?
    requires c.Obj? && kf.name !in c.m
    ensures CanonTable(J.Obj(c.m + Injected(c.m, kf, k)), t, s, rd) != Ok(c)
  {
    hide *;
    var e := J.Obj(c.m + Injected(c.m, kf, k));
    InjectedIsPresent(c, k, kf);
    if CanonTable(e, t, s, rd) == Ok(c) { StringKept(e, c, kf, t, s, rd); }
  }

  lemma {:induction false} InjectedIsPresent(c: J.Value, k: string, kf: Field)
    requires c.Obj? && kf.typ.String? && kf.name !in c.m
    ensures J.Present(c.m + Injected(c.m, kf, k), kf.name).Some?
  {
  }

  /** An object whose entries stay under their keys is a fixed point exactly if every entry converts to its row. */
  lemma {:induction false} ObjectFixed(j: J.Value, t: nat, kf: Field, hex: bool, s: Schema, rd: KeyReader)
    requires j.Obj? && KeyedField(TableAt(s, t).fields) == Some(kf) && forall k :: k in j.m ==>
      EntryStays(j.m, k, kf, rd)
    ensures CanonVector(j, ETable(t), hex, s, rd) == Ok(j) <==>
            forall k :: k in j.m ==> EntryFixed(j.m, k, kf, t, s, rd)
  {
    hide *;
    EntriesAccepted(j, kf);
    ObjectIs(j, t, kf, hex, s, rd);
    forall k | k in j.m && EntryFixed(j.m, k, kf, t, s, rd) ensures OneEntry(j.m, k, kf).Ok? {
      FixedIsAccepted(j.m, k, kf, t, s, rd);
    }
    if SortedEntries(j, kf).Ok? {
      var es := SortedEntries(j, kf).value;
      EntriesListed(j, kf);
      forall i | 0 <= i < |es| ensures IsEntry(es[i], j.m, kf) && Rows(es)[i] == es[i].row { assert es[i] in es; }
      if forall k :: k in j.m ==> EntryFixed(j.m, k, kf, t, s, rd) {
        RowsRebuild(es, kf, t, s, rd, J.Height(j), j.m);
        var r := CanonRows(Rows(es), kf, t, s, rd, J.Height(j)).value;
        forall k | k in j.m ensures k in r { EntryKeyed(j.m, k, kf, rd); }
        SameMap(r, j.m);
      }
      if CanonRows(Rows(es), kf, t, s, rd, J.Height(j)) == Ok(j.m) {
        RowsAreEntries(es, kf, t, s, rd, J.Height(j), j.m);
      }
    }
  }

  /** If the entries' rows rebuild the object, each entry converts to its row. */
  lemma {:induction false} RowsAreEntries(es: seq<Entry>, kf: Field, t: nat, s: Schema, rd: KeyReader, bound: nat,
                                          m: map<string, J.Value>)
    requires (forall i :: 0 <= i < |es| ==> J.Height(Rows(es)[i]) < bound)
      && forall i :: 0 <= i < |es| ==> IsEntry(es[i], m, kf) && Rows(es)[i] == es[i].row
    requires forall k :: k in m ==> OneEntry(m, k, kf).Ok? && EntryStays(m, k, kf, rd)
    requires CanonRows(Rows(es), kf, t, s, rd, bound) == Ok(m)
    ensures forall k :: k in m ==> EntryFixed(m, k, kf, t, s, rd)
  {
    hide *;
    RowsListed(Rows(es), kf, t, s, rd, bound);
    forall k | k in m ensures EntryFixed(m, k, kf, t, s, rd) {
      var i :| 0 <= i < |Rows(es)| && IsLast(Rows(es), i, kf, rd) && DocumentKey(Rows(es)[i], kf, rd) == k;
      var k' := MemberOfEntry(es[i], m, kf);
      EntryKeyed(m, k', kf, rd);
      FixedIs(m, k, kf, t, s, rd);
    }
  }

  lemma {:induction false} SameMap(a: map<string, J.Value>, b: map<string, J.Value>)
    requires (forall k :: k in a ==> k in b && a[k] == b[k]) && forall k :: k in b ==> k in a
    ensures a == b
  {
  }

  lemma {:induction false} ObjectIs(j: J.Value, t: nat, kf: Field, hex: bool, s: Schema, rd: KeyReader)
    requires j.Obj? && KeyedField(TableAt(s, t).fields) == Some(kf)
    ensures CanonVector(j, ETable(t), hex, s, rd).Ok? ==> SortedEntries(j, kf).Ok?
    ensures SortedEntries(j, kf).Ok? ==>
              var rows := Rows(SortedEntries(j, kf).value);
              && (forall i :: 0 <= i < |rows| ==> J.Height(rows[i]) < J.Height(j))
              && (CanonVector(j, ETable(t), hex, s, rd) == Ok(j) <==>
                  CanonRows(rows, kf, t, s, rd, J.Height(j)) == Ok(j.m))
  {
    hide CanonRows, SortedEntries, KeyedField, TableAt, J.Height;
    if SortedEntries(j, kf).Ok? {
      var es := SortedEntries(j, kf).value;
      assert forall i :: 0 <= i < |es| ==> es[i] in es;
    }
  }

  lemma {:induction false} FixedIsAccepted(m: map<string, J.Value>, k: string, kf: Field, t: nat, s: Schema,
                                           rd: KeyReader)
    requires k in m && EntryFixed(m, k, kf, t, s, rd)
    ensures OneEntry(m, k, kf).Ok? && CanonTable(OneEntry(m, k, kf).value.row, t, s, rd) == Ok(m[k])
  {
    hide OneEntry, CanonTable;
  }

  lemma {:induction false} FixedIs(m: map<string, J.Value>, k: string, kf: Field, t: nat, s: Schema, rd: KeyReader)
    requires k in m && OneEntry(m, k, kf).Ok? && CanonTable(OneEntry(m, k, kf).value.row, t, s, rd) == Ok(m[k])
    ensures EntryFixed(m, k, kf, t, s, rd)
  {
    hide OneEntry, CanonTable;
  }

  lemma {:induction false} EntryKeyed(m: map<string, J.Value>, k: string, kf: Field, rd: KeyReader)
    requires k in m && OneEntry(m, k, kf).Ok? && EntryStays(m, k, kf, rd)
    ensures DocumentKey(OneEntry(m, k, kf).value.row, kf, rd) == k
  {
    hide OneEntry, DocumentKey, Injected;
  }

  /** Entries that convert to their rows convert to nothing but these rows, each under its key. */
  lemma {:induction false} RowsRebuild(es: seq<Entry>, kf: Field, t: nat, s: Schema, rd: KeyReader, bound: nat,
                                       m: map<string, J.Value>)
    requires (forall i :: 0 <= i < |es| ==> J.Height(Rows(es)[i]) < bound)
      && forall i :: 0 <= i < |es| ==> IsEntry(es[i], m, kf)
    requires forall k :: k in m ==> EntryFixed(m, k, kf, t, s, rd) && EntryStays(m, k, kf, rd)
    ensures CanonRows(Rows(es), kf, t, s, rd, bound).Ok?
    ensures var r := CanonRows(Rows(es), kf, t, s, rd, bound).value;
            && (forall k :: k in r ==> k in m && r[k] == m[k])
            && (forall e :: e in es ==> DocumentKey(e.row, kf, rd) in r)
    decreases |es|
  {
    hide CanonTable, J.Height, EntryFixed, EntryStays, IsEntry, DocumentKey, OneEntry;
    if es != [] {
      var n := |es| - 1;
      assert Rows(es)[..n] == Rows(es[..n]);
      RowsRebuild(es[..n], kf, t, s, rd, bound, m);
      var k := MemberOfEntry(es[n], m, kf);
      FixedIsAccepted(m, k, kf, t, s, rd);
      EntryKeyed(m, k, kf, rd);
      assert Rows(es)[n] == es[n].row;
    }
  }
}
