/**
 Canonical documents hold no `null`.

 What is absent in a built buffer is left out of its document, and what is there has a value:

 - a scalar is a number, a truth value or an enum name;
 - a struct, whose fields must all be given, is an object of such values;
 - a string is text, and so are bytes;
 - a union shows its tag, and its value only if the tag is not NONE;
 - vectors and keyed rows hold canonical elements.

 The document must have been accepted: the canonical form copies strings, and only acceptance says that
 they are strings.
 */
module CanonNulls {
  import opened Wrappers
  import opened Schema
  import opened Scalars
  import opened StructJson
  import opened Blobs
  import opened KeyText
  import opened FromJson
  import opened ToJson
  import opened Canon
  import R = RoundTrip
  import SL = SugarLookup
  import J = Json

  /** No `null` anywhere. */
  ghost predicate NullFree(j: J.Value) {
    match j
    case Null => false
    case Arr(items) => forall i :: 0 <= i < |items| ==> NullFree(items[i])
    case Obj(m) => forall k :: k in m ==> NullFree(m[k])
    case _ => true
  }

  ghost predicate AllNullFree(items: seq<J.Value>) {
    forall i :: 0 <= i < |items| ==> NullFree(items[i])
  }

  lemma {:induction false} NullFreeArray(items: seq<J.Value>)
    ensures AllNullFree(items) ==> NullFree(J.Arr(items))
  {
  }

  lemma {:induction false} NullFreeWith(m: map<string, J.Value>, k: string, j: J.Value)
    requires NullFree(J.Obj(m)) && NullFree(j)
    ensures NullFree(J.Obj(m[k := j]))
  {
  }

  lemma {:induction false} NullFreeEmpty()
    ensures NullFree(J.Obj(map[])) && AllNullFree([])
  {
  }

  lemma {:induction false} NullFreeAppend(items: seq<J.Value>, j: J.Value)
    requires AllNullFree(items) && NullFree(j)
    ensures AllNullFree(items + [j])
  {
    hide NullFree;
  }

  lemma {:induction false} NumberNullFree(st: ScalarType, en: Option<EnumDef>, sc: Scalar)
    ensures ScalarJson(st, en, sc).Ok? ==> NullFree(ScalarJson(st, en, sc).value)
  {
  }

  // Structs.

  lemma {:induction false} CanonScalarNullFree(st: ScalarType, en: Option<EnumDef>, x: J.Value)
    ensures CanonScalar(st, en, x).Ok? ==> NullFree(CanonScalar(st, en, x).value)
  {
    hide EncodeScalar, ScalarJson, NullFree;
    if EncodeScalar(st, en, x).Ok? { NumberNullFree(st, en, EncodeScalar(st, en, x).value); }
  }

  lemma {:induction false} StructNullFree(v: J.Value, def: StructDef)
    requires CanonStruct(v, def).Ok?
    ensures NullFree(CanonStruct(v, def).value)
    decreases def, 3, 0
  {
    hide CanonFields, StructById, NullFree;
    ByIdIsWithin(def);
    NullFreeEmpty();
    StructFieldsNullFree(v.m, StructById(def.fields), map[], def);
  }

  lemma {:induction false} StructFieldsNullFree(m: map<string, J.Value>, todo: seq<StructField>, acc: map<string,
                                                J.Value>, within: StructDef)
    requires (forall f :: f in todo ==> f in within.fields) && NullFree(J.Obj(acc))
      && CanonFields(m, todo, acc, within).Ok?
    ensures NullFree(J.Obj(CanonFields(m, todo, acc, within).value))
    decreases within, 2, |todo|
  {
    hide CanonField, NullFree;
    if todo != [] {
      var f := todo[0];
      assert f in within.fields && f.typ < within;
      var j := CanonField(f.typ, m[f.name]).value;
      StructFieldNullFree(f.typ, m[f.name]);
      NullFreeWith(acc, f.name, j);
      StructFieldsNullFree(m, todo[1..], acc[f.name := j], within);
    }
  }

  lemma {:induction false} StructFieldNullFree(t: StructFieldType, v: J.Value)
    requires CanonField(t, v).Ok?
    ensures NullFree(CanonField(t, v).value)
    decreases t, 4, 0
  {
    hide CanonStruct, CanonScalar, CanonElements, NullFree;
    match t {
      case SScalar(st, en) => CanonScalarNullFree(st, en, v);
      case SStruct(d) => StructNullFree(v, d);
      case _ =>
        ElementsNullFree(t, v.items);
        NullFreeArray(CanonElements(t, v.items).value);
    }
  }

  lemma {:induction false} ElementsNullFree(t: StructFieldType, items: seq<J.Value>)
    requires (t.SScalarArray? || t.SStructArray?) && CanonElements(t, items).Ok?
    ensures AllNullFree(CanonElements(t, items).value)
    decreases t, 3, |items|
  {
    hide CanonStruct, CanonScalar, NullFree, AllNullFree;
    if items == [] { NullFreeEmpty(); } else {
      var n := |items| - 1;
      ElementsNullFree(t, items[..n]);
      match t {
        case SScalarArray(st, _) => CanonScalarNullFree(st, None, items[n]);
        case SStructArray(d, _) => StructNullFree(items[n], d);
      }
      NullFreeAppend(CanonElements(t, items[..n]).value, CanonElement(t, items[n]).value);
    }
  }

  // Tables.

  /** The canonical form of a document that builds holds no `null`. */
  lemma {:induction false} CanonNullFree(v: J.Value, t: nat, s: Schema, depth: nat, o: Options, rd: KeyReader)
    requires EncTable(v, t, s, depth, o).Ok? && CanonTable(v, t, s, rd).Ok?
    ensures NullFree(CanonTable(v, t, s, rd).value)
    decreases J.Height(v), 6, 0
  {
    hide *;
    R.TableParts(v, t, s, depth, o);
    var fields := TableAt(s, t).fields;
    R.ByIdMembers(fields);
    NullFreeEmpty();
    TableOfMembers(v, t, s, rd);
    MembersNullFree(v, t, s, depth, o, rd, ById(fields), map[]);
  }

  lemma {:induction false} TableOfMembers(v: J.Value, t: nat, s: Schema, rd: KeyReader)
    requires v.Obj? && CanonTable(v, t, s, rd).Ok?
    ensures var fields := TableAt(s, t).fields; var r := CanonMembers(v, ById(fields), fields, map[], s, rd);
            r.Ok? && CanonTable(v, t, s, rd).value == J.Obj(r.value)
  {
    hide CanonMembers, ById, TableAt;
  }

  lemma {:induction false} MembersNullFree(v: J.Value, t: nat, s: Schema, depth: nat, o: Options, rd: KeyReader,
                                           todo: seq<Field>, acc: map<string, J.Value>)
    requires EncTable(v, t, s, depth, o).Ok? && v.Obj? && (forall f :: f in todo ==> f in TableAt(s, t).fields)
    requires NullFree(J.Obj(acc)) && CanonMembers(v, todo, TableAt(s, t).fields, acc, s, rd).Ok?
    ensures NullFree(J.Obj(CanonMembers(v, todo, TableAt(s, t).fields, acc, s, rd).value))
    decreases J.Height(v), 5, |todo|
  {
    hide EncTable, CanonMember, TableAt, EncField, NullFree;
    if todo != [] {
      var fields := TableAt(s, t).fields;
      assert todo[0] in fields;
      var k :| 0 <= k < |fields| && fields[k] == todo[0];
      SL.FieldsOfTable(v, t, s, depth, o, k);
      MemberNullFree(v, todo[0], fields, s, depth, o, rd, acc);
      MembersNullFree(v, t, s, depth, o, rd, todo[1..], CanonMember(v, todo[0], fields, acc, s, rd).value);
    }
  }

  lemma {:induction false} MemberNullFree(v: J.Value, f: Field, fields: seq<Field>, s: Schema, depth: nat, o: Options,
                                          rd: KeyReader, acc: map<string, J.Value>)
    requires v.Obj? && EncField(v, f, s, depth, o).Ok? && NullFree(J.Obj(acc))
      && CanonMember(v, f, fields, acc, s, rd).Ok?
    ensures NullFree(J.Obj(CanonMember(v, f, fields, acc, s, rd).value))
    decreases J.Height(v), 4, 0
  {
    hide EncUnion, EncPresent, CanonUnion, CanonValue, ScalarJson, DefaultScalar, NullFree, IsDiscriminator, J.Height;
    if IsDiscriminator(f, fields) {
    } else if f.typ.Union? {
      UnionNullFree(v, f, s, depth + 1, o, rd, acc);
    } else {
      match J.Present(v.m, f.name) {
        case None =>
          if f.typ.Scalar? {
            var d := DefaultScalar(f.typ.st, f.defaultInt, f.defaultReal);
            NumberNullFree(f.typ.st, f.typ.en, d);
            NullFreeWith(acc, f.name, ScalarJson(f.typ.st, f.typ.en, d).value);
          }
        case Some(x) =>
          J.MemberHeight(v.m, f.name);
          ValueNullFree(x, f, s, depth, o, rd);
          NullFreeWith(acc, f.name, CanonValue(x, f, s, rd).value);
      }
    }
  }

  lemma {:induction false} ValueNullFree(x: J.Value, f: Field, s: Schema, depth: nat, o: Options, rd: KeyReader)
    requires !f.typ.Union? && EncPresent(x, f, s, depth, o).Ok? && CanonValue(x, f, s, rd).Ok?
    ensures NullFree(CanonValue(x, f, s, rd).value)
    decreases J.Height(x), 7, 0
  {
    hide EncTable, EncVector, CanonTable, CanonVector, CanonStruct, EncodeScalar, ScalarJson, DefaultScalar, Effective,
      J.Height;
    match f.typ {
      case Scalar(st, en) => NumberNullFree(st, en,
        Effective(EncodeScalar(st, en, x).value, DefaultScalar(st, f.defaultInt, f.defaultReal)));
      case Struct(def) => StructNullFree(x, def);
      case Table(t) => CanonNullFree(x, t, s, depth + 1, o, rd);
      case Vector(el) => VectorNullFree(x, el, f.hex, s, depth + 1, o, rd);
      case _ =>
    }
  }

  lemma {:induction false} UnionNullFree(v: J.Value, f: Field, s: Schema, depth: nat, o: Options, rd: KeyReader,
                                         acc: map<string, J.Value>)
    requires v.Obj? && f.typ.Union? && EncUnion(v, f.name, f.typ.variants, s, depth, o).Ok?
    requires NullFree(J.Obj(acc)) && CanonUnion(v, f, acc, s, rd).Ok?
    ensures NullFree(J.Obj(CanonUnion(v, f, acc, s, rd).value))
    decreases J.Height(v), 3, 0
  {
    hide EncVariant, CanonVariant, VariantByName, VariantByValue, NullFree, J.Height;
    var tag := DiscKey(f.name);
    if tag !in v.m {
      TextNullFree(VariantByValue(f.typ.variants, 0).value.name);
      NullFreeWith(acc, tag, J.Str(VariantByValue(f.typ.variants, 0).value.name));
    } else {
      TextNullFree(v.m[tag].s);
      NullFreeWith(acc, tag, v.m[tag]);
      var variant := VariantByName(f.typ.variants, v.m[tag].s).value;
      if variant.value != 0 {
        J.MemberHeight(v.m, f.name);
        var x := v.m[f.name];
        VariantNullFree(x, variant.typ.value, s, depth, o, rd);
        NullFreeWith(acc[tag := v.m[tag]], f.name, CanonVariant(x, variant.typ.value, s, rd).value);
      }
    }
  }

  lemma {:induction false} TextNullFree(text: string)
    ensures NullFree(J.Str(text))
  {
  }

  lemma {:induction false} VariantNullFree(x: J.Value, t: VariantType, s: Schema, depth: nat, o: Options, rd: KeyReader)
    requires EncVariant(x, t, s, depth, o).Ok? && CanonVariant(x, t, s, rd).Ok?
    ensures NullFree(CanonVariant(x, t, s, rd).value)
    decreases J.Height(x), 7, 0
  {
    hide EncTable, CanonTable, CanonStruct, J.Height;
    match t {
      case VTable(i) => CanonNullFree(x, i, s, depth, o, rd);
      case VStruct(def) => StructNullFree(x, def);
      case VString =>
    }
  }

  // Vectors.

  lemma {:induction false} VectorNullFree(x: J.Value, el: ElementType, hex: bool, s: Schema, depth: nat, o: Options,
                                          rd: KeyReader)
    requires EncVector(x, el, hex, s, depth, o).Ok? && CanonVector(x, el, hex, s, rd).Ok?
    ensures NullFree(CanonVector(x, el, hex, s, rd).value)
    decreases J.Height(x), 6, 0
  {
    hide EncTables, EncKeyed, EncScalars, EncStructs, EncBlob, CanonBlob, CanonScalars, CanonStructs, CanonTables,
      CanonRows, CanonInput, NullFree, TableAt,
      KeyedField, J.Height;
    if IsBlob(el) {
      BlobNullFree(x, hex);
    } else {
      match el {
        case EScalar(st, en) =>
          ScalarsNullFree(x.items, st, ElementEnum(st, en));
          NullFreeArray(CanonScalars(x.items, st, ElementEnum(st, en)).value);
        case EString =>
          StringsNullFree(x.items);
          NullFreeArray(x.items);
        case EStruct(def) =>
          StructsNullFree(x.items, def);
          NullFreeArray(CanonStructs(x.items, def).value);
        case ETable(t) => TablesInVector(x, t, hex, s, depth, o, rd);
        case EOther =>
      }
    }
  }

  lemma {:induction false} BlobNullFree(x: J.Value, hex: bool)
    ensures CanonBlob(x, hex).Ok? ==> NullFree(CanonBlob(x, hex).value)
  {
    hide ParseBlob, BlobText, EncByteItems;
  }

  lemma {:induction false} ScalarsNullFree(items: seq<J.Value>, st: ScalarType, en: Option<EnumDef>)
    requires CanonScalars(items, st, en).Ok?
    ensures AllNullFree(CanonScalars(items, st, en).value)
  {
    hide CanonScalar, NullFree, AllNullFree;
    if items == [] { NullFreeEmpty(); } else {
      var n := |items| - 1;
      ScalarsNullFree(items[..n], st, en);
      CanonScalarNullFree(st, en, items[n]);
      NullFreeAppend(CanonScalars(items[..n], st, en).value, CanonScalar(st, en, items[n]).value);
    }
  }

  lemma {:induction false} StringsNullFree(items: seq<J.Value>)
    requires EncStrings(items).Ok?
    ensures AllNullFree(items)
  {
    hide NullFree, AllNullFree;
    if items == [] { NullFreeEmpty(); } else {
      var n := |items| - 1;
      StringsNullFree(items[..n]);
      TextNullFree(items[n].s);
      NullFreeAppend(items[..n], items[n]);
      assert items == items[..n] + [items[n]];
    }
  }

  lemma {:induction false} StructsNullFree(items: seq<J.Value>, def: StructDef)
    requires CanonStructs(items, def).Ok?
    ensures AllNullFree(CanonStructs(items, def).value)
  {
    hide CanonStruct, NullFree, AllNullFree;
    if items == [] { NullFreeEmpty(); } else {
      var n := |items| - 1;
      StructsNullFree(items[..n], def);
      StructNullFree(items[n], def);
      NullFreeAppend(CanonStructs(items[..n], def).value, CanonStruct(items[n], def).value);
    }
  }

  lemma {:induction false} TablesInVector(x: J.Value, t: nat, hex: bool, s: Schema, depth: nat, o: Options,
                                          rd: KeyReader)
    requires EncVector(x, ETable(t), hex, s, depth, o).Ok? && CanonVector(x, ETable(t), hex, s, rd).Ok?
    ensures NullFree(CanonVector(x, ETable(t), hex, s, rd).value)
    decreases J.Height(x), 5, 0
  {
    hide *;
    R.VectorOfTables(x, t, hex, s, depth, o);
    var kf := KeyedField(TableAt(s, t).fields);
    var rows := R.TableInput(x, kf).value;
    var d := if x.Obj? then depth + 2 else depth + 1;
    CanonOfTables(x, rows, t, hex, s, rd);
    if kf.Some? {
      RowsNullFree(rows, kf.value, t, s, d, o, rd, J.Height(x));
    } else {
      TablesNullFree(rows, t, s, d, o, rd, J.Height(x));
      NullFreeArray(CanonTables(rows, t, s, rd, J.Height(x)).value);
    }
  }

  lemma {:induction false} CanonOfTables(x: J.Value, rows: seq<J.Value>, t: nat, hex: bool, s: Schema, rd: KeyReader)
    requires CanonVector(x, ETable(t), hex, s, rd).Ok? && forall i :: 0 <= i < |rows| ==>
      J.Height(rows[i]) < J.Height(x)
    requires var kf := KeyedField(TableAt(s, t).fields);
      (x.Arr? || (x.Obj? && kf.Some?)) && (if kf.Some? then CanonInput(x, kf.value) == Ok(rows)
        else x.Arr? && rows == x.items)
    ensures var kf := KeyedField(TableAt(s, t).fields); var c := CanonVector(x, ETable(t), hex, s, rd).value;
            if kf.Some? then
              var r := CanonRows(rows, kf.value, t, s, rd, J.Height(x));
              r.Ok? && c == J.Obj(r.value)
            else
              var r := CanonTables(rows, t, s, rd, J.Height(x));
              r.Ok? && c == J.Arr(r.value)
  {
    hide CanonTables, CanonRows, CanonInput, KeyedField, TableAt, J.Height;
  }

  lemma {:induction false} TablesNullFree(rows: seq<J.Value>, t: nat, s: Schema, depth: nat, o: Options, rd: KeyReader,
                                          bound: nat)
    requires forall i :: 0 <= i < |rows| ==> J.Height(rows[i]) < bound
    requires EncTables(rows, t, s, depth, o, bound).Ok? && CanonTables(rows, t, s, rd, bound).Ok?
    ensures AllNullFree(CanonTables(rows, t, s, rd, bound).value)
    decreases bound, 1, |rows|
  {
    hide EncTable, CanonTable, NullFree, AllNullFree, J.Height;
    if rows == [] { NullFreeEmpty(); } else {
      var n := |rows| - 1;
      TablesNullFree(rows[..n], t, s, depth, o, rd, bound);
      CanonNullFree(rows[n], t, s, depth, o, rd);
      NullFreeAppend(CanonTables(rows[..n], t, s, rd, bound).value, CanonTable(rows[n], t, s, rd).value);
    }
  }

  lemma {:induction false} RowsNullFree(rows: seq<J.Value>, kf: Field, t: nat, s: Schema, depth: nat, o: Options,
                                        rd: KeyReader, bound: nat)
    requires forall i :: 0 <= i < |rows| ==> J.Height(rows[i]) < bound
    requires EncTables(rows, t, s, depth, o, bound).Ok? && CanonRows(rows, kf, t, s, rd, bound).Ok?
    ensures NullFree(J.Obj(CanonRows(rows, kf, t, s, rd, bound).value))
    decreases bound, 1, |rows|
  {
    hide EncTable, CanonTable, NullFree, DocumentKey, J.Height;
    if rows == [] { NullFreeEmpty(); } else {
      var n := |rows| - 1;
      RowsNullFree(rows[..n], kf, t, s, depth, o, rd, bound);
      CanonNullFree(rows[n], t, s, depth, o, rd);
      NullFreeWith(CanonRows(rows[..n], kf, t, s, rd, bound).value, DocumentKey(rows[n], kf, rd),
        CanonTable(rows[n], t, s, rd).value);
    }
  }
}
