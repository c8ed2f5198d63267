/**
 Canonical scalars, structs and leaf vectors are accepted again.

 Nothing in them can refuse: a name stands for the number it was given for, a float is finite and narrows
 to itself, printed bytes parse, and a canonical struct has exactly the struct's fields.

 - `StructReencodes` goes down the struct's definition, array elements included.
 - `LeavesReencode` is about a vector without tables, which only the depth limit can refuse.

 Tables and keyed vectors are the subject of `ReencodeTables`, since their keys and levels decide.
 */
module ReencodeLeaves {
  import opened Wrappers
  import opened Bytes
  import opened Schema
  import opened Scalars
  import opened StructLayout
  import opened StructJson
  import opened Blobs
  import opened FromJson
  import opened Canon
  import opened Idempotence
  import opened KeyText
  import D = DocumentPaths
  import F = ReadFaults
  import SR = SameReaders
  import J = Json

  // Structs.

  lemma {:induction false} ScalarReencodes(st: ScalarType, en: Option<EnumDef>, x: J.Value, j: J.Value)
    requires GoodEnum(st, en) && CanonScalar(st, en, x) == Ok(j)
    ensures EncodeScalar(st, en, j).Ok? && !j.Null?
  {
    hide EncodeScalar, ScalarJson, Fits, GoodEnum;
    EncodedIsSmall(st, en, x);
    ScalarFixed(st, en, EncodeScalar(st, en, x).value, j);
  }

  /** The members of a canonical struct are its fields. */
  lemma {:induction false} NamesOfCanon(m: map<string, J.Value>, todo: seq<StructField>, acc: map<string, J.Value>,
                                        within: StructDef)
    requires (forall f :: f in todo ==> f in within.fields) && CanonFields(m, todo, acc, within).Ok?
    requires forall k :: k in acc ==> k in StructNames(within.fields)
    ensures forall k :: k in CanonFields(m, todo, acc, within).value ==> k in StructNames(within.fields)
    decreases |todo|
  {
    hide CanonField;
    if todo != [] {
      assert todo[0] in within.fields;
      NamesOfCanon(m, todo[1..], acc[todo[0].name := CanonField(todo[0].typ, m[todo[0].name]).value], within);
    }
  }

  /** The canonical object holds each field's canonical member. */
  lemma {:induction false} CanonMemberOf(m: map<string, J.Value>, todo: seq<StructField>, acc: map<string, J.Value>,
                                         within: StructDef, f: StructField)
    requires D.DistinctStructNames(within.fields) && (forall g :: g in todo ==> g in within.fields) && f in todo
    requires CanonFields(m, todo, acc, within).Ok?
    ensures f.name in m && CanonField(f.typ, m[f.name]).Ok?
    ensures SR.Has(CanonFields(m, todo, acc, within).value, f.name, CanonField(f.typ, m[f.name]).value)
    decreases |todo|
  {
    hide CanonField, D.DistinctStructNames;
    var g := todo[0];
    assert g in within.fields;
    var next := acc[g.name := CanonField(g.typ, m[g.name]).value];
    if g == f {
      StructMemberStays(m, todo[1..], next, within, CanonFields(m, todo, acc, within).value, f,
        CanonField(f.typ, m[f.name]).value);
    } else {
      CanonMemberOf(m, todo[1..], next, within, f);
    }
  }

  /** Fields that are all there and all accepted fill the struct. */
  lemma {:induction false} AllFill(m: map<string, J.Value>, fields: seq<StructField>, buf: seq<byte>)
    requires forall f :: f in fields ==> J.Present(m, f.name).Some? && FieldBytes(f.typ, J.Present(m, f.name).value).Ok?
    ensures FillFields(m, fields, buf).Ok?
    decreases |fields|
  {
    hide FieldBytes, Splice, J.Present;
    if fields != [] {
      assert fields[0] in fields;
      AllFill(m, fields[1..], Splice(buf, fields[0].offset,
        FieldBytes(fields[0].typ, J.Present(m, fields[0].name).value).value));
    }
  }

  lemma {:induction false} StructReencodes(x: J.Value, def: StructDef, c: J.Value)
    requires GoodStruct(def) && StructBytes(x, def).Ok? && CanonStruct(x, def) == Ok(c)
    ensures c.Obj? && StructBytes(c, def).Ok?
    decreases def, 3, 0
  {
    hide CanonFields, StructById, FieldBytes, FillFields, GoodStruct, CanonField, J.Present;
    ByIdIsWithin(def);
    DistinctFieldNames(def);
    NamesOfCanon(x.m, StructById(def.fields), map[], def);
    forall f | f in def.fields ensures J.Present(c.m, f.name).Some?
      && FieldBytes(f.typ, J.Present(c.m, f.name).value).Ok? {
      F.FilledField(x.m, def.fields, Zeros(def.bytesize), f);
      CanonMemberOf(x.m, StructById(def.fields), map[], def, f);
      GoodStructAt(def, f);
      var j := CanonField(f.typ, x.m[f.name]).value;
      StructFieldReencodes(f.typ, x.m[f.name], j);
      PresentMember(c.m, f.name, j);
    }
    AllFill(c.m, def.fields, Zeros(def.bytesize));
  }

  lemma {:induction false} PresentMember(m: map<string, J.Value>, name: string, j: J.Value)
    requires SR.Has(m, name, j) && !j.Null?
    ensures J.Present(m, name) == Some(j)
  {
  }

  lemma {:induction false} StructFieldReencodes(t: StructFieldType, x: J.Value, j: J.Value)
    requires GoodStructField(t) && FieldBytes(t, x).Ok? && CanonField(t, x) == Ok(j)
    ensures FieldBytes(t, j).Ok? && !j.Null?
    decreases t, 4, 0
  {
    hide CanonStruct, CanonScalar, CanonElements, ElementBytes, StructScalarBytes, EncodeScalar, StructBytes,
      GoodStruct, GoodEnum;
    match t {
      case SScalar(st, en) =>
        ScalarReencodes(st, en, x, j);
        TableAndStructAgree(st, en, j);
      case SStruct(d) => StructReencodes(x, d, j);
      case _ => ElementsReencode(t, x.items, j.items);
    }
  }

  lemma {:induction false} ElementsReencode(t: StructFieldType, items: seq<J.Value>, docs: seq<J.Value>)
    requires (t.SScalarArray? || t.SStructArray?) && GoodStructField(t) && ElementBytes(t, items).Ok?
      && CanonElements(t, items) == Ok(docs)
    ensures ElementBytes(t, docs).Ok? && |docs| == |items|
    decreases t, 3, |items|
  {
    hide CanonStruct, CanonScalar, StructScalarBytes, PlainScalarBytes, EncodeScalar, StructBytes, GoodStruct;
    if items != [] {
      var n := |items| - 1;
      ElementsReencode(t, items[..n], CanonElements(t, items[..n]).value);
      assert docs[..|docs| - 1] == CanonElements(t, items[..n]).value;
      var j := docs[|docs| - 1];
      match t {
        case SScalarArray(st, _) =>
          ScalarReencodes(st, None, items[n], j);
          TableAndStructAgree(st, None, j);
          F.PlainIsStruct(st, j);
        case SStructArray(d, _) => StructReencodes(items[n], d, j);
      }
    }
  }

  // Vectors of leaves and structs.

  lemma {:induction false} ScalarsReencode(items: seq<J.Value>, st: ScalarType, en: Option<EnumDef>, docs: seq<J.Value>)
    requires GoodEnum(st, en) && CanonScalars(items, st, en) == Ok(docs)
    ensures EncScalars(docs, st, en).Ok?
  {
    hide CanonScalar, EncodeScalar, GoodEnum;
    if items != [] {
      var n := |items| - 1;
      ScalarsReencode(items[..n], st, en, CanonScalars(items[..n], st, en).value);
      assert docs[..|docs| - 1] == CanonScalars(items[..n], st, en).value;
      ScalarReencodes(st, en, items[n], docs[|docs| - 1]);
    }
  }

  lemma {:induction false} StructsReencode(items: seq<J.Value>, def: StructDef, docs: seq<J.Value>)
    requires GoodStruct(def) && EncStructs(items, def).Ok? && CanonStructs(items, def) == Ok(docs)
    ensures EncStructs(docs, def).Ok? && |docs| == |items|
  {
    hide CanonStruct, StructBytes, GoodStruct;
    if items != [] {
      var n := |items| - 1;
      StructsReencode(items[..n], def, CanonStructs(items[..n], def).value);
      assert docs[..|docs| - 1] == CanonStructs(items[..n], def).value;
      StructReencodes(items[n], def, docs[|docs| - 1]);
    }
  }

  lemma {:induction false} BlobReencodes(x: J.Value, hex: bool, j: J.Value)
    requires CanonBlob(x, hex) == Ok(j)
    ensures EncBlob(j, hex).Ok?
  {
    hide ParseBlob, BlobText, EncByteItems;
    match x {
      case Str(text) => BlobRoundTrip(ParseBlob(text, hex).value, hex);
      case Arr(items) => BlobRoundTrip(EncByteItems(items).value, hex);
    }
  }

  /** A vector without tables is accepted again exactly within the depth limit. */
  lemma {:induction false} LeavesReencode(x: J.Value, el: ElementType, hex: bool, s: Schema, d0: nat, o0: Options,
                                          rd: KeyReader, j: J.Value, d: nat, o: Options)
    requires !el.ETable? && (el.EScalar? ==> GoodEnum(el.st, ElementEnum(el.st, el.en)))
      && (el.EStruct? ==> GoodStruct(el.def))
    requires EncVector(x, el, hex, s, d0, o0).Ok? && CanonVector(x, el, hex, s, rd) == Ok(j)
    ensures EncVector(j, el, hex, s, d, o).Ok? <==> d <= o.maxDepth
    ensures !j.Null?
  {
    hide EncTables, EncKeyed, EncScalars, EncStrings, EncStructs, EncBlob, CanonBlob, CanonScalars, CanonStructs,
      GoodStruct, GoodEnum, TableAt, J.Height, Dispatchable;
    if IsBlob(el) {
      BlobReencodes(x, hex, j);
      BlobIsText(x, hex);
    } else {
      match el {
        case EScalar(st, en) => ScalarsReencode(x.items, st, ElementEnum(st, en), j.items);
        case EStruct(def) => StructsReencode(x.items, def, j.items);
        case _ =>
      }
    }
  }
}
