/** What `from_json` takes and refuses, in terms of the document's own members and numbers. */
module BuildFacts {
  import opened Wrappers
  import opened Bytes
  import opened Schema
  import opened Scalars
  import opened StructLayout
  import opened Buffer
  import opened Blobs
  import opened FromJson
  import J = Json

  // Bytes given as an array.

  /** An array is taken for a `[ubyte]` exactly if its items are the bytes, one for one and in order. */
  lemma {:induction false} ByteItemsExactly(items: seq<J.Value>, bs: seq<byte>)
    ensures EncByteItems(items) == Ok(bs) <==>
            |bs| == |items| && forall i :: 0 <= i < |items| ==> items[i] == J.Num(J.Int(bs[i]))
  {
    if |bs| == |items| && forall i :: 0 <= i < |items| ==> items[i] == J.Num(J.Int(bs[i])) {
      if items != [] {
        var n := |items| - 1;
        ByteItemsExactly(items[..n], bs[..n]);
        assert bs == bs[..n] + [bs[n]];
      }
    }
  }

  predicate IsByteItem(x: J.Value) {
    x.Num? && x.num.Int? && 0 <= x.num.n < 256
  }

  /**
   Otherwise the first item that is no byte is the error: a larger number is out of range, anything else a
   mismatch.
   */
  lemma {:induction false} FirstBadByte(items: seq<J.Value>) returns (i: nat)
    requires EncByteItems(items).Err?
    ensures i < |items| && !IsByteItem(items[i]) && forall j :: 0 <= j < i ==> IsByteItem(items[j])
    ensures EncByteItems(items) == Err(if items[i].Num? && items[i].num.Int? && items[i].num.n > 255
                                       then IntegerOutOfRange else TypeMismatch)
  {
    var n := |items| - 1;
    var init := EncByteItems(items[..n]);
    if init.Err? {
      i := FirstBadByte(items[..n]);
    } else {
      i := n;
      forall j | 0 <= j < n ensures IsByteItem(items[j]) { assert items[..n][j] == J.Num(J.Int(init.value[j])); }
    }
  }

  // Keys.

  /** A key that is no field's name, nor a union's with `_type` behind it, is refused where the option says so. */
  lemma {:induction false} StrangerIsRefused(v: J.Value, k: string, t: nat, s: Schema, depth: nat, o: Options)
    requires v.Obj? && k in v.m && depth <= o.maxDepth && o.unknownIsError
    requires forall i :: 0 <= i < |TableAt(s, t).fields| ==>
      var f := TableAt(s, t).fields[i]; k != f.name && !(f.typ.Union? && k == f.name + "_type")
    ensures EncTable(v, t, s, depth, o) == Err(UnknownField)
  {
    hide EncFields, WriteSlots, TableAt;
    assert !KnownKey(k, TableAt(s, t).fields);
  }

  /** A `null` member of a field that is no union is as good as none. */
  lemma {:induction false} NullIsAbsent(v: J.Value, k: string, t: nat, s: Schema, depth: nat, o: Options)
    requires v.Obj? && k in v.m && v.m[k].Null?
    requires exists i :: 0 <= i < |TableAt(s, t).fields| && TableAt(s, t).fields[i].name == k
    requires forall i :: 0 <= i < |TableAt(s, t).fields| ==>
      var f := TableAt(s, t).fields[i]; f.typ.Union? ==> k != f.name && k != DiscKey(f.name)
    ensures EncTable(v, t, s, depth, o) == EncTable(J.Obj(v.m - {k}), t, s, depth, o)
  {
    hide EncFields, WriteSlots, TableAt, KnownKey;
    var fields := TableAt(s, t).fields;
    var w := J.Obj(v.m - {k});
    NullFields(v, w, k, fields, s, depth, o);
    NameIsKnown(k, fields);
    assert HasUnknownKey(v.m, fields) <==> HasUnknownKey(w.m, fields) by {
      if HasUnknownKey(v.m, fields) {
        var x :| x in v.m && !KnownKey(x, fields);
        assert x in w.m;
      }
    }
  }

  lemma {:induction false} NameIsKnown(k: string, fields: seq<Field>)
    requires exists i :: 0 <= i < |fields| && fields[i].name == k
    ensures KnownKey(k, fields)
  {
  }

  lemma {:induction false} NullFields(v: J.Value, w: J.Value, k: string, fields: seq<Field>, s: Schema, depth: nat,
                                      o: Options)
    requires v.Obj? && k in v.m && v.m[k].Null? && w == J.Obj(v.m - {k})
    requires forall i :: 0 <= i < |fields| ==> fields[i].typ.Union? ==>
      k != fields[i].name && k != DiscKey(fields[i].name)
    ensures EncFields(v, fields, s, depth, o) == EncFields(w, fields, s, depth, o)
    decreases |fields|
  {
    hide EncField, ToPending;
    if fields != [] {
      NullField(v, w, k, fields[0], s, depth, o);
      NullFields(v, w, k, fields[1..], s, depth, o);
    }
  }

  lemma {:induction false} NullField(v: J.Value, w: J.Value, k: string, f: Field, s: Schema, depth: nat, o: Options)
    requires v.Obj? && k in v.m && v.m[k].Null? && w == J.Obj(v.m - {k})
      && (f.typ.Union? ==> k != f.name && k != DiscKey(f.name))
    ensures EncField(v, f, s, depth, o) == EncField(w, f, s, depth, o)
  {
    hide EncPresent, EncVariant, DiscKey;
  }

  // Struct sizes.

  /**
   The structs that can be written: those of alignment 1, 2, 4 or 8 whose size is a multiple of it up to 4,
   12, 48 or 80 bytes, or one of the larger sizes listed.
   */
  lemma {:induction false} DispatchableExactly(size: nat, align: nat)
    ensures Dispatchable(size, align) <==>
            || (align == 1 && (1 <= size <= 4 || size == 8))
            || (align == 2 && size % 2 == 0 && (2 <= size <= 12 || size == 16))
            || (align == 4 && size % 4 == 0 && (4 <= size <= 48 || size == 56 || size == 64))
            || (align == 8 && size % 8 == 0 && (8 <= size <= 80 || size in {96, 128, 192, 256}))
  {
  }

  // Struct documents.

  predicate Accepts(m: map<string, J.Value>, f: StructField) {
    f.name in m && !m[f.name].Null? && FieldBytes(f.typ, m[f.name]).Ok?
  }

  /**
   A struct is taken exactly from an object whose keys are all field names and that gives every field a
   value which the field takes; nothing may be missing or `null`.
   */
  lemma {:induction false} StructsExactly(v: J.Value, def: StructDef)
    ensures StructBytes(v, def).Ok? <==>
            && v.Obj? && (forall k :: k in v.m ==> exists i :: 0 <= i < |def.fields| && def.fields[i].name == k)
            && (forall f :: f in def.fields ==> Accepts(v.m, f))
  {
    hide FieldBytes, FillFields;
    if v.Obj? { AllTaken(v.m, def.fields, Zeros(def.bytesize)); }
  }

  lemma {:induction false} AllTaken(m: map<string, J.Value>, fields: seq<StructField>, buf: seq<byte>)
    ensures FillFields(m, fields, buf).Ok? <==> forall f :: f in fields ==> Accepts(m, f)
    decreases |fields|
  {
    hide FieldBytes, Splice;
    if fields != [] {
      if Accepts(m, fields[0]) {
        AllTaken(m, fields[1..], Splice(buf, fields[0].offset, FieldBytes(fields[0].typ, m[fields[0].name]).value));
      }
      assert fields == [fields[0]] + fields[1..];
    }
  }

  /** A fixed array is taken exactly from an array of its length whose elements are all taken. */
  lemma {:induction false} ArraysExactly(t: StructFieldType, v: J.Value)
    requires t.SScalarArray? || t.SStructArray?
    ensures FieldBytes(t, v).Ok? <==>
            v.Arr? && |v.items| == t.len && forall i :: 0 <= i < |v.items| ==> OneElement(t, v.items[i]).Ok?
  {
    hide OneElement, ElementBytes;
    if v.Arr? { AllElementsTaken(t, v.items); }
  }

  lemma {:induction false} AllElementsTaken(t: StructFieldType, items: seq<J.Value>)
    requires t.SScalarArray? || t.SStructArray?
    ensures ElementBytes(t, items).Ok? <==> forall i :: 0 <= i < |items| ==> OneElement(t, items[i]).Ok?
    decreases |items|
  {
    hide OneElement;
    if items != [] { AllElementsTaken(t, items[..|items| - 1]); }
  }

  /** The byte lies in the window of no field. */
  predicate IsPadding(fields: seq<StructField>, at: nat) {
    forall i :: 0 <= i < |fields| ==> !(fields[i].offset <= at < fields[i].offset + StructFieldSize(fields[i].typ))
  }

  /** Padding is zero. */
  lemma {:induction false} PaddingIsZero(v: J.Value, def: StructDef, at: nat)
    requires StructBytes(v, def).Ok? && at < def.bytesize && IsPadding(def.fields, at)
    ensures StructBytes(v, def).value[at] == 0
  {
    hide FillFields;
    PaddingKept(v.m, def.fields, Zeros(def.bytesize), at);
  }

  lemma {:induction false} PaddingKept(m: map<string, J.Value>, fields: seq<StructField>, buf: seq<byte>, at: nat)
    requires FillFields(m, fields, buf).Ok? && at < |buf| && IsPadding(fields, at)
    ensures FillFields(m, fields, buf).value[at] == buf[at]
    decreases |fields|
  {
    hide FieldBytes, StructFieldSize;
    if fields != [] {
      var part := FieldBytes(fields[0].typ, m[fields[0].name]).value;
      assert !(fields[0].offset <= at < fields[0].offset + |part|);
      assert IsPadding(fields[1..], at);
      PaddingKept(m, fields[1..], Splice(buf, fields[0].offset, part), at);
    }
  }

  /**
   A vector of structs is taken exactly if it is an array of fewer than 2^32 structs of a size that can be
   written.
   */
  lemma {:induction false} StructVectorsExactly(x: J.Value, def: StructDef, hex: bool, s: Schema, depth: nat,
                                                o: Options)
    requires depth <= o.maxDepth
    ensures EncVector(x, EStruct(def), hex, s, depth, o).Ok? <==>
            && x.Arr? && |x.items| < 4294967296 && def.minalign != 0 && Dispatchable(def.bytesize, def.minalign)
            && forall i :: 0 <= i < |x.items| ==> StructBytes(x.items[i], def).Ok?
  {
    hide EncStructs, StructBytes, Dispatchable, EncTables, EncKeyed, EncScalars;
    if x.Arr? { AllStructsTaken(x.items, def); }
  }

  lemma {:induction false} AllStructsTaken(items: seq<J.Value>, def: StructDef)
    ensures EncStructs(items, def).Ok? <==> forall i :: 0 <= i < |items| ==> StructBytes(items[i], def).Ok?
  {
    hide StructBytes;
    if items != [] { AllStructsTaken(items[..|items| - 1], def); }
  }

  // Byte texts.

  /** A text is taken for a `[ubyte]` exactly if it is the base64, or in either case the hex, of the bytes. */
  lemma {:induction false} ByteTextsExactly(s: string, hex: bool, bs: seq<byte>)
    ensures EncBlob(J.Str(s), hex) == Ok(BytesVal(bs)) <==>
            if hex then Lower(s) == EncodeHex(bs) else s == EncodeBase64(bs)
    ensures EncBlob(J.Str(s), hex).Err? ==> EncBlob(J.Str(s), hex) == Err(if hex then InvalidHex else InvalidBase64)
  {
    hide DecodeHex, DecodeBase64, EncodeHex, EncodeBase64, Lower;
    HexExactly(s, bs);
    Base64Exactly(s, bs);
  }

  // Wrong kinds of values.

  /** No value of this kind is taken for a field of the type. */
  predicate WrongKind(x: J.Value, typ: FieldType) {
    match typ
    case String => !x.Str?
    case Struct(_) | Table(_) => !x.Obj?
    case Vector(_) => !x.Arr? && !x.Obj? && !x.Str?
    case _ => false
  }

  /** What does not have its field's kind is a mismatch, and what a required field lacks is reported as missing. */
  lemma {:induction false} KindsAreChecked(v: J.Value, f: Field, s: Schema, depth: nat, o: Options)
    requires v.Obj? && !f.typ.Union?
    ensures J.Present(v.m, f.name).None? ==>
              EncField(v, f, s, depth, o) == if f.required then Err(MissingRequiredField) else Ok(None)
    ensures J.Present(v.m, f.name).Some? && WrongKind(v.m[f.name], f.typ) && depth < o.maxDepth ==>
              EncField(v, f, s, depth, o) == Err(TypeMismatch)
  {
    hide EncPresent, WrongKind;
    if J.Present(v.m, f.name).Some? && WrongKind(v.m[f.name], f.typ) && depth < o.maxDepth {
      WrongIsMismatch(v.m[f.name], f, s, depth, o);
    }
  }

  lemma {:induction false} WrongIsMismatch(x: J.Value, f: Field, s: Schema, depth: nat, o: Options)
    requires WrongKind(x, f.typ) && depth < o.maxDepth
    ensures EncPresent(x, f, s, depth, o) == Err(TypeMismatch)
  {
    hide EncTables, EncKeyed, EncTable;
    match f.typ {
      case Table(t) => NoTable(x, t, s, depth + 1, o);
      case Vector(el) => assert EncVector(x, el, f.hex, s, depth + 1, o) == Err(TypeMismatch);
      case _ =>
    }
  }

  lemma {:induction false} NoTable(x: J.Value, t: nat, s: Schema, depth: nat, o: Options)
    requires !x.Obj?
    ensures EncTable(x, t, s, depth, o) == Err(TypeMismatch)
  {
  }

  /** A union goes by the string under its name with `_type`; without one there may be no value. */
  lemma {:induction false} TagsAreChecked(v: J.Value, name: string, variants: seq<Variant>, s: Schema, depth: nat,
                                          o: Options)
    requires v.Obj?
    ensures var (tag, r) := (name + "_type", EncUnion(v, name, variants, s, depth, o));
            if tag !in v.m then
              r == if name in v.m && !v.m[name].Null? then Err(MissingUnionDiscriminator) else Ok(None)
            else if !v.m[tag].Str? then r == Err(TypeMismatch)
            else (forall x :: x in variants ==> x.name != v.m[tag].s) ==> r == Err(UnknownEnumName)
  {
    hide EncVariant, VariantByName;
    var tag := name + "_type";
    if tag in v.m && v.m[tag].Str? { VariantNamed(variants, v.m[tag].s); }
  }

  /** The first variant of that name decides: NONE takes no value, any other needs one. */
  lemma {:induction false} VariantsAreChecked(v: J.Value, name: string, variants: seq<Variant>, x: Variant, s: Schema,
                                              depth: nat, o: Options)
    requires v.Obj? && name + "_type" in v.m && v.m[name + "_type"] == J.Str(x.name)
    requires IsFirst(variants, (y: Variant) => y.name == x.name, Some(x))
    ensures var r := EncUnion(v, name, variants, s, depth, o);
            && (x.value == 0 ==> r == Ok(Some(PushUnion(0, None))))
            && (0 < x.value < 256 && x.typ.Some? && name !in v.m ==> r == Err(MissingRequiredField))
  {
    hide EncVariant, VariantByName;
    VariantNamed(variants, x.name);
    FirstIsUnique(variants, (y: Variant) => y.name == x.name, VariantByName(variants, x.name), Some(x));
  }
}
