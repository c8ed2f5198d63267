/**
 Building with unknown keys allowed is building strictly after erasing them: the option changes nothing
 else, at any depth. Struct objects still reject unknown keys.

 Erasing follows the schema: a key goes when the table it occurs in has neither a field nor a union tag of
 that name, in the document's own tables, in the tables of its vectors and keyed objects, and in the
 variants its tags choose. Values of other fields stay as they are.

 The two orders of doing things must commute for keyed objects, whose rows are merged with their keys and
 sorted before they are built: erasing before that or after it gives the same rows in the same order.
 The schema's names must be distinct, and only a tag field may carry the name of a union's tag.
 */
module Lenient {
  import opened Wrappers
  import opened Schema
  import opened Scalars
  import opened FromJson
  import J = Json
  import L = StructLayout
  import Text

  predicate DistinctNames(fields: seq<Field>) {
    forall i, j :: 0 <= i < j < |fields| ==> fields[i].name != fields[j].name
  }

  /** Only a tag field may carry the name of a union's tag. */
  predicate TagNamesReserved(fields: seq<Field>) {
    forall i, j ::
      0 <= i < |fields| && 0 <= j < |fields| && fields[i].typ.Union? && fields[j].name == DiscKey(fields[i].name) ==>
      fields[j].typ.Scalar? && fields[j].typ.st.UType?
  }

  predicate NamedApart(s: Schema) {
    forall t :: 0 <= t < |s.tables| ==> DistinctNames(s.tables[t].fields) && TagNamesReserved(s.tables[t].fields)
  }

  /** The document without the keys that name no field, nor a union's tag, of the table they occur in. */
  function EraseTable(v: J.Value, t: nat, s: Schema): J.Value
    decreases J.Height(v), 1
  {
    if !v.Obj? then v
    else
      var fields := TableAt(s, t).fields;
      assert v == J.Obj(v.m);
      J.Obj(map k | k in v.m && KnownKey(k, fields) :: EraseAt(v.m, k, fields, s))
  }

  function EraseAt(m: map<string, J.Value>, k: string, fields: seq<Field>, s: Schema): J.Value
    requires k in m
    decreases J.Height(J.Obj(m)), 0
  {
    J.MemberHeight(m, k);
    EraseMember(m[k], k, m, fields, s)
  }

  function EraseMember(x: J.Value, k: string, m: map<string, J.Value>, fields: seq<Field>, s: Schema): J.Value
    decreases J.Height(x), 3
  {
    match FieldByName(fields, k)
    case None => x
    case Some(f) =>
      match f.typ
      case Table(t) => EraseTable(x, t, s)
      case Vector(el) => if el.ETable? then EraseVector(x, el.index, s) else x
      case Union(variants) =>
        (match TagVariant(m, k, variants)
         case Some(VTable(t)) => EraseTable(x, t, s)
         case _ => x)
      case _ => x
  }

  /** The variant type that the tag beside a union value names. */
  function TagVariant(m: map<string, J.Value>, name: string, variants: seq<Variant>): Option<VariantType> {
    if DiscKey(name) in m && m[DiscKey(name)].Str? then
      match VariantByName(variants, m[DiscKey(name)].s)
      case Some(variant) => variant.typ
      case None => None
    else None
  }

  function EraseVector(x: J.Value, t: nat, s: Schema): J.Value
    decreases J.Height(x), 2
  {
    match x
    case Arr(items) =>
      J.Arr(seq(|items|, i requires 0 <= i < |items| => EraseItem(items, i, t, s)))
    case Obj(m) =>
      if KeyedField(TableAt(s, t).fields).None? then x
      else J.Obj(map k | k in m :: EraseRow(m, k, t, s))
    case _ => x
  }

  function EraseItem(items: seq<J.Value>, i: nat, t: nat, s: Schema): J.Value
    requires i < |items|
    decreases J.Height(J.Arr(items)), 0
  {
    J.ItemHeight(items, i);
    EraseTable(items[i], t, s)
  }

  function EraseRow(m: map<string, J.Value>, k: string, t: nat, s: Schema): J.Value
    requires k in m
    decreases J.Height(J.Obj(m)), 0
  {
    J.MemberHeight(m, k);
    EraseTable(m[k], t, s)
  }

  predicate Modes(lenient: Options, strict: Options) {
    lenient.maxDepth == strict.maxDepth && !lenient.unknownIsError && strict.unknownIsError
  }

  lemma {:induction false} LenientTable(v: J.Value, t: nat, s: Schema, depth: nat, lenient: Options, strict: Options)
    requires NamedApart(s) && Modes(lenient, strict)
    ensures EncTable(v, t, s, depth, lenient) == EncTable(EraseTable(v, t, s), t, s, depth, strict)
    decreases J.Height(v), 3, 0
  {
    hide *;
    if v.Obj? {
      var fields := TableAt(s, t).fields;
      ErasedIsObject(v, t, s);
      NamesApartAt(s, t);
      LenientFields(v, t, s, fields, depth, lenient, strict);
      ErasedIsKnown(v, t, s);
      TableOfFields(v, EraseTable(v, t, s), t, s, depth, lenient, strict);
    } else {
      NotAnObject(v, t, s, depth, lenient, strict);
    }
  }

  lemma {:induction false} NotAnObject(v: J.Value, t: nat, s: Schema, depth: nat, lenient: Options, strict: Options)
    requires !v.Obj?
    ensures EncTable(v, t, s, depth, lenient) == EncTable(EraseTable(v, t, s), t, s, depth, strict)
  {
  }

  lemma {:induction false} ErasedIsObject(v: J.Value, t: nat, s: Schema)
    requires v.Obj?
    ensures EraseTable(v, t, s).Obj?
  {
    hide EraseMember, KnownKey, TableAt;
  }

  lemma {:induction false} NamesApartAt(s: Schema, t: nat)
    requires NamedApart(s)
    ensures DistinctNames(TableAt(s, t).fields) && TagNamesReserved(TableAt(s, t).fields)
  {
  }

  lemma {:induction false} ErasedIsKnown(v: J.Value, t: nat, s: Schema)
    requires v.Obj? && EraseTable(v, t, s).Obj?
    ensures !HasUnknownKey(EraseTable(v, t, s).m, TableAt(s, t).fields)
  {
    hide EraseMember, KnownKey, TableAt;
  }

  lemma {:induction false} TableOfFields(v: J.Value, ev: J.Value, t: nat, s: Schema, depth: nat, lenient: Options,
                                         strict: Options)
    requires Modes(lenient, strict) && v.Obj? && ev.Obj?
    requires !HasUnknownKey(ev.m, TableAt(s, t).fields)
    requires EncFields(v, TableAt(s, t).fields, s, depth, lenient) ==
      EncFields(ev, TableAt(s, t).fields, s, depth, strict)
    ensures EncTable(v, t, s, depth, lenient) == EncTable(ev, t, s, depth, strict)
  {
    hide EncFields, WriteSlots, HasUnknownKey, TableAt;
  }

  lemma {:induction false} LenientFields(v: J.Value, t: nat, s: Schema, todo: seq<Field>, depth: nat, lenient: Options,
                                         strict: Options)
    requires NamedApart(s) && Modes(lenient, strict) && v.Obj? && EraseTable(v, t, s).Obj?
    requires DistinctNames(TableAt(s, t).fields)
    requires forall f :: f in todo ==> f in TableAt(s, t).fields
    ensures EncFields(v, todo, s, depth, lenient) == EncFields(EraseTable(v, t, s), todo, s, depth, strict)
    decreases J.Height(v), 2, |todo|
  {
    hide NamedApart, Modes, EncField, EraseTable, TableAt, ToPending;
    if todo != [] {
      LenientField(v, t, s, todo[0], depth, lenient, strict);
      LenientFields(v, t, s, todo[1..], depth, lenient, strict);
    }
  }

  /** What erasure leaves of the members a field looks at. */
  lemma {:induction false} ErasedMember(v: J.Value, t: nat, s: Schema, f: Field)
    requires v.Obj? && EraseTable(v, t, s).Obj? && f in TableAt(s, t).fields && DistinctNames(TableAt(s, t).fields)
    ensures var em := EraseTable(v, t, s).m; var fields := TableAt(s, t).fields;
            && (f.name in v.m <==> f.name in em)
            && (f.name in v.m ==> em[f.name] == EraseMember(v.m[f.name], f.name, v.m, fields, s))
            && FieldByName(fields, f.name) == Some(f)
            && (f.typ.Union? ==> (DiscKey(f.name) in v.m <==> DiscKey(f.name) in em))
  {
    hide EraseMember, TableAt;
    var fields := TableAt(s, t).fields;
    var k :| 0 <= k < |fields| && fields[k] == f;
    FindField(fields, k);
    assert KnownKey(f.name, fields);
    if f.typ.Union? { assert KnownKey(DiscKey(f.name), fields); }
  }

  lemma {:induction false} FindField(fields: seq<Field>, k: nat)
    requires k < |fields| && DistinctNames(fields)
    ensures FieldByName(fields, fields[k].name) == Some(fields[k])
  {
    if k > 0 { FindField(fields[1..], k - 1); }
  }

  /** A member whose field holds no nested table is left as it is, whatever its key. */
  lemma {:induction false} ErasedLeaf(x: J.Value, k: string, m: map<string, J.Value>, fields: seq<Field>, s: Schema)
    requires !x.Obj? && !x.Arr?
    ensures EraseMember(x, k, m, fields, s) == x
  {
    hide TagVariant, FieldByName;
  }

  /** The tag a union reads is unchanged. */
  lemma {:induction false} ErasedTag(v: J.Value, t: nat, s: Schema, name: string)
    requires v.Obj? && EraseTable(v, t, s).Obj? && DiscKey(name) in v.m && DiscKey(name) in EraseTable(v, t, s).m
    ensures v.m[DiscKey(name)].Str? <==> EraseTable(v, t, s).m[DiscKey(name)].Str?
    ensures v.m[DiscKey(name)].Str? ==> EraseTable(v, t, s).m[DiscKey(name)] == v.m[DiscKey(name)]
  {
    hide EraseMember, KnownKey, TableAt;
    var x, fields := v.m[DiscKey(name)], TableAt(s, t).fields;
    assert EraseTable(v, t, s).m[DiscKey(name)] == EraseMember(x, DiscKey(name), v.m, fields, s);
    ErasedKind(x, DiscKey(name), v.m, fields, s);
    if x.Str? { ErasedLeaf(x, DiscKey(name), v.m, fields, s); }
  }

  lemma {:induction false} ErasedKind(x: J.Value, k: string, m: map<string, J.Value>, fields: seq<Field>, s: Schema)
    ensures EraseMember(x, k, m, fields, s).Str? <==> x.Str?
    ensures EraseMember(x, k, m, fields, s).Null? <==> x.Null?
    ensures EraseMember(x, k, m, fields, s).Obj? <==> x.Obj?
  {
    hide KnownKey, TagVariant, TableAt;
  }

  lemma {:induction false} LenientField(v: J.Value, t: nat, s: Schema, f: Field, depth: nat, lenient: Options,
                                        strict: Options)
    requires NamedApart(s) && Modes(lenient, strict) && v.Obj? && EraseTable(v, t, s).Obj?
    requires DistinctNames(TableAt(s, t).fields) && f in TableAt(s, t).fields
    ensures EncField(v, f, s, depth, lenient) == EncField(EraseTable(v, t, s), f, s, depth, strict)
    decreases J.Height(v), 1, 0
  {
    hide *;
    var ev, fields := EraseTable(v, t, s), TableAt(s, t).fields;
    ErasedMember(v, t, s, f);
    if f.name in v.m {
      J.MemberHeight(v.m, f.name);
      ErasedKind(v.m[f.name], f.name, v.m, fields, s);
    }
    if f.typ.Union? {
      if DiscKey(f.name) in v.m { ErasedTag(v, t, s, f.name); }
      if f.name in v.m {
        LenientVariant(v.m[f.name], f, v.m, fields, s, depth + 1, lenient, strict);
      }
      UnionOfMembers(v, ev, f, s, depth + 1, lenient, strict);
    } else if f.name in v.m {
      LenientPresent(v.m[f.name], f, v.m, fields, s, depth, lenient, strict);
    }
    FieldOfMember(v, ev, f, s, depth, lenient, strict);
  }

  lemma {:induction false} FieldOfMember(v: J.Value, ev: J.Value, f: Field, s: Schema, depth: nat, lenient: Options,
                                         strict: Options)
    requires v.Obj? && ev.Obj? && (f.name in v.m <==> f.name in ev.m)
    requires f.name in v.m ==> (v.m[f.name].Null? <==> ev.m[f.name].Null?)
    requires f.typ.Union? ==>
      EncUnion(v, f.name, f.typ.variants, s, depth + 1, lenient) ==
        EncUnion(ev, f.name, f.typ.variants, s, depth + 1, strict)
    requires !f.typ.Union? && f.name in v.m ==>
      EncPresent(v.m[f.name], f, s, depth, lenient) == EncPresent(ev.m[f.name], f, s, depth, strict)
    ensures EncField(v, f, s, depth, lenient) == EncField(ev, f, s, depth, strict)
  {
    hide EncUnion, EncPresent;
  }

  lemma {:induction false} UnionOfMembers(v: J.Value, ev: J.Value, f: Field, s: Schema, depth: nat, lenient: Options,
                                          strict: Options)
    requires v.Obj? && ev.Obj? && f.typ.Union? && (f.name in v.m <==> f.name in ev.m)
    requires f.name in v.m ==> (v.m[f.name].Null? <==> ev.m[f.name].Null?)
    requires DiscKey(f.name) in v.m <==> DiscKey(f.name) in ev.m
    requires DiscKey(f.name) in v.m ==>
      && (v.m[DiscKey(f.name)].Str? <==> ev.m[DiscKey(f.name)].Str?)
      && (v.m[DiscKey(f.name)].Str? ==> ev.m[DiscKey(f.name)] == v.m[DiscKey(f.name)])
    requires f.name in v.m && TagVariant(v.m, f.name, f.typ.variants).Some? ==>
      var vt := TagVariant(v.m, f.name, f.typ.variants).value;
      EncVariant(v.m[f.name], vt, s, depth, lenient) == EncVariant(ev.m[f.name], vt, s, depth, strict)
    ensures EncUnion(v, f.name, f.typ.variants, s, depth, lenient) ==
      EncUnion(ev, f.name, f.typ.variants, s, depth, strict)
  {
    hide EncVariant, VariantByName, DiscKey;
  }

  lemma {:induction false} LenientVariant(x: J.Value, f: Field, m: map<string, J.Value>, fields: seq<Field>, s: Schema,
                                          depth: nat,
                                          lenient: Options, strict: Options)
    requires NamedApart(s) && Modes(lenient, strict) && f.typ.Union? && FieldByName(fields, f.name) == Some(f)
    ensures TagVariant(m, f.name, f.typ.variants).Some? ==>
              var vt := TagVariant(m, f.name, f.typ.variants).value;
              EncVariant(x, vt, s, depth, lenient) ==
                EncVariant(EraseMember(x, f.name, m, fields, s), vt, s, depth, strict)
    decreases J.Height(x), 4, 0
  {
    hide NamedApart, Modes, EncTable, EraseTable, TagVariant, FieldByName;
    match TagVariant(m, f.name, f.typ.variants) {
      case Some(vt) => if vt.VTable? { LenientTable(x, vt.index, s, depth, lenient, strict); }
      case None =>
    }
  }

  lemma {:induction false} LenientPresent(x: J.Value, f: Field, m: map<string, J.Value>, fields: seq<Field>, s: Schema,
                                          depth: nat,
                                          lenient: Options, strict: Options)
    requires NamedApart(s) && Modes(lenient, strict) && !f.typ.Union? && FieldByName(fields, f.name) == Some(f)
    ensures EncPresent(x, f, s, depth, lenient) == EncPresent(EraseMember(x, f.name, m, fields, s), f, s, depth, strict)
    decreases J.Height(x), 4, 0
  {
    hide NamedApart, Modes, EncTable, EraseTable, EncVector, EraseVector, FieldByName, EncodeScalar;
    match f.typ {
      case Table(t) => LenientTable(x, t, s, depth + 1, lenient, strict);
      case Vector(el) =>
        if el.ETable? {
          LenientVector(x, el.index, f.hex, s, depth + 1, lenient, strict);
        } else {
          PlainVector(x, el, f.hex, s, depth + 1, lenient, strict);
        }
      case _ =>
    }
  }

  lemma {:induction false} PlainVector(x: J.Value, el: ElementType, hex: bool, s: Schema, depth: nat, lenient: Options,
                                       strict: Options)
    requires Modes(lenient, strict) && !el.ETable?
    ensures EncVector(x, el, hex, s, depth, lenient) == EncVector(x, el, hex, s, depth, strict)
  {
    hide EncScalars, EncStrings, EncStructs, EncBlob;
  }

  lemma {:induction false} LenientVector(x: J.Value, t: nat, hex: bool, s: Schema, depth: nat, lenient: Options,
                                         strict: Options)
    requires NamedApart(s) && Modes(lenient, strict)
    ensures EncVector(x, ETable(t), hex, s, depth, lenient) ==
      EncVector(EraseVector(x, t, s), ETable(t), hex, s, depth, strict)
    decreases J.Height(x), 3, 0
  {
    hide *;
    var kf := KeyedField(TableAt(s, t).fields);
    var ex := EraseVector(x, t, s);
    if x.Arr? {
      ErasedItems(x, t, s);
      ItemHeights(x);
      ItemHeights(ex);
      LenientRows(x.items, ex.items, t, s, depth + 1, lenient, strict, J.Height(x), J.Height(ex));
      ArrayOfRows(x, ex, t, hex, s, depth, lenient, strict);
    } else if x.Obj? && kf.Some? {
      LenientKeyed(x, t, kf.value, s, depth + 1, lenient, strict);
      KeyedObject(x, ex, t, kf.value, hex, s, depth, lenient, strict);
    } else {
      NoRows(x, t, hex, s, depth, lenient, strict);
    }
  }

  lemma {:induction false} NoRows(x: J.Value, t: nat, hex: bool, s: Schema, depth: nat, lenient: Options,
                                  strict: Options)
    requires Modes(lenient, strict) && !x.Arr? && (x.Obj? ==> KeyedField(TableAt(s, t).fields).None?)
    ensures EncVector(x, ETable(t), hex, s, depth, lenient) ==
      EncVector(EraseVector(x, t, s), ETable(t), hex, s, depth, strict)
  {
    hide KeyedField, TableAt;
  }

  lemma {:induction false} ErasedItems(x: J.Value, t: nat, s: Schema)
    requires x.Arr?
    ensures var ex := EraseVector(x, t, s);
            ex.Arr? && |ex.items| == |x.items| && forall i :: 0 <= i < |x.items| ==>
              ex.items[i] == EraseTable(x.items[i], t, s)
  {
    hide EraseTable;
  }

  lemma {:induction false} ArrayOfRows(x: J.Value, ex: J.Value, t: nat, hex: bool, s: Schema, depth: nat,
                                       lenient: Options, strict: Options)
    requires Modes(lenient, strict) && x.Arr? && ex.Arr?
    requires forall i :: 0 <= i < |x.items| ==> J.Height(x.items[i]) < J.Height(x)
    requires forall i :: 0 <= i < |ex.items| ==> J.Height(ex.items[i]) < J.Height(ex)
    requires EncTables(x.items, t, s, depth + 1, lenient, J.Height(x)) ==
      EncTables(ex.items, t, s, depth + 1, strict, J.Height(ex))
    ensures EncVector(x, ETable(t), hex, s, depth, lenient) == EncVector(ex, ETable(t), hex, s, depth, strict)
  {
    hide EncTables, KeyedField, TableAt, J.Height;
  }

  lemma {:induction false} KeyedObject(x: J.Value, ex: J.Value, t: nat, kf: Field, hex: bool, s: Schema, depth: nat,
                                       lenient: Options, strict: Options)
    requires Modes(lenient, strict) && x.Obj? && ex.Obj? && KeyedField(TableAt(s, t).fields) == Some(kf)
    requires EncKeyed(x, t, kf, s, depth + 1, lenient) == EncKeyed(ex, t, kf, s, depth + 1, strict)
    ensures EncVector(x, ETable(t), hex, s, depth, lenient) == EncVector(ex, ETable(t), hex, s, depth, strict)
  {
    hide EncKeyed, KeyedField, TableAt;
  }

  lemma {:induction false} LenientRows(rows: seq<J.Value>, erased: seq<J.Value>, t: nat, s: Schema, depth: nat,
                                       lenient: Options, strict: Options, bound: nat, bound': nat)
    requires NamedApart(s) && Modes(lenient, strict) && |rows| == |erased|
    requires forall i :: 0 <= i < |rows| ==> erased[i] == EraseTable(rows[i], t, s)
    requires forall i :: 0 <= i < |rows| ==> J.Height(rows[i]) < bound
    requires forall i :: 0 <= i < |rows| ==> J.Height(erased[i]) < bound'
    ensures EncTables(rows, t, s, depth, lenient, bound) == EncTables(erased, t, s, depth, strict, bound')
    decreases bound, 1, |rows|
  {
    hide NamedApart, Modes, EncTable, EraseTable, J.Height;
    if rows != [] {
      var n := |rows| - 1;
      LenientRows(rows[..n], erased[..n], t, s, depth, lenient, strict, bound, bound');
      LenientTable(rows[n], t, s, depth, lenient, strict);
    }
  }

  // Keyed objects.

  function EraseEntry(e: Entry, t: nat, s: Schema): Entry {
    Entry(e.key, EraseTable(e.row, t, s))
  }

  function EraseOne(r: Result<Entry, BuildError>, t: nat, s: Schema): Result<Entry, BuildError> {
    match r
    case Ok(entry) => Ok(EraseEntry(entry, t, s))
    case Err(e) => Err(e)
  }

  function EraseEntries(es: seq<Entry>, t: nat, s: Schema): (r: seq<Entry>)
    ensures |r| == |es|
  {
    seq(|es|, i requires 0 <= i < |es| => EraseEntry(es[i], t, s))
  }

  function EraseResult(r: Result<seq<Entry>, BuildError>, t: nat, s: Schema): Result<seq<Entry>, BuildError> {
    match r
    case Ok(es) => Ok(EraseEntries(es, t, s))
    case Err(e) => Err(e)
  }

  lemma {:induction false} LenientKeyed(x: J.Value, t: nat, kf: Field, s: Schema, depth: nat, lenient: Options,
                                        strict: Options)
    requires NamedApart(s) && Modes(lenient, strict) && x.Obj? && KeyedField(TableAt(s, t).fields) == Some(kf)
    ensures EraseVector(x, t, s).Obj? && EncKeyed(x, t, kf, s, depth, lenient) ==
      EncKeyed(EraseVector(x, t, s), t, kf, s, depth, strict)
    decreases J.Height(x), 2, 0
  {
    hide *;
    var ex := EraseVector(x, t, s);
    ErasedObject(x, t, kf, s);
    SortedErased(x, ex, t, kf, s);
    if SortedEntries(x, kf).Ok? {
      var es, ees := SortedEntries(x, kf).value, SortedEntries(ex, kf).value;
      RowsErased(x, ex, es, t, s);
      LenientRows(Rows(es), Rows(ees), t, s, depth + 1, lenient, strict, J.Height(x), J.Height(ex));
    }
    KeyedOfRows(x, ex, t, kf, s, depth, lenient, strict);
  }

  lemma {:induction false} ErasedObject(x: J.Value, t: nat, kf: Field, s: Schema)
    requires x.Obj? && KeyedField(TableAt(s, t).fields) == Some(kf)
    ensures var ex := EraseVector(x, t, s);
            ex.Obj? && ex.m.Keys == x.m.Keys && forall k :: k in x.m ==> ex.m[k] == EraseTable(x.m[k], t, s)
  {
    hide EraseTable, KeyedField, TableAt;
  }

  lemma {:induction false} KeyedOfRows(x: J.Value, ex: J.Value, t: nat, kf: Field, s: Schema, depth: nat,
                                       lenient: Options, strict: Options)
    requires Modes(lenient, strict) && x.Obj? && ex.Obj?
      && SortedEntries(ex, kf) == EraseResult(SortedEntries(x, kf), t, s)
    requires SortedEntries(x, kf).Ok? ==>
      var (es, ees) := (SortedEntries(x, kf).value, SortedEntries(ex, kf).value);
      && (forall i :: 0 <= i < |es| ==> J.Height(Rows(es)[i]) < J.Height(x))
      && (forall i :: 0 <= i < |ees| ==> J.Height(Rows(ees)[i]) < J.Height(ex))
      && EncTables(Rows(es), t, s, depth + 1, lenient, J.Height(x)) ==
        EncTables(Rows(ees), t, s, depth + 1, strict, J.Height(ex))
    ensures EncKeyed(x, t, kf, s, depth, lenient) == EncKeyed(ex, t, kf, s, depth, strict)
  {
    hide EncTables, SortedEntries, EraseEntries, Rows, J.Height;
  }

  lemma {:induction false} RowsErased(x: J.Value, ex: J.Value, es: seq<Entry>, t: nat, s: Schema)
    requires x.Obj? && ex.Obj?
    requires forall e :: e in es ==> e.row.Obj? && J.Height(e.row) < J.Height(x)
    requires forall e :: e in EraseEntries(es, t, s) ==> e.row.Obj? && J.Height(e.row) < J.Height(ex)
    ensures var ees := EraseEntries(es, t, s);
            && |Rows(ees)| == |Rows(es)|
            && (forall i :: 0 <= i < |es| ==> Rows(ees)[i] == EraseTable(Rows(es)[i], t, s))
            && (forall i :: 0 <= i < |es| ==> J.Height(Rows(es)[i]) < J.Height(x))
            && (forall i :: 0 <= i < |es| ==> J.Height(Rows(ees)[i]) < J.Height(ex))
  {
    hide EraseTable, J.Height;
    var ees := EraseEntries(es, t, s);
    forall i | 0 <= i < |es| ensures J.Height(Rows(es)[i]) < J.Height(x) && J.Height(Rows(ees)[i]) < J.Height(ex) {
      assert es[i] in es && ees[i] in ees;
    }
  }

  /** Sorting looks at the keys only, so it commutes with erasing the rows. */
  lemma {:induction false} SortedErased(x: J.Value, ex: J.Value, t: nat, kf: Field, s: Schema)
    requires NamedApart(s) && KeyedField(TableAt(s, t).fields) == Some(kf)
    requires x.Obj? && ex.Obj? && ex.m.Keys == x.m.Keys && forall k :: k in x.m ==> ex.m[k] == EraseTable(x.m[k], t, s)
    ensures SortedEntries(ex, kf) == EraseResult(SortedEntries(x, kf), t, s)
    ensures SortedEntries(x, kf).Ok? ==>
              SortedEntries(ex, kf).Ok? && SortedEntries(ex, kf).value == EraseEntries(SortedEntries(x, kf).value, t, s)
    ensures SortedEntries(x, kf).Ok? ==> forall e :: e in SortedEntries(x, kf).value ==>
      e.row.Obj? && J.Height(e.row) < J.Height(x)
    ensures SortedEntries(ex, kf).Ok? ==> forall e :: e in SortedEntries(ex, kf).value ==>
      e.row.Obj? && J.Height(e.row) < J.Height(ex)
  {
    hide NamedApart, KeyedField, TableAt, EraseTable, KeyedEntries, SortEntries, EraseEntries, Text.SortedKeys,
      J.Height;
    var keys := Text.SortedKeys(x.m.Keys);
    EntriesErased(x.m, ex.m, keys, t, kf, s);
    if KeyedEntries(x.m, keys, kf).Ok? {
      SortErased(KeyedEntries(x.m, keys, kf).value, t, s);
    }
  }

  lemma {:induction false} EraseAppend(es: seq<Entry>, e: Entry, t: nat, s: Schema)
    ensures EraseEntries(es + [e], t, s) == EraseEntries(es, t, s) + [EraseEntry(e, t, s)]
    ensures EraseEntries([], t, s) == []
  {
    hide EraseTable;
  }

  lemma {:induction false} EraseSplit(es: seq<Entry>, t: nat, s: Schema)
    requires es != []
    ensures var n := |es| - 1; var ees := EraseEntries(es, t, s);
            ees[..n] == EraseEntries(es[..n], t, s) && ees[n] == EraseEntry(es[n], t, s) && es == es[..n] + [es[n]]
  {
    hide EraseTable;
  }

  lemma {:induction false} SortErased(es: seq<Entry>, t: nat, s: Schema)
    ensures SortEntries(EraseEntries(es, t, s)) == EraseEntries(SortEntries(es), t, s)
  {
    hide EraseEntries, EraseEntry, InsertEntry;
    EraseAppend([], Entry(IntKey(0), J.Null), t, s);
    if es != [] {
      var n := |es| - 1;
      EraseSplit(es, t, s);
      SortErased(es[..n], t, s);
      InsertErased(es[n], SortEntries(es[..n]), t, s);
    }
  }

  lemma {:induction false} InsertErased(e: Entry, es: seq<Entry>, t: nat, s: Schema)
    ensures InsertEntry(EraseEntry(e, t, s), EraseEntries(es, t, s)) == EraseEntries(InsertEntry(e, es), t, s)
  {
    hide EraseEntries, EraseTable, KeyLess;
    EraseAppend([], e, t, s);
    EraseAppend(es, e, t, s);
    if es != [] {
      var n := |es| - 1;
      EraseSplit(es, t, s);
      if KeyLess(e.key, es[n].key) {
        InsertErased(e, es[..n], t, s);
        EraseAppend(InsertEntry(e, es[..n]), es[n], t, s);
      }
    } else {
      assert [] + [e] == [e];
    }
  }

  lemma {:induction false} EntriesErased(m: map<string, J.Value>, em: map<string, J.Value>, keys: seq<string>, t: nat,
                                         kf: Field, s: Schema)
    requires NamedApart(s) && KeyedField(TableAt(s, t).fields) == Some(kf)
    requires em.Keys == m.Keys && (forall k :: k in m ==> em[k] == EraseTable(m[k], t, s)) && forall k :: k in keys ==>
      k in m
    ensures KeyedEntries(em, keys, kf) == EraseResult(KeyedEntries(m, keys, kf), t, s)
  {
    hide NamedApart, KeyedField, TableAt, EraseTable, EraseEntries, OneEntry, J.Height;
    EraseAppend([], Entry(IntKey(0), J.Null), t, s);
    if keys != [] {
      var n := |keys| - 1;
      EntriesErased(m, em, keys[..n], t, kf, s);
      EntryErased(m, em, keys[n], t, kf, s);
      var init, last := KeyedEntries(m, keys[..n], kf), OneEntry(m, keys[n], kf);
      if init.Ok? && last.Ok? { EraseAppend(init.value, last.value, t, s); }
    }
  }

  lemma {:induction false} EntryErased(m: map<string, J.Value>, em: map<string, J.Value>, k: string, t: nat, kf: Field,
                                       s: Schema)
    requires NamedApart(s) && KeyedField(TableAt(s, t).fields) == Some(kf) && k in m && k in em
      && em[k] == EraseTable(m[k], t, s)
    ensures OneEntry(em, k, kf) == EraseOne(OneEntry(m, k, kf), t, s)
  {
    hide *;
    NamesApartAt(s, t);
    EntryKind(m[k], t, s);
    if m[k].Obj? && KeyOf(kf, k).Ok? {
      KeyFieldFacts(TableAt(s, t).fields, kf, k);
      ErasedRow(m[k], t, s, kf, KeyOf(kf, k).value.1);
    }
    EntryOfRow(m, em, k, t, kf, s);
  }

  lemma {:induction false} EntryKind(v: J.Value, t: nat, s: Schema)
    ensures EraseTable(v, t, s).Obj? <==> v.Obj?
  {
    hide EraseMember, KnownKey, TableAt;
  }

  lemma {:induction false} EntryOfRow(m: map<string, J.Value>, em: map<string, J.Value>, k: string, t: nat, kf: Field,
                                      s: Schema)
    requires k in m && k in em && (em[k].Obj? <==> m[k].Obj?)
    requires m[k].Obj? && KeyOf(kf, k).Ok? ==>
      var key := KeyOf(kf, k).value.1;
      && (kf.name in em[k].m <==> kf.name in m[k].m)
      && (kf.name in m[k].m ==> em[k].m[kf.name] == m[k].m[kf.name] && em[k] == EraseTable(m[k], t, s))
      && (kf.name !in m[k].m ==> J.Obj(em[k].m[kf.name := key]) == EraseTable(J.Obj(m[k].m[kf.name := key]), t, s))
    ensures OneEntry(em, k, kf) == EraseOne(OneEntry(m, k, kf), t, s)
  {
    hide EraseTable, KeyOf, J.Height;
    if m[k].Obj? && KeyOf(kf, k).Ok? && kf.name in m[k].m { assert J.Obj(m[k].m) == m[k]; }
  }

  lemma {:induction false} KeyFieldFacts(fields: seq<Field>, kf: Field, k: string)
    requires KeyedField(fields) == Some(kf) && KeyOf(kf, k).Ok?
    ensures kf in fields && (kf.typ.String? || (kf.typ.Scalar? && !kf.typ.st.UType?))
  {
    hide Text.ParseI64;
    KeyedIsMember(fields);
  }

  lemma {:induction false} KeyedIsMember(fields: seq<Field>)
    requires KeyedField(fields).Some?
    ensures KeyedField(fields).value in fields
  {
    if !fields[0].key { KeyedIsMember(fields[1..]); }
  }

  /** Erasing a row does not touch its key member, and adding the key commutes with erasing. */
  lemma {:induction false} ErasedRow(v: J.Value, t: nat, s: Schema, kf: Field, key: J.Value)
    requires v.Obj? && EraseTable(v, t, s).Obj?
    requires DistinctNames(TableAt(s, t).fields) && TagNamesReserved(TableAt(s, t).fields)
    requires kf in TableAt(s, t).fields && (kf.typ.String? || (kf.typ.Scalar? && !kf.typ.st.UType?))
    ensures var em := EraseTable(v, t, s).m;
            && (kf.name in em <==> kf.name in v.m)
            && (kf.name in v.m ==> em[kf.name] == v.m[kf.name])
            && J.Obj(em[kf.name := key]) == EraseTable(J.Obj(v.m[kf.name := key]), t, s)
  {
    hide KnownKey, TableAt, FieldByName, EraseMember, TagNamesReserved, DistinctNames;
    var fields := TableAt(s, t).fields;
    var m' := v.m[kf.name := key];
    var e' := EraseTable(J.Obj(m'), t, s);
    ErasedMember(v, t, s, kf);
    ErasedMember(J.Obj(m'), t, s, kf);
    if kf.name in v.m { KeyMemberKept(v.m[kf.name], v.m, kf, fields, s); }
    KeyMemberKept(key, m', kf, fields, s);
    forall k | k in v.m && k != kf.name
      ensures EraseMember(v.m[k], k, m', fields, s) == EraseMember(v.m[k], k, v.m, fields, s)
    {
      OtherMemberKept(v.m[k], k, v.m, m', kf, fields, s);
    }
    assert e'.m == EraseTable(v, t, s).m[kf.name := key];
  }

  lemma {:induction false} KeyMemberKept(x: J.Value, m: map<string, J.Value>, kf: Field, fields: seq<Field>, s: Schema)
    requires FieldByName(fields, kf.name) == Some(kf) && (kf.typ.String? || kf.typ.Scalar?)
    ensures EraseMember(x, kf.name, m, fields, s) == x
  {
    hide EraseTable, FieldByName;
  }

  lemma {:induction false} OtherMemberKept(x: J.Value, k: string, m: map<string, J.Value>, m': map<string, J.Value>,
                                           kf: Field, fields: seq<Field>, s: Schema)
    requires TagNamesReserved(fields) && kf in fields && (kf.typ.String? || (kf.typ.Scalar? && !kf.typ.st.UType?))
    requires m'.Keys == m.Keys + {kf.name} && forall j :: j in m && j != kf.name ==> m'[j] == m[j]
    ensures EraseMember(x, k, m', fields, s) == EraseMember(x, k, m, fields, s)
  {
    hide *;
    var f := FieldByName(fields, k);
    if f.Some? && f.value.typ.Union? {
      FoundField(fields, k);
      KeyIsNoTag(fields, kf, f.value);
      SameTagVariant(m, m', k, kf, f.value.typ.variants);
      UnionErased(x, k, m, m', fields, s);
    } else {
      NoUnionErased(x, k, m, m', fields, s);
    }
  }

  lemma {:induction false} KeyIsNoTag(fields: seq<Field>, kf: Field, f: Field)
    requires TagNamesReserved(fields) && kf in fields && f in fields && f.typ.Union?
    requires kf.typ.String? || (kf.typ.Scalar? && !kf.typ.st.UType?)
    ensures kf.name != DiscKey(f.name)
  {
    var i :| 0 <= i < |fields| && fields[i] == f;
    var j :| 0 <= j < |fields| && fields[j] == kf;
  }

  lemma {:induction false} SameTagVariant(m: map<string, J.Value>, m': map<string, J.Value>, k: string, kf: Field,
                                          variants: seq<Variant>)
    requires m'.Keys == m.Keys + {kf.name} && (forall j :: j in m && j != kf.name ==> m'[j] == m[j])
      && kf.name != DiscKey(k)
    ensures TagVariant(m', k, variants) == TagVariant(m, k, variants)
  {
    hide VariantByName, DiscKey;
  }

  lemma {:induction false} UnionErased(x: J.Value, k: string, m: map<string, J.Value>, m': map<string, J.Value>,
                                       fields: seq<Field>, s: Schema)
    requires var f := FieldByName(fields, k);
      f.Some? && f.value.typ.Union? && TagVariant(m', k, f.value.typ.variants) == TagVariant(m, k, f.value.typ.variants)
    ensures EraseMember(x, k, m', fields, s) == EraseMember(x, k, m, fields, s)
  {
    hide EraseTable, EraseVector, TagVariant, FieldByName;
  }

  lemma {:induction false} NoUnionErased(x: J.Value, k: string, m: map<string, J.Value>, m': map<string, J.Value>,
                                         fields: seq<Field>, s: Schema)
    requires var f := FieldByName(fields, k); f.Some? ==> !f.value.typ.Union?
    ensures EraseMember(x, k, m', fields, s) == EraseMember(x, k, m, fields, s)
  {
    hide EraseTable, EraseVector, TagVariant, FieldByName;
  }

  lemma {:induction false} FoundField(fields: seq<Field>, k: string)
    requires FieldByName(fields, k).Some?
    ensures FieldByName(fields, k).value in fields && FieldByName(fields, k).value.name == k
  {
    if fields[0].name != k { FoundField(fields[1..], k); }
  }

  /** The option does not reach structs: a struct object with a key it has no field for never builds. */
  lemma {:induction false} StructsStayStrict(v: J.Value, def: StructDef, k: string)
    requires v.Obj? && k in v.m && k !in StructNames(def.fields)
    ensures L.StructBytes(v, def) == Err(UnknownField)
  {
    hide StructNames;
  }
}
