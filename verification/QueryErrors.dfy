/** Which error the executor reports for a step that cannot be taken, whatever the buffer holds. */
module QueryErrors {
  import opened Wrappers
  import opened Bytes
  import opened Schema
  import opened Scalars
  import opened Buffer
  import opened Executor
  import opened ExecutorFacts
  import Q = Query

  // Structs and fixed arrays.

  /**
   A struct is no leaf; its scalars are, but union tags are not; an array needs sized elements and an index
   or `[*]`.
   */
  lemma {:induction false} StructSteps(buf: seq<byte>, loc: nat, def: StructDef, r: Q.FieldRef, f: StructField,
                                       tail: seq<Q.Step>)
    requires FindStructField(def.fields, r) == Some(f)
    ensures var run := WalkStruct(buf, loc, def, [Q.Field(r)] + tail);
            match f.typ
            case SScalar(st, _) =>
              if tail != [] || st.UType? then run == Err(UnsupportedType)
              else run == Ok([Some(ScalarLeaf(ReadScalar(st, buf, loc + f.offset)))])
            case SStruct(_) => tail == [] || !tail[0].Field? ==> run == Err(UnsupportedType)
            case SScalarArray(_, _) => tail == [] || !(tail[0].Index? || tail[0].All?) ==> run == Err(UnsupportedType)
            case SStructArray(d, _) =>
              if d.bytesize == 0 then run == Err(ReflectionError)
              else tail == [] || !(tail[0].Index? || tail[0].All?) ==> run == Err(UnsupportedType)
  {
    hide FindStructField, ReadScalar, FanArray, WalkArrayElement;
    assert ([Q.Field(r)] + tail)[1..] == tail;
  }

  /** An index past an array's end is NULL; a scalar element is a leaf, unless it is a tag, and a struct is none. */
  lemma {:induction false} ArraySteps(buf: seq<byte>, loc: nat, t: StructFieldType, i: nat, rest: seq<Q.Step>)
    requires t.SScalarArray? || (t.SStructArray? && t.elemDef.bytesize != 0)
    ensures var run := WalkArray(buf, loc, t, [Q.Index(i)] + rest);
            if i >= t.len then run == Ok([None])
            else if t.SStructArray? then rest == [] || !rest[0].Field? ==> run == Err(UnsupportedType)
            else if rest != [] || t.elem.UType? then run == Err(UnsupportedType)
            else run == Ok([Some(ScalarLeaf(ReadScalar(t.elem, buf, loc + i * SizeOf(t.elem))))])
  {
    hide ReadScalar, SizeOf, FanArray;
    assert ([Q.Index(i)] + rest)[1..] == rest;
    var at := loc + Offset(i, ArrayStride(t));
    assert i < t.len ==> WalkArray(buf, loc, t, [Q.Index(i)] + rest) == WalkArrayElement(buf, at, t, rest);
    OffsetIsProduct(i, ArrayStride(t));
  }

  // Vectors.

  /** Struct elements: no leaf, NULL past the end, and an error without a size. */
  lemma {:induction false} StructElements(h: Heap, slots: map<nat, Slot>, f: Field, def: StructDef, s: Schema, i: nat,
                                          rest: seq<Q.Step>, o: ExecOptions)
    requires f.typ == Vector(EStruct(def))
    ensures var (at, all) := (WalkField(h, slots, f, s, [Q.Index(i)] + rest, o),
      WalkField(h, slots, f, s, [Q.All] + rest, o));
            if rest == [] then at == all == Err(UnsupportedType)
            else
              match BodyAtSlot(h, slots, f.offset)
              case None => at == Ok([None]) && all == Ok([])
              case Some(body) =>
                && (i >= Count(body) ==> at == Ok([None]))
                && (def.bytesize == 0 ==>
                  all == Err(ReflectionError) && (i < Count(body) ==> at == Err(ReflectionError)))
  {
    hide WalkField, BodyAtSlot, Count, WalkStruct, FanStructs;
    VectorRun(h, slots, f, s, Q.Index(i), rest, o);
    VectorRun(h, slots, f, s, Q.All, rest, o);
  }

  /** Table elements: NULL past the end, and otherwise no leaf. */
  lemma {:induction false} TableElements(h: Heap, slots: map<nat, Slot>, f: Field, t: nat, s: Schema, i: nat,
                                         rest: seq<Q.Step>, o: ExecOptions)
    requires f.typ == Vector(ETable(t)) && VectorAtSlot(h, slots, f.offset).Some?
    ensures var n := |VectorAtSlot(h, slots, f.offset).value|;
            && (i >= n ==> WalkField(h, slots, f, s, [Q.Index(i)] + rest, o) == Ok([None]))
            && (i < n && rest == [] ==> WalkField(h, slots, f, s, [Q.Index(i)] + rest, o) == Err(UnsupportedType))
            && (rest == [] ==> WalkField(h, slots, f, s, [Q.All] + rest, o) == Err(UnsupportedType))
  {
    hide WalkField, VectorAtSlot, WalkTable, FanTables;
    VectorRun(h, slots, f, s, Q.Index(i), rest, o);
    VectorRun(h, slots, f, s, Q.All, rest, o);
  }

  /** Scalar and string elements are leaves, tags are not, and nothing follows them. */
  lemma {:induction false} LeafElements(h: Heap, slots: map<nat, Slot>, f: Field, s: Schema, i: nat,
                                        rest: seq<Q.Step>, o: ExecOptions)
    requires f.typ.Vector? && !f.typ.elem.EStruct? && !f.typ.elem.ETable?
    requires rest != [] || f.typ.elem.EOther? || (f.typ.elem.EScalar? && f.typ.elem.st.UType?)
    ensures WalkField(h, slots, f, s, [Q.Index(i)] + rest, o) == Err(UnsupportedType)
    ensures WalkField(h, slots, f, s, [Q.All] + rest, o) == Err(UnsupportedType)
  {
    hide WalkField;
    VectorRun(h, slots, f, s, Q.Index(i), rest, o);
    VectorRun(h, slots, f, s, Q.All, rest, o);
  }

  // Keys.

  /**
   A lookup reports, in this order, a missing or ambiguous key field, the end of the path, and a key type that
   cannot be looked up; the scan sees the last only if there is a row.
   */
  lemma {:induction false} KeySteps(h: Heap, slots: map<nat, Slot>, f: Field, t: nat, s: Schema, key: Q.MapKey,
                                    rest: seq<Q.Step>, o: ExecOptions)
    requires f.typ == Vector(ETable(t))
    ensures var (run, kf) := (WalkField(h, slots, f, s, [Q.MapKey(key)] + rest, o),
      LookupKeyedField(TableAt(s, t).fields));
            if kf.Err? then run == Err(kf.error)
            else if rest == [] then run == Err(UnsupportedType)
            else
              match VectorAtSlot(h, slots, f.offset)
              case None => run == Ok([None])
              case Some(items) => !TakesKeys(kf.value.typ) ==>
                run == if o.strictKeys || items != [] then Err(UnsupportedType) else Ok([None])
  {
    hide WalkField, VectorAtSlot, WalkTable, TableAt, LookupKeyedField, Bisect, ElementKey;
    VectorRun(h, slots, f, s, Q.MapKey(key), rest, o);
  }

  /** `|keys` needs the key field too, and ends the path. */
  lemma {:induction false} KeysSteps(h: Heap, slots: map<nat, Slot>, f: Field, t: nat, s: Schema, rest: seq<Q.Step>,
                                     o: ExecOptions)
    requires f.typ == Vector(ETable(t))
    ensures var (run, kf) := (WalkField(h, slots, f, s, [Q.MapKeys] + rest, o), LookupKeyedField(TableAt(s, t).fields));
            if kf.Err? then run == Err(kf.error) else rest != [] ==> run == Err(UnsupportedType)
  {
    hide WalkField, VectorAtSlot, TableAt, LookupKeyedField, ElementKey;
    VectorRun(h, slots, f, s, Q.MapKeys, rest, o);
  }

  // Unions.

  /** A tag that no variant has is a fault of the buffer; without a tag there is nothing, whatever the slot holds. */
  lemma {:induction false} UnionSteps(h: Heap, slots: map<nat, Slot>, f: Field, s: Schema, tail: seq<Q.Step>,
                                      o: ExecOptions)
    requires f.typ.Union? && f.offset >= 2 && f.offset in slots && (tail == [] || !tail[0].UnionType?)
    ensures var (run, tag) := (WalkField(h, slots, f, s, tail, o), Tag(slots, f.offset));
            && (tag == 0 ==> run == Ok([None]))
            && (tag != 0 && (forall x :: x in f.typ.variants ==> x.value != tag) ==> run == Err(ReflectionError))
    ensures (forall x :: x in f.typ.variants ==> x.value != Tag(slots, f.offset)) ==>
              WalkField(h, slots, f, s, [Q.UnionType], o) == Err(ReflectionError)
  {
    hide VariantByValue, Tag, WalkTable, WalkStruct;
    VariantWithValue(f.typ.variants, Tag(slots, f.offset));
  }

  /** The tag's variant: a string is a leaf, a table or struct is none, and only a field of theirs can follow. */
  lemma {:induction false} VariantSteps(h: Heap, slots: map<nat, Slot>, f: Field, s: Schema, x: Variant,
                                        tail: seq<Q.Step>, o: ExecOptions)
    requires f.typ.Union? && f.offset >= 2 && f.offset in slots && (tail == [] || !tail[0].UnionType?)
    requires Tag(slots, f.offset) != 0
      && IsFirst(f.typ.variants, (y: Variant) => y.value == Tag(slots, f.offset), Some(x))
    ensures WalkField(h, slots, f, s, [Q.UnionType], o) == Ok([Some(Plain(x.name))])
    ensures var run := WalkField(h, slots, f, s, tail, o);
            if x.typ.None? then run == Err(ReflectionError)
            else if x.typ.value.VString? then
              var text := StringAtSlot(h, slots, f.offset);
              run == if tail != [] then Err(UnsupportedType)
                     else Ok([if text.Some? then Some(Plain(text.value)) else None])
            else
              && (tail == [] ==> run == Err(UnsupportedType))
              && (tail != [] && !tail[0].Field? && x.typ.value.VStruct? && StructAtSlot(h, slots, f.offset).Some? ==>
                run == Err(UnsupportedType))
              && (tail != [] && !tail[0].Field? && x.typ.value.VTable? && TableAtSlot(h, slots, f.offset).Some? ==>
                run == Err(UnsupportedStep))
  {
    hide VariantByValue, Tag, StringAtSlot, StructAtSlot, TableAtSlot, WalkUnion;
    VariantWithValue(f.typ.variants, Tag(slots, f.offset));
    FirstIsUnique(f.typ.variants, (y: Variant) => y.value == Tag(slots, f.offset),
                  VariantByValue(f.typ.variants, Tag(slots, f.offset)), Some(x));
    if tail != [] {
      assert WalkField(h, slots, f, s, tail, o) == WalkUnion(h, slots, f, s, tail, o);
      IntoVariant(h, slots, f, s, x.typ, tail, o);
    }
  }

  lemma {:induction false} IntoVariant(h: Heap, slots: map<nat, Slot>, f: Field, s: Schema, t: Option<VariantType>,
                                       tail: seq<Q.Step>, o: ExecOptions)
    requires f.typ.Union? && tail != []
    requires ActiveVariant(slots, f) == if t.None? then Err(ReflectionError) else Ok(t)
    ensures var run := WalkUnion(h, slots, f, s, tail, o);
            if t.None? then run == Err(ReflectionError)
            else if t.value.VString? then run == Err(UnsupportedType)
            else
              && (!tail[0].Field? && t.value.VStruct? && StructAtSlot(h, slots, f.offset).Some? ==>
                run == Err(UnsupportedType))
              && (!tail[0].Field? && t.value.VTable? && TableAtSlot(h, slots, f.offset).Some? ==>
                run == Err(UnsupportedStep))
  {
    hide ActiveVariant, StructAtSlot, TableAtSlot;
  }
}
