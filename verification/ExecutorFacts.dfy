/**
 What every query keeps: how many leaves it returns, how `[*]` relates to `[i]`, and what filling
 defaults changes.
 */
module ExecutorFacts {
  import opened Wrappers
  import opened Bytes
  import opened Schema
  import opened Scalars
  import opened Buffer
  import opened Executor
  import Q = Query
  import Text

  // Cardinality.

  predicate NoFanOut(steps: seq<Q.Step>) {
    forall i :: 0 <= i < |steps| ==> !steps[i].All? && !steps[i].MapKeys?
  }

  predicate OneLeaf(r: Leaves) {
    r.Ok? ==> |r.value| == 1
  }

  /** A path without `[*]` and `|keys` has exactly one leaf, whatever the buffer holds. */
  lemma {:induction false} ExactlyOneLeaf(h: Heap, slots: map<nat, Slot>, t: nat, s: Schema, steps: seq<Q.Step>,
                                          o: ExecOptions)
    requires steps != [] && NoFanOut(steps)
    ensures OneLeaf(WalkTable(h, slots, t, s, steps, o))
    decreases |steps|, 0, 0
  {
    hide WalkField, FindField, TableAt;
    if steps[0].Field? {
      match FindField(TableAt(s, t).fields, steps[0].ref) {
        case Some(f) => OneLeafOfField(h, slots, f, s, steps[1..], o);
        case None =>
      }
    }
  }

  lemma {:induction false} OneLeafOfField(h: Heap, slots: map<nat, Slot>, f: Field, s: Schema, tail: seq<Q.Step>,
                                          o: ExecOptions)
    requires NoFanOut(tail)
    ensures OneLeaf(WalkField(h, slots, f, s, tail, o))
    decreases |tail|, 2, 0
  {
    hide WalkTable, WalkStruct, WalkVector, NoFanOut, UnionTypeLeaf, UnionValueLeaf, WalkUnion, PresentScalar,
      DefaultLeaf;
    match f.typ {
      case Vector(el) => OneLeafOfVector(h, slots, f, el, s, tail, o);
      case Union(_) =>
        OneUnionLeaf(h, slots, f);
        if tail != [] { OneLeafOfUnion(h, slots, f, s, tail, o); }
      case Table(t) =>
        if tail != [] && TableAtSlot(h, slots, f.offset).Some? {
          ExactlyOneLeaf(h, TableAtSlot(h, slots, f.offset).value, t, s, tail, o);
        }
      case Struct(def) =>
        if StructAtSlot(h, slots, f.offset).Some? {
          OneLeafOfStruct(StructAtSlot(h, slots, f.offset).value, 0, def, tail);
        }
      case _ =>
    }
  }

  lemma {:induction false} OneUnionLeaf(h: Heap, slots: map<nat, Slot>, f: Field)
    requires f.typ.Union?
    ensures OneLeaf(UnionTypeLeaf(slots, f)) && OneLeaf(UnionValueLeaf(h, slots, f))
  {
  }

  lemma {:induction false} OneLeafOfUnion(h: Heap, slots: map<nat, Slot>, f: Field, s: Schema, tail: seq<Q.Step>,
                                          o: ExecOptions)
    requires f.typ.Union? && tail != [] && NoFanOut(tail)
    ensures OneLeaf(WalkUnion(h, slots, f, s, tail, o))
    decreases |tail|, 1, 0
  {
    hide WalkTable, WalkStruct, NoFanOut, ActiveVariant;
    match ActiveVariant(slots, f) {
      case Ok(Some(VTable(t))) =>
        if TableAtSlot(h, slots, f.offset).Some? {
          ExactlyOneLeaf(h, TableAtSlot(h, slots, f.offset).value, t, s, tail, o);
        }
      case Ok(Some(VStruct(def))) =>
        if StructAtSlot(h, slots, f.offset).Some? {
          OneLeafOfStruct(StructAtSlot(h, slots, f.offset).value, 0, def, tail);
        }
      case _ =>
    }
  }

  lemma {:induction false} OneLeafOfStruct(buf: seq<byte>, loc: nat, def: StructDef, steps: seq<Q.Step>)
    requires NoFanOut(steps)
    ensures OneLeaf(WalkStruct(buf, loc, def, steps))
    decreases |steps|
  {
    hide FindStructField, ReadScalar, WalkArray;
    if steps != [] && steps[0].Field? {
      match FindStructField(def.fields, steps[0].ref) {
        case Some(f) =>
          match f.typ {
            case SStruct(d) => OneLeafOfStruct(buf, loc + f.offset, d, steps[1..]);
            case SScalar(_, _) =>
            case _ => OneLeafOfArray(buf, loc + f.offset, f.typ, steps[1..]);
          }
        case None =>
      }
    }
  }

  lemma {:induction false} OneLeafOfArray(buf: seq<byte>, loc: nat, t: StructFieldType, steps: seq<Q.Step>)
    requires (t.SScalarArray? || t.SStructArray?) && NoFanOut(steps)
    ensures OneLeaf(WalkArray(buf, loc, t, steps))
    decreases |steps|
  {
    hide FindStructField, ReadScalar, WalkStruct, FanArray;
    if steps != [] && steps[0].Index? && steps[0].index < t.len && t.SStructArray? && steps[1..] != [] {
      OneLeafOfStruct(buf, loc + Offset(steps[0].index, ArrayStride(t)), t.elemDef, steps[1..]);
    }
  }

  lemma {:induction false} OneLeafOfVector(h: Heap, slots: map<nat, Slot>, f: Field, el: ElementType, s: Schema,
                                           steps: seq<Q.Step>, o: ExecOptions)
    requires NoFanOut(steps)
    ensures OneLeaf(WalkVector(h, slots, f, el, s, steps, o))
    decreases |steps|, 1, 0
  {
    hide WalkIndex, WalkMapKey, WalkAll, WalkMapKeys;
    if steps != [] {
      match steps[0] {
        case Index(i) => OneLeafOfIndex(h, slots, f, el, s, i, steps[1..], o);
        case MapKey(key) => OneLeafOfKey(h, slots, f, el, s, key, steps[1..], o);
        case _ =>
      }
    }
  }

  lemma {:induction false} OneLeafOfIndex(h: Heap, slots: map<nat, Slot>, f: Field, el: ElementType, s: Schema, i: nat,
                                          tail: seq<Q.Step>, o: ExecOptions)
    requires NoFanOut(tail)
    ensures OneLeaf(WalkIndex(h, slots, f, el, s, i, tail, o))
    decreases |tail|, 1, 0
  {
    hide WalkTable, WalkStruct, NoFanOut, ElementLeaf, SlotsAt, Count;
    match el {
      case EStruct(def) =>
        if BodyAtSlot(h, slots, f.offset).Some? {
          OneLeafOfStruct(BodyAtSlot(h, slots, f.offset).value, 4 + Offset(i, def.bytesize), def, tail);
        }
      case ETable(t) =>
        match VectorAtSlot(h, slots, f.offset) {
          case Some(items) => if i < |items| && tail != [] { ExactlyOneLeaf(h, SlotsAt(h, items[i]), t, s, tail, o); }
          case None =>
        }
      case _ =>
    }
  }

  lemma {:induction false} OneLeafOfKey(h: Heap, slots: map<nat, Slot>, f: Field, el: ElementType, s: Schema,
                                        key: Q.MapKey, tail: seq<Q.Step>, o: ExecOptions)
    requires NoFanOut(tail)
    ensures OneLeaf(WalkMapKey(h, slots, f, el, s, key, tail, o))
    decreases |tail|, 1, 0
  {
    hide WalkTable, NoFanOut, SlotsAt, Keys, KeyIndex, LookupKeyedField, VectorAtSlot;
    if el.ETable? && tail != [] {
      match (LookupKeyedField(TableAt(s, el.index).fields), VectorAtSlot(h, slots, f.offset)) {
        case (Ok(kf), Some(items)) =>
          match KeyIndex(Keys(h, items, kf, o.reader), kf, key, o) {
            case Ok(Some(i)) => ExactlyOneLeaf(h, SlotsAt(h, items[i]), el.index, s, tail, o);
            case _ =>
          }
        case _ =>
      }
    }
  }

  // Fan-out.

  /** Results one after another; the first error wins. */
  function Concat(rs: seq<Leaves>): Leaves {
    if rs == [] then Ok([])
    else
      var init :- Concat(rs[..|rs| - 1]);
      var last :- rs[|rs| - 1];
      Ok(init + last)
  }

  /** How many elements the vector in a slot has. */
  function VectorLength(h: Heap, slots: map<nat, Slot>, f: Field, el: ElementType): nat {
    if el.EStruct? then
      match BodyAtSlot(h, slots, f.offset) case Some(body) => Count(body) case None => 0
    else
      match ElementsAtSlot(h, slots, f.offset, el) case Some(items) => |items| case None => 0
  }

  function AtIndex(h: Heap, slots: map<nat, Slot>, f: Field, s: Schema, tail: seq<Q.Step>, o: ExecOptions,
                   i: nat): Leaves {
    WalkField(h, slots, f, s, [Q.Index(i)] + tail, o)
  }

  /** The first `n` indexed results. */
  function Indexed(h: Heap, slots: map<nat, Slot>, f: Field, s: Schema, tail: seq<Q.Step>, o: ExecOptions,
                   n: nat): (rs: seq<Leaves>)
    ensures |rs| == n
  {
    seq(n, i requires 0 <= i < n => AtIndex(h, slots, f, s, tail, o, i))
  }

  lemma {:induction false} IndexedStep(h: Heap, slots: map<nat, Slot>, f: Field, s: Schema, tail: seq<Q.Step>,
                                       o: ExecOptions, n: nat)
    ensures Concat(Indexed(h, slots, f, s, tail, o, 0)) == Ok([])
    ensures Concat(Indexed(h, slots, f, s, tail, o, n + 1)) ==
            var init, last := Concat(Indexed(h, slots, f, s, tail, o, n)), AtIndex(h, slots, f, s, tail, o, n);
            if init.Err? then init else if last.Err? then last else Ok(init.value + last.value)
  {
    hide AtIndex;
    var rs := Indexed(h, slots, f, s, tail, o, n + 1);
    assert rs[..n] == Indexed(h, slots, f, s, tail, o, n);
  }

  /** `f[*]tail` is `f[0]tail`, ..., `f[n-1]tail` one after another, first error included. */
  lemma {:induction false} FanOutIsIndexedAccess(h: Heap, slots: map<nat, Slot>, f: Field, s: Schema,
                                                 tail: seq<Q.Step>, o: ExecOptions)
    requires f.typ.Vector? && VectorLength(h, slots, f, f.typ.elem) > 0
    ensures WalkField(h, slots, f, s, [Q.All] + tail, o) ==
            Concat(Indexed(h, slots, f, s, tail, o, VectorLength(h, slots, f, f.typ.elem)))
  {
    hide *;
    var el, n := f.typ.elem, VectorLength(h, slots, f, f.typ.elem);
    AllAndIndexOfVector(h, slots, f, el, s, tail, o);
    match el {
      case EStruct(def) => StructFanOut(h, slots, f, el, s, tail, o, n);
      case ETable(t) => TableFanOut(h, slots, f, el, s, tail, o, n);
      case _ => PlainFanOut(h, slots, f, el, s, tail, o, n);
    }
  }

  lemma {:induction false} AllAndIndexOfVector(h: Heap, slots: map<nat, Slot>, f: Field, el: ElementType, s: Schema,
                                               tail: seq<Q.Step>, o: ExecOptions)
    requires f.typ == Vector(el)
    ensures WalkField(h, slots, f, s, [Q.All] + tail, o) == WalkAll(h, slots, f, el, s, tail, o)
    ensures forall i: nat :: AtIndex(h, slots, f, s, tail, o, i) == WalkIndex(h, slots, f, el, s, i, tail, o)
  {
    hide WalkAll, WalkIndex;
    var steps := [Q.All] + tail;
    assert steps[0] == Q.All && steps[1..] == tail;
    forall i: nat ensures AtIndex(h, slots, f, s, tail, o, i) == WalkIndex(h, slots, f, el, s, i, tail, o) {
      IndexOfVector(h, slots, f, el, s, tail, o, i);
    }
  }

  lemma {:induction false} IndexOfVector(h: Heap, slots: map<nat, Slot>, f: Field, el: ElementType, s: Schema,
                                         tail: seq<Q.Step>, o: ExecOptions, i: nat)
    requires f.typ == Vector(el)
    ensures AtIndex(h, slots, f, s, tail, o, i) == WalkIndex(h, slots, f, el, s, i, tail, o)
  {
    hide WalkAll, WalkIndex;
    var steps := [Q.Index(i)] + tail;
    assert steps[0] == Q.Index(i) && steps[1..] == tail;
    assert WalkField(h, slots, f, s, steps, o) == WalkVector(h, slots, f, el, s, steps, o);
  }

  lemma {:induction false} SameErrorEverywhere(h: Heap, slots: map<nat, Slot>, f: Field, s: Schema, tail: seq<Q.Step>,
                                               o: ExecOptions, n: nat, e: ExecError)
    requires n > 0 && AtIndex(h, slots, f, s, tail, o, 0) == Err(e)
    ensures Concat(Indexed(h, slots, f, s, tail, o, n)) == Err(e)
  {
    hide AtIndex, Indexed, Concat;
    IndexedStep(h, slots, f, s, tail, o, n - 1);
    if n > 1 { SameErrorEverywhere(h, slots, f, s, tail, o, n - 1, e); }
  }

  lemma {:induction false} StructFanOut(h: Heap, slots: map<nat, Slot>, f: Field, el: ElementType, s: Schema,
                                        tail: seq<Q.Step>, o: ExecOptions, n: nat)
    requires el.EStruct? && n == VectorLength(h, slots, f, el) > 0
    requires forall i: nat :: AtIndex(h, slots, f, s, tail, o, i) == WalkIndex(h, slots, f, el, s, i, tail, o)
    ensures WalkAll(h, slots, f, el, s, tail, o) == Concat(Indexed(h, slots, f, s, tail, o, n))
  {
    hide AtIndex, Indexed, Concat, WalkStruct, FanStructs, Count, BodyAtSlot, Offset;
    assert AtIndex(h, slots, f, s, tail, o, 0) == WalkIndex(h, slots, f, el, s, 0, tail, o);
    if tail == [] {
      SameErrorEverywhere(h, slots, f, s, tail, o, n, UnsupportedType);
    } else if el.def.bytesize == 0 {
      SameErrorEverywhere(h, slots, f, s, tail, o, n, ReflectionError);
    } else {
      StructPrefix(h, slots, f, el, s, tail, o, n);
    }
  }

  lemma {:induction false} StructPrefix(h: Heap, slots: map<nat, Slot>, f: Field, el: ElementType, s: Schema,
                                        tail: seq<Q.Step>, o: ExecOptions, n: nat)
    requires el.EStruct? && el.def.bytesize > 0 && tail != [] && BodyAtSlot(h, slots, f.offset).Some?
    requires n <= Count(BodyAtSlot(h, slots, f.offset).value)
    requires forall i: nat :: AtIndex(h, slots, f, s, tail, o, i) == WalkIndex(h, slots, f, el, s, i, tail, o)
    ensures FanStructs(BodyAtSlot(h, slots, f.offset).value, el.def, n, tail) ==
      Concat(Indexed(h, slots, f, s, tail, o, n))
    decreases n
  {
    hide AtIndex, Indexed, Concat, WalkStruct, Count, BodyAtSlot, Offset;
    if n == 0 {
      IndexedStep(h, slots, f, s, tail, o, 0);
    } else {
      assert AtIndex(h, slots, f, s, tail, o, n - 1) == WalkIndex(h, slots, f, el, s, n - 1, tail, o);
      IndexedStep(h, slots, f, s, tail, o, n - 1);
      StructPrefix(h, slots, f, el, s, tail, o, n - 1);
    }
  }

  lemma {:induction false} TableFanOut(h: Heap, slots: map<nat, Slot>, f: Field, el: ElementType, s: Schema,
                                       tail: seq<Q.Step>, o: ExecOptions, n: nat)
    requires el.ETable? && n == VectorLength(h, slots, f, el) > 0
    requires forall i: nat :: AtIndex(h, slots, f, s, tail, o, i) == WalkIndex(h, slots, f, el, s, i, tail, o)
    ensures WalkAll(h, slots, f, el, s, tail, o) == Concat(Indexed(h, slots, f, s, tail, o, n))
  {
    hide AtIndex, Indexed, Concat, WalkTable, FanTables, VectorAtSlot, SlotsAt;
    assert AtIndex(h, slots, f, s, tail, o, 0) == WalkIndex(h, slots, f, el, s, 0, tail, o);
    if tail == [] {
      SameErrorEverywhere(h, slots, f, s, tail, o, n, UnsupportedType);
    } else {
      TablePrefix(h, slots, f, el, s, tail, o, n);
    }
  }

  lemma {:induction false} TablePrefix(h: Heap, slots: map<nat, Slot>, f: Field, el: ElementType, s: Schema,
                                       tail: seq<Q.Step>, o: ExecOptions, n: nat)
    requires el.ETable? && tail != [] && VectorAtSlot(h, slots, f.offset).Some?
      && n <= |VectorAtSlot(h, slots, f.offset).value|
    requires forall i: nat :: AtIndex(h, slots, f, s, tail, o, i) == WalkIndex(h, slots, f, el, s, i, tail, o)
    ensures FanTables(h, VectorAtSlot(h, slots, f.offset).value, n, el.index, s, tail, o) ==
      Concat(Indexed(h, slots, f, s, tail, o, n))
    decreases n
  {
    hide AtIndex, Indexed, Concat, WalkTable, VectorAtSlot, SlotsAt;
    if n == 0 {
      IndexedStep(h, slots, f, s, tail, o, 0);
    } else {
      assert AtIndex(h, slots, f, s, tail, o, n - 1) == WalkIndex(h, slots, f, el, s, n - 1, tail, o);
      IndexedStep(h, slots, f, s, tail, o, n - 1);
      TablePrefix(h, slots, f, el, s, tail, o, n - 1);
    }
  }

  lemma {:induction false} PlainFanOut(h: Heap, slots: map<nat, Slot>, f: Field, el: ElementType, s: Schema,
                                       tail: seq<Q.Step>, o: ExecOptions, n: nat)
    requires !el.EStruct? && !el.ETable? && n == VectorLength(h, slots, f, el) > 0
    requires forall i: nat :: AtIndex(h, slots, f, s, tail, o, i) == WalkIndex(h, slots, f, el, s, i, tail, o)
    ensures WalkAll(h, slots, f, el, s, tail, o) == Concat(Indexed(h, slots, f, s, tail, o, n))
  {
    hide AtIndex, Indexed, Concat, ElementLeaf, ElementsAtSlot, ReadableElement;
    assert AtIndex(h, slots, f, s, tail, o, 0) == WalkIndex(h, slots, f, el, s, 0, tail, o);
    if tail != [] || !ReadableElement(el) {
      SameErrorEverywhere(h, slots, f, s, tail, o, n, UnsupportedType);
    } else {
      PlainPrefix(h, slots, f, el, s, tail, o, n);
      var items := ElementsAtSlot(h, slots, f.offset, el).value;
      assert items[..n] == items;
    }
  }

  function ElementLeaves(h: Heap, items: seq<Slot>, el: ElementType): seq<Option<Leaf>> {
    seq(|items|, i requires 0 <= i < |items| => Some(ElementLeaf(h, items[i], el)))
  }

  lemma {:induction false} PlainPrefix(h: Heap, slots: map<nat, Slot>, f: Field, el: ElementType, s: Schema,
                                       tail: seq<Q.Step>, o: ExecOptions, n: nat)
    requires !el.EStruct? && !el.ETable? && tail == [] && ReadableElement(el)
    requires ElementsAtSlot(h, slots, f.offset, el).Some? && n <= |ElementsAtSlot(h, slots, f.offset, el).value|
    requires forall i: nat :: AtIndex(h, slots, f, s, tail, o, i) == WalkIndex(h, slots, f, el, s, i, tail, o)
    ensures Concat(Indexed(h, slots, f, s, tail, o, n)) ==
      Ok(ElementLeaves(h, ElementsAtSlot(h, slots, f.offset, el).value[..n], el))
    decreases n
  {
    hide AtIndex, Indexed, Concat, ElementLeaf, ElementsAtSlot, ReadableElement, ElementLeaves;
    var items := ElementsAtSlot(h, slots, f.offset, el).value;
    if n == 0 {
      IndexedStep(h, slots, f, s, tail, o, 0);
      ElementLeavesStep(h, items, el, 0);
    } else {
      assert AtIndex(h, slots, f, s, tail, o, n - 1) == WalkIndex(h, slots, f, el, s, n - 1, tail, o);
      IndexedStep(h, slots, f, s, tail, o, n - 1);
      PlainPrefix(h, slots, f, el, s, tail, o, n - 1);
      ElementLeavesStep(h, items, el, n - 1);
    }
  }

  lemma {:induction false} ElementLeavesStep(h: Heap, items: seq<Slot>, el: ElementType, n: nat)
    ensures ElementLeaves(h, items[..0], el) == []
    ensures n < |items| ==>
      ElementLeaves(h, items[..n + 1], el) == ElementLeaves(h, items[..n], el) + [Some(ElementLeaf(h, items[n], el))]
  {
    hide ElementLeaf;
  }

  /** The same for a fixed-size array inside a struct. */
  lemma {:induction false} ArrayFanOut(buf: seq<byte>, loc: nat, t: StructFieldType, tail: seq<Q.Step>)
    requires t.SScalarArray? || t.SStructArray?
    requires t.len > 0
    ensures WalkArray(buf, loc, t, [Q.All] + tail) ==
      Concat(seq(t.len, i requires 0 <= i < t.len => WalkArray(buf, loc, t, [Q.Index(i)] + tail)))
  {
    hide WalkArrayElement, FanArray, Concat;
    var rs := seq(t.len, i requires 0 <= i < t.len => WalkArray(buf, loc, t, [Q.Index(i)] + tail));
    assert ([Q.All] + tail)[1..] == tail;
    forall i | 0 <= i < t.len
      ensures rs[i] == if t.SStructArray? && t.elemDef.bytesize == 0 then Err(ReflectionError)
                       else WalkArrayElement(buf, loc + Offset(i, ArrayStride(t)), t, tail)
    {
      assert ([Q.Index(i)] + tail)[1..] == tail;
    }
    if t.SStructArray? && t.elemDef.bytesize == 0 {
      FirstError(rs, ReflectionError);
    } else {
      ArrayPrefix(buf, loc, t, tail, rs, t.len);
      assert rs[..t.len] == rs;
    }
  }

  lemma {:induction false} FirstError(rs: seq<Leaves>, e: ExecError)
    requires rs != [] && rs[0] == Err(e)
    ensures Concat(rs) == Err(e)
  {
    if |rs| > 1 { FirstError(rs[..|rs| - 1], e); }
  }

  lemma {:induction false} ConcatStep(rs: seq<Leaves>, n: nat)
    ensures Concat(rs[..0]) == Ok([])
    ensures n < |rs| ==> Concat(rs[..n + 1]) == Followed(Concat(rs[..n]), rs[n])
  {
    if n < |rs| { assert rs[..n + 1][..n] == rs[..n]; }
  }

  function Followed(init: Leaves, last: Leaves): Leaves {
    if init.Err? then init else if last.Err? then last else Ok(init.value + last.value)
  }

  lemma {:induction false} ArrayStep(buf: seq<byte>, loc: nat, t: StructFieldType, tail: seq<Q.Step>, n: nat)
    requires t.SScalarArray? || t.SStructArray?
    ensures FanArray(buf, loc, t, 0, tail) == Ok([])
    ensures FanArray(buf, loc, t, n + 1, tail) ==
            Followed(FanArray(buf, loc, t, n, tail), WalkArrayElement(buf, loc + Offset(n, ArrayStride(t)), t, tail))
  {
    hide WalkArrayElement, Offset, ArrayStride;
  }

  lemma {:induction false} ArrayPrefix(buf: seq<byte>, loc: nat, t: StructFieldType, tail: seq<Q.Step>,
                                       rs: seq<Leaves>, n: nat)
    requires (t.SScalarArray? || t.SStructArray?) && n <= |rs|
    requires forall i :: 0 <= i < n ==> rs[i] == WalkArrayElement(buf, loc + Offset(i, ArrayStride(t)), t, tail)
    ensures FanArray(buf, loc, t, n, tail) == Concat(rs[..n])
    decreases n
  {
    hide *;
    if n == 0 {
      ArrayStep(buf, loc, t, tail, 0);
      ConcatStep(rs, 0);
    } else {
      ArrayPrefix(buf, loc, t, tail, rs, n - 1);
      ArrayStep(buf, loc, t, tail, n - 1);
      ConcatStep(rs, n - 1);
    }
  }

  // References.

  predicate DistinctIds(fields: seq<Field>) {
    forall i, j :: 0 <= i < j < |fields| ==> fields[i].name != fields[j].name && fields[i].id != fields[j].id
  }

  /** A field's id and its name are two ways to write one query. */
  lemma {:induction false} IdIsName(h: Heap, slots: map<nat, Slot>, t: nat, s: Schema, f: Field, tail: seq<Q.Step>,
                                    o: ExecOptions)
    requires f in TableAt(s, t).fields && DistinctIds(TableAt(s, t).fields)
    ensures WalkTable(h, slots, t, s, [Q.Field(Q.Id(f.id))] + tail, o) ==
            WalkTable(h, slots, t, s, [Q.Field(Q.Name(f.name))] + tail, o) == WalkField(h, slots, f, s, tail, o)
  {
    hide WalkField, TableAt, FieldByName, FieldById;
    var fields := TableAt(s, t).fields;
    NamedField(fields, f.name);
    FieldWithId(fields, f.id);
    OnlyField(fields, f, FieldByName(fields, f.name), FieldById(fields, f.id));
    assert ([Q.Field(Q.Id(f.id))] + tail)[1..] == tail && ([Q.Field(Q.Name(f.name))] + tail)[1..] == tail;
  }

  lemma {:induction false} OnlyField(fields: seq<Field>, f: Field, named: Option<Field>, numbered: Option<Field>)
    requires f in fields && DistinctIds(fields)
    requires IsFirst(fields, (x: Field) => x.name == f.name, named)
      && IsFirst(fields, (x: Field) => x.id == f.id, numbered)
    ensures named == numbered == Some(f)
  {
    var i :| 0 <= i < |fields| && fields[i] == f;
  }

  // The key field.

  /** The key field is the only one marked; none, or more than one, is an error. */
  lemma {:induction false} OnlyKeyField(fields: seq<Field>)
    ensures LookupKeyedField(fields) == Err(UnsupportedType) <==> forall f :: f in fields ==> !f.key
    ensures LookupKeyedField(fields).Ok? ==>
              exists i :: 0 <= i < |fields| && fields[i].key && LookupKeyedField(fields).value == fields[i]
                          && (forall j :: 0 <= j < |fields| && j != i ==> !fields[j].key)
    ensures LookupKeyedField(fields) == Err(ReflectionError) <==>
            exists i, j :: 0 <= i < j < |fields| && fields[i].key && fields[j].key
  {
    hide KeyedField, KeyCount;
    MarkedField(fields);
    if KeyedField(fields).Some? {
      var i :| 0 <= i < |fields| && fields[i] == KeyedField(fields).value && fields[i].key;
    }
  }

  // Absent and byte vectors.

  /** Of a vector that is not there an index and a key are NULL, and `[*]` and `|keys` have no leaves. */
  lemma {:induction false} AbsentRows(h: Heap, slots: map<nat, Slot>, f: Field, t: nat, s: Schema, tail: seq<Q.Step>,
                                      o: ExecOptions, i: nat, key: Q.MapKey)
    requires f.typ == Vector(ETable(t)) && f.offset !in slots && LookupKeyedField(TableAt(s, t).fields).Ok?
      && tail != []
    ensures WalkField(h, slots, f, s, [Q.Index(i)] + tail, o) == Ok([None])
    ensures WalkField(h, slots, f, s, [Q.MapKey(key)] + tail, o) == Ok([None])
    ensures WalkField(h, slots, f, s, [Q.All] + tail, o) == Ok([])
    ensures WalkField(h, slots, f, s, [Q.MapKeys], o) == Ok([])
  {
    hide TableAt, LookupKeyedField, WalkField;
    VectorRun(h, slots, f, s, Q.Index(i), tail, o);
    VectorRun(h, slots, f, s, Q.MapKey(key), tail, o);
    VectorRun(h, slots, f, s, Q.All, tail, o);
    VectorRun(h, slots, f, s, Q.MapKeys, [], o);
    assert [Q.MapKeys] + [] == [Q.MapKeys];
  }

  lemma {:induction false} VectorField(h: Heap, slots: map<nat, Slot>, f: Field, s: Schema, tail: seq<Q.Step>,
                                       o: ExecOptions)
    requires f.typ.Vector? && (tail == [] || !tail[0].UnionType?)
    ensures WalkField(h, slots, f, s, tail, o) == WalkVector(h, slots, f, f.typ.elem, s, tail, o)
  {
    hide WalkVector;
  }

  lemma {:induction false} VectorRun(h: Heap, slots: map<nat, Slot>, f: Field, s: Schema, step: Q.Step,
                                     tail: seq<Q.Step>, o: ExecOptions)
    requires f.typ.Vector? && !step.UnionType? && !step.Field?
    ensures WalkField(h, slots, f, s, [step] + tail, o) ==
            (if step.Index? then WalkIndex(h, slots, f, f.typ.elem, s, step.index, tail, o)
             else if step.All? then WalkAll(h, slots, f, f.typ.elem, s, tail, o)
             else if step.MapKeys? then WalkMapKeys(h, slots, f, f.typ.elem, s, tail, o)
             else WalkMapKey(h, slots, f, f.typ.elem, s, step.key, tail, o))
  {
    hide WalkIndex, WalkAll, WalkMapKeys, WalkMapKey;
    assert ([step] + tail)[1..] == tail;
    assert WalkField(h, slots, f, s, [step] + tail, o) == WalkVector(h, slots, f, f.typ.elem, s, [step] + tail, o);
  }

  /** Bytes are read as numbers, in their order; an index past the end is NULL. */
  lemma {:induction false} ByteElements(h: Heap, slots: map<nat, Slot>, f: Field, s: Schema, bs: seq<byte>,
                                        o: ExecOptions, i: nat)
    requires f.typ.Vector? && f.typ.elem.EScalar? && f.typ.elem.st.UByte?
    requires f.offset in slots && slots[f.offset].Ref? && slots[f.offset].node < |h|
      && h[slots[f.offset].node] == BytesNode(bs)
    ensures WalkField(h, slots, f, s, [Q.Index(i)], o) ==
            Ok([if i < |bs| then Some(Plain(Text.Dec(bs[i]))) else None])
    ensures WalkField(h, slots, f, s, [Q.All], o) ==
      Ok(seq(|bs|, k requires 0 <= k < |bs| => Some(Plain(Text.Dec(bs[k])))))
  {
    hide Text.Dec, WalkField;
    VectorRun(h, slots, f, s, Q.Index(i), [], o);
    VectorRun(h, slots, f, s, Q.All, [], o);
    assert [Q.Index(i)] + [] == [Q.Index(i)] && [Q.All] + [] == [Q.All];
    var items := ElementsAtSlot(h, slots, f.offset, f.typ.elem).value;
    assert |items| == |bs| && forall k :: 0 <= k < |bs| ==> items[k] == Direct(I(bs[k]));
    assert ReadAll(h, slots, f, f.typ.elem).value ==
      seq(|bs|, k requires 0 <= k < |bs| => Some(Plain(Text.Dec(bs[k]))));
  }

  // Steps of the wrong kind.

  /** Whatever the buffer holds: no step follows a scalar, `|type` ends at a union, and a vector has no fields. */
  lemma {:induction false} WrongStepIsRefused(h: Heap, slots: map<nat, Slot>, f: Field, s: Schema, tail: seq<Q.Step>,
                                              o: ExecOptions)
    requires tail != []
    ensures var run := WalkField(h, slots, f, s, tail, o);
            if tail[0].UnionType? && (!f.typ.Union? || |tail| > 1) then run == Err(UnsupportedStep)
            else if f.typ.Vector? then
              && (tail[0].Field? ==> run == Err(ReflectionError))
              && ((tail[0].MapKey? || tail[0].MapKeys?) && !f.typ.elem.ETable? ==> run == Err(UnsupportedType))
            else f.typ.Scalar? || f.typ.Vector64? || (f.typ.String? && f.offset in slots) ==>
              run == Err(UnsupportedType)
  {
    hide LookupKeyedField, KeyIndex, TableAt, WalkTable, WalkIndex, WalkAll;
    assert |tail[1..]| == |tail| - 1;
    if f.typ.Vector? && !tail[0].UnionType? {
      VectorField(h, slots, f, s, tail, o);
    }
  }

  /** A query starts with a field; one that the table or struct does not have is reported as such. */
  lemma {:induction false} MissingFieldIsReported(h: Heap, slots: map<nat, Slot>, t: nat, s: Schema, buf: seq<byte>,
                                                  loc: nat, def: StructDef, steps: seq<Q.Step>, o: ExecOptions)
    requires steps != []
    ensures !steps[0].Field? ==> WalkTable(h, slots, t, s, steps, o) == Err(UnsupportedStep)
    ensures !steps[0].Field? ==> WalkStruct(buf, loc, def, steps) == Err(UnsupportedType)
    ensures steps[0].Field? && steps[0].ref.Name?
            && (forall f :: f in TableAt(s, t).fields ==> f.name != steps[0].ref.name)
            ==> WalkTable(h, slots, t, s, steps, o) == Err(FieldNotFound)
    ensures steps[0].Field? && steps[0].ref.Id? && (forall f :: f in TableAt(s, t).fields ==> f.id != steps[0].ref.id)
            ==> WalkTable(h, slots, t, s, steps, o) == Err(FieldNotFound)
    ensures steps[0].Field? && steps[0].ref.Name? && (forall f :: f in def.fields ==> f.name != steps[0].ref.name)
            ==> WalkStruct(buf, loc, def, steps) == Err(FieldNotFound)
    ensures steps[0].Field? && steps[0].ref.Id? && (forall f :: f in def.fields ==> f.id != steps[0].ref.id)
            ==> WalkStruct(buf, loc, def, steps) == Err(FieldNotFound)
  {
    hide WalkField, TableAt, FieldByName, FieldById, StructFieldByName, StructFieldById, WalkArray, StructLeaf;
    if steps[0].Field? && steps[0].ref.Name? {
      NamedField(TableAt(s, t).fields, steps[0].ref.name);
      NamedStructField(def.fields, steps[0].ref.name);
    } else if steps[0].Field? {
      FieldWithId(TableAt(s, t).fields, steps[0].ref.id);
      StructFieldWithId(def.fields, steps[0].ref.id);
    }
  }

  /** A table or struct that is there is no leaf, and only a field can follow it; nor is a vector a leaf. */
  lemma {:induction false} OnlyFieldsFollow(h: Heap, slots: map<nat, Slot>, f: Field, s: Schema, tail: seq<Q.Step>,
                                            o: ExecOptions)
    requires tail == [] || !tail[0].Field?
    ensures f.typ.Table? && TableAtSlot(h, slots, f.offset).Some? ==>
              WalkField(h, slots, f, s, tail, o) == Err(if tail == [] then UnsupportedType else UnsupportedStep)
    ensures f.typ.Struct? && StructAtSlot(h, slots, f.offset).Some? ==>
              WalkField(h, slots, f, s, tail, o) ==
              Err(if tail != [] && tail[0].UnionType? then UnsupportedStep else UnsupportedType)
    ensures f.typ.Vector? && tail == [] ==> WalkField(h, slots, f, s, tail, o) == Err(UnsupportedType)
  {
    if f.typ.Vector? && tail == [] {
      VectorField(h, slots, f, s, tail, o);
    }
  }
}
