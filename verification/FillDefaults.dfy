/** `fill_scalar_defaults` changes nothing but absent scalar leaves. */
module FillDefaults {
  import opened Wrappers
  import opened Schema
  import opened Buffer
  import opened Executor
  import Q = Query

  /** The schema default of a scalar field that the path's last step names in some table. */
  ghost predicate IsDefault(s: Schema, last: Q.Step, leaf: Leaf) {
    last.Field? && exists t: nat :: DefaultsTo(TableAt(s, t), last.ref, leaf)
  }

  predicate DefaultsTo(def: TableDef, r: Q.FieldRef, leaf: Leaf) {
    var f := FindField(def.fields, r);
    f.Some? && f.value.typ.Scalar? && leaf == DefaultLeaf(f.value, f.value.typ.st)
  }

  /** One leaf with the option on and with it off. */
  ghost predicate LeafFilled(s: Schema, last: Q.Step, on: Option<Leaf>, off: Option<Leaf>) {
    on == off || (off.None? && on.Some? && IsDefault(s, last, on.value))
  }

  /** The same error, or the same leaves except that some absent ones became defaults. */
  ghost predicate Filled(s: Schema, last: Q.Step, on: Leaves, off: Leaves) {
    if on.Err? || off.Err? then on == off
    else |on.value| == |off.value| && forall i :: 0 <= i < |on.value| ==> LeafFilled(s, last, on.value[i], off.value[i])
  }

  function On(o: ExecOptions): ExecOptions {
    o.(fillDefaults := true)
  }

  function Off(o: ExecOptions): ExecOptions {
    o.(fillDefaults := false)
  }

  predicate EndsWith(steps: seq<Q.Step>, last: Q.Step) {
    steps != [] && steps[|steps| - 1] == last
  }

  /** For every buffer and path, filling defaults is the option's only effect. */
  lemma {:induction false} FillIsTheOnlyEffect(h: Heap, slots: map<nat, Slot>, t: nat, s: Schema, steps: seq<Q.Step>,
                                               o: ExecOptions, last: Q.Step)
    requires EndsWith(steps, last)
    ensures Filled(s, last, WalkTable(h, slots, t, s, steps, On(o)), WalkTable(h, slots, t, s, steps, Off(o)))
    decreases |steps|, 0, 0
  {
    hide WalkField, FindField, TableAt;
    if steps[0].Field? {
      match FindField(TableAt(s, t).fields, steps[0].ref) {
        case Some(f) => FilledField(h, slots, t, f, s, steps[1..], o, last);
        case None =>
      }
    }
  }

  lemma {:induction false} FilledField(h: Heap, slots: map<nat, Slot>, t: nat, f: Field, s: Schema, tail: seq<Q.Step>,
                                       o: ExecOptions, last: Q.Step)
    requires tail != [] ==> EndsWith(tail, last)
    requires tail == [] ==> last.Field? && FindField(TableAt(s, t).fields, last.ref) == Some(f)
    ensures Filled(s, last, WalkField(h, slots, f, s, tail, On(o)), WalkField(h, slots, f, s, tail, Off(o)))
    decreases |tail|, 2, 0
  {
    hide WalkTable, WalkStruct, WalkVector, UnionTypeLeaf, UnionValueLeaf, WalkUnion, PresentScalar, DefaultLeaf,
      TableAt, FindField;
    match f.typ {
      case Vector(el) =>
        if tail == [] {
          NoLeafWithoutSteps(h, slots, f, el, s, o);
        } else {
          FilledVector(h, slots, f, el, s, tail, o, last);
        }
      case Union(_) => if tail != [] { FilledUnion(h, slots, f, s, tail, o, last); }
      case Table(i) =>
        if tail != [] && TableAtSlot(h, slots, f.offset).Some? {
          FillIsTheOnlyEffect(h, TableAtSlot(h, slots, f.offset).value, i, s, tail, o, last);
        }
      case Scalar(st, _) =>
        if tail == [] && f.offset !in slots {
          assert DefaultsTo(TableAt(s, t), last.ref, DefaultLeaf(f, st));
          assert WalkField(h, slots, f, s, tail, On(o)) == Ok([Some(DefaultLeaf(f, st))]);
          assert WalkField(h, slots, f, s, tail, Off(o)) == Ok([None]);
        }
      case _ =>
    }
  }

  lemma {:induction false} FilledUnion(h: Heap, slots: map<nat, Slot>, f: Field, s: Schema, tail: seq<Q.Step>,
                                       o: ExecOptions, last: Q.Step)
    requires f.typ.Union? && EndsWith(tail, last)
    ensures Filled(s, last, WalkUnion(h, slots, f, s, tail, On(o)), WalkUnion(h, slots, f, s, tail, Off(o)))
    decreases |tail|, 1, 0
  {
    hide WalkTable, WalkStruct, EndsWith, ActiveVariant;
    match ActiveVariant(slots, f) {
      case Ok(Some(VTable(t))) =>
        if TableAtSlot(h, slots, f.offset).Some? {
          FillIsTheOnlyEffect(h, TableAtSlot(h, slots, f.offset).value, t, s, tail, o, last);
        }
      case _ =>
    }
  }

  lemma {:induction false} FilledVector(h: Heap, slots: map<nat, Slot>, f: Field, el: ElementType, s: Schema,
                                        steps: seq<Q.Step>, o: ExecOptions, last: Q.Step)
    requires EndsWith(steps, last)
    ensures Filled(s, last, WalkVector(h, slots, f, el, s, steps, On(o)), WalkVector(h, slots, f, el, s, steps, Off(o)))
    decreases |steps|, 1, 0
  {
    hide WalkIndex, WalkMapKey, WalkAll, WalkMapKeys, IsDefault;
    var tail := steps[1..];
    if |steps| == 1 {
      SameWithoutTail(h, slots, f, el, s, steps[0], o);
    } else {
      assert EndsWith(tail, last);
      match steps[0] {
        case Index(i) => FilledIndex(h, slots, f, el, s, i, tail, o, last);
        case MapKey(key) => FilledKey(h, slots, f, el, s, key, tail, o, last);
        case All => FilledAll(h, slots, f, el, s, tail, o, last);
        case MapKeys => SameKeys(h, slots, f, el, s, tail, o);
        case _ =>
      }
    }
  }

  lemma {:induction false} NoLeafWithoutSteps(h: Heap, slots: map<nat, Slot>, f: Field, el: ElementType, s: Schema,
                                              o: ExecOptions)
    ensures WalkVector(h, slots, f, el, s, [], On(o)) == WalkVector(h, slots, f, el, s, [], Off(o))
  {
    hide WalkIndex, WalkMapKey, WalkAll, WalkMapKeys;
  }

  lemma {:induction false} SameWithoutTail(h: Heap, slots: map<nat, Slot>, f: Field, el: ElementType, s: Schema,
                                           step: Q.Step, o: ExecOptions)
    ensures step.Index? ==>
      WalkIndex(h, slots, f, el, s, step.index, [], On(o)) == WalkIndex(h, slots, f, el, s, step.index, [], Off(o))
    ensures step.MapKey? ==>
      WalkMapKey(h, slots, f, el, s, step.key, [], On(o)) == WalkMapKey(h, slots, f, el, s, step.key, [], Off(o))
    ensures WalkAll(h, slots, f, el, s, [], On(o)) == WalkAll(h, slots, f, el, s, [], Off(o))
    ensures WalkMapKeys(h, slots, f, el, s, [], On(o)) == WalkMapKeys(h, slots, f, el, s, [], Off(o))
  {
    hide WalkTable, WalkStruct, FanTables, FanStructs, ReadAll, ReadElement, Keys, LookupKeyedField, KeyIndex;
  }

  lemma {:induction false} SameKeys(h: Heap, slots: map<nat, Slot>, f: Field, el: ElementType, s: Schema,
                                    tail: seq<Q.Step>, o: ExecOptions)
    ensures WalkMapKeys(h, slots, f, el, s, tail, On(o)) == WalkMapKeys(h, slots, f, el, s, tail, Off(o))
  {
    hide Keys, LookupKeyedField;
  }

  lemma {:induction false} FilledIndex(h: Heap, slots: map<nat, Slot>, f: Field, el: ElementType, s: Schema, i: nat,
                                       tail: seq<Q.Step>, o: ExecOptions, last: Q.Step)
    requires EndsWith(tail, last)
    ensures Filled(s, last, WalkIndex(h, slots, f, el, s, i, tail, On(o)),
      WalkIndex(h, slots, f, el, s, i, tail, Off(o)))
    decreases |tail|, 1, 0
  {
    hide WalkTable, WalkStruct, ReadElement, SlotsAt, Count, IsDefault;
    match el {
      case ETable(t) =>
        match VectorAtSlot(h, slots, f.offset) {
          case Some(items) => if i < |items| { FillIsTheOnlyEffect(h, SlotsAt(h, items[i]), t, s, tail, o, last); }
          case None =>
        }
      case _ =>
    }
  }

  lemma {:induction false} FilledKey(h: Heap, slots: map<nat, Slot>, f: Field, el: ElementType, s: Schema,
                                     key: Q.MapKey, tail: seq<Q.Step>, o: ExecOptions, last: Q.Step)
    requires EndsWith(tail, last)
    ensures Filled(s, last, WalkMapKey(h, slots, f, el, s, key, tail, On(o)),
      WalkMapKey(h, slots, f, el, s, key, tail, Off(o)))
    decreases |tail|, 1, 0
  {
    hide WalkTable, SlotsAt, Keys, KeyIndex, LookupKeyedField, VectorAtSlot, IsDefault, EndsWith, TableAt;
    if el.ETable? {
      match (LookupKeyedField(TableAt(s, el.index).fields), VectorAtSlot(h, slots, f.offset)) {
        case (Ok(kf), Some(items)) =>
          SameIndex(Keys(h, items, kf, o.reader), kf, key, o);
          match KeyIndex(Keys(h, items, kf, o.reader), kf, key, o) {
            case Ok(Some(i)) => FillIsTheOnlyEffect(h, SlotsAt(h, items[i]), el.index, s, tail, o, last);
            case _ =>
          }
        case _ =>
      }
    }
  }

  lemma {:induction false} SameIndex(keys: seq<string>, kf: Field, key: Q.MapKey, o: ExecOptions)
    ensures KeyIndex(keys, kf, key, On(o)) == KeyIndex(keys, kf, key, o) == KeyIndex(keys, kf, key, Off(o))
  {
    hide StrictIndex, Scan;
  }

  lemma {:induction false} FilledAll(h: Heap, slots: map<nat, Slot>, f: Field, el: ElementType, s: Schema,
                                     tail: seq<Q.Step>, o: ExecOptions, last: Q.Step)
    requires EndsWith(tail, last)
    ensures Filled(s, last, WalkAll(h, slots, f, el, s, tail, On(o)), WalkAll(h, slots, f, el, s, tail, Off(o)))
    decreases |tail|, 2, 0
  {
    hide WalkTable, FanStructs, ReadAll, VectorAtSlot, FanTables, IsDefault;
    match el {
      case ETable(t) =>
        match VectorAtSlot(h, slots, f.offset) {
          case Some(items) => FilledTables(h, items, |items|, t, s, tail, o, last);
          case None =>
        }
      case _ =>
    }
  }

  lemma {:induction false} FilledTables(h: Heap, items: seq<Slot>, n: nat, t: nat, s: Schema, tail: seq<Q.Step>,
                                        o: ExecOptions, last: Q.Step)
    requires EndsWith(tail, last) && n <= |items|
    ensures Filled(s, last, FanTables(h, items, n, t, s, tail, On(o)), FanTables(h, items, n, t, s, tail, Off(o)))
    decreases |tail|, 1, n
  {
    hide WalkTable, SlotsAt, LeafFilled;
    if n > 0 {
      FilledTables(h, items, n - 1, t, s, tail, o, last);
      FillIsTheOnlyEffect(h, SlotsAt(h, items[n - 1]), t, s, tail, o, last);
    } else {
      assert FanTables(h, items, 0, t, s, tail, On(o)) == Ok([]);
    }
  }
}
