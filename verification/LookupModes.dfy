/**
 Strict and lenient lookup on whole paths. The mode only matters at a literal key: if every keyed vector that a path
 looks up can be bisected, both modes return the same leaves or error, whatever else the path goes through.
 */
module LookupModes {
  import opened Wrappers
  import opened Schema
  import opened Buffer
  import opened Executor
  import opened MapKeys
  import Q = Query
  import Text

  /** The bisect finds what is there: ascending keys, or `ulong` keys with a band whose size is on the chain. */
  ghost predicate Searchable(keys: seq<string>, kf: Field) {
    || Ascending(keys, kf.typ.String?)
    || (IsIntegerKeyType(kf.typ) && exists p: nat :: p <= |keys| && HighBand(keys, p) && OnChain(|keys|, |keys| - p))
  }

  /**
   What is asked of the keys of every lookup: that both modes find alike, or that `to_json` lists each
   under its own text.
   */
  datatype Need = Findable | Listed

  /**
   The keys are findable and, if there are none, their type is supported; or they are ascending and in
   canonical text.
   */
  ghost predicate GoodLookup(need: Need, keys: seq<string>, kf: Field, key: Q.MapKey) {
    match need
    case Findable => Searchable(keys, kf) && (keys != [] || CompileKey(kf, key).Ok?)
    case Listed => Ascending(keys, kf.typ.String?) && (kf.typ.String? || CanonicalKeys(keys))
  }

  /** Integer keys as `to_string` prints them. */
  predicate CanonicalKeys(keys: seq<string>) {
    forall i :: 0 <= i < |keys| ==> Text.ParseI64(keys[i]).Some? && keys[i] == Text.Dec(Text.ParseI64(keys[i]).value)
  }

  /** Every lookup on the way of `steps` from this table is a good one. */
  ghost predicate GoodLookups(need: Need, h: Heap, slots: map<nat, Slot>, t: nat, s: Schema, steps: seq<Q.Step>,
                              o: ExecOptions)
    decreases |steps|, 0
  {
    steps != [] && steps[0].Field? && FindField(TableAt(s, t).fields, steps[0].ref).Some? ==>
      LookupsBelow(need, h, slots, FindField(TableAt(s, t).fields, steps[0].ref).value, s, steps[1..], o)
  }

  ghost predicate LookupsBelow(need: Need, h: Heap, slots: map<nat, Slot>, f: Field, s: Schema, tail: seq<Q.Step>,
                               o: ExecOptions)
    decreases |tail|, 3
  {
    match f.typ
    case Table(t) => LookupsInChild(need, h, slots, f.offset, t, s, tail, o)
    case Union(_) =>
      (match ActiveVariant(slots, f)
       case Ok(Some(VTable(t))) => LookupsInChild(need, h, slots, f.offset, t, s, tail, o)
       case _ => true)
    case Vector(ETable(t)) =>
      tail != [] && VectorAtSlot(h, slots, f.offset).Some? ==>
        LookupsInVector(need, h, VectorAtSlot(h, slots, f.offset).value, t, s, tail[0], tail[1..], o)
    case _ => true
  }

  ghost predicate LookupsInChild(need: Need, h: Heap, slots: map<nat, Slot>, at: nat, t: nat, s: Schema,
                                 tail: seq<Q.Step>, o: ExecOptions)
    decreases |tail|, 1
  {
    TableAtSlot(h, slots, at).Some? ==> GoodLookups(need, h, TableAtSlot(h, slots, at).value, t, s, tail, o)
  }

  ghost predicate LookupsInVector(need: Need, h: Heap, items: seq<Slot>, t: nat, s: Schema, step: Q.Step,
                                  tail: seq<Q.Step>, o: ExecOptions)
    decreases |tail|, 2
  {
    match step
    case Index(i) => i < |items| ==> GoodLookups(need, h, SlotsAt(h, items[i]), t, s, tail, o)
    case All => forall i :: 0 <= i < |items| ==> GoodLookups(need, h, SlotsAt(h, items[i]), t, s, tail, o)
    case MapKey(key) =>
      LookupKeyedField(TableAt(s, t).fields).Ok? && tail != [] ==>
        var kf := LookupKeyedField(TableAt(s, t).fields).value;
        GoodLookup(need, Keys(h, items, kf, o.reader), kf, key) && LookupsInRow(need, h, items, kf, key, t, s, tail, o)
    case _ => true
  }

  /** The row that the literal names goes on with good lookups. */
  ghost predicate LookupsInRow(need: Need, h: Heap, items: seq<Slot>, kf: Field, key: Q.MapKey, t: nat, s: Schema,
                               tail: seq<Q.Step>, o: ExecOptions)
    decreases |tail|, 1
  {
    match Scan(Keys(h, items, kf, o.reader), kf, key, 0)
    case Ok(Some(i)) => GoodLookups(need, h, SlotsAt(h, items[i]), t, s, tail, o)
    case _ => true
  }

  predicate KeyFree(steps: seq<Q.Step>) {
    forall i :: 0 <= i < |steps| ==> !steps[i].MapKey?
  }

  /** A path without literals looks nothing up. */
  lemma {:induction false} NoLookups(need: Need, h: Heap, slots: map<nat, Slot>, t: nat, s: Schema, steps: seq<Q.Step>,
                                     o: ExecOptions)
    requires KeyFree(steps)
    ensures GoodLookups(need, h, slots, t, s, steps, o)
    decreases |steps|, 0
  {
    hide FindField, TableAt, LookupsInChild, ActiveVariant, VectorAtSlot, LookupsInVector;
    if steps != [] && steps[0].Field? && FindField(TableAt(s, t).fields, steps[0].ref).Some? {
      var f := FindField(TableAt(s, t).fields, steps[0].ref).value;
      var tail := steps[1..];
      match f.typ {
        case Table(i) => NoLookupsInChild(need, h, slots, f.offset, i, s, tail, o);
        case Union(_) =>
          match ActiveVariant(slots, f) {
            case Ok(Some(VTable(i))) => NoLookupsInChild(need, h, slots, f.offset, i, s, tail, o);
            case _ =>
          }
        case Vector(ETable(i)) =>
          if tail != [] && VectorAtSlot(h, slots, f.offset).Some? {
            NoLookupsInVector(need, h, VectorAtSlot(h, slots, f.offset).value, i, s, tail, o);
          }
        case _ =>
      }
    }
  }

  lemma {:induction false} NoLookupsInVector(need: Need, h: Heap, items: seq<Slot>, t: nat, s: Schema,
                                             tail: seq<Q.Step>, o: ExecOptions)
    requires KeyFree(tail) && tail != []
    ensures LookupsInVector(need, h, items, t, s, tail[0], tail[1..], o)
    decreases |tail|, 0
  {
    hide GoodLookups, SlotsAt, LookupsInRow, GoodLookup;
    forall k | 0 <= k < |items| ensures GoodLookups(need, h, SlotsAt(h, items[k]), t, s, tail[1..], o) {
      NoLookups(need, h, SlotsAt(h, items[k]), t, s, tail[1..], o);
    }
  }

  lemma {:induction false} NoLookupsInChild(need: Need, h: Heap, slots: map<nat, Slot>, at: nat, t: nat, s: Schema,
                                            tail: seq<Q.Step>, o: ExecOptions)
    requires KeyFree(tail)
    ensures LookupsInChild(need, h, slots, at, t, s, tail, o)
    decreases |tail|, 1
  {
    hide GoodLookups, TableAtSlot;
    if TableAtSlot(h, slots, at).Some? { NoLookups(need, h, TableAtSlot(h, slots, at).value, t, s, tail, o); }
  }

  lemma {:induction false} GoodLookupAgrees(keys: seq<string>, kf: Field, key: Q.MapKey)
    requires GoodLookup(Findable, keys, kf, key)
    ensures StrictIndex(keys, kf, key) == Scan(keys, kf, key, 0)
  {
    hide StrictIndex, Scan, Ascending, HighBand, OnChain, CompileKey;
    if Ascending(keys, kf.typ.String?) {
      BisectRefinesScan(keys, kf, key);
    } else {
      var p: nat :| p <= |keys| && HighBand(keys, p) && OnChain(|keys|, |keys| - p);
      AgreesOnChain(keys, p, kf, key);
    }
  }

  /** Strict and lenient mode agree on every path whose lookups are good ones. */
  lemma {:induction false} PathsAgree(h: Heap, slots: map<nat, Slot>, t: nat, s: Schema, steps: seq<Q.Step>,
                                      o: ExecOptions)
    requires steps != [] && GoodLookups(Findable, h, slots, t, s, steps, o)
    ensures WalkTable(h, slots, t, s, steps, Strict(o)) == WalkTable(h, slots, t, s, steps, Lenient(o))
    decreases |steps|, 0, 0
  {
    hide WalkField, FindField, TableAt, LookupsBelow;
    if steps[0].Field? {
      match FindField(TableAt(s, t).fields, steps[0].ref) {
        case Some(f) => FieldsAgree(h, slots, f, s, steps[1..], o);
        case None =>
      }
    }
  }

  lemma {:induction false} FieldsAgree(h: Heap, slots: map<nat, Slot>, f: Field, s: Schema, tail: seq<Q.Step>,
                                       o: ExecOptions)
    requires LookupsBelow(Findable, h, slots, f, s, tail, o)
    ensures WalkField(h, slots, f, s, tail, Strict(o)) == WalkField(h, slots, f, s, tail, Lenient(o))
    decreases |tail|, 2, 0
  {
    hide WalkTable, WalkStruct, WalkVector, WalkUnion, UnionTypeLeaf, UnionValueLeaf, PresentScalar, DefaultLeaf,
      ActiveVariant, GoodLookups,
      LookupsInVector;
    match f.typ {
      case Vector(el) => VectorsAgree(h, slots, f, el, s, tail, o);
      case Union(_) => if tail != [] { UnionsAgree(h, slots, f, s, tail, o); }
      case Table(t) => if tail != [] { ChildrenAgree(h, slots, f.offset, t, s, tail, o); }
      case _ =>
    }
  }

  lemma {:induction false} ChildrenAgree(h: Heap, slots: map<nat, Slot>, at: nat, t: nat, s: Schema, tail: seq<Q.Step>,
                                         o: ExecOptions)
    requires tail != [] && LookupsInChild(Findable, h, slots, at, t, s, tail, o)
    ensures var child := TableAtSlot(h, slots, at);
            child.Some? ==>
              WalkTable(h, child.value, t, s, tail, Strict(o)) == WalkTable(h, child.value, t, s, tail, Lenient(o))
    decreases |tail|, 1, 0
  {
    hide WalkTable, GoodLookups, TableAtSlot;
    var child := TableAtSlot(h, slots, at);
    if child.Some? { PathsAgree(h, child.value, t, s, tail, o); }
  }

  lemma {:induction false} UnionsAgree(h: Heap, slots: map<nat, Slot>, f: Field, s: Schema, tail: seq<Q.Step>,
                                       o: ExecOptions)
    requires f.typ.Union? && tail != [] && LookupsBelow(Findable, h, slots, f, s, tail, o)
    ensures WalkUnion(h, slots, f, s, tail, Strict(o)) == WalkUnion(h, slots, f, s, tail, Lenient(o))
    decreases |tail|, 1, 1
  {
    hide WalkTable, WalkStruct, ActiveVariant, GoodLookups, TableAtSlot, StructAtSlot;
    match ActiveVariant(slots, f) {
      case Ok(Some(VTable(t))) => ChildrenAgree(h, slots, f.offset, t, s, tail, o);
      case _ =>
    }
  }

  lemma {:induction false} VectorsAgree(h: Heap, slots: map<nat, Slot>, f: Field, el: ElementType, s: Schema,
                                        steps: seq<Q.Step>, o: ExecOptions)
    requires f.typ == Vector(el) && LookupsBelow(Findable, h, slots, f, s, steps, o)
    ensures WalkVector(h, slots, f, el, s, steps, Strict(o)) == WalkVector(h, slots, f, el, s, steps, Lenient(o))
    decreases |steps|, 1, 0
  {
    hide WalkTable, WalkIndex, WalkAll, WalkMapKey, WalkMapKeys, LookupsInVector, VectorAtSlot;
    if steps != [] {
      var tail := steps[1..];
      if el.ETable? {
        match steps[0] {
          case Index(i) => IndexAgrees(h, slots, f, el.index, s, i, tail, o);
          case All => AllAgree(h, slots, f, el.index, s, tail, o);
          case MapKey(key) => LookupAgrees(h, slots, f, el.index, s, key, tail, o);
          case _ => SameKeyList(h, slots, f, el, s, tail, o);
        }
      } else {
        NoTables(h, slots, f, el, s, steps, o);
      }
    }
  }

  /** In a vector without tables nothing depends on the mode. */
  lemma {:induction false} NoTables(h: Heap, slots: map<nat, Slot>, f: Field, el: ElementType, s: Schema,
                                    steps: seq<Q.Step>, o: ExecOptions)
    requires !el.ETable? && steps != []
    ensures WalkVector(h, slots, f, el, s, steps, Strict(o)) == WalkVector(h, slots, f, el, s, steps, Lenient(o))
  {
    hide WalkStruct, FanStructs, ReadAll, ReadElement, BodyAtSlot, Count;
  }

  lemma {:induction false} SameKeyList(h: Heap, slots: map<nat, Slot>, f: Field, el: ElementType, s: Schema,
                                       tail: seq<Q.Step>, o: ExecOptions)
    ensures WalkMapKeys(h, slots, f, el, s, tail, Strict(o)) == WalkMapKeys(h, slots, f, el, s, tail, Lenient(o))
  {
    hide Keys, LookupKeyedField;
  }

  lemma {:induction false} IndexAgrees(h: Heap, slots: map<nat, Slot>, f: Field, t: nat, s: Schema, i: nat,
                                       tail: seq<Q.Step>, o: ExecOptions)
    requires VectorAtSlot(h, slots, f.offset).Some? ==>
      LookupsInVector(Findable, h, VectorAtSlot(h, slots, f.offset).value, t, s, Q.Index(i), tail, o)
    ensures WalkIndex(h, slots, f, ETable(t), s, i, tail, Strict(o)) ==
      WalkIndex(h, slots, f, ETable(t), s, i, tail, Lenient(o))
    decreases |tail|, 1, 0
  {
    hide WalkTable, SlotsAt, GoodLookups, VectorAtSlot;
    match VectorAtSlot(h, slots, f.offset) {
      case Some(items) => if i < |items| && tail != [] { PathsAgree(h, SlotsAt(h, items[i]), t, s, tail, o); }
      case None =>
    }
  }

  lemma {:induction false} AllAgree(h: Heap, slots: map<nat, Slot>, f: Field, t: nat, s: Schema, tail: seq<Q.Step>,
                                    o: ExecOptions)
    requires VectorAtSlot(h, slots, f.offset).Some? ==>
      LookupsInVector(Findable, h, VectorAtSlot(h, slots, f.offset).value, t, s, Q.All, tail, o)
    ensures WalkAll(h, slots, f, ETable(t), s, tail, Strict(o)) == WalkAll(h, slots, f, ETable(t), s, tail, Lenient(o))
    decreases |tail|, 2, 0
  {
    hide WalkTable, SlotsAt, GoodLookups, VectorAtSlot, FanTables;
    match VectorAtSlot(h, slots, f.offset) {
      case Some(items) => if tail != [] { FansAgree(h, items, |items|, t, s, tail, o); }
      case None =>
    }
  }

  lemma {:induction false} FansAgree(h: Heap, items: seq<Slot>, n: nat, t: nat, s: Schema, tail: seq<Q.Step>,
                                     o: ExecOptions)
    requires tail != [] && n <= |items| && forall i :: 0 <= i < |items| ==>
      GoodLookups(Findable, h, SlotsAt(h, items[i]), t, s, tail, o)
    ensures FanTables(h, items, n, t, s, tail, Strict(o)) == FanTables(h, items, n, t, s, tail, Lenient(o))
    decreases |tail|, 1, n
  {
    hide WalkTable, SlotsAt, GoodLookups;
    if n > 0 {
      FansAgree(h, items, n - 1, t, s, tail, o);
      PathsAgree(h, SlotsAt(h, items[n - 1]), t, s, tail, o);
    }
  }

  /** One lookup and what follows it. */
  lemma {:induction false} LookupAgrees(h: Heap, slots: map<nat, Slot>, f: Field, t: nat, s: Schema, key: Q.MapKey,
                                        tail: seq<Q.Step>, o: ExecOptions)
    requires VectorAtSlot(h, slots, f.offset).Some? ==>
      LookupsInVector(Findable, h, VectorAtSlot(h, slots, f.offset).value, t, s, Q.MapKey(key), tail, o)
    ensures WalkMapKey(h, slots, f, ETable(t), s, key, tail, Strict(o)) ==
      WalkMapKey(h, slots, f, ETable(t), s, key, tail, Lenient(o))
    decreases |tail|, 1, 1
  {
    hide WalkTable, StrictIndex, Scan, Keys, SlotsAt, GoodLookup, GoodLookups, VectorAtSlot, LookupKeyedField, TableAt;
    match (LookupKeyedField(TableAt(s, t).fields), VectorAtSlot(h, slots, f.offset)) {
      case (Ok(kf), Some(items)) =>
        if tail != [] {
          var keys := Keys(h, items, kf, o.reader);
          GoodLookupAgrees(keys, kf, key);
          match Scan(keys, kf, key, 0) {
            case Ok(Some(i)) => PathsAgree(h, SlotsAt(h, items[i]), t, s, tail, o);
            case _ =>
          }
        }
      case _ =>
    }
  }
}
