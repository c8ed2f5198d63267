/**
 Which lookups in a built buffer find what the document lists, as a condition on the document.

 A keyed vector given as an object is sorted when it is built; one given as an array keeps its order. So
 the rows that a query looks up must come from an object, whose keys must be distinct once decoded and
 shown by the key reader even if they equal the schema default.
 */
module BuiltLookups {
  import opened Wrappers
  import opened Schema
  import opened Buffer
  import opened KeyText
  import opened FromJson
  import opened ToJson
  import opened WritePhase
  import opened HeapTree
  import opened LookupModes
  import E = Executor
  import I = Idempotence
  import M = MapKeys
  import R = RoundTrip
  import RT = ReencodeTables
  import SL = SugarLookup
  import SR = SameReaders
  import J = Json
  import Q = Query
  import Text

  /** An object of rows whose built vector is searched by the keys it lists. */
  ghost predicate SortedObject(x: J.Value, kf: Field, rd: KeyReader) {
    x.Obj? && SL.SupportedKey(kf) && SL.DistinctKeys(x.m, kf) && SL.KeysOnWire(x.m, kf, rd)
  }

  /** Every vector that the query looks up in is given as such an object. */
  ghost predicate DocLookups(v: J.Value, t: nat, s: Schema, steps: seq<Q.Step>, rd: KeyReader)
    decreases |steps|, 0
  {
    v.Obj? && steps != [] && steps[0].Field? && E.FindField(TableAt(s, t).fields, steps[0].ref).Some? ==>
      DocLookupsBelow(v, E.FindField(TableAt(s, t).fields, steps[0].ref).value, s, steps[1..], rd)
  }

  ghost predicate DocLookupsBelow(v: J.Value, f: Field, s: Schema, tail: seq<Q.Step>, rd: KeyReader)
    requires v.Obj?
    decreases |tail|, 2
  {
    match f.typ
    case Table(t) => J.Present(v.m, f.name).Some? ==> DocLookups(v.m[f.name], t, s, tail, rd)
    case Union(variants) =>
      var active := I.ActiveTable(v.m, f.name, variants);
      active.Some? ==> DocLookups(v.m[f.name], active.value, s, tail, rd)
    case Vector(ETable(t)) => tail != [] && J.Present(v.m, f.name).Some? ==>
      DocLookupsIn(v.m[f.name], t, s, tail[0], tail[1..], rd)
    case _ => true
  }

  ghost predicate DocLookupsIn(x: J.Value, t: nat, s: Schema, step: Q.Step, rest: seq<Q.Step>, rd: KeyReader)
    decreases |rest|, 1
  {
    var kf := KeyedField(TableAt(s, t).fields);
    && (step.MapKey? && kf.Some? ==> SortedObject(x, kf.value, rd))
    && ((x.Arr? || (x.Obj? && kf.Some?)) && R.TableInput(x, kf).Ok? ==>
          forall i :: 0 <= i < |R.TableInput(x, kf).value| && (step.Index? ==> i == step.index) ==>
            DocLookups(R.TableInput(x, kf).value[i], t, s, rest, rd))
  }

  // What a slot of a built table holds.

  lemma {:induction false} ChildOfField(v: J.Value, t: nat, s: Schema, d: nat, bo: Options, k: nat)
    requires GoodSchema(s) && EncTable(v, t, s, d, bo).Ok? && k < |TableAt(s, t).fields|
      && TableAt(s, t).fields[k].typ.Table?
    requires TableAt(s, t).fields[k].offset in Slots(EncTable(v, t, s, d, bo).value)
    ensures var f := TableAt(s, t).fields[k];
            && v.Obj? && J.Present(v.m, f.name).Some?
            && EncTable(v.m[f.name], f.typ.index, s, d + 1, bo) == Ok(Slots(EncTable(v, t, s, d, bo).value)[f.offset])
  {
    hide EncTable, EncField, EncPresent, GoodSchema, TableAt;
    R.TableParts(v, t, s, d, bo);
    GoodAt(s, t);
    SlotOfField(v, t, s, d, bo, k);
    var f := TableAt(s, t).fields[k];
    R.FieldOfPresent(v, f, s, d, bo);
    PushOfTable(v.m[f.name], f, s, d, bo);
  }

  lemma {:induction false} PushOfTable(x: J.Value, f: Field, s: Schema, d: nat, bo: Options)
    requires f.typ.Table? && EncPresent(x, f, s, d, bo).Ok?
    ensures EncTable(x, f.typ.index, s, d + 1, bo).Ok?
      && EncPresent(x, f, s, d, bo).value == PushOffset(EncTable(x, f.typ.index, s, d + 1, bo).value)
  {
    hide EncTable;
  }

  lemma {:induction false} VectorOfField(v: J.Value, t: nat, s: Schema, d: nat, bo: Options, k: nat)
    requires GoodSchema(s) && EncTable(v, t, s, d, bo).Ok? && k < |TableAt(s, t).fields|
      && TableAt(s, t).fields[k].typ.Vector?
    requires TableAt(s, t).fields[k].offset in Slots(EncTable(v, t, s, d, bo).value)
    ensures var f := TableAt(s, t).fields[k];
            && v.Obj? && J.Present(v.m, f.name).Some?
            && EncVector(v.m[f.name], f.typ.elem, f.hex, s, d + 1, bo) ==
              Ok(Slots(EncTable(v, t, s, d, bo).value)[f.offset])
  {
    hide EncTable, EncVector, EncField, EncPresent, GoodSchema, TableAt;
    R.TableParts(v, t, s, d, bo);
    GoodAt(s, t);
    SlotOfField(v, t, s, d, bo, k);
    var f := TableAt(s, t).fields[k];
    R.FieldOfPresent(v, f, s, d, bo);
    PushOfVector(v.m[f.name], f, s, d, bo);
  }

  lemma {:induction false} PushOfVector(x: J.Value, f: Field, s: Schema, d: nat, bo: Options)
    requires f.typ.Vector? && EncPresent(x, f, s, d, bo).Ok?
    ensures EncVector(x, f.typ.elem, f.hex, s, d + 1, bo).Ok?
    ensures EncPresent(x, f, s, d, bo).value == PushOffset(EncVector(x, f.typ.elem, f.hex, s, d + 1, bo).value)
  {
    hide EncVector;
  }

  /**
   The variant an executor enters in a built union is the one the document's tag names, and it holds the
   document's value.
   */
  lemma {:induction false} VariantOfField(h: Heap, slots: map<nat, Slot>, b: nat, v: J.Value, t: nat, s: Schema,
                                          d: nat, bo: Options, k: nat, i: nat)
    requires GoodSchema(s) && EncTable(v, t, s, d, bo).Ok? && k < |TableAt(s, t).fields|
      && TableAt(s, t).fields[k].typ.Union?
    requires Mirrors(h, slots, b, EncTable(v, t, s, d, bo).value)
      && E.ActiveVariant(slots, TableAt(s, t).fields[k]) == Ok(Some(VTable(i)))
    requires TableAt(s, t).fields[k].offset in slots
    ensures var f := TableAt(s, t).fields[k]; var w := EncTable(v, t, s, d, bo).value;
            && v.Obj? && f.name in v.m && I.ActiveTable(v.m, f.name, f.typ.variants) == Some(i) && f.offset in Slots(w)
            && EncTable(v.m[f.name], i, s, d + 1, bo) == Ok(Slots(w)[f.offset])
  {
    hide EncTable, EncField, EncUnion, EncVariant, GoodSchema, TableAt, Mirrors, VariantByName, VariantByValue, E.Tag,
      I.ActiveTable, GoodField;
    var f := TableAt(s, t).fields[k];
    var w := EncTable(v, t, s, d, bo).value;
    R.TableParts(v, t, s, d, bo);
    GoodAt(s, t);
    R.FieldIsGood(TableAt(s, t), k);
    SlotsOfUnion(v, t, s, d, bo, k);
    SR.TagMirrored(h, slots, b, w, f.offset);
    SlotMirrored(h, slots, b, w, f.offset);
    RT.UnionAccepted(v, f, s, d, bo);
    assert EncField(v, f, s, d, bo).value.Some?;
    UnionPush(v, f, s, d + 1, bo);
    R.VariantOfPush(v, f, s, d + 1, bo);
    var variant := VariantByName(f.typ.variants, v.m[DiscKey(f.name)].s).value;
    RT.ActiveIs(v, f, variant);
    VariantIsTable(v.m[f.name], i, s, d + 1, bo);
  }

  lemma {:induction false} VariantIsTable(x: J.Value, i: nat, s: Schema, d: nat, bo: Options)
    ensures EncVariant(x, VTable(i), s, d, bo) == EncTable(x, i, s, d, bo)
  {
    hide EncTable;
  }

  // Along the path.

  /** In a built table the lookups of such a document are good ones. */
  lemma {:induction false} BuiltTable(h: Heap, slots: map<nat, Slot>, b: nat, v: J.Value, t: nat, s: Schema, d: nat,
                                      bo: Options, steps: seq<Q.Step>, o: E.ExecOptions)
    requires GoodSchema(s) && Backward(h) && EncTable(v, t, s, d, bo).Ok?
      && Mirrors(h, slots, b, EncTable(v, t, s, d, bo).value)
    requires DocLookups(v, t, s, steps, o.reader)
    ensures GoodLookups(Listed, h, slots, t, s, steps, o)
    decreases |steps|, 0
  {
    hide *;
    var fields := TableAt(s, t).fields;
    R.TableParts(v, t, s, d, bo);
    if steps != [] && steps[0].Field? && E.FindField(fields, steps[0].ref).Some? {
      var f := E.FindField(fields, steps[0].ref).value;
      SR.FoundField(fields, steps[0].ref);
      var k :| 0 <= k < |fields| && fields[k] == f;
      DocBelow(v, t, s, steps, o.reader);
      BuiltField(h, slots, b, v, t, s, d, bo, k, steps[1..], o);
    }
    LookupsByField(h, slots, t, s, steps, o);
  }

  lemma {:induction false} DocBelow(v: J.Value, t: nat, s: Schema, steps: seq<Q.Step>, rd: KeyReader)
    requires v.Obj? && DocLookups(v, t, s, steps, rd) && steps != [] && steps[0].Field?
      && E.FindField(TableAt(s, t).fields, steps[0].ref).Some?
    ensures DocLookupsBelow(v, E.FindField(TableAt(s, t).fields, steps[0].ref).value, s, steps[1..], rd)
  {
    hide DocLookupsBelow, TableAt, E.FindField;
  }

  lemma {:induction false} LookupsByField(h: Heap, slots: map<nat, Slot>, t: nat, s: Schema, steps: seq<Q.Step>,
                                          o: E.ExecOptions)
    requires steps != [] && steps[0].Field? && E.FindField(TableAt(s, t).fields, steps[0].ref).Some? ==>
      LookupsBelow(Listed, h, slots, E.FindField(TableAt(s, t).fields, steps[0].ref).value, s, steps[1..], o)
    ensures GoodLookups(Listed, h, slots, t, s, steps, o)
  {
    hide LookupsBelow, TableAt, E.FindField;
  }

  lemma {:induction false} BuiltField(h: Heap, slots: map<nat, Slot>, b: nat, v: J.Value, t: nat, s: Schema, d: nat,
                                      bo: Options, k: nat, tail: seq<Q.Step>,
                                      o: E.ExecOptions)
    requires GoodSchema(s) && Backward(h) && EncTable(v, t, s, d, bo).Ok?
      && Mirrors(h, slots, b, EncTable(v, t, s, d, bo).value) && v.Obj?
    requires k < |TableAt(s, t).fields| && DocLookupsBelow(v, TableAt(s, t).fields[k], s, tail, o.reader)
    ensures LookupsBelow(Listed, h, slots, TableAt(s, t).fields[k], s, tail, o)
    decreases |tail|, 3
  {
    hide EncTable, EncVector, GoodSchema, Backward, Mirrors, TableAt, TableAtSlot, VectorAtSlot, GoodLookups,
      LookupsInVector, DocLookups, DocLookupsIn,
      E.ActiveVariant, I.ActiveTable, Unfold, UnfoldSlot;
    var f := TableAt(s, t).fields[k];
    var w := EncTable(v, t, s, d, bo).value;
    SlotMirrored(h, slots, b, w, f.offset);
    match f.typ {
      case Table(i) =>
        if TableAtSlot(h, slots, f.offset).Some? {
          ChildOfField(v, t, s, d, bo, k);
          ChildMirrors(h, slots, b, w, f.offset);
          BuiltTable(h, TableAtSlot(h, slots, f.offset).value, slots[f.offset].node, v.m[f.name], i, s, d + 1, bo,
            tail, o);
        }
      case Union(_) =>
        match E.ActiveVariant(slots, f) {
          case Ok(Some(VTable(i))) =>
            if TableAtSlot(h, slots, f.offset).Some? {
              VariantOfField(h, slots, b, v, t, s, d, bo, k, i);
              ChildMirrors(h, slots, b, w, f.offset);
              BuiltTable(h, TableAtSlot(h, slots, f.offset).value, slots[f.offset].node, v.m[f.name], i, s, d + 1, bo,
                tail, o);
            }
          case _ =>
        }
      case Vector(ETable(i)) =>
        if tail != [] && VectorAtSlot(h, slots, f.offset).Some? {
          SomeVector(h, slots, f.offset);
          VectorOfField(v, t, s, d, bo, k);
          BuiltVector(h, slots, b, w, f, i, v.m[f.name], s, d + 1, bo, tail, o);
        }
      case _ =>
    }
  }

  lemma {:induction false} SomeVector(h: Heap, slots: map<nat, Slot>, at: nat)
    requires VectorAtSlot(h, slots, at).Some?
    ensures at in slots
  {
  }

  lemma {:induction false} BuiltVector(h: Heap, slots: map<nat, Slot>, b: nat, w: Val, f: Field, t: nat, x: J.Value,
                                       s: Schema, d: nat, bo: Options, tail: seq<Q.Step>,
                                       o: E.ExecOptions)
    requires GoodSchema(s) && Backward(h) && Mirrors(h, slots, b, w) && tail != [] && f.offset in slots
      && VectorAtSlot(h, slots, f.offset).Some?
    requires f.offset in Slots(w) && EncVector(x, ETable(t), f.hex, s, d, bo) == Ok(Slots(w)[f.offset])
    requires DocLookupsIn(x, t, s, tail[0], tail[1..], o.reader)
    ensures LookupsInVector(Listed, h, VectorAtSlot(h, slots, f.offset).value, t, s, tail[0], tail[1..], o)
    decreases |tail|, 2
  {
    hide *;
    var items, nb := VectorMirrored(h, slots, b, w, f.offset);
    var kf := KeyedField(TableAt(s, t).fields);
    R.VectorOfTables(x, t, f.hex, s, d, bo);
    MirrorLength(h, items, nb, Items(Slots(w)[f.offset]));
    var rows := R.TableInput(x, kf).value;
    RowsOfDoc(x, t, s, tail[0], tail[1..], o.reader);
    forall i | 0 <= i < |items| && (tail[0].Index? ==>
      i == tail[0].index) ensures GoodLookups(Listed, h, SlotsAt(h, items[i]), t, s, tail[1..], o) {
      var dd := if x.Obj? then d + 2 else d + 1;
      SL.TablesAt(rows, t, s, dd, bo, J.Height(x), i);
      ElementMirrors(h, items, nb, Items(Slots(w)[f.offset]), i);
      BuiltTable(h, SlotsAt(h, items[i]), if items[i].Ref? then items[i].node
        else 0, rows[i], t, s, dd, bo, tail[1..], o);
    }
    if tail[0].MapKey? && E.LookupKeyedField(TableAt(s, t).fields).Ok? {
      SL.KeyedOf(s, t, E.LookupKeyedField(TableAt(s, t).fields).value);
      BuiltKeys(h, slots, b, w, f, t, kf.value, x, s, d, bo, tail[0].key, items, o.reader);
    }
    LookupsByElement(h, items, t, s, tail[0], tail[1..], o);
  }

  lemma {:induction false} ElementMirrors(h: Heap, items: seq<Slot>, nb: nat, vals: seq<Val>, i: nat)
    requires Backward(h) && ElementsMirror(h, items, nb, vals) && i < |items|
    ensures i < |vals| && Mirrors(h, SlotsAt(h, items[i]), if items[i].Ref? then items[i].node else 0, vals[i])
  {
    hide Mirrors, SlotsAt, UnfoldSlot, Backward;
    MirrorsNode(h, items[i], nb);
  }

  lemma {:induction false} RowsOfDoc(x: J.Value, t: nat, s: Schema, step: Q.Step, rest: seq<Q.Step>, rd: KeyReader)
    requires DocLookupsIn(x, t, s, step, rest, rd)
    requires var kf := KeyedField(TableAt(s, t).fields); (x.Arr? || (x.Obj? && kf.Some?)) && R.TableInput(x, kf).Ok?
    ensures var kf := KeyedField(TableAt(s, t).fields); var rows := R.TableInput(x, kf).value;
            && (step.MapKey? && kf.Some? ==> SortedObject(x, kf.value, rd))
            && forall i :: 0 <= i < |rows| && (step.Index? ==> i == step.index) ==> DocLookups(rows[i], t, s, rest, rd)
  {
    hide DocLookups, SortedObject, R.TableInput, KeyedField, TableAt;
  }

  lemma {:induction false} LookupsByElement(h: Heap, items: seq<Slot>, t: nat, s: Schema, step: Q.Step,
                                            rest: seq<Q.Step>, o: E.ExecOptions)
    requires forall i :: 0 <= i < |items| && (step.Index? ==> i == step.index) ==>
      GoodLookups(Listed, h, SlotsAt(h, items[i]), t, s, rest, o)
    requires step.MapKey? && E.LookupKeyedField(TableAt(s, t).fields).Ok? ==>
      var kf := E.LookupKeyedField(TableAt(s, t).fields).value;
        GoodLookup(Listed, E.Keys(h, items, kf, o.reader), kf, step.key)
    ensures LookupsInVector(Listed, h, items, t, s, step, rest, o)
  {
    hide GoodLookups, GoodLookup, SlotsAt, TableAt, E.LookupKeyedField, E.Keys, E.Scan;
  }

  /** The keys of a vector built from an object are ascending and in canonical text. */
  lemma {:induction false} BuiltKeys(h: Heap, slots: map<nat, Slot>, b: nat, w: Val, f: Field, t: nat, kf: Field,
                                     x: J.Value, s: Schema, d: nat, bo: Options,
                                     key: Q.MapKey, items: seq<Slot>, rd: KeyReader)
    requires GoodSchema(s) && Backward(h) && Mirrors(h, slots, b, w) && f.offset in slots
      && VectorAtSlot(h, slots, f.offset) == Some(items)
    requires f.offset in Slots(w) && EncVector(x, ETable(t), f.hex, s, d, bo) == Ok(Slots(w)[f.offset])
    requires KeyedField(TableAt(s, t).fields) == Some(kf) && SortedObject(x, kf, rd)
    ensures GoodLookup(Listed, E.Keys(h, items, kf, rd), kf, key)
  {
    hide *;
    OfSortedObject(x, kf, rd);
    var j := NodeOfVector(h, slots, b, w, f.offset, x, t, f.hex, s, d, bo, kf);
    SL.KeysOfBuilt(h, j, x, t, kf, f.hex, s, d, bo, rd);
    SL.EntriesOfObject(x, kf);
    ItemsOfNode(h, slots, f.offset, j);
    var es := SortedEntries(x, kf).value;
    var keys := E.Keys(h, items, kf, rd);
    SL.SortedReadsAscending(es, kf.typ.String?, keys);
    if !kf.typ.String? { CanonicalTexts(es, keys); }
    ListedIs(keys, kf, key);
  }

  lemma {:induction false} OfSortedObject(x: J.Value, kf: Field, rd: KeyReader)
    requires SortedObject(x, kf, rd)
    ensures x.Obj? && SL.SupportedKey(kf) && SL.DistinctKeys(x.m, kf) && SL.KeysOnWire(x.m, kf, rd)
  {
    hide SL.SupportedKey, SL.DistinctKeys, SL.KeysOnWire;
  }

  lemma {:induction false} NodeOfVector(h: Heap, slots: map<nat, Slot>, b: nat, w: Val, at: nat, x: J.Value, t: nat,
                                        hex: bool, s: Schema, d: nat, bo: Options, kf: Field)
    returns (j: nat)
    requires Mirrors(h, slots, b, w) && at in slots && at in Slots(w)
      && EncVector(x, ETable(t), hex, s, d, bo) == Ok(Slots(w)[at])
    requires x.Obj? && KeyedField(TableAt(s, t).fields) == Some(kf)
    ensures slots[at] == Ref(j) && Unfold(h, j) == Slots(w)[at]
  {
    hide EncVector, EncTable, KeyedField, TableAt, Unfold;
    SL.KeyedParts(x, t, kf, hex, s, d, bo);
    assert UnfoldSlot(h, slots[at], b).VectorVal?;
    j := slots[at].node;
  }

  lemma {:induction false} ItemsOfNode(h: Heap, slots: map<nat, Slot>, at: nat, j: nat)
    requires at in slots && slots[at] == Ref(j) && j < |h| && h[j].VectorNode?
    ensures VectorAtSlot(h, slots, at) == Some(h[j].items)
  {
  }

  lemma {:induction false} CanonicalTexts(es: seq<Entry>, keys: seq<string>)
    requires |keys| == |es| && SL.OneKind(es, false) && forall i :: 0 <= i < |es| ==>
      SL.InRange(es[i].key) && keys[i] == SL.SortText(es[i].key)
    ensures CanonicalKeys(keys)
  {
    hide Text.Dec, Text.ParseI64;
    forall i | 0 <= i < |keys| ensures Text.ParseI64(keys[i]).Some?
      && keys[i] == Text.Dec(Text.ParseI64(keys[i]).value) {
      Text.ParseDec(es[i].key.n);
    }
  }

  lemma {:induction false} ListedIs(keys: seq<string>, kf: Field, key: Q.MapKey)
    requires M.Ascending(keys, kf.typ.String?) && (kf.typ.String? || CanonicalKeys(keys))
    ensures GoodLookup(Listed, keys, kf, key)
  {
    hide M.Ascending, CanonicalKeys;
  }
}
