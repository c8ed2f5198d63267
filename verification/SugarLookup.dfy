/**
 In a keyed vector built from a JSON object a literal finds the row of the object key that it denotes. The writer
 sorts the rows and the reader bisects them; the two only meet in the bytes, so they must sort and compare alike.
 */
module SugarLookup {
  import opened Wrappers
  import opened Schema
  import opened Scalars
  import opened Buffer
  import opened KeyText
  import opened FromJson
  import opened ToJson
  import opened WritePhase
  import opened Canon
  import opened RoundTrip
  import E = Executor
  import M = MapKeys
  import J = Json
  import Q = Query
  import Text

  // The writer's order.

  /** Entries of one kind, as the key field's type makes them. */
  predicate OneKind(es: seq<Entry>, isText: bool) {
    forall i :: 0 <= i < |es| ==> es[i].key.TextKey? == isText
  }

  predicate DistinctEntries(es: seq<Entry>) {
    forall i, j :: 0 <= i < j < |es| ==> es[i].key != es[j].key
  }

  predicate SortedStrictly(es: seq<Entry>) {
    forall i, j :: 0 <= i < j < |es| ==> KeyLess(es[i].key, es[j].key)
  }

  lemma {:induction false} KeyOrder(a: SortKey, b: SortKey, c: SortKey)
    requires a.TextKey? == b.TextKey? == c.TextKey?
    ensures KeyLess(a, b) || a == b || KeyLess(b, a)
    ensures KeyLess(a, b) && KeyLess(b, c) ==> KeyLess(a, c)
  {
    if a.TextKey? {
      Text.LessTrichotomy(a.text, b.text);
      if Text.Less(a.text, b.text) && Text.Less(b.text, c.text) { Text.LessTransitive(a.text, b.text, c.text); }
    }
  }

  lemma {:induction false} SameMembers(a: seq<Entry>, b: seq<Entry>)
    requires multiset(a) == multiset(b)
    ensures forall e :: e in a <==> e in b
  {
    forall e ensures e in a <==> e in b {
      assert e in a <==> e in multiset(a);
      assert e in b <==> e in multiset(b);
    }
  }

  lemma {:induction false} AppendSorted(es: seq<Entry>, last: Entry)
    requires SortedStrictly(es) && forall i :: 0 <= i < |es| ==> KeyLess(es[i].key, last.key)
    ensures SortedStrictly(es + [last])
  {
    hide KeyLess;
  }

  lemma {:induction false} PrefixSorted(es: seq<Entry>, isText: bool)
    requires SortedStrictly(es) && OneKind(es, isText) && es != []
    ensures SortedStrictly(es[..|es| - 1]) && OneKind(es[..|es| - 1], isText)
    ensures forall i :: 0 <= i < |es| - 1 ==> KeyLess(es[i].key, es[|es| - 1].key)
  {
    hide KeyLess;
  }

  lemma {:induction false} InsertSorted(e: Entry, es: seq<Entry>, isText: bool)
    requires SortedStrictly(es) && OneKind(es, isText) && e.key.TextKey? == isText
    requires forall i :: 0 <= i < |es| ==> es[i].key != e.key
    ensures SortedStrictly(InsertEntry(e, es))
  {
    hide KeyLess, SortedStrictly;
    if es == [] {
      NothingSorted();
      AppendSorted([], e);
      assert [] + [e] == [e];
    } else {
      var n := |es| - 1;
      var init := es[..n];
      PrefixSorted(es, isText);
      if KeyLess(e.key, es[n].key) {
        InsertSorted(e, init, isText);
        var r := InsertEntry(e, init);
        SameMembers(r, init + [e]);
        forall i | 0 <= i < |r| ensures KeyLess(r[i].key, es[n].key) {
          assert r[i] in init + [e];
        }
        AppendSorted(r, es[n]);
      } else {
        KeyOrder(es[n].key, e.key, e.key);
        forall i | 0 <= i < |es| ensures KeyLess(es[i].key, e.key) {
          if i < n { KeyOrder(es[i].key, es[n].key, e.key); }
        }
        AppendSorted(es, e);
      }
    }
  }

  lemma {:induction false} NothingSorted()
    ensures SortedStrictly([])
  {
  }

  /** The sort puts distinct keys into strictly ascending order, whatever order the object listed them in. */
  lemma {:induction false} SortIsStrict(es: seq<Entry>, isText: bool)
    requires DistinctEntries(es) && OneKind(es, isText)
    ensures SortedStrictly(SortEntries(es)) && multiset(SortEntries(es)) == multiset(es)
  {
    hide KeyLess;
    if es != [] {
      var n := |es| - 1;
      SortIsStrict(es[..n], isText);
      var r := SortEntries(es[..n]);
      SameMembers(r, es[..n]);
      forall i | 0 <= i < |r| ensures r[i].key != es[n].key && r[i].key.TextKey? == isText {
        assert r[i] in es[..n];
      }
      InsertSorted(es[n], r, isText);
    }
  }

  // The reader's order.

  /** No two JSON keys decode to one key (`"1"` and `"01"` would). */
  ghost predicate DistinctKeys(m: map<string, J.Value>, kf: Field) {
    forall a, b :: a in m && b in m && a != b && KeyOf(kf, a).Ok? && KeyOf(kf, b).Ok? ==>
      KeyOf(kf, a).value.0 != KeyOf(kf, b).value.0
  }

  /** The key reader will show this key: it is stored, or its absence reads as the same text. */
  predicate Visible(kf: Field, rd: KeyReader, key: SortKey)
    requires SupportedKey(kf)
  {
    key.TextKey? || kf.typ.String? || key.n != Cast(kf.typ.st, kf.defaultInt) || AbsentText(kf, rd) == Text.Dec(key.n)
  }

  ghost predicate KeysOnWire(m: map<string, J.Value>, kf: Field, rd: KeyReader)
    requires SupportedKey(kf)
  {
    forall k :: k in m && KeyOf(kf, k).Ok? && KeyOf(kf, k).value.0.IntKey? ==> Visible(kf, rd, KeyOf(kf, k).value.0)
  }

  predicate SupportedKey(kf: Field) {
    kf.typ.String? || IsIntegerKey(kf)
  }

  function SortText(key: SortKey): string {
    match key
    case TextKey(text) => text
    case IntKey(n) => Text.Dec(n)
  }

  function Compiled(key: SortKey): E.CompiledKey {
    match key
    case TextKey(text) => E.TextKey(text)
    case IntKey(n) => E.IntKey(n)
  }

  /** The two crates read a key the same way. */
  lemma {:induction false} CompileIsKeyOf(kf: Field, k: string)
    requires SupportedKey(kf)
    ensures KeyOf(kf, k).Ok? ==> E.CompileKey(kf, Q.KeyText(k)) == Ok(Some(Compiled(KeyOf(kf, k).value.0)))
    ensures KeyOf(kf, k).Err? ==> E.CompileKey(kf, Q.KeyText(k)) == Ok(None)
  {
    hide Text.ParseI64;
  }

  predicate InRange(key: SortKey) {
    key.IntKey? ==> Text.I64_MIN <= key.n <= Text.I64_MAX
  }

  lemma {:induction false} CompareIsKeyLess(a: SortKey, b: SortKey)
    requires a.TextKey? == b.TextKey? && InRange(a)
    ensures E.Compare(SortText(a), Compiled(b)) ==
            if KeyLess(a, b) then E.Less else if a == b then E.Equal else E.Greater
  {
    hide Text.ParseI64, Text.Dec;
    if a.IntKey? { Text.ParseDec(a.n); }
  }

  lemma {:induction false} SortedReadsAscending(es: seq<Entry>, isText: bool, keys: seq<string>)
    requires SortedStrictly(es) && OneKind(es, isText) && |keys| == |es|
    requires forall i :: 0 <= i < |es| ==> InRange(es[i].key) && keys[i] == SortText(es[i].key)
    ensures M.Ascending(keys, isText)
  {
    hide Text.ParseI64, Text.Dec;
    if !isText {
      forall i | 0 <= i < |keys| ensures Text.ParseI64(keys[i]) == Some(es[i].key.n) { Text.ParseDec(es[i].key.n); }
    }
  }

  /** Bisecting the keys of sorted entries finds an entry by its key, and nothing else. */
  lemma {:induction false} BisectByKey(es: seq<Entry>, isText: bool, keys: seq<string>, key: SortKey)
    requires SortedStrictly(es) && OneKind(es, isText) && |keys| == |es| && key.TextKey? == isText
    requires forall i :: 0 <= i < |es| ==> InRange(es[i].key) && keys[i] == SortText(es[i].key)
    ensures forall i :: 0 <= i < |es| && es[i].key == key ==> E.Bisect(keys, Compiled(key), 0, |keys|) == Some(i)
    ensures (forall i :: 0 <= i < |es| ==> es[i].key != key) ==> E.Bisect(keys, Compiled(key), 0, |keys|) == None
  {
    hide E.Bisect, E.Compare, KeyLess, SortText, InRange, M.Ascending;
    SortedReadsAscending(es, isText, keys);
    M.AscendingIsOrdered(keys, Compiled(key));
    M.BisectFinds(keys, Compiled(key), 0, |keys|);
    forall i | 0 <= i < |es| ensures E.Compare(keys[i], Compiled(key)) == E.Equal <==> es[i].key == key {
      CompareIsKeyLess(es[i].key, key);
      IrreflexiveKey(key);
    }
  }

  lemma {:induction false} IrreflexiveKey(a: SortKey)
    ensures !KeyLess(a, a)
  {
    if a.TextKey? { Text.LessTrichotomy(a.text, a.text); }
  }

  // The entries of an object.

  lemma {:induction false} EntryFacts(m: map<string, J.Value>, k: string, kf: Field)
    requires k in m && SupportedKey(kf) && OneEntry(m, k, kf).Ok?
    ensures var e := OneEntry(m, k, kf).value;
            && KeyOf(kf, k).Ok? && e.key == KeyOf(kf, k).value.0 && e.key.TextKey? == kf.typ.String? && InRange(e.key)
            && e.row.Obj? && J.Present(e.row.m, kf.name) == Some(KeyOf(kf, k).value.1)
            && KeyOf(kf, k).value.1 == if e.key.TextKey? then J.Str(e.key.text) else J.Num(J.Int(e.key.n))
  {
    hide J.Height;
  }

  /** Sorted entries are the object's entries, in strictly ascending key order. */
  lemma {:induction false} EntriesOfObject(x: J.Value, kf: Field)
    requires x.Obj? && SupportedKey(kf) && DistinctKeys(x.m, kf) && SortedEntries(x, kf).Ok?
    ensures var es := SortedEntries(x, kf).value;
            && SortedStrictly(es) && OneKind(es, kf.typ.String?)
            && (forall e :: e in es ==> exists k :: k in x.m && OneEntry(x.m, k, kf) == Ok(e))
            && (forall k :: k in x.m ==> OneEntry(x.m, k, kf).Ok? && OneEntry(x.m, k, kf).value in es)
  {
    hide OneEntry, KeyOf, SortEntries, Text.SortedKeys, SupportedKey, J.Height, SortedStrictly;
    var keys := Text.SortedKeys(x.m.Keys);
    var entries := KeyedEntries(x.m, keys, kf).value;
    forall i | 0 <= i < |entries| ensures keys[i] in x.m && OneEntry(x.m, keys[i], kf) == Ok(entries[i]) {
      assert keys[i] in keys;
    }
    forall i | 0 <= i < |entries| ensures entries[i].key.TextKey? == kf.typ.String? { EntryFacts(x.m, keys[i], kf); }
    forall i, j | 0 <= i < j < |entries| ensures entries[i].key != entries[j].key {
      EntryFacts(x.m, keys[i], kf);
      EntryFacts(x.m, keys[j], kf);
      Text.LessTrichotomy(keys[i], keys[j]);
    }
    SortIsStrict(entries, kf.typ.String?);
    var es := SortEntries(entries);
    SameMembers(es, entries);
    forall i | 0 <= i < |es| ensures es[i].key.TextKey? == kf.typ.String? { assert es[i] in entries; }
    forall k | k in x.m ensures OneEntry(x.m, k, kf).Ok? && OneEntry(x.m, k, kf).value in es {
      var i :| 0 <= i < |keys| && keys[i] == k;
      assert entries[i] in entries;
    }
    forall e | e in es ensures exists k :: k in x.m && OneEntry(x.m, k, kf) == Ok(e) {
      var i :| 0 <= i < |entries| && entries[i] == e;
    }
  }

  // The key a reader sees in a built row.

  lemma {:induction false} IntegerKeyEncodes(kf: Field, n: J.JsonInt)
    requires IsIntegerKey(kf) && n <= Text.I64_MAX
    requires EncodeScalar(kf.typ.st, kf.typ.en, J.Num(J.Int(n))).Ok?
    ensures EncodeScalar(kf.typ.st, kf.typ.en, J.Num(J.Int(n))) == Ok(I(n))
    ensures DefaultScalar(kf.typ.st, kf.defaultInt, kf.defaultReal) == I(Cast(kf.typ.st, kf.defaultInt))
  {
    hide FloatFallback, Cast;
  }

  lemma {:induction false} KeyShown(row: J.Value, key: SortKey, kf: Field, rd: KeyReader)
    requires SupportedKey(kf) && Visible(kf, rd, key) && key.TextKey? == kf.typ.String? && InRange(key) && row.Obj?
    requires J.Present(row.m, kf.name) == Some(if key.TextKey? then J.Str(key.text) else J.Num(J.Int(key.n)))
    requires key.IntKey? ==> EncodeScalar(kf.typ.st, kf.typ.en, J.Num(J.Int(key.n))).Ok?
    ensures DocumentKey(row, kf, rd) == SortText(key)
  {
    hide EncodeScalar, DefaultScalar, Text.Dec, Cast, AbsentText;
    if key.IntKey? { IntegerKeyEncodes(kf, key.n); }
  }

  /** A row that builds holds a key its field's type can store. */
  lemma {:induction false} KeyIsStorable(row: J.Value, n: J.JsonInt, kf: Field, t: nat, s: Schema, depth: nat,
                                         o: Options)
    requires IsIntegerKey(kf) && KeyedField(TableAt(s, t).fields) == Some(kf) && EncTable(row, t, s, depth, o).Ok?
      && row.Obj?
    requires J.Present(row.m, kf.name) == Some(J.Num(J.Int(n)))
    ensures EncodeScalar(kf.typ.st, kf.typ.en, J.Num(J.Int(n))).Ok?
  {
    hide *;
    var k := KeyedFieldIndex(TableAt(s, t).fields);
    FieldsOfTable(row, t, s, depth, o, k);
    KeyIsScalar(kf);
    FieldOfPresent(row, kf, s, depth, o);
    ScalarOfPresent(J.Num(J.Int(n)), kf, s, depth, o);
  }

  lemma {:induction false} KeyIsScalar(kf: Field)
    requires IsIntegerKey(kf)
    ensures kf.typ.Scalar?
  {
  }

  lemma {:induction false} FieldsOfTable(row: J.Value, t: nat, s: Schema, depth: nat, o: Options, k: nat)
    requires EncTable(row, t, s, depth, o).Ok? && row.Obj? && k < |TableAt(s, t).fields|
    ensures EncField(row, TableAt(s, t).fields[k], s, depth, o).Ok?
  {
    hide EncField, WriteSlots, HasUnknownKey;
    PendingOfFields(row, TableAt(s, t).fields, s, depth, o);
  }

  lemma {:induction false} ScalarOfPresent(x: J.Value, f: Field, s: Schema, depth: nat, o: Options)
    requires f.typ.Scalar? && EncPresent(x, f, s, depth, o).Ok?
    ensures EncodeScalar(f.typ.st, f.typ.en, x).Ok?
  {
    hide EncodeScalar;
  }

  lemma {:induction false} BuiltKey(x: J.Value, k: string, kf: Field, t: nat, s: Schema, depth: nat, o: Options,
                                    rd: KeyReader)
    requires GoodSchema(s) && KeyedField(TableAt(s, t).fields) == Some(kf) && SupportedKey(kf)
    requires x.Obj? && k in x.m && KeysOnWire(x.m, kf, rd)
    requires OneEntry(x.m, k, kf).Ok? && EncTable(OneEntry(x.m, k, kf).value.row, t, s, depth, o).Ok?
    ensures var e := OneEntry(x.m, k, kf).value;
            RowKey(EncTable(e.row, t, s, depth, o).value, kf, rd) == SortText(e.key)
  {
    hide *;
    var e := OneEntry(x.m, k, kf).value;
    EntryFacts(x.m, k, kf);
    KeyAgrees(e.row, kf, t, s, depth, o, rd);
    VisibleKey(x.m, k, kf, rd);
    if e.key.IntKey? {
      IntKeyIsInteger(kf, e.key);
      KeyIsStorable(e.row, e.key.n, kf, t, s, depth, o);
    }
    KeyShown(e.row, e.key, kf, rd);
  }

  lemma {:induction false} IntKeyIsInteger(kf: Field, key: SortKey)
    requires SupportedKey(kf) && key.IntKey? && key.TextKey? == kf.typ.String? && InRange(key)
    ensures IsIntegerKey(kf) && Text.I64_MIN <= key.n <= Text.I64_MAX
  {
  }

  lemma {:induction false} VisibleKey(m: map<string, J.Value>, k: string, kf: Field, rd: KeyReader)
    requires k in m && SupportedKey(kf) && KeysOnWire(m, kf, rd) && KeyOf(kf, k).Ok?
    ensures Visible(kf, rd, KeyOf(kf, k).value.0)
  {
    hide KeyOf, Cast, AbsentText;
  }

  // Across the buffer.

  /** The element slots of the vector node `j`, which unfolds to the built vector `w`. */
  lemma {:induction false} VectorInHeap(h: Heap, j: nat, w: Val)
    requires w.VectorVal? && Unfold(h, j) == w
    ensures j < |h| && h[j].VectorNode? && |h[j].items| == |w.items|
    ensures forall i :: 0 <= i < |w.items| ==> UnfoldSlot(h, h[j].items[i], j) == w.items[i]
  {
  }

  /** Both readers see the same key: one through the heap, the other in the tree. */
  lemma {:induction false} KeyThroughHeap(h: Heap, item: Slot, below: nat, kf: Field, rd: KeyReader)
    requires Backward(h) && below <= |h| && UnfoldSlot(h, item, below).TableVal?
    ensures E.ElementKey(h, SlotsAt(h, item), kf, rd) == RowKey(UnfoldSlot(h, item, below), kf, rd)
  {
    hide AbsentText, ScalarText;
    assert item.Ref? && item.node < below && NodeBackward(h[item.node], item.node);
    var slots := SlotsAt(h, item);
    var v := UnfoldSlot(h, item, below);
    assert v == Unfold(h, item.node);
    assert Slots(v).Keys == slots.Keys;
    if kf.offset in slots { assert Slots(v)[kf.offset] == UnfoldSlot(h, slots[kf.offset], item.node); }
  }

  lemma {:induction false} TablesAt(rows: seq<J.Value>, t: nat, s: Schema, depth: nat, o: Options, bound: nat, i: nat)
    requires forall i :: 0 <= i < |rows| ==> J.Height(rows[i]) < bound
    requires EncTables(rows, t, s, depth, o, bound).Ok? && i < |rows|
    ensures EncTable(rows[i], t, s, depth, o) == Ok(EncTables(rows, t, s, depth, o, bound).value[i])
  {
    hide EncTable, J.Height;
    if i < |rows| - 1 {
      TablesAt(rows[..|rows| - 1], t, s, depth, o, bound, i);
    }
  }

  /** The vector that an object builds: one table per entry, in entry order. */
  lemma {:induction false} KeyedParts(x: J.Value, t: nat, kf: Field, hex: bool, s: Schema, depth: nat, o: Options)
    requires x.Obj? && KeyedField(TableAt(s, t).fields) == Some(kf) && EncVector(x, ETable(t), hex, s, depth, o).Ok?
    ensures SortedEntries(x, kf).Ok?
    ensures var es := SortedEntries(x, kf).value; var w := EncVector(x, ETable(t), hex, s, depth, o).value;
            && w.VectorVal? && |w.items| == |es|
            && forall i :: 0 <= i < |es| ==> EncTable(es[i].row, t, s, depth + 2, o) == Ok(w.items[i])
  {
    hide EncTable, EncTables, SortedEntries, KeyedField, TableAt, J.Height;
    var es := SortedEntries(x, kf).value;
    assert forall i :: 0 <= i < |es| ==> es[i] in es;
    forall i | 0 <= i < |es|
      ensures EncTable(es[i].row, t, s, depth + 2, o) == Ok(EncVector(x, ETable(t), hex, s, depth, o).value.items[i])
    {
      TablesAt(Rows(es), t, s, depth + 2, o, J.Height(x), i);
    }
  }

  /** The keys a reader of the buffer sees are the entries' keys. */
  lemma {:induction false} KeysOfBuilt(h: Heap, j: nat, x: J.Value, t: nat, kf: Field, hex: bool, s: Schema,
                                       depth: nat, o: Options, rd: KeyReader)
    requires GoodSchema(s) && Backward(h) && x.Obj? && SupportedKey(kf) && KeyedField(TableAt(s, t).fields) == Some(kf)
    requires EncVector(x, ETable(t), hex, s, depth, o).Ok?
      && Unfold(h, j) == EncVector(x, ETable(t), hex, s, depth, o).value
    requires DistinctKeys(x.m, kf) && KeysOnWire(x.m, kf, rd)
    ensures j < |h| && h[j].VectorNode? && SortedEntries(x, kf).Ok?
    ensures var es := SortedEntries(x, kf).value; var keys := E.Keys(h, h[j].items, kf, rd);
            |keys| == |es| && forall i :: 0 <= i < |es| ==> InRange(es[i].key) && keys[i] == SortText(es[i].key)
  {
    hide EncTable, EncVector, SortedEntries, KeyedField, TableAt, J.Height, GoodSchema, Backward, RowKey, SortText,
      InRange, OneEntry, Unfold,
         UnfoldSlot, SortedStrictly, OneKind, DistinctKeys, KeysOnWire, SupportedKey, E.ElementKey, SlotsAt;
    KeyedParts(x, t, kf, hex, s, depth, o);
    var es := SortedEntries(x, kf).value;
    var w := EncVector(x, ETable(t), hex, s, depth, o).value;
    VectorInHeap(h, j, w);
    EntriesOfObject(x, kf);
    forall i | 0 <= i < |es| ensures InRange(es[i].key) && E.Keys(h, h[j].items, kf, rd)[i] == SortText(es[i].key) {
      assert es[i] in es;
      var k :| k in x.m && OneEntry(x.m, k, kf) == Ok(es[i]);
      EntryFacts(x.m, k, kf);
      BuiltKey(x, k, kf, t, s, depth + 2, o, rd);
      TableParts(es[i].row, t, s, depth + 2, o);
      KeyThroughHeap(h, h[j].items[i], j, kf, rd);
    }
  }

  /** What a lookup of literal `k` must return: the rest of the path on the row whose key `k` denotes. */
  ghost predicate FindsRow(h: Heap, j: nat, x: J.Value, k: string, kf: Field, t: nat, s: Schema, depth: nat, o: Options,
                           tail: seq<Q.Step>, eo: E.ExecOptions, found: E.Leaves)
    requires x.Obj? && k in x.m && tail != []
  {
    exists elem: Slot ::
      && OneEntry(x.m, k, kf).Ok? && EncTable(OneEntry(x.m, k, kf).value.row, t, s, depth, o) ==
        Ok(UnfoldSlot(h, elem, j))
      && found == E.WalkTable(h, SlotsAt(h, elem), t, s, tail, eo)
  }

  /**
   Sugar then lookup. In any buffer that holds the vector built from a JSON object, strict lookup of a
   literal continues in the row of the object key that it denotes; a literal no key denotes yields NULL.
   */
  lemma {:induction false} SugarThenLookup(h: Heap, slots: map<nat, Slot>, f: Field, j: nat, x: J.Value, t: nat,
                                           kf: Field, s: Schema, depth: nat, o: Options,
                        k: string, tail: seq<Q.Step>, eo: E.ExecOptions)
    requires GoodSchema(s) && Backward(h) && x.Obj? && SupportedKey(kf)
      && E.LookupKeyedField(TableAt(s, t).fields) == Ok(kf)
    requires EncVector(x, ETable(t), f.hex, s, depth, o).Ok?
      && Unfold(h, j) == EncVector(x, ETable(t), f.hex, s, depth, o).value
    requires f.offset in slots && slots[f.offset] == Ref(j)
    requires DistinctKeys(x.m, kf) && KeysOnWire(x.m, kf, eo.reader)
    requires tail != [] && eo.strictKeys
    ensures var found := E.WalkMapKey(h, slots, f, ETable(t), s, Q.KeyText(k), tail, eo);
            && (forall k' :: k' in x.m && Denotes(kf, k, k') ==>
              FindsRow(h, j, x, k', kf, t, s, depth + 2, o, tail, eo, found))
            && ((forall k' :: k' in x.m ==> !Denotes(kf, k, k')) ==> found == Ok([None]))
  {
    hide *;
    KeyedOf(s, t, kf);
    KeysOfBuilt(h, j, x, t, kf, f.hex, s, depth, o, eo.reader);
    KeyedParts(x, t, kf, f.hex, s, depth, o);
    VectorInHeap(h, j, EncVector(x, ETable(t), f.hex, s, depth, o).value);
    EntriesOfObject(x, kf);
    var es := SortedEntries(x, kf).value;
    var keys := E.Keys(h, h[j].items, kf, eo.reader);
    var found := E.WalkMapKey(h, slots, f, ETable(t), s, Q.KeyText(k), tail, eo);
    LookupOfKeys(h, slots, f, j, t, kf, s, k, tail, eo);
    IndexOfLiteral(es, kf, keys, k);
    NothingFound(h, h[j].items, t, s, tail, eo);
    forall k' | k' in x.m && Denotes(kf, k, k') ensures FindsRow(h, j, x, k', kf, t, s, depth + 2, o, tail, eo, found) {
      var e := OneEntry(x.m, k', kf).value;
      EntryFacts(x.m, k', kf);
      var i :| 0 <= i < |es| && es[i] == e;
      DenotedKey(kf, k, k');
      RowFound(h, j, x, k', kf, t, s, depth + 2, o, tail, eo, found, h[j].items[i]);
    }
    if forall k' :: k' in x.m ==> !Denotes(kf, k, k') {
      forall i | 0 <= i < |es| ensures KeyOf(kf, k).Ok? ==> es[i].key != KeyOf(kf, k).value.0 {
        assert es[i] in es;
        var k' :| k' in x.m && OneEntry(x.m, k', kf) == Ok(es[i]);
        EntryFacts(x.m, k', kf);
        NotDenotedKey(kf, k, k');
      }
    }
  }

  /** Literal and object key decode to the same key. */
  predicate Denotes(kf: Field, k: string, k': string) {
    KeyOf(kf, k).Ok? && KeyOf(kf, k').Ok? && KeyOf(kf, k).value.0 == KeyOf(kf, k').value.0
  }

  lemma {:induction false} DenotedKey(kf: Field, k: string, k': string)
    requires Denotes(kf, k, k')
    ensures KeyOf(kf, k).Ok? && KeyOf(kf, k').Ok? && KeyOf(kf, k).value.0 == KeyOf(kf, k').value.0
  {
  }

  lemma {:induction false} NotDenotedKey(kf: Field, k: string, k': string)
    requires !Denotes(kf, k, k') && KeyOf(kf, k').Ok?
    ensures KeyOf(kf, k).Ok? ==> KeyOf(kf, k).value.0 != KeyOf(kf, k').value.0
  {
  }

  lemma {:induction false} KeyedOf(s: Schema, t: nat, kf: Field)
    requires E.LookupKeyedField(TableAt(s, t).fields) == Ok(kf)
    ensures KeyedField(TableAt(s, t).fields) == Some(kf)
  {
  }

  lemma {:induction false} RowFound(h: Heap, j: nat, x: J.Value, k: string, kf: Field, t: nat, s: Schema, depth: nat,
                                    o: Options,
                 tail: seq<Q.Step>, eo: E.ExecOptions, found: E.Leaves, elem: Slot)
    requires x.Obj? && k in x.m && tail != []
    requires OneEntry(x.m, k, kf).Ok? && EncTable(OneEntry(x.m, k, kf).value.row, t, s, depth, o) ==
      Ok(UnfoldSlot(h, elem, j))
    requires found == E.WalkTable(h, SlotsAt(h, elem), t, s, tail, eo)
    ensures FindsRow(h, j, x, k, kf, t, s, depth, o, tail, eo, found)
  {
    hide E.WalkTable, EncTable, OneEntry, SlotsAt;
  }

  function AtFound(h: Heap, items: seq<Slot>, found: Result<Option<nat>, E.ExecError>, t: nat, s: Schema,
                   tail: seq<Q.Step>, eo: E.ExecOptions): E.Leaves
    requires found.Ok? && found.value.Some? ==> found.value.value < |items|
    requires tail != []
  {
    if found.Err? then Err(found.error)
    else if found.value.None? then Ok([None])
    else E.WalkTable(h, SlotsAt(h, items[found.value.value]), t, s, tail, eo)
  }

  lemma {:induction false} NothingFound(h: Heap, items: seq<Slot>, t: nat, s: Schema, tail: seq<Q.Step>,
                                        eo: E.ExecOptions)
    requires tail != []
    ensures AtFound(h, items, Ok(None), t, s, tail, eo) == Ok([None])
    ensures forall i: nat :: i < |items| ==>
      AtFound(h, items, Ok(Some(i)), t, s, tail, eo) == E.WalkTable(h, SlotsAt(h, items[i]), t, s, tail, eo)
  {
    hide E.WalkTable, SlotsAt;
  }

  /** The lookup in terms of the keys it bisects. */
  lemma {:induction false} LookupOfKeys(h: Heap, slots: map<nat, Slot>, f: Field, j: nat, t: nat, kf: Field, s: Schema,
                                        k: string, tail: seq<Q.Step>, eo: E.ExecOptions)
    requires E.LookupKeyedField(TableAt(s, t).fields) == Ok(kf) && tail != [] && eo.strictKeys
    requires f.offset in slots && slots[f.offset] == Ref(j) && j < |h| && h[j].VectorNode?
    ensures E.WalkMapKey(h, slots, f, ETable(t), s, Q.KeyText(k), tail, eo) ==
            AtFound(h, h[j].items, E.StrictIndex(E.Keys(h, h[j].items, kf, eo.reader), kf, Q.KeyText(k)), t, s, tail,
              eo)
  {
    hide E.Keys, E.StrictIndex, E.WalkTable, SlotsAt, TableAt, E.LookupKeyedField;
  }

  lemma {:induction false} IndexOfLiteral(es: seq<Entry>, kf: Field, keys: seq<string>, k: string)
    requires SupportedKey(kf) && SortedStrictly(es) && OneKind(es, kf.typ.String?) && |keys| == |es|
    requires forall i :: 0 <= i < |es| ==> InRange(es[i].key) && keys[i] == SortText(es[i].key)
    ensures KeyOf(kf, k).Ok? ==>
              forall i :: 0 <= i < |es| && es[i].key == KeyOf(kf, k).value.0 ==>
                E.StrictIndex(keys, kf, Q.KeyText(k)) == Ok(Some(i))
    ensures (KeyOf(kf, k).Ok? ==> forall i :: 0 <= i < |es| ==> es[i].key != KeyOf(kf, k).value.0) ==>
              E.StrictIndex(keys, kf, Q.KeyText(k)) == Ok(None)
  {
    hide E.Bisect, E.CompileKey, KeyLess, SortText, InRange, OneKind, SortedStrictly, Compiled, KeyOf;
    CompileIsKeyOf(kf, k);
    if KeyOf(kf, k).Ok? {
      KindOfKey(kf, k);
      BisectByKey(es, kf.typ.String?, keys, KeyOf(kf, k).value.0);
    }
  }

  lemma {:induction false} KindOfKey(kf: Field, k: string)
    requires SupportedKey(kf) && KeyOf(kf, k).Ok?
    ensures KeyOf(kf, k).value.0.TextKey? == kf.typ.String?
  {
  }

  /** `|keys` on such a vector lists the decoded object keys in strictly ascending order. */
  lemma {:induction false} KeysAreListed(h: Heap, slots: map<nat, Slot>, f: Field, j: nat, x: J.Value, t: nat,
                                         kf: Field, s: Schema, depth: nat, o: Options, eo: E.ExecOptions)
    requires GoodSchema(s) && Backward(h) && x.Obj? && SupportedKey(kf)
      && E.LookupKeyedField(TableAt(s, t).fields) == Ok(kf)
    requires EncVector(x, ETable(t), f.hex, s, depth, o).Ok?
      && Unfold(h, j) == EncVector(x, ETable(t), f.hex, s, depth, o).value
    requires f.offset in slots && slots[f.offset] == Ref(j)
    requires DistinctKeys(x.m, kf) && KeysOnWire(x.m, kf, eo.reader)
    ensures SortedEntries(x, kf).Ok? && SortedStrictly(SortedEntries(x, kf).value)
    ensures E.WalkMapKeys(h, slots, f, ETable(t), s, [], eo) == Ok(KeyLeaves(SortedEntries(x, kf).value))
    ensures forall k :: k in x.m ==>
      KeyOf(kf, k).Ok? && Some(E.Plain(SortText(KeyOf(kf, k).value.0))) in KeyLeaves(SortedEntries(x, kf).value)
  {
    hide *;
    KeyedOf(s, t, kf);
    KeysOfBuilt(h, j, x, t, kf, f.hex, s, depth, o, eo.reader);
    EntriesOfObject(x, kf);
    var es := SortedEntries(x, kf).value;
    LeavesOfKeys(h, slots, f, j, t, kf, s, eo, es);
    forall k | k in x.m ensures KeyOf(kf, k).Ok? && Some(E.Plain(SortText(KeyOf(kf, k).value.0))) in KeyLeaves(es) {
      EntryFacts(x.m, k, kf);
      LeafOfEntry(es, OneEntry(x.m, k, kf).value);
    }
  }

  function KeyLeaves(es: seq<Entry>): (leaves: seq<Option<E.Leaf>>)
    ensures |leaves| == |es| && forall i :: 0 <= i < |es| ==> leaves[i] == Some(E.Plain(SortText(es[i].key)))
  {
    seq(|es|, i requires 0 <= i < |es| => Some(E.Plain(SortText(es[i].key))))
  }

  lemma {:induction false} LeafOfEntry(es: seq<Entry>, e: Entry)
    requires e in es
    ensures Some(E.Plain(SortText(e.key))) in KeyLeaves(es)
  {
    var i :| 0 <= i < |es| && es[i] == e;
    assert KeyLeaves(es)[i] == Some(E.Plain(SortText(e.key)));
  }

  lemma {:induction false} LeavesOfKeys(h: Heap, slots: map<nat, Slot>, f: Field, j: nat, t: nat, kf: Field, s: Schema,
                                        eo: E.ExecOptions, es: seq<Entry>)
    requires E.LookupKeyedField(TableAt(s, t).fields) == Ok(kf)
    requires f.offset in slots && slots[f.offset] == Ref(j) && j < |h| && h[j].VectorNode?
    requires var keys := E.Keys(h, h[j].items, kf, eo.reader);
      |keys| == |es| && forall i :: 0 <= i < |es| ==> keys[i] == SortText(es[i].key)
    ensures E.WalkMapKeys(h, slots, f, ETable(t), s, [], eo) == Ok(KeyLeaves(es))
  {
    hide E.Keys, SortText, TableAt, E.LookupKeyedField;
    var keys := E.Keys(h, h[j].items, kf, eo.reader);
    assert seq(|keys|, i requires 0 <= i < |keys| => Some(E.Plain(keys[i]))) == KeyLeaves(es);
  }
}
