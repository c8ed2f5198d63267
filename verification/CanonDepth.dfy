/**
 The object form of a keyed vector is one level deeper than the array form.

 `to_json` always writes the object form, so a document that just fits the depth limit may not fit it after
 a round trip. `Reencode` says of every document whether it comes back.
 */
module CanonDepth {
  import opened Wrappers
  import opened Schema
  import opened KeyText
  import opened FromJson
  import opened Canon
  import opened DepthLimit
  import J = Json
  import Text

  /** The row says its own key `k`, as every canonical row does. */
  predicate SaysKey(row: J.Value, k: string, kf: Field) {
    row.Obj? && KeyOf(kf, k).Ok? && J.Present(row.m, kf.name) == Some(KeyOf(kf, k).value.1)
  }

  lemma {:induction false} OneRowEntries(row: J.Value, k: string, kf: Field)
    requires SaysKey(row, k, kf)
    ensures SortedEntries(J.Obj(map[k := row]), kf).Ok?
    ensures Rows(SortedEntries(J.Obj(map[k := row]), kf).value) == [row]
  {
    hide KeyOf, J.Height;
    var m := map[k := row];
    var keys := Text.SortedKeys(m.Keys);
    OnlyKey(k, keys);
    var e := OneEntry(m, k, kf).value;
    OneKeyed(m, k, kf);
    OneSorted(e);
    assert Rows([e]) == [row];
  }

  lemma {:induction false} OneKeyed(m: map<string, J.Value>, k: string, kf: Field)
    requires k in m && OneEntry(m, k, kf).Ok?
    ensures KeyedEntries(m, [k], kf) == Ok([OneEntry(m, k, kf).value])
  {
    hide OneEntry;
    assert [k][..0] == [] && [k][|[k]| - 1] == k;
    assert KeyedEntries(m, [], kf) == Ok([]);
    assert [] + [OneEntry(m, k, kf).value] == [OneEntry(m, k, kf).value];
  }

  lemma {:induction false} OneSorted(e: Entry)
    ensures SortEntries([e]) == [e]
  {
    assert [e][..0] == [] && [e][|[e]| - 1] == e;
    assert SortEntries([]) == [] && InsertEntry(e, []) == [e];
  }

  lemma {:induction false} OnlyKey(k: string, keys: seq<string>)
    requires Text.StrictlySorted(keys) && forall x :: x in keys <==> x == k
    ensures keys == [k]
  {
    assert k in keys;
    if |keys| > 1 {
      assert keys[0] in keys && keys[1] in keys;
      Text.LessTrichotomy(k, k);
    }
  }

  /** One row costs its table's levels plus one in an array, plus two in an object. */
  lemma {:induction false} ObjectFormIsDeeper(row: J.Value, k: string, kf: Field, t: nat, s: Schema)
    requires SaysKey(row, k, kf) && KeyedField(TableAt(s, t).fields) == Some(kf)
    ensures VectorCost(J.Arr([row]), ETable(t), s) == 1 + TableCost(row, t, s)
    ensures VectorCost(J.Obj(map[k := row]), ETable(t), s) == 2 + TableCost(row, t, s)
  {
    hide TableCost, SortedEntries, KeyedField, TableAt, J.Height, SaysKey;
    OneRowEntries(row, k, kf);
    ItemHeights(J.Arr([row]));
    assert J.Arr([row]).items[0] == row;
    RowsCostOne(row, t, s, J.Height(J.Arr([row])));
    var x := J.Obj(map[k := row]);
    var es := SortedEntries(x, kf).value;
    assert forall i :: 0 <= i < |es| ==> es[i] in es;
    RowBelow(x, es, row);
    RowsCostOne(row, t, s, J.Height(x));
  }

  lemma {:induction false} RowBelow(x: J.Value, es: seq<Entry>, row: J.Value)
    requires (forall e :: e in es ==> J.Height(e.row) < J.Height(x)) && Rows(es) == [row]
    ensures J.Height(row) < J.Height(x)
  {
    hide J.Height;
    assert Rows(es)[0] == row && es[0] in es;
  }

  lemma {:induction false} RowsCostOne(row: J.Value, t: nat, s: Schema, bound: nat)
    requires J.Height(row) < bound
    ensures RowsCost([row], t, s, bound) == 1 + TableCost(row, t, s)
  {
    hide TableCost, J.Height;
    assert [row][..0] == [];
  }

  /** What `to_json` makes of an array of one canonical row. */
  lemma {:induction false} OneRowConverts(row: J.Value, k: string, kf: Field, t: nat, hex: bool, s: Schema,
                                          rd: KeyReader)
    requires KeyedField(TableAt(s, t).fields) == Some(kf) && CanonTable(row, t, s, rd) == Ok(row)
      && DocumentKey(row, kf, rd) == k
    ensures CanonVector(J.Arr([row]), ETable(t), hex, s, rd) == Ok(J.Obj(map[k := row]))
  {
    hide CanonTable, DocumentKey, TableAt, KeyedField, J.Height;
    var x := J.Arr([row]);
    ItemHeights(x);
    assert x.items[0] == row;
    assert [row][..0] == [] && CanonRows([], kf, t, s, rd, J.Height(x)) == Ok(map[]);
    assert CanonRows([row], kf, t, s, rd, J.Height(x)) == Ok(map[k := row]);
  }

  /** At exactly the limit an array of one canonical row builds, and the object it comes back as does not. */
  lemma {:induction false} ReencodingCanFail(row: J.Value, k: string, kf: Field, t: nat, hex: bool, s: Schema,
                                             rd: KeyReader, depth: nat, o: Options)
    requires SaysKey(row, k, kf) && KeyedField(TableAt(s, t).fields) == Some(kf)
    requires CanonTable(row, t, s, rd) == Ok(row) && DocumentKey(row, kf, rd) == k
    requires EncTable(row, t, s, depth + 1, o).Ok? && o.maxDepth == depth + 1 + TableCost(row, t, s)
    ensures EncVector(J.Arr([row]), ETable(t), hex, s, depth, o).Ok?
    ensures CanonVector(J.Arr([row]), ETable(t), hex, s, rd) == Ok(J.Obj(map[k := row]))
    ensures EncVector(J.Obj(map[k := row]), ETable(t), hex, s, depth, o).Err?
  {
    hide EncVector, TableCost, EncTable, VectorCost, SaysKey, KeyedField, TableAt, CanonTable, CanonVector, DocumentKey;
    ObjectFormIsDeeper(row, k, kf, t, s);
    VectorDepth(J.Obj(map[k := row]), ETable(t), hex, s, depth, o, o);
    ArrayOfOne(row, t, hex, s, depth, o);
    OneRowConverts(row, k, kf, t, hex, s, rd);
  }

  lemma {:induction false} ArrayOfOne(row: J.Value, t: nat, hex: bool, s: Schema, depth: nat, o: Options)
    requires EncTable(row, t, s, depth + 1, o).Ok? && depth <= o.maxDepth
    ensures EncVector(J.Arr([row]), ETable(t), hex, s, depth, o).Ok?
  {
    hide EncTable, EncTables, J.Height;
    var x := J.Arr([row]);
    ItemHeights(x);
    assert x.items[0] == row;
    TablesOfOne(row, t, s, depth + 1, o, J.Height(x));
  }

  lemma {:induction false} TablesOfOne(row: J.Value, t: nat, s: Schema, depth: nat, o: Options, bound: nat)
    requires J.Height(row) < bound && EncTable(row, t, s, depth, o).Ok?
    ensures EncTables([row], t, s, depth, o, bound).Ok?
  {
    hide EncTable, J.Height;
    assert [row][..0] == [] && [row][|[row]| - 1] == row;
    assert EncTables([], t, s, depth, o, bound) == Ok([]);
  }
}
