/** Documents and vectors whose `to_json` output `from_json` refuses. */
module ReencodeCases {
  import opened Wrappers
  import opened Schema
  import opened Scalars
  import opened KeyText
  import opened FromJson
  import opened ToJson
  import opened WritePhase
  import opened Canon
  import opened Idempotence
  import opened RowKeys
  import opened Reencode
  import CD = CanonDepth
  import F = ReadFaults
  import R = RoundTrip
  import RT = ReencodeTables
  import SL = SugarLookup
  import J = Json
  import Text

  // Vectors.

  /**
   The canonical form of a vector with rows is refused under any options if the key's type has no text that
   is read back.
   */
  lemma {:induction false} UnsupportedKeyIsRefused(x: J.Value, t: nat, kf: Field, hex: bool, s: Schema, d0: nat,
                                                   o0: Options, rd: KeyReader, j: J.Value, d: nat,
                                                   o: Options)
    requires ReturnSchema(s) && KeyedField(TableAt(s, t).fields) == Some(kf) && !SL.SupportedKey(kf)
    requires EncVector(x, ETable(t), hex, s, d0, o0).Ok? && CanonVector(x, ETable(t), hex, s, rd) == Ok(j)
    requires (x.Arr? || x.Obj?) && CanonInput(x, kf).Ok? && CanonInput(x, kf).value != []
    ensures EncVector(j, ETable(t), hex, s, d, o).Err?
  {
    hide *;
    var rows := CanonInput(x, kf).value;
    LastIsLast(rows, kf, rd);
    NoKeyReturns(rows[|rows| - 1], kf, rd);
    RefusedRow(x, t, kf, hex, s, d0, o0, rd, j, d, o, |rows| - 1);
  }

  /** So is that of a vector in which the last row under some key has a number that the key's enum names. */
  lemma {:induction false} NamedKeyIsRefused(x: J.Value, t: nat, kf: Field, hex: bool, s: Schema, d0: nat, o0: Options,
                                             rd: KeyReader, j: J.Value, d: nat,
                                             o: Options, i: nat)
    requires ReturnSchema(s) && KeyedField(TableAt(s, t).fields) == Some(kf) && IsIntegerKey(kf) && kf.typ.en.Some?
    requires EncVector(x, ETable(t), hex, s, d0, o0).Ok? && CanonVector(x, ETable(t), hex, s, rd) == Ok(j)
    requires (x.Arr? || x.Obj?) && CanonInput(x, kf).Ok? && i < |CanonInput(x, kf).value|
      && IsLast(CanonInput(x, kf).value, i, kf, rd)
    requires NameOfValue(kf.typ.en.value.values, Shown(kf, KeyNumber(CanonInput(x, kf).value[i], kf))).Some?
    ensures EncVector(j, ETable(t), hex, s, d, o).Err?
  {
    hide *;
    NamedDoesNotReturn(CanonInput(x, kf).value[i], kf, rd);
    RefusedRow(x, t, kf, hex, s, d0, o0, rd, j, d, o, i);
  }

  lemma {:induction false} LastIsLast(rows: seq<J.Value>, kf: Field, rd: KeyReader)
    requires rows != []
    ensures IsLast(rows, |rows| - 1, kf, rd)
  {
  }

  lemma {:induction false} NoKeyReturns(row: J.Value, kf: Field, rd: KeyReader)
    requires !SL.SupportedKey(kf)
    ensures !KeyReturns(row, kf, rd)
  {
  }

  lemma {:induction false} NamedDoesNotReturn(row: J.Value, kf: Field, rd: KeyReader)
    requires IsIntegerKey(kf) && kf.typ.en.Some?
      && NameOfValue(kf.typ.en.value.values, Shown(kf, KeyNumber(row, kf))).Some?
    ensures !KeyReturns(row, kf, rd)
  {
    hide KeyNumber, NameOfValue, Shown;
  }

  /** One listed row whose key does not return refuses the vector. */
  lemma {:induction false} RefusedRow(x: J.Value, t: nat, kf: Field, hex: bool, s: Schema, d0: nat, o0: Options,
                                      rd: KeyReader, j: J.Value, d: nat, o: Options, i: nat)
    requires ReturnSchema(s) && KeyedField(TableAt(s, t).fields) == Some(kf)
    requires EncVector(x, ETable(t), hex, s, d0, o0).Ok? && CanonVector(x, ETable(t), hex, s, rd) == Ok(j)
    requires (x.Arr? || x.Obj?) && CanonInput(x, kf).Ok? && i < |CanonInput(x, kf).value|
    requires IsLast(CanonInput(x, kf).value, i, kf, rd) && !KeyReturns(CanonInput(x, kf).value[i], kf, rd)
    ensures EncVector(j, ETable(t), hex, s, d, o).Err?
  {
    hide *;
    var rows := CanonInput(x, kf).value;
    RT.KeyedReturns(x, t, kf, hex, s, d0, o0, rd, j, d, o);
    RT.KeyedIff(x, t, kf, s, rd, rows, o.maxDepth - d);
    RT.RowIff(rows[i], kf, t, s, rd, o.maxDepth - d);
  }

  // Documents.

  /** `table T { v: [R]; } table R { k: <key>; }`, keyed by `k`. */
  function KeyedSchema(key: FieldType): Schema {
    Schema([TableDef("T", [VectorOf()]), TableDef("R", [KeyField(key)])])
  }

  function VectorOf(): Field {
    Field("v", 0, 4, Vector(ETable(1)), 0, 0, false, false, false)
  }

  function KeyField(key: FieldType): Field {
    Field("k", 0, 4, key, 0, 0, false, true, false)
  }

  function Row(k: J.Value): J.Value {
    J.Obj(map["k" := k])
  }

  /** `{"v": [{"k": k}]}`. */
  function ArrayDoc(k: J.Value): J.Value {
    J.Obj(map["v" := J.Arr([Row(k)])])
  }

  /** `{"v": {"text": {"k": k}}}`. */
  function ObjectDoc(text: string, k: J.Value): J.Value {
    J.Obj(map["v" := J.Obj(map[text := Row(k)])])
  }

  lemma {:induction false} SchemaShape(key: FieldType)
    ensures var s := KeyedSchema(key);
            && TableAt(s, 0).fields == [VectorOf()] && TableAt(s, 1).fields == [KeyField(key)]
            && ById([VectorOf()]) == [VectorOf()] && ById([KeyField(key)]) == [KeyField(key)]
            && KeyedField([KeyField(key)]) == Some(KeyField(key))
  {
    ByIdOfOne(VectorOf());
    ByIdOfOne(KeyField(key));
  }

  lemma {:induction false} ByIdOfOne(f: Field)
    ensures ById([f]) == [f] && [f][1..] == []
  {
    assert [f][..0] == [] && ById([]) == [] && InsertById(f, []) == [f];
  }

  /** A table of one field is accepted if the field is. */
  lemma {:induction false} OneFieldAccepted(c: J.Value, t: nat, s: Schema, f: Field, x: J.Value, d: nat, o: Options)
    requires TableAt(s, t).fields == [f] && !f.typ.Union? && !f.typ.Struct? && c == J.Obj(map[f.name := x]) && !x.Null?
    ensures EncTable(c, t, s, d, o).Ok? <==> d <= o.maxDepth && EncPresent(x, f, s, d, o).Ok?
  {
    hide EncTable, EncPresent, TableAt;
    assert [f][0].name == f.name;
    assert !HasUnknownKey(c.m, [f]);
    assert J.Present(c.m, f.name) == Some(x);
    PlainPushWrites(x, f, s, d, o);
    RT.PresentField(c, f, s, d, o, x);
    RT.TableAccepted(c, t, s, d, o);
  }

  lemma {:induction false} PlainPushWrites(x: J.Value, f: Field, s: Schema, d: nat, o: Options)
    requires !f.typ.Union? && !f.typ.Struct?
    ensures EncPresent(x, f, s, d, o).Ok? ==> RT.Writable(Pending(f.offset, EncPresent(x, f, s, d, o).value))
  {
    hide EncTable, EncVector, EncodeScalar, DefaultScalar;
  }

  lemma {:induction false} ArrayBuilds(k: J.Value, key: FieldType, o: Options)
    requires !key.Union? && !key.Struct? && !k.Null? && EncPresent(k, KeyField(key), KeyedSchema(key), 2, o).Ok?
      && 2 <= o.maxDepth
    ensures JsonToBuf(ArrayDoc(k), 0, KeyedSchema(key), o).Ok?
  {
    hide EncTable, EncPresent, EncVector, EncTables, TableAt, J.Height, KeyField, VectorOf;
    var s := KeyedSchema(key);
    SchemaShape(key);
    FieldNames(key);
    OneFieldAccepted(Row(k), 1, s, KeyField(key), k, 2, o);
    var x := J.Arr([Row(k)]);
    ItemHeights(x);
    assert x.items[0] == Row(k);
    RT.TablesAccepted(x.items, 1, s, 2, o, J.Height(x));
    RT.PlainVector(x, 1, false, s, 1, o);
    VectorPresent(x, s, 0, o);
    OneFieldAccepted(ArrayDoc(k), 0, s, VectorOf(), x, 0, o);
  }

  lemma {:induction false} FieldNames(key: FieldType)
    ensures KeyField(key).name == "k" && KeyField(key).typ == key && VectorOf().name == "v"
      && VectorOf().typ == Vector(ETable(1)) && !VectorOf().hex
  {
  }

  lemma {:induction false} VectorPresent(x: J.Value, s: Schema, d: nat, o: Options)
    ensures EncPresent(x, VectorOf(), s, d, o).Ok? <==> EncVector(x, ETable(1), false, s, d + 1, o).Ok?
  {
    hide EncVector;
  }

  /** The object form is accepted exactly if its one entry and its row are and three levels are left. */
  lemma {:induction false} ObjectBuilds(text: string, k: J.Value, key: FieldType, o: Options)
    ensures JsonToBuf(ObjectDoc(text, k), 0, KeyedSchema(key), o).Ok? <==>
            2 <= o.maxDepth && RT.RowAccepted(map[text := Row(k)], text, KeyField(key), 1, KeyedSchema(key), 3, o)
  {
    hide EncTable, EncPresent, EncVector, EncKeyed, TableAt, KeyField, VectorOf, RT.RowAccepted;
    var s := KeyedSchema(key);
    var c := J.Obj(map[text := Row(k)]);
    SchemaShape(key);
    FieldNames(key);
    OneFieldAccepted(ObjectDoc(text, k), 0, s, VectorOf(), c, 0, o);
    VectorPresent(c, s, 0, o);
    RT.KeyedVector(c, 1, KeyField(key), false, s, 1, o);
    RT.KeyedAccepted(c, 1, KeyField(key), s, 2, o);
    assert text in c.m;
    assert (forall k' :: k' in c.m ==> RT.RowAccepted(c.m, k', KeyField(key), 1, s, 3, o))
      <==> RT.RowAccepted(c.m, text, KeyField(key), 1, s, 3, o);
  }

  /** What `to_json` makes of the array. */
  lemma {:induction false} ArrayConverts(k: J.Value, key: FieldType, text: string, rd: KeyReader)
    requires !key.Union? && !k.Null? && CanonValue(k, KeyField(key), KeyedSchema(key), rd) == Ok(k)
      && DocumentKey(Row(k), KeyField(key), rd) == text
    ensures CanonTable(ArrayDoc(k), 0, KeyedSchema(key), rd) == Ok(ObjectDoc(text, k))
  {
    hide CanonTable, CanonValue, CanonVector, DocumentKey, TableAt, KeyField, VectorOf, J.Height;
    var s := KeyedSchema(key);
    SchemaShape(key);
    FieldNames(key);
    var row := Row(k);
    OneFieldConverts(row, 1, s, KeyField(key), k, k, rd);
    var x := J.Arr([row]);
    CD.OneRowConverts(row, text, KeyField(key), 1, false, s, rd);
    VectorValue(x, s, rd);
    OneFieldConverts(ArrayDoc(k), 0, s, VectorOf(), x, J.Obj(map[text := row]), rd);
  }

  lemma {:induction false} VectorValue(x: J.Value, s: Schema, rd: KeyReader)
    ensures CanonValue(x, VectorOf(), s, rd) == CanonVector(x, ETable(1), false, s, rd)
  {
    hide CanonVector;
  }

  lemma {:induction false} OneFieldConverts(v: J.Value, t: nat, s: Schema, f: Field, x: J.Value, j: J.Value,
                                            rd: KeyReader)
    requires TableAt(s, t).fields == [f] && ById([f]) == [f] && !f.typ.Union? && v == J.Obj(map[f.name := x])
      && !x.Null?
    requires CanonValue(x, f, s, rd) == Ok(j)
    ensures CanonTable(v, t, s, rd) == Ok(J.Obj(map[f.name := j]))
  {
    hide CanonValue, TableAt, ById;
    assert !IsDiscriminator(f, [f]);
    assert J.Present(v.m, f.name) == Some(x);
    assert CanonMember(v, f, [f], map[], s, rd) == Ok(map[f.name := j]);
    assert [f][1..] == [] && CanonMembers(v, [], [f], map[f.name := j], s, rd) == Ok(map[f.name := j]);
    assert CanonMembers(v, [f], [f], map[], s, rd) == Ok(map[f.name := j]);
  }

  /** The document builds, and `to_json` makes `back` of it. */
  predicate TurnsInto(v: J.Value, back: J.Value, s: Schema, o: Options, rd: KeyReader) {
    && JsonToBuf(v, 0, s, o).Ok? && CanonTable(v, 0, s, rd) == Ok(back)
    && ReadTable(JsonToBuf(v, 0, s, o).value, 0, s, rd) == Ok(back)
  }

  lemma {:induction false} Converts(v: J.Value, back: J.Value, s: Schema, o: Options, rd: KeyReader)
    requires GoodSchema(s) && JsonToBuf(v, 0, s, o).Ok? && CanonTable(v, 0, s, rd) == Ok(back)
    ensures TurnsInto(v, back, s, o, rd)
  {
    hide EncTable, ReadTable, CanonTable, GoodSchema;
    R.TableRoundTrip(v, 0, s, 0, o, rd);
  }

  lemma {:induction false} KeyedIsGood(key: FieldType)
    requires key.Scalar? || key.String?
    ensures GoodSchema(KeyedSchema(key))
  {
  }

  /**
   `{"v": [{"k": true}]}` with a bool key comes back as `{"v": {"1": {"k": true}}}`, which is refused under
   any options.
   */
  lemma {:induction false} BoolKey(o: Options, rd: KeyReader, o': Options)
    requires 2 <= o.maxDepth
    ensures var s := KeyedSchema(Scalar(Bool, None)); var back := ObjectDoc("1", J.Bool(true));
            && TurnsInto(ArrayDoc(J.Bool(true)), back, s, o, rd)
            && JsonToBuf(back, 0, s, o').Err?
  {
    hide JsonToBuf, CanonTable, TurnsInto, J.Height;
    var key, k := Scalar(Bool, None), J.Bool(true);
    ArrayBuilds(k, key, o);
    Text.DecBits();
    ArrayConverts(k, key, "1", rd);
    KeyedIsGood(key);
    Converts(ArrayDoc(k), ObjectDoc("1", k), KeyedSchema(key), o, rd);
    ObjectBuilds("1", k, key, o');
  }

  const Colour: EnumDef := EnumDef([EnumVal("Red", 1)])

  /** The same with an `int` key whose enum names 1: the row says `"Red"` and its object key 1. */
  lemma {:induction false} EnumKey(o: Options, rd: KeyReader, o': Options)
    requires 2 <= o.maxDepth
    ensures var s := KeyedSchema(Scalar(Int, Some(Colour))); var back := ObjectDoc("1", J.Str("Red"));
            && TurnsInto(ArrayDoc(J.Str("Red")), back, s, o, rd)
            && JsonToBuf(back, 0, s, o').Err?
  {
    hide JsonToBuf, CanonTable, TurnsInto, J.Height, Text.ParseI64, Text.Dec;
    var key, k := Scalar(Int, Some(Colour)), J.Str("Red");
    ArrayBuilds(k, key, o);
    Text.DecBits();
    ArrayConverts(k, key, "1", rd);
    KeyedIsGood(key);
    Converts(ArrayDoc(k), ObjectDoc("1", k), KeyedSchema(key), o, rd);
    Text.ParseDec(1);
    ObjectBuilds("1", k, key, o');
  }

  /** With a string key the array fits two levels and what it comes back as needs three. */
  lemma {:induction false} DeeperObject(o: Options, rd: KeyReader)
    requires o.maxDepth == 2
    ensures var s := KeyedSchema(String); var back := ObjectDoc("a", J.Str("a"));
            && TurnsInto(ArrayDoc(J.Str("a")), back, s, o, rd)
            && JsonToBuf(back, 0, s, o).Err? && JsonToBuf(back, 0, s, o.(maxDepth := 3)).Ok?
  {
    hide JsonToBuf, CanonTable, TurnsInto, EncTable, J.Height;
    var key, k := String, J.Str("a");
    ArrayBuilds(k, key, o);
    ArrayConverts(k, key, "a", rd);
    KeyedIsGood(key);
    Converts(ArrayDoc(k), ObjectDoc("a", k), KeyedSchema(key), o, rd);
    ObjectBuilds("a", k, key, o);
    ObjectBuilds("a", k, key, o.(maxDepth := 3));
    SchemaShape(key);
    FieldNames(key);
    OneFieldAccepted(Row(k), 1, KeyedSchema(key), KeyField(key), k, 3, o);
    OneFieldAccepted(Row(k), 1, KeyedSchema(key), KeyField(key), k, 3, o.(maxDepth := 3));
  }

  const Lowest: EnumDef := EnumDef([EnumVal("A", -0x8000_0000_0000_0000)])

  /**
   `table T { x: E = A; }` with `enum E: ulong { A = 9223372036854775808 }`, a value that the reflection
   schema holds as -2^63. `{}` comes back as `{"x": "A"}`, which is refused under any options.
   */
  lemma {:induction false} NegativeEnumDefault(o: Options, rd: KeyReader, o': Options)
    ensures var s := F.OneField(Scalar(ULong, Some(Lowest)), -0x8000_0000_0000_0000, 0);
            var back := J.Obj(map["x" := J.Str("A")]);
            TurnsInto(J.Obj(map[]), back, s, o, rd) && JsonToBuf(back, 0, s, o').Err?
  {
    hide JsonToBuf, CanonTable, TurnsInto;
    var typ, least: I64 := Scalar(ULong, Some(Lowest)), -0x8000_0000_0000_0000;
    var s := F.OneField(typ, least, 0);
    var f := Field("x", 0, 4, typ, least, 0, false, false, false);
    F.EmptyBuilds(typ, least, 0, o);
    F.OneFieldTable(typ, least, 0);
    F.OneFieldIsGood(typ, least, 0);
    LowestShown(f);
    DefaultConverts(s, f, J.Str("A"), rd);
    Converts(J.Obj(map[]), J.Obj(map["x" := J.Str("A")]), s, o, rd);
    DefaultDecides(f, J.Str("A"));
    OneFieldAccepted(J.Obj(map["x" := J.Str("A")]), 0, s, f, J.Str("A"), 0, o');
    AcceptedAtRoot(J.Obj(map["x" := J.Str("A")]), s, o');
    EncodesIfPresent(J.Str("A"), f, s, 0, o');
  }

  lemma {:induction false} LowestShown(f: Field)
    requires f.typ == Scalar(ULong, Some(Lowest)) && f.defaultInt == -0x8000_0000_0000_0000
    ensures GoodType(f) && !DefaultReturns(f)
    ensures ScalarJson(f.typ.st, f.typ.en, DefaultScalar(f.typ.st, f.defaultInt, f.defaultReal)) == Ok(J.Str("A"))
  {
  }

  lemma {:induction false} EncodesIfPresent(x: J.Value, f: Field, s: Schema, d: nat, o: Options)
    requires f.typ.Scalar?
    ensures EncPresent(x, f, s, d, o).Ok? ==> EncodeScalar(f.typ.st, f.typ.en, x).Ok?
  {
    hide EncodeScalar, DefaultScalar;
  }

  lemma {:induction false} AcceptedAtRoot(v: J.Value, s: Schema, o: Options)
    requires v.Obj?
    ensures JsonToBuf(v, 0, s, o) == EncTable(v, 0, s, 0, o)
  {
    hide EncTable;
  }

  /** An empty document shows its one field's default. */
  lemma {:induction false} DefaultConverts(s: Schema, f: Field, j: J.Value, rd: KeyReader)
    requires TableAt(s, 0).fields == [f] && ById([f]) == [f] && f.typ.Scalar?
    requires ScalarJson(f.typ.st, f.typ.en, DefaultScalar(f.typ.st, f.defaultInt, f.defaultReal)) == Ok(j)
    ensures CanonTable(J.Obj(map[]), 0, s, rd) == Ok(J.Obj(map[f.name := j]))
  {
    hide ScalarJson, DefaultScalar, TableAt, ById;
    var v := J.Obj(map[]);
    assert !IsDiscriminator(f, [f]);
    assert CanonMember(v, f, [f], map[], s, rd) == Ok(map[f.name := j]);
    assert [f][1..] == [] && CanonMembers(v, [], [f], map[f.name := j], s, rd) == Ok(map[f.name := j]);
    assert CanonMembers(v, [f], [f], map[], s, rd) == Ok(map[f.name := j]);
  }
}
