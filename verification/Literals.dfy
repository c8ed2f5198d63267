/**
 The literals of keyed lookups.

 Which texts a query can carry between brackets, which object keys they reach, and what a query can
 therefore see of the strict lookup's failure on `ulong` keys above the signed range.
 */
module Literals {
  import opened Wrappers
  import opened Schema
  import opened Scalars
  import opened Buffer
  import opened KeyText
  import opened Executor
  import opened MapKeys
  import opened Grammar
  import F = FromJson
  import J = Json
  import P = ParserFacts
  import Q = Query
  import QP = QueryParser
  import SL = SugarLookup
  import Text

  // Which literals can be asked for.

  predicate Carries(s: string, text: string, maxLength: nat, maxDepth: nat) {
    var q := QP.Parse(s, maxLength, maxDepth);
    q.Ok? && Q.MapKey(Q.KeyText(text)) in q.value.steps
  }

  /** Some query text within the bounds carries the literal. */
  ghost predicate Askable(text: string, maxLength: nat, maxDepth: nat) {
    exists s: string :: Carries(s, text, maxLength, maxDepth)
  }

  lemma {:induction false} ConcatAt(tokens: seq<string>, i: nat)
    requires i < |tokens|
    ensures |Concat(tokens)| >= |tokens[i]|
    ensures i > 0 ==> |Concat(tokens)| >= |tokens[0]| + |tokens[i]|
  {
    if i > 0 { ConcatAt(tokens[1..], i - 1); }
  }

  /** A query with a literal has at least a root, a field and the bracket. */
  lemma {:induction false} CarrierIsLong(q: Q.Query, s: string, text: string)
    requires SpellsQuery(q, s) && Q.MapKey(Q.KeyText(text)) in q.steps
    ensures IsKeyText(text) && |text| + 5 <= |s| && |q.steps| >= 2
  {
    hide IsIdent, IsTableName, Numeral, IsKeyText, Concat, SpellsRef;
    var header, path :| s == header + ":" + path && SpellsHeader(q, header) && SpellsPath(q.steps, path);
    var tokens :| SpellsSteps(q.steps, tokens, true) && Concat(tokens) == path;
    var i :| 0 <= i < |q.steps| && q.steps[i] == Q.MapKey(Q.KeyText(text));
    assert SpellsStep(q.steps[0], true, tokens[0]) && SpellsStep(q.steps[i], false, tokens[i]);
    P.RefNonEmpty(q.steps[0].ref, tokens[0]);
    assert |tokens[i]| == |text| + 2;
    ConcatAt(tokens, i);
    P.NonEmptyName(q.root);
  }

  /** `T:a[text]`, the shortest query with the literal. */
  function Shortest(text: string): Q.Query {
    Q.Query(None, "T", [Q.Field(Q.Name("a")), Q.MapKey(Q.KeyText(text))])
  }

  lemma {:induction false} ShortestPrints(text: string)
    requires IsKeyText(text)
    ensures WellFormed(Shortest(text)) && |Print(Shortest(text))| == |text| + 5
  {
    hide IsKeyText;
    var q := Shortest(text);
    var tokens := PrintSteps(q.steps, true);
    var bracket := "[" + text + "]";
    assert "" + "a" == "a" && PrintStep(q.steps[0], true) == "" + "a" && PrintStep(q.steps[1], false) == bracket;
    assert tokens[0] == "a" && tokens[1] == bracket && tokens[1..][1..] == [];
    assert Concat(tokens[1..]) == bracket + Concat(tokens[1..][1..]) == bracket;
    assert Concat(tokens) == "a" + bracket;
  }

  /** A literal can be asked for exactly if it has the shape of a key text and its shortest query fits the bounds. */
  lemma {:induction false} AskableExactly(text: string, maxLength: nat, maxDepth: nat)
    ensures Askable(text, maxLength, maxDepth) <==> IsKeyText(text) && |text| + 5 <= maxLength && 2 <= maxDepth
  {
    hide QP.Parse, SpellsQuery, IsKeyText, Print, WellFormed;
    if Askable(text, maxLength, maxDepth) {
      var s :| Carries(s, text, maxLength, maxDepth);
      var q := QP.Parse(s, maxLength, maxDepth).value;
      P.ParseExactly(s, maxLength, maxDepth, q);
      CarrierIsLong(q, s, text);
    }
    if IsKeyText(text) && |text| + 5 <= maxLength && 2 <= maxDepth {
      ShortestPrints(text);
      P.ParsePrinted(Shortest(text), maxLength, maxDepth);
      assert Shortest(text).steps[1] in Shortest(text).steps;
      assert Carries(Print(Shortest(text)), text, maxLength, maxDepth);
    }
  }

  /** Some literal that a query can carry denotes the object key. */
  ghost predicate Reached(kf: Field, k: string) {
    exists text :: IsKeyText(text) && SL.Denotes(kf, text, k)
  }

  /**
   Every integer key can be reached, with a sign if need be. A string key can be reached exactly if it is
   itself a key text: `"42"`, `"*"`, `""` and keys with `]` or `:` cannot.
   */
  lemma {:induction false} ReachedExactly(kf: Field, k: string)
    requires SL.SupportedKey(kf) && F.KeyOf(kf, k).Ok?
    ensures Reached(kf, k) <==> (kf.typ.String? ==> IsKeyText(k))
  {
    hide IsKeyText, Text.ParseI64, Signed;
    if kf.typ.String? {
      if IsKeyText(k) { assert SL.Denotes(kf, k, k); }
    } else {
      var n := F.KeyOf(kf, k).value.0.n;
      SignedIsLiteral(n);
      InRange(kf, k);
      assert SL.Denotes(kf, Signed(n), k);
    }
  }

  lemma {:induction false} InRange(kf: Field, k: string)
    requires F.KeyOf(kf, k).Ok? && !kf.typ.String?
    ensures F.KeyOf(kf, k).value.0.IntKey? && Text.InI64(F.KeyOf(kf, k).value.0.n) == Some(F.KeyOf(kf, k).value.0.n)
  {
  }

  // A buffer with unsigned keys.

  /** The key slots of the rows hold these numbers. */
  predicate HoldsKeys(h: Heap, items: seq<Slot>, kf: Field, values: seq<nat>) {
    && |items| == |values|
    && forall i :: 0 <= i < |items| ==> HoldsKey(SlotsAt(h, items[i]), kf, values[i])
  }

  predicate HoldsKey(row: map<nat, Slot>, kf: Field, value: nat) {
    kf.offset in row && row[kf.offset] == Direct(I(value))
  }

  lemma {:induction false} KeysOfNumbers(h: Heap, items: seq<Slot>, kf: Field, values: seq<nat>, rd: KeyReader)
    requires HoldsKeys(h, items, kf, values)
    ensures Keys(h, items, kf, rd) == Texts(values)
  {
    hide SlotsAt, Text.Dec;
    forall i | 0 <= i < |items| ensures Keys(h, items, kf, rd)[i] == Texts(values)[i] {
      assert HoldsKey(SlotsAt(h, items[i]), kf, values[i]);
    }
  }

  /** What `[text].key` answers when the lookup settles on `found`. */
  function Answer(values: seq<nat>, found: Option<nat>): Leaves
    requires found.Some? ==> found.value < |values|
  {
    Ok([if found.Some? then Some(Plain(Text.Dec(values[found.value]))) else None])
  }

  lemma {:induction false} KeyLeaf(h: Heap, row: map<nat, Slot>, kf: Field, t: nat, s: Schema, r: Q.FieldRef,
                                   value: nat, o: ExecOptions)
    requires FindField(TableAt(s, t).fields, r) == Some(kf) && kf.typ.Scalar? && kf.typ.st.ULong?
    requires HoldsKey(row, kf, value) && value <= MaxInt(ULong)
    ensures WalkTable(h, row, t, s, [Q.Field(r)], o) == Ok([Some(Plain(Text.Dec(value)))])
  {
    hide Text.Dec, FindField, TableAt;
    assert [Q.Field(r)][1..] == [];
  }

  lemma {:induction false} LookupAnswers(h: Heap, slots: map<nat, Slot>, f: Field, t: nat, s: Schema, kf: Field,
                                         items: seq<Slot>, values: seq<nat>,
                                         r: Q.FieldRef, text: string, o: ExecOptions)
    requires LookupKeyedField(TableAt(s, t).fields) == Ok(kf) && FindField(TableAt(s, t).fields, r) == Some(kf)
    requires kf.typ.Scalar? && kf.typ.st.ULong? && (forall i :: 0 <= i < |values| ==> values[i] <= MaxInt(ULong))
    requires VectorAtSlot(h, slots, f.offset) == Some(items) && HoldsKeys(h, items, kf, values)
    ensures var found := KeyIndex(Texts(values), kf, Q.KeyText(text), o);
            found.Ok? && WalkMapKey(h, slots, f, ETable(t), s, Q.KeyText(text), [Q.Field(r)], o) ==
              Answer(values, found.value)
  {
    hide WalkTable, SlotsAt, TableAt, FindField, LookupKeyedField, VectorAtSlot, Bisect, Text.Dec, Text.ParseI64, Keys;
    KeysOfNumbers(h, items, kf, values, o.reader);
    ScanFindsFirst(Texts(values), kf, Q.KeyText(text), 0);
    match KeyIndex(Texts(values), kf, Q.KeyText(text), o) {
      case Ok(Some(i)) =>
        assert HoldsKey(SlotsAt(h, items[i]), kf, values[i]);
        KeyLeaf(h, SlotsAt(h, items[i]), kf, t, s, r, values[i], o);
      case _ =>
    }
  }

  lemma {:induction false} AnswersDiffer(values: seq<nat>, a: Option<nat>, b: Option<nat>)
    requires AscendingNumbers(values) && (a.Some? ==> a.value < |values|) && (b.Some? ==> b.value < |values|)
    ensures Answer(values, a) == Answer(values, b) ==> a == b
  {
    hide Text.Dec;
    if a.Some? && b.Some? && Answer(values, a) == Answer(values, b) {
      assert Answer(values, a).value[0] == Answer(values, b).value[0];
      Text.DecInjective(values[a.value], values[b.value]);
    }
    if a.Some? != b.Some? { assert Answer(values, a).value[0] != Answer(values, b).value[0]; }
  }

  /** The two modes answer `[text].key` alike. */
  predicate SameAnswer(h: Heap, slots: map<nat, Slot>, f: Field, t: nat, s: Schema, r: Q.FieldRef, text: string,
                       o: ExecOptions) {
    WalkMapKey(h, slots, f, ETable(t), s, Q.KeyText(text), [Q.Field(r)], Strict(o)) ==
    WalkMapKey(h, slots, f, ETable(t), s, Q.KeyText(text), [Q.Field(r)], Lenient(o))
  }

  /**
   In any buffer with a sorted vector of `ulong` keys, `q` of its `n` keys above `i64::MAX`: the modes
   answer every query of a row's key alike if and only if `q` is on the chain of `n`.
   */
  lemma {:induction false} UnsignedAnswersExact(h: Heap, slots: map<nat, Slot>, f: Field, t: nat, s: Schema, kf: Field,
                                                items: seq<Slot>, values: seq<nat>,
                                                r: Q.FieldRef, o: ExecOptions)
    requires LookupKeyedField(TableAt(s, t).fields) == Ok(kf) && FindField(TableAt(s, t).fields, r) == Some(kf)
    requires kf.typ.Scalar? && kf.typ.st.ULong? && (forall i :: 0 <= i < |values| ==> values[i] <= MaxInt(ULong))
    requires VectorAtSlot(h, slots, f.offset) == Some(items) && HoldsKeys(h, items, kf, values)
      && AscendingNumbers(values)
    ensures (forall text :: IsKeyText(text) ==> SameAnswer(h, slots, f, t, s, r, text, o))
      <==> OnChain(|values|, Above(values))
  {
    hide *;
    ULongIsInteger(kf);
    UnsignedLookupExact(values, kf);
    forall text ensures SameAnswer(h, slots, f, t, s, r, text, o)
      <==> MapKeys.SameIndex(Texts(values), kf, Q.KeyText(text)) {
      LookupAnswers(h, slots, f, t, s, kf, items, values, r, text, Strict(o));
      LookupAnswers(h, slots, f, t, s, kf, items, values, r, text, Lenient(o));
      SameByAnswers(h, slots, f, t, s, kf, values, r, text, o);
    }
    EachLiteral(h, slots, f, t, s, kf, values, r, o);
  }

  lemma {:induction false} ULongIsInteger(kf: Field)
    requires kf.typ.Scalar? && kf.typ.st.ULong?
    ensures IsIntegerKeyType(kf.typ)
  {
  }

  lemma {:induction false} SameByAnswers(h: Heap, slots: map<nat, Slot>, f: Field, t: nat, s: Schema, kf: Field,
                                         values: seq<nat>, r: Q.FieldRef, text: string,
                                         o: ExecOptions)
    requires AscendingNumbers(values)
    requires var found := KeyIndex(Texts(values), kf, Q.KeyText(text), Strict(o));
      found.Ok? && WalkMapKey(h, slots, f, ETable(t), s, Q.KeyText(text), [Q.Field(r)], Strict(o)) ==
        Answer(values, found.value)
    requires var found := KeyIndex(Texts(values), kf, Q.KeyText(text), Lenient(o));
      found.Ok? && WalkMapKey(h, slots, f, ETable(t), s, Q.KeyText(text), [Q.Field(r)], Lenient(o)) ==
        Answer(values, found.value)
    ensures SameAnswer(h, slots, f, t, s, r, text, o) <==> MapKeys.SameIndex(Texts(values), kf, Q.KeyText(text))
  {
    hide WalkMapKey, Answer, StrictIndex, Scan, AscendingNumbers, Texts;
    AnswersDiffer(values, KeyIndex(Texts(values), kf, Q.KeyText(text), Strict(o)).value,
      KeyIndex(Texts(values), kf, Q.KeyText(text), Lenient(o)).value);
  }

  lemma {:induction false} EachLiteral(h: Heap, slots: map<nat, Slot>, f: Field, t: nat, s: Schema, kf: Field,
                                       values: seq<nat>, r: Q.FieldRef, o: ExecOptions)
    requires forall text ::
      SameAnswer(h, slots, f, t, s, r, text, o) <==> MapKeys.SameIndex(Texts(values), kf, Q.KeyText(text))
    ensures (forall text :: IsKeyText(text) ==> SameAnswer(h, slots, f, t, s, r, text, o)) <==>
            (forall key :: IsLiteral(key) ==> MapKeys.SameIndex(Texts(values), kf, key))
  {
    hide SameAnswer, MapKeys.SameIndex, IsKeyText;
    if forall key :: IsLiteral(key) ==> MapKeys.SameIndex(Texts(values), kf, key) {
      forall text | IsKeyText(text) ensures SameAnswer(h, slots, f, t, s, r, text, o) {
        assert IsLiteral(Q.KeyText(text));
      }
    }
    if forall text :: IsKeyText(text) ==> SameAnswer(h, slots, f, t, s, r, text, o) {
      forall key | IsLiteral(key) ensures MapKeys.SameIndex(Texts(values), kf, key) {
        assert key == Q.KeyText(key.text);
      }
    }
  }

  // The failure on one document.

  const BIG: nat := 0x8000_0000_0000_0005

  const KeyField := Field("k", 0, 4, Scalar(ULong, None), 0, 0, false, true, false)
  const RowsField := Field("v", 0, 4, Vector(ETable(1)), 0, 0, false, false, false)
  const BandSchema := Schema([TableDef("T", [RowsField]), TableDef("R", [KeyField])])

  function RowDoc(n: nat): J.Value
    requires n <= MaxInt(ULong)
  {
    J.Obj(map["k" := J.Num(J.Int(n))])
  }

  /** `{"v": [{"k": 1}, {"k": 9223372036854775813}]}`. */
  const BandDoc := J.Obj(map["v" := J.Arr([RowDoc(1), RowDoc(BIG)])])

  const BandHeap: Heap := [
    TableNode(map[4 := Direct(I(1))]),
    TableNode(map[4 := Direct(I(BIG))]),
    VectorNode([Ref(0), Ref(1)]),
    TableNode(map[4 := Ref(2)])]

  /** `T:v[+1].k`. */
  const BandQuery := Q.Query(None, "T", [Q.Field(Q.Name("v")), Q.MapKey(Q.KeyText("+1")), Q.Field(Q.Name("k"))])

  lemma {:induction false} BandTokens(tokens: seq<string>)
    requires tokens == ["v", "[+1]", ".k"]
    ensures SpellsSteps(BandQuery.steps, tokens, true)
  {
    assert "[+1]"[1..|"[+1]"| - 1] == "+1" && ".k"[1..] == "k";
    assert !Text.IsDigit("+1"[0]);
  }

  lemma {:induction false} BandPath(tokens: seq<string>)
    requires tokens == ["v", "[+1]", ".k"]
    ensures Concat(tokens) == "v[+1].k"
  {
    assert tokens[1..] == ["[+1]", ".k"] && tokens[1..][1..] == [".k"] && [".k"][1..] == [];
    assert Concat([".k"]) == ".k" + Concat([]) == ".k";
    assert Concat(["[+1]", ".k"]) == "[+1]" + Concat([".k"]) == "[+1].k";
  }

  lemma {:induction false} BandQueryParses(maxLength: nat, maxDepth: nat)
    requires 9 <= maxLength && 3 <= maxDepth
    ensures QP.Parse("T:v[+1].k", maxLength, maxDepth) == Ok(BandQuery)
  {
    hide QP.Parse, SpellsSteps, Concat, IsIdentStart, IsIdentCont;
    var tokens := ["v", "[+1]", ".k"];
    BandTokens(tokens);
    BandPath(tokens);
    assert SpellsPath(BandQuery.steps, "v[+1].k");
    BandHeader();
    assert "T:v[+1].k" == "T" + ":" + "v[+1].k";
    assert SpellsQuery(BandQuery, "T:v[+1].k");
    P.ParseExactly("T:v[+1].k", maxLength, maxDepth, BandQuery);
  }

  lemma {:induction false} BandHeader()
    ensures SpellsHeader(BandQuery, "T")
  {
  }

  /** A table of one field, built from an object that has just this member. */
  lemma {:induction false} OneFieldTable(v: J.Value, t: nat, s: Schema, f: Field, p: F.Push, depth: nat, o: F.Options,
                                         slots: map<nat, Val>)
    requires TableAt(s, t).fields == [f] && v.Obj? && v.m.Keys == {f.name} && depth <= o.maxDepth
    requires F.EncField(v, f, s, depth, o) == Ok(Some(p)) && F.WriteSlot(F.Pending(f.offset, p), map[]) == Ok(slots)
    ensures F.EncTable(v, t, s, depth, o) == Ok(TableVal(slots))
  {
    hide F.EncField, F.WriteSlot, TableAt;
    var fields := [f];
    assert fields[0].name == f.name;
    assert !F.HasUnknownKey(v.m, fields);
    assert fields[1..] == [] && F.EncFields(v, [], s, depth, o) == Ok([]);
    var pending := [F.Pending(f.offset, p)];
    assert pending + [] == pending && pending[1..] == [];
    assert F.EncFields(v, fields, s, depth, o) == Ok(pending);
    assert F.WriteSlots([], slots) == Ok(slots);
  }

  lemma {:induction false} RowBuilds(n: nat, depth: nat, o: F.Options)
    requires 0 < n <= MaxInt(ULong) && depth <= o.maxDepth
    ensures F.EncTable(RowDoc(n), 1, BandSchema, depth, o) == Ok(TableVal(map[4 := ScalarVal(I(n))]))
  {
    hide F.EncTable;
    var v := RowDoc(n);
    assert TableAt(BandSchema, 1).fields == [KeyField];
    var p := F.PushScalar(I(n), I(0));
    assert F.EncPresent(v.m["k"], KeyField, BandSchema, depth, o) == Ok(p);
    OneFieldTable(v, 1, BandSchema, KeyField, p, depth, o, map[4 := ScalarVal(I(n))]);
  }

  lemma {:induction false} RowsBuild(depth: nat, o: F.Options)
    requires depth + 1 <= o.maxDepth
    ensures F.EncVector(BandDoc.m["v"], ETable(1), false, BandSchema, depth, o) ==
            Ok(VectorVal([TableVal(map[4 := ScalarVal(I(1))]), TableVal(map[4 := ScalarVal(I(BIG))])]))
  {
    hide F.EncTable, J.Height;
    var x := BandDoc.m["v"];
    var items := [RowDoc(1), RowDoc(BIG)];
    RowBuilds(1, depth + 1, o);
    RowBuilds(BIG, depth + 1, o);
    F.ItemHeights(x);
    assert items[..1] == [RowDoc(1)] && items[..1][..0] == [];
    assert F.EncTables([], 1, BandSchema, depth + 1, o, J.Height(x)) == Ok([]);
    var w1, w2 := TableVal(map[4 := ScalarVal(I(1))]), TableVal(map[4 := ScalarVal(I(BIG))]);
    assert items[..1][|items[..1]| - 1] == RowDoc(1) && items[..|items| - 1] == items[..1] && [] + [w1] == [w1];
    assert F.EncTables(items[..1], 1, BandSchema, depth + 1, o, J.Height(x)) == Ok([w1]);
    assert [w1] + [w2] == [w1, w2];
    assert F.EncTables(items, 1, BandSchema, depth + 1, o, J.Height(x)) == Ok([w1, w2]);
  }

  /** `from_json` turns the document into this buffer. */
  lemma {:induction false} BandBuilds(o: F.Options)
    requires 2 <= o.maxDepth
    ensures F.JsonToBuf(BandDoc, 0, BandSchema, o) == Ok(Unfold(BandHeap, 3))
  {
    hide F.EncTable, F.EncVector;
    RowsBuild(1, o);
    var w := F.EncVector(BandDoc.m["v"], ETable(1), false, BandSchema, 1, o).value;
    assert TableAt(BandSchema, 0).fields == [RowsField];
    assert F.EncPresent(BandDoc.m["v"], RowsField, BandSchema, 0, o) == Ok(F.PushOffset(w));
    OneFieldTable(BandDoc, 0, BandSchema, RowsField, F.PushOffset(w), 0, o, map[4 := w]);
    BandUnfolds();
  }

  lemma {:induction false} BandUnfolds()
    ensures Unfold(BandHeap, 3) == TableVal(map[4 := VectorVal([TableVal(map[4 := ScalarVal(I(1))]),
      TableVal(map[4 := ScalarVal(I(BIG))])])])
  {
    var h := BandHeap;
    assert Unfold(h, 0) == TableVal(map[4 := ScalarVal(I(1))]);
    assert Unfold(h, 1) == TableVal(map[4 := ScalarVal(I(BIG))]);
    assert Unfold(h, 2) == VectorVal([Unfold(h, 0), Unfold(h, 1)]);
    assert Unfold(h, 3) == TableVal(map[4 := Unfold(h, 2)]);
  }

  /**
   The strict lookup misses a row that is there. From this document `from_json` builds a vector of the
   sorted keys 1 and 2^63 + 5; `T:v[+1].k` answers NULL on it in strict mode and 1 in lenient mode.
   */
  lemma {:induction false} LargeKeyHidesSmallOne(bo: F.Options, o: ExecOptions, maxLength: nat, maxDepth: nat)
    requires 2 <= bo.maxDepth && 9 <= maxLength && 3 <= maxDepth
    ensures F.JsonToBuf(BandDoc, 0, BandSchema, bo) == Ok(Unfold(BandHeap, 3))
    ensures QP.Parse("T:v[+1].k", maxLength, maxDepth) == Ok(BandQuery)
    ensures WalkTable(BandHeap, SlotsAt(BandHeap, Ref(3)), 0, BandSchema, BandQuery.steps, Strict(o)) == Ok([None])
    ensures WalkTable(BandHeap, SlotsAt(BandHeap, Ref(3)), 0, BandSchema, BandQuery.steps, Lenient(o)) ==
      Ok([Some(Plain("1"))])
  {
    hide QP.Parse, F.EncTable, Unfold, WalkTable;
    BandBuilds(bo);
    BandQueryParses(maxLength, maxDepth);
    BandWalk(Strict(o));
    BandWalk(Lenient(o));
    BandIndexes(Strict(o));
    BandIndexes(Lenient(o));
    Text.DecBits();
  }

  lemma {:induction false} BandIndexes(o: ExecOptions)
    ensures KeyIndex(Texts([1, BIG]), KeyField, Q.KeyText("+1"), o) == Ok(if o.strictKeys then None else Some(0))
  {
    hide Text.ParseI64, Text.Dec, HighBand, Compare;
    var keys := Texts([1, BIG]);
    TextsHaveBand([1, BIG]);
    assert [1, BIG][..1] == [1] && Above([1]) == 0;
    Text.DecBits();
    SignedIsLiteral(1);
    assert Signed(1) == "+1";
    Text.ParseDec(1);
    CompareAcrossBand(keys, 1, 0, 0);
    CompareAcrossBand(keys, 1, 0, 1);
    ScanFindsFirst(keys, KeyField, Q.KeyText("+1"), 0);
  }

  lemma {:induction false} BandWalk(o: ExecOptions)
    ensures var found := KeyIndex(Texts([1, BIG]), KeyField, Q.KeyText("+1"), o);
            found.Ok? && WalkTable(BandHeap, SlotsAt(BandHeap, Ref(3)), 0, BandSchema, BandQuery.steps, o) ==
              Answer([1, BIG], found.value)
  {
    hide KeyIndex, WalkMapKey;
    var slots := SlotsAt(BandHeap, Ref(3));
    var tail := BandQuery.steps[1..];
    assert tail == [Q.MapKey(Q.KeyText("+1")), Q.Field(Q.Name("k"))] && tail[1..] == [Q.Field(Q.Name("k"))];
    assert TableAt(BandSchema, 0).fields == [RowsField] && TableAt(BandSchema, 1).fields == [KeyField];
    assert VectorAtSlot(BandHeap, slots, 4) == Some([Ref(0), Ref(1)]);
    assert HoldsKeys(BandHeap, [Ref(0), Ref(1)], KeyField, [1, BIG]);
    assert KeyedField([KeyField][1..]).None? && KeyCount([KeyField][1..]) == 0;
    LookupAnswers(BandHeap, slots, RowsField, 1, BandSchema, KeyField, [Ref(0), Ref(1)], [1, BIG], Q.Name("k"), "+1",
      o);
  }
}
