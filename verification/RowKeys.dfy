/**
 Keys of rows: under which text a canonical row is listed, and whether that text gives the key back.

 `to_json` lists a keyed row under its key's text; `from_json` parses that text, by the key field's type,
 and compares it with the row's key member. The two meet in `RowEntry`: the entry is accepted exactly if
 the key returns. Of the rows with one text the last is listed (`RowsListed`).

 A document is not assumed to be one that builds: it only has a canonical form.
 */
module RowKeys {
  import opened Wrappers
  import opened Schema
  import opened Scalars
  import opened KeyText
  import opened FromJson
  import opened ToJson
  import opened Canon
  import opened Lenient
  import opened Idempotence
  import R = RoundTrip
  import SL = SugarLookup
  import J = Json
  import Text

  /** The number in a row's integer key field. */
  function KeyNumber(row: J.Value, kf: Field): int
    requires IsIntegerKey(kf)
  {
    match J.Present(if row.Obj? then row.m else map[], kf.name)
    case None => Cast(kf.typ.st, kf.defaultInt)
    case Some(x) =>
      match EncodeScalar(kf.typ.st, kf.typ.en, x)
      case Ok(I(n)) => n
      case _ => Cast(kf.typ.st, kf.defaultInt)
  }

  /** What a row shows for the number `n`: an enum's numbers are shown as `i64`. */
  function Shown(kf: Field, n: int): int
    requires kf.typ.Scalar?
  {
    if kf.typ.en.Some? then WrapI64(n) else n
  }

  /**
   The text under which `n` is listed gives back what the row shows. No enum may name the number. The
   default is not stored, so its text is the key reader's; any other number must be within `i64`.
   */
  predicate NumberReturns(n: int, kf: Field, rd: KeyReader)
    requires IsIntegerKey(kf)
  {
    && (kf.typ.en.Some? ==> NameOfValue(kf.typ.en.value.values, Shown(kf, n)).None?)
    && if n == Cast(kf.typ.st, kf.defaultInt) then rd.defaultWhenAbsent && kf.defaultInt == Shown(kf, n)
       else n <= Text.I64_MAX
  }

  /** The text under which the row is listed gives its key back; a string's does, whether it is given or not. */
  predicate KeyReturns(row: J.Value, kf: Field, rd: KeyReader) {
    if kf.typ.String? then
      var x := J.Present(if row.Obj? then row.m else map[], kf.name);
      x.Some? ==> x.value.Str?
    else IsIntegerKey(kf) && NumberReturns(KeyNumber(row, kf), kf, rd)
  }

  /** Of the rows with one key the last is kept. */
  predicate IsLast(rows: seq<J.Value>, i: nat, kf: Field, rd: KeyReader)
    requires i < |rows|
  {
    forall j :: i < j < |rows| ==> DocumentKey(rows[j], kf, rd) != DocumentKey(rows[i], kf, rd)
  }

  // Integer keys.

  /** An integer key's text gives the key back exactly under the condition. */
  lemma {:induction false} NumberDecides(kf: Field, n: int, j: J.Value, k: string, rd: KeyReader)
    requires IsIntegerKey(kf) && Fits(kf.typ.st, I(n)) && ScalarJson(kf.typ.st, kf.typ.en, I(n)) == Ok(j)
    requires k == if n == Cast(kf.typ.st, kf.defaultInt) then AbsentText(kf, rd) else Text.Dec(n)
    ensures (KeyOf(kf, k).Ok? && KeyOf(kf, k).value.1 == j) <==> NumberReturns(n, kf, rd)
  {
    hide Text.ParseI64, Text.Dec, Cast;
    Text.ParseDec(n);
    Text.ParseDec(kf.defaultInt);
    EmptyIsNoNumber();
  }

  lemma {:induction false} EmptyIsNoNumber()
    ensures Text.ParseI64("") == None
  {
  }

  /** A row that shows the key `n` as `j` is listed under the same text again. */
  lemma {:induction false} NumberStays(kf: Field, n: int, j: J.Value, rd: KeyReader, row: J.Value)
    requires IsIntegerKey(kf) && GoodType(kf) && Fits(kf.typ.st, I(n)) && NumberReturns(n, kf, rd)
      && ScalarJson(kf.typ.st, kf.typ.en, I(n)) == Ok(j)
    requires row.Obj? && J.Present(row.m, kf.name) == Some(j)
    ensures DocumentKey(row, kf, rd) == if n == Cast(kf.typ.st, kf.defaultInt) then AbsentText(kf, rd) else Text.Dec(n)
  {
    hide EncodeScalar, ScalarJson, AbsentText, Text.Dec, Fits, GoodEnum, Cast, DefaultScalar;
    DefaultIsCast(kf);
    if n == Cast(kf.typ.st, kf.defaultInt) {
      DefaultDecides(kf, j);
    } else {
      ScalarFixed(kf.typ.st, kf.typ.en, I(n), j);
    }
  }

  /** The stored number, its JSON form in the canonical row and its text as a key. */
  lemma {:induction false} NumberShown(row: J.Value, kf: Field, fields: seq<Field>, s: Schema, rd: KeyReader)
    requires IsIntegerKey(kf) && GoodType(kf) && row.Obj? && !IsDiscriminator(kf, fields)
    requires Member(row, kf, fields, s, rd).Ok?
    ensures var n := KeyNumber(row, kf);
            && Fits(kf.typ.st, I(n)) && ScalarJson(kf.typ.st, kf.typ.en, I(n)).Ok?
            && Member(row, kf, fields, s, rd) == Ok(map[kf.name := ScalarJson(kf.typ.st, kf.typ.en, I(n)).value])
            && DocumentKey(row, kf, rd) == if n == Cast(kf.typ.st, kf.defaultInt) then AbsentText(kf, rd)
              else Text.Dec(n)
  {
    hide EncodeScalar, ScalarJson, Member, AbsentText, Text.Dec, IsDiscriminator, Fits, GoodEnum, Cast;
    PlainIs(row, kf, fields, s, rd);
    DefaultIsCast(kf);
    DefaultReencodes(kf);
    if J.Present(row.m, kf.name).Some? {
      var x := J.Present(row.m, kf.name).value;
      EncodedIsSmall(kf.typ.st, kf.typ.en, x);
      FitsIsNumber(kf, EncodeScalar(kf.typ.st, kf.typ.en, x).value);
    }
  }

  lemma {:induction false} DefaultIsCast(kf: Field)
    requires IsIntegerKey(kf)
    ensures DefaultScalar(kf.typ.st, kf.defaultInt, kf.defaultReal) == I(Cast(kf.typ.st, kf.defaultInt))
  {
    hide Cast;
  }

  lemma {:induction false} FitsIsNumber(kf: Field, sc: Scalar)
    requires IsIntegerKey(kf) && Fits(kf.typ.st, sc)
    ensures sc.I?
  {
  }

  // Entries.

  /** What `MergeKey` adds to a row. */
  function Injected(row: map<string, J.Value>, kf: Field, k: string): map<string, J.Value> {
    if kf.typ.String? && kf.name !in row then map[kf.name := J.Str(k)] else map[]
  }

  /** The entry under `k` is the row, with its key put in if it is missing, and is listed under `k` again. */
  predicate EntryStays(m: map<string, J.Value>, k: string, kf: Field, rd: KeyReader)
    requires k in m
  {
    OneEntry(m, k, kf).Ok? ==>
      && m[k].Obj? && OneEntry(m, k, kf).value.row == J.Obj(m[k].m + Injected(m[k].m, kf, k))
      && DocumentKey(OneEntry(m, k, kf).value.row, kf, rd) == k
  }

  /** The entry of a canonical row is accepted exactly if the key returns, and then stays. */
  lemma {:induction false} RowEntry(m: map<string, J.Value>, k: string, row: J.Value, kf: Field, t: nat, s: Schema,
                                    rd: KeyReader)
    requires CanonSchema(s) && KeyedField(TableAt(s, t).fields) == Some(kf)
    requires k in m && CanonTable(row, t, s, rd) == Ok(m[k]) && k == DocumentKey(row, kf, rd)
    ensures m[k].Obj? && (OneEntry(m, k, kf).Ok? <==> KeyReturns(row, kf, rd)) && EntryStays(m, k, kf, rd)
  {
    hide *;
    TableShape(row, t, s, rd, m[k]);
    if SL.SupportedKey(kf) {
      var fields := TableAt(s, t).fields;
      var i := R.KeyedFieldIndex(fields);
      SupportedIsPlain(kf, fields);
      OwnsName(kf);
      assert kf == fields[i] && kf in fields;
      ContributedAt(row, t, s, rd, m[k], kf, kf.name);
      GoodTypeAt(s, t, i);
      if kf.typ.String? {
        StringEntry(m, k, row, kf, fields, s, rd);
      } else {
        IntegerSupported(kf);
        NumberShown(row, kf, fields, s, rd);
        NumberEntry(m, k, row, kf, fields, s, rd);
      }
    } else {
      UnsupportedEntry(m, k, row, kf, rd);
    }
  }

  lemma {:induction false} IntegerSupported(kf: Field)
    requires SL.SupportedKey(kf) && !kf.typ.String?
    ensures IsIntegerKey(kf)
  {
  }

  lemma {:induction false} SupportedIsPlain(kf: Field, fields: seq<Field>)
    requires SL.SupportedKey(kf)
    ensures !kf.typ.Union? && !IsDiscriminator(kf, fields)
  {
  }

  lemma {:induction false} UnsupportedEntry(m: map<string, J.Value>, k: string, row: J.Value, kf: Field, rd: KeyReader)
    requires k in m && m[k].Obj? && !SL.SupportedKey(kf)
    ensures OneEntry(m, k, kf).Err? && !KeyReturns(row, kf, rd) && EntryStays(m, k, kf, rd)
  {
    hide J.Height;
  }

  /** A field's members in the canonical form are what it contributed. */
  lemma {:induction false} ContributedAt(v: J.Value, t: nat, s: Schema, rd: KeyReader, c: J.Value, f: Field, k: string)
    requires CanonSchema(s) && v.Obj? && CanonTable(v, t, s, rd) == Ok(c) && f in TableAt(s, t).fields
    requires !IsDiscriminator(f, TableAt(s, t).fields) && Owns(f, k)
    ensures c.Obj? && Member(v, f, TableAt(s, t).fields, s, rd).Ok?
      && SameAt(c.m, Member(v, f, TableAt(s, t).fields, s, rd).value, k)
  {
    hide *;
    var fields := TableAt(s, t).fields;
    TableShape(v, t, s, rd, c);
    NamesApartIn(s);
    NamesApartAt(s, t);
    R.ByIdMembers(fields);
    MembersAllOk(v, ById(fields), fields, map[], s, rd, f);
    Contributed(v, ById(fields), fields, map[], s, rd, f, k);
  }

  lemma {:induction false} StringEntry(m: map<string, J.Value>, k: string, row: J.Value, kf: Field, fields: seq<Field>,
                                       s: Schema, rd: KeyReader)
    requires kf.typ.String? && row.Obj? && !IsDiscriminator(kf, fields) && k in m && m[k].Obj?
      && k == DocumentKey(row, kf, rd)
    requires Member(row, kf, fields, s, rd).Ok? && SameAt(m[k].m, Member(row, kf, fields, s, rd).value, kf.name)
    ensures (OneEntry(m, k, kf).Ok? <==> KeyReturns(row, kf, rd)) && EntryStays(m, k, kf, rd)
  {
    hide Member, IsDiscriminator, AbsentText, J.Height;
    PlainIs(row, kf, fields, s, rd);
    var c := m[k].m;
    if kf.name in c {
      assert c + map[] == c;
    } else {
      assert c[kf.name := J.Str(k)] == c + map[kf.name := J.Str(k)];
    }
  }

  lemma {:induction false} NumberEntry(m: map<string, J.Value>, k: string, row: J.Value, kf: Field, fields: seq<Field>,
                                       s: Schema, rd: KeyReader)
    requires IsIntegerKey(kf) && GoodType(kf) && k in m && m[k].Obj? && row.Obj? && Member(row, kf, fields, s, rd).Ok?
    requires SameAt(m[k].m, Member(row, kf, fields, s, rd).value, kf.name)
    requires var n := KeyNumber(row, kf);
      && Fits(kf.typ.st, I(n)) && ScalarJson(kf.typ.st, kf.typ.en, I(n)).Ok?
      && Member(row, kf, fields, s, rd) == Ok(map[kf.name := ScalarJson(kf.typ.st, kf.typ.en, I(n)).value])
      && k == if n == Cast(kf.typ.st, kf.defaultInt) then AbsentText(kf, rd) else Text.Dec(n)
    ensures (OneEntry(m, k, kf).Ok? <==> KeyReturns(row, kf, rd)) && EntryStays(m, k, kf, rd)
  {
    hide Member, KeyOf, ScalarJson, NumberReturns, KeyNumber, DocumentKey, AbsentText, Fits, GoodType, Cast, J.Height;
    var n := KeyNumber(row, kf);
    var j := ScalarJson(kf.typ.st, kf.typ.en, I(n)).value;
    NumberDecides(kf, n, j, k, rd);
    NumberIsShown(kf, n);
    var c := m[k].m;
    assert c + map[] == c;
    if NumberReturns(n, kf, rd) { NumberStays(kf, n, j, rd, m[k]); }
  }

  lemma {:induction false} NumberIsShown(kf: Field, n: int)
    requires kf.typ.Scalar?
    ensures ScalarJson(kf.typ.st, kf.typ.en, I(n)).Ok? ==> !ScalarJson(kf.typ.st, kf.typ.en, I(n)).value.Null?
  {
  }

  // The rows of a canonical vector.

  lemma {:induction false} ArrayConverts(x: J.Value, t: nat, hex: bool, s: Schema, rd: KeyReader, j: J.Value)
    requires KeyedField(TableAt(s, t).fields).None? && CanonVector(x, ETable(t), hex, s, rd) == Ok(j)
    ensures x.Arr? && j.Arr? && (forall i :: 0 <= i < |x.items| ==> J.Height(x.items[i]) < J.Height(x))
      && CanonTables(x.items, t, s, rd, J.Height(x)) == Ok(j.items)
  {
    hide CanonTables, KeyedField, TableAt, J.Height;
    if x.Arr? { ItemHeights(x); }
  }

  lemma {:induction false} TablesConvert(items: seq<J.Value>, t: nat, s: Schema, rd: KeyReader, bound: nat,
                                         docs: seq<J.Value>)
    requires (forall i :: 0 <= i < |items| ==> J.Height(items[i]) < bound)
      && CanonTables(items, t, s, rd, bound) == Ok(docs)
    ensures |docs| == |items| && forall i :: 0 <= i < |items| ==> CanonTable(items[i], t, s, rd) == Ok(docs[i])
    decreases |items|
  {
    hide CanonTable, J.Height;
    if items != [] {
      var n := |items| - 1;
      TablesConvert(items[..n], t, s, rd, bound, CanonTables(items[..n], t, s, rd, bound).value);
    }
  }

  lemma {:induction false} KeyedRows(x: J.Value, t: nat, kf: Field, hex: bool, s: Schema, rd: KeyReader, j: J.Value)
    requires KeyedField(TableAt(s, t).fields) == Some(kf) && CanonVector(x, ETable(t), hex, s, rd) == Ok(j)
    ensures (x.Arr? || x.Obj?) && CanonInput(x, kf).Ok? && j.Obj?
    ensures var rows := CanonInput(x, kf).value;
            && (forall i :: 0 <= i < |rows| ==> J.Height(rows[i]) < J.Height(x))
            && CanonRows(rows, kf, t, s, rd, J.Height(x)) == Ok(j.m)
  {
    hide CanonRows, CanonInput, KeyedField, TableAt, J.Height;
  }

  /** The canonical object lists the last row of each key. */
  lemma {:induction false} RowsListed(rows: seq<J.Value>, kf: Field, t: nat, s: Schema, rd: KeyReader, bound: nat)
    requires (forall i :: 0 <= i < |rows| ==> J.Height(rows[i]) < bound) && CanonRows(rows, kf, t, s, rd, bound).Ok?
    ensures var m := CanonRows(rows, kf, t, s, rd, bound).value;
            && (forall i :: 0 <= i < |rows| && IsLast(rows, i, kf, rd) ==>
                  DocumentKey(rows[i], kf, rd) in m
                    && CanonTable(rows[i], t, s, rd) == Ok(m[DocumentKey(rows[i], kf, rd)]))
            && (forall k :: k in m ==> exists i ::
              0 <= i < |rows| && IsLast(rows, i, kf, rd) && DocumentKey(rows[i], kf, rd) == k)
    decreases |rows|
  {
    hide CanonTable, DocumentKey, J.Height;
    if rows != [] {
      var n := |rows| - 1;
      var init := rows[..n];
      RowsListed(init, kf, t, s, rd, bound);
      var m := CanonRows(rows, kf, t, s, rd, bound).value;
      forall i | 0 <= i < |rows| && IsLast(rows, i, kf, rd)
        ensures DocumentKey(rows[i], kf, rd) in m
          && CanonTable(rows[i], t, s, rd) == Ok(m[DocumentKey(rows[i], kf, rd)])
      {
        if i < n {
          assert init[i] == rows[i] && IsLast(init, i, kf, rd);
          assert DocumentKey(rows[n], kf, rd) != DocumentKey(rows[i], kf, rd);
        }
      }
      forall k | k in m ensures exists i ::
        0 <= i < |rows| && IsLast(rows, i, kf, rd) && DocumentKey(rows[i], kf, rd) == k {
        if k == DocumentKey(rows[n], kf, rd) {
          assert IsLast(rows, n, kf, rd);
        } else {
          var i :| 0 <= i < |init| && IsLast(init, i, kf, rd) && DocumentKey(init[i], kf, rd) == k;
          StillLast(rows, i, kf, rd);
        }
      }
    }
  }

  lemma {:induction false} StillLast(rows: seq<J.Value>, i: nat, kf: Field, rd: KeyReader)
    requires i < |rows| - 1 && IsLast(rows[..|rows| - 1], i, kf, rd)
    requires DocumentKey(rows[|rows| - 1], kf, rd) != DocumentKey(rows[i], kf, rd)
    ensures IsLast(rows, i, kf, rd)
  {
    hide DocumentKey;
    forall j | i < j < |rows| ensures DocumentKey(rows[j], kf, rd) != DocumentKey(rows[i], kf, rd) {
      if j < |rows| - 1 { assert rows[j] == rows[..|rows| - 1][j]; }
    }
  }

  lemma {:induction false} EntriesAccepted(c: J.Value, kf: Field)
    requires c.Obj?
    ensures SortedEntries(c, kf).Ok? <==> forall k :: k in c.m ==> OneEntry(c.m, k, kf).Ok?
  {
    hide *;
    var keys := Text.SortedKeys(c.m.Keys);
    if forall k :: k in c.m ==> OneEntry(c.m, k, kf).Ok? {
      forall i | 0 <= i < |keys| ensures OneEntry(c.m, keys[i], kf).Ok? { assert keys[i] in keys; }
      AllEntries(c.m, keys, kf);
      SortedAre(c, kf, KeyedEntries(c.m, keys, kf).value);
    }
    if SortedEntries(c, kf).Ok? { EntriesListed(c, kf); }
  }

  /** The sorted entries are the members' entries. */
  lemma {:induction false} EntriesListed(c: J.Value, kf: Field)
    requires c.Obj? && SortedEntries(c, kf).Ok?
    ensures forall e :: e in SortedEntries(c, kf).value ==> IsEntry(e, c.m, kf)
    ensures forall k :: k in c.m ==>
              OneEntry(c.m, k, kf).Ok? && OneEntry(c.m, k, kf).value in SortedEntries(c, kf).value
  {
    hide *;
    SortedCame(c, kf);
    var keys := Text.SortedKeys(c.m.Keys);
    var entries := KeyedEntries(c.m, keys, kf).value;
    var es := SortedEntries(c, kf).value;
    SL.SameMembers(es, entries);
    forall k | k in c.m ensures OneEntry(c.m, k, kf).Ok? && OneEntry(c.m, k, kf).value in es {
      assert k in keys;
      var i :| 0 <= i < |keys| && keys[i] == k;
      assert OneEntry(c.m, keys[i], kf) == Ok(entries[i]) && entries[i] in entries;
    }
    forall e | e in es ensures IsEntry(e, c.m, kf) {
      var n :| 0 <= n < |entries| && entries[n] == e;
      assert keys[n] in keys;
      EntryIs(e, keys[n], c.m, kf);
    }
  }

  /** The entry of some member. */
  ghost predicate IsEntry(e: Entry, m: map<string, J.Value>, kf: Field) {
    exists k :: k in m && OneEntry(m, k, kf) == Ok(e)
  }

  lemma {:induction false} EntryIs(e: Entry, k: string, m: map<string, J.Value>, kf: Field)
    requires k in m && OneEntry(m, k, kf) == Ok(e)
    ensures IsEntry(e, m, kf)
  {
    hide OneEntry;
  }

  lemma {:induction false} MemberOfEntry(e: Entry, m: map<string, J.Value>, kf: Field) returns (k: string)
    requires IsEntry(e, m, kf)
    ensures k in m && OneEntry(m, k, kf) == Ok(e)
  {
    hide OneEntry;
    k :| k in m && OneEntry(m, k, kf) == Ok(e);
  }

  lemma {:induction false} SortedCame(c: J.Value, kf: Field)
    requires c.Obj? && SortedEntries(c, kf).Ok?
    ensures KeyedEntries(c.m, Text.SortedKeys(c.m.Keys), kf).Ok?
    ensures SortedEntries(c, kf).value == SortEntries(KeyedEntries(c.m, Text.SortedKeys(c.m.Keys), kf).value)
  {
    hide KeyedEntries, SortEntries, Text.SortedKeys, J.Height;
  }

  lemma {:induction false} AllEntries(m: map<string, J.Value>, keys: seq<string>, kf: Field)
    requires forall k :: k in keys ==> k in m
    requires forall i :: 0 <= i < |keys| ==> OneEntry(m, keys[i], kf).Ok?
    ensures KeyedEntries(m, keys, kf).Ok?
  {
    hide OneEntry;
    if keys != [] { AllEntries(m, keys[..|keys| - 1], kf); }
  }

  lemma {:induction false} SortedAre(j: J.Value, kf: Field, entries: seq<Entry>)
    requires j.Obj? && KeyedEntries(j.m, Text.SortedKeys(j.m.Keys), kf) == Ok(entries)
    ensures SortedEntries(j, kf) == Ok(SortEntries(entries))
  {
    hide KeyedEntries, SortEntries, Text.SortedKeys, J.Height;
  }
}
