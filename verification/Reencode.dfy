/**
 When `from_json` takes back what `to_json` writes.

 The canonical form of an accepted document is accepted again exactly if three things hold, each a
 condition on the document and the schema.

 - It stays within the depth limit. An object of rows costs a level more than an array of them, and
   `to_json` always writes objects, so a document can fit the limit and its canonical form not.
 - Every listed row has a key that its text gives back: a string, or an integer within `i64` that no enum
   names and that, if it is the default, the key reader shows although it is not stored.
 - No `ulong` enum with a negative default is left out. `to_json` shows the default, and a `ulong` enum
   takes no negative number.
 */
module Reencode {
  import opened Schema
  import opened KeyText
  import opened FromJson
  import opened WritePhase
  import opened Canon
  import opened Lenient
  import opened Idempotence
  import opened RowKeys
  import J = Json

  // Schemas.

  /** A field with the name of a union's tag is the tag field that the compiler generates. */
  predicate TagFields(fields: seq<Field>) {
    forall i, j ::
      0 <= i < |fields| && 0 <= j < |fields| && fields[i].typ.Union? && fields[j].name == DiscKey(fields[i].name) ==>
      IsTagOf(fields[j], fields[i])
  }

  predicate ReturnSchema(s: Schema) {
    GoodSchema(s) && CanonSchema(s) && forall t :: 0 <= t < |s.tables| ==> TagFields(s.tables[t].fields)
  }

  lemma {:induction false} ReturnSchemaAt(s: Schema, t: nat)
    requires ReturnSchema(s)
    ensures GoodSchema(s) && CanonSchema(s) && GoodTable(TableAt(s, t)) && TagFields(TableAt(s, t).fields)
    ensures DistinctNames(TableAt(s, t).fields) && TagNamesReserved(TableAt(s, t).fields)
  {
    hide GoodTable, CanonSchema, TagFields, DistinctNames, TagNamesReserved;
    GoodAt(s, t);
    NamesApartIn(s);
    NamesApartAt(s, t);
    if t >= |s.tables| { NoTagFields(); }
  }

  lemma {:induction false} NoTagFields()
    ensures TagFields([])
  {
  }

  // Documents.

  /** The canonical form of this table document is accepted again with `budget` levels left below it. */
  ghost predicate Returns(v: J.Value, t: nat, s: Schema, rd: KeyReader, budget: int)
    decreases J.Height(v), 2
  {
    v.Obj? && 0 <= budget && forall i :: 0 <= i < |TableAt(s, t).fields| ==>
      ReturnsAt(v, TableAt(s, t).fields[i], s, rd, budget)
  }

  ghost predicate ReturnsAt(v: J.Value, f: Field, s: Schema, rd: KeyReader, budget: int)
    requires v.Obj?
    decreases J.Height(v), 1
  {
    if f.typ.Union? then
      ActiveTable(v.m, f.name, f.typ.variants).Some? ==>
        (J.MemberHeight(v.m, f.name);
         Returns(v.m[f.name], ActiveTable(v.m, f.name, f.typ.variants).value, s, rd, budget - 1))
    else if J.Present(v.m, f.name).Some? then
      J.MemberHeight(v.m, f.name);
      ReturnsValue(v.m[f.name], f, s, rd, budget)
    else DefaultReturns(f)
  }

  ghost predicate ReturnsValue(x: J.Value, f: Field, s: Schema, rd: KeyReader, budget: int)
    decreases J.Height(x), 4
  {
    match f.typ
    case Table(t) => Returns(x, t, s, rd, budget - 1)
    case Vector(el) => ReturnsVector(x, el, s, rd, budget - 1)
    case _ => true
  }

  /** An array takes one level, an object of rows two. */
  ghost predicate ReturnsVector(x: J.Value, el: ElementType, s: Schema, rd: KeyReader, budget: int)
    decreases J.Height(x), 3
  {
    && 0 <= budget
    && match el
       case ETable(t) => ReturnsTables(x, t, s, rd, budget)
       case _ => true
  }

  ghost predicate ReturnsTables(x: J.Value, t: nat, s: Schema, rd: KeyReader, budget: int)
    decreases J.Height(x), 2
  {
    match KeyedField(TableAt(s, t).fields)
    case Some(kf) =>
      && 1 <= budget
      && ((x.Arr? || x.Obj?) && CanonInput(x, kf).Ok? ==>
            forall i :: 0 <= i < |CanonInput(x, kf).value| && IsLast(CanonInput(x, kf).value, i, kf, rd) ==>
              KeyReturns(CanonInput(x, kf).value[i], kf, rd)
                && Returns(CanonInput(x, kf).value[i], t, s, rd, budget - 2))
    case None =>
      x.Arr? ==>
        (ItemHeights(x);
         forall i :: 0 <= i < |x.items| ==> Returns(x.items[i], t, s, rd, budget - 1))
  }

  /** Every key and default returns: with levels enough the canonical form is accepted. */
  ghost predicate ReturnsUnlimited(v: J.Value, t: nat, s: Schema, rd: KeyReader) {
    exists budget: nat :: Returns(v, t, s, rd, budget)
  }
}
