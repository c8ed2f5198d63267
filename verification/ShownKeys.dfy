/**
 Which members `to_json` writes.

 A scalar is always shown and a union always has its tag; anything else is shown exactly if the document
 gives it. Nothing else stands in the object.
 */
module ShownKeys {
  import opened Wrappers
  import opened Schema
  import opened Scalars
  import opened KeyText
  import opened ToJson
  import opened Canon
  import opened Idempotence
  import opened RowKeys
  import R = RoundTrip
  import RT = ReencodeTables
  import J = Json

  /** The field shows a member under the key. */
  predicate ShownUnder(v: J.Value, f: Field, k: string)
    requires v.Obj?
  {
    if f.typ.Union? then
      || k == f.name + "_type"
      || (k == f.name && HoldsValue(v, f.name + "_type", f.typ.variants))
    else k == f.name && (f.typ.Scalar? || (k in v.m && !v.m[k].Null?))
  }

  /** The document's tag names a variant other than NONE. */
  predicate HoldsValue(v: J.Value, tag: string, variants: seq<Variant>)
    requires v.Obj?
  {
    && tag in v.m && v.m[tag].Str?
    && VariantByName(variants, v.m[tag].s).Some? && VariantByName(variants, v.m[tag].s).value.value != 0
  }

  /** The keys of a canonical object are those that its fields show. */
  lemma {:induction false} KeysExactly(v: J.Value, t: nat, s: Schema, rd: KeyReader, c: J.Value, k: string)
    requires CanonSchema(s) && CanonTable(v, t, s, rd) == Ok(c)
    ensures v.Obj? && c.Obj?
    ensures k in c.m <==> exists i :: 0 <= i < |TableAt(s, t).fields| && ShownUnder(v, TableAt(s, t).fields[i], k)
  {
    hide *;
    TableShape(v, t, s, rd, c);
    var fields := TableAt(s, t).fields;
    forall i | 0 <= i < |fields| && ShownUnder(v, fields[i], k) ensures k in c.m {
      ShownStands(v, t, s, rd, c, i, k);
    }
    if k in c.m {
      R.ByIdMembers(fields);
      NothingYet(v, fields, k);
      KeysAdd(v, ById(fields), fields, map[], s, rd, k);
    }
  }

  predicate SomeShows(v: J.Value, fields: seq<Field>, k: string)
    requires v.Obj?
  {
    exists i :: 0 <= i < |fields| && ShownUnder(v, fields[i], k)
  }

  lemma {:induction false} NothingYet(v: J.Value, fields: seq<Field>, k: string)
    requires v.Obj?
    ensures SomeShows(v, fields, k) <==> exists i :: 0 <= i < |fields| && ShownUnder(v, fields[i], k)
  {
    hide ShownUnder;
  }

  /** What a field contributes stands under the keys it shows. */
  lemma {:induction false} MemberKeys(v: J.Value, f: Field, fields: seq<Field>, s: Schema, rd: KeyReader, k: string)
    requires v.Obj? && !IsDiscriminator(f, fields) && Member(v, f, fields, s, rd).Ok?
    ensures k in Member(v, f, fields, s, rd).value <==> ShownUnder(v, f, k)
  {
    hide Member, CanonValue, ScalarJson, DefaultScalar, IsDiscriminator, CanonUnion;
    if f.typ.Union? {
      UnionIs(v, f, fields, s, rd);
      UnionKeys(v, f, s, rd, k);
    } else {
      PlainIs(v, f, fields, s, rd);
    }
  }

  lemma {:induction false} UnionKeys(v: J.Value, f: Field, s: Schema, rd: KeyReader, k: string)
    requires v.Obj? && f.typ.Union? && CanonUnion(v, f, map[], s, rd).Ok?
    ensures k in CanonUnion(v, f, map[], s, rd).value <==> ShownUnder(v, f, k)
  {
    hide CanonVariant, VariantByName, VariantByValue;
  }

  lemma {:induction false} ShownStands(v: J.Value, t: nat, s: Schema, rd: KeyReader, c: J.Value, i: nat, k: string)
    requires CanonSchema(s) && v.Obj? && c.Obj? && CanonTable(v, t, s, rd) == Ok(c)
    requires i < |TableAt(s, t).fields| && ShownUnder(v, TableAt(s, t).fields[i], k)
    ensures k in c.m
  {
    hide *;
    var fields := TableAt(s, t).fields;
    var f := fields[i];
    if IsDiscriminator(f, fields) {
      var n := RT.UnionOfTag(fields, i);
      RT.UnionIsNoTag(fields[n], fields);
      TagShown(v, f, fields[n], k);
      OwnsBoth(fields[n]);
      StandsUnder(v, t, s, rd, c, fields[n], k);
    } else {
      OwnsShown(v, f, k);
      StandsUnder(v, t, s, rd, c, f, k);
    }
  }

  lemma {:induction false} TagShown(v: J.Value, f: Field, u: Field, k: string)
    requires v.Obj? && u.typ.Union? && f.typ.Scalar? && f.name == DiscKey(u.name) && ShownUnder(v, f, k)
    ensures ShownUnder(v, u, k) && k == DiscKey(u.name)
  {
  }

  lemma {:induction false} OwnsShown(v: J.Value, f: Field, k: string)
    requires v.Obj? && ShownUnder(v, f, k)
    ensures Owns(f, k)
  {
    hide HoldsValue;
  }

  lemma {:induction false} StandsUnder(v: J.Value, t: nat, s: Schema, rd: KeyReader, c: J.Value, f: Field, k: string)
    requires CanonSchema(s) && v.Obj? && c.Obj? && CanonTable(v, t, s, rd) == Ok(c) && f in TableAt(s, t).fields
    requires !IsDiscriminator(f, TableAt(s, t).fields) && Owns(f, k) && ShownUnder(v, f, k)
    ensures k in c.m
  {
    hide *;
    ContributedAt(v, t, s, rd, c, f, k);
    MemberKeys(v, f, TableAt(s, t).fields, s, rd, k);
    Same(c.m, Member(v, f, TableAt(s, t).fields, s, rd).value, k);
  }

  lemma {:induction false} Same(a: map<string, J.Value>, b: map<string, J.Value>, k: string)
    requires SameAt(a, b, k)
    ensures k in a <==> k in b
  {
  }

  lemma {:induction false} KeysAdd(v: J.Value, todo: seq<Field>, fields: seq<Field>, acc: map<string, J.Value>,
                                   s: Schema, rd: KeyReader, k: string)
    requires v.Obj? && (forall f :: f in todo ==> f in fields) && CanonMembers(v, todo, fields, acc, s, rd).Ok?
    requires k in acc ==> SomeShows(v, fields, k)
    ensures k in CanonMembers(v, todo, fields, acc, s, rd).value ==> SomeShows(v, fields, k)
    decreases |todo|
  {
    hide CanonMember, Member, ShownUnder, IsDiscriminator;
    if todo != [] {
      var f := todo[0];
      MemberMerges(v, f, fields, acc, s, rd);
      if IsDiscriminator(f, fields) {
        TagAddsNothing(v, f, fields, s, rd);
      } else {
        assert f in todo;
        MemberKeys(v, f, fields, s, rd, k);
        var i :| 0 <= i < |fields| && fields[i] == f;
      }
      KeysAdd(v, todo[1..], fields, CanonMember(v, f, fields, acc, s, rd).value, s, rd, k);
    }
  }
}
