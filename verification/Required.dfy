/** What `required` guarantees of a built table, and where it does not reach. */
module Required {
  import opened Wrappers
  import opened Schema
  import opened Scalars
  import opened Buffer
  import opened StructLayout
  import opened FromJson
  import opened ToJson
  import opened WritePhase
  import U = Unions
  import R = RoundTrip
  import J = Json

  /** A required string, struct, table or vector is in every table that builds. */
  lemma {:induction false} RequiredIsPresent(v: J.Value, t: nat, s: Schema, depth: nat, o: Options, k: nat)
    requires EncTable(v, t, s, depth, o).Ok? && GoodTable(TableAt(s, t)) && k < |TableAt(s, t).fields|
    requires var f := TableAt(s, t).fields[k]; f.required && !f.typ.Scalar? && !f.typ.Union?
    ensures var w := EncTable(v, t, s, depth, o).value; w.TableVal? && TableAt(s, t).fields[k].offset in w.slots
  {
    hide *;
    var f := TableAt(s, t).fields[k];
    R.TableParts(v, t, s, depth, o);
    SlotOfField(v, t, s, depth, o, k);
    RequiredIsPushed(v, f, s, depth, o);
    InSlots(EncTable(v, t, s, depth, o).value.slots, f.offset);
  }

  lemma {:induction false} RequiredIsPushed(v: J.Value, f: Field, s: Schema, depth: nat, o: Options)
    requires v.Obj? && f.required && !f.typ.Scalar? && !f.typ.Union? && EncField(v, f, s, depth, o).Ok?
    ensures EncField(v, f, s, depth, o).value.Some?
    ensures Effect(Pending(f.offset, EncField(v, f, s, depth, o).value.value), f.offset).Some?
  {
    hide EncTable, EncVector, StructBytes;
  }

  lemma {:induction false} InSlots(slots: map<nat, Val>, o: nat)
    ensures o in slots <==> Lookup(slots, o).Some?
  {
  }

  /**
   A required union must be mentioned, but a document may mention it as NONE: then the tag field is
   accepted and the table builds without the value. It is there exactly when the tag is not NONE.
   */
  lemma {:induction false} RequiredUnion(v: J.Value, t: nat, s: Schema, depth: nat, o: Options, k: nat)
    requires EncTable(v, t, s, depth, o).Ok? && GoodTable(TableAt(s, t)) && k < |TableAt(s, t).fields|
    requires var f := TableAt(s, t).fields[k]; f.required && f.typ.Union?
    ensures var f := TableAt(s, t).fields[k]; var w := EncTable(v, t, s, depth, o).value; var tag := DiscKey(f.name);
            && w.TableVal? && v.Obj? && tag in v.m && v.m[tag].Str? && VariantByName(f.typ.variants, v.m[tag].s).Some?
            && (f.offset in w.slots <==> VariantByName(f.typ.variants, v.m[tag].s).value.value != 0)
  {
    hide *;
    var f := TableAt(s, t).fields[k];
    U.PushOfUnion(v, t, s, depth, o, k);
    SlotsOfUnion(v, t, s, depth, o, k);
    RequiredUnionPushed(v, f, s, depth, o);
    UnionPush(v, f, s, depth + 1, o);
    InSlots(EncTable(v, t, s, depth, o).value.slots, f.offset);
  }

  lemma {:induction false} RequiredUnionPushed(v: J.Value, f: Field, s: Schema, depth: nat, o: Options)
    requires v.Obj? && f.required && f.typ.Union? && EncField(v, f, s, depth, o).Ok?
    ensures EncField(v, f, s, depth, o).value.Some?
  {
    hide EncUnion;
  }
}
