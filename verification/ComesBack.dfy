/** A document that is kept is also accepted again, given levels enough: two for each level of its nesting. */
module ComesBack {
  import opened Schema
  import opened KeyText
  import opened FromJson
  import opened Canon
  import opened Idempotence
  import opened RowKeys
  import opened Reencode
  import opened FixedPoints
  import J = Json

  lemma {:induction false} KeptReturns(v: J.Value, t: nat, s: Schema, rd: KeyReader, budget: nat)
    requires Kept(v, t, s, rd) && 2 * J.Height(v) <= budget
    ensures Returns(v, t, s, rd, budget)
    decreases J.Height(v), 2
  {
    hide TableAt, KeptAt, ReturnsAt, J.Height;
    var fields := TableAt(s, t).fields;
    forall i | 0 <= i < |fields| ensures ReturnsAt(v, fields[i], s, rd, budget) {
      MemberReturns(v, fields[i], s, rd, budget);
    }
  }

  lemma {:induction false} MemberReturns(v: J.Value, f: Field, s: Schema, rd: KeyReader, budget: nat)
    requires v.Obj? && KeptAt(v, f, s, rd) && 2 * J.Height(v) <= budget
    ensures ReturnsAt(v, f, s, rd, budget)
    decreases J.Height(v), 1
  {
    hide ActiveTable, Kept, KeptValue, Returns, ReturnsValue, DefaultReturns, J.Height;
    if f.typ.Union? {
      var t := ActiveTable(v.m, f.name, f.typ.variants);
      if t.Some? {
        ActiveIsThere(v.m, f.name, f.typ.variants);
        J.MemberHeight(v.m, f.name);
        KeptReturns(v.m[f.name], t.value, s, rd, budget - 1);
      }
    } else if J.Present(v.m, f.name).Some? {
      J.MemberHeight(v.m, f.name);
      ValueReturns(v.m[f.name], f, s, rd, budget);
    }
  }

  lemma {:induction false} ActiveIsThere(m: map<string, J.Value>, name: string, variants: seq<Variant>)
    ensures ActiveTable(m, name, variants).Some? ==> name in m
  {
    hide VariantByName;
  }

  lemma {:induction false} ValueReturns(x: J.Value, f: Field, s: Schema, rd: KeyReader, budget: nat)
    requires KeptValue(x, f.typ, s, rd) && 2 * J.Height(x) + 2 <= budget
    ensures ReturnsValue(x, f, s, rd, budget)
    decreases J.Height(x), 4
  {
    hide Kept, KeptRows, Returns, ReturnsTables, J.Height;
    match f.typ {
      case Table(t) => KeptReturns(x, t, s, rd, budget - 1);
      case Vector(ETable(t)) => RowsReturn(x, t, s, rd, budget - 1);
      case _ =>
    }
  }

  lemma {:induction false} RowsReturn(x: J.Value, t: nat, s: Schema, rd: KeyReader, budget: nat)
    requires KeptRows(x, t, s, rd) && 2 * J.Height(x) + 1 <= budget
    ensures ReturnsTables(x, t, s, rd, budget)
    decreases J.Height(x), 3
  {
    hide Kept, KeyReturns, Returns, CanonInput, IsLast, KeyedField, TableAt, J.Height;
    match KeyedField(TableAt(s, t).fields) {
      case Some(kf) =>
        if (x.Arr? || x.Obj?) && CanonInput(x, kf).Ok? {
          var rows := CanonInput(x, kf).value;
          forall i | 0 <= i < |rows| && IsLast(rows, i, kf, rd) ensures Returns(rows[i], t, s, rd, budget - 2) {
            KeptReturns(rows[i], t, s, rd, budget - 2);
          }
        }
      case None =>
        if x.Arr? {
          ItemHeights(x);
          forall i | 0 <= i < |x.items| ensures Returns(x.items[i], t, s, rd, budget - 1) {
            KeptReturns(x.items[i], t, s, rd, budget - 1);
          }
        }
    }
  }
}
