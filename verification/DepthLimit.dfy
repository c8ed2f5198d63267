/**
 Depth accounting of `from_json`. Every table and vector checks its depth on entry, so the limit a document needs
 is a function of it: a sub-table, union table or vector costs one, a table in an array two, a keyed row three.
 */
module DepthLimit {
  import opened Wrappers
  import opened Schema
  import opened Scalars
  import opened StructLayout
  import opened Bytes
  import opened Blobs
  import opened Buffer
  import opened FromJson
  import J = Json
  import Text

  function Max(a: nat, b: nat): nat {
    if a > b then a else b
  }

  /** Levels a table document needs below its own. */
  function TableCost(v: J.Value, t: nat, s: Schema): nat
    decreases J.Height(v), 3, 0
  {
    if !v.Obj? then 0 else MembersCost(v, TableAt(s, t).fields, s)
  }

  function MembersCost(v: J.Value, fields: seq<Field>, s: Schema): nat
    requires v.Obj?
    decreases J.Height(v), 2, |fields|
  {
    if fields == [] then 0 else Max(MemberCost(v, fields[0], s), MembersCost(v, fields[1..], s))
  }

  function MemberCost(v: J.Value, f: Field, s: Schema): nat
    requires v.Obj?
    decreases J.Height(v), 1, 0
  {
    if f.name !in v.m then 0
    else
      J.MemberHeight(v.m, f.name);
      match f.typ
      case Table(t) => if v.m[f.name].Null? then 0 else 1 + TableCost(v.m[f.name], t, s)
      case Vector(el) => if v.m[f.name].Null? then 0 else 1 + VectorCost(v.m[f.name], el, s)
      case Union(variants) =>
        (match ChosenVariant(v.m, f.name, variants)
         case Some(VTable(t)) => 1 + TableCost(v.m[f.name], t, s)
         case _ => 0)
      case _ => 0
  }

  /** The type of the variant a document's tag names. */
  function ChosenVariant(m: map<string, J.Value>, name: string, variants: seq<Variant>): Option<VariantType> {
    if DiscKey(name) in m && m[DiscKey(name)].Str? then
      match VariantByName(variants, m[DiscKey(name)].s)
      case Some(variant) => if 0 < variant.value <= 0xFF then variant.typ else None
      case None => None
    else None
  }

  function VectorCost(x: J.Value, el: ElementType, s: Schema): nat
    decreases J.Height(x), 3, 0
  {
    if !el.ETable? then 0
    else
      var kf := KeyedField(TableAt(s, el.index).fields);
      if x.Obj? && kf.Some? then
        KeyedCost(x, el.index, kf.value, s)
      else if x.Arr? then
        ItemHeights(x);
        RowsCost(x.items, el.index, s, J.Height(x))
      else 0
  }

  function RowsCost(rows: seq<J.Value>, t: nat, s: Schema, ghost bound: nat): nat
    requires forall i :: 0 <= i < |rows| ==> J.Height(rows[i]) < bound
    decreases bound, 1, |rows|
  {
    if rows == [] then 0
    else Max(RowsCost(rows[..|rows| - 1], t, s, bound), 1 + TableCost(rows[|rows| - 1], t, s))
  }

  /**
   `r` is built under a budget and `r'` under a larger one: within the budget nothing changes, beyond it
   the build fails.
   */
  predicate Accounted<T(==)>(cost: nat, budget: int, r: Result<T, BuildError>, r': Result<T, BuildError>) {
    && (cost <= budget ==> r == r' && r != Err(NestingTooDeep))
    && (cost > budget ==> r.Err?)
  }

  predicate Larger(o: Options, o': Options) {
    o.maxDepth <= o'.maxDepth && o.unknownIsError == o'.unknownIsError
  }

  lemma {:induction false} TableDepth(v: J.Value, t: nat, s: Schema, depth: nat, o: Options, o': Options)
    requires Larger(o, o')
    ensures Accounted(TableCost(v, t, s), o.maxDepth - depth, EncTable(v, t, s, depth, o), EncTable(v, t, s, depth, o'))
    decreases J.Height(v), 3, 0
  {
    hide *;
    if v.Obj? && depth <= o.maxDepth {
      MembersDepth(v, TableAt(s, t).fields, s, depth, o, o');
    }
    TableOfMembers(v, t, s, depth, o, o');
  }

  lemma {:induction false} TableOfMembers(v: J.Value, t: nat, s: Schema, depth: nat, o: Options, o': Options)
    requires Larger(o, o')
    requires v.Obj? && depth <= o.maxDepth ==>
      var fields := TableAt(s, t).fields;
      Accounted(MembersCost(v, fields, s), o.maxDepth - depth, EncFields(v, fields, s, depth, o),
        EncFields(v, fields, s, depth, o'))
    ensures Accounted(TableCost(v, t, s), o.maxDepth - depth, EncTable(v, t, s, depth, o), EncTable(v, t, s, depth, o'))
  {
    hide MembersCost, EncFields, WriteSlots, HasUnknownKey, TableAt;
    if v.Obj? && depth <= o.maxDepth && EncFields(v, TableAt(s, t).fields, s, depth, o).Ok? {
      WritesNeverNest(EncFields(v, TableAt(s, t).fields, s, depth, o).value, map[]);
    }
  }

  lemma {:induction false} WritesNeverNest(pending: seq<Pending>, slots: map<nat, Val>)
    ensures WriteSlots(pending, slots) != Err(NestingTooDeep)
  {
    if pending != [] && WriteSlot(pending[0], slots).Ok? {
      WritesNeverNest(pending[1..], WriteSlot(pending[0], slots).value);
    }
  }

  lemma {:induction false} MembersDepth(v: J.Value, fields: seq<Field>, s: Schema, depth: nat, o: Options, o': Options)
    requires Larger(o, o') && v.Obj? && depth <= o.maxDepth
    ensures Accounted(MembersCost(v, fields, s), o.maxDepth - depth, EncFields(v, fields, s, depth, o),
      EncFields(v, fields, s, depth, o'))
    decreases J.Height(v), 2, |fields|
  {
    hide MemberCost, EncField, ToPending, Larger;
    if fields != [] {
      MemberDepth(v, fields[0], s, depth, o, o');
      MembersDepth(v, fields[1..], s, depth, o, o');
    }
  }

  lemma {:induction false} MemberDepth(v: J.Value, f: Field, s: Schema, depth: nat, o: Options, o': Options)
    requires Larger(o, o') && v.Obj? && depth <= o.maxDepth
    ensures Accounted(MemberCost(v, f, s), o.maxDepth - depth, EncField(v, f, s, depth, o),
      EncField(v, f, s, depth, o'))
    decreases J.Height(v), 1, 0
  {
    hide EncPresent, EncTable, EncVector, EncVariant, TableCost, VectorCost, Larger;
    if f.name in v.m {
      J.MemberHeight(v.m, f.name);
      if f.typ.Union? {
        match ChosenVariant(v.m, f.name, f.typ.variants) {
          case Some(t) => VariantDepth(v.m[f.name], t, s, depth + 1, o, o');
          case None =>
        }
      } else {
        PresentDepth(v.m[f.name], f, s, depth, o, o');
      }
    }
  }

  lemma {:induction false} VariantDepth(x: J.Value, t: VariantType, s: Schema, depth: nat, o: Options, o': Options)
    requires Larger(o, o')
    ensures t.VTable? ==> Accounted(TableCost(x, t.index, s), o.maxDepth - depth, EncVariant(x, t, s, depth, o),
      EncVariant(x, t, s, depth, o'))
    ensures !t.VTable? ==> EncVariant(x, t, s, depth, o) == EncVariant(x, t, s, depth, o') != Err(NestingTooDeep)
    decreases J.Height(x), 4, 0
  {
    hide EncTable, TableCost, StructBytes, Larger;
    match t {
      case VTable(i) => TableDepth(x, i, s, depth, o, o');
      case VStruct(def) => StructsNeverNest(x, def);
      case VString =>
    }
  }

  lemma {:induction false} PresentDepth(x: J.Value, f: Field, s: Schema, depth: nat, o: Options, o': Options)
    requires Larger(o, o')
    ensures match f.typ
            case Table(t) => Accounted(1 + TableCost(x, t, s), o.maxDepth - depth, EncPresent(x, f, s, depth, o),
              EncPresent(x, f, s, depth, o'))
            case Vector(el) => Accounted(1 + VectorCost(x, el, s), o.maxDepth - depth, EncPresent(x, f, s, depth, o),
              EncPresent(x, f, s, depth, o'))
            case _ => EncPresent(x, f, s, depth, o) == EncPresent(x, f, s, depth, o') != Err(NestingTooDeep)
    decreases J.Height(x), 4, 0
  {
    hide EncTable, EncVector, TableCost, VectorCost, StructBytes, EncodeScalar, Larger;
    match f.typ {
      case Table(t) => TableDepth(x, t, s, depth + 1, o, o');
      case Vector(el) => VectorDepth(x, el, f.hex, s, depth + 1, o, o');
      case Struct(def) => StructsNeverNest(x, def);
      case Scalar(st, en) => ScalarsNeverNest(st, en, x);
      case _ =>
    }
  }

  lemma {:induction false} ScalarsNeverNest(st: ScalarType, en: Option<EnumDef>, x: J.Value)
    ensures EncodeScalar(st, en, x) != Err(NestingTooDeep)
    ensures StructScalarBytes(st, en, x) != Err(NestingTooDeep)
  {
    hide FloatFallback;
  }

  lemma {:induction false} StructsNeverNest(v: J.Value, def: StructDef)
    ensures StructBytes(v, def) != Err(NestingTooDeep)
    decreases def, 1
  {
    hide FillFields;
    if v.Obj? { FillNeverNests(v.m, def.fields, Zeros(def.bytesize)); }
  }

  lemma {:induction false} FillNeverNests(m: map<string, J.Value>, fields: seq<StructField>, buf: seq<byte>)
    ensures FillFields(m, fields, buf) != Err(NestingTooDeep)
    decreases fields, 0
  {
    hide FieldBytes, Splice;
    if fields != [] {
      match J.Present(m, fields[0].name) {
        case Some(v) =>
          FieldNeverNests(fields[0].typ, v);
          if FieldBytes(fields[0].typ, v).Ok? {
            FillNeverNests(m, fields[1..], Splice(buf, fields[0].offset, FieldBytes(fields[0].typ, v).value));
          }
        case None =>
      }
    }
  }

  lemma {:induction false} FieldNeverNests(t: StructFieldType, v: J.Value)
    ensures FieldBytes(t, v) != Err(NestingTooDeep)
    decreases t, 1
  {
    hide StructBytes, ElementBytes, StructScalarBytes;
    match t {
      case SScalar(st, en) => ScalarsNeverNest(st, en, v);
      case SStruct(d) => StructsNeverNest(v, d);
      case _ => if v.Arr? { ElementsNeverNest(t, v.items); }
    }
  }

  lemma {:induction false} ElementsNeverNest(t: StructFieldType, items: seq<J.Value>)
    requires t.SScalarArray? || t.SStructArray?
    ensures ElementBytes(t, items) != Err(NestingTooDeep)
    decreases t, 0, |items|
  {
    hide StructBytes, PlainScalarBytes;
    if items != [] {
      ElementsNeverNest(t, items[..|items| - 1]);
      match t {
        case SScalarArray(st, _) => ScalarsNeverNest(st, None, items[|items| - 1]);
          assert StructScalarBytes(st, None, items[|items| - 1]) == PlainScalarBytes(st, items[|items| - 1]);
        case SStructArray(d, _) => StructsNeverNest(items[|items| - 1], d);
      }
    }
  }

  // Vectors.

  lemma {:induction false} VectorDepth(x: J.Value, el: ElementType, hex: bool, s: Schema, depth: nat, o: Options,
                                       o': Options)
    requires Larger(o, o')
    ensures Accounted(VectorCost(x, el, s), o.maxDepth - depth, EncVector(x, el, hex, s, depth, o),
      EncVector(x, el, hex, s, depth, o'))
    decreases J.Height(x), 3, 0
  {
    hide *;
    if depth > o.maxDepth {
      TooDeepVector(x, el, hex, s, depth, o, o');
    } else if !el.ETable? {
      LeafVector(x, el, hex, s, depth, o, o');
    } else {
      var kf := KeyedField(TableAt(s, el.index).fields);
      if x.Obj? && kf.Some? {
        KeyedDepth(x, el.index, kf.value, s, depth + 1, o, o');
        KeyedVector(x, el.index, kf.value, hex, s, depth, o, o');
      } else {
        if x.Arr? {
          ItemHeights(x);
          RowsDepth(x.items, el.index, s, depth + 1, o, o', J.Height(x));
        }
        ArrayVector(x, el.index, hex, s, depth, o, o');
      }
    }
  }

  lemma {:induction false} TooDeepVector(x: J.Value, el: ElementType, hex: bool, s: Schema, depth: nat, o: Options,
                                         o': Options)
    requires Larger(o, o') && depth > o.maxDepth
    ensures Accounted(VectorCost(x, el, s), o.maxDepth - depth, EncVector(x, el, hex, s, depth, o),
      EncVector(x, el, hex, s, depth, o'))
  {
    hide VectorCost;
  }

  lemma {:induction false} LeafVector(x: J.Value, el: ElementType, hex: bool, s: Schema, depth: nat, o: Options,
                                      o': Options)
    requires Larger(o, o') && depth <= o.maxDepth && !el.ETable?
    ensures Accounted(VectorCost(x, el, s), o.maxDepth - depth, EncVector(x, el, hex, s, depth, o),
      EncVector(x, el, hex, s, depth, o'))
  {
    hide EncScalars, EncStrings, EncStructs, EncByteItems, ParseBlob, Dispatchable;
    if x.Arr? { LeavesNeverNest(x.items, el); }
  }

  lemma {:induction false} LeavesNeverNest(items: seq<J.Value>, el: ElementType)
    ensures EncByteItems(items) != Err(NestingTooDeep) && EncStrings(items) != Err(NestingTooDeep)
    ensures el.EScalar? ==> EncScalars(items, el.st, ElementEnum(el.st, el.en)) != Err(NestingTooDeep)
    ensures el.EStruct? ==> EncStructs(items, el.def) != Err(NestingTooDeep)
  {
    hide EncodeScalar, StructBytes, ElementEnum;
    if items != [] {
      var n := |items| - 1;
      LeavesNeverNest(items[..n], el);
      if el.EScalar? { ScalarsNeverNest(el.st, ElementEnum(el.st, el.en), items[n]); }
      if el.EStruct? { StructsNeverNest(items[n], el.def); }
    }
  }

  lemma {:induction false} KeyedVector(x: J.Value, t: nat, kf: Field, hex: bool, s: Schema, depth: nat, o: Options,
                                       o': Options)
    requires Larger(o, o') && depth <= o.maxDepth && x.Obj? && KeyedField(TableAt(s, t).fields) == Some(kf)
    requires Accounted(KeyedCost(x, t, kf, s), o.maxDepth - depth, EncKeyed(x, t, kf, s, depth + 1, o),
      EncKeyed(x, t, kf, s, depth + 1, o'))
    ensures Accounted(VectorCost(x, ETable(t), s), o.maxDepth - depth,
                      EncVector(x, ETable(t), hex, s, depth, o), EncVector(x, ETable(t), hex, s, depth, o'))
  {
    hide EncKeyed, SortedEntries, RowsCost, KeyedField, TableAt, J.Height;
  }

  /** A keyed object: one level for itself and one for each row's table. */
  function KeyedCost(x: J.Value, t: nat, kf: Field, s: Schema): nat
    requires x.Obj?
    decreases J.Height(x), 2, 0
  {
    match SortedEntries(x, kf)
    case Err(_) => 1
    case Ok(entries) =>
      assert forall i :: 0 <= i < |entries| ==> entries[i] in entries;
      1 + RowsCost(Rows(entries), t, s, J.Height(x))
  }

  lemma {:induction false} KeyedDepth(x: J.Value, t: nat, kf: Field, s: Schema, depth: nat, o: Options, o': Options)
    requires Larger(o, o') && x.Obj? && depth <= o.maxDepth + 1
    ensures Accounted(KeyedCost(x, t, kf, s), o.maxDepth - depth + 1, EncKeyed(x, t, kf, s, depth, o),
      EncKeyed(x, t, kf, s, depth, o'))
    decreases J.Height(x), 2, 0
  {
    hide RowsCost, SortedEntries, Rows, EncTables, J.Height;
    KeysNeverNest(x, kf);
    if depth <= o.maxDepth && SortedEntries(x, kf).Ok? {
      var entries := SortedEntries(x, kf).value;
      assert forall i :: 0 <= i < |entries| ==> entries[i] in entries;
      RowsDepth(Rows(entries), t, s, depth + 1, o, o', J.Height(x));
    }
  }

  lemma {:induction false} KeysNeverNest(x: J.Value, kf: Field)
    requires x.Obj?
    ensures SortedEntries(x, kf) != Err(NestingTooDeep)
  {
    hide SortEntries, KeyedEntries, Text.SortedKeys, J.Height;
    EntriesNeverNest(x.m, Text.SortedKeys(x.m.Keys), kf);
  }

  lemma {:induction false} EntriesNeverNest(m: map<string, J.Value>, keys: seq<string>, kf: Field)
    requires forall k :: k in keys ==> k in m
    ensures KeyedEntries(m, keys, kf) != Err(NestingTooDeep)
  {
    hide J.Height, Text.ParseI64;
    if keys != [] { EntriesNeverNest(m, keys[..|keys| - 1], kf); }
  }

  lemma {:induction false} ArrayVector(x: J.Value, t: nat, hex: bool, s: Schema, depth: nat, o: Options, o': Options)
    requires Larger(o, o') && depth <= o.maxDepth && !(x.Obj? && KeyedField(TableAt(s, t).fields).Some?)
    requires x.Arr? ==> forall i :: 0 <= i < |x.items| ==> J.Height(x.items[i]) < J.Height(x)
    requires x.Arr? ==> Accounted(RowsCost(x.items, t, s, J.Height(x)), o.maxDepth - depth,
                                  EncTables(x.items, t, s, depth + 1, o, J.Height(x)),
                                    EncTables(x.items, t, s, depth + 1, o', J.Height(x)))
    ensures Accounted(VectorCost(x, ETable(t), s), o.maxDepth - depth,
                      EncVector(x, ETable(t), hex, s, depth, o), EncVector(x, ETable(t), hex, s, depth, o'))
  {
    hide EncTables, RowsCost, KeyedField, TableAt, J.Height;
  }

  lemma {:induction false} RowsDepth(rows: seq<J.Value>, t: nat, s: Schema, depth: nat, o: Options, o': Options,
                                     bound: nat)
    requires Larger(o, o') && depth <= o.maxDepth + 1
    requires forall i :: 0 <= i < |rows| ==> J.Height(rows[i]) < bound
    ensures Accounted(RowsCost(rows, t, s, bound), o.maxDepth - depth + 1,
                      EncTables(rows, t, s, depth, o, bound), EncTables(rows, t, s, depth, o', bound))
    decreases bound, 1, |rows|
  {
    hide EncTable, TableCost, J.Height;
    if rows != [] {
      RowsDepth(rows[..|rows| - 1], t, s, depth, o, o', bound);
      TableDepth(rows[|rows| - 1], t, s, depth, o, o');
    }
  }
}
