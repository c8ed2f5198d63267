/** Which error `from_json` reports for what it refuses. */
module BuildErrors {
  import opened Wrappers
  import opened Floats
  import opened Bytes
  import opened Schema
  import opened Scalars
  import opened StructLayout
  import opened Buffer
  import opened FromJson
  import opened BuildFacts
  import J = Json
  import Text

  // Numbers.

  /** An integer field calls a JSON integer of its sign out of range, and everything else a mismatch. */
  lemma {:induction false} IntegerErrors(st: ScalarType, v: J.Value)
    requires IsInteger(st) && EncodeScalar(st, None, v).Err?
    ensures EncodeScalar(st, None, v) ==
            if v.Num? && v.num.Int? && (if IsSigned(st) then v.num.n < 0x8000_0000_0000_0000 else v.num.n >= 0)
            then Err(IntegerOutOfRange) else Err(TypeMismatch)
  {
    if v.Num? && v.num.Int? {
      if IsSigned(st) { SignedAreExact(st, v.num.n); }
    } else if v.Num? && IsSigned(st) {
      IntegralFloatsAreExact(st, v.num.f);
      FloatError(st, v);
    }
  }

  lemma {:induction false} FloatError(st: ScalarType, v: J.Value)
    requires IsSigned(st) && v.Num? && v.num.Float? && DecodeSigned(v, MinInt(st), MaxInt(st)).Err?
    ensures DecodeSigned(v, MinInt(st), MaxInt(st)) == Err(TypeMismatch)
  {
    hide Integral, RoundToDouble, OfInt;
    SmallBounds(st);
    CastBounds();
  }

  // Structs.

  predicate HasStranger(m: map<string, J.Value>, def: StructDef) {
    exists k :: k in m && forall i :: 0 <= i < |def.fields| ==> def.fields[i].name != k
  }

  /**
   For a struct only an object will do; a key that is no field comes first, and then the first field that is
   missing, `null` or refused.
   */
  lemma {:induction false} StructErrors(v: J.Value, def: StructDef) returns (i: nat)
    requires StructBytes(v, def).Err?
    ensures !v.Obj? ==> StructBytes(v, def) == Err(TypeMismatch)
    ensures v.Obj? && HasStranger(v.m, def) ==> StructBytes(v, def) == Err(UnknownField)
    ensures v.Obj? && !HasStranger(v.m, def) ==>
              && i < |def.fields| && !Accepts(v.m, def.fields[i])
                && (forall j :: 0 <= j < i ==> Accepts(v.m, def.fields[j]))
              && StructBytes(v, def) == Err(FieldError(v.m, def.fields[i]))
  {
    hide FieldBytes, FillFields;
    i := 0;
    if v.Obj? && !HasStranger(v.m, def) {
      assert forall k :: k in v.m ==> k in StructNames(def.fields);
      i := FirstRefused(v.m, def.fields, Zeros(def.bytesize));
    } else if v.Obj? {
      var k :| k in v.m && forall i :: 0 <= i < |def.fields| ==> def.fields[i].name != k;
      assert k !in StructNames(def.fields);
    }
  }

  /** What a refused field reports. */
  function FieldError(m: map<string, J.Value>, f: StructField): BuildError
    requires !Accepts(m, f)
  {
    if f.name !in m || m[f.name].Null? then MissingRequiredField else FieldBytes(f.typ, m[f.name]).error
  }

  lemma {:induction false} FirstRefused(m: map<string, J.Value>, fields: seq<StructField>, buf: seq<byte>)
    returns (i: nat)
    requires FillFields(m, fields, buf).Err?
    ensures i < |fields| && !Accepts(m, fields[i]) && forall j :: 0 <= j < i ==> Accepts(m, fields[j])
    ensures FillFields(m, fields, buf) == Err(FieldError(m, fields[i]))
    decreases |fields|
  {
    hide FieldBytes, Splice;
    if Accepts(m, fields[0]) {
      var part := FieldBytes(fields[0].typ, m[fields[0].name]).value;
      var k := FirstRefused(m, fields[1..], Splice(buf, fields[0].offset, part));
      i := k + 1;
      forall j | 0 <= j < i ensures Accepts(m, fields[j]) {
        if j > 0 { assert fields[j] == fields[1..][j - 1]; }
      }
    } else {
      i := 0;
    }
  }

  /** A fixed array of another length is out of range; otherwise the first refused element decides. */
  lemma {:induction false} ArrayErrors(t: StructFieldType, v: J.Value) returns (i: nat)
    requires (t.SScalarArray? || t.SStructArray?) && FieldBytes(t, v).Err?
    ensures !v.Arr? ==> FieldBytes(t, v) == Err(TypeMismatch)
    ensures v.Arr? && |v.items| != t.len ==> FieldBytes(t, v) == Err(IntegerOutOfRange)
    ensures v.Arr? && |v.items| == t.len ==>
              && i < t.len && (forall j :: 0 <= j < i ==> OneElement(t, v.items[j]).Ok?)
              && OneElement(t, v.items[i]).Err? && FieldBytes(t, v) == Err(OneElement(t, v.items[i]).error)
  {
    hide OneElement, ElementBytes;
    i := 0;
    if v.Arr? && |v.items| == t.len { i := FirstElement(t, v.items); }
  }

  lemma {:induction false} FirstElement(t: StructFieldType, items: seq<J.Value>) returns (i: nat)
    requires (t.SScalarArray? || t.SStructArray?) && ElementBytes(t, items).Err?
    ensures i < |items| && (forall j :: 0 <= j < i ==> OneElement(t, items[j]).Ok?)
    ensures OneElement(t, items[i]).Err? && ElementBytes(t, items) == Err(OneElement(t, items[i]).error)
    decreases |items|
  {
    hide OneElement;
    var n := |items| - 1;
    if ElementBytes(t, items[..n]).Err? {
      i := FirstElement(t, items[..n]);
    } else {
      i := n;
      AllElementsTaken(t, items[..n]);
    }
  }

  // Struct sizes.

  /**
   A struct that could be taken is still refused if its size cannot be written, as a field, a variant and
   an element.
   */
  lemma {:induction false} SizesAreChecked(x: J.Value, f: Field, def: StructDef, slots: map<nat, Val>, s: Schema,
                                           depth: nat, o: Options)
    requires f.typ == Struct(def) && StructBytes(x, def).Ok?
    ensures def.minalign == 0 ==>
              EncPresent(x, f, s, depth, o) == Err(Internal)
                && EncVariant(x, VStruct(def), s, depth, o) == Err(Internal)
    ensures def.minalign != 0 && !Dispatchable(def.bytesize, def.minalign) ==>
              && EncPresent(x, f, s, depth, o).Ok? && EncVariant(x, VStruct(def), s, depth, o) == Err(Unsupported)
              && WriteSlot(Pending(f.offset, EncPresent(x, f, s, depth, o).value), slots) == Err(Unsupported)
  {
    hide StructBytes, Dispatchable;
  }

  /** A struct vector reports the alignment, then the first refused element, then the size, then the count. */
  lemma {:induction false} StructVectorErrors(x: J.Value, def: StructDef, hex: bool, s: Schema, depth: nat, o: Options)
    returns (i: nat)
    requires x.Arr? && depth <= o.maxDepth && EncVector(x, EStruct(def), hex, s, depth, o).Err?
    ensures var r := EncVector(x, EStruct(def), hex, s, depth, o);
            if def.minalign == 0 then r == Err(Internal)
            else if forall j :: 0 <= j < |x.items| ==> StructBytes(x.items[j], def).Ok? then
              r == Err(if Dispatchable(def.bytesize, def.minalign) then Internal else Unsupported)
            else
              && i < |x.items| && (forall j :: 0 <= j < i ==> StructBytes(x.items[j], def).Ok?)
              && StructBytes(x.items[i], def).Err? && r == Err(StructBytes(x.items[i], def).error)
  {
    hide EncStructs, StructBytes, Dispatchable, EncTables, EncKeyed, EncScalars;
    i := 0;
    AllStructsTaken(x.items, def);
    if EncStructs(x.items, def).Err? { i := FirstStruct(x.items, def); }
  }

  lemma {:induction false} FirstStruct(items: seq<J.Value>, def: StructDef) returns (i: nat)
    requires EncStructs(items, def).Err?
    ensures i < |items| && (forall j :: 0 <= j < i ==> StructBytes(items[j], def).Ok?)
    ensures StructBytes(items[i], def).Err? && EncStructs(items, def) == Err(StructBytes(items[i], def).error)
    decreases |items|
  {
    hide StructBytes;
    var n := |items| - 1;
    if EncStructs(items[..n], def).Err? {
      i := FirstStruct(items[..n], def);
    } else {
      i := n;
      AllStructsTaken(items[..n], def);
    }
  }

  // Elements.

  /** The value of one element of a vector of scalars, strings or tables, on its own. */
  function Element(x: J.Value, el: ElementType, s: Schema, depth: nat, o: Options): Built
    requires el.EScalar? || el.EString? || el.ETable?
  {
    match el
    case EScalar(st, en) =>
      (match EncodeScalar(st, if st.Int? then en else None, x)
       case Ok(sc) => Ok(ScalarVal(sc))
       case Err(e) => Err(e))
    case EString => if x.Str? then Ok(StringVal(x.s)) else Err(TypeMismatch)
    case ETable(t) => EncTable(x, t, s, depth + 1, o)
  }

  /** The items taken one by one, or the error of the first that is refused, which is number `i`. */
  predicate Itemwise(items: seq<J.Value>, el: ElementType, s: Schema, depth: nat, o: Options, i: nat,
                     r: Result<seq<Val>, BuildError>)
    requires el.EScalar? || el.EString? || el.ETable?
  {
    match r
    case Ok(ws) =>
      |ws| == |items| && forall j :: 0 <= j < |items| ==> Element(items[j], el, s, depth, o) == Ok(ws[j])
    case Err(e) =>
      && i < |items| && (forall j :: 0 <= j < i ==> Element(items[j], el, s, depth, o).Ok?)
      && Element(items[i], el, s, depth, o) == Err(e)
  }

  /** Such a vector is its elements one by one, or reports the first that is refused. */
  lemma {:induction false} ElementsExactly(x: J.Value, el: ElementType, hex: bool, s: Schema, depth: nat, o: Options)
    returns (i: nat)
    requires x.Arr? && depth <= o.maxDepth
      && ((el.EScalar? && !el.st.UByte? && !el.st.UType?) || el.EString? || el.ETable?)
    ensures var r := EncVector(x, el, hex, s, depth, o);
            && (r.Ok? ==> r.value.VectorVal?)
            && Itemwise(x.items, el, s, depth, o, i, if r.Ok? then Ok(r.value.items) else Err(r.error))
  {
    hide EncScalars, EncStrings, EncTables, Itemwise;
    match el {
      case EScalar(st, en) => i := ScalarItems(x.items, el, s, depth, o);
      case EString => i := StringItems(x.items, el, s, depth, o);
      case ETable(t) =>
        ItemHeights(x);
        i := TableItems(x.items, el, s, depth, o, J.Height(x));
    }
  }

  function Appended(init: Result<seq<Val>, BuildError>, last: Built): Result<seq<Val>, BuildError> {
    if init.Err? then init else if last.Err? then Err(last.error) else Ok(init.value + [last.value])
  }

  lemma {:induction false} ItemwiseStep(items: seq<J.Value>, el: ElementType, s: Schema, depth: nat, o: Options,
                                        i: nat, init: Result<seq<Val>, BuildError>)
    requires items != [] && (el.EScalar? || el.EString? || el.ETable?)
    requires Itemwise(items[..|items| - 1], el, s, depth, o, i, init)
    ensures var n := |items| - 1;
            Itemwise(items, el, s, depth, o, if init.Ok? then n else i,
                     Appended(init, Element(items[n], el, s, depth, o)))
  {
    hide Element;
  }

  lemma {:induction false} ScalarItems(items: seq<J.Value>, el: ElementType, s: Schema, depth: nat, o: Options)
    returns (i: nat)
    requires el.EScalar?
    ensures Itemwise(items, el, s, depth, o, i, EncScalars(items, el.st, ElementEnum(el.st, el.en)))
    decreases |items|
  {
    hide EncodeScalar, Itemwise;
    if items == [] {
      i := NoItems(el, s, depth, o);
    } else {
      var n := |items| - 1;
      i := ScalarItems(items[..n], el, s, depth, o);
      var init := EncScalars(items[..n], el.st, ElementEnum(el.st, el.en));
      ItemwiseStep(items, el, s, depth, o, i, init);
      i := if init.Ok? then n else i;
    }
  }

  lemma {:induction false} StringItems(items: seq<J.Value>, el: ElementType, s: Schema, depth: nat, o: Options)
    returns (i: nat)
    requires el.EString?
    ensures Itemwise(items, el, s, depth, o, i, EncStrings(items))
    decreases |items|
  {
    hide Itemwise;
    if items == [] {
      i := NoItems(el, s, depth, o);
    } else {
      var n := |items| - 1;
      i := StringItems(items[..n], el, s, depth, o);
      ItemwiseStep(items, el, s, depth, o, i, EncStrings(items[..n]));
      i := if EncStrings(items[..n]).Ok? then n else i;
    }
  }

  lemma {:induction false} TableItems(items: seq<J.Value>, el: ElementType, s: Schema, depth: nat, o: Options,
                                      bound: nat)
    returns (i: nat)
    requires el.ETable? && forall j :: 0 <= j < |items| ==> J.Height(items[j]) < bound
    ensures Itemwise(items, el, s, depth, o, i, EncTables(items, el.index, s, depth + 1, o, bound))
    decreases |items|
  {
    hide EncTable, Itemwise;
    if items == [] {
      i := NoItems(el, s, depth, o);
    } else {
      var n := |items| - 1;
      i := TableItems(items[..n], el, s, depth, o, bound);
      var init := EncTables(items[..n], el.index, s, depth + 1, o, bound);
      ItemwiseStep(items, el, s, depth, o, i, init);
      i := if init.Ok? then n else i;
    }
  }

  lemma {:induction false} NoItems(el: ElementType, s: Schema, depth: nat, o: Options) returns (i: nat)
    requires el.EScalar? || el.EString? || el.ETable?
    ensures Itemwise([], el, s, depth, o, i, Ok([]))
  {
    i := 0;
  }

  // Keys.

  /** The member that an object key stands for. */
  function KeyMember(typ: FieldType, k: string): J.Value
    requires typ.String? || Text.ParseI64(k).Some?
  {
    if typ.String? then J.Str(k) else J.Num(J.Int(Text.ParseI64(k).value))
  }

  /** A row must be an object, its key one the field can hold, and its key member, if given, that key. */
  lemma {:induction false} RowErrors(m: map<string, J.Value>, k: string, kf: Field)
    requires k in m
    ensures var r := OneEntry(m, k, kf);
            if !m[k].Obj? then r == Err(TypeMismatch)
            else if !TakesKeys(kf.typ) then r == Err(Unsupported)
            else if kf.typ.Scalar? && Text.ParseI64(k).None? then r == Err(TypeMismatch)
            else if kf.name in m[k].m && m[k].m[kf.name] != KeyMember(kf.typ, k) then r == Err(TypeMismatch)
            else r.Ok? && r.value.row == J.Obj(m[k].m[kf.name := KeyMember(kf.typ, k)])
  {
    hide Text.ParseI64, J.Height;
    if m[k].Obj? && TakesKeys(kf.typ) && (kf.typ.String? || Text.ParseI64(k).Some?) && kf.name in m[k].m {
      assert m[k].m[kf.name := m[k].m[kf.name]] == m[k].m;
    }
  }

  /** Of several refused rows the one with the least key is reported. */
  lemma {:induction false} KeyedErrors(x: J.Value, t: nat, kf: Field, s: Schema, depth: nat, o: Options)
    returns (k: string)
    requires x.Obj? && depth <= o.maxDepth && exists k' :: k' in x.m && OneEntry(x.m, k', kf).Err?
    ensures k in x.m && OneEntry(x.m, k, kf).Err?
    ensures forall k' :: k' in x.m && OneEntry(x.m, k', kf).Err? ==> k' == k || Text.Less(k, k')
    ensures EncKeyed(x, t, kf, s, depth, o) == Err(OneEntry(x.m, k, kf).error)
  {
    hide OneEntry, EncTables, KeyedEntries, Text.SortedKeys;
    var keys := Text.SortedKeys(x.m.Keys);
    var k' :| k' in x.m && OneEntry(x.m, k', kf).Err?;
    var at :| 0 <= at < |keys| && keys[at] == k';
    var i := FirstRow(x.m, keys, kf);
    k := keys[i];
    forall k' | k' in x.m && OneEntry(x.m, k', kf).Err? ensures k' == k || Text.Less(k, k') {
      var j :| 0 <= j < |keys| && keys[j] == k';
      assert !(j < i);
    }
  }

  lemma {:induction false} FirstRow(m: map<string, J.Value>, keys: seq<string>, kf: Field) returns (i: nat)
    requires forall k :: k in keys ==> k in m
    requires exists j :: 0 <= j < |keys| && OneEntry(m, keys[j], kf).Err?
    ensures i < |keys| && (forall j :: 0 <= j < i ==> OneEntry(m, keys[j], kf).Ok?)
    ensures OneEntry(m, keys[i], kf).Err? && KeyedEntries(m, keys, kf) == Err(OneEntry(m, keys[i], kf).error)
    decreases |keys|
  {
    hide OneEntry;
    var n := |keys| - 1;
    if exists j :: 0 <= j < |keys[..n]| && OneEntry(m, keys[..n][j], kf).Err? {
      i := FirstRow(m, keys[..n], kf);
    } else {
      i := n;
      assert forall j :: 0 <= j < n ==> keys[..n][j] == keys[j];
      EarlierRows(m, keys[..n], kf);
    }
  }

  lemma {:induction false} EarlierRows(m: map<string, J.Value>, keys: seq<string>, kf: Field)
    requires forall k :: k in keys ==> k in m
    requires forall j :: 0 <= j < |keys| ==> OneEntry(m, keys[j], kf).Ok?
    ensures KeyedEntries(m, keys, kf).Ok?
    decreases |keys|
  {
    hide OneEntry;
    if keys != [] { EarlierRows(m, keys[..|keys| - 1], kf); }
  }

  // Unions.

  /** A required union needs its tag, and a variant a value of one byte and a type. */
  lemma {:induction false} UnionErrors(v: J.Value, f: Field, x: Variant, s: Schema, depth: nat, o: Options)
    requires v.Obj? && f.typ.Union?
    ensures f.name + "_type" !in v.m && (f.name !in v.m || v.m[f.name].Null?) ==>
              EncField(v, f, s, depth, o) == if f.required then Err(MissingRequiredField) else Ok(None)
    ensures f.name + "_type" in v.m && v.m[f.name + "_type"] == J.Str(x.name)
            && IsFirst(f.typ.variants, (y: Variant) => y.name == x.name, Some(x))
            && (x.value < 0 || x.value > 255 || (x.value > 0 && x.typ.None?)) ==>
              EncField(v, f, s, depth, o) == Err(Internal)
  {
    hide EncVariant, VariantByName;
    VariantNamed(f.typ.variants, x.name);
    if IsFirst(f.typ.variants, (y: Variant) => y.name == x.name, Some(x)) {
      FirstIsUnique(f.typ.variants, (y: Variant) => y.name == x.name, VariantByName(f.typ.variants, x.name), Some(x));
    }
  }

  /** The variant that the tag names takes the value as the string, table or struct it is. */
  lemma {:induction false} VariantsExactly(v: J.Value, f: Field, x: Variant, s: Schema, depth: nat, o: Options)
    requires v.Obj? && f.typ.Union? && f.name in v.m && f.name + "_type" in v.m
      && v.m[f.name + "_type"] == J.Str(x.name)
    requires IsFirst(f.typ.variants, (y: Variant) => y.name == x.name, Some(x)) && 0 < x.value < 256 && x.typ.Some?
    ensures var (r, y) := (EncField(v, f, s, depth, o), v.m[f.name]);
            match x.typ.value
            case VString =>
              r == if y.Str? then Ok(Some(PushUnion(x.value, Some(StringVal(y.s))))) else Err(TypeMismatch)
            case VTable(i) =>
              var w := EncTable(y, i, s, depth + 1, o);
              r == if w.Ok? then Ok(Some(PushUnion(x.value, Some(w.value)))) else Err(w.error)
            case VStruct(def) =>
              var bytes := StructBytes(y, def);
              if bytes.Err? then r == Err(bytes.error)
              else if def.minalign != 0 && Dispatchable(def.bytesize, def.minalign) then
                r == Ok(Some(PushUnion(x.value, Some(StructVal(bytes.value)))))
              else r.Err?
  {
    hide EncTable, StructBytes, Dispatchable, EncUnion;
    PairOfVariant(v, f.name, f.typ.variants, x, s, depth + 1, o);
  }

  lemma {:induction false} PairOfVariant(v: J.Value, name: string, variants: seq<Variant>, x: Variant, s: Schema,
                                         depth: nat, o: Options)
    requires v.Obj? && name in v.m && name + "_type" in v.m && v.m[name + "_type"] == J.Str(x.name)
    requires IsFirst(variants, (y: Variant) => y.name == x.name, Some(x)) && 0 < x.value < 256 && x.typ.Some?
    ensures var (r, w) := (EncUnion(v, name, variants, s, depth, o), EncVariant(v.m[name], x.typ.value, s, depth, o));
            r == if w.Ok? then Ok(Some(PushUnion(x.value, Some(w.value)))) else Err(w.error)
  {
    hide EncVariant, VariantByName;
    VariantNamed(variants, x.name);
    FirstIsUnique(variants, (y: Variant) => y.name == x.name, VariantByName(variants, x.name), Some(x));
  }
}
