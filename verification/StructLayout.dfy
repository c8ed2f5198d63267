/**
 Structs at byte level: the in-place writers of `from_json.rs`, the readers of `to_json.rs`, and the
 proof that they are inverse on every layout whose fields are disjoint and in bounds.
 */
module StructLayout {
  import opened Wrappers
  import opened Bytes
  import opened Schema
  import opened Scalars
  import J = Json

  // Layouts.

  predicate InBounds(def: StructDef) {
    forall i :: 0 <= i < |def.fields| ==>
      && def.fields[i].offset + StructFieldSize(def.fields[i].typ) <= def.bytesize
      && TypeInBounds(def.fields[i].typ)
  }

  predicate TypeInBounds(t: StructFieldType) {
    match t
    case SStruct(d) => InBounds(d)
    case SStructArray(d, _) => InBounds(d)
    case _ => true
  }

  predicate Apart(f: StructField, g: StructField) {
    f.offset + StructFieldSize(f.typ) <= g.offset || g.offset + StructFieldSize(g.typ) <= f.offset
  }

  /** Fields in bounds and pairwise disjoint, at every nesting level. */
  predicate ValidLayout(def: StructDef) {
    && (forall i :: 0 <= i < |def.fields| ==>
      && def.fields[i].offset + StructFieldSize(def.fields[i].typ) <= def.bytesize
      && ValidType(def.fields[i].typ))
    && (forall i, j :: 0 <= i < j < |def.fields| ==> Apart(def.fields[i], def.fields[j]))
  }

  predicate ValidType(t: StructFieldType) {
    match t
    case SStruct(d) => ValidLayout(d)
    case SStructArray(d, _) => ValidLayout(d)
    case _ => true
  }

  lemma {:induction false} ValidIsInBounds(def: StructDef)
    requires ValidLayout(def)
    ensures InBounds(def)
  {
    forall i | 0 <= i < |def.fields| ensures TypeInBounds(def.fields[i].typ) {
      match def.fields[i].typ
      case SStruct(d) => ValidIsInBounds(d);
      case SStructArray(d, _) => ValidIsInBounds(d);
      case _ =>
    }
  }

  // What the writers produce.

  /** The bytes of a struct written from an object (`build_struct_bytes`). */
  function StructBytes(v: J.Value, def: StructDef): (r: Result<seq<byte>, BuildError>)
    ensures r.Ok? ==> |r.value| == def.bytesize
    decreases def, 1
  {
    if !v.Obj? then Err(TypeMismatch)
    else if exists k :: k in v.m && k !in StructNames(def.fields) then Err(UnknownField)
    else FillFields(v.m, def.fields, Zeros(def.bytesize))
  }

  function FillFields(m: map<string, J.Value>, fields: seq<StructField>, buf: seq<byte>): (r: Result<seq<byte>,
                      BuildError>)
    ensures r.Ok? ==> |r.value| == |buf|
    decreases fields, 0
  {
    if fields == [] then Ok(buf)
    else
      match J.Present(m, fields[0].name)
      case None => Err(MissingRequiredField)
      case Some(v) =>
        var part :- FieldBytes(fields[0].typ, v);
        FillFields(m, fields[1..], Splice(buf, fields[0].offset, part))
  }

  /** The bytes one field contributes (`write_struct_field`). */
  function FieldBytes(t: StructFieldType, v: J.Value): (r: Result<seq<byte>, BuildError>)
    ensures r.Ok? ==> |r.value| == StructFieldSize(t)
    decreases t, 1
  {
    match t
    case SScalar(st, en) => StructScalarBytes(st, en, v)
    case SStruct(d) => StructBytes(v, d)
    case SScalarArray(_, len) => if !v.Arr? then Err(TypeMismatch) else if |v.items| != len then Err(IntegerOutOfRange)
      else ElementBytes(t, v.items)
    case SStructArray(_, len) => if !v.Arr? then Err(TypeMismatch) else if |v.items| != len then Err(IntegerOutOfRange)
      else ElementBytes(t, v.items)
  }

  function Stride(t: StructFieldType): nat {
    match t
    case SScalarArray(st, _) => SizeOf(st)
    case SStructArray(d, _) => d.bytesize
    case _ => 0
  }

  /** Array elements one after another. */
  function ElementBytes(t: StructFieldType, items: seq<J.Value>): (r: Result<seq<byte>, BuildError>)
    requires t.SScalarArray? || t.SStructArray?
    ensures r.Ok? ==> |r.value| == Offset(|items|, Stride(t))
    decreases t, 0, |items|
  {
    if items == [] then Ok([])
    else
      var init :- ElementBytes(t, items[..|items| - 1]);
      var last :- OneElement(t, items[|items| - 1]);
      Ok(init + last)
  }

  function OneElement(t: StructFieldType, v: J.Value): (r: Result<seq<byte>, BuildError>)
    requires t.SScalarArray? || t.SStructArray?
    ensures r.Ok? ==> |r.value| == Stride(t)
    decreases t, 0, 0
  {
    match t
    case SScalarArray(st, _) => PlainScalarBytes(st, v)
    case SStructArray(d, _) => StructBytes(v, d)
  }

  /** Nothing outside the window at `loc` differs. */
  predicate SameOutside(a: seq<byte>, b: seq<byte>, loc: nat, size: nat) {
    |a| == |b| && forall i :: 0 <= i < |a| && !(loc <= i < loc + size) ==> a[i] == b[i]
  }

  // The writers, in place.

  /** `build_struct_bytes`: fill a zeroed buffer field by field. */
  method BuildStructBytes(v: J.Value, def: StructDef) returns (r: Result<seq<byte>, BuildError>)
    requires InBounds(def)
    ensures r == StructBytes(v, def)
    decreases def, 1
  {
    if !v.Obj? { return Err(TypeMismatch); }
    var bytes := new byte[def.bytesize](_ => 0);
    assert bytes[..] == Zeros(def.bytesize);
    if exists k :: k in v.m && k !in StructNames(def.fields) { return Err(UnknownField); }
    for i := 0 to |def.fields|
      invariant fresh(bytes)
      invariant StructBytes(v, def) == FillFields(v.m, def.fields[i..], bytes[..])
    {
      var field := def.fields[i];
      assert def.fields[i..][0] == field && def.fields[i..][1..] == def.fields[i + 1..];
      var value := J.Present(v.m, field.name);
      if value.None? { return Err(MissingRequiredField); }
      var w := WriteStructField(bytes, field.offset, field.typ, value.value);
      if w.Err? { return Err(w.error); }
    }
    return Ok(bytes[..]);
  }

  /**
   `write_struct_field`: on success exactly the field's window holds the field's bytes; no byte outside
   the window is ever touched.
   */
  method WriteStructField(bytes: array<byte>, loc: nat, t: StructFieldType, v: J.Value) returns (r: Result<(),
                          BuildError>)
    requires loc + StructFieldSize(t) <= bytes.Length && TypeInBounds(t)
    modifies bytes
    ensures r.Err? ==> FieldBytes(t, v) == Err(r.error)
    ensures r.Ok? ==> FieldBytes(t, v).Ok? && bytes[..] == Splice(old(bytes[..]), loc, FieldBytes(t, v).value)
    ensures SameOutside(old(bytes[..]), bytes[..], loc, StructFieldSize(t))
    decreases t, 2
  {
    match t {
      case SScalar(st, en) =>
        var part := StructScalarBytes(st, en, v);
        if part.Err? { return Err(part.error); }
        CopyFrom(bytes, loc, part.value);
      case SStruct(d) =>
        var part := BuildStructBytes(v, d);
        if part.Err? { return Err(part.error); }
        CopyFrom(bytes, loc, part.value);
      case _ =>
        r := WriteArrayInStruct(bytes, loc, t, v);
        return;
    }
    return Ok(());
  }

  /** `write_array_in_struct`: element `i` goes to `loc + i * stride`. */
  method WriteArrayInStruct(bytes: array<byte>, loc: nat, t: StructFieldType, v: J.Value) returns (r: Result<(),
                            BuildError>)
    requires t.SScalarArray? || t.SStructArray?
    requires loc + StructFieldSize(t) <= bytes.Length && TypeInBounds(t)
    modifies bytes
    ensures r.Err? ==> FieldBytes(t, v) == Err(r.error)
    ensures r.Ok? ==> FieldBytes(t, v).Ok? && bytes[..] == Splice(old(bytes[..]), loc, FieldBytes(t, v).value)
    ensures SameOutside(old(bytes[..]), bytes[..], loc, StructFieldSize(t))
    decreases t, 1
  {
    if !v.Arr? { return Err(TypeMismatch); }
    if |v.items| != t.len { return Err(IntegerOutOfRange); }
    assert v.items[..0] == [] && bytes[..] == Splice(bytes[..], loc, []);
    for i := 0 to |v.items|
      invariant ElementBytes(t, v.items[..i]).Ok?
      invariant bytes[..] == Splice(old(bytes[..]), loc, ElementBytes(t, v.items[..i]).value)
      invariant SameOutside(old(bytes[..]), bytes[..], loc, StructFieldSize(t))
    {
      var w := WriteElement(bytes, loc, t, v.items, i, old(bytes[..]));
      if w.Err? { return w; }
    }
    assert v.items[..|v.items|] == v.items;
    return Ok(());
  }

  /** One turn of the element loop: `elem_loc = loc + i * elem_size`. */
  method WriteElement(bytes: array<byte>, loc: nat, t: StructFieldType, items: seq<J.Value>, i: nat,
                      ghost start: seq<byte>)
    returns (r: Result<(), BuildError>)
    requires (t.SScalarArray? || t.SStructArray?) && TypeInBounds(t)
    requires i < |items| && StructFieldSize(t) == Offset(|items|, Stride(t))
    requires loc + StructFieldSize(t) <= bytes.Length == |start|
    requires ElementBytes(t, items[..i]).Ok?
    requires bytes[..] == Splice(start, loc, ElementBytes(t, items[..i]).value)
    requires SameOutside(start, bytes[..], loc, StructFieldSize(t))
    modifies bytes
    ensures r.Err? ==> ElementBytes(t, items) == Err(r.error) && bytes[..] == old(bytes[..])
    ensures r.Ok? ==> ElementBytes(t, items[..i + 1]).Ok?
    ensures r.Ok? ==> bytes[..] == Splice(start, loc, ElementBytes(t, items[..i + 1]).value)
    ensures SameOutside(start, bytes[..], loc, StructFieldSize(t))
    decreases t, 0, 1
  {
    var part := BuildElement(t, items[i]);
    if part.Err? {
      ElementError(t, items, i);
      return Err(part.error);
    }
    OffsetFits(i, |items|, Stride(t));
    NextElement(t, items, i);
    SpliceTwice(start, loc, ElementBytes(t, items[..i]).value, part.value);
    CopyFrom(bytes, loc + Offset(i, Stride(t)), part.value);
    return Ok(());
  }

  method BuildElement(t: StructFieldType, v: J.Value) returns (part: Result<seq<byte>, BuildError>)
    requires (t.SScalarArray? || t.SStructArray?) && TypeInBounds(t)
    ensures part == OneElement(t, v)
    decreases t, 0, 0
  {
    match t {
      case SScalarArray(st, _) => part := PlainScalarBytes(st, v);
      case SStructArray(d, _) => part := BuildStructBytes(v, d);
    }
  }

  /** `copy_from_slice`. */
  method CopyFrom(bytes: array<byte>, loc: nat, part: seq<byte>)
    requires loc + |part| <= bytes.Length
    modifies bytes
    ensures bytes[..] == Splice(old(bytes[..]), loc, part)
  {
    for i := 0 to |part|
      invariant bytes[..] == Splice(old(bytes[..]), loc, part[..i])
    {
      bytes[loc + i] := part[i];
    }
    assert part[..|part|] == part;
  }

  lemma {:induction false} SpliceTwice(buf: seq<byte>, loc: nat, a: seq<byte>, b: seq<byte>)
    requires loc + |a| + |b| <= |buf|
    ensures Splice(Splice(buf, loc, a), loc + |a|, b) == Splice(buf, loc, a + b)
  {
  }

  lemma {:induction false} NextElement(t: StructFieldType, items: seq<J.Value>, i: nat)
    requires t.SScalarArray? || t.SStructArray?
    requires i < |items| && ElementBytes(t, items[..i]).Ok? && OneElement(t, items[i]).Ok?
    ensures ElementBytes(t, items[..i + 1]) == Ok(ElementBytes(t, items[..i]).value + OneElement(t, items[i]).value)
  {
    assert items[..i + 1][..i] == items[..i];
  }

  lemma {:induction false} ElementError(t: StructFieldType, items: seq<J.Value>, i: nat)
    requires t.SScalarArray? || t.SStructArray?
    requires i < |items| && ElementBytes(t, items[..i]).Ok? && OneElement(t, items[i]).Err?
    ensures ElementBytes(t, items) == Err(OneElement(t, items[i]).error)
  {
    var init := items[..|items| - 1];
    if i + 1 == |items| {
      assert init == items[..i];
    } else {
      assert init[..i] == items[..i];
      ElementError(t, init, i);
    }
  }
}
