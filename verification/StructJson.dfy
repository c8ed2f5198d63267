/**
 Structs back to JSON (`struct_to_json`, `array_to_json`), the canonical form of a struct document, and
 the round trip: at any location that holds the written bytes, reading gives the canonical document.
 */
module StructJson {
  import opened Wrappers
  import opened Bytes
  import opened Schema
  import opened Scalars
  import opened StructLayout
  import J = Json

  type Json = Result<J.Value, ToJsonError>

  // Readers.

  function ReadStruct(buf: seq<byte>, loc: nat, def: StructDef): Json
    decreases def, 1, 0
  {
    ByIdIsWithin(def);
    var m :- ReadFields(buf, loc, StructById(def.fields), map[], def);
    Ok(J.Obj(m))
  }

  function ReadFields(buf: seq<byte>, loc: nat, fields: seq<StructField>, acc: map<string, J.Value>,
                      ghost within: StructDef)
    : Result<map<string, J.Value>, ToJsonError>
    requires forall f :: f in fields ==> f in within.fields
    decreases within, 0, |fields|
  {
    if fields == [] then Ok(acc)
    else
      assert fields[0] in within.fields;
      var v :- ReadField(buf, loc + fields[0].offset, fields[0].typ);
      ReadFields(buf, loc, fields[1..], acc[fields[0].name := v], within)
  }

  function ReadField(buf: seq<byte>, loc: nat, t: StructFieldType): Json
    decreases t, 2, 0
  {
    match t
    case SScalar(st, en) => ScalarJson(st, en, ReadScalar(st, buf, loc))
    case SStruct(d) => ReadStruct(buf, loc, d)
    case _ =>
      var items :- ReadElements(buf, loc, t, t.len);
      Ok(J.Arr(items))
  }

  /** The first `n` elements of a fixed-size array; element `i` lies at `loc + i * stride`. */
  function ReadElements(buf: seq<byte>, loc: nat, t: StructFieldType, n: nat): Result<seq<J.Value>, ToJsonError>
    requires t.SScalarArray? || t.SStructArray?
    decreases t, 1, n
  {
    if n == 0 then Ok([])
    else
      var init :- ReadElements(buf, loc, t, n - 1);
      var last :- ReadElement(buf, loc + Offset(n - 1, Stride(t)), t);
      Ok(init + [last])
  }

  function ReadElement(buf: seq<byte>, loc: nat, t: StructFieldType): Json
    requires t.SScalarArray? || t.SStructArray?
    decreases t, 0, 0
  {
    match t
    case SScalarArray(st, _) => ScalarJson(st, None, ReadScalar(st, buf, loc))
    case SStructArray(d, _) => ReadStruct(buf, loc, d)
  }

  lemma {:induction false} ByIdIsWithin(def: StructDef)
    ensures forall f :: f in StructById(def.fields) <==> f in def.fields
  {
    forall f ensures f in StructById(def.fields) <==> f in def.fields {
      assert f in StructById(def.fields) <==> f in multiset(StructById(def.fields));
      assert f in def.fields <==> f in multiset(def.fields);
    }
  }

  // The same readers with the source's loops.

  method StructToJson(buf: seq<byte>, loc: nat, def: StructDef) returns (r: Json)
    ensures r == ReadStruct(buf, loc, def)
    decreases def, 1, 0
  {
    hide ReadField, ScalarJson, StructById;
    ByIdIsWithin(def);
    var fields := StructById(def.fields);
    var m: map<string, J.Value> := map[];
    for i := 0 to |fields|
      invariant ReadFields(buf, loc, fields, map[], def) == ReadFields(buf, loc, fields[i..], m, def)
    {
      assert fields[i..][0] == fields[i] && fields[i..][1..] == fields[i + 1..];
      assert fields[i] in def.fields;
      var v := FieldToJson(buf, loc + fields[i].offset, fields[i].typ);
      if v.Err? { return v; }
      m := m[fields[i].name := v.value];
    }
    return Ok(J.Obj(m));
  }

  method FieldToJson(buf: seq<byte>, loc: nat, t: StructFieldType) returns (r: Json)
    ensures r == ReadField(buf, loc, t)
    decreases t, 2, 0
  {
    match t {
      case SScalar(st, en) => return ScalarJson(st, en, ReadScalar(st, buf, loc));
      case SStruct(d) => r := StructToJson(buf, loc, d);
      case _ => r := ArrayToJson(buf, loc, t);
    }
  }

  method ArrayToJson(buf: seq<byte>, loc: nat, t: StructFieldType) returns (r: Json)
    requires t.SScalarArray? || t.SStructArray?
    ensures r == ReadField(buf, loc, t)
    decreases t, 1, 0
  {
    hide ReadElement;
    var out: seq<J.Value> := [];
    for i := 0 to t.len
      invariant ReadElements(buf, loc, t, i) == Ok(out)
    {
      var v := ElementToJson(buf, loc + Offset(i, Stride(t)), t);
      if v.Err? {
        ReadElementsError(buf, loc, t, i, t.len);
        return v;
      }
      ReadOneMore(buf, loc, t, i);
      out := out + [v.value];
    }
    return Ok(J.Arr(out));
  }

  method ElementToJson(buf: seq<byte>, loc: nat, t: StructFieldType) returns (r: Json)
    requires t.SScalarArray? || t.SStructArray?
    ensures r == ReadElement(buf, loc, t)
    decreases t, 0, 0
  {
    match t {
      case SScalarArray(st, _) => return ScalarJson(st, None, ReadScalar(st, buf, loc));
      case SStructArray(d, _) => r := StructToJson(buf, loc, d);
    }
  }

  lemma {:induction false} ReadElementsError(buf: seq<byte>, loc: nat, t: StructFieldType, i: nat, n: nat)
    requires t.SScalarArray? || t.SStructArray?
    requires i < n && ReadElements(buf, loc, t, i).Ok? && ReadElement(buf, loc + Offset(i, Stride(t)), t).Err?
    ensures ReadElements(buf, loc, t, n) == Err(ReadElement(buf, loc + Offset(i, Stride(t)), t).error)
  {
    if i + 1 < n {
      ReadElementsError(buf, loc, t, i, n - 1);
    }
  }

  // The canonical document.

  /** What a scalar document comes back as: the number it denotes, an enum number named. */
  function CanonScalar(st: ScalarType, en: Option<EnumDef>, v: J.Value): Json {
    match EncodeScalar(st, en, v)
    case Ok(sc) => ScalarJson(st, en, sc)
    case Err(_) => Err(BadReflection)
  }

  /** A struct document with every member canonical. */
  function CanonStruct(v: J.Value, def: StructDef): Json
    decreases def, 1, 0
  {
    if !v.Obj? then Err(BadReflection)
    else
      ByIdIsWithin(def);
      var m :- CanonFields(v.m, StructById(def.fields), map[], def);
      Ok(J.Obj(m))
  }

  function CanonFields(m: map<string, J.Value>, fields: seq<StructField>, acc: map<string, J.Value>,
                       ghost within: StructDef)
    : Result<map<string, J.Value>, ToJsonError>
    requires forall f :: f in fields ==> f in within.fields
    decreases within, 0, |fields|
  {
    if fields == [] then Ok(acc)
    else if fields[0].name !in m then Err(BadReflection)
    else
      assert fields[0] in within.fields;
      var v :- CanonField(fields[0].typ, m[fields[0].name]);
      CanonFields(m, fields[1..], acc[fields[0].name := v], within)
  }

  function CanonField(t: StructFieldType, v: J.Value): Json
    decreases t, 2, 0
  {
    match t
    case SScalar(st, en) => CanonScalar(st, en, v)
    case SStruct(d) => CanonStruct(v, d)
    case _ =>
      if !v.Arr? then Err(BadReflection)
      else
        var items :- CanonElements(t, v.items);
        Ok(J.Arr(items))
  }

  function CanonElements(t: StructFieldType, items: seq<J.Value>): Result<seq<J.Value>, ToJsonError>
    requires t.SScalarArray? || t.SStructArray?
    decreases t, 1, |items|
  {
    if items == [] then Ok([])
    else
      var init :- CanonElements(t, items[..|items| - 1]);
      var last :- CanonElement(t, items[|items| - 1]);
      Ok(init + [last])
  }

  function CanonElement(t: StructFieldType, v: J.Value): Json
    requires t.SScalarArray? || t.SStructArray?
    decreases t, 0, 0
  {
    match t
    case SScalarArray(st, _) => CanonScalar(st, None, v)
    case SStructArray(d, _) => CanonStruct(v, d)
  }

  // Non-interference of the writes.

  /** Later writes leave a disjoint window alone. */
  lemma {:induction false} FillKeeps(m: map<string, J.Value>, fields: seq<StructField>, buf: seq<byte>, loc: nat,
                                     size: nat)
    requires FillFields(m, fields, buf).Ok? && loc + size <= |buf|
    requires forall i :: 0 <= i < |fields| ==>
      loc + size <= fields[i].offset || fields[i].offset + StructFieldSize(fields[i].typ) <= loc
    ensures Window(FillFields(m, fields, buf).value, loc, size) == Window(buf, loc, size)
  {
    if fields != [] {
      var part := FieldBytes(fields[0].typ, J.Present(m, fields[0].name).value).value;
      var next := Splice(buf, fields[0].offset, part);
      assert next[loc..loc + size] == buf[loc..loc + size];
      FillKeeps(m, fields[1..], next, loc, size);
    }
  }

  /** After all writes, each field's window holds exactly that field's bytes. */
  lemma {:induction false} FillWrites(m: map<string, J.Value>, fields: seq<StructField>, buf: seq<byte>, k: nat)
    requires FillFields(m, fields, buf).Ok? && k < |fields|
    requires forall i :: 0 <= i < |fields| ==> fields[i].offset + StructFieldSize(fields[i].typ) <= |buf|
    requires forall i, j :: 0 <= i < j < |fields| ==> Apart(fields[i], fields[j])
    ensures var v := J.Present(m, fields[k].name);
            && v.Some? && FieldBytes(fields[k].typ, v.value).Ok?
            && Window(FillFields(m, fields, buf).value, fields[k].offset, StructFieldSize(fields[k].typ))
               == FieldBytes(fields[k].typ, v.value).value
  {
    var part := FieldBytes(fields[0].typ, J.Present(m, fields[0].name).value).value;
    var next := Splice(buf, fields[0].offset, part);
    if k == 0 {
      assert forall j :: 0 <= j < |fields[1..]| ==> Apart(fields[0], fields[1..][j]);
      FillKeeps(m, fields[1..], next, fields[0].offset, StructFieldSize(fields[0].typ));
    } else {
      FillWrites(m, fields[1..], next, k - 1);
    }
  }

  lemma {:induction false} WindowOfWindow(buf: seq<byte>, loc: nat, bytes: seq<byte>, off: nat, size: nat)
    requires loc + |bytes| <= |buf| && Window(buf, loc, |bytes|) == bytes && off + size <= |bytes|
    ensures loc + off + size <= |buf| && Window(buf, loc + off, size) == Window(bytes, off, size)
  {
    var a, b := buf[loc + off..loc + off + size], bytes[off..off + size];
    forall i | 0 <= i < size ensures a[i] == b[i] {
      assert buf[loc..loc + |bytes|][off + i] == bytes[off + i];
    }
  }

  // Round trip.

  /** Struct bytes decode to the canonical document at every location that holds them. */
  lemma {:induction false} StructRoundTrip(v: J.Value, def: StructDef, buf: seq<byte>, loc: nat)
    requires ValidLayout(def) && StructBytes(v, def).Ok?
    requires loc + def.bytesize <= |buf| && Window(buf, loc, def.bytesize) == StructBytes(v, def).value
    ensures ReadStruct(buf, loc, def) == CanonStruct(v, def)
    decreases def, 1, 0
  {
    hide *;
    ByIdIsWithin(def);
    StructIsObject(v, def);
    forall f | f in def.fields
      ensures f.name in v.m && ReadField(buf, loc + f.offset, f.typ) == CanonField(f.typ, v.m[f.name])
    {
      var k :| 0 <= k < |def.fields| && def.fields[k] == f;
      StructFieldRoundTrip(v, def, buf, loc, k);
    }
    FieldsAgree(v.m, StructById(def.fields), map[], buf, loc, def);
    StructOfFields(v, def, buf, loc);
  }

  lemma {:induction false} StructIsObject(v: J.Value, def: StructDef)
    requires StructBytes(v, def).Ok?
    ensures v.Obj? && FillFields(v.m, def.fields, Zeros(def.bytesize)) == StructBytes(v, def)
  {
  }

  lemma {:induction false} StructOfFields(v: J.Value, def: StructDef, buf: seq<byte>, loc: nat)
    requires v.Obj? && forall f :: f in StructById(def.fields) <==> f in def.fields
    requires ReadFields(buf, loc, StructById(def.fields), map[], def) ==
      CanonFields(v.m, StructById(def.fields), map[], def)
    ensures ReadStruct(buf, loc, def) == CanonStruct(v, def)
  {
  }

  lemma {:induction false} StructFieldRoundTrip(v: J.Value, def: StructDef, buf: seq<byte>, loc: nat, k: nat)
    requires ValidLayout(def) && StructBytes(v, def).Ok? && k < |def.fields|
    requires loc + def.bytesize <= |buf| && Window(buf, loc, def.bytesize) == StructBytes(v, def).value
    ensures var f := def.fields[k];
      f.name in v.m && ReadField(buf, loc + f.offset, f.typ) == CanonField(f.typ, v.m[f.name])
    decreases def, 0, 0
  {
    hide *;
    var f := def.fields[k];
    FieldIsWritten(v, def, k);
    WindowOfWindow(buf, loc, StructBytes(v, def).value, f.offset, StructFieldSize(f.typ));
    FieldRoundTrip(v.m[f.name], f.typ, buf, loc + f.offset);
  }

  lemma {:induction false} FieldIsWritten(v: J.Value, def: StructDef, k: nat)
    requires ValidLayout(def) && StructBytes(v, def).Ok? && k < |def.fields|
    ensures var f := def.fields[k];
            && v.Obj? && f.name in v.m && ValidType(f.typ) && FieldBytes(f.typ, v.m[f.name]).Ok?
            && f.offset + StructFieldSize(f.typ) <= |StructBytes(v, def).value|
            && Window(StructBytes(v, def).value, f.offset, StructFieldSize(f.typ)) ==
              FieldBytes(f.typ, v.m[f.name]).value
  {
    hide FieldBytes, Window, Splice, Apart;
    FillWrites(v.m, def.fields, Zeros(def.bytesize), k);
  }

  lemma {:induction false} FieldsAgree(m: map<string, J.Value>, fields: seq<StructField>, acc: map<string, J.Value>,
                                       buf: seq<byte>, loc: nat, within: StructDef)
    requires forall f :: f in fields ==> f in within.fields
    requires forall f :: f in fields ==>
      f.name in m && ReadField(buf, loc + f.offset, f.typ) == CanonField(f.typ, m[f.name])
    ensures ReadFields(buf, loc, fields, acc, within) == CanonFields(m, fields, acc, within)
    decreases |fields|
  {
    if fields != [] {
      assert fields[0] in fields;
      var r := CanonField(fields[0].typ, m[fields[0].name]);
      if r.Ok? {
        FieldsAgree(m, fields[1..], acc[fields[0].name := r.value], buf, loc, within);
      }
    }
  }

  lemma {:induction false} FieldRoundTrip(v: J.Value, t: StructFieldType, buf: seq<byte>, loc: nat)
    requires ValidType(t) && FieldBytes(t, v).Ok?
    requires loc + StructFieldSize(t) <= |buf| && Window(buf, loc, StructFieldSize(t)) == FieldBytes(t, v).value
    ensures ReadField(buf, loc, t) == CanonField(t, v)
    decreases t, 2, 0
  {
    match t {
      case SScalar(st, en) =>
        TableAndStructAgree(st, en, v);
        EncodedFits(st, en, v);
        ReadScalarBytes(st, EncodeScalar(st, en, v).value, buf, loc);
      case SStruct(d) =>
        StructRoundTrip(v, d, buf, loc);
      case _ =>
        ElementsRoundTrip(v.items, t, buf, loc);
    }
  }

  lemma {:induction false} ElementsRoundTrip(items: seq<J.Value>, t: StructFieldType, buf: seq<byte>, loc: nat)
    requires (t.SScalarArray? || t.SStructArray?) && ValidType(t) && ElementBytes(t, items).Ok?
    requires loc + |ElementBytes(t, items).value| <= |buf|
    requires Window(buf, loc, |ElementBytes(t, items).value|) == ElementBytes(t, items).value
    ensures ReadElements(buf, loc, t, |items|) == CanonElements(t, items)
    decreases t, 1, |items|
  {
    hide *;
    if |items| == 0 {
      assert items == [];
      NoElements(t, buf, loc);
    } else {
      var n := |items| - 1;
      ElementWindows(items, t, buf, loc);
      ElementsRoundTrip(items[..n], t, buf, loc);
      ElementRoundTrip(items[n], t, buf, loc + Offset(n, Stride(t)));
      ElementsStep(items, t, buf, loc);
    }
  }

  lemma {:induction false} NoElements(t: StructFieldType, buf: seq<byte>, loc: nat)
    requires t.SScalarArray? || t.SStructArray?
    ensures ReadElements(buf, loc, t, 0) == CanonElements(t, [])
  {
  }

  /** The window of an array holds the window of all but the last element, then the last element's. */
  lemma {:induction false} ElementWindows(items: seq<J.Value>, t: StructFieldType, buf: seq<byte>, loc: nat)
    requires (t.SScalarArray? || t.SStructArray?) && items != [] && ElementBytes(t, items).Ok?
    requires loc + |ElementBytes(t, items).value| <= |buf|
    requires Window(buf, loc, |ElementBytes(t, items).value|) == ElementBytes(t, items).value
    ensures var n := |items| - 1; var head, last := ElementBytes(t, items[..n]), OneElement(t, items[n]);
            && head.Ok? && last.Ok? && |head.value| == Offset(n, Stride(t)) && |last.value| == Stride(t)
            && loc + |head.value| + |last.value| <= |buf|
            && Window(buf, loc, |head.value|) == head.value
            && Window(buf, loc + |head.value|, |last.value|) == last.value
  {
    hide Window, OneElement, Stride, Offset;
    var n := |items| - 1;
    HeadAndLast(buf, loc, ElementBytes(t, items[..n]).value, OneElement(t, items[n]).value);
  }

  lemma {:induction false} ElementsStep(items: seq<J.Value>, t: StructFieldType, buf: seq<byte>, loc: nat)
    requires (t.SScalarArray? || t.SStructArray?) && items != []
    requires var n := |items| - 1;
      && ReadElements(buf, loc, t, n) == CanonElements(t, items[..n])
      && ReadElement(buf, loc + Offset(n, Stride(t)), t) == CanonElement(t, items[n])
    ensures ReadElements(buf, loc, t, |items|) == CanonElements(t, items)
  {
    hide ReadElement, CanonElement;
  }

  lemma {:induction false} ReadOneMore(buf: seq<byte>, loc: nat, t: StructFieldType, n: nat)
    requires t.SScalarArray? || t.SStructArray?
    ensures ReadElements(buf, loc, t, n + 1) ==
            var init := ReadElements(buf, loc, t, n);
            var last := ReadElement(buf, loc + Offset(n, Stride(t)), t);
            if init.Err? then init else if last.Err? then Err(last.error) else Ok(init.value + [last.value])
  {
  }

  lemma {:induction false} HeadAndLast(buf: seq<byte>, loc: nat, head: seq<byte>, last: seq<byte>)
    requires loc + |head| + |last| <= |buf| && Window(buf, loc, |head + last|) == head + last
    ensures Window(buf, loc, |head|) == head && Window(buf, loc + |head|, |last|) == last
  {
    WindowOfWindow(buf, loc, head + last, 0, |head|);
    WindowOfWindow(buf, loc, head + last, |head|, |last|);
    assert (head + last)[..|head|] == head && (head + last)[|head|..] == last;
  }

  lemma {:induction false} ElementRoundTrip(v: J.Value, t: StructFieldType, buf: seq<byte>, loc: nat)
    requires (t.SScalarArray? || t.SStructArray?) && ValidType(t) && OneElement(t, v).Ok?
    requires loc + Stride(t) <= |buf| && Window(buf, loc, Stride(t)) == OneElement(t, v).value
    ensures ReadElement(buf, loc, t) == CanonElement(t, v)
    decreases t, 0, 0
  {
    match t {
      case SScalarArray(st, _) =>
        TableAndStructAgree(st, None, v);
        EncodedFits(st, None, v);
        ReadScalarBytes(st, EncodeScalar(st, None, v).value, buf, loc);
      case SStructArray(d, _) =>
        StructRoundTrip(v, d, buf, loc);
    }
  }
}
