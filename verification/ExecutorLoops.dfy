/** The executor's loops, as the source runs them, against the functions of `Executor`. */
module ExecutorLoops {
  import opened Wrappers
  import opened Bytes
  import opened Schema
  import opened Buffer
  import opened Executor
  import Q = Query

  /** `walk_vector_all`: fan out, appending each element's leaves to `out`. */
  method WalkVectorAll(h: Heap, slots: map<nat, Slot>, f: Field, el: ElementType, s: Schema, tail: seq<Q.Step>,
                       o: ExecOptions)
    returns (r: Leaves)
    ensures r == WalkAll(h, slots, f, el, s, tail, o)
  {
    hide WalkTable, WalkStruct, ReadAll, SlotsAt, Offset, Count, VectorAtSlot, BodyAtSlot;
    if el.EStruct? {
      if tail == [] { return Err(UnsupportedType); }
      var body := BodyAtSlot(h, slots, f.offset);
      if body.None? { return Ok([]); }
      if el.def.bytesize == 0 { return Err(ReflectionError); }
      var out: seq<Option<Leaf>> := [];
      var n := Count(body.value);
      for i := 0 to n
        invariant FanStructs(body.value, el.def, i, tail) == Ok(out)
      {
        var leaves := WalkStruct(body.value, 4 + Offset(i, el.def.bytesize), el.def, tail);
        if leaves.Err? {
          StructError(body.value, el.def, i, n, tail);
          return leaves;
        }
        OneMoreStruct(body.value, el.def, i, tail);
        out := out + leaves.value;
      }
      return Ok(out);
    }
    if el.ETable? {
      var items := VectorAtSlot(h, slots, f.offset);
      if items.None? { return Ok([]); }
      if tail == [] { return Err(UnsupportedType); }
      var out: seq<Option<Leaf>> := [];
      for i := 0 to |items.value|
        invariant FanTables(h, items.value, i, el.index, s, tail, o) == Ok(out)
      {
        var leaves := WalkTable(h, SlotsAt(h, items.value[i]), el.index, s, tail, o);
        if leaves.Err? {
          TableError(h, items.value, i, |items.value|, el.index, s, tail, o);
          return leaves;
        }
        OneMoreTable(h, items.value, i, el.index, s, tail, o);
        out := out + leaves.value;
      }
      return Ok(out);
    }
    if tail != [] { return Err(UnsupportedType); }
    return ReadAll(h, slots, f, el);
  }

  lemma {:induction false} OneMoreStruct(body: seq<byte>, def: StructDef, i: nat, tail: seq<Q.Step>)
    ensures FanStructs(body, def, i, tail).Ok? && WalkStruct(body, 4 + Offset(i, def.bytesize), def, tail).Ok? ==>
              FanStructs(body, def, i + 1, tail) ==
              Ok(FanStructs(body, def, i, tail).value + WalkStruct(body, 4 + Offset(i, def.bytesize), def, tail).value)
  {
    hide WalkStruct, Offset;
  }

  /** The first error ends the fan-out. */
  lemma {:induction false} StructError(body: seq<byte>, def: StructDef, i: nat, n: nat, tail: seq<Q.Step>)
    requires i < n && FanStructs(body, def, i, tail).Ok?
      && WalkStruct(body, 4 + Offset(i, def.bytesize), def, tail).Err?
    ensures FanStructs(body, def, n, tail) == WalkStruct(body, 4 + Offset(i, def.bytesize), def, tail)
    decreases n
  {
    hide WalkStruct, Offset;
    if i + 1 < n { StructError(body, def, i, n - 1, tail); }
  }

  lemma {:induction false} OneMoreTable(h: Heap, items: seq<Slot>, i: nat, t: nat, s: Schema, tail: seq<Q.Step>,
                                        o: ExecOptions)
    requires tail != [] && i < |items|
    ensures FanTables(h, items, i, t, s, tail, o).Ok? && WalkTable(h, SlotsAt(h, items[i]), t, s, tail, o).Ok? ==>
              FanTables(h, items, i + 1, t, s, tail, o) ==
              Ok(FanTables(h, items, i, t, s, tail, o).value + WalkTable(h, SlotsAt(h, items[i]), t, s, tail, o).value)
  {
    hide WalkTable, SlotsAt;
  }

  lemma {:induction false} TableError(h: Heap, items: seq<Slot>, i: nat, n: nat, t: nat, s: Schema, tail: seq<Q.Step>,
                                      o: ExecOptions)
    requires tail != [] && i < n <= |items|
    requires FanTables(h, items, i, t, s, tail, o).Ok? && WalkTable(h, SlotsAt(h, items[i]), t, s, tail, o).Err?
    ensures FanTables(h, items, n, t, s, tail, o) == WalkTable(h, SlotsAt(h, items[i]), t, s, tail, o)
    decreases n
  {
    hide WalkTable, SlotsAt;
    if i + 1 < n { TableError(h, items, i, n - 1, t, s, tail, o); }
  }

  /** The fan-out arm of `walk_array`. */
  method FanOutArray(buf: seq<byte>, loc: nat, t: StructFieldType, tail: seq<Q.Step>) returns (r: Leaves)
    requires t.SScalarArray? || t.SStructArray?
    requires !(t.SStructArray? && t.elemDef.bytesize == 0)
    ensures r == WalkArray(buf, loc, t, [Q.All] + tail)
  {
    hide WalkArrayElement, Offset, ArrayStride;
    assert ([Q.All] + tail)[1..] == tail;
    var out: seq<Option<Leaf>> := [];
    for i := 0 to t.len
      invariant FanArray(buf, loc, t, i, tail) == Ok(out)
    {
      var leaves := WalkArrayElement(buf, loc + Offset(i, ArrayStride(t)), t, tail);
      if leaves.Err? {
        ArrayError(buf, loc, t, i, t.len, tail);
        return leaves;
      }
      out := out + leaves.value;
    }
    return Ok(out);
  }

  lemma {:induction false} ArrayError(buf: seq<byte>, loc: nat, t: StructFieldType, i: nat, n: nat, tail: seq<Q.Step>)
    requires t.SScalarArray? || t.SStructArray?
    requires i < n && FanArray(buf, loc, t, i, tail).Ok?
      && WalkArrayElement(buf, loc + Offset(i, ArrayStride(t)), t, tail).Err?
    ensures FanArray(buf, loc, t, n, tail) == WalkArrayElement(buf, loc + Offset(i, ArrayStride(t)), t, tail)
    decreases n
  {
    hide WalkArrayElement, Offset, ArrayStride;
    if i + 1 < n { ArrayError(buf, loc, t, i, n - 1, tail); }
  }

  /** `lookup_keyed_field`: one pass, refusing a second `(key)`. */
  method FindKeyedField(fields: seq<Field>) returns (r: Result<Field, ExecError>)
    ensures r == LookupKeyedField(fields)
  {
    var found: Option<Field> := None;
    for i := 0 to |fields|
      invariant found == KeyedField(fields[..i]) && KeyCount(fields[..i]) == if found.Some? then 1 else 0
    {
      OneMoreField(fields, i);
      if fields[i].key {
        if found.Some? {
          FieldsRemain(fields, i + 1);
          return Err(ReflectionError);
        }
        found := Some(fields[i]);
      }
    }
    assert fields[..|fields|] == fields;
    return if found.Some? then Ok(found.value) else Err(UnsupportedType);
  }

  lemma {:induction false} OneMoreField(fields: seq<Field>, i: nat)
    requires i < |fields|
    ensures KeyCount(fields[..i + 1]) == KeyCount(fields[..i]) + (if fields[i].key then 1 else 0)
    ensures KeyedField(fields[..i + 1]) == if KeyedField(fields[..i]).Some? then KeyedField(fields[..i])
      else if fields[i].key then Some(fields[i]) else None
  {
    if i > 0 {
      OneMoreField(fields[1..], i - 1);
      assert fields[..i + 1][1..] == fields[1..][..i] && fields[..i][1..] == fields[1..][..i - 1];
    } else {
      assert fields[..1] == [fields[0]] && fields[..0] == [];
    }
  }

  lemma {:induction false} FieldsRemain(fields: seq<Field>, i: nat)
    requires i <= |fields|
    ensures KeyCount(fields[..i]) <= KeyCount(fields)
    ensures KeyCount(fields) > 0 ==> KeyedField(fields).Some?
    decreases |fields|
  {
    if fields != [] {
      FieldsRemain(fields[1..], if i > 0 then i - 1 else 0);
      if i > 0 { assert fields[..i][1..] == fields[1..][..i - 1]; }
    }
  }

  /** `walk_vector_at_map_key`: bisect under the sorted contract, or scan in wire order. */
  method WalkVectorAtMapKey(h: Heap, slots: map<nat, Slot>, f: Field, el: ElementType, s: Schema, key: Q.MapKey,
                            tail: seq<Q.Step>, o: ExecOptions)
    returns (r: Leaves)
    ensures r == WalkMapKey(h, slots, f, el, s, key, tail, o)
  {
    hide WalkTable, SlotsAt, Keys, VectorAtSlot, LookupKeyedField, KeyIndex, TableAt;
    if !el.ETable? { return Err(UnsupportedType); }
    var kf := FindKeyedField(TableAt(s, el.index).fields);
    if kf.Err? { return Err(kf.error); }
    if tail == [] { return Err(UnsupportedType); }
    var items := VectorAtSlot(h, slots, f.offset);
    if items.None? { return Ok([None]); }
    var found := FindIndex(h, items.value, kf.value, key, o);
    if found.Err? { return Err(found.error); }
    if found.value.None? { return Ok([None]); }
    return WalkTable(h, SlotsAt(h, items.value[found.value.value]), el.index, s, tail, o);
  }

  /** The two search loops: each reads an element's key only when it gets there. */
  method FindIndex(h: Heap, items: seq<Slot>, kf: Field, key: Q.MapKey, o: ExecOptions) returns (r: Result<Option<nat>,
                   ExecError>)
    ensures r == KeyIndex(Keys(h, items, kf, o.reader), kf, key, o)
    ensures r.Ok? && r.value.Some? ==> r.value.value < |items|
  {
    hide ElementKey, SlotsAt, CompileKey, Compare, KeyMatches;
    ghost var keys := Keys(h, items, kf, o.reader);
    if o.strictKeys {
      var compiled := CompileKey(kf, key);
      if compiled.Err? { return Err(compiled.error); }
      if compiled.value.None? { return Ok(None); }
      var lo, hi := 0, |items|;
      while lo < hi
        invariant 0 <= lo <= hi <= |items|
        invariant Bisect(keys, compiled.value.value, 0, |keys|) == Bisect(keys, compiled.value.value, lo, hi)
      {
        var mid := lo + (hi - lo) / 2;
        match Compare(ElementKey(h, SlotsAt(h, items[mid]), kf, o.reader), compiled.value.value) {
          case Equal => return Ok(Some(mid));
          case Less => lo := mid + 1;
          case Greater => hi := mid;
        }
      }
      return Ok(None);
    }
    for i := 0 to |items|
      invariant Scan(keys, kf, key, 0) == Scan(keys, kf, key, i)
    {
      var hit := KeyMatches(ElementKey(h, SlotsAt(h, items[i]), kf, o.reader), kf, key);
      if hit.Err? { return Err(hit.error); }
      if hit.value { return Ok(Some(i)); }
    }
    return Ok(None);
  }

  /** `walk_vector_map_keys`: the keys in wire order. */
  method WalkVectorMapKeys(h: Heap, slots: map<nat, Slot>, f: Field, el: ElementType, s: Schema, tail: seq<Q.Step>,
                           o: ExecOptions)
    returns (r: Leaves)
    ensures r == WalkMapKeys(h, slots, f, el, s, tail, o)
  {
    hide ElementKey, SlotsAt, VectorAtSlot, LookupKeyedField, TableAt;
    if !el.ETable? { return Err(UnsupportedType); }
    var kf := FindKeyedField(TableAt(s, el.index).fields);
    if kf.Err? { return Err(kf.error); }
    if tail != [] { return Err(UnsupportedType); }
    var items := VectorAtSlot(h, slots, f.offset);
    if items.None? { return Ok([]); }
    var out: seq<Option<Leaf>> := [];
    for i := 0 to |items.value|
      invariant |out| == i
      invariant forall k :: 0 <= k < i ==> out[k] == Some(Plain(Keys(h, items.value, kf.value, o.reader)[k]))
    {
      out := out + [Some(Plain(ElementKey(h, SlotsAt(h, items.value[i]), kf.value, o.reader)))];
    }
    KeysAreLeaves(h, slots, f, el, s, o, kf.value, items.value, out);
    return Ok(out);
  }

  lemma {:induction false} KeysAreLeaves(h: Heap, slots: map<nat, Slot>, f: Field, el: ElementType, s: Schema,
                                         o: ExecOptions, kf: Field, items: seq<Slot>,
                      out: seq<Option<Leaf>>)
    requires el.ETable? && LookupKeyedField(TableAt(s, el.index).fields) == Ok(kf)
      && VectorAtSlot(h, slots, f.offset) == Some(items)
    requires |out| == |items| && forall k :: 0 <= k < |out| ==> out[k] == Some(Plain(Keys(h, items, kf, o.reader)[k]))
    ensures WalkMapKeys(h, slots, f, el, s, [], o) == Ok(out)
  {
    hide Keys, VectorAtSlot, LookupKeyedField, TableAt;
    var keys := Keys(h, items, kf, o.reader);
    assert out == seq(|keys|, i requires 0 <= i < |keys| => Some(Plain(keys[i])));
  }
}
