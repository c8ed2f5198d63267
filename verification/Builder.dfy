/**
 `from_json.rs` as it runs: a builder that only appends, a list of pending pushes per table, loops over
 fields, elements and entries. Each method leaves a node that unfolds to what `FromJson` says.
 */
module Builder {
  import opened Wrappers
  import opened Bytes
  import opened Schema
  import opened Scalars
  import opened Buffer
  import opened FromJson

  // The FlatBuffers builder.

  class FlatBufferBuilder {
    var nodes: Heap
    var vtable: map<nat, Slot>    // of the open table
    var elements: seq<Slot>       // of the open vector of offsets; it grows towards the front
    var body: seq<byte>           // of the open vector of structs; it grows towards the front

    constructor ()
      ensures nodes == [] && vtable == map[] && elements == [] && body == []
    {
      nodes, vtable, elements, body := [], map[], [], [];
    }

    method Append(n: Node) returns (node: nat)
      requires Backward(nodes) && NodeBackward(n, |nodes|)
      modifies this`nodes
      ensures nodes == old(nodes) + [n] && node == |old(nodes)| && Backward(nodes)
    {
      node := |nodes|;
      nodes := nodes + [n];
    }

    method StartTable()
      modifies this`vtable
      ensures vtable == map[]
    {
      vtable := map[];
    }

    /** A scalar equal to its default takes no room. */
    method PushSlot(o: nat, value: Scalar, default: Scalar)
      modifies this`vtable
      ensures vtable == if SameScalar(value, default) then old(vtable) else old(vtable)[o := Direct(value)]
    {
      if !SameScalar(value, default) { vtable := vtable[o := Direct(value)]; }
    }

    method PushSlotAlways(o: nat, slot: Slot)
      modifies this`vtable
      ensures vtable == old(vtable)[o := slot]
    {
      vtable := vtable[o := slot];
    }

    method StartVector()
      modifies this`elements, this`body
      ensures elements == [] && body == []
    {
      elements, body := [], [];
    }

    method PushOffset(node: nat)
      modifies this`elements
      ensures elements == [Ref(node)] + old(elements)
    {
      elements := [Ref(node)] + elements;
    }

    method PushBytes(part: seq<byte>)
      modifies this`body
      ensures body == part + old(body)
    {
      body := part + body;
    }
  }

  /** Node `node` holds the tree `w`. */
  ghost predicate Leads(h: Heap, node: nat, w: Val) {
    node < |h| && Unfold(h, node) == w
  }

  lemma {:induction false} LeadsStable(h: Heap, g: Heap, node: nat, w: Val)
    requires h <= g && Leads(h, node, w)
    ensures Leads(g, node, w)
  {
    UnfoldStable(h, g, node);
  }

  /** A built value, or the same error. */
  ghost predicate Builds(h: Heap, r: Result<nat, BuildError>, w: Built) {
    if r.Err? then w == Err(r.error) else w.Ok? && Leads(h, r.value, w.value)
  }

  ghost predicate AllLead(h: Heap, nodes: seq<nat>, ws: seq<Val>) {
    |nodes| == |ws| && forall i :: 0 <= i < |nodes| ==> Leads(h, nodes[i], ws[i])
  }

  lemma {:induction false} AllLeadStable(h: Heap, g: Heap, nodes: seq<nat>, ws: seq<Val>)
    requires h <= g && AllLead(h, nodes, ws)
    ensures AllLead(g, nodes, ws)
  {
    hide Leads;
    forall i | 0 <= i < |nodes| ensures Leads(g, nodes[i], ws[i]) { LeadsStable(h, g, nodes[i], ws[i]); }
  }

  function Refs(nodes: seq<nat>): (slots: seq<Slot>)
    ensures |slots| == |nodes|
  {
    seq(|nodes|, i requires 0 <= i < |nodes| => Ref(nodes[i]))
  }

  /** Offsets pushed last to first come out in their order. */
  method PushVectorOfOffsets(fbb: FlatBufferBuilder, offs: seq<nat>, ghost ws: seq<Val>) returns (node: nat)
    requires Backward(fbb.nodes) && AllLead(fbb.nodes, offs, ws)
    modifies fbb
    ensures Backward(fbb.nodes) && old(fbb.nodes) <= fbb.nodes && Leads(fbb.nodes, node, VectorVal(ws))
  {
    fbb.StartVector();
    var i := |offs|;
    while i > 0
      invariant 0 <= i <= |offs| && fbb.nodes == old(fbb.nodes) && fbb.elements == Refs(offs[i..])
    {
      i := i - 1;
      assert offs[i..] == [offs[i]] + offs[i + 1..];
      fbb.PushOffset(offs[i]);
    }
    assert offs[0..] == offs;
    VectorOfOffsets(fbb.nodes, offs, ws);
    node := fbb.Append(VectorNode(fbb.elements));
  }

  lemma {:induction false} VectorOfOffsets(h: Heap, offs: seq<nat>, ws: seq<Val>)
    requires AllLead(h, offs, ws)
    ensures NodeBackward(VectorNode(Refs(offs)), |h|)
    ensures Leads(h + [VectorNode(Refs(offs))], |h|, VectorVal(ws))
  {
    var g := h + [VectorNode(Refs(offs))];
    forall i | 0 <= i < |offs| ensures UnfoldSlot(g, Refs(offs)[i], |h|) == ws[i] {
      assert Leads(h, offs[i], ws[i]);
      UnfoldStable(h, g, offs[i]);
    }
    assert Unfold(g, |h|).items == ws;
  }

  /** `push_vector_of_structs`: structs pushed last to first leave the bytes in their order. */
  method PushVectorOfStructs(fbb: FlatBufferBuilder, all: seq<byte>, count: nat,
                             def: StructDef) returns (r: Result<nat, BuildError>)
    requires Backward(fbb.nodes) && |all| == Offset(count, def.bytesize)
    modifies fbb
    ensures Backward(fbb.nodes) && old(fbb.nodes) <= fbb.nodes
      && Builds(fbb.nodes, r, PushStructVector(count, all, def))
  {
    if !Dispatchable(def.bytesize, def.minalign) { return Err(Unsupported); }
    if count >= 0x1_0000_0000 { return Err(Internal); }
    fbb.StartVector();
    var i := count;
    while i > 0
      invariant 0 <= i <= count && fbb.nodes == old(fbb.nodes)
      invariant Offset(i, def.bytesize) <= |all| && fbb.body == all[Offset(i, def.bytesize)..]
    {
      i := i - 1;
      var start := Offset(i, def.bytesize);
      assert all[start..] == all[start..start + def.bytesize] + all[start + def.bytesize..];
      fbb.PushBytes(all[start..start + def.bytesize]);
    }
    assert fbb.body == all;
    var node := fbb.Append(StructVectorNode(LittleEndian(count, 4) + fbb.body));
    return Ok(node);
  }

  // Pending pushes, with offsets into the buffer.

  datatype RealPush =
    | ScalarSlot(value: Scalar, default: Scalar)
    | OffsetSlot(node: nat)
    | InlineStruct(bytes: seq<byte>, align: nat)
    | UnionPair(disc: nat, content: Option<nat>)

  datatype RealPending = RealPending(slot: nat, push: RealPush)

  ghost predicate Realizes(h: Heap, r: RealPush, p: Push) {
    match (r, p)
    case (ScalarSlot(v, d), PushScalar(w, e)) => v == w && d == e
    case (OffsetSlot(node), PushOffset(w)) => Leads(h, node, w)
    case (InlineStruct(b, a), PushStruct(c, e)) => b == c && a == e
    case (UnionPair(disc, content), PushUnion(d, w)) =>
      disc == d && content.Some? == w.Some? && (content.Some? ==> Leads(h, content.value, w.value))
    case _ => false
  }

  ghost predicate AllRealize(h: Heap, rs: seq<RealPending>, ps: seq<Pending>) {
    |rs| == |ps| && forall i :: 0 <= i < |rs| ==> rs[i].slot == ps[i].slot && Realizes(h, rs[i].push, ps[i].push)
  }

  lemma {:induction false} RealizesStable(h: Heap, g: Heap, r: RealPush, p: Push)
    requires h <= g && Realizes(h, r, p)
    ensures Realizes(g, r, p)
  {
    hide Leads;
    match (r, p) {
      case (OffsetSlot(node), PushOffset(w)) => LeadsStable(h, g, node, w);
      case (UnionPair(_, content), PushUnion(_, w)) => if content.Some? { LeadsStable(h, g, content.value, w.value); }
      case _ =>
    }
  }

  lemma {:induction false} AllRealizeStable(h: Heap, g: Heap, rs: seq<RealPending>, ps: seq<Pending>)
    requires h <= g && AllRealize(h, rs, ps)
    ensures AllRealize(g, rs, ps)
  {
    hide Realizes;
    forall i | 0 <= i < |rs| ensures rs[i].slot == ps[i].slot && Realizes(g, rs[i].push, ps[i].push) {
      RealizesStable(h, g, rs[i].push, ps[i].push);
    }
  }

  /** A field's push, or its absence, or the same error. */
  ghost predicate Pushes(h: Heap, r: Result<Option<RealPush>, BuildError>, p: Result<Option<Push>, BuildError>) {
    if r.Err? then p == Err(r.error)
    else p.Ok? && r.value.Some? == p.value.Some? && (r.value.Some? ==> Realizes(h, r.value.value, p.value.value))
  }

  // The write phase.

  /** The open table's slots unfold to `ws`. */
  ghost predicate Written(h: Heap, vtable: map<nat, Slot>, ws: map<nat, Val>) {
    && vtable.Keys == ws.Keys
    && forall o :: o in vtable ==> ws[o] == UnfoldSlot(h, vtable[o], |h|) && (vtable[o].Ref? ==> vtable[o].node < |h|)
  }

  lemma {:induction false} TableOfSlots(h: Heap, vtable: map<nat, Slot>, ws: map<nat, Val>)
    requires Written(h, vtable, ws)
    ensures NodeBackward(TableNode(vtable), |h|)
    ensures Leads(h + [TableNode(vtable)], |h|, TableVal(ws))
  {
    var g := h + [TableNode(vtable)];
    forall o | o in vtable ensures UnfoldSlot(g, vtable[o], |h|) == ws[o] { SlotStable(h, g, vtable[o], |h|); }
    assert Unfold(g, |h|).slots == ws;
  }

  /** Pushes all pending slots into a table and closes it. */
  method WriteTable(fbb: FlatBufferBuilder, pending: seq<RealPending>, ghost ps: seq<Pending>) returns (r: Result<nat,
                    BuildError>)
    requires Backward(fbb.nodes) && AllRealize(fbb.nodes, pending, ps)
    modifies fbb
    ensures Backward(fbb.nodes) && old(fbb.nodes) <= fbb.nodes
    ensures var slots := WriteSlots(ps, map[]);
      Builds(fbb.nodes, r, if slots.Err? then Err(slots.error) else Ok(TableVal(slots.value)))
  {
    hide Realizes, WriteSlot, Written, Backward, Unfold;
    fbb.StartTable();
    ghost var ws: map<nat, Val> := map[];
    NothingWritten(fbb.nodes);
    for i := 0 to |pending|
      invariant fbb.nodes == old(fbb.nodes) && |pending| == |ps|
      invariant WriteSlots(ps, map[]) == WriteSlots(ps[i..], ws)
      invariant Written(fbb.nodes, fbb.vtable, ws)
    {
      assert ps[i..][0] == ps[i] && ps[i..][1..] == ps[i + 1..];
      var done := WriteOne(fbb, pending[i], ps[i], ws);
      if done.Err? { return Err(done.error); }
      ws := WriteSlot(ps[i], ws).value;
    }
    TableOfSlots(fbb.nodes, fbb.vtable, ws);
    var node := fbb.Append(TableNode(fbb.vtable));
    return Ok(node);
  }

  lemma {:induction false} NothingWritten(h: Heap)
    ensures Written(h, map[], map[])
  {
  }

  lemma {:induction false} SlotWritten(h: Heap, vtable: map<nat, Slot>, ws: map<nat, Val>, o: nat, slot: Slot, w: Val)
    requires Written(h, vtable, ws) && w == UnfoldSlot(h, slot, |h|) && (slot.Ref? ==> slot.node < |h|)
    ensures Written(h, vtable[o := slot], ws[o := w])
  {
  }

  method WriteOne(fbb: FlatBufferBuilder, pending: RealPending, ghost p: Pending, ghost ws: map<nat,
                  Val>) returns (r: Result<(), BuildError>)
    requires pending.slot == p.slot && Realizes(fbb.nodes, pending.push, p.push) && Written(fbb.nodes, fbb.vtable, ws)
    modifies fbb`vtable
    ensures if r.Err? then WriteSlot(p, ws) == Err(r.error)
      else WriteSlot(p, ws).Ok? && Written(fbb.nodes, fbb.vtable, WriteSlot(p, ws).value)
  {
    hide Written, SameScalar, Unfold;
    var o := pending.slot;
    match pending.push {
      case ScalarSlot(value, default) =>
        SlotWritten(fbb.nodes, fbb.vtable, ws, o, Direct(value), ScalarVal(value));
        fbb.PushSlot(o, value, default);
      case OffsetSlot(node) =>
        SlotWritten(fbb.nodes, fbb.vtable, ws, o, Ref(node), p.push.v);
        fbb.PushSlotAlways(o, Ref(node));
      case InlineStruct(bytes, align) =>
        if !Dispatchable(|bytes|, align) { return Err(Unsupported); }
        SlotWritten(fbb.nodes, fbb.vtable, ws, o, Inline(bytes), StructVal(bytes));
        fbb.PushSlotAlways(o, Inline(bytes));
      case UnionPair(disc, content) =>
        if o < 2 { return Err(Internal); }
        ghost var withDisc := if disc == 0 then ws else ws[o - 2 := ScalarVal(I(disc))];
        assert SameScalar(I(disc), I(0)) <==> disc == 0 by { SameInts(disc, 0); }
        if disc != 0 { SlotWritten(fbb.nodes, fbb.vtable, ws, o - 2, Direct(I(disc)), ScalarVal(I(disc))); }
        fbb.PushSlot(o - 2, I(disc), I(0));
        if content.Some? {
          SlotWritten(fbb.nodes, fbb.vtable, withDisc, o, Ref(content.value), p.push.content.value);
          fbb.PushSlotAlways(o, Ref(content.value));
        }
    }
    return Ok(());
  }

  lemma {:induction false} SameInts(a: int, b: int)
    ensures SameScalar(I(a), I(b)) <==> a == b
  {
  }
}
