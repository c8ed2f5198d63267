/** What a reader finds in the nodes of a buffer and what is in the tree the buffer unfolds to. */
module HeapTree {
  import opened Wrappers
  import opened Buffer
  import opened ToJson

  /** `v` is the tree of the table whose vtable is `slots`; offsets below `b` lead backward. */
  ghost predicate Mirrors(h: Heap, slots: map<nat, Slot>, b: nat, v: Val) {
    && b <= |h|
    && Slots(v).Keys == slots.Keys
    && forall o :: o in slots ==> Slots(v)[o] == UnfoldSlot(h, slots[o], b) && (slots[o].Ref? ==> slots[o].node < b)
  }

  lemma {:induction false} MirrorsNode(h: Heap, item: Slot, below: nat)
    requires Backward(h) && below <= |h| && (item.Ref? ==> item.node < below)
    ensures Mirrors(h, SlotsAt(h, item), if item.Ref? then item.node else 0, UnfoldSlot(h, item, below))
  {
    if item.Ref? { assert NodeBackward(h[item.node], item.node); }
  }

  lemma {:induction false} UnfoldedScalar(h: Heap, s: Slot, below: nat)
    ensures UnfoldSlot(h, s, below).ScalarVal? <==> s.Direct?
    ensures s.Direct? ==> UnfoldSlot(h, s, below) == ScalarVal(s.sc)
  {
  }

  /** What the two readers find in one slot. */
  lemma {:induction false} SlotMirrored(h: Heap, slots: map<nat, Slot>, b: nat, v: Val, o: nat)
    requires Mirrors(h, slots, b, v)
    ensures o in Slots(v) <==> o in slots
    ensures o in slots ==>
              var x := Slots(v)[o];
              && x == UnfoldSlot(h, slots[o], b)
              && StructAtSlot(h, slots, o) == (if x.StructVal? then Some(x.bytes) else None)
              && StringAtSlot(h, slots, o) == (if x.StringVal? then Some(x.s) else None)
              && (TableAtSlot(h, slots, o).Some? <==> x.TableVal?)
              && BodyAtSlot(h, slots, o) == Some(Body(x))
    ensures o in slots && slots[o].Ref? ==> slots[o].node < b <= |h|
    ensures o !in slots ==>
      StructAtSlot(h, slots, o) == None && StringAtSlot(h, slots, o) == None && TableAtSlot(h, slots, o) == None
  {
  }

  lemma {:induction false} ChildMirrors(h: Heap, slots: map<nat, Slot>, b: nat, v: Val, o: nat)
    requires Backward(h) && Mirrors(h, slots, b, v) && TableAtSlot(h, slots, o).Some?
    ensures slots[o].Ref? && o in Slots(v) && Mirrors(h, TableAtSlot(h, slots, o).value, slots[o].node, Slots(v)[o])
  {
    hide Mirrors, Unfold;
    SlotMirrored(h, slots, b, v, o);
    MirrorsNode(h, slots[o], b);
  }

  /** The elements of a vector, through the heap and in the tree. */
  ghost predicate ElementsMirror(h: Heap, items: seq<Slot>, nb: nat, vals: seq<Val>) {
    && nb <= |h| && |items| == |vals|
    && forall i :: 0 <= i < |items| ==> vals[i] == UnfoldSlot(h, items[i], nb) && (items[i].Ref? ==> items[i].node < nb)
  }

  lemma {:induction false} VectorMirrored(h: Heap, slots: map<nat, Slot>, b: nat, v: Val,
                                          o: nat) returns (items: seq<Slot>, nb: nat)
    requires Backward(h) && Mirrors(h, slots, b, v) && o in slots
    ensures o in Slots(v) && VectorAtSlot(h, slots, o) == Some(items)
      && ElementsMirror(h, items, nb, Items(Slots(v)[o]))
  {
    assert Slots(v)[o] == UnfoldSlot(h, slots[o], b);
    items := VectorAtSlot(h, slots, o).value;
    nb := if slots[o].Ref? then slots[o].node else 0;
    if slots[o].Ref? { assert NodeBackward(h[nb], nb); }
  }

  lemma {:induction false} MirrorLength(h: Heap, items: seq<Slot>, nb: nat, vals: seq<Val>)
    requires ElementsMirror(h, items, nb, vals)
    ensures |items| == |vals|
  {
  }

  lemma {:induction false} MirrorAt(h: Heap, items: seq<Slot>, nb: nat, vals: seq<Val>, i: nat)
    requires ElementsMirror(h, items, nb, vals) && i < |items|
    ensures nb <= |h| && i < |vals| && vals[i] == UnfoldSlot(h, items[i], nb) && (items[i].Ref? ==> items[i].node < nb)
  {
  }
}
