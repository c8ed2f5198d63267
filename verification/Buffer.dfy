/**
 FlatBuffers as a graph of nodes.

 The byte layout of tables, strings and offset vectors belongs to the FlatBuffers library, so a buffer
 is a list of nodes and a table a map from vtable slots to values; structs and struct vectors, whose
 layout this repository computes, stay bytes. A builder only appends nodes, so what it builds is
 acyclic and unfolds to a tree.
 */
module Buffer {
  import opened Wrappers
  import opened Bytes
  import opened Scalars

  /** What a vtable slot or a vector element holds: a scalar, an inline struct, or an offset to a node. */
  datatype Slot = Direct(sc: Scalar) | Inline(bytes: seq<byte>) | Ref(node: nat)

  datatype Node =
    | TableNode(slots: map<nat, Slot>)
    | StringNode(s: string)
    | VectorNode(items: seq<Slot>)
    | BytesNode(bytes: seq<byte>)         // [ubyte]
    | StructNode(bytes: seq<byte>)        // out-of-line struct of a union
    | StructVectorNode(body: seq<byte>)   // count word, then the elements

  type Heap = seq<Node>

  /** The tree a node unfolds to. */
  datatype Val =
    | ScalarVal(sc: Scalar)
    | StringVal(s: string)
    | TableVal(slots: map<nat, Val>)
    | VectorVal(items: seq<Val>)
    | BytesVal(bytes: seq<byte>)
    | StructVal(bytes: seq<byte>)
    | StructVectorVal(body: seq<byte>)
    | Dangling

  /** Every offset leads to an earlier node, as in a buffer built bottom-up. */
  predicate Backward(h: Heap) {
    forall i :: 0 <= i < |h| ==> NodeBackward(h[i], i)
  }

  predicate NodeBackward(n: Node, i: nat) {
    match n
    case TableNode(slots) => forall o :: o in slots && slots[o].Ref? ==> slots[o].node < i
    case VectorNode(items) => forall k :: 0 <= k < |items| && items[k].Ref? ==> items[k].node < i
    case _ => true
  }

  function Unfold(h: Heap, i: nat): Val
    decreases i, 1
  {
    if i >= |h| then Dangling
    else
      match h[i]
      case TableNode(slots) => TableVal(map o | o in slots :: UnfoldSlot(h, slots[o], i))
      case StringNode(s) => StringVal(s)
      case VectorNode(items) => VectorVal(seq(|items|, k requires 0 <= k < |items| => UnfoldSlot(h, items[k], i)))
      case BytesNode(bytes) => BytesVal(bytes)
      case StructNode(bytes) => StructVal(bytes)
      case StructVectorNode(body) => StructVectorVal(body)
  }

  function UnfoldSlot(h: Heap, s: Slot, below: nat): Val
    decreases below, 0
  {
    match s
    case Direct(sc) => ScalarVal(sc)
    case Inline(bytes) => StructVal(bytes)
    case Ref(j) => if j < below then Unfold(h, j) else Dangling
  }

  /** Appending nodes changes nothing about the nodes already there. */
  lemma {:induction false} UnfoldStable(h: Heap, g: Heap, i: nat)
    requires h <= g && i < |h|
    ensures Unfold(g, i) == Unfold(h, i)
    decreases i, 1
  {
    assert g[i] == h[i];
    match h[i] {
      case TableNode(slots) =>
        forall o | o in slots ensures UnfoldSlot(g, slots[o], i) == UnfoldSlot(h, slots[o], i) {
          SlotStable(h, g, slots[o], i);
        }
      case VectorNode(items) =>
        forall k | 0 <= k < |items| ensures UnfoldSlot(g, items[k], i) == UnfoldSlot(h, items[k], i) {
          SlotStable(h, g, items[k], i);
        }
      case _ =>
    }
  }

  lemma {:induction false} SlotStable(h: Heap, g: Heap, s: Slot, below: nat)
    requires h <= g && below <= |h|
    ensures UnfoldSlot(g, s, below) == UnfoldSlot(h, s, below)
    decreases below, 0
  {
    if s.Ref? && s.node < below {
      UnfoldStable(h, g, s.node);
    }
  }

  /** The count word and the elements of a struct vector, as `end_vector` leaves them. */
  function StructVectorBody(count: nat, all: seq<byte>): seq<byte> {
    LittleEndian(count, 4) + all
  }

  // Access to nodes.

  /** The vtable of the table an offset leads to. */
  function SlotsAt(h: Heap, s: Slot): map<nat, Slot> {
    if s.Ref? && s.node < |h| && h[s.node].TableNode? then h[s.node].slots else map[]
  }

  function TableAtSlot(h: Heap, slots: map<nat, Slot>, o: nat): Option<map<nat, Slot>> {
    if o in slots && slots[o].Ref? && slots[o].node < |h|
      && h[slots[o].node].TableNode? then Some(h[slots[o].node].slots) else None
  }

  function StringAtSlot(h: Heap, slots: map<nat, Slot>, o: nat): Option<string> {
    if o in slots && slots[o].Ref? && slots[o].node < |h| && h[slots[o].node].StringNode? then Some(h[slots[o].node].s)
      else None
  }

  /** A struct field is inline in its table, a union's struct out of line. */
  function StructAtSlot(h: Heap, slots: map<nat, Slot>, o: nat): Option<seq<byte>> {
    if o in slots && slots[o].Inline? then Some(slots[o].bytes)
    else if o in slots && slots[o].Ref? && slots[o].node < |h|
      && h[slots[o].node].StructNode? then Some(h[slots[o].node].bytes) else None
  }

  /** The elements of a vector of scalars or offsets; absent when the slot is. */
  function VectorAtSlot(h: Heap, slots: map<nat, Slot>, o: nat): Option<seq<Slot>> {
    if o !in slots then None
    else if slots[o].Ref? && slots[o].node < |h| && h[slots[o].node].VectorNode? then Some(h[slots[o].node].items)
    else Some([])
  }

  /** `vector_body_at`: count word and elements of a struct vector. */
  function BodyAtSlot(h: Heap, slots: map<nat, Slot>, o: nat): Option<seq<byte>> {
    if o !in slots then None
    else if slots[o].Ref? && slots[o].node < |h| && h[slots[o].node].StructVectorNode? then Some(h[slots[o].node].body)
    else Some([])
  }

  function Count(body: seq<byte>): nat {
    Unsigned(Window(body, 0, 4))
  }
}
