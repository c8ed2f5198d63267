/**
 Leaves that a query prints in another form than `to_json`: an enum's number beside its name, and the bytes
 of a `[ubyte]` beside its text. Each is what the document's value stands for.
 */
module LeafQueries {
  import opened Wrappers
  import opened Bytes
  import opened Schema
  import opened Scalars
  import opened Buffer
  import opened HeapTree
  import opened Blobs
  import opened KeyText
  import opened ToJson
  import opened DocumentPaths
  import opened SameReaders
  import opened ExecutorFacts
  import I = Idempotence
  import E = Executor
  import J = Json
  import Q = Query
  import Text

  /** A query of an enum field prints the number that the document's name, or number, encodes to. */
  lemma {:induction false} EnumFieldAgrees(h: Heap, slots: map<nat, Slot>, b: nat, v: Val, f: Field, s: Schema,
                                           o: E.ExecOptions, rd: KeyReader, j: J.Value) returns (n: int)
    requires f.typ.Scalar? && f.typ.en.Some? && I.GoodEnum(f.typ.st, f.typ.en) && PlainDefault(f, f.typ.st)
    requires Mirrors(h, slots, b, v) && o.fillDefaults && MemberOf(v, f, s, rd) == Ok(Some(j))
    ensures E.WalkField(h, slots, f, s, [], o) == Ok([Some(E.Plain(Text.Dec(n)))]) && Fits(f.typ.st, I(n))
    ensures n <= Text.I64_MAX ==> EncodeScalar(f.typ.st, f.typ.en, j) == Ok(I(n))
  {
    hide *;
    var st := f.typ.st;
    var stored := StoredScalar(h, slots, b, v, f, st);
    ShownEnum(v, f, s, rd, j, if stored.Some? then stored.value else DefaultScalar(st, f.defaultInt, f.defaultReal));
    EnumRun(h, slots, f, s, o);
    if stored.Some? {
      n := NumberOf(f, stored.value);
    } else {
      n := f.defaultInt;
      EnumDefault(f);
    }
    if n <= Text.I64_MAX { I.ScalarFixed(st, f.typ.en, Scalars.I(n), j); }
  }

  lemma {:induction false} ShownEnum(v: Val, f: Field, s: Schema, rd: KeyReader, j: J.Value, sc: Scalar)
    requires f.typ.Scalar? && MemberOf(v, f, s, rd) == Ok(Some(j)) && SlotScalar(Slots(v), f, f.typ.st) == sc
    requires f.offset !in Slots(v) ==> sc == DefaultScalar(f.typ.st, f.defaultInt, f.defaultReal)
    ensures ScalarJson(f.typ.st, f.typ.en, sc) == Ok(j)
  {
    hide ScalarJson, DefaultScalar;
  }

  lemma {:induction false} EnumRun(h: Heap, slots: map<nat, Slot>, f: Field, s: Schema, o: E.ExecOptions)
    requires f.typ.Scalar? && o.fillDefaults
    ensures E.WalkField(h, slots, f, s, [], o) ==
            Ok([Some(if f.offset in slots then E.PresentScalar(slots, f, f.typ.st) else E.DefaultLeaf(f, f.typ.st))])
  {
    hide E.PresentScalar, E.DefaultLeaf;
  }

  lemma {:induction false} NumberOf(f: Field, sc: Scalar) returns (n: int)
    requires f.typ.Scalar? && f.typ.en.Some? && I.GoodEnum(f.typ.st, f.typ.en) && Fits(f.typ.st, sc)
    ensures sc == Scalars.I(n) && E.ScalarLeaf(sc) == E.Plain(Text.Dec(n))
  {
    n := sc.n;
  }

  lemma {:induction false} EnumDefault(f: Field)
    requires f.typ.Scalar? && f.typ.en.Some? && I.GoodEnum(f.typ.st, f.typ.en) && PlainDefault(f, f.typ.st)
    ensures DefaultScalar(f.typ.st, f.defaultInt, f.defaultReal) == Scalars.I(f.defaultInt)
    ensures E.DefaultLeaf(f, f.typ.st) == E.Plain(Text.Dec(f.defaultInt)) && Fits(f.typ.st, Scalars.I(f.defaultInt))
  {
    hide Cast, Text.Dec;
    CastExact(f.typ.st, f.defaultInt);
  }

  /** A query of a `[ubyte]` prints, by index and by `[*]`, the bytes that the document's text decodes to. */
  lemma {:induction false} BytesAgree(h: Heap, slots: map<nat, Slot>, b: nat, v: Val, f: Field, s: Schema,
                                      o: E.ExecOptions, rd: KeyReader, text: string, i: nat) returns (bs: seq<byte>)
    requires f.typ.Vector? && f.typ.elem.EScalar? && f.typ.elem.st.UByte? && Mirrors(h, slots, b, v)
    requires MemberOf(v, f, s, rd) == Ok(Some(J.Str(text)))
    ensures ParseBlob(text, f.hex) == Some(bs)
    ensures E.WalkField(h, slots, f, s, [Q.Index(i)], o) ==
            Ok([if i < |bs| then Some(E.Plain(Text.Dec(bs[i]))) else None])
    ensures E.WalkField(h, slots, f, s, [Q.All], o) ==
            Ok(seq(|bs|, k requires 0 <= k < |bs| => Some(E.Plain(Text.Dec(bs[k])))))
  {
    hide *;
    bs := BytesShown(v, f, s, rd, text);
    SlotMirrored(h, slots, b, v, f.offset);
    BytesNodeOf(h, slots[f.offset], b, bs);
    BlobRoundTrip(bs, f.hex);
    ByteElements(h, slots, f, s, bs, o, i);
  }

  lemma {:induction false} BytesShown(v: Val, f: Field, s: Schema, rd: KeyReader, text: string) returns (bs: seq<byte>)
    requires f.typ.Vector? && f.typ.elem.EScalar? && f.typ.elem.st.UByte?
      && MemberOf(v, f, s, rd) == Ok(Some(J.Str(text)))
    ensures f.offset in Slots(v) && Slots(v)[f.offset] == BytesVal(bs) && text == BlobText(bs, f.hex)
  {
    hide BlobText;
    if f.offset in Slots(v) {
      var x := Slots(v)[f.offset];
      assert ReadValue(v, x, f, s, rd) == ToJson.ReadVector(x, f.typ.elem, f.hex, s, rd);
      assert x.BytesVal?;
      bs := x.bytes;
    } else {
      assert false;
    }
  }

  lemma {:induction false} BytesNodeOf(h: Heap, slot: Slot, b: nat, bs: seq<byte>)
    requires UnfoldSlot(h, slot, b) == BytesVal(bs)
    ensures slot.Ref? && slot.node < |h| && h[slot.node] == BytesNode(bs)
  {
  }
}
