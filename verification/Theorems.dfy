/** The results about whole documents and queries; each rests on the module that proves it member by member. */
module Theorems {
  import opened Wrappers
  import opened Schema
  import opened Scalars
  import opened Buffer
  import opened KeyText
  import opened FromJson
  import opened ToJson
  import opened Canon
  import opened WritePhase
  import opened HeapTree
  import opened DocumentPaths
  import D = DepthLimit
  import E = Executor
  import I = Idempotence
  import L = Lenient
  import LM = LookupModes
  import BL = BuiltLookups
  import CB = ComesBack
  import CN = CanonNulls
  import FP = FixedPoints
  import QV = QueryVerdicts
  import R = RoundTrip
  import RE = Reencode
  import RF = ReadFaults
  import RT = ReencodeTables
  import SR = SameReaders
  import J = Json
  import Q = Query

  /**
   The law of the two converters: if `from_json` accepts a document, `to_json` of the buffer is the
   document's canonical form, or fails as that does. When and how is `AcceptedConvertsBack`.
   */
  lemma {:induction false} WholeDocumentRoundTrip(v: J.Value, root: nat, s: Schema, o: Options, rd: KeyReader)
    requires GoodSchema(s) && JsonToBuf(v, root, s, o).Ok?
    ensures ReadTable(JsonToBuf(v, root, s, o).value, root, s, rd) == CanonTable(v, root, s, rd)
  {
    hide EncTable, ReadTable, CanonTable, GoodSchema;
    R.TableRoundTrip(v, root, s, 0, o, rd);
  }

  /**
   Not every accepted document converts back. It does exactly if it has no faults: every number given for
   a `float` narrows to a finite one, every missing float field has a finite default, and every union left
   out has a variant for NONE. Otherwise `to_json` fails with the first fault in reading order.
   */
  lemma {:induction false} AcceptedConvertsBack(v: J.Value, root: nat, s: Schema, o: Options, rd: KeyReader)
    requires GoodSchema(s) && JsonToBuf(v, root, s, o).Ok?
    ensures RF.Faulted(ReadTable(JsonToBuf(v, root, s, o).value, root, s, rd), RF.TableFaults(v, root, s))
  {
    hide *;
    Accepted(v, root, s, o);
    WholeDocumentRoundTrip(v, root, s, o, rd);
    RF.TableFaulted(v, root, s, 0, o, rd);
  }

  /**
   `canon` is idempotent exactly on the documents that are kept: what both converters make of a document,
   they make of it again if and only if every default that is filled in returns, and the last row under
   each key has a key that returns and is not a missing string.
   */
  lemma {:induction false} CanonIsIdempotent(v: J.Value, root: nat, s: Schema, rd: KeyReader)
    requires I.CanonSchema(s) && CanonTable(v, root, s, rd).Ok?
    ensures CanonTable(CanonTable(v, root, s, rd).value, root, s, rd) == CanonTable(v, root, s, rd)
      <==> FP.Kept(v, root, s, rd)
  {
    hide CanonTable, I.CanonSchema, FP.Kept;
    FP.TableFixed(v, root, s, rd, CanonTable(v, root, s, rd).value);
  }

  /**
   What `to_json` writes is taken back exactly if it stays within the depth limit and every key and every
   filled default in it returns, all read off the document that was built: `Returns` counts the levels that
   the canonical form needs, and asks of the last row under each key that its text gives the key back.
   */
  lemma {:induction false} ReencodesExactly(v: J.Value, root: nat, s: Schema, o0: Options, rd: KeyReader, c: J.Value,
                                            o: Options)
    requires RE.ReturnSchema(s) && JsonToBuf(v, root, s, o0).Ok?
      && ReadTable(JsonToBuf(v, root, s, o0).value, root, s, rd) == Ok(c)
    ensures JsonToBuf(c, root, s, o).Ok? <==> RE.Returns(v, root, s, rd, o.maxDepth)
    ensures JsonToBuf(c, root, s, o).Ok? <==>
            D.TableCost(c, root, s) <= o.maxDepth && RE.ReturnsUnlimited(v, root, s, rd)
  {
    hide *;
    Accepted(v, root, s, o0);
    RE.ReturnSchemaAt(s, root);
    WholeDocumentRoundTrip(v, root, s, o0, rd);
    ReturnsAtRoot(v, root, s, o0, rd, c, o);
    CostOf(c, root, s, o, o);
    if RE.Returns(v, root, s, rd, o.maxDepth) { SomeBudget(v, root, s, rd, o.maxDepth); }
    if D.TableCost(c, root, s) <= o.maxDepth && RE.ReturnsUnlimited(v, root, s, rd) {
      var b := BudgetOf(v, root, s, rd);
      var big := if b < o.maxDepth then o.maxDepth else b;
      ReturnsAtRoot(v, root, s, o0, rd, c, o.(maxDepth := b));
      CostOf(c, root, s, o.(maxDepth := b), o.(maxDepth := big));
      CostOf(c, root, s, o, o.(maxDepth := big));
    }
  }

  /**
   It comes back as the same document exactly if it is within the limit and the document is kept, which
   asks one thing more: that the last row under each key is not without a string key.
   */
  lemma {:induction false} ComesBackExactly(v: J.Value, root: nat, s: Schema, o0: Options, rd: KeyReader, c: J.Value,
                                            o: Options)
    requires RE.ReturnSchema(s) && JsonToBuf(v, root, s, o0).Ok?
      && ReadTable(JsonToBuf(v, root, s, o0).value, root, s, rd) == Ok(c)
    ensures ComesBack(c, root, s, o, rd) <==> D.TableCost(c, root, s) <= o.maxDepth && FP.Kept(v, root, s, rd)
    ensures ComesBack(c, root, s, o, rd) <==>
            RE.Returns(v, root, s, rd, o.maxDepth) && FP.Kept(v, root, s, rd)
  {
    hide *;
    RE.ReturnSchemaAt(s, root);
    WholeDocumentRoundTrip(v, root, s, o0, rd);
    ReencodesExactly(v, root, s, o0, rd, c, o);
    FP.TableFixed(v, root, s, rd, c);
    ComesBackIf(c, root, s, o, rd);
    if JsonToBuf(c, root, s, o).Ok? { WholeDocumentRoundTrip(c, root, s, o, rd); }
    if FP.Kept(v, root, s, rd) {
      CB.KeptReturns(v, root, s, rd, 2 * J.Height(v));
      SomeBudget(v, root, s, rd, 2 * J.Height(v));
    }
  }

  /** `from_json` accepts the document and `to_json` gives it back. */
  predicate ComesBack(c: J.Value, root: nat, s: Schema, o: Options, rd: KeyReader) {
    JsonToBuf(c, root, s, o).Ok? && ReadTable(JsonToBuf(c, root, s, o).value, root, s, rd) == Ok(c)
  }

  lemma {:induction false} ComesBackIf(c: J.Value, root: nat, s: Schema, o: Options, rd: KeyReader)
    ensures ComesBack(c, root, s, o, rd) <==>
            JsonToBuf(c, root, s, o).Ok? && ReadTable(JsonToBuf(c, root, s, o).value, root, s, rd) == Ok(c)
  {
    hide JsonToBuf, ReadTable;
  }

  lemma {:induction false} ReturnsAtRoot(v: J.Value, root: nat, s: Schema, o0: Options, rd: KeyReader, c: J.Value,
                                         o: Options)
    requires RE.ReturnSchema(s) && EncTable(v, root, s, 0, o0).Ok? && CanonTable(v, root, s, rd) == Ok(c)
    ensures c.Obj? && JsonToBuf(c, root, s, o) == EncTable(c, root, s, 0, o)
    ensures JsonToBuf(c, root, s, o).Ok? <==> RE.Returns(v, root, s, rd, o.maxDepth)
  {
    hide RE.ReturnSchema, EncTable, CanonTable, RE.Returns;
    RT.NothingPut(v, root, s, rd, c);
    RT.NoneInjected(c.m, TableAt(s, root).fields);
    RT.TableReturns(v, root, s, 0, o0, rd, c, map[], 0, o);
  }

  lemma {:induction false} CostOf(c: J.Value, root: nat, s: Schema, o: Options, o': Options)
    requires c.Obj? && o.maxDepth <= o'.maxDepth && o.unknownIsError == o'.unknownIsError
    ensures JsonToBuf(c, root, s, o).Ok? ==> D.TableCost(c, root, s) <= o.maxDepth
    ensures D.TableCost(c, root, s) <= o.maxDepth ==> JsonToBuf(c, root, s, o) == JsonToBuf(c, root, s, o')
  {
    hide EncTable, D.TableCost;
    D.TableDepth(c, root, s, 0, o, o');
  }

  lemma {:induction false} SomeBudget(v: J.Value, root: nat, s: Schema, rd: KeyReader, budget: nat)
    requires RE.Returns(v, root, s, rd, budget)
    ensures RE.ReturnsUnlimited(v, root, s, rd)
  {
    hide RE.Returns;
  }

  lemma {:induction false} BudgetOf(v: J.Value, root: nat, s: Schema, rd: KeyReader) returns (budget: nat)
    requires RE.ReturnsUnlimited(v, root, s, rd)
    ensures RE.Returns(v, root, s, rd, budget)
  {
    hide RE.Returns;
    budget :| RE.Returns(v, root, s, rd, budget);
  }

  /**
   Two readers agree. On any buffer that converts to JSON, the document decides whether a query is answered
   or refused, and the leaves of an answered one are, in order, the text of the values that its path
   selects in the document, filled defaults included. Rows are looked up among ascending keys; a path
   without literals looks nothing up (`NoLookups`).
   */
  lemma {:induction false} QueryIsSelection(h: Heap, root: nat, t: nat, s: Schema, steps: seq<Q.Step>,
                                            path: seq<Q.Step>, o: E.ExecOptions, rd: KeyReader, doc: J.Value)
    requires Backward(h) && root < |h| && L.NamedApart(s) && o.fillDefaults && o.reader == rd
      && Spells(s, t, steps, path)
    requires LM.GoodLookups(LM.Listed, h, SlotsAt(h, Ref(root)), t, s, steps, o)
    requires ReadTable(Unfold(h, root), t, s, rd) == Ok(doc)
    ensures steps != [] && Agrees(E.WalkTable(h, SlotsAt(h, Ref(root)), t, s, steps, o),
      TableVerdict(s, t, steps, doc), Select(doc, path))
  {
    hide *;
    SR.SpelledField(s, t, steps, path);
    SR.RootSlot(h, root);
    MirrorsNode(h, Ref(root), root + 1);
    SR.TableAgrees(h, SlotsAt(h, Ref(root)), root, Unfold(h, root), t, s, steps, path, o, rd, doc);
  }

  /**
   End to end: build a buffer from a document and query it. The query is answered exactly when the
   document's canonical form says so, and its leaves are the text of what the path selects there. A query
   that resolves in the schema is always answered. Rows that the query looks up strictly or leniently must
   have come from an object of rows; nothing is asked of a query without literals.
   */
  lemma {:induction false} QueryOfDocument(v: J.Value, root: nat, s: Schema, bo: Options, h: Heap, node: nat,
                                           steps: seq<Q.Step>, path: seq<Q.Step>,
                        o: E.ExecOptions, rd: KeyReader, doc: J.Value)
    requires GoodSchema(s) && L.NamedApart(s) && Backward(h) && node < |h|
    requires JsonToBuf(v, root, s, bo) == Ok(Unfold(h, node)) && CanonTable(v, root, s, rd) == Ok(doc)
    requires o.fillDefaults && o.reader == rd && Spells(s, root, steps, path)
    requires LM.KeyFree(steps) || BL.DocLookups(v, root, s, steps, rd)
    ensures steps != []
    ensures var run := E.WalkTable(h, SlotsAt(h, Ref(node)), root, s, steps, o);
            && (run.Ok? <==> TableVerdict(s, root, steps, doc).Answered?)
            && (run.Ok? ==> AllShow(run.value, Select(doc, path)))
            && (QV.Resolves(s, root, steps) ==> run.Ok?)
  {
    hide *;
    Accepted(v, root, s, bo);
    WholeDocumentRoundTrip(v, root, s, bo, rd);
    LookupsOfRoot(v, root, s, bo, h, node, steps, o);
    QueryIsSelection(h, node, root, s, steps, path, o, rd, doc);
    CN.CanonNullFree(v, root, s, 0, bo, rd);
    QV.NullFreeTells(s, root, steps, doc);
    if QV.Resolves(s, root, steps) { QV.ResolvedIsAnswered(s, root, steps, doc); }
    Decided(E.WalkTable(h, SlotsAt(h, Ref(node)), root, s, steps, o), TableVerdict(s, root, steps, doc),
      Select(doc, path));
  }

  lemma {:induction false} LookupsOfRoot(v: J.Value, root: nat, s: Schema, bo: Options, h: Heap, node: nat,
                                         steps: seq<Q.Step>, o: E.ExecOptions)
    requires GoodSchema(s) && Backward(h) && node < |h| && EncTable(v, root, s, 0, bo) == Ok(Unfold(h, node))
    requires LM.KeyFree(steps) || BL.DocLookups(v, root, s, steps, o.reader)
    ensures LM.GoodLookups(LM.Listed, h, SlotsAt(h, Ref(node)), root, s, steps, o)
  {
    hide *;
    if LM.KeyFree(steps) {
      LM.NoLookups(LM.Listed, h, SlotsAt(h, Ref(node)), root, s, steps, o);
    } else {
      SR.RootSlot(h, node);
      MirrorsNode(h, Ref(node), node + 1);
      BL.BuiltTable(h, SlotsAt(h, Ref(node)), node, v, root, s, 0, bo, steps, o);
    }
  }

  lemma {:induction false} Accepted(v: J.Value, root: nat, s: Schema, o: Options)
    requires JsonToBuf(v, root, s, o).Ok?
    ensures EncTable(v, root, s, 0, o) == JsonToBuf(v, root, s, o)
  {
    hide EncTable;
  }

  lemma {:induction false} Decided(run: E.Leaves, verdict: Verdict, vals: seq<Option<J.Value>>)
    requires Agrees(run, verdict, vals) && !verdict.Untold?
    ensures (run.Ok? <==> verdict.Answered?) && (run.Ok? ==> AllShow(run.value, vals))
  {
    hide AllShow;
  }

  /** The option for unknown keys, on a whole document. */
  lemma {:induction false} LenientDocument(v: J.Value, root: nat, s: Schema, lenient: Options, strict: Options)
    requires L.NamedApart(s) && L.Modes(lenient, strict)
    ensures JsonToBuf(v, root, s, lenient) == JsonToBuf(L.EraseTable(v, root, s), root, s, strict)
  {
    hide EncTable;
    L.LenientTable(v, root, s, 0, lenient, strict);
  }

  /**
   The limit is exact: a build succeeds only if the document's cost is within it, a nesting error means the
   cost exceeds it, and within the cost every larger limit gives the identical buffer or error.
   */
  lemma {:induction false} LimitIsExact(v: J.Value, root: nat, s: Schema, o: Options)
    ensures JsonToBuf(v, root, s, o).Ok? ==> D.TableCost(v, root, s) <= o.maxDepth
    ensures JsonToBuf(v, root, s, o) == Err(NestingTooDeep) ==> D.TableCost(v, root, s) > o.maxDepth
    ensures forall d: nat :: D.TableCost(v, root, s) <= o.maxDepth <= d ==>
              JsonToBuf(v, root, s, o.(maxDepth := d)) == JsonToBuf(v, root, s, o)
  {
    hide EncTable, D.TableCost;
    forall d: nat | o.maxDepth <= d
      ensures D.Accounted(D.TableCost(v, root, s), o.maxDepth, EncTable(v, root, s, 0, o),
        EncTable(v, root, s, 0, o.(maxDepth := d)))
    {
      D.TableDepth(v, root, s, 0, o, o.(maxDepth := d));
    }
    assert D.Accounted(D.TableCost(v, root, s), o.maxDepth, EncTable(v, root, s, 0, o),
      EncTable(v, root, s, 0, o.(maxDepth := o.maxDepth)));
  }
}
