/**
 Paths over JSON documents.

 `Select` knows nothing of schemas or buffers: it walks an object by member names and an array by index.
 `SameReaders` shows that running a query on a buffer is selecting from the buffer's `to_json` document.
 */
module DocumentPaths {
  import opened Wrappers
  import opened Floats
  import opened Schema
  import J = Json
  import E = Executor
  import Q = Query
  import Text

  /** What a path yields below a member that is not there: nothing under `[*]`, otherwise one NULL. */
  function Missing(tail: seq<Q.Step>): seq<Option<J.Value>> {
    if tail != [] && tail[0].All? then [] else [None]
  }

  function Member(j: J.Value, name: string): Option<J.Value> {
    if j.Obj? && name in j.m then Some(j.m[name]) else None
  }

  /** The values at a path, in document order; below `null` and under a key that is not there, one NULL. */
  function Select(j: J.Value, path: seq<Q.Step>): seq<Option<J.Value>>
    decreases |path|, 0
  {
    if path == [] then [if j.Null? then None else Some(j)]
    else
      match path[0]
      case Field(Name(name)) =>
        if !j.Obj? then [None]
        else if Member(j, name).Some? then Select(Member(j, name).value, path[1..]) else Missing(path[1..])
      case Index(i) => if j.Arr? && i < |j.items| then Select(j.items[i], path[1..]) else [None]
      case All => if j.Arr? then SelectEach(j.items, path[1..]) else []
      case MapKey(KeyText(k)) => if Member(j, k).Some? then Select(Member(j, k).value, path[1..]) else [None]
      case _ => [None]
  }

  function SelectEach(items: seq<J.Value>, path: seq<Q.Step>): seq<Option<J.Value>>
    decreases |path|, |items| + 1
  {
    if items == [] then [] else SelectEach(items[..|items| - 1], path) + Select(items[|items| - 1], path)
  }

  /** `Select` at a member that may be missing. */
  function SelectMember(member: Option<J.Value>, tail: seq<Q.Step>): seq<Option<J.Value>> {
    if member.Some? then Select(member.value, tail) else Missing(tail)
  }

  /** A leaf is the text of a document value: its decimal digits, its content, its truth value or its float. */
  predicate Shows(leaf: E.Leaf, j: J.Value) {
    match leaf
    case Plain(text) =>
      (match j
       case Str(s) => text == s
       case Num(Int(n)) => text == Text.Dec(n)
       case Bool(b) => text == "0" <==> !b
       case _ => false)
    case Float4(b) => IsFinite(Widen(b)) && j == J.Num(J.Float(Widen(b)))
    case Float8(b) => IsFinite(b) && j == J.Num(J.Float(b))
  }

  predicate LeafShows(leaf: Option<E.Leaf>, j: Option<J.Value>) {
    if leaf.None? || j.None? then leaf.None? && j.None? else Shows(leaf.value, j.value)
  }

  /** The query's leaves are the document's values, one for one, in order. */
  predicate AllShow(leaves: seq<Option<E.Leaf>>, vals: seq<Option<J.Value>>) {
    |leaves| == |vals| && forall i :: 0 <= i < |leaves| ==> LeafShows(leaves[i], vals[i])
  }

  /** What a document tells of a query: it is answered, it is refused, or the document cannot tell. */
  datatype Verdict = Answered | Refused | Untold

  /** The run succeeds if the document says so, fails if it says so, and on success its leaves are the selection. */
  predicate Agrees(run: E.Leaves, verdict: Verdict, vals: seq<Option<J.Value>>) {
    && (run.Ok? ==> AllShow(run.value, vals))
    && (verdict.Answered? ==> run.Ok?)
    && (verdict.Refused? ==> run.Err?)
  }

  // Whether a query is answered, from the schema and the document.

  function Of(b: bool): Verdict {
    if b then Answered else Refused
  }

  /** Both parts of a fan-out must be answered. */
  function Both(a: Verdict, b: Verdict): Verdict {
    if a.Refused? || b.Refused? then Refused else if a.Untold? || b.Untold? then Untold else Answered
  }

  /**
   A query on a table with this document. It is refused at a field that is not there, at a leaf that is
   no scalar or string, in a variant without fields, in structs of no size, and where an element of a
   fan-out is. It is answered with NULL at every absent member, index out of range and missing key.
   */
  function TableVerdict(s: Schema, t: nat, steps: seq<Q.Step>, doc: J.Value): Verdict
    decreases |steps|, 0, 0
  {
    if steps == [] || !steps[0].Field? then Refused
    else
      match E.FindField(TableAt(s, t).fields, steps[0].ref)
      case None => Refused
      case Some(f) => FieldVerdict(s, f, steps[1..], Member(doc, f.name), Member(doc, DiscKey(f.name)))
  }

  function FieldVerdict(s: Schema, f: Field, tail: seq<Q.Step>, member: Option<J.Value>, tag: Option<J.Value>): Verdict
    decreases |tail|, 3, 0
  {
    match f.typ
    case Scalar(_, _) => Of(tail == [])
    case String => Of(tail == [] || (member.None? && !tail[0].UnionType?))
    case Struct(def) => if member.None? then Answered else StructVerdict(def, tail, member.value)
    case Table(t) => if member.None? then Answered else ChildVerdict(s, t, tail, member.value)
    case Vector(el) => if tail == [] then Refused else VectorVerdict(s, el, tail[0], tail[1..], member)
    case Union(variants) => if member.None? then Answered else UnionVerdict(s, variants, tail, member.value, tag)
    case Vector64 => Refused
  }

  function StructVerdict(def: StructDef, tail: seq<Q.Step>, value: J.Value): Verdict {
    Of(tail != [] && (value.Null? || StructAnswers(def, tail)))
  }

  function ChildVerdict(s: Schema, t: nat, tail: seq<Q.Step>, value: J.Value): Verdict
    decreases |tail|, 1, 0
  {
    if tail == [] then Refused else if value.Null? then Answered else TableVerdict(s, t, tail, value)
  }

  predicate DistinctVariantNames(variants: seq<Variant>) {
    forall i, j :: 0 <= i < j < |variants| ==> variants[i].name != variants[j].name
  }

  /** The tag's name picks the active variant; a buffer's document always names one beside a value. */
  function UnionVerdict(s: Schema, variants: seq<Variant>, tail: seq<Q.Step>, value: J.Value,
                        tag: Option<J.Value>): Verdict
    decreases |tail|, 2, 1
  {
    if tag.None? || !tag.value.Str? then Answered
    else
      match VariantByName(variants, tag.value.s)
      case None => Answered
      case Some(variant) => if variant.typ.None? then Answered else VariantVerdict(s, variant.typ.value, tail, value)
  }

  /**
   A `null` under a variant is a value that is missing or of the wrong kind, which readers of leaves treat
   differently.
   */
  function VariantVerdict(s: Schema, t: VariantType, tail: seq<Q.Step>, value: J.Value): Verdict
    decreases |tail|, 2, 0
  {
    if tail == [] then (if t.VString? then Answered else if value.Null? then Untold else Refused)
    else
      match t
      case VTable(i) => ChildVerdict(s, i, tail, value)
      case VStruct(def) => StructVerdict(def, tail, value)
      case VString => if value.Null? then Untold else Refused
  }

  function ItemsOf(j: J.Value): seq<J.Value> {
    if j.Arr? then j.items else []
  }

  function VectorVerdict(s: Schema, el: ElementType, step: Q.Step, rest: seq<Q.Step>, member: Option<J.Value>): Verdict
    decreases |rest|, 2, 0
  {
    if step.MapKey? then KeyVerdict(s, el, step.key, rest, member)
    else
      match el
      case EScalar(st, _) => Of(rest == [] && !st.UType?)
      case EString => Of(rest == [])
      case EStruct(def) =>
        if rest == [] then Refused
        else if member.None? then Answered
        else if step.Index? && step.index >= |ItemsOf(member.value)| then Answered
        else Of(def.bytesize > 0 && ((step.All? && ItemsOf(member.value) == []) || StructAnswers(def, rest)))
      case ETable(t) =>
        if member.None? then Answered
        else if step.Index? && step.index >= |ItemsOf(member.value)| then Answered
        else if rest == [] then Refused
        else if step.Index? then TableVerdict(s, t, rest, ItemsOf(member.value)[step.index])
        else EachVerdict(s, t, rest, ItemsOf(member.value))
      case EOther => Refused
  }

  function EachVerdict(s: Schema, t: nat, rest: seq<Q.Step>, items: seq<J.Value>): Verdict
    decreases |rest|, 1, |items|
  {
    if items == [] then Answered
    else Both(EachVerdict(s, t, rest, items[..|items| - 1]), TableVerdict(s, t, rest, items[|items| - 1]))
  }

  function KeyVerdict(s: Schema, el: ElementType, key: Q.MapKey, rest: seq<Q.Step>, member: Option<J.Value>): Verdict
    decreases |rest|, 1, 0
  {
    if !el.ETable? || !key.KeyText? || E.LookupKeyedField(TableAt(s, el.index).fields).Err? || rest == [] then Refused
    else if member.None? then Answered
    else
      var row := Member(member.value, KeyName(E.LookupKeyedField(TableAt(s, el.index).fields).value, key.text));
      if row.None? then Answered else TableVerdict(s, el.index, rest, row.value)
  }

  /** The object key under which `to_json` lists the row that a literal asks for. */
  function KeyName(kf: Field, text: string): string {
    if kf.typ.String? || Text.ParseI64(text).None? then text else Text.Dec(Text.ParseI64(text).value)
  }

  /** Paths through a struct are answered or refused whatever it holds. */
  predicate StructAnswers(def: StructDef, steps: seq<Q.Step>)
    decreases |steps|, 0
  {
    && steps != [] && steps[0].Field?
    && match E.FindStructField(def.fields, steps[0].ref)
       case None => false
       case Some(f) => StructFieldAnswers(f.typ, steps[1..])
  }

  predicate StructFieldAnswers(t: StructFieldType, tail: seq<Q.Step>)
    decreases |tail|, 1
  {
    match t
    case SScalar(st, _) => tail == [] && !st.UType?
    case SStruct(d) => StructAnswers(d, tail)
    case SScalarArray(st, n) => tail != [] && (OutOfReach(tail[0], n) || (tail[1..] == [] && !st.UType?))
    case SStructArray(d, n) => tail != [] && d.bytesize > 0 && (OutOfReach(tail[0], n) || StructAnswers(d, tail[1..]))
  }

  /** An index past the end, or `[*]` over nothing. */
  predicate OutOfReach(step: Q.Step, n: nat) {
    (step.Index? && step.index >= n) || (step.All? && n == 0)
  }

  // Which queries are about values that `to_json` shows as such.

  /** The default lies in its type's range, so that a query prints the number `to_json` shows (`DefaultShows`). */
  predicate PlainDefault(f: Field, st: ScalarType) {
    IsInteger(st) ==> MinInt(st) <= f.defaultInt <= MaxInt(st)
  }

  predicate SameStep(steps: seq<Q.Step>, path: seq<Q.Step>) {
    steps != [] && path != [] && steps[0] == path[0] && (steps[0].Index? || steps[0].All?)
  }

  predicate EntersField(steps: seq<Q.Step>, path: seq<Q.Step>) {
    steps != [] && steps[0].Field? && path != [] && path[0].Field?
  }

  /** The path names the field that the query's first step refers to, by name or by id. */
  predicate NamesField(path: seq<Q.Step>, name: string) {
    path != [] && path[0] == Q.Field(Q.Name(name))
  }

  /**
   `path` spells the query `steps` on table `t` with names, and the query stays on plain data: no enum
   leaf, no `[ubyte]`, no `|type`, and of a keyed vector only the row of one key. Steps behind a scalar or
   a string are not spelled: they are refused, or answered with NULL where the string is absent.
   */
  predicate Spells(s: Schema, t: nat, steps: seq<Q.Step>, path: seq<Q.Step>)
    decreases |steps|, 0, 0
  {
    && steps != [] && steps[0].Field?
    && match E.FindField(TableAt(s, t).fields, steps[0].ref)
       case None => true
       case Some(f) => NamesField(path, f.name) && SpellsBelow(s, f, steps[1..], path[1..])
  }

  predicate SpellsBelow(s: Schema, f: Field, tail: seq<Q.Step>, path: seq<Q.Step>)
    decreases |tail|, 2
  {
    match f.typ
    case Scalar(st, en) => !st.UType? && (tail == [] ==> path == [] && en.None? && PlainDefault(f, st))
    case String => path == [] || (tail != [] && !path[0].All?)
    case Struct(def) => if tail == [] then path == [] else EntersField(tail, path) && SpellsStruct(def, tail, path)
    case Table(t) => if tail == [] then path == [] else EntersField(tail, path) && Spells(s, t, tail, path)
    case Vector(el) => tail == [] || SpellsVector(s, el, tail, path)
    case Union(variants) =>
      && DistinctVariantNames(variants)
      && if tail == [] then path == [] else EntersField(tail, path) && SpellsVariants(s, variants, tail, path)
    case Vector64 => true
  }

  predicate SpellsVariants(s: Schema, variants: seq<Variant>, tail: seq<Q.Step>, path: seq<Q.Step>)
    decreases |tail|, 1
  {
    forall i :: 0 <= i < |variants| && variants[i].typ.Some? ==> SpellsVariant(s, variants[i].typ.value, tail, path)
  }

  predicate SpellsVariant(s: Schema, t: VariantType, tail: seq<Q.Step>, path: seq<Q.Step>)
    decreases |tail|, 0, 1
  {
    match t
    case VTable(i) => Spells(s, i, tail, path)
    case VStruct(def) => SpellsStruct(def, tail, path)
    case VString => true
  }

  predicate SpellsVector(s: Schema, el: ElementType, steps: seq<Q.Step>, path: seq<Q.Step>)
    decreases |steps|, 1
  {
    if steps != [] && steps[0].MapKey? then SpellsKey(s, el, steps, path)
    else
      && SameStep(steps, path)
      && match el
         case EScalar(_, _) | EString => steps[1..] == [] ==> path[1..] == [] && LeafElement(el)
         case EStruct(def) => steps[1..] == [] || SpellsStruct(def, steps[1..], path[1..])
         case ETable(t) => KeyedField(TableAt(s, t).fields).None?
           && (steps[1..] == [] || Spells(s, t, steps[1..], path[1..]))
         case EOther => true
  }

  /** `to_json` shows these elements as they are: bytes are text, tags and enums names. */
  predicate LeafElement(el: ElementType) {
    match el
    case EScalar(st, en) => !(st.UByte? || st.UType?) && !(st.Int? && en.Some?)
    case EString => true
    case _ => false
  }

  /** The path names the row by the text `to_json` lists it under. */
  predicate SpellsKey(s: Schema, el: ElementType, steps: seq<Q.Step>, path: seq<Q.Step>)
    requires steps != [] && steps[0].MapKey?
    decreases |steps|, 0
  {
    && el.ETable? && steps[0].key.KeyText?
    && var kf := E.LookupKeyedField(TableAt(s, el.index).fields);
       && kf.Ok? && (kf.value.typ.String? || E.IsIntegerKeyType(kf.value.typ))
       && NamesKey(path, KeyName(kf.value, steps[0].key.text))
       && (steps[1..] == [] || Spells(s, el.index, steps[1..], path[1..]))
  }

  predicate NamesKey(path: seq<Q.Step>, k: string) {
    path != [] && path[0] == Q.MapKey(Q.KeyText(k))
  }

  predicate DistinctStructNames(fields: seq<StructField>) {
    forall i, j :: 0 <= i < j < |fields| ==> fields[i].name != fields[j].name
  }

  predicate SpellsStruct(def: StructDef, steps: seq<Q.Step>, path: seq<Q.Step>)
    decreases |steps|, 0, 0
  {
    && steps != [] && steps[0].Field? && DistinctStructNames(def.fields)
    && match E.FindStructField(def.fields, steps[0].ref)
       case None => true
       case Some(f) => NamesField(path, f.name) && SpellsStructBelow(f.typ, steps[1..], path[1..])
  }

  predicate SpellsStructBelow(t: StructFieldType, tail: seq<Q.Step>, path: seq<Q.Step>)
    decreases |tail|, 1
  {
    match t
    case SScalar(_, en) => tail == [] ==> path == [] && en.None?
    case SStruct(d) => tail == [] || SpellsStruct(d, tail, path)
    case SScalarArray(_, _) => tail == [] || (SameStep(tail, path) && path[1..] == [])
    case SStructArray(d, _) =>
      tail == [] || (SameStep(tail, path) && (tail[1..] == [] || SpellsStruct(d, tail[1..], path[1..])))
  }
}
