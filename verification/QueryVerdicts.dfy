/**
 When a query is answered.

 `DocumentPaths` tells from a document whether a query of it succeeds. Without nulls the document always
 tells, canonical documents have none, and a query that resolves in the schema is answered on all of them.
 */
module QueryVerdicts {
  import opened Wrappers
  import opened Schema
  import opened CanonNulls
  import opened DocumentPaths
  import E = Executor
  import J = Json
  import Q = Query

  // Documents without nulls always tell.

  lemma {:induction false} NullFreeMember(j: J.Value, name: string)
    requires NullFree(j)
    ensures Member(j, name).Some? ==> NullFree(Member(j, name).value) && !Member(j, name).value.Null?
  {
  }

  lemma {:induction false} NullFreeItems(j: J.Value)
    requires NullFree(j)
    ensures forall i :: 0 <= i < |ItemsOf(j)| ==> NullFree(ItemsOf(j)[i])
  {
  }

  /** A document without nulls tells whether the query is answered. */
  lemma {:induction false} NullFreeTells(s: Schema, t: nat, steps: seq<Q.Step>, doc: J.Value)
    requires NullFree(doc)
    ensures !TableVerdict(s, t, steps, doc).Untold?
    decreases |steps|, 1, 0
  {
    hide NullFree, VectorVerdict, UnionVerdict, ChildVerdict, StructAnswers, TableAt, E.FindField;
    if steps != [] && steps[0].Field? {
      match E.FindField(TableAt(s, t).fields, steps[0].ref) {
        case None =>
        case Some(f) =>
          var tail := steps[1..];
          NullFreeMember(doc, f.name);
          match (f.typ, Member(doc, f.name)) {
            case (Table(i), Some(x)) => ChildTells(s, i, tail, x);
            case (Union(variants), Some(x)) => UnionTells(s, variants, tail, x, Member(doc, DiscKey(f.name)));
            case (Vector(el), member) => if tail != [] { VectorTells(s, el, tail[0], tail[1..], member); }
            case _ =>
          }
      }
    }
  }

  lemma {:induction false} ChildTells(s: Schema, t: nat, tail: seq<Q.Step>, x: J.Value)
    requires NullFree(x)
    ensures !ChildVerdict(s, t, tail, x).Untold?
    decreases |tail|, 2, 0
  {
    hide NullFree, TableVerdict;
    if tail != [] { NullFreeTells(s, t, tail, x); }
  }

  lemma {:induction false} UnionTells(s: Schema, variants: seq<Variant>, tail: seq<Q.Step>, x: J.Value,
                                      tag: Option<J.Value>)
    requires NullFree(x) && !x.Null?
    ensures !UnionVerdict(s, variants, tail, x, tag).Untold?
    decreases |tail|, 3, 0
  {
    hide NullFree, StructAnswers, VariantByName, ChildVerdict;
    if tag.Some? && tag.value.Str? {
      match VariantByName(variants, tag.value.s) {
        case Some(Variant(_, _, Some(VTable(i)))) => ChildTells(s, i, tail, x);
        case _ =>
      }
    }
  }

  lemma {:induction false} VectorTells(s: Schema, el: ElementType, step: Q.Step, rest: seq<Q.Step>,
                                       member: Option<J.Value>)
    requires member.Some? ==> NullFree(member.value)
    ensures !VectorVerdict(s, el, step, rest, member).Untold?
    decreases |rest|, 3, 0
  {
    hide NullFree, TableVerdict, EachVerdict, StructAnswers, TableAt, E.LookupKeyedField, KeyName;
    if el.ETable? && member.Some? && rest != [] {
      NullFreeItems(member.value);
      match step {
        case MapKey(KeyText(text)) =>
          if E.LookupKeyedField(TableAt(s, el.index).fields).Ok? {
            var k := KeyName(E.LookupKeyedField(TableAt(s, el.index).fields).value, text);
            NullFreeMember(member.value, k);
            if Member(member.value, k).Some? { NullFreeTells(s, el.index, rest, Member(member.value, k).value); }
          }
        case Index(i) => if i < |ItemsOf(member.value)| { NullFreeTells(s, el.index, rest, ItemsOf(member.value)[i]); }
        case _ => EachTells(s, el.index, rest, ItemsOf(member.value));
      }
    }
  }

  lemma {:induction false} EachTells(s: Schema, t: nat, rest: seq<Q.Step>, items: seq<J.Value>)
    requires forall i :: 0 <= i < |items| ==> NullFree(items[i])
    ensures !EachVerdict(s, t, rest, items).Untold?
    decreases |rest|, 2, |items|
  {
    hide NullFree, TableVerdict;
    if items != [] {
      EachTells(s, t, rest, items[..|items| - 1]);
      NullFreeTells(s, t, rest, items[|items| - 1]);
    }
  }

  // Queries that resolve are never refused.

  /** Each step finds its field, whatever variant is active, and the path ends at a scalar or a string. */
  predicate Resolves(s: Schema, t: nat, steps: seq<Q.Step>)
    decreases |steps|, 0
  {
    && steps != [] && steps[0].Field?
    && E.FindField(TableAt(s, t).fields, steps[0].ref).Some?
    && ResolvesBelow(s, E.FindField(TableAt(s, t).fields, steps[0].ref).value, steps[1..])
  }

  predicate ResolvesBelow(s: Schema, f: Field, tail: seq<Q.Step>)
    decreases |tail|, 2
  {
    match f.typ
    case Scalar(_, _) | String => tail == []
    case Struct(def) => tail != [] && StructAnswers(def, tail)
    case Table(t) => tail != [] && Resolves(s, t, tail)
    case Vector(el) => tail != [] && ResolvesElement(s, el, tail[0], tail[1..])
    case Union(variants) => forall i :: 0 <= i < |variants| && variants[i].typ.Some? ==>
      ResolvesVariant(s, variants[i].typ.value, tail)
    case Vector64 => false
  }

  predicate ResolvesVariant(s: Schema, t: VariantType, tail: seq<Q.Step>)
    decreases |tail|, 1
  {
    match t
    case VTable(i) => tail != [] && Resolves(s, i, tail)
    case VStruct(def) => tail != [] && StructAnswers(def, tail)
    case VString => tail == []
  }

  predicate ResolvesElement(s: Schema, el: ElementType, step: Q.Step, rest: seq<Q.Step>)
    decreases |rest|, 1
  {
    match el
    case EScalar(st, _) => !step.MapKey? && rest == [] && !st.UType?
    case EString => !step.MapKey? && rest == []
    case EStruct(def) => !step.MapKey? && rest != [] && def.bytesize > 0 && StructAnswers(def, rest)
    case ETable(t) => rest != [] && Resolves(s, t, rest)
      && (step.MapKey? ==> step.key.KeyText? && E.LookupKeyedField(TableAt(s, t).fields).Ok?)
    case EOther => false
  }

  lemma {:induction false} ResolvedIsNotRefused(s: Schema, t: nat, steps: seq<Q.Step>, doc: J.Value)
    requires Resolves(s, t, steps)
    ensures !TableVerdict(s, t, steps, doc).Refused?
    decreases |steps|, 1, 0
  {
    hide VectorVerdict, UnionVerdict, ChildVerdict, StructAnswers, TableAt, E.FindField, ResolvesVariant,
      ResolvesElement;
    var f := E.FindField(TableAt(s, t).fields, steps[0].ref).value;
    var tail := steps[1..];
    match (f.typ, Member(doc, f.name)) {
      case (Table(i), Some(x)) => ResolvedChild(s, i, tail, x);
      case (Union(variants), Some(x)) => ResolvedUnion(s, variants, tail, x, Member(doc, DiscKey(f.name)));
      case (Vector(el), member) => ResolvedElement(s, el, tail[0], tail[1..], member);
      case _ =>
    }
  }

  lemma {:induction false} ResolvedChild(s: Schema, t: nat, tail: seq<Q.Step>, x: J.Value)
    requires tail != [] && Resolves(s, t, tail)
    ensures !ChildVerdict(s, t, tail, x).Refused?
    decreases |tail|, 2, 0
  {
    hide Resolves, TableVerdict;
    ResolvedIsNotRefused(s, t, tail, x);
  }

  lemma {:induction false} ResolvedUnion(s: Schema, variants: seq<Variant>, tail: seq<Q.Step>, x: J.Value,
                                         tag: Option<J.Value>)
    requires forall i :: 0 <= i < |variants| && variants[i].typ.Some? ==>
      ResolvesVariant(s, variants[i].typ.value, tail)
    ensures !UnionVerdict(s, variants, tail, x, tag).Refused?
    decreases |tail|, 3, 0
  {
    hide StructAnswers, VariantByName, ChildVerdict, Resolves;
    if tag.Some? && tag.value.Str? {
      VariantListed(variants, tag.value.s);
      match VariantByName(variants, tag.value.s) {
        case Some(Variant(_, _, Some(VTable(i)))) => if tail != [] { ResolvedChild(s, i, tail, x); }
        case _ =>
      }
    }
  }

  lemma {:induction false} VariantListed(variants: seq<Variant>, name: string)
    ensures VariantByName(variants, name).Some? ==> VariantByName(variants, name).value in variants
  {
    if variants != [] { VariantListed(variants[1..], name); }
  }

  lemma {:induction false} ResolvedElement(s: Schema, el: ElementType, step: Q.Step, rest: seq<Q.Step>,
                                           member: Option<J.Value>)
    requires ResolvesElement(s, el, step, rest)
    ensures !VectorVerdict(s, el, step, rest, member).Refused?
    decreases |rest|, 3, 0
  {
    hide TableVerdict, EachVerdict, StructAnswers, TableAt, E.LookupKeyedField, KeyName, Resolves;
    if el.ETable? && member.Some? {
      match step {
        case MapKey(KeyText(text)) =>
          var k := KeyName(E.LookupKeyedField(TableAt(s, el.index).fields).value, text);
          if Member(member.value, k).Some? { ResolvedIsNotRefused(s, el.index, rest, Member(member.value, k).value); }
        case Index(i) =>
          if i < |ItemsOf(member.value)| {
            ResolvedIsNotRefused(s, el.index, rest, ItemsOf(member.value)[i]);
          }
        case MapKey(KeyInt(_)) =>
        case _ => ResolvedEach(s, el.index, rest, ItemsOf(member.value));
      }
    }
  }

  lemma {:induction false} ResolvedEach(s: Schema, t: nat, rest: seq<Q.Step>, items: seq<J.Value>)
    requires Resolves(s, t, rest)
    ensures !EachVerdict(s, t, rest, items).Refused?
    decreases |rest|, 2, |items|
  {
    hide TableVerdict, Resolves;
    if items != [] {
      ResolvedEach(s, t, rest, items[..|items| - 1]);
      ResolvedIsNotRefused(s, t, rest, items[|items| - 1]);
    }
  }

  /** A query that resolves is answered on every document without nulls. */
  lemma {:induction false} ResolvedIsAnswered(s: Schema, t: nat, steps: seq<Q.Step>, doc: J.Value)
    requires Resolves(s, t, steps) && NullFree(doc)
    ensures TableVerdict(s, t, steps, doc).Answered?
  {
    hide *;
    NullFreeTells(s, t, steps, doc);
    ResolvedIsNotRefused(s, t, steps, doc);
  }
}
