/**
 The query language, declaratively: which texts spell which queries.

     query   := [SCHEMA ':'] TABLE ':' path
     path    := segment ('.' segment)*
     segment := (IDENT | '#' DIGITS) ('[' ('*' | DIGITS | TEXT) ']')* ('|keys' | '|type')?
 */
module Grammar {
  import opened Wrappers
  import opened Query
  import Text

  const MAX_ID: nat := 0xFFFF
  const MAX_INDEX: nat := 0xFFFF_FFFF_FFFF_FFFF

  predicate IsAlpha(c: char) {
    'a' <= c <= 'z' || 'A' <= c <= 'Z'
  }

  predicate IsIdentStart(c: char) {
    IsAlpha(c) || c == '_'
  }

  predicate IsIdentCont(c: char) {
    IsIdentStart(c) || Text.IsDigit(c)
  }

  predicate IsIdent(s: string) {
    s != [] && IsIdentStart(s[0]) && forall i :: 0 <= i < |s| ==> IsIdentCont(s[i])
  }

  /** A dot-separated chain of identifiers. */
  predicate IsTableName(s: string) {
    && s != [] && s[|s| - 1] != '.'
    && forall i :: 0 <= i < |s| ==> NameCharOk(s, i)
  }

  /** An identifier starts at the front and after every dot. */
  predicate NameCharOk(s: string, i: nat)
    requires i < |s|
  {
    if i == 0 || s[i - 1] == '.' then IsIdentStart(s[i]) else s[i] == '.' || IsIdentCont(s[i])
  }

  /** Digits for a number up to `max`; leading zeros are allowed. */
  predicate Numeral(s: string, n: nat, max: nat) {
    s != [] && Text.AllDigits(s) && Text.DigitsValue(s) == n <= max
  }

  /** A literal key: not empty, not `*`, not a number, without the characters that end it or the header. */
  predicate IsKeyText(s: string) {
    s != [] && s != "*" && !Text.AllDigits(s) && ']' !in s && ':' !in s
  }

  predicate SpellsRef(r: FieldRef, s: string) {
    match r
    case Name(name) => s == name && IsIdent(name)
    case Id(id) => s != [] && s[0] == '#' && Numeral(s[1..], id, MAX_ID)
  }

  /** What stands between the brackets. */
  predicate SpellsContent(step: Step, s: string) {
    match step
    case All => s == "*"
    case Index(i) => Numeral(s, i, MAX_INDEX)
    case MapKey(KeyText(text)) => s == text && IsKeyText(text)
    case _ => false
  }

  predicate Bracketed(s: string) {
    |s| >= 2 && s[0] == '[' && s[|s| - 1] == ']'
  }

  /** The text of one step; a field other than the first is led by a dot. */
  predicate SpellsStep(step: Step, first: bool, s: string) {
    match step
    case Field(r) => if first then SpellsRef(r, s) else s != [] && s[0] == '.' && SpellsRef(r, s[1..])
    case MapKeys => s == "|keys"
    case UnionType => s == "|type"
    case _ => Bracketed(s) && SpellsContent(step, s[1..|s| - 1])
  }

  predicate Terminal(step: Step) {
    step.MapKeys? || step.UnionType?
  }

  /** The shape (Field (Index | All | MapKey)* (MapKeys | UnionType)?)+. */
  predicate Shaped(steps: seq<Step>) {
    && steps != [] && steps[0].Field?
    && forall i :: 0 < i < |steps| && Terminal(steps[i - 1]) ==> steps[i].Field?
  }

  function Concat(tokens: seq<string>): string {
    if tokens == [] then "" else tokens[0] + Concat(tokens[1..])
  }

  predicate SpellsSteps(steps: seq<Step>, tokens: seq<string>, first: bool) {
    |tokens| == |steps| && forall i :: 0 <= i < |steps| ==> SpellsStep(steps[i], first && i == 0, tokens[i])
  }

  /** `path` is the text of these steps. */
  ghost predicate SpellsPath(steps: seq<Step>, path: string) {
    Shaped(steps) && exists tokens: seq<string> :: SpellsSteps(steps, tokens, true) && Concat(tokens) == path
  }

  predicate SpellsHeader(q: Query, header: string) {
    && IsTableName(q.root)
    && match q.schema
       case None => header == q.root
       case Some(schema) => IsIdent(schema) && header == schema + ":" + q.root
  }

  ghost predicate SpellsQuery(q: Query, s: string) {
    exists header: string, path: string ::
      s == header + ":" + path && SpellsHeader(q, header) && SpellsPath(q.steps, path)
  }

  // The printer: the spelling without leading zeros.

  function PrintRef(r: FieldRef): string {
    match r
    case Name(name) => name
    case Id(id) => "#" + Text.DecNat(id)
  }

  function PrintStep(step: Step, first: bool): string {
    match step
    case Field(r) => (if first then "" else ".") + PrintRef(r)
    case Index(i) => "[" + Text.DecNat(i) + "]"
    case All => "[*]"
    case MapKey(KeyText(text)) => "[" + text + "]"
    case MapKey(KeyInt(n)) => "[" + Text.Dec(n) + "]"
    case MapKeys => "|keys"
    case UnionType => "|type"
  }

  function PrintSteps(steps: seq<Step>, first: bool): (tokens: seq<string>)
    ensures |tokens| == |steps|
    ensures forall i :: 0 <= i < |steps| ==> tokens[i] == PrintStep(steps[i], first && i == 0)
  {
    seq(|steps|, i requires 0 <= i < |steps| => PrintStep(steps[i], first && i == 0))
  }

  function Print(q: Query): string {
    (match q.schema case None => q.root case Some(schema) => schema + ":" + q.root) + ":" +
      Concat(PrintSteps(q.steps, true))
  }

  /** What a parser can return. */
  predicate WellFormedStep(step: Step) {
    match step
    case Field(Name(name)) => IsIdent(name)
    case Field(Id(id)) => id <= MAX_ID
    case Index(i) => i <= MAX_INDEX
    case MapKey(KeyText(text)) => IsKeyText(text)
    case MapKey(KeyInt(_)) => false
    case _ => true
  }

  predicate WellFormed(q: Query) {
    && (q.schema.Some? ==> IsIdent(q.schema.value)) && IsTableName(q.root) && Shaped(q.steps)
    && forall i :: 0 <= i < |q.steps| ==> WellFormedStep(q.steps[i])
  }

  lemma {:induction false} PrintSpellsRef(r: FieldRef)
    requires WellFormedStep(Field(r))
    ensures SpellsRef(r, PrintRef(r))
  {
    if r.Id? {
      Text.DecNatValue(r.id);
      assert ("#" + Text.DecNat(r.id))[1..] == Text.DecNat(r.id);
    }
  }

  lemma {:induction false} PrintSpellsStep(step: Step, first: bool)
    requires WellFormedStep(step)
    ensures SpellsStep(step, first, PrintStep(step, first))
  {
    hide SpellsRef, IsKeyText, Numeral, Text.DecNat;
    match step {
      case Field(r) =>
        PrintSpellsRef(r);
        assert ("." + PrintRef(r))[1..] == PrintRef(r);
        assert "" + PrintRef(r) == PrintRef(r);
      case Index(i) =>
        NumberSpelled(i);
        Enclosed(Text.DecNat(i));
      case All =>
        Enclosed("*");
        assert "[*]" == "[" + "*" + "]";
      case MapKey(KeyText(text)) => Enclosed(text);
      case _ =>
    }
  }

  lemma {:induction false} NumberSpelled(n: nat)
    requires n <= MAX_INDEX
    ensures Numeral(Text.DecNat(n), n, MAX_INDEX)
  {
    Text.DecNatValue(n);
  }

  lemma {:induction false} Enclosed(s: string)
    ensures Bracketed("[" + s + "]") && ("[" + s + "]")[1..|"[" + s + "]"| - 1] == s
  {
  }

  /** The printed form of a well-formed query spells it. */
  lemma {:induction false} PrintSpells(q: Query)
    requires WellFormed(q)
    ensures SpellsQuery(q, Print(q))
  {
    hide PrintStep, SpellsStep, WellFormedStep, IsIdent, IsTableName, Shaped;
    var tokens := PrintSteps(q.steps, true);
    forall i | 0 <= i < |q.steps| ensures SpellsStep(q.steps[i], true && i == 0, tokens[i]) {
      PrintSpellsStep(q.steps[i], true && i == 0);
    }
    assert SpellsSteps(q.steps, tokens, true);
    var header := match q.schema case None => q.root case Some(schema) => schema + ":" + q.root;
    assert SpellsHeader(q, header) && SpellsPath(q.steps, Concat(tokens));
    assert Print(q) == header + ":" + Concat(tokens);
  }

  /** Only well-formed queries have a spelling. */
  lemma {:induction false} SpelledIsWellFormed(q: Query, s: string)
    requires SpellsQuery(q, s)
    ensures WellFormed(q)
  {
    hide IsIdent, IsTableName, Numeral, IsKeyText, Concat;
    var header, path :| s == header + ":" + path && SpellsHeader(q, header) && SpellsPath(q.steps, path);
    var tokens :| SpellsSteps(q.steps, tokens, true) && Concat(tokens) == path;
    forall i | 0 <= i < |q.steps| ensures WellFormedStep(q.steps[i]) {
      assert SpellsStep(q.steps[i], true && i == 0, tokens[i]);
      SpelledStep(q.steps[i], true && i == 0, tokens[i]);
    }
  }

  lemma {:induction false} SpelledStep(step: Step, first: bool, s: string)
    requires SpellsStep(step, first, s)
    ensures WellFormedStep(step)
  {
  }
}
