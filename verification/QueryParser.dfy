/**
 The cursor parser of `parser.rs`.

 The functions say what a parse from a position yields, the first error and its position included; the
 `Parser` class reaches the same result by advancing its `pos` and growing its `steps`.
 */
module QueryParser {
  import opened Wrappers
  import opened Grammar
  import Q = Query
  import Text

  datatype Component = SchemaName | TableName | PathText | TableSegment

  datatype ErrorKind =
    | QueryTooLong(len: nat, limit: nat)
    | PathTooDeep(depth: nat, limit: nat)
    | MissingPathSeparator
    | EmptyComponent(what: Component)
    | TooManyColons
    | ExpectedIdentifier(found: char)
    | UnexpectedChar(found: char)
    | InvalidFieldId
    | UnclosedBracket
    | EmptyBracket
    | IndexTooLarge
    | UnknownPipeKeyword(keyword: string)
    | TrailingAfterPipe

  datatype ParseError = ParseError(kind: ErrorKind, position: nat)

  type Parsed<T> = Result<T, ParseError>

  function Fail<T>(kind: ErrorKind, position: nat): Parsed<T> {
    Err(ParseError(kind, position))
  }

  /** A step and the position after it. */
  datatype Token = Token(step: Q.Step, next: nat)

  /** The cursor and the steps so far. */
  datatype State = State(pos: nat, steps: seq<Q.Step>)

  // Scanning.

  function DigitsEnd(b: string, pos: nat): (end: nat)
    requires pos <= |b|
    ensures pos <= end <= |b| && Text.AllDigits(b[pos..end])
    ensures end < |b| ==> !Text.IsDigit(b[end])
    decreases |b| - pos
  {
    if pos < |b| && Text.IsDigit(b[pos]) then DigitsEnd(b, pos + 1) else pos
  }

  function IdentEnd(b: string, pos: nat): (end: nat)
    requires pos <= |b|
    ensures pos <= end <= |b| && forall i :: pos <= i < end ==> IsIdentCont(b[i])
    ensures end < |b| ==> !IsIdentCont(b[end])
    decreases |b| - pos
  {
    if pos < |b| && IsIdentCont(b[pos]) then IdentEnd(b, pos + 1) else pos
  }

  function AlphaEnd(b: string, pos: nat): (end: nat)
    requires pos <= |b|
    ensures pos <= end <= |b| && forall i :: pos <= i < end ==> IsAlpha(b[i])
    ensures end < |b| ==> !IsAlpha(b[end])
    decreases |b| - pos
  {
    if pos < |b| && IsAlpha(b[pos]) then AlphaEnd(b, pos + 1) else pos
  }

  /** The first `c` from `pos` on. */
  function Find(b: string, pos: nat, c: char): (at: Option<nat>)
    requires pos <= |b|
    ensures at.Some? ==> pos <= at.value < |b| && b[at.value] == c && c !in b[pos..at.value]
    ensures at.None? ==> c !in b[pos..]
    decreases |b| - pos
  {
    if pos == |b| then None else if b[pos] == c then Some(pos) else Find(b, pos + 1, c)
  }

  // One token each.

  function FieldAt(b: string, pos: nat, base: nat): (r: Parsed<Token>)
    requires pos <= |b|
    ensures r.Ok? ==> pos < r.value.next <= |b| && r.value.step.Field?
  {
    if pos == |b| then Fail(ExpectedIdentifier('\0'), base + pos)
    else if b[pos] == '#' then
      var end := DigitsEnd(b, pos + 1);
      if end == pos + 1 || Text.DigitsValue(b[pos + 1..end]) > MAX_ID then Fail(InvalidFieldId, base + pos)
      else Ok(Token(Q.Field(Q.Id(Text.DigitsValue(b[pos + 1..end]))), end))
    else if IsIdentStart(b[pos]) then
      var end := IdentEnd(b, pos + 1);
      Ok(Token(Q.Field(Q.Name(b[pos..end])), end))
    else Fail(ExpectedIdentifier(b[pos]), base + pos)
  }

  function ContentStep(content: string, position: nat): (r: Parsed<Q.Step>)
    ensures r.Ok? ==> !r.value.Field? && !Terminal(r.value)
  {
    if content == "*" then Ok(Q.All)
    else if Text.AllDigits(content) then
      if Text.DigitsValue(content) > MAX_INDEX then Fail(IndexTooLarge, position)
        else Ok(Q.Index(Text.DigitsValue(content)))
    else Ok(Q.MapKey(Q.KeyText(content)))
  }

  function BracketAt(b: string, pos: nat, base: nat): (r: Parsed<Token>)
    requires pos < |b| && b[pos] == '['
    ensures r.Ok? ==> pos < r.value.next <= |b| && !r.value.step.Field? && !Terminal(r.value.step)
  {
    match Find(b, pos + 1, ']')
    case None => Fail(UnclosedBracket, base + pos)
    case Some(end) =>
      if end == pos + 1 then Fail(EmptyBracket, base + pos)
      else
        var step :- ContentStep(b[pos + 1..end], base + pos + 1);
        Ok(Token(step, end + 1))
  }

  function PipeAt(b: string, pos: nat, base: nat): (r: Parsed<Token>)
    requires pos < |b| && b[pos] == '|'
    ensures r.Ok? ==> pos < r.value.next <= |b| && Terminal(r.value.step)
  {
    var end := AlphaEnd(b, pos + 1);
    if b[pos + 1..end] == "keys" then Ok(Token(Q.MapKeys, end))
    else if b[pos + 1..end] == "type" then Ok(Token(Q.UnionType, end))
    else Fail(UnknownPipeKeyword(b[pos + 1..end]), base + pos)
  }

  /** `push`: the depth limit is checked after the token is consumed. */
  function Pushed(steps: seq<Q.Step>, t: Token, base: nat, maxDepth: nat): Parsed<State> {
    if |steps| == maxDepth then Fail(PathTooDeep(maxDepth + 1, maxDepth), base + t.next)
    else Ok(State(t.next, steps + [t.step]))
  }

  // Segments.

  predicate At(b: string, pos: nat, c: char) {
    pos < |b| && b[pos] == c
  }

  function BracketsFrom(b: string, st: State, base: nat, maxDepth: nat): (r: Parsed<State>)
    requires st.pos <= |b|
    ensures r.Ok? ==> st.pos <= r.value.pos <= |b|
    decreases |b| - st.pos
  {
    if !At(b, st.pos, '[') then Ok(st)
    else
      var t :- BracketAt(b, st.pos, base);
      var next :- Pushed(st.steps, t, base, maxDepth);
      BracketsFrom(b, next, base, maxDepth)
  }

  function PipeFrom(b: string, st: State, base: nat, maxDepth: nat): (r: Parsed<State>)
    requires st.pos <= |b|
    ensures r.Ok? ==> st.pos <= r.value.pos <= |b|
  {
    if !At(b, st.pos, '|') then Ok(st)
    else
      var t :- PipeAt(b, st.pos, base);
      var next :- Pushed(st.steps, t, base, maxDepth);
      if next.pos < |b| && b[next.pos] != '.' then Fail(TrailingAfterPipe, base + next.pos) else Ok(next)
  }

  function SegmentFrom(b: string, st: State, base: nat, maxDepth: nat): (r: Parsed<State>)
    requires st.pos <= |b|
    ensures r.Ok? ==> st.pos < r.value.pos <= |b|
  {
    var t :- FieldAt(b, st.pos, base);
    var field :- Pushed(st.steps, t, base, maxDepth);
    var brackets :- BracketsFrom(b, field, base, maxDepth);
    PipeFrom(b, brackets, base, maxDepth)
  }

  function SegmentsFrom(b: string, st: State, base: nat, maxDepth: nat): Parsed<seq<Q.Step>>
    requires st.pos <= |b|
    decreases |b| - st.pos
  {
    var next :- SegmentFrom(b, st, base, maxDepth);
    if next.pos == |b| then Ok(next.steps)
    else if b[next.pos] != '.' then Fail(UnexpectedChar(b[next.pos]), base + next.pos)
    else if next.pos + 1 == |b| then Fail(ExpectedIdentifier('.'), base + next.pos + 1)
    else SegmentsFrom(b, State(next.pos + 1, next.steps), base, maxDepth)
  }

  // The header.

  function IdentFrom(name: string, i: nat, base: nat): Parsed<()>
    requires i <= |name|
    decreases |name| - i
  {
    if i == |name| then Ok(())
    else if i == 0 && !IsIdentStart(name[0]) then Fail(ExpectedIdentifier(name[0]), base)
    else if !IsIdentCont(name[i]) then Fail(UnexpectedChar(name[i]), base + i)
    else IdentFrom(name, i + 1, base)
  }

  function TableNameFrom(name: string, i: nat, atStart: bool, base: nat): Parsed<()>
    requires i <= |name|
    decreases |name| - i
  {
    if i == |name| then if atStart then Fail(EmptyComponent(TableSegment), base + |name|) else Ok(())
    else if name[i] == '.' then
      if atStart then Fail(EmptyComponent(TableSegment), base + i) else TableNameFrom(name, i + 1, true, base)
    else if atStart then
      if !IsIdentStart(name[i]) then Fail(ExpectedIdentifier(name[i]), base + i)
        else TableNameFrom(name, i + 1, false, base)
    else if !IsIdentCont(name[i]) then Fail(UnexpectedChar(name[i]), base + i)
    else TableNameFrom(name, i + 1, false, base)
  }

  function NonEmpty(s: string, what: Component, position: nat): Parsed<()> {
    if s == [] then Fail(EmptyComponent(what), position) else Ok(())
  }

  datatype Header = Header(schema: Option<string>, table: string, path: string, offset: nat)

  function SplitHeader(s: string): (r: Parsed<Header>)
    ensures r.Ok? ==> r.value.offset <= |s| && r.value.path == s[r.value.offset..] && r.value.path != []
  {
    match Find(s, 0, ':')
    case None => Fail(MissingPathSeparator, |s|)
    case Some(first) =>
      match Find(s, first + 1, ':')
      case None => SplitTwo(s, first)
      case Some(second) =>
        if Find(s, second + 1, ':').Some? then Fail(TooManyColons, 0) else SplitThree(s, first, second)
  }

  function SplitTwo(s: string, first: nat): (r: Parsed<Header>)
    requires first < |s|
    ensures r.Ok? ==> r.value.offset <= |s| && r.value.path == s[r.value.offset..] && r.value.path != []
  {
    var table, path := s[..first], s[first + 1..];
    var _ :- NonEmpty(table, TableName, 0);
    var _ :- NonEmpty(path, PathText, first + 1);
    var _ :- TableNameFrom(table, 0, true, 0);
    Ok(Header(None, table, path, first + 1))
  }

  function SplitThree(s: string, first: nat, second: nat): (r: Parsed<Header>)
    requires first < second < |s|
    ensures r.Ok? ==> r.value.offset <= |s| && r.value.path == s[r.value.offset..] && r.value.path != []
  {
    var schema, table, path := s[..first], s[first + 1..second], s[second + 1..];
    var _ :- NonEmpty(schema, SchemaName, 0);
    var _ :- NonEmpty(table, TableName, first + 1);
    var _ :- NonEmpty(path, PathText, second + 1);
    var _ :- TableNameFrom(table, 0, true, first + 1);
    var _ :- IdentFrom(schema, 0, 0);
    Ok(Header(Some(schema), table, path, second + 1))
  }

  /** `parse_with_bounds`. */
  function Parse(s: string, maxLength: nat, maxDepth: nat): Parsed<Q.Query> {
    if |s| > maxLength then Fail(QueryTooLong(|s|, maxLength), 0)
    else
      var h :- SplitHeader(s);
      var steps :- SegmentsFrom(h.path, State(0, []), h.offset, maxDepth);
      Ok(Q.Query(h.schema, h.table, steps))
  }

  // The imperative parser.

  class Parser {
    const bytes: string
    const base: nat
    const maxDepth: nat
    var pos: nat
    var steps: seq<Q.Step>

    ghost predicate Valid()
      reads this
    {
      pos <= |bytes| && |steps| <= maxDepth
    }

    ghost function Current(): State
      reads this
    {
      State(pos, steps)
    }

    constructor (path: string, offset: nat, maxDepth: nat)
      ensures Valid() && Current() == State(0, [])
      ensures bytes == path && base == offset && this.maxDepth == maxDepth
    {
      bytes, base, this.maxDepth, pos, steps := path, offset, maxDepth, 0, [];
    }

    function Peek(): Option<char>
      reads this
    {
      if pos < |bytes| then Some(bytes[pos]) else None
    }

    method Push(step: Q.Step) returns (r: Parsed<()>)
      requires Valid()
      modifies this`steps
      ensures Valid()
      ensures Pushed(old(steps), Token(step, pos), base, maxDepth) == if r.Ok? then Ok(Current()) else Err(r.error)
    {
      if |steps| == maxDepth { return Fail(PathTooDeep(maxDepth + 1, maxDepth), base + pos); }
      steps := steps + [step];
      return Ok(());
    }

    method ParseSegments() returns (r: Parsed<()>)
      requires Valid()
      modifies this
      ensures Valid()
      ensures SegmentsFrom(bytes, old(Current()), base, maxDepth) == if r.Ok? then Ok(steps) else Err(r.error)
    {
      hide SegmentFrom;
      while true
        invariant Valid()
        invariant SegmentsFrom(bytes, old(Current()), base, maxDepth) == SegmentsFrom(bytes, Current(), base, maxDepth)
        decreases |bytes| - pos
      {
        var segment := ParseSegment();
        if segment.Err? { return segment; }
        match Peek() {
          case None => return Ok(());
          case Some(c) =>
            if c != '.' { return Fail(UnexpectedChar(c), base + pos); }
            pos := pos + 1;
            if Peek().None? { return Fail(ExpectedIdentifier('.'), base + pos); }
        }
      }
    }

    method ParseSegment() returns (r: Parsed<()>)
      requires Valid()
      modifies this
      ensures Valid()
      ensures SegmentFrom(bytes, old(Current()), base, maxDepth) == if r.Ok? then Ok(Current()) else Err(r.error)
    {
      hide FieldAt, BracketAt, PipeFrom;
      var field := ParseField();
      if field.Err? { return Err(field.error); }
      ghost var t := Token(field.value, pos);
      r := Push(field.value);
      if r.Err? { return; }
      ghost var afterField := Current();
      while Peek() == Some('[')
        invariant Valid()
        invariant BracketsFrom(bytes, afterField, base, maxDepth) == BracketsFrom(bytes, Current(), base, maxDepth)
        decreases |bytes| - pos
      {
        r := ParseBracket();
        if r.Err? { return; }
      }
      r := ParsePipe();
    }

    method ParseField() returns (r: Parsed<Q.Step>)
      requires Valid()
      modifies this`pos
      ensures Valid()
      ensures FieldAt(bytes, old(pos), base) == if r.Ok? then Ok(Token(r.value, pos)) else Err(r.error)
    {
      var start := pos;
      if Peek().None? { return Fail(ExpectedIdentifier('\0'), base + pos); }
      if bytes[pos] == '#' {
        pos := pos + 1;
        while pos < |bytes| && Text.IsDigit(bytes[pos])
          invariant start < pos <= |bytes|
          invariant DigitsEnd(bytes, start + 1) == DigitsEnd(bytes, pos)
        {
          pos := pos + 1;
        }
        if pos == start + 1 || Text.DigitsValue(bytes[start + 1..pos]) > MAX_ID {
          return Fail(InvalidFieldId, base + start);
        }
        return Ok(Q.Field(Q.Id(Text.DigitsValue(bytes[start + 1..pos]))));
      }
      if !IsIdentStart(bytes[pos]) { return Fail(ExpectedIdentifier(bytes[pos]), base + pos); }
      pos := pos + 1;
      while pos < |bytes| && IsIdentCont(bytes[pos])
        invariant start < pos <= |bytes|
        invariant IdentEnd(bytes, start + 1) == IdentEnd(bytes, pos)
      {
        pos := pos + 1;
      }
      return Ok(Q.Field(Q.Name(bytes[start..pos])));
    }

    method ParseBracket() returns (r: Parsed<()>)
      requires Valid() && At(bytes, pos, '[')
      modifies this
      ensures Valid() && (r.Ok? ==> pos > old(pos))
      ensures BracketsFrom(bytes, old(Current()), base, maxDepth) ==
              if r.Ok? then BracketsFrom(bytes, Current(), base, maxDepth) else Err(r.error)
    {
      hide BracketAt;
      var step := ReadBracket();
      if step.Err? { return Err(step.error); }
      r := Push(step.value);
    }

    method ReadBracket() returns (r: Parsed<Q.Step>)
      requires Valid() && At(bytes, pos, '[')
      modifies this`pos
      ensures Valid()
      ensures BracketAt(bytes, old(pos), base) == if r.Ok? then Ok(Token(r.value, pos)) else Err(r.error)
    {
      hide ContentStep;
      var start := pos;
      pos := pos + 1;
      while pos < |bytes| && bytes[pos] != ']'
        invariant start < pos <= |bytes|
        invariant Find(bytes, start + 1, ']') == Find(bytes, pos, ']')
      {
        pos := pos + 1;
      }
      if pos == |bytes| { return Fail(UnclosedBracket, base + start); }
      var content := bytes[start + 1..pos];
      pos := pos + 1;
      if content == [] { return Fail(EmptyBracket, base + start); }
      return ContentStep(content, base + start + 1);
    }

    method ParsePipe() returns (r: Parsed<()>)
      requires Valid()
      modifies this
      ensures Valid()
      ensures PipeFrom(bytes, old(Current()), base, maxDepth) == if r.Ok? then Ok(Current()) else Err(r.error)
    {
      hide PipeAt;
      if Peek() != Some('|') { return Ok(()); }
      var step := ReadKeyword();
      if step.Err? { return Err(step.error); }
      r := Push(step.value);
      if r.Err? { return; }
      if pos < |bytes| && bytes[pos] != '.' { return Fail(TrailingAfterPipe, base + pos); }
    }

    method ReadKeyword() returns (r: Parsed<Q.Step>)
      requires Valid() && At(bytes, pos, '|')
      modifies this`pos
      ensures Valid()
      ensures PipeAt(bytes, old(pos), base) == if r.Ok? then Ok(Token(r.value, pos)) else Err(r.error)
    {
      var start := pos;
      pos := pos + 1;
      while pos < |bytes| && IsAlpha(bytes[pos])
        invariant start < pos <= |bytes|
        invariant AlphaEnd(bytes, start + 1) == AlphaEnd(bytes, pos)
      {
        pos := pos + 1;
      }
      var keyword := bytes[start + 1..pos];
      if keyword == "keys" { return Ok(Q.MapKeys); }
      if keyword == "type" { return Ok(Q.UnionType); }
      return Fail(UnknownPipeKeyword(keyword), base + start);
    }
  }

  /** `validate_table_name`, with its flag. */
  method ValidateTableName(name: string, base: nat) returns (r: Parsed<()>)
    ensures r == TableNameFrom(name, 0, true, base)
  {
    var atSegmentStart := true;
    for i := 0 to |name|
      invariant TableNameFrom(name, 0, true, base) == TableNameFrom(name, i, atSegmentStart, base)
    {
      var c := name[i];
      if c == '.' {
        if atSegmentStart { return Fail(EmptyComponent(TableSegment), base + i); }
        atSegmentStart := true;
      } else if atSegmentStart {
        if !IsIdentStart(c) { return Fail(ExpectedIdentifier(c), base + i); }
        atSegmentStart := false;
      } else if !IsIdentCont(c) {
        return Fail(UnexpectedChar(c), base + i);
      }
    }
    return if atSegmentStart then Fail(EmptyComponent(TableSegment), base + |name|) else Ok(());
  }

  /** `validate_schema_name`. */
  method ValidateSchemaName(name: string, base: nat) returns (r: Parsed<()>)
    requires name != []
    ensures r == IdentFrom(name, 0, base)
  {
    if !IsIdentStart(name[0]) { return Fail(ExpectedIdentifier(name[0]), base); }
    for i := 1 to |name|
      invariant IdentFrom(name, 0, base) == IdentFrom(name, i, base)
    {
      if !IsIdentCont(name[i]) { return Fail(UnexpectedChar(name[i]), base + i); }
    }
    return Ok(());
  }

  /** `split_header`: colons are counted first, then the parts are checked. */
  method SplitInput(s: string) returns (r: Parsed<Header>)
    ensures r == SplitHeader(s)
  {
    hide TableNameFrom, IdentFrom, Find;
    var first := Find(s, 0, ':');
    if first.None? { return Fail(MissingPathSeparator, |s|); }
    var second := Find(s, first.value + 1, ':');
    if second.Some? && Find(s, second.value + 1, ':').Some? { return Fail(TooManyColons, 0); }
    var tableStart := if second.Some? then first.value + 1 else 0;
    var last := if second.Some? then second.value else first.value;
    var table, path := s[tableStart..last], s[last + 1..];
    if second.Some? {
      var schemaSeen := NonEmpty(s[..first.value], SchemaName, 0);
      if schemaSeen.Err? { return Err(schemaSeen.error); }
    }
    var tableSeen := NonEmpty(table, TableName, tableStart);
    if tableSeen.Err? { return Err(tableSeen.error); }
    var pathSeen := NonEmpty(path, PathText, last + 1);
    if pathSeen.Err? { return Err(pathSeen.error); }
    var tableOk := ValidateTableName(table, tableStart);
    if tableOk.Err? { return Err(tableOk.error); }
    if second.None? { return Ok(Header(None, table, path, last + 1)); }
    var schemaOk := ValidateSchemaName(s[..first.value], 0);
    if schemaOk.Err? { return Err(schemaOk.error); }
    return Ok(Header(Some(s[..first.value]), table, path, last + 1));
  }

  /** `parse_with_bounds`, running the cursor parser on the path. */
  method ParseWithBounds(s: string, maxLength: nat, maxDepth: nat) returns (r: Parsed<Q.Query>)
    ensures r == Parse(s, maxLength, maxDepth)
  {
    hide SplitHeader, SegmentsFrom;
    if |s| > maxLength { return Fail(QueryTooLong(|s|, maxLength), 0); }
    var h := SplitInput(s);
    if h.Err? { return Err(h.error); }
    var p := new Parser(h.value.path, h.value.offset, maxDepth);
    var done := p.ParseSegments();
    if done.Err? { return Err(done.error); }
    return Ok(Q.Query(h.value.schema, h.value.table, p.steps));
  }
}
