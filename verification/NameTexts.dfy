/**
 Which characters make names, ids, indices and keys in a query, and where the first wrong one is reported.

 The characters are written out here, so that the grammar's own classes are held against them.
 */
module NameTexts {
  import opened Wrappers
  import opened Grammar
  import opened QueryParser
  import PF = ParserFacts
  import Q = Query
  import Text

  /** A letter or an underscore. */
  predicate Letter(c: char) {
    'a' <= c <= 'z' || 'A' <= c <= 'Z' || c == '_'
  }

  predicate WordChar(c: char) {
    Letter(c) || '0' <= c <= '9'
  }

  /** Letters, digits and underscores, not a digit first. */
  predicate Word(s: string) {
    s != [] && Letter(s[0]) && forall i :: 0 <= i < |s| ==> WordChar(s[i])
  }

  lemma {:induction false} Classes(c: char)
    ensures (IsIdentStart(c) <==> Letter(c)) && (IsIdentCont(c) <==> WordChar(c))
    ensures (IsAlpha(c) <==> Letter(c) && c != '_') && (Text.IsDigit(c) <==> '0' <= c <= '9')
  {
  }

  lemma {:induction false} IdentIsWord(s: string)
    ensures IsIdent(s) <==> Word(s)
  {
    hide IsIdentStart, IsIdentCont, Letter, WordChar;
    if s != [] {
      forall i | 0 <= i < |s|
        ensures (IsIdentStart(s[i]) <==> Letter(s[i])) && (IsIdentCont(s[i]) <==> WordChar(s[i]))
      {
        Classes(s[i]);
      }
    }
  }

  // Schema names.

  predicate FitsWord(s: string, i: nat)
    requires i < |s|
  {
    if i == 0 then Letter(s[i]) else WordChar(s[i])
  }

  /** A schema name is a word; otherwise the first character that does not fit is reported where it stands. */
  lemma {:induction false} SchemaNameExactly(name: string, base: nat) returns (i: nat)
    requires name != []
    ensures IdentFrom(name, 0, base).Ok? <==> Word(name)
    ensures IdentFrom(name, 0, base).Err? ==>
              && i < |name| && !FitsWord(name, i) && (forall j :: 0 <= j < i ==> FitsWord(name, j))
              && IdentFrom(name, 0, base) ==
                 Fail(if i == 0 then ExpectedIdentifier(name[0]) else UnexpectedChar(name[i]), base + i)
  {
    hide IsIdentStart, IsIdentCont, Letter, WordChar, IdentFrom;
    i := IdentStops(name, 0, base);
    forall j | 0 <= j < |name| && FitsWord(name, j) ensures WordChar(name[j]) { LettersAreWord(name[j]); }
    if i == |name| { assert FitsWord(name, 0); }
  }

  lemma {:induction false} LettersAreWord(c: char)
    ensures Letter(c) ==> WordChar(c)
  {
  }

  lemma {:induction false} IdentStops(name: string, k: nat, base: nat) returns (i: nat)
    requires k <= |name|
    ensures k <= i <= |name| && forall j :: k <= j < i ==> FitsWord(name, j)
    ensures IdentFrom(name, k, base).Ok? <==> i == |name|
    ensures i < |name| ==>
              && !FitsWord(name, i)
              && IdentFrom(name, k, base) ==
                 Fail(if i == 0 then ExpectedIdentifier(name[0]) else UnexpectedChar(name[i]), base + i)
    decreases |name| - k
  {
    hide IsIdentStart, IsIdentCont, Letter, WordChar;
    i := k;
    if k < |name| {
      Classes(name[k]);
      LettersAreWord(name[k]);
      if FitsWord(name, k) { i := IdentStops(name, k + 1, base); }
    }
  }

  // Table names.

  predicate StartsSegment(s: string, i: nat)
    requires i < |s|
  {
    i == 0 || s[i - 1] == '.'
  }

  predicate FitsTable(s: string, i: nat)
    requires i < |s|
  {
    if StartsSegment(s, i) then Letter(s[i]) else s[i] == '.' || WordChar(s[i])
  }

  /** What is reported about a character that does not fit in a table name. */
  function TableFault(s: string, i: nat): ErrorKind
    requires i < |s|
  {
    if !StartsSegment(s, i) then UnexpectedChar(s[i])
    else if s[i] == '.' then EmptyComponent(TableSegment)
    else ExpectedIdentifier(s[i])
  }

  /** A table name is words between dots; otherwise the first character that does not fit, or the end, is reported. */
  lemma {:induction false} TableNameExactly(name: string, base: nat) returns (i: nat)
    ensures TableNameFrom(name, 0, true, base).Ok? <==>
            name != [] && name[|name| - 1] != '.' && forall j :: 0 <= j < |name| ==> FitsTable(name, j)
    ensures i <= |name| && forall j :: 0 <= j < i ==> FitsTable(name, j)
    ensures TableNameFrom(name, 0, true, base).Err? ==>
              && (i < |name| ==> !FitsTable(name, i))
              && TableNameFrom(name, 0, true, base) ==
                 Fail(if i < |name| then TableFault(name, i) else EmptyComponent(TableSegment), base + i)
  {
    hide Letter, WordChar, TableNameFrom, TableFault, FitsTable;
    i := TableStops(name, 0, true, base);
  }

  lemma {:induction false} TableStops(name: string, k: nat, atStart: bool, base: nat) returns (i: nat)
    requires k <= |name| && (atStart <==> k == 0 || name[k - 1] == '.')
    ensures k <= i <= |name| && forall j :: k <= j < i ==> FitsTable(name, j)
    ensures TableNameFrom(name, k, atStart, base).Ok? <==> i == |name| > 0 && name[|name| - 1] != '.'
    ensures i < |name| ==> !FitsTable(name, i)
    ensures TableNameFrom(name, k, atStart, base).Err? ==>
              TableNameFrom(name, k, atStart, base) ==
              Fail(if i < |name| then TableFault(name, i) else EmptyComponent(TableSegment), base + i)
    decreases |name| - k
  {
    hide IsIdentStart, IsIdentCont, Letter, WordChar;
    i := k;
    if k < |name| {
      Classes(name[k]);
      DotIsNoLetter(name[k]);
      if FitsTable(name, k) { i := TableStops(name, k + 1, name[k] == '.', base); }
    }
  }

  lemma {:induction false} DotIsNoLetter(c: char)
    ensures WordChar(c) ==> c != '.'
    ensures Letter(c) ==> WordChar(c)
  {
  }

  // Steps.

  /** A field is a word as long as it goes, or `#` and a number up to 65535; any other character is reported there. */
  lemma {:induction false} FieldExactly(b: string, pos: nat, base: nat) returns (end: nat)
    requires pos < |b|
    ensures pos < end <= |b|
    ensures Letter(b[pos]) ==>
              && (forall j :: pos <= j < end ==> WordChar(b[j])) && (end < |b| ==> !WordChar(b[end]))
              && FieldAt(b, pos, base) == Ok(Token(Q.Field(Q.Name(b[pos..end])), end))
    ensures b[pos] == '#' ==>
              && (forall j :: pos < j < end ==> '0' <= b[j] <= '9') && (end < |b| ==> !('0' <= b[end] <= '9'))
              && FieldAt(b, pos, base) ==
                 (if end == pos + 1 || Text.Places(b[pos + 1..end]) > 65535 then Fail(InvalidFieldId, base + pos)
                  else Ok(Token(Q.Field(Q.Id(Text.Places(b[pos + 1..end]))), end)))
    ensures !Letter(b[pos]) && b[pos] != '#' ==> FieldAt(b, pos, base) == Fail(ExpectedIdentifier(b[pos]), base + pos)
  {
    hide IsIdentStart, IsIdentCont, Letter, WordChar, Text.DigitsValue, Text.Places, IdentEnd, DigitsEnd;
    Classes(b[pos]);
    HashIsNoLetter(b[pos]);
    end := pos + 1;
    if b[pos] == '#' {
      end := DigitsEnd(b, pos + 1);
      Text.DigitsArePlaces(b[pos + 1..end]);
      forall j | pos < j < end ensures '0' <= b[j] <= '9' { assert b[j] == b[pos + 1..end][j - pos - 1]; }
    } else if Letter(b[pos]) {
      end := IdentEnd(b, pos + 1);
      forall j | pos <= j < |b| ensures IsIdentCont(b[j]) <==> WordChar(b[j]) { Classes(b[j]); }
    }
  }

  lemma {:induction false} HashIsNoLetter(c: char)
    ensures Letter(c) ==> c != '#' && WordChar(c)
  {
  }

  /** Between brackets stands a star, a number of 64 bits in decimal digits, or the text of a key. */
  lemma {:induction false} ContentExactly(content: string, position: nat)
    requires content != []
    ensures ContentStep(content, position) ==
            if content == "*" then Ok(Q.All)
            else if !Text.Decimal(content) then Ok(Q.MapKey(Q.KeyText(content)))
            else if Text.Places(content) > 18446744073709551615 then Fail(IndexTooLarge, position)
            else Ok(Q.Index(Text.Places(content)))
  {
    hide Text.DigitsValue, Text.Places;
    if Text.AllDigits(content) { Text.DigitsArePlaces(content); }
  }

  /** A bracket goes to the first `]`; what is wrong between them is reported at the bracket or behind it. */
  lemma {:induction false} BracketExactly(b: string, pos: nat, end: nat, base: nat)
    requires pos < end < |b| && b[pos] == '[' && b[end] == ']' && ']' !in b[pos + 1..end]
    ensures BracketAt(b, pos, base) ==
            if end == pos + 1 then Fail(EmptyBracket, base + pos)
            else if b[pos + 1..end] == "*" then Ok(Token(Q.All, end + 1))
            else if !Text.Decimal(b[pos + 1..end]) then Ok(Token(Q.MapKey(Q.KeyText(b[pos + 1..end])), end + 1))
            else if Text.Places(b[pos + 1..end]) > 18446744073709551615 then Fail(IndexTooLarge, base + pos + 1)
            else Ok(Token(Q.Index(Text.Places(b[pos + 1..end])), end + 1))
  {
    hide Text.Decimal, Text.Places, ContentStep, Find;
    PF.FindStop(b, pos + 1, ']', end);
    if end > pos + 1 { ContentExactly(b[pos + 1..end], base + pos + 1); }
  }

  /** A bracket that nothing closes is reported where it stands. */
  lemma {:induction false} OpenBracket(b: string, pos: nat, base: nat)
    requires pos < |b| && b[pos] == '[' && ']' !in b[pos + 1..]
    ensures BracketAt(b, pos, base) == Fail(UnclosedBracket, base + pos)
  {
    hide ContentStep, Find;
    PF.FindNothing(b, pos + 1, ']');
  }

  /** Behind `|` stand the letters of `keys` or `type`; any other letters are reported at the `|`. */
  lemma {:induction false} PipeExactly(b: string, pos: nat, base: nat) returns (end: nat)
    requires pos < |b| && b[pos] == '|'
    ensures pos < end <= |b|
    ensures forall j :: pos < j < end ==> 'a' <= b[j] <= 'z' || 'A' <= b[j] <= 'Z'
    ensures end < |b| ==> !('a' <= b[end] <= 'z' || 'A' <= b[end] <= 'Z')
    ensures PipeAt(b, pos, base) ==
            if b[pos + 1..end] == "keys" then Ok(Token(Q.MapKeys, end))
            else if b[pos + 1..end] == "type" then Ok(Token(Q.UnionType, end))
            else Fail(UnknownPipeKeyword(b[pos + 1..end]), base + pos)
  {
    hide AlphaEnd;
    end := AlphaEnd(b, pos + 1);
  }

  /** Behind a marker only a dot or the end may stand; anything else is reported there. */
  lemma {:induction false} BehindMarker(b: string, pos: nat, steps: seq<Q.Step>, base: nat, maxDepth: nat, next: nat)
    requires pos < |b| && b[pos] == '|' && |steps| < maxDepth
    requires PipeAt(b, pos, base).Ok? && PipeAt(b, pos, base).value.next == next < |b| && b[next] != '.'
    ensures PipeFrom(b, State(pos, steps), base, maxDepth) == Fail(TrailingAfterPipe, base + next)
  {
    hide PipeAt;
  }

  /** The step past the limit is reported at its end. */
  lemma {:induction false} DepthIsReported(steps: seq<Q.Step>, t: Token, base: nat, maxDepth: nat)
    requires |steps| <= maxDepth
    ensures Pushed(steps, t, base, maxDepth) ==
            if |steps| < maxDepth then Ok(State(t.next, steps + [t.step]))
            else Fail(PathTooDeep(|steps| + 1, |steps|), base + t.next)
  {
  }

  // Headers.

  /** A text that is too long, has no colon, or lacks its table or path before or behind the only one. */
  lemma {:induction false} HeaderFaults(table: string, path: string, maxLength: nat, maxDepth: nat)
    requires ':' !in table && ':' !in path
    ensures var s := table + ":" + path;
            && (|s| > maxLength ==> Parse(s, maxLength, maxDepth) == Fail(QueryTooLong(|s|, maxLength), 0))
            && (|s| <= maxLength && table == [] ==> Parse(s, maxLength, maxDepth) == Fail(EmptyComponent(TableName), 0))
            && (|s| <= maxLength && table != [] && path == [] ==>
                  Parse(s, maxLength, maxDepth) == Fail(EmptyComponent(PathText), |s|))
    ensures |table| <= maxLength ==> Parse(table, maxLength, maxDepth) == Fail(MissingPathSeparator, |table|)
  {
    hide TableNameFrom, SegmentsFrom, Find;
    var s := table + ":" + path;
    assert s[0..|table|] == table && s[|table| + 1..] == path && s[|table|] == ':';
    PF.FindStop(s, 0, ':', |table|);
    PF.FindNothing(s, |table| + 1, ':');
    PF.FindNothing(table, 0, ':');
  }

  // Queries.

  /** A table and a field of any words make a query. */
  lemma {:induction false} WordsParse(table: string, field: string, maxLength: nat, maxDepth: nat)
    requires Word(table) && Word(field) && |table| + 1 + |field| <= maxLength && 1 <= maxDepth
    ensures Parse(table + ":" + field, maxLength, maxDepth) == Ok(Q.Query(None, table, [Q.Field(Q.Name(field))]))
  {
    hide Parse, Word, IsTableName, IsIdent;
    var q := Q.Query(None, table, [Q.Field(Q.Name(field))]);
    WordQuery(q, table, field);
    assert "" + table + ":" + field == table + ":" + field;
    PF.ParsePrinted(q, maxLength, maxDepth);
  }

  /** So do a schema, a table and a field. */
  lemma {:induction false} SchemaWordsParse(schema: string, table: string, field: string, maxLength: nat, maxDepth: nat)
    requires Word(schema) && Word(table) && Word(field)
    requires |schema| + 1 + |table| + 1 + |field| <= maxLength && 1 <= maxDepth
    ensures Parse(schema + ":" + table + ":" + field, maxLength, maxDepth) ==
            Ok(Q.Query(Some(schema), table, [Q.Field(Q.Name(field))]))
  {
    hide Parse, Word, IsTableName, IsIdent;
    var q := Q.Query(Some(schema), table, [Q.Field(Q.Name(field))]);
    IdentIsWord(schema);
    WordQuery(q, table, field);
    PF.ParsePrinted(q, maxLength, maxDepth);
  }

  lemma {:induction false} WordQuery(q: Q.Query, table: string, field: string)
    requires Word(table) && Word(field) && q.root == table && q.steps == [Q.Field(Q.Name(field))]
    requires q.schema.Some? ==> IsIdent(q.schema.value)
    ensures WellFormed(q)
    ensures Print(q) == (if q.schema.Some? then q.schema.value + ":" else "") + table + ":" + field
  {
    hide Word, IsIdentStart, IsIdentCont;
    IdentIsWord(table);
    IdentIsWord(field);
    WordIsTable(table);
    assert [Q.Field(Q.Name(field))][1..] == [];
    assert PrintSteps(q.steps, true) == [field] by { assert "" + field == field; }
    assert Concat([field]) == field by { assert [field][1..] == [] && field + "" == field; }
  }

  lemma {:induction false} WordIsTable(s: string)
    requires IsIdent(s)
    ensures IsTableName(s)
  {
    forall i | 0 <= i < |s| ensures s[i] != '.' { }
  }

  /** A character behind a field that continues nothing is refused where it stands. */
  lemma {:induction false} StrangerIsReported(table: string, field: string, c: char, rest: string, maxLength: nat,
                                              maxDepth: nat)
    requires Word(table) && Word(field) && !WordChar(c) && c !in {'.', '[', '|', ':'} && ':' !in rest
    requires |table| + 1 + |field| + 1 + |rest| <= maxLength && 1 <= maxDepth
    ensures Parse(table + ":" + (field + [c] + rest), maxLength, maxDepth) ==
            Fail(UnexpectedChar(c), |table| + 1 + |field|)
  {
    hide Word, IsTableName, IsIdent, WordChar, Letter, SplitHeader, SegmentsFrom;
    var path := field + [c] + rest;
    IdentIsWord(table);
    WordIsTable(table);
    WordHasNoColon(field);
    OneHeader(table, path);
    StrangerStops(field, c, rest, |table| + 1, maxDepth);
  }

  /** A character that starts no field is refused where the field would stand. */
  lemma {:induction false} NoFieldIsReported(table: string, c: char, rest: string, maxLength: nat, maxDepth: nat)
    requires Word(table) && !Letter(c) && c != '#' && c != ':' && ':' !in rest && |table| + 2 + |rest| <= maxLength
    ensures Parse(table + ":" + ([c] + rest), maxLength, maxDepth) == Fail(ExpectedIdentifier(c), |table| + 1)
  {
    hide Word, IsTableName, IsIdent, Letter, SplitHeader, SegmentsFrom;
    var path := [c] + rest;
    IdentIsWord(table);
    WordIsTable(table);
    OneHeader(table, path);
    NoFieldStarts(path, |table| + 1, maxDepth);
  }

  lemma {:induction false} NoFieldStarts(path: string, base: nat, maxDepth: nat)
    requires path != [] && !Letter(path[0]) && path[0] != '#'
    ensures SegmentsFrom(path, State(0, []), base, maxDepth) == Fail(ExpectedIdentifier(path[0]), base)
  {
    hide Letter, FieldAt, WordChar;
    var end := FieldExactly(path, 0, base);
  }

  lemma {:induction false} WordHasNoColon(s: string)
    requires Word(s)
    ensures ':' !in s
  {
    forall i | 0 <= i < |s| ensures s[i] != ':' { assert WordChar(s[i]); }
  }

  lemma {:induction false} OneHeader(table: string, path: string)
    requires IsTableName(table) && path != [] && ':' !in path
    ensures SplitHeader(table + ":" + path) == Ok(Header(None, table, path, |table| + 1))
  {
    hide IsTableName, SplitHeader;
    var q := Q.Query(None, table, []);
    assert SpellsHeader(q, table);
    PF.HeaderComplete(q, table, path);
  }

  lemma {:induction false} StrangerStops(field: string, c: char, rest: string, base: nat, maxDepth: nat)
    requires Word(field) && !WordChar(c) && c !in {'.', '[', '|'} && 1 <= maxDepth
    ensures SegmentsFrom(field + [c] + rest, State(0, []), base, maxDepth) == Fail(UnexpectedChar(c), base + |field|)
  {
    hide WordChar, Letter, FieldAt, Fail;
    var b := field + [c] + rest;
    assert b[0] == field[0] && b[|field|] == c;
    var end := FieldExactly(b, 0, base);
    WordEnds(field, c, rest, end);
    assert b[0..|field|] == field;
    var st := State(|field|, [Q.Field(Q.Name(field))]);
    assert SegmentFrom(b, State(0, []), base, maxDepth) == Ok(st) by {
      assert Pushed([], Token(Q.Field(Q.Name(field)), |field|), base, maxDepth) == Ok(st) by {
        assert [] + [Q.Field(Q.Name(field))] == [Q.Field(Q.Name(field))];
      }
    }
  }

  lemma {:induction false} WordEnds(field: string, c: char, rest: string, end: nat)
    requires Word(field) && !WordChar(c)
    requires var b := field + [c] + rest;
      && 0 < end <= |b| && (forall j :: 0 <= j < end ==> WordChar(b[j])) && (end < |b| ==> !WordChar(b[end]))
    ensures end == |field|
  {
    hide WordChar;
    var b := field + [c] + rest;
    assert b[|field|] == c;
    assert forall j :: 0 <= j < |field| ==> b[j] == field[j];
  }
}
