/**
 Parser and printer are inverse: a text parses to a query if and only if it spells that query within the
 bounds; and every error points into the text.
 */
module ParserFacts {
  import opened Wrappers
  import opened Grammar
  import opened QueryParser
  import Q = Query
  import Text

  // Tokens.

  /** The text `tok` stands at `pos`. */
  predicate Reads(b: string, pos: nat, tok: string) {
    pos + |tok| <= |b| && b[pos..pos + |tok|] == tok
  }

  /** A token ends here: the text ends or a character follows that starts another token. */
  predicate Stops(b: string, pos: nat) {
    pos <= |b| && (pos < |b| ==> b[pos] in {'.', '[', '|'})
  }

  lemma {:induction false} DigitsStop(b: string, pos: nat, end: nat)
    requires pos <= end <= |b| && Text.AllDigits(b[pos..end]) && (end < |b| ==> !Text.IsDigit(b[end]))
    ensures DigitsEnd(b, pos) == end
    decreases end - pos
  {
    if pos < end {
      assert b[pos] == b[pos..end][0];
      assert b[pos + 1..end] == b[pos..end][1..];
      DigitsStop(b, pos + 1, end);
    }
  }

  lemma {:induction false} IdentStop(b: string, pos: nat, end: nat)
    requires pos <= end <= |b| && (forall i :: pos <= i < end ==> IsIdentCont(b[i]))
      && (end < |b| ==> !IsIdentCont(b[end]))
    ensures IdentEnd(b, pos) == end
    decreases end - pos
  {
    if pos < end { IdentStop(b, pos + 1, end); }
  }

  lemma {:induction false} AlphaStop(b: string, pos: nat, end: nat)
    requires pos <= end <= |b| && (forall i :: pos <= i < end ==> IsAlpha(b[i])) && (end < |b| ==> !IsAlpha(b[end]))
    ensures AlphaEnd(b, pos) == end
    decreases end - pos
  {
    if pos < end { AlphaStop(b, pos + 1, end); }
  }

  lemma {:induction false} FindStop(b: string, pos: nat, c: char, at: nat)
    requires pos <= at < |b| && b[at] == c && c !in b[pos..at]
    ensures Find(b, pos, c) == Some(at)
    decreases at - pos
  {
    if pos < at {
      assert b[pos] == b[pos..at][0];
      assert b[pos + 1..at] == b[pos..at][1..];
      FindStop(b, pos + 1, c, at);
    }
  }

  lemma {:induction false} FindNothing(b: string, pos: nat, c: char)
    requires pos <= |b| && c !in b[pos..]
    ensures Find(b, pos, c) == None
    decreases |b| - pos
  {
    if pos < |b| {
      assert b[pos] == b[pos..][0];
      assert b[pos + 1..] == b[pos..][1..];
      FindNothing(b, pos + 1, c);
    }
  }

  lemma {:induction false} FieldComplete(b: string, pos: nat, base: nat, r: Q.FieldRef, tok: string)
    requires SpellsRef(r, tok) && Reads(b, pos, tok) && Stops(b, pos + |tok|)
    ensures FieldAt(b, pos, base) == Ok(Token(Q.Field(r), pos + |tok|))
  {
    var end := pos + |tok|;
    assert tok != [] && b[pos] == tok[0];
    match r {
      case Name(name) =>
        forall i | pos < i < end ensures IsIdentCont(b[i]) { assert b[i] == tok[i - pos]; }
        IdentStop(b, pos + 1, end);
      case Id(id) =>
        assert b[pos + 1..end] == tok[1..];
        DigitsStop(b, pos + 1, end);
    }
  }

  lemma {:induction false} FieldSound(b: string, pos: nat, base: nat)
    requires pos <= |b| && FieldAt(b, pos, base).Ok?
    ensures var t := FieldAt(b, pos, base).value; SpellsRef(t.step.ref, b[pos..t.next])
  {
    var t := FieldAt(b, pos, base).value;
    var tok := b[pos..t.next];
    if b[pos] == '#' {
      assert tok[1..] == b[pos + 1..t.next];
    } else {
      forall i | 0 <= i < |tok| ensures IsIdentCont(tok[i]) { assert tok[i] == b[pos + i]; }
    }
  }

  lemma {:induction false} BracketComplete(b: string, pos: nat, base: nat, step: Q.Step, tok: string)
    requires !step.Field? && !Terminal(step) && SpellsStep(step, false, tok) && Reads(b, pos, tok)
    ensures At(b, pos, '[') && BracketAt(b, pos, base) == Ok(Token(step, pos + |tok|))
  {
    var close := pos + |tok| - 1;
    var content := tok[1..|tok| - 1];
    Inner(b, pos, pos + |tok|);
    assert b[pos] == tok[0] && b[close] == tok[|tok| - 1];
    NoBracketInside(step, content);
    FindStop(b, pos + 1, ']', close);
  }

  lemma {:induction false} NoBracketInside(step: Q.Step, content: string)
    requires SpellsContent(step, content)
    ensures content != [] && ']' !in content
    ensures ContentStep(content, 0) == Ok(step) && forall p :: ContentStep(content, p) == Ok(step)
  {
  }

  lemma {:induction false} BracketSound(b: string, pos: nat, base: nat)
    requires At(b, pos, '[') && ':' !in b && BracketAt(b, pos, base).Ok?
    ensures var t := BracketAt(b, pos, base).value; SpellsStep(t.step, false, b[pos..t.next])
  {
    var t := BracketAt(b, pos, base).value;
    Inner(b, pos, t.next);
  }

  lemma {:induction false} Inner(b: string, pos: nat, end: nat)
    requires pos + 2 <= end <= |b|
    ensures b[pos..end][1..|b[pos..end]| - 1] == b[pos + 1..end - 1]
  {
    var tok := b[pos..end];
    var inner, part := tok[1..|tok| - 1], b[pos + 1..end - 1];
    forall i | 0 <= i < |part| ensures inner[i] == part[i] {
      assert tok[i + 1] == b[pos + 1 + i];
    }
  }

  lemma {:induction false} PipeComplete(b: string, pos: nat, base: nat, step: Q.Step, tok: string)
    requires Terminal(step) && SpellsStep(step, false, tok) && Reads(b, pos, tok) && Stops(b, pos + |tok|)
    ensures At(b, pos, '|') && PipeAt(b, pos, base) == Ok(Token(step, pos + |tok|))
  {
    var end := pos + |tok|;
    assert b[pos] == tok[0];
    assert b[pos + 1..end] == tok[1..];
    forall i | pos < i < end ensures IsAlpha(b[i]) { assert b[i] == tok[i - pos]; }
    AlphaStop(b, pos + 1, end);
    assert tok[1..] == if step.MapKeys? then "keys" else "type";
  }

  lemma {:induction false} PipeSound(b: string, pos: nat, base: nat)
    requires At(b, pos, '|') && PipeAt(b, pos, base).Ok?
    ensures var t := PipeAt(b, pos, base).value; SpellsStep(t.step, false, b[pos..t.next])
  {
    var t := PipeAt(b, pos, base).value;
    assert b[pos..t.next] == [b[pos]] + b[pos + 1..t.next];
  }

  // The parser as a machine that takes one token after another.

  /** What is left to do after a whole segment. */
  function Tail(b: string, st: State, base: nat, maxDepth: nat): Parsed<seq<Q.Step>>
    requires st.pos <= |b|
  {
    if st.pos == |b| then Ok(st.steps)
    else if b[st.pos] != '.' then Fail(UnexpectedChar(b[st.pos]), base + st.pos)
    else if st.pos + 1 == |b| then Fail(ExpectedIdentifier('.'), base + st.pos + 1)
    else SegmentsFrom(b, State(st.pos + 1, st.steps), base, maxDepth)
  }

  /** What is left to do after a step; only a dot may follow a terminal one. */
  function After(b: string, st: State, terminal: bool, base: nat, maxDepth: nat): Parsed<seq<Q.Step>>
    requires st.pos <= |b|
  {
    if terminal then if st.pos < |b| && b[st.pos] != '.' then Fail(TrailingAfterPipe, base + st.pos)
      else Tail(b, st, base, maxDepth)
    else
      var brackets :- BracketsFrom(b, st, base, maxDepth);
      var pipe :- PipeFrom(b, brackets, base, maxDepth);
      Tail(b, pipe, base, maxDepth)
  }

  function ThenAfter(b: string, t: Parsed<Token>, steps: seq<Q.Step>, base: nat, maxDepth: nat): Parsed<seq<Q.Step>>
    requires t.Ok? ==> t.value.next <= |b|
  {
    var token :- t;
    var st :- Pushed(steps, token, base, maxDepth);
    After(b, st, Terminal(token.step), base, maxDepth)
  }

  lemma {:induction false} SegmentsByToken(b: string, st: State, base: nat, maxDepth: nat)
    requires st.pos <= |b|
    ensures SegmentsFrom(b, st, base, maxDepth) == ThenAfter(b, FieldAt(b, st.pos, base), st.steps, base, maxDepth)
  {
    hide FieldAt, BracketsFrom, PipeFrom;
  }

  lemma {:induction false} AfterByToken(b: string, st: State, base: nat, maxDepth: nat)
    requires st.pos <= |b|
    ensures After(b, st, false, base, maxDepth) ==
            if At(b, st.pos, '[') then ThenAfter(b, BracketAt(b, st.pos, base), st.steps, base, maxDepth)
            else if At(b, st.pos, '|') then ThenAfter(b, PipeAt(b, st.pos, base), st.steps, base, maxDepth)
            else Tail(b, st, base, maxDepth)
  {
    hide BracketAt, PipeAt, Tail;
  }

  // Completeness.

  /** Steps that may follow; after a terminal step only a field. */
  predicate Follows(rest: seq<Q.Step>, terminal: bool) {
    && (rest != [] && terminal ==> rest[0].Field?)
    && forall i :: 0 < i < |rest| && Terminal(rest[i - 1]) ==> rest[i].Field?
  }

  lemma {:induction false} FirstChar(step: Q.Step, tok: string)
    requires SpellsStep(step, false, tok)
    ensures tok != [] && tok[0] == if step.Field? then '.' else if Terminal(step) then '|' else '['
    ensures step.Field? ==> |tok| >= 2
  {
  }

  lemma {:induction false} SplitTokens(b: string, pos: nat, tokens: seq<string>)
    requires pos <= |b| && b[pos..] == Concat(tokens) && tokens != []
    ensures Reads(b, pos, tokens[0]) && pos + |tokens[0]| <= |b| && b[pos + |tokens[0]|..] == Concat(tokens[1..])
  {
    assert b[pos..][..|tokens[0]|] == tokens[0];
    assert b[pos..][|tokens[0]|..] == Concat(tokens[1..]);
  }

  lemma {:induction false} TokenStops(b: string, pos: nat, rest: seq<Q.Step>, tokens: seq<string>)
    requires pos <= |b| && b[pos..] == Concat(tokens) && SpellsSteps(rest, tokens, false)
    ensures Stops(b, pos) && (rest == [] <==> pos == |b|)
    ensures rest != [] ==> b[pos] == if rest[0].Field? then '.' else if Terminal(rest[0]) then '|' else '['
  {
    if rest != [] {
      assert SpellsStep(rest[0], false, tokens[0]);
      FirstChar(rest[0], tokens[0]);
      assert b[pos] == b[pos..][0];
    } else {
      assert b[pos..] == [];
    }
  }

  lemma {:induction false} RestSpells(rest: seq<Q.Step>, tokens: seq<string>, first: bool, terminal: bool)
    requires SpellsSteps(rest, tokens, first) && rest != [] && Follows(rest, terminal)
    ensures SpellsStep(rest[0], first, tokens[0]) && (terminal ==> rest[0].Field?)
    ensures SpellsSteps(rest[1..], tokens[1..], false) && Follows(rest[1..], Terminal(rest[0]))
  {
    hide SpellsStep;
  }

  lemma {:induction false} Complete(b: string, st: State, rest: seq<Q.Step>, tokens: seq<string>, terminal: bool,
                                    base: nat, maxDepth: nat)
    requires st.pos <= |b| && b[st.pos..] == Concat(tokens) && SpellsSteps(rest, tokens, false)
      && Follows(rest, terminal)
    requires |st.steps| + |rest| <= maxDepth
    ensures After(b, st, terminal, base, maxDepth) == Ok(st.steps + rest)
    decreases |rest|
  {
    hide *;
    TokenStops(b, st.pos, rest, tokens);
    AfterByToken(b, st, base, maxDepth);
    if rest == [] {
      assert st.steps + rest == st.steps;
      AtEnd(b, st, terminal, base, maxDepth);
    } else {
      SameLength(rest, tokens);
      RestSpells(rest, tokens, false, terminal);
      SplitTokens(b, st.pos, tokens);
      var next := st.pos + |tokens[0]|;
      TokenStops(b, next, rest[1..], tokens[1..]);
      var pushed := State(next, st.steps + [rest[0]]);
      Complete(b, pushed, rest[1..], tokens[1..], Terminal(rest[0]), base, maxDepth);
      assert pushed.steps + rest[1..] == st.steps + rest;
      TakeToken(b, st, rest[0], tokens[0], terminal, base, maxDepth);
    }
  }

  lemma {:induction false} SameLength(rest: seq<Q.Step>, tokens: seq<string>)
    requires SpellsSteps(rest, tokens, false)
    ensures |rest| == |tokens|
  {
  }

  lemma {:induction false} AtEnd(b: string, st: State, terminal: bool, base: nat, maxDepth: nat)
    requires st.pos == |b|
    ensures After(b, st, terminal, base, maxDepth) == Ok(st.steps)
  {
  }

  /** One token of the text takes the machine one step on. */
  lemma {:induction false} TakeToken(b: string, st: State, step: Q.Step, tok: string, terminal: bool, base: nat,
                                     maxDepth: nat)
    requires st.pos <= |b| && SpellsStep(step, false, tok) && Reads(b, st.pos, tok) && Stops(b, st.pos + |tok|)
    requires |st.steps| < maxDepth && (terminal ==> step.Field?)
    ensures After(b, st, terminal, base, maxDepth) ==
            After(b, State(st.pos + |tok|, st.steps + [step]), Terminal(step), base, maxDepth)
  {
    hide After, SegmentsFrom, FieldAt, BracketAt, PipeAt, SpellsRef, SpellsContent;
    FirstChar(step, tok);
    assert b[st.pos] == tok[0];
    AfterByToken(b, st, base, maxDepth);
    if step.Field? {
      assert Reads(b, st.pos + 1, tok[1..]) by {
        assert b[st.pos + 1..st.pos + |tok|] == b[st.pos..st.pos + |tok|][1..];
      }
      FieldComplete(b, st.pos + 1, base, step.ref, tok[1..]);
      SegmentsByToken(b, State(st.pos + 1, st.steps), base, maxDepth);
      TerminalThenDot(b, st, terminal, base, maxDepth);
    } else if Terminal(step) {
      PipeComplete(b, st.pos, base, step, tok);
    } else {
      BracketComplete(b, st.pos, base, step, tok);
    }
  }

  lemma {:induction false} TerminalThenDot(b: string, st: State, terminal: bool, base: nat, maxDepth: nat)
    requires At(b, st.pos, '.')
    ensures After(b, st, terminal, base, maxDepth) == Tail(b, st, base, maxDepth)
  {
    hide Tail, SegmentsFrom;
  }

  lemma {:induction false} PathComplete(steps: seq<Q.Step>, path: string, base: nat, maxDepth: nat)
    requires SpellsPath(steps, path) && |steps| <= maxDepth
    ensures path != [] && SegmentsFrom(path, State(0, []), base, maxDepth) == Ok(steps)
  {
    hide After, FieldAt, SegmentsFrom, SpellsRef;
    var tokens :| SpellsSteps(steps, tokens, true) && Concat(tokens) == path;
    assert path[0..] == path;
    SplitTokens(path, 0, tokens);
    RestSpells(steps, tokens, true, false);
    TokenStops(path, |tokens[0]|, steps[1..], tokens[1..]);
    RefNonEmpty(steps[0].ref, tokens[0]);
    FieldComplete(path, 0, base, steps[0].ref, tokens[0]);
    SegmentsByToken(path, State(0, []), base, maxDepth);
    Complete(path, State(|tokens[0]|, [steps[0]]), steps[1..], tokens[1..], false, base, maxDepth);
    assert [steps[0]] + steps[1..] == steps;
    assert [] + [steps[0]] == [steps[0]];
  }

  lemma {:induction false} RefNonEmpty(r: Q.FieldRef, tok: string)
    requires SpellsRef(r, tok)
    ensures tok != []
  {
  }

  // Soundness.

  lemma {:induction false} Sound(b: string, st: State, terminal: bool, base: nat,
                                 maxDepth: nat) returns (rest: seq<Q.Step>, tokens: seq<string>)
    requires st.pos <= |b| && ':' !in b && |st.steps| <= maxDepth && After(b, st, terminal, base, maxDepth).Ok?
    ensures After(b, st, terminal, base, maxDepth) == Ok(st.steps + rest) && |st.steps| + |rest| <= maxDepth
    ensures b[st.pos..] == Concat(tokens) && SpellsSteps(rest, tokens, false) && Follows(rest, terminal)
    decreases |b| - st.pos
  {
    hide *;
    if st.pos == |b| {
      AtEnd(b, st, terminal, base, maxDepth);
      rest, tokens := [], [];
      assert st.steps + rest == st.steps && b[st.pos..] == [];
      NoSteps(terminal);
    } else {
      var step, next := NextToken(b, st, terminal, base, maxDepth);
      var more, spelled := Sound(b, State(next, st.steps + [step]), Terminal(step), base, maxDepth);
      rest, tokens := [step] + more, [b[st.pos..next]] + spelled;
      assert st.steps + [step] + more == st.steps + rest;
      assert b[st.pos..] == b[st.pos..next] + b[next..];
      Prepend(step, more, b[st.pos..next], spelled, false, terminal);
    }
  }

  lemma {:induction false} NoSteps(terminal: bool)
    ensures Concat([]) == "" && SpellsSteps([], [], false) && Follows([], terminal)
  {
  }

  lemma {:induction false} Prepend(step: Q.Step, more: seq<Q.Step>, tok: string, spelled: seq<string>, first: bool,
                                   terminal: bool)
    requires SpellsStep(step, first, tok) && SpellsSteps(more, spelled, false) && Follows(more, Terminal(step))
    requires terminal ==> step.Field?
    ensures Concat([tok] + spelled) == tok + Concat(spelled)
    ensures SpellsSteps([step] + more, [tok] + spelled, first) && Follows([step] + more, terminal)
  {
    hide SpellsStep;
    assert ([tok] + spelled)[1..] == spelled;
    var steps, tokens := [step] + more, [tok] + spelled;
    forall i | 0 <= i < |steps| ensures SpellsStep(steps[i], first && i == 0, tokens[i]) {
      if i > 0 { assert steps[i] == more[i - 1] && tokens[i] == spelled[i - 1]; }
    }
    forall i | 0 < i < |steps| && Terminal(steps[i - 1]) ensures steps[i].Field? {
      if i > 1 { assert steps[i - 1] == more[i - 2] && steps[i] == more[i - 1]; }
    }
  }

  /** A run that goes on consumes the text of one step. */
  lemma {:induction false} NextToken(b: string, st: State, terminal: bool, base: nat,
                                     maxDepth: nat) returns (step: Q.Step, next: nat)
    requires st.pos < |b| && ':' !in b && |st.steps| <= maxDepth && After(b, st, terminal, base, maxDepth).Ok?
    ensures st.pos < next <= |b| && SpellsStep(step, false, b[st.pos..next]) && (terminal ==> step.Field?)
      && |st.steps| < maxDepth
    ensures After(b, st, terminal, base, maxDepth) ==
      After(b, State(next, st.steps + [step]), Terminal(step), base, maxDepth)
  {
    hide After, SegmentsFrom, FieldAt, BracketAt, PipeAt, SpellsRef, SpellsContent, Bracketed;
    AfterByToken(b, st, base, maxDepth);
    if At(b, st.pos, '.') {
      TerminalThenDot(b, st, terminal, base, maxDepth);
      SegmentsByToken(b, State(st.pos + 1, st.steps), base, maxDepth);
      FieldSound(b, st.pos + 1, base);
      var t := FieldAt(b, st.pos + 1, base).value;
      step, next := t.step, t.next;
      assert b[st.pos..next][1..] == b[st.pos + 1..next];
    } else {
      OnlyDotAfterTerminal(b, st, terminal, base, maxDepth);
      if At(b, st.pos, '[') {
        BracketSound(b, st.pos, base);
        var t := BracketAt(b, st.pos, base).value;
        step, next := t.step, t.next;
      } else {
        assert At(b, st.pos, '|');
        PipeSound(b, st.pos, base);
        var t := PipeAt(b, st.pos, base).value;
        step, next := t.step, t.next;
      }
    }
  }

  lemma {:induction false} OnlyDotAfterTerminal(b: string, st: State, terminal: bool, base: nat, maxDepth: nat)
    requires st.pos < |b| && !At(b, st.pos, '.') && After(b, st, terminal, base, maxDepth).Ok?
    ensures !terminal
  {
  }

  lemma {:induction false} PathSound(path: string, base: nat, maxDepth: nat)
    requires path != [] && ':' !in path && SegmentsFrom(path, State(0, []), base, maxDepth).Ok?
    ensures var steps := SegmentsFrom(path, State(0, []), base, maxDepth).value;
      SpellsPath(steps, path) && |steps| <= maxDepth
  {
    hide After, FieldAt, SegmentsFrom, SpellsRef;
    SegmentsByToken(path, State(0, []), base, maxDepth);
    FieldSound(path, 0, base);
    var t := FieldAt(path, 0, base).value;
    assert [] + [t.step] == [t.step];
    var rest, tokens := Sound(path, State(t.next, [t.step]), false, base, maxDepth);
    Prepend(t.step, rest, path[0..t.next], tokens, true, false);
    assert path == path[0..t.next] + path[t.next..];
    assert Shaped([t.step] + rest);
    assert Concat([path[0..t.next]] + tokens) == path;
  }

  // The header.

  lemma {:induction false} IdentExact(name: string, i: nat, base: nat)
    requires i <= |name|
    ensures IdentFrom(name, i, base).Ok? <==>
            (i == 0 && name != [] ==> IsIdentStart(name[0])) && forall k :: i <= k < |name| ==> IsIdentCont(name[k])
    decreases |name| - i
  {
    if i < |name| { IdentExact(name, i + 1, base); }
  }

  /** From position `i`, right behind a dot or not, every character is in place and the text does not end on a dot. */
  predicate NamedFrom(name: string, i: nat, atStart: bool)
    requires i <= |name|
  {
    && (i == |name| ==> !atStart)
    && (i < |name| ==>
      (if atStart then IsIdentStart(name[i]) else name[i] == '.' || IsIdentCont(name[i])) && name[|name| - 1] != '.')
    && forall k :: i < k < |name| ==> NameCharOk(name, k)
  }

  lemma {:induction false} TableNameExact(name: string, i: nat, atStart: bool, base: nat)
    requires i <= |name|
    ensures TableNameFrom(name, i, atStart, base).Ok? <==> NamedFrom(name, i, atStart)
    decreases |name| - i
  {
    if i < |name| {
      TableNameExact(name, i + 1, name[i] == '.', base);
      if i + 1 < |name| {
        assert NameCharOk(name, i + 1) <==> if name[i] == '.' then IsIdentStart(name[i + 1])
          else name[i + 1] == '.' || IsIdentCont(name[i + 1]);
      }
    }
  }

  /** The validators accept exactly the names of the grammar. */
  lemma {:induction false} NamesExact(name: string, base: nat)
    ensures name != [] ==> (IdentFrom(name, 0, base).Ok? <==> IsIdent(name))
    ensures TableNameFrom(name, 0, true, base).Ok? <==> IsTableName(name)
  {
    hide TableNameFrom;
    IdentExact(name, 0, base);
    TableNameExact(name, 0, true, base);
    NamedFromStart(name);
  }

  lemma {:induction false} NamedFromStart(name: string)
    ensures NamedFrom(name, 0, true) <==> IsTableName(name)
  {
    if NamedFrom(name, 0, true) {
      forall k | 0 <= k < |name| ensures NameCharOk(name, k) { }
    }
    if IsTableName(name) {
      assert NameCharOk(name, 0);
    }
  }

  lemma {:induction false} NoColonInName(name: string)
    ensures IsIdent(name) ==> NoColon(name)
    ensures IsTableName(name) ==> NoColon(name)
  {
    if IsTableName(name) {
      forall i | 0 <= i < |name| ensures name[i] != ':' { assert NameCharOk(name, i); }
    }
  }

  predicate NoColon(s: string) {
    ':' !in s
  }

  lemma {:induction false} NoColonInTokens(steps: seq<Q.Step>, tokens: seq<string>, first: bool)
    requires SpellsSteps(steps, tokens, first)
    ensures NoColon(Concat(tokens))
    decreases |tokens|
  {
    hide SpellsStep;
    if tokens != [] {
      NoColonInToken(steps[0], first, tokens[0]);
      assert SpellsSteps(steps[1..], tokens[1..], false);
      NoColonInTokens(steps[1..], tokens[1..], false);
    }
  }

  lemma {:induction false} NoColonInToken(step: Q.Step, first: bool, tok: string)
    requires SpellsStep(step, first, tok)
    ensures NoColon(tok)
  {
    hide Numeral, IsIdent, IsKeyText;
    match step {
      case Field(r) => NoColonInRef(r, if first then tok else tok[1..]);
      case MapKeys =>
      case UnionType =>
      case _ => NoColonInContent(step, tok[1..|tok| - 1]);
    }
    forall i | 0 <= i < |tok| ensures tok[i] != ':' {
      if step.Field? && !first {
        if i > 0 { assert tok[i] == tok[1..][i - 1]; }
      } else if !step.Field? && !Terminal(step) {
        if 0 < i < |tok| - 1 { assert tok[i] == tok[1..|tok| - 1][i - 1]; }
      }
    }
  }

  lemma {:induction false} NoColonInRef(r: Q.FieldRef, tok: string)
    requires SpellsRef(r, tok)
    ensures NoColon(tok)
  {
    if r.Name? { NoColonInName(tok); } else {
      assert tok == [tok[0]] + tok[1..];
      DigitsNoColon(tok[1..]);
    }
  }

  lemma {:induction false} DigitsNoColon(s: string)
    requires Text.AllDigits(s)
    ensures NoColon(s)
  {
  }

  lemma {:induction false} NoColonInContent(step: Q.Step, content: string)
    requires SpellsContent(step, content)
    ensures NoColon(content)
  {
    if step.Index? { DigitsNoColon(content); }
  }

  lemma {:induction false} ColonSplit(s: string, at: nat)
    requires at < |s| && s[at] == ':'
    ensures s == s[..at] + ":" + s[at + 1..]
  {
  }

  predicate HeaderSpelled(s: string, h: Header) {
    && NoColon(h.path) && h.path != [] && 0 < h.offset <= |s| && s == s[..h.offset - 1] + ":" + h.path
    && SpellsHeader(Q.Query(h.schema, h.table, []), s[..h.offset - 1])
  }

  lemma {:induction false} HeaderSound(s: string)
    requires SplitHeader(s).Ok?
    ensures HeaderSpelled(s, SplitHeader(s).value)
  {
    hide SplitTwo, SplitThree, Find, HeaderSpelled;
    var first := Find(s, 0, ':').value;
    match Find(s, first + 1, ':') {
      case None => TwoSound(s, first);
      case Some(second) => ThreeSound(s, first, second);
    }
  }

  lemma {:induction false} TwoSound(s: string, first: nat)
    requires first < |s| && s[first] == ':' && ':' !in s[first + 1..] && SplitTwo(s, first).Ok?
    ensures HeaderSpelled(s, SplitTwo(s, first).value)
  {
    hide TableNameFrom, IsTableName;
    NamesExact(s[..first], 0);
    ColonSplit(s, first);
  }

  lemma {:induction false} ThreeSound(s: string, first: nat, second: nat)
    requires first < second < |s| && s[first] == ':' == s[second] && ':' !in s[second + 1..]
      && SplitThree(s, first, second).Ok?
    ensures HeaderSpelled(s, SplitThree(s, first, second).value)
  {
    hide TableNameFrom, IdentFrom, IsTableName, IsIdent;
    NamesExact(s[first + 1..second], first + 1);
    NamesExact(s[..first], 0);
    ColonSplit(s, second);
    assert s[..second] == s[..first] + ":" + s[first + 1..second];
  }

  lemma {:induction false} HeaderComplete(q: Q.Query, header: string, path: string)
    requires SpellsHeader(q, header) && NoColon(path) && path != []
    ensures SplitHeader(header + ":" + path) == Ok(Header(q.schema, q.root, path, |header| + 1))
  {
    hide TableNameFrom, IdentFrom, IsTableName, IsIdent, Find, SplitTwo, SplitThree;
    var s := header + ":" + path;
    NoColonInName(q.root);
    match q.schema {
      case None =>
        assert s[0..|header|] == q.root && s[|header| + 1..] == path;
        FindStop(s, 0, ':', |header|);
        FindNothing(s, |header| + 1, ':');
        TwoParts(q.root, path);
      case Some(schema) =>
        NoColonInName(schema);
        assert s[0..|schema|] == schema && s[|schema| + 1..|header|] == q.root && s[|header| + 1..] == path;
        FindStop(s, 0, ':', |schema|);
        FindStop(s, |schema| + 1, ':', |header|);
        FindNothing(s, |header| + 1, ':');
        ThreeParts(schema, q.root, path);
    }
  }

  lemma {:induction false} TwoParts(table: string, path: string)
    requires IsTableName(table) && path != []
    ensures SplitTwo(table + ":" + path, |table|) == Ok(Header(None, table, path, |table| + 1))
  {
    hide TableNameFrom, IsTableName;
    NamesExact(table, 0);
    NonEmptyName(table);
    var s := table + ":" + path;
    assert s[..|table|] == table && s[|table| + 1..] == path;
  }

  lemma {:induction false} ThreeParts(schema: string, table: string, path: string)
    requires IsIdent(schema) && IsTableName(table) && path != []
    ensures SplitThree(schema + ":" + table + ":" + path, |schema|, |schema| + 1 + |table|) ==
            Ok(Header(Some(schema), table, path, |schema| + |table| + 2))
  {
    hide TableNameFrom, IsTableName, IdentFrom, IsIdent;
    NamesExact(table, |schema| + 1);
    NamesExact(schema, 0);
    NonEmptyName(table);
    NonEmptyIdent(schema);
    var s := schema + ":" + table + ":" + path;
    assert s[..|schema|] == schema && s[|schema| + 1..|schema| + 1 + |table|] == table
      && s[|schema| + |table| + 2..] == path;
  }

  lemma {:induction false} NonEmptyName(s: string)
    requires IsTableName(s)
    ensures s != []
  {
  }

  lemma {:induction false} NonEmptyIdent(s: string)
    requires IsIdent(s)
    ensures s != []
  {
  }

  // The theorem.

  /** A text parses to a query if and only if it spells the query and both keep within the bounds. */
  lemma {:induction false} ParseExactly(s: string, maxLength: nat, maxDepth: nat, q: Q.Query)
    ensures Parse(s, maxLength, maxDepth) == Ok(q) <==> |s| <= maxLength && |q.steps| <= maxDepth && SpellsQuery(q, s)
  {
    hide SplitHeader, SegmentsFrom, SpellsHeader, SpellsPath;
    if Parse(s, maxLength, maxDepth) == Ok(q) {
      HeaderSound(s);
      var h := SplitHeader(s).value;
      PathSound(h.path, h.offset, maxDepth);
      AnySteps(q, s[..h.offset - 1]);
    } else if |s| <= maxLength && |q.steps| <= maxDepth && SpellsQuery(q, s) {
      var header, path :| s == header + ":" + path && SpellsHeader(q, header) && SpellsPath(q.steps, path);
      PathHasNoColon(q.steps, path);
      PathComplete(q.steps, path, |header| + 1, maxDepth);
      HeaderComplete(q, header, path);
      assert false;
    }
  }

  lemma {:induction false} AnySteps(q: Q.Query, header: string)
    requires SpellsHeader(Q.Query(q.schema, q.root, []), header)
    ensures SpellsHeader(q, header)
  {
  }

  lemma {:induction false} PathHasNoColon(steps: seq<Q.Step>, path: string)
    requires SpellsPath(steps, path)
    ensures NoColon(path)
  {
    hide SpellsSteps, Concat, NoColon;
    var tokens :| SpellsSteps(steps, tokens, true) && Concat(tokens) == path;
    NoColonInTokens(steps, tokens, true);
  }

  /** Printing and parsing back is the identity on every well-formed query within the bounds. */
  lemma {:induction false} ParsePrinted(q: Q.Query, maxLength: nat, maxDepth: nat)
    requires WellFormed(q) && |Print(q)| <= maxLength && |q.steps| <= maxDepth
    ensures Parse(Print(q), maxLength, maxDepth) == Ok(q)
  {
    hide *;
    PrintSpells(q);
    ParseExactly(Print(q), maxLength, maxDepth, q);
  }

  /**
   Whatever parses is well-formed: steps of the shape (Field (Index | All | MapKey)* (MapKeys | UnionType)?)+,
   between one and the depth limit, and key texts that are never empty, `*`, a number, or contain `]` or `:`.
   */
  lemma {:induction false} ParsedIsWellFormed(s: string, maxLength: nat, maxDepth: nat)
    requires Parse(s, maxLength, maxDepth).Ok?
    ensures var q := Parse(s, maxLength, maxDepth).value; WellFormed(q) && 1 <= |q.steps| <= maxDepth
  {
    hide Parse, SpellsQuery;
    var q := Parse(s, maxLength, maxDepth).value;
    ParseExactly(s, maxLength, maxDepth, q);
    SpelledIsWellFormed(q, s);
  }

  // Leading zeros are all that printing removes.

  function Zeros(k: nat): string {
    seq(k, _ => '0')
  }

  lemma {:induction false} PadStep(init: string, m: nat, d: nat, k: nat)
    requires init == Zeros(k) + Text.DecNat(m) && d < 10
    ensures exists k': nat :: init + [Text.DigitChar(d)] == Zeros(k') + Text.DecNat(10 * m + d)
  {
    if m == 0 {
      assert init == Zeros(k + 1);
      assert init + [Text.DigitChar(d)] == Zeros(k + 1) + Text.DecNat(d);
    } else {
      assert Text.DecNat(10 * m + d) == Text.DecNat(m) + [Text.DigitChar(d)];
      assert init + [Text.DigitChar(d)] == Zeros(k) + Text.DecNat(10 * m + d);
    }
  }

  lemma {:induction false} NumeralIsPadded(s: string, n: nat, max: nat)
    requires Numeral(s, n, max)
    ensures exists k: nat :: s == Zeros(k) + Text.DecNat(n)
    decreases |s|
  {
    hide Text.DecNat, Zeros;
    var d := s[|s| - 1] as int - '0' as int;
    var init := s[..|s| - 1];
    assert s == init + [Text.DigitChar(d)];
    if init == [] {
      OneDigit(d);
      assert Text.DigitsValue(init) == 0;
      assert s == [Text.DigitChar(d)];
      assert s == Zeros(0) + Text.DecNat(n);
    } else {
      var m := Text.DigitsValue(init);
      NumeralIsPadded(init, m, m);
      var k: nat :| init == Zeros(k) + Text.DecNat(m);
      PadStep(init, m, d, k);
    }
  }

  lemma {:induction false} OneDigit(d: nat)
    requires d < 10
    ensures [Text.DigitChar(d)] == Zeros(0) + Text.DecNat(d)
  {
  }

  /** The printed token differs from any other spelling of the step only by leading zeros of its number. */
  ghost predicate EqualUpToZeros(step: Q.Step, tok: string, printed: string) {
    match step
    case Field(Id(id)) => exists head: string, k: nat ::
      tok == head + (Zeros(k) + Text.DecNat(id)) && printed == head + Text.DecNat(id)
    case Index(i) => exists k: nat ::
      tok == "[" + (Zeros(k) + Text.DecNat(i)) + "]" && printed == "[" + Text.DecNat(i) + "]"
    case _ => tok == printed
  }

  lemma {:induction false} SpelledUpToZeros(step: Q.Step, first: bool, tok: string)
    requires SpellsStep(step, first, tok)
    ensures EqualUpToZeros(step, tok, PrintStep(step, first))
  {
    hide Numeral, Text.DecNat, Zeros;
    match step {
      case Field(r) => RefUpToZeros(r, first, tok);
      case Index(i) =>
        var content := tok[1..|tok| - 1];
        NumeralIsPadded(content, i, MAX_INDEX);
        var k: nat :| content == Zeros(k) + Text.DecNat(i);
        assert tok == "[" + content + "]";
      case All => assert tok == "[" + "*" + "]" == "[*]";
      case MapKey(KeyText(text)) => assert tok == "[" + text + "]";
      case _ =>
    }
  }

  lemma {:induction false} RefUpToZeros(r: Q.FieldRef, first: bool, tok: string)
    requires SpellsStep(Q.Field(r), first, tok)
    ensures EqualUpToZeros(Q.Field(r), tok, PrintStep(Q.Field(r), first))
  {
    hide Numeral, Text.DecNat, Zeros, IsIdent;
    var body := if first then tok else tok[1..];
    var dot := if first then "" else ".";
    assert tok == dot + body;
    if r.Id? {
      var digits := body[1..];
      NumeralIsPadded(digits, r.id, MAX_ID);
      var k: nat :| digits == Zeros(k) + Text.DecNat(r.id);
      assert body == "#" + digits;
      Associate(dot, "#", digits);
      Associate(dot, "#", Text.DecNat(r.id));
      assert tok == (dot + "#") + (Zeros(k) + Text.DecNat(r.id));
    }
  }

  lemma {:induction false} Associate(a: string, b: string, c: string)
    ensures a + (b + c) == (a + b) + c
  {
  }

  /** The printed form is a shortest spelling. */
  lemma {:induction false} PrintedIsShortest(steps: seq<Q.Step>, tokens: seq<string>, first: bool)
    requires SpellsSteps(steps, tokens, first)
    ensures |Concat(PrintSteps(steps, first))| <= |Concat(tokens)|
    decreases |steps|
  {
    hide SpellsStep, PrintStep;
    if steps != [] {
      var printed := PrintSteps(steps, first);
      assert SpellsSteps(steps[1..], tokens[1..], false);
      assert printed[1..] == PrintSteps(steps[1..], false);
      PrintedIsShortest(steps[1..], tokens[1..], false);
      SpelledUpToZeros(steps[0], first, tokens[0]);
      UpToZerosIsLonger(steps[0], tokens[0], PrintStep(steps[0], first));
    }
  }

  lemma {:induction false} UpToZerosIsLonger(step: Q.Step, tok: string, printed: string)
    requires EqualUpToZeros(step, tok, printed)
    ensures |printed| <= |tok|
  {
  }

  /** Any text that parses may be replaced by its printed form under the same bounds. */
  lemma {:induction false} PrintIsCanonical(s: string, maxLength: nat, maxDepth: nat)
    requires Parse(s, maxLength, maxDepth).Ok?
    ensures var q := Parse(s, maxLength, maxDepth).value;
      |Print(q)| <= |s| && Parse(Print(q), maxLength, maxDepth) == Ok(q)
  {
    hide Parse, Concat, PrintSteps, SpellsSteps;
    var q := Parse(s, maxLength, maxDepth).value;
    ParseExactly(s, maxLength, maxDepth, q);
    ParsedIsWellFormed(s, maxLength, maxDepth);
    var header, path :| s == header + ":" + path && SpellsHeader(q, header) && SpellsPath(q.steps, path);
    var tokens :| SpellsSteps(q.steps, tokens, true) && Concat(tokens) == path;
    PrintedIsShortest(q.steps, tokens, true);
    ParsePrinted(q, maxLength, maxDepth);
  }

  // Errors.

  /** The error lies in `[base, base + |b|]`, and an error that names a character points at it. */
  predicate PointsInto(b: string, base: nat, e: ParseError) {
    && base <= e.position <= base + |b|
    && match e.kind
       case UnexpectedChar(c) => Names(b, base, e.position, c)
       case ExpectedIdentifier(c) =>
         Names(b, base, e.position, c) || (c == '.' && e.position == base + |b| && b != [] && b[|b| - 1] == '.')
       case _ => true
  }

  predicate Names(b: string, base: nat, position: nat, c: char) {
    base <= position < base + |b| && b[position - base] == c
  }

  lemma {:induction false} BracketErrors(b: string, st: State, base: nat, maxDepth: nat)
    requires st.pos <= |b| && BracketsFrom(b, st, base, maxDepth).Err?
    ensures PointsInto(b, base, BracketsFrom(b, st, base, maxDepth).error)
    decreases |b| - st.pos
  {
    match BracketAt(b, st.pos, base) {
      case Err(e) =>
      case Ok(t) =>
        match Pushed(st.steps, t, base, maxDepth) {
          case Err(e) =>
          case Ok(next) => BracketErrors(b, next, base, maxDepth);
        }
    }
  }

  lemma {:induction false} SegmentErrors(b: string, st: State, base: nat, maxDepth: nat)
    requires st.pos < |b| && SegmentFrom(b, st, base, maxDepth).Err?
    ensures PointsInto(b, base, SegmentFrom(b, st, base, maxDepth).error)
  {
    hide BracketsFrom;
    if FieldAt(b, st.pos, base).Ok? && Pushed(st.steps, FieldAt(b, st.pos, base).value, base, maxDepth).Ok? {
      var field := Pushed(st.steps, FieldAt(b, st.pos, base).value, base, maxDepth).value;
      if BracketsFrom(b, field, base, maxDepth).Err? { BracketErrors(b, field, base, maxDepth); }
    }
  }

  lemma {:induction false} PathErrors(b: string, st: State, base: nat, maxDepth: nat)
    requires st.pos < |b| && SegmentsFrom(b, st, base, maxDepth).Err?
    ensures PointsInto(b, base, SegmentsFrom(b, st, base, maxDepth).error)
    decreases |b| - st.pos
  {
    hide SegmentFrom;
    match SegmentFrom(b, st, base, maxDepth) {
      case Err(e) => SegmentErrors(b, st, base, maxDepth);
      case Ok(next) =>
        if next.pos + 1 < |b| && b[next.pos] == '.' { PathErrors(b, State(next.pos + 1, next.steps), base, maxDepth); }
    }
  }

  /** In a name, both kinds of character error point at the character. */
  predicate PointsAtName(b: string, base: nat, e: ParseError) {
    PointsInto(b, base, e) && (e.kind.ExpectedIdentifier? ==> Names(b, base, e.position, e.kind.found))
  }

  lemma {:induction false} IdentErrors(name: string, i: nat, base: nat)
    requires i <= |name| && IdentFrom(name, i, base).Err?
    ensures PointsAtName(name, base, IdentFrom(name, i, base).error)
    decreases |name| - i
  {
    if i < |name| && !(i == 0 && !IsIdentStart(name[0])) && IsIdentCont(name[i]) { IdentErrors(name, i + 1, base); }
  }

  lemma {:induction false} TableNameErrors(name: string, i: nat, atStart: bool, base: nat)
    requires i <= |name| && TableNameFrom(name, i, atStart, base).Err?
    ensures PointsAtName(name, base, TableNameFrom(name, i, atStart, base).error)
    decreases |name| - i
  {
    if i < |name| {
      if name[i] == '.' {
        if !atStart { TableNameErrors(name, i + 1, true, base); }
      } else if if atStart then IsIdentStart(name[i]) else IsIdentCont(name[i]) {
        TableNameErrors(name, i + 1, false, base);
      }
    }
  }

  /** A part's position is the whole text's. */
  lemma {:induction false} PartOfWhole(s: string, part: string, base: nat, e: ParseError)
    requires base + |part| <= |s| && s[base..base + |part|] == part && PointsInto(part, base, e)
    requires e.kind.ExpectedIdentifier? ==> Names(part, base, e.position, e.kind.found) || base + |part| == |s|
    ensures PointsInto(s, 0, e)
  {
    if Names(part, base, e.position, if e.kind.UnexpectedChar? || e.kind.ExpectedIdentifier? then e.kind.found
      else ' ') {
      assert s[e.position] == part[e.position - base];
    }
    if base + |part| == |s| && part != [] { assert s[|s| - 1] == part[|part| - 1]; }
  }

  lemma {:induction false} HeaderErrors(s: string)
    requires SplitHeader(s).Err?
    ensures PointsInto(s, 0, SplitHeader(s).error)
  {
    hide Find, SplitTwo, SplitThree, PointsInto;
    NoCharError(s, MissingPathSeparator, |s|);
    NoCharError(s, TooManyColons, 0);
    if Find(s, 0, ':').Some? {
      var first := Find(s, 0, ':').value;
      match Find(s, first + 1, ':') {
        case None => TwoErrors(s, first);
        case Some(second) => if Find(s, second + 1, ':').None? { ThreeErrors(s, first, second); }
      }
    }
  }

  lemma {:induction false} NoCharError(s: string, kind: ErrorKind, position: nat)
    requires position <= |s| && !kind.UnexpectedChar? && !kind.ExpectedIdentifier?
    ensures PointsInto(s, 0, ParseError(kind, position))
  {
  }

  lemma {:induction false} TwoErrors(s: string, first: nat)
    requires first < |s| && SplitTwo(s, first).Err?
    ensures PointsInto(s, 0, SplitTwo(s, first).error)
  {
    hide TableNameFrom, PointsInto;
    NoCharError(s, EmptyComponent(TableName), 0);
    NoCharError(s, EmptyComponent(PathText), first + 1);
    NameError(s, s[..first], 0);
  }

  lemma {:induction false} ThreeErrors(s: string, first: nat, second: nat)
    requires first < second < |s| && SplitThree(s, first, second).Err?
    ensures PointsInto(s, 0, SplitThree(s, first, second).error)
  {
    hide TableNameFrom, IdentFrom, PointsInto;
    NoCharError(s, EmptyComponent(SchemaName), 0);
    NoCharError(s, EmptyComponent(TableName), first + 1);
    NoCharError(s, EmptyComponent(PathText), second + 1);
    NameError(s, s[first + 1..second], first + 1);
    NameError(s, s[..first], 0);
  }

  lemma {:induction false} NameError(s: string, part: string, base: nat)
    requires base + |part| <= |s| && s[base..base + |part|] == part
    ensures TableNameFrom(part, 0, true, base).Err? ==> PointsInto(s, 0, TableNameFrom(part, 0, true, base).error)
    ensures IdentFrom(part, 0, base).Err? ==> PointsInto(s, 0, IdentFrom(part, 0, base).error)
  {
    hide TableNameFrom, IdentFrom;
    if TableNameFrom(part, 0, true, base).Err? {
      TableNameErrors(part, 0, true, base);
      PartOfWhole(s, part, base, TableNameFrom(part, 0, true, base).error);
    }
    if IdentFrom(part, 0, base).Err? {
      IdentErrors(part, 0, base);
      PartOfWhole(s, part, base, IdentFrom(part, 0, base).error);
    }
  }

  /**
   Every error position lies within the text. An unexpected-character error names the character there;
   so does a missing identifier, except behind a trailing dot, where the position is the text's end.
   */
  lemma {:induction false} ErrorsPointIntoText(s: string, maxLength: nat, maxDepth: nat)
    requires Parse(s, maxLength, maxDepth).Err?
    ensures PointsInto(s, 0, Parse(s, maxLength, maxDepth).error)
  {
    hide SplitHeader, SegmentsFrom, PointsInto;
    NoCharError(s, QueryTooLong(|s|, maxLength), 0);
    if |s| <= maxLength {
      if SplitHeader(s).Err? {
        HeaderErrors(s);
      } else {
        var h := SplitHeader(s).value;
        PathErrors(h.path, State(0, []), h.offset, maxDepth);
        PathTail(s, h.path, h.offset, SegmentsFrom(h.path, State(0, []), h.offset, maxDepth).error);
      }
    }
  }

  lemma {:induction false} PathTail(s: string, path: string, offset: nat, e: ParseError)
    requires offset <= |s| && path == s[offset..] && PointsInto(path, offset, e)
    ensures PointsInto(s, 0, e)
  {
    assert s[offset..offset + |path|] == path;
    PartOfWhole(s, path, offset, e);
  }
}
