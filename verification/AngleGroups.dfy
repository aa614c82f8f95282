/**
 Which texts `CloseExpression` takes for one expression, told by a grammar: brackets and angles in groups, angles
 that are part of an operator, and, inside brackets, angles that stand for themselves.
 */
module AngleGroups {
  import opened BracketBalance
  import opened Brackets
  import opened Characters
  import opened Wrappers

  /** A derivation: the first thing the text holds, and the rest of it. */
  datatype Text =
    | Stop
    | Char(rest: Text)
    | Operator(rest: Text)
    | NewLine(rest: Text)
    | Angles(inner: Text, rest: Text)
    | Undone(inner: Text, rest: Text)
    | Brackets(inner: Text, rest: Text)
    | Semicolon(rest: Text)
    | Stray(rest: Text)
    | Unclosed(rest: Text)

  /**
   Directly inside angles, or inside brackets. In brackets angles may be left alone; `waiting` says that a '<' has
   been, which no '>' may follow then before the next semicolon.
   */
  datatype Level = InAngles | InBrackets(waiting: bool)

  predicate IsPlainChar(c: char) {
    c != '(' && c != ')' && c != '[' && c != ']' && c != '{' && c != '}' && c != '<' && c != '>' && c != ';'
  }

  /** The bracket `d` closes the bracket `c`. */
  predicate ArePair(c: char, d: char) {
    (c == '(' && d == ')') || (c == '[' && d == ']') || (c == '{' && d == '}')
  }

  /** A '<' behind another one. */
  predicate IsSecondLess(line: string, i: nat)
    requires i < |line|
  {
    i > 0 && line[i] == '<' && line[i - 1] == '<'
  }

  /** A '<' that may open something: neither behind another one nor behind `operator`. */
  predicate IsOpening(line: string, i: nat)
    requires i < |line|
  {
    line[i] == '<' && (i == 0 || (line[i - 1] != '<' && !EndsWithOperator(line[..i])))
  }

  /** A '>' that may close something: behind neither '-' nor `operator` and one character more. */
  predicate IsClosing(line: string, i: nat)
    requires i < |line|
  {
    line[i] == '>' && (i == 0 || (line[i - 1] != '-' && !EndsWithOperator(line[..i - 1])))
  }

  predicate IsPlace(lines: seq<string>, q: Position) {
    q.line < |lines| && q.pos <= |lines[q.line]|
  }

  predicate IsBehind(q: Position, l: nat, i: nat) {
    q.line > l || (q.line == l && q.pos > i)
  }

  /** At `q` stands what closes angles, what undoes a '<', what closes the bracket `c`. */
  predicate Closes(lines: seq<string>, q: Position) {
    q.line < |lines| && q.pos < |lines[q.line]| && IsClosing(lines[q.line], q.pos)
  }

  predicate Undoes(lines: seq<string>, q: Position) {
    q.line < |lines| && q.pos < |lines[q.line]| && IsSecondLess(lines[q.line], q.pos)
  }

  predicate PairsWith(c: char, lines: seq<string>, q: Position) {
    q.line < |lines| && q.pos < |lines[q.line]| && ArePair(c, lines[q.line][q.pos])
  }

  /** The other angles, which are part of an operator. */
  predicate IsPassed(line: string, i: nat)
    requires i < |line|
  {
    || (line[i] == '<' && !IsOpening(line, i) && !IsSecondLess(line, i))
    || (line[i] == '>' && !IsClosing(line, i))
  }

  /** Where the first thing in a text that starts at (l, i) ends, and at which level the text goes on. */
  function First(lines: seq<string>, l: nat, i: nat, t: Text, level: Level): (r: Option<(Position, Level)>)
    requires l < |lines| && i <= |lines[l]| && t != Stop
    ensures r.Some? ==> IsPlace(lines, r.value.0) && IsBehind(r.value.0, l, i)
    decreases t, 0
  {
    var line := lines[l];
    if t.NewLine? then if i == |line| && l + 1 < |lines| then Some((Position(l + 1, 0), level)) else None
    else if i == |line| then None
    else
      var next := Position(l, i + 1);
      match t
      case Char(_) => if IsPlainChar(line[i]) then Some((next, level)) else None
      case Operator(_) => if IsPassed(line, i) then Some((next, level)) else None
      case Angles(inner, _) =>
        if !IsOpening(line, i) then None
        else (match Reads(lines, l, i + 1, inner, InAngles)
              case Some(q) => if Closes(lines, q) then Some((Position(q.line, q.pos + 1), level)) else None
              case None => None)
      case Undone(inner, _) =>
        if !IsOpening(line, i) then None
        else (match Reads(lines, l, i + 1, inner, InAngles)
              case Some(q) => if Undoes(lines, q) then Some((Position(q.line, q.pos + 1), level)) else None
              case None => None)
      case Brackets(inner, _) =>
        (match Reads(lines, l, i + 1, inner, InBrackets(false))
         case Some(q) => if PairsWith(line[i], lines, q) then Some((Position(q.line, q.pos + 1), level)) else None
         case None => None)
      case Semicolon(_) => if level.InBrackets? && line[i] == ';' then Some((next, InBrackets(false))) else None
      case Stray(_) =>
        if level == InBrackets(false) && (IsClosing(line, i) || IsSecondLess(line, i)) then Some((next, level)) else None
      case Unclosed(_) => if level.InBrackets? && IsOpening(line, i) then Some((next, InBrackets(true))) else None
  }

  /** Where the text that starts at (l, i) and has the derivation `t` ends, if there is such a text. */
  function Reads(lines: seq<string>, l: nat, i: nat, t: Text, level: Level): (r: Option<Position>)
    requires l < |lines| && i <= |lines[l]|
    ensures r.Some? ==> IsPlace(lines, r.value) && (r.value == Position(l, i) || IsBehind(r.value, l, i))
    decreases t, 1
  {
    if t == Stop then Some(Position(l, i))
    else
      match First(lines, l, i, t, level)
      case None => None
      case Some((q, after)) => Reads(lines, q.line, q.pos, t.rest, after)
  }

  /** One group: brackets or angles around a text. */
  predicate IsGroup(lines: seq<string>, l: nat, p: nat, t: Text, end: Position)
    requires l < |lines| && p < |lines[l]|
  {
    (t.Angles? || t.Brackets?) && t.rest == Stop && Reads(lines, l, p, t, InAngles) == Some(end)
  }

  // --------------------------------------------------------------------------
  // A scan gets through every text of the grammar
  // --------------------------------------------------------------------------

  /** The stack of a scan at this level. */
  predicate Fits(stack: string, level: Level) {
    && stack != []
    && match level
       case InAngles => Top(stack) == '<'
       case InBrackets(waiting) =>
         && DropAngles(stack, '<') != []
         && IsOpen(Top(DropAngles(stack, '<')))
         && (waiting || DropAngles(stack, '<') == stack)
  }

  /** What is left of the stack `from` at the end of a text at this level. */
  predicate Leaves(from: string, level: Level, to: string) {
    match level
    case InAngles => to == from
    case InBrackets(_) => to != [] && DropAngles(to, '<') == DropAngles(from, '<')
  }

  lemma CloseTurn(lines: seq<string>, l: nat, i: nat, stack: string, next: string)
    requires l < |lines| && i < |lines[l]| && ForwardStep(lines[l], i, stack) == Continue(next, 1)
    ensures CloseFrom(lines, l, i, stack) == CloseFrom(lines, l, i + 1, next)
  {
    ForthTurn(lines[l], i, stack, next);
  }

  lemma {:induction false} DropTwice(stack: string)
    ensures DropAngles(DropAngles(stack, '<'), '<') == DropAngles(stack, '<')
  {
    if stack != [] && Top(stack) == '<' {
      DropTwice(Pop(stack));
    }
  }

  lemma PushLess(stack: string)
    ensures Top(stack + ['<']) == '<' && Pop(stack + ['<']) == stack
    ensures DropAngles(stack + ['<'], '<') == DropAngles(stack, '<')
  {
  }

  lemma PushOpen(stack: string, c: char)
    requires IsOpen(c)
    ensures Top(stack + [c]) == c && Pop(stack + [c]) == stack && DropAngles(stack + [c], '<') == stack + [c]
  {
  }

  lemma OpeningIsPushed(line: string, i: nat, stack: string)
    requires i < |line| && IsOpening(line, i)
    ensures ForwardStep(line, i, stack) == Continue(stack + ['<'], 1)
  {
  }

  lemma PassedIsPassed(line: string, i: nat, stack: string)
    requires i < |line| && (IsPassed(line, i) || IsPlainChar(line[i]))
    ensures ForwardStep(line, i, stack) == Continue(stack, 1)
  {
  }

  /** What a character does that closes, undoes or drops a '<' on top of the stack. */
  lemma LessIsPopped(line: string, i: nat, stack: string)
    requires i < |line| && (IsClosing(line, i) || IsSecondLess(line, i))
    ensures stack != [] ==> ForwardStep(line, i, stack + ['<']) == Continue(stack, 1)
    ensures stack == [] ==> ForwardStep(line, i, stack + ['<']) == if IsClosing(line, i) then Match else Fail
  {
    PushLess(stack);
  }

  lemma BracketIsPopped(line: string, i: nat, stack: string, c: char, to: string)
    requires i < |line| && ArePair(c, line[i]) && DropAngles(to, '<') == stack + [c]
    ensures ForwardStep(line, i, to) == if stack == [] then Match else Continue(stack, 1)
  {
    PushOpen(stack, c);
  }

  /** The scan from (l, i) goes on as one from `q`. */
  predicate GoesOn(lines: seq<string>, l: nat, i: nat, stack: string, q: Position, to: string)
    requires l < |lines| && q.line < |lines|
  {
    CloseFrom(lines, l, i, stack) == CloseFrom(lines, q.line, q.pos, to)
  }

  lemma NextLine(lines: seq<string>, l: nat, stack: string)
    requires l + 1 < |lines| && stack != []
    ensures CloseFrom(lines, l, |lines[l]|, stack) == CloseFrom(lines, l + 1, 0, stack)
  {
  }

  /** The scan goes on behind the first thing of a text, at `at` with the stack `to` for the level `after`. */
  ghost predicate Follows(lines: seq<string>, l: nat, i: nat, level: Level, stack: string,
                          at: Position, after: Level, to: string)
    requires l < |lines|
  {
    && IsPlace(lines, at) && after.InAngles? == level.InAngles?
    && Fits(to, after) && Leaves(stack, level, to) && GoesOn(lines, l, i, stack, at, to)
  }

  lemma ScanOne(lines: seq<string>, l: nat, i: nat, t: Text, level: Level, stack: string, at: Position, after: Level)
    requires l < |lines| && i <= |lines[l]| && Fits(stack, level)
    requires t.NewLine? || t.Char? || t.Operator? || t.Stray?
    requires First(lines, l, i, t, level) == Some((at, after))
    ensures Follows(lines, l, i, level, stack, at, after, stack)
  {
    if t.NewLine? {
      NextLine(lines, l, stack);
    } else {
      if t.Stray? {
        StrayIsPassed(lines[l], i, stack);
      } else {
        PassedIsPassed(lines[l], i, stack);
      }
      CloseTurn(lines, l, i, stack, stack);
    }
  }

  lemma ScanAlone(lines: seq<string>, l: nat, i: nat, t: Text, level: Level, stack: string, at: Position, after: Level)
      returns (to: string)
    requires l < |lines| && i <= |lines[l]| && Fits(stack, level) && (t.Semicolon? || t.Unclosed?)
    requires First(lines, l, i, t, level) == Some((at, after))
    ensures Follows(lines, l, i, level, stack, at, after, to)
  {
    if t.Semicolon? {
      to := DropAngles(stack, '<');
      DropTwice(stack);
    } else {
      to := stack + ['<'];
      OpeningIsPushed(lines[l], i, stack);
      PushLess(stack);
    }
    CloseTurn(lines, l, i, stack, to);
  }

  lemma {:induction false} ScanGroup(lines: seq<string>, l: nat, i: nat, t: Text, level: Level, stack: string,
                                     at: Position, after: Level)
    requires l < |lines| && i <= |lines[l]| && Fits(stack, level) && (t.Angles? || t.Undone? || t.Brackets?)
    requires First(lines, l, i, t, level) == Some((at, after))
    ensures Follows(lines, l, i, level, stack, at, after, stack)
    decreases t, 0
  {
    if t.Brackets? {
      var to := ScanOpen(lines, l, i, t.inner, stack);
    } else {
      ScanLess(lines, l, i, t.inner, stack);
    }
  }

  lemma {:induction false} ScanReads(lines: seq<string>, l: nat, i: nat, t: Text, level: Level, stack: string)
      returns (to: string)
    requires l < |lines| && i <= |lines[l]| && Reads(lines, l, i, t, level).Some? && Fits(stack, level)
    ensures var q := Reads(lines, l, i, t, level).value;
            GoesOn(lines, l, i, stack, q, to) && Leaves(stack, level, to)
    decreases t, 1
  {
    to := stack;
    if t != Stop {
      var (at, after) := First(lines, l, i, t, level).value;
      if t.Angles? || t.Undone? || t.Brackets? {
        ScanGroup(lines, l, i, t, level, stack, at, after);
      } else if t.Semicolon? || t.Unclosed? {
        to := ScanAlone(lines, l, i, t, level, stack, at, after);
      } else {
        ScanOne(lines, l, i, t, level, stack, at, after);
      }
      to := ScanReads(lines, at.line, at.pos, t.rest, after, to);
    }
  }

  lemma StrayIsPassed(line: string, i: nat, stack: string)
    requires i < |line| && (IsClosing(line, i) || IsSecondLess(line, i)) && Fits(stack, InBrackets(false))
    ensures ForwardStep(line, i, stack) == Continue(stack, 1)
  {
    assert Top(stack) != '<';
  }

  /** From a '<' through the text behind it, and over what closes or undoes it. */
  lemma {:induction false} ScanLess(lines: seq<string>, l: nat, i: nat, inner: Text, stack: string)
    requires l < |lines| && i < |lines[l]| && IsOpening(lines[l], i) && Reads(lines, l, i + 1, inner, InAngles).Some?
    ensures var q := Reads(lines, l, i + 1, inner, InAngles).value;
            && GoesOn(lines, l, i, stack, q, stack + ['<'])
            && (stack != [] && (Closes(lines, q) || Undoes(lines, q)) ==>
                  GoesOn(lines, l, i, stack, Position(q.line, q.pos + 1), stack))
    decreases inner, 2
  {
    var q := Reads(lines, l, i + 1, inner, InAngles).value;
    OpeningIsPushed(lines[l], i, stack);
    PushLess(stack);
    CloseTurn(lines, l, i, stack, stack + ['<']);
    var to := ScanReads(lines, l, i + 1, inner, InAngles, stack + ['<']);
    if stack != [] && (Closes(lines, q) || Undoes(lines, q)) {
      LessIsPopped(lines[q.line], q.pos, stack);
      CloseTurn(lines, q.line, q.pos, stack + ['<'], stack);
    }
  }

  /** From an opening bracket through the text behind it, and over the bracket that closes it. */
  lemma {:induction false} ScanOpen(lines: seq<string>, l: nat, i: nat, inner: Text, stack: string) returns (to: string)
    requires l < |lines| && i < |lines[l]| && IsOpen(lines[l][i]) && Reads(lines, l, i + 1, inner, InBrackets(false)).Some?
    ensures var q := Reads(lines, l, i + 1, inner, InBrackets(false)).value;
            && GoesOn(lines, l, i, stack, q, to) && DropAngles(to, '<') == stack + [lines[l][i]]
            && (stack != [] && PairsWith(lines[l][i], lines, q) ==>
                  GoesOn(lines, l, i, stack, Position(q.line, q.pos + 1), stack))
    decreases inner, 2
  {
    var c, q := lines[l][i], Reads(lines, l, i + 1, inner, InBrackets(false)).value;
    PushOpen(stack, c);
    CloseTurn(lines, l, i, stack, stack + [c]);
    to := ScanReads(lines, l, i + 1, inner, InBrackets(false), stack + [c]);
    if stack != [] && PairsWith(c, lines, q) {
      BracketIsPopped(lines[q.line], q.pos, stack, c, to);
      CloseTurn(lines, q.line, q.pos, to, stack);
    }
  }

  lemma MatchIsFound(lines: seq<string>, l: nat, i: nat, stack: string)
    requires l < |lines| && i < |lines[l]| && ForwardStep(lines[l], i, stack) == Match
    ensures CloseFrom(lines, l, i, stack) == Some(Position(l, i + 1))
  {
  }

  lemma GroupIsFirst(lines: seq<string>, l: nat, p: nat, t: Text, end: Position)
    requires l < |lines| && p < |lines[l]| && IsGroup(lines, l, p, t, end)
    ensures First(lines, l, p, t, InAngles) == Some((end, InAngles))
  {
    match First(lines, l, p, t, InAngles)
    case None =>
    case Some((at, after)) => assert Reads(lines, at.line, at.pos, Stop, after) == Some(at);
  }

  /** From the start of a group the scan reports its end. */
  lemma GroupIsClosed(lines: seq<string>, l: nat, p: nat, t: Text, end: Position)
    requires l < |lines| && p < |lines[l]| && IsGroup(lines, l, p, t, end)
    ensures CloseFrom(lines, l, p, []) == Some(end)
  {
    GroupIsFirst(lines, l, p, t, end);
    if t.Angles? {
      var q := Reads(lines, l, p + 1, t.inner, InAngles).value;
      ScanLess(lines, l, p, t.inner, []);
      LessIsPopped(lines[q.line], q.pos, []);
      MatchIsFound(lines, q.line, q.pos, [] + ['<']);
    } else {
      var q := Reads(lines, l, p + 1, t.inner, InBrackets(false)).value;
      var to := ScanOpen(lines, l, p, t.inner, []);
      BracketIsPopped(lines[q.line], q.pos, [], lines[l][p], to);
      MatchIsFound(lines, q.line, q.pos, to);
    }
  }

  // --------------------------------------------------------------------------
  // A scan that reports an end has read a text of the grammar
  // --------------------------------------------------------------------------

  /** `t`, and behind it `u`. */
  function Joined(t: Text, u: Text): Text {
    match t
    case Stop => u
    case Char(rest) => Char(Joined(rest, u))
    case Operator(rest) => Operator(Joined(rest, u))
    case NewLine(rest) => NewLine(Joined(rest, u))
    case Angles(inner, rest) => Angles(inner, Joined(rest, u))
    case Undone(inner, rest) => Undone(inner, Joined(rest, u))
    case Brackets(inner, rest) => Brackets(inner, Joined(rest, u))
    case Semicolon(rest) => Semicolon(Joined(rest, u))
    case Stray(rest) => Stray(Joined(rest, u))
    case Unclosed(rest) => Unclosed(Joined(rest, u))
  }

  /** Behind a semicolon it does not matter what was waiting before. */
  lemma {:induction false} AppendSemicolon(lines: seq<string>, l: nat, i: nat, t: Text, waiting: bool, u: Text)
    requires l < |lines| && i <= |lines[l]| && Reads(lines, l, i, t, InBrackets(waiting)).Some?
    ensures var q := Reads(lines, l, i, t, InBrackets(waiting)).value;
            Reads(lines, l, i, Joined(t, Semicolon(u)), InBrackets(waiting))
            == Reads(lines, q.line, q.pos, Semicolon(u), InBrackets(true))
    decreases t
  {
    if t == Stop {
      SemicolonResets(lines, l, i, u, waiting);
    } else {
      FirstOfAppend(lines, l, i, t, Semicolon(u), InBrackets(waiting));
      var (at, after) := First(lines, l, i, t, InBrackets(waiting)).value;
      AppendSemicolon(lines, at.line, at.pos, t.rest, after.waiting, u);
    }
  }

  lemma SemicolonResets(lines: seq<string>, l: nat, i: nat, u: Text, waiting: bool)
    requires l < |lines| && i <= |lines[l]|
    ensures Reads(lines, l, i, Semicolon(u), InBrackets(waiting)) == Reads(lines, l, i, Semicolon(u), InBrackets(true))
  {
    assert First(lines, l, i, Semicolon(u), InBrackets(waiting)) == First(lines, l, i, Semicolon(u), InBrackets(true));
  }

  lemma FirstOfAppend(lines: seq<string>, l: nat, i: nat, t: Text, u: Text, level: Level)
    requires l < |lines| && i <= |lines[l]| && t != Stop
    ensures Joined(t, u) != Stop && Joined(t, u).rest == Joined(t.rest, u)
    ensures First(lines, l, i, Joined(t, u), level) == First(lines, l, i, t, level)
    ensures First(lines, l, i, t, level).Some? ==> First(lines, l, i, t, level).value.1.InAngles? == level.InAngles?
  {
  }

  /** A first thing put before a text that has been read. */
  lemma ReadsBehind(lines: seq<string>, l: nat, i: nat, t: Text, level: Level, at: Position, after: Level)
    requires l < |lines| && i <= |lines[l]| && t != Stop && First(lines, l, i, t, level) == Some((at, after))
    ensures Reads(lines, l, i, t, level) == Reads(lines, at.line, at.pos, t.rest, after)
  {
  }

  /** What ends a text between angles: it closes or undoes the '<', or drops it. */
  predicate EndsAngles(lines: seq<string>, q: Position, level: Level) {
    if level.InAngles? then Closes(lines, q) || Undoes(lines, q) else Drops(lines, q)
  }

  predicate Drops(lines: seq<string>, q: Position) {
    q.line < |lines| && q.pos < |lines[q.line]| && (lines[q.line][q.pos] == ';' || IsClose(lines[q.line][q.pos]))
  }

  /** Every character is of one of these kinds. */
  lemma KindsOfChars(line: string, i: nat)
    requires i < |line|
    ensures || IsPlainChar(line[i]) || IsPassed(line, i) || IsOpening(line, i) || IsOpen(line[i])
            || IsClosing(line, i) || IsSecondLess(line, i) || line[i] == ';' || IsClose(line[i])
  {
  }

  lemma EndOfLine(lines: seq<string>, l: nat, stack: string)
    requires l < |lines| && CloseFrom(lines, l, |lines[l]|, stack).Some?
    ensures l + 1 < |lines| && CloseFrom(lines, l, |lines[l]|, stack) == CloseFrom(lines, l + 1, 0, stack)
  {
  }

  /** What drops the angles on top of a stack, if the scan goes on. */
  lemma DropIsPopped(lines: seq<string>, q: Position, stack: string, to: string)
    requires Drops(lines, q) && CloseFrom(lines, q.line, q.pos, to).Some?
    requires stack != [] && IsOpen(Top(stack)) && DropAngles(to, '<') == stack
    ensures if lines[q.line][q.pos] == ';' then CloseFrom(lines, q.line, q.pos, to) == CloseFrom(lines, q.line, q.pos + 1, stack)
            else PairsWith(Top(stack), lines, q)
  {
    if lines[q.line][q.pos] == ';' {
      CloseTurn(lines, q.line, q.pos, to, stack);
    }
  }

  /** A single character that the scan passes, and the text behind it. */
  lemma PassOne(lines: seq<string>, l: nat, i: nat, stack: string) returns (at: Position)
    requires l < |lines| && i <= |lines[l]| && stack != [] && CloseFrom(lines, l, i, stack).Some?
    requires i < |lines[l]| ==> IsPlainChar(lines[l][i]) || IsPassed(lines[l], i)
    ensures at == if i == |lines[l]| then Position(l + 1, 0) else Position(l, i + 1)
    ensures IsPlace(lines, at) && CloseFrom(lines, l, i, stack) == CloseFrom(lines, at.line, at.pos, stack)
  {
    if i == |lines[l]| {
      EndOfLine(lines, l, stack);
      at := Position(l + 1, 0);
    } else {
      PassedIsPassed(lines[l], i, stack);
      CloseTurn(lines, l, i, stack, stack);
      at := Position(l, i + 1);
    }
  }

  /** The derivation that begins with this character, or with the end of the line. */
  function Passing(lines: seq<string>, l: nat, i: nat, rest: Text): Text
    requires l < |lines| && i <= |lines[l]|
  {
    if i == |lines[l]| then NewLine(rest) else if IsPlainChar(lines[l][i]) then Char(rest) else Operator(rest)
  }

  /** The scan has come to `q`, with nothing but angles added to its stack or taken off it. */
  ghost predicate ComesTo(lines: seq<string>, l: nat, i: nat, stack: string, q: Position, to: string)
    requires l < |lines|
  {
    && q.line < |lines| && GoesOn(lines, l, i, stack, q, to)
    && to != [] && Top(to) == '<' && DropAngles(to, '<') == DropAngles(stack, '<')
  }

  /** A text between angles, up to what ends it. */
  lemma {:induction false} ParseAngles(lines: seq<string>, l: nat, i: nat, stack: string)
      returns (t: Text, q: Position, level: Level, to: string)
    requires l < |lines| && i <= |lines[l]| && stack != [] && Top(stack) == '<' && CloseFrom(lines, l, i, stack).Some?
    ensures (level == InAngles || level == InBrackets(true)) && Reads(lines, l, i, t, level) == Some(q)
    ensures EndsAngles(lines, q, level) && ComesTo(lines, l, i, stack, q, to)
    decreases |lines| - l, |lines[l]| - i, 1
  {
    var line := lines[l];
    if i < |line| {
      KindsOfChars(line, i);
    }
    if i == |line| || IsPlainChar(line[i]) || IsPassed(line, i) {
      var at := PassOne(lines, l, i, stack);
      t, q, level, to := ParseAngles(lines, at.line, at.pos, stack);
      t := Passing(lines, l, i, t);
      ReadsBehind(lines, l, i, t, level, at, level);
    } else if IsOpening(line, i) {
      t, q, level, to := ParseLess(lines, l, i, stack);
      if level.InAngles? {
        var first, at := t, Position(q.line, q.pos + 1);
        t, q, level, to := ParseAngles(lines, at.line, at.pos, stack);
        t := if first.Angles? then Angles(first.inner, t) else Undone(first.inner, t);
        FirstIsFirst(lines, l, i, first, t, level);
        ReadsBehind(lines, l, i, t, level, at, level);
      } else {
        t := Unclosed(t);
        ReadsBehind(lines, l, i, t, level, Position(l, i + 1), level);
      }
    } else if IsOpen(line[i]) {
      var inner, at := ParseOpen(lines, l, i, stack);
      t, q, level, to := ParseAngles(lines, at.line, at.pos, stack);
      t := Brackets(inner, t);
      FirstIsFirst(lines, l, i, Brackets(inner, Stop), t, level);
      ReadsBehind(lines, l, i, t, level, at, level);
    } else {
      t, q, to := Stop, Position(l, i), stack;
      level := if line[i] == ';' || IsClose(line[i]) then InBrackets(true) else InAngles;
    }
  }

  /** The first thing does not depend on the rest, and a group not on the level around it. */
  lemma FirstIsFirst(lines: seq<string>, l: nat, i: nat, t: Text, u: Text, level: Level)
    requires l < |lines| && i <= |lines[l]|
    requires (t.Angles? && u.Angles? && t.inner == u.inner) || (t.Undone? && u.Undone? && t.inner == u.inner)
             || (t.Brackets? && u.Brackets? && t.inner == u.inner)
    requires First(lines, l, i, t, InAngles).Some?
    ensures First(lines, l, i, u, level) == Some((First(lines, l, i, t, InAngles).value.0, level))
  {
  }

  /**
   What a '<' begins that is pushed: angles or an undone '<', and then the scan goes on behind that; or a text
   that drops it.
   */
  lemma {:induction false} ParseLess(lines: seq<string>, l: nat, i: nat, stack: string)
      returns (t: Text, q: Position, level: Level, to: string)
    requires l < |lines| && i < |lines[l]| && stack != [] && IsOpening(lines[l], i) && CloseFrom(lines, l, i, stack).Some?
    ensures EndsAngles(lines, q, level) && (level == InAngles || level == InBrackets(true))
    ensures level == InBrackets(true) ==>
              Reads(lines, l, i + 1, t, level) == Some(q) && ComesTo(lines, l, i, stack, q, to)
    ensures level.InAngles? ==>
              && (t.Angles? || t.Undone?) && First(lines, l, i, t, InAngles) == Some((Position(q.line, q.pos + 1), InAngles))
              && GoesOn(lines, l, i, stack, Position(q.line, q.pos + 1), stack)
    decreases |lines| - l, |lines[l]| - i, 0, 0
  {
    OpeningIsPushed(lines[l], i, stack);
    CloseTurn(lines, l, i, stack, stack + ['<']);
    PushLess(stack);
    t, q, level, to := ParseAngles(lines, l, i + 1, stack + ['<']);
    if level.InAngles? {
      ScanLess(lines, l, i, t, stack);
      t := if Closes(lines, q) then Angles(t, Stop) else Undone(t, Stop);
    }
  }

  /** The text behind an opening bracket, and the place behind the bracket that closes it. */
  lemma {:induction false} ParseOpen(lines: seq<string>, l: nat, i: nat, stack: string) returns (t: Text, at: Position)
    requires l < |lines| && i < |lines[l]| && stack != [] && IsOpen(lines[l][i]) && CloseFrom(lines, l, i, stack).Some?
    ensures First(lines, l, i, Brackets(t, Stop), InAngles) == Some((at, InAngles))
    ensures GoesOn(lines, l, i, stack, at, stack)
    decreases |lines| - l, |lines[l]| - i, 0, 0
  {
    PushOpen(stack, lines[l][i]);
    CloseTurn(lines, l, i, stack, stack + [lines[l][i]]);
    var q;
    t, q := ParseBrackets(lines, l, i + 1, stack + [lines[l][i]]);
    var to := ScanOpen(lines, l, i, t, stack);
    at := Position(q.line, q.pos + 1);
  }

  /** A text in brackets, up to the bracket that closes it. */
  lemma {:induction false} ParseBrackets(lines: seq<string>, l: nat, i: nat, stack: string) returns (t: Text, q: Position)
    requires l < |lines| && i <= |lines[l]| && stack != [] && IsOpen(Top(stack)) && CloseFrom(lines, l, i, stack).Some?
    ensures Reads(lines, l, i, t, InBrackets(false)) == Some(q) && PairsWith(Top(stack), lines, q)
    decreases |lines| - l, |lines[l]| - i, 1
  {
    var line := lines[l];
    if i < |line| {
      KindsOfChars(line, i);
    }
    if i == |line| || IsPlainChar(line[i]) || IsPassed(line, i) {
      var at := PassOne(lines, l, i, stack);
      t, q := ParseBrackets(lines, at.line, at.pos, stack);
      t := Passing(lines, l, i, t);
      ReadsBehind(lines, l, i, t, InBrackets(false), at, InBrackets(false));
    } else if IsOpening(line, i) {
      t, q := ParseLessInBrackets(lines, l, i, stack);
    } else if IsOpen(line[i]) {
      var inner, at := ParseOpen(lines, l, i, stack);
      t, q := ParseBrackets(lines, at.line, at.pos, stack);
      t := Brackets(inner, t);
      FirstIsFirst(lines, l, i, Brackets(inner, Stop), t, InBrackets(false));
      ReadsBehind(lines, l, i, t, InBrackets(false), at, InBrackets(false));
    } else {
      t, q := ParseLast(lines, l, i, stack);
    }
  }

  /** A stray angle, a semicolon or the closing bracket. */
  lemma {:induction false} ParseLast(lines: seq<string>, l: nat, i: nat, stack: string) returns (t: Text, q: Position)
    requires l < |lines| && i < |lines[l]| && stack != [] && IsOpen(Top(stack)) && CloseFrom(lines, l, i, stack).Some?
    requires IsClosing(lines[l], i) || IsSecondLess(lines[l], i) || Drops(lines, Position(l, i))
    ensures Reads(lines, l, i, t, InBrackets(false)) == Some(q) && PairsWith(Top(stack), lines, q)
    decreases |lines| - l, |lines[l]| - i, 0, 0
  {
    if Drops(lines, Position(l, i)) {
      DropIsPopped(lines, Position(l, i), stack, stack);
    } else {
      StrayIsPassed(lines[l], i, stack);
      CloseTurn(lines, l, i, stack, stack);
    }
    t, q := Stop, Position(l, i);
    if !IsClose(lines[l][i]) {
      t, q := ParseBrackets(lines, l, i + 1, stack);
      t := if lines[l][i] == ';' then Semicolon(t) else Stray(t);
      ReadsBehind(lines, l, i, t, InBrackets(false), Position(l, i + 1), InBrackets(false));
    }
  }

  /** A '<' inside brackets: it is closed or undone, or it stays unclosed up to a semicolon or the closing bracket. */
  lemma {:induction false} ParseLessInBrackets(lines: seq<string>, l: nat, i: nat, stack: string)
      returns (t: Text, q: Position)
    requires l < |lines| && i < |lines[l]| && stack != [] && IsOpen(Top(stack))
    requires IsOpening(lines[l], i) && CloseFrom(lines, l, i, stack).Some?
    ensures Reads(lines, l, i, t, InBrackets(false)) == Some(q) && PairsWith(Top(stack), lines, q)
    decreases |lines| - l, |lines[l]| - i, 0, 2
  {
    var level, to;
    t, q, level, to := ParseLess(lines, l, i, stack);
    if level.InAngles? {
      var first, at := t, Position(q.line, q.pos + 1);
      t, q := ParseBrackets(lines, at.line, at.pos, stack);
      t := if first.Angles? then Angles(first.inner, t) else Undone(first.inner, t);
      FirstIsFirst(lines, l, i, first, t, InBrackets(false));
      ReadsBehind(lines, l, i, t, InBrackets(false), at, InBrackets(false));
    } else {
      t, q := ParseUnclosed(lines, l, i, stack, t, q, to);
    }
  }

  /** A '<' that stays unclosed up to a semicolon or the closing bracket. */
  lemma {:induction false} ParseUnclosed(lines: seq<string>, l: nat, i: nat, stack: string, inner: Text, at: Position,
                                         to: string)
      returns (t: Text, q: Position)
    requires l < |lines| && i < |lines[l]| && stack != [] && IsOpen(Top(stack)) && IsOpening(lines[l], i)
    requires Reads(lines, l, i + 1, inner, InBrackets(true)) == Some(at) && Drops(lines, at)
    requires CloseFrom(lines, at.line, at.pos, to).Some? && DropAngles(to, '<') == stack
    ensures Reads(lines, l, i, t, InBrackets(false)) == Some(q) && PairsWith(Top(stack), lines, q)
    decreases |lines| - l, |lines[l]| - i, 0, 1
  {
    DropIsPopped(lines, at, stack, to);
    t, q := inner, at;
    if lines[at.line][at.pos] == ';' {
      var rest;
      rest, q := ParseBrackets(lines, at.line, at.pos + 1, stack);
      UnclosedUpTo(lines, l, i, inner, at, rest, q);
      t := Joined(inner, Semicolon(rest));
    }
    UnclosedReads(lines, l, i, t, q);
    t := Unclosed(t);
  }

  lemma UnclosedReads(lines: seq<string>, l: nat, i: nat, t: Text, q: Position)
    requires l < |lines| && i < |lines[l]| && IsOpening(lines[l], i)
    requires Reads(lines, l, i + 1, t, InBrackets(true)) == Some(q)
    ensures Reads(lines, l, i, Unclosed(t), InBrackets(false)) == Some(q)
  {
    ReadsBehind(lines, l, i, Unclosed(t), InBrackets(false), Position(l, i + 1), InBrackets(true));
  }

  lemma UnclosedUpTo(lines: seq<string>, l: nat, i: nat, t: Text, q: Position, rest: Text, end: Position)
    requires l < |lines| && i < |lines[l]| && Reads(lines, l, i + 1, t, InBrackets(true)) == Some(q)
    requires q.pos < |lines[q.line]| && lines[q.line][q.pos] == ';'
    requires Reads(lines, q.line, q.pos + 1, rest, InBrackets(false)) == Some(end)
    ensures Reads(lines, l, i + 1, Joined(t, Semicolon(rest)), InBrackets(true)) == Some(end)
  {
    AppendSemicolon(lines, l, i + 1, t, true, rest);
    ReadsBehind(lines, q.line, q.pos, Semicolon(rest), InBrackets(true), Position(q.line, q.pos + 1), InBrackets(false));
  }

  // --------------------------------------------------------------------------
  // The matcher and the grammar
  // --------------------------------------------------------------------------

  /** `CloseExpression` looks no further from a '<' that another one or a '=' follows. */
  predicate IsRefused(line: string, p: nat)
    requires p < |line|
  {
    line[p] == '<' && p + 1 < |line| && (line[p + 1] == '<' || line[p + 1] == '=')
  }

  lemma ParseGroup(lines: seq<string>, l: nat, p: nat) returns (t: Text, end: Position)
    requires l < |lines| && p < |lines[l]| && (IsOpen(lines[l][p]) || IsOpening(lines[l], p))
    requires CloseFrom(lines, l, p, []).Some?
    ensures IsGroup(lines, l, p, t, end)
  {
    var c, q := lines[l][p], Position(l, p);
    assert [] + [c] == [c];
    CloseTurn(lines, l, p, [], [c]);
    if IsOpen(c) {
      t, q := ParseBrackets(lines, l, p + 1, [c]);
      t := Brackets(t, Stop);
    } else {
      t, q := ParseAnchor(lines, l, p);
      t := Angles(t, Stop);
    }
    end := Position(q.line, q.pos + 1);
    assert First(lines, l, p, t, InAngles) == Some((end, InAngles));
    ReadsBehind(lines, l, p, t, InAngles, end, InAngles);
  }

  /** A '<' that the scan started from is closed if an end is reported, neither undone nor dropped. */
  lemma ParseAnchor(lines: seq<string>, l: nat, p: nat) returns (t: Text, q: Position)
    requires l < |lines| && p < |lines[l]| && IsOpening(lines[l], p) && CloseFrom(lines, l, p + 1, ['<']).Some?
    ensures Reads(lines, l, p + 1, t, InAngles) == Some(q) && Closes(lines, q)
  {
    var level, to;
    t, q, level, to := ParseAngles(lines, l, p + 1, ['<']);
    assert Pop(['<']) == [];
    if level.InAngles? {
      NotUndone(lines, l, p, t, q);
    } else {
      NotDropped(lines, q, to);
    }
  }

  lemma NotUndone(lines: seq<string>, l: nat, p: nat, t: Text, q: Position)
    requires l < |lines| && p < |lines[l]| && IsOpening(lines[l], p) && CloseFrom(lines, l, p + 1, ['<']).Some?
    requires Reads(lines, l, p + 1, t, InAngles) == Some(q)
    ensures !Undoes(lines, q)
  {
    ScanLess(lines, l, p, t, []);
    OpeningIsPushed(lines[l], p, []);
    assert [] + ['<'] == ['<'];
    CloseTurn(lines, l, p, [], ['<']);
    if Undoes(lines, q) {
      LessIsPopped(lines[q.line], q.pos, []);
    }
  }

  lemma NotDropped(lines: seq<string>, q: Position, to: string)
    requires q.line < |lines| && CloseFrom(lines, q.line, q.pos, to).Some? && to != [] && DropAngles(to, '<') == []
    ensures !Drops(lines, q)
  {
  }

  /** An end is reported from `p`, and it is not that of a '<' which is part of an operator. */
  predicate ReportsOwn(lines: seq<string>, l: nat, p: nat, end: Position)
    requires l < |lines| && p < |lines[l]|
  {
    Close(lines, l, p) == Some(end) && !IsOperatorLess(lines[l], p)
  }

  /**
   The matcher is the grammar: from any bracket and any '<' that is no operator, `CloseExpression` reports an end
   exactly if a group of the grammar starts there, and then the end of that group.
   */
  lemma CloseIsGrammar(lines: seq<string>, l: nat, p: nat, end: Position)
    requires l < |lines| && p < |lines[l]|
    ensures ReportsOwn(lines, l, p, end)
       <==> !IsRefused(lines[l], p) && exists t :: IsGroup(lines, l, p, t, end)
  {
    if ReportsOwn(lines, l, p, end) {
      var t, e := ParseGroup(lines, l, p);
      GroupIsClosed(lines, l, p, t, e);
    }
    if t :| IsGroup(lines, l, p, t, end) {
      GroupIsClosed(lines, l, p, t, end);
      GroupStarts(lines, l, p, t, end);
    }
  }

  lemma GroupStarts(lines: seq<string>, l: nat, p: nat, t: Text, end: Position)
    requires l < |lines| && p < |lines[l]| && IsGroup(lines, l, p, t, end)
    ensures IsOpen(lines[l][p]) || IsOpening(lines[l], p)
  {
    GroupIsFirst(lines, l, p, t, end);
  }

  /** The end reported from a '<' is behind a '>' that is no part of an operator. */
  lemma AnglesEnd(lines: seq<string>, l: nat, p: nat, end: Position)
    requires l < |lines| && p < |lines[l]| && lines[l][p] == '<' && ReportsOwn(lines, l, p, end)
    ensures end.pos > 0 && Closes(lines, Position(end.line, end.pos - 1))
  {
    var t, e := ParseGroup(lines, l, p);
    GroupIsClosed(lines, l, p, t, e);
    GroupIsFirst(lines, l, p, t, e);
  }

  // --------------------------------------------------------------------------
  // What counts as `operator`
  // --------------------------------------------------------------------------

  lemma {:induction false} WordMeans(s: string, w: string)
    ensures EndsWithWord(s, w)
       <==> |w| <= |s| && s[|s| - |w|..] == w && (|s| == |w| || !IsWord(s[|s| - |w| - 1]))
    decreases |s|
  {
    if w == [] || s == [] {
      assert s[|s|..] == [];
    } else {
      var k := |s| - 1;
      WordMeans(s[..k], w[..|w| - 1]);
      assert w == w[..|w| - 1] + [w[|w| - 1]];
      if |w| <= |s| {
        assert s[|s| - |w|..] == s[..k][k - (|w| - 1)..] + [s[k]];
      }
    }
  }

  /** The word stands at `k`, not as the end of a longer one, and nothing but white space behind it. */
  predicate OperatorAt(s: string, k: int) {
    && 0 <= k && k + 8 <= |s| && s[k..k + 8] == "operator" && (k == 0 || !IsWord(s[k - 1]))
    && forall j :: k + 8 <= j < |s| ==> IsSpace(s[j])
  }

  lemma {:induction false} OperatorMeans(s: string)
    ensures EndsWithOperator(s) <==> exists k :: OperatorAt(s, k)
  {
    if s != [] && IsSpace(s[|s| - 1]) {
      var front := s[..|s| - 1];
      OperatorMeans(front);
      forall k ensures OperatorAt(s, k) <==> OperatorAt(front, k) {
        OperatorBeforeSpace(s, k);
      }
    } else {
      WordMeans(s, "operator");
      if |s| >= 8 {
        assert s[|s| - 8..] == s[|s| - 8..|s| - 8 + 8];
        assert OperatorAt(s, |s| - 8) <==> EndsWithOperator(s);
      }
      forall k | 0 <= k < |s| - 8 ensures !OperatorAt(s, k) {
        assert !IsSpace(s[|s| - 1]);
      }
    }
  }

  lemma OperatorBeforeSpace(s: string, k: int)
    requires s != [] && IsSpace(s[|s| - 1])
    ensures OperatorAt(s, k) <==> OperatorAt(s[..|s| - 1], k)
  {
    var front := s[..|s| - 1];
    if 0 <= k && k + 8 <= |front| {
      assert front[k..k + 8] == s[k..k + 8];
      assert forall j :: 0 <= j < |front| ==> front[j] == s[j];
    } else if 0 <= k && k + 8 == |s| {
      assert s[k..k + 8] == s[k..] && s[k..][7] == s[|s| - 1];
    }
  }

  /**
   The '>' of `operator>` is meant to be passed. It is if white space stands before it, and only then: the scan
   looks for the word one character too far to the left.
   */
  lemma OperatorGreaterIff(line: string, i: nat)
    requires 0 < i < |line| && line[i] == '>' && EndsWithOperator(line[..i])
    ensures IsPassed(line, i) <==> IsSpace(line[i - 1])
  {
    assert line[..i][i - 1] == line[i - 1] && line[..i][..i - 1] == line[..i - 1];
    if !IsSpace(line[i - 1]) {
      WordMeans(line[..i], "operator");
      assert line[..i][i - 8..][7] == line[i - 1] && line[..i][i - 8..][6] == line[i - 2];
      assert line[..i - 1][i - 2] == 'o';
    }
  }

  /** From the '<' here the end reported is that behind `operator>`, one character too early. */
  lemma OperatorGreaterCloses()
    ensures Close(["<operator>>"], 0, 0) == Some(Position(0, 10))
  {
    var line := "<operator>>";
    assert line[..8][7] == 'o' && !EndsWithOperator(line[..8]);
    CharsGroup([line], 8);
    CloseIsGrammar([line], 0, 0, Position(0, 10));
  }

  /** So many plain characters. */
  function Chars(n: nat): Text {
    if n == 0 then Stop else Char(Chars(n - 1))
  }

  lemma {:induction false} CharsRead(lines: seq<string>, l: nat, i: nat, n: nat)
    requires l < |lines| && i + n <= |lines[l]| && forall j :: i <= j < i + n ==> IsPlainChar(lines[l][j])
    ensures Reads(lines, l, i, Chars(n), InAngles) == Some(Position(l, i + n))
    decreases n
  {
    if n > 0 {
      CharsRead(lines, l, i + 1, n - 1);
    }
  }

  /** Angles around plain characters. */
  lemma CharsGroup(lines: seq<string>, n: nat)
    requires lines != [] && |lines[0]| > n + 1 && IsOpening(lines[0], 0) && IsClosing(lines[0], n + 1)
    requires forall j :: 1 <= j < n + 1 ==> IsPlainChar(lines[0][j])
    ensures IsGroup(lines, 0, 0, Angles(Chars(n), Stop), Position(0, n + 2))
  {
    CharsRead(lines, 0, 1, n);
    var group, end := Angles(Chars(n), Stop), Position(0, n + 2);
    assert First(lines, 0, 0, group, InAngles) == Some((end, InAngles));
    ReadsBehind(lines, 0, 0, group, InAngles, end, InAngles);
  }
}
