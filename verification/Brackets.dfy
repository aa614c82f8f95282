/**
 The bracket matchers of cpplint.py on cleansed lines: what one line does to a stack of pending brackets,
 and what a match found across lines means.
 */
module Brackets {
  import opened Characters
  import opened Wrappers

  // --------------------------------------------------------------------------
  // Characters and lookbehinds
  // --------------------------------------------------------------------------

  predicate IsOpen(c: char) {
    c == '(' || c == '[' || c == '{'
  }

  predicate IsClose(c: char) {
    c == ')' || c == ']' || c == '}'
  }

  predicate IsPlain(c: char) {
    !IsOpen(c) && !IsClose(c)
  }

  /** The closing bracket of an opening one. */
  function CloseOf(c: char): char
    requires IsOpen(c)
  {
    if c == '(' then ')' else if c == '[' then ']' else '}'
  }

  function OpenOf(c: char): char
    requires IsClose(c)
  {
    if c == ')' then '(' else if c == ']' then '[' else '{'
  }

  /** `s` ends with the word `w`, and `w` does not go on to the left. */
  predicate EndsWithWord(s: string, w: string)
    decreases |s|
  {
    if w == [] then s == [] || !IsWord(s[|s| - 1])
    else s != [] && s[|s| - 1] == w[|w| - 1] && EndsWithWord(s[..|s| - 1], w[..|w| - 1])
  }

  /** Search(r'\boperator\s*$', s) */
  predicate EndsWithOperator(s: string) {
    if s != [] && IsSpace(s[|s| - 1]) then EndsWithOperator(s[..|s| - 1])
    else EndsWithWord(s, "operator")
  }

  /** Match(r'\s>=\s', line[i - 1:]) for a '>' at i. */
  predicate IsSpacedGreaterEqual(line: string, i: int) {
    0 < i && i + 2 < |line| && IsSpace(line[i - 1]) && line[i] == '>' && line[i + 1] == '=' && IsSpace(line[i + 2])
  }

  /** What precedes `operator`'s '>' or '<' is a letter or white space, never a bracket. */
  lemma OperatorEndsPlain(s: string)
    requires EndsWithOperator(s)
    ensures s != [] && IsPlain(s[|s| - 1])
  {
  }

  // --------------------------------------------------------------------------
  // One line, one way and the other
  // --------------------------------------------------------------------------

  /** What scanning to the end of a line gives: `(pos, None)`, `(-1, None)` or `(-1, stack)`. */
  datatype LineResult = Found(pos: nat) | GaveUp | Unfinished(stack: string)

  /** What one character does; backwards, an operator takes a second character with it. */
  datatype CharResult = Continue(stack: string, width: nat) | Match | Fail

  function Top(stack: string): char
    requires stack != []
  {
    stack[|stack| - 1]
  }

  function Pop(stack: string): string
    requires stack != []
  {
    stack[..|stack| - 1]
  }

  /** The pending `angle`s on top turn out to have been operators. */
  function DropAngles(stack: string, angle: char): string {
    if stack != [] && Top(stack) == angle then DropAngles(Pop(stack), angle) else stack
  }

  /** The effect of a real bracket on the other side of the pending ones: match it, or fail. */
  function Settle(stack: string, partner: char): CharResult {
    if stack == [] || Top(stack) != partner then Fail
    else if Pop(stack) == [] then Match
    else Continue(Pop(stack), 1)
  }

  function KeepGoing(stack: string): CharResult {
    if stack == [] then Fail else Continue(stack, 1)
  }

  function ForwardStep(line: string, i: nat, stack: string): CharResult
    requires i < |line|
  {
    var c := line[i];
    if IsOpen(c) then Continue(stack + [c], 1)
    else if c == '<' then
      if i > 0 && line[i - 1] == '<' then
        if stack != [] && Top(stack) == '<' then KeepGoing(Pop(stack)) else Continue(stack, 1)
      else if i > 0 && EndsWithOperator(line[..i]) then Continue(stack, 1)
      else Continue(stack + ['<'], 1)
    else if IsClose(c) then Settle(DropAngles(stack, '<'), OpenOf(c))
    else if c == '>' then
      if i > 0 && (line[i - 1] == '-' || EndsWithOperator(line[..i - 1])) then Continue(stack, 1)
      else if stack != [] && Top(stack) == '<' then Settle(stack, '<')
      else Continue(stack, 1)
    else if c == ';' then KeepGoing(DropAngles(stack, '<'))
    else Continue(stack, 1)
  }

  /** `FindEndOfExpressionInLine`. */
  function ScanForward(line: string, i: nat, stack: string): LineResult
    decreases |line| - i
  {
    if i >= |line| then Unfinished(stack)
    else
      match ForwardStep(line, i, stack)
      case Match => Found(i + 1)
      case Fail => GaveUp
      case Continue(st, _) => ScanForward(line, i + 1, st)
  }

  function BackwardStep(line: string, i: nat, stack: string): (r: CharResult)
    requires i < |line|
    ensures r.Continue? ==> 1 <= r.width <= 2
  {
    var c := line[i];
    if IsClose(c) then Continue(stack + [c], 1)
    else if c == '>' then
      if i > 0 && (line[i - 1] == '-' || IsSpacedGreaterEqual(line, i) || EndsWithOperator(line[..i])) then
        Continue(stack, 2)
      else Continue(stack + ['>'], 1)
    else if c == '<' then
      if i > 0 && line[i - 1] == '<' then Continue(stack, 2)
      else if stack != [] && Top(stack) == '>' then Settle(stack, '>')
      else Continue(stack, 1)
    else if IsOpen(c) then Settle(DropAngles(stack, '>'), CloseOf(c))
    else if c == ';' then KeepGoing(DropAngles(stack, '>'))
    else Continue(stack, 1)
  }

  /** `FindStartOfExpressionInLine`; `i` is -1 at the beginning of the line. */
  function ScanBackward(line: string, i: int, stack: string): LineResult
    requires i < |line|
    decreases i + 1
  {
    if i < 0 then Unfinished(stack)
    else
      match BackwardStep(line, i, stack)
      case Match => Found(i)
      case Fail => GaveUp
      case Continue(st, width) => ScanBackward(line, i - width, st)
  }

  // --------------------------------------------------------------------------
  // Across lines
  // --------------------------------------------------------------------------

  datatype Position = Position(line: nat, pos: nat)

  function CloseFrom(lines: seq<string>, l: nat, i: nat, stack: string): Option<Position>
    requires l < |lines|
    decreases |lines| - l
  {
    match ScanForward(lines[l], i, stack)
    case Found(e) => Some(Position(l, e))
    case GaveUp => None
    case Unfinished(st) => if st != [] && l + 1 < |lines| then CloseFrom(lines, l + 1, 0, st) else None
  }

  /** `CloseExpression`: None stands for the position -1. */
  function Close(lines: seq<string>, l: nat, p: nat): Option<Position>
    requires l < |lines| && p < |lines[l]|
  {
    var line := lines[l];
    if !(IsOpen(line[p]) || line[p] == '<') then None
    else if line[p] == '<' && p + 1 < |line| && (line[p + 1] == '<' || line[p + 1] == '=') then None
    else CloseFrom(lines, l, p, [])
  }

  function ReverseFrom(lines: seq<string>, l: nat, i: int, stack: string): Option<Position>
    requires l < |lines| && i < |lines[l]|
    decreases l
  {
    match ScanBackward(lines[l], i, stack)
    case Found(s) => Some(Position(l, s))
    case GaveUp => None
    case Unfinished(st) => if st != [] && l > 0 then ReverseFrom(lines, l - 1, |lines[l - 1]| - 1, st) else None
  }

  /** `ReverseCloseExpression`. */
  function ReverseClose(lines: seq<string>, l: nat, p: nat): Option<Position>
    requires l < |lines| && p < |lines[l]|
  {
    if !(IsClose(lines[l][p]) || lines[l][p] == '>') then None
    else ReverseFrom(lines, l, p, [])
  }

  // --------------------------------------------------------------------------
  // Without angle brackets the two directions are inverse
  // --------------------------------------------------------------------------

  predicate NoAngles(line: string) {
    '<' !in line && '>' !in line
  }

  predicate AllOpen(stack: string) {
    forall c | c in stack :: IsOpen(c)
  }

  predicate AllClose(stack: string) {
    forall c | c in stack :: IsClose(c)
  }

  /** The closing brackets that a stack of opening ones waits for, innermost on top. */
  function Mirror(stack: string): (m: string)
    requires AllOpen(stack)
    ensures |m| == |stack| && AllClose(m)
    ensures forall k :: 0 <= k < |stack| ==> m[k] == CloseOf(stack[k])
  {
    if stack == [] then []
    else
      var m := Mirror(Pop(stack));
      assert Top(stack) in stack;
      assert forall c :: c in Pop(stack) ==> c in stack;
      m + [CloseOf(Top(stack))]
  }

  lemma AnglesAbsent(stack: string, angle: char)
    requires angle !in stack
    ensures DropAngles(stack, angle) == stack
  {
    if stack != [] {
      assert Top(stack) in stack;
    }
  }

  lemma MirrorPush(stack: string, c: char)
    requires AllOpen(stack) && IsOpen(c)
    ensures AllOpen(stack + [c]) && Mirror(stack + [c]) == Mirror(stack) + [CloseOf(c)]
  {
    assert Pop(stack + [c]) == stack;
  }

  /** A step is one turn of the loop. */
  lemma ForthTurn(line: string, i: nat, stack: string, next: string)
    requires i < |line| && ForwardStep(line, i, stack) == Continue(next, 1)
    ensures ScanForward(line, i, stack) == ScanForward(line, i + 1, next)
  {
  }

  lemma BackTurn(line: string, i: nat, stack: string, next: string)
    requires i < |line| && BackwardStep(line, i, stack) == Continue(next, 1)
    ensures ScanBackward(line, i, stack) == ScanBackward(line, i - 1, next)
  {
  }

  /** One character: stepping forward and stepping back are inverse, read through the mirror. */
  lemma StepBack(line: string, i: nat, stack: string, next: string)
    requires i < |line| && NoAngles(line) && AllOpen(stack) && stack != []
    requires ForwardStep(line, i, stack) == Continue(next, 1)
    ensures AllOpen(next) && next != []
    ensures BackwardStep(line, i, Mirror(next)) == Continue(Mirror(stack), 1)
  {
    var c := line[i];
    assert c in line;
    AnglesAbsent(stack, '<');
    if IsOpen(c) {
      MirrorPush(stack, c);
      AnglesAbsent(Mirror(next), '>');
      assert Pop(Mirror(next)) == Mirror(stack);
    } else if IsClose(c) {
      assert stack == Pop(stack) + [Top(stack)];
      assert forall x :: x in Pop(stack) ==> x in stack;
      MirrorPush(Pop(stack), Top(stack));
    } else {
      AnglesAbsent(Mirror(next), '>');
    }
  }

  /** The character that matches forwards is the one a backward scan starts from. */
  lemma MatchBack(line: string, i: nat, stack: string)
    requires i < |line| && NoAngles(line) && AllOpen(stack) && stack != []
    requires ForwardStep(line, i, stack) == Match
    ensures IsClose(line[i]) && ScanBackward(line, i, []) == ScanBackward(line, i - 1, Mirror(stack))
  {
    assert line[i] in line;
    AnglesAbsent(stack, '<');
    assert stack == [Top(stack)];
    MirrorPush([], Top(stack));
    BackTurn(line, i, [], Mirror(stack));
  }

  /** One turn forwards, seen from behind. */
  lemma TurnBack(line: string, i: nat, stack: string)
    requires i < |line| && NoAngles(line) && AllOpen(stack) && stack != []
    requires ForwardStep(line, i, stack).Continue?
    ensures var next := ForwardStep(line, i, stack).stack;
            && AllOpen(next) && next != []
            && ScanForward(line, i, stack) == ScanForward(line, i + 1, next)
            && ScanBackward(line, i, Mirror(next)) == ScanBackward(line, i - 1, Mirror(stack))
  {
    var next := ForwardStep(line, i, stack).stack;
    ForwardWidth(line, i, stack);
    StepBack(line, i, stack, next);
    ForthTurn(line, i, stack, next);
    BackTurn(line, i, Mirror(next), Mirror(stack));
  }

  /** The end `r` of a scan forwards; a scan back from there goes on at `k` with `m`. */
  ghost predicate SeenFromBehind(line: string, r: LineResult, k: int, m: string)
    requires k < |line|
  {
    match r
    case Found(e) => 0 < e <= |line| && IsClose(line[e - 1]) && ScanBackward(line, e - 1, []) == ScanBackward(line, k, m)
    case Unfinished(st) =>
      AllOpen(st) && st != [] && ScanBackward(line, |line| - 1, Mirror(st)) == ScanBackward(line, k, m)
    case GaveUp => true
  }

  lemma BehindMoves(line: string, r: LineResult, k: int, m: string, k': int, m': string)
    requires k < |line| && k' < |line| && ScanBackward(line, k, m) == ScanBackward(line, k', m')
    ensures SeenFromBehind(line, r, k, m) == SeenFromBehind(line, r, k', m')
  {
  }

  lemma {:induction false} LineBack(line: string, i: nat, stack: string)
    requires i <= |line| && NoAngles(line) && AllOpen(stack) && stack != []
    ensures SeenFromBehind(line, ScanForward(line, i, stack), i - 1, Mirror(stack))
    decreases |line| - i
  {
    if i < |line| {
      match ForwardStep(line, i, stack)
      case Continue(st, _) =>
        TurnBack(line, i, stack);
        LineBack(line, i + 1, st);
        BehindMoves(line, ScanForward(line, i, stack), i, Mirror(st), i - 1, Mirror(stack));
      case Match => MatchBack(line, i, stack);
      case Fail =>
    }
  }

  lemma ForwardWidth(line: string, i: nat, stack: string)
    requires i < |line| && ForwardStep(line, i, stack).Continue?
    ensures ForwardStep(line, i, stack).width == 1
  {
  }

  /** The line on which the match is found. */
  lemma CloseFound(lines: seq<string>, l: nat, i: nat, stack: string, e: nat)
    requires l < |lines| && i <= |lines[l]| && AllOpen(stack) && stack != [] && NoAngles(lines[l])
    requires ScanForward(lines[l], i, stack) == Found(e)
    ensures CloseFrom(lines, l, i, stack) == Some(Position(l, e))
    ensures 0 < e <= |lines[l]| && IsClose(lines[l][e - 1])
    ensures ReverseFrom(lines, l, e - 1, []) == ReverseFrom(lines, l, i - 1, Mirror(stack))
  {
    LineBack(lines[l], i, stack);
  }

  /** A line that leaves brackets open: the next one starts with them, and a scan from there comes back. */
  lemma CloseGoesOn(lines: seq<string>, l: nat, i: nat, stack: string, st: string)
    requires l + 1 < |lines| && i <= |lines[l]| && AllOpen(stack) && stack != [] && NoAngles(lines[l])
    requires ScanForward(lines[l], i, stack) == Unfinished(st)
    ensures AllOpen(st) && st != []
    ensures CloseFrom(lines, l, i, stack) == CloseFrom(lines, l + 1, 0, st)
    ensures ReverseFrom(lines, l + 1, -1, Mirror(st)) == ReverseFrom(lines, l, i - 1, Mirror(stack))
  {
    LineBack(lines[l], i, stack);
    assert ReverseFrom(lines, l + 1, -1, Mirror(st)) == ReverseFrom(lines, l, |lines[l]| - 1, Mirror(st));
  }

  lemma {:induction false} CloseThenBack(lines: seq<string>, l: nat, i: nat, stack: string)
    requires l < |lines| && i <= |lines[l]| && AllOpen(stack) && stack != []
    requires CloseFrom(lines, l, i, stack).Some?
    requires forall k :: l <= k <= CloseFrom(lines, l, i, stack).value.line < |lines| ==> NoAngles(lines[k])
    ensures var end := CloseFrom(lines, l, i, stack).value;
            && l <= end.line < |lines| && 0 < end.pos <= |lines[end.line]|
            && IsClose(lines[end.line][end.pos - 1])
            && ReverseFrom(lines, end.line, end.pos - 1, []) == ReverseFrom(lines, l, i - 1, Mirror(stack))
    decreases |lines| - l
  {
    CloseLineBounds(lines, l, i, stack);
    match ScanForward(lines[l], i, stack)
    case Found(e) => CloseFound(lines, l, i, stack, e);
    case Unfinished(st) =>
      CloseGoesOn(lines, l, i, stack, st);
      CloseThenBack(lines, l + 1, 0, st);
    case GaveUp =>
  }

  lemma {:induction false} CloseLineBounds(lines: seq<string>, l: nat, i: nat, stack: string)
    requires l < |lines| && CloseFrom(lines, l, i, stack).Some?
    ensures l <= CloseFrom(lines, l, i, stack).value.line < |lines|
    decreases |lines| - l
  {
    if ScanForward(lines[l], i, stack).Unfinished? {
      CloseLineBounds(lines, l + 1, 0, ScanForward(lines[l], i, stack).stack);
    }
  }

  // The other way round.

  /** The opening brackets that a stack of closing ones waits for. */
  function Unmirror(stack: string): (m: string)
    requires AllClose(stack)
    ensures |m| == |stack| && AllOpen(m)
    ensures forall k :: 0 <= k < |stack| ==> m[k] == OpenOf(stack[k])
  {
    if stack == [] then []
    else
      var m := Unmirror(Pop(stack));
      assert Top(stack) in stack;
      assert forall c :: c in Pop(stack) ==> c in stack;
      m + [OpenOf(Top(stack))]
  }

  lemma UnmirrorPush(stack: string, c: char)
    requires AllClose(stack) && IsClose(c)
    ensures AllClose(stack + [c]) && Unmirror(stack + [c]) == Unmirror(stack) + [OpenOf(c)]
  {
    assert Pop(stack + [c]) == stack;
  }

  lemma StepForth(line: string, i: nat, stack: string, next: string)
    requires i < |line| && NoAngles(line) && AllClose(stack) && stack != []
    requires BackwardStep(line, i, stack) == Continue(next, 1)
    ensures AllClose(next) && next != []
    ensures ForwardStep(line, i, Unmirror(next)) == Continue(Unmirror(stack), 1)
  {
    var c := line[i];
    assert c in line;
    AnglesAbsent(stack, '>');
    if IsClose(c) {
      UnmirrorPush(stack, c);
      AnglesAbsent(Unmirror(next), '<');
      assert Pop(Unmirror(next)) == Unmirror(stack);
    } else if IsOpen(c) {
      assert stack == Pop(stack) + [Top(stack)];
      assert forall x :: x in Pop(stack) ==> x in stack;
      UnmirrorPush(Pop(stack), Top(stack));
    } else {
      AnglesAbsent(Unmirror(next), '<');
    }
  }

  lemma MatchForth(line: string, i: nat, stack: string)
    requires i < |line| && NoAngles(line) && AllClose(stack) && stack != []
    requires BackwardStep(line, i, stack) == Match
    ensures IsOpen(line[i]) && ScanForward(line, i, []) == ScanForward(line, i + 1, Unmirror(stack))
  {
    assert line[i] in line;
    AnglesAbsent(stack, '>');
    assert stack == [Top(stack)];
    UnmirrorPush([], Top(stack));
    ForthTurn(line, i, [], Unmirror(stack));
  }

  lemma BackwardWidth(line: string, i: nat, stack: string)
    requires i < |line| && NoAngles(line) && BackwardStep(line, i, stack).Continue?
    ensures BackwardStep(line, i, stack).width == 1
  {
    assert line[i] in line;
  }

  /** One turn backwards, seen from the front. */
  lemma TurnForth(line: string, i: nat, stack: string)
    requires i < |line| && NoAngles(line) && AllClose(stack) && stack != []
    requires BackwardStep(line, i, stack).Continue?
    ensures var next := BackwardStep(line, i, stack).stack;
            && AllClose(next) && next != []
            && ScanBackward(line, i, stack) == ScanBackward(line, i - 1, next)
            && ScanForward(line, i, Unmirror(next)) == ScanForward(line, i + 1, Unmirror(stack))
  {
    var next := BackwardStep(line, i, stack).stack;
    BackwardWidth(line, i, stack);
    StepForth(line, i, stack, next);
    BackTurn(line, i, stack, next);
    ForthTurn(line, i, Unmirror(next), Unmirror(stack));
  }

  /** The end `r` of a scan backwards; a scan forwards from there goes on at `k` with `m`. */
  ghost predicate SeenFromFront(line: string, r: LineResult, k: nat, m: string) {
    match r
    case Found(s) => s < |line| && IsOpen(line[s]) && ScanForward(line, s, []) == ScanForward(line, k, m)
    case Unfinished(st) => AllClose(st) && st != [] && ScanForward(line, 0, Unmirror(st)) == ScanForward(line, k, m)
    case GaveUp => true
  }

  lemma FrontMoves(line: string, r: LineResult, k: nat, m: string, k': nat, m': string)
    requires ScanForward(line, k, m) == ScanForward(line, k', m')
    ensures SeenFromFront(line, r, k, m) == SeenFromFront(line, r, k', m')
  {
  }

  lemma {:induction false} LineForth(line: string, i: int, stack: string)
    requires -1 <= i < |line| && NoAngles(line) && AllClose(stack) && stack != []
    ensures SeenFromFront(line, ScanBackward(line, i, stack), i + 1, Unmirror(stack))
    decreases i + 1
  {
    if i >= 0 {
      match BackwardStep(line, i, stack)
      case Continue(st, _) =>
        TurnForth(line, i, stack);
        LineForth(line, i - 1, st);
        FrontMoves(line, ScanBackward(line, i, stack), i, Unmirror(st), i + 1, Unmirror(stack));
      case Match => MatchForth(line, i, stack);
      case Fail =>
    }
  }

  lemma {:induction false} ReverseLineBounds(lines: seq<string>, l: nat, i: int, stack: string)
    requires l < |lines| && i < |lines[l]| && ReverseFrom(lines, l, i, stack).Some?
    ensures ReverseFrom(lines, l, i, stack).value.line <= l
    decreases l
  {
    if ScanBackward(lines[l], i, stack).Unfinished? {
      ReverseLineBounds(lines, l - 1, |lines[l - 1]| - 1, ScanBackward(lines[l], i, stack).stack);
    }
  }

  lemma {:induction false} ReverseThenForth(lines: seq<string>, l: nat, i: int, stack: string)
    requires l < |lines| && -1 <= i < |lines[l]| && AllClose(stack) && stack != []
    requires ReverseFrom(lines, l, i, stack).Some?
    requires forall k :: ReverseFrom(lines, l, i, stack).value.line <= k <= l ==> NoAngles(lines[k])
    ensures var start := ReverseFrom(lines, l, i, stack).value;
            && start.line <= l && start.pos < |lines[start.line]|
            && IsOpen(lines[start.line][start.pos])
            && CloseFrom(lines, start.line, start.pos, []) == CloseFrom(lines, l, i + 1, Unmirror(stack))
    decreases l
  {
    ReverseLineBounds(lines, l, i, stack);
    LineForth(lines[l], i, stack);
    if ScanBackward(lines[l], i, stack).Unfinished? {
      ReverseThenForth(lines, l - 1, |lines[l - 1]| - 1, ScanBackward(lines[l], i, stack).stack);
    }
  }

  lemma CloseThenReverse(lines: seq<string>, l: nat, p: nat)
    requires l < |lines| && p < |lines[l]| && Close(lines, l, p).Some?
    requires forall k :: l <= k <= Close(lines, l, p).value.line < |lines| ==> NoAngles(lines[k])
    ensures var end := Close(lines, l, p).value;
            && l <= end.line < |lines| && 0 < end.pos <= |lines[end.line]|
            && ReverseClose(lines, end.line, end.pos - 1) == Some(Position(l, p))
  {
    CloseLineBounds(lines, l, p, []);
    var c := lines[l][p];
    assert c in lines[l];
    assert [] + [c] == [c];
    CloseThenBack(lines, l, p + 1, [c]);
    AnglesAbsent(Mirror([c]), '>');
  }

  lemma ReverseThenClose(lines: seq<string>, l: nat, p: nat)
    requires l < |lines| && p < |lines[l]| && ReverseClose(lines, l, p).Some?
    requires forall k :: ReverseClose(lines, l, p).value.line <= k <= l ==> NoAngles(lines[k])
    ensures var start := ReverseClose(lines, l, p).value;
            && start.line <= l && start.pos < |lines[start.line]|
            && Close(lines, start.line, start.pos) == Some(Position(l, p + 1))
  {
    ReverseLineBounds(lines, l, p, []);
    var c := lines[l][p];
    assert c in lines[l];
    assert [] + [c] == [c];
    ReverseThenForth(lines, l, p - 1, [c]);
    AnglesAbsent(Unmirror([c]), '<');
  }

  /** On lines without '<' and '>', a bracket closes at a position exactly if that one opens at it. */
  lemma MatchersAreInverse(lines: seq<string>, l: nat, p: nat, l': nat, q: nat)
    requires l <= l' < |lines| && p < |lines[l]| && q < |lines[l']|
    requires forall k :: l <= k <= l' ==> NoAngles(lines[k])
    ensures Close(lines, l, p) == Some(Position(l', q + 1)) <==> ReverseClose(lines, l', q) == Some(Position(l, p))
  {
    if Close(lines, l, p) == Some(Position(l', q + 1)) {
      CloseThenReverse(lines, l, p);
    }
    if ReverseClose(lines, l', q) == Some(Position(l, p)) {
      ReverseThenClose(lines, l', q);
    }
  }
}
