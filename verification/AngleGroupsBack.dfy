/**
 Which texts `ReverseCloseExpression` takes for one expression, by the same kind of grammar, read from the right.
 */
module AngleGroupsBack {
  import opened AngleGroups
  import opened BracketBalance
  import opened Brackets
  import opened Wrappers

  /** The next character to read is the one at `at`; -1 is the beginning of the line. */
  datatype Place = Place(line: nat, at: int)

  /** A '>' that may be the end of something: not that of `->`, of a spaced `>=` or of `operator>`. */
  predicate IsEnding(line: string, i: int)
    requires 0 <= i < |line|
  {
    && line[i] == '>'
    && (i == 0 || (line[i - 1] != '-' && !IsSpacedGreaterEqual(line, i) && !EndsWithOperator(line[..i])))
  }

  /** A '<' that may be the start of something: not behind another one. */
  predicate IsBeginning(line: string, i: int)
    requires 0 <= i < |line|
  {
    line[i] == '<' && (i == 0 || line[i - 1] != '<')
  }

  /** Two characters that are passed together: "<<", or such a '>' with what is before it. */
  predicate AreSkipped(line: string, i: int)
    requires 0 <= i < |line|
  {
    i > 0 && ((line[i] == '<' && line[i - 1] == '<') || (line[i] == '>' && !IsEnding(line, i)))
  }

  predicate IsPlace(lines: seq<string>, q: Place) {
    q.line < |lines| && -1 <= q.at < |lines[q.line]|
  }

  predicate IsBefore(q: Place, l: nat, i: int) {
    q.line < l || (q.line == l && q.at < i)
  }

  /** At `q` stands what begins angles, or the bracket that `c` closes. */
  predicate Begins(lines: seq<string>, q: Place) {
    IsPlace(lines, q) && q.at >= 0 && IsBeginning(lines[q.line], q.at)
  }

  predicate PairsBack(lines: seq<string>, q: Place, c: char) {
    IsPlace(lines, q) && q.at >= 0 && ArePair(lines[q.line][q.at], c)
  }

  /** What is to be read next, when the last thing in a text that ends at (l, i) has been read. */
  function LastThing(lines: seq<string>, l: nat, i: int, t: Text, level: Level): (r: Option<(Place, Level)>)
    requires IsPlace(lines, Place(l, i)) && t != Stop
    ensures r.Some? ==> IsPlace(lines, r.value.0) && IsBefore(r.value.0, l, i)
    decreases t, 0
  {
    var line := lines[l];
    if t.NewLine? then if i == -1 && l > 0 then Some((Place(l - 1, |lines[l - 1]| - 1), level)) else None
    else if i == -1 then None
    else
      var next := Place(l, i - 1);
      match t
      case Char(_) => if IsPlainChar(line[i]) then Some((next, level)) else None
      case Operator(_) => if AreSkipped(line, i) then Some((Place(l, i - 2), level)) else None
      case Angles(inner, _) =>
        if !IsEnding(line, i) then None
        else (match ReadsBack(lines, l, i - 1, inner, InAngles)
              case Some(q) => if Begins(lines, q) then Some((Place(q.line, q.at - 1), level)) else None
              case None => None)
      case Brackets(inner, _) =>
        (match ReadsBack(lines, l, i - 1, inner, InBrackets(false))
         case Some(q) => if PairsBack(lines, q, line[i]) then Some((Place(q.line, q.at - 1), level)) else None
         case None => None)
      case Semicolon(_) => if level.InBrackets? && line[i] == ';' then Some((next, InBrackets(false))) else None
      case Stray(_) => if level == InBrackets(false) && IsBeginning(line, i) then Some((next, level)) else None
      case Unclosed(_) => if level.InBrackets? && IsEnding(line, i) then Some((next, InBrackets(true))) else None
      case _ => None
  }

  /** Where the text that ends at (l, i), and has the derivation `t` from the right, is preceded, if there is such a text. */
  function ReadsBack(lines: seq<string>, l: nat, i: int, t: Text, level: Level): (r: Option<Place>)
    requires IsPlace(lines, Place(l, i))
    ensures r.Some? ==> IsPlace(lines, r.value) && (r.value == Place(l, i) || IsBefore(r.value, l, i))
    decreases t, 1
  {
    if t == Stop then Some(Place(l, i))
    else
      match LastThing(lines, l, i, t, level)
      case None => None
      case Some((q, before)) => ReadsBack(lines, q.line, q.at, t.rest, before)
  }

  /** One group that ends at `p`: brackets or angles around a text. */
  predicate IsGroupBack(lines: seq<string>, l: nat, p: nat, t: Text, start: Position)
    requires l < |lines| && p < |lines[l]|
  {
    && (t.Angles? || t.Brackets?) && t.rest == Stop
    && ReadsBack(lines, l, p, t, InAngles) == Some(Place(start.line, start.pos - 1))
  }

  // --------------------------------------------------------------------------
  // A scan gets through every text of the grammar
  // --------------------------------------------------------------------------

  predicate FitsBack(stack: string, level: Level) {
    && stack != []
    && match level
       case InAngles => Top(stack) == '>'
       case InBrackets(waiting) =>
         && DropAngles(stack, '>') != []
         && IsClose(Top(DropAngles(stack, '>')))
         && (waiting || DropAngles(stack, '>') == stack)
  }

  predicate LeavesBack(from: string, level: Level, to: string) {
    match level
    case InAngles => to == from
    case InBrackets(_) => to != [] && DropAngles(to, '>') == DropAngles(from, '>')
  }

  predicate GoesBack(lines: seq<string>, l: nat, i: int, stack: string, q: Place, to: string)
    requires IsPlace(lines, Place(l, i)) && IsPlace(lines, q)
  {
    ReverseFrom(lines, l, i, stack) == ReverseFrom(lines, q.line, q.at, to)
  }

  lemma ReverseTurn(lines: seq<string>, l: nat, i: nat, stack: string, next: string, width: nat)
    requires l < |lines| && i < |lines[l]| && BackwardStep(lines[l], i, stack) == Continue(next, width)
    ensures ReverseFrom(lines, l, i, stack) == ReverseFrom(lines, l, i - width, next)
  {
    BackwardTurn(lines[l], i, stack, next, width);
  }

  lemma {:induction false} DropTwiceBack(stack: string)
    ensures DropAngles(DropAngles(stack, '>'), '>') == DropAngles(stack, '>')
  {
    if stack != [] && Top(stack) == '>' {
      DropTwiceBack(Pop(stack));
    }
  }

  lemma PushGreater(stack: string)
    ensures Top(stack + ['>']) == '>' && Pop(stack + ['>']) == stack
    ensures DropAngles(stack + ['>'], '>') == DropAngles(stack, '>')
  {
  }

  lemma PushClose(stack: string, c: char)
    requires IsClose(c)
    ensures Top(stack + [c]) == c && Pop(stack + [c]) == stack && DropAngles(stack + [c], '>') == stack + [c]
  {
  }

  lemma EndingIsPushed(line: string, i: nat, stack: string)
    requires i < |line| && IsEnding(line, i)
    ensures BackwardStep(line, i, stack) == Continue(stack + ['>'], 1)
  {
  }

  lemma SkippedIsSkipped(line: string, i: nat, stack: string)
    requires i < |line|
    ensures AreSkipped(line, i) ==> BackwardStep(line, i, stack) == Continue(stack, 2)
    ensures IsPlainChar(line[i]) ==> BackwardStep(line, i, stack) == Continue(stack, 1)
  {
  }

  /** What a character does that begins the group of a '>' on top of the stack. */
  lemma GreaterIsPopped(line: string, i: nat, stack: string)
    requires i < |line| && IsBeginning(line, i)
    ensures BackwardStep(line, i, stack + ['>']) == if stack == [] then Match else Continue(stack, 1)
  {
    PushGreater(stack);
  }

  lemma BracketIsPoppedBack(line: string, i: nat, stack: string, c: char, to: string)
    requires i < |line| && ArePair(line[i], c) && DropAngles(to, '>') == stack + [c]
    ensures BackwardStep(line, i, to) == if stack == [] then Match else Continue(stack, 1)
  {
    PushClose(stack, c);
  }

  lemma LineBefore(lines: seq<string>, l: nat, stack: string)
    requires 0 < l < |lines| && stack != []
    ensures ReverseFrom(lines, l, -1, stack) == ReverseFrom(lines, l - 1, |lines[l - 1]| - 1, stack)
  {
  }

  lemma StrayIsPassedBack(line: string, i: nat, stack: string)
    requires i < |line| && IsBeginning(line, i) && FitsBack(stack, InBrackets(false))
    ensures BackwardStep(line, i, stack) == Continue(stack, 1)
  {
    assert Top(stack) != '>';
  }

  /** The scan goes on before the last thing of a text, at `at` with the stack `to` for the level `before`. */
  ghost predicate Precedes(lines: seq<string>, l: nat, i: int, level: Level, stack: string,
                           at: Place, before: Level, to: string)
    requires IsPlace(lines, Place(l, i))
  {
    && IsPlace(lines, at) && before.InAngles? == level.InAngles?
    && FitsBack(to, before) && LeavesBack(stack, level, to) && GoesBack(lines, l, i, stack, at, to)
  }

  lemma ScanOneBack(lines: seq<string>, l: nat, i: int, t: Text, level: Level, stack: string, at: Place, before: Level)
    requires IsPlace(lines, Place(l, i)) && FitsBack(stack, level)
    requires t.NewLine? || t.Char? || t.Operator? || t.Stray?
    requires LastThing(lines, l, i, t, level) == Some((at, before))
    ensures Precedes(lines, l, i, level, stack, at, before, stack)
  {
    if t.NewLine? {
      LineBefore(lines, l, stack);
    } else {
      if t.Stray? {
        StrayIsPassedBack(lines[l], i, stack);
      } else {
        SkippedIsSkipped(lines[l], i, stack);
      }
      ReverseTurn(lines, l, i, stack, stack, if t.Operator? then 2 else 1);
    }
  }

  lemma ScanAloneBack(lines: seq<string>, l: nat, i: int, t: Text, level: Level, stack: string, at: Place, before: Level)
      returns (to: string)
    requires IsPlace(lines, Place(l, i)) && FitsBack(stack, level) && (t.Semicolon? || t.Unclosed?)
    requires LastThing(lines, l, i, t, level) == Some((at, before))
    ensures Precedes(lines, l, i, level, stack, at, before, to)
  {
    if t.Semicolon? {
      to := DropAngles(stack, '>');
      DropTwiceBack(stack);
    } else {
      to := stack + ['>'];
      EndingIsPushed(lines[l], i, stack);
      PushGreater(stack);
    }
    ReverseTurn(lines, l, i, stack, to, 1);
  }

  lemma {:induction false} ScanGroupBack(lines: seq<string>, l: nat, i: int, t: Text, level: Level, stack: string,
                                         at: Place, before: Level)
    requires IsPlace(lines, Place(l, i)) && FitsBack(stack, level) && (t.Angles? || t.Brackets?)
    requires LastThing(lines, l, i, t, level) == Some((at, before))
    ensures Precedes(lines, l, i, level, stack, at, before, stack)
    decreases t, 0
  {
    if t.Brackets? {
      var to := ScanCloseBack(lines, l, i, t.inner, stack);
    } else {
      ScanGreater(lines, l, i, t.inner, stack);
    }
  }

  lemma {:induction false} ScanReadsBack(lines: seq<string>, l: nat, i: int, t: Text, level: Level, stack: string)
      returns (to: string)
    requires IsPlace(lines, Place(l, i)) && ReadsBack(lines, l, i, t, level).Some? && FitsBack(stack, level)
    ensures var q := ReadsBack(lines, l, i, t, level).value;
            GoesBack(lines, l, i, stack, q, to) && LeavesBack(stack, level, to)
    decreases t, 1
  {
    to := stack;
    if t != Stop {
      var (at, before) := LastThing(lines, l, i, t, level).value;
      if t.Angles? || t.Brackets? {
        ScanGroupBack(lines, l, i, t, level, stack, at, before);
      } else if t.Semicolon? || t.Unclosed? {
        to := ScanAloneBack(lines, l, i, t, level, stack, at, before);
      } else {
        ScanOneBack(lines, l, i, t, level, stack, at, before);
      }
      to := ScanReadsBack(lines, at.line, at.at, t.rest, before, to);
    }
  }

  /** From a '>' through the text before it, and over what begins its group. */
  lemma {:induction false} ScanGreater(lines: seq<string>, l: nat, i: int, inner: Text, stack: string)
    requires l < |lines| && 0 <= i < |lines[l]| && IsEnding(lines[l], i)
    requires ReadsBack(lines, l, i - 1, inner, InAngles).Some?
    ensures var q := ReadsBack(lines, l, i - 1, inner, InAngles).value;
            && GoesBack(lines, l, i, stack, q, stack + ['>'])
            && (stack != [] && Begins(lines, q) ==> GoesBack(lines, l, i, stack, Place(q.line, q.at - 1), stack))
    decreases inner, 2
  {
    var q := ReadsBack(lines, l, i - 1, inner, InAngles).value;
    EndingIsPushed(lines[l], i, stack);
    PushGreater(stack);
    ReverseTurn(lines, l, i, stack, stack + ['>'], 1);
    var to := ScanReadsBack(lines, l, i - 1, inner, InAngles, stack + ['>']);
    if stack != [] && Begins(lines, q) {
      GreaterIsPopped(lines[q.line], q.at, stack);
      ReverseTurn(lines, q.line, q.at, stack + ['>'], stack, 1);
    }
  }

  /** From a closing bracket through the text before it, and over the bracket that opens it. */
  lemma {:induction false} ScanCloseBack(lines: seq<string>, l: nat, i: int, inner: Text, stack: string)
      returns (to: string)
    requires l < |lines| && 0 <= i < |lines[l]| && IsClose(lines[l][i])
    requires ReadsBack(lines, l, i - 1, inner, InBrackets(false)).Some?
    ensures var q := ReadsBack(lines, l, i - 1, inner, InBrackets(false)).value;
            && GoesBack(lines, l, i, stack, q, to) && DropAngles(to, '>') == stack + [lines[l][i]]
            && (stack != [] && PairsBack(lines, q, lines[l][i]) ==>
                  GoesBack(lines, l, i, stack, Place(q.line, q.at - 1), stack))
    decreases inner, 2
  {
    var c, q := lines[l][i], ReadsBack(lines, l, i - 1, inner, InBrackets(false)).value;
    PushClose(stack, c);
    ReverseTurn(lines, l, i, stack, stack + [c], 1);
    to := ScanReadsBack(lines, l, i - 1, inner, InBrackets(false), stack + [c]);
    if stack != [] && PairsBack(lines, q, c) {
      BracketIsPoppedBack(lines[q.line], q.at, stack, c, to);
      ReverseTurn(lines, q.line, q.at, to, stack, 1);
    }
  }

  lemma MatchIsFoundBack(lines: seq<string>, l: nat, i: nat, stack: string)
    requires l < |lines| && i < |lines[l]| && BackwardStep(lines[l], i, stack) == Match
    ensures ReverseFrom(lines, l, i, stack) == Some(Position(l, i))
  {
  }

  lemma GroupIsLast(lines: seq<string>, l: nat, p: nat, t: Text, start: Position)
    requires l < |lines| && p < |lines[l]| && IsGroupBack(lines, l, p, t, start)
    ensures LastThing(lines, l, p, t, InAngles) == Some((Place(start.line, start.pos - 1), InAngles))
  {
    match LastThing(lines, l, p, t, InAngles)
    case None =>
    case Some((at, before)) => assert ReadsBack(lines, at.line, at.at, Stop, before) == Some(at);
  }

  /** From the end of a group the scan reports its start. */
  lemma GroupIsOpened(lines: seq<string>, l: nat, p: nat, t: Text, start: Position)
    requires l < |lines| && p < |lines[l]| && IsGroupBack(lines, l, p, t, start)
    ensures ReverseFrom(lines, l, p, []) == Some(start)
  {
    GroupIsLast(lines, l, p, t, start);
    if t.Angles? {
      var q := ReadsBack(lines, l, p - 1, t.inner, InAngles).value;
      ScanGreater(lines, l, p, t.inner, []);
      GreaterIsPopped(lines[q.line], q.at, []);
      MatchIsFoundBack(lines, q.line, q.at, [] + ['>']);
    } else {
      var q := ReadsBack(lines, l, p - 1, t.inner, InBrackets(false)).value;
      var to := ScanCloseBack(lines, l, p, t.inner, []);
      BracketIsPoppedBack(lines[q.line], q.at, [], lines[l][p], to);
      MatchIsFoundBack(lines, q.line, q.at, to);
    }
  }

  // --------------------------------------------------------------------------
  // A scan that reports a start has read a text of the grammar
  // --------------------------------------------------------------------------

  lemma {:induction false} AppendSemicolonBack(lines: seq<string>, l: nat, i: int, t: Text, waiting: bool, u: Text)
    requires IsPlace(lines, Place(l, i)) && ReadsBack(lines, l, i, t, InBrackets(waiting)).Some?
    ensures var q := ReadsBack(lines, l, i, t, InBrackets(waiting)).value;
            ReadsBack(lines, l, i, Joined(t, Semicolon(u)), InBrackets(waiting))
            == ReadsBack(lines, q.line, q.at, Semicolon(u), InBrackets(true))
    decreases t
  {
    if t == Stop {
      assert LastThing(lines, l, i, Semicolon(u), InBrackets(waiting)) == LastThing(lines, l, i, Semicolon(u), InBrackets(true));
    } else {
      LastOfAppend(lines, l, i, t, Semicolon(u), InBrackets(waiting));
      var (at, before) := LastThing(lines, l, i, t, InBrackets(waiting)).value;
      AppendSemicolonBack(lines, at.line, at.at, t.rest, before.waiting, u);
    }
  }

  lemma LastOfAppend(lines: seq<string>, l: nat, i: int, t: Text, u: Text, level: Level)
    requires IsPlace(lines, Place(l, i)) && t != Stop
    ensures Joined(t, u) != Stop && Joined(t, u).rest == Joined(t.rest, u)
    ensures LastThing(lines, l, i, Joined(t, u), level) == LastThing(lines, l, i, t, level)
    ensures LastThing(lines, l, i, t, level).Some? ==>
              LastThing(lines, l, i, t, level).value.1.InAngles? == level.InAngles?
  {
  }

  lemma ReadsBefore(lines: seq<string>, l: nat, i: int, t: Text, level: Level, at: Place, before: Level)
    requires IsPlace(lines, Place(l, i)) && t != Stop && LastThing(lines, l, i, t, level) == Some((at, before))
    ensures ReadsBack(lines, l, i, t, level) == ReadsBack(lines, at.line, at.at, t.rest, before)
  {
  }

  predicate DropsBack(lines: seq<string>, q: Place) {
    IsPlace(lines, q) && q.at >= 0 && (lines[q.line][q.at] == ';' || IsOpen(lines[q.line][q.at]))
  }

  /** What begins a text between angles: the '<' of the group, or what drops the '>'. */
  predicate BeginsAngles(lines: seq<string>, q: Place, level: Level) {
    if level.InAngles? then Begins(lines, q) else DropsBack(lines, q)
  }

  lemma KindsOfCharsBack(line: string, i: int)
    requires 0 <= i < |line|
    ensures || IsPlainChar(line[i]) || AreSkipped(line, i) || IsEnding(line, i) || IsClose(line[i])
            || IsBeginning(line, i) || line[i] == ';' || IsOpen(line[i])
  {
  }

  lemma BeginningOfLine(lines: seq<string>, l: nat, stack: string)
    requires l < |lines| && ReverseFrom(lines, l, -1, stack).Some?
    ensures l > 0 && ReverseFrom(lines, l, -1, stack) == ReverseFrom(lines, l - 1, |lines[l - 1]| - 1, stack)
  {
  }

  lemma DropIsPoppedBack(lines: seq<string>, q: Place, stack: string, to: string)
    requires DropsBack(lines, q) && ReverseFrom(lines, q.line, q.at, to).Some?
    requires stack != [] && IsClose(Top(stack)) && DropAngles(to, '>') == stack
    ensures if lines[q.line][q.at] == ';' then ReverseFrom(lines, q.line, q.at, to) == ReverseFrom(lines, q.line, q.at - 1, stack)
            else PairsBack(lines, q, Top(stack))
  {
    if lines[q.line][q.at] == ';' {
      ReverseTurn(lines, q.line, q.at, to, stack, 1);
    }
  }

  /** What the scan passes here, and the derivation that begins with it. */
  lemma PassOneBack(lines: seq<string>, l: nat, i: int, stack: string) returns (at: Place)
    requires IsPlace(lines, Place(l, i)) && stack != [] && ReverseFrom(lines, l, i, stack).Some?
    requires i >= 0 ==> IsPlainChar(lines[l][i]) || AreSkipped(lines[l], i)
    ensures IsPlace(lines, at) && IsBefore(at, l, i) && GoesBack(lines, l, i, stack, at, stack)
    ensures forall t, level :: LastThing(lines, l, i, PassingBack(lines, l, i, t), level) == Some((at, level))
  {
    if i == -1 {
      BeginningOfLine(lines, l, stack);
      at := Place(l - 1, |lines[l - 1]| - 1);
    } else {
      var width := if IsPlainChar(lines[l][i]) then 1 else 2;
      SkippedIsSkipped(lines[l], i, stack);
      ReverseTurn(lines, l, i, stack, stack, width);
      at := Place(l, i - width);
    }
  }

  function PassingBack(lines: seq<string>, l: nat, i: int, rest: Text): (t: Text)
    requires IsPlace(lines, Place(l, i))
    ensures t != Stop && t.rest == rest
  {
    if i == -1 then NewLine(rest) else if IsPlainChar(lines[l][i]) then Char(rest) else Operator(rest)
  }

  /** The scan has come to `q`, with nothing but angles added to its stack or taken off it. */
  ghost predicate ComesBack(lines: seq<string>, l: nat, i: int, stack: string, q: Place, to: string)
    requires IsPlace(lines, Place(l, i))
  {
    && IsPlace(lines, q) && GoesBack(lines, l, i, stack, q, to)
    && to != [] && Top(to) == '>' && DropAngles(to, '>') == DropAngles(stack, '>')
  }

  /** The last thing of a group does not depend on what is before it, nor on the level around it. */
  lemma LastIsLast(lines: seq<string>, l: nat, i: int, t: Text, u: Text, level: Level)
    requires IsPlace(lines, Place(l, i))
    requires (t.Angles? && u.Angles? && t.inner == u.inner) || (t.Brackets? && u.Brackets? && t.inner == u.inner)
    requires LastThing(lines, l, i, t, InAngles).Some?
    ensures LastThing(lines, l, i, u, level) == Some((LastThing(lines, l, i, t, InAngles).value.0, level))
  {
  }

  lemma {:induction false} ParseAnglesBack(lines: seq<string>, l: nat, i: int, stack: string)
      returns (t: Text, q: Place, level: Level, to: string)
    requires IsPlace(lines, Place(l, i)) && stack != [] && Top(stack) == '>' && ReverseFrom(lines, l, i, stack).Some?
    ensures (level == InAngles || level == InBrackets(true)) && ReadsBack(lines, l, i, t, level) == Some(q)
    ensures BeginsAngles(lines, q, level) && ComesBack(lines, l, i, stack, q, to)
    decreases l, i + 1, 1
  {
    var line := lines[l];
    if i >= 0 {
      KindsOfCharsBack(line, i);
    }
    if i == -1 || IsPlainChar(line[i]) || AreSkipped(line, i) {
      var at := PassOneBack(lines, l, i, stack);
      t, q, level, to := ParseAnglesBack(lines, at.line, at.at, stack);
      t := PassingBack(lines, l, i, t);
      ReadsBefore(lines, l, i, t, level, at, level);
    } else if IsEnding(line, i) {
      t, q, level, to := ParseGreater(lines, l, i, stack);
      if level.InAngles? {
        var inner, at := t, Place(q.line, q.at - 1);
        t, q, level, to := ParseAnglesBack(lines, at.line, at.at, stack);
        t := Angles(inner, t);
        LastIsLast(lines, l, i, Angles(inner, Stop), t, level);
        ReadsBefore(lines, l, i, t, level, at, level);
      } else {
        t := Unclosed(t);
        ReadsBefore(lines, l, i, t, level, Place(l, i - 1), level);
      }
    } else if IsClose(line[i]) {
      var inner, at := ParseCloseBack(lines, l, i, stack);
      t, q, level, to := ParseAnglesBack(lines, at.line, at.at, stack);
      t := Brackets(inner, t);
      LastIsLast(lines, l, i, Brackets(inner, Stop), t, level);
      ReadsBefore(lines, l, i, t, level, at, level);
    } else {
      t, q, to := Stop, Place(l, i), stack;
      level := if line[i] == ';' || IsOpen(line[i]) then InBrackets(true) else InAngles;
    }
  }

  /** What a '>' ends that is pushed: angles, and then the scan goes on before them; or a text that drops it. */
  lemma {:induction false} ParseGreater(lines: seq<string>, l: nat, i: int, stack: string)
      returns (t: Text, q: Place, level: Level, to: string)
    requires l < |lines| && 0 <= i < |lines[l]| && stack != [] && IsEnding(lines[l], i)
    requires ReverseFrom(lines, l, i, stack).Some?
    ensures BeginsAngles(lines, q, level) && (level == InAngles || level == InBrackets(true))
    ensures level == InBrackets(true) ==>
              ReadsBack(lines, l, i - 1, t, level) == Some(q) && ComesBack(lines, l, i, stack, q, to)
    ensures level.InAngles? ==>
              && LastThing(lines, l, i, Angles(t, Stop), InAngles) == Some((Place(q.line, q.at - 1), InAngles))
              && GoesBack(lines, l, i, stack, Place(q.line, q.at - 1), stack)
    decreases l, i + 1, 0, 0
  {
    EndingIsPushed(lines[l], i, stack);
    ReverseTurn(lines, l, i, stack, stack + ['>'], 1);
    PushGreater(stack);
    t, q, level, to := ParseAnglesBack(lines, l, i - 1, stack + ['>']);
    if level.InAngles? {
      ScanGreater(lines, l, i, t, stack);
    }
  }

  lemma {:induction false} ParseCloseBack(lines: seq<string>, l: nat, i: int, stack: string) returns (t: Text, at: Place)
    requires l < |lines| && 0 <= i < |lines[l]| && stack != [] && IsClose(lines[l][i])
    requires ReverseFrom(lines, l, i, stack).Some?
    ensures LastThing(lines, l, i, Brackets(t, Stop), InAngles) == Some((at, InAngles))
    ensures GoesBack(lines, l, i, stack, at, stack)
    decreases l, i + 1, 0, 0
  {
    PushClose(stack, lines[l][i]);
    ReverseTurn(lines, l, i, stack, stack + [lines[l][i]], 1);
    var q;
    t, q := ParseBracketsBack(lines, l, i - 1, stack + [lines[l][i]]);
    var to := ScanCloseBack(lines, l, i, t, stack);
    at := Place(q.line, q.at - 1);
  }

  lemma {:induction false} ParseBracketsBack(lines: seq<string>, l: nat, i: int, stack: string) returns (t: Text, q: Place)
    requires IsPlace(lines, Place(l, i)) && stack != [] && IsClose(Top(stack)) && ReverseFrom(lines, l, i, stack).Some?
    ensures ReadsBack(lines, l, i, t, InBrackets(false)) == Some(q) && PairsBack(lines, q, Top(stack))
    decreases l, i + 1, 1
  {
    var line := lines[l];
    if i >= 0 {
      KindsOfCharsBack(line, i);
    }
    if i == -1 || IsPlainChar(line[i]) || AreSkipped(line, i) {
      var at := PassOneBack(lines, l, i, stack);
      t, q := ParseBracketsBack(lines, at.line, at.at, stack);
      t := PassingBack(lines, l, i, t);
      ReadsBefore(lines, l, i, t, InBrackets(false), at, InBrackets(false));
    } else if IsEnding(line, i) {
      t, q := ParseGreaterInBrackets(lines, l, i, stack);
    } else if IsClose(line[i]) {
      var inner, at := ParseCloseBack(lines, l, i, stack);
      t, q := ParseBracketsBack(lines, at.line, at.at, stack);
      t := Brackets(inner, t);
      LastIsLast(lines, l, i, Brackets(inner, Stop), t, InBrackets(false));
      ReadsBefore(lines, l, i, t, InBrackets(false), at, InBrackets(false));
    } else {
      t, q := ParseFirstBack(lines, l, i, stack);
    }
  }

  /** A stray '<', a semicolon or the opening bracket. */
  lemma {:induction false} ParseFirstBack(lines: seq<string>, l: nat, i: int, stack: string) returns (t: Text, q: Place)
    requires l < |lines| && 0 <= i < |lines[l]| && stack != [] && IsClose(Top(stack))
    requires ReverseFrom(lines, l, i, stack).Some? && (IsBeginning(lines[l], i) || DropsBack(lines, Place(l, i)))
    ensures ReadsBack(lines, l, i, t, InBrackets(false)) == Some(q) && PairsBack(lines, q, Top(stack))
    decreases l, i + 1, 0, 0
  {
    if DropsBack(lines, Place(l, i)) {
      DropIsPoppedBack(lines, Place(l, i), stack, stack);
    } else {
      StrayIsPassedBack(lines[l], i, stack);
      ReverseTurn(lines, l, i, stack, stack, 1);
    }
    t, q := Stop, Place(l, i);
    if !IsOpen(lines[l][i]) {
      t, q := ParseBracketsBack(lines, l, i - 1, stack);
      t := if lines[l][i] == ';' then Semicolon(t) else Stray(t);
      ReadsBefore(lines, l, i, t, InBrackets(false), Place(l, i - 1), InBrackets(false));
    }
  }

  lemma {:induction false} ParseGreaterInBrackets(lines: seq<string>, l: nat, i: int, stack: string)
      returns (t: Text, q: Place)
    requires l < |lines| && 0 <= i < |lines[l]| && stack != [] && IsClose(Top(stack))
    requires IsEnding(lines[l], i) && ReverseFrom(lines, l, i, stack).Some?
    ensures ReadsBack(lines, l, i, t, InBrackets(false)) == Some(q) && PairsBack(lines, q, Top(stack))
    decreases l, i + 1, 0, 2
  {
    var level, to;
    t, q, level, to := ParseGreater(lines, l, i, stack);
    if level.InAngles? {
      var inner, at := t, Place(q.line, q.at - 1);
      t, q := ParseBracketsBack(lines, at.line, at.at, stack);
      t := Angles(inner, t);
      LastIsLast(lines, l, i, Angles(inner, Stop), t, InBrackets(false));
      ReadsBefore(lines, l, i, t, InBrackets(false), at, InBrackets(false));
    } else {
      t, q := ParseUnopened(lines, l, i, stack, t, q, to);
    }
  }

  /** A '>' that stays alone back to a semicolon or to the opening bracket. */
  lemma {:induction false} ParseUnopened(lines: seq<string>, l: nat, i: int, stack: string, inner: Text, at: Place, to: string)
      returns (t: Text, q: Place)
    requires l < |lines| && 0 <= i < |lines[l]| && stack != [] && IsClose(Top(stack)) && IsEnding(lines[l], i)
    requires ReadsBack(lines, l, i - 1, inner, InBrackets(true)) == Some(at) && DropsBack(lines, at)
    requires ReverseFrom(lines, at.line, at.at, to).Some? && DropAngles(to, '>') == stack
    ensures ReadsBack(lines, l, i, t, InBrackets(false)) == Some(q) && PairsBack(lines, q, Top(stack))
    decreases l, i + 1, 0, 1
  {
    DropIsPoppedBack(lines, at, stack, to);
    t, q := inner, at;
    if lines[at.line][at.at] == ';' {
      var rest;
      rest, q := ParseBracketsBack(lines, at.line, at.at - 1, stack);
      UnopenedUpTo(lines, l, i, inner, at, rest, q);
      t := Joined(inner, Semicolon(rest));
    }
    UnopenedReads(lines, l, i, t, q);
    t := Unclosed(t);
  }

  lemma UnopenedReads(lines: seq<string>, l: nat, i: int, t: Text, q: Place)
    requires l < |lines| && 0 <= i < |lines[l]| && IsEnding(lines[l], i)
    requires ReadsBack(lines, l, i - 1, t, InBrackets(true)) == Some(q)
    ensures ReadsBack(lines, l, i, Unclosed(t), InBrackets(false)) == Some(q)
  {
    ReadsBefore(lines, l, i, Unclosed(t), InBrackets(false), Place(l, i - 1), InBrackets(true));
  }

  lemma UnopenedUpTo(lines: seq<string>, l: nat, i: int, t: Text, q: Place, rest: Text, start: Place)
    requires l < |lines| && 0 <= i < |lines[l]| && ReadsBack(lines, l, i - 1, t, InBrackets(true)) == Some(q)
    requires q.at >= 0 && lines[q.line][q.at] == ';'
    requires ReadsBack(lines, q.line, q.at - 1, rest, InBrackets(false)) == Some(start)
    ensures ReadsBack(lines, l, i - 1, Joined(t, Semicolon(rest)), InBrackets(true)) == Some(start)
  {
    AppendSemicolonBack(lines, l, i - 1, t, true, rest);
    ReadsBefore(lines, q.line, q.at, Semicolon(rest), InBrackets(true), Place(q.line, q.at - 1), InBrackets(false));
  }

  lemma ParseGroupBack(lines: seq<string>, l: nat, p: nat) returns (t: Text, start: Position)
    requires l < |lines| && p < |lines[l]| && (IsClose(lines[l][p]) || IsEnding(lines[l], p))
    requires ReverseFrom(lines, l, p, []).Some?
    ensures IsGroupBack(lines, l, p, t, start)
  {
    var c, q := lines[l][p], Place(l, p);
    assert [] + [c] == [c];
    ReverseTurn(lines, l, p, [], [c], 1);
    if IsClose(c) {
      t, q := ParseBracketsBack(lines, l, p - 1, [c]);
      t := Brackets(t, Stop);
    } else {
      var level, to;
      t, q, level, to := ParseAnglesBack(lines, l, p - 1, ['>']);
      assert Pop(['>']) == [];
      NotDroppedBack(lines, q, to);
      t := Angles(t, Stop);
    }
    start := Position(q.line, q.at);
    assert LastThing(lines, l, p, t, InAngles) == Some((Place(q.line, q.at - 1), InAngles));
    ReadsBefore(lines, l, p, t, InAngles, Place(q.line, q.at - 1), InAngles);
  }

  lemma NotDroppedBack(lines: seq<string>, q: Place, to: string)
    requires IsPlace(lines, q) && ReverseFrom(lines, q.line, q.at, to).Some? && to != [] && DropAngles(to, '>') == []
    ensures !DropsBack(lines, q)
  {
  }

  /** A start is reported from `p`, and it is not that of a '>' which is part of an operator. */
  predicate ReportsOwnStart(lines: seq<string>, l: nat, p: nat, start: Position)
    requires l < |lines| && p < |lines[l]|
  {
    ReverseClose(lines, l, p) == Some(start) && !IsOperatorGreater(lines[l], p)
  }

  /**
   The backward matcher is the grammar: from any closing bracket and any '>' that is no operator,
   `ReverseCloseExpression` reports a start exactly if a group of the grammar ends there, and then its start.
   */
  lemma ReverseIsGrammar(lines: seq<string>, l: nat, p: nat, start: Position)
    requires l < |lines| && p < |lines[l]|
    ensures ReportsOwnStart(lines, l, p, start) <==> exists t :: IsGroupBack(lines, l, p, t, start)
  {
    if ReportsOwnStart(lines, l, p, start) {
      var t, s := ParseGroupBack(lines, l, p);
      GroupIsOpened(lines, l, p, t, s);
    }
    if t :| IsGroupBack(lines, l, p, t, start) {
      GroupIsOpened(lines, l, p, t, start);
      GroupIsLast(lines, l, p, t, start);
    }
  }
}
