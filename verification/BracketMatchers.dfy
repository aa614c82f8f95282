/**
 The four matching functions of cpplint.py as the loops they are, proved to compute the scans of `Brackets`.
 */
module BracketMatchers {
  import opened Brackets
  import opened Wrappers

  /** `while stack and stack[-1] == angle: stack.pop()` */
  method PopAngles(stack: string, angle: char) returns (rest: string)
    ensures rest == DropAngles(stack, angle)
  {
    rest := stack;
    while rest != [] && Top(rest) == angle
      invariant DropAngles(rest, angle) == DropAngles(stack, angle)
      decreases |rest|
    {
      rest := Pop(rest);
    }
  }

  /** `FindEndOfExpressionInLine`. */
  method FindEndOfExpressionInLine(line: string, startpos: nat, initial: string) returns (r: LineResult)
    ensures r == ScanForward(line, startpos, initial)
  {
    var stack := initial;
    var i := startpos;
    while i < |line|
      invariant ScanForward(line, i, stack) == ScanForward(line, startpos, initial)
    {
      var c := line[i];
      if IsOpen(c) {
        stack := stack + [c];
      } else if c == '<' {
        if i > 0 && line[i - 1] == '<' {
          if stack != [] && Top(stack) == '<' {
            stack := Pop(stack);
            if stack == [] {
              return GaveUp;
            }
          }
        } else if i > 0 && EndsWithOperator(line[..i]) {
          // operator<: not pushed
        } else {
          stack := stack + ['<'];
        }
      } else if IsClose(c) {
        stack := PopAngles(stack, '<');
        if stack == [] {
          return GaveUp;
        }
        if Top(stack) != OpenOf(c) {
          return GaveUp;
        }
        stack := Pop(stack);
        if stack == [] {
          return Found(i + 1);
        }
      } else if c == '>' {
        if i > 0 && (line[i - 1] == '-' || EndsWithOperator(line[..i - 1])) {
          // -> or operator>: ignored
        } else if stack != [] && Top(stack) == '<' {
          stack := Pop(stack);
          if stack == [] {
            return Found(i + 1);
          }
        }
      } else if c == ';' {
        stack := PopAngles(stack, '<');
        if stack == [] {
          return GaveUp;
        }
      }
      i := i + 1;
    }
    r := Unfinished(stack);
  }

  /** `CloseExpression`. */
  method CloseExpression(lines: seq<string>, linenum: nat, pos: nat) returns (end: Option<Position>)
    requires linenum < |lines| && pos < |lines[linenum]|
    ensures end == Close(lines, linenum, pos)
  {
    var line := lines[linenum];
    if !(IsOpen(line[pos]) || line[pos] == '<') {
      return None;
    }
    if line[pos] == '<' && pos + 1 < |line| && (line[pos + 1] == '<' || line[pos + 1] == '=') {
      return None;
    }
    var l := linenum;
    var r := FindEndOfExpressionInLine(line, pos, []);
    if r.Found? {
      return Some(Position(l, r.pos));
    }
    while r.Unfinished? && r.stack != [] && l < |lines| - 1
      invariant linenum <= l < |lines| && !r.Found?
      invariant Close(lines, linenum, pos)
             == if r.Unfinished? && r.stack != [] && l + 1 < |lines| then CloseFrom(lines, l + 1, 0, r.stack) else None
      decreases |lines| - l
    {
      l := l + 1;
      r := FindEndOfExpressionInLine(lines[l], 0, r.stack);
      if r.Found? {
        return Some(Position(l, r.pos));
      }
    }
    end := None;
  }

  /** `FindStartOfExpressionInLine`; the position -1 scans nothing. */
  method FindStartOfExpressionInLine(line: string, endpos: int, initial: string) returns (r: LineResult)
    requires endpos < |line|
    ensures r == ScanBackward(line, endpos, initial)
  {
    var stack := initial;
    var i := endpos;
    while i >= 0
      invariant i < |line|
      invariant ScanBackward(line, i, stack) == ScanBackward(line, endpos, initial)
      decreases i + 1
    {
      var c := line[i];
      var skipped := 0;
      if IsClose(c) {
        stack := stack + [c];
      } else if c == '>' {
        if i > 0 && (line[i - 1] == '-' || IsSpacedGreaterEqual(line, i) || EndsWithOperator(line[..i])) {
          skipped := 1;
        } else {
          stack := stack + ['>'];
        }
      } else if c == '<' {
        if i > 0 && line[i - 1] == '<' {
          skipped := 1;
        } else if stack != [] && Top(stack) == '>' {
          stack := Pop(stack);
          if stack == [] {
            return Found(i);
          }
        }
      } else if IsOpen(c) {
        stack := PopAngles(stack, '>');
        if stack == [] {
          return GaveUp;
        }
        if Top(stack) != CloseOf(c) {
          return GaveUp;
        }
        stack := Pop(stack);
        if stack == [] {
          return Found(i);
        }
      } else if c == ';' {
        stack := PopAngles(stack, '>');
        if stack == [] {
          return GaveUp;
        }
      }
      i := i - 1 - skipped;
    }
    r := Unfinished(stack);
  }

  /** `ReverseCloseExpression`. */
  method ReverseCloseExpression(lines: seq<string>, linenum: nat, pos: nat) returns (start: Option<Position>)
    requires linenum < |lines| && pos < |lines[linenum]|
    ensures start == ReverseClose(lines, linenum, pos)
  {
    if !(IsClose(lines[linenum][pos]) || lines[linenum][pos] == '>') {
      return None;
    }
    var l := linenum;
    var r := FindStartOfExpressionInLine(lines[l], pos, []);
    if r.Found? {
      return Some(Position(l, r.pos));
    }
    while r.Unfinished? && r.stack != [] && l > 0
      invariant l <= linenum && !r.Found?
      invariant ReverseClose(lines, linenum, pos)
             == if r.Unfinished? && r.stack != [] && l > 0
                then ReverseFrom(lines, l - 1, |lines[l - 1]| - 1, r.stack) else None
      decreases l
    {
      l := l - 1;
      r := FindStartOfExpressionInLine(lines[l], |lines[l]| - 1, r.stack);
      if r.Found? {
        return Some(Position(l, r.pos));
      }
    }
    start := None;
  }
}
