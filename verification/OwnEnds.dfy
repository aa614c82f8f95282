/**
 Whose end the matchers of cpplint.py report. They promise that of the character they start from; an operator
 is not on the stack of its own scan, and then the end is that of another group.
 */
module OwnEnds {
  import opened BracketBalance
  import opened Brackets
  import opened Wrappers

  // --------------------------------------------------------------------------
  // Forwards: what one more '<' under the stack changes
  // --------------------------------------------------------------------------

  /** What a step with one more `angle` below (`below`) has to do with the step without it (`r`). */
  predicate StaysAbove(angle: char, r: CharResult, below: CharResult) {
    && (r.Continue? && below.Continue? ==> below.stack == [angle] + r.stack && below.width == r.width)
    && !(r.Match? && below.Match?)
  }

  lemma SettlesAbove(angle: char, stack: string, partner: char)
    requires partner != angle
    ensures StaysAbove(angle, Settle(DropAngles(stack, angle), partner),
                       Settle(DropAngles([angle] + stack, angle), partner))
  {
    DropAbove(angle, stack, angle);
    var dropped := DropAngles(stack, angle);
    if dropped != [] {
      SettleAbove(angle, dropped, partner);
    }
  }

  lemma KeepsGoingAbove(angle: char, stack: string)
    ensures StaysAbove(angle, KeepGoing(DropAngles(stack, angle)), KeepGoing(DropAngles([angle] + stack, angle)))
  {
    DropAbove(angle, stack, angle);
  }

  /** With one more '<' below, a step leaves that below too, and does not match where it matched without. */
  lemma StepAbove(line: string, i: nat, stack: string)
    requires i < |line|
    ensures StaysAbove('<', ForwardStep(line, i, stack), ForwardStep(line, i, ['<'] + stack))
  {
    var c := line[i];
    if IsClose(c) {
      SettlesAbove('<', stack, OpenOf(c));
    } else if c == ';' {
      KeepsGoingAbove('<', stack);
    } else if stack != [] {
      SettleAbove('<', stack, '<');
    }
  }

  lemma {:induction false} FoundBehind(line: string, i: nat, stack: string)
    requires ScanForward(line, i, stack).Found?
    ensures i < ScanForward(line, i, stack).pos
    decreases |line| - i
  {
    if ForwardStep(line, i, stack).Continue? {
      FoundBehind(line, i + 1, ForwardStep(line, i, stack).stack);
    }
  }

  /** On a line, a scan with one more '<' below never ends where the scan without it does. */
  lemma {:induction false} LineAbove(line: string, i: nat, stack: string)
    ensures var r, below := ScanForward(line, i, stack), ScanForward(line, i, ['<'] + stack);
            && !(r.Found? && below == r)
            && (r.Unfinished? && below.Unfinished? ==> below.stack == ['<'] + r.stack)
    decreases |line| - i
  {
    if i < |line| {
      StepAbove(line, i, stack);
      var r, below := ForwardStep(line, i, stack), ForwardStep(line, i, ['<'] + stack);
      if r.Continue? && below.Continue? {
        LineAbove(line, i + 1, r.stack);
      } else if r.Continue? && ScanForward(line, i + 1, r.stack).Found? {
        FoundBehind(line, i + 1, r.stack);
      } else if below.Continue? && ScanForward(line, i + 1, below.stack).Found? {
        FoundBehind(line, i + 1, below.stack);
      }
    }
  }

  lemma {:induction false} NeverTheSameEnd(lines: seq<string>, l: nat, i: nat, stack: string)
    requires l < |lines| && CloseFrom(lines, l, i, stack).Some?
    ensures CloseFrom(lines, l, i, ['<'] + stack) != CloseFrom(lines, l, i, stack)
    decreases |lines| - l
  {
    LineAbove(lines[l], i, stack);
    var r, below := ScanForward(lines[l], i, stack), ScanForward(lines[l], i, ['<'] + stack);
    if r.Unfinished? {
      CloseLineBounds(lines, l + 1, 0, r.stack);
      if below.Unfinished? {
        NeverTheSameEnd(lines, l + 1, 0, r.stack);
      }
    } else if below.Unfinished? && CloseFrom(lines, l, i, ['<'] + stack).Some? {
      CloseLineBounds(lines, l + 1, 0, below.stack);
    }
  }

  // --------------------------------------------------------------------------
  // Forwards: whose end it is
  // --------------------------------------------------------------------------

  /** The end of the character at `p` itself: where a scan that holds it takes it off its stack. */
  function OwnEnd(lines: seq<string>, l: nat, p: nat): Option<Position>
    requires l < |lines| && p < |lines[l]|
  {
    CloseFrom(lines, l, p + 1, [lines[l][p]])
  }

  /** An operator leaves the scan where it would have started behind it. */
  lemma OperatorIsPassed(lines: seq<string>, l: nat, p: nat)
    requires l < |lines| && p < |lines[l]| && IsOperatorLess(lines[l], p)
    ensures CloseFrom(lines, l, p, []) == CloseFrom(lines, l, p + 1, [])
  {
    ForthTurn(lines[l], p, [], []);
  }

  /** An end that `CloseExpression` reports is that of the character it started from, or that is an operator. */
  lemma CloseIsOwnIff(lines: seq<string>, l: nat, p: nat)
    requires l < |lines| && p < |lines[l]| && Close(lines, l, p).Some?
    ensures Close(lines, l, p) == OwnEnd(lines, l, p) <==> !IsOperatorLess(lines[l], p)
  {
    if IsOperatorLess(lines[l], p) {
      OperatorIsPassed(lines, l, p);
      NeverTheSameEnd(lines, l, p + 1, []);
      assert ['<'] + [] == ['<'];
    } else {
      OpenerGoesOn(lines, l, p);
    }
  }

  /** With nothing on its stack, a scan that finds an end has found something that opens on its first line. */
  lemma {:induction false} FirstOpener(lines: seq<string>, l: nat, i: nat) returns (q: nat)
    requires l < |lines| && CloseFrom(lines, l, i, []).Some?
    ensures i <= q < |lines[l]| && Opens(lines[l], q) && (forall k :: i <= k < q ==> !Opens(lines[l], k))
    ensures CloseFrom(lines, l, q, []) == CloseFrom(lines, l, i, [])
    decreases |lines[l]| - i
  {
    if Opens(lines[l], i) {
      q := i;
    } else {
      ForthTurn(lines[l], i, [], []);
      q := FirstOpener(lines, l, i + 1);
    }
  }

  /** From an operator, the end reported is that of the first character behind it that opens. */
  ghost predicate EndsNextGroup(lines: seq<string>, l: nat, p: nat, q: nat)
    requires l < |lines| && p < |lines[l]| && Close(lines, l, p).Some?
  {
    var end := Close(lines, l, p).value;
    && p < q < |lines[l]| && Opens(lines[l], q) && (forall k :: p < k < q ==> !Opens(lines[l], k))
    && OwnEnd(lines, l, q) == Some(end)
    && l <= end.line < |lines| && end.pos <= |lines[end.line]| && (l == end.line ==> q <= end.pos)
    && Encloses(lines[l][q], Range(lines, l, q, end.line, end.pos))
  }

  lemma OperatorEndsNextGroup(lines: seq<string>, l: nat, p: nat)
    requires l < |lines| && p < |lines[l]| && Close(lines, l, p).Some? && IsOperatorLess(lines[l], p)
    ensures exists q :: EndsNextGroup(lines, l, p, q)
  {
    OperatorIsPassed(lines, l, p);
    var q := FirstOpener(lines, l, p + 1);
    OpenerGoesOn(lines, l, q);
    OpenerEncloses(lines, l, q);
    assert EndsNextGroup(lines, l, p, q);
  }

  // --------------------------------------------------------------------------
  // Backwards
  // --------------------------------------------------------------------------

  lemma StepAboveBack(line: string, i: nat, stack: string)
    requires i < |line|
    ensures StaysAbove('>', BackwardStep(line, i, stack), BackwardStep(line, i, ['>'] + stack))
  {
    var c := line[i];
    if IsOpen(c) {
      SettlesAbove('>', stack, CloseOf(c));
    } else if c == ';' {
      KeepsGoingAbove('>', stack);
    } else if stack != [] {
      SettleAbove('>', stack, '>');
    }
  }

  lemma {:induction false} FoundBefore(line: string, i: int, stack: string)
    requires i < |line| && ScanBackward(line, i, stack).Found?
    ensures ScanBackward(line, i, stack).pos <= i
    decreases i + 1
  {
    var r := BackwardStep(line, i, stack);
    if r.Continue? {
      FoundBefore(line, i - r.width, r.stack);
    }
  }

  lemma {:induction false} LineAboveBack(line: string, i: int, stack: string)
    requires i < |line|
    ensures var r, below := ScanBackward(line, i, stack), ScanBackward(line, i, ['>'] + stack);
            && !(r.Found? && below == r)
            && (r.Unfinished? && below.Unfinished? ==> below.stack == ['>'] + r.stack)
    decreases i + 1
  {
    if i >= 0 {
      StepAboveBack(line, i, stack);
      var r, below := BackwardStep(line, i, stack), BackwardStep(line, i, ['>'] + stack);
      if r.Continue? && below.Continue? {
        LineAboveBack(line, i - r.width, r.stack);
      } else if r.Continue? && ScanBackward(line, i - r.width, r.stack).Found? {
        FoundBefore(line, i - r.width, r.stack);
      } else if below.Continue? && ScanBackward(line, i - below.width, below.stack).Found? {
        FoundBefore(line, i - below.width, below.stack);
      }
    }
  }

  lemma {:induction false} NeverTheSameStart(lines: seq<string>, l: nat, i: int, stack: string)
    requires l < |lines| && i < |lines[l]| && ReverseFrom(lines, l, i, stack).Some?
    ensures ReverseFrom(lines, l, i, ['>'] + stack) != ReverseFrom(lines, l, i, stack)
    decreases l
  {
    LineAboveBack(lines[l], i, stack);
    var r, below := ScanBackward(lines[l], i, stack), ScanBackward(lines[l], i, ['>'] + stack);
    if r.Unfinished? {
      ReverseLineBounds(lines, l - 1, |lines[l - 1]| - 1, r.stack);
      if below.Unfinished? {
        NeverTheSameStart(lines, l - 1, |lines[l - 1]| - 1, r.stack);
      }
    } else if below.Unfinished? && ReverseFrom(lines, l, i, ['>'] + stack).Some? {
      ReverseLineBounds(lines, l - 1, |lines[l - 1]| - 1, below.stack);
    }
  }

  /** The start of the character at `p` itself. */
  function OwnStart(lines: seq<string>, l: nat, p: nat): Option<Position>
    requires l < |lines| && p < |lines[l]|
  {
    ReverseFrom(lines, l, p - 1, [lines[l][p]])
  }

  /** An operator takes the character before it along, which no scan takes for anything. */
  lemma OperatorIsPassedBack(lines: seq<string>, l: nat, p: nat)
    requires l < |lines| && p < |lines[l]| && IsOperatorGreater(lines[l], p)
    ensures ReverseFrom(lines, l, p, []) == ReverseFrom(lines, l, p - 2, [])
    ensures ReverseFrom(lines, l, p - 1, ['>']) == ReverseFrom(lines, l, p - 2, ['>'])
    ensures !Closes(lines[l], p - 1)
  {
    var line := lines[l];
    assert !IsOpen(line[p - 1]) && !IsClose(line[p - 1]) && line[p - 1] != '<' && line[p - 1] != '>' && line[p - 1] != ';'
    by {
      if EndsWithOperator(line[..p]) {
        assert line[..p][p - 1] == line[p - 1];
      }
    }
    BackwardTurn(line, p, [], [], 2);
    BackwardTurn(line, p - 1, ['>'], ['>'], 1);
  }

  lemma ReverseIsOwnIff(lines: seq<string>, l: nat, p: nat)
    requires l < |lines| && p < |lines[l]| && ReverseClose(lines, l, p).Some?
    ensures ReverseClose(lines, l, p) == OwnStart(lines, l, p) <==> !IsOperatorGreater(lines[l], p)
  {
    if IsOperatorGreater(lines[l], p) {
      OperatorIsPassedBack(lines, l, p);
      NeverTheSameStart(lines, l, p - 2, []);
      assert ['>'] + [] == ['>'];
    } else {
      CloserGoesOn(lines, l, p);
    }
  }

  /** The scan from `i` may pass a character unseen, the one before an operator, which closes nothing. */
  lemma {:induction false} FirstCloser(lines: seq<string>, l: nat, i: int) returns (q: nat)
    requires l < |lines| && i < |lines[l]| && ReverseFrom(lines, l, i, []).Some?
    ensures q <= i && Closes(lines[l], q) && (forall k :: q < k <= i ==> !Closes(lines[l], k))
    ensures ReverseFrom(lines, l, q, []) == ReverseFrom(lines, l, i, [])
    decreases i + 1
  {
    if Closes(lines[l], i) {
      q := i;
    } else if IsOperatorGreater(lines[l], i) {
      OperatorIsPassedBack(lines, l, i);
      q := FirstCloser(lines, l, i - 2);
    } else {
      var r := BackwardStep(lines[l], i, []);
      BackwardTurn(lines[l], i, [], [], r.width);
      q := FirstCloser(lines, l, i - r.width);
    }
  }

  ghost predicate BeginsNextGroup(lines: seq<string>, l: nat, p: nat, q: nat)
    requires l < |lines| && p < |lines[l]| && ReverseClose(lines, l, p).Some?
  {
    var start := ReverseClose(lines, l, p).value;
    && q < p && Closes(lines[l], q) && (forall k :: q < k < p ==> !Closes(lines[l], k))
    && OwnStart(lines, l, q) == Some(start)
    && start.line <= l && start.pos < |lines[start.line]| && (start.line == l ==> start.pos <= q)
    && EnclosedBy(Range(lines, start.line, start.pos, l, q + 1), lines[l][q])
  }

  lemma OperatorBeginsNextGroup(lines: seq<string>, l: nat, p: nat)
    requires l < |lines| && p < |lines[l]| && ReverseClose(lines, l, p).Some? && IsOperatorGreater(lines[l], p)
    ensures exists q :: BeginsNextGroup(lines, l, p, q)
  {
    OperatorIsPassedBack(lines, l, p);
    var q := FirstCloser(lines, l, p - 2);
    CloserGoesOn(lines, l, q);
    CloserEncloses(lines, l, q);
    assert BeginsNextGroup(lines, l, p, q);
  }

  // --------------------------------------------------------------------------
  // Lines on which it happens
  // --------------------------------------------------------------------------

  lemma {:induction false} EndsWithItself(w: string)
    ensures EndsWithWord(w, w)
  {
    if w != [] {
      EndsWithItself(Pop(w));
    }
  }

  /** From the '<' of `operator<()` the end of the parentheses is reported. */
  lemma LessClosesElsewhere()
    ensures Close(["operator<()"], 0, 8) == Some(Position(0, 11)) && IsOperatorLess("operator<()", 8)
  {
    var line := "operator<()";
    assert line[..8] == "operator";
    EndsWithItself("operator");
    ForthTurn(line, 8, [], []);
    assert [] + ['('] == ['('];
    ForthTurn(line, 9, [], ['(']);
    assert Pop(['(']) == [];
    assert ForwardStep(line, 10, ['(']) == Match;
  }

  /** From the '>' of an arrow behind a call, the start of the parentheses. */
  lemma ArrowOpensElsewhere()
    ensures ReverseClose(["()->"], 0, 3) == Some(Position(0, 0)) && IsOperatorGreater("()->", 3)
  {
    var line := "()->";
    BackwardTurn(line, 3, [], [], 2);
    assert [] + [')'] == [')'];
    BackTurn(line, 1, [], [')']);
    assert Pop([')']) == [];
    assert BackwardStep(line, 0, [')']) == Match;
  }
}
