/**
 Whatever the matchers of cpplint.py take for an operator, the real brackets in a range they report are
 balanced. Balance is defined by a grammar, without any stack.
 */
module BracketBalance {
  import opened Brackets
  import opened Sequences
  import opened Wrappers

  /** Text in which every bracket is closed by its own kind: other characters and groups in a row. */
  datatype Nest = Empty | Plain(c: char, rest: Nest) | Group(open: char, inner: Nest, rest: Nest)

  ghost predicate Proper(t: Nest) {
    match t
    case Empty => true
    case Plain(c, rest) => IsPlain(c) && Proper(rest)
    case Group(open, inner, rest) => IsOpen(open) && Proper(inner) && Proper(rest)
  }

  ghost function Flat(t: Nest): string
    requires Proper(t)
  {
    match t
    case Empty => ""
    case Plain(c, rest) => [c] + Flat(rest)
    case Group(open, inner, rest) => [open] + Flat(inner) + [CloseOf(open)] + Flat(rest)
  }

  ghost predicate Derives(t: Nest, w: string) {
    Proper(t) && Flat(t) == w
  }

  ghost predicate Balanced(w: string) {
    exists t :: Derives(t, w)
  }

  ghost function Append(t: Nest, u: Nest): Nest {
    match t
    case Empty => u
    case Plain(c, rest) => Plain(c, Append(rest, u))
    case Group(open, inner, rest) => Group(open, inner, Append(rest, u))
  }

  lemma {:induction false} AppendFlat(t: Nest, u: Nest)
    requires Proper(t) && Proper(u)
    ensures Proper(Append(t, u)) && Flat(Append(t, u)) == Flat(t) + Flat(u)
  {
    match t
    case Empty =>
    case Plain(c, rest) =>
      AppendFlat(rest, u);
      ConcatAssociative([c], Flat(rest), Flat(u));
    case Group(open, inner, rest) =>
      AppendFlat(rest, u);
      ConcatAssociative([open] + Flat(inner) + [CloseOf(open)], Flat(rest), Flat(u));
  }

  lemma BalancedEmpty()
    ensures Balanced("")
  {
    assert Derives(Empty, "");
  }

  lemma BalancedPlain(c: char)
    requires IsPlain(c)
    ensures Balanced([c])
  {
    var t := Plain(c, Empty);
    assert Flat(t) == [c] + Flat(Empty) == [c];
    assert Derives(t, [c]);
  }

  lemma BalancedConcat(v: string, w: string)
    requires Balanced(v) && Balanced(w)
    ensures Balanced(v + w)
  {
    var t :| Derives(t, v);
    var u :| Derives(u, w);
    AppendFlat(t, u);
    assert Derives(Append(t, u), v + w);
  }

  lemma BalancedGroup(open: char, w: string)
    requires IsOpen(open) && Balanced(w)
    ensures Balanced([open] + w + [CloseOf(open)])
  {
    var t :| Derives(t, w);
    var u := Group(open, t, Empty);
    assert Flat(u) == [open] + w + [CloseOf(open)] + Flat(Empty) == [open] + w + [CloseOf(open)];
    assert Derives(u, [open] + w + [CloseOf(open)]);
  }

  // --------------------------------------------------------------------------
  // Forwards: text in which the brackets of a stack are still open
  // --------------------------------------------------------------------------

  /** `w` is balanced but for the opening brackets of `st`, which stand in it in this order. */
  ghost predicate Pending(w: string, st: string)
    decreases |st|
  {
    if st == [] then Balanced(w)
    else exists k :: PendingAt(w, st, k)
  }

  ghost predicate PendingAt(w: string, st: string, k: int)
    requires st != []
    decreases |st|, 0
  {
    0 <= k < |w| && w[k] == Top(st) && Pending(w[..k], Pop(st)) && Balanced(w[k + 1..])
  }

  lemma {:induction false} PendingConcat(w: string, st: string, v: string)
    requires Pending(w, st) && Balanced(v)
    ensures Pending(w + v, st)
  {
    if st == [] {
      BalancedConcat(w, v);
    } else {
      var k :| PendingAt(w, st, k);
      BalancedConcat(w[k + 1..], v);
      assert (w + v)[..k] == w[..k] && (w + v)[k + 1..] == w[k + 1..] + v;
      assert PendingAt(w + v, st, k);
    }
  }

  lemma PendingOpen(w: string, st: string, c: char)
    requires Pending(w, st)
    ensures Pending(w + [c], st + [c])
  {
    var k := |w|;
    BalancedEmpty();
    assert (w + [c])[..k] == w && (w + [c])[k + 1..] == "" && Pop(st + [c]) == st;
    assert PendingAt(w + [c], st + [c], k);
  }

  lemma PendingClose(w: string, st: string, c: char)
    requires Pending(w, st) && st != [] && IsClose(c) && Top(st) == OpenOf(c)
    ensures Pending(w + [c], Pop(st))
  {
    var k :| PendingAt(w, st, k);
    BalancedGroup(w[k], w[k + 1..]);
    PendingConcat(w[..k], Pop(st), [w[k]] + w[k + 1..] + [c]);
    assert w + [c] == w[..k] + ([w[k]] + w[k + 1..] + [c]);
  }

  // --------------------------------------------------------------------------
  // Backwards: text in which the brackets of a stack have not been opened
  // --------------------------------------------------------------------------

  ghost predicate Awaiting(w: string, st: string)
    decreases |st|
  {
    if st == [] then Balanced(w)
    else exists k :: AwaitingAt(w, st, k)
  }

  ghost predicate AwaitingAt(w: string, st: string, k: int)
    requires st != []
    decreases |st|, 0
  {
    0 <= k < |w| && w[k] == Top(st) && Balanced(w[..k]) && Awaiting(w[k + 1..], Pop(st))
  }

  lemma {:induction false} AwaitingConcat(v: string, w: string, st: string)
    requires Balanced(v) && Awaiting(w, st)
    ensures Awaiting(v + w, st)
  {
    if st == [] {
      BalancedConcat(v, w);
    } else {
      var k :| AwaitingAt(w, st, k);
      BalancedConcat(v, w[..k]);
      assert (v + w)[..|v| + k] == v + w[..k] && (v + w)[|v| + k + 1..] == w[k + 1..];
      assert AwaitingAt(v + w, st, |v| + k);
    }
  }

  lemma AwaitingClose(w: string, st: string, c: char)
    requires Awaiting(w, st)
    ensures Awaiting([c] + w, st + [c])
  {
    BalancedEmpty();
    assert ([c] + w)[..0] == "" && ([c] + w)[1..] == w && Pop(st + [c]) == st;
    assert AwaitingAt([c] + w, st + [c], 0);
  }

  lemma AwaitingOpen(w: string, st: string, c: char)
    requires Awaiting(w, st) && st != [] && IsOpen(c) && Top(st) == CloseOf(c)
    ensures Awaiting([c] + w, Pop(st))
  {
    var k :| AwaitingAt(w, st, k);
    BalancedGroup(c, w[..k]);
    AwaitingConcat([c] + w[..k] + [w[k]], w[k + 1..], Pop(st));
    assert [c] + w == ([c] + w[..k] + [w[k]]) + w[k + 1..];
  }

  // --------------------------------------------------------------------------
  // Pending angles do not count
  // --------------------------------------------------------------------------

  /** The stack without its angles. */
  function Real(stack: string): string {
    if stack == [] then []
    else if Top(stack) == '<' || Top(stack) == '>' then Real(Pop(stack))
    else Real(Pop(stack)) + [Top(stack)]
  }

  lemma RealPush(stack: string, c: char)
    ensures Real(stack + [c]) == if c == '<' || c == '>' then Real(stack) else Real(stack) + [c]
  {
    assert Pop(stack + [c]) == stack;
  }

  lemma {:induction false} RealDrop(stack: string, angle: char)
    requires angle == '<' || angle == '>'
    ensures Real(DropAngles(stack, angle)) == Real(stack)
  {
    if stack != [] && Top(stack) == angle {
      RealDrop(Pop(stack), angle);
    }
  }

  /** Dropping angles reaches the bottom of a stack only when nothing else is left. */
  lemma {:induction false} DropAbove(c: char, rest: string, angle: char)
    ensures var dropped := DropAngles(rest, angle);
            DropAngles([c] + rest, angle)
            == if dropped != [] then [c] + dropped else if c == angle then [] else [c]
    decreases |rest|
  {
    var stack := [c] + rest;
    if rest == [] {
      assert Pop(stack) == [];
    } else if Top(rest) == angle {
      assert Pop(stack) == [c] + Pop(rest);
      DropAbove(c, Pop(rest), angle);
    }
  }

  // --------------------------------------------------------------------------
  // Forwards
  // --------------------------------------------------------------------------

  /** What can start an expression, and what closes it. */
  predicate IsOpener(c: char) {
    IsOpen(c) || c == '<'
  }

  function CloserOf(c: char): char
    requires IsOpener(c)
  {
    if c == '<' then '>' else CloseOf(c)
  }

  /**
   `anchor` is the opening character the scan started from, if it was pushed. It stays at the bottom of the
   stack, and the text `w` scanned since is pending on the real part of what is above.
   */
  ghost predicate Holds(anchor: string, stack: string, w: string) {
    && (anchor == [] || (|anchor| == 1 && IsOpener(anchor[0]) && stack != [] && stack[0] == anchor[0]))
    && Pending(w, Real(stack[|anchor|..]))
  }

  /** How the text since the anchor ends at a match. */
  ghost predicate Ended(anchor: string, w: string) {
    if anchor == [] then Balanced(w)
    else IsOpener(anchor[0]) && w != [] && Last(w) == CloserOf(anchor[0]) && Balanced(Front(w))
  }

  /** A step with nothing below the stack. */
  lemma FreeStep(line: string, i: nat, stack: string, w: string)
    requires i < |line| && Pending(w, Real(stack))
    ensures match ForwardStep(line, i, stack)
            case Continue(st, _) => Pending(w + [line[i]], Real(st))
            case Match => Balanced(w + [line[i]])
            case Fail => true
  {
    var c := line[i];
    RealDrop(stack, '<');
    if IsOpen(c) {
      RealPush(stack, c);
      PendingOpen(w, Real(stack), c);
    } else if IsClose(c) {
      var dropped := DropAngles(stack, '<');
      if dropped != [] && Top(dropped) == OpenOf(c) {
        assert Pop(Real(dropped)) == Real(Pop(dropped));
        PendingClose(w, Real(dropped), c);
      }
    } else {
      BalancedPlain(c);
      PendingConcat(w, Real(stack), [c]);
      RealPush(stack, '<');
    }
  }

  /** What a real bracket settles above `a`. */
  lemma SettleAbove(a: char, dropped: string, partner: char)
    requires dropped != []
    ensures Settle([a] + dropped, partner)
         == if Top(dropped) == partner then Continue([a] + Pop(dropped), 1) else Fail
    ensures ([a] + Pop(dropped))[1..] == Pop(dropped)
  {
    assert Top([a] + dropped) == Top(dropped) && Pop([a] + dropped) == [a] + Pop(dropped);
  }

  lemma SettleBottom(a: char, partner: char)
    ensures Settle([a], partner) == if a == partner then Match else Fail
  {
    assert Pop([a]) == [];
  }

  /** A closing bracket above an anchor: it closes what is open above, or the anchor. */
  lemma AnchoredClose(a: char, rest: string, c: char, w: string)
    requires IsOpener(a) && IsClose(c) && Pending(w, Real(rest))
    ensures var r := Settle(DropAngles([a] + rest, '<'), OpenOf(c));
            && (r.Continue? ==> PendingAbove(a, r.stack, w + [c]))
            && (r.Match? ==> c == CloserOf(a) && Balanced(w))
  {
    var dropped := DropAngles(rest, '<');
    DropAbove(a, rest, '<');
    RealDrop(rest, '<');
    if dropped != [] {
      SettleAbove(a, dropped, OpenOf(c));
      if Top(dropped) == OpenOf(c) {
        assert Real(Pop(dropped)) == Pop(Real(dropped));
        PendingClose(w, Real(dropped), c);
      }
    } else {
      SettleBottom(a, OpenOf(c));
    }
  }

  /** The stack with its bottom `a`, and what is above pending. */
  ghost predicate PendingAbove(a: char, stack: string, w: string) {
    stack != [] && stack[0] == a && Pending(w, Real(stack[1..]))
  }

  lemma PushAngle(a: char, rest: string, angle: char)
    requires angle == '<' || angle == '>'
    ensures [a] + rest + [angle] == [a] + (rest + [angle])
    ensures ([a] + rest + [angle])[1..] == rest + [angle] && Real(rest + [angle]) == Real(rest)
  {
    RealPush(rest, angle);
  }

  /** Popping an angle above `a`, or `a` itself. */
  lemma PopAngle(a: char, rest: string, angle: char)
    requires (angle == '<' || angle == '>') && Top([a] + rest) == angle
    ensures if rest == [] then a == angle && Pop([a] + rest) == []
            else Pop([a] + rest) == [a] + Pop(rest) && ([a] + Pop(rest))[1..] == Pop(rest) && Real(Pop(rest)) == Real(rest)
  {
    if rest != [] {
      assert Top([a] + rest) == Top(rest);
    }
  }

  lemma DropReal(a: char, rest: string, angle: char)
    requires angle == '<' || angle == '>'
    ensures var dropped := DropAngles([a] + rest, angle);
            dropped != [] ==> dropped[0] == a && Real(dropped[1..]) == Real(rest)
  {
    DropAbove(a, rest, angle);
    RealDrop(rest, angle);
    var above := DropAngles(rest, angle);
    assert ([a] + above)[1..] == above && [a][1..] == [];
  }

  /** A '<' above an anchor; `v` is the text with it. */
  lemma AnchoredLess(a: char, line: string, i: nat, rest: string, v: string)
    requires i < |line| && line[i] == '<' && Pending(v, Real(rest))
    ensures var r := ForwardStep(line, i, [a] + rest);
            && (r.Continue? ==> PendingAbove(a, r.stack, v))
            && !r.Match?
  {
    var stack := [a] + rest;
    assert stack[1..] == rest;
    PushAngle(a, rest, '<');
    if Top(stack) == '<' {
      PopAngle(a, rest, '<');
    }
  }

  lemma AnchoredGreater(a: char, line: string, i: nat, rest: string, v: string)
    requires i < |line| && IsOpener(a) && line[i] == '>' && Pending(v, Real(rest))
    ensures var r := ForwardStep(line, i, [a] + rest);
            && (r.Continue? ==> PendingAbove(a, r.stack, v))
            && (r.Match? ==> rest == [] && line[i] == CloserOf(a))
  {
    var stack := [a] + rest;
    assert stack[1..] == rest;
    if Top(stack) == '<' {
      PopAngle(a, rest, '<');
    }
  }

  lemma AnchoredOther(a: char, line: string, i: nat, rest: string, v: string)
    requires i < |line| && IsOpener(a) && IsPlain(line[i]) && line[i] != '<' && line[i] != '>' && Pending(v, Real(rest))
    ensures var r := ForwardStep(line, i, [a] + rest);
            && (r.Continue? ==> PendingAbove(a, r.stack, v))
            && !r.Match?
  {
    assert ([a] + rest)[1..] == rest;
    DropReal(a, rest, '<');
  }

  lemma AnchoredPlain(a: char, line: string, i: nat, rest: string, w: string)
    requires i < |line| && IsOpener(a) && IsPlain(line[i]) && Pending(w, Real(rest))
    ensures var r := ForwardStep(line, i, [a] + rest);
            && (r.Continue? ==> PendingAbove(a, r.stack, w + [line[i]]))
            && (r.Match? ==> line[i] == CloserOf(a) && Balanced(w))
  {
    var c := line[i];
    BalancedPlain(c);
    PendingConcat(w, Real(rest), [c]);
    if c == '<' {
      AnchoredLess(a, line, i, rest, w + [c]);
    } else if c == '>' {
      AnchoredGreater(a, line, i, rest, w + [c]);
    } else {
      AnchoredOther(a, line, i, rest, w + [c]);
    }
  }

  /** A real bracket opens above an anchor. */
  lemma AnchoredPush(a: char, rest: string, c: char, w: string)
    requires IsOpen(c) && Pending(w, Real(rest))
    ensures PendingAbove(a, [a] + rest + [c], w + [c])
  {
    RealPush(rest, c);
    PendingOpen(w, Real(rest), c);
    assert ([a] + rest + [c])[1..] == rest + [c];
  }

  lemma AnchoredStep(a: char, line: string, i: nat, rest: string, w: string)
    requires i < |line| && IsOpener(a) && Pending(w, Real(rest))
    ensures var r := ForwardStep(line, i, [a] + rest);
            && (r.Continue? ==> PendingAbove(a, r.stack, w + [line[i]]))
            && (r.Match? ==> line[i] == CloserOf(a) && Balanced(w))
  {
    var c := line[i];
    if IsOpen(c) {
      AnchoredPush(a, rest, c, w);
    } else if IsClose(c) {
      AnchoredClose(a, rest, c, w);
    } else {
      AnchoredPlain(a, line, i, rest, w);
    }
  }

  /** Every step forwards keeps the text since the anchor pending on the real part of the stack above it. */
  lemma ForwardKeepsPending(anchor: string, line: string, i: nat, stack: string, w: string)
    requires i < |line| && Holds(anchor, stack, w)
    ensures var r := ForwardStep(line, i, stack);
            && (r.Continue? ==> Holds(anchor, r.stack, w + [line[i]]))
            && (r.Match? ==> Ended(anchor, w + [line[i]]))
  {
    var c := line[i];
    if anchor == [] {
      FreeStep(line, i, stack, w);
    } else {
      var a, rest := stack[0], stack[1..];
      assert stack == [a] + rest;
      Snoc(w, c);
      AnchoredStep(a, line, i, rest, w);
    }
  }

  lemma MoveRight(w: string, line: string, i: nat, e: nat)
    requires i < e <= |line|
    ensures (w + [line[i]]) + line[i + 1..e] == w + line[i..e]
  {
  }

  lemma {:induction false} LinePending(anchor: string, line: string, i: nat, stack: string, w: string)
    requires i <= |line| && Holds(anchor, stack, w)
    ensures match ScanForward(line, i, stack)
            case Found(e) => i < e <= |line| && Ended(anchor, w + line[i..e])
            case Unfinished(st) => Holds(anchor, st, w + line[i..|line|])
            case GaveUp => true
    decreases |line| - i
  {
    if i == |line| {
      assert w + line[i..|line|] == w;
    } else {
      ForwardKeepsPending(anchor, line, i, stack, w);
      match ForwardStep(line, i, stack)
      case Continue(st, _) =>
        LinePending(anchor, line, i + 1, st, w + [line[i]]);
        var r := ScanForward(line, i + 1, st);
        ForwardWidth(line, i, stack);
        ForthTurn(line, i, stack, st);
        MoveRight(w, line, i, if r.Found? then r.pos else |line|);
      case Match => assert line[i..i + 1] == [line[i]];
      case Fail =>
    }
  }

  /** The characters from one position up to another, lines put end to end. */
  function Range(lines: seq<string>, l: nat, i: nat, l': nat, e: nat): string
    requires l <= l' < |lines| && i <= |lines[l]| && e <= |lines[l']| && (l == l' ==> i <= e)
    decreases l' - l
  {
    if l == l' then lines[l][i..e] else lines[l][i..] + Range(lines, l + 1, 0, l', e)
  }

  lemma {:induction false} CloseFromPending(anchor: string, lines: seq<string>, l: nat, i: nat, stack: string, w: string)
    requires l < |lines| && i <= |lines[l]| && Holds(anchor, stack, w)
    requires CloseFrom(lines, l, i, stack).Some?
    ensures var end := CloseFrom(lines, l, i, stack).value;
            && l <= end.line < |lines| && end.pos <= |lines[end.line]| && (l == end.line ==> i <= end.pos)
            && Ended(anchor, w + Range(lines, l, i, end.line, end.pos))
    decreases |lines| - l
  {
    LinePending(anchor, lines[l], i, stack, w);
    assert lines[l][i..|lines[l]|] == lines[l][i..];
    var r := ScanForward(lines[l], i, stack);
    if r.Unfinished? {
      CloseFromPending(anchor, lines, l + 1, 0, r.stack, w + lines[l][i..]);
      var end := CloseFrom(lines, l + 1, 0, r.stack).value;
      assert w + lines[l][i..] + Range(lines, l + 1, 0, end.line, end.pos) == w + Range(lines, l, i, end.line, end.pos);
    }
  }

  /** `c`, balanced text, and what closes `c`. */
  ghost predicate Encloses(c: char, x: string)
    requires IsOpener(c)
  {
    exists w :: Balanced(w) && x == [c] + w + [CloserOf(c)]
  }

  /** A '<' that is taken for the second character of a shift or for the end of `operator<`. */
  predicate IsOperatorLess(line: string, p: nat)
    requires p < |line|
  {
    line[p] == '<' && p > 0 && (line[p - 1] == '<' || EndsWithOperator(line[..p]))
  }

  /** What the scan pushes, whatever is on its stack: every opening bracket, and a '<' but for operators. */
  predicate Opens(line: string, p: nat)
    requires p < |line|
  {
    IsOpener(line[p]) && !IsOperatorLess(line, p)
  }

  /** Whatever `CloseExpression` reports as the end, the brackets up to it are balanced. */
  lemma CloseIsBalanced(lines: seq<string>, l: nat, p: nat)
    requires l < |lines| && p < |lines[l]| && Close(lines, l, p).Some?
    ensures var end := Close(lines, l, p).value;
            && l <= end.line < |lines| && end.pos <= |lines[end.line]| && (l == end.line ==> p <= end.pos)
            && Balanced(Range(lines, l, p, end.line, end.pos))
  {
    BalancedEmpty();
    CloseFromPending([], lines, l, p, [], "");
    var end := Close(lines, l, p).value;
    assert "" + Range(lines, l, p, end.line, end.pos) == Range(lines, l, p, end.line, end.pos);
  }

  lemma EndedEncloses(c: char, w: string)
    requires IsOpener(c) && Ended([c], w)
    ensures Encloses(c, [c] + w)
  {
    FrontLast(w);
    assert [c] + w == [c] + Front(w) + [CloserOf(c)];
  }

  lemma RangeTail(lines: seq<string>, l: nat, p: nat, l': nat, e: nat)
    requires l <= l' < |lines| && p < |lines[l]| && e <= |lines[l']| && (l == l' ==> p + 1 <= e)
    ensures Range(lines, l, p, l', e) == [lines[l][p]] + Range(lines, l, p + 1, l', e)
  {
    assert lines[l][p..] == [lines[l][p]] + lines[l][p + 1..];
    if l < l' {
      ConcatAssociative([lines[l][p]], lines[l][p + 1..], Range(lines, l + 1, 0, l', e));
    }
  }

  /** The scan from a character that opens goes on behind it. */
  lemma OpenerGoesOn(lines: seq<string>, l: nat, p: nat)
    requires l < |lines| && p < |lines[l]| && Opens(lines[l], p)
    ensures CloseFrom(lines, l, p, []) == CloseFrom(lines, l, p + 1, [lines[l][p]])
  {
    var c := lines[l][p];
    assert [] + [c] == [c];
    ForthTurn(lines[l], p, [], [c]);
  }

  /** The end found from a character that opens: the range is that character, balanced text, and its counterpart. */
  lemma OpenerEncloses(lines: seq<string>, l: nat, p: nat)
    requires l < |lines| && p < |lines[l]| && Opens(lines[l], p) && CloseFrom(lines, l, p, []).Some?
    ensures var end := CloseFrom(lines, l, p, []).value;
            && l <= end.line < |lines| && end.pos <= |lines[end.line]| && (l == end.line ==> p <= end.pos)
            && Encloses(lines[l][p], Range(lines, l, p, end.line, end.pos))
  {
    var c := lines[l][p];
    assert [c][1..] == [];
    BalancedEmpty();
    OpenerGoesOn(lines, l, p);
    CloseFromPending([c], lines, l, p + 1, [c], "");
    var end := CloseFrom(lines, l, p, []).value;
    var rest := Range(lines, l, p + 1, end.line, end.pos);
    assert "" + rest == rest;
    EndedEncloses(c, rest);
    RangeTail(lines, l, p, end.line, end.pos);
  }

  /** The end that `CloseExpression` reports from anything but an operator encloses a group. */
  lemma CloseIsGroup(lines: seq<string>, l: nat, p: nat)
    requires l < |lines| && p < |lines[l]| && Close(lines, l, p).Some? && !IsOperatorLess(lines[l], p)
    ensures var end := Close(lines, l, p).value;
            && l <= end.line < |lines| && end.pos <= |lines[end.line]| && (l == end.line ==> p <= end.pos)
            && IsOpener(lines[l][p]) && Encloses(lines[l][p], Range(lines, l, p, end.line, end.pos))
  {
    OpenerEncloses(lines, l, p);
  }

  // --------------------------------------------------------------------------
  // The same backwards
  // --------------------------------------------------------------------------

  predicate IsCloser(c: char) {
    IsClose(c) || c == '>'
  }

  function OpenerOf(c: char): char
    requires IsCloser(c)
  {
    if c == '>' then '<' else OpenOf(c)
  }

  ghost predicate HoldsBack(anchor: string, stack: string, w: string) {
    && (anchor == [] || (|anchor| == 1 && IsCloser(anchor[0]) && stack != [] && stack[0] == anchor[0]))
    && Awaiting(w, Real(stack[|anchor|..]))
  }

  ghost predicate Begun(anchor: string, w: string) {
    if anchor == [] then Balanced(w)
    else IsCloser(anchor[0]) && w != [] && w[0] == OpenerOf(anchor[0]) && Balanced(w[1..])
  }

  /** The characters one step backwards goes over. */
  function Consumed(line: string, i: nat, width: nat): string
    requires i < |line| && width <= i + 1
  {
    line[i + 1 - width..i + 1]
  }

  /** A step never runs off the line, and an operator it skips holds no bracket. */
  lemma BackwardSkips(line: string, i: nat, stack: string)
    requires i < |line| && BackwardStep(line, i, stack).Continue?
    ensures var r := BackwardStep(line, i, stack);
            && r.width <= i + 1
            && (r.width == 2 ==> IsPlain(line[i - 1]) && IsPlain(line[i]) && r.stack == stack)
  {
    if i > 0 && EndsWithOperator(line[..i]) {
      OperatorEndsPlain(line[..i]);
    }
  }

  lemma SkipKeepsAwaiting(line: string, i: nat, st: string, w: string)
    requires 0 < i < |line| && IsPlain(line[i - 1]) && IsPlain(line[i]) && Awaiting(w, st)
    ensures Awaiting(Consumed(line, i, 2) + w, st)
  {
    BalancedPlain(line[i - 1]);
    BalancedPlain(line[i]);
    BalancedConcat([line[i - 1]], [line[i]]);
    assert Consumed(line, i, 2) == [line[i - 1]] + [line[i]];
    AwaitingConcat(Consumed(line, i, 2), w, st);
  }

  lemma FreeStepBack(line: string, i: nat, stack: string, w: string)
    requires i < |line| && Awaiting(w, Real(stack))
    ensures var r := BackwardStep(line, i, stack);
            && (r.Continue? && r.width == 1 ==> Awaiting([line[i]] + w, Real(r.stack)))
            && (r.Match? ==> Balanced([line[i]] + w))
  {
    var c := line[i];
    RealDrop(stack, '>');
    if IsClose(c) {
      RealPush(stack, c);
      AwaitingClose(w, Real(stack), c);
    } else if IsOpen(c) {
      var dropped := DropAngles(stack, '>');
      if dropped != [] && Top(dropped) == CloseOf(c) {
        assert Pop(Real(dropped)) == Real(Pop(dropped));
        AwaitingOpen(w, Real(dropped), c);
      }
    } else {
      BalancedPlain(c);
      AwaitingConcat([c], w, Real(stack));
      RealPush(stack, '>');
    }
  }

  ghost predicate AwaitingAbove(a: char, stack: string, w: string) {
    stack != [] && stack[0] == a && Awaiting(w, Real(stack[1..]))
  }

  lemma AnchoredOpen(a: char, rest: string, c: char, w: string)
    requires IsCloser(a) && IsOpen(c) && Awaiting(w, Real(rest))
    ensures var r := Settle(DropAngles([a] + rest, '>'), CloseOf(c));
            && (r.Continue? ==> AwaitingAbove(a, r.stack, [c] + w))
            && (r.Match? ==> c == OpenerOf(a) && Balanced(w))
  {
    var dropped := DropAngles(rest, '>');
    DropAbove(a, rest, '>');
    RealDrop(rest, '>');
    if dropped != [] {
      SettleAbove(a, dropped, CloseOf(c));
      if Top(dropped) == CloseOf(c) {
        assert Real(Pop(dropped)) == Pop(Real(dropped));
        AwaitingOpen(w, Real(dropped), c);
      }
    } else {
      SettleBottom(a, CloseOf(c));
    }
  }

  lemma AnchoredGreaterBack(a: char, line: string, i: nat, rest: string, v: string)
    requires i < |line| && line[i] == '>' && Awaiting(v, Real(rest))
    ensures var r := BackwardStep(line, i, [a] + rest);
            && (r.Continue? ==> AwaitingAbove(a, r.stack, v))
            && !r.Match?
  {
    assert ([a] + rest)[1..] == rest;
    PushAngle(a, rest, '>');
  }

  lemma AnchoredLessBack(a: char, line: string, i: nat, rest: string, v: string)
    requires i < |line| && IsCloser(a) && line[i] == '<' && Awaiting(v, Real(rest))
    ensures var r := BackwardStep(line, i, [a] + rest);
            && (r.Continue? ==> AwaitingAbove(a, r.stack, v))
            && (r.Match? ==> rest == [] && line[i] == OpenerOf(a))
  {
    var stack := [a] + rest;
    assert stack[1..] == rest;
    if Top(stack) == '>' {
      PopAngle(a, rest, '>');
    }
  }

  lemma AnchoredOtherBack(a: char, line: string, i: nat, rest: string, v: string)
    requires i < |line| && IsCloser(a) && IsPlain(line[i]) && line[i] != '<' && line[i] != '>' && Awaiting(v, Real(rest))
    ensures var r := BackwardStep(line, i, [a] + rest);
            && (r.Continue? ==> AwaitingAbove(a, r.stack, v))
            && !r.Match?
  {
    assert ([a] + rest)[1..] == rest;
    DropReal(a, rest, '>');
  }

  lemma AnchoredPlainBack(a: char, line: string, i: nat, rest: string, w: string)
    requires i < |line| && IsCloser(a) && IsPlain(line[i]) && Awaiting(w, Real(rest))
    ensures var r := BackwardStep(line, i, [a] + rest);
            && (r.Continue? ==> AwaitingAbove(a, r.stack, [line[i]] + w))
            && (r.Match? ==> line[i] == OpenerOf(a) && Balanced(w))
  {
    var c := line[i];
    BalancedPlain(c);
    AwaitingConcat([c], w, Real(rest));
    if c == '>' {
      AnchoredGreaterBack(a, line, i, rest, [c] + w);
    } else if c == '<' {
      AnchoredLessBack(a, line, i, rest, [c] + w);
    } else {
      AnchoredOtherBack(a, line, i, rest, [c] + w);
    }
  }

  lemma AnchoredPushBack(a: char, rest: string, c: char, w: string)
    requires IsClose(c) && Awaiting(w, Real(rest))
    ensures AwaitingAbove(a, [a] + rest + [c], [c] + w)
  {
    RealPush(rest, c);
    AwaitingClose(w, Real(rest), c);
    assert ([a] + rest + [c])[1..] == rest + [c];
  }

  lemma AnchoredStepBack(a: char, line: string, i: nat, rest: string, w: string)
    requires i < |line| && IsCloser(a) && Awaiting(w, Real(rest))
    ensures var r := BackwardStep(line, i, [a] + rest);
            && (r.Continue? ==> AwaitingAbove(a, r.stack, [line[i]] + w))
            && (r.Match? ==> line[i] == OpenerOf(a) && Balanced(w))
  {
    var c := line[i];
    if IsClose(c) {
      AnchoredPushBack(a, rest, c, w);
    } else if IsOpen(c) {
      AnchoredOpen(a, rest, c, w);
    } else {
      AnchoredPlainBack(a, line, i, rest, w);
    }
  }

  lemma SingleKeepsAwaiting(anchor: string, line: string, i: nat, stack: string, w: string)
    requires i < |line| && HoldsBack(anchor, stack, w)
    ensures var r := BackwardStep(line, i, stack);
            && (r.Continue? && r.width == 1 ==> HoldsBack(anchor, r.stack, [line[i]] + w))
            && (r.Match? ==> Begun(anchor, [line[i]] + w))
  {
    if anchor == [] {
      FreeStepBack(line, i, stack, w);
    } else {
      var a, rest := stack[0], stack[1..];
      assert stack == [a] + rest && ([line[i]] + w)[1..] == w;
      AnchoredStepBack(a, line, i, rest, w);
    }
  }

  lemma BackwardKeepsAwaiting(anchor: string, line: string, i: nat, stack: string, w: string)
    requires i < |line| && HoldsBack(anchor, stack, w)
    ensures var r := BackwardStep(line, i, stack);
            && (r.Continue? ==> r.width <= i + 1 && HoldsBack(anchor, r.stack, Consumed(line, i, r.width) + w))
            && (r.Match? ==> Begun(anchor, [line[i]] + w))
  {
    var r := BackwardStep(line, i, stack);
    SingleKeepsAwaiting(anchor, line, i, stack, w);
    if r.Continue? {
      BackwardSkips(line, i, stack);
      if r.width == 2 {
        SkipKeepsAwaiting(line, i, Real(stack[|anchor|..]), w);
      } else {
        assert Consumed(line, i, 1) == [line[i]];
      }
    }
  }

  lemma BackwardTurn(line: string, i: nat, stack: string, next: string, width: nat)
    requires i < |line| && BackwardStep(line, i, stack) == Continue(next, width)
    ensures ScanBackward(line, i, stack) == ScanBackward(line, i - width, next)
  {
  }

  lemma MoveLeft(line: string, s: nat, i: nat, width: nat, w: string)
    requires i < |line| && s <= i + 1 - width && width <= i + 1
    ensures line[s..i + 1 - width] + (Consumed(line, i, width) + w) == line[s..i + 1] + w
  {
  }

  /** What the end `r` of a scan back from `i` says of the text from there on, `w` behind it. */
  ghost predicate ScannedBack(anchor: string, line: string, i: int, w: string, r: LineResult)
    requires -1 <= i < |line|
  {
    match r
    case Found(s) => s <= i && Begun(anchor, line[s..i + 1] + w)
    case Unfinished(st) => HoldsBack(anchor, st, line[0..i + 1] + w)
    case GaveUp => true
  }

  lemma ScannedFurther(anchor: string, line: string, i: nat, width: nat, w: string, r: LineResult)
    requires i < |line| && 1 <= width <= i + 1
    requires ScannedBack(anchor, line, i - width, Consumed(line, i, width) + w, r)
    ensures ScannedBack(anchor, line, i, w, r)
  {
    if r.Found? {
      MoveLeft(line, r.pos, i, width, w);
    } else {
      MoveLeft(line, 0, i, width, w);
    }
  }

  lemma {:induction false} LineAwaiting(anchor: string, line: string, i: int, stack: string, w: string)
    requires -1 <= i < |line| && HoldsBack(anchor, stack, w)
    ensures ScannedBack(anchor, line, i, w, ScanBackward(line, i, stack))
    decreases i + 1
  {
    if i == -1 {
      assert line[0..0] + w == w;
    } else {
      BackwardKeepsAwaiting(anchor, line, i, stack, w);
      match BackwardStep(line, i, stack)
      case Continue(st, width) =>
        LineAwaiting(anchor, line, i - width, st, Consumed(line, i, width) + w);
        BackwardTurn(line, i, stack, st, width);
        ScannedFurther(anchor, line, i, width, w, ScanBackward(line, i - width, st));
      case Match => assert line[i..i + 1] == [line[i]];
      case Fail =>
    }
  }

  lemma {:induction false} RangeExtends(lines: seq<string>, l: nat, i: nat, m: nat, e: nat)
    requires l <= m && m + 1 < |lines| && i <= |lines[l]| && e <= |lines[m + 1]|
    ensures Range(lines, l, i, m + 1, e) == Range(lines, l, i, m, |lines[m]|) + lines[m + 1][0..e]
    decreases m - l
  {
    if l < m {
      RangeExtends(lines, l + 1, 0, m, e);
      ConcatAssociative(lines[l][i..], Range(lines, l + 1, 0, m, |lines[m]|), lines[m + 1][0..e]);
    } else {
      assert lines[l][i..|lines[m]|] == lines[l][i..];
    }
  }

  lemma {:induction false} ReverseFromAwaiting(anchor: string, lines: seq<string>, l: nat, i: int, stack: string, w: string)
    requires l < |lines| && -1 <= i < |lines[l]| && HoldsBack(anchor, stack, w)
    requires ReverseFrom(lines, l, i, stack).Some?
    ensures var start := ReverseFrom(lines, l, i, stack).value;
            && start.line <= l && start.pos < |lines[start.line]| && (start.line == l ==> start.pos <= i)
            && Begun(anchor, Range(lines, start.line, start.pos, l, i + 1) + w)
    decreases l
  {
    LineAwaiting(anchor, lines[l], i, stack, w);
    var r := ScanBackward(lines[l], i, stack);
    if r.Unfinished? {
      var front := lines[l][0..i + 1];
      ReverseFromAwaiting(anchor, lines, l - 1, |lines[l - 1]| - 1, r.stack, front + w);
      var start := ReverseFrom(lines, l, i, stack).value;
      RangeExtends(lines, start.line, start.pos, l - 1, i + 1);
      var back := Range(lines, start.line, start.pos, l - 1, |lines[l - 1]|);
      assert back + (front + w) == (back + front) + w;
    }
  }

  /** Whatever `ReverseCloseExpression` reports as the start, the brackets from it on are balanced. */
  lemma ReverseIsBalanced(lines: seq<string>, l: nat, p: nat)
    requires l < |lines| && p < |lines[l]| && ReverseClose(lines, l, p).Some?
    ensures var start := ReverseClose(lines, l, p).value;
            && start.line <= l && start.pos < |lines[start.line]| && (start.line == l ==> start.pos <= p)
            && Balanced(Range(lines, start.line, start.pos, l, p + 1))
  {
    BalancedEmpty();
    ReverseFromAwaiting([], lines, l, p, [], "");
    var start := ReverseClose(lines, l, p).value;
    var range := Range(lines, start.line, start.pos, l, p + 1);
    assert range + "" == range;
  }

  /** What opens `c`, balanced text, and `c`. */
  ghost predicate EnclosedBy(x: string, c: char)
    requires IsCloser(c)
  {
    exists w :: Balanced(w) && x == [OpenerOf(c)] + w + [c]
  }

  /** A '>' that is taken for the end of an arrow, for a spaced comparison or for the end of `operator>`. */
  predicate IsOperatorGreater(line: string, p: nat)
    requires p < |line|
  {
    && line[p] == '>' && p > 0
    && (line[p - 1] == '-' || IsSpacedGreaterEqual(line, p) || EndsWithOperator(line[..p]))
  }

  /** What the backward scan pushes: every closing bracket, and a '>' but for operators. */
  predicate Closes(line: string, p: nat)
    requires p < |line|
  {
    IsCloser(line[p]) && !IsOperatorGreater(line, p)
  }

  lemma BegunEncloses(c: char, w: string)
    requires IsCloser(c) && Begun([c], w)
    ensures EnclosedBy(w + [c], c)
  {
    assert w + [c] == [OpenerOf(c)] + w[1..] + [c];
  }

  lemma {:induction false} RangeFront(lines: seq<string>, l: nat, i: nat, l': nat, p: nat)
    requires l <= l' < |lines| && i <= |lines[l]| && p < |lines[l']| && (l == l' ==> i <= p)
    ensures Range(lines, l, i, l', p + 1) == Range(lines, l, i, l', p) + [lines[l'][p]]
    decreases l' - l
  {
    if l < l' {
      RangeFront(lines, l + 1, 0, l', p);
      ConcatAssociative(lines[l][i..], Range(lines, l + 1, 0, l', p), [lines[l'][p]]);
    } else {
      assert lines[l][i..p + 1] == lines[l][i..p] + [lines[l][p]];
    }
  }

  lemma CloserGoesOn(lines: seq<string>, l: nat, p: nat)
    requires l < |lines| && p < |lines[l]| && Closes(lines[l], p)
    ensures ReverseFrom(lines, l, p, []) == ReverseFrom(lines, l, p - 1, [lines[l][p]])
  {
    var c := lines[l][p];
    assert [] + [c] == [c];
    BackTurn(lines[l], p, [], [c]);
  }

  lemma CloserEncloses(lines: seq<string>, l: nat, p: nat)
    requires l < |lines| && p < |lines[l]| && Closes(lines[l], p) && ReverseFrom(lines, l, p, []).Some?
    ensures var start := ReverseFrom(lines, l, p, []).value;
            && start.line <= l && start.pos < |lines[start.line]| && (start.line == l ==> start.pos <= p)
            && EnclosedBy(Range(lines, start.line, start.pos, l, p + 1), lines[l][p])
  {
    var c := lines[l][p];
    assert [c][1..] == [];
    BalancedEmpty();
    CloserGoesOn(lines, l, p);
    ReverseFromAwaiting([c], lines, l, p - 1, [c], "");
    var start := ReverseFrom(lines, l, p, []).value;
    var rest := Range(lines, start.line, start.pos, l, p);
    assert rest + "" == rest;
    BegunEncloses(c, rest);
    RangeFront(lines, start.line, start.pos, l, p);
  }

  /** The start that `ReverseCloseExpression` reports from anything but an operator encloses a group. */
  lemma ReverseIsGroup(lines: seq<string>, l: nat, p: nat)
    requires l < |lines| && p < |lines[l]| && ReverseClose(lines, l, p).Some? && !IsOperatorGreater(lines[l], p)
    ensures var start := ReverseClose(lines, l, p).value;
            && start.line <= l && start.pos < |lines[start.line]| && (start.line == l ==> start.pos <= p)
            && IsCloser(lines[l][p]) && EnclosedBy(Range(lines, start.line, start.pos, l, p + 1), lines[l][p])
  {
    CloserEncloses(lines, l, p);
  }
}
