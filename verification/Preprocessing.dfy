/**
 `NestingState.UpdatePreprocessor` of cpplint.py: saving and restoring the nesting stack around conditionals,
 for blocks `B`, lines `L` and any effect a line has on the stack.
 */
module Preprocessing {
  import opened Sequences

  datatype Directive = If | Else | Endif | Other

  /** `_PreprocessorInfo`. */
  datatype Info<B> = Info(stackBeforeIf: seq<B>, stackBeforeElse: seq<B>, seenElse: bool)

  datatype State<B> = State(stack: seq<B>, pp: seq<Info<B>>)

  /** The first `#else` or `#elif` remembers the stack; each goes back to the stack before the `#if`. */
  function EnterElse<B>(s: State<B>): State<B>
    requires s.pp != []
  {
    var info := Last(s.pp);
    var seen := if info.seenElse then info else info.(seenElse := true, stackBeforeElse := s.stack);
    State(info.stackBeforeIf, Front(s.pp) + [seen])
  }

  function LeaveIf<B>(s: State<B>): State<B>
    requires s.pp != []
  {
    State(if Last(s.pp).seenElse then Last(s.pp).stackBeforeElse else s.stack, Front(s.pp))
  }

  function UpdatePreprocessor<B>(s: State<B>, d: Directive): State<B> {
    match d
    case If => s.(pp := s.pp + [Info(s.stack, [], false)])
    case Else => if s.pp == [] then s else EnterElse(s)
    case Endif => if s.pp == [] then s else LeaveIf(s)
    case Other => s
  }

  /** How a line is recognised, and what the rest of `Update` makes of the stack on it. */
  datatype Meaning<!B, !L> = Meaning(directive: L -> Directive, effect: (seq<B>, L) -> seq<B>)

  /** One call of `Update`. */
  function Update<B, L>(m: Meaning<B, L>, s: State<B>, line: L): State<B> {
    var t := UpdatePreprocessor(s, m.directive(line));
    State(m.effect(t.stack, line), t.pp)
  }

  function Run<B, L>(m: Meaning<B, L>, s: State<B>, lines: seq<L>): State<B>
    decreases |lines|
  {
    if lines == [] then s else Run(m, Update(m, s, lines[0]), lines[1..])
  }

  // --------------------------------------------------------------------------
  // Deleting the branches after #else and #elif
  // --------------------------------------------------------------------------

  /** For each conditional that is open, outermost first: has its `#else` or `#elif` been passed? */
  function NextFlags(flags: seq<bool>, d: Directive): seq<bool> {
    match d
    case If => flags + [false]
    case Else => if flags == [] then [] else Front(flags) + [true]
    case Endif => if flags == [] then [] else Front(flags)
    case Other => flags
  }

  function FlagsAfter<B, L>(m: Meaning<B, L>, flags: seq<bool>, lines: seq<L>): seq<bool>
    decreases |lines|
  {
    if lines == [] then flags else FlagsAfter(m, NextFlags(flags, m.directive(lines[0])), lines[1..])
  }

  /** Some open conditional has passed its `#else` or `#elif`. */
  predicate Hidden(flags: seq<bool>) {
    flags != [] && (Last(flags) || Hidden(Front(flags)))
  }

  /** The lines that are not behind an `#else` or `#elif`; the `#endif` of such a branch stays. */
  function Erase<B, L>(m: Meaning<B, L>, flags: seq<bool>, lines: seq<L>): seq<L>
    decreases |lines|
  {
    if lines == [] then []
    else
      var next := NextFlags(flags, m.directive(lines[0]));
      (if Hidden(next) then [] else [lines[0]]) + Erase(m, next, lines[1..])
  }

  /** No `#else`, `#elif` or `#endif` without an `#if` among these lines. */
  predicate NoStray<B, L>(m: Meaning<B, L>, depth: nat, lines: seq<L>)
    decreases |lines|
  {
    if lines == [] then true
    else
      match m.directive(lines[0])
      case If => NoStray(m, depth + 1, lines[1..])
      case Else => depth > 0 && NoStray(m, depth, lines[1..])
      case Endif => depth > 0 && NoStray(m, depth - 1, lines[1..])
      case Other => NoStray(m, depth, lines[1..])
  }

  /** On top of `base`, the preprocessor stack holds one entry for each open conditional, with its flag. */
  ghost predicate Matches<B(!new)>(base: seq<Info<B>>, pp: seq<Info<B>>, flags: seq<bool>)
    decreases |flags|
  {
    if flags == [] then pp == base
    else
      && pp != []
      && Last(pp).seenElse == Last(flags)
      && (!Last(flags) ==> Last(pp).stackBeforeElse == [])
      && Matches(base, Front(pp), Front(flags))
  }

  /**
   Behind an `#else`, the run over the kept lines waits where the outermost such conditional was left:
   with the stack that it has saved, and as if its `#else` had not come.
   */
  ghost predicate Waits<B(!new)>(pp: seq<Info<B>>, flags: seq<bool>, kept: State<B>)
    decreases |flags|
  {
    && flags != [] && pp != []
    && if Hidden(Front(flags)) then Waits(Front(pp), Front(flags), kept)
       else kept == State(Last(pp).stackBeforeElse, Front(pp) + [Info(Last(pp).stackBeforeIf, [], false)])
  }

  /** The run over all lines and the run over the kept lines. */
  ghost predicate InStep<B(!new)>(base: seq<Info<B>>, full: State<B>, kept: State<B>, flags: seq<bool>) {
    Matches(base, full.pp, flags) && if Hidden(flags) then Waits(full.pp, flags, kept) else kept == full
  }

  /** The entry and the flag that a directive puts on top. */
  lemma StepInHiding<B(!new), L>(m: Meaning<B, L>, base: seq<Info<B>>, full: State<B>, kept: State<B>,
                                 flags: seq<bool>, line: L)
    requires InStep(base, full, kept, flags) && Hidden(NextFlags(flags, m.directive(line)))
    ensures InStep(base, Update(m, full, line), kept, NextFlags(flags, m.directive(line)))
  {
    match m.directive(line)
    case If =>
      Snoc(flags, false);
      Snoc(full.pp, Info(full.stack, [], false));
    case Else =>
      Snoc(Front(flags), true);
      Snoc(Front(full.pp), Last(EnterElse(full).pp));
      FrontLast(full.pp);
    case Endif =>
    case Other =>
  }

  lemma StepInSight<B(!new), L>(m: Meaning<B, L>, base: seq<Info<B>>, full: State<B>, kept: State<B>,
                                flags: seq<bool>, line: L)
    requires InStep(base, full, kept, flags) && !Hidden(NextFlags(flags, m.directive(line)))
    requires flags == [] && (m.directive(line) == Else || m.directive(line) == Endif) ==> base == []
    ensures InStep(base, Update(m, full, line), Update(m, kept, line), NextFlags(flags, m.directive(line)))
  {
    match m.directive(line)
    case If =>
      Snoc(flags, false);
      Snoc(full.pp, Info(full.stack, [], false));
    case Else => if flags != [] { Snoc(Front(flags), true); }
    case Endif =>
      if Hidden(flags) {
        Snoc(Front(full.pp), Info(Last(full.pp).stackBeforeIf, [], false));
      }
    case Other =>
  }

  lemma {:induction false} RunsStayInStep<B(!new), L>(m: Meaning<B, L>, base: seq<Info<B>>, full: State<B>, kept: State<B>,
                                                      flags: seq<bool>, lines: seq<L>)
    requires InStep(base, full, kept, flags)
    requires base == [] || NoStray(m, |flags|, lines)
    ensures InStep(base, Run(m, full, lines), Run(m, kept, Erase(m, flags, lines)), FlagsAfter(m, flags, lines))
    decreases |lines|
  {
    if lines != [] {
      var line := lines[0];
      var next := NextFlags(flags, m.directive(line));
      var rest := Erase(m, next, lines[1..]);
      var full' := Update(m, full, line);
      if Hidden(next) {
        StepInHiding(m, base, full, kept, flags, line);
        RunsStayInStep(m, base, full', kept, next, lines[1..]);
        assert Erase(m, flags, lines) == [] + rest == rest;
      } else {
        StepInSight(m, base, full, kept, flags, line);
        RunsStayInStep(m, base, full', Update(m, kept, line), next, lines[1..]);
        assert Erase(m, flags, lines) == [line] + rest && ([line] + rest)[1..] == rest;
      }
    }
  }

  /** What is kept holds no `#else` and no `#elif`. */
  lemma {:induction false} NoElseIsKept<B, L>(m: Meaning<B, L>, flags: seq<bool>, lines: seq<L>)
    requires NoStray(m, |flags|, lines)
    ensures forall line :: line in Erase(m, flags, lines) ==> m.directive(line) != Else
    decreases |lines|
  {
    if lines != [] {
      var next := NextFlags(flags, m.directive(lines[0]));
      NoElseIsKept(m, next, lines[1..]);
      if m.directive(lines[0]) == Else {
        Snoc(Front(flags), true);
      }
    }
  }

  /**
   Erasure: over lines whose conditionals are well nested, from any state and whatever a line does to the
   stack, the state ends as if every branch behind an `#else` or `#elif` had been deleted, and the
   preprocessor stack is the one at the start.
   */
  lemma ElseBranchesDoNotCount<B(!new), L>(m: Meaning<B, L>, s: State<B>, lines: seq<L>)
    requires NoStray(m, 0, lines) && FlagsAfter(m, [], lines) == []
    ensures Run(m, s, lines) == Run(m, s, Erase(m, [], lines))
    ensures Run(m, s, lines).pp == s.pp
  {
    RunsStayInStep(m, s.pp, s, s, [], lines);
  }

  /** From a new `NestingState` stray directives do no harm: it is enough that the end is not behind an `#else`. */
  lemma StrayDirectivesDoNotCount<B(!new), L>(m: Meaning<B, L>, lines: seq<L>)
    requires !Hidden(FlagsAfter(m, [], lines))
    ensures Run(m, State([], []), lines) == Run(m, State([], []), Erase(m, [], lines))
  {
    RunsStayInStep(m, [], State([], []), State([], []), [], lines);
  }

  // --------------------------------------------------------------------------
  // What is left is the effects of the kept lines, one after the other
  // --------------------------------------------------------------------------

  /** The effects of the lines on a stack, with no directive counting. */
  function EffectsAlone<B, L>(m: Meaning<B, L>, stack: seq<B>, lines: seq<L>): seq<B>
    decreases |lines|
  {
    if lines == [] then stack else EffectsAlone(m, m.effect(stack, lines[0]), lines[1..])
  }

  /** The entries of the `depth` innermost conditionals have seen no `#else`. */
  predicate NoElseYet<B>(pp: seq<Info<B>>, depth: nat) {
    depth <= |pp| && forall k :: |pp| - depth <= k < |pp| ==> !pp[k].seenElse
  }

  /** Without `#else` and `#elif`, conditionals change nothing. */
  lemma {:induction false} PlainConditionals<B, L>(m: Meaning<B, L>, s: State<B>, depth: nat, lines: seq<L>)
    requires NoElseYet(s.pp, depth) && NoStray(m, depth, lines)
    requires forall line :: line in lines ==> m.directive(line) != Else
    ensures Run(m, s, lines).stack == EffectsAlone(m, s.stack, lines)
    decreases |lines|
  {
    if lines != [] {
      assert lines[0] in lines;
      var d := m.directive(lines[0]);
      var next := if d == If then depth + 1 else if d == Endif then depth - 1 else depth;
      assert forall line :: line in lines[1..] ==> line in lines;
      PlainConditionals(m, Update(m, s, lines[0]), next, lines[1..]);
    }
  }

  /** How many conditionals are open among the kept lines. */
  function KeptDepth(flags: seq<bool>): nat {
    if flags != [] && Hidden(Front(flags)) then KeptDepth(Front(flags)) else |flags|
  }

  /** What one line does to that number. */
  lemma KeptDepthSteps(flags: seq<bool>, d: Directive)
    requires flags != [] || (d != Else && d != Endif)
    ensures var next := NextFlags(flags, d);
            if Hidden(next) then KeptDepth(next) == KeptDepth(flags)
            else d != Else && (d == Endif ==> KeptDepth(flags) > 0)
                 && KeptDepth(next) == (if d == If then KeptDepth(flags) + 1
                                        else if d == Endif then KeptDepth(flags) - 1 else KeptDepth(flags))
  {
    match d
    case If => Snoc(flags, false);
    case Else => Snoc(Front(flags), true);
    case Endif => if !Hidden(Front(flags)) { VisibleDepth(Front(flags)); }
    case Other =>
  }

  lemma VisibleDepth(flags: seq<bool>)
    requires !Hidden(flags)
    ensures KeptDepth(flags) == |flags|
  {
  }

  lemma {:induction false} KeptIsNested<B, L>(m: Meaning<B, L>, flags: seq<bool>, lines: seq<L>)
    requires NoStray(m, |flags|, lines)
    ensures NoStray(m, KeptDepth(flags), Erase(m, flags, lines))
    decreases |lines|
  {
    if lines != [] {
      var line := lines[0];
      var next := NextFlags(flags, m.directive(line));
      var rest := Erase(m, next, lines[1..]);
      KeptDepthSteps(flags, m.directive(line));
      KeptIsNested(m, next, lines[1..]);
      if Hidden(next) {
        assert [] + rest == rest;
      } else {
        assert ([line] + rest)[1..] == rest;
      }
    }
  }

  /**
   The stack after lines with well-nested conditionals is what the effects of the kept lines make of the stack
   before, one after the other: no directive has any effect of its own.
   */
  lemma OnlyKeptLinesCount<B(!new), L>(m: Meaning<B, L>, s: State<B>, lines: seq<L>)
    requires NoStray(m, 0, lines) && FlagsAfter(m, [], lines) == []
    ensures Run(m, s, lines) == State(EffectsAlone(m, s.stack, Erase(m, [], lines)), s.pp)
  {
    ElseBranchesDoNotCount(m, s, lines);
    NoElseIsKept(m, [], lines);
    KeptIsNested(m, [], lines);
    PlainConditionals(m, s, 0, Erase(m, [], lines));
  }

  // --------------------------------------------------------------------------
  // Where the stack stands behind an #else
  // --------------------------------------------------------------------------

  /** With `depth` conditionals open, the outermost one of them stays open throughout, and in the end only that is. */
  predicate StaysInside<B, L>(m: Meaning<B, L>, depth: nat, lines: seq<L>)
    decreases |lines|
  {
    if lines == [] then depth == 1
    else
      match m.directive(lines[0])
      case If => StaysInside(m, depth + 1, lines[1..])
      case Else => StaysInside(m, depth, lines[1..])
      case Endif => depth > 1 && StaysInside(m, depth - 1, lines[1..])
      case Other => StaysInside(m, depth, lines[1..])
  }

  /** The entry of the outermost of `depth` open conditionals remembers the stack `before` its `#if`. */
  predicate Remembers<B(==)>(base: seq<Info<B>>, pp: seq<Info<B>>, depth: nat, before: seq<B>) {
    depth > 0 && |pp| == |base| + depth && pp[..|base|] == base && pp[|base|].stackBeforeIf == before
  }

  lemma {:induction false} InsideRemembers<B, L>(m: Meaning<B, L>, base: seq<Info<B>>, s: State<B>, depth: nat,
                                                 before: seq<B>, lines: seq<L>)
    requires Remembers(base, s.pp, depth, before) && StaysInside(m, depth, lines)
    ensures Remembers(base, Run(m, s, lines).pp, 1, before)
    decreases |lines|
  {
    if lines != [] {
      var d := m.directive(lines[0]);
      var next := if d == If then depth + 1 else if d == Endif then depth - 1 else depth;
      InsideRemembers(m, base, Update(m, s, lines[0]), next, before, lines[1..]);
    }
  }

  lemma {:induction false} RunConcat<B, L>(m: Meaning<B, L>, s: State<B>, first: seq<L>, second: seq<L>)
    ensures Run(m, s, first + second) == Run(m, Run(m, s, first), second)
    decreases |first|
  {
    if first == [] {
      assert first + second == second;
    } else {
      RunConcat(m, Update(m, s, first[0]), first[1..], second);
      assert (first + second)[1..] == first[1..] + second;
    }
  }

  /**
   An `#else` or `#elif`, the first or a later one of its conditional, goes back to the stack before the `#if`,
   whatever the branches before it did, with any conditionals inside them.
   */
  lemma ElseStartsOver<B, L>(m: Meaning<B, L>, s: State<B>, ifLine: L, branches: seq<L>, elseLine: L)
    requires m.directive(ifLine) == If && m.directive(elseLine) == Else && StaysInside(m, 1, branches)
    ensures Run(m, s, [ifLine] + branches + [elseLine]).stack == m.effect(s.stack, elseLine)
  {
    var t := Update(m, s, ifLine);
    InsideRemembers(m, s.pp, t, 1, s.stack, branches);
    RunConcat(m, s, [ifLine] + branches, [elseLine]);
    assert ([ifLine] + branches)[1..] == branches;
    var u := Run(m, t, branches);
    assert u == Run(m, s, [ifLine] + branches);
    assert Run(m, u, [elseLine]) == Run(m, Update(m, u, elseLine), [elseLine][1..]) == Update(m, u, elseLine);
  }
}
