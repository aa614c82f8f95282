/**
 `NestingState` of cpplint.py: the stack of open blocks, updated line by line.
 */
module Nesting {
  import opened Characters
  import opened Preprocessing
  import opened Sequences
  import opened Wrappers

  datatype Kind = PlainBlock | ExternC | ClassBlock | NamespaceBlock

  datatype Asm = NoAsm | InsideAsm | EndAsm | BlockAsm

  /** `_BlockInfo` and its subclasses, as far as the stack depends on them. */
  datatype Block = Block(kind: Kind, startingLinenum: nat, seenOpenBrace: bool, openParentheses: int, inlineAsm: Asm)

  /** A cleansed line and its number. */
  datatype Line = Line(linenum: nat, text: string)

  /**
   The patterns left abstract: `extern "C" {` and `asm` at the start of some text, and a class head that
   is not a template argument, with the text behind it.
   */
  datatype Patterns = Patterns(externC: string -> bool, asm: string -> bool, classHead: Line -> Option<string>)

  function NewBlock(kind: Kind, linenum: nat, seenOpenBrace: bool): Block {
    Block(kind, linenum, seenOpenBrace, 0, NoAsm)
  }

  // --------------------------------------------------------------------------
  // Recognising lines
  // --------------------------------------------------------------------------

  function SkipSpaces(s: string): (r: string)
    ensures |r| <= |s|
  {
    if s != [] && IsSpace(s[0]) then SkipSpaces(s[1..]) else s
  }

  /** What is left behind `[:\w]*`. */
  function SkipName(s: string): (r: string)
    ensures |r| <= |s|
  {
    if s != [] && (s[0] == ':' || IsWord(s[0])) then SkipName(s[1..]) else s
  }

  /** The word at the start of `s`, up to a word boundary. */
  function FirstWord(s: string): (w: string)
    ensures |w| <= |s| && s[..|w|] == w
  {
    if s != [] && IsWord(s[0]) then [s[0]] + FirstWord(s[1..]) else []
  }

  /** The three patterns of `UpdatePreprocessor`: `#`, then a whole word, white space allowed around `#`. */
  function DirectiveOf(line: Line): Directive {
    var s := SkipSpaces(line.text);
    if s == [] || s[0] != '#' then Other
    else
      var word := FirstWord(SkipSpaces(s[1..]));
      if word == "if" || word == "ifdef" || word == "ifndef" then If
      else if word == "else" || word == "elif" then Else
      else if word == "endif" then Endif
      else Other
  }

  /** Group 2 of the pattern for a namespace head: what follows the name, if there is one. */
  function NamespaceHead(s: string): (r: Option<string>)
    ensures r.Some? ==> |r.value| < |s|
  {
    var t := SkipSpaces(s);
    if FirstWord(t) == "namespace" then Some(SkipName(SkipSpaces(t[9..]))) else None
  }

  function Count(s: string, c: char): nat {
    if s == [] then 0 else (if s[0] == c then 1 else 0) + Count(s[1..], c)
  }

  /** `line[line.find(c) + 1:]`, if `c` occurs. */
  function After(s: string, c: char): (r: Option<string>)
    ensures r.Some? ==> |r.value| < |s|
    ensures r.None? <==> c !in s
  {
    if s == [] then None else if s[0] == c then Some(s[1..]) else After(s[1..], c)
  }

  // --------------------------------------------------------------------------
  // The effect of a line on the stack
  // --------------------------------------------------------------------------

  predicate SeenOpenBrace(stack: seq<Block>) {
    stack == [] || Last(stack).seenOpenBrace
  }

  /** Parentheses and inline assembly of the innermost block. */
  function CountParentheses(p: Patterns, stack: seq<Block>, text: string): seq<Block> {
    if stack == [] then stack
    else
      var depthChange := Count(text, '(') - Count(text, ')');
      var open := Last(stack).openParentheses + depthChange;
      var asm := match Last(stack).inlineAsm
        case NoAsm => if depthChange != 0 && open == 1 && p.asm(text) then InsideAsm else NoAsm
        case EndAsm => if depthChange != 0 && open == 1 && p.asm(text) then InsideAsm else NoAsm
        case InsideAsm => if open == 0 then EndAsm else InsideAsm
        case BlockAsm => BlockAsm;
      Front(stack) + [Last(stack).(openParentheses := open, inlineAsm := asm)]
  }

  /** The loop over namespace heads at the start of the line: the stack and the text that is left. */
  function ConsumeNamespaces(linenum: nat, stack: seq<Block>, text: string): (seq<Block>, string)
    decreases |text|
  {
    match NamespaceHead(text)
    case None => (stack, text)
    case Some(rest) =>
      match After(rest, '{')
      case None => ConsumeNamespaces(linenum, stack + [NewBlock(NamespaceBlock, linenum, false)], rest)
      case Some(body) => ConsumeNamespaces(linenum, stack + [NewBlock(NamespaceBlock, linenum, true)], body)
  }

  function ConsumeClass(p: Patterns, stack: seq<Block>, line: Line): (seq<Block>, string) {
    match p.classHead(line)
    case None => (stack, line.text)
    case Some(rest) =>
      if stack == [] || Last(stack).openParentheses == 0 then
        (stack + [NewBlock(ClassBlock, line.linenum, false)], rest)
      else (stack, line.text)
  }

  predicate IsToken(c: char) {
    c == '{' || c == ';' || c == ')' || c == '}'
  }

  /** One turn of the brace loop, at a token with `text` left of the line before this turn. */
  function ConsumeToken(p: Patterns, linenum: nat, stack: seq<Block>, text: string, token: char): seq<Block> {
    if token == '{' then
      if !SeenOpenBrace(stack) then Front(stack) + [Last(stack).(seenOpenBrace := true)]
      else if p.externC(text) then stack + [NewBlock(ExternC, linenum, true)]
      else stack + [NewBlock(PlainBlock, linenum, true).(inlineAsm := if p.asm(text) then BlockAsm else NoAsm)]
    else if token == ';' || token == ')' then
      if !SeenOpenBrace(stack) then Front(stack) else stack
    else if stack != [] then Front(stack) else stack
  }

  /** Position of the first token; |text| if there is none. */
  function FirstToken(text: string): (k: nat)
    ensures k <= |text| && (k < |text| ==> IsToken(text[k]))
    ensures forall i :: 0 <= i < k ==> !IsToken(text[i])
  {
    if text == [] || IsToken(text[0]) then 0 else 1 + FirstToken(text[1..])
  }

  /** The brace loop. */
  function ConsumeBraces(p: Patterns, linenum: nat, stack: seq<Block>, text: string): seq<Block>
    decreases |text|
  {
    var k := FirstToken(text);
    if k == |text| then stack
    else ConsumeBraces(p, linenum, ConsumeToken(p, linenum, stack, text, text[k]), text[k + 1..])
  }

  lemma BracesTurn(p: Patterns, linenum: nat, stack: seq<Block>, text: string)
    requires FirstToken(text) < |text|
    ensures var k := FirstToken(text);
            ConsumeBraces(p, linenum, stack, text)
            == ConsumeBraces(p, linenum, ConsumeToken(p, linenum, stack, text, text[k]), text[k + 1..])
  {
  }

  /** Everything `Update` does to the stack after `UpdatePreprocessor`. */
  function Effect(p: Patterns, stack: seq<Block>, line: Line): seq<Block> {
    var (inNamespaces, text) := ConsumeNamespaces(line.linenum, CountParentheses(p, stack, line.text), line.text);
    var (inClass, rest) := ConsumeClass(p, inNamespaces, Line(line.linenum, text));
    ConsumeBraces(p, line.linenum, inClass, rest)
  }

  function LineMeaning(p: Patterns): Meaning<Block, Line> {
    Meaning(DirectiveOf, (stack, line) => Effect(p, stack, line))
  }

  class NestingState {
    var stack: seq<Block>
    var ppStack: seq<Info<Block>>
    var previousStackTop: Option<Block>
    const patterns: Patterns

    ghost function Abstract(): State<Block>
      reads this
    {
      State(stack, ppStack)
    }

    constructor (patterns: Patterns)
      ensures this.patterns == patterns && Abstract() == State([], [])
    {
      this.patterns := patterns;
      stack := [];
      ppStack := [];
      previousStackTop := None;
    }

    /** `UpdatePreprocessor`; its deep copies are values here. */
    method UpdatePreprocessor(line: Line)
      modifies this
      ensures Abstract() == Preprocessing.UpdatePreprocessor(old(Abstract()), DirectiveOf(line))
      ensures previousStackTop == old(previousStackTop)
    {
      var directive := DirectiveOf(line);
      if directive == If {
        ppStack := ppStack + [Info(stack, [], false)];
      } else if directive == Else {
        if ppStack != [] {
          var top := Last(ppStack);
          if !top.seenElse {
            top := top.(seenElse := true, stackBeforeElse := stack);
          }
          ppStack := Front(ppStack) + [top];
          stack := top.stackBeforeIf;
        }
      } else if directive == Endif {
        if ppStack != [] {
          if Last(ppStack).seenElse {
            stack := Last(ppStack).stackBeforeElse;
          }
          ppStack := Front(ppStack);
        }
      }
    }

    /** `Update`. */
    method Update(line: Line)
      modifies this
      ensures Abstract() == Preprocessing.Update(LineMeaning(patterns), old(Abstract()), line)
      ensures previousStackTop == if old(stack) == [] then None else Some(Last(old(stack)))
    {
      previousStackTop := if stack != [] then Some(Last(stack)) else None;
      UpdatePreprocessor(line);
      ghost var before := stack;
      stack := CountParentheses(patterns, stack, line.text);
      var text := line.text;
      var head := NamespaceHead(text);
      while head.Some?
        invariant head == NamespaceHead(text)
        invariant ppStack == Preprocessing.UpdatePreprocessor(old(Abstract()), DirectiveOf(line)).pp
        invariant previousStackTop == if old(stack) == [] then None else Some(Last(old(stack)))
        invariant ConsumeNamespaces(line.linenum, stack, text)
               == ConsumeNamespaces(line.linenum, CountParentheses(patterns, before, line.text), line.text)
        decreases |text|
      {
        var body := After(head.value, '{');
        stack := stack + [NewBlock(NamespaceBlock, line.linenum, body.Some?)];
        text := if body.Some? then body.value else head.value;
        head := NamespaceHead(text);
      }
      var classHead := patterns.classHead(Line(line.linenum, text));
      if classHead.Some? && (stack == [] || Last(stack).openParentheses == 0) {
        stack := stack + [NewBlock(ClassBlock, line.linenum, false)];
        text := classHead.value;
      }
      ConsumeRest(line.linenum, text);
    }

    /** One turn of the brace loop. */
    method ConsumeOne(linenum: nat, text: string, token: char)
      modifies this`stack
      ensures stack == ConsumeToken(patterns, linenum, old(stack), text, token)
    {
      if token == '{' {
        if !SeenOpenBrace(stack) {
          stack := Front(stack) + [Last(stack).(seenOpenBrace := true)];
        } else if patterns.externC(text) {
          stack := stack + [NewBlock(ExternC, linenum, true)];
        } else {
          var asm := if patterns.asm(text) then BlockAsm else NoAsm;
          stack := stack + [NewBlock(PlainBlock, linenum, true).(inlineAsm := asm)];
        }
      } else if token == ';' || token == ')' {
        if !SeenOpenBrace(stack) {
          stack := Front(stack);
        }
      } else if stack != [] {
        stack := Front(stack);
      }
    }

    /** The brace loop at the end of `Update`. */
    method ConsumeRest(linenum: nat, rest: string)
      modifies this`stack
      ensures stack == ConsumeBraces(patterns, linenum, old(stack), rest)
    {
      var text := rest;
      var k := FirstToken(text);
      while k < |text|
        invariant k == FirstToken(text)
        invariant ConsumeBraces(patterns, linenum, stack, text) == ConsumeBraces(patterns, linenum, old(stack), rest)
        decreases |text|
      {
        BracesTurn(patterns, linenum, stack, text);
        ConsumeOne(linenum, text, text[k]);
        text := text[k + 1..];
        k := FirstToken(text);
      }
    }

    /** A file, line by line. If its conditionals are well nested, what follows an `#else` or `#elif` does not count. */
    method UpdateAll(lines: seq<Line>)
      modifies this
      ensures Abstract() == Run(LineMeaning(patterns), old(Abstract()), lines)
      ensures NoStray(LineMeaning(patterns), 0, lines) && FlagsAfter(LineMeaning(patterns), [], lines) == [] ==>
                && ppStack == old(ppStack)
                && stack == EffectsAlone(LineMeaning(patterns), old(stack), Erase(LineMeaning(patterns), [], lines))
    {
      if NoStray(LineMeaning(patterns), 0, lines) && FlagsAfter(LineMeaning(patterns), [], lines) == [] {
        OnlyKeptLinesCount(LineMeaning(patterns), old(Abstract()), lines);
      }
      var i := 0;
      assert lines[0..] == lines;
      while i < |lines|
        invariant 0 <= i <= |lines|
        invariant Run(LineMeaning(patterns), Abstract(), lines[i..]) == Run(LineMeaning(patterns), old(Abstract()), lines)
      {
        Update(lines[i]);
        assert lines[i..][1..] == lines[i + 1..];
        i := i + 1;
      }
    }
  }

  // --------------------------------------------------------------------------
  // Balanced braces leave the stack alone
  // --------------------------------------------------------------------------

  /** Read from the left with `depth` braces open, every '}' closes one, and in the end none is open. */
  predicate BracesBalance(text: string, depth: nat) {
    if text == [] then depth == 0
    else if text[0] == '{' then BracesBalance(text[1..], depth + 1)
    else if text[0] == '}' then depth > 0 && BracesBalance(text[1..], depth - 1)
    else BracesBalance(text[1..], depth)
  }

  lemma {:induction false} SkipToToken(text: string, depth: nat)
    ensures var k := FirstToken(text);
            BracesBalance(text, depth) == BracesBalance(text[k..], depth)
  {
    if text != [] && !IsToken(text[0]) {
      SkipToToken(text[1..], depth);
      var k := FirstToken(text[1..]);
      assert text[k + 1..] == text[1..][k..];
    } else {
      assert text[0..] == text;
    }
  }

  /**
   If the innermost block has seen its brace, text with balanced braces leaves the stack as it was: each
   block it opens it closes, and no ';' or ')' in it removes a block.
   */
  lemma {:induction false} BalancedBracesKeepStack(p: Patterns, linenum: nat, stack: seq<Block>, inner: seq<Block>,
                                                  text: string)
    requires SeenOpenBrace(stack) && forall b :: b in inner ==> b.seenOpenBrace
    requires BracesBalance(text, |inner|)
    ensures ConsumeBraces(p, linenum, stack + inner, text) == stack
    decreases |text|
  {
    var k := FirstToken(text);
    SkipToToken(text, |inner|);
    assert SeenOpenBrace(stack + inner) by {
      if inner != [] {
        assert Last(stack + inner) == Last(inner) && Last(inner) in inner;
      }
    }
    if k == |text| {
      assert stack + inner == stack;
    } else {
      assert text[k..][0] == text[k] && text[k..][1..] == text[k + 1..];
      var next := ConsumeToken(p, linenum, stack + inner, text, text[k]);
      if text[k] == '{' {
        var block := Last(next);
        assert next == stack + (inner + [block]);
        BalancedBracesKeepStack(p, linenum, stack, inner + [block], text[k + 1..]);
      } else if text[k] == '}' {
        assert next == stack + Front(inner);
        BalancedBracesKeepStack(p, linenum, stack, Front(inner), text[k + 1..]);
      } else {
        BalancedBracesKeepStack(p, linenum, stack, inner, text[k + 1..]);
      }
    }
  }
}
