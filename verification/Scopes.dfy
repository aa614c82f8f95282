/**
 What a line does to the nesting stack of cpplint.py, told by what the line looks like: directives, namespace and
 class heads, braces, parentheses.
 */
module Scopes {
  import opened Characters
  import opened Nesting
  import opened Preprocessing
  import opened Sequences
  import opened Wrappers

  // --------------------------------------------------------------------------
  // Directives and namespace heads
  // --------------------------------------------------------------------------

  predicate AllSpace(s: string) {
    forall i :: 0 <= i < |s| ==> IsSpace(s[i])
  }

  /** `#` and this whole word, with nothing but white space before each. */
  ghost predicate HasDirective(text: string, word: string) {
    exists a, b, c :: DirectiveIs(text, word, a, b, c)
  }

  predicate DirectiveIs(text: string, word: string, a: string, b: string, c: string) {
    text == a + ['#'] + b + word + c && AllSpace(a) && AllSpace(b) && (c == [] || !IsWord(c[0]))
  }

  lemma {:induction false} SpacesSkipped(a: string, rest: string)
    requires AllSpace(a) && (rest == [] || !IsSpace(rest[0]))
    ensures SkipSpaces(a + rest) == rest
  {
    if a == [] {
      assert a + rest == rest;
    } else {
      assert (a + rest)[1..] == a[1..] + rest;
      SpacesSkipped(a[1..], rest);
    }
  }

  lemma {:induction false} SpacesSplit(s: string) returns (a: string)
    ensures s == a + SkipSpaces(s) && AllSpace(a)
    ensures SkipSpaces(s) == [] || !IsSpace(SkipSpaces(s)[0])
  {
    a := [];
    if s != [] && IsSpace(s[0]) {
      a := SpacesSplit(s[1..]);
      a := [s[0]] + a;
      assert s == [s[0]] + s[1..];
    }
  }

  lemma {:induction false} WordTaken(word: string, c: string)
    requires (forall i :: 0 <= i < |word| ==> IsWord(word[i])) && (c == [] || !IsWord(c[0]))
    ensures FirstWord(word + c) == word
  {
    if word == [] {
      assert word + c == c;
    } else {
      assert (word + c)[1..] == word[1..] + c;
      WordTaken(word[1..], c);
    }
  }

  lemma {:induction false} WordSplit(s: string) returns (c: string)
    ensures s == FirstWord(s) + c && (c == [] || !IsWord(c[0]))
  {
    c := s;
    if s != [] && IsWord(s[0]) {
      c := WordSplit(s[1..]);
      assert s == [s[0]] + s[1..];
    }
  }

  /** What the matching of a directive comes to. */
  predicate WordBehindHash(text: string, word: string) {
    var s := SkipSpaces(text);
    s != [] && s[0] == '#' && FirstWord(SkipSpaces(s[1..])) == word
  }

  lemma DirectiveFound(text: string, word: string, a: string, b: string, c: string)
    requires word != [] && (forall i :: 0 <= i < |word| ==> IsWord(word[i])) && DirectiveIs(text, word, a, b, c)
    ensures WordBehindHash(text, word)
  {
    var rest := b + (word + c);
    assert text == a + (['#'] + rest) && (['#'] + rest)[1..] == rest;
    SpacesSkipped(a, ['#'] + rest);
    SpacesSkipped(b, word + c);
    WordTaken(word, c);
  }

  lemma DirectiveSplit(text: string, word: string)
    requires WordBehindHash(text, word)
    ensures HasDirective(text, word)
  {
    var s := SkipSpaces(text);
    var a := SpacesSplit(text);
    var b := SpacesSplit(s[1..]);
    var c := WordSplit(SkipSpaces(s[1..]));
    PartsJoined(text, s, a, b, word, c);
    assert DirectiveIs(text, word, a, b, c);
  }

  lemma PartsJoined(text: string, s: string, a: string, b: string, word: string, c: string)
    requires text == a + s && s != [] && s[0] == '#' && s[1..] == b + (word + c)
    ensures text == a + ['#'] + b + word + c
  {
    assert s == ['#'] + s[1..];
  }

  lemma DirectiveWord(line: Line, word: string)
    requires word != [] && (forall i :: 0 <= i < |word| ==> IsWord(word[i]))
    ensures HasDirective(line.text, word) <==> WordBehindHash(line.text, word)
  {
    if a, b, c :| DirectiveIs(line.text, word, a, b, c) {
      DirectiveFound(line.text, word, a, b, c);
    }
    if WordBehindHash(line.text, word) {
      DirectiveSplit(line.text, word);
    }
  }

  /** Which lines count as the beginning, a further branch and the end of a conditional. */
  lemma DirectiveMeans(line: Line)
    ensures DirectiveOf(line) == If
       <==> HasDirective(line.text, "if") || HasDirective(line.text, "ifdef") || HasDirective(line.text, "ifndef")
    ensures DirectiveOf(line) == Else <==> HasDirective(line.text, "else") || HasDirective(line.text, "elif")
    ensures DirectiveOf(line) == Endif <==> HasDirective(line.text, "endif")
  {
    DirectiveWord(line, "if");
    DirectiveWord(line, "ifdef");
    DirectiveWord(line, "ifndef");
    DirectiveWord(line, "else");
    DirectiveWord(line, "elif");
    DirectiveWord(line, "endif");
  }

  predicate IsName(s: string) {
    forall i :: 0 <= i < |s| ==> s[i] == ':' || IsWord(s[i])
  }

  /** A namespace head: the word, a name or none, and what is behind it. */
  predicate HeadIs(text: string, a: string, b: string, name: string, rest: string) {
    && text == a + "namespace" + b + name + rest && AllSpace(a) && AllSpace(b) && IsName(name)
    && (rest == [] || (rest[0] != ':' && !IsWord(rest[0]) && (name == [] ==> !IsSpace(rest[0]))))
    && (b == [] && name != [] ==> name[0] == ':')
  }

  lemma {:induction false} NameSkipped(name: string, rest: string)
    requires IsName(name) && (rest == [] || (rest[0] != ':' && !IsWord(rest[0])))
    ensures SkipName(name + rest) == rest
  {
    if name == [] {
      assert name + rest == rest;
    } else {
      assert (name + rest)[1..] == name[1..] + rest;
      NameSkipped(name[1..], rest);
    }
  }

  lemma HeadFound(text: string, a: string, b: string, name: string, rest: string)
    requires HeadIs(text, a, b, name, rest)
    ensures NamespaceHead(text) == Some(rest)
  {
    var word, behind := "namespace", b + (name + rest);
    assert text == a + (word + behind) && (word + behind)[9..] == behind;
    SpacesSkipped(a, word + behind);
    WordTaken(word, behind);
    SpacesSkipped(b, name + rest);
    NameSkipped(name, rest);
  }

  // --------------------------------------------------------------------------
  // Braces
  // --------------------------------------------------------------------------

  /** Read from the left with `open` braces open: how many '}' find none open, and how many are open in the end. */
  function Unmatched(text: string, open: nat): (nat, nat) {
    if text == [] then (0, open)
    else if text[0] == '{' then Unmatched(text[1..], open + 1)
    else if text[0] != '}' then Unmatched(text[1..], open)
    else if open > 0 then Unmatched(text[1..], open - 1)
    else
      var (closers, openers) := Unmatched(text[1..], 0);
      (closers + 1, openers)
  }

  /** All blocks but the `n` innermost ones. */
  function Without(stack: seq<Block>, n: nat): seq<Block> {
    if n >= |stack| then [] else stack[..|stack| - n]
  }

  /** A block above by a brace on this line. */
  predicate IsOpened(b: Block, linenum: nat) {
    (b.kind == PlainBlock || b.kind == ExternC) && b.startingLinenum == linenum && b.seenOpenBrace && b.openParentheses == 0
  }

  lemma {:induction false} UnmatchedToToken(text: string, open: nat)
    ensures Unmatched(text, open) == Unmatched(text[FirstToken(text)..], open)
  {
    if text != [] && !IsToken(text[0]) {
      UnmatchedToToken(text[1..], open);
      var k := FirstToken(text[1..]);
      assert text[k + 1..] == text[1..][k..];
    } else {
      assert text[0..] == text;
    }
  }

  lemma LastSeen(stack: seq<Block>, inner: seq<Block>)
    requires (forall b :: b in stack ==> b.seenOpenBrace) && (forall b :: b in inner ==> b.seenOpenBrace)
    ensures SeenOpenBrace(stack + inner)
  {
    if inner != [] {
      assert Last(stack + inner) == Last(inner) && Last(inner) in inner;
    } else if stack != [] {
      assert stack + inner == stack && Last(stack) in stack;
    }
  }

  /**
   Braces pair up as usual: what the line closes without having above it is taken off the stack, and what it
   opens without closing it is on top in the end. No other token matters.
   */
  lemma {:induction false} BracesPair(p: Patterns, linenum: nat, stack: seq<Block>, inner: seq<Block>, text: string)
      returns (above: seq<Block>)
    requires (forall b :: b in stack ==> b.seenOpenBrace) && (forall b :: b in inner ==> IsOpened(b, linenum))
    ensures var (closers, openers) := Unmatched(text, |inner|);
            && ConsumeBraces(p, linenum, stack + inner, text) == Without(stack, closers) + above
            && |above| == openers && forall b :: b in above ==> IsOpened(b, linenum)
    decreases |text|
  {
    var k := FirstToken(text);
    UnmatchedToToken(text, |inner|);
    LastSeen(stack, inner);
    if k == |text| {
      above := inner;
      assert Without(stack, 0) == stack;
    } else {
      assert text[k..][0] == text[k] && text[k..][1..] == text[k + 1..];
      var next := ConsumeToken(p, linenum, stack + inner, text, text[k]);
      if text[k] == '{' {
        assert next == stack + (inner + [Last(next)]);
        above := BracesPair(p, linenum, stack, inner + [Last(next)], text[k + 1..]);
      } else if text[k] == '}' {
        above := ClosePairs(p, linenum, stack, inner, text, k);
      } else {
        above := BracesPair(p, linenum, stack, inner, text[k + 1..]);
      }
    }
  }

  lemma {:induction false} ClosePairs(p: Patterns, linenum: nat, stack: seq<Block>, inner: seq<Block>, text: string, k: nat)
      returns (above: seq<Block>)
    requires (forall b :: b in stack ==> b.seenOpenBrace) && (forall b :: b in inner ==> IsOpened(b, linenum))
    requires k < |text| && text[k] == '}'
    ensures var (closers, openers) := Unmatched([text[k]] + text[k + 1..], |inner|);
            && ConsumeBraces(p, linenum, ConsumeToken(p, linenum, stack + inner, text, '}'), text[k + 1..])
               == Without(stack, closers) + above
            && |above| == openers && forall b :: b in above ==> IsOpened(b, linenum)
    decreases |text|, 0
  {
    var rest := text[k + 1..];
    assert ([text[k]] + rest)[1..] == rest;
    if inner != [] {
      assert ConsumeToken(p, linenum, stack + inner, text, '}') == stack + Front(inner);
      above := BracesPair(p, linenum, stack, Front(inner), rest);
    } else {
      var less := if stack == [] then [] else Front(stack);
      assert stack + inner == stack && ConsumeToken(p, linenum, stack, text, '}') == less + [];
      above := BracesPair(p, linenum, less, [], rest);
      var closers := Unmatched(rest, 0).0;
      assert Without(less, closers) == Without(stack, closers + 1);
    }
  }

  // --------------------------------------------------------------------------
  // Parentheses
  // --------------------------------------------------------------------------

  lemma {:induction false} CountIsMultiplicity(s: string, c: char)
    ensures Count(s, c) == multiset(s)[c]
  {
    if s != [] {
      CountIsMultiplicity(s[1..], c);
      assert s == [s[0]] + s[1..];
    }
  }

  /** How many more '(' than ')' a line has. */
  function Depth(text: string): int {
    multiset(text)['('] as int - multiset(text)[')'] as int
  }

  /** The innermost block alone is touched: its open parentheses are counted, and whether it is in an `asm`. */
  lemma ParenthesesCounted(p: Patterns, stack: seq<Block>, text: string)
    requires stack != []
    ensures var r, top := CountParentheses(p, stack, text), Last(stack);
            var open := top.openParentheses + Depth(text);
            && r != [] && Front(r) == Front(stack)
            && Last(r) == top.(openParentheses := open, inlineAsm := Last(r).inlineAsm)
            && (top.inlineAsm == BlockAsm ==> Last(r).inlineAsm == BlockAsm)
            && (top.inlineAsm == InsideAsm ==> Last(r).inlineAsm == if open == 0 then EndAsm else InsideAsm)
            && (top.inlineAsm == NoAsm || top.inlineAsm == EndAsm ==>
                  Last(r).inlineAsm == if Depth(text) != 0 && open == 1 && p.asm(text) then InsideAsm else NoAsm)
  {
    CountIsMultiplicity(text, '(');
    CountIsMultiplicity(text, ')');
  }

  lemma CountKeepsSeen(p: Patterns, stack: seq<Block>, text: string)
    requires AllSeen(stack)
    ensures AllSeen(CountParentheses(p, stack, text))
  {
    if stack != [] {
      ParenthesesCounted(p, stack, text);
      var r := CountParentheses(p, stack, text);
      FrontLast(stack);
      FrontLast(r);
      forall b | b in r ensures b.seenOpenBrace {
        assert b in Front(stack) || b == Last(r);
        assert forall x :: x in Front(stack) ==> x in stack;
      }
    }
  }

  predicate AllSeen(stack: seq<Block>) {
    forall b :: b in stack ==> b.seenOpenBrace
  }

  // --------------------------------------------------------------------------
  // Whole lines
  // --------------------------------------------------------------------------

  /** `r` is `stack` after the braces of `text`, as they pair up. */
  ghost predicate AfterBraces(r: seq<Block>, stack: seq<Block>, text: string, linenum: nat) {
    exists above :: EndsWithBlocks(r, stack, text, linenum, above)
  }

  ghost predicate EndsWithBlocks(r: seq<Block>, stack: seq<Block>, text: string, linenum: nat, above: seq<Block>) {
    var (closers, openers) := Unmatched(text, 0);
    r == Without(stack, closers) + above && |above| == openers && forall b :: b in above ==> IsOpened(b, linenum)
  }

  lemma BracesEnd(p: Patterns, linenum: nat, stack: seq<Block>, text: string)
    requires AllSeen(stack)
    ensures AfterBraces(ConsumeBraces(p, linenum, stack, text), stack, text, linenum)
  {
    assert stack + [] == stack;
    var above := BracesPair(p, linenum, stack, [], text);
    assert EndsWithBlocks(ConsumeBraces(p, linenum, stack, text), stack, text, linenum, above);
  }

  // In what follows `counted` is the stack once the parentheses of the line have been counted.

  /** A line without any head, or with a class head inside parentheses: only its braces count. */
  lemma PlainLine(p: Patterns, stack: seq<Block>, line: Line, counted: seq<Block>)
    requires AllSeen(stack) && counted == CountParentheses(p, stack, line.text) && NamespaceHead(line.text) == None
    requires p.classHead(line) == None || (counted != [] && Last(counted).openParentheses != 0)
    ensures AfterBraces(Effect(p, stack, line), counted, line.text, line.linenum)
  {
    CountKeepsSeen(p, stack, line.text);
    assert Line(line.linenum, line.text) == line;
    BracesEnd(p, line.linenum, counted, line.text);
  }

  function Namespace(linenum: nat, seen: bool): Block {
    Block(NamespaceBlock, linenum, seen, 0, NoAsm)
  }

  function Class(linenum: nat, seen: bool): Block {
    Block(ClassBlock, linenum, seen, 0, NoAsm)
  }

  /** `text` begins with `n` namespace heads, each with its brace, and goes on with `body`, which has none. */
  ghost predicate OpensNamespaces(text: string, n: nat, body: string)
    decreases n
  {
    if n == 0 then text == body && NamespaceHead(body) == None
    else exists a, b, name, c, rest :: OpensFirst(text, n, body, a, b, name, c, rest)
  }

  ghost predicate OpensFirst(text: string, n: nat, body: string, a: string, b: string, name: string, c: string,
                             rest: string)
    requires n > 0
    decreases n, 0
  {
    OpensOne(text, a, b, name, c, rest) && OpensNamespaces(rest, n - 1, body)
  }

  ghost predicate OpensOne(text: string, a: string, b: string, name: string, c: string, rest: string) {
    HeadIs(text, a, b, name, c + ['{'] + rest) && '{' !in c
  }

  function Namespaces(linenum: nat, n: nat): (r: seq<Block>)
    ensures |r| == n && forall b :: b in r ==> b == Namespace(linenum, true)
  {
    if n == 0 then [] else [Namespace(linenum, true)] + Namespaces(linenum, n - 1)
  }

  lemma {:induction false} BraceFound(c: string, rest: string)
    requires '{' !in c
    ensures After(c + ['{'] + rest, '{') == Some(rest)
  {
    if c == [] {
      assert c + ['{'] + rest == ['{'] + rest;
    } else {
      assert (c + ['{'] + rest)[1..] == c[1..] + ['{'] + rest;
      BraceFound(c[1..], rest);
    }
  }

  lemma NamespaceEntered(linenum: nat, stack: seq<Block>, text: string, a: string, b: string, name: string, c: string,
                         rest: string)
    requires OpensOne(text, a, b, name, c, rest)
    ensures ConsumeNamespaces(linenum, stack, text) == ConsumeNamespaces(linenum, stack + [Namespace(linenum, true)], rest)
  {
    HeadFound(text, a, b, name, c + ['{'] + rest);
    BraceFound(c, rest);
  }

  lemma {:induction false} NamespacesEntered(linenum: nat, stack: seq<Block>, text: string, n: nat, body: string)
    requires OpensNamespaces(text, n, body)
    ensures ConsumeNamespaces(linenum, stack, text) == (stack + Namespaces(linenum, n), body)
    decreases n
  {
    if n == 0 {
      assert stack + [] == stack;
    } else {
      var a, b, name, c, rest :| OpensFirst(text, n, body, a, b, name, c, rest);
      NamespaceEntered(linenum, stack, text, a, b, name, c, rest);
      NamespacesEntered(linenum, stack + [Namespace(linenum, true)], rest, n - 1, body);
      ConcatAssociative(stack, [Namespace(linenum, true)], Namespaces(linenum, n - 1));
    }
  }

  /** A line that begins with namespaces: one open block for each, then the braces of the rest. */
  lemma NamespaceLine(p: Patterns, stack: seq<Block>, line: Line, counted: seq<Block>, n: nat, body: string)
    requires AllSeen(stack) && counted == CountParentheses(p, stack, line.text)
    requires OpensNamespaces(line.text, n, body) && p.classHead(Line(line.linenum, body)) == None
    ensures AfterBraces(Effect(p, stack, line), counted + Namespaces(line.linenum, n), body, line.linenum)
  {
    CountKeepsSeen(p, stack, line.text);
    NamespacesEntered(line.linenum, counted, line.text, n, body);
    BracesEnd(p, line.linenum, counted + Namespaces(line.linenum, n), body);
  }

  /** What becomes of a head that waits for its brace: it gets it, it is dropped, or it goes on waiting. */
  lemma HeadMeets(p: Patterns, linenum: nat, stack: seq<Block>, head: Block, text: string)
    requires AllSeen(stack) && !head.seenOpenBrace
    ensures var k, r := FirstToken(text), ConsumeBraces(p, linenum, stack + [head], text);
            if k == |text| then r == stack + [head]
            else if text[k] == '{' then AfterBraces(r, stack + [head.(seenOpenBrace := true)], text[k + 1..], linenum)
            else AfterBraces(r, stack, text[k + 1..], linenum)
  {
    var k := FirstToken(text);
    Snoc(stack, head);
    if k < |text| {
      if text[k] == '{' {
        BracesEnd(p, linenum, stack + [head.(seenOpenBrace := true)], text[k + 1..]);
      } else {
        BracesEnd(p, linenum, stack, text[k + 1..]);
      }
    }
  }

  /**
   A class head outside parentheses, behind any number of namespaces: a block for the class, or none if it is only
   declared. `body` is what is left of the line behind the namespaces, `rest` what is left behind the class head.
   */
  lemma ClassLine(p: Patterns, stack: seq<Block>, line: Line, counted: seq<Block>, n: nat, body: string, rest: string)
    requires AllSeen(stack) && counted == CountParentheses(p, stack, line.text)
    requires OpensNamespaces(line.text, n, body) && p.classHead(Line(line.linenum, body)) == Some(rest)
    requires n > 0 || counted == [] || Last(counted).openParentheses == 0
    ensures var under, k, r := counted + Namespaces(line.linenum, n), FirstToken(rest), Effect(p, stack, line);
            if k == |rest| then r == under + [Class(line.linenum, false)]
            else if rest[k] == '{' then AfterBraces(r, under + [Class(line.linenum, true)], rest[k + 1..], line.linenum)
            else AfterBraces(r, under, rest[k + 1..], line.linenum)
  {
    CountKeepsSeen(p, stack, line.text);
    NamespacesEntered(line.linenum, counted, line.text, n, body);
    InnermostOpen(counted, line.linenum, n);
    HeadMeets(p, line.linenum, counted + Namespaces(line.linenum, n), Class(line.linenum, false), rest);
  }

  lemma InnermostOpen(stack: seq<Block>, linenum: nat, n: nat)
    ensures n == 0 ==> stack + Namespaces(linenum, n) == stack
    ensures n > 0 ==> Last(stack + Namespaces(linenum, n)) == Namespace(linenum, true)
  {
    if n > 0 {
      assert Last(stack + Namespaces(linenum, n)) == Last(Namespaces(linenum, n));
      assert Last(Namespaces(linenum, n)) in Namespaces(linenum, n);
    }
  }

  lemma NamespaceFound(linenum: nat, stack: seq<Block>, text: string, a: string, b: string, name: string, rest: string)
    requires HeadIs(text, a, b, name, rest) && FirstToken(rest) == |rest| && NamespaceHead(rest) == None
    ensures ConsumeNamespaces(linenum, stack, text) == (stack + [Namespace(linenum, false)], rest)
  {
    HeadFound(text, a, b, name, rest);
    assert After(rest, '{') == None;
  }

  /** A namespace head whose brace is not on the line waits for it. */
  lemma NamespaceWaits(p: Patterns, stack: seq<Block>, line: Line, a: string, b: string, name: string, rest: string)
    requires HeadIs(line.text, a, b, name, rest)
    requires FirstToken(rest) == |rest| && NamespaceHead(rest) == None && p.classHead(Line(line.linenum, rest)) == None
    ensures Effect(p, stack, line) == CountParentheses(p, stack, line.text) + [Namespace(line.linenum, false)]
  {
    NamespaceFound(line.linenum, CountParentheses(p, stack, line.text), line.text, a, b, name, rest);
  }

  /** And a later line whose first token is a brace completes it, whatever it is. */
  lemma BraceCompletes(p: Patterns, stack: seq<Block>, head: Block, line: Line, counted: seq<Block>)
    requires AllSeen(stack) && !head.seenOpenBrace
    requires NamespaceHead(line.text) == None && p.classHead(line) == None
    requires FirstToken(line.text) < |line.text| && line.text[FirstToken(line.text)] == '{'
    requires counted == CountParentheses(p, stack + [head], line.text)
    ensures AfterBraces(Effect(p, stack + [head], line), stack + [Last(counted).(seenOpenBrace := true)],
                        line.text[FirstToken(line.text) + 1..], line.linenum)
  {
    Snoc(stack, head);
    ParenthesesCounted(p, stack + [head], line.text);
    FrontLast(counted);
    assert Line(line.linenum, line.text) == line;
    HeadMeets(p, line.linenum, stack, Last(counted), line.text);
  }

  /** What kind of block a brace opens, by the text it stands in. */
  lemma BraceOpens(p: Patterns, linenum: nat, stack: seq<Block>, text: string)
    requires AllSeen(stack) && FirstToken(text) < |text| && text[FirstToken(text)] == '{'
    ensures var asm := if !p.externC(text) && p.asm(text) then BlockAsm else NoAsm;
            var block := Block(if p.externC(text) then ExternC else PlainBlock, linenum, true, 0, asm);
            ConsumeBraces(p, linenum, stack, text) == ConsumeBraces(p, linenum, stack + [block], text[FirstToken(text) + 1..])
  {
    LastSeen(stack, []);
    assert stack + [] == stack;
  }
}
