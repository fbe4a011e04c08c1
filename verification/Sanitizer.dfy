/**
 The sanitizer as it is written: one pass over the input.
 */
module Sanitizer {
  import opened Text
  import opened Entities
  import opened Attributes
  import opened Tokenizer
  import opened Pipeline
  import opened OutputShape

  // The pass keeps an index, a stack of open elements, the text not yet flushed and the element whose
  // content is being dropped. It computes exactly what the pipeline computes.

  // ----- what is still to be printed -----

  /** What the pipeline prints for the rest `s` of the input, with `text` pending inside `stack`. */
  function Tail(s: string, text: string, stack: seq<string>): string {
    Print(Balance(Clean(Lex(s), text), stack))
  }

  /** What flushing the pending text appends to the output. */
  function FlushText(text: string): string {
    if text == "" then "" else EscapeText(DecodeEntities(text))
  }

  lemma BalanceFlush(text: string, ps: seq<Piece>, stack: seq<string>)
    ensures Print(Balance(Flush(text) + ps, stack)) == FlushText(text) + Print(Balance(ps, stack))
  {
    hide EscapeText, DecodeEntities;
    if text == "" {
      assert Flush(text) + ps == ps;
    } else {
      var words := Words(DecodeEntities(text));
      assert ([words] + ps)[1..] == ps;
      var rest := Balance(ps, stack);
      assert ([words] + rest)[1..] == rest;
    }
  }

  lemma TailOfNothing(text: string, stack: seq<string>)
    ensures Tail("", text, stack) == FlushText(text) + Print(Closers(stack))
  {
    BalanceFlush(text, [], stack);
    assert Flush(text) + [] == Flush(text);
  }

  lemma TailOfChars(s: string, text: string, stack: seq<string>)
    requires s != "" && Next(s).token.Chars?
    ensures Tail(s, text, stack) == Tail(Next(s).rest, text + Next(s).token.raw, stack)
  {
    hide Next, Balance, Print;
    var step := Next(s);
    assert ([step.token] + Lex(step.rest))[1..] == Lex(step.rest);
  }

  /** A token that contributes nothing only flushes. */
  lemma TailOfNone(s: string, text: string, stack: seq<string>)
    requires s != "" && !Next(s).token.Chars? && Kept(Next(s).token) == []
    ensures Tail(s, text, stack) == FlushText(text) + Tail(Next(s).rest, "", stack)
  {
    hide Next, Balance, Print, Kept;
    var step := Next(s);
    var rest := Clean(Lex(step.rest), "");
    assert ([step.token] + Lex(step.rest))[1..] == Lex(step.rest);
    assert Flush(text) + [] + rest == Flush(text) + rest;
    BalanceFlush(text, rest, stack);
  }

  /** A token that contributes a piece flushes, balances that piece, and goes on in the new stack. */
  lemma TailOfPiece(s: string, text: string, stack: seq<string>, p: Piece)
    requires s != "" && !Next(s).token.Chars? && Kept(Next(s).token) == [p]
    ensures Tail(s, text, stack)
         == FlushText(text) + Print(BalancePiece(p, stack)) + Tail(Next(s).rest, "", StackAfter(p, stack))
  {
    hide Next, Kept, BalancePiece, StackAfter, Print;
    var step := Next(s);
    var rest := Clean(Lex(step.rest), "");
    assert ([step.token] + Lex(step.rest))[1..] == Lex(step.rest);
    assert Flush(text) + [p] + rest == Flush(text) + ([p] + rest);
    BalanceFlush(text, [p] + rest, stack);
    assert ([p] + rest)[1..] == rest;
    PrintConcat(BalancePiece(p, stack), Balance(rest, StackAfter(p, stack)));
  }

  // ----- indices of the input against what is left of it -----

  /** `input.indexOf(c, i)` */
  function IndexFrom(input: string, c: char, i: nat): (n: int)
    requires i <= |input|
    ensures n == -1 || (i <= n < |input| && input[n] == c)
    ensures n > i ==> input[i] != c
    ensures n == -1 && i < |input| ==> input[i] != c
  {
    var n := IndexOf(input[i..], c);
    assert n > 0 ==> input[i..][..n][0] == input[i];
    if i + n == |input| then -1 else i + n
  }

  lemma IndexFromIs(input: string, c: char, i: nat)
    requires i <= |input|
    ensures var n := IndexOf(input[i..], c);
      IndexFrom(input, c, i) == if n == |input[i..]| then -1 else i + n
  {
  }

  /** The index just past the first `pattern` at or after `from`, or the end of the input. */
  function PastPattern(input: string, pattern: string, from: nat): (n: nat)
    requires from <= |input|
    ensures from <= n <= |input|
    ensures input[n..] == After(input[from..], pattern)
  {
    var rest := After(input[from..], pattern);
    assert input[|input| - |rest|..] == input[from..][|input| - from - |rest|..];
    |input| - |rest|
  }

  lemma SliceOfRest(input: string, i: nat, from: nat, to: nat)
    requires from <= to && i + to <= |input|
    ensures input[i..][from..to] == input[i + from..i + to]
    ensures input[i..][to..] == input[i + to..]
  {
  }

  lemma TagEndOfRest(input: string, i: nat, k: nat)
    requires i + k < |input|
    ensures TagEnd(input, i + k) == if TagEnd(input[i..], k) == -1 then -1 else i + TagEnd(input[i..], k)
  {
    assert input[i..][k + 1..] == input[i + k + 1..];
  }

  lemma UnfoldDropContent(s: string, name: string)
    ensures var k := IndexOf(s, '<');
      DropContent(s, name) ==
      if k == |s| then ""
      else if ClosesElement(s[k..], name) then (if TagEnd(s, k) == -1 then "" else s[TagEnd(s, k)..])
      else DropContent(s[k + 1..], name)
  {
    hide ClosesElement, TagEnd, IndexOf;
  }

  /** `DropContent` by indices of the input, when the next `<` is `k` characters on. */
  lemma DropAt(input: string, i: nat, name: string, k: nat)
    requires i + k < |input| && k == IndexOf(input[i..], '<')
    ensures var end := TagEnd(input, i + k);
      DropContent(input[i..], name) ==
      if !ClosesElement(input[i + k..], name) then DropContent(input[i + k + 1..], name)
      else if end == -1 then "" else input[end..]
  {
    hide *;
    UnfoldDropContent(input[i..], name);
    TailOfTail(input, i, k);
    if !ClosesElement(input[i + k..], name) {
      TailOfTail(input, i, k + 1);
    } else {
      TagEndOfRest(input, i, k);
      var end := TagEnd(input[i..], k);
      if end != -1 { TailOfTail(input, i, end); }
    }
  }

  /** `DropContent` by indices of the input. */
  lemma DropStep(input: string, i: nat, name: string)
    requires i <= |input|
    ensures var next := IndexFrom(input, '<', i);
      DropContent(input[i..], name) ==
      if next == -1 then ""
      else if !ClosesElement(input[next..], name) then DropContent(input[next + 1..], name)
      else if TagEnd(input, next) == -1 then "" else input[TagEnd(input, next)..]
  {
    hide *;
    IndexFromIs(input, '<', i);
    var k := IndexOf(input[i..], '<');
    if k == |input[i..]| {
      UnfoldDropContent(input[i..], name);
    } else {
      DropAt(input, i, name, k);
    }
  }

  lemma NextText(input: string, i: nat)
    requires i < |input| && input[i] != '<'
    ensures IndexFrom(input, '<', i) == -1 ==> Next(input[i..]) == Step(Chars(input[i..]), "")
    ensures IndexFrom(input, '<', i) != -1 ==>
      Next(input[i..]) == Step(Chars(input[i..IndexFrom(input, '<', i)]), input[IndexFrom(input, '<', i)..])
  {
    var s := input[i..];
    var n := IndexOf(s, '<');
    SliceOfRest(input, i, 0, n);
    assert s[..n] == s[0..n] && input[i..i + |s|] == s;
  }

  lemma NextDeclaration(input: string, i: nat)
    requires i + 1 < |input| && input[i] == '<' && input[i + 1] == '!'
    ensures Next(input[i..]) == Step(Skipped, AfterDeclaration(input[i..]))
  {
    hide AfterDeclaration;
  }

  /** Whether a tag may start at the `<` at `i`, before its end is looked for. */
  predicate MayOpenTag(input: string, i: nat) {
    i + 1 < |input| && (IsAlpha(input[i + 1]) || input[i + 1] == '/')
  }

  lemma NextStrayLt(input: string, i: nat)
    requires i < |input| && input[i] == '<' && (i + 1 < |input| ==> input[i + 1] != '!')
    requires !MayOpenTag(input, i) || TagEnd(input, i) == -1
    ensures Next(input[i..]) == Step(Chars("<"), input[i + 1..])
  {
    hide TagEnd;
    TagEndOfRest(input, i, 0);
    assert input[i..][1..] == input[i + 1..];
  }

  /** The token of the tag between `i` and `end`, by indices of the input. */
  function TagAt(input: string, i: nat, end: nat): Step
    requires i + 2 < end <= |input|
  {
    var inner := input[i + 1..end - 1];
    if input[i + 1] == '/' then Step(Close(CloseName(inner)), input[end..])
    else
      var name := NameAt(inner);
      if IsContentDropped(name) then Step(Skipped, DropContent(input[end..], name))
      else Step(Open(name, AttributesOf(inner[|name|..])), input[end..])
  }

  lemma TagTokenIs(s: string, end: nat, inner: string, rest: string)
    requires OpensTag(s) && TagEnd(s, 0) == end
    requires s[1..end - 1] == inner && s[end..] == rest
    ensures inner != ""
    ensures s[1] == '/' ==> TagToken(s, end) == Step(Close(CloseName(inner)), rest)
    ensures s[1] != '/' && IsContentDropped(NameAt(inner)) ==>
      TagToken(s, end) == Step(Skipped, DropContent(rest, NameAt(inner)))
    ensures s[1] != '/' && !IsContentDropped(NameAt(inner)) ==>
      TagToken(s, end) == Step(Open(NameAt(inner), AttributesOf(inner[|NameAt(inner)|..])), rest)
  {
    assert s[end - 1] == '>';
    hide ScanEnd, CloseName, IsContentDropped, AttributesOf, DropContent;
  }

  lemma TagIsNotEmpty(input: string, i: nat)
    requires i < |input| && MayOpenTag(input, i)
    ensures TagEnd(input, i) == -1 || i + 2 < TagEnd(input, i)
  {
    var rest := input[i + 1..];
    assert rest[0] == input[i + 1] != '>';
  }

  lemma TagOpensAt(input: string, i: nat, end: nat)
    requires i < |input| && input[i] == '<' && MayOpenTag(input, i) && TagEnd(input, i) == end
    ensures i + 2 < end <= |input|
    ensures OpensTag(input[i..]) && TagEnd(input[i..], 0) == end - i
    ensures Next(input[i..]) == TagToken(input[i..], end - i)
  {
    hide TagEnd, TagToken, Next, OpensTag, IsAlpha;
    TagIsNotEmpty(input, i);
    TagEndOfRest(input, i, 0);
    var s := input[i..];
    assert s[0] == input[i] && s[1] == input[i + 1];
    NextOfTag(s, end - i);
  }

  lemma NextTag(input: string, i: nat, end: nat)
    requires i < |input| && input[i] == '<' && MayOpenTag(input, i) && TagEnd(input, i) == end
    ensures i + 2 < end <= |input| && Next(input[i..]) == TagAt(input, i, end)
  {
    hide Next, TagToken, TagEnd, CloseName, NameAt, IsContentDropped, AttributesOf, DropContent, OpensTag;
    TagOpensAt(input, i, end);
    SliceOfRest(input, i, 1, end - i - 1);
    SliceOfRest(input, i, end - i, end - i);
    TagTokenIs(input[i..], end - i, input[i + 1..end - 1], input[end..]);
  }

  // ----- the loops that close elements -----

  lemma PrintClosers(stack: seq<string>)
    requires stack != []
    ensures Print(Closers(stack)) == PrintPiece(End(stack[|stack| - 1])) + Print(Closers(stack[..|stack| - 1]))
  {
    assert Closers(stack)[1..] == Closers(stack[..|stack| - 1]);
  }

  /** Closes what is open from `at` up, innermost first. */
  method CloseElements(stack: seq<string>, at: nat, out: string) returns (stack': seq<string>, out': string)
    requires at <= |stack| && Consistent(out, stack)
    ensures stack' == stack[..at]
    ensures out' == out + Print(Closers(stack[at..]))
    ensures Consistent(out', stack')
  {
    hide *;
    stack', out' := stack, out;
    assert stack[..|stack|] == stack;
    while |stack'| > at
      invariant at <= |stack'| <= |stack|
      invariant stack' == stack[..|stack'|]
      invariant out' + Print(Closers(stack'[at..])) == out + Print(Closers(stack[at..]))
      invariant Consistent(out', stack')
    {
      OpenIsClosable(out', stack');
      PrintClosers(stack'[at..]);
      var closing := stack'[|stack'| - 1];
      assert stack'[at..][..|stack'| - at - 1] == stack'[..|stack'| - 1][at..];
      AppendPiece(out', End(closing), stack');
      stack' := stack'[..|stack'| - 1];
      out' := out' + PrintPiece(End(closing));
    }
    assert stack'[at..] == [];
    PrintNoClosers();
  }

  lemma OpenIsClosable(out: string, stack: seq<string>)
    requires Consistent(out, stack) && stack != []
    ensures AllowedPiece(End(stack[|stack| - 1]))
  {
    hide StrictRead, IsAllowedTag, IsVoidTag;
  }

  /** Flushed text opens and closes nothing. */
  lemma FlushIsConsistent(out: string, text: string, stack: seq<string>)
    requires Consistent(out, stack)
    ensures Consistent(out + FlushText(text), stack)
  {
    hide Consistent;
    if text == "" {
      assert out + FlushText(text) == out;
    } else {
      AppendPiece(out, Words(DecodeEntities(text)), stack);
    }
  }

  lemma PrintNoClosers()
    ensures Print(Closers([])) == ""
  {
  }

  // ----- the one pass -----

  lemma PipelineIsTail(input: string)
    ensures Tail(input, "", []) == Sanitize(input)
  {
    assert Pieces(input) == Clean(Lex(input), "");
  }

  /** The two tag branches of the pass, once the end of the tag is known and pending text is flushed. */
  method CloseTag(input: string, i: nat, end: nat, text: string, stack: seq<string>, out: string)
    returns (stack': seq<string>, out': string)
    requires i < |input| && input[i] == '<' && MayOpenTag(input, i) && TagEnd(input, i) == end
    requires input[i + 1] == '/' && Consistent(out, stack)
    ensures Consistent(out', stack')
    // a tag that closes nothing, and one that closes everything down to its element
    ensures var name := CloseName(input[i + 1..end - 1]);
      name == "" || IsVoidTag(name) || name !in stack ==> stack' == stack && out' == out + FlushText(text)
    ensures var name := CloseName(input[i + 1..end - 1]);
      forall at :: name != "" && !IsVoidTag(name) && 0 <= at < |stack| && stack[at] == name && name !in stack[at + 1..] ==>
        stack' == stack[..at] && out' == out + FlushText(text) + ClosingTags(stack[at..])
    ensures out' + Tail(input[end..], "", stack') == out + Tail(input[i..], text, stack)
  {
    hide Next, Tail, TagEnd, CloseName, IsVoidTag, FlushText, IsAlpha, Closers, LastOpen, Print, Consistent;
    NextTag(input, i, end);
    FlushIsConsistent(out, text, stack);
    var inner := input[i + 1..end - 1];
    stack', out' := stack, out + FlushText(text);
    var name := CloseName(inner);
    if name == "" || IsVoidTag(name) {
      TailOfNone(input[i..], text, stack);
      return;
    }
    TailOfPiece(input[i..], text, stack, End(name));
    var at := LastOpen(stack, name);
    if at == -1 {
      PrintNothing();
      return;
    }
    PrintClosersIs(stack[at..]);
    forall other | 0 <= other < |stack| && stack[other] == name && name !in stack[other + 1..]
      ensures other == at
    {
      LastOpenIs(stack, name, other);
    }
    stack', out' := CloseElements(stack, at, out');
  }

  lemma LastOpenIs(stack: seq<string>, name: string, at: nat)
    requires at < |stack| && stack[at] == name && name !in stack[at + 1..]
    ensures LastOpen(stack, name) == at
  {
    assert forall i :: at < i < |stack| ==> stack[i] == stack[at + 1..][i - at - 1];
  }

  /** The close tags of open elements, innermost first. */
  function ClosingTags(names: seq<string>): string {
    if names == [] then ""
    else (['<', '/'] + names[|names| - 1] + ['>']) + ClosingTags(names[..|names| - 1])
  }

  lemma {:induction false} PrintClosersIs(names: seq<string>)
    ensures Print(Closers(names)) == ClosingTags(names)
  {
    if names != [] {
      var last, before := names[|names| - 1], names[..|names| - 1];
      PrintClosersIs(before);
      assert ([End(last)] + Closers(before))[1..] == Closers(before);
      assert PrintPiece(End(last)) == ['<', '/'] + last + ['>'];
    }
  }

  method OpenTag(input: string, i: nat, end: nat, text: string, stack: seq<string>, out: string)
    returns (stack': seq<string>, out': string, dropping: Option<string>)
    requires i < |input| && input[i] == '<' && MayOpenTag(input, i) && TagEnd(input, i) == end
    requires input[i + 1] != '/' && Consistent(out, stack)
    ensures Consistent(out', stack')
    ensures dropping == None ==>
      out' + Tail(input[end..], "", stack') == out + Tail(input[i..], text, stack)
    ensures dropping.Some? ==>
      out' + Tail(DropContent(input[end..], dropping.value), "", stack') == out + Tail(input[i..], text, stack)
  {
    hide Next, Tail, DropContent, TagEnd, NameAt, AttributesOf, IsContentDropped, IsAllowedTag, IsVoidTag, Keep,
         PrintAttrs, FlushText, IsAlpha, Print, AllowedAttrs, Consistent;
    NextTag(input, i, end);
    FlushIsConsistent(out, text, stack);
    var inner := input[i + 1..end - 1];
    stack', out', dropping := stack, out + FlushText(text), None;
    var name := NameAt(inner);
    if IsContentDropped(name) {
      TailOfNone(input[i..], text, stack);
      dropping := Some(name);
      return;
    }
    if !IsAllowedTag(name) {
      TailOfNone(input[i..], text, stack);
      return;
    }
    var attrs := ParseAttributes(inner[|name|..]);
    var rendered := RenderAttributes(name, attrs);
    if rendered == None {
      TailOfNone(input[i..], text, stack);
      return;
    }
    var start := Start(name, Keep(name, attrs).value);
    TailOfPiece(input[i..], text, stack, start);
    PrintOne(start);
    KeptIsAllowed(name, attrs);
    AppendPiece(out', start, stack);
    out' := out' + (['<'] + (name + rendered.value) + ['>']);
    if !IsVoidTag(name) {
      stack' := stack' + [name];
    }
  }

  lemma PrintNothing()
    ensures Print([]) == ""
  {
  }

  lemma PrintOne(p: Piece)
    ensures Print([p]) == PrintPiece(p)
  {
    assert [p][1..] == [];
    assert PrintPiece(p) + "" == PrintPiece(p);
  }

  /** One step of the dropped-content scan: where it goes on, and whether the element was closed. */
  method SkipDropped(input: string, i: nat, name: string, lastGt: int) returns (i': nat, closed: bool)
    requires i < |input| && lastGt == LastIndexOf(input, '>')
    ensures i < i' <= |input|
    ensures DropContent(input[i..], name) == if closed then input[i'..] else DropContent(input[i'..], name)
  {
    hide *;
    DropStep(input, i, name);
    var next := IndexFrom(input, '<', i);
    if next != -1 {
      if !ClosesElement(input[next..], name) { return next + 1, false; }
      var end := FindTagEnd(input, next, lastGt);
      if end != -1 { return end, true; }
    }
    DropStep(input, |input|, name);
    return |input|, false;
  }

  /** Where the comment, the CDATA section or the other declaration at `i` ends. */
  method SkipDeclaration(input: string, i: nat, lastGt: int) returns (i': nat)
    requires i + 1 < |input| && input[i] == '<' && input[i + 1] == '!' && lastGt == LastIndexOf(input, '>')
    ensures i < i' <= |input| && input[i'..] == AfterDeclaration(input[i..])
  {
    DeclarationAt(input, i);
    hide *;
    if "<!--" <= input[i..] { return PastPattern(input, "-->", i + 4); }
    if "<![CDATA[" <= input[i..] { return PastPattern(input, "]]>", i); }
    var end := FindTagEnd(input, i, lastGt);
    return if end == -1 then |input| else end;
  }

  /** `AfterDeclaration` by indices of the input. */
  lemma DeclarationAt(input: string, i: nat)
    requires i + 1 < |input| && input[i] == '<'
    ensures var s, end := input[i..], TagEnd(input, i);
      if "<!--" <= s then i + 4 <= |input| && AfterDeclaration(s) == input[PastPattern(input, "-->", i + 4)..]
      else if "<![CDATA[" <= s then i < PastPattern(input, "]]>", i) && AfterDeclaration(s) == input[PastPattern(input, "]]>", i)..]
      else AfterDeclaration(s) == if end == -1 then "" else input[end..]
  {
    hide TagEnd, After, PastPattern;
    var s := input[i..];
    if "<!--" <= s {
      TailOfTail(input, i, 4);
    } else if "<![CDATA[" <= s {
      assert AfterDeclaration(s) == input[PastPattern(input, "]]>", i)..];
    } else {
      PlainDeclarationAt(input, i);
    }
  }

  lemma PlainDeclarationAt(input: string, i: nat)
    requires i + 1 < |input| && !("<!--" <= input[i..]) && !("<![CDATA[" <= input[i..])
    ensures AfterDeclaration(input[i..]) == if TagEnd(input, i) == -1 then "" else input[TagEnd(input, i)..]
  {
    hide TagEnd, After;
    var s := input[i..];
    TagEndOfRest(input, i, 0);
    var end := TagEnd(s, 0);
    if end != -1 { TailOfTail(input, i, end); }
  }

  // ----- one token of the pass: what it appends and what it leaves -----

  lemma StepOverText(input: string, i: nat, text: string, stack: seq<string>)
    requires i < |input| && input[i] != '<'
    ensures IndexFrom(input, '<', i) == -1 ==> Tail(input[i..], text, stack) == Tail("", text + input[i..], stack)
    ensures IndexFrom(input, '<', i) != -1 ==>
      var next := IndexFrom(input, '<', i);
      Tail(input[i..], text, stack) == Tail(input[next..], text + input[i..next], stack)
  {
    hide Next, Tail, IndexFrom;
    NextText(input, i);
    TailOfChars(input[i..], text, stack);
  }

  lemma StepOverStrayLt(input: string, i: nat, text: string, stack: seq<string>)
    requires i < |input| && input[i] == '<' && (i + 1 < |input| ==> input[i + 1] != '!')
    requires !MayOpenTag(input, i) || TagEnd(input, i) == -1
    ensures Tail(input[i..], text, stack) == Tail(input[i + 1..], text + "<", stack)
  {
    hide Next, Tail, MayOpenTag, TagEnd;
    NextStrayLt(input, i);
    TailOfChars(input[i..], text, stack);
  }

  lemma StepOverDeclaration(input: string, i: nat, text: string, stack: seq<string>, out: string)
    requires i + 1 < |input| && input[i] == '<' && input[i + 1] == '!'
    ensures out + Tail(input[i..], text, stack)
         == out + FlushText(text) + Tail(AfterDeclaration(input[i..]), "", stack)
  {
    hide Next, Tail, FlushText, AfterDeclaration;
    NextDeclaration(input, i);
    TailOfNone(input[i..], text, stack);
  }

  lemma NothingLeft(text: string, stack: seq<string>, out: string)
    ensures out + Tail("", text, stack) == out + FlushText(text) + Print(Closers(stack[0..]))
  {
    hide Tail, FlushText, Print, Closers;
    TailOfNothing(text, stack);
    assert stack[0..] == stack;
  }

  method SanitizeHtml(input: string) returns (out: string)
    ensures out == Sanitize(input)
    ensures Consistent(out, [])
  {
    hide *;
    out := "";
    var stack: seq<string> := [];
    var dropping: Option<string> := None;
    var text := "";
    var lastGt := LastIndexOf(input, '>');
    var i := 0;
    PipelineIsTail(input);
    NothingIsConsistent();
    assert input[0..] == input;
    while i < |input|
      invariant i <= |input|
      invariant dropping == None ==> out + Tail(input[i..], text, stack) == Sanitize(input)
      invariant dropping.Some? ==>
        text == "" && out + Tail(DropContent(input[i..], dropping.value), "", stack) == Sanitize(input)
      invariant Consistent(out, stack)
      decreases |input| - i
    {
      if dropping != None {
        var closed: bool;
        i, closed := SkipDropped(input, i, dropping.value, lastGt);
        if closed { dropping := None; }
        continue;
      }

      var tagStart := IndexFrom(input, '<', i);
      if tagStart != i {
        StepOverText(input, i, text, stack);
        if tagStart == -1 {
          text := text + input[i..];
          i := |input|;
          break;
        }
        text := text + input[i..tagStart];
        i := tagStart;
      }

      if i + 1 < |input| && input[i + 1] == '!' {
        StepOverDeclaration(input, i, text, stack, out);
        FlushIsConsistent(out, text, stack);
        out, text := out + FlushText(text), "";
        i := SkipDeclaration(input, i, lastGt);
        continue;
      }

      var end := -1;
      if MayOpenTag(input, i) {
        end := FindTagEnd(input, i, lastGt);
      }
      if end == -1 {
        StepOverStrayLt(input, i, text, stack);
        text := text + "<";
        i := i + 1;
        continue;
      }

      TagNeedsName(input, i);
      if input[i + 1] == '/' {
        stack, out := CloseTag(input, i, end, text, stack, out);
      } else {
        stack, out, dropping := OpenTag(input, i, end, text, stack, out);
      }
      text, i := "", end;
    }
    if dropping.Some? {
      DropStep(input, |input|, dropping.value);
    }
    assert input[|input|..] == "";
    NothingLeft(text, stack, out);
    FlushIsConsistent(out, text, stack);
    out := out + FlushText(text);
    stack, out := CloseElements(stack, 0, out);
    assert stack == [];
  }

  lemma NothingIsConsistent()
    ensures Consistent("", [])
  {
  }

  lemma TagNeedsName(input: string, i: nat)
    requires MayOpenTag(input, i)
    ensures i + 1 < |input|
  {
  }
}
