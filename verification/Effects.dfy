/**
 What each token does to the output: a tag is what it prints, a misnested close tag what closing the elements
 above its own prints, and what prints nothing is as if it were not there. Each is said of the whole output,
 after any printed pieces: the piece read may be replaced by what it prints. Where a piece stands, only the
 elements left open by what is before it matter, and `stack` names them.
 */
module Effects {
  import opened Text
  import opened Entities
  import opened Attributes
  import opened Tokenizer
  import opened Pipeline
  import opened RoundTrip
  import opened OutputShape
  import opened Sanitizer

  // ----- reading on after printed pieces -----

  /** The pieces that are complete once `ps` has been read, and the text that is still pending. */
  function Complete(ps: seq<Piece>, text: string): seq<Piece> {
    if ps == [] then []
    else
      match ps[0]
      case Words(more) => Complete(ps[1..], text + more)
      case _ => MergedText(text) + [ps[0]] + Complete(ps[1..], "")
  }

  function Pending(ps: seq<Piece>, text: string): string {
    if ps == [] then text
    else
      match ps[0]
      case Words(more) => Pending(ps[1..], text + more)
      case _ => Pending(ps[1..], "")
  }

  lemma {:induction false} ReadOn(ps: seq<Piece>, s: string, text: string)
    requires AllAllowed(ps)
    ensures Clean(Lex(Print(ps) + s), EscapeText(text)) == Complete(ps, text) + Clean(Lex(s), EscapeText(Pending(ps, text)))
  {
    hide AllowedPiece, PrintPiece, Next, Kept, EscapeText, Flush, Lex, Clean;
    if ps == [] {
      assert "" + s == s;
    } else {
      var rest := Print(ps[1..]) + s;
      Regroup(PrintPiece(ps[0]), Print(ps[1..]), s);
      if ps[0].Words? {
        ReadPrintedWords(ps[0].text, rest, text);
        ReadOn(ps[1..], s, text + ps[0].text);
      } else {
        CleanPrintedTag(ps[0], rest, EscapeText(text));
        FlushEscaped(text);
        RoundTrip.EscapeNothing();
        ReadOn(ps[1..], s, "");
      }
    }
  }

  // ----- balancing in parts -----

  function Balanced(ps: seq<Piece>, stack: seq<string>): seq<Piece> {
    if ps == [] then [] else BalancePiece(ps[0], stack) + Balanced(ps[1..], StackAfter(ps[0], stack))
  }

  function OpenAfter(ps: seq<Piece>, stack: seq<string>): seq<string> {
    if ps == [] then stack else OpenAfter(ps[1..], StackAfter(ps[0], stack))
  }

  lemma {:induction false} BalanceInParts(a: seq<Piece>, b: seq<Piece>, stack: seq<string>)
    ensures Balance(a + b, stack) == Balanced(a, stack) + Balance(b, OpenAfter(a, stack))
    ensures OpenAfter(a + b, stack) == OpenAfter(b, OpenAfter(a, stack))
  {
    hide BalancePiece, StackAfter;
    if a == [] {
      assert a + b == b;
    } else {
      assert (a + b)[1..] == a[1..] + b;
      BalanceInParts(a[1..], b, StackAfter(a[0], stack));
    }
  }

  lemma OpenAfterText(text: string, p: Piece, stack: seq<string>)
    ensures OpenAfter(MergedText(text) + [p], stack) == StackAfter(p, stack)
  {
    var ps := MergedText(text) + [p];
    if text == "" {
      assert ps == [p];
    } else {
      assert ps[1..] == [p];
    }
    assert [p][1..] == [];
    assert OpenAfter([p], stack) == OpenAfter([], StackAfter(p, stack));
  }

  /** A close tag the strict reader accepts is that of the innermost open element. */
  lemma EndMatches(name: string, rest: string, stack: seq<string>)
    requires AllowedPiece(End(name)) && StrictRead(PrintPiece(End(name)) + rest, stack).Some?
    ensures stack != [] && stack[|stack| - 1] == name
  {
    hide StrictTag, IsAllowedTag, IsTagName;
    AllowedTagShape(name);
    InnerHasNoMarkup(End(name));
    ReadTag(['/'] + name, rest, stack);
    StrictClose(name, stack);
    assert PrintPiece(End(name)) + rest == ['<'] + (['/'] + name) + ['>'] + rest;
  }

  lemma StrictClose(name: string, stack: seq<string>)
    ensures StrictTag(['/'] + name, stack).Some? ==> stack != [] && stack[|stack| - 1] == name
  {
    assert (['/'] + name)[1..] == name;
  }

  /** What the strict reader has open after printed pieces is what balancing them leaves open. */
  lemma {:induction false} OpenAfterPrinted(ps: seq<Piece>, text: string, stack: seq<string>)
    requires AllAllowed(ps) && OpenElements(stack) && StrictRead(Print(ps), stack).Some?
    ensures OpenAfter(Complete(ps, text), stack) == StrictRead(Print(ps), stack).value
    ensures OpenElements(StrictRead(Print(ps), stack).value)
  {
    hide AllowedPiece, StrictRead, PrintPiece, StackAfter, OpenElements, MergedText;
    if ps == [] {
      ReadNothing(stack);
    } else {
      var p, rest := ps[0], Print(ps[1..]);
      if p.End? { EndMatches(p.name, rest, stack); }
      ReadPiece(p, rest, stack);
      StepAgrees(p, stack);
      StackStaysOpen(p, stack);
      if p.Words? {
        OpenAfterPrinted(ps[1..], text + p.text, stack);
      } else {
        var stack' := StackAfter(p, stack);
        OpenAfterPrinted(ps[1..], "", stack');
        BalanceInParts(MergedText(text) + [p], Complete(ps[1..], ""), stack);
        OpenAfterText(text, p, stack);
      }
    }
  }

  lemma StepAgrees(p: Piece, stack: seq<string>)
    ensures p.End? && stack != [] && stack[|stack| - 1] == p.name ==> StackAfter(p, stack) == stack[..|stack| - 1]
    ensures p.Words? ==> StackAfter(p, stack) == stack
  {
  }

  // ----- pending text that is already escaped -----

  lemma FlushPastEscaped(text: string, raw: string)
    ensures FlushText(EscapeText(text) + raw) == EscapeText(text) + FlushText(raw)
  {
    DecodePastEscaped(text, raw);
    EscapeTextConcat(text, DecodeEntities(raw));
    RoundTrip.EscapeNothing();
    DecodeNothing();
    hide EscapeText, DecodeEntities;
    assert text + "" == text;
  }

  /** Escaped text that is pending is printed as it is, whatever is read next. */
  lemma {:induction false} EscapedTextStays(text: string, raw: string, ts: seq<Token>, stack: seq<string>)
    ensures Print(Balance(Clean(ts, EscapeText(text) + raw), stack)) == EscapeText(text) + Print(Balance(Clean(ts, raw), stack))
    decreases |ts|
  {
    hide EscapeText, DecodeEntities, Print, Balance, Kept;
    FlushPastEscaped(text, raw);
    if ts == [] {
      BalanceFlush(EscapeText(text) + raw, [], stack);
      BalanceFlush(raw, [], stack);
      assert Flush(EscapeText(text) + raw) + [] == Flush(EscapeText(text) + raw) && Flush(raw) + [] == Flush(raw);
      Regroup(EscapeText(text), FlushText(raw), Print(Balance([], stack)));
    } else if ts[0].Chars? {
      Regroup(EscapeText(text), raw, ts[0].raw);
      EscapedTextStays(text, raw + ts[0].raw, ts[1..], stack);
    } else {
      var more := Kept(ts[0]) + Clean(ts[1..], "");
      BalanceFlush(EscapeText(text) + raw, more, stack);
      BalanceFlush(raw, more, stack);
      assert Flush(EscapeText(text) + raw) + Kept(ts[0]) + Clean(ts[1..], "") == Flush(EscapeText(text) + raw) + more;
      assert Flush(raw) + Kept(ts[0]) + Clean(ts[1..], "") == Flush(raw) + more;
      Regroup(EscapeText(text), FlushText(raw), Print(Balance(more, stack)));
    }
  }

  // ----- close tags that do not fit -----

  /** What the sanitizer prints after printed pieces, in what it still has pending. */
  lemma SanitizeOn(ps: seq<Piece>, stack: seq<string>, s: string)
    requires AllAllowed(ps) && StrictRead(Print(ps), []) == Some(stack)
    ensures Sanitize(Print(ps) + s)
         == Print(Balanced(Complete(ps, ""), [])) + Tail(s, EscapeText(Pending(ps, "")), stack)
    ensures OpenElements(stack)
  {
    hide AllAllowed, StrictRead, Lex, Clean, Balance, Balanced, Print, EscapeText, Complete, Pending, OpenAfter;
    RoundTrip.EscapeNothing();
    ReadOn(ps, s, "");
    OpenAfterPrinted(ps, "", []);
    var done, rest := Complete(ps, ""), Clean(Lex(s), EscapeText(Pending(ps, "")));
    BalanceInParts(done, rest, []);
    PrintConcat(Balanced(done, []), Balance(rest, stack));
  }

  lemma PendingStays(text: string, s: string, stack: seq<string>)
    ensures Tail(s, EscapeText(text), stack) == EscapeText(text) + Tail(s, "", stack)
  {
    hide Lex, Clean, Balance, Print, EscapeText;
    EscapedTextStays(text, "", Lex(s), stack);
    assert EscapeText(text) + "" == EscapeText(text);
  }

  lemma FlushEscapedText(text: string)
    ensures FlushText(EscapeText(text)) == EscapeText(text)
  {
    FlushPastEscaped(text, "");
    hide EscapeText;
    assert EscapeText(text) + "" == EscapeText(text);
  }

  // ----- what prints nothing, and what prints a tag -----

  lemma TailOfNothingKept(s: string, text: string, stack: seq<string>)
    requires s != "" && !Next(s).token.Chars? && (Kept(Next(s).token) == [] || ClosesNothing(Next(s).token, stack))
    ensures Tail(s, text, stack) == FlushText(text) + Tail(Next(s).rest, "", stack)
  {
    hide Next, Tail, FlushText, Print;
    if Kept(Next(s).token) == [] {
      TailOfNone(s, text, stack);
    } else {
      TailOfPiece(s, text, stack, End(Next(s).token.name));
      PrintNothing();
      assert FlushText(text) + "" == FlushText(text);
    }
  }

  predicate ClosesNothing(token: Token, stack: seq<string>) { token.Close? && token.name !in stack }

  /** A token that prints nothing is as if it were not there, wherever printed pieces end. */
  lemma NothingKeptIsIgnored(ps: seq<Piece>, stack: seq<string>, s: string)
    requires AllAllowed(ps) && StrictRead(Print(ps), []) == Some(stack)
    requires s != "" && !Next(s).token.Chars? && (Kept(Next(s).token) == [] || ClosesNothing(Next(s).token, stack))
    ensures Sanitize(Print(ps) + s) == Sanitize(Print(ps) + Next(s).rest)
  {
    hide AllAllowed, StrictRead, Next, Kept, Tail, Print, EscapeText, FlushText, Complete, Pending, Balanced, Sanitize;
    var text, rest := Pending(ps, ""), Next(s).rest;
    SanitizeOn(ps, stack, s);
    SanitizeOn(ps, stack, rest);
    PendingStays(text, rest, stack);
    FlushEscapedText(text);
    TailOfNothingKept(s, EscapeText(text), stack);
  }

  /** Before anything but text, what is pending is flushed. */
  lemma FlushFirst(s: string, text: string, stack: seq<string>)
    requires s == "" || !Next(s).token.Chars?
    ensures Tail(s, text, stack) == FlushText(text) + Tail(s, "", stack)
  {
    hide Next, Kept, Print, Balance, FlushText;
    FlushNothing();
    var ps := if s == "" then [] else Kept(Next(s).token) + Clean(Lex(Next(s).rest), "");
    if s != "" {
      assert ([Next(s).token] + Lex(Next(s).rest))[1..] == Lex(Next(s).rest);
      assert Flush(text) + Kept(Next(s).token) + Clean(Lex(Next(s).rest), "") == Flush(text) + ps;
      assert Flush("") + Kept(Next(s).token) + Clean(Lex(Next(s).rest), "") == Flush("") + ps;
    } else {
      assert Flush(text) + [] == Flush(text) && Flush("") + [] == Flush("");
    }
    BalanceFlush(text, ps, stack);
    BalanceFlush("", ps, stack);
    assert "" + Print(Balance(ps, stack)) == Print(Balance(ps, stack));
  }

  /** Text up to a tag or the end is decoded once and escaped. */
  lemma TextIsItsPrint(ps: seq<Piece>, stack: seq<string>, text: string, s: string)
    requires AllAllowed(ps) && StrictRead(Print(ps), []) == Some(stack)
    requires '<' !in text && (s == "" || !Next(s).token.Chars?)
    ensures Sanitize(Print(ps) + (text + s)) == Sanitize(Print(ps) + (EscapeText(DecodeEntities(text)) + s))
  {
    var printed := EscapeText(DecodeEntities(text));
    EscapeLeavesNoMarkup(DecodeEntities(text));
    hide *;
    SanitizeOn(ps, stack, text + s);
    SanitizeOn(ps, stack, printed + s);
    var pending := Pending(ps, "");
    TailOfText(text, s, EscapeText(pending), stack);
    TailOfText(printed, s, EscapeText(pending), stack);
    FlushFirst(s, EscapeText(pending) + text, stack);
    FlushFirst(s, EscapeText(pending) + printed, stack);
    FlushPastEscaped(pending, text);
    FlushPastEscaped(pending, printed);
    FlushOfText(text);
  }

  lemma TailOfText(text: string, s: string, pending: string, stack: seq<string>)
    requires '<' !in text
    ensures Tail(text + s, pending, stack) == Tail(s, pending + text, stack)
  {
    CleanText(text, s, pending);
  }

  lemma FlushOfText(text: string)
    ensures FlushText(EscapeText(DecodeEntities(text))) == FlushText(text)
  {
    FlushEscapedText(DecodeEntities(text));
    DecodeNothing();
    RoundTrip.EscapeNothing();
    hide EscapeText, DecodeEntities;
  }

  /** A comment, a declaration, a dropped element with its content. */
  lemma SkippedIsIgnored(ps: seq<Piece>, stack: seq<string>, s: string)
    requires AllAllowed(ps) && StrictRead(Print(ps), []) == Some(stack)
    requires s != "" && Next(s).token == Skipped
    ensures Sanitize(Print(ps) + s) == Sanitize(Print(ps) + Next(s).rest)
  {
    hide AllAllowed, StrictRead, Next, Print, Sanitize;
    NothingKeptIsIgnored(ps, stack, s);
  }

  /** A close tag of an element that is not open, a void one among them. */
  lemma StrayCloseIsIgnored(ps: seq<Piece>, stack: seq<string>, s: string, name: string)
    requires AllAllowed(ps) && StrictRead(Print(ps), []) == Some(stack)
    requires s != "" && Next(s).token == Close(name) && name !in stack
    ensures Sanitize(Print(ps) + s) == Sanitize(Print(ps) + Next(s).rest)
  {
    hide AllAllowed, StrictRead, Next, Print, Sanitize;
    NothingKeptIsIgnored(ps, stack, s);
  }

  /** An open tag that is not allowlisted, or whose attributes forbid it, leaves its content. */
  lemma UnkeptTagIsIgnored(ps: seq<Piece>, stack: seq<string>, s: string, name: string, attrs: map<string, string>)
    requires AllAllowed(ps) && StrictRead(Print(ps), []) == Some(stack)
    requires s != "" && Next(s).token == Open(name, attrs) && (!IsAllowedTag(name) || Keep(name, attrs) == None)
    ensures Sanitize(Print(ps) + s) == Sanitize(Print(ps) + Next(s).rest)
  {
    hide AllAllowed, StrictRead, Next, Print, Sanitize, Keep, IsAllowedTag;
    NothingKeptIsIgnored(ps, stack, s);
  }

  /** An open tag that is kept is the print of its name and of the attributes it keeps. */
  lemma KeptTagIsItsPrint(ps: seq<Piece>, stack: seq<string>, s: string, name: string, attrs: map<string, string>)
    requires AllAllowed(ps) && StrictRead(Print(ps), []) == Some(stack)
    requires s != "" && Next(s).token == Open(name, attrs) && IsAllowedTag(name) && Keep(name, attrs).Some?
    ensures Sanitize(Print(ps) + s)
         == Sanitize(Print(ps) + ((['<'] + (name + PrintAttrs(Keep(name, attrs).value)) + ['>']) + Next(s).rest))
  {
    var p, rest := Start(name, Keep(name, attrs).value), Next(s).rest;
    KeptIsAllowed(name, attrs);
    assert Kept(Next(s).token) == [p] && AllowedPiece(p);
    assert PrintPiece(p) == ['<'] + (name + PrintAttrs(Keep(name, attrs).value)) + ['>'];
    hide *;
    SanitizeOn(ps, stack, s);
    SanitizeOn(ps, stack, PrintPiece(p) + rest);
    NextPrintedTag(p, rest);
    var text := EscapeText(Pending(ps, ""));
    TailOfPiece(s, text, stack, p);
    TailOfPiece(PrintPiece(p) + rest, text, stack, p);
  }

  lemma TailOfMisnested(s: string, text: string, stack: seq<string>, name: string, at: nat)
    requires s != "" && Next(s).token == Close(name) && name != "" && !IsVoidTag(name)
    requires at < |stack| && stack[at] == name && name !in stack[at + 1..]
    ensures Tail(s, text, stack) == FlushText(text) + ClosingTags(stack[at..]) + Tail(Next(s).rest, "", stack[..at])
  {
    hide Next, Tail, FlushText, Print, Closers;
    LastOpenIs(stack, name, at);
    TailOfPiece(s, text, stack, End(name));
    PrintClosersIs(stack[at..]);
  }

  /** Reading the close tag of the innermost element. */
  lemma TailOfClose(name: string, rest: string, text: string, stack: seq<string>)
    requires IsTagName(name) && !IsVoidTag(name)
    ensures Tail((['<', '/'] + name + ['>']) + rest, text, stack + [name])
         == FlushText(text) + (['<', '/'] + name + ['>']) + Tail(rest, "", stack)
  {
    hide Tail, FlushText, IsTagName, IsVoidTag, Next, Print;
    var closing := ['<', '/'] + name + ['>'];
    NextPrintedEnd(name, rest);
    assert PrintPiece(End(name)) == closing;
    var all := stack + [name];
    assert all[|stack|] == name && all[..|stack|] == stack && all[|stack|..] == [name] && all[|stack| + 1..] == [];
    ShortNameIsSomething(name);
    TailOfMisnested(closing + rest, text, all, name, |stack|);
    ClosingOne(name);
  }

  lemma RegroupFour(a: string, b: string, c: string, d: string)
    ensures a + b + (c + d) == a + (b + c) + d
  {
    Regroup(b, c, d);
    Regroup(a, b, c + d);
    Regroup(a, b + c, d);
  }

  /** Reading the close tags of open elements from the inside out. */
  lemma {:induction false} TailOfClosing(names: seq<string>, s: string, text: string, stack: seq<string>)
    requires names != [] && OpenElements(names)
    ensures Tail(ClosingTags(names) + s, text, stack + names) == FlushText(text) + ClosingTags(names) + Tail(s, "", stack)
  {
    var last, before := names[|names| - 1], names[..|names| - 1];
    OpenIsTagName(names, |names| - 1);
    assert OpenElements(before);
    hide *;
    var closing, rest := ['<', '/'] + last + ['>'], ClosingTags(before) + s;
    ClosingSteps(names);
    Regroup(closing, ClosingTags(before), s);
    assert stack + names == (stack + before) + [last];
    TailOfClose(last, rest, text, stack + before);
    if before == [] {
      assert "" + s == s && stack + before == stack && closing + "" == closing;
    } else {
      TailOfClosing(before, s, "", stack);
      FlushNothing();
      assert "" + ClosingTags(before) == ClosingTags(before);
      RegroupFour(FlushText(text), closing, ClosingTags(before), Tail(s, "", stack));
    }
  }

  lemma FlushNothing()
    ensures FlushText("") == ""
  {
  }

  lemma ShortNameIsSomething(name: string)
    requires IsTagName(name)
    ensures name != ""
  {
  }

  lemma ClosingOne(name: string)
    ensures ClosingTags([name]) == ['<', '/'] + name + ['>']
  {
    assert [name][..0] == [];
    assert ClosingTags([]) == "";
    assert ['<', '/'] + name + ['>'] + "" == ['<', '/'] + name + ['>'];
  }

  lemma ClosingSteps(names: seq<string>)
    requires names != []
    ensures ClosingTags(names) == (['<', '/'] + names[|names| - 1] + ['>']) + ClosingTags(names[..|names| - 1])
    ensures |names| == 1 ==> ClosingTags(names[..|names| - 1]) == ""
  {
  }

  /**
   A close tag of an open element closes everything that is open inside it and then the element, innermost
   first: it is as if those close tags stood in its place.
   */
  lemma MisnestedCloseClosesAll(ps: seq<Piece>, stack: seq<string>, s: string, name: string, at: nat)
    requires AllAllowed(ps) && StrictRead(Print(ps), []) == Some(stack)
    requires s != "" && Next(s).token == Close(name)
    requires at < |stack| && stack[at] == name && name !in stack[at + 1..]
    ensures Sanitize(Print(ps) + s) == Sanitize(Print(ps) + (ClosingTags(stack[at..]) + Next(s).rest))
  {
    hide *;
    SanitizeOn(ps, stack, s);
    SanitizeOn(ps, stack, ClosingTags(stack[at..]) + Next(s).rest);
    TailsAgree(s, EscapeText(Pending(ps, "")), stack, name, at);
  }

  lemma TailsAgree(s: string, text: string, stack: seq<string>, name: string, at: nat)
    requires s != "" && Next(s).token == Close(name) && OpenElements(stack)
    requires at < |stack| && stack[at] == name && name !in stack[at + 1..]
    ensures Tail(s, text, stack) == Tail(ClosingTags(stack[at..]) + Next(s).rest, text, stack)
  {
    hide *;
    OpenIsTagName(stack, at);
    TailOfMisnested(s, text, stack, name, at);
    assert stack[..at] + stack[at..] == stack;
    TailOfClosing(stack[at..], Next(s).rest, text, stack[..at]);
  }

  lemma OpenIsTagName(stack: seq<string>, at: nat)
    requires OpenElements(stack) && at < |stack|
    ensures IsTagName(stack[at]) && stack[at] != "" && !IsVoidTag(stack[at]) && OpenElements(stack[at..])
  {
    hide IsVoidTag;
    AllowedTagShape(stack[at]);
  }
}
