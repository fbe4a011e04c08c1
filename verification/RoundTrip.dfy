/**
 Reading back what was printed. The pieces of a printed document are the pieces it was printed
 from, so a sanitized document is a fixed point of the sanitizer.
 */
module RoundTrip {
  import opened Text
  import opened Entities
  import opened Attributes
  import opened Tokenizer
  import opened Pipeline

  // ----- the end of a printed tag -----

  function Shift(k: nat, n: nat): nat { if n == 0 then 0 else k + n }

  lemma {:induction false} ScanPast(a: string, b: string, quote: Option<char>)
    requires quote == None ==> '>' !in a && '"' !in a && '\'' !in a
    requires quote.Some? ==> quote.value !in a
    ensures ScanEnd(a + b, quote) == Shift(|a|, ScanEnd(b, quote))
  {
    hide ScanEnd;
    if a == "" {
      assert a + b == b;
    } else {
      assert (a + b)[0..] == a + b && (a + b)[1..] == a[1..] + b;
      assert (a + b)[0] == a[0] && a[0] in a;
      ScanStep(a + b, 0, quote);
      ScanPast(a[1..], b, quote);
    }
  }

  lemma ScanQuote(b: string, quote: Option<char>)
    requires quote == None || quote == Some('"')
    ensures ScanEnd(['"'] + b, quote) == Shift(1, ScanEnd(b, if quote == None then Some('"') else None))
  {
    assert (['"'] + b)[1..] == b;
  }

  lemma ScanPrintedAttr(name: string, value: string, rest: string)
    requires IsPlainName(name)
    ensures ScanEnd(PrintAttr(name, value) + rest, None) == Shift(|PrintAttr(name, value)|, ScanEnd(rest, None))
  {
    var a := [' '] + name + ['='];
    assert forall i :: 0 <= i < |a| ==> a[i] != '>' && a[i] != '"' && a[i] != '\'';
    hide ScanEnd, EscapeAttr, IsPlainName;
    EscapeLeavesNoMarkup(value);
    var v := EscapeAttr(value);
    assert PrintAttr(name, value) + rest == a + (['"'] + (v + (['"'] + rest)));
    ScanPast(a, ['"'] + (v + (['"'] + rest)), None);
    ScanQuote(v + (['"'] + rest), None);
    ScanPast(v, ['"'] + rest, Some('"'));
    ScanQuote(rest, Some('"'));
  }

  lemma ScanPrintedOption(name: string, value: Option<string>, rest: string)
    requires IsPlainName(name)
    ensures ScanEnd(PrintOption(name, value) + rest, None) == Shift(|PrintOption(name, value)|, ScanEnd(rest, None))
  {
    hide ScanEnd, PrintAttr;
    match value
    case None => assert "" + rest == rest;
    case Some(text) => ScanPrintedAttr(name, text, rest);
  }

  lemma ScanPrintedOptions(name1: string, value1: Option<string>, name2: string, value2: Option<string>,
                           name3: string, value3: Option<string>, rest: string)
    requires IsPlainName(name1) && IsPlainName(name2) && IsPlainName(name3)
    ensures var tail := PrintOption(name1, value1) + PrintOption(name2, value2) + PrintOption(name3, value3);
            ScanEnd(tail + rest, None) == Shift(|tail|, ScanEnd(rest, None))
  {
    hide ScanEnd, PrintOption;
    var a, b, c := PrintOption(name1, value1), PrintOption(name2, value2), PrintOption(name3, value3);
    assert a + b + c + rest == a + (b + (c + rest));
    ScanPrintedOption(name1, value1, b + (c + rest));
    ScanPrintedOption(name2, value2, c + rest);
    ScanPrintedOption(name3, value3, rest);
  }

  lemma ScanPrintedAttrs(kept: Attrs, rest: string)
    ensures ScanEnd(PrintAttrs(kept) + rest, None) == Shift(|PrintAttrs(kept)|, ScanEnd(rest, None))
  {
    hide ScanEnd, PrintAttr, PrintOption;
    match kept
    case NoAttrs => assert "" + rest == rest;
    case Href(url) => ScanPrintedAttr("href", url, rest);
    case Image(src, alt, width, height) =>
      var tail := PrintOption("alt", alt) + PrintOption("width", width) + PrintOption("height", height);
      assert PrintAttrs(kept) == PrintAttr("src", src) + tail;
      assert PrintAttrs(kept) + rest == PrintAttr("src", src) + (tail + rest);
      ScanPrintedAttr("src", src, tail + rest);
      ScanPrintedOptions("alt", alt, "width", width, "height", height, rest);
  }

  // ----- a printed tag is read back as that tag -----

  lemma ReadName(name: string, rest: string)
    requires IsTagName(name)
    requires rest != "" ==> !IsTagNameChar(rest[0])
    ensures NameAt(name + rest) == name
  {
    SpanIs(name + rest, IsTagNameChar, |name|);
    assert (name + rest)[..|name|] == name;
  }

  lemma ScanGt(rest: string)
    ensures ScanEnd(['>'] + rest, None) == 1
  {
  }

  lemma TagNameIsPlain(name: string)
    requires IsTagName(name)
    ensures '>' !in name && '"' !in name && '\'' !in name
  {
  }

  lemma PrintedStartEnds(name: string, kept: Attrs, rest: string)
    requires IsTagName(name)
    ensures TagEnd(TagString(name + PrintAttrs(kept), rest), 0) == |name| + |PrintAttrs(kept)| + 2
  {
    hide ScanEnd, PrintAttrs, IsTagName;
    var tail := ['>'] + rest;
    ScanGt(rest);
    TagNameIsPlain(name);
    var attrs := PrintAttrs(kept);
    assert TagString(name + attrs, rest)[1..] == name + (attrs + tail);
    ScanPast(name, attrs + tail, None);
    ScanPrintedAttrs(kept, tail);
  }

  /** The string of a tag with what stands between its brackets. */
  function TagString(inner: string, rest: string): string { ['<'] + inner + ['>'] + rest }

  lemma TagStringParts(inner: string, rest: string)
    requires inner != ""
    ensures var s := TagString(inner, rest);
            && |s| >= |inner| + 2 && s[0] == '<' && s[1] == inner[0]
            && s[1..|inner| + 1] == inner && s[|inner| + 2..] == rest
            && s[1..] == inner + (['>'] + rest)
  {
  }

  lemma StartToken(s: string, end: nat, name: string, attrs: string)
    requires OpensTag(s) && TagEnd(s, 0) == end && s[1] != '/'
    requires s[1..end - 1] == name + attrs
    requires NameAt(name + attrs) == name && !IsContentDropped(name)
    ensures TagToken(s, end) == Step(Open(name, AttributesOf(attrs)), s[end..])
  {
    hide OpensTag, TagEnd, NameAt, AttributesOf, IsContentDropped;
    assert (name + attrs)[|name|..] == attrs;
  }

  lemma NextStart(s: string, name: string, attrs: string, rest: string)
    requires name != "" && IsAlpha(name[0]) && name[0] != '/'
    requires s == TagString(name + attrs, rest) && TagEnd(s, 0) == |name| + |attrs| + 2
    requires NameAt(name + attrs) == name && !IsContentDropped(name)
    ensures Next(s) == Step(Open(name, AttributesOf(attrs)), rest)
  {
    hide AttributesOf, IsContentDropped, NameAt, TagEnd, Next, TagToken;
    TagStringParts(name + attrs, rest);
    hide TagString, IsAlpha;
    NextOfTag(s, |name + attrs| + 2);
    StartToken(s, |name + attrs| + 2, name, attrs);
  }

  lemma NextPrintedStart(name: string, kept: Attrs, rest: string)
    requires IsTagName(name) && !IsContentDropped(name)
    ensures Next(PrintPiece(Start(name, kept)) + rest) == Step(Open(name, AttributesOf(PrintAttrs(kept))), rest)
  {
    AttrsStartWithSpace(kept);
    ReadName(name, PrintAttrs(kept));
    PrintedStartEnds(name, kept, rest);
    hide PrintAttrs, AttributesOf, IsContentDropped, NameAt, TagEnd, Next;
    NextStart(PrintPiece(Start(name, kept)) + rest, name, PrintAttrs(kept), rest);
  }

  lemma PrintedEndEnds(name: string, rest: string)
    requires IsTagName(name)
    ensures TagEnd(TagString(['/'] + name, rest), 0) == |name| + 3
  {
    var inner := ['/'] + name;
    hide ScanEnd, IsTagName;
    ScanGt(rest);
    TagNameIsPlain(name);
    TagStringParts(inner, rest);
    ScanPast(inner, ['>'] + rest, None);
  }

  lemma CloseNameOf(name: string)
    requires IsTagName(name)
    ensures CloseName(['/'] + name) == name
  {
    var inner := ['/'] + name;
    SpanIs(name, IsSpace, 0);
    ReadName(name, "");
    assert inner[1..] == name && name + "" == name;
  }

  lemma NextPrintedEnd(name: string, rest: string)
    requires IsTagName(name)
    ensures Next(PrintPiece(End(name)) + rest) == Step(Close(name), rest)
  {
    hide IsTagName, TagEnd, Next, CloseName;
    var inner := ['/'] + name;
    var s := TagString(inner, rest);
    assert PrintPiece(End(name)) + rest == s;
    PrintedEndEnds(name, rest);
    TagStringParts(inner, rest);
    CloseNameOf(name);
    hide TagString;
    NextOfTag(s, |inner| + 2);
  }

  // ----- printed pieces are read back, up to merging adjacent text -----

  lemma {:induction false} IndexOfPast(a: string, s: string, c: char)
    requires c !in a
    ensures IndexOf(a + s, c) == |a| + IndexOf(s, c)
  {
    if a == "" {
      assert a + s == s;
    } else {
      assert (a + s)[1..] == a[1..] + s;
      IndexOfPast(a[1..], s, c);
    }
  }

  lemma CleanChars(raw: string, ts: seq<Token>, pending: string)
    ensures Clean([Chars(raw)] + ts, pending) == Clean(ts, pending + raw)
  {
    assert ([Chars(raw)] + ts)[1..] == ts;
  }

  /** Text in front of a document only adds to what is pending. */
  lemma CleanText(a: string, s: string, pending: string)
    requires '<' !in a
    ensures Clean(Lex(a + s), pending) == Clean(Lex(s), pending + a)
  {
    hide Clean, Kept;
    if a == "" {
      assert a + s == s && pending + a == pending;
    } else {
      IndexOfPast(a, s, '<');
      var n := IndexOf(s, '<');
      assert (a + s)[..|a| + n] == a + s[..n] && (a + s)[|a| + n..] == s[n..];
      assert Next(a + s) == Step(Chars(a + s[..n]), s[n..]);
      CleanChars(a + s[..n], Lex(s[n..]), pending);
      if n == 0 {
        assert s[n..] == s && a + s[..n] == a;
      } else {
        assert Next(s) == Step(Chars(s[..n]), s[n..]);
        CleanChars(s[..n], Lex(s[n..]), pending + a);
        assert pending + (a + s[..n]) == pending + a + s[..n];
      }
    }
  }

  /** Adjacent text merged into one piece, empty text dropped; `text` is what has been seen so far. */
  function Merge(ps: seq<Piece>, text: string): seq<Piece> {
    if ps == [] then MergedText(text)
    else
      match ps[0]
      case Words(more) => Merge(ps[1..], text + more)
      case _ => MergedText(text) + [ps[0]] + Merge(ps[1..], "")
  }

  function MergedText(text: string): seq<Piece> { if text == "" then [] else [Words(text)] }

  lemma FlushEscaped(text: string)
    ensures Flush(EscapeText(text)) == MergedText(text)
  {
    DecodeUndoesEscape(text);
    EscapesAreCharwise(text);
  }

  lemma PrintedTagIsSomething(p: Piece)
    requires !p.Words?
    ensures PrintPiece(p) != ""
  {
  }

  lemma KeptOfPrinted(name: string, kept: Attrs)
    requires IsAllowedTag(name) && AllowedAttrs(name, kept)
    ensures Kept(Open(name, AttributesOf(PrintAttrs(kept)))) == [Start(name, kept)]
  {
    hide IsAllowedTag, Keep, AttributesOf, PrintAttrs, AllowedAttrs;
    KeepPrinted(name, kept);
  }

  lemma KeptOfClose(name: string)
    requires name != "" && !IsVoidTag(name)
    ensures Kept(Close(name)) == [End(name)]
  {
  }

  /** A printed tag is a token that contributes exactly the piece it was printed from. */
  lemma NextPrintedTag(p: Piece, rest: string)
    requires AllowedPiece(p) && !p.Words?
    ensures PrintPiece(p) + rest != ""
    ensures var step := Next(PrintPiece(p) + rest);
            step.rest == rest && !step.token.Chars? && Kept(step.token) == [p]
  {
    hide IsAllowedTag, IsVoidTag, IsTagName, IsContentDropped, Next, Kept, AttributesOf, AllowedAttrs, PrintPiece;
    PrintedTagIsSomething(p);
    AllowedTagShape(p.name);
    match p
    case Start(name, kept) =>
      NextPrintedStart(name, kept, rest);
      KeptOfPrinted(name, kept);
    case End(name) =>
      NextPrintedEnd(name, rest);
      KeptOfClose(name);
  }

  lemma CleanPrintedTag(p: Piece, rest: string, pending: string)
    requires AllowedPiece(p) && !p.Words?
    ensures Clean(Lex(PrintPiece(p) + rest), pending) == Flush(pending) + [p] + Clean(Lex(rest), "")
  {
    hide AllowedPiece, PrintPiece, Next, Kept, Flush;
    NextPrintedTag(p, rest);
    var step := Next(PrintPiece(p) + rest);
    assert ([step.token] + Lex(rest))[1..] == Lex(rest);
  }

  /**
   The round trip: reading a printed sequence of allowed pieces gives back those pieces, whether or
   not they are well nested, with adjacent text merged.
   */
  lemma {:induction false} ReadPrinted(ps: seq<Piece>, text: string)
    requires AllAllowed(ps)
    ensures Clean(Lex(Print(ps)), EscapeText(text)) == Merge(ps, text)
  {
    hide AllowedPiece, PrintPiece, Next, Kept, EscapeText, Flush;
    if ps == [] {
      FlushEscaped(text);
    } else {
      var rest := ps[1..];
      if ps[0].Words? {
        ReadPrintedWords(ps[0].text, Print(rest), text);
        ReadPrinted(rest, text + ps[0].text);
      } else {
        CleanPrintedTag(ps[0], Print(rest), EscapeText(text));
        FlushEscaped(text);
        EscapeNothing();
        ReadPrinted(rest, "");
      }
    }
  }

  lemma EscapeNothing()
    ensures EscapeText("") == ""
  {
  }

  lemma ReadPrintedWords(words: string, rest: string, text: string)
    ensures Clean(Lex(PrintPiece(Words(words)) + rest), EscapeText(text))
         == Clean(Lex(rest), EscapeText(text + words))
  {
    EscapeLeavesNoMarkup(words);
    hide EscapeText, Clean, Lex;
    CleanText(EscapeText(words), rest, EscapeText(text));
    EscapeTextConcat(text, words);
  }

  lemma PiecesOfPrinted(ps: seq<Piece>)
    requires AllAllowed(ps)
    ensures Pieces(Print(ps)) == Merge(ps, "")
  {
    EscapeNothing();
    ReadPrinted(ps, "");
  }

  // ----- the fixed point -----

  /** Balancing what is well nested changes nothing. */
  lemma {:induction false} BalanceOfNested(ps: seq<Piece>, stack: seq<string>)
    requires Nested(ps, stack)
    ensures Balance(ps, stack) == ps
  {
    if ps != [] {
      if ps[0].End? {
        var top := |stack| - 1;
        assert LastOpen(stack, ps[0].name) == top;
        assert stack[top..] == [stack[top]] && stack[top..][..0] == [];
        assert Closers(stack[top..]) == [ps[0]];
        BalanceOfNested(ps[1..], stack[..top]);
      } else {
        BalanceOfNested(ps[1..], StackAfter(ps[0], stack));
      }
    }
  }

  lemma {:induction false} MergeKeepsNesting(ps: seq<Piece>, text: string, stack: seq<string>)
    requires Nested(ps, stack)
    ensures Nested(Merge(ps, text), stack)
  {
    if ps != [] {
      if ps[0].Words? {
        MergeKeepsNesting(ps[1..], text + ps[0].text, stack);
      } else {
        var stack' := if ps[0].End? then stack[..|stack| - 1] else StackAfter(ps[0], stack);
        var rest := Merge(ps[1..], "");
        MergeKeepsNesting(ps[1..], "", stack');
        NestedCons(ps[0], rest, stack);
        MergedTextNests(text, [ps[0]] + rest, stack);
        assert MergedText(text) + ([ps[0]] + rest) == MergedText(text) + [ps[0]] + rest;
        hide Nested, MergedText, StackAfter;
      }
    }
  }

  lemma MergedTextNests(text: string, ps: seq<Piece>, stack: seq<string>)
    requires Nested(ps, stack)
    ensures Nested(MergedText(text) + ps, stack)
  {
    if text == "" {
      assert MergedText(text) + ps == ps;
    } else {
      assert (MergedText(text) + ps)[1..] == ps;
    }
  }

  lemma PrintMergedText(text: string)
    ensures Print(MergedText(text)) == EscapeText(text)
  {
    if text != "" {
      assert MergedText(text)[1..] == [];
    }
  }

  lemma PrintWords(text: string)
    ensures PrintPiece(Words(text)) == EscapeText(text)
  {
  }

  lemma PrintMergedTag(text: string, p: Piece, rest: seq<Piece>)
    ensures Print(MergedText(text) + [p] + rest) == EscapeText(text) + (PrintPiece(p) + Print(rest))
  {
    hide EscapeText, PrintPiece, MergedText;
    PrintMergedText(text);
    assert MergedText(text) + [p] + rest == MergedText(text) + ([p] + rest);
    PrintConcat(MergedText(text), [p] + rest);
    assert ([p] + rest)[1..] == rest;
  }

  lemma {:induction false} PrintMerged(ps: seq<Piece>, text: string)
    ensures Print(Merge(ps, text)) == EscapeText(text) + Print(ps)
  {
    hide EscapeText, PrintPiece, MergedText;
    if ps == [] {
      PrintMergedText(text);
    } else if ps[0].Words? {
      PrintMerged(ps[1..], text + ps[0].text);
      EscapeTextConcat(text, ps[0].text);
      PrintWords(ps[0].text);
      Regroup(EscapeText(text), EscapeText(ps[0].text), Print(ps[1..]));
    } else {
      PrintMerged(ps[1..], "");
      EscapeNothing();
      assert "" + Print(ps[1..]) == Print(ps[1..]);
      PrintMergedTag(text, ps[0], Merge(ps[1..], ""));
    }
  }

  /** The printed form of well-nested allowed pieces is left alone. */
  lemma PrintedIsFixedPoint(ps: seq<Piece>)
    requires AllAllowed(ps) && Nested(ps, [])
    ensures Sanitize(Print(ps)) == Print(ps)
  {
    hide Nested, AllAllowed, EscapeText;
    PiecesOfPrinted(ps);
    MergeKeepsNesting(ps, "", []);
    BalanceOfNested(Merge(ps, ""), []);
    PrintMerged(ps, "");
    EscapeNothing();
  }

  /** Sanitizing twice is sanitizing once, for every input. */
  lemma SanitizeIsIdempotent(input: string)
    ensures Sanitize(Sanitize(input)) == Sanitize(input)
  {
    OutputIsAllowedAndNested(input);
    PrintedIsFixedPoint(Balance(Pieces(input), []));
  }
}
