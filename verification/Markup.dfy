/**
 How markup reads: each way of writing a tag, a comment or a declaration, and the token it is.
 */
module Markup {
  import opened Text
  import opened Entities
  import opened Attributes
  import opened Tokenizer
  import opened RoundTrip

  /** A name as it may be written: a letter of either case, then letters, digits and hyphens. */
  ghost predicate NameText(name: string) {
    && name != "" && ('a' <= name[0] <= 'z' || 'A' <= name[0] <= 'Z')
    && forall i :: 0 <= i < |name| ==>
         'a' <= name[i] <= 'z' || 'A' <= name[i] <= 'Z' || '0' <= name[i] <= '9' || name[i] == '-'
  }

  /** What stands behind a name up to the `>` of its tag, which no quote in it hides. */
  ghost predicate EndsWith(inner: string, rest: string) { ScanEnd(inner + (['>'] + rest), None) == |inner| + 1 }

  lemma PlainEnds(inner: string, rest: string)
    requires '>' !in inner && '"' !in inner && '\'' !in inner
    ensures EndsWith(inner, rest)
  {
    ScanGt(rest);
    ScanPast(inner, ['>'] + rest, None);
  }

  /** A quoted stretch may hold anything but its quote. */
  lemma QuotedEnds(before: string, quote: char, value: string, inner: string, rest: string)
    requires '>' !in before && '"' !in before && '\'' !in before
    requires (quote == '"' || quote == '\'') && quote !in value && EndsWith(inner, rest)
    ensures EndsWith(before + ([quote] + (value + ([quote] + inner))), rest)
  {
    var tail := ['>'] + rest;
    var closed := [quote] + (inner + tail);
    ScanOneQuote(inner + tail, quote, true);
    ScanPast(value, closed, Some(quote));
    ScanOneQuote(value + closed, quote, false);
    ScanPast(before, [quote] + (value + closed), None);
    hide ScanEnd;
    assert before + ([quote] + (value + ([quote] + inner))) + tail == before + ([quote] + (value + closed));
  }

  lemma ScanOneQuote(s: string, quote: char, inside: bool)
    requires quote == '"' || quote == '\''
    ensures ScanEnd([quote] + s, if inside then Some(quote) else None)
         == Shift(1, ScanEnd(s, if inside then None else Some(quote)))
  {
    assert ([quote] + s)[1..] == s;
  }

  lemma NameIsRead(name: string, tail: string)
    requires NameText(name) && (tail != "" ==> !IsTagNameChar(tail[0]))
    ensures NameAt(name + tail) == ToLower(name)
  {
    SpanIs(name + tail, IsTagNameChar, |name|);
    assert (name + tail)[..|name|] == name;
  }

  lemma NamePasses(name: string, inner: string, rest: string)
    requires NameText(name) && EndsWith(inner, rest)
    ensures EndsWith(name + inner, rest)
  {
    assert '>' !in name && '"' !in name && '\'' !in name;
    ScanPast(name, inner + (['>'] + rest), None);
    hide ScanEnd;
    Regroup(name, inner, ['>'] + rest);
  }

  lemma TagString(inner: string, rest: string)
    requires inner != "" && (IsAlpha(inner[0]) || inner[0] == '/') && EndsWith(inner, rest)
    ensures var s := ['<'] + inner + (['>'] + rest);
      && TagEnd(s, 0) == |inner| + 2 && s[1] == inner[0] && OpensTag(s) && Next(s) == TagToken(s, |inner| + 2)
      && s[1..|inner| + 1] == inner && s[|inner| + 2..] == rest
  {
    var s := ['<'] + inner + (['>'] + rest);
    assert s[1..] == inner + (['>'] + rest);
    hide ScanEnd, TagToken, Next, IsAlpha;
    NextOfTag(s, |inner| + 2);
  }

  /**
   An open tag, in whatever case: its name in lower case and its attributes; for a script or a style, the
   whole element.
   */
  lemma OpenTagIsRead(name: string, inner: string, rest: string)
    requires NameText(name) && (inner != "" ==> !IsTagNameChar(inner[0])) && EndsWith(inner, rest)
    ensures var s := ['<'] + (name + inner) + (['>'] + rest);
      Next(s) == if ToLower(name) == "script" || ToLower(name) == "style"
                 then Step(Skipped, DropContent(rest, ToLower(name)))
                 else Step(Open(ToLower(name), AttributesOf(inner)), rest)
  {
    NameIsRead(name, inner);
    NamePasses(name, inner, rest);
    assert (name + inner)[0] == name[0] && name[0] != '/';
    assert (name + inner)[|name|..] == inner;
    hide ScanEnd, TagEnd, OpensTag, NameAt, DropContent, AttributesOf, Next;
    TagString(name + inner, rest);
  }

  /** A close tag, in whatever case, with blanks before its name and anything behind it. */
  lemma CloseTagIsRead(gap: string, name: string, inner: string, rest: string)
    requires NameText(name) && (inner != "" ==> !IsTagNameChar(inner[0])) && EndsWith(inner, rest)
    requires forall i :: 0 <= i < |gap| ==> gap[i] == ' ' || gap[i] == '\t' || gap[i] == '\n' || gap[i] == '\r'
    ensures Next(['<'] + (['/'] + (gap + (name + inner))) + (['>'] + rest)) == Step(Close(ToLower(name)), rest)
  {
    NameIsRead(name, inner);
    NamePasses(name, inner, rest);
    var tail := name + inner;
    assert tail[0] == name[0];
    SpanIs(gap + tail, IsSpace, |gap|);
    assert (gap + tail)[|gap|..] == tail;
    assert (['/'] + (gap + tail))[1..] == gap + tail;
    assert CloseName(['/'] + (gap + tail)) == ToLower(name);
    GapPasses(gap, tail, rest);
    hide ScanEnd, TagEnd, OpensTag, NameAt, CloseName, Span, Next;
    TagString(['/'] + (gap + tail), rest);
  }

  lemma GapPasses(gap: string, tail: string, rest: string)
    requires EndsWith(tail, rest)
    requires forall i :: 0 <= i < |gap| ==> gap[i] == ' ' || gap[i] == '\t' || gap[i] == '\n' || gap[i] == '\r'
    ensures EndsWith(['/'] + (gap + tail), rest)
  {
    var lead := ['/'] + gap;
    assert '>' !in lead && '"' !in lead && '\'' !in lead;
    ScanPast(lead, tail + (['>'] + rest), None);
    hide ScanEnd;
    assert ['/'] + (gap + tail) + (['>'] + rest) == lead + (tail + (['>'] + rest));
  }

  // ----- what is not a tag -----

  /** A `<` before anything but a letter, a slash or an exclamation mark is text. */
  lemma StrayLtIsText(rest: string)
    requires rest == "" || !('a' <= rest[0] <= 'z' || 'A' <= rest[0] <= 'Z' || rest[0] == '/' || rest[0] == '!')
    ensures Next(['<'] + rest) == Step(Chars("<"), rest)
  {
    hide TagEnd, TagToken, AfterDeclaration;
    assert (['<'] + rest)[1..] == rest;
  }

  /** So is one whose tag never ends. */
  lemma UnterminatedTagIsText(rest: string)
    requires rest != "" && rest[0] != '!' && ScanEnd(rest, None) == 0
    ensures Next(['<'] + rest) == Step(Chars("<"), rest)
  {
    hide TagToken, AfterDeclaration, ScanEnd;
    assert (['<'] + rest)[1..] == rest;
  }

  /** No occurrence of `pattern` starts in the first `n` characters of `s`. */
  ghost predicate NoneBefore(s: string, n: nat, pattern: string)
    requires n <= |s|
  {
    forall i :: 0 <= i < n ==> !(pattern <= s[i..])
  }

  lemma {:induction false} AfterIs(s: string, n: nat, pattern: string)
    requires n <= |s| && NoneBefore(s, n, pattern)
    ensures pattern <= s[n..] ==> After(s, pattern) == s[n + |pattern|..]
    ensures n == |s| && pattern != "" ==> After(s, pattern) == ""
    decreases n
  {
    assert s[0..] == s;
    if n > 0 {
      assert !(pattern <= s[0..]);
      forall i | 0 <= i < n - 1
        ensures !(pattern <= s[1..][i..])
      {
        TailOfTail(s, 1, i);
      }
      AfterIs(s[1..], n - 1, pattern);
      assert After(s, pattern) == After(s[1..], pattern);
      hide After, NoneBefore;
      TailOfTail(s, 1, n - 1);
      if pattern <= s[n..] { TailOfTail(s, 1, n - 1 + |pattern|); }
    }
  }

  /** A comment ends behind the first `-->` after its opening, or with the document. */
  lemma CommentIsSkipped(body: string, n: nat)
    requires n <= |body| && NoneBefore(body, n, ['-', '-', '>'])
    requires n == |body| || ['-', '-', '>'] <= body[n..]
    ensures Next(['<', '!', '-', '-'] + body) == Step(Skipped, if n == |body| then "" else body[n + 3..])
  {
    CommentOpens(body);
    AfterIs(body, n, ['-', '-', '>']);
    hide After, TagEnd, TagToken, NoneBefore;
    assert "-->" == ['-', '-', '>'];
  }

  lemma CommentOpens(body: string)
    ensures var s := ['<', '!', '-', '-'] + body;
      s[0] == '<' && s[1] == '!' && "<!--" <= s && s[4..] == body
  {
    assert "<!--" == ['<', '!', '-', '-'];
  }

  lemma PastLead(lead: string, pattern: string, s: string)
    ensures lead + pattern <= lead + s <==> pattern <= s
  {
    var n := |lead|;
    if lead + pattern <= lead + s { assert pattern == (lead + pattern)[n..] == (lead + s)[n..n + |pattern|] == s[..|pattern|]; }
  }

  /** Any other declaration ends at its `>`, quotes considered, or with the document. */
  lemma DeclarationIsSkipped(body: string)
    requires !(['-', '-'] <= body) && !(['[', 'C', 'D', 'A', 'T', 'A', '['] <= body)
    ensures Next(['<', '!'] + body)
         == Step(Skipped, if ScanEnd(['!'] + body, None) == 0 then "" else (['!'] + body)[ScanEnd(['!'] + body, None)..])
  {
    var s := ['<', '!'] + body;
    assert s[1..] == ['!'] + body;
    assert "<!--" == ['<', '!'] + ['-', '-'] && "<![CDATA[" == ['<', '!'] + ['[', 'C', 'D', 'A', 'T', 'A', '['];
    PastLead(['<', '!'], ['-', '-'], body);
    PastLead(['<', '!'], ['[', 'C', 'D', 'A', 'T', 'A', '['], body);
    hide After, ScanEnd, TagToken;
    var n := ScanEnd(['!'] + body, None);
    if n != 0 { TailOfTail(s, 1, n); }
  }
}
