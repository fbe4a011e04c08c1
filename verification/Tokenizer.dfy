/**
 The tokenizer: untrusted HTML as a sequence of tokens, by recursion on what is left of the input.
 */
module Tokenizer {
  import opened Text
  import opened Attributes

  datatype Token =
    | Chars(raw: string)                               // text, still encoded
    | Skipped                                          // a comment, a declaration, a dropped element
    | Open(name: string, attrs: map<string, string>)
    | Close(name: string)                              // the name is empty when there is none

  datatype Step = Step(token: Token, rest: string)

  // ----- where a tag ends -----

  /**
   The number of characters of `s` up to and including the first `>` outside quotes, 0 when there is
   none. `quote` is the quote the scan is inside of.
   */
  function ScanEnd(s: string, quote: Option<char>): (n: nat)
    ensures n <= |s|
    ensures n > 0 ==> s[n - 1] == '>'
  {
    if s == "" then 0
    else if quote == None && s[0] == '>' then 1
    else
      var next :=
        if quote == Some(s[0]) then None
        else if quote == None && (s[0] == '"' || s[0] == '\'') then Some(s[0])
        else quote;
      var n := ScanEnd(s[1..], next);
      if n == 0 then 0 else n + 1
  }

  /** Just past the `>` of the tag whose `<` is at `start`, or -1 when the tag is unterminated. */
  function TagEnd(input: string, start: nat): (end: int)
    requires start < |input|
    ensures end == -1 || start + 1 < end <= |input|
  {
    var n := ScanEnd(input[start + 1..], None);
    if n == 0 then -1 else start + 1 + n
  }

  /** The shortcut of the scan is exact: past the last `>` of the input no tag ends. */
  lemma NoTagEndPastLastGt(input: string, start: nat)
    requires LastIndexOf(input, '>') <= start < |input|
    ensures TagEnd(input, start) == -1
  {
    var s := input[start + 1..];
    assert forall k :: 0 <= k < |s| ==> s[k] == input[start + 1 + k];
  }

  lemma ScanNothing(quote: Option<char>)
    ensures ScanEnd("", quote) == 0
  {
  }

  lemma ScanStep(input: string, i: nat, quote: Option<char>)
    requires i < |input|
    ensures
      if quote == None && input[i] == '>' then ScanEnd(input[i..], quote) == 1
      else
        var c := input[i];
        var next := if quote == Some(c) then None else if quote == None && (c == '"' || c == '\'') then Some(c) else quote;
        var n := ScanEnd(input[i + 1..], next);
        ScanEnd(input[i..], quote) == if n == 0 then 0 else n + 1
  {
    assert input[i..][1..] == input[i + 1..];
  }

  method FindTagEnd(input: string, start: nat, lastGt: int) returns (end: int)
    requires start < |input|
    requires lastGt == LastIndexOf(input, '>')
    ensures end == TagEnd(input, start)
  {
    hide LastIndexOf, ScanEnd;
    if start >= lastGt {
      NoTagEndPastLastGt(input, start);
      return -1;
    }
    var quote: Option<char> := None;
    var i := start + 1;
    while i < |input|
      invariant start < i <= |input|
      invariant var n := ScanEnd(input[i..], quote);
                TagEnd(input, start) == if n == 0 then -1 else i + n
    {
      var c := input[i];
      ScanStep(input, i, quote);
      i := i + 1;
      if quote != None {
        if c == quote.value { quote := None; }
        continue;
      }
      if c == '"' || c == '\'' {
        quote := Some(c);
        continue;
      }
      if c == '>' { return i; }
    }
    assert input[i..] == "" && ScanEnd("", quote) == 0 by { ScanNothing(quote); }
    return -1;
  }

  // ----- names -----

  predicate IsTagNameChar(c: char) { IsAlnum(c) || c == '-' }

  /** The name at the head of `s`, lower-cased; empty when `s` does not start with a letter. */
  function NameAt(s: string): (name: string)
    ensures |name| <= |s|
  {
    if s != "" && IsAlpha(s[0]) then ToLower(s[..Span(s, IsTagNameChar)]) else ""
  }

  /** The name of a close tag, from what stands between its angle brackets: `/`, spaces, name. */
  function CloseName(inner: string): string
    requires inner != ""
  {
    NameAt(inner[1..][Span(inner[1..], IsSpace)..])
  }

  predicate IsContentDropped(name: string) { name == "script" || name == "style" }

  // ----- dropped content -----

  predicate IsTagNameTerminator(c: char) { c == '>' || c == '/' || IsSpace(c) }

  /** `s.slice(from, to)` */
  function Slice(s: string, from: nat, to: nat): string
    requires from <= to
  {
    if from >= |s| then "" else if to >= |s| then s[from..] else s[from..to]
  }

  /** Whether the `<` at the head of `s` closes the element `name`. The second character is not looked at. */
  predicate ClosesElement(s: string, name: string) {
    && ToLower(Slice(s, 2, 2 + |name|)) == name
    && (|s| <= 2 + |name| || IsTagNameTerminator(s[2 + |name|]))
  }

  /** What is left of `s` once the content of the dropped element `name` and its close tag are gone. */
  function DropContent(s: string, name: string): (rest: string)
    ensures |rest| <= |s|
    decreases |s|
  {
    var next := IndexOf(s, '<');
    if next == |s| then ""
    else if ClosesElement(s[next..], name) then
      var end := TagEnd(s, next);
      if end == -1 then "" else s[end..]
    else DropContent(s[next + 1..], name)
  }

  // ----- tokens -----

  predicate OpensTag(s: string) {
    |s| > 1 && (IsAlpha(s[1]) || s[1] == '/') && TagEnd(s, 0) != -1
  }

  /** The tag at the head of `s`, which ends at `end`. */
  function TagToken(s: string, end: nat): (step: Step)
    requires OpensTag(s) && end == TagEnd(s, 0)
    ensures |step.rest| < |s|
  {
    var inner := s[1..end - 1];
    if s[1] == '/' then
      assert s[end - 1] == '>';
      Step(Close(CloseName(inner)), s[end..])
    else
      assert s[end - 1] == '>';
      var name := NameAt(inner);
      if IsContentDropped(name) then
        var rest := DropContent(s[end..], name);
        Step(Skipped, rest)
      else Step(Open(name, AttributesOf(inner[|name|..])), s[end..])
  }

  /** What follows the comment, the CDATA section or the other declaration at the head of `s`. */
  function AfterDeclaration(s: string): (rest: string)
    requires |s| > 1
    ensures |rest| < |s|
  {
    if "<!--" <= s then After(s[4..], "-->")
    else if "<![CDATA[" <= s then
      assert s[0] != "]]>"[0];
      After(s, "]]>")
    else if TagEnd(s, 0) == -1 then ""
    else s[TagEnd(s, 0)..]
  }

  /** The first token of `s` and what is left after it. */
  function Next(s: string): (step: Step)
    requires s != ""
    ensures |step.rest| < |s|
  {
    if s[0] != '<' then
      var n := IndexOf(s, '<');
      Step(Chars(s[..n]), s[n..])
    else if |s| > 1 && s[1] == '!' then Step(Skipped, AfterDeclaration(s))
    else if OpensTag(s) then TagToken(s, TagEnd(s, 0))
    else Step(Chars("<"), s[1..])
  }

  /** A `<` followed by a letter opens a tag where the scan for its end says so. */
  lemma NextOfTag(s: string, end: nat)
    requires |s| > 1 && s[0] == '<' && (IsAlpha(s[1]) || s[1] == '/') && TagEnd(s, 0) == end
    ensures OpensTag(s) && Next(s) == TagToken(s, end)
  {
    hide TagEnd, TagToken;
    assert s[1] != '!';
  }

  function Lex(s: string): seq<Token>
    decreases |s|
  {
    if s == "" then [] else [Next(s).token] + Lex(Next(s).rest)
  }
}
