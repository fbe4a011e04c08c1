/**
 What text the sanitizer keeps and what it drops.
 */
module Content {
  import opened Text
  import opened Entities
  import opened Attributes
  import opened Tokenizer
  import opened Pipeline
  import opened RoundTrip
  import opened Sanitizer

  // ----- kept text survives, decoded exactly once -----

  /** The text of a sequence of pieces. */
  function TextOf(ps: seq<Piece>): string {
    if ps == [] then ""
    else (if ps[0].Words? then ps[0].text else "") + TextOf(ps[1..])
  }

  lemma {:induction false} TextOfConcat(a: seq<Piece>, b: seq<Piece>)
    ensures TextOf(a + b) == TextOf(a) + TextOf(b)
  {
    if a == [] {
      assert a + b == b;
    } else {
      assert (a + b)[1..] == a[1..] + b;
      TextOfConcat(a[1..], b);
    }
  }

  lemma {:induction false} ClosersHaveNoText(stack: seq<string>)
    ensures TextOf(Closers(stack)) == ""
  {
    if stack != [] {
      ClosersHaveNoText(stack[..|stack| - 1]);
      assert Closers(stack)[1..] == Closers(stack[..|stack| - 1]);
    }
  }

  lemma {:induction false} BalanceKeepsText(ps: seq<Piece>, stack: seq<string>)
    ensures TextOf(Balance(ps, stack)) == TextOf(ps)
  {
    if ps == [] {
      ClosersHaveNoText(stack);
    } else {
      var balanced := BalancePiece(ps[0], stack);
      BalanceKeepsText(ps[1..], StackAfter(ps[0], stack));
      TextOfConcat(balanced, Balance(ps[1..], StackAfter(ps[0], stack)));
      if ps[0].End? {
        ClosersHaveNoText(if LastOpen(stack, ps[0].name) == -1 then [] else stack[LastOpen(stack, ps[0].name)..]);
      } else {
        assert [ps[0]][1..] == [];
      }
    }
  }

  lemma {:induction false} MergeKeepsText(ps: seq<Piece>, text: string)
    ensures TextOf(Merge(ps, text)) == text + TextOf(ps)
  {
    if ps == [] {
      assert TextOf(MergedText(text)) == text + "" by { MergedTextIs(text); }
    } else if ps[0].Words? {
      MergeKeepsText(ps[1..], text + ps[0].text);
    } else {
      MergeKeepsText(ps[1..], "");
      MergedTextIs(text);
      TextOfConcat(MergedText(text) + [ps[0]], Merge(ps[1..], ""));
      TextOfConcat(MergedText(text), [ps[0]]);
      assert [ps[0]][1..] == [];
    }
  }

  lemma MergedTextIs(text: string)
    ensures TextOf(MergedText(text)) == text
  {
    if text != "" {
      assert MergedText(text)[1..] == [];
    }
  }

  /** Reading the output gives the once-decoded text that was kept of the input, and nothing else. */
  lemma TextSurvives(input: string)
    ensures TextOf(Pieces(Sanitize(input))) == TextOf(Pieces(input))
  {
    var ps := Balance(Pieces(input), []);
    OutputIsAllowedAndNested(input);
    PiecesOfPrinted(ps);
    MergeKeepsText(ps, "");
    BalanceKeepsText(Pieces(input), []);
    assert "" + TextOf(ps) == TextOf(ps);
  }

  /** Text without `<` is decoded once and escaped: it comes back as it was written. */
  lemma EscapedTextIsUnchanged(text: string)
    ensures Sanitize(EscapeText(text)) == EscapeText(text)
  {
    hide Sanitize, EscapeText;
    var ps := [Words(text)];
    assert ps[1..] == [] && EscapeText(text) + "" == EscapeText(text);
    assert Print(ps) == EscapeText(text);
    PrintedIsFixedPoint(ps);
  }

  // ----- dropped content -----

  /** An open tag of an element whose content is dropped, as it stands at the head of `s`. */
  predicate OpensDropped(s: string) {
    && |s| > 1 && s[0] == '<' && IsAlpha(s[1]) && TagEnd(s, 0) == |s|
    && IsContentDropped(NameAt(s[1..|s| - 1]))
  }

  /** Dropping that is at `i` ends at `k`: at the first `<` that passes the check, or with the input. */
  ghost predicate EndsAt(s: string, i: nat, k: nat, name: string) {
    && i <= k <= |s|
    && (forall n :: i <= n < k && s[n] == '<' ==> !ClosesElement(s[n..], name))
    && (k < |s| ==> s[k] == '<' && ClosesElement(s[k..], name))
  }

  /** What is left once the tag at `k` is read: nothing when there is none, or it is unterminated. */
  function PastTag(s: string, k: nat): string
    requires k <= |s|
  {
    if k == |s| || TagEnd(s, k) == -1 then "" else s[TagEnd(s, k)..]
  }

  lemma NextLt(s: string, i: nat, k: nat)
    requires i <= k < |s| && s[k] == '<'
    ensures i <= IndexFrom(s, '<', i) <= k
  {
    IndexOfAtMost(s[i..], '<', k - i);
    IndexFromIs(s, '<', i);
    hide IndexFrom, IndexOf;
  }

  /** Closed, unterminated or never closed: the scan drops everything up to where dropping ends, and that tag. */
  lemma {:induction false} DropContentIs(s: string, i: nat, k: nat, name: string)
    requires EndsAt(s, i, k, name)
    ensures DropContent(s[i..], name) == PastTag(s, k)
    decreases |s| - i
  {
    hide ClosesElement, TagEnd, DropContent, IndexFrom;
    DropStep(s, i, name);
    var next := IndexFrom(s, '<', i);
    if k < |s| { NextLt(s, i, k); }
    if next != -1 && next < k {
      DropContentIs(s, next + 1, k, name);
    }
  }

  /** Dropping always ends at one place. */
  lemma {:induction false} DroppingEnds(s: string, i: nat, name: string) returns (k: nat)
    requires i <= |s|
    ensures EndsAt(s, i, k, name)
    ensures forall k' :: EndsAt(s, i, k', name) ==> k' == k
    decreases |s| - i
  {
    hide ClosesElement;
    if i == |s| || (s[i] == '<' && ClosesElement(s[i..], name)) {
      k := i;
    } else {
      k := DroppingEnds(s, i + 1, name);
      forall k' | EndsAt(s, i, k', name)
        ensures k' == k
      {
        assert EndsAt(s, i + 1, k', name);
      }
    }
  }

  lemma {:induction false} ScanEndPrefix(a: string, b: string, quote: Option<char>)
    requires ScanEnd(a, quote) > 0
    ensures ScanEnd(a + b, quote) == ScanEnd(a, quote)
  {
    if !(quote == None && a[0] == '>') {
      assert (a + b)[1..] == a[1..] + b;
      ScanEndPrefix(a[1..], b,
        if quote == Some(a[0]) then None
        else if quote == None && (a[0] == '"' || a[0] == '\'') then Some(a[0])
        else quote);
    } else {
      assert (a + b)[0] == '>';
    }
  }

  lemma TagEndPrefix(open: string, after: string)
    requires |open| > 1 && TagEnd(open, 0) == |open|
    ensures TagEnd(open + after, 0) == |open|
  {
    hide ScanEnd;
    assert (open + after)[1..] == open[1..] + after;
    ScanEndPrefix(open[1..], after, None);
  }

  lemma OpensDroppedIs(open: string, after: string)
    requires OpensDropped(open)
    ensures Next(open + after) == Step(Skipped, DropContent(after, NameAt(open[1..|open| - 1])))
  {
    hide ScanEnd, TagEnd, TagToken, IsContentDropped, NameAt;
    var s := open + after;
    TagEndPrefix(open, after);
    assert s[1..|open| - 1] == open[1..|open| - 1] && s[|open|..] == after;
    assert s[1] != '/';
    NextOfTag(s, |open|);
    TagTokenIs(s, |open|, open[1..|open| - 1], after);
  }

  /**
   What stands inside a dropped element never reaches the output: wherever the element stands and
   whether or not it is ever closed, the sanitizer goes on as if what follows its end were next.
   */
  lemma DroppedContentIsGone(open: string, after: string, k: nat, text: string, stack: seq<string>)
    requires OpensDropped(open) && EndsAt(after, 0, k, NameAt(open[1..|open| - 1]))
    ensures Tail(open + after, text, stack) == FlushText(text) + Tail(PastTag(after, k), "", stack)
  {
    var name := NameAt(open[1..|open| - 1]);
    OpensDroppedIs(open, after);
    DropContentIs(after, 0, k, name);
    assert after[0..] == after;
    hide Next, Tail, FlushText, DropContent, TagEnd, NameAt, OpensDropped, EndsAt, PastTag;
    TailOfNone(open + after, text, stack);
  }

  /** An element that is never closed drops the rest of the document. */
  lemma UnclosedDropsTheRest(open: string, after: string, text: string, stack: seq<string>)
    requires OpensDropped(open)
    requires forall n :: 0 <= n < |after| && after[n] == '<' ==> !ClosesElement(after[n..], NameAt(open[1..|open| - 1]))
    ensures Tail(open + after, text, stack) == FlushText(text) + Print(Closers(stack))
  {
    DroppedContentIsGone(open, after, |after|, text, stack);
    hide Tail, FlushText, OpensDropped, ClosesElement, NameAt, Print, Closers;
    TailOfNothing("", stack);
    FlushNothing();
    assert "" + Print(Closers(stack)) == Print(Closers(stack));
  }

  lemma FlushNothing()
    ensures FlushText("") == ""
  {
  }

  // ----- which characters end a dropped element -----

  /** The close tag proper: the check passes behind `</`. */
  predicate ClosesProperly(s: string, name: string) { |s| > 1 && s[0] == '<' && s[1] == '/' && ClosesElement(s, name) }

  /** `p` is where the first proper close tag stands, the end of the input when there is none. */
  ghost predicate FirstProper(s: string, p: nat, name: string) {
    && p <= |s|
    && (forall n :: 0 <= n < p ==> !ClosesProperly(s[n..], name))
    && (p < |s| ==> ClosesProperly(s[p..], name))
  }

  /**
   Dropping ends at the first proper close tag exactly when no `<` before it has, behind a character
   other than `/`, the name and a terminator.
   */
  lemma EndsProperlyIff(s: string, k: nat, p: nat, name: string)
    requires name != "" && EndsAt(s, 0, k, name) && FirstProper(s, p, name)
    ensures k == p <==>
            forall n :: 0 <= n < p && s[n] == '<' && n + 1 < |s| && s[n + 1] != '/' ==> !ClosesElement(s[n..], name)
  {
    hide ClosesElement;
    if p < |s| {
      assert s[p..][0] == s[p] == '<' && k <= p;
    }
    forall n | 0 <= n < |s| && ClosesElement(s[n..], name)
      ensures n + 1 < |s| && (s[n] == '<' && s[n + 1] == '/' ==> ClosesProperly(s[n..], name))
    {
      CheckedIsLong(s[n..], name);
      assert s[n..][0] == s[n] && s[n..][1] == s[n + 1];
    }
  }

  lemma CheckedIsLong(s: string, name: string)
    requires name != "" && ClosesElement(s, name)
    ensures |s| > 2
  {
  }

  /**
   The check does not look at the character after the `<`: with any character there dropping ends, and
   unless that character opens a quote or ends the tag, what stands behind the name is next.
   */
  lemma AnySecondCharacterEndsDropped(c: char, name: string, rest: string)
    requires IsContentDropped(name)
    ensures var s := ['<', c] + name + ['>'] + rest;
      && EndsAt(s, 0, 0, name)
      && DropContent(s, name) == PastTag(s, 0)
      && (c == '>' ==> DropContent(s, name) == name + ['>'] + rest)
      && (c != '"' && c != '\'' && c != '>' ==> DropContent(s, name) == rest)
  {
    hide DropContent, ClosesElement, IsContentDropped, TagEnd;
    var s := ['<', c] + name + ['>'] + rest;
    NameIsChecked(c, name, rest);
    assert s[0..] == s;
    DropContentIs(s, 0, 0, name);
    TagEndsBehindName(c, name, rest);
    assert s[2..] == name + ['>'] + rest && s[|name| + 3..] == rest;
  }

  lemma NameIsChecked(c: char, name: string, rest: string)
    requires IsContentDropped(name)
    ensures ClosesElement(['<', c] + name + ['>'] + rest, name)
  {
    var s := ['<', c] + name + ['>'] + rest;
    assert forall i :: 0 <= i < |name| ==> IsLowerAlpha(name[i]);
    assert ToLower(name) == name;
    assert s[2..2 + |name|] == name;
  }

  lemma TagEndsBehindName(c: char, name: string, rest: string)
    requires IsContentDropped(name)
    ensures var s := ['<', c] + name + ['>'] + rest;
      && (c == '>' ==> TagEnd(s, 0) == 2)
      && (c != '"' && c != '\'' && c != '>' ==> TagEnd(s, 0) == |name| + 3)
  {
    assert '>' !in name && '"' !in name && '\'' !in name;
    hide ScanEnd, IsContentDropped;
    var s, tail := ['<', c] + name + ['>'] + rest, ['>'] + rest;
    assert s[1..] == ([c] + name) + tail;
    ScanGt(rest);
    if c == '>' {
      assert s[1..] == ['>'] + (name + tail);
      ScanGt(name + tail);
    } else if c != '"' && c != '\'' {
      ScanPast([c] + name, tail, None);
    }
  }
}
