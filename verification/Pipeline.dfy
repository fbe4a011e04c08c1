/**
 The sanitizer as a pipeline of simple passes: tokenize, clean, balance, print.
 */
module Pipeline {
  import opened Text
  import opened Entities
  import opened Attributes
  import opened Tokenizer

  // ----- the tags -----

  predicate IsAllowedTag(name: string) {
    name in {
      "p", "br", "strong", "b", "em", "i", "u", "s", "blockquote",
      "h1", "h2", "h3", "h4", "h5", "h6", "ul", "ol", "li", "a", "img", "hr",
      "pre", "code", "span", "div", "table", "thead", "tbody", "tr", "th", "td",
      "figure", "figcaption"
    }
  }

  predicate IsVoidTag(name: string) { name in {"br", "hr", "img"} }

  /** A name that is read back whole, and in the same case. */
  predicate IsTagName(name: string) {
    && name != "" && IsLowerAlpha(name[0])
    && forall i :: 0 <= i < |name| ==> IsLowerAlpha(name[i]) || IsDigit(name[i])
  }

  lemma AllowedTagShape(name: string)
    requires IsAllowedTag(name)
    ensures IsTagName(name) && !IsContentDropped(name)
  {
    if |name| <= 2 {
      ShortTagShape(name);
    } else {
      LongTagShape(name);
    }
  }

  lemma ShortTagShape(name: string)
    requires IsAllowedTag(name) && |name| <= 2
    ensures IsTagName(name) && !IsContentDropped(name)
  {
  }

  lemma LongTagShape(name: string)
    requires IsAllowedTag(name) && |name| > 2
    ensures IsTagName(name) && !IsContentDropped(name)
  {
  }

  // ----- pieces of output -----

  datatype Piece =
    | Words(text: string)                 // decoded text
    | Start(name: string, kept: Attrs)
    | End(name: string)

  function PrintPiece(p: Piece): string {
    match p
    case Words(text) => EscapeText(text)
    case Start(name, kept) => ['<'] + (name + PrintAttrs(kept)) + ['>']
    case End(name) => ['<'] + (['/'] + name) + ['>']
  }

  function Print(ps: seq<Piece>): string {
    if ps == [] then "" else PrintPiece(ps[0]) + Print(ps[1..])
  }

  lemma {:induction false} PrintConcat(a: seq<Piece>, b: seq<Piece>)
    ensures Print(a + b) == Print(a) + Print(b)
  {
    hide PrintPiece;
    if a == [] {
      assert a + b == b;
    } else {
      assert (a + b)[1..] == a[1..] + b;
      PrintConcat(a[1..], b);
    }
  }

  // ----- clean: merge text, decode it once, keep what is allowlisted -----

  /** The pending text as a piece; nothing is flushed when nothing is pending. */
  function Flush(pending: string): seq<Piece> {
    if pending == "" then [] else [Words(DecodeEntities(pending))]
  }

  /** What a token other than text contributes: one piece or none. */
  function Kept(t: Token): seq<Piece> {
    match t
    case Close(name) => if name == "" || IsVoidTag(name) then [] else [End(name)]
    case Open(name, attrs) =>
      if IsAllowedTag(name) then
        match Keep(name, attrs)
        case None => []
        case Some(kept) => [Start(name, kept)]
      else []
    case _ => []
  }

  function Clean(ts: seq<Token>, pending: string): seq<Piece> {
    if ts == [] then Flush(pending)
    else if ts[0].Chars? then Clean(ts[1..], pending + ts[0].raw)
    else Flush(pending) + Kept(ts[0]) + Clean(ts[1..], "")
  }

  // ----- balance: close what is misnested, drop what closes nothing -----

  /** The index of the last `name` on the stack, or -1 when it is not open. */
  function LastOpen(stack: seq<string>, name: string): (at: int)
    ensures -1 <= at < |stack|
    ensures at >= 0 ==> stack[at] == name
    ensures forall i :: at < i < |stack| ==> stack[i] != name
  {
    if stack == [] then -1
    else if stack[|stack| - 1] == name then |stack| - 1
    else LastOpen(stack[..|stack| - 1], name)
  }

  /** The close tags of a stack, innermost first. */
  function Closers(stack: seq<string>): seq<Piece> {
    if stack == [] then [] else [End(stack[|stack| - 1])] + Closers(stack[..|stack| - 1])
  }

  function BalancePiece(p: Piece, stack: seq<string>): seq<Piece> {
    match p
    case End(name) =>
      var at := LastOpen(stack, name);
      if at == -1 then [] else Closers(stack[at..])
    case _ => [p]
  }

  function StackAfter(p: Piece, stack: seq<string>): seq<string> {
    match p
    case Words(_) => stack
    case Start(name, _) => if IsVoidTag(name) then stack else stack + [name]
    case End(name) =>
      var at := LastOpen(stack, name);
      if at == -1 then stack else stack[..at]
  }

  function Balance(ps: seq<Piece>, stack: seq<string>): seq<Piece> {
    if ps == [] then Closers(stack)
    else BalancePiece(ps[0], stack) + Balance(ps[1..], StackAfter(ps[0], stack))
  }

  // ----- the sanitizer -----

  /** The pieces of a document: its once-decoded text and its allowlisted tags. */
  function Pieces(input: string): seq<Piece> { Clean(Lex(input), "") }

  function Sanitize(input: string): string { Print(Balance(Pieces(input), [])) }

  // ----- what the output may consist of -----

  predicate AllowedPiece(p: Piece) {
    match p
    case Words(_) => true
    case Start(name, kept) => IsAllowedTag(name) && AllowedAttrs(name, kept)
    case End(name) => IsAllowedTag(name) && !IsVoidTag(name)
  }

  ghost predicate AllAllowed(ps: seq<Piece>) { forall i :: 0 <= i < |ps| ==> AllowedPiece(ps[i]) }

  /** Starting inside the elements of `stack`, every close tag matches and everything is closed. */
  predicate Nested(ps: seq<Piece>, stack: seq<string>) {
    if ps == [] then stack == []
    else
      match ps[0]
      case End(name) => stack != [] && stack[|stack| - 1] == name && Nested(ps[1..], stack[..|stack| - 1])
      case _ => Nested(ps[1..], StackAfter(ps[0], stack))
  }

  ghost predicate OpenElements(stack: seq<string>) {
    forall i :: 0 <= i < |stack| ==> IsAllowedTag(stack[i]) && !IsVoidTag(stack[i])
  }

  // ----- every output is allowed and well nested -----

  /** `ps` may follow anything: whatever close tags it holds, they are of elements that can be open. */
  lemma {:induction false} CleanKeepsPolicy(ts: seq<Token>, pending: string)
    ensures forall i :: 0 <= i < |Clean(ts, pending)| ==>
              var p := Clean(ts, pending)[i]; p.End? || AllowedPiece(p)
  {
    hide IsAllowedTag, IsVoidTag, Keep, AllowedAttrs, DecodeEntities;
    if ts != [] {
      if ts[0].Chars? {
        CleanKeepsPolicy(ts[1..], pending + ts[0].raw);
      } else {
        CleanKeepsPolicy(ts[1..], "");
        KeptKeepsPolicy(ts[0]);
      }
    }
  }

  lemma KeptKeepsPolicy(t: Token)
    ensures forall i :: 0 <= i < |Kept(t)| ==> Kept(t)[i].End? || AllowedPiece(Kept(t)[i])
  {
    hide IsAllowedTag, IsVoidTag, Keep, AllowedAttrs;
    if t.Open? && Keep(t.name, t.attrs).Some? {
      KeptIsAllowed(t.name, t.attrs);
    }
  }

  lemma {:induction false} ClosersNested(closed: seq<string>, stack: seq<string>, rest: seq<Piece>)
    requires Nested(rest, stack)
    ensures Nested(Closers(closed) + rest, stack + closed)
  {
    if closed == [] {
      assert Closers(closed) + rest == rest && stack + closed == stack;
    } else {
      var inner := closed[..|closed| - 1];
      ClosersNested(inner, stack, rest);
      assert Closers(closed) + rest == [End(closed[|closed| - 1])] + (Closers(inner) + rest);
      assert (stack + closed)[..|stack + closed| - 1] == stack + inner;
    }
  }

  lemma {:induction false} ClosersAllowed(stack: seq<string>)
    requires OpenElements(stack)
    ensures AllAllowed(Closers(stack))
  {
    hide IsAllowedTag, IsVoidTag;
    if stack != [] {
      ClosersAllowed(stack[..|stack| - 1]);
    }
  }

  lemma StackStaysOpen(p: Piece, stack: seq<string>)
    requires OpenElements(stack) && (p.End? || AllowedPiece(p))
    ensures OpenElements(StackAfter(p, stack))
  {
    hide IsAllowedTag, IsVoidTag, AllowedAttrs;
  }

  lemma NestedCons(p: Piece, rest: seq<Piece>, stack: seq<string>)
    ensures Nested([p] + rest, stack) ==
      if p.End? then stack != [] && stack[|stack| - 1] == p.name && Nested(rest, stack[..|stack| - 1])
      else Nested(rest, StackAfter(p, stack))
  {
    assert ([p] + rest)[1..] == rest;
  }

  /** Balancing one piece, in front of what is nested in the stack it leaves. */
  lemma {:induction false} PieceIsNested(p: Piece, rest: seq<Piece>, stack: seq<string>)
    requires OpenElements(stack) && (p.End? || AllowedPiece(p))
    requires Nested(rest, StackAfter(p, stack)) && AllAllowed(rest)
    ensures Nested(BalancePiece(p, stack) + rest, stack) && AllAllowed(BalancePiece(p, stack) + rest)
  {
    hide IsAllowedTag, IsVoidTag, AllowedPiece, Nested;
    if p.End? {
      var at := LastOpen(stack, p.name);
      if at == -1 {
        assert BalancePiece(p, stack) == [] && StackAfter(p, stack) == stack && [] + rest == rest;
        hide *;
      } else {
        assert BalancePiece(p, stack) == Closers(stack[at..]) && StackAfter(p, stack) == stack[..at];
        assert OpenElements(stack[at..]);
        hide BalancePiece, StackAfter, LastOpen, Closers, OpenElements;
        ClosersNested(stack[at..], stack[..at], rest);
        ClosersAllowed(stack[at..]);
        assert stack[..at] + stack[at..] == stack;
      }
    } else {
      assert BalancePiece(p, stack) == [p];
      NestedCons(p, rest, stack);
      hide StackAfter, OpenElements, BalancePiece;
    }
  }

  /**
   Whatever comes out of cleaning, balancing it from any open elements gives allowed pieces that
   are well nested: the output is balanced on misnested and on truncated input alike.
   */
  lemma {:induction false} BalanceIsNested(ps: seq<Piece>, stack: seq<string>)
    requires OpenElements(stack)
    requires forall i :: 0 <= i < |ps| ==> ps[i].End? || AllowedPiece(ps[i])
    ensures Nested(Balance(ps, stack), stack) && AllAllowed(Balance(ps, stack))
  {
    hide AllowedPiece;
    if ps == [] {
      ClosersNested(stack, [], []);
      ClosersAllowed(stack);
      assert Closers(stack) + [] == Closers(stack) && [] + stack == stack;
    } else {
      hide StackAfter, BalancePiece, Nested, OpenElements;
      var stack' := StackAfter(ps[0], stack);
      StackStaysOpen(ps[0], stack);
      BalanceIsNested(ps[1..], stack');
      PieceIsNested(ps[0], Balance(ps[1..], stack'), stack);
    }
  }

  lemma OutputIsAllowedAndNested(input: string)
    ensures Nested(Balance(Pieces(input), []), []) && AllAllowed(Balance(Pieces(input), []))
  {
    CleanKeepsPolicy(Lex(input), "");
    BalanceIsNested(Pieces(input), []);
  }
}
