/**
 What a reader of the output string can rely on, stated on the string: a strict reader of tags that
 knows nothing of the tokenizer accepts every output and ends with nothing open.
 */
module OutputShape {
  import opened Text
  import opened Entities
  import opened Attributes
  import opened Tokenizer
  import opened Pipeline

  // ----- a strict reader -----

  /** A tag by what stands between its brackets, and what it does to the open elements; `None` rejects. */
  function StrictTag(inner: string, stack: seq<string>): Option<seq<string>> {
    if inner != "" && inner[0] == '/' then
      if stack != [] && stack[|stack| - 1] == inner[1..] then Some(stack[..|stack| - 1]) else None
    else
      var name := inner[..IndexOf(inner, ' ')];
      if !IsAllowedTag(name) then None
      else if IsVoidTag(name) then Some(stack)
      else Some(stack + [name])
  }

  /**
   The open elements after reading `s` inside `stack`. A `<` starts a tag that ends at the very next
   `>`, a `>` stands nowhere else, every name is allowlisted, every close tag closes the innermost
   open element; `None` when one of these fails.
   */
  function StrictRead(s: string, stack: seq<string>): Option<seq<string>>
    decreases |s|
  {
    if s == "" then Some(stack)
    else if s[0] == '>' then None
    else if s[0] != '<' then StrictRead(s[1..], stack)
    else
      var end := IndexOf(s, '>');
      if end == |s| then None else
        match StrictTag(s[1..end], stack)
        case None => None
        case Some(stack') => StrictRead(s[end + 1..], stack')
  }

  // ----- reading in parts -----

  lemma {:induction false} ReadText(a: string, b: string, stack: seq<string>)
    requires '<' !in a && '>' !in a
    ensures StrictRead(a + b, stack) == StrictRead(b, stack)
  {
    if a == "" {
      assert a + b == b;
    } else {
      assert (a + b)[1..] == a[1..] + b;
      ReadText(a[1..], b, stack);
    }
  }

  lemma ReadTag(inner: string, b: string, stack: seq<string>)
    requires '>' !in inner
    ensures StrictRead(['<'] + inner + ['>'] + b, stack)
         == match StrictTag(inner, stack)
            case None => None
            case Some(stack') => StrictRead(b, stack')
  {
    hide StrictTag;
    var s := ['<'] + inner + ['>'] + b;
    IndexOfIs(['<'] + inner, '>', b);
    assert s[1..|inner| + 1] == inner && s[|inner| + 2..] == b;
  }

  lemma {:induction false} IndexOfConcat(a: string, b: string, c: char)
    requires c in a
    ensures IndexOf(a + b, c) == IndexOf(a, c) < |a|
  {
    if a[0] != c {
      assert (a + b)[1..] == a[1..] + b;
      IndexOfConcat(a[1..], b, c);
    }
  }

  /** Reading a string that ends between tags and then another is reading them one after the other. */
  lemma {:induction false} StrictReadConcat(a: string, b: string, stack: seq<string>)
    requires StrictRead(a, stack).Some?
    ensures StrictRead(a + b, stack) == StrictRead(b, StrictRead(a, stack).value)
    decreases |a|
  {
    hide StrictTag;
    if a == "" {
      assert a + b == b;
    } else if a[0] != '<' {
      assert (a + b)[1..] == a[1..] + b;
      StrictReadConcat(a[1..], b, stack);
    } else {
      var end := IndexOf(a, '>');
      assert a[end] == '>';
      IndexOfConcat(a, b, '>');
      assert (a + b)[1..end] == a[1..end] && (a + b)[end + 1..] == a[end + 1..] + b;
      StrictReadConcat(a[end + 1..], b, StrictTag(a[1..end], stack).value);
    }
  }

  // ----- every piece is read as what it is -----

  lemma AttrHasNoMarkup(name: string, value: string)
    requires IsPlainName(name)
    ensures '<' !in PrintAttr(name, value) && '>' !in PrintAttr(name, value)
  {
    EscapeLeavesNoMarkup(value);
  }

  lemma OptionHasNoMarkup(name: string, value: Option<string>)
    requires IsPlainName(name)
    ensures '<' !in PrintOption(name, value) && '>' !in PrintOption(name, value)
  {
    if value.Some? { AttrHasNoMarkup(name, value.value); }
  }

  lemma AttrsHaveNoMarkup(kept: Attrs)
    ensures '<' !in PrintAttrs(kept) && '>' !in PrintAttrs(kept)
  {
    hide PrintAttr, PrintOption;
    match kept
    case NoAttrs =>
    case Href(url) => AttrHasNoMarkup("href", url);
    case Image(src, alt, width, height) =>
      AttrHasNoMarkup("src", src);
      OptionHasNoMarkup("alt", alt);
      OptionHasNoMarkup("width", width);
      OptionHasNoMarkup("height", height);
  }

  /** What stands between the brackets of a printed tag. */
  function Inner(p: Piece): string
    requires !p.Words?
  {
    if p.Start? then p.name + PrintAttrs(p.kept) else ['/'] + p.name
  }

  lemma InnerHasNoMarkup(p: Piece)
    requires !p.Words? && IsTagName(p.name)
    ensures '<' !in Inner(p) && '>' !in Inner(p)
    ensures PrintPiece(p) == ['<'] + Inner(p) + ['>']
  {
    hide PrintAttrs;
    if p.Start? { AttrsHaveNoMarkup(p.kept); }
  }

  lemma NameEndsAtSpace(name: string, attrs: string)
    requires IsTagName(name) && (attrs != "" ==> attrs[0] == ' ')
    ensures IndexOf(name + attrs, ' ') == |name| && (name + attrs)[..|name|] == name
  {
    assert forall i :: 0 <= i < |name| ==> name[i] != ' ';
    hide IsTagName, IndexOf;
    if attrs == "" {
      assert name + attrs == name;
    } else {
      assert name + attrs == name + [' '] + attrs[1..];
      IndexOfIs(name, ' ', attrs[1..]);
    }
  }

  lemma StrictStart(name: string, kept: Attrs, stack: seq<string>)
    requires IsAllowedTag(name)
    ensures StrictTag(name + PrintAttrs(kept), stack) == Some(StackAfter(Start(name, kept), stack))
  {
    AllowedTagShape(name);
    AttrsStartWithSpace(kept);
    assert (name + PrintAttrs(kept))[0] == name[0] != '/';
    hide IsAllowedTag, IsVoidTag, PrintAttrs, IsTagName, IndexOf;
    NameEndsAtSpace(name, PrintAttrs(kept));
  }

  /** Reading a printed piece does to the open elements what the piece does. */
  lemma ReadPiece(p: Piece, rest: string, stack: seq<string>)
    requires AllowedPiece(p)
    requires p.End? ==> stack != [] && stack[|stack| - 1] == p.name
    ensures StrictRead(PrintPiece(p) + rest, stack)
         == StrictRead(rest, if p.End? then stack[..|stack| - 1] else StackAfter(p, stack))
  {
    match p
    case Words(text) =>
      EscapeLeavesNoMarkup(text);
      ReadText(EscapeText(text), rest, stack);
    case Start(name, kept) =>
      AllowedTagShape(name);
      StrictStart(name, kept, stack);
      hide StrictRead, StrictTag, PrintAttrs, IsAllowedTag, IsTagName;
      InnerHasNoMarkup(p);
      ReadTag(name + PrintAttrs(kept), rest, stack);
    case End(name) =>
      AllowedTagShape(name);
      hide StrictRead, PrintAttrs, IsAllowedTag, IsTagName;
      InnerHasNoMarkup(p);
      ReadTag(['/'] + name, rest, stack);
      assert (['/'] + name)[1..] == name;
  }

  lemma {:induction false} ReadPrintedNested(ps: seq<Piece>, stack: seq<string>)
    requires AllAllowed(ps) && Nested(ps, stack)
    ensures StrictRead(Print(ps), stack) == Some([])
  {
    hide AllowedPiece, StrictRead, PrintPiece;
    if ps == [] {
      ReadNothing(stack);
    } else {
      ReadPiece(ps[0], Print(ps[1..]), stack);
      ReadPrintedNested(ps[1..], if ps[0].End? then stack[..|stack| - 1] else StackAfter(ps[0], stack));
    }
  }

  lemma ReadNothing(stack: seq<string>)
    ensures StrictRead("", stack) == Some(stack)
  {
  }

  /** Every output is accepted by the strict reader and leaves nothing open. */
  lemma OutputIsStrictlyNested(input: string)
    ensures StrictRead(Sanitize(input), []) == Some([])
  {
    OutputIsAllowedAndNested(input);
    ReadPrintedNested(Balance(Pieces(input), []), []);
  }

  // ----- while the output is being written -----

  /** The stack the sanitizer keeps is exactly what the strict reader has open after the output so far. */
  ghost predicate Consistent(out: string, stack: seq<string>) {
    StrictRead(out, []) == Some(stack) && OpenElements(stack)
  }

  lemma AppendPiece(out: string, p: Piece, stack: seq<string>)
    requires Consistent(out, stack) && AllowedPiece(p)
    requires p.End? ==> stack != [] && stack[|stack| - 1] == p.name
    ensures Consistent(out + PrintPiece(p), if p.End? then stack[..|stack| - 1] else StackAfter(p, stack))
  {
    hide StrictRead, PrintPiece, IsAllowedTag, IsVoidTag, AllowedAttrs;
    StrictReadConcat(out, PrintPiece(p), []);
    ReadPiece(p, "", stack);
    assert PrintPiece(p) + "" == PrintPiece(p);
    ReadNothing(if p.End? then stack[..|stack| - 1] else StackAfter(p, stack));
  }

  // ----- every `<` of the output -----

  lemma NoMarkupInside(inner: string, rest: string, k: nat)
    requires '<' !in inner && k < |inner| + 2
    ensures (['<'] + inner + ['>'] + rest)[k] == '<' ==> k == 0
  {
    assert forall j :: 0 < j <= |inner| ==> (['<'] + inner + ['>'] + rest)[j] == inner[j - 1];
  }

  lemma {:induction false} LtOfPrinted(ps: seq<Piece>, k: nat) returns (p: Piece)
    requires AllAllowed(ps)
    requires k < |Print(ps)| && Print(ps)[k] == '<'
    ensures AllowedPiece(p) && !p.Words? && PrintPiece(p) <= Print(ps)[k..]
  {
    hide AllowedPiece, PrintPiece;
    var first := PrintPiece(ps[0]);
    var rest := Print(ps[1..]);
    if k >= |first| {
      p := LtOfPrinted(ps[1..], k - |first|);
      assert Print(ps)[k..] == rest[k - |first|..];
    } else {
      LtInPiece(ps[0], rest, k);
      p := ps[0];
      assert Print(ps)[0..] == first + rest;
    }
  }

  lemma LtInPiece(p: Piece, rest: string, k: nat)
    requires AllowedPiece(p) && k < |PrintPiece(p)|
    ensures (PrintPiece(p) + rest)[k] == '<' ==> !p.Words? && k == 0
  {
    if p.Words? {
      EscapeLeavesNoMarkup(p.text);
      assert (PrintPiece(p) + rest)[k] in EscapeText(p.text);
    } else {
      AllowedTagShape(p.name);
      hide IsAllowedTag, IsTagName, PrintAttrs;
      InnerHasNoMarkup(p);
      NoMarkupInside(Inner(p), rest, k);
    }
  }

  /**
   Every `<` of the output starts an allowlisted tag: an open tag with the attributes the policy
   allows that element, or the close tag of an element that is not void.
   */
  lemma EveryLtStartsAnAllowedTag(input: string, k: nat) returns (p: Piece)
    requires k < |Sanitize(input)| && Sanitize(input)[k] == '<'
    ensures AllowedPiece(p) && !p.Words? && PrintPiece(p) <= Sanitize(input)[k..]
  {
    OutputIsAllowedAndNested(input);
    p := LtOfPrinted(Balance(Pieces(input), []), k);
  }
}
