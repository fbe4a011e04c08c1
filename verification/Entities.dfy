/**
 Character references: decoding, done once, and the two escapes the printer applies.
 */
module Entities {
  import opened Text

  const MAX_CODE_POINT := 0x10FFFF

  // ----- the table of named references -----

  function Named(name: string): Option<string> {
    if name == "amp" then Some("&")
    else if name == "lt" then Some("<")
    else if name == "gt" then Some(">")
    else if name == "quot" then Some("\"")
    else OtherNamed(name)
  }

  function OtherNamed(name: string): Option<string> {
    if name == "apos" then Some("'")
    else if name == "nbsp" then Some("\U{00A0}")
    else if name == "colon" then Some(":")
    else if name == "semi" then Some(";")
    else if name == "sol" then Some("/")
    else if name == "bsol" then Some("\\")
    else if name == "tab" then Some("\t")
    else if name == "newline" then Some("\n")
    else if name == "cr" then Some("\r")
    else if name == "excl" then Some("!")
    else if name == "quest" then Some("?")
    else if name == "num" then Some("#")
    else if name == "dollar" then Some("$")
    else if name == "percnt" then Some("%")
    else if name == "commat" then Some("@")
    else if name == "period" then Some(".")
    else if name == "comma" then Some(",")
    else if name == "hyphen" then Some("-")
    else if name == "lowbar" then Some("_")
    else if name == "plus" then Some("+")
    else if name == "equals" then Some("=")
    else if name == "ast" then Some("*")
    else if name == "lpar" then Some("(")
    else if name == "rpar" then Some(")")
    else if name == "lsqb" then Some("[")
    else if name == "rsqb" then Some("]")
    else if name == "lcub" then Some("{")
    else if name == "rcub" then Some("}")
    else if name == "lbrace" then Some("{")
    else if name == "rbrace" then Some("}")
    else if name == "verbar" then Some("|")
    else if name == "circ" then Some("^")
    else if name == "grave" then Some("`")
    else if name == "tilde" then Some("~")
    else if name == "copy" then Some("\U{00A9}")
    else if name == "reg" then Some("\U{00AE}")
    else if name == "trade" then Some("\U{2122}")
    else if name == "hellip" then Some("\U{2026}")
    else if name == "mdash" then Some("\U{2014}")
    else if name == "ndash" then Some("\U{2013}")
    else if name == "lsquo" then Some("\U{2018}")
    else if name == "rsquo" then Some("\U{2019}")
    else if name == "ldquo" then Some("\U{201C}")
    else if name == "rdquo" then Some("\U{201D}")
    else if name == "bull" then Some("\U{2022}")
    else if name == "dagger" then Some("\U{2020}")
    else if name == "deg" then Some("\U{00B0}")
    else if name == "middot" then Some("\U{00B7}")
    else if name == "laquo" then Some("\U{00AB}")
    else if name == "raquo" then Some("\U{00BB}")
    else if name == "times" then Some("\U{00D7}")
    else if name == "divide" then Some("\U{00F7}")
    else if name == "euro" then Some("\U{20AC}")
    else if name == "pound" then Some("\U{00A3}")
    else if name == "yen" then Some("\U{00A5}")
    else if name == "cent" then Some("\U{00A2}")
    else if name == "sect" then Some("\U{00A7}")
    else if name == "para" then Some("\U{00B6}")
    else if name == "frac12" then Some("\U{00BD}")
    else if name == "sup2" then Some("\U{00B2}")
    else if name == "sup3" then Some("\U{00B3}")
    else None
  }

  // ----- decoding -----

  /** `Number.parseInt(digits, base)` on a string of digits of that base. */
  function ParseNumber(digits: string, base: nat): nat
    requires forall c :: c in digits ==> IsHexDigit(c)
  {
    if digits == "" then 0
    else ParseNumber(digits[..|digits| - 1], base) * base + HexValue(digits[|digits| - 1])
  }

  function FromCodePoint(codePoint: nat): string {
    if codePoint > MAX_CODE_POINT then ""
    else if 0xD800 <= codePoint < 0xE000 then "\U{FFFD}"
    else [codePoint as char]
  }

  /** The length of the text between `&` and `;` of a reference, 0 when `s` does not start with one. */
  function ReferenceBody(s: string): (n: nat)
    ensures n <= |s|
    ensures n > 0 && s[0] == '#' ==>
      || (1 < n && forall c :: c in s[1..n] ==> IsDigit(c))
      || (2 < n && s[1] == 'x' && forall c :: c in s[2..n] ==> IsHexDigit(c))
    ensures n > 0 && s[0] != '#' ==> forall c :: c in s[..n] ==> IsAlnum(c)
  {
    if |s| >= 2 && s[0] == '#' && IsDigit(s[1]) then 1 + Span(s[1..], IsDigit)
    else if |s| >= 3 && s[0] == '#' && s[1] == 'x' && IsHexDigit(s[2]) then 2 + Span(s[2..], IsHexDigit)
    else if |s| >= 1 && IsAlpha(s[0]) then Span(s, IsAlnum)
    else 0
  }

  function DecodeReference(entity: string): string
    requires entity != ""
    requires entity[0] == '#' ==>
      || (1 < |entity| && forall c :: c in entity[1..] ==> IsDigit(c))
      || (2 < |entity| && entity[1] == 'x' && forall c :: c in entity[2..] ==> IsHexDigit(c))
  {
    if entity[0] == '#' then
      if entity[1] == 'x' then FromCodePoint(ParseNumber(entity[2..], 16))
      else FromCodePoint(ParseNumber(entity[1..], 10))
    else
      match Named(entity)
      case Some(text) => text
      case None =>
        match Named(ToLower(entity))
        case Some(text) => text
        case None => "&" + entity + ";"
  }

  function DecodeEntities(s: string): string
    decreases |s|
  {
    if s == "" then ""
    else if s[0] == '&' then
      var n := ReferenceBody(s[1..]);
      if n > 0 && n + 1 < |s| && s[n + 1] == ';' then
        assert s[1..][..n] == s[1..n + 1];
        DecodeReference(s[1..n + 1]) + DecodeEntities(s[n + 2..])
      else
        "&" + DecodeEntities(s[1..])
    else [s[0]] + DecodeEntities(s[1..])
  }

  // ----- escaping -----

  function EscapeText(s: string): string {
    ReplaceAll(ReplaceAll(ReplaceAll(s, '&', "&amp;"), '<', "&lt;"), '>', "&gt;")
  }

  function EscapeAttr(s: string): string {
    ReplaceAll(ReplaceAll(ReplaceAll(ReplaceAll(s, '&', "&amp;"), '"', "&quot;"), '<', "&lt;"), '>', "&gt;")
  }

  /** What one character becomes; `quote` says whether the double quote is escaped too. */
  function EscapedChar(c: char, quote: bool): string {
    if c == '&' then "&amp;"
    else if c == '<' then "&lt;"
    else if c == '>' then "&gt;"
    else if quote && c == '"' then "&quot;"
    else [c]
  }

  lemma ReplaceAngles(s: string)
    requires '<' !in s && '>' !in s
    ensures ReplaceAll(ReplaceAll(s, '<', "&lt;"), '>', "&gt;") == s
  {
    ReplaceAllAbsent(s, '<', "&lt;");
    ReplaceAllAbsent(s, '>', "&gt;");
  }

  lemma ReplaceAnglesChar(c: char)
    requires c != '&'
    ensures ReplaceAll(ReplaceAll([c], '<', "&lt;"), '>', "&gt;") == EscapedChar(c, false)
  {
    ReplaceOne(c, '<', "&lt;");
    ReplaceOne(c, '>', "&gt;");
    var lt := "&lt;";
    ReplaceAllAbsent(lt, '>', "&gt;");
  }

  lemma EscapeTextChar(c: char)
    ensures EscapeText([c]) == EscapedChar(c, false)
  {
    ReplaceOne(c, '&', "&amp;");
    if c == '&' {
      var amp := "&amp;";
      ReplaceAngles(amp);
    } else {
      ReplaceAnglesChar(c);
    }
  }

  lemma ReplaceMarkup(s: string)
    requires '"' !in s && '<' !in s && '>' !in s
    ensures ReplaceAll(ReplaceAll(ReplaceAll(s, '"', "&quot;"), '<', "&lt;"), '>', "&gt;") == s
  {
    ReplaceAllAbsent(s, '"', "&quot;");
    ReplaceAngles(s);
  }

  lemma EscapeAttrChar(c: char)
    ensures EscapeAttr([c]) == EscapedChar(c, true)
  {
    ReplaceOne(c, '&', "&amp;");
    if c == '&' {
      var amp := "&amp;";
      ReplaceMarkup(amp);
    } else {
      ReplaceOne(c, '"', "&quot;");
      if c == '"' {
        var quot := "&quot;";
        ReplaceAngles(quot);
      } else {
        ReplaceAnglesChar(c);
      }
    }
  }

  /** Escaping distributes over concatenation, so text flushed in two pieces prints as one. */
  lemma EscapeTextConcat(a: string, b: string)
    ensures EscapeText(a + b) == EscapeText(a) + EscapeText(b)
  {
    ReplaceAllConcat(a, b, '&', "&amp;");
    var a1, b1 := ReplaceAll(a, '&', "&amp;"), ReplaceAll(b, '&', "&amp;");
    ReplaceAllConcat(a1, b1, '<', "&lt;");
    ReplaceAllConcat(ReplaceAll(a1, '<', "&lt;"), ReplaceAll(b1, '<', "&lt;"), '>', "&gt;");
  }

  lemma EscapeAttrConcat(a: string, b: string)
    ensures EscapeAttr(a + b) == EscapeAttr(a) + EscapeAttr(b)
  {
    ReplaceAllConcat(a, b, '&', "&amp;");
    var a1, b1 := ReplaceAll(a, '&', "&amp;"), ReplaceAll(b, '&', "&amp;");
    ReplaceAllConcat(a1, b1, '"', "&quot;");
    var a2, b2 := ReplaceAll(a1, '"', "&quot;"), ReplaceAll(b1, '"', "&quot;");
    ReplaceAllConcat(a2, b2, '<', "&lt;");
    ReplaceAllConcat(ReplaceAll(a2, '<', "&lt;"), ReplaceAll(b2, '<', "&lt;"), '>', "&gt;");
  }

  /** `EscapeText` and `EscapeAttr` by recursion on characters: the replacements do not meet each other. */
  function Escaped(s: string, quote: bool): string { MapChars(s, EscapedChars(quote)) }

  function EscapedChars(quote: bool): char -> string { c => EscapedChar(c, quote) }

  lemma EscapesAreCharwise(s: string)
    ensures EscapeText(s) == Escaped(s, false)
    ensures EscapeAttr(s) == Escaped(s, true)
  {
    hide EscapeText, EscapeAttr, EscapedChar;
    forall a, b
      ensures EscapeText(a + b) == EscapeText(a) + EscapeText(b)
      ensures EscapeAttr(a + b) == EscapeAttr(a) + EscapeAttr(b)
    {
      EscapeTextConcat(a, b);
      EscapeAttrConcat(a, b);
    }
    forall c
      ensures EscapeText([c]) == EscapedChar(c, false) && EscapeAttr([c]) == EscapedChar(c, true)
    {
      EscapeTextChar(c);
      EscapeAttrChar(c);
    }
    DistributiveIsMap(s, EscapeText, EscapedChars(false));
    DistributiveIsMap(s, EscapeAttr, EscapedChars(true));
  }

  lemma {:induction false} EscapedHasNoMarkup(s: string, quote: bool)
    ensures '<' !in Escaped(s, quote) && '>' !in Escaped(s, quote)
    ensures quote ==> '"' !in Escaped(s, quote)
  {
    if s != "" {
      EscapedHasNoMarkup(s[1..], quote);
    }
  }

  // ----- decoding undoes escaping -----

  lemma DecodeStructural(name: string, text: string, rest: string)
    requires name == "amp" || name == "lt" || name == "gt" || name == "quot"
    requires Named(name) == Some(text)
    ensures DecodeEntities("&" + name + ";" + rest) == text + DecodeEntities(rest)
  {
    ReferenceSlices(name, rest);
    BodyOfName(name, rest);
    assert DecodeReference(name) == text by { hide DecodeEntities, Named; }
    hide Named, DecodeReference, ReferenceBody;
  }

  lemma ReferenceSlices(name: string, rest: string)
    ensures var s := "&" + name + ";" + rest;
      && s[0] == '&' && s[1..] == name + ([';'] + rest) && s[|name| + 1] == ';'
      && s[1..|name| + 1] == name && s[|name| + 2..] == rest
  {
  }

  lemma BodyOfName(name: string, rest: string)
    requires name == "amp" || name == "lt" || name == "gt" || name == "quot"
    ensures ReferenceBody(name + ([';'] + rest)) == |name|
  {
    SpanIs(name + ([';'] + rest), IsAlnum, |name|);
  }

  lemma DecodePlain(c: char, rest: string)
    requires c != '&'
    ensures DecodeEntities([c] + rest) == [c] + DecodeEntities(rest)
  {
    assert ([c] + rest)[1..] == rest;
  }

  lemma DecodeEscapedMarkup(c: char, rest: string)
    requires c == '&' || c == '<' || c == '>' || c == '"'
    ensures DecodeEntities(EscapedChar(c, true) + rest) == [c] + DecodeEntities(rest)
  {
    hide DecodeEntities, OtherNamed;
    var name := if c == '&' then "amp" else if c == '<' then "lt" else if c == '>' then "gt" else "quot";
    assert EscapedChar(c, true) == "&" + name + ";";
    DecodeStructural(name, [c], rest);
  }

  lemma DecodeEscapedChar(c: char, quote: bool, rest: string)
    ensures DecodeEntities(EscapedChar(c, quote) + rest) == [c] + DecodeEntities(rest)
  {
    hide DecodeEntities;
    if EscapedChar(c, quote) == [c] {
      assert c != '&';
      DecodePlain(c, rest);
    } else {
      DecodeEscapedMarkup(c, rest);
    }
  }

  /** Whatever follows an escaped text, it is decoded by itself. */
  lemma {:induction false} DecodeEscaped(s: string, quote: bool, after: string)
    ensures DecodeEntities(Escaped(s, quote) + after) == s + DecodeEntities(after)
  {
    hide DecodeEntities, EscapedChar;
    if s == "" {
      assert Escaped(s, quote) + after == after;
    } else {
      Regroup(EscapedChar(s[0], quote), Escaped(s[1..], quote), after);
      DecodeEscapedChar(s[0], quote, Escaped(s[1..], quote) + after);
      DecodeEscaped(s[1..], quote, after);
      assert s == [s[0]] + s[1..];
      Regroup([s[0]], s[1..], DecodeEntities(after));
    }
  }

  lemma DecodeNothing()
    ensures DecodeEntities("") == ""
  {
  }

  lemma DecodePastEscaped(s: string, after: string)
    ensures DecodeEntities(EscapeText(s) + after) == s + DecodeEntities(after)
  {
    EscapesAreCharwise(s);
    DecodeEscaped(s, false, after);
  }

  lemma DecodeUndoesEscape(s: string)
    ensures DecodeEntities(EscapeText(s)) == s
    ensures DecodeEntities(EscapeAttr(s)) == s
  {
    EscapesAreCharwise(s);
    DecodeEscaped(s, false, "");
    DecodeEscaped(s, true, "");
    hide DecodeEntities;
    assert DecodeEntities("") == "" by { DecodeNothing(); }
    assert Escaped(s, false) + "" == Escaped(s, false) && Escaped(s, true) + "" == Escaped(s, true);
  }

  lemma EscapeLeavesNoMarkup(s: string)
    ensures '<' !in EscapeText(s) && '>' !in EscapeText(s)
    ensures '<' !in EscapeAttr(s) && '>' !in EscapeAttr(s) && '"' !in EscapeAttr(s)
  {
    EscapesAreCharwise(s);
    EscapedHasNoMarkup(s, false);
    EscapedHasNoMarkup(s, true);
  }
}
