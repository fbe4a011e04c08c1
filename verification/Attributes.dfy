/**
 The attributes of one tag: reading them from the text of the tag, keeping the allowlisted ones,
 and printing those.
 */
module Attributes {
  import opened Text
  import opened Entities
  import opened Urls

  const MAX_IMG_DIMENSION := 10000

  // ----- reading -----

  predicate IsNameChar(c: char) {
    !IsSpace(c) && c != '/' && c != '=' && c != '>' && c != '"' && c != '\''
  }

  predicate IsNotNameChar(c: char) { !IsNameChar(c) }

  predicate IsBareChar(c: char) { !IsSpace(c) && c != '>' }

  datatype Value = Value(text: string, rest: string)

  datatype Match = NoMatch | Match(name: string, value: string, rest: string)

  /** A value by its first character: quoted, or bare up to a space or a `>`. */
  function ValueOf(t: string): (v: Value)
    ensures |v.rest| <= |t|
  {
    if t != "" && (t[0] == '"' || t[0] == '\'') && IndexOf(t[1..], t[0]) < |t| - 1 then
      var k := IndexOf(t[1..], t[0]);
      Value(t[1..][..k], t[k + 2..])
    else
      var m := Span(t, IsBareChar);
      Value(t[..m], t[m..])
  }

  /** The optional second half of the attribute pattern: `\s*=\s*` and a quoted or a bare value. */
  function ExecValue(s: string): (v: Value)
    ensures |v.rest| <= |s|
  {
    var w := Span(s, IsSpace);
    if w < |s| && s[w] == '=' then
      var from := w + 1 + Span(s[w + 1..], IsSpace);
      ValueOf(s[from..])
    else Value("", s)
  }

  /** One `exec` of the attribute pattern, on what is left of the source. */
  function Exec(s: string): (m: Match)
    ensures m.Match? ==> |m.rest| < |s|
  {
    var from := Span(s, IsNotNameChar);
    var t := s[from..];
    if t == "" then NoMatch else
      var n := Span(t, IsNameChar);
      var v := ExecValue(t[n..]);
      Match(ToLower(t[..n]), v.text, v.rest)
  }

  lemma ValueRest(t: string)
    ensures ValueOf(t).rest == t[|t| - |ValueOf(t).rest|..]
  {
  }

  lemma ExecValueRest(s: string)
    ensures ExecValue(s).rest == s[|s| - |ExecValue(s).rest|..]
  {
    hide ValueOf;
    var w := Span(s, IsSpace);
    if w < |s| && s[w] == '=' {
      var from := w + 1 + Span(s[w + 1..], IsSpace);
      ValueRest(s[from..]);
      TailOfTail(s, from, |s| - from - |ValueOf(s[from..]).rest|);
    }
  }

  /** What a match leaves is a suffix of what it read: its length is the place to go on at. */
  lemma ExecRest(s: string)
    ensures Exec(s).Match? ==> Exec(s).rest == s[|s| - |Exec(s).rest|..]
  {
    hide ExecValue;
    var from := Span(s, IsNotNameChar);
    var t := s[from..];
    if t != "" {
      var n := Span(t, IsNameChar);
      var rest := ExecValue(t[n..]).rest;
      ExecValueRest(t[n..]);
      TailOfTail(t, n, |t| - n - |rest|);
      TailOfTail(s, from, |t| - |rest|);
    }
  }

  /** The attributes of `s`, the last one of a name winning, on top of those already in `attrs`. */
  function AttributesFrom(s: string, attrs: map<string, string>): map<string, string>
    decreases |s|
  {
    match Exec(s)
    case NoMatch => attrs
    case Match(name, value, rest) => AttributesFrom(rest, attrs[name := value])
  }

  function AttributesOf(s: string): map<string, string> { AttributesFrom(s, map[]) }

  method ParseAttributes(source: string) returns (attrs: map<string, string>)
    ensures attrs == AttributesOf(source)
  {
    attrs := map[];
    var lastIndex := 0;
    var match' := Exec(source);
    while match'.Match?
      invariant lastIndex <= |source|
      invariant match' == Exec(source[lastIndex..])
      invariant AttributesFrom(source[lastIndex..], attrs) == AttributesOf(source)
      decreases |source| - lastIndex
    {
      attrs := attrs[match'.name := match'.value];
      ExecRest(source[lastIndex..]);
      TailOfTail(source, lastIndex, |source| - lastIndex - |match'.rest|);
      lastIndex := |source| - |match'.rest|;
      assert match'.rest == source[lastIndex..];
      match' := Exec(source[lastIndex..]);
    }
  }

  // ----- keeping -----

  /** What a tag may carry to the output, values decoded. */
  datatype Attrs =
    | NoAttrs
    | Href(url: string)
    | Image(src: string, alt: Option<string>, width: Option<string>, height: Option<string>)

  function Lookup(attrs: map<string, string>, name: string): Option<string> {
    if name in attrs then Some(attrs[name]) else None
  }

  function LookupOr(attrs: map<string, string>, name: string, default: string): string {
    if name in attrs then attrs[name] else default
  }

  /** `/^[0-9]{1,5}(px|em|%)?$/` */
  predicate IsDimension(value: string) {
    var n := Span(value, IsDigit);
    1 <= n <= 5 && (value[n..] == "" || value[n..] == "px" || value[n..] == "em" || value[n..] == "%")
  }

  /** A dimension that is emitted: the unitless form is also bounded. */
  predicate IsKeptDimension(value: string) {
    && IsDimension(value)
    && (Span(value, IsDigit) == |value| ==> 1 <= UnitlessSize(value) <= MAX_IMG_DIMENSION)
  }

  function UnitlessSize(value: string): nat
    requires Span(value, IsDigit) == |value|
  {
    ParseNumber(value, 10)
  }

  function KeepDimension(raw: Option<string>): Option<string> {
    match raw
    case None => None
    case Some(text) => if IsKeptDimension(Trim(text)) then Some(Trim(text)) else None
  }

  function DecodeOption(raw: Option<string>): Option<string> {
    match raw
    case None => None
    case Some(text) => Some(DecodeEntities(text))
  }

  /** The allowlisted attributes of a tag, `None` when the element itself must not be emitted. */
  function Keep(tag: string, attrs: map<string, string>): Option<Attrs> {
    if tag == "a" then
      var href := DecodeEntities(LookupOr(attrs, "href", ""));
      Some(if href != "" && IsSafeUrl(href, HREF_SCHEMES) then Href(href) else NoAttrs)
    else if tag == "img" then
      var src := DecodeEntities(LookupOr(attrs, "src", ""));
      if src == "" || !IsSafeUrl(src, IMG_SRC_SCHEMES) then None else
        Some(Image(src, DecodeOption(Lookup(attrs, "alt")),
                   KeepDimension(Lookup(attrs, "width")), KeepDimension(Lookup(attrs, "height"))))
    else Some(NoAttrs)
  }

  /** The policy, stated on what is kept and not on how it was found. */
  predicate AllowedAttrs(tag: string, kept: Attrs) {
    match kept
    case NoAttrs => tag != "img"
    case Href(url) => tag == "a" && url != "" && IsSafeUrl(url, HREF_SCHEMES)
    case Image(src, alt, width, height) =>
      && tag == "img" && src != "" && IsSafeUrl(src, IMG_SRC_SCHEMES)
      && (width.Some? ==> IsKeptDimension(width.value))
      && (height.Some? ==> IsKeptDimension(height.value))
  }

  lemma KeptIsAllowed(tag: string, attrs: map<string, string>)
    requires Keep(tag, attrs).Some?
    ensures AllowedAttrs(tag, Keep(tag, attrs).value)
  {
  }

  // ----- printing -----

  function PrintAttr(name: string, value: string): string {
    [' '] + name + ['=', '"'] + EscapeAttr(value) + ['"']
  }

  function PrintOption(name: string, value: Option<string>): string {
    match value
    case None => ""
    case Some(text) => PrintAttr(name, text)
  }

  function PrintAttrs(kept: Attrs): string {
    match kept
    case NoAttrs => ""
    case Href(url) => PrintAttr("href", url)
    case Image(src, alt, width, height) =>
      PrintAttr("src", src) + PrintOption("alt", alt) + PrintOption("width", width) + PrintOption("height", height)
  }

  lemma AttrsStartWithSpace(kept: Attrs)
    ensures PrintAttrs(kept) != "" ==> PrintAttrs(kept)[0] == ' '
  {
    hide EscapeAttr;
  }

  method RenderAttributes(tag: string, attrs: map<string, string>) returns (out: Option<string>)
    ensures out == match Keep(tag, attrs)
                   case None => None
                   case Some(kept) => Some(PrintAttrs(kept))
  {
    hide DecodeEntities, IsSafeUrl, EscapeAttr, PrintAttr, IsDimension, Trim, Span, ParseNumber;
    var text := "";
    if tag == "a" {
      var href := DecodeEntities(LookupOr(attrs, "href", ""));
      if |href| > 0 && IsSafeUrl(href, HREF_SCHEMES) {
        text := text + PrintAttr("href", href);
      }
    } else if tag == "img" {
      var src := DecodeEntities(LookupOr(attrs, "src", ""));
      if |src| == 0 || !IsSafeUrl(src, IMG_SRC_SCHEMES) {
        return None;
      }
      text := text + PrintAttr("src", src);
      if "alt" in attrs {
        text := text + PrintAttr("alt", DecodeEntities(attrs["alt"]));
      }
      ghost var head := text;
      assert head == PrintAttr("src", src) + PrintOption("alt", DecodeOption(Lookup(attrs, "alt")));
      var dimensions := ["width", "height"];
      for d := 0 to |dimensions|
        invariant text == head
                          + (if d >= 1 then PrintOption("width", KeepDimension(Lookup(attrs, "width"))) else "")
                          + (if d >= 2 then PrintOption("height", KeepDimension(Lookup(attrs, "height"))) else "")
      {
        var dimension := dimensions[d];
        ghost var kept := KeepDimension(Lookup(attrs, dimension));
        if dimension !in attrs { continue; }
        var value := Trim(attrs[dimension]);
        if !IsDimension(value) { continue; }
        if Span(value, IsDigit) == |value| {
          var size := UnitlessSize(value);
          if size < 1 || size > MAX_IMG_DIMENSION { continue; }
        }
        text := text + PrintAttr(dimension, value);
      }
    }
    assert text == PrintAttrs(Keep(tag, attrs).value);
    return Some(text);
  }

  // ----- reading what was printed -----

  /** A name the printer uses: it is read back whole, in the same case. */
  predicate IsPlainName(name: string) {
    name != "" && forall i :: 0 <= i < |name| ==> IsLowerAlpha(name[i])
  }

  lemma ExecPrinted(name: string, value: string, rest: string)
    requires IsPlainName(name) && '"' !in value
    ensures Exec([' '] + name + ['=', '"'] + value + ['"'] + rest) == Match(name, value, rest)
  {
    var quoted := ['"'] + value + ['"'] + rest;
    var t := name + (['='] + quoted);
    var s := [' '] + t;
    assert [' '] + name + ['=', '"'] + value + ['"'] + rest == s;
    SpanIs(s, IsNotNameChar, 1);
    assert s[1..] == t;
    SpanIs(t, IsNameChar, |name|);
    assert t[..|name|] == name && t[|name|..] == ['='] + quoted;
    assert ToLower(name) == name;
    ExecQuoted(value, rest);
  }

  lemma ExecQuoted(value: string, rest: string)
    requires '"' !in value
    ensures ExecValue(['='] + (['"'] + value + ['"'] + rest)) == Value(value, rest)
  {
    var quoted := ['"'] + value + ['"'] + rest;
    var s := ['='] + quoted;
    SpanIs(s, IsSpace, 0);
    assert s[1..] == quoted;
    SpanIs(quoted, IsSpace, 0);
    assert quoted[1..] == value + ['"'] + rest;
    IndexOfIs(value, '"', rest);
    assert quoted[1..][..|value|] == value;
    assert quoted[|value| + 2..] == rest;
  }

  lemma ReadPrintedAttr(name: string, value: string, rest: string, attrs: map<string, string>)
    requires IsPlainName(name)
    ensures AttributesFrom(PrintAttr(name, value) + rest, attrs)
         == AttributesFrom(rest, attrs[name := EscapeAttr(value)])
  {
    EscapeLeavesNoMarkup(value);
    ExecPrinted(name, EscapeAttr(value), rest);
  }

  function AddOption(attrs: map<string, string>, name: string, value: Option<string>): map<string, string> {
    match value
    case None => attrs
    case Some(text) => attrs[name := EscapeAttr(text)]
  }

  lemma ReadPrintedOption(name: string, value: Option<string>, rest: string, attrs: map<string, string>)
    requires IsPlainName(name)
    ensures AttributesFrom(PrintOption(name, value) + rest, attrs) == AttributesFrom(rest, AddOption(attrs, name, value))
  {
    match value
    case None => assert "" + rest == rest;
    case Some(text) => ReadPrintedAttr(name, text, rest, attrs);
  }

  lemma ReadPrintedOptions(name1: string, value1: Option<string>, name2: string, value2: Option<string>,
                           name3: string, value3: Option<string>, attrs: map<string, string>)
    requires IsPlainName(name1) && IsPlainName(name2) && IsPlainName(name3)
    ensures AttributesFrom(PrintOption(name1, value1) + PrintOption(name2, value2) + PrintOption(name3, value3), attrs)
         == AddOption(AddOption(AddOption(attrs, name1, value1), name2, value2), name3, value3)
  {
    hide PrintOption, AddOption;
    var a, b, c := PrintOption(name1, value1), PrintOption(name2, value2), PrintOption(name3, value3);
    assert a + b + c == a + (b + (c + ""));
    ReadPrintedOption(name1, value1, b + (c + ""), attrs);
    var attrs1 := AddOption(attrs, name1, value1);
    ReadPrintedOption(name2, value2, c + "", attrs1);
    ReadPrintedOption(name3, value3, "", AddOption(attrs1, name2, value2));
  }

  lemma LookupAdded(attrs: map<string, string>, name1: string, value1: Option<string>,
                    name2: string, value2: Option<string>, name3: string, value3: Option<string>)
    requires name1 != name2 && name2 != name3 && name1 != name3
    requires name1 !in attrs && name2 !in attrs && name3 !in attrs
    ensures var m := AddOption(AddOption(AddOption(attrs, name1, value1), name2, value2), name3, value3);
            && (forall name :: name in attrs ==> Lookup(m, name) == Some(attrs[name]))
            && Lookup(m, name1) == EscapeOption(value1)
            && Lookup(m, name2) == EscapeOption(value2)
            && Lookup(m, name3) == EscapeOption(value3)
  {
    hide EscapeAttr;
  }

  function EscapeOption(value: Option<string>): Option<string> {
    match value
    case None => None
    case Some(text) => Some(EscapeAttr(text))
  }

  lemma IsDimensionChars(value: string, i: nat)
    requires IsDimension(value) && i < |value|
    ensures !IsSpace(value[i]) && EscapedChar(value[i], true) == [value[i]]
  {
    var n := Span(value, IsDigit);
    if i >= n {
      assert value[i] == value[n..][i - n];
    }
  }

  lemma KeptDimensionSurvives(value: string)
    requires IsKeptDimension(value)
    ensures KeepDimension(Some(EscapeAttr(value))) == Some(value)
  {
    forall i | 0 <= i < |value|
      ensures !IsSpace(value[i]) && EscapedChar(value[i], true) == [value[i]]
    {
      IsDimensionChars(value, i);
    }
    EscapesAreCharwise(value);
    EscapedPlain(value);
    assert Trim(value) == value;
  }

  lemma {:induction false} EscapedPlain(s: string)
    requires forall i :: 0 <= i < |s| ==> EscapedChar(s[i], true) == [s[i]]
    ensures Escaped(s, true) == s
  {
    if s != "" {
      EscapedPlain(s[1..]);
    }
  }

  /** Printing what was kept and reading it again keeps the same: one half of the round trip. */
  lemma KeepPrinted(tag: string, kept: Attrs)
    requires AllowedAttrs(tag, kept)
    ensures Keep(tag, AttributesOf(PrintAttrs(kept))) == Some(kept)
  {
    match kept
    case NoAttrs =>
    case Href(url) =>
      assert PrintAttrs(kept) == PrintAttr("href", url) + "";
      ReadPrintedAttr("href", url, "", map[]);
      DecodeUndoesEscape(url);
    case Image(src, alt, width, height) =>
      KeepPrintedImage(src, alt, width, height);
  }

  lemma KeepPrintedImage(src: string, alt: Option<string>, width: Option<string>, height: Option<string>)
    requires AllowedAttrs("img", Image(src, alt, width, height))
    ensures Keep("img", AttributesOf(PrintAttrs(Image(src, alt, width, height))))
         == Some(Image(src, alt, width, height))
  {
    hide AttributesFrom, EscapeAttr, PrintAttr, PrintOption, AddOption, IsSafeUrl, IsKeptDimension, KeepDimension,
         DecodeEntities;
    var tail := PrintOption("alt", alt) + PrintOption("width", width) + PrintOption("height", height);
    assert PrintAttrs(Image(src, alt, width, height)) == PrintAttr("src", src) + tail;
    ReadPrintedAttr("src", src, tail, map[]);
    var m := map["src" := EscapeAttr(src)];
    ReadPrintedOptions("alt", alt, "width", width, "height", height, m);
    assert |"src"| == |"alt"| == 3 && |"width"| == 5 && |"height"| == 6 && "src"[0] != "alt"[0];
    LookupAdded(m, "alt", alt, "width", width, "height", height);
    var read := AttributesOf(PrintAttrs(Image(src, alt, width, height)));
    assert Lookup(read, "src") == Some(m["src"]);
    DecodeUndoesEscape(src);
    DecodeEscapedOption(alt);
    KeptOptionSurvives(width);
    KeptOptionSurvives(height);
  }

  lemma DecodeEscapedOption(value: Option<string>)
    ensures DecodeOption(EscapeOption(value)) == value
  {
    if value.Some? { DecodeUndoesEscape(value.value); }
  }

  lemma KeptOptionSurvives(value: Option<string>)
    requires value.Some? ==> IsKeptDimension(value.value)
    ensures KeepDimension(EscapeOption(value)) == value
  {
    if value.Some? { KeptDimensionSurvives(value.value); }
  }
}
