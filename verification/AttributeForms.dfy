/**
 The forms an attribute can be written in, each read as what it says.
 */
module AttributeForms {
  import opened Text
  import opened Attributes

  /** What may stand between two attributes, and around the equals sign of one. */
  predicate IsBlank(c: char) { c == ' ' || c == '\t' || c == '\n' || c == '\r' || c == '\U{C}' }

  ghost predicate Blank(s: string) { forall i :: 0 <= i < |s| ==> IsBlank(s[i]) }

  ghost predicate Separator(s: string) { forall i :: 0 <= i < |s| ==> IsBlank(s[i]) || s[i] == '/' }

  ghost predicate NameText(s: string) {
    s != "" && forall i :: 0 <= i < |s| ==>
      !IsSpace(s[i]) && s[i] != '/' && s[i] != '=' && s[i] != '>' && s[i] != '"' && s[i] != '\''
  }

  /** Characters that stand for themselves in an unquoted value. */
  ghost predicate BareText(s: string) { forall i :: 0 <= i < |s| ==> !IsSpace(s[i]) && s[i] != '>' }

  /** Nothing more of an unquoted value. */
  predicate EndsBare(rest: string) { rest == "" || IsSpace(rest[0]) || rest[0] == '>' }

  lemma NameIsRead(lead: string, name: string, tail: string)
    requires Separator(lead) && NameText(name) && (tail != "" ==> !IsNameChar(tail[0]))
    ensures Exec(lead + (name + tail)) == Match(ToLower(name), ExecValue(tail).text, ExecValue(tail).rest)
  {
    var t := name + tail;
    var s := lead + t;
    SpanIs(s, IsNotNameChar, |lead|);
    assert s[|lead|..] == t;
    SpanIs(t, IsNameChar, |name|);
    assert t[..|name|] == name && t[|name|..] == tail;
    hide ExecValue, ToLower, IsNameChar;
  }

  /** `text` after an equals sign with blanks around it. */
  lemma ValueIsRead(gap1: string, gap2: string, text: string)
    requires Blank(gap1) && Blank(gap2) && (text != "" ==> !IsSpace(text[0]))
    ensures ExecValue(gap1 + (['='] + (gap2 + text))) == ValueOf(text)
    ensures !IsNameChar((gap1 + (['='] + (gap2 + text)))[0])
  {
    EqualsIsRead(gap1, gap2 + text);
    BlankEnds(gap2, text);
    hide Span, IsSpace, ValueOf, Blank, IsBlank, ExecValue, IsNameChar;
    ValueBehind(gap1 + (['='] + (gap2 + text)), |gap1|, |gap2|);
  }

  lemma EqualsIsRead(gap: string, after: string)
    requires Blank(gap)
    ensures var s := gap + (['='] + after);
      && Span(s, IsSpace) == |gap| < |s| && s[|gap|] == '=' && s[|gap| + 1..] == after && !IsNameChar(s[0])
  {
    var s := gap + (['='] + after);
    assert (['='] + after)[0] == '=' && !IsSpace('=');
    BlankEnds(gap, ['='] + after);
    assert s[0] == if gap == "" then '=' else gap[0];
    hide Span, IsSpace, Blank, IsNameChar;
    assert s[|gap| + 1..] == after;
  }

  lemma ValueBehind(s: string, n: nat, m: nat)
    requires n < |s| && s[n] == '=' && m <= |s| - n - 1
    requires Span(s, IsSpace) == n && Span(s[n + 1..], IsSpace) == m
    ensures ExecValue(s) == ValueOf(s[n + 1..][m..])
  {
    hide Span, IsSpace, ValueOf;
    TailOfTail(s, n + 1, m);
  }

  lemma BlankEnds(gap: string, text: string)
    requires Blank(gap) && (text != "" ==> !IsSpace(text[0]))
    ensures Span(gap + text, IsSpace) == |gap| && (gap + text)[|gap|..] == text
    ensures gap != "" ==> !IsNameChar(gap[0])
  {
    SpanIs(gap + text, IsSpace, |gap|);
  }

  lemma BareValue(value: string, rest: string)
    requires BareText(value) && EndsBare(rest)
    requires value != "" && (value[0] == '"' || value[0] == '\'' ==> value[0] !in value[1..] + rest)
    ensures ValueOf(value + rest) == Value(value, rest)
  {
    var t := value + rest;
    assert t[1..] == value[1..] + rest;
    SpanIs(t, IsBareChar, |value|);
    assert t[..|value|] == value && t[|value|..] == rest;
  }

  lemma QuotedValue(quote: char, value: string, rest: string)
    requires (quote == '"' || quote == '\'') && quote !in value
    ensures ValueOf([quote] + (value + ([quote] + rest))) == Value(value, rest)
  {
    var t := [quote] + (value + ([quote] + rest));
    assert t[1..] == value + [quote] + rest;
    IndexOfIs(value, quote, rest);
    assert t[1..][..|value|] == value && t[|value| + 2..] == rest;
  }

  // ----- reading goes on with the rest -----

  lemma AttributeIsRead(lead: string, name: string, tail: string, value: string, rest: string, attrs: map<string, string>)
    requires Separator(lead) && NameText(name) && (tail != "" ==> !IsNameChar(tail[0]))
    requires ExecValue(tail) == Value(value, rest)
    ensures AttributesFrom(lead + (name + tail), attrs) == AttributesFrom(rest, attrs[ToLower(name) := value])
  {
    hide ExecValue, Exec, ToLower, IsNameChar;
    NameIsRead(lead, name, tail);
  }

  /**
   `name=value` without quotes, up to a space, a `>` or the end: the name in lower case, the value as it
   stands. A quote that is never closed is part of it.
   */
  lemma UnquotedAttribute(lead: string, name: string, gap1: string, gap2: string, value: string, rest: string,
                          attrs: map<string, string>)
    requires Separator(lead) && NameText(name) && Blank(gap1) && Blank(gap2)
    requires value != "" && BareText(value) && EndsBare(rest)
    requires value[0] == '"' || value[0] == '\'' ==> value[0] !in value[1..] + rest
    ensures AttributesFrom(lead + (name + (gap1 + (['='] + (gap2 + (value + rest))))), attrs)
         == AttributesFrom(rest, attrs[ToLower(name) := value])
  {
    assert (value + rest)[0] == value[0];
    BareValue(value, rest);
    ValueIsRead(gap1, gap2, value + rest);
    AttributeIsRead(lead, name, gap1 + (['='] + (gap2 + (value + rest))), value, rest, attrs);
  }

  /** `name="value"` and `name='value'`: everything between the quotes. */
  lemma QuotedAttribute(lead: string, name: string, gap1: string, gap2: string, quote: char, value: string, rest: string,
                        attrs: map<string, string>)
    requires Separator(lead) && NameText(name) && Blank(gap1) && Blank(gap2)
    requires (quote == '"' || quote == '\'') && quote !in value
    ensures AttributesFrom(lead + (name + (gap1 + (['='] + (gap2 + ([quote] + (value + ([quote] + rest))))))), attrs)
         == AttributesFrom(rest, attrs[ToLower(name) := value])
  {
    var text := [quote] + (value + ([quote] + rest));
    assert text[0] == quote && !IsSpace(quote);
    QuotedValue(quote, value, rest);
    ValueIsRead(gap1, gap2, text);
    AttributeIsRead(lead, name, gap1 + (['='] + (gap2 + text)), value, rest, attrs);
  }

  /** A name with no equals sign after it is an empty value. */
  lemma BareAttribute(lead: string, name: string, rest: string, attrs: map<string, string>)
    requires Separator(lead) && NameText(name) && (rest != "" ==> !IsNameChar(rest[0]))
    requires var n := Span(rest, IsSpace); n == |rest| || rest[n] != '='
    ensures AttributesFrom(lead + (name + rest), attrs) == AttributesFrom(rest, attrs[ToLower(name) := ""])
  {
    AttributeIsRead(lead, name, rest, "", rest, attrs);
  }

  lemma NoFurtherAttribute(lead: string, attrs: map<string, string>)
    requires Separator(lead)
    ensures AttributesFrom(lead, attrs) == attrs
  {
    SpanIs(lead, IsNotNameChar, |lead|);
  }
}
