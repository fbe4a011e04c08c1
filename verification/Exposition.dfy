/**
 The text the metrics registry renders: label sets, sample lines and blocks, against a reader of
 the Prometheus text format 0.0.4.
 */
module Exposition {
  import opened Text

  datatype Label = Label(name: string, value: string)

  /** One sample; the value is its text. */
  datatype Sample = Sample(metric: string, labels: seq<Label>, value: string)

  // ----- names -----

  predicate IsLabelStart(c: char) { IsAlpha(c) || c == '_' }

  predicate IsLabelChar(c: char) { IsAlnum(c) || c == '_' }

  predicate IsMetricChar(c: char) { IsAlnum(c) || c == '_' || c == ':' }

  /** `[a-zA-Z_][a-zA-Z0-9_]*` */
  predicate IsLabelName(name: string) {
    name != "" && IsLabelStart(name[0]) && forall i :: 0 <= i < |name| ==> IsLabelChar(name[i])
  }

  /** `[a-zA-Z_:][a-zA-Z0-9_:]*` */
  predicate IsMetricName(name: string) {
    name != "" && !IsDigit(name[0]) && forall i :: 0 <= i < |name| ==> IsMetricChar(name[i])
  }

  // ----- rendering -----

  function EscapeLabelValue(value: string): string {
    ReplaceAll(ReplaceAll(ReplaceAll(value, '\\', "\\\\"), '"', "\\\""), '\n', "\\n")
  }

  function EscapeHelp(help: string): string {
    ReplaceAll(ReplaceAll(help, '\\', "\\\\"), '\n', "\\n")
  }

  function LabelText(l: Label): string { l.name + ['=', '"'] + EscapeLabelValue(l.value) + ['"'] }

  /** The pairs of a label set, joined by commas. */
  function PairsText(labels: seq<Label>): string {
    if labels == [] then ""
    else LabelText(labels[0]) + if |labels| == 1 then "" else [','] + PairsText(labels[1..])
  }

  function LabelSuffix(labels: seq<Label>): string {
    if labels == [] then "" else ['{'] + PairsText(labels) + ['}']
  }

  function SampleLine(s: Sample): string { s.metric + (LabelSuffix(s.labels) + ([' '] + s.value)) }

  // ----- reading -----

  datatype Read<+T> = Bad | Read(value: T, rest: string)

  /** The rest of a quoted label value, up to the closing quote. */
  function ReadValue(s: string): (r: Read<string>)
    ensures r.Read? ==> |r.rest| < |s|
  {
    if s == "" || s[0] == '\n' then Bad
    else if s[0] == '"' then Read("", s[1..])
    else if s[0] == '\\' then
      if |s| < 2 || (s[1] != '\\' && s[1] != '"' && s[1] != 'n') then Bad else
        match ReadValue(s[2..])
        case Bad => Bad
        case Read(value, rest) => Read([if s[1] == 'n' then '\n' else s[1]] + value, rest)
    else
      match ReadValue(s[1..])
      case Bad => Bad
      case Read(value, rest) => Read([s[0]] + value, rest)
  }

  function ReadLabel(s: string): (r: Read<Label>)
    ensures r.Read? ==> |r.rest| < |s|
  {
    var n := Span(s, IsLabelChar);
    if n == 0 || !IsLabelStart(s[0]) || |s| < n + 2 || s[n] != '=' || s[n + 1] != '"' then Bad else
      match ReadValue(s[n + 2..])
      case Bad => Bad
      case Read(value, rest) => Read(Label(s[..n], value), rest)
  }

  /** Labels up to and including the closing brace. */
  function ReadPairs(s: string): Read<seq<Label>>
    decreases |s|
  {
    match ReadLabel(s)
    case Bad => Bad
    case Read(first, rest) =>
      if rest == "" then Bad
      else if rest[0] == '}' then Read([first], rest[1..])
      else if rest[0] != ',' then Bad
      else
        match ReadPairs(rest[1..])
        case Bad => Bad
        case Read(labels, rest) => Read([first] + labels, rest)
  }

  function ReadSample(line: string): Option<Sample> {
    var n := Span(line, IsMetricChar);
    var s := line[n..];
    if n == 0 || IsDigit(line[0]) || s == "" then None
    else if s[0] == ' ' then Some(Sample(line[..n], [], s[1..]))
    else if s[0] != '{' then None
    else
      match ReadPairs(s[1..])
      case Bad => None
      case Read(labels, rest) => if rest == "" || rest[0] != ' ' then None else Some(Sample(line[..n], labels, rest[1..]))
  }

  // ----- escaping, character by character -----

  function EscapedChar(c: char): string {
    if c == '\n' then ['\\', 'n'] else if c == '\\' || c == '"' then ['\\', c] else [c]
  }

  function Escaped(value: string): string { MapChars(value, EscapedChar) }

  lemma EscapeLabelValueChar(c: char)
    ensures EscapeLabelValue([c]) == EscapedChar(c)
  {
    ReplaceOne(c, '\\', "\\\\");
    if c == '\\' {
      var twice := "\\\\";
      assert twice == ['\\', '\\'];
      ReplaceAllAbsent(twice, '"', "\\\"");
      ReplaceAllAbsent(twice, '\n', "\\n");
    } else {
      ReplaceOne(c, '"', "\\\"");
      if c == '"' {
        var quoted := "\\\"";
        assert quoted == ['\\', '"'];
        ReplaceAllAbsent(quoted, '\n', "\\n");
      } else {
        ReplaceOne(c, '\n', "\\n");
        assert "\\n" == ['\\', 'n'];
      }
    }
  }

  lemma EscapeLabelValueConcat(a: string, b: string)
    ensures EscapeLabelValue(a + b) == EscapeLabelValue(a) + EscapeLabelValue(b)
  {
    ReplaceAllConcat(a, b, '\\', "\\\\");
    var a1, b1 := ReplaceAll(a, '\\', "\\\\"), ReplaceAll(b, '\\', "\\\\");
    ReplaceAllConcat(a1, b1, '"', "\\\"");
    ReplaceAllConcat(ReplaceAll(a1, '"', "\\\""), ReplaceAll(b1, '"', "\\\""), '\n', "\\n");
  }

  lemma EscapeLabelValueIsCharwise(value: string)
    ensures EscapeLabelValue(value) == Escaped(value)
  {
    hide EscapeLabelValue, EscapedChar;
    forall a, b
      ensures EscapeLabelValue(a + b) == EscapeLabelValue(a) + EscapeLabelValue(b)
    {
      EscapeLabelValueConcat(a, b);
    }
    forall c
      ensures EscapeLabelValue([c]) == EscapedChar(c)
    {
      EscapeLabelValueChar(c);
    }
    DistributiveIsMap(value, EscapeLabelValue, EscapedChar);
  }

  // ----- what was rendered is read back -----

  lemma ReadEscapedChar(c: char, t: string)
    ensures ReadValue(EscapedChar(c) + t)
         == match ReadValue(t)
            case Bad => Bad
            case Read(value, rest) => Read([c] + value, rest)
  {
    var s := EscapedChar(c) + t;
    if |EscapedChar(c)| == 2 {
      assert s[2..] == t;
    } else {
      assert s[1..] == t;
    }
  }

  lemma {:induction false} ReadEscaped(value: string, rest: string)
    ensures ReadValue(Escaped(value) + (['"'] + rest)) == Read(value, rest)
  {
    var tail := ['"'] + rest;
    if value == "" {
      assert Escaped(value) + tail == tail && tail[1..] == rest;
    } else {
      var head, more := EscapedChar(value[0]), Escaped(value[1..]);
      assert head + more + tail == head + (more + tail);
      ReadEscapedChar(value[0], more + tail);
      ReadEscaped(value[1..], rest);
      assert value == [value[0]] + value[1..];
    }
  }

  lemma ReadLabelText(l: Label, rest: string)
    requires IsLabelName(l.name)
    ensures ReadLabel(LabelText(l) + rest) == Read(l, rest)
  {
    EscapeLabelValueIsCharwise(l.value);
    var escaped := Escaped(l.value);
    var after := escaped + (['"'] + rest);
    var s := l.name + (['=', '"'] + after);
    assert LabelText(l) + rest == s;
    hide EscapeLabelValue, Escaped;
    NameEnds(l.name, after);
    ReadEscaped(l.value, rest);
    hide ReadValue, IsLabelName, IsLabelChar, LabelText;
  }

  lemma NameEnds(name: string, after: string)
    requires IsLabelName(name)
    ensures var s := name + (['=', '"'] + after);
      && Span(s, IsLabelChar) == |name| > 0 && s[..|name|] == name && IsLabelStart(s[0])
      && s[|name|] == '=' && s[|name| + 1] == '"' && s[|name| + 2..] == after
  {
    SpanIs(name + (['=', '"'] + after), IsLabelChar, |name|);
  }

  ghost predicate LabelNamesOk(labels: seq<Label>) { forall i :: 0 <= i < |labels| ==> IsLabelName(labels[i].name) }

  lemma {:induction false} ReadPairsText(labels: seq<Label>, rest: string)
    requires labels != [] && LabelNamesOk(labels)
    ensures ReadPairs(PairsText(labels) + (['}'] + rest)) == Read(labels, rest)
  {
    hide LabelText, ReadLabel, IsLabelName;
    var tail := ['}'] + rest;
    assert tail[1..] == rest;
    if |labels| == 1 {
      assert PairsText(labels) + tail == LabelText(labels[0]) + tail;
      ReadLabelText(labels[0], tail);
      assert labels == [labels[0]];
    } else {
      var more := [','] + (PairsText(labels[1..]) + tail);
      assert PairsText(labels) + tail == LabelText(labels[0]) + more;
      ReadLabelText(labels[0], more);
      assert more[1..] == PairsText(labels[1..]) + tail;
      ReadPairsText(labels[1..], rest);
      assert labels == [labels[0]] + labels[1..];
    }
  }

  lemma MetricEnds(metric: string, tail: string)
    requires IsMetricName(metric) && tail != "" && !IsMetricChar(tail[0])
    ensures var line := metric + tail;
      && Span(line, IsMetricChar) == |metric| > 0 && !IsDigit(line[0])
      && line[..|metric|] == metric && line[|metric|..] == tail
  {
    SpanIs(metric + tail, IsMetricChar, |metric|);
  }

  lemma ReadBareSample(metric: string, value: string)
    requires IsMetricName(metric)
    ensures ReadSample(metric + ([' '] + value)) == Some(Sample(metric, [], value))
  {
    MetricEnds(metric, [' '] + value);
    hide IsMetricName, IsMetricChar, Span;
    assert ([' '] + value)[1..] == value;
  }

  lemma ReadLabelledSample(metric: string, labels: seq<Label>, value: string)
    requires IsMetricName(metric) && labels != [] && LabelNamesOk(labels)
    ensures ReadSample(metric + (LabelSuffix(labels) + ([' '] + value))) == Some(Sample(metric, labels, value))
  {
    hide *;
    ReadSuffix(labels, value);
    var rest := [' '] + value;
    assert rest[1..] == value;
    ReadSampleOfTail(metric, LabelSuffix(labels) + rest, labels, rest);
  }

  lemma ReadSampleOfTail(metric: string, tail: string, labels: seq<Label>, rest: string)
    requires IsMetricName(metric) && tail != "" && tail[0] == '{'
    requires ReadPairs(tail[1..]) == Read(labels, rest) && rest != "" && rest[0] == ' '
    ensures ReadSample(metric + tail) == Some(Sample(metric, labels, rest[1..]))
  {
    MetricEnds(metric, tail);
    hide IsMetricChar, IsDigit, IsMetricName, Span, ReadPairs;
  }

  /** The round trip: a sample line says exactly which metric, labels and value it was rendered from. */
  lemma SampleLineRoundTrip(s: Sample)
    requires IsMetricName(s.metric) && LabelNamesOk(s.labels)
    ensures ReadSample(SampleLine(s)) == Some(s)
  {
    if s.labels == [] {
      ReadBareSample(s.metric, s.value);
      hide ReadSample, IsMetricName;
      assert "" + ([' '] + s.value) == [' '] + s.value;
    } else {
      ReadLabelledSample(s.metric, s.labels, s.value);
    }
  }

  lemma ReadSuffix(labels: seq<Label>, value: string)
    requires labels != [] && LabelNamesOk(labels)
    ensures (LabelSuffix(labels) + ([' '] + value))[0] == '{'
    ensures ReadPairs((LabelSuffix(labels) + ([' '] + value))[1..]) == Read(labels, [' '] + value)
  {
    hide LabelNamesOk, PairsText;
    var rest := [' '] + value;
    assert (LabelSuffix(labels) + rest)[1..] == PairsText(labels) + (['}'] + rest);
    ReadPairsText(labels, rest);
  }

  /** Distinct samples never render to the same line. */
  lemma SampleLinesAreDistinct(a: Sample, b: Sample)
    requires IsMetricName(a.metric) && LabelNamesOk(a.labels)
    requires IsMetricName(b.metric) && LabelNamesOk(b.labels)
    requires SampleLine(a) == SampleLine(b)
    ensures a == b
  {
    SampleLineRoundTrip(a);
    SampleLineRoundTrip(b);
  }

  // ----- every sample stays on one line -----

  lemma {:induction false} EscapedHasNoNewline(value: string)
    ensures '\n' !in Escaped(value)
  {
    if value != "" {
      EscapedHasNoNewline(value[1..]);
    }
  }

  lemma {:induction false} PairsHaveNoNewline(labels: seq<Label>)
    requires LabelNamesOk(labels)
    ensures '\n' !in PairsText(labels)
  {
    if labels != [] {
      LabelHasNoNewline(labels[0]);
      hide LabelText, IsLabelName;
      PairsHaveNoNewline(labels[1..]);
    }
  }

  lemma LabelHasNoNewline(l: Label)
    requires IsLabelName(l.name)
    ensures '\n' !in LabelText(l)
  {
    EscapeLabelValueIsCharwise(l.value);
    EscapedHasNoNewline(l.value);
  }

  lemma SampleIsOneLine(s: Sample)
    requires IsMetricName(s.metric) && LabelNamesOk(s.labels) && '\n' !in s.value
    ensures '\n' !in SampleLine(s)
  {
    PairsHaveNoNewline(s.labels);
  }

  lemma HelpIsOneLine(help: string)
    ensures '\n' !in EscapeHelp(help)
  {
    ReplacedIsGone(ReplaceAll(help, '\\', "\\\\"), '\n', ['\\', 'n']);
    assert "\\n" == ['\\', 'n'];
  }

  lemma {:induction false} ReplacedIsGone(s: string, c: char, r: string)
    requires c !in r
    ensures c !in ReplaceAll(s, c, r)
  {
    if s != "" {
      ReplacedIsGone(s[1..], c, r);
    }
  }

  // ----- a block of lines -----

  /** `lines.join('\n')` and a final newline. */
  function Block(lines: seq<string>): string {
    if lines == [] then "" else lines[0] + ['\n'] + Block(lines[1..])
  }

  function LinesOf(s: string): seq<string>
    decreases |s|
  {
    if s == "" then [] else
      var n := IndexOf(s, '\n');
      if n == |s| then [s] else [s[..n]] + LinesOf(s[n + 1..])
  }

  function HeaderLines(metric: string, help: string, kind: string): seq<string> {
    ["# HELP " + metric + [' '] + EscapeHelp(help), "# TYPE " + metric + [' '] + kind]
  }

  function SampleLines(samples: seq<Sample>): seq<string> {
    if samples == [] then [] else [SampleLine(samples[0])] + SampleLines(samples[1..])
  }

  ghost predicate OneLineEach(lines: seq<string>) { forall i :: 0 <= i < |lines| ==> '\n' !in lines[i] }

  lemma {:induction false} LinesOfBlock(lines: seq<string>)
    requires OneLineEach(lines)
    ensures LinesOf(Block(lines)) == lines
  {
    if lines != [] {
      LinesOfCons(lines[0], Block(lines[1..]));
      LinesOfBlock(lines[1..]);
      assert lines == [lines[0]] + lines[1..];
    }
  }

  lemma LinesOfCons(first: string, rest: string)
    requires '\n' !in first
    ensures LinesOf(first + ['\n'] + rest) == [first] + LinesOf(rest)
  {
    var s := first + ['\n'] + rest;
    IndexOfIs(first, '\n', rest);
    assert s[..|first|] == first && s[|first| + 1..] == rest;
  }

  ghost predicate SamplesOk(samples: seq<Sample>) {
    forall i :: 0 <= i < |samples| ==>
      IsMetricName(samples[i].metric) && LabelNamesOk(samples[i].labels) && '\n' !in samples[i].value
  }

  lemma {:induction false} SamplesAreLines(samples: seq<Sample>)
    requires SamplesOk(samples)
    ensures |SampleLines(samples)| == |samples| && OneLineEach(SampleLines(samples))
    ensures forall i :: 0 <= i < |samples| ==> ReadSample(SampleLines(samples)[i]) == Some(samples[i])
  {
    hide SampleLine, ReadSample, IsMetricName, LabelNamesOk;
    if samples != [] {
      SampleIsOneLine(samples[0]);
      SampleLineRoundTrip(samples[0]);
      SamplesAreLines(samples[1..]);
    }
  }

  /** A rendered block has its two header lines and one line a sample, each read back as that sample. */
  lemma BlockIsReadBack(metric: string, help: string, kind: string, samples: seq<Sample>)
    requires IsMetricName(metric) && '\n' !in kind && SamplesOk(samples)
    ensures var lines := LinesOf(Block(HeaderLines(metric, help, kind) + SampleLines(samples)));
      && |lines| == 2 + |samples|
      && lines[..2] == HeaderLines(metric, help, kind)
      && forall i :: 0 <= i < |samples| ==> ReadSample(lines[2 + i]) == Some(samples[i])
  {
    SamplesAreLines(samples);
    HeaderIsTwoLines(metric, help, kind);
    hide ReadSample, HeaderLines, SamplesOk;
    LinesOfBlock(HeaderLines(metric, help, kind) + SampleLines(samples));
  }

  lemma HeaderIsTwoLines(metric: string, help: string, kind: string)
    requires IsMetricName(metric) && '\n' !in kind
    ensures |HeaderLines(metric, help, kind)| == 2 && OneLineEach(HeaderLines(metric, help, kind))
  {
    HelpIsOneLine(help);
    hide EscapeHelp;
  }
}
