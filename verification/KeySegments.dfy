/**
 The segments of a cache key: escaping, and reading them back from the right even when what stands in
 front of them is not escaped. A colon of a segment has an odd number of backslashes before it, so the
 last colon of a key with an even number of them is where its last segment begins.
 */
module KeySegments {
  import opened Text

  // ----- escaping -----

  function EscapeSegment(value: string): string {
    ReplaceAll(ReplaceAll(value, '\\', "\\\\"), ':', "\\:")
  }

  function EscapeAll(values: seq<string>): (r: seq<string>)
    ensures |r| == |values|
  {
    seq(|values|, i requires 0 <= i < |values| => EscapeSegment(values[i]))
  }

  function EscapedChar(c: char): string { if c == '\\' || c == ':' then ['\\', c] else [c] }

  function Escaped(value: string): string { MapChars(value, EscapedChar) }

  lemma EscapeSegmentConcat(a: string, b: string)
    ensures EscapeSegment(a + b) == EscapeSegment(a) + EscapeSegment(b)
  {
    ReplaceAllConcat(a, b, '\\', "\\\\");
    ReplaceAllConcat(ReplaceAll(a, '\\', "\\\\"), ReplaceAll(b, '\\', "\\\\"), ':', "\\:");
  }

  lemma EscapeSegmentChar(c: char)
    ensures EscapeSegment([c]) == EscapedChar(c)
  {
    ReplaceOne(c, '\\', "\\\\");
    if c == '\\' {
      var twice := "\\\\";
      assert twice == ['\\', '\\'];
      ReplaceAllAbsent(twice, ':', "\\:");
    } else {
      ReplaceOne(c, ':', "\\:");
    }
  }

  lemma EscapeSegmentIsCharwise(value: string)
    ensures EscapeSegment(value) == Escaped(value)
  {
    hide EscapeSegment, EscapedChar;
    forall a, b
      ensures EscapeSegment(a + b) == EscapeSegment(a) + EscapeSegment(b)
    {
      EscapeSegmentConcat(a, b);
    }
    forall c
      ensures EscapeSegment([c]) == EscapedChar(c)
    {
      EscapeSegmentChar(c);
    }
    DistributiveIsMap(value, EscapeSegment, EscapedChar);
  }

  lemma EscapeNothing()
    ensures EscapeSegment("") == ""
  {
  }

  /** Undoes `EscapeSegment`. */
  function Unescape(s: string): string {
    if s == "" then ""
    else if s[0] == '\\' && |s| > 1 then [s[1]] + Unescape(s[2..])
    else [s[0]] + Unescape(s[1..])
  }

  lemma {:induction false} UnescapeEscaped(v: string)
    ensures Unescape(Escaped(v)) == v
  {
    if v != "" {
      UnescapeEscaped(v[1..]);
      var head, tail := EscapedChar(v[0]), Escaped(v[1..]);
      assert v == [v[0]] + v[1..];
      assert (head + tail)[|head|..] == tail;
    }
  }

  lemma EscapeIsInjective(a: string, b: string)
    requires EscapeSegment(a) == EscapeSegment(b)
    ensures a == b
  {
    hide EscapeSegment, Escaped, Unescape;
    EscapeSegmentIsCharwise(a);
    EscapeSegmentIsCharwise(b);
    UnescapeEscaped(a);
    UnescapeEscaped(b);
  }

  // ----- joining -----

  function Join(parts: seq<string>, separator: char): string {
    if parts == [] then ""
    else if |parts| == 1 then parts[0]
    else parts[0] + [separator] + Join(parts[1..], separator)
  }

  /** Every part with the separator in front of it. */
  function Suffixes(parts: seq<string>, separator: char): string {
    if parts == [] then "" else [separator] + parts[0] + Suffixes(parts[1..], separator)
  }

  lemma SuffixOfOne(part: string, separator: char)
    ensures Suffixes([part], separator) == [separator] + part
  {
    assert [part][1..] == [];
  }

  lemma {:induction false} SuffixesConcat(a: seq<string>, b: seq<string>, separator: char)
    ensures Suffixes(a + b, separator) == Suffixes(a, separator) + Suffixes(b, separator)
  {
    if a == [] {
      assert a + b == b;
    } else {
      assert (a + b)[1..] == a[1..] + b;
      SuffixesConcat(a[1..], b, separator);
    }
  }

  lemma {:induction false} JoinIsSuffixes(part: string, rest: seq<string>, separator: char)
    ensures Join([part] + rest, separator) == part + Suffixes(rest, separator)
    decreases |rest|
  {
    var parts := [part] + rest;
    assert parts[1..] == rest;
    if rest != [] {
      assert rest == [rest[0]] + rest[1..];
      JoinIsSuffixes(rest[0], rest[1..], separator);
    }
  }

  lemma SeparatorThenJoin(parts: seq<string>, separator: char)
    requires parts != []
    ensures [separator] + Join(parts, separator) == Suffixes(parts, separator)
  {
    assert parts == [parts[0]] + parts[1..];
    JoinIsSuffixes(parts[0], parts[1..], separator);
  }

  // ----- segments -----

  /** Escaped segments, each behind a colon. */
  function SegmentsText(segments: seq<string>): string {
    if segments == [] then ""
    else SegmentsText(segments[..|segments| - 1]) + ([':'] + EscapeSegment(segments[|segments| - 1]))
  }

  lemma SegmentsTextSnoc(segments: seq<string>, last: string)
    ensures SegmentsText(segments + [last]) == SegmentsText(segments) + ([':'] + EscapeSegment(last))
  {
    assert (segments + [last])[..|segments|] == segments;
  }

  lemma {:induction false} SegmentsTextConcat(a: seq<string>, b: seq<string>)
    ensures SegmentsText(a + b) == SegmentsText(a) + SegmentsText(b)
  {
    hide EscapeSegment;
    if b == [] {
      assert a + b == a;
    } else {
      var before, last := b[..|b| - 1], b[|b| - 1];
      assert a + b == (a + before) + [last];
      SegmentsTextSnoc(a + before, last);
      SegmentsTextConcat(a, before);
    }
  }

  lemma {:induction false} SegmentsTextIsSuffixes(segments: seq<string>)
    ensures SegmentsText(segments) == Suffixes(EscapeAll(segments), ':')
  {
    hide EscapeSegment;
    if segments != [] {
      var before, last := segments[..|segments| - 1], segments[|segments| - 1];
      SegmentsTextIsSuffixes(before);
      assert EscapeAll(segments) == EscapeAll(before) + [EscapeSegment(last)];
      hide EscapeAll;
      SuffixesConcat(EscapeAll(before), [EscapeSegment(last)], ':');
      SuffixOfOne(EscapeSegment(last), ':');
    }
  }

  // ----- reading from the right -----

  /** Whether the character after `s` is escaped, when the first character of `s` is (`escaped`) or is not. */
  predicate Pending(s: string, escaped: bool) {
    if s == "" then escaped else Pending(s[1..], !escaped && s[0] == '\\')
  }

  lemma {:induction false} PendingConcat(a: string, b: string, escaped: bool)
    ensures Pending(a + b, escaped) == Pending(b, Pending(a, escaped))
  {
    if a == "" {
      assert a + b == b;
    } else {
      assert (a + b)[1..] == a[1..] + b;
      PendingConcat(a[1..], b, !escaped && a[0] == '\\');
    }
  }

  lemma PendingPastColon(a: string, b: string)
    ensures Pending(a + ([':'] + b), false) == Pending(b, false)
  {
    PendingConcat(a, [':'] + b, false);
    assert ([':'] + b)[1..] == b;
  }

  lemma {:induction false} EscapedIsSettled(v: string)
    ensures !Pending(Escaped(v), false)
  {
    if v != "" {
      EscapedIsSettled(v[1..]);
      var head, tail := EscapedChar(v[0]), Escaped(v[1..]);
      PendingConcat(head, tail, false);
      assert head[1..] == (if |head| == 1 then [] else [v[0]]);
      assert |head| == 2 ==> [v[0]][1..] == [];
    }
  }

  /** Every colon of an escaped value is itself escaped. */
  lemma {:induction false} ColonInEscaped(v: string, x: string, y: string)
    requires Escaped(v) == x + ([':'] + y)
    ensures Pending(x, false)
    decreases v
  {
    var s := x + ([':'] + y);
    assert s[|x|] == ':';
    var head, tail := EscapedChar(v[0]), Escaped(v[1..]);
    assert s[0] == head[0] != ':';
    assert x != "" && x[0] == head[0];
    assert s[|head|..] == tail;
    if |head| == 1 {
      assert tail == x[1..] + ([':'] + y);
      ColonInEscaped(v[1..], x[1..], y);
    } else if |x| == 1 {
      assert x[1..] == "";
    } else {
      assert tail == x[2..] + ([':'] + y);
      assert x[1..][1..] == x[2..];
      ColonInEscaped(v[1..], x[2..], y);
    }
  }

  lemma Cancel(head: string, a: string, b: string)
    requires head + a == head + b
    ensures a == b
  {
    assert a == (head + a)[|head|..] && b == (head + b)[|head|..];
  }

  lemma Between(a1: string, t1: string, a2: string, t2: string) returns (x: string)
    requires a1 + ([':'] + t1) == a2 + ([':'] + t2) && |a1| > |a2|
    ensures a1 == a2 + ([':'] + x) && t2 == x + ([':'] + t1)
  {
    var s := a1 + ([':'] + t1);
    x := a1[|a2| + 1..];
    assert s[|a2|] == a1[|a2|] == ':';
    assert s[..|a2|] == a2 == a1[..|a2|];
    assert s[|a2| + 1..] == t2;
  }

  lemma NotLonger(a1: string, v1: string, a2: string, v2: string)
    requires !Pending(a1, false)
    requires a1 + ([':'] + Escaped(v1)) == a2 + ([':'] + Escaped(v2))
    ensures |a1| <= |a2|
  {
    hide Pending, Escaped;
    if |a1| > |a2| {
      var x := Between(a1, Escaped(v1), a2, Escaped(v2));
      ColonInEscaped(v2, x, Escaped(v1));
      PendingPastColon(a2, x);
    }
  }

  /** The last segment is delimited, whatever stands before it, unless that ends in a pending backslash. */
  lemma LastSegment(a1: string, v1: string, a2: string, v2: string)
    requires !Pending(a1, false) && !Pending(a2, false)
    requires a1 + ([':'] + EscapeSegment(v1)) == a2 + ([':'] + EscapeSegment(v2))
    ensures a1 == a2 && v1 == v2
  {
    hide Pending, Escaped, EscapeSegment;
    EscapeSegmentIsCharwise(v1);
    EscapeSegmentIsCharwise(v2);
    NotLonger(a1, v1, a2, v2);
    NotLonger(a2, v2, a1, v1);
    var s := a1 + ([':'] + EscapeSegment(v1));
    assert s[..|a1|] == a1 && s[..|a2|] == a2;
    Cancel(a1, [':'] + EscapeSegment(v1), [':'] + EscapeSegment(v2));
    Cancel([':'], EscapeSegment(v1), EscapeSegment(v2));
    EscapeIsInjective(v1, v2);
  }

  lemma SegmentsAreSettled(front: string, segments: seq<string>)
    requires segments != []
    ensures !Pending(front + SegmentsText(segments), false)
  {
    hide Pending, Escaped, EscapeSegment;
    var before, last := segments[..|segments| - 1], segments[|segments| - 1];
    EscapeSegmentIsCharwise(last);
    EscapedIsSettled(last);
    PendingPastColon(front + SegmentsText(before), EscapeSegment(last));
    Regroup(front, SegmentsText(before), [':'] + EscapeSegment(last));
  }

  /** As long as a segment is left on both sides, the same segments are read from the right. */
  lemma {:induction false} SegmentsFromRight(f1: string, l1: seq<string>, f2: string, l2: seq<string>, n: nat)
    requires n < |l1| && n < |l2| && f1 + SegmentsText(l1) == f2 + SegmentsText(l2)
    ensures l1[|l1| - n..] == l2[|l2| - n..]
    ensures f1 + SegmentsText(l1[..|l1| - n]) == f2 + SegmentsText(l2[..|l2| - n])
  {
    hide EscapeSegment, Pending, SegmentsText;
    if n == 0 {
      assert l1[..|l1|] == l1 && l2[..|l2|] == l2;
    } else {
      var k1, k2 := |l1| - n, |l2| - n;
      SegmentsFromRight(f1, l1, f2, l2, n - 1);
      PeelLast(f1, l1[..k1 + 1], f2, l2[..k2 + 1]);
      assert l1[..k1 + 1][..k1] == l1[..k1] && l2[..k2 + 1][..k2] == l2[..k2];
      assert l1[k1..] == [l1[k1]] + l1[k1 + 1..] && l2[k2..] == [l2[k2]] + l2[k2 + 1..];
    }
  }

  lemma PeelLast(f1: string, l1: seq<string>, f2: string, l2: seq<string>)
    requires |l1| > 1 && |l2| > 1 && f1 + SegmentsText(l1) == f2 + SegmentsText(l2)
    ensures l1[|l1| - 1] == l2[|l2| - 1]
    ensures f1 + SegmentsText(l1[..|l1| - 1]) == f2 + SegmentsText(l2[..|l2| - 1])
  {
    hide EscapeSegment, Pending;
    var b1, b2 := l1[..|l1| - 1], l2[..|l2| - 1];
    SegmentsAreSettled(f1, b1);
    SegmentsAreSettled(f2, b2);
    Regroup(f1, SegmentsText(b1), [':'] + EscapeSegment(l1[|l1| - 1]));
    Regroup(f2, SegmentsText(b2), [':'] + EscapeSegment(l2[|l2| - 1]));
    LastSegment(f1 + SegmentsText(b1), l1[|l1| - 1], f2 + SegmentsText(b2), l2[|l2| - 1]);
  }
}
