/**
 Character classes and string operations of the JavaScript the modelled files are written in.
 A string is a sequence of Unicode scalar values. Predicates are classes of regular expressions, functions
 are methods of strings, and the lemmas say what happens to a slice, a prefix or a concatenation.
 */
module Text {

  datatype Option<+T> = None | Some(value: T) {
    function GetOr(default: T): T { if Some? then value else default }
  }

  // ----- character classes -----

  predicate IsLowerAlpha(c: char) { 'a' <= c <= 'z' }

  predicate IsUpperAlpha(c: char) { 'A' <= c <= 'Z' }

  predicate IsAlpha(c: char) { IsLowerAlpha(c) || IsUpperAlpha(c) }

  predicate IsDigit(c: char) { '0' <= c <= '9' }

  predicate IsAlnum(c: char) { IsAlpha(c) || IsDigit(c) }

  predicate IsHexDigit(c: char) { IsDigit(c) || 'a' <= c <= 'f' || 'A' <= c <= 'F' }

  function HexValue(c: char): nat
    requires IsHexDigit(c)
    ensures HexValue(c) < 16
  {
    if IsDigit(c) then c as int - '0' as int
    else if c <= 'F' then c as int - 'A' as int + 10
    else c as int - 'a' as int + 10
  }

  /** The class `\s` of a JavaScript regular expression, which is also what `trim` removes. */
  predicate IsSpace(c: char) {
    || '\U{9}' <= c <= '\U{D}'
    || c == ' ' || c == '\U{A0}' || c == '\U{1680}'
    || '\U{2000}' <= c <= '\U{200A}'
    || c == '\U{2028}' || c == '\U{2029}' || c == '\U{202F}'
    || c == '\U{205F}' || c == '\U{3000}' || c == '\U{FEFF}'
  }

  /** `toLowerCase` for the characters whose lower case is an ASCII letter; U+212A is the Kelvin sign. */
  function LowerChar(c: char): char {
    if IsUpperAlpha(c) then (c as int + 32) as char
    else if c == '\U{212A}' then 'k'
    else c
  }

  function ToLower(s: string): (r: string)
    ensures |r| == |s|
    ensures forall i :: 0 <= i < |s| ==> r[i] == LowerChar(s[i])
  {
    seq(|s|, i requires 0 <= i < |s| => LowerChar(s[i]))
  }

  // ----- slices -----

  lemma TailOfTail(s: string, i: nat, j: nat)
    requires i + j <= |s|
    ensures s[i..][j..] == s[i + j..]
  {
  }

  lemma Regroup(a: string, b: string, c: string)
    ensures a + b + c == a + (b + c)
  {
  }

  // ----- scanning -----

  /** The length of the longest prefix of `s` whose characters all satisfy `p`. */
  function Span(s: string, p: char -> bool): (n: nat)
    ensures n <= |s|
    ensures forall i :: 0 <= i < n ==> p(s[i])
    ensures n < |s| ==> !p(s[n])
  {
    if s == "" || !p(s[0]) then 0 else 1 + Span(s[1..], p)
  }

  /** A prefix of matching characters followed by a non-matching one is exactly the span. */
  lemma SpanIs(s: string, p: char -> bool, n: nat)
    requires n <= |s|
    requires forall i :: 0 <= i < n ==> p(s[i])
    requires n < |s| ==> !p(s[n])
    ensures Span(s, p) == n
  {
  }

  /** The index of the first `c` in `s`, or `|s|` when there is none. */
  function IndexOf(s: string, c: char): (n: nat)
    ensures n <= |s|
    ensures c !in s[..n]
    ensures n < |s| ==> s[n] == c
  {
    if s == "" || s[0] == c then 0 else
      var n := 1 + IndexOf(s[1..], c);
      assert s[..n] == [s[0]] + s[1..][..n - 1];
      n
  }

  lemma {:induction false} IndexOfAtMost(s: string, c: char, j: nat)
    requires j < |s| && s[j] == c
    ensures IndexOf(s, c) <= j
  {
    if j > 0 && s[0] != c {
      IndexOfAtMost(s[1..], c, j - 1);
    }
  }

  lemma IndexOfIs(a: string, c: char, b: string)
    requires c !in a
    ensures IndexOf(a + [c] + b, c) == |a|
  {
    var s := a + [c] + b;
    assert s[|a|] == c;
    assert forall i :: 0 <= i < |a| ==> s[i] == a[i];
    assert forall i :: 0 <= i < IndexOf(s, c) ==> s[..IndexOf(s, c)][i] == s[i];
  }

  /** The index of the last `c` in `s`, or -1 when there is none. */
  function LastIndexOf(s: string, c: char): (n: int)
    ensures -1 <= n < |s|
    ensures forall i :: n < i < |s| ==> s[i] != c
    ensures n >= 0 ==> s[n] == c
  {
    if s == "" then -1
    else if s[|s| - 1] == c then |s| - 1
    else LastIndexOf(s[..|s| - 1], c)
  }

  /** What follows the first occurrence of `pattern` in `s`, or the empty string when there is none. */
  function After(s: string, pattern: string): (rest: string)
    ensures |rest| <= |s|
    ensures rest == s[|s| - |rest|..]
  {
    if pattern <= s then s[|pattern|..]
    else if s == "" then ""
    else After(s[1..], pattern)
  }

  // ----- rewriting -----

  /** `s.replace(/c/g, r)` for a single character `c`. */
  function ReplaceAll(s: string, c: char, r: string): string {
    if s == "" then "" else (if s[0] == c then r else [s[0]]) + ReplaceAll(s[1..], c, r)
  }

  lemma ReplaceOne(c: char, target: char, r: string)
    ensures ReplaceAll([c], target, r) == if c == target then r else [c]
  {
    assert [c][1..] == "";
    assert r + "" == r;
  }

  lemma {:induction false} ReplaceAllConcat(a: string, b: string, c: char, r: string)
    ensures ReplaceAll(a + b, c, r) == ReplaceAll(a, c, r) + ReplaceAll(b, c, r)
  {
    if a == "" {
      assert a + b == b;
    } else {
      assert (a + b)[1..] == a[1..] + b;
      ReplaceAllConcat(a[1..], b, c, r);
    }
  }

  lemma {:induction false} ReplaceAllAbsent(s: string, c: char, r: string)
    requires c !in s
    ensures ReplaceAll(s, c, r) == s
  {
    if s != "" {
      assert s == [s[0]] + s[1..];
      ReplaceAllAbsent(s[1..], c, r);
    }
  }

  /** `s` with every character replaced by what `f` makes of it. */
  function MapChars(s: string, f: char -> string): string {
    if s == "" then "" else f(s[0]) + MapChars(s[1..], f)
  }

  /** A rewriting that distributes over concatenation is the map of what it does to single characters. */
  lemma {:induction false} DistributiveIsMap(s: string, rewrite: string -> string, f: char -> string)
    requires forall a, b :: rewrite(a + b) == rewrite(a) + rewrite(b)
    requires forall c :: rewrite([c]) == f(c)
    ensures rewrite(s) == MapChars(s, f)
  {
    if s == "" {
      assert rewrite("" + "") == rewrite("") + rewrite("") && "" + "" == "";
    } else {
      assert s == [s[0]] + s[1..];
      DistributiveIsMap(s[1..], rewrite, f);
    }
  }

  /** `s` without the characters that satisfy `p`. */
  function Remove(s: string, p: char -> bool): (r: string)
    ensures forall c :: c in r <==> c in s && !p(c)
  {
    if s == "" then "" else
      assert s == [s[0]] + s[1..];
      (if p(s[0]) then "" else [s[0]]) + Remove(s[1..], p)
  }

  lemma {:induction false} RemoveConcat(a: string, b: string, p: char -> bool)
    ensures Remove(a + b, p) == Remove(a, p) + Remove(b, p)
  {
    if a == "" {
      assert a + b == b;
    } else {
      assert (a + b)[1..] == a[1..] + b;
      RemoveConcat(a[1..], b, p);
    }
  }

  lemma {:induction false} RemoveNone(s: string, p: char -> bool)
    requires forall c :: c in s ==> !p(c)
    ensures Remove(s, p) == s
  {
    if s != "" {
      assert s == [s[0]] + s[1..];
      RemoveNone(s[1..], p);
    }
  }

  lemma {:induction false} RemoveEvery(s: string, p: char -> bool)
    requires forall c :: c in s ==> p(c)
    ensures Remove(s, p) == ""
  {
    if s != "" {
      assert s == [s[0]] + s[1..];
      RemoveEvery(s[1..], p);
    }
  }

  /** `s.trim()`. */
  function Trim(s: string): (r: string)
    ensures |r| <= |s|
    ensures r != "" ==> !IsSpace(r[0]) && !IsSpace(r[|r| - 1])
    decreases |s|
  {
    if s == "" then ""
    else if IsSpace(s[0]) then Trim(s[1..])
    else if IsSpace(s[|s| - 1]) then Trim(s[..|s| - 1])
    else s
  }
}
