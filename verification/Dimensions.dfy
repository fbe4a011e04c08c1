/**
 Which widths and heights of an image are kept.
 */
module Dimensions {
  import opened Text
  import opened Entities
  import opened Attributes

  /** One to five digits with a unit, or without one when they stay within what a layout bears. */
  lemma DimensionIsKeptIff(digits: string, unit: string)
    requires forall i :: 0 <= i < |digits| ==> '0' <= digits[i] <= '9'
    requires unit == "" || !('0' <= unit[0] <= '9')
    ensures IsKeptDimension(digits + unit) <==>
      && 1 <= |digits| <= 5
      && (|| unit == ['p', 'x'] || unit == ['e', 'm'] || unit == ['%']
          || (unit == "" && 1 <= ParseNumber(digits, 10) <= 10000))
  {
    hide ParseNumber, Span;
    var s := digits + unit;
    DigitsEnd(digits, unit);
    assert "px" == ['p', 'x'] && "em" == ['e', 'm'] && "%" == ['%'];
    var known := unit == ['p', 'x'] || unit == ['e', 'm'] || unit == ['%'];
    assert IsDimension(s) <==> 1 <= |digits| <= 5 && (unit == "" || known);
    hide IsDimension;
    assert unit == "" <==> |digits| == |s|;
    if unit == "" { assert s == digits; }
  }

  lemma DigitsEnd(digits: string, unit: string)
    requires forall i :: 0 <= i < |digits| ==> '0' <= digits[i] <= '9'
    requires unit == "" || !('0' <= unit[0] <= '9')
    ensures Span(digits + unit, IsDigit) == |digits| && (digits + unit)[|digits|..] == unit
  {
    SpanIs(digits + unit, IsDigit, |digits|);
  }

  lemma {:induction false} TrimPast(gap1: string, s: string, gap2: string)
    requires forall i :: 0 <= i < |gap1| ==> IsSpace(gap1[i])
    requires forall i :: 0 <= i < |gap2| ==> IsSpace(gap2[i])
    requires s != "" && !IsSpace(s[0]) && !IsSpace(s[|s| - 1])
    ensures Trim(gap1 + s + gap2) == s
    decreases |gap1| + |gap2|
  {
    hide IsSpace;
    var t := gap1 + s + gap2;
    if gap1 != "" {
      assert t[0] == gap1[0] && t[1..] == gap1[1..] + s + gap2;
      TrimPast(gap1[1..], s, gap2);
    } else if gap2 != "" {
      var n := |gap2| - 1;
      assert t[0] == s[0] && t[|t| - 1] == gap2[n] && t[..|t| - 1] == gap1 + s + gap2[..n];
      TrimPast(gap1, s, gap2[..n]);
    } else {
      assert t == s;
    }
  }

  /** Blanks around it do not matter. */
  lemma TrimmedDimension(gap1: string, s: string, gap2: string)
    requires forall i :: 0 <= i < |gap1| ==> IsSpace(gap1[i])
    requires forall i :: 0 <= i < |gap2| ==> IsSpace(gap2[i])
    requires s != "" && !IsSpace(s[0]) && !IsSpace(s[|s| - 1])
    ensures KeepDimension(Some(gap1 + s + gap2)) == if IsKeptDimension(s) then Some(s) else None
  {
    hide IsSpace, IsKeptDimension, Trim;
    TrimPast(gap1, s, gap2);
  }
}
