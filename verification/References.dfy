/**
 What each form of character reference decodes to.
 */
module References {
  import opened Text
  import opened Entities

  // ----- numbers as they are written -----

  function Digit(d: nat, upper: bool): char
    requires d < 16
  {
    if d < 10 then ('0' as int + d) as char
    else if upper then ('A' as int + d - 10) as char
    else ('a' as int + d - 10) as char
  }

  /** `n` in a base of at most sixteen, the most significant digit first. */
  function Digits(n: nat, base: nat, upper: bool): string
    requires 2 <= base <= 16
    decreases n
  {
    if n < base then [Digit(n, upper)] else Digits(n / base, base, upper) + [Digit(n % base, upper)]
  }

  lemma DigitIs(d: nat, base: nat, upper: bool)
    requires d < base <= 16
    ensures IsHexDigit(Digit(d, upper)) && HexValue(Digit(d, upper)) == d
    ensures base <= 10 ==> IsDigit(Digit(d, upper))
  {
  }

  lemma LastDigit(n: nat, base: nat, upper: bool) returns (q: nat, r: nat)
    requires 2 <= base <= 16 && n >= base
    ensures q < n && r < base && n == q * base + r
    ensures Digits(n, base, upper) == Digits(q, base, upper) + [Digit(r, upper)]
  {
    q, r := n / base, n % base;
    hide Digit;
  }

  lemma {:induction false} DigitsAreRead(n: nat, base: nat, upper: bool)
    requires 2 <= base <= 16
    ensures var s := Digits(n, base, upper);
      && s != "" && (forall c :: c in s ==> IsHexDigit(c)) && ParseNumber(s, base) == n
      && (base <= 10 ==> forall c :: c in s ==> IsDigit(c))
    decreases n
  {
    if n < base {
      DigitIs(n, base, upper);
      assert [Digit(n, upper)][..0] == "";
      assert ParseNumber("", base) == 0;
    } else {
      var q, r := LastDigit(n, base, upper);
      hide Digits, Digit, IsHexDigit, IsDigit;
      DigitsAreRead(q, base, upper);
      DigitIs(r, base, upper);
      OneMoreDigit(Digits(q, base, upper), Digit(r, upper), base);
      hide ParseNumber;
    }
  }

  lemma OneMoreDigit(before: string, last: char, base: nat)
    requires IsHexDigit(last) && forall c :: c in before ==> IsHexDigit(c)
    ensures forall c :: c in before + [last] ==> IsHexDigit(c)
    ensures ParseNumber(before + [last], base) == ParseNumber(before, base) * base + HexValue(last)
  {
    var s := before + [last];
    assert s[..|s| - 1] == before && s[|s| - 1] == last;
    hide IsHexDigit;
  }

  // ----- references -----

  /** A reference whose body, between `&` and `;`, is known. */
  lemma ReferenceIs(body: string, rest: string)
    requires body != "" && ReferenceBody(body + ([';'] + rest)) == |body|
    ensures (body + ([';'] + rest))[..|body|] == body
    ensures body[0] == '#' ==>
      || (1 < |body| && forall c :: c in body[1..] ==> IsDigit(c))
      || (2 < |body| && body[1] == 'x' && forall c :: c in body[2..] ==> IsHexDigit(c))
    ensures DecodeEntities(['&'] + (body + ([';'] + rest))) == DecodeReference(body) + DecodeEntities(rest)
  {
    var t := body + ([';'] + rest);
    var s := ['&'] + t;
    assert t[..|body|] == body;
    assert body[0] == '#' ==> t[1..|body|] == body[1..] && (|body| > 2 ==> t[2..|body|] == body[2..]);
    assert s[1..] == t && s[|body| + 1] == ';' && s[1..|body| + 1] == body && s[|body| + 2..] == rest;
    hide DecodeReference, ReferenceBody;
  }

  lemma BodyOfDecimal(digits: string, rest: string)
    requires digits != "" && forall c :: c in digits ==> IsDigit(c)
    ensures ReferenceBody(['#'] + digits + ([';'] + rest)) == |digits| + 1
  {
    var s := ['#'] + digits + ([';'] + rest);
    assert digits[0] in digits && s[1] == digits[0];
    assert s[1..] == digits + ([';'] + rest);
    assert forall i :: 0 <= i < |digits| ==> digits[i] in digits;
    SpanIs(digits + ([';'] + rest), IsDigit, |digits|);
  }

  lemma BodyOfHex(digits: string, rest: string)
    requires digits != "" && forall c :: c in digits ==> IsHexDigit(c)
    ensures ReferenceBody(['#', 'x'] + digits + ([';'] + rest)) == |digits| + 2
  {
    var s := ['#', 'x'] + digits + ([';'] + rest);
    assert digits[0] in digits && s[2] == digits[0];
    assert s[2..] == digits + ([';'] + rest);
    assert forall i :: 0 <= i < |digits| ==> digits[i] in digits;
    SpanIs(digits + ([';'] + rest), IsHexDigit, |digits|);
  }

  /** `&#n;` is the character of that code point, and nothing beyond the last code point. */
  lemma DecimalReference(n: nat, rest: string)
    ensures var s := ['&'] + (['#'] + Digits(n, 10, false) + ([';'] + rest));
      && (n > 0x10FFFF ==> DecodeEntities(s) == DecodeEntities(rest))
      && (n <= 0x10FFFF && !(0xD800 <= n < 0xE000) ==> DecodeEntities(s) == [n as char] + DecodeEntities(rest))
  {
    hide DecodeEntities, ReferenceBody, ParseNumber, Digits;
    var digits := Digits(n, 10, false);
    DigitsAreRead(n, 10, false);
    BodyOfDecimal(digits, rest);
    ReferenceIs(['#'] + digits, rest);
    assert (['#'] + digits)[1..] == digits && digits[0] in digits;
    assert (['#'] + digits)[1] == digits[0] != 'x';
    assert "" + DecodeEntities(rest) == DecodeEntities(rest);
  }

  /** `&#xn;`, with digits of either case. */
  lemma HexReference(n: nat, upper: bool, rest: string)
    ensures var s := ['&'] + (['#', 'x'] + Digits(n, 16, upper) + ([';'] + rest));
      && (n > 0x10FFFF ==> DecodeEntities(s) == DecodeEntities(rest))
      && (n <= 0x10FFFF && !(0xD800 <= n < 0xE000) ==> DecodeEntities(s) == [n as char] + DecodeEntities(rest))
  {
    hide DecodeEntities, ReferenceBody, ParseNumber, Digits;
    var digits := Digits(n, 16, upper);
    DigitsAreRead(n, 16, upper);
    BodyOfHex(digits, rest);
    ReferenceIs(['#', 'x'] + digits, rest);
    assert (['#', 'x'] + digits)[2..] == digits;
    assert "" + DecodeEntities(rest) == DecodeEntities(rest);
  }

  /** A name is looked up as it is, then in lower case; a name that is in neither form known stays as written. */
  lemma NamedReference(name: string, rest: string)
    requires name != "" && IsAlpha(name[0]) && forall i :: 0 <= i < |name| ==> IsAlnum(name[i])
    ensures DecodeEntities(['&'] + (name + ([';'] + rest)))
         == Named(name).GetOr(Named(ToLower(name)).GetOr(['&'] + name + [';'])) + DecodeEntities(rest)
  {
    hide DecodeEntities, Named, ToLower;
    SpanIs(name + ([';'] + rest), IsAlnum, |name|);
    assert (name + ([';'] + rest))[0] == name[0];
    ReferenceIs(name, rest);
  }

  /** An ampersand that starts no reference stays. */
  lemma LoneAmpersand(rest: string)
    requires rest == "" || (rest[0] != '#' && !IsAlpha(rest[0]))
    ensures DecodeEntities(['&'] + rest) == ['&'] + DecodeEntities(rest)
  {
    assert (['&'] + rest)[1..] == rest;
  }

  /** So does one whose reference is not closed. */
  lemma UnclosedReference(name: string, rest: string)
    requires name != "" && IsAlpha(name[0]) && forall i :: 0 <= i < |name| ==> IsAlnum(name[i])
    requires rest != "" ==> rest[0] != ';' && !IsAlnum(rest[0])
    ensures DecodeEntities(['&'] + (name + rest)) == ['&'] + DecodeEntities(name + rest)
  {
    var s := ['&'] + (name + rest);
    assert s[1..] == name + rest && (name + rest)[0] == name[0];
    SpanIs(name + rest, IsAlnum, |name|);
  }
}
