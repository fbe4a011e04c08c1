/**
 UTF-8 in percent-encoded octets: what one decoding pass reads is exactly what the encoding writes. A
 character has one encoding, its shortest, in one to four octets; the first octet holds the highest bits
 and each octet behind it six more.
 */
module PercentEncoding {
  import opened Text
  import opened Waf

  function HexDigit(n: nat): char
    requires n < 16
  {
    if n < 10 then ('0' as int + n) as char else ('A' as int + n - 10) as char
  }

  function Octet(b: nat): string
    requires b < 256
  {
    ['%', HexDigit(b / 16), HexDigit(b % 16)]
  }

  /** The octets of a character in UTF-8, table 3-6 of the Unicode standard. */
  function OctetsOf(c: char): (octets: seq<nat>)
    ensures forall i :: 0 <= i < |octets| ==> octets[i] < 256
  {
    var v := c as int;
    if v < 0x80 then [v]
    else if v < 0x800 then [0xC0 + v / 64, 0x80 + v % 64]
    else if v < 0x10000 then [0xE0 + v / 4096, 0x80 + v / 64 % 64, 0x80 + v % 64]
    else [0xF0 + v / 262144, 0x80 + v / 4096 % 64, 0x80 + v / 64 % 64, 0x80 + v % 64]
  }

  function WriteOctets(octets: seq<nat>): string
    requires forall i :: 0 <= i < |octets| ==> octets[i] < 256
  {
    if octets == [] then "" else Octet(octets[0]) + WriteOctets(octets[1..])
  }

  function EncodeChar(c: char): string { WriteOctets(OctetsOf(c)) }

  /** Every character of `s` that `encoded` names, and every percent sign, in octets. */
  function Encode(s: string, encoded: set<char>): string {
    MapChars(s, c => if c == '%' || c in encoded then EncodeChar(c) else [c])
  }

  lemma OctetIsRead(b: nat, rest: string)
    requires b < 256
    ensures OctetAt(Octet(b) + rest, 0) == Some(b) && (Octet(b) + rest)[3..] == rest
  {
  }

  lemma OctetMoves(lead: string, s: string, at: nat)
    ensures OctetAt(lead + s, |lead| + at) == OctetAt(s, at)
  {
    if |lead| + at + 3 <= |lead + s| {
      assert (lead + s)[|lead| + at] == s[at] && (lead + s)[|lead| + at + 1] == s[at + 1]
          && (lead + s)[|lead| + at + 2] == s[at + 2];
    }
  }

  lemma {:induction false} OctetsAreRead(octets: seq<nat>, rest: string, k: nat)
    requires forall i :: 0 <= i < |octets| ==> octets[i] < 256
    requires k < |octets|
    ensures OctetAt(WriteOctets(octets) + rest, 3 * k) == Some(octets[k])
  {
    hide OctetAt, Octet;
    var tail := WriteOctets(octets[1..]) + rest;
    assert WriteOctets(octets) + rest == Octet(octets[0]) + tail;
    OctetIsRead(octets[0], tail);
    if k > 0 {
      OctetsAreRead(octets[1..], rest, k - 1);
      OctetLength(octets[0]);
      OctetMoves(Octet(octets[0]), tail, 3 * (k - 1));
    }
  }

  lemma OctetLength(b: nat)
    requires b < 256
    ensures |Octet(b)| == 3
  {
  }

  lemma {:induction false} WrittenLength(octets: seq<nat>)
    requires forall i :: 0 <= i < |octets| ==> octets[i] < 256
    ensures |WriteOctets(octets)| == 3 * |octets|
  {
    if octets != [] { WrittenLength(octets[1..]); }
  }

  /** `s` starts with these octets. */
  ghost predicate StartsWith(s: string, octets: seq<nat>) {
    forall k: nat :: k < |octets| ==> OctetAt(s, 3 * k) == Some(octets[k])
  }

  lemma SixBits(v: nat)
    ensures v == v / 64 * 64 + v % 64
    ensures v / 64 == v / 4096 * 64 + v / 64 % 64
    ensures v / 4096 == v / 262144 * 64 + v / 4096 % 64
  {
  }

  lemma FromSixBits(a: nat, b: nat)
    requires b < 64
    ensures (a * 64 + b) / 64 == a && (a * 64 + b) % 64 == b
  {
  }

  lemma FromTwelveBits(a: nat, b: nat, c: nat)
    requires b < 64 && c < 64
    ensures var v := a * 4096 + b * 64 + c;
      v / 4096 == a && v / 64 % 64 == b && v % 64 == c
  {
    FromSixBits(a * 64 + b, c);
    FromSixBits(a, b);
    assert a * 4096 + b * 64 + c == (a * 64 + b) * 64 + c;
    SixBits(a * 4096 + b * 64 + c);
  }

  lemma FromEighteenBits(a: nat, b: nat, c: nat, d: nat)
    requires b < 64 && c < 64 && d < 64
    ensures var v := a * 262144 + b * 4096 + c * 64 + d;
      v / 262144 == a && v / 4096 % 64 == b && v / 64 % 64 == c && v % 64 == d
  {
    FromTwelveBits(a * 64 + b, c, d);
    FromSixBits(a, b);
    assert a * 262144 + b * 4096 + c * 64 + d == (a * 64 + b) * 4096 + c * 64 + d;
    SixBits(a * 262144 + b * 4096 + c * 64 + d);
  }

  lemma Continuation(s: string, at: nat, bits: nat)
    requires bits < 64 && OctetAt(s, at) == Some(0x80 + bits)
    ensures ContinuationAt(s, at) == Some(bits)
  {
    hide OctetAt;
  }

  lemma TwoOctets(s: string, a: nat, b: nat)
    requires 2 <= a < 32 && b < 64 && OctetAt(s, 0) == Some(0xC0 + a) && OctetAt(s, 3) == Some(0x80 + b)
    ensures DecodeSequence(s) == Some(Decoded(a * 64 + b, 6))
  {
    Continuation(s, 3, b);
    hide OctetAt, ContinuationAt;
  }

  lemma ThreeOctets(s: string, a: nat, b: nat, c: nat)
    requires a < 16 && b < 64 && c < 64 && OctetAt(s, 0) == Some(0xE0 + a)
    requires OctetAt(s, 3) == Some(0x80 + b) && OctetAt(s, 6) == Some(0x80 + c)
    requires var v := a * 4096 + b * 64 + c; v >= 0x800 && !(0xD800 <= v < 0xE000)
    ensures DecodeSequence(s) == Some(Decoded(a * 4096 + b * 64 + c, 9))
  {
    Continuation(s, 3, b);
    Continuation(s, 6, c);
    hide OctetAt, ContinuationAt;
  }

  lemma FourOctets(s: string, a: nat, b: nat, c: nat, d: nat)
    requires a < 8 && b < 64 && c < 64 && d < 64 && OctetAt(s, 0) == Some(0xF0 + a)
    requires OctetAt(s, 3) == Some(0x80 + b) && OctetAt(s, 6) == Some(0x80 + c) && OctetAt(s, 9) == Some(0x80 + d)
    requires 0x10000 <= a * 262144 + b * 4096 + c * 64 + d <= 0x10FFFF
    ensures DecodeSequence(s) == Some(Decoded(a * 262144 + b * 4096 + c * 64 + d, 12))
  {
    Continuation(s, 3, b);
    Continuation(s, 6, c);
    Continuation(s, 9, d);
    hide OctetAt, ContinuationAt;
  }

  lemma OctetOf(s: string, octets: seq<nat>, k: nat)
    requires StartsWith(s, octets) && k < |octets|
    ensures OctetAt(s, 3 * k) == Some(octets[k])
  {
  }

  /** What starts with the octets of a character is read as it. */
  lemma OctetsGiveCharacter(s: string, c: char)
    requires StartsWith(s, OctetsOf(c))
    ensures DecodeSequence(s) == Some(Decoded(c as int, 3 * |OctetsOf(c)|))
  {
    hide OctetAt, StartsWith, DecodeSequence, ContinuationAt;
    var octets, v := OctetsOf(c), c as int;
    SixBits(v);
    OctetOf(s, octets, 0);
    if |octets| > 1 { OctetOf(s, octets, 1); }
    if |octets| > 2 { OctetOf(s, octets, 2); }
    if |octets| > 3 { OctetOf(s, octets, 3); }
    if v < 0x80 {
      OneOctet(s, v);
    } else if v < 0x800 {
      TwoOctets(s, v / 64, v % 64);
    } else if v < 0x10000 {
      ThreeOctets(s, v / 4096, v / 64 % 64, v % 64);
    } else {
      FourOctets(s, v / 262144, v / 4096 % 64, v / 64 % 64, v % 64);
    }
  }

  lemma OneOctet(s: string, v: nat)
    requires v < 0x80 && OctetAt(s, 0) == Some(v)
    ensures DecodeSequence(s) == Some(Decoded(v, 3))
  {
  }

  /** What a sequence has been read from, by its first octet. */
  lemma SequenceParts(s: string)
    requires DecodeSequence(s).Some?
    ensures OctetAt(s, 0).Some?
    ensures var b, v := OctetAt(s, 0).value, DecodeSequence(s).value.codePoint;
      if b < 0x80 then v == b
      else if b < 0xE0 then ContinuationAt(s, 3).Some? && 0x80 <= v == (b - 0xC0) * 64 + ContinuationAt(s, 3).value
      else if b < 0xF0 then
        && ContinuationAt(s, 3).Some? && ContinuationAt(s, 6).Some?
        && 0x800 <= v == (b - 0xE0) * 4096 + ContinuationAt(s, 3).value * 64 + ContinuationAt(s, 6).value
      else
        && b < 0xF8 && ContinuationAt(s, 3).Some? && ContinuationAt(s, 6).Some? && ContinuationAt(s, 9).Some?
        && 0x10000 <= v == (b - 0xF0) * 262144 + ContinuationAt(s, 3).value * 4096
                           + ContinuationAt(s, 6).value * 64 + ContinuationAt(s, 9).value
    ensures 0x80 <= OctetAt(s, 0).value ==> 0xC0 <= OctetAt(s, 0).value
  {
    hide OctetAt, ContinuationAt;
  }

  lemma OctetsOfTwo(c: char, a: nat, b: nat)
    requires b < 64 && 0x80 <= c as int == a * 64 + b < 0x800
    ensures OctetsOf(c) == [0xC0 + a, 0x80 + b]
  {
    FromSixBits(a, b);
  }

  lemma OctetsOfThree(c: char, a: nat, b1: nat, b2: nat)
    requires b1 < 64 && b2 < 64 && 0x800 <= c as int == a * 4096 + b1 * 64 + b2 < 0x10000
    ensures OctetsOf(c) == [0xE0 + a, 0x80 + b1, 0x80 + b2]
  {
    FromTwelveBits(a, b1, b2);
  }

  lemma OctetsOfFour(c: char, a: nat, b1: nat, b2: nat, b3: nat)
    requires b1 < 64 && b2 < 64 && b3 < 64 && 0x10000 <= c as int == a * 262144 + b1 * 4096 + b2 * 64 + b3
    ensures OctetsOf(c) == [0xF0 + a, 0x80 + b1, 0x80 + b2, 0x80 + b3]
  {
    FromEighteenBits(a, b1, b2, b3);
  }

  /** And nothing else is: the octets read are the character's. */
  lemma OctetsRead(s: string, c: char) returns (octets: seq<nat>)
    requires DecodeSequence(s).Some? && DecodeSequence(s).value.codePoint == c as int
    ensures 1 <= |octets| <= 4 && octets == OctetsOf(c) && OctetAt(s, 0) == Some(octets[0])
    ensures forall k :: 1 <= k < |octets| ==> ContinuationAt(s, 3 * k).Some? && octets[k] == 0x80 + ContinuationAt(s, 3 * k).value
  {
    SequenceParts(s);
    var b := OctetAt(s, 0).value;
    hide OctetAt, ContinuationAt, DecodeSequence;
    if b < 0x80 {
      octets := [b];
      assert octets == OctetsOf(c);
    } else if b < 0xE0 {
      var c1 := ContinuationAt(s, 3).value;
      OctetsOfTwo(c, b - 0xC0, c1);
      octets := [b, 0x80 + c1];
    } else if b < 0xF0 {
      var c1, c2 := ContinuationAt(s, 3).value, ContinuationAt(s, 6).value;
      OctetsOfThree(c, b - 0xE0, c1, c2);
      octets := [b, 0x80 + c1, 0x80 + c2];
    } else {
      var c1, c2, c3 := ContinuationAt(s, 3).value, ContinuationAt(s, 6).value, ContinuationAt(s, 9).value;
      OctetsOfFour(c, b - 0xF0, c1, c2, c3);
      octets := [b, 0x80 + c1, 0x80 + c2, 0x80 + c3];
    }
  }

  lemma CharacterHasOctets(s: string, c: char)
    requires DecodeSequence(s).Some? && DecodeSequence(s).value.codePoint == c as int
    ensures StartsWith(s, OctetsOf(c))
  {
    var octets := OctetsRead(s, c);
    hide OctetsOf, DecodeSequence, OctetAt;
    forall k: nat | k < |octets|
      ensures OctetAt(s, 3 * k) == Some(octets[k])
    {
      if k > 0 { assert ContinuationAt(s, 3 * k).Some?; }
    }
  }

  /** A sequence is read as a character exactly when it is the character's own, shortest encoding. */
  lemma SequenceIsReadIff(s: string, c: char)
    ensures (DecodeSequence(s).Some? && DecodeSequence(s).value.codePoint == c as int) <==> StartsWith(s, OctetsOf(c))
  {
    if StartsWith(s, OctetsOf(c)) { OctetsGiveCharacter(s, c); }
    if DecodeSequence(s).Some? && DecodeSequence(s).value.codePoint == c as int { CharacterHasOctets(s, c); }
  }

  lemma SequenceIsRead(c: char, rest: string)
    ensures DecodeSequence(EncodeChar(c) + rest) == Some(Decoded(c as int, |EncodeChar(c)|))
    ensures |EncodeChar(c)| > 0 && (EncodeChar(c) + rest)[0] == '%'
  {
    var octets, s := OctetsOf(c), EncodeChar(c) + rest;
    WrittenLength(octets);
    forall k: nat | k < |octets|
      ensures OctetAt(s, 3 * k) == Some(octets[k])
    {
      OctetsAreRead(octets, rest, k);
    }
    OctetsGiveCharacter(s, c);
    assert OctetAt(s, 3 * 0).Some?;
    OctetStarts(s);
  }

  lemma OctetStarts(s: string)
    requires OctetAt(s, 0).Some?
    ensures s[0] == '%'
  {
  }

  /** Whatever characters are percent-encoded, one pass reads the text. */
  lemma {:induction false} DecodeUndoesPercentEncoding(s: string, encoded: set<char>)
    ensures DecodeUriComponent(Encode(s, encoded)) == Some(s)
  {
    hide DecodeSequence, EncodeChar;
    if s != "" {
      var c, tail := s[0], Encode(s[1..], encoded);
      DecodeUndoesPercentEncoding(s[1..], encoded);
      assert s == [c] + s[1..];
      var head := if c == '%' || c in encoded then EncodeChar(c) else [c];
      assert Encode(s, encoded) == head + tail;
      SequenceIsRead(c, tail);
      assert (head + tail)[|head|..] == tail;
    }
  }
}
