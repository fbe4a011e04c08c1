/**
 The URL verdict: which decoded attribute values may be emitted as `href` or `src`.
 */
module Urls {
  import opened Text

  const HREF_SCHEMES: set<string> := {"http", "https", "mailto"}

  const IMG_SRC_SCHEMES: set<string> := {"https", "http"}

  /** The characters a browser drops while it resolves a scheme. */
  predicate IsControl(c: char) { c <= '\U{20}' || '\U{7F}' <= c <= '\U{9F}' }

  function StripControlChars(value: string): string { Remove(value, IsControl) }

  predicate IsSchemeChar(c: char) { IsLowerAlpha(c) || IsDigit(c) || c == '+' || c == '.' || c == '-' }

  /** The scheme of a lower-cased value, read by `/^([a-z][a-z0-9+.\-]*):/`. */
  function SchemeOf(lower: string): Option<string> {
    if lower == "" || !IsLowerAlpha(lower[0]) then None else
      var n := Span(lower, IsSchemeChar);
      if n < |lower| && lower[n] == ':' then Some(lower[..n]) else None
  }

  predicate EscapesOrigin(normalized: string) {
    "//" <= normalized || "/\\" <= normalized || "\\" <= normalized
  }

  predicate IsSafeUrl(value: string, schemeAllowlist: set<string>) {
    var normalized := StripControlChars(value);
    if EscapesOrigin(normalized) then false
    else
      match SchemeOf(ToLower(normalized))
      case None => true
      case Some(scheme) => scheme in schemeAllowlist
  }

  // ----- an independent reading of section 3.1 of RFC 3986 -----

  /** `scheme = ALPHA *( ALPHA / DIGIT / "+" / "-" / "." )`, followed by the colon at index `k`. */
  predicate SchemeEndsAt(s: string, k: nat) {
    && 0 < k < |s| && s[k] == ':'
    && IsAlpha(s[0])
    && forall i :: 0 < i < k ==> IsAlpha(s[i]) || IsDigit(s[i]) || s[i] == '+' || s[i] == '-' || s[i] == '.'
  }

  /** A value carries scheme `s[..k]` in the sense of RFC 3986 exactly when its lower case does. */
  lemma SchemeOfIs(lower: string, k: nat)
    requires SchemeEndsAt(lower, k)
    requires forall i :: 0 <= i < |lower| ==> !IsUpperAlpha(lower[i])
    ensures SchemeOf(lower) == Some(lower[..k])
  {
    SpanIs(lower, IsSchemeChar, k);
  }

  lemma SchemeOfSound(lower: string)
    requires SchemeOf(lower).Some?
    ensures SchemeEndsAt(lower, |SchemeOf(lower).value|)
    ensures lower[..|SchemeOf(lower).value|] == SchemeOf(lower).value
  {
  }

  /**
   The verdict by quantification: a value is accepted exactly when it does not escape the origin
   and every scheme its lower case carries is allowlisted.
   */
  lemma IsSafeUrlIff(value: string, allow: set<string>)
    ensures var lower := ToLower(StripControlChars(value));
            IsSafeUrl(value, allow) <==>
            && !EscapesOrigin(StripControlChars(value))
            && forall k: nat :: SchemeEndsAt(lower, k) ==> lower[..k] in allow
  {
    var lower := ToLower(StripControlChars(value));
    forall k: nat | SchemeEndsAt(lower, k)
      ensures SchemeOf(lower) == Some(lower[..k])
    {
      SchemeOfIs(lower, k);
    }
    if SchemeOf(lower).Some? {
      SchemeOfSound(lower);
    }
  }

  /** An accepted value has no RFC 3986 scheme other than an allowlisted one, and stays on its origin. */
  lemma AcceptedUrlIsHarmless(value: string, allow: set<string>, k: nat)
    requires IsSafeUrl(value, allow)
    ensures var n := StripControlChars(value);
            && !EscapesOrigin(n)
            && (SchemeEndsAt(n, k) ==> ToLower(n)[..k] in allow)
  {
    var n := StripControlChars(value);
    IsSafeUrlIff(value, allow);
    if SchemeEndsAt(n, k) {
      assert forall i :: 0 <= i <= k ==> ToLower(n)[i] == LowerChar(n[i]);
      assert SchemeEndsAt(ToLower(n), k);
    }
  }

  /** The verdict RFC 3986 gives on a stripped value: no scheme of its own but allowlisted ones. */
  ghost predicate RfcReading(n: string, allow: set<string>) {
    !EscapesOrigin(n) && forall k: nat :: SchemeEndsAt(n, k) ==> ToLower(n)[..k] in allow
  }

  /** A scheme that only lower-casing makes: it has a Kelvin sign, and is refused. */
  ghost predicate KelvinScheme(n: string, allow: set<string>, k: nat) {
    SchemeEndsAt(ToLower(n), k) && '\U{212A}' in n[..k] && ToLower(n)[..k] !in allow
  }

  lemma SchemeIgnoresCase(n: string, k: nat)
    ensures SchemeEndsAt(n, k) <==> SchemeEndsAt(ToLower(n), k) && '\U{212A}' !in n[..k]
  {
    assert forall i :: 0 <= i < |n| ==> ToLower(n)[i] == LowerChar(n[i]);
    if k <= |n| {
      assert forall i :: 0 <= i < k ==> n[..k][i] == n[i] && n[i] in n[..k];
    }
  }

  lemma SchemeEndsOnce(s: string, k: nat, l: nat)
    requires SchemeEndsAt(s, k) && SchemeEndsAt(s, l)
    ensures k == l
  {
  }

  /** The verdict departs from the RFC 3986 reading exactly where a Kelvin sign stands in a refused scheme. */
  lemma VerdictDiffersIff(value: string, allow: set<string>)
    ensures var n := StripControlChars(value);
            (IsSafeUrl(value, allow) != RfcReading(n, allow)) <==>
            !EscapesOrigin(n) && exists k: nat :: KelvinScheme(n, allow, k)
  {
    var n := StripControlChars(value);
    var lower := ToLower(n);
    IsSafeUrlIff(value, allow);
    hide ToLower, EscapesOrigin, StripControlChars, IsSafeUrl;
    forall k: nat
      ensures SchemeEndsAt(n, k) <==> SchemeEndsAt(lower, k) && '\U{212A}' !in n[..k]
    {
      SchemeIgnoresCase(n, k);
    }
    hide SchemeEndsAt;
    if k: nat :| KelvinScheme(n, allow, k) {
      forall l: nat | SchemeEndsAt(lower, l)
        ensures l == k
      {
        SchemeEndsOnce(lower, k, l);
      }
    } else {
      forall k: nat | SchemeEndsAt(lower, k) && lower[..k] !in allow
        ensures SchemeEndsAt(n, k)
      {
        assert !KelvinScheme(n, allow, k);
      }
    }
  }

  /** Without a Kelvin sign the verdict is exactly the RFC 3986 reading of the value. */
  lemma VerdictIsTheRfcReading(value: string, allow: set<string>)
    requires '\U{212A}' !in StripControlChars(value)
    ensures IsSafeUrl(value, allow) <==> RfcReading(StripControlChars(value), allow)
  {
    hide StripControlChars, IsSafeUrl, RfcReading;
    VerdictDiffersIff(value, allow);
  }

  /**
   The Kelvin sign lower-cases to `k`: a value that carries no RFC 3986 scheme is refused as if it
   carried the scheme `k`.
   */
  lemma KelvinSignIsReadAsScheme(value: string)
    requires |value| == 3 && value[0] == '\U{212A}' && value[1] == ':' && value[2] == 'x'
    ensures !IsSafeUrl(value, HREF_SCHEMES)
    ensures forall k: nat :: !SchemeEndsAt(StripControlChars(value), k)
  {
    RemoveNone(value, IsControl);
    var lower := ToLower(value);
    SchemeOfIs(lower, 1);
    assert |lower[..1]| == 1;
    assert forall scheme :: scheme in HREF_SCHEMES ==> |scheme| > 1;
  }

  lemma StripInsertion(before: string, controls: string, after: string)
    requires forall c :: c in controls ==> IsControl(c)
    ensures StripControlChars(before + controls + after) == StripControlChars(before + after)
  {
    RemoveConcat(before + controls, after, IsControl);
    RemoveConcat(before, controls, IsControl);
    RemoveConcat(before, after, IsControl);
    RemoveEvery(controls, IsControl);
    assert StripControlChars(before) + "" == StripControlChars(before);
  }

  /** Control characters never change the verdict, wherever they are inserted or deleted. */
  lemma ControlCharsDoNotMatter(before: string, controls: string, after: string, allow: set<string>)
    requires forall c :: c in controls ==> IsControl(c)
    ensures IsSafeUrl(before + controls + after, allow) == IsSafeUrl(before + after, allow)
  {
    StripInsertion(before, controls, after);
  }

  // ----- the verdict by code points -----

  /** Exactly U+0000 to U+0020 and U+007F to U+009F are stripped; every other character stays, in place. */
  lemma StripIs(before: string, c: char, after: string)
    ensures StripControlChars(before + [c] + after)
         == StripControlChars(before)
            + (if c as int <= 0x20 || 0x7F <= c as int <= 0x9F then "" else [c])
            + StripControlChars(after)
  {
    StripOne(c);
    RemoveConcat(before + [c], after, IsControl);
    RemoveConcat(before, [c], IsControl);
    hide Remove, IsControl;
  }

  lemma StripOne(c: char)
    ensures StripControlChars([c]) == if c as int <= 0x20 || 0x7F <= c as int <= 0x9F then "" else [c]
  {
    assert [c][1..] == "" && Remove("", IsControl) == "" && [c] + "" == [c];
  }

  /** Such a character never changes the verdict, wherever it stands. */
  lemma StrippedCharacterDoesNotMatter(before: string, c: char, after: string, allow: set<string>)
    requires c as int <= 0x20 || 0x7F <= c as int <= 0x9F
    ensures IsSafeUrl(before + [c] + after, allow) == IsSafeUrl(before + after, allow)
  {
    StripIs(before, c, after);
    RemoveConcat(before, after, IsControl);
    assert StripControlChars(before) + "" == StripControlChars(before);
  }

  /**
   The verdict on a value without such characters: refused when it begins with `\\`, `//` or `/\\`, or
   carries a scheme that is not allowlisted, and accepted otherwise.
   */
  lemma VerdictByCharacters(value: string, allow: set<string>)
    requires forall c :: c in value ==> c as int > 0x20 && !(0x7F <= c as int <= 0x9F)
    ensures IsSafeUrl(value, allow) <==>
            && !(|value| >= 1 && value[0] == '\\')
            && !(|value| >= 2 && value[0] == '/' && (value[1] == '/' || value[1] == '\\'))
            && forall k: nat :: SchemeEndsAt(ToLower(value), k) ==> ToLower(value)[..k] in allow
  {
    RemoveNone(value, IsControl);
    IsSafeUrlIff(value, allow);
    hide IsSafeUrl, ToLower, SchemeEndsAt;
    assert "//" <= value <==> |value| >= 2 && value[0] == '/' && value[1] == '/';
    assert "/\\" <= value <==> |value| >= 2 && value[0] == '/' && value[1] == '\\';
    assert "\\" <= value <==> |value| >= 1 && value[0] == '\\';
  }

  /** A link that is accepted has no scheme but `http`, `https` and `mailto`, an image none but the first two. */
  lemma AcceptedSchemes(value: string, k: nat)
    requires SchemeEndsAt(ToLower(StripControlChars(value)), k)
    ensures var scheme := ToLower(StripControlChars(value))[..k];
      && (IsSafeUrl(value, HREF_SCHEMES) ==> scheme == "http" || scheme == "https" || scheme == "mailto")
      && (IsSafeUrl(value, IMG_SRC_SCHEMES) ==> scheme == "http" || scheme == "https")
  {
    IsSafeUrlIff(value, HREF_SCHEMES);
    IsSafeUrlIff(value, IMG_SRC_SCHEMES);
    hide IsSafeUrl, SchemeEndsAt;
  }
}
