/**
 What the web application firewall looks at: values decoded until they stop changing, and a bounded
 walk over the body.
 */
module Waf {
  import opened Text

  const MAX_INSPECTED_VALUES := 200
  const MAX_INSPECTED_LENGTH := 4096
  const MAX_BODY_DEPTH := 8
  const MAX_DECODE_PASSES := 8

  // ----- decodeURIComponent -----

  /** The octet of the `%XX` at `s[at..]`. */
  function OctetAt(s: string, at: nat): (octet: Option<nat>)
    ensures octet.Some? ==> at + 3 <= |s| && octet.value < 256
  {
    if at + 3 <= |s| && s[at] == '%' && IsHexDigit(s[at + 1]) && IsHexDigit(s[at + 2])
    then Some(HexValue(s[at + 1]) * 16 + HexValue(s[at + 2]))
    else None
  }

  /** The six bits of the continuation octet at `s[at..]`. */
  function ContinuationAt(s: string, at: nat): (bits: Option<nat>)
    ensures bits.Some? ==> at + 3 <= |s| && bits.value < 64
  {
    match OctetAt(s, at)
    case None => None
    case Some(octet) => if 0x80 <= octet < 0xC0 then Some(octet - 0x80) else None
  }

  datatype Decoded = Decoded(codePoint: nat, length: nat)

  /** The UTF-8 sequence of `%XX` octets at the head of `s`: shortest form, no surrogate, in range. */
  function DecodeSequence(s: string): (d: Option<Decoded>)
    ensures d.Some? ==> 3 <= d.value.length <= |s|
    ensures d.Some? ==> d.value.codePoint <= 0x10FFFF && !(0xD800 <= d.value.codePoint < 0xE000)
  {
    match OctetAt(s, 0)
    case None => None
    case Some(b) =>
      if b < 0x80 then Some(Decoded(b, 3))
      else if b < 0xC0 || b >= 0xF8 then None
      else if b < 0xE0 then
        match ContinuationAt(s, 3)
        case None => None
        case Some(c1) =>
          var v := (b - 0xC0) * 64 + c1;
          if v < 0x80 then None else Some(Decoded(v, 6))
      else if b < 0xF0 then
        match (ContinuationAt(s, 3), ContinuationAt(s, 6))
        case (Some(c1), Some(c2)) =>
          var v := (b - 0xE0) * 4096 + c1 * 64 + c2;
          if v < 0x800 || 0xD800 <= v < 0xE000 then None else Some(Decoded(v, 9))
        case _ => None
      else
        match (ContinuationAt(s, 3), ContinuationAt(s, 6), ContinuationAt(s, 9))
        case (Some(c1), Some(c2), Some(c3)) =>
          var v := (b - 0xF0) * 262144 + c1 * 4096 + c2 * 64 + c3;
          if v < 0x10000 || v > 0x10FFFF then None else Some(Decoded(v, 12))
        case _ => None
  }

  /** `None` where the source throws a URIError. */
  function DecodeUriComponent(s: string): Option<string>
    decreases |s|
  {
    if s == "" then Some("")
    else if s[0] != '%' then
      match DecodeUriComponent(s[1..])
      case None => None
      case Some(rest) => Some([s[0]] + rest)
    else
      match DecodeSequence(s)
      case None => None
      case Some(d) =>
        match DecodeUriComponent(s[d.length..])
        case None => None
        case Some(rest) => Some([d.codePoint as char] + rest)
  }

  /** A pass that changes the value strictly shortens it, and it changes every value with a `%`. */
  lemma {:induction false} DecodingShortens(s: string)
    ensures DecodeUriComponent(s).Some? ==>
      && (DecodeUriComponent(s).value == s <==> '%' !in s)
      && (DecodeUriComponent(s).value != s ==> |DecodeUriComponent(s).value| < |s|)
    decreases |s|
  {
    hide DecodeSequence;
    if s != "" {
      assert s == [s[0]] + s[1..];
      if s[0] != '%' {
        DecodingShortens(s[1..]);
      } else {
        match DecodeSequence(s) {
          case None =>
          case Some(d) => DecodingShortens(s[d.length..]);
        }
      }
    }
  }

  // ----- iterated decoding -----

  /** At most `budget` passes, stopping where a pass fails or changes nothing. */
  function Inspected(value: string, budget: nat): string
    decreases budget
  {
    if budget == 0 then value else
      match DecodeUriComponent(value)
      case None => value
      case Some(next) => if next == value then value else Inspected(next, budget - 1)
  }

  method DecodeForInspection(value: string) returns (r: string)
    ensures r == ReplaceAll(Inspected(value, MAX_DECODE_PASSES), '+', " ")
  {
    var decoded := value;
    for pass := 0 to MAX_DECODE_PASSES
      invariant Inspected(decoded, MAX_DECODE_PASSES - pass) == Inspected(value, MAX_DECODE_PASSES)
    {
      var next := DecodeUriComponent(decoded);
      if next == None { break; }
      if next.value == decoded { break; }
      decoded := next.value;
    }
    assert decoded == Inspected(value, MAX_DECODE_PASSES);
    return ReplaceAll(decoded, '+', " ");
  }

  /** `values` are what passes make of the first of them, one pass each; every pass shortens its value. */
  ghost predicate ArePasses(values: seq<string>) {
    && values != []
    && forall k :: 0 <= k < |values| - 1 ==>
         DecodeUriComponent(values[k]) == Some(values[k + 1]) && |values[k + 1]| < |values[k]|
  }

  /**
   The passes made: as many as the budget allows, unless they end earlier at a value no pass can decode
   or at one without a percent sign, which no pass changes.
   */
  lemma {:induction false} InspectionEnds(value: string, budget: nat) returns (values: seq<string>)
    ensures ArePasses(values) && values[0] == value && values[|values| - 1] == Inspected(value, budget)
    ensures |values| - 1 <= budget && |Inspected(value, budget)| + (|values| - 1) <= |value|
    ensures var d := Inspected(value, budget);
      |values| - 1 == budget || DecodeUriComponent(d) == None || '%' !in d
    decreases budget
  {
    hide DecodeUriComponent;
    DecodingShortens(value);
    values := [value];
    if budget > 0 {
      match DecodeUriComponent(value) {
        case None =>
        case Some(next) =>
          if next != value {
            var rest := InspectionEnds(next, budget - 1);
            values := values + rest;
          }
      }
    }
  }

  /** `%` encoded once more. */
  function EncodePercent(s: string): string { ReplaceAll(s, '%', ['%', '2', '5']) }

  function EncodeTimes(s: string, times: nat): string {
    if times == 0 then s else EncodePercent(EncodeTimes(s, times - 1))
  }

  lemma {:induction false} DecodeUndoesEncode(s: string)
    ensures DecodeUriComponent(EncodePercent(s)) == Some(s)
  {
    if s != "" {
      var head := if s[0] == '%' then ['%', '2', '5'] else [s[0]];
      var tail := EncodePercent(s[1..]);
      DecodeUndoesEncode(s[1..]);
      assert EncodePercent(s) == head + tail;
      assert s == [s[0]] + s[1..];
      if s[0] == '%' {
        assert (head + tail)[3..] == tail;
        assert DecodeSequence(head + tail) == Some(Decoded(0x25, 3)) by { assert OctetAt(head + tail, 0) == Some(0x25); }
      } else {
        assert (head + tail)[1..] == tail;
      }
    }
  }

  lemma EncodingShows(s: string)
    ensures '%' in s ==> '%' in EncodePercent(s)
    ensures '%' !in s ==> EncodePercent(s) == s && DecodeUriComponent(s) == Some(s)
  {
    DecodeUndoesEncode(s);
    if '%' !in s { ReplaceAllAbsent(s, '%', ['%', '2', '5']); }
    hide DecodeUriComponent, EncodePercent;
    DecodingShortens(EncodePercent(s));
  }

  lemma {:induction false} NothingToEncode(s: string, times: nat)
    requires '%' !in s
    ensures EncodeTimes(s, times) == s
  {
    hide EncodePercent;
    EncodingShows(s);
    if times > 0 { NothingToEncode(s, times - 1); }
  }

  lemma {:induction false} StillEncoded(s: string, times: nat)
    requires '%' in s
    ensures '%' in EncodeTimes(s, times)
  {
    hide EncodePercent;
    if times > 0 {
      StillEncoded(s, times - 1);
      EncodingShows(EncodeTimes(s, times - 1));
    }
  }

  /** Encoding the percent signs of any value again costs one pass each time, and nothing else. */
  lemma {:induction false} NestedEncodingIsUnwrapped(s: string, times: nat, budget: nat)
    requires times <= budget
    ensures '%' in s ==> Inspected(EncodeTimes(s, times), budget) == Inspected(s, budget - times)
    ensures '%' !in s ==> Inspected(EncodeTimes(s, times), budget) == s
    decreases budget
  {
    hide DecodeUriComponent, EncodePercent;
    EncodingShows(s);
    if '%' !in s {
      NothingToEncode(s, times);
    } else if times > 0 {
      var once := EncodeTimes(s, times - 1);
      StillEncoded(s, times - 1);
      DecodeUndoesEncode(once);
      DecodingShortens(EncodePercent(once));
      StillEncoded(s, times);
      NestedEncodingIsUnwrapped(s, times - 1, budget - 1);
    }
  }

  // ----- the body -----

  /** A parsed body; arrays and objects with their serialisation. */
  datatype Json =
    | Str(text: string)
    | Arr(items: seq<Json>, serialised: string)
    | Obj(fields: seq<Field>, serialised: string)
    | Scalar

  datatype Field = Field(key: string, value: Json)

  function ClampString(value: string): (r: string)
    ensures |r| <= MAX_INSPECTED_LENGTH
  {
    if |value| > MAX_INSPECTED_LENGTH then value[..MAX_INSPECTED_LENGTH] else value
  }

  /** Everything a walk without a limit on the number of values would collect, in order. */
  function AllStrings(value: Json, depth: nat): seq<string>
    decreases value
  {
    if depth > MAX_BODY_DEPTH then [] else
      match value
      case Str(text) => [ClampString(text)]
      case Arr(items, serialised) =>
        (if items == [] then [] else [ClampString(serialised)]) + AllOfItems(items, depth + 1)
      case Obj(fields, serialised) =>
        (if fields == [] then [] else [ClampString(serialised)]) + AllOfFields(fields, depth + 1)
      case Scalar => []
  }

  function AllOfItems(items: seq<Json>, depth: nat): seq<string>
    decreases items
  {
    if items == [] then [] else AllStrings(items[0], depth) + AllOfItems(items[1..], depth)
  }

  function AllOfFields(fields: seq<Field>, depth: nat): seq<string>
    decreases fields
  {
    if fields == [] then []
    else [ClampString(fields[0].key)] + AllStrings(fields[0].value, depth) + AllOfFields(fields[1..], depth)
  }

  /** `full` adds to `sink` the first of `wanted`: all of them, or enough to reach the limit. */
  predicate Fills(sink: seq<string>, wanted: seq<string>, full: seq<string>) {
    && |sink| <= |full|
    && full <= sink + wanted
    && (full == sink + wanted || |full| >= MAX_INSPECTED_VALUES)
  }

  lemma ItemsFrom(items: seq<Json>, i: nat, depth: nat)
    requires i < |items|
    ensures AllOfItems(items[i..], depth) == AllStrings(items[i], depth) + AllOfItems(items[i + 1..], depth)
  {
    assert items[i..][1..] == items[i + 1..];
  }

  lemma FieldsFrom(fields: seq<Field>, i: nat, depth: nat)
    requires i < |fields|
    ensures AllOfFields(fields[i..], depth)
         == [ClampString(fields[i].key)] + AllStrings(fields[i].value, depth) + AllOfFields(fields[i + 1..], depth)
  {
    assert fields[i..][1..] == fields[i + 1..];
  }

  /** What a walk has already added does not matter to what it fills. */
  lemma FillsFrom(start: seq<string>, all: seq<string>, sink: seq<string>, wanted: seq<string>, full: seq<string>)
    requires |start| <= |sink| && sink + wanted == start + all && Fills(sink, wanted, full)
    ensures Fills(start, all, full)
  {
  }

  /** One more step of a walk that has reached `sink`, with `now` and then `later` still to come. */
  lemma FillsStep(start: seq<string>, all: seq<string>, sink: seq<string>, now: seq<string>, later: seq<string>,
                  next: seq<string>)
    requires |start| <= |sink| && sink + (now + later) == start + all && Fills(sink, now, next)
    ensures |next| >= MAX_INSPECTED_VALUES ==> Fills(start, all, next)
    ensures |next| < MAX_INSPECTED_VALUES ==> next + later == start + all
  {
    assert sink + (now + later) == (sink + now) + later;
  }

  /** The walk: the sink receives the first of what is wanted, and never more than 201 values. */
  method CollectBodyStrings(value: Json, depth: nat, sink: seq<string>) returns (full: seq<string>)
    ensures Fills(sink, AllStrings(value, depth), full)
    ensures |full| <= if |sink| < MAX_INSPECTED_VALUES then MAX_INSPECTED_VALUES + 1 else |sink|
    decreases value, 1
  {
    hide ClampString;
    full := sink;
    if |sink| >= MAX_INSPECTED_VALUES || depth > MAX_BODY_DEPTH { return; }
    match value {
      case Str(text) =>
        full := full + [ClampString(text)];
      case Arr(items, serialised) =>
        if |items| > 0 { full := full + [ClampString(serialised)]; }
        ghost var own := full;
        assert own + AllOfItems(items, depth + 1) == sink + AllStrings(value, depth);
        full := CollectItems(items, depth + 1, full);
        FillsFrom(sink, AllStrings(value, depth), own, AllOfItems(items, depth + 1), full);
      case Obj(fields, serialised) =>
        if |fields| > 0 { full := full + [ClampString(serialised)]; }
        ghost var own := full;
        assert own + AllOfFields(fields, depth + 1) == sink + AllStrings(value, depth);
        full := CollectFields(fields, depth + 1, full);
        FillsFrom(sink, AllStrings(value, depth), own, AllOfFields(fields, depth + 1), full);
      case Scalar =>
    }
  }

  /** The loop over an array. */
  method CollectItems(items: seq<Json>, depth: nat, sink: seq<string>) returns (full: seq<string>)
    requires |sink| <= MAX_INSPECTED_VALUES
    ensures Fills(sink, AllOfItems(items, depth), full)
    ensures |full| <= MAX_INSPECTED_VALUES + 1
    decreases items, 0
  {
    hide ClampString, AllStrings;
    full := sink;
    ghost var all := AllOfItems(items, depth);
    assert items[0..] == items;
    for i := 0 to |items|
      invariant |sink| <= |full| <= MAX_INSPECTED_VALUES && (i > 0 ==> |full| < MAX_INSPECTED_VALUES)
      invariant full + AllOfItems(items[i..], depth) == sink + all
    {
      var next := CollectBodyStrings(items[i], depth, full);
      ItemsFrom(items, i, depth);
      FillsStep(sink, all, full, AllStrings(items[i], depth), AllOfItems(items[i + 1..], depth), next);
      full := next;
      if |full| >= MAX_INSPECTED_VALUES { return; }
    }
    assert items[|items|..] == [];
  }

  /** The loop over the entries of an object. */
  method CollectFields(fields: seq<Field>, depth: nat, sink: seq<string>) returns (full: seq<string>)
    requires |sink| <= MAX_INSPECTED_VALUES
    ensures Fills(sink, AllOfFields(fields, depth), full)
    ensures |full| <= MAX_INSPECTED_VALUES + 1
    decreases fields, 0
  {
    hide ClampString, AllStrings;
    full := sink;
    ghost var all := AllOfFields(fields, depth);
    assert fields[0..] == fields;
    for i := 0 to |fields|
      invariant |sink| <= |full| <= MAX_INSPECTED_VALUES && (i > 0 ==> |full| < MAX_INSPECTED_VALUES)
      invariant full + AllOfFields(fields[i..], depth) == sink + all
    {
      FieldsFrom(fields, i, depth);
      ghost var now, later := AllStrings(fields[i].value, depth), AllOfFields(fields[i + 1..], depth);
      var named := full + [ClampString(fields[i].key)];
      assert named + (now + later) == full + ([ClampString(fields[i].key)] + now + later);
      var next := CollectBodyStrings(fields[i].value, depth, named);
      FillsStep(sink, all, named, now, later, next);
      full := next;
      if |full| >= MAX_INSPECTED_VALUES { return; }
    }
    assert fields[|fields|..] == [];
  }
}
