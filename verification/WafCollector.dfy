/**
 The values of a request the firewall inspects: the first 200 of address, query, headers and body, each
 decoded until it stops changing.
 */
module WafCollector {
  import opened Text
  import opened Waf
  import opened BodyPlaces

  datatype Target = Url | Query | Header | Body

  datatype InspectableValue = InspectableValue(target: Target, value: string)

  /** What a value is inspected as, when anything is left of it. */
  function NormalizedOne(target: Target, raw: string): seq<InspectableValue> {
    var normalized := ReplaceAll(Inspected(raw, MAX_DECODE_PASSES), '+', " ");
    if normalized == "" then [] else [InspectableValue(target, normalized)]
  }

  /** The same for a list, without a limit on the number of values. */
  function Normalized(target: Target, raws: seq<string>): seq<InspectableValue> {
    if raws == [] then [] else NormalizedOne(target, raws[0]) + Normalized(target, raws[1..])
  }

  lemma EmptyIsNotInspected(target: Target, raw: string)
    ensures raw == "" ==> NormalizedOne(target, raw) == []
  {
  }

  /** As many of `values` as are inspected. */
  function FirstOf(values: seq<InspectableValue>): (first: seq<InspectableValue>)
    ensures |first| <= MAX_INSPECTED_VALUES && first <= values
    ensures first == values || |first| == MAX_INSPECTED_VALUES
  {
    if |values| <= MAX_INSPECTED_VALUES then values else values[..MAX_INSPECTED_VALUES]
  }

  /** Cutting off early changes nothing: what comes after the limit is lost either way. */
  lemma FirstOfConcat(a: seq<InspectableValue>, b: seq<InspectableValue>)
    ensures FirstOf(FirstOf(a) + b) == FirstOf(a + b)
  {
    if |a| > MAX_INSPECTED_VALUES {
      assert (FirstOf(a) + b)[..MAX_INSPECTED_VALUES] == (a + b)[..MAX_INSPECTED_VALUES];
    }
  }

  method Push(target: Target, raw: string, values: seq<InspectableValue>) returns (pushed: seq<InspectableValue>)
    requires |values| <= MAX_INSPECTED_VALUES
    ensures pushed == FirstOf(values + NormalizedOne(target, raw))
  {
    if |values| >= MAX_INSPECTED_VALUES { return values; }
    var normalized := DecodeForInspection(raw);
    if |normalized| == 0 { return values; }
    return values + [InspectableValue(target, normalized)];
  }

  method PushAll(target: Target, raws: seq<string>, values: seq<InspectableValue>)
    returns (pushed: seq<InspectableValue>)
    requires |values| <= MAX_INSPECTED_VALUES
    ensures pushed == FirstOf(values + Normalized(target, raws))
  {
    hide FirstOf, NormalizedOne;
    pushed := values;
    assert raws[0..] == raws;
    for i := 0 to |raws|
      invariant |pushed| <= MAX_INSPECTED_VALUES
      invariant FirstOf(pushed + Normalized(target, raws[i..])) == FirstOf(values + Normalized(target, raws))
    {
      ghost var one, later := NormalizedOne(target, raws[i]), Normalized(target, raws[i + 1..]);
      assert raws[i..][1..] == raws[i + 1..];
      assert pushed + (one + later) == (pushed + one) + later;
      FirstOfConcat(pushed + one, later);
      pushed := Push(target, raws[i], pushed);
    }
    assert raws[|raws|..] == [];
    assert pushed + [] == pushed;
  }

  /**
   The values of a request in the order address, query, headers, body. `queryValues` and `headerValues`
   are the lists the request's query and headers give; an absent address is the empty string.
   */
  method CollectInspectableValues(originalUrl: string, url: string, queryValues: seq<string>,
                                  headerValues: seq<string>, body: Json)
    returns (values: seq<InspectableValue>)
    ensures |values| <= MAX_INSPECTED_VALUES
    // below the limit nothing is missed, and what stands in the body is inspected as it was sent
    ensures |values| < MAX_INSPECTED_VALUES ==>
      && Shown(values, Url, if originalUrl != "" then originalUrl else url)
      && (forall raw :: raw in queryValues ==> Shown(values, Query, raw))
      && (forall raw :: raw in headerValues ==> Shown(values, Header, raw))
      && (|AllStrings(body, 0)| < MAX_INSPECTED_VALUES ==>
            forall place :: TextAt(body, place).Some? && Depth(place) <= MAX_BODY_DEPTH ==>
              Shown(values, Body, Clamped(TextAt(body, place).value)))
    ensures exists bodyStrings ::
      && Fills([], AllStrings(body, 0), bodyStrings) && |bodyStrings| <= MAX_INSPECTED_VALUES + 1
      && values == FirstOf(NormalizedOne(Url, if originalUrl != "" then originalUrl else url)
                           + Normalized(Query, queryValues) + Normalized(Header, headerValues)
                           + Normalized(Body, bodyStrings))
  {
    hide Normalized, NormalizedOne, AllStrings;
    var address := if |originalUrl| > 0 then originalUrl else url;
    values := [];
    if |address| > 0 { values := Push(Url, address, values); }
    ghost var u, q := NormalizedOne(Url, address), Normalized(Query, queryValues);
    assert values == FirstOf(u) by { EmptyIsNotInspected(Url, address); assert [] + u == u; }
    values := PushAll(Query, queryValues, values);
    FirstOfConcat(u, q);
    values := PushAll(Header, headerValues, values);
    ghost var h := Normalized(Header, headerValues);
    FirstOfConcat(u + q, h);
    var bodyStrings := CollectBodyStrings(body, 0, []);
    ghost var b := Normalized(Body, bodyStrings);
    values := PushAll(Body, bodyStrings, values);
    FirstOfConcat(u + q + h, b);
    if |values| < MAX_INSPECTED_VALUES {
      assert values == u + q + h + b;
      OneIsShown(values, Url, address);
      AllAreShown(values, Query, queryValues);
      AllAreShown(values, Header, headerValues);
      AllAreShown(values, Body, bodyStrings);
      if |AllStrings(body, 0)| < MAX_INSPECTED_VALUES {
        assert [] + AllStrings(body, 0) == bodyStrings;
        BodyIsShown(body, bodyStrings, values);
      }
    }
  }

  /** A value that is not empty is among the inspected ones, decoded. */
  predicate Shown(values: seq<InspectableValue>, target: Target, raw: string) {
    raw != "" ==> InspectableValue(target, ReplaceAll(Inspected(raw, MAX_DECODE_PASSES), '+', " ")) in values
  }

  lemma {:induction false} SpacesStay(s: string)
    requires s != ""
    ensures ReplaceAll(s, '+', " ") != ""
  {
  }

  lemma OneIsShown(values: seq<InspectableValue>, target: Target, raw: string)
    requires forall v :: v in NormalizedOne(target, raw) ==> v in values
    ensures Shown(values, target, raw)
  {
    NothingDecodesToNothing(raw, MAX_DECODE_PASSES);
    if raw != "" { SpacesStay(Inspected(raw, MAX_DECODE_PASSES)); }
  }

  lemma AllAreShown(values: seq<InspectableValue>, target: Target, raws: seq<string>)
    requires forall v :: v in Normalized(target, raws) ==> v in values
    ensures forall raw :: raw in raws ==> Shown(values, target, raw)
  {
    NormalizedKeepsNonEmpty(target, raws);
    hide Normalized, Inspected, ReplaceAll;
  }

  lemma BodyIsShown(body: Json, strings: seq<string>, values: seq<InspectableValue>)
    requires strings == AllStrings(body, 0) && forall raw :: raw in strings ==> Shown(values, Body, raw)
    ensures forall place :: TextAt(body, place).Some? && Depth(place) <= MAX_BODY_DEPTH ==>
              Shown(values, Body, Clamped(TextAt(body, place).value))
  {
    hide Shown;
    StringsAre(body, 0);
    var places := Places(body, 0);
    forall place | TextAt(body, place).Some? && Depth(place) <= MAX_BODY_DEPTH
      ensures Shown(values, Body, Clamped(TextAt(body, place).value))
    {
      PlacesAre(body, 0, place);
      var k :| 0 <= k < |places| && places[k] == place;
      assert strings[k] == Clamped(TextAt(body, place).value) && strings[k] in strings;
    }
  }

  lemma {:induction false} NothingDecodesToNothing(value: string, budget: nat)
    ensures Inspected(value, budget) == "" <==> value == ""
    decreases budget
  {
    if budget > 0 {
      match DecodeUriComponent(value) {
        case None =>
        case Some(next) => NothingDecodesToNothing(next, budget - 1);
      }
    }
  }

  /** Below the limit, exactly the non-empty values of a list are inspected, each under its target. */
  lemma {:induction false} NormalizedKeepsNonEmpty(target: Target, raws: seq<string>)
    ensures forall v :: v in Normalized(target, raws) ==> v.target == target && v.value != ""
    ensures forall raw :: raw in raws && raw != "" ==>
      InspectableValue(target, ReplaceAll(Inspected(raw, MAX_DECODE_PASSES), '+', " ")) in Normalized(target, raws)
  {
    if raws != [] {
      NormalizedKeepsNonEmpty(target, raws[1..]);
      NothingDecodesToNothing(raws[0], MAX_DECODE_PASSES);
      assert raws == [raws[0]] + raws[1..];
    }
  }
}
