/**
 Where the strings of a body stand, by paths into it, and that the walk of the firewall collects exactly
 those, in document order.
 */
module BodyPlaces {
  import opened Text
  import opened Waf

  /**
   A place in a body: `2 * i` is the key of entry `i` of an object, `2 * i + 1` goes into entry `i` of an
   array or object. Document order is lexicographic.
   */
  type Place = seq<nat>

  /** The text at a place: a string, a key, or the serialisation of what is not empty. */
  function TextAt(value: Json, place: Place): Option<string>
    decreases value
  {
    match value
    case Str(text) => if place == [] then Some(text) else None
    case Arr(items, serialised) =>
      if place == [] then (if items == [] then None else Some(serialised))
      else if place[0] % 2 == 1 && place[0] / 2 < |items| then TextAt(items[place[0] / 2], place[1..])
      else None
    case Obj(fields, serialised) =>
      if place == [] then (if fields == [] then None else Some(serialised))
      else if place[0] / 2 >= |fields| then None
      else if place[0] % 2 == 1 then TextAt(fields[place[0] / 2].value, place[1..])
      else if |place| == 1 then Some(fields[place[0] / 2].key)
      else None
    case Scalar => None
  }

  /** How many arrays and objects a place lies in, the key of an entry in one less than its value. */
  function Depth(place: Place): nat { if place == [] then 0 else place[0] % 2 + Depth(place[1..]) }

  predicate Before(a: Place, b: Place) {
    b != [] && (a == [] || a[0] < b[0] || (a[0] == b[0] && Before(a[1..], b[1..])))
  }

  ghost predicate InOrder(places: seq<Place>) { forall i, j :: 0 <= i < j < |places| ==> Before(places[i], places[j]) }

  /** The first 4096 characters, or all when there are fewer. */
  function Clamped(text: string): string { if |text| <= 4096 then text else text[..4096] }

  // ----- the places the walk goes through -----

  function Under(step: nat, places: seq<Place>): (r: seq<Place>)
    ensures |r| == |places|
    ensures forall i :: 0 <= i < |places| ==> r[i] == [step] + places[i]
  {
    seq(|places|, i requires 0 <= i < |places| => [step] + places[i])
  }

  function Places(value: Json, depth: nat): seq<Place>
    decreases value
  {
    if depth > MAX_BODY_DEPTH then [] else
      match value
      case Str(_) => [[]]
      case Arr(items, _) => (if items == [] then [] else [[]]) + PlacesOfItems(items, 0, depth + 1)
      case Obj(fields, _) => (if fields == [] then [] else [[]]) + PlacesOfFields(fields, 0, depth + 1)
      case Scalar => []
  }

  /** Of the entries of an array from the `n`-th on. */
  function PlacesOfItems(items: seq<Json>, n: nat, depth: nat): seq<Place>
    decreases items
  {
    if items == [] then [] else Under(2 * n + 1, Places(items[0], depth)) + PlacesOfItems(items[1..], n + 1, depth)
  }

  function PlacesOfFields(fields: seq<Field>, n: nat, depth: nat): seq<Place>
    decreases fields
  {
    if fields == [] then []
    else [[2 * n]] + Under(2 * n + 1, Places(fields[0].value, depth)) + PlacesOfFields(fields[1..], n + 1, depth)
  }

  function TextInItems(items: seq<Json>, n: nat, place: Place): Option<string> {
    if place != [] && place[0] % 2 == 1 && n <= place[0] / 2 < n + |items| then TextAt(items[place[0] / 2 - n], place[1..])
    else None
  }

  function TextInFields(fields: seq<Field>, n: nat, place: Place): Option<string> {
    if place == [] || !(n <= place[0] / 2 < n + |fields|) then None
    else if place[0] % 2 == 1 then TextAt(fields[place[0] / 2 - n].value, place[1..])
    else if |place| == 1 then Some(fields[place[0] / 2 - n].key)
    else None
  }

  lemma UnderIs(step: nat, places: seq<Place>, place: Place)
    ensures place in Under(step, places) <==> place != [] && place[0] == step && place[1..] in places
  {
    if place != [] && place[0] == step && place[1..] in places {
      var i :| 0 <= i < |places| && places[i] == place[1..];
      assert Under(step, places)[i] == [step] + place[1..] == place;
    }
    if place in Under(step, places) {
      var i :| 0 <= i < |places| && Under(step, places)[i] == place;
      assert place[1..] == places[i];
    }
  }

  // ----- every place is gone through -----

  lemma {:induction false} PlacesAre(value: Json, depth: nat, place: Place)
    ensures place in Places(value, depth) <==> TextAt(value, place).Some? && depth + Depth(place) <= MAX_BODY_DEPTH
    decreases value
  {
    if depth <= MAX_BODY_DEPTH {
      match value {
        case Str(_) =>
        case Arr(items, _) => PlacesOfItemsAre(items, 0, depth + 1, place);
        case Obj(fields, _) => PlacesOfFieldsAre(fields, 0, depth + 1, place);
        case Scalar =>
      }
    }
  }

  lemma {:induction false} PlacesOfItemsAre(items: seq<Json>, n: nat, depth: nat, place: Place)
    requires depth > 0
    ensures place in PlacesOfItems(items, n, depth) <==>
            TextInItems(items, n, place).Some? && depth - 1 + Depth(place) <= MAX_BODY_DEPTH
    decreases items
  {
    if items != [] {
      UnderIs(2 * n + 1, Places(items[0], depth), place);
      if place != [] { PlacesAre(items[0], depth, place[1..]); }
      PlacesOfItemsAre(items[1..], n + 1, depth, place);
    }
  }

  /** Where the first field's own places are, and the others'. */
  lemma TextInFirst(fields: seq<Field>, n: nat, place: Place)
    requires fields != []
    ensures TextInFields(fields, n, place) ==
            if place == [2 * n] then Some(fields[0].key)
            else if place != [] && place[0] == 2 * n + 1 then TextAt(fields[0].value, place[1..])
            else TextInFields(fields[1..], n + 1, place)
  {
    hide TextAt;
  }

  lemma {:induction false} PlacesOfFieldsAre(fields: seq<Field>, n: nat, depth: nat, place: Place)
    requires 0 < depth <= MAX_BODY_DEPTH + 1
    ensures place in PlacesOfFields(fields, n, depth) <==>
            TextInFields(fields, n, place).Some? && depth - 1 + Depth(place) <= MAX_BODY_DEPTH
    decreases fields
  {
    if fields != [] {
      hide *;
      PlacesStep(fields, n, depth, place);
      TextInFirst(fields, n, place);
      PlacesOfFieldsAre(fields[1..], n + 1, depth, place);
      if place != [] && place[0] <= 2 * n + 1 {
        NotAmongOthers(fields, n, place);
        DepthOfFirst(n, place);
        PlacesAre(fields[0].value, depth, place[1..]);
      }
      UnderIs(2 * n + 1, Places(fields[0].value, depth), place);
    }
  }

  lemma PlacesStep(fields: seq<Field>, n: nat, depth: nat, place: Place)
    requires fields != []
    ensures place in PlacesOfFields(fields, n, depth) <==>
            || place == [2 * n] || place in Under(2 * n + 1, Places(fields[0].value, depth))
            || place in PlacesOfFields(fields[1..], n + 1, depth)
  {
    hide Places;
  }

  lemma DepthOfFirst(n: nat, place: Place)
    ensures place == [2 * n] ==> Depth(place) == 0
    ensures place != [] && place[0] == 2 * n + 1 ==> Depth(place) == 1 + Depth(place[1..])
  {
  }

  lemma NotAmongOthers(fields: seq<Field>, n: nat, place: Place)
    requires fields != []
    ensures place != [] && place[0] <= 2 * n + 1 ==> TextInFields(fields[1..], n + 1, place) == None
  {
  }

  // ----- in document order -----

  lemma UnderInOrder(step: nat, places: seq<Place>)
    requires InOrder(places)
    ensures InOrder(Under(step, places))
  {
    forall i, j | 0 <= i < j < |places|
      ensures Before(Under(step, places)[i], Under(step, places)[j])
    {
      assert ([step] + places[i])[1..] == places[i] && ([step] + places[j])[1..] == places[j];
    }
  }

  lemma ConcatInOrder(a: seq<Place>, b: seq<Place>)
    requires InOrder(a) && InOrder(b) && forall x, y :: x in a && y in b ==> Before(x, y)
    ensures InOrder(a + b)
  {
    hide Before;
  }

  ghost predicate StartFrom(places: seq<Place>, step: nat) { forall p :: p in places ==> p != [] && p[0] >= step }

  lemma {:induction false} PlacesInOrder(value: Json, depth: nat)
    ensures InOrder(Places(value, depth))
    decreases value
  {
    if depth <= MAX_BODY_DEPTH {
      match value {
        case Str(_) =>
        case Arr(items, _) =>
          PlacesOfItemsInOrder(items, 0, depth + 1);
          ConcatInOrder(if items == [] then [] else [[]], PlacesOfItems(items, 0, depth + 1));
        case Obj(fields, _) =>
          PlacesOfFieldsInOrder(fields, 0, depth + 1);
          ConcatInOrder(if fields == [] then [] else [[]], PlacesOfFields(fields, 0, depth + 1));
        case Scalar =>
      }
    }
  }

  lemma {:induction false} PlacesOfItemsInOrder(items: seq<Json>, n: nat, depth: nat)
    ensures InOrder(PlacesOfItems(items, n, depth)) && StartFrom(PlacesOfItems(items, n, depth), 2 * n + 1)
    decreases items
  {
    if items != [] {
      var inside, rest := Places(items[0], depth), PlacesOfItems(items[1..], n + 1, depth);
      PlacesInOrder(items[0], depth);
      PlacesOfItemsInOrder(items[1..], n + 1, depth);
      assert PlacesOfItems(items, n, depth) == Under(2 * n + 1, inside) + rest;
      hide Places, PlacesOfItems, InOrder, StartFrom;
      UnderInOrder(2 * n + 1, inside);
      ConcatInOrder(Under(2 * n + 1, Places(items[0], depth)), PlacesOfItems(items[1..], n + 1, depth));
    }
  }

  lemma {:induction false} PlacesOfFieldsInOrder(fields: seq<Field>, n: nat, depth: nat)
    ensures InOrder(PlacesOfFields(fields, n, depth)) && StartFrom(PlacesOfFields(fields, n, depth), 2 * n)
    decreases fields
  {
    if fields != [] {
      var inside, rest := Under(2 * n + 1, Places(fields[0].value, depth)), PlacesOfFields(fields[1..], n + 1, depth);
      PlacesInOrder(fields[0].value, depth);
      UnderInOrder(2 * n + 1, Places(fields[0].value, depth));
      PlacesOfFieldsInOrder(fields[1..], n + 1, depth);
      ConcatInOrder([[2 * n]], inside);
      ConcatInOrder([[2 * n]] + inside, rest);
    }
  }

  // ----- what is collected there -----

  ghost predicate Collects(strings: seq<string>, places: seq<Place>, text: Place -> Option<string>) {
    && |strings| == |places|
    && forall k :: 0 <= k < |places| ==> text(places[k]).Some? && strings[k] == Clamped(text(places[k]).value)
  }

  lemma {:induction false} StringsAre(value: Json, depth: nat)
    ensures Collects(AllStrings(value, depth), Places(value, depth), p => TextAt(value, p))
    decreases value
  {
    if depth <= MAX_BODY_DEPTH {
      match value {
        case Str(_) =>
        case Arr(items, serialised) =>
          StringsOfItemsAre(items, 0, depth + 1);
          PlacesOfItemsInOrder(items, 0, depth + 1);
          StringsBelow(value, if items == [] then None else Some(serialised), AllOfItems(items, depth + 1),
                       PlacesOfItems(items, 0, depth + 1), p => TextInItems(items, 0, p), 1);
        case Obj(fields, serialised) =>
          StringsOfFieldsAre(fields, 0, depth + 1);
          PlacesOfFieldsInOrder(fields, 0, depth + 1);
          StringsBelow(value, if fields == [] then None else Some(serialised), AllOfFields(fields, depth + 1),
                       PlacesOfFields(fields, 0, depth + 1), p => TextInFields(fields, 0, p), 0);
        case Scalar =>
      }
      hide Collects, StartFrom, TextAt, TextInItems, TextInFields;
    }
  }

  /** The serialisation first, then what is below. */
  lemma StringsBelow(value: Json, own: Option<string>, strings: seq<string>, places: seq<Place>,
                     below: Place -> Option<string>, step: nat)
    requires Collects(strings, places, below) && StartFrom(places, step)
    requires TextAt(value, []) == own
    requires forall p: Place :: p != [] && p[0] >= step ==> TextAt(value, p) == below(p)
    ensures if own == None then Collects(strings, places, p => TextAt(value, p))
            else Collects([ClampString(own.value)] + strings, [[]] + places, p => TextAt(value, p))
  {
    var text := p => TextAt(value, p);
    CollectsLater(strings, places, text, below, step);
    if own != None { CollectsConcat([ClampString(own.value)], [[]], strings, places, text); }
  }

  lemma CollectsConcat(s1: seq<string>, p1: seq<Place>, s2: seq<string>, p2: seq<Place>, text: Place -> Option<string>)
    requires Collects(s1, p1, text) && Collects(s2, p2, text)
    ensures Collects(s1 + s2, p1 + p2, text)
  {
  }

  /** What is collected inside a value, seen from outside. */
  lemma CollectsUnder(value: Json, strings: seq<string>, places: seq<Place>, step: nat, text: Place -> Option<string>)
    requires Collects(strings, places, p => TextAt(value, p))
    requires forall p: Place :: p != [] && p[0] == step ==> text(p) == TextAt(value, p[1..])
    ensures Collects(strings, Under(step, places), text)
  {
    hide TextAt;
    forall k | 0 <= k < |places|
      ensures text(Under(step, places)[k]) == TextAt(value, places[k])
    {
      assert ([step] + places[k])[1..] == places[k];
    }
  }

  /** What is collected in the entries behind the first. */
  lemma CollectsLater(strings: seq<string>, places: seq<Place>, text: Place -> Option<string>, later: Place -> Option<string>,
                      step: nat)
    requires Collects(strings, places, later) && StartFrom(places, step)
    requires forall p: Place :: p != [] && p[0] >= step ==> text(p) == later(p)
    ensures Collects(strings, places, text)
  {
    forall k | 0 <= k < |places|
      ensures text(places[k]) == later(places[k])
    {
      assert places[k] in places;
    }
  }

  lemma {:induction false} StringsOfItemsAre(items: seq<Json>, n: nat, depth: nat)
    ensures Collects(AllOfItems(items, depth), PlacesOfItems(items, n, depth), p => TextInItems(items, n, p))
    decreases items
  {
    if items != [] {
      var text := p => TextInItems(items, n, p);
      var first, later := AllStrings(items[0], depth), AllOfItems(items[1..], depth);
      var inside, rest := Places(items[0], depth), PlacesOfItems(items[1..], n + 1, depth);
      StringsAre(items[0], depth);
      StringsOfItemsAre(items[1..], n + 1, depth);
      PlacesOfItemsInOrder(items[1..], n + 1, depth);
      assert AllOfItems(items, depth) == first + later;
      assert PlacesOfItems(items, n, depth) == Under(2 * n + 1, inside) + rest;
      hide AllStrings, AllOfItems, Places, PlacesOfItems, Collects, TextAt;
      forall p: Place | p != []
        ensures text(p) == if p[0] == 2 * n + 1 then TextAt(items[0], p[1..])
                           else if p[0] < 2 * n + 1 then None else TextInItems(items[1..], n + 1, p)
      {
      }
      hide TextInItems;
      CollectsUnder(items[0], first, inside, 2 * n + 1, text);
      CollectsLater(later, rest, text, p => TextInItems(items[1..], n + 1, p), 2 * n + 3);
      CollectsConcat(first, Under(2 * n + 1, inside), later, rest, text);
    }
  }

  lemma {:induction false} StringsOfFieldsAre(fields: seq<Field>, n: nat, depth: nat)
    ensures Collects(AllOfFields(fields, depth), PlacesOfFields(fields, n, depth), p => TextInFields(fields, n, p))
    decreases fields
  {
    if fields != [] {
      var text := p => TextInFields(fields, n, p);
      var key, first, later := [ClampString(fields[0].key)], AllStrings(fields[0].value, depth), AllOfFields(fields[1..], depth);
      var inside, rest := Places(fields[0].value, depth), PlacesOfFields(fields[1..], n + 1, depth);
      StringsAre(fields[0].value, depth);
      StringsOfFieldsAre(fields[1..], n + 1, depth);
      PlacesOfFieldsInOrder(fields[1..], n + 1, depth);
      assert AllOfFields(fields, depth) == key + first + later;
      assert PlacesOfFields(fields, n, depth) == [[2 * n]] + Under(2 * n + 1, inside) + rest;
      forall p: Place
        ensures text(p) == if p == [2 * n] then Some(fields[0].key)
                           else if p != [] && p[0] == 2 * n + 1 then TextAt(fields[0].value, p[1..])
                           else TextInFields(fields[1..], n + 1, p)
      {
        TextInFirst(fields, n, p);
      }
      assert Collects(key, [[2 * n]], text);
      hide AllStrings, AllOfFields, Places, PlacesOfFields, Collects, TextAt, TextInFields;
      CollectsUnder(fields[0].value, first, inside, 2 * n + 1, text);
      CollectsLater(later, rest, text, p => TextInFields(fields[1..], n + 1, p), 2 * n + 2);
      CollectsConcat(key, [[2 * n]], first, Under(2 * n + 1, inside), text);
      CollectsConcat(key + first, [[2 * n]] + Under(2 * n + 1, inside), later, rest, text);
    }
  }
}
