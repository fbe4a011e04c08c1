/**
 The query of a request as it enters the cache key: values turned to strings, names sorted, pairs
 joined. What the joined text says of the query, and what it does not: names and values are escaped, the
 equals signs and ampersands in them are not.
 */
module QueryKeys {
  import opened Text
  import opened Sorting
  import opened KeySegments

  /** A query value as the HTTP parser hands it over; `Json` is any object, by its serialisation. */
  datatype QueryValue =
    | Missing
    | Str(text: string)
    | List(items: seq<QueryValue>)
    | Json(text: string)

  datatype QueryEntry = QueryEntry(name: string, value: QueryValue)

  datatype Pair = Pair(name: string, value: string)

  function QueryValueToString(value: QueryValue): string
    decreases value
  {
    match value
    case Missing => ""
    case Str(text) => text
    case Json(text) => text
    case List(items) => Join(ValuesToStrings(items), ',')
  }

  function ValuesToStrings(items: seq<QueryValue>): seq<string>
    decreases items
  {
    if items == [] then [] else [QueryValueToString(items[0])] + ValuesToStrings(items[1..])
  }

  // ----- the canonical query -----

  /** The JavaScript `<` on strings. */
  predicate Less(a: string, b: string) {
    b != "" && (a == "" || a[0] < b[0] || (a[0] == b[0] && Less(a[1..], b[1..])))
  }

  predicate ByName(a: QueryEntry, b: QueryEntry) { !Less(b.name, a.name) }

  function SortByName(entries: seq<QueryEntry>): seq<QueryEntry> { SortBy(entries, ByName) }

  function WithoutEmptyNames(entries: seq<QueryEntry>): seq<QueryEntry> {
    if entries == [] then []
    else (if entries[0].name == "" then [] else [entries[0]]) + WithoutEmptyNames(entries[1..])
  }

  function Stringified(entries: seq<QueryEntry>): (pairs: seq<Pair>)
    ensures |pairs| == |entries|
  {
    seq(|entries|, i requires 0 <= i < |entries| => Pair(entries[i].name, QueryValueToString(entries[i].value)))
  }

  /** The pairs of a query in the order they are keyed. */
  function CanonicalQuery(query: seq<QueryEntry>): seq<Pair> { Stringified(SortByName(WithoutEmptyNames(query))) }

  function PairText(p: Pair): string { EscapeSegment(p.name) + ['='] + EscapeSegment(p.value) }

  function PairTexts(pairs: seq<Pair>): seq<string> {
    if pairs == [] then [] else [PairText(pairs[0])] + PairTexts(pairs[1..])
  }

  function QueryText(pairs: seq<Pair>): string { Join(PairTexts(pairs), '&') }

  // ----- the same text without the escapes -----

  function PlainPair(p: Pair): string { p.name + (['='] + p.value) }

  /** `name=value` joined with `&`; empty only for no pairs. */
  function PlainText(pairs: seq<Pair>): string {
    if pairs == [] then ""
    else if |pairs| == 1 then PlainPair(pairs[0])
    else PlainPair(pairs[0]) + (['&'] + PlainText(pairs[1..]))
  }

  function RequestText(query: seq<QueryEntry>): string { PlainText(CanonicalQuery(query)) }

  lemma PlainTextIsEmptyIff(pairs: seq<Pair>)
    ensures PlainText(pairs) == "" <==> pairs == []
  {
  }

  lemma PairTextIsEscaped(p: Pair)
    ensures PairText(p) == EscapeSegment(PlainPair(p))
  {
    hide EscapeSegment;
    EscapeSegmentConcat(p.name, ['='] + p.value);
    EscapeSegmentConcat(['='], p.value);
    EscapeSegmentChar('=');
    Regroup(EscapeSegment(p.name), ['='], EscapeSegment(p.value));
  }

  /** The escape leaves `=` and `&` alone: the keyed text is the plain text, escaped as one. */
  lemma {:induction false} QueryTextIsEscaped(pairs: seq<Pair>)
    ensures QueryText(pairs) == EscapeSegment(PlainText(pairs))
  {
    hide EscapeSegment, PairText, PlainPair;
    if pairs == [] {
      EscapeNothing();
    } else {
      PairTextIsEscaped(pairs[0]);
      var first, rest := PairText(pairs[0]), PairTexts(pairs[1..]);
      assert ([first] + rest)[1..] == rest;
      if |pairs| > 1 {
        QueryTextIsEscaped(pairs[1..]);
        assert rest != [];
        JoinTwo(first, rest);
        EscapeSegmentConcat(PlainPair(pairs[0]), ['&'] + PlainText(pairs[1..]));
        EscapeSegmentConcat(['&'], PlainText(pairs[1..]));
        EscapeSegmentChar('&');
        hide Join;
      }
    }
  }

  lemma JoinTwo(first: string, rest: seq<string>)
    requires rest != []
    ensures Join([first] + rest, '&') == first + (['&'] + Join(rest, '&'))
  {
    assert ([first] + rest)[1..] == rest;
  }

  // ----- the order of arrival does not matter -----

  lemma {:induction false} LessIsTotal(a: string, b: string)
    ensures Less(a, b) || a == b || Less(b, a)
    ensures !(Less(a, b) && Less(b, a)) && !Less(a, a)
  {
    if a != "" && b != "" && a[0] == b[0] {
      LessIsTotal(a[1..], b[1..]);
    } else if a != "" {
      LessIsIrreflexive(a);
    }
  }

  lemma {:induction false} LessIsIrreflexive(a: string)
    ensures !Less(a, a)
  {
    if a != "" { LessIsIrreflexive(a[1..]); }
  }

  lemma {:induction false} LessIsTransitive(a: string, b: string, c: string)
    requires Less(a, b) && Less(b, c)
    ensures Less(a, c)
  {
    if a != "" && a[0] == b[0] && b[0] == c[0] {
      LessIsTransitive(a[1..], b[1..], c[1..]);
    }
  }

  lemma ByNameIsOrder()
    ensures IsOrder(ByName)
  {
    hide Less;
    forall x: QueryEntry, y: QueryEntry
      ensures ByName(x, y) || ByName(y, x)
    {
      LessIsTotal(x.name, y.name);
    }
    forall x, y, z | ByName(x, y) && ByName(y, z)
      ensures ByName(x, z)
    {
      LessIsTotal(x.name, y.name);
      if Less(z.name, x.name) && Less(x.name, y.name) { LessIsTransitive(z.name, x.name, y.name); }
    }
  }

  ghost predicate DistinctNames(entries: seq<QueryEntry>) {
    forall i, j :: 0 <= i < j < |entries| ==> entries[i].name != entries[j].name
  }

  lemma {:induction false} FilterKeeps(entries: seq<QueryEntry>)
    ensures forall e :: multiset(WithoutEmptyNames(entries))[e] == if e.name == "" then 0 else multiset(entries)[e]
  {
    if entries != [] {
      assert entries == [entries[0]] + entries[1..];
      FilterKeeps(entries[1..]);
    }
  }

  /** Queries with the same parameters, each name given once, have one canonical form. */
  lemma SameCanonicalQuery(q1: seq<QueryEntry>, q2: seq<QueryEntry>)
    requires DistinctNames(q1) && multiset(q1) == multiset(q2)
    ensures CanonicalQuery(q1) == CanonicalQuery(q2)
  {
    var w1, w2 := WithoutEmptyNames(q1), WithoutEmptyNames(q2);
    FilterKeeps(q1);
    FilterKeeps(q2);
    assert multiset(w1) == multiset(w2);
    ByNameIsOrder();
    SortBySorts(w1, ByName);
    SortBySorts(w2, ByName);
    SortByKeeps(w1, ByName);
    SortByKeeps(w2, ByName);
    NamesSeparate(q1, SortByName(w1));
    SortedIsUnique(SortByName(w1), SortByName(w2), ByName);
  }

  lemma NamesSeparate(query: seq<QueryEntry>, sorted: seq<QueryEntry>)
    requires DistinctNames(query) && sorted == SortByName(WithoutEmptyNames(query))
    ensures Separates(sorted, ByName)
  {
    FilterKeeps(query);
    SortByKeeps(WithoutEmptyNames(query), ByName);
    hide Less;
    forall x, y | x in sorted && y in sorted && ByName(x, y) && ByName(y, x)
      ensures x == y
    {
      assert x in multiset(WithoutEmptyNames(query)) && y in multiset(WithoutEmptyNames(query));
      assert x in multiset(query) && y in multiset(query);
      LessIsTotal(x.name, y.name);
      var i :| 0 <= i < |query| && query[i] == x;
      var j :| 0 <= j < |query| && query[j] == y;
    }
  }

  // ----- values are keyed by their text -----

  ghost predicate SameTexts(a: seq<QueryEntry>, b: seq<QueryEntry>) {
    && |a| == |b|
    && forall i :: 0 <= i < |a| ==>
         a[i].name == b[i].name && QueryValueToString(a[i].value) == QueryValueToString(b[i].value)
  }

  lemma {:induction false} FilterKeepsTexts(a: seq<QueryEntry>, b: seq<QueryEntry>)
    requires SameTexts(a, b)
    ensures SameTexts(WithoutEmptyNames(a), WithoutEmptyNames(b))
  {
    hide QueryValueToString;
    if a != [] { FilterKeepsTexts(a[1..], b[1..]); }
  }

  lemma {:induction false} InsertKeepsTexts(x: QueryEntry, a: seq<QueryEntry>, y: QueryEntry, b: seq<QueryEntry>)
    requires SameTexts(a, b) && SameTexts([x], [y])
    ensures SameTexts(InsertBy(x, a, ByName), InsertBy(y, b, ByName))
  {
    hide QueryValueToString, Less;
    assert [x][0] == x && [y][0] == y;
    if a != [] && !ByName(x, a[0]) { InsertKeepsTexts(x, a[1..], y, b[1..]); }
  }

  lemma {:induction false} SortKeepsTexts(a: seq<QueryEntry>, b: seq<QueryEntry>)
    requires SameTexts(a, b)
    ensures SameTexts(SortByName(a), SortByName(b))
  {
    hide QueryValueToString, Less, InsertBy;
    if a != [] {
      SortKeepsTexts(a[1..], b[1..]);
      InsertKeepsTexts(a[0], SortByName(a[1..]), b[0], SortByName(b[1..]));
    }
  }

  /** Only the text of a value enters the key, so values of any kind with one text are keyed alike. */
  lemma ValuesAreKeyedByText(a: seq<QueryEntry>, b: seq<QueryEntry>)
    requires SameTexts(a, b)
    ensures CanonicalQuery(a) == CanonicalQuery(b)
  {
    FilterKeepsTexts(a, b);
    SortKeepsTexts(WithoutEmptyNames(a), WithoutEmptyNames(b));
  }

  // ----- queries of strings -----

  ghost predicate AllStrings(entries: seq<QueryEntry>) { forall e :: e in entries ==> e.value.Str? }

  lemma StringifiedIsInjective(a: seq<QueryEntry>, b: seq<QueryEntry>)
    requires AllStrings(a) && AllStrings(b) && Stringified(a) == Stringified(b)
    ensures a == b
  {
    forall i | 0 <= i < |a|
      ensures a[i] == b[i]
    {
      assert a[i] in a && b[i] in b;
      assert Stringified(a)[i] == Stringified(b)[i];
    }
  }

  /** Among queries of strings the canonical form says which parameters were given. */
  lemma CanonicalQueryIsFaithful(q1: seq<QueryEntry>, q2: seq<QueryEntry>)
    requires AllStrings(q1) && AllStrings(q2) && CanonicalQuery(q1) == CanonicalQuery(q2)
    ensures multiset(WithoutEmptyNames(q1)) == multiset(WithoutEmptyNames(q2))
  {
    SortedStrings(q1);
    SortedStrings(q2);
    StringifiedIsInjective(SortByName(WithoutEmptyNames(q1)), SortByName(WithoutEmptyNames(q2)));
    SortByKeeps(WithoutEmptyNames(q1), ByName);
    SortByKeeps(WithoutEmptyNames(q2), ByName);
  }

  lemma SortedStrings(query: seq<QueryEntry>)
    requires AllStrings(query)
    ensures AllStrings(SortByName(WithoutEmptyNames(query)))
  {
    FilterKeeps(query);
    SortByKeeps(WithoutEmptyNames(query), ByName);
    forall e | e in SortByName(WithoutEmptyNames(query))
      ensures e in query
    {
      assert e in multiset(WithoutEmptyNames(query));
      assert e in multiset(query);
    }
  }

  /** What a canonical query can be: no name is empty, and names increase. */
  ghost predicate IsCanonical(pairs: seq<Pair>) {
    && (forall i :: 0 <= i < |pairs| ==> pairs[i].name != "")
    && forall i, j :: 0 <= i < j < |pairs| ==> Less(pairs[i].name, pairs[j].name)
  }

  lemma CanonicalQueryIsCanonical(query: seq<QueryEntry>)
    requires DistinctNames(query)
    ensures IsCanonical(CanonicalQuery(query))
  {
    var sorted := SortByName(WithoutEmptyNames(query));
    FilterKeeps(query);
    ByNameIsOrder();
    SortBySorts(WithoutEmptyNames(query), ByName);
    SortByKeeps(WithoutEmptyNames(query), ByName);
    NamesOccurOnce(query, sorted);
    hide Less, SortByName, WithoutEmptyNames;
    forall i | 0 <= i < |sorted|
      ensures sorted[i].name != ""
    {
      assert multiset(sorted)[sorted[i]] > 0;
    }
    forall i, j | 0 <= i < j < |sorted|
      ensures Less(sorted[i].name, sorted[j].name)
    {
      assert ByName(sorted[i], sorted[j]);
      LessIsTotal(sorted[i].name, sorted[j].name);
    }
  }

  lemma NamesOccurOnce(query: seq<QueryEntry>, sorted: seq<QueryEntry>)
    requires DistinctNames(query)
    requires forall e :: multiset(sorted)[e] == if e.name == "" then 0 else multiset(query)[e]
    ensures DistinctNames(sorted)
  {
    forall i, j | 0 <= i < j < |sorted|
      ensures sorted[i].name != sorted[j].name
    {
      var x, y := sorted[i], sorted[j];
      assert multiset(sorted)[x] > 0 && multiset(sorted)[y] > 0;
      assert x in multiset(query) && y in multiset(query);
      if x.name == y.name {
        var k :| 0 <= k < |query| && query[k] == x;
        var l :| 0 <= l < |query| && query[l] == y;
        assert x == y;
        OccursTwice(sorted, i, j);
        OccursOnce(query, k);
      }
    }
  }

  lemma OccursTwice(s: seq<QueryEntry>, i: nat, j: nat)
    requires i < j < |s| && s[i] == s[j]
    ensures multiset(s)[s[i]] >= 2
  {
    assert s == s[..j] + s[j..] && s[..j][i] == s[i] && s[j..][0] == s[j];
  }

  lemma OccursOnce(s: seq<QueryEntry>, k: nat)
    requires k < |s| && DistinctNames(s)
    ensures multiset(s)[s[k]] == 1
  {
    assert s == s[..k] + [s[k]] + s[k + 1..];
    assert s[k] !in s[..k] && s[k] !in s[k + 1..];
  }

  /** Every canonical list of pairs is that of a query of strings. */
  function AsQuery(pairs: seq<Pair>): (query: seq<QueryEntry>)
    ensures |query| == |pairs|
    ensures forall i :: 0 <= i < |pairs| ==> query[i] == QueryEntry(pairs[i].name, Str(pairs[i].value))
  {
    seq(|pairs|, i requires 0 <= i < |pairs| => QueryEntry(pairs[i].name, Str(pairs[i].value)))
  }

  lemma {:induction false} NothingToFilter(entries: seq<QueryEntry>)
    requires forall i :: 0 <= i < |entries| ==> entries[i].name != ""
    ensures WithoutEmptyNames(entries) == entries
  {
    if entries != [] {
      NothingToFilter(entries[1..]);
      assert entries == [entries[0]] + entries[1..];
    }
  }

  lemma CanonicalOfCanonical(pairs: seq<Pair>)
    requires IsCanonical(pairs)
    ensures AllStrings(AsQuery(pairs)) && DistinctNames(AsQuery(pairs)) && CanonicalQuery(AsQuery(pairs)) == pairs
  {
    var query := AsQuery(pairs);
    NothingToFilter(query);
    hide Less;
    forall i, j | 0 <= i < j < |query|
      ensures ByName(query[i], query[j]) && query[i].name != query[j].name
    {
      LessIsTotal(pairs[i].name, pairs[j].name);
    }
    SortBySorted(query, ByName);
  }

  // ----- which queries share their text with another -----

  /** The first `=` that a canonical query is bound to have stands behind its first name. */
  lemma FirstEquals(pairs: seq<Pair>)
    requires pairs != []
    ensures |pairs[0].name| < |PlainText(pairs)|
    ensures PlainText(pairs)[..|pairs[0].name|] == pairs[0].name && PlainText(pairs)[|pairs[0].name|] == '='
    ensures |pairs| == 1 ==> PlainText(pairs)[|pairs[0].name| + 1..] == pairs[0].value
  {
    var p := pairs[0];
    var s := PlainText(pairs);
    assert |pairs| > 1 ==> s == p.name + (['='] + p.value) + (['&'] + PlainText(pairs[1..]));
  }

  /** The second one, when there are two pairs. */
  lemma SecondEquals(pairs: seq<Pair>) returns (k: nat)
    requires |pairs| >= 2
    ensures |pairs[0].name| < k < |PlainText(pairs)| && PlainText(pairs)[k] == '='
  {
    var head, tail := PlainPair(pairs[0]), PlainText(pairs[1..]);
    FirstEquals(pairs[1..]);
    k := |head| + 1 + |pairs[1].name|;
    var s := head + (['&'] + tail);
    assert s[k] == tail[|pairs[1].name|];
  }

  /** Whether a query has another `=`, behind its first character, than the one after its only name. */
  predicate HasFurtherEquals(p: Pair) { '=' in p.value || (p.name != "" && '=' in p.name[1..]) }

  lemma OnlyEquals(p: Pair, k: nat)
    requires 0 < k < |PlainPair(p)| && PlainPair(p)[k] == '='
    ensures k == |p.name| || HasFurtherEquals(p)
  {
    var s := PlainPair(p);
    if k < |p.name| {
      assert p.name[1..][k - 1] == s[k];
    } else if k > |p.name| {
      assert p.value[k - |p.name| - 1] == s[k];
    }
  }

  lemma NoOtherReading(pairs: seq<Pair>, other: seq<Pair>)
    requires |pairs| == 0 || (|pairs| == 1 && !HasFurtherEquals(pairs[0]))
    requires IsCanonical(pairs) && IsCanonical(other) && PlainText(other) == PlainText(pairs)
    ensures other == pairs
  {
    PlainTextIsEmptyIff(pairs);
    PlainTextIsEmptyIff(other);
    hide HasFurtherEquals;
    if pairs != [] {
      FirstEquals(pairs);
      FirstEquals(other);
      OnlyEquals(pairs[0], |other[0].name|);
      if |other| >= 2 {
        var k := SecondEquals(other);
        OnlyEquals(pairs[0], k);
      }
      assert other == [other[0]] && pairs == [pairs[0]];
    }
  }

  /** The other reading: everything in one pair, or the name ending at another `=`. */
  lemma OtherReading(pairs: seq<Pair>) returns (other: seq<Pair>)
    requires IsCanonical(pairs)
    requires |pairs| >= 2 || (|pairs| == 1 && HasFurtherEquals(pairs[0]))
    ensures IsCanonical(other) && PlainText(other) == PlainText(pairs) && other != pairs
  {
    hide Less;
    var p := pairs[0];
    var q: Pair;
    if |pairs| >= 2 {
      q := Pair(p.name, p.value + (['&'] + PlainText(pairs[1..])));
      assert PlainPair(q) == PlainPair(p) + (['&'] + PlainText(pairs[1..]));
    } else if '=' in p.value {
      var k :| 0 <= k < |p.value| && p.value[k] == '=';
      q := Pair(p.name + (['='] + p.value[..k]), p.value[k + 1..]);
      assert p.value == p.value[..k] + (['='] + p.value[k + 1..]);
      assert PlainPair(q) == PlainPair(p);
    } else {
      var k :| 0 <= k < |p.name[1..]| && p.name[1..][k] == '=';
      q := Pair(p.name[..k + 1], p.name[k + 2..] + (['='] + p.value));
      assert p.name == p.name[..k + 1] + (['='] + p.name[k + 2..]);
      assert PlainPair(q) == PlainPair(p);
      assert |q.name| != |p.name|;
    }
    other := [q];
  }

  /**
   A query shares its text with another exactly when it has two pairs or more, or one pair with a
   further `=`: two pairs always read as one whose value holds the rest.
   */
  lemma TextIsSharedIff(pairs: seq<Pair>)
    requires IsCanonical(pairs)
    ensures (exists other :: IsCanonical(other) && PlainText(other) == PlainText(pairs) && other != pairs) <==>
            |pairs| >= 2 || (|pairs| == 1 && HasFurtherEquals(pairs[0]))
  {
    hide IsCanonical, HasFurtherEquals, PlainText;
    if |pairs| >= 2 || (|pairs| == 1 && HasFurtherEquals(pairs[0])) {
      var other := OtherReading(pairs);
    } else {
      forall other | IsCanonical(other) && PlainText(other) == PlainText(pairs)
        ensures other == pairs
      {
        NoOtherReading(pairs, other);
      }
    }
  }

  // ----- queries whose texts never meet -----

  /** A pair whose text cannot be mistaken for other pairs: the escape leaves `=` and `&` alone. */
  predicate IsPlain(p: Pair) { '=' !in p.name && '&' !in p.name && '&' !in p.value }

  ghost predicate AllPlain(pairs: seq<Pair>) { forall i :: 0 <= i < |pairs| ==> IsPlain(pairs[i]) }

  lemma HeadOfPlainText(pairs: seq<Pair>)
    requires pairs != [] && IsPlain(pairs[0])
    ensures var s := PlainText(pairs);
      && IndexOf(s, '&') == |PlainPair(pairs[0])| && s[..IndexOf(s, '&')] == PlainPair(pairs[0])
      && (|pairs| == 1 <==> IndexOf(s, '&') == |s|)
      && (|pairs| > 1 ==> s[IndexOf(s, '&') + 1..] == PlainText(pairs[1..]))
  {
    var head := PlainPair(pairs[0]);
    assert '&' !in head;
    if |pairs| == 1 {
      assert head[..|head|] == head;
    } else {
      var tail := PlainText(pairs[1..]);
      Regroup(head, ['&'], tail);
      IndexOfIs(head, '&', tail);
      assert (head + ['&'] + tail)[..|head|] == head && (head + ['&'] + tail)[|head| + 1..] == tail;
    }
  }

  lemma PlainPairIsFaithful(p: Pair, q: Pair)
    requires '=' !in p.name && '=' !in q.name && PlainPair(p) == PlainPair(q)
    ensures p == q
  {
    IndexOfIs(p.name, '=', p.value);
    IndexOfIs(q.name, '=', q.value);
    Regroup(p.name, ['='], p.value);
    Regroup(q.name, ['='], q.value);
    var s := PlainPair(p);
    assert s[..|p.name|] == p.name && s[..|q.name|] == q.name;
    assert s[|p.name| + 1..] == p.value && s[|q.name| + 1..] == q.value;
  }

  /** Queries without `&`, and without `=` in their names, never share their text. */
  lemma {:induction false} PlainTextIsFaithful(a: seq<Pair>, b: seq<Pair>)
    requires AllPlain(a) && AllPlain(b) && PlainText(a) == PlainText(b)
    ensures a == b
  {
    PlainTextIsEmptyIff(a);
    PlainTextIsEmptyIff(b);
    if a != [] {
      HeadOfPlainText(a);
      HeadOfPlainText(b);
      PlainPairIsFaithful(a[0], b[0]);
      hide PlainText, IndexOf, IsPlain;
      if |a| > 1 { PlainTextIsFaithful(a[1..], b[1..]); }
      assert a == [a[0]] + a[1..] && b == [b[0]] + b[1..];
      assert |a| == 1 ==> a[1..] == b[1..] == [];
    }
  }
}
