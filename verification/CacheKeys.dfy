/**
 The key a response is cached under when no custom key function is given, and what two requests
 that share a key have in common.
 */
module CacheKeys {
  import opened Text
  import opened KeySegments
  import opened QueryKeys

  const ANONYMOUS_USER_SCOPE := "anon"

  /** What a decorator fixes for every request of its handler. */
  datatype Options = Options(namespace: string, keyParams: seq<string>)

  /** A request; `request` is its other properties that are neither null nor undefined, as strings. */
  datatype Context = Context(route: string, userId: Option<string>, params: map<string, string>,
                             request: map<string, string>, query: seq<QueryEntry>)

  // ----- the key -----

  function KeyParamValue(name: string, c: Context): string {
    if name in c.params then c.params[name]
    else if name in c.request then c.request[name]
    else ""
  }

  function KeyParamValues(o: Options, c: Context): (values: seq<string>)
    ensures |values| == |o.keyParams|
  {
    seq(|o.keyParams|, i requires 0 <= i < |o.keyParams| => KeyParamValue(o.keyParams[i], c))
  }

  function UserScope(userId: Option<string>): string {
    match userId
    case None => ANONYMOUS_USER_SCOPE
    case Some(id) => ['u', ':'] + id
  }

  /** A dimension of a key: its letter and its values. */
  function ParamSegments(values: seq<string>): seq<string> { if values == [] then [] else ["p"] + values }

  function QuerySegments(text: string): seq<string> { if text == "" then [] else ["q", text] }

  /** What follows the user scope, before it is escaped. */
  function Segments(o: Options, c: Context): seq<string> {
    ParamSegments(KeyParamValues(o, c)) + QuerySegments(RequestText(c.query))
  }

  /** Route and user scope as they are, then every segment escaped. */
  function Key(o: Options, c: Context): string {
    "cache:" + o.namespace + [':'] + (c.route + ([':'] + (UserScope(c.userId) + SegmentsText(Segments(o, c)))))
  }

  method BuildCacheKey(o: Options, c: Context) returns (key: string)
    ensures key == Key(o, c)
  {
    hide CanonicalQuery, QueryText, EscapeAll, UserScope;
    var segments := [c.route, UserScope(c.userId)];
    var params := KeyParamValues(o, c);
    if |params| > 0 {
      segments := segments + [['p', ':'] + Join(EscapeAll(params), ':')];
    }
    var query := CanonicalQuery(c.query);
    if |query| > 0 {
      segments := segments + [['q', ':'] + QueryText(query)];
    }
    JoinSegments(segments, c.route, UserScope(c.userId), params, query);
    key := "cache:" + o.namespace + [':'] + Join(segments, ':');
  }

  lemma JoinSegments(segments: seq<string>, route: string, scope: string, params: seq<string>, query: seq<Pair>)
    requires segments == [route, scope]
                       + (if params == [] then [] else [['p', ':'] + Join(EscapeAll(params), ':')])
                       + (if query == [] then [] else [['q', ':'] + QueryText(query)])
    ensures Join(segments, ':')
         == route + ([':'] + (scope + SegmentsText(ParamSegments(params) + QuerySegments(PlainText(query)))))
  {
    hide QueryText, EscapeAll, Join, SegmentsText;
    var ps := if params == [] then [] else [['p', ':'] + Join(EscapeAll(params), ':')];
    var qs := if query == [] then [] else [['q', ':'] + QueryText(query)];
    assert segments == [route] + ([scope] + (ps + qs));
    JoinParts(route, scope, ps, qs);
    ParamsSuffix(params);
    QuerySuffix(query);
    SegmentsTextConcat(ParamSegments(params), QuerySegments(PlainText(query)));
    hide Suffixes;
  }

  lemma JoinParts(route: string, scope: string, params: seq<string>, query: seq<string>)
    ensures Join([route] + ([scope] + (params + query)), ':')
         == route + ([':'] + (scope + (Suffixes(params, ':') + Suffixes(query, ':'))))
  {
    JoinIsSuffixes(route, [scope] + (params + query), ':');
    SuffixesConcat([scope], params + query, ':');
    SuffixesConcat(params, query, ':');
    SuffixOfOne(scope, ':');
    hide Suffixes, Join;
    Regroup([':'], scope, Suffixes(params, ':') + Suffixes(query, ':'));
  }

  /** A letter is a segment that the escape leaves alone. */
  lemma LetterSegment(letter: char, rest: seq<string>)
    requires letter != '\\' && letter != ':'
    ensures SegmentsText([[letter]] + rest) == [':', letter] + SegmentsText(rest)
  {
    hide EscapeSegment;
    EscapeSegmentChar(letter);
    SegmentsTextConcat([[letter]], rest);
    SegmentsTextSnoc([], [letter]);
    assert [] + [[letter]] == [[letter]];
    assert SegmentsText([]) + ([':'] + [letter]) == [':', letter];
  }

  lemma ParamsSuffix(params: seq<string>)
    ensures Suffixes(if params == [] then [] else [['p', ':'] + Join(EscapeAll(params), ':')], ':')
         == SegmentsText(ParamSegments(params))
  {
    hide EscapeAll, Join, SegmentsText;
    if params != [] {
      var text := Join(EscapeAll(params), ':');
      SuffixOfOne(['p', ':'] + text, ':');
      SeparatorThenJoin(EscapeAll(params), ':');
      SegmentsTextIsSuffixes(params);
      LetterSegment('p', params);
      assert [':'] + (['p', ':'] + text) == [':', 'p'] + ([':'] + text);
      hide Suffixes;
    } else {
      SegmentsTextIsSuffixes([]);
      assert EscapeAll([]) == [];
    }
  }

  lemma QuerySuffix(query: seq<Pair>)
    ensures Suffixes(if query == [] then [] else [['q', ':'] + QueryText(query)], ':')
         == SegmentsText(QuerySegments(PlainText(query)))
  {
    hide EscapeSegment, QueryText, PlainText;
    PlainTextIsEmptyIff(query);
    if query != [] {
      var text := PlainText(query);
      SuffixOfOne(['q', ':'] + QueryText(query), ':');
      QueryTextIsEscaped(query);
      LetterSegment('q', [text]);
      SegmentsTextSnoc([], text);
      assert [] + [text] == [text] && [['q']] + [text] == ["q", text];
      assert SegmentsText([]) + ([':'] + EscapeSegment(text)) == [':'] + EscapeSegment(text);
      assert [':'] + (['q', ':'] + QueryText(query)) == [':', 'q'] + ([':'] + EscapeSegment(text));
    }
  }

  // ----- what two requests of one decorator have in common -----

  predicate SameDimensions(o: Options, c1: Context, c2: Context) {
    && c1.userId == c2.userId
    && KeyParamValues(o, c1) == KeyParamValues(o, c2)
    && RequestText(c1.query) == RequestText(c2.query)
  }

  /**
   The user id of `c2`, which has no query, spells what stands behind the id of `c1`, which has one:
   with no declared parameters the whole query, with two or more the first parameters, the later ones
   being declared again together with the query. With one parameter it never does.
   */
  predicate Spells(o: Options, c1: Context, c2: Context) {
    var text, p1, p2 := RequestText(c1.query), KeyParamValues(o, c1), KeyParamValues(o, c2);
    && text != "" && RequestText(c2.query) == ""
    && |o.keyParams| != 1
    && if |o.keyParams| == 0 then UserScope(c2.userId) == UserScope(c1.userId) + SegmentsText(["q", text])
       else
         && p2 == p1[2..] + ["q", text]
         && UserScope(c2.userId) + SegmentsText(["p"]) == UserScope(c1.userId) + SegmentsText(["p", p1[0], p1[1]])
  }

  lemma ScopeHead(user: Option<string>)
    ensures UserScope(user)[..1] == [if user.Some? then 'u' else 'a']
  {
  }

  lemma ScopesAreDistinct(u1: Option<string>, u2: Option<string>)
    ensures UserScope(u1) == UserScope(u2) <==> u1 == u2
  {
    ScopeHead(u1);
    ScopeHead(u2);
    if u1.Some? && u2.Some? && UserScope(u1) == UserScope(u2) {
      Cancel(['u', ':'], u1.value, u2.value);
    }
  }

  lemma AppendCancels(a: string, b: string, tail: string)
    ensures a + tail == b + tail <==> a == b
  {
    if a + tail == b + tail {
      assert (a + tail)[..|a|] == a && (b + tail)[..|b|] == b;
    }
  }

  /** Segment lists of one length. */
  lemma SameLength(s1: string, l1: seq<string>, s2: string, l2: seq<string>)
    requires |l1| == |l2| && (l1 == [] || (l1[0] == l2[0] && |l1| > 1))
    ensures s1 + SegmentsText(l1) == s2 + SegmentsText(l2) <==> s1 == s2 && l1 == l2
  {
    hide SegmentsText;
    if l1 == [] {
      AppendCancels(s1, s2, SegmentsText([]));
    } else if s1 + SegmentsText(l1) == s2 + SegmentsText(l2) {
      SegmentsFromRight(s1, l1, s2, l2, |l1| - 1);
      assert l1[..1] == [l1[0]] == l2[..1];
      AppendCancels(s1, s2, SegmentsText([l1[0]]));
      assert l1 == l1[..1] + l1[1..] && l2 == l2[..1] + l2[1..];
    }
  }

  /** A query on one side only. */
  lemma OneQuery(s1: string, p1: seq<string>, text: string, s2: string, p2: seq<string>)
    requires |p1| == |p2| && text != ""
    ensures s1 + SegmentsText(ParamSegments(p1) + ["q", text]) == s2 + SegmentsText(ParamSegments(p2)) <==>
            && |p1| != 1
            && if |p1| == 0 then s2 == s1 + SegmentsText(["q", text])
               else p2 == p1[2..] + ["q", text] && s2 + SegmentsText(["p"]) == s1 + SegmentsText(["p", p1[0], p1[1]])
  {
    if |p1| == 0 {
      assert p1 == p2 == [] && [] + ["q", text] == ["q", text];
      assert s2 + SegmentsText([]) == s2;
    } else {
      hide SegmentsText;
      var l1, l2 := ["p"] + p1 + ["q", text], ["p"] + p2;
      if s1 + SegmentsText(l1) == s2 + SegmentsText(l2) { QueryRead(s1, p1, text, s2, p2); }
      if |p1| > 1 && p2 == p1[2..] + ["q", text] {
        var head := ["p", p1[0], p1[1]];
        assert l1 == head + p2;
        CommonTail(s1, head, s2, ["p"], p2);
      }
    }
  }

  /** Read from the right, the query and the later parameters of one are the parameters of the other. */
  lemma QueryRead(s1: string, p1: seq<string>, text: string, s2: string, p2: seq<string>)
    requires |p1| == |p2| > 0
    requires s1 + SegmentsText(["p"] + p1 + ["q", text]) == s2 + SegmentsText(["p"] + p2)
    ensures |p1| > 1 && p2 == p1[2..] + ["q", text]
    ensures s2 + SegmentsText(["p"]) == s1 + SegmentsText(["p", p1[0], p1[1]])
  {
    hide SegmentsText;
    var m, l1, l2 := |p1|, ["p"] + p1 + ["q", text], ["p"] + p2;
    SegmentsFromRight(s1, l1, s2, l2, m);
    assert l2[..1] == ["p"] && l2[1..] == p2;
    if m == 1 {
      assert l1[..3] == ["p", p1[0], "q"];
      LettersDiffer(s1, p1[0], s2);
    } else {
      assert l1[..3] == ["p", p1[0], p1[1]] && l1[3..] == p1[2..] + ["q", text];
    }
  }

  lemma CommonTail(s1: string, head1: seq<string>, s2: string, head2: seq<string>, tail: seq<string>)
    ensures s1 + SegmentsText(head1 + tail) == s2 + SegmentsText(head2 + tail) <==>
            s1 + SegmentsText(head1) == s2 + SegmentsText(head2)
  {
    SegmentsTextConcat(head1, tail);
    SegmentsTextConcat(head2, tail);
    hide SegmentsText;
    Regroup(s1, SegmentsText(head1), SegmentsText(tail));
    Regroup(s2, SegmentsText(head2), SegmentsText(tail));
    AppendCancels(s1 + SegmentsText(head1), s2 + SegmentsText(head2), SegmentsText(tail));
  }

  /** A `q` segment never ends where a `p` segment does. */
  lemma LettersDiffer(s1: string, p: string, s2: string)
    ensures s1 + SegmentsText(["p", p, "q"]) != s2 + SegmentsText(["p"])
  {
    hide EscapeSegment;
    SegmentsTextSnoc(["p", p], "q");
    SegmentsTextSnoc([], "p");
    EscapeSegmentChar('q');
    EscapeSegmentChar('p');
    assert ["p", p] + ["q"] == ["p", p, "q"] && [] + ["p"] == ["p"];
    hide SegmentsText;
    var a, b := s1 + SegmentsText(["p", p, "q"]), s2 + SegmentsText(["p"]);
    assert a[|a| - 1] == 'q' && b[|b| - 1] == 'p';
  }

  /** Everything behind the route. */
  lemma SharedTailIff(o: Options, c1: Context, c2: Context)
    ensures UserScope(c1.userId) + SegmentsText(Segments(o, c1)) == UserScope(c2.userId) + SegmentsText(Segments(o, c2)) <==>
            SameDimensions(o, c1, c2) || Spells(o, c1, c2) || Spells(o, c2, c1)
  {
    hide SegmentsText, UserScope, KeyParamValues, RequestText;
    var s1, s2 := UserScope(c1.userId), UserScope(c2.userId);
    var p1, p2 := KeyParamValues(o, c1), KeyParamValues(o, c2);
    var t1, t2 := RequestText(c1.query), RequestText(c2.query);
    ScopesAreDistinct(c1.userId, c2.userId);
    if (t1 == "") == (t2 == "") {
      SameLength(s1, Segments(o, c1), s2, Segments(o, c2));
      SameSegments(p1, t1, p2, t2);
    } else if t1 != "" {
      OneQuery(s1, p1, t1, s2, p2);
      assert ParamSegments(p2) + [] == ParamSegments(p2);
    } else {
      OneQuery(s2, p2, t2, s1, p1);
      assert ParamSegments(p1) + [] == ParamSegments(p1);
    }
  }

  lemma SameSegments(p1: seq<string>, t1: string, p2: seq<string>, t2: string)
    requires |p1| == |p2| && ((t1 == "") == (t2 == ""))
    ensures ParamSegments(p1) + QuerySegments(t1) == ParamSegments(p2) + QuerySegments(t2) <==> p1 == p2 && t1 == t2
  {
    var l1, l2 := ParamSegments(p1) + QuerySegments(t1), ParamSegments(p2) + QuerySegments(t2);
    if l1 == l2 {
      assert l1[..|ParamSegments(p1)|] == ParamSegments(p1) && l2[..|ParamSegments(p2)|] == ParamSegments(p2);
      assert p1 != [] ==> p1 == ParamSegments(p1)[1..] && p2 == ParamSegments(p2)[1..];
      assert t1 != "" ==> l1[|l1| - 1] == t1 && l2[|l2| - 1] == t2;
    }
  }

  // ----- when two requests share a key -----

  lemma RouteEnds(r1: string, t1: string, r2: string, t2: string)
    requires ':' !in r1 && ':' !in r2
    ensures r1 + ([':'] + t1) == r2 + ([':'] + t2) <==> r1 == r2 && t1 == t2
  {
    if r1 + ([':'] + t1) == r2 + ([':'] + t2) {
      IndexOfIs(r1, ':', t1);
      IndexOfIs(r2, ':', t2);
      Regroup(r1, [':'], t1);
      Regroup(r2, [':'], t2);
      var s := r1 + ([':'] + t1);
      assert s[..|r1|] == r1 && s[..|r2|] == r2;
      Cancel(r1, [':'] + t1, [':'] + t2);
      Cancel([':'], t1, t2);
    }
  }

  /**
   For one decorator, with no colon in a route: two requests share a key exactly when they have route,
   user, declared parameters and query text in common, or the user id of one spells the others.
   */
  lemma SharedKeyIff(o: Options, c1: Context, c2: Context)
    requires ':' !in c1.route && ':' !in c2.route
    ensures Key(o, c1) == Key(o, c2) <==>
            c1.route == c2.route && (SameDimensions(o, c1, c2) || Spells(o, c1, c2) || Spells(o, c2, c1))
  {
    SharedTailIff(o, c1, c2);
    hide UserScope, Segments, SameDimensions, Spells;
    var t1 := UserScope(c1.userId) + SegmentsText(Segments(o, c1));
    var t2 := UserScope(c2.userId) + SegmentsText(Segments(o, c2));
    RouteEnds(c1.route, t1, c2.route, t2);
    var head := "cache:" + o.namespace + [':'];
    if Key(o, c1) == Key(o, c2) {
      Cancel(head, c1.route + ([':'] + t1), c2.route + ([':'] + t2));
    }
  }

  /** Requests of any two decorators share a key only when they have the namespace and the route in common. */
  lemma SharedKeyIsOneRoute(o1: Options, c1: Context, o2: Options, c2: Context)
    requires ':' !in o1.namespace && ':' !in o2.namespace && ':' !in c1.route && ':' !in c2.route
    requires Key(o1, c1) == Key(o2, c2)
    ensures o1.namespace == o2.namespace && c1.route == c2.route
  {
    hide UserScope, Segments, SegmentsText;
    var t1 := UserScope(c1.userId) + SegmentsText(Segments(o1, c1));
    var t2 := UserScope(c2.userId) + SegmentsText(Segments(o2, c2));
    var r1, r2 := c1.route + ([':'] + t1), c2.route + ([':'] + t2);
    Regroup("cache:" + o1.namespace, [':'], r1);
    Regroup("cache:" + o2.namespace, [':'], r2);
    Regroup("cache:", o1.namespace, [':'] + r1);
    Regroup("cache:", o2.namespace, [':'] + r2);
    Cancel("cache:", o1.namespace + ([':'] + r1), o2.namespace + ([':'] + r2));
    RouteEnds(o1.namespace, r1, o2.namespace, r2);
    RouteEnds(c1.route, t1, c2.route, t2);
  }

  lemma SegmentsStart(segments: seq<string>)
    requires segments != []
    ensures |SegmentsText(segments)| >= |segments| && SegmentsText(segments)[0] == ':'
    ensures segments[0] == "p" ==> |SegmentsText(segments)| > |segments|
  {
    hide EscapeSegment;
    if |segments| > 1 {
      SegmentsStart(segments[..|segments| - 1]);
    } else if segments[0] == "p" {
      EscapeSegmentChar('p');
    }
  }

  lemma LetterText()
    ensures SegmentsText(["p"]) == [':', 'p']
  {
    LetterSegment('p', []);
    assert ["p"] + [] == ["p"] && [':', 'p'] + SegmentsText([]) == [':', 'p'];
  }

  /** An id that spells what stands behind another is longer than that, and has a colon there. */
  lemma SpellingIds(o: Options, c1: Context, c2: Context)
    requires Spells(o, c1, c2)
    ensures c1.userId.Some? && c2.userId.Some? && c1.userId.value < c2.userId.value
    ensures c2.userId.value[|c1.userId.value|] == ':'
  {
    hide SegmentsText, KeyParamValues, RequestText;
    var s1, s2 := UserScope(c1.userId), UserScope(c2.userId);
    LetterText();
    var text, p1 := RequestText(c1.query), KeyParamValues(o, c1);
    if |o.keyParams| == 0 {
      SegmentsStart(["q", text]);
    } else {
      SegmentsStart(["p", p1[0], p1[1]]);
      var s := s2 + [':', 'p'];
      assert s[..|s1|] == s1 && s[|s1|] == ':';
      assert s2[..|s1|] == s[..|s1|] && s2[|s1|] == s[|s1|];
    }
    assert s2[..|s1|] == s1 && s2[|s1|] == ':' && |s2| > |s1|;
    hide Spells;
    assert s2[0] == s1[0];
    if c1.userId.Some? && c2.userId.Some? {
      var id1, id2 := c1.userId.value, c2.userId.value;
      assert id1 == s1[2..] && id2 == s2[2..];
      assert id2[..|id1|] == s2[..|s1|][2..];
      assert id2[|id1|] == s2[|s1|];
    }
  }

  predicate ColonFree(c: Context) { ':' !in c.route && (c.userId.Some? ==> ':' !in c.userId.value) }

  /** Where user ids have no colon either, a key is its dimensions. */
  lemma KeyIsItsDimensions(o: Options, c1: Context, c2: Context)
    requires ColonFree(c1) && ColonFree(c2)
    ensures Key(o, c1) == Key(o, c2) <==> c1.route == c2.route && SameDimensions(o, c1, c2)
  {
    SharedKeyIff(o, c1, c2);
    hide Key, SameDimensions, Spells;
    if Spells(o, c1, c2) { SpellingIds(o, c1, c2); }
    if Spells(o, c2, c1) { SpellingIds(o, c2, c1); }
  }

  /**
   A declared parameter separates keys by its value; it is taken from the route's parameters, else from
   the request's other properties, else it is empty.
   */
  lemma DeclaredParameterIsKeyed(o: Options, c: Context, name: string, v1: string, v2: string)
    requires ColonFree(c) && name in o.keyParams
    ensures Key(o, c.(params := c.params[name := v1])) == Key(o, c.(params := c.params[name := v2])) <==> v1 == v2
    ensures Key(o, c.(request := c.request[name := v1])) ==
            Key(o, if name in c.params then c else c.(params := c.params[name := v1]))
    ensures name !in c.params && name !in c.request ==> Key(o, c) == Key(o, c.(params := c.params[name := ""]))
  {
    hide RequestText, Key;
    var i :| 0 <= i < |o.keyParams| && o.keyParams[i] == name;
    var p1, p2 := c.(params := c.params[name := v1]), c.(params := c.params[name := v2]);
    KeyIsItsDimensions(o, p1, p2);
    assert KeyParamValues(o, p1)[i] == v1 && KeyParamValues(o, p2)[i] == v2;
    SameParametersSameKey(o, c.(request := c.request[name := v1]), if name in c.params then c else p1);
    if name !in c.params && name !in c.request { SameParametersSameKey(o, c, c.(params := c.params[name := ""])); }
  }

  lemma SameParametersSameKey(o: Options, c1: Context, c2: Context)
    requires c1.route == c2.route && c1.userId == c2.userId && c1.query == c2.query && ColonFree(c1)
    requires forall i :: 0 <= i < |o.keyParams| ==> KeyParamValue(o.keyParams[i], c1) == KeyParamValue(o.keyParams[i], c2)
    ensures Key(o, c1) == Key(o, c2)
  {
    hide RequestText, Key, KeyParamValue;
    KeyIsItsDimensions(o, c1, c2);
  }

  /** With one declared parameter colons in user ids do no harm. */
  lemma OneKeyParamDelimits(o: Options, c1: Context, c2: Context)
    requires |o.keyParams| == 1 && ':' !in c1.route && ':' !in c2.route
    ensures Key(o, c1) == Key(o, c2) <==> c1.route == c2.route && SameDimensions(o, c1, c2)
  {
    SharedKeyIff(o, c1, c2);
    hide Key, SameDimensions;
  }

  /** With none a user id can spell a query, */
  lemma ColonInUserIdCollides(o: Options, c: Context, id: string, query: seq<QueryEntry>)
    requires o.keyParams == [] && RequestText(query) != ""
    ensures Key(o, c.(userId := Some(id + SegmentsText(["q", RequestText(query)])), query := []))
         == Key(o, c.(userId := Some(id), query := query))
  {
    var c1 := c.(userId := Some(id), query := query);
    var c2 := c.(userId := Some(id + SegmentsText(["q", RequestText(query)])), query := []);
    hide SegmentsText;
    Regroup(['u', ':'], id, SegmentsText(["q", RequestText(query)]));
    SharedTailIff(o, c1, c2);
    hide Segments;
    assert CanonicalQuery([]) == [];
    assert Spells(o, c1, c2);
  }

  /** and with two or more it can spell parameters. */
  lemma ColonInUserIdCollidesBesideParams(o: Options, c: Context, id: string, p1: map<string, string>,
                                          p2: map<string, string>, query: seq<QueryEntry>)
    requires |o.keyParams| == 2 && o.keyParams[0] in p1 && o.keyParams[1] in p1 && p1[o.keyParams[1]] == "p"
    requires o.keyParams[0] in p2 && o.keyParams[1] in p2
    requires p2[o.keyParams[0]] == "q" && p2[o.keyParams[1]] == RequestText(query) != ""
    ensures var id' := id + SegmentsText(["p", p1[o.keyParams[0]]]);
      Key(o, c.(userId := Some(id'), params := p2, query := [])) == Key(o, c.(userId := Some(id), params := p1, query := query))
  {
    var first := p1[o.keyParams[0]];
    var id' := id + SegmentsText(["p", first]);
    var c1 := c.(userId := Some(id), params := p1, query := query);
    var c2 := c.(userId := Some(id'), params := p2, query := []);
    hide SegmentsText, RequestText;
    IdThatSpells(id, first);
    assert KeyParamValues(o, c1) == [first, "p"] && KeyParamValues(o, c2) == ["q", RequestText(query)];
    EmptyQuery();
    SharedTailIff(o, c1, c2);
    hide Segments, UserScope, KeyParamValues;
    assert Spells(o, c1, c2);
  }

  lemma IdThatSpells(id: string, first: string)
    ensures UserScope(Some(id + SegmentsText(["p", first]))) + SegmentsText(["p"])
         == UserScope(Some(id)) + SegmentsText(["p", first, "p"])
  {
    hide SegmentsText;
    Regroup(['u', ':'], id, SegmentsText(["p", first]));
    SegmentsTextConcat(["p", first], ["p"]);
    assert ["p", first] + ["p"] == ["p", first, "p"];
    Regroup(UserScope(Some(id)), SegmentsText(["p", first]), SegmentsText(["p"]));
  }

  lemma EmptyQuery()
    ensures RequestText([]) == ""
  {
    assert CanonicalQuery([]) == [];
  }

  // ----- queries that share a key -----

  /** For one user and the same parameters, the key is the text of the query. */
  lemma KeyOfQuery(o: Options, c: Context, query: seq<QueryEntry>)
    ensures Key(o, c.(query := query)) == Key(o, c) <==> RequestText(query) == RequestText(c.query)
  {
    var c' := c.(query := query);
    SharedTailIff(o, c', c);
    assert KeyParamValues(o, c') == KeyParamValues(o, c);
    if Spells(o, c', c) { SpellingIds(o, c', c); }
    if Spells(o, c, c') { SpellingIds(o, c, c'); }
    hide UserScope, Segments, Spells, RequestText;
    var t', t := UserScope(c'.userId) + SegmentsText(Segments(o, c')), UserScope(c.userId) + SegmentsText(Segments(o, c));
    if Key(o, c') == Key(o, c) {
      Cancel("cache:" + o.namespace + [':'], c.route + ([':'] + t'), c.route + ([':'] + t));
      Cancel(c.route, [':'] + t', [':'] + t);
      Cancel([':'], t', t);
    }
  }

  /** Requests whose queries differ in order only share a key. */
  lemma QueryOrderDoesNotMatter(o: Options, c: Context, query: seq<QueryEntry>)
    requires DistinctNames(c.query) && multiset(query) == multiset(c.query)
    ensures Key(o, c.(query := query)) == Key(o, c)
  {
    SameCanonicalQuery(c.query, query);
    KeyOfQuery(o, c, query);
  }

  /**
   Among queries of strings, another one shares the key exactly when the query has two parameters or
   more, or one with a further `=`.
   */
  lemma QueryIsSharedIff(o: Options, c: Context)
    requires DistinctNames(c.query)
    ensures (exists query :: && AllStrings(query) && DistinctNames(query)
                             && CanonicalQuery(query) != CanonicalQuery(c.query)
                             && Key(o, c.(query := query)) == Key(o, c)) <==>
            var pairs := CanonicalQuery(c.query);
            |pairs| >= 2 || (|pairs| == 1 && HasFurtherEquals(pairs[0]))
  {
    hide Key, CanonicalQuery, PlainText, IsCanonical, HasFurtherEquals, DistinctNames, AllStrings;
    var pairs := CanonicalQuery(c.query);
    CanonicalQueryIsCanonical(c.query);
    TextIsSharedIff(pairs);
    if |pairs| >= 2 || (|pairs| == 1 && HasFurtherEquals(pairs[0])) {
      var other :| IsCanonical(other) && PlainText(other) == PlainText(pairs) && other != pairs;
      CanonicalOfCanonical(other);
      KeyOfQuery(o, c, AsQuery(other));
    } else {
      forall query | AllStrings(query) && DistinctNames(query) && Key(o, c.(query := query)) == Key(o, c)
        ensures CanonicalQuery(query) == pairs
      {
        KeyOfQuery(o, c, query);
        CanonicalQueryIsCanonical(query);
        NoOtherReading(pairs, CanonicalQuery(query));
      }
    }
  }

  /**
   A value of any kind is keyed like the string it turns into, a list like its items joined and nothing
   like the empty string; and it is keyed like the list that holds only it.
   */
  lemma ValueIsKeyedByItsText(o: Options, c: Context, i: nat, value: QueryValue)
    requires i < |c.query|
    ensures var name := c.query[i].name;
      Key(o, c.(query := c.query[i := QueryEntry(name, value)]))
      == Key(o, c.(query := c.query[i := QueryEntry(name, Str(QueryValueToString(value)))]))
      == Key(o, c.(query := c.query[i := QueryEntry(name, List([value]))]))
  {
    hide Key;
    ListOfOne(value);
    SameTextSameKey(o, c, i, value, Str(QueryValueToString(value)));
    SameTextSameKey(o, c, i, value, List([value]));
  }

  lemma SameTextSameKey(o: Options, c: Context, i: nat, v1: QueryValue, v2: QueryValue)
    requires i < |c.query| && QueryValueToString(v1) == QueryValueToString(v2)
    ensures var name := c.query[i].name;
      Key(o, c.(query := c.query[i := QueryEntry(name, v1)])) == Key(o, c.(query := c.query[i := QueryEntry(name, v2)]))
  {
    hide Key, QueryValueToString;
    var name := c.query[i].name;
    var a, b := c.query[i := QueryEntry(name, v1)], c.query[i := QueryEntry(name, v2)];
    ValuesAreKeyedByText(a, b);
    KeyOfQuery(o, c.(query := b), a);
    assert c.(query := b).(query := a) == c.(query := a);
  }

  lemma ListOfOne(value: QueryValue)
    ensures QueryValueToString(List([value])) == QueryValueToString(value)
  {
    assert [value][1..] == [];
    assert ValuesToStrings([value]) == [QueryValueToString(value)];
  }

  /** Two requests that differ, `name=a&name=b` and `name=a,b`, share a key. */
  lemma ListsAreKeyedLikeStrings(o: Options, c: Context, i: nat, a: string, b: string)
    requires i < |c.query|
    ensures var name := c.query[i].name;
      Key(o, c.(query := c.query[i := QueryEntry(name, List([Str(a), Str(b)]))]))
      == Key(o, c.(query := c.query[i := QueryEntry(name, Str(a + [','] + b))]))
  {
    var items := [Str(a), Str(b)];
    assert QueryValueToString(List(items)) == a + [','] + b by {
      assert items[1..] == [Str(b)] && [Str(b)][1..] == [];
      assert ValuesToStrings([Str(b)]) == [b] + ValuesToStrings([]) == [b];
      assert ValuesToStrings(items) == [a] + [b];
      JoinIsSuffixes(a, [b], ',');
      SuffixOfOne(b, ',');
    }
    hide Key, QueryValueToString;
    SameTextSameKey(o, c, i, List(items), Str(a + [','] + b));
  }

  /** Nothing, the empty list and the empty string are keyed alike; so are an object and its serialisation. */
  lemma ValuesOfOtherKinds(o: Options, c: Context, i: nat, text: string)
    requires i < |c.query|
    ensures var name := c.query[i].name;
      && Key(o, c.(query := c.query[i := QueryEntry(name, Missing)]))
         == Key(o, c.(query := c.query[i := QueryEntry(name, List([]))]))
         == Key(o, c.(query := c.query[i := QueryEntry(name, Str(""))]))
      && Key(o, c.(query := c.query[i := QueryEntry(name, Json(text))]))
         == Key(o, c.(query := c.query[i := QueryEntry(name, Str(text))]))
  {
    hide Key;
    SameTextSameKey(o, c, i, Missing, Str(""));
    SameTextSameKey(o, c, i, List([]), Str(""));
    SameTextSameKey(o, c, i, Json(text), Str(text));
  }

  lemma JoinedText(p1: Pair, p2: Pair)
    ensures PlainText([Pair(p1.name, p1.value + (['&'] + PlainPair(p2)))]) == PlainText([p1, p2])
  {
    assert [p1, p2][1..] == [p2] && PlainText([p2]) == PlainPair(p2);
    var joined := Pair(p1.name, p1.value + (['&'] + PlainPair(p2)));
    assert PlainText([joined]) == PlainPair(joined) == PlainPair(p1) + (['&'] + PlainPair(p2));
  }

  /** A value that spells `&name=value` is keyed like the further parameter it spells. */
  lemma AmpersandInValueCollides(o: Options, c: Context, p1: Pair, p2: Pair)
    requires p1.name != "" && Less(p1.name, p2.name)
    ensures var joined := Pair(p1.name, p1.value + (['&'] + PlainPair(p2)));
      Key(o, c.(query := AsQuery([joined]))) == Key(o, c.(query := AsQuery([p1, p2])))
  {
    assert p2.name != "";
    hide Key, Less, CanonicalQuery;
    var joined := Pair(p1.name, p1.value + (['&'] + PlainPair(p2)));
    CanonicalOfCanonical([joined]);
    CanonicalOfCanonical([p1, p2]);
    JoinedText(p1, p2);
    hide PlainText;
    var c2 := c.(query := AsQuery([p1, p2]));
    KeyOfQuery(o, c2, AsQuery([joined]));
    assert c2.(query := AsQuery([joined])) == c.(query := AsQuery([joined]));
  }

  /**
   The documented claim where it holds: without colons in routes and user ids, with string values, no
   `&` in a query and no `=` in its names, requests that share a key are the same request.
   */
  lemma SharedKeyIsSameRequest(o: Options, c1: Context, c2: Context)
    requires ColonFree(c1) && ColonFree(c2) && Key(o, c1) == Key(o, c2)
    requires AllStrings(c1.query) && AllPlain(CanonicalQuery(c1.query))
    requires AllStrings(c2.query) && AllPlain(CanonicalQuery(c2.query))
    ensures c1.route == c2.route && c1.userId == c2.userId && KeyParamValues(o, c1) == KeyParamValues(o, c2)
    ensures multiset(WithoutEmptyNames(c1.query)) == multiset(WithoutEmptyNames(c2.query))
  {
    KeyIsItsDimensions(o, c1, c2);
    hide Key, CanonicalQuery, WithoutEmptyNames, AllPlain, PlainText, KeyParamValues;
    PlainTextIsFaithful(CanonicalQuery(c1.query), CanonicalQuery(c2.query));
    CanonicalQueryIsFaithful(c1.query, c2.query);
  }
}
