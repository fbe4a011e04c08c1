/**
 The metrics themselves: labels resolved against a declaration, series kept by label set, and
 histograms with cumulative buckets.
 */
module Metrics {
  import opened Text
  import opened Sorting
  import opened Exposition

  // ----- labels -----

  predicate Declares(names: seq<string>, labels: map<string, string>) { forall name :: name in names ==> name in labels }

  /** When a label set is accepted. A metric that declares no labels accepts any label set. */
  predicate Accepts(names: seq<string>, labels: map<string, string>) {
    names == [] || (Declares(names, labels) && forall name :: name in labels ==> name in names)
  }

  /** The declared labels with the recorded values, in declaration order. */
  function Resolved(names: seq<string>, labels: map<string, string>): (r: seq<Label>)
    requires Declares(names, labels)
    ensures |r| == |names|
    ensures forall i :: 0 <= i < |names| ==> r[i] == Label(names[i], labels[names[i]])
  {
    seq(|names|, i requires 0 <= i < |names| => Label(names[i], labels[names[i]]))
  }

  /** The resolved labels, or nothing where the source throws. */
  method ResolveLabels(names: seq<string>, labels: map<string, string>) returns (resolved: Option<seq<Label>>)
    ensures resolved.Some? <==> Accepts(names, labels)
    ensures resolved.Some? ==> resolved.value == if names == [] then [] else Resolved(names, labels)
  {
    if |names| == 0 { return Some([]); }
    var result: seq<Label> := [];
    for i := 0 to |names|
      invariant |result| == i
      invariant forall k :: 0 <= k < i ==> names[k] in labels && result[k] == Label(names[k], labels[names[k]])
    {
      if names[i] !in labels {
        assert !Declares(names, labels);
        return None;
      }
      result := result + [Label(names[i], labels[names[i]])];
    }
    var unexpected := set name | name in labels && name !in names;
    if unexpected != {} {
      var name :| name in unexpected;
      return None;
    }
    assert forall name :: name in labels ==> name !in unexpected;
    assert result == Resolved(names, labels);
    return Some(result);
  }

  /** The key a label set is stored under: the aligned pairs of declared names and values. */
  function SeriesKey(names: seq<string>, labels: map<string, string>): seq<Label>
    requires Accepts(names, labels)
  {
    if names == [] then [] else Resolved(names, labels)
  }

  /** Two accepted label sets of a metric with labels reach one series exactly when they are the same. */
  lemma SameSeriesIff(names: seq<string>, a: map<string, string>, b: map<string, string>)
    requires names != [] && Accepts(names, a) && Accepts(names, b)
    ensures SeriesKey(names, a) == SeriesKey(names, b) <==> a == b
  {
    if SeriesKey(names, a) == SeriesKey(names, b) {
      forall name | name in a
        ensures name in b && a[name] == b[name]
      {
        var i :| 0 <= i < |names| && names[i] == name;
        assert Resolved(names, a)[i] == Resolved(names, b)[i];
      }
      assert a.Keys == b.Keys;
    }
  }

  /** A metric without labels takes undeclared labels silently, and all of them to one series. */
  lemma UndeclaredLabelsOfBareMetric(labels: map<string, string>)
    ensures Accepts([], labels) && SeriesKey([], labels) == []
  {
  }

  // ----- bucket boundaries -----

  predicate SortedReals(s: seq<real>) { forall i, j :: 0 <= i < j < |s| ==> s[i] <= s[j] }

  predicate AtMost(x: real, y: real) { x <= y }

  function SortReals(s: seq<real>): seq<real> { SortBy(s, AtMost) }

  lemma SortRealsSorts(s: seq<real>)
    ensures SortedReals(SortReals(s)) && multiset(SortReals(s)) == multiset(s)
  {
    SortBySorts(s, AtMost);
    SortByKeeps(s, AtMost);
    hide SortBy;
    forall i, j | 0 <= i < j < |SortReals(s)|
      ensures SortReals(s)[i] <= SortReals(s)[j]
    {
      assert AtMost(SortReals(s)[i], SortReals(s)[j]);
    }
  }

  // ----- series -----

  datatype Bucket = Bucket(le: real, count: nat)

  datatype Series = Series(count: nat, sum: real, buckets: seq<Bucket>)

  function EmptySeries(boundaries: seq<real>): Series {
    Series(0, 0.0, seq(|boundaries|, i requires 0 <= i < |boundaries| => Bucket(boundaries[i], 0)))
  }

  function SeriesAt(series: map<seq<Label>, Series>, boundaries: seq<real>, key: seq<Label>): Series {
    if key in series then series[key] else EmptySeries(boundaries)
  }

  function Counted(b: Bucket, value: real): Bucket { if value <= b.le then b.(count := b.count + 1) else b }

  function WithObservation(s: Series, value: real): Series {
    Series(s.count + 1, s.sum + value,
           seq(|s.buckets|, i requires 0 <= i < |s.buckets| => Counted(s.buckets[i], value)))
  }

  class Histogram {
    const labelNames: seq<string>
    const bucketBoundaries: seq<real>
    var series: map<seq<Label>, Series>

    /** The boundaries are sorted already: `Create` is how a histogram comes to be. */
    constructor (labelNames: seq<string>, bucketBoundaries: seq<real>)
      ensures this.labelNames == labelNames && this.bucketBoundaries == bucketBoundaries && series == map[]
    {
      this.labelNames, this.bucketBoundaries, series := labelNames, bucketBoundaries, map[];
    }

    static method Create(labelNames: seq<string>, buckets: seq<real>) returns (h: Option<Histogram>)
      ensures h.Some? <==> forall i :: 0 <= i < |buckets| ==> buckets[i] >= 0.0
      ensures h.Some? ==> fresh(h.value) && h.value.labelNames == labelNames && h.value.series == map[]
      ensures h.Some? ==> SortedReals(h.value.bucketBoundaries) && multiset(h.value.bucketBoundaries) == multiset(buckets)
    {
      var sorted := SortReals(buckets);
      SortRealsSorts(buckets);
      assert forall x :: x in sorted <==> x in multiset(sorted);
      assert forall x :: x in buckets <==> x in multiset(buckets);
      if exists i :: 0 <= i < |sorted| && sorted[i] < 0.0 {
        var i :| 0 <= i < |sorted| && sorted[i] < 0.0;
        assert sorted[i] in buckets;
        return None;
      }
      assert forall i :: 0 <= i < |buckets| ==> buckets[i] in sorted;
      var histogram := new Histogram(labelNames, sorted);
      return Some(histogram);
    }

    method Observe(labels: map<string, string>, value: real) returns (ok: bool)
      modifies this
      ensures ok <==> value >= 0.0 && Accepts(labelNames, labels)
      ensures !ok ==> series == old(series)
      ensures ok ==>
        var key := SeriesKey(labelNames, labels);
        series == old(series)[key := WithObservation(SeriesAt(old(series), bucketBoundaries, key), value)]
    {
      if value < 0.0 { return false; }
      var key := ResolveLabels(labelNames, labels);
      if key == None { return false; }
      var s := SeriesAt(series, bucketBoundaries, key.value);
      var buckets := s.buckets;
      for b := 0 to |buckets|
        invariant |buckets| == |s.buckets|
        invariant forall i :: 0 <= i < |buckets| ==>
          buckets[i] == if i < b then Counted(s.buckets[i], value) else s.buckets[i]
      {
        if value <= buckets[b].le {
          buckets := buckets[b := buckets[b].(count := buckets[b].count + 1)];
        }
      }
      assert buckets == WithObservation(s, value).buckets;
      series := series[key.value := Series(s.count + 1, s.sum + value, buckets)];
      return true;
    }

    /** Reading the count of a label set that was never observed creates its series. */
    method Count(labels: map<string, string>) returns (n: Option<nat>)
      modifies this
      ensures n.Some? <==> Accepts(labelNames, labels)
      ensures n.None? ==> series == old(series)
      ensures n.Some? ==>
        var key := SeriesKey(labelNames, labels);
        var s := SeriesAt(old(series), bucketBoundaries, key);
        n.value == s.count && series == old(series)[key := s]
    {
      var key := ResolveLabels(labelNames, labels);
      if key == None { return None; }
      var s := SeriesAt(series, bucketBoundaries, key.value);
      series := series[key.value := s];
      return Some(s.count);
    }
  }

  // ----- any sequence of observations -----

  datatype Observation = Observation(key: seq<Label>, value: real)

  function Recorded(boundaries: seq<real>, observations: seq<Observation>): map<seq<Label>, Series> {
    if observations == [] then map[] else
      var series := Recorded(boundaries, observations[..|observations| - 1]);
      var o := observations[|observations| - 1];
      series[o.key := WithObservation(SeriesAt(series, boundaries, o.key), o.value)]
  }

  /** The values observed under one label set, in order. */
  function ValuesOf(observations: seq<Observation>, key: seq<Label>): seq<real> {
    if observations == [] then [] else
      var o := observations[|observations| - 1];
      ValuesOf(observations[..|observations| - 1], key) + if o.key == key then [o.value] else []
  }

  function CountAtMost(values: seq<real>, le: real): nat {
    if values == [] then 0
    else CountAtMost(values[..|values| - 1], le) + if values[|values| - 1] <= le then 1 else 0
  }

  function Total(values: seq<real>): real {
    if values == [] then 0.0 else Total(values[..|values| - 1]) + values[|values| - 1]
  }

  ghost predicate Agrees(s: Series, boundaries: seq<real>, values: seq<real>) {
    && s.count == |values| && s.sum == Total(values) && |s.buckets| == |boundaries|
    && forall b :: 0 <= b < |boundaries| ==> s.buckets[b] == Bucket(boundaries[b], CountAtMost(values, boundaries[b]))
  }

  lemma AgreesAfterOneMore(s: Series, boundaries: seq<real>, values: seq<real>, value: real)
    requires Agrees(s, boundaries, values)
    ensures Agrees(WithObservation(s, value), boundaries, values + [value])
  {
    assert (values + [value])[..|values|] == values;
  }

  /**
   After any sequence of observations, each bucket of a label set holds the number of its observations
   at or below its bound, and the count and the sum are those of all its observations.
   */
  lemma {:induction false} BucketsCountObservations(boundaries: seq<real>, observations: seq<Observation>, key: seq<Label>)
    ensures Agrees(SeriesAt(Recorded(boundaries, observations), boundaries, key), boundaries, ValuesOf(observations, key))
  {
    if observations != [] {
      var before := observations[..|observations| - 1];
      var o := observations[|observations| - 1];
      BucketsCountObservations(boundaries, before, key);
      hide WithObservation, Agrees;
      if o.key == key {
        AgreesAfterOneMore(SeriesAt(Recorded(boundaries, before), boundaries, key), boundaries, ValuesOf(before, key), o.value);
      } else {
        assert ValuesOf(before, key) + [] == ValuesOf(before, key);
      }
    }
  }

  lemma {:induction false} CountAtMostIsMonotone(values: seq<real>, le: real, le': real)
    requires le <= le'
    ensures CountAtMost(values, le) <= CountAtMost(values, le') <= |values|
  {
    if values != [] {
      CountAtMostIsMonotone(values[..|values| - 1], le, le');
    }
  }

  // ----- rendering a histogram -----

  /** A sample before its numbers are formatted. */
  datatype Point = Point(metric: string, labels: seq<Label>, value: real)

  const INFINITE := "+Inf"

  function BucketPoints(name: string, labels: seq<Label>, buckets: seq<Bucket>, format: real -> string): (r: seq<Point>)
    ensures |r| == |buckets|
    ensures forall b :: 0 <= b < |buckets| ==>
      r[b] == Point(name + "_bucket", labels + [Label("le", format(buckets[b].le))], buckets[b].count as real)
  {
    seq(|buckets|, b requires 0 <= b < |buckets| =>
      Point(name + "_bucket", labels + [Label("le", format(buckets[b].le))], buckets[b].count as real))
  }

  /** One line a bucket, then the `+Inf` bucket, the count and the sum. */
  function RenderSeries(name: string, labels: seq<Label>, s: Series, format: real -> string): (r: seq<Point>)
    ensures |r| == |s.buckets| + 3
  {
    BucketPoints(name, labels, s.buckets, format)
    + [Point(name + "_bucket", labels + [Label("le", INFINITE)], s.count as real),
       Point(name + "_count", labels, s.count as real),
       Point(name + "_sum", labels, s.sum)]
  }

  /**
   What a scrape of a histogram shows after any sequence of observations: buckets that never go
   down, none above `+Inf`, `+Inf` equal to the count, and the sum of everything observed.
   */
  lemma RenderedHistogramIsCumulative(name: string, boundaries: seq<real>, observations: seq<Observation>,
                                      key: seq<Label>, format: real -> string)
    requires SortedReals(boundaries)
    ensures var s := SeriesAt(Recorded(boundaries, observations), boundaries, key);
      var values := ValuesOf(observations, key);
      var points := RenderSeries(name, key, s, format);
      var n := |boundaries|;
      && |points| == n + 3
      && (forall b :: 0 <= b < n ==> points[b].value == CountAtMost(values, boundaries[b]) as real <= points[n].value)
      && (forall a, b :: 0 <= a < b < n ==> points[a].value <= points[b].value)
      && points[n].value == points[n + 1].value == |values| as real
      && points[n + 2].value == Total(values)
      && (forall b :: 0 <= b < n ==>
            points[b].metric == name + "_bucket" && points[b].labels == key + [Label("le", format(boundaries[b]))])
      && points[n].metric == name + "_bucket" && points[n].labels == key + [Label("le", "+Inf")]
      && points[n + 1].metric == name + "_count" && points[n + 1].labels == key
      && points[n + 2].metric == name + "_sum" && points[n + 2].labels == key
  {
    BucketsCountObservations(boundaries, observations, key);
    var s := SeriesAt(Recorded(boundaries, observations), boundaries, key);
    var values := ValuesOf(observations, key);
    hide SeriesAt, Recorded, ValuesOf, Total;
    forall a, b | 0 <= a <= b < |boundaries|
      ensures CountAtMost(values, boundaries[a]) <= CountAtMost(values, boundaries[b]) <= |values|
    {
      CountAtMostIsMonotone(values, boundaries[a], boundaries[b]);
    }
  }

  // ----- a rendered histogram is read back -----

  /** What `definition` accepts: valid names, none reserved. */
  predicate IsDefinition(name: string, labelNames: seq<string>) {
    && IsMetricName(name) && !(['_', '_'] <= name)
    && forall i :: 0 <= i < |labelNames| ==> IsLabelName(labelNames[i]) && labelNames[i] != "le"
  }

  function SampleOf(p: Point, format: real -> string): Sample { Sample(p.metric, p.labels, format(p.value)) }

  function SamplesOf(points: seq<Point>, format: real -> string): (r: seq<Sample>)
    ensures |r| == |points| && forall i :: 0 <= i < |points| ==> r[i] == SampleOf(points[i], format)
  {
    seq(|points|, i requires 0 <= i < |points| => SampleOf(points[i], format))
  }

  /** A histogram declared and labelled as the registry demands renders to lines that read back as they were. */
  lemma RenderedHistogramIsReadBack(name: string, help: string, labelNames: seq<string>, labels: map<string, string>,
                                    s: Series, format: real -> string)
    requires IsDefinition(name, labelNames) && Accepts(labelNames, labels)
    requires forall x :: '\n' !in format(x)
    ensures var samples := SamplesOf(RenderSeries(name, SeriesKey(labelNames, labels), s, format), format);
      var lines := LinesOf(Block(HeaderLines(name, help, "histogram") + SampleLines(samples)));
      && |lines| == 2 + |samples|
      && forall i :: 0 <= i < |samples| ==> ReadSample(lines[2 + i]) == Some(samples[i])
  {
    var key := SeriesKey(labelNames, labels);
    var samples := SamplesOf(RenderSeries(name, key, s, format), format);
    assert LabelNamesOk(key);
    SuffixedNames(name);
    forall i | 0 <= i < |samples|
      ensures IsMetricName(samples[i].metric) && LabelNamesOk(samples[i].labels) && '\n' !in samples[i].value
    {
      var p := RenderSeries(name, key, s, format)[i];
      assert samples[i] == SampleOf(p, format);
      assert p.labels == key || p.labels == key + [p.labels[|key|]];
    }
    BlockIsReadBack(name, help, "histogram", samples);
  }

  lemma SuffixedNames(name: string)
    requires IsMetricName(name)
    ensures IsMetricName(name + "_bucket") && IsMetricName(name + "_count") && IsMetricName(name + "_sum")
    ensures IsLabelName("le")
  {
  }
}
