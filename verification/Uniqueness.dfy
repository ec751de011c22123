/**
  The rule of the exposition format that every line has its own name and labels: when one metric
  meets it, and when a whole scrape does (lib/prom/src/prom_metric_formatter.c, lines 179 to 276).
  */
module Uniqueness {
  import opened Prelude
  import opened LValues
  import opened Maps
  import opened Formatters
  import opened HistogramBuckets
  import opened HistogramSpec
  import opened Histograms
  import opened Metrics
  import opened Exposition

  // ----- One metric -----

  ghost predicate DistinctIds(lines: seq<Line>) {
    forall p, q :: 0 <= p < q < |lines| ==> lines[p].id != lines[q].id
  }

  /** Every line of a series is listed under a key of its own. That is a condition on histograms only. */
  ghost predicate Separable(m: Metric)
    reads m`buckets
  {
    m.metricType == Histogram ==> m.HasBuckets() && UnsharedKeys(m.buckets.value)
  }

  /** Line i of a stored histogram. */
  lemma StoredLine(m: Metric, key: string, i: nat)
    requires m.Valid() && m.metricType == Histogram && m.HasBuckets() && key in m.samples.M
    requires i < |LineKeys(m.buckets.value)|
    ensures m.samples.M[key].Some? && m.samples.M[key].value.Dist?
    ensures var h, lines := m.samples.M[key].value.histogram, SeriesLines(m.samples.M[key].value);
            && |m.labelKeys| <= |h.labelValues| && key == m.Key(h.labelValues)
            && |lines| == |LineKeys(m.buckets.value)|
            && lines[i].id == LineId(m.name, m.labelKeys, h.labelValues, LineKeys(m.buckets.value)[i])
  {
    hide PromMap.Valid, Formatter.Valid, Formatter.Text, SampleHistogram.Valid, LineId, LValue, SeriesLines, Ascending;
    PrintedHistogram(m.samples.M[key].value.histogram);
  }

  lemma LineKeysPlain(b: Buckets, number: real -> string)
    requires b.Keyed(number) && Printer(number)
    ensures PlainKeys(b) && forall i :: 0 <= i < |LineKeys(b)| ==> '"' !in LineKeys(b)[i]
  {
    KeysHavePoint(b, number);
    hide Printer;
  }

  /** No two lines of one metric have the same name and labels. */
  lemma SeriesLinesUnique(m: Metric, k: string, i: nat, l: string, j: nat)
    requires m.Valid() && Separable(m) && k in m.samples.M && l in m.samples.M
    requires i < |SeriesLines(m.samples.M[k].value)| && j < |SeriesLines(m.samples.M[l].value)|
    requires SeriesLines(m.samples.M[k].value)[i].id == SeriesLines(m.samples.M[l].value)[j].id
    ensures k == l && i == j
  {
    hide Metric.Valid, SeriesLines, Separable;
    if m.metricType == Histogram {
      HistogramLinesUnique(m, k, i, l, j);
    } else {
      ScalarSeries(m, k);
      ScalarSeries(m, l);
    }
  }

  /** The series of a metric are stored under their printed labels, so a line, which shows these and its
      key, belongs to one series only, whatever the label values. */
  lemma HistogramLinesUnique(m: Metric, k: string, i: nat, l: string, j: nat)
    requires m.Valid() && Separable(m) && m.metricType == Histogram && k in m.samples.M && l in m.samples.M
    requires i < |SeriesLines(m.samples.M[k].value)| && j < |SeriesLines(m.samples.M[l].value)|
    requires SeriesLines(m.samples.M[k].value)[i].id == SeriesLines(m.samples.M[l].value)[j].id
    ensures k == l && i == j
  {
    hide Metric.Valid, LineId, LineKeys, LValue, SeriesLines, Ascending, Printer, UnsharedKeys, PlainKeys;
    var b := m.buckets.value;
    StoredLine(m, k, 0);
    StoredLine(m, l, 0);
    StoredLine(m, k, i);
    StoredLine(m, l, j);
    LineKeysPlain(b, m.formatter.number);
    LineDetermines(m.name, m.labelKeys, m.samples.M[k].value.histogram.labelValues,
                   m.samples.M[l].value.histogram.labelValues, LineKeys(b)[i], LineKeys(b)[j]);
    LineKeysUnshared(b);
  }

  lemma SeparableLinesUnique(m: Metric)
    requires m.Valid() && Separable(m)
    ensures Listed(m.samples.M, m.samples.T.keys, m.held)
    ensures DistinctIds(LinesOf(m.samples.M, m.samples.T.keys, m.held))
  {
    hide Metric.Valid, Separable, LinesOf, Listed;
    MetricSeries(m);
    var ks := m.samples.T.keys;
    LinesOfUnique(m, |ks|);
    assert ks[..|ks|] == ks;
  }

  /** Buckets that share a key repeat their line in every series. */
  lemma SharedKeyRepeats(m: Metric, i: nat, j: nat)
    requires m.Valid() && m.metricType == Histogram && m.HasBuckets() && m.samples.M != map[]
    requires i < j < |m.buckets.value.keys| && m.buckets.value.keys[i] == m.buckets.value.keys[j]
    ensures Listed(m.samples.M, m.samples.T.keys, m.held)
    ensures !DistinctIds(LinesOf(m.samples.M, m.samples.T.keys, m.held))
  {
    hide Metric.Valid, LineId, SeriesLines, Ascending, Printer, Objects, Listed, LinesOf;
    MetricSeries(m);
    var stored, ks := m.samples.M, m.samples.T.keys;
    var any :| any in stored;
    var last := |ks| - 1;
    StoredLine(m, ks[last], i);
    StoredLine(m, ks[last], j);
    LinesOfOneMore(stored, ks, m.held, last);
    assert ks[..last + 1] == ks;
    RepeatedLine(LinesOf(stored, ks[..last], m.held), SeriesLines(stored[ks[last]].value), i, j);
  }

  lemma RepeatedLine(front: seq<Line>, lines: seq<Line>, i: nat, j: nat)
    requires i < j < |lines| && lines[i].id == lines[j].id
    ensures !DistinctIds(front + lines)
  {
    var s := front + lines;
    assert s[|front| + i].id == s[|front| + j].id;
  }

  lemma NothingListed(m: Metric)
    requires m.Valid() && m.samples.M == map[]
    ensures Listed(m.samples.M, m.samples.T.keys, m.held) && LinesOf(m.samples.M, m.samples.T.keys, m.held) == []
  {
    hide Metric.Valid, Listed;
    MetricSeries(m);
    assert forall k :: k !in m.samples.T.keys;
    assert m.samples.T.keys == [];
  }

  /** In the text of a histogram metric every line has its own name and labels, exactly if no two of
      its buckets share a key or it has no series yet. */
  lemma HistogramLinesExactly(m: Metric)
    requires m.Valid() && m.metricType == Histogram && m.HasBuckets()
    ensures Listed(m.samples.M, m.samples.T.keys, m.held)
    ensures DistinctIds(LinesOf(m.samples.M, m.samples.T.keys, m.held))
            <==> m.samples.M == map[] || UnsharedKeys(m.buckets.value)
  {
    hide Metric.Valid, Metric.HasBuckets, LinesOf, Listed;
    m.HasHistograms();
    if m.samples.M == map[] {
      NothingListed(m);
    } else if UnsharedKeys(m.buckets.value) {
      SeparableLinesUnique(m);
    } else {
      var i, j :| 0 <= i < j < |m.buckets.value.keys| && m.buckets.value.keys[i] == m.buckets.value.keys[j];
      SharedKeyRepeats(m, i, j);
    }
  }

  /** The uniqueness rule for one metric: it always holds for metrics other than histograms; a histogram
      metric with series meets it exactly if the bounds that the constructor accepted ascend strictly. */
  lemma MetricLinesUnique(m: Metric)
    requires m.Valid()
    requires m.metricType == Histogram ==> m.HasBuckets() && TellsApart(m.formatter.number, m.buckets.value.bounds)
    ensures Listed(m.samples.M, m.samples.T.keys, m.held)
    ensures DistinctIds(LinesOf(m.samples.M, m.samples.T.keys, m.held))
            <==> (m.metricType == Histogram && m.samples.M != map[] ==> StrictlyAscending(m.buckets.value.bounds))
  {
    hide Metric.Valid, LinesOf, Listed, StrictlyAscending, Ascending, TellsApart, Printer, DistinctIds;
    if m.metricType == Histogram {
      HistogramLinesExactly(m);
      KeysDistinct(m.buckets.value, m.formatter.number);
    } else {
      SeparableLinesUnique(m);
    }
  }

  lemma PrintsOne()
    ensures Printer(_ => "1")
  {
  }

  /** The accepted bounds 1.0 and 1.0 repeat a line from the first series on. */
  method EqualBoundsRepeat(name: string, labelValues: seq<string>) returns (m: Metric)
    ensures m.Valid() && m.buckets == Some(EQUAL_BOUNDS) && Listed(m.samples.M, m.samples.T.keys, m.held)
    ensures !DistinctIds(LinesOf(m.samples.M, m.samples.T.keys, m.held))
  {
    hide Metric.Valid, Metric.HasBuckets, LinesOf, Listed, DistinctIds, PromMap.Valid, LValue, Buckets.Keyed, Ascending,
         Printer, BucketValue, CountLe, PlainKeys;
    EqualBoundsDouble();
    PrintsOne();
    var r := NewHistogramMetric(_ => "1", name, None, Some(EQUAL_BOUNDS), []);
    m := r.metric;
    var h := m.HistogramFromLabels(labelValues);
    SharedKeyRepeats(m, 0, 1);
  }

  /** The line is one of the series stored under one of the keys. */
  ghost predicate FromSeries(m: map<string, Option<Series>>, ks: seq<string>, objects: set<object>, line: Line)
    requires Listed(m, ks, objects)
    reads objects
  {
    exists i :: 0 <= i < |ks| && line in SeriesLines(m[ks[i]].value)
  }

  lemma {:induction false} LinesFromSeries(m: Metric, n: nat)
    requires m.Valid() && n <= |m.samples.T.keys|
    ensures var ks := m.samples.T.keys[..n];
            && Listed(m.samples.M, ks, m.held)
            && forall line :: line in LinesOf(m.samples.M, ks, m.held) ==> FromSeries(m.samples.M, ks, m.held, line)
  {
    hide Metric.Valid, LinesOf, SeriesLines, Objects;
    MetricSeries(m);
    var stored, ks := m.samples.M, m.samples.T.keys;
    if n == 0 {
      NoneListed(stored, ks, m.held);
    } else {
      LinesFromSeries(m, n - 1);
      LinesOfOneMore(stored, ks, m.held, n - 1);
      forall line | line in LinesOf(stored, ks[..n], m.held) ensures FromSeries(stored, ks[..n], m.held, line) {
        if line in LinesOf(stored, ks[..n - 1], m.held) {
          var i :| 0 <= i < n - 1 && line in SeriesLines(stored[ks[..n - 1][i]].value);
          assert line in SeriesLines(stored[ks[..n][i]].value);
        } else {
          assert line in SeriesLines(stored[ks[..n][n - 1]].value);
        }
      }
    }
  }

  lemma {:induction false} LinesOfUnique(m: Metric, n: nat)
    requires m.Valid() && Separable(m) && n <= |m.samples.T.keys|
    ensures Listed(m.samples.M, m.samples.T.keys[..n], m.held)
    ensures DistinctIds(LinesOf(m.samples.M, m.samples.T.keys[..n], m.held))
  {
    hide Metric.Valid, Separable, LinesOf, SeriesLines, Objects;
    MetricSeries(m);
    var stored, ks := m.samples.M, m.samples.T.keys;
    if n == 0 {
      NoneListed(stored, ks, m.held);
    } else {
      LinesOfUnique(m, n - 1);
      LinesFromSeries(m, n - 1);
      LinesOfOneMore(stored, ks, m.held, n - 1);
      var front := LinesOf(stored, ks[..n - 1], m.held);
      OneSeriesUnique(m, ks[n - 1]);
      forall x, y | x in front && y in SeriesLines(stored[ks[n - 1]].value) ensures x.id != y.id {
        var i :| 0 <= i < n - 1 && x in SeriesLines(stored[ks[..n - 1][i]].value);
        if x.id == y.id {
          SameLineSameSeries(m, ks[i], x, ks[n - 1], y);
        }
      }
      JoinDistinct(front, SeriesLines(stored[ks[n - 1]].value));
    }
  }

  lemma OneSeriesUnique(m: Metric, key: string)
    requires m.Valid() && Separable(m) && key in m.samples.M && m.samples.M[key].Some?
    ensures DistinctIds(SeriesLines(m.samples.M[key].value))
  {
    hide Metric.Valid, Separable, SeriesLines, Objects;
    var lines := SeriesLines(m.samples.M[key].value);
    forall p, q | 0 <= p < q < |lines| ensures lines[p].id != lines[q].id {
      if lines[p].id == lines[q].id {
        SeriesLinesUnique(m, key, p, key, q);
      }
    }
  }

  lemma SameLineSameSeries(m: Metric, k: string, x: Line, l: string, y: Line)
    requires m.Valid() && Separable(m) && k in m.samples.M && l in m.samples.M
    requires m.samples.M[k].Some? && m.samples.M[l].Some?
    requires x in SeriesLines(m.samples.M[k].value) && y in SeriesLines(m.samples.M[l].value) && x.id == y.id
    ensures k == l
  {
    hide Metric.Valid, Separable, SeriesLines, Objects;
    var a, b := SeriesLines(m.samples.M[k].value), SeriesLines(m.samples.M[l].value);
    var i :| 0 <= i < |a| && a[i] == x;
    var j :| 0 <= j < |b| && b[j] == y;
    SeriesLinesUnique(m, k, i, l, j);
  }

  lemma JoinDistinct(a: seq<Line>, b: seq<Line>)
    requires DistinctIds(a) && DistinctIds(b) && forall x, y :: x in a && y in b ==> x.id != y.id
    ensures DistinctIds(a + b)
  {
  }

  // ----- A whole scrape -----

  /** The names that the lines of a metric carry. */
  function LineNames(metricType: MetricType, name: string): set<string> {
    if metricType == Histogram
    then {FullName(name, Some("bucket")), FullName(name, Some("count")), FullName(name, Some("sum"))}
    else {name}
  }

  /** The name at the head of an identity. */
  function NameOf(id: string): string {
    id[..IndexOf(id, '{')]
  }

  lemma NameOfPrinted(id: Identity)
    requires '{' !in id.name
    ensures NameOf(Print(id)) == id.name
  {
    hide PrintLabels;
    if id.labels == [] {
      BeforeFirst(id.name, '{');
      assert id.name[..|id.name|] == id.name;
    } else {
      IndexOfAt(id.name, '{', PrintLabels(id.labels) + "}");
      assert Print(id) == id.name + ['{'] + (PrintLabels(id.labels) + "}");
    }
  }

  lemma NameOfLValue(name: string, suffix: Option<string>, keys: seq<string>, values: seq<string>)
    requires |keys| <= |values| && '{' !in FullName(name, suffix)
    ensures NameOf(LValue(name, suffix, keys, values)) == FullName(name, suffix)
  {
    NameOfPrinted(Identity(FullName(name, suffix), Labels(keys, values)));
  }

  lemma NameOfLine(name: string, labelKeys: seq<string>, v: seq<string>, key: string)
    requires |labelKeys| <= |v| && '{' !in name
    ensures NameOf(LineId(name, labelKeys, v, key)) in LineNames(Histogram, name)
  {
    hide LValue, NameOf;
    if key == "count" || key == "sum" {
      NoBrace(name, key);
      NameOfLValue(name, Some(key), labelKeys, v);
    } else {
      NoBrace(name, "bucket");
      NameOfLValue(name, Some("bucket"), labelKeys + ["le"], v[..|labelKeys|] + [key]);
    }
  }

  /** The metric can be printed, and its name has no brace. */
  ghost predicate Named(m: Metric)
    reads m, m.Repr, m.held
  {
    m.Valid() && (m.metricType == Histogram ==> m.HasBuckets()) && '{' !in m.name
  }

  lemma SeriesLineName(m: Metric, key: string, line: Line)
    requires Named(m) && key in m.samples.M && m.samples.M[key].Some? && line in SeriesLines(m.samples.M[key].value)
    ensures NameOf(line.id) in LineNames(m.metricType, m.name)
  {
    hide Metric.Valid, Metric.HasBuckets, SeriesLines, LineId, LValue, NameOf;
    var lines := SeriesLines(m.samples.M[key].value);
    var i :| 0 <= i < |lines| && lines[i] == line;
    if m.metricType == Histogram {
      HistogramLineName(m, key, i);
    } else {
      ScalarSeries(m, key);
      var labelValues := ScalarKey(m, key);
      NameOfLValue(m.name, None, m.labelKeys, labelValues);
    }
  }

  /** The label values whose identity a stored sample has. */
  lemma ScalarKey(m: Metric, key: string) returns (labelValues: seq<string>)
    requires m.Valid() && m.metricType != Histogram && key in m.samples.M
    ensures |m.labelKeys| <= |labelValues| && key == LValue(m.name, None, m.labelKeys, labelValues)
  {
    hide PromMap.Valid, Formatter.Valid, Formatter.Text, LValue;
    labelValues :| |m.labelKeys| <= |labelValues| && key == m.Key(labelValues);
  }

  lemma HistogramLineName(m: Metric, key: string, i: nat)
    requires Named(m) && m.metricType == Histogram && key in m.samples.M && m.samples.M[key].Some?
    requires i < |SeriesLines(m.samples.M[key].value)|
    ensures NameOf(SeriesLines(m.samples.M[key].value)[i].id) in LineNames(Histogram, m.name)
  {
    hide Metric.Valid, SeriesLines, LineId, LValue, NameOf, LineKeys, LineNames;
    StoredLine(m, key, 0);
    StoredLine(m, key, i);
    NameOfLine(m.name, m.labelKeys, m.samples.M[key].value.histogram.labelValues, LineKeys(m.buckets.value)[i]);
  }

  lemma LineHasName(m: Metric, line: Line)
    requires Named(m) && Listed(m.samples.M, m.samples.T.keys, m.held)
    requires line in LinesOf(m.samples.M, m.samples.T.keys, m.held)
    ensures NameOf(line.id) in LineNames(m.metricType, m.name)
  {
    hide Metric.Valid, Metric.HasBuckets, LinesOf, SeriesLines, Objects, NameOf, LineNames;
    MetricSeries(m);
    var ks := m.samples.T.keys;
    assert ks[..|ks|] == ks;
    LinesFromSeries(m, |ks|);
    var i :| 0 <= i < |ks| && line in SeriesLines(m.samples.M[ks[i]].value);
    SeriesLineName(m, ks[i], line);
  }

  /** The text and the lines of a list of metrics. */
  ghost predicate Printable(ms: seq<Metric>, region: set<object>)
    reads region
  {
    forall i :: 0 <= i < |ms| ==> ms[i] in region && MetricObjects(ms[i]) <= region && ms[i].Valid()
  }

  ghost function TextsOf(ms: seq<Metric>, region: set<object>,
                         number: real -> string, prefix: Option<string>, compact: bool): string
    requires Printable(ms, region)
    reads region
  {
    if ms == [] then ""
    else
      var last := ms[|ms| - 1];
      MetricSeries(last);
      TextsOf(ms[..|ms| - 1], region, number, prefix, compact) + MetricText(last, number, prefix, compact)
  }

  ghost function AllLines(ms: seq<Metric>, region: set<object>): seq<Line>
    requires Printable(ms, region)
    reads region
  {
    if ms == [] then []
    else
      var last := ms[|ms| - 1];
      MetricSeries(last);
      AllLines(ms[..|ms| - 1], region) + LinesOf(last.samples.M, last.samples.T.keys, last.held)
  }

  lemma LastMetric(ms: seq<Metric>, region: set<object>)
    requires Printable(ms, region) && ms != []
    ensures var last := ms[|ms| - 1];
            && Printable(ms[..|ms| - 1], region) && last.Valid()
            && Listed(last.samples.M, last.samples.T.keys, last.held)
            && AllLines(ms, region)
               == AllLines(ms[..|ms| - 1], region) + LinesOf(last.samples.M, last.samples.T.keys, last.held)
  {
    hide Metric.Valid, Listed, LinesOf;
    MetricSeries(ms[|ms| - 1]);
  }

  /** No two metrics have lines of the same name. */
  ghost predicate NamesApart(ms: seq<Metric>) {
    forall i, j :: 0 <= i < j < |ms| ==>
      LineNames(ms[i].metricType, ms[i].name) !! LineNames(ms[j].metricType, ms[j].name)
  }

  ghost predicate AllNamed(ms: seq<Metric>, region: set<object>)
    requires Printable(ms, region)
    reads region
  {
    forall i :: 0 <= i < |ms| ==> Named(ms[i])
  }

  /** Every metric by itself meets the uniqueness rule. */
  ghost predicate EachUnique(ms: seq<Metric>, region: set<object>)
    requires Printable(ms, region)
    reads region
  {
    forall i :: 0 <= i < |ms| ==>
      && Listed(ms[i].samples.M, ms[i].samples.T.keys, ms[i].held)
      && DistinctIds(LinesOf(ms[i].samples.M, ms[i].samples.T.keys, ms[i].held))
  }

  lemma {:induction false} AllLinesNamed(ms: seq<Metric>, region: set<object>, line: Line)
    requires Printable(ms, region) && AllNamed(ms, region) && line in AllLines(ms, region)
    ensures exists i :: 0 <= i < |ms| && NameOf(line.id) in LineNames(ms[i].metricType, ms[i].name)
  {
    hide Named, NameOf, LineNames, LinesOf, Listed, Metric.Valid;
    var n := |ms| - 1;
    LastMetric(ms, region);
    if line in AllLines(ms[..n], region) {
      AllLinesNamed(ms[..n], region, line);
      var i :| 0 <= i < n && NameOf(line.id) in LineNames(ms[..n][i].metricType, ms[..n][i].name);
      assert NameOf(line.id) in LineNames(ms[i].metricType, ms[i].name);
    } else {
      LineHasName(ms[n], line);
    }
  }

  /** The uniqueness rule for all lines of a scrape: if no two metrics have lines of the same name, it
      holds exactly if it holds for each metric by itself. */
  lemma {:induction false} AllLinesUnique(ms: seq<Metric>, region: set<object>)
    requires Printable(ms, region) && AllNamed(ms, region) && NamesApart(ms)
    ensures DistinctIds(AllLines(ms, region)) <==> EachUnique(ms, region)
  {
    hide Named, NameOf, LineNames, LinesOf, Listed, Metric.Valid;
    if ms != [] {
      var n := |ms| - 1;
      LastMetric(ms, region);
      AllLinesUnique(ms[..n], region);
      var front, last := AllLines(ms[..n], region), LinesOf(ms[n].samples.M, ms[n].samples.T.keys, ms[n].held);
      forall x, y | x in front && y in last ensures x.id != y.id {
        AllLinesNamed(ms[..n], region, x);
        LineHasName(ms[n], y);
      }
      JoinExactly(front, last);
      LastUnique(ms, region);
    }
  }

  lemma JoinExactly(a: seq<Line>, b: seq<Line>)
    requires forall x, y :: x in a && y in b ==> x.id != y.id
    ensures DistinctIds(a + b) <==> DistinctIds(a) && DistinctIds(b)
  {
    var s := a + b;
    if DistinctIds(s) {
      assert forall p :: 0 <= p < |a| ==> a[p] == s[p];
      assert forall p :: 0 <= p < |b| ==> b[p] == s[|a| + p];
    }
  }

  lemma LastUnique(ms: seq<Metric>, region: set<object>)
    requires Printable(ms, region) && ms != [] && Printable(ms[..|ms| - 1], region)
    ensures var last := ms[|ms| - 1];
            EachUnique(ms, region)
            <==> && EachUnique(ms[..|ms| - 1], region)
                 && Listed(last.samples.M, last.samples.T.keys, last.held)
                 && DistinctIds(LinesOf(last.samples.M, last.samples.T.keys, last.held))
  {
    hide Metric.Valid, Listed, LinesOf, DistinctIds;
    var n := |ms| - 1;
    assert forall i :: 0 <= i < n ==> ms[..n][i] == ms[i];
  }

  /** The metrics of one collector, and of all, in printing order. */
  ghost function CollectorMetrics(m: map<string, Option<Metric>>, ks: seq<string>, region: set<object>)
    : (ms: seq<Metric>)
    requires MetricsListed(m, ks, region)
    reads region
    ensures Printable(ms, region) && |ms| == |ks| && forall i :: 0 <= i < |ks| ==> m[ks[i]] == Some(ms[i])
  {
    seq(|ks|, i requires 0 <= i < |ks| && MetricsListed(m, ks, region) reads region => m[ks[i]].value)
  }

  ghost function OwnMetrics(c: Collector, region: set<object>): (ms: seq<Metric>)
    requires CollectorListed(c, region)
    reads region
    ensures Printable(ms, region)
  {
    CollectorMetrics(c.metrics.M, c.metrics.T.keys, region)
  }

  ghost function ScrapeMetrics(cs: map<string, Option<Collector>>, ks: seq<string>, region: set<object>): seq<Metric>
    requires CollectorsListed(cs, ks, region)
    reads region
  {
    if ks == [] then []
    else ScrapeMetrics(cs, ks[..|ks| - 1], region) + OwnMetrics(CollectorAt(cs, ks, region, |ks| - 1), region)
  }

  /** How many metrics the first i collectors have. */
  ghost function Before(cs: map<string, Option<Collector>>, ks: seq<string>, region: set<object>, i: nat): nat
    requires CollectorsListed(cs, ks, region) && i <= |ks|
    reads region
  {
    if i == 0 then 0
    else Before(cs, ks, region, i - 1) + |CollectorAt(cs, ks, region, i - 1).metrics.T.keys|
  }

  lemma {:induction false} MetricsPrinted(cs: map<string, Option<Collector>>, ks: seq<string>, region: set<object>)
    requires CollectorsListed(cs, ks, region)
    ensures |ScrapeMetrics(cs, ks, region)| == Before(cs, ks, region, |ks|)
  {
    hide CollectorListed, OwnMetrics;
    if ks != [] {
      var n := |ks| - 1;
      MetricsPrinted(cs, ks[..n], region);
      BeforePrefix(cs, ks, region, n, n);
      OwnMetricsAt(cs[ks[n]].value, region);
    }
  }

  /** Metric j of collector i is printed at its place: collectors in key order, and within one its
      metrics in key order. Nothing else is printed. */
  lemma {:induction false} EveryMetricPrinted(cs: map<string, Option<Collector>>, ks: seq<string>, region: set<object>,
                                              i: nat, j: nat)
    requires CollectorsListed(cs, ks, region) && i < |ks| && j < |cs[ks[i]].value.metrics.T.keys|
    ensures |ScrapeMetrics(cs, ks, region)| == Before(cs, ks, region, |ks|)
    ensures Before(cs, ks, region, i) + j < Before(cs, ks, region, |ks|)
    ensures var m := cs[ks[i]].value.metrics;
            && m.T.keys[j] in m.M
            && m.M[m.T.keys[j]] == Some(ScrapeMetrics(cs, ks, region)[Before(cs, ks, region, i) + j])
    decreases |ks|
  {
    hide CollectorListed, OwnMetrics, ScrapeMetrics, Before;
    var n := |ks| - 1;
    SizesPrinted(cs, ks, region);
    if i < n {
      assert ks[..n][i] == ks[i];
      EveryMetricPrinted(cs, ks[..n], region, i, j);
      BeforePrefix(cs, ks, region, n, i);
    } else {
      LastPrinted(cs, ks, region, j);
    }
  }

  /** The last collector's metrics come behind those of the others. */
  lemma SizesPrinted(cs: map<string, Option<Collector>>, ks: seq<string>, region: set<object>)
    requires CollectorsListed(cs, ks, region) && ks != []
    ensures var n, all := |ks| - 1, ScrapeMetrics(cs, ks, region);
            && |all| == Before(cs, ks, region, n + 1)
            && |all| == Before(cs, ks, region, n) + |cs[ks[n]].value.metrics.T.keys|
            && CollectorsListed(cs, ks[..n], region)
            && Before(cs, ks, region, n) == Before(cs, ks[..n], region, n)
            && all[..Before(cs, ks, region, n)] == ScrapeMetrics(cs, ks[..n], region)
  {
    hide CollectorListed, OwnMetrics;
    var n := |ks| - 1;
    MetricsPrinted(cs, ks, region);
    MetricsPrinted(cs, ks[..n], region);
    BeforePrefix(cs, ks, region, n, n);
  }

  lemma LastPrinted(cs: map<string, Option<Collector>>, ks: seq<string>, region: set<object>, j: nat)
    requires CollectorsListed(cs, ks, region) && ks != [] && j < |cs[ks[|ks| - 1]].value.metrics.T.keys|
    requires |ScrapeMetrics(cs, ks, region)|
             == Before(cs, ks, region, |ks| - 1) + |cs[ks[|ks| - 1]].value.metrics.T.keys|
    ensures var m := cs[ks[|ks| - 1]].value.metrics;
            && m.T.keys[j] in m.M
            && m.M[m.T.keys[j]] == Some(ScrapeMetrics(cs, ks, region)[Before(cs, ks, region, |ks| - 1) + j])
  {
    hide CollectorListed, OwnMetrics, Before;
    OwnMetricsAt(cs[ks[|ks| - 1]].value, region);
  }

  lemma {:induction false} BeforePrefix(cs: map<string, Option<Collector>>, ks: seq<string>, region: set<object>,
                                        n: nat, i: nat)
    requires CollectorsListed(cs, ks, region) && i <= n <= |ks|
    ensures CollectorsListed(cs, ks[..n], region) && Before(cs, ks[..n], region, i) == Before(cs, ks, region, i)
  {
    hide CollectorListed;
    if i > 0 {
      BeforePrefix(cs, ks, region, n, i - 1);
    }
  }

  lemma OwnMetricsAt(c: Collector, region: set<object>)
    requires CollectorListed(c, region)
    ensures |OwnMetrics(c, region)| == |c.metrics.T.keys|
    ensures forall j :: 0 <= j < |c.metrics.T.keys| ==>
              c.metrics.T.keys[j] in c.metrics.M && c.metrics.M[c.metrics.T.keys[j]] == Some(OwnMetrics(c, region)[j])
  {
    hide PromMap.Valid, Metric.Valid;
  }

  lemma LastText(ms: seq<Metric>, region: set<object>, number: real -> string, prefix: Option<string>, compact: bool)
    requires Printable(ms, region) && ms != []
    ensures var last := ms[|ms| - 1];
            && Printable(ms[..|ms| - 1], region) && last.Valid()
            && Listed(last.samples.M, last.samples.T.keys, last.held)
            && TextsOf(ms, region, number, prefix, compact)
               == TextsOf(ms[..|ms| - 1], region, number, prefix, compact) + MetricText(last, number, prefix, compact)
  {
    hide Metric.Valid, Listed, MetricText;
    MetricSeries(ms[|ms| - 1]);
  }

  lemma {:induction false} TextsOfConcat(a: seq<Metric>, b: seq<Metric>, region: set<object>,
                                         number: real -> string, prefix: Option<string>, compact: bool)
    requires Printable(a, region) && Printable(b, region)
    ensures Printable(a + b, region)
    ensures TextsOf(a + b, region, number, prefix, compact)
            == TextsOf(a, region, number, prefix, compact) + TextsOf(b, region, number, prefix, compact)
  {
    hide Metric.Valid, MetricText, Listed;
    if b == [] {
      assert a + b == a;
    } else {
      var front := b[..|b| - 1];
      LastText(b, region, number, prefix, compact);
      TextsOfConcat(a, front, region, number, prefix, compact);
      assert (a + b)[..|a + b| - 1] == a + front;
      LastText(a + b, region, number, prefix, compact);
    }
  }

  lemma {:induction false} MetricsTextIs(m: map<string, Option<Metric>>, ks: seq<string>, region: set<object>,
                                         number: real -> string, prefix: Option<string>, compact: bool)
    requires MetricsListed(m, ks, region)
    ensures MetricsText(m, ks, region, number, prefix, compact)
            == TextsOf(CollectorMetrics(m, ks, region), region, number, prefix, compact)
  {
    hide Metric.Valid, MetricText, Listed, TextsOf;
    var ms := CollectorMetrics(m, ks, region);
    if ks == [] {
      NoTexts(ms, region, number, prefix, compact);
    } else {
      var n := |ks| - 1;
      MetricsTextOneMore(m, ks, region, n, number, prefix, compact);
      assert ks[..n + 1] == ks;
      MetricsTextIs(m, ks[..n], region, number, prefix, compact);
      assert CollectorMetrics(m, ks[..n], region) == ms[..n];
      LastText(ms, region, number, prefix, compact);
    }
  }

  lemma NoTexts(ms: seq<Metric>, region: set<object>, number: real -> string, prefix: Option<string>, compact: bool)
    requires ms == []
    ensures Printable(ms, region) && TextsOf(ms, region, number, prefix, compact) == ""
  {
  }

  /** The text of a scrape is that of its metrics, one after the other. */
  lemma {:induction false} RegistryTextIs(cs: map<string, Option<Collector>>, ks: seq<string>, region: set<object>,
                                          number: real -> string, prefix: Option<string>, compact: bool)
    requires CollectorsListed(cs, ks, region)
    ensures Printable(ScrapeMetrics(cs, ks, region), region)
    ensures RegistryText(cs, ks, region, number, prefix, compact)
            == TextsOf(ScrapeMetrics(cs, ks, region), region, number, prefix, compact)
  {
    hide CollectorListed, CollectorText, OwnMetrics, TextsOf, Printable;
    if ks == [] {
      NoTexts([], region, number, prefix, compact);
    } else {
      var n := |ks| - 1;
      RegistryTextOneMore(cs, ks, region, n, number, prefix, compact);
      assert ks[..n + 1] == ks;
      RegistryTextIs(cs, ks[..n], region, number, prefix, compact);
      var c := CollectorAt(cs, ks, region, n);
      CollectorTextIs(c, region, number, prefix, compact);
      TextsOfConcat(ScrapeMetrics(cs, ks[..n], region), OwnMetrics(c, region), region, number, prefix, compact);
    }
  }

  lemma CollectorTextIs(c: Collector, region: set<object>,
                        number: real -> string, prefix: Option<string>, compact: bool)
    requires CollectorListed(c, region)
    ensures CollectorText(c, region, number, prefix, compact)
            == TextsOf(OwnMetrics(c, region), region, number, prefix, compact)
  {
    hide MetricsText, MetricsListed, TextsOf, CollectorMetrics;
    MetricsTextIs(c.metrics.M, c.metrics.T.keys, region, number, prefix, compact);
  }

  /** Names that are not apart do collide: a histogram `x` and a metric `x_count` of the same labels
      have a line of the same name and labels once both have a series for the same label values. */
  lemma CountNameCollides(a: Metric, k: string, b: Metric)
    requires a.Valid() && b.Valid() && a.metricType == Histogram && a.HasBuckets() && b.metricType != Histogram
    requires b.name == FullName(a.name, Some("count")) && b.labelKeys == a.labelKeys && k in a.samples.M
    requires a.samples.M[k].Some? && a.samples.M[k].value.Dist?
    requires var v := a.samples.M[k].value.histogram.labelValues; |b.labelKeys| <= |v| && b.Key(v) in b.samples.M
    ensures var l := b.Key(a.samples.M[k].value.histogram.labelValues);
            && b.samples.M[l].Some?
            && var x, y := SeriesLines(a.samples.M[k].value), SeriesLines(b.samples.M[l].value);
               exists i, j :: 0 <= i < |x| && 0 <= j < |y| && x[i].id == y[j].id
  {
    hide Metric.Valid, SeriesLines, PrintLabels, Labels;
    var v, n := a.samples.M[k].value.histogram.labelValues, |a.buckets.value.keys|;
    StoredLine(a, k, n + 1);
    ScalarSeries(b, b.Key(v));
    assert LineKeys(a.buckets.value)[n + 1] == "count";
    assert SeriesLines(a.samples.M[k].value)[n + 1].id == SeriesLines(b.samples.M[b.Key(v)].value)[0].id;
  }

  /** Two metrics of one name, as two collectors may hold, have a line in common once both have a sample
      under the same key. */
  lemma SameNameCollides(a: Metric, b: Metric, key: string)
    requires a.Valid() && b.Valid() && a.metricType != Histogram && b.metricType != Histogram
    requires key in a.samples.M && key in b.samples.M
    ensures a.samples.M[key].Some? && b.samples.M[key].Some?
    ensures var x, y := SeriesLines(a.samples.M[key].value), SeriesLines(b.samples.M[key].value);
            |x| == |y| == 1 && x[0].id == y[0].id
  {
    hide Metric.Valid, SeriesLines;
    ScalarSeries(a, key);
    ScalarSeries(b, key);
  }
}
