/**
  Collectors, and the text of a scrape (lib/prom/src/prom_collector.c and
  lib/prom/src/prom_metric_formatter.c, lines 179 to 276).
  */
module Exposition {
  import opened Prelude
  import opened LValues
  import opened Tables
  import opened LinkedLists
  import opened Maps
  import opened Formatters
  import opened HistogramSpec
  import opened Histograms
  import opened Metrics

  datatype Line = Line(id: string, value: real)

  // ----- The specified text -----

  function LinesText(number: real -> string, prefix: Option<string>, lines: seq<Line>): string {
    if lines == [] then ""
    else
      var last := lines[|lines| - 1];
      LinesText(number, prefix, lines[..|lines| - 1]) + SampleText(number, prefix, last.id, last.value)
  }

  lemma {:induction false} LinesTextConcat(number: real -> string, prefix: Option<string>, a: seq<Line>, b: seq<Line>)
    ensures LinesText(number, prefix, a + b) == LinesText(number, prefix, a) + LinesText(number, prefix, b)
  {
    hide SampleText;
    if b == [] {
      assert a + b == a;
    } else {
      LinesTextConcat(number, prefix, a, b[..|b| - 1]);
      assert (a + b)[..|a + b| - 1] == a + b[..|b| - 1];
    }
  }

  lemma LinesTextOne(number: real -> string, prefix: Option<string>, l: Line)
    ensures LinesText(number, prefix, [l]) == SampleText(number, prefix, l.id, l.value)
  {
    hide SampleText;
    assert [l][..0] == [];
  }

  /** The lines of one series: its sample, or the histogram's lines in printing order. */
  ghost function SeriesLines(s: Series): seq<Line>
    reads Objects(s)
  {
    match s
    case Scalar(sample) => [Line(sample.lValue, sample.rValue)]
    case Dist(h) =>
      seq(|h.slots|, i requires 0 <= i < |h.slots| reads Objects(s) => Line(h.slots[i].lValue, h.slots[i].rValue))
  }

  /** Every key names a series among the objects. */
  ghost predicate Listed(m: map<string, Option<Series>>, ks: seq<string>, objects: set<object>)
    reads objects
  {
    forall i :: 0 <= i < |ks| ==>
      && ks[i] in m && m[ks[i]].Some?
      && (m[ks[i]].value.Dist? ==> m[ks[i]].value.histogram in objects)
      && Objects(m[ks[i]].value) <= objects
  }

  /** The lines of the series in key order. */
  ghost function LinesOf(m: map<string, Option<Series>>, ks: seq<string>, objects: set<object>): seq<Line>
    requires Listed(m, ks, objects)
    reads objects
  {
    if ks == [] then []
    else
      assert ks[|ks| - 1] in m;
      LinesOf(m, ks[..|ks| - 1], objects) + SeriesLines(m[ks[|ks| - 1]].value)
  }

  lemma LinesOfOneMore(m: map<string, Option<Series>>, ks: seq<string>, objects: set<object>, i: nat)
    requires Listed(m, ks, objects) && i < |ks|
    ensures Listed(m, ks[..i], objects) && Listed(m, ks[..i + 1], objects)
    ensures LinesOf(m, ks[..i + 1], objects) == LinesOf(m, ks[..i], objects) + SeriesLines(m[ks[i]].value)
  {
    hide SeriesLines, Objects;
    assert ks[..i + 1][..i] == ks[..i];
  }

  // ----- Printing -----

  /** The objects a formatter writes to. */
  ghost function Sink(f: Formatter): set<object>
    reads f.builder
  {
    {f, f.builder, f.builder.str}
  }

  /** What the scrape needs of a histogram: its list of lines leads to its samples. */
  lemma HistogramLines(h: SampleHistogram)
    requires h.Valid()
    ensures h.lValueList.Valid() && h.samples.Valid() && |h.lValueList.items| == |h.slots|
    ensures h.lValueList in h.Repr && h.lValueList.Repr <= h.Repr && h.samples in h.Repr && h.samples.Repr <= h.Repr
    ensures forall i :: 0 <= i < |h.slots| ==>
              && h.lValueList.items[i] in h.samples.M
              && h.samples.M[h.lValueList.items[i]] == Some(h.slots[i])
              && h.slots[i].lValue == h.lValueList.items[i]
  {
    hide PromMap.Valid, LinkedList.Valid, Formatter.Valid, Formatter.Text, LineIds, LineKeys;
  }

  /** The histogram branch of pmf_load_metric; code 5, a missing sample, is never returned. */
  method LoadHistogram(f: Formatter, h: SampleHistogram, prefix: Option<string>) returns (r: int)
    requires f.Valid() && h.Valid() && Sink(f) !! Objects(Dist(h))
    modifies f.builder, f.builder.str
    ensures f.Valid() && (f.builder.str == old(f.builder.str) || fresh(f.builder.str)) && r == 0
    ensures f.Text() == old(f.Text()) + LinesText(f.number, prefix, SeriesLines(Dist(h)))
  {
    hide SampleHistogram.Valid, PromMap.Valid, LinkedList.Valid, Formatter.Valid, Formatter.Text, LinesText;
    HistogramLines(h);
    ghost var lines, i := SeriesLines(Dist(h)), 0;
    NoLines(f.number, prefix, f.Text());
    var node := h.lValueList.head;
    ListHead(h.lValueList);
    while node != null
      invariant f.Valid() && (f.builder.str == old(f.builder.str) || fresh(f.builder.str))
      invariant 0 <= i <= |lines| && node == h.lValueList.NodeAt(h.lValueList.spine, i)
      invariant f.Text() == old(f.Text()) + LinesText(f.number, prefix, lines[..i])
      decreases |lines| - i
    {
      HistogramLines(h);
      ListNode(h.lValueList, i);
      var sample := h.samples.Get(node.item);
      if sample.None? {
        return 5;
      }
      f.LoadSample(sample.value.lValue, sample.value.rValue, prefix);
      MoreLines(f.number, prefix, old(f.Text()), lines[..i], [lines[i]]);
      LinesTextOne(f.number, prefix, lines[i]);
      assert lines[..i + 1] == lines[..i] + [lines[i]];
      node, i := node.next, i + 1;
    }
    ListEnd(h.lValueList, i);
    assert lines[..i] == lines;
    return 0;
  }

  lemma NoLines(number: real -> string, prefix: Option<string>, base: string)
    ensures base == base + LinesText(number, prefix, [])
  {
  }

  lemma MoreLines(number: real -> string, prefix: Option<string>, base: string, a: seq<Line>, b: seq<Line>)
    ensures base + LinesText(number, prefix, a + b)
            == base + LinesText(number, prefix, a) + LinesText(number, prefix, b)
  {
    hide LinesText;
    LinesTextConcat(number, prefix, a, b);
  }

  lemma ListHead<T>(l: LinkedList<T>)
    requires l.Valid()
    ensures l.head == l.NodeAt(l.spine, 0)
  {
  }

  lemma ListNode<T>(l: LinkedList<T>, i: nat)
    requires l.Valid() && l.NodeAt(l.spine, i) != null
    ensures i < |l.items|
    ensures l.NodeAt(l.spine, i).item == l.items[i] && l.NodeAt(l.spine, i).next == l.NodeAt(l.spine, i + 1)
    ensures l.NodeAt(l.spine, i) in l.Repr
  {
  }

  lemma ListEnd<T>(l: LinkedList<T>, i: nat)
    requires l.Valid() && i <= |l.items| && l.NodeAt(l.spine, i) == null
    ensures i == |l.items|
  {
  }

  /** All objects of a metric. */
  ghost function MetricObjects(m: Metric): set<object>
    reads m
  {
    {m} + m.Repr + m.held
  }

  /** What the scrape needs of a metric: its key list names its series, none of them NULL. */
  lemma MetricSeries(m: Metric)
    requires m.Valid()
    ensures var keys := m.samples.keys;
            && m.samples in m.Repr && m.samples.Repr <= m.Repr && m.samples.Valid()
            && keys.Valid() && keys.items == m.samples.T.keys && keys in m.Repr && keys.Repr <= m.Repr
            && Listed(m.samples.M, m.samples.T.keys, m.held)
            && (forall k :: k in m.samples.T.keys <==> k in m.samples.M)
            && Distinct(m.samples.T.keys)
  {
    hide PromMap.Valid, LinkedList.Valid, Formatter.Valid, Formatter.Text, Metric.SeriesOk, Objects;
    m.samples.KeysListed();
  }

  lemma StoredSeries(m: Metric, key: string)
    requires m.Valid() && key in m.samples.M
    ensures m.samples.M[key].Some?
    ensures var s := m.samples.M[key].value; s.Dist? <==> m.metricType == Histogram
    ensures var s := m.samples.M[key].value; s.Dist? ==> s.histogram.Valid()
    ensures Objects(m.samples.M[key].value) <= m.held
  {
    hide PromMap.Valid, Formatter.Valid, Formatter.Text, Objects, SampleHistogram.Valid;
  }

  ghost function HeaderText(m: Metric, prefix: Option<string>, compact: bool): string {
    if compact then "" else HelpText(prefix, m.name, m.help) + TypeText(prefix, m.name, m.metricType)
  }

  /** The text of one metric: help and type unless compact, its lines in key order, a blank line. */
  ghost function MetricText(m: Metric, number: real -> string, prefix: Option<string>, compact: bool): string
    requires Listed(m.samples.M, m.samples.T.keys, m.held)
    reads m`held, m.samples`M, m.samples`T, m.held
  {
    HeaderText(m, prefix, compact)
    + LinesText(number, prefix, LinesOf(m.samples.M, m.samples.T.keys, m.held))
    + "\n"
  }

  /** The loop of pmf_load_metric over the key list; the codes 4 to 8 are never returned. */
  method LoadAllSeries(f: Formatter, m: Metric, prefix: Option<string>) returns (r: int)
    requires f.Valid() && m.Valid() && Sink(f) !! MetricObjects(m)
    modifies f.builder, f.builder.str
    ensures f.Valid() && (f.builder.str == old(f.builder.str) || fresh(f.builder.str)) && r == 0
    ensures Listed(m.samples.M, m.samples.T.keys, m.held)
    ensures f.Text() == old(f.Text()) + LinesText(f.number, prefix, LinesOf(m.samples.M, m.samples.T.keys, m.held))
  {
    hide Metric.Valid, PromMap.Valid, LinkedList.Valid, SampleHistogram.Valid, Formatter.Valid, Formatter.Text,
         LinesText, LinesOf, Listed, Objects, SeriesLines;
    MetricSeries(m);
    ghost var stored, ks, i := m.samples.M, m.samples.T.keys, 0;
    NoneListed(stored, ks, m.held);
    NoLines(f.number, prefix, f.Text());
    var node := m.samples.keys.head;
    ListHead(m.samples.keys);
    while node != null
      invariant f.Valid() && (f.builder.str == old(f.builder.str) || fresh(f.builder.str))
      invariant 0 <= i <= |ks| && node == m.samples.keys.NodeAt(m.samples.keys.spine, i)
      invariant Listed(stored, ks[..i], m.held)
      invariant f.Text() == old(f.Text()) + LinesText(f.number, prefix, LinesOf(stored, ks[..i], m.held))
      decreases |ks| - i
    {
      MetricSeries(m);
      ListNode(m.samples.keys, i);
      LinesOfOneMore(stored, ks, m.held, i);
      StoredSeries(m, node.item);
      var found := m.samples.Get(node.item);
      r := LoadSeries(f, m.metricType, found, prefix);
      if r != 0 {
        return;
      }
      MoreLines(f.number, prefix, old(f.Text()), LinesOf(stored, ks[..i], m.held), SeriesLines(stored[ks[i]].value));
      node, i := node.next, i + 1;
    }
    ListEnd(m.samples.keys, i);
    assert ks[..i] == ks;
    return 0;
  }

  lemma NoneListed(m: map<string, Option<Series>>, ks: seq<string>, objects: set<object>)
    ensures Listed(m, ks[..0], objects) && LinesOf(m, ks[..0], objects) == []
  {
  }

  /** What pmf_load_metric prints for one key. */
  method LoadSeries(f: Formatter, metricType: MetricType, found: Option<Series>, prefix: Option<string>)
    returns (r: int)
    requires f.Valid() && found.Some? && (found.value.Dist? <==> metricType == Histogram)
    requires found.value.Dist? ==> found.value.histogram.Valid()
    requires Sink(f) !! Objects(found.value)
    modifies f.builder, f.builder.str
    ensures f.Valid() && (f.builder.str == old(f.builder.str) || fresh(f.builder.str)) && r == 0
    ensures f.Text() == old(f.Text()) + LinesText(f.number, prefix, old(SeriesLines(found.value)))
    ensures SeriesLines(found.value) == old(SeriesLines(found.value))
  {
    hide SampleHistogram.Valid, Formatter.Valid, Formatter.Text, LinesText;
    if metricType == Histogram {
      if found.None? {
        return 4;
      }
      r := LoadHistogram(f, found.value.histogram, prefix);
    } else {
      if found.None? {
        return 7;
      }
      var sample := found.value.sample;
      LinesTextOne(f.number, prefix, Line(sample.lValue, sample.rValue));
      f.LoadSample(sample.lValue, sample.rValue, prefix);
      r := 0;
    }
  }

  /** pmf_load_metric. An empty prefix is treated as none. */
  method LoadMetric(f: Formatter, m: Metric, prefix: Option<string>, compact: bool) returns (r: int)
    requires f.Valid() && m.Valid() && Sink(f) !! MetricObjects(m)
    modifies f.builder, f.builder.str
    ensures f.Valid() && (f.builder.str == old(f.builder.str) || fresh(f.builder.str)) && r == 0
    ensures Listed(m.samples.M, m.samples.T.keys, m.held)
    ensures f.Text() == old(f.Text()) + MetricText(m, f.number, prefix, compact)
  {
    hide Metric.Valid, Formatter.Valid, Formatter.Text, LinesText, LinesOf, Listed, HelpText, TypeText,
         HeaderText, MetricText;
    var p := if prefix.Some? && |prefix.value| == 0 then None else prefix;
    ghost var base := f.Text();
    PrefixParts(prefix, p);
    MetricTextJoin(base, m, f.number, prefix, p, compact);
    if !compact {
      f.LoadHelp(p, m.name, m.help);
      f.LoadType(p, m.name, m.metricType);
    }
    ghost var header := HeaderText(m, p, compact);
    assert f.Text() == base + header;
    r := LoadAllSeries(f, m, p);
    if r != 0 {
      return;
    }
    ghost var body := LinesText(f.number, p, LinesOf(m.samples.M, m.samples.T.keys, m.held));
    BodyJoin(base, header, body);
    ghost var printed := f.EmitChar('\n', base, header + body);
  }

  lemma PrefixParts(prefix: Option<string>, p: Option<string>)
    requires p == if prefix.Some? && |prefix.value| == 0 then None else prefix
    ensures p == prefix || (p == None && prefix == Some(""))
  {
  }

  /** The pieces that are printed one after the other make up the metric's text. */
  lemma MetricTextJoin(base: string, m: Metric, number: real -> string, prefix: Option<string>, p: Option<string>,
                       compact: bool)
    requires m.Valid() && (p == prefix || (p == None && prefix == Some("")))
    ensures Listed(m.samples.M, m.samples.T.keys, m.held)
    ensures compact ==> base == base + HeaderText(m, p, compact)
    ensures !compact ==>
              base + HelpText(p, m.name, m.help) + TypeText(p, m.name, m.metricType) == base + HeaderText(m, p, compact)
    ensures MetricText(m, number, prefix, compact)
            == HeaderText(m, p, compact) + LinesText(number, p, LinesOf(m.samples.M, m.samples.T.keys, m.held)) + "\n"
  {
    hide Metric.Valid, LinesText, LinesOf, Listed, HelpText, TypeText;
    EmptyPrefix(number, prefix, m);
    HeaderJoin(base, HelpText(p, m.name, m.help), TypeText(p, m.name, m.metricType));
  }

  lemma HeaderJoin(base: string, a: string, b: string)
    ensures base + a + b == base + (a + b) && base + "" == base
  {
  }

  lemma BodyJoin(base: string, header: string, body: string)
    ensures (base + header) + body == base + (header + body)
    ensures header + body + ['\n'] == header + body + "\n"
  {
  }

  /** Printing without a prefix is printing with an empty one. */
  lemma EmptyPrefix(number: real -> string, prefix: Option<string>, m: Metric)
    requires m.Valid()
    ensures prefix == Some("") ==> HeaderText(m, prefix, true) == HeaderText(m, None, true)
    ensures prefix == Some("") ==> HeaderText(m, prefix, false) == HeaderText(m, None, false)
    ensures Listed(m.samples.M, m.samples.T.keys, m.held)
    ensures prefix == Some("") ==>
              var lines := LinesOf(m.samples.M, m.samples.T.keys, m.held);
              LinesText(number, prefix, lines) == LinesText(number, None, lines)
  {
    hide Metric.Valid, LinesOf, Listed;
    MetricSeries(m);
    EmptyPrefixLines(number, LinesOf(m.samples.M, m.samples.T.keys, m.held));
  }

  lemma {:induction false} EmptyPrefixLines(number: real -> string, lines: seq<Line>)
    ensures LinesText(number, Some(""), lines) == LinesText(number, None, lines)
  {
    if lines != [] {
      EmptyPrefixLines(number, lines[..|lines| - 1]);
    }
  }

  // ----- Collectors and the whole registry -----

  /** A collector with the default collect function, which hands out its own metrics. */
  class Collector {
    const name: string
    const metrics: PromMap<Metric>

    /** Metrics are stored under their names, so no two have the same name. */
    ghost predicate Valid()
      reads this, metrics, metrics.Repr
    {
      metrics.Valid() && forall k :: k in metrics.M ==> metrics.M[k].Some? && metrics.M[k].value.name == k
    }

    constructor (name: string)
      ensures Valid() && this.name == name && metrics.M == map[] && fresh(metrics) && fresh(metrics.Repr)
    {
      this.name := name;
      metrics := new PromMap();
    }

    /** prom_collector_add_metric: a second metric with the same name is refused. */
    method AddMetric(metric: Metric) returns (err: int)
      requires Valid()
      modifies metrics, metrics.Repr
      ensures Valid() && fresh(metrics.Repr - old(metrics.Repr))
      ensures err == if metric.name in old(metrics.M) then 1 else 0
      ensures metrics.M == if err == 1 then old(metrics.M) else old(metrics.M)[metric.name := Some(metric)]
      ensures err == 0 ==> metrics.T == old(metrics.T).Set(metric.name, Some(metric))
    {
      hide PromMap.Valid;
      var found := metrics.Get(metric.name);
      if found != None {
        return 1;
      }
      metrics.Set(metric.name, Some(metric));
      return 0;
    }
  }

  ghost predicate MetricsListed(m: map<string, Option<Metric>>, ks: seq<string>, region: set<object>)
    reads region
  {
    forall i :: 0 <= i < |ks| ==>
      && ks[i] in m && m[ks[i]].Some? && m[ks[i]].value in region
      && MetricObjects(m[ks[i]].value) <= region && m[ks[i]].value.Valid()
  }

  /** The texts of the metrics in key order. */
  ghost function MetricsText(m: map<string, Option<Metric>>, ks: seq<string>, region: set<object>,
                             number: real -> string, prefix: Option<string>, compact: bool): string
    requires MetricsListed(m, ks, region)
    reads region
  {
    if ks == [] then ""
    else
      assert ks[|ks| - 1] in m;
      var metric := m[ks[|ks| - 1]].value;
      MetricSeries(metric);
      MetricsText(m, ks[..|ks| - 1], region, number, prefix, compact) + MetricText(metric, number, prefix, compact)
  }

  /** The collector and its metrics are in order and among the objects. */
  ghost predicate CollectorListed(c: Collector, region: set<object>)
    reads region
  {
    && c in region && c.metrics in region && c.metrics.Repr <= region && c.Valid()
    && MetricsListed(c.metrics.M, c.metrics.T.keys, region)
  }

  ghost predicate CollectorsListed(cs: map<string, Option<Collector>>, ks: seq<string>, region: set<object>)
    reads region
  {
    forall i :: 0 <= i < |ks| ==> ks[i] in cs && cs[ks[i]].Some? && CollectorListed(cs[ks[i]].value, region)
  }

  ghost function CollectorText(c: Collector, region: set<object>,
                               number: real -> string, prefix: Option<string>, compact: bool): string
    requires CollectorListed(c, region)
    reads region
  {
    MetricsText(c.metrics.M, c.metrics.T.keys, region, number, prefix, compact)
  }

  ghost function CollectorAt(cs: map<string, Option<Collector>>, ks: seq<string>, region: set<object>, i: nat)
    : (c: Collector)
    requires CollectorsListed(cs, ks, region) && i < |ks|
    reads region
    ensures CollectorListed(c, region)
  {
    cs[ks[i]].value
  }

  /** The text of a scrape: per collector, in key order, the texts of its metrics. */
  ghost function RegistryText(cs: map<string, Option<Collector>>, ks: seq<string>, region: set<object>,
                              number: real -> string, prefix: Option<string>, compact: bool): string
    requires CollectorsListed(cs, ks, region)
    reads region
  {
    if ks == [] then ""
    else
      RegistryText(cs, ks[..|ks| - 1], region, number, prefix, compact)
      + CollectorText(CollectorAt(cs, ks, region, |ks| - 1), region, number, prefix, compact)
  }

  lemma MetricsTextOneMore(m: map<string, Option<Metric>>, ks: seq<string>, region: set<object>, i: nat,
                           number: real -> string, prefix: Option<string>, compact: bool)
    requires MetricsListed(m, ks, region) && i < |ks|
    ensures MetricsListed(m, ks[..0], region) && MetricsListed(m, ks[..i], region)
    ensures MetricsListed(m, ks[..i + 1], region)
    ensures var metric := m[ks[i]].value;
            && Listed(metric.samples.M, metric.samples.T.keys, metric.held)
            && metric.Valid() && MetricObjects(metric) <= region
            && MetricsText(m, ks[..i + 1], region, number, prefix, compact)
               == MetricsText(m, ks[..i], region, number, prefix, compact) + MetricText(metric, number, prefix, compact)
  {
    hide Metric.Valid, MetricText, Listed;
    MetricSeries(m[ks[i]].value);
    assert ks[..i + 1][..i] == ks[..i];
  }

  lemma RegistryTextOneMore(cs: map<string, Option<Collector>>, ks: seq<string>, region: set<object>, i: nat,
                            number: real -> string, prefix: Option<string>, compact: bool)
    requires CollectorsListed(cs, ks, region) && i < |ks|
    ensures CollectorsListed(cs, ks[..0], region) && CollectorsListed(cs, ks[..i], region)
    ensures CollectorsListed(cs, ks[..i + 1], region)
    ensures ks[i] in cs && cs[ks[i]].Some?
    ensures var c := cs[ks[i]].value;
            && CollectorListed(c, region)
            && RegistryText(cs, ks[..i + 1], region, number, prefix, compact)
               == RegistryText(cs, ks[..i], region, number, prefix, compact)
                  + CollectorText(c, region, number, prefix, compact)
  {
    hide CollectorListed, CollectorText;
    assert ks[..i + 1][..i] == ks[..i];
  }

  lemma TextJoin(base: string, a: string, b: string)
    ensures base + a + b == base + (a + b) && base + "" == base
  {
  }

  /** One round of that loop: a metric that is not found is counted, one that is found is printed. */
  method LoadFound(f: Formatter, found: Option<Metric>, prefix: Option<string>, compact: bool,
                   ghost region: set<object>)
    returns (r: int)
    requires f.Valid() && Sink(f) !! region
    requires found.Some? ==> found.value.Valid() && MetricObjects(found.value) <= region
    modifies f.builder, f.builder.str
    ensures f.Valid() && (f.builder.str == old(f.builder.str) || fresh(f.builder.str))
    ensures r == if found.None? then 1 else 0
    ensures found.Some? ==>
              var m := found.value;
              && Listed(m.samples.M, m.samples.T.keys, m.held)
              && f.Text() == old(f.Text()) + MetricText(m, f.number, prefix, compact)
  {
    hide Metric.Valid, Formatter.Valid, Formatter.Text, MetricText, Listed, MetricObjects;
    if found == None {
      return 1;
    }
    r := LoadMetric(f, found.value, prefix, compact);
  }

  /** The inner loop of pmf_load_metrics, over the metrics of one collector. */
  method LoadCollector(f: Formatter, c: Collector, prefix: Option<string>, compact: bool, ghost region: set<object>)
    returns (r: int)
    requires f.Valid() && CollectorListed(c, region) && Sink(f) !! region
    modifies f.builder, f.builder.str
    ensures f.Valid() && (f.builder.str == old(f.builder.str) || fresh(f.builder.str)) && r == 0
    ensures CollectorListed(c, region)
    ensures f.Text() == old(f.Text()) + CollectorText(c, region, f.number, prefix, compact)
  {
    hide Metric.Valid, PromMap.Valid, LinkedList.Valid, Formatter.Valid, Formatter.Text, MetricsText, MetricText,
         MetricsListed, Listed, MetricObjects;
    r := 0;
    ghost var stored, ks, i := c.metrics.M, c.metrics.T.keys, 0;
    c.metrics.KeysListed();
    NoMetrics(stored, ks, region, f.number, prefix, compact, f.Text());
    var node := c.metrics.keys.head;
    ListHead(c.metrics.keys);
    while node != null
      invariant f.Valid() && (f.builder.str == old(f.builder.str) || fresh(f.builder.str)) && r == 0
      invariant 0 <= i <= |ks| && node == c.metrics.keys.NodeAt(c.metrics.keys.spine, i)
      invariant MetricsListed(stored, ks, region) && MetricsListed(stored, ks[..i], region)
      invariant f.Text() == old(f.Text()) + MetricsText(stored, ks[..i], region, f.number, prefix, compact)
      decreases |ks| - i
    {
      c.metrics.KeysListed();
      ListNode(c.metrics.keys, i);
      MetricsTextOneMore(stored, ks, region, i, f.number, prefix, compact);
      var metric := c.metrics.Get(node.item);
      var e := LoadFound(f, metric, prefix, compact, region);
      r := r + e;
      MetricsTextOneMore(stored, ks, region, i, f.number, prefix, compact);
      TextJoin(old(f.Text()), MetricsText(stored, ks[..i], region, f.number, prefix, compact),
               MetricText(stored[ks[i]].value, f.number, prefix, compact));
      node, i := node.next, i + 1;
    }
    c.metrics.KeysListed();
    ListEnd(c.metrics.keys, i);
    assert ks[..i] == ks;
  }

  lemma NoMetrics(m: map<string, Option<Metric>>, ks: seq<string>, region: set<object>,
                  number: real -> string, prefix: Option<string>, compact: bool, base: string)
    ensures MetricsListed(m, ks[..0], region)
    ensures base == base + MetricsText(m, ks[..0], region, number, prefix, compact)
  {
  }

  lemma NoCollectors(cs: map<string, Option<Collector>>, ks: seq<string>, region: set<object>,
                     number: real -> string, prefix: Option<string>, compact: bool, base: string)
    ensures CollectorsListed(cs, ks[..0], region)
    ensures base == base + RegistryText(cs, ks[..0], region, number, prefix, compact)
  {
  }

  /** What a metric has under a key once the durations of the named collectors were recorded: on a gauge
      the last one recorded under the key, else what was there before. */
  function Recorded(t: MetricType, name: string, labelKeys: seq<string>, names: seq<string>, durations: seq<real>,
                    key: string, before: Option<real>): Option<real>
    requires |labelKeys| <= 1 && |names| <= |durations|
  {
    if names == [] then before
    else
      var last := |names| - 1;
      if t == Gauge && LValue(name, None, labelKeys, [names[last]]) == key then Some(durations[last])
      else Recorded(t, name, labelKeys, names[..last], durations, key, before)
  }

  /** The metric that the durations of the collectors go to, if there is one, is in order, has at most the
      one label that is passed to it, and stands apart from the registry and from the text. */
  ghost predicate ScrapeReady(scrape: Option<Metric>, f: Formatter, region: set<object>)
    reads f.builder, ScrapeObjects(scrape)
  {
    && (scrape.Some? ==> scrape.value.Valid() && |scrape.value.labelKeys| <= 1)
    && ScrapeObjects(scrape) !! region && ScrapeObjects(scrape) !! Sink(f)
  }

  ghost function ScrapeObjects(scrape: Option<Metric>): set<object>
    reads if scrape.Some? then {scrape.value} else {}
  {
    if scrape.Some? then MetricObjects(scrape.value) else {}
  }

  /** The value that the scrape metric has under a key. */
  ghost function Shown(scrape: Option<Metric>, key: string): Option<real>
    reads if scrape.Some? then {scrape.value.samples} else {}
    reads if scrape.Some? && key in scrape.value.samples.M && scrape.value.samples.M[key].Some?
             && scrape.value.samples.M[key].value.Scalar?
          then {scrape.value.samples.M[key].value.sample} else {}
  {
    if scrape.Some? then scrape.value.Value(key) else None
  }

  /** A collector's metrics are printed and its duration is recorded. */
  method LoadTimed(f: Formatter, c: Collector, scrape: Option<Metric>, cname: string, duration: real,
                   prefix: Option<string>, compact: bool, ghost region: set<object>)
    returns (r: int)
    requires f.Valid() && CollectorListed(c, region) && Sink(f) !! region && ScrapeReady(scrape, f, region)
    modifies f.builder, f.builder.str, ScrapeObjects(scrape)
    ensures f.Valid() && (f.builder.str == old(f.builder.str) || fresh(f.builder.str)) && r == 0
    ensures CollectorListed(c, region)
    ensures f.Text() == old(f.Text()) + CollectorText(c, region, f.number, prefix, compact)
    ensures ScrapeReady(scrape, f, region) && fresh(ScrapeObjects(scrape) - old(ScrapeObjects(scrape)))
    ensures forall k :: Shown(scrape, k) == if Records(scrape, cname, k) then Some(duration) else old(Shown(scrape, k))
  {
    hide Metric.Valid, Formatter.Valid, Formatter.Text, CollectorListed, CollectorText, Metric.Value, LValue;
    r := LoadCollector(f, c, prefix, compact, region);
    if scrape.Some? {
      var err := scrape.value.Set(duration, [cname]);
    }
  }

  /** The collectors of the key list are in order, and the text holds what the first i of them print. */
  ghost predicate PrintedUpTo(f: Formatter, collectors: PromMap<Collector>, region: set<object>, i: nat,
                              base: string, prefix: Option<string>, compact: bool)
    reads f, f.builder, f.builder.str, region, collectors
  {
    && f.Valid() && collectors in region && collectors.Repr <= region && collectors.Valid() && Sink(f) !! region
    && i <= |collectors.T.keys|
    && CollectorsListed(collectors.M, collectors.T.keys, region)
    && CollectorsListed(collectors.M, collectors.T.keys[..i], region)
    && f.Text() == base + RegistryText(collectors.M, collectors.T.keys[..i], region, f.number, prefix, compact)
  }

  /** One round of the loop of pmf_load_metrics. */
  method LoadRound(f: Formatter, collectors: PromMap<Collector>, cname: string, scrape: Option<Metric>, duration: real,
                   prefix: Option<string>, compact: bool, ghost region: set<object>, ghost i: nat, ghost base: string)
    returns (r: int)
    requires PrintedUpTo(f, collectors, region, i, base, prefix, compact) && ScrapeReady(scrape, f, region)
    requires i < |collectors.T.keys| && cname == collectors.T.keys[i]
    modifies f.builder, f.builder.str, ScrapeObjects(scrape)
    ensures PrintedUpTo(f, collectors, region, i + 1, base, prefix, compact) && ScrapeReady(scrape, f, region)
    ensures (f.builder.str == old(f.builder.str) || fresh(f.builder.str)) && r == 0
    ensures fresh(ScrapeObjects(scrape) - old(ScrapeObjects(scrape)))
    ensures forall k :: Shown(scrape, k) == if Records(scrape, cname, k) then Some(duration) else old(Shown(scrape, k))
  {
    hide PromMap.Valid, Formatter.Valid, Formatter.Text, RegistryText, CollectorListed, CollectorText, CollectorsListed,
         Metric.Valid, Shown, Records;
    ghost var cs, ks := collectors.M, collectors.T.keys;
    collectors.KeysListed();
    RegistryTextOneMore(cs, ks, region, i, f.number, prefix, compact);
    var c := collectors.Get(cname);
    if c == None {
      return 1;
    }
    r := LoadTimed(f, c.value, scrape, cname, duration, prefix, compact, region);
    RegistryTextOneMore(cs, ks, region, i, f.number, prefix, compact);
    TextJoin(base, RegistryText(cs, ks[..i], region, f.number, prefix, compact),
             CollectorText(cs[ks[i]].value, region, f.number, prefix, compact));
  }

  /** Whether a collector's duration is recorded under the key. */
  predicate Records(scrape: Option<Metric>, cname: string, key: string) {
    && scrape.Some? && scrape.value.metricType == Gauge && |scrape.value.labelKeys| <= 1
    && LValue(scrape.value.name, None, scrape.value.labelKeys, [cname]) == key
  }

  /** What one round records goes on top of what the rounds before recorded. */
  lemma RecordedOneMore(t: MetricType, name: string, labelKeys: seq<string>, names: seq<string>,
                        durations: seq<real>, i: nat, key: string, before: Option<real>)
    requires |labelKeys| <= 1 && |names| <= |durations| && i < |names|
    ensures Recorded(t, name, labelKeys, names[..i + 1], durations, key, before)
            == if t == Gauge && LValue(name, None, labelKeys, [names[i]]) == key then Some(durations[i])
               else Recorded(t, name, labelKeys, names[..i], durations, key, before)
  {
    hide LValue;
    assert names[..i + 1][..i] == names[..i];
  }

  /** What is shown after the first rounds. */
  ghost function ShownAfter(scrape: Option<Metric>, names: seq<string>, durations: seq<real>, key: string,
                            before: Option<real>): Option<real>
    requires |names| <= |durations| && (scrape.Some? ==> |scrape.value.labelKeys| <= 1)
  {
    if scrape.None? then None
    else
      var m := scrape.value;
      Recorded(m.metricType, m.name, m.labelKeys, names, durations, key, before)
  }

  lemma ShownOneMore(scrape: Option<Metric>, names: seq<string>, durations: seq<real>, i: nat)
    requires |names| <= |durations| && (scrape.Some? ==> |scrape.value.labelKeys| <= 1) && i < |names|
    ensures forall key: string, before: Option<real> ::
              ShownAfter(scrape, names[..i + 1], durations, key, before)
              == if Records(scrape, names[i], key) then Some(durations[i])
                 else ShownAfter(scrape, names[..i], durations, key, before)
  {
    hide ShownAfter, Records, LValue;
    forall key: string, before: Option<real>
      ensures ShownAfter(scrape, names[..i + 1], durations, key, before)
              == if Records(scrape, names[i], key) then Some(durations[i])
                 else ShownAfter(scrape, names[..i], durations, key, before)
    {
      OneRoundShown(scrape, names, durations, i, key, before);
    }
  }

  lemma OneRoundShown(scrape: Option<Metric>, names: seq<string>, durations: seq<real>, i: nat,
                      key: string, before: Option<real>)
    requires |names| <= |durations| && (scrape.Some? ==> |scrape.value.labelKeys| <= 1) && i < |names|
    ensures ShownAfter(scrape, names[..i + 1], durations, key, before)
            == if Records(scrape, names[i], key) then Some(durations[i])
               else ShownAfter(scrape, names[..i], durations, key, before)
  {
    hide LValue, Recorded;
    if scrape.Some? {
      var m := scrape.value;
      RecordedOneMore(m.metricType, m.name, m.labelKeys, names, durations, i, key, before);
    }
  }

  lemma NothingShown(scrape: Option<Metric>, names: seq<string>, durations: seq<real>)
    requires |names| <= |durations| && (scrape.Some? ==> |scrape.value.labelKeys| <= 1)
    ensures forall key :: ShownAfter(scrape, names[..0], durations, key, Shown(scrape, key)) == Shown(scrape, key)
  {
  }

  /** pmf_load_metrics: appends exactly the registry's text, and returns 0, because neither a collector
      nor a metric of the key lists can be missing. The scrape metric, if there is one, gets the duration
      of every collector; `durations` stands for what the clock says. */
  method LoadMetrics(f: Formatter, collectors: PromMap<Collector>, scrape: Option<Metric>, durations: seq<real>,
                     prefix: Option<string>, compact: bool, ghost region: set<object>)
    returns (r: int)
    requires f.Valid() && collectors.Valid() && Sink(f) !! region
    requires collectors in region && collectors.Repr <= region
    requires CollectorsListed(collectors.M, collectors.T.keys, region)
    requires ScrapeReady(scrape, f, region) && |collectors.T.keys| <= |durations|
    modifies f.builder, f.builder.str, ScrapeObjects(scrape)
    ensures f.Valid() && (f.builder.str == old(f.builder.str) || fresh(f.builder.str)) && r == 0
    ensures CollectorsListed(collectors.M, collectors.T.keys, region)
    ensures f.Text() == old(f.Text())
                        + RegistryText(collectors.M, collectors.T.keys, region, f.number, prefix, compact)
    ensures ScrapeReady(scrape, f, region) && fresh(ScrapeObjects(scrape) - old(ScrapeObjects(scrape)))
    ensures forall k :: Shown(scrape, k) == ShownAfter(scrape, collectors.T.keys, durations, k, old(Shown(scrape, k)))
    ensures scrape.Some? && scrape.value.metricType == Gauge && |scrape.value.labelKeys| == 1 ==>
              forall i :: 0 <= i < |collectors.T.keys| ==>
                Shown(scrape, LValue(scrape.value.name, None, scrape.value.labelKeys, [collectors.T.keys[i]]))
                == Some(durations[i])
  {
    hide PromMap.Valid, LinkedList.Valid, Formatter.Valid, Formatter.Text, RegistryText, CollectorsListed, Metric.Valid,
         Shown, ShownAfter, Records, PrintedUpTo;
    r := 0;
    ghost var ks, base := collectors.T.keys, f.Text();
    NothingPrinted(f, collectors, region, prefix, compact);
    NothingShown(scrape, ks, durations);
    var node, i := collectors.keys.head, 0;
    KeyList(f, collectors, region, 0, base, prefix, compact);
    while node != null
      invariant PrintedUpTo(f, collectors, region, i, base, prefix, compact)
      invariant (f.builder.str == old(f.builder.str) || fresh(f.builder.str)) && r == 0
      invariant 0 <= i <= |ks| && node == collectors.keys.NodeAt(collectors.keys.spine, i)
      invariant ScrapeReady(scrape, f, region) && fresh(ScrapeObjects(scrape) - old(ScrapeObjects(scrape)))
      invariant forall k :: Shown(scrape, k) == ShownAfter(scrape, ks[..i], durations, k, old(Shown(scrape, k)))
      decreases |ks| - i
    {
      KeyList(f, collectors, region, i, base, prefix, compact);
      ShownOneMore(scrape, ks, durations, i);
      var e := LoadRound(f, collectors, node.item, scrape, durations[i], prefix, compact, region, i, base);
      KeyList(f, collectors, region, i + 1, base, prefix, compact);
      r, node, i := r + e, node.next, i + 1;
    }
    KeyList(f, collectors, region, i, base, prefix, compact);
    assert ks[..i] == ks;
    EveryDurationShown(scrape, ks, durations);
  }

  /** Every collector has its own duration, because the names in the key list are distinct. */
  lemma EveryDurationShown(scrape: Option<Metric>, names: seq<string>, durations: seq<real>)
    requires |names| <= |durations| && Distinct(names)
    ensures scrape.Some? && scrape.value.metricType == Gauge && |scrape.value.labelKeys| == 1 ==>
              forall i, before :: 0 <= i < |names| ==>
                ShownAfter(scrape, names, durations,
                           LValue(scrape.value.name, None, scrape.value.labelKeys, [names[i]]), before)
                == Some(durations[i])
  {
    hide LValue, Recorded;
    if scrape.Some? && scrape.value.metricType == Gauge && |scrape.value.labelKeys| == 1 {
      var m := scrape.value;
      forall i: nat, before: Option<real> | i < |names|
        ensures ShownAfter(scrape, names, durations, LValue(m.name, None, m.labelKeys, [names[i]]), before)
                == Some(durations[i])
      {
        DurationRecorded(m.name, m.labelKeys, names, durations, i, before);
      }
    }
  }

  lemma {:induction false} DurationRecorded(name: string, labelKeys: seq<string>, names: seq<string>,
                                            durations: seq<real>, i: nat, before: Option<real>)
    requires |labelKeys| == 1 && i < |names| <= |durations| && Distinct(names)
    ensures Recorded(Gauge, name, labelKeys, names, durations, LValue(name, None, labelKeys, [names[i]]), before)
            == Some(durations[i])
  {
    hide LValue;
    var last := |names| - 1;
    if i < last {
      if LValue(name, None, labelKeys, [names[last]]) == LValue(name, None, labelKeys, [names[i]]) {
        LValueInjective(name, None, labelKeys, [names[last]], [names[i]]);
      }
      DurationRecorded(name, labelKeys, names[..last], durations, i, before);
    }
  }

  const SCRAPE_LABEL := "libprom"

  /** Whether the duration of the whole scrape is measured, which is then printed behind the registry. */
  predicate Timing(scrape: Option<Metric>, scrapeTime: bool) {
    scrape.Some? && scrapeTime
  }

  /** What the scrape metric adds to the text. */
  ghost function ScrapeText(scrape: Option<Metric>, scrapeTime: bool, number: real -> string, prefix: Option<string>,
                            compact: bool): string
    requires ScrapeListed(scrape)
    reads ScrapeObjects(scrape)
  {
    if Timing(scrape, scrapeTime) then MetricText(scrape.value, number, prefix, compact) else ""
  }

  ghost predicate ScrapeListed(scrape: Option<Metric>)
    reads ScrapeObjects(scrape)
  {
    scrape.Some? ==>
      var m := scrape.value; m.samples in m.Repr && Listed(m.samples.M, m.samples.T.keys, m.held)
  }

  /** pcr_bridge: the text of a scrape. With the features for it, the scrape metric first gets the
      duration of every collector, then that of the whole, and is printed itself. */
  method Bridge(f: Formatter, collectors: PromMap<Collector>, scrape: Option<Metric>, scrapeTime: bool,
                scrapeTimeAll: bool, durations: seq<real>, total: real, prefix: Option<string>, compact: bool,
                ghost region: set<object>)
    returns (text: string)
    requires f.Valid() && collectors.Valid() && Sink(f) !! region
    requires collectors in region && collectors.Repr <= region
    requires CollectorsListed(collectors.M, collectors.T.keys, region)
    requires ScrapeReady(scrape, f, region) && |collectors.T.keys| <= |durations|
    modifies f.builder, f.builder.str, ScrapeObjects(scrape)
    ensures f.Valid() && f.Text() == "" && CollectorsListed(collectors.M, collectors.T.keys, region)
    ensures ScrapeReady(scrape, f, region) && fresh(ScrapeObjects(scrape) - old(ScrapeObjects(scrape)))
    ensures ScrapeListed(scrape)
    ensures scrape.Some? && scrapeTime ==>
              text == RegistryText(collectors.M, collectors.T.keys, region, f.number, prefix, compact)
                      + MetricText(scrape.value, f.number, prefix, compact)
    ensures scrape.None? || !scrapeTime ==>
              text == RegistryText(collectors.M, collectors.T.keys, region, f.number, prefix, compact)
    ensures scrape.Some? && scrapeTime && scrape.value.metricType == Gauge ==>
              Shown(scrape, LValue(scrape.value.name, None, scrape.value.labelKeys, ["libprom"])) == Some(total)
    ensures forall k :: Shown(scrape, k) == ShownAfterScrape(scrape, scrapeTime, scrapeTimeAll, collectors.T.keys,
                                                             durations, total, k, old(Shown(scrape, k)))
  {
    hide PromMap.Valid, Formatter.Valid, Formatter.Text, RegistryText, CollectorsListed, Metric.Valid, Shown, Listed,
         ShownAfterScrape, ScrapeText, ScrapeListed, MetricText, LValue;
    f.Clear();
    LoadAll(f, collectors, scrape, scrapeTime, scrapeTimeAll, durations, total, prefix, compact, region);
    text := f.Dump();
    ScrapeSpelled(scrape, scrapeTime, scrapeTimeAll, collectors.T.keys, durations, total, f.number, prefix, compact);
    assert RegistryText(collectors.M, collectors.T.keys, region, f.number, prefix, compact) + ""
           == RegistryText(collectors.M, collectors.T.keys, region, f.number, prefix, compact);
  }

  lemma ScrapeSpelled(scrape: Option<Metric>, scrapeTime: bool, scrapeTimeAll: bool, names: seq<string>,
                      durations: seq<real>, total: real, number: real -> string, prefix: Option<string>, compact: bool)
    requires ScrapeListed(scrape) && |names| <= |durations| && (scrape.Some? ==> |scrape.value.labelKeys| <= 1)
    ensures scrape.Some? && scrapeTime ==>
              && Listed(scrape.value.samples.M, scrape.value.samples.T.keys, scrape.value.held)
              && ScrapeText(scrape, scrapeTime, number, prefix, compact)
                 == MetricText(scrape.value, number, prefix, compact)
    ensures scrape.None? || !scrapeTime ==> ScrapeText(scrape, scrapeTime, number, prefix, compact) == ""
    ensures scrape.Some? && scrapeTime && scrape.value.metricType == Gauge ==>
              var id := LValue(scrape.value.name, None, scrape.value.labelKeys, ["libprom"]);
              forall before ::
                ShownAfterScrape(scrape, scrapeTime, scrapeTimeAll, names, durations, total, id, before) == Some(total)
  {
    hide LValue, MetricText, ShownAfter, Listed;
  }

  /** What the scrape metric shows after a scrape. */
  ghost function ShownAfterScrape(scrape: Option<Metric>, scrapeTime: bool, scrapeTimeAll: bool, names: seq<string>,
                                  durations: seq<real>, total: real, key: string, before: Option<real>): Option<real>
    requires |names| <= |durations| && (scrape.Some? ==> |scrape.value.labelKeys| <= 1)
  {
    if Timing(scrape, scrapeTime) && Records(scrape, SCRAPE_LABEL, key) then Some(total)
    else if scrapeTimeAll then ShownAfter(scrape, names, durations, key, before)
    else before
  }

  /** The registry and the scrape metric, one after the other. */
  method LoadAll(f: Formatter, collectors: PromMap<Collector>, scrape: Option<Metric>, scrapeTime: bool,
                 scrapeTimeAll: bool, durations: seq<real>, total: real, prefix: Option<string>, compact: bool,
                 ghost region: set<object>)
    requires f.Valid() && f.Text() == "" && collectors.Valid() && Sink(f) !! region
    requires collectors in region && collectors.Repr <= region
    requires CollectorsListed(collectors.M, collectors.T.keys, region)
    requires ScrapeReady(scrape, f, region) && |collectors.T.keys| <= |durations|
    modifies f.builder, f.builder.str, ScrapeObjects(scrape)
    ensures f.Valid() && (f.builder.str == old(f.builder.str) || fresh(f.builder.str))
    ensures CollectorsListed(collectors.M, collectors.T.keys, region)
    ensures ScrapeReady(scrape, f, region) && fresh(ScrapeObjects(scrape) - old(ScrapeObjects(scrape)))
    ensures ScrapeListed(scrape)
    ensures f.Text() == RegistryText(collectors.M, collectors.T.keys, region, f.number, prefix, compact)
                        + ScrapeText(scrape, scrapeTime, f.number, prefix, compact)
    ensures forall k :: Shown(scrape, k) == ShownAfterScrape(scrape, scrapeTime, scrapeTimeAll, collectors.T.keys,
                                                             durations, total, k, old(Shown(scrape, k)))
  {
    hide PromMap.Valid, Formatter.Valid, Formatter.Text, RegistryText, CollectorsListed, Metric.Valid, Shown, Listed,
         ShownAfter, Records, Timing, ScrapeText, ScrapeListed;
    LoadRegistry(f, collectors, scrape, scrapeTimeAll, durations, prefix, compact, region);
    LoadScrape(f, scrape, scrapeTime, total, prefix, compact, region);
  }

  /** Only one of the features hands the scrape metric to pmf_load_metrics. */
  method LoadRegistry(f: Formatter, collectors: PromMap<Collector>, scrape: Option<Metric>, scrapeTimeAll: bool,
                      durations: seq<real>, prefix: Option<string>, compact: bool, ghost region: set<object>)
    requires f.Valid() && f.Text() == "" && collectors.Valid() && Sink(f) !! region
    requires collectors in region && collectors.Repr <= region
    requires CollectorsListed(collectors.M, collectors.T.keys, region)
    requires ScrapeReady(scrape, f, region) && |collectors.T.keys| <= |durations|
    modifies f.builder, f.builder.str, ScrapeObjects(scrape)
    ensures f.Valid() && (f.builder.str == old(f.builder.str) || fresh(f.builder.str))
    ensures CollectorsListed(collectors.M, collectors.T.keys, region)
    ensures f.Text() == RegistryText(collectors.M, collectors.T.keys, region, f.number, prefix, compact)
    ensures ScrapeReady(scrape, f, region) && fresh(ScrapeObjects(scrape) - old(ScrapeObjects(scrape)))
    ensures forall k ::
              Shown(scrape, k) == if scrapeTimeAll
                                  then ShownAfter(scrape, collectors.T.keys, durations, k, old(Shown(scrape, k)))
                                  else old(Shown(scrape, k))
  {
    hide PromMap.Valid, Formatter.Valid, Formatter.Text, RegistryText, CollectorsListed, Metric.Valid, Metric.Value,
         ShownAfter;
    if scrapeTimeAll {
      var r := LoadMetrics(f, collectors, scrape, durations, prefix, compact, region);
    } else {
      var r := LoadMetrics(f, collectors, None, durations, prefix, compact, region);
    }
  }

  /** The duration of the whole scrape is recorded, and the scrape metric is printed. */
  method LoadScrape(f: Formatter, scrape: Option<Metric>, scrapeTime: bool, total: real,
                    prefix: Option<string>, compact: bool, ghost region: set<object>)
    requires f.Valid() && ScrapeReady(scrape, f, region)
    modifies f.builder, f.builder.str, ScrapeObjects(scrape)
    ensures f.Valid() && (f.builder.str == old(f.builder.str) || fresh(f.builder.str))
    ensures ScrapeReady(scrape, f, region) && fresh(ScrapeObjects(scrape) - old(ScrapeObjects(scrape)))
    ensures ScrapeListed(scrape)
    ensures f.Text() == old(f.Text()) + ScrapeText(scrape, scrapeTime, f.number, prefix, compact)
    ensures forall k :: Shown(scrape, k) == if Timing(scrape, scrapeTime) && Records(scrape, SCRAPE_LABEL, k)
                                            then Some(total) else old(Shown(scrape, k))
  {
    hide Formatter.Valid, Formatter.Text, Metric.Valid, Shown, Listed, MetricText, Records;
    if scrape.Some? && scrapeTime {
      LoadOwn(f, scrape, total, prefix, compact, region);
    }
    if scrape.Some? {
      MetricSeries(scrape.value);
    }
  }

  method LoadOwn(f: Formatter, scrape: Option<Metric>, total: real, prefix: Option<string>, compact: bool,
                 ghost region: set<object>)
    requires f.Valid() && scrape.Some? && ScrapeReady(scrape, f, region)
    modifies f.builder, f.builder.str, ScrapeObjects(scrape)
    ensures f.Valid() && (f.builder.str == old(f.builder.str) || fresh(f.builder.str))
    ensures ScrapeReady(scrape, f, region) && fresh(ScrapeObjects(scrape) - old(ScrapeObjects(scrape)))
    ensures Listed(scrape.value.samples.M, scrape.value.samples.T.keys, scrape.value.held)
    ensures f.Text() == old(f.Text()) + MetricText(scrape.value, f.number, prefix, compact)
    ensures forall k ::
              Shown(scrape, k) == if Records(scrape, SCRAPE_LABEL, k) then Some(total) else old(Shown(scrape, k))
  {
    hide Formatter.Valid, Formatter.Text, Metric.Valid, Metric.Value, Listed, MetricText, LValue;
    var err := scrape.value.Set(total, [SCRAPE_LABEL]);
    var code := LoadMetric(f, scrape.value, prefix, compact);
  }

  lemma NothingPrinted(f: Formatter, collectors: PromMap<Collector>, region: set<object>,
                       prefix: Option<string>, compact: bool)
    requires f.Valid() && collectors.Valid() && Sink(f) !! region && collectors in region && collectors.Repr <= region
    requires CollectorsListed(collectors.M, collectors.T.keys, region)
    ensures PrintedUpTo(f, collectors, region, 0, f.Text(), prefix, compact)
  {
    hide PromMap.Valid, Formatter.Valid, Formatter.Text, RegistryText, CollectorsListed;
    NoCollectors(collectors.M, collectors.T.keys, region, f.number, prefix, compact, f.Text());
  }

  /** What the loop needs of the key list at its i-th node, and what is printed there. */
  lemma KeyList(f: Formatter, collectors: PromMap<Collector>, region: set<object>, i: nat, base: string,
                prefix: Option<string>, compact: bool)
    requires PrintedUpTo(f, collectors, region, i, base, prefix, compact)
    ensures var node, keys := collectors.keys.NodeAt(collectors.keys.spine, i), collectors.T.keys;
            && i <= |keys| && Distinct(keys) && f.Valid()
            && collectors.keys in region && (node != null ==> node in region)
            && (i == 0 ==> node == collectors.keys.head)
            && (node == null <==> i == |keys|)
            && (node != null ==>
                  node.item == keys[i] && node.next == collectors.keys.NodeAt(collectors.keys.spine, i + 1))
            && CollectorsListed(collectors.M, keys[..i], region)
            && CollectorsListed(collectors.M, keys, region)
            && f.Text() == base + RegistryText(collectors.M, keys[..i], region, f.number, prefix, compact)
  {
    hide PromMap.Valid, LinkedList.Valid, Formatter.Valid, Formatter.Text, RegistryText, CollectorsListed;
    collectors.KeysListed();
    ListHead(collectors.keys);
    ListNodes(collectors.keys, i);
  }

  lemma ListNodes<T>(l: LinkedList<T>, i: nat)
    requires l.Valid() && i <= |l.items|
    ensures l.NodeAt(l.spine, i) == null <==> i == |l.items|
    ensures i < |l.items| ==>
              && l.NodeAt(l.spine, i).item == l.items[i] && l.NodeAt(l.spine, i).next == l.NodeAt(l.spine, i + 1)
              && l.NodeAt(l.spine, i) in l.Repr
  {
  }

  /** The lines of a histogram come in the order ascending buckets, +Inf, count, sum, whatever the
      hashing, and carry the counts of its observations. */
  lemma PrintedHistogram(h: SampleHistogram)
    requires h.Valid()
    ensures var lines, keys, n := SeriesLines(Dist(h)), LineKeys(h.buckets), |h.buckets.keys|;
            && |lines| == n + 3 && |h.labelKeys| <= |h.labelValues| && n == |h.buckets.bounds|
            && (forall i :: 0 <= i < n + 3 ==> lines[i].id == LineId(h.name, h.labelKeys, h.labelValues, keys[i]))
            && (forall i :: 0 <= i < n ==> lines[i].value == BucketValue(h.buckets, keys[i], h.observed) as real)
            && lines[n].value == |h.observed| as real
            && lines[n + 1].value == |h.observed| as real
            && lines[n + 2].value == SumNonNegative(h.observed)
  {
    hide SampleHistogram.Parts;
    assert LineKeys(h.buckets)[..|h.buckets.keys| + 3] == LineKeys(h.buckets);
  }

  /** The lines of a counter or gauge: one per stored sample, in key order, with its identity and its value. */
  lemma PrintedScalars(m: Metric)
    requires m.Valid() && m.metricType != Histogram
    ensures Listed(m.samples.M, m.samples.T.keys, m.held)
    ensures var lines, keys := LinesOf(m.samples.M, m.samples.T.keys, m.held), m.samples.T.keys;
            && |lines| == |keys|
            && (forall k :: k in keys <==> k in m.samples.M)
            && forall i :: 0 <= i < |keys| ==> lines[i].id == keys[i] && m.Value(keys[i]) == Some(lines[i].value)
  {
    hide Metric.Valid, LinesOf, Listed, Metric.Value;
    MetricSeries(m);
    var keys := m.samples.T.keys;
    ScalarLines(m, |keys|);
    assert keys[..|keys|] == keys;
  }

  lemma {:induction false} ScalarLines(m: Metric, n: nat)
    requires m.Valid() && m.metricType != Histogram && n <= |m.samples.T.keys|
    ensures Listed(m.samples.M, m.samples.T.keys[..n], m.held)
    ensures var lines, keys := LinesOf(m.samples.M, m.samples.T.keys[..n], m.held), m.samples.T.keys;
            && |lines| == n
            && forall i :: 0 <= i < n ==> lines[i].id == keys[i] && m.Value(keys[i]) == Some(lines[i].value)
  {
    hide Metric.Valid, LinesOf, Metric.Value, SeriesLines, Objects;
    MetricSeries(m);
    var keys := m.samples.T.keys;
    if n == 0 {
      NoneListed(m.samples.M, keys, m.held);
    } else {
      ScalarLines(m, n - 1);
      LinesOfOneMore(m.samples.M, keys, m.held, n - 1);
      ScalarSeries(m, keys[n - 1]);
    }
  }

  lemma ScalarSeries(m: Metric, key: string)
    requires m.Valid() && m.metricType != Histogram && key in m.samples.M
    ensures m.samples.M[key].Some?
    ensures var lines := SeriesLines(m.samples.M[key].value);
            |lines| == 1 && lines[0].id == key && m.Value(key) == Some(lines[0].value)
  {
    hide PromMap.Valid, Formatter.Valid, Formatter.Text;
  }

  /** A counter or gauge that has a value for some label values shows it in exactly one line. */
  lemma ValueShown(m: Metric, labelValues: seq<string>, v: real) returns (i: nat)
    requires m.Valid() && m.metricType != Histogram && |m.labelKeys| <= |labelValues|
    requires m.Value(LValue(m.name, None, m.labelKeys, labelValues)) == Some(v)
    ensures Listed(m.samples.M, m.samples.T.keys, m.held)
    ensures var id := LValue(m.name, None, m.labelKeys, labelValues);
            var lines := LinesOf(m.samples.M, m.samples.T.keys, m.held);
            && i < |lines| && lines[i] == Line(id, v)
            && forall j :: 0 <= j < |lines| && j != i ==> lines[j].id != id
  {
    hide Metric.Valid, LinesOf, Listed, LValue;
    MetricSeries(m);
    PrintedScalars(m);
    var id := LValue(m.name, None, m.labelKeys, labelValues);
    assert id in m.samples.T.keys;
    i :| 0 <= i < |m.samples.T.keys| && m.samples.T.keys[i] == id;
  }

  /** If all series have the same number of lines, line i of series q of a metric stands at its place:
      the series follow each other in key order. */
  lemma {:induction false} SeriesInOrder(m: map<string, Option<Series>>, ks: seq<string>, objects: set<object>,
                                         width: nat, q: nat, i: nat)
    requires Listed(m, ks, objects) && q < |ks| && i < width
    requires forall q :: 0 <= q < |ks| ==> |SeriesLines(m[ks[q]].value)| == width
    ensures |LinesOf(m, ks, objects)| == |ks| * width && q * width + i < |LinesOf(m, ks, objects)|
    ensures LinesOf(m, ks, objects)[q * width + i] == SeriesLines(m[ks[q]].value)[i]
  {
    hide SeriesLines, Objects;
    var n := |ks| - 1;
    LinesOfOneMore(m, ks, objects, n);
    assert ks[..n + 1] == ks;
    assert (n + 1) * width == n * width + width;
    if n == 0 {
      NoneListed(m, ks, objects);
    } else {
      SeriesInOrder(m, ks[..n], objects, width, if q < n then q else 0, i);
    }
  }

  /** A registered metric is printed once: the key list names each metric of the collector once. */
  lemma EachMetricOnce(c: Collector, metric: Metric)
    requires c.Valid() && metric.name in c.metrics.M && c.metrics.M[metric.name] == Some(metric)
    ensures forall k :: k in c.metrics.T.keys ==> k in c.metrics.M
    ensures exists i :: 0 <= i < |c.metrics.T.keys| && OnlyPlace(c.metrics.M, c.metrics.T.keys, metric, i)
  {
    hide PromMap.Valid;
    c.metrics.KeysListed();
    var i :| 0 <= i < |c.metrics.T.keys| && c.metrics.T.keys[i] == metric.name;
    assert OnlyPlace(c.metrics.M, c.metrics.T.keys, metric, i);
  }

  /** The metric is named at position i of the key list and nowhere else. */
  ghost predicate OnlyPlace(m: map<string, Option<Metric>>, ks: seq<string>, metric: Metric, i: nat)
    requires forall k :: k in ks ==> k in m
  {
    forall j :: 0 <= j < |ks| ==> (m[ks[j]] == Some(metric) <==> j == i)
  }
}
