/**
  What a scrape prints, read back line by line (lib/prom/src/prom_metric_formatter.c, lines 179 to 276).
  */
module ReadBack {
  import opened Prelude
  import opened LValues
  import opened Formatters
  import opened HistogramBuckets
  import opened HistogramSpec
  import opened Metrics
  import opened Exposition
  import opened TextReader
  import opened Uniqueness

  /** The sample lines as a reader sees them. */
  function SampleLines(number: real -> string, prefix: Option<string>, lines: seq<Line>): (r: seq<Option<TextLine>>)
    ensures |r| == |lines|
    ensures forall i :: 0 <= i < |r| ==> r[i] == Some(SampleLine(Lead(prefix) + lines[i].id, number(lines[i].value)))
  {
    seq(|lines|, i requires 0 <= i < |lines| => Some(SampleLine(Lead(prefix) + lines[i].id, number(lines[i].value))))
  }

  /** Printed numbers are one word. */
  ghost predicate PlainNumbers(number: real -> string) {
    forall v :: ' ' !in number(v) && '\n' !in number(v)
  }

  ghost predicate PlainId(prefix: Option<string>, id: string) {
    id != "" && (Lead(prefix) + id)[0] != '#' && '\n' !in Lead(prefix) + id
  }

  ghost predicate WholeLines(s: string) {
    s == "" || s[|s| - 1] == '\n'
  }

  lemma {:induction false} LinesReadBack(number: real -> string, prefix: Option<string>, lines: seq<Line>)
    requires PlainNumbers(number) && forall i :: 0 <= i < |lines| ==> PlainId(prefix, lines[i].id)
    ensures ReadText(LinesText(number, prefix, lines)) == SampleLines(number, prefix, lines)
    ensures WholeLines(LinesText(number, prefix, lines))
  {
    hide ReadText, SampleText, PlainId, PlainNumbers;
    if lines == [] {
      ReadNothing();
    } else {
      var front, last := lines[..|lines| - 1], lines[|lines| - 1];
      LinesReadBack(number, prefix, front);
      OneLine(number, prefix, last.id, last.value);
      ReadJoin(LinesText(number, prefix, front), SampleText(number, prefix, last.id, last.value));
      assert SampleLines(number, prefix, lines)
             == SampleLines(number, prefix, front) + [Some(SampleLine(Lead(prefix) + last.id, number(last.value)))];
    }
  }

  lemma OneLine(number: real -> string, prefix: Option<string>, id: string, value: real)
    requires PlainNumbers(number) && PlainId(prefix, id)
    ensures var t := SampleText(number, prefix, id, value);
            && ReadText(t) == [Some(SampleLine(Lead(prefix) + id, number(value)))]
            && t != "" && t[|t| - 1] == '\n'
  {
    hide ReadText;
    SampleReadsBack(number, prefix, id, value);
  }

  /** The header lines of a metric as a reader sees them. */
  function HeaderLines(m: Metric, prefix: Option<string>, compact: bool): seq<Option<TextLine>> {
    if compact then []
    else
      (if m.help.None? then [] else [Some(HelpLine(Lead(prefix) + m.name, m.help.value))])
      + [Some(TypeLine(Lead(prefix) + m.name,
                       match m.metricType
                       case Counter => "counter"
                       case Gauge => "gauge"
                       case Histogram => "histogram"
                       case Summary => "summary"
                       case Untyped => "untyped"))]
  }

  lemma HeaderReadsBack(m: Metric, prefix: Option<string>, compact: bool)
    requires Word(Lead(prefix) + m.name) && (m.help.Some? ==> '\n' !in m.help.value)
    ensures ReadText(HeaderText(m, prefix, compact)) == HeaderLines(m, prefix, compact)
    ensures WholeLines(HeaderText(m, prefix, compact))
  {
    hide ReadText, HelpText, TypeText;
    HeaderWhole(prefix, m.name, m.help, m.metricType);
    if compact {
      ReadNothing();
    } else {
      HelpReadsBack(prefix, m.name, m.help);
      TypeReadsBack(prefix, m.name, m.metricType);
      ReadJoin(HelpText(prefix, m.name, m.help), TypeText(prefix, m.name, m.metricType));
    }
  }

  lemma HeaderWhole(prefix: Option<string>, name: string, help: Option<string>, t: MetricType)
    ensures WholeLines(HelpText(prefix, name, help))
    ensures TypeText(prefix, name, t) != "" && WholeLines(TypeText(prefix, name, t))
    ensures WholeLines(HelpText(prefix, name, help) + TypeText(prefix, name, t))
  {
    hide TypeName;
  }

  /** Everything that a metric prints is one line each: its name, its help text, and the identities
      under which its series are stored. */
  ghost predicate PlainMetric(m: Metric, prefix: Option<string>)
    reads m.samples`M
  {
    && m.name != "" && Word(Lead(prefix) + m.name) && (m.help.Some? ==> '\n' !in m.help.value)
    && forall k :: k in m.samples.M ==> '\n' !in k
  }

  /** The text of a metric, read back: the HELP line if there is a help text, the TYPE line with the
      word for the type, unless compact; then its lines with their identities and printed values, in
      order; then a blank line. */
  lemma MetricReadsBack(m: Metric, number: real -> string, prefix: Option<string>, compact: bool)
    requires m.Valid() && (m.metricType == Histogram ==> m.HasBuckets())
    requires PlainMetric(m, prefix) && PlainNumbers(number) && PlainNumbers(m.formatter.number)
    ensures Listed(m.samples.M, m.samples.T.keys, m.held)
    ensures ReadText(MetricText(m, number, prefix, compact))
            == HeaderLines(m, prefix, compact)
               + SampleLines(number, prefix, LinesOf(m.samples.M, m.samples.T.keys, m.held))
               + [Some(BlankLine)]
    ensures WholeLines(MetricText(m, number, prefix, compact))
  {
    hide Metric.Valid, Metric.HasBuckets, Listed, LinesOf, ReadText, HeaderText, LinesText, HeaderLines, PlainNumbers,
         PlainId;
    MetricSeries(m);
    var lines := LinesOf(m.samples.M, m.samples.T.keys, m.held);
    var header, body := HeaderText(m, prefix, compact), LinesText(number, prefix, lines);
    HeaderReadsBack(m, prefix, compact);
    forall i | 0 <= i < |lines| ensures PlainId(prefix, lines[i].id) {
      LineIsPlain(m, prefix, lines[i]);
    }
    LinesReadBack(number, prefix, lines);
    ReadJoin(header, body);
    ReadJoin(header + body, "\n");
    BlankReadsBack();
  }

  lemma BlankReadsBack()
    ensures ReadText("\n") == [Some(BlankLine)]
  {
    ReadOne("");
    assert "" + "\n" == "\n";
  }

  /** A line of a metric begins with the metric's name and, if the stored identities are plain, is plain. */
  lemma LineIsPlain(m: Metric, prefix: Option<string>, line: Line)
    requires m.Valid() && (m.metricType == Histogram ==> m.HasBuckets())
    requires PlainMetric(m, prefix) && PlainNumbers(m.formatter.number)
    requires Listed(m.samples.M, m.samples.T.keys, m.held)
    requires line in LinesOf(m.samples.M, m.samples.T.keys, m.held)
    ensures PlainId(prefix, line.id)
  {
    hide Metric.Valid, Metric.HasBuckets, LinesOf, SeriesLines, Objects, PlainId, PlainNumbers, PlainMetric;
    MetricSeries(m);
    var keys := m.samples.T.keys;
    LinesFromSeries(m, |keys|);
    assert keys[..|keys|] == keys;
    var i :| 0 <= i < |keys| && line in SeriesLines(m.samples.M[keys[i]].value);
    SeriesLineIsPlain(m, prefix, keys[i], line);
  }

  lemma SeriesLineIsPlain(m: Metric, prefix: Option<string>, key: string, line: Line)
    requires m.Valid() && (m.metricType == Histogram ==> m.HasBuckets())
    requires PlainMetric(m, prefix) && PlainNumbers(m.formatter.number)
    requires key in m.samples.M && m.samples.M[key].Some? && line in SeriesLines(m.samples.M[key].value)
    ensures PlainId(prefix, line.id)
  {
    hide Metric.Valid, Metric.HasBuckets, SeriesLines, PlainNumbers, LValue;
    var lines := SeriesLines(m.samples.M[key].value);
    var i :| 0 <= i < |lines| && lines[i] == line;
    if m.metricType == Histogram {
      HistogramLineIsPlain(m, key, i);
    } else {
      ScalarSeries(m, key);
      var labelValues := ScalarKey(m, key);
      NameLeads(m.name, None, m.labelKeys, labelValues);
    }
    NameFirst(prefix, m.name, line.id);
  }

  lemma NameLeads(name: string, suffix: Option<string>, keys: seq<string>, values: seq<string>)
    requires |keys| <= |values|
    ensures name <= LValue(name, suffix, keys, values)
  {
    hide PrintLabels, Labels;
  }

  /** What begins with the metric's name begins like it. */
  lemma NameFirst(prefix: Option<string>, name: string, id: string)
    requires name != "" && name <= id && Word(Lead(prefix) + name)
    ensures id != "" && (Lead(prefix) + id)[0] != '#' && ('\n' in Lead(prefix) + id ==> '\n' in id)
  {
    assert (Lead(prefix) + id)[0] == (Lead(prefix) + name)[0];
    assert '\n' !in Lead(prefix) by {
      assert forall i :: 0 <= i < |Lead(prefix)| ==> (Lead(prefix) + name)[i] == Lead(prefix)[i];
    }
  }

  lemma HistogramLineIsPlain(m: Metric, key: string, i: nat)
    requires m.Valid() && m.metricType == Histogram && m.HasBuckets() && PlainNumbers(m.formatter.number)
    requires key in m.samples.M && m.samples.M[key].Some? && '\n' !in key && '\n' !in m.name
    requires i < |SeriesLines(m.samples.M[key].value)|
    ensures var id := SeriesLines(m.samples.M[key].value)[i].id; m.name <= id && '\n' !in id
  {
    hide Metric.Valid, SeriesLines, PlainNumbers, LValue, LineId, LineKeys, Ascending, Printer;
    StoredLine(m, key, 0);
    StoredLine(m, key, i);
    var b, v := m.buckets.value, m.samples.M[key].value.histogram.labelValues;
    KeysArePlain(b, m.formatter.number);
    LineIdPlain(m.name, m.labelKeys, v, LineKeys(b)[i]);
  }

  lemma KeysArePlain(b: Buckets, number: real -> string)
    requires b.Keyed(number) && PlainNumbers(number)
    ensures forall i :: 0 <= i < |LineKeys(b)| ==> '\n' !in LineKeys(b)[i]
  {
    forall i | 0 <= i < |LineKeys(b)| ensures '\n' !in LineKeys(b)[i] {
      if i < |b.keys| {
        assert '\n' !in number(b.bounds[i]) && '\n' !in ".0";
      }
    }
  }

  /** A line has no newline if neither its key nor the identity of its series has one. */
  lemma LineIdPlain(name: string, labelKeys: seq<string>, v: seq<string>, key: string)
    requires |labelKeys| <= |v| && '\n' !in LValue(name, None, labelKeys, v) && '\n' !in key && '\n' !in name
    ensures var id := LineId(name, labelKeys, v, key); name <= id && '\n' !in id
  {
    hide PrintLabels, Labels, BucketFront;
    LabelsPlain(name, labelKeys, v);
    if key != "count" && key != "sum" {
      var front := BucketLineShape(name, labelKeys, v, key);
      FrontPlain(name, labelKeys, v);
    } else {
      assert '\n' !in "count" && '\n' !in "sum";
    }
  }

  lemma LabelsPlain(name: string, labelKeys: seq<string>, v: seq<string>)
    requires |labelKeys| <= |v| && '\n' !in LValue(name, None, labelKeys, v)
    ensures Labels(labelKeys, v) == [] || '\n' !in PrintLabels(Labels(labelKeys, v))
  {
    var ls := Labels(labelKeys, v);
    if ls != [] {
      var text, labels := LValue(name, None, labelKeys, v), PrintLabels(ls);
      assert text == name + "{" + labels + "}";
      assert forall i :: 0 <= i < |labels| ==> labels[i] == text[|name| + 1 + i];
    }
  }

  lemma FrontPlain(name: string, labelKeys: seq<string>, v: seq<string>)
    requires |labelKeys| <= |v| && '\n' !in name
    requires Labels(labelKeys, v) == [] || '\n' !in PrintLabels(Labels(labelKeys, v))
    ensures name <= BucketFront(name, labelKeys, v) && '\n' !in BucketFront(name, labelKeys, v)
  {
    hide PrintLabels, Labels;
  }

  /** What all metrics of a list print. */
  ghost function MetricsLines(ms: seq<Metric>, region: set<object>,
                              number: real -> string, prefix: Option<string>, compact: bool): seq<Option<TextLine>>
    requires Printable(ms, region)
    reads region
  {
    if ms == [] then []
    else
      var last := ms[|ms| - 1];
      MetricSeries(last);
      MetricsLines(ms[..|ms| - 1], region, number, prefix, compact)
      + HeaderLines(last, prefix, compact)
      + SampleLines(number, prefix, LinesOf(last.samples.M, last.samples.T.keys, last.held))
      + [Some(BlankLine)]
  }

  ghost predicate AllPlain(ms: seq<Metric>, region: set<object>, number: real -> string, prefix: Option<string>)
    requires Printable(ms, region)
    reads region
  {
    PlainNumbers(number)
    && forall i :: 0 <= i < |ms| ==>
         && ms[i].Valid() && (ms[i].metricType == Histogram ==> ms[i].HasBuckets())
         && PlainMetric(ms[i], prefix) && PlainNumbers(ms[i].formatter.number)
  }

  /** The text of a scrape, read back: what each metric prints, in printing order. */
  lemma {:induction false} ScrapeReadsBack(ms: seq<Metric>, region: set<object>,
                                           number: real -> string, prefix: Option<string>, compact: bool)
    requires Printable(ms, region) && AllPlain(ms, region, number, prefix)
    ensures ReadText(TextsOf(ms, region, number, prefix, compact)) == MetricsLines(ms, region, number, prefix, compact)
    ensures WholeLines(TextsOf(ms, region, number, prefix, compact))
  {
    hide Metric.Valid, Metric.HasBuckets, Listed, LinesOf, ReadText, HeaderLines, PlainNumbers, PlainMetric, MetricText,
         TextsOf, MetricsLines, SampleLines;
    NothingRead(region, number, prefix, compact);
    if ms != [] {
      var last := ms[|ms| - 1];
      LastText(ms, region, number, prefix, compact);
      LastLines(ms, region, number, prefix, compact);
      ScrapeReadsBack(ms[..|ms| - 1], region, number, prefix, compact);
      MetricReadsBack(last, number, prefix, compact);
      ReadJoin(TextsOf(ms[..|ms| - 1], region, number, prefix, compact), MetricText(last, number, prefix, compact));
      BlankEnds(last, number, prefix, compact);
    }
  }

  lemma NothingRead(region: set<object>, number: real -> string, prefix: Option<string>, compact: bool)
    ensures Printable([], region) && TextsOf([], region, number, prefix, compact) == ""
    ensures MetricsLines([], region, number, prefix, compact) == [] && ReadText("") == []
  {
  }

  lemma BlankEnds(m: Metric, number: real -> string, prefix: Option<string>, compact: bool)
    requires Listed(m.samples.M, m.samples.T.keys, m.held)
    ensures MetricText(m, number, prefix, compact) != ""
  {
    hide Listed, LinesOf, LinesText, HeaderText;
  }

  lemma LastLines(ms: seq<Metric>, region: set<object>,
                  number: real -> string, prefix: Option<string>, compact: bool)
    requires Printable(ms, region) && ms != []
    ensures var last := ms[|ms| - 1];
            && Printable(ms[..|ms| - 1], region) && last.Valid()
            && Listed(last.samples.M, last.samples.T.keys, last.held)
            && MetricsLines(ms, region, number, prefix, compact)
               == MetricsLines(ms[..|ms| - 1], region, number, prefix, compact)
                  + (HeaderLines(last, prefix, compact)
                     + SampleLines(number, prefix, LinesOf(last.samples.M, last.samples.T.keys, last.held))
                     + [Some(BlankLine)])
  {
    hide Metric.Valid, Listed, LinesOf, HeaderLines, SampleLines;
    MetricSeries(ms[|ms| - 1]);
  }
}
