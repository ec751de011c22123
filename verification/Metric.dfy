/**
  A metric: its labels, and the samples found or created for label values
  (lib/prom/src/prom_metric.c, lib/prom/src/prom_histogram.c).
  */
module Metrics {
  import opened Prelude
  import opened Maps
  import opened StringBuilders
  import opened LValues
  import opened Formatters
  import opened Samples
  import opened HistogramBuckets
  import opened Histograms

  /** What a metric's map stores: one sample, or for a histogram metric a histogram. */
  datatype Series = Scalar(sample: Sample) | Dist(histogram: SampleHistogram)

  /** The objects a series consists of. */
  ghost function Objects(s: Series): set<object>
    reads if s.Dist? then {s.histogram} else {}
  {
    match s
    case Scalar(sample) => {sample}
    case Dist(h) => {h} + h.Repr + set i | 0 <= i < |h.slots| :: h.slots[i]
  }

  class Metric {
    const metricType: MetricType
    const name: string
    const help: Option<string>
    const labelKeys: seq<string>
    const samples: PromMap<Series>
    const formatter: Formatter
    var buckets: Option<Buckets>

    ghost var held: set<object>      // the objects of all series
    ghost var Repr: set<object>      // the other objects below the metric

    /** The identity under which the series for some label values is stored. */
    ghost function Key(labelValues: seq<string>): string
      requires |labelKeys| <= |labelValues|
    {
      LValue(name, None, labelKeys, labelValues)
    }

    /** What a histogram that is stored has in common with the metric. */
    ghost predicate Belongs(key: string, h: SampleHistogram)
      reads this`buckets
    {
      && metricType == Histogram && h.name == name && h.labelKeys == labelKeys && buckets == Some(h.buckets)
      && |labelKeys| <= |h.labelValues| && key == Key(h.labelValues)
    }

    /** The key is the identity of some label values. */
    ghost predicate IsKey(key: string) {
      exists labelValues: seq<string> :: |labelKeys| <= |labelValues| && key == Key(labelValues)
    }

    /** The series stored under a key is the one its identity says. */
    ghost predicate SeriesOk(key: string, s: Series)
      reads this`buckets, Objects(s)
    {
      match s
      case Scalar(sample) =>
        metricType != Histogram && sample.lValue == key && sample.metricType == metricType && IsKey(key)
      case Dist(h) => h.Valid() && Belongs(key, h)
    }

    /** Every stored series is in order, and different keys have series that share no object. */
    ghost predicate Holds(m: map<string, Option<Series>>, objects: set<object>)
      reads this`buckets, objects
    {
      && (forall k :: k in m ==> m[k].Some?)
      && (forall k :: k in m && m[k].value.Dist? ==> m[k].value.histogram in objects)
      && (forall k :: k in m ==> Objects(m[k].value) <= objects)
      && (forall k :: k in m ==> SeriesOk(k, m[k].value))
      && (forall k, l :: k in m && l in m && k != l ==> Objects(m[k].value) !! Objects(m[l].value))
    }

    /** The private buffer is empty between calls, and the parts stand in separate objects. */
    ghost predicate Parts()
      reads this`held, this`Repr, Repr
    {
      && this !in Repr && this !in held && held !! Repr
      && {samples, formatter, formatter.builder} <= Repr && samples.Repr <= Repr && formatter.builder.str in Repr
      && samples.Valid() && formatter.Valid() && formatter.Text() == ""
      && {formatter, formatter.builder, formatter.builder.str} !! {samples} + samples.Repr
    }

    ghost predicate Valid()
      reads this, Repr, held
    {
      && Parts() && Holds(samples.M, held)
      && "le" !in labelKeys && "quantile" !in labelKeys
    }

    constructor (metricType: MetricType, name: string, help: Option<string>, labelKeys: seq<string>,
                 samples: PromMap<Series>, formatter: Formatter)
      ensures this.metricType == metricType && this.name == name && this.help == help && this.labelKeys == labelKeys
      ensures this.samples == samples && this.formatter == formatter && buckets == None && held == {}
      ensures Repr == {samples, formatter, formatter.builder, formatter.builder.str} + samples.Repr
    {
      this.metricType, this.name, this.help, this.labelKeys := metricType, name, help, labelKeys;
      this.samples, this.formatter, buckets, held := samples, formatter, None, {};
      Repr := {samples, formatter, formatter.builder, formatter.builder.str} + samples.Repr;
    }

    /** The bounds that prom_histogram_new gives to a new metric. */
    method SetBuckets(buckets: Option<Buckets>)
      requires Valid() && held == {} && samples.M == map[]
      modifies this`buckets
      ensures Valid() && this.buckets == buckets
    {
      hide PromMap.Valid, Formatter.Valid, Formatter.Text;
      this.buckets := buckets;
    }

    /** Prints the identity into the private buffer and takes it out again. */
    method TakeKey(labelValues: seq<string>) returns (lValue: string)
      requires Valid() && |labelKeys| <= |labelValues|
      modifies this`Repr, formatter.builder, formatter.builder.str
      ensures Valid() && fresh(Repr - old(Repr)) && lValue == Key(labelValues)
    {
      hide PromMap.Valid, StringBuilder.Valid, StringBuilder.Contents, LValue, Formatter.Text, Metric.Holds;
      formatter.LoadLValue(name, None, labelKeys, labelValues);
      lValue := formatter.Dump();
      Repr := Repr + {formatter.builder.str};
      assert "" + Key(labelValues) == Key(labelValues);
    }

    /** Stores a new series that shares no object with the rest. */
    method Store(lValue: string, s: Series, ghost objects: set<object>)
      requires Valid() && lValue !in samples.M && SeriesOk(lValue, s) && objects == Objects(s)
      requires objects !! held && objects !! Repr && this !in objects
      requires s.Dist? ==> s.histogram in objects
      modifies this`Repr, this`held, samples, samples.Repr
      ensures Valid() && fresh(Repr - old(Repr)) && held == old(held) + objects
      ensures samples.M == old(samples.M)[lValue := Some(s)]
      ensures samples.T == old(samples.T).Set(lValue, Some(s))
    {
      hide PromMap.Valid, Formatter.Valid, Formatter.Text, Metric.SeriesOk, Metric.Holds, Objects;
      HoldsOneMore(samples.M, held, lValue, s);
      Put(lValue, s);
      held := held + objects;
    }

    method Put(lValue: string, s: Series)
      requires Parts()
      modifies this`Repr, samples, samples.Repr
      ensures Parts() && fresh(Repr - old(Repr))
      ensures samples.M == old(samples.M)[lValue := Some(s)]
      ensures samples.T == old(samples.T).Set(lValue, Some(s))
    {
      hide PromMap.Valid, Formatter.Valid, Formatter.Text, Metric.Holds;
      samples.Set(lValue, Some(s));
      Repr := Repr + samples.Repr;
    }

    lemma HoldsOneMore(m: map<string, Option<Series>>, objects: set<object>, key: string, s: Series)
      requires Holds(m, objects) && key !in m && SeriesOk(key, s) && Objects(s) !! objects
      requires s.Dist? ==> s.histogram in Objects(s)
      ensures Holds(m[key := Some(s)], objects + Objects(s))
    {
      hide Objects, Metric.SeriesOk;
    }

    /** pms_from_labels: the stored sample, or a new one with value zero stored under the identity. */
    method FromLabels(labelValues: seq<string>) returns (sample: Sample)
      requires Valid() && metricType != Histogram && |labelKeys| <= |labelValues|
      modifies this`Repr, this`held, Repr
      ensures Valid() && fresh(Repr - old(Repr)) && fresh(held - old(held)) && old(held) <= held
      ensures buckets == old(buckets)
      ensures var key := Key(labelValues);
              && key in samples.M && samples.M[key] == Some(Scalar(sample))
              && (key in old(samples.M) ==> samples.M == old(samples.M) && samples.T == old(samples.T))
              && (key !in old(samples.M) ==>
                    && fresh(sample) && sample.rValue == 0.0
                    && samples.M == old(samples.M)[key := Some(Scalar(sample))]
                    && samples.T == old(samples.T).Set(key, Some(Scalar(sample))))
    {
      hide PromMap.Valid, Formatter.Valid, Formatter.Text, LValue;
      var lValue := TakeKey(labelValues);
      var found := Find(lValue);
      if found.Some? {
        return found.value.sample;
      }
      assert IsKey(lValue);
      sample := NewScalar(lValue);
    }

    /** The lookup finds exactly the keys that are stored: no series is a NULL pointer. */
    method Find(lValue: string) returns (found: Option<Series>)
      requires Valid()
      ensures found.Some? <==> lValue in samples.M
      ensures found.Some? ==> samples.M[lValue] == found && SeriesOk(lValue, found.value)
    {
      hide PromMap.Valid, Formatter.Valid, Formatter.Text, Metric.SeriesOk, Objects;
      found := samples.Get(lValue);
    }

    method NewScalar(lValue: string) returns (sample: Sample)
      requires Valid() && metricType != Histogram && lValue !in samples.M && IsKey(lValue)
      modifies this`Repr, this`held, samples, samples.Repr
      ensures Valid() && fresh(Repr - old(Repr)) && held == old(held) + {sample}
      ensures fresh(sample) && sample.rValue == 0.0
      ensures samples.M == old(samples.M)[lValue := Some(Scalar(sample))]
      ensures samples.T == old(samples.T).Set(lValue, Some(Scalar(sample)))
    {
      hide PromMap.Valid, Formatter.Valid, Formatter.Text, Metric.Holds;
      sample := new Sample(metricType, lValue, 0.0);
      Store(lValue, Scalar(sample), {sample});
    }

    /** A histogram metric whose bounds have been set by prom_histogram_new. */
    ghost predicate HasBuckets()
      reads this`buckets
    {
      metricType == Histogram && buckets.Some? && Ascending(buckets.value.bounds)
      && buckets.value.Keyed(formatter.number) && Printer(formatter.number)
    }

    lemma HasHistograms()
      requires HasBuckets()
      ensures metricType == Histogram && buckets.Some?
    {
    }

    /** pms_histogram_from_labels: the stored histogram, or a new one without observations. */
    method HistogramFromLabels(labelValues: seq<string>) returns (h: SampleHistogram)
      requires Valid() && HasBuckets() && |labelKeys| <= |labelValues|
      modifies this`Repr, this`held, Repr
      ensures Valid() && fresh(Repr - old(Repr)) && fresh(held - old(held)) && old(held) <= held
      ensures buckets == old(buckets)
      ensures var key := Key(labelValues);
              && key in samples.M && samples.M[key] == Some(Dist(h))
              && (key in old(samples.M) ==> samples.M == old(samples.M) && samples.T == old(samples.T))
              && (key !in old(samples.M) ==>
                    && fresh(h) && h.observed == []
                    && samples.M == old(samples.M)[key := Some(Dist(h))]
                    && samples.T == old(samples.T).Set(key, Some(Dist(h))))
    {
      hide PromMap.Valid, Formatter.Valid, Formatter.Text, LValue, Metric.HasBuckets, Metric.Holds, Objects,
           SampleHistogram.Valid;
      HasHistograms();
      var lValue := TakeKey(labelValues);
      var found := Find(lValue);
      if found.Some? {
        return found.value.histogram;
      }
      h := NewSeries(lValue, labelValues);
    }

    method NewSeries(lValue: string, labelValues: seq<string>) returns (h: SampleHistogram)
      requires Valid() && HasBuckets() && |labelKeys| <= |labelValues|
      requires lValue == Key(labelValues) && lValue !in samples.M
      modifies this`Repr, this`held, samples, samples.Repr
      ensures Valid() && fresh(Repr - old(Repr)) && fresh(held - old(held)) && old(held) <= held
      ensures fresh(h) && h.observed == []
      ensures samples.M == old(samples.M)[lValue := Some(Dist(h))]
      ensures samples.T == old(samples.T).Set(lValue, Some(Dist(h)))
    {
      hide PromMap.Valid, Formatter.Valid, Formatter.Text, Metric.Holds, SampleHistogram.Valid;
      h := NewHistogram(formatter.number, name, buckets.value, labelKeys, labelValues);
      assert forall i :: 0 <= i < |h.slots| ==> h.slots[i] in h.slots;
      assert fresh(Objects(Dist(h)));
      Store(lValue, Dist(h), Objects(Dist(h)));
    }

    /** An observation changes the one series it is made on. */
    method ObserveStored(ghost key: string, h: SampleHistogram, value: real) returns (err: int)
      requires Valid() && key in samples.M && samples.M[key] == Some(Dist(h))
      modifies held
      ensures Valid() && h.observed == old(h.observed) + [value] && samples.M == old(samples.M)
      ensures Repr == old(Repr) && held == old(held) && buckets == old(buckets)
      ensures err == if value < 0.0 then 2 else 0
      ensures forall k :: k in samples.M && k != key && samples.M[k].value.Dist? ==>
                samples.M[k].value.histogram.observed == old(samples.M[k].value.histogram.observed)
    {
      hide PromMap.Valid, Formatter.Valid, Formatter.Text, SampleHistogram.Valid, Metric.Parts, Metric.SeriesOk,
           Objects;
      PartsApart();
      StoredHistogram(key, h);
      err := h.Observe(value);
      SeriesOfHistogram(key, h);
      forall k | k in samples.M && k != key
        ensures SeriesOk(k, samples.M[k].value) && Objects(samples.M[k].value) == old(Objects(samples.M[k].value))
      {
        assert old(SeriesOk(k, samples.M[k].value));
      }
    }

    lemma StoredHistogram(key: string, h: SampleHistogram)
      requires Holds(samples.M, held) && key in samples.M && samples.M[key] == Some(Dist(h))
      ensures h.Valid() && Belongs(key, h) && h in Objects(Dist(h)) && Objects(Dist(h)) <= held
      ensures Objects(Dist(h)) == {h} + h.Repr + set i | 0 <= i < |h.slots| :: h.slots[i]
    {
      hide SampleHistogram.Valid;
    }

    lemma SeriesOfHistogram(key: string, h: SampleHistogram)
      requires h.Valid() && Belongs(key, h)
      ensures SeriesOk(key, Dist(h))
      ensures Objects(Dist(h)) == {h} + h.Repr + set i | 0 <= i < |h.slots| :: h.slots[i]
    {
      hide SampleHistogram.Valid;
    }

    lemma PartsApart()
      requires Parts()
      ensures held !! Repr && this !in held && this !in Repr && samples in Repr
    {
      hide PromMap.Valid, Formatter.Valid, Formatter.Text;
    }

    /** prom_histogram_observe. */
    method Observe(value: real, labelValues: seq<string>) returns (err: int)
      requires Valid() && (metricType == Histogram ==> HasBuckets()) && |labelKeys| <= |labelValues|
      modifies this`Repr, this`held, Repr, held
      ensures Valid() && fresh(Repr - old(Repr)) && fresh(held - old(held)) && old(held) <= held
      ensures buckets == old(buckets)
      ensures metricType != Histogram ==> err == 1 && samples.M == old(samples.M)
      ensures metricType == Histogram ==>
                var key := Key(labelValues);
                && err == (if value < 0.0 then 2 else 0)
                && samples.M.Keys == old(samples.M.Keys) + {key}
                && (forall k :: k in old(samples.M) ==> samples.M[k] == old(samples.M[k]))
                && (forall k :: Observed(k) == old(Observed(k)) + if k == key then [value] else [])
    {
      hide PromMap.Valid, Formatter.Valid, Formatter.Text, SampleHistogram.Valid, LValue, Metric.Holds, Metric.Parts;
      if metricType != Histogram {
        return 1;
      }
      HistogramsApart();
      var h := HistogramFromLabels(labelValues);
      err := ObserveStored(Key(labelValues), h, value);
    }

    lemma HistogramsApart()
      requires Valid()
      ensures forall k :: k in samples.M ==> samples.M[k].Some?
      ensures forall k :: k in samples.M && samples.M[k].value.Dist? ==> samples.M[k].value.histogram !in Repr
    {
      hide PromMap.Valid, Formatter.Valid, Formatter.Text, Metric.SeriesOk, Objects;
    }

    /** A store changes the one sample it is made on. */
    method SetStored(ghost key: string, sample: Sample, value: real) returns (err: int)
      requires Valid() && key in samples.M && samples.M[key] == Some(Scalar(sample)) && metricType == Gauge
      modifies held
      ensures Valid() && samples.M == old(samples.M)
      ensures Repr == old(Repr) && held == old(held) && buckets == old(buckets)
      ensures err == 0
      ensures forall k :: Value(k) == if k == key then Some(value) else old(Value(k))
    {
      hide PromMap.Valid, Formatter.Valid, Formatter.Text, Metric.Parts, Metric.SeriesOk, Objects;
      PartsApart();
      StoredSample(key, sample);
      SamplesApart(key, sample);
      err := sample.Set(value);
      forall k | k in samples.M && k != key
        ensures SeriesOk(k, samples.M[k].value) && Objects(samples.M[k].value) == old(Objects(samples.M[k].value))
      {
        assert old(SeriesOk(k, samples.M[k].value));
      }
      StillStored(key, sample);
    }

    lemma StoredSample(key: string, sample: Sample)
      requires Holds(samples.M, held) && key in samples.M && samples.M[key] == Some(Scalar(sample))
      ensures sample in held && Objects(Scalar(sample)) == {sample} && sample.metricType == metricType
      ensures sample.lValue == key && metricType != Histogram && IsKey(key)
    {
    }

    lemma StillStored(key: string, sample: Sample)
      requires sample.metricType == metricType && sample.lValue == key && metricType != Histogram && IsKey(key)
      ensures SeriesOk(key, Scalar(sample)) && Objects(Scalar(sample)) == {sample}
    {
    }

    lemma SamplesApart(key: string, sample: Sample)
      requires Holds(samples.M, held) && key in samples.M && samples.M[key] == Some(Scalar(sample))
      ensures forall k :: k in samples.M ==> samples.M[k].Some? && (k == key <==> samples.M[k] == Some(Scalar(sample)))
    {
      hide Metric.SeriesOk;
    }

    /** prom_gauge_set: the sample of the label values, new if need be, gets the value. */
    method Set(value: real, labelValues: seq<string>) returns (err: int)
      requires Valid() && |labelKeys| <= |labelValues|
      modifies this`Repr, this`held, Repr, held
      ensures Valid() && fresh(Repr - old(Repr)) && fresh(held - old(held)) && old(held) <= held
      ensures buckets == old(buckets)
      ensures metricType != Gauge ==> err == 1 && samples.M == old(samples.M) && forall k :: Value(k) == old(Value(k))
      ensures metricType == Gauge ==>
                var key := Key(labelValues);
                && err == 0
                && samples.M.Keys == old(samples.M.Keys) + {key}
                && (forall k :: k in old(samples.M) ==> samples.M[k] == old(samples.M[k]))
                && (forall k :: Value(k) == if k == key then Some(value) else old(Value(k)))
    {
      hide PromMap.Valid, Formatter.Valid, Formatter.Text, LValue, Metric.Holds, Metric.Parts;
      if metricType != Gauge {
        return 1;
      }
      SamplesKept();
      var sample := FromLabels(labelValues);
      err := SetStored(Key(labelValues), sample, value);
    }

    lemma SamplesKept()
      requires Valid()
      ensures forall k :: k in samples.M ==> samples.M[k].Some?
      ensures forall k :: k in samples.M && samples.M[k].value.Scalar? ==>
                samples.M[k].value.sample in held && samples.M[k].value.sample !in Repr
    {
      hide PromMap.Valid, Formatter.Valid, Formatter.Text, Metric.SeriesOk;
    }

    /** The value of the sample stored under a key. */
    ghost function Value(key: string): Option<real>
      reads samples`M
      reads if key in samples.M && samples.M[key].Some? && samples.M[key].value.Scalar?
            then {samples.M[key].value.sample} else {}
    {
      if key in samples.M && samples.M[key].Some? && samples.M[key].value.Scalar?
      then Some(samples.M[key].value.sample.rValue)
      else None
    }

    /** The values observed on the series stored under a key. */
    ghost function Observed(key: string): seq<real>
      reads samples`M
      reads if key in samples.M && samples.M[key].Some? && samples.M[key].value.Dist?
            then {samples.M[key].value.histogram} else {}
    {
      if key in samples.M && samples.M[key].Some? && samples.M[key].value.Dist?
      then samples.M[key].value.histogram.observed
      else []
    }
  }

  method NewParts(number: real -> string) returns (samples: PromMap<Series>, formatter: Formatter)
    ensures samples.Valid() && samples.M == map[] && fresh(samples) && fresh(samples.Repr)
    ensures formatter.Valid() && formatter.Text() == "" && formatter.number == number
    ensures fresh({formatter, formatter.builder, formatter.builder.str})
    ensures {formatter, formatter.builder, formatter.builder.str} !! {samples} + samples.Repr
  {
    hide PromMap.Valid;
    samples := new PromMap();
    formatter := new Formatter(number);
  }

  /** What a constructor leaves behind. `Undefined` is for the failure path of prom_metric_new, which
      destroys an object whose fields were never set: C does not say what follows, NULL or anything else. */
  datatype Creation = Created(metric: Metric) | Refused | Undefined

  /** prom_metric_new: no metric comes of the label keys that histograms and summaries use themselves. */
  method NewMetric(number: real -> string, metricType: MetricType, name: string, help: Option<string>,
                   labelKeys: seq<string>) returns (r: Creation)
    ensures !r.Refused? && (r.Undefined? <==> "le" in labelKeys || "quantile" in labelKeys)
    ensures r.Created? ==>
              var m := r.metric;
              && m.Valid() && fresh(m) && fresh(m.Repr) && m.samples.M == map[] && m.held == {} && m.buckets == None
              && m.metricType == metricType && m.name == name && m.help == help && m.labelKeys == labelKeys
              && m.formatter.number == number
  {
    hide PromMap.Valid, Formatter.Valid, Formatter.Text;
    for i := 0 to |labelKeys|
      invariant "le" !in labelKeys[..i] && "quantile" !in labelKeys[..i]
    {
      if labelKeys[i] == "le" {
        return Undefined;
      }
      if labelKeys[i] == "quantile" {
        return Undefined;
      }
    }
    assert labelKeys[..|labelKeys|] == labelKeys;
    var samples, formatter := NewParts(number);
    var m := new Metric(metricType, name, help, labelKeys, samples, formatter);
    return Created(m);
  }

  /** prom_histogram_new: refuses descending bounds, and uses the default buckets if none are given. */
  method NewHistogramMetric(number: real -> string, name: string, help: Option<string>, buckets: Option<Buckets>,
                            labelKeys: seq<string>) returns (r: Creation)
    requires Printer(number) && (buckets.Some? ==> buckets.value.Keyed(number))
    ensures r.Undefined? <==> "le" in labelKeys || "quantile" in labelKeys
    ensures r.Refused? <==> !r.Undefined? && buckets.Some? && !Ascending(buckets.value.bounds)
    ensures r.Created? ==>
              var m := r.metric;
              && m.Valid() && fresh(m) && fresh(m.Repr) && m.samples.M == map[] && m.held == {}
              && m.metricType == Histogram && m.name == name && m.help == help && m.labelKeys == labelKeys
              && m.HasBuckets() && m.formatter.number == number
              && (buckets.Some? ==> m.buckets == buckets)
              && (buckets.None? ==> m.buckets.value.bounds
                                    == [0.005, 0.01, 0.025, 0.05, 0.1, 0.25, 0.5, 1.0, 2.5, 5.0, 10.0])
  {
    hide Ascending, Printer, Metric.Parts, Metric.Holds;
    r := NewMetric(number, Histogram, name, help, labelKeys);
    if r.Undefined? {
      return;
    }
    var chosen := buckets;
    if buckets.None? {
      var defaults := New(number, DEFAULT_BOUNDS);
      DefaultsAccepted();
      chosen := Some(defaults);
    } else {
      var ok := Increasing(buckets.value);
      if !ok {
        return Refused;
      }
    }
    r.metric.SetBuckets(chosen);
  }

  lemma DefaultsAccepted()
    ensures |DEFAULT_BOUNDS| == 11 && Ascending(DEFAULT_BOUNDS)
  {
    DefaultsAscend();
  }

  lemma SameSeriesSameKey(m: Metric, k: string, l: string)
    requires m.Valid() && k in m.samples.M && l in m.samples.M && m.samples.M[k] == m.samples.M[l]
    ensures k == l
  {
    hide PromMap.Valid, Formatter.Valid, Formatter.Text, Metric.SeriesOk, Metric.Parts;
    var s := m.samples.M[k].value;
    assert (if s.Dist? then s.histogram as object else s.sample) in Objects(s);
  }

  /** pms_from_labels or pms_histogram_from_labels, by the metric's type. */
  method FindOrCreate(m: Metric, labelValues: seq<string>) returns (s: Series)
    requires m.Valid() && (m.metricType == Histogram ==> m.HasBuckets()) && |m.labelKeys| <= |labelValues|
    modifies m`Repr, m`held, m.Repr
    ensures m.Valid() && (m.metricType == Histogram ==> m.HasBuckets()) && m.buckets == old(m.buckets)
    ensures fresh(m.Repr - old(m.Repr)) && fresh(m.held - old(m.held)) && old(m.held) <= m.held
    ensures m.Key(labelValues) in m.samples.M && m.samples.M[m.Key(labelValues)] == Some(s)
    ensures forall k :: k in old(m.samples.M) ==> k in m.samples.M && m.samples.M[k] == old(m.samples.M[k])
  {
    hide Metric.Parts, Metric.Holds, Metric.SeriesOk, Metric.Key, Ascending, Printer;
    if m.metricType == Histogram {
      var h := m.HistogramFromLabels(labelValues);
      s := Dist(h);
    } else {
      var sample := m.FromLabels(labelValues);
      s := Scalar(sample);
    }
  }

  /** Find-or-create over any run of lookups, whatever the label values: two lookups give the same
      sample or histogram object exactly if their label values print the same identity, and none is
      lost. So equal label values always give the same object, and different ones give different
      objects if only the last value may have quotes. */
  method AnyLookups(m: Metric, requests: seq<seq<string>>) returns (found: seq<Series>)
    requires m.Valid() && (m.metricType == Histogram ==> m.HasBuckets())
    requires forall i :: 0 <= i < |requests| ==> |requests[i]| == |m.labelKeys|
    modifies m`Repr, m`held, m.Repr
    ensures m.Valid() && (m.metricType == Histogram ==> m.HasBuckets()) && m.buckets == old(m.buckets)
    ensures fresh(m.Repr - old(m.Repr)) && fresh(m.held - old(m.held)) && old(m.held) <= m.held
    ensures |found| == |requests|
    ensures forall i, j :: 0 <= i < |requests| && 0 <= j < |requests| ==>
              (found[i] == found[j]
               <==> LValue(m.name, None, m.labelKeys, requests[i]) == LValue(m.name, None, m.labelKeys, requests[j]))
    ensures forall i, j :: 0 <= i < |requests| && 0 <= j < |requests| ==>
              InnerQuoteFree(requests[i]) && InnerQuoteFree(requests[j]) ==>
                (found[i] == found[j] <==> requests[i] == requests[j])
    ensures forall k :: k in old(m.samples.M) ==> k in m.samples.M && m.samples.M[k] == old(m.samples.M[k])
  {
    hide Metric.Valid, Metric.HasBuckets, InnerQuoteFree, LValue;
    found := [];
    for n := 0 to |requests|
      invariant m.Valid() && (m.metricType == Histogram ==> m.HasBuckets()) && m.buckets == old(m.buckets)
      invariant fresh(m.Repr - old(m.Repr)) && fresh(m.held - old(m.held)) && old(m.held) <= m.held
      invariant |found| == n
      invariant forall k :: k in old(m.samples.M) ==> k in m.samples.M && m.samples.M[k] == old(m.samples.M[k])
      invariant forall i :: 0 <= i < n ==>
                  m.Key(requests[i]) in m.samples.M && m.samples.M[m.Key(requests[i])] == Some(found[i])
    {
      var s := FindOrCreate(m, requests[n]);
      found := found + [s];
    }
    forall i, j | 0 <= i < |requests| && 0 <= j < |requests|
      ensures found[i] == found[j] <==> m.Key(requests[i]) == m.Key(requests[j])
      ensures InnerQuoteFree(requests[i]) && InnerQuoteFree(requests[j]) && m.Key(requests[i]) == m.Key(requests[j]) ==>
                requests[i] == requests[j]
    {
      if found[i] == found[j] {
        SameSeriesSameKey(m, m.Key(requests[i]), m.Key(requests[j]));
      }
      if InnerQuoteFree(requests[i]) && InnerQuoteFree(requests[j]) && m.Key(requests[i]) == m.Key(requests[j]) {
        SameKeySameValues(m, requests[i], requests[j]);
      }
    }
  }

  lemma SameKeySameValues(m: Metric, v: seq<string>, w: seq<string>)
    requires |v| == |w| == |m.labelKeys| && InnerQuoteFree(v) && InnerQuoteFree(w)
    requires m.Key(v) == m.Key(w)
    ensures v == w
  {
    LValueInjective(m.name, None, m.labelKeys, v, w);
  }

  /** The values that a run of observations makes under one key, in order. */
  function ValuesFor(name: string, labelKeys: seq<string>, requests: seq<(seq<string>, real)>, key: string): seq<real>
    requires forall i :: 0 <= i < |requests| ==> |labelKeys| <= |requests[i].0|
  {
    if requests == [] then []
    else
      var (labelValues, value) := requests[|requests| - 1];
      ValuesFor(name, labelKeys, requests[..|requests| - 1], key)
      + if LValue(name, None, labelKeys, labelValues) == key then [value] else []
  }

  lemma ValuesForNone(name: string, labelKeys: seq<string>, requests: seq<(seq<string>, real)>)
    requires forall i :: 0 <= i < |requests| ==> |labelKeys| <= |requests[i].0|
    requires requests == []
    ensures forall key :: ValuesFor(name, labelKeys, requests, key) == []
  {
  }

  lemma ValuesForStep(name: string, labelKeys: seq<string>, requests: seq<(seq<string>, real)>, n: nat)
    requires n + 1 == |requests| && forall i :: 0 <= i < |requests| ==> |labelKeys| <= |requests[i].0|
    ensures forall key ::
              ValuesFor(name, labelKeys, requests, key)
              == ValuesFor(name, labelKeys, requests[..n], key)
                 + if key == LValue(name, None, labelKeys, requests[n].0) then [requests[n].1] else []
  {
    hide LValue;
  }

  /** Over any run of prom_histogram_observe every series gains exactly the values observed on its
      label values, in order, and the series are those there were and those observed. */
  method AnyObservations(m: Metric, requests: seq<(seq<string>, real)>) returns (errs: seq<int>)
    requires m.Valid() && m.HasBuckets()
    requires forall i :: 0 <= i < |requests| ==> |m.labelKeys| <= |requests[i].0|
    modifies m`Repr, m`held, m.Repr, m.held
    ensures m.Valid() && m.HasBuckets() && m.buckets == old(m.buckets)
    ensures fresh(m.Repr - old(m.Repr)) && fresh(m.held - old(m.held)) && old(m.held) <= m.held
    ensures |errs| == |requests|
    ensures forall i :: 0 <= i < |requests| ==> errs[i] == if requests[i].1 < 0.0 then 2 else 0
    ensures m.samples.M.Keys == old(m.samples.M.Keys) + set i | 0 <= i < |requests| :: m.Key(requests[i].0)
    ensures forall k :: k in old(m.samples.M) ==> m.samples.M[k] == old(m.samples.M[k])
    ensures forall k :: m.Observed(k) == old(m.Observed(k)) + ValuesFor(m.name, m.labelKeys, requests, k)
  {
    hide Metric.Valid, Metric.HasBuckets, Metric.Observed, LValue, ValuesFor;
    m.HasHistograms();
    if requests == [] {
      ValuesForNone(m.name, m.labelKeys, requests);
      errs := [];
    } else {
      var n := |requests| - 1;
      ValuesForStep(m.name, m.labelKeys, requests, n);
      errs := AnyObservations(m, requests[..n]);
      var err := m.Observe(requests[n].1, requests[n].0);
      errs := errs + [err];
    }
  }
}
