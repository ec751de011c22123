/**
  The sample of a histogram metric: its lines, the map from bucket key to line, the map from line
  to sample, and observation (lib/prom/src/prom_metric_sample_histogram.c).
  */
module Histograms {
  import opened Prelude
  import opened LValues
  import opened Tables
  import opened LinkedLists
  import opened Maps
  import opened Formatters
  import opened Samples
  import opened StringBuilders
  import opened HistogramBuckets
  import opened HistogramSpec

  /** The two maps lead from every line key to its line and on to its sample, and different keys
      have different samples. */
  ghost predicate Wired(lines: map<string, Option<string>>, samples: map<string, Option<Sample>>,
                        keys: seq<string>, ids: seq<string>, slots: seq<Sample>)
  {
    && |keys| == |ids| == |slots|
    && (forall i :: 0 <= i < |keys| ==> keys[i] in lines && lines[keys[i]] == Some(ids[i]))
    && (forall i :: 0 <= i < |keys| ==> ids[i] in samples && samples[ids[i]] == Some(slots[i]))
    && (forall i, j :: 0 <= i < |keys| && 0 <= j < |keys| ==> (slots[i] == slots[j] <==> keys[i] == keys[j]))
  }

  /** The samples behind the lines after one more line: a repeated key gives all its lines the new sample. */
  ghost function SlotsAfter(keys: seq<string>, slots: seq<Sample>, key: string, sample: Sample): (r: seq<Sample>)
    requires |keys| == |slots|
    ensures |r| == |slots| + 1
    ensures forall i :: 0 <= i < |slots| ==> r[i] == if keys[i] == key then sample else slots[i]
    ensures r[|slots|] == sample
  {
    seq(|slots|, i requires 0 <= i < |slots| => if keys[i] == key then sample else slots[i]) + [sample]
  }

  lemma WiredStep(lines: map<string, Option<string>>, samples: map<string, Option<Sample>>,
                  keys: seq<string>, ids: seq<string>, slots: seq<Sample>, key: string, id: string, sample: Sample)
    requires Wired(lines, samples, keys, ids, slots)
    requires forall i :: 0 <= i < |keys| ==> (ids[i] == id <==> keys[i] == key)
    requires sample !in slots
    ensures Wired(lines[key := Some(id)], samples[id := Some(sample)], keys + [key], ids + [id],
                  SlotsAfter(keys, slots, key, sample))
  {
  }

  lemma WiredSizes(lines: map<string, Option<string>>, samples: map<string, Option<Sample>>,
                   keys: seq<string>, ids: seq<string>, slots: seq<Sample>)
    requires Wired(lines, samples, keys, ids, slots)
    ensures |keys| == |ids| == |slots|
  {
  }

  class SampleHistogram {
    const lValueList: LinkedList<string>
    const lValues: PromMap<string>
    const samples: PromMap<Sample>
    const formatter: Formatter
    const buckets: Buckets

    const name: string               // what the lines are printed for
    const labelKeys: seq<string>
    const labelValues: seq<string>

    ghost var slots: seq<Sample>     // the sample behind each line
    ghost var observed: seq<real>    // the observations so far
    ghost var raised: seq<nat>       // the lines raised so far, in order

    ghost var Repr: set<object>      // the objects below the histogram, without the samples in `slots`

    /** The parts are in order and stand in separate objects. */
    ghost predicate Parts()
      reads this`slots, this`Repr, Repr
    {
      && {lValueList, lValues, samples, formatter, formatter.builder} <= Repr && formatter.builder.str in Repr
      && lValueList.Repr <= Repr && lValues.Repr <= Repr && samples.Repr <= Repr
      && lValueList.Valid() && lValues.Valid() && samples.Valid() && formatter.Valid()
      && Apart(lValueList.Repr, {lValues} + lValues.Repr, {samples} + samples.Repr,
               {formatter, formatter.builder, formatter.builder.str})
      && this !in Repr
      && forall i :: 0 <= i < |slots| ==> slots[i] !in Repr
    }

    static ghost predicate Apart(a: set<object>, b: set<object>, c: set<object>, d: set<object>) {
      a !! b && a !! c && a !! d && b !! c && b !! d && c !! d
    }

    /** The list and the two maps have one line, and one sample behind it, for each key. */
    ghost predicate LinesFor(keys: seq<string>, items: seq<string>, lines: map<string, Option<string>>,
                             stored: map<string, Option<Sample>>, slots: seq<Sample>)
      requires |labelKeys| <= |labelValues|
    {
      && items == Ids(keys)
      && Wired(lines, stored, keys, Ids(keys), slots)
      && forall i :: 0 <= i < |keys| ==> slots[i].metricType == Histogram && slots[i].lValue == Ids(keys)[i]
    }

    /** Lines 0 to m - 1 are listed, and the maps lead from their keys to their samples. */
    ghost predicate HasLines(m: nat)
      reads this`slots, lValueList`items, lValues`M, samples`M
    {
      && |labelKeys| <= |labelValues| && m <= |LineKeys(buckets)|
      && LinesFor(LineKeys(buckets)[..m], lValueList.items, lValues.M, samples.M, slots)
    }

    /** Under construction: the first m lines exist, and their samples are zero. */
    ghost predicate Loaded(m: nat)
      reads this`slots, this`Repr, Repr, slots
    {
      Parts() && formatter.Text() == "" && HasLines(m) && forall i :: 0 <= i < |slots| ==> slots[i].rValue == 0.0
    }

    /** The samples have the values that the observations so far require. */
    ghost predicate Counted()
      requires |buckets.keys| == |buckets.bounds| && |slots| == |buckets.keys| + 3
      reads this`slots, this`observed, slots
    {
      var n := |buckets.keys|;
      && (forall i :: 0 <= i < n ==> slots[i].rValue == BucketValue(buckets, buckets.keys[i], observed) as real)
      && slots[n].rValue == |observed| as real
      && slots[n + 1].rValue == |observed| as real
      && slots[n + 2].rValue == SumNonNegative(observed)
    }

    /** All lines exist, for bounds that passed the constructor's check. */
    ghost predicate Complete()
      reads this`slots, this`Repr, Repr
    {
      && Parts() && formatter.Text() == "" && HasLines(|buckets.keys| + 3)
      && "+Inf" !in buckets.keys && "count" !in buckets.keys && "sum" !in buckets.keys
      && |buckets.keys| == |buckets.bounds| && |slots| == |buckets.keys| + 3 && Ascending(buckets.bounds)
    }

    ghost predicate Valid()
      reads this`slots, this`Repr, this`observed, Repr, slots
    {
      Complete() && Counted()
    }

    ghost function Ids(keys: seq<string>): (ids: seq<string>)
      requires |labelKeys| <= |labelValues|
      ensures |ids| == |keys|
    {
      LineIds(name, labelKeys, labelValues, keys)
    }

    /** The samples have the values they had, and nothing was observed. */
    twostate predicate Untouched()
      reads this, slots
    {
      && observed == old(observed) && raised == old(raised)
      && slots == old(slots) && forall i :: 0 <= i < |slots| ==> slots[i].rValue == old(slots[i].rValue)
    }

    /** The line goes to the end of the list. */
    method ListLine(lValue: string)
      requires Parts() && formatter.Text() == ""
      modifies this`Repr, Repr
      ensures Parts() && formatter.Text() == "" && fresh(Repr - old(Repr)) && Untouched()
      ensures lValueList.items == old(lValueList.items) + [lValue]
      ensures lValues.M == old(lValues.M) && samples.M == old(samples.M)
    {
      hide PromMap.Valid, LinkedList.Valid, StringBuilder.Valid, Formatter.Valid, Formatter.Text;
      lValueList.Append(lValue);
      Repr := Repr + lValueList.Repr;
    }

    /** The key leads to the line. */
    method MapKey(key: string, lValue: string)
      requires Parts() && formatter.Text() == ""
      modifies this`Repr, Repr
      ensures Parts() && formatter.Text() == "" && fresh(Repr - old(Repr)) && Untouched()
      ensures lValues.M == old(lValues.M)[key := Some(lValue)]
      ensures lValueList.items == old(lValueList.items) && samples.M == old(samples.M)
    {
      hide PromMap.Valid, LinkedList.Valid, StringBuilder.Valid, Formatter.Valid, Formatter.Text, Table.Set;
      lValues.Set(key, Some(lValue));
      Repr := Repr + lValues.Repr;
    }

    /** The sample stands behind the line. */
    method StoreSample(lValue: string, sample: Sample)
      requires Parts() && formatter.Text() == "" && sample !in Repr
      modifies this`Repr, Repr
      ensures Parts() && formatter.Text() == "" && fresh(Repr - old(Repr)) && Untouched()
      ensures sample.rValue == old(sample.rValue) && sample !in Repr
      ensures samples.M == old(samples.M)[lValue := Some(sample)]
      ensures lValueList.items == old(lValueList.items) && lValues.M == old(lValues.M)
    {
      hide PromMap.Valid, LinkedList.Valid, StringBuilder.Valid, Formatter.Valid, Formatter.Text, Table.Set;
      samples.Set(lValue, Some(sample));
      Repr := Repr + samples.Repr;
    }

    /** What each of the init functions does once the line's text is known. */
    method InitLine(key: string, lValue: string, ghost m: nat)
      requires Loaded(m) && m < |LineKeys(buckets)| && key == LineKeys(buckets)[m]
      requires lValue == LineId(name, labelKeys, labelValues, key)
      modifies this`Repr, this`slots, Repr
      ensures Loaded(m + 1) && fresh(Repr - old(Repr))
      ensures observed == old(observed) && raised == old(raised)
      ensures forall s :: s in slots ==> s in old(slots) || fresh(s)
    {
      hide SampleHistogram.Parts, SampleHistogram.LinesFor, Formatter.Text, LineId, LineKeys;
      ghost var keys := LineKeys(buckets)[..m];
      NextLine(m);
      ListLine(lValue);
      MapKey(key, lValue);
      var sample := new Sample(Histogram, lValue, 0.0);
      StoreSample(lValue, sample);
      LinesForStep(m, old(lValueList.items), old(lValues.M), old(samples.M), slots, sample);
      AddSlot(SlotsAfter(keys, slots, key, sample), sample);
    }

    lemma LinesForStep(m: nat, items: seq<string>, lines: map<string, Option<string>>,
                       stored: map<string, Option<Sample>>, slots: seq<Sample>, sample: Sample)
      requires |labelKeys| <= |labelValues| && m < |LineKeys(buckets)|
      requires LinesFor(LineKeys(buckets)[..m], items, lines, stored, slots) && sample !in slots
      requires sample.metricType == Histogram
      requires sample.lValue == LineId(name, labelKeys, labelValues, LineKeys(buckets)[m])
      ensures var keys, key, id := LineKeys(buckets)[..m], LineKeys(buckets)[m], sample.lValue;
              && |slots| == m
              && LinesFor(LineKeys(buckets)[..m + 1], items + [id], lines[key := Some(id)], stored[id := Some(sample)],
                          SlotsAfter(keys, slots, key, sample))
    {
      hide LineId, LineKeys, SampleHistogram.Ids, Wired;
      NextLine(m);
      var keys, key := LineKeys(buckets)[..m], LineKeys(buckets)[m];
      WiredSizes(lines, stored, keys, Ids(keys), slots);
      WiredStep(lines, stored, keys, Ids(keys), slots, key, sample.lValue, sample);
    }

    /** The samples behind the lines are listed anew, with one more among them. */
    ghost method AddSlot(newSlots: seq<Sample>, sample: Sample)
      requires Parts() && sample !in Repr && forall s :: s in newSlots ==> s in slots || s == sample
      modifies this`slots
      ensures Parts() && slots == newSlots
    {
      hide PromMap.Valid, LinkedList.Valid, StringBuilder.Valid, Formatter.Valid, Formatter.Text;
      assert forall i :: 0 <= i < |newSlots| ==> newSlots[i] in newSlots;
      slots := newSlots;
    }

    lemma NextLine(m: nat)
      requires |labelKeys| <= |labelValues| && m < |LineKeys(buckets)|
      ensures var keys, key := LineKeys(buckets)[..m], LineKeys(buckets)[m];
              var id := LineId(name, labelKeys, labelValues, key);
              && LineKeys(buckets)[..m + 1] == keys + [key]
              && Ids(keys + [key]) == Ids(keys) + [id]
              && forall i :: 0 <= i < m ==> (Ids(keys)[i] == id <==> keys[i] == key)
    {
      var keys, key := LineKeys(buckets)[..m], LineKeys(buckets)[m];
      forall i | 0 <= i < m && Ids(keys)[i] == LineId(name, labelKeys, labelValues, key) ensures keys[i] == key {
        LineIdInjective(name, labelKeys, labelValues, keys[i], key);
      }
    }

    /** l_value_for_bucket and l_value_for_inf: the user's labels followed by `le`. */
    method LValueForBucket(bucketKey: string, ghost m: nat) returns (lValue: string)
      requires Loaded(m) && |labelKeys| <= |labelValues|
      requires bucketKey != "count" && bucketKey != "sum"
      modifies this`Repr, Repr
      ensures Loaded(m) && fresh(Repr - old(Repr))
      ensures observed == old(observed) && raised == old(raised) && slots == old(slots)
      ensures lValue == LineId(name, labelKeys, labelValues, bucketKey)
    {
      var newKeys := labelKeys + ["le"];
      var newValues := labelValues[..|labelKeys|] + [bucketKey];
      lValue := PrintLValue("bucket", newKeys, newValues, m);
    }

    method PrintLValue(suffix: string, keys: seq<string>, values: seq<string>, ghost m: nat) returns (lValue: string)
      requires Loaded(m) && |keys| <= |values|
      modifies this`Repr, Repr
      ensures Loaded(m) && fresh(Repr - old(Repr))
      ensures observed == old(observed) && raised == old(raised) && slots == old(slots)
      ensures lValue == LValue(name, Some(suffix), keys, values)
    {
      hide PromMap.Valid, LinkedList.Valid, StringBuilder.Valid, StringBuilder.Contents, LValue, Formatter.Text;
      formatter.LoadLValue(name, Some(suffix), keys, values);
      lValue := formatter.Dump();
      Repr := Repr + {formatter.builder.str};
      assert "" + LValue(name, Some(suffix), keys, values) == LValue(name, Some(suffix), keys, values);
    }

    constructor (lValueList: LinkedList<string>, lValues: PromMap<string>, samples: PromMap<Sample>,
                 formatter: Formatter, name: string, buckets: Buckets, labelKeys: seq<string>, labelValues: seq<string>)
      ensures this.lValueList == lValueList && this.lValues == lValues && this.samples == samples
      ensures this.formatter == formatter && this.buckets == buckets
      ensures this.name == name && this.labelKeys == labelKeys && this.labelValues == labelValues
      ensures slots == [] && observed == [] && raised == []
      ensures Repr == {lValueList, lValues, samples, formatter, formatter.builder, formatter.builder.str}
                      + lValueList.Repr + lValues.Repr + samples.Repr
    {
      this.lValueList, this.lValues, this.samples, this.formatter := lValueList, lValues, samples, formatter;
      this.name, this.buckets, this.labelKeys, this.labelValues := name, buckets, labelKeys, labelValues;
      slots, observed, raised := [], [], [];
      Repr := {lValueList, lValues, samples, formatter, formatter.builder, formatter.builder.str}
              + lValueList.Repr + lValues.Repr + samples.Repr;
    }

    method InitBucketSamples()
      requires Loaded(0)
      requires "count" !in buckets.keys && "sum" !in buckets.keys
      modifies this`Repr, this`slots, Repr
      ensures Loaded(|buckets.keys|) && fresh(Repr - old(Repr))
      ensures observed == old(observed) && raised == old(raised)
      ensures forall s :: s in slots ==> s in old(slots) || fresh(s)
    {
      hide *;
      for i := 0 to |buckets.keys|
        invariant Loaded(i) && fresh(Repr - old(Repr))
        invariant observed == old(observed) && raised == old(raised)
        invariant forall s :: s in slots ==> s in old(slots) || fresh(s)
      {
        var bucketKey := buckets.keys[i];
        InitBucket(bucketKey, i);
      }
    }

    method InitBucket(bucketKey: string, ghost m: nat)
      requires Loaded(m) && m <= |buckets.keys| && bucketKey == LineKeys(buckets)[m]
      requires bucketKey != "count" && bucketKey != "sum"
      modifies this`Repr, this`slots, Repr
      ensures Loaded(m + 1) && fresh(Repr - old(Repr))
      ensures observed == old(observed) && raised == old(raised)
      ensures forall s :: s in slots ==> s in old(slots) || fresh(s)
    {
      hide Parts, Wired, LineKeys, LineIds, LineId;
      var lValue := LValueForBucket(bucketKey, m);
      InitLine(bucketKey, lValue, m);
    }

    method InitInf()
      requires Loaded(|buckets.keys|)
      modifies this`Repr, this`slots, Repr
      ensures Loaded(|buckets.keys| + 1) && fresh(Repr - old(Repr))
      ensures observed == old(observed) && raised == old(raised)
      ensures forall s :: s in slots ==> s in old(slots) || fresh(s)
    {
      InitBucket("+Inf", |buckets.keys|);
    }

    method InitCount()
      requires Loaded(|buckets.keys| + 1)
      modifies this`Repr, this`slots, Repr
      ensures Loaded(|buckets.keys| + 2) && fresh(Repr - old(Repr))
      ensures observed == old(observed) && raised == old(raised)
      ensures forall s :: s in slots ==> s in old(slots) || fresh(s)
    {
      hide Parts, Wired, LineIds, LValue;
      var countLValue := PrintLValue("count", labelKeys, labelValues, |buckets.keys| + 1);
      InitLine("count", countLValue, |buckets.keys| + 1);
    }

    method InitSummary()
      requires Loaded(|buckets.keys| + 2)
      modifies this`Repr, this`slots, Repr
      ensures Loaded(|buckets.keys| + 3) && fresh(Repr - old(Repr))
      ensures observed == old(observed) && raised == old(raised)
      ensures forall s :: s in slots ==> s in old(slots) || fresh(s)
    {
      hide Parts, Wired, LineIds, LValue;
      var sumLValue := PrintLValue("sum", labelKeys, labelValues, |buckets.keys| + 2);
      InitLine("sum", sumLValue, |buckets.keys| + 2);
    }

    /** The two lookups and the addition that observe makes for one line. Neither lookup can fail:
        the only error is the addition's own, which refuses negative amounts. */
    method Raise(key: string, amount: real, ghost i: nat) returns (err: int)
      requires Complete() && i < |slots| && key == LineKeys(buckets)[i]
      modifies this`raised, slots[i]
      ensures Complete()
      ensures err == if amount < 0.0 then 1 else 0
      ensures slots[i].rValue == old(slots[i].rValue) + if amount < 0.0 then 0.0 else amount
      ensures raised == old(raised) + if amount < 0.0 then [] else [i]
    {
      hide LinkedList.Valid, PromMap.Valid, Formatter.Valid, StringBuilder.Valid, SampleHistogram.Apart, LineIds;
      assert LineKeys(buckets)[..|buckets.keys| + 3] == LineKeys(buckets);
      var lValue := lValues.Get(key);
      if lValue.None? {
        return 2;
      }
      var sample := samples.Get(lValue.value);
      if sample.None? {
        return 2;
      }
      err := sample.value.Add(amount);
      if err == 0 {
        raised := raised + [i];
      }
    }

    /** Raising bucket i also raises the buckets that share its key, and no other line. */
    method RaiseBucket(value: real, i: nat)
      requires Complete() && i < |buckets.keys| && |buckets.keys| == |buckets.bounds| && value <= buckets.bounds[i]
      modifies this`raised, slots
      ensures Complete()
      ensures forall j :: 0 <= j < |buckets.keys| ==>
                slots[j].rValue + HitsFrom(buckets, buckets.keys[j], value, i + 1) as real
                == old(slots[j].rValue) + HitsFrom(buckets, buckets.keys[j], value, i) as real
      ensures forall j :: |buckets.keys| <= j < |slots| ==> slots[j].rValue == old(slots[j].rValue)
      ensures raised + Descend(buckets.bounds, value, i) == old(raised) + Descend(buckets.bounds, value, i + 1)
    {
      hide SampleHistogram.Complete, HitsFrom, Descend;
      SlotsByKey();
      HitsStep(buckets, value, i);
      DescendStep(buckets.bounds, value, i + 1);
      var err := Raise(buckets.keys[i], 1.0, i);
      assert old(raised) + ([i] + Descend(buckets.bounds, value, i)) == raised + Descend(buckets.bounds, value, i);
    }

    /** The loop of observe: from the highest bucket down to the first bound below the value. */
    method RaiseBuckets(value: real)
      requires Complete()
      modifies this`raised, slots
      ensures Complete()
      ensures forall i :: 0 <= i < |buckets.keys| ==>
                slots[i].rValue == old(slots[i].rValue) + HitsFrom(buckets, buckets.keys[i], value, 0) as real
      ensures forall i :: |buckets.keys| <= i < |slots| ==> slots[i].rValue == old(slots[i].rValue)
      ensures raised == old(raised) + Descend(buckets.bounds, value, |buckets.bounds|)
    {
      hide *;
      Sizes();
      HitsEnd(buckets, value);
      var n := |buckets.keys|;
      var i := n - 1;
      while i >= 0
        invariant -1 <= i < n && Complete()
        invariant forall j :: 0 <= j < n ==>
                    slots[j].rValue == old(slots[j].rValue) + HitsFrom(buckets, buckets.keys[j], value, i + 1) as real
        invariant forall j :: n <= j < n + 3 ==> slots[j].rValue == old(slots[j].rValue)
        invariant raised + Descend(buckets.bounds, value, i + 1)
                  == old(raised) + Descend(buckets.bounds, value, |buckets.bounds|)
      {
        if value > buckets.bounds[i] {
          break;
        }
        RaiseBucket(value, i);
        i := i - 1;
      }
      StoppedAt(value, i + 1);
    }

    /** Where the loop stops, no lower bucket would be hit. */
    lemma StoppedAt(value: real, i: nat)
      requires Complete() && i <= |buckets.bounds| && (i > 0 ==> value > buckets.bounds[i - 1])
      ensures forall key :: HitsFrom(buckets, key, value, i) == HitsFrom(buckets, key, value, 0)
      ensures Descend(buckets.bounds, value, i) == []
    {
      hide SampleHistogram.Parts, SampleHistogram.HasLines;
      forall key ensures HitsFrom(buckets, key, value, i) == HitsFrom(buckets, key, value, 0) {
        NoHitsBelow(buckets, key, value, i, 0);
      }
    }

    /** pms_histogram_observe: buckets from the highest down, then +Inf, count and sum. A negative
        value is counted everywhere, but the addition to the sum refuses it and 2 is returned. */
    method Observe(value: real) returns (err: int)
      requires Valid()
      modifies this`observed, this`raised, slots
      ensures Valid() && observed == old(observed) + [value]
      ensures raised == old(raised) + Plan(buckets.bounds, value)
      ensures err == if value < 0.0 then 2 else 0
    {
      hide SampleHistogram.Complete, SampleHistogram.HasLines, Descend, HitsFrom, BucketValue, SumNonNegative;
      SlotsByKey();
      ObserveStep(buckets, observed, value);
      RaiseBuckets(value);
      err := RaiseRest(value);
      observed := observed + [value];
    }

    /** The updates of +Inf, count and sum. */
    method RaiseRest(value: real) returns (err: int)
      requires Complete()
      modifies this`raised, slots
      ensures Complete() && err == if value < 0.0 then 2 else 0
      ensures forall j :: 0 <= j < |buckets.keys| ==> slots[j].rValue == old(slots[j].rValue)
      ensures var n := |buckets.keys|;
              && slots[n].rValue == old(slots[n].rValue) + 1.0
              && slots[n + 1].rValue == old(slots[n + 1].rValue) + 1.0
              && slots[n + 2].rValue == old(slots[n + 2].rValue) + (if value < 0.0 then 0.0 else value)
              && raised == old(raised) + [n, n + 1] + if value < 0.0 then [] else [n + 2]
    {
      hide SampleHistogram.Complete;
      var n := |buckets.keys|;
      SlotsByKey();
      OwnSlots();
      err := Raise("+Inf", 1.0, n);
      err := Raise("count", 1.0, n + 1);
      err := Raise("sum", value, n + 2);
      if err != 0 {
        err := 2;
      }
    }

    /** +Inf, count and sum have samples of their own. */
    lemma OwnSlots()
      requires Complete()
      ensures forall i, j :: |buckets.keys| <= i < |slots| && 0 <= j < |slots| && i != j ==> slots[i] != slots[j]
    {
      hide SampleHistogram.Parts, LineIds, LineKeys;
      OwnLineKeys(buckets);
      assert LineKeys(buckets)[..|buckets.keys| + 3] == LineKeys(buckets);
    }

    lemma LoadedIsValid()
      requires Loaded(|buckets.keys| + 3) && observed == []
      requires |buckets.keys| == |buckets.bounds| && Ascending(buckets.bounds)
      requires "+Inf" !in buckets.keys && "count" !in buckets.keys && "sum" !in buckets.keys
      ensures Valid()
    {
      hide SampleHistogram.Parts;
      assert LineKeys(buckets)[..|buckets.keys| + 3] == LineKeys(buckets);
    }

    /** The sample that the two lookups reach for a bucket key. */
    ghost predicate Reaches(key: string, value: real)
      reads lValues`M, samples`M, slots, this`slots
    {
      && key in lValues.M && lValues.M[key].Some?
      && var id := lValues.M[key].value;
      && id in samples.M && samples.M[id].Some? && samples.M[id].value in slots
      && samples.M[id].value.rValue == value
    }

    /** With strictly ascending bounds, the sample reached for a bucket counts the observations at
        or below its bound; +Inf and count hold the number of observations, sum the total of the
        non-negative ones; and bucket counts ascend up to +Inf. */
    lemma LookupsCount(number: real -> string)
      requires Valid() && buckets.Keyed(number) && Printer(number) && TellsApart(number, buckets.bounds)
      requires StrictlyAscending(buckets.bounds)
      ensures forall i :: 0 <= i < |buckets.keys| ==>
                Reaches(buckets.keys[i], CountLe(observed, buckets.bounds[i]) as real)
      ensures Reaches("+Inf", |observed| as real) && Reaches("count", |observed| as real)
      ensures Reaches("sum", SumNonNegative(observed))
      ensures forall i, j :: 0 <= i <= j < |buckets.bounds| ==>
                CountLe(observed, buckets.bounds[i]) <= CountLe(observed, buckets.bounds[j]) <= |observed|
    {
      hide SampleHistogram.Complete, SampleHistogram.Reaches, BucketValue, CountLe, SumNonNegative, TellsApart, Printer,
           LineKeys, StrictlyAscending, OnlyBucket;
      Sizes();
      var n := |buckets.keys|;
      forall i | 0 <= i < n ensures Reaches(buckets.keys[i], CountLe(observed, buckets.bounds[i]) as real) {
        CompleteAscends();
        EveryBucketOnly(number, i);
        OnlyBucketCounts(buckets, i, observed);
        ReachesSlot(i);
      }
      forall i, j | 0 <= i <= j < n
        ensures CountLe(observed, buckets.bounds[i]) <= CountLe(observed, buckets.bounds[j]) <= |observed|
      {
        CompleteAscends();
        CountLeMonotone(observed, buckets.bounds[i], buckets.bounds[j]);
      }
      ReachesSlot(n);
      ReachesSlot(n + 1);
      ReachesSlot(n + 2);
    }

    lemma ReachesSlot(i: nat)
      requires Complete() && i < |slots|
      ensures |LineKeys(buckets)| == |slots| && Reaches(LineKeys(buckets)[i], slots[i].rValue)
    {
      hide SampleHistogram.Parts, LineIds, LineKeys;
      assert LineKeys(buckets)[..|buckets.keys| + 3] == LineKeys(buckets);
    }

    lemma EveryBucketOnly(number: real -> string, i: nat)
      requires buckets.Keyed(number) && Printer(number) && TellsApart(number, buckets.bounds)
      requires Ascending(buckets.bounds)
      requires StrictlyAscending(buckets.bounds)
      requires i < |buckets.keys|
      ensures OnlyBucket(buckets, i)
    {
      KeysDistinct(buckets, number);
    }

    lemma CompleteAscends()
      requires Complete()
      ensures Ascending(buckets.bounds)
    {
    }

    lemma Sizes()
      requires Complete()
      ensures |slots| == |buckets.keys| + 3 && |buckets.keys| == |buckets.bounds| && this !in Repr
    {
      hide LinkedList.Valid, PromMap.Valid, Formatter.Valid, SampleHistogram.Apart, SampleHistogram.HasLines;
    }

    lemma SlotsByKey()
      requires Complete()
      ensures |slots| == |buckets.keys| + 3 && |buckets.keys| == |buckets.bounds| && this !in Repr
      ensures forall i, j :: 0 <= i < |buckets.keys| && 0 <= j < |buckets.keys| ==>
                (slots[i] == slots[j] <==> buckets.keys[i] == buckets.keys[j])
      ensures forall i, j :: 0 <= i < |buckets.keys| <= j < |slots| ==> slots[i] != slots[j]
    {
      hide SampleHistogram.Parts, LineIds;
      Sizes();
      assert LineKeys(buckets)[..|buckets.keys| + 3] == LineKeys(buckets);
    }
  }

  method EmptyParts(number: real -> string)
    returns (lValueList: LinkedList<string>, lValues: PromMap<string>, samples: PromMap<Sample>, formatter: Formatter)
    ensures lValueList.Valid() && lValueList.items == [] && lValues.Valid() && lValues.M == map[]
    ensures samples.Valid() && samples.M == map[] && formatter.Valid() && formatter.Text() == ""
    ensures fresh(lValueList.Repr) && fresh(lValues) && fresh(lValues.Repr) && fresh(samples) && fresh(samples.Repr)
    ensures fresh({formatter, formatter.builder, formatter.builder.str})
    ensures SampleHistogram.Apart(lValueList.Repr, {lValues} + lValues.Repr, {samples} + samples.Repr,
                                  {formatter, formatter.builder, formatter.builder.str})
  {
    hide PromMap.Valid;
    lValueList := new LinkedList<string>((a, b) => a == b);
    formatter := new Formatter(number);
    samples := new PromMap<Sample>();
    lValues := new PromMap<string>();
  }

  method NewEmpty(number: real -> string, name: string, buckets: Buckets,
                  labelKeys: seq<string>, labelValues: seq<string>) returns (h: SampleHistogram)
    requires |labelKeys| <= |labelValues|
    ensures h.Loaded(0) && h.buckets == buckets && fresh(h) && fresh(h.Repr)
    ensures h.name == name && h.labelKeys == labelKeys && h.labelValues == labelValues
    ensures h.observed == [] && h.raised == [] && h.slots == []
  {
    hide PromMap.Valid, LinkedList.Valid, Formatter.Valid, Formatter.Text;
    var lValueList, lValues, samples, formatter := EmptyParts(number);
    h := new SampleHistogram(lValueList, lValues, samples, formatter, name, buckets, labelKeys, labelValues);
  }

  /** pms_histogram_new: the empty parts, then one line per bucket, +Inf, count and sum. */
  method NewHistogram(number: real -> string, name: string, buckets: Buckets,
                      labelKeys: seq<string>, labelValues: seq<string>) returns (h: SampleHistogram)
    requires |labelKeys| <= |labelValues| && buckets.Keyed(number) && Printer(number) && Ascending(buckets.bounds)
    ensures h.Valid() && fresh(h) && fresh(h.Repr)
    ensures forall s :: s in h.slots ==> fresh(s)
    ensures h.buckets == buckets && h.name == name && h.labelKeys == labelKeys && h.labelValues == labelValues
    ensures h.observed == [] && h.raised == []
  {
    hide *;
    KeysHavePoint(buckets, number);
    h := NewEmpty(number, name, buckets, labelKeys, labelValues);
    h.InitBucketSamples();
    h.InitInf();
    h.InitCount();
    h.InitSummary();
    h.LoadedIsValid();
  }
}
