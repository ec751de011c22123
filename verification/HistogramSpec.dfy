/**
  What a histogram is for: the lines it prints and the values they should have
  (lib/prom/src/prom_metric_sample_histogram.c).
  */
module HistogramSpec {
  import opened Prelude
  import opened LValues
  import opened HistogramBuckets

  // ----- Lines -----

  /** The keys of the map from bucket to line, in the order the lines are created and printed. */
  function LineKeys(b: Buckets): (ks: seq<string>)
    ensures |ks| == |b.keys| + 3
    ensures forall i :: 0 <= i < |b.keys| ==> ks[i] == b.keys[i]
    ensures ks[|b.keys|] == "+Inf" && ks[|b.keys| + 1] == "count" && ks[|b.keys| + 2] == "sum"
  {
    b.keys + ["+Inf", "count", "sum"]
  }

  /** Every bucket has a key, and none of them is one of the histogram's own. */
  ghost predicate PlainKeys(b: Buckets) {
    |b.keys| == |b.bounds| && "+Inf" !in b.keys && "count" !in b.keys && "sum" !in b.keys
  }

  /** No two buckets have the same key. */
  ghost predicate UnsharedKeys(b: Buckets) {
    forall i, j :: 0 <= i < j < |b.keys| ==> b.keys[i] != b.keys[j]
  }

  lemma LineKeysUnshared(b: Buckets)
    requires PlainKeys(b) && UnsharedKeys(b)
    ensures forall i, j :: 0 <= i < j < |LineKeys(b)| ==> LineKeys(b)[i] != LineKeys(b)[j]
  {
    OwnLineKeys(b);
  }

  lemma OwnLineKeys(b: Buckets)
    requires "+Inf" !in b.keys && "count" !in b.keys && "sum" !in b.keys
    ensures forall i, j :: |b.keys| <= i < |b.keys| + 3 && 0 <= j < |b.keys| + 3 && i != j ==>
              LineKeys(b)[i] != LineKeys(b)[j]
  {
    assert "+Inf"[0] == '+' && "count"[0] == 'c' && "sum"[0] == 's';
  }

  /** The identity of the line with the given key. Bucket lines carry the key in a label `le`
      behind the user's labels. */
  function LineId(name: string, labelKeys: seq<string>, labelValues: seq<string>, key: string): string
    requires |labelKeys| <= |labelValues|
  {
    if key == "count" || key == "sum" then LValue(name, Some(key), labelKeys, labelValues)
    else LValue(name, Some("bucket"), labelKeys + ["le"], labelValues[..|labelKeys|] + [key])
  }

  function LineIds(name: string, labelKeys: seq<string>, labelValues: seq<string>, keys: seq<string>)
    : (ids: seq<string>)
    requires |labelKeys| <= |labelValues|
    ensures |ids| == |keys|
    ensures forall i :: 0 <= i < |ids| ==> ids[i] == LineId(name, labelKeys, labelValues, keys[i])
  {
    seq(|keys|, i requires 0 <= i < |keys| => LineId(name, labelKeys, labelValues, keys[i]))
  }

  /** The character after `name_` tells bucket, count and sum lines apart. */
  lemma LineIdLetter(name: string, labelKeys: seq<string>, labelValues: seq<string>, key: string)
    requires |labelKeys| <= |labelValues|
    ensures var id := LineId(name, labelKeys, labelValues, key);
            && |id| > |name| + 1
            && id[|name| + 1] == if key == "count" then 'c' else if key == "sum" then 's' else 'b'
  {
    var suffix := if key == "count" || key == "sum" then key else "bucket";
    var full := FullName(name, Some(suffix));
    assert full[|name| + 1] == suffix[0];
    assert full <= LineId(name, labelKeys, labelValues, key);
  }

  /** A bucket line is a text that depends on the labels only, the key, and a closing `"}`. */
  lemma BucketLineShape(name: string, labelKeys: seq<string>, labelValues: seq<string>, key: string)
    returns (front: string)
    requires |labelKeys| <= |labelValues| && key != "count" && key != "sum"
    ensures LineId(name, labelKeys, labelValues, key) == front + key + "\"}"
    ensures front == BucketFront(name, labelKeys, labelValues)
  {
    front := BucketFront(name, labelKeys, labelValues);
    var ls := Labels(labelKeys, labelValues);
    var l := Label("le", key);
    assert Labels(labelKeys + ["le"], labelValues[..|labelKeys|] + [key]) == ls + [l];
    var full := FullName(name, Some("bucket"));
    assert PrintLabel(l) == "le=\"" + key + "\"";
    if ls == [] {
      assert ls + [l] == [l];
      Regroup(full, "", key);
    } else {
      PrintLabelsAppend(ls, l);
      hide FullName, PrintLabels, PrintLabel, Labels;
      Regroup(full, PrintLabels(ls) + ",", key);
    }
  }

  lemma Regroup(full: string, labels: string, key: string)
    ensures full + "{" + (labels + ("le=\"" + key + "\"")) + "}" == full + "{" + labels + "le=\"" + key + "\"}"
    ensures labels == "" ==> labels + ("le=\"" + key + "\"") == "le=\"" + key + "\""
  {
  }

  function BucketFront(name: string, labelKeys: seq<string>, labelValues: seq<string>): string
    requires |labelKeys| <= |labelValues|
  {
    var ls := Labels(labelKeys, labelValues);
    FullName(name, Some("bucket")) + "{" + (if ls == [] then "" else PrintLabels(ls) + ",") + "le=\""
  }

  /** Within one histogram, different keys have different lines, whatever the label values. */
  lemma LineIdInjective(name: string, labelKeys: seq<string>, labelValues: seq<string>, k: string, l: string)
    requires |labelKeys| <= |labelValues|
    requires LineId(name, labelKeys, labelValues, k) == LineId(name, labelKeys, labelValues, l)
    ensures k == l
  {
    hide LineId, BucketFront;
    LineIdLetter(name, labelKeys, labelValues, k);
    LineIdLetter(name, labelKeys, labelValues, l);
    if k != "count" && k != "sum" {
      var front := BucketLineShape(name, labelKeys, labelValues, k);
      var front' := BucketLineShape(name, labelKeys, labelValues, l);
      SameMiddle(front, k, l, "\"}");
    }
  }

  /** Behind the last quote, two texts with different beginnings are still the same. */
  lemma SameFromLastQuote(a: string, k: string, b: string, l: string)
    requires a + ['"'] + k == b + ['"'] + l && '"' !in k && '"' !in l
    ensures k == l && a == b
  {
    var s, t := a + ['"'] + k, b + ['"'] + l;
    assert s[|a|] == '"' && t[|b|] == '"';
    assert |k| == |l|;
    assert s[|a| + 1..] == k && t[|b| + 1..] == l && s[..|a|] == a && t[..|b|] == b;
  }

  /** The user's labels of a bucket line, each with its comma. */
  function UserLabels(labelKeys: seq<string>, labelValues: seq<string>): string
    requires |labelKeys| <= |labelValues|
  {
    var ls := Labels(labelKeys, labelValues);
    if ls == [] then "" else PrintLabels(ls) + ","
  }

  lemma BucketFrontParts(name: string, labelKeys: seq<string>, labelValues: seq<string>)
    requires |labelKeys| <= |labelValues|
    ensures BucketFront(name, labelKeys, labelValues)
            == FullName(name, Some("bucket")) + "{" + UserLabels(labelKeys, labelValues) + "le=" + ['"']
  {
  }

  /** A line determines its key and the printed user labels, whatever the label values. */
  lemma LineDetermines(name: string, labelKeys: seq<string>, v: seq<string>, w: seq<string>, k: string, l: string)
    requires |labelKeys| <= |v| && |labelKeys| <= |w| && '"' !in k && '"' !in l
    requires LineId(name, labelKeys, v, k) == LineId(name, labelKeys, w, l)
    ensures k == l && LValue(name, None, labelKeys, v) == LValue(name, None, labelKeys, w)
  {
    LineIdLetter(name, labelKeys, v, k);
    LineIdLetter(name, labelKeys, w, l);
    if k == "count" || k == "sum" {
      SuffixAside(name, Some(k), None, labelKeys, v, w);
    } else {
      BucketLineDetermines(name, labelKeys, v, w, k, l);
    }
  }

  /** Identities that differ in the values only are the same under any suffix or under none. */
  lemma SuffixAside(name: string, s: Option<string>, t: Option<string>, keys: seq<string>,
                    v: seq<string>, w: seq<string>)
    requires |keys| <= |v| && |keys| <= |w| && LValue(name, s, keys, v) == LValue(name, s, keys, w)
    ensures LValue(name, t, keys, v) == LValue(name, t, keys, w)
  {
    if keys != [] {
      var a, b := Labels(keys, v), Labels(keys, w);
      assert a != [] && b != [];
      hide PrintLabels, Labels;
      SameMiddle(FullName(name, s) + "{", PrintLabels(a), PrintLabels(b), "}");
    }
  }

  lemma BucketLineDetermines(name: string, labelKeys: seq<string>, v: seq<string>, w: seq<string>, k: string, l: string)
    requires |labelKeys| <= |v| && |labelKeys| <= |w|
    requires '"' !in k && '"' !in l && k !in ["count", "sum"] && l !in ["count", "sum"]
    requires LineId(name, labelKeys, v, k) == LineId(name, labelKeys, w, l)
    ensures k == l && LValue(name, None, labelKeys, v) == LValue(name, None, labelKeys, w)
  {
    hide LineId, BucketFront, UserLabels, FullName, LValue;
    var f := BucketLineShape(name, labelKeys, v, k);
    var g := BucketLineShape(name, labelKeys, w, l);
    BucketFrontParts(name, labelKeys, v);
    BucketFrontParts(name, labelKeys, w);
    var head, x, y := FullName(name, Some("bucket")) + "{", UserLabels(labelKeys, v), UserLabels(labelKeys, w);
    assert "" + (f + k) == f + k && "" + (g + l) == g + l;
    SameMiddle("", f + k, g + l, "\"}");
    SameFromLastQuote(head + x + "le=", k, head + y + "le=", l);
    SameMiddle(head, x, y, "le=");
    UserLabelsDetermine(name, labelKeys, v, w);
  }

  lemma UserLabelsDetermine(name: string, labelKeys: seq<string>, v: seq<string>, w: seq<string>)
    requires |labelKeys| <= |v| && |labelKeys| <= |w| && UserLabels(labelKeys, v) == UserLabels(labelKeys, w)
    ensures LValue(name, None, labelKeys, v) == LValue(name, None, labelKeys, w)
  {
    if labelKeys != [] {
      var a, b := Labels(labelKeys, v), Labels(labelKeys, w);
      assert a != [] && b != [];
      hide PrintLabels, Labels;
      assert "" + PrintLabels(a) == PrintLabels(a) && "" + PrintLabels(b) == PrintLabels(b);
      SameMiddle("", PrintLabels(a), PrintLabels(b), ",");
    }
  }

  /** Over all label values and all line keys of one histogram metric, different lines are printed
      differently, if only the last label value may have quotes. */
  lemma LinesUnique(name: string, labelKeys: seq<string>, v: seq<string>, w: seq<string>, k: string, l: string)
    requires |v| == |w| == |labelKeys| && InnerQuoteFree(v) && InnerQuoteFree(w) && '"' !in k && '"' !in l
    requires LineId(name, labelKeys, v, k) == LineId(name, labelKeys, w, l)
    ensures v == w && k == l
  {
    hide LineId, LValue, InnerQuoteFree;
    LineDetermines(name, labelKeys, v, w, k, l);
    LValueInjective(name, None, labelKeys, v, w);
  }

  /** The labels of a line read back: on bucket lines the last one, and no other, is `le` with the
      bucket's key; count and sum lines have none. */
  lemma OneLe(name: string, labelKeys: seq<string>, v: seq<string>, key: string)
    requires '{' !in name && CleanKeys(labelKeys) && "le" !in labelKeys
    requires |v| == |labelKeys| && QuoteFree(v) && '"' !in key
    ensures var id := Parse(LineId(name, labelKeys, v, key));
            && id.Some?
            && var n, labels := |labelKeys|, id.value.labels;
            if key == "count" || key == "sum"
            then id.value.name == name + "_" + key && labels == Labels(labelKeys, v)
                 && (forall i :: 0 <= i < |labels| ==> labels[i].key != "le")
            else id.value.name == name + "_bucket" && labels == Labels(labelKeys, v) + [Label("le", key)]
                 && (forall i :: 0 <= i < |labels| ==> (labels[i].key == "le" <==> i == n))
  {
    hide Parse, Print;
    if key == "count" || key == "sum" {
      NoBrace(name, key);
      RoundTrip(Identity(FullName(name, Some(key)), Labels(labelKeys, v)));
    } else {
      NoBrace(name, "bucket");
      var ls := Labels(labelKeys, v) + [Label("le", key)];
      assert v[..|labelKeys|] == v;
      assert Labels(labelKeys + ["le"], v + [key]) == ls;
      assert '=' !in "le";
      RoundTrip(Identity(FullName(name, Some("bucket")), ls));
    }
  }

  lemma NoBrace(name: string, suffix: string)
    requires '{' !in name && suffix in {"bucket", "count", "sum"}
    ensures '{' !in FullName(name, Some(suffix))
  {
    assert '{' !in suffix && '{' !in "_";
  }

  // ----- Values -----

  /** How many buckets from `lo` on have the key and a bound not below the value. */
  function HitsFrom(b: Buckets, key: string, v: real, lo: nat): nat
    requires |b.keys| == |b.bounds|
    decreases |b.bounds| - lo
  {
    if lo >= |b.bounds| then 0
    else HitsFrom(b, key, v, lo + 1) + if b.keys[lo] == key && v <= b.bounds[lo] then 1 else 0
  }

  /** The value the sample behind a bucket key has after the observations. */
  function BucketValue(b: Buckets, key: string, obs: seq<real>): nat
    requires |b.keys| == |b.bounds|
  {
    if obs == [] then 0 else BucketValue(b, key, obs[..|obs| - 1]) + HitsFrom(b, key, obs[|obs| - 1], 0)
  }

  /** The number of observations at or below a bound. */
  function CountLe(obs: seq<real>, bound: real): nat {
    if obs == [] then 0 else CountLe(obs[..|obs| - 1], bound) + if obs[|obs| - 1] <= bound then 1 else 0
  }

  function SumNonNegative(obs: seq<real>): real {
    if obs == [] then 0.0
    else SumNonNegative(obs[..|obs| - 1]) + if obs[|obs| - 1] >= 0.0 then obs[|obs| - 1] else 0.0
  }

  lemma HitsStep(b: Buckets, v: real, lo: nat)
    requires |b.keys| == |b.bounds| && lo < |b.bounds| && v <= b.bounds[lo]
    ensures forall key ::
              HitsFrom(b, key, v, lo) as real
              == HitsFrom(b, key, v, lo + 1) as real + if b.keys[lo] == key then 1.0 else 0.0
  {
  }

  lemma HitsEnd(b: Buckets, v: real)
    requires |b.keys| == |b.bounds|
    ensures forall key :: HitsFrom(b, key, v, |b.bounds|) == 0
  {
  }

  lemma {:induction false} NoHitsBelow(b: Buckets, key: string, v: real, i: nat, lo: nat)
    requires |b.keys| == |b.bounds| && lo <= i <= |b.bounds|
    requires forall k :: 0 <= k < i ==> b.bounds[k] < v
    ensures HitsFrom(b, key, v, lo) == HitsFrom(b, key, v, i)
    decreases i - lo
  {
    if lo < i {
      NoHitsBelow(b, key, v, i, lo + 1);
    }
  }

  /** One more observation. */
  lemma ObserveStep(b: Buckets, obs: seq<real>, v: real)
    requires |b.keys| == |b.bounds|
    ensures forall key :: BucketValue(b, key, obs + [v]) == BucketValue(b, key, obs) + HitsFrom(b, key, v, 0)
    ensures SumNonNegative(obs + [v]) == SumNonNegative(obs) + if v >= 0.0 then v else 0.0
  {
    assert (obs + [v])[..|obs|] == obs;
  }

  ghost predicate OnlyBucket(b: Buckets, i: nat)
    requires i < |b.keys|
  {
    forall j :: 0 <= j < |b.keys| && j != i ==> b.keys[j] != b.keys[i]
  }

  lemma {:induction false} HitsOfOnly(b: Buckets, i: nat, v: real, lo: nat)
    requires |b.keys| == |b.bounds| && i < |b.keys| && OnlyBucket(b, i)
    ensures HitsFrom(b, b.keys[i], v, lo) == if lo <= i && v <= b.bounds[i] then 1 else 0
    decreases |b.bounds| - lo
  {
    if lo < |b.bounds| {
      HitsOfOnly(b, i, v, lo + 1);
    }
  }

  lemma {:induction false} OnlyBucketCounts(b: Buckets, i: nat, obs: seq<real>)
    requires |b.keys| == |b.bounds| && i < |b.keys| && OnlyBucket(b, i)
    ensures BucketValue(b, b.keys[i], obs) == CountLe(obs, b.bounds[i])
  {
    if obs != [] {
      OnlyBucketCounts(b, i, obs[..|obs| - 1]);
      HitsOfOnly(b, i, obs[|obs| - 1], 0);
    }
  }

  lemma {:induction false} HitsAtLeastTwo(b: Buckets, i: nat, j: nat, v: real, lo: nat)
    requires |b.keys| == |b.bounds| && i < j < |b.keys| && b.keys[i] == b.keys[j]
    requires v <= b.bounds[i] && v <= b.bounds[j]
    ensures lo <= j ==> HitsFrom(b, b.keys[i], v, lo) >= 1
    ensures lo <= i ==> HitsFrom(b, b.keys[i], v, lo) >= 2
    decreases |b.bounds| - lo
  {
    if lo < j {
      HitsAtLeastTwo(b, i, j, v, lo + 1);
    }
  }

  /** One observation that a bucket with a shared key counts twice. */
  lemma SharedBucketMiscounts(b: Buckets, i: nat, j: nat) returns (v: real)
    requires |b.keys| == |b.bounds| && i < |b.keys| && j < |b.keys| && i != j && b.keys[i] == b.keys[j]
    ensures BucketValue(b, b.keys[i], [v]) >= 2 && CountLe([v], b.bounds[i]) == 1
  {
    v := if b.bounds[i] <= b.bounds[j] then b.bounds[i] else b.bounds[j];
    if i < j {
      HitsAtLeastTwo(b, i, j, v, 0);
    } else {
      HitsAtLeastTwo(b, j, i, v, 0);
    }
    assert [v][..0] == [];
  }

  /** A bucket counts the observations at or below its bound, for all observations, exactly when
      no other bucket has its key. */
  lemma BucketExact(b: Buckets, i: nat)
    requires |b.keys| == |b.bounds| && i < |b.keys|
    ensures (forall obs: seq<real> :: BucketValue(b, b.keys[i], obs) == CountLe(obs, b.bounds[i])) <==> OnlyBucket(b, i)
  {
    hide BucketValue, CountLe;
    if OnlyBucket(b, i) {
      forall obs: seq<real> ensures BucketValue(b, b.keys[i], obs) == CountLe(obs, b.bounds[i]) {
        OnlyBucketCounts(b, i, obs);
      }
    } else {
      var j :| 0 <= j < |b.keys| && j != i && b.keys[j] == b.keys[i];
      var v := SharedBucketMiscounts(b, i, j);
      assert BucketValue(b, b.keys[i], [v]) != CountLe([v], b.bounds[i]);
    }
  }

  const EQUAL_BOUNDS: Buckets := Buckets([1.0, 1.0], ["1.0", "1.0"])

  /** The constructor accepts the bounds 1.0 and 1.0, and one observation of 0.5 is counted twice. */
  lemma EqualBoundsDouble()
    ensures PlainKeys(EQUAL_BOUNDS) && Ascending(EQUAL_BOUNDS.bounds) && EQUAL_BOUNDS.Keyed(_ => "1")
    ensures BucketValue(EQUAL_BOUNDS, "1.0", [0.5]) == 2 && CountLe([0.5], 1.0) == 1
    ensures BucketValue(EQUAL_BOUNDS, "1.0", [0.5, 0.5]) == 4
  {
    assert "1" + ".0" == "1.0";
    assert "1.0"[0] == '1' && "+Inf"[0] == '+' && "count"[0] == 'c' && "sum"[0] == 's';
    assert [0.5][..0] == [] && [0.5, 0.5][..1] == [0.5];
    assert HitsFrom(EQUAL_BOUNDS, "1.0", 0.5, 2) == 0;
    assert HitsFrom(EQUAL_BOUNDS, "1.0", 0.5, 1) == 1;
  }

  /** The count is the number of positions at which a value not above the bound was observed. */
  lemma {:induction false} CountLeIsSize(obs: seq<real>, bound: real)
    ensures CountLe(obs, bound) == |set i | 0 <= i < |obs| && obs[i] <= bound|
  {
    if obs != [] {
      var n := |obs| - 1;
      var front, all := set i | 0 <= i < n && obs[..n][i] <= bound, set i | 0 <= i < |obs| && obs[i] <= bound;
      CountLeIsSize(obs[..n], bound);
      assert all == front + if obs[n] <= bound then {n} else {};
    }
  }

  /** The sum leaves out exactly the negative values, wherever they stand. */
  lemma {:induction false} SumLaws(a: seq<real>, b: seq<real>, v: real)
    ensures SumNonNegative([]) == 0.0 && SumNonNegative([v]) == (if v < 0.0 then 0.0 else v)
    ensures SumNonNegative(a + b) == SumNonNegative(a) + SumNonNegative(b)
    ensures CountLe([], v) == 0
  {
    assert [v][..0] == [];
    if b == [] {
      assert a + b == a;
    } else {
      SumLaws(a, b[..|b| - 1], v);
      assert (a + b)[..|a + b| - 1] == a + b[..|b| - 1];
    }
  }

  /** Bucket counts do not decrease with the bound and never exceed the number of observations. */
  lemma {:induction false} CountLeMonotone(obs: seq<real>, x: real, y: real)
    requires x <= y
    ensures CountLe(obs, x) <= CountLe(obs, y) <= |obs|
  {
    if obs != [] {
      CountLeMonotone(obs[..|obs| - 1], x, y);
    }
  }

  // ----- The order of the updates -----

  /** Buckets from `i - 1` downwards, as long as their bound is not below the value. */
  function Descend(bounds: seq<real>, v: real, i: nat): (d: seq<nat>)
    requires i <= |bounds|
    ensures forall k :: 0 <= k < |d| ==> d[k] < i
  {
    if i == 0 || v > bounds[i - 1] then [] else [i - 1] + Descend(bounds, v, i - 1)
  }

  lemma DescendStep(bounds: seq<real>, v: real, i: nat)
    requires 0 < i <= |bounds| && v <= bounds[i - 1]
    ensures Descend(bounds, v, i) == [i - 1] + Descend(bounds, v, i - 1)
  {
  }

  /** The lines one observation raises, in order: the buckets from the highest down, +Inf, count,
      and the sum unless the value is negative. */
  function Plan(bounds: seq<real>, v: real): (p: seq<nat>)
    ensures forall k :: 0 <= k < |p| ==> p[k] < |bounds| + 3
  {
    var n := |bounds|;
    Descend(bounds, v, n) + [n, n + 1] + if v >= 0.0 then [n + 2] else []
  }

  lemma {:induction false} DescendAt(bounds: seq<real>, v: real, i: nat)
    requires i <= |bounds|
    ensures |Descend(bounds, v, i)| <= i
    ensures forall k :: 0 <= k < |Descend(bounds, v, i)| ==> Descend(bounds, v, i)[k] == i - 1 - k
  {
    if i > 0 && v <= bounds[i - 1] {
      DescendAt(bounds, v, i - 1);
    }
  }

  /** On ascending bounds the buckets an observation raises are those with a bound not below it. */
  lemma {:induction false} DescendReaches(bounds: seq<real>, v: real, i: nat)
    requires Ascending(bounds) && i <= |bounds|
    ensures |Descend(bounds, v, i)| <= i
    ensures forall k :: 0 <= k < i ==> (i - |Descend(bounds, v, i)| <= k <==> v <= bounds[k])
  {
    if i > 0 {
      DescendReaches(bounds, v, i - 1);
    }
  }
}
