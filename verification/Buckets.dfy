/**
  Bucket bounds and their printed keys (lib/prom/src/prom_histogram_buckets.c), and the check that
  prom_histogram_new makes of them (lib/prom/src/prom_histogram.c).
  */
module HistogramBuckets {
  import opened Prelude

  /** phb_t: filled once and not changed afterwards. */
  datatype Buckets = Buckets(bounds: seq<real>, keys: seq<string>) {
    /** Every bound has the key that double_to_str prints for it. */
    ghost predicate Keyed(number: real -> string) {
      && |keys| == |bounds|
      && forall i :: 0 <= i < |bounds| ==> keys[i] == DoubleToStr(number, bounds[i])
    }
  }

  /** A whole number gets a fraction; `number` stands for sprintf with "%.17g". */
  function DoubleToStr(number: real -> string, v: real): string {
    var buf := number(v);
    if '.' !in buf && |buf| < 30 then buf + ".0" else buf
  }

  /** What is used of sprintf with "%.17g": the text is short, has no quotes, and has no fraction of
      zero, because trailing zeros are dropped together with the point. */
  ghost predicate Printer(number: real -> string) {
    forall v :: |number(v)| < 30 && '"' !in number(v) && !EndsInPointZero(number(v))
  }

  ghost predicate EndsInPointZero(s: string) {
    |s| >= 2 && s[|s| - 2..] == ".0"
  }

  /** Different bounds are printed differently, as 17 digits do for different doubles. */
  ghost predicate TellsApart(number: real -> string, bounds: seq<real>) {
    forall i, j :: 0 <= i < |bounds| && 0 <= j < |bounds| && bounds[i] != bounds[j] ==>
      number(bounds[i]) != number(bounds[j])
  }

  /** The key of a bound is the printed number, with a fraction put behind it if it has no point. */
  lemma KeysAsPrinted(b: Buckets, number: real -> string, i: nat)
    requires b.Keyed(number) && Printer(number) && i < |b.bounds|
    ensures |b.keys| == |b.bounds|
    ensures '.' in number(b.bounds[i]) ==> b.keys[i] == number(b.bounds[i])
    ensures '.' !in number(b.bounds[i]) ==> b.keys[i] == number(b.bounds[i]) + ".0"
  {
  }

  /** The printed number can be told from the key: what is before a fraction of zero, or all of it. */
  lemma KeyTellsNumber(number: real -> string, v: real)
    requires Printer(number)
    ensures var key := DoubleToStr(number, v);
            && '.' in key && '"' !in key
            && number(v) == if EndsInPointZero(key) then key[..|key| - 2] else key
  {
    var buf := number(v);
    assert |buf| < 30 && '"' !in buf && !EndsInPointZero(buf);
    if '.' !in buf {
      assert (buf + ".0")[|buf|] == '.' && (buf + ".0")[|buf|..] == ".0" && (buf + ".0")[..|buf|] == buf;
    }
  }

  /** Bounds that are printed differently have different keys. */
  lemma KeysTellApart(number: real -> string, v: real, w: real)
    requires Printer(number) && number(v) != number(w)
    ensures DoubleToStr(number, v) != DoubleToStr(number, w)
  {
    KeyTellsNumber(number, v);
    KeyTellsNumber(number, w);
  }

  ghost predicate Ascending(s: seq<real>) {
    forall i, j :: 0 <= i < j < |s| ==> s[i] <= s[j]
  }

  ghost predicate StrictlyAscending(s: seq<real>) {
    forall i, j :: 0 <= i < j < |s| ==> s[i] < s[j]
  }

  lemma {:induction false} NeighboursAscend(s: seq<real>, i: nat, j: nat)
    requires forall k :: 0 < k < |s| ==> s[k - 1] <= s[k]
    requires i <= j < |s|
    ensures s[i] <= s[j]
    decreases j
  {
    if i < j {
      NeighboursAscend(s, i, j - 1);
    }
  }

  lemma {:induction false} NeighboursStrictlyAscend(s: seq<real>, i: nat, j: nat)
    requires forall k :: 0 < k < |s| ==> s[k - 1] < s[k]
    requires i < j < |s|
    ensures s[i] < s[j]
    decreases j
  {
    if i < j - 1 {
      NeighboursStrictlyAscend(s, i, j - 1);
    }
  }

  /** Keys have a decimal point, so none of them is "+Inf", "count" or "sum". */
  lemma KeysHavePoint(b: Buckets, number: real -> string)
    requires b.Keyed(number) && Printer(number)
    ensures forall i :: 0 <= i < |b.keys| ==> '.' in b.keys[i] && '"' !in b.keys[i]
    ensures "+Inf" !in b.keys && "count" !in b.keys && "sum" !in b.keys
    ensures |b.keys| == |b.bounds|
  {
    forall i | 0 <= i < |b.keys| ensures '.' in b.keys[i] && '"' !in b.keys[i] {
      var buf := number(b.bounds[i]);
      assert |buf| < 30 && '"' !in buf;
      if '.' !in buf {
        assert (buf + ".0")[|buf|] == '.';
      }
    }
  }

  /** Keys are distinct exactly when bounds that pass the constructor's check ascend strictly. */
  lemma KeysDistinct(b: Buckets, number: real -> string)
    requires b.Keyed(number) && Printer(number) && TellsApart(number, b.bounds) && Ascending(b.bounds)
    ensures (forall i, j :: 0 <= i < j < |b.keys| ==> b.keys[i] != b.keys[j]) <==> StrictlyAscending(b.bounds)
  {
    hide Printer;
    if StrictlyAscending(b.bounds) {
      forall i, j | 0 <= i < j < |b.keys| ensures b.keys[i] != b.keys[j] {
        assert b.bounds[i] < b.bounds[j];
        KeysTellApart(number, b.bounds[i], b.bounds[j]);
      }
    } else {
      var i, j :| 0 <= i < j < |b.bounds| && b.bounds[i] >= b.bounds[j];
      assert b.keys[i] == b.keys[j];
    }
  }

  /** phb_new: the listed bounds. The source writes its first bound before it looks at the count. */
  method New(number: real -> string, bounds: seq<real>) returns (b: Buckets)
    requires |bounds| >= 1
    ensures b.bounds == bounds && b.Keyed(number)
  {
    var upperBounds := new real[|bounds|];
    var keys := new string[|bounds|];
    upperBounds[0], keys[0] := bounds[0], DoubleToStr(number, bounds[0]);
    for i := 1 to |bounds|
      invariant forall j :: 0 <= j < i ==> upperBounds[j] == bounds[j]
      invariant forall j :: 0 <= j < i ==> keys[j] == DoubleToStr(number, bounds[j])
    {
      upperBounds[i] := bounds[i];
      keys[i] := DoubleToStr(number, upperBounds[i]);
    }
    b := Buckets(upperBounds[..], keys[..]);
    assert upperBounds[..] == bounds;
  }

  function LinearBound(start: real, width: real, i: nat): real {
    start + width * i as real
  }

  lemma LinearStep(start: real, width: real, i: nat)
    requires i > 0
    ensures LinearBound(start, width, i) == LinearBound(start, width, i - 1) + width
    ensures LinearBound(start, width, 0) == start
  {
    assert i as real == (i - 1) as real + 1.0;
    assert width * i as real == width * (i - 1) as real + width;
  }

  /** phb_linear: evenly spaced bounds, strictly ascending exactly for a positive width. */
  method Linear(number: real -> string, start: real, width: real, count: nat) returns (r: Option<Buckets>)
    ensures r.Some? <==> count > 1
    ensures r.Some? ==> |r.value.bounds| == count && r.value.Keyed(number)
    ensures r.Some? ==> forall i :: 0 <= i < count ==> r.value.bounds[i] == LinearBound(start, width, i)
    ensures r.Some? ==> forall i :: 0 <= i < count ==> r.value.bounds[i] == start + width * i as real
    ensures r.Some? ==> (Ascending(r.value.bounds) <==> width >= 0.0)
    ensures r.Some? ==> (StrictlyAscending(r.value.bounds) <==> width > 0.0)
  {
    hide LinearBound, Ascending, StrictlyAscending, DoubleToStr;
    if count <= 1 {
      return None;
    }
    var upperBounds := new real[count];
    var keys := new string[count];
    upperBounds[0], keys[0] := start, DoubleToStr(number, start);
    LinearStep(start, width, 1);
    for i := 1 to count
      invariant forall j :: 0 <= j < i ==> upperBounds[j] == LinearBound(start, width, j)
      invariant forall j :: 0 <= j < i ==> keys[j] == DoubleToStr(number, upperBounds[j])
    {
      LinearStep(start, width, i);
      upperBounds[i] := upperBounds[i - 1] + width;
      keys[i] := DoubleToStr(number, upperBounds[i]);
    }
    var b := Buckets(upperBounds[..], keys[..]);
    LinearOrder(start, width, b.bounds);
    LinearSpelled(start, width, b.bounds);
    return Some(b);
  }

  lemma LinearSpelled(start: real, width: real, s: seq<real>)
    requires forall i :: 0 <= i < |s| ==> s[i] == LinearBound(start, width, i)
    ensures forall i :: 0 <= i < |s| ==> s[i] == start + width * i as real
  {
  }

  lemma LinearOrder(start: real, width: real, s: seq<real>)
    requires |s| > 1 && forall i :: 0 <= i < |s| ==> s[i] == LinearBound(start, width, i)
    ensures Ascending(s) <==> width >= 0.0
    ensures StrictlyAscending(s) <==> width > 0.0
  {
    forall k | 0 < k < |s| ensures s[k] == s[k - 1] + width {
      LinearStep(start, width, k);
    }
    assert s[1] == s[0] + width;
    hide LinearBound;
    if width >= 0.0 {
      forall i, j | 0 <= i < j < |s| ensures s[i] <= s[j] {
        NeighboursAscend(s, i, j);
      }
    }
    if width > 0.0 {
      forall i, j | 0 <= i < j < |s| ensures s[i] < s[j] {
        NeighboursStrictlyAscend(s, i, j);
      }
    }
  }

  function Power(x: real, n: nat): real {
    if n == 0 then 1.0 else Power(x, n - 1) * x
  }

  function GeometricBound(start: real, factor: real, i: nat): real {
    start * Power(factor, i)
  }

  lemma GeometricStep(start: real, factor: real, i: nat)
    requires i > 0
    ensures GeometricBound(start, factor, i) == GeometricBound(start, factor, i - 1) * factor
    ensures GeometricBound(start, factor, 0) == start
  {
    var p := Power(factor, i - 1);
    assert start * (p * factor) == (start * p) * factor;
  }

  /** phb_exponential: geometric bounds, always strictly ascending for the accepted arguments. */
  method Exponential(number: real -> string, start: real, factor: real, count: nat) returns (r: Option<Buckets>)
    ensures r.Some? <==> count >= 1 && start > 0.0 && factor > 1.0
    ensures r.Some? ==> |r.value.bounds| == count && r.value.Keyed(number)
    ensures r.Some? ==> forall i :: 0 <= i < count ==> r.value.bounds[i] == GeometricBound(start, factor, i)
    ensures r.Some? ==> r.value.bounds[0] == start
    ensures r.Some? ==> forall i :: 0 < i < count ==> r.value.bounds[i] == r.value.bounds[i - 1] * factor
    ensures r.Some? ==> StrictlyAscending(r.value.bounds)
  {
    hide GeometricBound, StrictlyAscending, DoubleToStr;
    if count < 1 || start <= 0.0 || factor <= 1.0 {
      return None;
    }
    var upperBounds := new real[count];
    var keys := new string[count];
    upperBounds[0], keys[0] := start, DoubleToStr(number, start);
    GeometricStep(start, factor, 1);
    for i := 1 to count
      invariant forall j :: 0 <= j < i ==> upperBounds[j] == GeometricBound(start, factor, j)
      invariant forall j :: 0 <= j < i ==> keys[j] == DoubleToStr(number, upperBounds[j])
    {
      GeometricStep(start, factor, i);
      upperBounds[i] := upperBounds[i - 1] * factor;
      keys[i] := DoubleToStr(number, upperBounds[i]);
    }
    var b := Buckets(upperBounds[..], keys[..]);
    GeometricOrder(start, factor, b.bounds);
    GeometricSteps(start, factor, b.bounds);
    return Some(b);
  }

  lemma GeometricSteps(start: real, factor: real, s: seq<real>)
    requires forall i :: 0 <= i < |s| ==> s[i] == GeometricBound(start, factor, i)
    ensures s != [] ==> s[0] == start
    ensures forall i :: 0 < i < |s| ==> s[i] == s[i - 1] * factor
  {
    hide GeometricBound;
    if s != [] {
      GeometricStep(start, factor, 1);
    }
    forall i | 0 < i < |s| ensures s[i] == s[i - 1] * factor {
      GeometricStep(start, factor, i);
    }
  }

  lemma {:induction false} GeometricPositive(start: real, factor: real, i: nat)
    requires start > 0.0 && factor > 1.0
    ensures GeometricBound(start, factor, i) > 0.0
  {
    if i > 0 {
      GeometricPositive(start, factor, i - 1);
      GeometricStep(start, factor, i);
    }
  }

  lemma GeometricOrder(start: real, factor: real, s: seq<real>)
    requires start > 0.0 && factor > 1.0
    requires forall i :: 0 <= i < |s| ==> s[i] == GeometricBound(start, factor, i)
    ensures StrictlyAscending(s)
  {
    forall k | 0 < k < |s| ensures s[k - 1] < s[k] {
      GeometricGrows(start, factor, k);
    }
    forall i, j | 0 <= i < j < |s| ensures s[i] < s[j] {
      NeighboursStrictlyAscend(s, i, j);
    }
  }

  lemma GeometricGrows(start: real, factor: real, k: nat)
    requires start > 0.0 && factor > 1.0 && k > 0
    ensures GeometricBound(start, factor, k - 1) < GeometricBound(start, factor, k)
  {
    GeometricStep(start, factor, k);
    GeometricPositive(start, factor, k - 1);
    hide GeometricBound;
    Scaled(GeometricBound(start, factor, k - 1), factor, GeometricBound(start, factor, k));
  }

  lemma Scaled(x: real, factor: real, y: real)
    requires x > 0.0 && factor > 1.0 && y == x * factor
    ensures x < y
  {
    assert x * factor - x == x * (factor - 1.0);
  }

  /** The loop of prom_histogram_new: it looks at neighbours and so accepts exactly the bounds that
      ascend, equal ones included. */
  method Increasing(b: Buckets) returns (ok: bool)
    ensures ok <==> Ascending(b.bounds)
  {
    var i := 1;
    while i < |b.bounds|
      invariant i >= 1 && forall k :: 0 < k < i && k < |b.bounds| ==> b.bounds[k - 1] <= b.bounds[k]
    {
      if b.bounds[i - 1] > b.bounds[i] {
        return false;
      }
      i := i + 1;
    }
    forall i, j | 0 <= i < j < |b.bounds| ensures b.bounds[i] <= b.bounds[j] {
      NeighboursAscend(b.bounds, i, j);
    }
    return true;
  }

  const DEFAULT_BOUNDS: seq<real> := [0.005, 0.01, 0.025, 0.05, 0.1, 0.25, 0.5, 1.0, 2.5, 5.0, 10.0]

  lemma DefaultsAscend()
    ensures |DEFAULT_BOUNDS| == 11 && StrictlyAscending(DEFAULT_BOUNDS)
  {
    forall i, j | 0 <= i < j < |DEFAULT_BOUNDS| ensures DEFAULT_BOUNDS[i] < DEFAULT_BOUNDS[j] {
      NeighboursStrictlyAscend(DEFAULT_BOUNDS, i, j);
    }
  }
}
