/**
  Scraping a histogram while it is being observed. Observations hold the histogram's lock and raise
  their lines one at a time (lib/prom/src/prom_metric_sample_histogram.c, lines 250 to 314); the
  scrape reads the lines in printing order without the lock
  (lib/prom/src/prom_metric_formatter.c, lines 202 to 213).
  */
module HistogramScrape {
  import opened HistogramBuckets
  import opened HistogramSpec

  /** `cells` holds how often the sample behind a line key was raised; a sample that never was is
      absent. Lines with the same key share a sample. `before` is `cells` as of the last time the
      lock was free. */
  datatype State = State(cells: map<string, nat>, locked: bool, value: real, done: nat,
                         before: map<string, nat>, printed: seq<nat>)

  datatype Event =
    | Lock(value: real)   // an observation starts
    | Raise               // it raises the next line of its plan
    | Unlock              // it has raised all of them
    | Read                // the scrape prints the next line
    | Restart             // a new scrape begins

  function Cell(m: map<string, nat>, key: string): nat {
    if key in m then m[key] else 0
  }

  /** What a scrape of these cells at one moment prints. */
  function Counts(b: Buckets, m: map<string, nat>): (c: seq<nat>)
    ensures |c| == |b.keys| + 3
    ensures forall i :: 0 <= i < |c| ==> c[i] == Cell(m, LineKeys(b)[i])
  {
    seq(|LineKeys(b)|, i requires 0 <= i < |LineKeys(b)| => Cell(m, LineKeys(b)[i]))
  }

  predicate Enabled(b: Buckets, s: State, e: Event) {
    match e
    case Lock(_) => !s.locked
    case Raise => s.locked && s.done < |Plan(b.bounds, s.value)|
    case Unlock => s.locked && s.done == |Plan(b.bounds, s.value)|
    case Read => |s.printed| < |LineKeys(b)|
    case Restart => true
  }

  function Next(b: Buckets, s: State, e: Event): State
    requires PlainKeys(b) && Enabled(b, s, e)
  {
    match e
    case Lock(v) => s.(locked := true, value := v, done := 0, before := s.cells)
    case Raise =>
      var key := LineKeys(b)[Plan(b.bounds, s.value)[s.done]];
      s.(cells := s.cells[key := Cell(s.cells, key) + 1], done := s.done + 1)
    case Unlock => s.(locked := false, before := s.cells)
    case Read => s.(printed := s.printed + [Cell(s.cells, LineKeys(b)[|s.printed|])])
    case Restart => s.(printed := [])
  }

  ghost predicate Initial(s: State) {
    s.cells == s.before == map[] && !s.locked && s.printed == []
  }

  ghost predicate Moves(b: Buckets, s: State, e: Event, s': State)
    requires PlainKeys(b)
  {
    Enabled(b, s, e) && s' == Next(b, s, e)
  }

  ghost predicate Run(b: Buckets, states: seq<State>, events: seq<Event>)
    requires PlainKeys(b)
  {
    && |states| == |events| + 1
    && Initial(states[0])
    && forall i :: 0 <= i < |events| ==> Moves(b, states[i], events[i], states[i + 1])
  }

  /** How many finite buckets the running observation raises. */
  function Reach(bounds: seq<real>, v: real): nat {
    |Descend(bounds, v, |bounds|)|
  }

  /** Whether line i has been raised by the first `done` updates. */
  ghost predicate Raised(n: nat, h: nat, done: nat, i: nat) {
    if i < n then n - h <= i && n - 1 - i < done else h + (i - n) < done
  }

  lemma PlanAt(bounds: seq<real>, v: real, k: nat)
    requires k < |Plan(bounds, v)|
    ensures var n, h := |bounds|, Reach(bounds, v);
            && h <= n && h + 2 <= |Plan(bounds, v)| <= h + 3
            && Plan(bounds, v)[k] == if k < h then n - 1 - k else n + (k - h)
  {
    DescendAt(bounds, v, |bounds|);
  }

  // ----- The order of what is printed -----

  /** With the lock free, buckets ascend up to +Inf, which equals count. */
  ghost predicate Settled(n: nat, c: seq<nat>) {
    && |c| == n + 3
    && (forall i, j :: 0 <= i < j < n ==> c[i] <= c[j])
    && (forall i :: 0 <= i < n ==> c[i] <= c[n])
    && c[n] == c[n + 1]
  }

  /** At any moment: buckets ascend, and +Inf and count lag by at most the running observation. */
  ghost predicate Ordered(n: nat, c: seq<nat>) {
    && |c| == n + 3
    && (forall i, j :: 0 <= i < j < n ==> c[i] <= c[j])
    && (forall i :: 0 <= i < n ==> c[i] <= c[n] + 1)
    && c[n] <= c[n + 1] + 1
  }

  ghost predicate PrintedOk(n: nat, c: seq<nat>, p: seq<nat>) {
    && |p| <= |c|
    && (forall i :: 0 <= i < |p| ==> p[i] <= c[i])
    && (forall i, j :: 0 <= i < j < n && j < |p| ==> p[i] <= p[j])
    && (n < |p| ==> forall i :: 0 <= i < n ==> p[i] <= p[n] + 1)
    && (n + 1 < |p| ==> p[n] <= p[n + 1] + 1)
  }

  /** What holds in every state of a histogram whose buckets have keys of their own. */
  ghost predicate Inv(b: Buckets, s: State) {
    var n, h, before, counts := |b.bounds|, Reach(b.bounds, s.value), Counts(b, s.before), Counts(b, s.cells);
    && Settled(n, before)
    && |counts| == n + 3
    && (s.locked ==>
          && s.done <= |Plan(b.bounds, s.value)| && h <= n && h + 2 <= |Plan(b.bounds, s.value)|
          && forall i :: 0 <= i < n + 3 ==>
               counts[i] == before[i] + if Raised(n, h, s.done, i) then 1 else 0)
    && (!s.locked ==> s.cells == s.before)
    && PrintedOk(n, counts, s.printed)
  }

  /** Because the highest bucket is raised first, the counts are in order at every moment. */
  lemma AlwaysOrdered(b: Buckets, s: State)
    requires Inv(b, s)
    ensures Ordered(|b.bounds|, Counts(b, s.cells))
  {
    hide Counts, Plan, Reach;
  }

  lemma StartsInv(b: Buckets, s: State)
    requires PlainKeys(b) && Initial(s)
    ensures Inv(b, s)
  {
    hide Plan, Reach;
  }

  lemma LockKeepsInv(b: Buckets, s: State, s': State, v: real)
    requires PlainKeys(b) && Inv(b, s) && Moves(b, s, Lock(v), s')
    ensures Inv(b, s')
  {
    hide Counts;
    DescendAt(b.bounds, v, |b.bounds|);
  }

  /** With distinct keys, raising one line leaves the others as they are. */
  lemma OneCell(b: Buckets, m: map<string, nat>, i: nat)
    requires PlainKeys(b) && UnsharedKeys(b) && i < |LineKeys(b)|
    ensures var key := LineKeys(b)[i];
            Counts(b, m[key := Cell(m, key) + 1]) == Counts(b, m)[i := Counts(b, m)[i] + 1]
  {
    LineKeysUnshared(b);
  }

  lemma PrintedStaysOk(n: nat, c: seq<nat>, c': seq<nat>, p: seq<nat>)
    requires PrintedOk(n, c, p) && |c| == |c'| && forall i :: 0 <= i < |c| ==> c[i] <= c'[i]
    ensures PrintedOk(n, c', p)
  {
  }

  lemma RaiseKeepsInv(b: Buckets, s: State, s': State)
    requires PlainKeys(b) && UnsharedKeys(b) && Inv(b, s) && Moves(b, s, Raise, s')
    ensures Inv(b, s')
  {
    hide Plan, Reach, Counts, Raised, PrintedOk, Settled, UnsharedKeys;
    var i := Plan(b.bounds, s.value)[s.done];
    OneCell(b, s.cells, i);
    RaisedOneMore(b, s, s');
    PrintedStaysOk(|b.bounds|, Counts(b, s.cells), Counts(b, s'.cells), s.printed);
  }

  lemma RaisedOneMore(b: Buckets, s: State, s': State)
    requires PlainKeys(b) && UnsharedKeys(b) && Inv(b, s) && Moves(b, s, Raise, s')
    ensures var n, h := |b.bounds|, Reach(b.bounds, s.value);
            forall i :: 0 <= i < n + 3 ==>
              Counts(b, s'.cells)[i] == Counts(b, s'.before)[i] + if Raised(n, h, s'.done, i) then 1 else 0
  {
    PlanAt(b.bounds, s.value, s.done);
    OneCell(b, s.cells, Plan(b.bounds, s.value)[s.done]);
    hide Plan, Reach, Descend, Counts;
    var n, h := |b.bounds|, Reach(b.bounds, s.value);
    forall i | 0 <= i < n + 3
      ensures Counts(b, s'.cells)[i] == Counts(b, s'.before)[i] + if Raised(n, h, s'.done, i) then 1 else 0
    {
      assert Raised(n, h, s'.done, i) <==> Raised(n, h, s.done, i) || i == Plan(b.bounds, s.value)[s.done];
    }
  }

  lemma UnlockKeepsInv(b: Buckets, s: State, s': State)
    requires PlainKeys(b) && Inv(b, s) && Moves(b, s, Unlock, s')
    ensures Inv(b, s')
  {
    hide Counts;
    DescendAt(b.bounds, s.value, |b.bounds|);
  }

  lemma PrintOneMore(n: nat, c: seq<nat>, p: seq<nat>)
    requires Ordered(n, c) && PrintedOk(n, c, p) && |p| < |c|
    ensures PrintedOk(n, c, p + [c[|p|]])
  {
  }

  lemma ReadKeepsInv(b: Buckets, s: State, s': State)
    requires PlainKeys(b) && Inv(b, s) && Moves(b, s, Read, s')
    ensures Inv(b, s')
  {
    hide Counts, Raised, Plan, Reach, Settled, Ordered, PrintedOk;
    AlwaysOrdered(b, s);
    PrintOneMore(|b.bounds|, Counts(b, s.cells), s.printed);
  }

  lemma {:induction false} EveryRunInv(b: Buckets, states: seq<State>, events: seq<Event>, i: nat)
    requires PlainKeys(b) && UnsharedKeys(b) && Run(b, states, events) && i < |states|
    ensures Inv(b, states[i])
  {
    hide Inv, Next, Enabled, PlainKeys, UnsharedKeys;
    if i == 0 {
      StartsInv(b, states[0]);
    } else {
      EveryRunInv(b, states, events, i - 1);
      var s, e, s' := states[i - 1], events[i - 1], states[i];
      assert Moves(b, s, e, s');
      match e
      case Lock(v) => LockKeepsInv(b, s, s', v);
      case Raise => RaiseKeepsInv(b, s, s');
      case Unlock => UnlockKeepsInv(b, s, s');
      case Read => ReadKeepsInv(b, s, s');
      case Restart => RestartKeepsInv(b, s, s');
    }
  }

  lemma RestartKeepsInv(b: Buckets, s: State, s': State)
    requires PlainKeys(b) && Inv(b, s) && Moves(b, s, Restart, s')
    ensures Inv(b, s')
  {
    hide Counts, Plan, Reach, Raised;
  }

  /** However the scrape interleaves with the observations, it prints non-decreasing finite
      buckets, +Inf is at least the last of them minus one, and count at least +Inf minus one. */
  lemma ScrapeIsOrdered(b: Buckets, states: seq<State>, events: seq<Event>, i: nat)
    requires PlainKeys(b) && UnsharedKeys(b)
    requires Run(b, states, events) && i < |states| && |states[i].printed| == |LineKeys(b)|
    ensures Ordered(|b.bounds|, states[i].printed)
  {
    EveryRunInv(b, states, events, i);
    hide Plan, Reach, Counts, Run;
  }

  lemma {:induction false} CountsGrow(b: Buckets, states: seq<State>, events: seq<Event>, i: nat, j: nat)
    requires PlainKeys(b) && Run(b, states, events) && i <= j < |states|
    ensures forall key :: Cell(states[i].cells, key) <= Cell(states[j].cells, key)
    decreases j
  {
    hide Plan, LineKeys, PlainKeys;
    if i < j {
      CountsGrow(b, states, events, i, j - 1);
      assert Moves(b, states[j - 1], events[j - 1], states[j]);
    }
  }

  // ----- What is counted whenever the lock is free -----

  /** The values whose observations have started. */
  function Started(events: seq<Event>): seq<real> {
    if events == [] then []
    else
      var last := events[|events| - 1];
      Started(events[..|events| - 1]) + if last.Lock? then [last.value] else []
  }

  /** How often a plan raises the sample behind a key. */
  function Times(b: Buckets, plan: seq<nat>, key: string): nat
    requires forall k :: 0 <= k < |plan| ==> plan[k] < |LineKeys(b)|
  {
    if plan == [] then 0
    else Times(b, plan[..|plan| - 1], key) + if LineKeys(b)[plan[|plan| - 1]] == key then 1 else 0
  }

  /** How often the observations of the values raise the sample behind a key. */
  function Due(b: Buckets, values: seq<real>, key: string): nat
    requires PlainKeys(b)
  {
    if values == [] then 0
    else Due(b, values[..|values| - 1], key) + Times(b, Plan(b.bounds, values[|values| - 1]), key)
  }

  /** Of the observations that have started, those that are finished: a running one started last. */
  function Finished(s: State, values: seq<real>): seq<real> {
    if s.locked && values != [] then values[..|values| - 1] else values
  }

  /** `before` counts the finished observations; a running one is counted as far as it has come. */
  ghost predicate History(b: Buckets, s: State, values: seq<real>)
    requires PlainKeys(b)
  {
    && (forall key :: Cell(s.before, key) == Due(b, Finished(s, values), key))
    && (!s.locked ==> s.cells == s.before)
    && (s.locked ==>
          && values != [] && values[|values| - 1] == s.value && s.done <= |Plan(b.bounds, s.value)|
          && forall key :: Cell(s.cells, key) == Cell(s.before, key) + Times(b, Plan(b.bounds, s.value)[..s.done], key))
  }

  lemma LockKeepsHistory(b: Buckets, s: State, s': State, v: real, values: seq<real>)
    requires PlainKeys(b) && History(b, s, values) && Moves(b, s, Lock(v), s')
    ensures History(b, s', values + [v])
  {
    hide Plan, Due, LineKeys;
    assert (values + [v])[..|values|] == values;
  }

  lemma RaiseKeepsHistory(b: Buckets, s: State, s': State, values: seq<real>)
    requires PlainKeys(b) && History(b, s, values) && Moves(b, s, Raise, s')
    ensures History(b, s', values)
  {
    hide Plan, Due, LineKeys;
    var plan := Plan(b.bounds, s.value);
    forall key ensures Cell(s'.cells, key) == Cell(s.before, key) + Times(b, plan[..s'.done], key) {
      assert plan[..s.done + 1][..s.done] == plan[..s.done];
      assert Times(b, plan[..s.done + 1], key)
             == Times(b, plan[..s.done], key) + if LineKeys(b)[plan[s.done]] == key then 1 else 0;
    }
  }

  lemma UnlockKeepsHistory(b: Buckets, s: State, s': State, values: seq<real>)
    requires PlainKeys(b) && History(b, s, values) && Moves(b, s, Unlock, s')
    ensures History(b, s', values)
  {
    hide Plan, Times, LineKeys, PlainKeys;
    var plan := Plan(b.bounds, s.value);
    assert plan[..s.done] == plan;
  }

  lemma {:induction false} HistoryAt(b: Buckets, states: seq<State>, events: seq<Event>, i: nat)
    requires PlainKeys(b) && Run(b, states, events) && i < |states|
    ensures History(b, states[i], Started(events[..i]))
  {
    hide History, Next, Enabled, PlainKeys;
    if i == 0 {
      NothingCounted(b, states[0]);
    } else {
      HistoryAt(b, states, events, i - 1);
      var s, e, s' := states[i - 1], events[i - 1], states[i];
      var values := Started(events[..i - 1]);
      assert Moves(b, s, e, s');
      assert events[..i][..i - 1] == events[..i - 1] && values + [] == values;
      match e
      case Lock(v) => LockKeepsHistory(b, s, s', v, values);
      case Raise => RaiseKeepsHistory(b, s, s', values);
      case Unlock => UnlockKeepsHistory(b, s, s', values);
      case Read => PrintingKeepsHistory(b, s, e, s', values);
      case Restart => PrintingKeepsHistory(b, s, e, s', values);
    }
  }

  lemma NothingCounted(b: Buckets, s: State)
    requires PlainKeys(b) && Initial(s)
    ensures History(b, s, [])
  {
  }

  lemma PrintingKeepsHistory(b: Buckets, s: State, e: Event, s': State, values: seq<real>)
    requires PlainKeys(b) && History(b, s, values) && Moves(b, s, e, s') && (e.Read? || e.Restart?)
    ensures History(b, s', values)
  {
    hide Plan, Times, Due, LineKeys, PlainKeys;
  }

  lemma {:induction false} TimesJoin(b: Buckets, p: seq<nat>, q: seq<nat>, key: string)
    requires forall k :: 0 <= k < |p| ==> p[k] < |LineKeys(b)|
    requires forall k :: 0 <= k < |q| ==> q[k] < |LineKeys(b)|
    ensures forall k :: 0 <= k < |p + q| ==> (p + q)[k] < |LineKeys(b)|
    ensures Times(b, p + q, key) == Times(b, p, key) + Times(b, q, key)
  {
    hide LineKeys;
    if q == [] {
      assert p + q == p;
    } else {
      TimesJoin(b, p, q[..|q| - 1], key);
      assert (p + q)[..|p + q| - 1] == p + q[..|q| - 1];
    }
  }

  /** The loop over the buckets hits each key as often as its buckets' bounds are not below the value. */
  lemma {:induction false} TimesOfDescend(b: Buckets, v: real, i: nat, key: string)
    requires PlainKeys(b) && Ascending(b.bounds) && i <= |b.bounds|
    ensures Times(b, Descend(b.bounds, v, i), key) + HitsFrom(b, key, v, i) == HitsFrom(b, key, v, 0)
  {
    if i == 0 {
    } else if v > b.bounds[i - 1] {
      NoHitsBelow(b, key, v, i, 0);
    } else {
      TimesOfDescend(b, v, i - 1, key);
      TimesOfOne(b, i - 1, key);
      TimesJoin(b, [i - 1], Descend(b.bounds, v, i - 1), key);
    }
  }

  lemma TimesOfOne(b: Buckets, line: nat, key: string)
    requires line < |LineKeys(b)|
    ensures Times(b, [line], key) == if LineKeys(b)[line] == key then 1 else 0
  {
    assert [line][..0] == [];
  }

  /** Of the histogram's own lines, a plan raises +Inf and count once. */
  lemma TimesOfTail(b: Buckets, v: real, key: string)
    requires PlainKeys(b) && key != "sum"
    ensures var n := |b.bounds|;
            Times(b, [n, n + 1] + if v >= 0.0 then [n + 2] else [], key)
            == if key == "+Inf" || key == "count" then 1 else 0
  {
    var n := |b.bounds|;
    OwnLineKeys(b);
    TimesOfOne(b, n, key);
    TimesOfOne(b, n + 1, key);
    TimesOfOne(b, n + 2, key);
    hide Times;
    TimesJoin(b, [n], [n + 1], key);
    assert [n] + [n + 1] == [n, n + 1];
    if v >= 0.0 {
      TimesJoin(b, [n, n + 1], [n + 2], key);
    } else {
      assert [n, n + 1] + [] == [n, n + 1];
    }
  }

  lemma TimesOfPlan(b: Buckets, v: real, key: string)
    requires PlainKeys(b) && Ascending(b.bounds) && key != "sum"
    ensures key in b.keys ==> Times(b, Plan(b.bounds, v), key) == HitsFrom(b, key, v, 0)
    ensures key == "+Inf" || key == "count" ==> Times(b, Plan(b.bounds, v), key) == 1
  {
    var n := |b.bounds|;
    var tail := [n, n + 1] + if v >= 0.0 then [n + 2] else [];
    TimesOfDescend(b, v, n, key);
    TimesOfTail(b, v, key);
    TimesJoin(b, Descend(b.bounds, v, n), tail, key);
    assert Plan(b.bounds, v) == Descend(b.bounds, v, n) + tail;
    if key !in b.keys {
      NoHits(b, key, v, 0);
    }
  }

  lemma {:induction false} NoHits(b: Buckets, key: string, v: real, lo: nat)
    requires |b.keys| == |b.bounds| && key !in b.keys
    ensures HitsFrom(b, key, v, lo) == 0
    decreases |b.bounds| - lo
  {
    if lo < |b.bounds| {
      NoHits(b, key, v, lo + 1);
    }
  }

  /** The cells hold what the histogram object's samples hold after the same observations. */
  lemma {:induction false} DueIsBucketValue(b: Buckets, values: seq<real>, key: string)
    requires PlainKeys(b) && Ascending(b.bounds) && key != "sum"
    ensures key in b.keys ==> Due(b, values, key) == BucketValue(b, key, values)
    ensures key == "+Inf" || key == "count" ==> Due(b, values, key) == |values|
  {
    hide PlainKeys, Ascending, Times, Plan, HitsFrom;
    if values != [] {
      DueIsBucketValue(b, values[..|values| - 1], key);
      TimesOfPlan(b, values[|values| - 1], key);
    }
  }

  /** Whenever the lock is free, the sample behind a bucket key has the value that the observations
      give it, shared keys included, and +Inf and count hold the number of all, whatever scrapes ran
      in between. */
  lemma FreeStateCells(b: Buckets, states: seq<State>, events: seq<Event>, i: nat)
    requires PlainKeys(b) && Ascending(b.bounds) && Run(b, states, events) && i < |states| && !states[i].locked
    ensures var values, cells := Started(events[..i]), states[i].cells;
            && (forall k :: 0 <= k < |b.keys| ==> Cell(cells, b.keys[k]) == BucketValue(b, b.keys[k], values))
            && Cell(cells, "+Inf") == |values| && Cell(cells, "count") == |values|
  {
    hide BucketValue, Due, Ascending, Run;
    RunSize(b, states, events);
    HistoryAt(b, states, events, i);
    var values, cells := Started(events[..i]), states[i].cells;
    forall k | 0 <= k < |b.keys| ensures Cell(cells, b.keys[k]) == BucketValue(b, b.keys[k], values) {
      DueIsBucketValue(b, values, b.keys[k]);
    }
    DueIsBucketValue(b, values, "+Inf");
    DueIsBucketValue(b, values, "count");
  }

  /** The counts that a histogram should show after the observations of the values. */
  ghost predicate CountsOf(b: Buckets, c: seq<nat>, values: seq<real>)
    requires PlainKeys(b)
  {
    && |c| == |b.bounds| + 3
    && (forall k :: 0 <= k < |b.bounds| ==> c[k] == CountLe(values, b.bounds[k]))
    && c[|b.bounds|] == |values| && c[|b.bounds| + 1] == |values|
  }

  /** With a key for every bucket, each bucket holds the number of observations at or below its
      bound whenever the lock is free. */
  lemma FreeStateCounts(b: Buckets, states: seq<State>, events: seq<Event>, i: nat)
    requires PlainKeys(b) && Ascending(b.bounds) && UnsharedKeys(b)
    requires Run(b, states, events) && i < |states| && !states[i].locked
    ensures CountsOf(b, Counts(b, states[i].cells), Started(events[..i]))
  {
    hide BucketValue, CountLe, Ascending, Run;
    RunSize(b, states, events);
    FreeStateCells(b, states, events, i);
    var values := Started(events[..i]);
    forall k | 0 <= k < |b.keys| ensures BucketValue(b, b.keys[k], values) == CountLe(values, b.bounds[k]) {
      OnlyBucketCounts(b, k, values);
    }
  }

  // ----- Runs -----

  lemma Extend(b: Buckets, states: seq<State>, events: seq<Event>, e: Event)
    returns (states': seq<State>, events': seq<Event>)
    requires PlainKeys(b) && Run(b, states, events) && Enabled(b, states[|events|], e)
    ensures Run(b, states', events') && states' == states + [Next(b, states[|events|], e)] && events' == events + [e]
    ensures Started(events') == Started(events) + if e.Lock? then [e.value] else []
  {
    hide Next, Enabled, PlainKeys, Initial;
    states', events' := states + [Next(b, states[|events|], e)], events + [e];
    assert events'[..|events|] == events;
    forall i | 0 <= i < |events'| ensures Moves(b, states'[i], events'[i], states'[i + 1]) {
      if i < |events| {
        assert Moves(b, states[i], events[i], states[i + 1]);
      }
    }
  }

  /** Any run in which the lock is free can go on with an observation. */
  lemma ExtendByObservation(b: Buckets, states: seq<State>, events: seq<Event>, v: real)
    returns (states': seq<State>, events': seq<Event>)
    requires PlainKeys(b) && Run(b, states, events) && !states[|events|].locked
    ensures Run(b, states', events') && !states'[|events'|].locked
    ensures states'[|events'|].printed == states[|events|].printed && Started(events') == Started(events) + [v]
  {
    hide Run, PlainKeys, Plan, Started;
    states', events' := Extend(b, states, events, Lock(v));
    RunSize(b, states', events');
    while states'[|events'|].done < |Plan(b.bounds, v)|
      invariant |states'| == |events'| + 1 && Run(b, states', events')
      invariant var s := states'[|events'|];
                && s.locked && s.value == v && s.done <= |Plan(b.bounds, v)|
                && s.printed == states[|events|].printed
      invariant Started(events') == Started(events) + [v]
      decreases |Plan(b.bounds, v)| - states'[|events'|].done
    {
      states', events' := Extend(b, states', events', Raise);
      RunSize(b, states', events');
    }
    states', events' := Extend(b, states', events', Unlock);
  }

  lemma RunSize(b: Buckets, states: seq<State>, events: seq<Event>)
    requires PlainKeys(b) && Run(b, states, events)
    ensures |states| == |events| + 1
  {
  }

  /** A scrape can go on undisturbed up to any line. */
  lemma ExtendByReads(b: Buckets, states: seq<State>, events: seq<Event>, upTo: nat)
    returns (states': seq<State>, events': seq<Event>)
    requires PlainKeys(b) && Run(b, states, events) && |states[|events|].printed| <= upTo <= |LineKeys(b)|
    ensures Run(b, states', events') && Started(events') == Started(events)
    ensures var s, s' := states[|events|], states'[|events'|];
            && s'.cells == s.cells && s'.locked == s.locked && |s'.printed| == upTo
            && s'.printed == s.printed + Counts(b, s.cells)[|s.printed|..upTo]
  {
    hide Run, PlainKeys, Plan, Started;
    RunSize(b, states, events);
    ghost var s := states[|events|];
    states', events' := states, events;
    while |states'[|events'|].printed| < upTo
      invariant |states'| == |events'| + 1 && Run(b, states', events') && Started(events') == Started(events)
      invariant var s' := states'[|events'|];
                && s'.cells == s.cells && s'.locked == s.locked && |s.printed| <= |s'.printed| <= upTo
                && s'.printed == s.printed + Counts(b, s.cells)[|s.printed|..|s'.printed|]
      decreases upTo - |states'[|events'|].printed|
    {
      states', events' := Extend(b, states', events', Read);
      RunSize(b, states', events');
    }
  }

  /** Any run can go on with an undisturbed scrape. */
  lemma ExtendByScrape(b: Buckets, states: seq<State>, events: seq<Event>)
    returns (states': seq<State>, events': seq<Event>)
    requires PlainKeys(b) && Run(b, states, events)
    ensures Run(b, states', events') && Started(events') == Started(events)
    ensures states'[|events'|].printed == Counts(b, states[|events|].cells)
  {
    hide Run, PlainKeys, Plan, Started;
    RunSize(b, states, events);
    states', events' := Extend(b, states, events, Restart);
    RunSize(b, states', events');
    states', events' := ExtendByReads(b, states', events', |LineKeys(b)|);
  }

  lemma NewRun(b: Buckets) returns (states: seq<State>, events: seq<Event>)
    requires PlainKeys(b)
    ensures Run(b, states, events) && events == [] && !states[0].locked && states[0].cells == map[]
    ensures states[0].printed == [] && Started(events) == []
  {
    states, events := [State(map[], false, 0.0, 0, map[], [])], [];
  }

  /** Any observations can be made one after the other. */
  lemma {:induction false} ExtendByObservations(b: Buckets, states: seq<State>, events: seq<Event>, values: seq<real>)
    returns (states': seq<State>, events': seq<Event>)
    requires PlainKeys(b) && Run(b, states, events) && !states[|events|].locked
    ensures Run(b, states', events') && !states'[|events'|].locked
    ensures states'[|events'|].printed == states[|events|].printed && Started(events') == Started(events) + values
  {
    hide PlainKeys, Run, Started;
    if values == [] {
      states', events' := states, events;
    } else {
      var front, last := values[..|values| - 1], values[|values| - 1];
      states', events' := ExtendByObservations(b, states, events, front);
      states', events' := ExtendByObservation(b, states', events', last);
      assert Started(events) + front + [last] == Started(events) + values;
    }
  }

  lemma AfterObservations(b: Buckets, values: seq<real>)
    returns (states: seq<State>, events: seq<Event>)
    requires PlainKeys(b)
    ensures Run(b, states, events) && !states[|events|].locked && Started(events) == values
  {
    hide PlainKeys, Run;
    states, events := NewRun(b);
    states, events := ExtendByObservations(b, states, events, values);
    assert [] + values == values;
  }

  // ----- Buckets with equal bounds -----

  /** Every complete scrape of every run prints ordered counts. */
  ghost predicate EveryScrapeOrdered(b: Buckets)
    requires PlainKeys(b)
  {
    forall states: seq<State>, events: seq<Event>, i: nat ::
      Run(b, states, events) && i < |states| && |states[i].printed| == |LineKeys(b)| ==>
        Ordered(|b.bounds|, states[i].printed)
  }

  /** In every run the counts are right whenever the lock is free. */
  ghost predicate EveryFreeStateCounts(b: Buckets)
    requires PlainKeys(b)
  {
    forall states: seq<State>, events: seq<Event>, i: nat ::
      Run(b, states, events) && i < |states| && i <= |events| && !states[i].locked ==>
        CountsOf(b, Counts(b, states[i].cells), Started(events[..i]))
  }

  /** Of two buckets with one key, each observation at or below both bounds raises their sample twice. */
  lemma {:induction false} SharedValue(b: Buckets, i: nat, j: nat, values: seq<real>)
    requires PlainKeys(b) && Ascending(b.bounds) && i < j < |b.keys| && b.keys[i] == b.keys[j]
    requires forall k :: 0 <= k < |values| ==> values[k] <= b.bounds[i]
    ensures BucketValue(b, b.keys[i], values) >= 2 * |values|
  {
    if values != [] {
      SharedValue(b, i, j, values[..|values| - 1]);
      HitsAtLeastTwo(b, i, j, values[|values| - 1], 0);
    }
  }

  /** A run that ends with a free lock and too high a count for two buckets with one key. */
  lemma SharedKeyMiscounts(b: Buckets, i: nat, j: nat, v: real) returns (states: seq<State>, events: seq<Event>)
    requires PlainKeys(b) && Ascending(b.bounds) && i < j < |b.keys| && b.keys[i] == b.keys[j] && v <= b.bounds[i]
    ensures Run(b, states, events) && !states[|events|].locked && Started(events) == [v]
    ensures Counts(b, states[|events|].cells)[i] >= 2 && CountLe([v], b.bounds[i]) == 1
  {
    hide Run, BucketValue, Ascending;
    states, events := AfterObservations(b, [v]);
    RunSize(b, states, events);
    assert events[..|events|] == events && [v][..0] == [];
    FreeStateCells(b, states, events, |events|);
    SharedValue(b, i, j, [v]);
  }

  /** A run whose scrape prints a bucket two above +Inf. */
  lemma SharedKeyDisorders(b: Buckets, i: nat, j: nat, v: real) returns (states: seq<State>, events: seq<Event>)
    requires PlainKeys(b) && Ascending(b.bounds) && i < j < |b.keys| && b.keys[i] == b.keys[j] && v <= b.bounds[i]
    ensures Run(b, states, events) && Started(events) == [v, v]
    ensures var p := states[|events|].printed;
            |p| == |LineKeys(b)| && p[i] == p[j] == BucketValue(b, b.keys[i], [v, v]) >= 4 && p[|b.bounds|] == 2
  {
    hide Run, BucketValue, Ascending, Started;
    states, events := AfterObservations(b, [v, v]);
    RunSize(b, states, events);
    assert events[..|events|] == events;
    FreeStateCells(b, states, events, |events|);
    SharedValue(b, i, j, [v, v]);
    states, events := ExtendByScrape(b, states, events);
  }

  /** Scrapes are ordered in all runs exactly when every bucket has a key of its own. */
  lemma ScrapeOrderedExactly(b: Buckets)
    requires PlainKeys(b) && Ascending(b.bounds)
    ensures EveryScrapeOrdered(b) <==> UnsharedKeys(b)
  {
    hide Run, Ascending, PlainKeys;
    if UnsharedKeys(b) {
      forall states: seq<State>, events: seq<Event>, i: nat
        | Run(b, states, events) && i < |states| && |states[i].printed| == |LineKeys(b)|
        ensures Ordered(|b.bounds|, states[i].printed)
      {
        ScrapeIsOrdered(b, states, events, i);
      }
    } else {
      var i, j :| 0 <= i < j < |b.keys| && b.keys[i] == b.keys[j];
      SizesOf(b);
      var states, events := SharedKeyDisorders(b, i, j, b.bounds[i]);
      RunSize(b, states, events);
      assert !Ordered(|b.bounds|, states[|events|].printed);
    }
  }

  lemma SizesOf(b: Buckets)
    requires PlainKeys(b)
    ensures |b.keys| == |b.bounds|
  {
  }

  /** The counts are right in all runs exactly when every bucket has a key of its own. */
  lemma CountsExactly(b: Buckets)
    requires PlainKeys(b) && Ascending(b.bounds)
    ensures EveryFreeStateCounts(b) <==> UnsharedKeys(b)
  {
    hide Run, Ascending, PlainKeys;
    if UnsharedKeys(b) {
      forall states: seq<State>, events: seq<Event>, i: nat
        | Run(b, states, events) && i < |states| && i <= |events| && !states[i].locked
        ensures CountsOf(b, Counts(b, states[i].cells), Started(events[..i]))
      {
        FreeStateCounts(b, states, events, i);
      }
    } else {
      var i, j :| 0 <= i < j < |b.keys| && b.keys[i] == b.keys[j];
      SizesOf(b);
      var states, events := SharedKeyMiscounts(b, i, j, b.bounds[i]);
      RunSize(b, states, events);
      assert events[..|events|] == events;
      assert !CountsOf(b, Counts(b, states[|events|].cells), Started(events[..|events|]));
    }
  }

  /** For bounds that prom_histogram_new accepts, both hold exactly when the bounds ascend strictly. */
  lemma RightForStrictBounds(b: Buckets, number: real -> string)
    requires b.Keyed(number) && Printer(number) && TellsApart(number, b.bounds) && Ascending(b.bounds)
    ensures PlainKeys(b)
    ensures EveryScrapeOrdered(b) <==> StrictlyAscending(b.bounds)
    ensures EveryFreeStateCounts(b) <==> StrictlyAscending(b.bounds)
  {
    hide Ascending, StrictlyAscending, EveryScrapeOrdered, EveryFreeStateCounts;
    KeysHavePoint(b, number);
    KeysDistinct(b, number);
    ScrapeOrderedExactly(b);
    CountsExactly(b);
  }

  /** Two observations of 0.5 are printed as 4 in both buckets and as 2 in +Inf. */
  lemma EqualBoundsFail() returns (states: seq<State>, events: seq<Event>)
    ensures PlainKeys(EQUAL_BOUNDS) && Run(EQUAL_BOUNDS, states, events) && Started(events) == [0.5, 0.5]
    ensures |states| == |events| + 1 && |states[|events|].printed| == 5
    ensures states[|events|].printed[..3] == [4, 4, 2]
  {
    hide BucketValue, Started, Run;
    EqualBoundsDouble();
    states, events := SharedKeyDisorders(EQUAL_BOUNDS, 0, 1, 0.5);
    RunSize(EQUAL_BOUNDS, states, events);
  }

  // ----- When +Inf is printed below a bucket -----

  lemma {:induction false} CountLeAll(values: seq<real>, bound: real)
    ensures CountLe(values, bound) <= |values|
    ensures CountLe(values, bound) == |values| <==> forall k :: 0 <= k < |values| ==> values[k] <= bound
  {
    if values != [] {
      CountLeAll(values[..|values| - 1], bound);
    }
  }

  /** The last bucket is as full as +Inf was, exactly if no finished observation was above its bound. */
  lemma TopIsFull(b: Buckets, s: State, values: seq<real>)
    requires PlainKeys(b) && UnsharedKeys(b) && Ascending(b.bounds) && |b.bounds| > 0 && History(b, s, values)
    ensures var n, finished := |b.bounds|, Finished(s, values);
            Counts(b, s.before)[n - 1] == Counts(b, s.before)[n]
            <==> forall k :: 0 <= k < |finished| ==> finished[k] <= b.bounds[n - 1]
  {
    hide Ascending, Due, BucketValue, CountLe;
    var n, finished := |b.bounds|, Finished(s, values);
    DueIsBucketValue(b, finished, b.keys[n - 1]);
    DueIsBucketValue(b, finished, "+Inf");
    OnlyBucketCounts(b, n - 1, finished);
    CountLeAll(finished, b.bounds[n - 1]);
  }

  /** The running observation of state i has not raised +Inf by state j. */
  ghost predicate StillBelowInf(b: Buckets, states: seq<State>, events: seq<Event>, i: nat, j: nat)
    requires i <= j < |states| && j <= |events|
  {
    states[i].locked && Unlock !in events[i..j] && states[j].done <= Reach(b.bounds, states[i].value)
  }

  lemma {:induction false} SameObservation(b: Buckets, states: seq<State>, events: seq<Event>, i: nat, j: nat)
    requires PlainKeys(b) && Run(b, states, events) && i <= j < |states| && j <= |events|
    requires states[i].locked && Unlock !in events[i..j]
    ensures states[j].locked && states[j].value == states[i].value && states[j].before == states[i].before
    decreases j
  {
    hide PlainKeys, Plan, LineKeys;
    if i < j {
      assert forall k :: i <= k < j ==> events[k] == events[i..j][k - i];
      assert events[i..j - 1] == events[i..j][..j - 1 - i];
      SameObservation(b, states, events, i, j - 1);
      assert Moves(b, states[j - 1], events[j - 1], states[j]);
      assert events[j - 1] in events[i..j];
    }
  }

  /** +Inf as the scrape finds it at j is what it was before the observation of i, exactly if that
      observation is still running and has not raised it. */
  lemma InfUnraised(b: Buckets, states: seq<State>, events: seq<Event>, i: nat, j: nat)
    requires PlainKeys(b) && UnsharedKeys(b) && Run(b, states, events) && i <= j < |states| && j <= |events|
    requires states[i].locked && states[i].done <= Reach(b.bounds, states[i].value)
    ensures Counts(b, states[j].cells)[|b.bounds|] == Counts(b, states[i].before)[|b.bounds|]
            <==> StillBelowInf(b, states, events, i, j)
  {
    var n, h := |b.bounds|, Reach(b.bounds, states[i].value);
    if Unlock in events[i..j] {
      var m := UnlockRaisesInf(b, states, events, i, j);
      hide Run, Reach, Inv, PlainKeys;
      CountsGrow(b, states, events, m, j);
    } else {
      hide Run, Reach, Plan, PlainKeys, Counts;
      SameObservation(b, states, events, i, j);
      EveryRunInv(b, states, events, j);
      assert Raised(n, h, states[j].done, n) <==> h < states[j].done;
    }
  }

  /** Where the observation ends, +Inf is one more than before it. */
  lemma UnlockRaisesInf(b: Buckets, states: seq<State>, events: seq<Event>, i: nat, j: nat) returns (m: nat)
    requires PlainKeys(b) && UnsharedKeys(b) && Run(b, states, events) && i <= j < |states| && j <= |events|
    requires states[i].locked && Unlock in events[i..j]
    ensures i <= m <= j
    ensures Counts(b, states[m].cells)[|b.bounds|] == Counts(b, states[i].before)[|b.bounds|] + 1
  {
    hide PlainKeys, Counts, Plan, Started;
    m := FirstUnlock(events, i, j);
    SameObservation(b, states, events, i, m);
    EveryRunInv(b, states, events, m);
    assert Moves(b, states[m], Unlock, states[m + 1]);
    assert Raised(|b.bounds|, Reach(b.bounds, states[m].value), states[m].done, |b.bounds|);
  }

  lemma FirstUnlock(events: seq<Event>, i: nat, j: nat) returns (m: nat)
    requires i <= j <= |events| && Unlock in events[i..j]
    ensures i <= m < j && events[m] == Unlock && Unlock !in events[i..m]
  {
    m := i;
    while events[m] != Unlock
      invariant i <= m < j && Unlock !in events[i..m] && Unlock in events[m..j]
      decreases j - m
    {
      assert events[m..j] == [events[m]] + events[m + 1..j];
      m := m + 1;
    }
  }

  /** Reads of the last bucket at i and of +Inf at j find +Inf lower exactly if an observation that
      has raised the bucket at i has not raised +Inf at j, and no finished one was above the bucket. */
  ghost predicate SplitByScrape(b: Buckets, states: seq<State>, events: seq<Event>, i: nat, j: nat)
    requires i <= j < |states| && j <= |events| && |b.bounds| > 0
  {
    && states[i].locked && 0 < states[i].done
    && StillBelowInf(b, states, events, i, j)
    && var finished := Finished(states[i], Started(events[..i]));
       forall k :: 0 <= k < |finished| ==> finished[k] <= b.bounds[|b.bounds| - 1]
  }

  lemma LagExactly(b: Buckets, states: seq<State>, events: seq<Event>, i: nat, j: nat)
    requires PlainKeys(b) && UnsharedKeys(b) && Ascending(b.bounds) && |b.bounds| > 0
    requires Run(b, states, events) && i <= j < |states| && j <= |events|
    ensures Cell(states[j].cells, "+Inf") < Cell(states[i].cells, b.keys[|b.bounds| - 1])
            <==> SplitByScrape(b, states, events, i, j)
  {
    hide Run, Ascending, Plan, Counts, Inv, History, StillBelowInf;
    RunSize(b, states, events);
    EveryRunInv(b, states, events, i);
    HistoryAt(b, states, events, i);
    TopIsFull(b, states[i], Started(events[..i]));
    CountsGrow(b, states, events, i, j);
    TopCell(b, states[i]);
    if states[i].locked {
      if states[i].done <= Reach(b.bounds, states[i].value) {
        InfUnraised(b, states, events, i, j);
      } else {
        BeyondInf(b, states, events, i, j);
      }
    }
  }

  /** The last bucket and +Inf during an observation. */
  lemma TopCell(b: Buckets, s: State)
    requires PlainKeys(b) && Inv(b, s) && |b.bounds| > 0
    ensures var n, h := |b.bounds|, Reach(b.bounds, s.value);
            var before, top, inf := Counts(b, s.before), Cell(s.cells, b.keys[n - 1]), Cell(s.cells, "+Inf");
            && before[n - 1] <= before[n]
            && (!s.locked ==> top <= inf)
            && (s.locked && s.done == 0 ==> top == before[n - 1] && inf == before[n])
            && (s.locked && 0 < s.done <= h ==> top == before[n - 1] + 1 && inf == before[n])
            && (s.locked && s.done > h ==> top <= inf)
  {
    hide Plan, Reach;
    var n, h := |b.bounds|, Reach(b.bounds, s.value);
    assert Counts(b, s.cells)[n - 1] == Cell(s.cells, b.keys[n - 1]) && Counts(b, s.cells)[n] == Cell(s.cells, "+Inf");
  }

  /** Once raised by an observation, +Inf does not go back. */
  lemma BeyondInf(b: Buckets, states: seq<State>, events: seq<Event>, i: nat, j: nat)
    requires PlainKeys(b) && UnsharedKeys(b) && Run(b, states, events) && i <= j < |states| && j <= |events|
    requires states[i].locked && states[i].done > Reach(b.bounds, states[i].value)
    ensures !StillBelowInf(b, states, events, i, j)
  {
    hide Run, Reach, Plan, PlainKeys, Counts;
    if Unlock !in events[i..j] {
      var n := |b.bounds|;
      SameObservation(b, states, events, i, j);
      EveryRunInv(b, states, events, i);
      EveryRunInv(b, states, events, j);
      CountsGrow(b, states, events, i, j);
      assert Raised(n, Reach(b.bounds, states[i].value), states[i].done, n);
      assert Counts(b, states[i].cells)[n] <= Counts(b, states[j].cells)[n];
    }
  }

  /** Where line k of the scrape printed so far was read. */
  lemma {:induction false} ReadOf(b: Buckets, states: seq<State>, events: seq<Event>, e: nat, k: nat) returns (i: nat)
    requires PlainKeys(b) && Run(b, states, events) && e < |states| && k < |states[e].printed| <= |LineKeys(b)|
    ensures i < e <= |events| && events[i] == Read && Restart !in events[i..e]
    ensures states[i].printed == states[e].printed[..k]
    ensures states[e].printed[k] == Cell(states[i].cells, LineKeys(b)[k])
  {
    hide PlainKeys, Plan, LineKeys;
    assert e > 0;
    i := e - 1;
    assert Moves(b, states[i], events[i], states[e]);
    if |states[i].printed| > k {
      i := ReadOf(b, states, events, e - 1, k);
      assert events[i..e] == events[i..e - 1] + [events[e - 1]];
    }
  }

  /** Over one scrape, the promise that +Inf is at least every bucket is kept exactly if no observation
      was in flight between the reads of the last bucket and of +Inf. */
  lemma PrintedLagExactly(b: Buckets, states: seq<State>, events: seq<Event>, e: nat) returns (i: nat, j: nat)
    requires PlainKeys(b) && UnsharedKeys(b) && Ascending(b.bounds) && |b.bounds| > 0
    requires Run(b, states, events) && e < |states| && |b.bounds| < |states[e].printed|
    ensures i < j < e <= |events| && events[i] == events[j] == Read && Restart !in events[i..e]
    ensures |states[i].printed| == |b.bounds| - 1 && |states[j].printed| == |b.bounds|
    ensures var p, n := states[e].printed, |b.bounds|;
            (forall k :: 0 <= k < n ==> p[k] <= p[n]) <==> !SplitByScrape(b, states, events, i, j)
    ensures var p, n := states[e].printed, |b.bounds|;
            !states[i].locked ==> forall k :: 0 <= k < n ==> p[k] <= p[n]
  {
    hide Run, Ascending, Counts, Plan;
    RunSize(b, states, events);
    var n := |b.bounds|;
    EveryRunInv(b, states, events, e);
    j := ReadOf(b, states, events, e, n);
    i := ReadOf(b, states, events, j, n - 1);
    assert events[i..e] == events[i..j] + events[j..e];
    LagExactly(b, states, events, i, j);
    assert states[e].printed[n - 1] == states[j].printed[n - 1];
  }

  lemma RaisedFirst(bounds: seq<real>)
    requires |bounds| > 0
    ensures var v := bounds[|bounds| - 1]; Plan(bounds, v) != [] && Plan(bounds, v)[0] == |bounds| - 1
  {
    assert Descend(bounds, bounds[|bounds| - 1], |bounds|) != [];
  }

  /** The lag is real for every histogram with a bucket: a scrape while the first observation is
      running prints 1 in the last bucket and 0 in +Inf. */
  lemma LagHappens(b: Buckets) returns (states: seq<State>, events: seq<Event>)
    requires PlainKeys(b) && UnsharedKeys(b) && |b.bounds| > 0
    ensures Run(b, states, events) && |states| == |events| + 1
    ensures var p, n := states[|events|].printed, |b.bounds|;
            |p| == |LineKeys(b)| && p[n - 1] == 1 && p[n] == 0
  {
    hide Run, Plan, UnsharedKeys;
    var v := b.bounds[|b.bounds| - 1];
    RaisedFirst(b.bounds);
    states, events := NewRun(b);
    states, events := Extend(b, states, events, Lock(v));
    RunSize(b, states, events);
    states, events := Extend(b, states, events, Raise);
    RunSize(b, states, events);
    states, events := ExtendByScrape(b, states, events);
    RunSize(b, states, events);
  }

  // ----- When +Inf and count are printed differently -----

  /** How often count was raised from state i to state j. */
  function CountRaises(b: Buckets, states: seq<State>, events: seq<Event>, i: nat, j: nat): nat
    requires PlainKeys(b) && Run(b, states, events) && i <= j < |states|
    decreases j
  {
    if i == j then 0
    else
      assert Moves(b, states[j - 1], events[j - 1], states[j]);
      CountRaises(b, states, events, i, j - 1) + if RaisesCount(b, states[j - 1], events[j - 1]) then 1 else 0
  }

  /** The event is a running observation's update of count, which follows that of +Inf. */
  predicate RaisesCount(b: Buckets, s: State, e: Event) {
    e.Raise? && s.done == Reach(b.bounds, s.value) + 1
  }

  /** A running observation has raised +Inf and not yet count. */
  predicate AfterInf(b: Buckets, s: State) {
    s.locked && s.done == Reach(b.bounds, s.value) + 1
  }

  lemma {:induction false} CountGrowsBy(b: Buckets, states: seq<State>, events: seq<Event>, i: nat, j: nat)
    requires PlainKeys(b) && Run(b, states, events) && i <= j < |states|
    ensures Cell(states[j].cells, "count") == Cell(states[i].cells, "count") + CountRaises(b, states, events, i, j)
    decreases j
  {
    hide PlainKeys, Plan, Reach, LineKeys;
    if i < j {
      CountGrowsBy(b, states, events, i, j - 1);
      assert Moves(b, states[j - 1], events[j - 1], states[j]);
      CountStep(b, states[j - 1], events[j - 1], states[j]);
    }
  }

  lemma CountStep(b: Buckets, s: State, e: Event, s': State)
    requires PlainKeys(b) && Moves(b, s, e, s')
    ensures Cell(s'.cells, "count") == Cell(s.cells, "count") + if RaisesCount(b, s, e) then 1 else 0
  {
    if e.Raise? {
      PlanAt(b.bounds, s.value, s.done);
      hide Plan, Reach;
      OwnLineKeys(b);
      assert "count" == LineKeys(b)[|b.bounds| + 1];
    }
  }

  /** In one scrape, count is +Inf and what count gained between the two reads, less the observation
      that was between raising the two when +Inf was read. So the promise that they are equal is kept
      exactly if count was raised once in between for such an observation, and else never. */
  lemma PrintedCountExactly(b: Buckets, states: seq<State>, events: seq<Event>, e: nat) returns (i: nat, j: nat)
    requires PlainKeys(b) && UnsharedKeys(b) && Run(b, states, events)
    requires e < |states| && |b.bounds| + 1 < |states[e].printed|
    ensures i < j < e <= |events| && events[i] == events[j] == Read && Restart !in events[i..e]
    ensures |states[i].printed| == |b.bounds| && |states[j].printed| == |b.bounds| + 1
    ensures var p, n := states[e].printed, |b.bounds|;
            p[n + 1] == p[n] + CountRaises(b, states, events, i, j) - if AfterInf(b, states[i]) then 1 else 0
    ensures var p, n := states[e].printed, |b.bounds|;
            p[n] == p[n + 1] <==> CountRaises(b, states, events, i, j) == if AfterInf(b, states[i]) then 1 else 0
  {
    hide Run, Counts, Plan, Reach, CountRaises;
    RunSize(b, states, events);
    var n := |b.bounds|;
    EveryRunInv(b, states, events, e);
    j := ReadOf(b, states, events, e, n + 1);
    EveryRunInv(b, states, events, j);
    i := ReadOf(b, states, events, j, n);
    assert events[i..e] == events[i..j] + events[j..e];
    EveryRunInv(b, states, events, i);
    InfAndCount(b, states[i]);
    CountGrowsBy(b, states, events, i, j);
    assert states[e].printed[n] == states[j].printed[n];
  }

  /** +Inf and count at one moment. */
  lemma InfAndCount(b: Buckets, s: State)
    requires PlainKeys(b) && Inv(b, s)
    ensures Cell(s.cells, "+Inf") == Cell(s.cells, "count") + if AfterInf(b, s) then 1 else 0
  {
    hide Plan, Reach;
    var n := |b.bounds|;
    assert Counts(b, s.cells)[n] == Cell(s.cells, "+Inf") && Counts(b, s.cells)[n + 1] == Cell(s.cells, "count");
  }

  /** Count can be printed ahead of +Inf by any number of observations, made between the two reads. */
  lemma CountAhead(b: Buckets, values: seq<real>) returns (states: seq<State>, events: seq<Event>)
    requires PlainKeys(b) && Ascending(b.bounds)
    ensures Run(b, states, events) && |states| == |events| + 1
    ensures var p, n := states[|events|].printed, |b.bounds|;
            |p| == |LineKeys(b)| && p[n] == 0 && p[n + 1] == |values|
  {
    hide Run, Plan, Ascending, Counts, Started, PlainKeys;
    SizesOf(b);
    var n := |b.bounds|;
    states, events := NewRun(b);
    states, events := ExtendByReads(b, states, events, n + 1);
    RunSize(b, states, events);
    states, events := ExtendByObservations(b, states, events, values);
    RunSize(b, states, events);
    assert events[..|events|] == events && [] + values == values;
    FreeStateCells(b, states, events, |events|);
    states, events := ExtendByReads(b, states, events, |LineKeys(b)|);
    RunSize(b, states, events);
  }

  lemma RaisedFirstAbove(bounds: seq<real>) returns (v: real)
    ensures Reach(bounds, v) == 0 && Plan(bounds, v) != [] && Plan(bounds, v)[0] == |bounds|
  {
    v := if bounds == [] then 0.0 else bounds[|bounds| - 1] + 1.0;
    assert Descend(bounds, v, |bounds|) == [];
  }

  /** And it can be printed one behind: a scrape between the raises of +Inf and of count. */
  lemma CountBehind(b: Buckets) returns (states: seq<State>, events: seq<Event>)
    requires PlainKeys(b)
    ensures Run(b, states, events) && |states| == |events| + 1
    ensures var p, n := states[|events|].printed, |b.bounds|;
            |p| == |LineKeys(b)| && p[n] == 1 && p[n + 1] == 0
  {
    hide Run, Plan, Reach;
    OwnLineKeys(b);
    var v := RaisedFirstAbove(b.bounds);
    states, events := NewRun(b);
    states, events := Extend(b, states, events, Lock(v));
    RunSize(b, states, events);
    states, events := Extend(b, states, events, Raise);
    RunSize(b, states, events);
    states, events := ExtendByScrape(b, states, events);
    RunSize(b, states, events);
  }

  // ----- One scrape after another -----

  /** Within one scrape the printed lines only become more. */
  lemma {:induction false} PrintingGoesOn(b: Buckets, states: seq<State>, events: seq<Event>, i: nat, j: nat)
    requires PlainKeys(b) && Run(b, states, events) && i <= j < |states| && Restart !in events[i..j]
    ensures |states[i].printed| <= |states[j].printed|
    decreases j
  {
    hide PlainKeys, Plan, LineKeys;
    if i < j {
      assert events[i..j] == events[i..j - 1] + [events[j - 1]];
      PrintingGoesOn(b, states, events, i, j - 1);
      assert Moves(b, states[j - 1], events[j - 1], states[j]);
    }
  }

  /** No scrape prints a line lower than an earlier scrape of the same run did, whatever the keys. */
  lemma LaterScrapesNotLower(b: Buckets, states: seq<State>, events: seq<Event>, e: nat, f: nat, k: nat)
    requires PlainKeys(b) && Run(b, states, events) && e <= f < |states|
    requires k < |states[e].printed| && k < |states[f].printed|
    ensures states[e].printed[k] <= states[f].printed[k]
  {
    hide Run, PlainKeys, Plan, LineKeys;
    RunSize(b, states, events);
    PrintedSize(b, states, events, e);
    PrintedSize(b, states, events, f);
    var i := ReadOf(b, states, events, e, k);
    var j := ReadOf(b, states, events, f, k);
    assert i <= j by {
      if j < i {
        assert forall x :: x in events[j..i] ==> x in events[j..f];
        NotReadAgain(b, states, events, j, i);
      }
    }
    CountsGrow(b, states, events, i, j);
  }

  /** Once a scrape has read a line, it stands behind it. */
  lemma NotReadAgain(b: Buckets, states: seq<State>, events: seq<Event>, j: nat, i: nat)
    requires PlainKeys(b) && Run(b, states, events) && j < i < |states| && i <= |events|
    requires events[j] == Read && Restart !in events[j..i]
    ensures |states[j].printed| < |states[i].printed|
  {
    hide Run, PlainKeys, Plan, LineKeys;
    StepOfRun(b, states, events, j);
    assert events[j + 1..i] == events[j..i][1..];
    PrintingGoesOn(b, states, events, j + 1, i);
  }

  lemma StepOfRun(b: Buckets, states: seq<State>, events: seq<Event>, j: nat)
    requires PlainKeys(b) && Run(b, states, events) && j < |events|
    ensures |states| == |events| + 1 && Moves(b, states[j], events[j], states[j + 1])
  {
  }

  lemma {:induction false} PrintedSize(b: Buckets, states: seq<State>, events: seq<Event>, i: nat)
    requires PlainKeys(b) && Run(b, states, events) && i < |states|
    ensures |states[i].printed| <= |LineKeys(b)|
  {
    hide PlainKeys, Plan, LineKeys;
    if i > 0 {
      PrintedSize(b, states, events, i - 1);
      assert Moves(b, states[i - 1], events[i - 1], states[i]);
    }
  }
}
