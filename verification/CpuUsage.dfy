/** get_cpu_usage of src/metrics.c (lines 51 to 118): CPU usage from successive counter readings. */
module CpuUsage {
  import opened Prelude

  /** The eight counters of the `cpu` line of /proc/stat. */
  datatype Reading = Reading(user: nat, nice: nat, system: nat, idle: nat, iowait: nat,
                             irq: nat, softirq: nat, steal: nat)

  const ZERO: Reading := Reading(0, 0, 0, 0, 0, 0, 0, 0)

  function Idle(r: Reading): nat {
    r.idle + r.iowait
  }

  function NonIdle(r: Reading): nat {
    r.user + r.nice + r.system + r.irq + r.softirq + r.steal
  }

  function Total(r: Reading): nat {
    Idle(r) + NonIdle(r)
  }

  /** The differences as 64-bit unsigned arithmetic sees them. */
  function TotalDelta(prev: Reading, r: Reading): nat {
    U64(Total(r) - Total(prev))
  }

  function IdleDelta(prev: Reading, r: Reading): nat {
    U64(Idle(r) - Idle(prev))
  }

  /** The percentage, or -1.0 for a failed reading or one without progress. */
  function Usage(prev: Reading, reading: Option<Reading>): real {
    if Succeeds(prev, reading)
    then U64(TotalDelta(prev, reading.value) - IdleDelta(prev, reading.value)) as real
         / TotalDelta(prev, reading.value) as real * 100.0
    else -1.0
  }

  predicate Succeeds(prev: Reading, reading: Option<Reading>) {
    reading.Some? && TotalDelta(prev, reading.value) != 0
  }

  class CpuMonitor {
    var prev: Reading    // the static variables prev_user to prev_steal

    constructor ()
      ensures prev == Reading(0, 0, 0, 0, 0, 0, 0, 0)
    {
      prev := ZERO;
    }

    /** `None` stands for a file that cannot be opened, read or parsed. */
    method GetCpuUsage(reading: Option<Reading>) returns (usage: real)
      modifies this
      ensures usage == Usage(old(prev), reading)
      ensures prev == if Succeeds(old(prev), reading) then reading.value else old(prev)
    {
      hide U64, Idle, Total, Usage, Succeeds;
      UsageByParts(prev, reading);
      if reading.None? {
        return -1.0;
      }
      var r := reading.value;
      var prevIdleTotal, prevTotal := Sums(prev);
      var idleTotal, total := Sums(r);
      WrapDifference(Total(r), Total(prev));
      WrapDifference(Idle(r), Idle(prev));
      var totald: int := U64(total - prevTotal);
      var idled: int := U64(idleTotal - prevIdleTotal);
      if totald == 0 {
        return -1.0;
      }
      usage := U64(totald - idled) as real / totald as real * 100.0;
      prev := r;
    }
  }

  lemma UsageByParts(prev: Reading, reading: Option<Reading>)
    ensures reading.None? ==> !Succeeds(prev, reading) && Usage(prev, reading) == -1.0
    ensures reading.Some? ==>
              var t: int, i: int := TotalDelta(prev, reading.value), IdleDelta(prev, reading.value);
              && (Succeeds(prev, reading) <==> t != 0)
              && Usage(prev, reading) == if t == 0 then -1.0 else U64(t - i) as real / t as real * 100.0
  {
    hide U64, TotalDelta, IdleDelta;
  }

  /** The idle total and the overall total of one reading, added up with wrap-around. */
  method Sums(r: Reading) returns (idleTotal: int, total: int)
    ensures idleTotal == U64(Idle(r)) && total == U64(Total(r))
  {
    hide U64;
    idleTotal := U64(r.idle + r.iowait);
    var nonIdle := U64(U64(U64(U64(U64(r.user + r.nice) + r.system) + r.irq) + r.softirq) + r.steal);
    total := U64(idleTotal + nonIdle);
    SumsWrap(r);
  }

  lemma WrapSum(x: int, y: int)
    ensures U64(U64(x) + y) == U64(x + y)
  {
  }

  lemma WrapDifference(x: int, y: int)
    ensures U64(U64(x) - U64(y)) == U64(x - y)
  {
  }

  /** Adding with wrap-around at every step gives the sum modulo 2^64. */
  lemma SumsWrap(r: Reading)
    ensures U64(U64(U64(U64(U64(r.user + r.nice) + r.system) + r.irq) + r.softirq) + r.steal) == U64(NonIdle(r))
    ensures U64(U64(Idle(r)) + U64(NonIdle(r))) == U64(Total(r))
  {
    hide U64;
    WrapSum(r.user + r.nice, r.system);
    WrapSum(r.user + r.nice + r.system, r.irq);
    WrapSum(r.user + r.nice + r.system + r.irq, r.softirq);
    WrapSum(r.user + r.nice + r.system + r.irq + r.softirq, r.steal);
    WrapSum(Idle(r), U64(NonIdle(r)));
    WrapSum(NonIdle(r), Idle(r));
  }

  /** The differences counter by counter. */
  lemma DeltasByCounter(prev: Reading, r: Reading)
    ensures TotalDelta(prev, r)
            == ((r.user + r.nice + r.system + r.idle + r.iowait + r.irq + r.softirq + r.steal)
                - (prev.user + prev.nice + prev.system + prev.idle + prev.iowait + prev.irq + prev.softirq
                   + prev.steal))
               % 0x1_0000_0000_0000_0000
    ensures IdleDelta(prev, r) == ((r.idle + r.iowait) - (prev.idle + prev.iowait)) % 0x1_0000_0000_0000_0000
  {
    assert Total(r) == r.user + r.nice + r.system + r.idle + r.iowait + r.irq + r.softirq + r.steal;
    assert Total(prev)
           == prev.user + prev.nice + prev.system + prev.idle + prev.iowait + prev.irq + prev.softirq + prev.steal;
  }

  /** A successful result is a percentage exactly when the idle time grew by no more than all time,
      both as 64-bit differences. */
  lemma PercentageExactly(prev: Reading, r: Reading)
    requires Succeeds(prev, Some(r))
    ensures Usage(prev, Some(r)) >= 0.0
    ensures var total := ((r.user + r.nice + r.system + r.idle + r.iowait + r.irq + r.softirq + r.steal)
                          - (prev.user + prev.nice + prev.system + prev.idle + prev.iowait + prev.irq + prev.softirq
                             + prev.steal)) % 0x1_0000_0000_0000_0000;
            var idle := ((r.idle + r.iowait) - (prev.idle + prev.iowait)) % 0x1_0000_0000_0000_0000;
            && total != 0
            && Usage(prev, Some(r)) * total as real == 100.0 * ((total - idle) % 0x1_0000_0000_0000_0000) as real
            && (Usage(prev, Some(r)) <= 100.0 <==> idle <= total)
  {
    hide TotalDelta, IdleDelta, Usage, Succeeds;
    DeltasByCounter(prev, r);
    UsageByParts(prev, Some(r));
    var t: int, i: int := TotalDelta(prev, r), IdleDelta(prev, r);
    DifferenceWraps(t, i);
    Ratio(U64(t - i), t);
  }

  lemma DifferenceWraps(t: nat, i: nat)
    requires t < TWO_TO_THE_64 && i < TWO_TO_THE_64
    ensures U64(t - i) == (t - i) % 0x1_0000_0000_0000_0000
    ensures U64(t - i) <= t <==> i <= t
  {
  }

  /** On readings that do not run backwards, a result times the growth of all counters is 100 times
      the growth of the six that are not idle time. */
  lemma BusyShare(prev: Reading, r: Reading)
    requires Forward(prev, r)
    ensures var all := (r.user - prev.user) + (r.nice - prev.nice) + (r.system - prev.system) + (r.idle - prev.idle)
                       + (r.iowait - prev.iowait) + (r.irq - prev.irq) + (r.softirq - prev.softirq)
                       + (r.steal - prev.steal);
            var busy := (r.user - prev.user) + (r.nice - prev.nice) + (r.system - prev.system) + (r.irq - prev.irq)
                        + (r.softirq - prev.softirq) + (r.steal - prev.steal);
            && (Succeeds(prev, Some(r)) <==> all > 0)
            && (all > 0 ==> Usage(prev, Some(r)) * all as real == 100.0 * busy as real)
            && (all > 0 && 2 * busy == all ==> Usage(prev, Some(r)) == 50.0)
            && (all == 0 ==> Usage(prev, Some(r)) == -1.0)
  {
    hide TotalDelta, IdleDelta, Usage, Succeeds, U64, Forward;
    ForwardDeltas(prev, r);
    ShareOf(prev, r, TotalDelta(prev, r), TotalDelta(prev, r) - IdleDelta(prev, r));
  }

  lemma ShareOf(prev: Reading, r: Reading, all: nat, busy: nat)
    requires all == TotalDelta(prev, r) && busy == U64(TotalDelta(prev, r) - IdleDelta(prev, r))
    ensures Succeeds(prev, Some(r)) <==> all > 0
    ensures all > 0 ==> Usage(prev, Some(r)) >= 0.0 && Usage(prev, Some(r)) * all as real == 100.0 * busy as real
    ensures all > 0 && 2 * busy == all ==> Usage(prev, Some(r)) == 50.0
    ensures all == 0 ==> Usage(prev, Some(r)) == -1.0
  {
    hide TotalDelta, IdleDelta, Usage, Succeeds, U64;
    UsageByParts(prev, Some(r));
    if all != 0 {
      Ratio(busy, all);
      HalfBusy(busy, all);
    }
  }

  lemma HalfBusy(x: nat, y: nat)
    requires y > 0
    ensures 2 * x == y ==> x as real / y as real * 100.0 == 50.0
  {
    if 2 * x == y {
      assert y as real == 2.0 * x as real;
      assert x as real / (2.0 * x as real) == 0.5;
    }
  }

  lemma ForwardDeltas(prev: Reading, r: Reading)
    requires Forward(prev, r)
    ensures TotalDelta(prev, r)
            == (r.user - prev.user) + (r.nice - prev.nice) + (r.system - prev.system) + (r.idle - prev.idle)
               + (r.iowait - prev.iowait) + (r.irq - prev.irq) + (r.softirq - prev.softirq) + (r.steal - prev.steal)
    ensures IdleDelta(prev, r) == (r.idle - prev.idle) + (r.iowait - prev.iowait)
    ensures U64(TotalDelta(prev, r) - IdleDelta(prev, r)) == TotalDelta(prev, r) - IdleDelta(prev, r)
  {
  }

  /** More idle time alone lowers the result, unless nothing was busy. */
  lemma IdleLowers(prev: Reading, r: Reading, more: nat)
    requires var r' := r.(idle := r.idle + more); Forward(prev, r) && Forward(prev, r') && more > 0
    requires Succeeds(prev, Some(r))
    ensures var r' := r.(idle := r.idle + more);
            && Succeeds(prev, Some(r'))
            && Usage(prev, Some(r')) <= Usage(prev, Some(r))
            && (Usage(prev, Some(r)) > 0.0 ==> Usage(prev, Some(r')) < Usage(prev, Some(r)))
  {
    hide TotalDelta, IdleDelta, Usage, Succeeds, U64;
    var r' := r.(idle := r.idle + more);
    IdleDiffers(prev, r, more);
    TotalPositive(prev, r);
    ShareFalls(prev, r, r', TotalDelta(prev, r), more, U64(TotalDelta(prev, r) - IdleDelta(prev, r)));
  }

  lemma TotalPositive(prev: Reading, r: Reading)
    requires Succeeds(prev, Some(r))
    ensures TotalDelta(prev, r) > 0
  {
    hide TotalDelta;
  }

  lemma ShareFalls(prev: Reading, r: Reading, r': Reading, all: nat, more: nat, busy: nat)
    requires all > 0 && more > 0 && all == TotalDelta(prev, r) && all + more == TotalDelta(prev, r')
    requires busy == U64(TotalDelta(prev, r) - IdleDelta(prev, r)) == U64(TotalDelta(prev, r') - IdleDelta(prev, r'))
    ensures Succeeds(prev, Some(r')) && Usage(prev, Some(r')) <= Usage(prev, Some(r))
    ensures Usage(prev, Some(r)) > 0.0 ==> Usage(prev, Some(r')) < Usage(prev, Some(r))
  {
    hide *;
    ShareOf(prev, r, all, busy);
    ShareOf(prev, r', all + more, busy);
    assert (all + more) as real == all as real + more as real;
    Dilute(Usage(prev, Some(r)), Usage(prev, Some(r')), all as real, more as real);
  }

  lemma IdleDiffers(prev: Reading, r: Reading, more: nat)
    requires var r' := r.(idle := r.idle + more); Forward(prev, r) && Forward(prev, r')
    ensures var r' := r.(idle := r.idle + more);
            && TotalDelta(prev, r') == TotalDelta(prev, r) + more
            && U64(TotalDelta(prev, r') - IdleDelta(prev, r')) == U64(TotalDelta(prev, r) - IdleDelta(prev, r))
  {
    ForwardDeltas(prev, r);
    ForwardDeltas(prev, r.(idle := r.idle + more));
  }

  /** The same product over a longer time is a smaller share. */
  lemma Dilute(u: real, w: real, t: real, more: real)
    requires u >= 0.0 && t > 0.0 && more > 0.0 && u * t == w * (t + more)
    ensures w <= u && (u > 0.0 ==> w < u)
  {
    if w > u {
      RatioGrows(w, u, t + more);
      assert u * (t + more) == u * t + u * more;
      RatioGrows(u, 0.0, more);
    } else if w == u && u > 0.0 {
      assert u * (t + more) == u * t + u * more;
      RatioGrows(u, 0.0, more);
    }
  }

  lemma Ratio(x: nat, y: nat)
    requires y > 0
    ensures 0.0 <= x as real / y as real * 100.0
    ensures x as real / y as real * 100.0 <= 100.0 <==> x <= y
    ensures x as real / y as real * 100.0 * y as real == 100.0 * x as real
  {
    var q := x as real / y as real;
    assert q * y as real == x as real;
    assert q * 100.0 * y as real == 100.0 * (q * y as real);
    if x <= y {
      assert q <= 1.0 by {
        if q > 1.0 {
          RatioGrows(q, 1.0, y as real);
        }
      }
    } else {
      assert q > 1.0 by {
        if q <= 1.0 {
          RatioGrows(1.0, q, y as real);
        }
      }
    }
    assert q >= 0.0 by {
      if q < 0.0 {
        RatioGrows(0.0, q, y as real);
      }
    }
  }

  lemma RatioGrows(a: real, b: real, y: real)
    requires a >= b && y > 0.0
    ensures a * y >= b * y && (a > b ==> a * y > b * y)
  {
    assert (a - b) * y == a * y - b * y;
  }

  /** A counter that runs backwards, as iowait may, can give more than 100 percent. */
  lemma BackwardsCounter()
    ensures var prev, r := ZERO.(iowait := 10), ZERO.(iowait := 5, user := 10);
            Succeeds(prev, Some(r)) && Usage(prev, Some(r)) == 200.0
  {
  }

  /** No counter runs backwards, and the sum of all fits in 64 bits. */
  ghost predicate Forward(prev: Reading, r: Reading) {
    && prev.user <= r.user && prev.nice <= r.nice && prev.system <= r.system && prev.idle <= r.idle
    && prev.iowait <= r.iowait && prev.irq <= r.irq && prev.softirq <= r.softirq && prev.steal <= r.steal
    && Total(r) < TWO_TO_THE_64
  }

  /** What the monitor remembers after the readings. */
  function PrevAfter(readings: seq<Option<Reading>>): Reading {
    if readings == [] then ZERO
    else
      var prev, last := PrevAfter(readings[..|readings| - 1]), readings[|readings| - 1];
      if Succeeds(prev, last) then last.value else prev
  }

  /** A result weighted with the time that it covers. */
  function Weight(prev: Reading, r: Reading): real {
    Usage(prev, Some(r)) * TotalDelta(prev, r) as real
  }

  /** The busy time, in percent of a unit. */
  function Busy(r: Reading): real {
    100.0 * NonIdle(r) as real
  }

  /** The weights of the successful results. */
  function Weighted(readings: seq<Option<Reading>>): real {
    if readings == [] then 0.0
    else
      var front, last := readings[..|readings| - 1], readings[|readings| - 1];
      var prev := PrevAfter(front);
      Weighted(front) + if Succeeds(prev, last) then Weight(prev, last.value) else 0.0
  }

  /** Every reading that could be taken is not behind the one remembered before it. */
  ghost predicate AllForward(readings: seq<Option<Reading>>) {
    forall i :: 0 <= i < |readings| && readings[i].Some? ==> Forward(PrevAfter(readings[..i]), readings[i].value)
  }

  lemma {:induction false} WeightsTelescope(readings: seq<Option<Reading>>)
    requires AllForward(readings)
    ensures Weighted(readings) == Busy(PrevAfter(readings))
    ensures forall i :: 0 <= i < |readings| && Succeeds(PrevAfter(readings[..i]), readings[i]) ==>
              0.0 <= Usage(PrevAfter(readings[..i]), readings[i]) <= 100.0
  {
    hide Usage, Busy, Weight, Succeeds, Forward;
    ZeroBusy();
    if readings != [] {
      var n := |readings| - 1;
      var front, last := readings[..n], readings[n];
      FrontForward(readings);
      WeightsTelescope(front);
      var prev := PrevAfter(front);
      if Succeeds(prev, last) {
        SucceedsSome(prev, last);
        OneResult(prev, last.value);
      }
      forall i | 0 <= i < |readings| && Succeeds(PrevAfter(readings[..i]), readings[i])
        ensures 0.0 <= Usage(PrevAfter(readings[..i]), readings[i]) <= 100.0
      {
        if i < n {
          assert readings[..i] == front[..i] && readings[i] == front[i];
        }
      }
    }
  }

  /** With counters that only grow every result is a percentage, and the weighted results add up to
      100 times the busy time of the last successful reading, whatever failed in between. */
  lemma ResultsTelescope(readings: seq<Option<Reading>>)
    requires AllForward(readings)
    ensures var last := PrevAfter(readings);
            Weighted(readings)
            == 100.0 * (last.user + last.nice + last.system + last.irq + last.softirq + last.steal) as real
    ensures forall i :: 0 <= i < |readings| && Succeeds(PrevAfter(readings[..i]), readings[i]) ==>
              0.0 <= Usage(PrevAfter(readings[..i]), readings[i]) <= 100.0
  {
    hide Usage, Succeeds, Weighted, AllForward, PrevAfter;
    WeightsTelescope(readings);
  }

  lemma ZeroBusy()
    ensures Busy(ZERO) == 0.0
  {
  }

  lemma SucceedsSome(prev: Reading, reading: Option<Reading>)
    requires Succeeds(prev, reading)
    ensures reading.Some? && reading == Some(reading.value)
  {
  }

  lemma FrontForward(readings: seq<Option<Reading>>)
    requires AllForward(readings) && readings != []
    ensures AllForward(readings[..|readings| - 1])
  {
    var front := readings[..|readings| - 1];
    forall i | 0 <= i < |front| && front[i].Some? ensures Forward(PrevAfter(front[..i]), front[i].value) {
      assert front[..i] == readings[..i] && front[i] == readings[i];
    }
  }

  lemma OneResult(prev: Reading, r: Reading)
    requires Forward(prev, r) && Succeeds(prev, Some(r))
    ensures 0.0 <= Usage(prev, Some(r)) <= 100.0
    ensures Weight(prev, r) == Busy(r) - Busy(prev)
  {
    hide U64, Busy, Usage, Succeeds, TotalDelta, IdleDelta, NonIdle, Forward;
    UsageByParts(prev, Some(r));
    DeltasForward(prev, r);
    BusyGrows(prev, r);
    var t, busy := TotalDelta(prev, r), NonIdle(r) - NonIdle(prev);
    assert Usage(prev, Some(r)) == busy as real / t as real * 100.0;
    Ratio(busy, t);
  }

  lemma DeltasForward(prev: Reading, r: Reading)
    requires Forward(prev, r)
    ensures 0 <= NonIdle(r) - NonIdle(prev) <= TotalDelta(prev, r)
    ensures U64(TotalDelta(prev, r) - IdleDelta(prev, r)) == NonIdle(r) - NonIdle(prev)
  {
    hide U64;
    assert IdleDelta(prev, r) == Idle(r) - Idle(prev);
    assert TotalDelta(prev, r) - IdleDelta(prev, r) == NonIdle(r) - NonIdle(prev);
  }

  lemma BusyGrows(prev: Reading, r: Reading)
    requires NonIdle(r) >= NonIdle(prev)
    ensures 100.0 * (NonIdle(r) - NonIdle(prev)) as real == Busy(r) - Busy(prev)
  {
    hide NonIdle;
  }
}
