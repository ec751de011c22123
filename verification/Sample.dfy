/** One sample as a single caller sees it (lib/prom/src/prom_metric_sample.c). */
module Samples {
  import opened Formatters

  datatype Op = Add(delta: real) | Sub(delta: real) | Set(value: real)

  /** The guards at the head of pms_add, pms_sub and pms_set: which calls may change the value. */
  predicate Admitted(t: MetricType, op: Op) {
    match op
    case Add(d) => d >= 0.0
    case Sub(_) => t == Gauge
    case Set(v) => t == Gauge || (t == Counter && v >= 0.0)
  }

  /** The effect of a call that takes effect. */
  function Apply(cell: real, op: Op): real {
    match op
    case Add(d) => cell + d
    case Sub(d) => cell - d
    case Set(v) => v
  }

  class Sample {
    const metricType: MetricType
    const lValue: string
    var rValue: real

    constructor (metricType: MetricType, lValue: string, rValue: real)
      ensures this.metricType == metricType && this.lValue == lValue && this.rValue == rValue
    {
      this.metricType, this.lValue, this.rValue := metricType, lValue, rValue;
    }

    /** The retry loop. With no other writer the exchange can only fail spuriously, finitely often. */
    method Add(delta: real) returns (err: nat)
      modifies this
      ensures err == if delta >= 0.0 then 0 else 1
      ensures rValue == if delta >= 0.0 then old(rValue) + delta else old(rValue)
    {
      if delta < 0.0 {
        return 1;
      }
      err := ExchangeLoop(Op.Add(delta));
    }

    method Sub(delta: real) returns (err: nat)
      modifies this
      ensures err == if metricType == Gauge then 0 else 1
      ensures rValue == if metricType == Gauge then old(rValue) - delta else old(rValue)
    {
      if metricType != Gauge {
        return 1;
      }
      err := ExchangeLoop(Op.Sub(delta));
    }

    method ExchangeLoop(op: Op) returns (err: nat)
      modifies this
      ensures err == 0 && rValue == Apply(old(rValue), op)
    {
      var spuriousFailures: nat := *;
      var seen := rValue;
      while true
        invariant seen == rValue == old(rValue)
        decreases spuriousFailures
      {
        var desired := Apply(seen, op);
        if spuriousFailures == 0 {
          rValue := desired;
          return 0;
        }
        seen, spuriousFailures := rValue, spuriousFailures - 1;
      }
    }

    method Set(value: real) returns (err: nat)
      modifies this
      ensures err == if metricType == Gauge || (metricType == Counter && value >= 0.0) then 0 else 1
      ensures rValue == if err == 0 then value else old(rValue)
    {
      if metricType != Gauge && (metricType != Counter || value < 0.0) {
        return 1;
      }
      rValue := value;
      return 0;
    }
  }
}
