/**
  Many threads on one sample: the calls of lib/prom/src/prom_metric_sample.c, lines 61 to 100, as
  atomic steps. The compare-and-swap is weak: it may fail although the value is the expected one,
  and every failure reloads the expected value.
  */
module Interleaving {
  import opened Formatters
  import opened Samples

  /** A thread between calls; past the guard; or in the retry loop, holding the value it read
      last and (for the proofs) how many operations had committed at that read. */
  datatype Thread = Idle | Called(op: Op) | Looping(op: Op, seen: real, readAt: nat)

  datatype Commit = Commit(thread: nat, op: Op)

  datatype State = State(metricType: MetricType, cell: real, threads: seq<Thread>,
                         invoked: seq<Commit>, commits: seq<Commit>)

  datatype Event =
    | Invoke(op: Op)     // the call passes its guard
    | Reject(op: Op)     // the guard refuses and the call returns
    | Load               // atomic_load before the loop
    | CasSuccess
    | CasFailure         // the value differs from the one expected
    | CasSpurious        // weak failure although the value is the one expected
    | Store              // atomic_store

  predicate Enabled(s: State, t: nat, e: Event) {
    t < |s.threads| &&
    match e
    case Invoke(op) => s.threads[t].Idle? && Admitted(s.metricType, op)
    case Reject(op) => s.threads[t].Idle? && !Admitted(s.metricType, op)
    case Load => s.threads[t].Called? && !s.threads[t].op.Set?
    case CasSuccess => s.threads[t].Looping? && s.cell == s.threads[t].seen
    case CasFailure => s.threads[t].Looping? && s.cell != s.threads[t].seen
    case CasSpurious => s.threads[t].Looping? && s.cell == s.threads[t].seen
    case Store => s.threads[t].Called? && s.threads[t].op.Set?
  }

  function Next(s: State, t: nat, e: Event): State
    requires Enabled(s, t, e)
  {
    match e
    case Invoke(op) => s.(threads := s.threads[t := Called(op)], invoked := s.invoked + [Commit(t, op)])
    case Reject(_) => s
    case Load => s.(threads := s.threads[t := Looping(s.threads[t].op, s.cell, |s.commits|)])
    case CasSuccess =>
      s.(cell := Apply(s.threads[t].seen, s.threads[t].op), threads := s.threads[t := Idle],
         commits := s.commits + [Commit(t, s.threads[t].op)])
    case CasFailure => s.(threads := s.threads[t := Looping(s.threads[t].op, s.cell, |s.commits|)])
    case CasSpurious => s.(threads := s.threads[t := Looping(s.threads[t].op, s.cell, |s.commits|)])
    case Store =>
      s.(cell := s.threads[t].op.value, threads := s.threads[t := Idle],
         commits := s.commits + [Commit(t, s.threads[t].op)])
  }

  /** The value after performing the operations one at a time. */
  function Replay(cell: real, ops: seq<Commit>): real {
    if ops == [] then cell else Apply(Replay(cell, ops[..|ops| - 1]), ops[|ops| - 1].op)
  }

  ghost predicate Initial(s: State, cell: real) {
    s.cell == cell && s.invoked == [] && s.commits == []
    && forall t :: 0 <= t < |s.threads| ==> s.threads[t] == Idle
  }

  /** A run: states and, between neighbours, the thread that moved and what it did. */
  ghost predicate Run(states: seq<State>, steps: seq<(nat, Event)>, cell: real) {
    && |states| == |steps| + 1
    && Initial(states[0], cell)
    && forall i :: 0 <= i < |steps| ==> Moves(states[i], steps[i], states[i + 1])
  }

  ghost predicate Moves(s: State, step: (nat, Event), s': State) {
    Enabled(s, step.0, step.1) && s' == Next(s, step.0, step.1)
  }

  function ByThread(ops: seq<Commit>, t: nat): seq<Op> {
    if ops == [] then []
    else
      var c := ops[|ops| - 1];
      ByThread(ops[..|ops| - 1], t) + if c.thread == t then [c.op] else []
  }

  function InFlight(th: Thread): seq<Op> {
    if th.Idle? then [] else [th.op]
  }

  /** A pending call passed its guard; the thread's calls are its commits and at most the pending
      one; a looping thread holds the value as of its last read and has not committed since. */
  ghost predicate ThreadOk(s: State, t: nat, cell: real)
    requires t < |s.threads|
  {
    var th := s.threads[t];
    && (!th.Idle? ==> Admitted(s.metricType, th.op))
    && ByThread(s.invoked, t) == ByThread(s.commits, t) + InFlight(th)
    && (th.Looping? ==>
          && !th.op.Set?
          && th.readAt <= |s.commits|
          && th.seen == Replay(cell, s.commits[..th.readAt])
          && forall j :: th.readAt <= j < |s.commits| ==> s.commits[j].thread != t)
  }

  /** What every step keeps: the cell is the replay of the commits, and all threads are in order. */
  ghost predicate Inv(s: State, cell: real) {
    && s.cell == Replay(cell, s.commits)
    && (forall t :: 0 <= t < |s.threads| ==> ThreadOk(s, t, cell))
    && (forall i :: 0 <= i < |s.commits| ==> Admitted(s.metricType, s.commits[i].op))
    && (forall i :: 0 <= i < |s.commits| ==> s.commits[i].thread < |s.threads|)
  }

  ghost predicate Commits(s: State, t: nat, s': State) {
    && t < |s.threads| && !s.threads[t].Idle?
    && s' == s.(cell := Apply(s.cell, s.threads[t].op), threads := s.threads[t := Idle],
                commits := s.commits + [Commit(t, s.threads[t].op)])
  }

  lemma CommitKeepsThread(s: State, t: nat, s': State, cell: real, u: nat)
    requires Commits(s, t, s') && u < |s.threads| && ThreadOk(s, u, cell)
    ensures ThreadOk(s', u, cell)
  {
    hide Replay, Apply, Admitted, ByThread;
    ByThreadStep(s.commits, t, s.threads[t].op, u);
    if u != t && s.threads[u].Looping? {
      assert s'.commits[..s.threads[u].readAt] == s.commits[..s.threads[u].readAt];
    }
  }

  lemma ByThreadStep(ops: seq<Commit>, t: nat, op: Op, u: nat)
    ensures ByThread(ops + [Commit(t, op)], u) == ByThread(ops, u) + if t == u then [op] else []
  {
    assert (ops + [Commit(t, op)])[..|ops|] == ops;
  }

  lemma CommitKeepsInv(s: State, t: nat, s': State, cell: real)
    requires Inv(s, cell) && Commits(s, t, s')
    ensures Inv(s', cell)
  {
    hide ByThread, ThreadOk, Apply;
    assert s'.commits[..|s.commits|] == s.commits;
    AdmittedPending(s, t, cell);
    forall u | 0 <= u < |s'.threads| ensures ThreadOk(s', u, cell) {
      CommitKeepsThread(s, t, s', cell, u);
    }
  }

  lemma AdmittedPending(s: State, t: nat, cell: real)
    requires t < |s.threads| && !s.threads[t].Idle? && ThreadOk(s, t, cell)
    ensures Admitted(s.metricType, s.threads[t].op)
  {
  }

  lemma ReadKeepsInv(s: State, t: nat, s': State, cell: real)
    requires Inv(s, cell) && t < |s.threads| && !s.threads[t].Idle? && !s.threads[t].op.Set?
    requires s' == s.(threads := s.threads[t := Looping(s.threads[t].op, s.cell, |s.commits|)])
    ensures Inv(s', cell)
  {
    assert s.commits[..|s.commits|] == s.commits;
    forall u | 0 <= u < |s'.threads| ensures ThreadOk(s', u, cell) {
      assert ThreadOk(s, u, cell);
    }
  }

  lemma StepKeepsInv(s: State, step: (nat, Event), s': State, cell: real)
    requires Inv(s, cell) && Moves(s, step, s')
    ensures Inv(s', cell)
  {
    var t := step.0;
    assert ThreadOk(s, t, cell);
    match step.1
    case Invoke(op) =>
      assert s'.invoked[..|s.invoked|] == s.invoked;
      forall u | 0 <= u < |s'.threads| ensures ThreadOk(s', u, cell) {
        assert ThreadOk(s, u, cell);
      }
    case Reject(_) =>
    case Load => ReadKeepsInv(s, t, s', cell);
    case CasFailure => ReadKeepsInv(s, t, s', cell);
    case CasSpurious => ReadKeepsInv(s, t, s', cell);
    case CasSuccess => CommitKeepsInv(s, t, s', cell);
    case Store => CommitKeepsInv(s, t, s', cell);
  }

  lemma {:induction false} EveryRunInv(states: seq<State>, steps: seq<(nat, Event)>, cell: real, i: nat)
    requires Run(states, steps, cell) && i < |states|
    ensures Inv(states[i], cell)
  {
    if i > 0 {
      EveryRunInv(states, steps, cell, i - 1);
      assert Moves(states[i - 1], steps[i - 1], states[i]);
      StepKeepsInv(states[i - 1], steps[i - 1], states[i], cell);
    }
  }

  /** In every state of every interleaving the cell equals the replay, in commit order, of the
      committed operations, and no operation is lost or performed twice: a thread's calls are its
      commits and the one in progress, in this order. */
  lemma EveryRunReplays(states: seq<State>, steps: seq<(nat, Event)>, cell: real, i: nat)
    requires Run(states, steps, cell) && i < |states|
    ensures states[i].cell == Replay(cell, states[i].commits)
    ensures var s := states[i];
            forall t :: 0 <= t < |s.threads| ==>
              ByThread(s.invoked, t) == ByThread(s.commits, t) + if s.threads[t] == Idle then [] else [s.threads[t].op]
  {
    hide Run, Replay, ByThread, Admitted;
    EveryRunInv(states, steps, cell, i);
    var s := states[i];
    forall t | 0 <= t < |s.threads|
      ensures ByThread(s.invoked, t) == ByThread(s.commits, t) + if s.threads[t] == Idle then [] else [s.threads[t].op]
    {
      assert ThreadOk(s, t, cell);
    }
  }

  /** What performing one more operation adds to a replay, to a total and to a thread's own calls. */
  lemma OneMore(cell: real, ops: seq<Commit>, t: nat, op: Op)
    ensures Replay(cell, []) == cell && Total([]) == 0.0 && ByThread([], t) == []
    ensures Replay(cell, ops + [Commit(t, op)])
            == match op case Add(d) => Replay(cell, ops) + d case Sub(d) => Replay(cell, ops) - d case Set(v) => v
    ensures Total(ops + [Commit(t, op)])
            == match op case Add(d) => Total(ops) + d case Sub(d) => Total(ops) - d case Set(_) => Total(ops)
    ensures forall u :: ByThread(ops + [Commit(t, op)], u) == ByThread(ops, u) + if u == t then [op] else []
  {
    assert (ops + [Commit(t, op)])[..|ops|] == ops;
  }

  /** A failure that is not spurious means that some other thread committed since the last read. */
  lemma FailureHasACause(states: seq<State>, steps: seq<(nat, Event)>, cell: real, i: nat)
    requires Run(states, steps, cell) && i < |steps| && steps[i].1 == CasFailure
    ensures var s, t := states[i], steps[i].0;
            && t < |s.threads| && s.threads[t].Looping?
            && var readAt := s.threads[t].readAt;
               readAt < |s.commits| && s.commits[readAt].thread != t
  {
    EveryRunInv(states, steps, cell, i);
    var s, t := states[i], steps[i].0;
    assert Moves(s, steps[i], states[i + 1]);
    assert ThreadOk(s, t, cell);
    assert s.commits[..|s.commits|] == s.commits;
  }

  // ----- No update is lost -----

  function Delta(op: Op): real {
    match op
    case Add(d) => d
    case Sub(d) => -d
    case Set(_) => 0.0
  }

  function Total(ops: seq<Commit>): real {
    if ops == [] then 0.0 else Total(ops[..|ops| - 1]) + Delta(ops[|ops| - 1].op)
  }

  function Pending(threads: seq<Thread>): real {
    if threads == [] then 0.0
    else
      var th := threads[|threads| - 1];
      Pending(threads[..|threads| - 1]) + if th.Idle? then 0.0 else Delta(th.op)
  }

  lemma {:induction false} PendingUpdate(threads: seq<Thread>, t: nat, th: Thread)
    requires t < |threads|
    ensures Pending(threads[t := th])
            == Pending(threads) - Pending([threads[t]]) + Pending([th])
  {
    var n := |threads| - 1;
    if t < n {
      assert threads[t := th][..n] == threads[..n][t := th];
      PendingUpdate(threads[..n], t, th);
    } else {
      assert threads[t := th][..n] == threads[..n];
    }
    assert [threads[t]][..0] == [] && [th][..0] == [];
  }

  lemma {:induction false} AllIdlePending(threads: seq<Thread>)
    requires forall t :: 0 <= t < |threads| ==> threads[t] == Idle
    ensures Pending(threads) == 0.0
  {
    if threads != [] {
      AllIdlePending(threads[..|threads| - 1]);
    }
  }

  ghost predicate Balanced(s: State, cell: real) {
    s.cell == cell + Total(s.invoked) - Pending(s.threads)
  }

  lemma StepKeepsBalance(s: State, step: (nat, Event), s': State, cell: real)
    requires Balanced(s, cell) && Moves(s, step, s')
    requires forall i :: 0 <= i < |s'.invoked| ==> !s'.invoked[i].op.Set?
    requires forall t :: 0 <= t < |s.threads| && !s.threads[t].Idle? ==> !s.threads[t].op.Set?
    ensures Balanced(s', cell)
    ensures forall t :: 0 <= t < |s'.threads| && !s'.threads[t].Idle? ==> !s'.threads[t].op.Set?
  {
    var t := step.0;
    if !step.1.Reject? {
      PendingUpdate(s.threads, t, s'.threads[t]);
      assert [s.threads[t]][..0] == [] && [s'.threads[t]][..0] == [];
    }
    if step.1.Invoke? {
      assert s'.invoked[..|s.invoked|] == s.invoked;
      assert s'.invoked[|s.invoked|] == Commit(t, step.1.op);
    }
  }

  lemma InvokedGrows(states: seq<State>, steps: seq<(nat, Event)>, cell: real, i: nat, j: nat)
    requires Run(states, steps, cell) && i <= j < |states|
    ensures states[i].invoked <= states[j].invoked
    decreases j
  {
    if i < j {
      InvokedGrows(states, steps, cell, i, j - 1);
      assert Moves(states[j - 1], steps[j - 1], states[j]);
    }
  }

  /** Without plain stores, once every call has returned the cell has moved by the total of all
      calls, whatever the interleaving and even if a value recurred in between. */
  lemma NoUpdateLost(states: seq<State>, steps: seq<(nat, Event)>, cell: real)
    requires Run(states, steps, cell)
    requires var last := states[|states| - 1];
             && (forall i :: 0 <= i < |last.invoked| ==> !last.invoked[i].op.Set?)
             && (forall t :: 0 <= t < |last.threads| ==> last.threads[t] == Idle)
    ensures var last := states[|states| - 1]; last.cell == cell + Total(last.invoked)
  {
    BalancedAt(states, steps, cell, |states| - 1);
    AllIdlePending(states[|states| - 1].threads);
  }

  lemma {:induction false} BalancedAt(states: seq<State>, steps: seq<(nat, Event)>, cell: real, i: nat)
    requires Run(states, steps, cell) && i < |states|
    requires forall k :: 0 <= k < |states[i].invoked| ==> !states[i].invoked[k].op.Set?
    ensures Balanced(states[i], cell)
    ensures var s := states[i]; forall t :: 0 <= t < |s.threads| && !s.threads[t].Idle? ==> !s.threads[t].op.Set?
  {
    if i == 0 {
      AllIdlePending(states[0].threads);
    } else {
      assert Moves(states[i - 1], steps[i - 1], states[i]);
      InvokedGrows(states, steps, cell, i - 1, i);
      assert forall k :: 0 <= k < |states[i - 1].invoked| ==> states[i - 1].invoked[k] == states[i].invoked[k];
      BalancedAt(states, steps, cell, i - 1);
      StepKeepsBalance(states[i - 1], steps[i - 1], states[i], cell);
    }
  }

  // ----- What the guards mean for counters and histograms -----

  lemma {:induction false} SameType(states: seq<State>, steps: seq<(nat, Event)>, cell: real, i: nat)
    requires Run(states, steps, cell) && i < |states|
    ensures states[i].metricType == states[0].metricType
  {
    if i > 0 {
      SameType(states, steps, cell, i - 1);
      assert Moves(states[i - 1], steps[i - 1], states[i]);
    }
  }

  /** A counter starting at zero is never negative, in any interleaving. */
  lemma {:induction false} CounterNeverNegative(states: seq<State>, steps: seq<(nat, Event)>, i: nat)
    requires Run(states, steps, 0.0) && i < |states| && states[0].metricType == Counter
    ensures states[i].cell >= 0.0
  {
    EveryRunInv(states, steps, 0.0, i);
    SameType(states, steps, 0.0, i);
    ReplayNonNegative(states[i].commits);
  }

  lemma {:induction false} ReplayNonNegative(ops: seq<Commit>)
    requires forall i :: 0 <= i < |ops| ==> Admitted(Counter, ops[i].op)
    ensures Replay(0.0, ops) >= 0.0
  {
    if ops != [] {
      ReplayNonNegative(ops[..|ops| - 1]);
    }
  }

  /** Between stores (resets) neither a counter nor any other sample that is not a gauge decreases. */
  lemma {:induction false} NeverDecreasesBetweenResets(states: seq<State>, steps: seq<(nat, Event)>, cell: real,
                                                       i: nat, j: nat)
    requires Run(states, steps, cell) && i <= j < |states| && states[0].metricType != Gauge
    requires forall k :: i <= k < j ==> steps[k].1 != Store
    ensures states[i].cell <= states[j].cell
    decreases j
  {
    if i < j {
      NeverDecreasesBetweenResets(states, steps, cell, i, j - 1);
      EveryRunInv(states, steps, cell, j - 1);
      SameType(states, steps, cell, j - 1);
      assert Moves(states[j - 1], steps[j - 1], states[j]);
      assert ThreadOk(states[j - 1], steps[j - 1].0, cell);
    }
  }

  /** On a histogram sample only additions ever take effect. */
  lemma HistogramOnlyAdds(states: seq<State>, steps: seq<(nat, Event)>, cell: real, i: nat)
    requires Run(states, steps, cell) && i < |states| && states[0].metricType == Histogram
    ensures forall k :: 0 <= k < |states[i].commits| ==>
              states[i].commits[k].op.Add? && states[i].commits[k].op.delta >= 0.0
    ensures i < |steps| ==> steps[i].1 != Store
  {
    EveryRunInv(states, steps, cell, i);
    SameType(states, steps, cell, i);
    if i < |steps| {
      assert Moves(states[i], steps[i], states[i + 1]);
      assert ThreadOk(states[i], steps[i].0, cell);
    }
  }

  // ----- Every call can proceed -----

  /** The thread is the only one that moves, and its calls and the other threads stay as they are. */
  ghost predicate Alone(s: State, s': State, t: nat) {
    && s'.metricType == s.metricType && |s'.threads| == |s.threads|
    && forall u :: 0 <= u < |s.threads| && u != t ==> s'.threads[u] == s.threads[u]
  }

  lemma Extend(states: seq<State>, steps: seq<(nat, Event)>, cell: real, t: nat, e: Event)
    returns (states': seq<State>, steps': seq<(nat, Event)>)
    requires Run(states, steps, cell) && Enabled(states[|steps|], t, e)
    ensures Run(states', steps', cell)
    ensures states' == states + [Next(states[|steps|], t, e)] && steps' == steps + [(t, e)]
  {
    states', steps' := states + [Next(states[|steps|], t, e)], steps + [(t, e)];
    hide Enabled, Next, Initial;
    forall i | 0 <= i < |steps'| ensures Moves(states'[i], steps'[i], states'[i + 1]) {
      if i < |steps| {
        assert Moves(states[i], steps[i], states[i + 1]);
      }
    }
  }

  lemma RunSize(states: seq<State>, steps: seq<(nat, Event)>, cell: real)
    requires Run(states, steps, cell)
    ensures |states| == |steps| + 1
  {
  }

  /** From every state of every run, a thread with a call in progress can be driven alone to the
      commit of that call, whatever the others did before; and that commit does what the call says. */
  lemma CanCommit(states: seq<State>, steps: seq<(nat, Event)>, cell: real, t: nat)
    returns (states': seq<State>, steps': seq<(nat, Event)>)
    requires Run(states, steps, cell)
    requires var s := states[|steps|]; t < |s.threads| && !s.threads[t].Idle?
    ensures Run(states', steps', cell) && steps <= steps'
    ensures forall i :: |steps| <= i < |steps'| ==> steps'[i].0 == t
    ensures var s, s' := states[|steps|], states'[|steps'|];
            var op := s.threads[t].op;
            && Alone(s, s', t) && s'.threads[t] == Idle && s'.invoked == s.invoked
            && s'.commits == s.commits + [Commit(t, op)]
            && s'.cell == (match op case Add(d) => s.cell + d case Sub(d) => s.cell - d case Set(v) => v)
  {
    hide Run;
    RunSize(states, steps, cell);
    states', steps' := states, steps;
    var s := states[|steps|];
    if s.threads[t].Called? && s.threads[t].op.Set? {
      states', steps' := Extend(states, steps, cell, t, Store);
    } else {
      if s.threads[t].Called? {
        states', steps' := Extend(states, steps, cell, t, Load);
        RunSize(states', steps', cell);
      } else if s.cell != s.threads[t].seen {
        states', steps' := Extend(states, steps, cell, t, CasFailure);
        RunSize(states', steps', cell);
      }
      LoopingIsNoStore(states', steps', cell, t);
      states', steps' := Extend(states', steps', cell, t, CasSuccess);
    }
    RunSize(states', steps', cell);
  }

  lemma LoopingIsNoStore(states: seq<State>, steps: seq<(nat, Event)>, cell: real, t: nat)
    requires Run(states, steps, cell)
    requires var s := states[|steps|]; t < |s.threads| && s.threads[t].Looping?
    ensures !states[|steps|].threads[t].op.Set?
  {
    EveryRunInv(states, steps, cell, |steps|);
    assert ThreadOk(states[|steps|], t, cell);
  }

  /** From every state of every run a thread between calls can make any call. A call with a negative
      addition, a subtraction on anything but a gauge, or a store on anything but a gauge or a
      non-negative one on a counter changes nothing; every other call takes effect. */
  lemma CanCall(states: seq<State>, steps: seq<(nat, Event)>, cell: real, t: nat, op: Op)
    returns (states': seq<State>, steps': seq<(nat, Event)>)
    requires Run(states, steps, cell)
    requires var s := states[|steps|]; t < |s.threads| && s.threads[t] == Idle
    ensures Run(states', steps', cell) && steps <= steps'
    ensures forall i :: |steps| <= i < |steps'| ==> steps'[i].0 == t
    ensures var s, s' := states[|steps|], states'[|steps'|];
            var accepted := match op
                            case Add(d) => d >= 0.0
                            case Sub(_) => s.metricType == Gauge
                            case Set(v) => s.metricType == Gauge || (s.metricType == Counter && v >= 0.0);
            && Alone(s, s', t) && s'.threads[t] == Idle
            && (!accepted ==> s' == s)
            && (accepted ==>
                  && s'.invoked == s.invoked + [Commit(t, op)] && s'.commits == s.commits + [Commit(t, op)]
                  && s'.cell == (match op case Add(d) => s.cell + d case Sub(d) => s.cell - d case Set(v) => v))
  {
    hide Run;
    RunSize(states, steps, cell);
    var s := states[|steps|];
    if Admitted(s.metricType, op) {
      states', steps' := Extend(states, steps, cell, t, Invoke(op));
      RunSize(states', steps', cell);
      states', steps' := CanCommit(states', steps', cell, t);
    } else {
      states', steps' := Extend(states, steps, cell, t, Reject(op));
    }
    RunSize(states', steps', cell);
  }

  /** A thread in the retry loop can fail spuriously any number of times, and nothing is changed. */
  lemma CanFailSpuriously(states: seq<State>, steps: seq<(nat, Event)>, cell: real, t: nat, n: nat)
    returns (states': seq<State>, steps': seq<(nat, Event)>)
    requires Run(states, steps, cell)
    requires var s := states[|steps|]; t < |s.threads| && s.threads[t].Looping? && s.threads[t].seen == s.cell
    ensures Run(states', steps', cell) && steps' == steps + seq(n, _ => (t, CasSpurious))
    ensures var s, s' := states[|steps|], states'[|steps'|];
            && Alone(s, s', t) && s'.cell == s.cell && s'.commits == s.commits && s'.invoked == s.invoked
            && s'.threads[t].Looping? && s'.threads[t].op == s.threads[t].op && s'.threads[t].seen == s'.cell
  {
    hide Run;
    RunSize(states, steps, cell);
    states', steps' := states, steps;
    for i := 0 to n
      invariant Run(states', steps', cell) && |states'| == |steps'| + 1
      invariant steps' == steps + seq(i, _ => (t, CasSpurious))
      invariant var s, s' := states[|steps|], states'[|steps'|];
                && Alone(s, s', t) && s'.cell == s.cell && s'.commits == s.commits && s'.invoked == s.invoked
                && s'.threads[t].Looping? && s'.threads[t].op == s.threads[t].op && s'.threads[t].seen == s'.cell
    {
      states', steps' := Extend(states', steps', cell, t, CasSpurious);
      RunSize(states', steps', cell);
    }
  }
}
