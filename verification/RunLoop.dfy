/** The step loop of `SimulationHelper::startSimulation`: which steps are checked, computed and dumped, in a fresh run
    and after a restart, and which of them a period selects. */
module RunLoop {
  import opened Arith

  // ----- stepping

  /** Check: `movingWindowCheck`; Compute: `runOneStep`; Dump: `dumpOneStep`. */
  datatype Event = Check(step: nat) | Compute(step: nat) | Dump(step: nat)

  function Round(step: nat): seq<Event> {
    [Compute(step), Check(step + 1), Dump(step + 1)]
  }

  function Rounds(from: nat, to: nat): seq<Event>
    decreases to - from
  {
    if from >= to then [] else Rounds(from, to - 1) + Round(to - 1)
  }

  function FreshTrace(runSteps: nat): seq<Event> {
    [Check(0), Dump(0)] + Rounds(0, runSteps)
  }

  function RestartTrace(restartStep: nat, runSteps: nat): seq<Event> {
    [Check(restartStep)] + Rounds(restartStep, runSteps)
  }

  function Computed(trace: seq<Event>): seq<nat> {
    if trace == [] then []
    else
      var last := trace[|trace| - 1];
      Computed(trace[..|trace| - 1]) + if last.Compute? then [last.step] else []
  }

  function Dumped(trace: seq<Event>): seq<nat> {
    if trace == [] then []
    else
      var last := trace[|trace| - 1];
      Dumped(trace[..|trace| - 1]) + if last.Dump? then [last.step] else []
  }

  function Range(from: nat, to: nat): (r: seq<nat>)
    requires from <= to
    ensures |r| == to - from && forall i :: 0 <= i < |r| ==> r[i] == from + i
  {
    seq(to - from, i => from + i)
  }

  lemma {:induction false} TraceAppend(a: seq<Event>, b: seq<Event>)
    ensures Computed(a + b) == Computed(a) + Computed(b)
    ensures Dumped(a + b) == Dumped(a) + Dumped(b)
  {
    if b == [] {
      assert a + b == a;
    } else {
      assert (a + b)[..|a + b| - 1] == a + b[..|b| - 1];
      TraceAppend(a, b[..|b| - 1]);
    }
  }

  lemma OneEvent(e: Event)
    ensures Computed([e]) == if e.Compute? then [e.step] else []
    ensures Dumped([e]) == if e.Dump? then [e.step] else []
  {
    assert [e][..0] == [];
  }

  lemma RoundSteps(step: nat)
    ensures Computed(Round(step)) == [step] && Dumped(Round(step)) == [step + 1]
  {
    var compute, check, dump := Compute(step), Check(step + 1), Dump(step + 1);
    OneEvent(compute);
    OneEvent(check);
    OneEvent(dump);
    TraceAppend([compute], [check]);
    TraceAppend([compute] + [check], [dump]);
    assert Round(step) == [compute] + [check] + [dump];
  }

  lemma {:induction false} RoundsSteps(from: nat, to: nat)
    requires from <= to
    ensures Computed(Rounds(from, to)) == Range(from, to)
    ensures Dumped(Rounds(from, to)) == Range(from + 1, to + 1)
  {
    if from < to {
      RoundsSteps(from, to - 1);
      TraceAppend(Rounds(from, to - 1), Round(to - 1));
      RoundSteps(to - 1);
      assert Range(from, to) == Range(from, to - 1) + [to - 1];
      assert Range(from + 1, to + 1) == Range(from + 1, to) + [to];
    }
  }

  lemma FreshSteps(runSteps: nat)
    ensures Computed(FreshTrace(runSteps)) == Range(0, runSteps)
    ensures Dumped(FreshTrace(runSteps)) == Range(0, runSteps + 1)
  {
    OneEvent(Check(0));
    OneEvent(Dump(0));
    TraceAppend([Check(0)], [Dump(0)]);
    assert [Check(0)] + [Dump(0)] == [Check(0), Dump(0)];
    TraceAppend([Check(0), Dump(0)], Rounds(0, runSteps));
    RoundsSteps(0, runSteps);
    assert [0] + Range(1, runSteps + 1) == Range(0, runSteps + 1);
  }

  lemma RestartSteps(restartStep: nat, runSteps: nat)
    requires restartStep <= runSteps
    ensures Computed(RestartTrace(restartStep, runSteps)) == Range(restartStep, runSteps)
    ensures Dumped(RestartTrace(restartStep, runSteps)) == Range(restartStep + 1, runSteps + 1)
  {
    OneEvent(Check(restartStep));
    TraceAppend([Check(restartStep)], Rounds(restartStep, runSteps));
    RoundsSteps(restartStep, runSteps);
  }

  /** A fresh run stopped after dumping step `k`, continued by a restart from `k`: every step computed once and every
      step dumped once, in order. */
  lemma RestartIsSeamless(k: nat, runSteps: nat)
    requires k <= runSteps
    ensures Computed(FreshTrace(k) + RestartTrace(k, runSteps)) == Range(0, runSteps)
    ensures Dumped(FreshTrace(k) + RestartTrace(k, runSteps)) == Range(0, runSteps + 1)
  {
    FreshSteps(k);
    RestartSteps(k, runSteps);
    TraceAppend(FreshTrace(k), RestartTrace(k, runSteps));
    assert Range(0, k) + Range(k, runSteps) == Range(0, runSteps);
    assert Range(0, k + 1) + Range(k + 1, runSteps + 1) == Range(0, runSteps + 1);
  }

  /** The stopped run is a beginning of the full one. */
  lemma {:induction false} StoppedRunIsPrefix(k: nat, runSteps: nat)
    requires k <= runSteps
    ensures FreshTrace(k) <= FreshTrace(runSteps)
  {
    if k < runSteps {
      StoppedRunIsPrefix(k, runSteps - 1);
      assert FreshTrace(runSteps) == FreshTrace(runSteps - 1) + Round(runSteps - 1);
    }
  }

  lemma {:induction false} FirstRound(from: nat, to: nat)
    requires from < to
    ensures |Rounds(from, to)| >= 3 && Rounds(from, to)[0] == Compute(from)
  {
    if from + 1 < to {
      FirstRound(from, to - 1);
    }
  }

  // ----- periodic duties

  /** The multiples of a period up to and including `n`. */
  function Multiples(period: nat, n: nat): seq<nat>
    requires period > 0
  {
    (if n == 0 then [] else Multiples(period, n - 1)) + if n % period == 0 then [n] else []
  }

  lemma {:induction false} MultiplesAre(period: nat, n: nat)
    requires period > 0
    ensures |Multiples(period, n)| == n / period + 1
    ensures forall i :: 0 <= i < |Multiples(period, n)| ==> Multiples(period, n)[i] == i * period
  {
    if n > 0 {
      MultiplesAre(period, n - 1);
      DivModStep(n - 1, period);
      assert n % period == 0 ==> n == n / period * period;
    }
  }

  /** The steps of a sequence on which a period is due. */
  function Due(period: nat, steps: seq<nat>): seq<nat>
    requires period > 0
  {
    if steps == [] then []
    else
      var last := steps[|steps| - 1];
      Due(period, steps[..|steps| - 1]) + if last % period == 0 then [last] else []
  }

  lemma {:induction false} DueAppend(period: nat, a: seq<nat>, b: seq<nat>)
    requires period > 0
    ensures Due(period, a + b) == Due(period, a) + Due(period, b)
  {
    if b == [] {
      assert a + b == a;
    } else {
      assert (a + b)[..|a + b| - 1] == a + b[..|b| - 1];
      DueAppend(period, a, b[..|b| - 1]);
    }
  }

  lemma {:induction false} DueInRange(period: nat, n: nat)
    requires period > 0
    ensures Due(period, Range(0, n + 1)) == Multiples(period, n)
  {
    var steps := Range(0, n + 1);
    assert steps[..n] == Range(0, n);
    if n > 0 {
      DueInRange(period, n - 1);
    } else {
      assert Due(period, steps[..n]) == [];
    }
  }
}
