/** `SimulationHelper` and `MySimulation`: the driver that ties stepping, background field, notifications and the
    checkpoint master file together. */
module SimulationHelper {
  import opened Arith
  import opened Decimal
  import opened Wrappers
  import opened RunLoop
  import opened BackgroundField
  import opened PluginConnector

  // ----- the checkpoint master file

  function Lines(steps: seq<nat>): (lines: seq<string>)
    ensures |lines| == |steps|
  {
    seq(|steps|, i requires 0 <= i < |steps| => Digits(steps[i]))
  }

  /** The step named by the last non-empty line; -1 when there is none or when it is not an `int32_t`. */
  function LastStep(lines: seq<string>): int {
    if lines == [] then -1
    else
      var last := lines[|lines| - 1];
      if last == [] then LastStep(lines[..|lines| - 1])
      else
        match CastInt32(last)
        case Some(step) => step
        case None => -1
  }

  method ReadCheckpointMasterFile(file: Option<seq<string>>) returns (lastCheckpointStep: int)
    ensures lastCheckpointStep == if file.Some? then LastStep(file.value) else -1
  {
    lastCheckpointStep := -1;
    if file.Some? {
      var lines := file.value;
      var i := 0;
      while i < |lines|
        invariant 0 <= i <= |lines| && lastCheckpointStep == LastStep(lines[..i])
      {
        assert lines[..i + 1][..i] == lines[..i];
        if lines[i] != [] {
          var cast := CastInt32(lines[i]);
          lastCheckpointStep := if cast.Some? then cast.value else -1;
        }
        i := i + 1;
      }
      assert lines[..i] == lines;
    }
  }

  /** What a run appends to the master file. */
  function Written(period: nat, trace: seq<Event>): seq<nat> {
    if period == 0 then [] else Due(period, Dumped(trace))
  }

  lemma LastLine(steps: seq<nat>)
    requires steps != []
    ensures LastStep(Lines(steps)) == if steps[|steps| - 1] < 0x8000_0000 then steps[|steps| - 1] else -1
  {
    CastOfDigits(steps[|steps| - 1]);
  }

  lemma MasterFileLists(period: nat, runSteps: nat)
    requires period > 0
    ensures Written(period, FreshTrace(runSteps)) == Multiples(period, runSteps)
  {
    FreshSteps(runSteps);
    DueInRange(period, runSteps);
  }

  lemma LastMultiple(period: nat, n: nat)
    requires period > 0
    ensures |Multiples(period, n)| == n / period + 1
    ensures Multiples(period, n)[n / period] == n / period * period
  {
    MultiplesAre(period, n);
  }

  /** A fresh master file lists the multiples of the period, and reading it gives the largest of them; but a step that
      does not fit `int32_t` reads back as "no checkpoint". */
  lemma MasterFileReadsBack(period: nat, runSteps: nat)
    requires period > 0
    ensures LastStep(Lines(Multiples(period, runSteps)))
         == if runSteps / period * period < 0x8000_0000 then runSteps / period * period else -1
  {
    LastMultiple(period, runSteps);
    LastLine(Multiples(period, runSteps));
  }

  /** A restart without a given step, from the file of a run: the step after its last checkpoint, or a refusal when that
      step needs more than 31 bits. */
  lemma RestartFromWrittenFile(period: nat, runSteps: nat, restartStep: int)
    requires period > 0 && restartStep < 0
    ensures var last := runSteps / period * period;
            FirstStep(true, true, restartStep, Some(Lines(Multiples(period, runSteps))))
            == if last < 0x8000_0000 then Some(last + 1) else None
  {
    MasterFileReadsBack(period, runSteps);
  }

  /** Empty lines are skipped; a last line that is no 32-bit number hides the ones before it. */
  lemma LastLineDecides(lines: seq<string>, line: string)
    ensures line == [] ==> LastStep(lines + [line]) == LastStep(lines)
    ensures line != [] ==>
              LastStep(lines + [line]) == if CastInt32(line).Some? then CastInt32(line).value else -1
  {
    assert (lines + [line])[..|lines|] == lines;
  }

  /** The same file results when the run is stopped and restarted at any step. */
  lemma MasterFileSurvivesRestart(period: nat, stop: nat, runSteps: nat)
    requires stop <= runSteps
    ensures Lines(Written(period, FreshTrace(stop))) + Lines(Written(period, RestartTrace(stop, runSteps)))
         == Lines(Written(period, FreshTrace(runSteps)))
  {
    WrittenSurvivesRestart(period, stop, runSteps);
    LinesAppend(Written(period, FreshTrace(stop)), Written(period, RestartTrace(stop, runSteps)));
  }

  lemma WrittenSurvivesRestart(period: nat, stop: nat, runSteps: nat)
    requires stop <= runSteps
    ensures Written(period, FreshTrace(stop)) + Written(period, RestartTrace(stop, runSteps))
         == Written(period, FreshTrace(runSteps))
  {
    if period > 0 {
      var a, b := Dumped(FreshTrace(stop)), Dumped(RestartTrace(stop, runSteps));
      TraceAppend(FreshTrace(stop), RestartTrace(stop, runSteps));
      RestartIsSeamless(stop, runSteps);
      FreshSteps(runSteps);
      DueAppend(period, a, b);
    }
  }

  lemma {:induction false} LastStepFits(lines: seq<string>)
    ensures -INT_RANGE <= LastStep(lines) < INT_RANGE
  {
    if lines != [] {
      LastStepFits(lines[..|lines| - 1]);
    }
  }

  /** The `int` sum, stored as `uint32_t`, is the next step even where the sum wraps around. */
  lemma NextStepFits(step: nat)
    requires step < INT_RANGE
    ensures U32(Int32(step + 1)) == step + 1
  {
  }

  // ----- the driver

  /** The step after the one to restart from; zero starts afresh; `None` is "Restart failed". */
  function FirstStep(hasInitialiser: bool, restartRequested: bool, restartStep: int, file: Option<seq<string>>)
    : Option<nat>
  {
    var step := if restartStep >= 0 then restartStep else if file.Some? then LastStep(file.value) else -1;
    if !hasInitialiser || !restartRequested then Some(0)
    else if step < 0 then None
    else Some(step + 1)
  }

  function Opening(first: nat): seq<Event> {
    if first == 0 then [Check(0), Dump(0)] else [Check(first - 1)]
  }

  function RunTrace(first: nat, runSteps: nat): seq<Event> {
    if first == 0 then FreshTrace(runSteps) else RestartTrace(first - 1, runSteps)
  }

  /** Everything a run changes. */
  datatype Snapshot = Snapshot(
    events: seq<Event>, patch: Patch, masterFile: seq<string>, numCheckpoints: nat,
    notices: seq<Call>, saves: seq<Call>)

  /** What stays fixed during a run; `field` is the background field and the observed cell. */
  datatype Plan = Plan(field: Setting, period: nat, globalRank: nat, notifications: seq<Entry>, plugins: seq<Plugin>) {
    predicate Saves(step: nat) {
      period > 0 && step % period == 0
    }

    ghost function Step(s: Snapshot, e: Event): Snapshot
      requires Periods(notifications)
    {
      var s' := s.(events := s.events + [e]);
      match e
      case Check(_) => s'.(patch := After(field, s.patch, e))
      case Compute(_) => s'.(patch := After(field, s.patch, e))
      case Dump(t) =>
        var notified := s'.(notices := s.notices + Pass(notifications, |notifications|, t));
        if !Saves(t) then notified
        else notified.(
          saves := s.saves + Pass(WithPeriod(plugins, 1), |plugins|, t),
          masterFile := if globalRank == 0 then s.masterFile + [Digits(t)] else s.masterFile,
          numCheckpoints := s.numCheckpoints + 1)
    }

    /** The state after `init`: on a restart, what the checkpoint holds less the background of the step after it. */
    function Start(s: Snapshot, first: nat, saved: Patch): Snapshot {
      if first == 0 then s else s.(patch := Restarted(field, saved, first - 1))
    }

    ghost function Reached(s: Snapshot, trace: seq<Event>): Snapshot
      requires Periods(notifications)
    {
      if trace == [] then s else Step(Reached(s, trace[..|trace| - 1]), trace[|trace| - 1])
    }

    lemma {:induction false} ReachedAppend(s: Snapshot, a: seq<Event>, b: seq<Event>)
      requires Periods(notifications)
      ensures Reached(s, a + b) == Reached(Reached(s, a), b)
    {
      if b == [] {
        assert a + b == a;
      } else {
        assert (a + b)[..|a + b| - 1] == a + b[..|b| - 1];
        ReachedAppend(s, a, b[..|b| - 1]);
      }
    }

    lemma ReachedRound(s: Snapshot, first: nat, step: nat)
      requires Periods(notifications) && first <= step
      ensures Reached(s, Rounds(first, step + 1)) == Reached(Reached(s, Rounds(first, step)), Round(step))
    {
      ReachedAppend(s, Rounds(first, step), Round(step));
    }

    lemma ReachedOne(s: Snapshot, e: Event)
      requires Periods(notifications)
      ensures Reached(s, [e]) == Step(s, e)
    {
      assert [e][..0] == [];
    }
  }

  class Simulation {
    const runSteps: nat
    const checkpointPeriod: nat
    const globalRank: nat
    const hasInitialiser: bool
    const restartRequested: bool
    const connector: Connector
    const field: Setting
    var restartStep: int
    var numCheckpoints: nat
    var masterFile: seq<string>
    /** The observed cell: its rank's row, the slide bookkeeping, and the background part of the field value. */
    var place: Place
    var background: real
    /** The virtual calls made so far. */
    var events: seq<Event>

    constructor (runSteps: nat, checkpointPeriod: nat, globalRank: nat, hasInitialiser: bool, restartRequested: bool,
                 restartStep: int, connector: Connector, field: Setting, place: Place)
      ensures this.runSteps == runSteps && this.checkpointPeriod == checkpointPeriod && this.globalRank == globalRank
      ensures this.hasInitialiser == hasInitialiser && this.restartRequested == restartRequested
      ensures this.restartStep == restartStep && this.connector == connector && this.field == field
      ensures numCheckpoints == 0 && masterFile == [] && events == [] && this.place == place && background == 0.0
    {
      this.runSteps, this.checkpointPeriod, this.globalRank := runSteps, checkpointPeriod, globalRank;
      this.hasInitialiser, this.restartRequested, this.restartStep := hasInitialiser, restartRequested, restartStep;
      this.connector, this.field, this.place := connector, field, place;
      numCheckpoints, masterFile, background, events := 0, [], 0.0, [];
    }

    ghost predicate Valid()
      reads this`restartStep, connector
    {
      connector.Valid() && -INT_RANGE <= restartStep < INT_RANGE
    }

    ghost function Fixed(): Plan
      reads connector
    {
      Plan(field, checkpointPeriod, globalRank, connector.notificationList, connector.plugins)
    }

    ghost function Now(): Snapshot
      reads this, connector
    {
      Snapshot(events, Patch(place, background), masterFile, numCheckpoints, connector.notices, connector.saves)
    }

    /** `CellwiseOperation` in the observed cell: it asks the window for the slide counter, if it is enabled at all. */
    method PushBackground(step: nat, sign: real)
      modifies this`place, this`background
      ensures place == field.AfterPush(old(place), step)
      ensures background == old(background) + sign * field.Pushed(old(place), step)
    {
      if field.pushes {
        place := field.Asked(place, step);
        background := background + sign * field.value(field.CellOf(place), step);
      }
    }

    /** `movingWindowCheck`: slide if the window says so, reset the rank that goes to the end, add the background. */
    method MovingWindowCheck(step: nat)
      requires Valid()
      modifies this`place, this`background, this`events
      ensures Valid() && Now() == Fixed().Reached(old(Now()), [Check(step)])
    {
      Fixed().ReachedOne(Now(), Check(step));
      var reset := field.Resets(place, step);
      place := field.Slid(place, step);
      if reset {
        background := 0.0;
      }
      PushBackground(step, 1.0);
      events := events + [Check(step)];
    }

    /** `runOneStep`: the background leaves before the field solver runs. */
    method RunOneStep(step: nat)
      requires Valid()
      modifies this`place, this`background, this`events
      ensures Valid() && Now() == Fixed().Reached(old(Now()), [Compute(step)])
    {
      Fixed().ReachedOne(Now(), Compute(step));
      PushBackground(step, -1.0);
      events := events + [Compute(step)];
    }

    method DumpOneStep(step: nat)
      requires Valid()
      modifies this`numCheckpoints, this`masterFile, this`events,
        connector`notices, connector`lastNotify, connector`saves, connector`lastCheckpoint
      ensures Valid() && Now() == Fixed().Reached(old(Now()), [Dump(step)])
    {
      Fixed().ReachedOne(Now(), Dump(step));
      events := events + [Dump(step)];
      connector.NotifyPlugins(step);
      if checkpointPeriod > 0 && step % checkpointPeriod == 0 {
        connector.CheckpointPlugins(step);
        if globalRank == 0 {
          masterFile := masterFile + [Digits(step)];
        }
        numCheckpoints := numCheckpoints + 1;
      }
    }

    /** `init`: the first step. On a restart the checkpoint gives row, counter and field of the observed cell, still
        with the background of the saved step, and the background of the step after it is removed. */
    method Init(restartFile: Option<seq<string>>, saved: Patch) returns (step: Option<nat>)
      requires Valid()
      modifies this`restartStep, this`place, this`background
      ensures Valid()
      ensures step == FirstStep(hasInitialiser, restartRequested, old(restartStep), restartFile)
      ensures !hasInitialiser || !restartRequested ==> step == Some(0)
      ensures hasInitialiser && restartRequested && old(restartStep) >= 0 ==> step == Some(old(restartStep) + 1)
      ensures hasInitialiser && restartRequested && old(restartStep) < 0 && restartFile.None? ==> step == None
      ensures hasInitialiser && restartRequested && old(restartStep) < 0 && restartFile.Some? ==>
                step == if LastStep(restartFile.value) < 0 then None else Some(LastStep(restartFile.value) + 1)
      ensures step == Some(0) ==> place == old(place) && background == old(background)
      ensures step.Some? && step.value > 0 ==>
                && restartStep == step.value - 1
                && Patch(place, background) == Restarted(field, saved, restartStep)
    {
      var first := 0;
      if hasInitialiser && restartRequested {
        if restartStep < 0 {
          restartStep := ReadCheckpointMasterFile(restartFile);
          if restartFile.Some? {
            LastStepFits(restartFile.value);
          }
          if restartStep < 0 {
            return None;
          }
        }
        var loaded := Loaded(saved, restartStep);
        place, background := loaded.at, loaded.background;
        NextStepFits(restartStep);
        first := U32(Int32(restartStep + 1));
      }
      if first != 0 {
        PushBackground(first, -1.0);
      }
      return Some(first);
    }

    /** What happens before the main loop. */
    method OpenRun(first: nat) returns (step: nat)
      requires Valid()
      modifies this`place, this`background, this`numCheckpoints, this`masterFile, this`events,
        connector`notices, connector`lastNotify, connector`saves, connector`lastCheckpoint
      ensures step == if first == 0 then 0 else first - 1
      ensures Valid() && Now() == Fixed().Reached(old(Now()), Opening(first))
    {
      step := first;
      ghost var start := Now();
      if step == 0 {
        MovingWindowCheck(step);
        DumpOneStep(step);
        Fixed().ReachedAppend(start, [Check(step)], [Dump(step)]);
        assert [Check(step)] + [Dump(step)] == Opening(first);
      } else {
        step := step - 1;
        MovingWindowCheck(step);
      }
    }

    /** One turn of the main loop. */
    method RunRound(step: nat)
      requires Valid()
      modifies this`place, this`background, this`numCheckpoints, this`masterFile, this`events,
        connector`notices, connector`lastNotify, connector`saves, connector`lastCheckpoint
      ensures Valid() && Now() == Fixed().Reached(old(Now()), Round(step))
    {
      ghost var start, plan := Now(), Fixed();
      RunOneStep(step);
      MovingWindowCheck(step + 1);
      plan.ReachedAppend(start, [Compute(step)], [Check(step + 1)]);
      DumpOneStep(step + 1);
      plan.ReachedAppend(start, [Compute(step)] + [Check(step + 1)], [Dump(step + 1)]);
      assert [Compute(step)] + [Check(step + 1)] + [Dump(step + 1)] == Round(step);
    }

    method MainLoop(first: nat)
      requires Valid()
      modifies this`place, this`background, this`numCheckpoints, this`masterFile, this`events,
        connector`notices, connector`lastNotify, connector`saves, connector`lastCheckpoint
      ensures Valid() && Now() == Fixed().Reached(old(Now()), Rounds(first, runSteps))
    {
      ghost var start, plan := Now(), Fixed();
      var step := first;
      while step < runSteps
        invariant first <= step && (step <= runSteps || step == first)
        invariant Valid() && Fixed() == plan && Now() == plan.Reached(start, Rounds(first, step))
      {
        RunRound(step);
        plan.ReachedRound(start, first, step);
        step := step + 1;
      }
    }

    method RunFrom(first: nat)
      requires Valid()
      modifies this`place, this`background, this`numCheckpoints, this`masterFile, this`events,
        connector`notices, connector`lastNotify, connector`saves, connector`lastCheckpoint
      ensures Valid() && Now() == Fixed().Reached(old(Now()), RunTrace(first, runSteps))
    {
      ghost var start := Now();
      var step := OpenRun(first);
      MainLoop(step);
      Fixed().ReachedAppend(start, Opening(first), Rounds(step, runSteps));
    }

    method StartSimulation(restartFile: Option<seq<string>>, saved: Patch) returns (ok: bool)
      requires Valid()
      modifies this`restartStep, this`place, this`background, this`numCheckpoints, this`masterFile, this`events,
        connector`notices, connector`lastNotify, connector`saves, connector`lastCheckpoint
      ensures Valid()
      ensures ok == FirstStep(hasInitialiser, restartRequested, old(restartStep), restartFile).Some?
      ensures !hasInitialiser || !restartRequested ==> ok && events == old(events) + FreshTrace(runSteps)
      ensures hasInitialiser && restartRequested && old(restartStep) >= 0 ==>
                ok && events == old(events) + RestartTrace(old(restartStep), runSteps)
      ensures hasInitialiser && restartRequested && old(restartStep) < 0 ==>
                (ok <==> restartFile.Some? && LastStep(restartFile.value) >= 0)
      ensures hasInitialiser && restartRequested && old(restartStep) < 0 && ok ==>
                events == old(events) + RestartTrace(LastStep(restartFile.value), runSteps)
      ensures ok ==>
        var first := FirstStep(hasInitialiser, restartRequested, old(restartStep), restartFile).value;
        Now() == Result(Fixed(), Fixed().Start(old(Now()), first, saved), RunTrace(first, runSteps))
    {
      var first := Init(restartFile, saved);
      if first.None? {
        return false;
      }
      assert Now() == Fixed().Start(old(Now()), first.value, saved);
      ReachedIsResult(Fixed(), Now(), RunTrace(first.value, runSteps));
      RunFrom(first.value);
      ok := true;
    }
  }

  // ----- whole runs

  /** The checkpoint calls of a run. */
  function SaveCalls(plan: Plan, trace: seq<Event>): seq<Call> {
    if plan.period == 0 then [] else Passes(WithPeriod(plan.plugins, plan.period), Dumped(trace))
  }

  lemma OneMoreDump(plan: Plan, trace: seq<Event>, e: Event)
    requires Periods(plan.notifications)
    ensures Dumped(trace + [e]) == if e.Dump? then Dumped(trace) + [e.step] else Dumped(trace)
    ensures Written(plan.period, trace + [e])
         == Written(plan.period, trace) + if e.Dump? && plan.Saves(e.step) then [e.step] else []
    ensures Passes(plan.notifications, Dumped(trace + [e]))
         == Passes(plan.notifications, Dumped(trace))
          + if e.Dump? then Pass(plan.notifications, |plan.notifications|, e.step) else []
    ensures SaveCalls(plan, trace + [e])
         == SaveCalls(plan, trace)
          + if e.Dump? && plan.Saves(e.step) then Pass(WithPeriod(plan.plugins, 1), |plan.plugins|, e.step) else []
  {
    assert (trace + [e])[..|trace|] == trace;
    if e.Dump? {
      assert (Dumped(trace) + [e.step])[..|Dumped(trace)|] == Dumped(trace);
      if plan.period > 0 {
        CommonPeriod(plan.plugins, plan.period, |plan.plugins|, e.step);
      }
    }
  }

  lemma {:induction false} ReachedField(plan: Plan, s: Snapshot, trace: seq<Event>)
    requires Periods(plan.notifications)
    ensures plan.Reached(s, trace).events == s.events + trace
    ensures plan.Reached(s, trace).patch == Through(plan.field, s.patch, trace)
  {
    if trace != [] {
      var before, e := trace[..|trace| - 1], trace[|trace| - 1];
      assert before + [e] == trace;
      ReachedField(plan, s, before);
    }
  }

  /** The checkpoint line of one event, if any. */
  function SaveStep(plan: Plan, e: Event): seq<nat> {
    if e.Dump? && plan.Saves(e.step) then [e.step] else []
  }

  lemma StepFile(plan: Plan, s: Snapshot, e: Event)
    requires Periods(plan.notifications)
    ensures plan.Step(s, e).masterFile == s.masterFile + if plan.globalRank == 0 then Lines(SaveStep(plan, e)) else []
    ensures plan.Step(s, e).numCheckpoints == s.numCheckpoints + |SaveStep(plan, e)|
  {
  }

  lemma LinesAppend(a: seq<nat>, b: seq<nat>)
    ensures Lines(a + b) == Lines(a) + Lines(b)
  {
  }

  lemma {:induction false} ReachedFile(plan: Plan, s: Snapshot, trace: seq<Event>)
    requires Periods(plan.notifications)
    ensures plan.Reached(s, trace).masterFile
         == s.masterFile + if plan.globalRank == 0 then Lines(Written(plan.period, trace)) else []
    ensures plan.Reached(s, trace).numCheckpoints == s.numCheckpoints + |Written(plan.period, trace)|
  {
    if trace == [] {
      assert Written(plan.period, trace) == [];
    } else {
      var before, e := trace[..|trace| - 1], trace[|trace| - 1];
      assert before + [e] == trace;
      ReachedFile(plan, s, before);
      StepFile(plan, plan.Reached(s, before), e);
      var lines := Written(plan.period, before);
      assert Written(plan.period, trace) == lines + SaveStep(plan, e) by {
        OneMoreDump(plan, before, e);
      }
      LinesAppend(lines, SaveStep(plan, e));
      Associative(s.masterFile, Lines(lines), Lines(SaveStep(plan, e)));
    }
  }

  /** The notifications of a run. */
  function NoticeCalls(plan: Plan, trace: seq<Event>): seq<Call>
    requires Periods(plan.notifications)
  {
    Passes(plan.notifications, Dumped(trace))
  }

  function NoticePass(plan: Plan, e: Event): seq<Call>
    requires Periods(plan.notifications)
  {
    if e.Dump? then Pass(plan.notifications, |plan.notifications|, e.step) else []
  }

  lemma StepNotices(plan: Plan, s: Snapshot, e: Event)
    requires Periods(plan.notifications)
    ensures plan.Step(s, e).notices == s.notices + NoticePass(plan, e)
  {
  }

  lemma {:induction false} ReachedNotices(plan: Plan, s: Snapshot, trace: seq<Event>)
    requires Periods(plan.notifications)
    ensures plan.Reached(s, trace).notices == s.notices + NoticeCalls(plan, trace)
  {
    if trace == [] {
      assert NoticeCalls(plan, trace) == [];
    } else {
      var before, e := trace[..|trace| - 1], trace[|trace| - 1];
      assert before + [e] == trace;
      ReachedNotices(plan, s, before);
      StepNotices(plan, plan.Reached(s, before), e);
      assert NoticeCalls(plan, trace) == NoticeCalls(plan, before) + NoticePass(plan, e) by {
        OneMoreDump(plan, before, e);
      }
      Associative(s.notices, NoticeCalls(plan, before), NoticePass(plan, e));
    }
  }

  function SavePass(plan: Plan, e: Event): seq<Call> {
    if e.Dump? && plan.Saves(e.step) then Pass(WithPeriod(plan.plugins, 1), |plan.plugins|, e.step) else []
  }

  lemma StepSaves(plan: Plan, s: Snapshot, e: Event)
    requires Periods(plan.notifications)
    ensures plan.Step(s, e).saves == s.saves + SavePass(plan, e)
  {
  }

  lemma {:induction false} ReachedSaves(plan: Plan, s: Snapshot, trace: seq<Event>)
    requires Periods(plan.notifications)
    ensures plan.Reached(s, trace).saves == s.saves + SaveCalls(plan, trace)
  {
    if trace == [] {
      assert SaveCalls(plan, trace) == [];
    } else {
      var before, e := trace[..|trace| - 1], trace[|trace| - 1];
      assert before + [e] == trace;
      ReachedSaves(plan, s, before);
      StepSaves(plan, plan.Reached(s, before), e);
      assert SaveCalls(plan, trace) == SaveCalls(plan, before) + SavePass(plan, e) by {
        OneMoreDump(plan, before, e);
      }
      Associative(s.saves, SaveCalls(plan, before), SavePass(plan, e));
    }
  }

  /** The state after any sequence of events, in closed form. */
  function Result(plan: Plan, s: Snapshot, trace: seq<Event>): Snapshot
    requires Periods(plan.notifications)
  {
    Snapshot(
      s.events + trace,
      Through(plan.field, s.patch, trace),
      s.masterFile + if plan.globalRank == 0 then Lines(Written(plan.period, trace)) else [],
      s.numCheckpoints + |Written(plan.period, trace)|,
      s.notices + NoticeCalls(plan, trace),
      s.saves + SaveCalls(plan, trace))
  }

  lemma ReachedIsResult(plan: Plan, s: Snapshot, trace: seq<Event>)
    requires Periods(plan.notifications)
    ensures plan.Reached(s, trace) == Result(plan, s, trace)
  {
    ReachedField(plan, s, trace);
    ReachedFile(plan, s, trace);
    ReachedNotices(plan, s, trace);
    ReachedSaves(plan, s, trace);
  }

  /** What a fresh run leaves on the master rank, on the other ranks, and without a checkpoint period. */
  lemma FreshRunFile(plan: Plan, s: Snapshot, runSteps: nat)
    requires Periods(plan.notifications)
    ensures plan.period > 0 && plan.globalRank == 0 ==>
              Result(plan, s, FreshTrace(runSteps)).masterFile == s.masterFile + Lines(Multiples(plan.period, runSteps))
    ensures plan.period == 0 || plan.globalRank > 0 ==>
              Result(plan, s, FreshTrace(runSteps)).masterFile == s.masterFile
    ensures plan.period > 0 ==>
              Result(plan, s, FreshTrace(runSteps)).numCheckpoints == s.numCheckpoints + runSteps / plan.period + 1
  {
    if plan.period > 0 {
      MasterFileLists(plan.period, runSteps);
      LastMultiple(plan.period, runSteps);
    }
  }

  /** What it asks of the plugins: each one registered once is asked at the multiples of its period, for notifications
      and for checkpoints alike. */
  lemma FreshRunCalls(plan: Plan, s: Snapshot, runSteps: nat, o: Plugin, k: nat)
    requires Periods(plan.notifications) && s.notices == [] && s.saves == []
    ensures OnlyEntry(plan.notifications, o, k) ==>
              StepsOf(o, Result(plan, s, FreshTrace(runSteps)).notices)
              == Multiples(plan.notifications[k].period, runSteps)
    ensures plan.period > 0 && OnlyEntry(WithPeriod(plan.plugins, plan.period), o, k) ==>
              StepsOf(o, Result(plan, s, FreshTrace(runSteps)).saves) == Multiples(plan.period, runSteps)
  {
    if OnlyEntry(plan.notifications, o, k) {
      NotifiedAtMultiples(plan.notifications, o, k, runSteps);
      EmptyPrefix(NoticeCalls(plan, FreshTrace(runSteps)));
    }
    if plan.period > 0 && OnlyEntry(WithPeriod(plan.plugins, plan.period), o, k) {
      NotifiedAtMultiples(WithPeriod(plan.plugins, plan.period), o, k, runSteps);
      EmptyPrefix(SaveCalls(plan, FreshTrace(runSteps)));
    }
  }

  lemma EmptyPrefix<T>(a: seq<T>)
    ensures [] + a == a
  {
  }

  /** A fresh run stopped after dumping step `stop`, restarted from there with the field as it was saved. */
  function Continued(plan: Plan, s: Snapshot, stop: nat, runSteps: nat): Snapshot
    requires Periods(plan.notifications)
  {
    var stopped := Result(plan, s, FreshTrace(stop));
    Result(plan, plan.Start(stopped, stop + 1, stopped.patch), RestartTrace(stop, runSteps))
  }

  /** Two traces run one after the other, with any background in between, against one that writes and calls the same. */
  lemma JoinedOutput(plan: Plan, s: Snapshot, x: Patch, a: seq<Event>, b: seq<Event>, whole: seq<Event>)
    requires Periods(plan.notifications)
    requires Lines(Written(plan.period, a)) + Lines(Written(plan.period, b)) == Lines(Written(plan.period, whole))
    requires NoticeCalls(plan, a) + NoticeCalls(plan, b) == NoticeCalls(plan, whole)
    requires SaveCalls(plan, a) + SaveCalls(plan, b) == SaveCalls(plan, whole)
    ensures SameOutput(Result(plan, Result(plan, s, a).(patch := x), b), Result(plan, s, whole))
  {
    Associative(s.notices, NoticeCalls(plan, a), NoticeCalls(plan, b));
    Associative(s.saves, SaveCalls(plan, a), SaveCalls(plan, b));
    Associative(s.masterFile, Lines(Written(plan.period, a)), Lines(Written(plan.period, b)));
  }

  lemma Associative<T>(a: seq<T>, b: seq<T>, c: seq<T>)
    ensures a + b + c == a + (b + c)
  {
  }

  ghost predicate SameOutput(a: Snapshot, b: Snapshot) {
    a.masterFile == b.masterFile && a.notices == b.notices && a.saves == b.saves
  }

  /** It leaves the master file and the plugin calls of an uninterrupted run. */
  lemma RestartKeepsOutput(plan: Plan, s: Snapshot, stop: nat, runSteps: nat)
    requires Periods(plan.notifications) && stop <= runSteps
    ensures SameOutput(Continued(plan, s, stop, runSteps), Result(plan, s, FreshTrace(runSteps)))
  {
    MasterFileSurvivesRestart(plan.period, stop, runSteps);
    NotificationsSurviveRestart(plan.notifications, stop, runSteps);
    SavesSurviveRestart(plan, stop, runSteps);
    var stopped := Result(plan, s, FreshTrace(stop));
    JoinedOutput(plan, s, Restarted(plan.field, stopped.patch, stop), FreshTrace(stop), RestartTrace(stop, runSteps),
                 FreshTrace(runSteps));
  }

  lemma SavesSurviveRestart(plan: Plan, stop: nat, runSteps: nat)
    requires stop <= runSteps
    ensures SaveCalls(plan, FreshTrace(stop)) + SaveCalls(plan, RestartTrace(stop, runSteps))
         == SaveCalls(plan, FreshTrace(runSteps))
  {
    if plan.period > 0 {
      NotificationsSurviveRestart(WithPeriod(plan.plugins, plan.period), stop, runSteps);
    }
  }

  lemma ContinuedFields(plan: Plan, s: Snapshot, x: Patch, a: seq<Event>, b: seq<Event>)
    requires Periods(plan.notifications)
    ensures Result(plan, Result(plan, s, a).(patch := x), b).events == s.events + a + b
    ensures Result(plan, Result(plan, s, a).(patch := x), b).patch == Through(plan.field, x, b)
  {
  }

  /** It takes the steps of an uninterrupted run, each once. */
  lemma RestartKeepsSteps(plan: Plan, s: Snapshot, stop: nat, runSteps: nat)
    requires Periods(plan.notifications) && stop <= runSteps && s.events == []
    ensures Computed(Continued(plan, s, stop, runSteps).events) == Range(0, runSteps)
    ensures Dumped(Continued(plan, s, stop, runSteps).events) == Range(0, runSteps + 1)
  {
    var first, second := FreshTrace(stop), RestartTrace(stop, runSteps);
    assert Continued(plan, s, stop, runSteps).events == first + second by {
      var x := Restarted(plan.field, Through(plan.field, s.patch, first), stop);
      ContinuedFields(plan, s, x, first, second);
      assert s.events + first == first;
    }
    RestartIsSeamless(stop, runSteps);
  }

  lemma ContinuedPatch(plan: Plan, s: Snapshot, stop: nat, runSteps: nat)
    requires Periods(plan.notifications)
    ensures Continued(plan, s, stop, runSteps).patch
         == Through(plan.field, Restarted(plan.field, Through(plan.field, s.patch, FreshTrace(stop)), stop),
                    RestartTrace(stop, runSteps))
  {
  }

  /** At the end the background is the last step's, and on top of it, unless the rank was reset in between, the
      difference between the saved background and the one that the restart removed. */
  lemma RestartShiftsBackground(plan: Plan, s: Snapshot, stop: nat, runSteps: nat)
    requires Periods(plan.notifications) && stop <= runSteps && s.patch.background == 0.0
    ensures var c := plan.field;
            var saved := Through(c, s.patch, FreshTrace(stop));
            var y := c.CellOf(saved.at);
            var y' := y + if c.slidesIn(stop + 1) then c.localY else 0;
            var leftover := if c.pushes then c.value(y, stop) - c.value(y', stop + 1) else 0.0;
            var reset := WasReset(c, Restarted(c, saved, stop).at, RestartTrace(stop, runSteps));
            var end := Continued(plan, s, stop, runSteps).patch;
            end.background == c.Pushed(end.at, runSteps) + if reset then 0.0 else leftover
  {
    var saved := Through(plan.field, s.patch, FreshTrace(stop));
    ContinuedPatch(plan, s, stop, runSteps);
    assert Ready(plan.field, saved, stop) by {
      FreshRunBackground(plan.field, s.patch, stop);
    }
    RestartRemoves(plan.field, saved, stop);
    RestartedRunEnds(plan.field, saved, stop, runSteps);
  }
}
