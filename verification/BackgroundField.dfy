/** The background field that `MySimulation` adds for the particle pusher and removes before the field solver runs, in
    one cell of one rank. It is evaluated at the physical place of the cell, which depends on the rank's row in the
    sliding grid and on the slide counter, and asking for the counter may change it. */
module BackgroundField {
  import opened Arith
  import opened CartTopology
  import opened CommunicatorMPI
  import opened MovingWindow
  import opened SlidingSimulation
  import opened RunLoop

  /** A rank's row in the sliding grid and its slide bookkeeping. */
  datatype Place = Place(row: int, slides: Slides)

  /** What is fixed: rows of the grid, rows of cells per GPU, the observed cell's row in its GPU, the steps that slide
      (none when the window is inactive), whether the pusher sees the background, and its value by physical row and
      step. */
  datatype Setting = Setting(
    rows: int, localY: int, cell: int, slidesIn: nat -> bool, pushes: bool, value: (int, nat) -> real)
  {
    ghost predicate Valid() {
      rows >= 1 && localY >= 1
    }

    /** `localDomain.offset.y + numSlides * localDomain.size.y`, and the cell behind it. */
    function CellOf(at: Place): int {
      at.row * localY + cell + at.slides.counter * localY
    }

    function Asked(at: Place, step: nat): Place {
      at.(slides := Ask(slidesIn(step), at.slides, step))
    }

    /** What one `CellwiseOperation` of a step adds or removes, and where it leaves the bookkeeping. */
    function Pushed(at: Place, step: nat): real {
      if pushes then value(CellOf(Asked(at, step)), step) else 0.0
    }

    function AfterPush(at: Place, step: nat): Place {
      if pushes then Asked(at, step) else at
    }

    predicate Resets(at: Place, step: nat) {
      slidesIn(step) && at.row == 0
    }

    function Slid(at: Place, step: nat): Place {
      var asked := Asked(at, step);
      if !slidesIn(step) then asked else asked.(row := if at.row == 0 then rows - 1 else at.row - 1)
    }
  }

  /** The observed cell: where it is, and the background part of its field value. */
  datatype Patch = Patch(at: Place, background: real)

  function After(c: Setting, s: Patch, e: Event): Patch {
    match e
    case Check(t) =>
      var at := c.Slid(s.at, t);
      Patch(c.AfterPush(at, t), (if c.Resets(s.at, t) then 0.0 else s.background) + c.Pushed(at, t))
    case Compute(t) => Patch(c.AfterPush(s.at, t), s.background - c.Pushed(s.at, t))
    case Dump(_) => s
  }

  function Through(c: Setting, s: Patch, trace: seq<Event>): Patch {
    if trace == [] then s else After(c, Through(c, s, trace[..|trace| - 1]), trace[|trace| - 1])
  }

  lemma {:induction false} ThroughAppend(c: Setting, s: Patch, a: seq<Event>, b: seq<Event>)
    ensures Through(c, s, a + b) == Through(c, Through(c, s, a), b)
  {
    if b == [] {
      assert a + b == a;
    } else {
      assert (a + b)[..|a + b| - 1] == a + b[..|b| - 1];
      ThroughAppend(c, s, a, b[..|b| - 1]);
    }
  }

  lemma ThroughOne(c: Setting, s: Patch, trace: seq<Event>, e: Event)
    ensures Through(c, s, trace + [e]) == After(c, Through(c, s, trace), e)
  {
    assert (trace + [e])[..|trace|] == trace;
  }

  // ----- the background is there when it should be

  /** The background of the step is present exactly once, and asking about the step again changes nothing. */
  ghost predicate Ready(c: Setting, s: Patch, step: nat) {
    s.background == (if c.pushes then c.value(c.CellOf(s.at), step) else 0.0) && c.Asked(s.at, step) == s.at
  }

  /** What the solver sees of the background after its removal, and what a dump shows. */
  ghost predicate CleanAt(c: Setting, start: Patch, trace: seq<Event>, j: nat)
    requires j < |trace|
  {
    match trace[j]
    case Check(_) => true
    case Compute(t) => After(c, Through(c, start, trace[..j]), trace[j]).background == 0.0
    case Dump(t) => Ready(c, Through(c, start, trace[..j]), t)
  }

  ghost predicate CleanTrace(c: Setting, start: Patch, trace: seq<Event>) {
    forall j :: 0 <= j < |trace| ==> CleanAt(c, start, trace, j)
  }

  lemma CleanExtend(c: Setting, start: Patch, trace: seq<Event>, e: Event)
    requires CleanTrace(c, start, trace)
    requires match e
             case Check(_) => true
             case Compute(t) => After(c, Through(c, start, trace), e).background == 0.0
             case Dump(t) => Ready(c, Through(c, start, trace), t)
    ensures CleanTrace(c, start, trace + [e])
  {
    forall j | 0 <= j < |trace + [e]|
      ensures CleanAt(c, start, trace + [e], j)
    {
      assert (trace + [e])[..j] == trace[..j];
      if j < |trace| {
        assert CleanAt(c, start, trace, j);
      } else {
        assert trace[..j] == trace;
      }
    }
  }

  /** A check on a field without background, or on a rank that is reset, leaves it ready. */
  lemma CheckMakesReady(c: Setting, s: Patch, step: nat)
    requires s.background == 0.0 || c.Resets(s.at, step)
    ensures Ready(c, After(c, s, Check(step)), step)
  {
  }

  lemma ComputeRemoves(c: Setting, s: Patch, step: nat)
    requires Ready(c, s, step)
    ensures After(c, s, Compute(step)) == Patch(s.at, 0.0)
  {
  }

  lemma CleanRound(c: Setting, start: Patch, trace: seq<Event>, step: nat)
    requires CleanTrace(c, start, trace) && Ready(c, Through(c, start, trace), step)
    ensures CleanTrace(c, start, trace + Round(step))
    ensures Ready(c, Through(c, start, trace + Round(step)), step + 1)
  {
    var s := Through(c, start, trace);
    var one := trace + [Compute(step)];
    var two := one + [Check(step + 1)];
    var three := two + [Dump(step + 1)];
    ThroughOne(c, start, trace, Compute(step));
    ThroughOne(c, start, one, Check(step + 1));
    ThroughOne(c, start, two, Dump(step + 1));
    ComputeRemoves(c, s, step);
    CheckMakesReady(c, Patch(s.at, 0.0), step + 1);
    CleanExtend(c, start, trace, Compute(step));
    CleanExtend(c, start, one, Check(step + 1));
    CleanExtend(c, start, two, Dump(step + 1));
    assert trace + Round(step) == three;
  }

  lemma RoundsNext(trace: seq<Event>, from: nat, to: nat)
    requires from < to
    ensures trace + Rounds(from, to) == trace + Rounds(from, to - 1) + Round(to - 1)
  {
  }

  lemma {:induction false} CleanRounds(c: Setting, start: Patch, trace: seq<Event>, from: nat, to: nat)
    requires from <= to && CleanTrace(c, start, trace) && Ready(c, Through(c, start, trace), from)
    ensures CleanTrace(c, start, trace + Rounds(from, to))
    ensures Ready(c, Through(c, start, trace + Rounds(from, to)), to)
  {
    if from == to {
      assert trace + Rounds(from, to) == trace;
    } else {
      CleanRounds(c, start, trace, from, to - 1);
      CleanRound(c, start, trace + Rounds(from, to - 1), to - 1);
      RoundsNext(trace, from, to);
    }
  }

  lemma FirstCheck(c: Setting, start: Patch, step: nat)
    ensures CleanTrace(c, start, [Check(step)]) && Through(c, start, [Check(step)]) == After(c, start, Check(step))
  {
    var none: seq<Event> := [];
    assert none + [Check(step)] == [Check(step)];
    CleanExtend(c, start, none, Check(step));
    ThroughOne(c, start, none, Check(step));
  }

  /** In a fresh run, slides and resets included, the background of step `t` is present exactly once at dump `t`, at the
      cell's place in that step, and absent whenever the solver runs. */
  lemma FreshRunBackground(c: Setting, start: Patch, runSteps: nat)
    requires start.background == 0.0
    ensures CleanTrace(c, start, FreshTrace(runSteps)) && Ready(c, Through(c, start, FreshTrace(runSteps)), runSteps)
  {
    FirstCheck(c, start, 0);
    CheckMakesReady(c, start, 0);
    CleanExtend(c, start, [Check(0)], Dump(0));
    ThroughOne(c, start, [Check(0)], Dump(0));
    assert [Check(0)] + [Dump(0)] == [Check(0), Dump(0)];
    CleanRounds(c, start, [Check(0), Dump(0)], 0, runSteps);
  }

  // ----- restart

  /** The loader restores row, counter and field, and marks the saved step as counted; `init` then removes the
      background of the step after it. */
  function Loaded(saved: Patch, step: nat): Patch {
    Patch(Place(saved.at.row, Slides(saved.at.slides.counter, step)), saved.background)
  }

  function Restarted(c: Setting, saved: Patch, step: nat): Patch {
    var s := Loaded(saved, step);
    Patch(c.AfterPush(s.at, step + 1), s.background - c.Pushed(s.at, step + 1))
  }

  /** What `init` removes: the next step's background, and one GPU too far on if that step slides. */
  lemma RestartRemoves(c: Setting, saved: Patch, step: nat)
    requires Ready(c, saved, step)
    ensures var y := c.CellOf(saved.at);
            var y' := y + if c.slidesIn(step + 1) then c.localY else 0;
            Restarted(c, saved, step).background == if c.pushes then c.value(y, step) - c.value(y', step + 1) else 0.0
  {
    var at := Loaded(saved, step).at;
    OneMoreSlide(at.slides.counter, c.localY);
  }

  lemma OneMoreSlide(counter: int, localY: int)
    ensures (counter + 1) * localY == counter * localY + localY
  {
  }

  /** After a restart the solver never sees background, and every dump shows it once, exactly when the pusher sees none,
      or the rank is reset by the repeated check, or the saved step's background equals what `init` removes. */
  lemma RestartBackgroundExact(c: Setting, saved: Patch, step: nat, runSteps: nat)
    requires step < runSteps && Ready(c, saved, step)
    ensures CleanTrace(c, Restarted(c, saved, step), RestartTrace(step, runSteps))
       <==> var y := c.CellOf(saved.at);
            || !c.pushes || c.Resets(saved.at, step)
            || c.value(y, step) == c.value(y + (if c.slidesIn(step + 1) then c.localY else 0), step + 1)
  {
    var start := Restarted(c, saved, step);
    RestartRemoves(c, saved, step);
    FirstCheck(c, start, step);
    if start.background == 0.0 || c.Resets(start.at, step) {
      CheckMakesReady(c, start, step);
      CleanRounds(c, start, [Check(step)], step, runSteps);
    } else {
      FirstStepUnclean(c, start, step, runSteps);
    }
  }

  lemma FirstStepUnclean(c: Setting, start: Patch, step: nat, runSteps: nat)
    requires step < runSteps && start.background != 0.0 && !c.Resets(start.at, step)
    ensures !CleanTrace(c, start, RestartTrace(step, runSteps))
  {
    var trace := RestartTrace(step, runSteps);
    FirstRound(step, runSteps);
    FirstCheck(c, start, step);
    assert trace[..1] == [Check(step)] && trace[1] == Compute(step);
    assert !CleanAt(c, start, trace, 1);
  }

  /** Two rows of two cells that slide in the even steps from step 2 on, with a background that is constant in time and
      rises along the grid. */
  const RISING := Setting(2, 2, 0, (s: nat) => s >= 2 && s % 2 == 0, true, (y: int, s: nat) => y as real)

  /** It slides as the window of a two-GPU setup does. */
  lemma RisingSlides(step: nat)
    ensures SHORT_ROWS.Valid() && RISING.rows == SHORT_ROWS.devicesY && RISING.localY == SHORT_ROWS.localY
    ensures InRange(SHORT_ROWS, step) ==> (RISING.slidesIn(step) <==> SlidesIn(SHORT_ROWS, step))
  {
    ShortRowsSlide(step);
  }

  /** Saved in step 1, just before a slide, even this background is left behind. */
  lemma SpatialLeftoverExists(runSteps: nat)
    requires 1 < runSteps
    ensures var saved := Through(RISING, Patch(Place(1, Slides(0, 0)), 0.0), FreshTrace(1));
            !CleanTrace(RISING, Restarted(RISING, saved, 1), RestartTrace(1, runSteps))
  {
    var start := Patch(Place(1, Slides(0, 0)), 0.0);
    FreshRunBackground(RISING, start, 1);
    RestartBackgroundExact(RISING, Through(RISING, start, FreshTrace(1)), 1, runSteps);
  }

  // ----- what happens to a leftover

  /** Does one of the checks of a trace reset the rank? */
  predicate WasReset(c: Setting, at: Place, trace: seq<Event>) {
    trace != []
    && var before, e := trace[..|trace| - 1], trace[|trace| - 1];
       WasReset(c, at, before) || (e.Check? && c.Resets(Through(c, Patch(at, 0.0), before).at, e.step))
  }

  /** A leftover changes no decision and stays in the field unchanged until the rank is reset. */
  lemma {:induction false} LeftoverStays(c: Setting, at: Place, leftover: real, trace: seq<Event>)
    ensures var clean := Through(c, Patch(at, 0.0), trace);
            var rest := if WasReset(c, at, trace) then 0.0 else leftover;
            Through(c, Patch(at, leftover), trace) == Patch(clean.at, clean.background + rest)
  {
    if trace != [] {
      LeftoverStays(c, at, leftover, trace[..|trace| - 1]);
    }
  }

  /** The background at the end of a restarted run: the last step's, plus the leftover unless the rank was reset. */
  lemma RestartedRunEnds(c: Setting, saved: Patch, step: nat, runSteps: nat)
    requires step <= runSteps
    ensures var start, trace := Restarted(c, saved, step), RestartTrace(step, runSteps);
            var end := Through(c, start, trace);
            var rest := if WasReset(c, start.at, trace) then 0.0 else start.background;
            end.background == c.Pushed(end.at, runSteps) + rest
  {
    var start, trace := Restarted(c, saved, step), RestartTrace(step, runSteps);
    var empty := Patch(start.at, 0.0);
    FirstCheck(c, empty, step);
    CheckMakesReady(c, empty, step);
    CleanRounds(c, empty, [Check(step)], step, runSteps);
    LeftoverStays(c, start.at, start.background, trace);
  }

  // ----- physical places

  /** Every row of cells of every row of GPUs has its own physical place, in the order of the grid. */
  lemma CellsAreApart(c: Setting, d: Setting, a: Place, b: Place)
    requires c.Valid() && c.localY == d.localY && 0 <= c.cell < c.localY && 0 <= d.cell < d.localY
    requires a.slides.counter == b.slides.counter
    ensures c.CellOf(a) < d.CellOf(b) <==> a.row < b.row || (a.row == b.row && c.cell < d.cell)
    ensures c.CellOf(a) - d.CellOf(b) == (a.row - b.row) * c.localY + (c.cell - d.cell)
  {
    MultipleGap(a.row - b.row, c.localY);
    assert (a.row - b.row) * c.localY == a.row * c.localY - b.row * c.localY;
  }

  /** In a step not yet counted, a slide leaves every cell where it is, except on the rank that is reset: its cells
      continue behind the end of the grid. */
  lemma SlideKeepsCell(c: Setting, at: Place, step: nat)
    requires at.slides.lastStep != step
    ensures c.CellOf(c.Slid(at, step)) == c.CellOf(at) + if c.Resets(at, step) then c.rows * c.localY else 0
  {
    OneMoreSlide(at.slides.counter, c.localY);
    OneMoreSlide(at.row - 1, c.localY);
    OneMoreSlide(c.rows - 1, c.localY);
  }

  /** In a fresh run no step is counted before it is checked. */
  lemma {:induction false} FreshCounting(c: Setting, start: Patch, step: nat)
    requires start.background == 0.0 && start.at.slides == Slides(0, 0)
    ensures Through(c, start, FreshTrace(step)).at.slides.lastStep <= step
  {
    if step == 0 {
      FirstCheck(c, start, 0);
      ThroughOne(c, start, [Check(0)], Dump(0));
      assert FreshTrace(0) == [Check(0)] + [Dump(0)];
    } else {
      FreshCounting(c, start, step - 1);
      FreshStep(c, start, step - 1);
    }
  }

  /** One more round of a fresh run. */
  lemma FreshStep(c: Setting, start: Patch, step: nat)
    requires start.background == 0.0
    ensures Through(c, start, FreshTrace(step + 1)).at == c.Slid(Through(c, start, FreshTrace(step)).at, step + 1)
  {
    var trace := FreshTrace(step);
    FreshRunBackground(c, start, step);
    var s := Through(c, start, trace);
    ComputeRemoves(c, s, step);
    ThroughOne(c, start, trace, Compute(step));
    ThroughOne(c, start, trace + [Compute(step)], Check(step + 1));
    ThroughOne(c, start, trace + [Compute(step)] + [Check(step + 1)], Dump(step + 1));
    assert FreshTrace(step + 1) == trace + [Compute(step)] + [Check(step + 1)] + [Dump(step + 1)];
  }

  /** In a fresh run a cell keeps its physical place from step to step, until its rank is reset. */
  lemma FreshCellStays(c: Setting, start: Patch, step: nat)
    requires start.background == 0.0 && start.at.slides == Slides(0, 0)
    ensures var before, after := Through(c, start, FreshTrace(step)).at, Through(c, start, FreshTrace(step + 1)).at;
            c.CellOf(after) == c.CellOf(before) + if c.Resets(before, step + 1) then c.rows * c.localY else 0
  {
    FreshCounting(c, start, step);
    FreshStep(c, start, step);
    SlideKeepsCell(c, Through(c, start, FreshTrace(step)).at, step + 1);
  }

  lemma SameCell(c: Setting, a: Place, b: Place)
    requires c.Valid()
    ensures c.CellOf(a) == c.CellOf(b) <==> a.row + a.slides.counter == b.row + b.slides.counter
  {
    var off := a.row + a.slides.counter - (b.row + b.slides.counter);
    assert c.CellOf(a) - c.CellOf(b) == off * c.localY;
    MultipleGap(off, c.localY);
  }

  /** The row and the counter after the first check of a restarted run. */
  lemma RestartedPlace(c: Setting, saved: Patch, step: nat)
    ensures var at := After(c, Restarted(c, saved, step), Check(step)).at;
            var early := c.pushes && c.slidesIn(step + 1);
            var lower := if saved.at.row == 0 then c.rows - 1 else saved.at.row - 1;
            && at.row == (if c.slidesIn(step) then lower else saved.at.row)
            && at.slides.counter == saved.at.slides.counter + if !early then 0 else if c.slidesIn(step) then 2 else 1
  {
  }

  /** A restarted rank evaluates its background at the saved place exactly when the saved step did not slide, and the
      next one does not, or no background made `init` ask about it. */
  lemma RestartedCellExact(c: Setting, saved: Patch, step: nat)
    requires c.Valid() && 0 <= saved.at.row < c.rows
    ensures c.CellOf(After(c, Restarted(c, saved, step), Check(step)).at) == c.CellOf(saved.at)
       <==> !(c.pushes && c.slidesIn(step + 1)) && (!c.slidesIn(step) || c.rows == 1)
  {
    RestartedPlace(c, saved, step);
    SameCell(c, After(c, Restarted(c, saved, step), Check(step)).at, saved.at);
  }

  /** The places of this model are those of the communicator and the window of a fresh run. */
  lemma {:induction false} FreshPlaceIsGpu(c: Setting, t: Topology, p: Schedule, extra: (int, nat) -> nat, rank: int,
                                           start: Patch, step: nat)
    requires t.Valid() && p.Valid() && InRange(p, step) && c.rows == t.dims.y
    requires forall s: nat :: s <= step ==> (c.slidesIn(s) <==> SlidesIn(p, s))
    requires start == Patch(Place(VirtualCoords(t, rank, 0).y, Slides(0, 0)), 0.0)
    ensures var gpu := FreshGpu(t, p, extra, rank, step + 1);
            Through(c, start, FreshTrace(step)).at == Place(gpu.grid.coords.y, gpu.slides)
  {
    var before := FreshGpu(t, p, extra, rank, step);
    QueriesAfterQuery(p, before.slides, step, extra(rank, step));
    if step == 0 {
      ExpectedSlidesStep(p, 0);
      FirstCheck(c, start, 0);
      ThroughOne(c, start, [Check(0)], Dump(0));
      assert FreshTrace(0) == [Check(0)] + [Dump(0)];
    } else {
      FreshPlaceIsGpu(c, t, p, extra, rank, start, step - 1);
      FreshStep(c, start, step - 1);
      FreshRunState(t, p, extra, rank, step - 1);
      OffsetClosedForm(t, 0, ExpectedSlides(p, step - 1));
      SlideLowersY(t, rank, before.grid.yoffset);
    }
  }

  /** And those of a restarted rank. */
  lemma RestartedPlaceIsGpu(c: Setting, t: Topology, p: Schedule, extra: (int, nat) -> nat, rank: int, start: Patch,
                            step: nat)
    requires t.Valid() && p.Valid() && InRange(p, step) && c.rows == t.dims.y
    requires forall s: nat :: s <= step + 1 ==> (c.slidesIn(s) <==> SlidesIn(p, s))
    requires start == Patch(Place(VirtualCoords(t, rank, 0).y, Slides(0, 0)), 0.0)
    ensures var gpu := RestartedGpu(t, p, c.pushes, rank, step);
            var saved := Through(c, start, FreshTrace(step));
            After(c, Restarted(c, saved, step), Check(step)).at == Place(gpu.grid.coords.y, gpu.slides)
  {
    FreshPlaceIsGpu(c, t, p, extra, rank, start, step);
    FreshRunState(t, p, extra, rank, step);
    OffsetClosedForm(t, 0, ExpectedSlides(p, step));
    SlideLowersY(t, rank, OffsetAfter(t, 0, ExpectedSlides(p, step)));
  }
}
