/** The communicator and the moving window driven together by `MySimulation::movingWindowCheck` on every rank. */
module SlidingSimulation {
  import opened CartTopology
  import opened CommunicatorMPI
  import opened MovingWindow

  /** What one rank keeps about the sliding grid and about the window. */
  datatype Gpu = Gpu(grid: RankState, slides: Slides)

  /** One step on one rank: the check at the start of the step slides the grid if the window says so; later in the
      same step plugins and kernels may ask again. The rank decides from its own state alone. */
  function StepOf(t: Topology, p: Schedule, rank: int, step: nat, extraQueries: nat, gpu: Gpu): Gpu
    requires t.Valid() && p.Valid()
  {
    Gpu(if SlidesIn(p, step) then SlideState(t, rank, gpu.grid) else gpu.grid,
        Queries(p, Query(p, gpu.slides, step), step, extraQueries))
  }

  /** A rank of a fresh run after `steps` steps; `extra(rank, step)` counts the additional queries. */
  function FreshGpu(t: Topology, p: Schedule, extra: (int, nat) -> nat, rank: int, steps: nat): Gpu
    requires t.Valid() && p.Valid()
  {
    if steps == 0 then Gpu(StateAt(t, rank, 0), Slides(0, 0))
    else StepOf(t, p, rank, steps - 1, extra(rank, steps - 1), FreshGpu(t, p, extra, rank, steps - 1))
  }

  lemma QueriesAfterQuery(p: Schedule, st: Slides, step: nat, times: nat)
    requires p.Valid()
    ensures Queries(p, Query(p, st, step), step, times) == Query(p, st, step)
  {
    if times > 0 {
      RepeatedQueries(p, Query(p, st, step), step, times);
    }
  }

  /** Every rank of a fresh run has counted the expected slides and stands where that many common slides put it. */
  lemma {:induction false} FreshRunState(t: Topology, p: Schedule, extra: (int, nat) -> nat, rank: int, step: nat)
    requires t.Valid() && p.Valid() && InRange(p, step)
    ensures var gpu := FreshGpu(t, p, extra, rank, step + 1);
            && gpu.slides.counter == ExpectedSlides(p, step)
            && gpu.slides.lastStep <= step
            && gpu.grid == StateAt(t, rank, OffsetAfter(t, 0, ExpectedSlides(p, step)))
  {
    ExpectedSlidesStep(p, step);
    var before := FreshGpu(t, p, extra, rank, step);
    QueriesAfterQuery(p, before.slides, step, extra(rank, step));
    if step > 0 {
      FreshRunState(t, p, extra, rank, step - 1);
    }
  }

  /** Slide bookkeeping: at every step the communicator's offset is minus the slide counter, modulo the rows. */
  lemma OffsetFollowsCounter(t: Topology, p: Schedule, extra: (int, nat) -> nat, rank: int, step: nat)
    requires t.Valid() && p.Valid() && InRange(p, step) && 0 <= rank < t.Size()
    ensures var gpu := FreshGpu(t, p, extra, rank, step + 1);
            && gpu.slides.counter == ExpectedSlides(p, step)
            && gpu.grid.yoffset == -(gpu.slides.counter % t.dims.y)
            && |WorldAfter(t, gpu.slides.counter)| == t.Size()
            && gpu.grid == WorldAfter(t, gpu.slides.counter)[rank]
  {
    FreshRunState(t, p, extra, rank, step);
    OffsetClosedForm(t, 0, ExpectedSlides(p, step));
    WorldIsUniform(t, ExpectedSlides(p, step));
  }

  // ----- the windows of a column of ranks

  /** The local window a rank computes from its own mask and place. */
  function LocalWindow(p: Schedule, step: nat, gpu: Gpu): Window
    requires p.Valid()
  {
    WindowByMask(p, step, TOP in gpu.grid.mask, BOTTOM in gpu.grid.mask, gpu.grid.coords.y * p.localY)
  }

  lemma MaskTellsBorders(t: Topology, rank: int, yoffset: int)
    requires t.Valid() && !t.periodicY && 0 <= rank < t.Size()
    ensures var st := StateAt(t, rank, yoffset);
            && (TOP in st.mask <==> st.coords.y != 0)
            && (BOTTOM in st.mask <==> st.coords.y != t.dims.y - 1)
  {
    var v := VirtualCoords(t, rank, yoffset);
    VirtualGridIsBijective(t, yoffset, rank, v);
    VirtualGridIsBijective(t, yoffset, rank, StepFrom(t, v, TOP));
    VirtualGridIsBijective(t, yoffset, rank, StepFrom(t, v, BOTTOM));
    assert 9 <= t.Directions();
  }

  lemma LocalWindowByRow(t: Topology, p: Schedule, step: nat, rank: int, yoffset: int, slides: Slides)
    requires t.Valid() && p.Valid() && !t.periodicY && 0 <= rank < t.Size() && p.devicesY == t.dims.y
    ensures var gpu := Gpu(StateAt(t, rank, yoffset), slides);
            LocalWindow(p, step, gpu) == WindowOf(p, step, gpu.grid.coords.y)
  {
    MaskTellsBorders(t, rank, yoffset);
  }

  /** The rank of column (x, z) that shows a cell of the global window in a given step. */
  function ShowingRank(t: Topology, p: Schedule, step: nat, x: int, z: int, cell: int): int
    requires t.Valid() && p.Valid() && InRange(p, step)
  {
    RankAt(t, OffsetAfter(t, 0, ExpectedSlides(p, step)), Coord(x, ShowingRow(p, step, cell), z))
  }

  /** Rank `r` stands in column (x, z) and its own local window contains the cell. */
  ghost predicate ShowsCell(t: Topology, p: Schedule, extra: (int, nat) -> nat, r: int, step: nat, x: int, z: int,
                            cell: int)
    requires t.Valid() && p.Valid()
  {
    var gpu := FreshGpu(t, p, extra, r, step + 1);
    gpu.grid.coords.x == x && gpu.grid.coords.z == z && Shows(LocalWindow(p, step, gpu), cell)
  }

  /** At every step of a fresh run, in every column of ranks, every cell of the global window is shown by exactly one
      rank, although all ranks work from their own state and have changed places at every slide. */
  lemma ColumnShowsEachCellOnce(t: Topology, p: Schedule, extra: (int, nat) -> nat, step: nat, x: int, z: int,
                                cell: int)
    requires t.Valid() && !t.periodicY && p.Valid() && InRange(p, step)
    requires p.devicesY == t.dims.y >= 2 && p.windowY == p.localY * (p.devicesY - 1)
    requires 0 <= x < t.dims.x && 0 <= z < t.dims.z && 0 <= cell < p.windowY
    ensures var owner := ShowingRank(t, p, step, x, z, cell);
            && 0 <= owner < t.Size()
            && forall r :: 0 <= r < t.Size() ==> (ShowsCell(t, p, extra, r, step, x, z, cell) <==> r == owner)
  {
    EachCellShownOnce(p, step, cell);
    var row := ShowingRow(p, step, cell);
    var yoffset := OffsetAfter(t, 0, ExpectedSlides(p, step));
    var place := Coord(x, row, z);
    VirtualGridIsBijective(t, yoffset, 0, place);
    var owner := ShowingRank(t, p, step, x, z, cell);
    forall r | 0 <= r < t.Size()
      ensures ShowsCell(t, p, extra, r, step, x, z, cell) <==> r == owner
    {
      FreshRunState(t, p, extra, r, step);
      var gpu := FreshGpu(t, p, extra, r, step + 1);
      LocalWindowByRow(t, p, step, r, yoffset, gpu.slides);
      VirtualGridIsBijective(t, yoffset, r, place);
      assert Shows(LocalWindow(p, step, gpu), cell) <==> gpu.grid.coords.y == row;
    }
  }

  // ----- restart

  /** A rank as the loader leaves it and as `init` changes it: counter and grid are those saved with `step`; to remove
      a background that the pusher sees, `init` asks the window about the step after it. */
  function LoadedGpu(t: Topology, p: Schedule, pushesBackground: bool, rank: int, step: nat): Gpu
    requires t.Valid() && p.Valid()
  {
    var saved := ExpectedSlides(p, step);
    var loaded := Slides(saved, step);
    Gpu(StateAt(t, rank, OffsetAfter(t, 0, saved)), if pushesBackground then Query(p, loaded, step + 1) else loaded)
  }

  /** The run loop then checks the window for the saved step again. */
  function RestartedGpu(t: Topology, p: Schedule, pushesBackground: bool, rank: int, step: nat): Gpu
    requires t.Valid() && p.Valid()
  {
    StepOf(t, p, rank, step, 0, LoadedGpu(t, p, pushesBackground, rank, step))
  }

  /** The restarted rank counts as the checkpointed one did exactly when it pushes no background or the next step does
      not slide, and stands where that one stood exactly when the saved step did not slide. */
  lemma RestartContinuesExactly(t: Topology, p: Schedule, pushesBackground: bool, extra: (int, nat) -> nat, rank: int,
                                step: nat)
    requires t.Valid() && p.Valid() && InRange(p, step)
    ensures var fresh' := FreshGpu(t, p, extra, rank, step + 1);
            var restarted := RestartedGpu(t, p, pushesBackground, rank, step);
            && (restarted.slides.counter == fresh'.slides.counter <==> !(pushesBackground && SlidesIn(p, step + 1)))
            && (restarted.grid == fresh'.grid <==> !SlidesIn(p, step) || t.dims.y == 1)
  {
    FreshRunState(t, p, extra, rank, step);
    OffsetClosedForm(t, 0, ExpectedSlides(p, step));
  }

  /** The restarted run goes on: the rank after step `s >= step`. */
  function RestartedRun(t: Topology, p: Schedule, pushesBackground: bool, extra: (int, nat) -> nat, rank: int,
                        step: nat, s: nat): Gpu
    requires t.Valid() && p.Valid() && step <= s
    decreases s
  {
    if s == step then RestartedGpu(t, p, pushesBackground, rank, step)
    else StepOf(t, p, rank, s, extra(rank, s), RestartedRun(t, p, pushesBackground, extra, rank, step, s - 1))
  }

  /** In every later step the early count is made good, unless the saved step and the next one both slide: then the
      counter stays too large by two. The grid stays one slide ahead if the saved step slid. */
  lemma {:induction false} RestartedRunState(t: Topology, p: Schedule, pushesBackground: bool, extra: (int, nat) -> nat,
                                             rank: int, step: nat, s: nat)
    requires t.Valid() && p.Valid() && step < s && InRange(p, s)
    ensures var gpu := RestartedRun(t, p, pushesBackground, extra, rank, step, s);
            var ahead := if SlidesIn(p, step) then 1 else 0;
            var twice := pushesBackground && SlidesIn(p, step) && SlidesIn(p, step + 1);
            && gpu.slides.counter == ExpectedSlides(p, s) + (if twice then 2 else 0)
            && gpu.slides.lastStep <= s
            && gpu.grid == StateAt(t, rank, OffsetAfter(t, 0, ExpectedSlides(p, s) + ahead))
  {
    ExpectedSlidesStep(p, s);
    var before := RestartedRun(t, p, pushesBackground, extra, rank, step, s - 1);
    QueriesAfterQuery(p, before.slides, s, extra(rank, s));
    if s > step + 1 {
      RestartedRunState(t, p, pushesBackground, extra, rank, step, s - 1);
    }
  }

  /** Whether a restarted run ever stands and counts as the uninterrupted one, at any step after the saved one. */
  lemma RestartedRunExact(t: Topology, p: Schedule, pushesBackground: bool, extra: (int, nat) -> nat, rank: int,
                          step: nat, s: nat)
    requires t.Valid() && p.Valid() && step < s && InRange(p, s)
    ensures var fresh' := FreshGpu(t, p, extra, rank, s + 1);
            var restarted := RestartedRun(t, p, pushesBackground, extra, rank, step, s);
            && (restarted.slides.counter == fresh'.slides.counter
                <==> !(pushesBackground && SlidesIn(p, step) && SlidesIn(p, step + 1)))
            && (restarted.grid == fresh'.grid <==> !SlidesIn(p, step) || t.dims.y == 1)
  {
    RestartedRunState(t, p, pushesBackground, extra, rank, step, s);
    FreshRunState(t, p, extra, rank, s);
    OffsetClosedForm(t, 0, ExpectedSlides(p, s));
    NextOffsetDiffers(t, OffsetAfter(t, 0, ExpectedSlides(p, s)));
  }

  lemma NextOffsetDiffers(t: Topology, yoffset: int)
    requires t.Valid() && GoodOffset(t, yoffset)
    ensures GoodOffset(t, NextOffset(t, yoffset)) && (NextOffset(t, yoffset) == yoffset <==> t.dims.y == 1)
  {
  }

  /** Two rows of two cells at one cell per step: the window slides in the even steps from step 2 on. */
  const SHORT_ROWS := Schedule(2, 2, 2, 2, 0.0, 2, 1.0)

  lemma ShortRowsSlide(step: nat)
    ensures SHORT_ROWS == ScheduleOf(Setup(2, 2, 4, 1.0, 1.0, 0.0)) && SHORT_ROWS.Valid()
    ensures InRange(SHORT_ROWS, step) ==> (SlidesIn(SHORT_ROWS, step) <==> step >= 2 && step % 2 == 0)
  {
    assert SHORT_ROWS.Valid();
    if InRange(SHORT_ROWS, step) {
      FirstSteps(SHORT_ROWS, step);
    }
  }

  /** A restart from a slide step leaves every rank one row away from its place. */
  lemma DoubleSlideExists(t: Topology, pushesBackground: bool, extra: (int, nat) -> nat, rank: int)
    requires t.Valid() && t.dims.y == 2
    ensures SHORT_ROWS.Valid()
    ensures RestartedGpu(t, SHORT_ROWS, pushesBackground, rank, 2).grid != FreshGpu(t, SHORT_ROWS, extra, rank, 3).grid
  {
    ShortRowsSlide(2);
    RestartContinuesExactly(t, SHORT_ROWS, pushesBackground, extra, rank, 2);
  }

  /** A restart from the step before a slide, with a background for the pusher, counts that slide too early. */
  lemma EarlyCountExists(t: Topology, extra: (int, nat) -> nat, rank: int)
    requires t.Valid() && t.dims.y == 2
    ensures SHORT_ROWS.Valid()
    ensures RestartedGpu(t, SHORT_ROWS, true, rank, 1).slides.counter
         == FreshGpu(t, SHORT_ROWS, extra, rank, 2).slides.counter + 1
  {
    ShortRowsSlide(1);
    ShortRowsSlide(2);
    FreshRunState(t, SHORT_ROWS, extra, rank, 1);
  }

  // ----- the driver

  /** The slide part of a restart: the loader sets counter and grid, and `init` asks about the next step if the pusher
      sees a background. On a fresh communicator and with the saved counter this leaves `LoadedGpu`. */
  method RestoreSlides(window: Tracker, comm: Communicator, slides: nat, restartStep: nat, pushesBackground: bool)
    requires window.Valid() && comm.Valid() && comm.yoffset == 0
    modifies window`slideCounter, window`lastSlideStep
    modifies comm`yoffset, comm`coordinates, comm`communicationMask, comm.ranks
    ensures comm.Valid()
    ensures var p := ScheduleOf(window.setup);
            window.slidingWindowActive && slides == ExpectedSlides(p, restartStep) ==>
              var gpu := LoadedGpu(comm.topology, p, pushesBackground, comm.rank, restartStep);
              comm.Holds(gpu.grid) && window.State() == gpu.slides
    ensures !window.slidingWindowActive ==> window.State() == Slides(slides, restartStep) && comm.yoffset == 0
  {
    window.SetSlideCounter(slides, restartStep);
    if window.slidingWindowActive {
      var moved := comm.SetStateAfterSlides(slides);
    }
    if pushesBackground {
      var counted := window.GetSlideCounter(restartStep + 1);
    }
  }

  /** `resetAll` on a field: every cell becomes zero. */
  method ResetField(field: array<real>)
    modifies field
    ensures forall i :: 0 <= i < field.Length ==> field[i] == 0.0
  {
    var i := 0;
    while i < field.Length
      invariant 0 <= i <= field.Length && forall j :: 0 <= j < i ==> field[j] == 0.0
    {
      field[i] := 0.0;
      i := i + 1;
    }
  }

  /** `MySimulation::movingWindowCheck` and `slide`, without the particles: the rank that is moved to the far end clears
      its fields, all others keep them. */
  method MovingWindowCheck(window: Tracker, comm: Communicator, fieldE: array<real>, fieldB: array<real>,
                           currentStep: nat) returns (reset: bool)
    requires window.Valid() && comm.Valid()
    modifies window`slideCounter, window`lastSlideStep, fieldE, fieldB
    modifies comm`yoffset, comm`coordinates, comm`communicationMask, comm.ranks
    ensures comm.Valid()
    ensures window.slidingWindowActive ==>
              var p := ScheduleOf(window.setup);
              && window.State() == Query(p, old(window.State()), currentStep)
              && comm.yoffset == (if SlidesIn(p, currentStep) then NextOffset(comm.topology, old(comm.yoffset))
                                  else old(comm.yoffset))
              && (reset <==> SlidesIn(p, currentStep) && old(comm.coordinates.y) == 0)
    ensures !window.slidingWindowActive ==> !reset && comm.yoffset == old(comm.yoffset)
    ensures reset ==>
              && (forall i :: 0 <= i < fieldE.Length ==> fieldE[i] == 0.0)
              && (forall i :: 0 <= i < fieldB.Length ==> fieldB[i] == 0.0)
    ensures !reset ==> fieldE[..] == old(fieldE[..]) && fieldB[..] == old(fieldB[..])
  {
    reset := false;
    var doSlide := window.SlideInCurrentStep(currentStep);
    if doSlide {
      reset := comm.Slide();
      if reset {
        ResetField(fieldB);
        ResetField(fieldE);
      }
    }
  }
}
