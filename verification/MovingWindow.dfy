/** `MovingWindow`: step arithmetic that decides when the grid slides and which part of the domain every GPU shows.
    Doubles are reals; the `uint32_t` subtractions keep their wrap-around. */
module MovingWindow {
  import opened Arith

  /** The values `getCurrentSlideInfo` reads from the sub-grid, the grid controller and the parameter files. */
  datatype Setup = Setup(
    localY: int, devicesY: int, globalY: int, cellHeight: real, lightWayPerStep: real, slidePoint: real)
  {
    ghost predicate Valid() {
      && localY >= 1 && devicesY >= 1 && globalY >= localY
      && cellHeight > 0.0 && lightWayPerStep > 0.0 && slidePoint <= 1.0
    }

    function FutureSteps(): real
      requires lightWayPerStep > 0.0
    {
      (globalY - localY) as real * cellHeight / lightWayPerStep * (1.0 - slidePoint)
    }

    function StepsAcrossGPU(): real
      requires lightWayPerStep > 0.0
    {
      localY as real * cellHeight / lightWayPerStep
    }
  }

  /** What the step arithmetic derives from a setup. */
  datatype Schedule = Schedule(
    localY: int, devicesY: int, windowY: int,
    stepsInFuture: int,   // steps by which light is ahead of the window's end
    afterComma: real,     // rounding fraction of `stepsInFuture`
    stepsPerGPU: int,     // steps light needs to cross one GPU, rounded
    cellsPerStep: real)   // cells light crosses in one step
  {
    ghost predicate Valid() {
      && localY >= 1 && devicesY >= 1 && windowY >= 0
      && cellsPerStep > 0.0 && -1.0 < afterComma <= 0.0
      && localY as real - 0.5 * cellsPerStep < stepsPerGPU as real * cellsPerStep <= localY as real + 0.5 * cellsPerStep
      && Representable()
    }

    /** The conversions to `uint32_t` are defined and the step remainder has a non-zero divisor. */
    predicate Representable() {
      0 <= stepsInFuture < U32_RANGE && 1 <= stepsPerGPU && stepsPerGPU * devicesY < U32_RANGE
    }

    function FirstSlideStep(): int {
      U32(stepsPerGPU * devicesY - stepsInFuture)
    }

    function FirstMoveStep(): int {
      U32(stepsPerGPU * (devicesY - 1) - stepsInFuture)
    }
  }

  function ScheduleOf(g: Setup): Schedule
    requires g.Valid()
  {
    Schedule(g.localY, g.devicesY, g.globalY - g.localY,
             Ceil(g.FutureSteps()), g.FutureSteps() - Ceil(g.FutureSteps()) as real,
             (g.StepsAcrossGPU() + 0.5).Floor, g.lightWayPerStep / g.cellHeight)
  }

  lemma DivThenMul(x: real, h: real, l: real)
    requires h > 0.0 && l > 0.0
    ensures x * h / l * (l / h) == x
  {
    assert x * h / l * (l / h) == x * h * (l / h) / l;
    assert x * h * (l / h) == x * (h * (l / h));
    assert h * (l / h) == l;
  }

  lemma MulStrict(x: real, y: real, a: real)
    requires x < y && a > 0.0
    ensures x * a < y * a
  {
  }

  lemma MulWeak(x: real, y: real, a: real)
    requires x <= y && a >= 0.0
    ensures x * a <= y * a
  {
  }

  /** Light crosses a GPU in `stepsPerGPU` steps, up to half a step. */
  lemma ScheduleIsValid(g: Setup)
    requires g.Valid() && ScheduleOf(g).Representable()
    ensures ScheduleOf(g).Valid()
  {
    var p := ScheduleOf(g);
    var a, q, s := p.cellsPerStep, g.StepsAcrossGPU(), p.stepsPerGPU as real;
    DivThenMul(g.localY as real, g.cellHeight, g.lightWayPerStep);
    assert s - 0.5 <= q < s + 0.5;
    MulStrict(q - 0.5, s, a);
    MulWeak(s, q + 0.5, a);
  }

  function StepsInLastGPU(p: Schedule, step: nat): int
    requires p.Valid()
  {
    U32(step + p.stepsInFuture) % p.stepsPerGPU
  }

  predicate SlidesIn(p: Schedule, step: nat)
    requires p.Valid()
  {
    p.FirstMoveStep() <= step && p.FirstSlideStep() <= step && StepsInLastGPU(p, step) == 0
  }

  /** `offsetFirstGPU` of an active window. */
  function WindowOffset(p: Schedule, step: nat): int
    requires p.Valid()
  {
    if p.FirstMoveStep() <= step then
      Rounded(p.cellsPerStep, p.afterComma, StepsInLastGPU(p, step))
    else
      0
  }

  // ----- slide bookkeeping

  datatype Slides = Slides(counter: nat, lastStep: nat)

  /** A query in a step that slides (or does not): it is counted unless the last counted one was for the same step. */
  function Ask(slides: bool, st: Slides, step: nat): Slides {
    if slides && st.lastStep != step then Slides(st.counter + 1, step) else st
  }

  function Query(p: Schedule, st: Slides, step: nat): Slides
    requires p.Valid()
  {
    Ask(SlidesIn(p, step), st, step)
  }

  function Queries(p: Schedule, st: Slides, step: nat, times: nat): Slides
    requires p.Valid()
  {
    if times == 0 then st else Query(p, Queries(p, st, step, times - 1), step)
  }

  /** A fresh run: in every step the window is asked once by `movingWindowCheck` and `extra[step]` more times by
      plugins and kernels. */
  function FreshRun(p: Schedule, extra: seq<nat>): Slides
    requires p.Valid()
    decreases |extra|
  {
    if extra == [] then Slides(0, 0)
    else
      var step := |extra| - 1;
      Queries(p, FreshRun(p, extra[..step]), step, 1 + extra[step])
  }

  /** The number of whole GPU widths light has travelled past the last GPU of the window. */
  function SlideFormula(p: Schedule, step: nat): nat
    requires p.Valid()
  {
    var n := (step + p.stepsInFuture) / p.stepsPerGPU - (p.devicesY - 1);
    if n <= 0 then 0 else n
  }

  /** What the counter really shows. */
  function ExpectedSlides(p: Schedule, step: nat): nat
    requires p.Valid()
  {
    if WindowFrozen(p) then 0 else SlideFormula(p, step)
  }

  /** The subtraction for the first moving step wraps around: the window never starts. */
  predicate WindowFrozen(p: Schedule)
    requires p.Valid()
  {
    p.stepsInFuture > p.stepsPerGPU * (p.devicesY - 1)
  }

  predicate InRange(p: Schedule, step: nat)
    requires p.Valid()
  {
    step + p.stepsInFuture < U32_RANGE
  }

  lemma U32Small(x: int)
    requires 0 <= x < U32_RANGE
    ensures U32(x) == x
  {
  }

  /** The wrapped step numbers, without the wrap. */
  lemma FirstSteps(p: Schedule, step: nat)
    requires p.Valid() && InRange(p, step)
    ensures WindowFrozen(p) ==> step < p.FirstMoveStep()
    ensures !WindowFrozen(p) ==>
              && p.FirstMoveStep() == p.stepsPerGPU * (p.devicesY - 1) - p.stepsInFuture
              && p.FirstSlideStep() == p.stepsPerGPU * p.devicesY - p.stepsInFuture
    ensures StepsInLastGPU(p, step) == (step + p.stepsInFuture) % p.stepsPerGPU
  {
    var s, n, f := p.stepsPerGPU, p.devicesY, p.stepsInFuture;
    assert s * (n - 1) == s * n - s;
    U32Small(step + f);
    assert s * (n - 1) >= 0;
    if WindowFrozen(p) {
      U32Small(s * (n - 1) - f + U32_RANGE);
    } else {
      U32Small(s * (n - 1) - f);
      U32Small(s * n - f);
    }
  }

  lemma QuotientAtLeast(x: int, s: int, n: int)
    requires s > 0
    ensures x / s >= n <==> x >= s * n
  {
    assert x == s * (x / s) + x % s;
    MultipleGap(x / s - n + 1, s);
    MultipleGap(x / s - n, s);
    assert (x / s - n + 1) * s == x / s * s - n * s + s;
    assert (x / s - n) * s == x / s * s - n * s;
    assert s * n == n * s;
    if x / s == n {
      assert x / s * s == n * s;
    }
  }

  lemma SlidesAtFullTurns(p: Schedule, step: nat)
    requires p.Valid() && InRange(p, step)
    ensures SlidesIn(p, step) <==>
              && !WindowFrozen(p)
              && (step + p.stepsInFuture) / p.stepsPerGPU >= p.devicesY
              && (step + p.stepsInFuture) % p.stepsPerGPU == 0
  {
    FirstSteps(p, step);
    QuotientAtLeast(step + p.stepsInFuture, p.stepsPerGPU, p.devicesY);
    assert p.stepsPerGPU * (p.devicesY - 1) == p.stepsPerGPU * p.devicesY - p.stepsPerGPU;
  }

  lemma NoSlideAtStart(p: Schedule)
    requires p.Valid() && !WindowFrozen(p)
    ensures p.stepsInFuture / p.stepsPerGPU < p.devicesY
  {
    QuotientAtLeast(p.stepsInFuture, p.stepsPerGPU, p.devicesY);
    assert p.stepsPerGPU * (p.devicesY - 1) == p.stepsPerGPU * p.devicesY - p.stepsPerGPU;
  }

  lemma QuotientStep(x: int, s: int)
    requires s > 0 && x >= 1
    ensures x / s == (x - 1) / s + if x % s == 0 then 1 else 0
  {
    DivModStep(x - 1, s);
  }

  /** The expected counter grows by one exactly in the steps in which the code slides. */
  lemma ExpectedSlidesStep(p: Schedule, step: nat)
    requires p.Valid() && InRange(p, step)
    ensures step == 0 ==> ExpectedSlides(p, 0) == 0 && !SlidesIn(p, 0)
    ensures step > 0 ==> ExpectedSlides(p, step) == ExpectedSlides(p, step - 1) + if SlidesIn(p, step) then 1 else 0
  {
    SlidesAtFullTurns(p, step);
    if step == 0 {
      if !WindowFrozen(p) {
        NoSlideAtStart(p);
      }
    } else {
      QuotientStep(step + p.stepsInFuture, p.stepsPerGPU);
    }
  }

  lemma {:induction false} RepeatedQueries(p: Schedule, st: Slides, step: nat, times: nat)
    requires p.Valid() && times > 0
    ensures Queries(p, st, step, times) == Query(p, st, step)
  {
    if times == 1 {
      assert Queries(p, st, step, 0) == st;
    } else {
      RepeatedQueries(p, st, step, times - 1);
    }
  }

  /** Slide bookkeeping of a whole fresh run, whatever the number of queries in every step. */
  lemma {:induction false} FreshRunCountsSlides(p: Schedule, extra: seq<nat>)
    requires p.Valid() && |extra| > 0 && InRange(p, |extra| - 1)
    ensures FreshRun(p, extra).counter == ExpectedSlides(p, |extra| - 1)
    ensures FreshRun(p, extra).lastStep < |extra|
    ensures SlidesIn(p, |extra| - 1) ==> FreshRun(p, extra).lastStep == |extra| - 1
  {
    var step := |extra| - 1;
    ExpectedSlidesStep(p, step);
    RepeatedQueries(p, FreshRun(p, extra[..step]), step, 1 + extra[step]);
    if step > 0 {
      FreshRunCountsSlides(p, extra[..step]);
    }
  }

  lemma {:induction false} FormulaGrows(p: Schedule, s: nat, t: nat)
    requires p.Valid() && s <= t
    ensures SlideFormula(p, s) <= SlideFormula(p, t)
  {
    if s < t {
      FormulaGrows(p, s, t - 1);
      QuotientStep(t + p.stepsInFuture, p.stepsPerGPU);
    }
  }

  /** Over a whole fresh run the counter is given by the formula exactly when the window is not frozen, or the run ends
      before the formula leaves zero. */
  lemma FormulaHoldsExactly(p: Schedule, extra: seq<nat>)
    requires p.Valid() && |extra| > 0 && InRange(p, |extra| - 1)
    ensures (forall t: nat :: t < |extra| ==> FreshRun(p, extra[..t + 1]).counter == SlideFormula(p, t))
       <==> !WindowFrozen(p) || SlideFormula(p, |extra| - 1) == 0
  {
    forall t: nat | t < |extra|
      ensures FreshRun(p, extra[..t + 1]).counter == ExpectedSlides(p, t)
      ensures SlideFormula(p, t) <= SlideFormula(p, |extra| - 1)
    {
      FreshRunCountsSlides(p, extra[..t + 1]);
      FormulaGrows(p, t, |extra| - 1);
    }
    var last: nat := |extra| - 1;
    assert FreshRun(p, extra[..last + 1]).counter == ExpectedSlides(p, last);
  }

  // ----- offsets

  /** The offset formula with light's way per step `a`, fraction `c` and `k` steps in the last GPU. */
  function Rounded(a: real, c: real, k: int): int {
    ((k as real + c) * a + 0.5).Floor
  }

  lemma RoundedMonotone(a: real, c: real, j: int, k: int)
    requires a > 0.0 && j <= k
    ensures Rounded(a, c, j) <= Rounded(a, c, k)
  {
    MulWeak(j as real + c, k as real + c, a);
    FloorMonotone((j as real + c) * a + 0.5, (k as real + c) * a + 0.5);
  }

  lemma FloorGap(x: real, y: real)
    requires x <= y <= x + 1.0
    ensures x.Floor <= y.Floor <= x.Floor + 1
  {
  }

  /** Inside one GPU the offset follows light, at most one cell per step. */
  lemma RoundedStep(a: real, c: real, k: int)
    requires 0.0 < a <= 1.0
    ensures Rounded(a, c, k) <= Rounded(a, c, k + 1) <= Rounded(a, c, k) + 1
  {
    var x := (k as real + c) * a + 0.5;
    assert ((k + 1) as real + c) * a + 0.5 == x + a;
    FloorGap(x, x + a);
  }

  /** At the roll-over to the next GPU the window never falls back behind the slide. */
  lemma RoundedRollOver(a: real, c: real, cells: int, s: int)
    requires 0.0 < a && cells as real - 0.5 * a < s as real * a <= cells as real + 0.5 * a
    ensures Rounded(a, c, s - 1) <= cells + Rounded(a, c, 0)
    ensures a <= 2.0 / 3.0 ==> cells + Rounded(a, c, 0) <= Rounded(a, c, s - 1) + 1
  {
    var x := (0 as real + c) * a + 0.5;
    var y := ((s - 1) as real + c) * a + 0.5;
    assert x == c * a + 0.5;
    assert y == s as real * a - a + c * a + 0.5;
    assert y <= x + cells as real;
    FloorMonotone(y, x + cells as real);
    FloorShift(x, cells);
    if a <= 2.0 / 3.0 {
      FloorGap(y, x + cells as real);
    }
  }

  lemma FloorShift(x: real, n: int)
    ensures (x + n as real).Floor == x.Floor + n
  {
    FloorUnique(x + n as real, x.Floor + n);
  }

  /** The first offset is negative exactly when the fraction costs more than half a cell. */
  lemma RoundedZero(a: real, c: real)
    requires a > 0.0 && c <= 0.0
    ensures Rounded(a, c, 0) <= 0
    ensures Rounded(a, c, 0) >= 0 <==> c * a >= -0.5
  {
    MulWeak(c, 0.0, a);
  }

  lemma RoundedUpper(a: real, c: real, cells: int, s: int, k: int)
    requires a > 0.0 && c <= 0.0 && k < s
    requires s as real * a <= cells as real + 0.5 * a
    ensures Rounded(a, c, k) <= cells
  {
    RoundedMonotone(a, c, k, s - 1);
    MulWeak(c, 0.0, a);
    assert ((s - 1) as real + c) * a + 0.5 == s as real * a - a + c * a + 0.5;
    var y := ((s - 1) as real + c) * a + 0.5;
    assert y < cells as real + 1.0;
  }

  /** The check a user can make before the run: does the rounding fraction stay within half a cell? */
  predicate SmoothStart(p: Schedule)
  {
    p.afterComma * p.cellsPerStep >= -0.5
  }

  /** At most half a cell per step is enough. */
  lemma HalfCellIsSmooth(p: Schedule)
    requires p.Valid() && p.cellsPerStep <= 0.5
    ensures SmoothStart(p)
  {
    MulWeak(-1.0, p.afterComma, p.cellsPerStep);
  }

  lemma OffsetBounds(p: Schedule, step: nat)
    requires p.Valid() && InRange(p, step)
    ensures WindowOffset(p, step) <= p.localY
    ensures SmoothStart(p) || step < p.FirstMoveStep() ==> 0 <= WindowOffset(p, step)
    ensures step == p.FirstMoveStep() && !SmoothStart(p) ==> WindowOffset(p, step) < 0
  {
    FirstSteps(p, step);
    if p.FirstMoveStep() <= step {
      var a, c, k := p.cellsPerStep, p.afterComma, StepsInLastGPU(p, step);
      RoundedUpper(a, c, p.localY, p.stepsPerGPU, k);
      RoundedMonotone(a, c, 0, k);
      RoundedZero(a, c);
      if step == p.FirstMoveStep() {
        FirstMoveHasNoSteps(p, step);
      }
    }
  }

  lemma FirstMoveHasNoSteps(p: Schedule, step: nat)
    requires p.Valid() && InRange(p, step) && step == p.FirstMoveStep()
    ensures StepsInLastGPU(p, step) == 0
  {
    FirstSteps(p, step);
    assert step + p.stepsInFuture == (p.devicesY - 1) * p.stepsPerGPU + 0;
    DivModUnique(step + p.stepsInFuture, p.devicesY - 1, 0, p.stepsPerGPU);
  }

  /** Over a whole run the offset stays within the first GPU exactly when the start is smooth (or never comes). */
  lemma OffsetStaysInFirstGPU(p: Schedule, lastStep: nat)
    requires p.Valid() && InRange(p, lastStep)
    ensures (forall t: nat :: t <= lastStep ==> 0 <= WindowOffset(p, t) <= p.localY)
       <==> SmoothStart(p) || lastStep < p.FirstMoveStep()
  {
    forall t: nat | t <= lastStep
      ensures WindowOffset(p, t) <= p.localY
      ensures SmoothStart(p) || lastStep < p.FirstMoveStep() ==> 0 <= WindowOffset(p, t)
    {
      OffsetBounds(p, t);
    }
    if !SmoothStart(p) && p.FirstMoveStep() <= lastStep {
      OffsetBounds(p, p.FirstMoveStep());
      assert WindowOffset(p, p.FirstMoveStep()) < 0;
    }
  }

  // ----- motion over a whole run

  /** The physical cell at which the window begins (`numSlides * yLocalSize + offset`). */
  function WindowOrigin(p: Schedule, step: nat): int
    requires p.Valid()
  {
    ExpectedSlides(p, step) * p.localY + WindowOffset(p, step)
  }

  ghost predicate MovesByAtMostOne(p: Schedule, step: nat)
    requires p.Valid()
  {
    WindowOrigin(p, step) <= WindowOrigin(p, step + 1) <= WindowOrigin(p, step) + 1
  }

  lemma MotionBeforeStart(p: Schedule, step: nat)
    requires p.Valid() && InRange(p, step + 1) && step + 1 <= p.FirstMoveStep()
    ensures WindowOrigin(p, step + 1) - WindowOrigin(p, step) == WindowOffset(p, step + 1)
    ensures step + 1 < p.FirstMoveStep() || SmoothStart(p) ==> WindowOffset(p, step + 1) == 0
    ensures step + 1 == p.FirstMoveStep() && !SmoothStart(p) ==> WindowOffset(p, step + 1) < 0
  {
    ExpectedSlidesStep(p, step + 1);
    NoSlideBefore(p, step + 1);
    RoundedZero(p.cellsPerStep, p.afterComma);
    if step + 1 == p.FirstMoveStep() {
      FirstMoveHasNoSteps(p, step + 1);
    }
  }

  lemma MotionInsideGPU(p: Schedule, step: nat)
    requires p.Valid() && InRange(p, step + 1) && p.FirstMoveStep() <= step && p.cellsPerStep <= 1.0
    requires (step + p.stepsInFuture) % p.stepsPerGPU < p.stepsPerGPU - 1
    ensures MovesByAtMostOne(p, step)
  {
    FirstSteps(p, step);
    FirstSteps(p, step + 1);
    var x := step + p.stepsInFuture;
    DivModStep(x, p.stepsPerGPU);
    RoundedStep(p.cellsPerStep, p.afterComma, x % p.stepsPerGPU);
    ExpectedSlidesStep(p, step + 1);
  }

  /** The check a user can make before the run: do the two roundings at a slide lose at most one cell? */
  predicate SmoothSlide(p: Schedule) {
    p.localY + Rounded(p.cellsPerStep, p.afterComma, 0)
      <= Rounded(p.cellsPerStep, p.afterComma, p.stepsPerGPU - 1) + 1
  }

  /** At most two thirds of a cell per step is enough. */
  lemma TwoThirdsIsSmooth(p: Schedule)
    requires p.Valid() && p.cellsPerStep <= 2.0 / 3.0
    ensures SmoothSlide(p)
  {
    RoundedRollOver(p.cellsPerStep, p.afterComma, p.localY, p.stepsPerGPU);
  }

  /** Whatever the speed: across a slide the window never falls back, and skips no cell exactly when it is smooth. */
  lemma MotionAcrossSlide(p: Schedule, step: nat)
    requires p.Valid() && InRange(p, step + 1) && p.FirstMoveStep() <= step
    requires (step + p.stepsInFuture) % p.stepsPerGPU == p.stepsPerGPU - 1
    ensures WindowOrigin(p, step) <= WindowOrigin(p, step + 1)
    ensures MovesByAtMostOne(p, step) <==> SmoothSlide(p)
  {
    OffsetsDropByOneGPU(p, step);
    CounterGrows(p, step);
    MoveOn(ExpectedSlides(p, step), p.localY, WindowOffset(p, step), WindowOffset(p, step + 1));
  }

  lemma MoveOn(slides: int, rows: int, from: int, to: int)
    ensures (slides + 1) * rows + to - (slides * rows + from) == rows + to - from
  {
    assert (slides + 1) * rows == slides * rows + rows;
  }

  lemma OffsetsDropByOneGPU(p: Schedule, step: nat)
    requires p.Valid() && InRange(p, step + 1) && p.FirstMoveStep() <= step
    requires (step + p.stepsInFuture) % p.stepsPerGPU == p.stepsPerGPU - 1
    ensures WindowOffset(p, step) <= p.localY + WindowOffset(p, step + 1)
    ensures p.localY + WindowOffset(p, step + 1) <= WindowOffset(p, step) + 1 <==> SmoothSlide(p)
  {
    OffsetsAcrossSlide(p, step);
    RoundedRollOver(p.cellsPerStep, p.afterComma, p.localY, p.stepsPerGPU);
  }

  lemma CounterGrows(p: Schedule, step: nat)
    requires p.Valid() && InRange(p, step + 1) && p.FirstMoveStep() <= step
    requires (step + p.stepsInFuture) % p.stepsPerGPU == p.stepsPerGPU - 1
    ensures ExpectedSlides(p, step + 1) == ExpectedSlides(p, step) + 1
  {
    SlideAfterFullTurn(p, step);
    ExpectedSlidesStep(p, step + 1);
  }

  lemma OffsetsAcrossSlide(p: Schedule, step: nat)
    requires p.Valid() && InRange(p, step + 1) && p.FirstMoveStep() <= step
    requires (step + p.stepsInFuture) % p.stepsPerGPU == p.stepsPerGPU - 1
    ensures WindowOffset(p, step) == Rounded(p.cellsPerStep, p.afterComma, p.stepsPerGPU - 1)
    ensures WindowOffset(p, step + 1) == Rounded(p.cellsPerStep, p.afterComma, 0)
  {
    FirstSteps(p, step);
    FirstSteps(p, step + 1);
    DivModStep(step + p.stepsInFuture, p.stepsPerGPU);
  }

  /** At up to one cell per step only two kinds of step can be rough: the first move and the slides. */
  lemma OneStepOfMotion(p: Schedule, step: nat)
    requires p.Valid() && InRange(p, step + 1) && p.cellsPerStep <= 1.0
    ensures MovesByAtMostOne(p, step)
       <==> (SmoothStart(p) || step + 1 != p.FirstMoveStep()) && (SmoothSlide(p) || !SlidesIn(p, step + 1))
  {
    if step + 1 <= p.FirstMoveStep() {
      MotionBeforeStart(p, step);
      NoSlideBefore(p, step + 1);
    } else if (step + p.stepsInFuture) % p.stepsPerGPU < p.stepsPerGPU - 1 {
      MotionInsideGPU(p, step);
      NoSlideInsideGPU(p, step);
    } else {
      MotionAcrossSlide(p, step);
      SlideAfterFullTurn(p, step);
    }
  }

  lemma NoSlideInsideGPU(p: Schedule, step: nat)
    requires p.Valid() && InRange(p, step + 1)
    requires (step + p.stepsInFuture) % p.stepsPerGPU < p.stepsPerGPU - 1
    ensures !SlidesIn(p, step + 1)
  {
    SlidesAtFullTurns(p, step + 1);
    DivModStep(step + p.stepsInFuture, p.stepsPerGPU);
  }

  lemma NoSlideBefore(p: Schedule, step: nat)
    requires p.Valid() && InRange(p, step) && step <= p.FirstMoveStep()
    ensures !SlidesIn(p, step)
  {
    FirstSteps(p, step);
    if !WindowFrozen(p) {
      assert p.stepsPerGPU * p.devicesY == p.stepsPerGPU * (p.devicesY - 1) + p.stepsPerGPU;
    }
  }

  lemma SlideAfterFullTurn(p: Schedule, step: nat)
    requires p.Valid() && InRange(p, step + 1) && p.FirstMoveStep() <= step
    requires (step + p.stepsInFuture) % p.stepsPerGPU == p.stepsPerGPU - 1
    ensures SlidesIn(p, step + 1)
  {
    FirstSteps(p, step);
    FirstSteps(p, step + 1);
    var x, s, n := step + p.stepsInFuture, p.stepsPerGPU, p.devicesY;
    DivModStep(x, s);
    QuotientAtLeast(x, s, n - 1);
    QuotientAtLeast(x + 1, s, n);
  }

  lemma FirstSlideSlides(p: Schedule, t: nat)
    requires p.Valid() && InRange(p, t) && !WindowFrozen(p) && t == p.FirstSlideStep()
    ensures t > 0 && SlidesIn(p, t)
  {
    FirstSteps(p, t);
    var x, s, n := t + p.stepsInFuture, p.stepsPerGPU, p.devicesY;
    assert s * n == s * (n - 1) + s;
    assert x == n * s + 0;
    DivModUnique(x, n, 0, s);
    SlidesAtFullTurns(p, t);
  }

  /** At up to one cell per step the window never runs backwards and never skips a cell in a whole run exactly when its
      start is smooth or no step of the run, and its slides are smooth or the run has none. */
  lemma WindowMotion(p: Schedule, lastStep: nat)
    requires p.Valid() && InRange(p, lastStep) && p.cellsPerStep <= 1.0
    ensures (forall t: nat :: t < lastStep ==> MovesByAtMostOne(p, t))
       <==> && (SmoothStart(p) || p.FirstMoveStep() == 0 || lastStep < p.FirstMoveStep())
            && (SmoothSlide(p) || WindowFrozen(p) || lastStep < p.FirstSlideStep())
  {
    if (SmoothStart(p) || p.FirstMoveStep() == 0 || lastStep < p.FirstMoveStep())
       && (SmoothSlide(p) || WindowFrozen(p) || lastStep < p.FirstSlideStep()) {
      forall t: nat | t < lastStep
        ensures MovesByAtMostOne(p, t)
      {
        SlidesAtFullTurns(p, t + 1);
        OneStepOfMotion(p, t);
      }
    } else {
      RoughStepExists(p, lastStep);
    }
  }

  lemma RoughStepExists(p: Schedule, lastStep: nat)
    requires p.Valid() && InRange(p, lastStep) && p.cellsPerStep <= 1.0
    requires || (!SmoothStart(p) && 0 < p.FirstMoveStep() <= lastStep)
             || (!SmoothSlide(p) && !WindowFrozen(p) && p.FirstSlideStep() <= lastStep)
    ensures exists t: nat :: t < lastStep && !MovesByAtMostOne(p, t)
  {
    if !SmoothStart(p) && 0 < p.FirstMoveStep() <= lastStep {
      var t: nat := p.FirstMoveStep() - 1;
      OneStepOfMotion(p, t);
      assert t < lastStep && !MovesByAtMostOne(p, t);
    } else {
      FirstSlideSlides(p, p.FirstSlideStep());
      var t: nat := p.FirstSlideStep() - 1;
      OneStepOfMotion(p, t);
      assert t < lastStep && !MovesByAtMostOne(p, t);
    }
  }

  /** Above two thirds a slide can skip a cell: two GPUs of four cells at 9/10 of a cell per step. */
  lemma RoughSlideExists()
    ensures var g := Setup(4, 2, 8, 1.0, 0.9, 0.8425);
            && g.Valid() && ScheduleOf(g).Valid()
            && var p := ScheduleOf(g);
               && p == Schedule(4, 2, 4, 1, -0.3, 4, 0.9) && SmoothStart(p) && !SmoothSlide(p) && InRange(p, 7)
               && WindowOrigin(p, 7) == WindowOrigin(p, 6) + 2
  {
    var g := Setup(4, 2, 8, 1.0, 0.9, 0.8425);
    var q := g.StepsAcrossGPU();
    assert q * 0.9 == 4.0;
    FloorUnique(q + 0.5, 4);
    assert g.FutureSteps() == 0.7;
    FloorUnique(-g.FutureSteps(), -1);
    ScheduleIsValid(g);
    var p := ScheduleOf(g);
    FloorUnique((0 as real - 0.3) * 0.9 + 0.5, 0);
    FloorUnique((3 as real - 0.3) * 0.9 + 0.5, 2);
    FirstSteps(p, 6);
    FirstSteps(p, 7);
  }

  /** Above half a cell per step the start can be rough: two GPUs of ten cells at 3/5 of a cell per step. */
  lemma RoughStartExists()
    ensures var g := Setup(10, 2, 20, 1.0, 0.6, 0.997);
            && g.Valid() && ScheduleOf(g).Valid()
            && var p := ScheduleOf(g);
               p.FirstMoveStep() == 16 && InRange(p, 16) && !SmoothStart(p) && WindowOffset(p, 16) == -1
  {
    var g := Setup(10, 2, 20, 1.0, 0.6, 0.997);
    var q := g.StepsAcrossGPU();
    assert q * 0.6 == 10.0;
    FloorUnique(q + 0.5, 17);
    assert g.FutureSteps() == q * 0.003 && g.FutureSteps() * 0.6 == 0.03;
    FloorUnique(-g.FutureSteps(), -1);
    var p := ScheduleOf(g);
    assert p.cellsPerStep == 0.6 && p.stepsInFuture == 1 && p.stepsPerGPU == 17;
    assert p.afterComma * 0.6 == 0.03 - 0.6;
    ScheduleIsValid(g);
    FirstSteps(p, 16);
    FloorUnique((0 as real + p.afterComma) * 0.6 + 0.5, -1);
  }

  /** With equal GPUs the window is frozen exactly when there are several rows and the part of a GPU that light still
      has to cross, in steps, exceeds the rounded number of steps per GPU. */
  lemma FrozenExactly(g: Setup)
    requires g.Valid() && ScheduleOf(g).Valid() && g.globalY == g.localY * g.devicesY
    ensures WindowFrozen(ScheduleOf(g))
       <==> g.devicesY >= 2 && (g.StepsAcrossGPU() + 0.5).Floor as real < g.StepsAcrossGPU() * (1.0 - g.slidePoint)
  {
    var p := ScheduleOf(g);
    FutureStepsPerGPU(g);
    CeilOfMultiple(g.FutureSteps(), g.StepsAcrossGPU() * (1.0 - g.slidePoint), p.stepsPerGPU, g.devicesY - 1);
  }

  lemma CeilOfMultiple(x: real, rest: real, s: int, n: nat)
    requires x == rest * n as real
    ensures s * n < Ceil(x) <==> n >= 1 && s as real < rest
  {
    CeilExceeds(x, s * n);
    RealProduct(s, n);
    if n >= 1 {
      CompareScaled(s as real, rest, n as real);
    }
  }

  lemma CeilExceeds(x: real, n: int)
    ensures n < Ceil(x) <==> n as real < x
  {
  }

  lemma CompareScaled(x: real, y: real, n: real)
    requires n > 0.0
    ensures x * n < y * n <==> x < y
  {
    if x < y {
      MulStrict(x, y, n);
    } else {
      MulWeak(y, x, n);
    }
  }

  /** A slide point of at least half a step per GPU is enough. */
  lemma SlidePointAvoidsFreezing(g: Setup)
    requires g.Valid() && ScheduleOf(g).Valid() && g.globalY == g.localY * g.devicesY
    requires g.slidePoint * g.StepsAcrossGPU() >= 0.5
    ensures !WindowFrozen(ScheduleOf(g))
  {
    var q := g.StepsAcrossGPU();
    FrozenExactly(g);
    assert q * (1.0 - g.slidePoint) == q - g.slidePoint * q;
  }

  /** A slide point of zero can freeze it: two GPUs of ten cells at 7/10 of a cell per step. The formula reaches one
      in step 13, the counter stays at zero. */
  lemma FrozenWindowExists(extra: seq<nat>)
    requires |extra| == 14
    ensures var g := Setup(10, 2, 20, 1.0, 0.7, 0.0);
            && g.Valid() && ScheduleOf(g).Valid()
            && var p := ScheduleOf(g);
               WindowFrozen(p) && InRange(p, 13) && SlideFormula(p, 13) == 1 && FreshRun(p, extra).counter == 0
  {
    var g := Setup(10, 2, 20, 1.0, 0.7, 0.0);
    var q := g.StepsAcrossGPU();
    assert q * 0.7 == 10.0;
    FloorUnique(q + 0.5, 14);
    assert g.FutureSteps() == q;
    FloorUnique(-g.FutureSteps(), -15);
    ScheduleIsValid(g);
    FreshRunCountsSlides(ScheduleOf(g), extra);
  }

  lemma RealProduct(x: int, y: int)
    ensures (x * y) as real == x as real * y as real
  {
  }

  lemma FutureStepsPerGPU(g: Setup)
    requires g.Valid() && g.globalY == g.localY * g.devicesY
    ensures g.FutureSteps() == g.StepsAcrossGPU() * (1.0 - g.slidePoint) * (g.devicesY - 1) as real
  {
    var n, l := (g.devicesY - 1) as real, g.localY as real;
    assert g.globalY - g.localY == g.localY * (g.devicesY - 1);
    RealProduct(g.localY, g.devicesY - 1);
    ScaledQuotient(l, n, g.cellHeight, g.lightWayPerStep);
    Rearrange(g.StepsAcrossGPU(), n, 1.0 - g.slidePoint);
  }

  lemma ScaledQuotient(l: real, n: real, h: real, w: real)
    requires w > 0.0
    ensures l * n * h / w == l * h / w * n
  {
    assert l * n * h == l * h * n;
  }

  lemma Rearrange(x: real, y: real, z: real)
    ensures x * y * z == x * z * y
  {
  }

  // ----- the window and the light it follows

  /** With equal GPUs the window spans all rows of GPUs but one. */
  lemma WindowSpansAllButOneRow(g: Setup)
    requires g.Valid() && g.globalY == g.localY * g.devicesY
    ensures ScheduleOf(g).windowY == g.localY * (g.devicesY - 1)
  {
    assert g.localY * (g.devicesY - 1) == g.localY * g.devicesY - g.localY;
  }

  /** A window that is not frozen starts when light has crossed the slide point's share of it, up to the rounding of the
      step constants: one step, and half a step for every row of GPUs it spans. */
  lemma WindowStartsAtSlidePoint(g: Setup)
    requires g.Valid() && ScheduleOf(g).Valid() && g.globalY == g.localY * g.devicesY && !WindowFrozen(ScheduleOf(g))
    ensures StartsNear(ScheduleOf(g), g.slidePoint)
  {
    IsAhead(g);
    WindowSpansAllButOneRow(g);
    StartOfSchedule(ScheduleOf(g), g.slidePoint, g.FutureSteps() * ScheduleOf(g).cellsPerStep);
  }

  ghost predicate StartsNear(p: Schedule, point: real)
    requires p.Valid()
  {
    NearSlidePoint(p.FirstMoveStep(), p.cellsPerStep, p.windowY, point, p.devicesY - 1)
  }

  /** `stepsInFuture` steps are the way that light has to be ahead, rounded up. */
  ghost predicate Ahead(p: Schedule, point: real, way: real) {
    && way == p.windowY as real * (1.0 - point)
    && way <= p.stepsInFuture as real * p.cellsPerStep
    && p.stepsInFuture as real * p.cellsPerStep <= way + p.cellsPerStep
  }

  lemma IsAhead(g: Setup)
    requires g.Valid()
    ensures Ahead(ScheduleOf(g), g.slidePoint, g.FutureSteps() * ScheduleOf(g).cellsPerStep)
  {
    WayAhead(g);
    AheadRounded(g);
  }

  lemma WayAhead(g: Setup)
    requires g.Valid()
    ensures g.FutureSteps() * ScheduleOf(g).cellsPerStep == ScheduleOf(g).windowY as real * (1.0 - g.slidePoint)
  {
    FutureWay((g.globalY - g.localY) as real, g.cellHeight, g.lightWayPerStep, g.slidePoint);
  }

  lemma AheadRounded(g: Setup)
    requires g.Valid()
    ensures var p := ScheduleOf(g);
            && g.FutureSteps() * p.cellsPerStep <= p.stepsInFuture as real * p.cellsPerStep
            && p.stepsInFuture as real * p.cellsPerStep <= g.FutureSteps() * p.cellsPerStep + p.cellsPerStep
  {
    ScaledBetween(g.FutureSteps(), Ceil(g.FutureSteps()) as real, g.lightWayPerStep / g.cellHeight);
  }

  lemma StartOfSchedule(p: Schedule, point: real, way: real)
    requires p.Valid() && !WindowFrozen(p) && p.windowY == p.localY * (p.devicesY - 1) && Ahead(p, point, way)
    ensures StartsNear(p, point)
  {
    FirstSteps(p, 0);
    StartInCells(p.stepsPerGPU, p.devicesY - 1, p.stepsInFuture, p.cellsPerStep, p.localY, p.windowY, point, way);
  }

  /** Light's way in `start` steps against the share `point` of `length` cells over `rows` rows. */
  ghost predicate NearSlidePoint(start: int, a: real, length: int, point: real, rows: int) {
    var late, half := start as real * a - length as real * point, 0.5 * a * rows as real;
    -half - a <= late <= half
  }

  lemma ScaledBetween(x: real, f: real, a: real)
    requires a > 0.0 && x <= f <= x + 1.0
    ensures x * a <= f * a
    ensures f * a <= x * a + a
  {
    var y := x + 1.0;
    MulWeak(x, f, a);
    MulWeak(f, y, a);
    assert y * a == x * a + a;
  }

  lemma FutureWay(w: real, h: real, l: real, point: real)
    requires h > 0.0 && l > 0.0
    ensures w * h / l * (1.0 - point) * (l / h) == w * (1.0 - point)
  {
    Rearrange(w * h / l, 1.0 - point, l / h);
    DivThenMul(w, h, l);
  }

  lemma StartInCells(s: int, n: int, f: int, a: real, l: int, w: int, point: real, way: real)
    requires n >= 0 && a > 0.0 && w == l * n
    requires l as real - 0.5 * a <= s as real * a <= l as real + 0.5 * a
    requires way == w as real * (1.0 - point) && way <= f as real * a && f as real * a <= way + a
    ensures NearSlidePoint(s * n - f, a, w, point, n)
  {
    RealProduct(l, n);
    RealProduct(s, n);
    StartArithmetic(s as real, n as real, f as real, a, l as real, w as real, point, way);
  }

  lemma StartArithmetic(s: real, n: real, f: real, a: real, l: real, w: real, point: real, way: real)
    requires n >= 0.0 && a > 0.0 && w == l * n
    requires l - 0.5 * a <= s * a <= l + 0.5 * a
    requires way == w * (1.0 - point) && way <= f * a && f * a <= way + a
    ensures -(0.5 * a * n) - a <= (s * n - f) * a - w * point <= 0.5 * a * n
  {
    MulWeak(l - 0.5 * a, s * a, n);
    MulWeak(s * a, l + 0.5 * a, n);
    assert (s * n - f) * a == s * a * n - f * a;
    assert w * (1.0 - point) == w - w * point;
    assert (l + 0.5 * a) * n == w + 0.5 * a * n;
    assert (l - 0.5 * a) * n == w - 0.5 * a * n;
  }

  /** A moving window begins where light, ahead by `stepsInFuture` and its fraction, is less the window's length, up to
      half a cell and the accumulated rounding of the steps per GPU. */
  lemma WindowFollowsLight(p: Schedule, step: nat)
    requires p.Valid() && InRange(p, step) && !WindowFrozen(p) && p.FirstMoveStep() <= step
    ensures NearLight(WindowOrigin(p, step), step + p.stepsInFuture, p.afterComma, p.cellsPerStep,
                      p.localY * (p.devicesY - 1), (step + p.stepsInFuture) / p.stepsPerGPU)
  {
    var x, s := step + p.stepsInFuture, p.stepsPerGPU;
    OriginOfMoving(p, step);
    FullTurns(x, s);
    OriginNearLight(x, x / s, s, x % s, p.afterComma, p.cellsPerStep, p.localY, p.localY * (p.devicesY - 1));
  }

  lemma FullTurns(x: int, s: int)
    requires s > 0 && x >= 0
    ensures x == x / s * s + x % s && x / s >= 0
  {
  }

  /** Light is `x + c` steps on its way; the window of `length` cells ends at it, up to half a cell and half a step's
      way for each of `turns` GPUs. */
  ghost predicate NearLight(origin: int, x: int, c: real, a: real, length: int, turns: int) {
    var light, slack := (x as real + c) * a - length as real, 0.5 + 0.5 * a * turns as real;
    light - slack <= origin as real <= light + slack
  }

  lemma OriginOfMoving(p: Schedule, step: nat)
    requires p.Valid() && InRange(p, step) && !WindowFrozen(p) && p.FirstMoveStep() <= step
    ensures var x := step + p.stepsInFuture;
            WindowOrigin(p, step)
            == x / p.stepsPerGPU * p.localY - p.localY * (p.devicesY - 1)
             + Rounded(p.cellsPerStep, p.afterComma, x % p.stepsPerGPU)
  {
    var x, s, n := step + p.stepsInFuture, p.stepsPerGPU, p.devicesY;
    FirstSteps(p, step);
    QuotientAtLeast(x, s, n - 1);
    assert (x / s - (n - 1)) * p.localY == x / s * p.localY - p.localY * (n - 1);
  }

  lemma OriginNearLight(x: int, q: int, s: int, r: int, c: real, a: real, l: int, length: int)
    requires x == q * s + r && q >= 0 && a > 0.0 && l as real - 0.5 * a <= s as real * a <= l as real + 0.5 * a
    ensures NearLight(q * l - length + Rounded(a, c, r), x, c, a, length, q)
  {
    RealProduct(q, s);
    RealProduct(q, l);
    FollowArithmetic(q as real, s as real, r as real, c, a, l as real);
  }

  lemma FollowArithmetic(q: real, s: real, r: real, c: real, a: real, l: real)
    requires q >= 0.0 && a > 0.0 && l - 0.5 * a <= s * a <= l + 0.5 * a
    ensures (q * s + r + c) * a - 0.5 * a * q <= q * l + (r + c) * a <= (q * s + r + c) * a + 0.5 * a * q
  {
    MulWeak(l - 0.5 * a, s * a, q);
    MulWeak(s * a, l + 0.5 * a, q);
    assert (q * s + r + c) * a == s * a * q + (r + c) * a;
    assert (l + 0.5 * a) * q == q * l + 0.5 * a * q;
    assert (l - 0.5 * a) * q == q * l - 0.5 * a * q;
  }

  // ----- windows

  /** The y parts of a `Window`: the global window, and the local window relative to the global window's start. */
  datatype Window = Window(globalOffset: int, globalSize: int, localOffset: int, localSize: int)

  /** What `getWindow` returns on the GPU at virtual row `y` of a non-periodic column. */
  function WindowOf(p: Schedule, step: nat, y: int): Window
    requires p.Valid()
  {
    var off := WindowOffset(p, step);
    Window(off, p.windowY,
           if y == 0 then 0 else y * p.localY - off,
           if y == 0 then p.localY - off else if y == p.devicesY - 1 then off else p.localY)
  }

  /** The local windows of a column follow each other without gap or overlap, start with the global window, end with
      it, and none is larger than the GPU that shows it. */
  ghost predicate Tiles(p: Schedule, step: nat)
    requires p.Valid()
  {
    && (forall y :: 0 <= y < p.devicesY ==> 0 <= WindowOf(p, step, y).localSize <= p.localY)
    && WindowOf(p, step, 0).localOffset == 0
    && (forall y :: 0 <= y < p.devicesY - 1 ==> Follows(WindowOf(p, step, y), WindowOf(p, step, y + 1)))
    && End(WindowOf(p, step, p.devicesY - 1)) == p.windowY
  }

  function End(w: Window): int {
    w.localOffset + w.localSize
  }

  predicate Follows(w: Window, next: Window) {
    End(w) == next.localOffset
  }

  lemma WindowsTile(p: Schedule, step: nat)
    requires p.Valid() && InRange(p, step) && p.devicesY >= 2 && p.windowY == p.localY * (p.devicesY - 1)
    ensures Tiles(p, step) <==> 0 <= WindowOffset(p, step)
  {
    OffsetBounds(p, step);
    forall y | 0 <= y < p.devicesY - 1
      ensures Follows(WindowOf(p, step, y), WindowOf(p, step, y + 1))
    {
      assert (y + 1) * p.localY == y * p.localY + p.localY;
    }
    assert (p.devicesY - 1) * p.localY == p.windowY;
    if WindowOffset(p, step) < 0 {
      assert WindowOf(p, step, 0).localSize > p.localY;
    }
  }

  predicate Shows(w: Window, cell: int) {
    w.localOffset <= cell < End(w)
  }

  /** The row of GPUs whose domain holds a cell of the global window; a negative offset, before the first domain, counts
      as row 0. */
  function ShowingRow(p: Schedule, step: nat, cell: int): int
    requires p.Valid()
  {
    var x := cell + WindowOffset(p, step);
    if x < 0 then 0 else x / p.localY
  }

  lemma RowShows(p: Schedule, step: nat, cell: int, y: int)
    requires p.Valid() && p.devicesY >= 2 && p.windowY == p.localY * (p.devicesY - 1)
    requires WindowOffset(p, step) <= p.localY && 0 <= cell < p.windowY && 0 <= y < p.devicesY
    ensures Shows(WindowOf(p, step, y), cell) <==> y == ShowingRow(p, step, cell)
  {
    var x := cell + WindowOffset(p, step);
    QuotientAtLeast(x, p.localY, y);
    QuotientAtLeast(x, p.localY, y + 1);
    assert p.localY * y == y * p.localY;
    assert p.localY * (y + 1) == y * p.localY + p.localY;
    if y == p.devicesY - 1 {
      assert p.windowY == y * p.localY;
    }
  }

  /** At every offset, every cell of the global window is shown by exactly one row of GPUs; it lies in that row's own
      domain exactly when the offset does not put it before the first one. */
  lemma EachCellShownOnce(p: Schedule, step: nat, cell: int)
    requires p.Valid() && InRange(p, step) && p.devicesY >= 2 && p.windowY == p.localY * (p.devicesY - 1)
    requires 0 <= cell < p.windowY
    ensures var row := ShowingRow(p, step, cell);
            && 0 <= row < p.devicesY
            && (row * p.localY <= cell + WindowOffset(p, step) < row * p.localY + p.localY
                <==> 0 <= cell + WindowOffset(p, step))
            && forall y :: 0 <= y < p.devicesY ==> (Shows(WindowOf(p, step, y), cell) <==> y == row)
  {
    OffsetBounds(p, step);
    var x := cell + WindowOffset(p, step);
    QuotientAtLeast(x, p.localY, 0);
    QuotientAtLeast(x, p.localY, p.devicesY);
    assert p.localY * p.devicesY == p.localY * (p.devicesY - 1) + p.localY;
    forall y | 0 <= y < p.devicesY
      ensures Shows(WindowOf(p, step, y), cell) <==> y == ShowingRow(p, step, cell)
    {
      RowShows(p, step, cell, y);
    }
    assert x == x / p.localY * p.localY + x % p.localY;
  }

  /** What the GPU can see: its local domain offset and whether its mask has a partner above and below. */
  function WindowByMask(p: Schedule, step: nat, hasTop: bool, hasBottom: bool, localDomainOffset: int): Window
    requires p.Valid()
  {
    var off := WindowOffset(p, step);
    if !hasTop then
      Window(off, p.windowY, 0, p.localY - off)
    else
      Window(off, p.windowY, localDomainOffset - off, if hasBottom then p.localY else off)
  }

  /** The constants at the top of `getCurrentSlideInfo`, in the source's order. */
  method StepArithmetic(g: Setup, active: bool)
    returns (stepsInFuture: int, afterComma: real, stepsPerGPU: int, firstSlideStep: int, firstMoveStep: int)
    requires g.Valid()
    ensures active ==>
              && stepsInFuture as real - 1.0 < g.FutureSteps() <= stepsInFuture as real
              && stepsInFuture as real + afterComma == g.FutureSteps()
    ensures g.StepsAcrossGPU() - 0.5 < stepsPerGPU as real <= g.StepsAcrossGPU() + 0.5
    ensures 0 <= firstSlideStep < U32_RANGE && 0 <= firstMoveStep < U32_RANGE
    ensures U32(firstSlideStep + stepsInFuture) == U32(stepsPerGPU * g.devicesY)
    ensures U32(firstSlideStep - firstMoveStep) == U32(stepsPerGPU)
    ensures active ==>
              var p := ScheduleOf(g);
              && stepsInFuture == p.stepsInFuture && afterComma == p.afterComma && stepsPerGPU == p.stepsPerGPU
              && firstSlideStep == p.FirstSlideStep() && firstMoveStep == p.FirstMoveStep()
  {
    var windowGlobalDimY := g.globalY - if active then g.localY else 0;
    var stepsInFutureTmp := windowGlobalDimY as real * g.cellHeight / g.lightWayPerStep * (1.0 - g.slidePoint);
    assert active ==> stepsInFutureTmp == g.FutureSteps();
    stepsInFuture := Ceil(stepsInFutureTmp);
    afterComma := stepsInFutureTmp - stepsInFuture as real;
    var across := g.localY as real * g.cellHeight / g.lightWayPerStep;
    assert across == g.StepsAcrossGPU();
    stepsPerGPU := (across + 0.5).Floor;
    firstSlideStep := U32(stepsPerGPU * g.devicesY - stepsInFuture);
    firstMoveStep := U32(stepsPerGPU * (g.devicesY - 1) - stepsInFuture);
    WrappedSteps(stepsPerGPU, g.devicesY, stepsInFuture);
  }

  /** The unsigned subtractions are right modulo 2^32. */
  lemma WrappedSteps(s: int, n: int, f: int)
    ensures U32(U32(s * n - f) + f) == U32(s * n)
    ensures U32(U32(s * n - f) - U32(s * (n - 1) - f)) == U32(s)
  {
    ModOfSum(s * n - f, f, U32_RANGE);
    U32Difference(s, n, f);
  }

  lemma U32Difference(s: int, n: int, f: int)
    ensures U32(U32(s * n - f) - U32(s * (n - 1) - f)) == U32(s)
  {
    var x, y := s * n - f, s * (n - 1) - f;
    assert x - y == s;
    ModOfSum(x, -U32(y), U32_RANGE);
    ModOfSum(y, s - U32(y), U32_RANGE);
    assert y == (y / U32_RANGE) * U32_RANGE + U32(y);
    DivModUnique(x - U32(y) - s, y / U32_RANGE, 0, U32_RANGE);
    ModOfSum(x - U32(y) - s, s, U32_RANGE);
  }

  class Tracker {
    const setup: Setup
    var slidingWindowActive: bool
    var slideCounter: nat
    var lastSlideStep: nat

    ghost predicate Valid() {
      setup.Valid() && ScheduleOf(setup).Valid()
    }

    ghost function State(): Slides
      reads this
    {
      Slides(slideCounter, lastSlideStep)
    }

    constructor (setup: Setup, active: bool)
      ensures this.setup == setup && slidingWindowActive == active && State() == Slides(0, 0)
    {
      this.setup := setup;
      slidingWindowActive := active;
      slideCounter, lastSlideStep := 0, 0;
    }

    method IncrementSlideCounter(currentStep: nat)
      modifies this`slideCounter, this`lastSlideStep
      ensures State() == if slidingWindowActive && old(lastSlideStep) != currentStep
                         then Slides(old(slideCounter) + 1, currentStep) else old(State())
    {
      if slidingWindowActive && lastSlideStep != currentStep {
        slideCounter := slideCounter + 1;
        lastSlideStep := currentStep;
      }
    }

    method SetSlideCounter(slides: nat, currentStep: nat)
      modifies this`slideCounter, this`lastSlideStep
      ensures State() == Slides(slides, currentStep)
    {
      slideCounter := slides;
      lastSlideStep := currentStep;
    }

    /** The part of `getCurrentSlideInfo` under `slidingWindowActive`, with the constants of schedule `p`. */
    method SlideInfo(ghost p: Schedule, currentStep: nat, stepsInFuture: int, afterComma: real, stepsPerGPU: int,
                     firstSlideStep: int, firstMoveStep: int)
      returns (doSlide: bool, offsetFirstGPU: int)
      requires p.Valid() && setup.Valid() && p.cellsPerStep == setup.lightWayPerStep / setup.cellHeight
      requires stepsInFuture == p.stepsInFuture && afterComma == p.afterComma && stepsPerGPU == p.stepsPerGPU
      requires firstSlideStep == p.FirstSlideStep() && firstMoveStep == p.FirstMoveStep() && slidingWindowActive
      modifies this`slideCounter, this`lastSlideStep
      ensures doSlide == SlidesIn(p, currentStep) && offsetFirstGPU == WindowOffset(p, currentStep)
      ensures State() == Query(p, old(State()), currentStep)
    {
      doSlide, offsetFirstGPU := false, 0;
      if firstMoveStep <= currentStep {
        var stepsInLastGPU := U32(currentStep + stepsInFuture) % stepsPerGPU;
        assert stepsInLastGPU == StepsInLastGPU(p, currentStep);
        if firstSlideStep <= currentStep && stepsInLastGPU == 0 {
          IncrementSlideCounter(currentStep);
          doSlide := true;
        }
        offsetFirstGPU := OffsetInCells(setup, stepsInLastGPU as real + afterComma);
      }
    }

    /** The two out-pointers of the source are the two results; a caller that passes NULL ignores one. */
    method GetCurrentSlideInfo(currentStep: nat) returns (doSlide: bool, offsetFirstGPU: int)
      requires Valid()
      modifies this`slideCounter, this`lastSlideStep
      ensures !slidingWindowActive ==> !doSlide && offsetFirstGPU == 0 && State() == old(State())
      ensures slidingWindowActive ==>
                var p := ScheduleOf(setup);
                && doSlide == SlidesIn(p, currentStep)
                && offsetFirstGPU == WindowOffset(p, currentStep)
                && State() == Query(p, old(State()), currentStep)
    {
      doSlide, offsetFirstGPU := false, 0;
      var stepsInFuture, afterComma, stepsPerGPU, firstSlideStep, firstMoveStep :=
        StepArithmetic(setup, slidingWindowActive);
      if slidingWindowActive {
        doSlide, offsetFirstGPU := SlideInfo(ScheduleOf(setup), currentStep, stepsInFuture, afterComma, stepsPerGPU,
                                             firstSlideStep, firstMoveStep);
      }
    }

    method GetSlideCounter(currentStep: nat) returns (slides: nat)
      requires Valid()
      modifies this`slideCounter, this`lastSlideStep
      ensures State() == if slidingWindowActive then Query(ScheduleOf(setup), old(State()), currentStep)
                         else old(State())
      ensures slides == slideCounter
    {
      var doSlide, offset := GetCurrentSlideInfo(currentStep);
      slides := slideCounter;
    }

    method SlideInCurrentStep(currentStep: nat) returns (doSlide: bool)
      requires Valid()
      modifies this`slideCounter, this`lastSlideStep
      ensures State() == if slidingWindowActive then Query(ScheduleOf(setup), old(State()), currentStep)
                         else old(State())
      ensures doSlide == (slidingWindowActive && SlidesIn(ScheduleOf(setup), currentStep))
    {
      doSlide := false;
      if slidingWindowActive {
        var offset;
        doSlide, offset := GetCurrentSlideInfo(currentStep);
      }
    }

    method GetWindow(currentStep: nat, hasTop: bool, hasBottom: bool, localDomainOffset: int) returns (w: Window)
      requires Valid()
      modifies this`slideCounter, this`lastSlideStep
      ensures State() == if slidingWindowActive then Query(ScheduleOf(setup), old(State()), currentStep)
                         else old(State())
      ensures w == if slidingWindowActive
                   then WindowByMask(ScheduleOf(setup), currentStep, hasTop, hasBottom, localDomainOffset)
                   else Window(0, setup.globalY, 0, setup.localY)
      ensures w.globalSize == setup.globalY - if slidingWindowActive then setup.localY else 0
    {
      w := Window(0, setup.globalY - if slidingWindowActive then setup.localY else 0, 0, setup.localY);
      if slidingWindowActive {
        var doSlide, offsetFirstGPU := GetCurrentSlideInfo(currentStep);
        var off := offsetFirstGPU;
        w := w.(globalOffset := off);
        if !hasTop {
          w := w.(localOffset := 0, localSize := w.localSize - off);
        } else {
          w := w.(localOffset := localDomainOffset - off);
          if !hasBottom {
            w := w.(localSize := off);
          }
        }
      }
    }
  }

  /** The rounding of the source, multiplying before it divides. */
  function OffsetInCells(g: Setup, steps: real): (offset: int)
    requires g.Valid()
    ensures offset == (steps * (g.lightWayPerStep / g.cellHeight) + 0.5).Floor
  {
    assert steps * g.lightWayPerStep / g.cellHeight == steps * (g.lightWayPerStep / g.cellHeight);
    (steps * g.lightWayPerStep / g.cellHeight + 0.5).Floor
  }
}
