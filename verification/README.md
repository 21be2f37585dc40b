# PIConGPU: a verified model of its grid, window, interpolation, memory test and run loop

This project models the parts of PIConGPU and PMacc in which a property of the whole program rests on small local
steps, and proves those properties with Dafny 4.11. `dafny verify dfyconfig.toml` checks everything.

- **Sliding process grid** (`CartTopology`, `CommunicatorMPI`, `MovingWindow`, `SlidingSimulation`). Every MPI rank keeps
  its own cyclic y-offset, coordinates, neighbour table and mask, and decides from step arithmetic when to slide. The
  tables of all ranks agree after any number of slides, the counter and the offset stay in step, the window moves like
  light, and the local windows of a column tile the global one. `MPI_Cart_coords` and `MPI_Cart_rank` follow section
  7.5.5 of MPI-3.1: row-major ranks, coordinates wrapped in periodic dimensions only, anything else out of range is an
  erroneous call and therefore a precondition.
- **Field-to-particle interpolation** (`Interpolation`, `Shapes`). The optimised form shifts the coordinate system and sums
  over the support; the native form sums over the whole margin. They are equal for every support, field and position,
  and a linear field is returned exactly.
- **Memory test** (`GridStride`, `Memtest`, `BlockMove`). A machine runs grid-stride kernels under an arbitrary schedule
  of single checks, atomic adds, report fields and stores; every schedule has the same outcome, and on fault-free memory
  no test raises an error, and every word that changes between two launches is counted once, up to the memory sizes at which the kernels' `int` arithmetic overflows.
- **Start-up and run loop** (`HostRank`, `RunLoop`, `BackgroundField`, `PluginConnector`, `SimulationHelper`). The
  host-rank protocol with eager and synchronous sends, device probing, stepping with stop and restart, the background
  field at the physical place of a cell, periodic notifications and the checkpoint master file.
- **Decomposition and histogram** (`GridDistribution`, `BinEnergy`). The run-length-encoded grid distribution with its text
  form, and the energy histogram of a species.

`Arith`, `Decimal` and `Wrappers` hold arithmetic, decimal text and the option type.

Doubles are read as reals. 32-bit arithmetic is kept where the code relies on it or trips over it: the step numbers of
the moving window, the error counter, the loop indices and addresses of the memory test and its cyclic modulo,
`lexical_cast`, the cell sums of the grid distribution.

## Where a promise holds only under a condition

Each of these is proved as an equivalence, or with a concrete counterexample beside the positive statement.

- *The window's first offset* can be negative: `stepsInFutureAfterComma` is subtracted before rounding. The offset stays in
  [0, localSize], and no local window exceeds its GPU, exactly when `stepsInFutureAfterComma * cellsPerStep >= -1/2` or the first
  moving step is not reached; half a cell per step suffices (`HalfCellIsSmooth`), three fifths do not
  (`RoughStartExists`). Even then every cell of the window is shown by exactly one rank (`ColumnShowsEachCellOnce`): a
  negative offset only makes the first row show cells in front of its own domain.
- *The window's motion.* At up to one cell per step it never falls back across a slide, and skips a cell only at slides,
  exactly when the two roundings there lose more than one cell (`WindowMotion`). Two thirds of a cell per step rule that
  out (`TwoThirdsIsSmooth`), nine tenths do not (`RoughSlideExists`).
- *A frozen window.* When `stepsInFuture` exceeds `stepsPerGPU * (devices - 1)` the unsigned subtraction wraps, the window
  never starts and the counter stays at zero. With equal GPUs this happens exactly when there are several rows and light
  needs more than the rounded `stepsPerGPU` steps for the part of a GPU beyond the slide point (`FrozenExactly`,
  `FrozenWindowExists`).
- *`setStateAfterSlides`* reaches the state of n single slides, but performs only n modulo the devices in y. Its flag differs
  from that of the last single slide exactly when that remainder is zero and the rank stands in the last row.
- *The box shape.* `ChargeAssignmentOnSupport` of NGP is one on the whole shifted range, the native one excludes the upper
  edge. The two interpolations agree on every field exactly at positions off the half-cell planes.
- *Restart and slides.* The loader restores counter and grid including the slide of the checkpointed step t, and the run
  loop then checks that step again: if it slides, the grid slides twice (`DoubleSlideExists`). Before that, a background
  for the pusher makes `init` ask the window about t + 1: if that step slides, it is counted too early
  (`EarlyCountExists`). Both are exact conditions (`RestartContinuesExactly`). The early count is made good in the next
  step, unless both steps slide: then the counter stays too large by two for the rest of the run (`RestartedRunState`).
- *Background field at a restart.* The field loaded holds the background of step t, but `init` subtracts that of t + 1, and
  if t + 1 slides, evaluated one GPU too far along the grid. The solver runs free of background exactly when the two
  values are equal, or the rank is reset by the repeated check (`RestartBackgroundExact`, `SpatialLeftoverExists`).
- *The memory test's `int` arithmetic.* Loop indices fit exactly while units and threads together do not exceed 2^31
  (`IndicesFitExactly`); the byte offsets of the block move fit exactly up to 2048 blocks, and block 2049 is addressed in
  front of the buffer (`BlockAddressesFit`, `BlockAddressOverflows`).
- *Grid distribution.* The search for a GPU's run counts in `int`: it finds the run exactly when the run ends within 2^31
  GPUs, and otherwise walks off the list or finds a later run (`FoundExactly`, `RunEndOverflows`). A total of cells that is too large by 2^32 passes the assertion on it, and offsets are then too
  small (`OffsetsFitExactly`, `OverflowPassesAssertion`).
- *Energy bins.* The bin number is converted to `int` before it is clamped, which is defined exactly for energies between
  the edges of bins -2^31 and 2^31 (`RawBinFitsInt`).
- *Checkpoint steps of 2^31 and above* are written as unsigned and read back as "no checkpoint".
- *`movinv32`* compares its pattern index `k` with 32 but never raises it; the pattern never restarts. The model keeps that.

## Model

| member | source | states |
|---|---|---|
| CartTopology.RankOfCoords | src/libPMacc/include/communication/CommunicatorMPI.hpp:108-118 | the row-major numbering of the Cartesian communicator: a rank's coordinates lie in the grid and give the rank back |
| CartTopology.CoordsOfRank | src/libPMacc/include/communication/CommunicatorMPI.hpp:108-118 | the other direction: a place of the grid is the place of exactly the rank it numbers |
| CartTopology.RowMajorOrder | src/libPMacc/include/communication/CommunicatorMPI.hpp:108-118 | ranks are ordered like their coordinates, the last dimension running fastest |
| CartTopology.ExchangeTypeDigits | src/libPMacc/include/memory/dataTypes/Mask.hpp:140-158 | the loop that divides by three reads the ternary digit of its dimension: digit 1 is RIGHT, BOTTOM or BACK, digit 2 is LEFT, TOP or FRONT |
| CartTopology.EveryStepHasType | src/libPMacc/include/communication/CommunicatorMPI.hpp:324-346 | the types in use are 1 to 8 in two dimensions and 1 to 26 in three, and every step to an adjacent place has the one whose ternary digits it spells |
| CartTopology.EveryTypeIsStep | src/libPMacc/include/communication/CommunicatorMPI.hpp:324-346 | and every one of these types is such a step |
| CartTopology.MirrorReverses | src/libPMacc/include/memory/dataTypes/Mask.hpp:204-225 | the mirrored exchange type displaces the opposite way in all dimensions, stays in use for the given DIM, and mirroring twice is the identity |
| CommunicatorMPI.VirtualGridIsBijective | src/libPMacc/include/communication/CommunicatorMPI.hpp:295-317 | for every y-offset, ranks and virtual coordinates determine each other |
| CommunicatorMPI.OffsetClosedForm | src/libPMacc/include/communication/CommunicatorMPI.hpp:193-208 | after any number of slides the offset is minus (slides - start) modulo the devices in y, hence in (-dims[1], 0] |
| CommunicatorMPI.SlideLowersY | src/libPMacc/include/communication/CommunicatorMPI.hpp:193-208 | one slide lowers the virtual y of every rank by one cyclically and changes nothing else; the rank at y = 0 goes to the end |
| CommunicatorMPI.NeighbourByCode | src/libPMacc/include/communication/CommunicatorMPI.hpp:327-366 | the code's shift, C++ remainder of negative operands and MPI wrapping give the neighbour of the sliding grid; the range tests reject exactly the steps across a non-periodic border, and MPI never sees an out-of-range coordinate of a non-periodic dimension |
| CommunicatorMPI.NeighbourIsMutual | src/libPMacc/include/communication/CommunicatorMPI.hpp:295-369 | with a common offset, s is r's neighbour in direction d exactly as r is s's in the mirrored direction |
| CommunicatorMPI.WorldIsUniform | src/libPMacc/include/communication/CommunicatorMPI.hpp:193-208 | after n common slides every rank, from its own stored state alone, holds coordinates, table and mask of the grid slid n times |
| CommunicatorMPI.NeighbourTablesAgree | src/libPMacc/include/communication/CommunicatorMPI.hpp:295-369 | after any common number of slides, for every rank and direction: mask bit, table entry and border agree, the partner is a rank at the place one step away, and its table points back |
| CommunicatorMPI.NeighbourAt | src/libPMacc/include/communication/CommunicatorMPI.hpp:324-368 | after any common number of slides, by displacement (dx, dy, dz): every rank's table has an entry for it, the mask has its bit exactly when every coordinate stays in the grid or its dimension is periodic, and the entry is the rank at the place reached, wrapped |
| CommunicatorMPI.FacesTellBorders | src/libPMacc/include/communication/CommunicatorMPI.hpp:348-364 | the six face bits of the mask are missing exactly on the closed border of that side, FRONT and BACK included in three dimensions |
| CommunicatorMPI.TableKeys | src/libPMacc/include/communication/CommunicatorMPI.hpp:324-368 | the table has entries for exactly the types 1 to 8, or 1 to 26 |
| CommunicatorMPI.EveryPlaceHasOneRank | src/libPMacc/include/communication/CommunicatorMPI.hpp:295-317 | after any common number of slides every place of the grid is held by exactly one rank, judged by the coordinates the ranks store |
| CommunicatorMPI.OffsetIsPeriodic | src/libPMacc/include/communication/CommunicatorMPI.hpp:210-219 | sliding n modulo dims[1] times reaches the offset of n slides, from every starting offset |
| CommunicatorMPI.ShortcutFlagExact | src/libPMacc/include/communication/CommunicatorMPI.hpp:210-219 | the shortcut's flag is that of the last of n slides if and only if n is no multiple of dims[1] or the rank does not stand in the last row |
| CommunicatorMPI.OwnCoordinates | src/libPMacc/include/communication/CommunicatorMPI.hpp:301-317 | MPI's coordinates plus offset, wrapped by the `while` loop, are the virtual coordinates |
| CommunicatorMPI.TableEntry | src/libPMacc/include/communication/CommunicatorMPI.hpp:323-368 | one round of the direction loop finds the neighbour or none |
| CommunicatorMPI.Communicator.Init | src/libPMacc/include/communication/CommunicatorMPI.hpp:89-125 | refuses a process count that is not the grid's size; otherwise the state is that of the unslid grid |
| CommunicatorMPI.Communicator.UpdateCoordinates | src/libPMacc/include/communication/CommunicatorMPI.hpp:295-369 | rebuilds coordinates, neighbour table and mask for the current offset, for every exchange type from 1 to 8 or 26 |
| CommunicatorMPI.Communicator.Slide | src/libPMacc/include/communication/CommunicatorMPI.hpp:193-208 | the whole new state is that of the next offset; true exactly on the ranks that were at y = 0 and now are at the end |
| CommunicatorMPI.Communicator.SetStateAfterSlides | src/libPMacc/include/communication/CommunicatorMPI.hpp:210-219 | the whole new state is that of n single slides, for every n and starting state |
| CommunicatorMPI.Communicator.ExchangeTypeToRank | src/libPMacc/include/communication/CommunicatorMPI.hpp:373-376 | the table lookup returns the neighbour of the sliding grid |
| MovingWindow.ScheduleIsValid | src/picongpu/include/simulationControl/MovingWindow.hpp:54-73 | the rounded step constants keep the bounds the motion needs: light crosses a GPU in stepsPerGPU steps up to half a step |
| MovingWindow.WindowSpansAllButOneRow | src/picongpu/include/simulationControl/MovingWindow.hpp:54-56 | with equal GPUs the window is as long as all rows of GPUs but one |
| MovingWindow.WindowStartsAtSlidePoint | src/picongpu/include/simulationControl/MovingWindow.hpp:61-73 | a window that is not frozen starts when light has crossed slide_point times its length, up to one step and half a step for each row it spans |
| MovingWindow.WindowFollowsLight | src/picongpu/include/simulationControl/MovingWindow.hpp:70-91 | at every later step the window begins where light is less the window's length, up to half a cell and half a step's way for each GPU crossed |
| MovingWindow.FirstSteps | src/picongpu/include/simulationControl/MovingWindow.hpp:72-77 | the unsigned subtractions: either the intended step numbers, or a wrapped first moving step beyond every step in range |
| MovingWindow.ExpectedSlidesStep | src/picongpu/include/simulationControl/MovingWindow.hpp:70-84 | the counter's closed form, zero for a frozen window and otherwise max(0, (t + stepsInFuture) / stepsPerGPU - (devices - 1)), grows by one exactly in the steps in which the code slides |
| MovingWindow.RepeatedQueries | src/picongpu/include/simulationControl/MovingWindow.hpp:95-110 | any number of queries in a step count at most one slide |
| MovingWindow.FreshRunCountsSlides | src/picongpu/include/simulationControl/MovingWindow.hpp:46-110 | after step t of a fresh run with any numbers of same-step queries the counter is the expected number of slides |
| MovingWindow.FormulaHoldsExactly | src/picongpu/include/simulationControl/MovingWindow.hpp:46-110 | over a whole fresh run the counter equals max(0, (t + stepsInFuture) / stepsPerGPU - (devices - 1)) at every step if and only if the window is not frozen or the formula is still zero at the last step |
| MovingWindow.FrozenExactly | src/picongpu/include/simulationControl/MovingWindow.hpp:61-73 | with equal GPUs the unsigned wrap freezes the window if and only if there are several rows and StepsAcrossGPU * (1 - slide_point) exceeds the rounded steps per GPU |
| MovingWindow.FrozenWindowExists | src/picongpu/include/simulationControl/MovingWindow.hpp:61-77 | a concrete frozen setup: the formula says one slide, the counter of every run says none |
| MovingWindow.OffsetStaysInFirstGPU | src/picongpu/include/simulationControl/MovingWindow.hpp:86-91 | over a whole run the offset lies in [0, localSize] if and only if the start is smooth or not reached |
| MovingWindow.HalfCellIsSmooth | src/picongpu/include/simulationControl/MovingWindow.hpp:62-64 | half a cell per step makes the start smooth |
| MovingWindow.WindowMotion | src/picongpu/include/plugins/IntensityPlugin.hpp:282-283 | at up to one cell per step, slides * localSize + offset never falls and grows by at most one per step in the whole run, slides included, if and only if the start is smooth or no step of the run enters it, and the slides are smooth or the run has none |
| MovingWindow.MotionAcrossSlide | src/picongpu/include/simulationControl/MovingWindow.hpp:70-91 | at any speed: across a slide the window never falls back, and it moves by at most one cell if and only if localSize plus the first offset exceeds the last one by at most one |
| MovingWindow.TwoThirdsIsSmooth | src/picongpu/include/simulationControl/MovingWindow.hpp:70-91 | two thirds of a cell per step make every slide smooth |
| MovingWindow.RoughSlideExists | src/picongpu/include/simulationControl/MovingWindow.hpp:70-91 | a concrete setup at nine tenths of a cell per step with a smooth start whose first slide skips a cell |
| MovingWindow.RoughStartExists | src/picongpu/include/simulationControl/MovingWindow.hpp:86-91 | a concrete setup at three fifths of a cell per step whose window starts with a step backwards |
| MovingWindow.SlidePointAvoidsFreezing | src/picongpu/include/simulationControl/MovingWindow.hpp:61-73 | a slide point worth half a step per GPU is enough to avoid freezing; the exact condition is FrozenExactly |
| MovingWindow.WindowsTile | src/picongpu/include/simulationControl/MovingWindow.hpp:218-260 | with y non-periodic and at least two rows, the local windows start with the global one, follow each other without gap or overlap and end with it, if and only if the offset is not negative |
| MovingWindow.EachCellShownOnce | src/picongpu/include/simulationControl/MovingWindow.hpp:218-260 | at every step and offset, negative ones included, every cell of the global window is shown by exactly one row; it lies in that row's domain if and only if the offset does not put it before the first one |
| MovingWindow.StepArithmetic | src/picongpu/include/simulationControl/MovingWindow.hpp:54-73 | stepsInFuture is the least whole number of steps for the way left and afterComma its (non-positive) excess, stepsPerGPU the crossing time up to half a step, and both first steps are right modulo 2^32 and a GPU's crossing apart |
| MovingWindow.Tracker.IncrementSlideCounter | src/picongpu/include/simulationControl/MovingWindow.hpp:103-110 | counts once per step, only when active |
| MovingWindow.Tracker.GetCurrentSlideInfo | src/picongpu/include/simulationControl/MovingWindow.hpp:46-93 | slide decision, offset and counter update; nothing happens while inactive |
| MovingWindow.Tracker.GetSlideCounter | src/picongpu/include/simulationControl/MovingWindow.hpp:157-161 | the returned count includes a slide of the asked step |
| MovingWindow.Tracker.SlideInCurrentStep | src/picongpu/include/simulationControl/MovingWindow.hpp:179-189 | true exactly in the steps that slide |
| MovingWindow.Tracker.GetWindow | src/picongpu/include/simulationControl/MovingWindow.hpp:218-260 | the y parts of global and local window, by the rank's own mask and domain offset; the global window is the domain less one row while sliding is active, and the whole domain otherwise |
| SlidingSimulation.FreshRunState | src/picongpu/include/simulationControl/MySimulation.hpp:459-501 | on every rank of a fresh run, whatever its own queries, the counter is the expected one and the grid is that many slides away from the start |
| SlidingSimulation.OffsetFollowsCounter | src/libPMacc/include/communication/CommunicatorMPI.hpp:193-208 | at every step the communicator's offset is minus the slide counter modulo the rows, and all ranks share one world |
| SlidingSimulation.MaskTellsBorders | src/picongpu/include/simulationControl/MovingWindow.hpp:237-241 | with y non-periodic, TOP is missing in the mask exactly in row 0 and BOTTOM exactly in the last row, for every offset |
| SlidingSimulation.ColumnShowsEachCellOnce | src/picongpu/include/simulationControl/MovingWindow.hpp:218-260 | at every step of every fresh run, whatever the speed and the start, every column shows every cell of the global window on exactly one rank, each rank using its own mask and place after all slides |
| SlidingSimulation.RestartContinuesExactly | src/picongpu/include/simulationControl/MySimulation.hpp:357-368 | after a restart from step t and its first check: the counter is that of the checkpointed run if and only if no background is pushed or t + 1 does not slide, and the grid is if and only if t did not slide or there is one row |
| SlidingSimulation.RestartedRunExact | src/libPMacc/include/simulationControl/SimulationHelper.hpp:215-235 | at every step after t the counter is that of the uninterrupted run if and only if not (a background is pushed and t and t + 1 both slide), and the grid is if and only if t did not slide or there is one row |
| SlidingSimulation.RestartedRunState | src/libPMacc/include/simulationControl/SimulationHelper.hpp:215-235 | the state itself at every later step: the counter right or too large by two for ever, the grid one slide ahead or not |
| SlidingSimulation.RestoreSlides | src/picongpu/include/plugins/hdf5/HDF5Writer.hpp:194-204 | the loader's two calls and the query of init leave communicator and window in the state from which the restart results start |
| SlidingSimulation.DoubleSlideExists | src/picongpu/include/plugins/hdf5/HDF5Writer.hpp:194-204 | a concrete two-GPU setup where every rank of a two-row grid ends one row off after a restart in a slide step |
| SlidingSimulation.EarlyCountExists | src/picongpu/include/fields/background/cellwiseOperation.hpp:104-114 | the same setup, where a restart before a slide counts that slide too early |
| SlidingSimulation.MovingWindowCheck | src/picongpu/include/simulationControl/MySimulation.hpp:459-501 | the communicator slides exactly in the steps that slide, and both fields are cleared exactly on the rank that was at y = 0, unchanged on all others |
| Interpolation.ShiftIsSafe | src/picongpu/include/algorithms/FieldToParticleInterpolation.hpp:46-56 | for every support and relative position, the shifted position lies in [0,1) or [-0.5,0.5) and all cells read lie within the margins |
| Interpolation.MarginsAreTight | src/picongpu/include/algorithms/FieldToParticleInterpolation.hpp:49-56 | no smaller margin would do, for any support |
| Interpolation.ShiftIsUnique | src/picongpu/include/algorithms/ShiftCoordinateSystem.hpp:118-145 | no other whole shift brings the position into the static system |
| Interpolation.ShiftCoordinateSystem | src/picongpu/include/algorithms/ShiftCoordinateSystem.hpp:45-109 | in place and per dimension: cursor move plus new position plus field offset is the old position, and the new position is in the static range |
| Interpolation.AxisTransport | src/picongpu/include/algorithms/AssignedTrilinearInterpolation.hpp:70-98 | along one axis, a sum over the support equals the sum over the margin when the weights agree after the shift |
| Interpolation.CubesAgree | src/picongpu/include/algorithms/AssignedTrilinearInterpolation.hpp:70-98 | three agreeing axes give equal triple sums for every field |
| Interpolation.ProductSum3D | src/picongpu/include/algorithms/AssignedTrilinearInterpolation.hpp:70-98 | a field that is a product of one factor per axis is interpolated axis by axis |
| Interpolation.ProductSum2D | src/picongpu/include/algorithms/AssignedTrilinearInterpolation.hpp:101-123 | the same in two dimensions |
| Interpolation.FieldsAdd3D | src/picongpu/include/algorithms/AssignedTrilinearInterpolation.hpp:70-98 | fields add up |
| Interpolation.FieldsAdd2D | src/picongpu/include/algorithms/AssignedTrilinearInterpolation.hpp:101-123 | the same in two dimensions |
| Interpolation.SingleCellSum3D | src/picongpu/include/algorithms/AssignedTrilinearInterpolation.hpp:70-98 | a value in one cell counts with the product of that cell's three weights, and not at all outside the range |
| Interpolation.SingleCellSum2D | src/picongpu/include/algorithms/AssignedTrilinearInterpolation.hpp:101-123 | a value in one cell of the plane counts with the product of that cell's two weights |
| Interpolation.AgreeingShapesAgreeOnAxis | src/picongpu/include/algorithms/ShiftCoordinateSystemNative.hpp:32-49 | shapes that agree on (-s/2, s/2] with a native form that vanishes elsewhere weigh every margin cell alike |
| Interpolation.OptimisedEqualsNative3D | src/picongpu/include/algorithms/FieldToParticleInterpolation.hpp:46-95 | the optimised interpolation equals the native one for every support, field, position in [0,1) and field offset in [0,1/2] |
| Interpolation.OptimisedEqualsNative2D | src/picongpu/include/algorithms/AssignedTrilinearInterpolation.hpp:101-123 | the same in two dimensions |
| Interpolation.Interpolate3D | src/picongpu/include/algorithms/AssignedTrilinearInterpolation.hpp:70-98 | the nested loops compute the weighted triple sum and read inside the margins only |
| Interpolation.Interpolate2D | src/picongpu/include/algorithms/AssignedTrilinearInterpolation.hpp:101-123 | the two loops compute the weighted double sum and read inside the margins only |
| Interpolation.OptimisedComponent | src/picongpu/include/algorithms/FieldToParticleInterpolation.hpp:58-93 | one component: shift in place, then sum over the support |
| Interpolation.NativeComponent | src/picongpu/include/algorithms/FieldToParticleInterpolationNative.hpp:46-89 | one component over the full margin |
| Interpolation.FieldToParticle | src/picongpu/include/algorithms/FieldToParticleInterpolation.hpp:58-95 | the vector functor with one field offset per component returns the native values |
| Interpolation.FieldToParticle2D | src/picongpu/include/algorithms/FieldToParticleInterpolation.hpp:58-95 | the same for a two-dimensional position with three field components |
| Interpolation.NativeComponent2D | src/picongpu/include/algorithms/FieldToParticleInterpolationNative.hpp:54-89 | one component over the full margin in two dimensions |
| Shapes.ContinuousShapesAgree | src/picongpu/include/particles/shapes/TSC.hpp:36-116 | CIC, TSC, PCS and P4S meet the requirement of the interpolation: both variants agree on the support, the native one is zero elsewhere |
| Shapes.ShapesDistribute | src/picongpu/include/particles/shapes/P4S.hpp:35-147 | for NGP, CIC, TSC, PCS and P4S the weights of the cells add up to one at every position; for all but NGP their mean is the position |
| Shapes.LinearFieldIsExact | src/picongpu/include/algorithms/FieldToParticleInterpolation.hpp:58-95 | with such a shape a linear field is returned exactly at the particle's place, for every position and field offset |
| Shapes.NgpNativeWeights | src/picongpu/include/particles/shapes/NGP.hpp:50-67 | the native box shape gives the particle to exactly one cell of the margin, and to none at a relative position of -1/2 |
| Shapes.NgpAxisExact | src/picongpu/include/particles/shapes/NGP.hpp:47-85 | on one axis the two box shapes weigh alike if and only if the position is not half way between cells |
| Shapes.NgpInterpolationExact | src/picongpu/include/particles/shapes/NGP.hpp:47-85 | with the box shape the two interpolations agree on every field if and only if no coordinate is half way between cells |
| GridStride.StepKeepsInv | thirdParty/cuda_memtest/ocl_memtest_kernels.cpp:9-16 | any step of any thread keeps the invariant of memory, counter and ring |
| GridStride.AddressesFitExactly | thirdParty/cuda_memtest/ocl_memtest_kernels.cpp:369-439 | the `int` address arithmetic of a kernel is free of wrap-around if and only if that of its last unit stays below 2^31 |
| GridStride.IndicesFitExactly | thirdParty/cuda_memtest/ocl_memtest_kernels.cpp:74-147 | in every finished run all loop indices, the final ones included, stay below 2^31 if and only if units and threads together do not exceed 2^31 |
| GridStride.EveryInterleaving | thirdParty/cuda_memtest/ocl_memtest_kernels.cpp:9-147 | while indices and addresses fit `int`: every schedule that finishes leaves every index done once, raises the counter by the number of bad units (modulo 2^32), and from zero with at most ten of them the ring reports each exactly once |
| GridStride.GoodStep | thirdParty/cuda_memtest/ocl_memtest_kernels.cpp:74-147 | every step of an unfinished thread uses up work, so no schedule of unfinished threads runs forever |
| GridStride.StrideHitsOnce | thirdParty/cuda_memtest/ocl_memtest_kernels.cpp:74-89 | the indices t, t + n, t + 2n, ... of all n threads hit every index in exactly one round of one thread |
| GridStride.RunAllThreads | thirdParty/cuda_memtest/ocl_memtest_kernels.cpp:74-147 | a scheduler that picks any unfinished thread ends with that outcome |
| GridStride.Device.Launch | thirdParty/cuda_memtest/ocl_tests.cpp:110-160 | a launch whose indices and addresses fit `int` changes memory, counter and ring by the kernel's outcome |
| Memtest.RewriteOutcome | thirdParty/cuda_memtest/ocl_memtest_kernels.cpp:18-147 | for the word-wise kernels: the bad units are exactly the mismatching words, and every word written has its new value |
| Memtest.CheckedLaunch | thirdParty/cuda_memtest/ocl_memtest_kernels.cpp:18-147 | a launch on any memory counts exactly the words that are not what is expected and leaves the new values in place |
| Memtest.SelectedExactly | thirdParty/cuda_memtest/ocl_memtest_kernels.cpp:28-34 | the words that modtest selects: every twentieth from the offset, and where the offset exceeds the index by more than twenty, shifted by the wrap of the unsigned difference |
| Memtest.NextThreadShifts | thirdParty/cuda_memtest/ocl_memtest_kernels.cpp:248-258 | in a group of 32 threads each thread's pattern is its neighbour's shifted by one place and filled with sval; an offset of 32 starts the second thread from the lower bound |
| Memtest.ReadInEveryInterleaving | thirdParty/cuda_memtest/ocl_memtest_kernels.cpp:123-147 | `kernel_read` under any interleaving, with words and threads together at most 2^31: memory unchanged, counter raised by exactly the number of mismatching cells, and from zero with at most ten the ring holds each bad cell once with address, expected and actual value |
| Memtest.MoveInvTest | thirdParty/cuda_memtest/ocl_tests.cpp:110-160 | whatever words change after the first and after the second launch, the count rises by exactly the number of words changed to something else; memory ends as the complement of the pattern except where it changed last; without changes the count stays |
| Memtest.StressTest | thirdParty/cuda_memtest/ocl_tests.cpp:726-791 | the same for test10, with changes before each of any number of reads; the final pattern depends on the parity of the rounds |
| Memtest.ModTest | thirdParty/cuda_memtest/ocl_tests.cpp:561-602 | the same for the modulo-20 test; for offsets below 20 the words at i % 20 == offset hold the pattern, all others its partner |
| Memtest.MovInv32Test | thirdParty/cuda_memtest/ocl_tests.cpp:399-456 | the same for the 32-bit pattern test, where each thread has its own pattern |
| Memtest.RandomBlockTest | thirdParty/cuda_memtest/ocl_tests.cpp:490-546 | for any block the host fills in: counted are the words that disagree with the first block, and then with its complement, as that block stands at each read; the memory at the end, word for word |
| BlockMove.MoveRotatesBlocks | thirdParty/cuda_memtest/ocl_memtest_kernels.cpp:393-422 | under any interleaving, while block offsets fit `int`, the block move turns each block into the old first half rotated by eight words, in the source's layout of both halves |
| BlockMove.BlocksAreRotated | thirdParty/cuda_memtest/ocl_memtest_kernels.cpp:401-417 | on the whole memory, in the source's numbers: word j of the old first half of 131072 words goes to place (j + 8) modulo 131072 and to place 131072 + j of its block |
| BlockMove.BlockAddressesFit | thirdParty/cuda_memtest/ocl_memtest_kernels.cpp:396-404 | the byte offsets `i*BLOCKSIZE` of the move fit `int` if and only if there are at most 2048 blocks |
| BlockMove.BlockAddressOverflows | thirdParty/cuda_memtest/ocl_memtest_kernels.cpp:396-404 | with 2049 blocks the last offset wraps to a negative number |
| BlockMove.MoveKeepsPairs | thirdParty/cuda_memtest/ocl_memtest_kernels.cpp:393-422 | equal pairs stay equal pairs |
| BlockMove.InitMakesPairs | thirdParty/cuda_memtest/ocl_memtest_kernels.cpp:356-391 | the initialisation makes all pairs equal, for every number of threads |
| BlockMove.InitWordsAlternate | thirdParty/cuda_memtest/ocl_memtest_kernels.cpp:365-385 | the sixteen words of a chunk are equal in pairs and change to the complement from pair to pair, starting with the thread's bit |
| BlockMove.BitDoubles | thirdParty/cuda_memtest/ocl_memtest_kernels.cpp:365-368 | that bit doubles from thread to thread |
| BlockMove.CheckFindsUnequalPairs | thirdParty/cuda_memtest/ocl_memtest_kernels.cpp:424-446 | the check's bad units are exactly the unequal pairs |
| BlockMove.BlockMoveTest | thirdParty/cuda_memtest/ocl_tests.cpp:344-382 | the memory after each launch, word for word; whatever words change in between, the count rises by exactly the number of unequal pairs at the end, and stays when nothing changes; up to 2048 blocks |
| HostRank.StepKeepsInv | src/libPMacc/include/communication/CommunicatorMPI.hpp:251-291 | every send, receive and rendezvous keeps the map of host counters and the messages under way right |
| HostRank.NoDeadlock | src/libPMacc/include/communication/CommunicatorMPI.hpp:251-291 | in every reachable incomplete state something can happen even if MPI buffers nothing |
| HostRank.RunIsBounded | src/libPMacc/include/communication/CommunicatorMPI.hpp:251-291 | every interleaving ends |
| HostRank.HostRanksAreRight | src/libPMacc/include/communication/CommunicatorMPI.hpp:251-291 | when a run is complete every rank holds the number of lower ranks with its hostname, and a run that cannot continue is complete |
| HostRank.HostRanksOfProcessors | src/libPMacc/include/communication/CommunicatorMPI.hpp:227-258 | in terms of the processor names that MPI reports: the size of the set of lower ranks whose names agree after the clean-up |
| HostRank.NameCharsAre | src/libPMacc/include/communication/CommunicatorMPI.hpp:231-235 | letters, digits, underscore and hyphen, and no other character, belong to a name |
| HostRank.CleanKeeps | src/libPMacc/include/communication/CommunicatorMPI.hpp:227-241 | a name is cut at the first other character and kept up to there |
| HostRank.SelectDevice | src/libPMacc/include/Environment.hpp:35-61 | the returned device is usable and every device passed on the way up from the index, around the end, is not; failure exactly when none is usable |
| HostRank.DistinctDevices | src/libPMacc/include/Environment.hpp:35-61 | with all devices usable and at least as many as ranks on the host, ranks of one host get different devices |
| RunLoop.RestartIsSeamless | src/libPMacc/include/simulationControl/SimulationHelper.hpp:191-237 | a fresh run stopped after dump k and a restart from k compute steps 0..runSteps-1 and dump 0..runSteps once each, in order |
| RunLoop.StoppedRunIsPrefix | src/libPMacc/include/simulationControl/SimulationHelper.hpp:191-237 | the stopped run is a beginning of the full run |
| BackgroundField.FreshRunBackground | src/picongpu/include/simulationControl/MySimulation.hpp:389-478 | for every background in space and time and every pattern of slides and resets: in a fresh run the background of step t is present exactly once at dump t and absent whenever the solver runs |
| BackgroundField.SlideKeepsCell | src/picongpu/include/fields/background/cellwiseOperation.hpp:107-114 | a slide leaves the physical place at which every cell is evaluated unchanged, except on the reset rank, whose cells continue behind the grid |
| BackgroundField.CellsAreApart | src/picongpu/include/fields/background/cellwiseOperation.hpp:107-114 | every row of cells of every row of GPUs has its own physical place, in grid order |
| BackgroundField.FreshCellStays | src/picongpu/include/fields/background/cellwiseOperation.hpp:107-114 | the same from step to step of a whole fresh run |
| BackgroundField.RestartRemoves | src/picongpu/include/simulationControl/MySimulation.hpp:357-368 | what init removes: the next step's background, one GPU further along if that step slides |
| BackgroundField.RestartBackgroundExact | src/picongpu/include/simulationControl/MySimulation.hpp:357-368 | after a restart from t all solver calls and dumps are right if and only if nothing is pushed, or the rank is reset in the repeated check, or the value at the cell's place in t equals the one removed for t + 1 |
| BackgroundField.SpatialLeftoverExists | src/picongpu/include/simulationControl/MySimulation.hpp:357-368 | a background constant in time is left behind too, when the step after the checkpoint slides |
| BackgroundField.RisingSlides | src/picongpu/include/simulationControl/MovingWindow.hpp:70-84 | the slides of that example are those of a two-GPU setup |
| BackgroundField.LeftoverStays | src/picongpu/include/simulationControl/MySimulation.hpp:389-478 | a leftover changes no decision and stays in the field unchanged until the rank is reset |
| BackgroundField.RestartedCellExact | src/picongpu/include/fields/background/cellwiseOperation.hpp:107-114 | a restarted rank evaluates the background at the saved place if and only if t did not slide (or there is one row) and t + 1 does not or nothing is pushed |
| BackgroundField.FreshPlaceIsGpu | src/picongpu/include/simulationControl/MySimulation.hpp:459-501 | row and counter of this model are those of the communicator and window of every rank of a fresh run |
| BackgroundField.RestartedPlaceIsGpu | src/picongpu/include/simulationControl/MySimulation.hpp:357-368 | and those of a restarted rank |
| PluginConnector.NotifiedAtMultiples | src/libPMacc/include/pluginSystem/PluginConnector.hpp:120-149 | an object registered once is notified over a fresh run at exactly the multiples of its period |
| PluginConnector.NotificationsSurviveRestart | src/libPMacc/include/pluginSystem/PluginConnector.hpp:136-149 | stop and restart give the notification sequence of the uninterrupted run, for any registrations |
| PluginConnector.Connector.RegisterPlugin | src/libPMacc/include/pluginSystem/PluginConnector.hpp:51-59 | null is refused, anything else joins the list that checkpoints are asked from |
| PluginConnector.Connector.SetNotificationPeriod | src/libPMacc/include/pluginSystem/PluginConnector.hpp:120-129 | null is refused, period zero is never notified, anything else is appended |
| PluginConnector.Connector.NotifyPlugins | src/libPMacc/include/pluginSystem/PluginConnector.hpp:136-149 | calls every due entry once in list order and leaves each object's last notification right |
| PluginConnector.PassInOrder | src/libPMacc/include/pluginSystem/PluginConnector.hpp:136-149 | when all entries are due, one pass calls all of them in the order of registration |
| PluginConnector.Connector.CheckpointPlugins | src/libPMacc/include/pluginSystem/PluginConnector.hpp:157-165 | calls every plugin once in list order and leaves each one's last checkpoint right |
| SimulationHelper.ReadCheckpointMasterFile | src/picongpu/include/simulationControl/MySimulation.hpp:541-578 | the step of the last non-empty line, or -1 when there is no file, no such line, or it is no `int32_t` |
| SimulationHelper.LastLineDecides | src/picongpu/include/simulationControl/MySimulation.hpp:552-571 | an empty line changes nothing; any other last line decides, and hides earlier ones if it is no 32-bit number |
| SimulationHelper.RestartFromWrittenFile | src/picongpu/include/simulationControl/MySimulation.hpp:332-345 | a restart without a given step from the file of a run starts after the largest multiple of the period, or is refused if that needs more than 31 bits |
| SimulationHelper.MasterFileLists | src/libPMacc/include/simulationControl/SimulationHelper.hpp:119-162 | a fresh run writes exactly the multiples of the period |
| SimulationHelper.MasterFileReadsBack | src/picongpu/include/simulationControl/MySimulation.hpp:541-578 | reading that file yields the largest multiple not after the last dumped step, or -1 if and only if it needs more than 31 bits |
| SimulationHelper.MasterFileSurvivesRestart | src/libPMacc/include/simulationControl/SimulationHelper.hpp:339-352 | appending through stop and restart gives the file of the uninterrupted run |
| SimulationHelper.Simulation.Init | src/picongpu/include/simulationControl/MySimulation.hpp:324-368 | no initialiser or no request: step 0; a given step: the one after it, whatever the file; else the step after the one named last in the file, and failure exactly when there is none; on a restart row, counter and field of the checkpoint, less the background of the next step, whose query may move the counter |
| SimulationHelper.Simulation.DumpOneStep | src/libPMacc/include/simulationControl/SimulationHelper.hpp:119-162 | notifications, then plugins, master file line and checkpoint count, the latter only on due steps and the line only on rank 0 |
| SimulationHelper.Simulation.StartSimulation | src/libPMacc/include/simulationControl/SimulationHelper.hpp:191-237 | which steps are checked, computed and dumped in each of these cases; the state after the run is the closed form of that trace: place and background, file, count, notifications, checkpoints |
| SimulationHelper.ReachedIsResult | src/libPMacc/include/simulationControl/SimulationHelper.hpp:191-237 | executing any trace event by event gives the closed form |
| SimulationHelper.FreshRunFile | src/libPMacc/include/simulationControl/SimulationHelper.hpp:127-161 | a fresh run appends the multiples of the period to the master file on rank 0 only, counts them on every rank, and does neither without a period |
| SimulationHelper.FreshRunCalls | src/libPMacc/include/simulationControl/SimulationHelper.hpp:123-145 | over that run each plugin registered once is notified at the multiples of its own period and asked for checkpoints at those of the checkpoint period |
| SimulationHelper.RestartKeepsOutput | src/libPMacc/include/simulationControl/SimulationHelper.hpp:191-237 | stop and restart leave master file, notifications and checkpoint calls of the uninterrupted run |
| SimulationHelper.RestartKeepsSteps | src/libPMacc/include/simulationControl/SimulationHelper.hpp:191-237 | and take each step once, in order |
| SimulationHelper.RestartShiftsBackground | src/picongpu/include/simulationControl/MySimulation.hpp:357-368 | but end with the last step's background plus, unless the rank was reset on the way, the saved background less the one removed, at its possibly shifted place |
| GridDistribution.PlaceInRun | src/picongpu/include/initialization/ParserGridDistribution.hpp:48-99 | a GPU's entry in the decoded list and the sum before it, from the run it falls into, zero multipliers included |
| GridDistribution.FoundExactly | src/picongpu/include/initialization/ParserGridDistribution.hpp:51-64 | the search with its `int` counter finds the run that holds a GPU if and only if that run ends within 2^31 GPUs |
| GridDistribution.Parser.GetLocalSize | src/picongpu/include/initialization/ParserGridDistribution.hpp:84-99 | the decoded list's entry for every GPU whose run ends within 2^31 GPUs; otherwise what the search finds, or nothing when it walks off the list |
| GridDistribution.Parser.GetOffset | src/picongpu/include/initialization/ParserGridDistribution.hpp:48-77 | for the same GPUs the sum of the local sizes of all GPUs before, modulo 2^32, or the failed assertion on the total; off the list exactly when the search is |
| GridDistribution.DomainsTile | src/picongpu/include/simulationControl/MySimulation.hpp:179-193 | a cell lies in the domain of GPU p if and only if it is below the total and p is its one owner |
| GridDistribution.OffsetsFitExactly | src/picongpu/include/initialization/ParserGridDistribution.hpp:69-76 | once the assertion has passed: the total is the number of cells if and only if it fits 32 bits, and all offsets are exact if and only if the last one fits |
| GridDistribution.OverflowPassesAssertion | src/picongpu/include/initialization/ParserGridDistribution.hpp:69-76 | three GPUs whose total is too large by 2^32 pass the assertion and two of them start at cell zero |
| GridDistribution.RunEndOverflows | src/picongpu/include/initialization/ParserGridDistribution.hpp:51-64 | with a multiplier of 2^32 - 1 the search for GPU 0 walks off a list of one run, and finds the wrong run of two |
| GridDistribution.Parser.ParseString | src/picongpu/include/initialization/ParserGridDistribution.hpp:113-147 | the token loop computes the parse function, on every text; failure is a number beyond 32 bits |
| GridDistribution.ParseOfPrint | src/picongpu/include/initialization/ParserGridDistribution.hpp:104-147 | parsing the printed form of any list of 32-bit pairs returns the list |
| GridDistribution.RunNotation | src/picongpu/include/initialization/ParserGridDistribution.hpp:104-112 | the notation itself: multiplier in braces, left out when one, commas between |
| GridDistribution.LastMultiplierCounts | src/picongpu/include/initialization/ParserGridDistribution.hpp:130-136 | of several multipliers the last one counts |
| GridDistribution.TooLargeIsRefused | src/picongpu/include/initialization/ParserGridDistribution.hpp:142-144 | a number beyond 32 bits makes parsing fail |
| BinEnergy.BinIsExact | src/picongpu/include/plugins/BinEnergyParticles.hpp:165-185 | the code puts a particle into bin b, under- and overflow included, if and only if its energy lies in the interval of b and its conversion to `int` is defined |
| BinEnergy.BinsAreEqual | src/picongpu/include/plugins/BinEnergyParticles.hpp:165-167 | the bins divide the range from minEnergy to maxEnergy into equal parts |
| BinEnergy.AcceptedExactly | src/picongpu/include/plugins/BinEnergyParticles.hpp:127-137 | without a detector, or with momY <= 0, every particle is counted; else exactly those with -maxSlopeX * momY < momX < maxSlopeX * momY and -maxSlopeZ * momY < momZ < maxSlopeZ * momY |
| BinEnergy.RawBinFitsInt | src/picongpu/include/plugins/BinEnergyParticles.hpp:165-169 | the bin number before the clamps fits `int` if and only if the energy lies between the edges of bins -2^31 and 2^31 |
| BinEnergy.OrderDoesNotMatter | src/picongpu/include/plugins/BinEnergyParticles.hpp:109-203 | the bins do not depend on the order of the atomic adds |
| BinEnergy.WeightIsConserved | src/picongpu/include/plugins/BinEnergyParticles.hpp:494-500 | all bins together hold the total weight of the accepted particles |
| BinEnergy.BinSuperCell | src/picongpu/include/plugins/BinEnergyParticles.hpp:109-203 | the walk from the last, partial frame to the first bins every particle of the supercell once, as long as every conversion is defined, which it reports exactly |
| BinEnergy.ParticlesOfFrames | src/picongpu/include/plugins/BinEnergyParticles.hpp:118-195 | the particles of a supercell are all those of its full frames and the first ones of the last frame, each once |
| BinEnergy.BinFrame | src/picongpu/include/plugins/BinEnergyParticles.hpp:130-190 | one frame adds each of its first `count` particles to its bin and no other; a single particle changes the bins if and only if it is inside the detector's opening, and then the bin of its energy by its share |
| BinEnergy.BinArea | src/picongpu/include/plugins/BinEnergyParticles.hpp:443-504 | the global bins hold the histogram of the whole area, and the total written behind them is the accepted weight, as long as every conversion is defined |

## Left out

- Rounding of floating-point numbers: all doubles and `float_X` are reals.
- Wrap-around of step numbers: the window's statements assume that step + stepsInFuture and stepsPerGPU * devices fit 32 bits.
- GridDistribution.Parser.GetOffset: walking off the list, undefined in C++, is a result of its own; what the code would read there is not modelled.
- BinEnergy.BinArea: after an undefined conversion nothing is said about the bins; at least one bin is taken, since the plugin disables itself otherwise.
- SlidingSimulation.ColumnShowsEachCellOnce: fresh runs only; the x and z parts of windows copy the domain and are not modelled.
- SimulationHelper.Simulation.DumpOneStep: the plugins' own reactions, directory creation, barriers and timing output are not modelled; a file is the list of its lines.
- SimulationHelper.Simulation.Init: what the checkpoint holds is a parameter; the `int` sum for a restart step of 2^31 - 1 is taken to wrap.
- SlidingSimulation.MovingWindowCheck: the reset and refill of particles on the sliding rank is not modelled.
- PluginConnector.Connector.NotifyPlugins: plugins are handles; their calls are recorded in order, what they do is not modelled.
- Interpolation.FieldToParticle: cursors are integer displacements.
- GridStride.EveryInterleaving: checks and stores are sequentially consistent single steps, and signed overflow, undefined in OpenCL C, is excluded by its bounds; memory changes by itself only between launches.
- The walking-bit kernels kernel0 and kernel1, the repeat loop of test8 and the return value of error_checking.
- Field solvers, particle pushers, current deposition, ionisation and the plugins other than the energy histogram.
- The internals of MPI, alpaka, Boost, HDF5 and ADIOS; the two regular expressions of the grid distribution are a hand-written tokenizer.
