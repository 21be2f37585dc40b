/** `CommunicatorMPI`: every rank keeps a cyclic y-offset over the Cartesian grid and rebuilds its virtual
    coordinates, its direction-to-rank table and its communication mask on every slide. */
module CommunicatorMPI {
  import opened Arith
  import opened CartTopology

  // ----- what the code computes, in terms of the whole grid

  /** Where `rank` sits in the sliding grid: its Cartesian place, moved cyclically in y. */
  function VirtualCoords(t: Topology, rank: int, yoffset: int): Coord
    requires t.Valid()
  {
    var c := CartCoords(t, rank);
    Coord(c.x, (c.y + yoffset) % t.dims.y, c.z)
  }

  /** Which rank sits at a virtual place. */
  function RankAt(t: Topology, yoffset: int, v: Coord): int
    requires t.Valid()
  {
    RowMajor(t, Coord(v.x, (v.y - yoffset) % t.dims.y, v.z))
  }

  predicate StaysInside(periodic: bool, c: int, size: int) {
    periodic || 0 <= c < size
  }

  /** Does a step from `v` in direction `d` cross a border of a non-periodic dimension? */
  predicate Leaves(t: Topology, v: Coord, d: nat) {
    || !StaysInside(t.periodicX, v.x + Displacement(DigitX(d)), t.dims.x)
    || !StaysInside(t.periodicY, v.y + Displacement(DigitY(d)), t.dims.y)
    || !StaysInside(t.periodicZ, v.z + Displacement(DigitZ(d)), t.dims.z)
  }

  function StepFrom(t: Topology, v: Coord, d: nat): Coord
    requires t.Valid()
  {
    Coord((v.x + Displacement(DigitX(d))) % t.dims.x,
          (v.y + Displacement(DigitY(d))) % t.dims.y,
          (v.z + Displacement(DigitZ(d))) % t.dims.z)
  }

  /** The rank that sits one step away in the sliding grid, or -1 when there is no such place. */
  function Neighbour(t: Topology, yoffset: int, rank: int, d: nat): int
    requires t.Valid()
  {
    var v := VirtualCoords(t, rank, yoffset);
    if Leaves(t, v, d) then -1 else RankAt(t, yoffset, StepFrom(t, v, d))
  }

  /** Everything a rank keeps about the grid. */
  datatype RankState = RankState(yoffset: int, coords: Coord, table: map<int, int>, mask: set<int>)

  function StateAt(t: Topology, rank: int, yoffset: int): RankState
    requires t.Valid()
  {
    RankState(yoffset, VirtualCoords(t, rank, yoffset),
              map d | 1 <= d < t.Directions() :: Neighbour(t, yoffset, rank, d),
              set d | 1 <= d < t.Directions() && Neighbour(t, yoffset, rank, d) != -1)
  }

  function NextOffset(t: Topology, yoffset: int): int {
    if yoffset - 1 == -t.dims.y then 0 else yoffset - 1
  }

  function OffsetAfter(t: Topology, yoffset: int, slides: nat): int {
    if slides == 0 then yoffset else NextOffset(t, OffsetAfter(t, yoffset, slides - 1))
  }

  predicate GoodOffset(t: Topology, yoffset: int) {
    -t.dims.y < yoffset <= 0
  }

  /** Rank numbers and virtual places determine each other, whatever the offset. */
  lemma VirtualGridIsBijective(t: Topology, yoffset: int, rank: int, v: Coord)
    requires t.Valid()
    ensures 0 <= rank < t.Size() ==>
              t.Contains(VirtualCoords(t, rank, yoffset)) && RankAt(t, yoffset, VirtualCoords(t, rank, yoffset)) == rank
    ensures t.Contains(v) ==>
              0 <= RankAt(t, yoffset, v) < t.Size() && VirtualCoords(t, RankAt(t, yoffset, v), yoffset) == v
  {
    if 0 <= rank < t.Size() {
      RankOfCoords(t, rank);
      var c := CartCoords(t, rank);
      ModOfSum(c.y + yoffset, -yoffset, t.dims.y);
      ModSmall(c.y, t.dims.y);
    }
    if t.Contains(v) {
      CoordsOfRank(t, Coord(v.x, (v.y - yoffset) % t.dims.y, v.z));
      ModOfSum(v.y - yoffset, yoffset, t.dims.y);
      ModSmall(v.y, t.dims.y);
    }
  }

  lemma StepBack(c: int, e: int, size: int)
    requires 0 <= c < size
    ensures ((c + e) % size - e) % size == c
  {
    ModOfSum(c + e, -e, size);
    ModSmall(c, size);
  }

  lemma StaysInsideBothWays(periodic: bool, c: int, e: int, size: int)
    requires 0 <= c < size && StaysInside(periodic, c + e, size)
    ensures StaysInside(periodic, (c + e) % size - e, size)
  {
    if !periodic {
      ModSmall(c + e, size);
    }
  }

  /** With one common offset the neighbour relation is symmetric. */
  lemma NeighbourIsMutual(t: Topology, yoffset: int, rank: int, d: nat)
    requires t.Valid() && 0 <= rank < t.Size() && 1 <= d < t.Directions()
    ensures var s := Neighbour(t, yoffset, rank, d);
            s == -1 || (0 <= s < t.Size() && Neighbour(t, yoffset, s, Mirrored(d)) == rank)
  {
    var v := VirtualCoords(t, rank, yoffset);
    VirtualGridIsBijective(t, yoffset, rank, v);
    if !Leaves(t, v, d) {
      var w := StepFrom(t, v, d);
      VirtualGridIsBijective(t, yoffset, rank, w);
      MirrorReverses(t, d);
      StepBack(v.x, Displacement(DigitX(d)), t.dims.x);
      StepBack(v.y, Displacement(DigitY(d)), t.dims.y);
      StepBack(v.z, Displacement(DigitZ(d)), t.dims.z);
      StaysInsideBothWays(t.periodicX, v.x, Displacement(DigitX(d)), t.dims.x);
      StaysInsideBothWays(t.periodicY, v.y, Displacement(DigitY(d)), t.dims.y);
      StaysInsideBothWays(t.periodicZ, v.z, Displacement(DigitZ(d)), t.dims.z);
      assert StepFrom(t, w, Mirrored(d)) == v;
    }
  }

  // ----- slides

  lemma OffsetClosedForm(t: Topology, yoffset: int, slides: nat)
    requires t.Valid() && GoodOffset(t, yoffset)
    ensures GoodOffset(t, OffsetAfter(t, yoffset, slides))
    ensures OffsetAfter(t, yoffset, slides) == -((slides - yoffset) % t.dims.y)
  {
    if slides == 0 {
      ModSmall(-yoffset, t.dims.y);
    } else {
      OffsetClosedForm(t, yoffset, slides - 1);
      DivModStep(slides - 1 - yoffset, t.dims.y);
    }
  }

  /** Only the number of slides modulo the number of devices in y matters. */
  lemma OffsetIsPeriodic(t: Topology, yoffset: int, slides: nat)
    requires t.Valid() && GoodOffset(t, yoffset)
    ensures OffsetAfter(t, yoffset, slides % t.dims.y) == OffsetAfter(t, yoffset, slides)
  {
    OffsetClosedForm(t, yoffset, slides);
    OffsetClosedForm(t, yoffset, slides % t.dims.y);
    ModOfSum(slides, -yoffset, t.dims.y);
  }

  /** A slide lowers the virtual y by one, cyclically; the last place is taken by whoever was at y = 0. */
  lemma SlideLowersY(t: Topology, rank: int, yoffset: int)
    requires t.Valid() && GoodOffset(t, yoffset)
    ensures var before := VirtualCoords(t, rank, yoffset);
            var after := VirtualCoords(t, rank, NextOffset(t, yoffset));
            after == before.(y := if before.y == 0 then t.dims.y - 1 else before.y - 1)
  {
    var y := CartCoords(t, rank).y;
    var n := t.dims.y;
    var b := (y + yoffset) % n;
    ModOfSum(y + yoffset, n - 1, n);
    assert (y + yoffset + n - 1) % n == (b + n - 1) % n;
    if NextOffset(t, yoffset) == 0 {
      assert y + yoffset + n - 1 == y;
    } else {
      ModOfSum(y + yoffset - 1, 0, n);
      ModPlusN(y + yoffset - 1, n);
    }
    assert VirtualCoords(t, rank, NextOffset(t, yoffset)).y == (b + n - 1) % n;
    if b == 0 {
      ModSmall(n - 1, n);
    } else {
      ModPlusN(b - 1, n);
      ModSmall(b - 1, n);
    }
  }

  lemma ModPlusN(x: int, n: int)
    requires n > 0
    ensures (x + n) % n == x % n
  {
    assert x + n == (x / n + 1) * n + x % n;
    DivModUnique(x + n, x / n + 1, x % n, n);
  }

  /** The flag that the last of `slides` single slides returns. */
  function LastSlideFlag(t: Topology, rank: int, yoffset: int, slides: nat): bool
    requires t.Valid() && slides > 0
  {
    VirtualCoords(t, rank, OffsetAfter(t, yoffset, slides)).y == t.dims.y - 1
  }

  /** The flag that `setStateAfterSlides` returns: it performs only the remainder of the slides. */
  function ShortcutFlag(t: Topology, rank: int, yoffset: int, slides: nat): bool
    requires t.Valid()
  {
    var k := slides % t.dims.y;
    k > 0 && LastSlideFlag(t, rank, yoffset, k)
  }

  /** Exactly when the shortcut's flag is the flag of the last single slide: it is lost when a whole number
      of turns brings a rank at the end of the grid back to that end. */
  lemma ShortcutFlagExact(t: Topology, rank: int, yoffset: int, slides: nat)
    requires t.Valid() && GoodOffset(t, yoffset) && slides > 0
    ensures ShortcutFlag(t, rank, yoffset, slides) == LastSlideFlag(t, rank, yoffset, slides)
       <==> slides % t.dims.y != 0 || VirtualCoords(t, rank, yoffset).y != t.dims.y - 1
  {
    OffsetIsPeriodic(t, yoffset, slides);
  }

  // ----- the whole machine: all ranks slide together

  /** One rank's slide, from its own stored state only. */
  function SlideState(t: Topology, rank: int, st: RankState): RankState
    requires t.Valid()
  {
    StateAt(t, rank, NextOffset(t, st.yoffset))
  }

  function WorldAfter(t: Topology, slides: nat): seq<RankState>
    requires t.Valid()
  {
    if slides == 0 then
      seq(t.Size(), r => StateAt(t, r, 0))
    else
      var w := WorldAfter(t, slides - 1);
      seq(|w|, r requires 0 <= r < |w| => SlideState(t, r, w[r]))
  }

  lemma {:induction false} WorldIsUniform(t: Topology, slides: nat)
    requires t.Valid()
    ensures var w := WorldAfter(t, slides);
            && |w| == t.Size()
            && forall r :: 0 <= r < |w| ==> w[r] == StateAt(t, r, -(slides % t.dims.y))
  {
    if slides > 0 {
      WorldIsUniform(t, slides - 1);
      OffsetClosedForm(t, 0, slides - 1);
      OffsetClosedForm(t, 0, slides);
    }
  }

  /** After any number of common slides: the tables of all ranks agree, every entry and every mask bit has its
      mirror image on the other side, and a missing neighbour is exactly a step over a closed border. */
  lemma NeighbourTablesAgree(t: Topology, slides: nat, r: int, d: nat)
    requires t.Valid() && 0 <= r < t.Size() && 1 <= d < t.Directions()
    ensures var w := WorldAfter(t, slides);
            && |w| == t.Size() && d in w[r].table
            && (d in w[r].mask <==> w[r].table[d] != -1)
            && (d !in w[r].mask <==> Leaves(t, w[r].coords, d))
            && (d in w[r].mask ==>
                  var s := w[r].table[d];
                  && 0 <= s < t.Size()
                  && w[s].coords == StepFrom(t, w[r].coords, d)
                  && Mirrored(d) in w[s].mask && w[s].table[Mirrored(d)] == r)
  {
    WorldIsUniform(t, slides);
    var yoffset := -(slides % t.dims.y);
    NeighbourIsMutual(t, yoffset, r, d);
    MirrorReverses(t, d);
    var v := VirtualCoords(t, r, yoffset);
    VirtualGridIsBijective(t, yoffset, r, v);
    VirtualGridIsBijective(t, yoffset, r, StepFrom(t, v, d));
  }

  predicate InGrid(periodic: bool, c: int, size: int) {
    periodic || (c >= 0 && c < size)
  }

  lemma StepByDisplacement(t: Topology, c: Coord, d: nat, dx: int, dy: int, dz: int)
    requires t.Valid()
    requires Displacement(DigitX(d)) == dx && Displacement(DigitY(d)) == dy && Displacement(DigitZ(d)) == dz
    ensures !Leaves(t, c, d) <==>
              && InGrid(t.periodicX, c.x + dx, t.dims.x) && InGrid(t.periodicY, c.y + dy, t.dims.y)
              && InGrid(t.periodicZ, c.z + dz, t.dims.z)
    ensures StepFrom(t, c, d) == Coord((c.x + dx) % t.dims.x, (c.y + dy) % t.dims.y, (c.z + dz) % t.dims.z)
  {
  }

  /** By displacement: rank `r`'s table has an entry for the step, its mask says whether that place exists, and the
      entry is the rank that stands there. */
  ghost predicate KnowsNeighbour(t: Topology, w: seq<RankState>, r: int, dx: int, dy: int, dz: int)
    requires t.Valid() && 0 <= r < |w|
  {
    var d, c := TypeOf(dx, dy, dz), w[r].coords;
    && d in w[r].table
    && (d in w[r].mask <==>
          && InGrid(t.periodicX, c.x + dx, t.dims.x) && InGrid(t.periodicY, c.y + dy, t.dims.y)
          && InGrid(t.periodicZ, c.z + dz, t.dims.z))
    && (d !in w[r].mask ==> w[r].table[d] == -1)
    && (d in w[r].mask ==>
          && 0 <= w[r].table[d] < |w|
          && w[w[r].table[d]].coords
             == Coord((c.x + dx) % t.dims.x, (c.y + dy) % t.dims.y, (c.z + dz) % t.dims.z))
  }

  lemma AgreementByDisplacement(t: Topology, w: seq<RankState>, r: int, d: nat, dx: int, dy: int, dz: int)
    requires t.Valid() && 0 <= r < |w| && d == TypeOf(dx, dy, dz) && d in w[r].table
    requires Displacement(DigitX(d)) == dx && Displacement(DigitY(d)) == dy && Displacement(DigitZ(d)) == dz
    requires d in w[r].mask <==> w[r].table[d] != -1
    requires d !in w[r].mask <==> Leaves(t, w[r].coords, d)
    requires d in w[r].mask ==> 0 <= w[r].table[d] < |w| && w[w[r].table[d]].coords == StepFrom(t, w[r].coords, d)
    ensures KnowsNeighbour(t, w, r, dx, dy, dz)
  {
    StepByDisplacement(t, w[r].coords, d, dx, dy, dz);
  }

  /** After any number of common slides every rank knows all its neighbours. */
  lemma NeighbourAt(t: Topology, slides: nat, r: int, dx: int, dy: int, dz: int)
    requires t.Valid() && 0 <= r < t.Size() && IsStep(t, dx, dy, dz)
    ensures |WorldAfter(t, slides)| == t.Size() && KnowsNeighbour(t, WorldAfter(t, slides), r, dx, dy, dz)
  {
    EveryStepHasType(t, dx, dy, dz);
    NeighbourTablesAgree(t, slides, r, TypeOf(dx, dy, dz));
    AgreementByDisplacement(t, WorldAfter(t, slides), r, TypeOf(dx, dy, dz), dx, dy, dz);
  }

  /** The six faces: each bit of the mask is missing exactly on the rank's closed border on that side. */
  lemma FacesTellBorders(t: Topology, slides: nat, r: int)
    requires t.Valid() && 0 <= r < t.Size()
    ensures |WorldAfter(t, slides)| == t.Size()
    ensures var st := WorldAfter(t, slides)[r];
            && (RIGHT in st.mask <==> t.periodicX || st.coords.x != t.dims.x - 1)
            && (LEFT in st.mask <==> t.periodicX || st.coords.x != 0)
            && (BOTTOM in st.mask <==> t.periodicY || st.coords.y != t.dims.y - 1)
            && (TOP in st.mask <==> t.periodicY || st.coords.y != 0)
            && (t.dim == 3 ==> (BACK in st.mask <==> t.periodicZ || st.coords.z != t.dims.z - 1))
            && (t.dim == 3 ==> (FRONT in st.mask <==> t.periodicZ || st.coords.z != 0))
  {
    PlaceInGrid(t, slides, r);
    NeighbourAt(t, slides, r, 1, 0, 0);
    NeighbourAt(t, slides, r, -1, 0, 0);
    NeighbourAt(t, slides, r, 0, 1, 0);
    NeighbourAt(t, slides, r, 0, -1, 0);
    FacesInWorld(t, WorldAfter(t, slides), r);
    if t.dim == 3 {
      NeighbourAt(t, slides, r, 0, 0, 1);
      NeighbourAt(t, slides, r, 0, 0, -1);
      DepthInWorld(t, WorldAfter(t, slides), r);
    }
  }

  lemma PlaceInGrid(t: Topology, slides: nat, r: int)
    requires t.Valid() && 0 <= r < t.Size()
    ensures |WorldAfter(t, slides)| == t.Size() && t.Contains(WorldAfter(t, slides)[r].coords)
  {
    WorldIsUniform(t, slides);
    var yoffset := -(slides % t.dims.y);
    VirtualGridIsBijective(t, yoffset, r, VirtualCoords(t, r, yoffset));
  }

  lemma FacesInWorld(t: Topology, w: seq<RankState>, r: int)
    requires t.Valid() && 0 <= r < |w| && t.Contains(w[r].coords)
    requires KnowsNeighbour(t, w, r, 1, 0, 0) && KnowsNeighbour(t, w, r, -1, 0, 0)
    requires KnowsNeighbour(t, w, r, 0, 1, 0) && KnowsNeighbour(t, w, r, 0, -1, 0)
    ensures RIGHT in w[r].mask <==> t.periodicX || w[r].coords.x != t.dims.x - 1
    ensures LEFT in w[r].mask <==> t.periodicX || w[r].coords.x != 0
    ensures BOTTOM in w[r].mask <==> t.periodicY || w[r].coords.y != t.dims.y - 1
    ensures TOP in w[r].mask <==> t.periodicY || w[r].coords.y != 0
  {
  }

  lemma DepthInWorld(t: Topology, w: seq<RankState>, r: int)
    requires t.Valid() && 0 <= r < |w| && t.Contains(w[r].coords)
    requires KnowsNeighbour(t, w, r, 0, 0, 1) && KnowsNeighbour(t, w, r, 0, 0, -1)
    ensures BACK in w[r].mask <==> t.periodicZ || w[r].coords.z != t.dims.z - 1
    ensures FRONT in w[r].mask <==> t.periodicZ || w[r].coords.z != 0
  {
  }

  /** No table has any other entry. */
  lemma TableKeys(t: Topology, slides: nat, r: int)
    requires t.Valid() && 0 <= r < t.Size()
    ensures var w := WorldAfter(t, slides);
            |w| == t.Size() && forall d :: d in w[r].table <==> 1 <= d <= (if t.dim == 2 then 8 else 26)
  {
    WorldIsUniform(t, slides);
    EveryStepHasType(t, 1, 0, 0);
  }

  /** After any number of common slides every place of the grid is held by exactly one rank. */
  lemma EveryPlaceHasOneRank(t: Topology, slides: nat, v: Coord)
    requires t.Valid() && t.Contains(v)
    ensures var w := WorldAfter(t, slides);
            exists r :: 0 <= r < |w| && w[r].coords == v && forall s :: 0 <= s < |w| && w[s].coords == v ==> s == r
  {
    WorldIsUniform(t, slides);
    var w := WorldAfter(t, slides);
    var yoffset := -(slides % t.dims.y);
    VirtualGridIsBijective(t, yoffset, 0, v);
    var r := RankAt(t, yoffset, v);
    assert w[r].coords == v;
    forall s | 0 <= s < |w| && w[s].coords == v
      ensures s == r
    {
      VirtualGridIsBijective(t, yoffset, s, v);
    }
  }

  // ----- the two halves of `updateCoordinates`

  method OwnCoordinates(t: Topology, rank: int, yoffset: int) returns (coords: Coord)
    requires t.Valid() && 0 <= rank < t.Size() && GoodOffset(t, yoffset)
    ensures coords == VirtualCoords(t, rank, yoffset)
  {
    coords := CartCoords(t, rank);
    ghost var own := coords;
    assert t.Contains(own) by { RankOfCoords(t, rank); }
    TruncModSmall(coords.y + yoffset, t.dims.y);
    if t.dims.y > 1 {
      coords := coords.(y := TruncMod(coords.y + yoffset, t.dims.y));
    }
    while coords.y < 0
      invariant coords.x == own.x && coords.z == own.z
      invariant coords.y == own.y + yoffset || coords.y == own.y + yoffset + t.dims.y
      invariant -t.dims.y < coords.y < t.dims.y
    {
      coords := coords.(y := coords.y + t.dims.y);
    }
    VirtualYByCode(t, rank, yoffset, coords.y);
  }

  lemma DirectionsOf(t: Topology, rank: int, yoffset: int)
    requires t.Valid()
    ensures 9 <= t.Directions() <= 27
    ensures var st := StateAt(t, rank, yoffset);
            && (forall d :: d in st.table <==> 1 <= d < t.Directions())
            && st.mask == set d | 1 <= d < t.Directions() && st.table[d] != -1
  {
  }

  /** One round of the loop over exchange types. */
  method TableEntry(t: Topology, ghost rank: int, yoffset: int, coords: Coord, ghost target: RankState, i: nat)
    returns (ok: bool, r: int)
    requires t.Valid() && 0 <= rank < t.Size() && GoodOffset(t, yoffset) && 1 <= i < t.Directions()
    requires target == StateAt(t, rank, yoffset) && coords == target.coords
    ensures i in target.table && r == target.table[i] && (ok <==> r != -1)
  {
    var m := Shifted(t, coords, i);
    ok := StaysInside(t.periodicX, m.x, t.dims.x) && StaysInside(t.periodicY, m.y, t.dims.y)
          && StaysInside(t.periodicZ, m.z, t.dims.z);
    NeighbourByCode(t, yoffset, rank, i);
    r := -1;
    if ok {
      if t.dims.y > 1 {
        m := m.(y := TruncMod(m.y - yoffset, t.dims.y));
      }
      r := CartRank(t, m);
    }
  }

  // ----- the object

  class Communicator {
    const rank: int
    var topology: Topology
    var yoffset: int
    var coordinates: Coord
    const ranks: array<int>
    var communicationMask: set<int>

    ghost predicate Configured()
      reads this
    {
      topology.Valid() && 0 <= rank < topology.Size() && GoodOffset(topology, yoffset) && ranks.Length == 27
    }

    /** The stored fields are those of `st`. */
    ghost predicate Holds(st: RankState)
      requires ranks.Length == 27
      reads this, ranks
    {
      && yoffset == st.yoffset && coordinates == st.coords && communicationMask == st.mask
      && forall d :: d in st.table ==> 0 <= d < 27 && ranks[d] == st.table[d]
    }

    ghost predicate Valid()
      reads this, ranks
    {
      Configured() && Holds(StateAt(topology, rank, yoffset))
    }

    constructor (rank: int)
      ensures this.rank == rank && ranks.Length == 27 && fresh(ranks)
    {
      this.rank := rank;
      topology := Topology(2, Coord(1, 1, 1), false, false, true);
      yoffset := 0;
      coordinates := Coord(0, 0, 0);
      ranks := new int[27];
      communicationMask := {};
    }

    /** `init` without the host-rank exchange; a wrong number of processes is reported, not repaired. */
    method Init(numberProcesses: Topology, mpiSize: int) returns (ok: bool)
      requires numberProcesses.Valid() && 0 <= rank < mpiSize && ranks.Length == 27
      modifies this, ranks
      ensures ok <==> numberProcesses.Size() == mpiSize
      ensures ok ==> Valid() && topology == numberProcesses && yoffset == 0
    {
      if numberProcesses.Size() != mpiSize {
        return false;
      }
      topology := numberProcesses;
      yoffset := 0;
      UpdateCoordinates();
      return true;
    }

    method UpdateCoordinates()
      requires Configured()
      modifies this`coordinates, this`communicationMask, ranks
      ensures Valid()
      ensures forall d :: 1 <= d <= (if topology.dim == 2 then 8 else 26) ==>
                ranks[d] == Neighbour(topology, yoffset, rank, d) && (d in communicationMask <==> ranks[d] != -1)
    {
      var coords := OwnCoordinates(topology, rank, yoffset);
      coordinates := coords;
      DirectionsOf(topology, rank, yoffset);
      FillTable(StateAt(topology, rank, yoffset));
      EveryStepHasType(topology, 1, 0, 0);
    }

    method FillTable(ghost target: RankState)
      requires Configured() && target == StateAt(topology, rank, yoffset) && coordinates == target.coords
      requires forall d :: d in target.table <==> 1 <= d < topology.Directions()
      requires topology.Directions() <= 27
      requires target.mask == set d | 1 <= d < topology.Directions() && target.table[d] != -1
      modifies this`communicationMask, ranks
      ensures Holds(target)
    {
      var directions := topology.Directions();
      communicationMask := {};
      var i := 1;
      while i < directions
        invariant 1 <= i <= directions
        invariant forall d :: 1 <= d < i ==> ranks[d] == target.table[d]
        invariant communicationMask == set d | 1 <= d < i && target.table[d] != -1
      {
        var ok, r := TableEntry(topology, rank, yoffset, coordinates, target, i);
        if ok {
          ranks[i] := r;
          communicationMask := communicationMask + {i};
        } else {
          ranks[i] := -1;
        }
        i := i + 1;
      }
    }

    method Slide() returns (movedToEnd: bool)
      requires Valid()
      modifies this`yoffset, this`coordinates, this`communicationMask, ranks
      ensures Valid()
      ensures Holds(StateAt(topology, rank, NextOffset(topology, old(yoffset))))
      ensures movedToEnd <==> old(coordinates.y) == 0
      ensures movedToEnd <==> coordinates.y == topology.dims.y - 1
    {
      SlideLowersY(topology, rank, yoffset);
      yoffset := yoffset - 1;
      if yoffset == -topology.dims.y {
        yoffset := 0;
      }
      UpdateCoordinates();
      VirtualGridIsBijective(topology, old(yoffset), rank, coordinates);
      movedToEnd := coordinates.y == topology.dims.y - 1;
    }

    method SetStateAfterSlides(numSlides: nat) returns (result: bool)
      requires Valid()
      modifies this`yoffset, this`coordinates, this`communicationMask, ranks
      ensures Valid()
      ensures Holds(StateAt(topology, rank, OffsetAfter(topology, old(yoffset), numSlides)))
      ensures result == ShortcutFlag(topology, rank, old(yoffset), numSlides)
    {
      result := false;
      var i := 0;
      while i < numSlides % topology.dims.y
        invariant 0 <= i <= numSlides % topology.dims.y
        invariant Valid() && yoffset == OffsetAfter(topology, old(yoffset), i)
        invariant result == (i > 0 && LastSlideFlag(topology, rank, old(yoffset), i))
      {
        result := Slide();
        i := i + 1;
      }
      OffsetIsPeriodic(topology, old(yoffset), numSlides);
    }

    /** `ExchangeTypeToRank`, the address used by `startSend` and `startReceive`. */
    method ExchangeTypeToRank(ex: nat) returns (r: int)
      requires Valid() && 1 <= ex < topology.Directions()
      ensures r == Neighbour(topology, yoffset, rank, ex)
    {
      DirectionsOf(topology, rank, yoffset);
      r := ranks[ex];
    }
  }

  /** The six tests on the exchange type, in the order of the source. */
  function Shifted(t: Topology, c: Coord, d: nat): Coord {
    var x1 := if ContainsExchangeType(d, LEFT) then c.x - 1 else c.x;
    var x2 := if ContainsExchangeType(d, RIGHT) then x1 + 1 else x1;
    var y1 := if ContainsExchangeType(d, TOP) then c.y - 1 else c.y;
    var y2 := if ContainsExchangeType(d, BOTTOM) then y1 + 1 else y1;
    if t.dim == 3 then
      var z1 := if ContainsExchangeType(d, BACK) then c.z + 1 else c.z;
      var z2 := if ContainsExchangeType(d, FRONT) then z1 - 1 else z1;
      Coord(x2, y2, z2)
    else
      Coord(x2, y2, c.z)
  }

  lemma ShiftedByDigits(t: Topology, c: Coord, d: nat)
    requires t.Valid() && 1 <= d < t.Directions()
    ensures Shifted(t, c, d)
         == Coord(c.x + Displacement(DigitX(d)), c.y + Displacement(DigitY(d)), c.z + Displacement(DigitZ(d)))
  {
    ExchangeTypeDigits(d);
  }

  lemma VirtualYByCode(t: Topology, rank: int, yoffset: int, y: int)
    requires t.Valid() && 0 <= y < t.dims.y
    requires y == CartCoords(t, rank).y + yoffset || y == CartCoords(t, rank).y + yoffset + t.dims.y
    ensures VirtualCoords(t, rank, yoffset).y == y
  {
    var c := CartCoords(t, rank).y;
    ModPlusN(c + yoffset, t.dims.y);
    ModSmall(y, t.dims.y);
  }

  lemma TruncModSmall(x: int, n: int)
    requires -n < x < n
    ensures TruncMod(x, n) == x
  {
    if x >= 0 {
      ModSmall(x, n);
    } else {
      ModSmall(-x, n);
    }
  }

  lemma TruncModThenWrap(x: int, n: int)
    requires n > 0
    ensures TruncMod(x, n) % n == x % n
    ensures x >= 0 ==> 0 <= TruncMod(x, n) < n
  {
    if x >= 0 {
      ModSmall(x % n, n);
    } else {
      var q, r := (-x) / n, (-x) % n;
      assert -x == q * n + r;
      ModOfSum(x, 0, n);
      if r == 0 {
        assert x == (-q) * n;
        DivModUnique(x, -q, 0, n);
      } else {
        assert x == (-q - 1) * n + (n - r);
        DivModUnique(x, -q - 1, n - r, n);
        DivModUnique(-r, -1, n - r, n);
      }
    }
  }

  /** The table entry of the source: C++ remainder, then MPI's wrapping, agrees with the grid's neighbour, and
      MPI is never handed an out-of-range coordinate of a non-periodic dimension. */
  lemma NeighbourByCode(t: Topology, yoffset: int, rank: int, d: nat)
    requires t.Valid() && GoodOffset(t, yoffset) && 0 <= rank < t.Size() && 1 <= d < t.Directions()
    ensures var m := Shifted(t, VirtualCoords(t, rank, yoffset), d);
            var ok := StaysInside(t.periodicX, m.x, t.dims.x) && StaysInside(t.periodicY, m.y, t.dims.y)
                      && StaysInside(t.periodicZ, m.z, t.dims.z);
            var m' := if t.dims.y > 1 then m.(y := TruncMod(m.y - yoffset, t.dims.y)) else m;
            && (ok <==> Neighbour(t, yoffset, rank, d) != -1)
            && (ok ==> StaysInside(t.periodicY, m'.y, t.dims.y) && CartRank(t, m') == Neighbour(t, yoffset, rank, d))
  {
    var v := VirtualCoords(t, rank, yoffset);
    ShiftedByDigits(t, v, d);
    VirtualGridIsBijective(t, yoffset, rank, v);
    VirtualGridIsBijective(t, yoffset, rank, StepFrom(t, v, d));
    var m := Shifted(t, v, d);
    TruncModThenWrap(m.y - yoffset, t.dims.y);
    ModOfSum(m.y, -yoffset, t.dims.y);
  }
}
