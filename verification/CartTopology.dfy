/** The Cartesian process grid of section 7.5.5 of MPI-3.1 and PMacc's ternary exchange types. */
module CartTopology {
  import opened Arith

  /** `z` is 0 throughout when the simulation is two-dimensional. */
  datatype Coord = Coord(x: int, y: int, z: int)

  /** `dims` and `periodic` as passed to `MPI_Cart_create`; `dim` is the template parameter DIM. */
  datatype Topology = Topology(dim: nat, dims: Coord, periodicX: bool, periodicY: bool, periodicZ: bool) {
    ghost predicate Valid() {
      && (dim == 2 || dim == 3)
      && dims.x >= 1 && dims.y >= 1 && dims.z >= 1
      && (dim == 2 ==> dims.z == 1 && periodicZ)
    }

    function Size(): int {
      dims.x * dims.y * dims.z
    }

    /** One more than the largest exchange type in use: 9 for DIM2 and 27 for DIM3. */
    function Directions(): int {
      -12 * dim + 6 * dim * dim + 9
    }

    predicate Contains(c: Coord) {
      0 <= c.x < dims.x && 0 <= c.y < dims.y && 0 <= c.z < dims.z
    }
  }

  /** `MPI_Cart_coords`: ranks are numbered in row-major order. */
  function CartCoords(t: Topology, rank: int): Coord
    requires t.Valid()
  {
    Coord(rank / t.dims.z / t.dims.y, rank / t.dims.z % t.dims.y, rank % t.dims.z)
  }

  function RowMajor(t: Topology, c: Coord): int {
    (c.x * t.dims.y + c.y) * t.dims.z + c.z
  }

  function Wrap(c: int, size: int): int
    requires size > 0
  {
    c % size
  }

  /** `MPI_Cart_rank`. The precondition is MPI's: an out-of-range coordinate of a non-periodic dimension
      is erroneous, one of a periodic dimension is shifted back into the grid. */
  function CartRank(t: Topology, c: Coord): int
    requires t.Valid()
    requires t.periodicX || 0 <= c.x < t.dims.x
    requires t.periodicY || 0 <= c.y < t.dims.y
    requires t.periodicZ || 0 <= c.z < t.dims.z
  {
    RowMajor(t, Coord(Wrap(c.x, t.dims.x), Wrap(c.y, t.dims.y), Wrap(c.z, t.dims.z)))
  }

  lemma QuotientBound(x: int, n: int, m: int)
    requires n > 0 && 0 <= x < m * n
    ensures 0 <= x / n < m
  {
    assert x == n * (x / n) + x % n;
    MultipleGap(x / n - m + 1, n);
    assert (x / n - m + 1) * n == x / n * n - m * n + n;
  }

  /** Coordinates and ranks determine each other. */
  lemma RankOfCoords(t: Topology, rank: int)
    requires t.Valid() && 0 <= rank < t.Size()
    ensures t.Contains(CartCoords(t, rank))
    ensures RowMajor(t, CartCoords(t, rank)) == rank
  {
    QuotientBound(rank, t.dims.z, t.dims.x * t.dims.y);
    QuotientBound(rank / t.dims.z, t.dims.y, t.dims.x);
  }

  lemma CoordsOfRank(t: Topology, c: Coord)
    requires t.Valid() && t.Contains(c)
    ensures 0 <= RowMajor(t, c) < t.Size()
    ensures CartCoords(t, RowMajor(t, c)) == c
  {
    var row := c.x * t.dims.y + c.y;
    DivModUnique(RowMajor(t, c), row, c.z, t.dims.z);
    DivModUnique(row, c.x, c.y, t.dims.y);
    MulMono(c.x + 1, t.dims.x, t.dims.y);
    assert row + 1 <= (c.x + 1) * t.dims.y;
    MulMono(row + 1, t.dims.x * t.dims.y, t.dims.z);
    assert RowMajor(t, c) < (row + 1) * t.dims.z;
    MulMono(0, c.x, t.dims.y);
    MulMono(0, row, t.dims.z);
  }

  ghost predicate Before(a: Coord, b: Coord) {
    a.x < b.x || (a.x == b.x && (a.y < b.y || (a.y == b.y && a.z < b.z)))
  }

  /** Ranks are ordered like their coordinates, the last dimension running fastest. */
  lemma RowMajorOrder(t: Topology, a: Coord, b: Coord)
    requires t.Valid() && t.Contains(a) && t.Contains(b)
    ensures RowMajor(t, a) < RowMajor(t, b) <==> Before(a, b)
  {
    if Before(a, b) {
      RowMajorGrows(t, a, b);
    } else if a != b {
      RowMajorGrows(t, b, a);
    }
  }

  lemma RowMajorGrows(t: Topology, a: Coord, b: Coord)
    requires t.Valid() && t.Contains(a) && t.Contains(b) && Before(a, b)
    ensures RowMajor(t, a) < RowMajor(t, b)
  {
    var i, j := a.x * t.dims.y + a.y, b.x * t.dims.y + b.y;
    if a.x < b.x {
      MulMono(a.x + 1, b.x, t.dims.y);
      assert (a.x + 1) * t.dims.y == a.x * t.dims.y + t.dims.y;
    }
    if i < j {
      MulMono(i + 1, j, t.dims.z);
      assert (i + 1) * t.dims.z == i * t.dims.z + t.dims.z;
    }
  }

  lemma MulMono(a: int, b: int, n: int)
    requires a <= b && n >= 0
    ensures a * n <= b * n
  {
  }

  // ----- exchange types

  const RIGHT := 1
  const LEFT := 2
  const BOTTOM := 3
  const TOP := 6
  const BACK := 9
  const FRONT := 18

  /** `Mask(direction).containsExchangeType(ex)`: divide both by three until `ex` is a single digit. */
  predicate ContainsExchangeType(direction: nat, ex: nat)
    decreases ex
  {
    if ex < 3 then direction % 3 == ex else ContainsExchangeType(direction / 3, ex / 3)
  }

  /** `Mask::getMirroredExchangeType` */
  function Mirrored(direction: nat): nat {
    (if ContainsExchangeType(direction, RIGHT) then LEFT else 0)
    + (if ContainsExchangeType(direction, LEFT) then RIGHT else 0)
    + (if ContainsExchangeType(direction, BOTTOM) then TOP else 0)
    + (if ContainsExchangeType(direction, TOP) then BOTTOM else 0)
    + (if ContainsExchangeType(direction, FRONT) then BACK else 0)
    + (if ContainsExchangeType(direction, BACK) then FRONT else 0)
  }

  /** The displacement a ternary digit stands for: 1 is forward, 2 is backward. */
  function Displacement(digit: int): int {
    if digit == 1 then 1 else if digit == 2 then -1 else 0
  }

  function DigitX(direction: nat): nat { direction % 3 }
  function DigitY(direction: nat): nat { direction / 3 % 3 }
  function DigitZ(direction: nat): nat { direction / 9 % 3 }

  lemma ExchangeTypeDigits(d: nat)
    ensures ContainsExchangeType(d, RIGHT) <==> DigitX(d) == 1
    ensures ContainsExchangeType(d, LEFT) <==> DigitX(d) == 2
    ensures ContainsExchangeType(d, BOTTOM) <==> DigitY(d) == 1
    ensures ContainsExchangeType(d, TOP) <==> DigitY(d) == 2
    ensures ContainsExchangeType(d, BACK) <==> DigitZ(d) == 1
    ensures ContainsExchangeType(d, FRONT) <==> DigitZ(d) == 2
  {
    DivByNine(d);
    assert ContainsExchangeType(d, BACK) == ContainsExchangeType(d / 3, 3) == ContainsExchangeType(d / 3 / 3, 1);
    assert ContainsExchangeType(d, FRONT) == ContainsExchangeType(d / 3, 6) == ContainsExchangeType(d / 3 / 3, 2);
  }

  lemma DivByNine(d: nat)
    ensures d / 3 / 3 == d / 9
  {
  }

  /** Mirroring reverses every displacement, stays among the directions in use, and undoes itself. */
  lemma MirrorReverses(t: Topology, d: nat)
    requires t.Valid() && 1 <= d < t.Directions()
    ensures 1 <= Mirrored(d) < t.Directions()
    ensures Displacement(DigitX(Mirrored(d))) == -Displacement(DigitX(d))
    ensures Displacement(DigitY(Mirrored(d))) == -Displacement(DigitY(d))
    ensures Displacement(DigitZ(Mirrored(d))) == -Displacement(DigitZ(d))
    ensures Mirrored(Mirrored(d)) == d
  {
    ExchangeTypeDigits(d);
    ExchangeTypeDigits(Mirrored(d));
  }

  /** The ternary code of a displacement. */
  function TypeOf(dx: int, dy: int, dz: int): nat {
    (if dx == 1 then 1 else if dx == -1 then 2 else 0)
    + 3 * (if dy == 1 then 1 else if dy == -1 then 2 else 0)
    + 9 * (if dz == 1 then 1 else if dz == -1 then 2 else 0)
  }

  /** One of the steps to an adjacent place of a grid of two or three dimensions. */
  predicate IsStep(t: Topology, dx: int, dy: int, dz: int) {
    && -1 <= dx <= 1 && -1 <= dy <= 1 && -1 <= dz <= 1 && (dx != 0 || dy != 0 || dz != 0)
    && (t.dim == 2 ==> dz == 0)
  }

  /** The exchange types in use are 1 to 8 in two dimensions and 1 to 26 in three: one for every step. */
  lemma EveryStepHasType(t: Topology, dx: int, dy: int, dz: int)
    requires t.Valid() && IsStep(t, dx, dy, dz)
    ensures t.Directions() == if t.dim == 2 then 9 else 27
    ensures var d := TypeOf(dx, dy, dz);
            && 1 <= d < t.Directions()
            && Displacement(DigitX(d)) == dx && Displacement(DigitY(d)) == dy && Displacement(DigitZ(d)) == dz
  {
  }

  lemma EveryTypeIsStep(t: Topology, d: nat)
    requires t.Valid() && 1 <= d <= (if t.dim == 2 then 8 else 26)
    ensures var dx, dy, dz := Displacement(DigitX(d)), Displacement(DigitY(d)), Displacement(DigitZ(d));
            IsStep(t, dx, dy, dz) && TypeOf(dx, dy, dz) == d
  {
  }
}
