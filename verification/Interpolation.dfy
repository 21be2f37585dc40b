/** Field-to-particle interpolation: the optimised form shifts the coordinate system and sums over the support of
    the shape; the native form sums over the whole margin. */
module Interpolation {

  type Shape = real -> real
  type ScalarField = (int, int, int) -> real

  // ----- constants of FieldToParticleInterpolation; `supp` is the support of the assignment function

  function LowerMargin(supp: nat): int { supp / 2 }
  function UpperMargin(supp: nat): int { (supp + 1) / 2 }

  /** `-supp / 2` truncates toward zero. */
  function Begin(supp: nat): int { -(supp / 2) + (supp + 1) % 2 }
  function End(supp: nat): int { Begin(supp) + supp - 1 }

  // ----- coordinate shift

  /** `GetOffsetToStaticShapeSystem` */
  function ShiftFor(supp: nat, v: real): int {
    if supp % 2 == 0 then v.Floor else if v >= 0.5 then 1 else 0
  }

  /** The range promised for a shifted position. */
  predicate InStaticSystem(supp: nat, pos: real) {
    if supp % 2 == 0 then 0.0 <= pos < 1.0 else -0.5 <= pos < 0.5
  }

  /** A particle position inside its cell and a field offset inside the lower half of it. */
  predicate InCell(pos: real, fieldPos: real) {
    0.0 <= pos < 1.0 && 0.0 <= fieldPos <= 0.5
  }

  /** One axis: the shifted position lies in the static system, and all cells in use lie within the margins. */
  lemma ShiftIsSafe(supp: nat, v: real)
    requires supp >= 1 && -0.5 <= v < 1.0
    ensures InStaticSystem(supp, v - ShiftFor(supp, v) as real)
    ensures -LowerMargin(supp) <= Begin(supp) + ShiftFor(supp, v)
    ensures End(supp) + ShiftFor(supp, v) <= UpperMargin(supp)
  {
    if supp % 2 == 0 {
      assert v.Floor == -1 || v.Floor == 0;
    }
  }

  /** The margins are no larger than some position needs. */
  lemma MarginsAreTight(supp: nat)
    requires supp >= 1
    ensures exists v: real :: -0.5 <= v < 1.0 && Begin(supp) + ShiftFor(supp, v) == -LowerMargin(supp)
    ensures exists v: real :: -0.5 <= v < 1.0 && End(supp) + ShiftFor(supp, v) == UpperMargin(supp)
  {
    var low, high := if supp % 2 == 0 then -0.5 else 0.0, if supp % 2 == 0 then 0.0 else 0.5;
    assert Begin(supp) + ShiftFor(supp, low) == -LowerMargin(supp);
    assert End(supp) + ShiftFor(supp, high) == UpperMargin(supp);
  }

  /** The integer shift is determined by its purpose. */
  lemma ShiftIsUnique(supp: nat, v: real, d: int)
    requires supp >= 1 && -0.5 <= v < 1.0 && InStaticSystem(supp, v - d as real)
    ensures d == ShiftFor(supp, v)
  {
    ShiftIsSafe(supp, v);
  }

  /** `ShiftCoordinateSystem`: one round of `AssignToDim` per dimension moves cursor and position in place. */
  method ShiftCoordinateSystem(cursor: array<int>, pos: array<real>, fieldPos: seq<real>, supp: nat)
    requires supp >= 1 && cursor.Length == pos.Length == |fieldPos|
    requires forall i :: 0 <= i < pos.Length ==> InCell(pos[i], fieldPos[i])
    modifies cursor, pos
    ensures forall i :: 0 <= i < pos.Length ==>
              && InStaticSystem(supp, pos[i])
              && (cursor[i] - old(cursor[i])) as real + pos[i] + fieldPos[i] == old(pos[i])
    ensures forall i :: 0 <= i < pos.Length ==>
              cursor[i] - old(cursor[i]) == ShiftFor(supp, old(pos[i]) - fieldPos[i])
  {
    var i := 0;
    while i < pos.Length
      invariant 0 <= i <= pos.Length
      invariant forall j :: i <= j < pos.Length ==> pos[j] == old(pos[j]) && cursor[j] == old(cursor[j])
      invariant forall j :: 0 <= j < i ==>
                  && InStaticSystem(supp, pos[j])
                  && cursor[j] - old(cursor[j]) == ShiftFor(supp, old(pos[j]) - fieldPos[j])
                  && (cursor[j] - old(cursor[j])) as real + pos[j] + fieldPos[j] == old(pos[j])
    {
      var v := pos[i] - fieldPos[i];
      var shift := ShiftFor(supp, v);
      ShiftIsSafe(supp, v);
      cursor[i] := cursor[i] + shift;
      pos[i] := v - shift as real;
      i := i + 1;
    }
  }

  // ----- weighted sums

  function Sum(g: int -> real, w: int -> real, lo: int, hi: int): real
    decreases hi - lo + 1
  {
    if hi < lo then 0.0 else Sum(g, w, lo, hi - 1) + g(hi) * w(hi)
  }

  function Weight(shape: Shape, pos: real): int -> real {
    (i: int) => shape(i as real - pos)
  }

  function AlongX(f: ScalarField, y: int, z: int): int -> real {
    (x: int) => f(x, y, z)
  }

  function AlongY(f: ScalarField, wx: int -> real, z: int, lo: int, hi: int): int -> real {
    (y: int) => Sum(AlongX(f, y, z), wx, lo, hi)
  }

  function AlongZ(f: ScalarField, wx: int -> real, wy: int -> real, lo: int, hi: int): int -> real {
    (z: int) => Sum(AlongY(f, wx, z, lo, hi), wy, lo, hi)
  }

  /** The sums that `AssignedTrilinearInterpolation` computes, in two and three dimensions. */
  function Sum2D(f: ScalarField, wx: int -> real, wy: int -> real, lo: int, hi: int): real {
    Sum(AlongY(f, wx, 0, lo, hi), wy, lo, hi)
  }

  function Sum3D(f: ScalarField, wx: int -> real, wy: int -> real, wz: int -> real, lo: int, hi: int): real {
    Sum(AlongZ(f, wx, wy, lo, hi), wz, lo, hi)
  }

  function Moved(f: ScalarField, dx: int, dy: int, dz: int): ScalarField {
    (x: int, y: int, z: int) => f(x + dx, y + dy, z + dz)
  }

  // ----- one axis: a short sum around a shifted origin against the long one

  /** The two index ranges: `begin..end` of the optimised form inside `-lowerMargin..upperMargin` of the native one. */
  datatype Ranges = Ranges(begin: int, end: int, lo: int, hi: int)

  function RangesOf(supp: nat): Ranges {
    Ranges(Begin(supp), End(supp), -LowerMargin(supp), UpperMargin(supp))
  }

  /** On the margin, the native weights are the shifted support weights, padded with zeros. */
  ghost predicate AxisAgrees(r: Ranges, w: int -> real, d: int, n: int -> real) {
    && r.lo <= r.begin + d <= r.end + 1 + d <= r.hi + 1
    && forall i :: r.lo <= i <= r.hi ==> AgreesAt(r, w, d, n, i)
  }

  predicate AgreesAt(r: Ranges, w: int -> real, d: int, n: int -> real, i: int) {
    n(i) == if r.begin <= i - d <= r.end then w(i - d) else 0.0
  }

  lemma {:induction false} SumSplit(g: int -> real, w: int -> real, lo: int, mid: int, hi: int)
    requires lo <= mid <= hi + 1
    ensures Sum(g, w, lo, hi) == Sum(g, w, lo, mid - 1) + Sum(g, w, mid, hi)
    decreases hi - mid + 1
  {
    if mid <= hi {
      SumSplit(g, w, lo, mid, hi - 1);
    }
  }

  lemma {:induction false} SumOfZeros(g: int -> real, w: int -> real, lo: int, hi: int)
    requires forall i :: lo <= i <= hi ==> g(i) == 0.0 || w(i) == 0.0
    ensures Sum(g, w, lo, hi) == 0.0
    decreases hi - lo + 1
  {
    if lo <= hi {
      SumOfZeros(g, w, lo, hi - 1);
    }
  }

  lemma {:induction false} SumMoved(g: int -> real, w: int -> real, g': int -> real, w': int -> real, d: int,
                                    lo: int, hi: int)
    requires forall i :: lo <= i <= hi ==> g(i) == g'(i + d) && w(i) == w'(i + d)
    ensures Sum(g, w, lo, hi) == Sum(g', w', lo + d, hi + d)
    decreases hi - lo + 1
  {
    if lo <= hi {
      SumMoved(g, w, g', w', d, lo, hi - 1);
      assert g(hi) == g'(hi + d) && w(hi) == w'(hi + d);
    }
  }

  lemma AxisTransport(r: Ranges, g: int -> real, w: int -> real, d: int, g': int -> real, n: int -> real)
    requires AxisAgrees(r, w, d, n)
    requires forall i :: r.begin <= i <= r.end ==> g(i) == g'(i + d)
    ensures Sum(g, w, r.begin, r.end) == Sum(g', n, r.lo, r.hi)
  {
    forall i | r.begin <= i <= r.end
      ensures g(i) == g'(i + d) && w(i) == n(i + d)
    {
      assert AgreesAt(r, w, d, n, i + d);
    }
    assert forall i :: r.lo <= i <= r.hi && !(r.begin <= i - d <= r.end) ==> n(i) == 0.0 by {
      forall i | r.lo <= i <= r.hi && !(r.begin <= i - d <= r.end)
        ensures n(i) == 0.0
      {
        assert AgreesAt(r, w, d, n, i);
      }
    }
    SumMoved(g, w, g', n, d, r.begin, r.end);
    SumSplit(g', n, r.lo, r.begin + d, r.hi);
    SumSplit(g', n, r.begin + d, r.end + d + 1, r.hi);
    SumOfZeros(g', n, r.lo, r.begin + d - 1);
    SumOfZeros(g', n, r.end + d + 1, r.hi);
  }

  /** If both axes agree, the sums over a plane agree for every field. */
  lemma PlanesAgree(r: Ranges, f: ScalarField, dx: int, dy: int, dz: int,
                    wx: int -> real, nx: int -> real, wy: int -> real, ny: int -> real, z: int)
    requires AxisAgrees(r, wx, dx, nx) && AxisAgrees(r, wy, dy, ny)
    ensures Sum(AlongY(Moved(f, dx, dy, dz), wx, z, r.begin, r.end), wy, r.begin, r.end)
         == Sum(AlongY(f, nx, z + dz, r.lo, r.hi), ny, r.lo, r.hi)
  {
    var g, g' := AlongY(Moved(f, dx, dy, dz), wx, z, r.begin, r.end), AlongY(f, nx, z + dz, r.lo, r.hi);
    forall y | r.begin <= y <= r.end
      ensures g(y) == g'(y + dy)
    {
      AxisTransport(r, AlongX(Moved(f, dx, dy, dz), y, z), wx, dx, AlongX(f, y + dy, z + dz), nx);
    }
    AxisTransport(r, g, wy, dy, g', ny);
  }

  /** If all three axes agree, the sums over a cube agree for every field. */
  lemma CubesAgree(r: Ranges, f: ScalarField, dx: int, dy: int, dz: int, wx: int -> real, nx: int -> real,
                   wy: int -> real, ny: int -> real, wz: int -> real, nz: int -> real)
    requires AxisAgrees(r, wx, dx, nx) && AxisAgrees(r, wy, dy, ny) && AxisAgrees(r, wz, dz, nz)
    ensures Sum3D(Moved(f, dx, dy, dz), wx, wy, wz, r.begin, r.end) == Sum3D(f, nx, ny, nz, r.lo, r.hi)
  {
    var g, g' := AlongZ(Moved(f, dx, dy, dz), wx, wy, r.begin, r.end), AlongZ(f, nx, ny, r.lo, r.hi);
    forall z | r.begin <= z <= r.end
      ensures g(z) == g'(z + dz)
    {
      PlanesAgree(r, f, dx, dy, dz, wx, nx, wy, ny, z);
    }
    AxisTransport(r, g, wz, dz, g', nz);
  }

  // ----- what the nested sums compute, stated on the field

  lemma {:induction false} SumScaled(g: int -> real, h: int -> real, w: int -> real, c: real, lo: int, hi: int)
    requires forall i :: lo <= i <= hi ==> h(i) == g(i) * c
    ensures Sum(h, w, lo, hi) == Sum(g, w, lo, hi) * c
    decreases hi - lo + 1
  {
    if lo <= hi {
      SumScaled(g, h, w, c, lo, hi - 1);
      assert h(hi) * w(hi) == g(hi) * w(hi) * c;
    }
  }

  lemma {:induction false} SumAdded(g: int -> real, h: int -> real, k: int -> real, w: int -> real, lo: int, hi: int)
    requires forall i :: lo <= i <= hi ==> k(i) == g(i) + h(i)
    ensures Sum(k, w, lo, hi) == Sum(g, w, lo, hi) + Sum(h, w, lo, hi)
    decreases hi - lo + 1
  {
    if lo <= hi {
      SumAdded(g, h, k, w, lo, hi - 1);
    }
  }

  /** A field that is a product of one factor per axis. */
  function Product(p: int -> real, q: int -> real, r: int -> real): ScalarField {
    (x: int, y: int, z: int) => p(x) * q(y) * r(z)
  }

  /** In two dimensions the plane z = 0 is read. */
  lemma ProductSum2D(p: int -> real, q: int -> real, r: int -> real, wx: int -> real, wy: int -> real, lo: int, hi: int)
    ensures Sum2D(Product(p, q, r), wx, wy, lo, hi) == Sum(p, wx, lo, hi) * Sum(q, wy, lo, hi) * r(0)
  {
    ProductInPlane(p, q, r, wx, wy, 0, lo, hi);
  }

  lemma ProductInPlane(p: int -> real, q: int -> real, r: int -> real, wx: int -> real, wy: int -> real, z: int,
                       lo: int, hi: int)
    ensures Sum(AlongY(Product(p, q, r), wx, z, lo, hi), wy, lo, hi)
         == Sum(p, wx, lo, hi) * Sum(q, wy, lo, hi) * r(z)
  {
    var g, c := AlongY(Product(p, q, r), wx, z, lo, hi), Sum(p, wx, lo, hi) * r(z);
    forall y | lo <= y <= hi
      ensures g(y) == q(y) * c
    {
      ProductInLine(p, q, r, wx, y, z, lo, hi);
    }
    SumScaled(q, g, wy, c, lo, hi);
    Swap(Sum(q, wy, lo, hi), Sum(p, wx, lo, hi), r(z));
  }

  lemma ProductInLine(p: int -> real, q: int -> real, r: int -> real, wx: int -> real, y: int, z: int, lo: int, hi: int)
    ensures Sum(AlongX(Product(p, q, r), y, z), wx, lo, hi) == q(y) * (Sum(p, wx, lo, hi) * r(z))
  {
    var g := AlongX(Product(p, q, r), y, z);
    forall x | lo <= x <= hi
      ensures g(x) == p(x) * (q(y) * r(z))
    {
    }
    SumScaled(p, g, wx, q(y) * r(z), lo, hi);
    Swap(Sum(p, wx, lo, hi), q(y), r(z));
  }

  lemma Swap(a: real, b: real, c: real)
    ensures a * (b * c) == b * (a * c) == b * a * c
  {
  }

  /** A product field is interpolated axis by axis. */
  lemma ProductSum3D(p: int -> real, q: int -> real, r: int -> real, wx: int -> real, wy: int -> real, wz: int -> real,
                     lo: int, hi: int)
    ensures Sum3D(Product(p, q, r), wx, wy, wz, lo, hi)
         == Sum(p, wx, lo, hi) * Sum(q, wy, lo, hi) * Sum(r, wz, lo, hi)
  {
    var f, s := Product(p, q, r), Sum(p, wx, lo, hi) * Sum(q, wy, lo, hi);
    var g := AlongZ(f, wx, wy, lo, hi);
    forall z | lo <= z <= hi
      ensures g(z) == r(z) * s
    {
      ProductInPlane(p, q, r, wx, wy, z, lo, hi);
    }
    SumScaled(r, g, wz, s, lo, hi);
  }

  /** Fields add up. */
  lemma FieldsAdd3D(f: ScalarField, g: ScalarField, h: ScalarField, wx: int -> real, wy: int -> real, wz: int -> real,
                    lo: int, hi: int)
    requires forall x, y, z :: h(x, y, z) == f(x, y, z) + g(x, y, z)
    ensures Sum3D(h, wx, wy, wz, lo, hi) == Sum3D(f, wx, wy, wz, lo, hi) + Sum3D(g, wx, wy, wz, lo, hi)
  {
    var k, k', k'' := AlongZ(f, wx, wy, lo, hi), AlongZ(g, wx, wy, lo, hi), AlongZ(h, wx, wy, lo, hi);
    forall z | lo <= z <= hi
      ensures k''(z) == k(z) + k'(z)
    {
      PlanesAdd(f, g, h, wx, wy, z, lo, hi);
    }
    SumAdded(k, k', k'', wz, lo, hi);
  }

  lemma FieldsAdd2D(f: ScalarField, g: ScalarField, h: ScalarField, wx: int -> real, wy: int -> real, lo: int, hi: int)
    requires forall x, y, z :: h(x, y, z) == f(x, y, z) + g(x, y, z)
    ensures Sum2D(h, wx, wy, lo, hi) == Sum2D(f, wx, wy, lo, hi) + Sum2D(g, wx, wy, lo, hi)
  {
    PlanesAdd(f, g, h, wx, wy, 0, lo, hi);
  }

  lemma PlanesAdd(f: ScalarField, g: ScalarField, h: ScalarField, wx: int -> real, wy: int -> real, z: int,
                  lo: int, hi: int)
    requires forall x, y, z :: h(x, y, z) == f(x, y, z) + g(x, y, z)
    ensures Sum(AlongY(h, wx, z, lo, hi), wy, lo, hi)
         == Sum(AlongY(f, wx, z, lo, hi), wy, lo, hi) + Sum(AlongY(g, wx, z, lo, hi), wy, lo, hi)
  {
    var k, k', k'' := AlongY(f, wx, z, lo, hi), AlongY(g, wx, z, lo, hi), AlongY(h, wx, z, lo, hi);
    forall y | lo <= y <= hi
      ensures k''(y) == k(y) + k'(y)
    {
      SumAdded(AlongX(f, y, z), AlongX(g, y, z), AlongX(h, y, z), wx, lo, hi);
    }
    SumAdded(k, k', k'', wy, lo, hi);
  }

  /** One on a single index. */
  function Spike(k: int): int -> real {
    (i: int) => if i == k then 1.0 else 0.0
  }

  lemma SumOfSpike(k: int, w: int -> real, lo: int, hi: int)
    ensures Sum(Spike(k), w, lo, hi) == WeightIn(w, k, lo, hi)
  {
    if lo <= k <= hi {
      SumSplit(Spike(k), w, lo, k, hi);
      SumSplit(Spike(k), w, k, k + 1, hi);
      SumOfZeros(Spike(k), w, lo, k - 1);
      SumOfZeros(Spike(k), w, k + 1, hi);
      assert Sum(Spike(k), w, k, k) == Sum(Spike(k), w, k, k - 1) + Spike(k)(k) * w(k);
    } else {
      SumOfZeros(Spike(k), w, lo, hi);
    }
  }

  function Scaled(g: int -> real, c: real): int -> real {
    (i: int) => g(i) * c
  }

  /** A field that is `v` in one cell and zero elsewhere. */
  function SingleCell(x: int, y: int, z: int, v: real): ScalarField {
    Product(Spike(x), Spike(y), Scaled(Spike(z), v))
  }

  lemma SingleCellIs(x: int, y: int, z: int, v: real)
    ensures forall i, j, k ::
              SingleCell(x, y, z, v)(i, j, k) == if i == x && j == y && k == z then v else 0.0
  {
  }

  function WeightIn(w: int -> real, k: int, lo: int, hi: int): real {
    if lo <= k <= hi then w(k) else 0.0
  }

  /** The value of one cell counts with the product of its weights, and not at all outside the range. */
  lemma SingleCellSum2D(x: int, y: int, v: real, wx: int -> real, wy: int -> real, lo: int, hi: int)
    ensures Sum2D(SingleCell(x, y, 0, v), wx, wy, lo, hi) == WeightIn(wx, x, lo, hi) * WeightIn(wy, y, lo, hi) * v
  {
    ProductSum2D(Spike(x), Spike(y), Scaled(Spike(0), v), wx, wy, lo, hi);
    SumOfSpike(x, wx, lo, hi);
    SumOfSpike(y, wy, lo, hi);
  }

  lemma SingleCellSum3D(x: int, y: int, z: int, v: real, wx: int -> real, wy: int -> real, wz: int -> real,
                        lo: int, hi: int)
    ensures Sum3D(SingleCell(x, y, z, v), wx, wy, wz, lo, hi)
         == WeightIn(wx, x, lo, hi) * WeightIn(wy, y, lo, hi) * (WeightIn(wz, z, lo, hi) * v)
  {
    ProductSum3D(Spike(x), Spike(y), Scaled(Spike(z), v), wx, wy, wz, lo, hi);
    SumOfSpike(x, wx, lo, hi);
    SumOfSpike(y, wy, lo, hi);
    SumOfSpike(z, wz, lo, hi);
    SumScaled(Spike(z), Scaled(Spike(z), v), wz, v, lo, hi);
  }

  // ----- shapes

  /** The two variants of a shape: they agree on the support and the native one vanishes elsewhere. */
  ghost predicate ShapesAgree(supp: nat, onSupport: Shape, native: Shape) {
    forall x: real ::
      native(x) == if -(supp as real) / 2.0 < x <= supp as real / 2.0 then onSupport(x) else 0.0
  }

  /** What the optimised form knows about an axis after the shift: the cursor's move and the weights around it. */
  datatype Axis = Axis(shift: int, weight: int -> real)

  function AxisOf(supp: nat, shape: Shape, v: real): Axis {
    Axis(ShiftFor(supp, v), Weight(shape, v - ShiftFor(supp, v) as real))
  }

  /** The two forms weigh every cell of the margin alike on an axis with relative position `v`. */
  ghost predicate FormsAgree(supp: nat, onSupport: Shape, native: Shape, v: real) {
    var a := AxisOf(supp, onSupport, v);
    AxisAgrees(RangesOf(supp), a.weight, a.shift, Weight(native, v))
  }

  lemma AgreeingShapesAgreeOnAxis(supp: nat, onSupport: Shape, native: Shape, v: real)
    requires supp >= 1 && ShapesAgree(supp, onSupport, native) && -0.5 <= v < 1.0
    ensures FormsAgree(supp, onSupport, native, v)
  {
    var d := ShiftFor(supp, v);
    ShiftIsSafe(supp, v);
    var pos := v - d as real;
    forall i | -LowerMargin(supp) <= i <= UpperMargin(supp)
      ensures AgreesAt(RangesOf(supp), Weight(onSupport, pos), d, Weight(native, v), i)
    {
      assert (i - d) as real - pos == i as real - v;
      SupportIsRange(supp, pos, i - d);
    }
  }

  /** Around a position in the static system, `begin..end` are exactly the cells within the support. */
  lemma SupportIsRange(supp: nat, pos: real, j: int)
    requires supp >= 1 && InStaticSystem(supp, pos)
    ensures Begin(supp) <= j <= End(supp) <==> -(supp as real) / 2.0 < j as real - pos <= supp as real / 2.0
  {
    if supp % 2 == 0 {
      assert supp as real / 2.0 == (supp / 2) as real;
    } else {
      assert supp as real / 2.0 == (supp / 2) as real + 0.5;
    }
  }

  // ----- the two forms, as values

  datatype Vec = Vec(x: real, y: real, z: real)

  function Optimised2D(r: Ranges, f: ScalarField, x: Axis, y: Axis): real {
    Sum2D(Moved(f, x.shift, y.shift, 0), x.weight, y.weight, r.begin, r.end)
  }

  function Native2D(r: Ranges, f: ScalarField, x: int -> real, y: int -> real): real {
    Sum2D(f, x, y, r.lo, r.hi)
  }

  function Optimised3D(r: Ranges, f: ScalarField, x: Axis, y: Axis, z: Axis): real {
    Sum3D(Moved(f, x.shift, y.shift, z.shift), x.weight, y.weight, z.weight, r.begin, r.end)
  }

  function Native3D(r: Ranges, f: ScalarField, x: int -> real, y: int -> real, z: int -> real): real {
    Sum3D(f, x, y, z, r.lo, r.hi)
  }

  /** Wherever the weights agree on every axis, both forms interpolate every field alike. */
  lemma AlikeOnAxes2D(r: Ranges, f: ScalarField, x: Axis, y: Axis, nx: int -> real, ny: int -> real)
    requires AxisAgrees(r, x.weight, x.shift, nx) && AxisAgrees(r, y.weight, y.shift, ny)
    ensures Optimised2D(r, f, x, y) == Native2D(r, f, nx, ny)
  {
    PlanesAgree(r, f, x.shift, y.shift, 0, x.weight, nx, y.weight, ny, 0);
  }

  lemma AlikeOnAxes3D(r: Ranges, f: ScalarField, x: Axis, y: Axis, z: Axis,
                      nx: int -> real, ny: int -> real, nz: int -> real)
    requires AxisAgrees(r, x.weight, x.shift, nx) && AxisAgrees(r, y.weight, y.shift, ny)
    requires AxisAgrees(r, z.weight, z.shift, nz)
    ensures Optimised3D(r, f, x, y, z) == Native3D(r, f, nx, ny, nz)
  {
    CubesAgree(r, f, x.shift, y.shift, z.shift, x.weight, nx, y.weight, ny, z.weight, nz);
  }

  ghost predicate InCellVec(pos: Vec, fieldPos: Vec) {
    InCell(pos.x, fieldPos.x) && InCell(pos.y, fieldPos.y) && InCell(pos.z, fieldPos.z)
  }

  /** The same in the plane; the third coordinate plays no part in two dimensions. */
  ghost predicate InCellPlane(pos: Vec, fieldPos: Vec) {
    InCell(pos.x, fieldPos.x) && InCell(pos.y, fieldPos.y)
  }

  function Relative(pos: Vec, fieldPos: Vec): Vec {
    Vec(pos.x - fieldPos.x, pos.y - fieldPos.y, pos.z - fieldPos.z)
  }

  /** The optimised interpolation equals the native one: any support, field, position and field offset. */
  lemma OptimisedEqualsNative2D(supp: nat, onSupport: Shape, native: Shape, f: ScalarField, pos: Vec, fieldPos: Vec)
    requires supp >= 1 && ShapesAgree(supp, onSupport, native) && InCellPlane(pos, fieldPos)
    ensures var v := Relative(pos, fieldPos);
            Optimised2D(RangesOf(supp), f, AxisOf(supp, onSupport, v.x), AxisOf(supp, onSupport, v.y))
            == Native2D(RangesOf(supp), f, Weight(native, v.x), Weight(native, v.y))
  {
    var v := Relative(pos, fieldPos);
    AgreeingShapesAgreeOnAxis(supp, onSupport, native, v.x);
    AgreeingShapesAgreeOnAxis(supp, onSupport, native, v.y);
    AlikeOnAxes2D(RangesOf(supp), f, AxisOf(supp, onSupport, v.x), AxisOf(supp, onSupport, v.y),
                  Weight(native, v.x), Weight(native, v.y));
  }

  lemma OptimisedEqualsNative3D(supp: nat, onSupport: Shape, native: Shape, f: ScalarField, pos: Vec, fieldPos: Vec)
    requires supp >= 1 && ShapesAgree(supp, onSupport, native) && InCellVec(pos, fieldPos)
    ensures var v := Relative(pos, fieldPos);
            Optimised3D(RangesOf(supp), f, AxisOf(supp, onSupport, v.x), AxisOf(supp, onSupport, v.y),
                        AxisOf(supp, onSupport, v.z))
            == Native3D(RangesOf(supp), f, Weight(native, v.x), Weight(native, v.y), Weight(native, v.z))
  {
    var v := Relative(pos, fieldPos);
    AgreeingShapesAgreeOnAxis(supp, onSupport, native, v.x);
    AgreeingShapesAgreeOnAxis(supp, onSupport, native, v.y);
    AgreeingShapesAgreeOnAxis(supp, onSupport, native, v.z);
    AlikeOnAxes3D(RangesOf(supp), f,
                  AxisOf(supp, onSupport, v.x), AxisOf(supp, onSupport, v.y), AxisOf(supp, onSupport, v.z),
                  Weight(native, v.x), Weight(native, v.y), Weight(native, v.z));
  }

  // ----- AssignedTrilinearInterpolation and the two functors

  /** Reading a cell is allowed within the margins only. */
  function CellAt(f: ScalarField, r: Ranges, x: int, y: int, z: int): real
    requires r.lo <= x <= r.hi && r.lo <= y <= r.hi && r.lo <= z <= r.hi
  {
    f(x, y, z)
  }

  predicate Inside(r: Ranges, first: int, last: int, shift: int) {
    r.lo <= first + shift && last + shift <= r.hi
  }

  /** The innermost loop. */
  method LineSum(r: Ranges, first: int, last: int, f: ScalarField, dx: int, dy: int, dz: int,
                 wx: int -> real, y: int, z: int)
    returns (resultX: real)
    requires Inside(r, first, last, dx) && r.lo <= y + dy <= r.hi && r.lo <= z + dz <= r.hi
    ensures resultX == Sum(AlongX(Moved(f, dx, dy, dz), y, z), wx, first, last)
  {
    resultX := 0.0;
    var x := first;
    while x <= last
      invariant first <= x && (x <= last + 1 || x == first)
      invariant resultX == Sum(AlongX(Moved(f, dx, dy, dz), y, z), wx, first, x - 1)
    {
      resultX := resultX + CellAt(f, r, x + dx, y + dy, z + dz) * wx(x);
      x := x + 1;
    }
  }

  /** The loop over y around it. */
  method PlaneSum(r: Ranges, first: int, last: int, f: ScalarField, dx: int, dy: int, dz: int,
                  wx: int -> real, wy: int -> real, z: int)
    returns (resultY: real)
    requires Inside(r, first, last, dx) && Inside(r, first, last, dy) && r.lo <= z + dz <= r.hi
    ensures resultY == Sum(AlongY(Moved(f, dx, dy, dz), wx, z, first, last), wy, first, last)
  {
    resultY := 0.0;
    var y := first;
    while y <= last
      invariant first <= y && (y <= last + 1 || y == first)
      invariant resultY == Sum(AlongY(Moved(f, dx, dy, dz), wx, z, first, last), wy, first, y - 1)
    {
      var resultX := LineSum(r, first, last, f, dx, dy, dz, wx, y, z);
      resultY := resultY + resultX * wy(y);
      y := y + 1;
    }
  }

  /** Three dimensions: the loop over z. `x`, `y`, `z` hold the cursor's moves and the weights of the position. */
  method Interpolate3D(r: Ranges, first: int, last: int, f: ScalarField, x: Axis, y: Axis, z: Axis)
    returns (resultZ: real)
    requires Inside(r, first, last, x.shift) && Inside(r, first, last, y.shift) && Inside(r, first, last, z.shift)
    ensures resultZ == Sum3D(Moved(f, x.shift, y.shift, z.shift), x.weight, y.weight, z.weight, first, last)
  {
    resultZ := 0.0;
    var k := first;
    while k <= last
      invariant first <= k && (k <= last + 1 || k == first)
      invariant resultZ == Sum(AlongZ(Moved(f, x.shift, y.shift, z.shift), x.weight, y.weight, first, last),
                               z.weight, first, k - 1)
    {
      var resultY := PlaneSum(r, first, last, f, x.shift, y.shift, z.shift, x.weight, y.weight, k);
      resultZ := resultZ + resultY * z.weight(k);
      k := k + 1;
    }
  }

  method Interpolate2D(r: Ranges, first: int, last: int, f: ScalarField, x: Axis, y: Axis) returns (resultY: real)
    requires Inside(r, first, last, x.shift) && Inside(r, first, last, y.shift) && r.lo <= 0 <= r.hi
    ensures resultY == Sum2D(Moved(f, x.shift, y.shift, 0), x.weight, y.weight, first, last)
  {
    resultY := PlaneSum(r, first, last, f, x.shift, y.shift, 0, x.weight, y.weight, 0);
  }

  type VectorField = (int, int, int) -> Vec

  function ComponentX(f: VectorField): ScalarField { (x: int, y: int, z: int) => f(x, y, z).x }
  function ComponentY(f: VectorField): ScalarField { (x: int, y: int, z: int) => f(x, y, z).y }
  function ComponentZ(f: VectorField): ScalarField { (x: int, y: int, z: int) => f(x, y, z).z }

  lemma ComponentsMakeField(f: VectorField, x: int, y: int, z: int)
    ensures Vec(ComponentX(f)(x, y, z), ComponentY(f)(x, y, z), ComponentZ(f)(x, y, z)) == f(x, y, z)
  {
  }

  /** `ShiftCoordinateSystem` applied to a fresh cursor: per axis, the move and the weights of the new position. */
  method ShiftedAxes(supp: nat, shape: Shape, particlePos: Vec, fieldPos: Vec) returns (x: Axis, y: Axis, z: Axis)
    requires supp >= 1 && InCellVec(particlePos, fieldPos)
    ensures var v := Relative(particlePos, fieldPos);
            x == AxisOf(supp, shape, v.x) && y == AxisOf(supp, shape, v.y) && z == AxisOf(supp, shape, v.z)
  {
    var cursor := new int[3] [0, 0, 0];
    var pos := new real[3] [particlePos.x, particlePos.y, particlePos.z];
    ShiftCoordinateSystem(cursor, pos, [fieldPos.x, fieldPos.y, fieldPos.z], supp);
    x := Axis(cursor[0], Weight(shape, pos[0]));
    y := Axis(cursor[1], Weight(shape, pos[1]));
    z := Axis(cursor[2], Weight(shape, pos[2]));
  }

  lemma AxisIsInside(supp: nat, shape: Shape, v: real)
    requires supp >= 1 && -0.5 <= v < 1.0
    ensures Inside(RangesOf(supp), RangesOf(supp).begin, RangesOf(supp).end, AxisOf(supp, shape, v).shift)
  {
    ShiftIsSafe(supp, v);
  }

  /** One component of the optimised functor: shift cursor and position in place, then sum over the support. */
  method OptimisedComponent(supp: nat, shape: Shape, f: ScalarField, particlePos: Vec, fieldPos: Vec)
    returns (result: real)
    requires supp >= 1 && InCellVec(particlePos, fieldPos)
    ensures var v := Relative(particlePos, fieldPos);
            result == Optimised3D(RangesOf(supp), f, AxisOf(supp, shape, v.x), AxisOf(supp, shape, v.y),
                                  AxisOf(supp, shape, v.z))
  {
    var x, y, z := ShiftedAxes(supp, shape, particlePos, fieldPos);
    ghost var v := Relative(particlePos, fieldPos);
    AxisIsInside(supp, shape, v.x);
    AxisIsInside(supp, shape, v.y);
    AxisIsInside(supp, shape, v.z);
    var r := RangesOf(supp);
    result := Interpolate3D(r, r.begin, r.end, f, x, y, z);
  }

  /** One component of the native functor: only the position is made relative, and the whole margin is summed. */
  method NativeComponent(supp: nat, shape: Shape, f: ScalarField, particlePos: Vec, fieldPos: Vec)
    returns (result: real)
    ensures var v := Relative(particlePos, fieldPos);
            result == Native3D(RangesOf(supp), f, Weight(shape, v.x), Weight(shape, v.y), Weight(shape, v.z))
  {
    var v := Relative(particlePos, fieldPos);
    var r := RangesOf(supp);
    result := Interpolate3D(r, r.lo, r.hi, f,
                            Axis(0, Weight(shape, v.x)), Axis(0, Weight(shape, v.y)), Axis(0, Weight(shape, v.z)));
    UnmovedSum(r, f, Weight(shape, v.x), Weight(shape, v.y), Weight(shape, v.z));
  }

  /** The three-dimensional functor, one field offset per component: whatever the source's optimised `operator()`
      returns, the native one returns too. */
  method FieldToParticle(supp: nat, onSupport: Shape, ghost native: Shape, f: VectorField, particlePos: Vec,
                         fieldPosX: Vec, fieldPosY: Vec, fieldPosZ: Vec) returns (result: Vec)
    requires supp >= 1 && ShapesAgree(supp, onSupport, native)
    requires InCellVec(particlePos, fieldPosX) && InCellVec(particlePos, fieldPosY) && InCellVec(particlePos, fieldPosZ)
    ensures result == Vec(NativeValue(supp, native, ComponentX(f), particlePos, fieldPosX),
                          NativeValue(supp, native, ComponentY(f), particlePos, fieldPosY),
                          NativeValue(supp, native, ComponentZ(f), particlePos, fieldPosZ))
  {
    var x := OptimisedComponent(supp, onSupport, ComponentX(f), particlePos, fieldPosX);
    var y := OptimisedComponent(supp, onSupport, ComponentY(f), particlePos, fieldPosY);
    var z := OptimisedComponent(supp, onSupport, ComponentZ(f), particlePos, fieldPosZ);
    OptimisedEqualsNative3D(supp, onSupport, native, ComponentX(f), particlePos, fieldPosX);
    OptimisedEqualsNative3D(supp, onSupport, native, ComponentY(f), particlePos, fieldPosY);
    OptimisedEqualsNative3D(supp, onSupport, native, ComponentZ(f), particlePos, fieldPosZ);
    result := Vec(x, y, z);
  }

  function NativeValue(supp: nat, native: Shape, f: ScalarField, particlePos: Vec, fieldPos: Vec): real {
    var v := Relative(particlePos, fieldPos);
    Native3D(RangesOf(supp), f, Weight(native, v.x), Weight(native, v.y), Weight(native, v.z))
  }

  // ----- the functors in two dimensions: a plane position, still three field components

  method ShiftedAxes2D(supp: nat, shape: Shape, particlePos: Vec, fieldPos: Vec) returns (x: Axis, y: Axis)
    requires supp >= 1 && InCellPlane(particlePos, fieldPos)
    ensures var v := Relative(particlePos, fieldPos);
            x == AxisOf(supp, shape, v.x) && y == AxisOf(supp, shape, v.y)
  {
    var cursor := new int[2] [0, 0];
    var pos := new real[2] [particlePos.x, particlePos.y];
    ShiftCoordinateSystem(cursor, pos, [fieldPos.x, fieldPos.y], supp);
    x := Axis(cursor[0], Weight(shape, pos[0]));
    y := Axis(cursor[1], Weight(shape, pos[1]));
  }

  method OptimisedComponent2D(supp: nat, shape: Shape, f: ScalarField, particlePos: Vec, fieldPos: Vec)
    returns (result: real)
    requires supp >= 1 && InCellPlane(particlePos, fieldPos)
    ensures var v := Relative(particlePos, fieldPos);
            result == Optimised2D(RangesOf(supp), f, AxisOf(supp, shape, v.x), AxisOf(supp, shape, v.y))
  {
    var x, y := ShiftedAxes2D(supp, shape, particlePos, fieldPos);
    ghost var v := Relative(particlePos, fieldPos);
    AxisIsInside(supp, shape, v.x);
    AxisIsInside(supp, shape, v.y);
    var r := RangesOf(supp);
    result := Interpolate2D(r, r.begin, r.end, f, x, y);
  }

  method NativeComponent2D(supp: nat, shape: Shape, f: ScalarField, particlePos: Vec, fieldPos: Vec)
    returns (result: real)
    ensures result == NativeValue2D(supp, shape, f, particlePos, fieldPos)
  {
    var v := Relative(particlePos, fieldPos);
    var r := RangesOf(supp);
    result := Interpolate2D(r, r.lo, r.hi, f, Axis(0, Weight(shape, v.x)), Axis(0, Weight(shape, v.y)));
    var same := Ranges(r.lo, r.hi, r.lo, r.hi);
    AlikeOnAxes2D(same, f, Axis(0, Weight(shape, v.x)), Axis(0, Weight(shape, v.y)),
                  Weight(shape, v.x), Weight(shape, v.y));
  }

  function NativeValue2D(supp: nat, native: Shape, f: ScalarField, particlePos: Vec, fieldPos: Vec): real {
    var v := Relative(particlePos, fieldPos);
    Native2D(RangesOf(supp), f, Weight(native, v.x), Weight(native, v.y))
  }

  /** The two-dimensional functor returns what the native one returns. */
  method FieldToParticle2D(supp: nat, onSupport: Shape, ghost native: Shape, f: VectorField, particlePos: Vec,
                           fieldPosX: Vec, fieldPosY: Vec, fieldPosZ: Vec) returns (result: Vec)
    requires supp >= 1 && ShapesAgree(supp, onSupport, native)
    requires InCellPlane(particlePos, fieldPosX) && InCellPlane(particlePos, fieldPosY)
    requires InCellPlane(particlePos, fieldPosZ)
    ensures result == Vec(NativeValue2D(supp, native, ComponentX(f), particlePos, fieldPosX),
                          NativeValue2D(supp, native, ComponentY(f), particlePos, fieldPosY),
                          NativeValue2D(supp, native, ComponentZ(f), particlePos, fieldPosZ))
  {
    var x := OptimisedComponent2D(supp, onSupport, ComponentX(f), particlePos, fieldPosX);
    var y := OptimisedComponent2D(supp, onSupport, ComponentY(f), particlePos, fieldPosY);
    var z := OptimisedComponent2D(supp, onSupport, ComponentZ(f), particlePos, fieldPosZ);
    OptimisedEqualsNative2D(supp, onSupport, native, ComponentX(f), particlePos, fieldPosX);
    OptimisedEqualsNative2D(supp, onSupport, native, ComponentY(f), particlePos, fieldPosY);
    OptimisedEqualsNative2D(supp, onSupport, native, ComponentZ(f), particlePos, fieldPosZ);
    result := Vec(x, y, z);
  }

  lemma UnmovedSum(r: Ranges, f: ScalarField, wx: int -> real, wy: int -> real, wz: int -> real)
    ensures Sum3D(Moved(f, 0, 0, 0), wx, wy, wz, r.lo, r.hi) == Sum3D(f, wx, wy, wz, r.lo, r.hi)
  {
    var same := Ranges(r.lo, r.hi, r.lo, r.hi);
    if r.lo <= r.hi + 1 {
      CubesAgree(same, f, 0, 0, 0, wx, wx, wy, wy, wz, wz);
    }
  }
}
