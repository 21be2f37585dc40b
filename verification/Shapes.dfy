/** The assignment shapes of PIConGPU, each in its two variants, put against the requirement of the interpolation. */
module Shapes {
  import opened Interpolation

  function Abs(x: real): real {
    if x < 0.0 then -x else x
  }

  function CicOnSupport(x: real): real { 1.0 - Abs(x) }
  function Cic(x: real): real { if Abs(x) < 1.0 then 1.0 - Abs(x) else 0.0 }

  function TscInner(x: real): real { 0.75 - x * x }
  function TscOuter(x: real): real { 0.5 * ((1.5 - x) * (1.5 - x)) }
  function TscOnSupport(x: real): real { if Abs(x) < 0.5 then TscInner(Abs(x)) else TscOuter(Abs(x)) }
  function Tsc(x: real): real {
    if Abs(x) < 0.5 then TscInner(Abs(x)) else if Abs(x) < 1.5 then TscOuter(Abs(x)) else 0.0
  }

  function PcsInner(x: real): real { 1.0 / 6.0 * (4.0 - 6.0 * (x * x) + 3.0 * (x * x * x)) }
  function PcsOuter(x: real): real { 1.0 / 6.0 * ((2.0 - x) * (2.0 - x) * (2.0 - x)) }
  function PcsOnSupport(x: real): real { if Abs(x) < 1.0 then PcsInner(Abs(x)) else PcsOuter(Abs(x)) }
  function Pcs(x: real): real {
    if Abs(x) < 1.0 then PcsInner(Abs(x)) else if Abs(x) < 2.0 then PcsOuter(Abs(x)) else 0.0
  }

  function P4sInner(x: real): real { 115.0 / 192.0 + x * x * (-5.0 / 8.0 + 1.0 / 4.0 * (x * x)) }
  function P4sMiddle(x: real): real {
    1.0 / 96.0 * (55.0 + 4.0 * x * (5.0 - 2.0 * x * (15.0 + 2.0 * x * (-5.0 + x))))
  }
  function P4sOuter(x: real): real {
    1.0 / 384.0 * ((5.0 - 2.0 * x) * (5.0 - 2.0 * x) * ((5.0 - 2.0 * x) * (5.0 - 2.0 * x)))
  }
  function P4sOnSupport(x: real): real {
    if Abs(x) < 1.5 then if Abs(x) < 0.5 then P4sInner(Abs(x)) else P4sMiddle(Abs(x)) else P4sOuter(Abs(x))
  }
  function P4s(x: real): real { if Abs(x) < 2.5 then P4sOnSupport(Abs(x)) else 0.0 }

  function NgpOnSupport(x: real): real { 1.0 }
  function Ngp(x: real): real { if -0.5 <= x < 0.5 then 1.0 else 0.0 }

  /** The continuous shapes vanish at the edge of their support, so both variants agree as required. */
  lemma ContinuousShapesAgree()
    ensures ShapesAgree(2, CicOnSupport, Cic)
    ensures ShapesAgree(3, TscOnSupport, Tsc)
    ensures ShapesAgree(4, PcsOnSupport, Pcs)
    ensures ShapesAgree(5, P4sOnSupport, P4s)
  {
    assert TscOuter(1.5) == 0.0;
    assert PcsOuter(2.0) == 0.0;
    assert P4sOuter(2.5) == 0.0;
  }

  // ----- the weights of a particle

  function One(): int -> real {
    (i: int) => 1.0
  }

  /** The places of the cells, as seen from cell `d`. */
  function Places(d: int): int -> real {
    (i: int) => (i + d) as real
  }

  /** The weights of the support add up to one, wherever the particle is. */
  ghost predicate AddsToOne(supp: nat, shape: Shape) {
    forall pos: real :: InStaticSystem(supp, pos) ==> Sum(One(), Weight(shape, pos), Begin(supp), End(supp)) == 1.0
  }

  /** The weighted mean of the cells' places is the place of the particle. */
  ghost predicate Centred(supp: nat, shape: Shape) {
    forall pos: real :: InStaticSystem(supp, pos) ==>
      Sum(Places(0), Weight(shape, pos), Begin(supp), End(supp)) == pos
  }

  /** A sum over up to five cells, written out. */
  lemma SumOfTwo(g: int -> real, w: int -> real, lo: int)
    ensures Sum(g, w, lo, lo + 1) == g(lo) * w(lo) + g(lo + 1) * w(lo + 1)
  {
    assert Sum(g, w, lo, lo - 1) == 0.0;
    assert Sum(g, w, lo, lo) == g(lo) * w(lo);
  }

  lemma SumOfThree(g: int -> real, w: int -> real, lo: int)
    ensures Sum(g, w, lo, lo + 2) == g(lo) * w(lo) + g(lo + 1) * w(lo + 1) + g(lo + 2) * w(lo + 2)
  {
    SumOfTwo(g, w, lo);
  }

  lemma SumOfFour(g: int -> real, w: int -> real, lo: int)
    ensures Sum(g, w, lo, lo + 3)
         == g(lo) * w(lo) + g(lo + 1) * w(lo + 1) + g(lo + 2) * w(lo + 2) + g(lo + 3) * w(lo + 3)
  {
    SumOfThree(g, w, lo);
  }

  lemma SumOfFive(g: int -> real, w: int -> real, lo: int)
    ensures Sum(g, w, lo, lo + 4)
         == g(lo) * w(lo) + g(lo + 1) * w(lo + 1) + g(lo + 2) * w(lo + 2) + g(lo + 3) * w(lo + 3)
          + g(lo + 4) * w(lo + 4)
  {
    SumOfFour(g, w, lo);
  }

  lemma CicWeights(p: real)
    requires InStaticSystem(2, p)
    ensures Sum(One(), Weight(CicOnSupport, p), 0, 1) == 1.0 && Sum(Places(0), Weight(CicOnSupport, p), 0, 1) == p
  {
    SumOfTwo(One(), Weight(CicOnSupport, p), 0);
    SumOfTwo(Places(0), Weight(CicOnSupport, p), 0);
  }

  lemma TscWeights(p: real)
    requires InStaticSystem(3, p)
    ensures Sum(One(), Weight(TscOnSupport, p), -1, 1) == 1.0 && Sum(Places(0), Weight(TscOnSupport, p), -1, 1) == p
  {
    var w := Weight(TscOnSupport, p);
    SumOfThree(One(), w, -1);
    SumOfThree(Places(0), w, -1);
    TscCells(p);
    assert w(-1) == TscOuter(1.0 + p) && w(0) == TscInner(p) && w(1) == TscOuter(1.0 - p);
  }

  lemma TscCells(p: real)
    requires -0.5 <= p < 0.5
    ensures TscOnSupport(-1.0 - p) == TscOuter(1.0 + p) && TscOnSupport(0.0 - p) == TscInner(p)
    ensures TscOnSupport(1.0 - p) == TscOuter(1.0 - p)
    ensures TscOuter(1.0 + p) + TscInner(p) + TscOuter(1.0 - p) == 1.0
    ensures TscOuter(1.0 - p) - TscOuter(1.0 + p) == p
  {
    assert TscInner(0.5) == TscOuter(0.5);
  }

  lemma PcsWeights(p: real)
    requires InStaticSystem(4, p)
    ensures Sum(One(), Weight(PcsOnSupport, p), -1, 2) == 1.0 && Sum(Places(0), Weight(PcsOnSupport, p), -1, 2) == p
  {
    var w := Weight(PcsOnSupport, p);
    SumOfFour(One(), w, -1);
    SumOfFour(Places(0), w, -1);
    PcsCells(p);
    assert w(-1) == PcsOuter(1.0 + p) && w(0) == PcsInner(p) && w(1) == PcsInner(1.0 - p) && w(2) == PcsOuter(2.0 - p);
  }

  lemma PcsCells(p: real)
    requires 0.0 <= p < 1.0
    ensures PcsOnSupport(-1.0 - p) == PcsOuter(1.0 + p) && PcsOnSupport(0.0 - p) == PcsInner(p)
    ensures PcsOnSupport(1.0 - p) == PcsInner(1.0 - p) && PcsOnSupport(2.0 - p) == PcsOuter(2.0 - p)
    ensures PcsOuter(1.0 + p) + PcsInner(p) + PcsInner(1.0 - p) + PcsOuter(2.0 - p) == 1.0
    ensures PcsInner(1.0 - p) + 2.0 * PcsOuter(2.0 - p) - PcsOuter(1.0 + p) == p
  {
    assert PcsInner(1.0) == PcsOuter(1.0);
  }

  lemma P4sWeights(p: real)
    requires InStaticSystem(5, p)
    ensures Sum(One(), Weight(P4sOnSupport, p), -2, 2) == 1.0 && Sum(Places(0), Weight(P4sOnSupport, p), -2, 2) == p
  {
    var w := Weight(P4sOnSupport, p);
    SumOfFive(One(), w, -2);
    SumOfFive(Places(0), w, -2);
    P4sCells(p);
    P4sSums(p);
    assert w(-2) == P4sOuter(2.0 + p) && w(-1) == P4sMiddle(1.0 + p) && w(0) == P4sInner(p);
    assert w(1) == P4sMiddle(1.0 - p) && w(2) == P4sOuter(2.0 - p);
  }

  lemma P4sCells(p: real)
    requires -0.5 <= p < 0.5
    ensures P4sOnSupport(-2.0 - p) == P4sOuter(2.0 + p) && P4sOnSupport(-1.0 - p) == P4sMiddle(1.0 + p)
    ensures P4sOnSupport(0.0 - p) == P4sInner(p)
    ensures P4sOnSupport(1.0 - p) == P4sMiddle(1.0 - p) && P4sOnSupport(2.0 - p) == P4sOuter(2.0 - p)
  {
    assert P4sInner(0.5) == P4sMiddle(0.5) && P4sMiddle(1.5) == P4sOuter(1.5);
  }

  lemma P4sSums(p: real)
    ensures P4sOuter(2.0 + p) + P4sMiddle(1.0 + p) + P4sInner(p) + P4sMiddle(1.0 - p) + P4sOuter(2.0 - p) == 1.0
    ensures 2.0 * P4sOuter(2.0 - p) + P4sMiddle(1.0 - p) - P4sMiddle(1.0 + p) - 2.0 * P4sOuter(2.0 + p) == p
  {
  }

  /** Every shape distributes the whole of a particle; all but the box shape also keep its place. */
  lemma ShapesDistribute()
    ensures AddsToOne(1, NgpOnSupport)
    ensures AddsToOne(2, CicOnSupport) && Centred(2, CicOnSupport)
    ensures AddsToOne(3, TscOnSupport) && Centred(3, TscOnSupport)
    ensures AddsToOne(4, PcsOnSupport) && Centred(4, PcsOnSupport)
    ensures AddsToOne(5, P4sOnSupport) && Centred(5, P4sOnSupport)
  {
    forall p: real | InStaticSystem(1, p)
      ensures Sum(One(), Weight(NgpOnSupport, p), 0, 0) == 1.0
    {
      SumOfOne(One(), Weight(NgpOnSupport, p));
    }
    forall p: real | InStaticSystem(2, p) {
      CicWeights(p);
    }
    forall p: real | InStaticSystem(3, p) {
      TscWeights(p);
    }
    forall p: real | InStaticSystem(4, p) {
      PcsWeights(p);
    }
    forall p: real | InStaticSystem(5, p) {
      P4sWeights(p);
    }
  }

  // ----- a linear field is interpolated exactly

  lemma AxisMeans(supp: nat, shape: Shape, v: real)
    requires supp >= 1 && AddsToOne(supp, shape) && Centred(supp, shape) && -0.5 <= v < 1.0
    ensures Means(AxisOf(supp, shape, v), Begin(supp), End(supp), v)
  {
    var x := AxisOf(supp, shape, v);
    ShiftIsSafe(supp, v);
    SumScaled(One(), Scaled(One(), x.shift as real), x.weight, x.shift as real, Begin(supp), End(supp));
    SumAdded(Places(0), Scaled(One(), x.shift as real), Places(x.shift), x.weight, Begin(supp), End(supp));
  }

  function Linear(a: real, b: Vec): ScalarField {
    (x: int, y: int, z: int) => a + b.x * x as real + b.y * y as real + b.z * z as real
  }

  function Plus(f: ScalarField, g: ScalarField): ScalarField {
    (x: int, y: int, z: int) => f(x, y, z) + g(x, y, z)
  }

  /** On one axis: the weights add up to one, and their mean is `v`. */
  ghost predicate Means(x: Axis, lo: int, hi: int, v: real) {
    Sum(One(), x.weight, lo, hi) == 1.0 && Sum(Places(x.shift), x.weight, lo, hi) == v
  }

  lemma ConstantPart(a: real, x: Axis, y: Axis, z: Axis, lo: int, hi: int, v: Vec)
    requires Means(x, lo, hi, v.x) && Means(y, lo, hi, v.y) && Means(z, lo, hi, v.z)
    ensures Sum3D(Product(Scaled(One(), a), One(), One()), x.weight, y.weight, z.weight, lo, hi) == a
  {
    ProductSum3D(Scaled(One(), a), One(), One(), x.weight, y.weight, z.weight, lo, hi);
    SumScaled(One(), Scaled(One(), a), x.weight, a, lo, hi);
  }

  lemma PartAlongX(b: real, x: Axis, y: Axis, z: Axis, lo: int, hi: int, v: Vec)
    requires Means(x, lo, hi, v.x) && Means(y, lo, hi, v.y) && Means(z, lo, hi, v.z)
    ensures Sum3D(Product(Scaled(Places(x.shift), b), One(), One()), x.weight, y.weight, z.weight, lo, hi) == b * v.x
  {
    ProductSum3D(Scaled(Places(x.shift), b), One(), One(), x.weight, y.weight, z.weight, lo, hi);
    SumScaled(Places(x.shift), Scaled(Places(x.shift), b), x.weight, b, lo, hi);
  }

  lemma PartAlongY(b: real, x: Axis, y: Axis, z: Axis, lo: int, hi: int, v: Vec)
    requires Means(x, lo, hi, v.x) && Means(y, lo, hi, v.y) && Means(z, lo, hi, v.z)
    ensures Sum3D(Product(One(), Scaled(Places(y.shift), b), One()), x.weight, y.weight, z.weight, lo, hi) == b * v.y
  {
    ProductSum3D(One(), Scaled(Places(y.shift), b), One(), x.weight, y.weight, z.weight, lo, hi);
    SumScaled(Places(y.shift), Scaled(Places(y.shift), b), y.weight, b, lo, hi);
  }

  lemma PartAlongZ(b: real, x: Axis, y: Axis, z: Axis, lo: int, hi: int, v: Vec)
    requires Means(x, lo, hi, v.x) && Means(y, lo, hi, v.y) && Means(z, lo, hi, v.z)
    ensures Sum3D(Product(One(), One(), Scaled(Places(z.shift), b)), x.weight, y.weight, z.weight, lo, hi) == b * v.z
  {
    ProductSum3D(One(), One(), Scaled(Places(z.shift), b), x.weight, y.weight, z.weight, lo, hi);
    SumScaled(Places(z.shift), Scaled(Places(z.shift), b), z.weight, b, lo, hi);
  }

  lemma LinearIsSum(a: real, b: Vec, dx: int, dy: int, dz: int, i: int, j: int, k: int)
    ensures Moved(Linear(a, b), dx, dy, dz)(i, j, k)
         == Product(Scaled(One(), a), One(), One())(i, j, k) + Product(Scaled(Places(dx), b.x), One(), One())(i, j, k)
          + Product(One(), Scaled(Places(dy), b.y), One())(i, j, k)
          + Product(One(), One(), Scaled(Places(dz), b.z))(i, j, k)
  {
  }

  lemma FourFieldsAdd(f: ScalarField, g: ScalarField, h: ScalarField, k: ScalarField, all: ScalarField,
                      wx: int -> real, wy: int -> real, wz: int -> real, lo: int, hi: int)
    requires forall x, y, z :: all(x, y, z) == f(x, y, z) + g(x, y, z) + h(x, y, z) + k(x, y, z)
    ensures Sum3D(all, wx, wy, wz, lo, hi)
         == Sum3D(f, wx, wy, wz, lo, hi) + Sum3D(g, wx, wy, wz, lo, hi) + Sum3D(h, wx, wy, wz, lo, hi)
          + Sum3D(k, wx, wy, wz, lo, hi)
  {
    var two := Plus(f, g);
    var three := Plus(two, h);
    FieldsAdd3D(f, g, two, wx, wy, wz, lo, hi);
    FieldsAdd3D(two, h, three, wx, wy, wz, lo, hi);
    FieldsAdd3D(three, k, all, wx, wy, wz, lo, hi);
  }

  lemma LinearSum(a: real, b: Vec, x: Axis, y: Axis, z: Axis, lo: int, hi: int, v: Vec)
    requires Means(x, lo, hi, v.x) && Means(y, lo, hi, v.y) && Means(z, lo, hi, v.z)
    ensures Sum3D(Moved(Linear(a, b), x.shift, y.shift, z.shift), x.weight, y.weight, z.weight, lo, hi)
         == a + b.x * v.x + b.y * v.y + b.z * v.z
  {
    ConstantPart(a, x, y, z, lo, hi, v);
    PartAlongX(b.x, x, y, z, lo, hi, v);
    PartAlongY(b.y, x, y, z, lo, hi, v);
    PartAlongZ(b.z, x, y, z, lo, hi, v);
    LinearSplits(a, b, x, y, z, lo, hi);
  }

  lemma LinearSplits(a: real, b: Vec, x: Axis, y: Axis, z: Axis, lo: int, hi: int)
    ensures Sum3D(Moved(Linear(a, b), x.shift, y.shift, z.shift), x.weight, y.weight, z.weight, lo, hi)
         == Sum3D(Product(Scaled(One(), a), One(), One()), x.weight, y.weight, z.weight, lo, hi)
          + Sum3D(Product(Scaled(Places(x.shift), b.x), One(), One()), x.weight, y.weight, z.weight, lo, hi)
          + Sum3D(Product(One(), Scaled(Places(y.shift), b.y), One()), x.weight, y.weight, z.weight, lo, hi)
          + Sum3D(Product(One(), One(), Scaled(Places(z.shift), b.z)), x.weight, y.weight, z.weight, lo, hi)
  {
    var f, g := Product(Scaled(One(), a), One(), One()), Product(Scaled(Places(x.shift), b.x), One(), One());
    var h := Product(One(), Scaled(Places(y.shift), b.y), One());
    var k := Product(One(), One(), Scaled(Places(z.shift), b.z));
    var all := Moved(Linear(a, b), x.shift, y.shift, z.shift);
    forall i, j, l
      ensures all(i, j, l) == f(i, j, l) + g(i, j, l) + h(i, j, l) + k(i, j, l)
    {
      LinearIsSum(a, b, x.shift, y.shift, z.shift, i, j, l);
    }
    FourFieldsAdd(f, g, h, k, all, x.weight, y.weight, z.weight, lo, hi);
  }

  /** What the whole interpolation is for: with CIC, TSC, PCS and P4S a linear field is returned exactly at the
      particle's place `v`, relative to the field's own place in the cell. */
  lemma LinearFieldIsExact(supp: nat, shape: Shape, a: real, b: Vec, v: Vec, x: Axis, y: Axis, z: Axis)
    requires supp >= 1 && AddsToOne(supp, shape) && Centred(supp, shape)
    requires -0.5 <= v.x < 1.0 && -0.5 <= v.y < 1.0 && -0.5 <= v.z < 1.0
    requires x == AxisOf(supp, shape, v.x) && y == AxisOf(supp, shape, v.y) && z == AxisOf(supp, shape, v.z)
    ensures Optimised3D(RangesOf(supp), Linear(a, b), x, y, z) == a + b.x * v.x + b.y * v.y + b.z * v.z
  {
    assert Means(x, Begin(supp), End(supp), v.x) && Means(y, Begin(supp), End(supp), v.y)
           && Means(z, Begin(supp), End(supp), v.z) by {
      AxisMeans(supp, shape, v.x);
      AxisMeans(supp, shape, v.y);
      AxisMeans(supp, shape, v.z);
    }
    LinearOnAxes(supp, a, b, x, y, z, v);
  }

  lemma LinearOnAxes(supp: nat, a: real, b: Vec, x: Axis, y: Axis, z: Axis, v: Vec)
    requires Means(x, Begin(supp), End(supp), v.x) && Means(y, Begin(supp), End(supp), v.y)
    requires Means(z, Begin(supp), End(supp), v.z)
    ensures Optimised3D(RangesOf(supp), Linear(a, b), x, y, z) == a + b.x * v.x + b.y * v.y + b.z * v.z
  {
    LinearSum(a, b, x, y, z, Begin(supp), End(supp), v);
  }

  // ----- nearest grid point

  predicate AtHalfCell(v: real) {
    v == 0.5 || v == -0.5
  }

  /** The native box shape gives the particle to exactly one cell of the margin, except at the lower end of the range,
      where it gives it to none. */
  lemma NgpNativeWeights(v: real)
    requires -0.5 <= v < 1.0
    ensures Sum(One(), Weight(Ngp, v), 0, 1) == if v == -0.5 then 0.0 else 1.0
    ensures Weight(Ngp, v)(0) == if -0.5 < v <= 0.5 then 1.0 else 0.0
  {
    SumOfTwo(One(), Weight(Ngp, v), 0);
  }

  /** On one axis the two variants of the box shape weigh alike exactly when the particle is not half way
      between two field points. */
  lemma NgpAxisExact(v: real)
    requires -0.5 <= v < 1.0
    ensures FormsAgree(1, NgpOnSupport, Ngp, v) <==> !AtHalfCell(v)
  {
    var a, n := AxisOf(1, NgpOnSupport, v), Weight(Ngp, v);
    var r := Ranges(0, 0, 0, 1);
    assert RangesOf(1) == r;
    if AtHalfCell(v) {
      NgpMissesCell(v);
      assert !AgreesAt(r, a.weight, a.shift, n, a.shift);
    } else {
      forall i | r.lo <= i <= r.hi
        ensures AgreesAt(r, a.weight, a.shift, n, i)
      {
        NgpHitsCell(v, i);
      }
    }
  }

  lemma NgpHitsCell(v: real, i: int)
    requires -0.5 <= v < 1.0 && !AtHalfCell(v) && 0 <= i <= 1
    ensures Ngp(i as real - v) == if i == ShiftFor(1, v) then 1.0 else 0.0
  {
  }

  lemma NgpMissesCell(v: real)
    requires AtHalfCell(v)
    ensures 0 <= AxisOf(1, NgpOnSupport, v).shift <= 1
    ensures Weight(Ngp, v)(AxisOf(1, NgpOnSupport, v).shift) == 0.0
  {
  }

  /** A cell with weight zero on some axis does not contribute. */
  lemma SingleCellCube(c: (int, int, int), wx: int -> real, wy: int -> real, wz: int -> real, lo: int, hi: int)
    requires wx(c.0) == 0.0 || wy(c.1) == 0.0 || wz(c.2) == 0.0
    ensures Sum3D(SingleCell(c.0, c.1, c.2, 1.0), wx, wy, wz, lo, hi) == 0.0
  {
    SingleCellSum3D(c.0, c.1, c.2, 1.0, wx, wy, wz, lo, hi);
  }

  lemma SumOfOne(g: int -> real, w: int -> real)
    ensures Sum(g, w, 0, 0) == g(0) * w(0)
  {
    assert Sum(g, w, 0, -1) == 0.0;
  }

  /** The optimised box shape reads exactly one cell. */
  lemma NgpReadsOneCell(f: ScalarField, x: Axis, y: Axis, z: Axis)
    requires x.weight(0) == 1.0 && y.weight(0) == 1.0 && z.weight(0) == 1.0
    ensures Optimised3D(RangesOf(1), f, x, y, z) == f(x.shift, y.shift, z.shift)
  {
    var m := Moved(f, x.shift, y.shift, z.shift);
    SumOfOne(AlongX(m, 0, 0), x.weight);
    SumOfOne(AlongY(m, x.weight, 0, 0, 0), y.weight);
    SumOfOne(AlongZ(m, x.weight, y.weight, 0, 0), z.weight);
  }

  ghost predicate NgpFormsAlike(f: ScalarField, v: Vec) {
    Optimised3D(RangesOf(1), f, AxisOf(1, NgpOnSupport, v.x), AxisOf(1, NgpOnSupport, v.y),
                AxisOf(1, NgpOnSupport, v.z))
    == Native3D(RangesOf(1), f, Weight(Ngp, v.x), Weight(Ngp, v.y), Weight(Ngp, v.z))
  }

  /** With the box shape the two interpolations agree on every field exactly at positions off the half-cell planes. */
  lemma NgpInterpolationExact(v: Vec)
    requires -0.5 <= v.x < 1.0 && -0.5 <= v.y < 1.0 && -0.5 <= v.z < 1.0
    ensures (forall f: ScalarField :: NgpFormsAlike(f, v)) <==> !AtHalfCell(v.x) && !AtHalfCell(v.y) && !AtHalfCell(v.z)
  {
    if !AtHalfCell(v.x) && !AtHalfCell(v.y) && !AtHalfCell(v.z) {
      forall f: ScalarField
        ensures NgpFormsAlike(f, v)
      {
        NgpAlikeOffHalfCells(f, v);
      }
    } else {
      NgpDiffersAtHalfCell(v);
    }
  }

  lemma NgpAlikeOffHalfCells(f: ScalarField, v: Vec)
    requires -0.5 <= v.x < 1.0 && -0.5 <= v.y < 1.0 && -0.5 <= v.z < 1.0
    requires !AtHalfCell(v.x) && !AtHalfCell(v.y) && !AtHalfCell(v.z)
    ensures NgpFormsAlike(f, v)
  {
    NgpAxisExact(v.x);
    NgpAxisExact(v.y);
    NgpAxisExact(v.z);
    AlikeOnAxes3D(RangesOf(1), f,
                  AxisOf(1, NgpOnSupport, v.x), AxisOf(1, NgpOnSupport, v.y), AxisOf(1, NgpOnSupport, v.z),
                  Weight(Ngp, v.x), Weight(Ngp, v.y), Weight(Ngp, v.z));
  }

  lemma SingleCellTellsThemApart(x: Axis, y: Axis, z: Axis, nx: int -> real, ny: int -> real, nz: int -> real)
    requires x.weight(0) == 1.0 && y.weight(0) == 1.0 && z.weight(0) == 1.0
    requires nx(x.shift) == 0.0 || ny(y.shift) == 0.0 || nz(z.shift) == 0.0
    ensures var f := SingleCell(x.shift, y.shift, z.shift, 1.0);
            Optimised3D(RangesOf(1), f, x, y, z) == 1.0 && Native3D(RangesOf(1), f, nx, ny, nz) == 0.0
  {
    NgpReadsOneCell(SingleCell(x.shift, y.shift, z.shift, 1.0), x, y, z);
    SingleCellCube((x.shift, y.shift, z.shift), nx, ny, nz, RangesOf(1).lo, RangesOf(1).hi);
  }

  lemma NgpDiffersAtHalfCell(v: Vec)
    requires AtHalfCell(v.x) || AtHalfCell(v.y) || AtHalfCell(v.z)
    ensures exists f: ScalarField :: !NgpFormsAlike(f, v)
  {
    var x, y, z := AxisOf(1, NgpOnSupport, v.x), AxisOf(1, NgpOnSupport, v.y), AxisOf(1, NgpOnSupport, v.z);
    if AtHalfCell(v.x) {
      NgpMissesCell(v.x);
    } else if AtHalfCell(v.y) {
      NgpMissesCell(v.y);
    } else {
      NgpMissesCell(v.z);
    }
    SingleCellTellsThemApart(x, y, z, Weight(Ngp, v.x), Weight(Ngp, v.y), Weight(Ngp, v.z));
    assert !NgpFormsAlike(SingleCell(x.shift, y.shift, z.shift, 1.0), v);
  }
}
