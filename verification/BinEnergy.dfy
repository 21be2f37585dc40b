/** `BinEnergyParticles`: the energy histogram of one species over a list of frames per supercell. Energies and
    weights are reals; the atomic adds of a block commute, so their order is that of the frame walk. */
module BinEnergy {
  import opened Arith
  import opened Wrappers

  /** `energy` is the kinetic energy of one real particle, already divided by the weighting. */
  datatype Particle = Particle(momX: real, momY: real, momZ: real, energy: real, weighting: real)

  datatype Setup = Setup(
    numBins: int, minEnergy: real, maxEnergy: real, maxSlopeX: real, maxSlopeZ: real, typical: real)
  {
    predicate Valid() {
      numBins >= 1 && minEnergy < maxEnergy && typical > 0.0
    }
  }

  function Abs(x: real): real {
    if x < 0.0 then -x else x
  }

  /** The detector test of the kernel. */
  predicate Accepted(c: Setup, p: Particle) {
    var enableDetector := c.maxSlopeX != 0.0 && c.maxSlopeZ != 0.0;
    !(enableDetector && p.momY > 0.0 && (Abs(p.momX / p.momY) >= c.maxSlopeX || Abs(p.momZ / p.momY) >= c.maxSlopeZ))
  }

  /** Who is counted, in momenta: without a detector, or flying away from it, every particle; else those whose sideways
      momenta lie strictly inside the opening. */
  ghost predicate InOpening(c: Setup, p: Particle) {
    || c.maxSlopeX == 0.0 || c.maxSlopeZ == 0.0 || p.momY <= 0.0
    || (&& -(c.maxSlopeX * p.momY) < p.momX < c.maxSlopeX * p.momY
        && -(c.maxSlopeZ * p.momY) < p.momZ < c.maxSlopeZ * p.momY)
  }

  lemma AcceptedExactly(c: Setup, p: Particle)
    ensures Accepted(c, p) <==> InOpening(c, p)
  {
    if p.momY > 0.0 {
      SlopeBelow(p.momX, p.momY, c.maxSlopeX);
      SlopeBelow(p.momZ, p.momY, c.maxSlopeZ);
    }
  }

  lemma SlopeBelow(a: real, b: real, slope: real)
    requires b > 0.0
    ensures Abs(a / b) < slope <==> -(slope * b) < a < slope * b
  {
    var q := a / b;
    assert q * b == a;
    CompareProducts(slope, q, b);
    CompareProducts(q, -slope, b);
    assert -slope * b == -(slope * b);
  }

  /** The bin number before and after the two clamps. */
  function RawBin(c: Setup, energy: real): int
    requires c.minEnergy < c.maxEnergy
  {
    ((energy - c.minEnergy) / (c.maxEnergy - c.minEnergy) * c.numBins as real).Floor + 1
  }

  function BinOf(c: Setup, energy: real): int
    requires c.minEnergy < c.maxEnergy
  {
    var maxBin := c.numBins + 1;
    var upper := if RawBin(c, energy) < maxBin then RawBin(c, energy) else maxBin;
    if upper > 0 then upper else 0
  }

  /** The code's bin: the number before the clamps is converted to `int`, which is undefined (`None`) out of range. */
  function CodeBin(c: Setup, energy: real): Option<int>
    requires c.minEnergy < c.maxEnergy
  {
    if -INT_RANGE <= RawBin(c, energy) < INT_RANGE then Some(BinOf(c, energy)) else None
  }

  /** The conversion is defined for every particle that is counted. */
  ghost predicate Defined(c: Setup, ps: seq<Particle>)
    requires c.minEnergy < c.maxEnergy
  {
    forall p :: p in ps && Accepted(c, p) ==> CodeBin(c, p.energy).Some?
  }

  /** Lower edge of bin `b`, for `b` from 1 to numBins + 1. */
  function Edge(c: Setup, b: int): real
    requires c.numBins >= 1
  {
    c.minEnergy + (b - 1) as real * ((c.maxEnergy - c.minEnergy) / c.numBins as real)
  }

  /** The energies that belong into bin `b`; bin 0 is underflow and bin numBins + 1 overflow. */
  ghost predicate BelongsIn(c: Setup, energy: real, b: int)
    requires c.numBins >= 1
  {
    if b == 0 then energy < c.minEnergy
    else if b == c.numBins + 1 then energy >= c.maxEnergy
    else 1 <= b <= c.numBins && Edge(c, b) <= energy < Edge(c, b + 1)
  }

  /** `energy` is at or above an edge exactly when the scaled energy is. */
  lemma EdgeScales(c: Setup, energy: real, b: int)
    requires c.Valid()
    ensures Edge(c, b) <= energy
       <==> (b - 1) as real <= (energy - c.minEnergy) / (c.maxEnergy - c.minEnergy) * c.numBins as real
  {
    var span, n, k, d := c.maxEnergy - c.minEnergy, c.numBins as real, (b - 1) as real, energy - c.minEnergy;
    Scale(d, span, n, k);
  }

  lemma Scale(d: real, span: real, n: real, k: real)
    requires span > 0.0 && n > 0.0
    ensures k * (span / n) <= d <==> k <= d / span * n
  {
    var q := d / span;
    assert q * span == d;
    var u := span / n;
    assert u * n == span;
    assert d == q * n * u;
    CompareProducts(k, q * n, u);
  }

  lemma CompareProducts(x: real, y: real, u: real)
    requires u > 0.0
    ensures x <= y <==> x * u <= y * u
  {
    if x > y {
      assert (x - y) * u > 0.0;
    }
  }

  lemma EdgeEnds(c: Setup)
    requires c.Valid()
    ensures Edge(c, 1) == c.minEnergy && Edge(c, c.numBins + 1) == c.maxEnergy
  {
    var span, n := c.maxEnergy - c.minEnergy, c.numBins as real;
    assert n * (span / n) == span;
  }

  /** The bins between the two ends are equally wide. */
  lemma BinsAreEqual(c: Setup, b: int)
    requires c.Valid()
    ensures (Edge(c, b + 1) - Edge(c, b)) * c.numBins as real == c.maxEnergy - c.minEnergy
    ensures Edge(c, 1) == c.minEnergy && Edge(c, c.numBins + 1) == c.maxEnergy
  {
    EdgeEnds(c);
    var width, k := (c.maxEnergy - c.minEnergy) / c.numBins as real, (b - 1) as real;
    assert (k + 1.0) * width == k * width + width;
  }

  /** The bin number before the clamps fits the source's `int` exactly for energies between these two edges. */
  lemma RawBinFitsInt(c: Setup, energy: real)
    requires c.Valid()
    ensures -INT_RANGE <= RawBin(c, energy) < INT_RANGE <==> Edge(c, -INT_RANGE) <= energy < Edge(c, INT_RANGE)
  {
    RawBinAtLeast(c, energy, -INT_RANGE);
    RawBinAtLeast(c, energy, INT_RANGE);
  }

  lemma RawBinAtLeast(c: Setup, energy: real, b: int)
    requires c.Valid()
    ensures b <= RawBin(c, energy) <==> Edge(c, b) <= energy
  {
    EdgeScales(c, energy, b);
  }

  /** The code puts an energy into bin `b` exactly when the bin's interval contains it and its conversion to `int` is
      defined, that is, when it lies between two far edges. */
  lemma BinIsExact(c: Setup, energy: real, b: int)
    requires c.Valid() && 0 <= b <= c.numBins + 1
    ensures BinOf(c, energy) == b <==> BelongsIn(c, energy, b)
    ensures CodeBin(c, energy) == Some(b)
       <==> BelongsIn(c, energy, b) && Edge(c, -INT_RANGE) <= energy < Edge(c, INT_RANGE)
  {
    RawBinFitsInt(c, energy);
    EdgeEnds(c);
    EdgeScales(c, energy, 1);
    EdgeScales(c, energy, c.numBins + 1);
    EdgeScales(c, energy, b);
    EdgeScales(c, energy, b + 1);
  }

  // ----- sums

  function Share(c: Setup, p: Particle, b: int): real
    requires c.Valid()
  {
    if Accepted(c, p) && BinOf(c, p.energy) == b then p.weighting / c.typical else 0.0
  }

  /** What the particles add to bin `b`. */
  function BinSum(c: Setup, ps: seq<Particle>, b: int): real
    requires c.Valid()
  {
    if ps == [] then 0.0 else BinSum(c, ps[..|ps| - 1], b) + Share(c, ps[|ps| - 1], b)
  }

  function AcceptedWeight(c: Setup, ps: seq<Particle>): real {
    if ps == [] then 0.0
    else AcceptedWeight(c, ps[..|ps| - 1]) + if Accepted(c, ps[|ps| - 1]) then ps[|ps| - 1].weighting else 0.0
  }

  lemma {:induction false} BinSumAppend(c: Setup, a: seq<Particle>, ps: seq<Particle>, b: int)
    requires c.Valid()
    ensures BinSum(c, a + ps, b) == BinSum(c, a, b) + BinSum(c, ps, b)
  {
    if ps == [] {
      assert a + ps == a;
    } else {
      assert (a + ps)[..|a + ps| - 1] == a + ps[..|ps| - 1];
      BinSumAppend(c, a, ps[..|ps| - 1], b);
    }
  }

  lemma BinSumRemove(c: Setup, ps: seq<Particle>, j: nat, b: int)
    requires c.Valid() && j < |ps|
    ensures BinSum(c, ps, b) == BinSum(c, ps[..j] + ps[j + 1..], b) + Share(c, ps[j], b)
  {
    assert ps == ps[..j] + ([ps[j]] + ps[j + 1..]);
    BinSumAppend(c, ps[..j], [ps[j]] + ps[j + 1..], b);
    BinSumAppend(c, [ps[j]], ps[j + 1..], b);
    BinSumAppend(c, ps[..j], ps[j + 1..], b);
    assert BinSum(c, [ps[j]], b) == BinSum(c, [ps[j]][..0], b) + Share(c, ps[j], b);
  }

  /** The order of the atomic adds does not matter. */
  lemma {:induction false} OrderDoesNotMatter(c: Setup, ps: seq<Particle>, qs: seq<Particle>, b: int)
    requires c.Valid() && multiset(ps) == multiset(qs)
    ensures BinSum(c, ps, b) == BinSum(c, qs, b)
    decreases |ps|
  {
    assert |ps| == |multiset(ps)| == |multiset(qs)| == |qs|;
    if ps != [] {
      var last := |ps| - 1;
      assert ps[last] in multiset(ps);
      var j :| 0 <= j < |qs| && qs[j] == ps[last];
      MultisetRemove(ps, last);
      MultisetRemove(qs, j);
      assert ps[..last] + ps[last + 1..] == ps[..last];
      OrderDoesNotMatter(c, ps[..last], qs[..j] + qs[j + 1..], b);
      BinSumRemove(c, qs, j, b);
    }
  }

  lemma MultisetRemove<T>(s: seq<T>, j: nat)
    requires j < |s|
    ensures multiset(s[..j] + s[j + 1..]) == multiset(s) - multiset{s[j]}
  {
    assert s == s[..j] + ([s[j]] + s[j + 1..]);
  }

  function BinsTotal(bins: seq<real>): real {
    if bins == [] then 0.0 else BinsTotal(bins[..|bins| - 1]) + bins[|bins| - 1]
  }

  /** The bins of a list of particles. */
  function Bins(c: Setup, ps: seq<Particle>): (r: seq<real>)
    requires c.Valid()
    ensures |r| == c.numBins + 2
  {
    seq(c.numBins + 2, b => BinSum(c, ps, b))
  }

  lemma {:induction false} OneBinRaised(bins: seq<real>, bins': seq<real>, k: int, w: real)
    requires |bins| == |bins'|
    requires forall b :: 0 <= b < |bins| ==> bins'[b] == bins[b] + if b == k then w else 0.0
    ensures BinsTotal(bins') == BinsTotal(bins) + if 0 <= k < |bins| then w else 0.0
  {
    if bins != [] {
      var last := |bins| - 1;
      OneBinRaised(bins[..last], bins'[..last], k, w);
    }
  }

  lemma {:induction false} EmptyTotal(bins: seq<real>)
    requires forall b :: 0 <= b < |bins| ==> bins[b] == 0.0
    ensures BinsTotal(bins) == 0.0
  {
    if bins != [] {
      EmptyTotal(bins[..|bins| - 1]);
    }
  }

  lemma AddShare(total: real, weighting: real, typical: real)
    requires typical > 0.0
    ensures (total + weighting / typical) * typical == total * typical + weighting
  {
    assert weighting / typical * typical == weighting;
    assert (total + weighting / typical) * typical == total * typical + weighting / typical * typical;
  }

  /** The weight of the accepted particles in units of a typical macro particle. */
  function AcceptedShare(c: Setup, ps: seq<Particle>): real
    requires c.Valid()
  {
    if ps == [] then 0.0
    else
      var p := ps[|ps| - 1];
      AcceptedShare(c, ps[..|ps| - 1]) + if Accepted(c, p) then p.weighting / c.typical else 0.0
  }

  lemma {:induction false} TotalIsShare(c: Setup, ps: seq<Particle>)
    requires c.Valid()
    ensures BinsTotal(Bins(c, ps)) == AcceptedShare(c, ps)
  {
    if ps == [] {
      EmptyTotal(Bins(c, ps));
    } else {
      TotalIsShare(c, ps[..|ps| - 1]);
      BinsAfter(c, ps);
    }
  }

  lemma {:induction false} ShareIsWeight(c: Setup, ps: seq<Particle>)
    requires c.Valid()
    ensures AcceptedShare(c, ps) * c.typical == AcceptedWeight(c, ps)
  {
    if ps != [] {
      ShareIsWeight(c, ps[..|ps| - 1]);
      AddShare(AcceptedShare(c, ps[..|ps| - 1]), ps[|ps| - 1].weighting, c.typical);
    }
  }

  /** Conservation: all bins together, under- and overflow included, hold the weight of all accepted particles. */
  lemma WeightIsConserved(c: Setup, ps: seq<Particle>)
    requires c.Valid()
    ensures BinsTotal(Bins(c, ps)) * c.typical == AcceptedWeight(c, ps)
  {
    TotalIsShare(c, ps);
    ShareIsWeight(c, ps);
  }

  lemma BinsAfter(c: Setup, ps: seq<Particle>)
    requires c.Valid() && ps != []
    ensures var p := ps[|ps| - 1];
            BinsTotal(Bins(c, ps))
            == BinsTotal(Bins(c, ps[..|ps| - 1])) + if Accepted(c, p) then p.weighting / c.typical else 0.0
  {
    var p := ps[|ps| - 1];
    var w := if Accepted(c, p) then p.weighting / c.typical else 0.0;
    OneBinRaised(Bins(c, ps[..|ps| - 1]), Bins(c, ps), BinOf(c, p.energy), w);
  }

  // ----- the kernel

  /** A supercell's frames, oldest first; all but the last are full, the last holds `lastSize` particles. */
  datatype SuperCell = SuperCell(frames: seq<seq<Particle>>, lastSize: nat) {
    ghost predicate Valid(threads: nat) {
      && (forall f :: 0 <= f < |frames| ==> |frames[f]| == threads)
      && lastSize <= threads
    }

    /** The particles of the frames from `f` on. */
    function From(f: nat): seq<Particle>
      requires f <= |frames|
      requires frames != [] ==> lastSize <= |frames[|frames| - 1]|
      decreases |frames| - f
    {
      if f == |frames| then []
      else if f == |frames| - 1 then frames[f][..lastSize]
      else frames[f] + From(f + 1)
    }
  }

  /** All particles of the frames before `f`, which are full. */
  function FullFrames(cell: SuperCell, f: nat): multiset<Particle>
    requires f <= |cell.frames|
  {
    if f == 0 then multiset{} else FullFrames(cell, f - 1) + multiset(cell.frames[f - 1])
  }

  /** A supercell's particles: all of every full frame and the first `lastSize` of the last one, each once. */
  lemma ParticlesOfFrames(cell: SuperCell, threads: nat)
    requires cell.Valid(threads) && cell.frames != []
    ensures var last := |cell.frames| - 1;
            multiset(cell.From(0)) == FullFrames(cell, last) + multiset(cell.frames[last][..cell.lastSize])
  {
    FromFrame(cell, threads, 0);
  }

  lemma {:induction false} FromFrame(cell: SuperCell, threads: nat, f: nat)
    requires cell.Valid(threads) && f < |cell.frames|
    ensures var last := |cell.frames| - 1;
            FullFrames(cell, f) + multiset(cell.From(f))
            == FullFrames(cell, last) + multiset(cell.frames[last][..cell.lastSize])
    decreases |cell.frames| - f
  {
    if f < |cell.frames| - 1 {
      FromFrame(cell, threads, f + 1);
      JoinFrames(FullFrames(cell, f), cell.frames[f], cell.From(f + 1));
    }
  }

  lemma JoinFrames<T>(before: multiset<T>, frame: seq<T>, rest: seq<T>)
    ensures before + multiset(frame + rest) == before + multiset(frame) + multiset(rest)
  {
  }

  lemma {:induction false} FromBegins(cell: SuperCell, f: nat, threads: nat)
    requires cell.Valid(threads) && f <= |cell.frames|
    ensures forall p :: p in cell.From(f) ==> p in cell.From(0)
  {
    if f > 0 {
      FromBegins(cell, f - 1, threads);
    }
  }

  /** `KernelBinEnergyParticles` for one supercell: walk the frames from the last to the first. `ok` says that every
      conversion on the way was defined. */
  method BinSuperCell(c: Setup, cell: SuperCell, threads: nat) returns (shBin: seq<real>, ok: bool)
    requires c.Valid() && cell.Valid(threads)
    ensures ok <==> Defined(c, cell.From(0))
    ensures ok ==> shBin == Bins(c, cell.From(0))
  {
    ok := true;
    shBin := seq(c.numBins + 2, b => 0.0);
    var f, count := |cell.frames|, cell.lastSize;
    while f > 0
      invariant 0 <= f <= |cell.frames|
      invariant count == if f == |cell.frames| then cell.lastSize else threads
      invariant |shBin| == c.numBins + 2 && ok && Defined(c, cell.From(f))
      invariant forall b :: 0 <= b < |shBin| ==> shBin[b] == BinSum(c, cell.From(f), b)
    {
      ghost var before := shBin;
      ghost var active := cell.frames[f - 1][..count];
      assert cell.From(f - 1) == active + cell.From(f);
      shBin, ok := BinFrame(c, cell.frames[f - 1], count, shBin);
      if !ok {
        FromBegins(cell, f - 1, threads);
        return;
      }
      forall b | 0 <= b < |shBin|
        ensures shBin[b] == BinSum(c, cell.From(f - 1), b)
      {
        BinSumAppend(c, active, cell.From(f), b);
      }
      f := f - 1;
      count := threads;
    }
  }

  lemma OneParticle(c: Setup, frame: seq<Particle>, bins: seq<real>, shBin: seq<real>)
    requires c.Valid() && |frame| >= 1 && |bins| == |shBin| == c.numBins + 2
    requires forall b :: 0 <= b < |bins| ==> shBin[b] == bins[b] + BinSum(c, frame[..1], b)
    ensures frame[0].weighting != 0.0 ==> (shBin != bins <==> InOpening(c, frame[0]))
    ensures InOpening(c, frame[0]) ==>
              forall b :: 0 <= b < |bins| ==>
                shBin[b] == bins[b] + if BelongsIn(c, frame[0].energy, b) then frame[0].weighting / c.typical else 0.0
  {
    var p := frame[0];
    AcceptedExactly(c, p);
    assert frame[..1] == [p] && [p][..0] == [];
    forall b | 0 <= b < |bins|
      ensures shBin[b] == bins[b] + Share(c, p, b)
      ensures BinOf(c, p.energy) == b <==> BelongsIn(c, p.energy, b)
    {
      assert BinSum(c, [p], b) == BinSum(c, [p][..0], b) + Share(c, p, b);
      BinIsExact(c, p.energy, b);
    }
    var bin := BinOf(c, p.energy);
    assert p.weighting != 0.0 ==> p.weighting / c.typical != 0.0;
    if InOpening(c, p) && p.weighting != 0.0 {
      assert shBin[bin] != bins[bin];
    }
  }

  /** All threads of a block on one frame. */
  method BinFrame(c: Setup, frame: seq<Particle>, count: nat, bins: seq<real>) returns (shBin: seq<real>, ok: bool)
    requires c.Valid() && count <= |frame| && |bins| == c.numBins + 2
    ensures |shBin| == |bins| && (ok <==> Defined(c, frame[..count]))
    ensures ok ==> forall b :: 0 <= b < |bins| ==> shBin[b] == bins[b] + BinSum(c, frame[..count], b)
    ensures ok && count == 1 && frame[0].weighting != 0.0 ==> (shBin != bins <==> InOpening(c, frame[0]))
    ensures ok && count == 1 && InOpening(c, frame[0]) ==>
              forall b :: 0 <= b < |bins| ==>
                shBin[b] == bins[b] + if BelongsIn(c, frame[0].energy, b) then frame[0].weighting / c.typical else 0.0
  {
    shBin, ok := bins, true;
    var t := 0;
    while t < count
      invariant 0 <= t <= count && |shBin| == |bins| && Defined(c, frame[..t])
      invariant forall b :: 0 <= b < |bins| ==> shBin[b] == bins[b] + BinSum(c, frame[..t], b)
    {
      assert frame[..t + 1][..t] == frame[..t];
      var p := frame[t];
      if Accepted(c, p) {
        var bin := CodeBin(c, p.energy);
        if bin.None? {
          assert p in frame[..count];
          return shBin, false;
        }
        shBin := shBin[bin.value := shBin[bin.value] + p.weighting / c.typical];
      }
      t := t + 1;
    }
    if count == 1 {
      OneParticle(c, frame, bins, shBin);
    }
  }

  function AllParticles(cells: seq<SuperCell>, threads: nat): seq<Particle>
    requires forall s :: 0 <= s < |cells| ==> cells[s].Valid(threads)
  {
    if cells == [] then []
    else
      var last := cells[|cells| - 1];
      assert last.Valid(threads);
      AllParticles(cells[..|cells| - 1], threads) + last.From(0)
  }

  /** One block's bins, added to the global ones. */
  method AddBins(gBins: seq<real>, shBin: seq<real>) returns (r: seq<real>)
    requires |gBins| == |shBin|
    ensures |r| == |gBins| && forall b :: 0 <= b < |r| ==> r[b] == gBins[b] + shBin[b]
  {
    r := gBins;
    var i := 0;
    while i < |gBins|
      invariant 0 <= i <= |gBins| == |r|
      invariant forall b :: 0 <= b < |r| ==> r[b] == gBins[b] + if b < i then shBin[b] else 0.0
    {
      r := r[i := r[i] + shBin[i]];
      i := i + 1;
    }
  }

  /** The total that the host writes behind the bins. */
  method CountParticles(bins: seq<real>) returns (count: real)
    ensures count == BinsTotal(bins)
  {
    count := 0.0;
    var i := 0;
    while i < |bins|
      invariant 0 <= i <= |bins| && count == BinsTotal(bins[..i])
    {
      assert bins[..i + 1][..i] == bins[..i];
      count := count + bins[i];
      i := i + 1;
    }
    assert bins[..i] == bins;
  }

  lemma OneMoreCell(c: Setup, cells: seq<SuperCell>, threads: nat, s: nat, b: int)
    requires c.Valid() && s < |cells| && forall i :: 0 <= i < |cells| ==> cells[i].Valid(threads)
    ensures BinSum(c, AllParticles(cells[..s + 1], threads), b)
         == BinSum(c, AllParticles(cells[..s], threads), b) + BinSum(c, cells[s].From(0), b)
  {
    assert cells[..s + 1][..s] == cells[..s];
    BinSumAppend(c, AllParticles(cells[..s], threads), cells[s].From(0), b);
  }

  lemma {:induction false} CellsBegin(cells: seq<SuperCell>, threads: nat, s: nat)
    requires s <= |cells| && forall i :: 0 <= i < |cells| ==> cells[i].Valid(threads)
    ensures forall p :: p in AllParticles(cells[..s], threads) ==> p in AllParticles(cells, threads)
    decreases |cells| - s
  {
    if s < |cells| {
      CellsBegin(cells, threads, s + 1);
      assert cells[..s + 1][..s] == cells[..s];
    } else {
      assert cells[..s] == cells;
    }
  }

  /** Every block of the area adds its bins to the global ones. */
  method AreaBins(c: Setup, cells: seq<SuperCell>, threads: nat) returns (gBins: seq<real>, ok: bool)
    requires c.Valid() && forall s :: 0 <= s < |cells| ==> cells[s].Valid(threads)
    ensures ok <==> Defined(c, AllParticles(cells, threads))
    ensures ok ==> gBins == Bins(c, AllParticles(cells, threads))
  {
    ok := true;
    gBins := seq(c.numBins + 2, b => 0.0);
    assert cells[..0] == [];
    var s := 0;
    while s < |cells|
      invariant 0 <= s <= |cells| && |gBins| == c.numBins + 2 && ok && Defined(c, AllParticles(cells[..s], threads))
      invariant forall b :: 0 <= b < |gBins| ==> gBins[b] == BinSum(c, AllParticles(cells[..s], threads), b)
    {
      assert cells[..s + 1][..s] == cells[..s];
      var shBin;
      shBin, ok := BinSuperCell(c, cells[s], threads);
      if !ok {
        CellsBegin(cells, threads, s + 1);
        return;
      }
      forall b | 0 <= b < |gBins| {
        OneMoreCell(c, cells, threads, s, b);
      }
      gBins := AddBins(gBins, shBin);
      s := s + 1;
    }
    assert cells[..|cells|] == cells;
  }

  lemma TotalIsWeight(c: Setup, ps: seq<Particle>, bins: seq<real>, count: real)
    requires c.Valid() && bins == Bins(c, ps) && count == BinsTotal(bins)
    ensures count * c.typical == AcceptedWeight(c, ps)
  {
    WeightIsConserved(c, ps);
  }

  /** `calBinEnergyParticles`: the bins of an area and the total written behind them. */
  method BinArea(c: Setup, cells: seq<SuperCell>, threads: nat) returns (gBins: seq<real>, count: real, ok: bool)
    requires c.Valid() && forall s :: 0 <= s < |cells| ==> cells[s].Valid(threads)
    ensures ok <==> Defined(c, AllParticles(cells, threads))
    ensures ok ==> gBins == Bins(c, AllParticles(cells, threads))
    ensures ok ==> count * c.typical == AcceptedWeight(c, AllParticles(cells, threads))
  {
    gBins, ok := AreaBins(c, cells, threads);
    count := CountParticles(gBins);
    if ok {
      TotalIsWeight(c, AllParticles(cells, threads), gBins, count);
    }
  }
}
