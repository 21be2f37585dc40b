/** Test 5, the block move: every megabyte block is initialised with pairs of equal words, rotated, and checked. */
module BlockMove {
  import opened Arith
  import opened GridStride
  import opened Memtest

  const HALF := 131072   // words of half a block: BLOCKSIZE / sizeof(unsigned int) / 2
  const CHUNK := 16      // words initialised by one iteration of kernel5_init

  /** `1 << k`, place by place. */
  function Bit(k: nat): bv32 {
    if k == 0 then 1 else Bit(k - 1) << 1
  }

  function ThreadBit(thread: nat): bv32 {
    Bit(thread % 32)
  }

  /** The words `p1, p1, p2, p2, ...` of a chunk, with `p2` the complement of `p1`. */
  function Alternating<W>(at: nat, p1: W, p2: W): W {
    if at % 4 < 2 then p1 else p2
  }

  function InitWord(at: nat, thread: nat): bv32 {
    Alternating(at, ThreadBit(thread), !ThreadBit(thread))
  }

  /** kernel5_init */
  function InitKernel(chunks: nat, threads: nat): Kernel<bv32>
    requires threads > 0
  {
    Kernel(chunks, CHUNK, 0, CHUNK, CHUNK, CHUNK - 1, Flip32,
           (i: nat) => NoCheck(0, seq(CHUNK, (at: nat) => Put(at, Literal(InitWord(at, i % threads))))))
  }

  /** The three copy loops inside one block of `2 * h` words, as one list of word copies. */
  function CopyAt<W>(h: nat, q: nat): Store<W>
    requires 8 <= h && q < 2 * h
  {
    if q < h then Put(h + q, Own(q))
    else if q < 2 * h - 8 then Put(q - h + 8, Own(q))
    else Put(q - (2 * h - 8), Own(h + (h - 8) + (q - (2 * h - 8))))
  }

  /** kernel5_move; it addresses block `i` by the byte offset `i * BLOCKSIZE`. */
  function MoveKernel<W(!new)>(blocks: nat, h: nat, flip: W -> W, filler: W): Kernel<W>
    requires 8 <= h
  {
    Kernel(blocks, 2 * h, 0, 2 * h, 8 * h, 0, flip,
           (i: nat) => NoCheck(filler, seq(2 * h, (q: nat) requires q < 2 * h => CopyAt(h, q))))
  }

  /** kernel5_check */
  function CheckKernel<W(!new)>(pairs: nat, flip: W -> W): Kernel<W> {
    Kernel(pairs, 2, 0, 0, 2, 1, flip, (i: nat) => Body(true, 0, Own(1), []))
  }

  // ----- the move is a rotation

  /** The word that ends up at place `j`: the first half rotated by eight, and a copy of the old first half. */
  function Source(h: nat, j: nat): nat
    requires 8 <= h && j < 2 * h
  {
    if j < 8 then h - 8 + j else if j < h then j - 8 else j - h
  }

  /** Which of the copies writes place `j`. */
  function WrittenBy(h: nat, j: nat): nat
    requires 8 <= h && j < 2 * h
  {
    if j < 8 then 2 * h - 8 + j else if j < h then h + j - 8 else j - h
  }

  lemma {:induction false} MoveProgress<W(!new)>(k: Kernel<W>, h: nat, i: nat, unit: seq<W>, m: nat)
    requires 8 <= h && |unit| == 2 * h == k.width && k.prefix == 0 && m <= 2 * h && BodyFits(k, i)
    requires |k.body(i).stores| == 2 * h && forall q :: 0 <= q < 2 * h ==> k.body(i).stores[q] == CopyAt(h, q)
    ensures var u := UnitAfter(k, i, unit, [], m);
            forall j :: 0 <= j < 2 * h ==> u[j] == if WrittenBy(h, j) < m then unit[Source(h, j)] else unit[j]
  {
    if m > 0 {
      MoveProgress(k, h, i, unit, m - 1);
    }
  }

  ghost predicate Moved<W>(h: nat, unit: seq<W>, unit': seq<W>) {
    && 8 <= h && |unit| == |unit'| == 2 * h
    && forall j :: 0 <= j < 2 * h ==> unit'[j] == unit[Source(h, j)]
  }

  lemma MoveFits<W(!new)>(mem: seq<W>, blocks: nat, h: nat, flip: W -> W, filler: W)
    requires 8 <= h && |mem| == blocks * (2 * h)
    ensures Fits(MoveKernel(blocks, h, flip, filler), |mem|) <==> blocks == 0 || 8 * h * (blocks - 1) < INT_RANGE
    ensures Fits(MoveKernel(blocks, h, flip, filler), |mem|) ==>
              BadUnits(MoveKernel(blocks, h, flip, filler), mem) == {}
  {
    AddressesFitExactly(MoveKernel(blocks, h, flip, filler));
  }

  /** With blocks of one mebibyte the byte offsets of `kernel5_move` fit `int` exactly up to 2048 blocks. */
  lemma BlockAddressesFit(mem: seq<bv32>, blocks: nat)
    requires |mem| == blocks * (2 * HALF)
    ensures Fits(MoveKernel(blocks, HALF, Flip32, 0), |mem|) <==> blocks <= 2048
  {
    MoveFits(mem, blocks, HALF, Flip32, 0);
  }

  /** With one block more, the last block's offset becomes negative: the kernel writes in front of the buffer. */
  lemma BlockAddressOverflows(mem: seq<bv32>)
    requires |mem| == 2049 * (2 * HALF)
    ensures !Fits(MoveKernel(2049, HALF, Flip32, 0), |mem|)
    ensures Int32(MoveKernel(2049, HALF, Flip32, 0).factor * 2048) < 0
  {
    BlockAddressesFit(mem, 2049);
  }

  /** `kernel5_move`, whatever the interleaving: every block becomes its own rotation. */
  lemma MoveRotatesBlocks<W(!new)>(mem: seq<W>, mem': seq<W>, blocks: nat, h: nat, flip: W -> W, filler: W)
    requires 8 <= h && |mem| == blocks * (2 * h)
    requires Fits(MoveKernel(blocks, h, flip, filler), |mem|)
    requires IsEffect(MoveKernel(blocks, h, flip, filler), mem, mem')
    ensures forall i: nat :: i < blocks ==>
              i * (2 * h) + 2 * h <= |mem| && Moved(h, Unit(mem, i, 2 * h), Unit(mem', i, 2 * h))
  {
    var k := MoveKernel(blocks, h, flip, filler);
    forall i: nat | i < blocks
      ensures i * (2 * h) + 2 * h <= |mem| && Moved(h, Unit(mem, i, 2 * h), Unit(mem', i, 2 * h))
    {
      UnitFits(k, |mem|, i);
      assert UnitDone(k, mem, mem', i, |k.body(i).stores|);
      assert mem[..0] == [];
      MoveProgress(k, h, i, Unit(mem, i, 2 * h), 2 * h);
    }
  }

  /** The same on the whole memory, with the source's numbers: in every mebibyte the old first half of 131072 words is
      rotated by eight words, and copied behind itself. */
  ghost predicate BlocksRotated<W>(before: seq<W>, after: seq<W>, blocks: nat) {
    && |before| == |after| == blocks * 262144
    && forall b: nat, j: nat :: b < blocks && j < 131072 ==> WordRotated(before, after, b, j)
  }

  ghost predicate WordRotated<W>(before: seq<W>, after: seq<W>, b: nat, j: nat) {
    && b * 262144 + 262144 <= |before| == |after| && j < 131072
    && after[b * 262144 + (j + 8) % 131072] == before[b * 262144 + j]
    && after[b * 262144 + 131072 + j] == before[b * 262144 + j]
  }

  lemma BlocksAreRotated<W(!new)>(mem: seq<W>, mem': seq<W>, blocks: nat, flip: W -> W, filler: W)
    requires |mem| == blocks * (2 * HALF)
    requires Fits(MoveKernel(blocks, HALF, flip, filler), |mem|)
    requires IsEffect(MoveKernel(blocks, HALF, flip, filler), mem, mem')
    ensures BlocksRotated(mem, mem', blocks)
  {
    MoveRotatesBlocks(mem, mem', blocks, HALF, flip, filler);
    forall b: nat, j: nat | b < blocks && j < 131072
      ensures WordRotated(mem, mem', b, j)
    {
      assert Moved(HALF, Unit(mem, b, 2 * HALF), Unit(mem', b, 2 * HALF));
      WordIsRotated(mem, mem', b, j);
    }
  }

  lemma WordIsRotated<W>(mem: seq<W>, mem': seq<W>, b: nat, j: nat)
    requires b * (2 * HALF) + 2 * HALF <= |mem| == |mem'| && j < HALF
    requires Moved(HALF, Unit(mem, b, 2 * HALF), Unit(mem', b, 2 * HALF))
    ensures WordRotated(mem, mem', b, j)
  {
    var unit, unit' := Unit(mem, b, 2 * HALF), Unit(mem', b, 2 * HALF);
    var to := (j + 8) % HALF;
    assert Source(HALF, to) == j && Source(HALF, HALF + j) == j;
    assert unit'[to] == unit[j] && unit'[HALF + j] == unit[j];
  }

  // ----- pairs

  ghost predicate PairsEqual<W>(words: seq<W>) {
    forall i: nat :: 2 * i + 1 < |words| ==> words[2 * i] == words[2 * i + 1]
  }

  /** Rotating by an even number of words keeps equal pairs. */
  lemma MovedKeepsPairs<W>(h: nat, unit: seq<W>, unit': seq<W>)
    requires Moved(h, unit, unit') && h % 2 == 0 && PairsEqual(unit)
    ensures PairsEqual(unit')
  {
    forall i: nat | 2 * i + 1 < |unit'|
      ensures unit'[2 * i] == unit'[2 * i + 1]
    {
      var s := Source(h, 2 * i);
      assert s == 2 * (s / 2) && Source(h, 2 * i + 1) == s + 1;
      assert unit[2 * (s / 2)] == unit[2 * (s / 2) + 1];
    }
  }

  /** The pair `j` of unit `i` is the pair `i * w + j` of the buffer. */
  lemma PairOfUnit<W>(mem: seq<W>, units: nat, w: nat, i: nat, j: nat)
    requires w > 0 && |mem| == units * (2 * w) && i < units && j < w
    ensures i * (2 * w) + 2 * w <= |mem| && 0 <= 2 * (i * w + j) && 2 * (i * w + j) + 1 < |mem|
    ensures Unit(mem, i, 2 * w)[2 * j] == mem[2 * (i * w + j)]
    ensures Unit(mem, i, 2 * w)[2 * j + 1] == mem[2 * (i * w + j) + 1]
  {
    UnitBounds(i, units, 2 * w);
    assert i * (2 * w) == 2 * (i * w);
  }

  lemma PairsToUnit<W>(mem: seq<W>, units: nat, w: nat, i: nat)
    requires w > 0 && |mem| == units * (2 * w) && i < units && PairsEqual(mem)
    ensures UnitPairsEqual(mem, i, w)
  {
    UnitBounds(i, units, 2 * w);
    forall j: nat | 2 * j + 1 < 2 * w
      ensures Unit(mem, i, 2 * w)[2 * j] == Unit(mem, i, 2 * w)[2 * j + 1]
    {
      PairOfUnit(mem, units, w, i, j);
    }
  }

  lemma UnitsToPair<W>(mem: seq<W>, units: nat, w: nat, p: nat)
    requires w > 0 && |mem| == units * (2 * w) && 2 * p + 1 < |mem|
    requires p / w < units && UnitPairsEqual(mem, p / w, w)
    ensures mem[2 * p] == mem[2 * p + 1]
  {
    var i, j := p / w, p % w;
    assert p == i * w + j;
    PairOfUnit(mem, units, w, i, j);
  }

  ghost predicate AllUnitsPaired<W>(mem: seq<W>, units: nat, w: nat) {
    forall i: nat :: i < units ==> UnitPairsEqual(mem, i, w)
  }

  lemma UnitsToPairs<W>(mem: seq<W>, units: nat, w: nat)
    requires w > 0 && |mem| == units * (2 * w) && AllUnitsPaired(mem, units, w)
    ensures PairsEqual(mem)
  {
    forall p: nat | 2 * p + 1 < |mem|
      ensures mem[2 * p] == mem[2 * p + 1]
    {
      PairsUnit(p, units, w);
      assert UnitPairsEqual(mem, p / w, w);
      UnitsToPair(mem, units, w, p);
    }
  }

  /** A buffer cut into units of even width has equal pairs exactly when all its units have. */
  lemma PairsByUnit<W>(mem: seq<W>, units: nat, w: nat)
    requires w > 0 && |mem| == units * (2 * w)
    ensures PairsEqual(mem) <==> AllUnitsPaired(mem, units, w)
  {
    if AllUnitsPaired(mem, units, w) {
      UnitsToPairs(mem, units, w);
    } else if PairsEqual(mem) {
      forall i: nat | i < units
        ensures UnitPairsEqual(mem, i, w)
      {
        PairsToUnit(mem, units, w, i);
      }
    }
  }

  lemma PairsUnit(p: nat, units: nat, w: nat)
    requires w > 0 && 2 * p + 1 < units * (2 * w)
    ensures p / w < units
  {
    assert units * (2 * w) == 2 * (units * w);
    assert p == p / w * w + p % w;
    MultipleGap(p / w - units + 1, w);
    assert (p / w - units + 1) * w == p / w * w - units * w + w;
  }

  ghost predicate UnitPairsEqual<W>(mem: seq<W>, i: nat, w: nat) {
    i * (2 * w) + 2 * w <= |mem| && PairsEqual(Unit(mem, i, 2 * w))
  }

  lemma MoveKeepsPairs<W(!new)>(mem: seq<W>, mem': seq<W>, blocks: nat, h: nat, flip: W -> W, filler: W)
    requires 8 <= h && h % 2 == 0 && |mem| == blocks * (2 * h) && PairsEqual(mem)
    requires Fits(MoveKernel(blocks, h, flip, filler), |mem|)
    requires IsEffect(MoveKernel(blocks, h, flip, filler), mem, mem')
    ensures PairsEqual(mem')
  {
    MoveRotatesBlocks(mem, mem', blocks, h, flip, filler);
    PairsByUnit(mem, blocks, h);
    forall i: nat | i < blocks
      ensures UnitPairsEqual(mem', i, h)
    {
      assert UnitPairsEqual(mem, i, h);
      MovedKeepsPairs(h, Unit(mem, i, 2 * h), Unit(mem', i, 2 * h));
    }
    PairsByUnit(mem', blocks, h);
  }

  // ----- initialisation and check

  lemma {:induction false} InitProgress(k: Kernel<bv32>, i: nat, thread: nat, unit: seq<bv32>, m: nat)
    requires |unit| == CHUNK == k.width && k.prefix == 0 && m <= CHUNK && BodyFits(k, i)
    requires |k.body(i).stores| == CHUNK
    requires forall at :: 0 <= at < CHUNK ==> k.body(i).stores[at] == Put(at, Literal(InitWord(at, thread)))
    ensures forall j :: 0 <= j < m ==> UnitAfter(k, i, unit, [], m)[j] == InitWord(j, thread)
  {
    if m > 0 {
      InitProgress(k, i, thread, unit, m - 1);
    }
  }

  lemma InitWordsPair(unit: seq<bv32>, thread: nat)
    requires |unit| == CHUNK && forall j :: 0 <= j < CHUNK ==> unit[j] == InitWord(j, thread)
    ensures PairsEqual(unit)
  {
    forall i: nat | 2 * i + 1 < CHUNK
      ensures unit[2 * i] == unit[2 * i + 1]
    {
      InitWordsAlternate(2 * i, ThreadBit(thread), !ThreadBit(thread));
    }
  }

  lemma InitUnit(mem: seq<bv32>, mem': seq<bv32>, chunks: nat, threads: nat, i: nat)
    requires threads > 0 && |mem| == chunks * CHUNK && i < chunks
    requires Fits(InitKernel(chunks, threads), |mem|) && IsEffect(InitKernel(chunks, threads), mem, mem')
    ensures UnitPairsEqual(mem', i, 8)
  {
    var k := InitKernel(chunks, threads);
    UnitFits(k, |mem|, i);
    assert UnitDone(k, mem, mem', i, |k.body(i).stores|);
    assert mem[..0] == [];
    InitProgress(k, i, i % threads, Unit(mem, i, CHUNK), CHUNK);
    InitWordsPair(Unit(mem', i, CHUNK), i % threads);
  }

  lemma InitMakesPairs(mem: seq<bv32>, mem': seq<bv32>, chunks: nat, threads: nat)
    requires threads > 0 && |mem| == chunks * CHUNK
    requires Fits(InitKernel(chunks, threads), |mem|) && IsEffect(InitKernel(chunks, threads), mem, mem')
    ensures PairsEqual(mem')
  {
    forall i: nat | i < chunks {
      InitUnit(mem, mem', chunks, threads, i);
    }
    PairsByUnit(mem', chunks, 8);
  }

  lemma InitFits(mem: seq<bv32>, chunks: nat, threads: nat)
    requires threads > 0 && |mem| == chunks * CHUNK
    ensures Fits(InitKernel(chunks, threads), |mem|) <==> |mem| <= INT_RANGE
    ensures Fits(InitKernel(chunks, threads), |mem|) ==> BadUnits(InitKernel(chunks, threads), mem) == {}
  {
    AddressesFitExactly(InitKernel(chunks, threads));
  }

  /** The check reports exactly the unequal pairs. */
  lemma CheckFindsUnequalPairs<W(!new)>(mem: seq<W>, pairs: nat, flip: W -> W)
    requires |mem| == pairs * 2 && Fits(CheckKernel(pairs, flip), |mem|)
    ensures BadUnits(CheckKernel(pairs, flip), mem) == set i: nat | i < pairs && mem[2 * i] != mem[2 * i + 1]
  {
    var k := CheckKernel(pairs, flip);
    forall i: nat | i < pairs
      ensures Bad(k, mem, i) <==> mem[2 * i] != mem[2 * i + 1]
    {
      assert Unit(mem, i, 2) == [mem[2 * i], mem[2 * i + 1]];
    }
  }

  lemma CheckFits<W(!new)>(mem: seq<W>, pairs: nat, flip: W -> W)
    requires |mem| == pairs * 2
    ensures Fits(CheckKernel(pairs, flip), |mem|) <==> |mem| <= INT_RANGE
  {
    AddressesFitExactly(CheckKernel(pairs, flip));
  }

  /** A launch whose kernel finds nothing. */
  method QuietLaunch<W(!new, ==)>(dev: Device<W>, k: Kernel<W>, threads: nat)
    requires dev.Valid() && threads > 0 && IndicesFit(k, threads) && Fits(k, |dev.mem|) && BadUnits(k, dev.mem) == {}
    modifies dev
    ensures dev.Valid() && dev.errorCount == old(dev.errorCount) && |dev.mem| == |old(dev.mem)|
    ensures IsEffect(k, old(dev.mem), dev.mem)
  {
    dev.Launch(k, threads);
  }

  /** Every chunk of sixteen words holds the bit of its thread and the complement of that bit, in turns of two words. */
  ghost predicate Initialised(mem: seq<bv32>, threads: nat)
    requires threads > 0
  {
    forall n: nat :: n < |mem| ==> mem[n] == InitWord(n % 16, n / 16 % threads)
  }

  lemma InitialisedByUnit(mem: seq<bv32>, mem': seq<bv32>, chunks: nat, threads: nat)
    requires threads > 0 && |mem| == chunks * CHUNK
    requires Fits(InitKernel(chunks, threads), |mem|) && IsEffect(InitKernel(chunks, threads), mem, mem')
    ensures Initialised(mem', threads)
  {
    forall n: nat | n < |mem'|
      ensures mem'[n] == InitWord(n % 16, n / 16 % threads)
    {
      InitialisedWord(mem, mem', chunks, threads, n / 16);
      assert mem'[n] == Unit(mem', n / 16, CHUNK)[n % 16];
    }
  }

  lemma InitialisedWord(mem: seq<bv32>, mem': seq<bv32>, chunks: nat, threads: nat, i: nat)
    requires threads > 0 && |mem| == chunks * CHUNK && i < chunks
    requires Fits(InitKernel(chunks, threads), |mem|) && IsEffect(InitKernel(chunks, threads), mem, mem')
    ensures i * CHUNK + CHUNK <= |mem'|
    ensures forall j :: 0 <= j < CHUNK ==> Unit(mem', i, CHUNK)[j] == InitWord(j, i % threads)
  {
    var k := InitKernel(chunks, threads);
    UnitFits(k, |mem|, i);
    assert UnitDone(k, mem, mem', i, |k.body(i).stores|);
    assert mem[..0] == [];
    InitProgress(k, i, i % threads, Unit(mem, i, CHUNK), CHUNK);
  }

  /** The words of a thread: equal in pairs, complementary from pair to pair, beginning with the plain bit. */
  lemma InitWordsAlternate<W>(at: nat, p1: W, p2: W)
    ensures Alternating(0, p1, p2) == p1
    ensures at % 2 == 0 ==> Alternating(at + 1, p1, p2) == Alternating(at, p1, p2)
    ensures Alternating(at + 2, p1, p2) == Alternating(at, p2, p1)
  {
    QuarterTurns(at);
  }

  lemma QuarterTurns(at: nat)
    ensures at % 2 == 0 ==> ((at + 1) % 4 < 2 <==> at % 4 < 2)
    ensures (at + 2) % 4 < 2 <==> at % 4 >= 2
  {
    var q, r := at / 4, at % 4;
    assert at == 4 * q + r;
    if r < 2 {
      DivModUnique(at + 2, q, r + 2, 4);
    } else {
      DivModUnique(at + 2, q + 1, r - 2, 4);
    }
    if r < 3 {
      DivModUnique(at + 1, q, r + 1, 4);
    }
  }

  /** The bits of the threads of a group are the powers of two. */
  lemma BitDoubles(k: nat)
    ensures Bit(0) == 1 && Bit(k + 1) == Bit(k) + Bit(k)
  {
    ShiftDoubles(Bit(k));
  }

  lemma ShiftDoubles(w: bv32)
    ensures w << 1 == w + w
  {
  }

  method InitPairs(dev: Device<bv32>, threads: nat)
    requires dev.Valid() && threads > 0 && |dev.mem| % CHUNK == 0 && |dev.mem| <= INT_RANGE
    requires |dev.mem| / CHUNK + threads <= INT_RANGE
    modifies dev
    ensures dev.Valid() && dev.errorCount == old(dev.errorCount) && |dev.mem| == |old(dev.mem)|
    ensures Initialised(dev.mem, threads) && PairsEqual(dev.mem)
  {
    var chunks := |dev.mem| / CHUNK;
    ghost var before := dev.mem;
    InitFits(before, chunks, threads);
    QuietLaunch(dev, InitKernel(chunks, threads), threads);
    InitMakesPairs(before, dev.mem, chunks, threads);
    InitialisedByUnit(before, dev.mem, chunks, threads);
  }

  method MoveBlocks(dev: Device<bv32>, blocks: nat, threads: nat)
    requires dev.Valid() && threads > 0 && |dev.mem| == blocks * (2 * HALF)
    requires blocks <= 2048 && blocks + threads <= INT_RANGE
    modifies dev
    ensures dev.Valid() && dev.errorCount == old(dev.errorCount) && BlocksRotated(old(dev.mem), dev.mem, blocks)
    ensures PairsEqual(old(dev.mem)) ==> PairsEqual(dev.mem)
  {
    ghost var before := dev.mem;
    BlockAddressesFit(before, blocks);
    MoveFits(before, blocks, HALF, Flip32, 0);
    QuietLaunch(dev, MoveKernel(blocks, HALF, Flip32, 0), threads);
    BlocksAreRotated(before, dev.mem, blocks, Flip32, 0);
    if PairsEqual(before) {
      MoveKeepsPairs(before, dev.mem, blocks, HALF, Flip32, 0);
    }
  }

  ghost function UnequalPairs<W(!new)>(mem: seq<W>): set<nat> {
    set i: nat | i < |mem| / 2 && mem[2 * i] != mem[2 * i + 1]
  }

  lemma EqualPairs<W(!new)>(mem: seq<W>)
    requires PairsEqual(mem)
    ensures UnequalPairs(mem) == {}
  {
  }

  method CheckPairs(dev: Device<bv32>, threads: nat)
    requires dev.Valid() && threads > 0 && |dev.mem| % 2 == 0 && |dev.mem| <= INT_RANGE
    requires |dev.mem| / 2 + threads <= INT_RANGE
    modifies dev
    ensures dev.Valid() && dev.mem == old(dev.mem)
    ensures dev.errorCount == Raised(old(dev.errorCount), |UnequalPairs(dev.mem)|)
  {
    var pairs := |dev.mem| / 2;
    ghost var mem := dev.mem;
    CheckFits(mem, pairs, Flip32);
    dev.Launch(CheckKernel(pairs, Flip32), threads);
    CheckFindsUnequalPairs(mem, pairs, Flip32);
    assert BadUnits(CheckKernel(pairs, Flip32), mem) == UnequalPairs(mem);
    CheckLeavesMemory(mem, dev.mem, pairs, Flip32);
    RaisedIsSum(old(dev.errorCount), |UnequalPairs(mem)|);
  }

  lemma CheckLeavesMemory<W(!new)>(mem: seq<W>, mem': seq<W>, pairs: nat, flip: W -> W)
    requires |mem| == pairs * 2 && Fits(CheckKernel(pairs, flip), |mem|)
    requires IsEffect(CheckKernel(pairs, flip), mem, mem')
    ensures mem' == mem
  {
    forall n: nat | n < |mem|
      ensures mem'[n] == mem[n]
    {
      assert UnitDone(CheckKernel(pairs, flip), mem, mem', n / 2, 0);
      assert mem'[n] == Unit(mem', n / 2, 2)[n % 2] && mem[n] == Unit(mem, n / 2, 2)[n % 2];
    }
  }

  /** test5 on a memory of whole blocks, up to the size at which its address arithmetic overflows. Whatever words change
      after the first and after the second launch, the count rises by exactly the number of pairs that differ at the
      end. */
  method BlockMoveTest(dev: Device<bv32>, blocks: nat, threads: nat, first: Fault<bv32>, second: Fault<bv32>)
    returns (ghost initialised: seq<bv32>, ghost moved: seq<bv32>)
    requires dev.Valid() && threads > 0 && |dev.mem| == blocks * (2 * HALF)
    requires blocks <= 2048 && |dev.mem| / 2 + threads <= INT_RANGE
    modifies dev
    ensures dev.Valid() && |initialised| == |dev.mem| == |old(dev.mem)| && Initialised(initialised, threads)
    ensures BlocksRotated(Altered(initialised, first), moved, blocks) && dev.mem == Altered(moved, second)
    ensures dev.errorCount == Raised(old(dev.errorCount), |UnequalPairs(dev.mem)|)
    ensures first == second == map[] ==> dev.errorCount == old(dev.errorCount)
  {
    initialised := InitThenMove(dev, blocks, threads, first);
    moved := dev.mem;
    Strike(dev, second);
    if first == second == map[] {
      assert dev.mem == moved;
      EqualPairs(dev.mem);
    }
    CheckPairs(dev, threads);
  }

  method InitThenMove(dev: Device<bv32>, blocks: nat, threads: nat, fault: Fault<bv32>)
    returns (ghost initialised: seq<bv32>)
    requires dev.Valid() && threads > 0 && |dev.mem| == blocks * (2 * HALF)
    requires blocks <= 2048 && |dev.mem| / 2 + threads <= INT_RANGE
    modifies dev
    ensures dev.Valid() && dev.errorCount == old(dev.errorCount) && |initialised| == |dev.mem| == |old(dev.mem)|
    ensures Initialised(initialised, threads) && BlocksRotated(Altered(initialised, fault), dev.mem, blocks)
    ensures fault == map[] ==> PairsEqual(dev.mem)
  {
    InitPairs(dev, threads);
    initialised := dev.mem;
    Strike(dev, fault);
    assert fault == map[] ==> dev.mem == initialised;
    MoveBlocks(dev, blocks, threads);
  }
}
