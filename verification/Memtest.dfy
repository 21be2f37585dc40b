/** The kernels of the memory test and the kernel sequences of its tests: on fault-free memory none of them raises
    the error count. */
module Memtest {
  import opened Arith
  import opened GridStride

  // ----- kernels on single words; `n` is the number of words of the buffer

  function NoCheck<W>(w: W, stores: seq<Store<W>>): Body<W> {
    Body(false, 0, Literal(w), stores)
  }

  /** kernel_write */
  function WriteKernel<W(!new)>(n: nat, flip: W -> W, p1: W): Kernel<W> {
    Kernel(n, 1, 0, 1, 1, 0, flip, (i: nat) => NoCheck(p1, [Put(0, Literal(p1))]))
  }

  /** kernel_readwrite */
  function ReadWriteKernel<W(!new)>(n: nat, flip: W -> W, p1: W, p2: W): Kernel<W> {
    Kernel(n, 1, 0, 1, 1, 0, flip, (i: nat) => Body(true, 0, Literal(p1), [Put(0, Literal(p2))]))
  }

  /** kernel_read */
  function ReadKernel<W(!new)>(n: nat, flip: W -> W, p1: W): (k: Kernel<W>)
    ensures Fits(k, n) <==> n <= INT_RANGE
  {
    var k := Kernel(n, 1, 0, 0, 1, 0, flip, (i: nat) => Body(true, 0, Literal(p1), []));
    AddressesFitExactly(k);
    k
  }

  const MOD_SZ := 20

  /** `(i + MOD_SZ - offset) % MOD_SZ == 0`: the sum in `int`, the difference in unsigned arithmetic. */
  predicate Selected(i: nat, offset: nat) {
    U32(i + MOD_SZ - offset) % MOD_SZ == 0
  }

  /** kernel_modtest_write and kernel_modtest_read */
  function ModWriteKernel<W(!new)>(n: nat, flip: W -> W, offset: nat, p1: W, p2: W): Kernel<W> {
    Kernel(n, 1, 0, 1, 1, MOD_SZ, flip,
           (i: nat) => NoCheck(p1, [Put(0, Literal(if Selected(i, offset) then p1 else p2))]))
  }

  function ModReadKernel<W(!new)>(n: nat, flip: W -> W, offset: nat, p1: W, p2: W): Kernel<W> {
    Kernel(n, 1, 0, 0, 1, MOD_SZ, flip,
           (i: nat) => Body(true, 0, Literal(if Selected(i, offset) then p1 else p2), []))
  }

  /** kernel7_write, kernel7_readwrite and kernel7_read; the first `block` words are only read. */
  function BlockWriteKernel<W(!new)>(n: nat, block: nat, flip: W -> W, filler: W): Kernel<W>
    requires block > 0
  {
    Kernel(n, 1, block, 1, 1, 0, flip,
           (i: nat) => NoCheck(filler, if i < block then [] else [Put(0, Shared(i % block))]))
  }

  function BlockReadWriteKernel<W(!new)>(n: nat, block: nat, flip: W -> W, filler: W): Kernel<W>
    requires block > 0
  {
    Kernel(n, 1, block, 1, 1, 0, flip,
           (i: nat) => if i < block then NoCheck(filler, [])
                       else Body(true, 0, Shared(i % block), [Put(0, FlippedShared(i % block))]))
  }

  function BlockReadKernel<W(!new)>(n: nat, block: nat, flip: W -> W, filler: W): Kernel<W>
    requires block > 0
  {
    Kernel(n, 1, block, 0, 1, 0, flip,
           (i: nat) => if i < block then NoCheck(filler, []) else Body(true, 0, FlippedShared(i % block), []))
  }

  /** The pattern loop of the movinv32 kernels; as in the source, `k` is compared but never raised. */
  function PatternAfter(pat: bv32, lb: bv32, sval: bv32, k: nat, rounds: nat): bv32
    decreases rounds
  {
    if rounds == 0 then pat
    else if k >= 32 then PatternAfter(lb, lb, sval, 0, rounds - 1)
    else PatternAfter((pat << 1) | sval, lb, sval, k, rounds - 1)
  }

  datatype Pattern = Pattern(pattern: bv32, lb: bv32, sval: bv32, offset: nat) {
    /** What the thread that owns word `i` writes. */
    function At(i: nat, threads: nat): bv32
      requires threads > 0
    {
      PatternAfter(pattern, lb, sval, offset, i % threads % 32)
    }
  }

  function Flip32(w: bv32): bv32 { !w }
  function Flip64(w: bv64): bv64 { !w }

  function MovInv32Write(n: nat, threads: nat, p: Pattern): Kernel<bv32>
    requires threads > 0
  {
    Kernel(n, 1, 0, 1, 1, 0, Flip32, (i: nat) => NoCheck(p.lb, [Put(0, Literal(p.At(i, threads)))]))
  }

  function MovInv32ReadWrite(n: nat, threads: nat, p: Pattern): Kernel<bv32>
    requires threads > 0
  {
    Kernel(n, 1, 0, 1, 1, 0, Flip32,
           (i: nat) => Body(true, 0, Literal(p.At(i, threads)), [Put(0, Literal(!p.At(i, threads)))]))
  }

  function MovInv32Read(n: nat, threads: nat, p: Pattern): Kernel<bv32>
    requires threads > 0
  {
    Kernel(n, 1, 0, 0, 1, 0, Flip32, (i: nat) => Body(true, 0, Literal(!p.At(i, threads)), []))
  }

  // ----- what a launch does to single words

  function Constant<W(!new)>(w: W): nat -> W {
    (i: nat) => w
  }

  /** A kernel that gives every word `i` the value `to(i)`, after checking it against `from(i)` if `checks`. */
  ghost predicate Rewrites<W(!new)>(k: Kernel<W>, mem: seq<W>, checks: bool, from: nat -> W, writes: bool,
                                    to: nat -> W)
  {
    && k.units == |mem| && k.width == 1 && k.prefix <= |mem| && k.factor == 1 && |mem| + k.bias <= INT_RANGE
    && forall i: nat :: i < |mem| ==> RewritesAt(k, mem, i, checks, from, writes, to)
  }

  ghost predicate RewritesAt<W(!new)>(k: Kernel<W>, mem: seq<W>, i: nat, checks: bool, from: nat -> W, writes: bool,
                                      to: nat -> W)
    requires k.width == 1 && k.prefix <= |mem| && i < |mem|
  {
    var b := k.body(i);
    && BodyFits(k, i) && b.checks == (checks && k.prefix <= i)
    && (b.checks ==> Eval(k, b.expected, [mem[i]], mem[..k.prefix]) == from(i))
    && |b.stores| == (if writes && k.prefix <= i then 1 else 0)
    && (b.stores != [] ==> b.stores[0].at == 0 && Eval(k, b.stores[0].value, [mem[i]], mem[..k.prefix]) == to(i))
  }

  ghost predicate Holds<W>(mem: seq<W>, start: nat, value: nat -> W) {
    forall i: nat :: start <= i < |mem| ==> mem[i] == value(i)
  }

  lemma RewritesFits<W(!new)>(k: Kernel<W>, mem: seq<W>, checks: bool, from: nat -> W, writes: bool, to: nat -> W)
    requires Rewrites(k, mem, checks, from, writes, to)
    ensures Fits(k, |mem|)
  {
    AddressesFitExactly(k);
    forall i: nat | i < k.units
      ensures BodyFits(k, i)
    {
      assert RewritesAt(k, mem, i, checks, from, writes, to);
    }
  }

  /** The bad units are exactly the mismatching words, and every written word gets its new value. */
  lemma RewriteOutcome<W(!new)>(k: Kernel<W>, mem: seq<W>, mem': seq<W>, checks: bool, from: nat -> W, writes: bool,
                                to: nat -> W)
    requires Rewrites(k, mem, checks, from, writes, to) && Fits(k, |mem|) && IsEffect(k, mem, mem')
    ensures BadUnits(k, mem) == set i: nat | k.prefix <= i < |mem| && checks && mem[i] != from(i)
    ensures writes ==> Holds(mem', k.prefix, to)
    ensures mem'[..k.prefix] == mem[..k.prefix]
    ensures !writes ==> mem' == mem
  {
    forall i: nat | i < |mem|
      ensures Bad(k, mem, i) <==> k.prefix <= i && checks && mem[i] != from(i)
      ensures mem'[i] == if writes && k.prefix <= i then to(i) else mem[i]
    {
      assert RewritesAt(k, mem, i, checks, from, writes, to);
      UnitFits(k, |mem|, i);
      assert Unit(mem, i, 1) == [mem[i]];
      assert UnitDone(k, mem, mem', i, |k.body(i).stores|);
      assert mem'[i] == Unit(mem', i, 1)[0];
      assert UnitAfter(k, i, [mem[i]], mem[..k.prefix], 0) == [mem[i]];
    }
  }

  /** A launch counts exactly the words that are not what is expected, and puts the new values in place. */
  method CheckedLaunch<W(!new, ==)>(dev: Device<W>, k: Kernel<W>, threads: nat,
                                    ghost checks: bool, ghost from: nat -> W, ghost writes: bool, ghost to: nat -> W)
    requires dev.Valid() && threads > 0 && IndicesFit(k, threads) && Rewrites(k, dev.mem, checks, from, writes, to)
    modifies dev
    ensures dev.Valid() && |dev.mem| == |old(dev.mem)|
    ensures checks ==> dev.errorCount == Raised(old(dev.errorCount), |Unexpected(old(dev.mem), k.prefix, from)|)
    ensures !checks ==> dev.errorCount == old(dev.errorCount)
    ensures writes ==> Holds(dev.mem, k.prefix, to)
    ensures dev.mem[..k.prefix] == old(dev.mem)[..k.prefix]
    ensures !writes ==> dev.mem == old(dev.mem)
  {
    RewritesFits(k, dev.mem, checks, from, writes, to);
    ghost var mem := dev.mem;
    dev.Launch(k, threads);
    RewriteOutcome(k, mem, dev.mem, checks, from, writes, to);
    assert checks ==> BadUnits(k, mem) == Unexpected(mem, k.prefix, from);
    assert !checks ==> BadUnits(k, mem) == {};
    RaisedIsSum(old(dev.errorCount), |BadUnits(k, mem)|);
  }

  ghost function Unexpected<W(!new)>(mem: seq<W>, start: nat, value: nat -> W): set<nat> {
    set i: nat | start <= i < |mem| && mem[i] != value(i)
  }

  /** The 32-bit error counter after `n` more errors. */
  function Raised(errors: nat, n: nat): nat {
    if n == 0 then errors
    else
      var e := Raised(errors, n - 1);
      if e == 0xFFFF_FFFF then 0 else e + 1
  }

  lemma {:induction false} RaisedIsSum(errors: nat, n: nat)
    requires errors < U32_RANGE
    ensures Raised(errors, n) == U32(errors + n)
  {
    if n == 0 {
      U32Exact(errors);
    } else {
      RaisedIsSum(errors, n - 1);
      ModOfSum(errors + n - 1, 1, U32_RANGE);
    }
  }

  lemma {:induction false} RaisedTwice(errors: nat, a: nat, b: nat)
    ensures Raised(Raised(errors, a), b) == Raised(errors, a + b)
  {
    if b > 0 {
      RaisedTwice(errors, a, b - 1);
    }
  }

  // ----- faults: words that change between two launches

  type Fault<W> = map<nat, W>

  function Altered<W>(mem: seq<W>, fault: Fault<W>): (r: seq<W>)
    ensures |r| == |mem|
    ensures forall i: nat :: i < |mem| ==> r[i] == if i in fault then fault[i] else mem[i]
  {
    seq(|mem|, i requires 0 <= i < |mem| => if i in fault then fault[i] else mem[i])
  }

  /** The words that a fault changes from `value` to something else. */
  ghost function Damage<W(!new)>(n: nat, fault: Fault<W>, value: nat -> W): set<nat> {
    set i: nat | i < n && i in fault && fault[i] != value(i)
  }

  method Strike<W>(dev: Device<W>, fault: Fault<W>)
    requires dev.Valid()
    modifies dev`mem
    ensures dev.Valid() && dev.mem == Altered(old(dev.mem), fault)
  {
    dev.mem := Altered(dev.mem, fault);
  }

  lemma DamageIsUnexpected<W(!new)>(mem: seq<W>, fault: Fault<W>, value: nat -> W)
    requires Holds(mem, 0, value)
    ensures Unexpected(Altered(mem, fault), 0, value) == Damage(|mem|, fault, value)
  {
  }

  lemma NoDamage<W(!new)>(n: nat, value: nat -> W)
    ensures Damage(n, map[], value) == {}
  {
  }

  /** Words change, then a launch checks them. */
  method StrikeAndCheck<W(!new, ==)>(dev: Device<W>, fault: Fault<W>, k: Kernel<W>, threads: nat,
                                     ghost from: nat -> W, ghost writes: bool, ghost to: nat -> W)
    requires dev.Valid() && threads > 0 && IndicesFit(k, threads) && k.prefix == 0 && Holds(dev.mem, 0, from)
    requires Rewrites(k, Altered(dev.mem, fault), true, from, writes, to)
    modifies dev
    ensures dev.Valid() && |dev.mem| == |old(dev.mem)|
    ensures dev.errorCount == Raised(old(dev.errorCount), |Damage(|dev.mem|, fault, from)|)
    ensures writes ==> Holds(dev.mem, 0, to)
    ensures !writes ==> dev.mem == Altered(old(dev.mem), fault)
  {
    DamageIsUnexpected(dev.mem, fault, from);
    Strike(dev, fault);
    CheckedLaunch(dev, k, threads, true, from, writes, to);
  }

  // ----- kernel_read in every interleaving

  ghost function Mismatches<W(!new)>(mem: seq<W>, p1: W): set<nat> {
    set i: nat | i < |mem| && mem[i] != p1
  }

  /** The ring starts with one entry per mismatching cell: its address, the pattern, and the word read twice. */
  ghost predicate ReportsMismatches<W(!new)>(mem: seq<W>, p1: W, ring: seq<Entry<W>>, order: seq<nat>) {
    && |order| <= |ring| && NoDuplicates(order)
    && (forall i :: i in order <==> i in Mismatches(mem, p1))
    && forall p :: 0 <= p < |order| ==> order[p] < |mem| && ring[p] == Entry(order[p], p1, mem[order[p]], mem[order[p]])
  }

  lemma ReadRewrites<W(!new)>(mem: seq<W>, flip: W -> W, p1: W)
    requires |mem| <= INT_RANGE
    ensures Rewrites(ReadKernel(|mem|, flip, p1), mem, true, Constant(p1), false, Constant(p1))
  {
  }

  /** `kernel_read` leaves the memory alone, adds exactly the number of mismatching cells to the counter, and with a
      cleared counter and at most ten mismatches reports each of them exactly once. */
  lemma ReadInEveryInterleaving<W(!new)>(mem: seq<W>, flip: W -> W, p1: W, errors: nat, ring: seq<Entry<W>>,
                                         threads: nat, schedule: seq<nat>)
    requires errors < U32_RANGE && |ring| == RING && threads > 0 && |mem| + threads <= INT_RANGE
    requires forall j :: 0 <= j < |schedule| ==> schedule[j] < threads
    requires var k := ReadKernel(|mem|, flip, p1);
             Finished(k, Run(k, mem, errors, ring, threads, schedule))
    ensures var s := Run(ReadKernel(|mem|, flip, p1), mem, errors, ring, threads, schedule);
            && s.buf == mem
            && s.errors == U32(errors + |Mismatches(mem, p1)|)
            && (errors == 0 && |Mismatches(mem, p1)| <= 10 ==>
                  exists order :: ReportsMismatches(mem, p1, s.ring, order))
  {
    var k := ReadKernel(|mem|, flip, p1);
    EveryInterleaving(k, mem, errors, ring, threads, schedule);
    var s := Run(k, mem, errors, ring, threads, schedule);
    ReadOutcome(mem, flip, p1, errors, s.buf, s.errors, s.ring);
  }

  lemma ReadOutcome<W(!new)>(mem: seq<W>, flip: W -> W, p1: W, errors: nat, mem': seq<W>, errors': nat,
                             ring: seq<Entry<W>>)
    requires Fits(ReadKernel(|mem|, flip, p1), |mem|)
    requires Outcome(ReadKernel(|mem|, flip, p1), mem, errors, mem', errors', ring)
    ensures mem' == mem && errors' == U32(errors + |Mismatches(mem, p1)|)
    ensures errors == 0 && |Mismatches(mem, p1)| <= RING ==> exists order :: ReportsMismatches(mem, p1, ring, order)
  {
    var k := ReadKernel(|mem|, flip, p1);
    ReadRewrites(mem, flip, p1);
    RewriteOutcome(k, mem, mem', true, Constant(p1), false, Constant(p1));
    assert BadUnits(k, mem) == Mismatches(mem, p1);
    if errors == 0 && |Mismatches(mem, p1)| <= RING {
      var order :| ReportsInOrder(k, mem, ring, order);
      forall p | 0 <= p < |order|
        ensures order[p] < |mem| && ring[p] == Entry(order[p], p1, mem[order[p]], mem[order[p]])
      {
        ReadReport(mem, flip, p1, order[p]);
      }
      assert ReportsMismatches(mem, p1, ring, order);
    }
  }

  lemma ReadReport<W(!new)>(mem: seq<W>, flip: W -> W, p1: W, i: nat)
    requires Fits(ReadKernel(|mem|, flip, p1), |mem|) && i < |mem|
    ensures Report(ReadKernel(|mem|, flip, p1), mem, i) == Entry(i, p1, mem[i], mem[i])
  {
    assert Unit(mem, i, 1) == [mem[i]];
  }

  // ----- the tests

  /** The three launches of a moving inversion: write one value, replace it by another, read that. Whatever words change
      after the first and after the second launch, each of them is counted once, and no other. */
  method Inversion<W(!new, ==)>(dev: Device<W>, write: Kernel<W>, change: Kernel<W>, read: Kernel<W>, threads: nat,
                                ghost one: nat -> W, ghost two: nat -> W, first: Fault<W>, second: Fault<W>)
    requires dev.Valid() && threads > 0
    requires IndicesFit(write, threads) && IndicesFit(change, threads) && IndicesFit(read, threads)
    requires write.prefix == change.prefix == read.prefix == 0
    requires forall mem: seq<W> :: |mem| == |dev.mem| ==> Rewrites(write, mem, false, one, true, one)
    requires forall mem: seq<W> :: |mem| == |dev.mem| ==> Rewrites(change, mem, true, one, true, two)
    requires forall mem: seq<W> :: |mem| == |dev.mem| ==> Rewrites(read, mem, true, two, false, two)
    modifies dev
    ensures dev.Valid() && |dev.mem| == |old(dev.mem)|
    ensures dev.errorCount
         == Raised(old(dev.errorCount), (|Damage(|dev.mem|, first, one)| + |Damage(|dev.mem|, second, two)|))
    ensures forall i: nat :: i < |dev.mem| ==> dev.mem[i] == if i in second then second[i] else two(i)
    ensures first == second == map[] ==> dev.errorCount == old(dev.errorCount)
  {
    ghost var n := |dev.mem|;
    CheckedLaunch(dev, write, threads, false, one, true, one);
    StrikeAndCheck(dev, first, change, threads, one, true, two);
    StrikeAndCheck(dev, second, read, threads, two, false, two);
    RaisedTwice(old(dev.errorCount), |Damage(n, first, one)|, |Damage(n, second, two)|);
    NoDamage(n, one);
    NoDamage(n, two);
  }

  lemma ConstantRewrites<W(!new)>(mem: seq<W>, flip: W -> W, p1: W, p2: W)
    requires |mem| <= INT_RANGE
    ensures Rewrites(WriteKernel(|mem|, flip, p1), mem, false, Constant(p1), true, Constant(p1))
    ensures Rewrites(ReadWriteKernel(|mem|, flip, p1, p2), mem, true, Constant(p1), true, Constant(p2))
    ensures Rewrites(ReadKernel(|mem|, flip, p2), mem, true, Constant(p2), false, Constant(p2))
  {
  }

  /** move_inv_test: the pattern, then its complement. */
  method MoveInvTest(dev: Device<bv64>, pattern: bv64, threads: nat, first: Fault<bv64>, second: Fault<bv64>)
    requires dev.Valid() && threads > 0 && |dev.mem| + threads <= INT_RANGE
    modifies dev
    ensures dev.Valid() && |dev.mem| == |old(dev.mem)|
    ensures dev.errorCount == Raised(old(dev.errorCount), (|Damage(|dev.mem|, first, Constant(pattern))|
                                                         + |Damage(|dev.mem|, second, Constant(!pattern))|))
    ensures forall i: nat :: i < |dev.mem| ==> dev.mem[i] == if i in second then second[i] else !pattern
    ensures first == second == map[] ==> dev.errorCount == old(dev.errorCount)
  {
    var n, p1, p2 := |dev.mem|, pattern, !pattern;
    forall mem: seq<bv64> | |mem| == n {
      ConstantRewrites(mem, Flip64, p1, p2);
    }
    Inversion(dev, WriteKernel(n, Flip64, p1), ReadWriteKernel(n, Flip64, p1, p2), ReadKernel(n, Flip64, p2), threads,
              Constant(p1), Constant(p2), first, second);
  }

  /** A value after `k` complements. */
  function Turned<W>(flip: W -> W, value: W, k: nat): W {
    if k == 0 then value else flip(Turned(flip, value, k - 1))
  }

  lemma {:induction false} TurnedTwice<W(!new)>(flip: W -> W, value: W, k: nat)
    requires forall w :: flip(flip(w)) == w
    ensures Turned(flip, value, k) == if k % 2 == 0 then value else flip(value)
  {
    if k > 0 {
      TurnedTwice(flip, value, k - 1);
    }
  }

  lemma ComplementTwice()
    ensures forall w :: Flip64(Flip64(w)) == w
  {
  }

  /** The faults that the first `checks` reads of test10 find; `faults(k)` strike before read `k`. */
  ghost function TotalDamage<W(!new)>(n: nat, flip: W -> W, value: W, faults: nat -> Fault<W>, checks: nat): nat {
    if checks == 0 then 0
    else
      var k := checks - 1;
      TotalDamage(n, flip, value, faults, k) + |Damage(n, faults(k), Constant(Turned(flip, value, k)))|
  }

  lemma {:induction false} NoTotalDamage<W(!new)>(n: nat, flip: W -> W, value: W, faults: nat -> Fault<W>, checks: nat)
    requires forall k: nat :: k < checks ==> faults(k) == map[]
    ensures TotalDamage(n, flip, value, faults, checks) == 0
  {
    if checks > 0 {
      NoTotalDamage(n, flip, value, faults, checks - 1);
      NoDamage(n, Constant(Turned(flip, value, checks - 1)));
    }
  }

  method ReplaceConstant<W(!new, ==)>(dev: Device<W>, fault: Fault<W>, flip: W -> W, p1: W, p2: W, threads: nat)
    requires dev.Valid() && threads > 0 && |dev.mem| + threads <= INT_RANGE && Holds(dev.mem, 0, Constant(p1))
    modifies dev
    ensures dev.Valid() && |dev.mem| == |old(dev.mem)| && Holds(dev.mem, 0, Constant(p2))
    ensures dev.errorCount == Raised(old(dev.errorCount), |Damage(|dev.mem|, fault, Constant(p1))|)
  {
    ConstantRewrites(Altered(dev.mem, fault), flip, p1, p2);
    StrikeAndCheck(dev, fault, ReadWriteKernel(|dev.mem|, flip, p1, p2), threads, Constant(p1), true, Constant(p2));
  }

  method ReadConstant<W(!new, ==)>(dev: Device<W>, fault: Fault<W>, flip: W -> W, p1: W, threads: nat)
    requires dev.Valid() && threads > 0 && |dev.mem| + threads <= INT_RANGE && Holds(dev.mem, 0, Constant(p1))
    modifies dev
    ensures dev.Valid() && dev.mem == Altered(old(dev.mem), fault)
    ensures dev.errorCount == Raised(old(dev.errorCount), |Damage(|dev.mem|, fault, Constant(p1))|)
  {
    ConstantRewrites(Altered(dev.mem, fault), flip, p1, p1);
    StrikeAndCheck(dev, fault, ReadKernel(|dev.mem|, flip, p1), threads, Constant(p1), false, Constant(p1));
  }

  method WriteConstant<W(!new, ==)>(dev: Device<W>, flip: W -> W, p1: W, threads: nat)
    requires dev.Valid() && threads > 0 && |dev.mem| + threads <= INT_RANGE
    modifies dev
    ensures dev.Valid() && |dev.mem| == |old(dev.mem)| && Holds(dev.mem, 0, Constant(p1))
    ensures dev.errorCount == old(dev.errorCount)
  {
    ConstantRewrites(dev.mem, flip, p1, p1);
    CheckedLaunch(dev, WriteKernel(|dev.mem|, flip, p1), threads, false, Constant(p1), true, Constant(p1));
  }

  lemma OneMoreCheck<W(!new)>(errors: nat, n: nat, flip: W -> W, value: W, faults: nat -> Fault<W>, i: nat)
    ensures Raised(Raised(errors, TotalDamage(n, flip, value, faults, i)),
                   |Damage(n, faults(i), Constant(Turned(flip, value, i)))|)
         == Raised(errors, TotalDamage(n, flip, value, faults, i + 1))
  {
    RaisedTwice(errors, TotalDamage(n, flip, value, faults, i),
                |Damage(n, faults(i), Constant(Turned(flip, value, i)))|);
  }

  method InversionRounds<W(!new, ==)>(dev: Device<W>, value: W, flip: W -> W, iterations: nat, threads: nat,
                                      faults: nat -> Fault<W>) returns (p1: W)
    requires dev.Valid() && threads > 0 && |dev.mem| + threads <= INT_RANGE && Holds(dev.mem, 0, Constant(value))
    modifies dev
    ensures dev.Valid() && |dev.mem| == |old(dev.mem)| && p1 == Turned(flip, value, iterations)
    ensures dev.errorCount == Raised(old(dev.errorCount), TotalDamage(|dev.mem|, flip, value, faults, iterations))
    ensures Holds(dev.mem, 0, Constant(p1))
  {
    var i := 0;
    p1 := value;
    var p2 := flip(value);
    while i < iterations
      invariant 0 <= i <= iterations && dev.Valid() && |dev.mem| == |old(dev.mem)|
      invariant dev.errorCount == Raised(old(dev.errorCount), TotalDamage(|dev.mem|, flip, value, faults, i))
      invariant p1 == Turned(flip, value, i) && p2 == flip(p1) && Holds(dev.mem, 0, Constant(p1))
    {
      ReplaceConstant(dev, faults(i), flip, p1, p2, threads);
      OneMoreCheck(old(dev.errorCount), |dev.mem|, flip, value, faults, i);
      p1 := p2;
      p2 := flip(p1);
      i := i + 1;
    }
  }

  method Inversions<W(!new, ==)>(dev: Device<W>, value: W, flip: W -> W, iterations: nat, threads: nat,
                                 faults: nat -> Fault<W>)
    requires dev.Valid() && threads > 0 && |dev.mem| + threads <= INT_RANGE
    modifies dev
    ensures dev.Valid() && |dev.mem| == |old(dev.mem)|
    ensures dev.errorCount
         == Raised(old(dev.errorCount), TotalDamage(|dev.mem|, flip, value, faults, iterations + 1))
    ensures forall i: nat :: i < |dev.mem| ==>
              dev.mem[i] == if i in faults(iterations) then faults(iterations)[i] else Turned(flip, value, iterations)
  {
    WriteConstant(dev, flip, value, threads);
    var p1 := InversionRounds(dev, value, flip, iterations, threads, faults);
    ReadConstant(dev, faults(iterations), flip, p1, threads);
    OneMoreCheck(old(dev.errorCount), |dev.mem|, flip, value, faults, iterations);
  }

  /** test10: any number of read-and-complement rounds between the first write and the last read. Every word that
      changes between two launches is counted once. */
  method StressTest(dev: Device<bv64>, pattern: bv64, iterations: nat, threads: nat, faults: nat -> Fault<bv64>)
    requires dev.Valid() && threads > 0 && |dev.mem| + threads <= INT_RANGE
    modifies dev
    ensures dev.Valid() && |dev.mem| == |old(dev.mem)|
    ensures dev.errorCount
         == Raised(old(dev.errorCount), TotalDamage(|dev.mem|, Flip64, pattern, faults, iterations + 1))
    ensures forall i: nat :: i < |dev.mem| && i !in faults(iterations) ==>
              dev.mem[i] == if iterations % 2 == 0 then pattern else !pattern
    ensures (forall k: nat :: k <= iterations ==> faults(k) == map[]) ==> dev.errorCount == old(dev.errorCount)
  {
    Inversions(dev, pattern, Flip64, iterations, threads, faults);
    ComplementTwice();
    TurnedTwice(Flip64, pattern, iterations);
    if forall k: nat :: k <= iterations ==> faults(k) == map[] {
      NoTotalDamage(|dev.mem|, Flip64, pattern, faults, iterations + 1);
    }
  }

  function ModValue(offset: nat, p1: bv64, p2: bv64): nat -> bv64 {
    (i: nat) => if Selected(i, offset) then p1 else p2
  }

  lemma ModRewrites(mem: seq<bv64>, offset: nat, p1: bv64, p2: bv64)
    requires |mem| + MOD_SZ <= INT_RANGE
    ensures var value := ModValue(offset, p1, p2);
            && Rewrites(ModWriteKernel(|mem|, Flip64, offset, p1, p2), mem, false, value, true, value)
            && Rewrites(ModReadKernel(|mem|, Flip64, offset, p1, p2), mem, true, value, false, value)
  {
    var value := ModValue(offset, p1, p2);
    var write, read := ModWriteKernel(|mem|, Flip64, offset, p1, p2), ModReadKernel(|mem|, Flip64, offset, p1, p2);
    forall i: nat | i < |mem|
      ensures RewritesAt(write, mem, i, false, value, true, value)
      ensures RewritesAt(read, mem, i, true, value, false, value)
    {
      assert write.body(i) == NoCheck(p1, [Put(0, Literal(value(i)))]);
      assert read.body(i) == Body(true, 0, Literal(value(i)), []);
    }
  }

  /** Which words are selected: every twentieth, counted from the offset; where the offset exceeds the index by more
      than twenty, the unsigned difference wraps and the places are shifted by four. */
  lemma SelectedExactly(i: nat, offset: nat)
    requires i + 20 < INT_RANGE && offset < U32_RANGE
    ensures Selected(i, offset) <==> (i - offset + if offset <= i + 20 then 0 else 16) % 20 == 0
  {
    if offset <= i + 20 {
      U32Exact(i + 20 - offset);
    } else {
      DivModUnique(i + 20 - offset, -1, i + 20 - offset + U32_RANGE, U32_RANGE);
    }
  }

  /** modtest: one word in twenty gets the pattern, all others the complement; every word that changes is counted. */
  method ModTest(dev: Device<bv64>, offset: nat, p1: bv64, p2: bv64, threads: nat, fault: Fault<bv64>)
    requires dev.Valid() && threads > 0 && |dev.mem| + threads <= INT_RANGE && |dev.mem| + MOD_SZ <= INT_RANGE
    modifies dev
    ensures dev.Valid() && |dev.mem| == |old(dev.mem)|
    ensures dev.errorCount == Raised(old(dev.errorCount), |Damage(|dev.mem|, fault, ModValue(offset, p1, p2))|)
    ensures offset < 20 ==>
              forall i: nat :: i < |dev.mem| ==>
                dev.mem[i] == if i in fault then fault[i] else if i % 20 == offset then p1 else p2
    ensures fault == map[] ==> dev.errorCount == old(dev.errorCount)
  {
    var n := |dev.mem|;
    ghost var value := ModValue(offset, p1, p2);
    ModRewrites(dev.mem, offset, p1, p2);
    CheckedLaunch(dev, ModWriteKernel(n, Flip64, offset, p1, p2), threads, false, value, true, value);
    ModRewrites(Altered(dev.mem, fault), offset, p1, p2);
    StrikeAndCheck(dev, fault, ModReadKernel(n, Flip64, offset, p1, p2), threads, value, false, value);
    NoDamage(n, value);
    if offset < 20 {
      forall i: nat | i < n
        ensures value(i) == if i % 20 == offset then p1 else p2
      {
        SelectedSmall(i, offset);
      }
    }
  }

  lemma SelectedSmall(i: nat, offset: nat)
    requires i + 20 < INT_RANGE && offset < 20
    ensures Selected(i, offset) <==> i % 20 == offset
  {
    SelectedExactly(i, offset);
  }

  /** What the pattern is for: in a group of 32 threads every thread's word is its left neighbour's, shifted by one
      place and filled with the low bit; an offset of 32 starts the second thread from the lower bound. */
  lemma NextThreadShifts(p: Pattern, i: nat, threads: nat)
    requires threads > 0 && i % threads + 1 < threads && i % threads % 32 < 31
    ensures p.offset < 32 || i % threads % 32 > 0 ==> p.At(i + 1, threads) == NextWord(p.At(i, threads), p.sval)
    ensures p.offset >= 32 && i % threads % 32 == 0 ==> p.At(i, threads) == p.pattern && p.At(i + 1, threads) == p.lb
  {
    NextPlace(i, threads);
    NextRound(p, i % threads % 32);
  }

  function NextWord(w: bv32, sval: bv32): bv32 {
    (w << 1) | sval
  }

  lemma NextRound(p: Pattern, r: nat)
    ensures p.offset < 32 || r > 0 ==>
              PatternAfter(p.pattern, p.lb, p.sval, p.offset, r + 1)
              == NextWord(PatternAfter(p.pattern, p.lb, p.sval, p.offset, r), p.sval)
    ensures p.offset >= 32 && r == 0 ==> PatternAfter(p.pattern, p.lb, p.sval, p.offset, 1) == p.lb
  {
    if p.offset < 32 {
      OneMoreRound(p.pattern, p.lb, p.sval, p.offset, r);
    } else if r > 0 {
      OneMoreRound(p.lb, p.lb, p.sval, 0, r - 1);
    } else {
      assert PatternAfter(p.lb, p.lb, p.sval, 0, 0) == p.lb;
    }
  }

  lemma NextPlace(i: nat, threads: nat)
    requires threads > 0 && i % threads + 1 < threads && i % threads % 32 < 31
    ensures (i + 1) % threads % 32 == i % threads % 32 + 1
  {
    var t := i % threads;
    DivModUnique(i + 1, i / threads, t + 1, threads);
    DivModUnique(t + 1, t / 32, t % 32 + 1, 32);
  }

  lemma FirstThreadPattern(p: Pattern, i: nat, threads: nat)
    requires threads > 0 && i % threads % 32 == 0
    ensures p.At(i, threads) == p.pattern
  {
  }

  lemma {:induction false} OneMoreRound(pat: bv32, lb: bv32, sval: bv32, k: nat, rounds: nat)
    requires k < 32
    ensures PatternAfter(pat, lb, sval, k, rounds + 1) == NextWord(PatternAfter(pat, lb, sval, k, rounds), sval)
    decreases rounds
  {
    if rounds > 0 {
      OneMoreRound(NextWord(pat, sval), lb, sval, k, rounds - 1);
    } else {
      assert PatternAfter(NextWord(pat, sval), lb, sval, k, 0) == NextWord(pat, sval);
    }
  }

  function PatternOf(p: Pattern, threads: nat): nat -> bv32
    requires threads > 0
  {
    (i: nat) => p.At(i, threads)
  }

  function FlippedPatternOf(p: Pattern, threads: nat): nat -> bv32
    requires threads > 0
  {
    (i: nat) => !p.At(i, threads)
  }

  lemma MovInv32Rewrites(mem: seq<bv32>, threads: nat, p: Pattern)
    requires threads > 0 && |mem| <= INT_RANGE
    ensures var plain, flipped := PatternOf(p, threads), FlippedPatternOf(p, threads);
            && Rewrites(MovInv32Write(|mem|, threads, p), mem, false, plain, true, plain)
            && Rewrites(MovInv32ReadWrite(|mem|, threads, p), mem, true, plain, true, flipped)
            && Rewrites(MovInv32Read(|mem|, threads, p), mem, true, flipped, false, flipped)
  {
    var plain, flipped := PatternOf(p, threads), FlippedPatternOf(p, threads);
    var write, change, read :=
      MovInv32Write(|mem|, threads, p), MovInv32ReadWrite(|mem|, threads, p), MovInv32Read(|mem|, threads, p);
    forall i: nat | i < |mem|
      ensures RewritesAt(write, mem, i, false, plain, true, plain)
      ensures RewritesAt(change, mem, i, true, plain, true, flipped)
      ensures RewritesAt(read, mem, i, true, flipped, false, flipped)
    {
      assert write.body(i) == NoCheck(p.lb, [Put(0, Literal(plain(i)))]);
      assert change.body(i) == Body(true, 0, Literal(plain(i)), [Put(0, Literal(flipped(i)))]);
      assert read.body(i) == Body(true, 0, Literal(flipped(i)), []);
    }
  }

  /** movinv32: every thread has its own pattern; the thread count needs no divisibility. Every word that changes
      between two launches is counted once. */
  method MovInv32Test(dev: Device<bv32>, p: Pattern, threads: nat, first: Fault<bv32>, second: Fault<bv32>)
    requires dev.Valid() && threads > 0 && |dev.mem| + threads <= INT_RANGE
    modifies dev
    ensures dev.Valid() && |dev.mem| == |old(dev.mem)|
    ensures dev.errorCount == Raised(old(dev.errorCount), (|Damage(|dev.mem|, first, PatternOf(p, threads))|
                                                         + |Damage(|dev.mem|, second, FlippedPatternOf(p, threads))|))
    ensures forall i: nat :: i < |dev.mem| ==> dev.mem[i] == if i in second then second[i] else !p.At(i, threads)
    ensures first == second == map[] ==> dev.errorCount == old(dev.errorCount)
  {
    var n := |dev.mem|;
    forall mem: seq<bv32> | |mem| == n {
      MovInv32Rewrites(mem, threads, p);
    }
    Inversion(dev, MovInv32Write(n, threads, p), MovInv32ReadWrite(n, threads, p), MovInv32Read(n, threads, p), threads,
              PatternOf(p, threads), FlippedPatternOf(p, threads), first, second);
  }

  /** 64-bit words of a one-mebibyte block. */
  const BLOCK64 := 131072

  function Repeated<W(!new)>(block: seq<W>): nat -> W
    requires |block| > 0
  {
    (i: nat) => block[i % |block|]
  }

  function RepeatedFlipped<W(!new)>(block: seq<W>, flip: W -> W): nat -> W
    requires |block| > 0
  {
    (i: nat) => flip(block[i % |block|])
  }

  lemma BlockWriteAt<W(!new)>(mem: seq<W>, block: seq<W>, flip: W -> W, filler: W, i: nat)
    requires 0 < |block| <= |mem| && mem[..|block|] == block && i < |mem|
    ensures RewritesAt(BlockWriteKernel(|mem|, |block|, flip, filler), mem, i,
                       false, Repeated(block), true, Repeated(block))
  {
    var k := BlockWriteKernel(|mem|, |block|, flip, filler);
    if i >= |block| {
      var j := i % |block|;
      assert k.body(i) == NoCheck(filler, [Put(0, Shared(j))]);
      assert mem[..|block|][j] == block[j];
    } else {
      assert k.body(i) == NoCheck(filler, []);
    }
  }

  lemma BlockReadWriteAt<W(!new)>(mem: seq<W>, block: seq<W>, flip: W -> W, filler: W, i: nat)
    requires 0 < |block| <= |mem| && mem[..|block|] == block && i < |mem|
    ensures RewritesAt(BlockReadWriteKernel(|mem|, |block|, flip, filler), mem, i,
                       true, Repeated(block), true, RepeatedFlipped(block, flip))
  {
    var k := BlockReadWriteKernel(|mem|, |block|, flip, filler);
    if i >= |block| {
      var j := i % |block|;
      assert k.body(i) == Body(true, 0, Shared(j), [Put(0, FlippedShared(j))]);
      assert mem[..|block|][j] == block[j];
    } else {
      assert k.body(i) == NoCheck(filler, []);
    }
  }

  lemma BlockReadAt<W(!new)>(mem: seq<W>, block: seq<W>, flip: W -> W, filler: W, i: nat)
    requires 0 < |block| <= |mem| && mem[..|block|] == block && i < |mem|
    ensures RewritesAt(BlockReadKernel(|mem|, |block|, flip, filler), mem, i,
                       true, RepeatedFlipped(block, flip), false, RepeatedFlipped(block, flip))
  {
    var k := BlockReadKernel(|mem|, |block|, flip, filler);
    if i >= |block| {
      var j := i % |block|;
      assert k.body(i) == Body(true, 0, FlippedShared(j), []);
      assert mem[..|block|][j] == block[j];
    } else {
      assert k.body(i) == NoCheck(filler, []);
    }
  }

  lemma BlockRewrites<W(!new)>(mem: seq<W>, block: seq<W>, flip: W -> W, filler: W)
    requires 0 < |block| <= |mem| <= INT_RANGE && mem[..|block|] == block
    ensures Rewrites(BlockWriteKernel(|mem|, |block|, flip, filler), mem, false, Repeated(block), true, Repeated(block))
    ensures Rewrites(BlockReadWriteKernel(|mem|, |block|, flip, filler), mem,
                     true, Repeated(block), true, RepeatedFlipped(block, flip))
    ensures Rewrites(BlockReadKernel(|mem|, |block|, flip, filler), mem,
                     true, RepeatedFlipped(block, flip), false, RepeatedFlipped(block, flip))
  {
    forall i: nat | i < |mem| {
      BlockWriteAt(mem, block, flip, filler, i);
    }
    forall i: nat | i < |mem| {
      BlockReadWriteAt(mem, block, flip, filler, i);
    }
    forall i: nat | i < |mem| {
      BlockReadAt(mem, block, flip, filler, i);
    }
  }

  /** Memory that repeats a block, and memory whose later words hold the complement. */
  function Tiled<W(!new)>(block: seq<W>, n: nat): (r: seq<W>)
    requires |block| > 0
    ensures |r| == n && forall i: nat :: i < n ==> r[i] == block[i % |block|]
  {
    seq(n, (i: nat) => block[i % |block|])
  }

  function TiledFlipped<W(!new)>(block: seq<W>, n: nat, flip: W -> W): (r: seq<W>)
    requires |block| > 0
    ensures |r| == n
    ensures forall i: nat :: i < n ==> r[i] == if i < |block| then block[i] else flip(block[i % |block|])
  {
    seq(n, (i: nat) => if i < |block| then block[i] else flip(block[i % |block|]))
  }

  /** The words behind the first block that differ from their word of that block, or from its complement. */
  ghost function OffBlock<W(!new)>(mem: seq<W>, size: nat): set<nat>
    requires 0 < size <= |mem|
  {
    set i: nat | size <= i < |mem| && mem[i] != mem[i % size]
  }

  ghost function OffComplement<W(!new)>(mem: seq<W>, size: nat, flip: W -> W): set<nat>
    requires 0 < size <= |mem|
  {
    set i: nat | size <= i < |mem| && mem[i] != flip(mem[i % size])
  }

  lemma OffBlockIsUnexpected<W(!new)>(mem: seq<W>, size: nat, flip: W -> W)
    requires 0 < size <= |mem|
    ensures Unexpected(mem, size, Repeated(mem[..size])) == OffBlock(mem, size)
    ensures Unexpected(mem, size, RepeatedFlipped(mem[..size], flip)) == OffComplement(mem, size, flip)
  {
  }

  /** test7: the first block is filled by the host, the rest of the memory repeats it, then its complement. Counted are
      the words that disagree with the first block as it stands at each read. */
  method RandomBlockTest(dev: Device<bv64>, hostBlock: seq<bv64>, threads: nat, first: Fault<bv64>, second: Fault<bv64>)
    requires dev.Valid() && threads > 0 && |dev.mem| + threads <= INT_RANGE
    requires 0 < |hostBlock| == BLOCK64 <= |dev.mem|
    modifies dev
    ensures dev.Valid() && |dev.mem| == |old(dev.mem)|
    ensures var written := Altered(Tiled(hostBlock, |dev.mem|), first);
            && dev.mem == Altered(TiledFlipped(written[..BLOCK64], |dev.mem|, Flip64), second)
            && dev.errorCount == Raised(old(dev.errorCount), (|OffBlock(written, BLOCK64)|
                                                            + |OffComplement(dev.mem, BLOCK64, Flip64)|))
  {
    var n, block := |dev.mem|, BLOCK64;
    dev.mem := hostBlock + dev.mem[block..];
    assert dev.mem[..block] == hostBlock;
    WriteBlock(dev, threads);
    assert dev.mem == Tiled(hostBlock, n);
    Strike(dev, first);
    ghost var written := dev.mem;
    ComplementBlock(dev, threads);
    Strike(dev, second);
    ghost var changed := dev.mem;
    BlockRewrites(dev.mem, dev.mem[..block], Flip64, 0);
    OffBlockIsUnexpected(dev.mem, block, Flip64);
    ghost var flipped := RepeatedFlipped(dev.mem[..block], Flip64);
    CheckedLaunch(dev, BlockReadKernel(n, block, Flip64, 0), threads, true, flipped, false, flipped);
    RaisedTwice(old(dev.errorCount), |OffBlock(written, block)|, |OffComplement(changed, block, Flip64)|);
  }

  method WriteBlock(dev: Device<bv64>, threads: nat)
    requires dev.Valid() && threads > 0 && |dev.mem| + threads <= INT_RANGE && BLOCK64 <= |dev.mem|
    modifies dev
    ensures dev.Valid() && dev.errorCount == old(dev.errorCount)
    ensures dev.mem == Tiled(old(dev.mem)[..BLOCK64], |old(dev.mem)|)
  {
    ghost var b := dev.mem[..BLOCK64];
    BlockRewrites(dev.mem, b, Flip64, 0);
    CheckedLaunch(dev, BlockWriteKernel(|dev.mem|, BLOCK64, Flip64, 0), threads, false, Repeated(b), true, Repeated(b));
    forall i: nat | i < |dev.mem|
      ensures dev.mem[i] == b[i % |b|]
    {
      if i < |b| {
        assert dev.mem[..BLOCK64][i] == b[i];
      }
    }
  }

  method ComplementBlock(dev: Device<bv64>, threads: nat)
    requires dev.Valid() && threads > 0 && |dev.mem| + threads <= INT_RANGE && BLOCK64 <= |dev.mem|
    modifies dev
    ensures dev.Valid()
    ensures dev.errorCount == Raised(old(dev.errorCount), |OffBlock(old(dev.mem), BLOCK64)|)
    ensures dev.mem == TiledFlipped(old(dev.mem)[..BLOCK64], |old(dev.mem)|, Flip64)
  {
    ghost var b := dev.mem[..BLOCK64];
    BlockRewrites(dev.mem, b, Flip64, 0);
    OffBlockIsUnexpected(dev.mem, BLOCK64, Flip64);
    CheckedLaunch(dev, BlockReadWriteKernel(|dev.mem|, BLOCK64, Flip64, 0), threads,
                  true, Repeated(b), true, RepeatedFlipped(b, Flip64));
    forall i: nat | i < |dev.mem|
      ensures dev.mem[i] == if i < |b| then b[i] else Flip64(b[i % |b|])
    {
      if i < |b| {
        assert dev.mem[..BLOCK64][i] == b[i];
      }
    }
  }
}
