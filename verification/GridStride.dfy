/** Grid-stride kernels of the GPU memory test, run by any number of threads in any interleaving of single checks,
    atomic adds, report fields and stores. Every iteration of a kernel's loop owns one unit of the buffer; it may check
    one word of the unit against an expectation and then stores a list of words into the unit. */
module GridStride {
  import opened Arith

  const RING := 10

  datatype Operand<W> =
    | Literal(word: W)
    | Own(at: nat)             // a word of the iteration's own unit
    | Shared(index: nat)       // a word of the read-only prefix of the buffer
    | FlippedShared(index: nat)

  datatype Store<W> = Put(at: nat, value: Operand<W>)

  datatype Body<W> = Body(checks: bool, at: nat, expected: Operand<W>, stores: seq<Store<W>>)

  /** `body(i)` is the loop body for index `i`; its thread is `i` modulo the number of threads. From the index the body
      computes addresses in `int`; `factor * i + bias` is the largest of these expressions. */
  datatype Kernel<!W> = Kernel(
    units: nat, width: nat, prefix: nat, maxStores: nat, factor: nat, bias: nat, flip: W -> W, body: nat -> Body<W>)

  ghost predicate AddressFits<W>(k: Kernel<W>, i: nat) {
    Int32(k.factor * i + k.bias) == k.factor * i + k.bias
  }

  ghost predicate AddressesFit<W>(k: Kernel<W>) {
    forall i: nat :: i < k.units ==> AddressFits(k, i)
  }

  /** The address arithmetic of a kernel is right exactly when that of its last unit stays below 2^31. */
  lemma AddressesFitExactly<W>(k: Kernel<W>)
    ensures AddressesFit(k) <==> k.units == 0 || k.factor * (k.units - 1) + k.bias < INT_RANGE
  {
    if k.units > 0 {
      var last: nat := k.units - 1;
      AddressFitsInt(k, last);
      if AddressFits(k, last) {
        forall i: nat | i < k.units
          ensures AddressFits(k, i)
        {
          AddressFitsInt(k, i);
          LargestProduct(k.factor, i, last);
        }
      }
    }
  }

  lemma AddressFitsInt<W>(k: Kernel<W>, i: nat)
    ensures AddressFits(k, i) <==> k.factor * i + k.bias < INT_RANGE
  {
    assert k.factor * i >= 0;
    Int32Exact(k.factor * i + k.bias);
  }

  lemma LargestProduct(factor: nat, i: nat, last: nat)
    requires i <= last
    ensures factor * i <= factor * last
  {
    assert factor * last == factor * i + factor * (last - i);
  }

  predicate OperandFits<W>(k: Kernel<W>, o: Operand<W>) {
    match o
    case Literal(_) => true
    case Own(at) => at < k.width
    case Shared(j) => j < k.prefix
    case FlippedShared(j) => j < k.prefix
  }

  ghost predicate BodyFits<W>(k: Kernel<W>, i: nat) {
    var b := k.body(i);
    && b.at < k.width && OperandFits(k, b.expected) && |b.stores| <= k.maxStores
    && (i * k.width < k.prefix ==> b.stores == [])
    && forall m :: 0 <= m < |b.stores| ==> b.stores[m].at < k.width && OperandFits(k, b.stores[m].value)
  }

  /** The kernel stays inside the buffer, addresses it without overflow and never writes the words it shares. */
  ghost predicate Fits<W>(k: Kernel<W>, size: nat) {
    && k.width > 0 && k.units * k.width <= size && k.prefix <= size && AddressesFit(k)
    && forall i: nat :: i < k.units ==> BodyFits(k, i)
  }

  // ----- what a kernel is meant to do: every unit on its own

  function Eval<W>(k: Kernel<W>, o: Operand<W>, unit: seq<W>, shared: seq<W>): W
    requires OperandFits(k, o) && |unit| == k.width && |shared| == k.prefix
  {
    match o
    case Literal(w) => w
    case Own(at) => unit[at]
    case Shared(j) => shared[j]
    case FlippedShared(j) => k.flip(shared[j])
  }

  /** The unit after the first `m` stores. */
  ghost function UnitAfter<W>(k: Kernel<W>, i: nat, unit: seq<W>, shared: seq<W>, m: nat): (r: seq<W>)
    requires BodyFits(k, i) && |unit| == k.width && |shared| == k.prefix && m <= |k.body(i).stores|
    ensures |r| == k.width
  {
    if m == 0 then unit
    else
      var u := UnitAfter(k, i, unit, shared, m - 1);
      var st := k.body(i).stores[m - 1];
      u[st.at := Eval(k, st.value, u, shared)]
  }

  lemma UnitBounds(i: nat, units: nat, width: nat)
    requires i < units
    ensures i * width + width <= units * width
  {
    assert (i + 1) * width <= units * width;
  }

  lemma UnitFits<W>(k: Kernel<W>, size: nat, i: nat)
    requires Fits(k, size) && i < k.units
    ensures i * k.width + k.width <= k.units * k.width <= size && BodyFits(k, i)
  {
    UnitBounds(i, k.units, k.width);
  }

  function Unit<W>(buf: seq<W>, i: nat, width: nat): seq<W>
    requires i * width + width <= |buf|
  {
    buf[i * width..i * width + width]
  }

  ghost predicate Bad<W>(k: Kernel<W>, mem: seq<W>, i: nat)
    requires Fits(k, |mem|) && i < k.units
  {
    UnitFits(k, |mem|, i);
    var u := Unit(mem, i, k.width);
    k.body(i).checks && u[k.body(i).at] != Eval(k, k.body(i).expected, u, mem[..k.prefix])
  }

  ghost function BadUnits<W>(k: Kernel<W>, mem: seq<W>): set<nat>
    requires Fits(k, |mem|)
  {
    set i: nat | i < k.units && Bad(k, mem, i)
  }

  /** The report of a bad unit: address, expectation, the word read, and the word read again. */
  datatype Entry<W> = Entry(address: nat, expected: W, current: W, secondRead: W)

  ghost function Report<W>(k: Kernel<W>, mem: seq<W>, i: nat): Entry<W>
    requires Fits(k, |mem|) && i < k.units
  {
    UnitFits(k, |mem|, i);
    var u := Unit(mem, i, k.width);
    var b := k.body(i);
    Entry(i * k.width + b.at, Eval(k, b.expected, u, mem[..k.prefix]), u[b.at], u[b.at])
  }

  /** The memory after the kernel. */
  ghost predicate IsEffect<W>(k: Kernel<W>, mem: seq<W>, mem': seq<W>)
    requires Fits(k, |mem|)
  {
    && |mem'| == |mem|
    && (forall i: nat :: i < k.units ==> UnitDone(k, mem, mem', i, |k.body(i).stores|))
    && forall j :: k.units * k.width <= j < |mem| ==> mem'[j] == mem[j]
  }

  ghost predicate UnitDone<W>(k: Kernel<W>, mem: seq<W>, buf: seq<W>, i: nat, stores: nat)
    requires Fits(k, |mem|) && i < k.units && |buf| == |mem|
  {
    UnitFits(k, |mem|, i);
    stores <= |k.body(i).stores|
    && Unit(buf, i, k.width) == UnitAfter(k, i, Unit(mem, i, k.width), mem[..k.prefix], stores)
  }

  // ----- the machine

  datatype Phase<W> =
    | Idle
    | Found(expected: W, current: W)                                // mismatch seen, counter not yet raised
    | Recording(slot: nat, field: nat, expected: W, current: W)     // inside RECORD_ERR, after the atomic add

  datatype Thread<W> = Thread(next: nat, pc: nat, phase: Phase<W>)

  /** `log` is a history variable: the units in the order of their atomic adds. */
  datatype State<W> = State(buf: seq<W>, errors: nat, ring: seq<Entry<W>>, threads: seq<Thread<W>>, log: seq<nat>)

  function Written<W>(e: Entry<W>, field: nat, address: nat, expected: W, current: W, second: W): Entry<W> {
    if field == 0 then e.(address := address)
    else if field == 1 then e.(expected := expected)
    else if field == 2 then e.(current := current)
    else e.(secondRead := second)
  }

  /** Well-formed enough for every access of a step to be defined. */
  ghost predicate Sound<W>(k: Kernel<W>, s: State<W>) {
    && Fits(k, |s.buf|) && |s.ring| == RING
    && forall t :: 0 <= t < |s.threads| ==> ThreadSound(k, s.threads[t])
  }

  ghost predicate ThreadSound<W>(k: Kernel<W>, th: Thread<W>) {
    && (th.phase.Recording? ==> th.phase.slot < RING && th.phase.field <= 3)
    && (!th.phase.Idle? ==> th.pc == 0 && th.next < k.units)
    && (th.next < k.units ==> th.pc <= 1 + |k.body(th.next).stores|)
  }

  /** One check, atomic add, report field or store of thread `t`, or one step of its loop counter. */
  function Step<W(==)>(k: Kernel<W>, s: State<W>, t: nat): State<W>
    requires Sound(k, s) && t < |s.threads|
  {
    var th := s.threads[t];
    if th.next >= k.units then s
    else
      UnitFits(k, |s.buf|, th.next);
      var b := k.body(th.next);
      var base := th.next * k.width;
      var unit := Unit(s.buf, th.next, k.width);
      var shared := s.buf[..k.prefix];
      match th.phase
      case Idle =>
        if th.pc == 0 then
          var expected := Eval(k, b.expected, unit, shared);
          s.(threads := s.threads[t := if b.checks && unit[b.at] != expected
                                       then th.(phase := Found(expected, unit[b.at])) else th.(pc := 1)])
        else if th.pc <= |b.stores| then
          var st := b.stores[th.pc - 1];
          s.(buf := s.buf[base + st.at := Eval(k, st.value, unit, shared)],
             threads := s.threads[t := th.(pc := th.pc + 1)])
        else
          s.(threads := s.threads[t := Thread(th.next + |s.threads|, 0, Idle)])
      case Found(expected, current) =>
        s.(errors := U32(s.errors + 1), log := s.log + [th.next],
           threads := s.threads[t := th.(phase := Recording(s.errors % RING, 0, expected, current))])
      case Recording(slot, field, expected, current) =>
        s.(ring := s.ring[slot := Written(s.ring[slot], field, base + b.at, expected, current, s.buf[base + b.at])],
           threads := s.threads[t := if field < 3 then th.(phase := Recording(slot, field + 1, expected, current))
                                     else th.(phase := Idle, pc := 1)])
  }

  predicate Finished<W>(k: Kernel<W>, s: State<W>) {
    forall t :: 0 <= t < |s.threads| ==> s.threads[t].next >= k.units
  }

  function Start<W>(mem: seq<W>, errors: nat, ring: seq<Entry<W>>, threads: nat): State<W> {
    State(mem, errors, ring, seq(threads, t requires 0 <= t < threads => Thread(t, 0, Idle)), [])
  }

  // ----- how far the owner of a unit has come

  function Owner<W>(s: State<W>, i: nat): nat
    requires |s.threads| > 0
  {
    i % |s.threads|
  }

  function StoresDone<W>(k: Kernel<W>, s: State<W>, i: nat): nat
    requires |s.threads| > 0
  {
    var th := s.threads[Owner(s, i)];
    if i < th.next then |k.body(i).stores|
    else if i == th.next && th.pc > 0 then th.pc - 1
    else 0
  }

  /** 0: the atomic add is still to come; 1 + n: the add and n of the four ring fields are done. */
  function Recorded<W>(s: State<W>, i: nat): nat
    requires |s.threads| > 0
  {
    var th := s.threads[Owner(s, i)];
    if i < th.next || (i == th.next && th.pc > 0) then 5
    else if i == th.next && th.phase.Recording? then 1 + th.phase.field
    else 0
  }

  // ----- the invariant of every interleaving

  ghost predicate MemoryInv<W>(k: Kernel<W>, mem: seq<W>, s: State<W>) {
    && Fits(k, |mem|) && |s.buf| == |mem| && |s.threads| > 0 && Sound(k, s)
    && (forall t :: 0 <= t < |s.threads| ==> s.threads[t].next % |s.threads| == t)
    && (forall i: nat :: i < k.units ==> UnitDone(k, mem, s.buf, i, StoresDone(k, s, i)))
    && (forall j :: k.units * k.width <= j < |mem| ==> s.buf[j] == mem[j])
    && s.buf[..k.prefix] == mem[..k.prefix]
  }

  ghost predicate NoDuplicates(log: seq<nat>) {
    forall p, q :: 0 <= p < q < |log| ==> log[p] != log[q]
  }

  ghost predicate ErrorInv<W>(k: Kernel<W>, mem: seq<W>, errors: nat, s: State<W>)
    requires MemoryInv(k, mem, s)
  {
    && s.errors == U32(errors + |s.log|)
    && NoDuplicates(s.log)
    && (forall i: nat :: i in s.log <==> i < k.units && Bad(k, mem, i) && Recorded(s, i) > 0)
    && forall t :: 0 <= t < |s.threads| && !s.threads[t].phase.Idle? ==> PhaseRight(k, mem, s.threads[t])
  }

  ghost predicate PhaseRight<W>(k: Kernel<W>, mem: seq<W>, th: Thread<W>)
    requires Fits(k, |mem|)
  {
    && th.next < k.units && Bad(k, mem, th.next) && !th.phase.Idle?
    && th.phase.expected == Report(k, mem, th.next).expected && th.phase.current == Report(k, mem, th.next).current
  }

  /** While no slot has been used twice, the ring entry of every logged unit is as complete as its recording. */
  ghost predicate RingInv<W>(k: Kernel<W>, mem: seq<W>, s: State<W>)
    requires MemoryInv(k, mem, s)
  {
    |s.log| <= RING ==>
      && (forall p :: 0 <= p < |s.log| ==> EntryRight(k, mem, s, p))
      && forall t :: 0 <= t < |s.threads| && s.threads[t].phase.Recording? ==> SlotRight(s, t)
  }

  ghost predicate SlotRight<W>(s: State<W>, t: nat)
    requires t < |s.threads| && s.threads[t].phase.Recording?
  {
    s.threads[t].phase.slot < |s.log| && s.log[s.threads[t].phase.slot] == s.threads[t].next
  }

  ghost predicate EntryRight<W>(k: Kernel<W>, mem: seq<W>, s: State<W>, p: nat)
    requires Fits(k, |mem|) && |s.threads| > 0 && |s.ring| == RING && p < |s.log| && p < RING
  {
    var i := s.log[p];
    && i < k.units
    && var e, done := Report(k, mem, i), Recorded(s, i);
       && (done >= 2 ==> s.ring[p].address == e.address)
       && (done >= 3 ==> s.ring[p].expected == e.expected)
       && (done >= 4 ==> s.ring[p].current == e.current)
       && (done >= 5 ==> s.ring[p].secondRead == e.secondRead)
  }

  // ----- every step keeps it

  /** A thread's own indices below its next-but-one are those up to its next. */
  lemma OwnedBelow(i: nat, next: nat, threads: nat)
    requires threads > 0 && i % threads == next % threads
    ensures i < next + threads <==> i <= next
  {
    ModDifference(i, next, threads);
    MultipleGap(i / threads - next / threads, threads);
  }

  lemma OtherUnitUntouched<W>(buf: seq<W>, i: nat, j: nat, width: nat, at: nat, w: W)
    requires i != j && at < width && i * width + width <= |buf| && j * width + width <= |buf|
    ensures Unit(buf[i * width + at := w], j, width) == Unit(buf, j, width)
  {
    if i < j {
      UnitBounds(i, j, width);
    } else {
      UnitBounds(j, i, width);
    }
  }

  lemma StoreStep<W>(k: Kernel<W>, mem: seq<W>, s: State<W>, t: nat)
    requires MemoryInv(k, mem, s) && t < |s.threads|
    requires var th := s.threads[t]; th.next < k.units && th.phase.Idle? && 0 < th.pc <= |k.body(th.next).stores|
    ensures MemoryInv(k, mem, Step(k, s, t))
  {
    var th := s.threads[t];
    var i := th.next;
    var s' := Step(k, s, t);
    UnitFits(k, |mem|, i);
    var st := k.body(i).stores[th.pc - 1];
    var word := Eval(k, st.value, Unit(s.buf, i, k.width), s.buf[..k.prefix]);
    assert s'.buf == s.buf[i * k.width + st.at := word];
    assert UnitDone(k, mem, s.buf, i, StoresDone(k, s, i));
    assert Unit(s'.buf, i, k.width) == Unit(s.buf, i, k.width)[st.at := word];
    forall j: nat | j < k.units
      ensures UnitDone(k, mem, s'.buf, j, StoresDone(k, s', j))
    {
      UnitFits(k, |mem|, j);
      assert UnitDone(k, mem, s.buf, j, StoresDone(k, s, j));
      if j != i {
        OtherUnitUntouched(s.buf, i, j, k.width, st.at, word);
      }
    }
    assert s'.buf[..k.prefix] == s.buf[..k.prefix];
  }

  lemma AdvanceStep<W>(k: Kernel<W>, mem: seq<W>, s: State<W>, t: nat)
    requires MemoryInv(k, mem, s) && t < |s.threads|
    requires var th := s.threads[t]; th.next < k.units && th.phase.Idle? && th.pc == 1 + |k.body(th.next).stores|
    ensures MemoryInv(k, mem, Step(k, s, t))
  {
    var th := s.threads[t];
    var s' := Step(k, s, t);
    UnitFits(k, |mem|, th.next);
    var n := |s.threads|;
    assert s' == s.(threads := s.threads[t := Thread(th.next + n, 0, Idle)]);
    assert (th.next + n) % n == t by {
      ModOfSum(th.next, n, n);
      DivModUnique(t + n, 1, t, n);
    }
    forall j: nat | j < k.units
      ensures UnitDone(k, mem, s'.buf, j, StoresDone(k, s', j))
    {
      assert UnitDone(k, mem, s.buf, j, StoresDone(k, s, j));
      if j % n == t {
        OwnedBelow(j, th.next, n);
      }
    }
  }

  /** Steps that touch neither memory nor loop counters. */
  lemma QuietStep<W>(k: Kernel<W>, mem: seq<W>, s: State<W>, t: nat)
    requires MemoryInv(k, mem, s) && t < |s.threads|
    requires var th := s.threads[t]; th.next < k.units && (th.pc == 0 || !th.phase.Idle?)
    ensures MemoryInv(k, mem, Step(k, s, t))
  {
    var s' := Step(k, s, t);
    UnitFits(k, |mem|, s.threads[t].next);
    assert s'.buf == s.buf;
    forall j: nat | j < k.units
      ensures UnitDone(k, mem, s'.buf, j, StoresDone(k, s', j))
    {
      assert UnitDone(k, mem, s.buf, j, StoresDone(k, s, j));
    }
  }

  lemma StepKeepsMemory<W>(k: Kernel<W>, mem: seq<W>, s: State<W>, t: nat)
    requires MemoryInv(k, mem, s) && t < |s.threads|
    ensures MemoryInv(k, mem, Step(k, s, t))
  {
    var th := s.threads[t];
    if th.next < k.units {
      assert ThreadSound(k, th);
      if th.pc == 0 || !th.phase.Idle? {
        QuietStep(k, mem, s, t);
      } else if th.pc <= |k.body(th.next).stores| {
        StoreStep(k, mem, s, t);
      } else {
        AdvanceStep(k, mem, s, t);
      }
    }
  }

  /** Before its first store a unit still holds its original words. */
  lemma UntouchedYet<W>(k: Kernel<W>, mem: seq<W>, s: State<W>, t: nat)
    requires MemoryInv(k, mem, s) && t < |s.threads| && s.threads[t].next < k.units && s.threads[t].pc == 0
    ensures var i := s.threads[t].next;
            && i * k.width + k.width <= |mem| && BodyFits(k, i) && Owner(s, i) == t
            && Unit(s.buf, i, k.width) == Unit(mem, i, k.width)
            && s.buf[i * k.width + k.body(i).at] == Unit(mem, i, k.width)[k.body(i).at]
  {
    var i := s.threads[t].next;
    UnitFits(k, |mem|, i);
    assert UnitDone(k, mem, s.buf, i, StoresDone(k, s, i));
    assert s.buf[i * k.width + k.body(i).at] == Unit(s.buf, i, k.width)[k.body(i).at];
  }

  /** The ring half of the invariant speaks about runs that start with a cleared counter. */
  ghost predicate Inv<W>(k: Kernel<W>, mem: seq<W>, errors: nat, s: State<W>) {
    MemoryInv(k, mem, s) && ErrorInv(k, mem, errors, s) && (errors == 0 ==> RingInv(k, mem, s))
  }

  lemma CheckStep<W>(k: Kernel<W>, mem: seq<W>, errors: nat, s: State<W>, t: nat)
    requires Inv(k, mem, errors, s) && t < |s.threads|
    requires var th := s.threads[t]; th.next < k.units && th.phase.Idle? && th.pc == 0
    ensures Inv(k, mem, errors, Step(k, s, t))
  {
    StepKeepsMemory(k, mem, s, t);
    UntouchedYet(k, mem, s, t);
    var s' := Step(k, s, t);
    var i := s.threads[t].next;
    assert i !in s.log;
    forall p | 0 <= p < |s.log|
      ensures Recorded(s', s.log[p]) == Recorded(s, s.log[p])
    {
    }
    if errors == 0 && |s.log| <= RING {
      forall p | 0 <= p < |s.log|
        ensures EntryRight(k, mem, s', p)
      {
        assert EntryRight(k, mem, s, p);
      }
      forall u | 0 <= u < |s'.threads| && s'.threads[u].phase.Recording?
        ensures SlotRight(s', u)
      {
        assert SlotRight(s, u);
      }
    }
  }

  lemma AddStep<W>(k: Kernel<W>, mem: seq<W>, errors: nat, s: State<W>, t: nat)
    requires Inv(k, mem, errors, s) && t < |s.threads| && s.threads[t].phase.Found?
    ensures Inv(k, mem, errors, Step(k, s, t))
  {
    StepKeepsMemory(k, mem, s, t);
    assert ThreadSound(k, s.threads[t]);
    UntouchedYet(k, mem, s, t);
    var s' := Step(k, s, t);
    var i := s.threads[t].next;
    assert PhaseRight(k, mem, s.threads[t]);
    assert Recorded(s, i) == 0 && i !in s.log;
    assert s'.log == s.log + [i];
    CountUp(errors, |s.log|);
    if errors == 0 && |s'.log| <= RING {
      U32SmallCount(|s.log|);
      forall p | 0 <= p < |s'.log|
        ensures EntryRight(k, mem, s', p)
      {
        if p < |s.log| {
          assert EntryRight(k, mem, s, p);
        }
      }
      forall u | 0 <= u < |s'.threads| && s'.threads[u].phase.Recording?
        ensures SlotRight(s', u)
      {
        if u != t {
          assert SlotRight(s, u);
        }
      }
    }
  }

  lemma CountUp(errors: nat, n: nat)
    ensures U32(U32(errors + n) + 1) == U32(errors + (n + 1))
  {
    ModOfSum(errors + n, 1, U32_RANGE);
  }

  lemma U32SmallCount(n: nat)
    requires n < RING
    ensures U32(n) == n && n % RING == n
  {
  }

  lemma RecordStep<W>(k: Kernel<W>, mem: seq<W>, errors: nat, s: State<W>, t: nat)
    requires Inv(k, mem, errors, s) && t < |s.threads| && s.threads[t].phase.Recording?
    ensures Inv(k, mem, errors, Step(k, s, t))
  {
    StepKeepsMemory(k, mem, s, t);
    assert ThreadSound(k, s.threads[t]);
    UntouchedYet(k, mem, s, t);
    var s' := Step(k, s, t);
    var i := s.threads[t].next;
    assert PhaseRight(k, mem, s.threads[t]);
    assert s'.log == s.log && Recorded(s, i) > 0;
    if errors == 0 && |s.log| <= RING {
      assert SlotRight(s, t);
      forall p | 0 <= p < |s.log|
        ensures EntryRight(k, mem, s', p)
      {
        assert EntryRight(k, mem, s, p);
        if s.log[p] == i {
          assert p == s.threads[t].phase.slot;
        }
      }
      forall u | 0 <= u < |s'.threads| && s'.threads[u].phase.Recording?
        ensures SlotRight(s', u)
      {
        assert SlotRight(s, u);
      }
    }
  }

  /** Once past its check, an iteration no longer affects the error report. */
  lemma LaterStep<W>(k: Kernel<W>, mem: seq<W>, errors: nat, s: State<W>, t: nat)
    requires Inv(k, mem, errors, s) && t < |s.threads|
    requires s.threads[t].next < k.units && s.threads[t].pc > 0
    ensures Inv(k, mem, errors, Step(k, s, t))
  {
    StepKeepsMemory(k, mem, s, t);
    assert ThreadSound(k, s.threads[t]);
    UnitFits(k, |mem|, s.threads[t].next);
    var s' := Step(k, s, t);
    var n := |s.threads|;
    forall i: nat | i < k.units
      ensures Recorded(s', i) == Recorded(s, i)
    {
      if i % n == t {
        OwnedBelow(i, s.threads[t].next, n);
      }
    }
    if errors == 0 && |s.log| <= RING {
      forall p | 0 <= p < |s.log|
        ensures EntryRight(k, mem, s', p)
      {
        assert EntryRight(k, mem, s, p);
      }
      forall u | 0 <= u < |s'.threads| && s'.threads[u].phase.Recording?
        ensures SlotRight(s', u)
      {
        assert SlotRight(s, u);
      }
    }
  }

  lemma StepKeepsInv<W>(k: Kernel<W>, mem: seq<W>, errors: nat, s: State<W>, t: nat)
    requires Inv(k, mem, errors, s) && t < |s.threads|
    ensures Inv(k, mem, errors, Step(k, s, t))
  {
    var th := s.threads[t];
    if th.next < k.units {
      if th.phase.Found? {
        AddStep(k, mem, errors, s, t);
      } else if th.phase.Recording? {
        RecordStep(k, mem, errors, s, t);
      } else if th.pc == 0 {
        CheckStep(k, mem, errors, s, t);
      } else {
        LaterStep(k, mem, errors, s, t);
      }
    }
  }

  lemma StartHasInv<W>(k: Kernel<W>, mem: seq<W>, errors: nat, ring: seq<Entry<W>>, threads: nat)
    requires Fits(k, |mem|) && errors < U32_RANGE && |ring| == RING && threads > 0
    ensures Inv(k, mem, errors, Start(mem, errors, ring, threads))
  {
    var s := Start(mem, errors, ring, threads);
    forall t | 0 <= t < threads
      ensures s.threads[t].next % threads == t
    {
      ModSmall(t, threads);
    }
    forall i: nat | i < k.units
      ensures StoresDone(k, s, i) == 0 && Recorded(s, i) == 0
    {
      FirstOwned(i, threads);
    }
    forall i: nat | i < k.units
      ensures UnitDone(k, mem, s.buf, i, StoresDone(k, s, i))
    {
      UnitFits(k, |mem|, i);
    }
  }

  lemma FirstOwned(i: nat, threads: nat)
    requires threads > 0
    ensures i % threads <= i
  {
  }

  // ----- complete runs

  /** What a kernel launch leaves behind, whatever the interleaving. */
  ghost predicate Outcome<W>(k: Kernel<W>, mem: seq<W>, errors: nat, mem': seq<W>, errors': nat, ring: seq<Entry<W>>)
    requires Fits(k, |mem|)
  {
    && IsEffect(k, mem, mem')
    && errors' == U32(errors + |BadUnits(k, mem)|)
    && (errors == 0 && |BadUnits(k, mem)| <= RING ==> RingHolds(k, mem, ring))
  }

  /** The first entries of the ring are the reports of the bad units, each exactly once. */
  ghost predicate RingHolds<W>(k: Kernel<W>, mem: seq<W>, ring: seq<Entry<W>>)
    requires Fits(k, |mem|)
  {
    exists order: seq<nat> :: ReportsInOrder(k, mem, ring, order)
  }

  ghost predicate ReportsInOrder<W>(k: Kernel<W>, mem: seq<W>, ring: seq<Entry<W>>, order: seq<nat>)
    requires Fits(k, |mem|)
  {
    && |order| <= |ring| && NoDuplicates(order)
    && (forall i :: i in order <==> i in BadUnits(k, mem))
    && forall p :: 0 <= p < |order| ==> order[p] < k.units && ring[p] == Report(k, mem, order[p])
  }

  lemma {:induction false} DistinctCount(order: seq<nat>, units: set<nat>)
    requires NoDuplicates(order) && forall i :: i in order <==> i in units
    ensures |order| == |units|
  {
    if order == [] {
      assert units == {};
    } else {
      var last := |order| - 1;
      var rest := order[..last];
      assert forall i :: i in order <==> i in rest || i == order[last];
      DistinctCount(rest, units - {order[last]});
    }
  }

  lemma FinishedOutcome<W>(k: Kernel<W>, mem: seq<W>, errors: nat, s: State<W>)
    requires Inv(k, mem, errors, s) && Finished(k, s)
    ensures Outcome(k, mem, errors, s.buf, s.errors, s.ring)
  {
    forall i: nat | i < k.units
      ensures UnitDone(k, mem, s.buf, i, |k.body(i).stores|)
    {
      assert s.threads[Owner(s, i)].next >= k.units;
      assert UnitDone(k, mem, s.buf, i, StoresDone(k, s, i));
    }
    LogIsBadUnits(k, mem, errors, s);
    DistinctCount(s.log, BadUnits(k, mem));
    if errors == 0 && |s.log| <= RING {
      forall p | 0 <= p < |s.log|
        ensures s.log[p] < k.units && s.ring[p] == Report(k, mem, s.log[p])
      {
        assert s.threads[Owner(s, s.log[p])].next >= k.units;
        assert EntryRight(k, mem, s, p);
        assert s.log[p] in s.log;
      }
      assert ReportsInOrder(k, mem, s.ring, s.log);
    }
  }

  lemma LogIsBadUnits<W>(k: Kernel<W>, mem: seq<W>, errors: nat, s: State<W>)
    requires Inv(k, mem, errors, s) && Finished(k, s)
    ensures forall i :: i in s.log <==> i in BadUnits(k, mem)
  {
    forall i: nat | i < k.units
      ensures Recorded(s, i) == 5
    {
      assert s.threads[Owner(s, i)].next >= k.units;
    }
  }

  /** A schedule names the thread of every step. */
  ghost function Run<W>(k: Kernel<W>, mem: seq<W>, errors: nat, ring: seq<Entry<W>>, threads: nat,
                        schedule: seq<nat>): (s: State<W>)
    requires Fits(k, |mem|) && errors < U32_RANGE && |ring| == RING && threads > 0
    requires forall j :: 0 <= j < |schedule| ==> schedule[j] < threads
    ensures Inv(k, mem, errors, s) && |s.threads| == threads
  {
    if schedule == [] then
      StartHasInv(k, mem, errors, ring, threads);
      Start(mem, errors, ring, threads)
    else
      var last := |schedule| - 1;
      var s := Run(k, mem, errors, ring, threads, schedule[..last]);
      StepKeepsInv(k, mem, errors, s, schedule[last]);
      Step(k, s, schedule[last])
  }

  // ----- the loop index is an `int`

  /** All values of the loop indices stay below 2^31, the last ones included that end the loops. */
  predicate IndicesFit<W>(k: Kernel<W>, threads: nat) {
    k.units + threads <= INT_RANGE
  }

  ghost predicate IndicesBelow<W>(s: State<W>, bound: int) {
    forall t :: 0 <= t < |s.threads| ==> s.threads[t].next < bound
  }

  lemma {:induction false} IndicesBounded<W>(k: Kernel<W>, mem: seq<W>, errors: nat, ring: seq<Entry<W>>, threads: nat,
                                             schedule: seq<nat>)
    requires Fits(k, |mem|) && errors < U32_RANGE && |ring| == RING && threads > 0
    requires forall j :: 0 <= j < |schedule| ==> schedule[j] < threads
    ensures IndicesBelow(Run(k, mem, errors, ring, threads, schedule), k.units + threads)
  {
    if schedule != [] {
      var last := |schedule| - 1;
      IndicesBounded(k, mem, errors, ring, threads, schedule[..last]);
      StepBoundsIndices(k, Run(k, mem, errors, ring, threads, schedule[..last]), schedule[last]);
    }
  }

  lemma StepBoundsIndices<W>(k: Kernel<W>, s: State<W>, t: nat)
    requires Sound(k, s) && t < |s.threads| && IndicesBelow(s, k.units + |s.threads|)
    ensures |Step(k, s, t).threads| == |s.threads| && IndicesBelow(Step(k, s, t), k.units + |s.threads|)
  {
    var s' := Step(k, s, t);
    assert s.threads[t].next < k.units ==> s'.threads[t].next <= s.threads[t].next + |s.threads|;
    assert forall u :: 0 <= u < |s.threads| && u != t ==> s'.threads[u] == s.threads[u];
  }

  /** In no finished run does a loop index overflow exactly when units and threads together do not exceed 2^31. */
  lemma IndicesFitExactly<W>(k: Kernel<W>, mem: seq<W>, errors: nat, ring: seq<Entry<W>>, threads: nat,
                             schedule: seq<nat>)
    requires Fits(k, |mem|) && errors < U32_RANGE && |ring| == RING && threads > 0
    requires forall j :: 0 <= j < |schedule| ==> schedule[j] < threads
    requires Finished(k, Run(k, mem, errors, ring, threads, schedule))
    ensures IndicesBelow(Run(k, mem, errors, ring, threads, schedule), INT_RANGE) <==> IndicesFit(k, threads)
  {
    var s := Run(k, mem, errors, ring, threads, schedule);
    IndicesBounded(k, mem, errors, ring, threads, schedule);
    var t := (k.units + threads - 1) % threads;
    assert s.threads[t].next >= k.units;
    assert s.threads[t].next % threads == t;
    LastIndex(s.threads[t].next, k.units, threads);
  }

  lemma LastIndex(next: nat, units: nat, threads: nat)
    requires threads > 0 && units <= next < units + threads && next % threads == (units + threads - 1) % threads
    ensures next == units + threads - 1
  {
    ModDifference(next, units + threads - 1, threads);
    MultipleGap(next / threads - (units + threads - 1) / threads, threads);
  }

  /** Every interleaving that lets all threads finish gives the same memory and the same count, and reports every bad
      unit exactly once while the ring is not overrun. */
  lemma EveryInterleaving<W>(k: Kernel<W>, mem: seq<W>, errors: nat, ring: seq<Entry<W>>, threads: nat,
                             schedule: seq<nat>)
    requires Fits(k, |mem|) && errors < U32_RANGE && |ring| == RING && threads > 0
    requires forall j :: 0 <= j < |schedule| ==> schedule[j] < threads
    requires IndicesFit(k, threads) && Finished(k, Run(k, mem, errors, ring, threads, schedule))
    ensures var s := Run(k, mem, errors, ring, threads, schedule);
            Outcome(k, mem, errors, s.buf, s.errors, s.ring)
  {
    FinishedOutcome(k, mem, errors, Run(k, mem, errors, ring, threads, schedule));
  }

  // ----- termination

  /** Position of a thread inside one iteration. */
  function Position<W>(th: Thread<W>): nat {
    match th.phase
    case Idle => if th.pc == 0 then 0 else 5 + th.pc
    case Found(_, _) => 1
    case Recording(_, field, _, _) => 2 + field
  }

  /** An upper bound on the steps a thread still has to make. */
  function Work<W>(k: Kernel<W>, th: Thread<W>): int {
    if th.next >= k.units then 0 else (k.units - th.next) * (k.maxStores + 8) - Position(th)
  }

  function TotalWork<W>(k: Kernel<W>, threads: seq<Thread<W>>): int {
    if threads == [] then 0 else TotalWork(k, threads[..|threads| - 1]) + Work(k, threads[|threads| - 1])
  }

  lemma {:induction false} TotalWorkUpdate<W>(k: Kernel<W>, threads: seq<Thread<W>>, t: nat, th: Thread<W>)
    requires t < |threads|
    ensures TotalWork(k, threads[t := th]) == TotalWork(k, threads) - Work(k, threads[t]) + Work(k, th)
  {
    var last := |threads| - 1;
    if t < last {
      assert threads[t := th][..last] == threads[..last][t := th];
      TotalWorkUpdate(k, threads[..last], t, th);
    } else {
      assert threads[t := th][..last] == threads[..last];
    }
  }

  lemma WorkBound<W>(k: Kernel<W>, th: Thread<W>)
    requires ThreadSound(k, th) && (th.next < k.units ==> |k.body(th.next).stores| <= k.maxStores)
    ensures 0 <= Work(k, th)
    ensures th.next < k.units ==> 0 < Work(k, th) && Position(th) < k.maxStores + 7
  {
    if th.next < k.units {
      MultipleGap(k.units - th.next, k.maxStores + 8);
    }
  }

  lemma {:induction false} TotalWorkBound<W>(k: Kernel<W>, threads: seq<Thread<W>>)
    requires forall t :: 0 <= t < |threads| ==>
               && ThreadSound(k, threads[t])
               && (threads[t].next < k.units ==> |k.body(threads[t].next).stores| <= k.maxStores)
    ensures 0 <= TotalWork(k, threads)
  {
    if threads != [] {
      TotalWorkBound(k, threads[..|threads| - 1]);
      WorkBound(k, threads[|threads| - 1]);
    }
  }

  lemma AdvanceReducesWork(units: nat, next: nat, stride: nat, m: nat, position: nat)
    requires next < units && stride > 0 && position < m
    ensures (if next + stride >= units then 0 else (units - (next + stride)) * m) < (units - next) * m - position
  {
    if next + stride < units {
      assert (units - next) * m == (units - (next + stride)) * m + stride * m;
      MultipleGap(stride, m);
    } else {
      MultipleGap(units - next, m);
    }
  }

  /** Every step of an unfinished thread uses up work, so every fair schedule ends. */
  lemma StepUsesWork<W>(k: Kernel<W>, s: State<W>, t: nat)
    requires Sound(k, s) && t < |s.threads| && s.threads[t].next < k.units
    ensures 0 <= TotalWork(k, Step(k, s, t).threads) < TotalWork(k, s.threads) || !Sound(k, Step(k, s, t))
  {
    var th := s.threads[t];
    UnitFits(k, |s.buf|, th.next);
    WorkBound(k, th);
    var s' := Step(k, s, t);
    var th' := s'.threads[t];
    assert s'.threads == s.threads[t := th'];
    TotalWorkUpdate(k, s.threads, t, th');
    AdvanceReducesWork(k.units, th.next, |s.threads|, k.maxStores + 8, Position(th));
    assert Work(k, th') < Work(k, th);
    if Sound(k, s') {
      forall u | 0 <= u < |s'.threads| && s'.threads[u].next < k.units
        ensures |k.body(s'.threads[u].next).stores| <= k.maxStores
      {
        UnitFits(k, |s'.buf|, s'.threads[u].next);
      }
      TotalWorkBound(k, s'.threads);
    }
  }

  /** The indices of the loops `for (i = t; i < n; i += threads)` hit every index once. */
  lemma StrideHitsOnce(i: nat, threads: nat, t: nat, round: nat)
    requires t < threads
    ensures t + round * threads == i <==> t == i % threads && round == i / threads
  {
    if t + round * threads == i {
      DivModUnique(i, round, t, threads);
    }
    assert i == i / threads * threads + i % threads;
  }

  lemma GoodStep<W>(k: Kernel<W>, mem: seq<W>, errors: nat, s: State<W>, t: nat)
    requires Inv(k, mem, errors, s) && t < |s.threads| && s.threads[t].next < k.units
    ensures Inv(k, mem, errors, Step(k, s, t))
    ensures 0 <= TotalWork(k, Step(k, s, t).threads) < TotalWork(k, s.threads)
  {
    StepKeepsInv(k, mem, errors, s, t);
    StepUsesWork(k, s, t);
  }

  /** The scheduler picks any unfinished thread at any time, until all threads have left their loops. */
  method RunAllThreads<W(==)>(k: Kernel<W>, mem: seq<W>, errors: nat, ring: seq<Entry<W>>, threads: nat)
    returns (s: State<W>)
    requires Fits(k, |mem|) && errors < U32_RANGE && |ring| == RING && threads > 0 && IndicesFit(k, threads)
    ensures |s.buf| == |mem| && s.errors < U32_RANGE && |s.ring| == RING
    ensures Outcome(k, mem, errors, s.buf, s.errors, s.ring)
  {
    s := Start(mem, errors, ring, threads);
    StartHasInv(k, mem, errors, ring, threads);
    while !Finished(k, s)
      invariant Inv(k, mem, errors, s)
      decreases TotalWork(k, s.threads)
    {
      var t: nat :| t < |s.threads| && s.threads[t].next < k.units;
      GoodStep(k, mem, errors, s, t);
      s := Step(k, s, t);
    }
    FinishedOutcome(k, mem, errors, s);
  }

  // ----- a device with an in-order command queue

  class Device<W(==)> {
    var mem: seq<W>
    var errorCount: nat
    var ring: seq<Entry<W>>

    ghost predicate Valid()
      reads this
    {
      errorCount < U32_RANGE && |ring| == RING
    }

    constructor (mem: seq<W>, ring: seq<Entry<W>>)
      requires |ring| == RING
      ensures Valid() && this.mem == mem && errorCount == 0 && this.ring == ring
    {
      this.mem := mem;
      this.ring := ring;
      errorCount := 0;
    }

    /** `clEnqueueNDRangeKernel` on an in-order queue. */
    method Launch(k: Kernel<W>, threads: nat)
      requires Valid() && Fits(k, |mem|) && threads > 0 && IndicesFit(k, threads)
      modifies this
      ensures Valid() && |mem| == |old(mem)|
      ensures Outcome(k, old(mem), old(errorCount), mem, errorCount, ring)
    {
      var s := RunAllThreads(k, mem, errorCount, ring, threads);
      mem, errorCount, ring := s.buf, s.errors, s.ring;
    }
  }
}
