/** `ParserGridDistribution`: a run-length-encoded list of cells per GPU, its queries and its text form. */
module GridDistribution {
  import opened Arith
  import opened Decimal
  import opened Wrappers

  /** Base number and multiplier of `b{n}`. */
  datatype Run = Run(cells: nat, count: nat)

  // ----- the decoded list

  function Repeat(cells: nat, count: nat): (r: seq<nat>)
    ensures |r| == count && forall i :: 0 <= i < count ==> r[i] == cells
  {
    seq(count, i => cells)
  }

  function Expand(runs: seq<Run>): seq<nat> {
    if runs == [] then [] else Repeat(runs[0].cells, runs[0].count) + Expand(runs[1..])
  }

  function Sum(sizes: seq<nat>): nat {
    if sizes == [] then 0 else sizes[0] + Sum(sizes[1..])
  }

  lemma {:induction false} SumAppend(a: seq<nat>, b: seq<nat>)
    ensures Sum(a + b) == Sum(a) + Sum(b)
  {
    if a == [] {
      assert a + b == b;
    } else {
      assert (a + b)[1..] == a[1..] + b;
      SumAppend(a[1..], b);
    }
  }

  lemma {:induction false} SumOfRepeat(cells: nat, count: nat)
    ensures Sum(Repeat(cells, count)) == cells * count
  {
    if count > 0 {
      assert Repeat(cells, count)[1..] == Repeat(cells, count - 1);
      SumOfRepeat(cells, count - 1);
    }
  }

  lemma {:induction false} ExpandSplit(runs: seq<Run>, k: nat)
    requires k < |runs|
    ensures Expand(runs) == Expand(runs[..k]) + Repeat(runs[k].cells, runs[k].count) + Expand(runs[k + 1..])
  {
    if k == 0 {
      assert runs[..0] == [];
    } else {
      assert runs[..k][0] == runs[0] && runs[..k][1..] == runs[1..][..k - 1];
      assert runs[1..][k..] == runs[k + 1..];
      ExpandSplit(runs[1..], k - 1);
    }
  }

  lemma ExpandNext(runs: seq<Run>, k: nat)
    requires k < |runs|
    ensures Expand(runs[..k + 1]) == Expand(runs[..k]) + Repeat(runs[k].cells, runs[k].count)
    ensures Sum(Expand(runs[..k + 1])) == Sum(Expand(runs[..k])) + runs[k].cells * runs[k].count
    ensures |Expand(runs[..k + 1])| <= |Expand(runs)|
  {
    var head := runs[..k + 1];
    ExpandSplit(head, k);
    assert head[..k] == runs[..k] && head[k + 1..] == [];
    assert Expand(head) == Expand(runs[..k]) + Repeat(runs[k].cells, runs[k].count) + [];
    SumAppend(Expand(runs[..k]), Repeat(runs[k].cells, runs[k].count));
    SumOfRepeat(runs[k].cells, runs[k].count);
    ExpandSplit(runs, k);
  }

  /** Where GPU `p` of run `k` sits in the decoded list, and what lies before it. */
  lemma PlaceInRun(runs: seq<Run>, k: nat, p: nat)
    requires k < |runs| && |Expand(runs[..k])| <= p < |Expand(runs[..k])| + runs[k].count
    ensures p < |Expand(runs)| && Expand(runs)[p] == runs[k].cells
    ensures Sum(Expand(runs)[..p]) == Sum(Expand(runs[..k])) + runs[k].cells * (p - |Expand(runs[..k])|)
  {
    ExpandSplit(runs, k);
    var before, here := Expand(runs[..k]), Repeat(runs[k].cells, runs[k].count);
    var m := p - |before|;
    assert Expand(runs)[p] == here[m];
    assert here[..m] == Repeat(runs[k].cells, m);
    assert Expand(runs)[..p] == before + here[..m];
    SumAppend(before, here[..m]);
    SumOfRepeat(runs[k].cells, m);
  }

  lemma U32Sum(a: int, b: int)
    ensures U32(U32(a) + U32(b)) == U32(a + b)
  {
    ModOfSum(a, U32(b), U32_RANGE);
    ModOfSum(b, a, U32_RANGE);
  }

  // ----- the search for a GPU's run, with its `int` counter

  /** The GPUs up to the end of run `k`. */
  function EndOf(runs: seq<Run>, k: nat): nat
    requires k < |runs|
  {
    |Expand(runs[..k])| + runs[k].count
  }

  /** Run `k` holds GPU `p` in the decoded list. */
  ghost predicate HeldBy(runs: seq<Run>, k: nat, p: nat) {
    k < |runs| && |Expand(runs[..k])| <= p < EndOf(runs, k)
  }

  /** `i` is the last GPU of run `iter`, as an `int`; `None` is walking off the list. */
  function Search(runs: seq<Run>, iter: nat, i: int, gpuPos: nat): (found: Option<nat>)
    requires iter < |runs|
    ensures found.Some? ==> iter <= found.value < |runs|
    decreases |runs| - iter
  {
    if i >= gpuPos then Some(iter)
    else if iter + 1 == |runs| then None
    else Search(runs, iter + 1, Int32(i + runs[iter + 1].count), gpuPos)
  }

  function Find(runs: seq<Run>, gpuPos: nat): (found: Option<nat>)
    ensures found.Some? ==> found.value < |runs|
  {
    if runs == [] then None else Search(runs, 0, Int32(runs[0].count - 1), gpuPos)
  }

  lemma Int32Sum(a: int, b: int)
    ensures Int32(Int32(a) + b) == Int32(a + b)
  {
    ModOfSum(a + INT_RANGE, b, U32_RANGE);
  }

  lemma NextEnd(runs: seq<Run>, iter: nat)
    requires iter + 1 < |runs|
    ensures EndOf(runs, iter + 1) == EndOf(runs, iter) + runs[iter + 1].count
    ensures |Expand(runs[..iter + 1])| == EndOf(runs, iter)
  {
    ExpandNext(runs, iter);
  }

  /** What the loop holds at run `iter`. */
  function EndInt(runs: seq<Run>, iter: nat): int
    requires iter < |runs|
  {
    Int32(EndOf(runs, iter) - 1)
  }

  function CellsBefore(runs: seq<Run>, iter: nat): int
    requires iter <= |runs|
  {
    U32(Sum(Expand(runs[..iter])))
  }

  /** One step of the loop keeps counter and sum in step with the decoded list. */
  lemma NextRun(runs: seq<Run>, iter: nat)
    requires iter + 1 < |runs|
    ensures Int32(EndInt(runs, iter) + runs[iter + 1].count) == EndInt(runs, iter + 1)
    ensures U32(CellsBefore(runs, iter) + U32(runs[iter].cells * runs[iter].count)) == CellsBefore(runs, iter + 1)
  {
    ExpandNext(runs, iter);
    NextEnd(runs, iter);
    U32Sum(Sum(Expand(runs[..iter])), runs[iter].cells * runs[iter].count);
    Int32Sum(EndOf(runs, iter) - 1, runs[iter + 1].count);
  }

  lemma FirstEnd(runs: seq<Run>)
    requires runs != []
    ensures EndInt(runs, 0) == Int32(runs[0].count - 1) && CellsBefore(runs, 0) == 0
  {
    assert runs[..0] == [];
  }

  lemma {:induction false} EndsGrow(runs: seq<Run>, j: nat, k: nat)
    requires j < k < |runs|
    ensures EndOf(runs, j) <= |Expand(runs[..k])|
  {
    NextEnd(runs, k - 1);
    if j < k - 1 {
      EndsGrow(runs, j, k - 1);
    }
  }

  /** While the ends of the runs fit, the search passes every run before the one that holds the GPU. */
  lemma {:induction false} SearchReaches(runs: seq<Run>, iter: nat, gpuPos: nat, k: nat)
    requires HeldBy(runs, k, gpuPos) && iter <= k && gpuPos < INT_RANGE
    ensures Search(runs, iter, Int32(EndOf(runs, iter) - 1), gpuPos)
         == Search(runs, k, Int32(EndOf(runs, k) - 1), gpuPos)
    decreases k - iter
  {
    if iter < k {
      EndsGrow(runs, iter, k);
      Int32Exact(EndOf(runs, iter) - 1);
      NextEnd(runs, iter);
      SearchReaches(runs, iter + 1, gpuPos, k);
    }
  }

  /** The run that holds a GPU. */
  ghost function Holder(runs: seq<Run>, gpuPos: nat): (k: nat)
    requires gpuPos < |Expand(runs)|
    ensures HeldBy(runs, k, gpuPos)
  {
    HolderFrom(runs, gpuPos, 0)
  }

  ghost function HolderFrom(runs: seq<Run>, gpuPos: nat, k: nat): (h: nat)
    requires gpuPos < |Expand(runs)| && k <= |runs| && |Expand(runs[..k])| <= gpuPos
    ensures HeldBy(runs, h, gpuPos)
    decreases |runs| - k
  {
    assert runs[..|runs|] == runs;
    ExpandNext(runs, k);
    if gpuPos < EndOf(runs, k) then k else HolderFrom(runs, gpuPos, k + 1)
  }

  /** The list has this GPU, and its run ends within 2^31 GPUs. */
  ghost predicate Reachable(runs: seq<Run>, gpuPos: nat) {
    gpuPos < |Expand(runs)| && EndOf(runs, Holder(runs, gpuPos)) <= INT_RANGE
  }

  lemma FoundInTime(runs: seq<Run>, gpuPos: nat)
    requires Reachable(runs, gpuPos)
    ensures Find(runs, gpuPos) == Some(Holder(runs, gpuPos))
  {
    FoundExactly(runs, gpuPos, Holder(runs, gpuPos));
  }

  lemma PlaceInInt(start: nat, count: nat, gpuPos: nat)
    requires start <= gpuPos < start + count <= INT_RANGE
    ensures U32(gpuPos + count - Int32(start + count - 1) - 1) == gpuPos - start
  {
    Int32Exact(start + count - 1);
    U32Exact(gpuPos - start);
  }

  /** The last line of `getOffset`: the GPUs of the run before this one, and their cells. */
  lemma OffsetInRun(runs: seq<Run>, gpuPos: nat, k: nat)
    requires gpuPos < |Expand(runs)| && HeldBy(runs, k, gpuPos) && EndOf(runs, k) <= INT_RANGE
    ensures var m := gpuPos - |Expand(runs[..k])|;
            && U32(gpuPos + runs[k].count - EndInt(runs, k) - 1) == m
            && U32(CellsBefore(runs, k) + U32(runs[k].cells * m)) == U32(Sum(Expand(runs)[..gpuPos]))
  {
    var m := gpuPos - |Expand(runs[..k])|;
    PlaceInInt(|Expand(runs[..k])|, runs[k].count, gpuPos);
    CellsInRun(runs, gpuPos, k, runs[k].cells * m);
  }

  lemma CellsInRun(runs: seq<Run>, gpuPos: nat, k: nat, cells: int)
    requires gpuPos < |Expand(runs)| && HeldBy(runs, k, gpuPos)
    requires cells == runs[k].cells * (gpuPos - |Expand(runs[..k])|)
    ensures U32(CellsBefore(runs, k) + U32(cells)) == U32(Sum(Expand(runs)[..gpuPos]))
  {
    PlaceInRun(runs, k, gpuPos);
    U32Sum(Sum(Expand(runs[..k])), cells);
  }

  /** The search finds the run that holds a GPU exactly when that run ends within 2^31 GPUs. */
  lemma FoundExactly(runs: seq<Run>, gpuPos: nat, k: nat)
    requires HeldBy(runs, k, gpuPos) && gpuPos < INT_RANGE && runs[k].count < U32_RANGE
    ensures Find(runs, gpuPos) == Some(k) <==> EndOf(runs, k) <= INT_RANGE
  {
    assert runs[..0] == [];
    SearchReaches(runs, 0, gpuPos, k);
    EndInInt(|Expand(runs[..k])|, runs[k].count, gpuPos);
  }

  /** A run that ends later wraps to a place before the GPU. */
  lemma EndInInt(start: nat, count: nat, gpuPos: nat)
    requires start <= gpuPos < start + count && gpuPos < INT_RANGE && count < U32_RANGE
    ensures Int32(start + count - 1) >= gpuPos <==> start + count <= INT_RANGE
  {
    var end := start + count - 1;
    Int32Exact(end);
    if end >= INT_RANGE {
      DivModUnique(end + INT_RANGE, 1, end - INT_RANGE, U32_RANGE);
    }
  }

  /** With a multiplier of 2^32 - 1 the search for GPU 0 walks off a list of one run, and finds the wrong run of two. */
  lemma RunEndOverflows()
    ensures HeldBy([Run(128, 0xFFFF_FFFF)], 0, 0) && Find([Run(128, 0xFFFF_FFFF)], 0) == None
    ensures HeldBy([Run(128, 0xFFFF_FFFF), Run(64, 5)], 0, 0)
    ensures Find([Run(128, 0xFFFF_FFFF), Run(64, 5)], 0) == Some(1)
  {
    var one, two := [Run(128, 0xFFFF_FFFF)], [Run(128, 0xFFFF_FFFF), Run(64, 5)];
    assert one[..0] == [] && two[..0] == [];
    assert Search(two, 1, 3, 0) == Some(1);
  }

  datatype Offset = OffTheList | WrongTotal | Cells(value: nat)

  class Parser {
    var parsedInput: seq<Run>

    constructor ()
      ensures parsedInput == []
    {
      parsedInput := [];
    }

    /** The loop shared by both queries; `found` is false when it walks off the list. */
    method FindRun(gpuPos: nat) returns (found: bool, iter: nat, i: int, sum: int)
      ensures Find(parsedInput, gpuPos) == if found then Some(iter) else None
      ensures found ==>
                iter < |parsedInput| && i == EndInt(parsedInput, iter) && sum == CellsBefore(parsedInput, iter)
    {
      found, iter, i, sum := false, 0, 0, 0;
      if parsedInput == [] {
        return;
      }
      FirstEnd(parsedInput);
      i := Int32(parsedInput[0].count - 1);
      while i < gpuPos
        invariant iter < |parsedInput| && i == EndInt(parsedInput, iter) && sum == CellsBefore(parsedInput, iter)
        invariant Find(parsedInput, gpuPos) == Search(parsedInput, iter, i, gpuPos)
        decreases |parsedInput| - iter
      {
        if iter + 1 == |parsedInput| {
          return;
        }
        NextRun(parsedInput, iter);
        sum := U32(sum + U32(parsedInput[iter].cells * parsedInput[iter].count));
        iter := iter + 1;
        i := Int32(i + parsedInput[iter].count);
      }
      found := true;
    }

    /** `getLocalSize`: the decoded list's entry, for every GPU whose run ends within 2^31 GPUs. */
    method GetLocalSize(gpuPos: nat) returns (size: Option<nat>)
      ensures size == if Find(parsedInput, gpuPos).Some? then Some(parsedInput[Find(parsedInput, gpuPos).value].cells)
                      else None
      ensures Reachable(parsedInput, gpuPos) ==>
                size == Some(Expand(parsedInput)[gpuPos])
    {
      var found, iter, i, sum := FindRun(gpuPos);
      if Reachable(parsedInput, gpuPos) {
        FoundInTime(parsedInput, gpuPos);
        PlaceInRun(parsedInput, Holder(parsedInput, gpuPos), gpuPos);
      }
      size := if found then Some(parsedInput[iter].cells) else None;
    }

    /** `getOffset`: the cells of all GPUs before this one, modulo 2^32, after the assertion on the total. */
    method GetOffset(gpuPos: nat, maxCells: nat) returns (offset: Offset)
      ensures offset.OffTheList? <==> Find(parsedInput, gpuPos).None?
      ensures offset.WrongTotal? <==> Find(parsedInput, gpuPos).Some? && U32(Sum(Expand(parsedInput))) != maxCells
      ensures Reachable(parsedInput, gpuPos) ==>
                offset == if U32(Sum(Expand(parsedInput))) != maxCells then WrongTotal
                          else Cells(U32(Sum(Expand(parsedInput)[..gpuPos])))
    {
      var found, iter, i, sum := FindRun(gpuPos);
      if !found {
        if Reachable(parsedInput, gpuPos) {
          FoundInTime(parsedInput, gpuPos);
        }
        return OffTheList;
      }
      sum := CellsUpTo(gpuPos, iter, i, sum);
      var sumTotal := TotalCells();
      if sumTotal != maxCells {
        return WrongTotal;
      }
      return Cells(sum);
    }

    /** The cells of the runs before, and the part of this run before the GPU. */
    method CellsUpTo(gpuPos: nat, iter: nat, i: int, before: int) returns (sum: int)
      requires iter < |parsedInput| && Find(parsedInput, gpuPos) == Some(iter)
      requires i == EndInt(parsedInput, iter) && before == CellsBefore(parsedInput, iter)
      ensures 0 <= sum < U32_RANGE
      ensures Reachable(parsedInput, gpuPos) ==> sum == U32(Sum(Expand(parsedInput)[..gpuPos]))
    {
      if Reachable(parsedInput, gpuPos) {
        FoundInTime(parsedInput, gpuPos);
        OffsetInRun(parsedInput, gpuPos, iter);
      }
      var rest := parsedInput[iter].cells * U32(gpuPos + parsedInput[iter].count - i - 1);
      sum := U32(before + U32(rest));
    }

    method TotalCells() returns (sumTotal: int)
      ensures sumTotal == U32(Sum(Expand(parsedInput)))
    {
      var k := 0;
      sumTotal := 0;
      assert parsedInput[..0] == [];
      while k < |parsedInput|
        invariant 0 <= k <= |parsedInput| && sumTotal == U32(Sum(Expand(parsedInput[..k])))
      {
        ExpandNext(parsedInput, k);
        U32Sum(Sum(Expand(parsedInput[..k])), parsedInput[k].cells * parsedInput[k].count);
        sumTotal := U32(sumTotal + U32(parsedInput[k].cells * parsedInput[k].count));
        k := k + 1;
      }
      assert parsedInput[..k] == parsedInput;
    }

    /** `parseString`: one run per match of the expression `[0-9]+(\{[0-9]+\})*`; false is `bad_lexical_cast`. */
    method ParseString(s: string) returns (ok: bool)
      modifies this
      ensures ok <==> Parse(s).Some?
      ensures ok ==> parsedInput == Parse(s).value
    {
      parsedInput := [];
      var rest := SkipToDigit(s);
      ParseSkips(s);
      PrefixNothing(Parse(rest));
      while rest != []
        invariant rest == [] || IsDigit(rest[0])
        invariant Parse(s) == Prefixed(parsedInput, Parse(rest))
        decreases |rest|
      {
        var base := LeadingDigits(rest);
        var multiplier, tail := LastGroup(rest[|base|..]), AfterGroups(rest[|base|..]);
        var run := RunOf(base, multiplier);
        assert SkipToDigit(rest) == rest;
        if run.None? {
          return false;
        }
        PrefixTwice(parsedInput, [run.value], Parse(tail));
        ParseSkips(tail);
        parsedInput := parsedInput + [run.value];
        rest := SkipToDigit(tail);
      }
      ok := true;
    }
  }

  // ----- the local domains

  lemma PrefixStep(sizes: seq<nat>, p: nat)
    requires p < |sizes|
    ensures Sum(sizes[..p + 1]) == Sum(sizes[..p]) + sizes[p]
  {
    assert sizes[..p + 1] == sizes[..p] + [sizes[p]];
    SumAppend(sizes[..p], [sizes[p]]);
    assert Sum([sizes[p]]) == sizes[p] + Sum([sizes[p]][1..]);
  }

  lemma {:induction false} PrefixGrows(sizes: seq<nat>, p: nat, q: nat)
    requires p <= q <= |sizes|
    ensures Sum(sizes[..p]) <= Sum(sizes[..q])
  {
    if p < q {
      PrefixGrows(sizes, p, q - 1);
      PrefixStep(sizes, q - 1);
    }
  }

  predicate InDomain(sizes: seq<nat>, p: nat, cell: nat)
    requires p < |sizes|
  {
    Sum(sizes[..p]) <= cell < Sum(sizes[..p]) + sizes[p]
  }

  /** The GPU that holds a cell. */
  function OwnerOf(sizes: seq<nat>, cell: nat): (p: nat)
    requires cell < Sum(sizes)
    ensures p < |sizes| && InDomain(sizes, p, cell)
  {
    if cell < sizes[0] then 0
    else
      var p := OwnerOf(sizes[1..], cell - sizes[0]);
      assert sizes[..p + 1] == [sizes[0]] + sizes[1..][..p];
      p + 1
  }

  /** The local domains tile the grid: every cell lies in the domain of exactly one GPU, and no other number does. */
  lemma DomainsTile(sizes: seq<nat>, p: nat, cell: nat)
    requires p < |sizes|
    ensures InDomain(sizes, p, cell) <==> cell < Sum(sizes) && p == OwnerOf(sizes, cell)
  {
    PrefixStep(sizes, p);
    PrefixGrows(sizes, p + 1, |sizes|);
    assert sizes[..|sizes|] == sizes;
    if cell < Sum(sizes) {
      var owner := OwnerOf(sizes, cell);
      PrefixStep(sizes, owner);
      if owner < p {
        PrefixGrows(sizes, owner + 1, p);
      } else if p < owner {
        PrefixGrows(sizes, p + 1, owner);
      }
    }
  }

  /** Once the assertion on the total has passed, the total is the number of cells exactly when it fits 32 bits, and all
      offsets are exact exactly when that of the last GPU fits. */
  lemma OffsetsFitExactly(sizes: seq<nat>, maxCells: nat)
    requires sizes != [] && U32(Sum(sizes)) == maxCells
    ensures Sum(sizes) == maxCells <==> Sum(sizes) < U32_RANGE
    ensures (forall p: nat :: p < |sizes| ==> OffsetExact(sizes, p)) <==> Sum(sizes[..|sizes| - 1]) < U32_RANGE
  {
    U32Exact(Sum(sizes));
    var last: nat := |sizes| - 1;
    U32Exact(Sum(sizes[..last]));
    if OffsetExact(sizes, last) {
      forall p: nat | p < |sizes|
        ensures OffsetExact(sizes, p)
      {
        PrefixGrows(sizes, p, last);
        U32Exact(Sum(sizes[..p]));
      }
    }
  }

  predicate OffsetExact(sizes: seq<nat>, p: nat)
    requires p < |sizes|
  {
    U32(Sum(sizes[..p])) == Sum(sizes[..p])
  }

  /** A total of 2^32 too much passes the assertion, and the third GPU is placed on the first one's cells. */
  lemma OverflowPassesAssertion()
    ensures var sizes := [0x8000_0000, 0x8000_0000, 128];
            U32(Sum(sizes)) == 128 && U32(Sum(sizes[..2])) == 0 && Sum(sizes[..2]) == U32_RANGE
  {
    var sizes := [0x8000_0000, 0x8000_0000, 128];
    assert sizes[..0] == [] && sizes[..3] == sizes;
    PrefixStep(sizes, 0);
    PrefixStep(sizes, 1);
    PrefixStep(sizes, 2);
  }

  // ----- the text form

  function SkipToDigit(s: string): (r: string)
    ensures |r| <= |s| && (r == [] || IsDigit(r[0]))
  {
    if s == [] || IsDigit(s[0]) then s else SkipToDigit(s[1..])
  }

  function LeadingDigits(s: string): (d: string)
    ensures |d| <= |s| && d == s[..|d|] && AllDigits(d)
    ensures |d| < |s| ==> !IsDigit(s[|d|])
    ensures s != [] && IsDigit(s[0]) ==> d != []
  {
    if s == [] || !IsDigit(s[0]) then [] else [s[0]] + LeadingDigits(s[1..])
  }

  /** A group `{n}` at the start of the text. */
  predicate StartsWithGroup(s: string) {
    && |s| > 0 && s[0] == '{'
    && var d := LeadingDigits(s[1..]);
       d != [] && 1 + |d| < |s| && s[1 + |d|] == '}'
  }

  function GroupDigits(s: string): string
    requires StartsWithGroup(s)
  {
    LeadingDigits(s[1..])
  }

  function AfterGroup(s: string): (r: string)
    requires StartsWithGroup(s)
    ensures |r| < |s|
  {
    s[2 + |GroupDigits(s)|..]
  }

  function AfterGroups(s: string): (r: string)
    ensures |r| <= |s|
    decreases |s|
  {
    if StartsWithGroup(s) then AfterGroups(AfterGroup(s)) else s
  }

  /** The greedy replacement keeps the last group only. */
  function LastGroup(s: string): Option<string>
    decreases |s|
  {
    if !StartsWithGroup(s) then None
    else
      var later := LastGroup(AfterGroup(s));
      if later.Some? then later else Some(GroupDigits(s))
  }

  function RunOf(base: string, multiplier: Option<string>): Option<Run> {
    var b, n := CastUInt32(base), CastUInt32(if multiplier.Some? then multiplier.value else "1");
    if b.Some? && n.Some? then Some(Run(b.value, n.value)) else None
  }

  function Prefixed(head: seq<Run>, tail: Option<seq<Run>>): Option<seq<Run>> {
    if tail.Some? then Some(head + tail.value) else None
  }

  function Parse(s: string): Option<seq<Run>>
    decreases |s|
  {
    var t := SkipToDigit(s);
    if t == [] then Some([])
    else
      var base := LeadingDigits(t);
      var run := RunOf(base, LastGroup(t[|base|..]));
      if run.None? then None else Prefixed([run.value], Parse(AfterGroups(t[|base|..])))
  }

  lemma PrefixNothing(tail: Option<seq<Run>>)
    ensures Prefixed([], tail) == tail
  {
    if tail.Some? {
      assert [] + tail.value == tail.value;
    }
  }

  lemma PrefixTwice(a: seq<Run>, b: seq<Run>, tail: Option<seq<Run>>)
    ensures Prefixed(a, Prefixed(b, tail)) == Prefixed(a + b, tail)
  {
    if tail.Some? {
      assert a + (b + tail.value) == a + b + tail.value;
    }
  }

  lemma ParseSkips(s: string)
    ensures Parse(s) == Parse(SkipToDigit(s))
  {
    assert SkipToDigit(SkipToDigit(s)) == SkipToDigit(s);
  }

  function PrintRun(r: Run): string {
    Digits(r.cells) + if r.count == 1 then "" else "{" + Digits(r.count) + "}"
  }

  function Print(runs: seq<Run>): string {
    if runs == [] then ""
    else if |runs| == 1 then PrintRun(runs[0])
    else PrintRun(runs[0]) + "," + Print(runs[1..])
  }

  /** The notation: base and multiplier in braces, the multiplier one left out, runs separated by commas. */
  lemma RunNotation(r: Run, s: Run)
    ensures r.count == 1 ==> PrintRun(r) == Digits(r.cells)
    ensures r.count != 1 ==> PrintRun(r) == Digits(r.cells) + ['{'] + Digits(r.count) + ['}']
    ensures Print([r, s]) == PrintRun(r) + [','] + PrintRun(s)
  {
    assert [r, s][1..] == [s];
  }

  /** Of several multipliers the last one counts. */
  lemma LastMultiplierCounts(n: string, m: string, t: string)
    requires n != [] && AllDigits(n) && m != [] && AllDigits(m) && Separated(t)
    ensures LastGroup("{" + n + "}" + ("{" + m + "}" + t)) == Some(m)
  {
    GroupThenSeparator(m, t);
    GroupThenMore(n, "{" + m + "}" + t);
  }

  lemma GroupThenMore(n: string, more: string)
    requires n != [] && AllDigits(n)
    ensures LastGroup("{" + n + "}" + more) == if LastGroup(more).Some? then LastGroup(more) else Some(n)
  {
    var s := "{" + n + "}" + more;
    assert s[1..] == n + ("}" + more);
    LeadingDigitsOf(n, "}" + more);
    assert s[|n| + 2..] == more;
  }

  /** A number beyond 32 bits spoils the whole text. */
  lemma TooLargeIsRefused(n: nat, t: string)
    requires n >= 0x1_0000_0000 && Separated(t)
    ensures Parse(Digits(n) + t) == None
  {
    CastOfDigits(n);
    ParseUnfold(Digits(n), t);
  }

  lemma {:induction false} LeadingDigitsOf(d: string, t: string)
    requires AllDigits(d) && (t == [] || !IsDigit(t[0]))
    ensures LeadingDigits(d + t) == d
  {
    if d == [] {
      assert d + t == t;
    } else {
      assert (d + t)[1..] == d[1..] + t;
      LeadingDigitsOf(d[1..], t);
    }
  }

  /** Text that cannot continue a run. */
  predicate Separated(t: string) {
    t == [] || t[0] == ','
  }

  lemma ParseUnfold(base: string, more: string)
    requires base != [] && AllDigits(base) && (more == [] || !IsDigit(more[0]))
    ensures Parse(base + more) == var run := RunOf(base, LastGroup(more));
                                  if run.None? then None else Prefixed([run.value], Parse(AfterGroups(more)))
  {
    var s := base + more;
    assert IsDigit(s[0]);
    LeadingDigitsOf(base, more);
    assert s[|base|..] == more;
  }

  lemma GroupThenSeparator(n: string, t: string)
    requires n != [] && AllDigits(n) && Separated(t)
    ensures LastGroup("{" + n + "}" + t) == Some(n) && AfterGroups("{" + n + "}" + t) == t
  {
    var more := "{" + n + "}" + t;
    assert more[1..] == n + ("}" + t);
    LeadingDigitsOf(n, "}" + t);
    assert more[1 + |n|] == '}';
    assert more[2 + |n|..] == t;
  }

  lemma ParseAfterRun(r: Run, t: string)
    requires r.cells < 0x1_0000_0000 && r.count < 0x1_0000_0000 && Separated(t)
    ensures Parse(PrintRun(r) + t) == Prefixed([r], Parse(t))
  {
    var base := Digits(r.cells);
    CastOfDigits(r.cells);
    if r.count == 1 {
      CastOfDigits(1);
      assert Digits(1) == "1";
      assert PrintRun(r) + t == base + t;
      ParseUnfold(base, t);
    } else {
      var n := Digits(r.count);
      CastOfDigits(r.count);
      assert PrintRun(r) + t == base + ("{" + n + "}" + t);
      GroupThenSeparator(n, t);
      ParseUnfold(base, "{" + n + "}" + t);
    }
  }

  lemma ParseComma(s: string)
    ensures Parse("," + s) == Parse(s)
  {
    assert ("," + s)[1..] == s;
    assert SkipToDigit("," + s) == SkipToDigit(s);
    ParseSkips("," + s);
    ParseSkips(s);
  }

  lemma ParseOneRun(r: Run)
    requires r.cells < 0x1_0000_0000 && r.count < 0x1_0000_0000
    ensures Parse(PrintRun(r)) == Some([r])
  {
    assert PrintRun(r) + "" == PrintRun(r);
    ParseAfterRun(r, "");
    assert [r] + [] == [r];
  }

  lemma ParseRunThenList(r: Run, text: string, rest: seq<Run>)
    requires r.cells < 0x1_0000_0000 && r.count < 0x1_0000_0000 && Parse(text) == Some(rest)
    ensures Parse(PrintRun(r) + "," + text) == Some([r] + rest)
  {
    assert PrintRun(r) + "," + text == PrintRun(r) + ("," + text);
    ParseAfterRun(r, "," + text);
    ParseComma(text);
  }

  /** Printing a list of 32-bit pairs and parsing the text gives the list back. */
  lemma {:induction false} ParseOfPrint(runs: seq<Run>)
    requires forall i :: 0 <= i < |runs| ==> runs[i].cells < 0x1_0000_0000 && runs[i].count < 0x1_0000_0000
    ensures Parse(Print(runs)) == Some(runs)
  {
    if |runs| == 1 {
      ParseOneRun(runs[0]);
      assert runs == [runs[0]];
    } else if |runs| > 1 {
      ParseOfPrint(runs[1..]);
      ParseRunThenList(runs[0], Print(runs[1..]), runs[1..]);
      assert runs == [runs[0]] + runs[1..];
    }
  }
}
