/** mem_latency/mem_latency.cpp: sizing, data layouts, host walk and the benchmark as a whole. */
module MemLatency {
  import opened Arithmetic
  import opened PointerChase
  import opened StepCycle
  import opened Words
  import opened Wrappers
  import Kernels = LatencyKernels

  datatype MemType = Global | Constant | Local
  datatype DataLayout = Sequential | CacheStep

  // ---- sizing ------------------------------------------------------------------------------

  /** The device limit in bytes after the adjustments of lines 98 to 101; the subtraction wraps. */
  function AdjustedLimit(limit: nat, mem: MemType, accelerator: bool): nat {
    var left := Wrap64(limit - 64);
    if mem == Local && accelerator then left / 2 else left
  }

  /** The 64 bytes are kept free, unless the device reports less memory than that. */
  lemma AdjustedLimitLeavesRoomIff(limit: nat, mem: MemType, accelerator: bool)
    requires limit < TWO_64
    ensures AdjustedLimit(limit, mem, accelerator) + 64 <= limit <==> limit >= 64
  {
    if limit >= 64 {
      assert Wrap64(limit - 64) == limit - 64;
    } else {
      assert Wrap64(limit - 64) == limit - 64 + TWO_64;
    }
  }

  /** Beyond the bytes kept free, the limit is cut in half for local memory of an accelerator alone. */
  lemma HalvedIff(limit: nat, mem: MemType, accelerator: bool)
    requires limit < TWO_64
    ensures var free := if limit >= 64 then limit - 64 else limit + 0xFFFF_FFFF_FFFF_FFC0;
            && AdjustedLimit(limit, mem, accelerator)
               == (if mem == Local && accelerator then free / 2 else free)
            && (AdjustedLimit(limit, mem, accelerator) != free
                <==> mem == Local && accelerator && free != 0)
  {
    if limit < 64 {
      assert Wrap64(limit - 64) == limit - 64 + TWO_64;
    } else {
      assert Wrap64(limit - 64) == limit - 64;
    }
  }

  /** Lines 102 to 106: `unsigned num_elems = size/sizeof(cl_uint)`, rounded down to whole blocks. */
  function NumElems(size: nat, limit: nat): nat {
    var granted := if size > limit then limit else size;
    var words := Wrap32(granted / 4);
    words - words % 128
  }

  /** n is the largest multiple of 512 bytes within both bounds. */
  ghost predicate LargestBlockSize(n: nat, size: nat, limit: nat) {
    n % 512 == 0 && n <= size && n <= limit
    && forall other: nat :: other % 512 == 0 && other <= size && other <= limit ==> other <= n
  }

  lemma LargestIsUnique(a: nat, b: nat, size: nat, limit: nat)
    requires LargestBlockSize(a, size, limit) && LargestBlockSize(b, size, limit)
    ensures a == b
  {
  }

  /** Rounding down to whole words and then to whole blocks of 128 words loses nothing more. */
  lemma RoundDown(granted: nat)
    ensures 4 * (granted / 4 - granted / 4 % 128) == granted - granted % 512
    ensures (granted - granted % 512) % 512 == 0
    ensures forall other: nat :: other % 512 == 0 && other <= granted ==> other <= granted - granted % 512
  {
    assert granted == 512 * (granted / 512) + granted % 512;
    assert granted / 4 == 128 * (granted / 512) + granted % 512 / 4;
  }

  /** What is granted, rounded down to blocks of 512 bytes. */
  lemma BestSize(size: nat, limit: nat)
    ensures var granted := if size > limit then limit else size;
            LargestBlockSize(granted - granted % 512, size, limit)
  {
    RoundDown(if size > limit then limit else size);
  }

  lemma NumElemsBelow(size: nat, limit: nat)
    ensures NumElems(size, limit) % 128 == 0 && NumElems(size, limit) < TWO_32
    ensures var granted := if size > limit then limit else size;
            granted / 4 < TWO_32 ==> 4 * NumElems(size, limit) == granted - granted % 512
  {
    var granted := if size > limit then limit else size;
    var words := Wrap32(granted / 4);
    RoundDown(granted);
    DivModDefinition(words, 128);
    DivModUnique(words - words % 128, 128, words / 128, 0);
  }

  lemma TooManyWords(granted: nat)
    requires granted / 4 >= TWO_32
    ensures granted - granted % 512 >= 4 * TWO_32
  {
    assert 4 * TWO_32 == 512 * 0x200_0000;
  }

  /** The final byte size is the best possible exactly when the word count fits 32 bits. */
  lemma SizingIsBestIff32Bits(size: nat, limit: nat)
    ensures NumElems(size, limit) % 128 == 0 && NumElems(size, limit) < TWO_32
    ensures LargestBlockSize(4 * NumElems(size, limit), size, limit)
            <==> (if size > limit then limit else size) / 4 < TWO_32
  {
    var granted := if size > limit then limit else size;
    BestSize(size, limit);
    NumElemsBelow(size, limit);
    if granted / 4 >= TWO_32 {
      TooManyWords(granted);
      if LargestBlockSize(4 * NumElems(size, limit), size, limit) {
        LargestIsUnique(granted - granted % 512, 4 * NumElems(size, limit), size, limit);
      }
    }
  }

  /** No element is left when fewer than 512 bytes are granted, or so many that the word count wraps low. */
  lemma NothingLeftIff(size: nat, limit: nat)
    ensures var granted := if size > limit then limit else size;
            && (NumElems(size, limit) == 0 <==> Wrap32(granted / 4) < 128)
            && (granted / 4 < TWO_32 ==> (NumElems(size, limit) == 0 <==> granted < 512))
  {
    var words := Wrap32((if size > limit then limit else size) / 4);
    if words >= 128 {
      assert words - words % 128 == 128 * (words / 128);
    }
  }

  // ---- data layouts ------------------------------------------------------------------------

  const CACHE_STEP_WIDTH: nat := 128

  /** The successor of slot i in the cache-step layout of n slots. */
  function CacheStepNext(n: nat, i: nat): nat
    requires n > 0
  {
    StepNext(CACHE_STEP_WIDTH, n, i)
  }

  ghost predicate CacheStepData(d: seq<nat>) {
    |d| % 128 == 0 && |d| >= 256 && forall i :: 0 <= i < |d| ==> d[i] == CacheStepNext(|d|, i)
  }

  ghost predicate SequentialData(d: seq<nat>) {
    |d| >= 1 && forall i :: 0 <= i < |d| ==> d[i] == (if i + 1 < |d| then i + 1 else 0)
  }

  /** Slot i comes before the slot in the given row and column of the column-major walk. */
  ghost predicate Before(i: nat, row: nat, col: nat)
    requires i > 0
  {
    (i - 1) % 128 < col || ((i - 1) % 128 == col && (i - 1) / 128 < row)
  }

  ghost predicate FilledBefore(d: seq<nat>, row: nat, col: nat) {
    |d| > 0 && d[0] == 1
    && forall i: nat :: 0 < i < |d| && Before(i, row, col) ==> d[i] == CacheStepNext(|d|, i)
  }

  /** Writing the link of the current slot moves the filled part one step along the walk. */
  lemma FillOneMore(d: seq<nat>, m: nat, row: nat, col: nat, index: nat)
    requires |d| == 128 * m && row < m && col < 128 && index == 128 * row + col + 1 < |d|
    requires FilledBefore(d, row, col)
    ensures FilledBefore(d[index := CacheStepNext(|d|, index)], NextRow(m, row), NextCol(m, row, col))
  {
    var e := d[index := CacheStepNext(|d|, index)];
    forall i: nat | 0 < i < |e| && Before(i, NextRow(m, row), NextCol(m, row, col)) && i != index
      ensures e[i] == CacheStepNext(|e|, i)
    {
      assert Before(i, row, col);
    }
  }

  /** The link the loop computes at a slot, and where that link leads. */
  lemma LinkArithmetic(m: nat, row: nat, col: nat, index: nat)
    requires m >= 2 && row < m && col < 128 && index == 128 * row + col + 1 < 128 * m
    ensures index + 128 == 128 * m <==> row + 2 == m && col == 127
    ensures index + 128 > 128 * m ==> (index + 128) % (128 * m - 1) == CacheStepNext(128 * m, index)
    ensures index + 128 != 128 * m ==>
              CacheStepNext(128 * m, index) == 128 * NextRow(m, row) + NextCol(m, row, col) + 1
    ensures index + 128 != 128 * m ==> NextCol(m, row, col) < 128 && CacheStepNext(128 * m, index) < 128 * m
  {
    Link(CACHE_STEP_WIDTH, m, row, col, 128 * m, index);
  }

  /**
   * State of the filling loop before the slot in the given row and column is linked. A single
   * block of 128 slots is special: its last step leads back to slot 0 instead of ending.
   */
  ghost predicate Filling(d: seq<nat>, row: nat, col: nat, index: nat, steps: nat) {
    && |d| % 128 == 0 && 128 <= |d| < TWO_32
    && row < |d| / 128 && index < |d| && steps == col * (|d| / 128) + row
    && if |d| == 128 then col < 127 && index == (if col < 126 then col + 1 else 0)
       else col < 128 && index == 128 * row + col + 1 && FilledBefore(d, row, col)
  }

  ghost predicate Filled(d: seq<nat>, steps: nat) {
    && steps == |d| - 1
    && (|d| == 128 ==> d[0] == 0)
    && (|d| >= 256 ==> CacheStepData(d))
  }

  lemma NextStepNumber(m: nat, row: nat, col: nat)
    requires row < m
    ensures NextCol(m, row, col) * m + NextRow(m, row) == col * m + row + 1
  {
  }

  lemma FillingEnds(d: seq<nat>, row: nat, col: nat, index: nat, steps: nat)
    requires Filling(d, row, col, index, steps) && index + 128 == |d|
    ensures Filled(d[index := 0], steps + 1)
  {
    if |d| > 128 {
      LinkArithmetic(|d| / 128, row, col, index);
      FillOneMore(d, |d| / 128, row, col, index);
    }
  }

  lemma FillingAdvances(d: seq<nat>, row: nat, col: nat, index: nat, steps: nat, link: nat)
    requires Filling(d, row, col, index, steps) && index + 128 != |d|
    requires link == if index + 128 > |d| then (index + 128) % (|d| - 1) else index + 128
    ensures Filling(d[index := link], NextRow(|d| / 128, row), NextCol(|d| / 128, row, col), link, steps + 1)
  {
    NextStepNumber(|d| / 128, row, col);
    if |d| > 128 {
      LinkArithmetic(|d| / 128, row, col, index);
      FillOneMore(d, |d| / 128, row, col, index);
    }
  }

  /** `index + CACHE_STEP_WIDTH` fits 32 bits for every slot of an array of whole blocks. */
  lemma NoWrap(n: nat, index: nat)
    requires n % 128 == 0 && index < n < TWO_32
    ensures Wrap32(index + 128) == index + 128
  {
    assert TWO_32 == 128 * 0x200_0000;
    assert n <= TWO_32 - 128;
  }

  /** The slots linked so far are the first ones of the column-major walk. */
  ghost predicate LinkedInOrder(visited: seq<nat>, m: nat)
    requires m > 0
  {
    forall k: nat :: k < |visited| ==> visited[k] == Slot(CACHE_STEP_WIDTH, m, k)
  }

  /** The slot linked next continues the walk. */
  lemma LinkedNext(visited: seq<nat>, m: nat, row: nat, col: nat, index: nat)
    requires m > 0 && LinkedInOrder(visited, m) && |visited| == col * m + row
    requires row < m && col < 128 && index == 128 * row + col + 1
    ensures LinkedInOrder(visited + [index], m)
  {
    StepOfSlot(CACHE_STEP_WIDTH, m, row, col);
  }

  /** The loop so far: the state, and the order in which it has linked slots. */
  ghost predicate FillingInOrder(d: seq<nat>, row: nat, col: nat, index: nat, visited: seq<nat>) {
    && Filling(d, row, col, index, |visited|)
    && (|d| >= 256 ==> LinkedInOrder(visited, |d| / 128))
  }

  ghost predicate FilledInOrder(d: seq<nat>, visited: seq<nat>) {
    && Filled(d, |visited|)
    && (|d| >= 256 ==> LinkedInOrder(visited, |d| / 128))
  }

  lemma OrderEnds(d: seq<nat>, row: nat, col: nat, index: nat, visited: seq<nat>)
    requires FillingInOrder(d, row, col, index, visited) && index + 128 == |d|
    ensures FilledInOrder(d[index := 0], visited + [index])
  {
    FillingEnds(d, row, col, index, |visited|);
    if |d| >= 256 {
      LinkedNext(visited, |d| / 128, row, col, index);
    }
  }

  lemma OrderAdvances(d: seq<nat>, row: nat, col: nat, index: nat, visited: seq<nat>, link: nat)
    requires FillingInOrder(d, row, col, index, visited) && index + 128 != |d|
    requires link == if index + 128 > |d| then (index + 128) % (|d| - 1) else index + 128
    ensures FillingInOrder(d[index := link], NextRow(|d| / 128, row), NextCol(|d| / 128, row, col), link,
                           visited + [index])
  {
    FillingAdvances(d, row, col, index, |visited|, link);
    if |d| >= 256 {
      LinkedNext(visited, |d| / 128, row, col, index);
    }
  }

  /** A walk of n - 1 steps in this order links every slot but slot 0, and none twice. */
  lemma LinkedOnce(visited: seq<nat>, n: nat)
    requires n % 128 == 0 && n >= 256 && |visited| == n - 1 && LinkedInOrder(visited, n / 128)
    ensures forall i: nat :: 0 < i < n <==> i in visited
    ensures forall a, b :: 0 <= a < b < |visited| ==> visited[a] != visited[b]
  {
    var m := n / 128;
    assert n == CACHE_STEP_WIDTH * m;
    forall k: nat | k < |visited|
      ensures 0 < visited[k] < n && StepOf(CACHE_STEP_WIDTH, m, visited[k]) == k
    {
      SlotInverse(CACHE_STEP_WIDTH, m, k);
    }
    forall i: nat | 0 < i < n
      ensures i in visited
    {
      StepOfInverse(CACHE_STEP_WIDTH, m, i);
      assert visited[StepOf(CACHE_STEP_WIDTH, m, i)] == i;
    }
  }

  /**
   * Lines 114 to 126. `visited` lists the slots in the order in which `while(true)` links them. With a
   * single block of 128 slots the walk of the loop reaches slot 0 itself and overwrites the link
   * stored there.
   */
  method FillCacheStep(data: array<nat>) returns (ghost visited: seq<nat>)
    requires data.Length % 128 == 0 && 128 <= data.Length < TWO_32
    modifies data
    ensures |visited| == data.Length - 1
    ensures data.Length >= 256 ==> LinkedInOrder(visited, data.Length / 128) && CacheStepData(data[..])
    ensures data.Length == 128 ==> data[0] == 0
  {
    var n := data.Length;
    ghost var row: nat, col: nat := 0, 0;
    visited := [];
    var index: nat := 1;
    data[0] := 1;
    while true
      invariant FillingInOrder(data[..], row, col, index, visited)
      decreases 128 - col, n - row
    {
      ghost var before := data[..];
      NoWrap(n, index);
      var newindex: nat := Wrap32(index + 128);
      if newindex == n {
        data[index] := 0;
        assert data[..] == before[index := 0];
        OrderEnds(before, row, col, index, visited);
        visited := visited + [index];
        break;
      }
      if newindex > n {
        newindex := newindex % (n - 1);
      }
      data[index] := newindex;
      assert data[..] == before[index := newindex];
      OrderAdvances(before, row, col, index, visited, newindex);
      visited := visited + [index];
      index := newindex;
      row, col := NextRow(n / 128, row), NextCol(n / 128, row, col);
    }
  }

  /** Lines 129 to 132. */
  method FillSequential(data: array<nat>)
    requires 1 <= data.Length < TWO_32
    modifies data
    ensures SequentialData(data[..])
  {
    var i := 0;
    while i < data.Length
      invariant i <= data.Length
      invariant forall j :: 0 <= j < i ==> data[j] == j + 1
    {
      data[i] := Wrap32(i + 1);
      i := i + 1;
    }
    data[data.Length - 1] := 0;
  }

  // ---- the walks the layouts describe --------------------------------------------------------

  lemma WholeRows(d: seq<nat>)
    requires CacheStepData(d)
    ensures StepData(CACHE_STEP_WIDTH, |d| / 128, d)
  {
    assert |d| == 128 * (|d| / 128);
  }

  /** The k-th load of the cache-step chase ends in the slot given by the closed form. */
  lemma CacheStepWalk(d: seq<nat>, k: nat)
    requires CacheStepData(d) && 0 < k < |d|
    ensures Closed(d) && Walk(d, k) == 128 * ((k - 1) % (|d| / 128)) + (k - 1) / (|d| / 128) + 1
  {
    WholeRows(d);
    StepWalk(CACHE_STEP_WIDTH, |d| / 128, d, k);
  }

  /** The cache-step layout is a single cycle through all slots. */
  lemma CacheStepIsOneCycle(d: seq<nat>)
    requires CacheStepData(d)
    ensures OneCycle(d)
  {
    WholeRows(d);
    StepIsOneCycle(CACHE_STEP_WIDTH, |d| / 128, d);
  }

  lemma {:induction false} SequentialWalk(d: seq<nat>, k: nat)
    requires SequentialData(d) && k < |d|
    ensures Closed(d) && Walk(d, k) == k
  {
    if k > 0 {
      SequentialWalk(d, k - 1);
    }
  }

  lemma SequentialIsOneCycle(d: seq<nat>)
    requires SequentialData(d)
    ensures OneCycle(d)
  {
    forall k | 0 < k < |d|
      ensures Walk(d, k) != 0
    {
      SequentialWalk(d, k);
    }
    SequentialWalk(d, |d| - 1);
  }

  lemma {:induction false} SequentialChecksum(d: seq<nat>, blocks: nat)
    requires SequentialData(d) && 128 * blocks < |d|
    ensures Closed(d) && Checksum(d, blocks) == 64 * blocks * (blocks + 1)
  {
    SequentialWalk(d, 128 * blocks);
    if blocks > 0 {
      SequentialChecksum(d, blocks - 1);
    }
  }

  lemma SequentialTotal(d: seq<nat>)
    requires SequentialData(d) && |d| % 128 == 0
    ensures Closed(d) && Checksum(d, |d| / BLOCK) == 64 * (|d| / 128 - 1) * (|d| / 128)
  {
    SequentialIsOneCycle(d);
    SequentialChecksum(d, |d| / BLOCK - 1);
  }

  /** Slots met after 128, 256, ..., 128 * blocks loads through m rows of 128 slots. */
  ghost function CacheStepSum(m: nat, blocks: nat): nat
    requires m > 0
  {
    if blocks == 0 then 0
    else CacheStepSum(m, blocks - 1) + 128 * ((128 * blocks - 1) % m) + (128 * blocks - 1) / m + 1
  }

  lemma {:induction false} CacheStepChecksum(d: seq<nat>, blocks: nat)
    requires CacheStepData(d) && 128 * blocks < |d|
    ensures Closed(d) && Checksum(d, blocks) == CacheStepSum(|d| / 128, blocks)
  {
    if blocks > 0 {
      CacheStepChecksum(d, blocks - 1);
      CacheStepWalk(d, 128 * blocks);
    }
  }

  /** The last load of a round ends in slot 0, so that the last block adds nothing. */
  lemma CacheStepTotal(d: seq<nat>)
    requires CacheStepData(d)
    ensures Closed(d) && Checksum(d, |d| / BLOCK) == CacheStepSum(|d| / 128, |d| / 128 - 1)
  {
    CacheStepIsOneCycle(d);
    CacheStepChecksum(d, |d| / 128 - 1);
  }

  /** The smallest array of that layout: the load numbered 128 ends in slot 192. */
  lemma CacheStepSumOfTwoBlocks()
    ensures CacheStepSum(2, 1) == 192
  {
    assert CacheStepSum(2, 0) == 0;
  }

  // ---- host walk -----------------------------------------------------------------------------

  /** One load of the host walk: the next slot, the new count, and the new checksum. */
  lemma WalkStep(d: seq<nat>, n: nat, opcount: nat)
    requires Closed(d) && FirstReturn(d, n) && 0 < opcount < n && |d| < TWO_32
    ensures Walk(d, opcount + 1) == d[Walk(d, opcount)] && Wrap32(opcount + 1) == opcount + 1
    ensures Checksum(d, (opcount + 1) / BLOCK)
            == Checksum(d, opcount / BLOCK) + if (opcount + 1) % BLOCK == 0 then Walk(d, opcount + 1) else 0
  {
    FirstReturnBound(d, n);
    assert opcount + 1 < TWO_32;
    if (opcount + 1) % BLOCK == 0 {
      assert (opcount + 1) / BLOCK == opcount / BLOCK + 1;
      assert BLOCK * ((opcount + 1) / BLOCK) == opcount + 1;
    } else {
      assert (opcount + 1) / BLOCK == opcount / BLOCK;
    }
  }

  /** Lines 137 to 145: follow the links back to slot 0 and predict the device's checksum. */
  method HostWalk(data: array<nat>, iterations: nat) returns (opcount: nat, expected: nat)
    requires 0 < data.Length < TWO_32
    requires data[0] == 0 || (Closed(data[..]) && exists n: nat :: FirstReturn(data[..], n))
    ensures data[0] == 0 ==> opcount == 1 && expected == 0
    ensures Closed(data[..]) ==>
              FirstReturn(data[..], opcount)
              && expected == Wrap32(iterations * Checksum(data[..], opcount / BLOCK))
  {
    ghost var d := data[..];
    var next := data[0];
    opcount, expected := 1, 0;
    if Closed(d) {
      assert Walk(d, 1) == d[Walk(d, 0)] == next;
    }
    if next != 0 {
      ghost var n: nat :| FirstReturn(d, n);
      while next != 0
        invariant 1 <= opcount <= n && next == Walk(d, opcount)
        invariant expected == Wrap32(Checksum(d, opcount / BLOCK))
        decreases n - opcount
      {
        WalkStep(d, n, opcount);
        next := data[next];
        opcount := Wrap32(opcount + 1);
        if opcount % BLOCK == 0 {
          Kernels.WrapAdd(Checksum(d, opcount / BLOCK - 1), next);
          expected := Wrap32(expected + next);
        }
      }
    }
    if Closed(d) {
      Kernels.WrapProduct(Checksum(d, opcount / BLOCK), iterations);
    }
    expected := Wrap32(Wrap64(expected * iterations));
  }

  // ---- the benchmark -------------------------------------------------------------------------

  /** Lines 110 to 134. */
  method PrepareData(n: nat, layout: DataLayout) returns (data: array<nat>)
    requires n % 128 == 0 && 128 <= n < TWO_32
    ensures fresh(data) && data.Length == n
    ensures layout == CacheStep && n == 128 ==> data[0] == 0
    ensures layout == Sequential || n >= 256 ==> OneCycle(data[..])
    ensures layout == Sequential ==> SequentialData(data[..])
    ensures layout == CacheStep && n >= 256 ==> CacheStepData(data[..])
  {
    data := new nat[n];
    if layout == CacheStep {
      var _ := FillCacheStep(data);
      if n >= 256 {
        CacheStepIsOneCycle(data[..]);
      }
    } else {
      FillSequential(data);
      SequentialIsOneCycle(data[..]);
    }
  }

  datatype Report = Report(numElems: nat, opcount: nat, expected: nat, result: nat, operations: nat)

  /**
   * run_latency_benchmark from sizing to the comparison of line 247. The kernel argument is the
   * low half of `iterations`; an accelerator's local memory is the only one whose limit is halved.
   * None: the assertion of line 146 fails. `chased` is the array the device follows.
   */
  method RunBenchmark(size: nat, limit: nat, mem: MemType, accelerator: bool, layout: DataLayout,
                      iterations: nat)
    returns (report: Option<Report>, ghost loads: nat, ghost chased: seq<nat>)
    requires size < TWO_64 && limit < TWO_64 && iterations < TWO_64
    requires NumElems(size, AdjustedLimit(limit, mem, accelerator)) >= 128
    requires mem == Local ==> NumElems(size, AdjustedLimit(limit, mem, accelerator)) < 0x8000_0000
    requires mem == Local ==> Wrap32(iterations) < 0x8000_0000
    ensures report.None? <==>
            layout == CacheStep && NumElems(size, AdjustedLimit(limit, mem, accelerator)) == 128
    ensures report.Some? ==>
              var Report(n, opcount, expected, result, operations) := report.value;
              && n == opcount == NumElems(size, AdjustedLimit(limit, mem, accelerator))
              && result == expected
              && operations == Wrap64(iterations * n)
              && loads == Wrap32(iterations) * n
              && (iterations < TWO_32 ==> operations == loads)
              && |chased| == n
              && (layout == Sequential ==>
                    && SequentialData(chased)
                    && expected == Wrap32(iterations * (64 * (n / 128 - 1) * (n / 128))))
              && (layout == CacheStep ==>
                    && CacheStepData(chased)
                    && expected == Wrap32(iterations * CacheStepSum(n / 128, n / 128 - 1)))
  {
    var n := NumElems(size, AdjustedLimit(limit, mem, accelerator));
    var data := PrepareData(n, layout);
    chased := data[..];
    var opcount, expected := HostWalk(data, iterations);
    loads := 0;
    if opcount != n {
      return None, loads, chased;
    }
    var result;
    if mem == Local {
      result, loads := Kernels.LocalLatency(data[..], Wrap32(iterations));
    } else {
      result, loads := Kernels.Chase(data[..], Wrap32(iterations));
    }
    Kernels.WrapMul(iterations, Checksum(chased, n / BLOCK));
    var operations := Wrap64(iterations * opcount);
    report := Some(Report(n, opcount, expected, result, operations));
    OperationsExact(iterations, n);
    if layout == Sequential {
      SequentialTotal(chased);
    } else {
      CacheStepTotal(chased);
    }
  }

  /** With an iteration count of 32 bits the reported operations are the loads performed. */
  lemma OperationsExact(iterations: nat, n: nat)
    requires n < TWO_32
    ensures iterations < TWO_32 ==> Wrap64(iterations * n) == Wrap32(iterations) * n
  {
    if iterations < TWO_32 {
      MulMonotone(iterations, TWO_32, n);
    }
  }
}
