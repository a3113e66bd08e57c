/**
 * mem_streaming/mem_streaming.cl, kernel local_mem: one work-group as a state machine. A step is
 * one statement of one work-item; the scheduler may pick any work-item that is able to move.
 */
module MemStreaming {
  import opened Arithmetic

  /**
   * A launch as one work-group sees it: ELEMENTS, the local size, the lanes of `dtype`, and the
   * global id of the group's first work-item.
   */
  datatype Group = Group(elements: nat, items: nat, lanes: nat, base: nat)

  /** Lanes of `dtype` for the macro VEC; any value but 1 to 4 compiles the scalar code. */
  function Lanes(vec: nat): (lanes: nat)
    ensures lanes > 0
  {
    if vec == 1 then 2 else if vec == 2 then 4 else if vec == 3 then 8 else if vec == 4 then 16 else 1
  }

  /** The accepted values of VEC name the vector types of 2 to the VEC floats. */
  lemma LanesArePower(vec: nat)
    requires vec <= 4
    ensures Lanes(vec) == Power2(vec)
  {
    assert Power2(0) == 1;
    assert Power2(1) == 2;
    assert Power2(2) == 4;
    assert Power2(3) == 8;
    assert Power2(4) == 16;
  }

  type Cell = seq<real>

  /** Where a work-item stands: the statement it executes next. */
  datatype Pc =
    | InitLow(idx: nat, store: nat)          // first loop: stores to s2[idx], then to s1[idx]
    | InitHigh(idx: nat, store: nat)         // second loop: stores to s2[idx]
    | Waiting                                // at the barrier
    | Accumulate(idx: nat, i: nat, line: nat)  // line of the 100 in iteration i at element idx
    | Flush(idx: nat)                        // output[gid] += the lanes of s1[idx]
    | Done

  datatype State = State(pc: seq<Pc>, s1: seq<Cell>, s2: seq<Cell>, output: seq<real>)

  ghost predicate Shape(g: Group, s: State) {
    && g.items > 0 && g.lanes > 0
    && |s.pc| == g.items && |s.s1| == g.elements && |s.s2| == 2 * g.elements
    && g.base + g.items <= |s.output|
    && (forall i :: 0 <= i < |s.s1| ==> |s.s1[i]| == g.lanes)
    && (forall i :: 0 <= i < |s.s2| ==> |s.s2[i]| == g.lanes)
  }

  // ---- control flow ------------------------------------------------------------------------

  function EnterLow(g: Group, id: nat, idx: nat): Pc {
    if idx < g.elements then InitLow(idx, 0) else EnterHigh(g, id + g.elements)
  }

  function EnterHigh(g: Group, idx: nat): Pc {
    if idx < 2 * g.elements then InitHigh(idx, 0) else Waiting
  }

  function EnterAccumulate(g: Group, id: nat, idx: nat): Pc {
    if idx < g.elements then Accumulate(idx, 0, 0) else EnterFlush(g, id)
  }

  function EnterFlush(g: Group, idx: nat): Pc {
    if idx < g.elements then Flush(idx) else Done
  }

  /** The statement work-item id executes after the one at pc. */
  function Next(g: Group, id: nat, pc: Pc): Pc {
    match pc
    case InitLow(idx, store) =>
      if store + 1 < 2 * g.lanes then InitLow(idx, store + 1) else EnterLow(g, id, idx + g.items)
    case InitHigh(idx, store) =>
      if store + 1 < g.lanes then InitHigh(idx, store + 1) else EnterHigh(g, idx + g.items)
    case Waiting => EnterAccumulate(g, id, id)
    case Accumulate(idx, i, line) =>
      if line + 1 < 100 then Accumulate(idx, i, line + 1)
      else if i + 1 < 100 then Accumulate(idx, i + 1, 0)
      else EnterAccumulate(g, id, idx + g.items)
    case Flush(idx) => EnterFlush(g, idx + g.items)
    case Done => Done
  }

  predicate BeforeBarrier(pc: Pc) {
    pc.InitLow? || pc.InitHigh?
  }

  predicate AfterBarrier(pc: Pc) {
    pc.Accumulate? || pc.Flush? || pc.Done?
  }

  // ---- data --------------------------------------------------------------------------------

  /** Lane-wise sum of two vectors. */
  function VectorAdd(a: Cell, b: Cell): (c: Cell)
    requires |a| == |b|
    ensures |c| == |a|
  {
    seq(|a|, k requires 0 <= k < |a| => a[k] + b[k])
  }

  /** The sum of all lanes, added from the first to the last. */
  function LaneSum(c: Cell): real {
    if c == [] then 0.0 else LaneSum(c[..|c| - 1]) + c[|c| - 1]
  }

  /** The element of s1 or s2 a statement names stays inside its array. */
  ghost predicate InBounds(g: Group, pc: Pc) {
    match pc
    case InitLow(idx, store) => idx < g.elements && store < 2 * g.lanes
    case InitHigh(idx, store) => g.elements <= idx < 2 * g.elements && store < g.lanes
    case Accumulate(idx, i, line) => idx < g.elements && i < 100 && line < 100
    case Flush(idx) => idx < g.elements
    case _ => true
  }

  /** A work-item can move unless it is done, or at the barrier while others have not arrived. */
  ghost predicate Enabled(s: State, id: nat)
    requires id < |s.pc|
  {
    s.pc[id] != Done
    && (s.pc[id] == Waiting ==> forall other :: 0 <= other < |s.pc| ==> !BeforeBarrier(s.pc[other]))
  }

  /** The memory after work-item id has executed its next statement. */
  ghost function Execute(g: Group, s: State, id: nat): State
    requires Shape(g, s) && id < g.items && InBounds(g, s.pc[id])
  {
    var t := s.(pc := s.pc[id := Next(g, id, s.pc[id])]);
    match s.pc[id]
    case InitLow(idx, store) =>
      if store < g.lanes then t.(s2 := s.s2[idx := s.s2[idx][store := 0.5]])
      else t.(s1 := s.s1[idx := s.s1[idx][store - g.lanes := 0.0]])
    case InitHigh(idx, store) => t.(s2 := s.s2[idx := s.s2[idx][store := 0.5]])
    case Accumulate(idx, i, line) =>
      t.(s1 := s.s1[idx := VectorAdd(VectorAdd(s.s1[idx], s.s2[idx]), s.s2[2 * idx])])
    case Flush(idx) =>
      t.(output := s.output[g.base + id := s.output[g.base + id] + LaneSum(s.s1[idx])])
    case _ => t
  }

  ghost predicate Step(g: Group, s: State, id: nat, t: State) {
    && Shape(g, s) && id < g.items && InBounds(g, s.pc[id])
    && Enabled(s, id) && t == Execute(g, s, id)
  }

  /** Launch: every work-item at its first statement; local memory holds arbitrary values. */
  ghost predicate Initial(g: Group, s: State) {
    Shape(g, s) && forall id :: 0 <= id < g.items ==> s.pc[id] == EnterLow(g, id, id)
  }

  /** A run: sched[k] is the work-item that moves from run[k] to run[k + 1]. */
  ghost predicate Run(g: Group, run: seq<State>, sched: seq<nat>) {
    && |run| == |sched| + 1 && Initial(g, run[0])
    && forall k :: 0 <= k < |sched| ==> Step(g, run[k], sched[k], run[k + 1])
  }

  ghost predicate AllDone(s: State) {
    forall id :: 0 <= id < |s.pc| ==> s.pc[id] == Done
  }

  // ---- ownership ---------------------------------------------------------------------------

  /** The element named by a statement belongs to the work-item executing it. */
  ghost predicate Owns(g: Group, id: nat, pc: Pc)
    requires g.items > 0
  {
    match pc
    case InitLow(idx, _) => idx % g.items == id
    case InitHigh(idx, _) => idx >= g.elements && (idx - g.elements) % g.items == id
    case Accumulate(idx, _, _) => idx % g.items == id
    case Flush(idx) => idx % g.items == id
    case _ => true
  }

  /** How many of the numbers below n leave remainder id. */
  ghost function Owned(n: nat, items: nat, id: nat): nat
    requires items > 0
  {
    if n == 0 then 0 else Owned(n - 1, items, id) + (if (n - 1) % items == id then 1 else 0)
  }

  lemma {:induction false} OwnedBelow(n: nat, items: nat, id: nat)
    requires n <= id < items
    ensures Owned(n, items, id) == 0
  {
    if n > 0 {
      OwnedBelow(n - 1, items, id);
      ModSmall(n - 1, items);
    }
  }

  /** From one owned element up to the next there is exactly one owned element. */
  lemma {:induction false} OwnedNext(at: nat, n: nat, items: nat, id: nat)
    requires items > 0 && at % items == id && at < n <= at + items
    ensures Owned(n, items, id) == Owned(at, items, id) + 1
    decreases n
  {
    if n > at + 1 {
      OwnedNext(at, n - 1, items, id);
      if (n - 1) % items == id {
        Spacing(at, n - 1, items);
      }
    }
  }

  // ---- the invariant -----------------------------------------------------------------------

  /** Stores to s2[idx] and s1[idx] that the owner of a low element has made. */
  ghost function LowStores(g: Group, pc: Pc, idx: nat): nat {
    match pc
    case InitLow(at, store) => if idx < at then 2 * g.lanes else if idx == at then store else 0
    case _ => 2 * g.lanes
  }

  ghost function HighStores(g: Group, pc: Pc, idx: nat): nat {
    match pc
    case InitLow(_, _) => 0
    case InitHigh(at, store) => if idx < at then g.lanes else if idx == at then store else 0
    case _ => g.lanes
  }

  /** Lines `s1[idx] = s1[idx] + s2[idx] + s2[2*idx]` the owner has executed. */
  ghost function Additions(pc: Pc, idx: nat): nat {
    match pc
    case Accumulate(at, i, line) => if idx < at then 10000 else if idx == at then 100 * i + line else 0
    case Flush(_) => 10000
    case Done => 10000
    case _ => 0
  }

  ghost function Flushed(g: Group, id: nat, pc: Pc): nat
    requires g.items > 0
  {
    match pc
    case Flush(at) => Owned(at, g.items, id)
    case Done => Owned(g.elements, g.items, id)
    case _ => 0
  }

  ghost predicate Filled(c: Cell, value: real) {
    forall lane :: 0 <= lane < |c| ==> c[lane] == value
  }

  ghost predicate LowOk(g: Group, s: State, idx: nat)
    requires Shape(g, s) && idx < g.elements
  {
    var pc := s.pc[idx % g.items];
    && (forall lane :: 0 <= lane < g.lanes && lane < LowStores(g, pc, idx) ==> s.s2[idx][lane] == 0.5)
    && (forall lane :: 0 <= lane < g.lanes && lane + g.lanes < LowStores(g, pc, idx) ==>
          s.s1[idx][lane] == Additions(pc, idx) as real)
  }

  ghost predicate HighOk(g: Group, s: State, idx: nat)
    requires Shape(g, s) && g.elements <= idx < 2 * g.elements
  {
    var pc := s.pc[(idx - g.elements) % g.items];
    forall lane :: 0 <= lane < g.lanes && lane < HighStores(g, pc, idx) ==> s.s2[idx][lane] == 0.5
  }

  /** What one finished element adds to the output: 100 * 100 times 0.5 + 0.5 in every lane. */
  ghost function ElementTotal(g: Group): real {
    Times(10000.0, g.lanes)
  }

  /** x added k times. */
  ghost function Times(x: real, k: nat): real {
    if k == 0 then 0.0 else Times(x, k - 1) + x
  }

  lemma {:induction false} TimesIsProduct(x: real, k: nat)
    ensures Times(x, k) == x * k as real
  {
    if k > 0 {
      TimesIsProduct(x, k - 1);
    }
  }

  lemma {:induction false} TimesAdds(x: real, a: nat, b: nat)
    ensures Times(x, a + b) == Times(x, a) + Times(x, b)
  {
    if b > 0 {
      TimesAdds(x, a, b - 1);
      assert a + b - 1 == a + (b - 1);
    }
  }

  ghost predicate OutputOk(g: Group, before: seq<real>, s: State, id: nat)
    requires Shape(g, s) && |before| == |s.output| && id < g.items
  {
    s.output[g.base + id]
    == before[g.base + id] + Times(ElementTotal(g), Flushed(g, id, s.pc[id]))
  }

  /**
   * Every statement is inside its loop and on an element of its own work-item, and no work-item
   * has left the barrier while another has not reached it.
   */
  ghost predicate ControlOk(g: Group, s: State)
    requires Shape(g, s)
  {
    && (forall id :: 0 <= id < g.items ==> InBounds(g, s.pc[id]) && Owns(g, id, s.pc[id]))
    && (forall a, b :: 0 <= a < g.items && 0 <= b < g.items && AfterBarrier(s.pc[a]) ==>
          !BeforeBarrier(s.pc[b]))
  }

  /** `before` is the output buffer at launch. */
  ghost predicate Invariant(g: Group, before: seq<real>, s: State) {
    && Shape(g, s) && |before| == |s.output|
    && ControlOk(g, s)
    && (forall idx: nat :: idx < g.elements ==> LowOk(g, s, idx))
    && (forall idx: nat :: g.elements <= idx < 2 * g.elements ==> HighOk(g, s, idx))
    && (forall id: nat :: id < g.items ==> OutputOk(g, before, s, id))
    && (forall k :: 0 <= k < |before| && !(g.base <= k < g.base + g.items) ==> s.output[k] == before[k])
  }

  // ---- what one statement changes, seen from one work-item -----------------------------------

  ghost predicate Placed(g: Group, id: nat, pc: Pc) {
    g.items > 0 && g.lanes > 0 && id < g.items && InBounds(g, pc) && Owns(g, id, pc)
  }

  lemma NextPlaced(g: Group, id: nat, pc: Pc)
    requires Placed(g, id, pc)
    ensures Placed(g, id, Next(g, id, pc))
  {
    ModSmall(id, g.items);
    match pc
    case InitLow(idx, _) => ModStep(idx, g.items);
    case InitHigh(idx, _) => ModStep(idx - g.elements, g.items);
    case Accumulate(idx, _, _) => ModStep(idx, g.items);
    case Flush(idx) => ModStep(idx, g.items);
    case _ =>
  }

  lemma LowStoresNext(g: Group, id: nat, pc: Pc, idx: nat)
    requires Placed(g, id, pc) && idx < g.elements && idx % g.items == id
    ensures LowStores(g, Next(g, id, pc), idx)
            == if pc.InitLow? && pc.idx == idx then pc.store + 1 else LowStores(g, pc, idx)
  {
    if pc.InitLow? && pc.idx < idx {
      Spacing(pc.idx, idx, g.items);
    }
  }

  lemma HighStoresNext(g: Group, id: nat, pc: Pc, idx: nat)
    requires Placed(g, id, pc) && g.elements <= idx < 2 * g.elements && (idx - g.elements) % g.items == id
    ensures HighStores(g, Next(g, id, pc), idx)
            == if pc.InitHigh? && pc.idx == idx then pc.store + 1 else HighStores(g, pc, idx)
  {
    if idx - g.elements < id {
      ModSmall(idx - g.elements, g.items);
    }
    if pc.InitHigh? && pc.idx < idx {
      Spacing(pc.idx - g.elements, idx - g.elements, g.items);
    }
  }

  lemma AdditionsNext(g: Group, id: nat, pc: Pc, idx: nat)
    requires Placed(g, id, pc) && idx < g.elements && idx % g.items == id
    ensures Additions(Next(g, id, pc), idx)
            == if pc.Accumulate? && pc.idx == idx then 100 * pc.i + pc.line + 1 else Additions(pc, idx)
  {
    if idx < id {
      ModSmall(idx, g.items);
    }
    if pc.Accumulate? && pc.idx < idx {
      Spacing(pc.idx, idx, g.items);
    }
  }

  lemma FlushedNext(g: Group, id: nat, pc: Pc)
    requires Placed(g, id, pc)
    ensures Flushed(g, id, Next(g, id, pc)) == Flushed(g, id, pc) + (if pc.Flush? then 1 else 0)
  {
    OwnedBelow(if g.elements < id then g.elements else id, g.items, id);
    if pc.Flush? {
      OwnedNext(pc.idx, if pc.idx + g.items < g.elements then pc.idx + g.items else g.elements, g.items, id);
    }
  }

  // ---- every step keeps the invariant --------------------------------------------------------

  lemma {:induction false} LaneSumFilled(c: Cell, value: real)
    requires Filled(c, value)
    ensures LaneSum(c) == Times(value, |c|)
  {
    if c != [] {
      LaneSumFilled(c[..|c| - 1], value);
    }
  }

  /** Once a work-item is past the barrier, every element of s2 holds 0.5 in every lane. */
  lemma SourceReady(g: Group, before: seq<real>, s: State, id: nat, idx: nat)
    requires Invariant(g, before, s) && id < g.items && AfterBarrier(s.pc[id]) && idx < 2 * g.elements
    ensures Filled(s.s2[idx], 0.5)
  {
    if idx < g.elements {
      assert LowOk(g, s, idx) && !BeforeBarrier(s.pc[idx % g.items]);
    } else {
      assert HighOk(g, s, idx) && !BeforeBarrier(s.pc[(idx - g.elements) % g.items]);
    }
  }

  lemma LowKept(g: Group, before: seq<real>, s: State, id: nat, t: State, idx: nat)
    requires Invariant(g, before, s) && Step(g, s, id, t) && Shape(g, t) && idx < g.elements
    ensures LowOk(g, t, idx)
  {
    assert LowOk(g, s, idx);
    if idx % g.items == id {
      LowStoresNext(g, id, s.pc[id], idx);
      AdditionsNext(g, id, s.pc[id], idx);
      if s.pc[id].Accumulate? && s.pc[id].idx == idx {
        SourceReady(g, before, s, id, idx);
        SourceReady(g, before, s, id, 2 * idx);
      }
    }
  }

  lemma HighKept(g: Group, before: seq<real>, s: State, id: nat, t: State, idx: nat)
    requires Invariant(g, before, s) && Step(g, s, id, t) && Shape(g, t)
    requires g.elements <= idx < 2 * g.elements
    ensures HighOk(g, t, idx)
  {
    assert HighOk(g, s, idx);
    if (idx - g.elements) % g.items == id {
      HighStoresNext(g, id, s.pc[id], idx);
    }
  }

  lemma OutputKept(g: Group, before: seq<real>, s: State, id: nat, t: State, other: nat)
    requires Step(g, s, id, t) && Shape(g, t) && other < g.items && Placed(g, id, s.pc[id])
    requires |before| == |s.output| && OutputOk(g, before, s, other)
    requires s.pc[id].Flush? ==> LaneSum(s.s1[s.pc[id].idx]) == ElementTotal(g)
    ensures |t.output| == |before| && OutputOk(g, before, t, other)
  {
    if other == id {
      FlushedNext(g, id, s.pc[id]);
    }
  }

  lemma FlushedElement(g: Group, before: seq<real>, s: State, id: nat)
    requires Invariant(g, before, s) && id < g.items && s.pc[id].Flush?
    ensures LaneSum(s.s1[s.pc[id].idx]) == ElementTotal(g)
  {
    assert LowOk(g, s, s.pc[id].idx);
    LaneSumFilled(s.s1[s.pc[id].idx], 10000.0);
  }

  lemma ControlKept(g: Group, before: seq<real>, s: State, id: nat, t: State)
    requires Invariant(g, before, s) && Step(g, s, id, t)
    ensures Shape(g, t) && ControlOk(g, t)
  {
    NextPlaced(g, id, s.pc[id]);
  }

  lemma StepKeepsInvariant(g: Group, before: seq<real>, s: State, id: nat, t: State)
    requires Invariant(g, before, s) && Step(g, s, id, t)
    ensures Invariant(g, before, t)
  {
    ControlKept(g, before, s, id, t);
    if s.pc[id].Flush? {
      FlushedElement(g, before, s, id);
    }
    forall idx: nat | idx < g.elements
      ensures LowOk(g, t, idx)
    {
      LowKept(g, before, s, id, t, idx);
    }
    forall idx: nat | g.elements <= idx < 2 * g.elements
      ensures HighOk(g, t, idx)
    {
      HighKept(g, before, s, id, t, idx);
    }
    forall other: nat | other < g.items
      ensures OutputOk(g, before, t, other)
    {
      assert OutputOk(g, before, s, other);
      OutputKept(g, before, s, id, t, other);
    }
  }

  lemma InitialInvariant(g: Group, s: State)
    requires Initial(g, s)
    ensures Invariant(g, s.output, s)
  {
    forall id | 0 <= id < g.items
      ensures Placed(g, id, s.pc[id]) && OutputOk(g, s.output, s, id)
    {
      ModSmall(id, g.items);
      OwnedBelow(if g.elements < id then g.elements else id, g.items, id);
    }
    forall idx: nat | idx < g.elements
      ensures LowOk(g, s, idx)
    {
      OwnerOfFirst(g, idx);
    }
    forall idx: nat | g.elements <= idx < 2 * g.elements
      ensures HighOk(g, s, idx)
    {
      OwnerOfFirst(g, idx - g.elements);
    }
  }

  /** The owner of an element is not beyond it. */
  lemma OwnerOfFirst(g: Group, idx: nat)
    requires g.items > 0
    ensures idx % g.items <= idx
  {
  }

  lemma {:induction false} RunInvariant(g: Group, run: seq<State>, sched: seq<nat>, k: nat)
    requires Run(g, run, sched) && k < |run|
    ensures Invariant(g, run[0].output, run[k])
  {
    if k == 0 {
      InitialInvariant(g, run[0]);
    } else {
      RunInvariant(g, run, sched, k - 1);
      StepKeepsInvariant(g, run[0].output, run[k - 1], sched[k - 1], run[k]);
    }
  }

  // ---- one final state for all interleavings -------------------------------------------------

  ghost function FinalState(g: Group, before: seq<real>): State
    requires g.items > 0
  {
    State(seq(g.items, _ => Done),
          seq(g.elements, _ => seq(g.lanes, _ => 10000.0)),
          seq(2 * g.elements, _ => seq(g.lanes, _ => 0.5)),
          seq(|before|, k requires 0 <= k < |before| =>
                if g.base <= k < g.base + g.items
                then before[k] + Times(ElementTotal(g), Owned(g.elements, g.items, k - g.base))
                else before[k]))
  }

  lemma DoneIsFinal(g: Group, before: seq<real>, s: State)
    requires Invariant(g, before, s) && AllDone(s)
    ensures s == FinalState(g, before)
  {
    var f := FinalState(g, before);
    assert s.pc == f.pc;
    forall idx: nat | idx < g.elements
      ensures s.s1[idx] == f.s1[idx] && s.s2[idx] == f.s2[idx]
    {
      assert LowOk(g, s, idx);
    }
    forall idx: nat | g.elements <= idx < 2 * g.elements
      ensures s.s2[idx] == f.s2[idx]
    {
      assert HighOk(g, s, idx);
    }
    forall k: nat | k < |before|
      ensures s.output[k] == f.output[k]
    {
      if g.base <= k < g.base + g.items {
        assert OutputOk(g, before, s, k - g.base);
      }
    }
    assert s.s1 == f.s1 && s.s2 == f.s2 && s.output == f.output;
  }

  /** In a reachable state that is not final, some work-item can execute its next statement. */
  lemma SomeoneMoves(g: Group, before: seq<real>, s: State) returns (id: nat)
    requires Invariant(g, before, s) && !AllDone(s)
    ensures id < g.items && Step(g, s, id, Execute(g, s, id))
  {
    if exists early :: 0 <= early < g.items && BeforeBarrier(s.pc[early]) {
      id :| id < g.items && BeforeBarrier(s.pc[id]);
    } else {
      id :| id < g.items && s.pc[id] != Done;
    }
  }

  /** An upper bound for the statements a work-item still has to execute. */
  ghost function Remaining(g: Group, pc: Pc): nat
    requires InBounds(g, pc)
  {
    match pc
    case InitLow(idx, store) =>
      AfterInit(g) + Block(g.lanes, g.elements) + Block(2 * g.lanes, g.elements - idx) + (2 * g.lanes - store)
    case InitHigh(idx, store) => AfterInit(g) + Block(g.lanes, 2 * g.elements - idx) + (g.lanes - store)
    case Waiting => AfterInit(g)
    case Accumulate(idx, i, line) => g.elements + 10000 * (g.elements - idx) - (100 * i + line)
    case Flush(idx) => g.elements - idx
    case Done => 0
  }

  ghost function AfterInit(g: Group): nat {
    10001 * g.elements + 1
  }

  ghost function Block(width: nat, elements: nat): nat {
    width * elements
  }

  lemma FewerElements(width: nat, fewer: nat, elements: nat)
    requires fewer < elements
    ensures Block(width, fewer) + width <= Block(width, elements)
  {
    MulMonotone(fewer + 1, elements, width);
  }

  lemma RemainingDrops(g: Group, id: nat, pc: Pc)
    requires Placed(g, id, pc) && pc != Done
    ensures InBounds(g, Next(g, id, pc)) && Remaining(g, Next(g, id, pc)) < Remaining(g, pc)
  {
    NextPlaced(g, id, pc);
    if pc.InitLow? {
      InitLowDrops(g, id, pc);
    } else if pc.InitHigh? && pc.idx + g.items < 2 * g.elements {
      FewerElements(g.lanes, 2 * g.elements - (pc.idx + g.items), 2 * g.elements - pc.idx);
    }
  }

  lemma InitLowDrops(g: Group, id: nat, pc: Pc)
    requires Placed(g, id, pc) && pc.InitLow? && InBounds(g, Next(g, id, pc))
    ensures Remaining(g, Next(g, id, pc)) < Remaining(g, pc)
  {
    FewerElements(2 * g.lanes, 0, g.elements - pc.idx);
    if pc.idx + g.items < g.elements {
      FewerElements(2 * g.lanes, g.elements - (pc.idx + g.items), g.elements - pc.idx);
    }
    if 0 < id < g.elements {
      FewerElements(g.lanes, g.elements - id, g.elements);
    }
  }

  ghost function TotalRemaining(g: Group, pcs: seq<Pc>): nat
    requires forall k :: 0 <= k < |pcs| ==> InBounds(g, pcs[k])
  {
    if pcs == [] then 0 else Remaining(g, pcs[0]) + TotalRemaining(g, pcs[1..])
  }

  lemma {:induction false} TotalDrops(g: Group, pcs: seq<Pc>, id: nat, pc: Pc)
    requires forall k :: 0 <= k < |pcs| ==> InBounds(g, pcs[k])
    requires id < |pcs| && InBounds(g, pc) && Remaining(g, pc) < Remaining(g, pcs[id])
    ensures TotalRemaining(g, pcs[id := pc]) < TotalRemaining(g, pcs)
  {
    if id == 0 {
      assert pcs[0 := pc][1..] == pcs[1..];
    } else {
      TotalDrops(g, pcs[1..], id - 1, pc);
      assert pcs[id := pc][1..] == pcs[1..][id - 1 := pc];
    }
  }

  /** No run is longer than the bound its initial state gives. */
  lemma {:induction false} RunBound(g: Group, run: seq<State>, sched: seq<nat>, k: nat)
    requires Run(g, run, sched) && k < |run|
    ensures Invariant(g, run[0].output, run[0]) && Invariant(g, run[0].output, run[k])
    ensures k + TotalRemaining(g, run[k].pc) <= TotalRemaining(g, run[0].pc)
  {
    RunInvariant(g, run, sched, 0);
    RunInvariant(g, run, sched, k);
    if k > 0 {
      RunBound(g, run, sched, k - 1);
      var s, id := run[k - 1], sched[k - 1];
      RemainingDrops(g, id, s.pc[id]);
      TotalDrops(g, s.pc, id, Next(g, id, s.pc[id]));
    }
  }

  /**
   * Main result. Whatever the scheduler does and whatever local memory held, every run is finite,
   * and a run that cannot be continued has reached the one final state, in which every lane of s1
   * is 10000.
   */
  lemma EveryRunEndsTheSame(g: Group, run: seq<State>, sched: seq<nat>)
    requires Run(g, run, sched)
    ensures Invariant(g, run[0].output, run[0]) && |sched| <= TotalRemaining(g, run[0].pc)
    ensures (forall id: nat, t :: !Step(g, run[|sched|], id, t)) <==> AllDone(run[|sched|])
    ensures AllDone(run[|sched|]) ==> run[|sched|] == FinalState(g, run[0].output)
  {
    RunBound(g, run, sched, |sched|);
    var last := run[|sched|];
    if AllDone(last) {
      DoneIsFinal(g, run[0].output, last);
    } else {
      var id := SomeoneMoves(g, run[0].output, last);
    }
  }

  // ---- what the group adds to the output -----------------------------------------------------

  ghost function RangeSum(values: seq<real>, lo: nat, count: nat): real
    requires lo + count <= |values|
  {
    if count == 0 then 0.0 else RangeSum(values, lo, count - 1) + values[lo + count - 1]
  }

  ghost function OwnedByFirst(n: nat, items: nat, count: nat): nat
    requires items > 0
  {
    if count == 0 then 0 else OwnedByFirst(n, items, count - 1) + Owned(n, items, count - 1)
  }

  lemma {:induction false} OwnedByFirstStep(n: nat, items: nat, count: nat)
    requires items > 0 && n > 0
    ensures OwnedByFirst(n, items, count)
            == OwnedByFirst(n - 1, items, count) + (if (n - 1) % items < count then 1 else 0)
  {
    if count > 0 {
      OwnedByFirstStep(n, items, count - 1);
    }
  }

  /** The strided loops share the elements out: each belongs to exactly one work-item. */
  lemma {:induction false} StridesPartition(n: nat, items: nat)
    requires items > 0
    ensures OwnedByFirst(n, items, items) == n
  {
    if n == 0 {
      NothingOwned(items, items);
    } else {
      StridesPartition(n - 1, items);
      OwnedByFirstStep(n, items, items);
    }
  }

  lemma {:induction false} NothingOwned(items: nat, count: nat)
    requires items > 0
    ensures OwnedByFirst(0, items, count) == 0
  {
    if count > 0 {
      NothingOwned(items, count - 1);
    }
  }

  lemma {:induction false} FinalRangeSum(g: Group, before: seq<real>, count: nat)
    requires 0 < g.items && count <= g.items && g.base + g.items <= |before|
    ensures RangeSum(FinalState(g, before).output, g.base, count)
            == RangeSum(before, g.base, count)
               + Times(ElementTotal(g), OwnedByFirst(g.elements, g.items, count))
  {
    if count > 0 {
      FinalRangeSum(g, before, count - 1);
      TimesAdds(ElementTotal(g), OwnedByFirst(g.elements, g.items, count - 1),
                Owned(g.elements, g.items, count - 1));
    }
  }

  lemma TotalIsProduct(g: Group)
    ensures Times(ElementTotal(g), g.elements) == 10000.0 * g.lanes as real * g.elements as real
  {
    TimesIsProduct(ElementTotal(g), g.elements);
    TimesIsProduct(10000.0, g.lanes);
  }

  lemma GroupTimes(g: Group, before: seq<real>)
    requires g.items > 0 && g.base + g.items <= |before|
    ensures RangeSum(FinalState(g, before).output, g.base, g.items)
            == RangeSum(before, g.base, g.items) + Times(ElementTotal(g), g.elements)
  {
    FinalRangeSum(g, before, g.items);
    StridesPartition(g.elements, g.items);
  }

  /** The group adds 10000 * ELEMENTS * lanes to its part of the output, for every local size. */
  lemma GroupTotal(g: Group, before: seq<real>)
    requires g.items > 0 && g.base + g.items <= |before|
    ensures RangeSum(FinalState(g, before).output, g.base, g.items)
            == RangeSum(before, g.base, g.items) + 10000.0 * g.lanes as real * g.elements as real
  {
    GroupTimes(g, before);
    TotalIsProduct(g);
  }

  /**
   * Every complete run adds 10000 * ELEMENTS * 2^VEC to the group's part of the output and touches
   * nothing else of it.
   */
  lemma RunTotal(vec: nat, g: Group, run: seq<State>, sched: seq<nat>)
    requires vec <= 4 && g.lanes == Lanes(vec) && Run(g, run, sched) && AllDone(run[|sched|])
    ensures var before, after := run[0].output, run[|sched|].output;
            && |after| == |before| && g.base + g.items <= |before|
            && RangeSum(after, g.base, g.items)
               == RangeSum(before, g.base, g.items) + 10000.0 * Power2(vec) as real * g.elements as real
            && forall k :: 0 <= k < |before| && !(g.base <= k < g.base + g.items) ==> after[k] == before[k]
  {
    EveryRunEndsTheSame(g, run, sched);
    GroupTotal(g, run[0].output);
    LanesArePower(vec);
  }
}
