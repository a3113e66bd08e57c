/**
 * The work-items of a group in kernel local_mem: which memory their statements touch, which of them
 * conflict, and which order the barrier gives.
 */
module MemStreamingRaces {
  import opened Arithmetic
  import opened MemStreaming

  /** One lane of an element of local memory, or one entry of the output buffer. */
  datatype Location = S1At(idx: nat, lane: nat) | S2At(idx: nat, lane: nat) | OutputAt(gid: nat)

  ghost predicate Writes(g: Group, id: nat, pc: Pc, loc: Location) {
    match pc
    case InitLow(idx, store) =>
      if store < g.lanes then loc == S2At(idx, store) else loc == S1At(idx, store - g.lanes)
    case InitHigh(idx, store) => loc == S2At(idx, store)
    case Accumulate(idx, _, _) => loc.S1At? && loc.idx == idx
    case Flush(idx) => loc == OutputAt(g.base + id)
    case _ => false
  }

  ghost predicate Reads(g: Group, id: nat, pc: Pc, loc: Location) {
    match pc
    case Accumulate(idx, _, _) =>
      (loc.S1At? && loc.idx == idx) || (loc.S2At? && (loc.idx == idx || loc.idx == 2 * idx))
    case Flush(idx) => loc == OutputAt(g.base + id) || (loc.S1At? && loc.idx == idx)
    case _ => false
  }

  /** The location is part of local memory or of the output buffer. */
  ghost predicate InMemory(g: Group, s: State, loc: Location) {
    match loc
    case S1At(idx, lane) => idx < g.elements && lane < g.lanes
    case S2At(idx, lane) => idx < 2 * g.elements && lane < g.lanes
    case OutputAt(gid) => gid < |s.output|
  }

  ghost function ValueAt(g: Group, s: State, loc: Location): real
    requires Shape(g, s) && InMemory(g, s, loc)
  {
    match loc
    case S1At(idx, lane) => s.s1[idx][lane]
    case S2At(idx, lane) => s.s2[idx][lane]
    case OutputAt(gid) => s.output[gid]
  }

  /** A statement changes no location but those of Writes, and no other work-item's place. */
  lemma WritesOnly(g: Group, s: State, id: nat, loc: Location)
    requires Shape(g, s) && id < g.items && InBounds(g, s.pc[id]) && InMemory(g, s, loc)
    requires !Writes(g, id, s.pc[id], loc)
    ensures Shape(g, Execute(g, s, id)) && InMemory(g, Execute(g, s, id), loc)
    ensures ValueAt(g, Execute(g, s, id), loc) == ValueAt(g, s, loc)
    ensures forall other :: 0 <= other < g.items && other != id ==> Execute(g, s, id).pc[other] == s.pc[other]
  {
  }

  /** In both states the locations that the statement reads hold the same values. */
  ghost predicate SameReads(g: Group, s: State, r: State, id: nat, pc: Pc)
    requires Shape(g, s) && Shape(g, r) && |s.output| == |r.output|
  {
    forall loc :: InMemory(g, s, loc) && Reads(g, id, pc, loc) ==> ValueAt(g, s, loc) == ValueAt(g, r, loc)
  }

  /** What a statement writes depends on the locations of Reads only. */
  lemma ReadsOnly(g: Group, s: State, r: State, id: nat, loc: Location)
    requires Shape(g, s) && Shape(g, r) && |s.output| == |r.output| && id < g.items
    requires s.pc[id] == r.pc[id] && InBounds(g, s.pc[id]) && SameReads(g, s, r, id, s.pc[id])
    requires InMemory(g, s, loc) && Writes(g, id, s.pc[id], loc)
    ensures Shape(g, Execute(g, s, id)) && Shape(g, Execute(g, r, id))
    ensures ValueAt(g, Execute(g, s, id), loc) == ValueAt(g, Execute(g, r, id), loc)
    ensures Execute(g, s, id).pc[id] == Execute(g, r, id).pc[id]
  {
    match s.pc[id]
    case Accumulate(idx, _, _) =>
      assert ValueAt(g, s, S1At(idx, loc.lane)) == ValueAt(g, r, S1At(idx, loc.lane));
      assert ValueAt(g, s, S2At(idx, loc.lane)) == ValueAt(g, r, S2At(idx, loc.lane));
      assert ValueAt(g, s, S2At(2 * idx, loc.lane)) == ValueAt(g, r, S2At(2 * idx, loc.lane));
    case Flush(idx) =>
      forall lane: nat | lane < g.lanes
        ensures s.s1[idx][lane] == r.s1[idx][lane]
      {
        assert ValueAt(g, s, S1At(idx, lane)) == ValueAt(g, r, S1At(idx, lane));
      }
      assert s.s1[idx] == r.s1[idx];
      assert ValueAt(g, s, loc) == ValueAt(g, r, loc);
    case _ =>
  }

  /** What a statement stores, for memory with any contents. */
  lemma WrittenValue(g: Group, s: State, id: nat, loc: Location)
    requires Shape(g, s) && id < g.items && InBounds(g, s.pc[id])
    requires InMemory(g, s, loc) && Writes(g, id, s.pc[id], loc)
    ensures Shape(g, Execute(g, s, id))
    ensures var value := ValueAt(g, Execute(g, s, id), loc);
            match s.pc[id]
            case Accumulate(idx, _, _) =>
              value == s.s1[idx][loc.lane] + s.s2[idx][loc.lane] + s.s2[2 * idx][loc.lane]
            case Flush(idx) => value == s.output[g.base + id] + LaneSum(s.s1[idx])
            case _ => value == if loc.S1At? then 0.0 else 0.5
  {
  }

  /** The state with another value at one location. */
  ghost function Store(g: Group, s: State, loc: Location, value: real): State
    requires Shape(g, s) && InMemory(g, s, loc)
  {
    match loc
    case S1At(idx, lane) => s.(s1 := s.s1[idx := s.s1[idx][lane := value]])
    case S2At(idx, lane) => s.(s2 := s.s2[idx := s.s2[idx][lane := value]])
    case OutputAt(gid) => s.(output := s.output[gid := value])
  }

  lemma {:induction false} LaneSumUpdate(c: Cell, lane: nat, value: real)
    requires lane < |c|
    ensures LaneSum(c[lane := value]) == LaneSum(c) - c[lane] + value
  {
    var front := c[..|c| - 1];
    if lane < |c| - 1 {
      LaneSumUpdate(front, lane, value);
      assert c[lane := value][..|c| - 1] == front[lane := value];
    } else {
      assert c[lane := value][..|c| - 1] == front;
    }
  }

  /** Every location of Reads matters: another value there makes the statement store another value. */
  lemma ReadsAll(g: Group, s: State, id: nat, loc: Location) returns (at: Location)
    requires Shape(g, s) && id < g.items && InBounds(g, s.pc[id])
    requires InMemory(g, s, loc) && Reads(g, id, s.pc[id], loc)
    ensures var r := Store(g, s, loc, ValueAt(g, s, loc) + 1.0);
            && Shape(g, r) && r.pc == s.pc
            && InMemory(g, s, at) && Writes(g, id, s.pc[id], at)
            && Shape(g, Execute(g, s, id)) && Shape(g, Execute(g, r, id))
            && ValueAt(g, Execute(g, s, id), at) != ValueAt(g, Execute(g, r, id), at)
  {
    var r := Store(g, s, loc, ValueAt(g, s, loc) + 1.0);
    match s.pc[id]
    case Accumulate(idx, _, _) =>
      at := S1At(idx, loc.lane);
    case Flush(idx) =>
      at := OutputAt(g.base + id);
      if loc.S1At? {
        LaneSumUpdate(s.s1[idx], loc.lane, s.s1[idx][loc.lane] + 1.0);
      }
  }

  /** Statements separated by the barrier. */
  ghost predicate Ordered(p: Pc, q: Pc) {
    (BeforeBarrier(p) && AfterBarrier(q)) || (AfterBarrier(p) && BeforeBarrier(q))
  }

  /** Two statements of different work-items meet in a location that the first of them writes. */
  ghost predicate Conflict(g: Group, a: nat, p: Pc, b: nat, q: Pc, loc: Location) {
    && a != b && Placed(g, a, p) && Placed(g, b, q)
    && Writes(g, a, p, loc) && (Writes(g, b, q, loc) || Reads(g, b, q, loc))
  }

  /** Conflicts occur across the barrier only: an initialising store and a read of s2[2 * idx]. */
  lemma NoConflict(g: Group, a: nat, p: Pc, b: nat, q: Pc, loc: Location)
    requires Conflict(g, a, p, b, q, loc)
    ensures BeforeBarrier(p) && q.Accumulate? && loc.S2At? && loc.idx == 2 * q.idx && Ordered(p, q)
  {
  }

  /** The barrier is needed iff the group has two work-items and two elements. */
  lemma NeedsBarrierIff(g: Group)
    requires g.items > 0 && g.lanes > 0
    ensures (exists a: nat, p, b: nat, q, loc :: Conflict(g, a, p, b, q, loc)) <==> g.items >= 2 && g.elements >= 2
  {
    if a: nat, p, b: nat, q, loc :| Conflict(g, a, p, b, q, loc) {
      NoConflict(g, a, p, b, q, loc);
      if g.elements == 1 {
        ModSmall(0, g.items);
      }
    }
    if g.items >= 2 && g.elements >= 2 {
      ModSmall(1, g.items);
      var a, p := if g.items == 2 || g.elements == 2 then 0 else 2,
                  if g.elements == 2 then InitHigh(2, 0) else InitLow(2, 0);
      FirstEvenElement(g);
      assert Conflict(g, a, p, 1, Accumulate(1, 0, 0), S2At(2, 0));
    }
  }

  /** Where a kernel keeps its two arrays: local_mem in local memory, global_mem in global memory. */
  datatype MemoryKind = LocalMemory | GlobalMemory

  /**
   * The order barrier(CLK_LOCAL_MEM_FENCE) promises for accesses to the arrays: it is a fence for
   * local memory only (section 6.11.8 of OpenCL 1.1).
   */
  ghost predicate OrderedByFence(kind: MemoryKind, p: Pc, q: Pc) {
    kind == LocalMemory && Ordered(p, q)
  }

  /** Two work-items have statements that conflict, and nothing orders them. */
  ghost predicate HasRace(g: Group, kind: MemoryKind) {
    exists a: nat, p, b: nat, q, loc :: Conflict(g, a, p, b, q, loc) && !OrderedByFence(kind, p, q)
  }

  /**
   * local_mem has no race; global_mem, which executes the same statements in one work-group, has one
   * iff there are two work-items and two elements.
   */
  lemma HasRaceIff(g: Group, kind: MemoryKind)
    requires g.items > 0 && g.lanes > 0
    ensures HasRace(g, kind) <==> kind == GlobalMemory && g.items >= 2 && g.elements >= 2
  {
    NeedsBarrierIff(g);
    if a: nat, p, b: nat, q, loc :| Conflict(g, a, p, b, q, loc) && !OrderedByFence(kind, p, q) {
      NoConflict(g, a, p, b, q, loc);
    }
    if kind == GlobalMemory && g.items >= 2 && g.elements >= 2 {
      var a: nat, p, b: nat, q, loc :| Conflict(g, a, p, b, q, loc);
      assert !OrderedByFence(kind, p, q);
    }
  }

  /** Element 2 belongs to another work-item than element 1. */
  lemma FirstEvenElement(g: Group)
    requires g.items >= 2
    ensures 2 % g.items == if g.items == 2 then 0 else 2
    ensures 0 % g.items == 0
  {
  }

  /** Statements of different work-items on the same side of the barrier touch different memory. */
  lemma SeparateMemory(g: Group, a: nat, p: Pc, b: nat, q: Pc)
    requires a != b && Placed(g, a, p) && Placed(g, b, q) && !Ordered(p, q)
    ensures forall loc :: !(Writes(g, a, p, loc) && (Writes(g, b, q, loc) || Reads(g, b, q, loc)))
  {
    forall loc | Writes(g, a, p, loc) && (Writes(g, b, q, loc) || Reads(g, b, q, loc))
      ensures false
    {
      NoConflict(g, a, p, b, q, loc);
    }
  }

  /** Executing a and b, in this order, leaves at every location what b and a leave. */
  lemma SameAt(g: Group, s: State, a: nat, b: nat, loc: Location)
    requires Shape(g, s) && a < g.items && b < g.items && a != b && InMemory(g, s, loc)
    requires Placed(g, a, s.pc[a]) && Placed(g, b, s.pc[b]) && !Ordered(s.pc[a], s.pc[b])
    requires Shape(g, Execute(g, s, a)) && Shape(g, Execute(g, s, b))
    requires Execute(g, s, a).pc[b] == s.pc[b] && Execute(g, s, b).pc[a] == s.pc[a]
    requires !Writes(g, b, s.pc[b], loc)
    ensures Shape(g, Execute(g, Execute(g, s, a), b)) && Shape(g, Execute(g, Execute(g, s, b), a))
    ensures InMemory(g, Execute(g, Execute(g, s, a), b), loc) && InMemory(g, Execute(g, Execute(g, s, b), a), loc)
    ensures ValueAt(g, Execute(g, Execute(g, s, a), b), loc) == ValueAt(g, Execute(g, Execute(g, s, b), a), loc)
  {
    var sa, sb := Execute(g, s, a), Execute(g, s, b);
    WritesOnly(g, sa, b, loc);
    WritesOnly(g, s, b, loc);
    if Writes(g, a, s.pc[a], loc) {
      SeparateMemory(g, b, s.pc[b], a, s.pc[a]);
      forall l | InMemory(g, s, l) && Reads(g, a, s.pc[a], l)
        ensures ValueAt(g, s, l) == ValueAt(g, sb, l)
      {
        WritesOnly(g, s, b, l);
      }
      ReadsOnly(g, s, sb, a, loc);
    } else {
      WritesOnly(g, s, a, loc);
      WritesOnly(g, sb, a, loc);
    }
  }

  /** A step keeps the shape of the state, and the places of the other work-items. */
  lemma ExecuteKeepsShape(g: Group, s: State, id: nat)
    requires Shape(g, s) && id < g.items && InBounds(g, s.pc[id])
    ensures Shape(g, Execute(g, s, id)) && |Execute(g, s, id).output| == |s.output|
    ensures Execute(g, s, id).pc == s.pc[id := Next(g, id, s.pc[id])]
  {
  }

  /** States with the same places and the same values everywhere are the same. */
  lemma SameState(g: Group, s: State, r: State)
    requires Shape(g, s) && Shape(g, r) && s.pc == r.pc && |s.output| == |r.output|
    requires forall loc :: InMemory(g, s, loc) ==> ValueAt(g, s, loc) == ValueAt(g, r, loc)
    ensures s == r
  {
    forall idx: nat | idx < g.elements
      ensures s.s1[idx] == r.s1[idx]
    {
      forall lane: nat | lane < g.lanes
        ensures s.s1[idx][lane] == r.s1[idx][lane]
      {
        assert ValueAt(g, s, S1At(idx, lane)) == ValueAt(g, r, S1At(idx, lane));
      }
    }
    forall idx: nat | idx < 2 * g.elements
      ensures s.s2[idx] == r.s2[idx]
    {
      forall lane: nat | lane < g.lanes
        ensures s.s2[idx][lane] == r.s2[idx][lane]
      {
        assert ValueAt(g, s, S2At(idx, lane)) == ValueAt(g, r, S2At(idx, lane));
      }
    }
    forall gid: nat | gid < |s.output|
      ensures s.output[gid] == r.output[gid]
    {
      assert ValueAt(g, s, OutputAt(gid)) == ValueAt(g, r, OutputAt(gid));
    }
    assert s.s1 == r.s1 && s.s2 == r.s2 && s.output == r.output;
  }

  /** The barrier does not close again: what b can do now, it can do after a step of a. */
  lemma StaysEnabled(g: Group, s: State, a: nat, b: nat)
    requires Shape(g, s) && a < g.items && b < g.items && a != b && InBounds(g, s.pc[a])
    requires Enabled(s, b)
    ensures |Execute(g, s, a).pc| == g.items && Enabled(Execute(g, s, a), b)
  {
    ExecuteKeepsShape(g, s, a);
  }

  /**
   * In a reachable state, the next statements of any two work-items that can move may be executed in
   * either order, with the same result.
   */
  lemma StepsCommute(g: Group, before: seq<real>, s: State, a: nat, sa: State, b: nat, sb: State)
    returns (t: State)
    requires Invariant(g, before, s) && a != b && Step(g, s, a, sa) && Step(g, s, b, sb)
    ensures Step(g, sa, b, t) && Step(g, sb, a, t)
  {
    ExecuteKeepsShape(g, s, a);
    ExecuteKeepsShape(g, s, b);
    StaysEnabled(g, s, a, b);
    StaysEnabled(g, s, b, a);
    ExecuteKeepsShape(g, sa, b);
    ExecuteKeepsShape(g, sb, a);
    var ab, ba := Execute(g, sa, b), Execute(g, sb, a);
    forall loc | InMemory(g, ab, loc)
      ensures ValueAt(g, ab, loc) == ValueAt(g, ba, loc)
    {
      SeparateMemory(g, a, s.pc[a], b, s.pc[b]);
      if Writes(g, b, s.pc[b], loc) {
        SameAt(g, s, b, a, loc);
      } else {
        SameAt(g, s, a, b, loc);
      }
    }
    SameState(g, ab, ba);
    t := ab;
  }

  /** In no reachable state are two work-items about to execute conflicting statements. */
  lemma RaceFree(g: Group, run: seq<State>, sched: seq<nat>, k: nat, a: nat, b: nat, loc: Location)
    requires Run(g, run, sched) && k < |run| && a < |run[k].pc| && b < |run[k].pc| && a != b
    ensures !Ordered(run[k].pc[a], run[k].pc[b])
    ensures !(Writes(g, a, run[k].pc[a], loc)
              && (Writes(g, b, run[k].pc[b], loc) || Reads(g, b, run[k].pc[b], loc)))
  {
    RunInvariant(g, run, sched, k);
    if Conflict(g, a, run[k].pc[a], b, run[k].pc[b], loc) {
      NoConflict(g, a, run[k].pc[a], b, run[k].pc[b], loc);
    }
  }

  /**
   * Every statement reached is inside its arrays, and what it reads has been written by this
   * launch: both operands from s2 are 0.5 in every lane, and s1 holds a whole number of additions.
   */
  lemma ReadsAreInitialised(g: Group, run: seq<State>, sched: seq<nat>, k: nat, id: nat)
    requires Run(g, run, sched) && k < |run| && id < |run[k].pc|
    ensures Shape(g, run[k]) && InBounds(g, run[k].pc[id])
    ensures run[k].pc[id].Accumulate? ==>
              var idx := run[k].pc[id].idx;
              && 2 * idx < |run[k].s2| && Filled(run[k].s2[idx], 0.5) && Filled(run[k].s2[2 * idx], 0.5)
              && Filled(run[k].s1[idx], (100 * run[k].pc[id].i + run[k].pc[id].line) as real)
    ensures run[k].pc[id].Flush? ==> Filled(run[k].s1[run[k].pc[id].idx], 10000.0)
  {
    RunInvariant(g, run, sched, k);
    var pc := run[k].pc[id];
    if pc.Accumulate? || pc.Flush? {
      assert LowOk(g, run[k], pc.idx);
      SourceReady(g, run[0].output, run[k], id, pc.idx);
      SourceReady(g, run[0].output, run[k], id, 2 * pc.idx);
    }
  }

  // ---- every statement is executed -------------------------------------------------------------

  /** The loops in the order in which a work-item runs through them. */
  ghost function Stage(pc: Pc): nat {
    match pc
    case InitLow(_, _) => 0
    case InitHigh(_, _) => 1
    case Waiting => 2
    case Accumulate(_, _, _) => 3
    case Flush(_) => 4
    case Done => 5
  }

  /** The place inside an element, or 0. */
  ghost function Inner(pc: Pc): nat {
    match pc
    case InitLow(_, store) => store
    case InitHigh(_, store) => store
    case Accumulate(_, i, line) => 100 * i + line
    case _ => 0
  }

  ghost function Element(pc: Pc): nat {
    if pc.Waiting? || pc.Done? then 0 else pc.idx
  }

  /** The order of the statements of one work-item. */
  ghost predicate Later(p: Pc, q: Pc) {
    || Stage(p) < Stage(q)
    || (Stage(p) == Stage(q) && (Element(p) < Element(q) || (Element(p) == Element(q) && Inner(p) < Inner(q))))
  }

  /** The first element of a strided loop is not beyond any element of the work-item. */
  lemma FirstOwned(g: Group, id: nat, idx: nat)
    requires id < g.items && idx % g.items == id
    ensures id <= idx
  {
    if idx < id {
      ModSmall(idx, g.items);
    }
  }

  /** A work-item starts with its first statement. */
  lemma StartsFirst(g: Group, id: nat, q: Pc)
    requires Placed(g, id, q)
    ensures q == EnterLow(g, id, id) || Later(EnterLow(g, id, id), q)
  {
    OwnedAhead(g, id, q);
  }

  /** The elements of a work-item in the loop of a statement start with the first one. */
  lemma OwnedAhead(g: Group, id: nat, q: Pc)
    requires Placed(g, id, q)
    ensures q.InitLow? || q.Accumulate? || q.Flush? ==> id <= q.idx
    ensures q.InitHigh? ==> id + g.elements <= q.idx
  {
    if q.InitLow? || q.Accumulate? || q.Flush? {
      FirstOwned(g, id, q.idx);
    } else if q.InitHigh? {
      FirstOwned(g, id, q.idx - g.elements);
    }
  }

  /** Of two elements of a work-item in one loop, the later one is a stride or more further on. */
  lemma StrideApart(g: Group, id: nat, p: Pc, q: Pc)
    requires Placed(g, id, p) && Placed(g, id, q) && Stage(p) == Stage(q) && Element(p) < Element(q)
    ensures p.idx + g.items <= q.idx
  {
    if p.InitHigh? {
      Spacing(p.idx - g.elements, q.idx - g.elements, g.items);
    } else {
      Spacing(p.idx, q.idx, g.items);
    }
  }

  /** Between a statement and the next one there is no other. */
  lemma NextIsNext(g: Group, id: nat, p: Pc, q: Pc)
    requires Placed(g, id, p) && Placed(g, id, q) && Later(p, q)
    ensures q == Next(g, id, p) || Later(Next(g, id, p), q)
  {
    OwnedAhead(g, id, q);
    if Stage(p) == Stage(q) {
      if Element(p) < Element(q) {
        StrideApart(g, id, p, q);
      }
      SameStage(g, id, p, q);
    } else {
      LaterStage(g, id, p, q);
    }
  }

  lemma SameStage(g: Group, id: nat, p: Pc, q: Pc)
    requires Placed(g, id, p) && Placed(g, id, q) && Later(p, q) && Stage(p) == Stage(q)
    requires Element(p) < Element(q) ==> p.idx + g.items <= q.idx
    ensures q == Next(g, id, p) || Later(Next(g, id, p), q)
  {
  }

  lemma LaterStage(g: Group, id: nat, p: Pc, q: Pc)
    requires Placed(g, id, p) && Placed(g, id, q) && Stage(p) < Stage(q)
    requires q.InitLow? || q.Accumulate? || q.Flush? ==> id <= q.idx
    requires q.InitHigh? ==> id + g.elements <= q.idx
    ensures q == Next(g, id, p) || Later(Next(g, id, p), q)
  {
  }

  /** The work-item executes this statement in step k of the run. */
  ghost predicate ExecutesAt(g: Group, run: seq<State>, sched: seq<nat>, k: nat, id: nat, p: Pc)
    requires Run(g, run, sched) && k < |sched|
  {
    sched[k] == id && id < |run[k].pc| && run[k].pc[id] == p
  }

  ghost predicate Executes(g: Group, run: seq<State>, sched: seq<nat>, n: nat, id: nat, p: Pc)
    requires Run(g, run, sched) && n <= |sched|
  {
    exists k: nat :: k < n && ExecutesAt(g, run, sched, k, id, p)
  }

  /** Up to any point of a run, a work-item has executed all statements but those from its place on. */
  lemma {:induction false} ExecutedSoFar(g: Group, run: seq<State>, sched: seq<nat>, n: nat, id: nat, p: Pc)
    requires Run(g, run, sched) && n <= |sched| && Placed(g, id, p)
    ensures |run[n].pc| == g.items
    ensures Executes(g, run, sched, n, id, p) || p == run[n].pc[id] || Later(run[n].pc[id], p)
  {
    RunInvariant(g, run, sched, n);
    if n == 0 {
      StartsFirst(g, id, p);
    } else {
      ExecutedSoFar(g, run, sched, n - 1, id, p);
      RunInvariant(g, run, sched, n - 1);
      if k: nat :| k < n - 1 && ExecutesAt(g, run, sched, k, id, p) {
        assert Executes(g, run, sched, n, id, p);
      } else if sched[n - 1] == id {
        assert run[n].pc[id] == Next(g, id, run[n - 1].pc[id]);
        if p == run[n - 1].pc[id] {
          assert ExecutesAt(g, run, sched, n - 1, id, p);
        } else {
          NextIsNext(g, id, run[n - 1].pc[id], p);
        }
      }
    }
  }

  /** Every complete run executes every statement of every work-item. */
  lemma EverythingExecuted(g: Group, run: seq<State>, sched: seq<nat>, id: nat, p: Pc)
    requires Run(g, run, sched) && AllDone(run[|sched|]) && Placed(g, id, p) && p != Done
    ensures Executes(g, run, sched, |sched|, id, p)
  {
    ExecutedSoFar(g, run, sched, |sched|, id, p);
    assert run[|sched|].pc[id] == Done;
  }

  /** The run executes two conflicting statements that the fence does not order. */
  ghost predicate RunHasRace(g: Group, kind: MemoryKind, run: seq<State>, sched: seq<nat>)
    requires Run(g, run, sched)
  {
    exists a: nat, p, b: nat, q, loc ::
      && Conflict(g, a, p, b, q, loc) && !OrderedByFence(kind, p, q)
      && Executes(g, run, sched, |sched|, a, p) && Executes(g, run, sched, |sched|, b, q)
  }

  /**
   * In every complete run: with the arrays in local memory there is no race; with the arrays of
   * global_mem there is one iff there are two work-items and two elements.
   */
  lemma RunHasRaceIff(g: Group, kind: MemoryKind, run: seq<State>, sched: seq<nat>)
    requires Run(g, run, sched) && AllDone(run[|sched|])
    ensures RunHasRace(g, kind, run, sched) <==> kind == GlobalMemory && g.items >= 2 && g.elements >= 2
  {
    RunInvariant(g, run, sched, 0);
    HasRaceIff(g, kind);
    if HasRace(g, kind) {
      var a: nat, p, b: nat, q, loc :| Conflict(g, a, p, b, q, loc) && !OrderedByFence(kind, p, q);
      NoConflict(g, a, p, b, q, loc);
      EverythingExecuted(g, run, sched, a, p);
      EverythingExecuted(g, run, sched, b, q);
    }
    if RunHasRace(g, kind, run, sched) {
      var a: nat, p, b: nat, q, loc :|
        && Conflict(g, a, p, b, q, loc) && !OrderedByFence(kind, p, q)
        && Executes(g, run, sched, |sched|, a, p) && Executes(g, run, sched, |sched|, b, q);
      assert HasRace(g, kind);
    }
  }
}
