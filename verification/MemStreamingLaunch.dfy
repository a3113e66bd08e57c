/**
 * A whole launch of kernel local_mem: several work-groups, each with its own local memory, share the
 * output buffer. A step is a statement of one work-item of one group.
 */
module MemStreamingLaunch {
  import opened Arithmetic
  import opened MemStreaming

  datatype Size = Size(groups: nat, elements: nat, items: nat, lanes: nat)

  /** The places of a group's work-items and its local memory. */
  datatype Local = Local(pc: seq<Pc>, s1: seq<Cell>, s2: seq<Cell>)

  datatype Launch = Launch(locals: seq<Local>, output: seq<real>)

  function GroupAt(z: Size, q: nat): Group {
    Group(z.elements, z.items, z.lanes, q * z.items)
  }

  /** What group q sees. */
  function View(l: Launch, q: nat): State
    requires q < |l.locals|
  {
    State(l.locals[q].pc, l.locals[q].s1, l.locals[q].s2, l.output)
  }

  ghost predicate LaunchStep(z: Size, l: Launch, q: nat, id: nat, m: Launch) {
    && |l.locals| == |m.locals| == z.groups && q < z.groups
    && Step(GroupAt(z, q), View(l, q), id, View(m, q))
    && forall other :: 0 <= other < z.groups && other != q ==> m.locals[other] == l.locals[other]
  }

  ghost predicate LaunchInitial(z: Size, l: Launch) {
    |l.locals| == z.groups && forall q: nat :: q < z.groups ==> Initial(GroupAt(z, q), View(l, q))
  }

  /** A run: sched[k] names the group and the work-item that move from run[k] to run[k + 1]. */
  ghost predicate LaunchRun(z: Size, run: seq<Launch>, sched: seq<(nat, nat)>) {
    && |run| == |sched| + 1 && LaunchInitial(z, run[0])
    && forall k :: 0 <= k < |sched| ==> LaunchStep(z, run[k], sched[k].0, sched[k].1, run[k + 1])
  }

  ghost predicate AllGroupsDone(l: Launch) {
    forall q: nat :: q < |l.locals| ==> AllDone(View(l, q))
  }

  // ---- one group, undisturbed ----------------------------------------------------------------

  /** The output buffer as if only this group had written to it. */
  ghost function Masked(g: Group, before: seq<real>, output: seq<real>): (masked: seq<real>)
    requires |before| == |output|
    ensures |masked| == |before|
  {
    seq(|before|, k requires 0 <= k < |before| => if g.base <= k < g.base + g.items then output[k] else before[k])
  }

  ghost function Own(g: Group, before: seq<real>, s: State): State
    requires |before| == |s.output|
  {
    s.(output := Masked(g, before, s.output))
  }

  /** A step of the group is a step of it alone, and changes no output but the work-item's. */
  lemma StepAlone(g: Group, before: seq<real>, s: State, id: nat, t: State)
    requires Step(g, s, id, t) && |before| == |s.output|
    ensures |t.output| == |before| && Step(g, Own(g, before, s), id, Own(g, before, t))
    ensures forall k :: 0 <= k < |before| && k != g.base + id ==> t.output[k] == s.output[k]
  {
    var own := Execute(g, Own(g, before, s), id);
    assert own.output == Masked(g, before, t.output);
  }

  /** The output entries of two groups are different ones. */
  lemma RangesApart(q: nat, other: nat, items: nat, id: nat)
    requires id < items && other != q
    ensures !(other * items <= q * items + id < other * items + items)
  {
    if q < other {
      MulMonotone(q + 1, other, items);
      MulDistributes(q, 1, items);
    } else {
      MulMonotone(other + 1, q, items);
      MulDistributes(other, 1, items);
    }
  }

  lemma RangeInside(q: nat, groups: nat, items: nat)
    requires q < groups
    ensures q * items + items <= groups * items
  {
    MulMonotone(q + 1, groups, items);
    MulDistributes(q, 1, items);
  }

  // ---- the invariant of a launch -------------------------------------------------------------

  ghost predicate GroupOk(z: Size, before: seq<real>, l: Launch, q: nat)
    requires q < |l.locals| && |before| == |l.output|
  {
    Invariant(GroupAt(z, q), before, Own(GroupAt(z, q), before, View(l, q)))
  }

  ghost predicate LaunchInvariant(z: Size, before: seq<real>, l: Launch) {
    && |l.locals| == z.groups && |before| == |l.output|
    && (forall q: nat :: q < z.groups ==> GroupOk(z, before, l, q))
    && forall k :: z.groups * z.items <= k < |before| ==> l.output[k] == before[k]
  }

  lemma InitialLaunch(z: Size, l: Launch)
    requires LaunchInitial(z, l)
    ensures LaunchInvariant(z, l.output, l)
  {
    forall q: nat | q < z.groups
      ensures GroupOk(z, l.output, l, q)
    {
      var g := GroupAt(z, q);
      assert Own(g, l.output, View(l, q)) == View(l, q) by {
        assert Masked(g, l.output, l.output) == l.output;
      }
      InitialInvariant(g, View(l, q));
    }
  }

  /** Another group does not notice the step. */
  lemma OtherGroupKept(z: Size, before: seq<real>, l: Launch, q: nat, id: nat, m: Launch, other: nat)
    requires LaunchStep(z, l, q, id, m) && |before| == |l.output| && other < z.groups && other != q
    ensures |m.output| == |before|
    ensures Own(GroupAt(z, other), before, View(m, other)) == Own(GroupAt(z, other), before, View(l, other))
  {
    StepAlone(GroupAt(z, q), before, View(l, q), id, View(m, q));
    RangesApart(q, other, z.items, id);
    assert Masked(GroupAt(z, other), before, m.output) == Masked(GroupAt(z, other), before, l.output);
  }

  lemma LaunchStepKeeps(z: Size, before: seq<real>, l: Launch, q: nat, id: nat, m: Launch)
    requires LaunchInvariant(z, before, l) && LaunchStep(z, l, q, id, m)
    ensures LaunchInvariant(z, before, m)
  {
    var g := GroupAt(z, q);
    StepAlone(g, before, View(l, q), id, View(m, q));
    RangeInside(q, z.groups, z.items);
    forall other: nat | other < z.groups
      ensures GroupOk(z, before, m, other)
    {
      assert GroupOk(z, before, l, other);
      if other == q {
        StepKeepsInvariant(g, before, Own(g, before, View(l, q)), id, Own(g, before, View(m, q)));
      } else {
        OtherGroupKept(z, before, l, q, id, m, other);
      }
    }
  }

  lemma {:induction false} LaunchRunInvariant(z: Size, run: seq<Launch>, sched: seq<(nat, nat)>, k: nat)
    requires LaunchRun(z, run, sched) && k < |run|
    ensures LaunchInvariant(z, run[0].output, run[k])
  {
    if k == 0 {
      InitialLaunch(z, run[0]);
    } else {
      LaunchRunInvariant(z, run, sched, k - 1);
      LaunchStepKeeps(z, run[0].output, run[k - 1], sched[k - 1].0, sched[k - 1].1, run[k]);
    }
  }

  // ---- how long a launch can run -------------------------------------------------------------

  ghost predicate LocalsInBounds(z: Size, locals: seq<Local>) {
    forall q, id :: 0 <= q < |locals| && 0 <= id < |locals[q].pc| ==> InBounds(GroupAt(z, 0), locals[q].pc[id])
  }

  /** An upper bound for the statements all groups still have to execute. */
  ghost function LaunchRemaining(z: Size, locals: seq<Local>): nat
    requires LocalsInBounds(z, locals)
  {
    if locals == [] then 0
    else
      TotalRemaining(GroupAt(z, 0), locals[0].pc) + LaunchRemaining(z, locals[1..])
  }

  lemma {:induction false} RemainingLess(z: Size, locals: seq<Local>, q: nat, local: Local)
    requires LocalsInBounds(z, locals) && q < |locals|
    requires forall id :: 0 <= id < |local.pc| ==> InBounds(GroupAt(z, 0), local.pc[id])
    requires TotalRemaining(GroupAt(z, 0), local.pc) < TotalRemaining(GroupAt(z, 0), locals[q].pc)
    ensures LocalsInBounds(z, locals[q := local])
    ensures LaunchRemaining(z, locals[q := local]) < LaunchRemaining(z, locals)
    decreases |locals|
  {
    if q == 0 {
      assert locals[0 := local][1..] == locals[1..];
    } else {
      RemainingLess(z, locals[1..], q - 1, local);
      assert locals[q := local][1..] == locals[1..][q - 1 := local];
    }
  }

  lemma InBoundsEverywhere(z: Size, before: seq<real>, l: Launch)
    requires LaunchInvariant(z, before, l)
    ensures LocalsInBounds(z, l.locals)
  {
    forall q, id | 0 <= q < |l.locals| && 0 <= id < |l.locals[q].pc|
      ensures InBounds(GroupAt(z, 0), l.locals[q].pc[id])
    {
      assert GroupOk(z, before, l, q);
    }
  }

  lemma LaunchStepDrops(z: Size, before: seq<real>, l: Launch, q: nat, id: nat, m: Launch)
    requires LaunchInvariant(z, before, l) && LaunchStep(z, l, q, id, m)
    requires LocalsInBounds(z, l.locals) && LocalsInBounds(z, m.locals)
    ensures LaunchRemaining(z, m.locals) < LaunchRemaining(z, l.locals)
  {
    var g, pc := GroupAt(z, 0), l.locals[q].pc;
    assert GroupOk(z, before, l, q);
    assert m.locals[q].pc == pc[id := Next(g, id, pc[id])];
    assert Placed(g, id, pc[id]);
    RemainingDrops(g, id, pc[id]);
    TotalDrops(g, pc, id, Next(g, id, pc[id]));
    assert m.locals == l.locals[q := m.locals[q]];
    RemainingLess(z, l.locals, q, m.locals[q]);
  }

  lemma {:induction false} LaunchBound(z: Size, run: seq<Launch>, sched: seq<(nat, nat)>, k: nat)
    requires LaunchRun(z, run, sched) && k < |run|
    ensures LocalsInBounds(z, run[0].locals) && LocalsInBounds(z, run[k].locals)
    ensures k + LaunchRemaining(z, run[k].locals) <= LaunchRemaining(z, run[0].locals)
  {
    LaunchRunInvariant(z, run, sched, 0);
    LaunchRunInvariant(z, run, sched, k);
    InBoundsEverywhere(z, run[0].output, run[0]);
    InBoundsEverywhere(z, run[0].output, run[k]);
    if k > 0 {
      LaunchRunInvariant(z, run, sched, k - 1);
      LaunchBound(z, run, sched, k - 1);
      LaunchStepDrops(z, run[0].output, run[k - 1], sched[k - 1].0, sched[k - 1].1, run[k]);
    }
  }

  // ---- where a launch ends -------------------------------------------------------------------

  /** Entry k of the output after the launch. */
  ghost function FinalEntry(z: Size, before: seq<real>, k: nat): real
    requires k < |before| && z.items > 0
  {
    if k < z.groups * z.items
    then before[k] + Times(Times(10000.0, z.lanes), Owned(z.elements, z.items, k % z.items))
    else before[k]
  }

  /** A group that is done has added its share to the entries of its work-items. */
  lemma GroupEntry(g: Group, before: seq<real>, s: State, id: nat)
    requires |before| == |s.output| && Invariant(g, before, Own(g, before, s)) && AllDone(s) && id < g.items
    ensures g.base + g.items <= |before|
    ensures s.output[g.base + id] == before[g.base + id] + Times(ElementTotal(g), Owned(g.elements, g.items, id))
  {
    var own := Own(g, before, s);
    DoneIsFinal(g, before, own);
    assert own.output[g.base + id] == s.output[g.base + id];
    assert FinalState(g, before).output[g.base + id]
           == before[g.base + id] + Times(ElementTotal(g), Owned(g.elements, g.items, g.base + id - g.base));
  }

  lemma EntryOf(z: Size, before: seq<real>, l: Launch, q: nat, id: nat)
    requires LaunchInvariant(z, before, l) && AllGroupsDone(l) && q < z.groups && id < z.items
    ensures q * z.items + id < |before|
    ensures l.output[q * z.items + id]
            == before[q * z.items + id] + Times(Times(10000.0, z.lanes), Owned(z.elements, z.items, id))
  {
    assert GroupOk(z, before, l, q) && AllDone(View(l, q));
    GroupEntry(GroupAt(z, q), before, View(l, q), id);
  }

  /** When all groups are done, every entry of the output is determined. */
  lemma LaunchDone(z: Size, before: seq<real>, l: Launch, k: nat)
    requires LaunchInvariant(z, before, l) && AllGroupsDone(l) && k < |before| && z.items > 0
    ensures l.output[k] == FinalEntry(z, before, k)
  {
    if k < z.groups * z.items {
      DivModDefinition(k, z.items);
      QuotientLess(k, z.items, z.groups);
      EntryOf(z, before, l, k / z.items, k % z.items);
    }
  }

  lemma QuotientLess(k: nat, items: nat, groups: nat)
    requires items > 0 && k < groups * items
    ensures k / items < groups
  {
    DivModDefinition(k, items);
    MulMonotone(groups, k / items, items);
  }

  /** As long as some group is not done, some work-item can move. */
  lemma LaunchGoesOn(z: Size, before: seq<real>, l: Launch) returns (q: nat, id: nat, m: Launch)
    requires LaunchInvariant(z, before, l) && !AllGroupsDone(l)
    ensures LaunchStep(z, l, q, id, m)
  {
    q :| q < |l.locals| && !AllDone(View(l, q));
    var g := GroupAt(z, q);
    assert GroupOk(z, before, l, q);
    id := SomeoneMoves(g, before, Own(g, before, View(l, q)));
    var t := Execute(g, View(l, q), id);
    m := Launch(l.locals[q := Local(t.pc, t.s1, t.s2)], t.output);
    assert View(m, q) == t;
  }

  /**
   * Main result. Under every interleaving of all work-items of all groups a launch of local_mem is
   * finite, can stop only when all are done, and leaves one and the same output.
   */
  lemma EveryLaunchEndsTheSame(z: Size, run: seq<Launch>, sched: seq<(nat, nat)>)
    requires LaunchRun(z, run, sched) && z.items > 0
    ensures LocalsInBounds(z, run[0].locals) && |sched| <= LaunchRemaining(z, run[0].locals)
    ensures (forall q: nat, id: nat, m :: !LaunchStep(z, run[|sched|], q, id, m)) <==> AllGroupsDone(run[|sched|])
    ensures |run[|sched|].output| == |run[0].output|
    ensures AllGroupsDone(run[|sched|]) ==>
              forall k: nat :: k < |run[0].output| ==> run[|sched|].output[k] == FinalEntry(z, run[0].output, k)
  {
    LaunchBound(z, run, sched, |sched|);
    LaunchRunInvariant(z, run, sched, |sched|);
    var before, last := run[0].output, run[|sched|];
    if AllGroupsDone(last) {
      forall k: nat | k < |before|
        ensures last.output[k] == FinalEntry(z, before, k)
      {
        LaunchDone(z, before, last, k);
      }
    } else {
      var q, id, m := LaunchGoesOn(z, before, last);
    }
  }

  // ---- what a launch adds to the output --------------------------------------------------------

  lemma {:induction false} RangeSplit(values: seq<real>, lo: nat, a: nat, b: nat)
    requires lo + a + b <= |values|
    ensures RangeSum(values, lo, a + b) == RangeSum(values, lo, a) + RangeSum(values, lo + a, b)
  {
    if b > 0 {
      RangeSplit(values, lo, a, b - 1);
      assert a + b - 1 == a + (b - 1);
    }
  }

  lemma {:induction false} RangeSame(values: seq<real>, others: seq<real>, lo: nat, count: nat)
    requires lo + count <= |values| == |others|
    requires forall k :: lo <= k < lo + count ==> values[k] == others[k]
    ensures RangeSum(values, lo, count) == RangeSum(others, lo, count)
  {
    if count > 0 {
      RangeSame(values, others, lo, count - 1);
    }
  }

  /** What every group adds: 10000 in every lane of every element. */
  ghost function GroupShare(z: Size): real {
    Times(Times(10000.0, z.lanes), z.elements)
  }

  lemma ShareIsProduct(z: Size, n: nat)
    ensures Times(GroupShare(z), n) == 10000.0 * z.lanes as real * z.elements as real * n as real
  {
    TimesIsProduct(GroupShare(z), n);
    TimesIsProduct(Times(10000.0, z.lanes), z.elements);
    TimesIsProduct(10000.0, z.lanes);
  }

  /** What a group that is done has added. */
  lemma DoneGroupAdds(g: Group, before: seq<real>, s: State)
    requires |before| == |s.output| && Invariant(g, before, Own(g, before, s)) && AllDone(s)
    ensures g.base + g.items <= |before|
    ensures RangeSum(s.output, g.base, g.items)
            == RangeSum(before, g.base, g.items) + Times(ElementTotal(g), g.elements)
  {
    var own := Own(g, before, s);
    DoneIsFinal(g, before, own);
    GroupTimes(g, before);
    RangeSame(s.output, own.output, g.base, g.items);
  }

  lemma GroupAdds(z: Size, before: seq<real>, l: Launch, q: nat)
    requires LaunchInvariant(z, before, l) && AllGroupsDone(l) && q < z.groups && z.items > 0
    ensures q * z.items + z.items <= |before|
    ensures RangeSum(l.output, q * z.items, z.items)
            == RangeSum(before, q * z.items, z.items) + GroupShare(z)
  {
    assert GroupOk(z, before, l, q) && AllDone(View(l, q));
    DoneGroupAdds(GroupAt(z, q), before, View(l, q));
  }

  lemma {:induction false} GroupsAdd(z: Size, before: seq<real>, l: Launch, n: nat)
    requires LaunchInvariant(z, before, l) && AllGroupsDone(l) && n <= z.groups && z.items > 0
    ensures n * z.items <= |before|
    ensures RangeSum(l.output, 0, n * z.items)
            == RangeSum(before, 0, n * z.items) + Times(GroupShare(z), n)
  {
    if n > 0 {
      GroupsAdd(z, before, l, n - 1);
      GroupAdds(z, before, l, n - 1);
      MulDistributes(n - 1, 1, z.items);
      RangeSplit(l.output, 0, (n - 1) * z.items, z.items);
      RangeSplit(before, 0, (n - 1) * z.items, z.items);
    }
  }

  /** A complete launch adds 10000 * ELEMENTS * 2^VEC to the output for every group. */
  lemma LaunchTotal(vec: nat, z: Size, run: seq<Launch>, sched: seq<(nat, nat)>)
    requires vec <= 4 && z.lanes == Lanes(vec)
    requires LaunchRun(z, run, sched) && AllGroupsDone(run[|sched|]) && z.items > 0
    ensures z.groups * z.items <= |run[0].output| == |run[|sched|].output|
    ensures RangeSum(run[|sched|].output, 0, z.groups * z.items)
            == RangeSum(run[0].output, 0, z.groups * z.items)
               + 10000.0 * Power2(vec) as real * z.elements as real * z.groups as real
  {
    LaunchRunInvariant(z, run, sched, |sched|);
    GroupsAdd(z, run[0].output, run[|sched|], z.groups);
    ShareIsProduct(z, z.groups);
    LanesArePower(vec);
  }
}
