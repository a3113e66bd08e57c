/** mem_streaming/mem_streaming.cl, kernel private_mem: the loops of local_mem over private arrays. */
module MemStreamingPrivate {
  import opened MemStreaming

  lemma {:induction false} SoleOwner(n: nat)
    ensures Owned(n, 1, 0) == n
  {
    if n > 0 {
      SoleOwner(n - 1);
    }
  }

  /** Every element from lo up to hi is a whole vector holding the value in every lane. */
  ghost predicate AllFilled(cells: seq<Cell>, lo: nat, hi: nat, lanes: nat, value: real) {
    hi <= |cells| && forall k :: lo <= k < hi ==> |cells[k]| == lanes && Filled(cells[k], value)
  }

  /** Lines 518 to 629: the stores to the lanes of one element are one assignment here. */
  method PrivateInit(r1: array<Cell>, r2: array<Cell>, lanes: nat)
    requires r2.Length == 2 * r1.Length && r1 != r2
    modifies r1, r2
    ensures AllFilled(r1[..], 0, r1.Length, lanes, 0.0) && AllFilled(r2[..], 0, r2.Length, lanes, 0.5)
  {
    for idx := 0 to r1.Length
      invariant AllFilled(r1[..], 0, idx, lanes, 0.0) && AllFilled(r2[..], 0, idx, lanes, 0.5)
    {
      r2[idx] := seq(lanes, _ => 0.5);
      r1[idx] := seq(lanes, _ => 0.0);
    }
    for idx := r1.Length to r1.Length * 2
      invariant AllFilled(r1[..], 0, r1.Length, lanes, 0.0) && AllFilled(r2[..], 0, idx, lanes, 0.5)
    {
      r2[idx] := seq(lanes, _ => 0.5);
    }
  }

  /** now is was after n additions of both vectors. */
  ghost predicate Added(was: Cell, now: Cell, a: Cell, b: Cell, n: nat) {
    && |was| == |now| == |a| == |b|
    && forall lane :: 0 <= lane < |was| ==> now[lane] == was[lane] + Times(a[lane] + b[lane], n)
  }

  lemma AddOnce(was: Cell, now: Cell, a: Cell, b: Cell, n: nat)
    requires Added(was, now, a, b, n)
    ensures Added(was, VectorAdd(VectorAdd(now, a), b), a, b, n + 1)
  {
  }

  lemma AddedProduct(was: Cell, now: Cell, a: Cell, b: Cell, n: nat)
    requires Added(was, now, a, b, n)
    ensures forall lane :: 0 <= lane < |was| ==> now[lane] == was[lane] + (a[lane] + b[lane]) * n as real
  {
    forall lane | 0 <= lane < |was|
      ensures now[lane] == was[lane] + (a[lane] + b[lane]) * n as real
    {
      assert now[lane] == was[lane] + Times(a[lane] + b[lane], n);
      TimesIsProduct(a[lane] + b[lane], n);
    }
  }

  /** Lines 635 to 737 for one element: 100 times 100 additions, whatever the arrays hold. */
  method PrivateAccumulate(r1: array<Cell>, r2: array<Cell>, idx: nat)
    requires idx < r1.Length && r2.Length == 2 * r1.Length && r1 != r2
    requires |r1[idx]| == |r2[idx]| == |r2[2 * idx]|
    modifies r1
    ensures |r1[idx]| == old(|r1[idx]|)
    ensures forall lane :: 0 <= lane < |r1[idx]| ==>
              r1[idx][lane] == old(r1[idx][lane]) + (r2[idx][lane] + r2[2 * idx][lane]) * 10000.0
    ensures forall k :: 0 <= k < r1.Length && k != idx ==> r1[k] == old(r1[k])
  {
    for i := 0 to 100
      invariant Added(old(r1[idx]), r1[idx], r2[idx], r2[2 * idx], 100 * i)
      invariant forall k :: 0 <= k < r1.Length && k != idx ==> r1[k] == old(r1[k])
    {
      for line := 0 to 100
        invariant Added(old(r1[idx]), r1[idx], r2[idx], r2[2 * idx], 100 * i + line)
        invariant forall k :: 0 <= k < r1.Length && k != idx ==> r1[k] == old(r1[k])
      {
        AddOnce(old(r1[idx]), r1[idx], r2[idx], r2[2 * idx], 100 * i + line);
        r1[idx] := VectorAdd(VectorAdd(r1[idx], r2[idx]), r2[2 * idx]);
      }
    }
    AddedProduct(old(r1[idx]), r1[idx], r2[idx], r2[2 * idx], 10000);
  }

  /** Lines 740 to 756: fold every element into the work-item's output. */
  method PrivateFlush(r1: array<Cell>, lanes: nat, output: array<real>, gid: nat)
    requires gid < output.Length && AllFilled(r1[..], 0, r1.Length, lanes, 10000.0)
    modifies output
    ensures output[..] == old(output[..])[gid :=
              old(output[gid]) + Times(ElementTotal(Group(r1.Length, 1, lanes, gid)), r1.Length)]
  {
    ghost var g, cells := Group(r1.Length, 1, lanes, gid), r1[..];
    for idx := 0 to r1.Length
      modifies output
      invariant output[..] == old(output[..])[gid :=
                  old(output[gid]) + Times(ElementTotal(g), idx)]
    {
      assert r1[idx] == cells[idx];
      LaneSumFilled(r1[idx], 10000.0);
      output[gid] := output[gid] + LaneSum(r1[idx]);
    }
  }

  /**
   * Kernel private_mem for one work-item: the same loops with stride 1 over private arrays. Its
   * effect on the output is that of local_mem run by a group of one work-item.
   */
  method PrivateMem(elements: nat, lanes: nat, output: array<real>, gid: nat)
    requires lanes > 0 && gid < output.Length
    modifies output
    ensures output[..] == FinalState(Group(elements, 1, lanes, gid), old(output[..])).output
  {
    var r1, r2 := new Cell[elements], new Cell[2 * elements];
    PrivateInit(r1, r2, lanes);
    for idx := 0 to elements
      modifies r1
      invariant AllFilled(r1[..], 0, idx, lanes, 10000.0) && AllFilled(r1[..], idx, elements, lanes, 0.0)
    {
      ghost var before, source := r1[..], r2[..];
      assert before[idx] == r1[idx] && source[idx] == r2[idx] && source[2 * idx] == r2[2 * idx];
      PrivateAccumulate(r1, r2, idx);
      assert r1[..] == before[idx := r1[idx]];
    }
    PrivateFlush(r1, lanes, output, gid);
    SoleOwner(elements);
    assert output[..] == FinalState(Group(elements, 1, lanes, gid), old(output[..])).output;
  }
}
