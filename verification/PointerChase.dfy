/**
 * Chasing pointers through an array of slot numbers: `next = data[next]`, starting at slot 0.
 * This is the theory shared by the host walk and by the three device kernels.
 */
module PointerChase {

  /** Number of loads between two additions to the checksum (REQUIRED_ITERATION_DIVISOR). */
  const BLOCK: nat := 128

  /** Every entry is the number of a slot. */
  ghost predicate Closed(d: seq<nat>) {
    |d| > 0 && forall i :: 0 <= i < |d| ==> d[i] < |d|
  }

  /** The slot reached from slot 0 after k loads. */
  ghost function Walk(d: seq<nat>, k: nat): (slot: nat)
    requires Closed(d)
    ensures slot < |d|
  {
    if k == 0 then 0 else d[Walk(d, k - 1)]
  }

  /** n is the number of loads after which the walk is back at slot 0 for the first time. */
  ghost predicate FirstReturn(d: seq<nat>, n: nat)
    requires Closed(d)
  {
    n > 0 && Walk(d, n) == 0 && forall k :: 0 < k < n ==> Walk(d, k) != 0
  }

  /** The benchmark's requirement: the walk comes back to 0 after exactly one load per slot. */
  ghost predicate OneCycle(d: seq<nat>) {
    Closed(d) && FirstReturn(d, |d|)
  }

  ghost predicate Permutation(d: seq<nat>) {
    Closed(d)
    && (forall i, j :: 0 <= i < j < |d| ==> d[i] != d[j])
    && (forall v: nat :: v < |d| ==> v in d)
  }

  ghost predicate Reached(d: seq<nat>, slot: nat)
    requires Closed(d)
  {
    exists k :: 0 <= k < |d| && Walk(d, k) == slot
  }

  /** Every slot is reached from slot 0 in fewer than |d| loads. */
  ghost predicate Covers(d: seq<nat>)
    requires Closed(d)
  {
    forall slot: nat :: slot < |d| ==> Reached(d, slot)
  }

  // ---- walks -------------------------------------------------------------------------------

  lemma {:induction false} WalkAgain(d: seq<nat>, a: nat, b: nat, more: nat)
    requires Closed(d) && Walk(d, a) == Walk(d, b)
    ensures Walk(d, a + more) == Walk(d, b + more)
  {
    if more > 0 {
      WalkAgain(d, a, b, more - 1);
      assert a + more - 1 == a + (more - 1) && b + more - 1 == b + (more - 1);
    }
  }

  /** Before it returns to 0, the walk does not meet any slot twice. */
  lemma {:induction false} NoRepeat(d: seq<nat>, n: nat, a: nat, b: nat)
    requires Closed(d) && FirstReturn(d, n)
    requires a < b < n
    ensures Walk(d, a) != Walk(d, b)
  {
    if Walk(d, a) == Walk(d, b) {
      WalkAgain(d, a, b, n - b);
    }
  }

  ghost function Visited(d: seq<nat>, n: nat): set<nat>
    requires Closed(d)
  {
    set k | 0 <= k < n :: Walk(d, k)
  }

  ghost function Below(n: nat): (s: set<nat>)
    ensures forall i: nat :: i in s <==> i < n
  {
    if n == 0 then {} else Below(n - 1) + {n - 1}
  }

  lemma {:induction false} BelowSize(n: nat)
    ensures |Below(n)| == n
  {
    if n > 0 {
      BelowSize(n - 1);
    }
  }

  lemma {:induction false} VisitedSize(d: seq<nat>, n: nat, k: nat)
    requires Closed(d) && FirstReturn(d, n) && k <= n
    ensures |Visited(d, k)| == k
  {
    if k == 0 {
      assert Visited(d, 0) == {};
    } else {
      VisitedSize(d, n, k - 1);
      forall a | 0 <= a < k - 1
        ensures Walk(d, a) != Walk(d, k - 1)
      {
        NoRepeat(d, n, a, k - 1);
      }
      assert Visited(d, k) == Visited(d, k - 1) + {Walk(d, k - 1)};
    }
  }

  lemma SubsetSize(a: set<nat>, b: set<nat>)
    requires a <= b
    ensures |a| <= |b|
    ensures |a| == |b| ==> a == b
  {
    assert b == a + (b - a);
  }

  /** The first return comes at the latest after one load per slot. */
  lemma FirstReturnBound(d: seq<nat>, n: nat)
    requires Closed(d) && FirstReturn(d, n)
    ensures n <= |d|
  {
    VisitedSize(d, n, n);
    BelowSize(|d|);
    SubsetSize(Visited(d, n), Below(|d|));
  }

  /** A walk that returns after one load per slot has met every slot. */
  lemma OneCycleCovers(d: seq<nat>)
    requires OneCycle(d)
    ensures Covers(d)
  {
    VisitedSize(d, |d|, |d|);
    BelowSize(|d|);
    SubsetSize(Visited(d, |d|), Below(|d|));
    forall slot: nat | slot < |d|
      ensures Reached(d, slot)
    {
      assert slot in Below(|d|);
      assert slot in Visited(d, |d|);
    }
  }

  /** On a cycle, two different numbers of loads below |d| cannot lead to the same successor. */
  lemma SuccessorOnce(d: seq<nat>, a: nat, b: nat)
    requires OneCycle(d) && a <= b < |d| && Walk(d, a + 1) == Walk(d, b + 1)
    ensures a == b
  {
    if a < b {
      WalkAgain(d, a + 1, b + 1, |d| - 1 - b);
    }
  }

  lemma OneCyclePermutes(d: seq<nat>)
    requires OneCycle(d)
    ensures Permutation(d)
  {
    OneCycleCovers(d);
    forall i, j | 0 <= i < j < |d|
      ensures d[i] != d[j]
    {
      assert Reached(d, i) && Reached(d, j);
      var a :| 0 <= a < |d| && Walk(d, a) == i;
      var b :| 0 <= b < |d| && Walk(d, b) == j;
      if d[i] == d[j] {
        if a <= b {
          SuccessorOnce(d, a, b);
        } else {
          SuccessorOnce(d, b, a);
        }
      }
    }
    forall v: nat | v < |d|
      ensures v in d
    {
      assert Reached(d, v);
      var k :| 0 <= k < |d| && Walk(d, k) == v;
      var last: nat := if k == 0 then |d| - 1 else k - 1;
      assert d[Walk(d, last)] == v;
    }
  }

  /**
   * What the host's check establishes: the walk returns after exactly one load per slot iff the
   * array is a permutation whose single cycle runs through every slot.
   */
  lemma OneCycleIffHamiltonian(d: seq<nat>)
    requires Closed(d)
    ensures OneCycle(d) <==> Permutation(d) && Covers(d)
  {
    if OneCycle(d) {
      OneCyclePermutes(d);
      OneCycleCovers(d);
    }
    if Permutation(d) && Covers(d) {
      CoverReturns(d);
    }
  }

  lemma CoverReturns(d: seq<nat>)
    requires Permutation(d) && Covers(d)
    ensures OneCycle(d)
  {
    forall k | 0 < k < |d|
      ensures Walk(d, k) != 0
    {
      if Walk(d, k) == 0 {
        // The walk would go round in the first k slots only, and miss one.
        ShortCycle(d, k);
      }
    }
    assert 0 in d;
    var i :| 0 <= i < |d| && d[i] == 0;
    assert Reached(d, i);
    var k :| 0 <= k < |d| && Walk(d, k) == i;
    assert Walk(d, k + 1) == 0;
  }

  lemma {:induction false} WalkFolds(d: seq<nat>, period: nat, k: nat)
    requires Closed(d) && 0 < period && Walk(d, period) == 0
    ensures Walk(d, k) in Visited(d, period)
  {
    if k < period {
      assert Walk(d, k) in Visited(d, period);
    } else {
      WalkFolds(d, period, k - period);
      WalkAgain(d, period, 0, k - period);
    }
  }

  lemma {:induction false} VisitedAtMost(d: seq<nat>, n: nat)
    requires Closed(d)
    ensures |Visited(d, n)| <= n
  {
    if n == 0 {
      assert Visited(d, 0) == {};
    } else {
      VisitedAtMost(d, n - 1);
      assert Visited(d, n) == Visited(d, n - 1) + {Walk(d, n - 1)};
    }
  }

  lemma ShortCycle(d: seq<nat>, period: nat)
    requires Closed(d) && 0 < period < |d| && Walk(d, period) == 0
    ensures !Covers(d)
  {
    if Covers(d) {
      forall slot | slot in Below(|d|)
        ensures slot in Visited(d, period)
      {
        assert Reached(d, slot);
        var k :| 0 <= k < |d| && Walk(d, k) == slot;
        WalkFolds(d, period, k);
      }
      BelowSize(|d|);
      VisitedAtMost(d, period);
      SubsetSize(Below(|d|), Visited(d, period));
    }
  }

  // ---- checksums ---------------------------------------------------------------------------

  /** Sum of the slots met after 128, 256, ..., 128 * blocks loads. */
  ghost function Checksum(d: seq<nat>, blocks: nat): nat
    requires Closed(d)
  {
    if blocks == 0 then 0 else Checksum(d, blocks - 1) + Walk(d, BLOCK * blocks)
  }
}
