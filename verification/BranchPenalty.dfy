/** branch_penalty/branch_penalty.cpp and bp_kernel.cl: branch selectors and the kernel they drive. */
module BranchPenalty {
  import opened Arithmetic

  /** The branch work-item i takes among `types` branches of `size` consecutive work-items each. */
  function Selector(types: nat, size: nat, i: nat): nat
    requires types > 0 && size > 0
  {
    i / size % types + 1
  }

  lemma QuotientStep(i: nat, size: nat)
    requires size > 0
    ensures (i + 1) / size == i / size + (if (i + 1) % size == 0 then 1 else 0)
  {
    var q, r := i / size, i % size;
    assert i == q * size + r;
    if r + 1 < size {
      DivModUnique(i + 1, size, q, r + 1);
    } else {
      assert i + 1 == (q + 1) * size + 0;
      DivModUnique(i + 1, size, q + 1, 0);
    }
  }

  lemma RemainderStep(q: nat, types: nat)
    requires types > 0
    ensures (q + 1) % types == if q % types + 1 == types then 0 else q % types + 1
  {
    var p, r := q / types, q % types;
    assert q == p * types + r;
    if r + 1 < types {
      DivModUnique(q + 1, types, p, r + 1);
    } else {
      assert q + 1 == (p + 1) * types + 0;
      DivModUnique(q + 1, types, p + 1, 0);
    }
  }

  /** How the selector goes on from one work-item to the next. */
  lemma SelectorStep(types: nat, size: nat, i: nat)
    requires types > 0 && size > 0
    ensures Selector(types, size, i + 1)
            == if (i + 1) % size != 0 then Selector(types, size, i)
               else if Selector(types, size, i) == types then 1 else Selector(types, size, i) + 1
  {
    QuotientStep(i, size);
    RemainderStep(i / size, types);
  }

  /** The test of line 180 hits exactly the branch after the last. */
  lemma CounterWraps(types: nat, cur: nat)
    requires 0 < cur <= types + 1
    ensures cur % (types + 1) == 0 <==> cur == types + 1
  {
    if cur <= types {
      ModSmall(cur, types + 1);
    } else {
      DivModUnique(cur, types + 1, 1, 0);
    }
  }

  /** Lines 176 to 183: the selectors counted up with a wrapping counter. */
  method FillSelectors(selector: array<real>, types: nat, size: nat)
    requires types > 0 && size > 0
    modifies selector
    ensures forall i :: 0 <= i < selector.Length ==> selector[i] == Selector(types, size, i) as real
  {
    var curbranch := 0;
    for i := 0 to selector.Length
      invariant if i == 0 then curbranch == 0 else curbranch == Selector(types, size, i - 1)
      invariant forall j :: 0 <= j < i ==> selector[j] == Selector(types, size, j) as real
    {
      if i > 0 {
        SelectorStep(types, size, i - 1);
      } else {
        ModSmall(0, size);
        ModSmall(0, types);
      }
      ghost var before := curbranch;
      if i % size == 0 {
        curbranch := curbranch + 1;
      }
      CounterWraps(types, curbranch);
      if curbranch % (types + 1) == 0 {
        curbranch := 1;
      }
      selector[i] := curbranch as real;
    }
  }

  lemma SelectorOfBlock(types: nat, size: nat, v: nat)
    requires size > 0 && 1 <= v <= types
    ensures Selector(types, size, (v - 1) * size) == v
  {
    DivModUnique((v - 1) * size, size, v - 1, 0);
    ModSmall(v - 1, types);
  }

  lemma SelectorBelow(types: nat, size: nat, i: nat)
    requires types > 0 && size > 0
    ensures 1 <= Selector(types, size, i) <= types
    ensures i <= (types - 1) * size ==> (Selector(types, size, i) == types ==> i == (types - 1) * size)
  {
    if i < (types - 1) * size {
      var q := i / size;
      assert i == q * size + i % size;
      MulMonotone(types - 1, q, size);
      ModSmall(q, types);
    }
  }

  /** Some work-item below n takes branch v. */
  ghost predicate Occurs(types: nat, size: nat, n: nat, v: nat)
    requires types > 0 && size > 0
  {
    exists i: nat :: i < n && Selector(types, size, i) == v
  }

  /** Among n work-items all branches occur iff the first `types - 1` blocks leave one over. */
  lemma AllBranchesOccurIff(types: nat, size: nat, n: nat)
    requires types > 0 && size > 0
    ensures (forall v: nat :: 1 <= v <= types ==> Occurs(types, size, n, v)) <==> (types - 1) * size < n
  {
    if (types - 1) * size < n {
      forall v: nat | 1 <= v <= types
        ensures Occurs(types, size, n, v)
      {
        SelectorOfBlock(types, size, v);
        MulMonotone(v - 1, types - 1, size);
      }
    } else if Occurs(types, size, n, types) {
      var i: nat :| i < n && Selector(types, size, i) == types;
      SelectorBelow(types, size, i);
    }
  }

  /** The sizes the benchmark runs leave room for every branch. */
  lemma BenchmarkSizes(types: nat, size: nat, n: nat)
    requires types > 0 && 1 <= size <= n / types
    ensures forall v: nat :: 1 <= v <= types ==> Occurs(types, size, n, v)
  {
    MulMonotone(size, n / types, types);
    assert n == n / types * types + n % types;
    assert types * size == (types - 1) * size + size;
    AllBranchesOccurIff(types, size, n);
  }

  // ---- the kernel --------------------------------------------------------------------------

  /** The selector is k up to 0.1. */
  ghost predicate Fires(k: int, selector: real) {
    -0.1 <= selector - k as real <= 0.1
  }

  /** No selector fires two arms. */
  lemma OneArm(j: int, k: int, selector: real)
    requires Fires(j, selector) && Fires(k, selector)
    ensures j == k
  {
    assert j as real - k as real <= 0.2 && k as real - j as real <= 0.2;
    assert (j - k) as real == j as real - k as real;
  }

  /** The arm among lo, ..., hi that fires, or 0. */
  ghost predicate FiringArm(lo: int, hi: int, selector: real, arm: int) {
    if arm == 0 then forall k :: lo <= k <= hi ==> !Fires(k, selector)
    else lo <= arm <= hi && Fires(arm, selector)
  }

  /**
   * Kernel branchPenalty for work-item id: the arms for 128 down to 1; `arm` is the one that fired.
   * body(k, s) stands for the result of arm k, funfun(k * s).
   */
  method RunWorkItem(brancharray: seq<real>, outarray: array<real>, id: nat, body: (int, real) -> real)
    returns (ghost arm: int)
    requires id < |brancharray| && id < outarray.Length
    modifies outarray
    ensures FiringArm(1, 128, brancharray[id], arm)
    ensures outarray[id] == if arm == 0 then old(outarray[id]) else body(arm, brancharray[id])
    ensures forall j :: 0 <= j < outarray.Length && j != id ==> outarray[j] == old(outarray[j])
  {
    arm := 0;
    var k, selector := 128, brancharray[id];
    while k >= 1
      invariant 0 <= k <= 128 && FiringArm(k + 1, 128, selector, arm)
      invariant outarray[id] == if arm == 0 then old(outarray[id]) else body(arm, selector)
      invariant forall j :: 0 <= j < outarray.Length && j != id ==> outarray[j] == old(outarray[j])
    {
      if selector >= k as real - 0.1 && selector <= k as real + 0.1 {
        if arm != 0 {
          OneArm(arm, k, selector);
        }
        outarray[id] := body(k, selector);
        arm := k;
      }
      k := k - 1;
    }
  }

  /** A whole launch on the selectors of a configuration: every work-item fires the arm of its branch. */
  method RunConfiguration(types: nat, size: nat, outarray: array<real>, body: (int, real) -> real)
    requires 0 < types <= 128 && size > 0 && outarray.Length == 128
    modifies outarray
    ensures forall i: nat :: i < 128 ==> outarray[i] == body(Selector(types, size, i), Selector(types, size, i) as real)
  {
    var selector := new real[128];
    FillSelectors(selector, types, size);
    ghost var chosen := selector[..];
    for id := 0 to 128
      modifies outarray
      invariant selector[..] == chosen
      invariant forall i: nat :: i < id ==>
                  outarray[i] == body(Selector(types, size, i), Selector(types, size, i) as real)
    {
      ghost var v := Selector(types, size, id);
      SelectorBelow(types, size, id);
      assert chosen[id] == v as real;
      ghost var arm := RunWorkItem(selector[..], outarray, id, body);
      assert Fires(v, chosen[id]);
      OneArm(arm, v, chosen[id]);
    }
  }
}
