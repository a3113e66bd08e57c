/** arith_speed/arith_speed.cpp, main: shrinking a launch until its output fits the device memory. */
module LaunchSizing {
  import opened Arithmetic

  /** x after j integer halvings. */
  function Halved(x: nat, j: nat): nat {
    if j == 0 then x else Halved(x, j - 1) / 2
  }

  /** Bytes of the input and output buffers as line 1209 estimates them. */
  function Demand(global: nat, vec: nat): nat {
    (global + 2) * 4 * vec
  }

  lemma DemandMonotone(x: nat, y: nat, vec: nat)
    requires x <= y
    ensures Demand(x, vec) <= Demand(y, vec)
  {
    MulMonotone((x + 2) * 4, (y + 2) * 4, vec);
  }

  /** Where the loop of Shrink stops. */
  ghost predicate StopsAfter(maxGlobal: nat, memory: nat, vec: nat, halvings: nat) {
    && Demand(Halved(maxGlobal, halvings), vec) <= memory
    && forall j: nat :: j < halvings ==> Demand(Halved(maxGlobal, j), vec) > memory
  }

  /**
   * Lines 1207 to 1213: the loop halves both sizes until the demand fits, and no more often than
   * needed.
   */
  method Shrink(maxLocal: nat, maxGlobal: nat, memory: nat, vec: nat)
    returns (local: nat, global: nat, ghost halvings: nat)
    requires 8 * vec <= memory
    ensures local == Halved(maxLocal, halvings) && global == Halved(maxGlobal, halvings)
    ensures (global + 2) * 4 * vec <= memory
    ensures forall j: nat :: j < halvings ==> (Halved(maxGlobal, j) + 2) * 4 * vec > memory
    ensures StopsAfter(maxGlobal, memory, vec, halvings)
  {
    local, global, halvings := maxLocal, maxGlobal, 0;
    while (global + 2) * 4 * vec > memory
      invariant local == Halved(maxLocal, halvings) && global == Halved(maxGlobal, halvings)
      invariant forall j: nat :: j < halvings ==> Demand(Halved(maxGlobal, j), vec) > memory
      decreases global
    {
      global := global / 2;
      local := local / 2;
      halvings := halvings + 1;
    }
  }

  /** With less memory than that, the loop condition holds for every size: the loop never ends. */
  lemma NeverEnds(global: nat, memory: nat, vec: nat)
    requires memory < 8 * vec
    ensures (global + 2) * 4 * vec > memory && (global / 2 + 2) * 4 * vec > memory
  {
    DemandMonotone(0, global, vec);
    DemandMonotone(0, global / 2, vec);
  }

  // ---- what a launch size looks like after some halvings -----------------------------------

  lemma {:induction false} HalvedDecreases(x: nat, i: nat, j: nat)
    requires i <= j
    ensures Halved(x, j) <= Halved(x, i)
    decreases j
  {
    if i < j {
      HalvedDecreases(x, i, j - 1);
    }
  }

  /** Halving a quotient q with remainder r. */
  lemma HalveQuotient(x: nat, p: nat, q: nat, r: nat)
    requires x == q * p + r && r < p
    ensures x / (2 * p) == q / 2
  {
    var h, b := q / 2, q % 2;
    MulDistributes(2 * h, b, p);
    MulAssociative(h, 2, p);
    DivModUnique(x, 2 * p, h, b * p + r);
  }

  /** Repeated halving is division by a power of two. */
  lemma {:induction false} HalvedIsQuotient(x: nat, j: nat)
    ensures Power2(j) > 0 && Halved(x, j) == x / Power2(j)
  {
    PowerPositive(j);
    if j > 0 {
      HalvedIsQuotient(x, j - 1);
      DivModDefinition(x, Power2(j - 1));
      HalveQuotient(x, Power2(j - 1), Halved(x, j - 1), x % Power2(j - 1));
    }
  }

  /** The quotient of a product, from the quotients of one factor and of what the remainder adds up to. */
  lemma ScaledQuotient(g: nat, x: nat, p: nat, q: nat, r: nat, t: nat, u: nat)
    requires x == q * p + r && g * r == t * p + u && u < p
    ensures g * x / p == g * q + t
  {
    MulDistributes(q * p, r, g);
    MulAssociative(g, q, p);
    MulDistributes(g * q, t, p);
    DivModUnique(g * x, p, g * q + t, u);
  }

  lemma QuotientOfMultiple(groups: nat, x: nat, p: nat)
    requires p > 0
    ensures groups * x / p == groups * (x / p) + groups * (x % p) / p
  {
    DivModDefinition(x, p);
    DivModDefinition(groups * (x % p), p);
    ScaledQuotient(groups, x, p, x / p, x % p, groups * (x % p) / p, groups * (x % p) % p);
  }

  lemma QuotientZero(s: nat, p: nat)
    requires p > 0
    ensures s / p == 0 <==> s < p
  {
    if s < p {
      ModSmall(s, p);
    } else {
      MulMonotone(s / p, 0, p);
    }
  }

  /** How often p goes into x. */
  function Quotient(x: nat, p: nat): nat
    requires p > 0
  {
    if x < p then 0 else Quotient(x - p, p) + 1
  }

  lemma NothingGoesIn(x: nat, p: nat)
    requires p > 0
    ensures Quotient(x, p) == 0 <==> x < p
  {
  }

  lemma {:induction false} QuotientIsDivision(x: nat, p: nat)
    requires p > 0
    ensures Quotient(x, p) == x / p
  {
    if x < p {
      ModSmall(x, p);
    } else {
      QuotientIsDivision(x - p, p);
      ModStep(x - p, p);
    }
  }

  /** What j halvings take from the local size of each group and leave in the global size. */
  function LeftOver(maxLocal: nat, groups: nat, j: nat): nat
    requires Power2(j) > 0
  {
    Quotient(groups * (maxLocal % Power2(j)), Power2(j))
  }

  /** After j halvings the global size consists of the groups and of what is left over. */
  lemma HalvedGlobal(maxLocal: nat, groups: nat, j: nat)
    ensures Power2(j) > 0
    ensures Halved(groups * maxLocal, j) == groups * Halved(maxLocal, j) + LeftOver(maxLocal, groups, j)
  {
    HalvedIsQuotient(maxLocal, j);
    HalvedIsQuotient(groups * maxLocal, j);
    QuotientOfMultiple(groups, maxLocal, Power2(j));
    QuotientIsDivision(groups * (maxLocal % Power2(j)), Power2(j));
  }

  /** After j halvings the number of groups is kept iff nothing is left over. */
  lemma WholeGroupsIff(maxLocal: nat, groups: nat, j: nat)
    ensures Power2(j) > 0
    ensures Halved(groups * maxLocal, j) == groups * Halved(maxLocal, j) <==> LeftOver(maxLocal, groups, j) == 0
  {
    HalvedGlobal(maxLocal, groups, j);
  }

  /** Nothing is left over iff what the groups lose together is less than one halved work-item. */
  lemma NothingLeftOverIff(maxLocal: nat, groups: nat, j: nat)
    ensures Power2(j) > 0
    ensures LeftOver(maxLocal, groups, j) == 0 <==> groups * (maxLocal % Power2(j)) < Power2(j)
  {
    PowerPositive(j);
    NothingGoesIn(groups * (maxLocal % Power2(j)), Power2(j));
  }

  predicate IsMultiple(x: nat, l: nat)
    requires l > 0
  {
    x % l == 0
  }

  lemma MultipleDivides(x: nat, g: nat, l: nat, t: nat)
    requires l > 0 && x == g * l + t
    ensures IsMultiple(x, l) <==> IsMultiple(t, l)
  {
    DivModDefinition(t, l);
    MulDistributes(g, t / l, l);
    DivModUnique(x, l, g + t / l, t % l);
  }

  /**
   * After j halvings the global size is a multiple of the local size, as a launch demands, iff what
   * is left over is one.
   */
  lemma LocalDividesIff(maxLocal: nat, groups: nat, j: nat)
    requires Halved(maxLocal, j) > 0
    ensures Power2(j) > 0
    ensures IsMultiple(Halved(groups * maxLocal, j), Halved(maxLocal, j))
            <==> IsMultiple(LeftOver(maxLocal, groups, j), Halved(maxLocal, j))
  {
    HalvedGlobal(maxLocal, groups, j);
    MultipleDivides(Halved(groups * maxLocal, j), groups, Halved(maxLocal, j), LeftOver(maxLocal, groups, j));
  }

  /** Local size 3 in 2 groups: one halving leaves 3 groups of one work-item. */
  lemma ThreeInTwoGroups()
    ensures Halved(2 * 3, 1) == 3 && Halved(3, 1) == 1 && IsMultiple(Halved(2 * 3, 1), Halved(3, 1))
  {
    assert Halved(2 * 3, 0) == 6 && Halved(3, 0) == 3;
  }

  /** Local size 7 in 3 groups: after one halving the 10 work-items are no multiple of the local size 3. */
  lemma SevenInThreeGroups()
    ensures Halved(3 * 7, 1) == 10 && Halved(7, 1) == 3
    ensures !IsMultiple(Halved(3 * 7, 1), Halved(7, 1))
  {
    assert Halved(3 * 7, 0) == 21 && Halved(7, 0) == 7;
  }

  /** Work-items are left as long as the power of two is not above the local size. */
  lemma SomeLeftIff(maxLocal: nat, p: nat, j: nat)
    requires Power2(p) <= maxLocal < Power2(p + 1)
    ensures Halved(maxLocal, j) >= 1 <==> j <= p
  {
    HalvedIsQuotient(maxLocal, j);
    QuotientZero(maxLocal, Power2(j));
    if j <= p {
      PowerGrows(j, p);
    } else {
      PowerGrows(p + 1, j);
    }
  }

  /**
   * For any local size: the launch that results has at least one work-item in a group iff the memory
   * holds the launch of local size 1, which takes p halvings.
   */
  lemma UsableIff(maxLocal: nat, p: nat, groups: nat, memory: nat, vec: nat, halvings: nat)
    requires Power2(p) <= maxLocal < Power2(p + 1) && StopsAfter(groups * maxLocal, memory, vec, halvings)
    ensures Halved(maxLocal, halvings) >= 1 <==> (groups * maxLocal / Power2(p) + 2) * 4 * vec <= memory
  {
    SomeLeftIff(maxLocal, p, halvings);
    HalvedIsQuotient(groups * maxLocal, p);
    if halvings <= p {
      HalvedDecreases(groups * maxLocal, halvings, p);
      DemandMonotone(Halved(groups * maxLocal, p), Halved(groups * maxLocal, halvings), vec);
    }
  }

  lemma DoubleMultiple(x: nat, p: nat)
    requires p > 0 && x % p == 0
    ensures 2 * x % p == 0
  {
    DivModDefinition(x, p);
    MulAssociative(2, x / p, p);
    DivModUnique(2 * x, p, 2 * (x / p), 0);
  }

  lemma {:induction false} PowerRemainder(p: nat, j: nat)
    requires j <= p
    ensures Power2(j) > 0 && Power2(p) % Power2(j) == 0
    decreases p
  {
    PowerPositive(j);
    if j < p {
      PowerRemainder(p - 1, j);
      DoubleMultiple(Power2(p - 1), Power2(j));
    } else {
      DivModUnique(Power2(p), Power2(j), 1, 0);
    }
  }

  /** A power-of-two local size loses nothing while work-items are left. */
  lemma WholePower(p: nat, groups: nat, j: nat)
    requires j <= p
    ensures Halved(groups * Power2(p), j) == groups * Halved(Power2(p), j)
  {
    PowerRemainder(p, j);
    WholeGroupsIff(Power2(p), groups, j);
    NothingLeftOverIff(Power2(p), groups, j);
  }

  lemma OneLeft(p: nat)
    ensures Halved(Power2(p), p) == 1 && Power2(p) < Power2(p + 1)
  {
    HalvedIsQuotient(Power2(p), p);
    DivModUnique(Power2(p), Power2(p), 1, 0);
  }

  /**
   * For a power-of-two local size the launch is usable iff the memory holds one work-item for each
   * group, and then it has the number of groups asked for.
   */
  lemma PowerUsableIff(p: nat, groups: nat, memory: nat, vec: nat, halvings: nat)
    requires StopsAfter(groups * Power2(p), memory, vec, halvings)
    ensures Halved(Power2(p), halvings) >= 1 <==> (groups + 2) * 4 * vec <= memory
    ensures Halved(Power2(p), halvings) >= 1 ==>
              Halved(groups * Power2(p), halvings) == groups * Halved(Power2(p), halvings)
  {
    OneLeft(p);
    WholePower(p, groups, p);
    HalvedIsQuotient(groups * Power2(p), p);
    UsableIff(Power2(p), p, groups, memory, vec, halvings);
    SomeLeftIff(Power2(p), p, halvings);
    if halvings <= p {
      WholePower(p, groups, halvings);
    }
  }
}
