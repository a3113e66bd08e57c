/**
 * Which random kernels there are: the numbers drawn determine the statements, and every list of
 * statements of the right shape comes from some stream of random numbers.
 */
module KernelDraws {
  import opened Arithmetic
  import opened KernelOverheads
  import opened Wrappers

  // ---- the items determine the statements --------------------------------------------------------

  /** Puts every condition in front of the statement behind it. */
  function Regroup(items: seq<Item>): seq<Statement> {
    if items == [] then []
    else
      var later := Regroup(items[1..]);
      match items[0]
      case Assign(s) => [s] + later
      case Condition(tmp, arg) => if later == [] then [] else [If(tmp, arg, later[0])] + later[1..]
  }

  lemma {:induction false} RegroupFirst(s: Statement, items: seq<Item>)
    ensures Regroup(ItemsOf(s) + items) == [s] + Regroup(items)
  {
    assert (ItemsOf(s) + items)[0] == ItemsOf(s)[0];
    if s.If? {
      RegroupFirst(s.body, items);
      assert (ItemsOf(s) + items)[1..] == ItemsOf(s.body) + items;
    } else {
      assert (ItemsOf(s) + items)[1..] == items;
    }
  }

  lemma {:induction false} RegroupItems(ss: seq<Statement>)
    ensures Regroup(Items(ss)) == ss
  {
    if ss != [] {
      RegroupItems(ss[1..]);
      RegroupFirst(ss[0], Items(ss[1..]));
    }
  }

  ghost function ItemCount(nLines: nat): nat {
    2 * ((nLines + 1) / 2) + (nLines + 3) / 6
  }

  lemma ItemCountReaches(n: nat, nLines: nat, at: nat)
    requires ItemCount(n) <= at < ItemCount(nLines)
    ensures n < nLines
  {
  }

  /** Seven items for every three iterations. */
  lemma SevenItems(m: nat)
    ensures Start(3 * m) == 7 * m && Start(3 * m + 1) == 7 * m + 3 && Start(3 * m + 2) == 7 * m + 5
    ensures ItemCount(6 * m) == 7 * m && ItemCount(6 * m + 2) == 7 * m + 2 && ItemCount(6 * m + 4) == 7 * m + 5
    ensures 2 * (3 * m) % 3 == 0
  {
    DivModUnique(2 * (3 * m), 3, 2 * m, 0);
    DivModUnique(3 * m + 2, 3, m, 2);
    DivModUnique(3 * m + 3, 3, m + 1, 0);
    DivModUnique(3 * m + 4, 3, m + 1, 1);
    DivModUnique(6 * m + 3, 6, m, 3);
    DivModUnique(6 * m + 5, 6, m, 5);
    DivModUnique(6 * m + 7, 6, m + 1, 1);
    DivModUnique(6 * m + 1, 2, 3 * m, 1);
    DivModUnique(6 * m + 3, 2, 3 * m + 1, 1);
    DivModUnique(6 * m + 5, 2, 3 * m + 2, 1);
  }

  /** Iteration k prints the item at a position. */
  ghost predicate Owns(nLines: nat, k: nat, at: nat) {
    && 2 * k < nLines
    && (at == Start(k) || at == Start(k) + 1 || (at == Start(k) + 2 && 2 * k % 3 == 0 && 2 * k + 2 < nLines))
  }

  /** The first of three iterations, with its condition. */
  lemma FirstOwns(nLines: nat, m: nat, r: nat)
    requires 7 * m + r < ItemCount(nLines) && r < 3
    ensures Owns(nLines, 3 * m, 7 * m + r)
  {
    SevenItems(m);
    ItemCountReaches(if r == 2 then 6 * m + 2 else 6 * m, nLines, 7 * m + r);
  }

  lemma OtherOwns(nLines: nat, m: nat, r: nat)
    requires 7 * m + r < ItemCount(nLines) && 3 <= r < 7
    ensures Owns(nLines, 3 * m + if r < 5 then 1 else 2, 7 * m + r)
  {
    SevenItems(m);
    ItemCountReaches(if r < 5 then 6 * m + 2 else 6 * m + 4, nLines, 7 * m + r);
  }

  /** The iteration that prints the item at a position. */
  lemma OwnerOfPosition(nLines: nat, at: nat) returns (k: nat)
    requires at < ItemCount(nLines)
    ensures Owns(nLines, k, at)
  {
    var m, r := at / 7, at % 7;
    DivModDefinition(at, 7);
    if r < 3 {
      k := 3 * m;
      FirstOwns(nLines, m, r);
    } else {
      k := 3 * m + if r < 5 then 1 else 2;
      OtherOwns(nLines, m, r);
    }
  }

  /** No other statements carry the same numbers. */
  lemma CarriesIff(q: Request, ss: seq<Statement>)
    requires InRange(q) && q.nArgs > 0 && q.nLines > 0
    ensures Carries(q, ss) <==> ss == Statements(q)
  {
    CarriesDraws(q);
    if Carries(q, ss) {
      var items, own := Items(ss), Items(Statements(q));
      forall at: nat | at < |items|
        ensures items[at] == own[at]
      {
        var k := OwnerOfPosition(q.nLines, at);
        assert CarriesAt(q, items, k) && CarriesAt(q, own, k);
      }
      assert items == own;
      RegroupItems(ss);
      RegroupItems(Statements(q));
    }
  }

  // ---- every kernel of that shape is generated ---------------------------------------------------

  /** An assignment to an argument and one to a variable for every iteration, and the conditions. */
  ghost predicate ShapeAt(nLines: nat, items: seq<Item>, k: nat) {
    && Start(k) + 1 < |items|
    && items[Start(k)].Assign? && items[Start(k)].assignment.ArgAssign?
    && items[Start(k) + 1].Assign? && items[Start(k) + 1].assignment.TmpAssign?
    && (2 * k % 3 == 0 && 2 * k + 2 < nLines ==>
          Start(k) + 2 < |items| && items[Start(k) + 2].Condition?)
  }

  ghost predicate KernelShape(nArgs: nat, nLines: nat, ss: seq<Statement>) {
    && (forall i :: 0 <= i < |ss| ==> WellFormed(ss[i], nArgs))
    && |Items(ss)| == 2 * ((nLines + 1) / 2) + (nLines + 3) / 6
    && forall k: nat :: 2 * k < nLines ==> ShapeAt(nLines, Items(ss), k)
  }

  ghost predicate GoodItem(item: Item, nArgs: nat) {
    match item
    case Assign(s) => !s.If? && WellFormed(s, nArgs)
    case Condition(tmp, arg) => tmp < 2 && arg < nArgs
  }

  lemma {:induction false} GoodItemsOf(s: Statement, nArgs: nat)
    requires WellFormed(s, nArgs)
    ensures forall j :: 0 <= j < |ItemsOf(s)| ==> GoodItem(ItemsOf(s)[j], nArgs)
  {
    if s.If? {
      GoodItemsOf(s.body, nArgs);
    }
  }

  lemma {:induction false} GoodItems(ss: seq<Statement>, nArgs: nat)
    requires forall i :: 0 <= i < |ss| ==> WellFormed(ss[i], nArgs)
    ensures forall j :: 0 <= j < |Items(ss)| ==> GoodItem(Items(ss)[j], nArgs)
  {
    if ss != [] {
      GoodItemsOf(ss[0], nArgs);
      GoodItems(ss[1..], nArgs);
    }
  }

  /** The j-th number of iteration k, read off the items. */
  ghost function Choice(items: seq<Item>, k: nat, j: nat): nat {
    var at := Start(k) + if j < 3 then 0 else if j < 6 then 1 else 2;
    if at >= |items| then 0
    else
      match items[at]
      case Assign(ArgAssign(dst, src, factor)) => if j == 0 then dst else if j == 1 then src else factor
      case Assign(TmpAssign(tmp, src, factor)) => if j == 3 then tmp else if j == 4 then src else factor
      case Condition(tmp, arg) => if j == 6 then tmp else arg
      case _ => 0
  }

  /** The range the j-th number of an iteration is scaled to. */
  ghost function Bound(nArgs: nat, j: nat): (bound: nat)
    requires nArgs > 0
    ensures bound > 0
  {
    if j == 2 || j == 5 then 100000 else if j == 3 || j == 6 then 2 else nArgs
  }

  /** The smallest random number that is scaled to the value. */
  ghost function Unscaled(value: nat, bound: nat, randMax: nat): nat
    requires bound > 0
  {
    (value * (randMax + 1) + bound - 1) / bound
  }

  /** What its definition says of it. */
  lemma UnscaledBetween(value: nat, bound: nat, randMax: nat)
    requires bound > 0
    ensures var r := Unscaled(value, bound, randMax);
            value * (randMax + 1) <= r * bound < value * (randMax + 1) + bound
  {
    DivModDefinition(value * (randMax + 1) + bound - 1, bound);
  }

  lemma UnscaledScales(value: nat, bound: nat, randMax: nat)
    requires value < bound <= randMax + 1
    ensures Unscaled(value, bound, randMax) <= randMax
    ensures ScaledTo(bound, Unscaled(value, bound, randMax), randMax) == value
  {
    var m, r := randMax + 1, Unscaled(value, bound, randMax);
    UnscaledBetween(value, bound, randMax);
    DivModUnique(bound * r, m, value, bound * r - value * m);
    if r >= m {
      MulMonotone(m, r, bound);
      MulMonotone(value + 1, bound, m);
      MulDistributes(value, 1, m);
    }
  }

  ghost predicate CanBeDrawn(value: nat, bound: nat, randMax: nat) {
    exists r: nat :: r <= randMax && ScaledTo(bound, r, randMax) == value
  }

  /** The largest number is out of reach when rand() has too few values. */
  lemma LastNotDrawn(bound: nat, r: nat, randMax: nat)
    requires r <= randMax && randMax + 1 < bound
    ensures ScaledTo(bound, r, randMax) < bound - 1
  {
    var m := randMax + 1;
    DivModDefinition(bound * r, m);
    MulMonotone(r, m - 1, bound);
    MulMonotone(bound - 1, bound * r / m, m);
  }

  /** Every number below the bound can be drawn iff rand() has at least that many values. */
  lemma ScaledOntoIff(bound: nat, randMax: nat)
    requires bound > 0
    ensures (forall value: nat :: value < bound ==> CanBeDrawn(value, bound, randMax)) <==> bound <= randMax + 1
  {
    if bound <= randMax + 1 {
      forall value: nat | value < bound
        ensures CanBeDrawn(value, bound, randMax)
      {
        UnscaledScales(value, bound, randMax);
      }
    } else if CanBeDrawn(bound - 1, bound, randMax) {
      var r: nat :| r <= randMax && ScaledTo(bound, r, randMax) == bound - 1;
      LastNotDrawn(bound, r, randMax);
    } else {
      assert bound - 1 < bound;
    }
  }

  /** All numbers of the kernel can be drawn, each at its own place. */
  ghost predicate Drawable(nArgs: nat, nLines: nat, items: seq<Item>, randMax: nat)
    requires nArgs > 0
  {
    forall k: nat, j: nat :: 2 * k < nLines && NumberOf(nLines, k, j) ==>
      CanBeDrawn(Choice(items, k, j), Bound(nArgs, j), randMax)
  }

  /** Six numbers for the assignments of an iteration, and two for its condition. */
  ghost predicate NumberOf(nLines: nat, k: nat, j: nat) {
    j < 6 || (j < 8 && 2 * k % 3 == 0 && 2 * k + 2 < nLines)
  }

  /** The random numbers that lead to the items. */
  ghost function Stream(items: seq<Item>, nArgs: nat, randMax: nat): (nat, nat) -> nat
    requires nArgs > 0
  {
    (k: nat, j: nat) => Preimage(Choice(items, k, j), Bound(nArgs, j), randMax)
  }

  ghost function Preimage(value: nat, bound: nat, randMax: nat): (r: nat)
    ensures r <= randMax && (CanBeDrawn(value, bound, randMax) ==> ScaledTo(bound, r, randMax) == value)
  {
    if CanBeDrawn(value, bound, randMax) then
      var r: nat :| r <= randMax && ScaledTo(bound, r, randMax) == value;
      r
    else 0
  }

  /** Scaled again, they give back every number that can be drawn. */
  lemma StreamScales(q: Request, items: seq<Item>, randMax: nat, k: nat, j: nat)
    requires q.nArgs > 0 && q.draw == Scaled(Stream(items, q.nArgs, randMax), randMax)
    requires Drawable(q.nArgs, q.nLines, items, randMax) && 2 * k < q.nLines && NumberOf(q.nLines, k, j)
    ensures q.draw(Bound(q.nArgs, j), k, j) == Choice(items, k, j)
  {
    assert CanBeDrawn(Choice(items, k, j), Bound(q.nArgs, j), randMax);
  }

  /** The items of an iteration are its choices. */
  lemma StreamCarriesAt(q: Request, items: seq<Item>, randMax: nat, k: nat)
    requires q.nArgs > 0 && q.draw == Scaled(Stream(items, q.nArgs, randMax), randMax)
    requires Drawable(q.nArgs, q.nLines, items, randMax) && 2 * k < q.nLines && ShapeAt(q.nLines, items, k)
    ensures CarriesAt(q, items, k)
  {
    StreamScales(q, items, randMax, k, 0);
    StreamScales(q, items, randMax, k, 1);
    StreamScales(q, items, randMax, k, 2);
    StreamScales(q, items, randMax, k, 3);
    StreamScales(q, items, randMax, k, 4);
    StreamScales(q, items, randMax, k, 5);
    if 2 * k % 3 == 0 && 2 * k + 2 < q.nLines {
      StreamScales(q, items, randMax, k, 6);
      StreamScales(q, items, randMax, k, 7);
    }
  }

  /** With these values of rand() the text that is printed parses to the statements. */
  ghost predicate Produces(rand: (nat, nat) -> nat, randMax: nat, nArgs: nat, nLines: nat, ss: seq<Statement>)
    requires nArgs > 0
  {
    && (forall k, j :: rand(k, j) <= randMax)
    && var q := Request(nArgs, nLines, Scaled(rand, randMax));
       ParseProgram(ProgramText(nArgs, Statements(q))) == Some((nArgs, ss))
  }

  /** Every kernel of the shape whose numbers can be drawn occurs. */
  lemma EveryKernelOccurs(nArgs: nat, nLines: nat, ss: seq<Statement>, randMax: nat) returns (rand: (nat, nat) -> nat)
    requires nArgs > 0 && nLines > 0 && KernelShape(nArgs, nLines, ss)
    requires Drawable(nArgs, nLines, Items(ss), randMax)
    ensures Produces(rand, randMax, nArgs, nLines, ss)
  {
    rand := Stream(Items(ss), nArgs, randMax);
    var q := Request(nArgs, nLines, Scaled(rand, randMax));
    ScaledInRange(nArgs, nLines, rand, randMax);
    forall k: nat | 2 * k < nLines
      ensures CarriesAt(q, Items(ss), k)
    {
      assert ShapeAt(nLines, Items(ss), k);
      StreamCarriesAt(q, Items(ss), randMax, k);
    }
    CarriesIff(q, ss);
    ParseOfPrinted(nArgs, ss);
  }

  /** The numbers of an iteration, read off its items. */
  lemma DrawnAt(q: Request, items: seq<Item>, k: nat, j: nat)
    requires q.nArgs > 0 && CarriesAt(q, items, k) && NumberOf(q.nLines, k, j)
    ensures ShapeAt(q.nLines, items, k)
    ensures Choice(items, k, j) == q.draw(Bound(q.nArgs, j), k, j)
  {
  }

  /** No other kernel occurs. */
  lemma OnlyTheseOccur(nArgs: nat, nLines: nat, ss: seq<Statement>, randMax: nat, rand: (nat, nat) -> nat)
    requires nArgs > 0 && nLines > 0 && Produces(rand, randMax, nArgs, nLines, ss)
    ensures KernelShape(nArgs, nLines, ss) && Drawable(nArgs, nLines, Items(ss), randMax)
  {
    var q := Request(nArgs, nLines, Scaled(rand, randMax));
    ScaledInRange(nArgs, nLines, rand, randMax);
    GeneratedWellFormed(q);
    CarriesDraws(q);
    forall k: nat | 2 * k < nLines
      ensures ShapeAt(nLines, Items(ss), k)
    {
      DrawnAt(q, Items(ss), k, 0);
    }
    forall k: nat, j: nat | 2 * k < nLines && NumberOf(nLines, k, j)
      ensures CanBeDrawn(Choice(Items(ss), k, j), Bound(nArgs, j), randMax)
    {
      DrawnAt(q, Items(ss), k, j);
      assert ScaledTo(Bound(nArgs, j), rand(k, j), randMax) == Choice(Items(ss), k, j);
    }
  }

  /**
   * Main result. Some values of rand() lead to a text that parses to the statements if and only if
   * these have the shape and their numbers can be drawn.
   */
  lemma OccursIff(nArgs: nat, nLines: nat, ss: seq<Statement>, randMax: nat)
    requires nArgs > 0 && nLines > 0
    ensures (exists rand :: Produces(rand, randMax, nArgs, nLines, ss))
            <==> KernelShape(nArgs, nLines, ss) && Drawable(nArgs, nLines, Items(ss), randMax)
  {
    if rand :| Produces(rand, randMax, nArgs, nLines, ss) {
      OnlyTheseOccur(nArgs, nLines, ss, randMax, rand);
    }
    if KernelShape(nArgs, nLines, ss) && Drawable(nArgs, nLines, Items(ss), randMax) {
      var rand := EveryKernelOccurs(nArgs, nLines, ss, randMax);
    }
  }

  /** The choices of an iteration are in range. */
  lemma ChoiceInRange(nArgs: nat, nLines: nat, ss: seq<Statement>, k: nat, j: nat)
    requires nArgs > 0 && KernelShape(nArgs, nLines, ss) && 2 * k < nLines && NumberOf(nLines, k, j)
    ensures Choice(Items(ss), k, j) < Bound(nArgs, j)
  {
    var items, at := Items(ss), Start(k) + if j < 3 then 0 else if j < 6 then 1 else 2;
    GoodItems(ss, nArgs);
    assert ShapeAt(nLines, items, k);
    assert GoodItem(items[at], nArgs);
  }

  /** With a large RAND_MAX nothing but the shape matters. */
  lemma AllDrawable(nArgs: nat, nLines: nat, ss: seq<Statement>, randMax: nat)
    requires 0 < nArgs <= randMax + 1 && 100000 <= randMax + 1 && KernelShape(nArgs, nLines, ss)
    ensures Drawable(nArgs, nLines, Items(ss), randMax)
  {
    forall k: nat, j: nat | 2 * k < nLines && NumberOf(nLines, k, j)
      ensures CanBeDrawn(Choice(Items(ss), k, j), Bound(nArgs, j), randMax)
    {
      ChoiceInRange(nArgs, nLines, ss, k, j);
      ScaledOntoIff(Bound(nArgs, j), randMax);
    }
  }
}
