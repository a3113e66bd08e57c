/**
 * Arrays of width * m slots in which every slot links to the one `width` further on, modulo one slot
 * less than there are: the chase runs through the columns of a matrix with m rows of `width` slots.
 */
module StepCycle {
  import opened Arithmetic
  import opened PointerChase

  /** The slot visited at step k, counted from 0. */
  function Slot(width: nat, m: nat, k: nat): nat
    requires m > 0
  {
    width * Row(m, k) + Col(m, k) + 1
  }

  function Row(m: nat, k: nat): nat
    requires m > 0
  {
    k % m
  }

  function Col(m: nat, k: nat): nat
    requires m > 0
  {
    k / m
  }

  /** The step at which slot i > 0 is visited. */
  function StepOf(width: nat, m: nat, i: nat): nat
    requires width > 0 && i > 0
  {
    (i - 1) % width * m + (i - 1) / width
  }

  /** The successor of slot i among n slots. */
  function StepNext(width: nat, n: nat, i: nat): nat
    requires n > 0
  {
    if i == 0 then 1
    else if i + width == n then 0
    else if i + width < n then i + width
    else i + width - (n - 1)
  }

  ghost predicate StepData(width: nat, m: nat, d: seq<nat>) {
    width >= 2 && m >= 2 && |d| == width * m && |d| > 0
    && forall i :: 0 <= i < |d| ==> d[i] == StepNext(width, |d|, i)
  }

  ghost function NextRow(m: nat, row: nat): nat {
    if row + 1 < m then row + 1 else 0
  }

  ghost function NextCol(m: nat, row: nat, col: nat): nat {
    if row + 1 < m then col else col + 1
  }

  /** The number of slots, by the width times the rows that remain. */
  lemma RowsBelow(width: nat, m: nat, row: nat, left: nat)
    requires row + left <= m
    ensures width * row + width * left <= width * m
  {
    MulMonotone(row + left, m, width);
    MulDistributes(row, left, width);
  }

  lemma TwoRows(width: nat, m: nat)
    requires m >= 2
    ensures 2 * width <= width * m
  {
    MulMonotone(2, m, width);
  }

  /** A slot that is not in the last row. */
  lemma LinkDown(width: nat, m: nat, row: nat, col: nat, n: nat, index: nat)
    requires row + 2 <= m && col < width && n == width * m && index == width * row + col + 1
    ensures index + width <= n && index + width == width * (row + 1) + col + 1
    ensures index + width == n <==> row + 2 == m && col + 1 == width
  {
    RowsBelow(width, m, row, 2);
    MulDistributes(row, 1, width);
    if row + 3 <= m {
      RowsBelow(width, m, row, 3);
    } else {
      MulDistributes(row, 2, width);
      assert (row + 2) * width == n;
    }
  }

  /** A slot in the last row: the link goes to the head of the next column. */
  lemma LinkAcross(width: nat, m: nat, row: nat, col: nat, n: nat, index: nat)
    requires m >= 2 && row + 1 == m && width >= 2 && n == width * m
    requires index == width * row + col + 1 < n
    ensures n > 1 && index + width == n + col + 1 && col + 1 < width
    ensures (index + width) % (n - 1) == index + width - (n - 1) == col + 2
  {
    TwoRows(width, m);
    MulDistributes(row, 1, width);
    ModOnce(index + width, n - 1);
  }

  /** The link computed at a slot, and where that link leads. */
  lemma Link(width: nat, m: nat, row: nat, col: nat, n: nat, index: nat)
    requires width >= 2 && m >= 2 && row < m && col < width && n == width * m
    requires index == width * row + col + 1 < n
    ensures n > 1 && (index + width == n <==> row + 2 == m && col + 1 == width)
    ensures index + width > n ==> (index + width) % (n - 1) == StepNext(width, n, index)
    ensures index + width != n ==>
              && StepNext(width, n, index) == width * NextRow(m, row) + NextCol(m, row, col) + 1
              && NextCol(m, row, col) < width && StepNext(width, n, index) < n
  {
    TwoRows(width, m);
    if row + 2 <= m {
      LinkDown(width, m, row, col, n, index);
    } else {
      LinkAcross(width, m, row, col, n, index);
    }
  }

  lemma RowAndColumnNext(m: nat, k: nat)
    requires m > 0
    ensures Row(m, k + 1) == NextRow(m, Row(m, k)) && Col(m, k + 1) == NextCol(m, Row(m, k), Col(m, k))
  {
    var q, r := Col(m, k), Row(m, k);
    DivModDefinition(k, m);
    MulDistributes(q, 1, m);
    DivModUnique(k + 1, m, NextCol(m, r, q), NextRow(m, r));
  }

  lemma RowAndColumn(width: nat, m: nat, k: nat)
    requires width >= 2 && m >= 2 && k + 1 < width * m
    ensures Row(m, k) < m && Col(m, k) < width && k == Col(m, k) * m + Row(m, k)
    ensures Col(m, k) + 1 == width ==> Row(m, k) + 1 < m
  {
    DivModDefinition(k, m);
    MulMonotone(width, Col(m, k), m);
    if Col(m, k) + 1 == width {
      MulDistributes(Col(m, k), 1, m);
    }
  }

  lemma StepOfSlot(width: nat, m: nat, row: nat, col: nat)
    requires row < m && col < width
    ensures StepOf(width, m, row * width + col + 1) == col * m + row
    ensures Slot(width, m, col * m + row) == row * width + col + 1
  {
    DivModUnique(row * width + col, width, row, col);
    DivModUnique(col * m + row, m, col, row);
  }

  /** The last column has no slot in the last row. */
  lemma StepBelow(width: nat, m: nat, row: nat, col: nat)
    requires row < m && col < width && width * row + col + 1 < width * m
    ensures col * m + row + 1 < width * m
  {
    RowsBelow(m, width, col, 1);
    if col + 2 <= width {
      RowsBelow(m, width, col, 2);
    } else if row + 1 == m {
      MulDistributes(row, 1, width);
    }
  }

  lemma SlotInverseAt(width: nat, m: nat, k: nat, row: nat, col: nat)
    requires row < m && col < width && k == col * m + row && k + 1 < width * m
    ensures 0 < Slot(width, m, k) < width * m && StepOf(width, m, Slot(width, m, k)) == k
  {
    StepOfSlot(width, m, row, col);
    StepBelow(m, width, col, row);
  }

  lemma StepOfInverseAt(width: nat, m: nat, i: nat, row: nat, col: nat)
    requires row < m && col < width && i == row * width + col + 1 && i < width * m
    ensures StepOf(width, m, i) + 1 < width * m && Slot(width, m, StepOf(width, m, i)) == i
  {
    StepOfSlot(width, m, row, col);
    StepBelow(width, m, row, col);
  }

  lemma QuotientBelow(x: nat, width: nat, m: nat)
    requires width > 0 && x < width * m
    ensures x / width < m && x % width < width && x == (x / width) * width + x % width
  {
    DivModDefinition(x, width);
    MulMonotone(m, x / width, width);
  }

  /** Slot and StepOf are inverse bijections between the steps and the slots other than 0. */
  lemma SlotInverse(width: nat, m: nat, k: nat)
    requires width >= 2 && m >= 2 && k + 1 < width * m
    ensures 0 < Slot(width, m, k) < width * m && StepOf(width, m, Slot(width, m, k)) == k
  {
    RowAndColumn(width, m, k);
    SlotInverseAt(width, m, k, Row(m, k), Col(m, k));
  }

  lemma StepOfInverse(width: nat, m: nat, i: nat)
    requires width >= 2 && m >= 2 && 0 < i < width * m
    ensures StepOf(width, m, i) + 1 < width * m && Slot(width, m, StepOf(width, m, i)) == i
  {
    QuotientBelow(i - 1, width, m);
    StepOfInverseAt(width, m, i, (i - 1) / width, (i - 1) % width);
  }

  /** The k-th load of the chase ends in the slot given by the closed form. */
  lemma {:induction false} StepWalk(width: nat, m: nat, d: seq<nat>, k: nat)
    requires StepData(width, m, d) && 0 < k < |d|
    ensures Closed(d) && Walk(d, k) == Slot(width, m, k - 1)
  {
    StepClosed(width, m, d);
    if k == 1 {
      DivModUnique(0, m, 0, 0);
      assert Walk(d, 1) == d[Walk(d, 0)];
    } else {
      StepWalk(width, m, d, k - 1);
      RowAndColumn(width, m, k - 2);
      RowAndColumn(width, m, k - 1);
      RowAndColumnNext(m, k - 2);
      Link(width, m, Row(m, k - 2), Col(m, k - 2), |d|, Slot(width, m, k - 2));
      LastStep(width, m, k - 2, |d|);
    }
  }

  /** The link of the slot visited at step k leads on, unless that is the last step. */
  lemma LastStep(width: nat, m: nat, k: nat, n: nat)
    requires width >= 2 && m >= 2 && k + 1 < n && n == width * m
    ensures Row(m, k) + 2 == m && Col(m, k) + 1 == width <==> k + 2 == n
  {
    DivModDefinition(k, m);
    RowAndColumn(width, m, k);
    MulDistributes(width - 1, 1, m);
    if k + 2 == n {
      DivModUnique(k, m, width - 1, m - 2);
    }
  }

  lemma StepClosed(width: nat, m: nat, d: seq<nat>)
    requires StepData(width, m, d)
    ensures Closed(d)
  {
    TwoRows(width, m);
  }

  /** The last step leads back to slot 0. */
  lemma LastSlot(width: nat, m: nat, n: nat)
    requires width >= 2 && m >= 2 && n == width * m
    ensures n >= 4 && 0 < Slot(width, m, n - 2) < n && StepNext(width, n, Slot(width, m, n - 2)) == 0
  {
    TwoRows(width, m);
    RowAndColumn(width, m, n - 2);
    SlotInverse(width, m, n - 2);
    LastStep(width, m, n - 2, n);
    Link(width, m, Row(m, n - 2), Col(m, n - 2), n, Slot(width, m, n - 2));
  }

  lemma WalkReturns(width: nat, m: nat, d: seq<nat>)
    requires StepData(width, m, d) && Closed(d)
    ensures |d| > 1 && Walk(d, |d|) == 0
  {
    LastSlot(width, m, |d|);
    StepWalk(width, m, d, |d| - 1);
    assert Walk(d, |d|) == d[Walk(d, |d| - 1)];
  }

  lemma WalkAway(width: nat, m: nat, d: seq<nat>, k: nat)
    requires StepData(width, m, d) && Closed(d) && 0 < k < |d|
    ensures Walk(d, k) != 0
  {
    StepWalk(width, m, d, k);
  }

  /** The layout is a single cycle through all slots, whatever the width and the number of rows. */
  lemma StepIsOneCycle(width: nat, m: nat, d: seq<nat>)
    requires StepData(width, m, d)
    ensures OneCycle(d)
  {
    StepClosed(width, m, d);
    WalkReturns(width, m, d);
    forall k | 0 < k < |d|
      ensures Walk(d, k) != 0
    {
      WalkAway(width, m, d, k);
    }
  }
}
