/** arith_speed/arith_speed.cpp, run_benchmark: the consistency check of a kernel's results. */
module ArithCheck {
  import opened ArithSpeed
  import opened KernelLanguage
  import opened Words

  const ARITH_OPERATIONS: nat := 100
  const TRANS_OPERATIONS: nat := 10

  /** The rows genKernel is asked for (line 574, with `trans` as set in main). */
  function UnrollFactor(f: Function): nat {
    if f.MathFunction? then TRANS_OPERATIONS else ARITH_OPERATIONS
  }

  /** n operations on a lane. */
  ghost function HostRun<V>(f: Function, ops: Ops<V>, n: nat, s: Lane<V>): Lane<V> {
    if n == 0 then s else Apply1(f, ops, HostRun(f, ops, n - 1, s))
  }

  /** The value `a` the host arrives at. */
  ghost function HostResult<V>(f: Function, ops: Ops<V>, data: seq<V>, vec: nat, size: nat): V
    requires |data| == 2 * vec && vec > 0
  {
    if f == Vliw then LoopLane(Vliw, ops, vec, 100, size / 100, 0, FirstLane(data, vec, 0)).a
    else HostRun(f, ops, size, FirstLane(data, vec, 0)).a
  }

  /** Lines 643 to 692: the five two-term recurrences differ in the value of tmp only. */
  method HostRecurrence<V>(f: Function, ops: Ops<V>, data: seq<V>, vec: nat, size: nat) returns (a: V)
    requires f == Add || f == Sub || f == Mul || f == Div || f == Mad
    requires |data| == 2 * vec && vec > 0
    ensures a == HostResult(f, ops, data, vec, size)
  {
    a := data[0];
    var b := data[vec];
    ghost var first := FirstLane(data, vec, 0);
    for i := 0 to size
      invariant HostRun(f, ops, i, first) == first.(a := a, b := b)
    {
      var tmp := match f
        case Add => (ops.binary)(Plus, a, b)
        case Sub => (ops.binary)(Minus, a, b)
        case Mul => (ops.binary)(Times, a, b)
        case Div => (ops.binary)(Divide, a, b)
        case _ => (ops.binary)(Plus, (ops.binary)(Times, a, b), ops.tenth);
      a := b;
      b := tmp;
    }
  }

  /** Lines 693 to 707, with `d = tmp` where the kernel has `d = tmp2`. */
  method HostMadMul<V>(ops: Ops<V>, data: seq<V>, vec: nat, size: nat) returns (a: V)
    requires |data| == 2 * vec && vec > 0
    ensures a == HostResult(MadMul, ops, data, vec, size)
  {
    a := data[0];
    var b, c, d := data[vec], data[vec], data[0];
    for i := 0 to size
      invariant HostRun(MadMul, ops, i, FirstLane(data, vec, 0)).a == a
      invariant HostRun(MadMul, ops, i, FirstLane(data, vec, 0)).b == b
    {
      var tmp := (ops.binary)(Plus, (ops.binary)(Times, a, b), ops.tenth);
      a := b;
      b := tmp;
      var tmp2 := (ops.binary)(Times, c, d);
      c := d;
      d := tmp;
    }
  }

  /** Lines 708 to 714. */
  method HostVec<V>(ops: Ops<V>, data: seq<V>, vec: nat, size: nat) returns (a: V)
    requires |data| == 2 * vec && vec > 0
    ensures a == HostResult(Vec, ops, data, vec, size)
  {
    a := data[0];
    var b := data[vec];
    for i := 0 to size
      invariant HostRun(Vec, ops, i, FirstLane(data, vec, 0)) == FirstLane(data, vec, 0).(a := a)
    {
      a := (ops.binary)(Minus, a, b);
    }
  }

  /** Lines 742 to 807: the seven functions of one argument. */
  method HostMath<V>(m: Math, ops: Ops<V>, data: seq<V>, vec: nat, size: nat) returns (a: V)
    requires |data| == 2 * vec && vec > 0
    ensures a == HostResult(MathFunction(m), ops, data, vec, size)
  {
    a := data[0];
    for i := 0 to size
      invariant HostRun(MathFunction(m), ops, i, FirstLane(data, vec, 0)) == FirstLane(data, vec, 0).(a := a)
    {
      var tmp := (ops.math)(m, a);
      a := tmp;
    }
  }

  ghost function Multiple(x: nat, i: nat): nat {
    if i == 0 then 0 else Multiple(x, i - 1) + x
  }

  lemma {:induction false} MultipleIsProduct(x: nat, i: nat)
    ensures Multiple(x, i) == i * x
  {
    if i > 0 {
      MultipleIsProduct(x, i - 1);
    }
  }

  lemma {:induction false} MultipleMod3(x: nat, i: nat)
    ensures Multiple(x, i) % 3 == match x % 3 case 0 => 0 case 1 => i % 3 case _ => 2 * (i % 3) % 3
  {
    if i > 0 {
      MultipleMod3(x, i - 1);
    }
  }

  /** The operator lane 0 gets in row i depends on vec through vec % 3 only. */
  lemma LaneZeroOperator(vec: nat, i: nat)
    ensures CycleOperator(i * vec + 0)
            == match vec % 3
               case 1 => if i % 3 == 0 then Plus else if i % 3 == 1 then Times else Minus
               case 2 => if i % 3 == 0 then Plus else if i % 3 == 1 then Minus else Times
               case _ => Plus
  {
    MultipleMod3(vec, i);
    MultipleIsProduct(vec, i);
  }

  /** Lines 715 to 741: the host's three-way switch is lane 0 of the generated schedule. */
  method HostVliw<V>(ops: Ops<V>, data: seq<V>, vec: nat, size: nat) returns (a: V)
    requires |data| == 2 * vec && vec > 0
    ensures a == HostResult(Vliw, ops, data, vec, size)
  {
    a := data[0];
    var b := data[vec];
    ghost var first := FirstLane(data, vec, 0);
    var kind := vec % 3;
    for j := 0 to size / ARITH_OPERATIONS
      invariant LoopLane(Vliw, ops, vec, 100, j, 0, first) == first.(a := a)
    {
      ghost var start := first.(a := a);
      for i := 0 to ARITH_OPERATIONS
        invariant RowsLane(Vliw, ops, vec, i, 0, start) == first.(a := a)
      {
        LaneZeroOperator(vec, i);
        match kind {
          case 1 =>
            if i % 3 == 0 { a := (ops.binary)(Plus, a, b); }
            if i % 3 == 1 { a := (ops.binary)(Times, a, b); }
            if i % 3 == 2 { a := (ops.binary)(Minus, a, b); }
          case 2 =>
            if i % 3 == 0 { a := (ops.binary)(Plus, a, b); }
            if i % 3 == 1 { a := (ops.binary)(Minus, a, b); }
            if i % 3 == 2 { a := (ops.binary)(Times, a, b); }
          case _ =>
            a := (ops.binary)(Plus, a, b);
        }
      }
    }
  }

  // ---- kernel and host agree -----------------------------------------------------------------

  lemma {:induction false} RunAdds<V>(f: Function, ops: Ops<V>, m: nat, n: nat, s: Lane<V>)
    ensures HostRun(f, ops, m + n, s) == HostRun(f, ops, n, HostRun(f, ops, m, s))
  {
    if n > 0 {
      RunAdds(f, ops, m, n - 1, s);
      assert m + n - 1 == m + (n - 1);
    }
  }

  lemma {:induction false} RowsAreRun<V>(f: Function, ops: Ops<V>, vec: nat, n: nat, i: nat, s: Lane<V>)
    requires f != Vliw
    ensures RowsLane(f, ops, vec, n, i, s) == HostRun(f, ops, n, s)
  {
    if n > 0 {
      RowsAreRun(f, ops, vec, n - 1, i, s);
    }
  }

  /** Unrolled and looped, the kernel performs unroll * iterations operations in every lane. */
  lemma {:induction false} LoopIsRun<V>(f: Function, ops: Ops<V>, vec: nat, unroll: nat, iterations: nat,
                                        i: nat, s: Lane<V>)
    requires f != Vliw
    ensures LoopLane(f, ops, vec, unroll, iterations, i, s) == HostRun(f, ops, iterations * unroll, s)
  {
    if iterations > 0 {
      LoopIsRun(f, ops, vec, unroll, iterations - 1, i, s);
      RowsAreRun(f, ops, vec, unroll, i, LoopLane(f, ops, vec, unroll, iterations - 1, i, s));
      RunAdds(f, ops, (iterations - 1) * unroll, unroll, s);
      assert iterations * unroll == (iterations - 1) * unroll + unroll;
    }
  }

  /** The loop count passed to the kernel: the low 32 bits of `_size` (lines 594 and 600). */
  function KernelIterations(f: Function, size: nat): nat {
    Wrap32(size / UnrollFactor(f))
  }

  /** The kernel performs exactly the operations asked for. */
  predicate ExactSize(f: Function, size: nat) {
    if f.MathFunction? then size % 10 == 0 && size < 10 * TWO_32
    else (f == Vliw || size % 100 == 0) && size < 100 * TWO_32
  }

  lemma ExactSizeSteps(f: Function, size: nat)
    requires f != Vliw
    ensures ExactSize(f, size) <==> KernelIterations(f, size) * UnrollFactor(f) == size
  {
    assert Wrap32(size / UnrollFactor(f)) <= size / UnrollFactor(f);
    if f.MathFunction? {
      assert size == size / 10 * 10 + size % 10;
    } else {
      assert size == size / 100 * 100 + size % 100;
    }
  }

  /** What the kernel makes of lane i. */
  ghost function KernelValue<V>(f: Function, ops: Ops<V>, data: seq<V>, vec: nat, size: nat, i: nat): V
    requires |data| == 2 * vec && i < vec
  {
    LaneOutput(f, ops, LoopLane(f, ops, vec, UnrollFactor(f), KernelIterations(f, size), i, FirstLane(data, vec, i)))
  }

  lemma ValuesAgree<V>(f: Function, ops: Ops<V>, data: seq<V>, vec: nat, size: nat, i: nat)
    requires f != MadMul && f != Vliw && |data| == 2 * vec && i < vec && ExactSize(f, size)
    ensures KernelValue(f, ops, data, vec, size, i) == HostResult(f, ops, [data[i], data[i + vec]], 1, size)
    ensures i == 0 ==> KernelValue(f, ops, data, vec, size, i) == HostResult(f, ops, data, vec, size)
  {
    ExactSizeSteps(f, size);
    LoopIsRun(f, ops, vec, UnrollFactor(f), KernelIterations(f, size), i, FirstLane(data, vec, i));
    assert FirstLane([data[i], data[i + vec]], 1, 0) == FirstLane(data, vec, i);
  }

  lemma FirstValueAgrees<V>(f: Function, ops: Ops<V>, data: seq<V>, vec: nat, size: nat)
    requires f != MadMul && |data| == 2 * vec && vec > 0 && ExactSize(f, size)
    ensures KernelValue(f, ops, data, vec, size, 0) == HostResult(f, ops, data, vec, size)
  {
    if f != Vliw {
      ValuesAgree(f, ops, data, vec, size, 0);
    }
  }

  /** The first value the kernel stores is the one the host computes. */
  ghost predicate Agrees<V>(f: Function, native: bool, ops: Ops<V>, data: seq<V>, vec: nat, size: nat)
    requires |data| == 2 * vec && vec > 0
  {
    Assigns(MakeKernel(f, native, vec, UnrollFactor(f)), data, KernelIterations(f, size), Lanes(f, vec), ops, 0,
            HostResult(f, ops, data, vec, size))
  }

  /** What has to be compared. */
  lemma AgreesIffEqual<V(!new)>(f: Function, native: bool, ops: Ops<V>, data: seq<V>, vec: nat, size: nat)
    requires |data| == 2 * vec && vec > 0
    ensures Agrees(f, native, ops, data, vec, size)
            <==> KernelValue(f, ops, data, vec, size, 0) == HostResult(f, ops, data, vec, size)
  {
    KernelComputes(f, native, vec, UnrollFactor(f), KernelIterations(f, size), data, ops, 0, 0);
  }

  /**
   * Main result. When the size is exact, the value the kernel assigns in lane i is what the host's
   * loop makes of the lane's two inputs.
   */
  lemma LanesAgree<V(!new)>(f: Function, native: bool, ops: Ops<V>, data: seq<V>, vec: nat, size: nat, i: nat)
    requires f != MadMul && f != Vliw && |data| == 2 * vec && i < vec && ExactSize(f, size)
    ensures Assigns(MakeKernel(f, native, vec, UnrollFactor(f)), data, KernelIterations(f, size),
                    Lanes(f, vec), ops, i, HostResult(f, ops, [data[i], data[i + vec]], 1, size))
  {
    KernelComputes(f, native, vec, UnrollFactor(f), KernelIterations(f, size), data, ops, i, 0);
    ValuesAgree(f, ops, data, vec, size, i);
  }

  /** The value the host reads back first is the one it computes; this includes VLIW. */
  lemma FirstResultAgrees<V(!new)>(f: Function, native: bool, ops: Ops<V>, data: seq<V>, vec: nat, size: nat)
    requires f != MadMul && |data| == 2 * vec && vec > 0 && ExactSize(f, size)
    ensures Agrees(f, native, ops, data, vec, size)
  {
    AgreesIffEqual(f, native, ops, data, vec, size);
    FirstValueAgrees(f, ops, data, vec, size);
  }

  // ---- where they do not agree -----------------------------------------------------------------

  /** Arithmetic in which every operation of the function makes `a` larger by one. */
  ghost function Counting(f: Function): Ops<int> {
    Ops((op: Operator, x: int, y: int) =>
          if PerElement(f) then x + 1 else if f == Mad && op == Plus then x else y + 1,
        (m: Math, x: int) => x + 1, 0)
  }

  lemma {:induction false} CountRun(f: Function, n: nat, s: Lane<int>)
    requires f != MadMul && f != Vliw && s.b == s.a + 1
    ensures var t := HostRun(f, Counting(f), n, s);
            t.a == s.a + n && (PerElement(f) || f.MathFunction? || t.b == s.b + n)
  {
    if n > 0 {
      CountRun(f, n - 1, s);
    }
  }

  lemma {:induction false} CountRows(vec: nat, n: nat, i: nat, s: Lane<int>)
    ensures RowsLane(Vliw, Counting(Vliw), vec, n, i, s).a == s.a + n
  {
    if n > 0 {
      CountRows(vec, n - 1, i, s);
    }
  }

  lemma {:induction false} CountLoop(vec: nat, iterations: nat, s: Lane<int>)
    ensures LoopLane(Vliw, Counting(Vliw), vec, 100, iterations, 0, s).a == s.a + 100 * iterations
  {
    if iterations > 0 {
      CountLoop(vec, iterations - 1, s);
      CountRows(vec, 100, 0, LoopLane(Vliw, Counting(Vliw), vec, 100, iterations - 1, 0, s));
    }
  }

  /** The operations kernel and host perform. */
  function KernelSteps(f: Function, size: nat): nat {
    UnrollFactor(f) * KernelIterations(f, size)
  }

  function HostSteps(f: Function, size: nat): nat {
    if f == Vliw then 100 * (size / 100) else size
  }

  lemma ExactSizeIffSteps(f: Function, size: nat)
    ensures ExactSize(f, size) <==> KernelSteps(f, size) == HostSteps(f, size)
  {
    if f != Vliw {
      ExactSizeSteps(f, size);
    }
  }

  lemma CountedValues(f: Function, data: seq<int>, vec: nat, size: nat)
    requires f != MadMul && |data| == 2 * vec && vec > 0 && data[vec] == data[0] + 1
    ensures KernelValue(f, Counting(f), data, vec, size, 0) == data[0] + KernelSteps(f, size)
    ensures HostResult(f, Counting(f), data, vec, size) == data[0] + HostSteps(f, size)
  {
    var iterations, first := KernelIterations(f, size), FirstLane(data, vec, 0);
    if f == Vliw {
      CountLoop(vec, iterations, first);
      CountLoop(vec, size / 100, first);
    } else {
      LoopIsRun(f, Counting(f), vec, UnrollFactor(f), iterations, 0, first);
      CountRun(f, iterations * UnrollFactor(f), first);
      CountRun(f, size, first);
    }
  }

  /** The size has to be exact: for every function and width, counting tells any other size. */
  lemma ExactSizeNeeded(f: Function, native: bool, data: seq<int>, vec: nat, size: nat)
    requires f != MadMul && |data| == 2 * vec && vec > 0 && data[vec] == data[0] + 1
    ensures Agrees(f, native, Counting(f), data, vec, size) <==> ExactSize(f, size)
  {
    AgreesIffEqual(f, native, Counting(f), data, vec, size);
    CountedValues(f, data, vec, size);
    ExactSizeIffSteps(f, size);
  }

  /** The default size is exact for every function; 1024, given as 1K, is exact for VLIW only. */
  lemma DefaultAndOneK(f: Function, native: bool, data: seq<int>, vec: nat)
    requires f != MadMul && |data| == 2 * vec && vec > 0 && data[vec] == data[0] + 1
    ensures Agrees(f, native, Counting(f), data, vec, 100000)
    ensures Agrees(f, native, Counting(f), data, vec, 1024) <==> f == Vliw
  {
    ExactSizeNeeded(f, native, data, vec, 100000);
    ExactSizeNeeded(f, native, data, vec, 1024);
  }

  lemma {:induction false} FixedRun<V>(m: Math, ops: Ops<V>, n: nat, s: Lane<V>)
    requires (ops.math)(m, s.a) == s.a
    ensures HostRun(MathFunction(m), ops, n, s) == s
  {
    if n > 0 {
      FixedRun(m, ops, n - 1, s);
    }
  }

  /** On a fixed point of the function the number of operations does not matter. */
  lemma FixedPointAgrees<V(!new)>(m: Math, native: bool, ops: Ops<V>, data: seq<V>, vec: nat, size: nat)
    requires |data| == 2 * vec && vec > 0 && (ops.math)(m, data[0]) == data[0]
    ensures Agrees(MathFunction(m), native, ops, data, vec, size)
  {
    var f, first := MathFunction(m), FirstLane(data, vec, 0);
    AgreesIffEqual(f, native, ops, data, vec, size);
    LoopIsRun(f, ops, vec, UnrollFactor(f), KernelIterations(f, size), 0, first);
    FixedRun(m, ops, KernelIterations(f, size) * UnrollFactor(f), first);
    FixedRun(m, ops, size, first);
  }

  /** Arithmetic in which products are 1 and a sum is 5 unless 0 is added. */
  ghost function SumsShow(): Ops<int> {
    Ops((op: Operator, x: int, y: int) => if op == Times then 1 else if y == 0 then x else 5,
        (m: Math, x: int) => x, 0)
  }

  lemma {:induction false} OnesStay(n: nat, s: Lane<int>)
    requires s == Lane(1, 1, 1, 1)
    ensures HostRun(MadMul, SumsShow(), n, s) == s
  {
    if n > 0 {
      OnesStay(n - 1, s);
    }
  }

  /** MAD_MUL is told from the host's computation at every size. */
  lemma MadMulNeverSafe(native: bool, data: seq<int>, vec: nat, size: nat)
    requires |data| == 2 * vec && vec > 0 && data[0] == data[vec] == 1
    ensures !Agrees(MadMul, native, SumsShow(), data, vec, size)
  {
    var iterations, first := KernelIterations(MadMul, size), FirstLane(data, vec, 0);
    AgreesIffEqual(MadMul, native, SumsShow(), data, vec, size);
    LoopIsRun(MadMul, SumsShow(), vec, 100, iterations, 0, first);
    OnesStay(iterations * 100, first);
    OnesStay(size, first);
  }

  /**
   * Main result. Kernel and host agree whatever the arithmetic and the data exactly for the functions
   * other than MAD_MUL with an exact size.
   */
  lemma AlwaysAgreesIff(f: Function, native: bool, vec: nat, size: nat)
    requires vec > 0
    ensures (forall ops: Ops<int>, data: seq<int> :: |data| == 2 * vec ==> Agrees(f, native, ops, data, vec, size))
            <==> f != MadMul && ExactSize(f, size)
  {
    if f == MadMul {
      var data := seq(2 * vec, _ => 1);
      MadMulNeverSafe(native, data, vec, size);
      assert |data| == 2 * vec && !Agrees(f, native, SumsShow(), data, vec, size);
    } else if ExactSize(f, size) {
      forall ops: Ops<int>, data: seq<int> | |data| == 2 * vec
        ensures Agrees(f, native, ops, data, vec, size)
      {
        FirstResultAgrees(f, native, ops, data, vec, size);
      }
    } else {
      var data := seq(2 * vec, i => if i < vec then 0 else 1);
      ExactSizeNeeded(f, native, data, vec, size);
      assert |data| == 2 * vec && !Agrees(f, native, Counting(f), data, vec, size);
    }
  }

  ghost function RealOps(): Ops<real> {
    Ops((op: Operator, x: real, y: real) =>
          match op
          case Plus => x + y
          case Minus => x - y
          case Times => x * y
          case Divide => if y == 0.0 then 0.0 else x / y,
        (m: Math, x: real) => x, 0.1)
  }

  /** The second recurrence of MAD_MUL stays away from zero unless it starts with a zero. */
  lemma {:induction false} ProductsVanish(n: nat, s: Lane<real>)
    ensures var t := HostRun(MadMul, RealOps(), n, s);
            && (s.c != 0.0 && s.d != 0.0 ==> t.c != 0.0 && t.d != 0.0)
            && (n >= 2 && (s.c == 0.0 || s.d == 0.0) ==> t.c == 0.0)
            && (n >= 1 && (s.c == 0.0 || s.d == 0.0) ==> t.d == 0.0)
  {
    if n > 0 {
      ProductsVanish(n - 1, s);
    }
  }

  /**
   * MAD_MUL with an exact size: the kernel stores a + c, the host computes a only. In exact arithmetic
   * they agree if and only if one of the two inputs of the lane is zero, for size 0 only the second.
   */
  lemma MadMulAgreesIffZero(native: bool, data: seq<real>, vec: nat, size: nat)
    requires |data| == 2 * vec && vec > 0 && ExactSize(MadMul, size)
    ensures Agrees(MadMul, native, RealOps(), data, vec, size)
            <==> data[vec] == 0.0 || (size > 0 && data[0] == 0.0)
  {
    var iterations, first := KernelIterations(MadMul, size), FirstLane(data, vec, 0);
    AgreesIffEqual(MadMul, native, RealOps(), data, vec, size);
    ExactSizeSteps(MadMul, size);
    LoopIsRun(MadMul, RealOps(), vec, 100, iterations, 0, first);
    ProductsVanish(size, first);
  }
}
