/**
 * arith_speed/arith_speed.cpp: the kernels genKernel builds, and the host computation they are
 * checked against in run_benchmark.
 */
module ArithSpeed {
  import opened Arithmetic
  import opened KernelLanguage

  datatype Function = Add | Mul | Sub | Div | Mad | MadMul | Vec | Vliw | MathFunction(math: Math)

  predicate PerElement(f: Function) {
    f == Vec || f == Vliw
  }

  // ---- the kernel --------------------------------------------------------------------------

  const A := Scalar("a")
  const B := Scalar("b")
  const C := Scalar("c")
  const D := Scalar("d")
  const TMP := Scalar("tmp")
  const TMP2 := Scalar("tmp2")

  function Product(): Expr {
    Binary(Times, Ref(A), Ref(B))
  }

  /** The new value of `tmp` in the two-term recurrences. */
  function Recurrence(f: Function, native: bool): Expr {
    match f
    case Add => Binary(Plus, Ref(A), Ref(B))
    case Sub => Binary(Minus, Ref(A), Ref(B))
    case Div => if native then NativeDivide(Ref(A), Ref(B)) else Binary(Divide, Ref(A), Ref(B))
    case Mad => Binary(Plus, Product(), Tenth)
    case MadMul => Binary(Plus, Product(), Tenth)
    case _ => Product()
  }

  function CycleOperator(n: nat): Operator {
    if n % 3 == 0 then Plus else if n % 3 == 1 then Times else Minus
  }

  /** The statements for the first n elements of row r. */
  function ElementStatements(f: Function, vec: nat, r: nat, n: nat): seq<Statement> {
    if n == 0 then []
    else
      var a, b := Var("a", n - 1), Var("b", n - 1);
      ElementStatements(f, vec, r, n - 1)
      + if f == Vec then [Update(a, Minus, b), Empty] else [Update(a, CycleOperator(r * vec + (n - 1)), b)]
  }

  /** Row r of the unrolled loop body. */
  function RowOf(f: Function, native: bool, vec: nat, r: nat): Row {
    match f
    case Vec => Row(ElementStatements(f, vec, r, vec))
    case Vliw => Row(ElementStatements(f, vec, r, vec))
    case MathFunction(m) => Row([Assign(A, Apply(m, native, Ref(A)))])
    case MadMul =>
      Row([Assign(TMP, Recurrence(f, native)), Assign(TMP2, Binary(Times, Ref(C), Ref(D))),
           Assign(A, Ref(B)), Assign(B, Ref(TMP)), Assign(C, Ref(D)), Assign(D, Ref(TMP2))])
    case _ => Row([Assign(TMP, Recurrence(f, native)), Assign(A, Ref(B)), Assign(B, Ref(TMP))])
  }

  function RowsOf(f: Function, native: bool, vec: nat, n: nat): seq<Row> {
    if n == 0 then [] else RowsOf(f, native, vec, n - 1) + [RowOf(f, native, vec, n - 1)]
  }

  function PairDecls(vec: nat, n: nat): seq<Decl> {
    if n == 0 then [] else PairDecls(vec, n - 1) + [Pair(n - 1, n - 1 + vec)]
  }

  function DeclsOf(f: Function, vec: nat): seq<Decl> {
    match f
    case Vec => PairDecls(vec, vec)
    case Vliw => PairDecls(vec, vec)
    case MathFunction(_) => [Gather(A, 0)]
    case MadMul =>
      [Gather(A, 0), Gather(B, vec), Temporary(TMP), Gather(C, vec), Gather(D, 0), Temporary(TMP2)]
    case _ => [Gather(A, 0), Gather(B, vec), Temporary(TMP)]
  }

  function OutputOf(f: Function, vec: nat, i: nat): Output {
    if PerElement(f) then Output(i, [Term(Var("a", i), -1)])
    else
      var component := if vec == 1 then -1 else i;
      Output(component, if f == MadMul then [Term(A, component), Term(C, component)] else [Term(A, component)])
  }

  function OutputsOf(f: Function, vec: nat, n: nat): seq<Output> {
    if n == 0 then [] else OutputsOf(f, vec, n - 1) + [OutputOf(f, vec, n - 1)]
  }

  /** What genKernel builds; its loop body consists of `unroll` rows. */
  function MakeKernel(f: Function, native: bool, vec: nat, unroll: nat): Kernel {
    Kernel(DeclsOf(f, vec), RowsOf(f, native, vec, unroll), OutputsOf(f, vec, vec))
  }

  // ---- one lane ----------------------------------------------------------------------------

  /** The values of a, b, c and d in one lane. */
  datatype Lane<V> = Lane(a: V, b: V, c: V, d: V)

  /** What one operation does to a lane. */
  ghost function Apply1<V>(f: Function, ops: Ops<V>, s: Lane<V>): Lane<V> {
    match f
    case Add => s.(a := s.b, b := (ops.binary)(Plus, s.a, s.b))
    case Sub => s.(a := s.b, b := (ops.binary)(Minus, s.a, s.b))
    case Mul => s.(a := s.b, b := (ops.binary)(Times, s.a, s.b))
    case Div => s.(a := s.b, b := (ops.binary)(Divide, s.a, s.b))
    case Mad => s.(a := s.b, b := (ops.binary)(Plus, (ops.binary)(Times, s.a, s.b), ops.tenth))
    case MadMul =>
      Lane(s.b, (ops.binary)(Plus, (ops.binary)(Times, s.a, s.b), ops.tenth), s.d, (ops.binary)(Times, s.c, s.d))
    case MathFunction(m) => s.(a := (ops.math)(m, s.a))
    case _ => s.(a := (ops.binary)(Minus, s.a, s.b))
  }

  /** What row r of the loop body does to lane i. */
  ghost function RowLane<V>(f: Function, ops: Ops<V>, vec: nat, r: nat, i: nat, s: Lane<V>): Lane<V> {
    if f == Vliw then s.(a := (ops.binary)(CycleOperator(r * vec + i), s.a, s.b)) else Apply1(f, ops, s)
  }

  ghost function RowsLane<V>(f: Function, ops: Ops<V>, vec: nat, n: nat, i: nat, s: Lane<V>): Lane<V> {
    if n == 0 then s else RowLane(f, ops, vec, n - 1, i, RowsLane(f, ops, vec, n - 1, i, s))
  }

  ghost function LoopLane<V>(f: Function, ops: Ops<V>, vec: nat, unroll: nat, iterations: nat, i: nat,
                             s: Lane<V>): Lane<V>
  {
    if iterations == 0 then s
    else RowsLane(f, ops, vec, unroll, i, LoopLane(f, ops, vec, unroll, iterations - 1, i, s))
  }

  /** The lane's values at the start of the kernel. */
  ghost function FirstLane<V>(input: seq<V>, vec: nat, i: nat): Lane<V>
    requires |input| == 2 * vec && i < vec
  {
    Lane(input[i], input[i + vec], input[i + vec], input[i])
  }

  ghost function LaneOutput<V>(f: Function, ops: Ops<V>, s: Lane<V>): V {
    if f == MadMul then (ops.binary)(Plus, s.a, s.c) else s.a
  }

  // ---- the kernel computes lane by lane ------------------------------------------------------

  function Lanes(f: Function, vec: nat): nat {
    if PerElement(f) then 1 else vec
  }

  ghost predicate VarHolds<V>(env: Env<V>, v: Var, at: nat, value: V) {
    v in env && at < |env[v]| && env[v][at] == value
  }

  /** The environment holds the lane's values. */
  ghost predicate LaneHolds<V>(f: Function, env: Env<V>, i: nat, s: Lane<V>) {
    if PerElement(f) then VarHolds(env, Var("a", i), 0, s.a) && VarHolds(env, Var("b", i), 0, s.b)
    else
      && VarHolds(env, A, i, s.a)
      && (f.MathFunction? || VarHolds(env, B, i, s.b))
      && (f == MadMul ==> VarHolds(env, C, i, s.c) && VarHolds(env, D, i, s.d))
  }

  ghost predicate Holds<V>(f: Function, vec: nat, env: Env<V>, lanes: seq<Lane<V>>) {
    |lanes| == vec && WellSized(env, Lanes(f, vec)) && forall i :: 0 <= i < vec ==> LaneHolds(f, env, i, lanes[i])
  }

  /** Executing one more statement. */
  lemma RunMore<V>(ss: seq<Statement>, last: Statement, env: Env<V>, at: Env<V>, lanes: nat, ops: Ops<V>)
    requires WellSized(env, lanes) && RunStatements(ss, env, lanes, ops) == Reached(at) && Executable(last, at)
    ensures RunStatements(ss + [last], env, lanes, ops) == Reached(Execute(last, at, lanes, ops))
  {
    assert (ss + [last])[..|ss|] == ss;
  }

  /** The lanes after one operation in each. */
  ghost function Applied<V>(f: Function, ops: Ops<V>, lanes: seq<Lane<V>>): seq<Lane<V>> {
    seq(|lanes|, i requires 0 <= i < |lanes| => Apply1(f, ops, lanes[i]))
  }

  lemma RecurrenceValue<V>(f: Function, native: bool, vec: nat, env: Env<V>, i: nat, s: Lane<V>, ops: Ops<V>)
    requires !PerElement(f) && !f.MathFunction? && i < vec && WellSized(env, vec)
    requires VarHolds(env, A, i, s.a) && VarHolds(env, B, i, s.b)
    ensures Defined(Recurrence(f, native), env)
    ensures Eval(Recurrence(f, native), env, i, vec, ops) == Apply1(f, ops, s).b
  {
    assert Eval(Ref(A), env, i, vec, ops) == s.a && Eval(Ref(B), env, i, vec, ops) == s.b;
    assert Eval(Product(), env, i, vec, ops) == (ops.binary)(Times, s.a, s.b);
  }

  lemma ThreeMore<T>(ss: seq<T>, x: T, y: T, z: T)
    ensures ss + [x] + [y] + [z] == ss + [x, y, z]
  {
  }

  lemma RunThreeMore<V>(ss: seq<Statement>, s0: Statement, s1: Statement, s2: Statement,
                        env: Env<V>, e0: Env<V>, e1: Env<V>, e2: Env<V>, lanes: nat, ops: Ops<V>)
    requires WellSized(env, lanes) && RunStatements(ss, env, lanes, ops) == Reached(e0)
    requires Executable(s0, e0) && e1 == Execute(s0, e0, lanes, ops)
    requires Executable(s1, e1) && e2 == Execute(s1, e1, lanes, ops)
    requires Executable(s2, e2)
    ensures RunStatements(ss + [s0, s1, s2], env, lanes, ops) == Reached(Execute(s2, e2, lanes, ops))
  {
    RunMore(ss, s0, env, e0, lanes, ops);
    RunMore(ss + [s0], s1, env, e1, lanes, ops);
    RunMore(ss + [s0] + [s1], s2, env, e2, lanes, ops);
    ThreeMore(ss, s0, s1, s2);
  }

  lemma RunThree<V>(s0: Statement, s1: Statement, s2: Statement, env: Env<V>, e1: Env<V>, e2: Env<V>,
                    lanes: nat, ops: Ops<V>)
    requires WellSized(env, lanes) && Executable(s0, env) && e1 == Execute(s0, env, lanes, ops)
    requires Executable(s1, e1) && e2 == Execute(s1, e1, lanes, ops)
    requires Executable(s2, e2)
    ensures RunStatements([s0, s1, s2], env, lanes, ops) == Reached(Execute(s2, e2, lanes, ops))
  {
    RunThreeMore([], s0, s1, s2, env, env, e1, e2, lanes, ops);
    assert [] + [s0, s1, s2] == [s0, s1, s2];
  }

  lemma RecurrenceRow<V>(f: Function, native: bool, vec: nat, env: Env<V>, lanes: seq<Lane<V>>, ops: Ops<V>)
    returns (after: Env<V>)
    requires !PerElement(f) && !f.MathFunction? && f != MadMul && vec > 0 && Holds(f, vec, env, lanes)
    ensures RunStatements(RowOf(f, native, vec, 0).statements, env, vec, ops) == Reached(after)
    ensures Holds(f, vec, after, Applied(f, ops, lanes))
  {
    assert LaneHolds(f, env, 0, lanes[0]);
    RecurrenceValue(f, native, vec, env, 0, lanes[0], ops);
    var e1 := Execute(Assign(TMP, Recurrence(f, native)), env, vec, ops);
    var e2 := Execute(Assign(A, Ref(B)), e1, vec, ops);
    after := Execute(Assign(B, Ref(TMP)), e2, vec, ops);
    RunThree(Assign(TMP, Recurrence(f, native)), Assign(A, Ref(B)), Assign(B, Ref(TMP)), env, e1, e2, vec, ops);
    forall i: nat | i < vec
      ensures LaneHolds(f, after, i, Apply1(f, ops, lanes[i]))
    {
      assert LaneHolds(f, env, i, lanes[i]);
      RecurrenceValue(f, native, vec, env, i, lanes[i], ops);
      assert after[A][i] == e1[B][i] == env[B][i];
      assert after[B][i] == e1[TMP][i];
    }
  }

  lemma SecondProduct<V>(vec: nat, env: Env<V>, i: nat, ops: Ops<V>)
    requires i < vec && WellSized(env, vec) && C in env && D in env
    ensures Defined(Ref(C), env) && Defined(Ref(D), env) && Defined(Binary(Times, Ref(C), Ref(D)), env)
    ensures Eval(Binary(Times, Ref(C), Ref(D)), env, i, vec, ops) == (ops.binary)(Times, env[C][i], env[D][i])
  {
  }

  lemma MadMulRow<V>(native: bool, vec: nat, env: Env<V>, lanes: seq<Lane<V>>, ops: Ops<V>)
    returns (after: Env<V>)
    requires vec > 0 && Holds(MadMul, vec, env, lanes)
    ensures RunStatements(RowOf(MadMul, native, vec, 0).statements, env, vec, ops) == Reached(after)
    ensures Holds(MadMul, vec, after, Applied(MadMul, ops, lanes))
  {
    assert LaneHolds(MadMul, env, 0, lanes[0]);
    RecurrenceValue(MadMul, native, vec, env, 0, lanes[0], ops);
    var s0, s1 := Assign(TMP, Recurrence(MadMul, native)), Assign(TMP2, Binary(Times, Ref(C), Ref(D)));
    var s2, s3 := Assign(A, Ref(B)), Assign(B, Ref(TMP));
    var s4, s5 := Assign(C, Ref(D)), Assign(D, Ref(TMP2));
    var e1 := Execute(s0, env, vec, ops);
    assert Defined(Ref(C), e1) && Defined(Ref(D), e1);
    var e2 := Execute(s1, e1, vec, ops);
    var e3 := Execute(s2, e2, vec, ops);
    var e4 := Execute(s3, e3, vec, ops);
    var e5 := Execute(s4, e4, vec, ops);
    after := Execute(s5, e5, vec, ops);
    RunThree(s0, s1, s2, env, e1, e2, vec, ops);
    RunThreeMore([s0, s1, s2], s3, s4, s5, env, e3, e4, e5, vec, ops);
    assert [s0, s1, s2] + [s3, s4, s5] == [s0, s1, s2, s3, s4, s5];
    forall i: nat | i < vec
      ensures LaneHolds(MadMul, after, i, Apply1(MadMul, ops, lanes[i]))
    {
      assert LaneHolds(MadMul, env, i, lanes[i]);
      RecurrenceValue(MadMul, native, vec, env, i, lanes[i], ops);
      SecondProduct(vec, e1, i, ops);
      assert after[A][i] == e2[B][i] == env[B][i] && after[B][i] == e1[TMP][i];
      assert after[C][i] == env[D][i] && after[D][i] == e2[TMP2][i];
    }
  }

  lemma RunOne<V>(s: Statement, env: Env<V>, lanes: nat, ops: Ops<V>)
    requires WellSized(env, lanes) && Executable(s, env)
    ensures RunStatements([s], env, lanes, ops) == Reached(Execute(s, env, lanes, ops))
  {
    assert [s][..0] == [];
  }

  lemma MathRow<V>(f: Function, native: bool, vec: nat, env: Env<V>, lanes: seq<Lane<V>>, ops: Ops<V>)
    returns (after: Env<V>)
    requires f.MathFunction? && vec > 0 && Holds(f, vec, env, lanes)
    ensures RunStatements(RowOf(f, native, vec, 0).statements, env, vec, ops) == Reached(after)
    ensures Holds(f, vec, after, Applied(f, ops, lanes))
  {
    assert LaneHolds(f, env, 0, lanes[0]);
    var s := Assign(A, Apply(f.math, native, Ref(A)));
    after := Execute(s, env, vec, ops);
    RunOne(s, env, vec, ops);
    forall i: nat | i < vec
      ensures LaneHolds(f, after, i, Apply1(f, ops, lanes[i]))
    {
      assert LaneHolds(f, env, i, lanes[i]);
      assert Eval(Ref(A), env, i, vec, ops) == lanes[i].a;
    }
  }

  /** The lanes after row r of the loop body, the first n of them. */
  ghost function RowApplied<V>(f: Function, ops: Ops<V>, r: nat, n: nat, lanes: seq<Lane<V>>): seq<Lane<V>> {
    seq(|lanes|, i requires 0 <= i < |lanes| => if i < n then RowLane(f, ops, |lanes|, r, i, lanes[i]) else lanes[i])
  }

  function ElementUpdate(f: Function, vec: nat, r: nat, i: nat): Statement {
    Update(Var("a", i), if f == Vec then Minus else CycleOperator(r * vec + i), Var("b", i))
  }

  /** The statement for element n - 1 advances that lane and no other. */
  lemma ElementAdvances<V>(f: Function, vec: nat, r: nat, n: nat, env: Env<V>, lanes: seq<Lane<V>>, ops: Ops<V>)
    requires PerElement(f) && 0 < n <= vec && |lanes| == vec
    requires Holds(f, vec, env, RowApplied(f, ops, r, n - 1, lanes))
    ensures Executable(ElementUpdate(f, vec, r, n - 1), env)
    ensures Holds(f, vec, Execute(ElementUpdate(f, vec, r, n - 1), env, 1, ops), RowApplied(f, ops, r, n, lanes))
  {
    var earlier, later := RowApplied(f, ops, r, n - 1, lanes), RowApplied(f, ops, r, n, lanes);
    assert LaneHolds(f, env, n - 1, earlier[n - 1]);
    var after := Execute(ElementUpdate(f, vec, r, n - 1), env, 1, ops);
    forall i: nat | i < vec
      ensures LaneHolds(f, after, i, later[i])
    {
      assert LaneHolds(f, env, i, earlier[i]);
    }
  }

  lemma {:induction false} ElementRow<V>(f: Function, vec: nat, r: nat, n: nat, env: Env<V>,
                                         lanes: seq<Lane<V>>, ops: Ops<V>) returns (after: Env<V>)
    requires PerElement(f) && n <= vec && Holds(f, vec, env, lanes)
    ensures RunStatements(ElementStatements(f, vec, r, n), env, 1, ops) == Reached(after)
    ensures Holds(f, vec, after, RowApplied(f, ops, r, n, lanes))
  {
    if n == 0 {
      after := env;
      assert RowApplied(f, ops, r, n, lanes) == lanes;
    } else {
      var before := ElementRow(f, vec, r, n - 1, env, lanes, ops);
      var ss, update := ElementStatements(f, vec, r, n - 1), ElementUpdate(f, vec, r, n - 1);
      ElementAdvances(f, vec, r, n, before, lanes, ops);
      RunMore(ss, update, env, before, 1, ops);
      after := Execute(update, before, 1, ops);
      if f == Vec {
        RunMore(ss + [update], Empty, env, after, 1, ops);
        assert ss + [update, Empty] == ss + [update] + [Empty];
      }
    }
  }

  /** Executing row r of the loop body advances every lane by RowLane. */
  lemma RowRuns<V>(f: Function, native: bool, vec: nat, r: nat, env: Env<V>, lanes: seq<Lane<V>>, ops: Ops<V>)
    returns (after: Env<V>)
    requires vec > 0 && Holds(f, vec, env, lanes)
    ensures RunStatements(RowOf(f, native, vec, r).statements, env, Lanes(f, vec), ops) == Reached(after)
    ensures Holds(f, vec, after, RowApplied(f, ops, r, vec, lanes))
  {
    var applied := RowApplied(f, ops, r, vec, lanes);
    if PerElement(f) {
      after := ElementRow(f, vec, r, vec, env, lanes, ops);
    } else {
      assert RowOf(f, native, vec, r) == RowOf(f, native, vec, 0);
      assert applied == Applied(f, ops, lanes);
      if f == MadMul {
        after := MadMulRow(native, vec, env, lanes, ops);
      } else if f.MathFunction? {
        after := MathRow(f, native, vec, env, lanes, ops);
      } else {
        after := RecurrenceRow(f, native, vec, env, lanes, ops);
      }
    }
  }

  ghost function RowsApplied<V>(f: Function, ops: Ops<V>, n: nat, lanes: seq<Lane<V>>): seq<Lane<V>> {
    seq(|lanes|, i requires 0 <= i < |lanes| => RowsLane(f, ops, |lanes|, n, i, lanes[i]))
  }

  ghost function LoopApplied<V>(f: Function, ops: Ops<V>, unroll: nat, iterations: nat, lanes: seq<Lane<V>>)
    : seq<Lane<V>>
  {
    seq(|lanes|, i requires 0 <= i < |lanes| => LoopLane(f, ops, |lanes|, unroll, iterations, i, lanes[i]))
  }

  lemma RowsAppliedMore<V>(f: Function, ops: Ops<V>, n: nat, lanes: seq<Lane<V>>)
    ensures RowsApplied(f, ops, 0, lanes) == lanes
    ensures RowApplied(f, ops, n, |lanes|, RowsApplied(f, ops, n, lanes)) == RowsApplied(f, ops, n + 1, lanes)
  {
  }

  /** The row advances every lane by RowLane, from whatever values it starts. */
  ghost predicate Advances<V(!new)>(f: Function, vec: nat, r: nat, row: Row, ops: Ops<V>) {
    forall env: Env<V>, lanes: seq<Lane<V>> :: Holds(f, vec, env, lanes) ==>
      && RunStatements(row.statements, env, Lanes(f, vec), ops).Reached?
      && Holds(f, vec, RunStatements(row.statements, env, Lanes(f, vec), ops).env,
               RowApplied(f, ops, r, vec, lanes))
  }

  lemma RowAdvances<V(!new)>(f: Function, native: bool, vec: nat, r: nat, ops: Ops<V>)
    requires vec > 0
    ensures Advances(f, vec, r, RowOf(f, native, vec, r), ops)
  {
    var row := RowOf(f, native, vec, r);
    forall env: Env<V>, lanes: seq<Lane<V>> | Holds(f, vec, env, lanes)
      ensures RunStatements(row.statements, env, Lanes(f, vec), ops).Reached?
      ensures Holds(f, vec, RunStatements(row.statements, env, Lanes(f, vec), ops).env,
                    RowApplied(f, ops, r, vec, lanes))
    {
      var after := RowRuns(f, native, vec, r, env, lanes, ops);
    }
  }

  lemma {:induction false} RowsAdvance<V(!new)>(f: Function, native: bool, vec: nat, n: nat, ops: Ops<V>)
    requires vec > 0
    ensures |RowsOf(f, native, vec, n)| == n
    ensures forall r: nat :: r < n ==> Advances(f, vec, r, RowsOf(f, native, vec, n)[r], ops)
  {
    if n > 0 {
      RowsAdvance(f, native, vec, n - 1, ops);
      RowAdvances(f, native, vec, n - 1, ops);
    }
  }

  lemma {:induction false} RowsRun<V(!new)>(f: Function, vec: nat, rows: seq<Row>, env: Env<V>,
                                            lanes: seq<Lane<V>>, ops: Ops<V>) returns (after: Env<V>)
    requires forall r: nat :: r < |rows| ==> Advances(f, vec, r, rows[r], ops)
    requires Holds(f, vec, env, lanes)
    ensures RunRows(rows, env, Lanes(f, vec), ops) == Reached(after)
    ensures Holds(f, vec, after, RowsApplied(f, ops, |rows|, lanes))
    decreases |rows|
  {
    if rows == [] {
      after := env;
      RowsAppliedMore(f, ops, 0, lanes);
    } else {
      var n := |rows| - 1;
      var before := RowsRun(f, vec, rows[..n], env, lanes, ops);
      RowsAppliedMore(f, ops, n, lanes);
      assert Advances(f, vec, n, rows[n], ops);
      after := RunStatements(rows[n].statements, before, Lanes(f, vec), ops).env;
    }
  }

  lemma {:induction false} LoopRuns<V(!new)>(f: Function, vec: nat, rows: seq<Row>, iterations: nat,
                                             env: Env<V>, lanes: seq<Lane<V>>, ops: Ops<V>)
    returns (after: Env<V>)
    requires forall r: nat :: r < |rows| ==> Advances(f, vec, r, rows[r], ops)
    requires Holds(f, vec, env, lanes)
    ensures RunLoop(rows, env, iterations, Lanes(f, vec), ops) == Reached(after)
    ensures Holds(f, vec, after, LoopApplied(f, ops, |rows|, iterations, lanes))
  {
    if iterations == 0 {
      after := env;
      assert LoopApplied(f, ops, |rows|, 0, lanes) == lanes;
    } else {
      var before := LoopRuns(f, vec, rows, iterations - 1, env, lanes, ops);
      var lanes' := LoopApplied(f, ops, |rows|, iterations - 1, lanes);
      after := RowsRun(f, vec, rows, before, lanes', ops);
      assert RowsApplied(f, ops, |rows|, lanes') == LoopApplied(f, ops, |rows|, iterations, lanes);
    }
  }

  ghost function FirstLanes<V>(input: seq<V>, vec: nat): seq<Lane<V>>
    requires |input| == 2 * vec
  {
    seq(vec, i requires 0 <= i < vec => FirstLane(input, vec, i))
  }

  lemma DeclareMore<V>(ds: seq<Decl>, d: Decl, input: seq<V>, lanes: nat, env: Env<V>)
    requires AllDeclOk(ds, |input|, lanes) && DeclOk(d, |input|, lanes) && Declare(ds, input, lanes) == env
    ensures AllDeclOk(ds + [d], |input|, lanes)
    ensures Declare(ds + [d], input, lanes) == DeclareOne(d, input, lanes, env)
  {
    assert (ds + [d])[..|ds|] == ds;
  }

  /** One pair more leaves the earlier pairs as they are. */
  lemma PairDeclared<V>(input: seq<V>, vec: nat, n: nat, before: Env<V>)
    requires |input| == 2 * vec && n < vec && WellSized(before, 1)
    requires forall i: nat :: i < n ==> LaneHolds(Vec, before, i, FirstLane(input, vec, i))
    ensures forall i: nat :: i < n + 1 ==>
              LaneHolds(Vec, DeclareOne(Pair(n, n + vec), input, 1, before), i, FirstLane(input, vec, i))
  {
    var after := DeclareOne(Pair(n, n + vec), input, 1, before);
    forall i: nat | i < n + 1
      ensures LaneHolds(Vec, after, i, FirstLane(input, vec, i))
    {
      assert i < n ==> LaneHolds(Vec, before, i, FirstLane(input, vec, i));
    }
  }

  lemma {:induction false} PairsDeclared<V>(input: seq<V>, vec: nat, n: nat)
    requires |input| == 2 * vec && n <= vec
    ensures AllDeclOk(PairDecls(vec, n), 2 * vec, 1)
    ensures var env := Declare(PairDecls(vec, n), input, 1);
            forall i: nat :: i < n ==> LaneHolds(Vec, env, i, FirstLane(input, vec, i))
  {
    if n > 0 {
      PairsDeclared(input, vec, n - 1);
      var before := Declare(PairDecls(vec, n - 1), input, 1);
      DeclareMore(PairDecls(vec, n - 1), Pair(n - 1, n - 1 + vec), input, 1, before);
      PairDeclared(input, vec, n - 1, before);
    }
  }

  lemma TwoDeclared<V>(vec: nat, input: seq<V>)
    requires |input| == 2 * vec
    ensures AllDeclOk([Gather(A, 0)], 2 * vec, vec)
    ensures Declare([Gather(A, 0)], input, vec) == map[A := input[0..vec]]
    ensures AllDeclOk([Gather(A, 0), Gather(B, vec), Temporary(TMP)], 2 * vec, vec)
    ensures Declare([Gather(A, 0), Gather(B, vec), Temporary(TMP)], input, vec)
            == map[A := input[0..vec], B := input[vec..vec + vec]]
  {
    var a, b, t := Gather(A, 0), Gather(B, vec), Temporary(TMP);
    var e1: Env<V> := map[A := input[0..vec]];
    var e2: Env<V> := e1[B := input[vec..vec + vec]];
    DeclareMore([], a, input, vec, map[]);
    assert [] + [a] == [a];
    DeclareMore([a], b, input, vec, e1);
    DeclareMore([a] + [b], t, input, vec, e2);
    assert [a] + [b] + [t] == [a, b, t];
  }

  lemma FourDeclared<V>(vec: nat, input: seq<V>)
    requires |input| == 2 * vec
    ensures AllDeclOk(DeclsOf(MadMul, vec), 2 * vec, vec)
    ensures Declare(DeclsOf(MadMul, vec), input, vec)
            == map[A := input[0..vec], B := input[vec..vec + vec], C := input[vec..vec + vec], D := input[0..vec]]
  {
    var two := [Gather(A, 0), Gather(B, vec), Temporary(TMP)];
    var c, d, t := Gather(C, vec), Gather(D, 0), Temporary(TMP2);
    var e2: Env<V> := map[A := input[0..vec], B := input[vec..vec + vec]];
    var e3: Env<V> := e2[C := input[vec..vec + vec]];
    var e4: Env<V> := e3[D := input[0..vec]];
    TwoDeclared(vec, input);
    DeclareMore(two, c, input, vec, e2);
    DeclareMore(two + [c], d, input, vec, e3);
    DeclareMore(two + [c] + [d], t, input, vec, e4);
    ThreeMore(two, c, d, t);
    assert two + [c, d, t] == DeclsOf(MadMul, vec);
  }

  lemma PairsHold<V>(f: Function, vec: nat, input: seq<V>)
    requires |input| == 2 * vec && PerElement(f)
    ensures AllDeclOk(DeclsOf(f, vec), 2 * vec, 1)
    ensures Holds(f, vec, Declare(DeclsOf(f, vec), input, 1), FirstLanes(input, vec))
  {
    PairsDeclared(input, vec, vec);
    forall i: nat | i < vec
      ensures LaneHolds(f, Declare(DeclsOf(f, vec), input, 1), i, FirstLane(input, vec, i))
    {
      assert LaneHolds(Vec, Declare(PairDecls(vec, vec), input, 1), i, FirstLane(input, vec, i));
    }
  }

  lemma VectorsHold<V>(f: Function, vec: nat, input: seq<V>, env: Env<V>)
    requires |input| == 2 * vec && !PerElement(f)
    requires var a, b := input[0..vec], input[vec..vec + vec];
             env == if f.MathFunction? then map[A := a]
                    else if f == MadMul then map[A := a, B := b, C := b, D := a]
                    else map[A := a, B := b]
    ensures Holds(f, vec, env, FirstLanes(input, vec))
  {
  }

  /** The declarations give every lane its inputs. */
  lemma DeclarationsHold<V>(f: Function, vec: nat, input: seq<V>)
    requires |input| == 2 * vec
    ensures AllDeclOk(DeclsOf(f, vec), 2 * vec, Lanes(f, vec))
    ensures Holds(f, vec, Declare(DeclsOf(f, vec), input, Lanes(f, vec)), FirstLanes(input, vec))
  {
    if PerElement(f) {
      PairsHold(f, vec, input);
    } else {
      TwoDeclared(vec, input);
      if f == MadMul {
        FourDeclared(vec, input);
      }
      VectorsHold(f, vec, input, Declare(DeclsOf(f, vec), input, vec));
    }
  }

  // ---- main results about the kernel ---------------------------------------------------------

  lemma {:induction false} OutputAt(f: Function, vec: nat, n: nat, i: nat)
    requires i < n
    ensures |OutputsOf(f, vec, n)| == n && OutputsOf(f, vec, n)[i] == OutputOf(f, vec, i)
  {
    if i < n - 1 {
      OutputAt(f, vec, n - 1, i);
    } else if n > 1 {
      OutputAt(f, vec, n - 1, 0);
    }
  }

  lemma OutputValue<V>(f: Function, vec: nat, env: Env<V>, i: nat, s: Lane<V>, ops: Ops<V>)
    requires i < vec && LaneHolds(f, env, i, s)
    ensures var terms := OutputOf(f, vec, i).terms;
            && terms != [] && (forall t :: 0 <= t < |terms| ==> TermOk(terms[t], env))
            && TermsValue(terms, env, ops) == LaneOutput(f, ops, s)
  {
    var terms := OutputOf(f, vec, i).terms;
    if f == MadMul {
      assert terms[..1] == [terms[0]];
    }
  }

  /**
   * Main result. For every function, vector width, unroll factor, iteration count and arithmetic,
   * the kernel assigns to output[vec * gid + i], in every work-item gid, what the lane's operations
   * make of the inputs i and i + vec. No variable is read before it is given a value.
   */
  lemma KernelComputes<V(!new)>(f: Function, native: bool, vec: nat, unroll: nat, iterations: nat,
                                input: seq<V>, ops: Ops<V>, i: nat, gid: nat)
    requires |input| == 2 * vec && i < vec
    ensures var k := MakeKernel(f, native, vec, unroll);
            && Assigns(k, input, iterations, Lanes(f, vec), ops, i,
                       LaneOutput(f, ops, LoopLane(f, ops, vec, unroll, iterations, i, FirstLane(input, vec, i))))
            && OutputIndex(k.outputs[i], vec, gid) == vec * gid + i
  {
    DeclarationsHold(f, vec, input);
    RowsAdvance(f, native, vec, unroll, ops);
    var lanes := FirstLanes(input, vec);
    var rows, env := RowsOf(f, native, vec, unroll), Declare(DeclsOf(f, vec), input, Lanes(f, vec));
    var after := LoopRuns(f, vec, rows, iterations, env, lanes, ops);
    var last := LoopApplied(f, ops, unroll, iterations, lanes);
    assert LaneHolds(f, after, i, last[i]);
    OutputAt(f, vec, vec, i);
    OutputValue(f, vec, after, i, last[i], ops);
  }

  // ---- the output buffer of a whole launch ---------------------------------------------------

  /** The output statements of all work-items are among those executed, in any order, and no others. */
  ghost predicate WholeLaunch(order: seq<(nat, nat)>, items: nat, vec: nat) {
    && (forall j :: 0 <= j < |order| ==> order[j].0 < items && order[j].1 < vec)
    && forall gid: nat, n: nat :: gid < items && n < vec ==> (gid, n) in order
  }

  /** The kernel's statement n stores the n-th value at vec * gid + n. */
  ghost predicate Stores<V>(k: Kernel, input: seq<V>, iterations: nat, lanes: nat, ops: Ops<V>, values: seq<V>) {
    forall n: nat :: n < |values| ==>
      && Assigns(k, input, iterations, lanes, ops, n, values[n])
      && forall gid: nat :: OutputIndex(k.outputs[n], |values|, gid) == |values| * gid + n
  }

  /** Different output statements store to different places. */
  lemma OutputIndexOnce(vec: nat, gid: nat, n: nat, other: nat, m: nat)
    requires n < vec && m < vec
    ensures vec * gid + n == vec * other + m <==> gid == other && n == m
  {
    DivModUnique(vec * gid + n, vec, gid, n);
    DivModUnique(vec * other + m, vec, other, m);
  }

  lemma OutputIndexBelow(vec: nat, gid: nat, n: nat, items: nat)
    requires n < vec && gid < items
    ensures vec * gid + n < vec * items
  {
    MulMonotone(gid + 1, items, vec);
    MulDistributes(gid, 1, vec);
  }

  lemma {:induction false} LaunchAt<V>(k: Kernel, input: seq<V>, iterations: nat, lanes: nat, ops: Ops<V>,
                                       values: seq<V>, items: nat, order: seq<(nat, nat)>, buffer: seq<V>,
                                       gid: nat, n: nat)
    requires Stores(k, input, iterations, lanes, ops, values) && |buffer| == |values| * items
    requires forall j :: 0 <= j < |order| ==> order[j].0 < items && order[j].1 < |values|
    requires (gid, n) in order
    ensures Leaves(k, input, iterations, lanes, ops, |values|, order, buffer, |values| * gid + n, values[n])
    decreases |order|
  {
    forall j | 0 <= j < |order|
      ensures Runs(k, input, iterations, lanes, ops, order[j].1)
      ensures OutputIndex(k.outputs[order[j].1], |values|, order[j].0) < |buffer|
    {
      OutputIndexBelow(|values|, order[j].0, order[j].1, items);
    }
    OutputIndexBelow(|values|, gid, n, items);
    var (last, m) := order[|order| - 1];
    OutputIndexOnce(|values|, gid, n, last, m);
    if last != gid || m != n {
      LaunchAt(k, input, iterations, lanes, ops, values, items, order[..|order| - 1], buffer, gid, n);
    }
  }

  /** Every place of the output buffer belongs to a work-item and one of its statements. */
  lemma PlaceOf(p: nat, vec: nat, items: nat)
    requires p < vec * items
    ensures vec > 0 && p == vec * (p / vec) + p % vec && p / vec < items
  {
    if vec > 0 {
      DivModDefinition(p, vec);
      MulMonotone(items, p / vec, vec);
    }
  }

  /** What the operations of the kernel make of every lane. */
  ghost function LaneOutputs<V>(f: Function, ops: Ops<V>, vec: nat, unroll: nat, iterations: nat, input: seq<V>): seq<V>
    requires |input| == 2 * vec
  {
    seq(vec, i requires 0 <= i < vec =>
      LaneOutput(f, ops, LoopLane(f, ops, vec, unroll, iterations, i, FirstLane(input, vec, i))))
  }

  lemma KernelStores<V(!new)>(f: Function, native: bool, vec: nat, unroll: nat, iterations: nat, input: seq<V>,
                              ops: Ops<V>)
    requires |input| == 2 * vec
    ensures Stores(MakeKernel(f, native, vec, unroll), input, iterations, Lanes(f, vec), ops,
                   LaneOutputs(f, ops, vec, unroll, iterations, input))
  {
    var k, values := MakeKernel(f, native, vec, unroll), LaneOutputs(f, ops, vec, unroll, iterations, input);
    forall n: nat | n < vec
      ensures Assigns(k, input, iterations, Lanes(f, vec), ops, n, values[n])
      ensures forall gid: nat :: OutputIndex(k.outputs[n], vec, gid) == vec * gid + n
    {
      KernelComputes(f, native, vec, unroll, iterations, input, ops, n, 0);
      forall gid: nat
        ensures OutputIndex(k.outputs[n], vec, gid) == vec * gid + n
      {
        KernelComputes(f, native, vec, unroll, iterations, input, ops, n, gid);
      }
    }
  }

  /**
   * In whatever order the work-items execute their output statements, the launch leaves the result of
   * lane n at vec * gid + n, in every work-item.
   */
  lemma LaunchFills<V(!new)>(f: Function, native: bool, vec: nat, unroll: nat, iterations: nat, input: seq<V>,
                             ops: Ops<V>, items: nat, order: seq<(nat, nat)>, buffer: seq<V>, gid: nat, n: nat)
    requires |input| == 2 * vec && |buffer| == vec * items && WholeLaunch(order, items, vec)
    requires gid < items && n < vec
    ensures Leaves(MakeKernel(f, native, vec, unroll), input, iterations, Lanes(f, vec), ops, vec, order, buffer,
                   vec * gid + n, LaneOutputs(f, ops, vec, unroll, iterations, input)[n])
  {
    KernelStores(f, native, vec, unroll, iterations, input, ops);
    LaunchAt(MakeKernel(f, native, vec, unroll), input, iterations, Lanes(f, vec), ops,
             LaneOutputs(f, ops, vec, unroll, iterations, input), items, order, buffer, gid, n);
  }
}
