/**
 * The fragment of OpenCL C that arith_speed's generator writes: its syntax, the text it is printed
 * as, and what a work-item running it computes. Arithmetic is left uninterpreted.
 */
module KernelLanguage {
  import opened CStrings
  import opened Reading

  datatype ElementType = IntType | FloatType | DoubleType

  datatype Operator = Plus | Minus | Times | Divide

  datatype Math = Exp | Log | Sqr | Sqrt | Cos | Sin | Tan

  /** A private variable: `a`, `tmp2`, or with an index `b15`. */
  datatype Var = Var(letters: string, index: int)

  function Scalar(letters: string): Var {
    Var(letters, -1)
  }

  datatype Expr =
    | Ref(v: Var)
    | Binary(op: Operator, x: Expr, y: Expr)
    | NativeDivide(x: Expr, y: Expr)
    | Tenth
    | Apply(f: Math, native: bool, x: Expr)

  datatype Statement = Assign(target: Var, value: Expr) | Update(target: Var, op: Operator, source: Var) | Empty

  /** One line of the loop body. */
  datatype Row = Row(statements: seq<Statement>)

  datatype Decl =
    | Gather(v: Var, first: nat)     // T v = (T)(input[first], ..., one element for each lane)
    | Pair(i: nat, second: nat)      // T a<i> = input[i], b<i> = input[second]
    | Temporary(v: Var)              // T v

  /** A variable, or one component of a vector variable. */
  datatype Term = Term(v: Var, component: int)

  /** output[place] = sum of the terms; a negative place stands for `output[gid]`. */
  datatype Output = Output(place: int, terms: seq<Term>)

  datatype Kernel = Kernel(decls: seq<Decl>, rows: seq<Row>, outputs: seq<Output>)

  // ---- text --------------------------------------------------------------------------------

  function VarText(v: Var): string {
    if v.index < 0 then v.letters else v.letters + Decimal(v.index)
  }

  function OperatorChar(op: Operator): char {
    match op case Plus => '+' case Minus => '-' case Times => '*' case Divide => '/'
  }

  function MathText(f: Math): string {
    match f
    case Exp => "exp" case Log => "log" case Sqr => "powr" case Sqrt => "sqrt"
    case Cos => "cos" case Sin => "sin" case Tan => "tan"
  }

  function ExprText(e: Expr, ty: string): string {
    match e
    case Ref(v) => VarText(v)
    case Binary(op, x, y) => ExprText(x, ty) + " " + [OperatorChar(op)] + " " + ExprText(y, ty)
    case NativeDivide(x, y) => "native_divide(" + ExprText(x, ty) + "," + ExprText(y, ty) + ")"
    case Tenth => "(" + ty + ")0.1"
    case Apply(f, native, x) =>
      (if native then "native_" else "") + MathText(f) + "(" + ExprText(x, ty)
      + (if f == Sqr then ", (" + ty + ")2.0)" else ")")
  }

  function StatementText(s: Statement, ty: string): string {
    match s
    case Assign(target, value) => VarText(target) + " = " + ExprText(value, ty) + ";"
    case Update(target, op, source) => VarText(target) + " " + [OperatorChar(op)] + "= " + VarText(source) + ";"
    case Empty => ";"
  }

  function StatementsText(ss: seq<Statement>, separator: string, ty: string): string {
    if ss == [] then ""
    else if |ss| == 1 then StatementText(ss[0], ty)
    else StatementsText(ss[..|ss| - 1], separator, ty) + separator + StatementText(ss[|ss| - 1], ty)
  }

  /** What stands between the statements of a row: the updates of elements follow each other closely. */
  function Separator(ss: seq<Statement>): string {
    if ss != [] && ss[0].Assign? then " " else ""
  }

  function RowText(r: Row, ty: string): string {
    "    " + StatementsText(r.statements, Separator(r.statements), ty) + "\n"
  }

  /** `input[first], ..., input[first + count - 1]` */
  function InputList(first: nat, count: nat): string {
    if count == 0 then ""
    else if count == 1 then "input[" + Decimal(first) + "]"
    else InputList(first, count - 1) + ", input[" + Decimal(first + count - 1) + "]"
  }

  function GatherHead(v: Var, ty: string): string {
    "  " + ty + " " + VarText(v) + " = (" + ty + ")("
  }

  function DeclText(d: Decl, ty: string, lanes: nat): string {
    match d
    case Gather(v, first) => GatherHead(v, ty) + InputList(first, lanes) + ");\n"
    case Pair(i, second) =>
      "  " + ty + " a" + Decimal(i) + " = input[" + Decimal(i) + "], b" + Decimal(i)
      + " = input[" + Decimal(second) + "];\n"
    case Temporary(v) => "  " + ty + " " + VarText(v) + ";\n"
  }

  function TermText(t: Term): string {
    VarText(t.v) + if 0 <= t.component < 16 then ".s" + [HexDigit(t.component)] else ""
  }

  function TermsText(ts: seq<Term>): string {
    if ts == [] then ""
    else if |ts| == 1 then TermText(ts[0])
    else TermsText(ts[..|ts| - 1]) + " + " + TermText(ts[|ts| - 1])
  }

  function OutputText(o: Output, vec: nat): string {
    "  output[" + (if o.place < 0 then "gid" else Decimal(vec) + "*gid+" + Decimal(o.place)) + "] = "
    + TermsText(o.terms) + ";\n"
  }

  function DeclsText(ds: seq<Decl>, ty: string, lanes: nat): string {
    if ds == [] then "" else DeclsText(ds[..|ds| - 1], ty, lanes) + DeclText(ds[|ds| - 1], ty, lanes)
  }

  function RowsText(rs: seq<Row>, ty: string): string {
    if rs == [] then "" else RowsText(rs[..|rs| - 1], ty) + RowText(rs[|rs| - 1], ty)
  }

  function OutputsText(os: seq<Output>, vec: nat): string {
    if os == [] then "" else OutputsText(os[..|os| - 1], vec) + OutputText(os[|os| - 1], vec)
  }

  /** The element type as writeStart and getTypeStr spell it. */
  function TypeName(t: ElementType): string {
    match t case IntType => "int" case FloatType => "float" case DoubleType => "double"
  }

  /** The lines that enable an extension. */
  function EnableLines(name: string): seq<string> {
    ["#ifdef " + name, "#pragma OPENCL EXTENSION " + name + " : enable", "#endif"]
  }

  /** writeStart: the preamble of the double precision kernels. */
  function PreambleLines(t: ElementType): seq<string> {
    if t == DoubleType then EnableLines("cl_khr_fp64") + EnableLines("cl_amd_fp64") + [""] else []
  }

  /** The last line of fun_start. */
  const GID_LINE := "   unsigned int gid" + " = get_global_id(0);"

  /** writeStart: fun_start. */
  function SignatureLines(t: ElementType, local: nat): seq<string> {
    ["__kernel __attribute__((" + "reqd_work_group_size (" + Decimal(local) + ",1,1))) void arith_speed(",
     " \t            __global " + TypeName(t) + "* input, ",
     " \t            __global " + TypeName(t) + "* output, ",
     " \t            const " + "unsigned int iterations) ",
     " { ",
     "   unsigned int i; "]
  }

  function HeaderText(t: ElementType, local: nat): string {
    Unlines(PreambleLines(t) + SignatureLines(t, local) + [GID_LINE], "")
  }

  const LOOP_HEAD := "  for(i = 0; i < iterations; ++i) {\n"
  const LOOP_END := "  }\n"

  /** The whole program; ty is the type of the private variables. */
  function KernelText(k: Kernel, t: ElementType, local: nat, ty: string, vec: nat): string {
    HeaderText(t, local) + DeclsText(k.decls, ty, vec) + LOOP_HEAD + RowsText(k.rows, ty) + LOOP_END
    + OutputsText(k.outputs, vec) + "}\n"
  }

  // ---- meaning -----------------------------------------------------------------------------

  /** The arithmetic of the element type, whatever it is. */
  datatype Ops<!V> = Ops(binary: (Operator, V, V) -> V, math: (Math, V) -> V, tenth: V)

  /** Values of the variables that have been given one, lane by lane. */
  type Env<V> = map<Var, seq<V>>

  ghost predicate WellSized<V>(env: Env<V>, lanes: nat) {
    forall v :: v in env ==> |env[v]| == lanes
  }

  /** All variables the expression reads have a value. */
  ghost predicate Defined<V>(e: Expr, env: Env<V>) {
    match e
    case Ref(v) => v in env
    case Binary(_, x, y) => Defined(x, env) && Defined(y, env)
    case NativeDivide(x, y) => Defined(x, env) && Defined(y, env)
    case Tenth => true
    case Apply(_, _, x) => Defined(x, env)
  }

  /** One lane of the value of e. */
  ghost function Eval<V>(e: Expr, env: Env<V>, lane: nat, lanes: nat, ops: Ops<V>): V
    requires WellSized(env, lanes) && lane < lanes && Defined(e, env)
  {
    match e
    case Ref(v) => env[v][lane]
    case Binary(op, x, y) => (ops.binary)(op, Eval(x, env, lane, lanes, ops), Eval(y, env, lane, lanes, ops))
    case NativeDivide(x, y) =>
      (ops.binary)(Divide, Eval(x, env, lane, lanes, ops), Eval(y, env, lane, lanes, ops))
    case Tenth => ops.tenth
    case Apply(f, _, x) => (ops.math)(f, Eval(x, env, lane, lanes, ops))
  }

  ghost predicate Executable<V>(s: Statement, env: Env<V>) {
    match s
    case Assign(_, value) => Defined(value, env)
    case Update(target, _, source) => target in env && source in env
    case Empty => true
  }

  ghost function Execute<V>(s: Statement, env: Env<V>, lanes: nat, ops: Ops<V>): (after: Env<V>)
    requires WellSized(env, lanes) && Executable(s, env)
    ensures WellSized(after, lanes)
  {
    match s
    case Assign(target, value) =>
      env[target := seq(lanes, lane requires 0 <= lane < lanes => Eval(value, env, lane, lanes, ops))]
    case Update(target, op, source) =>
      env[target := seq(lanes, lane requires 0 <= lane < lanes =>
                          (ops.binary)(op, env[target][lane], env[source][lane]))]
    case Empty => env
  }

  /** The environment after some statements, or Stuck if one of them reads a value never written. */
  datatype Outcome<V> = Stuck | Reached(env: Env<V>)

  ghost function RunStatements<V>(ss: seq<Statement>, env: Env<V>, lanes: nat, ops: Ops<V>): (r: Outcome<V>)
    requires WellSized(env, lanes)
    ensures r.Reached? ==> WellSized(r.env, lanes)
  {
    if ss == [] then Reached(env)
    else
      var before := RunStatements(ss[..|ss| - 1], env, lanes, ops);
      if before.Reached? && Executable(ss[|ss| - 1], before.env)
      then Reached(Execute(ss[|ss| - 1], before.env, lanes, ops))
      else Stuck
  }

  ghost function RunRows<V>(rs: seq<Row>, env: Env<V>, lanes: nat, ops: Ops<V>): (r: Outcome<V>)
    requires WellSized(env, lanes)
    ensures r.Reached? ==> WellSized(r.env, lanes)
  {
    if rs == [] then Reached(env)
    else
      var before := RunRows(rs[..|rs| - 1], env, lanes, ops);
      if before.Reached? then RunStatements(rs[|rs| - 1].statements, before.env, lanes, ops) else Stuck
  }

  ghost function RunLoop<V>(rs: seq<Row>, env: Env<V>, iterations: nat, lanes: nat, ops: Ops<V>): (r: Outcome<V>)
    requires WellSized(env, lanes)
    ensures r.Reached? ==> WellSized(r.env, lanes)
  {
    if iterations == 0 then Reached(env)
    else
      var before := RunLoop(rs, env, iterations - 1, lanes, ops);
      if before.Reached? then RunRows(rs, before.env, lanes, ops) else Stuck
  }

  ghost predicate DeclOk(d: Decl, size: nat, lanes: nat) {
    match d
    case Gather(_, first) => first + lanes <= size
    case Pair(i, second) => i < size && second < size && lanes == 1
    case Temporary(_) => true
  }

  ghost predicate AllDeclOk(ds: seq<Decl>, size: nat, lanes: nat) {
    forall k :: 0 <= k < |ds| ==> DeclOk(ds[k], size, lanes)
  }

  /** The environment after one declaration. */
  ghost function DeclareOne<V>(d: Decl, input: seq<V>, lanes: nat, env: Env<V>): (after: Env<V>)
    requires DeclOk(d, |input|, lanes) && WellSized(env, lanes)
    ensures WellSized(after, lanes)
  {
    match d
    case Gather(v, first) => env[v := input[first..first + lanes]]
    case Pair(i, second) => env[Var("a", i) := [input[i]]][Var("b", i) := [input[second]]]
    case Temporary(_) => env
  }

  ghost function Declare<V>(ds: seq<Decl>, input: seq<V>, lanes: nat): (env: Env<V>)
    requires AllDeclOk(ds, |input|, lanes)
    ensures WellSized(env, lanes)
  {
    if ds == [] then map[]
    else
      DeclareOne(ds[|ds| - 1], input, lanes, Declare(ds[..|ds| - 1], input, lanes))
  }

  ghost predicate TermOk<V>(t: Term, env: Env<V>) {
    t.v in env && (if t.component < 0 then 0 else t.component) < |env[t.v]|
  }

  ghost function TermValue<V>(t: Term, env: Env<V>): V
    requires TermOk(t, env)
  {
    env[t.v][if t.component < 0 then 0 else t.component]
  }

  ghost function TermsValue<V>(ts: seq<Term>, env: Env<V>, ops: Ops<V>): V
    requires ts != [] && forall k :: 0 <= k < |ts| ==> TermOk(ts[k], env)
  {
    if |ts| == 1 then TermValue(ts[0], env)
    else (ops.binary)(Plus, TermsValue(ts[..|ts| - 1], env, ops), TermValue(ts[|ts| - 1], env))
  }

  /** The element of the output buffer that work-item gid assigns. */
  function OutputIndex(o: Output, vec: nat, gid: nat): nat {
    if o.place < 0 then gid else vec * gid + o.place
  }

  /** No variable is read before it has been given a value on the way to output statement n. */
  ghost predicate Runs<V>(k: Kernel, input: seq<V>, iterations: nat, lanes: nat, ops: Ops<V>, n: nat) {
    && AllDeclOk(k.decls, |input|, lanes)
    && n < |k.outputs| && k.outputs[n].terms != []
    && var r := RunLoop(k.rows, Declare(k.decls, input, lanes), iterations, lanes, ops);
       && r.Reached?
       && (forall t :: 0 <= t < |k.outputs[n].terms| ==> TermOk(k.outputs[n].terms[t], r.env))
  }

  /** What output statement n assigns when the loop runs the given number of times. */
  ghost function Assigned<V>(k: Kernel, input: seq<V>, iterations: nat, lanes: nat, ops: Ops<V>, n: nat): V
    requires Runs(k, input, iterations, lanes, ops, n)
  {
    TermsValue(k.outputs[n].terms, RunLoop(k.rows, Declare(k.decls, input, lanes), iterations, lanes, ops).env, ops)
  }

  /** Output statement n of the kernel assigns this value, in every work-item. */
  ghost predicate Assigns<V>(k: Kernel, input: seq<V>, iterations: nat, lanes: nat, ops: Ops<V>, n: nat,
                             value: V)
  {
    Runs(k, input, iterations, lanes, ops, n) && Assigned(k, input, iterations, lanes, ops, n) == value
  }

  /** All these output statements can be executed, and stay inside the buffer. */
  ghost predicate Launchable<V>(k: Kernel, input: seq<V>, iterations: nat, lanes: nat, ops: Ops<V>, vec: nat,
                                order: seq<(nat, nat)>, size: nat)
  {
    forall j :: 0 <= j < |order| ==>
      && Runs(k, input, iterations, lanes, ops, order[j].1)
      && OutputIndex(k.outputs[order[j].1], vec, order[j].0) < size
  }

  /** A buffer after work-items have executed output statements: order lists (work-item, statement). */
  ghost function Launch<V>(k: Kernel, input: seq<V>, iterations: nat, lanes: nat, ops: Ops<V>, vec: nat,
                           order: seq<(nat, nat)>, buffer: seq<V>): (after: seq<V>)
    requires Launchable(k, input, iterations, lanes, ops, vec, order, |buffer|)
    ensures |after| == |buffer|
  {
    if order == [] then buffer
    else
      var (gid, n) := order[|order| - 1];
      assert Runs(k, input, iterations, lanes, ops, order[|order| - 1].1);
      Launch(k, input, iterations, lanes, ops, vec, order[..|order| - 1], buffer)
        [OutputIndex(k.outputs[n], vec, gid) := Assigned(k, input, iterations, lanes, ops, n)]
  }

  /** The launch is possible and leaves this value at place p of the buffer. */
  ghost predicate Leaves<V>(k: Kernel, input: seq<V>, iterations: nat, lanes: nat, ops: Ops<V>, vec: nat,
                            order: seq<(nat, nat)>, buffer: seq<V>, p: nat, value: V)
  {
    && p < |buffer| && Launchable(k, input, iterations, lanes, ops, vec, order, |buffer|)
    && Launch(k, input, iterations, lanes, ops, vec, order, buffer)[p] == value
  }
}
