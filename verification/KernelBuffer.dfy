/** The random kernels fit the buffer that gen_kernel allocates. */
module KernelBuffer {
  import opened CStrings
  import opened KernelOverheads
  import opened Wrappers

  /** gen_kernel: 16 * 1024 * 1024 */
  const MAX_KERNEL_SIZE: nat := 16777216

  lemma LineBound(s: Statement, nArgs: nat)
    requires !s.If? && WellFormed(s, nArgs) && nArgs < 0x8000_0000
    ensures |Line(s)| <= if s.ArgAssign? then 48 else 37
  {
    TenDigits(s.src);
    DigitCount(s.factor, 5);
    if s.ArgAssign? {
      TenDigits(s.dst);
    } else {
      DigitCount(s.tmp, 1);
    }
  }

  lemma IfLineBound(tmp: nat, arg: nat)
    requires tmp < 2 && arg < 0x8000_0000
    ensures |IfLine(tmp, arg)| <= 32
  {
    DigitCount(tmp, 1);
    TenDigits(arg);
  }

  lemma {:induction false} TextBound(its: seq<Iteration>, nArgs: nat)
    requires nArgs < 0x8000_0000 && forall k :: 0 <= k < |its| ==> GoodIteration(its[k], nArgs)
    ensures |TextOf(its)| <= 117 * |its| + 2
  {
    if its != [] {
      var it := its[0];
      TextBound(its[1..], nArgs);
      LineBound(it.arg, nArgs);
      LineBound(it.tmp, nArgs);
      IterationSplits(it, its[1..]);
      assert [it] + its[1..] == its;
      if it.cond.Some? {
        IfLineBound(it.cond.value.0, it.cond.value.1);
      }
    }
  }

  lemma {:induction false} ParametersBound(i: nat, n: nat, rest: string)
    requires i < n < 0x8000_0000
    ensures |ParametersThen(i, n, rest)| <= 33 * (n - i) + |rest|
    decreases n - i
  {
    TenDigits(i);
    HeaderSplits(i, n, rest);
    if i + 1 < n {
      ParametersBound(i + 1, n, rest);
    }
  }

  /** The text grows with the numbers of arguments and lines only, whatever the random numbers. */
  lemma ProgramBound(q: Request)
    requires InRange(q) && 0 < q.nArgs < 0x8000_0000 && q.nLines > 0
    ensures |ProgramText(q.nArgs, Statements(q))| <= 33 * q.nArgs + 117 * ((q.nLines + 1) / 2) + 60
  {
    var plan := PlanFrom(q, 0);
    PlanProperties(q, 0);
    TextIsBody(plan);
    TextBound(plan, q.nArgs);
    ParametersBound(0, q.nArgs, "{\n" + (LOCALS + TextOf(plan)));
  }

  /** gen_kernel with the buffer it allocates; the benchmark asks for at most 32 arguments and 2570 lines. */
  method BuildKernel(q: Request) returns (program: Option<string>)
    requires InRange(q) && q.nArgs <= 1000 && q.nLines <= 200000
    ensures program.Some? <==> q.nArgs > 0 && q.nLines > 0
    ensures program.Some? ==>
              ParseProgram(program.value) == Some((q.nArgs, Statements(q))) && Carries(q, Statements(q))
  {
    if q.nArgs > 0 && q.nLines > 0 {
      ProgramBound(q);
    }
    program := GenKernel(q, MAX_KERNEL_SIZE);
  }
}
