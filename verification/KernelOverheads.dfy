/**
 * kernel_overheads/kernel_overheads.cpp, gen_kernel: random kernels of a given size. The program
 * that is printed, whatever the random numbers, parses back to its list of statements.
 */
module KernelOverheads {
  import opened CStrings
  import opened Reading
  import opened TextBuffer
  import opened Wrappers

  datatype Statement =
    | ArgAssign(dst: nat, src: nat, factor: nat)     // arg_<dst>[0] = arg_<src>[0] * <factor>;
    | TmpAssign(tmp: nat, src: nat, factor: nat)     // tmp_<tmp> = arg_<src>[0] * <factor>;
    | If(tmp: nat, arg: nat, body: Statement)        // if(tmp_<tmp> > arg_<arg>[0]) <body>

  // ---- text --------------------------------------------------------------------------------

  const ARG := "\targ_"
  const TMP := "\ttmp_"
  const IF := "\tif(tmp_"
  const GREATER := " > arg_"
  const THEN := "[0])\n\t"
  const IS_ARG := "[0] = arg_"
  const IS_TMP := " = arg_"
  const TIMES := "[0] * "
  const END := ";\n"

  /** Three numbers between four literals, followed by some more text. */
  function ThreeThen(open: string, x: nat, first: string, y: nat, second: string, z: nat, close: string,
                     rest: string): string
  {
    open + (Decimal(x) + (first + (Decimal(y) + (second + (Decimal(z) + (close + rest))))))
  }

  function TwoThen(open: string, x: nat, first: string, y: nat, close: string, rest: string): string {
    open + (Decimal(x) + (first + (Decimal(y) + (close + rest))))
  }

  /** The text of a statement, followed by some more text. */
  function StatementThen(s: Statement, rest: string): string {
    match s
    case ArgAssign(dst, src, factor) => ThreeThen(ARG, dst, IS_ARG, src, TIMES, factor, END, rest)
    case TmpAssign(tmp, src, factor) => ThreeThen(TMP, tmp, IS_TMP, src, TIMES, factor, END, rest)
    case If(tmp, arg, body) => TwoThen(IF, tmp, GREATER, arg, THEN, StatementThen(body, rest))
  }

  function BodyThen(ss: seq<Statement>, rest: string): string {
    if ss == [] then rest else StatementThen(ss[0], BodyThen(ss[1..], rest))
  }

  // ---- parsing -----------------------------------------------------------------------------

  /** Reads what ThreeThen writes. */
  function ParseThree(s: string, open: string, first: string, second: string, close: string)
    : (r: Option<(nat, nat, nat, string)>)
    ensures r.Some? ==> |r.value.3| < |s|
  {
    var s1 :- Expect(s, open);
    var (x, s2) :- ReadNumber(s1);
    var s3 :- Expect(s2, first);
    var (y, s4) :- ReadNumber(s3);
    var s5 :- Expect(s4, second);
    var (z, s6) :- ReadNumber(s5);
    var s7 :- Expect(s6, close);
    Some((x, y, z, s7))
  }

  /** Reads what TwoThen writes. */
  function ParseTwo(s: string, open: string, first: string, close: string): (r: Option<(nat, nat, string)>)
    ensures r.Some? ==> |r.value.2| < |s|
  {
    var s1 :- Expect(s, open);
    var (x, s2) :- ReadNumber(s1);
    var s3 :- Expect(s2, first);
    var (y, s4) :- ReadNumber(s3);
    var s5 :- Expect(s4, close);
    Some((x, y, s5))
  }

  /** A statement is recognised by its first words; an `if` takes exactly the next statement as its body. */
  function ParseStatement(s: string): (r: Option<(Statement, string)>)
    ensures r.Some? ==> |r.value.1| < |s|
    decreases |s|
  {
    if "\targ_" <= s then
      var (dst, src, factor, rest) :- ParseThree(s, "\targ_", "[0] = arg_", "[0] * ", ";\n");
      Some((ArgAssign(dst, src, factor), rest))
    else if "\ttmp_" <= s then
      var (tmp, src, factor, rest) :- ParseThree(s, "\ttmp_", " = arg_", "[0] * ", ";\n");
      Some((TmpAssign(tmp, src, factor), rest))
    else
      var (tmp, arg, then') :- ParseTwo(s, "\tif(tmp_", " > arg_", "[0])\n\t");
      var (body, rest) :- ParseStatement(then');
      Some((If(tmp, arg, body), rest))
  }

  /** Statements up to the closing brace of the kernel. */
  function ParseBody(s: string): Option<seq<Statement>>
    decreases |s|
  {
    if s == "}\n" then Some([])
    else
      var (first, rest) :- ParseStatement(s);
      var more :- ParseBody(rest);
      Some([first] + more)
  }

  // ---- parsing undoes printing ---------------------------------------------------------------

  /** A number between two literals: the step the proofs below repeat. */
  lemma ParsePiece(literal: string, n: nat, rest: string)
    requires rest != "" && !IsDigit(rest[0])
    ensures Expect(literal + (Decimal(n) + rest), literal) == Some(Decimal(n) + rest)
    ensures ReadNumber(Decimal(n) + rest) == Some((n, rest))
  {
    ExpectLiteral(literal, Decimal(n) + rest);
    ReadDecimal(n, rest);
  }

  /** A literal that ends the number before it. */
  predicate Separates(literal: string) {
    literal != "" && !IsDigit(literal[0])
  }

  lemma ThreeRead(open: string, x: nat, first: string, y: nat, second: string, z: nat, close: string, rest: string)
    requires Separates(first) && Separates(second) && Separates(close)
    ensures ParseThree(ThreeThen(open, x, first, y, second, z, close, rest), open, first, second, close)
            == Some((x, y, z, rest))
  {
    var s7 := close + rest;
    var s5 := second + (Decimal(z) + s7);
    var s3 := first + (Decimal(y) + s5);
    ParsePiece(open, x, s3);
    ParsePiece(first, y, s5);
    ParsePiece(second, z, s7);
    ExpectLiteral(close, rest);
  }

  lemma TwoRead(open: string, x: nat, first: string, y: nat, close: string, rest: string)
    requires Separates(first) && Separates(close)
    ensures ParseTwo(TwoThen(open, x, first, y, close, rest), open, first, close) == Some((x, y, rest))
  {
    var s5 := close + rest;
    var s3 := first + (Decimal(y) + s5);
    ParsePiece(open, x, s3);
    ParsePiece(first, y, s5);
    ExpectLiteral(close, rest);
  }

  /** The three kinds of statement are told apart by their second character. */
  lemma StatementStarts(s: Statement, rest: string)
    ensures var text := StatementThen(s, rest);
            && |text| > 1 && text[0] == '\t' && text != "}\n"
            && (ARG <= text <==> s.ArgAssign?) && (TMP <= text <==> s.TmpAssign?)
  {
    var text := StatementThen(s, rest);
    match s {
      case ArgAssign(dst, _, _) => assert text[..|ARG|] == ARG && text[1] == 'a';
      case TmpAssign(tmp, _, _) => assert text[..|TMP|] == TMP && text[1] == 't';
      case If(tmp, _, _) => assert text[..|IF|] == IF && text[1] == 'i';
    }
    assert ARG[1] == 'a' && TMP[1] == 't';
  }

  lemma {:induction false} ParseStatementThen(s: Statement, rest: string)
    ensures ParseStatement(StatementThen(s, rest)) == Some((s, rest))
  {
    StatementStarts(s, rest);
    match s
    case ArgAssign(dst, src, factor) => ThreeRead(ARG, dst, IS_ARG, src, TIMES, factor, END, rest);
    case TmpAssign(tmp, src, factor) => ThreeRead(TMP, tmp, IS_TMP, src, TIMES, factor, END, rest);
    case If(tmp, arg, body) =>
      ParseStatementThen(body, rest);
      TwoRead(IF, tmp, GREATER, arg, THEN, StatementThen(body, rest));
  }

  lemma ParseBodyStep(text: string, first: Statement, rest: string, more: seq<Statement>)
    requires text != "}\n" && ParseStatement(text) == Some((first, rest)) && ParseBody(rest) == Some(more)
    ensures ParseBody(text) == Some([first] + more)
  {
  }

  lemma ParseFirst(s: Statement, rest: string, more: seq<Statement>)
    requires ParseBody(rest) == Some(more)
    ensures ParseBody(StatementThen(s, rest)) == Some([s] + more)
  {
    StatementStarts(s, rest);
    ParseStatementThen(s, rest);
    var text := StatementThen(s, rest);
    ParseBodyStep(text, s, rest, more);
  }

  lemma {:induction false} ParseBodyThen(ss: seq<Statement>)
    ensures ParseBody(BodyThen(ss, "}\n")) == Some(ss)
    decreases |ss|
  {
    if ss != [] {
      ParseBodyThen(ss[1..]);
      ParseFirst(ss[0], BodyThen(ss[1..], "}\n"), ss[1..]);
      assert [ss[0]] + ss[1..] == ss;
    }
  }

  // ---- the whole program ---------------------------------------------------------------------

  const OPEN := "__kernel void main_func(\n\t"
  const PARAMETER := "__global float* arg_"
  const LAST := "\n)\n"
  const LOCALS := "\tfloat tmp_0, tmp_1, tmp_2;\n\n"

  /** Parameters i to n - 1, followed by some more text. */
  function ParametersThen(i: nat, n: nat, rest: string): string
    requires i < n
    decreases n - i
  {
    PARAMETER + (Decimal(i) + if i + 1 == n then LAST + rest else ", " + ParametersThen(i + 1, n, rest))
  }

  function ProgramText(nArgs: nat, ss: seq<Statement>): string
    requires nArgs > 0
  {
    OPEN + ParametersThen(0, nArgs, "{\n" + (LOCALS + BodyThen(ss, "}\n")))
  }

  /** Parameters numbered from i on; how many there are in all. */
  function ParseParameters(s: string, i: nat): (r: Option<(nat, string)>)
    ensures r.Some? ==> |r.value.1| < |s|
    decreases |s|
  {
    var s1 :- Expect(s, "__global float* arg_");
    var (k, s2) :- ReadNumber(s1);
    if k != i then None
    else if "\n)\n" <= s2 then Some((i + 1, s2[3..]))
    else
      var s3 :- Expect(s2, ", ");
      ParseParameters(s3, i + 1)
  }

  /** The number of arguments and the statements of a kernel. */
  function ParseProgram(s: string): Option<(nat, seq<Statement>)> {
    var s1 :- Expect(s, "__kernel void main_func(\n\t");
    var (nArgs, s2) :- ParseParameters(s1, 0);
    var s3 :- Expect(s2, "{\n");
    var s4 :- Expect(s3, "\tfloat tmp_0, tmp_1, tmp_2;\n\n");
    var ss :- ParseBody(s4);
    Some((nArgs, ss))
  }

  lemma {:induction false} ParseParametersThen(i: nat, n: nat, rest: string)
    requires i < n
    ensures ParseParameters(ParametersThen(i, n, rest), i) == Some((n, rest))
    decreases n - i
  {
    if i + 1 == n {
      ParsePiece(PARAMETER, i, LAST + rest);
      ExpectLiteral(LAST, rest);
    } else {
      var more := ParametersThen(i + 1, n, rest);
      ParseParametersThen(i + 1, n, rest);
      ParsePiece(PARAMETER, i, ", " + more);
      ExpectLiteral(", ", more);
      assert (", " + more)[0] == ',';
    }
  }

  /** Main result: parsing the printed program gives back its arguments and statements. */
  lemma ParseOfPrinted(nArgs: nat, ss: seq<Statement>)
    requires nArgs > 0
    ensures ParseProgram(ProgramText(nArgs, ss)) == Some((nArgs, ss))
  {
    var body := BodyThen(ss, "}\n");
    ParseBodyThen(ss);
    ExpectLiteral(LOCALS, body);
    ExpectLiteral("{\n", LOCALS + body);
    ParseParametersThen(0, nArgs, "{\n" + (LOCALS + body));
    ExpectLiteral(OPEN, ParametersThen(0, nArgs, "{\n" + (LOCALS + body)));
  }

  // ---- random statements ---------------------------------------------------------------------

  /** What one iteration of the generator prints: two assignments and possibly the head of an `if`. */
  datatype Iteration = Iteration(arg: Statement, tmp: Statement, cond: Option<(nat, nat)>)

  /** The statements the iterations amount to; an `if` takes the first statement after it. */
  function Assemble(its: seq<Iteration>): (ss: seq<Statement>)
    ensures its != [] ==> ss != []
  {
    if its == [] then []
    else
      var later := Assemble(its[1..]);
      [its[0].arg, its[0].tmp]
      + if its[0].cond.Some? && later != []
        then [If(its[0].cond.value.0, its[0].cond.value.1, later[0])] + later[1..]
        else later
  }

  /** The text the iterations print, up to the closing brace. */
  function TextOf(its: seq<Iteration>): string {
    if its == [] then "}\n"
    else
      var later := TextOf(its[1..]);
      StatementThen(its[0].arg, StatementThen(its[0].tmp,
        if its[0].cond.Some? then TwoThen(IF, its[0].cond.value.0, GREATER, its[0].cond.value.1, THEN, later)
        else later))
  }

  /** No `if` in the last iteration. */
  predicate Closed(its: seq<Iteration>) {
    its != [] ==> its[|its| - 1].cond.None?
  }

  lemma BodyOfTwo(a: Statement, b: Statement, later: seq<Statement>)
    ensures BodyThen([a, b] + later, "}\n") == StatementThen(a, StatementThen(b, BodyThen(later, "}\n")))
  {
  }

  lemma BodyOfIf(tmp: nat, arg: nat, later: seq<Statement>)
    requires later != []
    ensures BodyThen([If(tmp, arg, later[0])] + later[1..], "}\n")
            == TwoThen(IF, tmp, GREATER, arg, THEN, BodyThen(later, "}\n"))
  {
  }

  /** What is printed is the text of the assembled statements. */
  lemma {:induction false} TextIsBody(its: seq<Iteration>)
    requires Closed(its)
    ensures TextOf(its) == BodyThen(Assemble(its), "}\n")
    decreases |its|
  {
    if its != [] {
      TextIsBody(its[1..]);
      var first, later := its[0], Assemble(its[1..]);
      if first.cond.Some? {
        BodyOfIf(first.cond.value.0, first.cond.value.1, later);
        BodyOfTwo(first.arg, first.tmp, [If(first.cond.value.0, first.cond.value.1, later[0])] + later[1..]);
      } else {
        BodyOfTwo(first.arg, first.tmp, later);
      }
    }
  }

  /** Assignments, inside and outside of `if`s. */
  function Assignments(s: Statement): nat {
    if s.If? then Assignments(s.body) else 1
  }

  function Ifs(s: Statement): nat {
    if s.If? then 1 + Ifs(s.body) else 0
  }

  function Sum(ss: seq<Statement>, count: Statement -> nat): nat {
    if ss == [] then 0 else count(ss[0]) + Sum(ss[1..], count)
  }

  /** Every index is in range and every `if` guards an assignment. */
  predicate WellFormed(s: Statement, nArgs: nat) {
    match s
    case ArgAssign(dst, src, factor) => dst < nArgs && src < nArgs && factor < 100000
    case TmpAssign(tmp, src, factor) => tmp < 2 && src < nArgs && factor < 100000
    case If(tmp, arg, body) => tmp < 2 && arg < nArgs && !body.If? && WellFormed(body, nArgs)
  }

  predicate GoodIteration(it: Iteration, nArgs: nat) {
    && it.arg.ArgAssign? && WellFormed(it.arg, nArgs) && it.tmp.TmpAssign? && WellFormed(it.tmp, nArgs)
    && (it.cond.Some? ==> it.cond.value.0 < 2 && it.cond.value.1 < nArgs)
  }

  function Conditions(its: seq<Iteration>): nat {
    if its == [] then 0 else (if its[0].cond.Some? then 1 else 0) + Conditions(its[1..])
  }

  lemma {:induction false} AssembledWellFormed(its: seq<Iteration>, nArgs: nat)
    requires Closed(its) && forall k :: 0 <= k < |its| ==> GoodIteration(its[k], nArgs)
    ensures forall k :: 0 <= k < |Assemble(its)| ==> WellFormed(Assemble(its)[k], nArgs)
    ensures its != [] ==> Assemble(its)[0] == its[0].arg
    ensures Sum(Assemble(its), Assignments) == 2 * |its| && Sum(Assemble(its), Ifs) == Conditions(its)
    decreases |its|
  {
    if its != [] {
      AssembledWellFormed(its[1..], nArgs);
      var first, later := its[0], Assemble(its[1..]);
      SumOfTwo(first.arg, first.tmp, later, Assignments);
      SumOfTwo(first.arg, first.tmp, later, Ifs);
      if first.cond.Some? {
        var guarded := If(first.cond.value.0, first.cond.value.1, later[0]);
        SumOfTwo(first.arg, first.tmp, [guarded] + later[1..], Assignments);
        SumOfTwo(first.arg, first.tmp, [guarded] + later[1..], Ifs);
        assert ([guarded] + later[1..])[1..] == later[1..];
      }
    }
  }

  lemma SumOfTwo(a: Statement, b: Statement, later: seq<Statement>, count: Statement -> nat)
    ensures Sum([a, b] + later, count) == count(a) + count(b) + Sum(later, count)
  {
  }

  /**
   * What gen_kernel is asked for, and its random numbers: draw(bound, k, j) is the j-th number drawn
   * in iteration k of the loop, scaled to the range below bound.
   */
  datatype Request = Request(nArgs: nat, nLines: nat, draw: (nat, nat, nat) -> nat)

  ghost predicate InRange(q: Request) {
    forall bound: nat, k: nat, j: nat :: bound > 0 ==> q.draw(bound, k, j) < bound
  }

  /** A random number r, scaled: (int)(bound * (r / (RAND_MAX + 1.0))). */
  function ScaledTo(bound: nat, r: nat, randMax: nat): nat {
    bound * r / (randMax + 1)
  }

  /** The draws for a stream of numbers rand(). */
  function Scaled(rand: (nat, nat) -> nat, randMax: nat): (nat, nat, nat) -> nat {
    (bound: nat, k: nat, j: nat) => ScaledTo(bound, rand(k, j), randMax)
  }

  /** Whatever rand() returns, the scaled numbers are in range. */
  lemma ScaledInRange(nArgs: nat, nLines: nat, rand: (nat, nat) -> nat, randMax: nat)
    requires forall k, j :: rand(k, j) <= randMax
    ensures InRange(Request(nArgs, nLines, Scaled(rand, randMax)))
  {
  }

  /** Line 82 with n == 2 * k. */
  predicate HasIf(nLines: nat, k: nat) {
    2 * k % 3 == 0 && 2 * k < nLines - 2
  }

  function IterationAt(q: Request, k: nat): Iteration {
    Iteration(ArgAssign(q.draw(q.nArgs, k, 0), q.draw(q.nArgs, k, 1), q.draw(100000, k, 2)),
              TmpAssign(q.draw(2, k, 3), q.draw(q.nArgs, k, 4), q.draw(100000, k, 5)),
              if HasIf(q.nLines, k) then Some((q.draw(2, k, 6), q.draw(q.nArgs, k, 7))) else None)
  }

  /** The iterations from k on: n runs over 0, 2, 4, ... below nLines. */
  function PlanFrom(q: Request, k: nat): seq<Iteration>
    decreases q.nLines - 2 * k
  {
    if 2 * k >= q.nLines then [] else [IterationAt(q, k)] + PlanFrom(q, k + 1)
  }

  lemma {:induction false} PlanProperties(q: Request, k: nat)
    requires InRange(q) && q.nArgs > 0
    ensures forall i :: 0 <= i < |PlanFrom(q, k)| ==> GoodIteration(PlanFrom(q, k)[i], q.nArgs)
    ensures Closed(PlanFrom(q, k))
    ensures 2 * k < q.nLines ==> |PlanFrom(q, k)| == (q.nLines + 1) / 2 - k
    decreases q.nLines - 2 * k
  {
    if 2 * k < q.nLines {
      PlanProperties(q, k + 1);
    }
  }

  /** The `if`s printed from iteration k on. */
  ghost function IfsFrom(nLines: nat, k: nat): nat
    decreases nLines - 2 * k
  {
    if 2 * k >= nLines then 0 else (if HasIf(nLines, k) then 1 else 0) + IfsFrom(nLines, k + 1)
  }

  lemma {:induction false} ConditionsFrom(q: Request, k: nat)
    ensures Conditions(PlanFrom(q, k)) == IfsFrom(q.nLines, k)
    decreases q.nLines - 2 * k
  {
    if 2 * k < q.nLines {
      ConditionsFrom(q, k + 1);
      assert PlanFrom(q, k)[1..] == PlanFrom(q, k + 1);
      assert PlanFrom(q, k)[0].cond.Some? <==> HasIf(q.nLines, k);
    }
  }

  lemma Thirds(k: nat)
    ensures 2 * k % 3 == 0 <==> k % 3 == 0
    ensures (k + 3) / 3 == (k + 2) / 3 + (if k % 3 == 0 then 1 else 0)
  {
  }

  /** The last iteration that may print an `if`. */
  lemma LastThird(nLines: nat, k: nat)
    requires 2 * k + 3 <= nLines <= 2 * k + 4
    ensures (nLines + 3) / 6 == (k + 3) / 3
  {
  }

  /** The `if`s stand in the iterations k that are multiples of 3 with 2 * k below nLines - 2. */
  lemma {:induction false} IfsClosedForm(nLines: nat, k: nat)
    ensures IfsFrom(nLines, k) == if 2 * k < nLines - 2 then (nLines + 3) / 6 - (k + 2) / 3 else 0
    decreases nLines - 2 * k
  {
    if 2 * k < nLines {
      IfsClosedForm(nLines, k + 1);
      Thirds(k);
      if 2 * k < nLines - 2 <= 2 * (k + 1) {
        LastThird(nLines, k);
      }
    }
  }

  /** The statements of the generated kernel. */
  function Statements(q: Request): seq<Statement> {
    Assemble(PlanFrom(q, 0))
  }

  /**
   * Main result. Whatever the random numbers, the kernel is well-formed, has two assignments for
   * every two lines begun, and its number of `if`s depends on the number of lines only.
   */
  lemma GeneratedWellFormed(q: Request)
    requires InRange(q) && q.nArgs > 0 && q.nLines > 0
    ensures forall k :: 0 <= k < |Statements(q)| ==> WellFormed(Statements(q)[k], q.nArgs)
    ensures Sum(Statements(q), Assignments) == 2 * ((q.nLines + 1) / 2)
    ensures Sum(Statements(q), Ifs) == (q.nLines + 3) / 6
    ensures ParseProgram(ProgramText(q.nArgs, Statements(q))) == Some((q.nArgs, Statements(q)))
  {
    PlanProperties(q, 0);
    AssembledWellFormed(PlanFrom(q, 0), q.nArgs);
    ConditionsFrom(q, 0);
    IfsClosedForm(q.nLines, 0);
    ParseOfPrinted(q.nArgs, Statements(q));
  }

  // ---- what the random numbers decide ----------------------------------------------------------

  /** An assignment, or the condition in front of one. */
  datatype Item = Assign(assignment: Statement) | Condition(tmp: nat, arg: nat)

  /** A statement as the list of its conditions and its assignment. */
  function ItemsOf(s: Statement): (items: seq<Item>)
    ensures items != []
  {
    if s.If? then [Condition(s.tmp, s.arg)] + ItemsOf(s.body) else [Assign(s)]
  }

  function Items(ss: seq<Statement>): seq<Item> {
    if ss == [] then [] else ItemsOf(ss[0]) + Items(ss[1..])
  }

  /** Where the items of iteration k begin: every third iteration before it has a condition. */
  function Start(k: nat): nat {
    2 * k + (k + 2) / 3
  }

  /** The items of iteration k, as the numbers drawn for it make them. */
  ghost predicate CarriesAt(q: Request, items: seq<Item>, k: nat) {
    && Start(k) + 1 < |items|
    && items[Start(k)]
       == Assign(ArgAssign(q.draw(q.nArgs, k, 0), q.draw(q.nArgs, k, 1), q.draw(100000, k, 2)))
    && items[Start(k) + 1]
       == Assign(TmpAssign(q.draw(2, k, 3), q.draw(q.nArgs, k, 4), q.draw(100000, k, 5)))
    && (2 * k % 3 == 0 && 2 * k + 2 < q.nLines ==>
          && Start(k) + 2 < |items|
          && items[Start(k) + 2] == Condition(q.draw(2, k, 6), q.draw(q.nArgs, k, 7)))
  }

  /**
   * The statements are made of the numbers drawn: two assignments for every iteration, and a condition
   * after them in every third iteration that is not among the last.
   */
  ghost predicate Carries(q: Request, ss: seq<Statement>) {
    && |Items(ss)| == 2 * ((q.nLines + 1) / 2) + (q.nLines + 3) / 6
    && forall k: nat :: 2 * k < q.nLines ==> CarriesAt(q, Items(ss), k)
  }

  /** The items of the iterations, in the order of their printing. */
  function Printed(its: seq<Iteration>): seq<Item> {
    if its == [] then [] else ItemsAt(its[0]) + Printed(its[1..])
  }

  function ItemsAt(it: Iteration): seq<Item> {
    [Assign(it.arg), Assign(it.tmp)]
    + if it.cond.Some? then [Condition(it.cond.value.0, it.cond.value.1)] else []
  }

  lemma ItemsOfTwo(a: Statement, b: Statement, later: seq<Statement>)
    requires !a.If? && !b.If?
    ensures Items([a, b] + later) == [Assign(a), Assign(b)] + Items(later)
  {
    assert ([a, b] + later)[1..] == [b] + later;
    assert ([b] + later)[1..] == later;
  }

  lemma ItemsOfIf(tmp: nat, arg: nat, later: seq<Statement>)
    requires later != []
    ensures Items([If(tmp, arg, later[0])] + later[1..]) == [Condition(tmp, arg)] + Items(later)
  {
    assert ([If(tmp, arg, later[0])] + later[1..])[1..] == later[1..];
  }

  /** Nesting the assignments in the `if`s before them neither loses nor reorders anything. */
  lemma {:induction false} ItemsOfAssembled(its: seq<Iteration>)
    requires Closed(its) && forall k :: 0 <= k < |its| ==> !its[k].arg.If? && !its[k].tmp.If?
    ensures Items(Assemble(its)) == Printed(its)
    decreases |its|
  {
    if its != [] {
      ItemsOfAssembled(its[1..]);
      var first, later := its[0], Assemble(its[1..]);
      if first.cond.Some? {
        var (tmp, arg) := first.cond.value;
        ItemsOfIf(tmp, arg, later);
        ItemsOfTwo(first.arg, first.tmp, [If(tmp, arg, later[0])] + later[1..]);
      } else {
        ItemsOfTwo(first.arg, first.tmp, later);
      }
    }
  }

  lemma {:induction false} PrintedLength(its: seq<Iteration>)
    ensures |Printed(its)| == 2 * |its| + Conditions(its)
  {
    if its != [] {
      PrintedLength(its[1..]);
    }
  }

  /** How the start moves on; all iterations but the last two have their condition. */
  lemma NextStart(nLines: nat, k: nat)
    requires 2 * (k + 1) < nLines
    ensures Start(k + 1) == Start(k) + 2 + if HasIf(nLines, k) then 1 else 0
  {
    Thirds(k);
  }

  ghost predicate PartAt(items: seq<Item>, at: int, part: seq<Item>) {
    0 <= at && at + |part| <= |items| && forall j :: 0 <= j < |part| ==> items[at + j] == part[j]
  }

  lemma PartBehind(first: seq<Item>, later: seq<Item>, at: nat, part: seq<Item>)
    requires PartAt(later, at, part)
    ensures PartAt(first + later, |first| + at, part)
  {
    forall j | 0 <= j < |part|
      ensures (first + later)[|first| + at + j] == part[j]
    {
      assert (first + later)[|first| + (at + j)] == later[at + j];
    }
  }

  lemma PrintedSplits(q: Request, k: nat)
    requires 2 * k < q.nLines
    ensures Printed(PlanFrom(q, k)) == ItemsAt(IterationAt(q, k)) + Printed(PlanFrom(q, k + 1))
  {
    assert PlanFrom(q, k)[1..] == PlanFrom(q, k + 1);
  }

  /** One iteration earlier, the part stands further behind. */
  lemma PrintedEarlier(q: Request, k: nat, at: nat, part: seq<Item>)
    requires 2 * k < q.nLines && PartAt(Printed(PlanFrom(q, k + 1)), at, part)
    ensures PartAt(Printed(PlanFrom(q, k)), at + 2 + (if HasIf(q.nLines, k) then 1 else 0), part)
  {
    PrintedSplits(q, k);
    PartBehind(ItemsAt(IterationAt(q, k)), Printed(PlanFrom(q, k + 1)), at, part);
  }

  /** The items of iteration i, among those printed from iteration k on. */
  lemma {:induction false} PrintedAt(q: Request, k: nat, i: nat)
    requires k <= i && 2 * i < q.nLines
    ensures PartAt(Printed(PlanFrom(q, k)), Start(i) - Start(k), ItemsAt(IterationAt(q, i)))
    decreases i - k
  {
    if k < i {
      PrintedAt(q, k + 1, i);
      PrintedEarlier(q, k, Start(i) - Start(k + 1), ItemsAt(IterationAt(q, i)));
      NextStart(q.nLines, k);
    } else {
      PrintedSplits(q, k);
    }
  }

  lemma PartCarries(q: Request, items: seq<Item>, k: nat)
    requires PartAt(items, Start(k), ItemsAt(IterationAt(q, k)))
    ensures CarriesAt(q, items, k)
  {
    var part := ItemsAt(IterationAt(q, k));
    assert items[Start(k) + 0] == part[0] && items[Start(k) + 1] == part[1];
    assert |part| > 2 ==> items[Start(k) + 2] == part[2];
  }

  /** Main result: the statements of the kernel carry exactly the numbers drawn, whatever they are. */
  lemma CarriesDraws(q: Request)
    requires InRange(q) && q.nArgs > 0 && q.nLines > 0
    ensures Carries(q, Statements(q))
  {
    var plan := PlanFrom(q, 0);
    PlanProperties(q, 0);
    ItemsOfAssembled(plan);
    PrintedLength(plan);
    ConditionsFrom(q, 0);
    IfsClosedForm(q.nLines, 0);
    forall k: nat | 2 * k < q.nLines
      ensures CarriesAt(q, Items(Statements(q)), k)
    {
      PrintedAt(q, 0, k);
      PartCarries(q, Printed(plan), k);
    }
  }

  // ---- printing ------------------------------------------------------------------------------

  lemma TwoSplits(open: string, x: nat, first: string, y: nat, close: string, rest: string)
    ensures TwoThen(open, x, first, y, close, rest) == TwoThen(open, x, first, y, close, "") + rest
  {
  }

  /** The text of an assignment on its own line, as one snprintf writes it. */
  function Line(s: Statement): string {
    StatementThen(s, "")
  }

  function IfLine(tmp: nat, arg: nat): string {
    TwoThen(IF, tmp, GREATER, arg, THEN, "")
  }

  lemma LineSplits(s: Statement, rest: string)
    requires !s.If?
    ensures StatementThen(s, rest) == Line(s) + rest
  {
  }

  lemma Literals()
    ensures CString(ARG) && CString(IS_ARG) && CString(TIMES) && CString(END) && CString(TMP) && CString(IS_TMP)
    ensures CString(IF) && CString(GREATER) && CString(THEN)
  {
  }

  lemma LinesCString(s: Statement, tmp: nat, arg: nat)
    ensures !s.If? ==> CString(Line(s))
    ensures CString(IfLine(tmp, arg))
  {
    Literals();
    TwoCString(IF, tmp, GREATER, arg, THEN, "");
    match s
    case ArgAssign(dst, src, factor) => TwoCString(ARG, dst, IS_ARG, src, TIMES, Decimal(factor) + (END + ""));
    case TmpAssign(t, src, factor) => TwoCString(TMP, t, IS_TMP, src, TIMES, Decimal(factor) + (END + ""));
    case If(_, _, _) =>
  }

  lemma TwoCString(open: string, x: nat, first: string, y: nat, close: string, rest: string)
    requires CString(open) && CString(first) && CString(close) && CString(rest)
    ensures CString(TwoThen(open, x, first, y, close, rest))
  {
  }

  /** One iteration's text followed by the rest. */
  lemma IterationSplits(it: Iteration, later: seq<Iteration>)
    requires !it.arg.If? && !it.tmp.If?
    ensures TextOf([it] + later)
            == Line(it.arg) + (Line(it.tmp)
               + if it.cond.Some? then IfLine(it.cond.value.0, it.cond.value.1) + TextOf(later) else TextOf(later))
  {
    assert ([it] + later)[1..] == later;
    if it.cond.Some? {
      TwoSplits(IF, it.cond.value.0, GREATER, it.cond.value.1, THEN, TextOf(later));
    }
    var rest := if it.cond.Some? then IfLine(it.cond.value.0, it.cond.value.1) + TextOf(later) else TextOf(later);
    LineSplits(it.tmp, rest);
    LineSplits(it.arg, StatementThen(it.tmp, rest));
  }

  /** snprintf at the cursor, which advances by the returned length. */
  method Append(s: TextBuffer, piece: string, ghost rest: string, ghost whole: string)
    requires s.Valid() && CString(piece) && s.text + (piece + rest) == whole && |whole| < s.chars.Length
    modifies s, s.chars
    ensures s.Valid() && s.text + rest == whole
  {
    Assoc(s.text, piece, rest);
    s.PrintCounted(piece, |piece|);
  }

  /** The plan lists the iterations of the request. */
  ghost predicate PlanOf(q: Request, plan: seq<Iteration>) {
    |plan| == (q.nLines + 1) / 2
    && forall k: nat {:trigger IterationAt(q, k)} :: k < |plan| ==> plan[k] == IterationAt(q, k)
  }

  lemma {:induction false} PlanIndex(q: Request, k: nat)
    requires 2 * k <= q.nLines + 1
    ensures |PlanFrom(q, k)| == (q.nLines + 1) / 2 - k
    ensures forall i: nat :: i < |PlanFrom(q, k)| ==> PlanFrom(q, k)[i] == IterationAt(q, k + i)
    decreases q.nLines - 2 * k
  {
    if 2 * k < q.nLines {
      PlanIndex(q, k + 1);
      forall i: nat | i < |PlanFrom(q, k)|
        ensures PlanFrom(q, k)[i] == IterationAt(q, k + i)
      {
        assert i > 0 ==> PlanFrom(q, k)[i] == PlanFrom(q, k + 1)[i - 1];
      }
    }
  }

  /** Lines 76 to 84 up to the formatting: the random numbers of one iteration. */
  method NextIteration(q: Request, k: nat, ghost plan: seq<Iteration>) returns (it: Iteration)
    requires k < |plan| && PlanOf(q, plan)
    ensures it == plan[k] && it.arg.ArgAssign? && it.tmp.TmpAssign?
  {
    it := IterationAt(q, k);
  }

  /** Lines 75 to 85. */
  method PrintStatements(s: TextBuffer, q: Request, ghost plan: seq<Iteration>, ghost whole: string)
    requires s.Valid() && s.text + TextOf(plan) == whole && |whole| < s.chars.Length && PlanOf(q, plan)
    modifies s, s.chars
    ensures s.Valid() && s.text + TextOf([]) == whole
  {
    var n, k := 0, 0;
    ghost var its := plan;
    while n < q.nLines
      invariant s.Valid() && n == 2 * k && k <= |plan| && its == plan[k..] && s.text + TextOf(its) == whole
    {
      var it := NextIteration(q, k, plan);
      PrintIteration(s, it, its, whole);
      its := its[1..];
      n, k := n + 2, k + 1;
    }
    assert its == [];
  }

  /** The printing of one iteration, the first of those that remain. */
  method PrintIteration(s: TextBuffer, it: Iteration, ghost its: seq<Iteration>, ghost whole: string)
    requires s.Valid() && it.arg.ArgAssign? && it.tmp.TmpAssign? && its != [] && its[0] == it
    requires s.text + TextOf(its) == whole && |whole| < s.chars.Length
    modifies s, s.chars
    ensures s.Valid() && s.text + TextOf(its[1..]) == whole
  {
    ghost var later := its[1..];
    assert its == [it] + later;
    ghost var tmp, arg := if it.cond.Some? then it.cond.value.0 else 0, if it.cond.Some? then it.cond.value.1 else 0;
    IterationSplits(it, later);
    LinesCString(it.arg, tmp, arg);
    LinesCString(it.tmp, tmp, arg);
    ghost var last := if it.cond.Some? then IfLine(tmp, arg) + TextOf(later) else TextOf(later);
    Append(s, Line(it.arg), Line(it.tmp) + last, whole);
    Append(s, Line(it.tmp), last, whole);
    if it.cond.Some? {
      Append(s, IfLine(it.cond.value.0, it.cond.value.1), TextOf(later), whole);
    }
  }

  lemma {:induction false} HeaderSplits(i: nat, n: nat, rest: string)
    requires i < n
    ensures i + 1 < n ==> ParametersThen(i, n, rest)
                          == PARAMETER + Decimal(i) + ", " + ParametersThen(i + 1, n, rest)
    ensures i + 1 == n ==> ParametersThen(i, n, rest) == PARAMETER + Decimal(i) + LAST + rest
  {
  }

  lemma HeaderCString(i: nat)
    ensures CString(OPEN) && CString(PARAMETER + Decimal(i) + ", ") && CString(PARAMETER + Decimal(i) + LAST)
    ensures CString("{\n") && CString(LOCALS) && CString("}\n")
  {
    assert CString(PARAMETER);
  }

  /** Lines 63 to 67. */
  method PrintParameters(s: TextBuffer, nArgs: nat, ghost rest: string, ghost whole: string)
    requires s.Valid() && nArgs > 0 && s.text + ParametersThen(0, nArgs, rest) == whole && |whole| < s.chars.Length
    modifies s, s.chars
    ensures s.Valid() && s.text + rest == whole
  {
    var n := 0;
    while n < nArgs - 1
      invariant s.Valid() && n < nArgs && s.text + ParametersThen(n, nArgs, rest) == whole
    {
      HeaderSplits(n, nArgs, rest);
      HeaderCString(n);
      Append(s, PARAMETER + Decimal(n) + ", ", ParametersThen(n + 1, nArgs, rest), whole);
      n := n + 1;
    }
    HeaderSplits(n, nArgs, rest);
    HeaderCString(n);
    Append(s, PARAMETER + Decimal(n) + LAST, rest, whole);
  }

  /** Lines 62 to 71. */
  method PrintHead(capacity: nat, nArgs: nat, ghost body: string, ghost whole: string) returns (s: TextBuffer)
    requires nArgs > 0 && whole == OPEN + ParametersThen(0, nArgs, "{\n" + (LOCALS + body)) && |whole| < capacity
    ensures fresh(s) && fresh(s.chars) && s.Valid() && s.chars.Length == capacity && s.text + body == whole
  {
    HeaderCString(0);
    s := new TextBuffer(capacity, OPEN);
    PrintParameters(s, nArgs, "{\n" + (LOCALS + body), whole);
    Append(s, "{\n", LOCALS + body, whole);
    Append(s, LOCALS, body, whole);
  }

  /** gen_kernel up to the compiler call, with a source buffer that has room for the text. */
  method GenKernel(q: Request, capacity: nat) returns (program: Option<string>)
    requires InRange(q)
    requires q.nArgs > 0 && q.nLines > 0 ==> |ProgramText(q.nArgs, Statements(q))| < capacity
    ensures program == if q.nArgs > 0 && q.nLines > 0 then Some(ProgramText(q.nArgs, Statements(q))) else None
    ensures program.Some? ==>
              ParseProgram(program.value) == Some((q.nArgs, Statements(q))) && Carries(q, Statements(q))
  {
    if q.nArgs < 1 || q.nLines < 1 {
      return None;
    }
    CarriesDraws(q);
    ParseOfPrinted(q.nArgs, Statements(q));
    var text := PrintProgram(q, capacity);
    return Some(text);
  }

  method PrintProgram(q: Request, capacity: nat) returns (text: string)
    requires InRange(q) && q.nArgs > 0 && q.nLines > 0 && |ProgramText(q.nArgs, Statements(q))| < capacity
    ensures text == ProgramText(q.nArgs, Statements(q))
  {
    ghost var plan := PlanFrom(q, 0);
    ghost var whole := ProgramText(q.nArgs, Statements(q));
    PlanIndex(q, 0);
    PlanProperties(q, 0);
    TextIsBody(plan);
    var s := PrintHead(capacity, q.nArgs, TextOf(plan), whole);
    PrintStatements(s, q, plan, whole);
    text := PrintEnd(s, whole);
  }

  /** Line 87. */
  method PrintEnd(s: TextBuffer, ghost whole: string) returns (text: string)
    requires s.Valid() && s.text + TextOf([]) == whole && |whole| < s.chars.Length
    modifies s, s.chars
    ensures text == whole
  {
    HeaderCString(0);
    assert TextOf([]) + "" == "}\n";
    Append(s, "}\n", "", whole);
    assert s.text + "" == s.text;
    text := s.Contents();
  }
}
