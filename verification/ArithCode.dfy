/** arith_speed/arith_speed.cpp, function_to_code: the source text of one operation of a kernel. */
module ArithCode {
  import opened ArithSpeed
  import opened CStrings
  import opened KernelLanguage
  import opened StatementReader

  const ROTATE := " a = b; b = tmp;"

  /** The code of one operation: plain text, or a format with an element number and an operator. */
  datatype Code = Plain(text: string) | PerElementCode(format: (nat, char) -> string)

  /** `a%d <c>= b%d;` */
  function ElementCode(i: nat, c: char): string {
    "a" + Decimal(i) + " " + [c] + "= b" + Decimal(i) + ";"
  }

  /** `a%d -= b%d;;` */
  function VecFormat(): (nat, char) -> string {
    (i: nat, c: char) => ElementCode(i, '-') + ";"
  }

  /** `a%d %c= b%d;` */
  function VliwFormat(): (nat, char) -> string {
    (i: nat, c: char) => ElementCode(i, c)
  }

  /** function_to_code: the code of one operation, whether it has two operands, how many temporaries. */
  function FunctionToCode(f: Function, native: bool, ty: string): (code: (Code, bool, nat))
    ensures code.0.Plain? <==> !PerElement(f)
  {
    match f
    case Add => (Plain("tmp = a + b;" + ROTATE), true, 1)
    case Sub => (Plain("tmp = a - b;" + ROTATE), true, 1)
    case Mul => (Plain("tmp = a * b;" + ROTATE), true, 1)
    case Div => (Plain((if native then "tmp = native_divide(a,b);" else "tmp = a / b;") + ROTATE), true, 1)
    case Mad => (Plain("tmp = a * b + (" + ty + ")0.1;" + ROTATE), true, 1)
    case MadMul =>
      (Plain("tmp = a * b + (" + ty + ")0.1;" + " tmp2 = c * d;" + ROTATE + " c = d; d = tmp2;"), true, 2)
    case Vec => (PerElementCode(VecFormat()), true, 0)
    case Vliw => (PerElementCode(VliwFormat()), true, 0)
    case MathFunction(m) =>
      (Plain((if native then "a = native_" else "a = ") + MathText(m) + "(a"
             + (if m == Sqr then ", (" + ty + ")2.0)" else ")") + ";"),
       false, 0)
  }

  lemma NamesText(ty: string)
    ensures ExprText(Ref(A), ty) == "a" && ExprText(Ref(B), ty) == "b"
    ensures ExprText(Ref(C), ty) == "c" && ExprText(Ref(D), ty) == "d"
    ensures VarText(A) == "a" && VarText(B) == "b" && VarText(C) == "c" && VarText(D) == "d"
    ensures VarText(TMP) == "tmp" && VarText(TMP2) == "tmp2"
  {
  }

  lemma OperatorString(first: string, c: char)
    ensures "tmp" + " = " + (first + " " + [c] + " " + "b") + ";" == "tmp = " + first + " " + [c] + " b;"
  {
  }

  lemma OperatorText(op: Operator, ty: string)
    ensures StatementText(Assign(TMP, Binary(op, Ref(A), Ref(B))), ty)
            == "tmp = " + "a" + " " + [OperatorChar(op)] + " b;"
  {
    NamesText(ty);
    OperatorString("a", OperatorChar(op));
  }

  lemma DivideString()
    ensures "tmp" + " = " + ("native_divide(" + "a" + "," + "b" + ")") + ";" == "tmp = native_divide(a,b);"
  {
  }

  lemma DivideText(ty: string)
    ensures StatementText(Assign(TMP, NativeDivide(Ref(A), Ref(B))), ty) == "tmp = native_divide(a,b);"
  {
    NamesText(ty);
    DivideString();
  }

  lemma MadString(tenth: string)
    ensures "tmp" + " = " + ("a" + " " + ['*'] + " " + "b" + " " + ['+'] + " " + tenth) + ";"
            == "tmp = a * b + " + tenth + ";"
  {
  }

  lemma TenthString(ty: string)
    ensures "tmp = a * b + " + ("(" + ty + ")0.1") + ";" == "tmp = a * b + (" + ty + ")0.1;"
  {
  }

  lemma MadText(ty: string)
    ensures StatementText(Assign(TMP, Binary(Plus, Product(), Tenth)), ty) == "tmp = a * b + (" + ty + ")0.1;"
  {
    NamesText(ty);
    var sum := Binary(Plus, Product(), Tenth);
    assert ExprText(Product(), ty) == "a" + " " + ['*'] + " " + "b";
    assert ExprText(sum, ty) == ExprText(Product(), ty) + " " + ['+'] + " " + ("(" + ty + ")0.1");
    MadString("(" + ty + ")0.1");
    TenthString(ty);
  }

  lemma CopiesText(ty: string)
    ensures StatementText(Assign(A, Ref(B)), ty) == "a = b;" && StatementText(Assign(B, Ref(TMP)), ty) == "b = tmp;"
    ensures StatementText(Assign(C, Ref(D)), ty) == "c = d;" && StatementText(Assign(D, Ref(TMP2)), ty) == "d = tmp2;"
  {
  }

  lemma SecondProductText(ty: string)
    ensures StatementText(Assign(TMP2, Binary(Times, Ref(C), Ref(D))), ty) == "tmp2 = c * d;"
  {
    NamesText(ty);
    assert "tmp2" + " = " + ("c" + " " + ['*'] + " " + "d") + ";" == "tmp2 = c * d;";
  }

  /** The code of the first statement of a recurrence. */
  function FirstText(f: Function, native: bool, ty: string): string {
    match f
    case Add => "tmp = a + b;"
    case Sub => "tmp = a - b;"
    case Div => if native then "tmp = native_divide(a,b);" else "tmp = a / b;"
    case Mad => "tmp = a * b + (" + ty + ")0.1;"
    case MadMul => "tmp = a * b + (" + ty + ")0.1;"
    case _ => "tmp = a * b;"
  }

  lemma FirstStatement(f: Function, native: bool, ty: string)
    ensures StatementText(Assign(TMP, Recurrence(f, native)), ty) == FirstText(f, native, ty)
  {
    if f == Mad || f == MadMul {
      MadText(ty);
    } else if f == Div && native {
      DivideText(ty);
    } else {
      OperatorText(if f == Add then Plus else if f == Sub then Minus else if f == Div then Divide else Times, ty);
    }
  }

  lemma RotateString(first: string)
    ensures first + " " + "a = b;" + " " + "b = tmp;" == first + ROTATE
  {
  }

  lemma ThreeStatements(s0: Statement, s1: Statement, s2: Statement, sep: string, ty: string)
    ensures StatementsText([s0, s1, s2], sep, ty)
            == StatementText(s0, ty) + sep + StatementText(s1, ty) + sep + StatementText(s2, ty)
  {
    StatementsMore([s0], s1, sep, ty);
    assert [s0] + [s1] == [s0, s1];
    StatementsMore([s0, s1], s2, sep, ty);
    assert [s0, s1] + [s2] == [s0, s1, s2];
  }

  lemma SixStatements(s0: Statement, s1: Statement, s2: Statement, s3: Statement, s4: Statement, s5: Statement,
                      sep: string, ty: string)
    ensures StatementsText([s0, s1, s2, s3, s4, s5], sep, ty)
            == StatementsText([s0, s1, s2], sep, ty) + sep + StatementText(s3, ty) + sep + StatementText(s4, ty)
               + sep + StatementText(s5, ty)
  {
    var ss := [s0, s1, s2];
    StatementsMore(ss, s3, sep, ty);
    StatementsMore(ss + [s3], s4, sep, ty);
    StatementsMore(ss + [s3] + [s4], s5, sep, ty);
    assert ss + [s3] + [s4] + [s5] == [s0, s1, s2, s3, s4, s5];
  }

  lemma RecurrenceText(f: Function, native: bool, ty: string)
    requires f == Add || f == Sub || f == Mul || f == Div || f == Mad
    ensures StatementsText(RowOf(f, native, 1, 0).statements, " ", ty) == FunctionToCode(f, native, ty).0.text
  {
    FirstStatement(f, native, ty);
    CopiesText(ty);
    ThreeStatements(Assign(TMP, Recurrence(f, native)), Assign(A, Ref(B)), Assign(B, Ref(TMP)), " ", ty);
    RotateString(FirstText(f, native, ty));
  }

  lemma MadMulString(first: string)
    ensures first + " " + "tmp2 = c * d;" + " " + "a = b;" + " " + "b = tmp;" + " " + "c = d;" + " " + "d = tmp2;"
            == first + " tmp2 = c * d;" + ROTATE + " c = d; d = tmp2;"
  {
    var x := first + " " + "tmp2 = c * d;";
    assert x == first + " tmp2 = c * d;";
    RotateString(x);
    var y := x + ROTATE;
    assert y + " " + "c = d;" + " " + "d = tmp2;" == y + " c = d; d = tmp2;";
  }

  lemma MadMulStatements(native: bool, ty: string)
    ensures StatementsText(RowOf(MadMul, native, 1, 0).statements, " ", ty)
            == FirstText(MadMul, native, ty) + " " + "tmp2 = c * d;" + " " + "a = b;" + " " + "b = tmp;" + " "
               + "c = d;" + " " + "d = tmp2;"
  {
    var s0, s1 := Assign(TMP, Recurrence(MadMul, native)), Assign(TMP2, Binary(Times, Ref(C), Ref(D)));
    FirstStatement(MadMul, native, ty);
    SecondProductText(ty);
    CopiesText(ty);
    ThreeStatements(s0, s1, Assign(A, Ref(B)), " ", ty);
    SixStatements(s0, s1, Assign(A, Ref(B)), Assign(B, Ref(TMP)), Assign(C, Ref(D)), Assign(D, Ref(TMP2)), " ", ty);
  }

  lemma MadMulText(native: bool, ty: string)
    ensures StatementsText(RowOf(MadMul, native, 1, 0).statements, " ", ty)
            == FunctionToCode(MadMul, native, ty).0.text
  {
    MadMulStatements(native, ty);
    MadMulString(FirstText(MadMul, native, ty));
  }

  lemma CallString(native: bool, name: string, rest: string)
    ensures "a" + " = " + ((if native then "native_" else "") + name + "(" + "a" + rest) + ";"
            == (if native then "a = native_" else "a = ") + name + "(a" + rest + ";"
  {
  }

  lemma MathCodeText(m: Math, native: bool, ty: string)
    ensures StatementsText([Assign(A, Apply(m, native, Ref(A)))], " ", ty)
            == FunctionToCode(MathFunction(m), native, ty).0.text
  {
    NamesText(ty);
    CallString(native, MathText(m), if m == Sqr then ", (" + ty + ")2.0)" else ")");
  }
}
