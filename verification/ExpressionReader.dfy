/**
 * A reader for the variables and expressions of KernelLanguage, with the precedence of OpenCL C: `*`
 * and `/` bind tighter than `+` and `-`, and operators of one kind group to the left.
 */
module ExpressionReader {
  import opened CStrings
  import opened KernelLanguage
  import opened Reading
  import opened Wrappers

  // ---- variables ---------------------------------------------------------------------------

  /** The variables of the generated kernels. */
  predicate KernelVar(v: Var) {
    || (v.index == -1 && v.letters in {"a", "b", "c", "d", "tmp", "tmp2"})
    || (v.index >= 0 && v.letters in {"a", "b"})
  }

  function VarOf(name: string): Option<Var> {
    if name in {"a", "b", "c", "d", "tmp", "tmp2"} then Some(Var(name, -1))
    else if |name| > 1 && name[..1] in {"a", "b"} && Digits(name[1..]) then Some(Var(name[..1], Value(name[1..])))
    else None
  }

  lemma IndexedName(letters: string, index: nat)
    requires letters in {"a", "b"}
    ensures var name := letters + Decimal(index);
            && IsName(name) && |name| > 1 && name[..1] == letters && name[1..] == Decimal(index)
            && name !in {"a", "b", "c", "d", "tmp", "tmp2"}
  {
    var name := letters + Decimal(index);
    assert name[1..] == Decimal(index) && name[..1] == letters;
    assert IsDigit(name[1]) && !IsDigit("tmp"[1]) && !IsDigit("tmp2"[1]);
  }

  lemma VarOfText(v: Var)
    requires KernelVar(v)
    ensures IsName(VarText(v)) && VarOf(VarText(v)) == Some(v)
  {
    if v.index >= 0 {
      IndexedName(v.letters, v.index);
      DecimalValue(v.index);
    }
  }

  /** Different variables have different names in the text. */
  lemma NamesDistinct(v: Var, w: Var)
    requires KernelVar(v) && KernelVar(w)
    ensures VarText(v) == VarText(w) <==> v == w
  {
    VarOfText(v);
    VarOfText(w);
  }

  // ---- expressions -------------------------------------------------------------------------

  function MathName(f: Math, native: bool): string {
    (if native then "native_" else "") + MathText(f)
  }

  function PlainMath(name: string): Option<Math> {
    if name == "exp" then Some(Exp) else if name == "log" then Some(Log) else if name == "powr" then Some(Sqr)
    else if name == "sqrt" then Some(Sqrt) else if name == "cos" then Some(Cos) else if name == "sin" then Some(Sin)
    else if name == "tan" then Some(Tan) else None
  }

  function MathOf(name: string): Option<(Math, bool)> {
    var native := "native_" <= name;
    var f :- PlainMath(if native then name[7..] else name);
    Some((f, native))
  }

  function TenthText(ty: string): string {
    "(" + ty + ")0.1"
  }

  /** What ends a call of a one-argument function; the exponent of a square is part of it. */
  function Closing(f: Math, ty: string): string {
    if f == Sqr then ", (" + ty + ")2.0)" else ")"
  }

  function OperatorText(op: Operator): string {
    [' ', OperatorChar(op), ' ']
  }

  /** The binary operator of one kind at the start of s. */
  function OperatorAt(s: string, product: bool): Option<Operator> {
    if |s| < 3 || s[0] != ' ' || s[2] != ' ' then None
    else if product then if s[1] == '*' then Some(Times) else if s[1] == '/' then Some(Divide) else None
    else if s[1] == '+' then Some(Plus) else if s[1] == '-' then Some(Minus) else None
  }

  function ReadSum(s: string, ty: string): (r: Option<(Expr, string)>)
    ensures r.Some? ==> |r.value.1| < |s|
    decreases |s|, 2
  {
    var (first, rest) :- ReadProduct(s, ty);
    ReadMoreSum(first, rest, ty)
  }

  function ReadMoreSum(sum: Expr, s: string, ty: string): (r: Option<(Expr, string)>)
    ensures r.Some? ==> |r.value.1| <= |s|
    decreases |s|, 3
  {
    match OperatorAt(s, false)
    case None => Some((sum, s))
    case Some(op) =>
      var (next, rest) :- ReadProduct(s[3..], ty);
      ReadMoreSum(Binary(op, sum, next), rest, ty)
  }

  function ReadProduct(s: string, ty: string): (r: Option<(Expr, string)>)
    ensures r.Some? ==> |r.value.1| < |s|
    decreases |s|, 1
  {
    var (first, rest) :- ReadFactor(s, ty);
    ReadMoreProduct(first, rest, ty)
  }

  function ReadMoreProduct(product: Expr, s: string, ty: string): (r: Option<(Expr, string)>)
    ensures r.Some? ==> |r.value.1| <= |s|
    decreases |s|, 2
  {
    match OperatorAt(s, true)
    case None => Some((product, s))
    case Some(op) =>
      var (next, rest) :- ReadFactor(s[3..], ty);
      ReadMoreProduct(Binary(op, product, next), rest, ty)
  }

  function ReadFactor(s: string, ty: string): (r: Option<(Expr, string)>)
    ensures r.Some? ==> |r.value.1| < |s|
    decreases |s|, 0
  {
    if TenthText(ty) <= s then Some((Tenth, s[|TenthText(ty)|..]))
    else
      var (name, rest) :- ReadName(s);
      if rest == "" || rest[0] != '(' then
        var v :- VarOf(name);
        Some((Ref(v), rest))
      else if name == "native_divide" then
        var (x, s2) :- ReadSum(rest[1..], ty);
        var s3 :- Expect(s2, ",");
        var (y, s4) :- ReadSum(s3, ty);
        var s5 :- Expect(s4, ")");
        Some((NativeDivide(x, y), s5))
      else
        var (f, native) :- MathOf(name);
        var (x, s2) :- ReadSum(rest[1..], ty);
        var s3 :- Expect(s2, Closing(f, ty));
        Some((Apply(f, native, x), s3))
  }

  /** Expressions that print without parentheses: sums of products of factors, grouped to the left. */
  predicate IsFactor(e: Expr)
    decreases e, 0
  {
    match e
    case Ref(v) => KernelVar(v)
    case Binary(_, _, _) => false
    case NativeDivide(x, y) => IsSum(x) && IsSum(y)
    case Tenth => true
    case Apply(_, _, x) => IsSum(x)
  }

  predicate IsProduct(e: Expr)
    decreases e, 1
  {
    if e.Binary? then (e.op == Times || e.op == Divide) && IsProduct(e.x) && IsFactor(e.y) else IsFactor(e)
  }

  predicate IsSum(e: Expr)
    decreases e, 2
  {
    if e.Binary? && (e.op == Plus || e.op == Minus) then IsSum(e.x) && IsProduct(e.y) else IsProduct(e)
  }

  /** The text of an expression, followed by some more text. */
  function ExprThen(e: Expr, ty: string, rest: string): string {
    match e
    case Ref(v) => VarText(v) + rest
    case Binary(op, x, y) => ExprThen(x, ty, OperatorText(op) + ExprThen(y, ty, rest))
    case NativeDivide(x, y) => "native_divide" + ("(" + ExprThen(x, ty, "," + ExprThen(y, ty, ")" + rest)))
    case Tenth => TenthText(ty) + rest
    case Apply(f, native, x) => MathName(f, native) + ("(" + ExprThen(x, ty, Closing(f, ty) + rest))
  }

  lemma BinaryPieces(x: string, op: Operator, y: string, rest: string)
    ensures x + " " + [OperatorChar(op)] + " " + y + rest == x + (OperatorText(op) + (y + rest))
  {
    assert x + " " + [OperatorChar(op)] + " " == x + OperatorText(op);
  }

  lemma DividePieces(x: string, y: string, rest: string)
    ensures "native_divide(" + x + "," + y + ")" + rest == "native_divide" + ("(" + (x + ("," + (y + (")" + rest)))))
  {
    assert "native_divide(" + x == "native_divide" + "(" + x;
  }

  lemma CallPieces(name: string, x: string, closing: string, rest: string)
    ensures name + "(" + x + closing + rest == name + ("(" + (x + (closing + rest)))
  {
  }

  lemma {:induction false} ExprSplits(e: Expr, ty: string, rest: string)
    ensures ExprThen(e, ty, rest) == ExprText(e, ty) + rest
  {
    match e
    case Ref(v) =>
    case Binary(op, x, y) =>
      ExprSplits(y, ty, rest);
      ExprSplits(x, ty, OperatorText(op) + ExprThen(y, ty, rest));
      BinaryPieces(ExprText(x, ty), op, ExprText(y, ty), rest);
    case NativeDivide(x, y) =>
      ExprSplits(y, ty, ")" + rest);
      ExprSplits(x, ty, "," + ExprThen(y, ty, ")" + rest));
      DividePieces(ExprText(x, ty), ExprText(y, ty), rest);
    case Tenth =>
    case Apply(f, native, x) =>
      ExprSplits(x, ty, Closing(f, ty) + rest);
      CallPieces(MathName(f, native), ExprText(x, ty), Closing(f, ty), rest);
  }

  /** Text that ends the expression before it. */
  predicate Ends(rest: string) {
    rest == "" || (!NameChar(rest[0]) && rest[0] != '(')
  }

  lemma MathTextRead(f: Math)
    ensures IsName(MathText(f)) && PlainMath(MathText(f)) == Some(f) && !("native_" <= MathText(f))
    ensures MathText(f)[0] != 'd'
  {
  }

  lemma NativeName(name: string)
    requires IsName(name) && name[0] != 'd'
    ensures "native_" <= "native_" + name && ("native_" + name)[7..] == name
    ensures IsName("native_" + name) && "native_" + name != "native_divide"
  {
    assert ("native_" + name)[7] == name[0] && "native_divide"[7] == 'd';
  }

  lemma MathOfName(f: Math, native: bool)
    ensures IsName(MathName(f, native)) && MathName(f, native) != "native_divide"
    ensures MathOf(MathName(f, native)) == Some((f, native))
  {
    MathTextRead(f);
    NativeName(MathText(f));
  }

  lemma NotTenth(name: string, rest: string, ty: string)
    requires IsName(name)
    ensures !(TenthText(ty) <= name + rest)
  {
    assert NameChar((name + rest)[0]) && TenthText(ty)[0] == '(';
  }

  lemma ReadVar(v: Var, ty: string, rest: string)
    requires KernelVar(v) && Ends(rest)
    ensures ReadFactor(VarText(v) + rest, ty) == Some((Ref(v), rest))
  {
    VarOfText(v);
    NotTenth(VarText(v), rest, ty);
    ReadNameOf(VarText(v), rest);
  }

  lemma ReadCall(f: Math, native: bool, ty: string, inner: string, x: Expr, rest: string)
    requires ReadSum(inner, ty) == Some((x, Closing(f, ty) + rest))
    ensures ReadFactor(MathName(f, native) + ("(" + inner), ty) == Some((Apply(f, native, x), rest))
  {
    MathOfName(f, native);
    NotTenth(MathName(f, native), "(" + inner, ty);
    ReadNameOf(MathName(f, native), "(" + inner);
    assert ("(" + inner)[1..] == inner;
    ExpectLiteral(Closing(f, ty), rest);
  }

  lemma ReadDivide(ty: string, inner: string, x: Expr, second: string, y: Expr, rest: string)
    requires ReadSum(inner, ty) == Some((x, "," + second)) && ReadSum(second, ty) == Some((y, ")" + rest))
    ensures ReadFactor("native_divide" + ("(" + inner), ty) == Some((NativeDivide(x, y), rest))
  {
    NotTenth("native_divide", "(" + inner, ty);
    ReadNameOf("native_divide", "(" + inner);
    assert ("(" + inner)[1..] == inner;
    ExpectLiteral(",", second);
    ExpectLiteral(")", rest);
  }

  lemma OperatorFound(op: Operator, rest: string)
    ensures OperatorAt(OperatorText(op) + rest, op == Times || op == Divide) == Some(op)
    ensures OperatorAt(OperatorText(op) + rest, !(op == Times || op == Divide)) == None
    ensures (OperatorText(op) + rest)[3..] == rest && Ends(OperatorText(op) + rest)
  {
  }

  lemma ClosingEnds(f: Math, ty: string, rest: string)
    ensures Ends(Closing(f, ty) + rest) && Ends("," + rest) && Ends(")" + rest)
    ensures OperatorAt(Closing(f, ty) + rest, true).None? && OperatorAt(Closing(f, ty) + rest, false).None?
    ensures OperatorAt("," + rest, true).None? && OperatorAt("," + rest, false).None?
    ensures OperatorAt(")" + rest, true).None? && OperatorAt(")" + rest, false).None?
  {
    assert (Closing(f, ty) + rest)[0] == Closing(f, ty)[0];
  }

  lemma {:induction false} ReadFactorThen(e: Expr, ty: string, rest: string)
    requires IsFactor(e) && Ends(rest)
    ensures ReadFactor(ExprThen(e, ty, rest), ty) == Some((e, rest))
    decreases e, 0
  {
    match e
    case Ref(v) => ReadVar(v, ty, rest);
    case NativeDivide(x, y) =>
      var second := ExprThen(y, ty, ")" + rest);
      ClosingEnds(Exp, ty, second);
      ClosingEnds(Exp, ty, rest);
      ReadSumThen(y, ty, ")" + rest);
      ReadSumThen(x, ty, "," + second);
      ReadDivide(ty, ExprThen(x, ty, "," + second), x, second, y, rest);
    case Tenth =>
      assert (TenthText(ty) + rest)[..|TenthText(ty)|] == TenthText(ty);
      assert (TenthText(ty) + rest)[|TenthText(ty)|..] == rest;
    case Apply(f, native, x) =>
      ClosingEnds(f, ty, rest);
      ReadSumThen(x, ty, Closing(f, ty) + rest);
      ReadCall(f, native, ty, ExprThen(x, ty, Closing(f, ty) + rest), x, rest);
  }

  lemma {:induction false} ReadProductThen(e: Expr, ty: string, rest: string)
    requires IsProduct(e) && Ends(rest)
    ensures ReadProduct(ExprThen(e, ty, rest), ty) == ReadMoreProduct(e, rest, ty)
    decreases e, 1
  {
    if e.Binary? {
      var more := ExprThen(e.y, ty, rest);
      OperatorFound(e.op, more);
      ReadProductThen(e.x, ty, OperatorText(e.op) + more);
      ReadFactorThen(e.y, ty, rest);
    } else {
      ReadFactorThen(e, ty, rest);
    }
  }

  lemma {:induction false} ReadSumMore(e: Expr, ty: string, rest: string)
    requires IsSum(e) && Ends(rest) && OperatorAt(rest, true).None?
    ensures ReadSum(ExprThen(e, ty, rest), ty) == ReadMoreSum(e, rest, ty)
    decreases e, 2
  {
    if e.Binary? && (e.op == Plus || e.op == Minus) {
      var more := ExprThen(e.y, ty, rest);
      OperatorFound(e.op, more);
      ReadSumMore(e.x, ty, OperatorText(e.op) + more);
      ReadProductThen(e.y, ty, rest);
    } else {
      ReadProductThen(e, ty, rest);
    }
  }

  /** Reading an expression undoes printing it. */
  lemma {:induction false} ReadSumThen(e: Expr, ty: string, rest: string)
    requires IsSum(e) && Ends(rest) && OperatorAt(rest, true).None? && OperatorAt(rest, false).None?
    ensures ReadSum(ExprThen(e, ty, rest), ty) == Some((e, rest))
    decreases e, 3
  {
    ReadSumMore(e, ty, rest);
  }
}
