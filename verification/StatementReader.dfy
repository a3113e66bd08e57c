/** A reader for the statements, outputs and declarations of KernelLanguage; each undoes its printing. */
module StatementReader {
  import opened CStrings
  import opened ExpressionReader
  import opened KernelLanguage
  import opened Reading
  import opened Wrappers

  // ---- statements and rows -----------------------------------------------------------------

  function OperatorOf(c: char): Option<Operator> {
    if c == '+' then Some(Plus) else if c == '-' then Some(Minus)
    else if c == '*' then Some(Times) else if c == '/' then Some(Divide) else None
  }

  /** What is behind the target of an update. */
  function ReadUpdateTail(target: Var, s: string): (r: Option<(Statement, string)>)
    ensures r.Some? ==> |r.value.1| < |s|
  {
    if |s| < 2 || s[0] != ' ' then None
    else
      var op :- OperatorOf(s[1]);
      var s3 :- Expect(s[2..], "= ");
      var (other, s4) :- ReadName(s3);
      var source :- VarOf(other);
      var rest :- Expect(s4, ";");
      Some((Update(target, op, source), rest))
  }

  /** What is behind the target of an assignment and the equals sign. */
  function ReadAssignTail(target: Var, s: string, ty: string): (r: Option<(Statement, string)>)
    ensures r.Some? ==> |r.value.1| < |s|
  {
    var (value, s2) :- ReadSum(s, ty);
    var rest :- Expect(s2, ";");
    Some((Assign(target, value), rest))
  }

  function ReadStatement(s: string, ty: string): (r: Option<(Statement, string)>)
    ensures r.Some? ==> |r.value.1| < |s|
  {
    if s != "" && s[0] == ';' then Some((Empty, s[1..]))
    else
      var (name, s1) :- ReadName(s);
      var target :- VarOf(name);
      if " = " <= s1 then ReadAssignTail(target, s1[3..], ty) else ReadUpdateTail(target, s1)
  }

  function SkipSpace(s: string): string {
    if s != "" && s[0] == ' ' then s[1..] else s
  }

  function ReadStatements(s: string, ty: string): Option<seq<Statement>>
    decreases |s|
  {
    if s == "" then Some([])
    else
      var (first, rest) :- ReadStatement(s, ty);
      var more :- ReadStatements(SkipSpace(rest), ty);
      Some([first] + more)
  }

  function ReadRow(line: string, ty: string): Option<Row> {
    var s :- Expect(line, "    ");
    var ss :- ReadStatements(s, ty);
    Some(Row(ss))
  }

  predicate ReadableStatement(s: Statement) {
    match s
    case Assign(target, value) => KernelVar(target) && IsSum(value)
    case Update(target, _, source) => KernelVar(target) && KernelVar(source)
    case Empty => true
  }

  lemma AssignPieces(target: string, value: string, rest: string)
    ensures target + " = " + value + ";" + rest == target + (" = " + (value + (";" + rest)))
  {
  }

  lemma ReadAssignPieces(name: string, target: Var, inner: string, value: Expr, ty: string, rest: string)
    requires IsName(name) && VarOf(name) == Some(target) && ReadSum(inner, ty) == Some((value, ";" + rest))
    ensures ReadStatement(name + (" = " + inner), ty) == Some((Assign(target, value), rest))
  {
    ReadNameOf(name, " = " + inner);
    assert (name + (" = " + inner))[0] == name[0];
    assert (" = " + inner)[3..] == inner;
    ExpectLiteral(";", rest);
  }

  lemma ReadAssign(target: Var, value: Expr, ty: string, rest: string)
    requires KernelVar(target) && IsSum(value)
    ensures ReadStatement(StatementText(Assign(target, value), ty) + rest, ty) == Some((Assign(target, value), rest))
  {
    ExprSplits(value, ty, ";" + rest);
    AssignPieces(VarText(target), ExprText(value, ty), rest);
    VarOfText(target);
    ReadSumThen(value, ty, ";" + rest);
    ReadAssignPieces(VarText(target), target, ExprThen(value, ty, ";" + rest), value, ty, rest);
  }

  lemma UpdatePieces(target: string, c: char, source: string, rest: string)
    ensures target + " " + [c] + "= " + source + ";" + rest == target + (" " + ([c] + ("= " + (source + (";" + rest)))))
  {
    Assoc(target, " ", [c]);
    Assoc(target, " " + [c], "= ");
    Assoc(target, " " + [c] + "= ", source);
    Assoc(target, " " + [c] + "= " + source, ";");
    Assoc(target, " " + [c] + "= " + source + ";", rest);
  }

  lemma ReadUpdateTailPieces(target: Var, op: Operator, other: string, source: Var, rest: string)
    requires IsName(other) && VarOf(other) == Some(source)
    ensures ReadUpdateTail(target, " " + ([OperatorChar(op)] + ("= " + (other + (";" + rest)))))
            == Some((Update(target, op, source), rest))
  {
    var s3 := other + (";" + rest);
    var s := " " + ([OperatorChar(op)] + ("= " + s3));
    assert s[2..] == "= " + s3;
    ExpectLiteral("= ", s3);
    ReadNameOf(other, ";" + rest);
    ExpectLiteral(";", rest);
  }

  lemma ReadUpdatePieces(name: string, target: Var, c: char, more: string, ty: string)
    requires IsName(name) && VarOf(name) == Some(target) && c != '='
    ensures ReadStatement(name + (" " + ([c] + more)), ty) == ReadUpdateTail(target, " " + ([c] + more))
  {
    ReadNameOf(name, " " + ([c] + more));
    assert (name + (" " + ([c] + more)))[0] == name[0];
    assert (" " + ([c] + more))[1] == c && " = "[1] == '=';
  }

  lemma ReadUpdate(target: Var, op: Operator, source: Var, ty: string, rest: string)
    requires KernelVar(target) && KernelVar(source)
    ensures ReadStatement(StatementText(Update(target, op, source), ty) + rest, ty)
            == Some((Update(target, op, source), rest))
  {
    UpdatePieces(VarText(target), OperatorChar(op), VarText(source), rest);
    VarOfText(target);
    VarOfText(source);
    ReadUpdatePieces(VarText(target), target, OperatorChar(op), "= " + (VarText(source) + (";" + rest)), ty);
    ReadUpdateTailPieces(target, op, VarText(source), source, rest);
  }

  lemma ReadStatementText(s: Statement, ty: string, rest: string)
    requires ReadableStatement(s)
    ensures ReadStatement(StatementText(s, ty) + rest, ty) == Some((s, rest))
  {
    match s
    case Assign(target, value) => ReadAssign(target, value, ty, rest);
    case Update(target, op, source) => ReadUpdate(target, op, source, ty, rest);
    case Empty =>
  }

  /** A statement does not start with the separator. */
  lemma StatementStart(s: Statement, ty: string)
    requires ReadableStatement(s)
    ensures StatementText(s, ty) != "" && StatementText(s, ty)[0] != ' '
  {
    if !s.Empty? {
      VarOfText(s.target);
      assert StatementText(s, ty)[0] == VarText(s.target)[0];
    }
  }

  lemma StatementsMore(ss: seq<Statement>, last: Statement, sep: string, ty: string)
    requires ss != []
    ensures StatementsText(ss + [last], sep, ty) == StatementsText(ss, sep, ty) + sep + StatementText(last, ty)
  {
    assert (ss + [last])[..|ss|] == ss;
  }

  lemma FourPieces(first: string, sep: string, middle: string, last: string)
    ensures first + (sep + middle) + sep + last == first + (sep + (middle + sep + last))
  {
    Assoc(first, sep + middle, sep);
    Assoc(first, sep + middle + sep, last);
    Assoc(sep, middle, sep);
    Assoc(sep, middle + sep, last);
  }

  /** The first statement and the separator come first. */
  lemma {:induction false} StatementsFirst(first: Statement, more: seq<Statement>, sep: string, ty: string)
    requires more != []
    ensures StatementsText([first] + more, sep, ty) == StatementText(first, ty) + (sep + StatementsText(more, sep, ty))
    decreases |more|
  {
    var n := |more| - 1;
    var init, last := more[..n], more[n];
    assert more == init + [last];
    if n == 0 {
      assert more == [last];
      StatementsMore([first], last, sep, ty);
      Assoc(StatementText(first, ty), sep, StatementText(last, ty));
    } else {
      StatementsFirst(first, init, sep, ty);
      StatementsMore(init, last, sep, ty);
      StatementsMore([first] + init, last, sep, ty);
      assert [first] + more == [first] + init + [last];
      FourPieces(StatementText(first, ty), sep, StatementsText(init, sep, ty), StatementText(last, ty));
    }
  }

  predicate ReadableStatements(ss: seq<Statement>) {
    forall k :: 0 <= k < |ss| ==> ReadableStatement(ss[k])
  }

  lemma StatementsStart(ss: seq<Statement>, sep: string, ty: string)
    requires ss != [] && ReadableStatements(ss)
    ensures StatementsText(ss, sep, ty) != "" && StatementsText(ss, sep, ty)[0] != ' '
  {
    StatementStart(ss[0], ty);
    if |ss| > 1 {
      StatementsFirst(ss[0], ss[1..], sep, ty);
      assert [ss[0]] + ss[1..] == ss;
    }
  }

  /** The separator is skipped, if there is one. */
  lemma SkipSeparator(sep: string, more: string)
    requires (sep == "" || sep == " ") && more != "" && more[0] != ' '
    ensures SkipSpace(sep + more) == more
  {
    if sep == "" {
      assert sep + more == more;
    } else {
      assert (sep + more)[1..] == more;
    }
  }

  lemma ReadStatementsMore(s: string, ty: string, first: Statement, rest: string, tail: string, more: seq<Statement>)
    requires ReadStatement(s, ty) == Some((first, rest)) && SkipSpace(rest) == tail
    requires ReadStatements(tail, ty) == Some(more)
    ensures ReadStatements(s, ty) == Some([first] + more)
  {
  }

  lemma {:induction false} ReadStatementsText(ss: seq<Statement>, sep: string, ty: string)
    requires (sep == "" || sep == " ") && ReadableStatements(ss)
    ensures ReadStatements(StatementsText(ss, sep, ty), ty) == Some(ss)
    decreases |ss|
  {
    if |ss| == 1 {
      var text := StatementText(ss[0], ty);
      ReadStatementText(ss[0], ty, "");
      assert text + "" == text;
      ReadStatementsMore(text, ty, ss[0], "", "", []);
      assert [ss[0]] + [] == ss;
    } else if |ss| > 1 {
      var more := StatementsText(ss[1..], sep, ty);
      assert [ss[0]] + ss[1..] == ss;
      StatementsFirst(ss[0], ss[1..], sep, ty);
      StatementsStart(ss[1..], sep, ty);
      ReadStatementText(ss[0], ty, sep + more);
      SkipSeparator(sep, more);
      ReadStatementsText(ss[1..], sep, ty);
      ReadStatementsMore(StatementText(ss[0], ty) + (sep + more), ty, ss[0], sep + more, more, ss[1..]);
    }
  }

  function RowLineText(r: Row, ty: string): string {
    "    " + StatementsText(r.statements, Separator(r.statements), ty)
  }

  lemma ReadRowText(r: Row, ty: string)
    requires ReadableStatements(r.statements)
    ensures RowText(r, ty) == RowLineText(r, ty) + "\n"
    ensures ReadRow(RowLineText(r, ty), ty) == Some(r)
  {
    ExpectLiteral("    ", StatementsText(r.statements, Separator(r.statements), ty));
    ReadStatementsText(r.statements, Separator(r.statements), ty);
  }

  // ---- outputs -------------------------------------------------------------------------------

  function HexValue(c: char): Option<nat> {
    if IsDigit(c) then Some(DigitValue(c)) else if 'a' <= c <= 'f' then Some(10 + (c as nat - 'a' as nat)) else None
  }

  function ReadTerm(s: string): (r: Option<(Term, string)>)
    ensures r.Some? ==> |r.value.1| < |s|
  {
    var (name, s1) :- ReadName(s);
    var v :- VarOf(name);
    if ".s" <= s1 && |s1| > 2 then
      var component :- HexValue(s1[2]);
      Some((Term(v, component), s1[3..]))
    else Some((Term(v, -1), s1))
  }

  function ReadTerms(s: string): Option<seq<Term>>
    decreases |s|
  {
    var (first, rest) :- ReadTerm(s);
    if rest == ";" then Some([first])
    else
      var tail :- Expect(rest, " + ");
      var more :- ReadTerms(tail);
      Some([first] + more)
  }

  /** The place an output statement stores to, relative to its work-item, and the text behind it. */
  function ReadPlace(s: string, vec: nat): Option<(int, string)> {
    if "gid" <= s then Some((-1, s[3..]))
    else
      var (n, s1) :- ReadNumber(s);
      var s2 :- Expect(s1, "*gid+");
      var (place, rest) :- ReadNumber(s2);
      if n == vec then Some((place, rest)) else None
  }

  function ReadOutput(line: string, vec: nat): Option<Output> {
    var s1 :- Expect(line, "  output[");
    var (place, s2) :- ReadPlace(s1, vec);
    var s3 :- Expect(s2, "] = ");
    var terms :- ReadTerms(s3);
    Some(Output(place, terms))
  }

  predicate ReadableTerm(t: Term) {
    KernelVar(t.v) && -1 <= t.component < 16
  }

  predicate ReadableOutput(o: Output) {
    o.place >= -1 && o.terms != [] && forall k :: 0 <= k < |o.terms| ==> ReadableTerm(o.terms[k])
  }

  lemma HexRead(d: nat)
    requires d < 16
    ensures HexValue(HexDigit(d)) == Some(d)
  {
  }

  /** Text behind a term: the end of the statement or another term. */
  predicate BehindTerm(rest: string) {
    rest != "" && !NameChar(rest[0]) && rest[0] != '.'
  }

  lemma ComponentRead(name: string, v: Var, component: nat, rest: string)
    requires IsName(name) && VarOf(name) == Some(v) && component < 16
    ensures ReadTerm(name + (".s" + ([HexDigit(component)] + rest))) == Some((Term(v, component), rest))
  {
    var s1 := ".s" + ([HexDigit(component)] + rest);
    ReadNameOf(name, s1);
    assert s1[2] == HexDigit(component) && s1[3..] == rest;
    HexRead(component);
  }

  lemma ReadTermText(t: Term, rest: string)
    requires ReadableTerm(t) && BehindTerm(rest)
    ensures ReadTerm(TermText(t) + rest) == Some((t, rest))
  {
    var name := VarText(t.v);
    VarOfText(t.v);
    if t.component >= 0 {
      ComponentRead(name, t.v, t.component, rest);
      Assoc(name, ".s" + [HexDigit(t.component)], rest);
      Assoc(".s", [HexDigit(t.component)], rest);
    } else {
      assert name + "" == name;
      ReadNameOf(name, rest);
    }
  }

  lemma TermsMore(ts: seq<Term>, last: Term)
    requires ts != []
    ensures TermsText(ts + [last]) == TermsText(ts) + " + " + TermText(last)
  {
    assert (ts + [last])[..|ts|] == ts;
  }

  lemma {:induction false} TermsFirst(first: Term, more: seq<Term>)
    requires more != []
    ensures TermsText([first] + more) == TermText(first) + (" + " + TermsText(more))
    decreases |more|
  {
    var n := |more| - 1;
    var init, last := more[..n], more[n];
    assert more == init + [last];
    if n == 0 {
      assert more == [last];
      TermsMore([first], last);
      Assoc(TermText(first), " + ", TermText(last));
    } else {
      TermsFirst(first, init);
      TermsMore(init, last);
      TermsMore([first] + init, last);
      assert [first] + more == [first] + init + [last];
      FourPieces(TermText(first), " + ", TermsText(init), TermText(last));
    }
  }

  lemma ReadTermsMore(s: string, first: Term, tail: string, more: seq<Term>)
    requires ReadTerm(s) == Some((first, " + " + tail)) && ReadTerms(tail) == Some(more)
    ensures ReadTerms(s) == Some([first] + more)
  {
    ExpectLiteral(" + ", tail);
    assert (" + " + tail)[0] == ' ';
  }

  lemma {:induction false} ReadTermsText(ts: seq<Term>)
    requires ts != [] && forall k :: 0 <= k < |ts| ==> ReadableTerm(ts[k])
    ensures ReadTerms(TermsText(ts) + ";") == Some(ts)
    decreases |ts|
  {
    if |ts| == 1 {
      ReadTermText(ts[0], ";");
      assert ts == [ts[0]];
    } else {
      var tail := TermsText(ts[1..]) + ";";
      assert [ts[0]] + ts[1..] == ts;
      TermsFirst(ts[0], ts[1..]);
      ReadTermsText(ts[1..]);
      assert (" + " + tail)[0] == ' ';
      ReadTermText(ts[0], " + " + tail);
      Assoc(TermText(ts[0]), " + " + TermsText(ts[1..]), ";");
      Assoc(" + ", TermsText(ts[1..]), ";");
      ReadTermsMore(TermText(ts[0]) + (" + " + tail), ts[0], tail, ts[1..]);
    }
  }

  function PlaceText(place: int, vec: nat): string {
    if place < 0 then "gid" else Decimal(vec) + "*gid+" + Decimal(place)
  }

  lemma ReadPlaceText(place: int, vec: nat, rest: string)
    requires place >= -1 && (rest == "" || !IsDigit(rest[0]))
    ensures ReadPlace(PlaceText(place, vec) + rest, vec) == Some((place, rest))
  {
    if place < 0 {
      ExpectLiteral("gid", rest);
    } else {
      var s2 := Decimal(place) + rest;
      Assoc(Decimal(vec) + "*gid+", Decimal(place), rest);
      Assoc(Decimal(vec), "*gid+", s2);
      ReadDecimal(vec, "*gid+" + s2);
      ExpectLiteral("*gid+", s2);
      ReadDecimal(place, rest);
      assert (Decimal(vec) + ("*gid+" + s2))[0] == Decimal(vec)[0] && IsDigit(Decimal(vec)[0]) && "gid"[0] == 'g';
    }
  }

  function OutputLineText(o: Output, vec: nat): string {
    "  output[" + (PlaceText(o.place, vec) + ("] = " + (TermsText(o.terms) + ";")))
  }

  lemma OutputPieces(place: string, terms: string)
    ensures "  output[" + place + "] = " + terms + ";\n"
            == "  output[" + (place + ("] = " + (terms + ";"))) + "\n"
  {
    var x := "  output[" + place;
    Assoc(x, "] = ", terms);
    Assoc(x, "] = " + terms, ";\n");
    assert (("] = " + terms) + ";\n") == ("] = " + (terms + ";")) + "\n";
    Assoc("  output[", place, "] = " + (terms + ";"));
  }

  lemma ReadOutputText(o: Output, vec: nat)
    requires ReadableOutput(o)
    ensures OutputText(o, vec) == OutputLineText(o, vec) + "\n"
    ensures ReadOutput(OutputLineText(o, vec), vec) == Some(o)
  {
    var s3 := TermsText(o.terms) + ";";
    OutputPieces(PlaceText(o.place, vec), TermsText(o.terms));
    ExpectLiteral("  output[", PlaceText(o.place, vec) + ("] = " + s3));
    ReadPlaceText(o.place, vec, "] = " + s3);
    ExpectLiteral("] = ", s3);
    ReadTermsText(o.terms);
  }

  // ---- declarations --------------------------------------------------------------------------

  /** A number between an opening text and a bracket. */
  function ReadIndexed(s: string, open: string): Option<(nat, string)> {
    var s1 :- Expect(s, open);
    var (k, s2) :- ReadNumber(s1);
    var s3 :- Expect(s2, "]");
    Some((k, s3))
  }

  /** Consecutive numbers from `next` on, each read by `read`. */
  function ReadCounted(read: string -> Option<(nat, string)>, s: string, next: nat, count: nat): Option<string>
    decreases count
  {
    if count == 0 then Some(s)
    else
      var (k, rest) :- read(s);
      if k == next then ReadCounted(read, rest, next + 1, count - 1) else None
  }

  /** Consecutive numbers, the first of them read by `readFirst`: it, and the text behind the last. */
  function ReadSeries(readFirst: string -> Option<(nat, string)>, readNext: string -> Option<(nat, string)>,
                      s: string, count: nat): Option<(nat, string)>
  {
    var (first, s1) :- readFirst(s);
    var rest :- ReadCounted(readNext, s1, first + 1, if count > 0 then count - 1 else 0);
    Some((first, rest))
  }

  function IndexReader(open: string): string -> Option<(nat, string)> {
    (s: string) => ReadIndexed(s, open)
  }

  /** A list of `vec` consecutive inputs. */
  function ReadInputs(s: string, vec: nat): Option<(nat, string)> {
    ReadSeries(IndexReader("input["), IndexReader(", input["), s, vec)
  }

  /** What is behind the first variable and the equals sign of two scalar declarations. */
  function ReadPairTail(v: Var, s: string): Option<Decl> {
    var s3 :- Expect(s, "input[");
    var (i, s4) :- ReadNumber(s3);
    var s5 :- Expect(s4, "], ");
    var (name, s6) :- ReadName(s5);
    var s7 :- Expect(s6, " = input[");
    var (second, s8) :- ReadNumber(s7);
    if s8 == "];" && v == Var("a", i) && VarOf(name) == Some(Var("b", i)) then Some(Pair(i, second)) else None
  }

  /** What is behind the variable and the cast of a vector declaration. */
  function ReadGatherTail(v: Var, s: string, vec: nat): Option<Decl> {
    var (first, rest) :- ReadInputs(s, vec);
    if rest == ");" then Some(Gather(v, first)) else None
  }

  function ReadDecl(line: string, ty: string, vec: nat): Option<Decl> {
    var s1 :- Expect(line, "  " + ty + " ");
    var (name, s2) :- ReadName(s1);
    var v :- VarOf(name);
    if s2 == ";" then Some(Temporary(v))
    else
      var s3 :- Expect(s2, " = ");
      if "(" + ty + ")(" <= s3 then ReadGatherTail(v, s3[|"(" + ty + ")("|..], vec) else ReadPairTail(v, s3)
  }

  predicate ReadableDecl(d: Decl) {
    match d
    case Gather(v, _) => KernelVar(v)
    case Pair(_, _) => true
    case Temporary(v) => KernelVar(v)
  }

  /** What ReadIndexed reads. */
  function Indexed(open: string, n: nat, rest: string): string {
    open + (Decimal(n) + ("]" + rest))
  }

  function IndexWriter(open: string): (nat, string) -> string {
    (n: nat, rest: string) => Indexed(open, n, rest)
  }

  /** Consecutive numbers from `next` on, each written by `write`, followed by some more text. */
  function Counted(write: (nat, string) -> string, next: nat, count: nat, rest: string): string
    decreases count
  {
    if count == 0 then rest else write(next, Counted(write, next + 1, count - 1, rest))
  }

  lemma {:induction false} CountedEnd(write: (nat, string) -> string, next: nat, count: nat, rest: string)
    ensures Counted(write, next, count + 1, rest) == Counted(write, next, count, write(next + count, rest))
    decreases count
  {
    if count > 0 {
      CountedEnd(write, next + 1, count - 1, rest);
    }
  }

  ghost predicate Undoes(read: string -> Option<(nat, string)>, write: (nat, string) -> string) {
    forall n: nat, rest: string :: read(write(n, rest)) == Some((n, rest))
  }

  lemma {:induction false} ReadCountedText(read: string -> Option<(nat, string)>, write: (nat, string) -> string,
                                           next: nat, count: nat, rest: string)
    requires Undoes(read, write)
    ensures ReadCounted(read, Counted(write, next, count, rest), next, count) == Some(rest)
    decreases count
  {
    if count > 0 {
      ReadCountedText(read, write, next + 1, count - 1, rest);
    }
  }

  lemma InputPieces(list: string, n: nat, rest: string)
    ensures list + ", input[" + Decimal(n) + "]" + rest == list + Indexed(", input[", n, rest)
  {
    Assoc(list, ", input[", Decimal(n));
    Assoc(list, ", input[" + Decimal(n), "]");
    Assoc(list, ", input[" + Decimal(n) + "]", rest);
    Assoc(", input[" + Decimal(n), "]", rest);
    Assoc(", input[", Decimal(n), "]" + rest);
  }

  lemma OneInput(n: nat, rest: string)
    ensures "input[" + Decimal(n) + "]" + rest == Indexed("input[", n, rest)
  {
    Assoc("input[" + Decimal(n), "]", rest);
    Assoc("input[", Decimal(n), "]" + rest);
  }

  lemma {:induction false} InputListSplits(first: nat, count: nat, rest: string)
    requires count > 0
    ensures InputList(first, count) + rest
            == IndexWriter("input[")(first, Counted(IndexWriter(", input["), first + 1, count - 1, rest))
    decreases count
  {
    var write := IndexWriter(", input[");
    if count == 1 {
      OneInput(first, rest);
    } else {
      InputPieces(InputList(first, count - 1), first + count - 1, rest);
      InputListSplits(first, count - 1, write(first + count - 1, rest));
      CountedEnd(write, first + 1, count - 2, rest);
    }
  }

  lemma ReadIndexedText(open: string, n: nat, rest: string)
    ensures ReadIndexed(Indexed(open, n, rest), open) == Some((n, rest))
  {
    ExpectLiteral(open, Decimal(n) + ("]" + rest));
    ReadDecimal(n, "]" + rest);
    ExpectLiteral("]", rest);
  }

  lemma IndexUndone(open: string)
    ensures Undoes(IndexReader(open), IndexWriter(open))
  {
    forall n: nat, rest: string
      ensures IndexReader(open)(IndexWriter(open)(n, rest)) == Some((n, rest))
    {
      ReadIndexedText(open, n, rest);
    }
  }

  lemma ReadSeriesText(readFirst: string -> Option<(nat, string)>, writeFirst: (nat, string) -> string,
                       readNext: string -> Option<(nat, string)>, writeNext: (nat, string) -> string,
                       first: nat, count: nat, rest: string)
    requires Undoes(readFirst, writeFirst) && Undoes(readNext, writeNext) && count > 0
    ensures ReadSeries(readFirst, readNext, writeFirst(first, Counted(writeNext, first + 1, count - 1, rest)), count)
            == Some((first, rest))
  {
    ReadCountedText(readNext, writeNext, first + 1, count - 1, rest);
  }

  lemma ReadInputsText(first: nat, vec: nat, rest: string)
    requires vec > 0
    ensures ReadInputs(InputList(first, vec) + rest, vec) == Some((first, rest))
  {
    InputListSplits(first, vec, rest);
    IndexUndone("input[");
    IndexUndone(", input[");
    ReadSeriesText(IndexReader("input["), IndexWriter("input["), IndexReader(", input["), IndexWriter(", input["),
                   first, vec, rest);
  }

  lemma ReadPairTailText(i: nat, second: nat)
    ensures ReadPairTail(Var("a", i), "input[" + (Decimal(i) + ("], " + ("b" + Decimal(i) + (" = input["
                                      + (Decimal(second) + "];")))))) == Some(Pair(i, second))
  {
    var s7 := Decimal(second) + "];";
    var s5 := "b" + Decimal(i) + (" = input[" + s7);
    ExpectLiteral("input[", Decimal(i) + ("], " + s5));
    ReadDecimal(i, "], " + s5);
    ExpectLiteral("], ", s5);
    VarOfText(Var("b", i));
    ReadNameOf("b" + Decimal(i), " = input[" + s7);
    ExpectLiteral(" = input[", s7);
    ReadDecimal(second, "];");
  }

  /** A declaration line by its type, its variable and what is behind that. */
  function DeclLine(ty: string, name: string, tail: string): string {
    ("  " + ty + " ") + (name + tail)
  }

  function DeclTail(d: Decl, ty: string, vec: nat): string {
    match d
    case Gather(_, first) => " = " + (("(" + ty + ")(") + (InputList(first, vec) + ");"))
    case Pair(i, second) =>
      " = " + ("input[" + (Decimal(i) + ("], " + ("b" + Decimal(i) + (" = input[" + (Decimal(second) + "];"))))))
    case Temporary(_) => ";"
  }

  function DeclVar(d: Decl): Var {
    match d case Gather(v, _) => v case Pair(i, _) => Var("a", i) case Temporary(v) => v
  }

  function DeclLineText(d: Decl, ty: string, vec: nat): string {
    DeclLine(ty, VarText(DeclVar(d)), DeclTail(d, ty, vec))
  }

  lemma ReadDeclLine(ty: string, v: Var, tail: string, vec: nat)
    requires KernelVar(v) && (tail == ";" || " = " <= tail)
    ensures ReadDecl(DeclLine(ty, VarText(v), tail), ty, vec)
            == if tail == ";" then Some(Temporary(v))
               else if "(" + ty + ")(" <= tail[3..] then ReadGatherTail(v, tail[3..][|"(" + ty + ")("|..], vec)
               else ReadPairTail(v, tail[3..])
  {
    VarOfText(v);
    ExpectLiteral("  " + ty + " ", VarText(v) + tail);
    assert tail != "" && !NameChar(tail[0]);
    ReadNameOf(VarText(v), tail);
  }

  lemma ReadDeclText(d: Decl, ty: string, vec: nat)
    requires ReadableDecl(d) && vec > 0
    ensures ReadDecl(DeclLineText(d, ty, vec), ty, vec) == Some(d)
  {
    var tail := DeclTail(d, ty, vec);
    ReadDeclLine(ty, DeclVar(d), tail, vec);
    match d
    case Gather(v, first) =>
      var cast := "(" + ty + ")(";
      var inputs := InputList(first, vec) + ");";
      assert tail[3..] == cast + inputs;
      ExpectLiteral(cast, inputs);
      ReadInputsText(first, vec, ");");
    case Pair(i, second) =>
      var more := "input[" + (Decimal(i) + ("], " + ("b" + Decimal(i) + (" = input[" + (Decimal(second) + "];")))));
      assert tail[3..] == more && more[0] == 'i';
      ReadPairTailText(i, second);
    case Temporary(_) =>
  }
}
