/** A reader for whole kernels, line by line. Reading undoes printing, so a kernel's text has one meaning. */
module KernelReader {
  import opened CStrings
  import opened ExpressionReader
  import opened HeaderReader
  import opened KernelLanguage
  import opened Reading
  import opened StatementReader
  import opened Wrappers

  // ---- the lines of a kernel -----------------------------------------------------------------

  lemma {:induction false} DeclsAreLines(ds: seq<Decl>, line: nat -> string, ty: string, vec: nat)
    requires forall i: nat :: i < |ds| ==> DeclText(ds[i], ty, vec) == line(i)
    ensures DeclsText(ds, ty, vec) == Join(line, |ds|)
    decreases |ds|
  {
    if ds != [] {
      DeclsAreLines(ds[..|ds| - 1], line, ty, vec);
    }
  }

  lemma {:induction false} RowsAreLines(rows: seq<Row>, line: nat -> string, ty: string)
    requires forall r: nat :: r < |rows| ==> RowText(rows[r], ty) == line(r)
    ensures RowsText(rows, ty) == Join(line, |rows|)
    decreases |rows|
  {
    if rows != [] {
      RowsAreLines(rows[..|rows| - 1], line, ty);
    }
  }

  lemma {:induction false} OutputsAreLines(os: seq<Output>, line: nat -> string, vec: nat)
    requires forall i: nat :: i < |os| ==> OutputText(os[i], vec) == line(i)
    ensures OutputsText(os, vec) == Join(line, |os|)
    decreases |os|
  {
    if os != [] {
      OutputsAreLines(os[..|os| - 1], line, vec);
    }
  }

  lemma GatherPieces(ty: string, name: string, list: string)
    ensures "  " + ty + " " + name + " = (" + ty + ")(" + list + ");\n"
            == ("  " + ty + " ") + (name + (" = " + (("(" + ty + ")(") + (list + ");")))) + "\n"
  {
    var x := "  " + ty + " ";
    assert x + name + " = (" + ty + ")(" == x + (name + (" = " + ("(" + ty + ")(")));
    assert list + ");\n" == (list + ");") + "\n";
  }

  lemma PairPieces(ty: string, i: string, second: string)
    ensures "  " + ty + " a" + i + " = input[" + i + "], b" + i + " = input[" + second + "];\n"
            == ("  " + ty + " ") + ("a" + i + (" = " + ("input[" + (i + ("], " + ("b" + i + (" = input["
               + (second + "];")))))))) + "\n"
  {
    assert "  " + ty + " a" + i == ("  " + ty + " ") + ("a" + i);
    assert " = input[" + i + "], b" + i == " = " + ("input[" + (i + ("], " + ("b" + i))));
    assert " = input[" + second + "];\n" == (" = input[" + (second + "];")) + "\n";
  }

  lemma TemporaryPieces(ty: string, name: string)
    ensures "  " + ty + " " + name + ";\n" == ("  " + ty + " ") + (name + ";") + "\n"
  {
  }

  lemma DeclTextLine(d: Decl, ty: string, vec: nat)
    ensures DeclText(d, ty, vec) == DeclLineText(d, ty, vec) + "\n"
  {
    match d
    case Gather(v, first) => GatherPieces(ty, VarText(v), InputList(first, vec));
    case Pair(i, second) => PairPieces(ty, Decimal(i), Decimal(second));
    case Temporary(v) => TemporaryPieces(ty, VarText(v));
  }

  lemma NameIsLine(name: string)
    requires IsName(name)
    ensures IsLine(name)
  {
  }

  lemma FactorIsProduct(e: Expr)
    requires IsFactor(e)
    ensures IsProduct(e)
  {
    assert !e.Binary?;
  }

  lemma ProductIsSum(e: Expr)
    requires IsProduct(e)
    ensures IsSum(e)
  {
    assert e.Binary? ==> e.op == Times || e.op == Divide;
  }

  /** The operands of an expression that reads back read back themselves. */
  lemma Operands(e: Expr)
    requires IsSum(e)
    ensures e.Binary? ==> IsSum(e.x) && IsSum(e.y)
    ensures !e.Binary? ==> IsFactor(e)
  {
    if !e.Binary? {
      assert IsProduct(e);
    } else if e.op == Plus || e.op == Minus {
      ProductIsSum(e.y);
    } else {
      assert IsProduct(e);
      FactorIsProduct(e.y);
      ProductIsSum(e.x);
      ProductIsSum(e.y);
    }
  }

  lemma {:induction false} ExprIsLine(e: Expr, ty: string)
    requires IsLine(ty) && IsSum(e)
    ensures IsLine(ExprText(e, ty))
  {
    Operands(e);
    match e
    case Ref(v) =>
      VarOfText(v);
      NameIsLine(VarText(v));
    case Binary(op, x, y) =>
      ExprIsLine(x, ty);
      ExprIsLine(y, ty);
    case NativeDivide(x, y) =>
      ExprIsLine(x, ty);
      ExprIsLine(y, ty);
    case Tenth =>
    case Apply(f, native, x) =>
      MathOfName(f, native);
      NameIsLine(MathName(f, native));
      ExprIsLine(x, ty);
  }

  lemma StatementIsLine(s: Statement, ty: string)
    requires IsLine(ty) && ReadableStatement(s)
    ensures IsLine(StatementText(s, ty))
  {
    if !s.Empty? {
      VarOfText(s.target);
      NameIsLine(VarText(s.target));
      if s.Assign? {
        ExprIsLine(s.value, ty);
      } else {
        VarOfText(s.source);
        NameIsLine(VarText(s.source));
      }
    }
  }

  lemma {:induction false} StatementsIsLine(ss: seq<Statement>, sep: string, ty: string)
    requires IsLine(ty) && IsLine(sep) && ReadableStatements(ss)
    ensures IsLine(StatementsText(ss, sep, ty))
    decreases |ss|
  {
    if ss != [] {
      StatementIsLine(ss[|ss| - 1], ty);
      StatementsIsLine(ss[..|ss| - 1], sep, ty);
    }
  }

  lemma {:induction false} InputListIsLine(first: nat, count: nat)
    ensures IsLine(InputList(first, count))
  {
    if count > 1 {
      InputListIsLine(first, count - 1);
    }
  }

  lemma {:induction false} TermsIsLine(ts: seq<Term>)
    requires forall k :: 0 <= k < |ts| ==> ReadableTerm(ts[k])
    ensures IsLine(TermsText(ts))
    decreases |ts|
  {
    if ts != [] {
      VarOfText(ts[|ts| - 1].v);
      NameIsLine(VarText(ts[|ts| - 1].v));
      TermsIsLine(ts[..|ts| - 1]);
    }
  }

  /** Line k of a list of lines reads as item k, and is not the line that ends the list. */
  ghost predicate ReadAs<T>(lines: seq<string>, items: seq<T>, stop: string, read: string -> Option<T>) {
    && |lines| == |items|
    && forall k :: 0 <= k < |items| ==> IsLine(lines[k]) && lines[k] != stop && read(lines[k]) == Some(items[k])
  }

  /** The line that opens the loop. */
  const LOOP_LINE := "  for(i = 0; i < iterations; ++i) {"

  function DeclReader(ty: string, vec: nat): string -> Option<Decl> {
    (line: string) => ReadDecl(line, ty, vec)
  }

  function RowReader(ty: string): string -> Option<Row> {
    (line: string) => ReadRow(line, ty)
  }

  function OutputReader(vec: nat): string -> Option<Output> {
    (line: string) => ReadOutput(line, vec)
  }

  function DeclLines(ds: seq<Decl>, ty: string, vec: nat): seq<string> {
    seq(|ds|, k requires 0 <= k < |ds| => DeclLineText(ds[k], ty, vec))
  }

  function RowLines(rs: seq<Row>, ty: string): seq<string> {
    seq(|rs|, k requires 0 <= k < |rs| => RowLineText(rs[k], ty))
  }

  function OutputLines(os: seq<Output>, vec: nat): seq<string> {
    seq(|os|, k requires 0 <= k < |os| => OutputLineText(os[k], vec))
  }

  lemma GatherTailIsLine(ty: string, list: string)
    requires IsLine(ty) && IsLine(list)
    ensures var tail := " = " + (("(" + ty + ")(") + (list + ");"));
            IsLine(tail) && |tail| > 0 && tail[|tail| - 1] == ';'
  {
  }

  lemma PairTailIsLine(i: string, second: string)
    requires IsLine(i) && IsLine(second)
    ensures var tail := " = " + ("input[" + (i + ("], " + ("b" + i + (" = input[" + (second + "];"))))));
            IsLine(tail) && |tail| > 0 && tail[|tail| - 1] == ';'
  {
    assert IsLine("b" + i + (" = input[" + (second + "];")));
  }

  lemma DeclTailIsLine(d: Decl, ty: string, vec: nat)
    requires IsLine(ty)
    ensures var tail := DeclTail(d, ty, vec); IsLine(tail) && |tail| > 0 && tail[|tail| - 1] == ';'
  {
    match d
    case Gather(_, first) =>
      InputListIsLine(first, vec);
      GatherTailIsLine(ty, InputList(first, vec));
    case Pair(i, second) => PairTailIsLine(Decimal(i), Decimal(second));
    case Temporary(_) =>
  }

  lemma DeclLineIsLine(ty: string, name: string, tail: string)
    requires IsLine(ty) && IsLine(name) && IsLine(tail) && |tail| > 0 && tail[|tail| - 1] == ';'
    ensures IsLine(DeclLine(ty, name, tail)) && DeclLine(ty, name, tail) != LOOP_LINE
  {
    var line := DeclLine(ty, name, tail);
    assert line[|line| - 1] == tail[|tail| - 1] && LOOP_LINE[|LOOP_LINE| - 1] == '{';
  }

  lemma DeclLineRead(d: Decl, ty: string, vec: nat)
    requires ReadableDecl(d) && IsLine(ty) && vec > 0
    ensures IsLine(DeclLineText(d, ty, vec)) && DeclLineText(d, ty, vec) != LOOP_LINE
    ensures DeclReader(ty, vec)(DeclLineText(d, ty, vec)) == Some(d)
  {
    ReadDeclText(d, ty, vec);
    VarOfText(DeclVar(d));
    NameIsLine(VarText(DeclVar(d)));
    DeclTailIsLine(d, ty, vec);
    DeclLineIsLine(ty, VarText(DeclVar(d)), DeclTail(d, ty, vec));
  }

  lemma RowLineRead(r: Row, ty: string)
    requires ReadableStatements(r.statements) && IsLine(ty)
    ensures IsLine(RowLineText(r, ty)) && RowLineText(r, ty) != "  }" && RowReader(ty)(RowLineText(r, ty)) == Some(r)
  {
    ReadRowText(r, ty);
    StatementsIsLine(r.statements, Separator(r.statements), ty);
    assert RowLineText(r, ty)[2] == ' ' && "  }"[2] == '}';
  }

  lemma PlaceIsLine(place: int, vec: nat)
    ensures IsLine(PlaceText(place, vec))
  {
  }

  lemma OutputIsLine(place: string, terms: string)
    requires IsLine(place) && IsLine(terms)
    ensures var line := "  output[" + (place + ("] = " + (terms + ";"))); IsLine(line) && line != "}"
  {
  }

  lemma OutputLineRead(o: Output, vec: nat)
    requires ReadableOutput(o)
    ensures IsLine(OutputLineText(o, vec)) && OutputLineText(o, vec) != "}"
    ensures OutputReader(vec)(OutputLineText(o, vec)) == Some(o)
  {
    ReadOutputText(o, vec);
    TermsIsLine(o.terms);
    PlaceIsLine(o.place, vec);
    OutputIsLine(PlaceText(o.place, vec), TermsText(o.terms));
  }

  predicate ReadableKernel(k: Kernel) {
    && (forall i :: 0 <= i < |k.decls| ==> ReadableDecl(k.decls[i]))
    && (forall i :: 0 <= i < |k.rows| ==> ReadableStatements(k.rows[i].statements))
    && (forall i :: 0 <= i < |k.outputs| ==> ReadableOutput(k.outputs[i]))
  }

  lemma LinesReadAs(k: Kernel, ty: string, vec: nat)
    requires ReadableKernel(k) && IsLine(ty) && vec > 0
    ensures ReadAs(DeclLines(k.decls, ty, vec), k.decls, LOOP_LINE, DeclReader(ty, vec))
    ensures ReadAs(RowLines(k.rows, ty), k.rows, "  }", RowReader(ty))
    ensures ReadAs(OutputLines(k.outputs, vec), k.outputs, "}", OutputReader(vec))
  {
    forall i | 0 <= i < |k.decls|
      ensures var line := DeclLines(k.decls, ty, vec)[i];
              IsLine(line) && line != LOOP_LINE && DeclReader(ty, vec)(line) == Some(k.decls[i])
    {
      DeclLineRead(k.decls[i], ty, vec);
    }
    forall i | 0 <= i < |k.rows|
      ensures var line := RowLines(k.rows, ty)[i];
              IsLine(line) && line != "  }" && RowReader(ty)(line) == Some(k.rows[i])
    {
      RowLineRead(k.rows[i], ty);
    }
    forall i | 0 <= i < |k.outputs|
      ensures var line := OutputLines(k.outputs, vec)[i];
              IsLine(line) && line != "}" && OutputReader(vec)(line) == Some(k.outputs[i])
    {
      OutputLineRead(k.outputs[i], vec);
    }
  }

  // ---- whole kernels -------------------------------------------------------------------------

  function ReadBody(lines: seq<string>, ty: string, vec: nat): Option<Kernel> {
    var (decls, s1) :- ReadUntil(lines, LOOP_LINE, DeclReader(ty, vec));
    var (rows, s2) :- ReadUntil(s1, "  }", RowReader(ty));
    var (outputs, s3) :- ReadUntil(s2, "}", OutputReader(vec));
    if s3 == [] then Some(Kernel(decls, rows, outputs)) else None
  }

  /** What a program text says, for private variables of type ty and work-items of width vec. */
  function ReadProgram(text: string, ty: string, vec: nat): Option<(Header, Kernel)> {
    var (header, body) :- ReadHeader(Lines(text));
    var kernel :- ReadBody(body, ty, vec);
    Some((header, kernel))
  }

  function OutputPart(k: Kernel, vec: nat): seq<string> {
    OutputLines(k.outputs, vec) + ["}"] + []
  }

  function RowPart(k: Kernel, ty: string, vec: nat): seq<string> {
    RowLines(k.rows, ty) + ["  }"] + OutputPart(k, vec)
  }

  function BodyLines(k: Kernel, ty: string, vec: nat): seq<string> {
    DeclLines(k.decls, ty, vec) + [LOOP_LINE] + RowPart(k, ty, vec)
  }

  lemma ReadBodyLines(k: Kernel, ty: string, vec: nat)
    requires ReadableKernel(k) && IsLine(ty) && vec > 0
    ensures ReadBody(BodyLines(k, ty, vec), ty, vec) == Some(k)
  {
    LinesReadAs(k, ty, vec);
    ReadUntilStop(k.decls, DeclLines(k.decls, ty, vec), LOOP_LINE, DeclReader(ty, vec), RowPart(k, ty, vec));
    ReadUntilStop(k.rows, RowLines(k.rows, ty), "  }", RowReader(ty), OutputPart(k, vec));
    ReadUntilStop(k.outputs, OutputLines(k.outputs, vec), "}", OutputReader(vec), []);
  }

  function ProgramLines(k: Kernel, t: ElementType, local: nat, ty: string, vec: nat): seq<string> {
    HeaderLines(t, local) + [GID_LINE] + BodyLines(k, ty, vec)
  }

  lemma HeadOfProgram(k: Kernel, t: ElementType, local: nat, ty: string, vec: nat)
    requires ReadableKernel(k) && IsLine(ty) && vec > 0
    ensures ReadHeader(Lines(Unlines(ProgramLines(k, t, local, ty, vec), "")))
            == Some((HeaderOf(t, local), BodyLines(k, ty, vec)))
  {
    HeaderIsLines(t, local);
    LinesReadAs(k, ty, vec);
    LinesOf(ProgramLines(k, t, local, ty, vec));
    HeaderRead(t, local, BodyLines(k, ty, vec));
  }

  lemma ProgramParts(text: string, ty: string, vec: nat, header: Header, body: seq<string>, k: Kernel)
    requires ReadHeader(Lines(text)) == Some((header, body)) && ReadBody(body, ty, vec) == Some(k)
    ensures ReadProgram(text, ty, vec) == Some((header, k))
  {
  }

  lemma ReadProgramLines(k: Kernel, t: ElementType, local: nat, ty: string, vec: nat)
    requires ReadableKernel(k) && IsLine(ty) && vec > 0
    ensures ReadProgram(Unlines(ProgramLines(k, t, local, ty, vec), ""), ty, vec) == Some((HeaderOf(t, local), k))
  {
    HeadOfProgram(k, t, local, ty, vec);
    ReadBodyLines(k, ty, vec);
    ProgramParts(Unlines(ProgramLines(k, t, local, ty, vec), ""), ty, vec, HeaderOf(t, local),
                 BodyLines(k, ty, vec), k);
  }

  // ---- the text of a kernel consists of these lines --------------------------------------------

  function DeclPiece(ds: seq<Decl>, ty: string, vec: nat): nat -> string {
    (i: nat) => if i < |ds| then DeclText(ds[i], ty, vec) else ""
  }

  function RowPiece(rs: seq<Row>, ty: string): nat -> string {
    (i: nat) => if i < |rs| then RowText(rs[i], ty) else ""
  }

  function OutputPiece(os: seq<Output>, vec: nat): nat -> string {
    (i: nat) => if i < |os| then OutputText(os[i], vec) else ""
  }

  lemma DeclsUnlines(ds: seq<Decl>, ty: string, vec: nat, rest: string)
    ensures DeclsText(ds, ty, vec) + rest == Unlines(DeclLines(ds, ty, vec), rest)
  {
    DeclsAreLines(ds, DeclPiece(ds, ty, vec), ty, vec);
    forall i: nat | i < |ds|
      ensures DeclPiece(ds, ty, vec)(i) == DeclLines(ds, ty, vec)[i] + "\n"
    {
      DeclTextLine(ds[i], ty, vec);
    }
    JoinLines(DeclPiece(ds, ty, vec), DeclLines(ds, ty, vec), rest);
  }

  lemma RowsUnlines(rs: seq<Row>, ty: string, rest: string)
    requires forall i :: 0 <= i < |rs| ==> ReadableStatements(rs[i].statements)
    ensures RowsText(rs, ty) + rest == Unlines(RowLines(rs, ty), rest)
  {
    RowsAreLines(rs, RowPiece(rs, ty), ty);
    forall i: nat | i < |rs|
      ensures RowPiece(rs, ty)(i) == RowLines(rs, ty)[i] + "\n"
    {
      ReadRowText(rs[i], ty);
    }
    JoinLines(RowPiece(rs, ty), RowLines(rs, ty), rest);
  }

  lemma OutputsUnlines(os: seq<Output>, vec: nat, rest: string)
    requires forall i :: 0 <= i < |os| ==> ReadableOutput(os[i])
    ensures OutputsText(os, vec) + rest == Unlines(OutputLines(os, vec), rest)
  {
    OutputsAreLines(os, OutputPiece(os, vec), vec);
    forall i: nat | i < |os|
      ensures OutputPiece(os, vec)(i) == OutputLines(os, vec)[i] + "\n"
    {
      ReadOutputText(os[i], vec);
    }
    JoinLines(OutputPiece(os, vec), OutputLines(os, vec), rest);
  }

  /** Lines, one more line, and more lines. */
  lemma UnlinesThree(lines: seq<string>, line: string, more: seq<string>, text: string, rest: string)
    requires rest == Unlines(more, "") && text == Unlines(lines, line + ("\n" + rest))
    ensures text == Unlines(lines + [line] + more, "")
  {
    UnlinesAppend(lines + [line], more, "");
    UnlinesAppend(lines, [line], rest);
    assert Unlines([line], rest) == line + ("\n" + rest);
  }

  lemma SevenPieces(h: string, d: string, r: string, o: string)
    ensures h + d + LOOP_HEAD + r + LOOP_END + o + "}\n"
            == h + (d + (LOOP_LINE + ("\n" + (r + ("  }" + ("\n" + (o + ("}" + ("\n" + "")))))))))
  {
    assert LOOP_HEAD == LOOP_LINE + "\n" && LOOP_END == "  }" + "\n" && "}\n" == "}" + ("\n" + "");
    TailPieces(r, o);
    Assoc(h, d, LOOP_HEAD + (r + (LOOP_END + (o + "}\n"))));
  }

  lemma TailPieces(r: string, o: string)
    ensures LOOP_HEAD + (r + (LOOP_END + (o + "}\n")))
            == LOOP_LINE + ("\n" + (r + ("  }" + ("\n" + (o + ("}" + ("\n" + "")))))))
  {
    assert LOOP_HEAD == LOOP_LINE + "\n" && LOOP_END == "  }" + "\n" && "}\n" == "}" + ("\n" + "");
  }

  lemma KernelUnlines(k: Kernel, t: ElementType, local: nat, ty: string, vec: nat)
    requires ReadableKernel(k)
    ensures KernelText(k, t, local, ty, vec) == Unlines(ProgramLines(k, t, local, ty, vec), "")
  {
    var t2 := OutputsText(k.outputs, vec) + ("}" + ("\n" + ""));
    OutputsUnlines(k.outputs, vec, "}" + ("\n" + ""));
    UnlinesThree(OutputLines(k.outputs, vec), "}", [], t2, "");
    var t1 := RowsText(k.rows, ty) + ("  }" + ("\n" + t2));
    RowsUnlines(k.rows, ty, "  }" + ("\n" + t2));
    UnlinesThree(RowLines(k.rows, ty), "  }", OutputPart(k, vec), t1, t2);
    var t0 := DeclsText(k.decls, ty, vec) + (LOOP_LINE + ("\n" + t1));
    DeclsUnlines(k.decls, ty, vec, LOOP_LINE + ("\n" + t1));
    UnlinesThree(DeclLines(k.decls, ty, vec), LOOP_LINE, RowPart(k, ty, vec), t0, t1);
    UnlinesRest(HeaderLines(t, local) + [GID_LINE], t0);
    UnlinesAppend(HeaderLines(t, local) + [GID_LINE], BodyLines(k, ty, vec), "");
    SevenPieces(HeaderText(t, local), DeclsText(k.decls, ty, vec), RowsText(k.rows, ty), OutputsText(k.outputs, vec));
  }

  /**
   * Main result: reading the text of a kernel gives back its head and its declarations, rows and
   * outputs, so the text determines what the kernel computes.
   */
  lemma ReadOfPrinted(k: Kernel, t: ElementType, local: nat, ty: string, vec: nat)
    requires ReadableKernel(k) && IsLine(ty) && vec > 0
    ensures ReadProgram(KernelText(k, t, local, ty, vec), ty, vec) == Some((HeaderOf(t, local), k))
  {
    KernelUnlines(k, t, local, ty, vec);
    ReadProgramLines(k, t, local, ty, vec);
  }
}
