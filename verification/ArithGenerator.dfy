/** arith_speed/arith_speed.cpp, genKernel: writing the text of a kernel into its buffer. */
module ArithGenerator {
  import opened ArithCode
  import opened ArithSpeed
  import opened CStrings
  import opened ExpressionReader
  import opened HeaderReader
  import opened KernelLanguage
  import opened KernelReader
  import opened Reading
  import opened StatementReader
  import opened TextBuffer
  import opened Wrappers

  // ---- room in the buffer --------------------------------------------------------------------

  /** The buffer has room for this much more text. */
  ghost predicate Room(s: TextBuffer, more: string)
    reads s
  {
    |s.text| + |more| < s.chars.Length
  }

  lemma PairCString(i: nat, second: nat, ty: string, vec: nat)
    requires CString(ty)
    ensures CString(DeclText(Pair(i, second), ty, vec))
  {
  }

  function PairLines(ty: string, vec: nat): nat -> string {
    (i: nat) => DeclText(Pair(i, i + vec), ty, vec)
  }

  lemma {:induction false} PairDeclsAt(vec: nat, n: nat)
    ensures |PairDecls(vec, n)| == n && forall i: nat :: i < n ==> PairDecls(vec, n)[i] == Pair(i, i + vec)
  {
    if n > 0 {
      PairDeclsAt(vec, n - 1);
    }
  }

  lemma PairsText(ty: string, vec: nat)
    ensures DeclsText(PairDecls(vec, vec), ty, vec) == Join(PairLines(ty, vec), vec)
  {
    PairDeclsAt(vec, vec);
    var ds, line := PairDecls(vec, vec), PairLines(ty, vec);
    forall i: nat | i < vec
      ensures DeclText(ds[i], ty, vec) == line(i)
    {
      assert ds[i] == Pair(i, i + vec);
    }
    DeclsAreLines(ds, line, ty, vec);
  }

  lemma PairsCString(ty: string, vec: nat)
    requires CString(ty)
    ensures forall i: nat :: i < vec ==> CString(PairLines(ty, vec)(i))
  {
    forall i: nat | i < vec
      ensures CString(PairLines(ty, vec)(i))
    {
      PairCString(i, i + vec, ty, vec);
    }
  }

  /** Print the pieces one by one, measuring the buffer after each: the shape of many of the loops. */
  method PrintAll(s: TextBuffer, piece: nat -> string, n: nat)
    requires s.Valid() && Room(s, Join(piece, n)) && forall i: nat :: i < n ==> CString(piece(i))
    modifies s, s.chars
    ensures s.Valid() && s.text == old(s.text) + Join(piece, n)
  {
    for i := 0 to n
      invariant s.Valid() && s.text == old(s.text) + Join(piece, i)
    {
      JoinStep(old(s.text), piece, i, n);
      s.Print(piece(i));
    }
  }

  /** Lines 351 to 355. */
  method PrintPairs(s: TextBuffer, ty: string, vec: nat)
    requires s.Valid() && CString(ty) && Room(s, DeclsText(PairDecls(vec, vec), ty, vec))
    modifies s, s.chars
    ensures s.Valid() && s.text == old(s.text) + DeclsText(PairDecls(vec, vec), ty, vec)
  {
    PairsText(ty, vec);
    PairsCString(ty, vec);
    PrintAll(s, PairLines(ty, vec), vec);
  }

  lemma {:induction false} InputListCString(first: nat, n: nat)
    ensures CString(InputList(first, n))
  {
    if n > 1 {
      InputListCString(first, n - 1);
    }
  }

  lemma {:induction false} InputListGrows(first: nat, n: nat, count: nat)
    requires n <= count
    ensures |InputList(first, n)| <= |InputList(first, count)|
    decreases count
  {
    if n < count {
      InputListGrows(first, n, count - 1);
    }
  }

  function NextInput(first: nat, i: nat): string {
    ", input[" + Decimal(first + i) + "]"
  }

  lemma InputLonger(start: string, opening: string, first: nat, i: nat, vec: nat)
    requires 0 < i < vec
    ensures start + (opening + InputList(first, i)) + NextInput(first, i)
            == start + (opening + InputList(first, i + 1))
    ensures CString(NextInput(first, i))
    ensures |start + (opening + InputList(first, i + 1))| <= |start| + |opening + InputList(first, vec)|
  {
    var x, y := InputList(first, i), NextInput(first, i);
    assert InputList(first, i + 1) == x + y;
    Assoc(start, opening + x, y);
    Assoc(opening, x, y);
    InputListGrows(first, i + 1, vec);
  }

  /** Print `opening input[first], ..., input[first + vec - 1]`, the elements after the first in a loop. */
  method PrintGather(s: TextBuffer, opening: string, first: nat, vec: nat)
    requires s.Valid() && vec > 0 && CString(opening) && Room(s, opening + InputList(first, vec))
    modifies s, s.chars
    ensures s.Valid() && s.text == old(s.text) + (opening + InputList(first, vec))
  {
    InputListGrows(first, 1, vec);
    InputListCString(first, 1);
    s.Print(opening + InputList(first, 1));
    for i := 1 to vec
      invariant s.Valid() && s.text == old(s.text) + (opening + InputList(first, i))
    {
      InputLonger(old(s.text), opening, first, i, vec);
      s.Print(NextInput(first, i));
    }
  }

  lemma DeclsTextMore(ds: seq<Decl>, d: Decl, ty: string, vec: nat)
    ensures DeclsText(ds + [d], ty, vec) == DeclsText(ds, ty, vec) + DeclText(d, ty, vec)
  {
  }

  /** The declarations of the vector kernels, in the groups in which they are printed. */
  function GatherText(v: Var, first: nat, ty: string, vec: nat): string {
    GatherHead(v, ty) + InputList(first, vec)
  }

  function TempText(v: Var, ty: string): string {
    "  " + ty + " " + VarText(v) + ";\n"
  }

  lemma GatherDecl(v: Var, first: nat, ty: string, vec: nat)
    ensures DeclText(Gather(v, first), ty, vec) == GatherText(v, first, ty, vec) + ");\n"
  {
  }

  lemma OneText(ty: string, vec: nat)
    ensures DeclsText([Gather(A, 0)], ty, vec) == GatherText(A, 0, ty, vec) + ");\n"
  {
    GatherDecl(A, 0, ty, vec);
    assert [Gather(A, 0)][..0] == [];
  }

  lemma TwoJoin(w: string, g: string, e: string, t: string)
    ensures w + (g + e) + t == w + g + (e + t)
  {
    Assoc(w, g, e);
    Assoc(w + g, e, t);
  }

  lemma TwoText(ty: string, vec: nat)
    ensures DeclsText(DeclsOf(Add, vec), ty, vec)
            == DeclsText([Gather(A, 0)], ty, vec) + GatherText(B, vec, ty, vec) + (");\n" + TempText(TMP, ty))
  {
    var a, b, t := Gather(A, 0), Gather(B, vec), Temporary(TMP);
    DeclsTextMore([a], b, ty, vec);
    DeclsTextMore([a] + [b], t, ty, vec);
    assert [a] + [b] + [t] == DeclsOf(Add, vec);
    GatherDecl(B, vec, ty, vec);
    TwoJoin(DeclsText([a], ty, vec), GatherText(B, vec, ty, vec), ");\n", TempText(TMP, ty));
  }

  lemma FourText(ty: string, vec: nat)
    ensures DeclsText(DeclsOf(MadMul, vec), ty, vec)
            == DeclsText(DeclsOf(Add, vec), ty, vec) + GatherText(C, vec, ty, vec)
               + (");\n" + GatherHead(D, ty) + InputList(0, vec)) + (");\n" + TempText(TMP2, ty))
  {
    var two := DeclsOf(Add, vec);
    var c, d, t := Gather(C, vec), Gather(D, 0), Temporary(TMP2);
    DeclsTextMore(two, c, ty, vec);
    DeclsTextMore(two + [c], d, ty, vec);
    DeclsTextMore(two + [c] + [d], t, ty, vec);
    MadMulDecls(vec);
    GatherDecl(C, vec, ty, vec);
    GatherDecl(D, 0, ty, vec);
    FourJoin(DeclsText(two, ty, vec), DeclsText(two + [c], ty, vec), DeclsText(two + [c] + [d], ty, vec),
             GatherText(C, vec, ty, vec), ");\n", GatherHead(D, ty), InputList(0, vec), TempText(TMP2, ty));
  }

  lemma MadMulDecls(vec: nat)
    ensures DeclsOf(MadMul, vec) == DeclsOf(Add, vec) + [Gather(C, vec)] + [Gather(D, 0)] + [Temporary(TMP2)]
  {
  }

  lemma FourJoin(w0: string, w1: string, w2: string, g: string, e: string, h: string, l: string, t: string)
    requires w1 == w0 + (g + e) && w2 == w1 + (h + l + e)
    ensures w2 + t == w0 + g + (e + h + l) + (e + t)
  {
  }

  /** Lines 394 to 406. */
  method PrintSecond(s: TextBuffer, ty: string, vec: nat)
    requires s.Valid() && CString(ty) && vec > 0
    requires |s.text| + |GatherText(B, vec, ty, vec)| + |");\n" + TempText(TMP, ty)| < s.chars.Length
    modifies s, s.chars
    ensures s.Valid()
    ensures s.text == old(s.text) + GatherText(B, vec, ty, vec) + (");\n" + TempText(TMP, ty))
  {
    NamesCString(ty);
    PrintGather(s, GatherHead(B, ty), vec, vec);
    s.Print(");\n" + TempText(TMP, ty));
  }

  /** Lines 407 to 429. */
  method PrintThirdAndFourth(s: TextBuffer, ty: string, vec: nat)
    requires s.Valid() && CString(ty) && vec > 0
    requires |s.text| + |GatherText(C, vec, ty, vec)| + |");\n" + GatherHead(D, ty) + InputList(0, vec)|
             + |");\n" + TempText(TMP2, ty)| < s.chars.Length
    modifies s, s.chars
    ensures s.Valid()
    ensures s.text == old(s.text) + GatherText(C, vec, ty, vec) + (");\n" + GatherHead(D, ty) + InputList(0, vec))
                      + (");\n" + TempText(TMP2, ty))
  {
    NamesCString(ty);
    PrintGather(s, GatherHead(C, ty), vec, vec);
    PrintGather(s, ");\n" + GatherHead(D, ty), 0, vec);
    s.Print(");\n" + TempText(TMP2, ty));
  }

  /** Lines 375 to 431: the vector declarations of a kernel with `binary` operands and `ntemps` temporaries. */
  method PrintVectors(s: TextBuffer, f: Function, ty: string, vec: nat, binary: bool, ntemps: nat)
    requires s.Valid() && CString(ty) && vec > 0 && Room(s, DeclsText(DeclsOf(f, vec), ty, vec))
    requires !PerElement(f) && binary == !f.MathFunction? && (ntemps > 1 <==> f == MadMul)
    modifies s, s.chars
    ensures s.Valid() && s.text == old(s.text) + DeclsText(DeclsOf(f, vec), ty, vec)
  {
    ghost var start := s.text;
    ghost var one, two := DeclsText([Gather(A, 0)], ty, vec), DeclsText(DeclsOf(Add, vec), ty, vec);
    OneText(ty, vec);
    TwoText(ty, vec);
    FourText(ty, vec);
    NamesCString(ty);
    PrintGather(s, GatherHead(A, ty), 0, vec);
    s.PrintCounted(");\n", 3);
    Assoc(start, GatherText(A, 0, ty, vec), ");\n");
    assert s.text == start + one;
    if binary {
      PrintSecond(s, ty, vec);
      ThreeMore(start, one, GatherText(B, vec, ty, vec), ");\n" + TempText(TMP, ty));
      assert s.text == start + two;
      if ntemps > 1 {
        PrintThirdAndFourth(s, ty, vec);
        FourMore(start, two, GatherText(C, vec, ty, vec), ");\n" + GatherHead(D, ty) + InputList(0, vec),
                 ");\n" + TempText(TMP2, ty));
      }
    }
  }

  lemma NamesCString(ty: string)
    requires CString(ty)
    ensures CString(GatherHead(A, ty)) && CString(GatherHead(B, ty)) && CString(GatherHead(C, ty))
    ensures CString(");\n" + GatherHead(D, ty)) && CString(");\n" + TempText(TMP, ty))
    ensures CString(");\n" + TempText(TMP2, ty)) && CString(");\n")
  {
  }

  lemma ThreeMore(start: string, x: string, y: string, z: string)
    ensures start + x + y + z == start + (x + y + z)
  {
  }

  lemma FourMore(start: string, x: string, y: string, z: string, w: string)
    ensures start + x + y + z + w == start + (x + y + z + w)
  {
  }

  // ---- the loop body -------------------------------------------------------------------------

  /** Without a separator, statements are simply printed one after the other. */
  lemma JoinPlain(ss: seq<Statement>, last: Statement, ty: string)
    ensures StatementsText(ss + [last], "", ty) == StatementsText(ss, "", ty) + StatementText(last, ty)
  {
  }

  lemma ElementCodeText(i: nat, op: Operator, ty: string)
    ensures StatementText(Update(Var("a", i), op, Var("b", i)), ty) == ElementCode(i, OperatorChar(op))
    ensures CString(ElementCode(i, OperatorChar(op)))
  {
  }

  /** What one element of row r is printed as; `format` stands for the format string in fctStr. */
  function VliwPieces(format: (nat, char) -> string, vec: nat, r: nat): nat -> string {
    (i: nat) => format(i, OperatorChar(CycleOperator(r * vec + i)))
  }

  function VecPieces(format: (nat, char) -> string): nat -> string {
    (i: nat) => format(i, '-')
  }

  lemma VecPieceText(ss: seq<Statement>, code: string, i: nat, ty: string)
    requires StatementsText(ss, "", ty) == code
    ensures StatementsText(ss + [Update(Var("a", i), Minus, Var("b", i)), Empty], "", ty)
            == code + VecPieces(VecFormat())(i)
  {
    var u := Update(Var("a", i), Minus, Var("b", i));
    ElementCodeText(i, Minus, ty);
    JoinPlain(ss, u, ty);
    JoinPlain(ss + [u], Empty, ty);
    assert ss + [u] + [Empty] == ss + [u, Empty];
    Assoc(code, ElementCode(i, '-'), ";");
  }

  lemma VliwPieceText(ss: seq<Statement>, code: string, vec: nat, r: nat, i: nat, ty: string)
    requires StatementsText(ss, "", ty) == code
    ensures StatementsText(ss + [Update(Var("a", i), CycleOperator(r * vec + i), Var("b", i))], "", ty)
            == code + VliwPieces(VliwFormat(), vec, r)(i)
  {
    ElementCodeText(i, CycleOperator(r * vec + i), ty);
    JoinPlain(ss, Update(Var("a", i), CycleOperator(r * vec + i), Var("b", i)), ty);
  }

  function Pieces(f: Function, vec: nat, r: nat): nat -> string {
    if f == Vec then VecPieces(VecFormat()) else VliwPieces(VliwFormat(), vec, r)
  }

  lemma OneElementText(f: Function, vec: nat, r: nat, n: nat, ty: string)
    requires PerElement(f)
    ensures StatementsText(ElementStatements(f, vec, r, n + 1), "", ty)
            == StatementsText(ElementStatements(f, vec, r, n), "", ty) + Pieces(f, vec, r)(n)
  {
    var ss := ElementStatements(f, vec, r, n);
    if f == Vec {
      VecPieceText(ss, StatementsText(ss, "", ty), n, ty);
    } else {
      VliwPieceText(ss, StatementsText(ss, "", ty), vec, r, n, ty);
    }
  }

  lemma {:induction false} ElementsText(f: Function, vec: nat, r: nat, n: nat, ty: string)
    requires PerElement(f)
    ensures StatementsText(ElementStatements(f, vec, r, n), "", ty) == Join(Pieces(f, vec, r), n)
  {
    if n > 0 {
      ElementsText(f, vec, r, n - 1, ty);
      OneElementText(f, vec, r, n - 1, ty);
    }
  }

  /** The code string of a function: for VLIW it differs from row to row. */
  function RowCode(f: Function, native: bool, vec: nat, r: nat, ty: string): string {
    if PerElement(f) then Join(Pieces(f, vec, r), vec) else FunctionToCode(f, native, ty).0.text
  }

  function RowLine(code: string): string {
    "    " + code + "\n"
  }

  /** The lines of the loop body. */
  function PrintedRows(f: Function, native: bool, vec: nat, ty: string): nat -> string {
    (r: nat) => RowLine(RowCode(f, native, vec, r, ty))
  }

  lemma {:induction false} ElementsSeparator(f: Function, vec: nat, r: nat, n: nat)
    requires PerElement(f)
    ensures Separator(ElementStatements(f, vec, r, n)) == ""
  {
    if n > 1 {
      ElementsSeparator(f, vec, r, n - 1);
    }
  }

  /** The printed row is the text of the row of the kernel. */
  lemma RowCodeText(f: Function, native: bool, vec: nat, r: nat, ty: string)
    ensures RowText(RowOf(f, native, vec, r), ty) == RowLine(RowCode(f, native, vec, r, ty))
  {
    if PerElement(f) {
      ElementsText(f, vec, r, vec, ty);
      ElementsSeparator(f, vec, r, vec);
    } else if f == MadMul {
      MadMulText(native, ty);
    } else if f.MathFunction? {
      MathCodeText(f.math, native, ty);
    } else {
      RecurrenceText(f, native, ty);
    }
  }

  lemma {:induction false} RowsOfAt(f: Function, native: bool, vec: nat, n: nat)
    ensures |RowsOf(f, native, vec, n)| == n
    ensures forall r: nat :: r < n ==> RowsOf(f, native, vec, n)[r] == RowOf(f, native, vec, r)
  {
    if n > 0 {
      RowsOfAt(f, native, vec, n - 1);
    }
  }

  /** The printed lines are the text of the kernel's rows. */
  lemma LinesText(f: Function, native: bool, vec: nat, n: nat, ty: string)
    ensures RowsText(RowsOf(f, native, vec, n), ty) == Join(PrintedRows(f, native, vec, ty), n)
  {
    RowsOfAt(f, native, vec, n);
    forall r: nat | r < n
      ensures RowText(RowsOf(f, native, vec, n)[r], ty) == PrintedRows(f, native, vec, ty)(r)
    {
      RowCodeText(f, native, vec, r, ty);
    }
    RowsAreLines(RowsOf(f, native, vec, n), PrintedRows(f, native, vec, ty), ty);
  }

  /** Lines 357 to 364: the VEC code is itself assembled with sprintf at a moving end. */
  method VecCode(format: (nat, char) -> string, vec: nat) returns (fctStr: string, fctLen: nat)
    ensures fctStr == Join(VecPieces(format), vec) && fctLen == |fctStr|
  {
    fctStr, fctLen := "", 0;
    for i := 0 to vec
      invariant fctStr == Join(VecPieces(format), i) && fctLen == |fctStr|
    {
      fctStr := fctStr[..fctLen] + format(i, '-');
      fctLen := |fctStr|;
    }
  }

  /** Lines 458 to 462. */
  method PrintSameRows(s: TextBuffer, unroll: nat, fctStr: string, fctLen: nat, ghost line: nat -> string)
    requires s.Valid() && fctLen == |fctStr| && forall r: nat :: line(r) == "    " + fctStr + "\n"
    requires CString(fctStr) && Room(s, Join(line, unroll))
    modifies s, s.chars
    ensures s.Valid() && s.text == old(s.text) + Join(line, unroll)
  {
    var piece := "    " + fctStr + "\n";
    assert CString(piece) && |piece| == fctLen + 5;
    for i := 0 to unroll
      invariant s.Valid() && s.text == old(s.text) + Join(line, i)
    {
      JoinStep(old(s.text), line, i, unroll);
      s.PrintCounted(piece, fctLen + 5);
    }
  }

  lemma Operation(n: nat)
    ensures "+*-"[n % 3] == OperatorChar(CycleOperator(n))
  {
  }

  ghost predicate AllCStrings(pieces: nat -> string, n: nat) {
    forall j: nat :: j < n ==> CString(pieces(j))
  }

  /** The line of row r consists of the pieces of its elements. */
  ghost predicate VliwLine(line: nat -> string, fctStr: (nat, char) -> string, vec: nat, r: nat) {
    line(r) == RowLine(Join(VliwPieces(fctStr, vec, r), vec))
  }

  /** Lines 444 to 453, one row: `cnt` runs on from row to row. */
  method PrintVliwRow(s: TextBuffer, fctStr: (nat, char) -> string, vec: nat, start: nat, ghost pieces: nat -> string)
    returns (cnt: nat)
    requires forall j: nat :: j < vec ==> pieces(j) == fctStr(j, OperatorChar(CycleOperator(start + j)))
    requires s.Valid() && AllCStrings(pieces, vec) && Room(s, RowLine(Join(pieces, vec)))
    modifies s, s.chars
    ensures s.Valid() && s.text == old(s.text) + RowLine(Join(pieces, vec)) && cnt == start + vec
  {
    var operation := "+*-";
    cnt := start;
    s.PrintCounted("    ", 4);
    ghost var head := s.text;
    for j := 0 to vec
      invariant s.Valid() && s.text == head + Join(pieces, j) && cnt == start + j
    {
      Operation(cnt);
      JoinStep(head, pieces, j, vec);
      s.Print(fctStr(j, operation[cnt % 3]));
      cnt := cnt + 1;
    }
    s.PrintCounted("\n", 1);
    ThreeMore(old(s.text), "    ", Join(pieces, vec), "\n");
  }

  lemma PiecesFrom(fctStr: (nat, char) -> string, vec: nat, r: nat, start: nat)
    requires start == r * vec
    ensures forall j: nat :: VliwPieces(fctStr, vec, r)(j) == fctStr(j, OperatorChar(CycleOperator(start + j)))
    ensures start + vec == (r + 1) * vec
  {
  }

  /** Lines 440 to 454. */
  method PrintVliwRows(s: TextBuffer, fctStr: (nat, char) -> string, vec: nat, unroll: nat, ghost line: nat -> string)
    requires s.Valid() && Room(s, Join(line, unroll))
    requires forall r: nat :: AllCStrings(VliwPieces(fctStr, vec, r), vec)
    requires forall r: nat :: VliwLine(line, fctStr, vec, r)
    modifies s, s.chars
    ensures s.Valid() && s.text == old(s.text) + Join(line, unroll)
  {
    var cnt := 0;
    for i := 0 to unroll
      invariant s.Valid() && s.text == old(s.text) + Join(line, i) && cnt == i * vec
    {
      JoinStep(old(s.text), line, i, unroll);
      PiecesFrom(fctStr, vec, i, cnt);
      assert VliwLine(line, fctStr, vec, i);
      cnt := PrintVliwRow(s, fctStr, vec, cnt, VliwPieces(fctStr, vec, i));
    }
  }

  // ---- results and the whole program ---------------------------------------------------------

  function PrintedOutputs(f: Function, vec: nat): nat -> string {
    (i: nat) => OutputText(OutputOf(f, vec, i), vec)
  }

  lemma TermCString(t: Term)
    requires CString(t.v.letters)
    ensures CString(TermText(t))
  {
  }

  lemma OutputCString(f: Function, vec: nat, i: nat)
    ensures CString(OutputText(OutputOf(f, vec, i), vec))
  {
    var o := OutputOf(f, vec, i);
    TermCString(o.terms[0]);
    if f == MadMul {
      TermCString(o.terms[1]);
      assert o.terms[..1] == [o.terms[0]];
      assert TermsText(o.terms) == TermText(o.terms[0]) + " + " + TermText(o.terms[1]);
    }
    assert CString(TermsText(o.terms));
  }

  lemma AllOutputs(f: Function, vec: nat)
    requires vec > 0
    ensures OutputsText(OutputsOf(f, vec, vec), vec) == Join(PrintedOutputs(f, vec), vec)
    ensures forall i: nat :: i < vec ==> CString(PrintedOutputs(f, vec)(i))
  {
    forall i: nat | i < vec
      ensures |OutputsOf(f, vec, vec)| == vec && OutputsOf(f, vec, vec)[i] == OutputOf(f, vec, i)
      ensures CString(PrintedOutputs(f, vec)(i))
    {
      OutputAt(f, vec, vec, i);
      OutputCString(f, vec, i);
    }
    OutputsAreLines(OutputsOf(f, vec, vec), PrintedOutputs(f, vec), vec);
  }

  // ---- the whole program ---------------------------------------------------------------------

  /** getTypeStr with a vector width: None where it reports an invalid vector type. */
  function VectorType(t: ElementType, vec: nat): Option<string> {
    if t == IntType then if vec == 1 then Some("int") else None
    else if vec == 1 then Some(TypeName(t))
    else if vec == 2 || vec == 4 || vec == 8 || vec == 16 then Some(TypeName(t) + Decimal(vec))
    else None
  }

  /** The type of the private variables. */
  function PrivateType(f: Function, t: ElementType, vec: nat): Option<string> {
    if PerElement(f) then Some(TypeName(t)) else VectorType(t, vec)
  }

  /** How that type is spelled, and when there is none. */
  lemma PrivateTypeSpelled(f: Function, t: ElementType, vec: nat)
    ensures var name := match t case IntType => "int" case FloatType => "float" case DoubleType => "double";
            PrivateType(f, t, vec)
            == if f == Vec || f == Vliw || vec == 1 then Some(name)
               else if t == IntType then None
               else if vec == 2 then Some(name + "2")
               else if vec == 4 then Some(name + "4")
               else if vec == 8 then Some(name + "8")
               else if vec == 16 then Some(name + "16")
               else None
  {
    Spellings();
  }

  // ---- the kernels genKernel builds can be read back -------------------------------------------

  lemma RecurrenceReadable(f: Function, native: bool)
    ensures IsSum(Recurrence(f, native))
  {
  }

  lemma SimpleReadable(v: Var, f: Math, native: bool)
    requires KernelVar(v)
    ensures IsSum(Ref(v)) && IsSum(Apply(f, native, Ref(v))) && IsSum(Binary(Times, Ref(C), Ref(D)))
  {
    assert IsFactor(Ref(v)) && IsFactor(Ref(C)) && IsFactor(Ref(D));
    assert IsProduct(Ref(v)) && IsProduct(Ref(C)) && IsSum(Ref(v));
    assert IsFactor(Apply(f, native, Ref(v)));
    assert IsProduct(Apply(f, native, Ref(v)));
  }

  lemma {:induction false} ElementsReadable(f: Function, vec: nat, r: nat, n: nat)
    ensures ReadableStatements(ElementStatements(f, vec, r, n))
  {
    if n > 0 {
      ElementsReadable(f, vec, r, n - 1);
    }
  }

  lemma RowReadable(f: Function, native: bool, vec: nat, r: nat)
    ensures ReadableStatements(RowOf(f, native, vec, r).statements)
  {
    ElementsReadable(f, vec, r, vec);
    RecurrenceReadable(f, native);
    SimpleReadable(A, if f.MathFunction? then f.math else Exp, native);
    SimpleReadable(B, Exp, native);
    SimpleReadable(D, Exp, native);
    SimpleReadable(TMP, Exp, native);
    SimpleReadable(TMP2, Exp, native);
  }

  lemma DeclsReadable(f: Function, vec: nat)
    ensures forall i :: 0 <= i < |DeclsOf(f, vec)| ==> ReadableDecl(DeclsOf(f, vec)[i])
  {
    PairDeclsAt(vec, vec);
  }

  lemma OutputsReadable(f: Function, vec: nat)
    requires vec > 0 && (PerElement(f) || vec <= 16)
    ensures forall i :: 0 <= i < |OutputsOf(f, vec, vec)| ==> ReadableOutput(OutputsOf(f, vec, vec)[i])
  {
    OutputAt(f, vec, vec, 0);
    forall i | 0 <= i < vec
      ensures ReadableOutput(OutputsOf(f, vec, vec)[i])
    {
      OutputAt(f, vec, vec, i);
    }
  }

  lemma KernelReadable(f: Function, native: bool, vec: nat, unroll: nat)
    requires vec > 0 && (PerElement(f) || vec <= 16)
    ensures ReadableKernel(MakeKernel(f, native, vec, unroll))
  {
    DeclsReadable(f, vec);
    OutputsReadable(f, vec);
    RowsOfAt(f, native, vec, unroll);
    forall r: nat | r < unroll
      ensures ReadableStatements(RowsOf(f, native, vec, unroll)[r].statements)
    {
      RowReadable(f, native, vec, r);
    }
  }

  lemma TypeIsLine(f: Function, t: ElementType, vec: nat)
    ensures PrivateType(f, t, vec).Some? ==>
              IsLine(PrivateType(f, t, vec).value) && (PerElement(f) || vec <= 16)
  {
  }

  /** The program of a kernel reads back as the kernel. */
  lemma ProgramRead(f: Function, native: bool, t: ElementType, vec: nat, local: nat, unroll: nat, ty: string)
    requires vec > 0 && PrivateType(f, t, vec) == Some(ty)
    ensures ReadProgram(ProgramText(f, native, t, vec, local, unroll, ty), ty, vec)
            == Some((HeaderOf(t, local), MakeKernel(f, native, vec, unroll)))
  {
    TypeIsLine(f, t, vec);
    KernelReadable(f, native, vec, unroll);
    ReadOfPrinted(MakeKernel(f, native, vec, unroll), t, local, ty, vec);
  }

  /** The program genKernel hands to the compiler. */
  function ProgramText(f: Function, native: bool, t: ElementType, vec: nat, local: nat, unroll: nat, ty: string)
    : string
  {
    KernelText(MakeKernel(f, native, vec, unroll), t, local, ty, vec)
  }

  lemma TypeCString(f: Function, t: ElementType, vec: nat)
    ensures PrivateType(f, t, vec).Some? ==> CString(PrivateType(f, t, vec).value)
  {
  }

  ghost predicate TextLines(lines: seq<string>) {
    forall k :: 0 <= k < |lines| ==> CString(lines[k])
  }

  lemma EnableTextLines(name: string)
    requires CString(name)
    ensures TextLines(EnableLines(name))
  {
    assert CString("#ifdef ") && CString("#pragma OPENCL EXTENSION ") && CString(" : enable") && CString("#endif");
  }

  lemma PreambleTextLines(t: ElementType)
    ensures TextLines(PreambleLines(t))
  {
    assert CString("cl_khr_fp64") && CString("cl_amd_fp64");
    EnableTextLines("cl_khr_fp64");
    EnableTextLines("cl_amd_fp64");
  }

  lemma FirstLiterals()
    ensures CString("__kernel __attribute__((") && CString("reqd_work_group_size (")
    ensures CString(",1,1))) void arith_speed(")
  {
  }

  lemma MiddleLiterals()
    ensures CString(" \t            __global ") && CString("* input, ") && CString("* output, ")
    ensures CString(" \t            const ") && CString("unsigned int iterations) ")
  {
  }

  lemma LastLiterals()
    ensures CString(" { ") && CString("   unsigned int i; ") && CString(GID_LINE)
  {
    assert CString("   unsigned int gid") && CString(" = get_global_id(0);");
  }

  lemma SignatureTextLines(t: ElementType, local: nat)
    ensures TextLines(SignatureLines(t, local))
  {
    FirstLiterals();
    MiddleLiterals();
    LastLiterals();
  }

  lemma HeaderCString(t: ElementType, local: nat)
    ensures CString(HeaderText(t, local))
  {
    PreambleTextLines(t);
    SignatureTextLines(t, local);
    LastLiterals();
    UnlinesCString(PreambleLines(t) + SignatureLines(t, local) + [GID_LINE]);
  }

  /** Lines 357 to 366 and 384 to 389, then the loop body. */
  method PrintLoopBody(s: TextBuffer, f: Function, native: bool, vec: nat, unroll: nat, ty: string)
    requires s.Valid() && CString(ty) && Room(s, RowsText(RowsOf(f, native, vec, unroll), ty))
    modifies s, s.chars
    ensures s.Valid() && s.text == old(s.text) + RowsText(RowsOf(f, native, vec, unroll), ty)
  {
    ghost var line := PrintedRows(f, native, vec, ty);
    LinesText(f, native, vec, unroll, ty);
    var (code, _, _) := FunctionToCode(f, native, ty);
    if f == Vliw {
      PiecesCString(vec);
      VliwLines(native, vec, ty);
      PrintVliwRows(s, code.format, vec, unroll, line);
    } else if f == Vec {
      var fctStr, fctLen := VecCode(code.format, vec);
      VecCodeCString(vec);
      PrintSameRows(s, unroll, fctStr, fctLen, line);
    } else {
      CodeCString(f, native, ty);
      PrintSameRows(s, unroll, code.text, |code.text|, line);
    }
  }

  lemma VliwLines(native: bool, vec: nat, ty: string)
    ensures forall r: nat :: VliwLine(PrintedRows(Vliw, native, vec, ty), VliwFormat(), vec, r)
  {
  }

  lemma PiecesCString(vec: nat)
    ensures forall r: nat :: AllCStrings(VliwPieces(VliwFormat(), vec, r), vec)
  {
  }

  lemma VecCodeCString(vec: nat)
    ensures CString(Join(VecPieces(VecFormat()), vec))
  {
  }

  lemma MadCString(ty: string)
    requires CString(ty)
    ensures CString("tmp = a * b + (" + ty + ")0.1;") && CString(" tmp2 = c * d;") && CString(" c = d; d = tmp2;")
  {
    assert CString("tmp = a * b + (") && CString(")0.1;");
  }

  lemma MathCString(m: Math, native: bool, ty: string)
    requires CString(ty)
    ensures CString(FunctionToCode(MathFunction(m), native, ty).0.text)
  {
    assert CString(MathText(m)) && CString("a = native_") && CString("a = ") && CString("(a");
    assert CString(", (" + ty + ")2.0)") && CString(")");
  }

  lemma TwoTermCString(f: Function, native: bool, ty: string)
    requires f == Add || f == Sub || f == Mul || f == Div
    ensures CString(FunctionToCode(f, native, ty).0.text)
  {
    assert CString(ROTATE);
    assert CString("tmp = native_divide(a,b);") && CString("tmp = a / b;");
  }

  lemma CodeCString(f: Function, native: bool, ty: string)
    requires CString(ty) && !PerElement(f)
    ensures CString(FunctionToCode(f, native, ty).0.text)
  {
    if f == Mad || f == MadMul {
      MadCString(ty);
      assert CString(ROTATE);
    } else if f.MathFunction? {
      MathCString(f.math, native, ty);
    } else {
      TwoTermCString(f, native, ty);
    }
  }

  /** Lines 433 to 465. */
  method PrintLoop(s: TextBuffer, f: Function, native: bool, vec: nat, unroll: nat, ty: string)
    requires s.Valid() && CString(ty)
    requires |s.text| + 36 + |RowsText(RowsOf(f, native, vec, unroll), ty)| + 4 < s.chars.Length
    modifies s, s.chars
    ensures s.Valid()
    ensures s.text == old(s.text) + LOOP_HEAD + RowsText(RowsOf(f, native, vec, unroll), ty) + LOOP_END
  {
    s.PrintCounted(LOOP_HEAD, 36);
    PrintLoopBody(s, f, native, vec, unroll, ty);
    s.PrintCounted(LOOP_END, 4);
  }

  /** Lines 467 to 500. */
  method PrintOutputs(s: TextBuffer, f: Function, vec: nat)
    requires s.Valid() && vec > 0 && |s.text| + |OutputsText(OutputsOf(f, vec, vec), vec)| + 2 < s.chars.Length
    modifies s, s.chars
    ensures s.Valid() && s.text == old(s.text) + OutputsText(OutputsOf(f, vec, vec), vec) + "}\n"
  {
    AllOutputs(f, vec);
    PrintAll(s, PrintedOutputs(f, vec), vec);
    s.PrintCounted("}\n", 2);
  }

  /** Lines 347 to 431 for a type that is not refused. */
  method PrintDeclarations(s: TextBuffer, f: Function, native: bool, vec: nat, ty: string)
    requires s.Valid() && CString(ty) && vec > 0 && Room(s, DeclsText(DeclsOf(f, vec), ty, vec))
    modifies s, s.chars
    ensures s.Valid() && s.text == old(s.text) + DeclsText(DeclsOf(f, vec), ty, vec)
  {
    if PerElement(f) {
      PrintPairs(s, ty, vec);
    } else {
      var (_, binary, ntemps) := FunctionToCode(f, native, ty);
      PrintVectors(s, f, ty, vec, binary, ntemps);
    }
  }

  /** The length of a program by its parts. */
  lemma ProgramLength(h: string, d: string, r: string, o: string)
    ensures |h + d + LOOP_HEAD + r + LOOP_END + o + "}\n"| == |h| + |d| + 36 + |r| + 4 + |o| + 2
  {
  }

  /**
   * genKernel up to the compiler call. The text handed over is the text of the kernel; the cursor
   * equals strlen before every sprintf, which TextBuffer's invariant demands.
   */
  method GenKernel(f: Function, native: bool, t: ElementType, vec: nat, local: nat, unroll: nat, capacity: nat)
    returns (program: Option<string>)
    requires vec > 0
    requires PrivateType(f, t, vec).Some? ==>
               |ProgramText(f, native, t, vec, local, unroll, PrivateType(f, t, vec).value)| < capacity
    ensures program == match PrivateType(f, t, vec)
                       case None => None
                       case Some(ty) => Some(ProgramText(f, native, t, vec, local, unroll, ty))
    ensures program.Some? ==>
              ReadProgram(program.value, PrivateType(f, t, vec).value, vec)
              == Some((HeaderOf(t, local), MakeKernel(f, native, vec, unroll)))
  {
    var ptype := PrivateType(f, t, vec);
    if ptype.None? {
      return None;
    }
    TypeCString(f, t, vec);
    var code := PrintProgram(f, native, t, vec, local, unroll, capacity, ptype.value);
    ProgramRead(f, native, t, vec, local, unroll, ptype.value);
    return Some(code);
  }

  method PrintProgram(f: Function, native: bool, t: ElementType, vec: nat, local: nat, unroll: nat, capacity: nat,
                      ty: string) returns (code: string)
    requires vec > 0 && CString(ty) && |ProgramText(f, native, t, vec, local, unroll, ty)| < capacity
    ensures code == ProgramText(f, native, t, vec, local, unroll, ty)
  {
    HeaderCString(t, local);
    code := PrintParts(HeaderText(t, local), f, native, vec, unroll, capacity, ty);
  }

  method PrintParts(head: string, f: Function, native: bool, vec: nat, unroll: nat, capacity: nat, ty: string)
    returns (code: string)
    requires vec > 0 && CString(ty) && CString(head)
    requires |head + DeclsText(DeclsOf(f, vec), ty, vec) + LOOP_HEAD + RowsText(RowsOf(f, native, vec, unroll), ty)
              + LOOP_END + OutputsText(OutputsOf(f, vec, vec), vec) + "}\n"| < capacity
    ensures code == head + DeclsText(DeclsOf(f, vec), ty, vec) + LOOP_HEAD
                    + RowsText(RowsOf(f, native, vec, unroll), ty) + LOOP_END
                    + OutputsText(OutputsOf(f, vec, vec), vec) + "}\n"
  {
    ProgramLength(head, DeclsText(DeclsOf(f, vec), ty, vec), RowsText(RowsOf(f, native, vec, unroll), ty),
                  OutputsText(OutputsOf(f, vec, vec), vec));
    var s := new TextBuffer(capacity, head);
    PrintDeclarations(s, f, native, vec, ty);
    PrintLoop(s, f, native, vec, unroll, ty);
    PrintOutputs(s, f, vec);
    code := s.Contents();
  }
}
